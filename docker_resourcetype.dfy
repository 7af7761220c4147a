/** The Docker plugin's resource-type directories: "container" lists the
    container IDs as files and "volume" lists the volume names as
    directories. Both read the identifiers through a cache keyed by the
    resource type's path; a cache miss calls the Docker client, records the
    time of the fetch, and (for volumes) also caches each volume's JSON. */
module DockerResources {
  import opened Plugin

  /** A container as the client's `ContainerList` reports it. */
  datatype Container = Container(id: string, image: string)

  /** A volume as the client's `VolumeList` reports it. */
  datatype Volume = Volume(name: string, driver: string, mountpoint: string)

  /** What the cache stores: a list of identifiers, or a JSON document. */
  datatype CacheValue = Strings(list: seq<string>) | Json(document: string)

  /** A filesystem node: a container is a file, a volume a directory. */
  datatype Node = File(name: string) | Dir(name: string)

  const ContainerType: string := "container"
  const VolumeType: string := "volume"

  /** The resource types the plugin knows. */
  const KnownTypes: set<string> := {ContainerType, VolumeType}

  /** `datastore.ContainsString`: exact, case-sensitive membership. */
  function Contains(xs: seq<string>, s: string): (r: bool)
    ensures r <==> s in xs
  {
    if xs == [] then false
    else xs[0] == s || Contains(xs[1..], s)
  }

  /** The node a listed identifier becomes. */
  function NodeFor(typename: string, id: string): Node {
    if typename == ContainerType then File(id) else Dir(id)
  }

  /** The decision `Find` takes once its type is known to have a list:
      a node for a listed name, `ENOENT` for any other, `ENOTSUP` for an
      unknown type, and the fetch error unchanged. */
  function Lookup(typename: string, listed: Result<seq<string>>, name: string): (r: Result<Node>)
    ensures typename !in KnownTypes ==> r == Err(ENOTSUP)
    ensures typename in KnownTypes && listed.Err? ==> r == Err(listed.error)
    ensures typename in KnownTypes && listed.Ok? ==> (r.Ok? <==> name in listed.value)
    ensures typename in KnownTypes && listed.Ok? && r.Err? ==> r.error == ENOENT
    ensures r.Ok? ==> r.value.name == name && (r.value.File? <==> typename == ContainerType)
  {
    if typename == ContainerType || typename == VolumeType then
      match listed
      case Err(e) => Err(e)
      case Ok(ids) =>
        if Contains(ids, name) then Ok(NodeFor(typename, name)) else Err(ENOENT)
    else Err(ENOTSUP)
  }

  /** The client's containers projected to their IDs, in order. */
  function ContainerIds(cs: seq<Container>): seq<string> {
    seq(|cs|, i requires 0 <= i < |cs| => cs[i].id)
  }

  /** The client's volumes projected to their names, in order. */
  function VolumeNames(vs: seq<Volume>): seq<string> {
    seq(|vs|, i requires 0 <= i < |vs| => vs[i].name)
  }

  /** The key under which a volume's JSON is cached, below the type's key. */
  function JsonKey(base: string, volume: string): string {
    base + "/" + volume
  }

  lemma JsonKeyInjective(base: string, a: string, b: string)
    requires JsonKey(base, a) == JsonKey(base, b)
    ensures a == b
  {
    var n := |base| + 1;
    assert JsonKey(base, a)[n..] == a;
    assert JsonKey(base, b)[n..] == b;
  }

  /** The per-volume JSON documents a volume fetch caches, in volume order:
      a volume whose marshalling fails adds nothing. */
  function VolumeBlobs(base: string, vols: seq<Volume>, marshal: Volume -> Option<string>): map<string, CacheValue> {
    if vols == [] then map[]
    else
      var m := VolumeBlobs(base, vols[..|vols| - 1], marshal);
      var v := vols[|vols| - 1];
      match marshal(v)
      case Some(js) => m[JsonKey(base, v.name) := Json(js)]
      case None => m
  }

  ghost predicate DistinctNames(vols: seq<Volume>) {
    forall i, j :: 0 <= i < j < |vols| ==> vols[i].name != vols[j].name
  }

  /** With distinct volume names, the last volume's key is no earlier volume's key. */
  lemma LastKeyFresh(base: string, vols: seq<Volume>)
    requires vols != [] && DistinctNames(vols)
    ensures forall i :: 0 <= i < |vols| - 1 ==> JsonKey(base, vols[i].name) != JsonKey(base, vols[|vols| - 1].name)
  {
    forall i | 0 <= i < |vols| - 1
      ensures JsonKey(base, vols[i].name) != JsonKey(base, vols[|vols| - 1].name)
    {
      if JsonKey(base, vols[i].name) == JsonKey(base, vols[|vols| - 1].name) {
        JsonKeyInjective(base, vols[i].name, vols[|vols| - 1].name);
      }
    }
  }

  /** Nothing but the keys of volumes that marshal is cached. */
  lemma {:induction false} VolumeBlobsOnly(base: string, vols: seq<Volume>, marshal: Volume -> Option<string>)
    ensures forall k :: k in VolumeBlobs(base, vols, marshal) ==>
      exists i :: 0 <= i < |vols| && marshal(vols[i]).Some? && k == JsonKey(base, vols[i].name)
  {
    if vols != [] {
      var init := vols[..|vols| - 1];
      var v := vols[|vols| - 1];
      VolumeBlobsOnly(base, init, marshal);
      forall k | k in VolumeBlobs(base, vols, marshal)
        ensures exists i :: 0 <= i < |vols| && marshal(vols[i]).Some? && k == JsonKey(base, vols[i].name)
      {
        if k != JsonKey(base, v.name) || marshal(v).None? {
          assert k in VolumeBlobs(base, init, marshal);
          var i :| 0 <= i < |init| && marshal(init[i]).Some? && k == JsonKey(base, init[i].name);
          assert vols[i] == init[i];
        }
      }
    }
  }

  /** Each volume that marshals is cached under its own key with its JSON. */
  lemma {:induction false} VolumeBlobsCached(base: string, vols: seq<Volume>, marshal: Volume -> Option<string>)
    requires DistinctNames(vols)
    ensures forall i :: 0 <= i < |vols| && marshal(vols[i]).Some? ==>
      && JsonKey(base, vols[i].name) in VolumeBlobs(base, vols, marshal)
      && VolumeBlobs(base, vols, marshal)[JsonKey(base, vols[i].name)] == Json(marshal(vols[i]).value)
  {
    if vols != [] {
      var init := vols[..|vols| - 1];
      assert DistinctNames(init);
      VolumeBlobsCached(base, init, marshal);
      LastKeyFresh(base, vols);
      forall i | 0 <= i < |vols| - 1 && marshal(vols[i]).Some?
        ensures JsonKey(base, vols[i].name) in VolumeBlobs(base, vols, marshal)
             && VolumeBlobs(base, vols, marshal)[JsonKey(base, vols[i].name)] == Json(marshal(vols[i]).value)
      {
        assert vols[i] == init[i];
      }
    }
  }

  /** A volume that fails to marshal leaves its key out of the cache. */
  lemma {:induction false} VolumeBlobsSkipped(base: string, vols: seq<Volume>, marshal: Volume -> Option<string>)
    requires DistinctNames(vols)
    ensures forall i :: 0 <= i < |vols| && marshal(vols[i]).None? ==>
      JsonKey(base, vols[i].name) !in VolumeBlobs(base, vols, marshal)
  {
    if vols != [] {
      var init := vols[..|vols| - 1];
      var v := vols[|vols| - 1];
      assert DistinctNames(init);
      VolumeBlobsSkipped(base, init, marshal);
      LastKeyFresh(base, vols);
      forall i | 0 <= i < |vols| - 1 && marshal(vols[i]).None?
        ensures JsonKey(base, vols[i].name) !in VolumeBlobs(base, vols, marshal)
      {
        assert vols[i] == init[i];
      }
      if marshal(v).None? {
        VolumeBlobsOnly(base, init, marshal);
        assert JsonKey(base, v.name) !in VolumeBlobs(base, init, marshal);
      }
    }
  }

  /** One more volume adds its document to the cache, if it marshals. */
  lemma VolumeBlobsSnoc(base: string, vols: seq<Volume>, i: nat, marshal: Volume -> Option<string>)
    requires i < |vols|
    ensures marshal(vols[i]).Some? ==>
      VolumeBlobs(base, vols[..i + 1], marshal)
        == VolumeBlobs(base, vols[..i], marshal)[JsonKey(base, vols[i].name) := Json(marshal(vols[i]).value)]
    ensures marshal(vols[i]).None? ==> VolumeBlobs(base, vols[..i + 1], marshal) == VolumeBlobs(base, vols[..i], marshal)
  {
    assert vols[..i + 1][..i] == vols[..i];
  }

  lemma MergeThenSet<K, V>(a: map<K, V>, b: map<K, V>, k: K, v: V)
    ensures (a + b)[k := v] == a + b[k := v]
  {
  }

  /** The Docker plugin's root: its name, the time of the last successful
      fetch, the cache, and what the Docker client currently reports. */
  class Root {
    const name: string
    var updated: int
    var cache: map<string, CacheValue>
    var containers: seq<Container>
    var volumes: seq<Volume>

    constructor (name: string, containers: seq<Container>, volumes: seq<Volume>)
      ensures this.name == name && this.containers == containers && this.volumes == volumes
      ensures updated == 0 && cache == map[]
    {
      this.name := name;
      this.containers := containers;
      this.volumes := volumes;
      updated := 0;
      cache := map[];
    }
  }

  /** One resource-type directory. `reqs` holds the last-update time of each
      stream buffer attached to the type. */
  class ResourceType {
    const root: Root
    const typename: string
    var reqs: map<string, int>

    constructor (root: Root, typename: string)
      ensures this.root == root && this.typename == typename && reqs == map[]
    {
      this.root := root;
      this.typename := typename;
      reqs := map[];
    }

    function Name(): (n: string)
      ensures n == typename
    {
      typename
    }

    /** The type's unique path, which is also its cache key: the root's name
        and the type's name can both be read back from it. */
    function String(): (s: string)
      ensures |s| == |root.name| + 1 + |typename|
      ensures s[..|root.name|] == root.name && s[|root.name|] == '/' && s[|root.name| + 1..] == typename
    {
      root.name + "/" + Name()
    }

    /** The identifier list the cache holds under the type's key, if any. */
    function CachedList(): Option<seq<string>>
      reads root
    {
      var key := String();
      if key in root.cache && root.cache[key].Strings? then Some(root.cache[key].list) else None
    }

    /** What the type's cached-list accessor yields: the cached list, or else
        the client's error, or else the identifiers the client reports. */
    ghost function Fetched(fault: Option<Error>): Result<seq<string>>
      reads root
    {
      if CachedList().Some? then Ok(CachedList().value)
      else if fault.Some? then Err(fault.value)
      else if typename == ContainerType then Ok(ContainerIds(root.containers))
      else Ok(VolumeNames(root.volumes))
    }

    /** The cache after a fetch on a miss succeeds, from the cache `before`
        it: the type's list under its key and, for volumes, the JSON of
        every volume that marshals. */
    ghost function CacheAfterFetch(before: map<string, CacheValue>, marshal: Volume -> Option<string>): map<string, CacheValue>
      reads root
    {
      if typename == ContainerType then before[String() := Strings(ContainerIds(root.containers))]
      else (before + VolumeBlobs(String(), root.volumes, marshal))[String() := Strings(VolumeNames(root.volumes))]
    }

    /** `cachedContainerList`: on a cache miss, call `ContainerList`; on
        success project each container to its ID in the client's order,
        record `now` as the update time and cache the list. A client error
        is returned unchanged and changes nothing. */
    method CachedContainerList(fault: Option<Error>, now: int) returns (r: Result<seq<string>>)
      modifies root`cache, root`updated
      ensures old(CachedList()).Some? ==> r == Ok(old(CachedList()).value) && unchanged(root)
      ensures old(CachedList()).None? && fault.Some? ==> r == Err(fault.value) && unchanged(root)
      ensures old(CachedList()).None? && fault.None? ==>
        && r == Ok(ContainerIds(root.containers))
        && root.updated == now
        && root.cache == old(root.cache)[String() := Strings(r.value)]
    {
      var hit := CachedList();
      if hit.Some? {
        return Ok(hit.value);
      }
      if fault.Some? {
        return Err(fault.value);
      }
      var containers := root.containers;
      var strings := new string[|containers|];
      for i := 0 to |containers|
        invariant forall j :: 0 <= j < i ==> strings[j] == containers[j].id
        invariant unchanged(root)
      {
        strings[i] := containers[i].id;
      }
      assert strings[..] == ContainerIds(containers);
      root.updated := now;
      root.cache := root.cache[String() := Strings(strings[..])];
      r := Ok(strings[..]);
    }

    /** `cachedVolumeList`: as for containers, with volume names; each volume
        that marshals to JSON is also cached under `String() + "/" + name`,
        and one that does not is only skipped. */
    method CachedVolumeList(fault: Option<Error>, now: int, marshal: Volume -> Option<string>)
      returns (r: Result<seq<string>>)
      modifies root`cache, root`updated
      ensures old(CachedList()).Some? ==> r == Ok(old(CachedList()).value) && unchanged(root)
      ensures old(CachedList()).None? && fault.Some? ==> r == Err(fault.value) && unchanged(root)
      ensures old(CachedList()).None? && fault.None? ==>
        && r == Ok(VolumeNames(root.volumes))
        && root.updated == now
        && root.cache == (old(root.cache) + VolumeBlobs(String(), root.volumes, marshal))[String() := Strings(r.value)]
    {
      var hit := CachedList();
      if hit.Some? {
        return Ok(hit.value);
      }
      if fault.Some? {
        return Err(fault.value);
      }
      var volumes := root.volumes;
      var strings := new string[|volumes|];
      var i := 0;
      while i < |volumes|
        invariant 0 <= i <= |volumes|
        invariant forall j :: 0 <= j < i ==> strings[j] == volumes[j].name
        invariant root.cache == old(root.cache) + VolumeBlobs(String(), volumes[..i], marshal)
      {
        strings[i] := volumes[i].name;
        VolumeBlobsSnoc(String(), volumes, i, marshal);
        var js := marshal(volumes[i]);
        if js.Some? {
          var key := JsonKey(String(), volumes[i].name);
          MergeThenSet(old(root.cache), VolumeBlobs(String(), volumes[..i], marshal), key, Json(js.value));
          root.cache := root.cache[key := Json(js.value)];
        }
        i := i + 1;
      }
      assert volumes[..i] == volumes;
      assert strings[..] == VolumeNames(volumes);
      root.updated := now;
      root.cache := root.cache[String() := Strings(strings[..])];
      r := Ok(strings[..]);
    }

    /** `Find`: look the name up in the type's cached list. */
    method Find(name: string, fault: Option<Error>, now: int, marshal: Volume -> Option<string>)
      returns (r: Result<Node>)
      modifies root`cache, root`updated
      ensures r == Lookup(typename, old(Fetched(fault)), name)
      ensures typename !in KnownTypes ==> unchanged(root)
      ensures typename in KnownTypes && (old(CachedList()).Some? || fault.Some?) ==> unchanged(root)
      ensures typename in KnownTypes && old(CachedList()).None? && fault.None? ==>
        root.updated == now && root.cache == old(CacheAfterFetch(root.cache, marshal))
    {
      if typename == ContainerType {
        var containers := CachedContainerList(fault, now);
        if containers.Err? {
          return Err(containers.error);
        }
        if Contains(containers.value, name) {
          return Ok(File(name));
        }
        return Err(ENOENT);
      } else if typename == VolumeType {
        var volumes := CachedVolumeList(fault, now, marshal);
        if volumes.Err? {
          return Err(volumes.error);
        }
        if Contains(volumes.value, name) {
          return Ok(Dir(name));
        }
        return Err(ENOENT);
      }
      return Err(ENOTSUP);
    }

    /** `List`: one node per cached identifier, in the same order. */
    method List(fault: Option<Error>, now: int, marshal: Volume -> Option<string>)
      returns (r: Result<seq<Node>>)
      modifies root`cache, root`updated
      ensures typename !in KnownTypes ==> r == Err(ENOTSUP) && unchanged(root)
      ensures typename in KnownTypes && old(Fetched(fault)).Err? ==> r == Err(old(Fetched(fault)).error)
      ensures typename in KnownTypes && old(Fetched(fault)).Ok? ==>
        var ids := old(Fetched(fault)).value;
        && r.Ok?
        && |r.value| == |ids|
        && forall i :: 0 <= i < |ids| ==> r.value[i] == NodeFor(typename, ids[i])
      ensures typename in KnownTypes && (old(CachedList()).Some? || fault.Some?) ==> unchanged(root)
      ensures typename in KnownTypes && old(CachedList()).None? && fault.None? ==>
        root.updated == now && root.cache == old(CacheAfterFetch(root.cache, marshal))
    {
      if typename == ContainerType {
        var containers := CachedContainerList(fault, now);
        if containers.Err? {
          return Err(containers.error);
        }
        var keys := Wrap(typename, containers.value);
        return Ok(keys);
      } else if typename == VolumeType {
        var volumes := CachedVolumeList(fault, now, marshal);
        if volumes.Err? {
          return Err(volumes.error);
        }
        var keys := Wrap(typename, volumes.value);
        return Ok(keys);
      }
      return Err(ENOTSUP);
    }

    /** `Attr`: the modification time is the latest of the root's shared
        update time and every stream buffer's last update. */
    method Attr() returns (attr: Attributes)
      ensures attr.crtime.None? && attr.ctime.None? && attr.mtime.Some?
      ensures attr.mtime.value >= root.updated
      ensures forall k :: k in reqs ==> attr.mtime.value >= reqs[k]
      ensures attr.mtime.value == root.updated || attr.mtime.value in reqs.Values
    {
      var latest := root.updated;
      var pending := reqs.Keys;
      while pending != {}
        invariant pending <= reqs.Keys
        invariant latest >= root.updated
        invariant forall k :: k in reqs && k !in pending ==> latest >= reqs[k]
        invariant latest == root.updated || latest in reqs.Values
        decreases pending
      {
        var k :| k in pending;
        if reqs[k] > latest {
          latest := reqs[k];
        }
        pending := pending - {k};
      }
      attr := Attributes(None, None, Some(latest));
    }
  }

  /** The loop of `List` that fills the preallocated node array. */
  method Wrap(typename: string, ids: seq<string>) returns (keys: seq<Node>)
    ensures |keys| == |ids|
    ensures forall i :: 0 <= i < |ids| ==> keys[i] == NodeFor(typename, ids[i])
  {
    var nodes := new Node[|ids|];
    for i := 0 to |ids|
      invariant forall j :: 0 <= j < i ==> nodes[j] == NodeFor(typename, ids[j])
    {
      nodes[i] := NodeFor(typename, ids[i]);
    }
    keys := nodes[..];
  }

  /** `newResourceTypes`: one fresh resource type per known name, keyed by
      that name and sharing the root. */
  method NewResourceTypes(cli: Root) returns (m: map<string, ResourceType>)
    ensures m.Keys == KnownTypes
    ensures forall t :: t in m ==> m[t].typename == t && m[t].root == cli && m[t].reqs == map[] && fresh(m[t])
  {
    m := map[];
    var names := [ContainerType, VolumeType];
    for i := 0 to |names|
      invariant m.Keys == set j | 0 <= j < i :: names[j]
      invariant forall t :: t in m ==> m[t].typename == t && m[t].root == cli && m[t].reqs == map[] && fresh(m[t])
    {
      var rt := new ResourceType(cli, names[i]);
      m := m[names[i] := rt];
    }
    assert m.Keys == {names[0], names[1]};
  }

  /** Resource types of one root have distinct keys, and no volume's JSON key
      is the list key of a known type: caching a volume never overwrites a
      cached list. */
  lemma CacheKeysDistinct(a: ResourceType, b: ResourceType, volume: string)
    requires a.root == b.root && b.typename in KnownTypes
    ensures a.typename != b.typename ==> a.String() != b.String()
    ensures a.typename == VolumeType ==> JsonKey(a.String(), volume) != b.String()
  {
    var n := |a.root.name| + 1;
    assert a.String()[n..] == a.typename;
    assert b.String()[n..] == b.typename;
    if a.typename == VolumeType {
      if b.typename == VolumeType {
        assert |JsonKey(a.String(), volume)| > |b.String()|;
      } else {
        assert JsonKey(a.String(), volume)[n] == 'v';
        assert b.String()[n] == 'c';
      }
    }
  }
}
