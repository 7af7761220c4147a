/** A Google Cloud Storage bucket seen as a directory tree.

    The bucket stores flat object keys. Listing a prefix asks the provider for
    a delimiter query, which returns the objects lying directly under the
    prefix and, once each, the sub-prefixes that stand for deeper keys; each
    item becomes a directory entry or a file entry. Deleting a bucket first
    deletes every object under the empty prefix, one at a time, and stops at
    the first failure. */
module StorageBucket {
  import opened Plugin
  import opened GoStrings

  const Slash: char := '/'

  /** The delimiter the listing passes to the object query. */
  const Delimiter: string := [Slash]

  /** One item of an object query. An object item has `name` set and an empty
      `prefix`; in a delimiter query a common-prefix item has `prefix` set and
      nothing else. */
  datatype ObjectAttrs = ObjectAttrs(name: string, prefix: string)

  /** The entries a listing produces: a "directory" for a common prefix,
      carrying the prefix object's attributes when it has any, and a "file"
      for an object. */
  datatype Entry =
    | ObjectPrefix(name: string, prefix: string, preAttrs: Option<ObjectAttrs>)
    | Object(name: string, attrs: ObjectAttrs)

  /** An object iterator either runs to `Done` or fails with an error after
      yielding some number of items. */
  datatype IterFault = NoFault | FailAfter(count: nat, error: Error)

  /** What an iterator yields: its items in order, then `Done` (`err` is
      `None`) or an error. */
  datatype Iteration = Iteration(items: seq<ObjectAttrs>, err: Option<Error>)

  function Iterate(all: seq<ObjectAttrs>, fault: IterFault): (it: Iteration)
    ensures it.items <= all
    ensures it.err.None? ==> it.items == all
  {
    match fault
    case NoFault => Iteration(all, None)
    case FailAfter(n, e) => if n <= |all| then Iteration(all[..n], Some(e)) else Iteration(all, None)
  }

  ghost predicate NoDuplicates(keys: seq<string>) {
    forall i, j :: 0 <= i < j < |keys| ==> keys[i] != keys[j]
  }

  /** No key is left under `prefix`. */
  ghost predicate NoneUnder(keys: seq<string>, prefix: string) {
    forall x :: x in keys ==> !HasPrefix(x, prefix)
  }

  // ---------------------------------------------------------------------------
  // The delimiter query
  // ---------------------------------------------------------------------------

  function IndexOfSlash(s: string): (i: nat)
    requires Slash in s
    ensures i < |s| && s[i] == Slash && Slash !in s[..i]
  {
    if s[0] == Slash then 0 else 1 + IndexOfSlash(s[1..])
  }

  /** The item a delimiter query reports for one stored key, before repeated
      prefixes are dropped: nothing when the key is not under `prefix`, the
      object itself when the rest of its key holds no delimiter, and otherwise
      the key truncated just after the first delimiter of the rest. */
  function QueryItem(key: string, prefix: string): Option<ObjectAttrs> {
    if !HasPrefix(key, prefix) then None
    else
      var rest := key[|prefix|..];
      if Slash in rest then Some(ObjectAttrs("", prefix + rest[..IndexOfSlash(rest) + 1]))
      else Some(ObjectAttrs(key, ""))
  }

  /** The delimiter query over the keys in listing order; prefixes already in
      `seen` (reported earlier) are omitted. */
  function DelimiterQueryFrom(keys: seq<string>, prefix: string, seen: set<string>): seq<ObjectAttrs>
    decreases |keys|
  {
    if keys == [] then []
    else
      match QueryItem(keys[0], prefix)
      case None => DelimiterQueryFrom(keys[1..], prefix, seen)
      case Some(item) =>
        if item.prefix != "" && item.prefix in seen then DelimiterQueryFrom(keys[1..], prefix, seen)
        else [item] + DelimiterQueryFrom(keys[1..], prefix, seen + {item.prefix})
  }

  /** `bucket.Objects(ctx, &storage.Query{Delimiter: "/", Prefix: prefix})`. */
  function DelimiterQuery(keys: seq<string>, prefix: string): seq<ObjectAttrs> {
    DelimiterQueryFrom(keys, prefix, {})
  }

  /** `bucket.Objects(ctx, &storage.Query{Prefix: prefix})`: every key under
      the prefix, delimiters ignored. */
  function FlatQuery(keys: seq<string>, prefix: string): seq<ObjectAttrs> {
    if keys == [] then []
    else (if HasPrefix(keys[0], prefix) then [ObjectAttrs(keys[0], "")] else []) + FlatQuery(keys[1..], prefix)
  }

  /** An object lying directly under `prefix`: nothing after the prefix holds
      the delimiter. */
  predicate DirectObject(key: string, prefix: string) {
    HasPrefix(key, prefix) && Slash !in key[|prefix|..]
  }

  /** A common prefix one level below `prefix`: the prefix, a segment without
      delimiter, then the delimiter. */
  predicate ChildPrefix(p: string, prefix: string) {
    |prefix| < |p| && HasPrefix(p, prefix) && p[|p| - 1] == Slash && Slash !in p[|prefix|..|p| - 1]
  }

  /** The shape the delimiter query documents for its items. */
  predicate WellFormed(item: ObjectAttrs, prefix: string) {
    if item.prefix != "" then item.name == "" && ChildPrefix(item.prefix, prefix)
    else DirectObject(item.name, prefix)
  }

  lemma QueryItemWellFormed(key: string, prefix: string)
    requires QueryItem(key, prefix).Some?
    ensures WellFormed(QueryItem(key, prefix).value, prefix)
  {
    var rest := key[|prefix|..];
    if Slash in rest {
      var i := IndexOfSlash(rest);
      var p := prefix + rest[..i + 1];
      assert p[..|prefix|] == prefix;
      assert p[|prefix|..|p| - 1] == rest[..i];
    }
  }

  /** Every item of the query has the documented shape. */
  lemma {:induction false} DelimiterQueryWellFormed(keys: seq<string>, prefix: string, seen: set<string>)
    ensures forall i :: 0 <= i < |DelimiterQueryFrom(keys, prefix, seen)| ==>
      WellFormed(DelimiterQueryFrom(keys, prefix, seen)[i], prefix)
    decreases |keys|
  {
    if keys != [] {
      var q := DelimiterQueryFrom(keys, prefix, seen);
      match QueryItem(keys[0], prefix)
      case None =>
        DelimiterQueryWellFormed(keys[1..], prefix, seen);
      case Some(item) =>
        QueryItemWellFormed(keys[0], prefix);
        DelimiterQueryWellFormed(keys[1..], prefix, seen);
        DelimiterQueryWellFormed(keys[1..], prefix, seen + {item.prefix});
    }
  }

  /** No item is invented: each one is what the query reports for some stored key. */
  lemma {:induction false} DelimiterQuerySound(keys: seq<string>, prefix: string, seen: set<string>)
    ensures forall item :: item in DelimiterQueryFrom(keys, prefix, seen) ==>
      exists k :: k in keys && QueryItem(k, prefix) == Some(item)
    decreases |keys|
  {
    if keys != [] {
      match QueryItem(keys[0], prefix)
      case None =>
        DelimiterQuerySound(keys[1..], prefix, seen);
      case Some(item) =>
        DelimiterQuerySound(keys[1..], prefix, seen);
        DelimiterQuerySound(keys[1..], prefix, seen + {item.prefix});
    }
  }

  /** No key is lost: every key under the prefix is reported, itself or through
      its common prefix, unless that prefix was already reported earlier. */
  lemma {:induction false} DelimiterQueryComplete(keys: seq<string>, prefix: string, seen: set<string>)
    ensures forall k :: k in keys && HasPrefix(k, prefix) ==>
      var item := QueryItem(k, prefix).value;
      item in DelimiterQueryFrom(keys, prefix, seen) || (item.prefix != "" && item.prefix in seen)
    decreases |keys|
  {
    if keys != [] {
      match QueryItem(keys[0], prefix)
      case None =>
        DelimiterQueryComplete(keys[1..], prefix, seen);
      case Some(item) =>
        DelimiterQueryComplete(keys[1..], prefix, seen);
        DelimiterQueryComplete(keys[1..], prefix, seen + {item.prefix});
    }
  }

  /** No common prefix of `q` is in `seen`. */
  ghost predicate PrefixesOutside(q: seq<ObjectAttrs>, seen: set<string>) {
    forall i :: 0 <= i < |q| && q[i].prefix != "" ==> q[i].prefix !in seen
  }

  /** No common prefix occurs twice in `q`. */
  ghost predicate PrefixesUnique(q: seq<ObjectAttrs>) {
    forall i, j :: 0 <= i < j < |q| && q[i].prefix != "" ==> q[i].prefix != q[j].prefix
  }

  /** Duplicate prefixes are omitted: each common prefix is reported once. */
  lemma {:induction false} DelimiterQueryPrefixesUnique(keys: seq<string>, prefix: string, seen: set<string>)
    ensures PrefixesOutside(DelimiterQueryFrom(keys, prefix, seen), seen)
    ensures PrefixesUnique(DelimiterQueryFrom(keys, prefix, seen))
    decreases |keys|
  {
    if keys != [] {
      var q := DelimiterQueryFrom(keys, prefix, seen);
      match QueryItem(keys[0], prefix)
      case None =>
        DelimiterQueryPrefixesUnique(keys[1..], prefix, seen);
        assert q == DelimiterQueryFrom(keys[1..], prefix, seen);
      case Some(item) =>
        if item.prefix != "" && item.prefix in seen {
          DelimiterQueryPrefixesUnique(keys[1..], prefix, seen);
          assert q == DelimiterQueryFrom(keys[1..], prefix, seen);
        } else {
          var seen' := seen + {item.prefix};
          DelimiterQueryPrefixesUnique(keys[1..], prefix, seen');
          var tail := DelimiterQueryFrom(keys[1..], prefix, seen');
          assert q == [item] + tail;
          forall i | 0 <= i < |q| && q[i].prefix != ""
            ensures q[i].prefix !in seen
          {
            if i > 0 {
              assert q[i] == tail[i - 1];
            }
          }
          forall i, j | 0 <= i < j < |q| && q[i].prefix != ""
            ensures q[i].prefix != q[j].prefix
          {
            assert q[j] == tail[j - 1];
            if i > 0 {
              assert q[i] == tail[i - 1];
            }
          }
        }
    }
  }

  /** No object is reported twice in `q`. */
  ghost predicate ObjectsUnique(q: seq<ObjectAttrs>) {
    forall i, j :: 0 <= i < j < |q| && q[i].prefix == "" && q[j].prefix == "" ==> q[i].name != q[j].name
  }

  /** An object item the query reports for a key is that key. */
  lemma QueryItemObject(key: string, prefix: string)
    requires QueryItem(key, prefix).Some? && QueryItem(key, prefix).value.prefix == ""
    ensures QueryItem(key, prefix).value.name == key
  {
  }

  lemma NoDuplicatesTail(keys: seq<string>)
    requires NoDuplicates(keys) && keys != []
    ensures NoDuplicates(keys[1..]) && keys[0] !in keys[1..]
  {
    forall i, j | 0 <= i < j < |keys[1..]| ensures keys[1..][i] != keys[1..][j] {
      assert keys[1..][i] == keys[i + 1] && keys[1..][j] == keys[j + 1];
    }
  }

  /** With unique stored keys, no object is reported twice. */
  lemma {:induction false} DelimiterQueryObjectsUnique(keys: seq<string>, prefix: string, seen: set<string>)
    requires NoDuplicates(keys)
    ensures ObjectsUnique(DelimiterQueryFrom(keys, prefix, seen))
    decreases |keys|
  {
    if keys != [] {
      NoDuplicatesTail(keys);
      var q := DelimiterQueryFrom(keys, prefix, seen);
      match QueryItem(keys[0], prefix)
      case None =>
        DelimiterQueryObjectsUnique(keys[1..], prefix, seen);
      case Some(item) =>
        if item.prefix != "" && item.prefix in seen {
          DelimiterQueryObjectsUnique(keys[1..], prefix, seen);
        } else {
          var seen' := seen + {item.prefix};
          var tail := DelimiterQueryFrom(keys[1..], prefix, seen');
          DelimiterQueryObjectsUnique(keys[1..], prefix, seen');
          DelimiterQuerySound(keys[1..], prefix, seen');
          assert q == [item] + tail;
          forall i, j | 0 <= i < j < |q| && q[i].prefix == "" && q[j].prefix == ""
            ensures q[i].name != q[j].name
          {
            assert q[j] == tail[j - 1];
            if i == 0 {
              var k :| k in keys[1..] && QueryItem(k, prefix) == Some(tail[j - 1]);
              QueryItemObject(k, prefix);
              QueryItemObject(keys[0], prefix);
            } else {
              assert q[i] == tail[i - 1];
            }
          }
        }
    }
  }

  // ---------------------------------------------------------------------------
  // The provider's bucket
  // ---------------------------------------------------------------------------

  /** `bucket.Object(key).Attrs(ctx)`: succeeds exactly for a stored key. */
  function StatObject(stored: seq<string>, key: string): (r: Result<ObjectAttrs>)
    ensures r.Ok? <==> key in stored
  {
    if key in stored then Ok(ObjectAttrs(key, "")) else Err(ObjectNotExist)
  }

  /** A filter: the keys of `keys` not in `gone`, in their order. */
  function Without(keys: seq<string>, gone: set<string>): seq<string> {
    if keys == [] then []
    else (if keys[0] in gone then [] else [keys[0]]) + Without(keys[1..], gone)
  }

  lemma {:induction false} WithoutMembers(keys: seq<string>, gone: set<string>)
    ensures forall x :: x in Without(keys, gone) <==> x in keys && x !in gone
  {
    if keys != [] {
      WithoutMembers(keys[1..], gone);
      assert keys == [keys[0]] + keys[1..];
    }
  }

  lemma {:induction false} WithoutNoDuplicates(keys: seq<string>, gone: set<string>)
    requires NoDuplicates(keys)
    ensures NoDuplicates(Without(keys, gone))
  {
    if keys != [] {
      WithoutNoDuplicates(keys[1..], gone);
      WithoutMembers(keys[1..], gone);
      var w := Without(keys, gone);
      var tail := Without(keys[1..], gone);
      if keys[0] !in gone {
        assert w == [keys[0]] + tail;
        forall i, j | 0 <= i < j < |w| ensures w[i] != w[j] {
          if i == 0 {
            assert w[j] == tail[j - 1] && w[j] in keys[1..];
          } else {
            assert w[i] == tail[i - 1] && w[j] == tail[j - 1];
          }
        }
      }
    }
  }

  lemma {:induction false} WithoutWithout(keys: seq<string>, a: set<string>, b: set<string>)
    ensures Without(Without(keys, a), b) == Without(keys, a + b)
  {
    if keys != [] {
      WithoutWithout(keys[1..], a, b);
      var w := Without(keys[1..], a);
      if keys[0] !in a {
        assert Without(keys, a) == [keys[0]] + w;
        assert Without(keys, a)[1..] == w;
      } else {
        assert Without(keys, a) == w;
      }
    }
  }

  lemma {:induction false} WithoutNothing(keys: seq<string>, gone: set<string>)
    requires forall x :: x in keys ==> x !in gone
    ensures Without(keys, gone) == keys
  {
    if keys != [] {
      WithoutNothing(keys[1..], gone);
    }
  }

  /** The outcome of deleting: the keys left in the bucket and the error, if any. */
  datatype DeleteOutcome = DeleteOutcome(remaining: seq<string>, err: Option<Error>)

  /** `bucket.Object(key).Delete(ctx)`: the provider refuses the keys in
      `refusals` with the error recorded there, reports a missing key, and
      otherwise removes the key. */
  function DeleteOne(keys: seq<string>, key: string, refusals: map<string, Error>): DeleteOutcome {
    if key in refusals then DeleteOutcome(keys, Some(refusals[key]))
    else if key !in keys then DeleteOutcome(keys, Some(ObjectNotExist))
    else DeleteOutcome(Without(keys, {key}), None)
  }

  /** The provider's view of one bucket: its object keys in listing order. */
  class BucketHandle {
    const name: string
    var objects: seq<string>
    var live: bool

    /** Object keys are unique within a bucket. */
    ghost predicate Valid()
      reads this
    {
      NoDuplicates(objects)
    }

    constructor (name: string, objects: seq<string>)
      requires NoDuplicates(objects)
      ensures Valid()
      ensures this.name == name && this.objects == objects && live
    {
      this.name := name;
      this.objects := objects;
      this.live := true;
    }

    /** `bucket.Objects(ctx, &storage.Query{Delimiter: delimiter, Prefix: prefix})`:
        a delimiter query when `delimiter` is "/", a flat one when it is empty. */
    method Objects(prefix: string, delimiter: string, fault: IterFault) returns (it: Iteration)
      requires delimiter == Delimiter || delimiter == ""
      ensures it == Iterate(if delimiter == "" then FlatQuery(objects, prefix) else DelimiterQuery(objects, prefix), fault)
    {
      var all := if delimiter == "" then FlatQuery(objects, prefix) else DelimiterQuery(objects, prefix);
      it := Iterate(all, fault);
    }

    /** `bucket.Object(key).Delete(ctx)`. */
    method DeleteObject(key: string, refusals: map<string, Error>) returns (err: Option<Error>)
      requires Valid()
      modifies this`objects
      ensures Valid()
      ensures DeleteOutcome(objects, err) == DeleteOne(old(objects), key, refusals)
    {
      if key in refusals {
        err := Some(refusals[key]);
      } else if key !in objects {
        err := Some(ObjectNotExist);
      } else {
        WithoutNoDuplicates(objects, {key});
        objects := Without(objects, {key});
        err := None;
      }
    }

    /** `bucket.Delete(ctx)`: the provider reports a bucket that is already
        gone and deletes only an empty bucket; `fault` is an error it reports
        regardless. */
    method DeleteBucket(fault: Option<Error>) returns (err: Option<Error>)
      modifies this`live
      ensures fault.Some? ==> err == fault && live == old(live)
      ensures fault.None? && !old(live) ==> err == Some(BucketNotExist) && !live
      ensures fault.None? && old(live) && objects != [] ==> err == Some(BucketNotEmpty) && live
      ensures fault.None? && old(live) && objects == [] ==> err.None? && !live
    {
      if fault.Some? {
        err := fault;
      } else if !live {
        err := Some(BucketNotExist);
      } else if objects != [] {
        err := Some(BucketNotEmpty);
      } else {
        live := false;
        err := None;
      }
    }
  }

  // ---------------------------------------------------------------------------
  // listBucket
  // ---------------------------------------------------------------------------

  /** The entry `listBucket` appends for one query item, if any. A common
      prefix becomes a directory named by the prefix without its trailing
      delimiter and without the listing prefix; its attributes are those of
      the prefix object when that fetch succeeds and absent when it fails. An
      object equal to the listing prefix (a directory marker) is skipped;
      every other object becomes a file named by its key without the prefix. */
  function EntryFor(item: ObjectAttrs, prefix: string, stored: seq<string>): Option<Entry> {
    if item.prefix != "" then
      var fetched := StatObject(stored, item.prefix);
      Some(ObjectPrefix(TrimPrefix(TrimSuffix(item.prefix, Delimiter), prefix), item.prefix,
                        if fetched.Ok? then Some(fetched.value) else None))
    else if item.name != prefix then
      Some(Object(TrimPrefix(item.name, prefix), item))
    else
      None
  }

  function AsSeq(e: Option<Entry>): seq<Entry> {
    if e.Some? then [e.value] else []
  }

  /** The entries for the items, in iterator order. */
  function ListedEntries(items: seq<ObjectAttrs>, prefix: string, stored: seq<string>): seq<Entry> {
    if items == [] then []
    else ListedEntries(items[..|items| - 1], prefix, stored) + AsSeq(EntryFor(items[|items| - 1], prefix, stored))
  }

  /** One more item extends the listing by that item's entry, if any. */
  lemma ListedEntriesSnoc(items: seq<ObjectAttrs>, i: nat, prefix: string, stored: seq<string>)
    requires i < |items|
    ensures ListedEntries(items[..i + 1], prefix, stored)
         == ListedEntries(items[..i], prefix, stored) + AsSeq(EntryFor(items[i], prefix, stored))
  {
    assert items[..i + 1][..i] == items[..i];
  }

  /** A directory marker: the object whose key is the listing prefix itself. */
  predicate IsMarker(item: ObjectAttrs, prefix: string) {
    item.prefix == "" && item.name == prefix
  }

  /** The whole outcome of `listBucket`: an iterator error discards the
      entries gathered so far. */
  function Listing(keys: seq<string>, prefix: string, fault: IterFault): (seq<Entry>, Option<Error>) {
    var it := Iterate(DelimiterQuery(keys, prefix), fault);
    if it.err.Some? then ([], it.err) else (ListedEntries(it.items, prefix, keys), None)
  }

  /** The body of `listBucket`'s loop for one item: a common prefix becomes a
      directory entry (with the attributes of an object stored under that
      exact key, if any), any other object a file entry, and the marker
      object whose key is the prefix itself nothing. */
  method ListEntry(objAttrs: ObjectAttrs, prefix: string, stored: seq<string>) returns (entry: Option<Entry>)
    ensures entry == EntryFor(objAttrs, prefix, stored)
  {
    if objAttrs.prefix != "" {
      var name := TrimPrefix(TrimSuffix(objAttrs.prefix, Delimiter), prefix);
      var fetched := StatObject(stored, objAttrs.prefix);
      var preAttrs := if fetched.Ok? then Some(fetched.value) else None;
      entry := Some(ObjectPrefix(name, objAttrs.prefix, preAttrs));
    } else if objAttrs.name != prefix {
      var name := TrimPrefix(objAttrs.name, prefix);
      entry := Some(Object(name, objAttrs));
    } else {
      entry := None;
    }
  }

  /** `listBucket(ctx, bucket, prefix)`: iterate over the delimiter query and
      append one entry per item, skipping the directory marker; an iterator
      error returns no entries and that error. A failed attribute fetch on a
      prefix is not an error. */
  method ListBucket(bucket: BucketHandle, prefix: string, fault: IterFault) returns (entries: seq<Entry>, err: Option<Error>)
    ensures (entries, err) == Listing(bucket.objects, prefix, fault)
    ensures err == Iterate(DelimiterQuery(bucket.objects, prefix), fault).err
    ensures err.Some? ==> entries == []
  {
    var it := bucket.Objects(prefix, Delimiter, fault);
    var stored := bucket.objects;
    entries := [];
    var i := 0;
    while i < |it.items|
      invariant 0 <= i <= |it.items|
      invariant entries == ListedEntries(it.items[..i], prefix, stored)
    {
      var objAttrs := it.items[i];
      ListedEntriesSnoc(it.items, i, prefix, stored);
      var entry := ListEntry(objAttrs, prefix, stored);
      entries := entries + AsSeq(entry);
      i := i + 1;
    }
    assert it.items[..i] == it.items;
    if it.err.Some? {
      return [], it.err;
    }
    err := None;
  }

  /** Entries keep iterator order: listing two runs of items one after the
      other gives the two listings one after the other. */
  lemma {:induction false} ListedEntriesConcat(a: seq<ObjectAttrs>, b: seq<ObjectAttrs>, prefix: string, stored: seq<string>)
    ensures ListedEntries(a + b, prefix, stored) == ListedEntries(a, prefix, stored) + ListedEntries(b, prefix, stored)
    decreases |b|
  {
    if b != [] {
      var b' := b[..|b| - 1];
      ListedEntriesConcat(a, b', prefix, stored);
      assert (a + b)[..|a + b| - 1] == a + b';
      assert (a + b)[|a + b| - 1] == b[|b| - 1];
    } else {
      assert a + b == a;
    }
  }

  /** Exactly one entry per item, in the same position, when no item is the
      directory marker. */
  lemma {:induction false} ListedEntriesOnePerItem(items: seq<ObjectAttrs>, prefix: string, stored: seq<string>)
    requires forall i :: 0 <= i < |items| ==> !IsMarker(items[i], prefix)
    ensures |ListedEntries(items, prefix, stored)| == |items|
    ensures forall i :: 0 <= i < |items| ==> EntryFor(items[i], prefix, stored) == Some(ListedEntries(items, prefix, stored)[i])
  {
    if items != [] {
      var init := items[..|items| - 1];
      ListedEntriesOnePerItem(init, prefix, stored);
      var l := ListedEntries(items, prefix, stored);
      assert l == ListedEntries(init, prefix, stored) + [EntryFor(items[|items| - 1], prefix, stored).value];
      forall i | 0 <= i < |items| ensures EntryFor(items[i], prefix, stored) == Some(l[i]) {
        if i < |items| - 1 {
          assert items[i] == init[i];
        }
      }
    }
  }

  /** The marker produces no entry: a directory never lists itself. */
  lemma {:induction false} ListedEntriesSkipMarker(items: seq<ObjectAttrs>, prefix: string, stored: seq<string>)
    ensures forall e :: e in ListedEntries(items, prefix, stored) && e.Object? ==> e.attrs.name != prefix
  {
    if items != [] {
      ListedEntriesSkipMarker(items[..|items| - 1], prefix, stored);
    }
  }

  /** An entry comes from some item, and every item other than the marker
      gives an entry. */
  lemma {:induction false} ListedEntriesMembers(items: seq<ObjectAttrs>, prefix: string, stored: seq<string>)
    ensures forall e :: e in ListedEntries(items, prefix, stored) ==>
      exists item :: item in items && EntryFor(item, prefix, stored) == Some(e)
    ensures forall item :: item in items && EntryFor(item, prefix, stored).Some? ==>
      EntryFor(item, prefix, stored).value in ListedEntries(items, prefix, stored)
  {
    if items != [] {
      var init := items[..|items| - 1];
      ListedEntriesMembers(init, prefix, stored);
      assert items == init + [items[|items| - 1]];
    }
  }

  /** Names of well-formed items: a directory's name is one segment with no
      delimiter, and a file's name put back after the prefix gives its key. */
  lemma EntryForShape(item: ObjectAttrs, prefix: string, stored: seq<string>)
    requires WellFormed(item, prefix)
    requires EntryFor(item, prefix, stored).Some?
    ensures var e := EntryFor(item, prefix, stored).value;
      && (e.ObjectPrefix? ==> Slash !in e.name && e.prefix == prefix + e.name + Delimiter)
      && (e.Object? ==> e.name != "" && Slash !in e.name && prefix + e.name == e.attrs.name)
  {
    var e := EntryFor(item, prefix, stored).value;
    if item.prefix != "" {
      var p := item.prefix;
      var seg := p[|prefix|..|p| - 1];
      assert p == prefix + seg + Delimiter by {
        assert p == p[..|prefix|] + p[|prefix|..|p| - 1] + p[|p| - 1..];
      }
      SuffixOfConcat(prefix + seg, Delimiter);
      PrefixOfConcat(prefix, seg);
    } else {
      assert item.name == prefix + item.name[|prefix|..];
    }
  }

  lemma {:induction false} ListedEntriesShape(items: seq<ObjectAttrs>, prefix: string, stored: seq<string>)
    requires forall i :: 0 <= i < |items| ==> WellFormed(items[i], prefix)
    ensures forall e :: e in ListedEntries(items, prefix, stored) ==>
      && (e.ObjectPrefix? ==> Slash !in e.name && e.prefix == prefix + e.name + Delimiter)
      && (e.Object? ==> e.name != "" && Slash !in e.name && prefix + e.name == e.attrs.name)
  {
    ListedEntriesMembers(items, prefix, stored);
    forall e | e in ListedEntries(items, prefix, stored)
      ensures && (e.ObjectPrefix? ==> Slash !in e.name && e.prefix == prefix + e.name + Delimiter)
              && (e.Object? ==> e.name != "" && Slash !in e.name && prefix + e.name == e.attrs.name)
    {
      var item :| item in items && EntryFor(item, prefix, stored) == Some(e);
      EntryForShape(item, prefix, stored);
    }
  }

  /** Two listings with the same entries, kinds and names, differing at most in
      the attributes of directories. */
  ghost predicate SameShape(l1: seq<Entry>, l2: seq<Entry>) {
    && |l1| == |l2|
    && forall i :: 0 <= i < |l1| ==>
         && l1[i].name == l2[i].name
         && l1[i].ObjectPrefix? == l2[i].ObjectPrefix?
         && (l1[i].Object? ==> l1[i] == l2[i])
         && (l1[i].ObjectPrefix? ==> l1[i].prefix == l2[i].prefix)
  }

  /** A failed attribute fetch never drops or renames an entry: whatever the
      fetches return, the listing has the same entries with the same kinds
      and names, and only a directory's attributes differ. */
  lemma {:induction false} ListedEntriesIgnoreFetch(items: seq<ObjectAttrs>, prefix: string, s1: seq<string>, s2: seq<string>)
    ensures SameShape(ListedEntries(items, prefix, s1), ListedEntries(items, prefix, s2))
  {
    if items != [] {
      var init := items[..|items| - 1];
      ListedEntriesIgnoreFetch(init, prefix, s1, s2);
    }
  }

  /** With no iterator error, every listed file names a stored key directly
      under the prefix, other than the directory marker. */
  lemma ListedFilesAreKeys(keys: seq<string>, prefix: string)
    ensures forall e :: e in Listing(keys, prefix, NoFault).0 && e.Object? ==>
      prefix + e.name in keys && DirectObject(prefix + e.name, prefix) && prefix + e.name != prefix
  {
    var q := DelimiterQuery(keys, prefix);
    assert Listing(keys, prefix, NoFault).0 == ListedEntries(q, prefix, keys);
    DelimiterQuerySound(keys, prefix, {});
    ListedEntriesMembers(q, prefix, keys);
    forall e | e in ListedEntries(q, prefix, keys) && e.Object?
      ensures prefix + e.name in keys && DirectObject(prefix + e.name, prefix) && prefix + e.name != prefix
    {
      var item :| item in q && EntryFor(item, prefix, keys) == Some(e);
      var k :| k in keys && QueryItem(k, prefix) == Some(item);
      QueryItemCovers(k, prefix);
      assert item == ObjectAttrs(k, "") && k != prefix;
      assert e.name == TrimPrefix(k, prefix);
    }
  }

  /** With no iterator error, every stored key directly under the prefix,
      other than the directory marker, is listed as a file. */
  lemma DirectKeysAreListed(keys: seq<string>, prefix: string)
    ensures forall k :: k in keys && DirectObject(k, prefix) && k != prefix ==>
      Object(TrimPrefix(k, prefix), ObjectAttrs(k, "")) in Listing(keys, prefix, NoFault).0
  {
    var q := DelimiterQuery(keys, prefix);
    assert Listing(keys, prefix, NoFault).0 == ListedEntries(q, prefix, keys);
    DelimiterQueryComplete(keys, prefix, {});
    ListedEntriesMembers(q, prefix, keys);
    forall k | k in keys && DirectObject(k, prefix) && k != prefix
      ensures Object(TrimPrefix(k, prefix), ObjectAttrs(k, "")) in ListedEntries(q, prefix, keys)
    {
      assert QueryItem(k, prefix) == Some(ObjectAttrs(k, ""));
    }
  }

  /** With no iterator error, every listed directory covers some stored key. */
  lemma ListedDirsCoverKeys(keys: seq<string>, prefix: string)
    ensures forall e :: e in Listing(keys, prefix, NoFault).0 && e.ObjectPrefix? ==>
      exists k :: k in keys && HasPrefix(k, e.prefix)
  {
    var q := DelimiterQuery(keys, prefix);
    assert Listing(keys, prefix, NoFault).0 == ListedEntries(q, prefix, keys);
    DelimiterQuerySound(keys, prefix, {});
    ListedEntriesMembers(q, prefix, keys);
    forall e | e in ListedEntries(q, prefix, keys) && e.ObjectPrefix?
      ensures exists k :: k in keys && HasPrefix(k, e.prefix)
    {
      var item :| item in q && EntryFor(item, prefix, keys) == Some(e);
      var k :| k in keys && QueryItem(k, prefix) == Some(item);
      QueryItemCovers(k, prefix);
    }
  }

  /** With no iterator error, every stored key deeper under the prefix lies
      under some listed directory. */
  lemma DeepKeysUnderDirs(keys: seq<string>, prefix: string)
    ensures forall k :: k in keys && HasPrefix(k, prefix) && !DirectObject(k, prefix) ==>
      exists e :: e in Listing(keys, prefix, NoFault).0 && e.ObjectPrefix? && HasPrefix(k, e.prefix)
  {
    var q := DelimiterQuery(keys, prefix);
    assert Listing(keys, prefix, NoFault).0 == ListedEntries(q, prefix, keys);
    DelimiterQueryComplete(keys, prefix, {});
    ListedEntriesMembers(q, prefix, keys);
    forall k | k in keys && HasPrefix(k, prefix) && !DirectObject(k, prefix)
      ensures exists e :: e in ListedEntries(q, prefix, keys) && e.ObjectPrefix? && HasPrefix(k, e.prefix)
    {
      var item := QueryItem(k, prefix).value;
      QueryItemCovers(k, prefix);
      assert item in q;
      var e := EntryFor(item, prefix, keys).value;
      assert e in ListedEntries(q, prefix, keys) && e.ObjectPrefix? && e.prefix == item.prefix;
    }
  }

  /** Within one kind names are unique: no two directories and no two files
      of a listing share a name. */
  ghost predicate NamesUniqueByKind(l: seq<Entry>) {
    forall i, j :: 0 <= i < j < |l| && l[i].ObjectPrefix? == l[j].ObjectPrefix? ==> l[i].name != l[j].name
  }

  /** Items with unique prefixes and unique objects give entries whose names
      are unique within each kind. */
  lemma {:induction false} ListedEntriesDistinct(items: seq<ObjectAttrs>, prefix: string, stored: seq<string>)
    requires forall i :: 0 <= i < |items| ==> WellFormed(items[i], prefix)
    requires PrefixesUnique(items) && ObjectsUnique(items)
    ensures NamesUniqueByKind(ListedEntries(items, prefix, stored))
  {
    if items != [] {
      var init := items[..|items| - 1];
      var last := items[|items| - 1];
      assert forall i :: 0 <= i < |init| ==> init[i] == items[i];
      ListedEntriesDistinct(init, prefix, stored);
      var before := ListedEntries(init, prefix, stored);
      if EntryFor(last, prefix, stored).Some? {
        var l := ListedEntries(items, prefix, stored);
        assert l == before + [EntryFor(last, prefix, stored).value];
        forall i | 0 <= i < |before| && before[i].ObjectPrefix? == l[|l| - 1].ObjectPrefix?
          ensures before[i].name != l[|l| - 1].name
        {
          LastEntryDistinct(items, prefix, stored, before[i]);
        }
        forall i, j | 0 <= i < j < |l| && l[i].ObjectPrefix? == l[j].ObjectPrefix?
          ensures l[i].name != l[j].name
        {
          assert l[i] == before[i];
          if j < |l| - 1 {
            assert l[j] == before[j];
          }
        }
      }
    }
  }

  /** The entry of the last item differs in name from every earlier entry of
      its kind. */
  lemma LastEntryDistinct(items: seq<ObjectAttrs>, prefix: string, stored: seq<string>, earlier: Entry)
    requires forall i :: 0 <= i < |items| ==> WellFormed(items[i], prefix)
    requires PrefixesUnique(items) && ObjectsUnique(items)
    requires items != [] && EntryFor(items[|items| - 1], prefix, stored).Some?
    requires earlier in ListedEntries(items[..|items| - 1], prefix, stored)
    requires earlier.ObjectPrefix? == EntryFor(items[|items| - 1], prefix, stored).value.ObjectPrefix?
    ensures earlier.name != EntryFor(items[|items| - 1], prefix, stored).value.name
  {
    var init := items[..|items| - 1];
    var last := items[|items| - 1];
    ListedEntriesMembers(init, prefix, stored);
    var item :| item in init && EntryFor(item, prefix, stored) == Some(earlier);
    var m :| 0 <= m < |init| && init[m] == item;
    assert items[m] == item && m < |items| - 1;
    assert item.prefix != "" ==> item.prefix != last.prefix;
    assert item.prefix == "" && last.prefix == "" ==> item.name != last.name;
    EntriesOfDistinctItems(item, last, prefix, stored);
  }

  /** Two well-formed items with different prefixes, or different object
      names, give entries of the same kind with different names. */
  lemma EntriesOfDistinctItems(a: ObjectAttrs, b: ObjectAttrs, prefix: string, stored: seq<string>)
    requires WellFormed(a, prefix) && WellFormed(b, prefix)
    requires EntryFor(a, prefix, stored).Some? && EntryFor(b, prefix, stored).Some?
    requires a.prefix != "" ==> a.prefix != b.prefix
    requires a.prefix == "" && b.prefix == "" ==> a.name != b.name
    requires EntryFor(a, prefix, stored).value.ObjectPrefix? == EntryFor(b, prefix, stored).value.ObjectPrefix?
    ensures EntryFor(a, prefix, stored).value.name != EntryFor(b, prefix, stored).value.name
  {
    EntryForShape(a, prefix, stored);
    EntryForShape(b, prefix, stored);
  }

  /** With unique stored keys and whatever the iterator does, no two
      directories and no two files of a listing share a name. */
  lemma ListingEntriesDistinct(keys: seq<string>, prefix: string, fault: IterFault)
    requires NoDuplicates(keys)
    ensures NamesUniqueByKind(Listing(keys, prefix, fault).0)
  {
    var q := DelimiterQuery(keys, prefix);
    if Iterate(q, fault).err.None? {
      DelimiterQueryWellFormed(keys, prefix, {});
      DelimiterQueryPrefixesUnique(keys, prefix, {});
      DelimiterQueryObjectsUnique(keys, prefix, {});
      ListedEntriesDistinct(q, prefix, keys);
    }
  }

  /** A key with a doubled delimiter gives a directory with the empty name:
      under "a/", the key "a//b" is reported as the common prefix "a//", and
      trimming the "/" and then "a/" leaves nothing. */
  lemma DoubledDelimiterEmptyName()
    ensures Listing(["a//b"], "a/", NoFault).0 == [ObjectPrefix("", "a//", None)]
  {
    DoubledDelimiterItem();
    assert DelimiterQuery(["a//b"], "a/") == [ObjectAttrs("", "a//")] by {
      assert ["a//b"][1..] == [];
    }
    assert EntryFor(ObjectAttrs("", "a//"), "a/", ["a//b"]) == Some(ObjectPrefix("", "a//", None)) by {
      assert TrimSuffix("a//", Delimiter) == "a/" by { SuffixOfConcat("a/", Delimiter); }
      assert TrimPrefix("a/", "a/") == "" by { PrefixOfConcat("a/", ""); }
      assert StatObject(["a//b"], "a//").Err?;
    }
    ListedEntriesSnoc([ObjectAttrs("", "a//")], 0, "a/", ["a//b"]);
    assert [ObjectAttrs("", "a//")][..1] == [ObjectAttrs("", "a//")];
  }

  /** What the delimiter query reports for "a//b" under "a/". */
  lemma DoubledDelimiterItem()
    ensures QueryItem("a//b", "a/") == Some(ObjectAttrs("", "a//"))
  {
    assert "a//b"[..2] == "a/";
    assert "a//b"[2..] == "/b" && "/b"[0] == Slash;
    assert IndexOfSlash("/b") == 0;
    assert "/b"[..1] == "/" && "a/" + "/" == "a//";
  }

  /** Children of one listing are not unique by name: an object "a" and an
      object "a/b" give, at the top level, a file and a directory both named
      "a". */
  lemma FileAndDirectoryShareName()
    ensures Listing(["a", "a/b"], "", NoFault).0
         == [Object("a", ObjectAttrs("a", "")), ObjectPrefix("a", "a/", None)]
  {
    CollidingQuery();
    CollidingEntries();
    ListingOfTwo(["a", "a/b"], "", ObjectAttrs("a", ""), ObjectAttrs("", "a/"));
  }

  /** The listing of a query with two items is their two entries, in order. */
  lemma ListingOfTwo(keys: seq<string>, prefix: string, first: ObjectAttrs, second: ObjectAttrs)
    requires DelimiterQuery(keys, prefix) == [first, second]
    ensures Listing(keys, prefix, NoFault).0
         == AsSeq(EntryFor(first, prefix, keys)) + AsSeq(EntryFor(second, prefix, keys))
  {
    ListedEntriesSnoc([first, second], 0, prefix, keys);
    ListedEntriesSnoc([first, second], 1, prefix, keys);
    assert [first, second][..2] == [first, second] && [first, second][..0] == [];
  }

  /** The delimiter query over "a" and "a/b" at the top level. */
  lemma CollidingQuery()
    ensures DelimiterQuery(["a", "a/b"], "") == [ObjectAttrs("a", ""), ObjectAttrs("", "a/")]
  {
    CollidingItems();
    FileThenPrefixQuery("a", "a/b", "a/");
  }

  /** A top-level query over an object followed by a deeper key reports the
      object, then the deeper key's common prefix. */
  lemma FileThenPrefixQuery(file: string, deep: string, p: string)
    requires QueryItem(file, "") == Some(ObjectAttrs(file, ""))
    requires QueryItem(deep, "") == Some(ObjectAttrs("", p)) && p != ""
    ensures DelimiterQuery([file, deep], "") == [ObjectAttrs(file, ""), ObjectAttrs("", p)]
  {
    var keys := [file, deep];
    var seen: set<string> := {};
    var seen' := seen + {""};
    assert p !in seen';
    assert keys[1..] == [deep] && keys[1..][1..] == [];
    assert DelimiterQueryFrom(keys[1..], "", seen') == [ObjectAttrs("", p)] + DelimiterQueryFrom([], "", seen' + {p});
  }

  /** What the delimiter query reports for "a" and for "a/b" at the top level. */
  lemma CollidingItems()
    ensures QueryItem("a", "") == Some(ObjectAttrs("a", ""))
    ensures QueryItem("a/b", "") == Some(ObjectAttrs("", "a/"))
  {
    assert "a/b"[1] == Slash && "a/b"[1..] == "/b";
    assert IndexOfSlash("a/b") == 1;
    assert "a/b"[..2] == "a/" && "" + "a/" == "a/";
    assert HasPrefix("a/b", "") && HasPrefix("a", "");
    assert Slash !in "a";
  }

  /** The entries for the two items of that query. */
  lemma CollidingEntries()
    ensures EntryFor(ObjectAttrs("a", ""), "", ["a", "a/b"]) == Some(Object("a", ObjectAttrs("a", "")))
    ensures EntryFor(ObjectAttrs("", "a/"), "", ["a", "a/b"]) == Some(ObjectPrefix("a", "a/", None))
  {
    assert TrimSuffix("a/", Delimiter) == "a" by { SuffixOfConcat("a", Delimiter); }
    assert TrimPrefix("a", "") == "a" by { PrefixOfConcat("", "a"); }
    assert StatObject(["a", "a/b"], "a/").Err?;
  }

  /** A common prefix the query reports for a key is a prefix of that key. */
  lemma QueryItemCovers(key: string, prefix: string)
    requires HasPrefix(key, prefix)
    ensures var item := QueryItem(key, prefix).value;
      item.prefix != "" <==> !DirectObject(key, prefix)
    ensures var item := QueryItem(key, prefix).value;
      item.prefix != "" ==> HasPrefix(key, item.prefix)
  {
    var rest := key[|prefix|..];
    if Slash in rest {
      var i := IndexOfSlash(rest);
      var p := prefix + rest[..i + 1];
      assert key == prefix + rest;
      assert key[..|p|] == p;
    }
  }

  // ---------------------------------------------------------------------------
  // deleteObjects
  // ---------------------------------------------------------------------------

  /** Deleting the enumerated objects one at a time, stopping at the first
      failure, which is reported with the object's name. */
  function DeleteEach(keys: seq<string>, items: seq<ObjectAttrs>, refusals: map<string, Error>): DeleteOutcome
    decreases |items|
  {
    if items == [] then DeleteOutcome(keys, None)
    else
      var step := DeleteOne(keys, items[0].name, refusals);
      if step.err.Some? then DeleteOutcome(step.remaining, Some(ObjectDeleteFailed(items[0].name, step.err.value)))
      else DeleteEach(step.remaining, items[1..], refusals)
  }

  /** The whole outcome of `deleteObjects`: a failed delete is reported first;
      otherwise an iterator error, after the deletions made before it. */
  function CascadeDelete(keys: seq<string>, prefix: string, fault: IterFault, refusals: map<string, Error>): DeleteOutcome {
    var it := Iterate(FlatQuery(keys, prefix), fault);
    var run := DeleteEach(keys, it.items, refusals);
    if run.err.Some? then run else DeleteOutcome(run.remaining, it.err)
  }

  /** `deleteObjects(ctx, bucket, prefix)`. */
  method DeleteObjects(bucket: BucketHandle, prefix: string, fault: IterFault, refusals: map<string, Error>)
    returns (err: Option<Error>)
    requires bucket.Valid()
    modifies bucket`objects
    ensures bucket.Valid()
    ensures DeleteOutcome(bucket.objects, err) == CascadeDelete(old(bucket.objects), prefix, fault, refusals)
  {
    var it := bucket.Objects(prefix, "", fault);
    ghost var goal := DeleteEach(bucket.objects, it.items, refusals);
    var i := 0;
    while i < |it.items|
      invariant 0 <= i <= |it.items|
      invariant bucket.Valid()
      invariant DeleteEach(bucket.objects, it.items[i..], refusals) == goal
    {
      var name := it.items[i].name;
      assert it.items[i..][1..] == it.items[i + 1..];
      var e := bucket.DeleteObject(name, refusals);
      if e.Some? {
        err := Some(ObjectDeleteFailed(name, e.value));
        return;
      }
      i := i + 1;
    }
    err := it.err;
  }

  function FlatNames(items: seq<ObjectAttrs>): set<string> {
    set i | 0 <= i < |items| :: items[i].name
  }

  /** The index of the first item the provider refuses to delete, or the
      number of items when there is none. */
  function FirstRefused(items: seq<ObjectAttrs>, refusals: map<string, Error>): (k: nat)
    ensures k <= |items|
    ensures forall i :: 0 <= i < k ==> items[i].name !in refusals
    ensures k < |items| ==> items[k].name in refusals
  {
    if items == [] then 0
    else if items[0].name in refusals then 0
    else 1 + FirstRefused(items[1..], refusals)
  }

  lemma {:induction false} FlatQueryMembers(keys: seq<string>, prefix: string)
    ensures forall i :: 0 <= i < |FlatQuery(keys, prefix)| ==>
      FlatQuery(keys, prefix)[i].name in keys && HasPrefix(FlatQuery(keys, prefix)[i].name, prefix)
    ensures forall k :: k in keys && HasPrefix(k, prefix) ==> k in FlatNames(FlatQuery(keys, prefix))
  {
    if keys != [] {
      FlatQueryMembers(keys[1..], prefix);
      var q := FlatQuery(keys, prefix);
      var tail := FlatQuery(keys[1..], prefix);
      forall k | k in keys && HasPrefix(k, prefix) ensures k in FlatNames(q) {
        if k == keys[0] {
          assert q[0].name == k;
        } else {
          assert k in keys[1..];
          var i :| 0 <= i < |tail| && tail[i].name == k;
          assert q[|q| - |tail| + i] == tail[i];
        }
      }
    }
  }

  ghost predicate NamesDistinct(items: seq<ObjectAttrs>) {
    forall i, j :: 0 <= i < j < |items| ==> items[i].name != items[j].name
  }

  lemma {:induction false} FlatQueryDistinct(keys: seq<string>, prefix: string)
    requires NoDuplicates(keys)
    ensures NamesDistinct(FlatQuery(keys, prefix))
  {
    if keys != [] {
      NoDuplicatesTail(keys);
      FlatQueryDistinct(keys[1..], prefix);
      FlatQueryMembers(keys[1..], prefix);
      var q := FlatQuery(keys, prefix);
      var tail := FlatQuery(keys[1..], prefix);
      if HasPrefix(keys[0], prefix) {
        assert q == [ObjectAttrs(keys[0], "")] + tail;
        forall i, j | 0 <= i < j < |q| ensures q[i].name != q[j].name {
          assert q[j] == tail[j - 1];
          if i == 0 {
            var t := tail[j - 1].name;
            assert t in keys[1..];
            var m :| 0 <= m < |keys[1..]| && keys[1..][m] == t;
            assert keys[m + 1] == t;
          } else {
            assert q[i] == tail[i - 1];
          }
        }
      } else {
        assert q == tail;
      }
    }
  }

  lemma FlatNamesCons(items: seq<ObjectAttrs>, k: nat)
    requires 0 < k <= |items|
    ensures FlatNames(items[..k]) == {items[0].name} + FlatNames(items[1..][..k - 1])
  {
    var lhs, rhs := FlatNames(items[..k]), {items[0].name} + FlatNames(items[1..][..k - 1]);
    forall x | x in lhs ensures x in rhs {
      var i :| 0 <= i < k && items[..k][i].name == x;
      if i > 0 {
        assert items[1..][..k - 1][i - 1] == items[i];
      }
    }
    forall x | x in rhs ensures x in lhs {
      if x == items[0].name {
        assert items[..k][0].name == x;
      } else {
        var i :| 0 <= i < k - 1 && items[1..][..k - 1][i].name == x;
        assert items[..k][i + 1] == items[1..][..k - 1][i];
      }
    }
  }

  /** Deleting distinct stored keys in order: everything before the first
      refused key is gone, and the rest of the bucket is untouched. */
  lemma {:induction false} DeleteEachOutcome(keys: seq<string>, items: seq<ObjectAttrs>, refusals: map<string, Error>)
    requires NoDuplicates(keys)
    requires forall i :: 0 <= i < |items| ==> items[i].name in keys
    requires NamesDistinct(items)
    ensures var k := FirstRefused(items, refusals);
      DeleteEach(keys, items, refusals) ==
        DeleteOutcome(Without(keys, FlatNames(items[..k])),
                      if k < |items| then Some(ObjectDeleteFailed(items[k].name, refusals[items[k].name])) else None)
    decreases |items|
  {
    if items == [] || items[0].name in refusals {
      assert FlatNames(items[..0]) == {};
      WithoutNothing(keys, {});
    } else {
      var k := FirstRefused(items, refusals);
      var key := items[0].name;
      var rest := Without(keys, {key});
      var tail := items[1..];
      assert DeleteOne(keys, key, refusals) == DeleteOutcome(rest, None);
      assert DeleteEach(keys, items, refusals) == DeleteEach(rest, tail, refusals);
      DeleteTailReady(keys, items);
      DeleteEachOutcome(rest, tail, refusals);
      assert FirstRefused(tail, refusals) == k - 1;
      WithoutWithout(keys, {key}, FlatNames(tail[..k - 1]));
      FlatNamesCons(items, k);
      assert Without(rest, FlatNames(tail[..k - 1])) == Without(keys, FlatNames(items[..k]));
      if k < |items| {
        assert tail[k - 1] == items[k];
      }
    }
  }

  /** After the first key is deleted, the rest of the enumeration still names
      distinct stored keys. */
  lemma DeleteTailReady(keys: seq<string>, items: seq<ObjectAttrs>)
    requires NoDuplicates(keys)
    requires forall i :: 0 <= i < |items| ==> items[i].name in keys
    requires NamesDistinct(items)
    requires items != []
    ensures NoDuplicates(Without(keys, {items[0].name}))
    ensures forall i :: 0 <= i < |items[1..]| ==> items[1..][i].name in Without(keys, {items[0].name})
    ensures NamesDistinct(items[1..])
  {
    var key := items[0].name;
    WithoutNoDuplicates(keys, {key});
    WithoutMembers(keys, {key});
    forall i | 0 <= i < |items[1..]| ensures items[1..][i].name in Without(keys, {key}) {
      assert items[1..][i] == items[i + 1];
    }
    forall i, j | 0 <= i < j < |items[1..]| ensures items[1..][i].name != items[1..][j].name {
      assert items[1..][i] == items[i + 1] && items[1..][j] == items[j + 1];
    }
  }

  /** `deleteObjects` deletes the keys under the prefix one at a time in
      enumeration order. On the first refused key it stops with an error that
      names that key: the keys enumerated before it are gone and every other
      key is still there. Otherwise it reports the iterator's error, if any,
      after deleting every key the iterator yielded. */
  lemma CascadeDeleteOutcome(keys: seq<string>, prefix: string, fault: IterFault, refusals: map<string, Error>)
    requires NoDuplicates(keys)
    ensures var items := Iterate(FlatQuery(keys, prefix), fault).items;
      var k := FirstRefused(items, refusals);
      var r := CascadeDelete(keys, prefix, fault, refusals);
      && r.remaining == Without(keys, FlatNames(items[..k]))
      && r.err == (if k < |items| then Some(ObjectDeleteFailed(items[k].name, refusals[items[k].name]))
                   else Iterate(FlatQuery(keys, prefix), fault).err)
  {
    var items := Iterate(FlatQuery(keys, prefix), fault).items;
    EnumeratedItems(keys, prefix, fault);
    DeleteEachOutcome(keys, items, refusals);
  }

  /** The keys the flat enumeration yields are distinct stored keys. */
  lemma EnumeratedItems(keys: seq<string>, prefix: string, fault: IterFault)
    requires NoDuplicates(keys)
    ensures forall i :: 0 <= i < |Iterate(FlatQuery(keys, prefix), fault).items| ==>
      Iterate(FlatQuery(keys, prefix), fault).items[i].name in keys
    ensures NamesDistinct(Iterate(FlatQuery(keys, prefix), fault).items)
  {
    var all := FlatQuery(keys, prefix);
    var items := Iterate(all, fault).items;
    FlatQueryMembers(keys, prefix);
    FlatQueryDistinct(keys, prefix);
    assert items <= all;
    forall i | 0 <= i < |items| ensures items[i].name in keys {
      assert items[i] == all[i];
    }
    forall i, j | 0 <= i < j < |items| ensures items[i].name != items[j].name {
      assert items[i] == all[i] && items[j] == all[j];
    }
  }

  /** A delete that reports no error leaves no key under the prefix, and the
      keys outside it stay in their order. */
  lemma CascadeDeleteSuccess(keys: seq<string>, prefix: string, fault: IterFault, refusals: map<string, Error>)
    requires NoDuplicates(keys)
    requires CascadeDelete(keys, prefix, fault, refusals).err.None?
    ensures NoneUnder(CascadeDelete(keys, prefix, fault, refusals).remaining, prefix)
    ensures CascadeDelete(keys, prefix, fault, refusals).remaining == Without(keys, set x | x in keys && HasPrefix(x, prefix))
  {
    CascadeDeleteOutcome(keys, prefix, fault, refusals);
    var all := FlatQuery(keys, prefix);
    var items := Iterate(all, fault).items;
    FlatQueryMembers(keys, prefix);
    assert items == all;
    assert items[..|items|] == items;
    var under := set x | x in keys && HasPrefix(x, prefix);
    assert FlatNames(items) == under;
    WithoutMembers(keys, under);
  }

  /** After a delete stopped part-way, re-issuing it with no failure finishes
      the job: no key under the prefix is left. */
  lemma CascadeDeleteRetry(keys: seq<string>, prefix: string, fault: IterFault, refusals: map<string, Error>)
    requires NoDuplicates(keys)
    ensures CascadeDelete(CascadeDelete(keys, prefix, fault, refusals).remaining, prefix, NoFault, map[]).err.None?
    ensures NoneUnder(CascadeDelete(CascadeDelete(keys, prefix, fault, refusals).remaining, prefix, NoFault, map[]).remaining, prefix)
  {
    CascadeDeleteOutcome(keys, prefix, fault, refusals);
    var items := Iterate(FlatQuery(keys, prefix), fault).items;
    var first := CascadeDelete(keys, prefix, fault, refusals).remaining;
    WithoutNoDuplicates(keys, FlatNames(items[..FirstRefused(items, refusals)]));
    CascadeDeleteOutcome(first, prefix, NoFault, map[]);
    CascadeDeleteSuccess(first, prefix, NoFault, map[]);
  }

  // ---------------------------------------------------------------------------
  // storageBucket
  // ---------------------------------------------------------------------------

  /** The bucket attributes the provider reports when the bucket is listed. */
  datatype BucketAttrs = BucketAttrs(name: string, created: int)

  /** A bucket entry of the filesystem. */
  class Bucket {
    const name: string
    const handle: BucketHandle
    var attributes: Attributes
    var meta: BucketAttrs

    /** `newStorageBucket`: the entry is named after the bucket, and its
        creation, change and modification times are all the bucket's
        creation time. */
    constructor (handle: BucketHandle, bucket: BucketAttrs)
      requires handle.name == bucket.name
      ensures name == bucket.name && this.handle == handle && meta == bucket
      ensures attributes == Attributes(Some(bucket.created), Some(bucket.created), Some(bucket.created))
    {
      name := bucket.name;
      this.handle := handle;
      attributes := Attributes(Some(bucket.created), Some(bucket.created), Some(bucket.created));
      meta := bucket;
    }

    /** `storageBucket.List`: the top level of the bucket, the empty prefix. */
    method List(fault: IterFault) returns (entries: seq<Entry>, err: Option<Error>)
      ensures (entries, err) == Listing(handle.objects, "", fault)
    {
      entries, err := ListBucket(handle, "", fault);
    }

    /** `storageBucket.Delete`: empty the bucket, then delete it. When emptying
        fails, the bucket is not deleted and the answer is `false` with that
        error; otherwise the answer is `true` with the bucket delete's error. */
    method Delete(fault: IterFault, refusals: map<string, Error>, bucketFault: Option<Error>)
      returns (deleted: bool, err: Option<Error>)
      requires handle.Valid()
      modifies handle
      ensures handle.Valid()
      ensures var r := CascadeDelete(old(handle.objects), "", fault, refusals);
        && handle.objects == r.remaining
        && deleted == r.err.None?
        && (!deleted ==> err == r.err && handle.live == old(handle.live))
        && (deleted ==> handle.objects == [] && handle.live == (bucketFault.Some? && old(handle.live)))
        && (deleted ==> err == (if bucketFault.Some? then bucketFault
                                else if old(handle.live) then None else Some(BucketNotExist)))
    {
      err := DeleteObjects(handle, "", fault, refusals);
      if err.Some? {
        return false, err;
      }
      CascadeDeleteEmpties(old(handle.objects), fault, refusals);
      err := handle.DeleteBucket(bucketFault);
      deleted := true;
    }
  }

  /** Emptying under the empty prefix, when it succeeds, leaves no object. */
  lemma CascadeDeleteEmpties(keys: seq<string>, fault: IterFault, refusals: map<string, Error>)
    requires NoDuplicates(keys)
    requires CascadeDelete(keys, "", fault, refusals).err.None?
    ensures CascadeDelete(keys, "", fault, refusals).remaining == []
  {
    CascadeDeleteSuccess(keys, "", fault, refusals);
    var r := CascadeDelete(keys, "", fault, refusals).remaining;
    if r != [] {
      assert HasPrefix(r[0], "");
    }
  }
}
