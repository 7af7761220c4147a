# Storage-bucket and Docker resource listings, modelled in Dafny

This project models two parts of the filesystem plugins that present flat
resource collections as a directory tree.

- **Google Cloud Storage buckets** (`storage_bucket.dfy`, module `StorageBucket`).
  - A bucket stores flat object keys. `listBucket` turns one prefix of it into
    directory entries (common prefixes) and file entries (objects directly
    under the prefix). It uses the provider's delimiter query with delimiter `/`.
  - The object whose key equals the prefix (a directory marker) is skipped.
  - A failed attribute fetch of a prefix object is not an error.
  - An iterator error discards what was gathered.
  - `deleteObjects` enumerates every key under a prefix with a flat query.
    It deletes the keys one at a time and stops at the first failure.
  - `storageBucket.Delete` empties the bucket that way, then deletes it.
  - `newStorageBucket` and `storageBucket.List` are modelled as the `Bucket` class.
- **Docker resource types** (`docker_resourcetype.dfy`, module `DockerResources`).
  - The "container" type lists container IDs as files. The "volume" type lists
    volume names as directories.
  - Both read through a cache keyed by the type's path (`String()`).
  - A cache miss calls the Docker client. On success it records the fetch time
    on the root and caches the list.
  - For volumes, a miss also caches each volume's JSON under
    `String() + "/" + name`.
  - `Find` looks a name up in that list. `List` wraps every identifier.
  - `Attr` reports the latest of the root's update time and the stream buffers'
    update times.

Shared vocabulary is in `plugin.dfy` (module `Plugin`: `Option`, `Result`,
`Error`, `Attributes`). Go's `strings.HasPrefix`/`TrimPrefix`/`TrimSuffix` are
in `go_strings.dfy` (module `GoStrings`).

How the provider is modelled:
- The bucket's provider state is `BucketHandle`: its keys, in listing order, and whether it still exists.
- Iterators are `Iteration` values: the items yielded, then `Done` or an error. They are built from a full query and an `IterFault`, which says after how many items the iterator fails, if at all.
- The delimiter query is a pure function (`DelimiterQuery`). It reports each key directly under the prefix as an object. For each deeper key it reports the key cut just after the next `/`, as a common prefix, the first time that prefix occurs.
- A prefix-object fetch succeeds exactly when an object is stored under that key.
- An object delete fails as recorded in a `refusals` map, with `ObjectNotExist` for a missing key, and otherwise removes the key.
- The Docker client's state is held on `Root` (`containers`, `volumes`). A client error is a `fault` parameter, `time.Now()` a `now` parameter, and `json.Marshal` a `marshal` function parameter.

Three facts about the code that the model keeps:
- The Docker code does not deduplicate container IDs or volume names, so `List`
  returns one node per listed identifier, duplicates included.
- `updated` is a field of the shared root (`cli.updated` on the embedded
  `*root`), so both resource types write it (`Root.updated`).
- Children of one bucket listing are not unique by name. A stored object `a`
  and a stored object `a/b` give, at the top level, a file `a` and a directory
  `a` (`FileAndDirectoryShareName`). That is the only kind of collision: no two
  directories and no two files of one listing share a name
  (`ListingEntriesDistinct`).
- A key with a doubled delimiter gives a directory with the empty name. Under
  the prefix `a/`, the key `a//b` is reported as the common prefix `a//`, and
  trimming the trailing `/` and then `a/` leaves `""`
  (`DoubledDelimiterEmptyName`).

## Model

| member | source | states |
|---|---|---|
| StorageBucket.Iterate | plugin/gcp/storageBucket.go:104-111 | an iterator yields a prefix of the query's items in order; when it ends with `Done` (no error) it has yielded all of them |
| StorageBucket.QueryItemWellFormed | plugin/gcp/storageBucket.go:113-118 | what the delimiter query reports for one key is either an object whose key, after the prefix, holds no `/`, or a nameless common prefix one segment below the prefix, ending in `/` |
| StorageBucket.DelimiterQueryWellFormed | plugin/gcp/storageBucket.go:113-118 | every item of the delimiter query has that documented shape |
| StorageBucket.DelimiterQuerySound | plugin/gcp/storageBucket.go:113-118 | every item of the delimiter query stands for some stored key |
| StorageBucket.DelimiterQueryComplete | plugin/gcp/storageBucket.go:113-118 | every stored key under the prefix is reported, itself or through its common prefix (unless that prefix was already reported) |
| StorageBucket.DelimiterQueryPrefixesUnique | plugin/gcp/storageBucket.go:117 | duplicate prefixes are omitted: no common prefix occurs twice in the query |
| StorageBucket.DelimiterQueryObjectsUnique | plugin/gcp/storageBucket.go:113-118 | with unique stored keys, no object is reported twice in the query |
| StorageBucket.QueryItemCovers | plugin/gcp/storageBucket.go:113-118 | a key under the prefix is reported through a common prefix exactly when it is not directly under the prefix, and then that common prefix is a prefix of the key |
| StorageBucket.StatObject | plugin/gcp/storageBucket.go:121 | the attribute fetch of a prefix object succeeds exactly when an object is stored under that key |
| StorageBucket.BucketHandle.Objects | plugin/gcp/storageBucket.go:103 | the object iterator runs over the delimiter query when the delimiter is `/` and over the flat query when it is empty, failing as the fault says |
| StorageBucket.BucketHandle.DeleteObject | plugin/gcp/storageBucket.go:149 | a refused delete returns the recorded error; a missing key returns `ObjectNotExist`; otherwise exactly that key leaves the bucket, the other keys keep their order, and keys stay unique |
| StorageBucket.BucketHandle.DeleteBucket | plugin/gcp/storageBucket.go:83 | a bucket already gone gives `BucketNotExist`; the provider deletes only an empty bucket (`BucketNotEmpty` otherwise); a reported fault leaves the bucket in place |
| StorageBucket.ListEntry | plugin/gcp/storageBucket.go:119-130 | one item's entry: a directory named by the prefix without trailing `/` and without the listing prefix, carrying the prefix object's attributes if that fetch succeeds; a file named by its key without the prefix; nothing for the marker |
| StorageBucket.ListBucket | plugin/gcp/storageBucket.go:100-133 | the loop appends one entry per item in iterator order (`Listing`); an iterator error returns no entries and that error |
| StorageBucket.ListedEntriesConcat | plugin/gcp/storageBucket.go:104-131 | entries keep iterator order: listing two runs of items gives the two listings one after the other |
| StorageBucket.ListedEntriesOnePerItem | plugin/gcp/storageBucket.go:119-130 | with no marker among the items, there is exactly one entry per item, at the same position |
| StorageBucket.ListedEntriesSkipMarker | plugin/gcp/storageBucket.go:127 | no file entry is the directory marker: a directory never lists itself |
| StorageBucket.ListedEntriesMembers | plugin/gcp/storageBucket.go:119-130 | every entry comes from some item, and every item other than the marker gives an entry |
| StorageBucket.EntryForShape | plugin/gcp/storageBucket.go:120-128 | for a well-formed item, a directory's name holds no `/` and prefix + name + `/` is its prefix; a file's name is non-empty, holds no `/`, and prefix + name is its key |
| StorageBucket.ListedEntriesShape | plugin/gcp/storageBucket.go:119-130 | the same naming facts for every entry of a listing of well-formed items |
| StorageBucket.ListedEntriesIgnoreFetch | plugin/gcp/storageBucket.go:121-126 | a failed attribute fetch never drops, reorders or renames an entry; only directory attributes depend on the fetches |
| StorageBucket.ListedFilesAreKeys | plugin/gcp/storageBucket.go:100-133 | with no iterator error, every file entry's prefix + name is a stored key directly under the prefix, other than the marker |
| StorageBucket.DirectKeysAreListed | plugin/gcp/storageBucket.go:100-133 | with no iterator error, every stored key directly under the prefix, except the marker, is listed as a file |
| StorageBucket.ListedDirsCoverKeys | plugin/gcp/storageBucket.go:100-133 | with no iterator error, every directory entry covers at least one stored key |
| StorageBucket.DeepKeysUnderDirs | plugin/gcp/storageBucket.go:100-133 | with no iterator error, every deeper stored key lies under some listed directory |
| StorageBucket.FileAndDirectoryShareName | plugin/gcp/storageBucket.go:119-130 | the objects `a` and `a/b` list at the top level as a file `a` followed by a directory `a`: names within one listing can collide |
| StorageBucket.ListedEntriesDistinct | plugin/gcp/storageBucket.go:119-130 | items with unique common prefixes and unique objects give entries in which no two directories and no two files share a name |
| StorageBucket.ListingEntriesDistinct | plugin/gcp/storageBucket.go:100-133 | with unique stored keys, whatever the iterator does, no two directories and no two files of a listing share a name: duplicate prefixes are omitted |
| StorageBucket.DoubledDelimiterEmptyName | plugin/gcp/storageBucket.go:119-124 | the key `a//b` listed under `a/` gives exactly one directory, whose name is empty and whose prefix is `a//` |
| StorageBucket.DeleteObjects | plugin/gcp/storageBucket.go:135-154 | the new bucket contents and the error are those of `CascadeDelete` on the old contents; keys stay unique |
| StorageBucket.FirstRefused | plugin/gcp/storageBucket.go:149-151 | the position of the first enumerated key whose delete is refused (or the count when none is): every key before it is accepted |
| StorageBucket.FlatQueryMembers | plugin/gcp/storageBucket.go:140 | the flat query yields stored keys under the prefix, and every such key |
| StorageBucket.FlatQueryDistinct | plugin/gcp/storageBucket.go:140 | the flat query yields each key at most once |
| StorageBucket.DeleteEachOutcome | plugin/gcp/storageBucket.go:141-152 | deleting distinct stored keys in order removes exactly the keys before the first refused one and reports that key and its cause |
| StorageBucket.CascadeDeleteOutcome | plugin/gcp/storageBucket.go:135-154 | a failed delete stops the run with an error naming that object; the keys enumerated before it are gone and every other key remains in order; otherwise the iterator's error, if any, is returned after deleting everything it yielded |
| StorageBucket.CascadeDeleteSuccess | plugin/gcp/storageBucket.go:135-154 | a delete that reports no error leaves no key under the prefix and removes nothing else |
| StorageBucket.CascadeDeleteRetry | plugin/gcp/storageBucket.go:135-154 | re-running the delete after a partial failure, with no failure, succeeds and leaves no key under the prefix |
| StorageBucket.CascadeDeleteEmpties | plugin/gcp/storageBucket.go:77-79 | emptying under the empty prefix, when it succeeds, leaves the bucket with no object |
| StorageBucket.Bucket.constructor | plugin/gcp/storageBucket.go:22-30 | the entry is named after the bucket, keeps the bucket attributes as its meta, and its crtime, ctime and mtime are all the bucket's creation time |
| StorageBucket.Bucket.List | plugin/gcp/storageBucket.go:70-74 | listing the bucket is listing its top level, the empty prefix |
| StorageBucket.Bucket.Delete | plugin/gcp/storageBucket.go:76-85 | when emptying fails the answer is `false` with that error and the bucket is not deleted; otherwise the bucket is empty and the answer is `true` with the bucket delete's error (the fault, `BucketNotExist` for a bucket already gone, or none), the bucket being gone unless that delete failed |
| GoStrings.TrimPrefix | plugin/gcp/storageBucket.go:120 | when `prefix` leads `s`, prefix + result is `s`; otherwise the result is `s` |
| GoStrings.TrimSuffix | plugin/gcp/storageBucket.go:120 | when `suffix` ends `s`, result + suffix is `s`; otherwise the result is `s` |
| GoStrings.TrimPrefixOnce | plugin/gcp/storageBucket.go:128 | a single leading occurrence is removed, not every one |
| DockerResources.Contains | docker/resourcetype.go:39 | exact, case-sensitive membership of a name in the cached list |
| DockerResources.Lookup | docker/resourcetype.go:31-58 | an unknown type gives `ENOTSUP`; a fetch error passes unchanged; otherwise a node exists exactly when the name is listed, and a missing name gives `ENOENT`; the node has the name and is a file for containers and a directory for volumes |
| DockerResources.ResourceType.Find | docker/resourcetype.go:31-58 | the answer is `Lookup` applied to what the cached accessor yields; an unknown type, a cache hit or a client error leaves the root unchanged; a miss sets `updated` to `now` and the cache to `CacheAfterFetch` (the type's list and, for volumes, each volume's JSON) |
| DockerResources.Wrap | docker/resourcetype.go:69-72 | one node per identifier, in the same order, of the type's kind |
| DockerResources.ResourceType.List | docker/resourcetype.go:60-87 | an unknown type gives `ENOTSUP`; a fetch error passes unchanged; otherwise one node per cached identifier, in order; a cache hit or a client error leaves the root unchanged, and a miss sets `updated` to `now` and the cache to `CacheAfterFetch` |
| DockerResources.ResourceType.Attr | docker/resourcetype.go:99-111 | mtime is the maximum of the root's update time and every stream buffer's last update (at least each, and equal to one); crtime and ctime are unset |
| DockerResources.ResourceType.CachedContainerList | docker/resourcetype.go:118-131 | a cache hit returns the cached list and changes nothing; a client error is returned and changes nothing; otherwise the container IDs in client order are returned and cached under the type's key, and the update time is `now` |
| DockerResources.ResourceType.CachedVolumeList | docker/resourcetype.go:133-153 | as for containers with volume names; a miss also adds every volume's JSON that marshals to the cache, under its own key |
| DockerResources.VolumeBlobsCached | docker/resourcetype.go:140-146 | each volume that marshals is cached under `String()/name` with its own JSON |
| DockerResources.VolumeBlobsSkipped | docker/resourcetype.go:144-148 | a volume that fails to marshal leaves its key out of the cache |
| DockerResources.VolumeBlobsOnly | docker/resourcetype.go:140-149 | nothing but the keys of volumes that marshal is added |
| DockerResources.JsonKeyInjective | docker/resourcetype.go:145 | distinct volume names get distinct JSON keys |
| DockerResources.ResourceType.Name | docker/resourcetype.go:94-97 | the type's name is its type name |
| DockerResources.ResourceType.String | docker/resourcetype.go:89-92 | the type's path is the root's name, `/`, then the type name, and both can be read back from it; `CacheKeysDistinct` shows this makes it a usable cache key |
| DockerResources.CacheKeysDistinct | docker/resourcetype.go:89-97 | the two types of one root have distinct cache keys, and no volume's JSON key collides with a type's list key |
| DockerResources.NewResourceTypes | docker/resourcetype.go:22-29 | exactly the types "container" and "volume", each a fresh object with that name and the shared root |
| DockerResources.ResourceType.constructor | docker/resourcetype.go:26 | a resource type holds its root and type name and starts with no stream buffers |

## Left out

- `storageBucket.Metadata` (bucket attributes plus a Stackdriver size query), `Schema`, `ChildSchemas`, `bucketSchemas` and the description text: reflection and monitoring plumbing, not listing or deletion logic.
- `newStorageObjectPrefix` and `newStorageObject` are not part of this model. Their results are the `ObjectPrefix` and `Object` entries, which carry the name, prefix or object attributes they are built from.
- `plugin.NewFile`, `plugin.NewDir`, `container` and `newVolume` are not part of this model. Their results are the `File` and `Dir` nodes carrying the identifier.
- The SDK calls are modelled by provider state plus oracles: the iterator fault, the `refusals` map, the bucket-delete fault, the Docker client's `fault`, and the `marshal` function. Network failures of the prefix-attribute fetch are not modelled. That fetch fails only when no object is stored under the prefix.
- GCS pagination, and listing while objects are being deleted, are left out. The enumeration is a snapshot taken at the start.
- `DelimiterQuery`'s item order is a modelling choice. It reports items in first-occurrence order of the stored keys, mixing objects and prefixes. The Go storage client yields each response page's objects before that page's prefixes, and page boundaries are not modelled, so the model does not promise the provider's exact order. The shape, soundness, completeness and uniqueness lemmas hold for any order. `ListBucket` keeps whatever order the iterator yields (`ListedEntriesConcat`, `ListedEntriesOnePerItem`).
- `datastore.CachedStrings` is not part of this model. Its cache is a map. A hit is a `Strings` value under the type's key. A miss runs the fetch and stores the list on success only. Expiry (TTL), single-flight and the concurrency of `sync.Map` are left out.
- `log.Debugf`, `log.Printf` and `activity.Record` are left out: logging only.
- Context cancellation is left out. A cancelled call shows up as a provider error, through the same fault parameters.
- Times are integers, and `time.Now()` is the parameter `now`.
- `Xattr` is left out: it returns an empty map.
- `cli.reqs` is a map from a buffer key to its last-update time. The stream buffers themselves are not modelled.
- `Root.constructor` is not a source operation. The Docker root is built elsewhere, and the constructor only fixes its fields.
