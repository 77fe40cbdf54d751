# AgFx hashed isolated-storage provider, modelled in Dafny

AgFx caches data records on the device in the application's local folder.
The hashed provider (`HashedIsoStoreProvider` in
`AgFx.Win8/IsoStore/IsoStoreProvider.cs`) keeps no index: each record is a
file, and the file's relative path carries the whole record descriptor
(`CacheItemInfo`: unique name, optimized flag, expiration and update times):

    «c\<hash of the unique name>\<escaped unique name>»<IsOptimized>»<expiration ticks>»<updated ticks>

This project models that provider in two layers.

* **The file-name codec.** This is the nested `FileItem` class (`file_names.dfy`). It covers:
  * `ToFileName`, `FromFileName`, `DirectoryHash`, and `EncodePathName`/`DecodePathName`;
  * the folder walk of `EnsurePathAsync`;
  * the `FileItem` object itself, whose `_item`, `_fileName` and `_dirName` fields are filled lazily.

  The library calls the codec relies on are written out so that the round trip can be proved:
  * `Uri.EscapeDataString`/`UnescapeDataString`, as RFC 3986 percent-encoding of UTF-8 (`escaping.dfy`);
  * the decimal and boolean `ToString`/`Parse` (`numerals.dfy`);
  * `Path.Combine`/`GetFileName`/`GetDirectoryName` for Windows separators (`paths.dfy`);
  * `String.Split`.

  `string.GetHashCode` is a parameter, `StringHash`: any function from strings to Int32.
* **The provider.** This is a class (`provider.dfy`). Its state:
  * the `_cache` dictionary, as a map from unique name to descriptor;
  * the storage, as a map from relative path to file contents plus the set of existing folders;
  * the background work queue, as the list of submitted tasks.

  Its operations:
  * `GetItems(uniqueName)` with its two loops and the LINQ query between them (`ordering.dfy` models the stable `orderby … descending`);
  * `GetLastestExpiringItem`, `Delete`, `DeleteAll`, `Read`, `Write`, and `GetItems()`;
  * `RunNext`, which executes the oldest submitted task: a file delete, a shard purge, or the write task with its bounded retry loop.

  Which write attempts succeed is an input sequence of booleans. What a folder listing returns is also an input: the names, or a failure when `GetFilesAsync` throws. For a shard folder, a listing that succeeds is required to list exactly the files the storage holds there.

Some behaviour of the store is easy to miss in the code; the model follows the code in each case:

* **A name whose fields do not parse makes `FromFileName` throw.**
  * Why: `Int64.Parse`, the `DateTime` constructor and `Boolean.Parse` throw rather than return null.
  * Effect on `GetItems(uniqueName)`: its `catch` then answers the empty sequence for the whole key, with no deletion and no cache change. The malformed name is not skipped.
  * Effect on `GetItems()`: it returns a lazy projection, so it yields null for a name that does not split into four fields, and the exception escapes to whoever enumerates it.
  * In the model: `FromFileName` returns `Thrown`, and `GetAllItems`/`SelectItems` answer `Thrown` in that case.
* **`DeleteAll` deletes every file of the key's shard folder.** Files of other keys whose names hash to the same folder go too. It does not re-filter by key.
* **Write does not truncate.** The write task opens the file with `OpenIfExists` and writes from offset 0, so a shorter payload leaves the old file's tail in place (`Overlay`).
* **Ties are broken by listing order.** Among records of a key with equal expiration times, the winner is the first in listing order, because LINQ's ordering is stable.
* **A loser is deleted by its re-encoded name.** `Delete` removes `ToFileName` of the descriptor, not the listed file. So a listed file whose name is not the canonical encoding of its descriptor (`a»true»01»2` rather than `a»True»1»2`) is never removed. When such a file decodes to the winner, the winner's own canonical file is deleted (`DuplicateOfWinner`).
* **A full record path decodes to null.** It begins with `«c\`, so `FromFileName(ToFileName(item))` is null. Only the last segment decodes back to the record.

## Model

| member | source | states |
|---|---|---|
| Escaping.UnescapeEscape | AgFx.Win8/IsoStore/IsoStoreProvider.cs:436-445 | Escaping.Unescape (escaping.dfy:170) undoes Escaping.Escape for every string, so DecodePathName undoes EncodePathName |
| Escaping.EscapeAvoids | AgFx.Win8/IsoStore/IsoStoreProvider.cs:441-445 | escaped text never holds a reserved character other than '%' (so never '»', '\\', '/', ':' or '«') |
| Escaping.Escape | AgFx.Win8/IsoStore/IsoStoreProvider.cs:441-445 | every character of EscapeDataString's output is unreserved or '%' |
| Numerals.ParseFormatTicks | AgFx.Win8/IsoStore/IsoStoreProvider.cs:425-426 | new DateTime(Int64.Parse(t.ToString())) gives back t for every valid tick count |
| Numerals.ParseFormatBool | AgFx.Win8/IsoStore/IsoStoreProvider.cs:427 | Boolean.Parse reads back what Boolean.ToString wrote |
| Numerals.DigitsValueOfFormat | AgFx.Win8/IsoStore/IsoStoreProvider.cs:450 | the decimal text of a tick count is a non-empty digit run whose value is the count |
| Numerals.ParseInt64 | AgFx.Win8/IsoStore/IsoStoreProvider.cs:425-426 | a parsed value always lies in the Int64 range (out-of-range text throws) |
| Paths.Combine | AgFx.Win8/IsoStore/IsoStoreProvider.cs:451 | Path.Combine inserts one '\\' between a directory and a relative name, none after a trailing separator |
| Paths.DirectoryAndFileOfJoin | AgFx.Win8/IsoStore/IsoStoreProvider.cs:413 | GetFileName and GetDirectoryName split dir\name back into name and dir |
| FileNames.SplitCount | AgFx.Win8/IsoStore/IsoStoreProvider.cs:415-418 | String.Split yields one more part than there are separators |
| FileNames.EncodePathNameProperties | AgFx.Win8/IsoStore/IsoStoreProvider.cs:436-445 | EncodePathName (file_names.dfy:86) of a key holds no '»' and no path separator, and DecodePathName (file_names.dfy:91) gives the key back |
| FileNames.EncodedNameFields | AgFx.Win8/IsoStore/IsoStoreProvider.cs:449-450 | the String.Format name splits on '»' into exactly its four fields, whatever the key holds |
| FileNames.EncodedNameIsSegment | AgFx.Win8/IsoStore/IsoStoreProvider.cs:449-451 | the encoded name is a single relative path segment that Path.Combine appends |
| FileNames.DirectoryHashShape | AgFx.Win8/IsoStore/IsoStoreProvider.cs:403-406 | DirectoryHash (file_names.dfy:111) is «c\ followed by the key's hash, directly under the cache root |
| FileNames.PathShape | AgFx.Win8/IsoStore/IsoStoreProvider.cs:447-453 | a record's path, ToFileName (file_names.dfy:123), is DirectoryHash(key)\name: its directory depends on the key only, its file name is the encoded name |
| FileNames.DecodeRejects | AgFx.Win8/IsoStore/IsoStoreProvider.cs:408-434 | FromFileName (file_names.dfy:132) answers null exactly for a name under «c\ or a last segment without exactly three '»' |
| FileNames.DecodeEncodedName | AgFx.Win8/IsoStore/IsoStoreProvider.cs:408-450 | the encoded name decodes to the descriptor it encodes |
| FileNames.RoundTrip | AgFx.Win8/IsoStore/IsoStoreProvider.cs:408-453 | FromFileName (file_names.dfy:132) of the last segment of ToFileName(item) (file_names.dfy:123) is item: key, flag and both tick counts |
| FileNames.ToFileNameInjective | AgFx.Win8/IsoStore/IsoStoreProvider.cs:447-453 | distinct descriptors never share a path |
| FileNames.FullPathIsNotARecord | AgFx.Win8/IsoStore/IsoStoreProvider.cs:408-410 | FromFileName of a full record path is null, since it starts with the cache-root prefix |
| FileNames.AncestorsArePrefixes | AgFx.Win8/IsoStore/IsoStoreProvider.cs:391-401 | each folder EnsurePathAsync creates is a non-empty proper prefix of the path ending before a separator, shorter than the previous one |
| FileNames.AncestorsOfRecord | AgFx.Win8/IsoStore/IsoStoreProvider.cs:391-401 | before writing a record, EnsurePathAsync creates exactly its shard folder and then «c |
| FileNames.EnsurePath | AgFx.Win8/IsoStore/IsoStoreProvider.cs:391-401 | the loop creates the folders from the file's directory upwards, in order, until GetDirectoryName is empty |
| FileNames.FileItem.FromName | AgFx.Win8/IsoStore/IsoStoreProvider.cs:353-356 | an item built from a path holds the path and nothing decoded yet |
| FileNames.FileItem.FromItem | AgFx.Win8/IsoStore/IsoStoreProvider.cs:358-361 | an item built from a descriptor holds the descriptor and no path yet |
| FileNames.FileItem.Item | AgFx.Win8/IsoStore/IsoStoreProvider.cs:282-297 | the Item getter answers the same on every call: the descriptor given, or FromFileName of the path (null or throwing), kept once decoded |
| FileNames.FileItem.FileName | AgFx.Win8/IsoStore/IsoStoreProvider.cs:329-339 | the FileName getter answers the path given, or else ToFileName of the descriptor, and keeps it |
| FileNames.FileItem.DirectoryName | AgFx.Win8/IsoStore/IsoStoreProvider.cs:317-327 | the DirectoryName getter answers the key's hash as text, and throws when the item cannot be decoded or is null |
| Ordering.Matching | AgFx.Win8/IsoStore/IsoStoreProvider.cs:135-136 | the where clause keeps exactly the descriptors of the key, each as often as it occurs in the input |
| Ordering.MatchingAppend | AgFx.Win8/IsoStore/IsoStoreProvider.cs:135-136 | the where clause keeps the input order: filtering a concatenation is concatenating the filtered parts |
| Ordering.OrderByExpirationDescending | AgFx.Win8/IsoStore/IsoStoreProvider.cs:135-138 | the orderby clause is a permutation sorted by expiration time, latest first |
| Ordering.InsertKeepsSorted | AgFx.Win8/IsoStore/IsoStoreProvider.cs:137 | each insertion step of the stable sort keeps the order descending |
| Ordering.OrderedHead | AgFx.Win8/IsoStore/IsoStoreProvider.cs:135-138 | the head of the ordering is the latest-expiring descriptor, the first listed among equal ones |
| Ordering.WinnerSelection | AgFx.Win8/IsoStore/IsoStoreProvider.cs:135-149 | the kept descriptor has the key, expires no earlier than any of the key's descriptors, and with the ones passed to Delete makes up exactly the key's descriptors; none exactly when no descriptor has the key |
| Provider.Collect | AgFx.Win8/IsoStore/IsoStoreProvider.cs:123-133 | the first loop of GetItems throws exactly when some name throws, and otherwise collects exactly the non-null descriptors |
| Provider.CollectCounts | AgFx.Win8/IsoStore/IsoStoreProvider.cs:123-133 | the first loop keeps each descriptor as many times as listed names decode to it |
| Provider.CollectAppend | AgFx.Win8/IsoStore/IsoStoreProvider.cs:123-133 | the first loop keeps listing order: collecting a concatenation is concatenating the collected parts |
| Provider.ShardCounts | AgFx.Win8/IsoStore/IsoStoreProvider.cs:123-138 | on a miss the ordered candidates are the key's descriptors, each counted as often as listed names decode to it |
| Provider.DuplicateOfWinner | AgFx.Win8/IsoStore/IsoStoreProvider.cs:140-149 | when two listed names decode to the winner, a delete of the winner's own file is submitted |
| Provider.DeletedIfPassed | AgFx.Win8/IsoStore/IsoStoreProvider.cs:148 | every descriptor the second loop passes to Delete has a delete of its ToFileName path submitted |
| Provider.ShardWinner | AgFx.Win8/IsoStore/IsoStoreProvider.cs:123-149 | on a miss there is a winner exactly when some listed file decodes to a descriptor of the key; it is one of them and no other expires later |
| Provider.SelectItems | AgFx.Win8/IsoStore/IsoStoreProvider.cs:55-56 | GetItems() yields the descriptor or null of every listed file, in order, and throws exactly when a decode throws |
| Provider.Overlay | AgFx.Win8/IsoStore/IsoStoreProvider.cs:249-255 | after the write the file starts with the data and keeps the old contents beyond it |
| Provider.HashedIsoStoreProvider.constructor | AgFx.Win8/IsoStore/IsoStoreProvider.cs:98 | a provider starts with an empty cache and no submitted work |
| Provider.HashedIsoStoreProvider.GetItems | AgFx.Win8/IsoStore/IsoStoreProvider.cs:100-164 | in terms of Lookup (provider.dfy:198), what the key's lookup finds: a hit answers the cached descriptor and changes nothing; a miss answers the shard's winner (or nothing), caches it, and submits a delete for every other descriptor of the key; at most one result, always of the key; storage is not changed |
| Provider.HashedIsoStoreProvider.GetItemsFromShard | AgFx.Win8/IsoStore/IsoStoreProvider.cs:111-163 | a missing shard folder, a failing listing or a throwing name answers empty with no change; otherwise the winner is kept and cached and the rest deleted |
| Provider.HashedIsoStoreProvider.DecodeShard | AgFx.Win8/IsoStore/IsoStoreProvider.cs:121-133 | the first loop: the non-null decoded descriptors in listing order, or Thrown |
| Provider.HashedIsoStoreProvider.KeepWinner | AgFx.Win8/IsoStore/IsoStoreProvider.cs:135-156 | the head of the key's ordered descriptors is cached and answered, every other one is deleted |
| Provider.HashedIsoStoreProvider.KeepFirstDeleteRest | AgFx.Win8/IsoStore/IsoStoreProvider.cs:140-149 | the second loop keeps the first ordered descriptor and passes every later one to Delete, in order, leaving the cache as it was |
| Provider.HashedIsoStoreProvider.GetLastestExpiringItem | AgFx.Win8/IsoStore/IsoStoreProvider.cs:166-171 | the first descriptor GetItems answers, or none, with GetItems' effects |
| Provider.HashedIsoStoreProvider.GetAllItems | AgFx.Win8/IsoStore/IsoStoreProvider.cs:49-63 | empty when the cache root does not exist or its listing fails; otherwise Thrown exactly when FromFileName throws on some listed path, and else, in listing order, what FromFileName answers for each path: the descriptor or null |
| Provider.HashedIsoStoreProvider.Delete | AgFx.Win8/IsoStore/IsoStoreProvider.cs:179-206 | the cache entry goes only when it equals the given descriptor, every other entry stays, and one delete of the descriptor's file is submitted |
| Provider.HashedIsoStoreProvider.DeleteAll | AgFx.Win8/IsoStore/IsoStoreProvider.cs:65-96 | the key leaves the cache, every other entry stays, and a purge of the shard folder is submitted when that folder exists |
| Provider.HashedIsoStoreProvider.Read | AgFx.Win8/IsoStore/IsoStoreProvider.cs:208-234 | the contents of the descriptor's file, or null exactly when there is no such file |
| Provider.HashedIsoStoreProvider.Write | AgFx.Win8/IsoStore/IsoStoreProvider.cs:238-242 | only a write task for the descriptor's file is submitted; nothing else changes |
| Provider.HashedIsoStoreProvider.WriteWithRetries | AgFx.Win8/IsoStore/IsoStoreProvider.cs:242-269 | at most 3 attempts, stopping at the first success; the cache gets the descriptor (and the file the data) if and only if some attempt succeeds, and nothing changes when all fail |
| Provider.HashedIsoStoreProvider.WriteAttempt | AgFx.Win8/IsoStore/IsoStoreProvider.cs:248-261 | a successful attempt creates the path's folders, writes the data into the file and caches the descriptor |
| Provider.HashedIsoStoreProvider.RunNext | AgFx.Win8/IsoStore/IsoStoreProvider.cs:242-269 | the oldest task runs and leaves the queue: a file delete (lines 196-205) removes that file, a purge (lines 90-94) removes every file directly in the folder, a write task behaves as WriteWithRetries |

## Left out

- Windows.Storage. Folder lookup, listing, stream reads and writes, file and folder deletion are platform calls. They become the `files` map, the `folders` set and listings passed in as inputs.
- `PriorityQueue.AddStorageWorkItem`, async/await, `RunSynchronouslyEx`, `Task.Delay(50)` and the `lock` regions. Concurrency is not modelled. Submitted work is a list, and tasks run one at a time, in submission order, when `RunNext` is called.
- WriteWithRetries: a failed attempt has no effect in the model. A real attempt can fail after creating some folders or after writing part of the file.
- `string.GetHashCode`. It is a parameter; every property holds for any hash function.
- `EscapeDataString`'s limit on input length and its rejection of unpaired UTF-16 surrogates. Strings are sequences of Unicode scalar values.
- `Path.Combine`'s checks for invalid characters, and path normalisation. The model covers only the separator and drive cases the store's relative paths can meet.
- GetAllItems: the listed paths are an unconstrained input, not related to `files`. `CommonFileQuery.DefaultQuery` is a shallow listing of `«c`, and the store never writes records directly there (they go under `«c\<hash>\`, `AgFx.Win8/IsoStore/IsoStoreProvider.cs:451`). So on a store written only by this provider, the listing holds no record file.
- ParseBool: letters are compared by ASCII case folding. Ordinal case-insensitive comparison in .NET can also match a non-ASCII letter whose upper case is an ASCII letter (U+017F, long s, upper-cases to 'S'). A flag spelt with such a letter throws in the model.
- ParseInt64: `Int64.Parse` also accepts trailing null characters after the number. The model refuses them, so such a tick field throws in the model.
- `FileItem.Data`, `WriteTime`, `Length`, `Equals`, `GetHashCode` and the debug-only `ToString`. The store never uses them.
- `Flush`, `IsBuffered` and `FlushThreshholdBytes`. They do nothing in this provider.
- The null result when `Item` is read on a `FileItem` built from a null descriptor. Descriptors in the model are never null.
- `AgFx/Converters/StringFormatConverter.cs`, `AgFx.Common/Timer.cs`, `AgFx.Common/Extensions.cs` and `AgFx/ThreadingHelper.cs` are not part of this model. They are UI glue and thin wrappers outside the store.
