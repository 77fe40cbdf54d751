/**
 * HashedIsoStoreProvider: the store's operations over an abstract file store
 * (file contents by relative path, and the set of folders that exist), its
 * in-memory `_cache` of the winning descriptor per key, and the storage work it
 * hands to the background queue, recorded in submission order.
 */
module Provider {
  import opened Wrappers
  import opened Escaping
  import opened Numerals
  import opened Paths
  import opened CacheItems
  import opened FileNames
  import opened Ordering

  /** The storage work the provider submits to PriorityQueue.AddStorageWorkItem. */
  datatype WorkItem =
    | DeleteFile(fileName: string)                                    // Delete's task
    | DeleteFolderFiles(folder: string)                               // DeleteAll's task
    | WriteFile(fileName: string, info: CacheItemInfo, data: seq<byte>)  // Write's task

  /** WriteRetries: the number of attempts a write task makes. */
  const WriteRetries: nat := 3

  /** The names of the files directly inside folder dir. */
  function FilesIn(files: map<string, seq<byte>>, dir: string): set<string> {
    set p | p in files && GetDirectoryName(p) == dir :: GetFileName(p)
  }

  /** names is what GetFilesAsync answers for folder dir: each of its files once, in some order. */
  predicate IsListing(names: seq<string>, files: map<string, seq<byte>>, dir: string) {
    && (forall i, j :: 0 <= i < j < |names| ==> names[i] != names[j])
    && (set n | n in names) == FilesIn(files, dir)
  }

  /** What FromFileName answers for each listed name, in listing order. */
  function DecodeEach(names: seq<string>): (r: seq<Result<Option<CacheItemInfo>>>)
    ensures |r| == |names| && forall i :: 0 <= i < |names| ==> r[i] == FromFileName(names[i])
  {
    seq(|names|, i requires 0 <= i < |names| => FromFileName(names[i]))
  }

  /**
   * The first loop of GetItems over the decode results: the descriptors in
   * listing order, nulls skipped; Thrown as soon as one decode throws.
   */
  function Collect(results: seq<Result<Option<CacheItemInfo>>>): (r: Result<seq<CacheItemInfo>>)
    ensures r.Thrown? <==> exists i :: 0 <= i < |results| && results[i].Thrown?
    ensures r.Ok? ==> forall x :: x in r.value <==> exists i :: 0 <= i < |results| && results[i] == Ok(Some(x))
  {
    if results == [] then Ok([])
    else
      var init, last := results[..|results| - 1], results[|results| - 1];
      assert forall i :: 0 <= i < |init| ==> init[i] == results[i];
      match Collect(init)
      case Thrown => Thrown
      case Ok(items) =>
        match last
        case Thrown => Thrown
        case Ok(None) => Ok(items)
        case Ok(Some(item)) => Ok(items + [item])
  }

  /** The first loop keeps every descriptor as often as the listing yields it. */
  lemma {:induction false} CollectCounts(results: seq<Result<Option<CacheItemInfo>>>)
    requires Collect(results).Ok?
    ensures forall x :: multiset(Collect(results).value)[x] == multiset(results)[Ok(Some(x))]
  {
    if results != [] {
      var init, last := results[..|results| - 1], results[|results| - 1];
      assert results == init + [last];
      assert multiset(results) == multiset(init) + multiset{last};
      CollectCounts(init);
      var front := Collect(init).value;
      assert Collect(results).value == if last.value.None? then front else front + [last.value.value];
    }
  }

  /** The first loop keeps listing order: collecting a concatenation collects each part. */
  lemma {:induction false} CollectAppend(a: seq<Result<Option<CacheItemInfo>>>, b: seq<Result<Option<CacheItemInfo>>>)
    requires Collect(a).Ok? && Collect(b).Ok?
    ensures Collect(a + b) == Ok(Collect(a).value + Collect(b).value)
  {
    if b == [] {
      assert a + b == a && Collect(a).value + [] == Collect(a).value;
    } else {
      var ab, init, last := a + b, b[..|b| - 1], b[|b| - 1];
      assert ab[..|ab| - 1] == a + init && ab[|ab| - 1] == last;
      assert Collect(init).Ok? && last.Ok?;
      CollectAppend(a, init);
      if last.value.Some? {
        AppendOne(Collect(a).value, Collect(init).value, last.value.value);
      }
    }
  }

  /** On a cache miss: the shard's descriptors of the key, latest first; Thrown when a name throws. */
  function ShardCandidates(results: seq<Result<Option<CacheItemInfo>>>, key: string): Result<seq<CacheItemInfo>> {
    match Collect(results)
    case Thrown => Thrown
    case Ok(decoded) => Ok(OrderByExpirationDescending(Matching(decoded, key)))
  }

  /**
   * Winner selection on a miss, over the decode results of the listed files:
   * there is a winner exactly when some listed file decodes to a descriptor
   * of the key; the winner is one of them and expires no earlier than any.
   */
  lemma ShardWinner(results: seq<Result<Option<CacheItemInfo>>>, key: string)
    requires Collect(results).Ok?
    ensures var c := ShardCandidates(results, key).value;
      && (c == [] <==> forall i :: 0 <= i < |results| && results[i].Ok? && results[i].value.Some? ==> results[i].value.value.uniqueName != key)
      && (c != [] ==>
            && c[0].uniqueName == key
            && (exists i :: 0 <= i < |results| && results[i] == Ok(Some(c[0])))
            && forall i :: 0 <= i < |results| && results[i].Ok? && results[i].value.Some? && results[i].value.value.uniqueName == key ==>
                 results[i].value.value.expirationTime <= c[0].expirationTime)
  {
    var decoded := Collect(results).value;
    WinnerSelection(decoded, key);
    forall i | 0 <= i < |results| && results[i].Ok? && results[i].value.Some?
      ensures results[i].value.value in decoded
    {
      assert results[i] == Ok(Some(results[i].value.value));
    }
  }

  /**
   * On a cache miss the candidates are the key's descriptors counted as often
   * as listed names decode to them, so duplicates are not merged.
   */
  lemma ShardCounts(results: seq<Result<Option<CacheItemInfo>>>, key: string)
    requires Collect(results).Ok?
    ensures forall x :: multiset(ShardCandidates(results, key).value)[x] ==
                          if x.uniqueName == key then multiset(results)[Ok(Some(x))] else 0
  {
    CollectCounts(results);
  }

  /**
   * When two listed names decode to the winner, GetItems passes the winner
   * itself to Delete, which deletes the file the winner's descriptor names.
   */
  lemma DuplicateOfWinner(hash: StringHash, results: seq<Result<Option<CacheItemInfo>>>, key: string)
    requires Collect(results).Ok? && ShardCandidates(results, key).value != []
    requires multiset(results)[Ok(Some(ShardCandidates(results, key).value[0]))] >= 2
    ensures var c := ShardCandidates(results, key).value;
      DeleteFile(ToFileName(hash, c[0])) in Deletions(hash, c[1..])
  {
    var c := ShardCandidates(results, key).value;
    ShardCounts(results, key);
    assert c == [c[0]] + c[1..];
    assert c[0] in multiset(c[1..]);
    DeletedIfPassed(hash, c[1..], c[0]);
  }

  /** Every descriptor passed to Delete has the file it names deleted. */
  lemma DeletedIfPassed(hash: StringHash, items: seq<CacheItemInfo>, x: CacheItemInfo)
    requires x in items
    ensures DeleteFile(ToFileName(hash, x)) in Deletions(hash, items)
  {
    var k :| 0 <= k < |items| && items[k] == x;
    assert Deletions(hash, items)[k] == DeleteFile(ToFileName(hash, x));
  }

  /** The delete tasks GetItems submits, one per descriptor passed to Delete. */
  function Deletions(hash: StringHash, items: seq<CacheItemInfo>): seq<WorkItem> {
    Map(item => DeleteFile(ToFileName(hash, item)), items)
  }

  /** f applied to each element of s, in order. */
  function Map<A, B>(f: A -> B, s: seq<A>): (r: seq<B>)
    ensures |r| == |s| && forall i :: 0 <= i < |s| ==> r[i] == f(s[i])
  {
    seq(|s|, i requires 0 <= i < |s| => f(s[i]))
  }

  /** Mapping one more element appends its image. */
  lemma MapSnoc<A, B>(f: A -> B, s: seq<A>, i: nat, j: nat)
    requires i <= j < |s|
    ensures Map(f, s[i..j + 1]) == Map(f, s[i..j]) + [f(s[j])]
  {
  }

  /** Appending is associative. */
  lemma AppendOne<T>(q: seq<T>, d: seq<T>, t: T)
    ensures q + d + [t] == q + (d + [t])
  {
  }

  /**
   * A file opened with OpenIfExists and written from offset 0 without
   * truncation: the new data, then whatever of the old contents lies beyond it.
   */
  function Overlay(existing: Option<seq<byte>>, data: seq<byte>): (r: seq<byte>)
    ensures |r| >= |data| && r[..|data|] == data
    ensures existing.None? || |existing.value| <= |data| ==> r == data
    ensures existing.Some? && |existing.value| > |data| ==> |r| == |existing.value| && r[|data|..] == existing.value[|data|..]
  {
    if existing.Some? && |existing.value| > |data| then data + existing.value[|data|..] else data
  }

  /** Attempt k of a write task succeeds (attempts beyond the given outcomes fail). */
  predicate Succeeds(outcomes: seq<bool>, k: nat) {
    k < |outcomes| && outcomes[k]
  }

  /** Some attempt of a write task succeeds. */
  predicate WriteSucceeds(outcomes: seq<bool>) {
    exists k :: 0 <= k < WriteRetries && Succeeds(outcomes, k)
  }

  /**
   * GetItems() over the decode results of the cache folder's files: the
   * descriptor or null of each; Thrown when one decode throws (the exception
   * reaches whoever enumerates the result).
   */
  function SelectItems(results: seq<Result<Option<CacheItemInfo>>>): (r: Result<seq<Option<CacheItemInfo>>>)
    ensures r.Thrown? <==> exists k :: 0 <= k < |results| && results[k].Thrown?
    ensures r.Ok? ==> |r.value| == |results| && forall k :: 0 <= k < |results| ==> results[k] == Ok(r.value[k])
  {
    if results == [] then Ok([])
    else
      match results[0]
      case Thrown => Thrown
      case Ok(item) =>
        match SelectItems(results[1..])
        case Thrown => Thrown
        case Ok(rest) => Ok([item] + rest)
  }

  class HashedIsoStoreProvider {
    /** string.GetHashCode, fixed for the life of the process. */
    const hash: StringHash
    /** _cache: the winning descriptor of each key looked up or written. */
    var cache: map<string, CacheItemInfo>
    /** The application's local folder: file contents by relative path. */
    var files: map<string, seq<byte>>
    /** The folders that exist under the local folder, by relative path. */
    var folders: set<string>
    /** Storage work submitted to the background queue and not yet run, oldest first. */
    var queue: seq<WorkItem>

    /** Every cached descriptor is filed under its own key. */
    ghost predicate Valid()
      reads this
    {
      forall key :: key in cache ==> cache[key].uniqueName == key
    }

    /** A provider starts with an empty cache over whatever storage already holds. */
    constructor (hash: StringHash, files: map<string, seq<byte>>, folders: set<string>)
      ensures Valid() && this.hash == hash && cache == map[] && queue == []
      ensures this.files == files && this.folders == folders
    {
      this.hash := hash;
      this.files := files;
      this.folders := folders;
      cache := map[];
      queue := [];
    }

    /**
     * What a lookup of uniqueName finds: the cached descriptor, or else the
     * shard's descriptors of the key, latest first (none when the shard
     * folder does not exist, its listing fails or a name in it throws).
     * listing is what GetFilesAsync answers for the shard folder.
     */
    function Lookup(uniqueName: string, listing: Result<seq<string>>): seq<CacheItemInfo>
      reads this
    {
      if uniqueName in cache then [cache[uniqueName]]
      else if DirectoryHash(hash, uniqueName) !in folders || listing.Thrown? then []
      else match ShardCandidates(DecodeEach(listing.value), uniqueName)
        case Thrown => []
        case Ok(c) => c
    }

    /** GetItems(uniqueName): at most one descriptor, the key's winner. */
    method GetItems(uniqueName: string, listing: Result<seq<string>>) returns (items: seq<CacheItemInfo>)
      requires Valid()
      requires uniqueName !in cache && DirectoryHash(hash, uniqueName) in folders && listing.Ok? ==>
                 IsListing(listing.value, files, DirectoryHash(hash, uniqueName))
      modifies this`cache, this`queue
      ensures Valid() && files == old(files) && folders == old(folders)
      ensures |items| <= 1 && forall x :: x in items ==> x.uniqueName == uniqueName
      ensures uniqueName in old(cache) ==> items == [old(cache)[uniqueName]] && cache == old(cache) && queue == old(queue)
      ensures var found := old(Lookup(uniqueName, listing));
        && items == (if found == [] then [] else [found[0]])
        && cache == (if found == [] then old(cache) else old(cache)[uniqueName := found[0]])
        && queue == old(queue) + (if found == [] then [] else Deletions(hash, found[1..]))
    {
      if uniqueName in cache {
        return [cache[uniqueName]];
      }
      items := GetItemsFromShard(uniqueName, listing);
    }

    /** GetItems on a cache miss: reads the key's shard folder and keeps its winner. */
    method GetItemsFromShard(uniqueName: string, listing: Result<seq<string>>) returns (items: seq<CacheItemInfo>)
      requires Valid() && uniqueName !in cache
      modifies this`cache, this`queue
      ensures Valid()
      ensures var found := if DirectoryHash(hash, uniqueName) !in folders || listing.Thrown? then Thrown
                           else ShardCandidates(DecodeEach(listing.value), uniqueName);
        if found.Thrown? || found.value == [] then
          items == [] && cache == old(cache) && queue == old(queue)
        else
          && items == [found.value[0]] && found.value[0].uniqueName == uniqueName
          && cache == old(cache)[uniqueName := found.value[0]]
          && queue == old(queue) + Deletions(hash, found.value[1..])
    {
      var dir := DirectoryHash(hash, uniqueName);
      if dir !in folders || listing.Thrown? {
        return [];
      }
      var shard := DecodeShard(listing.value);
      if shard.Thrown? {
        return [];
      }
      items := KeepWinner(uniqueName, shard.value);
    }

    /** GetItems on a cache miss, once the shard decoded: caches the key's winner and deletes the rest. */
    method KeepWinner(uniqueName: string, decoded: seq<CacheItemInfo>) returns (items: seq<CacheItemInfo>)
      requires Valid() && uniqueName !in cache
      modifies this`cache, this`queue
      ensures Valid()
      ensures var ordered := OrderByExpirationDescending(Matching(decoded, uniqueName));
        if ordered == [] then
          items == [] && cache == old(cache) && queue == old(queue)
        else
          && items == [ordered[0]] && ordered[0].uniqueName == uniqueName
          && cache == old(cache)[uniqueName := ordered[0]]
          && queue == old(queue) + Deletions(hash, ordered[1..])
    {
      var ordered := OrderByExpirationDescending(Matching(decoded, uniqueName));
      OrderedHaveKey(decoded, uniqueName);
      var item := KeepFirstDeleteRest(uniqueName, ordered);
      if item.Some? {
        cache := cache[uniqueName := item.value];
        return [item.value];
      }
      return [];
    }

    /**
     * The second loop of GetItems: the first of the ordered descriptors is
     * kept, every other one is passed to Delete (which leaves the cache alone,
     * since the key is not cached).
     */
    method KeepFirstDeleteRest(uniqueName: string, ordered: seq<CacheItemInfo>) returns (item: Option<CacheItemInfo>)
      requires Valid() && uniqueName !in cache
      requires forall x :: x in ordered ==> x.uniqueName == uniqueName
      modifies this`cache, this`queue
      ensures Valid() && cache == old(cache)
      ensures item == (if ordered == [] then None else Some(ordered[0]))
      ensures queue == old(queue) + (if ordered == [] then [] else Deletions(hash, ordered[1..]))
    {
      item := None;
      var j := 0;
      while j < |ordered|
        invariant 0 <= j <= |ordered|
        invariant item == (if j == 0 then None else Some(ordered[0]))
        invariant Valid() && cache == old(cache)
        invariant queue == old(queue) + Deletions(hash, ordered[(if j == 0 then 0 else 1)..j])
      {
        if item.None? {
          item := Some(ordered[j]);
        } else {
          MapSnoc(item => DeleteFile(ToFileName(hash, item)), ordered, 1, j);
          AppendOne(old(queue), Deletions(hash, ordered[1..j]), DeleteFile(ToFileName(hash, ordered[j])));
          Delete(ordered[j]);
        }
        j := j + 1;
      }
      if item.Some? {
        assert ordered[1..j] == ordered[1..];
      }
    }

    /** The first loop of GetItems: decodes each listed name, giving up when one throws. */
    static method DecodeShard(listing: seq<string>) returns (r: Result<seq<CacheItemInfo>>)
      ensures r == Collect(DecodeEach(listing))
    {
      ghost var results := DecodeEach(listing);
      var decoded: seq<CacheItemInfo> := [];
      var i := 0;
      while i < |listing|
        invariant 0 <= i <= |listing|
        invariant Collect(results[..i]) == Ok(decoded)
      {
        var cii := FromFileName(listing[i]);
        assert cii == results[i];
        if cii.Thrown? {
          return Thrown;
        }
        assert results[..i + 1][..i] == results[..i];
        if cii.value.Some? {
          decoded := decoded + [cii.value.value];
        }
        i := i + 1;
      }
      assert results[..i] == results;
      r := Ok(decoded);
    }

    /** GetLastestExpiringItem: the first descriptor GetItems answers, if any. */
    method GetLastestExpiringItem(uniqueName: string, listing: Result<seq<string>>) returns (latest: Option<CacheItemInfo>)
      requires Valid()
      requires uniqueName !in cache && DirectoryHash(hash, uniqueName) in folders && listing.Ok? ==>
                 IsListing(listing.value, files, DirectoryHash(hash, uniqueName))
      modifies this`cache, this`queue
      ensures Valid() && files == old(files) && folders == old(folders)
      ensures latest.Some? ==> latest.value.uniqueName == uniqueName
      ensures var found := old(Lookup(uniqueName, listing));
        && latest == (if found == [] then None else Some(found[0]))
        && cache == (if found == [] then old(cache) else old(cache)[uniqueName := found[0]])
        && queue == old(queue) + (if found == [] then [] else Deletions(hash, found[1..]))
    {
      var items := GetItems(uniqueName, listing);
      latest := if items == [] then None else Some(items[0]);
    }

    /**
     * GetItems(): the descriptors of the files the cache folder lists, by full
     * path; paths is what GetFilesAsync answers for that folder. Thrown when
     * enumerating the answer throws, which happens after the method returned.
     */
    function GetAllItems(paths: Result<seq<string>>): (r: Result<seq<Option<CacheItemInfo>>>)
      reads this
      ensures CacheDirectoryName !in folders || paths.Thrown? ==> r == Ok([])
      ensures CacheDirectoryName in folders && paths.Ok? ==>
        var names := paths.value;
        && (r.Thrown? <==> exists k :: 0 <= k < |names| && FromFileName(names[k]).Thrown?)
        && (r.Ok? ==> |r.value| == |names| && forall k :: 0 <= k < |names| ==> FromFileName(names[k]) == Ok(r.value[k]))
    {
      if CacheDirectoryName !in folders || paths.Thrown? then Ok([]) else SelectItems(DecodeEach(paths.value))
    }

    /**
     * Delete: drops the cache entry only when it is this very descriptor,
     * and submits the deletion of the descriptor's file.
     */
    method Delete(item: CacheItemInfo)
      requires Valid()
      modifies this`cache, this`queue
      ensures Valid()
      ensures cache == (if item.uniqueName in old(cache) && old(cache)[item.uniqueName] == item
                        then old(cache) - {item.uniqueName} else old(cache))
      ensures queue == old(queue) + [DeleteFile(ToFileName(hash, item))]
    {
      if item.uniqueName in cache && cache[item.uniqueName] == item {
        cache := cache - {item.uniqueName};
      }
      var fi := new FileItem.FromItem(hash, item);
      var fileName := fi.FileName();
      queue := queue + [DeleteFile(fileName)];
    }

    /**
     * DeleteAll: drops the key's cache entry and, when its shard folder
     * exists, submits the deletion of every file in that folder.
     */
    method DeleteAll(uniqueName: string)
      requires Valid()
      modifies this`cache, this`queue
      ensures Valid()
      ensures cache == old(cache) - {uniqueName}
      ensures queue == old(queue) + (if DirectoryHash(hash, uniqueName) in folders
                                     then [DeleteFolderFiles(DirectoryHash(hash, uniqueName))] else [])
    {
      if uniqueName in cache {
        cache := cache - {uniqueName};
      }
      var dir := DirectoryHash(hash, uniqueName);
      if dir in folders {
        queue := queue + [DeleteFolderFiles(dir)];
      }
    }

    /** Read: the contents of the descriptor's file, None when it cannot be opened. */
    method Read(item: CacheItemInfo) returns (bytes: Option<seq<byte>>)
      ensures bytes.Some? <==> ToFileName(hash, item) in files
      ensures bytes.Some? ==> bytes.value == files[ToFileName(hash, item)]
    {
      var fi := new FileItem.FromItem(hash, item);
      var fileName := fi.FileName();
      if fileName in files {
        bytes := Some(files[fileName]);
      } else {
        bytes := None;
      }
    }

    /** Write: submits the write task for the descriptor's file and returns at once. */
    method Write(info: CacheItemInfo, data: seq<byte>)
      modifies this`queue
      ensures queue == old(queue) + [WriteFile(ToFileName(hash, info), info, data)]
    {
      var fi := new FileItem.FromItem(hash, info);
      var fileName := fi.FileName();
      queue := queue + [WriteFile(fileName, info, data)];
    }

    /**
     * The write task: up to WriteRetries attempts, each creating the folders
     * of the path and writing the file; the first that succeeds stores the
     * data, makes info the key's cached descriptor and ends the loop.
     */
    method WriteWithRetries(fileName: string, info: CacheItemInfo, data: seq<byte>, outcomes: seq<bool>)
      returns (succeeded: bool, attempts: nat)
      requires Valid()
      modifies this`files, this`folders, this`cache
      ensures Valid()
      ensures 1 <= attempts <= WriteRetries
      ensures succeeded <==> WriteSucceeds(outcomes)
      ensures succeeded ==> Succeeds(outcomes, attempts - 1) && forall k :: 0 <= k < attempts - 1 ==> !Succeeds(outcomes, k)
      ensures !succeeded ==> attempts == WriteRetries
      ensures succeeded ==>
        && cache == old(cache)[info.uniqueName := info]
        && files == old(files)[fileName := Overlay(if fileName in old(files) then Some(old(files)[fileName]) else None, data)]
        && folders == old(folders) + (set p | p in Ancestors(GetDirectoryName(fileName)))
      ensures !succeeded ==> cache == old(cache) && files == old(files) && folders == old(folders)
    {
      succeeded, attempts := false, 0;
      var r := 0;
      while r < WriteRetries
        invariant 0 <= r <= WriteRetries && attempts == r
        invariant forall k :: 0 <= k < r ==> !Succeeds(outcomes, k)
        invariant cache == old(cache) && files == old(files) && folders == old(folders)
      {
        attempts := attempts + 1;
        if Succeeds(outcomes, r) {
          WriteAttempt(fileName, info, data);
          succeeded := true;
          return;
        }
        r := r + 1;
      }
    }

    /**
     * One attempt of the write task that succeeds: the folders of the path
     * are created, the data written into the file (created if missing), and
     * info becomes the key's cached descriptor.
     */
    method WriteAttempt(fileName: string, info: CacheItemInfo, data: seq<byte>)
      requires Valid()
      modifies this`files, this`folders, this`cache
      ensures Valid()
      ensures cache == old(cache)[info.uniqueName := info]
      ensures files == old(files)[fileName := Overlay(if fileName in old(files) then Some(old(files)[fileName]) else None, data)]
      ensures folders == old(folders) + (set p | p in Ancestors(GetDirectoryName(fileName)))
    {
      var created := EnsurePath(fileName);
      folders := folders + (set p | p in created);
      var existing := if fileName in files then Some(files[fileName]) else None;
      files := files[fileName := Overlay(existing, data)];
      cache := cache[info.uniqueName := info];
    }

    /**
     * Runs the oldest submitted task. A delete that finds no file does
     * nothing; the outcomes say which attempts of a write task succeed.
     */
    method RunNext(outcomes: seq<bool>)
      requires Valid() && queue != []
      modifies this`files, this`folders, this`cache, this`queue
      ensures Valid() && queue == old(queue[1..])
      ensures old(queue[0]).DeleteFile? ==>
        files == old(files) - {old(queue[0]).fileName} && cache == old(cache) && folders == old(folders)
      ensures old(queue[0]).DeleteFolderFiles? ==>
        && files == (map p | p in old(files) && GetDirectoryName(p) != old(queue[0]).folder :: old(files)[p])
        && cache == old(cache) && folders == old(folders)
      ensures old(queue[0]).WriteFile? ==>
        var task := old(queue[0]);
        if WriteSucceeds(outcomes) then
          && cache == old(cache)[task.info.uniqueName := task.info]
          && files == old(files)[task.fileName := Overlay(if task.fileName in old(files) then Some(old(files)[task.fileName]) else None, task.data)]
          && folders == old(folders) + (set p | p in Ancestors(GetDirectoryName(task.fileName)))
        else cache == old(cache) && files == old(files) && folders == old(folders)
    {
      var task := queue[0];
      queue := queue[1..];
      match task
      case DeleteFile(fileName) =>
        files := files - {fileName};
      case DeleteFolderFiles(folder) =>
        files := map p | p in files && GetDirectoryName(p) != folder :: files[p];
      case WriteFile(fileName, info, data) =>
        var succeeded, attempts := WriteWithRetries(fileName, info, data, outcomes);
    }
  }
}
