/**
 * HashedIsoStoreProvider.FileItem: the codec between a record descriptor and
 * the relative path of the file that stores it,
 *
 *   «c\<hash of key>\<escaped key>»<IsOptimized>»<expiration ticks>»<updated ticks>
 *
 * together with the lazily filled FileItem object and the directory walk that
 * precedes a write.
 */
module FileNames {
  import opened Wrappers
  import opened Escaping
  import opened Numerals
  import opened Paths
  import opened CacheItems

  const FileNameSeparator: char := '»'

  const CacheDirectoryName: string := "«c"

  const CacheDirectoryPrefix: string := CacheDirectoryName + "\\"

  type Int32 = n: int | -0x8000_0000 <= n < 0x8000_0000

  /**
   * string.GetHashCode. Its algorithm is not part of this model: the store
   * needs only a total, deterministic function from strings to Int32, and
   * every member here holds for any such function.
   */
  type StringHash = string -> Int32

  // ---------------------------------------------------------------- String.Split

  /** The number of occurrences of c in s. */
  function Count(s: string, c: char): nat {
    if s == [] then 0 else (if s[0] == c then 1 else 0) + Count(s[1..], c)
  }

  /** String.Split(sep): the pieces between separators, empty ones included. */
  function Split(s: string, sep: char): (parts: seq<string>)
    ensures |parts| >= 1
  {
    if s == [] then [[]]
    else
      var rest := Split(s[1..], sep);
      if s[0] == sep then [[]] + rest else [[s[0]] + rest[0]] + rest[1..]
  }

  /** Split gives one more piece than there are separators. */
  lemma {:induction false} SplitCount(s: string, sep: char)
    ensures |Split(s, sep)| == Count(s, sep) + 1
  {
    if s != [] {
      SplitCount(s[1..], sep);
    }
  }

  lemma {:induction false} SplitWithout(s: string, sep: char)
    requires sep !in s
    ensures Split(s, sep) == [s]
  {
    if s != [] {
      SplitWithout(s[1..], sep);
      assert [s[0]] + s[1..] == s;
    }
  }

  /** A piece free of separators, then a separator, splits off as the first piece. */
  lemma {:induction false} SplitAfter(a: string, sep: char, b: string)
    requires sep !in a
    ensures Split(a + [sep] + b, sep) == [a] + Split(b, sep)
  {
    var s := a + [sep] + b;
    if a == [] {
      assert s[1..] == b;
    } else {
      assert s[1..] == a[1..] + [sep] + b;
      SplitAfter(a[1..], sep, b);
      assert [a[0]] + a[1..] == a;
    }
  }

  // ---------------------------------------------------------------- the codec

  /** EncodePathName (Uri.EscapeDataString). */
  function EncodePathName(path: string): string {
    Escape(path)
  }

  /** DecodePathName (Uri.UnescapeDataString). */
  function DecodePathName(encodedPath: string): string {
    Unescape(encodedPath)
  }

  /**
   * An encoded key holds neither the field separator nor a path separator,
   * and decoding it gives the key back.
   */
  lemma EncodePathNameProperties(path: string)
    ensures FileNameSeparator !in EncodePathName(path)
    ensures HasNoSeparator(EncodePathName(path))
    ensures DecodePathName(EncodePathName(path)) == path
  {
    UnescapeEscape(path);
    EscapeAvoids(path, FileNameSeparator);
    EscapeAvoids(path, '\\');
    EscapeAvoids(path, '/');
  }

  /** DirectoryHash: the shard directory of a key, under the cache root. */
  function DirectoryHash(hash: StringHash, uniqueName: string): string {
    Combine(CacheDirectoryPrefix, FormatInt(hash(uniqueName)))
  }

  /** The file-name part of ToFileName: String.Format("{1}{0}{2}{0}{3}{0}{4}", '»', …). */
  function EncodedName(item: CacheItemInfo): string {
    var sep := [FileNameSeparator];
    EncodePathName(item.uniqueName) + sep + FormatBool(item.isOptimized)
      + sep + FormatInt(item.expirationTime) + sep + FormatInt(item.updatedTime)
  }

  /** ToFileName: the shard directory joined with the encoded name. */
  function ToFileName(hash: StringHash, item: CacheItemInfo): string {
    Combine(DirectoryHash(hash, item.uniqueName), EncodedName(item))
  }

  /**
   * FromFileName: null (Ok(None)) for a path under the cache-root prefix or
   * a last segment that does not split into four fields; Thrown where
   * Int64.Parse, the DateTime constructor or Boolean.Parse throws.
   */
  function FromFileName(fileName: string): Result<Option<CacheItemInfo>> {
    if CacheDirectoryPrefix <= fileName then Ok(None)
    else
      var parts := Split(GetFileName(fileName), FileNameSeparator);
      if |parts| != 4 then Ok(None) else FromFields(parts[0], parts[1], parts[2], parts[3])
  }

  /** The descriptor four fields spell, or Thrown where a field does not parse. */
  function FromFields(key: string, optimized: string, expiration: string, updated: string): Result<Option<CacheItemInfo>> {
    match (ParseTicks(expiration), ParseTicks(updated), ParseBool(optimized))
    case (Some(e), Some(u), Some(b)) => Ok(Some(CacheItemInfo(DecodePathName(key), b, e, u)))
    case _ => Thrown
  }

  // ---------------------------------------------------------------- codec properties

  lemma FormatIntOfTicks(t: Ticks)
    ensures FormatInt(t) == FormatNat(t)
    ensures ParseTicks(FormatInt(t)) == Some(t)
    ensures FileNameSeparator !in FormatInt(t) && HasNoSeparator(FormatInt(t))
  {
    ParseFormatTicks(t);
  }

  lemma NoSeparatorsInInt(n: int)
    ensures FileNameSeparator !in FormatInt(n) && HasNoSeparator(FormatInt(n))
    ensures FormatInt(n) != [] && ':' !in FormatInt(n)
  {
    FormatIntChars(n);
  }

  lemma NoSeparatorsInBool(b: bool)
    ensures FileNameSeparator !in FormatBool(b) && HasNoSeparator(FormatBool(b)) && ':' !in FormatBool(b)
  {}

  /** The encoded name splits into exactly its four fields. */
  lemma {:induction false} EncodedNameFields(item: CacheItemInfo)
    ensures Split(EncodedName(item), FileNameSeparator)
         == [EncodePathName(item.uniqueName), FormatBool(item.isOptimized),
             FormatInt(item.expirationTime), FormatInt(item.updatedTime)]
  {
    var sep := FileNameSeparator;
    var k, b := EncodePathName(item.uniqueName), FormatBool(item.isOptimized);
    var x, u := FormatInt(item.expirationTime), FormatInt(item.updatedTime);
    EncodePathNameProperties(item.uniqueName);
    NoSeparatorsInBool(item.isOptimized);
    NoSeparatorsInInt(item.expirationTime);
    NoSeparatorsInInt(item.updatedTime);
    assert EncodedName(item) == k + [sep] + (b + [sep] + (x + [sep] + u));
    SplitAfter(k, sep, b + [sep] + (x + [sep] + u));
    SplitAfter(b, sep, x + [sep] + u);
    SplitAfter(x, sep, u);
    SplitWithout(u, sep);
  }

  /** A character in none of four fields is in no name joined from them. */
  lemma AbsentFromJoin(c: char, k: string, b: string, x: string, u: string)
    requires c != FileNameSeparator && c !in k && c !in b && c !in x && c !in u
    ensures c !in k + [FileNameSeparator] + b + [FileNameSeparator] + x + [FileNameSeparator] + u
  {
  }

  /** The encoded name holds no path separator, so it is one path segment. */
  lemma EncodedNameIsSegment(item: CacheItemInfo)
    ensures HasNoSeparator(EncodedName(item))
    ensures EncodedName(item) != [] && !IsRooted(EncodedName(item))
  {
    var k, b := EncodePathName(item.uniqueName), FormatBool(item.isOptimized);
    var x, u := FormatInt(item.expirationTime), FormatInt(item.updatedTime);
    EncodePathNameProperties(item.uniqueName);
    EscapeAvoids(item.uniqueName, ':');
    NoSeparatorsInBool(item.isOptimized);
    NoSeparatorsInInt(item.expirationTime);
    NoSeparatorsInInt(item.updatedTime);
    AbsentFromJoin('\\', k, b, x, u);
    AbsentFromJoin('/', k, b, x, u);
    AbsentFromJoin(':', k, b, x, u);
  }

  /** DirectoryHash is the cache-root prefix followed by the key's hash, and nothing else. */
  lemma DirectoryHashShape(hash: StringHash, uniqueName: string)
    ensures DirectoryHash(hash, uniqueName) == CacheDirectoryPrefix + FormatInt(hash(uniqueName))
    ensures GetDirectoryName(DirectoryHash(hash, uniqueName)) == CacheDirectoryName
    ensures GetDirectoryName(CacheDirectoryName) == []
  {
    var h := FormatInt(hash(uniqueName));
    NoSeparatorsInInt(hash(uniqueName));
    assert !IsRooted(h);
    DirectoryAndFileOfJoin(CacheDirectoryName, h);
    SingleSegment(CacheDirectoryName);
  }

  /**
   * The path of a record is its key's shard directory joined with its encoded
   * name: the directory depends on the key alone.
   */
  lemma PathShape(hash: StringHash, item: CacheItemInfo)
    ensures ToFileName(hash, item) == DirectoryHash(hash, item.uniqueName) + "\\" + EncodedName(item)
    ensures GetDirectoryName(ToFileName(hash, item)) == DirectoryHash(hash, item.uniqueName)
    ensures GetFileName(ToFileName(hash, item)) == EncodedName(item)
    ensures CacheDirectoryPrefix <= ToFileName(hash, item)
  {
    var dir := DirectoryHash(hash, item.uniqueName);
    DirectoryHashShape(hash, item.uniqueName);
    NoSeparatorsInInt(hash(item.uniqueName));
    EncodedNameIsSegment(item);
    assert dir[|dir| - 1] in FormatInt(hash(item.uniqueName));
    DirectoryAndFileOfJoin(dir, EncodedName(item));
  }

  /** An encoded name never begins with the cache-root prefix. */
  lemma EncodedNameOutsideRoot(item: CacheItemInfo)
    ensures !(CacheDirectoryPrefix <= EncodedName(item))
  {
    var name := EncodedName(item);
    var k := EncodePathName(item.uniqueName);
    if k != [] {
      assert name[0] == k[0];
      EscapeAvoids(item.uniqueName, '«');
    } else {
      assert name[0] == FileNameSeparator;
    }
  }

  /** A segment outside the cache root that splits into four fields decodes as those fields. */
  lemma DecodeFields(name: string, k: string, b: string, x: string, u: string)
    requires !(CacheDirectoryPrefix <= name)
    requires Split(GetFileName(name), FileNameSeparator) == [k, b, x, u]
    ensures FromFileName(name) == FromFields(k, b, x, u)
  {}

  lemma FieldsDecode(k: string, b: string, x: string, u: string, item: CacheItemInfo)
    requires DecodePathName(k) == item.uniqueName && ParseBool(b) == Some(item.isOptimized)
    requires ParseTicks(x) == Some(item.expirationTime) && ParseTicks(u) == Some(item.updatedTime)
    ensures FromFields(k, b, x, u) == Ok(Some(item))
  {}

  /** The encoded name alone decodes to the record. */
  lemma DecodeEncodedName(item: CacheItemInfo)
    ensures FromFileName(EncodedName(item)) == Ok(Some(item))
  {
    var name := EncodedName(item);
    EncodedNameIsSegment(item);
    SingleSegment(name);
    EncodedNameOutsideRoot(item);
    EncodedNameFields(item);
    assert Split(GetFileName(name), FileNameSeparator) == Split(name, FileNameSeparator);
    FormatIntOfTicks(item.expirationTime);
    FormatIntOfTicks(item.updatedTime);
    ParseFormatBool(item.isOptimized);
    DecodeFields(name, EncodePathName(item.uniqueName), FormatBool(item.isOptimized),
      FormatInt(item.expirationTime), FormatInt(item.updatedTime));
    EncodePathNameProperties(item.uniqueName);
    FieldsDecode(EncodePathName(item.uniqueName), FormatBool(item.isOptimized),
      FormatInt(item.expirationTime), FormatInt(item.updatedTime), item);
  }

  /**
   * Round trip: the last segment of a record's path decodes to the record,
   * whatever characters (the separator included) its key holds.
   */
  lemma RoundTrip(hash: StringHash, item: CacheItemInfo)
    ensures FromFileName(GetFileName(ToFileName(hash, item))) == Ok(Some(item))
  {
    PathShape(hash, item);
    DecodeEncodedName(item);
  }

  /** Distinct records are stored under distinct paths. */
  lemma ToFileNameInjective(hash: StringHash, a: CacheItemInfo, b: CacheItemInfo)
    requires ToFileName(hash, a) == ToFileName(hash, b)
    ensures a == b
  {
    RoundTrip(hash, a);
    RoundTrip(hash, b);
  }

  /** The full relative path is itself refused: it lies under the cache-root prefix. */
  lemma FullPathIsNotARecord(hash: StringHash, item: CacheItemInfo)
    ensures FromFileName(ToFileName(hash, item)) == Ok(None)
  {
    PathShape(hash, item);
  }

  /**
   * FromFileName answers null exactly for a path under the cache-root prefix
   * or one whose last segment does not hold exactly three separators.
   */
  lemma DecodeRejects(fileName: string)
    ensures FromFileName(fileName) == Ok(None)
        <==> CacheDirectoryPrefix <= fileName || Count(GetFileName(fileName), FileNameSeparator) != 3
  {
    SplitCount(GetFileName(fileName), FileNameSeparator);
  }

  // ---------------------------------------------------------------- EnsurePathAsync

  /** The successive values of EnsurePathAsync's loop variable, from a directory up to the top. */
  function Ancestors(path: string): (r: seq<string>)
    decreases |path|
  {
    if path == [] then [] else [path] + Ancestors(GetDirectoryName(path))
  }

  /**
   * Every folder EnsurePathAsync creates is a proper prefix of the file's
   * path that ends just before a separator, each shorter than the one before.
   */
  lemma {:induction false} AncestorsArePrefixes(path: string)
    ensures forall k :: 0 <= k < |Ancestors(path)| ==>
      Ancestors(path)[k] != [] && |Ancestors(path)[k]| <= |path| && Ancestors(path)[k] == path[..|Ancestors(path)[k]|]
    ensures forall k :: 0 < k < |Ancestors(path)| ==>
      |Ancestors(path)[k]| < |Ancestors(path)[k - 1]|
    ensures forall k :: 0 < k < |Ancestors(path)| ==>
      |Ancestors(path)[k]| < |path| && IsSeparator(path[|Ancestors(path)[k]|])
    decreases |path|
  {
    if path != [] {
      var d := GetDirectoryName(path);
      AncestorsArePrefixes(d);
      var a := Ancestors(path);
      assert a == [path] + Ancestors(d);
      forall k | 0 < k < |a|
        ensures |a[k]| < |path| && a[k] == path[..|a[k]|] && IsSeparator(path[|a[k]|])
      {
        assert a[k] == Ancestors(d)[k - 1];
        if k > 1 {
          assert |a[k]| < |d| && IsSeparator(d[|a[k]|]);
          assert d == path[..|d|];
        }
      }
    }
  }

  /** The folders created before writing a record: its shard directory, then the cache root. */
  lemma AncestorsOfRecord(hash: StringHash, item: CacheItemInfo)
    ensures Ancestors(GetDirectoryName(ToFileName(hash, item)))
         == [DirectoryHash(hash, item.uniqueName), CacheDirectoryName]
  {
    PathShape(hash, item);
    DirectoryHashShape(hash, item.uniqueName);
  }

  /** EnsurePathAsync: walks from the file's directory up to the top, creating each folder. */
  method EnsurePath(fileName: string) returns (created: seq<string>)
    ensures created == Ancestors(GetDirectoryName(fileName))
  {
    created := [];
    var path := GetDirectoryName(fileName);
    while path != []
      invariant created + Ancestors(path) == Ancestors(GetDirectoryName(fileName))
      decreases |path|
    {
      created := created + [path];
      path := GetDirectoryName(path);
    }
  }

  // ---------------------------------------------------------------- FileItem

  /**
   * A file item is built from a path or from a descriptor and fills in the
   * other, and the shard directory name, on first use.
   */
  class FileItem {
    const hash: StringHash
    var fileName: Option<string>
    var dirName: Option<string>
    var item: Option<CacheItemInfo>

    /** The filled fields agree with each other. */
    ghost predicate Valid()
      reads this
    {
      && (fileName.Some? || item.Some?)
      && (fileName.Some? && item.Some? ==>
            FromFileName(fileName.value) == Ok(item) || fileName.value == ToFileName(hash, item.value))
      && (dirName.Some? ==> item.Some? && dirName.value == FormatInt(hash(item.value.uniqueName)))
    }

    /** What the Item getter answers, whether or not it has run before. */
    ghost function Decoded(): Result<Option<CacheItemInfo>>
      reads this
      requires Valid()
    {
      if item.Some? then Ok(item) else FromFileName(fileName.value)
    }

    constructor FromName(hash: StringHash, fileName: string)
      ensures Valid() && this.hash == hash
      ensures this.fileName == Some(fileName) && item == None && dirName == None
    {
      this.hash := hash;
      this.fileName := Some(fileName);
      dirName := None;
      item := None;
    }

    constructor FromItem(hash: StringHash, item: CacheItemInfo)
      ensures Valid() && this.hash == hash
      ensures this.item == Some(item) && fileName == None && dirName == None
    {
      this.hash := hash;
      this.item := Some(item);
      fileName := None;
      dirName := None;
    }

    /** The Item getter: decodes the path on first use and keeps what it decoded. */
    method Item() returns (r: Result<Option<CacheItemInfo>>)
      requires Valid()
      modifies this`item
      ensures Valid()
      ensures r == old(Decoded()) && Decoded() == old(Decoded())
      ensures item == (if r.Ok? then r.value else None)
    {
      if item.None? && fileName.Some? {
        var decoded := FromFileName(fileName.value);
        if decoded.Thrown? {
          return Thrown;
        }
        item := decoded.value;
      }
      r := Ok(item);
    }

    /** The FileName getter: the path given at construction, or else the descriptor's encoded path. */
    method FileName() returns (name: string)
      requires Valid()
      modifies this`fileName, this`item
      ensures Valid() && item == old(item) && dirName == old(dirName)
      ensures name == (if old(fileName).Some? then old(fileName).value else ToFileName(hash, item.value))
      ensures fileName == Some(name)
    {
      if fileName.None? {
        var it := Item();
        fileName := Some(ToFileName(hash, it.value.value));
      }
      name := fileName.value;
    }

    /**
     * The DirectoryName getter: the key's hash as text (without the
     * cache-root prefix); Thrown when the item cannot be decoded or is null.
     */
    method DirectoryName() returns (r: Result<string>)
      requires Valid()
      modifies this`dirName, this`item
      ensures Valid() && fileName == old(fileName) && Decoded() == old(Decoded())
      ensures r == (match old(Decoded())
                    case Ok(Some(i)) => Ok(FormatInt(hash(i.uniqueName)))
                    case _ => Thrown)
    {
      if dirName.None? {
        var it := Item();
        if it.Thrown? || it.value.None? {
          return Thrown;
        }
        dirName := Some(FormatInt(hash(it.value.value.uniqueName)));
      }
      r := Ok(dirName.value);
    }
  }
}
