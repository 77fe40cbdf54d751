/**
 * The three System.IO.Path operations the store uses on its relative paths:
 * Combine, GetFileName and GetDirectoryName, for Windows separators.
 */
module Paths {

  /** DirectorySeparatorChar and AltDirectorySeparatorChar. */
  predicate IsSeparator(c: char) { c == '\\' || c == '/' }

  predicate HasNoSeparator(s: string) { '\\' !in s && '/' !in s }

  /** A path that Combine keeps as it is instead of appending: one that starts at a root or a drive. */
  predicate IsRooted(p: string) {
    (|p| >= 1 && IsSeparator(p[0])) || (|p| >= 2 && p[1] == ':')
  }

  /** Path.Combine(a, b). */
  function Combine(a: string, b: string): (r: string)
    ensures !IsRooted(b) && a != [] && b != [] && !IsSeparator(a[|a| - 1]) && a[|a| - 1] != ':' ==> r == a + "\\" + b
    ensures !IsRooted(b) && a != [] && IsSeparator(a[|a| - 1]) ==> r == a + b
  {
    if b == [] then a
    else if a == [] then b
    else if IsRooted(b) then b
    else if IsSeparator(a[|a| - 1]) || a[|a| - 1] == ':' then a + b
    else a + "\\" + b
  }

  /** The index just past the last separator of p, 0 when p has none. */
  function SegmentStart(p: string): (k: nat)
    ensures k <= |p|
    ensures k > 0 ==> IsSeparator(p[k - 1])
    ensures HasNoSeparator(p[k..])
  {
    if p == [] then 0
    else if IsSeparator(p[|p| - 1]) then |p|
    else SegmentStart(p[..|p| - 1])
  }

  /** Path.GetFileName: what follows the last separator. */
  function GetFileName(p: string): string {
    p[SegmentStart(p)..]
  }

  /**
   * Path.GetDirectoryName for a relative path: what precedes the last
   * separator, or the empty string when there is none.
   */
  function GetDirectoryName(p: string): (r: string)
    ensures |r| < |p| || p == []
    ensures r != [] ==> |r| < |p| && IsSeparator(p[|r|]) && r == p[..|r|]
  {
    var k := SegmentStart(p);
    if k == 0 then [] else p[..k - 1]
  }

  lemma {:induction false} SegmentStartOfJoin(dir: string, name: string)
    requires HasNoSeparator(name)
    ensures SegmentStart(dir + "\\" + name) == |dir| + 1
    decreases |name|
  {
    var p := dir + "\\" + name;
    if name == [] {
      assert IsSeparator(p[|p| - 1]);
    } else {
      assert p[..|p| - 1] == dir + "\\" + name[..|name| - 1];
      SegmentStartOfJoin(dir, name[..|name| - 1]);
    }
  }

  /** Splitting a joined path at its last separator gives back its two halves. */
  lemma DirectoryAndFileOfJoin(dir: string, name: string)
    requires HasNoSeparator(name)
    ensures GetFileName(dir + "\\" + name) == name
    ensures GetDirectoryName(dir + "\\" + name) == dir
  {
    SegmentStartOfJoin(dir, name);
    assert (dir + "\\" + name)[|dir| + 1..] == name;
  }

  /** A path without separators has no directory and is its own file name. */
  lemma SingleSegment(p: string)
    requires HasNoSeparator(p)
    ensures GetFileName(p) == p
    ensures GetDirectoryName(p) == []
  {}
}
