/**
 * The query GetItems runs over the decoded descriptors of a shard:
 * `where i.UniqueName == uniqueName orderby i.ExpirationTime descending`.
 * LINQ's ordering is stable, so descriptors with equal expiration times keep
 * the order in which the folder listed them.
 */
module Ordering {
  import opened CacheItems

  /** The `where` clause: the descriptors of one key, in their original order. */
  function Matching(items: seq<CacheItemInfo>, key: string): (r: seq<CacheItemInfo>)
    ensures forall x :: x in r <==> x in items && x.uniqueName == key
    ensures forall x :: multiset(r)[x] == if x.uniqueName == key then multiset(items)[x] else 0
    ensures |r| <= |items|
  {
    if items == [] then []
    else
      assert items == [items[0]] + items[1..];
      if items[0].uniqueName == key then [items[0]] + Matching(items[1..], key)
      else Matching(items[1..], key)
  }

  /** The `where` clause keeps the original order: filtering a concatenation filters each part. */
  lemma {:induction false} MatchingAppend(a: seq<CacheItemInfo>, b: seq<CacheItemInfo>, key: string)
    ensures Matching(a + b, key) == Matching(a, key) + Matching(b, key)
  {
    if a == [] {
      assert a + b == b;
    } else {
      assert (a + b)[0] == a[0] && (a + b)[1..] == a[1..] + b;
      MatchingAppend(a[1..], b, key);
    }
  }

  predicate SortedDescending(s: seq<CacheItemInfo>) {
    forall i, j :: 0 <= i < j < |s| ==> s[i].expirationTime >= s[j].expirationTime
  }

  /** Puts x before the first element that does not expire later than it. */
  function InsertDescending(x: CacheItemInfo, t: seq<CacheItemInfo>): (r: seq<CacheItemInfo>)
    ensures multiset(r) == multiset(t) + multiset{x}
    ensures |r| == |t| + 1
    ensures r[0] == x || (t != [] && r[0] == t[0])
  {
    if t == [] || x.expirationTime >= t[0].expirationTime then [x] + t
    else
      assert t == [t[0]] + t[1..];
      [t[0]] + InsertDescending(x, t[1..])
  }

  /** A head expiring no earlier than anything in a descending tail keeps it descending. */
  lemma SortedCons(h: CacheItemInfo, rest: seq<CacheItemInfo>)
    requires SortedDescending(rest)
    requires forall k :: 0 <= k < |rest| ==> rest[k].expirationTime <= h.expirationTime
    ensures SortedDescending([h] + rest)
  {
    var r := [h] + rest;
    forall i, j | 0 <= i < j < |r| ensures r[i].expirationTime >= r[j].expirationTime {
      assert r[j] == rest[j - 1];
      if i > 0 {
        assert r[i] == rest[i - 1];
      }
    }
  }

  /** Inserting into a descending sequence keeps it descending. */
  lemma {:induction false} InsertKeepsSorted(x: CacheItemInfo, t: seq<CacheItemInfo>)
    requires SortedDescending(t)
    ensures SortedDescending(InsertDescending(x, t))
  {
    if t != [] && x.expirationTime < t[0].expirationTime {
      var rest := InsertDescending(x, t[1..]);
      InsertKeepsSorted(x, t[1..]);
      forall k | 0 <= k < |rest| ensures rest[k].expirationTime <= t[0].expirationTime {
        var y := rest[k];
        assert y in multiset(rest);
        if y != x {
          assert y in multiset(t[1..]);
          var m :| 0 <= m < |t[1..]| && t[1..][m] == y;
          assert t[m + 1] == y;
        }
      }
      SortedCons(t[0], rest);
    }
  }

  /** The `orderby … descending` clause: a stable sort on expiration time, latest first. */
  function OrderByExpirationDescending(s: seq<CacheItemInfo>): (r: seq<CacheItemInfo>)
    ensures multiset(r) == multiset(s)
    ensures SortedDescending(r)
  {
    if s == [] then []
    else
      assert s == [s[0]] + s[1..];
      InsertKeepsSorted(s[0], OrderByExpirationDescending(s[1..]));
      InsertDescending(s[0], OrderByExpirationDescending(s[1..]))
  }

  /** Every descriptor the query answers has the key. */
  lemma OrderedHaveKey(items: seq<CacheItemInfo>, key: string)
    ensures forall x :: x in OrderByExpirationDescending(Matching(items, key)) ==> x.uniqueName == key
  {
    var m := Matching(items, key);
    assert forall x :: x in OrderByExpirationDescending(m) ==> x in multiset(m);
  }

  /** Where an insertion puts its element decides the new head. */
  lemma InsertHead(x: CacheItemInfo, t: seq<CacheItemInfo>)
    requires t != []
    ensures InsertDescending(x, t)[0] == if x.expirationTime >= t[0].expirationTime then x else t[0]
  {
  }

  /** k is where the first of the latest-expiring descriptors of s stands. */
  predicate IsFirstLatest(s: seq<CacheItemInfo>, k: int) {
    && 0 <= k < |s|
    && (forall j :: 0 <= j < |s| ==> s[j].expirationTime <= s[k].expirationTime)
    && (forall j :: 0 <= j < k ==> s[j].expirationTime < s[k].expirationTime)
  }

  /** Putting one more descriptor in front moves the first latest one to it or one place on. */
  lemma FirstLatestCons(s: seq<CacheItemInfo>, k: int)
    requires |s| >= 2 && IsFirstLatest(s[1..], k)
    ensures IsFirstLatest(s, if s[0].expirationTime >= s[k + 1].expirationTime then 0 else k + 1)
  {
    var tail := s[1..];
    forall j | 1 <= j < |s| ensures s[j] == tail[j - 1] {}
  }

  /**
   * The head of the ordering is the latest-expiring descriptor, and among
   * several with the same expiration time the one listed first.
   */
  lemma {:induction false} OrderedHead(s: seq<CacheItemInfo>)
    requires s != []
    ensures exists k :: IsFirstLatest(s, k) && OrderByExpirationDescending(s)[0] == s[k]
  {
    if |s| == 1 {
      assert IsFirstLatest(s, 0);
    } else {
      var tail := s[1..];
      var rt := OrderByExpirationDescending(tail);
      OrderedHead(tail);
      var k :| IsFirstLatest(tail, k) && rt[0] == tail[k];
      FirstLatestCons(s, k);
      assert s[k + 1] == tail[k];
      assert OrderByExpirationDescending(s) == InsertDescending(s[0], rt);
      InsertHead(s[0], rt);
    }
  }

  /** The ordering is empty exactly when there is nothing to order. */
  lemma OrderedEmpty(s: seq<CacheItemInfo>)
    ensures OrderByExpirationDescending(s) == [] <==> s == []
  {
    var r := OrderByExpirationDescending(s);
    assert |r| == |multiset(r)| == |multiset(s)| == |s|;
  }

  /** The head of a non-empty ordering is its first latest element, and the rest are the others. */
  lemma OrderedSplit(m: seq<CacheItemInfo>)
    requires m != []
    ensures var c := OrderByExpirationDescending(m);
      && c != [] && c[0] in m
      && (exists k :: IsFirstLatest(m, k) && c[0] == m[k])
      && multiset(c[1..]) + multiset{c[0]} == multiset(m)
  {
    var c := OrderByExpirationDescending(m);
    OrderedEmpty(m);
    OrderedHead(m);
    assert c == [c[0]] + c[1..];
    assert multiset(c) == multiset(c[1..]) + multiset{c[0]};
  }

  /**
   * Winner selection: the head of the key's ordered descriptors has the key,
   * expires no earlier than any other descriptor of the key (the first listed
   * among equals), and it and the rest are together exactly the key's
   * descriptors; there is none exactly when no descriptor has the key.
   */
  lemma WinnerSelection(decoded: seq<CacheItemInfo>, key: string)
    ensures var m := Matching(decoded, key); var c := OrderByExpirationDescending(m);
      && (c == [] <==> forall x :: x in decoded ==> x.uniqueName != key)
      && (c != [] ==>
            && c[0].uniqueName == key && c[0] in decoded
            && (forall x :: x in decoded && x.uniqueName == key ==> x.expirationTime <= c[0].expirationTime)
            && (exists k :: IsFirstLatest(m, k) && c[0] == m[k])
            && multiset(c[1..]) + multiset{c[0]} == multiset(m))
  {
    var m := Matching(decoded, key);
    var c := OrderByExpirationDescending(m);
    OrderedEmpty(m);
    if m != [] {
      assert m[0] in m;
      OrderedSplit(m);
      var k :| IsFirstLatest(m, k) && c[0] == m[k];
      forall x | x in decoded && x.uniqueName == key ensures x.expirationTime <= c[0].expirationTime {
        var j :| 0 <= j < |m| && m[j] == x;
      }
    }
  }
}
