/**
 * The query building blocks the controllers use on tables: `FirstOrDefault`,
 * `OrderByDescending`, `Take`, and the identity column's next value.
 */
module Sequences {
  import opened Optional

  /** Every element's key is at least the key of each element after it. */
  ghost predicate SortedDesc<T>(s: seq<T>, key: T -> int) {
    forall i, j :: 0 <= i < j < |s| ==> key(s[i]) >= key(s[j])
  }

  /** A permutation sorted newest first starts with the element whose key beats all others. */
  lemma SortedStartsWithStrictMax<T>(l: seq<T>, s: seq<T>, x: T, key: T -> int)
    requires SortedDesc(l, key) && multiset(l) == multiset(s)
    requires x in s && forall y :: y in s && y != x ==> key(y) < key(x)
    ensures |l| > 0 && l[0] == x
  {
    assert x in multiset(l);
    var j :| 0 <= j < |l| && l[j] == x;
    assert l[0] in multiset(s);
  }

  /** Index of the first element satisfying `p` (`FirstOrDefault`), if any. */
  function FirstIndex<T>(s: seq<T>, p: T -> bool): (r: Option<nat>)
    ensures r.Some? ==> r.value < |s| && p(s[r.value])
    ensures r.Some? ==> forall j :: 0 <= j < r.value ==> !p(s[j])
    ensures r.None? ==> forall j :: 0 <= j < |s| ==> !p(s[j])
    decreases |s|
  {
    if |s| == 0 then None
    else if p(s[0]) then Some(0)
    else match FirstIndex(s[1..], p)
      case None => None
      case Some(k) => Some(k + 1)
  }

  /** `Where(p)`: the elements satisfying `p`, in their original order. */
  function Filter<T(!new)>(s: seq<T>, p: T -> bool): (r: seq<T>)
    ensures forall x :: multiset(r)[x] == if p(x) then multiset(s)[x] else 0
    ensures forall x :: x in r ==> p(x)
    ensures |r| <= |s|
    decreases |s|
  {
    if |s| == 0 then []
    else
      var last := s[|s| - 1];
      assert s == s[..|s| - 1] + [last];
      var rest := Filter(s[..|s| - 1], p);
      if p(last) then rest + [last] else rest
  }

  /** Places `x` before the first element whose key does not exceed its own. */
  function Insert<T>(x: T, s: seq<T>, key: T -> int): (r: seq<T>)
    requires SortedDesc(s, key)
    ensures SortedDesc(r, key)
    ensures multiset(r) == multiset(s) + multiset{x}
    ensures |r| == |s| + 1
    ensures r[0] == x || (|s| > 0 && r[0] == s[0])
    decreases |s|
  {
    if |s| == 0 || key(x) >= key(s[0]) then [x] + s
    else
      var t := Insert(x, s[1..], key);
      assert s == [s[0]] + s[1..];
      assert key(t[0]) <= key(s[0]);
      [s[0]] + t
  }

  /** `OrderByDescending(key)`: a permutation of the input, keys non-increasing; ties keep input order. */
  function SortDesc<T>(s: seq<T>, key: T -> int): (r: seq<T>)
    ensures SortedDesc(r, key)
    ensures multiset(r) == multiset(s)
    ensures |r| == |s|
    decreases |s|
  {
    if |s| == 0 then []
    else
      assert s == [s[0]] + s[1..];
      Insert(s[0], SortDesc(s[1..], key), key)
  }

  /** `Take(n)`. */
  function Take<T>(s: seq<T>, n: nat): (r: seq<T>)
    ensures |r| == if n < |s| then n else |s|
    ensures r <= s
  {
    if n < |s| then s[..n] else s
  }

  /** The value an auto-increment key column hands to the next insert: above every key present. */
  function NextId<T>(s: seq<T>, id: T -> int): (r: int)
    ensures r >= 1
    ensures forall x :: x in s ==> id(x) < r
    decreases |s|
  {
    if |s| == 0 then 1
    else
      var m := NextId(s[..|s| - 1], id);
      assert s == s[..|s| - 1] + [s[|s| - 1]];
      if id(s[|s| - 1]) >= m then id(s[|s| - 1]) + 1 else m
  }

  /** In a sorted sequence every element kept by `Take(n)` outranks every element dropped. */
  lemma {:induction false} TakeOfSortedIsTop<T>(t: seq<T>, key: T -> int, n: nat)
    requires SortedDesc(t, key)
    ensures forall x, y :: x in Take(t, n) && y in multiset(t) - multiset(Take(t, n)) ==> key(y) <= key(x)
  {
    if n < |t| {
      assert t == t[..n] + t[n..];
      assert multiset(t) - multiset(t[..n]) == multiset(t[n..]);
      forall x, y | x in t[..n] && y in multiset(t[n..])
        ensures key(y) <= key(x)
      {
        var i :| 0 <= i < n && t[..n][i] == x;
        var j :| 0 <= j < |t[n..]| && t[n..][j] == y;
        assert t[i] == x && t[n + j] == y;
      }
    } else {
      assert multiset(t) - multiset(t) == multiset{};
    }
  }

  /** `OrderByDescending(key).Take(n)`: the `n` elements with the largest keys, largest first. */
  function TopN<T>(s: seq<T>, key: T -> int, n: nat): (r: seq<T>)
    ensures |r| == if n < |s| then n else |s|
    ensures SortedDesc(r, key)
    ensures multiset(r) <= multiset(s)
    ensures forall x, y :: x in r && y in multiset(s) - multiset(r) ==> key(y) <= key(x)
  {
    var sorted := SortDesc(s, key);
    TakeOfSortedIsTop(sorted, key, n);
    assert sorted == Take(sorted, n) + sorted[|Take(sorted, n)|..];
    Take(sorted, n)
  }

  /** No element occurs twice. */
  ghost predicate NoDuplicates<T>(s: seq<T>) {
    forall i, j :: 0 <= i < j < |s| ==> s[i] != s[j]
  }

  lemma {:induction false} NoDuplicatesMultiplicity<T>(s: seq<T>)
    requires NoDuplicates(s)
    ensures forall x :: multiset(s)[x] <= 1
    decreases |s|
  {
    if |s| > 0 {
      var init := s[..|s| - 1];
      assert s == init + [s[|s| - 1]];
      assert s[|s| - 1] !in init;
      NoDuplicatesMultiplicity(init);
    }
  }

  lemma TwoPositionsMultiplicity<T>(s: seq<T>, i: nat, j: nat)
    requires i < j < |s| && s[i] == s[j]
    ensures multiset(s)[s[i]] >= 2
  {
    assert s == s[..j] + [s[j]] + s[j + 1..];
    assert s[i] in s[..j];
  }

  /** A permutation of a duplicate-free sequence is duplicate-free. */
  lemma PermutationKeepsNoDuplicates<T>(a: seq<T>, b: seq<T>)
    requires multiset(a) == multiset(b) && NoDuplicates(a)
    ensures NoDuplicates(b)
  {
    NoDuplicatesMultiplicity(a);
    forall i, j | 0 <= i < j < |b|
      ensures b[i] != b[j]
    {
      if b[i] == b[j] {
        TwoPositionsMultiplicity(b, i, j);
      }
    }
  }

  /** A permutation has the same elements. */
  lemma PermutationSameElements<T>(a: seq<T>, b: seq<T>)
    requires multiset(a) == multiset(b)
    ensures forall x :: x in a <==> x in b
  {
    forall x
      ensures x in a <==> x in b
    {
      assert x in a <==> x in multiset(a);
      assert x in b <==> x in multiset(b);
    }
  }

  /** All elements have pairwise different keys. */
  ghost predicate DistinctKeys<T>(s: seq<T>, id: T -> int) {
    forall i, j :: 0 <= i < j < |s| ==> id(s[i]) != id(s[j])
  }

  /** Removing the element at `i` from a sequence with distinct keys removes its key. */
  lemma RemovedKeyIsGone<T>(s: seq<T>, i: nat, key: T -> int)
    requires DistinctKeys(s, key) && i < |s|
    ensures forall x :: x in s[..i] + s[i + 1..] ==> key(x) != key(s[i])
  {
    forall x | x in s[..i] + s[i + 1..]
      ensures key(x) != key(s[i])
    {
      var k :| 0 <= k < |s| - 1 && (s[..i] + s[i + 1..])[k] == x;
      if k < i {
        assert s[k] == x;
      } else {
        assert s[k + 1] == x;
      }
    }
  }

  /** Writing back the value already held leaves a sequence as it was. */
  lemma UpdateWithSame<T>(s: seq<T>, i: nat, x: T)
    requires i < |s| && x == s[i]
    ensures s[i := x] == s
  {
  }
}
