/**
 * Ordering by an integer key: the order a `BTreeSet` iterates in and the order
 * `slice::sort_by_key` leaves a vector in.
 */
module Sorting {

  predicate SortedBy<T>(s: seq<T>, key: T -> int) {
    forall i, j :: 0 <= i < j < |s| ==> key(s[i]) <= key(s[j])
  }

  predicate StrictlySortedBy<T>(s: seq<T>, key: T -> int) {
    forall i, j :: 0 <= i < j < |s| ==> key(s[i]) < key(s[j])
  }

  predicate DistinctKeys<T>(s: seq<T>, key: T -> int) {
    forall i, j :: 0 <= i < j < |s| ==> key(s[i]) != key(s[j])
  }

  /** Keys that are sorted and pairwise distinct are strictly increasing. */
  lemma SortedDistinctIsStrict<T>(s: seq<T>, key: T -> int)
    requires SortedBy(s, key) && DistinctKeys(s, key)
    ensures StrictlySortedBy(s, key)
  {
  }

  /** Two strictly sorted sequences with the same elements are the same sequence. */
  lemma {:induction false} StrictlySortedUnique<T>(a: seq<T>, b: seq<T>, key: T -> int)
    requires StrictlySortedBy(a, key) && StrictlySortedBy(b, key)
    requires forall x :: x in a <==> x in b
    ensures a == b
  {
    assert a != [] ==> a[0] in a;
    assert b != [] ==> b[0] in b;
    if a != [] {
      var j :| 0 <= j < |b| && b[j] == a[0];
      var k :| 0 <= k < |a| && a[k] == b[0];
      assert key(a[0]) <= key(a[k]);
      assert key(b[0]) <= key(b[j]);
      assert j == 0;
      forall x ensures x in a[1..] <==> x in b[1..] {
        if x in a[1..] {
          InTail(a, b, key, x);
        }
        if x in b[1..] {
          InTail(b, a, key, x);
        }
      }
      StrictlySortedUnique(a[1..], b[1..], key);
      assert a == [a[0]] + a[1..] && b == [b[0]] + b[1..];
    }
  }

  lemma InTail<T>(a: seq<T>, b: seq<T>, key: T -> int, x: T)
    requires StrictlySortedBy(a, key) && StrictlySortedBy(b, key)
    requires forall y :: y in a <==> y in b
    requires a != [] && b != [] && a[0] == b[0] && x in a[1..]
    ensures x in b[1..]
  {
    var i :| 0 <= i < |a[1..]| && a[1..][i] == x;
    assert a[i + 1] == x && key(a[0]) < key(x);
    assert x in a;
    var m :| 0 <= m < |b| && b[m] == x;
    assert m != 0;
    assert b[1..][m - 1] == x;
  }

  /** An element of least key of a finite non-empty set. */
  ghost function MinOf<T(!new)>(S: set<T>, key: T -> int): (m: T)
    requires S != {}
    ensures m in S && forall y :: y in S ==> key(m) <= key(y)
    decreases S
  {
    var x :| x in S;
    if S == {x} then x
    else
      var m := MinOf(S - {x}, key);
      if key(x) < key(m) then x else m
  }

  /** The elements of a set whose keys are distinct, in ascending key order. */
  ghost function SortedSeq<T(!new)>(S: set<T>, key: T -> int): (r: seq<T>)
    requires forall x, y :: x in S && y in S && key(x) == key(y) ==> x == y
    ensures StrictlySortedBy(r, key)
    ensures forall x :: x in r <==> x in S
    ensures |r| == |S|
    decreases S
  {
    if S == {} then []
    else
      var m := MinOf(S, key);
      var rest := SortedSeq(S - {m}, key);
      assert |S - {m}| == |S| - 1;
      ConsSorted(m, rest, S, key);
      [m] + rest
  }

  /** What holds of every element of the set holds at every position of its sorted sequence. */
  lemma SortedSeqAll<T(!new)>(S: set<T>, key: T -> int, P: T -> bool)
    requires forall x, y :: x in S && y in S && key(x) == key(y) ==> x == y
    requires forall x :: x in S ==> P(x)
    ensures forall i :: 0 <= i < |SortedSeq(S, key)| ==> P(SortedSeq(S, key)[i])
  {
    var r := SortedSeq(S, key);
    forall i | 0 <= i < |r| ensures P(r[i]) {
      assert r[i] in r;
    }
  }

  /** The least element in front of the others, sorted, is sorted and holds the set. */
  lemma ConsSorted<T>(m: T, rest: seq<T>, S: set<T>, key: T -> int)
    requires m in S && forall y :: y in S ==> key(m) <= key(y)
    requires forall x, y :: x in S && y in S && key(x) == key(y) ==> x == y
    requires StrictlySortedBy(rest, key) && forall x :: x in rest <==> x in S - {m}
    ensures StrictlySortedBy([m] + rest, key)
    ensures forall x :: x in [m] + rest <==> x in S
  {
    var r := [m] + rest;
    forall x | x in rest ensures key(m) < key(x) {
      assert x in S && x != m;
    }
    forall i, j | 0 <= i < j < |r| ensures key(r[i]) < key(r[j]) {
      assert r[j] == rest[j - 1];
      assert r[j] in rest;
      if i > 0 {
        assert r[i] == rest[i - 1];
      }
    }
  }

  /**
   * In-place sort by key (`slice::sort_by_key`), by insertion: the result is
   * ordered by key and is a permutation of the input; when the input keys are
   * pairwise distinct, so are the output keys.
   */
  method SortByKey<T>(a: array<T>, key: T -> int)
    modifies a
    ensures SortedBy(a[..], key)
    ensures multiset(a[..]) == multiset(old(a[..]))
    ensures DistinctKeys(old(a[..]), key) ==> DistinctKeys(a[..], key)
  {
    if a.Length == 0 { return; }
    for i := 1 to a.Length
      invariant SortedBy(a[..i], key)
      invariant multiset(a[..]) == multiset(old(a[..]))
      invariant DistinctKeys(old(a[..]), key) ==> DistinctKeys(a[..], key)
    {
      SiftDown(a, i, key);
    }
    assert a[..a.Length] == a[..];
  }

  /** Moves `a[i]` left past every larger key, so that `a[..i + 1]` becomes sorted. */
  method SiftDown<T>(a: array<T>, i: nat, key: T -> int)
    requires i < a.Length && SortedBy(a[..i], key)
    modifies a
    ensures SortedBy(a[..i + 1], key)
    ensures multiset(a[..]) == multiset(old(a[..]))
    ensures DistinctKeys(old(a[..]), key) ==> DistinctKeys(a[..], key)
    ensures a[i + 1..] == old(a[i + 1..])
  {
    var j := i;
    SiftStart(a[..], i, key);
    while j > 0 && key(a[j - 1]) > key(a[j])
      invariant Sifting(a[..], j, i, key)
      invariant a[i + 1..] == old(a[i + 1..])
      invariant multiset(a[..]) == multiset(old(a[..]))
      invariant DistinctKeys(old(a[..]), key) ==> DistinctKeys(a[..], key)
      decreases j
    {
      SiftSwap(a, j, i, key);
      j := j - 1;
    }
    SiftDone(a[..], j, i, key);
  }

  /** One step of the sift: the moving element at `j` changes places with its larger left neighbour. */
  method SiftSwap<T>(a: array<T>, j: nat, i: nat, key: T -> int)
    requires Sifting(a[..], j, i, key) && j > 0 && key(a[j - 1]) > key(a[j])
    modifies a
    ensures Sifting(a[..], j - 1, i, key)
    ensures a[i + 1..] == old(a[i + 1..])
    ensures multiset(a[..]) == multiset(old(a[..]))
    ensures DistinctKeys(old(a[..]), key) ==> DistinctKeys(a[..], key)
  {
    SiftStep(a[..], j, i, key);
    SwapKeepsTail(a[..], j, i);
    Swap(a, j - 1, key);
  }

  /**
   * The state of the sift: the keys of `s[..i + 1]` are in order when the
   * moving element at `j` is left out, and it is no larger than those after it.
   */
  predicate Sifting<T>(s: seq<T>, j: int, i: int, key: T -> int) {
    && 0 <= j <= i < |s|
    && (forall k, l :: 0 <= k < l <= i && k != j && l != j ==> key(s[k]) <= key(s[l]))
    && (forall l :: j < l <= i ==> key(s[j]) <= key(s[l]))
  }

  lemma SiftStart<T>(s: seq<T>, i: nat, key: T -> int)
    requires i < |s| && SortedBy(s[..i], key)
    ensures Sifting(s, i, i, key)
  {
    forall k, l | 0 <= k < l < i ensures key(s[k]) <= key(s[l]) {
      assert s[..i][k] == s[k] && s[..i][l] == s[l];
    }
  }

  /** Swapping the moving element with a larger left neighbour moves it one place left. */
  lemma SiftStep<T>(s: seq<T>, j: int, i: int, key: T -> int)
    requires Sifting(s, j, i, key) && j > 0 && key(s[j - 1]) > key(s[j])
    ensures Sifting(s[j - 1 := s[j]][j := s[j - 1]], j - 1, i, key)
  {
  }

  /** Swapping at `j - 1` and `j` leaves everything after `i` in place. */
  lemma SwapKeepsTail<T>(s: seq<T>, j: int, i: int)
    requires 0 < j <= i < |s|
    ensures s[j - 1 := s[j]][j := s[j - 1]][i + 1..] == s[i + 1..]
  {
  }

  /** The sift stops with `s[..i + 1]` sorted. */
  lemma SiftDone<T>(s: seq<T>, j: int, i: int, key: T -> int)
    requires Sifting(s, j, i, key) && (j == 0 || key(s[j - 1]) <= key(s[j]))
    ensures SortedBy(s[..i + 1], key)
  {
    forall k, l | 0 <= k < l <= i ensures key(s[k]) <= key(s[l]) {
      if k == j || l == j {
        if l == j && k < j - 1 {
          assert key(s[k]) <= key(s[j - 1]);
        }
      }
    }
  }

  /** Exchanges two neighbours. */
  method Swap<T>(a: array<T>, i: nat, key: T -> int)
    requires i + 1 < a.Length
    modifies a
    ensures a[..] == old(a[..])[i := old(a[i + 1])][i + 1 := old(a[i])]
    ensures multiset(a[..]) == multiset(old(a[..]))
    ensures DistinctKeys(old(a[..]), key) ==> DistinctKeys(a[..], key)
  {
    ghost var s := a[..];
    a[i], a[i + 1] := a[i + 1], a[i];
    if DistinctKeys(s, key) {
      forall k, l | 0 <= k < l < a.Length ensures key(a[..][k]) != key(a[..][l]) {
        var k' := if k == i then i + 1 else if k == i + 1 then i else k;
        var l' := if l == i then i + 1 else if l == i + 1 then i else l;
        assert a[..][k] == s[k'] && a[..][l] == s[l'];
        assert k' != l';
      }
    }
  }
}
