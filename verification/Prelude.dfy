// Shared vocabulary: optional values, 64-bit bounds and the one sorting
// routine standing for std::ranges::sort.

module Prelude {

  datatype Option<+T> = None | Some(value: T)

  const U64_MAX: nat := 0xFFFF_FFFF_FFFF_FFFF

  /** A book-tip quality, std::uint64_t; lower is better. */
  type Quality = q: int | 0 <= q <= U64_MAX

  function Min(a: int, b: int): int {
    if a <= b then a else b
  }

  function Max(a: int, b: int): int {
    if a >= b then a else b
  }

  function Clamp(x: int, lo: int, hi: int): int {
    if x < lo then lo else if x > hi then hi else x
  }

  predicate NoDuplicates<T(==)>(s: seq<T>) {
    forall i, j :: 0 <= i < j < |s| ==> s[i] != s[j]
  }

  ghost predicate TotalPreorder<T(!new)>(leq: (T, T) -> bool) {
    && (forall a, b :: leq(a, b) || leq(b, a))
    && (forall a, b, c :: leq(a, b) && leq(b, c) ==> leq(a, c))
  }

  ghost predicate SortedBy<T>(s: seq<T>, leq: (T, T) -> bool) {
    forall i, j :: 0 <= i < j < |s| ==> leq(s[i], s[j])
  }

  /** Inserts x in front of the first element it precedes. */
  function InsertSorted<T(!new)>(s: seq<T>, x: T, leq: (T, T) -> bool): seq<T> {
    if s == [] || leq(x, s[0]) then [x] + s else [s[0]] + InsertSorted(s[1..], x, leq)
  }

  lemma {:induction false} InsertSortedElements<T(!new)>(s: seq<T>, x: T, leq: (T, T) -> bool)
    ensures multiset(InsertSorted(s, x, leq)) == multiset(s) + multiset{x}
  {
    if s == [] || leq(x, s[0]) {
    } else {
      InsertSortedElements(s[1..], x, leq);
      assert s == [s[0]] + s[1..];
    }
  }

  lemma {:induction false} InsertSortedSorts<T(!new)>(s: seq<T>, x: T, leq: (T, T) -> bool)
    requires TotalPreorder(leq) && SortedBy(s, leq)
    ensures SortedBy(InsertSorted(s, x, leq), leq)
    ensures multiset(InsertSorted(s, x, leq)) == multiset(s) + multiset{x}
  {
    hide TotalPreorder;
    InsertSortedElements(s, x, leq);
    if s == [] {
    } else if leq(x, s[0]) {
      forall j | 0 <= j < |s|
        ensures leq(x, s[j])
      {
        OrderedChain(leq, x, s[0], s[j]);
      }
    } else {
      var rest := InsertSorted(s[1..], x, leq);
      InsertSortedSorts(s[1..], x, leq);
      OrderedChain(leq, x, s[0], s[0]);
      forall i | 0 <= i < |rest|
        ensures leq(s[0], rest[i])
      {
        FromRest(s[1..], x, rest, i);
      }
    }
  }

  lemma FromRest<T>(s: seq<T>, x: T, r: seq<T>, i: nat)
    requires multiset(r) == multiset(s) + multiset{x} && i < |r|
    ensures r[i] == x || exists j :: 0 <= j < |s| && s[j] == r[i]
  {
    assert r[i] in multiset(r);
    assert r[i] != x ==> r[i] in multiset(s);
  }

  lemma OrderedChain<T(!new)>(leq: (T, T) -> bool, a: T, b: T, c: T)
    requires TotalPreorder(leq)
    ensures leq(a, b) && (leq(b, c) || b == c) ==> leq(a, c)
    ensures leq(a, b) || leq(b, a)
  {
  }

  /** std::ranges::sort: some ordered rearrangement of the input. */
  method Sort<T(!new)>(s: seq<T>, leq: (T, T) -> bool) returns (r: seq<T>)
    requires TotalPreorder(leq)
    ensures SortedBy(r, leq)
    ensures multiset(r) == multiset(s)
  {
    hide TotalPreorder, SortedBy, InsertSorted;
    r := [];
    NothingSorted(leq);
    for i := 0 to |s|
      invariant SortedBy(r, leq)
      invariant multiset(r) == multiset(s[..i])
    {
      assert s[..i + 1] == s[..i] + [s[i]];
      InsertSortedSorts(r, s[i], leq);
      r := InsertSorted(r, s[i], leq);
    }
    assert s[..|s|] == s;
  }

  lemma NothingSorted<T(!new)>(leq: (T, T) -> bool)
    ensures SortedBy([], leq)
  {
  }

  lemma SameMultisetSameElements<T>(a: seq<T>, b: seq<T>)
    requires multiset(a) == multiset(b)
    ensures forall x :: x in a <==> x in b
    ensures |a| == |b|
  {
    assert forall x :: x in a <==> x in multiset(a);
    assert forall x :: x in b <==> x in multiset(b);
    assert |multiset(a)| == |a| && |multiset(b)| == |b|;
  }

  ghost function Elements<T>(s: seq<T>): set<T> {
    set x | x in s
  }

  lemma {:induction false} CountElements<T>(s: seq<T>)
    ensures |Elements(s)| <= |s|
    ensures NoDuplicates(s) ==> |Elements(s)| == |s|
  {
    if s == [] {
      assert Elements(s) == {};
    } else {
      var init, x := s[..|s| - 1], s[|s| - 1];
      CountElements(init);
      assert s == init + [x];
      assert Elements(s) == Elements(init) + {x};
      if NoDuplicates(s) {
        assert x !in init;
      }
    }
  }

  lemma SubsetSize<T>(a: set<T>, b: set<T>)
    requires a <= b
    ensures |a| <= |b|
    ensures |a| == |b| ==> a == b
  {
    assert b == a + (b - a);
    assert |b| == |a| + |b - a|;
    if |b - a| == 0 {
      assert b - a == {};
    }
  }

  /** A list without repeats inside another one at most as long has all its elements. */
  lemma Pigeonhole<T>(a: seq<T>, b: seq<T>)
    requires NoDuplicates(a) && (forall x :: x in a ==> x in b) && |b| <= |a|
    ensures forall x :: x in b ==> x in a
    ensures |a| == |b|
  {
    CountElements(a);
    CountElements(b);
    SubsetSize(Elements(a), Elements(b));
    assert forall x :: x in b ==> x in Elements(b);
  }
}
