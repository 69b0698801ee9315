/**
 * sortBy(keyFunc): materialise the source, sort the index array 0 .. n-1 in
 * place with a comparator over the keys (ties broken by index), then replay
 * the values in the sorted index order.
 */
module Sorting {
  import opened Values
  import Combinators
  import Terminal
  import Sources

  // ---------------------------------------------------------------- orders on indexes

  /** Every entry of xs is an index into a sequence of length n. */
  predicate InRange(xs: seq<int>, n: nat)
  {
    forall p :: 0 <= p < |xs| ==> 0 <= xs[p] < n
  }

  /** Index a sorts strictly before index b: a smaller key, or an equal key and a smaller index. */
  predicate Before(keys: seq<Value>, a: int, b: int)
  {
    0 <= a < |keys| && 0 <= b < |keys| &&
    (KeyLess(keys[a], keys[b]) || (keys[a] == keys[b] && a < b))
  }

  /** Index a may stand before index b: Before, or the same index. */
  predicate NotAfter(keys: seq<Value>, a: int, b: int)
  {
    0 <= a < |keys| && 0 <= b < |keys| &&
    (KeyLess(keys[a], keys[b]) || (keys[a] == keys[b] && a <= b))
  }

  /** The keys at two indexes can be compared without a TypeError. */
  predicate ComparableAt(keys: seq<Value>, a: int, b: int)
  {
    0 <= a < |keys| && 0 <= b < |keys| && Comparable(keys[a], keys[b])
  }

  /**
   * The comparator sortBy passes to indexes.sort: -1 when a goes first, 1 when
   * b does, and a TypeError when the keys differ in `typeof` or are neither
   * `===` nor ordered by `<` or `>`.
   */
  function Compare(keys: seq<Value>, a: int, b: int): (r: Result<int>)
    requires 0 <= a < |keys| && 0 <= b < |keys|
    ensures r.Err? <==> !Comparable(keys[a], keys[b])
    ensures r.Err? ==> r.ex == TypeError
    ensures r.Ok? ==> (r.value == -1 <==> Before(keys, a, b))
    ensures r.Ok? && r.value != -1 ==> r.value == 1 && NotAfter(keys, b, a)
  {
    var ka := keys[a];
    var kb := keys[b];
    if ka.List? || kb.List? || TypeOf(ka) != TypeOf(kb) then Err(TypeError)
    else if ka == kb then
      KeyLessIrreflexive(ka);
      Ok(if a < b then -1 else 1)
    else if KeyLess(ka, kb) then Ok(-1)
    else if KeyLess(kb, ka) then Ok(1)
    else
      KeyLessTotal(ka, kb);
      Err(TypeError)
  }

  /**
   * Keys are compared by UTF-16 code units: the key U+10000 goes before the key
   * U+FFFF, so sortBy(x => x) on ["\uFFFF", "\u{10000}"] puts the second first.
   */
  lemma CompareByCodeUnits()
    ensures Compare([Str("\U{FFFF}"), Str("\U{10000}")], 0, 1) == Ok(1)
    ensures Compare([Str("\U{FFFF}"), Str("\U{10000}")], 1, 0) == Ok(-1)
  {
    SurrogateOrder();
  }

  /** Neighbours in xs were compared without a TypeError and are in order. */
  predicate AdjacentSorted(keys: seq<Value>, xs: seq<int>)
  {
    forall p :: 0 < p < |xs| ==> ComparableAt(keys, xs[p - 1], xs[p]) && NotAfter(keys, xs[p - 1], xs[p])
  }

  // ---------------------------------------------------------------- indexes.sort, in place

  /**
   * Midway through inserting s[i]: the entries before j are in order, the
   * entries j .. i are in order, and s[j - 1] may stand before s[j + 1].
   */
  predicate Inserting(keys: seq<Value>, s: seq<int>, j: int, i: int)
  {
    0 <= j <= i < |s| &&
    AdjacentSorted(keys, s[..j]) &&
    AdjacentSorted(keys, s[j..i + 1]) &&
    (0 < j < i ==> ComparableAt(keys, s[j - 1], s[j + 1]) && NotAfter(keys, s[j - 1], s[j + 1]))
  }

  lemma AdjacentSortedPrefix(keys: seq<Value>, xs: seq<int>, k: int)
    requires AdjacentSorted(keys, xs) && 0 <= k <= |xs|
    ensures AdjacentSorted(keys, xs[..k])
  {
    forall p | 0 < p < k
      ensures ComparableAt(keys, xs[..k][p - 1], xs[..k][p]) && NotAfter(keys, xs[..k][p - 1], xs[..k][p])
    {
      assert xs[..k][p - 1] == xs[p - 1] && xs[..k][p] == xs[p];
    }
  }

  /** Swapping s[j - 1] past the inserted s[j] when the comparator says 1. */
  lemma SwapStep(keys: seq<Value>, s: seq<int>, j: int, i: int)
    requires Inserting(keys, s, j, i) && 0 < j && InRange(s, |keys|)
    requires Compare(keys, s[j - 1], s[j]) == Ok(1)
    ensures Inserting(keys, s[j - 1 := s[j]][j := s[j - 1]], j - 1, i)
    ensures InRange(s[j - 1 := s[j]][j := s[j - 1]], |keys|)
    ensures multiset(s[j - 1 := s[j]][j := s[j - 1]]) == multiset(s)
  {
    var t := s[j - 1 := s[j]][j := s[j - 1]];
    SwapFront(keys, s, j, i);
    SwapBack(keys, s, j, i);
    if 1 < j {
      assert s[..j][j - 2] == s[j - 2] && s[..j][j - 1] == s[j - 1];
      assert t[j - 2] == s[j - 2] && t[j] == s[j - 1];
    }
    SwapPerm(s, j, |keys|);
  }

  lemma SwapPerm(s: seq<int>, j: int, n: nat)
    requires 0 < j < |s| && InRange(s, n)
    ensures InRange(s[j - 1 := s[j]][j := s[j - 1]], n)
    ensures multiset(s[j - 1 := s[j]][j := s[j - 1]]) == multiset(s)
  {
  }

  lemma SwapFront(keys: seq<Value>, s: seq<int>, j: int, i: int)
    requires Inserting(keys, s, j, i) && 0 < j
    ensures AdjacentSorted(keys, s[j - 1 := s[j]][j := s[j - 1]][..j - 1])
  {
    assert s[j - 1 := s[j]][j := s[j - 1]][..j - 1] == s[..j][..j - 1];
    AdjacentSortedPrefix(keys, s[..j], j - 1);
  }

  lemma SwapBack(keys: seq<Value>, s: seq<int>, j: int, i: int)
    requires Inserting(keys, s, j, i) && 0 < j && InRange(s, |keys|)
    requires Compare(keys, s[j - 1], s[j]) == Ok(1)
    ensures AdjacentSorted(keys, s[j - 1 := s[j]][j := s[j - 1]][j - 1..i + 1])
  {
    var u := s[j - 1 := s[j]][j := s[j - 1]][j - 1..i + 1];
    var w := s[j..i + 1];
    assert u[0] == s[j] && u[1] == s[j - 1];
    forall p | 0 < p < |u|
      ensures ComparableAt(keys, u[p - 1], u[p]) && NotAfter(keys, u[p - 1], u[p])
    {
      if p == 2 {
        assert u[p] == w[1];
      } else if p > 2 {
        assert u[p - 1] == w[p - 2] && u[p] == w[p - 1];
      }
    }
  }

  /** The insertion of s[i] is over: s[..i + 1] is in order. */
  lemma InsertDone(keys: seq<Value>, s: seq<int>, j: int, i: int)
    requires Inserting(keys, s, j, i) && InRange(s, |keys|)
    requires j > 0 ==> ComparableAt(keys, s[j - 1], s[j]) && NotAfter(keys, s[j - 1], s[j])
    ensures AdjacentSorted(keys, s[..i + 1])
  {
    var w := s[..i + 1];
    forall p | 0 < p < |w|
      ensures ComparableAt(keys, w[p - 1], w[p]) && NotAfter(keys, w[p - 1], w[p])
    {
      if p < j {
        assert w[p - 1] == s[..j][p - 1] && w[p] == s[..j][p];
      } else if p > j {
        assert w[p - 1] == s[j..i + 1][p - 1 - j] && w[p] == s[j..i + 1][p - j];
      }
    }
  }

  /**
   * One pass of the insertion sort: s[i] moves left past every entry the
   * comparator puts after it.
   */
  method Insert(a: array<int>, keys: seq<Value>, i: int) returns (c: Completion)
    requires 0 <= i < a.Length && InRange(a[..], |keys|) && AdjacentSorted(keys, a[..i])
    modifies a
    ensures multiset(a[..]) == multiset(old(a[..]))
    ensures InRange(a[..], |keys|)
    ensures a[i + 1..] == old(a[i + 1..])
    ensures c == Normal || c == Abrupt(TypeError)
    ensures c.Normal? ==> AdjacentSorted(keys, a[..i + 1])
    ensures c.Abrupt? ==> exists p, q :: 0 <= p < q < a.Length && !ComparableAt(keys, a[p], a[q])
  {
    c := Normal;
    var j := i;
    assert a[j..i + 1] == [a[i]];
    while j > 0
      invariant multiset(a[..]) == multiset(old(a[..]))
      invariant InRange(a[..], |keys|)
      invariant a[i + 1..] == old(a[i + 1..])
      invariant Inserting(keys, a[..], j, i)
    {
      var r := Compare(keys, a[j - 1], a[j]);
      if r.Err? {
        c := Abrupt(TypeError);
        return;
      }
      if r.value == -1 {
        InsertDone(keys, a[..], j, i);
        return;
      }
      ghost var s := a[..];
      SwapStep(keys, s, j, i);
      a[j - 1], a[j] := a[j], a[j - 1];
      assert a[..] == s[j - 1 := s[j]][j := s[j - 1]];
      j := j - 1;
    }
    InsertDone(keys, a[..], j, i);
  }

  /**
   * indexes.sort(comparator), with an insertion sort standing for the engine's
   * algorithm: the array ends a permutation of itself, in order when no
   * comparison threw; a TypeError names two entries whose keys are incomparable.
   */
  method SortIndexes(a: array<int>, keys: seq<Value>) returns (c: Completion)
    requires InRange(a[..], |keys|)
    modifies a
    ensures multiset(a[..]) == multiset(old(a[..]))
    ensures InRange(a[..], |keys|)
    ensures c == Normal || c == Abrupt(TypeError)
    ensures c.Normal? ==> AdjacentSorted(keys, a[..])
    ensures c.Abrupt? ==> exists p, q :: 0 <= p < q < a.Length && !ComparableAt(keys, a[p], a[q])
  {
    c := Normal;
    var i := 0;
    while i < a.Length
      invariant 0 <= i <= a.Length
      invariant multiset(a[..]) == multiset(old(a[..]))
      invariant InRange(a[..], |keys|)
      invariant AdjacentSorted(keys, a[..i])
      invariant c == Normal
    {
      c := Insert(a, keys, i);
      if c.Abrupt? {
        return;
      }
      i := i + 1;
    }
    assert a[..i] == a[..];
  }

  // ---------------------------------------------------------------- permutations of 0 .. n-1

  /** order is a rearrangement of Range(0, n).toArray(). */
  ghost predicate IndexPerm(order: seq<int>, n: nat)
  {
    multiset(order) == multiset(Sources.Progression(0, 1, n))
  }

  lemma {:induction false} IotaCount(n: nat, v: int)
    ensures multiset(Sources.Progression(0, 1, n))[v] == if 0 <= v < n then 1 else 0
  {
    if n > 0 {
      assert Sources.Progression(0, 1, n) == Sources.Progression(0, 1, n - 1) + [n - 1];
      IotaCount(n - 1, v);
    }
  }

  lemma CountTwo(xs: seq<int>, p: int, q: int)
    requires 0 <= p < q < |xs| && xs[p] == xs[q]
    ensures multiset(xs)[xs[p]] >= 2
  {
    assert xs == xs[..q] + xs[q..];
    assert xs[p] in xs[..q];
    assert xs[q] in xs[q..];
  }

  /** A rearrangement of 0 .. n-1 holds each index once. */
  lemma IndexPermFacts(order: seq<int>, n: nat)
    requires IndexPerm(order, n)
    ensures |order| == n && InRange(order, n)
    ensures forall p, q :: 0 <= p < q < |order| ==> order[p] != order[q]
    ensures forall x :: 0 <= x < n ==> x in order
  {
    assert |multiset(order)| == |order|;
    forall p | 0 <= p < |order|
      ensures 0 <= order[p] < n
    {
      IotaCount(n, order[p]);
    }
    forall p, q | 0 <= p < q < |order|
      ensures order[p] != order[q]
    {
      if order[p] == order[q] {
        CountTwo(order, p, q);
        IotaCount(n, order[p]);
      }
    }
    forall x | 0 <= x < n
      ensures x in order
    {
      IotaCount(n, x);
    }
  }

  // ---------------------------------------------------------------- from neighbours to all pairs

  /** Every pair of entries, not just neighbours, is comparable and in strict order. */
  ghost predicate SortedBy(keys: seq<Value>, order: seq<int>)
  {
    forall p, q :: 0 <= p < q < |order| ==>
      ComparableAt(keys, order[p], order[q]) && Before(keys, order[p], order[q])
  }

  lemma BeforeTransitive(keys: seq<Value>, a: int, b: int, c: int)
    requires Before(keys, a, b) && Before(keys, b, c)
    ensures Before(keys, a, c)
  {
    if KeyLess(keys[a], keys[b]) && KeyLess(keys[b], keys[c]) {
      KeyLessTransitive(keys[a], keys[b], keys[c]);
    }
  }

  lemma BeforeAsymmetric(keys: seq<Value>, a: int, b: int)
    requires Before(keys, a, b)
    ensures !Before(keys, b, a)
  {
    if Before(keys, b, a) {
      BeforeTransitive(keys, a, b, a);
      KeyLessIrreflexive(keys[a]);
    }
  }

  lemma {:induction false} ChainTo(keys: seq<Value>, order: seq<int>, p: int, q: int)
    requires AdjacentSorted(keys, order)
    requires forall x, y :: 0 <= x < y < |order| ==> order[x] != order[y]
    requires 0 <= p < q < |order|
    ensures ComparableAt(keys, order[p], order[q]) && Before(keys, order[p], order[q])
    decreases q - p
  {
    assert ComparableAt(keys, order[q - 1], order[q]) && NotAfter(keys, order[q - 1], order[q]);
    if p < q - 1 {
      ChainTo(keys, order, p, q - 1);
      BeforeTransitive(keys, order[p], order[q - 1], order[q]);
    }
  }

  /** Neighbours in order and no index twice: the whole sequence is in strict order. */
  lemma AdjacentToAll(keys: seq<Value>, order: seq<int>)
    requires AdjacentSorted(keys, order)
    requires forall x, y :: 0 <= x < y < |order| ==> order[x] != order[y]
    ensures SortedBy(keys, order)
  {
    forall p, q | 0 <= p < q < |order|
      ensures ComparableAt(keys, order[p], order[q]) && Before(keys, order[p], order[q])
    {
      ChainTo(keys, order, p, q);
    }
  }

  /**
   * The sorted order does not depend on the sort algorithm: two strictly
   * sorted rearrangements of the same indexes are the same sequence.
   */
  lemma {:induction false} SortedUnique(keys: seq<Value>, o1: seq<int>, o2: seq<int>)
    requires multiset(o1) == multiset(o2)
    requires SortedBy(keys, o1) && SortedBy(keys, o2)
    ensures o1 == o2
    decreases |o1|
  {
    assert |o1| == |multiset(o1)| == |o2|;
    if o1 != [] {
      SortedHead(keys, o1, o2);
      MultisetTail(o1, o2);
      SortedTail(keys, o1);
      SortedTail(keys, o2);
      SortedUnique(keys, o1[1..], o2[1..]);
      assert o1 == [o1[0]] + o1[1..] && o2 == [o2[0]] + o2[1..];
    }
  }

  /** The first entry of a strictly sorted sequence is the least of its entries. */
  lemma SortedHead(keys: seq<Value>, o1: seq<int>, o2: seq<int>)
    requires multiset(o1) == multiset(o2) && o1 != [] && o2 != []
    requires SortedBy(keys, o1) && SortedBy(keys, o2)
    ensures o1[0] == o2[0]
  {
    assert o1[0] in multiset(o2);
    var j := PositionOf(o2, o1[0]);
    if j > 0 {
      assert o2[0] in multiset(o1);
      var k := PositionOf(o1, o2[0]);
      assert Before(keys, o2[0], o1[0]);
      if k == 0 {
        BeforeAsymmetric(keys, o2[0], o1[0]);
      } else {
        assert Before(keys, o1[0], o2[0]);
        BeforeAsymmetric(keys, o1[0], o2[0]);
      }
    }
  }

  lemma SortedTail(keys: seq<Value>, o: seq<int>)
    requires SortedBy(keys, o) && o != []
    ensures SortedBy(keys, o[1..])
  {
    forall p, q | 0 <= p < q < |o| - 1
      ensures ComparableAt(keys, o[1..][p], o[1..][q]) && Before(keys, o[1..][p], o[1..][q])
    {
      assert o[1..][p] == o[p + 1] && o[1..][q] == o[q + 1];
    }
  }

  lemma MultisetTail(xs: seq<int>, ys: seq<int>)
    requires xs != [] && ys != [] && xs[0] == ys[0] && multiset(xs) == multiset(ys)
    ensures multiset(xs[1..]) == multiset(ys[1..])
  {
    assert xs == [xs[0]] + xs[1..];
    assert ys == [ys[0]] + ys[1..];
    assert multiset(xs) == multiset{xs[0]} + multiset(xs[1..]);
    assert multiset(ys) == multiset{xs[0]} + multiset(ys[1..]);
    forall v
      ensures multiset(xs[1..])[v] == multiset(ys[1..])[v]
    {
      assert multiset(xs)[v] == multiset{xs[0]}[v] + multiset(xs[1..])[v];
      assert multiset(ys)[v] == multiset{xs[0]}[v] + multiset(ys[1..])[v];
    }
  }

  // ---------------------------------------------------------------- replaying the sorted indexes

  /** new Generator(indexes).forEach(index => Yield(arr[index])): arr read in index order. */
  function Pick<T>(arr: seq<T>, order: seq<int>): (r: seq<T>)
    requires InRange(order, |arr|)
    ensures |r| == |order|
    ensures forall p :: 0 <= p < |order| ==> r[p] == arr[order[p]]
    decreases |order|
  {
    if order == [] then [] else [arr[order[0]]] + Pick(arr, order[1..])
  }

  lemma PickAppend<T>(arr: seq<T>, xs: seq<int>, ys: seq<int>)
    requires InRange(xs, |arr|) && InRange(ys, |arr|)
    ensures InRange(xs + ys, |arr|)
    ensures Pick(arr, xs + ys) == Pick(arr, xs) + Pick(arr, ys)
  {
    assert InRange(xs + ys, |arr|);
  }

  /** Rearranging the indexes rearranges the values picked with them. */
  lemma {:induction false} PickMultiset<T>(arr: seq<T>, xs: seq<int>, ys: seq<int>)
    requires InRange(xs, |arr|) && InRange(ys, |arr|)
    requires multiset(xs) == multiset(ys)
    ensures multiset(Pick(arr, xs)) == multiset(Pick(arr, ys))
    decreases |xs|
  {
    if xs != [] {
      assert xs[0] in multiset(xs);
      var j := PositionOf(ys, xs[0]);
      var rest := ys[..j] + ys[j + 1..];
      PickRemove(arr, ys, j);
      HeadCancel(xs, ys, j);
      PickMultiset(arr, xs[1..], rest);
      PickHead(arr, xs);
    }
  }

  /** Taking the head of xs out of both sides of a multiset equation. */
  lemma HeadCancel(xs: seq<int>, ys: seq<int>, j: int)
    requires xs != [] && 0 <= j < |ys| && ys[j] == xs[0]
    requires multiset(xs) == multiset(ys)
    requires multiset(ys[..j] + ys[j + 1..]) == multiset(ys) - multiset{ys[j]}
    ensures multiset(xs[1..]) == multiset(ys[..j] + ys[j + 1..])
  {
    assert xs == [xs[0]] + xs[1..];
    assert multiset(xs[1..]) == multiset(xs) - multiset{xs[0]};
  }

  lemma PickHead<T>(arr: seq<T>, xs: seq<int>)
    requires xs != [] && InRange(xs, |arr|)
    ensures InRange(xs[1..], |arr|)
    ensures multiset(Pick(arr, xs)) == multiset(Pick(arr, xs[1..])) + multiset{arr[xs[0]]}
  {
    assert InRange(xs[1..], |arr|);
    var r := Pick(arr, xs[1..]);
    assert Pick(arr, xs) == [arr[xs[0]]] + r;
    assert multiset([arr[xs[0]]] + r) == multiset{arr[xs[0]]} + multiset(r);
  }

  /** Taking out the index at j takes out the value picked with it. */
  lemma PickRemove<T>(arr: seq<T>, ys: seq<int>, j: int)
    requires InRange(ys, |arr|) && 0 <= j < |ys|
    ensures InRange(ys[..j] + ys[j + 1..], |arr|)
    ensures multiset(ys[..j] + ys[j + 1..]) == multiset(ys) - multiset{ys[j]}
    ensures multiset(Pick(arr, ys)) == multiset(Pick(arr, ys[..j] + ys[j + 1..])) + multiset{arr[ys[j]]}
  {
    RemoveAt(ys, j);
    PickSplit(arr, ys, j);
    InRangeAppend(ys[..j], ys[j + 1..], |arr|);
    PickAppend(arr, ys[..j], ys[j + 1..]);
    MultisetMiddle(Pick(arr, ys[..j]), arr[ys[j]], Pick(arr, ys[j + 1..]));
  }

  lemma MultisetMiddle<X>(front: seq<X>, v: X, back: seq<X>)
    ensures multiset(front + [v] + back) == multiset(front + back) + multiset{v}
  {
  }

  lemma PickSplit<T>(arr: seq<T>, ys: seq<int>, j: int)
    requires InRange(ys, |arr|) && 0 <= j < |ys|
    ensures InRange(ys[..j], |arr|) && InRange(ys[j + 1..], |arr|)
    ensures Pick(arr, ys) == Pick(arr, ys[..j]) + [arr[ys[j]]] + Pick(arr, ys[j + 1..])
  {
    assert InRange(ys[..j], |arr|) && InRange(ys[j + 1..], |arr|);
    var r := Pick(arr, ys[..j]) + [arr[ys[j]]] + Pick(arr, ys[j + 1..]);
    assert |r| == |ys|;
    forall p | 0 <= p < |ys|
      ensures Pick(arr, ys)[p] == r[p]
    {
      if p < j {
        assert r[p] == Pick(arr, ys[..j])[p];
      } else if p > j {
        assert r[p] == Pick(arr, ys[j + 1..])[p - j - 1];
      }
    }
  }

  lemma InRangeAppend(xs: seq<int>, ys: seq<int>, n: nat)
    requires InRange(xs, n) && InRange(ys, n)
    ensures InRange(xs + ys, n)
  {
  }

  lemma SplitAt<X>(ys: seq<X>, j: int)
    requires 0 <= j < |ys|
    ensures ys == ys[..j] + [ys[j]] + ys[j + 1..]
  {
  }

  lemma RemoveAt(ys: seq<int>, j: int)
    requires 0 <= j < |ys|
    ensures multiset(ys[..j] + ys[j + 1..]) == multiset(ys) - multiset{ys[j]}
  {
    SplitAt(ys, j);
    assert multiset(ys) == multiset(ys[..j]) + multiset{ys[j]} + multiset(ys[j + 1..]);
  }

  /** Picking 0 .. n-1 in order gives arr back. */
  lemma PickIota<T>(arr: seq<T>)
    ensures InRange(Sources.Progression(0, 1, |arr|), |arr|)
    ensures Pick(arr, Sources.Progression(0, 1, |arr|)) == arr
  {
  }

  // ---------------------------------------------------------------- sortBy

  /**
   * sortBy(keyFunc) driven to the end. It throws a TypeError exactly when two
   * of the keys cannot be compared (any correct sort compares the neighbours
   * of its output, and comparability is shared along a chain of neighbours); otherwise it gives the values in key order,
   * equal keys in source order, as a permutation of the source.
   */
  method SortBy<T>(s: seq<T>, keyFunc: T -> Value) returns (r: Result<seq<T>>, order: seq<int>)
    ensures r.Err? <==> !AllComparable(Combinators.Map(s, keyFunc))
    ensures r.Err? ==> r.ex == TypeError
    ensures r.Ok? ==> IndexPerm(order, |s|) && InRange(order, |s|) && r.value == Pick(s, order)
    ensures r.Ok? ==> SortedBy(Combinators.Map(s, keyFunc), order)
    ensures r.Ok? ==> multiset(r.value) == multiset(s)
    ensures r.Ok? ==> forall p, q :: 0 <= p < q < |r.value| ==>
      !KeyLess(keyFunc(r.value[q]), keyFunc(r.value[p]))
    ensures r.Ok? ==> forall p, q :: 0 <= p < q < |r.value| && keyFunc(r.value[p]) == keyFunc(r.value[q]) ==>
      order[p] < order[q]
  {
    var arr := Terminal.ToArray(s);
    var keys := Combinators.Map(arr, keyFunc);
    var c;
    c, order := SortedIndexes(keys);
    if c.Abrupt? {
      r := Err(TypeError);
    } else {
      IndexPermFacts(order, |s|);
      r := Ok(Pick(arr, order));
      SortByOk(s, keyFunc, order);
    }
  }

  /**
   * Range(0, keys.length).toArray().sort(comparator): the indexes, rearranged in
   * place, or the TypeError a comparison threw.
   */
  method SortedIndexes(keys: seq<Value>) returns (c: Completion, order: seq<int>)
    ensures IndexPerm(order, |keys|)
    ensures c == Normal || c == Abrupt(TypeError)
    ensures c.Normal? ==> AdjacentSorted(keys, order)
    ensures c.Abrupt? ==> !AllComparable(keys)
  {
    var range := new Sources.Counter(0, None);
    var indexes := range.TakeToArray(|keys|);
    IotaInRange(|keys|);
    var a := new int[|indexes|](k => if 0 <= k < |indexes| then indexes[k] else 0);
    assert a[..] == indexes;
    c := SortIndexes(a, keys);
    order := a[..];
    if c.Abrupt? {
      var p, q :| 0 <= p < q < a.Length && !ComparableAt(keys, a[p], a[q]);
      IncomparableWitness(keys, order, p, q);
    }
  }

  lemma IotaInRange(n: nat)
    ensures InRange(Sources.Progression(0, 1, n), n)
  {
  }

  /** What a finished sort of the indexes gives: every promise of sortBy's result. */
  lemma SortByOk<T>(s: seq<T>, keyFunc: T -> Value, order: seq<int>)
    requires IndexPerm(order, |s|) && AdjacentSorted(Combinators.Map(s, keyFunc), order)
    ensures InRange(order, |s|) && SortedBy(Combinators.Map(s, keyFunc), order)
    ensures AllComparable(Combinators.Map(s, keyFunc))
    ensures multiset(Pick(s, order)) == multiset(s)
    ensures forall p, q :: 0 <= p < q < |order| ==>
      !KeyLess(keyFunc(Pick(s, order)[q]), keyFunc(Pick(s, order)[p]))
    ensures forall p, q :: 0 <= p < q < |order| && keyFunc(Pick(s, order)[p]) == keyFunc(Pick(s, order)[q]) ==>
      order[p] < order[q]
  {
    IndexPermFacts(order, |s|);
    AdjacentToAll(Combinators.Map(s, keyFunc), order);
    SortedOutcome(s, keyFunc, order);
  }

  /** All keys can be compared pairwise: no comparison sortBy makes can throw. */
  ghost predicate AllComparable(keys: seq<Value>)
  {
    forall x, y :: 0 <= x < y < |keys| ==> Comparable(keys[x], keys[y])
  }

  /** A comparison that threw names two distinct indexes with incomparable keys. */
  lemma IncomparableWitness(keys: seq<Value>, order: seq<int>, p: int, q: int)
    requires IndexPerm(order, |keys|) && 0 <= p < q < |order|
    requires !ComparableAt(keys, order[p], order[q])
    ensures !AllComparable(keys)
  {
    IndexPermFacts(order, |keys|);
    if order[p] < order[q] {
      assert !Comparable(keys[order[p]], keys[order[q]]);
    } else {
      assert !Comparable(keys[order[q]], keys[order[p]]);
    }
  }

  /** What the strictly sorted order of the indexes makes of the replayed values. */
  lemma SortedOutcome<T>(s: seq<T>, keyFunc: T -> Value, order: seq<int>)
    requires IndexPerm(order, |s|) && InRange(order, |s|)
    requires SortedBy(Combinators.Map(s, keyFunc), order)
    ensures AllComparable(Combinators.Map(s, keyFunc))
    ensures multiset(Pick(s, order)) == multiset(s)
    ensures forall p, q :: 0 <= p < q < |order| ==>
      !KeyLess(keyFunc(Pick(s, order)[q]), keyFunc(Pick(s, order)[p]))
    ensures forall p, q :: 0 <= p < q < |order| && keyFunc(Pick(s, order)[p]) == keyFunc(Pick(s, order)[q]) ==>
      order[p] < order[q]
  {
    SortedAllComparable(Combinators.Map(s, keyFunc), order);
    SortedPermutation(s, order);
    SortedKeys(s, keyFunc, order);
  }

  /** When the indexes end in strict order, every pair of keys was comparable. */
  lemma SortedAllComparable(keys: seq<Value>, order: seq<int>)
    requires IndexPerm(order, |keys|)
    requires SortedBy(keys, order)
    ensures AllComparable(keys)
  {
    IndexPermFacts(order, |keys|);
    forall x, y | 0 <= x < y < |keys|
      ensures Comparable(keys[x], keys[y])
    {
      var px := PositionOf(order, x);
      var py := PositionOf(order, y);
      if px < py {
        assert ComparableAt(keys, order[px], order[py]);
      } else {
        assert ComparableAt(keys, order[py], order[px]);
      }
    }
  }

  /** Where x stands in xs. */
  ghost function PositionOf(xs: seq<int>, x: int): (p: int)
    requires x in xs
    ensures 0 <= p < |xs| && xs[p] == x
  {
    var p :| 0 <= p < |xs| && xs[p] == x; p
  }

  /** The replayed values are a permutation of the source. */
  lemma SortedPermutation<T>(s: seq<T>, order: seq<int>)
    requires IndexPerm(order, |s|) && InRange(order, |s|)
    ensures multiset(Pick(s, order)) == multiset(s)
  {
    PickIota(s);
    PickMultiset(s, order, Sources.Progression(0, 1, |s|));
  }

  /** In the replayed values the keys never decrease, and equal keys keep their source order. */
  lemma SortedKeys<T>(s: seq<T>, keyFunc: T -> Value, order: seq<int>)
    requires InRange(order, |s|)
    requires SortedBy(Combinators.Map(s, keyFunc), order)
    ensures forall p, q :: 0 <= p < q < |order| ==>
      !KeyLess(keyFunc(Pick(s, order)[q]), keyFunc(Pick(s, order)[p]))
    ensures forall p, q :: 0 <= p < q < |order| && keyFunc(Pick(s, order)[p]) == keyFunc(Pick(s, order)[q]) ==>
      order[p] < order[q]
  {
    var keys := Combinators.Map(s, keyFunc);
    forall p, q | 0 <= p < q < |order|
      ensures !KeyLess(keys[order[q]], keys[order[p]])
      ensures keys[order[p]] == keys[order[q]] ==> order[p] < order[q]
    {
      assert Before(keys, order[p], order[q]);
      KeyLessIrreflexive(keys[order[p]]);
      if KeyLess(keys[order[q]], keys[order[p]]) && KeyLess(keys[order[p]], keys[order[q]]) {
        KeyLessTransitive(keys[order[q]], keys[order[p]], keys[order[q]]);
        KeyLessIrreflexive(keys[order[q]]);
      }
    }
  }
}
