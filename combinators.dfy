/**
 * The stateless combinators of Generator.prototype as functions on the list of
 * values one drive of the source yields, and the consumers each combinator puts
 * on its source's drive, proved to produce those lists.
 */
module Combinators {
  import opened Values
  import opened Protocol

  function Min(a: int, b: int): int { if a <= b then a else b }
  function Max(a: int, b: int): int { if a <= b then b else a }

  // ---------------------------------------------------------------- filter

  /** filter(pred): the values for which pred holds, in source order. */
  function Filter<T>(s: seq<T>, p: T -> bool): (r: seq<T>)
    ensures |r| <= |s|
    decreases |s|
  {
    if s == [] then []
    else (if p(s[0]) then [s[0]] else []) + Filter(s[1..], p)
  }

  lemma {:induction false} FilterMembers<T>(s: seq<T>, p: T -> bool, x: T)
    ensures x in Filter(s, p) <==> x in s && p(x)
  {
    if s != [] {
      FilterMembers(s[1..], p, x);
      assert s == [s[0]] + s[1..];
    }
  }

  lemma {:induction false} FilterAppend<T>(a: seq<T>, b: seq<T>, p: T -> bool)
    ensures Filter(a + b, p) == Filter(a, p) + Filter(b, p)
  {
    if a != [] {
      assert (a + b)[1..] == a[1..] + b;
      FilterAppend(a[1..], b, p);
    } else {
      assert a + b == b;
    }
  }

  /** The negation of a predicate: what filter(pred) drops. */
  function Not<T>(p: T -> bool): T -> bool
  {
    x => !p(x)
  }

  /** What filter keeps and what it drops together are the source, counted with multiplicity. */
  lemma {:induction false} FilterPartition<T>(s: seq<T>, p: T -> bool)
    ensures multiset(Filter(s, p)) + multiset(Filter(s, Not(p))) == multiset(s)
  {
    if s != [] {
      FilterPartition(s[1..], p);
      FilterSplitHead(s, p);
      MultisetCons(s);
    }
  }

  lemma MultisetCons<T>(s: seq<T>)
    requires s != []
    ensures multiset(s) == multiset{s[0]} + multiset(s[1..])
  {
    assert s == [s[0]] + s[1..];
  }

  /** One unfolding of Filter. */
  lemma FilterHead<T>(s: seq<T>, p: T -> bool)
    requires s != []
    ensures Filter(s, p) == (if p(s[0]) then [s[0]] else []) + Filter(s[1..], p)
  {
  }

  lemma FilterSplitHead<T>(s: seq<T>, p: T -> bool)
    requires s != []
    ensures multiset(Filter(s, p)) + multiset(Filter(s, Not(p))) ==
      multiset{s[0]} + multiset(Filter(s[1..], p)) + multiset(Filter(s[1..], Not(p)))
  {
    FilterHead(s, p);
    FilterHead(s, Not(p));
    if p(s[0]) {
      assert Filter(s, Not(p)) == Filter(s[1..], Not(p));
    } else {
      assert Filter(s, p) == Filter(s[1..], p);
    }
  }

  /** The consumer filter puts on its source's drive, followed by toArray's push. */
  function FilterConsumer<T>(p: T -> bool): Consumer<seq<T>, T>
  {
    (acc: seq<T>, v: T, i: nat) => (if p(v) then acc + [v] else acc, Normal)
  }

  lemma {:induction false} FeedFilter<T>(s: seq<T>, p: T -> bool, acc: seq<T>, i: nat)
    ensures Feed(s, FilterConsumer(p), acc, i) == Fed(acc + Filter(s, p), Normal, i + |s|)
  {
    if s != [] {
      var acc' := if p(s[0]) then acc + [s[0]] else acc;
      FeedNormalStep(s, FilterConsumer(p), acc, i, acc');
      FeedFilter(s[1..], p, acc', i + 1);
      FilterAccStep(s, p, acc);
    } else {
      assert acc + [] == acc;
    }
  }

  lemma FilterAccStep<T>(s: seq<T>, p: T -> bool, acc: seq<T>)
    requires s != []
    ensures acc + Filter(s, p) == (if p(s[0]) then acc + [s[0]] else acc) + Filter(s[1..], p)
  {
    FilterHead(s, p);
    if p(s[0]) {
      assert acc + ([s[0]] + Filter(s[1..], p)) == acc + [s[0]] + Filter(s[1..], p);
    } else {
      assert [] + Filter(s[1..], p) == Filter(s[1..], p);
    }
  }

  // ---------------------------------------------------------------- map

  /** map(f): f applied to every value; the length is kept. */
  function Map<T, U>(s: seq<T>, f: T -> U): (r: seq<U>)
    ensures |r| == |s|
    ensures forall k :: 0 <= k < |s| ==> r[k] == f(s[k])
    decreases |s|
  {
    if s == [] then [] else [f(s[0])] + Map(s[1..], f)
  }

  lemma MapCompose<T, U, V>(s: seq<T>, f: T -> U, g: U -> V)
    ensures Map(Map(s, f), g) == Map(s, x => g(f(x)))
  {
  }

  function MapConsumer<T, U>(f: T -> U): Consumer<seq<U>, T>
  {
    (acc: seq<U>, v: T, i: nat) => (acc + [f(v)], Normal)
  }

  lemma {:induction false} FeedMap<T, U>(s: seq<T>, f: T -> U, acc: seq<U>, i: nat)
    ensures Feed(s, MapConsumer(f), acc, i) == Fed(acc + Map(s, f), Normal, i + |s|)
  {
    if s != [] {
      FeedNormalStep(s, MapConsumer(f), acc, i, acc + [f(s[0])]);
      FeedMap(s[1..], f, acc + [f(s[0])], i + 1);
      assert Map(s, f) == [f(s[0])] + Map(s[1..], f);
      AppendAssoc(acc, [f(s[0])], Map(s[1..], f));
    } else {
      assert acc + [] == acc;
    }
  }

  // ---------------------------------------------------------------- take / skip

  /** take(n): the first n values (none when n <= 0). */
  function Take<T>(s: seq<T>, n: int): (r: seq<T>)
    ensures r == s[..Min(Max(n, 0), |s|)]
    decreases |s|
  {
    if s == [] || n <= 0 then [] else [s[0]] + Take(s[1..], n - 1)
  }

  /** skip(n): the values from index n on. */
  function Skip<T>(s: seq<T>, n: int): (r: seq<T>)
    ensures r == s[Min(Max(n, 0), |s|)..]
    decreases |s|
  {
    if s == [] then [] else if n <= 0 then s else Skip(s[1..], n - 1)
  }

  lemma TakeSkip<T>(s: seq<T>, n: int)
    ensures Take(s, n) + Skip(s, n) == s
    ensures |Take(s, n)| == Min(Max(n, 0), |s|)
  {
    assert s == s[..Min(Max(n, 0), |s|)] + s[Min(Max(n, 0), |s|)..];
  }

  /**
   * take's consumer: at index n it calls stop() before yielding, so the source
   * is halted before its (n+1)-th value would go downstream.
   */
  function TakeConsumer<T>(n: int): Consumer<seq<T>, T>
  {
    (acc: seq<T>, v: T, i: nat) =>
      if i >= n then (acc, Abrupt(BreakIteration)) else (acc + [v], Normal)
  }

  lemma {:induction false} FeedTake<T>(s: seq<T>, n: int, acc: seq<T>, i: nat)
    requires i <= Max(n, 0)
    ensures var f := Feed(s, TakeConsumer(n), acc, i);
      f.state == acc + Take(s, n - i) &&
      f.index == i + |Take(s, n - i)| &&
      f.completion == if |s| <= Max(n, 0) - i then Normal else Abrupt(BreakIteration)
  {
    if s != [] && i < n {
      FeedNormalStep(s, TakeConsumer(n), acc, i, acc + [s[0]]);
      FeedTake(s[1..], n, acc + [s[0]], i + 1);
      TakeAccStep(s, n - i, acc);
    } else {
      assert acc + [] == acc;
    }
  }

  lemma TakeAccStep<T>(s: seq<T>, n: int, acc: seq<T>)
    requires s != [] && 0 < n
    ensures acc + Take(s, n) == acc + [s[0]] + Take(s[1..], n - 1)
    ensures |Take(s, n)| == 1 + |Take(s[1..], n - 1)|
  {
    assert Take(s, n) == [s[0]] + Take(s[1..], n - 1);
  }

  /** s is its head followed by its tail. */
  lemma ConsTail<T>(s: seq<T>)
    requires s != []
    ensures s == [s[0]] + s[1..]
  {
  }

  lemma AppendTail<T>(acc: seq<T>, s: seq<T>)
    requires s != []
    ensures acc + s == acc + [s[0]] + s[1..]
  {
    ConsTail(s);
  }

  /** take(n) followed by toArray ends normally with exactly Take(s, n). */
  lemma TakeDrive<T>(s: seq<T>, n: int)
    ensures RunDrive(s, TakeConsumer(n), []) == (Take(s, n), Normal)
  {
    FeedTake(s, n, [], 0);
    assert [] + Take(s, n) == Take(s, n);
  }

  function SkipConsumer<T>(n: int): Consumer<seq<T>, T>
  {
    (acc: seq<T>, v: T, i: nat) => (if i >= n then acc + [v] else acc, Normal)
  }

  lemma {:induction false} FeedSkip<T>(s: seq<T>, n: int, acc: seq<T>, i: nat)
    ensures Feed(s, SkipConsumer(n), acc, i) == Fed(acc + Skip(s, n - i), Normal, i + |s|)
  {
    if s != [] {
      FeedNormalStep(s, SkipConsumer(n), acc, i, if i >= n then acc + [s[0]] else acc);
      FeedSkip(s[1..], n, if i >= n then acc + [s[0]] else acc, i + 1);
      if i >= n {
        assert Skip(s, n - i) == s && Skip(s[1..], n - (i + 1)) == s[1..];
        AppendTail(acc, s);
      }
    } else {
      assert acc + [] == acc;
    }
  }

  // ---------------------------------------------------------------- zipWithArray

  /** The default zipper: a two-element array. */
  function Pair(a: Value, b: Value): Value
  {
    List([a, b])
  }

  /** zipWithArray(arr, z): z(s[k], arr[k]) for every k below both lengths. */
  function ZipWithArray<T, U, V>(s: seq<T>, arr: seq<U>, z: (T, U) -> V): (r: seq<V>)
    ensures |r| == Min(|s|, |arr|)
    ensures forall k :: 0 <= k < |r| ==> r[k] == z(s[k], arr[k])
    decreases |s|
  {
    if s == [] || arr == [] then [] else [z(s[0], arr[0])] + ZipWithArray(s[1..], arr[1..], z)
  }

  /** zipWithArray's consumer: stop() once the index reaches arr's length. */
  function ZipConsumer<T, U, V>(arr: seq<U>, z: (T, U) -> V): Consumer<seq<V>, T>
  {
    (acc: seq<V>, v: T, i: nat) =>
      if i >= |arr| then (acc, Abrupt(BreakIteration)) else (acc + [z(v, arr[i])], Normal)
  }

  lemma {:induction false} FeedZip<T, U, V>(s: seq<T>, arr: seq<U>, z: (T, U) -> V, acc: seq<V>, i: nat)
    requires i <= |arr|
    ensures var f := Feed(s, ZipConsumer(arr, z), acc, i);
      f.state == acc + ZipWithArray(s, arr[i..], z) &&
      f.index == i + Min(|s|, |arr| - i) &&
      f.completion == if |s| <= |arr| - i then Normal else Abrupt(BreakIteration)
    decreases |s|
  {
    if s == [] {
      assert acc + [] == acc;
    } else if i == |arr| {
      ZipAtEnd(s, arr, z, acc, i);
    } else {
      var acc1 := acc + [z(s[0], arr[i])];
      FeedNormalStep(s, ZipConsumer(arr, z), acc, i, acc1);
      FeedZip(s[1..], arr, z, acc1, i + 1);
      ZipStep(s, arr, z, acc, i);
    }
  }

  /** A value at index |arr| is not zipped: the consumer calls stop() first. */
  lemma ZipAtEnd<T, U, V>(s: seq<T>, arr: seq<U>, z: (T, U) -> V, acc: seq<V>, i: nat)
    requires s != [] && i == |arr|
    ensures Feed(s, ZipConsumer(arr, z), acc, i) == Fed(acc, Abrupt(BreakIteration), i)
    ensures acc + ZipWithArray(s, arr[i..], z) == acc
  {
    assert arr[i..] == [];
    assert acc + [] == acc;
  }

  /** zipWithArray's consumer throws by index |arr|, so it bounds even a Count. */
  lemma ZipStopsBy<T(!new), U, V(!new)>(arr: seq<U>, z: (T, U) -> V)
    ensures StopsBy(ZipConsumer(arr, z), |arr|)
  {
  }

  lemma ZipStep<T, U, V>(s: seq<T>, arr: seq<U>, z: (T, U) -> V, acc: seq<V>, i: nat)
    requires s != [] && i < |arr|
    ensures acc + ZipWithArray(s, arr[i..], z) == acc + [z(s[0], arr[i])] + ZipWithArray(s[1..], arr[i + 1..], z)
  {
    assert arr[i..][0] == arr[i] && arr[i..][1..] == arr[i + 1..];
  }

  /** A bounded array also bounds an unbounded source: never more than |arr| values. */
  lemma ZipDrive<T, U, V>(s: seq<T>, arr: seq<U>, z: (T, U) -> V)
    ensures RunDrive(s, ZipConsumer(arr, z), []) == (ZipWithArray(s, arr, z), Normal)
    ensures |RunDrive(s, ZipConsumer(arr, z), []).0| <= |arr|
  {
    FeedZip(s, arr, z, [], 0);
    assert arr[0..] == arr;
    assert [] + ZipWithArray(s, arr, z) == ZipWithArray(s, arr, z);
  }

  /** With no zipper given, value k comes out as the two-element array [s[k], arr[k]]. */
  lemma ZipDefault(s: seq<Value>, arr: seq<Value>)
    ensures |RunDrive(s, ZipConsumer(arr, Pair), []).0| == Min(|s|, |arr|)
    ensures forall k :: 0 <= k < Min(|s|, |arr|) ==>
      RunDrive(s, ZipConsumer(arr, Pair), []).0[k] == List([s[k], arr[k]])
  {
    ZipDrive(s, arr, Pair);
  }

  // ---------------------------------------------------------------- takeWhile / skipWhile

  /** takeWhile(pred): the longest prefix whose values all satisfy pred. */
  function TakeWhile<T>(s: seq<T>, p: T -> bool): (r: seq<T>)
    ensures |r| <= |s| && r == s[..|r|]
    ensures forall k :: 0 <= k < |r| ==> p(s[k])
    ensures |r| < |s| ==> !p(s[|r|])
    decreases |s|
  {
    if s == [] || !p(s[0]) then [] else [s[0]] + TakeWhile(s[1..], p)
  }

  /** skipWhile(pred): what remains once the first value failing pred is reached. */
  function SkipWhile<T>(s: seq<T>, p: T -> bool): (r: seq<T>)
    decreases |s|
  {
    if s == [] then [] else if p(s[0]) then SkipWhile(s[1..], p) else s
  }

  /**
   * skipWhile drops exactly takeWhile's prefix and keeps everything after it,
   * whatever pred says about later values: skipping never resumes.
   */
  lemma {:induction false} TakeWhileSkipWhile<T>(s: seq<T>, p: T -> bool)
    ensures TakeWhile(s, p) + SkipWhile(s, p) == s
    ensures SkipWhile(s, p) == s[|TakeWhile(s, p)|..]
    ensures SkipWhile(s, p) != [] ==> !p(SkipWhile(s, p)[0])
  {
    if s != [] && p(s[0]) {
      TakeWhileSkipWhile(s[1..], p);
      TakeWhileHead(s, p);
      ConsTail(s);
      SliceTail(s, |TakeWhile(s, p)|);
      assert TakeWhile(s, p) + SkipWhile(s, p) == [s[0]] + (TakeWhile(s[1..], p) + SkipWhile(s[1..], p));
    } else {
      assert s[0..] == s;
    }
  }

  /** One unfolding of TakeWhile past a passing head. */
  lemma TakeWhileHead<T>(s: seq<T>, p: T -> bool)
    requires s != [] && p(s[0])
    ensures TakeWhile(s, p) == [s[0]] + TakeWhile(s[1..], p)
    ensures TakeWhile(s, p) == s <==> TakeWhile(s[1..], p) == s[1..]
  {
    ConsTail(s);
    var r := TakeWhile(s[1..], p);
    if TakeWhile(s, p) == s {
      assert s[1..] == ([s[0]] + r)[1..] == r;
    }
  }

  lemma SliceTail<T>(s: seq<T>, k: int)
    requires 1 <= k <= |s|
    ensures s[k..] == s[1..][k - 1..]
  {
  }

  /** takeWhile's consumer: yield while pred holds, stop() at the first failure. */
  function TakeWhileConsumer<T>(p: T -> bool): Consumer<seq<T>, T>
  {
    (acc: seq<T>, v: T, i: nat) =>
      if p(v) then (acc + [v], Normal) else (acc, Abrupt(BreakIteration))
  }

  lemma {:induction false} FeedTakeWhile<T>(s: seq<T>, p: T -> bool, acc: seq<T>, i: nat)
    ensures var f := Feed(s, TakeWhileConsumer(p), acc, i);
      f.state == acc + TakeWhile(s, p) &&
      f.index == i + |TakeWhile(s, p)| &&
      f.completion == if TakeWhile(s, p) == s then Normal else Abrupt(BreakIteration)
  {
    if s != [] && p(s[0]) {
      FeedNormalStep(s, TakeWhileConsumer(p), acc, i, acc + [s[0]]);
      FeedTakeWhile(s[1..], p, acc + [s[0]], i + 1);
      TakeWhileHead(s, p);
      AppendAssoc(acc, [s[0]], TakeWhile(s[1..], p));
    } else {
      assert TakeWhile(s, p) == [];
      assert acc + [] == acc;
    }
  }

  lemma AppendAssoc<T>(a: seq<T>, b: seq<T>, c: seq<T>)
    ensures a + (b + c) == a + b + c
  {
  }

  lemma TakeWhileDrive<T>(s: seq<T>, p: T -> bool)
    ensures RunDrive(s, TakeWhileConsumer(p), []) == (TakeWhile(s, p), Normal)
  {
    FeedTakeWhile(s, p, [], 0);
    assert [] + TakeWhile(s, p) == TakeWhile(s, p);
  }

  /** skipWhile's consumer keeps the `skipping` flag beside the values it yielded. */
  function SkipWhileConsumer<T>(p: T -> bool): Consumer<(bool, seq<T>), T>
  {
    (st: (bool, seq<T>), v: T, i: nat) =>
      var skipping := st.0 && p(v);
      ((skipping, if skipping then st.1 else st.1 + [v]), Normal)
  }

  lemma {:induction false} FeedSkipWhile<T>(s: seq<T>, p: T -> bool, acc: seq<T>, i: nat)
    ensures Feed(s, SkipWhileConsumer(p), (true, acc), i).state.1 == acc + SkipWhile(s, p)
    ensures Feed(s, SkipWhileConsumer(p), (false, acc), i).state.1 == acc + s
    ensures Feed(s, SkipWhileConsumer(p), (true, acc), i).completion == Normal
    ensures Feed(s, SkipWhileConsumer(p), (false, acc), i).completion == Normal
  {
    if s != [] {
      FeedSkipWhile(s[1..], p, acc + [s[0]], i + 1);
      FeedSkipWhile(s[1..], p, acc, i + 1);
      AppendTail(acc, s);
    }
  }

  /** skipWhile(pred) driven to the end: its `skipping` flag flips once and stays off. */
  method SkipWhileDrive<T>(s: seq<T>, p: T -> bool) returns (out: seq<T>, c: Completion)
    ensures out == SkipWhile(s, p)
    ensures out == s[|TakeWhile(s, p)|..]
    ensures c == Normal
  {
    var st;
    st, c := DriveValues(s, SkipWhileConsumer(p), (true, []));
    out := st.1;
    FeedSkipWhile(s, p, [], 0);
    TakeWhileSkipWhile(s, p);
  }

  // ---------------------------------------------------------------- any consumer downstream

  /*
   * The consumers above are the combinator's consumer with toArray's push in the
   * place of the combinator's own Yield. Below, that Yield hands its value to the
   * consumer h of whatever drives the combinator's Generator. A stop() or a throw
   * in h then leaves through the combinator's consumer into the source's drive,
   * whose catch swallows BreakIteration; the combinator's routine returns, and its
   * own drive's catch follows.
   */

  /**
   * The combinator's Yield(w) onto h: st holds h's state and the index of the
   * combinator's own drive, which advances only when h returned.
   */
  function YieldTo<S, U>(h: Consumer<S, U>, st: (S, nat), w: U): ((S, nat), Completion)
  {
    var (hs, c) := h(st.0, w, st.1);
    ((hs, if c.Normal? then st.1 + 1 else st.1), c)
  }

  /** h driven through the lifted consumer ends as h driven over the list d was fed. */
  ghost predicate Lifted<S>(st: (S, nat), d: Fed<S>)
  {
    st == (d.state, d.index)
  }

  /** The Generator's routine returns what the source's drive let out; its own drive catches that. */
  lemma CatchTwice(c: Completion)
    ensures Catch(Catch(c)) == Catch(c)
  {
  }

  function FilterLift<S, T>(p: T -> bool, h: Consumer<S, T>): Consumer<(S, nat), T>
  {
    (st: (S, nat), v: T, i: nat) => if p(v) then YieldTo(h, st, v) else (st, Normal)
  }

  lemma {:induction false} FeedFilterLift<S, T>(s: seq<T>, p: T -> bool, h: Consumer<S, T>, hs: S, j: nat, i: nat)
    ensures var f := Feed(s, FilterLift(p, h), (hs, j), i);
      var d := Feed(Filter(s, p), h, hs, j);
      Lifted(f.state, d) && f.completion == d.completion
    decreases |s|
  {
    if s != [] {
      FilterHead(s, p);
      if p(s[0]) {
        FeedCons(s[0], Filter(s[1..], p), h, hs, j);
        var (hs1, c) := h(hs, s[0], j);
        if c.Normal? {
          FeedFilterLift(s[1..], p, h, hs1, j + 1, i + 1);
        }
      } else {
        assert Filter(s, p) == Filter(s[1..], p);
        FeedFilterLift(s[1..], p, h, hs, j, i + 1);
      }
    }
  }

  /** filter(p) driven by any consumer h is one drive of Filter(s, p) by h. */
  lemma FilterLiftDrive<S, T>(s: seq<T>, p: T -> bool, h: Consumer<S, T>, hs: S)
    ensures var inner := RunDrive(s, FilterLift(p, h), (hs, 0));
      (inner.0.0, Catch(inner.1)) == RunDrive(Filter(s, p), h, hs)
  {
    FeedFilterLift(s, p, h, hs, 0, 0);
    CatchTwice(Feed(Filter(s, p), h, hs, 0).completion);
  }

  function MapLift<S, T, U>(f: T -> U, h: Consumer<S, U>): Consumer<(S, nat), T>
  {
    (st: (S, nat), v: T, i: nat) => YieldTo(h, st, f(v))
  }

  lemma {:induction false} FeedMapLift<S, T, U>(s: seq<T>, f: T -> U, h: Consumer<S, U>, hs: S, i: nat)
    ensures var e := Feed(s, MapLift(f, h), (hs, i), i);
      var d := Feed(Map(s, f), h, hs, i);
      Lifted(e.state, d) && e.completion == d.completion && e.index == d.index
    decreases |s|
  {
    if s != [] {
      assert Map(s, f) == [f(s[0])] + Map(s[1..], f);
      FeedCons(f(s[0]), Map(s[1..], f), h, hs, i);
      var (hs1, c) := h(hs, f(s[0]), i);
      if c.Normal? {
        FeedMapLift(s[1..], f, h, hs1, i + 1);
      }
    }
  }

  /** map(f) driven by any consumer h is one drive of Map(s, f) by h. */
  lemma MapLiftDrive<S, T, U>(s: seq<T>, f: T -> U, h: Consumer<S, U>, hs: S)
    ensures var inner := RunDrive(s, MapLift(f, h), (hs, 0));
      (inner.0.0, Catch(inner.1)) == RunDrive(Map(s, f), h, hs)
  {
    FeedMapLift(s, f, h, hs, 0);
    CatchTwice(Feed(Map(s, f), h, hs, 0).completion);
  }

  function TakeLift<S, T>(n: int, h: Consumer<S, T>): Consumer<(S, nat), T>
  {
    (st: (S, nat), v: T, i: nat) =>
      if i >= n then (st, Abrupt(BreakIteration)) else YieldTo(h, st, v)
  }

  lemma {:induction false} FeedTakeLift<S, T>(s: seq<T>, n: int, h: Consumer<S, T>, hs: S, i: nat)
    requires i <= Max(n, 0)
    ensures var f := Feed(s, TakeLift(n, h), (hs, i), i);
      var d := Feed(Take(s, n - i), h, hs, i);
      Lifted(f.state, d) && f.index == d.index &&
      f.completion == if d.completion.Abrupt? then d.completion
        else if |s| <= Max(n, 0) - i then Normal else Abrupt(BreakIteration)
    decreases |s|
  {
    if s != [] && i < n {
      assert Take(s, n - i) == [s[0]] + Take(s[1..], n - (i + 1));
      FeedCons(s[0], Take(s[1..], n - (i + 1)), h, hs, i);
      assert TakeLift(n, h)((hs, i), s[0], i) == YieldTo(h, (hs, i), s[0]);
      var (hs1, c) := h(hs, s[0], i);
      if c.Normal? {
        FeedTakeLift(s[1..], n, h, hs1, i + 1);
      }
    }
  }

  /** take(n) driven by any consumer h is one drive of Take(s, n) by h. */
  lemma TakeLiftDrive<S, T>(s: seq<T>, n: int, h: Consumer<S, T>, hs: S)
    ensures var inner := RunDrive(s, TakeLift(n, h), (hs, 0));
      (inner.0.0, Catch(inner.1)) == RunDrive(Take(s, n), h, hs)
  {
    FeedTakeLift(s, n, h, hs, 0);
  }

  /** Whatever h does, take(n) stops its source by index max(n, 0). */
  lemma TakeLiftStopsBy<S(!new), T(!new)>(n: int, h: Consumer<S, T>)
    ensures StopsBy(TakeLift(n, h), Max(n, 0))
  {
  }

  function SkipLift<S, T>(n: int, h: Consumer<S, T>): Consumer<(S, nat), T>
  {
    (st: (S, nat), v: T, i: nat) => if i >= n then YieldTo(h, st, v) else (st, Normal)
  }

  lemma {:induction false} FeedSkipLift<S, T>(s: seq<T>, n: int, h: Consumer<S, T>, hs: S, j: nat, i: nat)
    ensures var f := Feed(s, SkipLift(n, h), (hs, j), i);
      var d := Feed(Skip(s, n - i), h, hs, j);
      Lifted(f.state, d) && f.completion == d.completion
    decreases |s|
  {
    if s != [] {
      if i >= n {
        assert Skip(s, n - i) == s && Skip(s[1..], n - (i + 1)) == s[1..];
        ConsTail(s);
        FeedCons(s[0], s[1..], h, hs, j);
        assert SkipLift(n, h)((hs, j), s[0], i) == YieldTo(h, (hs, j), s[0]);
        var (hs1, c) := h(hs, s[0], j);
        if c.Normal? {
          FeedSkipLift(s[1..], n, h, hs1, j + 1, i + 1);
        }
      } else {
        assert Skip(s, n - i) == Skip(s[1..], n - (i + 1));
        FeedSkipLift(s[1..], n, h, hs, j, i + 1);
      }
    }
  }

  /** skip(n) driven by any consumer h is one drive of Skip(s, n) by h. */
  lemma SkipLiftDrive<S, T>(s: seq<T>, n: int, h: Consumer<S, T>, hs: S)
    ensures var inner := RunDrive(s, SkipLift(n, h), (hs, 0));
      (inner.0.0, Catch(inner.1)) == RunDrive(Skip(s, n), h, hs)
  {
    FeedSkipLift(s, n, h, hs, 0, 0);
    CatchTwice(Feed(Skip(s, n), h, hs, 0).completion);
  }

  function ZipLift<S, T, U, V>(arr: seq<U>, z: (T, U) -> V, h: Consumer<S, V>): Consumer<(S, nat), T>
  {
    (st: (S, nat), v: T, i: nat) =>
      if i >= |arr| then (st, Abrupt(BreakIteration)) else YieldTo(h, st, z(v, arr[i]))
  }

  lemma {:induction false} FeedZipLift<S, T, U, V>(s: seq<T>, arr: seq<U>, z: (T, U) -> V, h: Consumer<S, V>, hs: S, i: nat)
    requires i <= |arr|
    ensures var f := Feed(s, ZipLift(arr, z, h), (hs, i), i);
      var d := Feed(ZipWithArray(s, arr[i..], z), h, hs, i);
      Lifted(f.state, d) && f.index == d.index &&
      f.completion == if d.completion.Abrupt? then d.completion
        else if |s| <= |arr| - i then Normal else Abrupt(BreakIteration)
    decreases |s|
  {
    if s != [] && i < |arr| {
      assert arr[i..][0] == arr[i] && arr[i..][1..] == arr[i + 1..];
      assert ZipWithArray(s, arr[i..], z) == [z(s[0], arr[i])] + ZipWithArray(s[1..], arr[i + 1..], z);
      FeedCons(z(s[0], arr[i]), ZipWithArray(s[1..], arr[i + 1..], z), h, hs, i);
      var (hs1, c) := h(hs, z(s[0], arr[i]), i);
      if c.Normal? {
        FeedZipLift(s[1..], arr, z, h, hs1, i + 1);
      }
    } else if s != [] {
      assert arr[i..] == [];
    }
  }

  /** zipWithArray(arr, z) driven by any consumer h is one drive of ZipWithArray(s, arr, z) by h. */
  lemma ZipLiftDrive<S, T, U, V>(s: seq<T>, arr: seq<U>, z: (T, U) -> V, h: Consumer<S, V>, hs: S)
    ensures var inner := RunDrive(s, ZipLift(arr, z, h), (hs, 0));
      (inner.0.0, Catch(inner.1)) == RunDrive(ZipWithArray(s, arr, z), h, hs)
  {
    FeedZipLift(s, arr, z, h, hs, 0);
    assert arr[0..] == arr;
  }

  function TakeWhileLift<S, T>(p: T -> bool, h: Consumer<S, T>): Consumer<(S, nat), T>
  {
    (st: (S, nat), v: T, i: nat) =>
      if p(v) then YieldTo(h, st, v) else (st, Abrupt(BreakIteration))
  }

  lemma {:induction false} FeedTakeWhileLift<S, T>(s: seq<T>, p: T -> bool, h: Consumer<S, T>, hs: S, i: nat)
    ensures var f := Feed(s, TakeWhileLift(p, h), (hs, i), i);
      var d := Feed(TakeWhile(s, p), h, hs, i);
      Lifted(f.state, d) && f.index == d.index &&
      f.completion == if d.completion.Abrupt? then d.completion
        else if TakeWhile(s, p) == s then Normal else Abrupt(BreakIteration)
    decreases |s|
  {
    if s != [] && p(s[0]) {
      TakeWhileHead(s, p);
      FeedCons(s[0], TakeWhile(s[1..], p), h, hs, i);
      var (hs1, c) := h(hs, s[0], i);
      if c.Normal? {
        FeedTakeWhileLift(s[1..], p, h, hs1, i + 1);
      }
    } else {
      assert TakeWhile(s, p) == [];
    }
  }

  /** takeWhile(p) driven by any consumer h is one drive of TakeWhile(s, p) by h. */
  lemma TakeWhileLiftDrive<S, T>(s: seq<T>, p: T -> bool, h: Consumer<S, T>, hs: S)
    ensures var inner := RunDrive(s, TakeWhileLift(p, h), (hs, 0));
      (inner.0.0, Catch(inner.1)) == RunDrive(TakeWhile(s, p), h, hs)
  {
    FeedTakeWhileLift(s, p, h, hs, 0);
  }

  /** skipWhile's consumer with its `skipping` flag beside h's state and index. */
  function SkipWhileLift<S, T>(p: T -> bool, h: Consumer<S, T>): Consumer<(bool, (S, nat)), T>
  {
    (st: (bool, (S, nat)), v: T, i: nat) =>
      var skipping := st.0 && p(v);
      if skipping then ((true, st.1), Normal)
      else
        var (st1, c) := YieldTo(h, st.1, v);
        ((false, st1), c)
  }

  lemma {:induction false} FeedSkipWhileLift<S, T>(s: seq<T>, p: T -> bool, h: Consumer<S, T>, hs: S, j: nat, i: nat)
    ensures var f := Feed(s, SkipWhileLift(p, h), (true, (hs, j)), i);
      var d := Feed(SkipWhile(s, p), h, hs, j);
      Lifted(f.state.1, d) && f.completion == d.completion
    ensures var f := Feed(s, SkipWhileLift(p, h), (false, (hs, j)), i);
      var d := Feed(s, h, hs, j);
      Lifted(f.state.1, d) && f.completion == d.completion
    decreases |s|
  {
    if s != [] {
      var (hs1, c) := h(hs, s[0], j);
      if c.Normal? {
        FeedSkipWhileLift(s[1..], p, h, hs1, j + 1, i + 1);
      }
      if p(s[0]) {
        FeedSkipWhileLift(s[1..], p, h, hs, j, i + 1);
      }
    }
  }

  /** skipWhile(p) driven by any consumer h is one drive of SkipWhile(s, p) by h. */
  lemma SkipWhileLiftDrive<S, T>(s: seq<T>, p: T -> bool, h: Consumer<S, T>, hs: S)
    ensures var inner := RunDrive(s, SkipWhileLift(p, h), (true, (hs, 0)));
      (inner.0.1.0, Catch(inner.1)) == RunDrive(SkipWhile(s, p), h, hs)
  {
    FeedSkipWhileLift(s, p, h, hs, 0, 0);
    CatchTwice(Feed(SkipWhile(s, p), h, hs, 0).completion);
  }

  // ---------------------------------------------------------------- except

  /** except(what): filter with `x !== what`. */
  function Except<T(==)>(s: seq<T>, what: T): (r: seq<T>)
  {
    Filter(s, x => x != what)
  }

  /** except drops every occurrence of the value and keeps every other value as often as it occurs. */
  lemma {:induction false} ExceptCounts<T>(s: seq<T>, what: T)
    ensures multiset(Except(s, what)) == multiset(s)[what := 0]
  {
    if s != [] {
      ExceptCounts(s[1..], what);
      assert s == [s[0]] + s[1..];
      assert Except(s, what) == (if s[0] != what then [s[0]] else []) + Except(s[1..], what);
    }
  }
}
