/**
 * The terminal operations toArray, reduce, all, any, first and count: each drives
 * its source once with a consumer that accumulates into the operation's locals.
 */
module Terminal {
  import opened Values
  import opened Protocol

  // ---------------------------------------------------------------- toArray

  /** toArray's consumer: result.push(val). */
  function PushConsumer<T>(): Consumer<seq<T>, T>
  {
    (acc: seq<T>, v: T, i: nat) => (acc + [v], Normal)
  }

  lemma {:induction false} FeedPush<T>(s: seq<T>, acc: seq<T>, i: nat)
    ensures Feed(s, PushConsumer(), acc, i) == Fed(acc + s, Normal, i + |s|)
  {
    if s != [] {
      FeedNormalStep(s, PushConsumer(), acc, i, acc + [s[0]]);
      FeedPush(s[1..], acc + [s[0]], i + 1);
      assert acc + s == acc + [s[0]] + s[1..];
    } else {
      assert acc + [] == acc;
    }
  }

  /** toArray: every produced value, in order. */
  method ToArray<T>(s: seq<T>) returns (result: seq<T>)
    ensures result == s
  {
    var c;
    result, c := DriveValues(s, PushConsumer(), []);
    FeedPush(s, [], 0);
  }

  // ---------------------------------------------------------------- count

  function CountConsumer<T>(): Consumer<int, T>
  {
    (n: int, v: T, i: nat) => (n + 1, Normal)
  }

  lemma {:induction false} FeedCount<T>(s: seq<T>, n: int, i: nat)
    ensures Feed(s, CountConsumer(), n, i) == Fed(n + |s|, Normal, i + |s|)
  {
    if s != [] {
      FeedNormalStep(s, CountConsumer(), n, i, n + 1);
      FeedCount(s[1..], n + 1, i + 1);
    }
  }

  /** count: the number of produced values; the drive always runs to its end. */
  method Count<T>(s: seq<T>) returns (result: nat)
    ensures result == |s|
  {
    var n, c := DriveValues(s, CountConsumer(), 0);
    FeedCount(s, 0, 0);
    result := n;
  }

  // ---------------------------------------------------------------- reduce

  /** f folded over s from the left, starting from acc. */
  function FoldLeft<A, T>(f: (A, T) -> A, acc: A, s: seq<T>): A
    decreases |s|
  {
    if s == [] then acc else FoldLeft(f, f(acc, s[0]), s[1..])
  }

  lemma {:induction false} FoldLeftAppend<A, T>(f: (A, T) -> A, acc: A, a: seq<T>, b: seq<T>)
    ensures FoldLeft(f, acc, a + b) == FoldLeft(f, FoldLeft(f, acc, a), b)
  {
    if a == [] {
      assert a + b == b;
    } else {
      assert (a + b)[0] == a[0] && (a + b)[1..] == a[1..] + b;
      FoldLeftAppend(f, f(acc, a[0]), a[1..], b);
    }
  }

  /**
   * reduce's consumer, over its locals `first` and `current` (None is undefined):
   * the first value seeds `current` when no initial value was given.
   */
  function ReduceConsumer<T>(f: (T, T) -> T): Consumer<(bool, Option<T>), T>
  {
    // The test is `if (first)`; `first` is false only once `current` holds a value,
    // so `st.1.None?` never decides it and is there only so that `.value` below is defined.
    (st: (bool, Option<T>), v: T, i: nat) =>
      if st.0 || st.1.None? then ((false, Some(v)), Normal)
      else ((false, Some(f(st.1.value, v))), Normal)
  }

  lemma {:induction false} FeedReduce<T>(s: seq<T>, f: (T, T) -> T, acc: T, i: nat)
    ensures Feed(s, ReduceConsumer(f), (false, Some(acc)), i).state.1 == Some(FoldLeft(f, acc, s))
    ensures Feed(s, ReduceConsumer(f), (false, Some(acc)), i).completion == Normal
  {
    if s != [] {
      FeedNormalStep(s, ReduceConsumer(f), (false, Some(acc)), i, (false, Some(f(acc, s[0]))));
      FeedReduce(s[1..], f, f(acc, s[0]), i + 1);
    }
  }

  /**
   * reduce(f [, initial]): a left fold. Without an initial value the first value
   * seeds the accumulator, and an empty source gives undefined (None).
   */
  method Reduce<T>(s: seq<T>, f: (T, T) -> T, initial: Option<T>) returns (result: Option<T>)
    ensures initial.Some? ==> result == Some(FoldLeft(f, initial.value, s))
    ensures initial.None? && s == [] ==> result == None
    ensures initial.None? && s != [] ==> result == Some(FoldLeft(f, s[0], s[1..]))
  {
    var st0: (bool, Option<T>) := if initial.None? then (true, None) else (false, initial);
    var st, c := DriveValues(s, ReduceConsumer(f), st0);
    result := st.1;
    if initial.Some? {
      FeedReduce(s, f, initial.value, 0);
    } else if s != [] {
      FeedNormalStep(s, ReduceConsumer(f), st0, 0, (false, Some(s[0])));
      FeedReduce(s[1..], f, s[0], 1);
    }
  }

  // ---------------------------------------------------------------- all / any

  /** The test all() and any() apply: pred when given, else the value's truthiness. */
  predicate Test(pred: Option<Value -> bool>, v: Value)
  {
    match pred
    case Some(p) => p(v)
    case None => Truthy(v)
  }

  /** all's consumer: on the first failing value, result = false and stop(). */
  function AllConsumer(pred: Option<Value -> bool>): Consumer<bool, Value>
  {
    (r: bool, v: Value, i: nat) => if !Test(pred, v) then (false, Abrupt(BreakIteration)) else (r, Normal)
  }

  lemma {:induction false} FeedAll(s: seq<Value>, pred: Option<Value -> bool>, i: nat)
    ensures var f := Feed(s, AllConsumer(pred), true, i);
      (f.state <==> forall k :: 0 <= k < |s| ==> Test(pred, s[k])) &&
      Catch(f.completion) == Normal
  {
    if s != [] && Test(pred, s[0]) {
      FeedNormalStep(s, AllConsumer(pred), true, i, true);
      FeedAll(s[1..], pred, i + 1);
      assert forall k :: 1 <= k < |s| ==> s[k] == s[1..][k - 1];
    }
  }

  /** all(pred): whether every value passes. */
  method All(s: seq<Value>, pred: Option<Value -> bool>) returns (result: bool)
    ensures result <==> forall k :: 0 <= k < |s| ==> Test(pred, s[k])
  {
    var c;
    result, c := DriveValues(s, AllConsumer(pred), true);
    FeedAll(s, pred, 0);
  }

  /** all stops its drive at the first failing value: no later value is produced to it. */
  lemma AllStopsAtFirstFailure(s: seq<Value>, pred: Option<Value -> bool>, k: nat)
    requires k < |s| && !Test(pred, s[k])
    requires forall j :: 0 <= j < k ==> Test(pred, s[j])
    ensures Feed(s, AllConsumer(pred), true, 0) == Feed(s[..k + 1], AllConsumer(pred), true, 0)
    ensures Feed(s, AllConsumer(pred), true, 0).completion == Abrupt(BreakIteration)
  {
    FeedAll(s[..k], pred, 0);
    FeedAllNormal(s[..k], pred, 0);
    FeedStopsAt(s, AllConsumer(pred), true, 0, k);
  }

  lemma {:induction false} FeedAllNormal(s: seq<Value>, pred: Option<Value -> bool>, i: nat)
    requires forall k :: 0 <= k < |s| ==> Test(pred, s[k])
    ensures Feed(s, AllConsumer(pred), true, i) == Fed(true, Normal, i + |s|)
  {
    if s != [] {
      FeedNormalStep(s, AllConsumer(pred), true, i, true);
      FeedAllNormal(s[1..], pred, i + 1);
    }
  }

  /** any's consumer: on the first passing value, result = true and stop(). */
  function AnyConsumer(pred: Option<Value -> bool>): Consumer<bool, Value>
  {
    (r: bool, v: Value, i: nat) => if Test(pred, v) then (true, Abrupt(BreakIteration)) else (r, Normal)
  }

  lemma {:induction false} FeedAny(s: seq<Value>, pred: Option<Value -> bool>, i: nat)
    ensures var f := Feed(s, AnyConsumer(pred), false, i);
      (f.state <==> exists k :: 0 <= k < |s| && Test(pred, s[k])) &&
      Catch(f.completion) == Normal
  {
    if s != [] && !Test(pred, s[0]) {
      FeedNormalStep(s, AnyConsumer(pred), false, i, false);
      FeedAny(s[1..], pred, i + 1);
      assert forall k :: 1 <= k < |s| ==> s[k] == s[1..][k - 1];
      if exists k :: 0 <= k < |s| && Test(pred, s[k]) {
        var k :| 0 <= k < |s| && Test(pred, s[k]);
        assert k >= 1 && Test(pred, s[1..][k - 1]);
      }
    }
  }

  /** any stops its drive at the first passing value: no later value is produced to it. */
  lemma AnyStopsAtFirstWitness(s: seq<Value>, pred: Option<Value -> bool>, k: nat)
    requires k < |s| && Test(pred, s[k])
    requires forall j :: 0 <= j < k ==> !Test(pred, s[j])
    ensures Feed(s, AnyConsumer(pred), false, 0) == Feed(s[..k + 1], AnyConsumer(pred), false, 0)
    ensures Feed(s, AnyConsumer(pred), false, 0).completion == Abrupt(BreakIteration)
  {
    FeedAnyNormal(s[..k], pred, 0);
    FeedStopsAt(s, AnyConsumer(pred), false, 0, k);
  }

  lemma {:induction false} FeedAnyNormal(s: seq<Value>, pred: Option<Value -> bool>, i: nat)
    requires forall k :: 0 <= k < |s| ==> !Test(pred, s[k])
    ensures Feed(s, AnyConsumer(pred), false, i) == Fed(false, Normal, i + |s|)
  {
    if s != [] {
      FeedNormalStep(s, AnyConsumer(pred), false, i, false);
      FeedAnyNormal(s[1..], pred, i + 1);
    }
  }

  /** any(pred): whether some value passes. */
  method Any(s: seq<Value>, pred: Option<Value -> bool>) returns (result: bool)
    ensures result <==> exists k :: 0 <= k < |s| && Test(pred, s[k])
  {
    var c;
    result, c := DriveValues(s, AnyConsumer(pred), false);
    FeedAny(s, pred, 0);
  }

  // ---------------------------------------------------------------- first

  /** first's consumer: result = val, then stop(). */
  function FirstConsumer<T>(): Consumer<Option<T>, T>
  {
    (r: Option<T>, v: T, i: nat) => (Some(v), Abrupt(BreakIteration))
  }

  /** first: the first value, or undefined (None) when there is none. */
  method First<T>(s: seq<T>) returns (result: Option<T>)
    ensures s == [] ==> result == None
    ensures s != [] ==> result == Some(s[0])
  {
    var c;
    result, c := DriveValues(s, FirstConsumer(), None);
  }
}
