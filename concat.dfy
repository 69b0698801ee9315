/**
 * and(other): a routine that calls yieldMany(source) and then yieldMany(other).
 * Each yieldMany drives its argument under a drive of its own whose consumer
 * forwards every value to the outer Yield. A stop() called by the outer consumer
 * throws the one BreakIteration object, and the first drive to catch it is the
 * inner one on top of the call stack, so stopping while `source` is produced
 * ends only `source`'s drive and `other` is still produced.
 */
module Concat {
  import opened Values
  import opened Protocol
  import Combinators
  import Terminal

  // ---------------------------------------------------------------- the behaviour as written

  /**
   * The outer consumer's view of one drive of source.and(other): feed source;
   * a BreakIteration ends only that part; unless something else was thrown, feed
   * other, its BreakIteration again caught by its own drive. The outer index runs
   * on across both parts.
   */
  function AndFeed<S, T>(a: seq<T>, b: seq<T>, g: Consumer<S, T>, st: S): Fed<S>
  {
    var fa := Feed(a, g, st, 0);
    if Catch(fa.completion).Abrupt? then fa
    else
      var fb := Feed(b, g, fa.state, fa.index);
      Fed(fb.state, Catch(fb.completion), fb.index)
  }

  /** One whole drive of source.and(other): AndFeed under the outer drive's catch. */
  function RunAnd<S, T>(a: seq<T>, b: seq<T>, g: Consumer<S, T>, st: S): (S, Completion)
  {
    var f := AndFeed(a, b, g, st);
    (f.state, Catch(f.completion))
  }

  /**
   * yieldMany(vals) inside the drive d: a fresh inner drive over vals whose
   * consumer is d's Yield. The inner Yield is written out here, since its
   * consumer itself yields on d; the inner drive's catch ends the call.
   */
  method YieldMany<S, T>(d: Drive, vals: seq<T>, g: Consumer<S, T>, st0: S) returns (st: S, c: Completion)
    requires !d.stopped
    modifies d
    ensures !d.stopped
    ensures var f := Feed(vals, g, st0, old(d.index));
      st == f.state && c == Catch(f.completion) && d.index == f.index
  {
    ghost var i0 := d.index;
    var inner := new Drive();
    st := st0;
    var body := Normal;
    var k := 0;
    while k < |vals| && body.Normal?
      invariant 0 <= k <= |vals| && !d.stopped && !inner.stopped
      invariant body.Normal? ==> Feed(vals, g, st0, i0) == Feed(vals[k..], g, st, d.index)
      invariant body.Abrupt? ==> Feed(vals, g, st0, i0) == Fed(st, body, d.index)
    {
      FeedStep(vals, k, g, st, d.index);
      st, body := d.Yield(g, st, vals[k]);
      if body.Normal? {
        inner.index := inner.index + 1;
      }
      k := k + 1;
    }
    c := inner.End(body);
  }

  /** source.and(other) driven once with the consumer g, as generator.js runs it. */
  method DriveAnd<S, T>(a: seq<T>, b: seq<T>, g: Consumer<S, T>, st0: S) returns (st: S, c: Completion)
    ensures (st, c) == RunAnd(a, b, g, st0)
  {
    var d := new Drive();
    var body;
    st, body := YieldMany(d, a, g, st0);
    if body.Normal? {
      st, body := YieldMany(d, b, g, st);
    }
    c := d.End(body);
  }

  // ---------------------------------------------------------------- what follows from it

  /** Feeding a + b is feeding a and, if a was taken to its end, then b. */
  lemma {:induction false} FeedAppend<S, T>(a: seq<T>, b: seq<T>, g: Consumer<S, T>, st: S, i: nat)
    ensures Feed(a + b, g, st, i) ==
      (var fa := Feed(a, g, st, i);
       if fa.completion.Normal? then Feed(b, g, fa.state, fa.index) else fa)
    decreases |a|
  {
    if a == [] {
      assert a + b == b;
    } else {
      assert (a + b)[0] == a[0] && (a + b)[1..] == a[1..] + b;
      var (st1, c) := g(st, a[0], i);
      if c.Normal? {
        FeedAppend(a[1..], b, g, st1, i + 1);
      }
    }
  }

  /** When no stop() happens while source is produced, and() is plain concatenation. */
  lemma AndWithoutStopInSource<S, T>(a: seq<T>, b: seq<T>, g: Consumer<S, T>, st: S)
    requires Feed(a, g, st, 0).completion.Normal?
    ensures RunAnd(a, b, g, st) == RunDrive(a + b, g, st)
  {
    FeedAppend(a, b, g, st, 0);
  }

  /** a.and(b).toArray() is a.toArray() followed by b.toArray(). */
  lemma AndToArray<T>(a: seq<T>, b: seq<T>)
    ensures RunAnd(a, b, Terminal.PushConsumer(), []) == (a + b, Normal)
  {
    Terminal.FeedPush(a + b, [], 0);
    Terminal.FeedPush(a, [], 0);
    AndWithoutStopInSource(a, b, Terminal.PushConsumer(), []);
    assert [] + (a + b) == a + b;
  }

  /**
   * a.and(b).takeWhile(p): the stop() at the first failure in a ends only a, and
   * b's own longest passing prefix follows.
   */
  lemma AndTakeWhile<T>(a: seq<T>, b: seq<T>, p: T -> bool)
    ensures RunAnd(a, b, Combinators.TakeWhileConsumer(p), []).0 ==
      Combinators.TakeWhile(a, p) + Combinators.TakeWhile(b, p)
  {
    Combinators.FeedTakeWhile(a, p, [], 0);
    var fa := Feed(a, Combinators.TakeWhileConsumer(p), [], 0);
    Combinators.FeedTakeWhile(b, p, fa.state, fa.index);
    assert [] + Combinators.TakeWhile(a, p) == Combinators.TakeWhile(a, p);
  }

  /**
   * a.and(b).first(): first's stop() after a[0] is caught by a's drive, so b is
   * still produced and its first value overwrites the result.
   */
  lemma FirstOfAndAsWritten<T>(a: seq<T>, b: seq<T>)
    ensures RunAnd(a, b, Terminal.FirstConsumer(), None).0 ==
      if b != [] then Some(b[0]) else if a != [] then Some(a[0]) else None
  {
  }

  /** The input that shows it: [1].and([2]).first() is 2, not 1. */
  lemma FirstOfAndCounterexample()
    ensures RunAnd([Num(1)], [Num(2)], Terminal.FirstConsumer(), None).0 == Some(Num(2))
    ensures RunDrive([Num(1)] + [Num(2)], Terminal.FirstConsumer(), None).0 == Some(Num(1))
  {
    FirstOfAndAsWritten([Num(1)], [Num(2)]);
    assert ([Num(1)] + [Num(2)])[0] == Num(1);
  }

  /**
   * a.and(b).filter(p).first(): first's stop() is thrown through filter's Yield
   * and caught by the inner drive of a inside and(), so b still reaches first's
   * consumer through filter.
   */
  lemma FilterFirstOfAndAsWritten<T>(a: seq<T>, b: seq<T>, p: T -> bool)
    ensures RunAnd(a, b, Combinators.FilterLift(p, Terminal.FirstConsumer()), (None, 0)).0.0 ==
      var fa := Combinators.Filter(a, p);
      var fb := Combinators.Filter(b, p);
      if fb != [] then Some(fb[0]) else if fa != [] then Some(fa[0]) else None
  {
    var g := Combinators.FilterLift(p, Terminal.FirstConsumer());
    Combinators.FeedFilterLift(a, p, Terminal.FirstConsumer(), None, 0, 0);
    var fa := Feed(a, g, (None, 0), 0);
    Combinators.FeedFilterLift(b, p, Terminal.FirstConsumer(), fa.state.0, fa.state.1, fa.index);
  }

  /** The input that shows it: [1].and([2]).filter(x => true).first() is 2. */
  lemma FilterFirstOfAndCounterexample()
    ensures RunAnd([Num(1)], [Num(2)], Combinators.FilterLift((x: Value) => true, Terminal.FirstConsumer()), (None, 0)).0.0 == Some(Num(2))
  {
    FilterFirstOfAndAsWritten([Num(1)], [Num(2)], (x: Value) => true);
  }

  // ---------------------------------------------------------------- stop() owned by the outer drive

  /**
   * yieldMany(vals) whose inner drive lets a BreakIteration from the outer
   * consumer pass through to the drive that owns that stop().
   */
  method YieldManyOwned<S, T>(d: Drive, vals: seq<T>, g: Consumer<S, T>, st0: S) returns (st: S, c: Completion)
    requires !d.stopped
    modifies d
    ensures !d.stopped
    ensures var f := Feed(vals, g, st0, old(d.index));
      st == f.state && c == f.completion && d.index == f.index
  {
    ghost var i0 := d.index;
    st := st0;
    c := Normal;
    var k := 0;
    while k < |vals| && c.Normal?
      invariant 0 <= k <= |vals| && !d.stopped
      invariant c.Normal? ==> Feed(vals, g, st0, i0) == Feed(vals[k..], g, st, d.index)
      invariant c.Abrupt? ==> Feed(vals, g, st0, i0) == Fed(st, c, d.index)
    {
      FeedStep(vals, k, g, st, d.index);
      st, c := d.Yield(g, st, vals[k]);
      k := k + 1;
    }
  }

  /** source.and(other) with stop() ending the whole and(): one drive of a + b. */
  method DriveAndOwned<S, T>(a: seq<T>, b: seq<T>, g: Consumer<S, T>, st0: S) returns (st: S, c: Completion)
    ensures (st, c) == RunDrive(a + b, g, st0)
  {
    var d := new Drive();
    var body;
    st, body := YieldManyOwned(d, a, g, st0);
    if body.Normal? {
      st, body := YieldManyOwned(d, b, g, st);
    }
    c := d.End(body);
    FeedAppend(a, b, g, st0, 0);
  }

  /** With stop() owned by the outer drive, first() of a.and(b) is the first value of a + b. */
  lemma FirstOfAndOwned<T>(a: seq<T>, b: seq<T>)
    ensures RunDrive(a + b, Terminal.FirstConsumer(), None).0 ==
      if a + b == [] then None else Some((a + b)[0])
  {
  }
}
