/**
 * The drive protocol of makeForEach_fromFunction: one drive of a producing routine
 * hands every yielded value to a consumer together with its index and stop(),
 * catches the BreakIteration that stop() throws, and marks itself stopped on exit.
 */
module Protocol {
  import opened Values

  /**
   * A consumer g(val, index, stop): from its own state, a value and that value's
   * index it computes its new state and whether it returned or threw. Calling
   * stop() is throwing BreakIteration.
   */
  type Consumer<!S, -T> = (S, T, nat) -> (S, Completion)

  /** Where feeding a list of values to a consumer leaves it. */
  datatype Fed<S> = Fed(state: S, completion: Completion, index: nat)

  /**
   * Hands vals to g one by one, the first at index i, until g throws; the index
   * advances only past values for which g returned.
   */
  function Feed<S, T>(vals: seq<T>, g: Consumer<S, T>, st: S, i: nat): Fed<S>
    decreases |vals|
  {
    if vals == [] then Fed(st, Normal, i)
    else
      var (st1, c) := g(st, vals[0], i);
      if c.Normal? then Feed(vals[1..], g, st1, i + 1) else Fed(st1, c, i)
  }

  /** The drive's catch clause: BreakIteration is swallowed, everything else rethrown. */
  function Catch(c: Completion): (r: Completion)
    ensures r.Normal? <==> (c.Normal? || c == Abrupt(BreakIteration))
    ensures r.Abrupt? ==> r == c
  {
    if c == Abrupt(BreakIteration) then Normal else c
  }

  /** One whole drive of a routine that yields vals, consumed by g from state st. */
  function RunDrive<S, T>(vals: seq<T>, g: Consumer<S, T>, st: S): (S, Completion)
  {
    var f := Feed(vals, g, st, 0);
    (f.state, Catch(f.completion))
  }

  /** A consumer that throws, at the latest, when it is handed the value at index bound. */
  ghost predicate StopsBy<S(!new), T(!new)>(g: Consumer<S, T>, bound: nat)
  {
    forall s: S, v: T :: g(s, v, bound).1.Abrupt?
  }

  /** The state of one drive: the `stopped` flag and the `index` counter. */
  class Drive {
    var stopped: bool
    var index: nat

    constructor ()
      ensures !stopped && index == 0
    {
      stopped := false;
      index := 0;
    }

    /**
     * Yield(val): after the drive has ended it throws IterationError; otherwise it
     * calls the consumer with the current index and advances the index only when
     * the consumer returned.
     */
    method Yield<S, T>(g: Consumer<S, T>, st: S, v: T) returns (st': S, c: Completion)
      modifies this
      ensures stopped == old(stopped)
      ensures old(stopped) ==> st' == st && c == Abrupt(IterationError) && index == old(index)
      ensures !old(stopped) ==> (st', c) == g(st, v, old(index))
      ensures !old(stopped) ==> index == if c.Normal? then old(index) + 1 else old(index)
    {
      if stopped {
        return st, Abrupt(IterationError);
      }
      st', c := g(st, v, index).0, g(st, v, index).1;
      if c.Normal? {
        index := index + 1;
      }
    }

    /** The try/catch/finally around the routine: stopped on every exit path. */
    method End(body: Completion) returns (c: Completion)
      modifies this
      ensures stopped && index == old(index)
      ensures c == Catch(body)
    {
      stopped := true;
      c := Catch(body);
    }
  }

  lemma FeedStep<S, T>(vals: seq<T>, k: nat, g: Consumer<S, T>, st: S, i: nat)
    requires k < |vals|
    ensures Feed(vals[k..], g, st, i) ==
      (var (st1, c) := g(st, vals[k], i);
       if c.Normal? then Feed(vals[k + 1..], g, st1, i + 1) else Fed(st1, c, i))
  {
    assert vals[k..][0] == vals[k];
    assert vals[k..][1..] == vals[k + 1..];
  }

  /** Feeding a list that starts with v: the consumer sees v first. */
  lemma FeedCons<S, T>(v: T, rest: seq<T>, g: Consumer<S, T>, st: S, i: nat)
    ensures Feed([v] + rest, g, st, i) ==
      (var (st1, c) := g(st, v, i);
       if c.Normal? then Feed(rest, g, st1, i + 1) else Fed(st1, c, i))
  {
    assert ([v] + rest)[0] == v && ([v] + rest)[1..] == rest;
  }

  /** One step of Feed when the consumer returns. */
  lemma FeedNormalStep<S, T>(vals: seq<T>, g: Consumer<S, T>, st: S, i: nat, st1: S)
    requires vals != [] && g(st, vals[0], i) == (st1, Normal)
    ensures Feed(vals, g, st, i) == Feed(vals[1..], g, st1, i + 1)
  {
  }

  /**
   * The drive d runs a producing routine that yields the list vals: the routine
   * stops at the first value whose Yield throws, and d ends as RunDrive says.
   */
  method Run<S, T>(d: Drive, vals: seq<T>, g: Consumer<S, T>, st0: S) returns (st: S, c: Completion)
    requires !d.stopped && d.index == 0
    modifies d
    ensures d.stopped
    ensures (st, c) == RunDrive(vals, g, st0)
  {
    st := st0;
    var body := Normal;
    var k := 0;
    while k < |vals| && body.Normal?
      invariant 0 <= k <= |vals| && !d.stopped
      invariant body.Normal? ==>
        d.index == k && Feed(vals, g, st0, 0) == Feed(vals[k..], g, st, k)
      invariant body.Abrupt? ==> Feed(vals, g, st0, 0) == Fed(st, body, d.index)
    {
      FeedStep(vals, k, g, st, k);
      st, body := d.Yield(g, st, vals[k]);
      k := k + 1;
    }
    c := d.End(body);
  }

  /** A producing routine that yields the list vals, run under a fresh drive. */
  method DriveValues<S, T>(vals: seq<T>, g: Consumer<S, T>, st0: S) returns (st: S, c: Completion)
    ensures (st, c) == RunDrive(vals, g, st0)
  {
    var d := new Drive();
    st, c := Run(d, vals, g, st0);
  }

  /** The consumer receives the values in production order with indices 0, 1, 2, ... */
  function Recorder<T>(): Consumer<seq<(T, nat)>, T>
  {
    (log: seq<(T, nat)>, v: T, i: nat) => (log + [(v, i)], Normal)
  }

  lemma {:induction false} FeedRecorder<T>(vals: seq<T>, log: seq<(T, nat)>, i: nat)
    ensures var f := Feed(vals, Recorder(), log, i);
      f.completion == Normal && f.index == i + |vals| &&
      |f.state| == |log| + |vals| && f.state[..|log|] == log &&
      forall k :: 0 <= k < |vals| ==> f.state[|log| + k] == (vals[k], i + k)
  {
    if vals != [] {
      var log' := log + [(vals[0], i)];
      FeedRecorder(vals[1..], log', i + 1);
      var f := Feed(vals[1..], Recorder(), log', i + 1);
      assert f.state[..|log'|] == log';
      assert f.state[..|log|] == log'[..|log|];
      forall k | 0 <= k < |vals|
        ensures f.state[|log| + k] == (vals[k], i + k)
      {
        if k == 0 {
          assert f.state[|log|] == log'[|log|];
        } else {
          assert f.state[|log'| + (k - 1)] == (vals[1..][k - 1], i + 1 + (k - 1));
        }
      }
    }
  }

  lemma IndicesInOrder<T>(vals: seq<T>)
    ensures RunDrive(vals, Recorder(), []).1 == Normal
    ensures var log := RunDrive(vals, Recorder(), []).0;
      |log| == |vals| && forall k :: 0 <= k < |vals| ==> log[k] == (vals[k], k)
  {
    FeedRecorder(vals, [], 0);
  }

  /**
   * When the consumer throws at position k (and returned before), the drive ends
   * there: a thrown BreakIteration ends it normally, anything else is rethrown,
   * and no value after position k reaches the consumer.
   */
  lemma {:induction false} FeedStopsAt<S, T>(vals: seq<T>, g: Consumer<S, T>, st: S, i: nat, k: nat)
    requires k < |vals|
    requires g(Feed(vals[..k], g, st, i).state, vals[k], i + k).1.Abrupt?
    requires Feed(vals[..k], g, st, i).completion.Normal?
    ensures Feed(vals, g, st, i).completion == g(Feed(vals[..k], g, st, i).state, vals[k], i + k).1
    ensures Feed(vals, g, st, i) == Feed(vals[..k + 1], g, st, i)
    ensures Feed(vals, g, st, i).index == i + k
  {
    if k == 0 {
      assert vals[..1] == [vals[0]];
      assert [vals[0]][1..] == [];
    } else {
      assert vals[..k][0] == vals[0] && vals[..k + 1][0] == vals[0];
      assert vals[..k][1..] == vals[1..][..k - 1];
      assert vals[..k + 1][1..] == vals[1..][..k];
      var (st1, c) := g(st, vals[0], i);
      FeedStopsAt(vals[1..], g, st1, i + 1, k - 1);
    }
  }

  lemma {:induction false} FeedNormalIndex<S, T>(vals: seq<T>, g: Consumer<S, T>, st: S, i: nat)
    requires Feed(vals, g, st, i).completion.Normal?
    ensures Feed(vals, g, st, i).index == i + |vals|
  {
    if vals != [] {
      FeedNormalIndex(vals[1..], g, g(st, vals[0], i).0, i + 1);
    }
  }

  /** BreakIteration never leaves a drive; any other exception does, unchanged. */
  lemma DriveCatchesOnlyBreak<S, T>(vals: seq<T>, g: Consumer<S, T>, st: S)
    ensures RunDrive(vals, g, st).1 != Abrupt(BreakIteration)
    ensures Feed(vals, g, st, 0).completion != Abrupt(BreakIteration) ==>
      RunDrive(vals, g, st).1 == Feed(vals, g, st, 0).completion
  {
  }

  /**
   * A routine that keeps Yield and calls it once its drive is over gets
   * IterationError, and the consumer is not called.
   */
  method YieldAfterEnd<S, T>(vals: seq<T>, g: Consumer<S, T>, st0: S, late: T)
    returns (st: S, c: Completion, lateResult: Completion)
    ensures (st, c) == RunDrive(vals, g, st0)
    ensures lateResult == Abrupt(IterationError)
  {
    var d := new Drive();
    st, c := Run(d, vals, g, st0);
    var ignored;
    ignored, lateResult := d.Yield(g, st, late);
  }
}
