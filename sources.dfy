/**
 * Where a Generator's values come from: the constructor's dispatch on the shape of
 * its arguments, the array and object sources, asGenerator, and the infinite
 * Count/Range factories whose counter lives outside the producing routine.
 */
module Sources {
  import opened Values
  import opened Protocol
  import Combinators
  import Terminal

  /**
   * A producing routine, given by the values it yields when called with its fixed
   * parameters (followed by Yield, yieldMany and stop).
   */
  type Routine = seq<Value> -> seq<Value>

  /** A constructor argument, by the shape the dispatch tests for. */
  datatype Arg =
    | FnArg(routine: Routine)                  // typeof x === "function"
    | ArrayArg(elems: seq<Option<Value>>)      // an Array; None marks a hole
    | ObjectArg(entries: seq<(string, Value)>) // any other object: its own enumerable properties, in enumeration order
    | NullishArg                               // undefined or null

  /** The three forEach implementations a Generator can hold. */
  datatype Producer =
    | FromFunction(params: seq<Value>, body: Routine)
    | FromArray(elems: seq<Option<Value>>)
    | FromObject(entries: seq<(string, Value)>)

  /** An array's elements, holes skipped. */
  function Present(elems: seq<Option<Value>>): (r: seq<Value>)
    ensures |r| <= |elems|
    decreases |elems|
  {
    if elems == [] then []
    else (if elems[0].Some? then [elems[0].value] else []) + Present(elems[1..])
  }

  lemma {:induction false} PresentMembers(elems: seq<Option<Value>>, x: Value)
    ensures x in Present(elems) <==> Some(x) in elems
  {
    if elems != [] {
      PresentMembers(elems[1..], x);
      assert elems == [elems[0]] + elems[1..];
    }
  }

  /** An array without holes yields exactly its elements. */
  lemma {:induction false} PresentNoHoles(elems: seq<Option<Value>>)
    requires forall k :: 0 <= k < |elems| ==> elems[k].Some?
    ensures |Present(elems)| == |elems|
    ensures forall k :: 0 <= k < |elems| ==> Present(elems)[k] == elems[k].value
  {
    if elems != [] {
      PresentNoHoles(elems[1..]);
    }
  }

  lemma PresentStep(elems: seq<Option<Value>>, k: nat)
    requires k < |elems|
    ensures Present(elems[k..]) ==
      (if elems[k].Some? then [elems[k].value] else []) + Present(elems[k + 1..])
  {
    assert elems[k..][0] == elems[k] && elems[k..][1..] == elems[k + 1..];
  }

  /** An object's own properties as the [key, value] arrays it yields. */
  function Pairs(entries: seq<(string, Value)>): (r: seq<Value>)
    ensures |r| == |entries|
    ensures forall k :: 0 <= k < |entries| ==> r[k] == List([Str(entries[k].0), entries[k].1])
    decreases |entries|
  {
    if entries == [] then [] else [List([Str(entries[0].0), entries[0].1])] + Pairs(entries[1..])
  }

  /** The values one drive of a producer yields. */
  function Produced(p: Producer): seq<Value>
  {
    match p
    case FromFunction(params, body) => body(params)
    case FromArray(elems) => Present(elems)
    case FromObject(entries) => Pairs(entries)
  }

  /** A hole passed in a params array reads as undefined. */
  function HoleToUndefined(x: Option<Value>): Value
  {
    if x.Some? then x.value else Undefined
  }

  /**
   * new Generator(params, source). With a routine as source, params must be a
   * routine (which then replaces source, called with no params) or an array;
   * anything else is a TypeError. Without one, params is used as a routine, an
   * array, or an object; undefined and null throw a TypeError when their
   * `constructor` is read.
   */
  function Construct(params: Arg, source: Option<Arg>): (r: Result<Producer>)
    ensures r.Err? ==> r.ex == TypeError
    ensures r.Err? <==>
      (if source.Some? && source.value.FnArg? then !params.FnArg? && !params.ArrayArg?
       else params.NullishArg?)
    ensures params.FnArg? ==> r == Ok(FromFunction([], params.routine))
    ensures source.Some? && source.value.FnArg? && params.ArrayArg? ==>
      r.Ok? && r.value.FromFunction? && r.value.body == source.value.routine &&
      |r.value.params| == |params.elems| &&
      forall k :: 0 <= k < |params.elems| ==>
        r.value.params[k] == if params.elems[k].Some? then params.elems[k].value else Undefined
    ensures !(source.Some? && source.value.FnArg?) && params.ArrayArg? ==> r == Ok(FromArray(params.elems))
    ensures !(source.Some? && source.value.FnArg?) && params.ObjectArg? ==> r == Ok(FromObject(params.entries))
  {
    if source.Some? && source.value.FnArg? then
      match params
      case FnArg(f) => Ok(FromFunction([], f))
      case ArrayArg(elems) => Ok(FromFunction(Combinators.Map(elems, HoleToUndefined), source.value.routine))
      case _ => Err(TypeError)
    else
      match params
      case FnArg(f) => Ok(FromFunction([], f))
      case ArrayArg(elems) => Ok(FromArray(elems))
      case ObjectArg(entries) => Ok(FromObject(entries))
      case NullishArg => Err(TypeError)
  }

  /** What yieldMany accepts: a Generator, or a raw value it wraps. */
  datatype Source = Gen(producer: Producer) | Raw(arg: Arg)

  /** asGenerator: a Generator is used as it is; anything else goes through the constructor. */
  function AsGenerator(s: Source): (r: Result<Producer>)
    ensures s.Gen? ==> r == Ok(s.producer)
    ensures s.Raw? && s.arg.ArrayArg? ==> r.Ok? && Produced(r.value) == Present(s.arg.elems)
    ensures s.Raw? && s.arg.ObjectArg? ==> r.Ok? && Produced(r.value) == Pairs(s.arg.entries)
    ensures s.Raw? && s.arg.NullishArg? ==> r == Err(TypeError)
  {
    match s
    case Gen(p) => Ok(p)
    case Raw(a) => Construct(a, None)
  }

  /** makeForEach_fromArray's routine: a loop over the indices that yields the present elements. */
  method DriveArray<S>(elems: seq<Option<Value>>, g: Consumer<S, Value>, st0: S) returns (st: S, c: Completion)
    ensures (st, c) == RunDrive(Present(elems), g, st0)
  {
    var d := new Drive();
    st := st0;
    var body := Normal;
    var i := 0;
    while i < |elems| && body.Normal?
      invariant 0 <= i <= |elems| && !d.stopped
      invariant body.Normal? ==>
        Feed(Present(elems), g, st0, 0) == Feed(Present(elems[i..]), g, st, d.index)
      invariant body.Abrupt? ==> Feed(Present(elems), g, st0, 0) == Fed(st, body, d.index)
    {
      PresentStep(elems, i);
      if elems[i].Some? {
        FeedCons(elems[i].value, Present(elems[i + 1..]), g, st, d.index);
        st, body := d.Yield(g, st, elems[i].value);
      } else {
        assert Present(elems[i..]) == Present(elems[i + 1..]);
      }
      i := i + 1;
    }
    assert i == |elems| && body.Normal? ==> Present(elems[i..]) == [];
    c := d.End(body);
  }

  /** makeForEach_fromObject's routine: yields [key, value] for every own property. */
  method DriveObject<S>(entries: seq<(string, Value)>, g: Consumer<S, Value>, st0: S) returns (st: S, c: Completion)
    ensures (st, c) == RunDrive(Pairs(entries), g, st0)
  {
    var d := new Drive();
    st := st0;
    var body := Normal;
    var i := 0;
    while i < |entries| && body.Normal?
      invariant 0 <= i <= |entries| && !d.stopped
      invariant body.Normal? ==>
        Feed(Pairs(entries), g, st0, 0) == Feed(Pairs(entries[i..]), g, st, d.index)
      invariant body.Abrupt? ==> Feed(Pairs(entries), g, st0, 0) == Fed(st, body, d.index)
    {
      var pair := List([Str(entries[i].0), entries[i].1]);
      assert Pairs(entries[i..]) == [pair] + Pairs(entries[i + 1..]) by {
        assert entries[i..][0] == entries[i] && entries[i..][1..] == entries[i + 1..];
      }
      FeedCons(pair, Pairs(entries[i + 1..]), g, st, d.index);
      st, body := d.Yield(g, st, pair);
      i := i + 1;
    }
    c := d.End(body);
  }

  /** forEach of a Generator: one fresh drive of its producer. */
  method ForEach<S>(p: Producer, g: Consumer<S, Value>, st0: S) returns (st: S, c: Completion)
    ensures (st, c) == RunDrive(Produced(p), g, st0)
  {
    match p
    case FromFunction(params, body) =>
      st, c := DriveValues(body(params), g, st0);
    case FromArray(elems) =>
      st, c := DriveArray(elems, g, st0);
    case FromObject(entries) =>
      st, c := DriveObject(entries, g, st0);
  }

  /** new Generator(arr).toArray(): the array's present elements in order. */
  method ArrayToArray(elems: seq<Option<Value>>) returns (result: seq<Value>)
    ensures result == Present(elems)
    ensures forall x :: x in result <==> Some(x) in elems
  {
    var c;
    result, c := DriveArray(elems, Terminal.PushConsumer(), []);
    Terminal.FeedPush(Present(elems), [], 0);
    forall x ensures x in result <==> Some(x) in elems {
      PresentMembers(elems, x);
    }
  }

  /** new Generator(arr).count(): the number of present elements. */
  method ArrayCount(elems: seq<Option<Value>>) returns (n: nat)
    ensures n == |Present(elems)|
    ensures (forall k :: 0 <= k < |elems| ==> elems[k].Some?) ==> n == |elems|
  {
    var m, c := DriveArray(elems, Terminal.CountConsumer(), 0);
    Terminal.FeedCount(Present(elems), 0, 0);
    n := m;
    if forall k :: 0 <= k < |elems| ==> elems[k].Some? {
      PresentNoHoles(elems);
    }
  }

  /** evaluated(): one drive of the source, kept in a fresh array-backed Generator. */
  method Evaluated(p: Producer) returns (q: Producer)
    ensures q.FromArray? && Present(q.elems) == Produced(p)
    ensures forall k :: 0 <= k < |q.elems| ==> q.elems[k].Some?
  {
    var snapshot, c := DriveValues(Produced(p), Terminal.PushConsumer(), []);
    Terminal.FeedPush(Produced(p), [], 0);
    var elems := Combinators.Map(snapshot, (v: Value) => Some(v));
    PresentNoHoles(elems);
    assert Present(elems) == snapshot;
    q := FromArray(elems);
  }

  // ---------------------------------------------------------------- Count and Range

  /** start, start + step, start + 2*step, ... (n values). */
  function Progression(start: int, step: int, n: nat): (r: seq<int>)
    ensures |r| == n
    ensures forall k :: 0 <= k < n ==> r[k] == start + k * step
  {
    seq(n, k => start + k * step)
  }

  lemma NextTerm(start: int, k: int, step: int)
    ensures start + k * step + step == start + (k + 1) * step
  {
  }

  /**
   * Count(start, step): the Generator's routine loops forever, yielding `i` and then
   * adding `step`; `i` is declared outside the routine, so it is shared by every
   * drive of the same Generator.
   */
  class Counter {
    var i: int
    const step: int

    constructor (start: int, step: Option<int>)
      ensures i == start
      ensures this.step == if step.None? then 1 else step.value
    {
      i := start;
      this.step := if step.None? then 1 else step.value;
    }

    /**
     * One drive of the Count under a consumer that stops it by index bound: the
     * consumer sees i, i + step, ... and `i` ends advanced once per value the
     * consumer returned from; the value it threw on is not added past.
     */
    method Drive<S(!new)>(g: Consumer<S, int>, st0: S, bound: nat) returns (st: S, c: Completion)
      requires StopsBy(g, bound)
      modifies this
      ensures var f := Feed(Progression(old(i), step, bound + 1), g, st0, 0);
        st == f.state && c == Catch(f.completion) && f.completion.Abrupt? &&
        i == old(i) + f.index * step
    {
      ghost var i0 := i;
      ghost var p := Progression(i, step, bound + 1);
      var d := new Drive();
      st := st0;
      var body := Normal;
      while true
        invariant !d.stopped && d.index <= bound
        invariant i == p[d.index]
        invariant Feed(p, g, st0, 0) == Feed(p[d.index..], g, st, d.index)
        decreases bound - d.index
      {
        ghost var k := d.index;
        FeedStep(p, k, g, st, k);
        assert g(st, i, bound).1.Abrupt?;
        st, body := d.Yield(g, st, i);
        if body.Abrupt? {
          break;
        }
        NextTerm(i0, k, step);
        i := i + step;
      }
      c := d.End(body);
    }

    /**
     * Count(...).zipWithArray(arr, z).toArray(): zipWithArray's consumer stops the
     * endless Count once the index reaches |arr|, so |arr| values are zipped and
     * the shared counter moves |arr| steps on.
     */
    method ZipToArray<U, V(!new)>(arr: seq<U>, z: (int, U) -> V) returns (out: seq<V>)
      modifies this
      ensures |out| == |arr|
      ensures forall k :: 0 <= k < |arr| ==> out[k] == z(old(i) + k * step, arr[k])
      ensures i == old(i) + |arr| * step
    {
      Combinators.ZipStopsBy(arr, z);
      CountZip(i, step, arr, z);
      var c;
      out, c := Drive(Combinators.ZipConsumer(arr, z), [], |arr|);
    }

    /**
     * Count(...).take(n).toArray(): the next n values of the progression; the
     * counter is left n steps further on.
     */
    method TakeToArray(n: int) returns (out: seq<int>)
      modifies this
      ensures out == Progression(old(i), step, Combinators.Max(n, 0))
      ensures i == old(i) + Combinators.Max(n, 0) * step
    {
      var bound := Combinators.Max(n, 0);
      ghost var p := Progression(i, step, bound + 1);
      var c;
      out, c := Drive(Combinators.TakeConsumer(n), [], bound);
      Combinators.FeedTake(p, n, [], 0);
      assert [] + Combinators.Take(p, n) == p[..bound];
    }
    /**
     * Count(...).take(len).take(n).toArray(), which is Range(start, len).take(n)
     * when the step is 1. The stop() take(n) calls on its (n+1)-th value passes
     * through take(len)'s Yield and is caught by the Count's own drive before `i`
     * moves past that value, so the counter moves min(n, len) steps on.
     */
    method TakeTakeToArray(len: int, n: int) returns (out: seq<int>)
      modifies this
      ensures var m := Combinators.Min(Combinators.Max(n, 0), Combinators.Max(len, 0));
        out == Progression(old(i), step, m) && i == old(i) + m * step
    {
      var bound := Combinators.Max(len, 0);
      var h := Combinators.TakeConsumer(n);
      ghost var p := Progression(i, step, bound + 1);
      Combinators.TakeLiftStopsBy(len, h);
      var st, c := Drive(Combinators.TakeLift(len, h), ([], 0), bound);
      out := st.0;
      Combinators.FeedTakeLift(p, len, h, [], 0);
      TakeOfTake(p, len, n);
    }
  }

  /** take(n) of the first len values of the progression, fed to take(n)'s consumer. */
  lemma TakeOfTake(p: seq<int>, len: int, n: int)
    requires |p| == Combinators.Max(len, 0) + 1
    ensures var m := Combinators.Min(Combinators.Max(n, 0), Combinators.Max(len, 0));
      var d := Feed(Combinators.Take(p, len), Combinators.TakeConsumer(n), [], 0);
      d.state == p[..m] && d.index == m
  {
    var q := Combinators.Take(p, len);
    Combinators.FeedTake(q, n, [], 0);
    assert [] + Combinators.Take(q, n) == Combinators.Take(q, n);
  }

  /** zipWithArray's consumer fed the progression from start: |arr| values zipped, then stop(). */
  lemma CountZip<U, V>(start: int, step: int, arr: seq<U>, z: (int, U) -> V)
    ensures var f := Feed(Progression(start, step, |arr| + 1), Combinators.ZipConsumer(arr, z), [], 0);
      f.index == |arr| && |f.state| == |arr| &&
      forall k :: 0 <= k < |arr| ==> f.state[k] == z(start + k * step, arr[k])
  {
    var p := Progression(start, step, |arr| + 1);
    Combinators.FeedZip(p, arr, z, [], 0);
    assert arr[0..] == arr;
    assert [] + Combinators.ZipWithArray(p, arr, z) == Combinators.ZipWithArray(p, arr, z);
  }

  /** Count(start, step).take(n).toArray() on a fresh Count: [start + k*step | k < n]. */
  method CountTake(start: int, step: Option<int>, n: int) returns (out: seq<int>)
    ensures |out| == Combinators.Max(n, 0)
    ensures forall k :: 0 <= k < |out| ==>
      out[k] == start + k * (if step.None? then 1 else step.value)
  {
    var count := new Counter(start, step);
    out := count.TakeToArray(n);
  }

  /**
   * Range(start, len) is Count(start, 1).take(len). Its first drive gives
   * start .. start+len-1; a second drive of the same Range resumes the shared
   * counter and gives the next len numbers.
   */
  method RangeDrivenTwice(start: int, len: int) returns (first: seq<int>, second: seq<int>)
    ensures |first| == |second| == Combinators.Max(len, 0)
    ensures forall k :: 0 <= k < |first| ==> first[k] == start + k
    ensures forall k :: 0 <= k < |second| ==> second[k] == start + Combinators.Max(len, 0) + k
  {
    var count := new Counter(start, None);
    first := count.TakeToArray(len);
    second := count.TakeToArray(len);
  }

  /**
   * r = Range(start, len); r.take(n).toArray(), then r.toArray(): the second drive
   * resumes at start + min(n, len), where take(n)'s stop() left the counter.
   */
  method RangeTakeThenDrive(start: int, len: int, n: int) returns (first: seq<int>, second: seq<int>)
    ensures var m := Combinators.Min(Combinators.Max(n, 0), Combinators.Max(len, 0));
      |first| == m && forall k :: 0 <= k < m ==> first[k] == start + k
    ensures var m := Combinators.Min(Combinators.Max(n, 0), Combinators.Max(len, 0));
      |second| == Combinators.Max(len, 0) && forall k :: 0 <= k < |second| ==> second[k] == start + m + k
  {
    var count := new Counter(start, None);
    first := count.TakeTakeToArray(len, n);
    second := count.TakeToArray(len);
  }

  /**
   * evaluated() decouples re-reads from a routine with side effects: the
   * evaluated copy of Count(start, step).take(n) gives the same values on every
   * drive, while the original moves on.
   */
  method EvaluatedCount(start: int, step: int, n: nat) returns (again1: seq<Value>, again2: seq<Value>, original: seq<int>)
    ensures again1 == again2
    ensures |again1| == n && forall k :: 0 <= k < n ==> again1[k] == Num(start + k * step)
    ensures |original| == n && forall k :: 0 <= k < n ==> original[k] == start + n * step + k * step
  {
    var count := new Counter(start, Some(step));
    var snapshot := count.TakeToArray(n);
    var values := Combinators.Map(snapshot, (x: int) => Num(x));
    var q := Evaluated(FromFunction([], _ => values));
    assert Present(q.elems) == values;
    again1 := ArrayToArray(q.elems);
    again2 := ArrayToArray(q.elems);
    original := count.TakeToArray(n);
  }
}
