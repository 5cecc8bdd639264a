/** Bounded look-ahead validation: a worker pool that must yield what one worker would. */
module ValidationWorkers {

  /** The answer of one validation: its failures, or an exception. */
  datatype Outcome<+F> = Done(failures: F) | Raises

  /** What the consumer of the generator sees: the yielded pairs, and whether it then raised. */
  datatype Trace<+T, +F> = Trace(given: seq<(T, F)>, raised: bool)

  /** One worker: validate and yield in order, up to the first exception. */
  function Sequential<T, F>(tasks: seq<T>, validate: T -> Outcome<F>): Trace<T, F> {
    if tasks == [] then Trace([], false)
    else
      match validate(tasks[0])
      case Raises => Trace([], true)
      case Done(f) =>
        var rest := Sequential(tasks[1..], validate);
        Trace([(tasks[0], f)] + rest.given, rest.raised)
  }

  /** `given` holds the results of the first `n` tasks, none of which raised. */
  ghost predicate Yielded<T(!new), F(!new)>(tasks: seq<T>, validate: T -> Outcome<F>, n: nat, given: seq<(T, F)>)
    requires n <= |tasks|
  {
    |given| == n && forall i | 0 <= i < n :: validate(tasks[i]) == Done(given[i].1) && given[i].0 == tasks[i]
  }

  lemma {:induction false} SequentialAfter<T(!new), F(!new)>(tasks: seq<T>, validate: T -> Outcome<F>, n: nat, given: seq<(T, F)>)
    requires n <= |tasks| && Yielded(tasks, validate, n, given)
    ensures var rest := Sequential(tasks[n..], validate);
      Sequential(tasks, validate) == Trace(given + rest.given, rest.raised)
  {
    if n == 0 {
      assert tasks[0..] == tasks && given + Sequential(tasks[n..], validate).given == Sequential(tasks[n..], validate).given;
    } else {
      SequentialAfter(tasks[1..], validate, n - 1, given[1..]);
      assert tasks[1..][n - 1..] == tasks[n..];
      assert given == [(tasks[0], given[0].1)] + given[1..];
      assert given + Sequential(tasks[n..], validate).given
          == [(tasks[0], given[0].1)] + (given[1..] + Sequential(tasks[n..], validate).given);
    }
  }

  /**
   * Worker processes: they complete submitted tasks in the order of an arbitrary schedule. A task is
   * in flight from its submission until its result is collected.
   */
  class Pool<T(!new), F(!new)> {
    const validate: T -> Outcome<F>
    const schedule: seq<nat>
    var submitted: seq<T>
    var finished: map<nat, Outcome<F>>
    var clock: nat
    ghost var collected: set<nat>
    ghost var inFlight: nat
    ghost var peak: nat

    ghost predicate Valid()
      reads this
    {
      && (forall id | id in finished :: id < |submitted| && finished[id] == validate(submitted[id]))
      && (forall id | id in collected :: id < |submitted|)
      && |collected| + inFlight == |submitted| && inFlight <= peak
    }

    constructor (validate: T -> Outcome<F>, schedule: seq<nat>)
      ensures Valid() && submitted == [] && peak == 0 && this.validate == validate
    {
      this.validate, this.schedule := validate, schedule;
      submitted, finished, clock := [], map[], 0;
      collected, inFlight, peak := {}, 0, 0;
    }

    method Submit(task: T) returns (id: nat)
      requires Valid()
      modifies this`submitted, this`inFlight, this`peak
      ensures Valid() && submitted == old(submitted) + [task] && id == |old(submitted)|
      ensures inFlight == old(inFlight) + 1 && peak == if inFlight > old(peak) then inFlight else old(peak)
    {
      id := |submitted|;
      submitted := submitted + [task];
      inFlight := inFlight + 1;
      peak := if inFlight > peak then inFlight else peak;
    }

    /** Blocks until task `id` is done; any other tasks may complete before it. */
    method Result(id: nat) returns (r: Outcome<F>)
      requires Valid() && id < |submitted| && id !in collected
      modifies this`finished, this`clock, this`collected, this`inFlight
      ensures Valid() && r == validate(submitted[id])
      ensures collected == old(collected) + {id} && inFlight == old(inFlight) - 1
    {
      while id !in finished && clock < |schedule|
        invariant Valid() && collected == old(collected) && inFlight == old(inFlight)
        decreases |schedule| - clock
      {
        var other := schedule[clock];
        clock := clock + 1;
        if other < |submitted| {
          finished := finished[other := validate(submitted[other])];
        }
      }
      if id !in finished {
        finished := finished[id := validate(submitted[id])];
      }
      r := finished[id];
      MissingOne(collected, id, |submitted|);
      collected := collected + {id};
      inFlight := inFlight - 1;
    }
  }

  /** A set of numbers below `n` that misses one of them has fewer than `n` elements. */
  lemma MissingOne(s: set<nat>, id: nat, n: nat)
    requires id < n && id !in s && forall i | i in s :: i < n
    ensures |s| < n
  {
    BelowSize(s + {id}, n);
  }

  lemma {:induction false} BelowSize(s: set<nat>, n: nat)
    requires forall i | i in s :: i < n
    ensures |s| <= n
  {
    if n == 0 {
      assert s == {};
    } else {
      BelowSize(s - {n - 1}, n - 1);
    }
  }

  datatype Queued<T> = Queued(task: T, id: nat)

  /** The window holds the tasks right after the collected ones, in order, and they are the pool's latest. */
  ghost predicate Window<T(!new), F(!new)>(tasks: seq<T>, pool: Pool<T, F>, pending: seq<Queued<T>>, n: nat)
    reads pool
  {
    && pool.Valid() && pool.submitted <= tasks && n + |pending| == |pool.submitted|
    && (forall id :: id in pool.collected <==> 0 <= id < n) && |pool.collected| == n
    && forall k | 0 <= k < |pending| :: pending[k] == Queued(tasks[n + k], n + k)
  }

  method FillWindow<T(!new), F(!new)>(tasks: seq<T>, workers: nat, pool: Pool<T, F>) returns (pending: seq<Queued<T>>)
    requires pool.Valid() && pool.submitted == [] && pool.peak == 0
    modifies pool
    ensures Window(tasks, pool, pending, 0) && pool.peak <= 2 * workers
    ensures |pending| <= 2 * workers && (|pending| < |tasks| ==> |pending| == 2 * workers) && pool.peak == |pending|
  {
    pending := [];
    NoneCollected(pool.collected);
    while |pending| < 2 * workers && |pending| < |tasks|
      invariant |pending| <= 2 * workers && |pending| <= |tasks| && pool.peak == |pending|
      invariant Window(tasks, pool, pending, 0)
    {
      var id := pool.Submit(tasks[|pending|]);
      pending := pending + [Queued(tasks[|pending|], id)];
    }
  }

  lemma NoneCollected(s: set<nat>)
    requires forall id | id in s :: id < 0
    ensures s == {}
  {
  }

  /** Waits for the first task of the window. */
  method CollectFirst<T(!new), F(!new)>(tasks: seq<T>, pool: Pool<T, F>, pending: seq<Queued<T>>, ghost n: nat) returns (rest: seq<Queued<T>>, r: Outcome<F>)
    requires Window(tasks, pool, pending, n) && pending != []
    modifies pool
    ensures Window(tasks, pool, rest, n + 1) && rest == pending[1..] && pool.submitted == old(pool.submitted) && pool.peak == old(pool.peak)
    ensures pending[0].task == tasks[n] && r == pool.validate(tasks[n])
  {
    assert pending[0] == Queued(tasks[n], n);
    r := pool.Result(pending[0].id);
    rest := pending[1..];
  }

  /** Submits the task behind the window. */
  method Refill<T(!new), F(!new)>(tasks: seq<T>, pool: Pool<T, F>, pending: seq<Queued<T>>, ghost n: nat, next: nat) returns (more: seq<Queued<T>>)
    requires Window(tasks, pool, pending, n) && next == n + |pending| && next < |tasks|
    modifies pool
    ensures Window(tasks, pool, more, n) && |more| == |pending| + 1
    ensures pool.peak == if |more| > old(pool.peak) then |more| else old(pool.peak)
  {
    var id := pool.Submit(tasks[next]);
    more := pending + [Queued(tasks[next], id)];
  }

  /** The look-ahead window refines the sequential loop for every schedule of completions, with at most `2 * workers` tasks in flight at any time. */
  method ValidationResults<T(!new), F(!new)>(tasks: seq<T>, workers: nat, pool: Pool<T, F>) returns (t: Trace<T, F>)
    requires workers > 1 && pool.Valid() && pool.submitted == [] && pool.peak == 0
    modifies pool
    ensures t == Sequential(tasks, pool.validate)
    ensures pool.submitted <= tasks && (!t.raised ==> pool.submitted == tasks)
    ensures pool.peak == (if |tasks| < 2 * workers then |tasks| else 2 * workers) && |pool.submitted| <= |t.given| + 2 * workers
  {
    hide Sequential;
    var pending := FillWindow(tasks, workers, pool);
    var next: nat := |pending|;
    var given: seq<(T, F)> := [];
    while pending != []
      invariant next <= |tasks| && |given| <= |tasks| && next == |given| + |pending|
      invariant Window(tasks, pool, pending, |given|) && Yielded(tasks, pool.validate, |given|, given)
      invariant pool.peak == (if |tasks| < 2 * workers then |tasks| else 2 * workers) && |pending| <= 2 * workers
      invariant next < |tasks| ==> |pending| == 2 * workers
      decreases |tasks| - |given|
    {
      var task, r := pending[0].task, Raises;
      pending, r := CollectFirst(tasks, pool, pending, |given|);
      if r.Raises? {
        RaisedTrace(tasks, pool.validate, given);
        return Trace(given, true);
      }
      given := given + [(task, r.failures)];
      if next < |tasks| {
        pending := Refill(tasks, pool, pending, |given|, next);
        next := next + 1;
      }
    }
    WholeTrace(tasks, pool.validate, given);
    t := Trace(given, false);
  }

  lemma RaisedTrace<T(!new), F(!new)>(tasks: seq<T>, validate: T -> Outcome<F>, given: seq<(T, F)>)
    requires |given| < |tasks| && Yielded(tasks, validate, |given|, given) && validate(tasks[|given|]).Raises?
    ensures Sequential(tasks, validate) == Trace(given, true)
  {
    SequentialAfter(tasks, validate, |given|, given);
  }

  lemma WholeTrace<T(!new), F(!new)>(tasks: seq<T>, validate: T -> Outcome<F>, given: seq<(T, F)>)
    requires |given| == |tasks| && Yielded(tasks, validate, |given|, given)
    ensures Sequential(tasks, validate) == Trace(given, false)
  {
    SequentialAfter(tasks, validate, |given|, given);
  }

  /** The one-worker branch, as a loop. */
  method ValidateInOrder<T(!new), F(!new)>(tasks: seq<T>, validate: T -> Outcome<F>) returns (t: Trace<T, F>)
    ensures t == Sequential(tasks, validate)
  {
    var given: seq<(T, F)> := [];
    for i := 0 to |tasks|
      invariant Yielded(tasks, validate, i, given)
    {
      SequentialAfter(tasks, validate, i, given);
      match validate(tasks[i])
      case Raises => return Trace(given, true);
      case Done(f) => given := given + [(tasks[i], f)];
    }
    SequentialAfter(tasks, validate, |tasks|, given);
    t := Trace(given, false);
  }
}
