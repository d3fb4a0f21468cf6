/**
 * The PoH service: a producer loop that drives the recorder at the cadence
 * its `Config` selects, and the flag through which it reports that it has
 * stopped.
 *
 * The loop is described by the calls it makes on the recorder. What the
 * recorder answers to each call, and what the exit flag holds at each
 * check, are inputs: `replies(k)` answers the k-th call, and `exitReads`
 * lists the successive readings of the flag. A run that uses up all the
 * readings without stopping is cut off there (`Running`).
 */
module PohService {
  import opened Wrappers
  import opened PohRecorder

  const NUM_TICKS_PER_SECOND: nat := 10

  /**
   * `Tick(n)` rolls hashes at full speed, a tick every `n` hashes;
   * `Sleep(ms)` sleeps between ticks (the low-power mode).
   */
  datatype Config = Tick(hashesPerTick: nat) | Sleep(millis: nat)

  /** The default cadence: sleep for the length of one tick. */
  function DefaultConfig(): (c: Config)
    ensures c.Sleep?
    ensures c.millis * NUM_TICKS_PER_SECOND == 1000
  {
    Sleep(1000 / NUM_TICKS_PER_SECOND)
  }

  /** The error a recorder call reports; its kinds are not modelled. */
  datatype RecorderError = RecorderError(code: nat)

  datatype Reply = Done | Error(error: RecorderError)

  /** `Exited` is the loop's `Ok(())`; `Failed` its early error return. */
  datatype Outcome = Exited | Failed(error: RecorderError) | Running

  /** The calls a run made, how it ended, and how many loop iterations it started. */
  datatype Run = Run(calls: seq<Call>, outcome: Outcome, iterations: nat)

  /** `k` `hash` calls. */
  function Hashes(k: nat): (r: seq<Call>)
    ensures |r| == k
  {
    if k == 0 then [] else [HashCall] + Hashes(k - 1)
  }

  /** Hash calls per iteration: `for _ in 1..num` runs `num - 1` times, and none when `num` is 0. */
  function IdleHashes(c: Config): nat
  {
    match c
    case Tick(n) => if n > 0 then n - 1 else 0
    case Sleep(_) => 0
  }

  /** The calls of one loop iteration when none fails. */
  function Iteration(c: Config): seq<Call>
  {
    Hashes(IdleHashes(c)) + [TickCall]
  }

  /** The calls of `k` complete iterations. */
  function Schedule(c: Config, k: nat): seq<Call>
  {
    if k == 0 then [] else Iteration(c) + Schedule(c, k - 1)
  }

  /**
   * Makes `calls` in order, numbered from `k`, until one fails: returns how
   * many were made and the error that stopped them, if any.
   */
  function Perform(calls: seq<Call>, replies: nat -> Reply, k: nat): (r: (nat, Option<RecorderError>))
    ensures r.0 <= |calls|
    ensures r.1.None? ==> r.0 == |calls| && forall j | k <= j < k + |calls| :: replies(j).Done?
    ensures r.1.Some? ==> 0 < r.0 && replies(k + r.0 - 1) == Error(r.1.value)
    ensures r.1.Some? ==> forall j | k <= j < k + r.0 - 1 :: replies(j).Done?
    decreases |calls|
  {
    if |calls| == 0 then (0, None)
    else match replies(k)
      case Error(e) => (1, Some(e))
      case Done =>
        var (n, err) := Perform(calls[1..], replies, k + 1);
        (n + 1, err)
  }

  /**
   * `tick_producer`: each iteration makes its idle `hash` calls (or
   * sleeps), then one `tick` call, then reads the exit flag; any failing
   * call ends the loop with that error at once.
   */
  function TickProducer(c: Config, replies: nat -> Reply, exitReads: seq<bool>, k: nat): (run: Run)
    ensures run.iterations <= |exitReads|
    ensures run.outcome.Running? ==> run.iterations == |exitReads|
    ensures !run.outcome.Running? ==> 0 < run.iterations
    ensures run.outcome.Running? ==> forall j | 0 <= j < |exitReads| :: !exitReads[j]
    decreases |exitReads|
  {
    if |exitReads| == 0 then Run([], Running, 0)
    else
      var it := Iteration(c);
      var p := Perform(it, replies, k);
      if p.1.Some? then
        Run(it[..p.0], Failed(p.1.value), 1)
      else if exitReads[0] then
        Run(it, Exited, 1)
      else
        var rest := TickProducer(c, replies, exitReads[1..], k + |it|);
        Run(it + rest.calls, rest.outcome, rest.iterations + 1)
  }

  /**
   * The calls of `run` follow the cadence, and the flag was read only
   * after each completed iteration's tick: a run that returned `Ok` read it
   * true last, a run cut off read it false every time, and a failed run
   * stopped inside its last iteration.
   */
  predicate FollowsSchedule(run: Run, c: Config, exitReads: seq<bool>)
  {
    && run.iterations <= |exitReads|
    && run.calls <= Schedule(c, run.iterations)
    && (forall j | 0 <= j < run.iterations - 1 :: !exitReads[j])
    && (run.outcome.Exited? ==> 0 < run.iterations && exitReads[run.iterations - 1] && run.calls == Schedule(c, run.iterations))
    && (run.outcome.Running? ==> run.iterations == |exitReads| && run.calls == Schedule(c, run.iterations)
                                 && forall j | 0 <= j < |exitReads| :: !exitReads[j])
    && (run.outcome.Failed? ==> 0 < run.iterations && Schedule(c, run.iterations - 1) < run.calls)
  }

  /**
   * The calls of `run`, numbered from `k`, all succeeded, except that a
   * failed run's last call failed with the run's error.
   */
  predicate StopsAtFailure(run: Run, replies: nat -> Reply, k: nat)
  {
    && (run.outcome.Failed? ==> 0 < |run.calls| && replies(k + |run.calls| - 1) == Error(run.outcome.error))
    && forall j | k <= j < k + |run.calls| && !(run.outcome.Failed? && j == k + |run.calls| - 1) :: replies(j).Done?
  }

  /** The producer keeps to its cadence and to its exit checks. */
  lemma {:induction false} ProducerFollowsSchedule(c: Config, replies: nat -> Reply, exitReads: seq<bool>, k: nat)
    ensures FollowsSchedule(TickProducer(c, replies, exitReads, k), c, exitReads)
    decreases |exitReads|
  {
    if |exitReads| == 0 {
    } else if Perform(Iteration(c), replies, k).1.Some? || exitReads[0] {
      FirstIteration(c, replies, exitReads, k);
    } else {
      var rest := TickProducer(c, replies, exitReads[1..], k + |Iteration(c)|);
      ProducerFollowsSchedule(c, replies, exitReads[1..], k + |Iteration(c)|);
      ContinuedRun(c, replies, exitReads, k);
      ShiftSchedule(c, exitReads, rest);
    }
  }

  /** A failing call is the producer's last, and every earlier call succeeded. */
  lemma {:induction false} ProducerStopsAtFailure(c: Config, replies: nat -> Reply, exitReads: seq<bool>, k: nat)
    ensures StopsAtFailure(TickProducer(c, replies, exitReads, k), replies, k)
    decreases |exitReads|
  {
    if |exitReads| == 0 {
    } else if Perform(Iteration(c), replies, k).1.Some? || exitReads[0] {
      FirstIteration(c, replies, exitReads, k);
    } else {
      var rest := TickProducer(c, replies, exitReads[1..], k + |Iteration(c)|);
      ProducerStopsAtFailure(c, replies, exitReads[1..], k + |Iteration(c)|);
      ContinuedRun(c, replies, exitReads, k);
      ShiftStops(Iteration(c), rest, replies, k);
    }
  }

  /** The loop's first iteration, when a call fails or the flag is set after it. */
  lemma FirstIteration(c: Config, replies: nat -> Reply, exitReads: seq<bool>, k: nat)
    requires |exitReads| > 0
    requires Perform(Iteration(c), replies, k).1.Some? || exitReads[0]
    ensures FollowsSchedule(TickProducer(c, replies, exitReads, k), c, exitReads)
    ensures StopsAtFailure(TickProducer(c, replies, exitReads, k), replies, k)
  {
    var it := Iteration(c);
    var p := Perform(it, replies, k);
    var run := TickProducer(c, replies, exitReads, k);
    assert Schedule(c, 1) == it by {
      assert it + [] == it;
    }
    if p.1.Some? {
      assert run.calls == it[..p.0] && run.outcome == Failed(p.1.value);
    } else {
      assert run.calls == it && run.outcome == Exited;
    }
  }

  /** A first iteration that succeeded without the flag set is followed by the rest of the loop. */
  lemma ContinuedRun(c: Config, replies: nat -> Reply, exitReads: seq<bool>, k: nat)
    requires |exitReads| > 0 && Perform(Iteration(c), replies, k).1.None? && !exitReads[0]
    ensures var rest := TickProducer(c, replies, exitReads[1..], k + |Iteration(c)|);
      TickProducer(c, replies, exitReads, k) == Run(Iteration(c) + rest.calls, rest.outcome, rest.iterations + 1)
  {
  }

  /** One completed iteration with the flag read false, followed by a run that keeps the cadence. */
  lemma ShiftSchedule(c: Config, exitReads: seq<bool>, rest: Run)
    requires |exitReads| > 0 && !exitReads[0]
    requires FollowsSchedule(rest, c, exitReads[1..])
    ensures FollowsSchedule(Run(Iteration(c) + rest.calls, rest.outcome, rest.iterations + 1), c, exitReads)
  {
    var it := Iteration(c);
    var run := Run(it + rest.calls, rest.outcome, rest.iterations + 1);
    assert Schedule(c, run.iterations) == it + Schedule(c, rest.iterations);
    PrefixOfConcat(it, rest.calls, Schedule(c, rest.iterations));
    forall j | 0 <= j < run.iterations - 1 ensures !exitReads[j] {
      if j > 0 {
        assert exitReads[j] == exitReads[1..][j - 1];
      }
    }
    if rest.outcome.Running? {
      forall j | 0 <= j < |exitReads| ensures !exitReads[j] {
        if j > 0 {
          assert exitReads[j] == exitReads[1..][j - 1];
        }
      }
    }
    if rest.outcome.Exited? {
      assert exitReads[run.iterations - 1] == exitReads[1..][rest.iterations - 1];
    }
    if rest.outcome.Failed? {
      assert Schedule(c, run.iterations - 1) == it + Schedule(c, rest.iterations - 1);
      PrefixOfConcat(it, Schedule(c, rest.iterations - 1), rest.calls);
    }
  }

  /** Calls that all succeeded, followed by a run that stops at its failure. */
  lemma ShiftStops(it: seq<Call>, rest: Run, replies: nat -> Reply, k: nat)
    requires forall j | k <= j < k + |it| :: replies(j).Done?
    requires StopsAtFailure(rest, replies, k + |it|)
    ensures StopsAtFailure(Run(it + rest.calls, rest.outcome, rest.iterations + 1), replies, k)
  {
    var run := Run(it + rest.calls, rest.outcome, rest.iterations + 1);
    forall j | k <= j < k + |run.calls| && !(run.outcome.Failed? && j == k + |run.calls| - 1)
      ensures replies(j).Done?
    {
      if j >= k + |it| {
        assert k + |it| <= j < (k + |it|) + |rest.calls|;
      }
    }
  }

  /** Extending two sequences by the same prefix keeps them (strictly) ordered as prefixes. */
  lemma PrefixOfConcat(a: seq<Call>, b: seq<Call>, c: seq<Call>)
    ensures b <= c ==> a + b <= a + c
    ensures b < c ==> a + b < a + c
  {
    if b <= c {
      assert (a + c)[..|a + b|] == a + c[..|b|];
    }
  }

  /** The cadence: `k` iterations make `k` ticks, each after the configured number of hashes. */
  lemma {:induction false} ScheduleCounts(c: Config, k: nat)
    ensures TickCallCount(Schedule(c, k)) == k
    ensures HashCallCount(Schedule(c, k)) == k * IdleHashes(c)
  {
    if k > 0 {
      IterationCounts(c);
      ScheduleCounts(c, k - 1);
      CountsAppend(Iteration(c), Schedule(c, k - 1));
    }
  }

  /** One iteration: `max(n - 1, 0)` hashes for `Tick(n)`, none for `Sleep`, then one tick, last. */
  lemma IterationCounts(c: Config)
    ensures TickCallCount(Iteration(c)) == 1 && HashCallCount(Iteration(c)) == IdleHashes(c)
    ensures Iteration(c)[|Iteration(c)| - 1] == TickCall
    ensures c.Sleep? ==> Iteration(c) == [TickCall]
  {
    HashesCounts(IdleHashes(c));
    CountsAppend(Hashes(IdleHashes(c)), [TickCall]);
  }

  lemma {:induction false} HashesCounts(k: nat)
    ensures TickCallCount(Hashes(k)) == 0 && HashCallCount(Hashes(k)) == k
  {
    if k > 0 {
      HashesCounts(k - 1);
      assert ([HashCall] + Hashes(k - 1))[1..] == Hashes(k - 1);
    }
  }

  /**
   * When the flag is already set as the loop starts, the producer makes
   * exactly one iteration, a single tick, and returns `Ok` unless a call
   * failed.
   */
  lemma ExitAlreadySet(c: Config, replies: nat -> Reply, exitReads: seq<bool>, k: nat)
    requires |exitReads| > 0 && exitReads[0]
    ensures var run := TickProducer(c, replies, exitReads, k);
      && run.iterations == 1
      && (run.outcome.Exited? <==> forall j | k <= j < k + |Iteration(c)| :: replies(j).Done?)
      && (run.outcome.Exited? ==> run.calls == Iteration(c) && TickCallCount(run.calls) == 1)
  {
    IterationCounts(c);
    ProducerFollowsSchedule(c, replies, exitReads, k);
    ProducerStopsAtFailure(c, replies, exitReads, k);
    assert Schedule(c, 1) == Iteration(c) + [];
  }

  /**
   * Once the flag reads true at some check, the producer has stopped by
   * then: it starts no iteration after that check.
   */
  lemma ExitStopsProducer(c: Config, replies: nat -> Reply, exitReads: seq<bool>, k: nat, m: nat)
    requires m < |exitReads| && exitReads[m]
    ensures var run := TickProducer(c, replies, exitReads, k);
      run.outcome != Running && run.iterations <= m + 1
  {
    ProducerFollowsSchedule(c, replies, exitReads, k);
  }

  /** The thread's result once the producer has returned. */
  function JoinResult(run: Run): Option<Result<(), RecorderError>>
  {
    match run.outcome
    case Exited => Some(Success(()))
    case Failed(e) => Some(Failure(e))
    case Running => None
  }

  /**
   * `PohService::new`: the flag starts false; the thread runs the producer
   * from the recorder's first call and then sets the flag, whatever the
   * producer returned. The flag is also the one the producer reads for
   * exit. The result pairs the producer's run with the flag's value.
   */
  function Spawn(c: Config, replies: nat -> Reply, exitReads: seq<bool>): (r: (Run, bool))
    ensures r.0 == TickProducer(c, replies, exitReads, 0)
    ensures JoinResult(r.0).Some? ==> r.1
    ensures r.0.outcome.Failed? ==> JoinResult(r.0) == Some(Failure(r.0.outcome.error)) && r.1
    ensures r.0.outcome.Running? ==> !r.1
  {
    var run := TickProducer(c, replies, exitReads, 0);
    (run, !run.outcome.Running?)
  }

  /**
   * Once the exit flag reads true, the thread finishes: its completion
   * flag is set, and the producer ran no iteration past that reading.
   */
  lemma SpawnFinishesAfterExit(c: Config, replies: nat -> Reply, exitReads: seq<bool>, m: nat)
    requires m < |exitReads| && exitReads[m]
    ensures var r := Spawn(c, replies, exitReads);
      r.1 && r.0.iterations <= m + 1
  {
    ExitStopsProducer(c, replies, exitReads, 0, m);
  }

  // ---------------------------------------------------------------------
  // Ticks and recorded entries
  // ---------------------------------------------------------------------

  /** The producer's share of an interleaving: the calls other than `record`. */
  function ProducerCalls(calls: seq<Call>): seq<Call>
  {
    if |calls| == 0 then []
    else if calls[0].RecordCall? then ProducerCalls(calls[1..])
    else [calls[0]] + ProducerCalls(calls[1..])
  }

  lemma {:induction false} ProducerCallsCounts(calls: seq<Call>)
    ensures HashCallCount(ProducerCalls(calls)) == HashCallCount(calls)
    ensures TickCallCount(ProducerCalls(calls)) == TickCallCount(calls)
  {
    if |calls| > 0 {
      ProducerCallsCounts(calls[1..]);
      if !calls[0].RecordCall? {
        CountsAppend([calls[0]], ProducerCalls(calls[1..]));
        assert [calls[0]][1..] == [];
      }
    }
  }

  /**
   * One tick period of `Tick(n)`, with `record` calls from other threads
   * interleaved anywhere before the tick: the tick entry carries at most
   * `max(n, 1)` hashes, every other entry at least one, and the tick's
   * hashes plus each other entry's hashes beyond its first add up to
   * exactly `max(n, 1)`.
   */
  lemma TickPeriod(n: nat, r: Recorder, calls: seq<Call>)
    requires r.numHashes == 0
    requires ProducerCalls(calls) == Iteration(Tick(n))
    requires |calls| > 0 && calls[|calls| - 1] == TickCall
    requires RecordsCarryTransactions(calls)
    ensures var r' := Apply(r, calls);
      var es := r'.entries[|r.entries|..];
      var period := if n > 0 then n else 1;
      && r'.numHashes == 0
      && 0 < |es| && es[|es| - 1].IsTick() && es[|es| - 1].numHashes <= period
      && (forall i | 0 <= i < |es| - 1 :: !es[i].IsTick() && es[i].numHashes >= 1)
      && Balance(es) == period
  {
    var body := calls[..|calls| - 1];
    assert calls == body + [TickCall];
    IterationCounts(Tick(n));
    ProducerCallsCounts(calls);
    CountsAppend(body, [TickCall]);
    assert RecordsCarryTransactions(body) by {
      forall i | 0 <= i < |body| ensures body[i].RecordCall? ==> |body[i].transactions| > 0 {
        assert body[i] == calls[i];
      }
    }
    var mid := Apply(r, body);
    ApplyAppend(r, body, [TickCall]);
    var r' := Apply(r, calls);
    assert r' == Step(mid, TickCall);
    RecordEntries(r, body);
    CounterBound(r, body);
    HashAccounting(r, calls);
    var es := r'.entries[|r.entries|..];
    forall i | 0 <= i < |es| - 1 ensures !es[i].IsTick() && es[i].numHashes >= 1 {
      assert es[i] == mid.entries[|r.entries| + i];
    }
  }
}
