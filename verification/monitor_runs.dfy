/**
 Successive invocations of the idle monitor against one stored counter.

 The reference for what the counter means is `Streak`: the number of idle
 checks since the host was last seen not running or with players online,
 where checks that learned nothing are skipped. The lemmas show that, from a
 zero (or missing) counter, the stored counter is that streak modulo the
 threshold, and that a stop is issued exactly when an idle check completes a
 multiple of the threshold. The run lemmas, except FailedReadKeepsStaleCounter,
 assume every read of the counter succeeds and every write lands.
 */
module MonitorRuns {
  import opened Wrappers
  import opened Decimal
  import opened Words
  import opened Monitor

  /** The store and the number of stops after a sequence of invocations. */
  datatype RunState = RunState(stored: Stored, stops: nat)

  function Run(trace: seq<Observation>, init: Stored): RunState
    decreases |trace|
  {
    if |trace| == 0 then RunState(init, 0)
    else
      var prev := Run(trace[..|trace| - 1], init);
      var e := Step(trace[|trace| - 1], prev.stored);
      RunState(Persist(prev.stored, e), prev.stops + if e.stopIssued then 1 else 0)
  }

  /** Whether the last invocation of the trace issued a stop. */
  predicate StopsAtEnd(trace: seq<Observation>, init: Stored)
    requires |trace| > 0
  {
    Step(trace[|trace| - 1], Run(trace[..|trace| - 1], init).stored).stopIssued
  }

  /** Idle checks since the last check that saw the host not running or in use. */
  function Streak(trace: seq<Observation>): nat
    decreases |trace|
  {
    if |trace| == 0 then 0
    else ExtendStreak(Classify(trace[|trace| - 1]), Streak(trace[..|trace| - 1]))
  }

  function ExtendStreak(k: Kind, streak: nat): nat {
    match k
    case Unknown => streak
    case NotRunning => 0
    case Active => 0
    case Idle => streak + 1
  }

  /** Counting the streak modulo the threshold is what the counter state machine does. */
  lemma StateMachineCountsStreak(k: Kind, streak: nat)
    ensures NextCounter(k, streak % Threshold) == ExtendStreak(k, streak) % Threshold
  {
  }

  predicate Reliable(trace: seq<Observation>) {
    forall i :: 0 <= i < |trace| ==> !trace[i].counterReadFails
  }

  /** From a zero (or missing) counter, the stored counter is the idle streak modulo the threshold. */
  lemma {:induction false} RunTracksStreak(trace: seq<Observation>, init: Stored)
    requires StoredCounter(init) == 0
    requires Reliable(trace)
    ensures StoredCounter(Run(trace, init).stored) == Streak(trace) % Threshold
    decreases |trace|
  {
    if |trace| > 0 {
      var p, o := trace[..|trace| - 1], trace[|trace| - 1];
      assert Reliable(p) by {
        assert forall i :: 0 <= i < |p| ==> p[i] == trace[i];
      }
      RunTracksStreak(p, init);
      var prev := Run(p, init).stored;
      assert Run(trace, init).stored == Persist(prev, Step(o, prev));
      assert !o.counterReadFails;
      StepFollowsStateMachine(o, prev);
      StateMachineCountsStreak(Classify(o), Streak(p));
    }
  }

  /**
   From a zero (or missing) counter, the last invocation stops the host exactly
   when it is idle and completes a multiple of the threshold; so a stop needs at least `Threshold` idle checks
   with no not-running or in-use check in between.
   */
  lemma StopExactlyAtMultiple(trace: seq<Observation>, init: Stored)
    requires |trace| > 0
    requires StoredCounter(init) == 0
    requires Reliable(trace)
    ensures StopsAtEnd(trace, init) <==> Classify(trace[|trace| - 1]) == Idle && Streak(trace) % Threshold == 0
    ensures StopsAtEnd(trace, init) ==> Streak(trace) >= Threshold
  {
    var p, o := trace[..|trace| - 1], trace[|trace| - 1];
    assert Reliable(p) && !o.counterReadFails by {
      assert forall i :: 0 <= i < |p| ==> p[i] == trace[i];
    }
    RunTracksStreak(p, init);
    LastStepStops(trace, init);
    var idle := Classify(o) == Idle;
    if idle {
      StreakAfterIdle(trace);
    }
    StopWhenStreakWraps(StopsAtEnd(trace, init), idle, Streak(p), Streak(trace));
  }

  /** The arithmetic behind StopExactlyAtMultiple, kept apart from the trace. */
  lemma StopWhenStreakWraps(stop: bool, idle: bool, before: nat, after: nat)
    requires stop <==> idle && before % Threshold + 1 >= Threshold
    requires idle ==> after == before + 1
    ensures stop <==> idle && after % Threshold == 0
    ensures stop ==> after >= Threshold
  {
  }

  /** Whether the last invocation stops depends only on its kind and the counter the earlier ones left. */
  lemma LastStepStops(trace: seq<Observation>, init: Stored)
    requires |trace| > 0 && !trace[|trace| - 1].counterReadFails
    ensures StopsAtEnd(trace, init) <==>
              Classify(trace[|trace| - 1]) == Idle
              && StoredCounter(Run(trace[..|trace| - 1], init).stored) + 1 >= Threshold
  {
    StepFollowsStateMachine(trace[|trace| - 1], Run(trace[..|trace| - 1], init).stored);
  }

  lemma StreakAfterIdle(trace: seq<Observation>)
    requires |trace| > 0 && Classify(trace[|trace| - 1]) == Idle
    ensures Streak(trace) == Streak(trace[..|trace| - 1]) + 1
  {
  }

  /** Number of idle checks in a trace. */
  function IdleCount(trace: seq<Observation>): nat
    decreases |trace|
  {
    if |trace| == 0 then 0
    else IdleCount(trace[..|trace| - 1]) + if Classify(trace[|trace| - 1]) == Idle then 1 else 0
  }

  /** A check that sees the host not running or in use starts the streak over. */
  lemma {:induction false} StreakRestarts(before: seq<Observation>, reset: Observation, after: seq<Observation>)
    requires Classify(reset) == Active || Classify(reset) == NotRunning
    ensures Streak(before + [reset] + after) == Streak(after) <= IdleCount(after)
    decreases |after|
  {
    var t := before + [reset] + after;
    if |after| == 0 {
      assert t[..|t| - 1] == before;
    } else {
      var a := after[..|after| - 1];
      assert t[..|t| - 1] == before + [reset] + a;
      assert t[|t| - 1] == after[|after| - 1];
      StreakRestarts(before, reset, a);
    }
  }

  /** An all-idle trace from a zero counter. */
  predicate AllIdle(trace: seq<Observation>) {
    forall i :: 0 <= i < |trace| ==> Classify(trace[i]) == Idle
  }

  /**
   n idle checks in a row from a zero counter stop the host n / Threshold
   times and leave n % Threshold in the store: eleven stop nothing, the
   twelfth stops once and leaves 0.
   */
  lemma {:induction false} IdleRunStops(trace: seq<Observation>, init: Stored)
    requires StoredCounter(init) == 0
    requires Reliable(trace) && AllIdle(trace)
    ensures Run(trace, init).stops == |trace| / Threshold
    ensures StoredCounter(Run(trace, init).stored) == |trace| % Threshold
    decreases |trace|
  {
    RunTracksStreak(trace, init);
    IdleStreakIsLength(trace);
    if |trace| > 0 {
      var p := trace[..|trace| - 1];
      assert Reliable(p) && AllIdle(p) by {
        assert forall i :: 0 <= i < |p| ==> p[i] == trace[i];
      }
      IdleRunStops(p, init);
      StopExactlyAtMultiple(trace, init);
    }
  }

  lemma {:induction false} IdleStreakIsLength(trace: seq<Observation>)
    requires AllIdle(trace)
    ensures Streak(trace) == |trace|
    decreases |trace|
  {
    if |trace| > 0 {
      var p := trace[..|trace| - 1];
      assert AllIdle(p) by {
        assert forall i :: 0 <= i < |p| ==> p[i] == trace[i];
      }
      IdleStreakIsLength(p);
    }
  }

  /**
   Without the reliable-read assumption the streak no longer bounds the
   counter. A players-online check whose counter read fails reads 0, takes the
   "already 0" branch and writes nothing, so the old count survives: eleven
   idle checks, that check, and one more idle check stop the host with a
   streak of one.
   */
  lemma FailedReadKeepsStaleCounter()
    ensures var idle := Observation(FirstStatus(Some("running")), Some("203.0.113.7"), Reply(""), false);
            var busy := Observation(FirstStatus(Some("running")), Some("203.0.113.7"), Reply("a b 1"), true);
            var trace := seq(Threshold - 1, _ => idle) + [busy] + [idle];
            && Classify(idle) == Idle && Classify(busy) == Active
            && StopsAtEnd(trace, Missing)
            && Streak(trace) == 1
  {
    var idle := Observation(FirstStatus(Some("running")), Some("203.0.113.7"), Reply(""), false);
    var busy := Observation(FirstStatus(Some("running")), Some("203.0.113.7"), Reply("a b 1"), true);
    var streak := seq(Threshold - 1, _ => idle);
    var trace := streak + [busy] + [idle];
    assert Classify(idle) == Idle by {
      assert Split("", ' ') == [""];
    }
    assert Classify(busy) == Active by {
      assert DigitsValue("1") == 1 by {
        assert "1"[..0] == "";
      }
      assert "a b 1" == "a" + " " + "b" + " " + "1" + "";
      PlayerCountReadsThirdWord("a", "b", "1", "");
    }
    assert Reliable(streak) && AllIdle(streak);
    IdleRunStops(streak, Missing);
    var stale := Run(streak, Missing).stored;
    assert StoredCounter(stale) == Threshold - 1;
    var beforeLast := streak + [busy];
    assert beforeLast[..|beforeLast| - 1] == streak;
    assert Step(busy, stale) == Effects([], false);
    assert Run(beforeLast, Missing).stored == stale;
    assert trace[..|trace| - 1] == beforeLast;
    assert StopsAtEnd(trace, Missing);
    StreakRestarts(streak, busy, [idle]);
    assert Streak([idle]) == 1 by {
      assert [idle][..0] == [];
    }
  }
}
