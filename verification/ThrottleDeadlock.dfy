/**
 When can every worker thread hang in a throttle?  A waiting operation is already counted,
 so waiters can keep each other waiting.  The answers are exact: without rejections a hang is
 reachable precisely when the costs of one operation per worker can exceed the limit, and
 with r rejections, each of which decrements the unguarded counter without a matching
 increment, precisely when workers - r, taken modulo 2^64, exceeds it.
 */
module ThrottleDeadlock {
  import opened Throttle

  predicate IsWaiting(limit: nat, op: Op) {
    op.phase.Counted? && op.phase.seen > limit
  }

  /** Every worker waits in Get, a re-read would not let it through, and no operation is
      left whose completion could lower the counter. */
  ghost predicate Deadlocked(cfg: Config, s: State) {
    && Busy(s) == cfg.workers
    && s.count > cfg.limit
    && forall i :: 0 <= i < |s.ops| ==>
         && !IsInFlight(s.ops[i])
         && (BusyOf(s.ops[i]) == 1 ==> IsWaiting(cfg.limit, s.ops[i]))
  }

  /** A deadlock is for ever: every enabled step leads to a deadlocked state. */
  lemma DeadlockIsPermanent(cfg: Config, s: State, step: Step)
    requires Deadlocked(cfg, s) && Enabled(cfg, s, step)
    ensures Deadlocked(cfg, Apply(cfg, s, step))
  {
    SumStep(BusyOf, cfg, s, step);
  }

  // ---------------------------------------------------------------------------
  // What a deadlock takes

  /** All that is held in a deadlock is held by the waiting workers. */
  lemma DeadlockHeld(cfg: Config, s: State)
    requires InRange(cfg, s) && Deadlocked(cfg, s) && forall i :: 0 <= i < |s.ops| ==> !s.ops[i].phase.GaveUp?
    ensures 0 <= Held(s) <= cfg.maxCost * cfg.workers
    ensures cfg.CountsOps() ==> Held(s) == cfg.workers
  {
    SumBusyCost(cfg.maxCost, s.ops);
    SumAtMost(HeldBy, BusyCost(cfg.maxCost), s.ops);
    SumAtMost(_ => 0, HeldBy, s.ops);
    SumZero(s.ops);
    if cfg.CountsOps() {
      SumAtMost(BusyOf, HeldBy, s.ops);
    }
  }

  /** The counter of a deadlock on the lwt counter is fixed by the rejections. */
  lemma DeadlockCount(cfg: Config, s: State)
    requires cfg.Valid() && !cfg.guarded && Reachable(cfg, s) && Deadlocked(cfg, s)
    ensures s.count == Wrap(cfg.workers - Rejects(s))
  {
    var run :| EndsIn(cfg, run, s);
    BalancedRun(cfg, run, |run| - 1);
    InRangeRun(cfg, run, |run| - 1);
    DeadlockHeld(cfg, s);
  }

  /** Without rejections a deadlock needs one waiting operation per worker to exceed the limit. */
  lemma DeadlockCosts(cfg: Config, s: State)
    requires cfg.Small() && Reachable(cfg, s) && Rejects(s) == 0 && Deadlocked(cfg, s)
    ensures cfg.limit < cfg.maxCost * cfg.workers
  {
    var run :| EndsIn(cfg, run, s);
    StatesAreExact(cfg, run, |run| - 1);
    InRangeRun(cfg, run, |run| - 1);
    DeadlockHeld(cfg, s);
  }

  /** With at most as many workers as the limit, and no more rejections than workers, a
      counter of operations does not deadlock. */
  lemma NoDeadlockWhenWorkersFit(cfg: Config, s: State)
    requires cfg.Valid() && cfg.CountsOps() && (cfg.guarded ==> cfg.Small()) && cfg.workers <= cfg.limit
    requires Reachable(cfg, s) && Rejects(s) <= (if cfg.guarded then 0 else cfg.workers)
    ensures !Deadlocked(cfg, s)
  {
    var run :| EndsIn(cfg, run, s);
    RejectsAtLeastZero(s);
    if Deadlocked(cfg, s) {
      if cfg.guarded {
        DeadlockCosts(cfg, s);
      } else {
        DeadlockCount(cfg, s);
        WrapAtMost(cfg.workers - Rejects(s));
      }
      assert false;
    }
  }

  lemma WrapAtMost(x: int)
    requires 0 <= x
    ensures Wrap(x) <= x && (x < WORD ==> Wrap(x) == x)
  {
  }

  // ---------------------------------------------------------------------------
  // Building one

  /** Between calls: finished, rejected, in flight, or waiting in Get. */
  predicate QuietOp(cfg: Config, op: Op) {
    op.cost == cfg.maxCost && match op.phase
      case Finished | Rejected | InFlight => true
      case Counted(seen) => seen > cfg.limit
      case _ => false
  }

  ghost predicate Quiet(cfg: Config, s: State, live: int, busy: int, rejects: int) {
    && Reachable(cfg, s) && (forall i :: 0 <= i < |s.ops| ==> QuietOp(cfg, s.ops[i]))
    && InFlightCost(s) == live && Busy(s) == busy && Rejects(s) == rejects
  }

  lemma QuietCount(cfg: Config, s: State, live: int, busy: int, rejects: int)
    requires Quiet(cfg, s, live, busy, rejects)
    ensures s.count == Wrap(live + cfg.maxCost * busy - rejects) && 0 <= live
  {
    var run :| EndsIn(cfg, run, s);
    BalancedRun(cfg, run, |run| - 1);
    var both := Plus(InFlightOf, BusyCost(cfg.maxCost));
    SumPlus(InFlightOf, BusyCost(cfg.maxCost), s.ops);
    SumBusyCost(cfg.maxCost, s.ops);
    SumAtMost(HeldBy, both, s.ops);
    SumAtMost(both, HeldBy, s.ops);
    SumAtMost(_ => 0, InFlightOf, s.ops);
    SumZero(s.ops);
  }

  lemma Take(cfg: Config, s: State, step: Step) returns (t: State)
    requires Reachable(cfg, s) && Enabled(cfg, s, step)
    ensures t == Apply(cfg, s, step) && Reachable(cfg, t)
    ensures step.Arrive? ==> Busy(t) == Busy(s) && Rejects(t) == Rejects(s) && InFlightCost(t) == InFlightCost(s)
    ensures !step.Arrive? ==>
      && Busy(t) == Busy(s) + BusyOf(t.ops[step.i]) - BusyOf(s.ops[step.i])
      && Rejects(t) == Rejects(s) + RejectOf(t.ops[step.i]) - RejectOf(s.ops[step.i])
      && InFlightCost(t) == InFlightCost(s) + InFlightOf(t.ops[step.i]) - InFlightOf(s.ops[step.i])
  {
    t := Apply(cfg, s, step);
    ReachableNext(cfg, s, step);
    SumStep(BusyOf, cfg, s, step);
    SumStep(RejectOf, cfg, s, step);
    SumStep(InFlightOf, cfg, s, step);
  }

  /** One more operation performs its Get up to its swap. */
  lemma EnterGet(cfg: Config, s: State) returns (t: State)
    requires cfg.Valid() && Reachable(cfg, s) && Busy(s) < cfg.workers
    ensures Reachable(cfg, t) && t.ops == s.ops + [Op(cfg.maxCost, Counted(s.count))]
    ensures t.count == Wrap(s.count + cfg.maxCost)
    ensures Busy(t) == Busy(s) + 1 && Rejects(t) == Rejects(s) && InFlightCost(t) == InFlightCost(s)
  {
    var i, cost := |s.ops|, cfg.maxCost;
    t := Take(cfg, s, Arrive(cost));
    t := Take(cfg, t, Start(i));
    assert t.ops == s.ops + [Op(cost, GetRead)];
    t := Take(cfg, t, Move(i));
    assert t.ops == s.ops + [Op(cost, GetCas(s.count))];
    t := Take(cfg, t, Move(i));
    assert t.ops == s.ops + [Op(cost, Counted(s.count))];
  }

  /** It finds the counter over the limit and waits. */
  lemma Wait(cfg: Config, s: State, live: int, busy: int, rejects: int) returns (t: State)
    requires cfg.Valid() && Quiet(cfg, s, live, busy, rejects) && busy < cfg.workers && s.count > cfg.limit
    ensures Quiet(cfg, t, live, busy + 1, rejects)
  {
    t := EnterGet(cfg, s);
  }

  /** It finds the counter within the limit and passes. */
  lemma Admit(cfg: Config, s: State, live: int, busy: int, rejects: int) returns (t: State)
    requires cfg.Valid() && Quiet(cfg, s, live, busy, rejects) && busy < cfg.workers && s.count <= cfg.limit
    ensures Quiet(cfg, t, live + cfg.maxCost, busy, rejects)
  {
    t := EnterGet(cfg, s);
    t := Take(cfg, t, Move(|s.ops|));
    assert t.ops == s.ops + [Op(cfg.maxCost, InFlight)];
  }

  lemma Reject(cfg: Config, s: State, live: int, busy: int, rejects: int) returns (t: State)
    requires cfg.Valid() && !cfg.guarded && Quiet(cfg, s, live, busy, rejects) && busy < cfg.workers
    ensures Quiet(cfg, t, live, busy, rejects + 1)
  {
    var i := |s.ops|;
    t := Take(cfg, s, Arrive(1));
    t := Take(cfg, t, StartReject(i));
    assert t.ops == s.ops + [Op(1, RejectRead)];
    t := Take(cfg, t, Move(i));
    assert t.ops == s.ops + [Op(1, RejectCas(s.count))];
    t := Take(cfg, t, Move(i));
    assert t.ops == s.ops + [Op(1, Rejected)];
  }

  /** An operation in flight performs its whole Put. */
  lemma Finish(cfg: Config, s: State, live: int, busy: int, rejects: int, i: nat) returns (t: State)
    requires Quiet(cfg, s, live, busy, rejects) && i < |s.ops| && s.ops[i].phase.InFlight?
    requires cfg.guarded ==> cfg.maxCost <= s.count
    ensures Quiet(cfg, t, live - cfg.maxCost, busy, rejects)
  {
    t := s;
    if cfg.guarded {
      t := Take(cfg, t, Move(i));
      assert t.ops == s.ops[i := s.ops[i].(phase := PutGuard)];
    }
    t := Take(cfg, t, Move(i));
    assert t.ops == s.ops[i := s.ops[i].(phase := PutRead)];
    t := Take(cfg, t, Move(i));
    assert t.ops == s.ops[i := s.ops[i].(phase := PutCas(s.count))];
    t := Take(cfg, t, Move(i));
    assert t.ops == s.ops[i := s.ops[i].(phase := Finished)];
  }

  /** Operations pass until the counter is over the limit. */
  lemma {:induction false} Fill(cfg: Config, s: State, live: nat) returns (t: State, full: nat)
    requires cfg.Valid() && 0 < cfg.maxCost && Quiet(cfg, s, live, 0, 0) && live <= cfg.limit + cfg.maxCost
    ensures Quiet(cfg, t, full, 0, 0) && cfg.limit < full <= cfg.limit + cfg.maxCost
    decreases cfg.limit + cfg.maxCost - live
  {
    if live > cfg.limit {
      t, full := s, live;
    } else {
      QuietCount(cfg, s, live, 0, 0);
      WrapAtMost(live);
      t := Admit(cfg, s, live, 0, 0);
      t, full := Fill(cfg, t, live + cfg.maxCost);
    }
  }

  lemma FillFromInit(cfg: Config) returns (t: State, full: nat)
    requires cfg.Valid() && 0 < cfg.maxCost
    ensures Quiet(cfg, t, full, 0, 0) && cfg.limit < full <= cfg.limit + cfg.maxCost
  {
    ReachableInit(cfg);
    t, full := Fill(cfg, INIT, 0);
  }

  /** Every rejection makes room for one operation more. */
  lemma {:induction false} FillRejecting(cfg: Config, rejects: nat) returns (t: State)
    requires cfg.Valid() && !cfg.guarded
    ensures Quiet(cfg, t, cfg.limit + 1 + rejects, 0, rejects)
  {
    if rejects == 0 {
      var full;
      t, full := FillFromInit(cfg);
    } else {
      t := FillRejecting(cfg, rejects - 1);
      t := Reject(cfg, t, cfg.limit + rejects, 0, rejects - 1);
      QuietCount(cfg, t, cfg.limit + rejects, 0, rejects);
      WrapAtMost(cfg.limit);
      t := Admit(cfg, t, cfg.limit + rejects, 0, rejects);
    }
  }

  /** The workers go on to wait, one by one. */
  lemma {:induction false} Crowd(cfg: Config, s: State, live: nat, rejects: nat, busy: nat) returns (t: State)
    requires cfg.Valid() && cfg.Small() && Quiet(cfg, s, live, 0, rejects) && busy <= cfg.workers
    requires cfg.limit < live - rejects <= cfg.limit + cfg.maxCost
    ensures Quiet(cfg, t, live, busy, rejects)
  {
    t := s;
    if busy > 0 {
      t := Crowd(cfg, s, live, rejects, busy - 1);
      QuietCount(cfg, t, live, busy - 1, rejects);
      CrowdFits(cfg, busy - 1);
      WrapAtMost(live + cfg.maxCost * (busy - 1) - rejects);
      t := Wait(cfg, t, live, busy - 1, rejects);
    }
  }

  lemma CrowdFits(cfg: Config, busy: nat)
    requires cfg.Small() && busy <= cfg.workers
    ensures 0 <= cfg.maxCost * busy && cfg.limit + cfg.maxCost + cfg.maxCost * busy < WORD
  {
    assert cfg.maxCost * busy <= cfg.maxCost * cfg.workers;
    assert (cfg.workers + 1) * cfg.maxCost == cfg.maxCost * cfg.workers + cfg.maxCost;
  }

  lemma {:induction false} SomeInFlight(ops: seq<Op>) returns (i: nat)
    requires Sum(InFlightOf, ops) > 0
    ensures i < |ops| && IsInFlight(ops[i])
  {
    if IsInFlight(ops[0]) {
      i := 0;
    } else {
      i := SomeInFlight(ops[1..]);
      i := i + 1;
    }
  }

  /** Everything in flight finishes while the waiting workers do not look. */
  lemma {:induction false} Drain(cfg: Config, s: State, live: nat, busy: nat, rejects: nat) returns (t: State)
    requires Quiet(cfg, s, live, busy, rejects) && 0 < cfg.maxCost
    requires cfg.guarded ==> rejects == 0 && live + cfg.maxCost * busy < WORD
    ensures Quiet(cfg, t, 0, busy, rejects)
    decreases live
  {
    t := s;
    if live > 0 {
      var i := SomeInFlight(s.ops);
      SumHasTerm(InFlightOf, s.ops, i);
      QuietCount(cfg, s, live, busy, rejects);
      BusyAtLeastZero(s);
      assert 0 <= cfg.maxCost * busy;
      t := Finish(cfg, s, live, busy, rejects, i);
      t := Drain(cfg, t, live - cfg.maxCost, busy, rejects);
    }
  }

  lemma BusyAtLeastZero(s: State)
    ensures 0 <= Busy(s)
  {
    SumAtMost(_ => 0, BusyOf, s.ops);
    SumZero(s.ops);
  }

  /** From a full throttle, a state in which nothing but the workers is left. */
  lemma Strand(cfg: Config, s: State, live: nat, rejects: nat) returns (t: State)
    requires cfg.Valid() && cfg.Small() && 0 < cfg.maxCost && Quiet(cfg, s, live, 0, rejects)
    requires cfg.limit < live - rejects <= cfg.limit + cfg.maxCost && (cfg.guarded ==> rejects == 0)
    ensures Reachable(cfg, t) && Rejects(t) == rejects && t.count == Wrap(cfg.maxCost * cfg.workers - rejects)
    ensures t.count > cfg.limit ==> Deadlocked(cfg, t)
  {
    t := Crowd(cfg, s, live, rejects, cfg.workers);
    CrowdFits(cfg, cfg.workers);
    t := Drain(cfg, t, live, cfg.workers, rejects);
    QuietCount(cfg, t, 0, cfg.workers, rejects);
    forall i | 0 <= i < |t.ops| ensures !t.ops[i].phase.InFlight? {
      if t.ops[i].phase.InFlight? {
        SumHasTerm(InFlightOf, t.ops, i);
      }
    }
  }

  // ---------------------------------------------------------------------------
  // Main results

  /** Every throttle, over all runs in which nothing is rejected: a state in which every
      worker hangs for ever can be reached if and only if the costs of one operation per
      worker can exceed the limit.  For a bandwidth throttle one worker and one operation
      dearer than the limit are enough. */
  lemma DeadlockReachableIffCostsExceedLimit(cfg: Config)
    requires cfg.Valid() && cfg.Small()
    ensures (exists s :: Reachable(cfg, s) && Rejects(s) == 0 && Deadlocked(cfg, s))
       <==> cfg.maxCost * cfg.workers > cfg.limit
  {
    if cfg.maxCost * cfg.workers > cfg.limit {
      var s, full := FillFromInit(cfg);
      s := Strand(cfg, s, full, 0);
      CrowdFits(cfg, cfg.workers);
      WrapAtMost(cfg.maxCost * cfg.workers);
      assert Deadlocked(cfg, s);
    } else {
      forall s | Reachable(cfg, s) && Rejects(s) == 0 ensures !Deadlocked(cfg, s) {
        if Deadlocked(cfg, s) {
          DeadlockCosts(cfg, s);
          assert false;
        }
      }
    }
  }

  /** The counters of operations: if and only if workers outnumber the limit. */
  lemma DeadlockReachableIffWorkersExceedLimit(cfg: Config)
    requires cfg.Valid() && cfg.CountsOps() && cfg.Small()
    ensures (exists s :: Reachable(cfg, s) && Rejects(s) == 0 && Deadlocked(cfg, s))
       <==> cfg.workers > cfg.limit
  {
    DeadlockReachableIffCostsExceedLimit(cfg);
  }

  /** The lwt counter with any number of rejections. */
  lemma DeadlockReachableIffCountExceedsLimit(cfg: Config, rejects: nat)
    requires cfg.Valid() && !cfg.guarded && cfg.Small()
    ensures (exists s :: Reachable(cfg, s) && Rejects(s) == rejects && Deadlocked(cfg, s))
       <==> Wrap(cfg.workers - rejects) > cfg.limit
  {
    var s := FillRejecting(cfg, rejects);
    s := Strand(cfg, s, cfg.limit + 1 + rejects, rejects);
    forall d | Reachable(cfg, d) && Rejects(d) == rejects && Deadlocked(cfg, d)
      ensures Wrap(cfg.workers - rejects) > cfg.limit
    {
      DeadlockCount(cfg, d);
    }
  }

  /** The same said without the modulus: when workers fit the limit, r rejections can hang
      them all if and only if r exceeds their number (and the counter, wrapped below zero,
      still lies above the limit). */
  lemma RejectionsHangWorkersIff(cfg: Config, rejects: nat)
    requires cfg.Valid() && !cfg.guarded && cfg.Small() && cfg.workers <= cfg.limit && rejects < WORD
    ensures (exists s :: Reachable(cfg, s) && Rejects(s) == rejects && Deadlocked(cfg, s))
       <==> cfg.workers < rejects && WORD - rejects + cfg.workers > cfg.limit
  {
    DeadlockReachableIffCountExceedsLimit(cfg, rejects);
    WrapBelowZero(cfg.workers, rejects);
  }

  lemma WrapBelowZero(n: nat, r: nat)
    requires n < WORD && r < WORD
    ensures Wrap(n - r) == if r <= n then n - r else WORD - r + n
  {
  }

  /** For every limit, whatever the workers, enough rejections let them hang. */
  lemma RejectionsCanHangEveryWorker(cfg: Config, rejects: nat)
    requires cfg.Valid() && !cfg.guarded && cfg.Small()
    requires cfg.workers < rejects < WORD && WORD - rejects + cfg.workers > cfg.limit
    ensures exists s :: Reachable(cfg, s) && Rejects(s) == rejects && Deadlocked(cfg, s)
  {
    DeadlockReachableIffCountExceedsLimit(cfg, rejects);
    WrapBelowZero(cfg.workers, rejects);
  }

  /** The bound of limit + 1 operations in flight is attained. */
  lemma LimitPlusOneIsReached(cfg: Config)
    requires cfg.Valid() && cfg.CountsOps()
    ensures exists s :: Reachable(cfg, s) && Rejects(s) == 0 && InFlightCost(s) == cfg.limit + 1
  {
    var s, full := FillFromInit(cfg);
  }

  /** After any number of rejections on the lwt counter, so is limit + 1 + r. */
  lemma RejectionsRaiseTheBound(cfg: Config, rejects: nat)
    requires cfg.Valid() && !cfg.guarded
    ensures exists s :: Reachable(cfg, s) && Rejects(s) == rejects && InFlightCost(s) == cfg.limit + 1 + rejects
  {
    var s := FillRejecting(cfg, rejects);
  }
}
