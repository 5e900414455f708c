/**
 Progress through a throttle: what one operation reaches by its own accesses alone, and exactly
 from which states with every worker inside Get an operation can still be let through.
 */
module ThrottleProgress {
  import opened Throttle
  import D = ThrottleDeadlock

  // ---------------------------------------------------------------------------
  // One operation alone

  /** n accesses in a row by operation i lead from s to t. */
  ghost predicate Alone(cfg: Config, s: State, i: nat, n: nat, t: State)
    decreases n
  {
    if n == 0 then t == s
    else Enabled(cfg, s, Move(i)) && Alone(cfg, Apply(cfg, s, Move(i)), i, n - 1, t)
  }

  /** Operation i has come to `phase`, the counter is `count`, no other operation has moved. */
  predicate Moved(s: State, t: State, i: nat, phase: Phase, count: nat) {
    i < |s.ops| && t.ops == s.ops[i := s.ops[i].(phase := phase)] && t.count == count
  }

  lemma AloneOne(cfg: Config, s: State, i: nat) returns (t: State)
    requires Enabled(cfg, s, Move(i))
    ensures t == Apply(cfg, s, Move(i)) && Alone(cfg, s, i, 1, t)
  {
    t := Apply(cfg, s, Move(i));
    assert Alone(cfg, t, i, 0, t);
  }

  lemma {:induction false} AloneThen(cfg: Config, s: State, u: State, t: State, i: nat, n: nat, m: nat)
    requires Alone(cfg, s, i, n, u) && Alone(cfg, u, i, m, t)
    ensures Alone(cfg, s, i, n + m, t)
    decreases n
  {
    if n > 0 {
      AloneThen(cfg, Apply(cfg, s, Move(i)), u, t, i, n - 1, m);
    }
  }

  /** One access more. */
  lemma AloneMore(cfg: Config, s: State, u: State, i: nat, n: nat) returns (t: State)
    requires Alone(cfg, s, i, n, u) && Enabled(cfg, u, Move(i))
    ensures t == Apply(cfg, u, Move(i)) && Alone(cfg, s, i, n + 1, t)
  {
    t := AloneOne(cfg, u, i);
    AloneThen(cfg, s, u, t, i, n, 1);
  }

  /** A Get reaches its swap within three accesses, whatever it had read before, and then has
      seen the counter as it is. */
  lemma GetReachesItsSwap(cfg: Config, s: State, i: nat) returns (n: nat, t: State)
    requires i < |s.ops| && (s.ops[i].phase.GetRead? || s.ops[i].phase.GetCas?)
    ensures n <= 3 && Alone(cfg, s, i, n, t)
    ensures Moved(s, t, i, Counted(s.count), (s.count + s.ops[i].cost) % 0x1_0000_0000_0000_0000)
  {
    n, t := 0, s;
    if s.ops[i].phase.GetCas? && s.ops[i].phase.seen != s.count {
      t := AloneMore(cfg, s, t, i, n);
      n := n + 1;
    }
    if t.ops[i].phase.GetRead? {
      t := AloneMore(cfg, s, t, i, n);
      n := n + 1;
    }
    t := AloneMore(cfg, s, t, i, n);
    n := n + 1;
  }

  /** A waiter that finds the counter within the limit, or has found it so, passes. */
  lemma WaiterPasses(cfg: Config, s: State, i: nat) returns (n: nat, t: State)
    requires i < |s.ops| && s.ops[i].phase.Counted? && (s.count <= cfg.limit || s.ops[i].phase.seen <= cfg.limit)
    ensures n <= 2 && Alone(cfg, s, i, n, t) && Moved(s, t, i, InFlight, s.count)
  {
    n, t := 0, s;
    if s.ops[i].phase.seen > cfg.limit {
      t := AloneMore(cfg, s, t, i, n);
      n := n + 1;
    }
    t := AloneMore(cfg, s, t, i, n);
    n := n + 1;
  }

  /** A waiter that finds the counter over the limit goes on waiting, having seen it. */
  lemma WaiterLooksAgain(cfg: Config, s: State, i: nat)
    requires i < |s.ops| && s.ops[i].phase.Counted? && s.ops[i].phase.seen > cfg.limit
    ensures Enabled(cfg, s, Move(i)) && Moved(s, Apply(cfg, s, Move(i)), i, Counted(s.count), s.count)
  {
  }

  /** A Put reaches its swap within five accesses, unless a guarded one finds less than its
      cost. */
  lemma PutReachesItsSwap(cfg: Config, s: State, i: nat) returns (n: nat, t: State)
    requires i < |s.ops| && IsInFlight(s.ops[i])
    requires cfg.guarded || s.ops[i].phase.PutGuard? ==> s.ops[i].cost <= s.count
    ensures n <= 5 && Alone(cfg, s, i, n, t)
    ensures Moved(s, t, i, Finished, (s.count - s.ops[i].cost) % 0x1_0000_0000_0000_0000)
  {
    n, t := 0, s;
    if (s.ops[i].phase.PutCas? && s.ops[i].phase.seen != s.count) || s.ops[i].phase.InFlight? {
      t := AloneMore(cfg, s, t, i, n);
      n := n + 1;
    }
    if t.ops[i].phase.PutGuard? {
      t := AloneMore(cfg, s, t, i, n);
      n := n + 1;
    }
    if t.ops[i].phase.PutRead? {
      t := AloneMore(cfg, s, t, i, n);
      n := n + 1;
    }
    t := AloneMore(cfg, s, t, i, n);
    n := n + 1;
  }

  /** A guarded Put that finds less than its cost returns without touching the counter. */
  lemma GuardedPutReturnsEarly(cfg: Config, s: State, i: nat)
    requires i < |s.ops| && s.ops[i].phase.PutGuard? && s.count < s.ops[i].cost
    ensures Enabled(cfg, s, Move(i)) && Moved(s, Apply(cfg, s, Move(i)), i, GaveUp, s.count)
  {
  }

  /** A rejected operation reaches its decrement. */
  lemma RejectReachesItsSwap(cfg: Config, s: State, i: nat) returns (n: nat, t: State)
    requires i < |s.ops| && (s.ops[i].phase.RejectRead? || s.ops[i].phase.RejectCas?)
    ensures n <= 3 && Alone(cfg, s, i, n, t) && Moved(s, t, i, Rejected, (s.count - 1) % 0x1_0000_0000_0000_0000)
  {
    n, t := 0, s;
    if s.ops[i].phase.RejectCas? && s.ops[i].phase.seen != s.count {
      t := AloneMore(cfg, s, t, i, n);
      n := n + 1;
    }
    if t.ops[i].phase.RejectRead? {
      t := AloneMore(cfg, s, t, i, n);
      n := n + 1;
    }
    t := AloneMore(cfg, s, t, i, n);
    n := n + 1;
  }

  // ---------------------------------------------------------------------------
  // Continuations

  ghost predicate Continues(cfg: Config, s: State, steps: seq<Step>, t: State)
    decreases |steps|
  {
    if steps == [] then t == s
    else Enabled(cfg, s, steps[0]) && Continues(cfg, Apply(cfg, s, steps[0]), steps[1..], t)
  }

  ghost predicate Leads(cfg: Config, s: State, t: State) {
    exists steps :: Continues(cfg, s, steps, t)
  }

  lemma LeadsNowhere(cfg: Config, s: State)
    ensures Leads(cfg, s, s)
  {
    assert Continues(cfg, s, [], s);
  }

  lemma {:induction false} ContinuesThen(cfg: Config, s: State, p: seq<Step>, u: State, q: seq<Step>, t: State)
    requires Continues(cfg, s, p, u) && Continues(cfg, u, q, t)
    ensures Continues(cfg, s, p + q, t)
    decreases |p|
  {
    if p == [] {
      assert p + q == q;
    } else {
      assert (p + q)[1..] == p[1..] + q;
      ContinuesThen(cfg, Apply(cfg, s, p[0]), p[1..], u, q, t);
    }
  }

  lemma LeadsThen(cfg: Config, s: State, u: State, t: State)
    requires Leads(cfg, s, u) && Leads(cfg, u, t)
    ensures Leads(cfg, s, t)
  {
    var p :| Continues(cfg, s, p, u);
    var q :| Continues(cfg, u, q, t);
    ContinuesThen(cfg, s, p, u, q, t);
  }

  lemma {:induction false} AloneLeads(cfg: Config, s: State, i: nat, n: nat, t: State)
    requires Alone(cfg, s, i, n, t)
    ensures Leads(cfg, s, t)
    decreases n
  {
    if n == 0 {
      LeadsNowhere(cfg, s);
    } else {
      var u := Apply(cfg, s, Move(i));
      AloneLeads(cfg, u, i, n - 1, t);
      var q :| Continues(cfg, u, q, t);
      assert ([Move(i)] + q)[1..] == q;
      assert Continues(cfg, s, [Move(i)] + q, t);
    }
  }

  lemma {:induction false} ReachableContinues(cfg: Config, s: State, steps: seq<Step>, t: State)
    requires Reachable(cfg, s) && Continues(cfg, s, steps, t)
    ensures Reachable(cfg, t)
    decreases |steps|
  {
    if steps != [] {
      ReachableNext(cfg, s, steps[0]);
      ReachableContinues(cfg, Apply(cfg, s, steps[0]), steps[1..], t);
    }
  }

  lemma ReachableLeads(cfg: Config, s: State, t: State)
    requires Reachable(cfg, s) && Leads(cfg, s, t)
    ensures Reachable(cfg, t)
  {
    var steps :| Continues(cfg, s, steps, t);
    ReachableContinues(cfg, s, steps, t);
  }

  /** Some way of going on brings an operation to the engine that was not there. */
  ghost predicate LetsThrough(cfg: Config, s: State) {
    exists t, i: nat :: Leads(cfg, s, t) && IsNewIn(s, t, i)
  }

  predicate IsNewIn(s: State, t: State, i: nat) {
    i < |t.ops| && t.ops[i].phase.InFlight? && !(i < |s.ops| && s.ops[i].phase.InFlight?)
  }

  // ---------------------------------------------------------------------------
  // Which states are lost

  ghost function CountedOf(op: Op): int { if op.phase.Counted? then op.cost else 0 }
  ghost function UncountedOf(op: Op): int { if op.phase.GetRead? || op.phase.GetCas? then op.cost else 0 }

  /** The counter once all that is in flight has been given back, and once all workers inside Get
      have been counted, before wrapping. */
  ghost function Low(s: State): int { Sum(CountedOf, s.ops) - Rejects(s) }
  ghost function High(s: State): int { Held(s) + Sum(UncountedOf, s.ops) - Rejects(s) }

  /** Every worker is inside Get. */
  ghost predicate AllInGet(cfg: Config, s: State) {
    && Busy(s) == cfg.workers
    && forall i :: 0 <= i < |s.ops| ==> !s.ops[i].phase.RejectRead? && !s.ops[i].phase.RejectCas?
  }

  /** No worker has been let through, and no value the counter can still take lets one through. */
  ghost predicate Lost(cfg: Config, s: State) {
    && (forall i :: 0 <= i < |s.ops| && s.ops[i].phase.Counted? ==> s.ops[i].phase.seen > cfg.limit)
    && (forall v :: Low(s) <= v <= High(s) ==> Wrap(v) > cfg.limit)
  }

  lemma LowHigh(s: State)
    ensures Low(s) <= Held(s) - Rejects(s) <= High(s)
  {
    SumAtMost(CountedOf, HeldBy, s.ops);
    SumAtMost(_ => 0, UncountedOf, s.ops);
    SumZero(s.ops);
  }

  /** A lost state stays lost, and lets no one through. */
  lemma LostStep(cfg: Config, s: State, step: Step)
    requires Balanced(s) && AllInGet(cfg, s) && Lost(cfg, s) && Enabled(cfg, s, step)
    ensures var t := Apply(cfg, s, step); AllInGet(cfg, t) && Lost(cfg, t) && forall i: nat :: !IsNewIn(s, t, i)
  {
    var t := Apply(cfg, s, step);
    LowHigh(s);
    LowHigh(t);
    SumStep(BusyOf, cfg, s, step);
    SumStep(CountedOf, cfg, s, step);
    SumStep(UncountedOf, cfg, s, step);
    SumStep(HeldBy, cfg, s, step);
    SumStep(RejectOf, cfg, s, step);
    assert s.count > cfg.limit;
    assert Low(s) <= Low(t) && High(t) <= High(s);
  }

  lemma {:induction false} LostContinues(cfg: Config, s: State, steps: seq<Step>, t: State, i: nat)
    requires Balanced(s) && AllInGet(cfg, s) && Lost(cfg, s) && Continues(cfg, s, steps, t)
    ensures !IsNewIn(s, t, i)
    decreases |steps|
  {
    if steps != [] {
      var u := Apply(cfg, s, steps[0]);
      LostStep(cfg, s, steps[0]);
      BalancedStep(cfg, s, steps[0]);
      LostContinues(cfg, u, steps[1..], t, i);
      assert !IsNewIn(s, u, i);
    }
  }

  // ---------------------------------------------------------------------------
  // From the others someone passes

  lemma {:induction false} SomeTerm(f: Op -> int, ops: seq<Op>) returns (i: nat)
    requires Sum(f, ops) > 0
    ensures i < |ops| && f(ops[i]) > 0
  {
    if f(ops[0]) > 0 {
      i := 0;
    } else {
      i := SomeTerm(f, ops[1..]);
      i := i + 1;
    }
  }

  lemma ReachableBalanced(cfg: Config, s: State)
    requires Reachable(cfg, s)
    ensures Balanced(s) && InRange(cfg, s)
    ensures cfg.Fits(Rejects(s)) ==> Sane(cfg, s) && Held(s) < WORD
  {
    var run :| EndsIn(cfg, run, s);
    BalancedRun(cfg, run, |run| - 1);
    InRangeRun(cfg, run, |run| - 1);
    if cfg.Fits(Rejects(s)) {
      SaneRun(cfg, run, |run| - 1);
      StatesAreExact(cfg, run, |run| - 1);
    }
  }

  /** With the counter within the limit, any worker inside Get passes. */
  lemma BusyPasses(cfg: Config, s: State, i: nat) returns (t: State)
    requires i < |s.ops| && BusyOf(s.ops[i]) == 1 && !s.ops[i].phase.RejectRead? && !s.ops[i].phase.RejectCas?
    requires s.count <= cfg.limit
    ensures Leads(cfg, s, t) && i < |t.ops| && t.ops[i].phase.InFlight?
  {
    var u, n := s, 0;
    if !s.ops[i].phase.Counted? {
      n, u := GetReachesItsSwap(cfg, s, i);
    } else {
      assert Alone(cfg, s, i, 0, s);
    }
    var m;
    m, t := WaiterPasses(cfg, u, i);
    AloneThen(cfg, s, u, t, i, n, m);
    AloneLeads(cfg, s, i, n + m, t);
  }

  /** Operations inside Get stay where they are. */
  ghost predicate SameInGet(s: State, t: State) {
    |t.ops| == |s.ops| && forall i :: 0 <= i < |s.ops| && BusyOf(s.ops[i]) == 1 ==> t.ops[i] == s.ops[i]
  }

  lemma MovedSums(s: State, t: State, i: nat, phase: Phase, count: nat)
    requires Moved(s, t, i, phase, count)
    ensures Held(t) == Held(s) - HeldBy(s.ops[i]) + HeldBy(t.ops[i])
    ensures Rejects(t) == Rejects(s) - RejectOf(s.ops[i]) + RejectOf(t.ops[i])
    ensures Sum(CountedOf, t.ops) == Sum(CountedOf, s.ops) - CountedOf(s.ops[i]) + CountedOf(t.ops[i])
    ensures Sum(UncountedOf, t.ops) == Sum(UncountedOf, s.ops) - UncountedOf(s.ops[i]) + UncountedOf(t.ops[i])
  {
    var op := s.ops[i].(phase := phase);
    SumUpdate(HeldBy, s.ops, i, op);
    SumUpdate(RejectOf, s.ops, i, op);
    SumUpdate(CountedOf, s.ops, i, op);
    SumUpdate(UncountedOf, s.ops, i, op);
  }

  /** One operation in flight finishes. */
  lemma LandOne(cfg: Config, s: State, i: nat) returns (t: State)
    requires Reachable(cfg, s) && cfg.Fits(Rejects(s)) && i < |s.ops| && IsInFlight(s.ops[i])
    ensures Leads(cfg, s, t) && Reachable(cfg, t) && t.ops == s.ops[i := s.ops[i].(phase := Finished)]
    ensures Held(t) == Held(s) - s.ops[i].cost && Rejects(t) == Rejects(s)
    ensures Sum(CountedOf, t.ops) == Sum(CountedOf, s.ops) && Sum(UncountedOf, t.ops) == Sum(UncountedOf, s.ops)
  {
    ReachableBalanced(cfg, s);
    HeldCoversEachOp(s, i);
    if cfg.guarded {
      GuardedRejectsNothing(cfg, s);
    }
    var n;
    n, t := PutReachesItsSwap(cfg, s, i);
    AloneLeads(cfg, s, i, n, t);
    ReachableLeads(cfg, s, t);
    MovedSums(s, t, i, Finished, t.count);
  }

  /** Something with a cost is in flight while more is held than is counted inside Get. */
  lemma SomethingFlies(cfg: Config, s: State) returns (i: nat)
    requires Sane(cfg, s) && Held(s) > Sum(CountedOf, s.ops)
    ensures i < |s.ops| && IsInFlight(s.ops[i]) && s.ops[i].cost > 0
  {
    SumPlus(CountedOf, InFlightOf, s.ops);
    SumAtMost(HeldBy, Plus(CountedOf, InFlightOf), s.ops);
    i := SomeTerm(InFlightOf, s.ops);
  }

  /** What is in flight finishes until the counter is v. */
  lemma {:induction false} DrainTo(cfg: Config, s: State, v: int) returns (t: State)
    requires cfg.Valid() && Reachable(cfg, s) && cfg.Fits(Rejects(s))
    requires Low(s) <= v <= Held(s) - Rejects(s) && (cfg.guarded ==> v == Low(s))
    ensures Leads(cfg, s, t) && Reachable(cfg, t) && Held(t) - Rejects(t) == v && SameInGet(s, t)
    decreases Held(s) - Rejects(s) - v
  {
    if Held(s) - Rejects(s) == v {
      t := s;
      LeadsNowhere(cfg, s);
    } else {
      ReachableBalanced(cfg, s);
      var i := SomethingFlies(cfg, s);
      var u := LandOne(cfg, s, i);
      LowHigh(u);
      t := DrainTo(cfg, u, v);
      LeadsThen(cfg, s, u, t);
    }
  }

  /** Workers inside Get stay inside. */
  ghost predicate StillInGet(s: State, t: State) {
    |t.ops| == |s.ops| && forall i :: 0 <= i < |s.ops| && BusyOf(s.ops[i]) == 1 ==>
      BusyOf(t.ops[i]) == 1 && (t.ops[i] == s.ops[i] || t.ops[i].phase.Counted?)
  }

  /** Workers that have not been counted are, until the counter is v. */
  lemma {:induction false} CountTo(cfg: Config, s: State, v: int) returns (t: State)
    requires cfg.Valid() && !cfg.guarded && Reachable(cfg, s) && Held(s) - Rejects(s) <= v <= High(s)
    ensures Leads(cfg, s, t) && Reachable(cfg, t) && Held(t) - Rejects(t) == v && StillInGet(s, t)
    decreases v - (Held(s) - Rejects(s))
  {
    if Held(s) - Rejects(s) == v {
      t := s;
      LeadsNowhere(cfg, s);
    } else {
      ReachableBalanced(cfg, s);
      var i := SomeTerm(UncountedOf, s.ops);
      var n, u := GetReachesItsSwap(cfg, s, i);
      AloneLeads(cfg, s, i, n, u);
      ReachableLeads(cfg, s, u);
      MovedSums(s, u, i, Counted(s.count), u.count);
      t := CountTo(cfg, u, v);
      LeadsThen(cfg, s, u, t);
    }
  }

  /** What an operation holds or is about to hold was let through, or is a worker's. */
  lemma HeldOrComingByOne(cfg: Config, op: Op)
    requires op.cost <= cfg.maxCost && !op.phase.GaveUp?
    ensures HeldBy(op) + UncountedOf(op) <= ThroughOf(cfg.limit, op) + BusyCost(cfg.maxCost)(op)
  {
    assert BusyCost(cfg.maxCost)(op) == cfg.maxCost * BusyOf(op);
    if BusyOf(op) == 1 {
      assert cfg.maxCost * BusyOf(op) == cfg.maxCost;
    }
  }

  lemma HeldOrComing(cfg: Config, s: State)
    requires Sane(cfg, s)
    ensures Held(s) + Sum(UncountedOf, s.ops) <= Through(cfg.limit, s) + cfg.maxCost * Busy(s)
  {
    var through := (op: Op) => ThroughOf(cfg.limit, op);
    var both, bound := Plus(HeldBy, UncountedOf), Plus(through, BusyCost(cfg.maxCost));
    SumPlus(HeldBy, UncountedOf, s.ops);
    SumPlus(through, BusyCost(cfg.maxCost), s.ops);
    SumBusyCost(cfg.maxCost, s.ops);
    forall k | 0 <= k < |s.ops| ensures both(s.ops[k]) <= bound(s.ops[k]) {
      HeldOrComingByOne(cfg, s.ops[k]);
    }
    SumAtMost(both, bound, s.ops);
  }

  lemma CostsOfBusy(cost: nat, busy: int, workers: nat)
    requires 0 <= busy <= workers
    ensures cost * busy <= cost * workers && (workers + 1) * cost == cost * workers + cost
  {
  }

  /** All that can be held at once, counted or about to be, fits the counter. */
  lemma HighFits(cfg: Config, s: State)
    requires cfg.Fits(Rejects(s)) && Sane(cfg, s)
    ensures High(s) + Rejects(s) < WORD && 0 <= Low(s) + Rejects(s)
  {
    var costs := cfg.maxCost * Busy(s);
    HeldOrComing(cfg, s);
    assert Held(s) + Sum(UncountedOf, s.ops) <= Through(cfg.limit, s) + costs;
    CostsOfBusy(cfg.maxCost, Busy(s), cfg.workers);
    SumAtMost(_ => 0, CountedOf, s.ops);
    SumZero(s.ops);
  }

  /** A guarded counter comes lowest once all that is in flight has finished. */
  lemma LowIsLowest(cfg: Config, s: State, v: int)
    requires cfg.guarded && Reachable(cfg, s) && cfg.Fits(Rejects(s))
    requires Low(s) <= v <= High(s) && Wrap(v) <= cfg.limit
    ensures Wrap(Low(s)) <= cfg.limit
  {
    ReachableBalanced(cfg, s);
    GuardedRejectsNothing(cfg, s);
    HighFits(cfg, s);
    assert Wrap(v) == v && Wrap(Low(s)) == Low(s);
  }

  /** From a state whose counter can come within the limit, to one where it is. */
  lemma BringWithinLimit(cfg: Config, s: State, v: int) returns (t: State)
    requires cfg.Valid() && Reachable(cfg, s) && cfg.Fits(Rejects(s))
    requires Low(s) <= v <= High(s) && Wrap(v) <= cfg.limit
    ensures Leads(cfg, s, t) && t.count <= cfg.limit && StillInGet(s, t)
  {
    var w := if cfg.guarded then Low(s) else v;
    if cfg.guarded {
      LowIsLowest(cfg, s, v);
    }
    LowHigh(s);
    if w <= Held(s) - Rejects(s) {
      t := DrainTo(cfg, s, w);
    } else {
      t := CountTo(cfg, s, w);
    }
    ReachableBalanced(cfg, t);
  }

  lemma NotLostPasses(cfg: Config, s: State)
    requires cfg.Valid() && Reachable(cfg, s) && cfg.Fits(Rejects(s)) && AllInGet(cfg, s) && !Lost(cfg, s)
    ensures LetsThrough(cfg, s)
  {
    if i: nat :| i < |s.ops| && s.ops[i].phase.Counted? && s.ops[i].phase.seen <= cfg.limit {
      var n, t := WaiterPasses(cfg, s, i);
      AloneLeads(cfg, s, i, n, t);
      assert IsNewIn(s, t, i);
    } else {
      var v :| Low(s) <= v <= High(s) && Wrap(v) <= cfg.limit;
      var i := SomeTerm(BusyOf, s.ops);
      var u := BringWithinLimit(cfg, s, v);
      assert BusyOf(s.ops[i]) == 1;
      var t := BusyPasses(cfg, u, i);
      LeadsThen(cfg, s, u, t);
      assert IsNewIn(s, t, i);
    }
  }

  /** Main result.  From a reachable state with every worker inside Get, some way of going on lets
      an operation through if and only if one has been let through already, or the counter can
      still come within the limit by what is in flight finishing and the workers inside being
      counted. */
  lemma LetsThroughIffNotLost(cfg: Config, s: State)
    requires cfg.Valid() && Reachable(cfg, s) && cfg.Fits(Rejects(s)) && AllInGet(cfg, s)
    ensures LetsThrough(cfg, s) <==> !Lost(cfg, s)
  {
    if Lost(cfg, s) {
      ReachableBalanced(cfg, s);
      forall t, i: nat | Leads(cfg, s, t) ensures !IsNewIn(s, t, i) {
        var steps :| Continues(cfg, s, steps, t);
        LostContinues(cfg, s, steps, t, i);
      }
    } else {
      NotLostPasses(cfg, s);
    }
  }

  // ---------------------------------------------------------------------------
  // Lost and deadlocked

  /** Nothing is in flight, and every worker inside Get has been counted. */
  predicate AtRest(s: State) {
    forall i :: 0 <= i < |s.ops| ==> !IsInFlight(s.ops[i]) && !s.ops[i].phase.GetRead? && !s.ops[i].phase.GetCas?
  }

  lemma RestSums(cfg: Config, s: State)
    requires Sane(cfg, s) && AtRest(s)
    ensures Low(s) == High(s) == Held(s) - Rejects(s)
  {
    LowHigh(s);
    SumAtMost(HeldBy, CountedOf, s.ops);
    SumAtMost(UncountedOf, _ => 0, s.ops);
    SumAtMost(_ => 0, UncountedOf, s.ops);
    SumZero(s.ops);
  }

  /** A deadlock is a lost state at rest, and conversely. */
  lemma DeadlockedIffLostAtRest(cfg: Config, s: State)
    requires Reachable(cfg, s) && cfg.Fits(Rejects(s))
    ensures D.Deadlocked(cfg, s) <==> AllInGet(cfg, s) && AtRest(s) && Lost(cfg, s)
  {
    ReachableBalanced(cfg, s);
    if AtRest(s) {
      RestSums(cfg, s);
    }
    if D.Deadlocked(cfg, s) {
      forall i | 0 <= i < |s.ops| ensures !s.ops[i].phase.GetRead? && !s.ops[i].phase.GetCas? {
        assert BusyOf(s.ops[i]) == 1 ==> D.IsWaiting(cfg.limit, s.ops[i]);
      }
    }
  }

  /** So at rest, with every worker inside Get, nobody can be let through any more if and only if
      the state is deadlocked. */
  lemma StuckAtRestIffDeadlocked(cfg: Config, s: State)
    requires cfg.Valid() && Reachable(cfg, s) && cfg.Fits(Rejects(s)) && AllInGet(cfg, s) && AtRest(s)
    ensures !LetsThrough(cfg, s) <==> D.Deadlocked(cfg, s)
  {
    LetsThroughIffNotLost(cfg, s);
    DeadlockedIffLostAtRest(cfg, s);
  }

  /** Before that a state can be lost without being deadlocked: whenever a throttle can hang its
      workers, with operations still in flight that will not help. */
  lemma LostBeforeDeadlocked(cfg: Config) returns (s: State)
    requires cfg.Valid() && cfg.Small() && cfg.maxCost * cfg.workers > cfg.limit
    ensures Reachable(cfg, s) && AllInGet(cfg, s) && Lost(cfg, s) && !D.Deadlocked(cfg, s)
  {
    var full;
    s, full := D.FillFromInit(cfg);
    s := D.Crowd(cfg, s, full, 0, cfg.workers);
    QuietIsLost(cfg, s, full);
    var i := SomeTerm(InFlightOf, s.ops);
    assert IsInFlight(s.ops[i]);
  }

  lemma QuietIsLost(cfg: Config, s: State, live: int)
    requires cfg.Valid() && cfg.Small() && cfg.maxCost * cfg.workers > cfg.limit
    requires D.Quiet(cfg, s, live, cfg.workers, 0)
    ensures AllInGet(cfg, s) && Lost(cfg, s)
  {
    ReachableBalanced(cfg, s);
    HighFits(cfg, s);
    SumBusyCost(cfg.maxCost, s.ops);
    forall i | 0 <= i < |s.ops| ensures BusyCost(cfg.maxCost)(s.ops[i]) <= CountedOf(s.ops[i]) {
      assert D.QuietOp(cfg, s.ops[i]);
    }
    SumAtMost(BusyCost(cfg.maxCost), CountedOf, s.ops);
    forall i | 0 <= i < |s.ops| ensures !s.ops[i].phase.RejectRead? && !s.ops[i].phase.RejectCas? {
      assert D.QuietOp(cfg, s.ops[i]);
    }
    forall i | 0 <= i < |s.ops| && s.ops[i].phase.Counted? ensures s.ops[i].phase.seen > cfg.limit {
      assert D.QuietOp(cfg, s.ops[i]);
    }
  }
}
