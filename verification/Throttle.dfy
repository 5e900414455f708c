/**
 The compare-and-swap throttles of the server adaptor (GetlwtCas/PutlwtCas and their
 write, read, bandwidth and iops siblings) as interleaved atomic steps.

 Every operation owns its place in a Get or Put call, and `Move(i)` performs the next
 single access to the shared counter on behalf of operation `i`: a read, a
 compare-and-swap, or a re-read.  Any number of operations may be in any place at once,
 so a run is an arbitrary interleaving of any number of threads.
 */
module Throttle {

  /** The counters are `volatile uint64_t`: additions and subtractions wrap. */
  const WORD: nat := 0x1_0000_0000_0000_0000

  function Wrap(x: int): nat {
    x % WORD
  }

  /** One counter: its limit, the worker threads that pass it, the least and the greatest
      cost of an operation, and whether Put is guarded.  A guarded Put tests the counter
      before subtracting; the lwt counter's does not, and it is the only counter a rejected
      operation decrements.  The lwt, write, read and iops counters count operations, the
      two bandwidth counters add up lengths. */
  datatype Config = Config(limit: nat, workers: nat, minCost: nat, maxCost: nat, guarded: bool) {
    predicate Valid() {
      0 < limit && 0 < workers && minCost <= maxCost && (!guarded ==> CountsOps())
    }

    predicate CountsOps() {
      minCost == maxCost == 1
    }

    /** All the cost that can ever be held at once, after so many rejections, fits the 64-bit
        counter. */
    predicate Fits(rejects: int) {
      limit + (workers + 1) * maxCost + rejects < WORD
    }

    predicate Small() { Fits(0) }
  }

  datatype Phase =
    | Queued                  // waiting in a worker's queue
    | GetRead                 // in Get, about to read the counter
    | GetCas(seen: nat)       // in Get, about to compare-and-swap
    | Counted(seen: nat)      // already added; `seen` decides the waiting loop
    | InFlight                // past Get, handed to the engine
    | PutGuard                // in a guarded Put, about to compare the counter with the cost
    | PutRead
    | PutCas(seen: nat)
    | Finished
    | GaveUp                  // a guarded Put took its early return
    | RejectRead              // rejected inside ProcessOpReq: Put without any Get
    | RejectCas(seen: nat)
    | Rejected

  datatype Op = Op(cost: nat, phase: Phase)

  /** `lastCost` is a history variable: the cost of the operation whose read of the
      counter was the last to let it through (a read at most the limit). */
  datatype State = State(count: nat, ops: seq<Op>, lastCost: nat)

  const INIT: State := State(0, [], 0)

  datatype Step = Arrive(cost: nat) | Start(i: nat) | StartReject(i: nat) | Move(i: nat)

  // ---------------------------------------------------------------------------
  // Sums over the operations

  ghost function Sum(f: Op -> int, ops: seq<Op>): int {
    if ops == [] then 0 else f(ops[0]) + Sum(f, ops[1..])
  }

  lemma {:induction false} SumUpdate(f: Op -> int, ops: seq<Op>, i: nat, op: Op)
    requires i < |ops|
    ensures Sum(f, ops[i := op]) == Sum(f, ops) - f(ops[i]) + f(op)
  {
    if i == 0 {
      assert ops[i := op][1..] == ops[1..];
    } else {
      assert ops[i := op][1..] == ops[1..][i - 1 := op];
      SumUpdate(f, ops[1..], i - 1, op);
    }
  }

  lemma {:induction false} SumAppend(f: Op -> int, ops: seq<Op>, op: Op)
    ensures Sum(f, ops + [op]) == Sum(f, ops) + f(op)
  {
    if ops == [] {
      assert ops + [op] == [op];
    } else {
      assert (ops + [op])[1..] == ops[1..] + [op];
      SumAppend(f, ops[1..], op);
    }
  }

  lemma {:induction false} SumAtMost(f: Op -> int, g: Op -> int, ops: seq<Op>)
    requires forall k :: 0 <= k < |ops| ==> f(ops[k]) <= g(ops[k])
    ensures Sum(f, ops) <= Sum(g, ops)
  {
    if ops != [] {
      assert forall k :: 0 <= k < |ops[1..]| ==> ops[1..][k] == ops[k + 1];
      SumAtMost(f, g, ops[1..]);
    }
  }

  lemma {:induction false} SumHasTerm(f: Op -> int, ops: seq<Op>, i: nat)
    requires i < |ops|
    requires forall k :: 0 <= k < |ops| ==> 0 <= f(ops[k])
    ensures f(ops[i]) <= Sum(f, ops)
  {
    var zero := _ => 0;
    assert forall k :: 0 <= k < |ops[1..]| ==> ops[1..][k] == ops[k + 1];
    if i == 0 {
      SumAtMost(zero, f, ops[1..]);
      SumZero(ops[1..]);
    } else {
      SumHasTerm(f, ops[1..], i - 1);
    }
  }

  lemma {:induction false} SumZero(ops: seq<Op>)
    ensures Sum(_ => 0, ops) == 0
  {
    if ops != [] { SumZero(ops[1..]); }
  }

  /** The cost an operation holds: from its Get swap up to its Put swap. */
  ghost function HeldBy(op: Op): int {
    match op.phase
    case Counted(_) | InFlight | PutGuard | PutRead | PutCas(_) | GaveUp => op.cost
    case _ => 0
  }

  ghost function RejectOf(op: Op): int {
    if op.phase.Rejected? then 1 else 0
  }

  /** Occupies one of the worker threads. */
  ghost function BusyOf(op: Op): int {
    match op.phase
    case GetRead | GetCas(_) | Counted(_) | RejectRead | RejectCas(_) => 1
    case _ => 0
  }

  /** Let through by its own read of the counter, and not yet given back. */
  ghost function ThroughOf(limit: nat, op: Op): int {
    match op.phase
    case Counted(seen) => if seen <= limit then op.cost else 0
    case InFlight | PutGuard | PutRead | PutCas(_) => op.cost
    case _ => 0
  }

  predicate IsInFlight(op: Op) {
    op.phase.InFlight? || op.phase.PutGuard? || op.phase.PutRead? || op.phase.PutCas?
  }

  ghost function InFlightOf(op: Op): int {
    if IsInFlight(op) then op.cost else 0
  }

  ghost function Held(s: State): int { Sum(HeldBy, s.ops) }
  ghost function Rejects(s: State): int { Sum(RejectOf, s.ops) }
  ghost function Busy(s: State): int { Sum(BusyOf, s.ops) }
  ghost function Through(limit: nat, s: State): int { Sum((op: Op) => ThroughOf(limit, op), s.ops) }
  ghost function InFlightCost(s: State): int { Sum(InFlightOf, s.ops) }

  // ---------------------------------------------------------------------------
  // The steps

  ghost predicate Enabled(cfg: Config, s: State, step: Step) {
    match step
    case Arrive(cost) => cfg.minCost <= cost <= cfg.maxCost
    case Start(i) => i < |s.ops| && s.ops[i].phase.Queued? && Busy(s) < cfg.workers
    case StartReject(i) => !cfg.guarded && i < |s.ops| && s.ops[i].phase.Queued? && Busy(s) < cfg.workers
    case Move(i) =>
      i < |s.ops| && match s.ops[i].phase
        case Queued | Finished | GaveUp | Rejected => false
        case _ => true
  }

  /** What one access to the counter does for an operation of this cost: the new counter,
      the operation's new place, and whether this access let the operation through. */
  function Access(cfg: Config, count: nat, op: Op): (r: (nat, Phase, bool)) {
    match op.phase
    case GetRead => (count, GetCas(count), false)
    case GetCas(seen) =>
      if count == seen then (Wrap(seen + op.cost), Counted(seen), seen <= cfg.limit)
      else (count, GetRead, false)
    case Counted(seen) =>
      if seen > cfg.limit then (count, Counted(count), count <= cfg.limit)
      else (count, InFlight, false)
    case InFlight => (count, if cfg.guarded then PutGuard else PutRead, false)
    case PutGuard => (count, if count < op.cost then GaveUp else PutRead, false)
    case PutRead => (count, PutCas(count), false)
    case PutCas(seen) =>
      if count == seen then (Wrap(seen - op.cost), Finished, false)
      else (count, if cfg.guarded then PutGuard else PutRead, false)
    case RejectRead => (count, RejectCas(count), false)
    case RejectCas(seen) =>
      if count == seen then (Wrap(seen - 1), Rejected, false)
      else (count, RejectRead, false)
    case _ => (count, op.phase, false)
  }

  ghost function Apply(cfg: Config, s: State, step: Step): State
    requires Enabled(cfg, s, step)
  {
    match step
    case Arrive(cost) => s.(ops := s.ops + [Op(cost, Queued)])
    case Start(i) => s.(ops := s.ops[i := s.ops[i].(phase := GetRead)])
    case StartReject(i) => s.(ops := s.ops[i := s.ops[i].(phase := RejectRead)])
    case Move(i) =>
      var (count, phase, through) := Access(cfg, s.count, s.ops[i]);
      State(count, s.ops[i := s.ops[i].(phase := phase)], if through then s.ops[i].cost else s.lastCost)
  }

  ghost predicate Next(cfg: Config, s: State, t: State) {
    exists step: Step :: Enabled(cfg, s, step) && t == Apply(cfg, s, step)
  }

  ghost predicate IsRun(cfg: Config, run: seq<State>) {
    && 0 < |run| && run[0] == INIT
    && forall k :: 0 <= k < |run| - 1 ==> Next(cfg, run[k], run[k + 1])
  }

  ghost predicate EndsIn(cfg: Config, run: seq<State>, s: State) {
    IsRun(cfg, run) && run[|run| - 1] == s
  }

  ghost predicate Reachable(cfg: Config, s: State) {
    exists run :: EndsIn(cfg, run, s)
  }

  lemma ReachableInit(cfg: Config)
    ensures Reachable(cfg, INIT)
  {
    assert EndsIn(cfg, [INIT], INIT);
  }

  lemma ReachableNext(cfg: Config, s: State, step: Step)
    requires Reachable(cfg, s) && Enabled(cfg, s, step)
    ensures Reachable(cfg, Apply(cfg, s, step))
  {
    var run :| EndsIn(cfg, run, s);
    var t := Apply(cfg, s, step);
    assert Next(cfg, s, t);
    var longer := run + [t];
    forall k | 0 <= k < |longer| - 1 ensures Next(cfg, longer[k], longer[k + 1]) {
      if k < |run| - 1 { assert Next(cfg, run[k], run[k + 1]); }
    }
    assert EndsIn(cfg, longer, t);
  }

  // ---------------------------------------------------------------------------
  // Conservation

  /** The counter is what is held minus what rejected operations took away, as a word. */
  ghost predicate Balanced(s: State) {
    s.count == Wrap(Held(s) - Rejects(s))
  }

  lemma SumStep(f: Op -> int, cfg: Config, s: State, step: Step)
    requires Enabled(cfg, s, step)
    ensures var t := Apply(cfg, s, step);
      Sum(f, t.ops) == Sum(f, s.ops) +
        match step
        case Arrive(cost) => f(Op(cost, Queued))
        case Start(i) => f(t.ops[i]) - f(s.ops[i])
        case StartReject(i) => f(t.ops[i]) - f(s.ops[i])
        case Move(i) => f(t.ops[i]) - f(s.ops[i])
  {
    match step
    case Arrive(cost) => SumAppend(f, s.ops, Op(cost, Queued));
    case Start(i) => SumUpdate(f, s.ops, i, s.ops[i].(phase := GetRead));
    case StartReject(i) => SumUpdate(f, s.ops, i, s.ops[i].(phase := RejectRead));
    case Move(i) => SumUpdate(f, s.ops, i, s.ops[i].(phase := Access(cfg, s.count, s.ops[i]).1));
  }

  /** One access changes the counter by what the operation comes to hold or is rejected for. */
  lemma AccessDelta(cfg: Config, count: nat, op: Op)
    requires count < WORD
    ensures var (count', phase, _) := Access(cfg, count, op);
      var op' := op.(phase := phase);
      count' == Wrap(count + (HeldBy(op') - HeldBy(op)) - (RejectOf(op') - RejectOf(op)))
  {
    match op.phase
    case GetCas(seen) =>
    case PutCas(seen) =>
    case RejectCas(seen) =>
    case _ =>
  }

  lemma WrapShift(x: int, d: int)
    ensures Wrap(Wrap(x) + d) == Wrap(x + d) && Wrap(x) < WORD
  {
    assert x == x / WORD * WORD + Wrap(x);
    assert (Wrap(x) + d + x / WORD * WORD) % WORD == (Wrap(x) + d) % WORD;
  }

  lemma BalancedStep(cfg: Config, s: State, step: Step)
    requires Balanced(s) && Enabled(cfg, s, step)
    ensures Balanced(Apply(cfg, s, step))
  {
    SumStep(HeldBy, cfg, s, step);
    SumStep(RejectOf, cfg, s, step);
    if step.Move? {
      var t, i := Apply(cfg, s, step), step.i;
      WrapShift(Held(s) - Rejects(s),
        (HeldBy(t.ops[i]) - HeldBy(s.ops[i])) - (RejectOf(t.ops[i]) - RejectOf(s.ops[i])));
      AccessDelta(cfg, s.count, s.ops[i]);
    }
  }

  lemma {:induction false} BalancedRun(cfg: Config, run: seq<State>, k: nat)
    requires IsRun(cfg, run) && k < |run|
    ensures Balanced(run[k])
  {
    if k > 0 {
      BalancedRun(cfg, run, k - 1);
      assert Next(cfg, run[k - 1], run[k - 1 + 1]);
      var step :| Enabled(cfg, run[k - 1], step) && run[k] == Apply(cfg, run[k - 1], step);
      BalancedStep(cfg, run[k - 1], step);
    }
  }

  /** Main result 1.  In every reachable state the counter equals the cost of the operations
      between their Get swap and their Put swap exactly when no operation was rejected. */
  lemma CounterIsHeldCostIffNothingRejected(cfg: Config, s: State)
    requires Reachable(cfg, s)
    requires Held(s) < WORD && Rejects(s) < WORD
    ensures s.count == Held(s) <==> Rejects(s) == 0
  {
    var run :| EndsIn(cfg, run, s);
    BalancedRun(cfg, run, |run| - 1);
    SumAtMost(_ => 0, HeldBy, s.ops);
    SumAtMost(_ => 0, RejectOf, s.ops);
    SumZero(s.ops);
  }

  /** What a guarded counter keeps: nothing rejected, no Put gave up. */
  ghost predicate NoneLost(s: State) {
    && Balanced(s)
    && Rejects(s) == 0
    && forall i :: 0 <= i < |s.ops| ==>
      !s.ops[i].phase.GaveUp? && !s.ops[i].phase.RejectRead? && !s.ops[i].phase.RejectCas?
  }

  lemma HeldCoversEachOp(s: State, i: nat)
    requires i < |s.ops|
    ensures HeldBy(s.ops[i]) <= Held(s)
  {
    SumHasTerm(HeldBy, s.ops, i);
  }

  lemma NoneLostStep(cfg: Config, s: State, step: Step)
    requires cfg.guarded && NoneLost(s) && Held(s) < WORD && Enabled(cfg, s, step)
    ensures NoneLost(Apply(cfg, s, step))
  {
    BalancedStep(cfg, s, step);
    SumStep(RejectOf, cfg, s, step);
    if step.Move? {
      HeldCoversEachOp(s, step.i);
    }
  }

  lemma NoneLostCount(s: State)
    requires NoneLost(s) && Held(s) < WORD
    ensures s.count == Held(s)
    ensures forall i :: 0 <= i < |s.ops| && IsInFlight(s.ops[i]) ==> s.ops[i].cost <= s.count
  {
    SumAtMost(_ => 0, HeldBy, s.ops);
    SumZero(s.ops);
    forall i | 0 <= i < |s.ops| && IsInFlight(s.ops[i]) ensures s.ops[i].cost <= s.count {
      HeldCoversEachOp(s, i);
    }
  }

  /** Main result 2.  A guarded Put never takes its early return and never subtracts below
      zero, whatever happens between its test, its read and its swap, as long as the
      outstanding cost fits the 64-bit counter. */
  lemma {:induction false} GuardedPutNeverGivesUp(cfg: Config, run: seq<State>, k: nat)
    requires cfg.guarded && IsRun(cfg, run) && k < |run|
    requires forall j :: 0 <= j < |run| ==> Held(run[j]) < WORD
    ensures NoneLost(run[k]) && run[k].count == Held(run[k])
    ensures forall i :: 0 <= i < |run[k].ops| && IsInFlight(run[k].ops[i]) ==> run[k].ops[i].cost <= run[k].count
    ensures forall i :: 0 <= i < |run[k].ops| ==> !run[k].ops[i].phase.GaveUp?
  {
    if k > 0 {
      GuardedPutNeverGivesUp(cfg, run, k - 1);
      assert Next(cfg, run[k - 1], run[k - 1 + 1]);
      var step :| Enabled(cfg, run[k - 1], step) && run[k] == Apply(cfg, run[k - 1], step);
      NoneLostStep(cfg, run[k - 1], step);
    }
    NoneLostCount(run[k]);
  }

  // ---------------------------------------------------------------------------
  // The admission bound

  lemma ThroughIsHeld(limit: nat, s: State)
    ensures 0 <= Through(limit, s) <= Held(s)
  {
    SumAtMost((op: Op) => ThroughOf(limit, op), HeldBy, s.ops);
    SumAtMost(_ => 0, (op: Op) => ThroughOf(limit, op), s.ops);
    SumZero(s.ops);
  }

  lemma RejectsAtLeastZero(s: State)
    ensures 0 <= Rejects(s)
  {
    SumAtMost(_ => 0, RejectOf, s.ops);
    SumZero(s.ops);
  }

  /** A read of at most the limit means that at most the limit and the rejections are held. */
  lemma ReadWithinLimit(s: State, limit: nat)
    requires Balanced(s) && Held(s) < WORD && s.count <= limit
    ensures Held(s) <= limit + Rejects(s)
  {
    RejectsAtLeastZero(s);
  }

  lemma RejectsGrow(cfg: Config, s: State, step: Step)
    requires Enabled(cfg, s, step)
    ensures 0 <= Rejects(s) <= Rejects(Apply(cfg, s, step))
  {
    SumStep(RejectOf, cfg, s, step);
    RejectsAtLeastZero(s);
  }

  ghost predicate ThroughBounded(cfg: Config, s: State) {
    Through(cfg.limit, s) <= cfg.limit + s.lastCost + Rejects(s)
  }

  lemma ThroughStep(cfg: Config, s: State, step: Step)
    requires Enabled(cfg, s, step) && Balanced(s) && Held(s) < WORD && ThroughBounded(cfg, s)
    ensures ThroughBounded(cfg, Apply(cfg, s, step))
  {
    var t := Apply(cfg, s, step);
    RejectsGrow(cfg, s, step);
    SumStep((op: Op) => ThroughOf(cfg.limit, op), cfg, s, step);
    if step.Move? && Access(cfg, s.count, s.ops[step.i]).2 {
      ReadWithinLimit(s, cfg.limit);
      ThroughIsHeld(cfg.limit, t);
      SumStep(HeldBy, cfg, s, step);
    }
  }

  /** What is held fits the 64-bit counter in every state. */
  ghost predicate FitsWord(run: seq<State>) {
    forall j :: 0 <= j < |run| ==> Held(run[j]) < WORD
  }

  /** Main result 3.  Although waiting operations are already counted, the cost of the
      operations past Get never exceeds the limit plus the cost of the operation let
      through last, plus one for every rejection. */
  lemma {:induction false} InFlightCostIsBounded(cfg: Config, run: seq<State>, k: nat)
    requires IsRun(cfg, run) && FitsWord(run) && k < |run|
    ensures InFlightCost(run[k]) <= Through(cfg.limit, run[k]) <= cfg.limit + run[k].lastCost + Rejects(run[k])
  {
    SumAtMost(InFlightOf, (op: Op) => ThroughOf(cfg.limit, op), run[k].ops);
    if k > 0 {
      InFlightCostIsBounded(cfg, run, k - 1);
      BalancedRun(cfg, run, k - 1);
      assert Next(cfg, run[k - 1], run[k - 1 + 1]);
      var step :| Enabled(cfg, run[k - 1], step) && run[k] == Apply(cfg, run[k - 1], step);
      ThroughStep(cfg, run[k - 1], step);
    }
  }

  // ---------------------------------------------------------------------------
  // Costs in range

  /** Every cost is in range, only a guarded counter has guarded Puts, and only the other has
      rejections. */
  ghost predicate InRange(cfg: Config, s: State) {
    && s.lastCost <= cfg.maxCost
    && forall i :: 0 <= i < |s.ops| ==>
         && cfg.minCost <= s.ops[i].cost <= cfg.maxCost
         && (!cfg.guarded ==> !s.ops[i].phase.GaveUp? && !s.ops[i].phase.PutGuard?)
         && (cfg.guarded ==> !IsReject(s.ops[i]))
  }

  predicate IsReject(op: Op) { op.phase.RejectRead? || op.phase.RejectCas? || op.phase.Rejected? }

  lemma InRangeStep(cfg: Config, s: State, step: Step)
    requires InRange(cfg, s) && Enabled(cfg, s, step)
    ensures InRange(cfg, Apply(cfg, s, step))
  {
  }

  lemma {:induction false} InRangeRun(cfg: Config, run: seq<State>, k: nat)
    requires IsRun(cfg, run) && k < |run|
    ensures InRange(cfg, run[k])
  {
    if k > 0 {
      InRangeRun(cfg, run, k - 1);
      assert Next(cfg, run[k - 1], run[k - 1 + 1]);
      var step :| Enabled(cfg, run[k - 1], step) && run[k] == Apply(cfg, run[k - 1], step);
      InRangeStep(cfg, run[k - 1], step);
    }
  }

  /** For the counters of operations the bound is one more than the configured limit, and on
      the lwt counter one more again for every rejection. */
  lemma OpsInFlightAtMostLimitPlusOne(cfg: Config, run: seq<State>, k: nat)
    requires cfg.CountsOps() && IsRun(cfg, run) && FitsWord(run) && k < |run|
    ensures InFlightCost(run[k]) <= cfg.limit + 1 + Rejects(run[k])
    ensures cfg.guarded ==> InFlightCost(run[k]) <= cfg.limit + 1
  {
    InFlightCostIsBounded(cfg, run, k);
    InRangeRun(cfg, run, k);
    if cfg.guarded {
      GuardedRejectsNothing(cfg, run[k]);
    }
  }

  lemma GuardedRejectsNothing(cfg: Config, s: State)
    requires cfg.guarded && InRange(cfg, s)
    ensures Rejects(s) == 0
  {
    SumAtMost(RejectOf, _ => 0, s.ops);
    SumAtMost(_ => 0, RejectOf, s.ops);
    SumZero(s.ops);
  }

  // ---------------------------------------------------------------------------
  // The counter never overflows

  /** What is held is let through already, or held by a worker that waits. */
  ghost predicate Sane(cfg: Config, s: State) {
    && Balanced(s) && InRange(cfg, s) && 0 <= Busy(s) <= cfg.workers
    && (forall i :: 0 <= i < |s.ops| ==> !s.ops[i].phase.GaveUp?)
    && ThroughBounded(cfg, s)
  }

  /** One full cost for every worker occupied. */
  ghost function BusyCost(cost: nat): Op -> int {
    (op: Op) => if BusyOf(op) == 1 then cost else 0
  }

  lemma {:induction false} SumBusyCost(cost: nat, ops: seq<Op>)
    ensures Sum(BusyCost(cost), ops) == cost * Sum(BusyOf, ops)
  {
    if ops != [] {
      SumBusyCost(cost, ops[1..]);
      assert cost * (1 + Sum(BusyOf, ops[1..])) == cost + cost * Sum(BusyOf, ops[1..]);
    }
  }

  ghost function Plus(f: Op -> int, g: Op -> int): Op -> int {
    (op: Op) => f(op) + g(op)
  }

  lemma {:induction false} SumPlus(f: Op -> int, g: Op -> int, ops: seq<Op>)
    ensures Sum(Plus(f, g), ops) == Sum(f, ops) + Sum(g, ops)
  {
    if ops != [] {
      SumPlus(f, g, ops[1..]);
    }
  }

  lemma HeldIsBounded(cfg: Config, s: State)
    requires InRange(cfg, s) && forall i :: 0 <= i < |s.ops| ==> !s.ops[i].phase.GaveUp?
    ensures 0 <= Held(s) <= Through(cfg.limit, s) + cfg.maxCost * Busy(s)
  {
    var through := (op: Op) => ThroughOf(cfg.limit, op);
    SumPlus(through, BusyCost(cfg.maxCost), s.ops);
    SumBusyCost(cfg.maxCost, s.ops);
    SumAtMost(HeldBy, Plus(through, BusyCost(cfg.maxCost)), s.ops);
    SumAtMost(_ => 0, HeldBy, s.ops);
    SumZero(s.ops);
  }

  /** A sane state holds at most limit + (workers + 1) * maxCost, and one for every rejection. */
  lemma SaneHeld(cfg: Config, s: State)
    requires Sane(cfg, s)
    ensures 0 <= Held(s) <= cfg.limit + (cfg.workers + 1) * cfg.maxCost + Rejects(s)
  {
    HeldIsBounded(cfg, s);
    assert cfg.maxCost * Busy(s) <= cfg.maxCost * cfg.workers;
    assert (cfg.workers + 1) * cfg.maxCost == cfg.maxCost * cfg.workers + cfg.maxCost;
  }

  lemma SaneBusy(cfg: Config, s: State, step: Step)
    requires 0 <= Busy(s) <= cfg.workers && Enabled(cfg, s, step)
    ensures 0 <= Busy(Apply(cfg, s, step)) <= cfg.workers
  {
    SumStep(BusyOf, cfg, s, step);
    SumAtMost(_ => 0, BusyOf, Apply(cfg, s, step).ops);
    SumZero(Apply(cfg, s, step).ops);
  }

  lemma SaneGivesUpNothing(cfg: Config, s: State, step: Step)
    requires Sane(cfg, s) && Held(s) < WORD && Enabled(cfg, s, step)
    ensures forall i :: 0 <= i < |Apply(cfg, s, step).ops| ==> !Apply(cfg, s, step).ops[i].phase.GaveUp?
  {
    HeldIsBounded(cfg, s);
    if step.Move? && cfg.guarded {
      GuardedRejectsNothing(cfg, s);
      HeldCoversEachOp(s, step.i);
    }
  }

  lemma SaneStep(cfg: Config, s: State, step: Step)
    requires Sane(cfg, s) && Held(s) < WORD && Enabled(cfg, s, step)
    ensures Sane(cfg, Apply(cfg, s, step))
  {
    BalancedStep(cfg, s, step);
    InRangeStep(cfg, s, step);
    SaneBusy(cfg, s, step);
    SaneGivesUpNothing(cfg, s, step);
    ThroughStep(cfg, s, step);
  }

  lemma {:induction false} SaneRun(cfg: Config, run: seq<State>, k: nat)
    requires IsRun(cfg, run) && k < |run| && cfg.Fits(Rejects(run[k]))
    ensures Sane(cfg, run[k])
  {
    if k > 0 {
      assert Next(cfg, run[k - 1], run[k - 1 + 1]);
      var step :| Enabled(cfg, run[k - 1], step) && run[k] == Apply(cfg, run[k - 1], step);
      RejectsGrow(cfg, run[k - 1], step);
      SaneRun(cfg, run, k - 1);
      SaneHeld(cfg, run[k - 1]);
      SaneStep(cfg, run[k - 1], step);
    }
  }

  /** Main result 4.  If the limit, the costs of one operation per worker and one more, and the
      rejections so far fit the counter, less than 2^64 is held: the assumption `FitsWord` of
      the bounds above is met, no Put gives up, and without rejections the counter is exact. */
  lemma StatesAreExact(cfg: Config, run: seq<State>, k: nat)
    requires IsRun(cfg, run) && k < |run| && cfg.Fits(Rejects(run[k]))
    ensures 0 <= Held(run[k]) <= cfg.limit + (cfg.workers + 1) * cfg.maxCost + Rejects(run[k]) < WORD
    ensures Rejects(run[k]) == 0 ==> run[k].count == Held(run[k])
    ensures forall i :: 0 <= i < |run[k].ops| ==> !run[k].ops[i].phase.GaveUp?
  {
    SaneRun(cfg, run, k);
    SaneHeld(cfg, run[k]);
  }
}
