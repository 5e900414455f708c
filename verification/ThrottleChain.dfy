/**
 The throttles as a worker meets them: one after the other, keeping those it has passed while it
 waits in the next, and giving them back in reverse once the operation is finished.  Writes and
 reads take different routes through the throttles; routes are sets of throttles, passed in the
 order of their indices.

 The state is a product: for every throttle the operations' places in it and its counter, as in
 `Throttle`.  What couples the throttles is which access may come next.
 */
module ThrottleChain {
  import T = Throttle
  import opened Counting

  datatype Config = Config(stages: seq<T.Config>, workers: nat, routes: set<set<nat>>) {
    predicate Valid() {
      && 0 < workers
      && (forall j :: 0 <= j < |stages| ==> stages[j].Valid() && stages[j].Small() && stages[j].workers == workers)
      && (forall r, j :: r in routes && j in r ==> j < |stages|)
    }
  }

  /** The route of every operation, and every throttle's view of all operations; an operation
      stays queued in the throttles that are not on its route. */
  datatype State = State(routes: seq<set<nat>>, views: seq<T.State>)

  function Init(cfg: Config): State { State([], seq(|cfg.stages|, _ => T.INIT)) }

  predicate Shape(cfg: Config, s: State) {
    && |s.views| == |cfg.stages|
    && (forall j :: 0 <= j < |s.views| ==> |s.views[j].ops| == |s.routes|)
    && (forall i :: 0 <= i < |s.routes| ==> s.routes[i] in cfg.routes)
  }

  /** The place of operation i in throttle j. */
  function At(s: State, i: nat, j: nat): T.Phase {
    if j < |s.views| && i < |s.views[j].ops| then s.views[j].ops[i].phase else T.Queued
  }

  predicate On(s: State, i: nat, j: nat) { i < |s.routes| && j in s.routes[i] }

  predicate InGet(p: T.Phase) { p.GetRead? || p.GetCas? || p.Counted? }
  predicate InPut(p: T.Phase) { p.PutGuard? || p.PutRead? || p.PutCas? }
  predicate Over(p: T.Phase) { p.Finished? || p.GaveUp? }
  predicate Passed(p: T.Phase) { p.InFlight? || InPut(p) || Over(p) }

  /** A sum over operations, each of which adds at most `cost` and only if it is counted. */
  lemma {:induction false} SumByCount(f: T.Op -> int, ops: seq<T.Op>, p: nat -> bool, cost: nat, n: nat)
    requires n <= |ops| && forall i :: 0 <= i < n ==> f(ops[i]) <= if p(i) then cost else 0
    ensures T.Sum(f, ops[..n]) <= cost * Count(p, n)
  {
    if n > 0 {
      SumByCount(f, ops, p, cost, n - 1);
      assert ops[..n] == ops[..n - 1] + [ops[n - 1]];
      T.SumAppend(f, ops[..n - 1], ops[n - 1]);
      assert cost * (Count(p, n - 1) + 1) == cost * Count(p, n - 1) + cost;
    }
  }

  // ---------------------------------------------------------------------------
  // The steps

  /** A worker has the operation: it has started, and has a throttle left to pass. */
  ghost predicate IsBusy(s: State, i: nat) {
    && (exists a: nat :: On(s, i, a) && At(s, i, a) != T.Queued)
    && (exists b: nat :: On(s, i, b) && (At(s, i, b) == T.Queued || InGet(At(s, i, b))))
  }

  ghost function BusyIn(s: State): nat -> bool { (i: nat) => IsBusy(s, i) }

  ghost function Busy(s: State): nat { Count(BusyIn(s), |s.routes|) }

  ghost predicate Before(s: State, i: nat, j: nat) {
    forall a: nat :: On(s, i, a) && a < j ==> At(s, i, a) == T.InFlight
  }

  /** The Put of throttle j is next: those of later throttles are over, those of earlier ones
      have not begun. */
  ghost predicate PutsAt(s: State, i: nat, j: nat) {
    Before(s, i, j) && forall a: nat :: On(s, i, a) && j < a ==> Over(At(s, i, a))
  }

  datatype Event =
    | Arrive(route: set<nat>, costs: seq<nat>)
    | Enter(i: nat, j: nat)         // the worker calls the Get of throttle j
    | Access(i: nat, j: nat)        // one access to the counter of throttle j

  ghost predicate Enabled(cfg: Config, s: State, e: Event) {
    match e
    case Arrive(route, costs) =>
      && route in cfg.routes && |costs| == |cfg.stages|
      && forall j :: 0 <= j < |costs| ==> cfg.stages[j].minCost <= costs[j] <= cfg.stages[j].maxCost
    case Enter(i, j) =>
      && On(s, i, j) && At(s, i, j) == T.Queued && Before(s, i, j)
      && ((exists a: nat :: On(s, i, a) && a < j) || Busy(s) < cfg.workers)
    case Access(i, j) =>
      && On(s, i, j)
      && (InGet(At(s, i, j)) || ((At(s, i, j) == T.InFlight || InPut(At(s, i, j))) && PutsAt(s, i, j)))
  }

  ghost function Apply(cfg: Config, s: State, e: Event): State
    requires cfg.Valid() && Shape(cfg, s) && Enabled(cfg, s, e)
  {
    match e
    case Arrive(route, costs) =>
      State(s.routes + [route], seq(|s.views|, j requires 0 <= j < |s.views| =>
        s.views[j].(ops := s.views[j].ops + [T.Op(costs[j], T.Queued)])))
    case Enter(i, j) =>
      var v := s.views[j];
      s.(views := s.views[j := v.(ops := v.ops[i := v.ops[i].(phase := T.GetRead)])])
    case Access(i, j) =>
      s.(views := s.views[j := T.Apply(cfg.stages[j], s.views[j], T.Move(i))])
  }

  ghost predicate Next(cfg: Config, s: State, t: State)
    requires cfg.Valid()
  {
    Shape(cfg, s) && exists e: Event :: Enabled(cfg, s, e) && t == Apply(cfg, s, e)
  }

  ghost predicate IsRun(cfg: Config, run: seq<State>)
    requires cfg.Valid()
  {
    && 0 < |run| && run[0] == Init(cfg)
    && forall k :: 0 <= k < |run| - 1 ==> Next(cfg, run[k], run[k + 1])
  }

  ghost predicate Reachable(cfg: Config, s: State)
    requires cfg.Valid()
  {
    exists run :: IsRun(cfg, run) && run[|run| - 1] == s
  }

  lemma ReachableInit(cfg: Config)
    requires cfg.Valid()
    ensures Reachable(cfg, Init(cfg))
  {
    assert IsRun(cfg, [Init(cfg)]);
  }

  lemma ReachableNext(cfg: Config, s: State, e: Event)
    requires cfg.Valid() && Reachable(cfg, s) && Shape(cfg, s) && Enabled(cfg, s, e)
    ensures Reachable(cfg, Apply(cfg, s, e))
  {
    var run :| IsRun(cfg, run) && run[|run| - 1] == s;
    var t := Apply(cfg, s, e);
    assert Next(cfg, s, t);
    var longer := run + [t];
    forall k | 0 <= k < |longer| - 1 ensures Next(cfg, longer[k], longer[k + 1]) {
      if k < |run| - 1 { assert Next(cfg, run[k], run[k + 1]); }
    }
    assert IsRun(cfg, longer) && longer[|longer| - 1] == t;
  }

  // ---------------------------------------------------------------------------
  // The invariant

  /** Throttles are passed in order and given back in reverse: what an earlier and a later
      throttle on the route may say of one operation. */
  predicate PairOk(earlier: T.Phase, later: T.Phase) {
    && (later != T.Queued ==> Passed(earlier))
    && (InPut(earlier) || Over(earlier) ==> Over(later))
  }

  predicate PlaceOk(p: T.Phase) { p == T.Queued || InGet(p) || Passed(p) }

  ghost predicate InOrder(s: State, i: nat) {
    && (forall j: nat :: !On(s, i, j) ==> At(s, i, j) == T.Queued)
    && (forall j: nat :: On(s, i, j) ==> PlaceOk(At(s, i, j)))
    && (forall a: nat, b: nat :: On(s, i, a) && On(s, i, b) && a < b ==> PairOk(At(s, i, a), At(s, i, b)))
  }

  ghost predicate Inv(cfg: Config, s: State)
    requires cfg.Valid()
  {
    && Shape(cfg, s) && Busy(s) <= cfg.workers
    && (forall j :: 0 <= j < |s.views| ==> T.Reachable(cfg.stages[j], s.views[j]))
    && (forall i :: 0 <= i < |s.routes| ==> InOrder(s, i))
  }

  /** What an event does to the place of every operation in every throttle. */
  function PhaseAfter(cfg: Config, s: State, e: Event, i: nat, j: nat): T.Phase {
    match e
    case Arrive(_, _) => At(s, i, j)
    case Enter(k, a) => if i == k && j == a then T.GetRead else At(s, i, j)
    case Access(k, a) =>
      if i == k && j == a && j < |cfg.stages| && j < |s.views| && i < |s.views[j].ops|
      then T.Access(cfg.stages[j], s.views[j].count, s.views[j].ops[i]).1
      else At(s, i, j)
  }

  lemma ApplyPhases(cfg: Config, s: State, e: Event)
    requires cfg.Valid() && Shape(cfg, s) && Enabled(cfg, s, e)
    ensures Shape(cfg, Apply(cfg, s, e))
    ensures forall i: nat, j: nat :: At(Apply(cfg, s, e), i, j) == PhaseAfter(cfg, s, e, i, j)
    ensures forall i: nat, j: nat :: i < |s.routes| ==> On(Apply(cfg, s, e), i, j) == On(s, i, j)
  {
  }

  /** Accesses move an operation on inside one throttle, or leave it where it was. */
  lemma AccessMoves(cfg: T.Config, count: nat, op: T.Op)
    ensures var p := T.Access(cfg, count, op).1;
      && (InGet(op.phase) ==> InGet(p) || p == T.InFlight)
      && (op.phase == T.InFlight || InPut(op.phase) ==> InPut(p) || Over(p))
  {
  }

  lemma InOrderStep(cfg: Config, s: State, e: Event, i: nat)
    requires cfg.Valid() && Shape(cfg, s) && Enabled(cfg, s, e) && i < |s.routes| && InOrder(s, i)
    ensures InOrder(Apply(cfg, s, e), i)
  {
    var t := Apply(cfg, s, e);
    ApplyPhases(cfg, s, e);
    forall j: nat | On(t, i, j) ensures PlaceOk(At(t, i, j)) {
      PhaseMoves(cfg, s, e, i, j);
    }
    forall a: nat, b: nat | On(t, i, a) && On(t, i, b) && a < b ensures PairOk(At(t, i, a), At(t, i, b)) {
      assert PairOk(At(s, i, a), At(s, i, b)) && PlaceOk(At(s, i, a)) && PlaceOk(At(s, i, b));
      PhaseMoves(cfg, s, e, i, a);
      PhaseMoves(cfg, s, e, i, b);
    }
  }

  /** How a place on the route changes, and what the event says of the others if it does. */
  lemma PhaseMoves(cfg: Config, s: State, e: Event, i: nat, j: nat)
    requires cfg.Valid() && Shape(cfg, s) && Enabled(cfg, s, e) && On(s, i, j) && PlaceOk(At(s, i, j))
    ensures var p, q := At(s, i, j), PhaseAfter(cfg, s, e, i, j);
      && PlaceOk(q)
      && (q == p
          || (p == T.Queued && InGet(q) && !e.Arrive? && e.j == j && e.i == i && Before(s, i, j))
          || (InGet(p) && (InGet(q) || q == T.InFlight) && !e.Arrive? && e.j == j && e.i == i)
          || ((p == T.InFlight || InPut(p)) && (InPut(q) || Over(q)) && !e.Arrive? && e.j == j && e.i == i &&
            PutsAt(s, i, j)))
  {
    if e.Access? && e.i == i && e.j == j {
      AccessMoves(cfg.stages[j], s.views[j].count, s.views[j].ops[i]);
    }
  }

  lemma ArrivesInOrder(cfg: Config, s: State, e: Event)
    requires cfg.Valid() && Shape(cfg, s) && Enabled(cfg, s, e) && e.Arrive?
    ensures InOrder(Apply(cfg, s, e), |s.routes|) && !IsBusy(Apply(cfg, s, e), |s.routes|)
  {
    var t := Apply(cfg, s, e);
    ApplyPhases(cfg, s, e);
    assert forall j: nat :: At(t, |s.routes|, j) == T.Queued;
  }

  /** Which operations become busy: none but one that enters its first throttle. */
  lemma BusyAfter(cfg: Config, s: State, e: Event, i: nat)
    requires cfg.Valid() && Shape(cfg, s) && Enabled(cfg, s, e) && i < |s.routes| && InOrder(s, i)
    requires IsBusy(Apply(cfg, s, e), i) && !IsBusy(s, i)
    ensures e.Enter? && e.i == i && !exists a: nat :: On(s, i, a) && a < e.j
  {
    var t := Apply(cfg, s, e);
    ApplyPhases(cfg, s, e);
    var a: nat :| On(t, i, a) && At(t, i, a) != T.Queued;
    var b: nat :| On(t, i, b) && (At(t, i, b) == T.Queued || InGet(At(t, i, b)));
    assert On(s, i, a) && PlaceOk(At(s, i, a)) && On(s, i, b) && PlaceOk(At(s, i, b));
    BusyAfterPlaces(cfg, s, e, i, a, b);
  }

  lemma BusyAfterPlaces(cfg: Config, s: State, e: Event, i: nat, a: nat, b: nat)
    requires cfg.Valid() && Shape(cfg, s) && Enabled(cfg, s, e) && !IsBusy(s, i)
    requires On(s, i, a) && PlaceOk(At(s, i, a)) && PhaseAfter(cfg, s, e, i, a) != T.Queued
    requires On(s, i, b) && PlaceOk(At(s, i, b))
    requires PhaseAfter(cfg, s, e, i, b) == T.Queued || InGet(PhaseAfter(cfg, s, e, i, b))
    ensures e.Enter? && e.i == i && !exists c: nat :: On(s, i, c) && c < e.j
  {
    PhaseMoves(cfg, s, e, i, b);
    AllQueued(s, i, b);
    PhaseMoves(cfg, s, e, i, a);
  }

  lemma AllQueued(s: State, i: nat, b: nat)
    requires !IsBusy(s, i) && On(s, i, b) && (At(s, i, b) == T.Queued || InGet(At(s, i, b)))
    ensures forall a: nat :: On(s, i, a) ==> At(s, i, a) == T.Queued
  {
  }

  lemma BusyStep(cfg: Config, s: State, e: Event)
    requires cfg.Valid() && Inv(cfg, s) && Enabled(cfg, s, e)
    ensures Busy(Apply(cfg, s, e)) <= cfg.workers
  {
    var t, n := Apply(cfg, s, e), |s.routes|;
    var p, q := BusyIn(s), BusyIn(t);
    if e.Arrive? {
      ArrivesInOrder(cfg, s, e);
    }
    forall i: nat | i < n && q(i) && !p(i) ensures e.Enter? && e.i == i && Busy(s) < cfg.workers {
      BusyAfter(cfg, s, e, i);
    }
    if e.Enter? && q(e.i) && !p(e.i) {
      var r := (i: nat) => p(i) || i == e.i;
      CountOneMore(p, r, n, e.i);
      CountAtMost(q, r, n);
    } else {
      CountAtMost(q, p, n);
    }
  }

  /** A worker about to enter a throttle finds fewer than all workers inside. */
  lemma RoomToEnter(cfg: Config, s: State, e: Event)
    requires cfg.Valid() && Inv(cfg, s) && Enabled(cfg, s, e) && e.Enter?
    ensures T.Busy(s.views[e.j]) < cfg.workers
  {
    var n, ops := |s.routes|, s.views[e.j].ops;
    var inside := (i: nat) => i < |ops| && T.BusyOf(ops[i]) == 1;
    forall i: nat | i < n && inside(i) ensures IsBusy(s, i) && i != e.i {
      InsideIsBusy(s, i, e.j);
    }
    SumByCount(T.BusyOf, ops, inside, 1, n);
    assert ops[..n] == ops;
    CountAtMost(inside, BusyIn(s), n);
    if exists a: nat :: On(s, e.i, a) && a < e.j {
      var more := (i: nat) => inside(i) || i == e.i;
      EntererIsBusy(s, e.i, e.j);
      CountOneMore(inside, more, n, e.i);
      CountAtMost(more, BusyIn(s), n);
    }
  }

  lemma InsideIsBusy(s: State, i: nat, j: nat)
    requires j < |s.views| && i < |s.views[j].ops| && T.BusyOf(s.views[j].ops[i]) == 1 && InOrder(s, i)
    ensures IsBusy(s, i) && At(s, i, j) != T.Queued
  {
    assert On(s, i, j) && PlaceOk(At(s, i, j));
  }

  lemma EntererIsBusy(s: State, i: nat, j: nat)
    requires On(s, i, j) && At(s, i, j) == T.Queued && Before(s, i, j) && exists a: nat :: On(s, i, a) && a < j
    ensures IsBusy(s, i)
  {
  }

  lemma ViewStep(cfg: Config, s: State, e: Event, j: nat)
    requires cfg.Valid() && Inv(cfg, s) && Enabled(cfg, s, e) && j < |s.views|
    ensures T.Reachable(cfg.stages[j], Apply(cfg, s, e).views[j])
  {
    assert T.Reachable(cfg.stages[j], s.views[j]);
    match e
    case Arrive(route, costs) => T.ReachableNext(cfg.stages[j], s.views[j], T.Arrive(costs[j]));
    case Enter(i, a) =>
      if j == a {
        RoomToEnter(cfg, s, e);
        T.ReachableNext(cfg.stages[j], s.views[j], T.Start(i));
      }
    case Access(i, a) =>
      if j == a {
        T.ReachableNext(cfg.stages[j], s.views[j], T.Move(i));
      }
  }

  lemma InvStep(cfg: Config, s: State, e: Event)
    requires cfg.Valid() && Inv(cfg, s) && Enabled(cfg, s, e)
    ensures Inv(cfg, Apply(cfg, s, e))
  {
    var t := Apply(cfg, s, e);
    ApplyPhases(cfg, s, e);
    BusyStep(cfg, s, e);
    forall j | 0 <= j < |t.views| ensures T.Reachable(cfg.stages[j], t.views[j]) {
      ViewStep(cfg, s, e, j);
    }
    forall i | 0 <= i < |t.routes| ensures InOrder(t, i) {
      if i < |s.routes| {
        InOrderStep(cfg, s, e, i);
      } else {
        ArrivesInOrder(cfg, s, e);
      }
    }
  }

  lemma {:induction false} InvRun(cfg: Config, run: seq<State>, k: nat)
    requires cfg.Valid() && IsRun(cfg, run) && k < |run|
    ensures Inv(cfg, run[k])
  {
    if k == 0 {
      forall j | 0 <= j < |cfg.stages| ensures T.Reachable(cfg.stages[j], T.INIT) {
        T.ReachableInit(cfg.stages[j]);
      }
    } else {
      InvRun(cfg, run, k - 1);
      assert Next(cfg, run[k - 1], run[k - 1 + 1]);
      var e: Event :| Enabled(cfg, run[k - 1], e) && run[k] == Apply(cfg, run[k - 1], e);
      InvStep(cfg, run[k - 1], e);
    }
  }

  /** In every throttle, in every reachable state of the chain: all that the single throttle
      promises. */
  lemma ChainInv(cfg: Config, s: State)
    requires cfg.Valid() && Reachable(cfg, s)
    ensures Inv(cfg, s)
  {
    var run :| IsRun(cfg, run) && run[|run| - 1] == s;
    InvRun(cfg, run, |run| - 1);
  }

  // ---------------------------------------------------------------------------
  // Every counter is exact

  lemma ViewRejectsNothing(cfg: Config, s: State, j: nat)
    requires cfg.Valid() && Inv(cfg, s) && j < |s.views|
    ensures T.Rejects(s.views[j]) == 0
  {
    var v := s.views[j];
    forall i | 0 <= i < |v.ops| ensures T.RejectOf(v.ops[i]) <= 0 {
      assert InOrder(s, i) && v.ops[i].phase == At(s, i, j);
    }
    T.SumAtMost(T.RejectOf, _ => 0, v.ops);
    T.SumZero(v.ops);
    T.RejectsAtLeastZero(v);
  }

  /** In every throttle of the chain the counter is what the operations hold, and no Put has
      given up. */
  lemma ViewIsExact(cfg: Config, s: State, j: nat)
    requires cfg.Valid() && Inv(cfg, s) && j < |s.views|
    ensures s.views[j].count == T.Held(s.views[j]) && T.InRange(cfg.stages[j], s.views[j])
    ensures forall i :: 0 <= i < |s.views[j].ops| ==> !s.views[j].ops[i].phase.GaveUp?
  {
    var v, c := s.views[j], cfg.stages[j];
    assert T.Reachable(c, v);
    var run :| T.EndsIn(c, run, v);
    ViewRejectsNothing(cfg, s, j);
    T.StatesAreExact(c, run, |run| - 1);
    T.InRangeRun(c, run, |run| - 1);
  }

  /** The admission bound, in every throttle of the chain: the cost of the operations past its
      Get, whether in flight or waiting further on, is at most the limit and one cost more. */
  lemma ChainAdmission(cfg: Config, s: State, j: nat)
    requires cfg.Valid() && Reachable(cfg, s) && j < |cfg.stages|
    ensures j < |s.views| && T.InFlightCost(s.views[j]) <= cfg.stages[j].limit + cfg.stages[j].maxCost
  {
    ChainInv(cfg, s);
    var v, c := s.views[j], cfg.stages[j];
    ViewRejectsNothing(cfg, s, j);
    assert T.Reachable(c, v);
    var run :| T.EndsIn(c, run, v);
    T.SaneRun(c, run, |run| - 1);
    T.SumAtMost(T.InFlightOf, (op: T.Op) => T.ThroughOf(c.limit, op), v.ops);
  }

  // ---------------------------------------------------------------------------
  // Deadlock of the chain

  predicate WaitsAt(cfg: Config, s: State, i: nat, j: nat) {
    && On(s, i, j) && j < |cfg.stages| && j < |s.views| && At(s, i, j).Counted?
    && At(s, i, j).seen > cfg.stages[j].limit && s.views[j].count > cfg.stages[j].limit
  }

  ghost predicate Waits(cfg: Config, s: State, i: nat) { exists j: nat :: WaitsAt(cfg, s, i, j) }

  /** Not started, or all over. */
  ghost predicate Idle(s: State, i: nat) {
    (forall j: nat :: On(s, i, j) ==> At(s, i, j) == T.Queued) || (forall j: nat :: On(s, i, j) ==> Over(At(s, i, j)))
  }

  /** Every worker waits in some throttle whose counter would not let it through, and no
      operation is left whose completion could lower a counter. */
  ghost predicate Deadlocked(cfg: Config, s: State) {
    && Busy(s) == cfg.workers
    && forall i :: 0 <= i < |s.routes| ==> Idle(s, i) || Waits(cfg, s, i)
  }

  lemma IdleIsNotBusy(s: State, i: nat)
    requires Idle(s, i)
    ensures !IsBusy(s, i)
  {
  }

  /** The costs of one operation per worker can exceed the limit of throttle j on route r. */
  predicate ExceedsAt(cfg: Config, r: set<nat>, j: nat)
    requires cfg.Valid()
  {
    r in cfg.routes && j in r && cfg.stages[j].maxCost * cfg.workers > cfg.stages[j].limit
  }

  /** On some route there is a throttle whose limit the costs of one operation per worker can
      exceed. */
  ghost predicate SomeThrottleHangs(cfg: Config)
    requires cfg.Valid()
  {
    exists r: set<nat>, j: nat :: ExceedsAt(cfg, r, j)
  }

  /** A deadlock needs a throttle whose limit one operation per worker can exceed. */
  lemma DeadlockCosts(cfg: Config, s: State)
    requires cfg.Valid() && Inv(cfg, s) && Deadlocked(cfg, s)
    ensures SomeThrottleHangs(cfg)
  {
    var n := |s.routes|;
    var i := CountSome(BusyIn(s), n);
    if Idle(s, i) {
      IdleIsNotBusy(s, i);
      assert false;
    }
    var j: nat :| WaitsAt(cfg, s, i, j);
    HeldByWorkers(cfg, s, j);
    assert ExceedsAt(cfg, s.routes[i], j);
  }

  lemma HeldByWorkers(cfg: Config, s: State, j: nat)
    requires cfg.Valid() && Inv(cfg, s) && Deadlocked(cfg, s) && j < |s.views|
    ensures s.views[j].count <= cfg.stages[j].maxCost * cfg.workers
  {
    var n, v := |s.routes|, s.views[j];
    ViewIsExact(cfg, s, j);
    forall k: nat | k < n ensures T.HeldBy(v.ops[k]) <= if BusyIn(s)(k) then cfg.stages[j].maxCost else 0 {
      assert !v.ops[k].phase.GaveUp?;
      HeldOnlyByBusy(cfg, s, k, j);
    }
    SumByCount(T.HeldBy, v.ops, BusyIn(s), cfg.stages[j].maxCost, n);
    assert v.ops[..n] == v.ops;
  }

  lemma HeldOnlyByBusy(cfg: Config, s: State, k: nat, j: nat)
    requires cfg.Valid() && Inv(cfg, s) && Deadlocked(cfg, s) && k < |s.routes| && j < |s.views|
    requires T.InRange(cfg.stages[j], s.views[j]) && !At(s, k, j).GaveUp?
    ensures T.HeldBy(s.views[j].ops[k]) <= if IsBusy(s, k) then cfg.stages[j].maxCost else 0
  {
    assert InOrder(s, k) && s.views[j].ops[k].phase == At(s, k, j);
    if Idle(s, k) {
      assert At(s, k, j) == T.Queued || Over(At(s, k, j));
    } else {
      var a: nat :| WaitsAt(cfg, s, k, a);
      WaiterIsBusy(cfg, s, k, a);
    }
  }

  lemma WaiterIsBusy(cfg: Config, s: State, i: nat, j: nat)
    requires WaitsAt(cfg, s, i, j)
    ensures IsBusy(s, i)
  {
  }

  lemma WaiterIsFixed(cfg: Config, s: State, e: Event, i: nat, j: nat)
    requires cfg.Valid() && Shape(cfg, s) && Enabled(cfg, s, e) && WaitsAt(cfg, s, i, j) && InOrder(s, i)
    requires !e.Arrive? && e.i == i
    ensures e == Access(i, j)
  {
    assert On(s, i, e.j) && PlaceOk(At(s, i, e.j));
    assert e.j < j ==> PairOk(At(s, i, e.j), At(s, i, j));
    assert j < e.j ==> PairOk(At(s, i, j), At(s, i, e.j));
  }

  /** A deadlock of the chain is for ever. */
  lemma DeadlockIsPermanent(cfg: Config, s: State, e: Event)
    requires cfg.Valid() && Inv(cfg, s) && Deadlocked(cfg, s) && Enabled(cfg, s, e)
    ensures Deadlocked(cfg, Apply(cfg, s, e))
  {
    var t, n := Apply(cfg, s, e), |s.routes|;
    if e.Arrive? {
      ArrivesInOrder(cfg, s, e);
      ApplyPhases(cfg, s, e);
      assert Idle(t, n);
    }
    forall i: nat | i < n
      ensures (Idle(t, i) || Waits(cfg, t, i)) && BusyIn(s)(i) == BusyIn(t)(i)
    {
      KeepsWaiting(cfg, s, e, i);
    }
    CountSame(BusyIn(s), BusyIn(t), n);
  }

  /** In a deadlock the only events are arrivals and waiters looking again. */
  lemma OnlyLooks(cfg: Config, s: State, e: Event) returns (j: nat)
    requires cfg.Valid() && Inv(cfg, s) && Deadlocked(cfg, s) && Enabled(cfg, s, e) && !e.Arrive?
    ensures e == Access(e.i, j) && WaitsAt(cfg, s, e.i, j)
  {
    assert On(s, e.i, e.j) && InOrder(s, e.i);
    IdleCannotMove(cfg, s, e);
    j :| WaitsAt(cfg, s, e.i, j);
    WaiterIsFixed(cfg, s, e, e.i, j);
  }

  lemma IdleCannotMove(cfg: Config, s: State, e: Event)
    requires cfg.Valid() && Deadlocked(cfg, s) && !e.Arrive? && Enabled(cfg, s, e)
    ensures !Idle(s, e.i)
  {
    assert On(s, e.i, e.j);
  }

  lemma KeepsWaiting(cfg: Config, s: State, e: Event, i: nat)
    requires cfg.Valid() && Inv(cfg, s) && Deadlocked(cfg, s) && Enabled(cfg, s, e) && i < |s.routes|
    ensures Idle(Apply(cfg, s, e), i) || Waits(cfg, Apply(cfg, s, e), i)
    ensures IsBusy(Apply(cfg, s, e), i) == IsBusy(s, i)
  {
    var t := Apply(cfg, s, e);
    ApplyPhases(cfg, s, e);
    if !e.Arrive? {
      var k := OnlyLooks(cfg, s, e);
      IdleCannotMove(cfg, s, e);
    }
    if Idle(s, i) {
      assert Idle(t, i);
      IdleIsNotBusy(s, i);
      IdleIsNotBusy(t, i);
    } else {
      var j: nat :| WaitsAt(cfg, s, i, j);
      assert WaitsAt(cfg, t, i, j);
      WaiterIsBusy(cfg, s, i, j);
      WaiterIsBusy(cfg, t, i, j);
    }
  }
}
