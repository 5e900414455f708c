/**
 When can all workers hang in the chain of throttles?  Exactly when they could hang in one of
 its throttles alone: passing several does not add a deadlock.
 */
module ThrottleChainDeadlock {
  import opened ThrottleChain
  import opened Counting
  import T = Throttle
  import D = ThrottleDeadlock

  ghost predicate Live(cfg: Config, s: State)
    requires cfg.Valid()
  {
    Reachable(cfg, s) && Shape(cfg, s)
  }

  lemma Do(cfg: Config, s: State, e: Event) returns (t: State)
    requires cfg.Valid() && Live(cfg, s) && Enabled(cfg, s, e)
    ensures Live(cfg, t) && t == Apply(cfg, s, e)
  {
    t := Apply(cfg, s, e);
    ReachableNext(cfg, s, e);
    ApplyPhases(cfg, s, e);
  }

  /** Operation i has moved to `phase` in throttle j, whose counter now is `count`; nothing else
      has changed. */
  predicate Touched(s: State, t: State, i: nat, j: nat, phase: T.Phase, count: int) {
    && j < |s.views| == |t.views| && i < |s.views[j].ops| && t.routes == s.routes
    && (forall a :: 0 <= a < |s.views| && a != j ==> t.views[a] == s.views[a])
    && t.views[j].ops == s.views[j].ops[i := s.views[j].ops[i].(phase := phase)]
    && t.views[j].count == count
  }

  lemma TouchedSame(s: State, t: State, i: nat, j: nat, phase: T.Phase, count: int)
    requires Touched(s, t, i, j, phase, count)
    ensures At(t, i, j) == phase
    ensures forall a: nat :: a != j ==> At(t, i, a) == At(s, i, a)
    ensures forall a: nat :: On(t, i, a) == On(s, i, a)
    ensures PutsAt(s, i, j) ==> PutsAt(t, i, j)
  {
  }

  /** One access more of the same operation to the same throttle. */
  lemma Further(cfg: Config, s: State, u: State, i: nat, j: nat, phase: T.Phase, count: nat) returns (t: State)
    requires cfg.Valid() && Live(cfg, u) && On(s, i, j) && j < |cfg.stages| && Touched(s, u, i, j, phase, count)
    requires InGet(phase) || ((phase == T.InFlight || InPut(phase)) && PutsAt(s, i, j))
    ensures Live(cfg, t)
    ensures var next := T.Access(cfg.stages[j], count, s.views[j].ops[i].(phase := phase));
      Touched(s, t, i, j, next.1, next.0)
  {
    TouchedSame(s, u, i, j, phase, count);
    t := Do(cfg, u, Access(i, j));
  }

  /** The counter after an operation has come to hold, or has given back, its cost. */
  lemma CountMoves(cfg: Config, s: State, t: State, i: nat, j: nat, phase: T.Phase, count: nat)
    requires cfg.Valid() && Live(cfg, s) && Live(cfg, t) && Touched(s, t, i, j, phase, count)
    ensures count == s.views[j].count + T.HeldBy(t.views[j].ops[i]) - T.HeldBy(s.views[j].ops[i])
  {
    ChainInv(cfg, s);
    ChainInv(cfg, t);
    ViewIsExact(cfg, s, j);
    ViewIsExact(cfg, t, j);
    T.SumUpdate(T.HeldBy, s.views[j].ops, i, s.views[j].ops[i].(phase := phase));
  }

  ghost predicate MayEnter(cfg: Config, s: State, i: nat, j: nat) {
    && On(s, i, j) && At(s, i, j) == T.Queued && Before(s, i, j)
    && ((exists a: nat :: On(s, i, a) && a < j) || Busy(s) < cfg.workers)
  }

  /** The whole Get of one throttle, up to passing or waiting. */
  lemma GetStage(cfg: Config, s: State, i: nat, j: nat) returns (t: State)
    requires cfg.Valid() && Live(cfg, s) && MayEnter(cfg, s, i, j)
    ensures Live(cfg, t) && j < |s.views| && i < |s.views[j].ops|
    ensures Touched(s, t, i, j,
      if s.views[j].count <= cfg.stages[j].limit then T.InFlight else T.Counted(s.views[j].count),
      s.views[j].count + s.views[j].ops[i].cost)
  {
    var seen := s.views[j].count;
    t := Do(cfg, s, Enter(i, j));
    t := Further(cfg, s, t, i, j, T.GetRead, seen);
    t := Further(cfg, s, t, i, j, T.GetCas(seen), seen);
    CountMoves(cfg, s, t, i, j, T.Counted(seen), t.views[j].count);
    if seen <= cfg.stages[j].limit {
      t := Further(cfg, s, t, i, j, T.Counted(seen), t.views[j].count);
    }
  }

  /** The whole Put of one throttle. */
  lemma PutStage(cfg: Config, s: State, i: nat, j: nat) returns (t: State)
    requires cfg.Valid() && Live(cfg, s) && On(s, i, j) && At(s, i, j) == T.InFlight && PutsAt(s, i, j)
    ensures Live(cfg, t) && j < |s.views| && i < |s.views[j].ops|
    ensures Touched(s, t, i, j, T.Finished, s.views[j].count - s.views[j].ops[i].cost)
  {
    var count := s.views[j].count;
    PutFits(cfg, s, i, j);
    t := Further(cfg, s, s, i, j, T.InFlight, count);
    if cfg.stages[j].guarded {
      t := Further(cfg, s, t, i, j, T.PutGuard, count);
    }
    t := Further(cfg, s, t, i, j, T.PutRead, count);
    t := Further(cfg, s, t, i, j, T.PutCas(count), count);
    CountMoves(cfg, s, t, i, j, T.Finished, t.views[j].count);
  }

  lemma PutFits(cfg: Config, s: State, i: nat, j: nat)
    requires cfg.Valid() && Live(cfg, s) && On(s, i, j) && At(s, i, j) == T.InFlight
    ensures j < |s.views| && i < |s.views[j].ops| && s.views[j].ops[i].cost <= s.views[j].count
    ensures Touched(s, s, i, j, T.InFlight, s.views[j].count)
  {
    ChainInv(cfg, s);
    ViewIsExact(cfg, s, j);
    T.HeldCoversEachOp(s.views[j], i);
    assert s.views[j].ops[i := s.views[j].ops[i]] == s.views[j].ops;
  }

  // ---------------------------------------------------------------------------
  // A whole operation

  /** What has become of throttle a when operation i has run from throttle k until it waited in
      throttle b, or had passed all. */
  predicate Ran(cfg: Config, s: State, t: State, i: nat, k: nat, b: nat, a: nat)
    requires a < |cfg.stages| == |s.views| == |t.views| && i < |s.views[a].ops|
  {
    var v, w := s.views[a], t.views[a];
    if On(s, i, a) && k <= a < b then
      v.count <= cfg.stages[a].limit && w.count == v.count + v.ops[i].cost &&
      w.ops == v.ops[i := v.ops[i].(phase := T.InFlight)]
    else if On(s, i, a) && a == b then
      v.count > cfg.stages[a].limit && w.count == v.count + v.ops[i].cost &&
      w.ops == v.ops[i := v.ops[i].(phase := T.Counted(v.count))]
    else w == v
  }

  ghost predicate ReadyAt(cfg: Config, s: State, i: nat, k: nat) {
    && i < |s.routes| && k <= |cfg.stages|
    && (forall a: nat :: On(s, i, a) ==> At(s, i, a) == if a < k then T.InFlight else T.Queued)
    && ((exists a: nat :: On(s, i, a) && a < k) || Busy(s) < cfg.workers)
  }

  lemma {:induction false} RunFrom(cfg: Config, s: State, i: nat, k: nat) returns (t: State, b: nat)
    requires cfg.Valid() && Live(cfg, s) && ReadyAt(cfg, s, i, k)
    ensures Live(cfg, t) && t.routes == s.routes && k <= b <= |cfg.stages| && (b < |cfg.stages| ==> On(s, i, b))
    ensures forall a: nat :: a < |cfg.stages| ==> Ran(cfg, s, t, i, k, b, a)
    decreases |cfg.stages| - k
  {
    if k == |cfg.stages| {
      t, b := s, k;
    } else if !On(s, i, k) {
      t, b := RunFrom(cfg, s, i, k + 1);
      forall a: nat | a < |cfg.stages| ensures Ran(cfg, s, t, i, k, b, a) {
        assert Ran(cfg, s, t, i, k + 1, b, a);
      }
    } else {
      var mid := GetStage(cfg, s, i, k);
      if s.views[k].count > cfg.stages[k].limit {
        t, b := mid, k;
      } else {
        ReadyNext(cfg, s, mid, i, k);
        t, b := RunFrom(cfg, mid, i, k + 1);
        forall a: nat | a < |cfg.stages| ensures Ran(cfg, s, t, i, k, b, a) {
          assert Ran(cfg, mid, t, i, k + 1, b, a);
          assert On(mid, i, a) == On(s, i, a);
        }
      }
    }
  }

  lemma ReadyNext(cfg: Config, s: State, t: State, i: nat, k: nat)
    requires ReadyAt(cfg, s, i, k) && k < |cfg.stages| && On(s, i, k)
    requires exists count :: Touched(s, t, i, k, T.InFlight, count)
    ensures ReadyAt(cfg, t, i, k + 1)
  {
    var count :| Touched(s, t, i, k, T.InFlight, count);
    TouchedSame(s, t, i, k, T.InFlight, count);
    assert On(t, i, k);
  }

  /** What has become of throttle a when operation i has given back all throttles below k. */
  predicate Landed(s: State, t: State, i: nat, k: nat, a: nat)
    requires a < |s.views| == |t.views| && i < |s.views[a].ops|
  {
    var v, w := s.views[a], t.views[a];
    if On(s, i, a) && a < k then
      w.count == v.count - v.ops[i].cost && w.ops == v.ops[i := v.ops[i].(phase := T.Finished)]
    else w == v
  }

  lemma {:induction false} FinishFrom(cfg: Config, s: State, i: nat, k: nat) returns (t: State)
    requires cfg.Valid() && Live(cfg, s) && i < |s.routes| && k <= |cfg.stages|
    requires forall a: nat :: On(s, i, a) ==> if a < k then At(s, i, a) == T.InFlight else Over(At(s, i, a))
    ensures Live(cfg, t) && t.routes == s.routes
    ensures forall a: nat :: a < |cfg.stages| ==> Landed(s, t, i, k, a)
    decreases k
  {
    if k == 0 {
      t := s;
    } else {
      var j: nat := k - 1;
      var mid := s;
      if On(s, i, j) {
        mid := PutStage(cfg, s, i, j);
        TouchedSame(s, mid, i, j, T.Finished, mid.views[j].count);
      }
      t := FinishFrom(cfg, mid, i, j);
      forall a: nat | a < |cfg.stages| ensures Landed(s, t, i, k, a) {
        assert Landed(mid, t, i, j, a);
        assert On(mid, i, a) == On(s, i, a);
      }
    }
  }

  // ---------------------------------------------------------------------------
  // Operations of one route and the greatest cost

  function Costs(cfg: Config): (costs: seq<nat>)
    ensures |costs| == |cfg.stages|
  {
    seq(|cfg.stages|, j requires 0 <= j < |cfg.stages| => cfg.stages[j].maxCost)
  }

  ghost predicate Ours(cfg: Config, s: State, r: set<nat>)
    requires cfg.Valid()
  {
    && Live(cfg, s)
    && (forall i :: 0 <= i < |s.routes| ==> s.routes[i] == r)
    && (forall j, i :: 0 <= j < |cfg.stages| && 0 <= i < |s.routes| ==> s.views[j].ops[i].cost == cfg.stages[j].maxCost)
  }

  /** What has become of throttle a when one operation more has been launched, and has run until
      it waited in throttle b, or had passed all. */
  predicate Launched(cfg: Config, s: State, t: State, r: set<nat>, b: nat, a: nat)
    requires a < |cfg.stages| == |s.views| == |t.views|
  {
    var v, w, cost := s.views[a], t.views[a], cfg.stages[a].maxCost;
    if a in r && a < b then
      v.count <= cfg.stages[a].limit && w.count == v.count + cost && w.ops == v.ops + [T.Op(cost, T.InFlight)]
    else if a in r && a == b then
      v.count > cfg.stages[a].limit && w.count == v.count + cost && w.ops == v.ops + [T.Op(cost, T.Counted(v.count))]
    else w.count == v.count && w.ops == v.ops + [T.Op(cost, T.Queued)]
  }

  lemma Launch(cfg: Config, s: State, r: set<nat>) returns (t: State, b: nat)
    requires cfg.Valid() && Ours(cfg, s, r) && r in cfg.routes && Busy(s) < cfg.workers
    ensures Ours(cfg, t, r) && t.routes == s.routes + [r]
    ensures b <= |cfg.stages| && (b < |cfg.stages| ==> b in r)
    ensures forall a: nat :: a < |cfg.stages| ==> Launched(cfg, s, t, r, b, a)
  {
    var n := |s.routes|;
    var mid := Do(cfg, s, Arrive(r, Costs(cfg)));
    ArrivedReady(cfg, s, mid, r);
    t, b := RunFrom(cfg, mid, n, 0);
    forall a: nat | a < |cfg.stages| ensures Launched(cfg, s, t, r, b, a) {
      assert Ran(cfg, mid, t, n, 0, b, a);
      var v, cost := s.views[a], cfg.stages[a].maxCost;
      assert mid.views[a].ops == v.ops + [T.Op(cost, T.Queued)] && mid.views[a].count == v.count;
      assert forall p: T.Phase :: mid.views[a].ops[n := T.Op(cost, p)] == v.ops + [T.Op(cost, p)];
    }
    forall j, i | 0 <= j < |cfg.stages| && 0 <= i < |t.routes| ensures t.views[j].ops[i].cost == cfg.stages[j].maxCost {
      assert Launched(cfg, s, t, r, b, j);
    }
  }

  lemma ArrivedReady(cfg: Config, s: State, t: State, r: set<nat>)
    requires cfg.Valid() && Ours(cfg, s, r) && r in cfg.routes && Busy(s) < cfg.workers
    requires t == Apply(cfg, s, Arrive(r, Costs(cfg)))
    ensures ReadyAt(cfg, t, |s.routes|, 0)
  {
    ArrivesInOrder(cfg, s, Arrive(r, Costs(cfg)));
    ApplyPhases(cfg, s, Arrive(r, Costs(cfg)));
    var n := |s.routes|;
    assert forall j: nat :: At(t, n, j) == T.Queued;
    forall i: nat | i < n ensures BusyIn(s)(i) == BusyIn(t)(i) {
      SameBusy(s, t, i);
    }
    CountSame(BusyIn(s), BusyIn(t), n);
  }

  lemma SameBusy(s: State, t: State, i: nat)
    requires forall j: nat :: At(t, i, j) == At(s, i, j) && On(t, i, j) == On(s, i, j)
    ensures IsBusy(t, i) == IsBusy(s, i)
  {
  }

  /** A flying operation finishes. */
  lemma Land(cfg: Config, s: State, r: set<nat>, i: nat) returns (t: State)
    requires cfg.Valid() && Ours(cfg, s, r) && i < |s.routes| && forall a: nat :: a in r ==> At(s, i, a) == T.InFlight
    ensures Ours(cfg, t, r) && t.routes == s.routes
    ensures forall a: nat :: a < |cfg.stages| ==> Landed(s, t, i, |cfg.stages|, a)
  {
    assert forall a: nat :: On(s, i, a) ==> a in r && a < |cfg.stages|;
    t := FinishFrom(cfg, s, i, |cfg.stages|);
    forall j, k | 0 <= j < |cfg.stages| && 0 <= k < |t.routes| ensures t.views[j].ops[k].cost == cfg.stages[j].maxCost {
      assert Landed(s, t, i, |cfg.stages|, j);
    }
  }

  // ---------------------------------------------------------------------------
  // Three phases: fill the chain, replace what flies by what waits, let the others come

  /** `full` operations exceed the limit of throttle `tight`; fewer exceed none on the route, and
      `full` none before it. */
  predicate Tight(cfg: Config, r: set<nat>, full: nat, tight: nat)
    requires cfg.Valid() && r in cfg.routes
  {
    && 0 < full && tight in r && cfg.stages[tight].maxCost * full > cfg.stages[tight].limit
    && (forall a: nat :: a in r ==> cfg.stages[a].maxCost * (full - 1) <= cfg.stages[a].limit)
    && (forall a: nat :: a in r && a < tight ==> cfg.stages[a].maxCost * full <= cfg.stages[a].limit)
  }

  ghost predicate Filled(cfg: Config, s: State, r: set<nat>, n: nat)
    requires cfg.Valid() && r in cfg.routes
  {
    && Ours(cfg, s, r) && |s.routes| == n
    && (forall a: nat :: a in r ==> s.views[a].count == cfg.stages[a].maxCost * n)
    && (forall a: nat, i: nat :: a in r && i < n ==> At(s, i, a) == T.InFlight)
  }

  lemma {:induction false} Fill(cfg: Config, r: set<nat>, full: nat, tight: nat, n: nat) returns (s: State)
    requires cfg.Valid() && r in cfg.routes && Tight(cfg, r, full, tight) && n <= full
    ensures Filled(cfg, s, r, n)
  {
    if n == 0 {
      ReachableInit(cfg);
      s := Init(cfg);
    } else {
      var before := Fill(cfg, r, full, tight, n - 1);
      FilledBusy(cfg, before, r, n - 1);
      var b;
      s, b := Launch(cfg, before, r);
      FillMore(cfg, before, s, r, full, tight, n - 1, b);
    }
  }

  lemma FilledBusy(cfg: Config, s: State, r: set<nat>, n: nat)
    requires cfg.Valid() && r in cfg.routes && Filled(cfg, s, r, n)
    ensures Busy(s) == 0
  {
    forall i: nat | i < n ensures !BusyIn(s)(i) {
      assert forall a: nat :: On(s, i, a) ==> At(s, i, a) == T.InFlight;
    }
    CountNone(BusyIn(s), n);
  }

  lemma MulUp(c: nat, n: nat, m: nat)
    requires n <= m
    ensures c * n <= c * m && c * (n + 1) == c * n + c
  {
  }

  /** A launch through throttles that all let it pass. */
  lemma LaunchPasses(cfg: Config, s: State, t: State, r: set<nat>, b: nat)
    requires cfg.Valid() && r in cfg.routes && |s.views| == |t.views| == |cfg.stages| && b <= |cfg.stages|
    requires forall a: nat :: a in r ==> s.views[a].count <= cfg.stages[a].limit
    requires forall a: nat :: a < |cfg.stages| ==> Launched(cfg, s, t, r, b, a)
    requires b < |cfg.stages| ==> b in r
    ensures forall a: nat :: a in r ==> t.views[a].count == s.views[a].count + cfg.stages[a].maxCost
    ensures forall a: nat :: a in r ==> t.views[a].ops == s.views[a].ops + [T.Op(cfg.stages[a].maxCost, T.InFlight)]
  {
    assert b < |cfg.stages| ==> Launched(cfg, s, t, r, b, b);
    forall a: nat | a in r
      ensures t.views[a].count == s.views[a].count + cfg.stages[a].maxCost
      ensures t.views[a].ops == s.views[a].ops + [T.Op(cfg.stages[a].maxCost, T.InFlight)]
    {
      assert Launched(cfg, s, t, r, b, a);
    }
  }

  lemma FillMore(cfg: Config, s: State, t: State, r: set<nat>, full: nat, tight: nat, n: nat, b: nat)
    requires cfg.Valid() && r in cfg.routes && Tight(cfg, r, full, tight) && n < full
    requires Filled(cfg, s, r, n) && Ours(cfg, t, r) && t.routes == s.routes + [r]
    requires b <= |cfg.stages| && (b < |cfg.stages| ==> b in r)
    requires forall a: nat :: a < |cfg.stages| ==> Launched(cfg, s, t, r, b, a)
    ensures Filled(cfg, t, r, n + 1)
  {
    forall a: nat | a in r ensures s.views[a].count <= cfg.stages[a].limit {
      MulUp(cfg.stages[a].maxCost, n, full - 1);
    }
    LaunchPasses(cfg, s, t, r, b);
    forall a: nat | a in r ensures t.views[a].count == cfg.stages[a].maxCost * (n + 1) {
      MulUp(cfg.stages[a].maxCost, n, n);
    }
    forall a: nat, i: nat | a in r && i < n + 1 ensures At(t, i, a) == T.InFlight {
      assert i < n ==> At(s, i, a) == T.InFlight;
    }
  }

  /** Where the operations are after w rounds: the first w have landed, the others of the first
      `full` still fly, and w more wait in the tight throttle. */
  function Expected(cfg: Config, full: nat, tight: nat, w: nat, i: nat, a: nat): T.Phase
    requires tight < |cfg.stages|
  {
    if i < w then T.Finished
    else if i < full || a < tight then T.InFlight
    else if a == tight then T.Counted(cfg.stages[tight].maxCost * full)
    else T.Queued
  }

  ghost predicate Replaced(cfg: Config, s: State, r: set<nat>, full: nat, tight: nat, w: nat)
    requires cfg.Valid() && r in cfg.routes && tight < |cfg.stages|
  {
    && Ours(cfg, s, r) && |s.routes| == full + w && w <= full
    && (forall a: nat :: a in r ==> s.views[a].count == cfg.stages[a].maxCost * if a <= tight then full else full - w)
    && (forall a: nat, i: nat :: a in r && i < full + w ==> At(s, i, a) == Expected(cfg, full, tight, w, i, a))
  }

  lemma ReplacedBusy(cfg: Config, s: State, r: set<nat>, full: nat, tight: nat, w: nat)
    requires cfg.Valid() && r in cfg.routes && tight in r && Replaced(cfg, s, r, full, tight, w)
    ensures Busy(s) == w
  {
    forall i: nat | i < full + w ensures BusyIn(s)(i) <==> full <= i {
      assert forall a: nat :: On(s, i, a) <==> a in r;
      if full <= i {
        assert On(s, i, tight) && InGet(At(s, i, tight));
      }
    }
    CountFrom(BusyIn(s), full + w, full);
  }

  /** The launch of a round ends in the tight throttle. */
  lemma LaunchWaits(cfg: Config, s: State, t: State, r: set<nat>, full: nat, tight: nat, w: nat, b: nat)
    requires cfg.Valid() && r in cfg.routes && Tight(cfg, r, full, tight) && Replaced(cfg, s, r, full, tight, w)
    requires |t.views| == |cfg.stages| && b <= |cfg.stages| && (b < |cfg.stages| ==> b in r)
    requires forall a: nat :: a < |cfg.stages| ==> Launched(cfg, s, t, r, b, a)
    ensures b == tight
  {
    assert Launched(cfg, s, t, r, b, tight);
    if b < |cfg.stages| {
      assert Launched(cfg, s, t, r, b, b);
    }
  }

  /** Throttle a after the launch and the landing of a round. */
  lemma RoundView(cfg: Config, s: State, t: State, u: State, r: set<nat>, full: nat, tight: nat, w: nat, a: nat)
    requires cfg.Valid() && r in cfg.routes && Tight(cfg, r, full, tight) && Replaced(cfg, s, r, full, tight, w) &&
      w < full
    requires Ours(cfg, t, r) && Ours(cfg, u, r) && t.routes == s.routes + [r] && u.routes == t.routes
    requires a in r && Launched(cfg, s, t, r, tight, a) && Landed(t, u, w, |cfg.stages|, a)
    ensures u.views[a].count == cfg.stages[a].maxCost * if a <= tight then full else full - (w + 1)
    ensures forall i: nat :: i < full + w + 1 ==> At(u, i, a) == Expected(cfg, full, tight, w + 1, i, a)
  {
    MulUp(cfg.stages[a].maxCost, full - (w + 1), full);
    assert On(t, w, a);
    forall i: nat | i < full + w + 1 ensures At(u, i, a) == Expected(cfg, full, tight, w + 1, i, a) {
      assert i < full + w ==> At(s, i, a) == Expected(cfg, full, tight, w, i, a);
    }
  }

  lemma Round(cfg: Config, s: State, r: set<nat>, full: nat, tight: nat, w: nat) returns (u: State)
    requires cfg.Valid() && r in cfg.routes && Tight(cfg, r, full, tight) && w < full <= cfg.workers
    requires Replaced(cfg, s, r, full, tight, w)
    ensures Replaced(cfg, u, r, full, tight, w + 1)
  {
    ReplacedBusy(cfg, s, r, full, tight, w);
    var t, b := Launch(cfg, s, r);
    LaunchWaits(cfg, s, t, r, full, tight, w, b);
    StillFlies(cfg, s, t, r, full, tight, w, b);
    u := Land(cfg, t, r, w);
    RoundViews(cfg, s, t, u, r, full, tight, w);
  }

  lemma StillFlies(cfg: Config, s: State, t: State, r: set<nat>, full: nat, tight: nat, w: nat, b: nat)
    requires cfg.Valid() && r in cfg.routes && tight in r && Replaced(cfg, s, r, full, tight, w) && w < full
    requires |t.views| == |cfg.stages| && forall a: nat :: a < |cfg.stages| ==> Launched(cfg, s, t, r, b, a)
    ensures forall a: nat :: a in r ==> At(t, w, a) == T.InFlight
  {
    forall a: nat | a in r ensures At(t, w, a) == T.InFlight {
      assert Launched(cfg, s, t, r, b, a);
      assert At(s, w, a) == Expected(cfg, full, tight, w, w, a);
    }
  }

  lemma RoundViews(cfg: Config, s: State, t: State, u: State, r: set<nat>, full: nat, tight: nat, w: nat)
    requires cfg.Valid() && r in cfg.routes && Tight(cfg, r, full, tight) && Replaced(cfg, s, r, full, tight, w) &&
      w < full
    requires Ours(cfg, t, r) && Ours(cfg, u, r) && t.routes == s.routes + [r] && u.routes == t.routes
    requires forall a: nat :: a < |cfg.stages| ==> Launched(cfg, s, t, r, tight, a)
    requires forall a: nat :: a < |cfg.stages| ==> Landed(t, u, w, |cfg.stages|, a)
    ensures Replaced(cfg, u, r, full, tight, w + 1)
  {
    forall a: nat | a in r
      ensures u.views[a].count == cfg.stages[a].maxCost * if a <= tight then full else full - (w + 1)
      ensures forall i: nat :: i < full + w + 1 ==> At(u, i, a) == Expected(cfg, full, tight, w + 1, i, a)
    {
      assert Launched(cfg, s, t, r, tight, a) && Landed(t, u, w, |cfg.stages|, a);
      RoundView(cfg, s, t, u, r, full, tight, w, a);
    }
  }

  lemma FilledIsReplaced(cfg: Config, s: State, r: set<nat>, full: nat, tight: nat)
    requires cfg.Valid() && r in cfg.routes && tight in r && Filled(cfg, s, r, full)
    ensures Replaced(cfg, s, r, full, tight, 0)
  {
    forall a: nat, i: nat | a in r && i < full ensures At(s, i, a) == Expected(cfg, full, tight, 0, i, a) {
    }
  }

  lemma {:induction false} Replace(cfg: Config, s: State, r: set<nat>, full: nat, tight: nat, w: nat) returns (u: State)
    requires cfg.Valid() && r in cfg.routes && Tight(cfg, r, full, tight) && w <= full <= cfg.workers
    requires Replaced(cfg, s, r, full, tight, w)
    ensures Replaced(cfg, u, r, full, tight, full)
    decreases full - w
  {
    if w == full {
      u := s;
    } else {
      u := Round(cfg, s, r, full, tight, w);
      u := Replace(cfg, u, r, full, tight, w + 1);
    }
  }

  /** Everything but the first operations, which have landed, waits somewhere. */
  ghost predicate Stranded(cfg: Config, s: State, r: set<nat>, full: nat, tight: nat)
    requires cfg.Valid() && r in cfg.routes && tight in r
  {
    && Ours(cfg, s, r) && full <= |s.routes| && s.views[tight].count > cfg.stages[tight].limit
    && (forall i: nat, a: nat :: i < full && a in r ==> At(s, i, a) == T.Finished)
    && (forall i: nat :: full <= i < |s.routes| ==> Waits(cfg, s, i))
  }

  lemma StrandedBusy(cfg: Config, s: State, r: set<nat>, full: nat, tight: nat)
    requires cfg.Valid() && r in cfg.routes && tight in r && Stranded(cfg, s, r, full, tight)
    ensures Busy(s) == |s.routes| - full
    ensures forall i: nat :: i < full ==> Idle(s, i)
  {
    forall i: nat | i < |s.routes| ensures (BusyIn(s)(i) <==> full <= i) && (i < full ==> Idle(s, i)) {
      assert forall a: nat :: On(s, i, a) <==> a in r;
      if full <= i {
        assert Waits(cfg, s, i);
        var j: nat :| WaitsAt(cfg, s, i, j);
        WaiterIsBusy(cfg, s, i, j);
      }
    }
    CountFrom(BusyIn(s), |s.routes|, full);
  }

  lemma ReplacedStrands(cfg: Config, s: State, r: set<nat>, full: nat, tight: nat)
    requires cfg.Valid() && r in cfg.routes && Tight(cfg, r, full, tight) && Replaced(cfg, s, r, full, tight, full)
    ensures Stranded(cfg, s, r, full, tight)
  {
    forall i: nat | full <= i < |s.routes| ensures Waits(cfg, s, i) {
      assert At(s, i, tight) == Expected(cfg, full, tight, full, i, tight);
      assert WaitsAt(cfg, s, i, tight);
    }
  }

  /** A launch into a stranded chain waits too, and lets no one through. */
  lemma StrandedMore(cfg: Config, s: State, t: State, r: set<nat>, full: nat, tight: nat, b: nat)
    requires cfg.Valid() && r in cfg.routes && tight in r && Stranded(cfg, s, r, full, tight)
    requires Ours(cfg, t, r) && t.routes == s.routes + [r] && b <= |cfg.stages| && (b < |cfg.stages| ==> b in r)
    requires forall a: nat :: a < |cfg.stages| ==> Launched(cfg, s, t, r, b, a)
    ensures Stranded(cfg, t, r, full, tight)
  {
    var n := |s.routes|;
    assert Launched(cfg, s, t, r, b, tight);
    assert b <= tight && Launched(cfg, s, t, r, b, b);
    assert WaitsAt(cfg, t, n, b);
    forall a: nat, i: nat | a < |cfg.stages| && i < n ensures At(t, i, a) == At(s, i, a) &&
      t.views[a].count >= s.views[a].count {
      assert Launched(cfg, s, t, r, b, a);
    }
    forall i: nat | full <= i < n ensures Waits(cfg, t, i) {
      assert Waits(cfg, s, i);
      var j: nat :| WaitsAt(cfg, s, i, j);
      assert At(t, i, j) == At(s, i, j) && On(t, i, j);
      assert WaitsAt(cfg, t, i, j);
    }
  }

  lemma {:induction false} Strand(cfg: Config, s: State, r: set<nat>, full: nat, tight: nat) returns (t: State)
    requires cfg.Valid() && r in cfg.routes && tight in r && Stranded(cfg, s, r, full, tight)
    requires |s.routes| - full <= cfg.workers
    ensures Stranded(cfg, t, r, full, tight) && |t.routes| - full == cfg.workers
    decreases cfg.workers + full - |s.routes|
  {
    if |s.routes| - full == cfg.workers {
      t := s;
    } else {
      StrandedBusy(cfg, s, r, full, tight);
      var mid, b := Launch(cfg, s, r);
      StrandedMore(cfg, s, mid, r, full, tight, b);
      t := Strand(cfg, mid, r, full, tight);
    }
  }

  /** The fewest operations that exceed some limit on the route, and the first throttle whose
      limit they exceed. */
  lemma {:induction false} Tightest(cfg: Config, r: set<nat>, n: nat, j: nat) returns (full: nat, tight: nat)
    requires cfg.Valid() && r in cfg.routes && j in r && cfg.stages[j].maxCost * n > cfg.stages[j].limit
    ensures full <= n && Tight(cfg, r, full, tight)
    decreases n, j
  {
    var fewer := n - 1;
    if exists a: nat :: Exceeds(cfg, r, a, fewer) {
      var a: nat :| Exceeds(cfg, r, a, fewer);
      full, tight := Tightest(cfg, r, fewer, a);
    } else if exists a: nat :: Exceeds(cfg, r, a, n) && a < j {
      var a: nat :| Exceeds(cfg, r, a, n) && a < j;
      full, tight := Tightest(cfg, r, n, a);
    } else {
      full, tight := n, j;
      assert forall a: nat :: a in r ==> !Exceeds(cfg, r, a, fewer);
      assert forall a: nat :: a in r && a < j ==> !Exceeds(cfg, r, a, n);
    }
  }

  /** n operations exceed the limit of throttle a on the route. */
  predicate Exceeds(cfg: Config, r: set<nat>, a: nat, n: int)
    requires cfg.Valid() && r in cfg.routes
  {
    a in r && cfg.stages[a].maxCost * n > cfg.stages[a].limit
  }

  /** From a throttle that one operation per worker can exceed, a deadlock. */
  lemma Hang(cfg: Config, r: set<nat>, j: nat) returns (s: State)
    requires cfg.Valid() && ExceedsAt(cfg, r, j)
    ensures Reachable(cfg, s) && Deadlocked(cfg, s)
  {
    var full, tight := Tightest(cfg, r, cfg.workers, j);
    s := Fill(cfg, r, full, tight, full);
    FilledIsReplaced(cfg, s, r, full, tight);
    s := Replace(cfg, s, r, full, tight, 0);
    ReplacedStrands(cfg, s, r, full, tight);
    s := Strand(cfg, s, r, full, tight);
    StrandedBusy(cfg, s, r, full, tight);
  }

  /** Main result.  Without rejections, and over all routes and interleavings, a state in which
      every worker hangs for ever somewhere in the chain can be reached if and only if one of the
      throttles could hang them all by itself. */
  lemma ChainDeadlocksIffSomeThrottleDoes(cfg: Config)
    requires cfg.Valid()
    ensures (exists s :: Reachable(cfg, s) && Deadlocked(cfg, s)) <==> SomeThrottleHangs(cfg)
  {
    if SomeThrottleHangs(cfg) {
      var r: set<nat>, j: nat :| ExceedsAt(cfg, r, j);
      var s := Hang(cfg, r, j);
    }
    forall s | Reachable(cfg, s) && Deadlocked(cfg, s) ensures SomeThrottleHangs(cfg) {
      ChainInv(cfg, s);
      DeadlockCosts(cfg, s);
    }
  }

  /** The same through the single throttles: the chain can hang if and only if a throttle on a
      route can, run on its own with the same workers. */
  lemma ChainDeadlocksIffThrottleAlone(cfg: Config)
    requires cfg.Valid()
    ensures (exists s :: Reachable(cfg, s) && Deadlocked(cfg, s)) <==>
      exists r: set<nat>, j: nat :: HangsAt(cfg, r, j)
  {
    ChainDeadlocksIffSomeThrottleDoes(cfg);
    forall r: set<nat>, j: nat ensures HangsAt(cfg, r, j) <==> ExceedsAt(cfg, r, j) {
      if r in cfg.routes && j in r {
        D.DeadlockReachableIffCostsExceedLimit(cfg.stages[j]);
      }
    }
  }

  ghost predicate HangsAt(cfg: Config, r: set<nat>, j: nat)
    requires cfg.Valid()
  {
    r in cfg.routes && j in r && HangsAlone(cfg.stages[j])
  }

  ghost predicate HangsAlone(c: T.Config) {
    exists s :: T.Reachable(c, s) && T.Rejects(s) == 0 && D.Deadlocked(c, s)
  }
}
