/**
 How tight the bound on a server queue is: without spurious wakeups the capacity plus one
 operation per producer is reached, and with them no bound holds at all.
 */
module ServerQueueBounds {
  import opened ServerQueue

  ghost predicate Reachable(cfg: Config, s: State)
    requires cfg.Valid()
  {
    exists run :: IsRun(cfg, run) && run[|run| - 1] == s
  }

  lemma ReachableInit(cfg: Config)
    requires cfg.Valid()
    ensures Reachable(cfg, Init(cfg))
  {
    assert IsRun(cfg, [Init(cfg)]);
  }

  lemma ReachableNext(cfg: Config, s: State, ev: Event)
    requires cfg.Valid() && Reachable(cfg, s) && |s.lanes| == cfg.queueNum && Enabled(cfg, s, ev)
    ensures Reachable(cfg, Apply(cfg, s, ev))
  {
    var run :| IsRun(cfg, run) && run[|run| - 1] == s;
    var t := Apply(cfg, s, ev);
    assert Step(cfg, s, t);
    var longer := run + [t];
    forall n | 0 <= n < |longer| - 1 ensures Step(cfg, longer[n], longer[n + 1]) {
      if n < |run| - 1 { assert Step(cfg, run[n], run[n + 1]); }
    }
    assert IsRun(cfg, longer) && longer[|longer| - 1] == t;
  }

  /** Sizes of one lane that has never handed anything to its worker twice. */
  ghost predicate At(cfg: Config, s: State, k: nat, size: nat, waiting: nat, woken: nat, dealt: bool)
    requires cfg.Valid()
  {
    && Reachable(cfg, s) && |s.lanes| == cfg.queueNum && k < cfg.queueNum
    && |s.lanes[k].queue.req| == size && s.lanes[k].waiting == waiting && s.lanes[k].woken == woken
    && s.lanes[k].holding == [] && (!dealt ==> s.lanes[k].deal == NONE)
  }

  /** One event on lane k. */
  lemma Do(cfg: Config, s: State, ev: Event) returns (t: State)
    requires cfg.Valid() && Reachable(cfg, s) && |s.lanes| == cfg.queueNum && Enabled(cfg, s, ev)
    ensures Reachable(cfg, t) && |t.lanes| == cfg.queueNum && t.lanes[Where(cfg, ev)] == LaneAfter(cfg, s, ev)
  {
    ReachableNext(cfg, s, ev);
    t := Apply(cfg, s, ev);
  }

  lemma {:induction false} PushMany(cfg: Config, s: State, e: Entry, woken: nat, dealt: bool, n: nat) returns (t: State)
    requires cfg.Valid() && n <= cfg.capacity + 1 && woken < cfg.producers
    requires At(cfg, s, cfg.LaneOf(e.msg.object_), 0, 0, woken, dealt)
    ensures At(cfg, t, cfg.LaneOf(e.msg.object_), n, 0, woken, dealt)
  {
    t := s;
    if n > 0 {
      t := PushMany(cfg, s, e, woken, dealt, n - 1);
      t := Do(cfg, t, Push(e));
    }
  }

  lemma {:induction false} BlockMany(cfg: Config, s: State, k: nat, size: nat, n: nat) returns (t: State)
    requires cfg.Valid() && n <= cfg.producers && size > cfg.capacity
    requires At(cfg, s, k, size, 0, 0, false)
    ensures At(cfg, t, k, size, n, 0, false)
  {
    t := s;
    if n > 0 {
      t := BlockMany(cfg, s, k, size, n - 1);
      t := Do(cfg, t, Block(k));
    }
  }

  lemma {:induction false} WakeMany(cfg: Config, s: State, e: Entry, size: nat, woken: nat, n: nat) returns (t: State)
    requires cfg.Valid() && n <= woken
    requires At(cfg, s, cfg.LaneOf(e.msg.object_), size, 0, woken, true)
    ensures At(cfg, t, cfg.LaneOf(e.msg.object_), size + n, 0, woken - n, true)
  {
    t := s;
    if n > 0 {
      t := WakeMany(cfg, s, e, size, woken, n - 1);
      t := Do(cfg, t, WakePush(e));
    }
  }

  /** The bound is reached: all but one producer wait, one refills the queue, then all push. */
  lemma BoundIsReached(cfg: Config, e: Entry) returns (s: State)
    requires cfg.Valid() && 0 < cfg.producers
    ensures Reachable(cfg, s) && |s.lanes| == cfg.queueNum
    ensures |s.lanes[cfg.LaneOf(e.msg.object_)].queue.req| == cfg.capacity + cfg.producers
  {
    var k := cfg.LaneOf(e.msg.object_);
    ReachableInit(cfg);
    s := Init(cfg);
    s := PushMany(cfg, s, e, 0, false, cfg.capacity + 1);
    s := BlockMany(cfg, s, k, cfg.capacity + 1, cfg.producers - 1);
    s := Do(cfg, s, Swap(k));
    s := PushMany(cfg, s, e, cfg.producers - 1, true, cfg.capacity + 1);
    s := WakeMany(cfg, s, e, cfg.capacity + 1, cfg.producers - 1, cfg.producers - 1);
  }

  /** With spurious wakeups one producer alone can make a queue as long as it likes. */
  lemma {:induction false} SpuriousWakeupsBreakEveryBound(cfg: Config, e: Entry, size: nat) returns (s: State)
    requires cfg.Valid() && cfg.spurious && 0 < cfg.producers && cfg.capacity < size
    ensures At(cfg, s, cfg.LaneOf(e.msg.object_), size, 0, 0, false)
  {
    if size == cfg.capacity + 1 {
      ReachableInit(cfg);
      s := PushMany(cfg, Init(cfg), e, 0, false, size);
    } else {
      var k := cfg.LaneOf(e.msg.object_);
      s := SpuriousWakeupsBreakEveryBound(cfg, e, size - 1);
      s := Do(cfg, s, Block(k));
      s := Do(cfg, s, Spurious(k));
      s := Do(cfg, s, WakePush(e));
    }
  }
}
