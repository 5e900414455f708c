/**
 The server adaptor's dispatch queues: dispatcher threads push client operations onto
 hashed, bounded, three-way parallel queues; one worker per queue swaps the queues out,
 pairs each operation with its two timestamps, and dispatches it, holding back while a
 copyup of its queue is unfinished.
 */
module ServerQueue {
  import opened Lanes
  import opened Sequences

  datatype Msg = Msg(id: nat, object_: string, copyup: bool)

  /** One arrival: the operation with the two timestamps taken for it. */
  datatype Entry = Entry(msg: Msg, ts: nat, period: nat)

  /** reqQueue, tsQueue and period, as three separate queues. */
  datatype Queues = Queues(req: seq<Msg>, ts: seq<nat>, period: seq<nat>) {
    predicate Aligned() { |req| == |ts| == |period| }

    function Entries(): (es: seq<Entry>)
      requires Aligned()
      ensures |es| == |req|
    {
      seq(|req|, i requires 0 <= i < |req| => Entry(req[i], ts[i], period[i]))
    }

    function Push(e: Entry): Queues { Queues(req + [e.msg], ts + [e.ts], period + [e.period]) }

    function Pop(): Queues
      requires Aligned() && req != []
    {
      Queues(req[1..], ts[1..], period[1..])
    }
  }

  const NONE: Queues := Queues([], [], [])

  lemma PushEntries(q: Queues, e: Entry)
    requires q.Aligned()
    ensures q.Push(e).Aligned() && q.Push(e).Entries() == q.Entries() + [e]
  {
  }

  lemma PopEntries(q: Queues)
    requires q.Aligned() && q.req != []
    ensures q.Pop().Aligned() && q.Entries() == [Entry(q.req[0], q.ts[0], q.period[0])] + q.Pop().Entries()
  {
  }

  // ---------------------------------------------------------------------------
  // The queue object and the worker's batch loop

  class ClientOpQueue {
    var reqQueue: seq<Msg>
    var tsQueue: seq<nat>
    var period: seq<nat>

    ghost function Model(): Queues
      reads this
    {
      Queues(reqQueue, tsQueue, period)
    }

    constructor ()
      ensures Model() == NONE
    {
      reqQueue, tsQueue, period := [], [], [];
    }

    method EnQueue(op: Msg, ts: nat, p: nat)
      modifies this
      ensures Model() == old(Model()).Push(Entry(op, ts, p))
    {
      reqQueue := reqQueue + [op];
      tsQueue := tsQueue + [ts];
      period := period + [p];
    }

    /** The three swaps at the head of a batch. */
    method Swap(deal: Queues) returns (batch: Queues)
      modifies this
      ensures Model() == deal && batch == old(Model())
    {
      batch := Queues(reqQueue, tsQueue, period);
      reqQueue, tsQueue, period := deal.req, deal.ts, deal.period;
    }
  }

  /** What ProcessOpReq makes of an operation. */
  datatype Outcome = Accepted | Refused | Overflow

  function AcceptedBy(verdict: Msg -> Outcome): Entry -> bool {
    (e: Entry) => verdict(e.msg) == Accepted
  }

  /** The three pops for one operation: its life timestamp first, then the operation and its
      queueing timestamp inside ProcessOpReq. */
  method TakeFirst(deal: Queues) returns (entry: Entry, rest: Queues)
    requires deal.Aligned() && deal.req != []
    ensures rest.Aligned() && |rest.req| == |deal.req| - 1
    ensures deal.Entries() == [entry] + rest.Entries()
  {
    var ts, dealTs := deal.ts[0], deal.ts[1..];
    var op, dealQueue := deal.req[0], deal.req[1..];
    var pts, periodTs := deal.period[0], deal.period[1..];
    entry, rest := Entry(op, ts, pts), Queues(dealQueue, dealTs, periodTs);
    PopEntries(deal);
  }

  /** The batch loop of OpHandlerThread.  `allocations` are the results of the allocations
      made, in order (successful once the list is used up): a failed one is retried without
      touching the queues.  Whatever happens, every operation of the batch is processed once,
      in order, with its own timestamps. */
  method DrainBatch(batch: Queues, allocations: seq<bool>, verdict: Msg -> Outcome)
    returns (processed: seq<Entry>, accepted: seq<Entry>)
    requires batch.Aligned()
    ensures processed == batch.Entries()
    ensures accepted == Filter(AcceptedBy(verdict), batch.Entries())
    ensures forall e :: e in accepted <==> e in processed && verdict(e.msg) == Accepted
  {
    ghost var all := batch.Entries();
    var deal := batch;
    var attempts := 0;
    processed, accepted := [], [];
    while deal.req != []
      invariant deal.Aligned() && attempts <= |allocations|
      invariant all == processed + deal.Entries()
      invariant accepted == Filter(AcceptedBy(verdict), processed)
      invariant forall e :: e in accepted <==> e in processed && verdict(e.msg) == Accepted
      decreases |deal.req|, |allocations| - attempts
    {
      if attempts < |allocations| {
        attempts := attempts + 1;
        if !allocations[attempts - 1] { continue; }
      }
      var entry, rest := TakeFirst(deal);
      FilterLast(AcceptedBy(verdict), processed, entry);
      Regroup(processed, [entry], rest.Entries());
      deal := rest;
      processed := processed + [entry];
      if verdict(entry.msg) == Accepted {
        accepted := accepted + [entry];
      }
    }
    assert deal.Entries() == [];
  }

  // ---------------------------------------------------------------------------
  // All threads together

  /** `producers` dispatcher threads; `spurious` says whether condition variables may wake
      without a notification. */
  datatype Config = Config(queueNum: nat, capacity: nat, producers: nat, spurious: bool, hash: string -> nat) {
    predicate Valid() { 0 < queueNum }

    function LaneOf(object_: string): nat
      requires Valid()
    {
      hash(object_) % queueNum
    }
  }

  datatype Log = Sent(entry: Entry) | Freed

  /** One queue, its worker and the producers blocked on it.  `done`, `oks` and `log` are
      histories: the entries the worker took, whether ProcessOpReq accepted each, and its
      dispatches with the copyup completions. */
  datatype Lane = Lane(
    queue: Queues, deal: Queues, holding: seq<Entry>,
    waiting: nat, woken: nat, copyupFlag: bool, done: seq<Entry>, oks: seq<bool>, log: seq<Log>)

  const EMPTY: Lane := Lane(NONE, NONE, [], 0, 0, false, [], [], [])

  /** The accepted ones among the entries taken. */
  function Passed(done: seq<Entry>, oks: seq<bool>): seq<Entry>
    requires |done| == |oks|
  {
    if done == [] then []
    else Passed(done[..|done| - 1], oks[..|oks| - 1]) + (if oks[|oks| - 1] then [done[|done| - 1]] else [])
  }

  /** The entries dispatched. */
  function Dispatched(log: seq<Log>): seq<Entry> {
    if log == [] then []
    else Dispatched(log[..|log| - 1]) + (if log[|log| - 1].Sent? then [log[|log| - 1].entry] else [])
  }

  datatype State = State(arrivals: seq<Entry>, lanes: seq<Lane>)

  datatype Event =
    | Push(e: Entry)              // EnqueueClientop finds room
    | Block(k: nat)               // EnqueueClientop finds the queue over capacity and waits
    | Spurious(k: nat)            // a waiting producer wakes without being notified
    | WakePush(e: Entry)          // a woken producer pushes without looking at the size again
    | Swap(k: nat)                // the worker swaps the queues out and notifies all
    | Take(k: nat, ok: bool)      // the worker takes the next entry, for good or for ill
    | Dispatch(k: nat)            // DoOneOps, once the copyup flag is clear
    | CopyupDone(k: nat)          // the engine finishes the copyup and clears the flag

  predicate Enabled(cfg: Config, s: State, ev: Event)
    requires cfg.Valid() && |s.lanes| == cfg.queueNum
  {
    match ev
    case Push(e) =>
      var l := s.lanes[cfg.LaneOf(e.msg.object_)];
      |l.queue.req| <= cfg.capacity && l.waiting + l.woken < cfg.producers
    case Block(k) => k < cfg.queueNum && var l := s.lanes[k];
      |l.queue.req| > cfg.capacity && l.waiting + l.woken < cfg.producers
    case Spurious(k) => k < cfg.queueNum && cfg.spurious && s.lanes[k].waiting > 0
    case WakePush(e) => s.lanes[cfg.LaneOf(e.msg.object_)].woken > 0
    case Swap(k) => k < cfg.queueNum && var l := s.lanes[k];
      l.queue.req != [] && l.deal.req == [] && l.holding == []
    case Take(k, ok) => k < cfg.queueNum && var l := s.lanes[k];
      l.deal.Aligned() && l.deal.req != [] && l.holding == []
    case Dispatch(k) => k < cfg.queueNum && var l := s.lanes[k];
      l.holding != [] && !l.copyupFlag
    case CopyupDone(k) => k < cfg.queueNum && s.lanes[k].copyupFlag
  }

  /** The lane an event belongs to. */
  function Where(cfg: Config, ev: Event): nat
    requires cfg.Valid()
  {
    match ev
    case Push(e) => cfg.LaneOf(e.msg.object_)
    case WakePush(e) => cfg.LaneOf(e.msg.object_)
    case Block(k) => k
    case Spurious(k) => k
    case Swap(k) => k
    case Take(k, _) => k
    case Dispatch(k) => k
    case CopyupDone(k) => k
  }

  function LaneAfter(cfg: Config, s: State, ev: Event): Lane
    requires cfg.Valid() && |s.lanes| == cfg.queueNum && Enabled(cfg, s, ev)
  {
    var l := s.lanes[Where(cfg, ev)];
    match ev
    case Push(e) => l.(queue := l.queue.Push(e))
    case Block(_) => l.(waiting := l.waiting + 1)
    case Spurious(_) => l.(waiting := l.waiting - 1, woken := l.woken + 1)
    case WakePush(e) => l.(queue := l.queue.Push(e), woken := l.woken - 1)
    case Swap(_) => l.(queue := l.deal, deal := l.queue, woken := l.woken + l.waiting, waiting := 0)
    case Take(_, ok) =>
      var e := Entry(l.deal.req[0], l.deal.ts[0], l.deal.period[0]);
      l.(deal := l.deal.Pop(), done := l.done + [e], oks := l.oks + [ok], holding := if ok then [e] else [])
    case Dispatch(_) =>
      var e := l.holding[0];
      l.(holding := [], copyupFlag := e.msg.copyup, log := l.log + [Sent(e)])
    case CopyupDone(_) => l.(copyupFlag := false, log := l.log + [Freed])
  }

  function Apply(cfg: Config, s: State, ev: Event): State
    requires cfg.Valid() && |s.lanes| == cfg.queueNum && Enabled(cfg, s, ev)
  {
    State(if ev.Push? || ev.WakePush? then s.arrivals + [ev.e] else s.arrivals,
          s.lanes[Where(cfg, ev) := LaneAfter(cfg, s, ev)])
  }

  function Init(cfg: Config): State { State([], seq(cfg.queueNum, _ => EMPTY)) }

  ghost predicate Step(cfg: Config, s: State, t: State)
    requires cfg.Valid()
  {
    |s.lanes| == cfg.queueNum && exists ev: Event :: Enabled(cfg, s, ev) && t == Apply(cfg, s, ev)
  }

  ghost predicate IsRun(cfg: Config, run: seq<State>)
    requires cfg.Valid()
  {
    && 0 < |run| && run[0] == Init(cfg)
    && forall n :: 0 <= n < |run| - 1 ==> Step(cfg, run[n], run[n + 1])
  }

  // ---------------------------------------------------------------------------
  // The invariant

  predicate InLane(cfg: Config, k: nat, e: Entry)
    requires cfg.Valid()
  {
    cfg.LaneOf(e.msg.object_) == k
  }

  /** Nothing of the lane's arrivals is lost, reordered or paired with another entry's
      timestamps. */
  predicate OrderedLane(mine: seq<Entry>, l: Lane) {
    && l.queue.Aligned() && l.deal.Aligned() && |l.oks| == |l.done| && |l.holding| <= 1
    && mine == l.done + (l.deal.Entries() + l.queue.Entries())
    && Passed(l.done, l.oks) == Dispatched(l.log) + l.holding
  }

  function Mine(cfg: Config, s: State, k: nat): seq<Entry>
    requires cfg.Valid()
  {
    Filter((e: Entry) => InLane(cfg, k, e), s.arrivals)
  }

  predicate Ordered(cfg: Config, s: State, k: nat)
    requires cfg.Valid() && k < |s.lanes|
  {
    OrderedLane(Mine(cfg, s, k), s.lanes[k])
  }

  /** The queue's size with the producers about to push unconditionally. */
  predicate Bounded(cfg: Config, l: Lane) {
    l.waiting + l.woken <= cfg.producers && |l.queue.req| + l.woken <= cfg.capacity + cfg.producers
  }

  /** Producers wait only while the queue is over its capacity. */
  predicate WaitsOverCapacity(cfg: Config, l: Lane) { l.waiting > 0 ==> |l.queue.req| > cfg.capacity }

  predicate IsCopyup(x: Log) { x.Sent? && x.entry.msg.copyup }

  /** After a dispatched copyup nothing is dispatched until it is finished. */
  ghost predicate Gated(log: seq<Log>) {
    forall i, j :: 0 <= i < j < |log| && IsCopyup(log[i]) && log[j].Sent? ==> exists m :: i < m < j && log[m].Freed?
  }

  /** The copyup flag is up exactly while the last thing logged is a dispatched copyup. */
  ghost predicate FlagIsOpenCopyup(l: Lane) {
    && Gated(l.log)
    && (l.copyupFlag <==> l.log != [] && IsCopyup(l.log[|l.log| - 1]))
    && (!l.copyupFlag ==> forall i :: 0 <= i < |l.log| && IsCopyup(l.log[i]) ==>
      exists m :: i < m < |l.log| && l.log[m].Freed?)
  }

  ghost predicate Inv(cfg: Config, s: State)
    requires cfg.Valid()
  {
    && |s.lanes| == cfg.queueNum
    && forall k :: 0 <= k < cfg.queueNum ==>
         && Ordered(cfg, s, k) && FlagIsOpenCopyup(s.lanes[k]) && WaitsOverCapacity(cfg, s.lanes[k])
         && (!cfg.spurious ==> Bounded(cfg, s.lanes[k]))
  }

  lemma PushKeepsOrder(mine: seq<Entry>, l: Lane, e: Entry)
    requires OrderedLane(mine, l)
    ensures OrderedLane(mine + [e], l.(queue := l.queue.Push(e)))
  {
    PushEntries(l.queue, e);
  }

  lemma TakeKeepsOrder(mine: seq<Entry>, l: Lane, ok: bool)
    requires OrderedLane(mine, l) && l.deal.req != [] && l.holding == []
    ensures var e := Entry(l.deal.req[0], l.deal.ts[0], l.deal.period[0]);
      OrderedLane(mine, l.(
        deal := l.deal.Pop(), done := l.done + [e], oks := l.oks + [ok], holding := if ok then [e] else []))
  {
    PopEntries(l.deal);
    var e := Entry(l.deal.req[0], l.deal.ts[0], l.deal.period[0]);
    assert (l.done + [e])[..|l.done|] == l.done && (l.oks + [ok])[..|l.oks|] == l.oks;
  }

  lemma SwapKeepsOrder(mine: seq<Entry>, l: Lane)
    requires OrderedLane(mine, l) && l.deal.req == []
    ensures OrderedLane(mine, l.(queue := l.deal, deal := l.queue))
  {
    assert l.deal.Entries() == [];
  }

  lemma LogKeepsOrder(mine: seq<Entry>, l: Lane, x: Log, flag: bool)
    requires OrderedLane(mine, l) && (x.Sent? ==> l.holding == [x.entry])
    ensures OrderedLane(mine, l.(log := l.log + [x], holding := if x.Sent? then [] else l.holding, copyupFlag := flag))
  {
    assert (l.log + [x])[..|l.log|] == l.log;
  }

  lemma LaneKeepsOrder(cfg: Config, s: State, ev: Event, mine: seq<Entry>)
    requires cfg.Valid() && |s.lanes| == cfg.queueNum && Enabled(cfg, s, ev)
    requires OrderedLane(mine, s.lanes[Where(cfg, ev)])
    ensures OrderedLane(if ev.Push? || ev.WakePush? then mine + [ev.e] else mine, LaneAfter(cfg, s, ev))
  {
    var l := s.lanes[Where(cfg, ev)];
    match ev
    case Push(e) => PushKeepsOrder(mine, l, e);
    case WakePush(e) => PushKeepsOrder(mine, l, e);
    case Take(_, ok) => TakeKeepsOrder(mine, l, ok);
    case Swap(_) => SwapKeepsOrder(mine, l);
    case Dispatch(_) => LogKeepsOrder(mine, l, Sent(l.holding[0]), l.holding[0].msg.copyup);
    case CopyupDone(_) => LogKeepsOrder(mine, l, Freed, false);
    case _ =>
  }

  lemma MineStep(cfg: Config, s: State, ev: Event, k: nat)
    requires cfg.Valid() && |s.lanes| == cfg.queueNum && Enabled(cfg, s, ev)
    ensures Mine(cfg, Apply(cfg, s, ev), k) ==
      if (ev.Push? || ev.WakePush?) && Where(cfg, ev) == k then Mine(cfg, s, k) + [ev.e] else Mine(cfg, s, k)
  {
    if ev.Push? || ev.WakePush? {
      FilterLast((e: Entry) => InLane(cfg, k, e), s.arrivals, ev.e);
    }
  }

  lemma OrderedStep(cfg: Config, s: State, ev: Event, k: nat)
    requires cfg.Valid() && |s.lanes| == cfg.queueNum && Enabled(cfg, s, ev) && k < cfg.queueNum && Ordered(cfg, s, k)
    ensures Ordered(cfg, Apply(cfg, s, ev), k)
  {
    MineStep(cfg, s, ev, k);
    if Where(cfg, ev) == k {
      LaneKeepsOrder(cfg, s, ev, Mine(cfg, s, k));
    }
  }

  lemma FlagStep(cfg: Config, s: State, ev: Event)
    requires cfg.Valid() && |s.lanes| == cfg.queueNum && Enabled(cfg, s, ev)
    requires FlagIsOpenCopyup(s.lanes[Where(cfg, ev)])
    ensures FlagIsOpenCopyup(LaneAfter(cfg, s, ev))
  {
    var l, l' := s.lanes[Where(cfg, ev)], LaneAfter(cfg, s, ev);
    if ev.Dispatch? || ev.CopyupDone? {
      var n := |l.log|;
      assert forall i :: 0 <= i < n ==> l'.log[i] == l.log[i];
      forall i, j | 0 <= i < j < |l'.log| && IsCopyup(l'.log[i]) && l'.log[j].Sent?
        ensures exists m :: i < m < j && l'.log[m].Freed?
      {
        var m :| i < m < j && l.log[m].Freed?;
        assert l'.log[m].Freed?;
      }
      if !l'.copyupFlag {
        forall i | 0 <= i < |l'.log| && IsCopyup(l'.log[i]) ensures exists m :: i < m < |l'.log| && l'.log[m].Freed? {
          if ev.Dispatch? {
            var m :| i < m < n && l.log[m].Freed?;
            assert l'.log[m].Freed?;
          } else {
            assert l'.log[n].Freed?;
          }
        }
      }
    }
  }

  lemma InvStep(cfg: Config, s: State, ev: Event)
    requires cfg.Valid() && Inv(cfg, s) && Enabled(cfg, s, ev)
    ensures Inv(cfg, Apply(cfg, s, ev))
  {
    var t := Apply(cfg, s, ev);
    forall k | 0 <= k < cfg.queueNum
      ensures Ordered(cfg, t, k) && FlagIsOpenCopyup(t.lanes[k]) && WaitsOverCapacity(cfg, t.lanes[k])
      ensures !cfg.spurious ==> Bounded(cfg, t.lanes[k])
    {
      OrderedStep(cfg, s, ev, k);
      if k == Where(cfg, ev) { FlagStep(cfg, s, ev); }
    }
  }

  lemma {:induction false} InvRun(cfg: Config, run: seq<State>, n: nat)
    requires cfg.Valid() && IsRun(cfg, run) && n < |run|
    ensures Inv(cfg, run[n])
  {
    if n > 0 {
      InvRun(cfg, run, n - 1);
      assert Step(cfg, run[n - 1], run[n - 1 + 1]);
      var ev: Event :| Enabled(cfg, run[n - 1], ev) && run[n] == Apply(cfg, run[n - 1], ev);
      InvStep(cfg, run[n - 1], ev);
    }
  }

  /** Main result 1.  In every interleaving, for every object the operations its worker took
      are a prefix of the object's arrivals, each with its own two timestamps; and what a
      worker dispatched is a prefix of what it took and accepted, in that order. */
  lemma ObjectsAreServedInArrivalOrder(cfg: Config, run: seq<State>, n: nat, object_: string)
    requires cfg.Valid() && IsRun(cfg, run) && n < |run|
    ensures |run[n].lanes| == cfg.queueNum
    ensures var mine := (e: Entry) => e.msg.object_ == object_;
      Filter(mine, run[n].lanes[cfg.LaneOf(object_)].done) <= Filter(mine, run[n].arrivals)
    ensures var l := run[n].lanes[cfg.LaneOf(object_)];
      |l.oks| == |l.done| && Dispatched(l.log) <= Passed(l.done, l.oks)
    ensures forall k, e :: 0 <= k < cfg.queueNum && e in run[n].lanes[k].done && e.msg.object_ == object_ ==>
      k == cfg.LaneOf(object_)
  {
    InvRun(cfg, run, n);
    forall k, e | 0 <= k < cfg.queueNum && e in run[n].lanes[k].done && e.msg.object_ == object_
      ensures k == cfg.LaneOf(object_)
    {
      NoOtherLaneTakesThem(cfg, run, n, k, e);
    }
    var k := cfg.LaneOf(object_);
    var l := run[n].lanes[k];
    assert Ordered(cfg, run[n], k);
    ObjectOrder((e: Entry) => InLane(cfg, k, e), (e: Entry) => e.msg.object_ == object_,
                run[n].arrivals, l.done, l.deal.Entries() + l.queue.Entries());
  }

  /** No other lane ever takes an entry of that object; so each is taken at most once. */
  lemma NoOtherLaneTakesThem(cfg: Config, run: seq<State>, n: nat, k: nat, e: Entry)
    requires cfg.Valid() && IsRun(cfg, run) && n < |run| && k < cfg.queueNum
    ensures |run[n].lanes| == cfg.queueNum
    ensures e in run[n].lanes[k].done ==> k == cfg.hash(e.msg.object_) % cfg.queueNum && e in run[n].arrivals
  {
    InvRun(cfg, run, n);
    assert Ordered(cfg, run[n], k);
    if e in run[n].lanes[k].done {
      assert e in Mine(cfg, run[n], k);
    }
  }

  /** Main result 2.  No operation of a queue is dispatched while an earlier copyup of that
      queue is unfinished, and nothing else holds the next one back. */
  lemma NothingPassesAnUnfinishedCopyup(cfg: Config, run: seq<State>, n: nat, k: nat)
    requires cfg.Valid() && IsRun(cfg, run) && n < |run| && k < cfg.queueNum
    ensures |run[n].lanes| == cfg.queueNum && Gated(run[n].lanes[k].log)
    ensures var l := run[n].lanes[k];
      l.copyupFlag <==> l.log != [] && l.log[|l.log| - 1].Sent? && l.log[|l.log| - 1].entry.msg.copyup
  {
    InvRun(cfg, run, n);
    assert FlagIsOpenCopyup(run[n].lanes[k]);
  }

  /** Main result 3.  Without spurious wakeups a queue never holds more than the capacity
      plus one operation per producer, although the size is not looked at again after a wait. */
  lemma QueueIsBounded(cfg: Config, run: seq<State>, n: nat, k: nat)
    requires cfg.Valid() && !cfg.spurious && IsRun(cfg, run) && n < |run| && k < cfg.queueNum
    ensures |run[n].lanes| == cfg.queueNum
    ensures |run[n].lanes[k].queue.req| <= cfg.capacity + cfg.producers
  {
    InvRun(cfg, run, n);
    assert Bounded(cfg, run[n].lanes[k]);
  }

  // ---------------------------------------------------------------------------
  // No producer is left waiting

  /** The worker, or the engine finishing its copyup, makes a step on lane k. */
  predicate Serves(ev: Event, k: nat) {
    match ev
    case Swap(j) => j == k
    case Take(j, _) => j == k
    case Dispatch(j) => j == k
    case CopyupDone(j) => j == k
    case _ => false
  }

  /** Steps the worker and the engine still have to make before the next swap. */
  function Backlog(l: Lane): nat {
    3 * |l.deal.req| + 2 * |l.holding| + if l.copyupFlag then 1 else 0
  }

  /** Only a swap adds to the backlog; every other step of the worker or the engine lowers it. */
  lemma BacklogShrinks(cfg: Config, s: State, ev: Event, k: nat)
    requires cfg.Valid() && Inv(cfg, s) && Enabled(cfg, s, ev) && k < cfg.queueNum && ev != Swap(k)
    ensures Serves(ev, k) ==> Backlog(Apply(cfg, s, ev).lanes[k]) < Backlog(s.lanes[k])
    ensures Backlog(Apply(cfg, s, ev).lanes[k]) <= Backlog(s.lanes[k])
  {
    assert Ordered(cfg, s, k);
    if Where(cfg, ev) == k {
      assert Apply(cfg, s, ev).lanes[k] == LaneAfter(cfg, s, ev);
    }
  }

  /** Main result 4.  In every run, while a lane holds an operation the worker or the engine has
      a step to make; once its backlog is worked off that step is the swap, which wakes every
      waiting producer; and producers wait only while the queue is over its capacity. */
  lemma WaitingProducerIsServed(cfg: Config, run: seq<State>, n: nat, k: nat)
    requires cfg.Valid() && IsRun(cfg, run) && n < |run| && k < cfg.queueNum
    ensures |run[n].lanes| == cfg.queueNum
    ensures var s, l := run[n], run[n].lanes[k];
      && (l.waiting > 0 ==> |l.queue.req| > cfg.capacity)
      && (l.queue.req != [] || l.deal.req != [] || l.holding != [] ==>
        exists ev :: Serves(ev, k) && Enabled(cfg, s, ev))
      && (l.queue.req != [] && Backlog(l) <= 1 ==>
        Enabled(cfg, s, Swap(k)) && Apply(cfg, s, Swap(k)).lanes[k].waiting == 0)
  {
    InvRun(cfg, run, n);
    var s, l := run[n], run[n].lanes[k];
    assert Ordered(cfg, s, k) && WaitsOverCapacity(cfg, l);
    if l.queue.req != [] || l.deal.req != [] || l.holding != [] {
      var ev := if l.holding != [] then (if l.copyupFlag then CopyupDone(k) else Dispatch(k))
        else if l.deal.req != [] then Take(k, true) else Swap(k);
      assert Serves(ev, k) && Enabled(cfg, s, ev);
    }
  }
}
