/**
 The proxy's request path: the linked ConcurrentQueue, the double-checked creation of one
 RadosIOWorker per pool, and the order in which requests of one object are handled.
 */
module ProxyWorker {
  import opened Lanes

  // ---------------------------------------------------------------------------
  // The linked queue

  class QueueItem<T> {
    var value: T
    var next: QueueItem?<T>

    constructor (v: T)
      ensures value == v && next == null
    {
      value, next := v, null;
    }
  }

  /** A singly linked list behind a dummy head.  `spine` lists its items from the dummy on. */
  class ConcurrentQueue<T> {
    var head: QueueItem<T>
    var tail: QueueItem<T>
    ghost var spine: seq<QueueItem<T>>

    ghost predicate Valid()
      reads this, spine
    {
      && 0 < |spine| && head == spine[0] && tail == spine[|spine| - 1]
      && (forall i, j :: 0 <= i < j < |spine| ==> spine[i] != spine[j])
      && (forall i :: 0 <= i < |spine| - 1 ==> spine[i].next == spine[i + 1])
      && tail.next == null
    }

    /** The queued values: those of every item but the dummy. */
    ghost function Contents(): seq<T>
      requires Valid()
      reads this, spine
    {
      seq(|spine| - 1, i requires 0 <= i < |spine| - 1 reads this, spine => spine[i + 1].value)
    }

    constructor (dummy: T)
      ensures Valid() && Contents() == [] && fresh(spine)
    {
      var item := new QueueItem(dummy);
      head, tail, spine := item, item, [item];
    }

    method Enqueue(v: T)
      requires Valid()
      modifies this, spine
      ensures Valid() && Contents() == old(Contents()) + [v]
      ensures forall x :: x in spine ==> x in old(spine) || fresh(x)
    {
      var qItem := new QueueItem(v);
      tail.next := qItem;
      tail := qItem;
      spine := spine + [qItem];
    }

    /** False exactly when the queue is empty. */
    method Dequeue() returns (ok: bool, v: T)
      requires Valid()
      modifies this
      ensures Valid()
      ensures ok == (old(Contents()) != [])
      ensures if ok then v == old(Contents())[0] && Contents() == old(Contents())[1..]
        else Contents() == old(Contents())
      ensures forall x :: x in spine ==> x in old(spine)
    {
      assert |spine| > 1 ==> spine[0].next == spine[0 + 1];
      var nextItem := head.next;
      v := head.value;
      if nextItem == null {
        return false, v;
      }
      v := nextItem.value;
      assert |spine| == 1 ==> tail == head;
      head := nextItem;
      spine := spine[1..];
      ok := true;
    }
  }

  // ---------------------------------------------------------------------------
  // Racing callers of RadosWorker::Queue

  datatype Req = Req(id: nat, pool: int, object_: string)

  datatype Phase =
    | Start                    // about to look the pool up
    | Missed                   // found no worker, about to take the exclusive lock
    | Has(worker: nat)         // holds a worker
    | Queued
    | Failed                   // returned -1

  datatype Caller = Caller(req: Req, phase: Phase)

  datatype Arrival = Arrival(req: Req, worker: nat)

  datatype Lane = Lane(queue: seq<Arrival>, handled: seq<Arrival>)

  /** `created[w]` is the pool of the w-th RadosIOWorker ever constructed; `lanes(w, i)` is
      queue i of worker w; `arrivals` is the history of all enqueues. */
  datatype State = State(
    callers: seq<Caller>, ioWorkers: map<int, nat>, created: seq<int>,
    lanes: (nat, nat) -> Lane, arrivals: seq<Arrival>)

  const INIT: State := State([], map[], [], (_, _) => Lane([], []), [])

  datatype Config = Config(threadNum: nat, hash: string -> nat) {
    predicate Valid() { 0 < threadNum }

    function Index(object_: string): nat
      requires Valid()
    {
      hash(object_) % threadNum
    }
  }

  datatype Event =
    | Call(req: Req)
    | Get(i: nat)                    // GetIOWorker, under the shared lock
    | Create(i: nat, ok: bool)       // CreateIOWorker, under the exclusive lock
    | Enqueue(i: nat)                // RadosIOWorker::Queue
    | Handle(w: nat, index: nat)     // OpHandler takes one request

  predicate Enabled(s: State, e: Event) {
    match e
    case Call(_) => true
    case Get(i) => i < |s.callers| && s.callers[i].phase.Start?
    case Create(i, _) => i < |s.callers| && s.callers[i].phase.Missed?
    case Enqueue(i) => i < |s.callers| && s.callers[i].phase.Has?
    case Handle(w, index) => s.lanes(w, index).queue != []
  }

  function Found(s: State, pool: int): Phase {
    if pool < 0 then Failed
    else if pool in s.ioWorkers then Has(s.ioWorkers[pool])
    else Missed
  }

  function LaneAfterHandle(l: Lane): Lane {
    if l.queue == [] then l else Lane(l.queue[1..], l.handled + [l.queue[0]])
  }

  function Apply(cfg: Config, s: State, e: Event): State
    requires cfg.Valid() && Enabled(s, e)
  {
    match e
    case Call(req) => s.(callers := s.callers + [Caller(req, Start)])
    case Get(i) =>
      var c := s.callers[i];
      s.(callers := s.callers[i := c.(phase := Found(s, c.req.pool))])
    case Create(i, ok) =>
      var c := s.callers[i];
      if c.req.pool in s.ioWorkers then
        s.(callers := s.callers[i := c.(phase := Has(s.ioWorkers[c.req.pool]))])
      else if !ok then
        s.(callers := s.callers[i := c.(phase := Failed)])
      else
        s.(callers := s.callers[i := c.(phase := Has(|s.created|))],
           ioWorkers := s.ioWorkers[c.req.pool := |s.created|],
           created := s.created + [c.req.pool])
    case Enqueue(i) =>
      var c := s.callers[i];
      var a := Arrival(c.req, c.phase.worker);
      var index := cfg.Index(c.req.object_);
      s.(callers := s.callers[i := c.(phase := Queued)],
         lanes := (w: nat, k: nat) =>
           if w == a.worker && k == index then Lane(s.lanes(w, k).queue + [a], s.lanes(w, k).handled)
           else s.lanes(w, k),
         arrivals := s.arrivals + [a])
    case Handle(w, index) =>
      s.(lanes := (v: nat, k: nat) => if v == w && k == index then LaneAfterHandle(s.lanes(v, k)) else s.lanes(v, k))
  }

  ghost predicate IsRun(cfg: Config, states: seq<State>, events: seq<Event>)
    requires cfg.Valid()
  {
    && |states| == |events| + 1 && states[0] == INIT
    && forall k :: 0 <= k < |events| ==>
      Enabled(states[k], events[k]) && states[k + 1] == Apply(cfg, states[k], events[k])
  }

  /** The map and the list of constructed workers are inverse to each other, no pool is
      negative, and whoever holds or has used a worker for a pool holds the mapped one. */
  ghost predicate OnePerPool(s: State) {
    && (forall p :: p in s.ioWorkers ==> s.ioWorkers[p] < |s.created| && s.created[s.ioWorkers[p]] == p)
    && (forall w :: 0 <= w < |s.created| ==> s.created[w] in s.ioWorkers && s.ioWorkers[s.created[w]] == w)
    && (forall p :: p in s.ioWorkers ==> 0 <= p)
    && (forall i :: 0 <= i < |s.callers| && s.callers[i].phase.Missed? ==> 0 <= s.callers[i].req.pool)
    && (forall i :: 0 <= i < |s.callers| && s.callers[i].phase.Has? ==>
          s.callers[i].req.pool in s.ioWorkers && s.callers[i].phase.worker == s.ioWorkers[s.callers[i].req.pool])
    && (forall i :: 0 <= i < |s.arrivals| ==>
          s.arrivals[i].req.pool in s.ioWorkers && s.arrivals[i].worker == s.ioWorkers[s.arrivals[i].req.pool])
  }

  predicate InLane(cfg: Config, w: nat, index: nat, a: Arrival)
    requires cfg.Valid()
  {
    a.worker == w && cfg.Index(a.req.object_) == index
  }

  /** Each lane is first-in first-out over the arrivals hashed to it. */
  ghost predicate Ordered(cfg: Config, s: State, w: nat, index: nat)
    requires cfg.Valid()
  {
    Filter((a: Arrival) => InLane(cfg, w, index, a), s.arrivals) == s.lanes(w, index).handled + s.lanes(w, index).queue
  }

  lemma CreateKeepsOne(cfg: Config, s: State, e: Event)
    requires cfg.Valid() && OnePerPool(s) && Enabled(s, e) && e.Create?
    ensures OnePerPool(Apply(cfg, s, e))
  {
    var t := Apply(cfg, s, e);
    assert t.arrivals == s.arrivals;
    assert forall j :: 0 <= j < |s.callers| && j != e.i ==> t.callers[j] == s.callers[j];
    assert forall w :: 0 <= w < |s.created| ==> t.created[w] == s.created[w];
  }

  lemma OnePerPoolStep(cfg: Config, s: State, e: Event)
    requires cfg.Valid() && OnePerPool(s) && Enabled(s, e)
    ensures OnePerPool(Apply(cfg, s, e))
  {
    if e.Create? {
      CreateKeepsOne(cfg, s, e);
    }
  }

  lemma OrderedStep(cfg: Config, s: State, e: Event, w: nat, index: nat)
    requires cfg.Valid() && Ordered(cfg, s, w, index) && Enabled(s, e)
    ensures Ordered(cfg, Apply(cfg, s, e), w, index)
  {
    var l := s.lanes(w, index);
    if e.Enqueue? {
      var a := Arrival(s.callers[e.i].req, s.callers[e.i].phase.worker);
      FilterLast((a: Arrival) => InLane(cfg, w, index, a), s.arrivals, a);
      assert l.handled + (l.queue + [a]) == (l.handled + l.queue) + [a];
    }
    if e.Handle? && l.queue != [] {
      assert l.handled + l.queue == (l.handled + [l.queue[0]]) + l.queue[1..];
    }
  }

  lemma {:induction false} InvRun(cfg: Config, states: seq<State>, events: seq<Event>, k: nat, w: nat, index: nat)
    requires cfg.Valid() && IsRun(cfg, states, events) && k < |states|
    ensures OnePerPool(states[k]) && Ordered(cfg, states[k], w, index)
  {
    if k > 0 {
      InvRun(cfg, states, events, k - 1, w, index);
      OnePerPoolStep(cfg, states[k - 1], events[k - 1]);
      OrderedStep(cfg, states[k - 1], events[k - 1], w, index);
      assert states[k - 1 + 1] == Apply(cfg, states[k - 1], events[k - 1]);
    }
  }

  /** Main result 1.  However callers race, at most one worker is ever created per pool. */
  lemma AtMostOneWorkerPerPool(cfg: Config, states: seq<State>, events: seq<Event>, k: nat)
    requires cfg.Valid() && IsRun(cfg, states, events) && k < |states|
    ensures forall v, w :: 0 <= v < w < |states[k].created| ==> states[k].created[v] != states[k].created[w]
  {
    InvRun(cfg, states, events, k, 0, 0);
  }

  /** Main result 2.  The requests of one (pool, object) handled by its worker are a prefix
      of those enqueued, in order. */
  lemma ObjectsAreHandledInOrder(cfg: Config, states: seq<State>, events: seq<Event>, k: nat, pool: int,
      object_: string)
    requires cfg.Valid() && IsRun(cfg, states, events) && k < |states| && pool in states[k].ioWorkers
    ensures var mine := (a: Arrival) => a.req.pool == pool && a.req.object_ == object_;
      Filter(mine, states[k].lanes(states[k].ioWorkers[pool], cfg.hash(object_) % cfg.threadNum).handled) <=
      Filter(mine, states[k].arrivals)
  {
    var s := states[k];
    var w, index := s.ioWorkers[pool], cfg.Index(object_);
    InvRun(cfg, states, events, k, w, index);
    ObjectOrder((a: Arrival) => InLane(cfg, w, index, a),
                (a: Arrival) => a.req.pool == pool && a.req.object_ == object_,
                s.arrivals, s.lanes(w, index).handled, s.lanes(w, index).queue);
  }

  /** Main result 3.  No other lane ever handles a request of that (pool, object). */
  lemma NoOtherLaneHandlesThem(cfg: Config, states: seq<State>, events: seq<Event>, k: nat, w: nat, index: nat,
      a: Arrival)
    requires cfg.Valid() && IsRun(cfg, states, events) && k < |states|
    requires a in states[k].lanes(w, index).handled
    ensures a.req.pool in states[k].ioWorkers && w == states[k].ioWorkers[a.req.pool] &&
      index == cfg.hash(a.req.object_) % cfg.threadNum
  {
    InvRun(cfg, states, events, k, w, index);
    var s := states[k];
    assert a in Filter((a: Arrival) => InLane(cfg, w, index, a), s.arrivals);
  }

  // ---------------------------------------------------------------------------
  // What becomes of one call

  /** t is where the events lead from s. */
  ghost predicate Leads(cfg: Config, s: State, events: seq<Event>, t: State)
    requires cfg.Valid()
    decreases |events|
  {
    if events == [] then t == s
    else Enabled(s, events[0]) && Leads(cfg, Apply(cfg, s, events[0]), events[1..], t)
  }

  /** The caller's own steps when every allocation succeeds. */
  function OwnSteps(s: State, i: nat): seq<Event>
    requires i < |s.callers|
  {
    if s.callers[i].req.pool in s.ioWorkers then [Get(i), Enqueue(i)] else [Get(i), Create(i, true), Enqueue(i)]
  }

  /** Main result 4.  A call for a pool that is not negative is queued by its own steps, once,
      with the worker of its pool and on the queue its object hashes to; no other queue
      changes, and nothing is handled. */
  lemma ValidCallIsQueued(cfg: Config, s: State, i: nat) returns (t: State)
    requires cfg.Valid() && OnePerPool(s)
    requires i < |s.callers| && s.callers[i].phase.Start? && 0 <= s.callers[i].req.pool
    ensures Leads(cfg, s, OwnSteps(s, i), t)
    ensures var req := s.callers[i].req;
      && t.callers == s.callers[i := Caller(req, Queued)] && req.pool in t.ioWorkers
      && t.arrivals == s.arrivals + [Arrival(req, t.ioWorkers[req.pool])]
      && (forall w: nat, k: nat :: t.lanes(w, k).handled == s.lanes(w, k).handled)
      && (forall w: nat, k: nat :: t.lanes(w, k).queue ==
            s.lanes(w, k).queue + if w == t.ioWorkers[req.pool] && k == cfg.hash(req.object_) % cfg.threadNum
              then [Arrival(req, t.ioWorkers[req.pool])] else [])
  {
    var u := Apply(cfg, s, Get(i));
    if s.callers[i].req.pool in s.ioWorkers {
      t := Apply(cfg, u, Enqueue(i));
      assert Leads(cfg, u, [Enqueue(i)], t) by { assert Leads(cfg, t, [], t); }
      assert OwnSteps(s, i)[1..] == [Enqueue(i)];
    } else {
      var v := Apply(cfg, u, Create(i, true));
      t := Apply(cfg, v, Enqueue(i));
      assert Leads(cfg, v, [Enqueue(i)], t) by { assert Leads(cfg, t, [], t); }
      assert Leads(cfg, u, [Create(i, true), Enqueue(i)], t) by {
        assert [Create(i, true), Enqueue(i)][1..] == [Enqueue(i)];
      }
      assert OwnSteps(s, i)[1..] == [Create(i, true), Enqueue(i)];
    }
  }

  /** Only calls for such pools are ever queued; the others return -1 and change nothing. */
  lemma OnlyValidPoolsAreQueued(cfg: Config, states: seq<State>, events: seq<Event>, k: nat)
    requires cfg.Valid() && IsRun(cfg, states, events) && k < |states|
    ensures forall a :: a in states[k].arrivals ==> 0 <= a.req.pool
    ensures k < |events| && events[k].Get? && states[k].callers[events[k].i].req.pool < 0 ==>
      var i := events[k].i;
      states[k + 1] == states[k].(callers := states[k].callers[i := Caller(states[k].callers[i].req, Failed)])
  {
    InvRun(cfg, states, events, k, 0, 0);
  }
}
