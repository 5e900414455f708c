/**
 The proxy's Semaphore: an atomic counter in front of an inner mutex-and-condition
 semaphore, and the worker loop that sleeps on it.  Every event is one atomic access; the
 threads inside PostOne and Wait are counted, so any number of them may be interleaved.
 */
module Semaphore {

  /** `count` is the atomic counter, `inner` the count guarded by the inner mutex.  `pending`
      posters saw a negative counter and have not yet posted the inner semaphore; `blocked`
      waiters saw no credit and wait for it.  `posts` and `completed` are histories. */
  datatype Sem = Sem(count: int, inner: nat, pending: nat, blocked: nat, posts: nat, completed: nat)

  const ZERO: Sem := Sem(0, 0, 0, 0, 0, 0)

  /** PostOne: fetch_add(1). */
  function Add(s: Sem): Sem {
    s.(count := s.count + 1, posts := s.posts + 1, pending := if s.count < 0 then s.pending + 1 else s.pending)
  }

  /** PostOne: Sem::Post. */
  function PostInner(s: Sem): Sem
    requires s.pending > 0
  {
    s.(pending := s.pending - 1, inner := s.inner + 1)
  }

  /** Wait: fetch_sub(1). */
  function Subtract(s: Sem): Sem {
    var t := s.(count := s.count - 1);
    if s.count < 1 then t.(blocked := s.blocked + 1) else t.(completed := s.completed + 1)
  }

  /** Wait: Sem::Wait returns. */
  function WaitInner(s: Sem): Sem
    requires s.blocked > 0 && s.inner > 0
  {
    s.(blocked := s.blocked - 1, inner := s.inner - 1, completed := s.completed + 1)
  }

  function Max0(x: int): nat { if x < 0 then 0 else x }

  /** Blocked waiters are exactly the missing credit plus the wakeups on their way to them. */
  predicate Balanced(s: Sem) {
    && s.blocked == s.inner + s.pending + Max0(-s.count)
    && s.posts == s.completed + s.blocked + s.count
  }

  /** Every access keeps the balance; so posts are never lost: each is a completed wait, a
      credit in one of the two counters, or a post still under way. */
  lemma AccessesKeepBalance(s: Sem)
    requires Balanced(s)
    ensures Balanced(Add(s)) && Balanced(Subtract(s))
    ensures s.pending > 0 ==> Balanced(PostInner(s))
    ensures s.blocked > 0 && s.inner > 0 ==> Balanced(WaitInner(s))
    ensures s.posts == s.completed + Max0(s.count) + s.inner + s.pending
    ensures s.completed <= s.posts
  {
  }

  // ---------------------------------------------------------------------------
  // One worker and its queue

  type Req = nat

  datatype Phase = Top | Waiting | Blocked | Draining | Stopped

  /** `entering` producers are between Enqueue and their fetch_add, `stopping` callers of
      WaitForEmpty between setting the flag and theirs.  `enqueued` and `handled` are
      histories. */
  datatype State = State(sem: Sem, queue: seq<Req>, entering: nat, stop: bool, stopping: nat, phase: Phase,
    enqueued: seq<Req>, handled: seq<Req>)

  const INIT: State := State(ZERO, [], 0, false, 0, Top, [], [])

  datatype Event =
    | Enqueue(x: Req)       // RadosIOWorker::Queue puts a request on the queue
    | Post                // ... and posts
    | Stop                // WaitForEmpty sets the flag
    | StopPost            // ... and posts
    | Wake                // a poster reaches the inner semaphore
    | Check               // OpHandler tests the stop flag
    | BeginWait           // OpHandler enters Wait
    | EndWait             // OpHandler returns from the inner wait
    | Dequeue             // OpHandler takes the next request, or finds none

  predicate Enabled(s: State, e: Event) {
    match e
    case Enqueue(_) => true
    case Post => s.entering > 0
    case Stop => true
    case StopPost => s.stopping > 0
    case Wake => s.sem.pending > 0
    case Check => s.phase.Top?
    case BeginWait => s.phase.Waiting?
    case EndWait => s.phase.Blocked? && s.sem.inner > 0 && s.sem.blocked > 0
    case Dequeue => s.phase.Draining?
  }

  function Apply(s: State, e: Event): State
    requires Enabled(s, e)
  {
    match e
    case Enqueue(x) => s.(queue := s.queue + [x], entering := s.entering + 1, enqueued := s.enqueued + [x])
    case Post => s.(sem := Add(s.sem), entering := s.entering - 1)
    case Stop => s.(stop := true, stopping := s.stopping + 1)
    case StopPost => s.(sem := Add(s.sem), stopping := s.stopping - 1)
    case Wake => s.(sem := PostInner(s.sem))
    case Check => s.(phase := if s.stop then Stopped else Waiting)
    case BeginWait => s.(sem := Subtract(s.sem), phase := if s.sem.count < 1 then Blocked else Draining)
    case EndWait => s.(sem := WaitInner(s.sem), phase := Draining)
    case Dequeue =>
      if s.queue == [] then s.(phase := Top)
      else s.(queue := s.queue[1..], handled := s.handled + [s.queue[0]])
  }

  ghost predicate Next(s: State, e: Event, t: State) { Enabled(s, e) && t == Apply(s, e) }

  ghost predicate IsRun(states: seq<State>, events: seq<Event>) {
    && |states| == |events| + 1 && states[0] == INIT
    && forall k :: 0 <= k < |events| ==> Next(states[k], events[k], states[k + 1])
  }

  /** Outside its draining loop the worker leaves behind no more requests than there are
      posts it has not yet consumed or that are still to come.  Told to stop, it never waits
      without a post to come for it. */
  ghost predicate Inv(s: State) {
    && Balanced(s.sem)
    && s.sem.blocked == (if s.phase.Blocked? then 1 else 0)
    && (!s.phase.Draining? ==> |s.queue| <= s.sem.posts - s.sem.completed + s.entering)
    && s.handled <= s.enqueued && s.queue == s.enqueued[|s.handled|..]
    && (s.phase.Stopped? ==> s.stop)
    && (s.stop && s.stopping == 0 && (s.phase.Waiting? || s.phase.Blocked?) ==> s.sem.completed < s.sem.posts)
  }

  lemma InvStep(s: State, e: Event)
    requires Inv(s) && Enabled(s, e)
    ensures Inv(Apply(s, e))
  {
    AccessesKeepBalance(s.sem);
    if e.Enqueue? {
      assert s.queue + [e.x] == (s.enqueued + [e.x])[|s.handled|..];
    }
  }

  lemma InitInv(s: State)
    requires s.sem == ZERO && s.phase.Top? && |s.queue| == |s.enqueued| == |s.handled| == 0
    ensures Inv(s)
  {
  }

  lemma InvNext(states: seq<State>, events: seq<Event>, k: nat)
    requires IsRun(states, events) && k < |events| && Inv(states[k])
    ensures Inv(states[k + 1])
  {
    assert Next(states[k], events[k], states[k + 1]);
    InvStep(states[k], events[k]);
  }

  lemma {:induction false} InvRun(states: seq<State>, events: seq<Event>, k: nat)
    requires IsRun(states, events) && k < |states|
    ensures Inv(states[k])
  {
    if k == 0 {
      InitInv(states[0]);
    } else {
      InvRun(states, events, k - 1);
      InvNext(states, events, k - 1);
    }
  }

  /** Main result.  In every interleaving: completed waits never exceed posts, and a worker
      asleep on an inner count of zero while no producer is inside Queue has an empty queue. */
  lemma NoLostWakeup(states: seq<State>, events: seq<Event>, k: nat)
    requires IsRun(states, events) && k < |states|
    ensures var s := states[k];
      && s.sem.completed <= s.sem.posts
      && (s.phase.Blocked? && s.sem.inner == 0 && s.entering == 0 && s.sem.pending == 0 ==> s.queue == [])
  {
    InvRun(states, events, k);
    AccessesKeepBalance(states[k].sem);
  }

  /** The same as progress: with a request queued, no producer inside Queue and the worker
      not stopped, the worker itself has a step to take. */
  lemma QueuedRequestKeepsWorkerAwake(states: seq<State>, events: seq<Event>, k: nat)
    requires IsRun(states, events) && k < |states|
    requires var s := states[k]; s.queue != [] && s.entering == 0 && s.sem.pending == 0 && !s.phase.Stopped?
    ensures var s := states[k]; Enabled(s, Check) || Enabled(s, BeginWait) || Enabled(s, EndWait) || Enabled(s, Dequeue)
  {
    InvRun(states, events, k);
    NoLostWakeup(states, events, k);
  }

  /** Requests are handled in the order in which they were enqueued, each at most once. */
  lemma HandledInEnqueueOrder(states: seq<State>, events: seq<Event>, k: nat)
    requires IsRun(states, events) && k < |states|
    ensures states[k].handled <= states[k].enqueued
  {
    InvRun(states, events, k);
  }

  // ---------------------------------------------------------------------------
  // What the worker does by itself

  /** The worker's own next access. */
  function OwnEvent(s: State): Event {
    match s.phase
    case Waiting => BeginWait
    case Blocked => EndWait
    case Draining => Dequeue
    case _ => Check
  }

  /** t is where the worker gets by n accesses of its own. */
  ghost predicate Alone(s: State, n: nat, t: State)
    decreases n
  {
    if n == 0 then t == s else Enabled(s, OwnEvent(s)) && Alone(Apply(s, OwnEvent(s)), n - 1, t)
  }

  lemma {:induction false} OneMore(s: State, n: nat, t: State)
    requires Alone(s, n, t) && Enabled(t, OwnEvent(t))
    ensures Alone(s, n + 1, Apply(t, OwnEvent(t)))
    decreases n
  {
    if n == 0 {
      assert Alone(Apply(t, OwnEvent(t)), 0, Apply(t, OwnEvent(t)));
    } else {
      OneMore(Apply(s, OwnEvent(s)), n - 1, t);
    }
  }

  /** In its draining loop the worker handles everything queued. */
  lemma {:induction false} DrainsAlone(s: State) returns (n: nat, t: State)
    requires Inv(s) && s.phase.Draining?
    ensures Alone(s, n, t) && t == s.(phase := Top, queue := [], handled := s.enqueued)
    decreases |s.queue|
  {
    var u := Apply(s, Dequeue);
    InvStep(s, Dequeue);
    if s.queue == [] {
      n, t := 1, u;
      assert Alone(u, 0, u);
    } else {
      n, t := DrainsAlone(u);
      n := n + 1;
    }
  }

  /** With a post to come for it and past the test of the flag, it gets there. */
  lemma WakesAlone(s: State) returns (n: nat, t: State)
    requires Inv(s) && s.sem.pending == 0 && s.sem.completed < s.sem.posts && (s.phase.Waiting? || s.phase.Blocked?)
    ensures Alone(s, n, t) && t.phase.Top? && t.stop == s.stop && t.queue == []
    ensures t.handled == t.enqueued == s.enqueued
  {
    InvStep(s, OwnEvent(s));
    n, t := DrainsAlone(Apply(s, OwnEvent(s)));
    n := n + 1;
  }

  /** With no producer or poster under way, the worker's own accesses handle everything
      queued, unless it has stopped or will stop at its next test of the flag. */
  lemma HandlesAlone(s: State) returns (n: nat, t: State)
    requires Inv(s) && s.queue != [] && s.entering == 0 && s.sem.pending == 0
    requires !s.phase.Stopped? && !(s.phase.Top? && s.stop)
    ensures Alone(s, n, t) && t.queue == [] && t.handled == t.enqueued == s.enqueued
  {
    if s.phase.Draining? {
      n, t := DrainsAlone(s);
    } else if s.phase.Top? {
      InvStep(s, Check);
      n, t := WakesAlone(Apply(s, Check));
      n := n + 1;
    } else {
      n, t := WakesAlone(s);
    }
  }

  /** The same in every run. */
  lemma QueuedRequestsAreHandled(states: seq<State>, events: seq<Event>, k: nat) returns (n: nat, t: State)
    requires IsRun(states, events) && k < |states|
    requires var s := states[k]; s.queue != [] && s.entering == 0 && s.sem.pending == 0
    requires !states[k].phase.Stopped? && !(states[k].phase.Top? && states[k].stop)
    ensures Alone(states[k], n, t) && t.queue == [] && t.handled == t.enqueued == states[k].enqueued
  {
    InvRun(states, events, k);
    n, t := HandlesAlone(states[k]);
  }

  // ---------------------------------------------------------------------------
  // Stopping

  /** The worker stops only when told to. */
  lemma {:induction false} StopsOnlyWhenTold(states: seq<State>, events: seq<Event>, k: nat)
    requires IsRun(states, events) && k < |states|
    ensures states[k].stop <==> Stop in events[..k]
    ensures states[k].phase.Stopped? ==> Stop in events[..k]
  {
    InvRun(states, events, k);
    if k > 0 {
      StopsOnlyWhenTold(states, events, k - 1);
      assert Next(states[k - 1], events[k - 1], states[k - 1 + 1]);
      assert events[..k] == events[..k - 1] + [events[k - 1]];
    }
  }

  lemma StopsAlone(s: State) returns (n: nat, t: State)
    requires Inv(s) && s.stop && s.stopping == 0 && s.sem.pending == 0 && !s.phase.Stopped?
    ensures Alone(s, n, t) && t.phase.Stopped? && t.queue == if s.phase.Top? then s.queue else []
  {
    if s.phase.Top? {
      n, t := 0, s;
    } else if s.phase.Draining? {
      n, t := DrainsAlone(s);
    } else {
      n, t := WakesAlone(s);
    }
    OneMore(s, n, t);
    n, t := n + 1, Apply(t, Check);
  }

  /** Once a stop has been announced and every post under way has arrived, the worker's own
      accesses end its loop.  Everything queued is handled, unless the worker is just about
      to test the flag: then what is queued at that point stays. */
  lemma StopIsNeverMissed(states: seq<State>, events: seq<Event>, k: nat) returns (n: nat, t: State)
    requires IsRun(states, events) && k < |states| && Stop in events[..k]
    requires states[k].stopping == 0 && states[k].sem.pending == 0 && !states[k].phase.Stopped?
    ensures Alone(states[k], n, t) && t.phase.Stopped?
    ensures t.queue == if states[k].phase.Top? then states[k].queue else []
  {
    InvRun(states, events, k);
    StopsOnlyWhenTold(states, events, k);
    n, t := StopsAlone(states[k]);
  }
}
