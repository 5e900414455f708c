/**
 Client operations between sessions, the hang-on list, the per-PT retry queues and the
 local variables of running handlers, as the Objecter moves them on replies, PT and node
 view notifications and connection resets.

 Every container is a `Box`; one event is what a handler does under one lock.  Handlers
 drop their locks between collecting operations and resubmitting them, so what they carry
 is part of the state and any number of handlers may be running at once.
 */
module Objecter {

  type OpId = nat

  datatype Box =
    | Session(osd: int)
    | Homeless                        // the homeless session
    | HangOn                          // retry_op.hangon_retry_submit_ops
    | Retry(pt: nat)                  // retry_op.op_waiting_for_retry[pt]
    | Deal(handler: nat, pt: nat)     // one inner queue of deal_op in retry_op_submit
    | Carry(handler: nat)             // need_resend, resend, op_queue, or the op being handled

  /** `parked` and `resent` are histories: the operations pushed on a PT's retry queue, and
      those of them handed back to _op_submit, each in order. */
  datatype State = State(
    boxes: Box -> seq<OpId>, live: set<OpId>, tid: map<OpId, nat>, lastTid: nat,
    parked: map<nat, seq<OpId>>, resent: map<nat, seq<OpId>>)
  {
    function At(b: Box): seq<OpId> { boxes(b) }
    function Tid(op: OpId): nat { if op in tid then tid[op] else 0 }
    function Parked(pt: nat): seq<OpId> { if pt in parked then parked[pt] else [] }
    function Resent(pt: nat): seq<OpId> { if pt in resent then resent[pt] else [] }
  }

  const INIT: State := State(_ => [], {}, map[], 0, map[], map[])

  /** check_osd_value: the id encodes a Global Cache node. */
  predicate IsGcNode(osd: int) { osd < -1 || 0x10_0000 <= osd }

  /** get_clusterId_from_osd and the node field of the id. */
  function ClusterOf(osd: int): int { (osd / 0x1_0000) % 16 }
  function NodeOf(osd: int): int { (osd % 0x1_0000) / 16 }

  predicate InSession(b: Box) { b.Session? || b.Homeless? }

  datatype Event =
    | Submit(op: OpId, h: nat)                        // a new operation enters _op_submit
    | Place(source: Box, to: Box)                     // a handler puts its next operation somewhere
    | TakeReply(source: Box, op: OpId, h: nat)        // a redirect or retryable error reply
    | Complete(source: Box, op: OpId)                 // any other reply
    | PtTake(h: nat, pt: nat)                         // retry_op_submit, first locked section
    | HangTake(h: nat, ready: set<OpId>)              // retry_op_submit, second locked section
    | Retarget(source: Box, to: Box, op: OpId)        // an OSD map moves an operation
    | NodeView(h: nat, cluster: int, available: set<int>, named: set<OpId>, need: map<nat, OpId>, order: seq<OpId>)
    | Reset(h: nat, osd: int, up: bool, need: map<nat, OpId>, order: seq<OpId>)

  // ---------------------------------------------------------------------------
  // Sequences without duplicates

  ghost predicate NoDup(q: seq<OpId>) {
    forall i, j :: 0 <= i < j < |q| ==> q[i] != q[j]
  }

  /** The elements of q inside (or outside) a set, in order. */
  function Select(q: seq<OpId>, out: set<OpId>, inside: bool): seq<OpId> {
    if q == [] then []
    else (if (q[0] in out) == inside then [q[0]] else []) + Select(q[1..], out, inside)
  }

  lemma {:induction false} SelectMembers(q: seq<OpId>, out: set<OpId>, inside: bool)
    ensures forall op :: op in Select(q, out, inside) <==> op in q && (op in out) == inside
  {
    if q != [] {
      SelectMembers(q[1..], out, inside);
      assert forall op :: op in q <==> op == q[0] || op in q[1..];
    }
  }

  lemma {:induction false} SelectNoDup(q: seq<OpId>, out: set<OpId>, inside: bool)
    requires NoDup(q)
    ensures NoDup(Select(q, out, inside))
  {
    if q != [] {
      assert forall i :: 0 <= i < |q[1..]| ==> q[1..][i] == q[i + 1];
      SelectNoDup(q[1..], out, inside);
      SelectMembers(q[1..], out, inside);
      assert q[0] !in q[1..];
    }
  }

  lemma HeadAndRest(q: seq<OpId>)
    requires NoDup(q) && q != []
    ensures NoDup(q[1..]) && q[0] in q && q[0] !in q[1..]
    ensures forall op :: op in q <==> op == q[0] || op in q[1..]
  {
    assert q == [q[0]] + q[1..];
    assert forall i :: 0 <= i < |q[1..]| ==> q[1..][i] == q[i + 1];
  }

  lemma Appended(q: seq<OpId>, op: OpId)
    requires NoDup(q) && op !in q
    ensures NoDup(q + [op])
    ensures forall x :: x in q + [op] <==> x in q || x == op
  {
  }

  // ---------------------------------------------------------------------------
  // The events

  /** Sessions a node view change closes. */
  predicate Gone(b: Box, cluster: int, available: set<int>) {
    b.Session? && IsGcNode(b.osd) && ClusterOf(b.osd) == cluster && NodeOf(b.osd) !in available
  }

  /** Operations a node view change collects: everything in a closed session, and the
      homeless operations whose object belongs to the cache. */
  ghost function Taken(s: State, cluster: int, available: set<int>, named: set<OpId>): set<OpId> {
    set op | op in s.live &&
      ((op in named && op in s.At(Homeless)) || exists b: Box :: Gone(b, cluster, available) && op in s.At(b))
  }

  /** `need` is a map keyed by tid filled from `taken` (one operation per tid survives), and
      `order` lists its values in key order. */
  ghost predicate ByTid(s: State, taken: set<OpId>, need: map<nat, OpId>, order: seq<OpId>) {
    && (forall op :: op in taken ==> s.Tid(op) in need)
    && (forall t :: t in need ==> need[t] in taken && s.Tid(need[t]) == t)
    && (forall op :: op in order <==> op in need.Values)
    && (forall i, j :: 0 <= i < j < |order| ==> s.Tid(order[i]) < s.Tid(order[j]))
  }

  ghost predicate Enabled(s: State, e: Event) {
    match e
    case Submit(op, h) => op !in s.live && s.At(Carry(h)) == []
    case Place(source, to) =>
      && (source.Carry? || source.Deal?) && s.At(source) != []
      && (InSession(to) || to.HangOn? || (to.Retry? && source.Carry?))
    case TakeReply(source, op, h) => InSession(source) && op in s.At(source) && s.At(Carry(h)) == []
    case Complete(source, op) => InSession(source) && op in s.At(source)
    case PtTake(h, pt) => s.At(Deal(h, pt)) == []
    case HangTake(h, ready) => s.At(Carry(h)) == []
    case Retarget(source, to, op) => InSession(source) && InSession(to) && source != to && op in s.At(source)
    case NodeView(h, cluster, available, named, need, order) =>
      s.At(Carry(h)) == [] && ByTid(s, Taken(s, cluster, available, named), need, order)
    case Reset(h, osd, up, need, order) =>
      && IsGcNode(osd) && s.At(Carry(h)) == []
      && ByTid(s, (set op | op in s.At(Session(osd))), need, order)
  }

  function Head(q: seq<OpId>): OpId { if q == [] then 0 else q[0] }
  function Rest(q: seq<OpId>): seq<OpId> { if q == [] then [] else q[1..] }

  /** What a box holds after the event. */
  function After(s: State, e: Event, b: Box): seq<OpId> {
    match e
    case Submit(op, h) => if b == Carry(h) then [op] else s.At(b)
    case Place(source, to) =>
      if b == to then s.At(to) + [Head(s.At(source))]
      else if b == source then Rest(s.At(source))
      else s.At(b)
    case TakeReply(source, op, h) =>
      if b == Carry(h) then [op]
      else if b == source then Select(s.At(source), {op}, false)
      else s.At(b)
    case Complete(source, op) => if b == source then Select(s.At(source), {op}, false) else s.At(b)
    case PtTake(h, pt) =>
      if b == Deal(h, pt) then s.At(Retry(pt))
      else if b == Retry(pt) then []
      else s.At(b)
    case HangTake(h, ready) =>
      if b == Carry(h) then Select(s.At(HangOn), ready, true)
      else if b == HangOn then Select(s.At(HangOn), ready, false)
      else s.At(b)
    case Retarget(source, to, op) =>
      if b == to then s.At(to) + [op]
      else if b == source then Select(s.At(source), {op}, false)
      else s.At(b)
    case NodeView(h, cluster, available, named, need, order) =>
      if b == Carry(h) then order
      else if Gone(b, cluster, available) then []
      else if b == Homeless then Select(s.At(b), named, false)
      else s.At(b)
    case Reset(h, osd, up, need, order) =>
      // with the id up in the OSD map the handler falls through without resubmitting
      if b == Carry(h) then (if up then [] else order)
      else if b == Session(osd) then []
      else s.At(b)
  }

  function Apply(s: State, e: Event): State {
    var t := s.(boxes := (b: Box) => After(s, e, b));
    match e
    case Submit(op, h) => t.(live := s.live + {op}, tid := s.tid[op := 0])
    case Place(source, to) =>
      var op := Head(s.At(source));
      var unnumbered := InSession(to) && s.Tid(op) == 0;
      t.(tid := if unnumbered then s.tid[op := s.lastTid + 1] else s.tid,
         lastTid := if unnumbered then s.lastTid + 1 else s.lastTid,
         parked := if to.Retry? then s.parked[to.pt := s.Parked(to.pt) + [op]] else s.parked,
         resent := if source.Deal? then s.resent[source.pt := s.Resent(source.pt) + [op]] else s.resent)
    case TakeReply(source, op, h) => t.(tid := s.tid[op := 0])
    case Complete(source, op) => t.(live := s.live - {op})
    case _ => t
  }

  // ---------------------------------------------------------------------------
  // Conservation

  /** `where_` says where each unfinished operation is; every box holds exactly its own. */
  ghost predicate Tracks(s: State, where_: map<OpId, Box>) {
    && where_.Keys == s.live
    && (forall b: Box :: NoDup(s.At(b)))
    && (forall b: Box, op: OpId :: op in s.At(b) <==> op in where_ && where_[op] == b)
  }

  /** Tids of unfinished operations are unique once assigned, and assigned in a session. */
  ghost predicate TidsUnique(s: State) {
    && (forall op :: op in s.live ==> s.Tid(op) <= s.lastTid)
    && (forall p, q :: p in s.live && q in s.live && s.Tid(p) == s.Tid(q) && s.Tid(p) != 0 ==> p == q)
    && (forall b: Box, op :: InSession(b) && op in s.At(b) ==> s.Tid(op) != 0)
  }

  /** Every unfinished operation is in exactly one box, at exactly one position, and no box
      holds anything else. */
  ghost predicate Conserved(s: State) {
    exists where_ :: Tracks(s, where_)
  }

  /** The only losing event: a reset that finds the cache node's id up in the OSD map. */
  predicate LosesOps(s: State, e: Event) {
    e.Reset? && e.up && s.At(Session(e.osd)) != []
  }

  lemma ByTidKeepsAll(s: State, taken: set<OpId>, need: map<nat, OpId>, order: seq<OpId>)
    requires ByTid(s, taken, need, order) && TidsUnique(s) && taken <= s.live
    requires forall op :: op in taken ==> s.Tid(op) != 0
    ensures NoDup(order)
    ensures forall op :: op in order <==> op in taken
  {
    forall op | op in taken ensures op in order {
      assert need[s.Tid(op)] == op;
      assert s.Tid(op) in need.Keys;
    }
    forall op | op in order ensures op in taken {
      var t :| t in need && need[t] == op;
    }
  }

  lemma TrackSelect(s: State, where_: map<OpId, Box>, b: Box, out: set<OpId>, inside: bool)
    requires Tracks(s, where_)
    ensures NoDup(Select(s.At(b), out, inside))
    ensures forall op :: op in Select(s.At(b), out, inside) <==>
      op in where_ && where_[op] == b && (op in out) == inside
  {
    SelectMembers(s.At(b), out, inside);
    SelectNoDup(s.At(b), out, inside);
  }

  /** One operation moves to the box `to`; nothing else does. */
  lemma TrackMoved(s: State, t: State, where_: map<OpId, Box>, op: OpId, to: Box)
    requires Tracks(s, where_) && op in where_ && t.live == s.live
    requires forall b: Box :: NoDup(t.At(b))
    requires forall b: Box, x :: x in t.At(b) <==> if x == op then b == to else x in s.At(b)
    ensures Tracks(t, where_[op := to])
  {
    assert where_[op := to].Keys == s.live;
  }

  lemma TrackPlace(s: State, where_: map<OpId, Box>, e: Event) returns (now: map<OpId, Box>)
    requires Tracks(s, where_) && Enabled(s, e) && e.Place?
    ensures Tracks(Apply(s, e), now)
  {
    var t := Apply(s, e);
    var q := s.At(e.source);
    HeadAndRest(q);
    assert where_[q[0]] == e.source;
    Appended(s.At(e.to), q[0]);
    forall b: Box
      ensures NoDup(t.At(b)) && forall x :: x in t.At(b) <==> if x == q[0] then b == e.to else x in s.At(b)
    {
      assert t.At(b) == After(s, e, b);
      assert b != e.source ==> q[0] !in s.At(b);
    }
    TrackMoved(s, t, where_, q[0], e.to);
    now := where_[q[0] := e.to];
  }

  lemma TrackSubmit(s: State, where_: map<OpId, Box>, e: Event) returns (now: map<OpId, Box>)
    requires Tracks(s, where_) && Enabled(s, e) && e.Submit?
    ensures Tracks(Apply(s, e), now)
  {
    now := where_[e.op := Carry(e.h)];
  }

  lemma TrackReply(s: State, where_: map<OpId, Box>, e: Event) returns (now: map<OpId, Box>)
    requires Tracks(s, where_) && Enabled(s, e) && e.TakeReply?
    ensures Tracks(Apply(s, e), now)
  {
    var t := Apply(s, e);
    TrackSelect(s, where_, e.source, {e.op}, false);
    forall b: Box
      ensures NoDup(t.At(b)) && forall x :: x in t.At(b) <==> if x == e.op then b == Carry(e.h) else x in s.At(b)
    {
      assert t.At(b) == After(s, e, b);
      assert b != e.source ==> e.op !in s.At(b);
    }
    TrackMoved(s, t, where_, e.op, Carry(e.h));
    now := where_[e.op := Carry(e.h)];
  }

  lemma TrackComplete(s: State, where_: map<OpId, Box>, e: Event) returns (now: map<OpId, Box>)
    requires Tracks(s, where_) && Enabled(s, e) && e.Complete?
    ensures Tracks(Apply(s, e), now)
  {
    var t := Apply(s, e);
    TrackSelect(s, where_, e.source, {e.op}, false);
    now := where_ - {e.op};
    forall b: Box ensures NoDup(t.At(b)) && forall x :: x in t.At(b) <==> x in s.At(b) && x != e.op {
      assert t.At(b) == After(s, e, b);
      assert b != e.source ==> e.op !in s.At(b);
    }
  }

  lemma TrackRetarget(s: State, where_: map<OpId, Box>, e: Event) returns (now: map<OpId, Box>)
    requires Tracks(s, where_) && Enabled(s, e) && e.Retarget?
    ensures Tracks(Apply(s, e), now)
  {
    var t := Apply(s, e);
    TrackSelect(s, where_, e.source, {e.op}, false);
    Appended(s.At(e.to), e.op);
    forall b: Box
      ensures NoDup(t.At(b)) && forall x :: x in t.At(b) <==> if x == e.op then b == e.to else x in s.At(b)
    {
      assert t.At(b) == After(s, e, b);
      assert b != e.source ==> e.op !in s.At(b);
    }
    TrackMoved(s, t, where_, e.op, e.to);
    now := where_[e.op := e.to];
  }

  lemma TrackPtTake(s: State, where_: map<OpId, Box>, e: Event) returns (now: map<OpId, Box>)
    requires Tracks(s, where_) && Enabled(s, e) && e.PtTake?
    ensures Tracks(Apply(s, e), now)
  {
    now := map op | op in where_ :: if where_[op] == Retry(e.pt) then Deal(e.h, e.pt) else where_[op];
  }

  ghost predicate KeepsRest(before: seq<OpId>, after: seq<OpId>, taken: set<OpId>) {
    NoDup(after) && forall op :: op in after <==> op in before && op !in taken
  }

  /** A handler collects the operations of `taken`; the other boxes keep the rest. */
  lemma TrackCollect(s: State, t: State, where_: map<OpId, Box>, h: nat, taken: set<OpId>) returns (now: map<OpId, Box>)
    requires Tracks(s, where_) && t.live == s.live && taken <= s.live && s.At(Carry(h)) == []
    requires NoDup(t.At(Carry(h))) && forall op :: op in t.At(Carry(h)) <==> op in taken
    requires forall b: Box :: b != Carry(h) ==> KeepsRest(s.At(b), t.At(b), taken)
    ensures Tracks(t, now)
  {
    now := map op | op in where_ :: if op in taken then Carry(h) else where_[op];
  }

  lemma TrackHangTake(s: State, where_: map<OpId, Box>, e: Event) returns (now: map<OpId, Box>)
    requires Tracks(s, where_) && Enabled(s, e) && e.HangTake?
    ensures Tracks(Apply(s, e), now)
  {
    var t := Apply(s, e);
    TrackSelect(s, where_, HangOn, e.ready, true);
    TrackSelect(s, where_, HangOn, e.ready, false);
    var taken := set op | op in s.At(HangOn) && op in e.ready;
    assert t.At(Carry(e.h)) == Select(s.At(HangOn), e.ready, true);
    forall b: Box | b != Carry(e.h) ensures KeepsRest(s.At(b), t.At(b), taken) {
      assert t.At(b) == if b == HangOn then Select(s.At(HangOn), e.ready, false) else s.At(b);
      assert b != HangOn ==> forall op :: op in s.At(b) ==> op !in taken;
    }
    now := TrackCollect(s, t, where_, e.h, taken);
  }

  lemma TakenWhere(s: State, where_: map<OpId, Box>, e: Event)
    requires Tracks(s, where_) && TidsUnique(s) && e.NodeView?
    ensures var taken := Taken(s, e.cluster, e.available, e.named);
      forall op :: op in where_ ==>
        (op in taken <==> Gone(where_[op], e.cluster, e.available) || (where_[op] == Homeless && op in e.named))
    ensures forall op :: op in Taken(s, e.cluster, e.available, e.named) ==> s.Tid(op) != 0
  {
    forall op | op in where_ ensures op in s.At(where_[op]) {}
  }

  lemma TrackNodeView(s: State, where_: map<OpId, Box>, e: Event) returns (now: map<OpId, Box>)
    requires Tracks(s, where_) && TidsUnique(s) && Enabled(s, e) && e.NodeView?
    ensures Tracks(Apply(s, e), now)
  {
    var t := Apply(s, e);
    var taken := Taken(s, e.cluster, e.available, e.named);
    TakenWhere(s, where_, e);
    ByTidKeepsAll(s, taken, e.need, e.order);
    TrackSelect(s, where_, Homeless, e.named, false);
    forall b: Box | b != Carry(e.h) ensures KeepsRest(s.At(b), t.At(b), taken) {
      assert t.At(b) == After(s, e, b);
    }
    now := TrackCollect(s, t, where_, e.h, taken);
  }

  lemma TrackReset(s: State, where_: map<OpId, Box>, e: Event) returns (now: map<OpId, Box>)
    requires Tracks(s, where_) && TidsUnique(s) && Enabled(s, e) && e.Reset? && !LosesOps(s, e)
    ensures Tracks(Apply(s, e), now)
  {
    var t := Apply(s, e);
    var taken := set op | op in s.At(Session(e.osd));
    ByTidKeepsAll(s, taken, e.need, e.order);
    forall b: Box | b != Carry(e.h) ensures KeepsRest(s.At(b), t.At(b), taken) {
      assert t.At(b) == if b == Session(e.osd) then [] else s.At(b);
      assert b != Session(e.osd) ==> forall op :: op in s.At(b) ==> op !in taken;
    }
    now := TrackCollect(s, t, where_, e.h, taken);
  }

  lemma TidsPlace(s: State, where_: map<OpId, Box>, e: Event)
    requires Tracks(s, where_) && TidsUnique(s) && Enabled(s, e) && e.Place?
    ensures TidsUnique(Apply(s, e))
  {
    var t := Apply(s, e);
    var op := s.At(e.source)[0];
    assert op in s.At(e.source) && op in s.live;
    forall b: Box, x | InSession(b) && x in t.At(b) ensures t.Tid(x) != 0 {
      assert t.At(b) == if b == e.to then s.At(b) + [op] else s.At(b);
      assert b == e.to && x != op ==> x in s.At(b);
      assert x != op ==> t.Tid(x) == s.Tid(x);
    }
  }

  /** Sessions never gain an operation in any other event but a retarget between sessions. */
  lemma SessionsShrink(s: State, where_: map<OpId, Box>, e: Event, b: Box, x: OpId)
    requires Tracks(s, where_) && TidsUnique(s) && Enabled(s, e) && !e.Place? && InSession(b) && x in Apply(s, e).At(b)
    ensures x in s.live && s.Tid(x) != 0 && (e.TakeReply? ==> x != e.op)
  {
    assert Apply(s, e).At(b) == After(s, e, b);
    if e.NodeView? { TrackSelect(s, where_, b, e.named, false); }
    if e.TakeReply? || e.Complete? || e.Retarget? { TrackSelect(s, where_, b, {e.op}, false); }
    if e.Retarget? { assert e.op in s.At(e.source); }
  }

  lemma TidsStep(s: State, where_: map<OpId, Box>, e: Event)
    requires Tracks(s, where_) && TidsUnique(s) && Enabled(s, e)
    ensures TidsUnique(Apply(s, e))
  {
    if e.Place? {
      TidsPlace(s, where_, e);
    } else {
      var t := Apply(s, e);
      forall b: Box, x | InSession(b) && x in t.At(b) ensures t.Tid(x) != 0 {
        SessionsShrink(s, where_, e, b, x);
      }
    }
  }

  /** One event keeps conservation exactly when it is not a losing reset. */
  lemma ConservedStep(s: State, e: Event)
    requires Conserved(s) && TidsUnique(s) && Enabled(s, e)
    ensures Conserved(Apply(s, e)) <==> !LosesOps(s, e)
    ensures TidsUnique(Apply(s, e))
  {
    var where_ :| Tracks(s, where_);
    TidsStep(s, where_, e);
    if LosesOps(s, e) {
      LosingResetLoses(s, where_, e);
    } else {
      var now: map<OpId, Box>;
      match e {
        case Submit(_, _) => now := TrackSubmit(s, where_, e);
        case Place(_, _) => now := TrackPlace(s, where_, e);
        case TakeReply(_, _, _) => now := TrackReply(s, where_, e);
        case Complete(_, _) => now := TrackComplete(s, where_, e);
        case PtTake(_, _) => now := TrackPtTake(s, where_, e);
        case HangTake(_, _) => now := TrackHangTake(s, where_, e);
        case Retarget(_, _, _) => now := TrackRetarget(s, where_, e);
        case NodeView(_, _, _, _, _, _) => now := TrackNodeView(s, where_, e);
        case Reset(_, _, _, _, _) => now := TrackReset(s, where_, e);
      }
      assert Tracks(Apply(s, e), now);
    }
  }

  lemma LosingResetLoses(s: State, where_: map<OpId, Box>, e: Event)
    requires Tracks(s, where_) && Enabled(s, e) && LosesOps(s, e)
    ensures !Conserved(Apply(s, e))
  {
    var t := Apply(s, e);
    var op := s.At(Session(e.osd))[0];
    assert op in s.At(Session(e.osd)) && op in s.live;
    forall b ensures op !in t.At(b) {
      assert op in s.At(b) ==> b == Session(e.osd);
    }
    forall now ensures !Tracks(t, now) {
      assert op in now ==> op !in t.At(now[op]);
    }
  }

  // ---------------------------------------------------------------------------
  // Runs

  ghost predicate IsRun(states: seq<State>, events: seq<Event>) {
    && |states| == |events| + 1 && states[0] == INIT
    && forall k :: 0 <= k < |events| ==> Enabled(states[k], events[k]) && states[k + 1] == Apply(states[k], events[k])
  }

  /** Main result.  In every run whose resets find no cache node id up in the OSD map, every
      unfinished operation is always in exactly one place. */
  lemma {:induction false} OperationsAreConserved(states: seq<State>, events: seq<Event>, k: nat)
    requires IsRun(states, events) && k < |states|
    requires forall j :: 0 <= j < |events| ==> !LosesOps(states[j], events[j])
    ensures Conserved(states[k]) && TidsUnique(states[k])
  {
    if k == 0 {
      assert Tracks(INIT, map[]);
    } else {
      OperationsAreConserved(states, events, k - 1);
      ConservedStep(states[k - 1], events[k - 1]);
      assert states[k - 1 + 1] == Apply(states[k - 1], events[k - 1]);
    }
  }

  // ---------------------------------------------------------------------------
  // Retry order

  /** Notifications for pt are handled in turn: a queue with operations in it is only taken
      when no handler still carries operations of pt. */
  ghost predicate TakesInTurn(s: State, e: Event, pt: nat) {
    e.PtTake? && e.pt == pt && s.At(Retry(pt)) != [] ==> forall g: nat :: s.At(Deal(g, pt)) == []
  }

  /** Operations pushed for pt = those resubmitted, then those one handler carries, then
      those still queued. */
  ghost predicate InOrder(s: State, pt: nat, g: nat) {
    && (forall h: nat :: h != g ==> s.At(Deal(h, pt)) == [])
    && s.Parked(pt) == s.Resent(pt) + s.At(Deal(g, pt)) + s.At(Retry(pt))
  }

  /** Events that leave the queues and the histories of a PT alone. */
  lemma PtUntouched(s: State, e: Event, pt: nat)
    requires Enabled(s, e) && !e.Place? && !(e.PtTake? && e.pt == pt)
    ensures Apply(s, e).At(Retry(pt)) == s.At(Retry(pt))
    ensures forall h: nat :: Apply(s, e).At(Deal(h, pt)) == s.At(Deal(h, pt))
    ensures Apply(s, e).Parked(pt) == s.Parked(pt) && Apply(s, e).Resent(pt) == s.Resent(pt)
  {
  }

  /** A handler resubmits the next operation of pt. */
  lemma PtResubmit(s: State, e: Event, pt: nat, g: nat)
    requires Enabled(s, e) && e.Place? && e.source == Deal(g, pt) && InOrder(s, pt, g)
    ensures InOrder(Apply(s, e), pt, g)
  {
    var t := Apply(s, e);
    var carried := s.At(Deal(g, pt));
    assert carried == [carried[0]] + carried[1..];
    assert t.At(Deal(g, pt)) == carried[1..] && t.At(Retry(pt)) == s.At(Retry(pt));
    assert t.Resent(pt) == s.Resent(pt) + [carried[0]] && t.Parked(pt) == s.Parked(pt);
    assert forall h: nat :: h != g ==> t.At(Deal(h, pt)) == s.At(Deal(h, pt));
  }

  /** Any other placement: at most one operation joins the end of pt's queue. */
  lemma PtPark(s: State, e: Event, pt: nat, g: nat)
    requires Enabled(s, e) && e.Place? && e.source != Deal(g, pt) && InOrder(s, pt, g)
    ensures InOrder(Apply(s, e), pt, g)
  {
    var t := Apply(s, e);
    assert forall h: nat :: t.At(Deal(h, pt)) == s.At(Deal(h, pt));
    assert t.Resent(pt) == s.Resent(pt);
    if e.to == Retry(pt) {
      var op := Head(s.At(e.source));
      assert t.At(Retry(pt)) == s.At(Retry(pt)) + [op] && t.Parked(pt) == s.Parked(pt) + [op];
    } else {
      assert t.At(Retry(pt)) == s.At(Retry(pt)) && t.Parked(pt) == s.Parked(pt);
    }
  }

  /** A notification takes pt's queue in turn; an empty queue changes nothing. */
  lemma PtTakeInTurn(s: State, e: Event, pt: nat, g: nat) returns (g': nat)
    requires Enabled(s, e) && e.PtTake? && e.pt == pt && TakesInTurn(s, e, pt) && InOrder(s, pt, g)
    ensures InOrder(Apply(s, e), pt, g')
  {
    var t := Apply(s, e);
    if s.At(Retry(pt)) == [] {
      g' := g;
      assert forall h: nat :: t.At(Deal(h, pt)) == s.At(Deal(h, pt));
    } else {
      g' := e.h;
      assert s.Parked(pt) == s.Resent(pt) + s.At(Retry(pt));
    }
  }

  lemma InOrderStep(s: State, e: Event, pt: nat, g: nat) returns (g': nat)
    requires Enabled(s, e) && TakesInTurn(s, e, pt) && InOrder(s, pt, g)
    ensures InOrder(Apply(s, e), pt, g')
  {
    g' := g;
    if e.Place? && e.source == Deal(g, pt) {
      PtResubmit(s, e, pt, g);
    } else if e.Place? {
      PtPark(s, e, pt, g);
    } else if e.PtTake? && e.pt == pt {
      g' := PtTakeInTurn(s, e, pt, g);
    } else {
      PtUntouched(s, e, pt);
    }
  }

  /** What has been resubmitted for pt is the beginning of what was parked on it. */
  ghost predicate KeepsOrder(s: State, pt: nat) { s.Resent(pt) <= s.Parked(pt) }

  /** Main result.  Operations waiting on one PT are resubmitted in the order in which their
      error replies arrived, as long as its notifications are handled in turn. */
  lemma {:induction false} RetriesKeepArrivalOrder(states: seq<State>, events: seq<Event>, k: nat, pt: nat)
      returns (g: nat)
    requires IsRun(states, events) && k < |states|
    requires forall j :: 0 <= j < k ==> TakesInTurn(states[j], events[j], pt)
    ensures InOrder(states[k], pt, g) && KeepsOrder(states[k], pt)
  {
    if k == 0 {
      g := 0;
    } else {
      g := RetriesKeepArrivalOrder(states, events, k - 1, pt);
      g := InOrderStep(states[k - 1], events[k - 1], pt, g);
      assert states[k - 1 + 1] == Apply(states[k - 1], events[k - 1]);
    }
  }

  // ---------------------------------------------------------------------------
  // Exactly when the order is kept

  /** The run goes on from s to t, from here on with notifications for pt in turn. */
  ghost predicate Continues(s: State, events: seq<Event>, t: State, pt: nat)
    decreases |events|
  {
    if events == [] then t == s
    else
      && Enabled(s, events[0]) && TakesInTurn(s, events[0], pt)
      && Continues(Apply(s, events[0]), events[1..], t, pt)
  }

  /** Some way of going on resubmits operations of pt out of order. */
  ghost predicate CanReorder(s: State, pt: nat) {
    exists events, t :: Continues(s, events, t, pt) && !KeepsOrder(t, pt)
  }

  lemma {:induction false} InOrderContinues(s: State, events: seq<Event>, t: State, pt: nat, g: nat)
    requires InOrder(s, pt, g) && Continues(s, events, t, pt)
    ensures KeepsOrder(t, pt)
    decreases |events|
  {
    if events != [] {
      var g' := InOrderStep(s, events[0], pt, g);
      InOrderContinues(Apply(s, events[0]), events[1..], t, pt, g');
    }
  }

  /** A take out of turn: the later handler may resubmit its first operation at once,
      overtaking what the earlier handler still carries. */
  lemma TakeOutOfTurnReorders(s: State, where_: map<OpId, Box>, e: Event, pt: nat, g: nat)
    requires Placed(s, where_) && InOrder(s, pt, g) && Enabled(s, e) && !TakesInTurn(s, e, pt)
    ensures CanReorder(Apply(s, e), pt)
  {
    var carried, queued := s.At(Deal(g, pt)), s.At(Retry(pt));
    assert forall b: Box :: s.At(b) == s.(live := where_.Keys).At(b);
    assert carried != [] && queued != [] && e.h != g;
    assert carried[0] in carried && queued[0] in queued;
    var t := Apply(s, e);
    var next := Place(Deal(e.h, pt), HangOn);
    assert t.At(Deal(e.h, pt)) == queued;
    assert Enabled(t, next);
    var u := Apply(t, next);
    assert u.Resent(pt) == s.Resent(pt) + [queued[0]] && u.Parked(pt) == s.Parked(pt);
    var n := |s.Resent(pt)|;
    assert u.Resent(pt)[n] == queued[0] && u.Parked(pt)[n] == carried[0];
    assert where_[queued[0]] == Retry(pt) && where_[carried[0]] == Deal(g, pt);
    assert !KeepsOrder(u, pt);
    assert Continues(u, [], u, pt);
    assert [next][1..] == [];
    assert Continues(t, [next], u, pt);
  }

  /** No operation is in two places, lost ones left aside: what even a losing reset keeps. */
  ghost predicate Placed(s: State, where_: map<OpId, Box>) {
    where_.Keys <= s.live && var found := s.(live := where_.Keys); Tracks(found, where_) && TidsUnique(found)
  }

  lemma FoundTaken(s: State, where_: map<OpId, Box>, cluster: int, available: set<int>, named: set<OpId>)
    requires Placed(s, where_)
    ensures Taken(s.(live := where_.Keys), cluster, available, named) == Taken(s, cluster, available, named)
  {
    var found := s.(live := where_.Keys);
    assert forall b: Box :: found.At(b) == s.At(b);
  }

  lemma FoundByTid(s: State, found: State, taken: set<OpId>, need: map<nat, OpId>, order: seq<OpId>)
    requires ByTid(s, taken, need, order) && found.tid == s.tid
    ensures ByTid(found, taken, need, order)
  {
    assert forall op :: found.Tid(op) == s.Tid(op);
  }

  /** Two states that differ in lost operations only take the same steps. */
  lemma FoundEnabled(s: State, where_: map<OpId, Box>, e: Event)
    requires Placed(s, where_) && Enabled(s, e)
    ensures Enabled(s.(live := where_.Keys), e)
  {
    var found := s.(live := where_.Keys);
    match e
    case NodeView(_, cluster, available, named, need, order) =>
      FoundTaken(s, where_, cluster, available, named);
      FoundByTid(s, found, Taken(s, cluster, available, named), need, order);
    case Reset(_, osd, _, need, order) =>
      FoundByTid(s, found, (set op | op in s.At(Session(osd))), need, order);
    case _ =>
  }

  lemma FoundSame(s: State, found: State, e: Event)
    requires Enabled(s, e) && found == s.(live := found.live) && found.live <= s.live
    ensures forall b: Box :: Apply(found, e).At(b) == Apply(s, e).At(b)
    ensures Apply(found, e).tid == Apply(s, e).tid && Apply(found, e).lastTid == Apply(s, e).lastTid
    ensures Apply(found, e).live <= Apply(s, e).live
  {
    forall b: Box ensures Apply(found, e).At(b) == Apply(s, e).At(b) {
      assert Apply(found, e).At(b) == After(found, e, b) == After(s, e, b);
    }
  }

  lemma PlacedAs(s: State, t: State, now: map<OpId, Box>)
    requires Tracks(s, now) && TidsUnique(s) && s.live <= t.live && s.lastTid == t.lastTid
    requires (forall b: Box :: s.At(b) == t.At(b)) && s.tid == t.tid
    ensures Placed(t, now)
  {
    var found := t.(live := now.Keys);
    assert forall b: Box :: found.At(b) == s.At(b);
    assert forall op :: found.Tid(op) == s.Tid(op);
  }

  lemma PlacedStep(s: State, where_: map<OpId, Box>, e: Event) returns (now: map<OpId, Box>)
    requires Placed(s, where_) && Enabled(s, e)
    ensures Placed(Apply(s, e), now)
  {
    var found := s.(live := where_.Keys);
    FoundEnabled(s, where_, e);
    FoundSame(s, found, e);
    if LosesOps(found, e) {
      now := PlacedAfterLoss(s, where_, e);
    } else {
      ConservedStep(found, e);
      now :| Tracks(Apply(found, e), now);
      PlacedAs(Apply(found, e), Apply(s, e), now);
    }
  }

  lemma PlacedAfterLoss(s: State, where_: map<OpId, Box>, e: Event) returns (now: map<OpId, Box>)
    requires Placed(s, where_) && Enabled(s, e) && LosesOps(s, e)
    ensures Placed(Apply(s, e), now)
  {
    now := map op | op in where_ && where_[op] != Session(e.osd) :: where_[op];
    var before, after := s.(live := where_.Keys), Apply(s, e).(live := now.Keys);
    forall b: Box ensures after.At(b) == if b == Session(e.osd) then [] else before.At(b) {
      assert after.At(b) == After(s, e, b);
      assert before.At(b) == s.At(b);
    }
    assert forall op :: after.Tid(op) == before.Tid(op);
    assert Tracks(after, now);
  }

  lemma {:induction false} PlacedRun(states: seq<State>, events: seq<Event>, k: nat) returns (now: map<OpId, Box>)
    requires IsRun(states, events) && k < |states|
    ensures Placed(states[k], now)
  {
    if k == 0 {
      now := map[];
    } else {
      now := PlacedRun(states, events, k - 1);
      now := PlacedStep(states[k - 1], now, events[k - 1]);
      assert states[k - 1 + 1] == Apply(states[k - 1], events[k - 1]);
    }
  }

  /** One event: order can be lost afterwards exactly when the event was a take out of turn. */
  lemma EventLosesOrderIffOutOfTurn(s: State, where_: map<OpId, Box>, e: Event, pt: nat, g: nat)
    requires Placed(s, where_) && InOrder(s, pt, g) && Enabled(s, e)
    ensures CanReorder(Apply(s, e), pt) <==> !TakesInTurn(s, e, pt)
  {
    if TakesInTurn(s, e, pt) {
      var g' := InOrderStep(s, e, pt, g);
      forall events, t | Continues(Apply(s, e), events, t, pt) ensures KeepsOrder(t, pt) {
        InOrderContinues(Apply(s, e), events, t, pt, g');
      }
    } else {
      TakeOutOfTurnReorders(s, where_, e, pt, g);
    }
  }

  /** Main result.  A run is safe against reordering on pt, at every point and however it goes
      on, if and only if all its takes for pt were in turn. */
  lemma OrderIsSafeIffTakesInTurn(states: seq<State>, events: seq<Event>, pt: nat)
    requires IsRun(states, events)
    ensures (forall k :: 0 <= k < |states| ==> !CanReorder(states[k], pt)) <==>
      (forall j :: 0 <= j < |events| ==> TakesInTurn(states[j], events[j], pt))
  {
    if forall j :: 0 <= j < |events| ==> TakesInTurn(states[j], events[j], pt) {
      forall k | 0 <= k < |states| ensures !CanReorder(states[k], pt) {
        var g := RetriesKeepArrivalOrder(states, events, k, pt);
        forall more, t | Continues(states[k], more, t, pt) ensures KeepsOrder(t, pt) {
          InOrderContinues(states[k], more, t, pt, g);
        }
      }
    } else {
      var j := FirstOutOfTurn(states, events, pt);
      var g := RetriesKeepArrivalOrder(states, events, j, pt);
      var where_ := PlacedRun(states, events, j);
      EventLosesOrderIffOutOfTurn(states[j], where_, events[j], pt, g);
      assert CanReorder(states[j + 1], pt);
    }
  }

  lemma FirstOutOfTurn(states: seq<State>, events: seq<Event>, pt: nat) returns (j: nat)
    requires |states| == |events| + 1
    requires exists i :: 0 <= i < |events| && !TakesInTurn(states[i], events[i], pt)
    ensures j < |events| && !TakesInTurn(states[j], events[j], pt)
    ensures forall i :: 0 <= i < j ==> TakesInTurn(states[i], events[i], pt)
  {
    j := 0;
    while TakesInTurn(states[j], events[j], pt)
      invariant j < |events|
      invariant exists i :: j <= i < |events| && !TakesInTurn(states[i], events[i], pt)
      invariant forall i :: 0 <= i < j ==> TakesInTurn(states[i], events[i], pt)
      decreases |events| - j
    {
      j := j + 1;
    }
  }

  ghost predicate Reachable(s: State) {
    exists states, events :: IsRun(states, events) && states[|events|] == s
  }

  lemma Extend(s: State, e: Event)
    requires Reachable(s) && Enabled(s, e)
    ensures Reachable(Apply(s, e))
  {
    var states, events :| IsRun(states, events) && states[|events|] == s;
    assert IsRun(states + [Apply(s, e)], events + [e]);
    assert (states + [Apply(s, e)])[|events + [e]|] == Apply(s, e);
  }

  lemma DoPlace(s: State, source: Box, to: Box) returns (t: State)
    requires Reachable(s) && Enabled(s, Place(source, to)) && source != to
    ensures Reachable(t) && t.live == s.live
    ensures t.At(source) == s.At(source)[1..] && t.At(to) == s.At(to) + [s.At(source)[0]]
    ensures forall b: Box :: b != source && b != to ==> t.At(b) == s.At(b)
    ensures t.Parked(7) == if to == Retry(7) then s.Parked(7) + [s.At(source)[0]] else s.Parked(7)
    ensures t.Resent(7) == if source.Deal? && source.pt == 7 then s.Resent(7) + [s.At(source)[0]] else s.Resent(7)
  {
    Extend(s, Place(source, to));
    t := Apply(s, Place(source, to));
  }

  lemma DoPtTake(s: State, h: nat) returns (t: State)
    requires Reachable(s) && s.At(Deal(h, 7)) == []
    ensures Reachable(t) && t.live == s.live && t.Parked(7) == s.Parked(7) && t.Resent(7) == s.Resent(7)
    ensures t.At(Deal(h, 7)) == s.At(Retry(7)) && t.At(Retry(7)) == []
    ensures forall b: Box :: b != Deal(h, 7) && b != Retry(7) ==> t.At(b) == s.At(b)
  {
    Extend(s, PtTake(h, 7));
    t := Apply(s, PtTake(h, 7));
  }

  /** A new operation enters a session and its error reply is taken. */
  lemma DoFail(s: State, op: OpId) returns (t: State)
    requires Reachable(s) && op !in s.live && s.At(Carry(0)) == [] && s.At(Homeless) == []
    ensures Reachable(t) && t.live == s.live + {op} && t.Parked(7) == s.Parked(7) && t.Resent(7) == s.Resent(7)
    ensures t.At(Carry(0)) == [op] && t.At(Homeless) == []
    ensures forall b: Box :: b != Carry(0) && b != Homeless ==> t.At(b) == s.At(b)
  {
    Extend(s, Submit(op, 0));
    t := DoPlace(Apply(s, Submit(op, 0)), Carry(0), Homeless);
    assert t.At(Homeless) == [op] && t.At(Carry(0)) == [];
    Extend(t, TakeReply(Homeless, op, 0));
    assert Select([op], {op}, false) == [];
    t := Apply(t, TakeReply(Homeless, op, 0));
  }

  /** Operation `op` fails, is parked on PT 7, and a notification picks the queue up. */
  lemma FailAndTake(s: State, op: OpId, h: nat, other: nat) returns (t: State)
    requires Reachable(s) && op !in s.live && s.At(Carry(0)) == [] && s.At(Homeless) == []
    requires s.At(Retry(7)) == [] && s.At(Deal(h, 7)) == [] && h != other
    ensures Reachable(t) && t.live == s.live + {op}
    ensures t.At(Carry(0)) == [] && t.At(Homeless) == [] && t.At(Retry(7)) == []
    ensures t.At(Deal(h, 7)) == [op] && t.At(Deal(other, 7)) == s.At(Deal(other, 7))
    ensures t.Parked(7) == s.Parked(7) + [op] && t.Resent(7) == s.Resent(7)
  {
    var s1 := DoFail(s, op);
    var s2 := DoPlace(s1, Carry(0), Retry(7));
    t := DoPtTake(s2, h);
  }

  lemma TwoTaken() returns (s: State)
    ensures Reachable(s) && s.Parked(7) == [1, 2] && s.Resent(7) == []
    ensures s.At(Deal(1, 7)) == [1] && s.At(Deal(2, 7)) == [2]
  {
    InitReachable();
    assert INIT.At(Deal(1, 7)) == [] && INIT.At(Deal(2, 7)) == [];
    s := FailAndTake(INIT, 1, 1, 2);
    s := FailAndTake(s, 2, 2, 1);
  }

  /** An instance: two notifications for PT 7 overlap, and the later one overtakes the earlier. */
  lemma OverlappingNotificationsReorder() returns (s: State)
    ensures Reachable(s) && s.Parked(7) == [1, 2] && s.Resent(7) == [2, 1]
  {
    s := TwoTaken();
    s := DoPlace(s, Deal(2, 7), HangOn);
    s := DoPlace(s, Deal(1, 7), HangOn);
  }

  lemma InitReachable()
    ensures Reachable(INIT)
  {
    var none: seq<Event> := [];
    assert IsRun([INIT], none) && [INIT][|none|] == INIT;
  }
}
