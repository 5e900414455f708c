/**
 What the handlers of the Objecter do to the sessions, read off the digits of an OSD id and
 off the contents of the containers.

 The id of a cache node is k * 2^20 + cluster * 2^16 + node * 16 + low.
 */
module ObjecterEffects {

  import opened Objecter

  predicate AreDigits(k: int, c: int, n: int, low: int) {
    0 <= c < 16 && 0 <= n < 4096 && 0 <= low < 16
  }

  function Id(k: int, c: int, n: int, low: int): int {
    k * 0x10_0000 + c * 0x1_0000 + n * 16 + low
  }

  lemma EveryIdHasDigits(osd: int) returns (k: int, c: int, n: int, low: int)
    ensures AreDigits(k, c, n, low) && osd == Id(k, c, n, low)
  {
    k, c, n, low := osd / 0x10_0000, osd % 0x10_0000 / 0x1_0000, osd % 0x1_0000 / 16, osd % 16;
  }

  lemma DigitsRead(k: int, c: int, n: int, low: int)
    requires AreDigits(k, c, n, low)
    ensures var osd := Id(k, c, n, low);
      ClusterOf(osd) == c && NodeOf(osd) == n && (IsGcNode(osd) <==> k != 0 && osd != -1)
  {
    var osd := Id(k, c, n, low);
    assert osd == (k * 16 + c) * 0x1_0000 + (n * 16 + low);
    assert osd / 0x1_0000 == k * 16 + c && osd % 0x1_0000 == n * 16 + low;
    assert (k * 16 + c) % 16 == c;
  }

  // ---------------------------------------------------------------------------
  // Node view changes

  /** A node view change closes exactly the sessions of cache nodes of its cluster that are no
      longer available.  Plain OSD ids (k is 0) and -1 are never touched. */
  lemma NodeViewClosesExactly(s: State, e: Event, k: int, c: int, n: int, low: int)
    requires e.NodeView? && AreDigits(k, c, n, low)
    ensures var osd := k * 0x10_0000 + c * 0x1_0000 + n * 16 + low;
      Apply(s, e).At(Session(osd)) ==
        if k != 0 && osd != -1 && c == e.cluster && n !in e.available then [] else s.At(Session(osd))
  {
    DigitsRead(k, c, n, low);
    var b := Session(Id(k, c, n, low));
    assert Apply(s, e).At(b) == After(s, e, b);
  }

  /** What a node view change carries off, in the order of the tids: everything from the
      sessions it closes, and the homeless operations whose object belongs to the cache.
      Every other container keeps what it has. */
  lemma NodeViewCarries(s: State, e: Event)
    requires Reachable(s) && Enabled(s, e) && e.NodeView?
    ensures var t := Apply(s, e); var carried := t.At(Carry(e.h));
      && NoDup(carried)
      && (forall i, j :: 0 <= i < j < |carried| ==> s.Tid(carried[i]) < s.Tid(carried[j]))
      && (forall op :: op in carried <==>
        || (op in e.named && op in s.At(Homeless))
        || exists osd :: op in s.At(Session(osd)) && op !in t.At(Session(osd)))
      && (forall op :: op in t.At(Homeless) <==> op in s.At(Homeless) && op !in e.named)
      && (forall b: Box :: !InSession(b) && b != Carry(e.h) ==> t.At(b) == s.At(b))
  {
    var where_ := WhereAll(s);
    TakenLeaves(s, where_, e);
    CollectedByTid(s, where_, Taken(s, e.cluster, e.available, e.named), e.need, e.order);
    SelectMembers(s.At(Homeless), e.named, false);
    assert Apply(s, e).At(Carry(e.h)) == e.order;
    forall b: Box | !InSession(b) && b != Carry(e.h) ensures Apply(s, e).At(b) == s.At(b) {}
  }

  /** The operations taken are the named homeless ones and those that leave a session. */
  lemma TakenLeaves(s: State, where_: map<OpId, Box>, e: Event)
    requires Placed(s, where_) && e.NodeView?
    ensures forall op :: op in Taken(s, e.cluster, e.available, e.named) <==>
      || (op in e.named && op in s.At(Homeless))
      || exists osd :: op in s.At(Session(osd)) && op !in Apply(s, e).At(Session(osd))
    ensures forall op :: op in Taken(s, e.cluster, e.available, e.named) ==> exists b :: InSession(b) && op in s.At(b)
  {
    var t, taken := Apply(s, e), Taken(s, e.cluster, e.available, e.named);
    assert forall b: Box :: s.At(b) == s.(live := where_.Keys).At(b);
    forall op | op in taken && !(op in e.named && op in s.At(Homeless))
      ensures exists osd :: op in s.At(Session(osd)) && op !in t.At(Session(osd))
    {
      var b: Box :| Gone(b, e.cluster, e.available) && op in s.At(b);
      assert op in s.At(Session(b.osd)) && op !in t.At(Session(b.osd));
    }
    forall op, osd | op in s.At(Session(osd)) && op !in t.At(Session(osd)) ensures op in taken {
      assert t.At(Session(osd)) == After(s, e, Session(osd));
      assert Gone(Session(osd), e.cluster, e.available);
    }
  }

  lemma WhereAll(s: State) returns (where_: map<OpId, Box>)
    requires Reachable(s)
    ensures Placed(s, where_)
  {
    var states, events :| IsRun(states, events) && states[|events|] == s;
    where_ := PlacedRun(states, events, |events|);
  }

  /** In a reachable state collecting by tid loses none of the operations taken from sessions. */
  lemma CollectedByTid(s: State, where_: map<OpId, Box>, taken: set<OpId>, need: map<nat, OpId>, order: seq<OpId>)
    requires Placed(s, where_) && ByTid(s, taken, need, order)
    requires forall op :: op in taken ==> exists b :: InSession(b) && op in s.At(b)
    ensures NoDup(order) && forall op :: op in order <==> op in taken
  {
    var found := s.(live := where_.Keys);
    assert forall b: Box :: s.At(b) == found.At(b);
    assert forall op :: s.Tid(op) == found.Tid(op);
    forall op | op in taken ensures op in found.live && found.Tid(op) != 0 {
      var b :| InSession(b) && op in s.At(b);
      assert op in found.At(b);
    }
    ByTidKeepsAll(found, taken, need, order);
  }

  // ---------------------------------------------------------------------------
  // Resets

  /** A reset handler empties the session, and carries its operations in the order of their
      tids unless the id is up in the OSD map. */
  lemma ResetCarries(s: State, e: Event)
    requires Reachable(s) && Enabled(s, e) && e.Reset?
    ensures var t := Apply(s, e); var carried := t.At(Carry(e.h));
      && t.At(Session(e.osd)) == []
      && NoDup(carried)
      && (forall i, j :: 0 <= i < j < |carried| ==> s.Tid(carried[i]) < s.Tid(carried[j]))
      && (forall op :: op in carried <==> !e.up && op in s.At(Session(e.osd)))
      && (forall b: Box :: b != Session(e.osd) && b != Carry(e.h) ==> t.At(b) == s.At(b))
  {
    var where_ := WhereAll(s);
    var taken := set op | op in s.At(Session(e.osd));
    forall op | op in taken ensures exists b :: InSession(b) && op in s.At(b) {
      assert InSession(Session(e.osd)) && op in s.At(Session(e.osd));
    }
    CollectedByTid(s, where_, taken, e.need, e.order);
    forall b: Box ensures Apply(s, e).At(b) == After(s, e, b) {}
  }

  lemma {:induction false} InTidOrder(s: State, taken: set<OpId>) returns (order: seq<OpId>)
    requires forall p, q :: p in taken && q in taken && s.Tid(p) == s.Tid(q) ==> p == q
    ensures forall op :: op in order <==> op in taken
    ensures forall i, j :: 0 <= i < j < |order| ==> s.Tid(order[i]) < s.Tid(order[j])
    decreases |taken|
  {
    if taken == {} {
      order := [];
    } else {
      var last := Dearest(s, taken);
      var front := InTidOrder(s, taken - {last});
      order := front + [last];
      forall i, j | 0 <= i < j < |order| ensures s.Tid(order[i]) < s.Tid(order[j]) {
        assert front[i] in front;
      }
    }
  }

  /** The map keyed by tid, and its values in key order, exist for every set of operations
      with distinct tids. */
  lemma Sorted(s: State, taken: set<OpId>) returns (need: map<nat, OpId>, order: seq<OpId>)
    requires forall p, q :: p in taken && q in taken && s.Tid(p) == s.Tid(q) ==> p == q
    ensures ByTid(s, taken, need, order)
  {
    order := InTidOrder(s, taken);
    need := map op | op in taken :: s.Tid(op) := op;
    forall op | op in taken ensures op in need.Values {
      assert need[s.Tid(op)] == op;
    }
  }

  lemma {:induction false} Dearest(s: State, taken: set<OpId>) returns (last: OpId)
    requires taken != {}
    ensures last in taken && forall op :: op in taken ==> s.Tid(op) <= s.Tid(last)
    decreases |taken|
  {
    last :| last in taken;
    if taken != {last} {
      assert taken - {last} != {};
      var other := Dearest(s, taken - {last});
      last := if s.Tid(last) < s.Tid(other) then other else last;
    }
  }

  lemma SessionTidsDiffer(s: State, where_: map<OpId, Box>, taken: set<OpId>)
    requires Placed(s, where_)
    requires forall op :: op in taken ==> exists b :: InSession(b) && op in s.At(b)
    ensures forall p, q :: p in taken && q in taken && s.Tid(p) == s.Tid(q) ==> p == q
  {
    var found := s.(live := where_.Keys);
    assert forall op :: s.Tid(op) == found.Tid(op);
    forall op | op in taken ensures op in found.live && found.Tid(op) != 0 {
      var b :| InSession(b) && op in s.At(b);
      assert op in found.At(b);
    }
  }

  /** In every reachable state a node view change with any arguments can be handled. */
  lemma HandlersAreNeverBlocked(s: State, h: nat, cluster: int, available: set<int>, named: set<OpId>)
    requires Reachable(s) && s.At(Carry(h)) == []
    ensures exists need, order :: Enabled(s, NodeView(h, cluster, available, named, need, order))
  {
    var where_ := WhereAll(s);
    var taken := Taken(s, cluster, available, named);
    forall op | op in taken ensures exists b :: InSession(b) && op in s.At(b) {
      if op in s.At(Homeless) {
        assert InSession(Homeless);
      } else {
        var b: Box :| Gone(b, cluster, available) && op in s.At(b);
        assert InSession(b);
      }
    }
    SessionTidsDiffer(s, where_, taken);
    var need, order := Sorted(s, taken);
    assert Enabled(s, NodeView(h, cluster, available, named, need, order));
  }

  /** The reset of a session is handled here exactly if its id is that of a cache node. */
  lemma ResetIsHandledIffCacheNode(s: State, h: nat, up: bool, k: int, c: int, n: int, low: int)
    requires Reachable(s) && s.At(Carry(h)) == [] && AreDigits(k, c, n, low)
    ensures var osd := k * 0x10_0000 + c * 0x1_0000 + n * 16 + low;
      (exists need, order :: Enabled(s, Reset(h, osd, up, need, order))) <==> k != 0 && osd != -1
  {
    DigitsRead(k, c, n, low);
    var osd := Id(k, c, n, low);
    if k != 0 && osd != -1 {
      var where_ := WhereAll(s);
      var taken := set op | op in s.At(Session(osd));
      forall op | op in taken ensures exists b :: InSession(b) && op in s.At(b) {
        assert InSession(Session(osd)) && op in s.At(Session(osd));
      }
      SessionTidsDiffer(s, where_, taken);
      var need, order := Sorted(s, taken);
      assert Enabled(s, Reset(h, osd, up, need, order));
    }
  }

  // ---------------------------------------------------------------------------
  // One operation at a time

  ghost predicate OnlyMoves(s: State, t: State, op: OpId, to: Box) {
    forall b: Box, x :: x in t.At(b) <==> if x == op then b == to else x in s.At(b)
  }

  /** A reply to be retried moves its operation to the handler and takes its tid away; a
      retarget moves it between sessions.  Nothing else moves. */
  lemma RepliesMoveOnlyTheirOwn(s: State, e: Event)
    requires Reachable(s) && Enabled(s, e) && (e.TakeReply? || e.Retarget?)
    ensures OnlyMoves(s, Apply(s, e), e.op, if e.TakeReply? then Carry(e.h) else e.to)
    ensures Apply(s, e).Tid(e.op) == if e.TakeReply? then 0 else s.Tid(e.op)
  {
    var where_ := WhereAll(s);
    assert forall b: Box :: s.At(b) == s.(live := where_.Keys).At(b);
    assert where_[e.op] == e.source;
    SelectMembers(s.At(e.source), {e.op}, false);
    forall b: Box ensures Apply(s, e).At(b) == After(s, e, b) {}
  }

  /** A handler's next operation moves to where it is put, behind what is there.  Put into a
      session it keeps its tid if it has one and gets the next tid otherwise; elsewhere no tid
      changes. */
  lemma PlaceMovesAndNumbers(s: State, e: Event)
    requires Reachable(s) && Enabled(s, e) && e.Place?
    ensures var t, op := Apply(s, e), s.At(e.source)[0];
      && OnlyMoves(s, t, op, e.to) && t.At(e.to) == s.At(e.to) + [op] && t.At(e.source) == s.At(e.source)[1..]
      && (forall x :: x != op ==> t.Tid(x) == s.Tid(x))
      && if (e.to.Session? || e.to.Homeless?) && s.Tid(op) == 0
         then t.Tid(op) == t.lastTid == s.lastTid + 1
         else t.Tid(op) == s.Tid(op) && t.lastTid == s.lastTid
  {
    var where_ := WhereAll(s);
    var q := s.At(e.source);
    assert forall b: Box :: s.At(b) == s.(live := where_.Keys).At(b);
    HeadAndRest(q);
    assert where_[q[0]] == e.source;
    forall b: Box ensures Apply(s, e).At(b) == After(s, e, b) {}
  }

  /** Any other reply ends its operation and nothing else. */
  lemma CompletesOnlyItsOwn(s: State, e: Event)
    requires Reachable(s) && Enabled(s, e) && e.Complete?
    ensures Apply(s, e).live == s.live - {e.op}
    ensures forall b: Box, x :: x in Apply(s, e).At(b) <==> x in s.At(b) && x != e.op
  {
    var where_ := WhereAll(s);
    assert forall b: Box :: s.At(b) == s.(live := where_.Keys).At(b);
    assert where_[e.op] == e.source;
    SelectMembers(s.At(e.source), {e.op}, false);
    forall b: Box ensures Apply(s, e).At(b) == After(s, e, b) {}
  }

  /** x stands somewhere before y. */
  ghost predicate Before(q: seq<OpId>, x: OpId, y: OpId) {
    exists i, j :: 0 <= i < j < |q| && q[i] == x && q[j] == y
  }

  lemma {:induction false} SelectKeepsOrder(q: seq<OpId>, out: set<OpId>, inside: bool, x: OpId, y: OpId)
    requires Before(Select(q, out, inside), x, y)
    ensures Before(q, x, y)
  {
    var rest := Select(q[1..], out, inside);
    var i, j :| 0 <= i < j < |Select(q, out, inside)| &&
      Select(q, out, inside)[i] == x && Select(q, out, inside)[j] == y;
    if (q[0] in out) == inside && i == 0 {
      assert rest[j - 1] == y;
      SelectMembers(q[1..], out, inside);
      assert y in rest;
      var l :| 0 <= l < |q[1..]| && q[1..][l] == y;
      assert q[0] == x && q[l + 1] == y;
    } else {
      var d := if (q[0] in out) == inside then 1 else 0;
      assert rest[i - d] == x && rest[j - d] == y;
      SelectKeepsOrder(q[1..], out, inside, x, y);
      var l, m :| 0 <= l < m < |q[1..]| && q[1..][l] == x && q[1..][m] == y;
      assert q[l + 1] == x && q[m + 1] == y;
    }
  }

  /** The hang-on operations whose PT is ready move to the handler, the others stay, and both
      keep their order. */
  lemma HangTakeSplits(s: State, e: Event)
    requires Enabled(s, e) && e.HangTake?
    ensures var t := Apply(s, e);
      && (forall op :: op in t.At(Carry(e.h)) <==> op in s.At(HangOn) && op in e.ready)
      && (forall op :: op in t.At(HangOn) <==> op in s.At(HangOn) && op !in e.ready)
      && (forall x, y :: Before(t.At(Carry(e.h)), x, y) || Before(t.At(HangOn), x, y) ==> Before(s.At(HangOn), x, y))
      && (forall b: Box :: b != HangOn && b != Carry(e.h) ==> t.At(b) == s.At(b))
  {
    var t := Apply(s, e);
    SelectMembers(s.At(HangOn), e.ready, true);
    SelectMembers(s.At(HangOn), e.ready, false);
    forall b: Box ensures t.At(b) == After(s, e, b) {}
    forall x, y | Before(t.At(Carry(e.h)), x, y) || Before(t.At(HangOn), x, y) ensures Before(s.At(HangOn), x, y) {
      SelectKeepsOrder(s.At(HangOn), e.ready, Before(t.At(Carry(e.h)), x, y), x, y);
    }
  }
}
