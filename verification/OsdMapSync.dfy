/**
 ProxyMsgr::handle_osd_map: keeping a copy of the OSD map from full and incremental maps,
 across gaps and skipped history, and choosing between a continuous and a one-time
 subscription.
 */
module OsdMapSync {

  /** An OSD map: epoch, the two pause flags, and everything else. Epoch 0 is the empty map. */
  datatype OSDMap = OSDMap(epoch: nat, pauseRd: bool, pauseWr: bool, body: map<int, int>)

  datatype Incremental = Incremental(epoch: nat, pauseRd: bool, pauseWr: bool, updated: map<int, int>,
    removed: set<int>)

  const EMPTY: OSDMap := OSDMap(0, false, false, map[])

  /** apply_incremental: defined on the epoch just before the incremental's own. */
  function ApplyIncremental(m: OSDMap, inc: Incremental): OSDMap
    requires inc.epoch == m.epoch + 1
  {
    OSDMap(inc.epoch, inc.pauseRd, inc.pauseWr, (m.body + inc.updated) - inc.removed)
  }

  /** The flags are the incremental's; an entry it removes is gone, one it updates has the new
      value, any other is as before. */
  lemma IncrementalReads(m: OSDMap, inc: Incremental, k: int)
    requires inc.epoch == m.epoch + 1
    ensures var n := ApplyIncremental(m, inc);
      && n.epoch == inc.epoch && n.pauseRd == inc.pauseRd && n.pauseWr == inc.pauseWr
      && (k in n.body <==> k !in inc.removed && (k in inc.updated || k in m.body))
      && (k in n.body ==> n.body[k] == if k in inc.updated then inc.updated[k] else m.body[k])
  {
  }

  /** MOSDMap.  `oldest` is the oldest epoch the monitor still has. */
  datatype Message = Message(fsid: int, incs: map<nat, Incremental>, maps: map<nat, OSDMap>, oldest: nat, last: nat) {
    predicate Has(e: nat) { e in incs || e in maps }
  }

  /** One sub_want("osdmap", start, flag) followed by renew_subs. */
  datatype Request = Request(start: nat, oneTime: bool)

  datatype Client = Client(osdmap: OSDMap, continuous: bool, latest: Request)

  /** As set up by Start: an empty map and a continuous subscription from the beginning. */
  const START: Client := Client(EMPTY, true, Request(0, false))

  // ---------------------------------------------------------------------------
  // What one message does

  function NextEpoch(m: OSDMap): nat { if m.epoch != 0 then m.epoch + 1 else 0 }

  /** RenewOSDMap: one-time unless continuous is wanted or the cluster is paused. */
  function Renew(c: Client, start: nat): Client {
    c.(latest := Request(start, !(c.continuous || c.osdmap.pauseRd || c.osdmap.pauseWr)))
  }

  function Resume(c: Client): Client {
    if c.continuous then c else Renew(c.(continuous := true), NextEpoch(c.osdmap))
  }

  function AskAgain(c: Client, start: nat): Client {
    Renew(c.(continuous := false), start)
  }

  /** The messages the monitor sends: everything keyed by the epoch it belongs to. */
  predicate WellKeyed(m: Message) {
    && (forall e :: e in m.incs ==> m.incs[e].epoch == e)
    && (forall e :: e in m.maps ==> m.maps[e].epoch == e)
  }

  /** The loop of UpdateOSDMap from epoch e on. */
  function UpdateFrom(c: Client, m: Message, e: nat): Client
    requires WellKeyed(m)
    decreases m.last + m.oldest + 1 - e
  {
    if e > m.last then Resume(c)
    else if e == c.osdmap.epoch + 1 && e in m.incs then
      UpdateFrom(c.(osdmap := ApplyIncremental(c.osdmap, m.incs[e])), m, e + 1)
    else if e in m.maps then UpdateFrom(c.(osdmap := m.maps[e]), m, e + 1)
    else if e >= m.oldest then AskAgain(c, NextEpoch(c.osdmap))
    else UpdateFrom(c, m, m.oldest)
  }

  function Handle(c: Client, fsid: int, m: Message): Client
    requires WellKeyed(m)
  {
    if m.fsid != fsid then c
    else if m.last <= c.osdmap.epoch then Resume(c)
    else if c.osdmap.epoch == 0 then
      (if m.last in m.maps then Resume(c.(osdmap := m.maps[m.last])) else AskAgain(c, 0))
    else UpdateFrom(c, m, c.osdmap.epoch + 1)
  }

  function HandleAll(c: Client, fsid: int, ms: seq<Message>): Client
    requires forall k :: 0 <= k < |ms| ==> WellKeyed(ms[k])
  {
    if ms == [] then c else Handle(HandleAll(c, fsid, ms[..|ms| - 1]), fsid, ms[|ms| - 1])
  }

  // ---------------------------------------------------------------------------
  // The imperative form

  class ProxyMsgr {
    var osdmap: OSDMap
    var needSubContinuous: bool
    var latest: Request
    const fsid: int

    ghost function Model(): Client
      reads this
    {
      Client(osdmap, needSubContinuous, latest)
    }

    constructor (fsid: int)
      ensures Model() == START && this.fsid == fsid
    {
      osdmap, needSubContinuous, latest := EMPTY, true, Request(0, false);
      this.fsid := fsid;
    }

    method RenewOSDMap(e: nat)
      modifies this
      ensures Model() == Renew(old(Model()), e)
    {
      var oneTime := !(needSubContinuous || osdmap.pauseRd || osdmap.pauseWr);
      latest := Request(e, oneTime);
    }

    method Continue()
      modifies this
      ensures Model() == Resume(old(Model()))
    {
      if !needSubContinuous {
        needSubContinuous := true;
        RenewOSDMap(if osdmap.epoch != 0 then osdmap.epoch + 1 else 0);
      }
    }

    method UpdateOSDMap(m: Message)
      requires WellKeyed(m)
      modifies this
      ensures Model() == UpdateFrom(old(Model()), m, old(osdmap.epoch) + 1)
    {
      var e := osdmap.epoch + 1;
      while e <= m.last
        invariant UpdateFrom(Model(), m, e) == UpdateFrom(old(Model()), m, old(osdmap.epoch) + 1)
        decreases m.last + m.oldest + 1 - e
      {
        if e == osdmap.epoch + 1 && e in m.incs {
          osdmap := ApplyIncremental(osdmap, m.incs[e]);
        } else if e in m.maps {
          osdmap := m.maps[e];
        } else if e >= m.oldest {
          needSubContinuous := false;
          RenewOSDMap(if osdmap.epoch != 0 then osdmap.epoch + 1 else 0);
          return;
        } else {
          e := m.oldest - 1;
        }
        e := e + 1;
      }
      Continue();
    }

    method InitOsdMap(m: Message)
      requires WellKeyed(m)
      modifies this
      ensures Model() == if m.last in m.maps then Resume(old(Model()).(osdmap := m.maps[m.last]))
        else AskAgain(old(Model()), 0)
    {
      if m.last in m.maps {
        osdmap := m.maps[m.last];
        Continue();
      } else {
        needSubContinuous := false;
        RenewOSDMap(0);
      }
    }

    /** handle_osd_map computes exactly the model's next state. */
    method HandleOsdMap(m: Message)
      requires WellKeyed(m)
      modifies this
      ensures Model() == Handle(old(Model()), fsid, m)
    {
      if m.fsid != fsid { return; }
      if m.last <= osdmap.epoch {
        Continue();
      } else if osdmap.epoch == 0 {
        InitOsdMap(m);
      } else {
        UpdateOSDMap(m);
      }
    }
  }

  // ---------------------------------------------------------------------------
  // Agreement with one authoritative history

  /** `history[e]` is the map of epoch e; epoch 0 is the empty map. */
  predicate IsHistory(history: seq<OSDMap>) {
    |history| > 0 && history[0] == EMPTY && forall e :: 0 <= e < |history| ==> history[e].epoch == e
  }

  /** A message drawn from the history, in whatever selection and with whatever gaps. */
  predicate DrawnFrom(history: seq<OSDMap>, m: Message)
    requires IsHistory(history)
  {
    && WellKeyed(m)
    && (forall e :: e in m.maps ==> e < |history| && m.maps[e] == history[e])
    && (forall e :: e in m.incs ==> 0 < e < |history| && ApplyIncremental(history[e - 1], m.incs[e]) == history[e])
  }

  predicate Agrees(history: seq<OSDMap>, c: Client) {
    c.osdmap.epoch < |history| && c.osdmap == history[c.osdmap.epoch]
  }

  lemma {:induction false} UpdateAgrees(history: seq<OSDMap>, c: Client, m: Message, e: nat)
    requires IsHistory(history) && DrawnFrom(history, m) && Agrees(history, c) && c.osdmap.epoch < e
    ensures Agrees(history, UpdateFrom(c, m, e))
    ensures UpdateFrom(c, m, e).osdmap.epoch >= c.osdmap.epoch
    decreases m.last + m.oldest + 1 - e
  {
    if e > m.last {
    } else if e == c.osdmap.epoch + 1 && e in m.incs {
      UpdateAgrees(history, c.(osdmap := ApplyIncremental(c.osdmap, m.incs[e])), m, e + 1);
    } else if e in m.maps {
      UpdateAgrees(history, c.(osdmap := m.maps[e]), m, e + 1);
    } else if e < m.oldest {
      UpdateAgrees(history, c, m, m.oldest);
    }
  }

  lemma HandleAgrees(history: seq<OSDMap>, c: Client, fsid: int, m: Message)
    requires IsHistory(history) && DrawnFrom(history, m) && Agrees(history, c)
    ensures Agrees(history, Handle(c, fsid, m))
    ensures Handle(c, fsid, m).osdmap.epoch >= c.osdmap.epoch
  {
    if m.fsid == fsid && m.last > c.osdmap.epoch && c.osdmap.epoch != 0 {
      UpdateAgrees(history, c, m, c.osdmap.epoch + 1);
    }
  }

  /** Main result 1.  After any sequence of messages drawn from one history, with any gaps,
      repetitions and reordering, the held map is the history's map of its epoch, and a
      longer sequence never holds an older one. */
  lemma {:induction false} HeldMapIsAuthoritative(history: seq<OSDMap>, fsid: int, ms: seq<Message>)
    requires IsHistory(history)
    requires forall k :: 0 <= k < |ms| ==> WellKeyed(ms[k]) && DrawnFrom(history, ms[k])
    ensures Agrees(history, HandleAll(START, fsid, ms))
    ensures forall n :: 0 <= n <= |ms| ==>
      HandleAll(START, fsid, ms[..n]).osdmap.epoch <= HandleAll(START, fsid, ms).osdmap.epoch
  {
    if ms != [] {
      var front := ms[..|ms| - 1];
      HeldMapIsAuthoritative(history, fsid, front);
      HandleAgrees(history, HandleAll(START, fsid, front), fsid, ms[|ms| - 1]);
      forall n | 0 <= n <= |ms|
        ensures HandleAll(START, fsid, ms[..n]).osdmap.epoch <= HandleAll(START, fsid, ms).osdmap.epoch
      {
        if n < |ms| {
          assert ms[..n] == front[..n];
        } else {
          assert ms[..n] == ms;
        }
      }
    }
  }

  // ---------------------------------------------------------------------------
  // Progress, exactly

  /** Every epoch after `low` up to the message's last is in the message. */
  predicate Covers(m: Message, low: nat) {
    forall e :: low < e <= m.last ==> m.Has(e)
  }

  /** What a message must contain to bring a client at `epoch` up to its last epoch: all
      the epochs after it, or the oldest epoch in full and all epochs after that. */
  predicate Suffices(m: Message, epoch: nat) {
    Covers(m, epoch) || (epoch < m.oldest && m.oldest in m.maps && Covers(m, m.oldest))
  }

  /** The loop without a gap behind it. */
  lemma {:induction false} UpdateContiguous(c: Client, m: Message)
    requires WellKeyed(m) && m.oldest <= m.last && c.osdmap.epoch <= m.last
    ensures var d := UpdateFrom(c, m, c.osdmap.epoch + 1);
      Suffices(m, c.osdmap.epoch) <==> d.osdmap.epoch == m.last && d.continuous
    ensures var d := UpdateFrom(c, m, c.osdmap.epoch + 1);
      !Suffices(m, c.osdmap.epoch) ==>
        !d.continuous && d.latest.start == NextEpoch(d.osdmap) && d.osdmap.epoch < m.last && !m.Has(d.osdmap.epoch + 1)
    decreases m.last - c.osdmap.epoch
  {
    var e := c.osdmap.epoch + 1;
    if e > m.last {
    } else if e in m.incs {
      NextSuffices(m, e);
      UpdateContiguous(c.(osdmap := ApplyIncremental(c.osdmap, m.incs[e])), m);
    } else if e in m.maps {
      NextSuffices(m, e);
      UpdateContiguous(c.(osdmap := m.maps[e]), m);
    } else {
      assert !m.Has(e) && !Covers(m, e - 1);
      if e < m.oldest {
        UpdateAtOldest(c, m);
      } else {
        assert e > m.oldest ==> !Covers(m, m.oldest);
      }
    }
  }

  /** The loop after skipping to the oldest epoch: only a full map can be used there. */
  lemma UpdateAtOldest(c: Client, m: Message)
    requires WellKeyed(m) && c.osdmap.epoch + 1 < m.oldest <= m.last
    ensures var d := UpdateFrom(c, m, m.oldest);
      (m.oldest in m.maps && Covers(m, m.oldest)) <==> d.osdmap.epoch == m.last && d.continuous
    ensures var d := UpdateFrom(c, m, m.oldest);
      !(m.oldest in m.maps && Covers(m, m.oldest)) ==>
        && !d.continuous && d.latest.start == NextEpoch(d.osdmap) && d.osdmap.epoch < m.last
        && (m.oldest in m.maps ==> !m.Has(d.osdmap.epoch + 1))
        && (m.oldest !in m.maps ==> d.osdmap == c.osdmap)
    decreases m.last - c.osdmap.epoch, 0
  {
    if m.oldest in m.maps {
      UpdateContiguous(c.(osdmap := m.maps[m.oldest]), m);
    }
  }

  lemma NextSuffices(m: Message, e: nat)
    requires 0 < e <= m.last && m.Has(e)
    ensures Suffices(m, e) <==> Suffices(m, e - 1)
  {
    if Suffices(m, e - 1) && !Covers(m, e - 1) && e == m.oldest {
      assert Covers(m, e);
    }
  }

  /** Main result 2.  A message of this cluster whose oldest epoch is not past its last one
      leaves the client either up to date with it and subscribed continuously, or behind it,
      with a request for its next epoch, which the message lacks; which one is decided by what
      the message contains. */
  lemma HandleReachesLastIffMessageSuffices(c: Client, fsid: int, m: Message)
    requires WellKeyed(m) && m.fsid == fsid && m.oldest <= m.last && 0 < c.osdmap.epoch < m.last
    ensures var d := Handle(c, fsid, m);
      if Suffices(m, c.osdmap.epoch)
      then d.osdmap.epoch == m.last && d.continuous
      else
        && d.osdmap.epoch < m.last && !m.Has(d.osdmap.epoch + 1)
        && !d.continuous && d.latest.start == d.osdmap.epoch + 1
  {
    UpdateContiguous(c, m);
    UpdateKeepsEpoch(c, m, c.osdmap.epoch + 1);
  }

  lemma {:induction false} UpdateKeepsEpoch(c: Client, m: Message, e: nat)
    requires WellKeyed(m) && c.osdmap.epoch < e
    ensures UpdateFrom(c, m, e).osdmap.epoch >= c.osdmap.epoch
    decreases m.last + m.oldest + 1 - e
  {
    if e > m.last {
    } else if e == c.osdmap.epoch + 1 && e in m.incs {
      UpdateKeepsEpoch(c.(osdmap := ApplyIncremental(c.osdmap, m.incs[e])), m, e + 1);
    } else if e in m.maps {
      UpdateKeepsEpoch(c.(osdmap := m.maps[e]), m, e + 1);
    } else if e < m.oldest {
      UpdateKeepsEpoch(c, m, m.oldest);
    }
  }

  /** Up to date with the message and subscribed continuously, or waiting for exactly the
      next epoch. */
  predicate Settled(m: Message, d: Client) {
    || (d.osdmap.epoch >= m.last && d.continuous)
    || (!d.continuous && d.latest.start == NextEpoch(d.osdmap))
  }

  /** At any epoch, a message whose oldest epoch is not past its last one settles the client. */
  lemma HandleEndsSettled(c: Client, fsid: int, m: Message)
    requires WellKeyed(m) && m.fsid == fsid && m.oldest <= m.last
    ensures Settled(m, Handle(c, fsid, m))
    ensures c.osdmap.epoch == 0 < m.last ==>
      (Handle(c, fsid, m).osdmap.epoch == m.last && Handle(c, fsid, m).continuous <==> m.last in m.maps)
  {
    if 0 < c.osdmap.epoch < m.last {
      UpdateContiguous(c, m);
    }
  }

  /** The loop when the oldest epoch lies past the last one: it goes on to the first epoch the
      message lacks, skips everything from there, and subscribes continuously all the same. */
  lemma {:induction false} UpdatePastLast(c: Client, m: Message)
    requires WellKeyed(m) && c.osdmap.epoch <= m.last < m.oldest
    ensures var d := UpdateFrom(c, m, c.osdmap.epoch + 1);
      && d.continuous && c.osdmap.epoch <= d.osdmap.epoch <= m.last
      && (forall e :: c.osdmap.epoch < e <= d.osdmap.epoch ==> m.Has(e))
      && (d.osdmap.epoch < m.last ==> !m.Has(d.osdmap.epoch + 1))
    decreases m.last - c.osdmap.epoch
  {
    var e := c.osdmap.epoch + 1;
    if e > m.last {
    } else if e in m.incs {
      UpdatePastLast(c.(osdmap := ApplyIncremental(c.osdmap, m.incs[e])), m);
    } else if e in m.maps {
      UpdatePastLast(c.(osdmap := m.maps[e]), m);
    } else {
      assert UpdateFrom(c, m, m.oldest) == Resume(c);
    }
  }

  /** Main result 3.  Exactly when a message settles the client: its oldest epoch is not past
      its last one, or it has nothing new, or the client had no map, or it lacks none of the
      epochs the client misses. */
  lemma HandleSettlesIff(c: Client, fsid: int, m: Message)
    requires WellKeyed(m) && m.fsid == fsid
    ensures Settled(m, Handle(c, fsid, m)) <==>
      m.oldest <= m.last || m.last <= c.osdmap.epoch || c.osdmap.epoch == 0 || Covers(m, c.osdmap.epoch)
  {
    if m.oldest <= m.last {
      HandleEndsSettled(c, fsid, m);
    } else if 0 < c.osdmap.epoch < m.last {
      UpdatePastLast(c, m);
      var d := Handle(c, fsid, m);
      if d.osdmap.epoch < m.last {
        assert !m.Has(d.osdmap.epoch + 1);
      }
    }
  }

  /** Epoch 5 and a message that holds only epoch 6 of 6 to 8, with 9 as its oldest: the
      client ends at epoch 6, behind, and yet subscribed continuously. */
  lemma OldestPastLastCanStopHalfway(fsid: int)
    ensures var c := Client(OSDMap(5, false, false, map[]), true, Request(0, false));
      var m := Message(fsid, map[6 := Incremental(6, false, false, map[], {})], map[], 9, 8);
      && WellKeyed(m) && Handle(c, fsid, m).osdmap.epoch == 6 && Handle(c, fsid, m).continuous
      && !Settled(m, Handle(c, fsid, m))
  {
    var c := Client(OSDMap(5, false, false, map[]), true, Request(0, false));
    var m := Message(fsid, map[6 := Incremental(6, false, false, map[], {})], map[], 9, 8);
    UpdatePastLast(c, m);
    assert m.Has(6) && !m.Has(7);
  }

  /** In particular, with the very next epoch missing nothing is taken at all. */
  lemma OldestPastLastSkipsEverything(c: Client, fsid: int, m: Message)
    requires WellKeyed(m) && m.fsid == fsid && 0 < c.osdmap.epoch < m.last < m.oldest
    requires !m.Has(c.osdmap.epoch + 1)
    ensures Handle(c, fsid, m) == Resume(c)
  {
    assert UpdateFrom(c, m, m.oldest) == Resume(c);
    assert UpdateFrom(c, m, c.osdmap.epoch + 1) == UpdateFrom(c, m, m.oldest);
  }

  // ---------------------------------------------------------------------------
  // The subscription

  /** What d asks for after c saw a message of its own cluster.  A client that stays
      continuous asks for nothing; one that becomes so asks, continuously, for its next epoch
      (0 without a map); and one that is behind asks for its next epoch, once unless reads or
      writes are paused. */
  predicate Asks(c: Client, d: Client) {
    var next := if d.osdmap.epoch == 0 then 0 else d.osdmap.epoch + 1;
    if c.continuous && d.continuous then d.latest == c.latest
    else if d.continuous then d.latest == Request(next, false)
    else d.latest == Request(next, !(d.osdmap.pauseRd || d.osdmap.pauseWr))
  }

  lemma {:induction false} UpdateAsks(c: Client, m: Message, e: nat)
    requires WellKeyed(m)
    ensures Asks(c, UpdateFrom(c, m, e))
    decreases m.last + m.oldest + 1 - e
  {
    if e > m.last {
    } else if e == c.osdmap.epoch + 1 && e in m.incs {
      UpdateAsks(c.(osdmap := ApplyIncremental(c.osdmap, m.incs[e])), m, e + 1);
    } else if e in m.maps {
      UpdateAsks(c.(osdmap := m.maps[e]), m, e + 1);
    } else if e < m.oldest {
      UpdateAsks(c, m, m.oldest);
    }
  }

  /** Main result 4.  What every message makes the client ask for; a message of another
      cluster changes nothing. */
  lemma HandleAsks(c: Client, fsid: int, m: Message)
    requires WellKeyed(m)
    ensures if m.fsid == fsid then Asks(c, Handle(c, fsid, m)) else Handle(c, fsid, m) == c
  {
    UpdateAsks(c, m, c.osdmap.epoch + 1);
  }

  /** A message that does not bring the client up to its last epoch makes it ask for the
      next one, once unless the map it then holds says that reads or writes are paused. */
  lemma InsufficientMessageAsksOnce(c: Client, fsid: int, m: Message)
    requires WellKeyed(m) && m.fsid == fsid && m.oldest <= m.last && c.osdmap.epoch < m.last
    requires if c.osdmap.epoch == 0 then m.last !in m.maps else !Suffices(m, c.osdmap.epoch)
    ensures var d := Handle(c, fsid, m);
      d.latest == Request(if c.osdmap.epoch == 0 then 0 else d.osdmap.epoch + 1,
                          !(d.osdmap.pauseRd || d.osdmap.pauseWr))
  {
    HandleAsks(c, fsid, m);
    if c.osdmap.epoch != 0 {
      HandleReachesLastIffMessageSuffices(c, fsid, m);
      UpdateKeepsEpoch(c, m, c.osdmap.epoch + 1);
    }
  }

  /** The latest request is one-time exactly while the client is behind and nothing is
      paused, and while the client is behind it is for the next epoch. */
  predicate Subscribed(c: Client) {
    && (c.latest.oneTime <==> !c.continuous && !c.osdmap.pauseRd && !c.osdmap.pauseWr)
    && (!c.continuous ==> c.latest.start == if c.osdmap.epoch == 0 then 0 else c.osdmap.epoch + 1)
  }

  /** Main result 5.  In every reachable state. */
  lemma {:induction false} OneTimeExactlyWhileBehind(fsid: int, ms: seq<Message>)
    requires forall k :: 0 <= k < |ms| ==> WellKeyed(ms[k])
    ensures Subscribed(HandleAll(START, fsid, ms))
  {
    if ms != [] {
      OneTimeExactlyWhileBehind(fsid, ms[..|ms| - 1]);
      HandleAsks(HandleAll(START, fsid, ms[..|ms| - 1]), fsid, ms[|ms| - 1]);
    }
  }
}
