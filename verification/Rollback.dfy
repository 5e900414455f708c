/**
 Rolling an image back to a snapshot through the cache.  The request creates two temporary
 snapshots, asks the cache to roll back between them, and on any failure removes the
 temporary snapshots again before it completes with the error.  Every step is the callback
 of the step before; what creating, removing and rolling back answer is up to the
 environment.
 */
module Rollback {

  const ELIBACC: int := 79

  /** The callback outstanding, if any. */
  datatype Pending =
    | NotStarted
    | Creating(name: string)
    | RollingBack
    | Removing(name: string)
    | Refreshing        // rolled back; the object map is refreshed next
    | Completed

  /** `m_gc_snap_name1`, `m_gc_snap_name2` and `m_ret_val`, the snapshots of the image, and
      what has been observed so far: the values `complete` was called with, the errors in
      the order in which they occurred, and two kinds of failure of the compensation. */
  datatype Request = Request(
    name1: string,
    name2: string,
    retVal: int,
    snaps: set<string>,
    pending: Pending,
    completions: seq<int>,
    errors: seq<int>,
    unplugged: bool,    // the plugin was gone when the second snapshot was due
    refused: bool       // a removal failed
  )

  /** What the environment answers.  A creation that fails may still have created the
      snapshot, a removal that fails may still have removed it.  `plugin` and `newName` are the
      plugin registry's and the name generator's answers should the callback ask them. */
  datatype Event =
    | Start(plugin: bool, newName: string)
    | Created(r: int, made: bool, plugin: bool, newName: string)
    | RolledBack(plugin: bool, r: int)
    | Removed(r: int, gone: bool)

  function Initial(snaps: set<string>): Request {
    Request("", "", 0, snaps, NotStarted, [], [], false, false)
  }

  ghost predicate Enabled(s: Request, e: Event) {
    match e
    case Start(_, newName) => s.pending.NotStarted? && newName != "" && newName !in s.snaps
    case Created(r, made, _, newName) => s.pending.Creating? && (r >= 0 ==> made) && newName != "" &&
      newName !in s.snaps + {s.pending.name}
    case RolledBack(_, _) => s.pending.RollingBack?
    case Removed(r, gone) => s.pending.Removing? && (r >= 0 ==> gone)
  }

  function Complete(s: Request, r: int): Request {
    s.(completions := s.completions + [r], pending := Completed)
  }

  function SaveResult(s: Request, r: int): Request {
    s.(retVal := if s.retVal == 0 && r < 0 then r else s.retVal, errors := s.errors + [r])
  }

  function SendCreate(s: Request, num: int, plugin: bool, newName: string): Request {
    if !plugin then Complete(s.(errors := s.errors + [-ELIBACC], unplugged := s.unplugged || num == 2), -ELIBACC)
    else if num == 1 then s.(name1 := newName, pending := Creating(newName))
    else s.(name2 := newName, pending := Creating(newName))
  }

  function SendRemove(s: Request): Request {
    var (name, s') := if s.name1 != "" then (s.name1, s.(name1 := "")) else (s.name2, s.(name2 := ""));
    if name == "" || name !in s'.snaps then Complete(s', s'.retVal)
    else s'.(pending := Removing(name))
  }

  function HandleCreate(s: Request, r: int, plugin: bool, newName: string): Request {
    if r < 0 then SendRemove(SaveResult(s, r))
    else if s.name2 == "" then SendCreate(s, 2, plugin, newName)
    else s.(pending := RollingBack)
  }

  function HandleRollback(s: Request, plugin: bool, r: int): Request {
    var mgrRet := if plugin then r else -ELIBACC;
    if mgrRet < 0 then SendRemove(SaveResult(s, mgrRet)) else s.(pending := Refreshing)
  }

  function HandleRemove(s: Request, r: int): Request {
    if r < 0 then Complete(s.(refused := true, errors := s.errors + [r]), s.retVal) else SendRemove(s)
  }

  function Step(s: Request, e: Event): Request {
    match e
    case Start(plugin, newName) => SendCreate(s, 1, plugin, newName)
    case Created(r, made, plugin, newName) =>
      var s' := if made && s.pending.Creating? then s.(snaps := s.snaps + {s.pending.name}) else s;
      HandleCreate(s', r, plugin, newName)
    case RolledBack(plugin, r) => HandleRollback(s, plugin, r)
    case Removed(r, gone) =>
      var s' := if gone && s.pending.Removing? then s.(snaps := s.snaps - {s.pending.name}) else s;
      HandleRemove(s', r)
  }

  ghost predicate Run(s: Request, events: seq<Event>, t: Request)
    decreases |events|
  {
    if events == [] then t == s else Enabled(s, events[0]) && Run(Step(s, events[0]), events[1..], t)
  }

  // ---------------------------------------------------------------------------
  // The invariant

  predicate Outcome(s: Request) {
    && (s.pending.Completed? ==> s.errors != [] && s.completions == [s.errors[0]])
    && (!s.pending.Completed? ==> s.completions == [])
    && (s.pending.Removing? ==> s.errors != [] && s.retVal == s.errors[0])
    && (!s.pending.Completed? && !s.pending.Removing? ==> s.errors == [] && s.retVal == 0)
    && forall k :: 0 <= k < |s.errors| ==> s.errors[k] < 0
  }

  predicate Temporary(name: string, own: set<string>) { name != "" && name !in own }

  /** Which snapshots there are beyond the image's own. */
  predicate Snapshots(s: Request, own: set<string>) {
    match s.pending
    case NotStarted => s.name1 == s.name2 == "" && s.snaps == own
    case Creating(name) =>
      && Temporary(name, own)
      && if s.name2 == "" then name == s.name1 && s.snaps == own
         else name == s.name2 && name != s.name1 && Temporary(s.name1, own) && s.snaps == own + {s.name1}
    case Removing(name) =>
      && Temporary(name, own) && s.name1 == "" && name != s.name2 && (s.name2 == "" || Temporary(s.name2, own))
      && (s.snaps == own + {name} || (Temporary(s.name2, own) && s.snaps == own + {name, s.name2}))
    case Completed => own <= s.snaps && (s.snaps != own ==> s.unplugged || s.refused)
    case _ => BothExist(s, own)
  }

  predicate BothExist(s: Request, own: set<string>) {
    Temporary(s.name1, own) && Temporary(s.name2, own) && s.name1 != s.name2 && s.snaps == own + {s.name1, s.name2}
  }

  predicate Inv(s: Request, own: set<string>) {
    && Outcome(s) && Snapshots(s, own)
    && (s.unplugged ==> s.pending.Completed? && s.snaps != own)
    && (s.refused ==> s.pending.Completed?)
  }

  /** Callbacks still to come. */
  function Rank(s: Request): nat {
    match s.pending
    case NotStarted => 6
    case Creating(_) => if s.name2 == "" then 5 else 4
    case RollingBack => 3
    case Removing(_) => if s.name2 != "" then 2 else 1
    case _ => 0
  }

  lemma RemovePreserves(s: Request, own: set<string>)
    requires s.completions == [] && s.errors != [] && s.retVal == s.errors[0]
    requires forall k :: 0 <= k < |s.errors| ==> s.errors[k] < 0
    requires !s.unplugged && !s.refused
    requires
      || (Temporary(s.name1, own) && s.name2 == "" && (s.snaps == own || s.snaps == own + {s.name1}))
      || (Temporary(s.name1, own) && Temporary(s.name2, own) && s.name1 != s.name2 &&
        (s.snaps == own + {s.name1} || BothExist(s, own)))
      || (s.name1 == s.name2 == "" && s.snaps == own)
      || (s.name1 == "" && Temporary(s.name2, own) && (s.snaps == own || s.snaps == own + {s.name2}))
    ensures Inv(SendRemove(s), own)
    ensures Rank(SendRemove(s)) <= if s.name1 == "" then 1 else if s.name2 == "" then 1 else 2
  {
  }

  lemma CreatedPreserves(s: Request, e: Event, own: set<string>)
    requires Inv(s, own) && Enabled(s, e) && e.Created?
    ensures Inv(Step(s, e), own) && Rank(Step(s, e)) < Rank(s)
  {
    var s' := if e.made then s.(snaps := s.snaps + {s.pending.name}) else s;
    assert Step(s, e) == HandleCreate(s', e.r, e.plugin, e.newName);
    if e.r < 0 {
      RemovePreserves(SaveResult(s', e.r), own);
    }
  }

  lemma RemovedPreserves(s: Request, e: Event, own: set<string>)
    requires Inv(s, own) && Enabled(s, e) && e.Removed?
    ensures Inv(Step(s, e), own) && Rank(Step(s, e)) < Rank(s)
  {
    var s' := if e.gone then s.(snaps := s.snaps - {s.pending.name}) else s;
    assert Step(s, e) == HandleRemove(s', e.r);
    if e.r >= 0 {
      assert s'.snaps == own || s'.snaps == own + {s.name2};
      RemovePreserves(s', own);
    }
  }

  /** Every callback keeps the invariant and brings the request closer to its end. */
  lemma InvStep(s: Request, e: Event, own: set<string>)
    requires Inv(s, own) && Enabled(s, e)
    ensures Inv(Step(s, e), own) && Rank(Step(s, e)) < Rank(s)
  {
    match e
    case Start(_, _) =>
    case Created(_, _, _, _) => CreatedPreserves(s, e, own);
    case Removed(_, _) => RemovedPreserves(s, e, own);
    case RolledBack(plugin, r) =>
      if !plugin || r < 0 {
        RemovePreserves(SaveResult(s, if plugin then r else -ELIBACC), own);
      }
  }

  lemma {:induction false} InvRun(s: Request, events: seq<Event>, t: Request, own: set<string>)
    requires Inv(s, own) && Run(s, events, t)
    ensures Inv(t, own) && |events| + Rank(t) <= Rank(s)
    decreases |events|
  {
    if events != [] {
      InvStep(s, events[0], own);
      InvRun(Step(s, events[0]), events[1..], t, own);
    }
  }

  // ---------------------------------------------------------------------------
  // The first error, read off the answers alone

  /** The error in an answer that comes after `created` snapshots were made, 0 if none: the
      plugin is asked for once at the start, once after the first creation and once before
      the rollback. */
  function Failure(e: Event, created: nat): int {
    match e
    case Start(plugin, _) => if plugin then 0 else -ELIBACC
    case Created(r, _, plugin, _) => if r < 0 then r else if created == 0 && !plugin then -ELIBACC else 0
    case RolledBack(plugin, r) => if !plugin then -ELIBACC else if r < 0 then r else 0
    case Removed(r, _) => if r < 0 then r else 0
  }

  function FirstFailure(events: seq<Event>, created: nat): int {
    if events == [] then 0
    else if Failure(events[0], created) != 0 then Failure(events[0], created)
    else FirstFailure(events[1..], created + if events[0].Created? then 1 else 0)
  }

  function CreatedSoFar(s: Request): nat {
    if s.pending.NotStarted? || (s.pending.Creating? && s.name2 == "") then 0 else if s.pending.Creating? then 1 else 2
  }

  lemma StepObserves(s: Request, e: Event)
    requires Enabled(s, e)
    ensures Step(s, e).errors == s.errors || (|Step(s, e).errors| == |s.errors| + 1 && s.errors <= Step(s, e).errors)
    ensures Step(s, e).refused <==> s.refused || (e.Removed? && e.r < 0)
  {
    match e
    case Start(_, _) =>
    case Created(r, _, _, _) =>
    case RolledBack(_, _) =>
    case Removed(r, _) =>
  }

  lemma {:induction false} FirstErrorStays(s: Request, events: seq<Event>, t: Request)
    requires Run(s, events, t) && s.errors != []
    ensures t.errors != [] && t.errors[0] == s.errors[0]
    decreases |events|
  {
    if events != [] {
      StepObserves(s, events[0]);
      FirstErrorStays(Step(s, events[0]), events[1..], t);
    }
  }

  lemma {:induction false} FirstErrorIsFirstFailure(s: Request, events: seq<Event>, t: Request, own: set<string>)
    requires Inv(s, own) && Run(s, events, t) && s.errors == []
    ensures FirstFailure(events, CreatedSoFar(s)) == if t.errors == [] then 0 else t.errors[0]
    decreases |events|
  {
    if events != [] {
      var s', f := Step(s, events[0]), Failure(events[0], CreatedSoFar(s));
      InvStep(s, events[0], own);
      if f != 0 {
        assert s'.errors == [f];
        FirstErrorStays(s', events[1..], t);
      } else {
        assert s'.errors == [] && CreatedSoFar(s') == CreatedSoFar(s) + if events[0].Created? then 1 else 0;
        FirstErrorIsFirstFailure(s', events[1..], t, own);
      }
    }
  }

  // ---------------------------------------------------------------------------
  // Main results, over every run

  /** The request is over exactly when no callback is outstanding, after at most six of
      them, and it completes at most once: with the first error that occurred. */
  lemma CompletesOnceWithFirstError(own: set<string>, events: seq<Event>, t: Request)
    requires Run(Initial(own), events, t)
    ensures |events| <= 6
    ensures (exists e :: Enabled(t, e)) <==> !t.pending.Completed? && !t.pending.Refreshing?
    ensures t.pending.Completed? <==> t.completions != []
    ensures t.completions != [] ==> t.completions == [FirstFailure(events, 0)] && FirstFailure(events, 0) < 0
    ensures t.pending.Refreshing? ==> FirstFailure(events, 0) == 0
  {
    InvRun(Initial(own), events, t, own);
    FirstErrorIsFirstFailure(Initial(own), events, t, own);
    if !t.pending.Completed? && !t.pending.Refreshing? {
      var e := Answer(t);
      assert Enabled(t, e);
    }
  }

  /** The cache rolled back. */
  predicate RollsBack(e: Event) { e.RolledBack? && e.plugin && 0 <= e.r }

  /** A request goes on to refresh the object map exactly if the cache has rolled back. */
  lemma {:induction false} RefreshesIffRolledBack(s: Request, events: seq<Event>, t: Request)
    requires Run(s, events, t)
    ensures t.pending.Refreshing? <==>
      s.pending.Refreshing? || exists k :: 0 <= k < |events| && RollsBack(events[k])
    decreases |events|
  {
    if events != [] {
      RefreshesIffRolledBack(Step(s, events[0]), events[1..], t);
      assert forall k :: 0 < k < |events| ==> events[k] == events[1..][k - 1];
      if RollsBack(events[0]) {
        assert events[1..] == [];
      }
    }
  }

  lemma Answer(t: Request) returns (e: Event)
    requires !t.pending.Completed? && !t.pending.Refreshing?
    ensures Enabled(t, e)
  {
    var taken := t.snaps + if t.pending.Creating? then {t.pending.name} else {};
    var newName := UnusedName(taken);
    e := match t.pending
      case NotStarted => Start(true, newName)
      case Creating(_) => Created(0, true, true, newName)
      case RollingBack => RolledBack(true, 0)
      case _ => Removed(0, true);
  }

  /** Some name is longer than all that are taken. */
  lemma {:induction false} UnusedName(taken: set<string>) returns (name: string)
    ensures name != "" && name !in taken && forall n :: n in taken ==> |n| < |name|
    decreases |taken|
  {
    if taken == {} {
      name := "g";
    } else {
      var n :| n in taken;
      var other := UnusedName(taken - {n});
      name := other + n;
      assert forall m :: m in taken ==> m == n || m in taken - {n};
    }
  }

  /** The cache is asked to roll back only while both temporary snapshots exist, so the
      assertion in handle_send_gc_rollback never fires; on success both are left for it. */
  lemma RollbackOnlyWhenBothExist(own: set<string>, events: seq<Event>, t: Request)
    requires Run(Initial(own), events, t) && (t.pending.RollingBack? || t.pending.Refreshing?)
    ensures t.name1 in t.snaps && t.name2 in t.snaps && t.name1 != t.name2
    ensures t.name1 !in own && t.name2 !in own && t.snaps == own + {t.name1, t.name2}
  {
    InvRun(Initial(own), events, t, own);
  }

  /** A removal that fails leaves the snapshot in place. */
  predicate FailedRemovalKeeps(e: Event) { e.Removed? && e.r < 0 ==> !e.gone }

  lemma {:induction false} RefusalLeaves(s: Request, events: seq<Event>, t: Request, own: set<string>)
    requires Inv(s, own) && Run(s, events, t) && (s.refused ==> s.snaps != own)
    requires forall k :: 0 <= k < |events| ==> FailedRemovalKeeps(events[k])
    ensures t.refused ==> t.snaps != own
    decreases |events|
  {
    if events != [] {
      assert FailedRemovalKeeps(events[0]);
      InvStep(s, events[0], own);
      RefusalLeaves(Step(s, events[0]), events[1..], t, own);
    }
  }

  /** Some answer was that a removal failed. */
  predicate Refused(events: seq<Event>) {
    exists k :: 0 <= k < |events| && events[k].Removed? && events[k].r < 0
  }

  /** The plugin was there at the start and gone once the first snapshot had been created. */
  predicate Unplugged(events: seq<Event>) {
    && |events| >= 2 && events[0].Start? && events[0].plugin
    && events[1].Created? && events[1].r >= 0 && !events[1].plugin
  }

  lemma {:induction false} ObservedRefusal(s: Request, events: seq<Event>, t: Request)
    requires Run(s, events, t)
    ensures t.refused <==> s.refused || Refused(events)
    decreases |events|
  {
    if events != [] {
      StepObserves(s, events[0]);
      ObservedRefusal(Step(s, events[0]), events[1..], t);
      RefusedTail(events);
    }
  }

  lemma RefusedTail(events: seq<Event>)
    requires events != []
    ensures Refused(events) <==> (events[0].Removed? && events[0].r < 0) || Refused(events[1..])
  {
    if Refused(events[1..]) {
      var k :| 0 <= k < |events[1..]| && events[1..][k].Removed? && events[1..][k].r < 0;
      assert events[k + 1].Removed? && events[k + 1].r < 0;
    }
    assert forall k :: 0 < k < |events| ==> events[k] == events[1..][k - 1];
  }

  lemma {:induction false} UnpluggedStays(s: Request, events: seq<Event>, t: Request, own: set<string>)
    requires Inv(s, own) && Run(s, events, t) && CreatedSoFar(s) >= 1
    ensures t.unplugged == s.unplugged
    decreases |events|
  {
    if events != [] {
      InvStep(s, events[0], own);
      UnpluggedStays(Step(s, events[0]), events[1..], t, own);
    }
  }

  lemma ObservedUnplugged(own: set<string>, events: seq<Event>, t: Request)
    requires Run(Initial(own), events, t)
    ensures t.unplugged <==> Unplugged(events)
  {
    if |events| >= 1 {
      var s := Step(Initial(own), events[0]);
      InvStep(Initial(own), events[0], own);
      if |events| >= 2 {
        assert events[1..][0] == events[1];
        InvStep(s, events[1], own);
        UnpluggedStays(Step(s, events[1]), events[1..][1..], t, own);
      }
    }
  }

  /** Snapshots the answers say were created, and removed. */
  function Made(events: seq<Event>): nat {
    if events == [] then 0 else (if events[0].Created? && events[0].made then 1 else 0) + Made(events[1..])
  }

  function Gone(events: seq<Event>): nat {
    if events == [] then 0 else (if events[0].Removed? && events[0].gone then 1 else 0) + Gone(events[1..])
  }

  lemma StepCounts(s: Request, e: Event, own: set<string>)
    requires Inv(s, own) && Enabled(s, e)
    ensures |Step(s, e).snaps| == |s.snaps| + Made([e]) - Gone([e])
  {
    var after := Step(s, e).snaps;
    match e
    case Start(_, _) => assert after == s.snaps;
    case RolledBack(_, _) => assert after == s.snaps;
    case Created(_, made, _, _) =>
      assert s.pending.name !in s.snaps;
      assert after == if made then s.snaps + {s.pending.name} else s.snaps;
    case Removed(_, gone) =>
      assert s.pending.name in s.snaps;
      assert after == if gone then s.snaps - {s.pending.name} else s.snaps;
  }

  /** No snapshot is created or removed but by an answer that says so. */
  lemma {:induction false} SnapshotsAreCounted(s: Request, events: seq<Event>, t: Request, own: set<string>)
    requires Inv(s, own) && Run(s, events, t)
    ensures |t.snaps| == |s.snaps| + Made(events) - Gone(events)
    decreases |events|
  {
    if events != [] {
      InvStep(s, events[0], own);
      StepCounts(s, events[0], own);
      SnapshotsAreCounted(Step(s, events[0]), events[1..], t, own);
    }
  }

  lemma SameSize(a: set<string>, b: set<string>)
    requires a <= b && |a| == |b|
    ensures a == b
  {
    assert |b - a| == |b| - |a|;
  }

  /** A failed request has compensated completely, leaving exactly the image's own
      snapshots, if no removal was refused and the plugin was there for the second
      snapshot; and only then, if a refused removal removes nothing.  Whatever removals do, it
      has exactly when as many snapshots were removed as had been created. */
  lemma CompensatedIffNotRefusedNorUnplugged(own: set<string>, events: seq<Event>, t: Request)
    requires Run(Initial(own), events, t) && t.pending.Completed?
    ensures own <= t.snaps && (t.snaps == own <==> Made(events) == Gone(events))
    ensures !Refused(events) && !Unplugged(events) ==> t.snaps == own
    ensures (forall k :: 0 <= k < |events| ==> FailedRemovalKeeps(events[k])) ==>
      (t.snaps == own <==> !Refused(events) && !Unplugged(events))
  {
    InvRun(Initial(own), events, t, own);
    ObservedRefusal(Initial(own), events, t);
    ObservedUnplugged(own, events, t);
    SnapshotsAreCounted(Initial(own), events, t, own);
    if |t.snaps| == |own| {
      SameSize(own, t.snaps);
    }
    if forall k :: 0 <= k < |events| ==> FailedRemovalKeeps(events[k]) {
      RefusalLeaves(Initial(own), events, t, own);
    }
  }

  /** The plugin going away between the two creations leaves the first snapshot behind. */
  lemma MissingPluginLeavesFirstSnapshot(own: set<string>, first: string, second: string)
    requires Temporary(first, own) && Temporary(second, own + {first})
    ensures var events := [Start(true, first), Created(0, true, false, second)];
      exists t :: Run(Initial(own), events, t) && t.completions == [-79] && t.snaps == own + {first}
  {
    var s := Initial(own);
    var s1 := Step(s, Start(true, first));
    var t := Step(s1, Created(0, true, false, second));
    assert Run(t, [], t);
    assert Run(s1, [Created(0, true, false, second)], t);
    assert [Start(true, first), Created(0, true, false, second)][1..] == [Created(0, true, false, second)];
    assert Run(s, [Start(true, first), Created(0, true, false, second)], t);
  }
}
