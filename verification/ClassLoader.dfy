/**
 Loading object classes and the classes they depend on.  A class is opened once its library
 has been loaded and all its dependencies are open; a load that fails half-way leaves a
 registry that a later load continues from.

 Dependencies are acyclic: `rank` is any numbering under which a class ranks above the
 classes it depends on.
 */
module ClassLoader {

  const EPERM: int := 1

  /** The name of a class. */
  datatype Name = Name(text: string)

  datatype Status = Unknown | Missing | MissingDeps | Initializing | Open

  /** `loaded` tells whether there is a library handle. */
  datatype ClassData = ClassData(status: Status, loaded: bool, deps: set<Name>, missing: set<Name>)

  type Registry = map<Name, ClassData>

  /** What dlopen finds: the libraries that load, with the dependencies they declare, and
      the error for every other name. */
  datatype Libraries = Libraries(deps: map<Name, seq<Name>>, error: Name -> int)

  const NEW_CLASS: ClassData := ClassData(Unknown, false, {}, {})

  ghost predicate Acyclic(libs: Libraries, rank: Name -> nat) {
    forall n, d :: n in libs.deps && d in libs.deps[n] ==> rank(d) < rank(n)
  }

  ghost predicate Errors(libs: Libraries) { forall n :: libs.error(n) < 0 }

  // ---------------------------------------------------------------------------
  // The invariant of the registry

  predicate IsOpen(reg: Registry, n: Name) { n in reg && reg[n].status == Open }

  ghost predicate Consistent(c: ClassData, n: Name, reg: Registry, rank: Name -> nat) {
    && c.missing <= c.deps && c.status != Initializing
    && (c.status == Open ==> c.missing == {})
    && (c.status == Open || c.status == MissingDeps ==> c.loaded)
    && (forall d :: d in c.deps ==> d in reg && rank(d) < rank(n))
    && (forall d :: d in c.deps && d !in c.missing ==> IsOpen(reg, d))
  }

  ghost predicate AllConsistent(reg: Registry, rank: Name -> nat) {
    forall n :: n in reg ==> Consistent(reg[n], n, reg, rank)
  }

  /** A class is settled while it is not in the middle of being loaded. */
  predicate Settled(c: ClassData) {
    c.status == Unknown || c.status == Missing ==> !c.loaded && c.deps == {}
  }

  ghost predicate SettledBelow(reg: Registry, rank: Name -> nat, bound: nat) {
    forall n :: n in reg && rank(n) < bound ==> Settled(reg[n])
  }

  /** What holds between calls of open_class. */
  ghost predicate ValidRegistry(reg: Registry, rank: Name -> nat) {
    AllConsistent(reg, rank) && forall n :: n in reg ==> Settled(reg[n])
  }

  // ---------------------------------------------------------------------------
  // Which classes can be opened at all, without regard to how loading proceeds

  /** The dependencies of every class that is loaded or can be. */
  type Graph = map<Name, set<Name>>

  ghost predicate Reflects(eff: Graph, reg: Registry, libs: Libraries) {
    && (forall n :: n in reg && reg[n].loaded ==> n in eff && eff[n] == reg[n].deps)
    && (forall n :: n in libs.deps && !(n in reg && reg[n].loaded) ==>
      n in eff && eff[n] == (set d | d in libs.deps[n]))
    && (forall n :: n in eff ==> n in libs.deps || (n in reg && reg[n].loaded))
  }

  function Effective(reg: Registry, libs: Libraries): (eff: Graph)
    ensures Reflects(eff, reg, libs)
  {
    map n | n in reg.Keys + libs.deps.Keys && (n in libs.deps || reg[n].loaded) ::
      if n in reg && reg[n].loaded then reg[n].deps else set d | d in libs.deps[n]
  }

  ghost predicate Ranked(eff: Graph, rank: Name -> nat) {
    forall n, d :: n in eff && d in eff[n] ==> rank(d) < rank(n)
  }

  /** The class and everything below it is loaded or can be. */
  ghost predicate CanOpen(eff: Graph, rank: Name -> nat, n: Name)
    requires Ranked(eff, rank)
    decreases rank(n)
  {
    n in eff && forall d :: d in eff[n] ==> CanOpen(eff, rank, d)
  }

  /** m is n or one of its dependencies, direct or not. */
  ghost predicate Reaches(eff: Graph, rank: Name -> nat, n: Name, m: Name)
    requires Ranked(eff, rank)
    decreases rank(n)
  {
    m == n || (n in eff && exists d :: d in eff[n] && Reaches(eff, rank, d, m))
  }

  lemma RankedFromParts(eff: Graph, reg: Registry, libs: Libraries, rank: Name -> nat)
    requires Reflects(eff, reg, libs) && Acyclic(libs, rank) && AllConsistent(reg, rank)
    ensures Ranked(eff, rank)
  {
    forall n, d | n in eff && d in eff[n] ensures rank(d) < rank(n) {
      if n in reg && reg[n].loaded {
        assert Consistent(reg[n], n, reg, rank);
      }
    }
  }

  /** Whatever is open could be opened: all that it depends on is open, at any depth. */
  lemma {:induction false} OpenCanOpen(eff: Graph, reg: Registry, libs: Libraries, rank: Name -> nat, n: Name)
    requires Reflects(eff, reg, libs) && AllConsistent(reg, rank) && Ranked(eff, rank) && IsOpen(reg, n)
    ensures CanOpen(eff, rank, n)
    decreases rank(n)
  {
    assert Consistent(reg[n], n, reg, rank);
    forall d | d in eff[n] ensures CanOpen(eff, rank, d) {
      OpenCanOpen(eff, reg, libs, rank, d);
    }
  }

  /** Main result: every class an open class reaches is open. */
  lemma {:induction false} TransitiveDependenciesAreOpen(eff: Graph, reg: Registry, libs: Libraries, rank: Name -> nat,
      n: Name, m: Name)
    requires Reflects(eff, reg, libs) && AllConsistent(reg, rank) && Ranked(eff, rank)
    requires IsOpen(reg, n) && Reaches(eff, rank, n, m)
    ensures IsOpen(reg, m) && reg[m].missing == {}
    decreases rank(n)
  {
    assert Consistent(reg[n], n, reg, rank);
    if m != n {
      var d :| d in eff[n] && Reaches(eff, rank, d, m);
      TransitiveDependenciesAreOpen(eff, reg, libs, rank, d, m);
    }
  }

  /** A class can be opened exactly when nothing it reaches is missing its library. */
  lemma {:induction false} CanOpenIffNothingMissing(eff: Graph, rank: Name -> nat, n: Name)
    requires Ranked(eff, rank)
    ensures CanOpen(eff, rank, n) <==> forall m :: Reaches(eff, rank, n, m) ==> m in eff
    decreases rank(n)
  {
    assert Reaches(eff, rank, n, n);
    if n in eff {
      forall d | d in eff[n]
        ensures CanOpen(eff, rank, d) <==> forall m :: Reaches(eff, rank, d, m) ==> m in eff
      {
        CanOpenIffNothingMissing(eff, rank, d);
      }
      if CanOpen(eff, rank, n) {
        forall m | Reaches(eff, rank, n, m) ensures m in eff {
          if m != n {
            var d :| d in eff[n] && Reaches(eff, rank, d, m);
          }
        }
      } else {
        var d :| d in eff[n] && !CanOpen(eff, rank, d);
        var m :| Reaches(eff, rank, d, m) && m !in eff;
        assert Reaches(eff, rank, n, m);
      }
    }
  }

  // ---------------------------------------------------------------------------
  // What one load may change

  ghost predicate Grows(before: Registry, after: Registry) {
    && before.Keys <= after.Keys
    && forall n :: IsOpen(before, n) ==> IsOpen(after, n)
  }

  /** Loading n changes, besides n, only classes that rank below it, and adds only such. */
  ghost predicate Below(before: Registry, after: Registry, rank: Name -> nat, n: Name) {
    && (forall m :: m in before && m != n && rank(m) >= rank(n) ==> m in after && after[m] == before[m])
    && (forall m :: m in after && m !in before ==> rank(m) < rank(n))
  }

  ghost predicate Progress(before: Registry, after: Registry, rank: Name -> nat, n: Name) {
    Grows(before, after) && Below(before, after, rank, n)
  }

  ghost predicate Sound(reg: Registry, libs: Libraries, eff: Graph, rank: Name -> nat) {
    AllConsistent(reg, rank) && Reflects(eff, reg, libs)
  }

  predicate InClassList(cname: Name, list: seq<Name>) { cname in list || Name("*") in list }

  function Names(names: seq<Name>): set<Name> { set d | d in names }

  function NotOpen(reg: Registry, names: seq<Name>): set<Name> { set d | d in names && !IsOpen(reg, d) }

  /** After the declared dependencies of n have been registered. */
  predicate Registered(before: Registry, after: Registry, n: Name, names: seq<Name>) {
    && n in before && after.Keys == before.Keys + Names(names)
    && (forall m :: m in before && m != n ==> after[m] == before[m])
    && (forall m :: m in after && m !in before ==> after[m] == NEW_CLASS)
    && after[n] == before[n].(deps := Names(names), missing := NotOpen(before, names))
  }

  lemma RegisteredOne(before: Registry, mid: Registry, after: Registry, n: Name, names: seq<Name>, d: Name)
    requires Registered(before, mid, n, names) && n != d && before[n].status != Open
    requires var m := if d in mid then mid else mid[d := NEW_CLASS];
      after == m[n := m[n].(
        deps := m[n].deps + {d},
        missing := if m[d].status != Open then m[n].missing + {d} else m[n].missing)]
    ensures Registered(before, after, n, names + [d])
  {
    assert Names(names + [d]) == Names(names) + {d};
    assert NotOpen(before, names + [d]) == NotOpen(before, names) + if IsOpen(before, d) then {} else {d};
  }

  ghost predicate JustLoaded(before: Registry, after: Registry, libs: Libraries, n: Name) {
    && n in before && n in libs.deps && !before[n].loaded && before[n].deps == before[n].missing == {} &&
      before[n].status != Open
    && Registered(before[n := before[n].(loaded := true)], after, n, libs.deps[n])
  }

  lemma LoadedGrows(before: Registry, after: Registry, libs: Libraries, rank: Name -> nat, n: Name)
    requires JustLoaded(before, after, libs, n) && Acyclic(libs, rank)
    ensures Grows(before, after) && Below(before, after, rank, n) && after[n].loaded &&
      after[n].status == before[n].status
    ensures forall m :: IsOpen(after, m) ==> IsOpen(before, m)
    ensures SettledBelow(before, rank, rank(n)) ==> SettledBelow(after, rank, rank(n))
  {
  }

  lemma LoadedReflects(before: Registry, after: Registry, libs: Libraries, eff: Graph, n: Name)
    requires JustLoaded(before, after, libs, n) && Reflects(eff, before, libs)
    ensures Reflects(eff, after, libs)
  {
    assert after[n].loaded && after[n].deps == Names(libs.deps[n]) == eff[n];
    assert forall m :: m in after && m != n && after[m].loaded ==> m in before && after[m] == before[m];
  }

  lemma LoadedConsistent(before: Registry, after: Registry, libs: Libraries, rank: Name -> nat, n: Name)
    requires JustLoaded(before, after, libs, n) && AllConsistent(before, rank) && Acyclic(libs, rank)
    ensures AllConsistent(after, rank)
  {
    LoadedGrows(before, after, libs, rank, n);
    forall m | m in after ensures Consistent(after[m], m, after, rank) {
      if m == n {
        forall d | d in after[n].deps
          ensures d in after && rank(d) < rank(n) && (d !in after[n].missing ==> IsOpen(after, d))
        {
          assert d in libs.deps[n];
        }
      } else if m in before {
        assert Consistent(before[m], m, before, rank);
      }
    }
  }

  /** Changing the status of one class that is not open. */
  lemma StatusKeeps(before: Registry, libs: Libraries, eff: Graph, rank: Name -> nat, n: Name, status: Status)
    requires Sound(before, libs, eff, rank) && n in before && before[n].status != Open
    requires status == Missing || (before[n].loaded &&
      (status == MissingDeps || (status == Open && before[n].missing == {})))
    ensures var after := before[n := before[n].(status := status)];
      && Sound(after, libs, eff, rank) && Progress(before, after, rank, n)
      && (SettledBelow(before, rank, rank(n)) ==> SettledBelow(after, rank, rank(n)))
  {
    var after := before[n := before[n].(status := status)];
    assert forall m :: IsOpen(before, m) ==> IsOpen(after, m);
    forall m | m in after ensures Consistent(after[m], m, after, rank) {
      assert Consistent(before[m], m, before, rank);
    }
  }

  /** One dependency less is missing once it is open. */
  lemma SatisfiedKeeps(before: Registry, libs: Libraries, eff: Graph, rank: Name -> nat, n: Name, d: Name)
    requires Sound(before, libs, eff, rank) && n in before && before[n].status != Open && IsOpen(before, d)
    ensures var after := before[n := before[n].(missing := before[n].missing - {d})];
      && Sound(after, libs, eff, rank) && Progress(before, after, rank, n)
      && (SettledBelow(before, rank, rank(n)) ==> SettledBelow(after, rank, rank(n)))
  {
    var after := before[n := before[n].(missing := before[n].missing - {d})];
    assert forall m :: IsOpen(before, m) ==> IsOpen(after, m);
    forall m | m in after ensures Consistent(after[m], m, after, rank) {
      assert Consistent(before[m], m, before, rank);
    }
  }

  /** A load of a lower class is part of the load of n. */
  lemma ProgressTransitive(a: Registry, b: Registry, c: Registry, rank: Name -> nat, n: Name, d: Name)
    requires Progress(a, b, rank, n) && Progress(b, c, rank, d) && (d == n || rank(d) < rank(n))
    ensures Progress(a, c, rank, n)
  {
  }

  /** Loading a dependency leaves everything below n settled. */
  lemma SettledAbove(before: Registry, after: Registry, rank: Name -> nat, n: Name, d: Name)
    requires SettledBelow(before, rank, rank(n)) && Progress(before, after, rank, d) &&
      SettledBelow(after, rank, rank(d) + 1)
    ensures SettledBelow(after, rank, rank(n))
  {
    forall m | m in after && rank(m) < rank(n) ensures Settled(after[m]) {
      if rank(m) > rank(d) {
        assert m in before && after[m] == before[m];
      }
    }
  }

  /** Once n itself is settled again, so is everything of its rank. */
  lemma SettledAgain(before: Registry, after: Registry, rank: Name -> nat, n: Name)
    requires SettledBelow(before, rank, rank(n) + 1) && Progress(before, after, rank, n) &&
      SettledBelow(after, rank, rank(n))
    requires n in after && Settled(after[n])
    ensures SettledBelow(after, rank, rank(n) + 1)
  {
    forall m | m in after && rank(m) < rank(n) + 1 ensures Settled(after[m]) {
      if m != n && rank(m) == rank(n) {
        assert m in before && after[m] == before[m];
      }
    }
  }

  lemma SettledEverywhere(before: Registry, after: Registry, rank: Name -> nat, n: Name)
    requires ValidRegistry(before, rank) && Progress(before, after, rank, n)
    requires AllConsistent(after, rank) && SettledBelow(after, rank, rank(n) + 1)
    ensures ValidRegistry(after, rank)
  {
    forall m | m in after ensures Settled(after[m]) {
      if rank(m) > rank(n) {
        assert m in before && after[m] == before[m];
      }
    }
  }

  lemma NewClassReflects(before: Registry, after: Registry, libs: Libraries, eff: Graph, n: Name)
    requires Reflects(eff, before, libs) && after == if n in before then before else before[n := NEW_CLASS]
    ensures Reflects(eff, after, libs) && Grows(before, after)
  {
  }

  lemma NewClassKeeps(before: Registry, after: Registry, rank: Name -> nat, n: Name)
    requires ValidRegistry(before, rank) && after == if n in before then before else before[n := NEW_CLASS]
    ensures ValidRegistry(after, rank)
  {
    forall m | m in after ensures Consistent(after[m], m, after, rank) {
      if m in before {
        assert Consistent(before[m], m, before, rank);
      }
    }
  }

  class ClassHandler {
    var classes: Registry
    ghost const rank: Name -> nat

    ghost predicate Valid() reads this { ValidRegistry(classes, rank) }

    constructor (ghost rank: Name -> nat)
      ensures Valid() && classes == map[] && this.rank == rank
    {
      classes := map[];
      this.rank := rank;
    }

    /** _get_class without the check: registers a name seen for the first time. */
    method GetClass(n: Name)
      modifies this
      ensures classes == if n in old(classes) then old(classes) else old(classes)[n := NEW_CLASS]
    {
      if n !in classes {
        classes := classes[n := NEW_CLASS];
      }
    }

    /** The dependencies a library declares are registered as classes of their own. */
    method ReadDependencies(n: Name, names: seq<Name>)
      requires n in classes && classes[n].deps == classes[n].missing == {} && classes[n].status != Open && n !in names
      modifies this
      ensures Registered(old(classes), classes, n, names)
    {
      for k := 0 to |names|
        invariant Registered(old(classes), classes, n, names[..k])
      {
        var d := names[k];
        ghost var before := classes;
        GetClass(d);
        var c := classes[n];
        classes := classes[n := c.(
          deps := c.deps + {d},
          missing := if classes[d].status != Open then c.missing + {d} else c.missing)];
        assert names[..k + 1] == names[..k] + [d];
        RegisteredOne(old(classes), before, classes, n, names[..k], d);
      }
      assert names[..|names|] == names;
    }

    /** _load_class. */
    method LoadClass(n: Name, libs: Libraries, ghost eff: Graph) returns (r: int)
      requires Acyclic(libs, rank) && Errors(libs) && Ranked(eff, rank)
      requires n in classes && Sound(classes, libs, eff, rank) && SettledBelow(classes, rank, rank(n) + 1)
      modifies this
      ensures Sound(classes, libs, eff, rank) && SettledBelow(classes, rank, rank(n) + 1)
      ensures Progress(old(classes), classes, rank, n)
      ensures r <= 0 && (r == 0 <==> IsOpen(classes, n)) && (r == 0 <==> CanOpen(eff, rank, n))
      ensures r < 0 ==> Blames(eff, rank, libs, n, r)
      decreases rank(n), 2
    {
      if classes[n].status == Open {
        OpenCanOpen(eff, classes, libs, rank, n);
        return 0;
      }
      ghost var before := classes;
      if (classes[n].status == Unknown || classes[n].status == Missing) && n !in libs.deps {
        StatusKeeps(classes, libs, eff, rank, n, Missing);
        classes := classes[n := classes[n].(status := Missing)];
        assert Reaches(eff, rank, n, n);
        SettledAgain(before, classes, rank, n);
        return libs.error(n);
      }
      if classes[n].status == Unknown || classes[n].status == Missing {
        Attach(n, libs, eff);
      }
      r := ResolveDependencies(n, libs, eff, before);
      if r == 0 {
        StatusKeeps(classes, libs, eff, rank, n, Open);
        ProgressTransitive(before, classes, classes[n := classes[n].(status := Open)], rank, n, n);
        classes := classes[n := classes[n].(status := Open)];
        OpenCanOpen(eff, classes, libs, rank, n);
      }
      SettledAgain(before, classes, rank, n);
    }

    /** open_class. */
    method OpenClass(cname: Name, list: seq<Name>, libs: Libraries) returns (r: int)
      requires Valid() && Acyclic(libs, rank) && Errors(libs)
      modifies this
      ensures Valid() && Grows(old(classes), classes) && r <= 0
      ensures r == 0 <==> IsOpen(classes, cname)
      ensures cname !in old(classes) && cname !in list && Name("*") !in list ==> r == -1 && classes == old(classes)
      ensures Ranked(Effective(old(classes), libs), rank)
      ensures cname in old(classes) || cname in list || Name("*") in list ==>
        && (r == 0 <==> CanOpen(Effective(old(classes), libs), rank, cname))
        && (r < 0 ==> Blames(Effective(old(classes), libs), rank, libs, cname, r))
    {
      ghost var eff := Effective(classes, libs);
      RankedFromParts(eff, classes, libs, rank);
      if cname !in classes && !InClassList(cname, list) {
        return -EPERM;
      }
      GetClass(cname);
      ghost var before := classes;
      NewClassKeeps(old(classes), before, rank, cname);
      NewClassReflects(old(classes), before, libs, eff, cname);
      if classes[cname].status != Open {
        r := LoadClass(cname, libs, eff);
        SettledEverywhere(before, classes, rank, cname);
      } else {
        OpenCanOpen(eff, classes, libs, rank, cname);
        r := 0;
      }
    }

    /** dlopen has succeeded: keeps the handle and reads the dependencies declared. */
    method Attach(n: Name, libs: Libraries, ghost eff: Graph)
      requires Acyclic(libs, rank) && Sound(classes, libs, eff, rank) && SettledBelow(classes, rank, rank(n) + 1)
      requires n in classes && n in libs.deps && (classes[n].status == Unknown || classes[n].status == Missing)
      modifies this
      ensures Sound(classes, libs, eff, rank) && SettledBelow(classes, rank, rank(n)) &&
        Progress(old(classes), classes, rank, n)
      ensures n in classes && classes[n].loaded && classes[n].status == old(classes)[n].status
    {
      assert Consistent(classes[n], n, classes, rank);
      ghost var before := classes;
      classes := classes[n := classes[n].(loaded := true)];
      ReadDependencies(n, libs.deps[n]);
      LoadedGrows(before, classes, libs, rank, n);
      LoadedReflects(before, classes, libs, eff, n);
      LoadedConsistent(before, classes, libs, rank, n);
    }

    /** The loop of _load_class over the missing dependencies. */
    method ResolveDependencies(n: Name, libs: Libraries, ghost eff: Graph, ghost start: Registry) returns (r: int)
      requires Acyclic(libs, rank) && Errors(libs) && Ranked(eff, rank)
      requires Sound(classes, libs, eff, rank) && SettledBelow(classes, rank, rank(n)) &&
        Progress(start, classes, rank, n)
      requires n in classes && classes[n].loaded && classes[n].status != Open
      modifies this
      ensures Sound(classes, libs, eff, rank) && SettledBelow(classes, rank, rank(n)) &&
        Progress(start, classes, rank, n)
      ensures n in classes && classes[n].loaded &&
        classes[n].status == (if r == 0 then old(classes)[n].status else MissingDeps)
      ensures r <= 0 && (r == 0 ==> classes[n].missing == {})
      ensures r < 0 ==> !CanOpen(eff, rank, n) && Blames(eff, rank, libs, n, r)
      decreases rank(n), 1
    {
      while classes[n].missing != {}
        invariant Sound(classes, libs, eff, rank) && SettledBelow(classes, rank, rank(n)) &&
          Progress(start, classes, rank, n)
        invariant n in classes && classes[n].loaded && classes[n].status == old(classes)[n].status
        decreases if n in classes then |classes[n].missing| else 0
      {
        var d :| d in classes[n].missing;
        r := ResolveOne(n, d, libs, eff, start);
        if r < 0 {
          return;
        }
      }
      r := 0;
    }

    /** One round of that loop. */
    method ResolveOne(n: Name, d: Name, libs: Libraries, ghost eff: Graph, ghost start: Registry) returns (r: int)
      requires Acyclic(libs, rank) && Errors(libs) && Ranked(eff, rank)
      requires Sound(classes, libs, eff, rank) && SettledBelow(classes, rank, rank(n)) &&
        Progress(start, classes, rank, n)
      requires n in classes && classes[n].loaded && classes[n].status != Open && d in classes[n].missing
      modifies this
      ensures Sound(classes, libs, eff, rank) && SettledBelow(classes, rank, rank(n)) &&
        Progress(start, classes, rank, n)
      ensures n in classes && r <= 0
      ensures r == 0 ==> classes[n] == old(classes[n]).(missing := old(classes[n]).missing - {d})
      ensures r == 0 ==> |classes[n].missing| < old(|classes[n].missing|)
      ensures r < 0 ==> classes[n] == old(classes[n]).(status := MissingDeps) && !CanOpen(eff, rank, n)
      ensures r < 0 ==> Blames(eff, rank, libs, n, r)
      decreases rank(n), 0
    {
      ghost var before := classes;
      assert Consistent(classes[n], n, classes, rank);
      r := LoadClass(d, libs, eff);
      ghost var mid := classes;
      SettledAbove(before, mid, rank, n, d);
      ProgressTransitive(start, before, mid, rank, n, d);
      if r < 0 {
        StatusKeeps(classes, libs, eff, rank, n, MissingDeps);
        classes := classes[n := classes[n].(status := MissingDeps)];
        BlamesUp(eff, rank, libs, n, d, r);
      } else {
        SatisfiedKeeps(classes, libs, eff, rank, n, d);
        classes := classes[n := classes[n].(missing := classes[n].missing - {d})];
      }
      ProgressTransitive(start, mid, classes, rank, n, n);
    }
  }

  /** The error is that of a class without a library among those n needs. */
  ghost predicate Blames(eff: Graph, rank: Name -> nat, libs: Libraries, n: Name, r: int)
    requires Ranked(eff, rank)
  {
    exists m :: Reaches(eff, rank, n, m) && m !in eff && r == libs.error(m)
  }

  lemma BlamesUp(eff: Graph, rank: Name -> nat, libs: Libraries, n: Name, d: Name, r: int)
    requires Ranked(eff, rank) && n in eff && d in eff[n] && Blames(eff, rank, libs, d, r)
    ensures Blames(eff, rank, libs, n, r)
  {
    var m :| Reaches(eff, rank, d, m) && m !in eff && r == libs.error(m);
    assert Reaches(eff, rank, n, m);
  }
}
