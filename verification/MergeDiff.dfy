/** The comparison of two indices: both are read in step, and every package is reported as
lost, found, or compared with its counterpart. */
module MergeDiff {
  import opened Strings
  import opened StringTable
  import opened Versions
  import opened Packages
  import opened Wrappers

  /** compare_catname, reduced to its sign. */
  function CompareCatname(a: PackageData, b: PackageData): (r: int)
    ensures -1 <= r <= 1
  {
    var i := StrCompare(a.category, b.category);
    if i == 0 then StrCompare(a.name, b.name) else i
  }

  /** What happens to packages: the callbacks, and every comparison of a pair. */
  datatype Event = Lost(p: PackageData) | Found(p: PackageData) | Compared(p: PackageData, q: PackageData, changed: bool)

  /** Package::differ: whether the best versions of two packages differ. */
  type Differ = (PackageData, PackageData) -> bool

  /** Both lists merged in their order. */
  function Merge(ps: seq<PackageData>, qs: seq<PackageData>, differ: Differ): seq<Event>
    decreases |ps| + |qs|
  {
    if ps == [] then (if qs == [] then [] else [Found(qs[0])] + Merge(ps, qs[1..], differ))
    else if qs == [] then [Lost(ps[0])] + Merge(ps[1..], qs, differ)
    else
      var c := CompareCatname(ps[0], qs[0]);
      if c == 0 then [Compared(ps[0], qs[0], differ(ps[0], qs[0]))] + Merge(ps[1..], qs[1..], differ)
      else if c < 0 then [Lost(ps[0])] + Merge(ps[1..], qs, differ)
      else [Found(qs[0])] + Merge(ps, qs[1..], differ)
  }

  function LostOf(log: seq<Event>): seq<PackageData>
  {
    if log == [] then [] else
      var rest := LostOf(log[..|log| - 1]);
      var e := log[|log| - 1];
      if e.Lost? then rest + [e.p] else rest
  }

  function FoundOf(log: seq<Event>): seq<PackageData>
  {
    if log == [] then [] else
      var rest := FoundOf(log[..|log| - 1]);
      var e := log[|log| - 1];
      if e.Found? then rest + [e.p] else rest
  }

  function ComparedOf(log: seq<Event>): seq<Event>
  {
    if log == [] then [] else
      var rest := ComparedOf(log[..|log| - 1]);
      var e := log[|log| - 1];
      if e.Compared? then rest + [e] else rest
  }

  function Losts(ps: seq<PackageData>): (r: seq<Event>)
    ensures |r| == |ps| && forall i :: 0 <= i < |ps| ==> r[i] == Lost(ps[i])
  {
    seq(|ps|, i requires 0 <= i < |ps| => Lost(ps[i]))
  }

  function Founds(ps: seq<PackageData>): (r: seq<Event>)
    ensures |r| == |ps| && forall i :: 0 <= i < |ps| ==> r[i] == Found(ps[i])
  {
    seq(|ps|, i requires 0 <= i < |ps| => Found(ps[i]))
  }

  /** The log of a run: in the order of the lists, or comparisons first, then all lost and
      then all found packages. */
  function LogOf(merged: seq<Event>, separateDeleted: bool): seq<Event>
  {
    if separateDeleted then ComparedOf(merged) + Losts(LostOf(merged)) + Founds(FoundOf(merged)) else merged
  }

  lemma ProjectionsSnoc(log: seq<Event>, e: Event)
    ensures LostOf(log + [e]) == LostOf(log) + if e.Lost? then [e.p] else []
    ensures FoundOf(log + [e]) == FoundOf(log) + if e.Found? then [e.p] else []
    ensures ComparedOf(log + [e]) == ComparedOf(log) + if e.Compared? then [e] else []
  {
    assert (log + [e])[..|log|] == log;
  }

  lemma LostsSnoc(ps: seq<PackageData>, p: PackageData)
    ensures Losts(ps + [p]) == Losts(ps) + [Lost(p)] && Founds(ps + [p]) == Founds(ps) + [Found(p)]
  {
  }

  // ---- Runs ----

  /** Everything a run changes. */
  datatype Ledger = Ledger(
    log: seq<Event>, lostList: seq<PackageData>, foundList: seq<PackageData>,
    oldDeleted: multiset<PackageData>, newDeleted: multiset<PackageData>)

  /** The books after the events `done` of the merge: a package is reported at once, or
      kept in a list for later; it is deleted when it is reported or compared. */
  ghost predicate Booked(l: Ledger, separate: bool, done: seq<Event>)
  {
    if separate then l.log == ComparedOf(done) && l.lostList == LostOf(done) && l.foundList == FoundOf(done)
    else l.log == done && l.lostList == [] && l.foundList == []
  }

  function BookCompared(l: Ledger, p: PackageData, q: PackageData, changed: bool): Ledger
  {
    l.(log := l.log + [Compared(p, q, changed)], oldDeleted := l.oldDeleted + multiset{p}, newDeleted := l.newDeleted + multiset{q})
  }

  function BookLost(l: Ledger, separate: bool, p: PackageData): Ledger
  {
    if separate then l.(lostList := l.lostList + [p])
    else l.(log := l.log + [Lost(p)], oldDeleted := l.oldDeleted + multiset{p})
  }

  function BookFound(l: Ledger, separate: bool, q: PackageData): Ledger
  {
    if separate then l.(foundList := l.foundList + [q])
    else l.(log := l.log + [Found(q)], newDeleted := l.newDeleted + multiset{q})
  }

  /** What is done and what is left make up the whole: the events of the merge, and the
      packages, each of which was deleted, is kept in a list, or is still to come. */
  ghost predicate Balanced(l: Ledger, separate: bool, differ: Differ, ps: seq<PackageData>, qs: seq<PackageData>,
                           done: seq<Event>, lo: seq<PackageData>, ln: seq<PackageData>)
  {
    && Booked(l, separate, done)
    && Merge(ps, qs, differ) == done + Merge(lo, ln, differ)
    && multiset(ps) == l.oldDeleted + multiset(l.lostList) + multiset(lo)
    && multiset(qs) == l.newDeleted + multiset(l.foundList) + multiset(ln)
  }

  lemma LostBalances(l: Ledger, separate: bool, differ: Differ, ps: seq<PackageData>, qs: seq<PackageData>,
                     done: seq<Event>, p: PackageData, lo: seq<PackageData>, ln: seq<PackageData>)
    requires Balanced(l, separate, differ, ps, qs, done, [p] + lo, ln)
    requires ln == [] || CompareCatname(p, ln[0]) < 0
    ensures Balanced(BookLost(l, separate, p), separate, differ, ps, qs, done + [Lost(p)], lo, ln)
  {
    hide CompareCatname;
    ProjectionsSnoc(done, Lost(p));
    assert ([p] + lo)[1..] == lo;
    Regroup(done, [Lost(p)], Merge(lo, ln, differ));
    assert multiset([p] + lo) == multiset{p} + multiset(lo);
  }

  lemma FoundBalances(l: Ledger, separate: bool, differ: Differ, ps: seq<PackageData>, qs: seq<PackageData>,
                      done: seq<Event>, q: PackageData, lo: seq<PackageData>, ln: seq<PackageData>)
    requires Balanced(l, separate, differ, ps, qs, done, lo, [q] + ln)
    requires lo == [] || CompareCatname(lo[0], q) > 0
    ensures Balanced(BookFound(l, separate, q), separate, differ, ps, qs, done + [Found(q)], lo, ln)
  {
    hide CompareCatname;
    ProjectionsSnoc(done, Found(q));
    assert ([q] + ln)[1..] == ln;
    Regroup(done, [Found(q)], Merge(lo, ln, differ));
    assert multiset([q] + ln) == multiset{q} + multiset(ln);
  }

  lemma ComparedBalances(l: Ledger, separate: bool, differ: Differ, ps: seq<PackageData>, qs: seq<PackageData>,
                         done: seq<Event>, p: PackageData, q: PackageData, lo: seq<PackageData>, ln: seq<PackageData>)
    requires Balanced(l, separate, differ, ps, qs, done, [p] + lo, [q] + ln) && CompareCatname(p, q) == 0
    ensures Balanced(BookCompared(l, p, q, differ(p, q)), separate, differ, ps, qs, done + [Compared(p, q, differ(p, q))], lo, ln)
  {
    hide CompareCatname, LostOf, FoundOf, ComparedOf;
    var e := Compared(p, q, differ(p, q));
    ProjectionsSnoc(done, e);
    assert ([p] + lo)[1..] == lo && ([q] + ln)[1..] == ln;
    Regroup(done, [e], Merge(lo, ln, differ));
    assert multiset([p] + lo) == multiset{p} + multiset(lo);
    assert multiset([q] + ln) == multiset{q} + multiset(ln);
  }

  class DiffReaders {
    /** What the readers will still deliver. */
    var oldRest: seq<PackageData>
    var newRest: seq<PackageData>
    const differ: Differ
    const separateDeleted: bool
    var oldRead: bool
    var newRead: bool
    var oldPkg: Option<PackageData>
    var newPkg: Option<PackageData>
    var lostList: seq<PackageData>
    var foundList: seq<PackageData>
    /** Events so far, and packages that were deleted. */
    var log: seq<Event>
    var oldDeleted: multiset<PackageData>
    var newDeleted: multiset<PackageData>

    constructor (ps: seq<PackageData>, qs: seq<PackageData>, differ: Differ, separateDeleted: bool)
      ensures oldRest == ps && newRest == qs && this.differ == differ && this.separateDeleted == separateDeleted
      ensures Books() == Ledger([], [], [], multiset{}, multiset{})
    {
      oldRest, newRest, this.differ, this.separateDeleted := ps, qs, differ, separateDeleted;
      oldRead, newRead, oldPkg, newPkg := true, true, None, None;
      lostList, foundList, log, oldDeleted, newDeleted := [], [], [], multiset{}, multiset{};
    }

    function Books(): Ledger
      reads this
    {
      Ledger(log, lostList, foundList, oldDeleted, newDeleted)
    }

    /** next() and release() of the old reader; an error ends it as well. */
    method DoReadOld() returns (ok: bool)
      requires !oldRead ==> oldRest == []
      modifies this`oldRest, this`oldRead, this`oldPkg
      ensures !oldRead ==> oldRest == []
      ensures ok <==> old(oldRest) != []
      ensures if ok then oldPkg == Some(old(oldRest)[0]) && oldRest == old(oldRest)[1..]
              else oldRest == [] && oldPkg == old(oldPkg)
    {
      if oldRead {
        if oldRest != [] {
          oldPkg, oldRest := Some(oldRest[0]), oldRest[1..];
          return true;
        }
        oldRead := false;
      }
      return false;
    }

    method DoReadNew() returns (ok: bool)
      requires !newRead ==> newRest == []
      modifies this`newRest, this`newRead, this`newPkg
      ensures !newRead ==> newRest == []
      ensures ok <==> old(newRest) != []
      ensures if ok then newPkg == Some(old(newRest)[0]) && newRest == old(newRest)[1..]
              else newRest == [] && newPkg == old(newPkg)
    {
      if newRead {
        if newRest != [] {
          newPkg, newRest := Some(newRest[0]), newRest[1..];
          return true;
        }
        newRead := false;
      }
      return false;
    }

    /** The callback is called only for a pair that differs. */
    method HandleEqualPackages()
      requires oldPkg.Some? && newPkg.Some?
      modifies this`log, this`oldDeleted, this`newDeleted
      ensures Books() == BookCompared(old(Books()), oldPkg.value, newPkg.value, differ(oldPkg.value, newPkg.value))
    {
      log := log + [Compared(oldPkg.value, newPkg.value, differ(oldPkg.value, newPkg.value))];
      oldDeleted, newDeleted := oldDeleted + multiset{oldPkg.value}, newDeleted + multiset{newPkg.value};
    }

    method HandleOldPackage()
      requires oldPkg.Some?
      modifies this`log, this`oldDeleted, this`lostList
      ensures Books() == BookLost(old(Books()), separateDeleted, oldPkg.value)
    {
      if separateDeleted {
        lostList := lostList + [oldPkg.value];
      } else {
        log, oldDeleted := log + [Lost(oldPkg.value)], oldDeleted + multiset{oldPkg.value};
      }
    }

    method HandleNewPackage()
      requires newPkg.Some?
      modifies this`log, this`newDeleted, this`foundList
      ensures Books() == BookFound(old(Books()), separateDeleted, newPkg.value)
    {
      if separateDeleted {
        foundList := foundList + [newPkg.value];
      } else {
        log, newDeleted := log + [Found(newPkg.value)], newDeleted + multiset{newPkg.value};
      }
    }

    ghost predicate ReadingOld() reads this { !oldRead ==> oldRest == [] }

    ghost predicate ReadingNew() reads this { !newRead ==> newRest == [] }

    ghost predicate Reading() reads this { ReadingOld() && ReadingNew() }

    /** What is left of the old packages: a pending one, if it was the greater, and the rest. */
    ghost function LeftOld(compare: int): seq<PackageData>
      reads this
    {
      (if compare > 0 && oldPkg.Some? then [oldPkg.value] else []) + oldRest
    }

    ghost function LeftNew(compare: int): seq<PackageData>
      reads this
    {
      (if compare < 0 && newPkg.Some? then [newPkg.value] else []) + newRest
    }

    ghost predicate Progress(ps: seq<PackageData>, qs: seq<PackageData>, done: seq<Event>, lo: seq<PackageData>, ln: seq<PackageData>)
      reads this
    {
      Balanced(Books(), separateDeleted, differ, ps, qs, done, lo, ln)
    }

    /** One package or pair of packages that were read. */
    method HandlePair(ghost ps: seq<PackageData>, ghost qs: seq<PackageData>, ghost done: seq<Event>)
      returns (compare: int, ghost doneAfter: seq<Event>)
      requires oldPkg.Some? && newPkg.Some?
      requires Progress(ps, qs, done, [oldPkg.value] + oldRest, [newPkg.value] + newRest)
      modifies this`log, this`oldDeleted, this`newDeleted, this`lostList, this`foundList
      ensures Progress(ps, qs, doneAfter, LeftOld(compare), LeftNew(compare))
    {
      hide Balanced, CompareCatname, BookCompared, BookLost, BookFound;
      assert [] + oldRest == oldRest && [] + newRest == newRest;
      compare := CompareCatname(oldPkg.value, newPkg.value);
      if compare == 0 {
        ComparedBalances(Books(), separateDeleted, differ, ps, qs, done, oldPkg.value, newPkg.value, oldRest, newRest);
        HandleEqualPackages();
        doneAfter := done + [Compared(oldPkg.value, newPkg.value, differ(oldPkg.value, newPkg.value))];
      } else if compare < 0 {
        LostBalances(Books(), separateDeleted, differ, ps, qs, done, oldPkg.value, oldRest, [newPkg.value] + newRest);
        HandleOldPackage();
        doneAfter := done + [Lost(oldPkg.value)];
      } else {
        FoundBalances(Books(), separateDeleted, differ, ps, qs, done, newPkg.value, [oldPkg.value] + oldRest, newRest);
        HandleNewPackage();
        doneAfter := done + [Found(newPkg.value)];
      }
    }

    /** Reads in step until one of the readers ends. */
    method ReadInStep(ghost ps: seq<PackageData>, ghost qs: seq<PackageData>) returns (prevCompare: int, ghost done: seq<Event>)
      requires Reading() && Progress(ps, qs, [], oldRest, newRest)
      modifies this
      ensures Reading() && Progress(ps, qs, done, LeftOld(prevCompare), LeftNew(prevCompare))
      ensures if prevCompare <= 0 then oldRest == [] && (prevCompare < 0 ==> newPkg.Some?)
              else newRest == [] && oldPkg.Some?
    {
      hide Balanced;
      prevCompare, done := 0, [];
      assert [] + oldRest == oldRest && [] + newRest == newRest;
      while true
        invariant Reading() && Progress(ps, qs, done, LeftOld(prevCompare), LeftNew(prevCompare))
        invariant (prevCompare > 0 ==> oldPkg.Some?) && (prevCompare < 0 ==> newPkg.Some?)
        decreases |oldRest| + |newRest|
      {
        ghost var lo, ln := LeftOld(prevCompare), LeftNew(prevCompare);
        if prevCompare <= 0 {
          var ok := DoReadOld();
          if !ok { break; }
        }
        assert lo == [oldPkg.value] + oldRest;
        if prevCompare >= 0 {
          var ok := DoReadNew();
          if !ok {
            assert ln == [] == [] + newRest;
            prevCompare := 1;
            break;
          }
        }
        assert ln == [newPkg.value] + newRest;
        prevCompare, done := HandlePair(ps, qs, done);
      }
    }

    /** A package that was read when the other reader ended. */
    method HandlePending(prevCompare: int, ghost ps: seq<PackageData>, ghost qs: seq<PackageData>, ghost done: seq<Event>)
      returns (ghost doneAfter: seq<Event>)
      requires Progress(ps, qs, done, LeftOld(prevCompare), LeftNew(prevCompare))
      requires if prevCompare <= 0 then oldRest == [] && (prevCompare < 0 ==> newPkg.Some?) else newRest == [] && oldPkg.Some?
      modifies this`log, this`oldDeleted, this`newDeleted, this`lostList, this`foundList
      ensures Progress(ps, qs, doneAfter, oldRest, newRest) && (oldRest == [] || newRest == [])
    {
      hide Balanced, BookLost, BookFound;
      doneAfter := done;
      assert [] + oldRest == oldRest && [] + newRest == newRest;
      if prevCompare != 0 {
        if prevCompare < 0 {
          FoundBalances(Books(), separateDeleted, differ, ps, qs, done, newPkg.value, oldRest, newRest);
          HandleNewPackage();
          doneAfter := done + [Found(newPkg.value)];
        } else {
          LostBalances(Books(), separateDeleted, differ, ps, qs, done, oldPkg.value, oldRest, newRest);
          HandleOldPackage();
          doneAfter := done + [Lost(oldPkg.value)];
        }
      }
    }

    method FlushLost()
      modifies this`log, this`oldDeleted, this`lostList
      ensures log == old(log) + Losts(old(lostList)) && lostList == []
      ensures oldDeleted == old(oldDeleted) + multiset(old(lostList))
    {
      assert Losts([]) == [];
      for i := 0 to |lostList|
        invariant lostList == old(lostList)
        invariant log == old(log) + Losts(lostList[..i]) && oldDeleted == old(oldDeleted) + multiset(lostList[..i])
      {
        assert lostList[..i + 1] == lostList[..i] + [lostList[i]];
        LostsSnoc(lostList[..i], lostList[i]);
        log, oldDeleted := log + [Lost(lostList[i])], oldDeleted + multiset{lostList[i]};
      }
      assert lostList[..|lostList|] == lostList;
      lostList := [];
    }

    method FlushFound()
      modifies this`log, this`newDeleted, this`foundList
      ensures log == old(log) + Founds(old(foundList)) && foundList == []
      ensures newDeleted == old(newDeleted) + multiset(old(foundList))
    {
      assert Founds([]) == [];
      for i := 0 to |foundList|
        invariant foundList == old(foundList)
        invariant log == old(log) + Founds(foundList[..i]) && newDeleted == old(newDeleted) + multiset(foundList[..i])
      {
        assert foundList[..i + 1] == foundList[..i] + [foundList[i]];
        LostsSnoc(foundList[..i], foundList[i]);
        log, newDeleted := log + [Found(foundList[i])], newDeleted + multiset{foundList[i]};
      }
      assert foundList[..|foundList|] == foundList;
      foundList := [];
    }

    method DrainOld()
      requires ReadingOld()
      modifies this`log, this`oldDeleted, this`oldRest, this`oldRead, this`oldPkg
      ensures log == old(log) + Losts(old(oldRest)) && oldDeleted == old(oldDeleted) + multiset(old(oldRest))
      ensures ReadingOld() && oldRest == []
    {
      hide DrainingOld;
      ghost var l, d := log + Losts(oldRest), oldDeleted + multiset(oldRest);
      DrainStarts(log, oldDeleted, oldRest);
      HeadAndTail(oldRest);
      var ok := DoReadOld();
      while ok
        invariant ReadingOld() && (if ok then oldPkg.Some? else oldRest == [])
        invariant DrainingOld(log, oldDeleted, if ok then [oldPkg.value] + oldRest else [], l, d)
        decreases if ok then |oldRest| + 1 else 0
      {
        DrainStep(log, oldDeleted, oldPkg.value, oldRest, l, d);
        log, oldDeleted := log + [Lost(oldPkg.value)], oldDeleted + multiset{oldPkg.value};
        HeadAndTail(oldRest);
        ok := DoReadOld();
      }
      DrainEnds(log, oldDeleted, l, d);
    }

    method DrainNew()
      requires ReadingNew()
      modifies this`log, this`newDeleted, this`newRest, this`newRead, this`newPkg
      ensures log == old(log) + Founds(old(newRest)) && newDeleted == old(newDeleted) + multiset(old(newRest))
      ensures ReadingNew() && newRest == []
    {
      hide DrainingNew;
      ghost var l, d := log + Founds(newRest), newDeleted + multiset(newRest);
      DrainStarts(log, newDeleted, newRest);
      HeadAndTail(newRest);
      var ok := DoReadNew();
      while ok
        invariant ReadingNew() && (if ok then newPkg.Some? else newRest == [])
        invariant DrainingNew(log, newDeleted, if ok then [newPkg.value] + newRest else [], l, d)
        decreases if ok then |newRest| + 1 else 0
      {
        DrainStep(log, newDeleted, newPkg.value, newRest, l, d);
        log, newDeleted := log + [Found(newPkg.value)], newDeleted + multiset{newPkg.value};
        HeadAndTail(newRest);
        ok := DoReadNew();
      }
      DrainEnds(log, newDeleted, l, d);
    }

    /** The lost packages that were kept for later, and those that were not read yet. */
    method FinishOld()
      requires ReadingOld() && (!separateDeleted ==> lostList == [])
      modifies this`log, this`oldDeleted, this`lostList, this`oldRest, this`oldRead, this`oldPkg
      ensures log == old((log + Losts(lostList)) + Losts(oldRest))
      ensures oldDeleted == old((oldDeleted + multiset(lostList)) + multiset(oldRest))
      ensures oldRest == lostList == []
    {
      hide Losts;
      NothingKept(log);
      if separateDeleted { FlushLost(); }
      DrainOld();
    }

    method FinishNew()
      requires ReadingNew() && (!separateDeleted ==> foundList == [])
      modifies this`log, this`newDeleted, this`foundList, this`newRest, this`newRead, this`newPkg
      ensures log == old((log + Founds(foundList)) + Founds(newRest))
      ensures newDeleted == old((newDeleted + multiset(foundList)) + multiset(newRest))
      ensures newRest == foundList == []
    {
      hide Founds;
      NothingKept(log);
      if separateDeleted { FlushFound(); }
      DrainNew();
    }

    /** What is left when one reader has ended. */
    method Finish()
      requires Reading() && (!separateDeleted ==> lostList == [] && foundList == [])
      modifies this
      ensures log == old((((log + Losts(lostList)) + Losts(oldRest)) + Founds(foundList)) + Founds(newRest))
      ensures oldDeleted == old((oldDeleted + multiset(lostList)) + multiset(oldRest))
      ensures newDeleted == old((newDeleted + multiset(foundList)) + multiset(newRest))
      ensures oldRest == newRest == lostList == foundList == []
    {
      hide Losts, Founds;
      FinishOld();
      FinishNew();
    }

    /** The whole comparison: the merge of both lists, in the order asked for, and every
        package is deleted once. */
    method Diff()
      requires Books() == Ledger([], [], [], multiset{}, multiset{})
      modifies this
      ensures log == LogOf(Merge(old(oldRest), old(newRest), differ), separateDeleted)
      ensures oldDeleted == multiset(old(oldRest)) && newDeleted == multiset(old(newRest))
      ensures oldRest == newRest == lostList == foundList == []
    {
      hide Balanced, LogOf, Merge, LostOf, FoundOf, ComparedOf, Losts, Founds, Booked;
      oldRead, newRead := true, true;
      ghost var ps, qs := oldRest, newRest;
      BalancedAtStart(separateDeleted, differ, ps, qs);
      var prevCompare, done := ReadInStep(ps, qs);
      done := HandlePending(prevCompare, ps, qs, done);
      BalancedAtEnd(Books(), separateDeleted, differ, ps, qs, done, oldRest, newRest);
      Finish();
    }
  }

  /** What is reported and deleted so far, and what is left, make up `l` and `d`. */
  ghost predicate DrainingOld(log: seq<Event>, deleted: multiset<PackageData>, rem: seq<PackageData>, l: seq<Event>, d: multiset<PackageData>)
  {
    l == log + Losts(rem) && d == deleted + multiset(rem)
  }

  ghost predicate DrainingNew(log: seq<Event>, deleted: multiset<PackageData>, rem: seq<PackageData>, l: seq<Event>, d: multiset<PackageData>)
  {
    l == log + Founds(rem) && d == deleted + multiset(rem)
  }

  lemma DrainStarts(log: seq<Event>, deleted: multiset<PackageData>, rem: seq<PackageData>)
    ensures DrainingOld(log, deleted, rem, log + Losts(rem), deleted + multiset(rem))
    ensures DrainingNew(log, deleted, rem, log + Founds(rem), deleted + multiset(rem))
  {
  }

  lemma DrainStep(log: seq<Event>, deleted: multiset<PackageData>, p: PackageData, rest: seq<PackageData>,
                  l: seq<Event>, d: multiset<PackageData>)
    ensures DrainingOld(log, deleted, [p] + rest, l, d) ==> DrainingOld(log + [Lost(p)], deleted + multiset{p}, rest, l, d)
    ensures DrainingNew(log, deleted, [p] + rest, l, d) ==> DrainingNew(log + [Found(p)], deleted + multiset{p}, rest, l, d)
  {
    assert Losts([p] + rest) == [Lost(p)] + Losts(rest) && Founds([p] + rest) == [Found(p)] + Founds(rest);
    Regroup(log, [Lost(p)], Losts(rest));
    Regroup(log, [Found(p)], Founds(rest));
    assert multiset([p] + rest) == multiset{p} + multiset(rest);
  }

  lemma HeadAndTail(ps: seq<PackageData>)
    ensures ps != [] ==> [ps[0]] + ps[1..] == ps
  {
  }

  lemma DrainEnds(log: seq<Event>, deleted: multiset<PackageData>, l: seq<Event>, d: multiset<PackageData>)
    ensures DrainingOld(log, deleted, [], l, d) ==> log == l && deleted == d
    ensures DrainingNew(log, deleted, [], l, d) ==> log == l && deleted == d
  {
    NothingKept(log);
  }

  lemma NothingKept(log: seq<Event>)
    ensures log + Losts([]) == log && log + Founds([]) == log
  {
  }

  lemma BalancedAtStart(separate: bool, differ: Differ, ps: seq<PackageData>, qs: seq<PackageData>)
    ensures Balanced(Ledger([], [], [], multiset{}, multiset{}), separate, differ, ps, qs, [], ps, qs)
  {
    assert [] + Merge(ps, qs, differ) == Merge(ps, qs, differ);
  }

  lemma {:induction false} MergeTail(ps: seq<PackageData>, qs: seq<PackageData>, differ: Differ)
    requires ps == [] || qs == []
    ensures Merge(ps, qs, differ) == Losts(ps) + Founds(qs)
    decreases |ps| + |qs|
  {
    if ps != [] {
      MergeTail(ps[1..], qs, differ);
    } else if qs != [] {
      MergeTail(ps, qs[1..], differ);
    }
  }

  lemma {:induction false} ProjectionsOfLosts(done: seq<Event>, ps: seq<PackageData>)
    ensures LostOf(done + Losts(ps)) == LostOf(done) + ps
    ensures FoundOf(done + Losts(ps)) == FoundOf(done) && ComparedOf(done + Losts(ps)) == ComparedOf(done)
  {
    var n := |ps| - 1;
    if ps == [] {
      assert done + Losts(ps) == done && LostOf(done) + ps == LostOf(done);
    } else {
      hide LostOf, FoundOf, ComparedOf;
      ProjectionsOfLosts(done, ps[..n]);
      assert ps == ps[..n] + [ps[n]];
      LostsSnoc(ps[..n], ps[n]);
      assert done + Losts(ps) == (done + Losts(ps[..n])) + [Lost(ps[n])];
      ProjectionsSnoc(done + Losts(ps[..n]), Lost(ps[n]));
    }
  }

  lemma {:induction false} ProjectionsOfFounds(done: seq<Event>, qs: seq<PackageData>)
    ensures FoundOf(done + Founds(qs)) == FoundOf(done) + qs
    ensures LostOf(done + Founds(qs)) == LostOf(done) && ComparedOf(done + Founds(qs)) == ComparedOf(done)
  {
    var n := |qs| - 1;
    if qs == [] {
      assert done + Founds(qs) == done && FoundOf(done) + qs == FoundOf(done);
    } else {
      hide LostOf, FoundOf, ComparedOf;
      ProjectionsOfFounds(done, qs[..n]);
      assert qs == qs[..n] + [qs[n]];
      LostsSnoc(qs[..n], qs[n]);
      assert done + Founds(qs) == (done + Founds(qs[..n])) + [Found(qs[n])];
      ProjectionsSnoc(done + Founds(qs[..n]), Found(qs[n]));
    }
  }

  /** When one reader has ended, what is left is reported from the books and the rest. */
  lemma BalancedAtEnd(l: Ledger, separate: bool, differ: Differ, ps: seq<PackageData>, qs: seq<PackageData>,
                      done: seq<Event>, lo: seq<PackageData>, ln: seq<PackageData>)
    requires Balanced(l, separate, differ, ps, qs, done, lo, ln) && (lo == [] || ln == [])
    ensures LogOf(Merge(ps, qs, differ), separate)
         == (((l.log + Losts(l.lostList)) + Losts(lo)) + Founds(l.foundList)) + Founds(ln)
    ensures multiset(ps) == (l.oldDeleted + multiset(l.lostList)) + multiset(lo)
    ensures multiset(qs) == (l.newDeleted + multiset(l.foundList)) + multiset(ln)
    ensures !separate ==> l.lostList == [] && l.foundList == []
  {
    hide LostOf, FoundOf, ComparedOf, Merge;
    MergeTail(lo, ln, differ);
    ProjectionsOfLosts(done, lo);
    ProjectionsOfFounds(done + Losts(lo), ln);
    Regroup(done, Losts(lo), Founds(ln));
    assert Losts([]) == [] && Founds([]) == [];
    if separate {
      assert Losts(LostOf(done) + lo) == Losts(LostOf(done)) + Losts(lo);
      assert Founds(FoundOf(done) + ln) == Founds(FoundOf(done)) + Founds(ln);
      Regroup5(l.log, Losts(l.lostList), Losts(lo), Founds(l.foundList), Founds(ln));
    } else {
      assert l.log + Losts(l.lostList) == l.log;
    }
  }

  lemma Regroup5<T>(a: seq<T>, b: seq<T>, c: seq<T>, d: seq<T>, e: seq<T>)
    ensures a + (b + c) + (d + e) == (((a + b) + c) + d) + e
  {
  }

  // ---- The merge of sorted lists is the difference of sets ----

  /** Categories are ordered as texts, and names within a category. */
  ghost predicate Earlier(a: PackageData, b: PackageData)
  {
    TextBefore(a.category, b.category) || (a.category == b.category && TextBefore(a.name, b.name))
  }

  lemma CatnameIsDictionary(a: PackageData, b: PackageData)
    ensures CompareCatname(a, b) < 0 <==> Earlier(a, b)
  {
    hide StrCompare, TextBefore;
    StrCompareIsDictionary(a.category, b.category);
    StrCompareIsDictionary(a.name, b.name);
    StrAntisymmetric(a.category, b.category);
  }

  /** Every package stands before all later ones. */
  ghost predicate Ordered(ps: seq<PackageData>)
  {
    forall i, j :: 0 <= i < j < |ps| ==> Earlier(ps[i], ps[j])
  }

  lemma OrderedIsSorted(ps: seq<PackageData>)
    ensures Ordered(ps) <==> StrictlySorted(ps)
  {
    hide Earlier, CompareCatname;
    forall i, j | 0 <= i < j < |ps| ensures Earlier(ps[i], ps[j]) <==> CompareCatname(ps[i], ps[j]) < 0 {
      CatnameIsDictionary(ps[i], ps[j]);
    }
  }

  /** The same, by the comparison of the program. */
  ghost predicate StrictlySorted(ps: seq<PackageData>)
  {
    forall i, j :: 0 <= i < j < |ps| ==> CompareCatname(ps[i], ps[j]) < 0
  }

  lemma CatnameOrder(a: PackageData, b: PackageData, c: PackageData)
    ensures CompareCatname(b, a) == -CompareCatname(a, b) && CompareCatname(a, a) == 0
    ensures CompareCatname(a, b) < 0 && CompareCatname(b, c) <= 0 ==> CompareCatname(a, c) < 0
    ensures CompareCatname(a, b) <= 0 && CompareCatname(b, c) < 0 ==> CompareCatname(a, c) < 0
    ensures CompareCatname(a, b) == 0 <==> a.category == b.category && a.name == b.name
  {
    hide StrCompare;
    StrAntisymmetric(a.category, b.category);
    StrAntisymmetric(a.category, a.category);
    StrAntisymmetric(b.category, c.category);
    StrAntisymmetric(a.category, c.category);
    StrAntisymmetric(a.name, b.name);
    StrAntisymmetric(a.name, a.name);
    StrAntisymmetric(b.name, c.name);
    StrAntisymmetric(a.name, c.name);
    if StrCompare(a.category, b.category) <= 0 && StrCompare(b.category, c.category) <= 0 {
      StrTransitive(a.category, b.category, c.category);
    }
    if StrCompare(a.name, b.name) <= 0 && StrCompare(b.name, c.name) <= 0 { StrTransitive(a.name, b.name, c.name); }
  }

  /** Something before the head of a sorted list is before all of it. */
  lemma BeforeAll(p: PackageData, qs: seq<PackageData>)
    requires StrictlySorted(qs) && (qs != [] ==> CompareCatname(p, qs[0]) <= 0)
    ensures forall i :: 1 <= i < |qs| ==> CompareCatname(p, qs[i]) < 0 && CompareCatname(qs[i], p) > 0
    ensures qs != [] && CompareCatname(p, qs[0]) < 0 ==> CompareCatname(qs[0], p) > 0
  {
    hide CompareCatname;
    forall i | 1 <= i < |qs| ensures CompareCatname(p, qs[i]) < 0 && CompareCatname(qs[i], p) > 0 {
      assert CompareCatname(qs[0], qs[i]) < 0;
      CatnameOrder(p, qs[0], qs[i]);
      CatnameOrder(p, qs[i], p);
    }
    if qs != [] { CatnameOrder(p, qs[0], p); }
  }

  predicate SameCatname(p: PackageData, q: PackageData) { p.category == q.category && p.name == q.name }

  /** What a report must mean. */
  ghost predicate RightEvent(ps: seq<PackageData>, qs: seq<PackageData>, differ: Differ, e: Event)
  {
    match e
    case Lost(p) => p in ps && forall q :: q in qs ==> !SameCatname(p, q)
    case Found(q) => q in qs && forall p :: p in ps ==> !SameCatname(p, q)
    case Compared(p, q, changed) => p in ps && q in qs && SameCatname(p, q) && changed == differ(p, q)
  }

  lemma HeadIn(ps: seq<PackageData>)
    requires ps != []
    ensures forall p :: p in ps <==> p == ps[0] || p in ps[1..]
  {
    assert ps == [ps[0]] + ps[1..];
  }

  lemma InIndex(ps: seq<PackageData>, p: PackageData) returns (i: nat)
    requires p in ps
    ensures i < |ps| && ps[i] == p
  {
    i :| i < |ps| && ps[i] == p;
  }

  /** If the old head is before the new head, no new package is its counterpart. */
  lemma LostStep(ps: seq<PackageData>, qs: seq<PackageData>, differ: Differ, e: Event)
    requires StrictlySorted(ps) && StrictlySorted(qs) && ps != []
    requires qs != [] ==> CompareCatname(ps[0], qs[0]) < 0
    ensures RightEvent(ps, qs, differ, e) <==> e == Lost(ps[0]) || RightEvent(ps[1..], qs, differ, e)
    ensures !RightEvent(ps[1..], qs, differ, Lost(ps[0]))
  {
    hide CompareCatname;
    HeadIn(ps);
    BeforeAll(ps[0], qs);
    NotAgain(ps);
    forall q | q in qs ensures !SameCatname(ps[0], q) {
      var i := InIndex(qs, q);
      CatnameOrder(ps[0], q, ps[0]);
    }
  }

  lemma NotAgain(ps: seq<PackageData>)
    requires StrictlySorted(ps) && ps != []
    ensures ps[0] !in ps[1..]
  {
    forall p | p in ps[1..] ensures p != ps[0] {
      var i := InIndex(ps[1..], p);
      assert CompareCatname(ps[0], ps[i + 1]) < 0;
      CatnameOrder(ps[0], ps[0], ps[0]);
    }
  }

  lemma FoundStep(ps: seq<PackageData>, qs: seq<PackageData>, differ: Differ, e: Event)
    requires StrictlySorted(ps) && StrictlySorted(qs) && qs != []
    requires ps != [] ==> CompareCatname(ps[0], qs[0]) > 0
    ensures RightEvent(ps, qs, differ, e) <==> e == Found(qs[0]) || RightEvent(ps, qs[1..], differ, e)
    ensures !RightEvent(ps, qs[1..], differ, Found(qs[0]))
  {
    hide CompareCatname;
    HeadIn(qs);
    if ps != [] { CatnameOrder(ps[0], qs[0], ps[0]); }
    BeforeAll(qs[0], ps);
    NotAgain(qs);
    forall p | p in ps ensures !SameCatname(p, qs[0]) {
      var i := InIndex(ps, p);
      CatnameOrder(p, qs[0], p);
    }
  }

  lemma ComparedStep(ps: seq<PackageData>, qs: seq<PackageData>, differ: Differ, e: Event)
    requires StrictlySorted(ps) && StrictlySorted(qs) && ps != [] && qs != [] && CompareCatname(ps[0], qs[0]) == 0
    ensures RightEvent(ps, qs, differ, e) <==>
      e == Compared(ps[0], qs[0], differ(ps[0], qs[0])) || RightEvent(ps[1..], qs[1..], differ, e)
    ensures !RightEvent(ps[1..], qs[1..], differ, Compared(ps[0], qs[0], differ(ps[0], qs[0])))
  {
    hide CompareCatname;
    HeadIn(ps);
    HeadIn(qs);
    CatnameOrder(ps[0], qs[0], ps[0]);
    BeforeAll(ps[0], qs);
    BeforeAll(qs[0], ps);
    NotAgain(ps);
    NotAgain(qs);
    forall q | q in qs[1..] ensures !SameCatname(ps[0], q) {
      var i := InIndex(qs[1..], q);
      CatnameOrder(ps[0], q, ps[0]);
    }
    forall p | p in ps[1..] ensures !SameCatname(p, qs[0]) {
      var i := InIndex(ps[1..], p);
      CatnameOrder(p, qs[0], p);
    }
  }

  lemma TailSorted(ps: seq<PackageData>)
    requires StrictlySorted(ps) && ps != []
    ensures StrictlySorted(ps[1..])
  {
  }

  /** For ordered lists the reports are exactly the right ones: a package is lost if and only
      if it has no counterpart, found if and only if it is new, and every common pair is
      compared. */
  lemma MergeIsDifference(ps: seq<PackageData>, qs: seq<PackageData>, differ: Differ, e: Event)
    requires Ordered(ps) && Ordered(qs)
    ensures e in Merge(ps, qs, differ) <==> RightEvent(ps, qs, differ, e)
  {
    OrderedIsSorted(ps);
    OrderedIsSorted(qs);
    MergeEvents(ps, qs, differ, e);
  }

  lemma {:induction false} MergeEvents(ps: seq<PackageData>, qs: seq<PackageData>, differ: Differ, e: Event)
    requires StrictlySorted(ps) && StrictlySorted(qs)
    ensures e in Merge(ps, qs, differ) <==> RightEvent(ps, qs, differ, e)
    decreases |ps| + |qs|
  {
    hide CompareCatname, RightEvent, StrictlySorted;
    if ps != [] { TailSorted(ps); }
    if qs != [] { TailSorted(qs); }
    if ps == [] && qs == [] {
      NothingRight(differ, e);
    } else if ps != [] && (qs == [] || CompareCatname(ps[0], qs[0]) < 0) {
      LostStep(ps, qs, differ, e);
      MergeEvents(ps[1..], qs, differ, e);
    } else if qs != [] && (ps == [] || CompareCatname(ps[0], qs[0]) > 0) {
      FoundStep(ps, qs, differ, e);
      MergeEvents(ps, qs[1..], differ, e);
    } else {
      ComparedStep(ps, qs, differ, e);
      MergeEvents(ps[1..], qs[1..], differ, e);
    }
  }

  lemma NothingRight(differ: Differ, e: Event)
    ensures !RightEvent([], [], differ, e)
  {
  }

  /** All of the packages are behind `p`. */
  ghost predicate Behind(p: PackageData, ps: seq<PackageData>)
  {
    forall q :: q in ps ==> CompareCatname(p, q) < 0
  }

  lemma SortedIsBehind(p: PackageData, ps: seq<PackageData>)
    requires StrictlySorted(ps) && (ps != [] ==> CompareCatname(p, ps[0]) < 0)
    ensures Behind(p, ps)
  {
    hide CompareCatname;
    BeforeAll(p, ps);
    forall q | q in ps ensures CompareCatname(p, q) < 0 { var i := InIndex(ps, q); }
  }

  lemma HeadIsFirst(ps: seq<PackageData>)
    requires StrictlySorted(ps) && ps != []
    ensures Behind(ps[0], ps[1..])
  {
    hide CompareCatname;
    forall q | q in ps[1..] ensures CompareCatname(ps[0], q) < 0 { var i := InIndex(ps[1..], q); }
  }

  ghost predicate InOrder(r: seq<Event>)
  {
    forall i, j :: 0 <= i < j < |r| ==> Earlier(r[i].p, r[j].p)
  }

  /** A report in front of the rest. */
  lemma FrontEvent(e: Event, ps: seq<PackageData>, qs: seq<PackageData>, differ: Differ)
    requires StrictlySorted(ps) && StrictlySorted(qs) && Behind(e.p, ps) && Behind(e.p, qs) && InOrder(Merge(ps, qs, differ))
    ensures InOrder([e] + Merge(ps, qs, differ))
  {
    hide CompareCatname, Earlier, StrictlySorted, Merge;
    var rest := Merge(ps, qs, differ);
    var r := [e] + rest;
    forall i, j | 0 <= i < j < |r| ensures Earlier(r[i].p, r[j].p) {
      if i > 0 {
        assert r[i] == rest[i - 1] && r[j] == rest[j - 1];
      } else {
        assert r[j] == rest[j - 1] && rest[j - 1] in rest;
        MergeEvents(ps, qs, differ, r[j]);
        assert r[j].p in ps || r[j].p in qs;
        CatnameIsDictionary(e.p, r[j].p);
      }
    }
  }

  lemma {:induction false} SortedMergeInOrder(ps: seq<PackageData>, qs: seq<PackageData>, differ: Differ)
    requires StrictlySorted(ps) && StrictlySorted(qs)
    ensures InOrder(Merge(ps, qs, differ))
    decreases |ps| + |qs|
  {
    hide CompareCatname, StrictlySorted, InOrder, Behind;
    if ps != [] { TailSorted(ps); HeadIsFirst(ps); }
    if qs != [] { TailSorted(qs); HeadIsFirst(qs); }
    if ps == [] && qs == [] {
      NothingInOrder();
    } else if ps != [] && (qs == [] || CompareCatname(ps[0], qs[0]) < 0) {
      SortedIsBehind(ps[0], qs);
      SortedMergeInOrder(ps[1..], qs, differ);
      FrontEvent(Lost(ps[0]), ps[1..], qs, differ);
    } else if qs != [] && (ps == [] || CompareCatname(ps[0], qs[0]) > 0) {
      if ps != [] { CatnameOrder(ps[0], qs[0], ps[0]); }
      SortedIsBehind(qs[0], ps);
      SortedMergeInOrder(ps, qs[1..], differ);
      FrontEvent(Found(qs[0]), ps, qs[1..], differ);
    } else {
      SameHead(ps[0], qs[0], qs[1..]);
      SortedMergeInOrder(ps[1..], qs[1..], differ);
      FrontEvent(Compared(ps[0], qs[0], differ(ps[0], qs[0])), ps[1..], qs[1..], differ);
    }
  }

  lemma SameHead(p: PackageData, q: PackageData, qs: seq<PackageData>)
    requires CompareCatname(p, q) == 0 && Behind(q, qs)
    ensures Behind(p, qs)
  {
    hide CompareCatname;
    forall x | x in qs ensures CompareCatname(p, x) < 0 { CatnameOrder(p, q, x); }
  }

  lemma NothingInOrder()
    ensures InOrder([])
  {
  }

  /** The reports come in the order of their packages; so none is made twice. */
  lemma EventsAreOrdered(ps: seq<PackageData>, qs: seq<PackageData>, differ: Differ)
    requires Ordered(ps) && Ordered(qs)
    ensures InOrder(Merge(ps, qs, differ)) && Distinct(Merge(ps, qs, differ))
  {
    hide Earlier, StrictlySorted, Merge;
    OrderedIsSorted(ps);
    OrderedIsSorted(qs);
    SortedMergeInOrder(ps, qs, differ);
    forall p ensures !Earlier(p, p) { CatnameIsDictionary(p, p); CatnameOrder(p, p, p); }
  }

  /** Reporting deletions separately only reorders the reports. */
  lemma SeparateReorders(merged: seq<Event>)
    ensures multiset(LogOf(merged, true)) == multiset(LogOf(merged, false))
  {
    hide LostOf, FoundOf, ComparedOf;
    PartsOfLog(merged);
  }

  lemma {:induction false} PartsOfLog(log: seq<Event>)
    ensures multiset(log) == multiset(ComparedOf(log)) + multiset(Losts(LostOf(log))) + multiset(Founds(FoundOf(log)))
  {
    if log == [] {
      assert Losts([]) == [] && Founds([]) == [];
    } else {
      var n := |log| - 1;
      PartsOfLog(log[..n]);
      assert log == log[..n] + [log[n]];
      if log[n].Lost? { LostsSnoc(LostOf(log[..n]), log[n].p); }
      if log[n].Found? { LostsSnoc(FoundOf(log[..n]), log[n].p); }
    }
  }

  /** Compared pairs come first, then the lost packages, then the found ones. */
  function Turn(e: Event): nat { match e case Compared(_, _, _) => 0 case Lost(_) => 1 case Found(_) => 2 }

  /** With separate lists the reports come in three groups, each in the order of the merge. */
  lemma SeparateGroups(merged: seq<Event>)
    ensures var r := LogOf(merged, true);
      && (forall i, j :: 0 <= i < j < |r| ==> Turn(r[i]) <= Turn(r[j]))
      && LostOf(r) == LostOf(merged) && FoundOf(r) == FoundOf(merged) && ComparedOf(r) == ComparedOf(merged)
  {
    hide LostOf, FoundOf, ComparedOf;
    var c, l, f := ComparedOf(merged), LostOf(merged), FoundOf(merged);
    OnlyCompared(merged);
    ProjectionsOfLosts(c, l);
    ProjectionsOfFounds(c + Losts(l), f);
    assert [] + l == l && [] + f == f;
  }

  lemma {:induction false} OnlyCompared(log: seq<Event>)
    ensures var c := ComparedOf(log);
      (forall i :: 0 <= i < |c| ==> c[i].Compared?) && ComparedOf(c) == c && LostOf(c) == [] && FoundOf(c) == []
  {
    if log != [] {
      var n := |log| - 1;
      OnlyCompared(log[..n]);
      if log[n].Compared? { ProjectionsSnoc(ComparedOf(log[..n]), log[n]); }
    }
  }
}
