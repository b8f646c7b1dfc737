/** The lazy package reader, and the whole way of an index from a tree to a file and back. */
module LazyReader {
  import opened NumberCodec
  import opened Strings
  import opened StringTable
  import opened Packages
  import opened IndexFormat
  import opened IndexHeader
  import opened IndexDatabase
  import opened IndexRoundTrip
  import opened IndexReader
  import opened IndexWriter
  import opened Wrappers
  import C = PackageCursor

  class PackageReader {
    const db: Database
    const header: DBHeader
    /** The fields this program run is interested in. */
    const wanted: Flags
    var frames: nat
    var catSize: nat
    var catName: string
    var next: nat
    var have: C.Level
    var pkg: Package?
    var error: bool

    constructor (db: Database, hdr: DBHeader, wanted: Flags)
      ensures Valid() && State() == C.Start(db.pos, hdr.size) && pkg == null
      ensures this.db == db && header == hdr && this.wanted == wanted
    {
      this.db, header, this.wanted := db, hdr, wanted;
      frames, catSize, catName := hdr.size, 0, [];
      next, have, pkg, error := 0, C.NONE, null, false;
    }

    function State(): C.Cursor
      reads this, db, pkg
    {
      C.Cursor(db.pos, frames, catSize, catName, next, have,
               if pkg == null then C.NO_PACKAGE else pkg.View())
    }

    /** No error so far; versions are only there once they were read, and their mark is right. */
    ghost predicate Valid()
      reads this, pkg
    {
      !error && (pkg != null ==>
        (have < C.VERSIONS ==> pkg.versions == []) && pkg.haveDuplicateVersions == DuplicatesOf(pkg.versions))
    }

    /** A category that is finished or empty leads to the next one. After the last one the
        counters have wrapped around. */
    method Next() returns (ok: bool)
      requires Valid()
      modifies this, db`pos
      ensures match C.Next(db.data, old(State()))
              case End => !ok && error == old(error) && frames == catSize == C.COUNTER_MAX
              case Error => !ok && error
              case Package(c) => ok && Valid() && State() == c && pkg != null && fresh(pkg)
      decreases frames
    {
      hide DecString, DecNum;
      var done := catSize == 0;
      catSize := C.Decrement(catSize);
      if done {
        var none := frames == 0;
        frames := C.Decrement(frames);
        if none { return false; }
        var cat := ReadCategoryHeader(db);
        if cat.None? {
          error := true;
          return false;
        }
        catName, catSize := cat.value.0, cat.value.1;
        ok := Next();
        return;
      }
      var len := db.ReadNum();
      if len.None? {
        error := true;
        return false;
      }
      next := db.pos + len.value;
      have := C.NONE;
      pkg := new Package(catName);
      NoPairs();
      return true;
    }

    /** The reader has everything below `at`, and the field at `at` is read next. */
    function Having(at: C.Level): C.Cursor
      reads this, db, pkg
    {
      State().(have := at)
    }

    ghost predicate Open(at: C.Level)
      reads this, pkg
    {
      !error && pkg != null && (at < C.VERSIONS ==> pkg.versions == [])
      && pkg.haveDuplicateVersions == DuplicatesOf(pkg.versions)
    }

    /** On the way to the level `need`, where `goal` is what the whole read comes to. */
    ghost predicate Underway(goal: Option<C.Cursor>, ok: bool, at: C.Level, need: C.Level)
      reads this, db, pkg, header, header.Hashes()
    {
      if !ok then error && goal == None
      else
        && Open(at) && C.Read(header.View(), wanted, db.data, Having(at), need) == goal
        && (at == need ==> goal == Some(Having(at)))
    }

    method ReadName(ghost goal: Option<C.Cursor>, ghost need: C.Level) returns (ok: bool)
      requires Underway(goal, true, C.NONE, need) && need > C.NONE
      modifies this`error, db`pos, pkg
      ensures Underway(goal, ok, C.NAME, need) && pkg == old(pkg)
    {
      hide DecString, DecWordAt, DecVector, DuplicatesOf, C.Read;
      C.ReadOn(header.View(), wanted, db.data, Having(C.NONE), need);
      var s := db.ReadString();
      if s.None? {
        error := true;
        return false;
      }
      pkg.name := s.value;
      return true;
    }

    method ReadDescription(ghost goal: Option<C.Cursor>, ghost need: C.Level) returns (ok: bool)
      requires Underway(goal, true, C.NAME, need) && need > C.NAME
      modifies this`error, db`pos, pkg
      ensures Underway(goal, ok, C.DESCRIPTION, need) && pkg == old(pkg)
    {
      hide DecString, DecWordAt, DecVector, DuplicatesOf, C.Read;
      C.ReadOn(header.View(), wanted, db.data, Having(C.NAME), need);
      var s := db.ReadString();
      if s.None? {
        error := true;
        return false;
      }
      pkg.desc := s.value;
      return true;
    }

    method ReadHomepage(ghost goal: Option<C.Cursor>, ghost need: C.Level) returns (ok: bool)
      requires Underway(goal, true, C.DESCRIPTION, need) && need > C.DESCRIPTION
      modifies this`error, db`pos, pkg
      ensures Underway(goal, ok, C.HOMEPAGE, need) && pkg == old(pkg)
    {
      hide DecString, DecWordAt, DecVector, DuplicatesOf, C.Read;
      C.ReadOn(header.View(), wanted, db.data, Having(C.DESCRIPTION), need);
      var s := db.ReadString();
      if s.None? {
        error := true;
        return false;
      }
      pkg.homepage := s.value;
      return true;
    }

    method ReadLicense(ghost goal: Option<C.Cursor>, ghost need: C.Level) returns (ok: bool)
      requires Underway(goal, true, C.HOMEPAGE, need) && need > C.HOMEPAGE
      modifies this`error, db`pos, pkg
      ensures Underway(goal, ok, C.LICENSE, need) && pkg == old(pkg)
    {
      hide DecString, DecWordAt, DecVector, DuplicatesOf, C.Read;
      C.ReadOn(header.View(), wanted, db.data, Having(C.HOMEPAGE), need);
      var s := db.ReadHashString(header.licenseHash);
      if s.None? {
        error := true;
        return false;
      }
      pkg.licenses := s.value;
      return true;
    }

    /** The versions, each put in its place. */
    method ReadVersionList() returns (ok: bool)
      requires pkg != null && pkg.versions == [] && pkg.haveDuplicateVersions == DupNone
      modifies this`error, db`pos, pkg
      ensures match DecVector(DecVersion(header.View(), wanted), db.data, old(db.pos))
              case Fail => !ok && error
              case Got(vs, q) => ok && error == old(error) && db.pos == q
                                 && pkg.View() == old(pkg.View()).(versions := InsertAll(vs))
                                 && pkg.haveDuplicateVersions == DuplicatesOf(pkg.versions)
    {
      hide DecNum, DecVersionAt, Insert, Mark, HasPair;
      NoPairs();
      var n := db.ReadNum();
      if n.None? {
        error := true;
        return false;
      }
      ghost var start, dec := db.pos, DecVersion(header.View(), wanted);
      ghost var vs: seq<Version> := [];
      var i := 0;
      while i < n.value
        invariant i <= n.value && DecList(dec, db.data, start, i) == Got(vs, db.pos)
        invariant pkg.View() == old(pkg.View()).(versions := InsertAll(vs)) && error == old(error)
        invariant pkg.haveDuplicateVersions == DuplicatesOf(pkg.versions)
      {
        var v := ReadVersion(db, header, wanted);
        i := i + 1;
        if v.None? {
          DecListFails(dec, db.data, start, i, n.value);
          error := true;
          return false;
        }
        MarkOfInsert(pkg.versions, v.value);
        pkg.AddVersionStart(v.value);
        assert (vs + [v.value])[..|vs|] == vs;
        vs := vs + [v.value];
      }
      return true;
    }

    method ReadVersions(ghost goal: Option<C.Cursor>, ghost need: C.Level) returns (ok: bool)
      requires Underway(goal, true, C.LICENSE, need) && need > C.LICENSE
      modifies this`error, db`pos, pkg
      ensures Underway(goal, ok, C.VERSIONS, need) && pkg == old(pkg)
    {
      hide DecVector, DuplicatesOf, InsertAll, C.Read;
      NoPairs();
      C.ReadOn(header.View(), wanted, db.data, Having(C.LICENSE), need);
      ok := ReadVersionList();
    }

    /** Reads on from the field that comes next, up to the level asked for. */
    method Read(need: C.Level) returns (ok: bool)
      requires Valid() && pkg != null
      modifies this`have, this`error, db`pos, pkg
      ensures match old(C.Read(header.View(), wanted, db.data, State(), need))
              case None => !ok && error
              case Some(c) => ok && Valid() && State() == c && pkg == old(pkg)
    {
      hide C.Read, Underway, Having, State, Open, DuplicatesOf;
      ghost var goal := C.Read(header.View(), wanted, db.data, State(), need);
      if have >= need {
        HaveEnough(need);
        return true;
      }
      var at := have;
      Begin(goal, need);
      if at <= C.NONE {
        ok := ReadName(goal, need);
        at := C.NAME;
        if !ok {
          Stopped(goal, at, need);
          return;
        }
        if need == C.NAME {
          Reach(goal, at, need);
          return;
        }
      }
      if at <= C.NAME {
        ok := ReadDescription(goal, need);
        at := C.DESCRIPTION;
        if !ok {
          Stopped(goal, at, need);
          return;
        }
        if need == C.DESCRIPTION {
          Reach(goal, at, need);
          return;
        }
      }
      if at <= C.DESCRIPTION {
        ok := ReadHomepage(goal, need);
        at := C.HOMEPAGE;
        if !ok {
          Stopped(goal, at, need);
          return;
        }
        if need == C.HOMEPAGE {
          Reach(goal, at, need);
          return;
        }
      }
      if at <= C.HOMEPAGE {
        ok := ReadLicense(goal, need);
        at := C.LICENSE;
        if !ok {
          Stopped(goal, at, need);
          return;
        }
        if need == C.LICENSE {
          Reach(goal, at, need);
          return;
        }
      }
      if at <= C.LICENSE {
        ok := ReadVersions(goal, need);
        at := C.VERSIONS;
        if !ok {
          Stopped(goal, at, need);
          return;
        }
      }
      Reach(goal, at, need);
      return true;
    }

    method Reach(ghost goal: Option<C.Cursor>, ghost at: C.Level, need: C.Level)
      requires Underway(goal, true, at, need) && (at == need || (at == C.VERSIONS && need == C.ALL))
      modifies this`have
      ensures goal == Some(State()) && Valid()
    {
      hide DuplicatesOf, C.Read;
      C.ReadNothing(header.View(), wanted, db.data, Having(at), need);
      have := need;
    }

    lemma HaveEnough(need: C.Level)
      requires have >= need
      ensures C.Read(header.View(), wanted, db.data, State(), need) == Some(State())
    {
    }

    lemma Begin(goal: Option<C.Cursor>, need: C.Level)
      requires Valid() && pkg != null && have < need && goal == C.Read(header.View(), wanted, db.data, State(), need)
      ensures Underway(goal, true, have, need)
    {
    }

    lemma Stopped(goal: Option<C.Cursor>, at: C.Level, need: C.Level)
      requires Underway(goal, false, at, need)
      ensures goal == None && error
    {
    }

    /** Only seeks if needed. */
    method Skip()
      modifies db`pos
      ensures State() == C.Skip(old(State()))
    {
      if have != C.ALL { db.SeekAbs(next); }
    }

    /** Completes the package and hands it out. */
    method Release() returns (r: Package?)
      requires Valid() && pkg != null
      modifies this`have, this`error, this`pkg, db`pos, pkg
      ensures match C.Read(header.View(), wanted, db.data, old(State()), C.ALL)
              case None => r == null && error
              case Some(c) => r == old(pkg) && r.View() == c.pkg && r.haveDuplicateVersions == DuplicatesOf(r.versions)
                              && pkg == null && Valid() && State() == c.(pkg := C.NO_PACKAGE)
    {
      hide C.Read, DuplicatesOf;
      var ok := Read(C.ALL);
      if !ok { return null; }
      r := pkg;
      pkg := null;
    }
  }

  lemma NoPairs()
    ensures DuplicatesOf([]) == DupNone
  {
  }

  function After(seen: seq<PackageData>, r: C.Result): C.Result
  {
    match r
    case Ended(more) => C.Ended(seen + more)
    case Broken => C.Broken
    case Going(more, c) => C.Going(seen + more, c)
  }

  method ReadLevels(reader: PackageReader, needs: seq<C.Level>) returns (ok: bool)
    requires reader.Valid() && reader.pkg != null
    modifies reader`have, reader`error, reader.db`pos, reader.pkg
    ensures match C.ReadEach(reader.header.View(), reader.wanted, reader.db.data, old(reader.State()), needs)
            case None => !ok
            case Some(c) => ok && reader.Valid() && reader.State() == c
  {
    hide C.Read, DuplicatesOf;
    ghost var h, goal := reader.header.View(), C.ReadEach(reader.header.View(), reader.wanted, reader.db.data, reader.State(), needs);
    for i := 0 to |needs|
      invariant reader.Valid() && reader.header.View() == h && reader.pkg == old(reader.pkg)
      invariant C.ReadEach(h, reader.wanted, reader.db.data, reader.State(), needs[i..]) == goal
    {
      ok := reader.Read(needs[i]);
      assert needs[i..][1..] == needs[i + 1..];
      if !ok { return; }
    }
    return true;
  }

  /** One round of a client; None after an error. */
  method DoRound(reader: PackageReader, round: C.Round) returns (r: Option<PackageData>)
    requires reader.Valid() && reader.pkg != null
    modifies reader, reader.db`pos, reader.pkg
    ensures match C.Leave(reader.header.View(), reader.wanted, reader.db.data, old(reader.State()), round)
            case None => r == None
            case Some(left) => r == Some(left.0) && reader.Valid() && reader.State() == left.1
                               && (reader.pkg == null || reader.pkg == old(reader.pkg))
  {
    hide C.Read, C.ReadEach, DuplicatesOf;
    var ok := ReadLevels(reader, round.needs);
    if !ok { return None; }
    if round.release {
      var p := reader.Release();
      if p == null { return None; }
      return Some(p.View());
    }
    r := Some(reader.pkg.View());
    reader.Skip();
  }

  /** A client of the reader: it asks for the next package, does its round with it, and
      stops when it is told that there is none. */
  method Survey(reader: PackageReader, rounds: seq<C.Round>) returns (seen: seq<PackageData>, ended: bool, broken: bool)
    requires reader.Valid()
    modifies reader, reader.db`pos, reader.pkg
    ensures match C.Run(reader.header.View(), reader.wanted, reader.db.data, old(reader.State()), rounds)
            case Ended(all) => seen == all && ended && !broken
            case Broken => broken
            case Going(all, c) => seen == all && !ended && !broken && reader.State() == c
  {
    hide C.Leave, C.Next, DuplicatesOf;
    seen := [];
    ghost var h, w, file := reader.header.View(), reader.wanted, reader.db.data;
    ghost var goal := C.Run(h, w, file, reader.State(), rounds);
    assert rounds[0..] == rounds;
    AfterNothing(goal);
    for i := 0 to |rounds|
      invariant reader.Valid() && reader.header.View() == h && reader.db.data == file
      invariant reader.pkg == null || reader.pkg == old(reader.pkg) || fresh(reader.pkg)
      invariant After(seen, C.Run(h, w, file, reader.State(), rounds[i..])) == goal
    {
      assert rounds[i..][0] == rounds[i] && rounds[i..][1..] == rounds[i + 1..];
      var ok := reader.Next();
      if !ok { return seen, !reader.error, reader.error; }
      var p := DoRound(reader, rounds[i]);
      if p.None? { return seen, false, true; }
      AfterOne(seen, p.value, C.Run(h, w, file, reader.State(), rounds[i + 1..]));
      seen := seen + [p.value];
    }
    return seen, false, false;
  }

  lemma AfterNothing(r: C.Result)
    ensures After([], r) == r
  {
    assert forall s: seq<PackageData> :: [] + s == s;
  }

  lemma AfterOne(seen: seq<PackageData>, p: PackageData, r: C.Result)
    ensures After(seen + [p], r) == After(seen, After([p], r))
  {
    match r
    case Ended(more) => Regroup(seen, [p], more);
    case Broken =>
    case Going(more, _) => Regroup(seen, [p], more);
  }

  /** A reader with a header of its own runs over a written index: it gets the overlays and
      sets, and sees the packages in order as far as it asks. */
  method OpenAndSurvey(db: Database, ghost written: Header, ghost tree: seq<Category>, wanted: Flags, rounds: seq<C.Round>)
    returns (read: DBHeader, seen: seq<PackageData>, ended: bool)
    requires db.pos == 0 && db.data == EncHeader(written) + EncTree(written.tables, written.stored, tree)
    requires written.size == |tree| && CoversTree(written.tables, written.stored, tree) && C.TreeFits(|written.overlays|, tree)
    modifies db`pos
    ensures fresh(read) && read.View() == CanonHeader(written, wanted.dep)
    ensures var items := C.AllItems(tree);
      ended == (|rounds| > |items|)
      && seen == C.Views(CanonHeader(written, wanted.dep), wanted, items, if ended then rounds[..|items|] else rounds)
    ensures forall p, v :: p in seen && v in p.versions ==> Labelled(read.View(), v)
  {
    hide Labelled;
    hide EncHeader, DecHeader, EncTree, CoversTree, StringHash.Valid, CanonHeader, CStr, CStrs, DuplicatesOf;
    hide C.Run, C.Views, C.TreeFits, C.AllItems, C.ReaderHeader;
    C.DecodedIsReader(written, wanted);
    C.WholeIndex(written, tree, wanted, 0, CanonHeader(written, wanted.dep), rounds);
    read := new DBHeader();
    var _ := ReadHeader(db, read, 0, wanted.dep);
    var reader := new PackageReader(db, read, wanted);
    var broken;
    seen, ended, broken := Survey(reader, rounds);
    ghost var items := C.AllItems(tree);
    C.SeenAreLabelled(CanonHeader(written, wanted.dep), wanted, items, if ended then rounds[..|items|] else rounds);
  }

  /** From the tree to the file and back. It fails only for lack of room. */
  method WriteAndSurvey(room: nat, hdr: DBHeader, stored: Flags, tree: seq<Category>, wanted: Flags, rounds: seq<C.Round>)
    returns (ok: bool, read: DBHeader?, seen: seq<PackageData>, ended: bool)
    requires hdr.Valid() && C.TreeFits(|hdr.overlays|, tree)
    modifies hdr, hdr.Hashes()
    ensures Optimal(hdr.AllTables(), TreeRefs(stored, tree))
    ensures ok <==> |EncHeader(hdr.View()) + EncTree(hdr.AllTables(), stored, tree)| <= room
    ensures ok ==> read != null && read.View() == CanonHeader(hdr.View(), wanted.dep)
    ensures ok ==>
      var items := C.AllItems(tree);
      ended == (|rounds| > |items|)
      && seen == C.Views(CanonHeader(hdr.View(), wanted.dep), wanted, items, if ended then rounds[..|items|] else rounds)
    ensures ok ==> forall p, v :: p in seen && v in p.versions ==> Labelled(read.View(), v)
  {
    hide Labelled;
    hide EncHeader, DecHeader, EncTree, CoversTree, StringHash.Valid, Optimal, CanonHeader, CStr, CStrs;
    hide C.Views, C.TreeFits, C.AllItems;
    read, seen, ended := null, [], false;
    var db := new Database(room);
    ok := WriteIndex(db, hdr, stored, tree);
    if !ok { return; }
    db.SeekAbs(0);
    read, seen, ended := OpenAndSurvey(db, hdr.View(), tree, wanted, rounds);
  }
}
