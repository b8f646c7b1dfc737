/** The states of a lazy reader that runs over the packages of an index: which bytes it
has consumed, how much of the current package it has, and where the next one starts. */
module PackageCursor {
  import opened NumberCodec
  import opened Strings
  import opened Packages
  import opened IndexFormat
  import opened IndexRoundTrip
  import opened Wrappers

  /** How much of a package was read: nothing, then name, description, homepage,
      license, versions; 7 means that all is done. */
  type Level = n: nat | n <= 5 || n == 7

  const NONE: Level := 0
  const NAME: Level := 1
  const DESCRIPTION: Level := 2
  const HOMEPAGE: Level := 3
  const LICENSE: Level := 4
  const VERSIONS: Level := 5
  const ALL: Level := 7

  /** Counters of the reader have 64 bits. */
  const COUNTER_MAX := 0xFFFF_FFFF_FFFF_FFFF

  function Decrement(n: nat): (r: nat)
  {
    if n == 0 then COUNTER_MAX else n - 1
  }

  datatype Cursor = Cursor(
    pos: nat, frames: nat, catSize: nat, catName: string, next: nat, have: Level, pkg: PackageData)

  /** What next() says: no more packages, an error, or a package. */
  datatype Found = End | Error | Package(cursor: Cursor)

  const NO_PACKAGE := PackageData([], [], [], [], [], [])

  function Start(pos: nat, frames: nat): Cursor
  {
    Cursor(pos, frames, 0, [], 0, NONE, NO_PACKAGE)
  }

  /** Enters categories until one has a package. */
  function Next(file: string, c: Cursor): Found
    decreases c.frames
  {
    if c.catSize == 0 then
      if c.frames == 0 then End
      else
        match DecCategoryHeader(file, c.pos)
        case Fail => Error
        case Got(cat, q) => Next(file, c.(pos := q, frames := c.frames - 1, catName := cat.0, catSize := cat.1))
    else
      match DecNum(file, c.pos)
      case Fail => Error
      case Got(len, q) =>
        Package(c.(pos := q, catSize := c.catSize - 1, next := q + len, have := NONE,
                   pkg := PackageData(c.catName, [], [], [], [], [])))
  }

  /** Reads the one field that comes next. */
  function Advance(h: Header, wanted: Flags, file: string, c: Cursor): Option<Cursor>
    requires c.have < VERSIONS
  {
    if c.have == NONE then
      match DecString(file, c.pos)
      case Fail => None
      case Got(s, q) => Some(c.(pos := q, have := NAME, pkg := c.pkg.(name := s)))
    else if c.have == NAME then
      match DecString(file, c.pos)
      case Fail => None
      case Got(s, q) => Some(c.(pos := q, have := DESCRIPTION, pkg := c.pkg.(desc := s)))
    else if c.have == DESCRIPTION then
      match DecString(file, c.pos)
      case Fail => None
      case Got(s, q) => Some(c.(pos := q, have := HOMEPAGE, pkg := c.pkg.(homepage := s)))
    else if c.have == HOMEPAGE then
      match DecWordAt(h.tables.license, file, c.pos)
      case Fail => None
      case Got(s, q) => Some(c.(pos := q, have := LICENSE, pkg := c.pkg.(licenses := s)))
    else
      match DecVector(DecVersion(h, wanted), file, c.pos)
      case Fail => None
      case Got(vs, q) => Some(c.(pos := q, have := VERSIONS, pkg := c.pkg.(versions := InsertAll(vs))))
  }

  /** Reads every field up to a level that is not there yet. */
  function Read(h: Header, wanted: Flags, file: string, c: Cursor, need: Level): Option<Cursor>
    decreases VERSIONS - c.have
  {
    if c.have >= need then Some(c)
    else if c.have == VERSIONS then Some(c.(have := need))
    else
      match Advance(h, wanted, file, c)
      case None => None
      case Some(d) => Read(h, wanted, file, d, need)
  }

  /** Only seeks when the package was not read completely. */
  function Skip(c: Cursor): Cursor
  {
    if c.have != ALL then c.(pos := c.next) else c
  }

  // ---- What is still to come ----

  /** A package of the tree, with its category as it is read back. */
  datatype Item = Item(category: string, package: PackageData)

  function Items(category: string, ps: seq<PackageData>): (r: seq<Item>)
    ensures |r| == |ps| && forall i :: 0 <= i < |ps| ==> r[i] == Item(category, ps[i])
  {
    seq(|ps|, i requires 0 <= i < |ps| => Item(category, ps[i]))
  }

  /** All packages of a tree, category after category. */
  function AllItems(tree: seq<Category>): seq<Item>
  {
    if tree == [] then [] else Items(CStr(tree[0].name), tree[0].packages) + AllItems(tree[1..])
  }

  /** The package as it is read back. */
  function Canon(h: Header, wanted: Flags, i: Item): PackageData
  {
    CanonPackage(h, wanted, i.category, i.package)
  }

  /** A package of which only some fields are there. */
  function Filled(p: PackageData, have: Level): PackageData
  {
    PackageData(p.category, if have >= NAME then p.name else [], if have >= DESCRIPTION then p.desc else [],
                if have >= HOMEPAGE then p.homepage else [], if have >= LICENSE then p.licenses else [],
                if have >= VERSIONS then p.versions else [])
  }

  predicate Readable(h: Header, t: Tables, p: PackageData)
  {
    CoversPackage(t, h.stored, p) && PackageInStep(h, p)
  }

  predicate AllReadable(h: Header, t: Tables, ps: seq<PackageData>)
  {
    forall i :: 0 <= i < |ps| ==> Readable(h, t, ps[i])
  }

  predicate TreeReadable(h: Header, t: Tables, tree: seq<Category>)
  {
    forall i :: 0 <= i < |tree| ==> AllReadable(h, t, tree[i].packages)
  }

  /** The text of the packages left in a category, and of the categories after it. */
  function RestText(h: Header, t: Tables, ps: seq<PackageData>, cs: seq<Category>): string
  {
    EncList(EncPackage(t, h.stored), ps) + EncTree(t, h.stored, cs)
  }

  /** Between two packages: `ps` are left in the category, and then `cs`. */
  ghost predicate Resting(file: string, h: Header, t: Tables, c: Cursor, ps: seq<PackageData>, cs: seq<Category>, end: nat)
  {
    && Span(file, c.pos, RestText(h, t, ps, cs), end)
    && c.catSize == |ps| && c.frames == |cs|
    && AllReadable(h, t, ps) && TreeReadable(h, t, cs)
  }

  /** On a package with fields at `l`: what was read is right, and the file is positioned
      at the next field. */
  ghost predicate On(file: string, h: Header, wanted: Flags, i: Item, l: PackageLayout, c: Cursor)
  {
    && Decodes(file, h, wanted, i.package, l)
    && c.next == l.end
    && c.pos == FieldAt(l, c.have)
    && c.pkg == Filled(Canon(h, wanted, i), c.have)
  }

  function FieldAt(l: PackageLayout, have: Level): nat
  {
    if have == NONE then l.name else if have == NAME then l.desc else if have == DESCRIPTION then l.homepage
    else if have == HOMEPAGE then l.license else if have == LICENSE then l.versions else l.end
  }

  // ---- One step ----

  lemma {:induction false} EncListFront<T>(enc: T -> string, xs: seq<T>)
    requires xs != []
    ensures EncList(enc, xs) == enc(xs[0]) + EncList(enc, xs[1..])
  {
    var n := |xs| - 1;
    if n == 0 {
      assert xs[..n] == [] && xs[1..] == [];
    } else {
      EncListFront(enc, xs[..n]);
      assert xs[..n][1..] == xs[1..][..n - 1] && xs[1..][n - 1] == xs[n];
      Regroup(enc(xs[0]), EncList(enc, xs[1..][..n - 1]), enc(xs[n]));
    }
  }

  /** Entering a category. */
  lemma EnterCategory(file: string, h: Header, t: Tables, c: Cursor, cs: seq<Category>, end: nat)
    requires Resting(file, h, t, c, [], cs, end) && cs != []
    ensures var cat := cs[0];
      DecCategoryHeader(file, c.pos).Got?
      && DecCategoryHeader(file, c.pos).value == (CStr(cat.name), |cat.packages|)
      && Resting(file, h, t, c.(pos := DecCategoryHeader(file, c.pos).next, frames := c.frames - 1,
                                catName := CStr(cat.name), catSize := |cat.packages|), cat.packages, cs[1..], end)
  {
    hide Span, At, EncString, DecString, EncNum, DecNum, EncList, CStr, AllReadable;
    var cat := cs[0];
    var n, m := EncString(cat.name), EncNum(|cat.packages|);
    var l, rest := EncList(EncPackage(t, h.stored), cat.packages), EncTree(t, h.stored, cs[1..]);
    CategoryText(h, t, cs);
    var p1 := SpanSplit(file, c.pos, n, m + (l + rest), end);
    var p2 := SpanSplit(file, p1, m, l + rest, end);
    StringRoundTrip(file, c.pos, cat.name, p1);
    NumSpan(file, p1, |cat.packages|, p2);
  }

  lemma CategoryText(h: Header, t: Tables, cs: seq<Category>)
    requires cs != []
    ensures RestText(h, t, [], cs)
         == EncString(cs[0].name) + (EncNum(|cs[0].packages|)
            + (EncList(EncPackage(t, h.stored), cs[0].packages) + EncTree(t, h.stored, cs[1..])))
  {
    var n, m := EncString(cs[0].name), EncNum(|cs[0].packages|);
    var l, rest := EncList(EncPackage(t, h.stored), cs[0].packages), EncTree(t, h.stored, cs[1..]);
    EncListFront(EncCategory(t, h.stored), cs);
    assert EncList(EncPackage(t, h.stored), []) == [];
    NestCategory(n, m, l, rest);
  }

  lemma NestCategory<T>(n: seq<T>, m: seq<T>, l: seq<T>, rest: seq<T>)
    ensures [] + ((n + (m + l)) + rest) == n + (m + (l + rest))
  {
  }

  /** Entering a package: the fields are laid out behind its length, and the length leads
      to the next package. */
  lemma EnterPackage(file: string, h: Header, t: Tables, wanted: Flags, c: Cursor, ps: seq<PackageData>, cs: seq<Category>, end: nat)
    returns (l: PackageLayout)
    requires ReaderOf(h, t, h.stored, wanted) && Resting(file, h, t, c, ps, cs, end) && ps != []
    ensures Next(file, c).Package?
    ensures var d := Next(file, c).cursor;
      On(file, h, wanted, Item(c.catName, ps[0]), l, d) && d.have == NONE
      && Resting(file, h, t, d.(pos := d.next), ps[1..], cs, end)
  {
    hide Span, At, EncNum, DecNum, EncPackagePure, EncList, CStr, ReaderOf, Readable, Decodes;
    var body := EncPackagePure(t, h.stored, ps[0]);
    var rest := RestText(h, t, ps[1..], cs);
    PackageText(h, t, ps, cs);
    var p1 := SpanSplit(file, c.pos, EncNum(|body|), body + rest, end);
    var p2 := SpanSplit(file, p1, body, rest, end);
    NumSpan(file, c.pos, |body|, p1);
    SpanText(file, p1, body, p2);
    ReadableFields(h, t, ps[0]);
    l := PackageFields(file, p1, h, t, wanted, ps[0], p2);
  }

  lemma ReadableFields(h: Header, t: Tables, p: PackageData)
    requires Readable(h, t, p)
    ensures CoversPackage(t, h.stored, p) && PackageInStep(h, p)
  {
  }

  lemma PackageText(h: Header, t: Tables, ps: seq<PackageData>, cs: seq<Category>)
    requires ps != []
    ensures var body := EncPackagePure(t, h.stored, ps[0]);
      RestText(h, t, ps, cs) == EncNum(|body|) + (body + RestText(h, t, ps[1..], cs))
  {
    var body := EncPackagePure(t, h.stored, ps[0]);
    EncListFront(EncPackage(t, h.stored), ps);
    NestPackage(EncNum(|body|), body, EncList(EncPackage(t, h.stored), ps[1..]), EncTree(t, h.stored, cs));
  }

  lemma NestPackage<T>(n: seq<T>, b: seq<T>, l: seq<T>, rest: seq<T>)
    ensures ((n + b) + l) + rest == n + (b + (l + rest))
  {
  }

  // ---- next() ----

  /** The packages that are left. */
  function Left(category: string, ps: seq<PackageData>, cs: seq<Category>): seq<Item>
  {
    Items(category, ps) + AllItems(cs)
  }

  lemma LeftPackage(category: string, ps: seq<PackageData>, cs: seq<Category>)
    requires ps != []
    ensures Left(category, ps, cs) == [Item(category, ps[0])] + Left(category, ps[1..], cs)
  {
    assert Items(category, ps) == [Item(category, ps[0])] + Items(category, ps[1..]);
  }

  lemma LeftCategory(category: string, cs: seq<Category>)
    ensures Left(category, [], cs) == if cs == [] then [] else Left(CStr(cs[0].name), cs[0].packages, cs[1..])
  {
  }

  /** On the first package that was left, with the others behind it. */
  ghost predicate Visiting(file: string, h: Header, t: Tables, wanted: Flags, left: seq<Item>, c: Cursor,
                           l: PackageLayout, ps: seq<PackageData>, cs: seq<Category>, end: nat)
  {
    && left != [] && left[1..] == Left(c.catName, ps, cs)
    && On(file, h, wanted, left[0], l, c)
    && Resting(file, h, t, c.(pos := c.next), ps, cs, end)
  }

  lemma NextInCategory(file: string, h: Header, t: Tables, wanted: Flags, c: Cursor,
                       ps: seq<PackageData>, cs: seq<Category>, end: nat)
    returns (l: PackageLayout)
    requires ReaderOf(h, t, h.stored, wanted) && Resting(file, h, t, c, ps, cs, end) && ps != []
    ensures Next(file, c).Package? && Next(file, c).cursor.have == NONE
    ensures Visiting(file, h, t, wanted, Left(c.catName, ps, cs), Next(file, c).cursor, l, ps[1..], cs, end)
  {
    hide Left, On, ReaderOf, Span, AllReadable, TreeReadable, RestText;
    l := EnterPackage(file, h, t, wanted, c, ps, cs, end);
    LeftPackage(c.catName, ps, cs);
  }

  /** next() finds the first package that is left, over any number of empty categories,
      and ends exactly when none is left. */
  lemma {:induction false} NextFinds(file: string, h: Header, t: Tables, wanted: Flags, c: Cursor,
                                     ps: seq<PackageData>, cs: seq<Category>, end: nat)
    returns (l: PackageLayout, ps': seq<PackageData>, cs': seq<Category>)
    requires ReaderOf(h, t, h.stored, wanted) && Resting(file, h, t, c, ps, cs, end)
    ensures Left(c.catName, ps, cs) == [] ==> Next(file, c) == End
    ensures Left(c.catName, ps, cs) != [] ==>
      && Next(file, c).Package? && Next(file, c).cursor.have == NONE
      && Visiting(file, h, t, wanted, Left(c.catName, ps, cs), Next(file, c).cursor, l, ps', cs', end)
    decreases |cs|
  {
    hide Left, Visiting, ReaderOf, Span, AllReadable, TreeReadable, RestText;
    l, ps', cs' := PackageLayout(0, 0, 0, 0, 0, 0), [], [];
    if ps != [] {
      l := NextInCategory(file, h, t, wanted, c, ps, cs, end);
      LeftPackage(c.catName, ps, cs);
      ps', cs' := ps[1..], cs;
    } else {
      LeftCategory(c.catName, cs);
      if cs != [] {
        EnterCategory(file, h, t, c, cs, end);
        var q := DecCategoryHeader(file, c.pos).next;
        var d := c.(pos := q, frames := c.frames - 1, catName := CStr(cs[0].name), catSize := |cs[0].packages|);
        l, ps', cs' := NextFinds(file, h, t, wanted, d, cs[0].packages, cs[1..], end);
      }
    }
  }

  // ---- read() and leaving a package ----

  lemma AdvanceStep(file: string, h: Header, wanted: Flags, i: Item, l: PackageLayout, c: Cursor)
    requires On(file, h, wanted, i, l, c) && c.have < VERSIONS
    ensures Advance(h, wanted, file, c).Some?
    ensures var d := Advance(h, wanted, file, c).value;
      On(file, h, wanted, i, l, d) && d.have == c.have + 1 && d == c.(pos := d.pos, have := d.have, pkg := d.pkg)
  {
    hide CStr, DecString, DecWordAt, DecVector, InsertAll, Map;
  }

  /** One field on the way to a level. */
  lemma ReadOn(h: Header, wanted: Flags, file: string, c: Cursor, need: Level)
    requires c.have < need && c.have < VERSIONS
    ensures match Advance(h, wanted, file, c)
            case None => Read(h, wanted, file, c, need) == None
            case Some(d) => d.have == c.have + 1 && Read(h, wanted, file, c, need) == Read(h, wanted, file, d, need)
                            && (d.have == need ==> Read(h, wanted, file, d, need) == Some(d))
                            && (d.have == VERSIONS ==> Read(h, wanted, file, d, need) == Some(d.(have := need)))
  {
    hide DecString, DecWordAt, DecVector, InsertAll;
  }

  lemma ReadNothing(h: Header, wanted: Flags, file: string, c: Cursor, need: Level)
    ensures c.have >= need ==> Read(h, wanted, file, c, need) == Some(c)
    ensures c.have == VERSIONS && need == ALL ==> Read(h, wanted, file, c, need) == Some(c.(have := need))
  {
  }

  /** read() never fails on a written package, and brings exactly the level asked for. */
  lemma {:induction false} ReadStep(file: string, h: Header, wanted: Flags, i: Item, l: PackageLayout, c: Cursor, need: Level)
    requires On(file, h, wanted, i, l, c)
    ensures Read(h, wanted, file, c, need).Some?
    ensures var d := Read(h, wanted, file, c, need).value;
      On(file, h, wanted, i, l, d) && d.have == (if c.have >= need then c.have else need)
      && d == c.(pos := d.pos, have := d.have, pkg := d.pkg)
    decreases VERSIONS - c.have
  {
    hide Advance, CanonPackage, Decodes;
    if c.have < need && c.have < VERSIONS {
      AdvanceStep(file, h, wanted, i, l, c);
      ReadStep(file, h, wanted, i, l, Advance(h, wanted, file, c).value, need);
    }
  }

  /** Skipped, or read to the end and released: the reader is at the start of the next package. */
  lemma LeaveStep(file: string, h: Header, wanted: Flags, i: Item, l: PackageLayout, c: Cursor)
    requires On(file, h, wanted, i, l, c)
    ensures Skip(c).pos == c.next
    ensures Read(h, wanted, file, c, ALL).Some? && Read(h, wanted, file, c, ALL).value.pos == c.next
    ensures Read(h, wanted, file, c, ALL).value.pkg == Canon(h, wanted, i)
  {
    hide Read, CanonPackage, Decodes;
    ReadStep(file, h, wanted, i, l, c, ALL);
    var p := Canon(h, wanted, i);
    assert Filled(p, ALL) == p;
  }

  // ---- Runs of the protocol ----

  /** What a client does with one package: some reads, and then skip or release. */
  datatype Round = Round(needs: seq<Level>, release: bool)

  function ReadEach(h: Header, wanted: Flags, file: string, c: Cursor, needs: seq<Level>): Option<Cursor>
    decreases |needs|
  {
    if needs == [] then Some(c)
    else
      match Read(h, wanted, file, c, needs[0])
      case None => None
      case Some(d) => ReadEach(h, wanted, file, d, needs[1..])
  }

  /** The package as the client sees it when it leaves it, and the state after that. */
  function Leave(h: Header, wanted: Flags, file: string, c: Cursor, r: Round): Option<(PackageData, Cursor)>
  {
    match ReadEach(h, wanted, file, c, r.needs)
    case None => None
    case Some(d) =>
      if !r.release then Some((d.pkg, Skip(d)))
      else
        match Read(h, wanted, file, d, ALL)
        case None => None
        case Some(e) => Some((e.pkg, e.(pkg := NO_PACKAGE)))
  }

  datatype Result = Ended(seen: seq<PackageData>) | Broken | Going(seen: seq<PackageData>, cursor: Cursor)

  /** A client that stops at the first false of next(), or after its last round. */
  function Run(h: Header, wanted: Flags, file: string, c: Cursor, rounds: seq<Round>): Result
    decreases |rounds|
  {
    if rounds == [] then Going([], c)
    else
      match Next(file, c)
      case End => Ended([])
      case Error => Broken
      case Package(d) =>
        match Leave(h, wanted, file, d, rounds[0])
        case None => Broken
        case Some(left) =>
          match Run(h, wanted, file, left.1, rounds[1..])
          case Broken => Broken
          case Ended(seen) => Ended([left.0] + seen)
          case Going(seen, e) => Going([left.0] + seen, e)
  }

  function LevelAfter(have: Level, needs: seq<Level>): Level
    decreases |needs|
  {
    if needs == [] then have else LevelAfter(if have >= needs[0] then have else needs[0], needs[1..])
  }

  /** How much a round shows of its package. */
  function LevelOf(r: Round): Level
  {
    if r.release then ALL else LevelAfter(NONE, r.needs)
  }

  /** What the rounds show of the packages: complete packages, or the fields asked for. */
  function Views(h: Header, wanted: Flags, items: seq<Item>, rounds: seq<Round>): (r: seq<PackageData>)
    requires |rounds| <= |items|
    ensures |r| == |rounds|
    ensures forall i :: 0 <= i < |rounds| ==> r[i] == Filled(Canon(h, wanted, items[i]), LevelOf(rounds[i]))
  {
    seq(|rounds|, i requires 0 <= i < |rounds| => Filled(Canon(h, wanted, items[i]), LevelOf(rounds[i])))
  }

  lemma {:induction false} ReadEachStep(file: string, h: Header, wanted: Flags, i: Item, l: PackageLayout, c: Cursor, needs: seq<Level>)
    requires On(file, h, wanted, i, l, c)
    ensures ReadEach(h, wanted, file, c, needs).Some?
    ensures var d := ReadEach(h, wanted, file, c, needs).value;
      On(file, h, wanted, i, l, d) && d.have == LevelAfter(c.have, needs)
      && d == c.(pos := d.pos, have := d.have, pkg := d.pkg)
    decreases |needs|
  {
    hide Read, On;
    if needs != [] {
      ReadStep(file, h, wanted, i, l, c, needs[0]);
      ReadEachStep(file, h, wanted, i, l, Read(h, wanted, file, c, needs[0]).value, needs[1..]);
    }
  }

  lemma OnShows(file: string, h: Header, wanted: Flags, i: Item, l: PackageLayout, c: Cursor)
    requires On(file, h, wanted, i, l, c)
    ensures c.pkg == Filled(Canon(h, wanted, i), c.have)
  {
  }

  /** However a round reads and leaves its package, it sees what was written, and ends
      where the stored length points. */
  lemma RoundStep(file: string, h: Header, wanted: Flags, i: Item, l: PackageLayout, c: Cursor, r: Round)
    requires On(file, h, wanted, i, l, c) && c.have == NONE
    ensures Leave(h, wanted, file, c, r).Some?
    ensures var left := Leave(h, wanted, file, c, r).value;
      left.0 == Filled(Canon(h, wanted, i), LevelOf(r)) && left.1.pos == c.next
      && left.1.frames == c.frames && left.1.catSize == c.catSize && left.1.catName == c.catName
  {
    hide Read, On, Canon;
    ReadEachStep(file, h, wanted, i, l, c, r.needs);
    var d := ReadEach(h, wanted, file, c, r.needs).value;
    OnShows(file, h, wanted, i, l, d);
    LeaveStep(file, h, wanted, i, l, d);
    ReadStep(file, h, wanted, i, l, d, ALL);
    var p := Canon(h, wanted, i);
    assert Filled(p, ALL) == p;
  }

  /** Every run sees the packages in their order, each as far as it asked for, and is told
      the end exactly when it asks for one more than there are. */
  lemma {:induction false} RunSeesAll(file: string, h: Header, t: Tables, wanted: Flags, c: Cursor,
                                      ps: seq<PackageData>, cs: seq<Category>, end: nat, rounds: seq<Round>)
    requires ReaderOf(h, t, h.stored, wanted) && Resting(file, h, t, c, ps, cs, end)
    ensures var items := Left(c.catName, ps, cs);
      var run := Run(h, wanted, file, c, rounds);
      if |rounds| <= |items| then run.Going? && run.seen == Views(h, wanted, items, rounds)
      else run == Ended(Views(h, wanted, items, rounds[..|items|]))
    decreases |rounds|
  {
    hide Left, On, ReaderOf, Span, RestText, AllReadable, TreeReadable, Leave, Next, Canon;
    if rounds != [] {
      var items := Left(c.catName, ps, cs);
      var l, ps', cs' := NextFinds(file, h, t, wanted, c, ps, cs, end);
      if items != [] {
        var d := Next(file, c).cursor;
        RoundStep(file, h, wanted, items[0], l, d, rounds[0]);
        var left := Leave(h, wanted, file, d, rounds[0]).value;
        RestingMoves(file, h, t, d.(pos := d.next), left.1, ps', cs', end);
        RunSeesAll(file, h, t, wanted, left.1, ps', cs', end, rounds[1..]);
        ViewsFront(h, wanted, items, rounds);
      }
    }
  }

  lemma RestingMoves(file: string, h: Header, t: Tables, c: Cursor, d: Cursor, ps: seq<PackageData>, cs: seq<Category>, end: nat)
    requires Resting(file, h, t, c, ps, cs, end)
    requires d.pos == c.pos && d.frames == c.frames && d.catSize == c.catSize
    ensures Resting(file, h, t, d, ps, cs, end)
  {
  }

  lemma ViewsFront(h: Header, wanted: Flags, items: seq<Item>, rounds: seq<Round>)
    requires items != [] && rounds != []
    ensures |rounds| <= |items| ==>
      Views(h, wanted, items, rounds) == [Filled(Canon(h, wanted, items[0]), LevelOf(rounds[0]))] + Views(h, wanted, items[1..], rounds[1..])
    ensures |rounds| > |items| ==>
      Views(h, wanted, items, rounds[..|items|])
      == [Filled(Canon(h, wanted, items[0]), LevelOf(rounds[0]))] + Views(h, wanted, items[1..], rounds[1..][..|items| - 1])
  {
    hide Canon, Filled, LevelOf;
  }

  // ---- The whole index ----

  /** The header a reader of an index has: what it decoded, with priorities the overlays
      may have got since. */
  ghost predicate ReaderHeader(h: Header, written: Header, wanted: Flags)
  {
    |h.overlays| == |written.overlays| && h == CanonHeader(written, wanted.dep).(overlays := h.overlays)
  }

  lemma DecodedIsReader(written: Header, wanted: Flags)
    ensures ReaderHeader(CanonHeader(written, wanted.dep), written, wanted)
  {
    hide CanonOverlay, CStrs;
  }

  /** No mask is the escape byte of the number code, and no overlay key is the one right
      behind the last overlay. */
  predicate TreeFits(overlayCount: nat, tree: seq<Category>)
  {
    forall i, j, k :: 0 <= i < |tree| && 0 <= j < |tree[i].packages| && 0 <= k < |tree[i].packages[j].versions| ==>
      var v := tree[i].packages[j].versions[k];
      v.mask != MAGICNUMCHAR && v.overlayKey != overlayCount
  }

  lemma FitsIsReadable(written: Header, h: Header, tree: seq<Category>)
    requires |h.overlays| == |written.overlays| && h.stored == written.stored
    requires CoversTree(written.tables, written.stored, tree) && TreeFits(|written.overlays|, tree)
    ensures TreeReadable(h, written.tables, tree)
  {
    hide CoversVersion;
  }

  /** A written index is read back: the header, and then, for every client, all packages
      in order, each as far as the client asks for it, and then the end. */
  lemma WholeIndex(written: Header, tree: seq<Category>, wanted: Flags, minVersion: nat, h: Header, rounds: seq<Round>)
    requires written.size == |tree| && minVersion <= CURRENT_VERSION
    requires CoversTree(written.tables, written.stored, tree) && TreeFits(|written.overlays|, tree)
    requires ReaderHeader(h, written, wanted)
    ensures var file := EncHeader(written) + EncTree(written.tables, written.stored, tree);
      var items := AllItems(tree);
      var dec := DecHeader(minVersion, wanted.dep, file, 0);
      && dec == Got(CanonHeader(written, wanted.dep), |EncHeader(written)|)
      && var run := Run(h, wanted, file, Start(dec.next, h.size), rounds);
         if |rounds| <= |items| then run.Going? && run.seen == Views(h, wanted, items, rounds)
         else run == Ended(Views(h, wanted, items, rounds[..|items|]))
  {
    hide EncHeader, DecHeader, EncTree, CoversTree, TreeFits, CStr, CStrs, Run, Views, TreeReadable;
    var text := EncTree(written.tables, written.stored, tree);
    var file := EncHeader(written) + text;
    var pos := |EncHeader(written)|;
    WholeFile(EncHeader(written), text);
    HeaderRoundTrip(file, 0, minVersion, wanted.dep, written, pos);
    FitsIsReadable(written, h, tree);
    var c := Start(pos, h.size);
    NothingThenTree(h, written.tables, tree);
    assert Resting(file, h, written.tables, c, [], tree, |file|);
    LeftIsAll(tree);
    RunSeesAll(file, h, written.tables, wanted, c, [], tree, |file|, rounds);
  }

  lemma WholeFile(a: string, b: string)
    ensures Span(a + b, 0, a, |a|) && Span(a + b, |a|, b, |a + b|)
  {
  }

  lemma NothingThenTree(h: Header, t: Tables, tree: seq<Category>)
    ensures RestText(h, t, [], tree) == EncTree(t, h.stored, tree)
  {
    hide EncTree;
    assert EncList(EncPackage(t, h.stored), []) == [];
  }

  lemma LeftIsAll(tree: seq<Category>)
    ensures Left([], [], tree) == AllItems(tree)
  {
    assert Items([], []) == [];
  }

  /** Whatever a run sees, each version has the label of the overlay that its key names. */
  lemma SeenAreLabelled(h: Header, wanted: Flags, items: seq<Item>, rounds: seq<Round>)
    requires |rounds| <= |items|
    ensures forall p, v :: p in Views(h, wanted, items, rounds) && v in p.versions ==> Labelled(h, v)
  {
    hide CanonVersionOf, Labelled, InsertAll;
    var seen := Views(h, wanted, items, rounds);
    forall p, v | p in seen && v in p.versions ensures Labelled(h, v) {
      var i :| 0 <= i < |seen| && seen[i] == p;
      var read := Map(CanonVersion(h, wanted), items[i].package.versions);
      InsertAllKeeps(read);
      assert v in read;
      var j :| 0 <= j < |read| && read[j] == v;
      ReadIsLabelled(h, wanted, items[i].package.versions[j]);
    }
  }

  // ---- When the packages come back unchanged ----

  ghost predicate FaithfulCategory(h: Header, wanted: Flags, cat: Category)
  {
    forall j :: 0 <= j < |cat.packages| ==> FaithfulPackage(h, wanted, CStr(cat.name), cat.packages[j])
  }

  ghost predicate FaithfulTree(h: Header, wanted: Flags, tree: seq<Category>)
  {
    forall i :: 0 <= i < |tree| ==> FaithfulCategory(h, wanted, tree[i])
  }

  /** All packages of a tree, category after category. */
  function AllPackages(tree: seq<Category>): seq<PackageData>
  {
    if tree == [] then [] else tree[0].packages + AllPackages(tree[1..])
  }

  /** The packages are read back as they are. */
  ghost predicate ReadBack(h: Header, wanted: Flags, items: seq<Item>, ps: seq<PackageData>)
  {
    |items| == |ps| && forall i :: 0 <= i < |ps| ==> Canon(h, wanted, items[i]) == ps[i]
  }

  lemma CategoryReadBack(h: Header, wanted: Flags, cat: Category)
    ensures ReadBack(h, wanted, Items(CStr(cat.name), cat.packages), cat.packages) <==> FaithfulCategory(h, wanted, cat)
  {
    hide CanonPackage, FaithfulPackage, CStr;
    var ps := cat.packages;
    var items := Items(CStr(cat.name), ps);
    forall i | 0 <= i < |ps| ensures Canon(h, wanted, items[i]) == ps[i] <==> FaithfulPackage(h, wanted, CStr(cat.name), ps[i]) {
      PackageIdentity(h, wanted, CStr(cat.name), ps[i]);
    }
  }

  lemma ReadBackConcat(h: Header, wanted: Flags, a: seq<Item>, b: seq<Item>, ps: seq<PackageData>, qs: seq<PackageData>)
    requires |a| == |ps|
    ensures ReadBack(h, wanted, a + b, ps + qs) <==> ReadBack(h, wanted, a, ps) && ReadBack(h, wanted, b, qs)
  {
    hide Canon;
    if ReadBack(h, wanted, a + b, ps + qs) {
      forall i | 0 <= i < |ps| ensures Canon(h, wanted, a[i]) == ps[i] { assert (a + b)[i] == a[i] && (ps + qs)[i] == ps[i]; }
      forall i | 0 <= i < |qs| ensures Canon(h, wanted, b[i]) == qs[i] {
        assert (a + b)[|a| + i] == b[i] && (ps + qs)[|ps| + i] == qs[i];
      }
    }
  }

  lemma {:induction false} TreeReadBack(h: Header, wanted: Flags, tree: seq<Category>)
    ensures |AllItems(tree)| == |AllPackages(tree)|
    ensures ReadBack(h, wanted, AllItems(tree), AllPackages(tree)) <==> FaithfulTree(h, wanted, tree)
  {
    hide ReadBack, FaithfulCategory, CStr;
    if tree != [] {
      CategoryReadBack(h, wanted, tree[0]);
      TreeReadBack(h, wanted, tree[1..]);
      ReadBackConcat(h, wanted, Items(CStr(tree[0].name), tree[0].packages), AllItems(tree[1..]), tree[0].packages, AllPackages(tree[1..]));
      assert tree == [tree[0]] + tree[1..];
    } else {
      NothingReadBack(h, wanted);
    }
  }

  lemma NothingReadBack(h: Header, wanted: Flags)
    ensures ReadBack(h, wanted, [], [])
  {
  }

  /** Every package released. */
  function ReleaseAll(n: nat): (r: seq<Round>)
    ensures |r| == n && forall i :: 0 <= i < n ==> r[i] == Round([], true)
  {
    seq(n, i => Round([], true))
  }

  /** Reading an index to the end gives back exactly its packages, in order, if and only if
      they are faithful. */
  lemma FullReadReturnsTree(written: Header, tree: seq<Category>, wanted: Flags, h: Header)
    requires written.size == |tree| && CoversTree(written.tables, written.stored, tree) && TreeFits(|written.overlays|, tree)
    requires ReaderHeader(h, written, wanted)
    ensures var file := EncHeader(written) + EncTree(written.tables, written.stored, tree);
      Run(h, wanted, file, Start(|EncHeader(written)|, h.size), ReleaseAll(|AllPackages(tree)| + 1)) == Ended(AllPackages(tree))
      <==> FaithfulTree(h, wanted, tree)
  {
    hide EncHeader, DecHeader, EncTree, CoversTree, TreeFits, CStr, CStrs, Run, FaithfulTree, Canon, ReaderHeader;
    var n := |AllPackages(tree)|;
    WholeIndex(written, tree, wanted, 0, h, ReleaseAll(n + 1));
    TreeReadBack(h, wanted, tree);
    var seen := Views(h, wanted, AllItems(tree), ReleaseAll(n + 1)[..n]);
    forall i | 0 <= i < n ensures seen[i] == Canon(h, wanted, AllItems(tree)[i]) {
      assert seen[i] == Filled(Canon(h, wanted, AllItems(tree)[i]), ALL);
    }
    if ReadBack(h, wanted, AllItems(tree), AllPackages(tree)) { assert seen == AllPackages(tree); }
  }
}
