/** The layout of the index file: what is written for a header and a package tree, and
what a reader makes of any text at any position. */
module IndexFormat {
  import opened NumberCodec
  import opened Strings
  import opened StringTable
  import opened Versions
  import opened Packages
  import opened Wrappers

  const MAX_TYPE := 32
  const MAGIC := "eix\n"
  const CURRENT_VERSION := 39

  datatype Overlay = Overlay(path: string, repo: string, priority: int)

  datatype Tables = Tables(
    eapi: seq<string>, license: seq<string>, keywords: seq<string>,
    iuse: seq<string>, slot: seq<string>, depend: seq<string>)

  /** Which optional fields are stored in a file, or wanted by a reader. */
  datatype Flags = Flags(dep: bool, requiredUse: bool, srcUri: bool)

  datatype Header = Header(
    size: nat, overlays: seq<Overlay>, tables: Tables, stored: Flags, worldSets: seq<string>)

  datatype Category = Category(name: string, packages: seq<PackageData>)

  // ---- Lists ----

  function EncList<T>(enc: T -> string, xs: seq<T>): string
  {
    if xs == [] then [] else EncList(enc, xs[..|xs| - 1]) + enc(xs[|xs| - 1])
  }

  function EncVector<T>(enc: T -> string, xs: seq<T>): string
  {
    EncNum(|xs|) + EncList(enc, xs)
  }

  function DecList<T>(dec: (string, nat) -> Decoded<T>, file: string, pos: nat, n: nat): Decoded<seq<T>>
  {
    if n == 0 then Got([], pos)
    else
      var (xs, q) :- DecList(dec, file, pos, n - 1);
      var (x, r) :- dec(file, q);
      Got(xs + [x], r)
  }

  function DecVector<T>(dec: (string, nat) -> Decoded<T>, file: string, pos: nat): Decoded<seq<T>>
  {
    var (n, q) :- DecNum(file, pos);
    DecList(dec, file, q, n)
  }

  function Map<T, U>(f: T -> U, xs: seq<T>): (r: seq<U>)
    ensures |r| == |xs| && forall i :: 0 <= i < |xs| ==> r[i] == f(xs[i])
  {
    seq(|xs|, i requires 0 <= i < |xs| => f(xs[i]))
  }

  // ---- Strings and table references ----

  function EncString(s: string): string { EncNum(|s|) + s }

  /** A string comes back up to its first NUL. */
  function DecString(file: string, pos: nat): Decoded<string>
  {
    var (n, q) :- DecNum(file, pos);
    if q + n <= |file| then Got(CStr(file[q..q + n]), q + n) else Fail
  }

  /** Seeking does not notice the end of the file. */
  function DecSkipString(file: string, pos: nat): Decoded<()>
  {
    var (n, q) :- DecNum(file, pos);
    Got((), q + n)
  }

  function EncWord(table: seq<string>): string -> string
  {
    w => EncNum(IndexOf(table, w))
  }

  function DecWordAt(table: seq<string>, file: string, pos: nat): Decoded<string>
  {
    var (i, q) :- DecNum(file, pos);
    if i < |table| then Got(table[i], q) else Fail
  }

  function DecWord(table: seq<string>): (string, nat) -> Decoded<string>
  {
    (file: string, pos: nat) => DecWordAt(table, file, pos)
  }

  function EncWords(table: seq<string>, ws: seq<string>): string { EncVector(EncWord(table), ws) }

  function DecWords(table: seq<string>, file: string, pos: nat): Decoded<seq<string>>
  {
    DecVector(DecWord(table), file, pos)
  }

  /** Words read into one string. */
  function DecJoined(table: seq<string>, file: string, pos: nat): Decoded<string>
  {
    var (ws, q) :- DecWords(table, file, pos);
    Got(JoinLazily(ws, " "), q)
  }

  /** Word references read and dropped, without a table. */
  function DecSkipWords(file: string, pos: nat): Decoded<()>
  {
    var (_, q) :- DecVector(DecNum, file, pos);
    Got((), q)
  }

  function EncByte(b: nat): string
    requires b < 256
  {
    [Byte(b)]
  }

  function DecByte(file: string, pos: nat): Decoded<UChar>
  {
    if pos < |file| then Got(ByteAt(file, pos), pos + 1) else Fail
  }

  // ---- Version parts ----

  /** Length and kind of a part in one number. */
  function Packed(length: nat, kind: PartType): nat { length * MAX_TYPE + kind }

  function PackedLength(n: nat): nat { n / MAX_TYPE }

  function PackedKind(n: nat): PartType { n % MAX_TYPE }

  function EncPartOf(p: BasicPart): string { EncNum(Packed(|p.content|, p.ptype)) + p.content }

  function EncPart(): BasicPart -> string { p => EncPartOf(p) }

  function DecPart(file: string, pos: nat): Decoded<BasicPart>
  {
    var (n, q) :- DecNum(file, pos);
    var len := PackedLength(n);
    if len == 0 then Got(BasicPart(PackedKind(n), []), q)
    else if q + len <= |file| then Got(BasicPart(PackedKind(n), CStr(file[q..q + len])), q + len)
    else Fail
  }

  // ---- Dependencies ----

  function EncDependPure(t: seq<string>, d: Depend): string
  {
    EncWords(t, Words(d.depend)) + (EncWords(t, Words(d.rdepend)) + (EncWords(t, Words(d.pdepend))
    + (EncWords(t, Words(d.bdepend)) + EncWords(t, Words(d.idepend)))))
  }

  function EncDepend(t: seq<string>, d: Depend): string
  {
    EncNum(|EncDependPure(t, d)|) + EncDependPure(t, d)
  }

  function DecDependPure(t: seq<string>, file: string, pos: nat): Decoded<Depend>
  {
    var (a, p1) :- DecJoined(t, file, pos);
    var (b, p2) :- DecJoined(t, file, p1);
    var (c, p3) :- DecJoined(t, file, p2);
    var (d, p4) :- DecJoined(t, file, p3);
    var (e, p5) :- DecJoined(t, file, p4);
    Got(Depend(a, b, c, d, e), p5)
  }

  /** A reader that does not want dependencies seeks past them. */
  function DecDepend(t: seq<string>, wanted: bool, file: string, pos: nat): Decoded<Depend>
  {
    var (len, q) :- DecNum(file, pos);
    if wanted then DecDependPure(t, file, q) else Got(NO_DEPEND, q + len)
  }

  // ---- Slots ----

  /** The default slot "0" is kept as the empty string. */
  function ShortSlot(v: Version): string
  {
    if v.subslot == [] then v.slot else v.slot + "/" + v.subslot
  }

  function SlashAt(s: string): (n: nat)
    ensures n <= |s|
    ensures n < |s| ==> s[n] == '/'
    ensures '/' !in s[..n]
  {
    if s == [] || s[0] == '/' then 0 else 1 + SlashAt(s[1..])
  }

  /** slot_subslot: (slot, subslot). */
  function SplitSlot(full: string): (string, string)
  {
    var sep := SlashAt(full);
    var slot := full[..sep];
    (if slot == "0" then [] else slot, if sep == |full| then [] else full[sep + 1..])
  }

  // ---- Versions ----

  datatype VersionHead = VersionHead(eapi: string, mask: UChar, properties: UChar, restrict: UInt16)
  datatype VersionBody = VersionBody(keywords: string, parts: seq<BasicPart>, slot: string, overlayKey: nat)
  datatype VersionTail = VersionTail(iuse: seq<string>, requiredUse: string, depend: Depend, srcUri: string)

  function EncHead(t: Tables, v: Version): string
  {
    EncWord(t.eapi)(v.eapi) + (EncByte(v.mask) + (EncByte(v.properties) + EncNum(v.restrict)))
  }

  function EncBody(t: Tables, v: Version): string
  {
    EncWords(t.keywords, Words(v.keywords)) + (EncVector(EncPart(), v.parts)
    + (EncWord(t.slot)(ShortSlot(v)) + EncNum(v.overlayKey)))
  }

  function EncStoredRequiredUse(t: Tables, stored: Flags, v: Version): string
  {
    if stored.requiredUse then EncWords(t.iuse, Words(v.requiredUse)) else []
  }

  function EncStoredDepend(t: Tables, stored: Flags, v: Version): string
  {
    if stored.dep then EncDepend(t.depend, v.depend) else []
  }

  function EncStoredSrcUri(stored: Flags, v: Version): string
  {
    if stored.srcUri then EncString(v.srcUri) else []
  }

  function EncTail(t: Tables, stored: Flags, v: Version): string
  {
    EncWords(t.iuse, v.iuse)
    + (EncStoredRequiredUse(t, stored, v) + (EncStoredDepend(t, stored, v) + EncStoredSrcUri(stored, v)))
  }

  function EncVersionOf(t: Tables, stored: Flags, v: Version): string
  {
    EncHead(t, v) + (EncBody(t, v) + EncTail(t, stored, v))
  }

  function EncVersion(t: Tables, stored: Flags): Version -> string { v => EncVersionOf(t, stored, v) }

  /** The mask was written as a byte, but is read as a number of byte width. */
  function DecHead(t: Tables, file: string, pos: nat): Decoded<VersionHead>
  {
    var (eapi, p1) :- DecWordAt(t.eapi, file, pos);
    var (mask, p2) :- DecNum(file, p1);
    var (properties, p3) :- DecByte(file, p2);
    var (restrict, p4) :- DecNum(file, p3);
    Got(VersionHead(eapi, mask % 0x100, properties, restrict % 0x1_0000), p4)
  }

  function DecBody(t: Tables, file: string, pos: nat): Decoded<VersionBody>
  {
    var (keywords, p1) :- DecJoined(t.keywords, file, pos);
    var (parts, p2) :- DecVector(DecPart, file, p1);
    var (slot, p3) :- DecWordAt(t.slot, file, p2);
    var (key, p4) :- DecNum(file, p3);
    Got(VersionBody(keywords, parts, slot, key), p4)
  }

  function DecRequiredUse(h: Header, wanted: Flags, file: string, pos: nat): Decoded<string>
  {
    if !h.stored.requiredUse then Got([], pos)
    else if wanted.requiredUse then DecJoined(h.tables.iuse, file, pos)
    else
      var (_, q) :- DecSkipWords(file, pos);
      Got([], q)
  }

  function DecStoredDepend(h: Header, wanted: Flags, file: string, pos: nat): Decoded<Depend>
  {
    if h.stored.dep then DecDepend(h.tables.depend, wanted.dep, file, pos) else Got(NO_DEPEND, pos)
  }

  function DecSrcUri(h: Header, wanted: Flags, file: string, pos: nat): Decoded<string>
  {
    if !h.stored.srcUri then Got([], pos)
    else if wanted.srcUri then DecString(file, pos)
    else
      var (_, q) :- DecSkipString(file, pos);
      Got([], q)
  }

  function DecTail(h: Header, wanted: Flags, file: string, pos: nat): Decoded<VersionTail>
  {
    var (iuse, p1) :- DecWords(h.tables.iuse, file, pos);
    var (requiredUse, p2) :- DecRequiredUse(h, wanted, file, p1);
    var (depend, p3) :- DecStoredDepend(h, wanted, file, p2);
    var (srcUri, p4) :- DecSrcUri(h, wanted, file, p3);
    Got(VersionTail(iuse, requiredUse, depend, srcUri), p4)
  }

  /** An unknown overlay gets an empty identity. The key right behind the last overlay
      is not caught by the program; reading past its vector is a failure here. */
  function GetOverlay(h: Header, key: nat): Option<Overlay>
  {
    if key < |h.overlays| then Some(h.overlays[key])
    else if key > |h.overlays| then Some(Overlay([], [], 0))
    else None
  }

  function MakeVersion(a: VersionHead, b: VersionBody, o: Overlay, c: VersionTail): Version
  {
    var (slot, subslot) := SplitSlot(b.slot);
    Version(a.eapi, a.mask, a.properties, a.restrict, b.keywords, b.parts, slot, subslot,
            b.overlayKey, o.repo, o.priority, c.iuse, c.requiredUse, c.depend, c.srcUri)
  }

  function DecVersionAt(h: Header, wanted: Flags, file: string, pos: nat): Decoded<Version>
  {
    var (a, p1) :- DecHead(h.tables, file, pos);
    var (b, p2) :- DecBody(h.tables, file, p1);
    var o := GetOverlay(h, b.overlayKey);
    if o.None? then Fail
    else
      var (c, p3) :- DecTail(h, wanted, file, p2);
      Got(MakeVersion(a, b, o.value, c), p3)
  }

  function DecVersion(h: Header, wanted: Flags): (string, nat) -> Decoded<Version>
  {
    (file: string, pos: nat) => DecVersionAt(h, wanted, file, pos)
  }

  // ---- Packages, categories, tree ----

  function EncPackagePure(t: Tables, stored: Flags, p: PackageData): string
  {
    EncString(p.name) + (EncString(p.desc) + (EncString(p.homepage)
    + (EncWord(t.license)(p.licenses) + EncVector(EncVersion(t, stored), p.versions))))
  }

  /** The length in front lets a reader seek to the next package. */
  function EncPackageOf(t: Tables, stored: Flags, p: PackageData): string
  {
    EncNum(|EncPackagePure(t, stored, p)|) + EncPackagePure(t, stored, p)
  }

  function EncPackage(t: Tables, stored: Flags): PackageData -> string { p => EncPackageOf(t, stored, p) }

  function EncCategoryOf(t: Tables, stored: Flags, c: Category): string
  {
    EncString(c.name) + EncVector(EncPackage(t, stored), c.packages)
  }

  function EncCategory(t: Tables, stored: Flags): Category -> string { c => EncCategoryOf(t, stored, c) }

  function EncTree(t: Tables, stored: Flags, tree: seq<Category>): string { EncList(EncCategory(t, stored), tree) }

  function DecCategoryHeader(file: string, pos: nat): Decoded<(string, nat)>
  {
    var (name, p1) :- DecString(file, pos);
    var (size, p2) :- DecNum(file, p1);
    Got((name, size), p2)
  }

  /** A whole package read at once; versions are put in order while they are read. */
  function DecPackagePure(h: Header, wanted: Flags, category: string, file: string, pos: nat): Decoded<PackageData>
  {
    var (name, p1) :- DecString(file, pos);
    var (desc, p2) :- DecString(file, p1);
    var (homepage, p3) :- DecString(file, p2);
    var (licenses, p4) :- DecWordAt(h.tables.license, file, p3);
    var (versions, p5) :- DecVector(DecVersion(h, wanted), file, p4);
    Got(PackageData(category, name, desc, homepage, licenses, InsertAll(versions)), p5)
  }

  // ---- Header ----

  function EncStrings(): string -> string { s => EncString(s) }

  function EncOverlayOf(o: Overlay): string { EncString(o.path) + EncString(o.repo) }

  function EncOverlay(): Overlay -> string { o => EncOverlayOf(o) }

  function DecOverlay(file: string, pos: nat): Decoded<Overlay>
  {
    var (path, p1) :- DecString(file, pos);
    var (repo, p2) :- DecString(file, p1);
    Got(Overlay(path, repo, 0), p2)
  }

  function EncTable(t: seq<string>): string { EncVector(EncStrings(), t) }

  function DecTable(file: string, pos: nat): Decoded<seq<string>> { DecVector(DecString, file, pos) }

  function Bitmask(f: Flags): nat
  {
    (if f.dep then 1 else 0) + (if f.requiredUse then 2 else 0) + (if f.srcUri then 4 else 0)
  }

  function FlagsOf(mask: nat): Flags
  {
    Flags(mask % 2 == 1, mask / 2 % 2 == 1, mask / 4 % 2 == 1)
  }

  function EncStart(h: Header): string
  {
    MAGIC + (EncNum(CURRENT_VERSION) + (EncNum(h.size) + EncVector(EncOverlay(), h.overlays)))
  }

  function EncTables(t: Tables): string
  {
    EncTable(t.eapi) + (EncTable(t.license) + (EncTable(t.keywords) + (EncTable(t.iuse) + EncTable(t.slot))))
  }

  function EncStoredTable(h: Header): string
  {
    if h.stored.dep then EncNum(|EncTable(h.tables.depend)|) + EncTable(h.tables.depend) else []
  }

  function EncEnd(h: Header): string
  {
    EncVector(EncStrings(), h.worldSets) + (EncNum(Bitmask(h.stored)) + EncStoredTable(h))
  }

  function EncHeader(h: Header): string { EncStart(h) + (EncTables(h.tables) + EncEnd(h)) }

  /** (size, overlays). Only the current format version is modelled. */
  function DecStart(minVersion: nat, file: string, pos: nat): Decoded<(nat, seq<Overlay>)>
  {
    if pos + |MAGIC| > |file| || file[pos..pos + |MAGIC|] != MAGIC then Fail
    else
      var (version, p1) :- DecNum(file, pos + |MAGIC|);
      if version != CURRENT_VERSION || version < minVersion then Fail
      else
        var (size, p2) :- DecNum(file, p1);
        var (overlays, p3) :- DecVector(DecOverlay, file, p2);
        Got((size, overlays), p3)
  }

  function DecTables(file: string, pos: nat): Decoded<Tables>
  {
    var (eapi, p1) :- DecTable(file, pos);
    var (license, p2) :- DecTable(file, p1);
    var (keywords, p3) :- DecTable(file, p2);
    var (iuse, p4) :- DecTable(file, p3);
    var (slot, p5) :- DecTable(file, p4);
    Got(Tables(eapi, license, keywords, iuse, slot, []), p5)
  }

  /** (world sets, stored fields, dependency table). */
  function DecEnd(wantDep: bool, file: string, pos: nat): Decoded<(seq<string>, Flags, seq<string>)>
  {
    var (sets, p1) :- DecVector(DecString, file, pos);
    var (mask, p2) :- DecNum(file, p1);
    var stored := FlagsOf(mask);
    if !stored.dep then Got((sets, stored, []), p2)
    else
      var (len, p3) :- DecNum(file, p2);
      if wantDep then
        var (table, p4) :- DecTable(file, p3);
        Got((sets, stored, table), p4)
      else Got((sets, stored, []), p3 + len)
  }

  function DecHeader(minVersion: nat, wantDep: bool, file: string, pos: nat): Decoded<Header>
  {
    var (start, p1) :- DecStart(minVersion, file, pos);
    var (tables, p2) :- DecTables(file, p1);
    var (end, p3) :- DecEnd(wantDep, file, p2);
    Got(Header(start.0, start.1, tables.(depend := end.2), end.1, end.0), p3)
  }

  // ---- Which tables a tree needs ----

  predicate AllIn(ws: seq<string>, table: seq<string>) { forall w :: w in ws ==> w in table }

  predicate CoversDepend(t: seq<string>, d: Depend)
  {
    AllIn(Words(d.depend), t) && AllIn(Words(d.rdepend), t) && AllIn(Words(d.pdepend), t)
    && AllIn(Words(d.bdepend), t) && AllIn(Words(d.idepend), t)
  }

  predicate CoversHead(t: Tables, v: Version) { v.eapi in t.eapi }

  predicate CoversBody(t: Tables, v: Version) { AllIn(Words(v.keywords), t.keywords) && ShortSlot(v) in t.slot }

  predicate CoversTail(t: Tables, stored: Flags, v: Version)
  {
    && AllIn(v.iuse, t.iuse)
    && (stored.requiredUse ==> AllIn(Words(v.requiredUse), t.iuse))
    && (stored.dep ==> CoversDepend(t.depend, v.depend))
  }

  predicate CoversVersion(t: Tables, stored: Flags, v: Version)
  {
    CoversHead(t, v) && CoversBody(t, v) && CoversTail(t, stored, v)
  }

  predicate CoversVersions(t: Tables, stored: Flags, vs: seq<Version>)
  {
    forall i :: 0 <= i < |vs| ==> CoversVersion(t, stored, vs[i])
  }

  predicate CoversPackage(t: Tables, stored: Flags, p: PackageData)
  {
    p.licenses in t.license && CoversVersions(t, stored, p.versions)
  }

  predicate CoversCategory(t: Tables, stored: Flags, c: Category)
  {
    forall i :: 0 <= i < |c.packages| ==> CoversPackage(t, stored, c.packages[i])
  }

  predicate CoversTree(t: Tables, stored: Flags, tree: seq<Category>)
  {
    forall i :: 0 <= i < |tree| ==> CoversCategory(t, stored, tree[i])
  }
}
