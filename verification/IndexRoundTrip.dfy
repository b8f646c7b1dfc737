/** Reading back what was written. */
module IndexRoundTrip {
  import opened NumberCodec
  import opened Strings
  import opened StringTable
  import opened Versions
  import opened Packages
  import opened IndexFormat

  // ---- What comes back for a value ----

  function CanonWords(s: string): string { JoinLazily(CStrs(Words(s)), " ") }

  function CanonPart(p: BasicPart): BasicPart { p.(content := CStr(p.content)) }

  function CanonDepend(d: Depend): Depend
  {
    Depend(CanonWords(d.depend), CanonWords(d.rdepend), CanonWords(d.pdepend), CanonWords(d.bdepend), CanonWords(d.idepend))
  }

  function CanonHead(v: Version): VersionHead { VersionHead(CStr(v.eapi), v.mask, v.properties, v.restrict) }

  function CanonBody(v: Version): VersionBody
  {
    VersionBody(CanonWords(v.keywords), Map(CanonPart, v.parts), CStr(ShortSlot(v)), v.overlayKey)
  }

  function CanonTail(stored: Flags, wanted: Flags, v: Version): VersionTail
  {
    VersionTail(CStrs(v.iuse),
                if stored.requiredUse && wanted.requiredUse then CanonWords(v.requiredUse) else [],
                if stored.dep && wanted.dep then CanonDepend(v.depend) else NO_DEPEND,
                if stored.srcUri && wanted.srcUri then CStr(v.srcUri) else [])
  }

  function OverlayFor(h: Header, key: nat): Overlay
  {
    match GetOverlay(h, key) case Some(o) => o case None => Overlay([], [], 0)
  }

  /** The version a reader with header `h` gets. */
  function CanonVersionOf(h: Header, wanted: Flags, v: Version): Version
  {
    MakeVersion(CanonHead(v), CanonBody(v), OverlayFor(h, v.overlayKey), CanonTail(h.stored, wanted, v))
  }

  function CanonVersion(h: Header, wanted: Flags): Version -> Version { v => CanonVersionOf(h, wanted, v) }

  function CanonPackage(h: Header, wanted: Flags, category: string, p: PackageData): PackageData
  {
    PackageData(category, CStr(p.name), CStr(p.desc), CStr(p.homepage), CStr(p.licenses),
                InsertAll(Map(CanonVersion(h, wanted), p.versions)))
  }

  function CanonOverlay(o: Overlay): Overlay { Overlay(CStr(o.path), CStr(o.repo), 0) }

  function CanonTables(t: Tables, depend: bool): Tables
  {
    Tables(CStrs(t.eapi), CStrs(t.license), CStrs(t.keywords), CStrs(t.iuse), CStrs(t.slot),
           if depend then CStrs(t.depend) else [])
  }

  function CanonHeader(h: Header, wantDep: bool): Header
  {
    Header(h.size, Map(CanonOverlay, h.overlays), CanonTables(h.tables, h.stored.dep && wantDep), h.stored, CStrs(h.worldSets))
  }

  /** A reader's header that belongs to tables as they were written; the overlays may
      have got priorities since they were read. */
  ghost predicate ReaderOf(h: Header, t: Tables, stored: Flags, wanted: Flags)
  {
    h.stored == stored && h.tables == CanonTables(t, stored.dep && wanted.dep)
  }

  /** What must hold for a version to be decoded in step: the mask byte is no escape
      byte, and the overlay is known or clearly unknown. */
  predicate InStep(h: Header, v: Version)
  {
    v.mask != MAGICNUMCHAR && v.overlayKey != |h.overlays|
  }

  predicate PackageInStep(h: Header, p: PackageData)
  {
    forall i :: 0 <= i < |p.versions| ==> InStep(h, p.versions[i])
  }

  // ---- Text between two positions ----

  /** `s` stands in the file from `pos` to `end`. */
  ghost predicate Span(file: string, pos: nat, s: string, end: nat)
  {
    At(file, pos, s) && end == pos + |s|
  }

  lemma SpanSplit(file: string, pos: nat, a: string, b: string, end: nat) returns (mid: nat)
    requires Span(file, pos, a + b, end)
    ensures Span(file, pos, a, mid) && Span(file, mid, b, end)
  {
    AtSplit(file, pos, a, b);
    mid := pos + |a|;
  }

  lemma SpanText(file: string, pos: nat, s: string, end: nat)
    requires Span(file, pos, s, end)
    ensures end == pos + |s| && end <= |file| && file[pos..end] == s
  {
  }

  lemma NumSpan(file: string, pos: nat, n: nat, end: nat)
    requires Span(file, pos, EncNum(n), end)
    ensures DecNum(file, pos) == Got(n, end)
  {
    NumRoundTrip(file, pos, n);
  }

  lemma ByteSpan(file: string, pos: nat, b: nat, end: nat)
    requires b < 256 && Span(file, pos, EncByte(b), end)
    ensures DecByte(file, pos) == Got(b, end)
    ensures b != MAGICNUMCHAR ==> DecNum(file, pos) == Got(b, end)
  {
    AtIndex(file, pos, EncByte(b), 0);
  }

  // ---- Lists ----

  /** Wherever the text of `x` stands, it is decoded to `y`, and to its end. */
  ghost predicate Inverts<T(!new), U(!new)>(enc: T -> string, dec: (string, nat) -> Decoded<U>, canon: T -> U, x: T, file: string)
  {
    forall p: nat, q: nat :: Span(file, p, enc(x), q) ==> dec(file, p) == Got(canon(x), q)
  }

  lemma {:induction false} ListRoundTrip<T(!new), U(!new)>(
      enc: T -> string, dec: (string, nat) -> Decoded<U>, canon: T -> U, xs: seq<T>, file: string, pos: nat, end: nat)
    requires Span(file, pos, EncList(enc, xs), end)
    requires forall i :: 0 <= i < |xs| ==> Inverts(enc, dec, canon, xs[i], file)
    ensures DecList(dec, file, pos, |xs|) == Got(Map(canon, xs), end)
  {
    if xs != [] {
      hide At;
      var n := |xs| - 1;
      var mid := SpanSplit(file, pos, EncList(enc, xs[..n]), enc(xs[n]), end);
      ListRoundTrip(enc, dec, canon, xs[..n], file, pos, mid);
      assert Inverts(enc, dec, canon, xs[n], file);
      assert Map(canon, xs) == Map(canon, xs[..n]) + [canon(xs[n])];
    } else {
      assert Map(canon, xs) == [];
    }
  }

  lemma VectorRoundTrip<T(!new), U(!new)>(
      enc: T -> string, dec: (string, nat) -> Decoded<U>, canon: T -> U, xs: seq<T>, file: string, pos: nat, end: nat)
    requires Span(file, pos, EncVector(enc, xs), end)
    requires forall i :: 0 <= i < |xs| ==> Inverts(enc, dec, canon, xs[i], file)
    ensures DecVector(dec, file, pos) == Got(Map(canon, xs), end)
  {
    hide Span, At, Inverts, EncList, DecList, EncNum, DecNum, Map;
    var mid := SpanSplit(file, pos, EncNum(|xs|), EncList(enc, xs), end);
    NumSpan(file, pos, |xs|, mid);
    ListRoundTrip(enc, dec, canon, xs, file, mid, end);
  }

  // ---- Strings and words ----

  lemma StringRoundTrip(file: string, pos: nat, s: string, end: nat)
    requires Span(file, pos, EncString(s), end)
    ensures DecString(file, pos) == Got(CStr(s), end)
    ensures DecSkipString(file, pos) == Got((), end)
  {
    hide Span, At, EncNum, DecNum, CStr;
    var mid := SpanSplit(file, pos, EncNum(|s|), s, end);
    NumSpan(file, pos, |s|, mid);
    SpanText(file, mid, s, end);
  }

  lemma StringVectorRoundTrip(file: string, pos: nat, ss: seq<string>, end: nat)
    requires Span(file, pos, EncVector(EncStrings(), ss), end)
    ensures DecVector(DecString, file, pos) == Got(CStrs(ss), end)
  {
    hide Span, At, EncVector, DecVector, EncString, DecString, CStr;
    forall i | 0 <= i < |ss| ensures Inverts(EncStrings(), DecString, CStr, ss[i], file) {
      forall p: nat, q: nat | Span(file, p, EncStrings()(ss[i]), q) ensures DecString(file, p) == Got(CStr(ss[i]), q) {
        StringRoundTrip(file, p, ss[i], q);
      }
    }
    VectorRoundTrip(EncStrings(), DecString, CStr, ss, file, pos, end);
    assert Map(CStr, ss) == CStrs(ss);
  }

  lemma WordRoundTrip(file: string, pos: nat, t: seq<string>, w: string, end: nat)
    requires w in t && Span(file, pos, EncWord(t)(w), end)
    ensures DecWordAt(CStrs(t), file, pos) == Got(CStr(w), end)
  {
    hide Span, At, EncNum, DecNum;
    NumSpan(file, pos, IndexOf(t, w), end);
  }

  lemma WordsRoundTrip(file: string, pos: nat, t: seq<string>, ws: seq<string>, end: nat)
    requires AllIn(ws, t) && Span(file, pos, EncWords(t, ws), end)
    ensures DecWords(CStrs(t), file, pos) == Got(CStrs(ws), end)
  {
    hide Span, At, EncVector, DecVector, DecWordAt, CStr;
    var enc, dec := EncWord(t), DecWord(CStrs(t));
    forall i | 0 <= i < |ws| ensures Inverts(enc, dec, CStr, ws[i], file) {
      assert ws[i] in ws;
      forall p: nat, q: nat | Span(file, p, enc(ws[i]), q) ensures dec(file, p) == Got(CStr(ws[i]), q) {
        WordRoundTrip(file, p, t, ws[i], q);
      }
    }
    VectorRoundTrip(enc, dec, CStr, ws, file, pos, end);
    assert Map(CStr, ws) == CStrs(ws);
  }

  lemma SkipWordsRoundTrip(file: string, pos: nat, t: seq<string>, ws: seq<string>, end: nat)
    requires Span(file, pos, EncWords(t, ws), end)
    ensures DecSkipWords(file, pos) == Got((), end)
  {
    hide Span, At, EncVector, DecVector, EncNum, DecNum;
    var enc := EncWord(t);
    var canon := (w: string) => IndexOf(t, w);
    forall i | 0 <= i < |ws| ensures Inverts(enc, DecNum, canon, ws[i], file) {
      forall p: nat, q: nat | Span(file, p, enc(ws[i]), q) ensures DecNum(file, p) == Got(canon(ws[i]), q) {
        NumSpan(file, p, IndexOf(t, ws[i]), q);
      }
    }
    VectorRoundTrip(enc, DecNum, canon, ws, file, pos, end);
  }

  lemma JoinedRoundTrip(file: string, pos: nat, t: seq<string>, s: string, end: nat)
    requires AllIn(Words(s), t) && Span(file, pos, EncWords(t, Words(s)), end)
    ensures DecJoined(CStrs(t), file, pos) == Got(CanonWords(s), end)
  {
    hide Span, At, EncWords, DecWords, Words, AllIn;
    WordsRoundTrip(file, pos, t, Words(s), end);
  }

  // ---- Parts ----

  lemma PackedPart(len: nat, ptype: PartType)
    ensures PackedLength(Packed(len, ptype)) == len && PackedKind(Packed(len, ptype)) == ptype
  {
  }

  lemma EmptyText()
    ensures CStr([]) == []
  {
  }

  /** The length and the kind come out of their number again. */
  lemma DecPacked(file: string, pos: nat, len: nat, ptype: PartType, mid: nat)
    requires DecNum(file, pos) == Got(Packed(len, ptype), mid) && mid + len <= |file|
    ensures DecPart(file, pos) == Got(BasicPart(ptype, CStr(file[mid..mid + len])), mid + len)
  {
    hide DecNum, Packed, PackedLength, PackedKind, CStr;
    PackedPart(len, ptype);
    if len == 0 {
      assert file[mid..mid + len] == [];
      EmptyText();
    }
  }

  lemma PartRoundTrip(file: string, pos: nat, p: BasicPart, end: nat)
    requires Span(file, pos, EncPartOf(p), end)
    ensures DecPart(file, pos) == Got(CanonPart(p), end)
  {
    hide Span, At, EncNum, DecNum, DecPart, Packed;
    var n := Packed(|p.content|, p.ptype);
    var mid := SpanSplit(file, pos, EncNum(n), p.content, end);
    NumSpan(file, pos, n, mid);
    SpanText(file, mid, p.content, end);
    DecPacked(file, pos, |p.content|, p.ptype, mid);
  }

  lemma PartsRoundTrip(file: string, pos: nat, ps: seq<BasicPart>, end: nat)
    requires Span(file, pos, EncVector(EncPart(), ps), end)
    ensures DecVector(DecPart, file, pos) == Got(Map(CanonPart, ps), end)
  {
    hide Span, At, EncVector, DecVector, EncPartOf, DecPart, CanonPart, Map;
    forall i | 0 <= i < |ps| ensures Inverts(EncPart(), DecPart, CanonPart, ps[i], file) {
      forall p: nat, q: nat | Span(file, p, EncPart()(ps[i]), q) ensures DecPart(file, p) == Got(CanonPart(ps[i]), q) {
        PartRoundTrip(file, p, ps[i], q);
      }
    }
    VectorRoundTrip(EncPart(), DecPart, CanonPart, ps, file, pos, end);
  }

  // ---- Dependencies ----

  lemma DependPureRoundTrip(file: string, pos: nat, t: seq<string>, d: Depend, end: nat)
    requires CoversDepend(t, d) && Span(file, pos, EncDependPure(t, d), end)
    ensures DecDependPure(CStrs(t), file, pos) == Got(CanonDepend(d), end)
  {
    hide Span, At, EncWords, DecJoined, CanonWords, Words, AllIn, CStrs;
    var a, b, c := EncWords(t, Words(d.depend)), EncWords(t, Words(d.rdepend)), EncWords(t, Words(d.pdepend));
    var e, f := EncWords(t, Words(d.bdepend)), EncWords(t, Words(d.idepend));
    var p1 := SpanSplit(file, pos, a, b + (c + (e + f)), end);
    var p2 := SpanSplit(file, p1, b, c + (e + f), end);
    var p3 := SpanSplit(file, p2, c, e + f, end);
    var p4 := SpanSplit(file, p3, e, f, end);
    JoinedRoundTrip(file, pos, t, d.depend, p1);
    JoinedRoundTrip(file, p1, t, d.rdepend, p2);
    JoinedRoundTrip(file, p2, t, d.pdepend, p3);
    JoinedRoundTrip(file, p3, t, d.bdepend, p4);
    JoinedRoundTrip(file, p4, t, d.idepend, end);
  }

  /** Read or skipped by the counted length, the dependencies end at the same place. */
  lemma DependRoundTrip(file: string, pos: nat, t: seq<string>, wanted: bool, d: Depend, end: nat)
    requires CoversDepend(t, d) && Span(file, pos, EncDepend(t, d), end)
    ensures DecDepend(if wanted then CStrs(t) else [], wanted, file, pos)
         == Got(if wanted then CanonDepend(d) else NO_DEPEND, end)
  {
    hide Span, At, EncNum, DecNum, EncDependPure, DecDependPure, CanonDepend, CoversDepend, CStrs;
    var body := EncDependPure(t, d);
    var mid := SpanSplit(file, pos, EncNum(|body|), body, end);
    NumSpan(file, pos, |body|, mid);
    SpanText(file, mid, body, end);
    DependPureRoundTrip(file, mid, t, d, end);
  }

  // ---- Versions ----

  lemma CoversHeadAndBody(t: Tables, stored: Flags, v: Version)
    requires CoversVersion(t, stored, v)
    ensures v.eapi in t.eapi && AllIn(Words(v.keywords), t.keywords) && ShortSlot(v) in t.slot && AllIn(v.iuse, t.iuse)
  {
  }

  lemma HeadRoundTrip(file: string, pos: nat, t: Tables, depend: bool, v: Version, end: nat)
    requires v.eapi in t.eapi && v.mask != MAGICNUMCHAR && Span(file, pos, EncHead(t, v), end)
    ensures DecHead(CanonTables(t, depend), file, pos) == Got(CanonHead(v), end)
  {
    hide Span, At, EncNum, DecNum, EncByte, DecByte, DecWordAt, EncWord, CStr, CStrs;
    var e, m, p, r := EncWord(t.eapi)(v.eapi), EncByte(v.mask), EncByte(v.properties), EncNum(v.restrict);
    var p1 := SpanSplit(file, pos, e, m + (p + r), end);
    var p2 := SpanSplit(file, p1, m, p + r, end);
    var p3 := SpanSplit(file, p2, p, r, end);
    WordRoundTrip(file, pos, t.eapi, v.eapi, p1);
    ByteSpan(file, p1, v.mask, p2);
    ByteSpan(file, p2, v.properties, p3);
    NumSpan(file, p3, v.restrict, end);
  }

  lemma BodyRoundTrip(file: string, pos: nat, t: Tables, depend: bool, v: Version, end: nat)
    requires AllIn(Words(v.keywords), t.keywords) && ShortSlot(v) in t.slot && Span(file, pos, EncBody(t, v), end)
    ensures DecBody(CanonTables(t, depend), file, pos) == Got(CanonBody(v), end)
  {
    hide Span, At, EncNum, DecNum, EncWords, DecJoined, CanonWords, Words, AllIn, EncVector, DecVector;
    hide EncWord, DecWordAt, ShortSlot, CStr, CStrs, Map;
    var k, ps := EncWords(t.keywords, Words(v.keywords)), EncVector(EncPart(), v.parts);
    var s, o := EncWord(t.slot)(ShortSlot(v)), EncNum(v.overlayKey);
    var p1 := SpanSplit(file, pos, k, ps + (s + o), end);
    var p2 := SpanSplit(file, p1, ps, s + o, end);
    var p3 := SpanSplit(file, p2, s, o, end);
    JoinedRoundTrip(file, pos, t.keywords, v.keywords, p1);
    PartsRoundTrip(file, p1, v.parts, p2);
    WordRoundTrip(file, p2, t.slot, ShortSlot(v), p3);
    NumSpan(file, p3, v.overlayKey, end);
  }

  lemma EmptySpan(file: string, pos: nat, end: nat)
    requires Span(file, pos, [], end)
    ensures end == pos
  {
  }

  lemma RequiredUseRoundTrip(file: string, pos: nat, h: Header, t: Tables, wanted: Flags, v: Version, end: nat)
    requires ReaderOf(h, t, h.stored, wanted) && CoversVersion(t, h.stored, v)
    requires Span(file, pos, EncStoredRequiredUse(t, h.stored, v), end)
    ensures DecRequiredUse(h, wanted, file, pos) == Got(CanonTail(h.stored, wanted, v).requiredUse, end)
  {
    hide Span, At, EncWords, DecJoined, CanonWords, Words, AllIn, CStr, CStrs, DecSkipWords;
    if !h.stored.requiredUse { EmptySpan(file, pos, end); }
    else if wanted.requiredUse { JoinedRoundTrip(file, pos, t.iuse, v.requiredUse, end); }
    else { SkipWordsRoundTrip(file, pos, t.iuse, Words(v.requiredUse), end); }
  }

  lemma StoredDependRoundTrip(file: string, pos: nat, h: Header, t: Tables, wanted: Flags, v: Version, end: nat)
    requires ReaderOf(h, t, h.stored, wanted) && CoversVersion(t, h.stored, v)
    requires Span(file, pos, EncStoredDepend(t, h.stored, v), end)
    ensures DecStoredDepend(h, wanted, file, pos) == Got(CanonTail(h.stored, wanted, v).depend, end)
  {
    hide Span, At, EncDepend, DecDepend, CanonDepend, CoversDepend, Words, AllIn, CStr, CStrs;
    if h.stored.dep { DependRoundTrip(file, pos, t.depend, wanted.dep, v.depend, end); }
    else { EmptySpan(file, pos, end); }
  }

  lemma SrcUriRoundTrip(file: string, pos: nat, h: Header, wanted: Flags, v: Version, end: nat)
    requires Span(file, pos, EncStoredSrcUri(h.stored, v), end)
    ensures DecSrcUri(h, wanted, file, pos) == Got(CanonTail(h.stored, wanted, v).srcUri, end)
  {
    hide Span, At, EncString, DecString, DecSkipString, CStr, CStrs;
    if h.stored.srcUri { StringRoundTrip(file, pos, v.srcUri, end); }
    else { EmptySpan(file, pos, end); }
  }

  lemma TailRoundTrip(file: string, pos: nat, h: Header, t: Tables, wanted: Flags, v: Version, end: nat)
    requires ReaderOf(h, t, h.stored, wanted) && CoversVersion(t, h.stored, v)
    requires h.tables.iuse == CStrs(t.iuse) && AllIn(v.iuse, t.iuse)
    requires Span(file, pos, EncTail(t, h.stored, v), end)
    ensures DecTail(h, wanted, file, pos) == Got(CanonTail(h.stored, wanted, v), end)
  {
    hide Span, At, EncWords, DecWords, EncStoredRequiredUse, EncStoredDepend, EncStoredSrcUri;
    hide DecRequiredUse, DecStoredDepend, DecSrcUri, CoversVersion, ReaderOf, AllIn, CStr, CStrs, CanonTables, Words;
    var i := EncWords(t.iuse, v.iuse);
    var r, d, s := EncStoredRequiredUse(t, h.stored, v), EncStoredDepend(t, h.stored, v), EncStoredSrcUri(h.stored, v);
    var p1 := SpanSplit(file, pos, i, r + (d + s), end);
    var p2 := SpanSplit(file, p1, r, d + s, end);
    var p3 := SpanSplit(file, p2, d, s, end);
    WordsRoundTrip(file, pos, t.iuse, v.iuse, p1);
    RequiredUseRoundTrip(file, p1, h, t, wanted, v, p2);
    StoredDependRoundTrip(file, p2, h, t, wanted, v, p3);
    SrcUriRoundTrip(file, p3, h, wanted, v, end);
  }

  lemma TableOfReader(h: Header, t: Tables, wanted: Flags)
    requires ReaderOf(h, t, h.stored, wanted)
    ensures h.tables.iuse == CStrs(t.iuse) && h.tables.license == CStrs(t.license)
  {
  }

  lemma VersionRoundTrip(file: string, pos: nat, h: Header, t: Tables, wanted: Flags, v: Version, end: nat)
    requires ReaderOf(h, t, h.stored, wanted) && CoversVersion(t, h.stored, v) && InStep(h, v)
    requires Span(file, pos, EncVersionOf(t, h.stored, v), end)
    ensures DecVersionAt(h, wanted, file, pos) == Got(CanonVersionOf(h, wanted, v), end)
  {
    hide Span, At, EncHead, EncBody, EncTail, DecHead, DecBody, DecTail, CanonHead, CanonTail, CoversVersion;
    hide CanonTables, Words, AllIn, ShortSlot, SplitSlot, CanonWords, Map, CStr, CStrs;
    var a, b, c := EncHead(t, v), EncBody(t, v), EncTail(t, h.stored, v);
    var depend := h.stored.dep && wanted.dep;
    TableOfReader(h, t, wanted);
    CoversHeadAndBody(t, h.stored, v);
    var p1 := SpanSplit(file, pos, a, b + c, end);
    var p2 := SpanSplit(file, p1, b, c, end);
    HeadRoundTrip(file, pos, t, depend, v, p1);
    BodyRoundTrip(file, p1, t, depend, v, p2);
    TailRoundTrip(file, p2, h, t, wanted, v, end);
  }

  lemma VersionsRoundTrip(file: string, pos: nat, h: Header, t: Tables, wanted: Flags, vs: seq<Version>, end: nat)
    requires ReaderOf(h, t, h.stored, wanted)
    requires forall i :: 0 <= i < |vs| ==> CoversVersion(t, h.stored, vs[i]) && InStep(h, vs[i])
    requires Span(file, pos, EncVector(EncVersion(t, h.stored), vs), end)
    ensures DecVector(DecVersion(h, wanted), file, pos) == Got(Map(CanonVersion(h, wanted), vs), end)
  {
    hide Span, At, EncVector, DecVector, EncVersionOf, DecVersionAt, CanonVersionOf, CoversVersion, InStep, ReaderOf, Map;
    var enc, dec, canon := EncVersion(t, h.stored), DecVersion(h, wanted), CanonVersion(h, wanted);
    forall i | 0 <= i < |vs| ensures Inverts(enc, dec, canon, vs[i], file) {
      forall p: nat, q: nat | Span(file, p, enc(vs[i]), q) ensures dec(file, p) == Got(canon(vs[i]), q) {
        VersionRoundTrip(file, p, h, t, wanted, vs[i], q);
      }
    }
    VectorRoundTrip(enc, dec, canon, vs, file, pos, end);
  }

  // ---- Packages ----

  /** Where the fields of a package stand. */
  datatype PackageLayout = PackageLayout(name: nat, desc: nat, homepage: nat, license: nat, versions: nat, end: nat)

  /** Every field is decoded where it stands, and to the start of the next one. */
  ghost predicate Decodes(file: string, h: Header, wanted: Flags, p: PackageData, l: PackageLayout)
  {
    && DecString(file, l.name) == Got(CStr(p.name), l.desc)
    && DecString(file, l.desc) == Got(CStr(p.desc), l.homepage)
    && DecString(file, l.homepage) == Got(CStr(p.homepage), l.license)
    && DecWordAt(h.tables.license, file, l.license) == Got(CStr(p.licenses), l.versions)
    && DecVector(DecVersion(h, wanted), file, l.versions) == Got(Map(CanonVersion(h, wanted), p.versions), l.end)
  }

  lemma PackageFields(file: string, pos: nat, h: Header, t: Tables, wanted: Flags, p: PackageData, end: nat)
    returns (l: PackageLayout)
    requires ReaderOf(h, t, h.stored, wanted) && CoversPackage(t, h.stored, p) && PackageInStep(h, p)
    requires Span(file, pos, EncPackagePure(t, h.stored, p), end)
    ensures l.name == pos && l.end == end && Decodes(file, h, wanted, p, l)
  {
    hide Span, At, EncString, DecString, EncVector, DecVector, EncWord, DecWordAt, CStr, CStrs, Map;
    hide ReaderOf, CoversVersion, InStep, CanonTables;
    var n, d, o := EncString(p.name), EncString(p.desc), EncString(p.homepage);
    var w, v := EncWord(t.license)(p.licenses), EncVector(EncVersion(t, h.stored), p.versions);
    TableOfReader(h, t, wanted);
    var p1 := SpanSplit(file, pos, n, d + (o + (w + v)), end);
    var p2 := SpanSplit(file, p1, d, o + (w + v), end);
    var p3 := SpanSplit(file, p2, o, w + v, end);
    var p4 := SpanSplit(file, p3, w, v, end);
    StringRoundTrip(file, pos, p.name, p1);
    StringRoundTrip(file, p1, p.desc, p2);
    StringRoundTrip(file, p2, p.homepage, p3);
    WordRoundTrip(file, p3, t.license, p.licenses, p4);
    VersionsRoundTrip(file, p4, h, t, wanted, p.versions, end);
    l := PackageLayout(pos, p1, p2, p3, p4, end);
  }

  /** A written package is read back, and the reader ends where the stored length says. */
  lemma PackageRoundTrip(file: string, pos: nat, h: Header, t: Tables, wanted: Flags, category: string, p: PackageData, end: nat)
    requires ReaderOf(h, t, h.stored, wanted) && CoversPackage(t, h.stored, p) && PackageInStep(h, p)
    requires Span(file, pos, EncPackageOf(t, h.stored, p), end)
    ensures DecNum(file, pos).Got? && DecNum(file, pos).next + DecNum(file, pos).value == end
    ensures DecPackagePure(h, wanted, category, file, DecNum(file, pos).next)
         == Got(CanonPackage(h, wanted, category, p), end)
  {
    hide Span, At, EncNum, DecNum, EncPackagePure, DecString, DecWordAt, DecVector, CStr, Map, ReaderOf, CoversPackage, PackageInStep, InsertAll;
    var body := EncPackagePure(t, h.stored, p);
    var mid := SpanSplit(file, pos, EncNum(|body|), body, end);
    NumSpan(file, pos, |body|, mid);
    SpanText(file, mid, body, end);
    var l := PackageFields(file, mid, h, t, wanted, p, end);
  }

  // ---- Header ----

  lemma OverlayRoundTrip(file: string, pos: nat, o: Overlay, end: nat)
    requires Span(file, pos, EncOverlayOf(o), end)
    ensures DecOverlay(file, pos) == Got(CanonOverlay(o), end)
  {
    hide Span, At, EncString, DecString, CStr;
    var mid := SpanSplit(file, pos, EncString(o.path), EncString(o.repo), end);
    StringRoundTrip(file, pos, o.path, mid);
    StringRoundTrip(file, mid, o.repo, end);
  }

  lemma OverlaysRoundTrip(file: string, pos: nat, os: seq<Overlay>, end: nat)
    requires Span(file, pos, EncVector(EncOverlay(), os), end)
    ensures DecVector(DecOverlay, file, pos) == Got(Map(CanonOverlay, os), end)
  {
    hide Span, At, EncVector, DecVector, EncOverlayOf, DecOverlay, CanonOverlay, Map;
    forall i | 0 <= i < |os| ensures Inverts(EncOverlay(), DecOverlay, CanonOverlay, os[i], file) {
      forall p: nat, q: nat | Span(file, p, EncOverlay()(os[i]), q) ensures DecOverlay(file, p) == Got(CanonOverlay(os[i]), q) {
        OverlayRoundTrip(file, p, os[i], q);
      }
    }
    VectorRoundTrip(EncOverlay(), DecOverlay, CanonOverlay, os, file, pos, end);
  }

  lemma StartRoundTrip(file: string, pos: nat, minVersion: nat, h: Header, end: nat)
    requires Span(file, pos, EncStart(h), end) && minVersion <= CURRENT_VERSION
    ensures DecStart(minVersion, file, pos) == Got((h.size, Map(CanonOverlay, h.overlays)), end)
  {
    hide Span, At, EncNum, DecNum, EncVector, DecVector, Map, CanonOverlay;
    var c, n, o := EncNum(CURRENT_VERSION), EncNum(h.size), EncVector(EncOverlay(), h.overlays);
    var p1 := SpanSplit(file, pos, MAGIC, c + (n + o), end);
    var p2 := SpanSplit(file, p1, c, n + o, end);
    var p3 := SpanSplit(file, p2, n, o, end);
    SpanText(file, pos, MAGIC, p1);
    NumSpan(file, p1, CURRENT_VERSION, p2);
    NumSpan(file, p2, h.size, p3);
    OverlaysRoundTrip(file, p3, h.overlays, end);
  }

  lemma TableRoundTrip(file: string, pos: nat, t: seq<string>, end: nat)
    requires Span(file, pos, EncTable(t), end)
    ensures DecTable(file, pos) == Got(CStrs(t), end)
  {
    hide Span;
    StringVectorRoundTrip(file, pos, t, end);
  }

  lemma TablesRoundTrip(file: string, pos: nat, t: Tables, end: nat)
    requires Span(file, pos, EncTables(t), end)
    ensures DecTables(file, pos) == Got(CanonTables(t, false), end)
  {
    hide Span, At, EncTable, DecTable, CStrs;
    var a, b, c, d, e := EncTable(t.eapi), EncTable(t.license), EncTable(t.keywords), EncTable(t.iuse), EncTable(t.slot);
    var p1 := SpanSplit(file, pos, a, b + (c + (d + e)), end);
    var p2 := SpanSplit(file, p1, b, c + (d + e), end);
    var p3 := SpanSplit(file, p2, c, d + e, end);
    var p4 := SpanSplit(file, p3, d, e, end);
    TableRoundTrip(file, pos, t.eapi, p1);
    TableRoundTrip(file, p1, t.license, p2);
    TableRoundTrip(file, p2, t.keywords, p3);
    TableRoundTrip(file, p3, t.iuse, p4);
    TableRoundTrip(file, p4, t.slot, end);
  }

  lemma BitmaskRoundTrip(f: Flags)
    ensures FlagsOf(Bitmask(f)) == f
  {
    var m := Bitmask(f);
    assert m == (if f.dep then 1 else 0) + 2 * ((if f.requiredUse then 1 else 0) + 2 * (if f.srcUri then 1 else 0));
  }

  lemma EndRoundTrip(file: string, pos: nat, wantDep: bool, h: Header, end: nat)
    requires Span(file, pos, EncEnd(h), end)
    ensures DecEnd(wantDep, file, pos)
         == Got((CStrs(h.worldSets), h.stored, if h.stored.dep && wantDep then CStrs(h.tables.depend) else []), end)
  {
    hide Span, At, EncNum, DecNum, EncVector, DecVector, EncTable, DecTable, Bitmask, FlagsOf, CStrs;
    var table := EncTable(h.tables.depend);
    var w, m := EncVector(EncStrings(), h.worldSets), EncNum(Bitmask(h.stored));
    var p1 := SpanSplit(file, pos, w, m + EncStoredTable(h), end);
    var p2 := SpanSplit(file, p1, m, EncStoredTable(h), end);
    StringVectorRoundTrip(file, pos, h.worldSets, p1);
    NumSpan(file, p1, Bitmask(h.stored), p2);
    BitmaskRoundTrip(h.stored);
    if h.stored.dep {
      var p3 := SpanSplit(file, p2, EncNum(|table|), table, end);
      NumSpan(file, p2, |table|, p3);
      SpanText(file, p3, table, end);
      TableRoundTrip(file, p3, h.tables.depend, end);
    } else {
      EmptySpan(file, p2, end);
    }
  }

  /** The header is read back; a reader that does not want dependencies lands at the same place. */
  lemma HeaderRoundTrip(file: string, pos: nat, minVersion: nat, wantDep: bool, h: Header, end: nat)
    requires Span(file, pos, EncHeader(h), end) && minVersion <= CURRENT_VERSION
    ensures DecHeader(minVersion, wantDep, file, pos) == Got(CanonHeader(h, wantDep), end)
  {
    hide Span, At, EncStart, EncTables, EncEnd, DecStart, DecTables, DecEnd, CStrs, Map;
    var a, b, c := EncStart(h), EncTables(h.tables), EncEnd(h);
    var p1 := SpanSplit(file, pos, a, b + c, end);
    var p2 := SpanSplit(file, p1, b, c, end);
    StartRoundTrip(file, pos, minVersion, h, p1);
    TablesRoundTrip(file, p1, h.tables, p2);
    EndRoundTrip(file, p2, wantDep, h, end);
  }

  /** A file is refused if it does not start with the four magic bytes, or if its format is not
      the current one, or older than the reader wants. */
  lemma HeaderIsRefused(file: string, minVersion: nat, wantDep: bool)
    ensures !("eix\n" <= file) ==> DecHeader(minVersion, wantDep, file, 0) == Fail
    ensures "eix\n" <= file && DecNum(file, 4).Got? && (DecNum(file, 4).value != 39 || minVersion > 39) ==>
      DecHeader(minVersion, wantDep, file, 0) == Fail
  {
    hide DecNum, DecVector, DecTables, DecEnd;
    assert "eix\n" <= file ==> file[0..4] == "eix\n";
    assert |file| >= 4 && file[0..4] == "eix\n" ==> "eix\n" <= file;
  }

  // ---- When exactly a value comes back unchanged ----

  /** Words separated by single spaces, none at the ends, and no NUL. */
  ghost predicate NormalWords(s: string) { s == Join(Words(s), " ") && NUL !in s }

  lemma {:induction false} CStrsIdentity(ws: seq<string>)
    requires forall i :: 0 <= i < |ws| ==> NUL !in ws[i]
    ensures CStrs(ws) == ws
  {
    forall i | 0 <= i < |ws| ensures CStr(ws[i]) == ws[i] { CStrIdentity(ws[i]); }
  }

  lemma {:induction false} JoinHasNoNul(ws: seq<string>)
    requires forall i :: 0 <= i < |ws| ==> NUL !in ws[i]
    ensures NUL !in JoinLazily(ws, " ")
  {
    if ws != [] { JoinHasNoNul(ws[..|ws| - 1]); }
  }

  lemma CanonWordsIdentity(s: string)
    ensures CanonWords(s) == s <==> NormalWords(s)
  {
    var ws := Words(s);
    JoinHasNoNul(CStrs(ws));
    WordsAreWords([], s);
    if NUL !in s {
      forall i | 0 <= i < |ws| ensures NUL !in ws[i] { assert ws[i] in ws; }
      CStrsIdentity(ws);
      JoinLazilyIsJoin(ws, " ");
    }
  }

  lemma {:induction false} SlashExact(a: string, b: string)
    requires '/' !in a
    ensures SlashAt(a + "/" + b) == |a| && SlashAt(a) == |a|
  {
    if a == [] {
      assert a + "/" + b == "/" + b;
    } else {
      assert (a + "/" + b)[1..] == a[1..] + "/" + b;
      SlashExact(a[1..], b);
    }
  }

  ghost predicate ProperSlot(v: Version)
  {
    '/' !in v.slot && v.slot != "0" && NUL !in v.slot && NUL !in v.subslot
  }

  lemma SlotIdentity(v: Version)
    ensures SplitSlot(CStr(ShortSlot(v))) == (v.slot, v.subslot) <==> ProperSlot(v)
  {
    var full := ShortSlot(v);
    if ProperSlot(v) {
      assert NUL !in full;
      CStrIdentity(full);
      SlashExact(v.slot, v.subslot);
      if v.subslot != [] {
        assert full[..|v.slot|] == v.slot && full[|v.slot| + 1..] == v.subslot;
      } else {
        assert full[..|full|] == full;
      }
    }
  }

  /** A version has the label and the priority of the overlay that its key names, and none for an
      unknown one. */
  ghost predicate Labelled(h: Header, v: Version)
  {
    && (v.overlayKey < |h.overlays| ==>
          v.reponame == h.overlays[v.overlayKey].repo && v.priority == h.overlays[v.overlayKey].priority)
    && (v.overlayKey >= |h.overlays| ==> v.reponame == "" && v.priority == 0)
  }

  lemma ReadIsLabelled(h: Header, wanted: Flags, v: Version)
    ensures Labelled(h, CanonVersionOf(h, wanted, v)) && CanonVersionOf(h, wanted, v).overlayKey == v.overlayKey
  {
    hide SplitSlot, CanonWords, ShortSlot;
  }

  /** The versions that come back unchanged. */
  ghost predicate Faithful(h: Header, wanted: Flags, v: Version)
  {
    && NUL !in v.eapi && NormalWords(v.keywords) && ProperSlot(v)
    && (forall i :: 0 <= i < |v.parts| ==> NUL !in v.parts[i].content)
    && (forall i :: 0 <= i < |v.iuse| ==> NUL !in v.iuse[i])
    && Labelled(h, v)
    && (if h.stored.requiredUse && wanted.requiredUse then NormalWords(v.requiredUse) else v.requiredUse == [])
    && (if h.stored.srcUri && wanted.srcUri then NUL !in v.srcUri else v.srcUri == [])
    && (if h.stored.dep && wanted.dep then
          NormalWords(v.depend.depend) && NormalWords(v.depend.rdepend) && NormalWords(v.depend.pdepend)
          && NormalWords(v.depend.bdepend) && NormalWords(v.depend.idepend)
        else v.depend == NO_DEPEND)
  }

  lemma PartsIdentity(ps: seq<BasicPart>)
    ensures Map(CanonPart, ps) == ps <==> forall i :: 0 <= i < |ps| ==> NUL !in ps[i].content
  {
    forall i | 0 <= i < |ps| ensures CanonPart(ps[i]) == ps[i] <==> NUL !in ps[i].content { CStrIdentity(ps[i].content); }
    if Map(CanonPart, ps) == ps {
      forall i | 0 <= i < |ps| ensures NUL !in ps[i].content { assert Map(CanonPart, ps)[i] == ps[i]; }
    }
  }

  ghost predicate NulFreeWords(ws: seq<string>) { forall i :: 0 <= i < |ws| ==> NUL !in ws[i] }

  lemma WordListIdentity(ws: seq<string>)
    ensures CStrs(ws) == ws <==> NulFreeWords(ws)
  {
    if CStrs(ws) == ws {
      forall i | 0 <= i < |ws| ensures NUL !in ws[i] { assert CStrs(ws)[i] == CStr(ws[i]); }
    } else if forall i :: 0 <= i < |ws| ==> NUL !in ws[i] {
      CStrsIdentity(ws);
    }
  }

  lemma DependIdentity(d: Depend)
    ensures CanonDepend(d) == d <==>
      NormalWords(d.depend) && NormalWords(d.rdepend) && NormalWords(d.pdepend) && NormalWords(d.bdepend) && NormalWords(d.idepend)
  {
    CanonWordsIdentity(d.depend);
    CanonWordsIdentity(d.rdepend);
    CanonWordsIdentity(d.pdepend);
    CanonWordsIdentity(d.bdepend);
    CanonWordsIdentity(d.idepend);
  }

  /** A version comes back unchanged exactly if it is faithful. */
  lemma VersionIdentity(h: Header, wanted: Flags, v: Version)
    ensures CanonVersionOf(h, wanted, v) == v <==> Faithful(h, wanted, v)
  {
    CStrIdentity(v.eapi);
    CStrIdentity(v.srcUri);
    CanonWordsIdentity(v.keywords);
    CanonWordsIdentity(v.requiredUse);
    SlotIdentity(v);
    PartsIdentity(v.parts);
    WordListIdentity(v.iuse);
    DependIdentity(v.depend);
  }

  // ---- What was read comes back unchanged ----

  /** What was read and joined twice is normal. */
  lemma TwiceIsNormal(s: string)
    ensures NormalWords(CanonWords(CanonWords(s)))
  {
    hide CStr;
    var t := CanonWords(s);
    var ws := Words(t);
    JoinHasNoNul(CStrs(Words(s)));
    WordsAreWords([], t);
    forall i | 0 <= i < |ws| ensures NUL !in ws[i] && ws[i] != [] && NoSpace(ws[i]) { assert ws[i] in ws; }
    CStrsIdentity(ws);
    JoinLazilyIsJoin(ws, " ");
    WordsOfJoin(ws);
    JoinHasNoNul(ws);
  }

  lemma SplitIsProper(full: string)
    requires NUL !in full
    ensures var (slot, subslot) := SplitSlot(full);
      '/' !in slot && slot != "0" && NUL !in slot && NUL !in subslot
  {
  }

  /** A version that was read is stable once it was written and read again. */
  lemma TwiceIsFaithful(h: Header, wanted: Flags, v: Version)
    ensures Faithful(h, wanted, CanonVersionOf(h, wanted, CanonVersionOf(h, wanted, v)))
  {
    hide CStr, SplitSlot, ShortSlot, NormalWords, CanonWords;
    var w := CanonVersionOf(h, wanted, v);
    SplitIsProper(CStr(ShortSlot(w)));
    TwiceIsNormal(v.keywords);
    TwiceIsNormal(v.requiredUse);
    TwiceIsNormal(v.depend.depend);
    TwiceIsNormal(v.depend.rdepend);
    TwiceIsNormal(v.depend.pdepend);
    TwiceIsNormal(v.depend.bdepend);
    TwiceIsNormal(v.depend.idepend);
  }

  /** If reading only rearranges the versions, it leaves each one as it is. */
  lemma RearrangedAreFaithful(h: Header, wanted: Flags, vs: seq<Version>)
    requires InsertAll(Map(CanonVersion(h, wanted), vs)) == vs
    ensures forall i :: 0 <= i < |vs| ==> Faithful(h, wanted, vs[i])
  {
    hide InsertAll, CanonVersionOf, Faithful;
    var read := Map(CanonVersion(h, wanted), vs);
    InsertAllKeeps(read);
    forall i | 0 <= i < |vs| ensures Faithful(h, wanted, vs[i]) {
      assert vs[i] in multiset(vs) && vs[i] in read;
      var j :| 0 <= j < |read| && read[j] == vs[i];
      assert vs[j] in multiset(vs) && vs[j] in read;
      var k :| 0 <= k < |read| && read[k] == vs[j];
      TwiceIsFaithful(h, wanted, vs[k]);
    }
  }

  /** The packages that come back unchanged: their versions are faithful, and are where
      inserting them one by one puts them. */
  ghost predicate FaithfulPackage(h: Header, wanted: Flags, category: string, p: PackageData)
  {
    && p.category == category && NUL !in p.name && NUL !in p.desc && NUL !in p.homepage && NUL !in p.licenses
    && InsertAll(p.versions) == p.versions
    && forall i :: 0 <= i < |p.versions| ==> Faithful(h, wanted, p.versions[i])
  }

  lemma FaithfulStay(h: Header, wanted: Flags, vs: seq<Version>)
    requires forall i :: 0 <= i < |vs| ==> Faithful(h, wanted, vs[i])
    ensures Map(CanonVersion(h, wanted), vs) == vs
  {
    hide CanonVersionOf, Faithful;
    forall i | 0 <= i < |vs| ensures CanonVersion(h, wanted)(vs[i]) == vs[i] { VersionIdentity(h, wanted, vs[i]); }
  }

  /** A package comes back unchanged exactly if it is faithful. */
  lemma PackageIdentity(h: Header, wanted: Flags, category: string, p: PackageData)
    ensures CanonPackage(h, wanted, category, p) == p <==> FaithfulPackage(h, wanted, category, p)
  {
    hide CStr, InsertAll, Faithful, CanonVersionOf;
    CStrIdentity(p.name);
    CStrIdentity(p.desc);
    CStrIdentity(p.homepage);
    CStrIdentity(p.licenses);
    if CanonPackage(h, wanted, category, p) == p { RearrangedAreFaithful(h, wanted, p.versions); }
    if forall i :: 0 <= i < |p.versions| ==> Faithful(h, wanted, p.versions[i]) { FaithfulStay(h, wanted, p.versions); }
  }

  /** The headers that come back unchanged. */
  ghost predicate FaithfulHeader(h: Header, wantDep: bool)
  {
    && (forall i :: 0 <= i < |h.overlays| ==> NUL !in h.overlays[i].path && NUL !in h.overlays[i].repo && h.overlays[i].priority == 0)
    && NulFreeWords(h.tables.eapi) && NulFreeWords(h.tables.license) && NulFreeWords(h.tables.keywords)
    && NulFreeWords(h.tables.iuse) && NulFreeWords(h.tables.slot) && NulFreeWords(h.worldSets)
    && (if h.stored.dep && wantDep then NulFreeWords(h.tables.depend) else h.tables.depend == [])
  }

  lemma OverlaysIdentity(os: seq<Overlay>)
    ensures Map(CanonOverlay, os) == os <==>
      forall i :: 0 <= i < |os| ==> NUL !in os[i].path && NUL !in os[i].repo && os[i].priority == 0
  {
    hide CStr;
    forall i | 0 <= i < |os| ensures CanonOverlay(os[i]) == os[i] <==> NUL !in os[i].path && NUL !in os[i].repo && os[i].priority == 0 {
      CStrIdentity(os[i].path);
      CStrIdentity(os[i].repo);
    }
    if Map(CanonOverlay, os) == os {
      forall i | 0 <= i < |os| ensures CanonOverlay(os[i]) == os[i] { assert Map(CanonOverlay, os)[i] == os[i]; }
    }
  }

  /** A header comes back unchanged exactly if it is faithful. */
  lemma HeaderIdentity(h: Header, wantDep: bool)
    ensures CanonHeader(h, wantDep) == h <==> FaithfulHeader(h, wantDep)
  {
    hide CStrs, CanonOverlay;
    OverlaysIdentity(h.overlays);
    WordListIdentity(h.tables.eapi);
    WordListIdentity(h.tables.license);
    WordListIdentity(h.tables.keywords);
    WordListIdentity(h.tables.iuse);
    WordListIdentity(h.tables.slot);
    WordListIdentity(h.tables.depend);
    WordListIdentity(h.worldSets);
  }
}
