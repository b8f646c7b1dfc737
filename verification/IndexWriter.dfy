/** Writing an index: header, then the package tree. A counting run of the same
writer finds the length that stands in front of dependencies and packages. */
module IndexWriter {
  import opened NumberCodec
  import opened Strings
  import opened StringTable
  import opened Versions
  import opened Packages
  import opened IndexFormat
  import opened IndexHeader
  import opened IndexDatabase

  lemma Nest3<T>(a: seq<T>, b: seq<T>, c: seq<T>)
    ensures a + b + c == a + (b + c)
  {
  }

  lemma Nest4<T>(a: seq<T>, b: seq<T>, c: seq<T>, d: seq<T>)
    ensures a + b + c + d == a + (b + (c + d))
  {
    Nest3(a, b, c + d);
    Nest3(a + b, c, d);
  }

  lemma Nest5<T>(a: seq<T>, b: seq<T>, c: seq<T>, d: seq<T>, e: seq<T>)
    ensures a + b + c + d + e == a + (b + (c + (d + e)))
  {
    Nest4(a, b, c, d + e);
    Nest3(a + b + c, d, e);
  }

  // ---- Versions ----

  method WritePart(db: Database, p: BasicPart) returns (ok: bool)
    modifies db`data, db`counter, db`room
    ensures Written(old(db.State()), EncPartOf(p), db.State(), ok, true)
  {
    hide Written, EncNum, Packed;
    ghost var s0 := db.State();
    var n := Packed(|p.content|, p.ptype);
    ok := db.WriteNum(n);
    ghost var s1, ok1 := db.State(), ok;
    if ok && p.content != [] {
      ok := db.WriteStringPlain(p.content);
    } else if ok {
      WriteNothing(s1);
    }
    WrittenNext(s0, EncNum(n), s1, ok1, true, p.content, db.State(), ok, true);
  }

  lemma WriteNothing(a: Sink)
    ensures Written(a, [], a, true, true)
  {
    assert a.data + [] == a.data;
  }

  method WriteParts(db: Database, ps: seq<BasicPart>) returns (ok: bool)
    modifies db`data, db`counter, db`room
    ensures Written(old(db.State()), EncList(EncPart(), ps), db.State(), ok, true)
  {
    hide Written, EncList, EncPartOf;
    ghost var s0, enc := db.State(), EncPart();
    ListStart(s0, enc, ps);
    for i := 0 to |ps|
      invariant Written(s0, EncList(enc, ps[..i]), db.State(), true, true)
    {
      ghost var s1 := db.State();
      ok := WritePart(db, ps[i]);
      ListStep(s0, enc, ps, i, s1, db.State(), ok, true, true);
      if !ok { return; }
    }
    ListEnd(s0, enc, ps, db.State());
    return true;
  }

  method WriteDepend(db: Database, dep: Depend, hdr: DBHeader) returns (ok: bool)
    requires Ready(hdr.dependHash)
    modifies db`data, db`counter, db`room
    ensures Written(old(db.State()), EncDependPure(hdr.dependHash.words, dep), db.State(), ok,
                    CoversDepend(hdr.dependHash.words, dep))
  {
    hide *;
    ghost var s0, t := db.State(), hdr.dependHash.words;
    ghost var a, b, c := EncWords(t, Words(dep.depend)), EncWords(t, Words(dep.rdepend)), EncWords(t, Words(dep.pdepend));
    ghost var d, e := EncWords(t, Words(dep.bdepend)), EncWords(t, Words(dep.idepend));
    ghost var p, q, r := AllIn(Words(dep.depend), t), AllIn(Words(dep.rdepend), t), AllIn(Words(dep.pdepend), t);
    ghost var u, v := AllIn(Words(dep.bdepend), t), AllIn(Words(dep.idepend), t);
    ok := db.WriteHashWordsOf(hdr.dependHash, dep.depend);
    ghost var s1, ok1 := db.State(), ok;
    if ok { ok := db.WriteHashWordsOf(hdr.dependHash, dep.rdepend); }
    ghost var s2, ok2 := db.State(), ok;
    WrittenNext(s0, a, s1, ok1, p, b, s2, ok2, q);
    if ok { ok := db.WriteHashWordsOf(hdr.dependHash, dep.pdepend); }
    ghost var s3, ok3 := db.State(), ok;
    WrittenNext(s0, a + b, s2, ok2, p && q, c, s3, ok3, r);
    if ok { ok := db.WriteHashWordsOf(hdr.dependHash, dep.bdepend); }
    ghost var s4, ok4 := db.State(), ok;
    WrittenNext(s0, a + b + c, s3, ok3, p && q && r, d, s4, ok4, u);
    if ok { ok := db.WriteHashWordsOf(hdr.dependHash, dep.idepend); }
    WrittenNext(s0, a + b + c + d, s4, ok4, p && q && r && u, e, db.State(), ok, v);
    DependPieces(t, dep);
    WrittenSame(s0, a + b + c + d + e, EncDependPure(t, dep), db.State(), ok, p && q && r && u && v, CoversDepend(t, dep));
  }

  lemma DependPieces(t: seq<string>, d: Depend)
    ensures EncDependPure(t, d) == EncWords(t, Words(d.depend)) + EncWords(t, Words(d.rdepend)) + EncWords(t, Words(d.pdepend))
                                   + EncWords(t, Words(d.bdepend)) + EncWords(t, Words(d.idepend))
    ensures CoversDepend(t, d) ==
      (AllIn(Words(d.depend), t) && AllIn(Words(d.rdepend), t) && AllIn(Words(d.pdepend), t)
       && AllIn(Words(d.bdepend), t) && AllIn(Words(d.idepend), t))
  {
    hide EncWords, Words, AllIn;
    Nest5(EncWords(t, Words(d.depend)), EncWords(t, Words(d.rdepend)), EncWords(t, Words(d.pdepend)),
          EncWords(t, Words(d.bdepend)), EncWords(t, Words(d.idepend)));
  }

  /** What a counting run finds. */
  lemma Counted(a: Sink, s: string, b: Sink, ok: bool, p: bool)
    requires a.counting && a.counter == 0 && Written(a, s, b, ok, p)
    ensures b.data == a.data && b.room == a.room && (p ==> b.counter == |s|)
  {
  }

  /** The length from a counting run, then the dependencies. */
  method WriteCountedDepend(db: Database, dep: Depend, hdr: DBHeader) returns (ok: bool)
    requires Ready(hdr.dependHash)
    modifies db`data, db`counter, db`room, db`counting
    ensures Written(old(db.State()), EncDepend(hdr.dependHash.words, dep), db.State(), ok,
                    CoversDepend(hdr.dependHash.words, dep))
  {
    hide EncNum, EncDependPure, CoversDepend, Ready, Written;
    ghost var s0, t := db.State(), hdr.dependHash.words;
    var counterSave, countingSave := db.counter, db.counting;
    db.counter, db.counting := 0, true;
    ghost var c0 := db.State();
    var okC := WriteDepend(db, dep, hdr);
    Counted(c0, EncDependPure(t, dep), db.State(), okC, CoversDepend(t, dep));
    var counterDiff := db.counter;
    db.counter, db.counting := counterSave, countingSave;
    ok := db.WriteNum(counterDiff);
    ghost var s1, ok1 := db.State(), ok;
    if ok { ok := WriteDepend(db, dep, hdr); }
    WrittenCounted(s0, counterDiff, EncDependPure(t, dep), s1, ok1, db.State(), ok, CoversDepend(t, dep));
  }

  method WriteHead(db: Database, v: Version, hdr: DBHeader) returns (ok: bool)
    requires hdr.Prepared()
    modifies db`data, db`counter, db`room
    ensures Written(old(db.State()), EncHead(hdr.AllTables(), v), db.State(), ok, CoversHead(hdr.AllTables(), v))
  {
    hide Written, Ready, EncWord, EncNum, EncByte;
    ghost var s0, t := db.State(), hdr.AllTables();
    ghost var e, m, p, r := EncWord(t.eapi)(v.eapi), EncByte(v.mask), EncByte(v.properties), EncNum(v.restrict);
    ghost var known := v.eapi in t.eapi;
    ok := db.WriteHashString(hdr.eapiHash, v.eapi);
    ghost var s1, ok1 := db.State(), ok;
    if ok { ok := db.WriteUChar(v.mask); }
    ghost var s2, ok2 := db.State(), ok;
    WrittenNext(s0, e, s1, ok1, known, m, s2, ok2, true);
    if ok { ok := db.WriteUChar(v.properties); }
    ghost var s3, ok3 := db.State(), ok;
    WrittenNext(s0, e + m, s2, ok2, known, p, s3, ok3, true);
    if ok { ok := db.WriteNum(v.restrict); }
    WrittenNext(s0, e + m + p, s3, ok3, known, r, db.State(), ok, true);
    Nest4(e, m, p, r);
  }

  method WriteBody(db: Database, v: Version, hdr: DBHeader) returns (ok: bool)
    requires hdr.Prepared()
    modifies db`data, db`counter, db`room
    ensures Written(old(db.State()), EncBody(hdr.AllTables(), v), db.State(), ok, CoversBody(hdr.AllTables(), v))
  {
    hide Written, Ready, EncWord, EncNum, EncWords, EncList, Words, AllIn, ShortSlot;
    ghost var s0, t := db.State(), hdr.AllTables();
    ghost var k, n, l := EncWords(t.keywords, Words(v.keywords)), EncNum(|v.parts|), EncList(EncPart(), v.parts);
    ghost var s, o := EncWord(t.slot)(ShortSlot(v)), EncNum(v.overlayKey);
    ghost var p, q := AllIn(Words(v.keywords), t.keywords), ShortSlot(v) in t.slot;
    ok := db.WriteHashWordsOf(hdr.keywordsHash, v.keywords);
    ghost var s1, ok1 := db.State(), ok;
    if ok { ok := db.WriteNum(|v.parts|); }
    ghost var s2, ok2 := db.State(), ok;
    WrittenNext(s0, k, s1, ok1, p, n, s2, ok2, true);
    if ok { ok := WriteParts(db, v.parts); }
    ghost var s3, ok3 := db.State(), ok;
    WrittenNext(s0, k + n, s2, ok2, p, l, s3, ok3, true);
    if ok { ok := db.WriteHashString(hdr.slotHash, ShortSlot(v)); }
    ghost var s4, ok4 := db.State(), ok;
    WrittenNext(s0, k + n + l, s3, ok3, p, s, s4, ok4, q);
    if ok { ok := db.WriteNum(v.overlayKey); }
    WrittenNext(s0, k + n + l + s, s4, ok4, p && q, o, db.State(), ok, true);
    BodyPieces(k, n, l, s, o);
  }

  lemma BodyPieces<T>(k: seq<T>, n: seq<T>, l: seq<T>, s: seq<T>, o: seq<T>)
    ensures k + n + l + s + o == k + ((n + l) + (s + o))
  {
    Nest3(k, n, l);
    Nest4(k, n + l, s, o);
  }

  method WriteTail(db: Database, v: Version, hdr: DBHeader) returns (ok: bool)
    requires hdr.Prepared()
    modifies db`data, db`counter, db`room, db`counting
    ensures Written(old(db.State()), EncTail(hdr.AllTables(), hdr.Stored(), v), db.State(), ok,
                    CoversTail(hdr.AllTables(), hdr.Stored(), v))
  {
    hide Written, Ready, EncWords, EncStoredRequiredUse, EncStoredDepend, EncStoredSrcUri, Words, AllIn, CoversDepend;
    ghost var s0, t, f := db.State(), hdr.AllTables(), hdr.Stored();
    ok := WriteIuse(db, v, hdr);
    ghost var s1, ok1 := db.State(), ok;
    if ok { ok := WriteOptional(db, v, hdr); }
    WrittenNext(s0, EncWords(t.iuse, v.iuse), s1, ok1, AllIn(v.iuse, t.iuse),
                EncStoredRequiredUse(t, f, v) + (EncStoredDepend(t, f, v) + EncStoredSrcUri(f, v)), db.State(), ok,
                (f.requiredUse ==> AllIn(Words(v.requiredUse), t.iuse)) && (f.dep ==> CoversDepend(t.depend, v.depend)));
  }

  /** The fields that are only stored when the header says so. */
  method WriteOptional(db: Database, v: Version, hdr: DBHeader) returns (ok: bool)
    requires hdr.Prepared()
    modifies db`data, db`counter, db`room, db`counting
    ensures var t, f := hdr.AllTables(), hdr.Stored();
      Written(old(db.State()), EncStoredRequiredUse(t, f, v) + (EncStoredDepend(t, f, v) + EncStoredSrcUri(f, v)), db.State(), ok,
              (f.requiredUse ==> AllIn(Words(v.requiredUse), t.iuse)) && (f.dep ==> CoversDepend(t.depend, v.depend)))
  {
    hide Written, Ready, EncStoredRequiredUse, EncStoredDepend, EncStoredSrcUri, Words, AllIn, CoversDepend;
    ghost var s0, t, f := db.State(), hdr.AllTables(), hdr.Stored();
    ghost var r, d, u := EncStoredRequiredUse(t, f, v), EncStoredDepend(t, f, v), EncStoredSrcUri(f, v);
    ghost var q, c := f.requiredUse ==> AllIn(Words(v.requiredUse), t.iuse), f.dep ==> CoversDepend(t.depend, v.depend);
    ok := WriteRequiredUse(db, v, hdr);
    ghost var s1, ok1 := db.State(), ok;
    if ok { ok := WriteStoredDepend(db, v, hdr); }
    ghost var s2, ok2 := db.State(), ok;
    WrittenNext(s0, r, s1, ok1, q, d, s2, ok2, c);
    if ok { ok := WriteSrcUri(db, v, hdr); }
    WrittenNext(s0, r + d, s2, ok2, q && c, u, db.State(), ok, true);
    Nest3(r, d, u);
  }

  method WriteIuse(db: Database, v: Version, hdr: DBHeader) returns (ok: bool)
    requires hdr.Prepared()
    modifies db`data, db`counter, db`room
    ensures Written(old(db.State()), EncWords(hdr.AllTables().iuse, v.iuse), db.State(), ok, AllIn(v.iuse, hdr.AllTables().iuse))
  {
    hide Written, Ready, EncWords, AllIn;
    ok := db.WriteHashWords(hdr.iuseHash, v.iuse);
  }

  method WriteRequiredUse(db: Database, v: Version, hdr: DBHeader) returns (ok: bool)
    requires hdr.Prepared()
    modifies db`data, db`counter, db`room
    ensures Written(old(db.State()), EncStoredRequiredUse(hdr.AllTables(), hdr.Stored(), v), db.State(), ok,
                    hdr.Stored().requiredUse ==> AllIn(Words(v.requiredUse), hdr.AllTables().iuse))
  {
    hide Written, Ready, EncWords, Words, AllIn;
    if hdr.useRequiredUse {
      ok := db.WriteHashWordsOf(hdr.iuseHash, v.requiredUse);
    } else {
      WriteNothing(db.State());
      ok := true;
    }
  }

  method WriteStoredDepend(db: Database, v: Version, hdr: DBHeader) returns (ok: bool)
    requires hdr.Prepared()
    modifies db`data, db`counter, db`room, db`counting
    ensures Written(old(db.State()), EncStoredDepend(hdr.AllTables(), hdr.Stored(), v), db.State(), ok,
                    hdr.Stored().dep ==> CoversDepend(hdr.AllTables().depend, v.depend))
  {
    hide Written, Ready, EncDepend, CoversDepend;
    if hdr.useDepend {
      ok := WriteCountedDepend(db, v.depend, hdr);
    } else {
      WriteNothing(db.State());
      ok := true;
    }
  }

  method WriteSrcUri(db: Database, v: Version, hdr: DBHeader) returns (ok: bool)
    modifies db`data, db`counter, db`room
    ensures Written(old(db.State()), EncStoredSrcUri(hdr.Stored(), v), db.State(), ok, true)
  {
    hide Written, EncString;
    if hdr.useSrcUri {
      ok := db.WriteString(v.srcUri);
    } else {
      WriteNothing(db.State());
      ok := true;
    }
  }

  method WriteVersion(db: Database, v: Version, hdr: DBHeader) returns (ok: bool)
    requires hdr.Prepared()
    modifies db`data, db`counter, db`room, db`counting
    ensures Written(old(db.State()), EncVersionOf(hdr.AllTables(), hdr.Stored(), v), db.State(), ok,
                    CoversVersion(hdr.AllTables(), hdr.Stored(), v))
  {
    hide Written, Ready, EncHead, EncBody, EncTail, CoversHead, CoversBody, CoversTail;
    ghost var s0, t, f := db.State(), hdr.AllTables(), hdr.Stored();
    ghost var a, b, c := EncHead(t, v), EncBody(t, v), EncTail(t, f, v);
    ok := WriteHead(db, v, hdr);
    ghost var s1, ok1 := db.State(), ok;
    if ok { ok := WriteBody(db, v, hdr); }
    ghost var s2, ok2 := db.State(), ok;
    WrittenNext(s0, a, s1, ok1, CoversHead(t, v), b, s2, ok2, CoversBody(t, v));
    if ok { ok := WriteTail(db, v, hdr); }
    WrittenNext(s0, a + b, s2, ok2, CoversHead(t, v) && CoversBody(t, v), c, db.State(), ok, CoversTail(t, f, v));
    Nest3(a, b, c);
  }

  // ---- Packages ----

  method WriteVersions(db: Database, vs: seq<Version>, hdr: DBHeader) returns (ok: bool)
    requires hdr.Prepared()
    modifies db`data, db`counter, db`room, db`counting
    ensures var t, f := hdr.AllTables(), hdr.Stored();
      Written(old(db.State()), EncVector(EncVersion(t, f), vs), db.State(), ok,
              CoversVersions(t, f, vs))
  {
    hide Written, Ready, EncVersionOf, CoversVersions, EncList, EncNum;
    ghost var s0, t, f := db.State(), hdr.AllTables(), hdr.Stored();
    ghost var n, all := EncNum(|vs|), CoversVersions(t, f, vs);
    ok := db.WriteNum(|vs|);
    ghost var s1, ok1 := db.State(), ok;
    if ok { ok := WriteVersionList(db, vs, hdr); }
    WrittenNext(s0, n, s1, ok1, true, EncList(EncVersion(t, f), vs), db.State(), ok, all);
  }

  method WriteVersionList(db: Database, vs: seq<Version>, hdr: DBHeader) returns (ok: bool)
    requires hdr.Prepared()
    modifies db`data, db`counter, db`room, db`counting
    ensures var t, f := hdr.AllTables(), hdr.Stored();
      Written(old(db.State()), EncList(EncVersion(t, f), vs), db.State(), ok,
              CoversVersions(t, f, vs))
  {
    hide Written, Ready, EncVersionOf, CoversVersion, EncList, EncNum;
    ghost var s0, t, f := db.State(), hdr.AllTables(), hdr.Stored();
    ghost var enc, all := EncVersion(t, f), CoversVersions(t, f, vs);
    ListStart(s0, enc, vs);
    for i := 0 to |vs|
      invariant Written(s0, EncList(enc, vs[..i]), db.State(), true, true)
      invariant forall j :: 0 <= j < i ==> CoversVersion(t, f, vs[j])
      invariant hdr.Prepared() && hdr.AllTables() == t && hdr.Stored() == f
    {
      ghost var s1 := db.State();
      ok := WriteVersion(db, vs[i], hdr);
      ListStep(s0, enc, vs, i, s1, db.State(), ok, CoversVersion(t, f, vs[i]), all);
      if !ok { return; }
    }
    ListEnd(s0, enc, vs, db.State());
    return true;
  }

  method WriteTexts(db: Database, p: PackageData) returns (ok: bool)
    modifies db`data, db`counter, db`room
    ensures Written(old(db.State()), EncString(p.name) + EncString(p.desc) + EncString(p.homepage), db.State(), ok, true)
  {
    hide Written, EncString;
    ghost var s0, n, d, o := db.State(), EncString(p.name), EncString(p.desc), EncString(p.homepage);
    ok := db.WriteString(p.name);
    ghost var s1, ok1 := db.State(), ok;
    if ok { ok := db.WriteString(p.desc); }
    ghost var s2, ok2 := db.State(), ok;
    WrittenNext(s0, n, s1, ok1, true, d, s2, ok2, true);
    if ok { ok := db.WriteString(p.homepage); }
    WrittenNext(s0, n + d, s2, ok2, true, o, db.State(), ok, true);
  }

  method WritePackagePure(db: Database, p: PackageData, hdr: DBHeader) returns (ok: bool)
    requires hdr.Prepared()
    modifies db`data, db`counter, db`room, db`counting
    ensures Written(old(db.State()), EncPackagePure(hdr.AllTables(), hdr.Stored(), p), db.State(), ok,
                    CoversPackage(hdr.AllTables(), hdr.Stored(), p))
  {
    hide Written, Ready, EncString, EncWord, EncVector, CoversVersions;
    ghost var s0, t, f := db.State(), hdr.AllTables(), hdr.Stored();
    ghost var n, d, o := EncString(p.name), EncString(p.desc), EncString(p.homepage);
    ghost var l, v := EncWord(t.license)(p.licenses), EncVector(EncVersion(t, f), p.versions);
    ok := WriteTexts(db, p);
    ghost var s1, ok1 := db.State(), ok;
    if ok { ok := db.WriteHashString(hdr.licenseHash, p.licenses); }
    ghost var s2, ok2 := db.State(), ok;
    WrittenNext(s0, n + d + o, s1, ok1, true, l, s2, ok2, p.licenses in t.license);
    if ok { ok := WriteVersions(db, p.versions, hdr); }
    WrittenNext(s0, n + d + o + l, s2, ok2, p.licenses in t.license, v, db.State(), ok, CoversVersions(t, f, p.versions));
    Nest5(n, d, o, l, v);
  }

  /** The length from a counting run, then the package. */
  method WritePackage(db: Database, p: PackageData, hdr: DBHeader) returns (ok: bool)
    requires hdr.Prepared()
    modifies db`data, db`counter, db`room, db`counting
    ensures Written(old(db.State()), EncPackageOf(hdr.AllTables(), hdr.Stored(), p), db.State(), ok,
                    CoversPackage(hdr.AllTables(), hdr.Stored(), p))
  {
    hide EncNum, EncPackagePure, CoversPackage, Ready, Written;
    ghost var s0, t, f := db.State(), hdr.AllTables(), hdr.Stored();
    ghost var body, all := EncPackagePure(t, f, p), CoversPackage(t, f, p);
    var counterSave, countingSave := db.counter, db.counting;
    db.counter, db.counting := 0, true;
    ghost var c0 := db.State();
    var okC := WritePackagePure(db, p, hdr);
    Counted(c0, body, db.State(), okC, all);
    var counterDiff := db.counter;
    db.counter, db.counting := counterSave, countingSave;
    ok := db.WriteNum(counterDiff);
    ghost var s1, ok1 := db.State(), ok;
    if ok { ok := WritePackagePure(db, p, hdr); }
    WrittenCounted(s0, counterDiff, body, s1, ok1, db.State(), ok, all);
  }

  // ---- The tree ----

  method WriteCategoryHeader(db: Database, name: string, size: nat) returns (ok: bool)
    modifies db`data, db`counter, db`room
    ensures Written(old(db.State()), EncString(name) + EncNum(size), db.State(), ok, true)
  {
    hide Written, EncString, EncNum;
    ghost var s0 := db.State();
    ok := db.WriteString(name);
    ghost var s1, ok1 := db.State(), ok;
    if ok { ok := db.WriteNum(size); }
    WrittenNext(s0, EncString(name), s1, ok1, true, EncNum(size), db.State(), ok, true);
  }

  method WritePackages(db: Database, ps: seq<PackageData>, hdr: DBHeader) returns (ok: bool)
    requires hdr.Prepared()
    modifies db`data, db`counter, db`room, db`counting
    ensures var t, f := hdr.AllTables(), hdr.Stored();
      Written(old(db.State()), EncList(EncPackage(t, f), ps), db.State(), ok,
              forall i :: 0 <= i < |ps| ==> CoversPackage(t, f, ps[i]))
  {
    hide Written, Ready, EncPackageOf, CoversPackage, EncList, EncNum;
    ghost var s0, t, f := db.State(), hdr.AllTables(), hdr.Stored();
    ghost var enc, all := EncPackage(t, f), forall i :: 0 <= i < |ps| ==> CoversPackage(t, f, ps[i]);
    ListStart(s0, enc, ps);
    for i := 0 to |ps|
      invariant Written(s0, EncList(enc, ps[..i]), db.State(), true, true)
      invariant forall j :: 0 <= j < i ==> CoversPackage(t, f, ps[j])
      invariant hdr.Prepared() && hdr.AllTables() == t && hdr.Stored() == f
    {
      ghost var s1 := db.State();
      ok := WritePackage(db, ps[i], hdr);
      ListStep(s0, enc, ps, i, s1, db.State(), ok, CoversPackage(t, f, ps[i]), all);
      if !ok { return; }
    }
    ListEnd(s0, enc, ps, db.State());
    return true;
  }

  method WriteCategory(db: Database, c: Category, hdr: DBHeader) returns (ok: bool)
    requires hdr.Prepared()
    modifies db`data, db`counter, db`room, db`counting
    ensures Written(old(db.State()), EncCategoryOf(hdr.AllTables(), hdr.Stored(), c), db.State(), ok,
                    CoversCategory(hdr.AllTables(), hdr.Stored(), c))
  {
    hide Written, Ready, EncString, EncNum, EncList, CoversPackage;
    ghost var s0, t, f := db.State(), hdr.AllTables(), hdr.Stored();
    ghost var n, m, l := EncString(c.name), EncNum(|c.packages|), EncList(EncPackage(t, f), c.packages);
    ghost var all := forall i :: 0 <= i < |c.packages| ==> CoversPackage(t, f, c.packages[i]);
    ok := WriteCategoryHeader(db, c.name, |c.packages|);
    ghost var s1, ok1 := db.State(), ok;
    if ok { ok := WritePackages(db, c.packages, hdr); }
    WrittenNext(s0, n + m, s1, ok1, true, l, db.State(), ok, all);
    Nest3(n, m, l);
  }

  method WritePackageTree(db: Database, tree: seq<Category>, hdr: DBHeader) returns (ok: bool)
    requires hdr.Prepared()
    modifies db`data, db`counter, db`room, db`counting
    ensures Written(old(db.State()), EncTree(hdr.AllTables(), hdr.Stored(), tree), db.State(), ok,
                    CoversTree(hdr.AllTables(), hdr.Stored(), tree))
  {
    hide Written, Ready, EncCategoryOf, CoversCategory, EncList, EncNum;
    ghost var s0, t, f := db.State(), hdr.AllTables(), hdr.Stored();
    ghost var enc, all := EncCategory(t, f), CoversTree(t, f, tree);
    ListStart(s0, enc, tree);
    for i := 0 to |tree|
      invariant Written(s0, EncList(enc, tree[..i]), db.State(), true, true)
      invariant forall j :: 0 <= j < i ==> CoversCategory(t, f, tree[j])
      invariant hdr.Prepared() && hdr.AllTables() == t && hdr.Stored() == f
    {
      ghost var s1 := db.State();
      ok := WriteCategory(db, tree[i], hdr);
      ListStep(s0, enc, tree, i, s1, db.State(), ok, CoversCategory(t, f, tree[i]), all);
      if !ok { return; }
    }
    ListEnd(s0, enc, tree, db.State());
    return true;
  }

  // ---- The header ----

  method WriteStrings(db: Database, ss: seq<string>) returns (ok: bool)
    modifies db`data, db`counter, db`room
    ensures Written(old(db.State()), EncVector(EncStrings(), ss), db.State(), ok, true)
  {
    hide Written, EncString, EncList, EncNum;
    ghost var start, enc := db.State(), EncStrings();
    ok := db.WriteNum(|ss|);
    ghost var s0 := db.State();
    if !ok {
      WrittenNext(start, EncNum(|ss|), s0, false, true, EncList(enc, ss), s0, false, true);
      return;
    }
    ListStart(s0, enc, ss);
    for i := 0 to |ss|
      invariant Written(s0, EncList(enc, ss[..i]), db.State(), true, true)
    {
      ghost var s1 := db.State();
      ok := db.WriteString(ss[i]);
      ListStep(s0, enc, ss, i, s1, db.State(), ok, true, true);
      if !ok {
        WrittenNext(start, EncNum(|ss|), s0, true, true, EncList(enc, ss), db.State(), false, true);
        return;
      }
    }
    ListEnd(s0, enc, ss, db.State());
    WrittenNext(start, EncNum(|ss|), s0, true, true, EncList(enc, ss), db.State(), true, true);
    return true;
  }

  /** write_hash */
  method WriteHash(db: Database, hash: StringHash) returns (ok: bool)
    modifies db`data, db`counter, db`room
    ensures Written(old(db.State()), EncTable(hash.words), db.State(), ok, true)
  {
    hide Written, EncVector;
    ok := WriteStrings(db, hash.words);
  }

  method WriteOverlay(db: Database, o: Overlay) returns (ok: bool)
    modifies db`data, db`counter, db`room
    ensures Written(old(db.State()), EncOverlayOf(o), db.State(), ok, true)
  {
    hide Written, EncString;
    ghost var s0 := db.State();
    ok := db.WriteString(o.path);
    ghost var s1, ok1 := db.State(), ok;
    if ok { ok := db.WriteString(o.repo); }
    WrittenNext(s0, EncString(o.path), s1, ok1, true, EncString(o.repo), db.State(), ok, true);
  }

  method WriteOverlays(db: Database, os: seq<Overlay>) returns (ok: bool)
    modifies db`data, db`counter, db`room
    ensures Written(old(db.State()), EncList(EncOverlay(), os), db.State(), ok, true)
  {
    hide Written, EncList, EncOverlayOf;
    ghost var s0, enc := db.State(), EncOverlay();
    ListStart(s0, enc, os);
    for i := 0 to |os|
      invariant Written(s0, EncList(enc, os[..i]), db.State(), true, true)
    {
      ghost var s1 := db.State();
      ok := WriteOverlay(db, os[i]);
      ListStep(s0, enc, os, i, s1, db.State(), ok, true, true);
      if !ok { return; }
    }
    ListEnd(s0, enc, os, db.State());
    return true;
  }

  method WriteStart(db: Database, hdr: DBHeader) returns (ok: bool)
    modifies db`data, db`counter, db`room
    ensures Written(old(db.State()), EncStart(hdr.View()), db.State(), ok, true)
  {
    hide Written, EncNum, EncList;
    ghost var s0 := db.State();
    ghost var c, n := EncNum(CURRENT_VERSION), EncNum(hdr.size);
    ghost var m, l := EncNum(|hdr.overlays|), EncList(EncOverlay(), hdr.overlays);
    ok := db.WriteStringPlain(MAGIC);
    ghost var s1, ok1 := db.State(), ok;
    if ok { ok := db.WriteNum(CURRENT_VERSION); }
    ghost var s2, ok2 := db.State(), ok;
    WrittenNext(s0, MAGIC, s1, ok1, true, c, s2, ok2, true);
    if ok { ok := db.WriteNum(hdr.size); }
    ghost var s3, ok3 := db.State(), ok;
    WrittenNext(s0, MAGIC + c, s2, ok2, true, n, s3, ok3, true);
    if ok { ok := db.WriteNum(|hdr.overlays|); }
    ghost var s4, ok4 := db.State(), ok;
    WrittenNext(s0, MAGIC + c + n, s3, ok3, true, m, s4, ok4, true);
    if ok { ok := WriteOverlays(db, hdr.overlays); }
    WrittenNext(s0, MAGIC + c + n + m, s4, ok4, true, l, db.State(), ok, true);
    Nest5(MAGIC, c, n, m, l);
  }

  method WriteTables(db: Database, hdr: DBHeader) returns (ok: bool)
    modifies db`data, db`counter, db`room
    ensures Written(old(db.State()), EncTables(hdr.AllTables()), db.State(), ok, true)
  {
    hide Written, EncTable;
    ghost var s0, t := db.State(), hdr.AllTables();
    ghost var a, b, c, d, e := EncTable(t.eapi), EncTable(t.license), EncTable(t.keywords), EncTable(t.iuse), EncTable(t.slot);
    ok := WriteHash(db, hdr.eapiHash);
    ghost var s1, ok1 := db.State(), ok;
    if ok { ok := WriteHash(db, hdr.licenseHash); }
    ghost var s2, ok2 := db.State(), ok;
    WrittenNext(s0, a, s1, ok1, true, b, s2, ok2, true);
    if ok { ok := WriteHash(db, hdr.keywordsHash); }
    ghost var s3, ok3 := db.State(), ok;
    WrittenNext(s0, a + b, s2, ok2, true, c, s3, ok3, true);
    if ok { ok := WriteHash(db, hdr.iuseHash); }
    ghost var s4, ok4 := db.State(), ok;
    WrittenNext(s0, a + b + c, s3, ok3, true, d, s4, ok4, true);
    if ok { ok := WriteHash(db, hdr.slotHash); }
    WrittenNext(s0, a + b + c + d, s4, ok4, true, e, db.State(), ok, true);
    Nest5(a, b, c, d, e);
  }

  /** The dependency table with its length from a counting run. */
  method WriteDependTable(db: Database, hdr: DBHeader) returns (ok: bool)
    modifies db`data, db`counter, db`room, db`counting
    ensures Written(old(db.State()), EncStoredTable(hdr.View()), db.State(), ok, true)
  {
    hide EncNum, EncTable, Written;
    ghost var s0 := db.State();
    if !hdr.useDepend {
      WriteNothing(s0);
      return true;
    }
    ghost var body := EncTable(hdr.dependHash.words);
    var counterSave, countingSave := db.counter, db.counting;
    db.counter, db.counting := 0, true;
    ghost var c0 := db.State();
    var okC := WriteHash(db, hdr.dependHash);
    Counted(c0, body, db.State(), okC, true);
    var counterDiff := db.counter;
    db.counter, db.counting := counterSave, countingSave;
    ok := db.WriteNum(counterDiff);
    ghost var s1, ok1 := db.State(), ok;
    if ok { ok := WriteHash(db, hdr.dependHash); }
    WrittenCounted(s0, counterDiff, body, s1, ok1, db.State(), ok, true);
  }

  method WriteEnd(db: Database, hdr: DBHeader) returns (ok: bool)
    modifies db`data, db`counter, db`room, db`counting
    ensures Written(old(db.State()), EncEnd(hdr.View()), db.State(), ok, true)
  {
    hide Written, EncNum, EncVector, EncStoredTable;
    ghost var s0, h := db.State(), hdr.View();
    ok := WriteStrings(db, hdr.worldSets);
    ghost var w, m := EncVector(EncStrings(), h.worldSets), EncNum(Bitmask(h.stored));
    ghost var s1, ok1 := db.State(), ok;
    var saveBitmask := 0;
    if hdr.useDepend { saveBitmask := saveBitmask + 1; }
    if hdr.useSrcUri { saveBitmask := saveBitmask + 4; }
    if hdr.useRequiredUse { saveBitmask := saveBitmask + 2; }
    if ok { ok := db.WriteNum(saveBitmask); }
    ghost var s2, ok2 := db.State(), ok;
    WrittenNext(s0, w, s1, ok1, true, m, s2, ok2, true);
    if ok { ok := WriteDependTable(db, hdr); }
    WrittenNext(s0, w + m, s2, ok2, true, EncStoredTable(h), db.State(), ok, true);
    Nest3(w, m, EncStoredTable(h));
  }

  method WriteHeader(db: Database, hdr: DBHeader) returns (ok: bool)
    modifies db`data, db`counter, db`room, db`counting
    ensures Written(old(db.State()), EncHeader(hdr.View()), db.State(), ok, true)
  {
    hide Written, EncStart, EncTables, EncEnd;
    ghost var s0, h := db.State(), hdr.View();
    ghost var a, b, c := EncStart(h), EncTables(h.tables), EncEnd(h);
    ok := WriteStart(db, hdr);
    ghost var s1, ok1 := db.State(), ok;
    if ok { ok := WriteTables(db, hdr); }
    ghost var s2, ok2 := db.State(), ok;
    WrittenNext(s0, a, s1, ok1, true, b, s2, ok2, true);
    if ok { ok := WriteEnd(db, hdr); }
    WrittenNext(s0, a + b, s2, ok2, true, c, db.State(), ok, true);
    Nest3(a, b, c);
  }

  method WriteAll(db: Database, hdr: DBHeader, tree: seq<Category>) returns (ok: bool)
    requires hdr.Prepared() && !db.counting && db.data == []
    modifies db`data, db`counter, db`room, db`counting
    ensures var text := EncHeader(hdr.View()) + EncTree(hdr.AllTables(), hdr.Stored(), tree);
      Written(old(db.State()), text, db.State(), ok, CoversTree(hdr.AllTables(), hdr.Stored(), tree))
  {
    hide Written, EncHeader, EncTree, CoversTree, Ready;
    ghost var s0, t, f := db.State(), hdr.AllTables(), hdr.Stored();
    ok := WriteHeader(db, hdr);
    ghost var s1, ok1 := db.State(), ok;
    if ok { ok := WritePackageTree(db, tree, hdr); }
    WrittenNext(s0, EncHeader(hdr.View()), s1, ok1, true, EncTree(t, f, tree), db.State(), ok, CoversTree(t, f, tree));
  }

  /** The whole index: on a fresh file, the tables are prepared and everything is written.
      It fails only for lack of room; no word is ever missing in its table. */
  method WriteIndex(db: Database, hdr: DBHeader, wanted: Flags, tree: seq<Category>) returns (ok: bool)
    requires hdr.Valid() && !db.counting && db.data == []
    modifies hdr, hdr.Hashes(), db`data, db`counter, db`room, db`counting
    ensures hdr.Valid() && hdr.Stored() == wanted && CoversTree(hdr.AllTables(), wanted, tree)
    ensures hdr.size == |tree| && hdr.overlays == old(hdr.overlays) && hdr.worldSets == old(hdr.worldSets)
    ensures Optimal(hdr.AllTables(), TreeRefs(wanted, tree))
    ensures var text := EncHeader(hdr.View()) + EncTree(hdr.AllTables(), wanted, tree);
      (ok <==> |text| <= old(db.room)) && (ok ==> db.data == text)
  {
    hide Written, EncHeader, EncTree, CoversTree, FrequencyOrder, Ready, Optimal, StringHash.Valid;
    ghost var s0 := db.State();
    hdr.size := |tree|;
    hdr.Prepare(wanted, tree);
    ok := WriteAll(db, hdr, tree);
    WrittenFromScratch(s0, EncHeader(hdr.View()) + EncTree(hdr.AllTables(), wanted, tree), db.State(), ok);
  }

  lemma WrittenFromScratch(a: Sink, s: string, b: Sink, ok: bool)
    requires !a.counting && a.data == [] && Written(a, s, b, ok, true)
    ensures (ok <==> |s| <= a.room) && (ok ==> b.data == s)
  {
    assert [] + s == s;
  }
}
