/** Reading an index: the header, and the parts of a package. */
module IndexReader {
  import opened NumberCodec
  import opened Strings
  import opened StringTable
  import opened Versions
  import opened Packages
  import opened IndexFormat
  import opened IndexHeader
  import opened IndexDatabase
  import opened Wrappers

  // ---- Parts of a version ----

  method ReadPart(db: Database) returns (r: Option<BasicPart>)
    modifies db`pos
    ensures match DecPart(db.data, old(db.pos)) case Fail => r == None case Got(v, q) => r == Some(v) && db.pos == q
  {
    hide DecNum, PackedLength, PackedKind;
    var n := db.ReadNum();
    if n.None? { return None; }
    var ptype := PackedKind(n.value);
    var len := PackedLength(n.value);
    if len != 0 {
      var buf := db.ReadPlain(len);
      if buf.None? { return None; }
      return Some(BasicPart(ptype, CStr(buf.value)));
    }
    return Some(BasicPart(ptype, []));
  }

  method ReadParts(db: Database) returns (r: Option<seq<BasicPart>>)
    modifies db`pos
    ensures match DecVector(DecPart, db.data, old(db.pos)) case Fail => r == None case Got(v, q) => r == Some(v) && db.pos == q
  {
    hide DecNum, DecPart;
    var n := db.ReadNum();
    if n.None? { return None; }
    var parts := [];
    ghost var start := db.pos;
    var i := 0;
    while i < n.value
      invariant i <= n.value && DecList(DecPart, db.data, start, i) == Got(parts, db.pos)
    {
      var b := ReadPart(db);
      i := i + 1;
      if b.None? {
        DecListFails(DecPart, db.data, start, i, n.value);
        return None;
      }
      parts := parts + [b.value];
    }
    return Some(parts);
  }

  method ReadDependPure(db: Database, hash: StringHash) returns (r: Option<Depend>)
    modifies db`pos
    ensures match DecDependPure(hash.words, db.data, old(db.pos)) case Fail => r == None case Got(v, q) => r == Some(v) && db.pos == q
  {
    hide DecJoined;
    var a := db.ReadJoinedWords(hash);
    if a.None? { return None; }
    var b := db.ReadJoinedWords(hash);
    if b.None? { return None; }
    var c := db.ReadJoinedWords(hash);
    if c.None? { return None; }
    var d := db.ReadJoinedWords(hash);
    if d.None? { return None; }
    var e := db.ReadJoinedWords(hash);
    if e.None? { return None; }
    return Some(Depend(a.value, b.value, c.value, d.value, e.value));
  }

  /** Dependencies that are not wanted are skipped by their stored length. */
  method ReadDepend(db: Database, hdr: DBHeader, wanted: bool) returns (r: Option<Depend>)
    modifies db`pos
    ensures match DecDepend(hdr.dependHash.words, wanted, db.data, old(db.pos))
            case Fail => r == None case Got(v, q) => r == Some(v) && db.pos == q
  {
    hide DecNum, DecDependPure;
    var len := db.ReadNum();
    if len.None? { return None; }
    if wanted {
      r := ReadDependPure(db, hdr.dependHash);
      return;
    }
    db.SeekRel(len.value);
    return Some(NO_DEPEND);
  }

  method ReadHead(db: Database, hdr: DBHeader) returns (r: Option<VersionHead>)
    modifies db`pos
    ensures match DecHead(hdr.AllTables(), db.data, old(db.pos)) case Fail => r == None case Got(v, q) => r == Some(v) && db.pos == q
  {
    hide DecNum, DecWordAt, DecByte;
    var eapi := db.ReadHashString(hdr.eapiHash);
    if eapi.None? { return None; }
    var mask := db.ReadNum();
    if mask.None? { return None; }
    var properties := db.ReadUChar();
    if properties.None? { return None; }
    var restrict := db.ReadNum();
    if restrict.None? { return None; }
    return Some(VersionHead(eapi.value, mask.value % 0x100, properties.value, restrict.value % 0x1_0000));
  }

  method ReadBody(db: Database, hdr: DBHeader) returns (r: Option<VersionBody>)
    modifies db`pos
    ensures match DecBody(hdr.AllTables(), db.data, old(db.pos)) case Fail => r == None case Got(v, q) => r == Some(v) && db.pos == q
  {
    hide DecNum, DecWordAt, DecJoined, DecVector;
    var keywords := db.ReadJoinedWords(hdr.keywordsHash);
    if keywords.None? { return None; }
    var parts := ReadParts(db);
    if parts.None? { return None; }
    var slot := db.ReadHashString(hdr.slotHash);
    if slot.None? { return None; }
    var key := db.ReadNum();
    if key.None? { return None; }
    return Some(VersionBody(keywords.value, parts.value, slot.value, key.value));
  }

  method ReadRequiredUse(db: Database, hdr: DBHeader, wanted: Flags) returns (r: Option<string>)
    modifies db`pos
    ensures match DecRequiredUse(hdr.View(), wanted, db.data, old(db.pos)) case Fail => r == None case Got(v, q) => r == Some(v) && db.pos == q
  {
    hide DecJoined, DecSkipWords;
    if !hdr.useRequiredUse { return Some([]); }
    if wanted.requiredUse {
      r := db.ReadJoinedWords(hdr.iuseHash);
    } else {
      var ok := db.SkipHashWords();
      return if ok then Some([]) else None;
    }
  }

  method ReadStoredDepend(db: Database, hdr: DBHeader, wanted: Flags) returns (r: Option<Depend>)
    modifies db`pos
    ensures match DecStoredDepend(hdr.View(), wanted, db.data, old(db.pos)) case Fail => r == None case Got(v, q) => r == Some(v) && db.pos == q
  {
    hide DecDepend;
    if hdr.useDepend { r := ReadDepend(db, hdr, wanted.dep); } else { return Some(NO_DEPEND); }
  }

  method ReadSrcUri(db: Database, hdr: DBHeader, wanted: Flags) returns (r: Option<string>)
    modifies db`pos
    ensures match DecSrcUri(hdr.View(), wanted, db.data, old(db.pos)) case Fail => r == None case Got(v, q) => r == Some(v) && db.pos == q
  {
    hide DecString, DecSkipString;
    if !hdr.useSrcUri { return Some([]); }
    if wanted.srcUri {
      r := db.ReadString();
    } else {
      var ok := db.SkipString();
      return if ok then Some([]) else None;
    }
  }

  method ReadTail(db: Database, hdr: DBHeader, wanted: Flags) returns (r: Option<VersionTail>)
    modifies db`pos
    ensures match DecTail(hdr.View(), wanted, db.data, old(db.pos)) case Fail => r == None case Got(v, q) => r == Some(v) && db.pos == q
  {
    hide DecWords, DecRequiredUse, DecStoredDepend, DecSrcUri;
    var iuse := db.ReadHashWords(hdr.iuseHash);
    if iuse.None? { return None; }
    var requiredUse := ReadRequiredUse(db, hdr, wanted);
    if requiredUse.None? { return None; }
    var depend := ReadStoredDepend(db, hdr, wanted);
    if depend.None? { return None; }
    var srcUri := ReadSrcUri(db, hdr, wanted);
    if srcUri.None? { return None; }
    return Some(VersionTail(iuse.value, requiredUse.value, depend.value, srcUri.value));
  }

  method ReadVersion(db: Database, hdr: DBHeader, wanted: Flags) returns (r: Option<Version>)
    modifies db`pos
    ensures match DecVersionAt(hdr.View(), wanted, db.data, old(db.pos)) case Fail => r == None case Got(v, q) => r == Some(v) && db.pos == q
    ensures r.Some? && r.value.overlayKey < |hdr.overlays| ==>
      var o := hdr.overlays[r.value.overlayKey]; r.value.reponame == o.repo && r.value.priority == o.priority
    ensures r.Some? && r.value.overlayKey >= |hdr.overlays| ==> r.value.reponame == "" && r.value.priority == 0
  {
    hide DecHead, DecBody, DecTail, SplitSlot;
    var a := ReadHead(db, hdr);
    if a.None? { return None; }
    var b := ReadBody(db, hdr);
    if b.None? { return None; }
    var o := hdr.FindOverlay(b.value.overlayKey);
    if o.None? { return None; }
    var c := ReadTail(db, hdr, wanted);
    if c.None? { return None; }
    return Some(MakeVersion(a.value, b.value, o.value, c.value));
  }

  /** (category name, number of its packages) */
  method ReadCategoryHeader(db: Database) returns (r: Option<(string, nat)>)
    modifies db`pos
    ensures match DecCategoryHeader(db.data, old(db.pos)) case Fail => r == None case Got(v, q) => r == Some(v) && db.pos == q
  {
    hide DecString, DecNum;
    var name := db.ReadString();
    if name.None? { return None; }
    var size := db.ReadNum();
    if size.None? { return None; }
    return Some((name.value, size.value));
  }

  // ---- The header ----

  method ReadStrings(db: Database) returns (r: Option<seq<string>>)
    modifies db`pos
    ensures match DecVector(DecString, db.data, old(db.pos)) case Fail => r == None case Got(v, q) => r == Some(v) && db.pos == q
  {
    hide DecNum, DecString;
    var n := db.ReadNum();
    if n.None? { return None; }
    var ss := [];
    ghost var start := db.pos;
    var i := 0;
    while i < n.value
      invariant i <= n.value && DecList(DecString, db.data, start, i) == Got(ss, db.pos)
    {
      var s := db.ReadString();
      i := i + 1;
      if s.None? {
        DecListFails(DecString, db.data, start, i, n.value);
        return None;
      }
      ss := ss + [s.value];
    }
    return Some(ss);
  }

  /** read_hash: fills a table and closes it; it cannot be used for writing. */
  method ReadHash(db: Database, hash: StringHash) returns (ok: bool)
    modifies db`pos, hash
    ensures match DecTable(db.data, old(db.pos))
            case Fail => !ok
            case Got(ws, q) => ok && db.pos == q && hash.words == ws
    ensures ok ==> hash.Valid() && !hash.hashing && hash.finalized
  {
    hide DecNum, DecString;
    hash.Init(false);
    var n := db.ReadNum();
    if n.None? { return false; }
    ghost var start := db.pos;
    var i := 0;
    while i < n.value
      invariant i <= n.value && DecList(DecString, db.data, start, i) == Got(hash.words, db.pos)
      invariant hash.Valid() && !hash.hashing && !hash.finalized
    {
      var s := db.ReadString();
      i := i + 1;
      if s.None? {
        DecListFails(DecString, db.data, start, i, n.value);
        return false;
      }
      var _ := hash.StoreString(s.value);
    }
    hash.Finalize();
    return true;
  }

  method ReadOverlay(db: Database) returns (r: Option<Overlay>)
    modifies db`pos
    ensures match DecOverlay(db.data, old(db.pos)) case Fail => r == None case Got(v, q) => r == Some(v) && db.pos == q
  {
    hide DecString;
    var path := db.ReadString();
    if path.None? { return None; }
    var ov := db.ReadString();
    if ov.None? { return None; }
    return Some(Overlay(path.value, ov.value, 0));
  }

  method ReadOverlays(db: Database, hdr: DBHeader) returns (ok: bool)
    modifies db`pos, hdr`overlays
    ensures match DecVector(DecOverlay, db.data, old(db.pos))
            case Fail => !ok case Got(v, q) => ok && db.pos == q && hdr.overlays == old(hdr.overlays) + v
  {
    hide DecNum, DecOverlay;
    var n := db.ReadNum();
    if n.None? { return false; }
    ghost var start, before := db.pos, hdr.overlays;
    ghost var os: seq<Overlay> := [];
    var i := 0;
    while i < n.value
      invariant i <= n.value && DecList(DecOverlay, db.data, start, i) == Got(os, db.pos)
      invariant hdr.overlays == before + os
    {
      var o := ReadOverlay(db);
      i := i + 1;
      if o.None? {
        DecListFails(DecOverlay, db.data, start, i, n.value);
        return false;
      }
      var _ := hdr.AddOverlay(o.value);
      Regroup(before, os, [o.value]);
      os := os + [o.value];
    }
    return true;
  }

  method ReadStart(db: Database, hdr: DBHeader, minVersion: nat) returns (ok: bool)
    modifies db`pos, hdr`size, hdr`overlays
    ensures match DecStart(minVersion, db.data, old(db.pos))
            case Fail => !ok
            case Got(s, q) => ok && db.pos == q && hdr.size == s.0 && hdr.overlays == old(hdr.overlays) + s.1
  {
    hide DecNum, DecVector;
    var magic := db.ReadPlain(|MAGIC|);
    if magic.None? || magic.value != MAGIC { return false; }
    var version := db.ReadNum();
    if version.None? || version.value != CURRENT_VERSION || version.value < minVersion { return false; }
    var size := db.ReadNum();
    if size.None? { return false; }
    hdr.size := size.value;
    ok := ReadOverlays(db, hdr);
  }

  method ReadTables(db: Database, hdr: DBHeader) returns (ok: bool)
    requires hdr.Separate()
    modifies db`pos, hdr.Hashes() - {hdr.dependHash}
    ensures match DecTables(db.data, old(db.pos))
            case Fail => !ok
            case Got(t, q) => ok && db.pos == q && hdr.AllTables() == t.(depend := old(hdr.dependHash.words))
  {
    hide DecTable, StringHash.Valid;
    ok := ReadHash(db, hdr.eapiHash);
    if !ok { return; }
    ok := ReadHash(db, hdr.licenseHash);
    if !ok { return; }
    ok := ReadHash(db, hdr.keywordsHash);
    if !ok { return; }
    ok := ReadHash(db, hdr.iuseHash);
    if !ok { return; }
    ok := ReadHash(db, hdr.slotHash);
  }

  /** The dependency table is skipped by its length when it is not wanted. */
  method ReadEnd(db: Database, hdr: DBHeader, wantDep: bool) returns (ok: bool)
    requires hdr.dependHash.words == []
    modifies db`pos, hdr`worldSets, hdr`useDepend, hdr`useRequiredUse, hdr`useSrcUri, hdr.dependHash
    ensures match DecEnd(wantDep, db.data, old(db.pos))
            case Fail => !ok
            case Got(e, q) => ok && db.pos == q && hdr.worldSets == old(hdr.worldSets) + e.0 && hdr.Stored() == e.1
                              && hdr.dependHash.words == e.2
  {
    hide DecNum, DecTable, DecVector, StringHash.Valid;
    var sets := ReadStrings(db);
    if sets.None? { return false; }
    hdr.worldSets := hdr.worldSets + sets.value;
    var mask := db.ReadNum();
    if mask.None? { return false; }
    hdr.useRequiredUse := mask.value / 2 % 2 == 1;
    hdr.useSrcUri := mask.value / 4 % 2 == 1;
    hdr.useDepend := mask.value % 2 == 1;
    if !hdr.useDepend { return true; }
    var len := db.ReadNum();
    if len.None? { return false; }
    if wantDep {
      ok := ReadHash(db, hdr.dependHash);
    } else {
      if len.value != 0 { db.SeekRel(len.value); }
      return true;
    }
  }

  /** read_header, into an empty header. */
  method ReadHeader(db: Database, hdr: DBHeader, minVersion: nat, wantDep: bool) returns (ok: bool)
    requires hdr.Separate() && hdr.overlays == [] && hdr.worldSets == [] && hdr.dependHash.words == []
    modifies db`pos, hdr, hdr.Hashes()
    ensures match DecHeader(minVersion, wantDep, db.data, old(db.pos))
            case Fail => !ok case Got(h, q) => ok && db.pos == q && hdr.View() == h
  {
    hide DecStart, DecTables, DecEnd;
    ok := ReadStart(db, hdr, minVersion);
    if !ok { return; }
    ok := ReadTables(db, hdr);
    if !ok { return; }
    ok := ReadEnd(db, hdr, wantDep);
  }
}
