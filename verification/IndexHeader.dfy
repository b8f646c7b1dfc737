/** The header object with its word tables, and how the tables are prepared from a tree. */
module IndexHeader {
  import opened Strings
  import opened StringTable
  import opened Packages
  import opened IndexFormat
  import opened Wrappers

  /** The words a file refers to, in the order in which they are hashed. */
  datatype Refs = Refs(
    eapi: seq<string>, license: seq<string>, keywords: seq<string>,
    iuse: seq<string>, slot: seq<string>, depend: seq<string>)

  const NO_REFS := Refs([], [], [], [], [], [])

  function AddRefs(a: Refs, b: Refs): Refs
  {
    Refs(a.eapi + b.eapi, a.license + b.license, a.keywords + b.keywords,
         a.iuse + b.iuse, a.slot + b.slot, a.depend + b.depend)
  }

  function DependRefs(d: Depend): seq<string>
  {
    Words(d.depend) + Words(d.rdepend) + Words(d.pdepend) + Words(d.bdepend) + Words(d.idepend)
  }

  function VersionRefs(stored: Flags, v: Version): Refs
  {
    Refs([v.eapi], [], Words(v.keywords), v.iuse + (if stored.requiredUse then Words(v.requiredUse) else []),
         [ShortSlot(v)], if stored.dep then DependRefs(v.depend) else [])
  }

  function VersionsRefs(stored: Flags, vs: seq<Version>): Refs
  {
    if vs == [] then NO_REFS else AddRefs(VersionsRefs(stored, vs[..|vs| - 1]), VersionRefs(stored, vs[|vs| - 1]))
  }

  function PackageRefs(stored: Flags, p: PackageData): Refs
  {
    AddRefs(NO_REFS.(license := [p.licenses]), VersionsRefs(stored, p.versions))
  }

  function PackagesRefs(stored: Flags, ps: seq<PackageData>): Refs
  {
    if ps == [] then NO_REFS else AddRefs(PackagesRefs(stored, ps[..|ps| - 1]), PackageRefs(stored, ps[|ps| - 1]))
  }

  function TreeRefs(stored: Flags, tree: seq<Category>): Refs
  {
    if tree == [] then NO_REFS
    else AddRefs(TreeRefs(stored, tree[..|tree| - 1]), PackagesRefs(stored, tree[|tree| - 1].packages))
  }

  lemma AddRefsAssociates(a: Refs, b: Refs, c: Refs)
    ensures AddRefs(AddRefs(a, b), c) == AddRefs(a, AddRefs(b, c))
  {
    Regroup(a.eapi, b.eapi, c.eapi);
    Regroup(a.license, b.license, c.license);
    Regroup(a.keywords, b.keywords, c.keywords);
    Regroup(a.iuse, b.iuse, c.iuse);
    Regroup(a.slot, b.slot, c.slot);
    Regroup(a.depend, b.depend, c.depend);
  }

  lemma AddNoRefs(a: Refs)
    ensures AddRefs(a, NO_REFS) == a
  {
    assert a.eapi + [] == a.eapi && a.license + [] == a.license && a.keywords + [] == a.keywords;
    assert a.iuse + [] == a.iuse && a.slot + [] == a.slot && a.depend + [] == a.depend;
  }

  // ---- A finished table for every reference ----

  predicate CoversRefs(t: Tables, r: Refs)
  {
    AllIn(r.eapi, t.eapi) && AllIn(r.license, t.license) && AllIn(r.keywords, t.keywords)
    && AllIn(r.iuse, t.iuse) && AllIn(r.slot, t.slot) && AllIn(r.depend, t.depend)
  }

  lemma AllInSum(a: seq<string>, b: seq<string>, t: seq<string>)
    ensures AllIn(a + b, t) <==> AllIn(a, t) && AllIn(b, t)
  {
    if AllIn(a + b, t) {
      forall w | w in a || w in b ensures w in t { assert w in a + b; }
    }
  }

  lemma CoversSum(t: Tables, a: Refs, b: Refs)
    ensures CoversRefs(t, AddRefs(a, b)) <==> CoversRefs(t, a) && CoversRefs(t, b)
  {
    hide AllIn;
    AllInSum(a.eapi, b.eapi, t.eapi);
    AllInSum(a.license, b.license, t.license);
    AllInSum(a.keywords, b.keywords, t.keywords);
    AllInSum(a.iuse, b.iuse, t.iuse);
    AllInSum(a.slot, b.slot, t.slot);
    AllInSum(a.depend, b.depend, t.depend);
  }

  lemma VersionCovered(t: Tables, stored: Flags, v: Version)
    ensures CoversVersion(t, stored, v) <==> CoversRefs(t, VersionRefs(stored, v))
  {
    hide Words, ShortSlot;
    assert AllIn([], t.license);
    assert AllIn([v.eapi], t.eapi) <==> v.eapi in t.eapi by { assert v.eapi in [v.eapi]; }
    assert AllIn([ShortSlot(v)], t.slot) <==> ShortSlot(v) in t.slot by { assert ShortSlot(v) in [ShortSlot(v)]; }
    hide AllIn;
    AllInSum(v.iuse, if stored.requiredUse then Words(v.requiredUse) else [], t.iuse);
    AllInNone(t.iuse);
    AllInNone(t.depend);
    var d := v.depend;
    AllInSum(Words(d.depend) + Words(d.rdepend) + Words(d.pdepend) + Words(d.bdepend), Words(d.idepend), t.depend);
    AllInSum(Words(d.depend) + Words(d.rdepend) + Words(d.pdepend), Words(d.bdepend), t.depend);
    AllInSum(Words(d.depend) + Words(d.rdepend), Words(d.pdepend), t.depend);
    AllInSum(Words(d.depend), Words(d.rdepend), t.depend);
  }

  lemma AllInNone(t: seq<string>)
    ensures AllIn([], t)
  {
  }

  lemma {:induction false} VersionsCovered(t: Tables, stored: Flags, vs: seq<Version>)
    ensures CoversRefs(t, VersionsRefs(stored, vs)) <==> forall i :: 0 <= i < |vs| ==> CoversVersion(t, stored, vs[i])
  {
    if vs != [] {
      hide CoversRefs, CoversVersion, VersionRefs, AddRefs;
      var n := |vs| - 1;
      CoversSum(t, VersionsRefs(stored, vs[..n]), VersionRefs(stored, vs[n]));
      VersionCovered(t, stored, vs[n]);
      VersionsCovered(t, stored, vs[..n]);
    }
  }

  lemma PackageCovered(t: Tables, stored: Flags, p: PackageData)
    ensures CoversRefs(t, PackageRefs(stored, p)) <==> CoversPackage(t, stored, p)
  {
    hide CoversVersion, VersionsRefs;
    var one := NO_REFS.(license := [p.licenses]);
    assert CoversRefs(t, one) <==> p.licenses in t.license by { assert p.licenses in one.license; }
    CoversSum(t, one, VersionsRefs(stored, p.versions));
    VersionsCovered(t, stored, p.versions);
  }

  lemma {:induction false} PackagesCovered(t: Tables, stored: Flags, ps: seq<PackageData>)
    ensures CoversRefs(t, PackagesRefs(stored, ps)) <==> forall i :: 0 <= i < |ps| ==> CoversPackage(t, stored, ps[i])
  {
    if ps != [] {
      hide CoversRefs, CoversPackage, PackageRefs, AddRefs;
      var n := |ps| - 1;
      CoversSum(t, PackagesRefs(stored, ps[..n]), PackageRefs(stored, ps[n]));
      PackageCovered(t, stored, ps[n]);
      PackagesCovered(t, stored, ps[..n]);
    }
  }

  /** Tables hold everything a tree refers to exactly if no lookup misses while it is written. */
  lemma {:induction false} TreeCovered(t: Tables, stored: Flags, tree: seq<Category>)
    ensures CoversRefs(t, TreeRefs(stored, tree)) <==> CoversTree(t, stored, tree)
  {
    if tree != [] {
      hide CoversRefs, CoversPackage, PackagesRefs, AddRefs;
      var n := |tree| - 1;
      CoversSum(t, TreeRefs(stored, tree[..n]), PackagesRefs(stored, tree[n].packages));
      PackagesCovered(t, stored, tree[n].packages);
      TreeCovered(t, stored, tree[..n]);
    }
  }

  /** Every table holds the words that were hashed into it, the most frequent first. */
  ghost predicate Optimal(t: Tables, r: Refs)
  {
    && FrequencyOrder(t.eapi, r.eapi) && FrequencyOrder(t.license, r.license)
    && FrequencyOrder(t.keywords, r.keywords) && FrequencyOrder(t.iuse, r.iuse) && FrequencyOrder(t.slot, r.slot)
  }

  lemma OrderCovers(ws: seq<string>, hashed: seq<string>)
    requires FrequencyOrder(ws, hashed)
    ensures AllIn(hashed, ws)
  {
  }

  /** Preparing the tables from a tree means that no word of the tree is missing. */
  lemma OptimalCovers(t: Tables, stored: Flags, tree: seq<Category>)
    requires Optimal(t, TreeRefs(stored, tree))
    requires stored.dep ==> FrequencyOrder(t.depend, TreeRefs(stored, tree).depend)
    ensures CoversTree(t, stored, tree)
  {
    hide TreeRefs, FrequencyOrder, CoversTree;
    if !stored.dep { NoDependRefs(stored, tree); }
    var r := TreeRefs(stored, tree);
    OrderCovers(t.eapi, r.eapi);
    OrderCovers(t.license, r.license);
    OrderCovers(t.keywords, r.keywords);
    OrderCovers(t.iuse, r.iuse);
    OrderCovers(t.slot, r.slot);
    if stored.dep { OrderCovers(t.depend, r.depend); }
    TreeCovered(t, stored, tree);
  }

  lemma {:induction false} NoVersionsDependRefs(stored: Flags, vs: seq<Version>)
    requires !stored.dep
    ensures VersionsRefs(stored, vs).depend == []
  {
    if vs != [] { NoVersionsDependRefs(stored, vs[..|vs| - 1]); }
  }

  lemma {:induction false} NoPackagesDependRefs(stored: Flags, ps: seq<PackageData>)
    requires !stored.dep
    ensures PackagesRefs(stored, ps).depend == []
  {
    if ps != [] {
      NoVersionsDependRefs(stored, ps[|ps| - 1].versions);
      NoPackagesDependRefs(stored, ps[..|ps| - 1]);
    }
  }

  lemma {:induction false} NoDependRefs(stored: Flags, tree: seq<Category>)
    requires !stored.dep
    ensures TreeRefs(stored, tree).depend == []
  {
    if tree != [] {
      NoPackagesDependRefs(stored, tree[|tree| - 1].packages);
      NoDependRefs(stored, tree[..|tree| - 1]);
    }
  }

  lemma VersionsRefsNext(stored: Flags, vs: seq<Version>, i: nat, start: Refs)
    requires i < |vs|
    ensures AddRefs(AddRefs(start, VersionsRefs(stored, vs[..i])), VersionRefs(stored, vs[i]))
         == AddRefs(start, VersionsRefs(stored, vs[..i + 1]))
  {
    hide AddRefs, VersionRefs;
    assert vs[..i + 1][..i] == vs[..i];
    AddRefsAssociates(start, VersionsRefs(stored, vs[..i]), VersionRefs(stored, vs[i]));
  }

  lemma PackagesRefsNext(stored: Flags, ps: seq<PackageData>, i: nat, start: Refs)
    requires i < |ps|
    ensures AddRefs(AddRefs(start, PackagesRefs(stored, ps[..i])), PackageRefs(stored, ps[i]))
         == AddRefs(start, PackagesRefs(stored, ps[..i + 1]))
  {
    hide AddRefs, PackageRefs;
    assert ps[..i + 1][..i] == ps[..i];
    AddRefsAssociates(start, PackagesRefs(stored, ps[..i]), PackageRefs(stored, ps[i]));
  }

  class DBHeader {
    const eapiHash: StringHash
    const licenseHash: StringHash
    const keywordsHash: StringHash
    const iuseHash: StringHash
    const slotHash: StringHash
    const dependHash: StringHash
    var size: nat
    var overlays: seq<Overlay>
    var useDepend: bool
    var useRequiredUse: bool
    var useSrcUri: bool
    var worldSets: seq<string>

    constructor ()
      ensures Valid() && fresh(Hashes())
      ensures View() == Header(0, [], Tables([], [], [], [], [], []), Flags(false, false, false), [])
    {
      eapiHash := new StringHash();
      licenseHash := new StringHash();
      keywordsHash := new StringHash();
      iuseHash := new StringHash();
      slotHash := new StringHash();
      dependHash := new StringHash();
      size, overlays, worldSets := 0, [], [];
      useDepend, useRequiredUse, useSrcUri := false, false, false;
    }

    function Hashes(): set<StringHash>
    {
      {eapiHash, licenseHash, keywordsHash, iuseHash, slotHash, dependHash}
    }

    ghost predicate Separate()
    {
      && eapiHash !in {licenseHash, keywordsHash, iuseHash, slotHash, dependHash}
      && licenseHash !in {keywordsHash, iuseHash, slotHash, dependHash}
      && keywordsHash !in {iuseHash, slotHash, dependHash}
      && iuseHash !in {slotHash, dependHash}
      && slotHash != dependHash
    }

    /** The six tables are different objects, each in order. */
    ghost predicate Valid()
      reads Hashes()
    {
      && Separate()
      && eapiHash.Valid() && licenseHash.Valid() && keywordsHash.Valid()
      && iuseHash.Valid() && slotHash.Valid() && dependHash.Valid()
    }

    function Stored(): Flags
      reads this
    {
      Flags(useDepend, useRequiredUse, useSrcUri)
    }

    function AllTables(): Tables
      reads Hashes()
    {
      Tables(eapiHash.words, licenseHash.words, keywordsHash.words, iuseHash.words, slotHash.words, dependHash.words)
    }

    function View(): Header
      reads this, Hashes()
    {
      Header(size, overlays, AllTables(), Stored(), worldSets)
    }

    /** Words can be looked up in every table that is used. */
    ghost predicate Prepared()
      reads this, Hashes()
    {
      && Separate()
      && Ready(eapiHash) && Ready(licenseHash) && Ready(keywordsHash) && Ready(iuseHash) && Ready(slotHash)
      && (useDepend ==> Ready(dependHash))
    }

    /** Words are being counted in every table that is used. */
    ghost predicate Collecting()
      reads this, Hashes()
    {
      && Separate()
      && Open(eapiHash) && Open(licenseHash) && Open(keywordsHash) && Open(iuseHash) && Open(slotHash)
      && dependHash.Valid() && (useDepend ==> Open(dependHash))
    }

    /** What was counted so far. */
    ghost function Logged(): Refs
      reads this, Hashes()
    {
      Refs(eapiHash.hashed, licenseHash.hashed, keywordsHash.hashed, iuseHash.hashed, slotHash.hashed,
           if useDepend then dependHash.hashed else [])
    }

    method HashDepend(dep: Depend)
      requires Open(dependHash)
      modifies dependHash
      ensures Open(dependHash) && dependHash.hashed == old(dependHash.hashed) + DependRefs(dep)
    {
      hide Words;
      ghost var h := dependHash.hashed;
      var _ := dependHash.HashWordsOf(dep.depend);
      var _ := dependHash.HashWordsOf(dep.rdepend);
      var _ := dependHash.HashWordsOf(dep.pdepend);
      var _ := dependHash.HashWordsOf(dep.bdepend);
      var _ := dependHash.HashWordsOf(dep.idepend);
      Regroup(h, Words(dep.depend), Words(dep.rdepend));
      Regroup(h, Words(dep.depend) + Words(dep.rdepend), Words(dep.pdepend));
      Regroup(h, Words(dep.depend) + Words(dep.rdepend) + Words(dep.pdepend), Words(dep.bdepend));
      Regroup(h, Words(dep.depend) + Words(dep.rdepend) + Words(dep.pdepend) + Words(dep.bdepend), Words(dep.idepend));
    }

    method HashIuse(v: Version)
      requires Open(iuseHash)
      modifies iuseHash
      ensures Open(iuseHash) && iuseHash.hashed == old(iuseHash.hashed) + VersionRefs(Stored(), v).iuse
    {
      hide Words;
      ghost var h := iuseHash.hashed;
      var _ := iuseHash.HashWords(v.iuse);
      if useRequiredUse {
        var _ := iuseHash.HashWordsOf(v.requiredUse);
        Regroup(h, v.iuse, Words(v.requiredUse));
      } else {
        assert v.iuse + [] == v.iuse;
      }
    }

    method HashVersion(v: Version)
      requires Collecting()
      modifies Hashes()
      ensures Collecting() && Logged() == AddRefs(old(Logged()), VersionRefs(Stored(), v))
    {
      hide Words, ShortSlot;
      var _ := eapiHash.HashString(v.eapi);
      var _ := keywordsHash.HashWordsOf(v.keywords);
      HashIuse(v);
      var _ := slotHash.HashString(ShortSlot(v));
      if useDepend { HashDepend(v.depend); }
    }

    method HashVersions(vs: seq<Version>)
      requires Collecting()
      modifies Hashes()
      ensures Collecting() && Logged() == AddRefs(old(Logged()), VersionsRefs(Stored(), vs))
    {
      ghost var start := Logged();
      assert VersionsRefs(Stored(), vs[..0]) == NO_REFS;
      hide AddRefs, VersionRefs, VersionsRefs, Logged, Collecting;
      AddNoRefs(start);
      for i := 0 to |vs|
        invariant Collecting() && Logged() == AddRefs(start, VersionsRefs(Stored(), vs[..i]))
      {
        HashVersion(vs[i]);
        VersionsRefsNext(Stored(), vs, i, start);
      }
      assert vs[..|vs|] == vs;
    }

    method HashPackage(p: PackageData)
      requires Collecting()
      modifies Hashes()
      ensures Collecting() && Logged() == AddRefs(old(Logged()), PackageRefs(Stored(), p))
    {
      ghost var start := Logged();
      var _ := licenseHash.HashString(p.licenses);
      assert Logged() == AddRefs(start, NO_REFS.(license := [p.licenses])) by { AddNoRefs(start); }
      HashVersions(p.versions);
      AddRefsAssociates(start, NO_REFS.(license := [p.licenses]), VersionsRefs(Stored(), p.versions));
    }

    method HashPackages(ps: seq<PackageData>)
      requires Collecting()
      modifies Hashes()
      ensures Collecting() && Logged() == AddRefs(old(Logged()), PackagesRefs(Stored(), ps))
    {
      ghost var start := Logged();
      assert PackagesRefs(Stored(), ps[..0]) == NO_REFS;
      hide AddRefs, PackageRefs, PackagesRefs, Logged, Collecting;
      AddNoRefs(start);
      for i := 0 to |ps|
        invariant Collecting() && Logged() == AddRefs(start, PackagesRefs(Stored(), ps[..i]))
      {
        HashPackage(ps[i]);
        PackagesRefsNext(Stored(), ps, i, start);
      }
      assert ps[..|ps|] == ps;
    }

    /** prep_header_hashs: counts the words of the whole tree, then orders every table. */
    method Prepare(wanted: Flags, tree: seq<Category>)
      requires Valid()
      modifies this, Hashes()
      ensures Valid() && Prepared() && Stored() == wanted
      ensures size == old(size) && overlays == old(overlays) && worldSets == old(worldSets)
      ensures Optimal(AllTables(), TreeRefs(wanted, tree))
      ensures wanted.dep ==> FrequencyOrder(AllTables().depend, TreeRefs(wanted, tree).depend)
      ensures CoversTree(AllTables(), wanted, tree)
    {
      StartHashes(wanted);
      for i := 0 to |tree|
        invariant Collecting() && Stored() == wanted && Logged() == TreeRefs(wanted, tree[..i])
        invariant size == old(size) && overlays == old(overlays) && worldSets == old(worldSets)
      {
        HashPackages(tree[i].packages);
        assert tree[..i + 1][..i] == tree[..i];
      }
      assert tree[..|tree|] == tree;
      FinalizeHashes();
      OptimalCovers(AllTables(), wanted, tree);
    }

    method StartHashes(wanted: Flags)
      requires Valid()
      modifies this, Hashes()
      ensures Collecting() && Stored() == wanted && Logged() == NO_REFS
      ensures size == old(size) && overlays == old(overlays) && worldSets == old(worldSets)
    {
      hide StringHash.Valid, Open;
      eapiHash.Init(true);
      licenseHash.Init(true);
      keywordsHash.Init(true);
      slotHash.Init(true);
      iuseHash.Init(true);
      useDepend := wanted.dep;
      if wanted.dep { dependHash.Init(true); }
      useSrcUri := wanted.srcUri;
      useRequiredUse := wanted.requiredUse;
    }

    method FinalizeHashes()
      requires Collecting()
      modifies Hashes()
      ensures Valid() && Prepared() && Optimal(AllTables(), old(Logged()))
      ensures useDepend ==> FrequencyOrder(AllTables().depend, old(Logged()).depend)
    {
      hide StringHash.Valid, FrequencyOrder;
      eapiHash.Finalize();
      licenseHash.Finalize();
      keywordsHash.Finalize();
      slotHash.Finalize();
      iuseHash.Finalize();
      if useDepend { dependHash.Finalize(); }
    }

    /** The key right behind the last overlay is not caught by the program. */
    method FindOverlay(key: nat) returns (r: Option<Overlay>)
      ensures key < |overlays| ==> r == Some(overlays[key])
      ensures key > |overlays| ==> r == Some(Overlay([], [], 0))
      ensures key == |overlays| ==> r == None
    {
      if key > |overlays| { return Some(Overlay([], [], 0)); }
      return if key < |overlays| then Some(overlays[key]) else None;
    }

    /** Keys are handed out in order. */
    method AddOverlay(overlay: Overlay) returns (key: nat)
      modifies this`overlays
      ensures overlays == old(overlays) + [overlay] && key == |old(overlays)| && overlays[key] == overlay
    {
      overlays := overlays + [overlay];
      key := |overlays| - 1;
    }
  }
}
