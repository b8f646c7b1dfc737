/** Packages, their versions, and the sorted version list of a package. */
module Packages {
  import opened Versions

  type UChar = n: nat | n < 0x100
  type UInt16 = n: nat | n < 0x1_0000

  datatype Depend = Depend(depend: string, rdepend: string, pdepend: string, bdepend: string, idepend: string)

  const NO_DEPEND := Depend([], [], [], [], [])

  datatype Version = Version(
    eapi: string, mask: UChar, properties: UChar, restrict: UInt16, keywords: string,
    parts: seq<BasicPart>, slot: string, subslot: string,
    overlayKey: nat, reponame: string, priority: int,
    iuse: seq<string>, requiredUse: string, depend: Depend, srcUri: string)

  /** Order of versions from several overlays. */
  function ExtendedCompare(left: Version, right: Version): (r: int)
    ensures -1 <= r <= 1
  {
    var r := Compare(left.parts, right.parts);
    if r != 0 then r
    else if left.overlayKey == right.overlayKey then 0
    else if left.priority == right.priority then (if left.overlayKey < right.overlayKey then -1 else 1)
    else if left.priority < right.priority then -1 else 1
  }

  predicate Before(left: Version, right: Version) { ExtendedCompare(left, right) < 0 }

  /** Inserts before the first greater version. */
  function Insert(vs: seq<Version>, v: Version): (r: seq<Version>)
  {
    if vs == [] then [v]
    else if Before(v, vs[0]) then [v] + vs
    else [vs[0]] + Insert(vs[1..], v)
  }

  function InsertAll(vs: seq<Version>): (r: seq<Version>)
  {
    if vs == [] then [] else Insert(InsertAll(vs[..|vs| - 1]), vs[|vs| - 1])
  }

  /** No version stands behind a greater one. */
  ghost predicate Sorted(vs: seq<Version>)
  {
    forall i, j :: 0 <= i < j < |vs| ==> !Before(vs[j], vs[i])
  }

  lemma {:induction false} InsertAtEnd(vs: seq<Version>, v: Version)
    requires forall i :: 0 <= i < |vs| ==> !Before(v, vs[i])
    ensures Insert(vs, v) == vs + [v]
  {
    if vs != [] {
      InsertAtEnd(vs[1..], v);
      assert vs == [vs[0]] + vs[1..];
    }
  }

  /** Adding the versions of a sorted list one by one rebuilds the list. */
  lemma {:induction false} InsertAllSorted(vs: seq<Version>)
    requires Sorted(vs)
    ensures InsertAll(vs) == vs
  {
    hide Insert, Before;
    if vs != [] {
      var n := |vs| - 1;
      InsertAllSorted(vs[..n]);
      forall i | 0 <= i < n ensures !Before(vs[n], vs[..n][i]) { assert vs[..n][i] == vs[i]; }
      InsertAtEnd(vs[..n], vs[n]);
      assert vs == vs[..n] + [vs[n]];
    }
  }

  /** Exactly one element is added. */
  lemma {:induction false} InsertAddsOne(vs: seq<Version>, v: Version)
    ensures multiset(Insert(vs, v)) == multiset(vs) + multiset{v}
  {
    if vs != [] {
      InsertAddsOne(vs[1..], v);
      assert vs == [vs[0]] + vs[1..];
    }
  }

  lemma {:induction false} InsertAllKeeps(vs: seq<Version>)
    ensures multiset(InsertAll(vs)) == multiset(vs) && forall v :: v in InsertAll(vs) <==> v in vs
  {
    hide Insert;
    if vs != [] {
      var n := |vs| - 1;
      InsertAllKeeps(vs[..n]);
      InsertAddsOne(InsertAll(vs[..n]), vs[n]);
      assert vs == vs[..n] + [vs[n]];
    }
    assert forall v :: v in InsertAll(vs) <==> v in multiset(InsertAll(vs));
  }

  // ---- The order is kept ----

  /** What makes the order an order: no garbage, and one priority for each overlay. */
  ghost predicate Regular(v: Version, priorityOf: nat -> int)
  {
    AllProper(v.parts) && v.priority == priorityOf(v.overlayKey)
  }

  ghost predicate AllRegular(vs: seq<Version>, priorityOf: nat -> int)
  {
    forall i :: 0 <= i < |vs| ==> Regular(vs[i], priorityOf)
  }

  lemma ExtendedIsPreorder(a: Version, b: Version, c: Version, priorityOf: nat -> int)
    requires Regular(a, priorityOf) && Regular(b, priorityOf) && Regular(c, priorityOf)
    ensures ExtendedCompare(b, a) == -ExtendedCompare(a, b)
    ensures ExtendedCompare(a, b) <= 0 && ExtendedCompare(b, c) <= 0 ==> ExtendedCompare(a, c) <= 0
  {
    CompareIsPreorder(a.parts, b.parts, c.parts);
    CompareIsPreorder(b.parts, c.parts, a.parts);
  }

  /** Versions are ordered first; among equal ones the priority of the overlay decides, and
      then its key. */
  lemma BeforeIsLexicographic(a: Version, b: Version, priorityOf: nat -> int)
    requires Regular(a, priorityOf) && Regular(b, priorityOf)
    ensures Before(a, b) <==>
      || Compare(a.parts, b.parts) < 0
      || (Compare(a.parts, b.parts) == 0
          && (a.priority < b.priority || (a.priority == b.priority && a.overlayKey < b.overlayKey)))
  {
  }

  /** What a sorted list looks like. */
  lemma SortedMeans(vs: seq<Version>, priorityOf: nat -> int)
    requires AllRegular(vs, priorityOf)
    ensures Sorted(vs) <==> forall i, j :: 0 <= i < j < |vs| ==>
      && Compare(vs[i].parts, vs[j].parts) <= 0
      && (Compare(vs[i].parts, vs[j].parts) == 0 ==>
            vs[i].priority < vs[j].priority || (vs[i].priority == vs[j].priority && vs[i].overlayKey <= vs[j].overlayKey))
  {
    hide Before, Compare;
    forall i, j | 0 <= i < j < |vs|
      ensures !Before(vs[j], vs[i]) <==>
        && Compare(vs[i].parts, vs[j].parts) <= 0
        && (Compare(vs[i].parts, vs[j].parts) == 0 ==>
              vs[i].priority < vs[j].priority || (vs[i].priority == vs[j].priority && vs[i].overlayKey <= vs[j].overlayKey))
    {
      BeforeIsLexicographic(vs[j], vs[i], priorityOf);
      CompareAntisymmetric(vs[i].parts, vs[j].parts);
    }
  }

  lemma BeforeNotBefore(v: Version, a: Version, b: Version, priorityOf: nat -> int)
    requires Regular(v, priorityOf) && Regular(a, priorityOf) && Regular(b, priorityOf)
    requires Before(v, a) && !Before(b, a)
    ensures !Before(b, v)
  {
    ExtendedIsPreorder(v, a, b, priorityOf);
    ExtendedIsPreorder(a, b, v, priorityOf);
    ExtendedIsPreorder(b, v, a, priorityOf);
  }

  lemma BeforeIsAsymmetric(v: Version, a: Version, priorityOf: nat -> int)
    requires Regular(v, priorityOf) && Regular(a, priorityOf) && Before(v, a)
    ensures !Before(a, v)
  {
    ExtendedIsPreorder(v, a, a, priorityOf);
  }

  lemma SortedCons(v: Version, vs: seq<Version>)
    requires Sorted(vs) && forall w :: w in vs ==> !Before(w, v)
    ensures Sorted([v] + vs)
  {
    var r := [v] + vs;
    forall i, j | 0 <= i < j < |r| ensures !Before(r[j], r[i]) {
      assert r[j] == vs[j - 1] && vs[j - 1] in vs;
      if i > 0 { assert r[i] == vs[i - 1]; }
    }
  }

  /** Insertion keeps a list sorted. */
  lemma {:induction false} InsertKeepsSorted(vs: seq<Version>, v: Version, priorityOf: nat -> int)
    requires AllRegular(vs, priorityOf) && Regular(v, priorityOf) && Sorted(vs)
    ensures Sorted(Insert(vs, v))
    ensures forall w :: w in Insert(vs, v) ==> w in vs || w == v
  {
    hide ExtendedCompare, Before, Regular;
    if vs != [] {
      var head, tail := vs[0], vs[1..];
      assert forall w :: w in tail ==> w in vs;
      forall w | w in tail ensures !Before(w, head) && Regular(w, priorityOf) {
        var i :| 0 <= i < |tail| && tail[i] == w;
        assert vs[i + 1] == w;
      }
      if Before(v, head) {
        forall w | w in vs ensures !Before(w, v) {
          if w != head { assert vs == [head] + tail; BeforeNotBefore(v, head, w, priorityOf); }
          else { BeforeIsAsymmetric(v, head, priorityOf); }
        }
        SortedCons(v, vs);
      } else {
        InsertKeepsSorted(tail, v, priorityOf);
        SortedCons(head, Insert(tail, v));
      }
    }
  }

  // ---- Duplicate versions ----

  datatype Duplicates = DupNone | DupSome | DupOverlays

  predicate Same(a: Version, b: Version) { Compare(a.parts, b.parts) == 0 }

  predicate SameInOverlays(a: Version, b: Version) { Same(a, b) && a.overlayKey != 0 && b.overlayKey != 0 }

  ghost predicate HasPair(vs: seq<Version>, related: (Version, Version) -> bool)
  {
    exists i, j :: 0 <= i < j < |vs| && related(vs[i], vs[j])
  }

  /** What have_duplicate_versions means for a list. */
  ghost function DuplicatesOf(vs: seq<Version>): Duplicates
  {
    if HasPair(vs, SameInOverlays) then DupOverlays
    else if HasPair(vs, Same) then DupSome
    else DupNone
  }

  /** The mark after `v` was compared with one more version. */
  function MarkOne(d: Duplicates, x: Version, v: Version): Duplicates
  {
    if !Same(x, v) then d
    else if SameInOverlays(x, v) then DupOverlays
    else if d == DupNone then DupSome else d
  }

  function Mark(d: Duplicates, vs: seq<Version>, v: Version): Duplicates
  {
    if vs == [] then d else MarkOne(Mark(d, vs[..|vs| - 1], v), vs[|vs| - 1], v)
  }

  /** Once the mark cannot grow, the rest of the list is irrelevant. */
  lemma {:induction false} MarkSettled(d: Duplicates, vs: seq<Version>, n: nat, v: Version)
    requires n <= |vs|
    requires var m := Mark(d, vs[..n], v); m == DupOverlays || (v.overlayKey == 0 && m == DupSome)
    ensures Mark(d, vs, v) == Mark(d, vs[..n], v)
    decreases |vs| - n
  {
    if n < |vs| {
      assert vs[..n + 1][..n] == vs[..n];
      MarkSettled(d, vs, n + 1, v);
    } else {
      assert vs[..n] == vs;
    }
  }

  lemma {:induction false} MarkMeaning(d: Duplicates, vs: seq<Version>, v: Version)
    ensures Mark(d, vs, v) == DupOverlays <==> d == DupOverlays || exists x :: x in vs && SameInOverlays(x, v)
    ensures Mark(d, vs, v) == DupNone <==> d == DupNone && forall x :: x in vs ==> !Same(x, v)
  {
    if vs != [] {
      var n := |vs| - 1;
      MarkMeaning(d, vs[..n], v);
      assert vs == vs[..n] + [vs[n]];
      assert forall x :: x in vs <==> x in vs[..n] || x == vs[n];
    }
  }

  lemma {:induction false} WhereInserted(vs: seq<Version>, v: Version) returns (k: nat)
    ensures k <= |vs| && Insert(vs, v) == vs[..k] + [v] + vs[k..]
  {
    if vs == [] || Before(v, vs[0]) {
      k := 0;
      assert vs[..0] == [] && vs[0..] == vs;
    } else {
      k := WhereInserted(vs[1..], v);
      assert vs[..k + 1] == [vs[0]] + vs[1..][..k] && vs[k + 1..] == vs[1..][k..];
      k := k + 1;
    }
  }

  ghost predicate InsertedAt(r: seq<Version>, vs: seq<Version>, v: Version, k: nat)
  {
    && k <= |vs| && |r| == |vs| + 1 && r[k] == v
    && (forall i :: 0 <= i < k ==> r[i] == vs[i]) && (forall i :: k <= i < |vs| ==> r[i + 1] == vs[i])
  }

  lemma PairInside(r: seq<Version>, vs: seq<Version>, v: Version, k: nat, related: (Version, Version) -> bool)
    requires InsertedAt(r, vs, v, k) && HasPair(vs, related)
    ensures HasPair(r, related)
  {
    var i, j :| 0 <= i < j < |vs| && related(vs[i], vs[j]);
    var i', j' := if i < k then i else i + 1, if j < k then j else j + 1;
    assert related(r[i'], r[j']);
  }

  lemma PairWithNew(r: seq<Version>, vs: seq<Version>, v: Version, k: nat, related: (Version, Version) -> bool, x: Version)
    requires InsertedAt(r, vs, v, k) && x in vs && related(x, v) && related(v, x)
    ensures HasPair(r, related)
  {
    var i :| 0 <= i < |vs| && vs[i] == x;
    if i < k { assert related(r[i], r[k]); } else { assert related(r[k], r[i + 1]); }
  }

  lemma PairOrigin(r: seq<Version>, vs: seq<Version>, v: Version, k: nat, related: (Version, Version) -> bool)
    requires InsertedAt(r, vs, v, k) && HasPair(r, related) && forall a, b :: related(a, b) == related(b, a)
    ensures HasPair(vs, related) || exists x :: x in vs && related(x, v)
  {
    var i, j :| 0 <= i < j < |r| && related(r[i], r[j]);
    if i == k {
      assert r[j] == vs[j - 1] && vs[j - 1] in vs && related(vs[j - 1], v);
    } else if j == k {
      assert r[i] == vs[i] && vs[i] in vs && related(vs[i], v);
    } else {
      var i', j' := if i < k then i else i - 1, if j < k then j else j - 1;
      assert r[i] == vs[i'] && r[j] == vs[j'];
    }
  }

  lemma PairsAfterInsert(vs: seq<Version>, v: Version, k: nat, related: (Version, Version) -> bool)
    requires k <= |vs| && forall a, b :: related(a, b) == related(b, a)
    ensures HasPair(vs[..k] + [v] + vs[k..], related) <==> HasPair(vs, related) || exists x :: x in vs && related(x, v)
  {
    var r := vs[..k] + [v] + vs[k..];
    assert InsertedAt(r, vs, v, k);
    if HasPair(r, related) { PairOrigin(r, vs, v, k, related); }
    if HasPair(vs, related) { PairInside(r, vs, v, k, related); }
    if x :| x in vs && related(x, v) { PairWithNew(r, vs, v, k, related, x); }
  }

  /** The mark kept up to date by one insertion is the mark of the new list. */
  lemma MarkOfInsert(vs: seq<Version>, v: Version)
    ensures Mark(DuplicatesOf(vs), vs, v) == DuplicatesOf(Insert(vs, v))
  {
    var k := WhereInserted(vs, v);
    forall a: Version, b: Version ensures Same(a, b) == Same(b, a) { CompareAntisymmetric(a.parts, b.parts); }
    PairsAfterInsert(vs, v, k, Same);
    PairsAfterInsert(vs, v, k, SameInOverlays);
    MarkMeaning(DuplicatesOf(vs), vs, v);
  }

  /** The mark after adding the versions of a list one by one. */
  function MarkAll(vs: seq<Version>): Duplicates
  {
    if vs == [] then DupNone
    else
      var n := |vs| - 1;
      Mark(MarkAll(vs[..n]), InsertAll(vs[..n]), vs[n])
  }

  /** After any sequence of insertions the mark tells exactly whether two overlay
      versions, or else any two versions, are equal. */
  lemma {:induction false} MarkOfInsertions(vs: seq<Version>)
    ensures MarkAll(vs) == DuplicatesOf(InsertAll(vs))
  {
    if vs != [] {
      var n := |vs| - 1;
      MarkOfInsertions(vs[..n]);
      MarkOfInsert(InsertAll(vs[..n]), vs[n]);
    }
  }

  /** The mark, in terms of the versions alone. */
  lemma MarkTells(vs: seq<Version>)
    ensures var all := InsertAll(vs);
      && (MarkAll(vs) == DupOverlays <==>
            exists i, j :: 0 <= i < j < |all| && Compare(all[i].parts, all[j].parts) == 0 && 0 < all[i].overlayKey && 0 < all[j].overlayKey)
      && (MarkAll(vs) == DupNone <==>
            forall i, j :: 0 <= i < j < |all| ==> Compare(all[i].parts, all[j].parts) != 0)
  {
    hide Compare, InsertAll, MarkAll;
    MarkOfInsertions(vs);
    var all := InsertAll(vs);
    if HasPair(all, SameInOverlays) {
      var i, j :| 0 <= i < j < |all| && SameInOverlays(all[i], all[j]);
      assert Compare(all[i].parts, all[j].parts) == 0;
    }
    if i, j :| 0 <= i < j < |all| && Compare(all[i].parts, all[j].parts) == 0 && all[i].overlayKey > 0 && all[j].overlayKey > 0 {
      assert SameInOverlays(all[i], all[j]);
    }
    if i, j :| 0 <= i < j < |all| && Compare(all[i].parts, all[j].parts) == 0 { assert Same(all[i], all[j]); }
    if HasPair(all, Same) {
      var i, j :| 0 <= i < j < |all| && Same(all[i], all[j]);
      assert Compare(all[i].parts, all[j].parts) == 0;
    }
  }

  lemma InsertKeepsRegular(vs: seq<Version>, v: Version, priorityOf: nat -> int)
    requires AllRegular(vs, priorityOf) && Regular(v, priorityOf) && Sorted(vs)
    ensures AllRegular(Insert(vs, v), priorityOf)
  {
    InsertKeepsSorted(vs, v, priorityOf);
    var after := Insert(vs, v);
    forall i | 0 <= i < |after| ensures Regular(after[i], priorityOf) { assert after[i] in after; }
  }

  /** After any sequence of insertions the list is a sorted permutation of what was added. */
  lemma {:induction false} InsertionsSort(vs: seq<Version>, priorityOf: nat -> int)
    requires AllRegular(vs, priorityOf)
    ensures Sorted(InsertAll(vs)) && AllRegular(InsertAll(vs), priorityOf)
    ensures multiset(InsertAll(vs)) == multiset(vs)
  {
    hide Insert, Regular, Before;
    if vs != [] {
      var n := |vs| - 1;
      InsertionsSort(vs[..n], priorityOf);
      InsertKeepsSorted(InsertAll(vs[..n]), vs[n], priorityOf);
      InsertKeepsRegular(InsertAll(vs[..n]), vs[n], priorityOf);
      InsertAddsOne(InsertAll(vs[..n]), vs[n]);
      assert vs == vs[..n] + [vs[n]];
    }
  }

  /** Versions that are inserted in the order of a list give that list exactly if it is sorted. */
  lemma InsertedInOrder(vs: seq<Version>, priorityOf: nat -> int)
    requires AllRegular(vs, priorityOf)
    ensures InsertAll(vs) == vs <==> Sorted(vs)
  {
    hide InsertAll, Sorted, AllRegular;
    InsertionsSort(vs, priorityOf);
    if Sorted(vs) { InsertAllSorted(vs); }
  }

  // ---- The object ----

  datatype PackageData = PackageData(
    category: string, name: string, desc: string, homepage: string, licenses: string, versions: seq<Version>)

  class Package {
    var category: string
    var name: string
    var desc: string
    var homepage: string
    var licenses: string
    var versions: seq<Version>
    var haveDuplicateVersions: Duplicates

    function View(): PackageData
      reads this
    {
      PackageData(category, name, desc, homepage, licenses, versions)
    }

    constructor (cat: string)
      ensures View() == PackageData(cat, [], [], [], [], []) && haveDuplicateVersions == DupNone
    {
      category, name, desc, homepage, licenses, versions := cat, [], [], [], [], [];
      haveDuplicateVersions := DupNone;
    }

    /** The comparison with one version of the list; says what is still looked for. */
    method CheckDuplicate(check: Duplicates, current: Version, version: Version,
                          ghost d: Duplicates, ghost vs: seq<Version>, ghost n: nat) returns (c: Duplicates)
      requires Marked(d, vs, n, version, check, haveDuplicateVersions) && n < |vs| && current == vs[n]
      modifies this`haveDuplicateVersions
      ensures Marked(d, vs, n + 1, version, c, haveDuplicateVersions)
    {
      MarkedStep(d, vs, n, version, check, haveDuplicateVersions);
      if check == DupNone || !Same(current, version) { return check; }
      if check == DupSome {
        haveDuplicateVersions := DupSome;
        return DupNone;
      }
      if current.overlayKey != 0 {
        haveDuplicateVersions := DupOverlays;
        return DupNone;
      }
      haveDuplicateVersions := DupSome;
      return check;
    }

    /** Inserts into the list and updates the duplicate mark in the same pass. */
    method AddVersionStart(version: Version)
      modifies this`versions, this`haveDuplicateVersions
      ensures versions == Insert(old(versions), version)
      ensures haveDuplicateVersions == Mark(old(haveDuplicateVersions), old(versions), version)
    {
      hide Placed, Marked, Insert, Mark, Before;
      ghost var vs, d := versions, haveDuplicateVersions;
      var check := if haveDuplicateVersions == DupOverlays then DupNone
                   else if version.overlayKey != 0 then DupOverlays
                   else if haveDuplicateVersions == DupSome then DupNone else DupSome;
      var haveInserted := false;
      var i := 0;
      ghost var n := 0;  // versions of the old list already passed
      PlacedStart(vs, version);
      MarkedStart(d, vs, version);
      while i < |versions|
        invariant Placed(versions, vs, n, version, haveInserted) && i == if haveInserted then n + 1 else n
        invariant Marked(d, vs, n, version, check, haveDuplicateVersions)
        invariant haveInserted ==> check != DupNone
        decreases |vs| - n
      {
        PlacedIndex(versions, vs, n, version, haveInserted);
        if !haveInserted && Before(version, versions[i]) {
          PlacedHere(versions, vs, n, version);
          versions := versions[..i] + [version] + versions[i..];
          if check == DupNone {
            MarkedDone(d, vs, n, version, haveDuplicateVersions);
            return;
          }
          haveInserted := true;
          i := i + 1;
        }
        var current := versions[i];
        assert current == vs[n];
        PlacedLater(versions, vs, n, version, haveInserted);
        check := CheckDuplicate(check, current, version, d, vs, n);
        i, n := i + 1, n + 1;
        if haveInserted && check == DupNone {
          MarkedDone(d, vs, n, version, haveDuplicateVersions);
          return;
        }
      }
      PlacedEnd(versions, vs, n, version, haveInserted);
      MarkedEnd(d, vs, n, version, check, haveDuplicateVersions);
      if haveInserted { return; }
      versions := versions + [version];
    }
  }

  /** The list in the middle of the pass: `n` old versions are passed. */
  ghost predicate Placed(versions: seq<Version>, vs: seq<Version>, n: nat, v: Version, inserted: bool)
  {
    n <= |vs|
    && if inserted then versions == Insert(vs, v) && |versions| == |vs| + 1 && versions[n + 1..] == vs[n..]
       else versions == vs && Insert(vs, v) == vs[..n] + Insert(vs[n..], v)
  }

  lemma PlacedStart(vs: seq<Version>, v: Version)
    ensures Placed(vs, vs, 0, v, false)
  {
    assert vs[0..] == vs && vs[..0] == [];
  }

  lemma PlacedIndex(versions: seq<Version>, vs: seq<Version>, n: nat, v: Version, inserted: bool)
    requires Placed(versions, vs, n, v, inserted)
    ensures n < |vs| <==> (if inserted then n + 1 else n) < |versions|
    ensures n < |vs| ==> versions[if inserted then n + 1 else n] == vs[n]
  {
    if inserted && n < |vs| { assert versions[n + 1..][0] == vs[n..][0]; }
  }

  lemma PlacedHere(versions: seq<Version>, vs: seq<Version>, n: nat, v: Version)
    requires Placed(versions, vs, n, v, false) && n < |vs| && Before(v, vs[n])
    ensures versions == vs && Placed(vs[..n] + [v] + vs[n..], vs, n, v, true)
    ensures (vs[..n] + [v] + vs[n..])[n + 1] == vs[n]
  {
    assert vs[n..][0] == vs[n];
    assert (vs[..n] + [v] + vs[n..])[n + 1..] == vs[n..];
  }

  lemma PlacedLater(versions: seq<Version>, vs: seq<Version>, n: nat, v: Version, inserted: bool)
    requires Placed(versions, vs, n, v, inserted) && n < |vs| && (inserted || !Before(v, vs[n]))
    ensures Placed(versions, vs, n + 1, v, inserted)
  {
    if inserted {
      assert versions[n + 2..] == versions[n + 1..][1..] && vs[n..][1..] == vs[n + 1..];
    } else {
      assert vs[n..][0] == vs[n] && vs[n..][1..] == vs[n + 1..];
      assert vs[..n + 1] == vs[..n] + [vs[n]];
    }
  }

  lemma PlacedEnd(versions: seq<Version>, vs: seq<Version>, n: nat, v: Version, inserted: bool)
    requires Placed(versions, vs, n, v, inserted) && (if inserted then n + 1 else n) >= |versions|
    ensures n == |vs| && Insert(vs, v) == if inserted then versions else versions + [v]
  {
    if !inserted {
      assert vs[n..] == [] && vs[..n] == vs;
      assert Insert([], v) == [v];
    }
  }

  /** The mark in the middle of the pass, and what is still looked for. */
  ghost predicate Marked(d: Duplicates, vs: seq<Version>, n: nat, v: Version, check: Duplicates, mark: Duplicates)
  {
    && n <= |vs| && mark == Mark(d, vs[..n], v)
    && (check == DupNone ==> mark == DupOverlays || (v.overlayKey == 0 && mark == DupSome))
    && (check == DupSome ==> v.overlayKey == 0 && mark == DupNone)
    && (check == DupOverlays ==> v.overlayKey != 0 && mark != DupOverlays)
  }

  /** What is looked for at the start, so that no comparison is made in vain. */
  lemma MarkedStart(d: Duplicates, vs: seq<Version>, v: Version)
    ensures Marked(d, vs, 0, v, if d == DupOverlays then DupNone else if v.overlayKey != 0 then DupOverlays
                                else if d == DupSome then DupNone else DupSome, d)
  {
  }

  lemma MarkedEnd(d: Duplicates, vs: seq<Version>, n: nat, v: Version, check: Duplicates, mark: Duplicates)
    requires Marked(d, vs, n, v, check, mark) && n == |vs|
    ensures mark == Mark(d, vs, v)
  {
    assert vs[..n] == vs;
  }

  lemma MarkedDone(d: Duplicates, vs: seq<Version>, n: nat, v: Version, mark: Duplicates)
    requires Marked(d, vs, n, v, DupNone, mark)
    ensures mark == Mark(d, vs, v)
  {
    MarkSettled(d, vs, n, v);
  }

  lemma MarkedStep(d: Duplicates, vs: seq<Version>, n: nat, v: Version, check: Duplicates, mark: Duplicates)
    requires Marked(d, vs, n, v, check, mark) && n < |vs|
    ensures check == DupNone || !Same(vs[n], v) ==> Marked(d, vs, n + 1, v, check, mark)
    ensures check == DupSome && Same(vs[n], v) ==> Marked(d, vs, n + 1, v, DupNone, DupSome)
    ensures check == DupOverlays && Same(vs[n], v) ==>
      if vs[n].overlayKey != 0 then Marked(d, vs, n + 1, v, DupNone, DupOverlays)
      else Marked(d, vs, n + 1, v, check, DupSome)
  {
    assert vs[..n + 1][..n] == vs[..n];
  }
}
