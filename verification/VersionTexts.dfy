/** Version texts: the parser and the comparison together, against the specification. */
module VersionTexts {
  import opened Strings
  import opened Versions
  import opened VersionParser
  import opened Wrappers
  import Spec = PackageManagerSpec

  // ---- The text of a version of the specification ----

  function NameText(n: Spec.SuffixName): string
  {
    match n case Alpha => "_alpha" case Beta => "_beta" case Pre => "_pre" case Rc => "_rc" case P => "_p"
  }

  function SuffixesText(ss: seq<Spec.Suffix>): string
  {
    if ss == [] then [] else (NameText(ss[0].name) + ss[0].number) + SuffixesText(ss[1..])
  }

  function ComponentsText(ns: seq<string>): string
  {
    if ns == [] then [] else ("." + ns[0]) + ComponentsText(ns[1..])
  }

  function LetterText(l: Option<char>): string { if l.None? then [] else [l.value] }

  function RevisionText(r: Option<string>): string { if r.None? then [] else "-r" + r.value }

  function Text(v: Spec.Spec): string
    requires v.numbers != []
  {
    v.numbers[0] + (ComponentsText(v.numbers[1..]) + (LetterText(v.letter) + (SuffixesText(v.suffixes) + RevisionText(v.revision))))
  }

  lemma {:induction false} FullTextConcat(a: seq<BasicPart>, b: seq<BasicPart>)
    ensures FullText(a + b) == FullText(a) + FullText(b)
  {
    if a == [] {
      assert a + b == b;
    } else {
      assert (a + b)[1..] == a[1..] + b;
      FullTextConcat(a[1..], b);
      Regroup(PartText(a[0]), FullText(a[1..]), FullText(b));
    }
  }

  lemma OnePart(p: BasicPart)
    ensures FullText([p]) == PartText(p)
  {
    assert [p][1..] == [];
  }

  lemma {:induction false} ComponentsPrint(ns: seq<string>)
    ensures FullText(Spec.Components(ns)) == ComponentsText(ns)
  {
    if ns != [] {
      assert Spec.Components(ns)[1..] == Spec.Components(ns[1..]);
      ComponentsPrint(ns[1..]);
    }
  }

  lemma {:induction false} SuffixesPrint(ss: seq<Spec.Suffix>)
    ensures FullText(Spec.SuffixParts(ss)) == SuffixesText(ss)
  {
    if ss != [] {
      assert Spec.SuffixParts(ss)[1..] == Spec.SuffixParts(ss[1..]);
      SuffixesPrint(ss[1..]);
    }
  }

  lemma LetterPrints(l: Option<char>)
    ensures FullText(Spec.LetterPart(l)) == LetterText(l)
  {
    if l.Some? { OnePart(BasicPart(CHARACTER, [l.value])); }
  }

  lemma RevisionPrints(r: Option<string>)
    ensures FullText(Spec.RevisionPart(r)) == RevisionText(r)
  {
    if r.Some? { OnePart(BasicPart(REVISION, r.value)); }
  }

  lemma FlattenPrints(v: Spec.Spec)
    requires v.numbers != []
    ensures FullText(Spec.Flatten(v)) == Text(v)
  {
    hide FullText;
    var first := BasicPart(FIRST, v.numbers[0]);
    var c, l := Spec.Components(v.numbers[1..]), Spec.LetterPart(v.letter);
    var s, r := Spec.SuffixParts(v.suffixes), Spec.RevisionPart(v.revision);
    FullTextConcat([first], c + (l + (s + r)));
    FullTextConcat(c, l + (s + r));
    FullTextConcat(l, s + r);
    FullTextConcat(s, r);
    OnePart(first);
    FirstPrintsBack(first);
    ComponentsPrint(v.numbers[1..]);
    LetterPrints(v.letter);
    SuffixesPrint(v.suffixes);
    RevisionPrints(v.revision);
  }

  // ---- These texts are accepted ----

  lemma {:induction false} SuffixesFollow(ss: seq<Spec.Suffix>, r: seq<BasicPart>)
    requires (forall i :: 0 <= i < |ss| ==> Spec.Digits(ss[i].number)) && RevisionGrammar(r)
    requires r != [] ==> r[0].ptype == REVISION
    ensures SuffixGrammar(Spec.SuffixParts(ss) + r)
  {
    var ps := Spec.SuffixParts(ss) + r;
    if ss == [] {
      assert ps == r;
    } else {
      assert ps[0] == BasicPart(Spec.Kind(ss[0].name), ss[0].number);
      assert ps[1..] == Spec.SuffixParts(ss[1..]) + r;
      SuffixesFollow(ss[1..], r);
    }
  }

  lemma LetterFollows(l: Option<char>, rest: seq<BasicPart>)
    requires (l.Some? ==> 'a' <= l.value <= 'z') && SuffixGrammar(rest)
    ensures LetterGrammar(Spec.LetterPart(l) + rest)
    ensures var ps := Spec.LetterPart(l) + rest; ps != [] ==> ps[0].ptype != PRIMARY
  {
    var ps := Spec.LetterPart(l) + rest;
    if l.None? { assert ps == rest; } else { assert ps[1..] == rest; }
  }

  lemma {:induction false} ComponentsFollow(ns: seq<string>, rest: seq<BasicPart>)
    requires forall i :: 0 <= i < |ns| ==> ns[i] != [] && Spec.Digits(ns[i])
    requires LetterGrammar(rest) && (rest != [] ==> rest[0].ptype != PRIMARY)
    ensures PrimaryGrammar(Spec.Components(ns) + rest)
  {
    hide LetterGrammar;
    var ps := Spec.Components(ns) + rest;
    if ns == [] {
      assert ps == rest;
    } else {
      assert ps[0] == BasicPart(PRIMARY, ns[0]) && ps[1..] == Spec.Components(ns[1..]) + rest;
      ComponentsFollow(ns[1..], rest);
    }
  }

  lemma RevisionFollows(r: Option<string>)
    requires r.Some? ==> Spec.Digits(r.value)
    ensures RevisionGrammar(Spec.RevisionPart(r))
  {
    if r.Some? { assert [BasicPart(REVISION, r.value)][1..] == []; }
  }

  /** Every text of the specification is accepted, as the parts that belong to it. */
  lemma SpecifiedIsAccepted(v: Spec.Spec, keep: bool)
    requires Spec.WellFormed(v)
    ensures Parse(Text(v), keep) == Parsed(Spec.Flatten(v), ParsedOK)
  {
    hide Text, Parse, FullText, PrimaryGrammar, LetterGrammar, SuffixGrammar, RevisionGrammar;
    var r := Spec.RevisionPart(v.revision);
    RevisionFollows(v.revision);
    SuffixesFollow(v.suffixes, r);
    LetterFollows(v.letter, Spec.SuffixParts(v.suffixes) + r);
    ComponentsFollow(v.numbers[1..], Spec.LetterPart(v.letter) + (Spec.SuffixParts(v.suffixes) + r));
    assert Spec.Flatten(v)[1..] == Spec.Components(v.numbers[1..]) + (Spec.LetterPart(v.letter) + (Spec.SuffixParts(v.suffixes) + r));
    FlattenPrints(v);
    ParseOfFull(Spec.Flatten(v), keep);
  }

  /** Parsed and compared, texts of the specification are ordered as it says, exactly if a zero
      revision against none is not all that differs. */
  lemma TextsCompareAsSpecified(a: Spec.Spec, b: Spec.Spec)
    requires Spec.WellFormed(a) && Spec.WellFormed(b)
    ensures var x, y := Parse(Text(a), true).parts, Parse(Text(b), true).parts;
      Compare(x, y) == Spec.StagedCompare(a, b)
      <==> !(Spec.StagedCompare(a, b) == 0 && Spec.ZeroRevisionAgainstNone(a.revision, b.revision))
  {
    hide Text, Parse, Compare, Spec.StagedCompare, Spec.Flatten;
    SpecifiedIsAccepted(a, true);
    SpecifiedIsAccepted(b, true);
    Spec.FlatAgreesWithSpecification(a, b);
  }

  // ---- Behind any accepted text ----

  lemma {:induction false} SuffixesGoOn(ps: seq<BasicPart>, xs: seq<BasicPart>)
    requires SuffixGrammar(ps) && '-' !in FullText(ps) && SuffixGrammar(xs)
    ensures SuffixGrammar(ps + xs)
  {
    hide RevisionGrammar, FullText;
    if ps != [] && !IsSuffix(ps[0].ptype) { RevisionHasSign(ps); }
    if ps == [] {
      assert ps + xs == xs;
    } else {
      TailHolds(ps);
      assert (ps + xs)[1..] == ps[1..] + xs;
      SuffixesGoOn(ps[1..], xs);
    }
  }

  lemma RevisionHasSign(ps: seq<BasicPart>)
    requires SuffixGrammar(ps) && ps != [] && !IsSuffix(ps[0].ptype)
    ensures '-' in FullText(ps)
  {
    assert PartText(ps[0])[0] == '-';
  }

  lemma {:induction false} StemGoesOn(ps: seq<BasicPart>, xs: seq<BasicPart>)
    requires PrimaryGrammar(ps) && '-' !in FullText(ps) && SuffixGrammar(xs)
    ensures PrimaryGrammar(ps + xs)
  {
    hide SuffixGrammar, PartText;
    if ps == [] {
      assert ps + xs == xs;
      StartOfSuffixes(xs);
    } else {
      assert (ps + xs)[1..] == ps[1..] + xs;
      if ps[0].ptype == PRIMARY {
        StemGoesOn(ps[1..], xs);
      } else if ps[0].ptype == CHARACTER {
        SuffixesGoOn(ps[1..], xs);
      } else {
        SuffixesGoOn(ps, xs);
      }
    }
  }

  lemma StartOfSuffixes(xs: seq<BasicPart>)
    requires SuffixGrammar(xs)
    ensures xs != [] ==> xs[0].ptype != PRIMARY && xs[0].ptype != CHARACTER
  {
  }

  lemma TailHolds(ps: seq<BasicPart>)
    requires ps != []
    ensures forall c :: c in FullText(ps[1..]) ==> c in FullText(ps)
  {
  }

  lemma NoParts()
    ensures SuffixGrammar([]) && FullText([]) == []
  {
  }

  /** An accepted text without a revision, and more behind it. */
  lemma StemAndMore(stem: string, xs: seq<BasicPart>, more: string)
    requires Parse(stem, true).result == ParsedOK && '-' !in stem
    requires SuffixGrammar(xs) && FullText(xs) == more
    ensures Parse(stem + more, true) == Parsed(Parse(stem, true).parts + xs, ParsedOK)
  {
    hide Parse, SuffixGrammar, PrimaryGrammar, FullText, PartText, AllProper;
    var ps := Parse(stem, true).parts;
    AcceptedInGrammar(stem, true);
    TailHolds(ps);
    StemGoesOn(ps[1..], xs);
    assert (ps + xs)[1..] == ps[1..] + xs;
    FullTextConcat(ps, xs);
    ParseOfFull(ps + xs, true);
  }

  lemma {:induction false} CompareBehind(ps: seq<BasicPart>, x: seq<BasicPart>, y: seq<BasicPart>)
    ensures Compare(ps + x, ps + y) == Compare(x, y)
  {
    if ps == [] {
      assert ps + x == x && ps + y == y;
    } else {
      assert (ps + x)[1..] == ps[1..] + x && (ps + y)[1..] == ps[1..] + y;
      CompareBehind(ps[1..], x, y);
      PartAntisymmetric(ps[0], ps[0]);
    }
  }

  /** The version of an accepted text with more behind it. */
  function VersionOf(text: string): seq<BasicPart> { Parse(text, true).parts }

  lemma StemsCompare(stem: string, xs: seq<BasicPart>, a: string, ys: seq<BasicPart>, b: string)
    requires Parse(stem, true).result == ParsedOK && '-' !in stem
    requires SuffixGrammar(xs) && FullText(xs) == a && SuffixGrammar(ys) && FullText(ys) == b
    ensures Compare(VersionOf(stem + a), VersionOf(stem + b)) == Compare(xs, ys)
  {
    hide Parse, SuffixGrammar, Compare;
    StemAndMore(stem, xs, a);
    StemAndMore(stem, ys, b);
    CompareBehind(VersionOf(stem), xs, ys);
  }

  lemma OneSuffix(n: Spec.SuffixName, m: string)
    requires Spec.Digits(m)
    ensures var xs := [BasicPart(Spec.Kind(n), m)]; SuffixGrammar(xs) && FullText(xs) == NameText(n) + m
  {
    var xs := [BasicPart(Spec.Kind(n), m)];
    assert xs[1..] == [];
    OnePart(xs[0]);
  }

  lemma SuffixAgainst(stem: string, a: Spec.SuffixName, m: string, b: Spec.SuffixName, n: string)
    requires Parse(stem, true).result == ParsedOK && '-' !in stem && Spec.Digits(m) && Spec.Digits(n)
    ensures Compare(VersionOf(stem + (NameText(a) + m)), VersionOf(stem + (NameText(b) + n)))
      == if a == b then Spec.IntegerCompare(m, n) else Sign(Spec.Place(a) - Spec.Place(b))
  {
    hide Parse, SuffixGrammar, VersionOf, NameText, Spec.IntegerCompare;
    OneSuffix(a, m);
    OneSuffix(b, n);
    var xs, ys := [BasicPart(Spec.Kind(a), m)], [BasicPart(Spec.Kind(b), n)];
    StemsCompare(stem, xs, NameText(a) + m, ys, NameText(b) + n);
    if a == b { Spec.NumberPartCompare(Spec.Kind(a), m, n); }
    assert xs[1..] == ys[1..] == [] && CompareParts([], [], false) == 0;
  }

  lemma SuffixAgainstNone(stem: string, a: Spec.SuffixName, m: string)
    requires Parse(stem, true).result == ParsedOK && '-' !in stem && Spec.Digits(m)
    ensures Compare(VersionOf(stem + (NameText(a) + m)), VersionOf(stem)) == if a == Spec.P then 1 else -1
    ensures Compare(VersionOf(stem), VersionOf(stem + (NameText(a) + m))) == if a == Spec.P then -1 else 1
  {
    hide Parse, SuffixGrammar, VersionOf, NameText;
    OneSuffix(a, m);
    var xs := [BasicPart(Spec.Kind(a), m)];
    NoParts();
    assert stem + [] == stem;
    StemsCompare(stem, xs, NameText(a) + m, [], []);
    StemsCompare(stem, [], [], xs, NameText(a) + m);
  }

  /** Behind every accepted text without a revision, whatever the numbers are. */
  lemma SuffixesAreOrdered(stem: string, m: string, n: string)
    requires Parse(stem, true).result == ParsedOK && '-' !in stem && Spec.Digits(m) && Spec.Digits(n)
    ensures Compare(VersionOf(stem + ("_alpha" + m)), VersionOf(stem + ("_beta" + n))) == -1
    ensures Compare(VersionOf(stem + ("_beta" + m)), VersionOf(stem + ("_pre" + n))) == -1
    ensures Compare(VersionOf(stem + ("_pre" + m)), VersionOf(stem + ("_rc" + n))) == -1
    ensures Compare(VersionOf(stem + ("_rc" + m)), VersionOf(stem)) == -1
    ensures Compare(VersionOf(stem), VersionOf(stem + ("_p" + m))) == -1
    ensures Compare(VersionOf(stem + ("_p" + m)), VersionOf(stem + ("_p" + n))) == Sign(Spec.Value(m) - Spec.Value(n))
  {
    hide Parse, Compare, VersionOf, Spec.Value;
    SuffixAgainst(stem, Spec.Alpha, m, Spec.Beta, n);
    SuffixAgainst(stem, Spec.Beta, m, Spec.Pre, n);
    SuffixAgainst(stem, Spec.Pre, m, Spec.Rc, n);
    SuffixAgainst(stem, Spec.P, m, Spec.P, n);
    SuffixAgainstNone(stem, Spec.Rc, m);
    SuffixAgainstNone(stem, Spec.P, m);
  }

  lemma OneRevision(m: string)
    requires Spec.Digits(m)
    ensures var xs := [BasicPart(REVISION, m)]; SuffixGrammar(xs) && FullText(xs) == "-r" + m
  {
    var xs := [BasicPart(REVISION, m)];
    assert xs[1..] == [];
    OnePart(xs[0]);
  }

  lemma RevisionWithInner(m: string, n: string)
    requires Spec.Digits(m) && Spec.Digits(n)
    ensures var xs := [BasicPart(REVISION, m), BasicPart(INTER_REV, n)]; SuffixGrammar(xs) && FullText(xs) == "-r" + m + ("." + n)
  {
    var xs := [BasicPart(REVISION, m), BasicPart(INTER_REV, n)];
    assert xs[1..] == [BasicPart(INTER_REV, n)];
    OnePart(xs[1]);
  }

  /** Revisions behind any accepted text: above none, by their numbers, then by the inner ones. */
  lemma RevisionsAreOrdered(stem: string, m: string, n: string, k: string)
    requires Parse(stem, true).result == ParsedOK && '-' !in stem && Spec.Digits(m) && Spec.Digits(n) && Spec.Digits(k)
    ensures Compare(VersionOf(stem), VersionOf(stem + ("-r" + m))) == -1
    ensures Compare(VersionOf(stem + ("-r" + m)), VersionOf(stem + ("-r" + n))) == Sign(Spec.Value(m) - Spec.Value(n))
    ensures Compare(VersionOf(stem + ("-r" + m)), VersionOf(stem + ("-r" + m + ("." + n)))) == -1
    ensures Compare(VersionOf(stem + ("-r" + m + ("." + n))), VersionOf(stem + ("-r" + m + ("." + k)))) == Sign(Spec.Value(n) - Spec.Value(k))
  {
    hide Parse, SuffixGrammar, VersionOf, Spec.Value, Compare, FullText;
    NoParts();
    assert stem + [] == stem;
    var r, s, x, y := BasicPart(REVISION, m), BasicPart(REVISION, n), BasicPart(INTER_REV, n), BasicPart(INTER_REV, k);
    OneRevision(m);
    OneRevision(n);
    RevisionWithInner(m, n);
    RevisionWithInner(m, k);
    RevisionPartsCompare(m, n, k);
    StemsCompare(stem, [], [], [r], "-r" + m);
    StemsCompare(stem, [r], "-r" + m, [s], "-r" + n);
    StemsCompare(stem, [r], "-r" + m, [r, x], "-r" + m + ("." + n));
    StemsCompare(stem, [r, x], "-r" + m + ("." + n), [r, y], "-r" + m + ("." + k));
  }

  lemma RevisionPartsCompare(m: string, n: string, k: string)
    requires Spec.Digits(m) && Spec.Digits(n) && Spec.Digits(k)
    ensures var r, s, x, y := BasicPart(REVISION, m), BasicPart(REVISION, n), BasicPart(INTER_REV, n), BasicPart(INTER_REV, k);
      && Compare([], [r]) == -1 && Compare([r], [s]) == Spec.IntegerCompare(m, n)
      && Compare([r], [r, x]) == -1 && Compare([r, x], [r, y]) == Spec.IntegerCompare(n, k)
  {
    hide PartCompare;
    var r, s, x, y := BasicPart(REVISION, m), BasicPart(REVISION, n), BasicPart(INTER_REV, n), BasicPart(INTER_REV, k);
    Spec.NumberPartCompare(REVISION, m, n);
    Spec.NumberPartCompare(REVISION, m, m);
    Spec.NumberPartCompare(INTER_REV, n, k);
    assert CompareParts([], [], false) == 0 && CompareParts([], [x], false) == -1;
    assert [r][1..] == [s][1..] == [x][1..] == [y][1..] == [] && [r, x][1..] == [x] && [r, y][1..] == [y];
    assert CompareParts([x], [y], false) == Spec.IntegerCompare(n, k);
  }

  /** What one character behind a number may be. */
  lemma OneMoreCharacter(c: char)
    ensures Parse(['1', c], true).result == ParsedOK <==> '0' <= c <= '9' || 'a' <= c <= 'z' || 'A' <= c <= 'Z'
    ensures '0' <= c <= '9' ==> Parse(['1', c], true).parts == [BasicPart(FIRST, ['1', c])]
    ensures 'a' <= c <= 'z' || 'A' <= c <= 'Z' ==> Parse(['1', c], true).parts == [BasicPart(FIRST, "1"), BasicPart(CHARACTER, [c])]
  {
    var s := ['1', c];
    if IsDigit(c) {
      assert FindNotDigit(s, 2) == 2;
      assert FindNotDigit(s, 1) == 2;
      assert s[..2] == s;
    } else {
      assert FindNotDigit(s, 1) == 1;
      assert FindNotDigit(s, 2) == 2;
      assert s[..1] == "1" && s[1..1] == [] && s[1..] == [c] && s[2..2] == [];
    }
  }

  // ---- The parts as the format of the index numbers them ----

  /** The example of doc/eix-db.txt, with the kinds of its parts by their numbers. */
  lemma DocumentedParts(keep: bool)
    ensures Parse("1" + (".2" + ("c" + ("_pre12" + ("_alpha" + ("-r01" + ".01"))))), keep)
         == Parsed([BasicPart(10, "1")] + ([BasicPart(9, "2")] + ([BasicPart(8, "c")] + ([BasicPart(3, "12")] + ([BasicPart(1, "")]
                    + ([BasicPart(5, "01")] + [BasicPart(6, "01")]))))), ParsedOK)
    ensures GARBAGE == 0 && BETA == 2 && RC == 4 && PATCH == 7
  {
    hide *;
    DocumentedNumbers();
    var f := [BasicPart(REVISION, "01")] + [BasicPart(INTER_REV, "01")];
    var e := [BasicPart(ALPHA, "")] + f;
    var d := [BasicPart(PRE, "12")] + e;
    var b := [BasicPart(PRIMARY, "2")] + ([BasicPart(CHARACTER, "c")] + d);
    DocumentedRevision();
    DocumentedRest(f);
    Front(BasicPart(FIRST, "1"), b);
    DocumentedTexts();
    FirstGrammar(b);
    ParseOfFull([BasicPart(FIRST, "1")] + b, keep);
  }

  lemma DocumentedNumbers()
    ensures GARBAGE == 0 && ALPHA == 1 && BETA == 2 && PRE == 3 && RC == 4 && REVISION == 5 && INTER_REV == 6 && PATCH == 7
    ensures CHARACTER == 8 && PRIMARY == 9 && FIRST == 10
  {
  }

  lemma DocumentedRevision()
    ensures var f := [BasicPart(REVISION, "01")] + [BasicPart(INTER_REV, "01")]; SuffixGrammar(f) && FullText(f) == "-r01" + ".01"
  {
    var f := [BasicPart(REVISION, "01")] + [BasicPart(INTER_REV, "01")];
    assert f == [BasicPart(REVISION, "01"), BasicPart(INTER_REV, "01")];
    RevisionWithInner("01", "01");
    assert "-r" + "01" + ("." + "01") == "-r01" + ".01";
  }

  lemma DocumentedRest(f: seq<BasicPart>)
    requires SuffixGrammar(f)
    ensures var b := [BasicPart(PRIMARY, "2")] + ([BasicPart(CHARACTER, "c")] + ([BasicPart(PRE, "12")] + ([BasicPart(ALPHA, "")] + f)));
      PrimaryGrammar(b) && FullText(b) == ".2" + ("c" + ("_pre12" + ("_alpha" + FullText(f))))
  {
    hide FullText, PartText, SuffixGrammar, PrimaryGrammar;
    var e := [BasicPart(ALPHA, "")] + f;
    var d := [BasicPart(PRE, "12")] + e;
    DocumentedTexts();
    Front(BasicPart(ALPHA, ""), f);
    Front(BasicPart(PRE, "12"), e);
    Front(BasicPart(CHARACTER, "c"), d);
    Front(BasicPart(PRIMARY, "2"), [BasicPart(CHARACTER, "c")] + d);
    SuffixFront(BasicPart(ALPHA, ""), f);
    SuffixFront(BasicPart(PRE, "12"), e);
    RestGrammar(BasicPart(CHARACTER, "c"), BasicPart(PRIMARY, "2"), d);
  }

  lemma FirstGrammar(rest: seq<BasicPart>)
    requires PrimaryGrammar(rest)
    ensures VersionGrammar([BasicPart(FIRST, "1")] + rest)
  {
    hide PrimaryGrammar;
    assert ([BasicPart(FIRST, "1")] + rest)[1..] == rest;
  }

  lemma Front(p: BasicPart, rest: seq<BasicPart>)
    ensures FullText([p] + rest) == PartText(p) + FullText(rest) && ([p] + rest)[1..] == rest
  {
    assert ([p] + rest)[1..] == rest;
  }

  lemma SuffixFront(p: BasicPart, rest: seq<BasicPart>)
    requires IsSuffix(p.ptype) && Spec.Digits(p.content)
    ensures SuffixGrammar(rest) ==> SuffixGrammar([p] + rest)
  {
    assert ([p] + rest)[1..] == rest;
  }

  lemma RestGrammar(letter: BasicPart, number: BasicPart, rest: seq<BasicPart>)
    requires letter.ptype == CHARACTER && |letter.content| == 1 && IsAlpha(letter.content[0]) && SuffixGrammar(rest)
    requires number.ptype == PRIMARY && number.content != [] && Spec.Digits(number.content)
    ensures PrimaryGrammar([number] + ([letter] + rest))
  {
    hide SuffixGrammar;
    assert ([letter] + rest)[1..] == rest && ([number] + ([letter] + rest))[1..] == [letter] + rest;
    assert LetterGrammar([letter] + rest);
  }

  lemma DocumentedTexts()
    ensures PartText(BasicPart(FIRST, "1")) == "1" && PartText(BasicPart(PRIMARY, "2")) == ".2"
    ensures PartText(BasicPart(CHARACTER, "c")) == "c" && PartText(BasicPart(PRE, "12")) == "_pre12"
    ensures PartText(BasicPart(ALPHA, "")) == "_alpha" && PartText(BasicPart(REVISION, "01")) == "-r01"
    ensures PartText(BasicPart(INTER_REV, "01")) == ".01"
  {
  }
}
