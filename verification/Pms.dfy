/** Version comparison as section 3.3 of the Gentoo Package Manager Specification
defines it, stage by stage, and its agreement with the single comparison loop. */
module PackageManagerSpec {
  import opened Versions
  import opened Wrappers

  datatype SuffixName = Alpha | Beta | Pre | Rc | P

  datatype Suffix = Suffix(name: SuffixName, number: string)

  /** A version of the specification: numeric components, letter, suffixes, revision. */
  datatype Spec = Spec(numbers: seq<string>, letter: Option<char>, suffixes: seq<Suffix>, revision: Option<string>)

  predicate Digits(s: string) { forall i :: 0 <= i < |s| ==> '0' <= s[i] <= '9' }

  predicate WellFormed(v: Spec)
  {
    && v.numbers != []
    && (forall i :: 0 <= i < |v.numbers| ==> v.numbers[i] != [] && Digits(v.numbers[i]))
    && (v.letter.Some? ==> 'a' <= v.letter.value <= 'z')
    && (forall i :: 0 <= i < |v.suffixes| ==> Digits(v.suffixes[i].number))
    && (v.revision.Some? ==> Digits(v.revision.value))
  }

  // ---- The staged algorithm ----

  /** The integer a digit string denotes; the empty string counts as 0. */
  function Value(s: string): nat
    requires Digits(s)
  {
    if s == [] then 0 else 10 * Value(s[..|s| - 1]) + (s[|s| - 1] as int - '0' as int)
  }

  function IntegerCompare(a: string, b: string): (r: int)
    requires Digits(a) && Digits(b)
  {
    Sign(Value(a) - Value(b))
  }

  function Power10(n: nat): (p: nat)
    ensures p > 0
  {
    if n == 0 then 1 else 10 * Power10(n - 1)
  }

  /** The digits behind a decimal point: a / 10^|a| against b / 10^|b|. */
  function FractionCompare(a: string, b: string): (r: int)
    requires Digits(a) && Digits(b)
  {
    Sign(Value(a) * Power10(|b|) - Value(b) * Power10(|a|))
  }

  /** Algorithm 3.3: a component after the first one. With a leading zero, the stringwise
      comparison without trailing zeros is that of fractions. */
  function ComponentCompare(a: string, b: string): (r: int)
    requires Digits(a) && Digits(b)
  {
    if (a != [] && a[0] == '0') || (b != [] && b[0] == '0') then FractionCompare(a, b) else IntegerCompare(a, b)
  }

  /** Algorithm 3.2 without the first component: on a tie the longer list is greater. */
  function ComponentsCompare(a: seq<string>, b: seq<string>): (r: int)
    requires (forall i :: 0 <= i < |a| ==> Digits(a[i])) && (forall i :: 0 <= i < |b| ==> Digits(b[i]))
  {
    if a == [] || b == [] then Sign(|a| - |b|)
    else
      var c := ComponentCompare(a[0], b[0]);
      if c != 0 then c else ComponentsCompare(a[1..], b[1..])
  }

  function NumbersCompare(a: seq<string>, b: seq<string>): (r: int)
    requires a != [] && b != []
    requires (forall i :: 0 <= i < |a| ==> Digits(a[i])) && (forall i :: 0 <= i < |b| ==> Digits(b[i]))
  {
    var c := IntegerCompare(a[0], b[0]);
    if c != 0 then c else ComponentsCompare(a[1..], b[1..])
  }

  /** Algorithm 3.4: no letter is less than any letter. */
  function LetterCompare(a: Option<char>, b: Option<char>): (r: int)
  {
    match (a, b)
    case (None, None) => 0
    case (None, Some(_)) => -1
    case (Some(_), None) => 1
    case (Some(x), Some(y)) => Sign(x as int - y as int)
  }

  /** The order of the suffixes; the place of no suffix is 5. */
  function Place(n: SuffixName): nat
  {
    match n case Alpha => 1 case Beta => 2 case Pre => 3 case Rc => 4 case P => 6
  }

  /** Algorithms 3.5 and 3.6: "_p" is the only suffix that is greater than no suffix. */
  function SuffixesCompare(a: seq<Suffix>, b: seq<Suffix>): (r: int)
    requires forall i :: 0 <= i < |a| ==> Digits(a[i].number)
    requires forall i :: 0 <= i < |b| ==> Digits(b[i].number)
  {
    if a == [] && b == [] then 0
    else if b == [] then Sign(Place(a[0].name) - 5)
    else if a == [] then Sign(5 - Place(b[0].name))
    else if a[0].name != b[0].name then Sign(Place(a[0].name) - Place(b[0].name))
    else
      var c := IntegerCompare(a[0].number, b[0].number);
      if c != 0 then c else SuffixesCompare(a[1..], b[1..])
  }

  function RevisionNumber(r: Option<string>): string
  {
    if r.None? then [] else r.value
  }

  /** Algorithm 3.1. */
  function StagedCompare(a: Spec, b: Spec): (r: int)
    requires WellFormed(a) && WellFormed(b)
  {
    var numbers := NumbersCompare(a.numbers, b.numbers);
    var letter := LetterCompare(a.letter, b.letter);
    var suffixes := SuffixesCompare(a.suffixes, b.suffixes);
    if numbers != 0 then numbers
    else if letter != 0 then letter
    else if suffixes != 0 then suffixes
    else IntegerCompare(RevisionNumber(a.revision), RevisionNumber(b.revision))
  }

  // ---- The flat list of parts the program keeps ----

  function Components(ns: seq<string>): (ps: seq<BasicPart>)
    ensures |ps| == |ns| && forall i :: 0 <= i < |ns| ==> ps[i] == BasicPart(PRIMARY, ns[i])
  {
    seq(|ns|, i requires 0 <= i < |ns| => BasicPart(PRIMARY, ns[i]))
  }

  function LetterPart(l: Option<char>): seq<BasicPart>
  {
    if l.None? then [] else [BasicPart(CHARACTER, [l.value])]
  }

  function Kind(n: SuffixName): PartType
  {
    match n case Alpha => ALPHA case Beta => BETA case Pre => PRE case Rc => RC case P => PATCH
  }

  function SuffixParts(ss: seq<Suffix>): (ps: seq<BasicPart>)
    ensures |ps| == |ss| && forall i :: 0 <= i < |ss| ==> ps[i] == BasicPart(Kind(ss[i].name), ss[i].number)
  {
    seq(|ss|, i requires 0 <= i < |ss| => BasicPart(Kind(ss[i].name), ss[i].number))
  }

  function RevisionPart(r: Option<string>): seq<BasicPart>
  {
    if r.None? then [] else [BasicPart(REVISION, r.value)]
  }

  function Flatten(v: Spec): seq<BasicPart>
    requires v.numbers != []
  {
    [BasicPart(FIRST, v.numbers[0])]
    + (Components(v.numbers[1..]) + (LetterPart(v.letter) + (SuffixParts(v.suffixes) + RevisionPart(v.revision))))
  }

  // ---- numeric_compare compares integers ----

  lemma {:induction false} ValueOfZeros(s: string)
    requires Digits(s)
    ensures Digits(StripZeros(s)) && Value(StripZeros(s)) == Value(s)
    decreases |s|
  {
    if s != [] && s[0] == '0' {
      DropZero(s);
      ValueOfZeros(s[1..]);
    }
  }

  lemma {:induction false} DropZero(s: string)
    requires Digits(s) && LeadingZero(s)
    ensures Value(s[1..]) == Value(s)
  {
    var n := |s| - 1;
    if n > 0 {
      DropZero(s[..n]);
      assert s[..n][1..] == s[1..][..n - 1];
    } else {
      assert s[..0] == [] && s[1..] == [];
    }
  }

  lemma {:induction false} ValueByLength(a: string, b: string)
    requires Digits(a) && Digits(b) && |a| < |b| && b[0] != '0'
    ensures Value(a) < Value(b)
    decreases |a|
  {
    if a == [] {
      ValuePositive(b);
    } else {
      ValueByLength(a[..|a| - 1], b[..|b| - 1]);
    }
  }

  lemma {:induction false} ValuePositive(b: string)
    requires Digits(b) && b != [] && b[0] != '0'
    ensures Value(b) > 0
  {
    if |b| > 1 { ValuePositive(b[..|b| - 1]); }
  }

  lemma {:induction false} CompareSnoc(a: string, b: string)
    requires |a| == |b| > 0
    ensures var n := |a| - 1;
      StrCompare(a, b) == if StrCompare(a[..n], b[..n]) != 0 then StrCompare(a[..n], b[..n])
                          else Sign(a[n] as int - b[n] as int)
  {
    var n := |a| - 1;
    if n > 0 {
      if a[0] == b[0] {
        CompareSnoc(a[1..], b[1..]);
        assert a[..n][1..] == a[1..][..n - 1] && b[..n][1..] == b[1..][..n - 1];
      }
    } else {
      assert a[1..] == [] && b[1..] == [];
    }
  }

  lemma {:induction false} ValueByDigits(a: string, b: string)
    requires Digits(a) && Digits(b) && |a| == |b|
    ensures StrCompare(a, b) == Sign(Value(a) - Value(b))
  {
    if a != [] {
      CompareSnoc(a, b);
      ValueByDigits(a[..|a| - 1], b[..|b| - 1]);
    }
  }

  /** numeric_compare is the order of the denoted integers. */
  lemma NumericCompareIsInteger(a: string, b: string)
    requires Digits(a) && Digits(b)
    ensures NumericCompare(a, b) == IntegerCompare(a, b)
  {
    var l, r := StripZeros(a), StripZeros(b);
    ValueOfZeros(a);
    ValueOfZeros(b);
    if |l| < |r| {
      ValueByLength(l, r);
    } else if |r| < |l| {
      ValueByLength(r, l);
    } else {
      ValueByDigits(l, r);
    }
  }

  lemma NumberPartCompare(t: PartType, a: string, b: string)
    requires Digits(a) && Digits(b) && t != PRIMARY && t != GARBAGE
    ensures PartCompare(BasicPart(t, a), BasicPart(t, b)) == IntegerCompare(a, b)
  {
    NumericCompareIsInteger(a, b);
    if |a| == |b| { SameLengthNumeric(a, b); }
  }

  // ---- Stringwise comparison without trailing zeros compares fractions ----

  lemma SignTimesTen(x: int)
    ensures Sign(10 * x) == Sign(x)
  {
  }

  lemma {:induction false} ValueFront(s: string)
    requires Digits(s) && s != []
    ensures Value(s) == (s[0] as int - '0' as int) * Power10(|s| - 1) + Value(s[1..])
  {
    var n := |s| - 1;
    if n > 0 {
      ValueFront(s[..n]);
      assert s[..n][1..] == s[1..][..n - 1] && s[1..][n - 1] == s[n];
      TimesTen(s[0] as int - '0' as int, Power10(n - 1), Value(s[1..][..n - 1]));
    } else {
      assert s[..0] == s[1..] == [];
    }
  }

  lemma TimesTen(d: int, p: int, v: int)
    ensures 10 * (d * p + v) == d * (10 * p) + 10 * v
  {
  }

  lemma {:induction false} ValueBound(s: string)
    requires Digits(s)
    ensures Value(s) < Power10(|s|)
  {
    if s != [] { ValueBound(s[..|s| - 1]); }
  }

  /** One trailing zero does not change a fraction. */
  lemma DropLastZero(a: string, b: string)
    requires Digits(a) && Digits(b) && a != [] && a[|a| - 1] == '0'
    ensures FractionCompare(a, b) == FractionCompare(a[..|a| - 1], b)
  {
    var v: int, p: int, w: int, q: int := Value(a[..|a| - 1]), Power10(|a| - 1), Value(b), Power10(|b|);
    assert (10 * v) * q - w * (10 * p) == 10 * (v * q - w * p);
    SignTimesTen(v * q - w * p);
  }

  lemma {:induction false} TrimIsFraction(a: string, b: string)
    requires Digits(a) && Digits(b)
    ensures Digits(TrimZeros(a)) && FractionCompare(a, b) == FractionCompare(TrimZeros(a), b)
    ensures TrimZeros(a) != [] ==> TrimZeros(a)[|TrimZeros(a)| - 1] != '0'
  {
    if a != [] && a[|a| - 1] == '0' {
      DropLastZero(a, b);
      TrimIsFraction(a[..|a| - 1], b);
    }
  }

  lemma FractionFlip(a: string, b: string)
    requires Digits(a) && Digits(b)
    ensures FractionCompare(b, a) == -FractionCompare(a, b)
  {
  }

  lemma Times(a: int, b: int, c: int)
    requires a <= b && c >= 0
    ensures a * c <= b * c
  {
  }

  lemma Distributes(a: int, b: int, c: int)
    ensures (a + b) * c == a * c + b * c
  {
  }

  lemma FirstDecides(d: int, p: int, q: int, v: int, w: int)
    requires 0 <= v < p && 0 <= w < q
    ensures Sign(d * (p * q) + v * q - w * p) == if d != 0 then Sign(d) else Sign(v * q - w * p)
  {
    Times(0, v, q);
    Times(v, p - 1, q);
    Distributes(p, -1, q);
    Times(0, w, p);
    Times(w, q - 1, p);
    Distributes(q, -1, p);
    assert q * p == p * q;
    Times(0, p, q);
    if d > 0 { Times(1, d, p * q); } else if d < 0 { Times(d, -1, p * q); }
  }

  /** The difference of two numbers with first digits x and y, brought to one length. */
  lemma FirstDifference(x: int, y: int, p: int, q: int, v: int, w: int)
    ensures (x * p + v) * (10 * q) - (y * q + w) * (10 * p) == 10 * ((x - y) * (p * q) + v * q - w * p)
  {
    Distributes(x * p, v, 10 * q);
    Distributes(y * q, w, 10 * p);
    Distributes(x, -y, p * q);
    assert (x * p) * (10 * q) == 10 * (x * (p * q)) && v * (10 * q) == 10 * (v * q);
    assert (y * q) * (10 * p) == 10 * (y * (p * q)) && w * (10 * p) == 10 * (w * p);
    assert (-y) * (p * q) == -(y * (p * q));
  }

  lemma {:induction false} FractionOfNone(b: string)
    requires Digits(b) && (b != [] ==> b[|b| - 1] != '0')
    ensures FractionCompare([], b) == if b == [] then 0 else -1
  {
    assert Power10(0) == 1;
  }

  lemma {:induction false} StringsAreFractions(a: string, b: string)
    requires Digits(a) && Digits(b) && (a != [] ==> a[|a| - 1] != '0') && (b != [] ==> b[|b| - 1] != '0')
    ensures StrCompare(a, b) == FractionCompare(a, b)
  {
    if a == [] {
      FractionOfNone(b);
    } else if b == [] {
      FractionOfNone(a);
      FractionFlip(a, b);
    } else {
      var s, t := a[1..], b[1..];
      FirstFractions(a, b);
      StringsAreFractions(s, t);
    }
  }

  /** The first digit of a fraction decides, and then the rest. */
  lemma FirstFractions(a: string, b: string)
    requires Digits(a) && Digits(b) && a != [] && b != []
    ensures FractionCompare(a, b) == if a[0] != b[0] then Sign(a[0] as int - b[0] as int) else FractionCompare(a[1..], b[1..])
  {
    hide Value, Power10;
    var s, t := a[1..], b[1..];
    ValueFront(a);
    ValueFront(b);
    ValueBound(s);
    ValueBound(t);
    PowerNext(|s|);
    PowerNext(|t|);
    var x, y := a[0] as int - '0' as int, b[0] as int - '0' as int;
    var p, q, v, w := Power10(|s|), Power10(|t|), Value(s), Value(t);
    FirstDifference(x, y, p, q, v, w);
    FirstDecides(x - y, p, q, v, w);
    SignTimesTen((x - y) * (p * q) + v * q - w * p);
  }

  lemma PowerNext(n: nat)
    ensures Power10(n + 1) == 10 * Power10(n)
  {
  }

  lemma TrimmedAreFractions(a: string, b: string)
    requires Digits(a) && Digits(b)
    ensures StrCompare(TrimZeros(a), TrimZeros(b)) == FractionCompare(a, b)
  {
    hide FractionCompare;
    var x, y := TrimZeros(a), TrimZeros(b);
    TrimIsFraction(a, b);
    TrimIsFraction(b, x);
    FractionFlip(x, b);
    FractionFlip(x, y);
    StringsAreFractions(x, y);
  }

  lemma ComponentPartCompare(a: string, b: string)
    requires Digits(a) && Digits(b)
    ensures PartCompare(BasicPart(PRIMARY, a), BasicPart(PRIMARY, b)) == ComponentCompare(a, b)
  {
    hide FractionCompare, IntegerCompare;
    NumericCompareIsInteger(a, b);
    TrimmedAreFractions(a, b);
    if |a| == |b| {
      SameLengthNumeric(a, b);
      SameLengthTrimmed(a, b);
    }
  }

  // ---- One stage after the other ----

  predicate Below(ps: seq<BasicPart>, rank: nat) { ps != [] ==> ps[0].ptype < rank }

  lemma {:induction false} ComponentStage(a: seq<string>, b: seq<string>, x: seq<BasicPart>, y: seq<BasicPart>)
    requires (forall i :: 0 <= i < |a| ==> Digits(a[i])) && (forall i :: 0 <= i < |b| ==> Digits(b[i]))
    requires Below(x, PRIMARY) && Below(y, PRIMARY)
    ensures Compare(Components(a) + x, Components(b) + y)
         == if ComponentsCompare(a, b) != 0 then ComponentsCompare(a, b) else Compare(x, y)
    decreases |a|
  {
    var l, r := Components(a) + x, Components(b) + y;
    if a != [] && b != [] {
      ComponentPartCompare(a[0], b[0]);
      assert l[0] == BasicPart(PRIMARY, a[0]) && r[0] == BasicPart(PRIMARY, b[0]);
      assert l[1..] == Components(a[1..]) + x && r[1..] == Components(b[1..]) + y;
      ComponentStage(a[1..], b[1..], x, y);
    } else if a != [] {
      assert l[0] == BasicPart(PRIMARY, a[0]) && r == y;
    } else if b != [] {
      assert r[0] == BasicPart(PRIMARY, b[0]) && l == x;
    } else {
      assert l == x && r == y;
    }
  }

  lemma LetterStage(a: Option<char>, b: Option<char>, x: seq<BasicPart>, y: seq<BasicPart>)
    requires Below(x, CHARACTER) && Below(y, CHARACTER)
    ensures Compare(LetterPart(a) + x, LetterPart(b) + y)
         == if LetterCompare(a, b) != 0 then LetterCompare(a, b) else Compare(x, y)
  {
    var l, r := LetterPart(a) + x, LetterPart(b) + y;
    if a.None? { assert l == x; } else { assert l[1..] == x; }
    if b.None? { assert r == y; } else { assert r[1..] == y; }
    if a.Some? && b.Some? {
      assert [a.value][1..] == [] && [b.value][1..] == [];
      assert StrCompare([a.value], [b.value]) == LetterCompare(a, b);
    }
  }

  predicate RevisionOrEnd(ps: seq<BasicPart>) { ps != [] ==> ps[0].ptype == REVISION }

  lemma {:induction false} SuffixStage(a: seq<Suffix>, b: seq<Suffix>, x: seq<BasicPart>, y: seq<BasicPart>)
    requires forall i :: 0 <= i < |a| ==> Digits(a[i].number)
    requires forall i :: 0 <= i < |b| ==> Digits(b[i].number)
    requires RevisionOrEnd(x) && RevisionOrEnd(y)
    ensures Compare(SuffixParts(a) + x, SuffixParts(b) + y)
         == if SuffixesCompare(a, b) != 0 then SuffixesCompare(a, b) else Compare(x, y)
    decreases |a|
  {
    var l, r := SuffixParts(a) + x, SuffixParts(b) + y;
    if a != [] && b != [] {
      assert l[0] == BasicPart(Kind(a[0].name), a[0].number) && r[0] == BasicPart(Kind(b[0].name), b[0].number);
      if a[0].name == b[0].name {
        NumberPartCompare(Kind(a[0].name), a[0].number, b[0].number);
        assert l[1..] == SuffixParts(a[1..]) + x && r[1..] == SuffixParts(b[1..]) + y;
        SuffixStage(a[1..], b[1..], x, y);
      }
    } else if a != [] {
      assert l[0] == BasicPart(Kind(a[0].name), a[0].number) && r == y;
    } else if b != [] {
      assert r[0] == BasicPart(Kind(b[0].name), b[0].number) && l == x;
    } else {
      assert l == x && r == y;
    }
  }

  /** The only disagreement: one explicit revision that is zero against none. */
  predicate ZeroRevisionAgainstNone(a: Option<string>, b: Option<string>)
    requires a.Some? ==> Digits(a.value)
    requires b.Some? ==> Digits(b.value)
  {
    (a.Some? && b.None? && Value(a.value) == 0) || (a.None? && b.Some? && Value(b.value) == 0)
  }

  lemma RevisionStage(a: Option<string>, b: Option<string>)
    requires (a.Some? ==> Digits(a.value)) && (b.Some? ==> Digits(b.value))
    ensures Compare(RevisionPart(a), RevisionPart(b))
         == if a.Some? && b.None? then 1 else if a.None? && b.Some? then -1
            else IntegerCompare(RevisionNumber(a), RevisionNumber(b))
  {
    if a.Some? && b.Some? {
      NumberPartCompare(REVISION, a.value, b.value);
      assert RevisionPart(a)[1..] == [] && RevisionPart(b)[1..] == [];
      assert CompareParts([], [], false) == 0;
    }
  }

  /** What the flat loop computes, in the stages of the specification. */
  lemma FlatCompareByStages(a: Spec, b: Spec)
    requires WellFormed(a) && WellFormed(b)
    ensures Compare(Flatten(a), Flatten(b))
         == var numbers := NumbersCompare(a.numbers, b.numbers);
            var letter := LetterCompare(a.letter, b.letter);
            var suffixes := SuffixesCompare(a.suffixes, b.suffixes);
            if numbers != 0 then numbers
            else if letter != 0 then letter
            else if suffixes != 0 then suffixes
            else Compare(RevisionPart(a.revision), RevisionPart(b.revision))
  {
    var x3, y3 := RevisionPart(a.revision), RevisionPart(b.revision);
    var x2, y2 := SuffixParts(a.suffixes) + x3, SuffixParts(b.suffixes) + y3;
    var x1, y1 := LetterPart(a.letter) + x2, LetterPart(b.letter) + y2;
    SuffixStage(a.suffixes, b.suffixes, x3, y3);
    LetterStage(a.letter, b.letter, x2, y2);
    ComponentStage(a.numbers[1..], b.numbers[1..], x1, y1);
    NumberPartCompare(FIRST, a.numbers[0], b.numbers[0]);
    assert Flatten(a)[1..] == Components(a.numbers[1..]) + x1;
    assert Flatten(b)[1..] == Components(b.numbers[1..]) + y1;
  }

  /** The flat loop agrees with the specification exactly when it is not a tie between
      a version without revision and one with an explicit revision zero, which the
      program puts strictly above. */
  lemma FlatAgreesWithSpecification(a: Spec, b: Spec)
    requires WellFormed(a) && WellFormed(b)
    ensures Compare(Flatten(a), Flatten(b)) == StagedCompare(a, b)
      <==> !(StagedCompare(a, b) == 0 && ZeroRevisionAgainstNone(a.revision, b.revision))
  {
    FlatCompareByStages(a, b);
    RevisionStage(a.revision, b.revision);
  }

  lemma ZeroRevisionIsAbove(v: Spec, zero: string)
    requires WellFormed(v) && v.revision.None? && Digits(zero) && Value(zero) == 0
    ensures var w := v.(revision := Some(zero));
      Compare(Flatten(w), Flatten(v)) == 1 && StagedCompare(w, v) == 0
  {
    var w := v.(revision := Some(zero));
    FlatCompareByStages(w, v);
    RevisionStage(w.revision, v.revision);
    ComponentsTie(v.numbers[1..]);
    SuffixesTie(v.suffixes);
  }

  lemma {:induction false} ComponentsTie(ns: seq<string>)
    requires forall i :: 0 <= i < |ns| ==> Digits(ns[i])
    ensures ComponentsCompare(ns, ns) == 0
  {
    if ns != [] {
      ComponentsTie(ns[1..]);
    }
  }

  lemma {:induction false} SuffixesTie(ss: seq<Suffix>)
    requires forall i :: 0 <= i < |ss| ==> Digits(ss[i].number)
    ensures SuffixesCompare(ss, ss) == 0
  {
    if ss != [] { SuffixesTie(ss[1..]); }
  }
}
