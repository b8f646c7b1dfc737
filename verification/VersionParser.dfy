/** Parsing version strings into parts, and printing parts. */
module VersionParser {
  import opened Strings
  import opened Versions
  import opened Wrappers

  datatype ParseResult = ParsedOK | ParsedError | ParsedGarbage

  datatype Parsed = Parsed(parts: seq<BasicPart>, result: ParseResult)

  // ---- Printing ----

  function Prefix(t: PartType): string
  {
    if t == ALPHA then "_alpha"
    else if t == BETA then "_beta"
    else if t == PRE then "_pre"
    else if t == RC then "_rc"
    else if t == PATCH then "_p"
    else if t == REVISION then "-r"
    else if t == INTER_REV || t == PRIMARY then "."
    else []
  }

  /** A part of unknown kind prints nothing but an error message. */
  function PartText(p: BasicPart): string
  {
    if p.ptype > FIRST then [] else Prefix(p.ptype) + p.content
  }

  function FullText(ps: seq<BasicPart>): string
  {
    if ps == [] then [] else PartText(ps[0]) + FullText(ps[1..])
  }

  lemma {:induction false} FullTextSnoc(ps: seq<BasicPart>, p: BasicPart)
    ensures FullText(ps + [p]) == FullText(ps) + PartText(p)
  {
    if ps == [] {
      assert ps + [p] == [p] && [p][1..] == [];
      assert FullText([p]) == PartText(p) + FullText([]);
    } else {
      assert (ps + [p])[1..] == ps[1..] + [p];
      FullTextSnoc(ps[1..], p);
    }
  }

  // ---- Parsing ----

  /** First position from `pos` on that holds no digit. */
  function FindNotDigit(s: string, pos: nat): (r: nat)
    requires pos <= |s|
    ensures pos <= r <= |s|
    ensures forall i :: pos <= i < r ==> IsDigit(s[i])
    ensures r < |s| ==> !IsDigit(s[r])
    decreases |s| - pos
  {
    if pos == |s| || !IsDigit(s[pos]) then pos else FindNotDigit(s, pos + 1)
  }

  predicate StartsAt(s: string, pos: nat, w: string)
  {
    pos + |w| <= |s| && s[pos..pos + |w|] == w
  }

  /** The kind of the suffix name at a position. */
  function SuffixKind(s: string, pos: nat): (k: PartType)
    requires pos <= |s|
    ensures k == GARBAGE || (IsSuffix(k) && pos + NameLength(k) <= |s|)
  {
    if StartsAt(s, pos, "alpha") then ALPHA
    else if StartsAt(s, pos, "beta") then BETA
    else if StartsAt(s, pos, "pre") then PRE
    else if StartsAt(s, pos, "rc") then RC
    else if StartsAt(s, pos, "p") then PATCH
    else GARBAGE
  }

  function NameLength(k: PartType): (n: nat)
    ensures IsSuffix(k) ==> n + 1 == |Prefix(k)|
  {
    if k == ALPHA then 5 else if k == BETA then 4 else if k == PRE then 3 else if k == RC then 2 else 1
  }

  predicate IsSuffix(k: PartType) { k == ALPHA || k == BETA || k == PRE || k == RC || k == PATCH }

  function Prepend(p: BasicPart, rest: Parsed): Parsed
  {
    Parsed([p] + rest.parts, rest.result)
  }

  /** The end of the text, or garbage. */
  function ParseRest(s: string, pos: nat, keep: bool): Parsed
    requires pos <= |s|
  {
    if pos == |s| then Parsed([], ParsedOK)
    else Parsed(if keep then [BasicPart(GARBAGE, s[pos..])] else [], ParsedGarbage)
  }

  function ParseInterRev(s: string, pos: nat, keep: bool): Parsed
    requires pos <= |s|
  {
    if pos < |s| && s[pos] == '.' then
      var e := FindNotDigit(s, pos + 1);
      Prepend(BasicPart(INTER_REV, s[pos + 1..e]), ParseRest(s, e, keep))
    else ParseRest(s, pos, keep)
  }

  function ParseRevision(s: string, pos: nat, keep: bool): Parsed
    requires pos <= |s|
  {
    if StartsAt(s, pos, "-r") then
      var e := FindNotDigit(s, pos + 2);
      Prepend(BasicPart(REVISION, s[pos + 2..e]), ParseInterRev(s, e, keep))
    else ParseRest(s, pos, keep)
  }

  function ParseSuffixes(s: string, pos: nat, keep: bool): Parsed
    requires pos <= |s|
    decreases |s| - pos
  {
    if pos < |s| && s[pos] == '_' then
      var kind := SuffixKind(s, pos + 1);
      if kind == GARBAGE then Parsed([BasicPart(GARBAGE, s[pos..])], ParsedError)
      else
        var c := pos + 1 + NameLength(kind);
        var e := FindNotDigit(s, c);
        Prepend(BasicPart(kind, s[c..e]), ParseSuffixes(s, e, keep))
    else ParseRevision(s, pos, keep)
  }

  function ParseLetter(s: string, pos: nat, keep: bool): Parsed
    requires pos <= |s|
  {
    if pos < |s| && IsAlpha(s[pos]) then Prepend(BasicPart(CHARACTER, [s[pos]]), ParseSuffixes(s, pos + 1, keep))
    else ParseSuffixes(s, pos, keep)
  }

  function ParsePrimaries(s: string, pos: nat, keep: bool): Parsed
    requires pos <= |s|
    decreases |s| - pos
  {
    if pos < |s| && s[pos] == '.' then
      var e := FindNotDigit(s, pos + 1);
      if e == pos + 1 then Parsed([BasicPart(GARBAGE, s[pos + 1..])], ParsedError)
      else Prepend(BasicPart(PRIMARY, s[pos + 1..e]), ParsePrimaries(s, e, keep))
    else ParseLetter(s, pos, keep)
  }

  function Parse(s: string, keep: bool): Parsed
  {
    var e := FindNotDigit(s, 0);
    if e == 0 then Parsed([BasicPart(GARBAGE, s)], ParsedError)
    else Prepend(BasicPart(FIRST, s[..e]), ParsePrimaries(s, e, keep))
  }

  // ---- The object that parses in place ----

  /** What is still to be parsed gives the rest of the parts. */
  ghost predicate Completes(goal: Parsed, parts: seq<BasicPart>, rest: Parsed)
  {
    goal == Parsed(parts + rest.parts, rest.result)
  }

  lemma CompletesStep(goal: Parsed, parts: seq<BasicPart>, p: BasicPart, rest: Parsed)
    requires Completes(goal, parts, Prepend(p, rest))
    ensures Completes(goal, parts + [p], rest)
  {
    assert parts + ([p] + rest.parts) == (parts + [p]) + rest.parts;
  }

  /** One "_" suffix, or what stands in its place. */
  lemma SuffixStep(goal: Parsed, parts: seq<BasicPart>, s: string, pos: nat, keep: bool)
    requires pos < |s| && s[pos] == '_' && Completes(goal, parts, ParseSuffixes(s, pos, keep))
    ensures var kind := SuffixKind(s, pos + 1);
      if kind == GARBAGE then Parsed(parts + [BasicPart(GARBAGE, s[pos..])], ParsedError) == goal
      else
        var c := pos + 1 + NameLength(kind);
        var e := FindNotDigit(s, c);
        Completes(goal, parts + [BasicPart(kind, s[c..e])], ParseSuffixes(s, e, keep))
  {
    hide SuffixKind, NameLength, ParseRevision, Prepend;
    var kind := SuffixKind(s, pos + 1);
    if kind != GARBAGE {
      var c := pos + 1 + NameLength(kind);
      var e := FindNotDigit(s, c);
      CompletesStep(goal, parts, BasicPart(kind, s[c..e]), ParseSuffixes(s, e, keep));
    }
  }

  lemma FirstStep(s: string, keep: bool)
    ensures var e := FindNotDigit(s, 0);
      if e == 0 then Parse(s, keep) == Parsed([BasicPart(GARBAGE, s)], ParsedError)
      else Completes(Parse(s, keep), [BasicPart(FIRST, s[..e])], ParsePrimaries(s, e, keep))
  {
    hide ParsePrimaries;
  }

  lemma LetterStep(goal: Parsed, parts: seq<BasicPart>, s: string, pos: nat, keep: bool)
    requires pos <= |s| && Completes(goal, parts, ParseLetter(s, pos, keep))
    ensures if pos < |s| && IsAlpha(s[pos]) then
              Completes(goal, parts + [BasicPart(CHARACTER, [s[pos]])], ParseSuffixes(s, pos + 1, keep))
            else Completes(goal, parts, ParseSuffixes(s, pos, keep))
  {
    hide ParseSuffixes, Completes;
    if pos < |s| && IsAlpha(s[pos]) {
      CompletesStep(goal, parts, BasicPart(CHARACTER, [s[pos]]), ParseSuffixes(s, pos + 1, keep));
    }
  }

  lemma RestStep(goal: Parsed, parts: seq<BasicPart>, s: string, pos: nat, keep: bool)
    requires pos <= |s| && Completes(goal, parts, ParseRest(s, pos, keep))
    ensures pos == |s| ==> goal == Parsed(parts, ParsedOK)
    ensures pos < |s| ==> goal == Parsed(if keep then parts + [BasicPart(GARBAGE, s[pos..])] else parts, ParsedGarbage)
  {
    assert parts + [] == parts;
  }

  lemma NoMoreSuffix(s: string, pos: nat, keep: bool)
    requires pos <= |s| && (pos < |s| ==> s[pos] != '_')
    ensures ParseSuffixes(s, pos, keep) == ParseRevision(s, pos, keep)
  {
    hide ParseRevision;
  }

  class BasicVersion {
    var parts: seq<BasicPart>

    constructor ()
      ensures parts == []
    {
      parts := [];
    }

    /** `acceptGarbage >= 0` keeps trailing garbage as a part. */
    method ParseVersion(str: string, acceptGarbage: int) returns (r: ParseResult)
      modifies this
      ensures Parsed(parts, r) == Parse(str, acceptGarbage >= 0)
    {
      hide Parse, ParsePrimaries, ParseLetter, ParseSuffixes, ParseRevision, ParseRest, Completes;
      ghost var keep := acceptGarbage >= 0;
      ghost var goal := Parse(str, keep);
      parts := [];
      FirstStep(str, keep);
      var endPos := FindNotDigit(str, 0);
      if endPos == 0 {
        parts := [BasicPart(GARBAGE, str)];
        return ParsedError;
      }
      parts := [BasicPart(FIRST, str[..endPos])];
      var pos, ok := ParseComponents(str, endPos, keep, goal);
      if !ok { return ParsedError; }
      LetterStep(goal, parts, str, pos, keep);
      if pos < |str| && IsAlpha(str[pos]) {
        parts := parts + [BasicPart(CHARACTER, [str[pos]])];
        pos := pos + 1;
      }
      pos, ok := ParseSuffixParts(str, pos, keep, goal);
      if !ok { return ParsedError; }
      pos := ParseRevisionParts(str, pos, keep, goal);
      RestStep(goal, parts, str, pos, keep);
      if pos == |str| { return ParsedOK; }
      if acceptGarbage >= 0 {
        parts := parts + [BasicPart(GARBAGE, str[pos..])];
      }
      return ParsedGarbage;
    }

    /** The loop over "." components. */
    method ParseComponents(str: string, start: nat, ghost keep: bool, ghost goal: Parsed)
      returns (pos: nat, ok: bool)
      requires start <= |str| && Completes(goal, parts, ParsePrimaries(str, start, keep))
      modifies this
      ensures !ok ==> Parsed(parts, ParsedError) == goal
      ensures ok ==> pos <= |str| && Completes(goal, parts, ParseLetter(str, pos, keep))
    {
      pos := start;
      while pos < |str| && str[pos] == '.'
        invariant pos <= |str| && Completes(goal, parts, ParsePrimaries(str, pos, keep))
        decreases |str| - pos
      {
        var endPos := FindNotDigit(str, pos + 1);
        if endPos == pos + 1 {
          parts := parts + [BasicPart(GARBAGE, str[pos + 1..])];
          return pos, false;
        }
        var p := BasicPart(PRIMARY, str[pos + 1..endPos]);
        CompletesStep(goal, parts, p, ParsePrimaries(str, endPos, keep));
        parts := parts + [p];
        pos := endPos;
      }
      return pos, true;
    }

    /** The loop over "_" suffixes. */
    method ParseSuffixParts(str: string, start: nat, ghost keep: bool, ghost goal: Parsed)
      returns (pos: nat, ok: bool)
      requires start <= |str| && Completes(goal, parts, ParseSuffixes(str, start, keep))
      modifies this
      ensures !ok ==> Parsed(parts, ParsedError) == goal
      ensures ok ==> pos <= |str| && Completes(goal, parts, ParseRevision(str, pos, keep))
    {
      hide ParseSuffixes, SuffixKind, NameLength, ParseRevision, Completes;
      pos := start;
      while pos < |str| && str[pos] == '_'
        invariant pos <= |str| && Completes(goal, parts, ParseSuffixes(str, pos, keep))
        decreases |str| - pos
      {
        SuffixStep(goal, parts, str, pos, keep);
        var kind := SuffixKind(str, pos + 1);
        if kind == GARBAGE {
          parts := parts + [BasicPart(GARBAGE, str[pos..])];
          return pos, false;
        }
        var digits := pos + 1 + NameLength(kind);
        var endPos := FindNotDigit(str, digits);
        parts := parts + [BasicPart(kind, str[digits..endPos])];
        pos := endPos;
      }
      NoMoreSuffix(str, pos, keep);
      return pos, true;
    }

    /** The optional revision and inter-revision. */
    method ParseRevisionParts(str: string, start: nat, ghost keep: bool, ghost goal: Parsed) returns (pos: nat)
      requires start <= |str| && Completes(goal, parts, ParseRevision(str, start, keep))
      modifies this
      ensures pos <= |str| && Completes(goal, parts, ParseRest(str, pos, keep))
    {
      pos := start;
      if !StartsAt(str, pos, "-r") { return; }
      var endPos := FindNotDigit(str, pos + 2);
      var p := BasicPart(REVISION, str[pos + 2..endPos]);
      CompletesStep(goal, parts, p, ParseInterRev(str, endPos, keep));
      parts := parts + [p];
      pos := endPos;
      if pos < |str| && str[pos] == '.' {
        endPos := FindNotDigit(str, pos + 1);
        p := BasicPart(INTER_REV, str[pos + 1..endPos]);
        CompletesStep(goal, parts, p, ParseRest(str, endPos, keep));
        parts := parts + [p];
        pos := endPos;
      }
    }

    method GetFull() returns (s: string)
      ensures s == FullText(parts)
    {
      s := [];
      for i := 0 to |parts|
        invariant s == FullText(parts[..i])
      {
        FullTextSnoc(parts[..i], parts[i]);
        assert parts[..i + 1] == parts[..i] + [parts[i]];
        s := s + PartText(parts[i]);
      }
      assert parts[..|parts|] == parts;
    }

    method GetPlain() returns (s: string)
      ensures s == FullText(Plain(parts))
    {
      s := [];
      var i := 0;
      assert parts[0..] == parts;
      while i < |parts|
        invariant i <= |parts| && FullText(Plain(parts)) == s + FullText(Plain(parts[i..]))
      {
        if parts[i].ptype == REVISION { break; }
        assert parts[i..][1..] == parts[i + 1..];
        s := s + PartText(parts[i]);
        i := i + 1;
      }
    }
  }

  // ---- Printing undoes parsing ----

  /** The position of a dot without digits behind it, if the number components stop at one. */
  function BareDot(s: string, pos: nat): (r: Option<nat>)
    requires pos <= |s|
    ensures r.Some? ==> pos <= r.value < |s| && s[r.value] == '.' && (r.value + 1 < |s| ==> !IsDigit(s[r.value + 1]))
    decreases |s| - pos
  {
    if pos == |s| || s[pos] != '.' then None
    else
      var e := FindNotDigit(s, pos + 1);
      if e == pos + 1 then Some(pos) else BareDot(s, e)
  }

  /** The dot at which the components of a version stop. */
  function StopDot(s: string): Option<nat>
  {
    var e := FindNotDigit(s, 0);
    if e == 0 then None else BareDot(s, e)
  }

  /** The text from `pos` on is printed back, malformed or not, unless garbage was dropped; dropped
      garbage leaves a proper prefix. */
  ghost predicate PrintsBack(p: Parsed, s: string, pos: nat, keep: bool)
    requires pos <= |s|
  {
    if p.result == ParsedGarbage && !keep then FullText(p.parts) < s[pos..] else FullText(p.parts) == s[pos..]
  }

  lemma FullOfPrepend(p: BasicPart, rest: Parsed)
    ensures FullText(Prepend(p, rest).parts) == PartText(p) + FullText(rest.parts)
  {
    assert ([p] + rest.parts)[1..] == rest.parts;
  }

  lemma PrintsBackStep(p: BasicPart, rest: Parsed, s: string, pos: nat, next: nat, keep: bool)
    requires pos <= next <= |s| && PrintsBack(rest, s, next, keep) && s[pos..next] == PartText(p)
    ensures PrintsBack(Prepend(p, rest), s, pos, keep)
  {
    hide FullText, PartText;
    FullOfPrepend(p, rest);
    assert s[pos..] == s[pos..next] + s[next..];
  }

  lemma RestPrintsBack(s: string, pos: nat, keep: bool)
    requires pos <= |s|
    ensures PrintsBack(ParseRest(s, pos, keep), s, pos, keep)
  {
    if pos < |s| {
      var g := BasicPart(GARBAGE, s[pos..]);
      assert [g][1..] == [] && FullText([g]) == PartText(g) + FullText([]);
    }
  }

  lemma InterRevPrintsBack(s: string, pos: nat, keep: bool)
    requires pos <= |s|
    ensures PrintsBack(ParseInterRev(s, pos, keep), s, pos, keep)
  {
    hide PrintsBack, FullText, ParseRest;
    if pos < |s| && s[pos] == '.' {
      var e := FindNotDigit(s, pos + 1);
      RestPrintsBack(s, e, keep);
      assert s[pos..e] == "." + s[pos + 1..e];
      PrintsBackStep(BasicPart(INTER_REV, s[pos + 1..e]), ParseRest(s, e, keep), s, pos, e, keep);
    } else {
      RestPrintsBack(s, pos, keep);
    }
  }

  lemma RevisionPrintsBack(s: string, pos: nat, keep: bool)
    requires pos <= |s|
    ensures PrintsBack(ParseRevision(s, pos, keep), s, pos, keep)
  {
    hide PrintsBack, FullText, ParseInterRev;
    if StartsAt(s, pos, "-r") {
      var e := FindNotDigit(s, pos + 2);
      InterRevPrintsBack(s, e, keep);
      assert s[pos..e] == s[pos..pos + 2] + s[pos + 2..e];
      PrintsBackStep(BasicPart(REVISION, s[pos + 2..e]), ParseInterRev(s, e, keep), s, pos, e, keep);
    } else {
      RestPrintsBack(s, pos, keep);
    }
  }

  lemma SuffixText(s: string, pos: nat)
    requires pos < |s| && s[pos] == '_' && SuffixKind(s, pos + 1) != GARBAGE
    ensures StartsAt(s, pos, Prefix(SuffixKind(s, pos + 1)))
  {
    var k := SuffixKind(s, pos + 1);
    assert s[pos..pos + 1 + NameLength(k)] == ['_'] + s[pos + 1..pos + 1 + NameLength(k)];
    assert Prefix(k) == ['_'] + s[pos + 1..pos + 1 + NameLength(k)] by {
      if k == ALPHA { assert "_alpha" == ['_'] + "alpha"; }
      if k == BETA { assert "_beta" == ['_'] + "beta"; }
      if k == PRE { assert "_pre" == ['_'] + "pre"; }
      if k == RC { assert "_rc" == ['_'] + "rc"; }
      if k == PATCH { assert "_p" == ['_'] + "p"; }
    }
  }

  /** A text that is garbage as a whole. */
  lemma GarbagePrintsBack(s: string)
    ensures FullText([BasicPart(GARBAGE, s)]) == s
  {
    var g := BasicPart(GARBAGE, s);
    assert [g][1..] == [] && FullText([g]) == PartText(g) + FullText([]);
  }

  lemma ErrorPrintsBack(s: string, pos: nat, keep: bool)
    requires pos <= |s|
    ensures PrintsBack(Parsed([BasicPart(GARBAGE, s[pos..])], ParsedError), s, pos, keep)
  {
    GarbagePrintsBack(s[pos..]);
  }

  lemma {:induction false} SuffixesPrintBack(s: string, pos: nat, keep: bool)
    requires pos <= |s|
    ensures PrintsBack(ParseSuffixes(s, pos, keep), s, pos, keep)
    decreases |s| - pos
  {
    hide PrintsBack, FullText, ParseRevision, Prefix, StartsAt;
    if pos < |s| && s[pos] == '_' {
      var kind := SuffixKind(s, pos + 1);
      if kind != GARBAGE {
        var c := pos + 1 + NameLength(kind);
        var e := FindNotDigit(s, c);
        SuffixesPrintBack(s, e, keep);
        SuffixText(s, pos);
        assert s[pos..e] == s[pos..c] + s[c..e];
        PrintsBackStep(BasicPart(kind, s[c..e]), ParseSuffixes(s, e, keep), s, pos, e, keep);
      } else {
        ErrorPrintsBack(s, pos, keep);
      }
    } else {
      RevisionPrintsBack(s, pos, keep);
    }
  }

  lemma LetterPrintsBack(s: string, pos: nat, keep: bool)
    requires pos <= |s|
    ensures PrintsBack(ParseLetter(s, pos, keep), s, pos, keep)
  {
    hide PrintsBack, FullText, ParseSuffixes;
    if pos < |s| && IsAlpha(s[pos]) {
      SuffixesPrintBack(s, pos + 1, keep);
      assert s[pos..pos + 1] == [s[pos]];
      PrintsBackStep(BasicPart(CHARACTER, [s[pos]]), ParseSuffixes(s, pos + 1, keep), s, pos, pos + 1, keep);
    } else {
      SuffixesPrintBack(s, pos, keep);
    }
  }

  /** The text is printed back but for one dot, if there is one to lose. */
  ghost predicate PrintsBut(p: Parsed, s: string, pos: nat, keep: bool, dot: Option<nat>)
    requires pos <= |s|
  {
    match dot
    case None => PrintsBack(p, s, pos, keep)
    case Some(d) => pos <= d < |s| && p.result == ParsedError && FullText(p.parts) == s[pos..d] + s[d + 1..]
  }

  lemma PrintsButStep(p: BasicPart, rest: Parsed, s: string, pos: nat, next: nat, keep: bool, dot: Option<nat>)
    requires pos <= next <= |s| && PrintsBut(rest, s, next, keep, dot) && s[pos..next] == PartText(p)
    ensures PrintsBut(Prepend(p, rest), s, pos, keep, dot)
  {
    hide FullText, PartText, PrintsBack;
    if dot.None? {
      PrintsBackStep(p, rest, s, pos, next, keep);
    } else {
      var d := dot.value;
      FullOfPrepend(p, rest);
      assert s[pos..d] == s[pos..next] + s[next..d];
      Regroup(s[pos..next], s[next..d], s[d + 1..]);
    }
  }

  lemma StopPrints(s: string, pos: nat, keep: bool)
    requires pos < |s| && s[pos] == '.' && FindNotDigit(s, pos + 1) == pos + 1
    ensures PrintsBut(ParsePrimaries(s, pos, keep), s, pos, keep, BareDot(s, pos))
  {
    hide FullText, PrintsBack, ParseLetter;
    GarbagePrintsBack(s[pos + 1..]);
    assert s[pos..pos] + s[pos + 1..] == s[pos + 1..];
  }

  lemma {:induction false} PrimariesPrintBack(s: string, pos: nat, keep: bool)
    requires pos <= |s|
    ensures PrintsBut(ParsePrimaries(s, pos, keep), s, pos, keep, BareDot(s, pos))
    decreases |s| - pos
  {
    hide PrintsBut, PrintsBack, FullText, ParseLetter, Prepend;
    if pos < |s| && s[pos] == '.' {
      var e := FindNotDigit(s, pos + 1);
      if e > pos + 1 {
        PrimariesPrintBack(s, e, keep);
        assert s[pos..e] == "." + s[pos + 1..e];
        PrintsButStep(BasicPart(PRIMARY, s[pos + 1..e]), ParsePrimaries(s, e, keep), s, pos, e, keep, BareDot(s, e));
      } else {
        StopPrints(s, pos, keep);
      }
    } else {
      LetterPrintsBack(s, pos, keep);
      NoDot(ParseLetter(s, pos, keep), s, pos, keep);
    }
  }

  lemma NoDot(p: Parsed, s: string, pos: nat, keep: bool)
    requires pos <= |s| && PrintsBack(p, s, pos, keep)
    ensures PrintsBut(p, s, pos, keep, None)
  {
  }

  /** getFull undoes parseVersion on every text, malformed ones and garbage included, but for two
      losses: the dot at which the components stop, and garbage that is dropped. */
  lemma FullOfParse(s: string, keep: bool)
    ensures var p := Parse(s, keep);
      match StopDot(s)
      case None => PrintsBack(p, s, 0, keep)
      case Some(dot) => p.result == ParsedError && FullText(p.parts) == s[..dot] + s[dot + 1..]
  {
    hide FullText, ParsePrimaries;
    var e := FindNotDigit(s, 0);
    if e > 0 {
      PrimariesPrintBack(s, e, keep);
      FirstPrintsBack(BasicPart(FIRST, s[..e]));
      PrintsButStep(BasicPart(FIRST, s[..e]), ParsePrimaries(s, e, keep), s, 0, e, keep, BareDot(s, e));
    } else {
      assert s[0..] == s;
      ErrorPrintsBack(s, 0, keep);
    }
  }

  lemma FirstPrintsBack(p: BasicPart)
    requires p.ptype == FIRST
    ensures PartText(p) == p.content
  {
    assert [] + p.content == p.content;
  }

  /** A text is printed back exactly if its components stop at no bare dot and no garbage is dropped. */
  lemma PrintsBackExactly(s: string, keep: bool)
    ensures var p := Parse(s, keep);
      FullText(p.parts) == s <==> StopDot(s).None? && !(p.result == ParsedGarbage && !keep)
  {
    hide FullText, Parse;
    FullOfParse(s, keep);
    assert s[0..] == s;
    if StopDot(s).Some? {
      var d := StopDot(s).value;
      assert |s[..d] + s[d + 1..]| == |s| - 1;
    }
  }

  /** A component without digits loses its dot. */
  lemma MalformedLosesDot()
    ensures StopDot("1.x") == Some(1) && FullText(Parse("1.x", true).parts) == "1x"
  {
    hide FullText, Parse;
    var s := "1.x";
    assert FindNotDigit(s, 0) == FindNotDigit(s, 1) == 1 && FindNotDigit(s, 2) == 2;
    FullOfParse(s, true);
    assert s[..1] + s[2..] == "1x";
  }

  // ---- Parsing undoes printing ----

  predicate InterRevGrammar(ps: seq<BasicPart>)
  {
    ps == [] || (|ps| == 1 && ps[0].ptype == INTER_REV && Digits(ps[0].content))
  }

  predicate RevisionGrammar(ps: seq<BasicPart>)
  {
    ps == [] || (ps[0].ptype == REVISION && Digits(ps[0].content) && InterRevGrammar(ps[1..]))
  }

  predicate SuffixGrammar(ps: seq<BasicPart>)
  {
    if ps != [] && IsSuffix(ps[0].ptype) then Digits(ps[0].content) && SuffixGrammar(ps[1..]) else RevisionGrammar(ps)
  }

  predicate LetterGrammar(ps: seq<BasicPart>)
  {
    if ps != [] && ps[0].ptype == CHARACTER then
      |ps[0].content| == 1 && IsAlpha(ps[0].content[0]) && SuffixGrammar(ps[1..])
    else SuffixGrammar(ps)
  }

  predicate PrimaryGrammar(ps: seq<BasicPart>)
  {
    if ps != [] && ps[0].ptype == PRIMARY then
      ps[0].content != [] && Digits(ps[0].content) && PrimaryGrammar(ps[1..])
    else LetterGrammar(ps)
  }

  /** The part lists of versions. */
  predicate VersionGrammar(ps: seq<BasicPart>)
  {
    ps != [] && ps[0].ptype == FIRST && ps[0].content != [] && Digits(ps[0].content) && PrimaryGrammar(ps[1..])
  }

  /** From `pos` on, `s` is the text of the parts. */
  ghost predicate Tail(s: string, pos: nat, ps: seq<BasicPart>)
  {
    pos <= |s| && s[pos..] == FullText(ps)
  }

  function PartEnd(pos: nat, p: BasicPart): nat { pos + |Prefix(p.ptype)| + |p.content| }

  /** A part's text stands at a position. */
  ghost predicate PartAt(s: string, pos: nat, p: BasicPart)
  {
    StartsAt(s, pos, Prefix(p.ptype)) && StartsAt(s, pos + |Prefix(p.ptype)|, p.content)
  }

  lemma TailStep(s: string, pos: nat, ps: seq<BasicPart>)
    requires ps != [] && ps[0].ptype <= FIRST && Tail(s, pos, ps)
    ensures PartAt(s, pos, ps[0]) && Tail(s, PartEnd(pos, ps[0]), ps[1..])
  {
    var x, y, z := Prefix(ps[0].ptype), ps[0].content, FullText(ps[1..]);
    var t := s[pos..];
    assert t == x + y + z;
    assert t[..|x|] == x && t[|x|..|x| + |y|] == y && t[|x| + |y|..] == z;
    assert s[pos..pos + |x|] == t[..|x|];
    assert s[pos + |x|..pos + |x| + |y|] == t[|x|..|x| + |y|];
    assert s[pos + |x| + |y|..] == t[|x| + |y|..];
  }

  /** Digits with no digit after them are read as one run. */
  lemma {:induction false} RunExact(s: string, pos: nat, e: nat)
    requires pos <= e <= |s| && Digits(s[pos..e]) && (e < |s| ==> !IsDigit(s[e]))
    ensures FindNotDigit(s, pos) == e
    decreases e - pos
  {
    if pos < e {
      assert s[pos..e][0] == s[pos] && s[pos..e][1..] == s[pos + 1..e];
      RunExact(s, pos + 1, e);
    }
  }

  /** How the text at a position may go on. */
  predicate GoesOn(s: string, pos: nat, dot: bool, letter: bool, underscore: bool)
    requires pos <= |s|
  {
    pos == |s| || s[pos] == '-' || (dot && s[pos] == '.') || (letter && IsAlpha(s[pos])) || (underscore && s[pos] == '_')
  }

  lemma ReadBackStep(p: BasicPart, ps: seq<BasicPart>)
    requires ps != [] && p == ps[0]
    ensures Prepend(p, Parsed(ps[1..], ParsedOK)) == Parsed(ps, ParsedOK)
  {
    assert [ps[0]] + ps[1..] == ps;
  }

  lemma ReadInterRev(s: string, pos: nat, p: BasicPart, keep: bool)
    requires p.ptype == INTER_REV && Digits(p.content)
    requires PartAt(s, pos, p) && GoesOn(s, PartEnd(pos, p), false, false, false)
    ensures ParseInterRev(s, pos, keep) == Prepend(p, ParseRest(s, PartEnd(pos, p), keep))
    ensures s[pos] == '.'
  {
    var c := pos + |Prefix(p.ptype)|;
    assert s[pos..c][0] == s[pos];
    RunExact(s, c, c + |p.content|);
  }

  lemma RestRoundTrip(s: string, pos: nat, ps: seq<BasicPart>, keep: bool)
    requires Tail(s, pos, ps) && ps == []
    ensures ParseRest(s, pos, keep) == Parsed(ps, ParsedOK) && GoesOn(s, pos, false, false, false)
  {
    assert |s[pos..]| == 0;
  }

  lemma {:induction false} InterRevRoundTrip(s: string, pos: nat, ps: seq<BasicPart>, keep: bool)
    requires Tail(s, pos, ps) && InterRevGrammar(ps)
    ensures ParseInterRev(s, pos, keep) == Parsed(ps, ParsedOK) && GoesOn(s, pos, true, false, false)
    decreases |ps|
  {
    if ps != [] && ps[0].ptype == INTER_REV {
      TailStep(s, pos, ps);
      RestRoundTrip(s, PartEnd(pos, ps[0]), ps[1..], keep);
      ReadInterRev(s, pos, ps[0], keep);
      ReadBackStep(ps[0], ps);
    } else {
      RestRoundTrip(s, pos, ps, keep);
    }
  }

  lemma ReadRevision(s: string, pos: nat, p: BasicPart, keep: bool)
    requires p.ptype == REVISION && Digits(p.content)
    requires PartAt(s, pos, p) && GoesOn(s, PartEnd(pos, p), true, false, false)
    ensures ParseRevision(s, pos, keep) == Prepend(p, ParseInterRev(s, PartEnd(pos, p), keep))
    ensures s[pos] == '-'
  {
    var c := pos + |Prefix(p.ptype)|;
    assert s[pos..c][0] == s[pos];
    RunExact(s, c, c + |p.content|);
  }

  lemma {:induction false} RevisionRoundTrip(s: string, pos: nat, ps: seq<BasicPart>, keep: bool)
    requires Tail(s, pos, ps) && RevisionGrammar(ps)
    ensures ParseRevision(s, pos, keep) == Parsed(ps, ParsedOK) && GoesOn(s, pos, false, false, false)
    decreases |ps|
  {
    if ps != [] && ps[0].ptype == REVISION {
      TailStep(s, pos, ps);
      InterRevRoundTrip(s, PartEnd(pos, ps[0]), ps[1..], keep);
      ReadRevision(s, pos, ps[0], keep);
      ReadBackStep(ps[0], ps);
    } else {
      RestRoundTrip(s, pos, ps, keep);
    }
  }

  /** A suffix name followed by digits, a suffix, a revision or the end is read as itself. */
  lemma SuffixKindOf(s: string, pos: nat, kind: PartType)
    requires IsSuffix(kind) && StartsAt(s, pos, Prefix(kind))
    requires var c := pos + |Prefix(kind)|; c == |s| || IsDigit(s[c]) || s[c] == '_' || s[c] == '-'
    ensures s[pos] == '_' && SuffixKind(s, pos + 1) == kind
  {
    var w := Prefix(kind);
    forall i | 0 <= i < |w| ensures s[pos + i] == w[i] { assert s[pos..pos + |w|][i] == w[i]; }
    assert s[pos + 1..pos + |w|] == s[pos..pos + |w|][1..];
    assert s[pos + 0] == w[0] && s[pos + 1] == w[1];
    if StartsAt(s, pos + 1, "alpha") { assert s[pos + 1..pos + 6][0] == 'a'; }
    if StartsAt(s, pos + 1, "beta") { assert s[pos + 1..pos + 5][0] == 'b'; }
    if StartsAt(s, pos + 1, "rc") { assert s[pos + 1..pos + 3][0] == 'r'; }
    if StartsAt(s, pos + 1, "pre") { assert s[pos + 1..pos + 4][0] == 'p' && s[pos + 1..pos + 4][1] == s[pos + 2]; }
    if StartsAt(s, pos + 1, "p") { assert s[pos + 1..pos + 2][0] == 'p'; }
    if kind == PATCH { assert w[1..] == "p"; }
    if kind == PRE { assert w[1..] == "pre"; }
    if kind == RC { assert w[1..] == "rc"; }
    if kind == BETA { assert w[1..] == "beta"; }
    if kind == ALPHA { assert w[1..] == "alpha"; }
  }

  lemma ReadSuffix(s: string, pos: nat, p: BasicPart, keep: bool)
    requires IsSuffix(p.ptype) && Digits(p.content)
    requires PartAt(s, pos, p) && GoesOn(s, PartEnd(pos, p), false, false, true)
    ensures ParseSuffixes(s, pos, keep) == Prepend(p, ParseSuffixes(s, PartEnd(pos, p), keep))
    ensures s[pos] == '_'
  {
    hide SuffixKind, FindNotDigit;
    var c := pos + |Prefix(p.ptype)|;
    assert s[pos..c][0] == s[pos];
    var e := PartEnd(pos, p);
    assert s[pos..c] == Prefix(p.ptype) && s[c..e] == p.content;
    if p.content != [] { assert s[c..e][0] == s[c]; }
    SuffixKindOf(s, pos, p.ptype);
    RunExact(s, c, e);
    assert pos + 1 + NameLength(p.ptype) == c;
  }

  lemma {:induction false} SuffixesRoundTrip(s: string, pos: nat, ps: seq<BasicPart>, keep: bool)
    requires Tail(s, pos, ps) && SuffixGrammar(ps)
    ensures ParseSuffixes(s, pos, keep) == Parsed(ps, ParsedOK) && GoesOn(s, pos, false, false, true)
    decreases |ps|
  {
    if ps != [] && IsSuffix(ps[0].ptype) {
      TailStep(s, pos, ps);
      SuffixesRoundTrip(s, PartEnd(pos, ps[0]), ps[1..], keep);
      ReadSuffix(s, pos, ps[0], keep);
      ReadBackStep(ps[0], ps);
    } else {
      RevisionRoundTrip(s, pos, ps, keep);
    }
  }

  lemma ReadLetter(s: string, pos: nat, p: BasicPart, keep: bool)
    requires p.ptype == CHARACTER && |p.content| == 1 && IsAlpha(p.content[0]) && PartAt(s, pos, p)
    ensures ParseLetter(s, pos, keep) == Prepend(p, ParseSuffixes(s, PartEnd(pos, p), keep))
    ensures IsAlpha(s[pos])
  {
    assert s[pos..pos + 1] == [s[pos]];
  }

  lemma LetterRoundTrip(s: string, pos: nat, ps: seq<BasicPart>, keep: bool)
    requires Tail(s, pos, ps) && LetterGrammar(ps)
    ensures ParseLetter(s, pos, keep) == Parsed(ps, ParsedOK) && GoesOn(s, pos, false, true, true)
  {
    if ps != [] && ps[0].ptype == CHARACTER {
      TailStep(s, pos, ps);
      SuffixesRoundTrip(s, PartEnd(pos, ps[0]), ps[1..], keep);
      ReadLetter(s, pos, ps[0], keep);
      ReadBackStep(ps[0], ps);
    } else {
      SuffixesRoundTrip(s, pos, ps, keep);
    }
  }

  lemma ReadPrimary(s: string, pos: nat, p: BasicPart, keep: bool)
    requires p.ptype == PRIMARY && p.content != [] && Digits(p.content)
    requires PartAt(s, pos, p) && GoesOn(s, PartEnd(pos, p), true, true, true)
    ensures ParsePrimaries(s, pos, keep) == Prepend(p, ParsePrimaries(s, PartEnd(pos, p), keep))
    ensures s[pos] == '.'
  {
    var c := pos + |Prefix(p.ptype)|;
    assert s[pos..c][0] == s[pos];
    RunExact(s, c, c + |p.content|);
  }

  lemma {:induction false} PrimariesRoundTrip(s: string, pos: nat, ps: seq<BasicPart>, keep: bool)
    requires Tail(s, pos, ps) && PrimaryGrammar(ps)
    ensures ParsePrimaries(s, pos, keep) == Parsed(ps, ParsedOK) && GoesOn(s, pos, true, true, true)
    decreases |ps|
  {
    if ps != [] && ps[0].ptype == PRIMARY {
      TailStep(s, pos, ps);
      PrimariesRoundTrip(s, PartEnd(pos, ps[0]), ps[1..], keep);
      ReadPrimary(s, pos, ps[0], keep);
      ReadBackStep(ps[0], ps);
    } else {
      LetterRoundTrip(s, pos, ps, keep);
    }
  }

  /** parseVersion undoes getFull on every part list of the grammar. */
  lemma ParseOfFull(ps: seq<BasicPart>, keep: bool)
    requires VersionGrammar(ps)
    ensures Parse(FullText(ps), keep) == Parsed(ps, ParsedOK)
  {
    var s := FullText(ps);
    var e := |ps[0].content|;
    assert Tail(s, e, ps[1..]) && s[..e] == ps[0].content by {
      assert s[0..] == s;
      TailStep(s, 0, ps);
    }
    PrimariesRoundTrip(s, e, ps[1..], keep);
    RunExact(s, 0, e);
    ReadBackStep(ps[0], ps);
  }

  // ---- What parses is in the grammar, and is ordered ----

  lemma RevisionInGrammar(s: string, pos: nat, keep: bool)
    requires pos <= |s| && ParseRevision(s, pos, keep).result == ParsedOK
    ensures SuffixGrammar(ParseRevision(s, pos, keep).parts)
  {
  }

  lemma {:induction false} SuffixesInGrammar(s: string, pos: nat, keep: bool)
    requires pos <= |s| && ParseSuffixes(s, pos, keep).result == ParsedOK
    ensures SuffixGrammar(ParseSuffixes(s, pos, keep).parts)
    decreases |s| - pos
  {
    hide SuffixKind, ParseRevision, RevisionGrammar, Prefix;
    if pos < |s| && s[pos] == '_' {
      SuffixesInGrammar(s, FindNotDigit(s, pos + 1 + NameLength(SuffixKind(s, pos + 1))), keep);
    } else {
      RevisionInGrammar(s, pos, keep);
    }
  }

  lemma {:induction false} PrimariesInGrammar(s: string, pos: nat, keep: bool)
    requires pos <= |s| && ParsePrimaries(s, pos, keep).result == ParsedOK
    ensures PrimaryGrammar(ParsePrimaries(s, pos, keep).parts)
    decreases |s| - pos
  {
    if pos < |s| && s[pos] == '.' {
      PrimariesInGrammar(s, FindNotDigit(s, pos + 1), keep);
    } else {
      LetterInGrammar(s, pos, keep);
    }
  }

  lemma LetterInGrammar(s: string, pos: nat, keep: bool)
    requires pos <= |s| && ParseLetter(s, pos, keep).result == ParsedOK
    ensures LetterGrammar(ParseLetter(s, pos, keep).parts)
    ensures ParseLetter(s, pos, keep).parts != [] ==> ParseLetter(s, pos, keep).parts[0].ptype != PRIMARY
  {
    hide ParseSuffixes;
    if pos < |s| && IsAlpha(s[pos]) {
      SuffixesInGrammar(s, pos + 1, keep);
      var rest := ParseSuffixes(s, pos + 1, keep).parts;
      assert ([BasicPart(CHARACTER, [s[pos]])] + rest)[1..] == rest;
    } else {
      SuffixesInGrammar(s, pos, keep);
    }
  }

  lemma {:induction false} SuffixGrammarProper(ps: seq<BasicPart>)
    requires SuffixGrammar(ps)
    ensures AllProper(ps)
  {
    if ps != [] && IsSuffix(ps[0].ptype) {
      SuffixGrammarProper(ps[1..]);
    } else if ps != [] {
      assert |ps| == 2 ==> ps[1] == ps[1..][0];
    }
  }

  lemma {:induction false} PrimaryGrammarProper(ps: seq<BasicPart>)
    requires PrimaryGrammar(ps)
    ensures AllProper(ps)
  {
    if ps != [] && ps[0].ptype == PRIMARY {
      PrimaryGrammarProper(ps[1..]);
    } else if ps != [] && ps[0].ptype == CHARACTER {
      SuffixGrammarProper(ps[1..]);
    } else {
      SuffixGrammarProper(ps);
    }
  }

  lemma AcceptedInGrammar(s: string, keep: bool)
    requires Parse(s, keep).result == ParsedOK
    ensures var ps := Parse(s, keep).parts;
      VersionGrammar(ps) && FullText(ps) == s && AllProper(ps)
  {
    FullOfParse(s, keep);
    var e := FindNotDigit(s, 0);
    PrimariesInGrammar(s, e, keep);
    var tail := ParsePrimaries(s, e, keep).parts;
    PrimaryGrammarProper(tail);
    assert Parse(s, keep).parts[1..] == tail;
  }

  /** A string is accepted without garbage exactly if it is the text of a part list of
      the grammar, and then the list is unique. */
  lemma AcceptedExactlyGrammar(s: string, keep: bool)
    ensures Parse(s, keep).result == ParsedOK <==> exists ps :: VersionGrammar(ps) && FullText(ps) == s
    ensures forall ps :: VersionGrammar(ps) && FullText(ps) == s ==> Parse(s, keep) == Parsed(ps, ParsedOK)
  {
    forall ps | VersionGrammar(ps) && FullText(ps) == s
      ensures Parse(s, keep) == Parsed(ps, ParsedOK)
    {
      ParseOfFull(ps, keep);
    }
    if Parse(s, keep).result == ParsedOK {
      AcceptedInGrammar(s, keep);
    }
  }

  /** The order of the version strings that parse without garbage is a total preorder. */
  lemma ParsedVersionsAreOrdered(a: string, b: string, c: string)
    requires Parse(a, true).result == Parse(b, true).result == Parse(c, true).result == ParsedOK
    ensures var x, y, z := Parse(a, true).parts, Parse(b, true).parts, Parse(c, true).parts;
      && Compare(y, x) == -Compare(x, y)
      && (Compare(x, y) <= 0 && Compare(y, z) <= 0 ==> Compare(x, z) <= 0)
      && (Compare(x, y) == 0 && Compare(y, z) == 0 ==> Compare(x, z) == 0)
  {
    AcceptedInGrammar(a, true);
    AcceptedInGrammar(b, true);
    AcceptedInGrammar(c, true);
    PreorderOf(Parse(a, true).parts, Parse(b, true).parts, Parse(c, true).parts);
  }

  lemma PreorderOf(x: seq<BasicPart>, y: seq<BasicPart>, z: seq<BasicPart>)
    requires AllProper(x) && AllProper(y) && AllProper(z)
    ensures Compare(y, x) == -Compare(x, y)
    ensures Compare(x, y) <= 0 && Compare(y, z) <= 0 ==> Compare(x, z) <= 0
    ensures Compare(x, y) == 0 && Compare(y, z) == 0 ==> Compare(x, z) == 0
  {
    CompareIsPreorder(x, y, z);
    CompareIsPreorder(z, y, x);
    CompareIsPreorder(x, z, y);
  }

  // ---- What else is parsed ----

  lemma ShapeStep(p: BasicPart, rest: Parsed)
    requires Proper(p) && GarbageLast(rest.parts)
    ensures GarbageLast(Prepend(p, rest).parts)
  {
    hide Proper;
  }

  lemma RevisionShape(s: string, pos: nat, keep: bool)
    requires pos <= |s|
    ensures GarbageLast(ParseRevision(s, pos, keep).parts)
  {
  }

  lemma {:induction false} SuffixesShape(s: string, pos: nat, keep: bool)
    requires pos <= |s|
    ensures GarbageLast(ParseSuffixes(s, pos, keep).parts)
    decreases |s| - pos
  {
    hide SuffixKind, ParseRevision, GarbageLast;
    if pos < |s| && s[pos] == '_' {
      var kind := SuffixKind(s, pos + 1);
      if kind == GARBAGE {
        GarbageShape(s[pos..]);
      } else {
        var c := pos + 1 + NameLength(kind);
        var e := FindNotDigit(s, c);
        SuffixesShape(s, e, keep);
        ShapeStep(BasicPart(kind, s[c..e]), ParseSuffixes(s, e, keep));
      }
    } else {
      RevisionShape(s, pos, keep);
    }
  }

  lemma GarbageShape(s: string)
    ensures GarbageLast([BasicPart(GARBAGE, s)])
  {
  }

  lemma {:induction false} PrimariesShape(s: string, pos: nat, keep: bool)
    requires pos <= |s|
    ensures GarbageLast(ParsePrimaries(s, pos, keep).parts)
    decreases |s| - pos
  {
    hide ParseSuffixes, GarbageLast;
    if pos < |s| && s[pos] == '.' {
      var e := FindNotDigit(s, pos + 1);
      if e == pos + 1 {
        GarbageShape(s[pos + 1..]);
      } else {
        PrimariesShape(s, e, keep);
        ShapeStep(BasicPart(PRIMARY, s[pos + 1..e]), ParsePrimaries(s, e, keep));
      }
    } else if pos < |s| && IsAlpha(s[pos]) {
      SuffixesShape(s, pos + 1, keep);
      ShapeStep(BasicPart(CHARACTER, [s[pos]]), ParseSuffixes(s, pos + 1, keep));
    } else {
      SuffixesShape(s, pos, keep);
    }
  }

  /** Whatever is parsed, garbage is at most the last part. */
  lemma ParsedShape(s: string, keep: bool)
    ensures GarbageLast(Parse(s, keep).parts)
  {
    hide ParsePrimaries, GarbageLast;
    var e := FindNotDigit(s, 0);
    if e == 0 {
      GarbageShape(s);
    } else {
      PrimariesShape(s, e, keep);
      ShapeStep(BasicPart(FIRST, s[..e]), ParsePrimaries(s, e, keep));
    }
  }

  /** The order of any three texts breaks exactly at garbage of another length between two others. */
  lemma OrderOfTextsBreaksExactly(a: string, b: string, c: string)
    ensures var x, y, z := Parse(a, true).parts, Parse(b, true).parts, Parse(c, true).parts;
      Compare(x, y) <= 0 && Compare(y, z) <= 0 && Compare(x, z) > 0 <==> BreakOrder(x, y, z)
  {
    hide Parse, Compare, BreakOrder, GarbageLast;
    ParsedShape(a, true);
    ParsedShape(b, true);
    ParsedShape(c, true);
    OrderBreaksExactly(Parse(a, true).parts, Parse(b, true).parts, Parse(c, true).parts);
  }

  lemma OneAndGarbage(s: string)
    requires |s| > 1 && s[0] == '1' && !IsDigit(s[1]) && !IsAlpha(s[1]) && s[1] !in "._-"
    ensures Parse(s, true) == Parsed(OneWithGarbage(s[1..]), ParsedGarbage)
  {
    assert FindNotDigit(s, 0) == FindNotDigit(s, 1) == 1;
    assert !StartsAt(s, 1, "-r") by { if |s| > 2 { assert s[1..3][0] == s[1]; } }
    assert s[..1] == "1";
  }

  /** Three texts that are accepted with their garbage, and have no order. */
  lemma TextsWithoutOrder()
    ensures var x, y, z := Parse("1;", true), Parse("1::", true), Parse("1:", true);
      && x.result == y.result == z.result == ParsedGarbage
      && Compare(x.parts, y.parts) == 0 && Compare(y.parts, z.parts) == 0 && Compare(x.parts, z.parts) == 1
  {
    hide Parse, Compare, OneWithGarbage;
    OneAndGarbage("1;");
    OneAndGarbage("1::");
    OneAndGarbage("1:");
    assert "1;"[1..] == [';'] && "1::"[1..] == "::" && "1:"[1..] == [':'];
    GarbageBreaksOrder(';', ':', "::");
  }

  /** Two texts that compareTilde puts the wrong way round: a pre-release suffix makes a version older. */
  lemma TildeSignDiffers()
    ensures var x, y := Parse("1", true), Parse("1_alpha", true);
      && x == Parsed([BasicPart(FIRST, "1")], ParsedOK)
      && y == Parsed([BasicPart(FIRST, "1"), BasicPart(ALPHA, "")], ParsedOK)
      && StopsAtPrerelease(x.parts, y.parts) && Compare(x.parts, y.parts) == 1 && CompareTildeParts(x.parts, y.parts) == -1
  {
    var f, alpha := BasicPart(FIRST, "1"), BasicPart(ALPHA, "");
    assert Parse("1", true) == Parsed([f], ParsedOK) by {
      assert [f][1..] == [] && FullText([f]) == "1";
      ParseOfFull([f], true);
    }
    assert "1_alpha" + [] == "1_alpha";
    OneAlpha([]);
    StrAntisymmetric("1", "1");
    assert [f][1..] == [] && [f, alpha][1..] == [alpha];
    assert CompareParts([], [alpha], false) == 1 && CompareTildeParts([], [alpha]) == -1;
    assert StopsAtPrerelease([], [alpha]);
  }

  lemma OneAlpha(n: string)
    requires Digits(n)
    ensures Parse("1_alpha" + n, true) == Parsed([BasicPart(FIRST, "1"), BasicPart(ALPHA, n)], ParsedOK)
  {
    hide Parse;
    var f, alpha := BasicPart(FIRST, "1"), BasicPart(ALPHA, n);
    assert [f, alpha][1..] == [alpha] && [alpha][1..] == [];
    assert FullText([f, alpha]) == "1" + ("_alpha" + n) by { assert FullText([alpha]) == "_alpha" + n; }
    Regroup("1", "_alpha", n);
    assert "1" + "_alpha" == "1_alpha";
    ParseOfFull([f, alpha], true);
  }

  lemma OneAlphaIsFront(m: string, n: string)
    requires Digits(m) && Digits(n)
    ensures var x, y := [BasicPart(FIRST, "1"), BasicPart(ALPHA, m)], [BasicPart(FIRST, "1"), BasicPart(ALPHA, n)];
      && Compare(x, y) == PartCompare(x[1], y[1])
      && (IsFrontOf(y, x) <==> n == [] || PartCompare(x[1], y[1]) == 0)
  {
    hide PartCompare;
    var f, a, b := BasicPart(FIRST, "1"), BasicPart(ALPHA, m), BasicPart(ALPHA, n);
    var x, y := [f, a], [f, b];
    assert PartCompare(f, f) == 0 by { PartsCompareByKey(f, f); KeyAntisymmetric(PartKey(f), PartKey(f)); }
    assert x[1..] == [a] && y[1..] == [b] && [a][1..] == [b][1..] == [];
    assert CompareParts([], [], false) == 0;
    assert CompareParts([a], [b], false) == PartCompare(a, b);
    FrontByParts(x, y);
    assert FrontAt(y, x, 0);
    assert FrontAt(y, x, 1) <==> n == [] || PartCompare(a, b) == 0;
  }

  /** Two texts of equal versions, of which one is a front of a third and the other is none. */
  lemma EqualButNoFront()
    ensures var x, y, z := Parse("1_alpha2", true), Parse("1_alpha", true), Parse("1_alpha0", true);
      && x.result == y.result == z.result == ParsedOK && Compare(y.parts, z.parts) == 0
      && CompareParts(x.parts, y.parts, true) == 0 && CompareParts(x.parts, z.parts, true) == 1
  {
    hide Parse, Compare, CompareParts, IsFrontOf;
    assert "1_alpha" + "2" == "1_alpha2" && "1_alpha" + [] == "1_alpha" && "1_alpha" + "0" == "1_alpha0";
    OneAlpha("2");
    OneAlpha([]);
    OneAlpha("0");
    var x, y, z := Parse("1_alpha2", true).parts, Parse("1_alpha", true).parts, Parse("1_alpha0", true).parts;
    OneAlphaIsFront([], "0");
    OneAlphaIsFront("2", []);
    OneAlphaIsFront("2", "0");
    ShorterIsFront(x, y);
    ShorterIsFront(x, z);
  }
}
