/** What the delayed references of the configuration mean, from their text to their value. */
module DelayedLaws {
  import opened Strings
  import opened DelayedSyntax
  import opened DelayedTemplates
  import opened DelayedValues
  import opened DelayedResolver
  import opened DelayedTrees

  // ---- Conditions ----

  /** The values that count as false. */
  predicate Denies(v: string)
  {
    || v == "" || v[0] == 'n' || v[0] == 'N' || v[0] == 'f' || v[0] == 'F'
    || (|v| > 1 && (v[0] == 'o' || v[0] == 'O') && (v[1] == 'f' || v[1] == 'F'))
    || v == "0" || v == "-"
  }

  /** An error, or a text: which keys went into it does not matter here. */
  ghost predicate Same(a: Outcome, b: Outcome)
  {
    if b.Failed? then a == b else a.Value? && a.text == b.text
  }

  function Plainly(name: string): Ref { Ref(false, false, name, []) }

  lemma PrintConcat(a: seq<Piece>, b: seq<Piece>)
    ensures Print(a + b) == Print(a) + Print(b)
    decreases |a|
  {
    if a == [] {
      assert a + b == b;
    } else {
      assert (a + b)[1..] == a[1..] + b;
      PrintConcat(a[1..], b);
      Regroup(PrintPiece(a[0]), Print(a[1..]), Print(b));
    }
  }

  lemma PrintOne(p: Piece)
    ensures Print([p]) == PrintPiece(p)
  {
    assert [p][1..] == [];
  }

  /** The text of a condition. */
  lemma ConditionIsWritten(k: Kind, name: string, yes: Template, no: Template)
    requires k in {IfTrue, IfFalse, IfNonempty, IfEmpty}
    ensures var sign := if k == IfTrue then "?" else if k == IfFalse then "!" else if k == IfNonempty then "??" else "!?";
      Print(Flat(Cond(k, Plainly(name), yes, ElseBranch(no), End)))
      == "%{" + sign + name + "}" + (Print(Flat(yes)) + ("%{else}" + (Print(Flat(no)) + "%{}")))
  {
    hide Print;
    var y, n, w := Flat(yes), Flat(no), When(k, Plainly(name));
    var rest := [EndWhen] + [];
    assert rest == [EndWhen];
    PrintConcat([w], y + (([OrElse] + n) + rest));
    PrintConcat(y, ([OrElse] + n) + rest);
    PrintConcat([OrElse] + n, rest);
    PrintConcat([OrElse], n);
    PrintOne(w);
    PrintOne(OrElse);
    PrintOne(EndWhen);
    TestText(k, name);
    Regroup("%{else}", Print(n), "%{}");
  }

  lemma TestText(k: Kind, name: string)
    requires k in {IfTrue, IfFalse, IfNonempty, IfEmpty}
    ensures var sign := if k == IfTrue then "?" else if k == IfFalse then "!" else if k == IfNonempty then "??" else "!?";
      PrintPiece(When(k, Plainly(name))) == "%{" + sign + name + "}"
  {
  }

  lemma BranchIsTaken(c: Settings, m: Templates, key: string, k: Kind, name: string, yes: Template, no: Template, v: string)
    requires key in m && key !in c.prefixKeys && m[key] == Cond(k, Plainly(name), yes, ElseBranch(no), End)
    requires Render(c, m, {key}, name).Value? && Render(c, m, {key}, name).text == v
    ensures Same(Render(c, m, {}, key), RenderText(c, m, {key}, if Holds(k, v) then yes else no))
  {
    hide Holds;
    assert {} + {key} == {key};
    assert Transform(Plainly(name), v) == v;
    var b := RenderText(c, m, {key}, if Holds(k, v) then yes else no);
    if b.Value? { assert [] + (b.text + []) == b.text; }
    assert RenderText(c, m, {key}, End) == Value([], {});
  }

  /** `%{?NAME}yes%{else}no%{}`: the branch that is taken depends on the value of the name,
      as the four kinds of tests say. */
  lemma ConditionMeans(c: Settings, m: Templates, key: string, k: Kind, name: string, yes: Template, no: Template, v: string)
    requires AllScannable(m) && key in m && key !in c.prefixKeys
    requires k in {IfTrue, IfFalse, IfNonempty, IfEmpty} && m[key] == Cond(k, Plainly(name), yes, ElseBranch(no), End)
    requires Render(c, m, {key}, name).Value? && Render(c, m, {key}, name).text == v && NUL !in v
    ensures var o, y, n := Eval(c, FlatMap(m), {}, key), RenderText(c, m, {key}, yes), RenderText(c, m, {key}, no);
      && (k == IfTrue ==> Same(o, if Denies(v) then n else y))
      && (k == IfFalse ==> Same(o, if Denies(v) then y else n))
      && (k == IfNonempty ==> Same(o, if v == "" then n else y))
      && (k == IfEmpty ==> Same(o, if v == "" then y else n))
  {
    hide Render, RenderText, Eval, AllScannable;
    EvalIsRender(c, m, {}, key);
    BranchIsTaken(c, m, key, k, name, yes, no, v);
    TruthIs(v);
  }

  lemma TruthIs(v: string)
    requires NUL !in v
    ensures Holds(IfTrue, v) <==> !Denies(v)
    ensures Holds(IfFalse, v) <==> Denies(v)
  {
  }

  // ---- Variables ----

  /** A value that is a list of alternatives. */
  function Alternatives(vs: seq<string>): string
    requires vs != []
  {
    if |vs| == 1 then vs[0] else vs[0] + ("|" + Alternatives(vs[1..]))
  }

  function WithEach(vs: seq<string>, a: string): (r: seq<string>)
    ensures |r| == |vs| && forall i :: 0 <= i < |vs| ==> r[i] == vs[i] + a
  {
    seq(|vs|, i requires 0 <= i < |vs| => vs[i] + a)
  }

  lemma {:induction false} AppendOver(s: string, rest: string, a: string)
    requires '|' !in s
    ensures AppendEach(s + rest, a) == s + AppendEach(rest, a)
  {
    if s == [] {
      assert s + rest == rest;
    } else {
      assert (s + rest)[1..] == s[1..] + rest;
      AppendOver(s[1..], rest, a);
      assert s == [s[0]] + s[1..];
    }
  }

  /** The text behind a variable is put behind each of its alternatives. */
  lemma {:induction false} EachAlternative(vs: seq<string>, a: string)
    requires vs != [] && forall i :: 0 <= i < |vs| ==> '|' !in vs[i]
    ensures AppendEach(Alternatives(vs), a) == Alternatives(WithEach(vs, a))
    decreases |vs|
  {
    if |vs| == 1 {
      assert vs[0] + [] == vs[0];
      AppendOver(vs[0], [], a);
    } else {
      EachAlternative(vs[1..], a);
      assert WithEach(vs, a)[1..] == WithEach(vs[1..], a);
      var rest := Alternatives(vs[1..]);
      AppendOver(vs[0], "|" + rest, a);
      assert ("|" + rest)[1..] == rest;
      assert AppendEach("|" + rest, a) == a + "|" + AppendEach(rest, a);
      assert vs[0] + (a + "|" + AppendEach(rest, a)) == (vs[0] + a) + ("|" + AppendEach(rest, a));
    }
  }

  lemma VariableIsWritten(r: Ref)
    ensures Print(Flat(Var(r, End)))
      == "%{" + (if r.star then "*" else "") + (if r.escape then "\\" else "") + r.name + r.append + "}"
  {
    assert [Use(r)] + [] == [Use(r)];
    PrintOne(Use(r));
  }

  /** `%{*\NAME,text}`: the value, with its white space escaped, and the text behind each of its
      alternatives; with a star, the name gets the prefix of the program in front. */
  lemma VariableMeans(c: Settings, m: Templates, key: string, r: Ref, vs: seq<string>)
    requires AllScannable(m) && key in m && key !in c.prefixKeys && m[key] == Var(r, End)
    requires vs != [] && forall i :: 0 <= i < |vs| ==> '|' !in vs[i]
    requires var v := Render(c, m, {key}, (if r.star then c.varPrefix else "") + r.name);
      v.Value? && Alternatives(vs) == if r.escape then Escape(v.text, " \t\r\n") else v.text
    ensures var o := Eval(c, FlatMap(m), {}, key);
      o.Value? && o.text == Alternatives(if r.append == "" then vs else WithEach(vs, r.append))
  {
    hide Escape, AppendEach, AllScannable, Eval, Alternatives;
    EvalIsRender(c, m, {}, key);
    EachAlternative(vs, r.append);
    assert {} + {key} == {key};
    assert [] + r.name == r.name;
    assert RenderText(c, m, {key}, End) == Value([], {});
    var name := (if r.star then c.varPrefix else "") + r.name;
    assert name == NameOf(c, r);
    var t := Transform(r, Render(c, m, {key}, name).text);
    assert t + [] == t;
  }

  /** A name without a value is empty; "/" as a path prefix is none. */
  lemma PlainValues(c: Settings, m: Values, key: string, s: string)
    ensures key !in m ==> Eval(c, m, {}, key).Value? && Eval(c, m, {}, key).text == ""
    ensures key in m && m[key] == [Text(s)] ==>
      Eval(c, m, {}, key).Value? && Eval(c, m, {}, key).text == if s == "/" && key in c.prefixKeys then "" else s
  {
    if key in m && m[key] == [Text(s)] {
      assert [Text(s)][1..] == [] && [] + s == s;
      assert Expand(c, m, {} + {key}, key, s, []) == Value(Modify(c, key, s), {key});
    }
  }

  /** A mark without its condition, and a reference of a key to itself. */
  lemma StrayMarks(c: Settings, m: Values, key: string)
    requires key in m
    ensures m[key] == [EndWhen] ==> Print(m[key]) == "%{}" && Eval(c, m, {}, key) == Failed(FiWithoutIf, key)
    ensures m[key] == [OrElse] ==> Print(m[key]) == "%{else}" && Eval(c, m, {}, key) == Failed(ElseWithoutIf, key)
    ensures m[key] == [Use(Plainly(key))] ==> Print(m[key]) == "%{" + key + "}" && Eval(c, m, {}, key) == Failed(SelfReference, key)
  {
    PrintOne(EndWhen);
    PrintOne(OrElse);
    PrintOne(Use(Plainly(key)));
    assert PrintPiece(Use(Plainly(key))) == "%{" + key + "}";
    assert key in {} + {key};
    assert Eval(c, m, {} + {key}, key) == Failed(SelfReference, key);
  }

  lemma UnknownIsEmpty(c: Settings, m: Values, visited: set<string>, name: string)
    requires name !in m && name !in visited
    ensures Eval(c, m, visited, name).Value?
  {
  }

  /** A condition that is not closed, or has two `%{else}`. */
  lemma OpenConditions(c: Settings, m: Values, key: string)
    requires key in m && "no" !in m && key != "no"
    ensures m[key] == [When(IfTrue, Plainly("no"))] ==> Print(m[key]) == "%{?no}" && Eval(c, m, {}, key) == Failed(IfWithoutFi, key)
    ensures m[key] == [When(IfTrue, Plainly("no")), OrElse, OrElse, EndWhen] ==>
      Print(m[key]) == "%{?no}%{else}%{else}%{}" && Eval(c, m, {}, key) == Failed(DoubleElse, key)
  {
    hide Choose, Print;
    var w := When(IfTrue, Plainly("no"));
    UnknownIsEmpty(c, m, {} + {key}, "no");
    PrintOne(w);
    TestText(IfTrue, "no");
    assert [w][1..] == [] && [w, OrElse, OrElse, EndWhen][1..] == [OrElse, OrElse, EndWhen];
    assert "%{" + "?" + "no" + "}" == "%{?no}";
    TwoElses(w);
  }

  lemma TwoElses(w: Piece)
    requires PrintPiece(w) == "%{?no}"
    ensures Print([w, OrElse, OrElse, EndWhen]) == "%{?no}%{else}%{else}%{}"
    ensures forall keep: bool :: Choose([], keep, 0, false) == Bad(IfWithoutFi)
    ensures forall keep: bool :: Choose([OrElse, OrElse, EndWhen], keep, 0, false) == Bad(DoubleElse)
  {
    hide PrintPiece;
    var rest := [OrElse, OrElse, EndWhen];
    assert [w, OrElse, OrElse, EndWhen][1..] == rest && rest[1..] == [OrElse, EndWhen] && rest[1..][1..] == [EndWhen];
    PrintOne(EndWhen);
    MarkTexts();
    assert Print(rest[1..]) == "%{else}" + "%{}";
    forall keep: bool ensures Choose(rest, keep, 0, false) == Bad(DoubleElse) {
      assert Choose(rest[1..], !keep, 0, true) == Bad(DoubleElse);
    }
  }

  lemma MarkTexts()
    ensures PrintPiece(OrElse) == "%{else}" && PrintPiece(EndWhen) == "%{}"
  {
  }

  // ---- Tags ----

  lemma TagStands(s: string, p: nat, kind: Kind, length: nat, ref: Ref)
    requires p + 2 <= |s| && s[p] == '%' && s[p + 1] == '{' && (forall k :: 0 <= k < p ==> s[k] != '%')
    requires TagAt(s, p) == Tag(kind, length, ref)
    ensures FindNext(s, 0) == Hit(kind, p, length, ref)
  {
    hide TagAt;
    OpenStands(s, 0, p);
  }

  lemma {:induction false} OpenStands(s: string, pos: nat, p: nat)
    requires pos <= p && p + 2 <= |s| && s[p] == '%' && s[p + 1] == '{' && forall k :: pos <= k < p ==> s[k] != '%'
    ensures FindOpen(s, pos) == p
    decreases p - pos
  {
    if pos < p { OpenStands(s, pos + 1, p); }
  }

  lemma {:induction false} NothingOpens(s: string, pos: nat)
    requires pos <= |s| && forall k :: pos <= k < |s| ==> s[k] != '%'
    ensures FindOpen(s, pos) == |s|
    decreases |s| - pos
  {
    if pos < |s| { NothingOpens(s, pos + 1); }
  }

  /** Which characters a name may have. */
  lemma NameCharacters(c: char)
    ensures var s := "%{" + [c] + "}";
      ('a' <= c <= 'z' || 'A' <= c <= 'Z' || '0' <= c <= '9' || c == '_' ==>
         FindNext(s, 0) == Hit(Variable, 0, 4, Ref(false, false, [c], [])))
    ensures var s := "%{" + [c] + "}";
      !('a' <= c <= 'z' || 'A' <= c <= 'Z' || '0' <= c <= '9' || c == '_' || c in "}%?!*\\") ==> FindNext(s, 0) == NotFound
  {
    hide FindNext, FindOpen;
    var s := "%{" + [c] + "}";
    assert s[2] == c && s[3] == '}' && s[2..3] == [c] && s[2..2] == [];
    if 'a' <= c <= 'z' || 'A' <= c <= 'Z' || '0' <= c <= '9' || c == '_' {
      assert HeadEnd(s, 2) == 2;
      assert NameEnd(s, 3) == 3 && NameEnd(s, 2) == 3;
      assert !CaseEqual([c], "else");
      TagStands(s, 0, Variable, 4, Ref(false, false, [c], []));
    } else if c !in "}%?!*\\" {
      NoName(s, c);
    }
  }

  lemma NoName(s: string, c: char)
    requires s == "%{" + [c] + "}" && !IsNameChar(c) && c !in "}%?!*\\"
    ensures FindNext(s, 0) == NotFound
  {
    hide FindOpen;
    assert s[2] == c && s[3] == '}' && s[2..3] == [c];
    assert HeadEnd(s, 2) == 2 && NameEnd(s, 2) == 2;
    assert FindFirstOf(s, "}", 3) == 3;
    assert !CaseEqual([c], "else") && !CaseEqual(s[2..2], "else");
    assert TagAt(s, 0) == NoTag;
    OpenStands(s, 0, 0);
    NothingOpens(s, 2);
  }

  /** Head signs come in any order, and an else in any case. */
  lemma HeadsInAnyOrder()
    ensures FindNext("%{\\*x}", 0) == Hit(Variable, 0, 6, Ref(true, true, "x", []))
    ensures FindNext("%{*\\x}", 0) == Hit(Variable, 0, 6, Ref(true, true, "x", []))
  {
    hide FindNext;
    TwoHeads("%{\\*x}");
    TwoHeads("%{*\\x}");
    TagStands("%{\\*x}", 0, Variable, 6, Ref(true, true, "x", []));
    TagStands("%{*\\x}", 0, Variable, 6, Ref(true, true, "x", []));
  }

  lemma TwoHeads(s: string)
    requires |s| == 6 && s[0] == '%' && s[1] == '{' && s[4] == 'x' && s[5] == '}'
    requires (s[2] == '*' && s[3] == '\\') || (s[2] == '\\' && s[3] == '*')
    ensures TagAt(s, 0) == Tag(Variable, 6, Ref(true, true, "x", []))
  {
    assert HeadEnd(s, 4) == 4 && HeadEnd(s, 3) == 4 && HeadEnd(s, 2) == 4;
    assert NameEnd(s, 5) == 5 && NameEnd(s, 4) == 5;
    assert s[2..4] == [s[2], s[3]] && s[4..5] == "x" && s[5..5] == [] && s[2..5] == [s[2], s[3], 'x'];
    assert !CaseEqual(s[2..5], "else");
  }

  lemma ElseInAnyCase()
    ensures FindNext("%{ELSE}", 0) == Hit(Else, 0, 7, NO_REF) && FindNext("%{%}", 0) == Hit(Quote, 0, 3, NO_REF)
  {
    hide FindNext;
    var s := "%{ELSE}";
    assert HeadEnd(s, 2) == 2;
    assert NameEnd(s, 6) == 6 && NameEnd(s, 5) == 6 && NameEnd(s, 4) == 6 && NameEnd(s, 3) == 6 && NameEnd(s, 2) == 6;
    assert s[2..6] == "ELSE";
    assert "ELSE"[1..] == "LSE" && "LSE"[1..] == "SE" && "SE"[1..] == "E" && "E"[1..] == "";
    assert "else"[1..] == "lse" && "lse"[1..] == "se" && "se"[1..] == "e" && "e"[1..] == "";
    assert CaseEqual("", "") && CaseEqual("E", "e") && CaseEqual("SE", "se") && CaseEqual("LSE", "lse");
    assert CaseEqual("ELSE", "else");
    TagStands(s, 0, Else, 7, NO_REF);
    TagStands("%{%}", 0, Quote, 3, NO_REF);
  }

  // ---- Which keys are fetched ----

  /** The references of a list of pieces that bring in their keys. */
  function Fetched(ps: seq<Piece>): seq<Ref>
  {
    if ps == [] then []
    else
      match ps[0]
      case Use(r) => [r] + Fetched(ps[1..])
      case When(k, r) => (if k == IfTrue || k == IfFalse then [r] else []) + Fetched(ps[1..])
      case _ => Fetched(ps[1..])
  }

  lemma {:induction false} FetchedOfTagged(ps: seq<Piece>)
    ensures Fetched(Tagged(ps)) == Fetched(ps)
  {
    if ps != [] && ps[0].Text? { FetchedOfTagged(ps[1..]); }
  }

  lemma {:induction false} JoinsIn(pre: string, ps: seq<Piece>)
    requires Proper(ps)
    ensures Joins(pre + Print(ps), |pre|) == Fetched(ps)
    decreases |ps|
  {
    hide FindNext, Print, PrintPiece, ProperRef, CaseEqual, Plain;
    var s := pre + Print(ps);
    assert pre + [] + Print(ps) == s;
    EmptyIsPlain();
    FindInPrint(pre, [], ps, |pre|);
    FetchedOfTagged(ps);
    var t := Tagged(ps);
    if t != [] {
      PrintLead(ps);
      PrintHead(t);
      var next := pre + Lead(ps) + PrintPiece(t[0]);
      assert s == next + Print(t[1..]);
      JoinsIn(next, t[1..]);
      assert |next| == |pre| + |Lead(ps)| + |PrintPiece(t[0])|;
    }
  }

  lemma PrintHead(t: seq<Piece>)
    requires t != []
    ensures Print(t) == PrintPiece(t[0]) + Print(t[1..])
  {
  }

  /** Variables and plain tests bring in their keys, tests for emptiness do not; with a star
      every program has its own. */
  lemma JoinsMean(ps: seq<Piece>, r: Ref)
    requires Proper(ps)
    ensures Joins(Print(ps), 0) == Fetched(ps)
    ensures !r.star ==> NamesOf(r) == [r.name]
    ensures r.star ==> NamesOf(r) == ["EIX_" + r.name, "DIFF_" + r.name, "UPDATE_" + r.name, "DROP_" + r.name]
  {
    assert [] + Print(ps) == Print(ps);
    JoinsIn([], ps);
  }

  /** A value in a file comes before the environment; both are read as path prefixes are. */
  lemma SourcesMean(c: Settings, src: Sources, key: string)
    ensures key in src.file && (key !in c.prefixKeys || src.file[key] != "/") ==> Lookup(c, src, key) == src.file[key]
    ensures key !in src.file && key in src.env && (key !in c.prefixKeys || src.env[key] != "/") ==> Lookup(c, src, key) == src.env[key]
    ensures key !in src.file && key !in src.env ==> Lookup(c, src, key) == ""
  {
  }
}
