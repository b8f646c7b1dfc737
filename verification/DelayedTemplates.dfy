/** Configuration values as lists of pieces, and how the scanner sees their text. */
module DelayedTemplates {
  import opened Strings
  import opened DelayedSyntax
  import N = NumberCodec

  /** A piece of a value: text, a variable, or one of the three marks of a condition. The
      marks may come in any order. */
  datatype Piece = Text(s: string) | Use(ref: Ref) | When(kind: Kind, ref: Ref) | OrElse | EndWhen

  function Heads(r: Ref): string { (if r.star then "*" else "") + (if r.escape then "\\" else "") }

  function Prefix(k: Kind): string
  {
    if k == IfTrue then "?" else if k == IfFalse then "!" else if k == IfNonempty then "??"
    else if k == IfEmpty then "!?" else ""
  }

  function PrintRef(k: Kind, r: Ref): string
  {
    "%{" + (Prefix(k) + (Heads(r) + (r.name + (r.append + "}"))))
  }

  function PrintPiece(p: Piece): string
  {
    match p
    case Text(s) => s
    case Use(r) => PrintRef(Variable, r)
    case When(k, r) => PrintRef(k, r)
    case OrElse => "%{else}"
    case EndWhen => "%{}"
  }

  function Print(ps: seq<Piece>): string
  {
    if ps == [] then [] else PrintPiece(ps[0]) + Print(ps[1..])
  }

  /** Text that cannot open a tag, not even with what follows. */
  predicate Plain(s: string)
  {
    (forall i :: 0 <= i < |s| - 1 ==> !(s[i] == '%' && s[i + 1] == '{')) && (s != [] ==> s[|s| - 1] != '%')
  }

  predicate ProperRef(r: Ref)
  {
    && r.name != [] && (forall i :: 0 <= i < |r.name| ==> IsNameChar(r.name[i]))
    && (r.append != [] ==> r.append[0] in ",;" && '}' !in r.append && Plain(r.append))
  }

  predicate ProperPiece(p: Piece)
  {
    match p
    case Text(s) => Plain(s)
    case Use(r) => ProperRef(r) && !CaseEqual(Heads(r) + (r.name + r.append), "else")
    case When(k, r) => k in {IfTrue, IfFalse, IfNonempty, IfEmpty} && ProperRef(r) && r.append == []
    case _ => true
  }

  predicate Proper(ps: seq<Piece>) { forall i :: 0 <= i < |ps| ==> ProperPiece(ps[i]) }

  // ---- Tags ----

  lemma {:induction false} HeadEndIs(s: string, pos: nat, v: nat)
    requires pos <= v <= |s| && (forall k :: pos <= k < v ==> IsHead(s[k])) && (v < |s| ==> !IsHead(s[v]))
    ensures HeadEnd(s, pos) == v
    decreases v - pos
  {
    if pos < v { HeadEndIs(s, pos + 1, v); }
  }

  lemma {:induction false} NameEndIs(s: string, pos: nat, n: nat)
    requires pos <= n <= |s| && (forall k :: pos <= k < n ==> IsNameChar(s[k])) && (n < |s| ==> !IsNameChar(s[n]))
    ensures NameEnd(s, pos) == n
    decreases n - pos
  {
    if pos < n { NameEndIs(s, pos + 1, n); }
  }

  /** Where the fields of a reference stand. */
  ghost predicate RefLayout(s: string, start: nat, r: Ref)
  {
    var v := start + |Heads(r)|;
    var n := v + |r.name|;
    var close := n + |r.append|;
    close < |s| && s[close] == '}' && s[start..v] == Heads(r) && s[v..n] == r.name && s[n..close] == r.append
  }

  lemma LayoutOfRef(s: string, p: nat, k: Kind, r: Ref)
    requires N.At(s, p, PrintRef(k, r))
    ensures p + 2 + |Prefix(k)| < |s| && RefLayout(s, p + 2 + |Prefix(k)|, r)
    ensures s[p..p + 2] == "%{" && s[p + 2..p + 2 + |Prefix(k)|] == Prefix(k)
    ensures |PrintRef(k, r)| == 3 + |Prefix(k)| + |Heads(r)| + |r.name| + |r.append|
  {
    hide Prefix, Heads, N.At;
    var q := p + 2;
    N.AtPiece(s, p, "%{", Prefix(k) + (Heads(r) + (r.name + (r.append + "}"))));
    N.AtPiece(s, q, Prefix(k), Heads(r) + (r.name + (r.append + "}")));
    q := q + |Prefix(k)|;
    N.AtPiece(s, q, Heads(r), r.name + (r.append + "}"));
    q := q + |Heads(r)|;
    N.AtPiece(s, q, r.name, r.append + "}");
    q := q + |r.name|;
    N.AtPiece(s, q, r.append, "}");
    N.AtIndex(s, q + |r.append|, "}", 0);
  }

  lemma LayoutEnds(s: string, start: nat, r: Ref)
    requires start <= |s| && RefLayout(s, start, r) && ProperRef(r)
    ensures var v := start + |Heads(r)|;
      var n := v + |r.name|;
      && v < n < |s| && HeadEnd(s, start) == v && NameEnd(s, v) == n
      && s[n] == (if r.append == [] then '}' else r.append[0])
      && (r.append != [] ==> FindFirstOf(s, "}", n + 1) == n + |r.append|)
  {
    hide Plain, Heads;
    var v := start + |Heads(r)|;
    var n := v + |r.name|;
    var close := n + |r.append|;
    HeadsAreHeads(r);
    forall i | start <= i < v ensures IsHead(s[i]) { assert s[i] == s[start..v][i - start]; }
    forall i | v <= i < n ensures IsNameChar(s[i]) { assert s[i] == s[v..n][i - v]; }
    HeadEndIs(s, start, v);
    if r.append != [] {
      assert s[n] == s[n..close][0];
      forall i | n <= i < close ensures s[i] != '}' { assert s[i] == s[n..close][i - n] && s[i] in r.append; }
      FindFirstIs(s, "}", n + 1, close);
    }
    NameEndIs(s, v, n);
  }

  lemma HeadsAreHeads(r: Ref)
    ensures forall i :: 0 <= i < |Heads(r)| ==> IsHead(Heads(r)[i])
  {
  }

  lemma NameAtLayout(s: string, p: nat, k: Kind, start: nat, r: Ref)
    requires p + 2 <= start < |s| && RefLayout(s, start, r) && ProperRef(r) && (k != Variable ==> r.append == [])
    ensures var close := start + |Heads(r)| + |r.name| + |r.append|;
      NameAt(s, p, k, start) == if CaseEqual(s[p + 2..close], "else") then Tag(Else, close + 1 - p, NO_REF) else Tag(k, close + 1 - p, r)
  {
    hide CaseEqual, Plain, Heads, HeadEnd, NameEnd, FindFirstOf;
    LayoutEnds(s, start, r);
    HeadsBelong(r);
  }

  lemma HeadsBelong(r: Ref)
    ensures r.star == ('*' in Heads(r)) && r.escape == ('\\' in Heads(r))
  {
    if r.star { assert Heads(r)[0] == '*'; }
    if r.escape { assert Heads(r)[|Heads(r)| - 1] == '\\'; }
  }

  lemma FirstOfRef(s: string, start: nat, r: Ref)
    requires RefLayout(s, start, r) && ProperRef(r)
    ensures s[start] !in "?!}%"
  {
    var v := start + |Heads(r)|;
    if Heads(r) != [] { assert s[start] == s[start..v][0]; } else { assert s[start] == s[v..v + |r.name|][0]; }
  }

  lemma UseTag(s: string, p: nat, r: Ref)
    requires ProperPiece(Use(r)) && N.At(s, p, PrintRef(Variable, r))
    ensures TagAt(s, p) == Tag(Variable, |PrintRef(Variable, r)|, r)
  {
    hide NameAt, CaseEqual, Plain, Heads;
    LayoutOfRef(s, p, Variable, r);
    var start := p + 2;
    FirstOfRef(s, start, r);
    var v, n := start + |Heads(r)|, start + |Heads(r)| + |r.name|;
    var close := n + |r.append|;
    NameAtLayout(s, p, Variable, start, r);
    assert s[start..close] == s[start..v] + (s[v..n] + s[n..close]);
  }

  lemma WhenTag(s: string, p: nat, k: Kind, r: Ref)
    requires ProperPiece(When(k, r)) && N.At(s, p, PrintRef(k, r))
    ensures TagAt(s, p) == Tag(k, |PrintRef(k, r)|, r)
  {
    hide NameAt, Plain;
    LayoutOfRef(s, p, k, r);
    var pre := |Prefix(k)|;
    var start := p + 2 + pre;
    NameAtLayout(s, p, k, start, r);
    assert s[p + 2] == s[p + 2..start][0];
    if pre == 2 { assert s[p + 3] == s[p + 2..start][1]; }
    FirstOfRef(s, start, r);
    var close := start + |Heads(r)| + |r.name| + |r.append|;
    assert s[p + 2..close][0] == s[p + 2];
  }

  lemma MarkTag(s: string, p: nat)
    requires p + 2 <= |s| && s[p] == '%' && s[p + 1] == '{'
    ensures N.At(s, p, "%{}") ==> TagAt(s, p) == Tag(Fi, 3, NO_REF)
    ensures N.At(s, p, "%{else}") ==> TagAt(s, p) == Tag(Else, 7, NO_REF)
  {
    if N.At(s, p, "%{}") { N.AtIndex(s, p, "%{}", 2); }
    if N.At(s, p, "%{else}") {
      ElseTag(s, p);
    }
  }

  lemma ElseTag(s: string, p: nat)
    requires N.At(s, p, "%{else}")
    ensures TagAt(s, p) == Tag(Else, 7, NO_REF)
  {
    hide Plain;
    var r := Ref(false, false, "else", []);
    assert PrintRef(Variable, r) == "%{else}";
    LayoutOfRef(s, p, Variable, r);
    NameAtLayout(s, p, Variable, p + 2, r);
    assert s[p + 2..p + 6][0] == s[p + 2];
    ElseIsElse();
  }

  lemma ElseIsElse()
    ensures CaseEqual("else", "else")
  {
    assert "else"[1..] == "lse" && "lse"[1..] == "se" && "se"[1..] == "e" && "e"[1..] == "";
    assert CaseEqual("", "") && CaseEqual("e", "e") && CaseEqual("se", "se") && CaseEqual("lse", "lse");
  }

  // ---- The scanner on a printed list ----

  lemma PlainSum(a: string, b: string)
    requires Plain(a) && Plain(b)
    ensures Plain(a + b)
  {
    var r := a + b;
    forall i | 0 <= i < |r| - 1 ensures !(r[i] == '%' && r[i + 1] == '{') {
      if i + 1 < |a| {
        assert r[i] == a[i] && r[i + 1] == a[i + 1];
      } else if i >= |a| {
        assert r[i] == b[i - |a|] && r[i + 1] == b[i + 1 - |a|];
      }
    }
  }

  lemma {:induction false} OpenAfterPlain(pre: string, a: string, b: string, pos: nat)
    requires Plain(a) && |pre| <= pos <= |pre| + |a| && (b != [] ==> |b| >= 2 && b[0] == '%' && b[1] == '{')
    ensures FindOpen(pre + a + b, pos) == |pre| + |a|
    decreases |pre| + |a| - pos
  {
    var s := pre + a + b;
    if pos < |pre| + |a| {
      assert s[pos] == a[pos - |pre|];
      if pos + 1 < |pre| + |a| { assert s[pos + 1] == a[pos + 1 - |pre|]; }
      OpenAfterPlain(pre, a, b, pos + 1);
    } else if b != [] {
      assert s[pos] == b[0] && s[pos + 1] == b[1];
    }
  }

  /** The text before the first tag, and the pieces from there on. */
  function Lead(ps: seq<Piece>): string
  {
    if ps != [] && ps[0].Text? then ps[0].s + Lead(ps[1..]) else []
  }

  function Tagged(ps: seq<Piece>): (r: seq<Piece>)
    ensures |r| <= |ps| && (r != [] ==> !r[0].Text?)
    ensures Proper(ps) ==> Proper(r)
  {
    if ps != [] && ps[0].Text? then Tagged(ps[1..]) else ps
  }

  lemma {:induction false} PrintLead(ps: seq<Piece>)
    requires Proper(ps)
    ensures Print(ps) == Lead(ps) + Print(Tagged(ps)) && Plain(Lead(ps))
  {
    hide Plain;
    if ps != [] && ps[0].Text? {
      PrintLead(ps[1..]);
      PlainSum(ps[0].s, Lead(ps[1..]));
      Regroup(ps[0].s, Lead(ps[1..]), Print(Tagged(ps)));
    } else {
      EmptyIsPlain();
      assert [] + Print(ps) == Print(ps);
    }
  }

  lemma EmptyIsPlain()
    ensures Plain([])
  {
  }

  function KindOf(p: Piece): Kind
    requires !p.Text?
  {
    match p case Use(_) => Variable case When(k, _) => k case OrElse => Else case EndWhen => Fi
  }

  function RefOf(p: Piece): Ref
    requires !p.Text?
  {
    match p case Use(r) => r case When(_, r) => r case _ => NO_REF
  }

  lemma PieceTag(s: string, p: nat, piece: Piece)
    requires ProperPiece(piece) && !piece.Text? && N.At(s, p, PrintPiece(piece))
    ensures p + 2 <= |s| && s[p] == '%' && s[p + 1] == '{'
    ensures TagAt(s, p) == Tag(KindOf(piece), |PrintPiece(piece)|, RefOf(piece))
  {
    hide TagAt, ProperRef;
    var t := PrintPiece(piece);
    assert |t| >= 3 && t[0] == '%' && t[1] == '{';
    N.AtIndex(s, p, t, 0);
    N.AtIndex(s, p, t, 1);
    match piece
    case Use(r) => UseTag(s, p, r);
    case When(k, r) => WhenTag(s, p, k, r);
    case OrElse => MarkTag(s, p);
    case EndWhen => MarkTag(s, p);
  }

  /** From anywhere in plain text, whatever stands before, the scanner finds exactly the
      first tag of the list behind it. */
  lemma FindInPrint(pre: string, plain: string, ps: seq<Piece>, pos: nat)
    requires Plain(plain) && Proper(ps) && |pre| <= pos <= |pre| + |plain|
    ensures var t := Tagged(ps);
      FindNext(pre + plain + Print(ps), pos) ==
        if t == [] then NotFound else Hit(KindOf(t[0]), |pre| + |plain| + |Lead(ps)|, |PrintPiece(t[0])|, RefOf(t[0]))
  {
    hide Plain, TagAt, ProperPiece, PrintPiece, Print;
    PrintLead(ps);
    var t := Tagged(ps);
    var a := plain + Lead(ps);
    PlainSum(plain, Lead(ps));
    var s := pre + a + Print(t);
    assert s == pre + plain + (Lead(ps) + Print(t));
    if t == [] {
      PrintNone();
      OpenAfterPlain(pre, a, Print(t), pos);
    } else {
      PrintStarts(pre + a, t);
      PieceTag(s, |pre + a|, t[0]);
      OpenAfterPlain(pre, a, Print(t), pos);
    }
  }

  lemma PrintNone()
    ensures Print([]) == []
  {
  }

  lemma PrintStarts(a: string, t: seq<Piece>)
    requires t != [] && !t[0].Text?
    ensures N.At(a + Print(t), |a|, PrintPiece(t[0]))
    ensures |Print(t)| >= 2 && Print(t)[0] == '%' && Print(t)[1] == '{'
  {
    hide PrintPiece;
    var u, s := PrintPiece(t[0]), a + Print(t);
    assert s == a + u + Print(t[1..]);
    assert s[|a|..|a| + |u|] == u;
    PieceStarts(t[0]);
  }

  lemma PieceStarts(p: Piece)
    requires !p.Text?
    ensures |PrintPiece(p)| >= 3 && PrintPiece(p)[0] == '%' && PrintPiece(p)[1] == '{'
  {
    hide Prefix, Heads;
  }
}
