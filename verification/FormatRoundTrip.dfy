/** The parser of output formats undoes writing down its nodes. */
module FormatRoundTrip {
  import opened Strings
  import opened FormatParsing
  import opened NumberCodec
  import opened Wrappers

  // ---- Writing nodes down ----

  const TEXT_STOPS := "<{("
  const DOUBLE_STOPS := "\""
  const PROPERTY_STOPS := ">(" + WHITE
  const PLAIN_STOPS := "}(" + WHITE

  function PrintRhs(h: Head): string
  {
    match h.rhs
    case RhsString => "\"" + (Escape(h.text, DOUBLE_STOPS) + "\"")
    case RhsProperty => "<" + (Escape(h.text, PROPERTY_STOPS) + ">")
    case RhsVar => "$" + Escape(h.text, PLAIN_STOPS)
  }

  function Marks(h: Head): string
  {
    (if h.negation then "!" else "") + (if h.isSet then "*" else if h.user then "$" else "")
  }

  function PrintHead(h: Head): string
  {
    "{" + (Marks(h) + (h.variable + ("=" + (PrintRhs(h) + "}"))))
  }

  function PrintNode(n: Node): string
    decreases n, 0
  {
    match n
    case Text(s) => Escape(s, TEXT_STOPS)
    case Property(name, user) => "<" + ((if user then "$" + name else name) + ">")
    case Block(h, _, yes, no) =>
      if h.isSet then PrintHead(h)
      else PrintHead(h) + (PrintNodes(yes) + ((if no == [] then [] else "{else}" + PrintNodes(no)) + "{}"))
  }

  function PrintNodes(ns: seq<Node>): string
    decreases ns, 1
  {
    if ns == [] then [] else PrintNode(ns[0]) + PrintNodes(ns[1..])
  }

  // ---- Which nodes can be written down ----

  predicate ProperHead(h: Head)
  {
    && h.variable != [] && (forall i :: 0 <= i < |h.variable| ==> h.variable[i] !in "}=" && h.variable[i] !in WHITE)
    && (h.isSet ==> h.user)
    && (!h.user ==> h.variable[0] !in "*$" && (!h.negation ==> h.variable[0] != '!'))
  }

  predicate ProperNode(n: Node)
    decreases n, 0
  {
    match n
    case Text(s) => s != []
    case Property(name, user) =>
      '>' !in name && (name != [] ==> if user then name[0] !in WHITE else name[0] != '$')
    case Block(h, final, yes, no) =>
      ProperHead(h) && (if h.isSet then !final && yes == [] && no == [] else final && Proper(yes) && Proper(no))
  }

  /** Nonempty texts, and no two of them in a row. */
  predicate Proper(ns: seq<Node>)
    decreases ns, 1
  {
    ns == [] || (ProperNode(ns[0]) && Proper(ns[1..]) && (|ns| > 1 ==> !(ns[0].Text? && ns[1].Text?)))
  }

  /** What the parser builds: an empty branch before `{else}` becomes an empty text. */
  function Canon(n: Node): Node
    decreases n, 0
  {
    match n
    case Block(h, final, yes, no) =>
      Block(h, final, if yes == [] && no != [] then [Text([])] else CanonAll(yes), CanonAll(no))
    case _ => n
  }

  function CanonAll(ns: seq<Node>): (r: seq<Node>)
    decreases ns, 1
  {
    if ns == [] then [] else [Canon(ns[0])] + CanonAll(ns[1..])
  }

  // ---- Texts ----

  /** Characters that stand for themselves behind a backslash. */
  ghost predicate SelfEscaping(at: string)
  {
    forall c :: c in at || c == '\\' ==> GetEscape(c) == c && c != 'C'
  }

  lemma StopsEscape()
    ensures SelfEscaping(TEXT_STOPS) && SelfEscaping(DOUBLE_STOPS) && SelfEscaping(PROPERTY_STOPS) && SelfEscaping(PLAIN_STOPS)
  {
  }

  /** An escaped character is one piece of the text. */
  lemma PieceOfEscaped(s: string, pos: nat, c: char, at: string)
    requires At(s, pos, EscapeChar(c, at)) && SelfEscaping(at)
    ensures pos < |s| && TextPiece(s, pos) == ([c], pos + |EscapeChar(c, at)|)
    ensures s[pos] == if c in at then '\\' else c
    ensures s[pos] == '\\' ==> pos + 1 < |s|
  {
    AtIndex(s, pos, EscapeChar(c, at), 0);
    if c in at || c == '\\' { AtIndex(s, pos, EscapeChar(c, at), 1); }
  }

  lemma {:induction false} TextOfEscaped(s: string, pos: nat, text: string)
    requires At(s, pos, Escape(text, TEXT_STOPS))
    requires var end := pos + |Escape(text, TEXT_STOPS)|; end < |s| ==> s[end] in TEXT_STOPS
    ensures TextAt(s, pos, TEXT_STOPS) == (text, pos + |Escape(text, TEXT_STOPS)|) && !TextOverruns(s, pos, TEXT_STOPS)
    decreases |text|
  {
    hide TextPiece, At, SelfEscaping;
    AtBound(s, pos, Escape(text, TEXT_STOPS));
    if text != [] {
      StopsEscape();
      var u, rest := EscapeChar(text[0], TEXT_STOPS), Escape(text[1..], TEXT_STOPS);
      AtPiece(s, pos, u, rest);
      PieceOfEscaped(s, pos, text[0], TEXT_STOPS);
      TextOfEscaped(s, pos + |u|, text[1..]);
      assert text == [text[0]] + text[1..];
    }
  }

  lemma {:induction false} RhsOfEscaped(c: Colors, s: string, pos: nat, text: string, at: string, m: Modus)
    requires At(s, pos, Escape(text, at)) && SelfEscaping(at) && m != Single
    requires (forall ch :: EndsRhs(m, ch) ==> ch in at) && (m != Double ==> '(' in at) && !EndsRhs(m, '\\')
    requires var end := pos + |Escape(text, at)|; end < |s| && EndsRhs(m, s[end])
    ensures RhsAt(c, s, pos, m) == (text, pos + |Escape(text, at)|) && !RhsOverruns(c, s, pos, m)
    decreases |text|
  {
    hide TextPiece, At, EndsRhs, SelfEscaping, RhsPiece, RhsAt, RhsOverruns;
    AtBound(s, pos, Escape(text, at));
    RhsUnfolds(c, s, pos, m);
    if text != [] {
      var u, rest := EscapeChar(text[0], at), Escape(text[1..], at);
      AtPiece(s, pos, u, rest);
      PieceOfEscaped(s, pos, text[0], at);
      RhsPieceIsText(c, s, pos, m, at, text[0]);
      RhsOfEscaped(c, s, pos + |u|, text[1..], at, m);
      assert text == [text[0]] + text[1..];
    }
  }

  lemma RhsUnfolds(c: Colors, s: string, pos: nat, m: Modus)
    requires pos < |s|
    ensures if EndsRhs(m, s[pos]) then RhsAt(c, s, pos, m) == ([], pos)
      else var p := RhsPiece(c, s, pos, m); RhsAt(c, s, pos, m) == (p.0 + RhsAt(c, s, p.1, m).0, RhsAt(c, s, p.1, m).1)
    ensures EndsRhs(m, s[pos]) ==> !RhsOverruns(c, s, pos, m)
    ensures !EndsRhs(m, s[pos]) && (m == Double || s[pos] != '(') ==>
      RhsOverruns(c, s, pos, m) == RhsOverruns(c, s, RhsPiece(c, s, pos, m).1, m)
  {
    hide EndsRhs, RhsPiece;
  }

  lemma RhsPieceIsText(c: Colors, s: string, pos: nat, m: Modus, at: string, ch: char)
    requires pos < |s| && m != Single && (m != Double ==> '(' in at) && s[pos] == (if ch in at then '\\' else ch)
    ensures RhsPiece(c, s, pos, m) == TextPiece(s, pos)
  {
  }

  // ---- Heads ----

  lemma SeekStays(s: string, pos: nat)
    requires pos <= |s| && (pos < |s| ==> s[pos] !in WHITE)
    ensures Seek(s, pos) == pos
  {
  }

  lemma {:induction false} NameStopIs(s: string, pos: nat, end: nat)
    requires pos <= end < |s| && (s[end] in "}=" || s[end] in WHITE)
    requires forall k :: pos <= k < end ==> s[k] !in "}=" && s[k] !in WHITE
    ensures NameStop(s, pos) == end
    decreases end - pos
  {
    if pos < end { NameStopIs(s, pos + 1, end); }
  }

  function StopsOf(r: Rhs): string
  {
    match r case RhsString => DOUBLE_STOPS case RhsProperty => PROPERTY_STOPS case RhsVar => PLAIN_STOPS
  }

  function ModusOf(r: Rhs): Modus
  {
    match r case RhsString => Double case RhsProperty => InProperty case RhsVar => Plain
  }

  lemma StopsFit(r: Rhs)
    ensures var at, m := StopsOf(r), ModusOf(r);
      SelfEscaping(at) && (forall ch :: EndsRhs(m, ch) ==> ch in at) && (m != Double ==> '(' in at) && !EndsRhs(m, '\\')
  {
    StopsEscape();
  }

  /** No white space is skipped in front of an escaped text. */
  lemma EscapedIsNoSpace(text: string, at: string)
    requires forall ch :: ch in WHITE ==> ch in at
    ensures Escape(text, at) != [] ==> Escape(text, at)[0] !in WHITE
  {
  }

  function OpenOf(r: Rhs): char { if r == RhsString then '"' else if r == RhsProperty then '<' else '$' }

  function CloseOf(r: Rhs): string { if r == RhsString then "\"" else if r == RhsProperty then ">" else [] }

  /** Where the parts of a right hand side stand. */
  lemma RhsParts(s: string, pos: nat, h: Head, e: string)
    requires At(s, pos, PrintRhs(h) + "}") && e == Escape(h.text, StopsOf(h.rhs))
    ensures var end := pos + 1 + |e|;
      var brace := end + |CloseOf(h.rhs)|;
      && pos < brace < |s| && brace == pos + |PrintRhs(h)| && s[pos] == OpenOf(h.rhs)
      && s[end..brace] == CloseOf(h.rhs) && s[brace] == '}' && At(s, pos + 1, e) && s[pos + 1..end] == e
      && s[end] == (CloseOf(h.rhs) + "}")[0]
  {
    hide At, Escape, PrintRhs, StopsOf;
    var close := CloseOf(h.rhs);
    RhsNest(e, h);
    AtPiece(s, pos, [OpenOf(h.rhs)], e + (close + "}"));
    AtIndex(s, pos, [OpenOf(h.rhs)], 0);
    AtPiece(s, pos + 1, e, close + "}");
    var end := pos + 1 + |e|;
    AtPiece(s, end, close, "}");
    AtIndex(s, end, close + "}", 0);
    AtIndex(s, end + |close|, "}", 0);
  }

  /** Where they stand, and what the scan makes of the text. */
  lemma RhsLayout(c: Colors, s: string, pos: nat, h: Head)
    requires At(s, pos, PrintRhs(h) + "}")
    ensures var end := pos + 1 + |Escape(h.text, StopsOf(h.rhs))|;
      var brace := end + |CloseOf(h.rhs)|;
      && pos < brace < |s| && brace == pos + |PrintRhs(h)|
      && s[pos] == OpenOf(h.rhs) && s[end..brace] == CloseOf(h.rhs) && s[brace] == '}'
      && s[pos + 1..end] == Escape(h.text, StopsOf(h.rhs))
      && RhsAt(c, s, pos + 1, ModusOf(h.rhs)) == (h.text, end) && !RhsOverruns(c, s, pos + 1, ModusOf(h.rhs))
  {
    hide At, Escape, EndsRhs, SelfEscaping, RhsAt, PrintRhs, StopsOf, RhsOverruns;
    RhsParts(s, pos, h, Escape(h.text, StopsOf(h.rhs)));
    StopsFit(h.rhs);
    EndsAt(h.rhs);
    RhsOfEscaped(c, s, pos + 1, h.text, StopsOf(h.rhs), ModusOf(h.rhs));
  }

  /** The right hand side up to the closing brace. */
  lemma RhsTagPrinted(c: Colors, s: string, pos: nat, h: Head, h0: Head)
    requires At(s, pos, PrintRhs(h) + "}") && h == h0.(rhs := h.rhs, text := h.text)
    ensures pos < |s| && RhsTag(c, s, pos, h0) == HeadTag(h, pos + |PrintRhs(h)| + 1)
  {
    hide At, Escape, EndsRhs, SelfEscaping, RhsAt, PrintRhs, Seek, RhsOverruns;
    RhsLayout(c, s, pos, h);
    var end := pos + 1 + |Escape(h.text, StopsOf(h.rhs))|;
    NoSpaceBehind(s, pos, h);
    if h.rhs != RhsVar {
      assert s[end] == s[end..end + 1][0];
      SeekStays(s, end + 1);
    }
  }

  lemma NoSpaceBehind(s: string, pos: nat, h: Head)
    requires var end := pos + 1 + |Escape(h.text, StopsOf(h.rhs))|;
      end + |CloseOf(h.rhs)| < |s| && s[pos + 1..end] == Escape(h.text, StopsOf(h.rhs))
      && s[end..end + |CloseOf(h.rhs)|] == CloseOf(h.rhs) && s[end + |CloseOf(h.rhs)|] == '}'
    ensures h.rhs != RhsString ==> Seek(s, pos + 1) == pos + 1
  {
    hide Escape, Seek;
    if h.rhs != RhsString {
      var e := Escape(h.text, StopsOf(h.rhs));
      var end := pos + 1 + |e|;
      EscapedIsNoSpace(h.text, StopsOf(h.rhs));
      if e != [] { assert s[pos + 1] == s[pos + 1..end][0]; }
      else if h.rhs == RhsProperty { assert s[end] == s[end..end + 1][0]; }
      SeekStays(s, pos + 1);
    }
  }

  lemma EndsAt(r: Rhs)
    ensures EndsRhs(ModusOf(r), if r == RhsString then '"' else if r == RhsProperty then '>' else '}')
  {
  }

  lemma RhsNest(e: string, h: Head)
    requires e == Escape(h.text, StopsOf(h.rhs))
    ensures PrintRhs(h) + "}" == [OpenOf(h.rhs)] + (e + (CloseOf(h.rhs) + "}"))
    ensures |PrintRhs(h)| == 1 + |e| + |CloseOf(h.rhs)|
  {
    hide Escape;
  }

  /** The whole head, behind its brace. */
  lemma HeadPrinted(c: Colors, s: string, pos: nat, h: Head)
    requires ProperHead(h) && At(s, pos, PrintHead(h))
    ensures pos < |s| && s[pos] == '{' && TagAt(c, s, pos + 1) == HeadTag(h, pos + |PrintHead(h)|)
  {
    hide At, PrintRhs, RhsTag, Seek, NameStop, Marks;
    AtPiece(s, pos, "{", Marks(h) + (h.variable + ("=" + (PrintRhs(h) + "}"))));
    AtIndex(s, pos, "{", 0);
    var p := pos + 1;
    MarksPrinted(c, s, p, h);
    AtPiece(s, p, Marks(h), h.variable + ("=" + (PrintRhs(h) + "}")));
    NoMark(s, p, h);
  }

  lemma NotStarts(s: string, p: nat, t: string, k: nat)
    requires k < |t| && p + k < |s| && s[p + k] != t[k]
    ensures !StartsWith(s, p, t)
  {
    if p + |t| <= |s| { assert s[p..p + |t|][k] == s[p + k]; }
  }

  /** A head is no `{else}` and no `{}`. */
  lemma NoMark(s: string, p: nat, h: Head)
    requires ProperHead(h) && At(s, p, Marks(h) + (h.variable + ("=" + (PrintRhs(h) + "}"))))
    ensures p <= |s| && !StartsWith(s, p, "else}") && !StartsWith(s, p, "}")
  {
    hide At, PrintRhs, StartsWith;
    var m := Marks(h) + h.variable;
    var n := |m|;
    assert m + ("=" + (PrintRhs(h) + "}")) == Marks(h) + (h.variable + ("=" + (PrintRhs(h) + "}")));
    AtPiece(s, p, m, "=" + (PrintRhs(h) + "}"));
    AtIndex(s, p, m, 0);
    NotStarts(s, p, "}", 0);
    if n <= 4 {
      AtIndex(s, p + n, "=" + (PrintRhs(h) + "}"), 0);
      NotStarts(s, p, "else}", n);
    } else {
      AtIndex(s, p, m, 4);
      NotStarts(s, p, "else}", 4);
    }
  }

  function Mark(h: Head): string { if h.isSet then "*" else if h.user then "$" else "" }

  /** The marks are read up to the name at `r`. */
  lemma MarksRead(c: Colors, s: string, p: nat, q: nat, r: nat, h: Head)
    requires ProperHead(h) && q == p + (if h.negation then 1 else 0) && r == q + |Mark(h)| && r < |s| && s[r] == h.variable[0]
    requires (h.negation ==> s[p] == '!') && (h.user ==> s[q] == Mark(h)[0])
    ensures MarksTag(c, s, p) == NameTag(c, s, r, Head(h.isSet, h.user, h.negation, [], RhsString, []))
  {
    hide NameTag, Seek;
    SeekStays(s, p);
    SeekStays(s, q);
    SeekStays(s, r);
  }

  lemma MarksNest(h: Head, rest: string)
    ensures var neg := if h.negation then "!" else "";
      Marks(h) + rest == neg + (Mark(h) + rest) && |Marks(h)| == |neg| + |Mark(h)|
    ensures h.user ==> |Mark(h)| == 1
  {
    Regroup(if h.negation then "!" else "", Mark(h), rest);
  }

  /** The marks, and the name behind them. */
  lemma MarksPrinted(c: Colors, s: string, p: nat, h: Head)
    requires ProperHead(h) && At(s, p, Marks(h) + (h.variable + ("=" + (PrintRhs(h) + "}"))))
    ensures p <= |s| && MarksTag(c, s, p) == HeadTag(h, p + |Marks(h)| + |h.variable| + 1 + |PrintRhs(h)| + 1)
  {
    hide At, PrintRhs, NameTag, MarksTag, Marks, Mark;
    var rest := h.variable + ("=" + (PrintRhs(h) + "}"));
    var neg := if h.negation then "!" else "";
    MarksNest(h, rest);
    AtPiece(s, p, neg, Mark(h) + rest);
    var q := p + |neg|;
    AtPiece(s, q, Mark(h), rest);
    var r := q + |Mark(h)|;
    AtIndex(s, r, rest, 0);
    if h.negation { AtIndex(s, p, neg, 0); }
    if h.user { AtIndex(s, q, Mark(h), 0); }
    MarksRead(c, s, p, q, r, h);
    NamePrinted(c, s, r, h, Head(h.isSet, h.user, h.negation, [], RhsString, []));
  }

  lemma NameLayout(c: Colors, s: string, p: nat, h: Head)
    requires ProperHead(h) && At(s, p, h.variable + ("=" + (PrintRhs(h) + "}")))
    ensures var end := p + |h.variable|;
      && p < end && end + 1 < |s| && NameStop(s, p) == end && s[p..end] == h.variable && s[end] == '='
      && Seek(s, end) == end && Seek(s, end + 1) == end + 1 && At(s, end + 1, PrintRhs(h) + "}")
  {
    hide At, PrintRhs, Seek, NameStop;
    AtPiece(s, p, h.variable, "=" + (PrintRhs(h) + "}"));
    var end := p + |h.variable|;
    AtPiece(s, end, "=", PrintRhs(h) + "}");
    AtIndex(s, end, "=", 0);
    forall k | p <= k < end ensures s[k] !in "}=" && s[k] !in WHITE { assert s[k] == s[p..end][k - p]; }
    NameStopIs(s, p, end);
    SeekStays(s, end);
    RhsStarts(s, end + 1, h);
    SeekStays(s, end + 1);
  }

  lemma RhsStarts(s: string, pos: nat, h: Head)
    requires At(s, pos, PrintRhs(h) + "}")
    ensures pos < |s| && s[pos] == OpenOf(h.rhs) && s[pos] !in WHITE
  {
    hide At, Escape, PrintRhs;
    var e := Escape(h.text, StopsOf(h.rhs));
    RhsNest(e, h);
    AtPiece(s, pos, [OpenOf(h.rhs)], e + (CloseOf(h.rhs) + "}"));
    AtIndex(s, pos, [OpenOf(h.rhs)], 0);
  }

  lemma NamePrinted(c: Colors, s: string, p: nat, h: Head, h0: Head)
    requires ProperHead(h) && h == h0.(variable := h.variable, rhs := h.rhs, text := h.text)
    requires At(s, p, h.variable + ("=" + (PrintRhs(h) + "}")))
    ensures p <= |s| && NameTag(c, s, p, h0) == HeadTag(h, p + |h.variable| + 1 + |PrintRhs(h)| + 1)
  {
    hide At, PrintRhs, RhsTag, Seek, NameStop, ProperHead;
    NameLayout(c, s, p, h);
    RhsTagPrinted(c, s, p + |h.variable| + 1, h, h0.(variable := h.variable));
  }

  // ---- Nodes ----

  lemma {:induction false} CanonIsClosed(ns: seq<Node>)
    requires Proper(ns)
    ensures forall i :: 0 <= i < |CanonAll(ns)| ==> !IsOpen(CanonAll(ns)[i])
    ensures CanonAll(ns) == [] <==> ns == []
  {
    if ns != [] { CanonIsClosed(ns[1..]); }
  }

  /** What follows a list must not continue its last text. */
  ghost predicate Ends(s: string, end: nat)
  {
    end < |s| ==> s[end] in TEXT_STOPS
  }

  predicate EndsInText(ns: seq<Node>) { ns != [] && ns[|ns| - 1].Text? }

  /** One node is parsed onto the stack. */
  ghost predicate Parses(c: Colors, s: string, pos: nat, stack: seq<Node>, ns: seq<Node>)
  {
    var end := pos + |PrintNodes(ns)|;
    end <= |s| && ParseFrom(c, s, pos, stack) == ParseFrom(c, s, end, stack + CanonAll(ns))
  }

  ghost predicate ParsesOne(c: Colors, s: string, pos: nat, stack: seq<Node>, n: Node)
  {
    var end := pos + |PrintNode(n)|;
    end <= |s| && ParseFrom(c, s, pos, stack) == ParseFrom(c, s, end, stack + [Canon(n)])
  }

  lemma TextParses(c: Colors, s: string, pos: nat, stack: seq<Node>, t: string)
    requires !c.onlyColors && t != [] && At(s, pos, Escape(t, TEXT_STOPS)) && Ends(s, pos + |Escape(t, TEXT_STOPS)|)
    ensures ParsesOne(c, s, pos, stack, Text(t))
  {
    hide At, TextAt, TextOverruns, Escape, TagAt;
    TextStarts(s, pos, t);
    TextOfEscaped(s, pos, t);
  }

  lemma TextStarts(s: string, pos: nat, t: string)
    requires t != [] && At(s, pos, Escape(t, TEXT_STOPS))
    ensures pos < pos + |Escape(t, TEXT_STOPS)| <= |s| && s[pos] !in TEXT_STOPS
  {
    hide At, SelfEscaping;
    AtBound(s, pos, Escape(t, TEXT_STOPS));
    AtPiece(s, pos, EscapeChar(t[0], TEXT_STOPS), Escape(t[1..], TEXT_STOPS));
    StopsEscape();
    PieceOfEscaped(s, pos, t[0], TEXT_STOPS);
  }

  function UserMark(user: bool): string { if user then "$" else [] }

  /** Where the parts of a printed property stand. */
  lemma PropertyLayout(s: string, pos: nat, name: string, user: bool)
    requires At(s, pos, PrintNode(Property(name, user)))
    ensures var start := pos + 1 + |UserMark(user)|;
      var q := start + |name|;
      && q < |s| && s[pos] == '<' && s[pos + 1..start] == UserMark(user) && s[start..q] == name && s[q] == '>'
      && q + 1 == pos + |PrintNode(Property(name, user))|
  {
    hide At;
    var mark := UserMark(user);
    assert PrintNode(Property(name, user)) == "<" + (mark + (name + ">"));
    AtPiece(s, pos, "<", mark + (name + ">"));
    AtIndex(s, pos, "<", 0);
    AtPiece(s, pos + 1, mark, name + ">");
    var start := pos + 1 + |mark|;
    AtPiece(s, start, name, ">");
    AtIndex(s, start + |name|, ">", 0);
  }

  lemma PropertyScan(s: string, pos: nat, name: string, user: bool)
    requires ProperNode(Property(name, user)) && At(s, pos, PrintNode(Property(name, user)))
    ensures var start := pos + 1 + |UserMark(user)|;
      var q := start + |name|;
      && q < |s| && FindFirstOf(s, ">", pos + 1) == q && (s[pos + 1] == '$') == user && (user ==> Seek(s, start) == start)
  {
    hide At, FindFirstOf, Seek, PrintNode;
    PropertyLayout(s, pos, name, user);
    var start := pos + 1 + |UserMark(user)|;
    var q := start + |name|;
    forall k | pos + 1 <= k < q ensures s[k] !in ">" {
      if k >= start { assert s[k] == s[start..q][k - start] && s[k] in name; }
      else { assert s[k] == s[pos + 1..start][0]; }
    }
    FindFirstIs(s, ">", pos + 1, q);
    if user { assert s[pos + 1] == s[pos + 1..start][0]; }
    if name != [] { assert s[start] == s[start..q][0]; }
    if user { SeekStays(s, start); }
  }

  lemma PropertyParses(c: Colors, s: string, pos: nat, stack: seq<Node>, name: string, user: bool)
    requires !c.onlyColors && ProperNode(Property(name, user)) && At(s, pos, PrintNode(Property(name, user)))
    ensures ParsesOne(c, s, pos, stack, Property(name, user))
  {
    hide At, Seek, FindFirstOf, ProperNode, PrintNode;
    PropertyLayout(s, pos, name, user);
    PropertyScan(s, pos, name, user);
  }

  lemma HeadParses(c: Colors, s: string, pos: nat, stack: seq<Node>, h: Head)
    requires !c.onlyColors && ProperHead(h) && At(s, pos, PrintHead(h))
    ensures var end := pos + |PrintHead(h)|;
      end <= |s| && ParseFrom(c, s, pos, stack) == ParseFrom(c, s, end, stack + [Block(h, false, [], [])])
  {
    hide At, TagAt, PrintHead, ProperHead;
    HeadPrinted(c, s, pos, h);
  }

  lemma OnStack(stack: seq<Node>, b: Node, above: seq<Node>)
    requires IsOpen(b) && forall i :: 0 <= i < |above| ==> !IsOpen(above[i])
    ensures DoElse(stack + [b] + above) == Some(stack + [b.(yes := if above == [] then [Text([])] else above)])
    ensures DoFi(stack + [b] + above)
         == Some(stack + [if b.yes == [] then b.(yes := above, final := true) else b.(no := above, final := true)])
  {
    hide IsOpen;
    var all := stack + [b] + above;
    OpenIs(all, |stack|);
    assert all[..|stack|] == stack && all[|stack| + 1..] == above && all[|stack|] == b;
  }

  lemma MarkTags(c: Colors, s: string, pos: nat)
    ensures At(s, pos, "{else}") ==> pos + 6 <= |s| && s[pos] == '{' && TagAt(c, s, pos + 1) == ElseTag(pos + 6)
    ensures At(s, pos, "{}") ==> pos + 2 <= |s| && s[pos] == '{' && TagAt(c, s, pos + 1) == FiTag(pos + 2)
  {
    hide MarksTag;
    if At(s, pos, "{else}") {
      AtIndex(s, pos, "{else}", 0);
      assert s[pos + 1..pos + 6] == s[pos..pos + 6][1..];
    }
    if At(s, pos, "{}") {
      AtIndex(s, pos, "{}", 0);
      AtIndex(s, pos, "{}", 1);
      assert s[pos + 1..pos + 2] == s[pos..pos + 2][1..];
      NotStarts(s, pos + 1, "else}", 0);
    }
  }

  /** `{else}` and `{}` above closed nodes find the condition they belong to. */
  lemma ElseParses(c: Colors, s: string, pos: nat, stack: seq<Node>, b: Node, above: seq<Node>)
    requires !c.onlyColors && At(s, pos, "{else}") && IsOpen(b) && forall i :: 0 <= i < |above| ==> !IsOpen(above[i])
    ensures pos + 6 <= |s|
    ensures ParseFrom(c, s, pos, stack + [b] + above)
         == ParseFrom(c, s, pos + 6, stack + [b.(yes := if above == [] then [Text([])] else above)])
  {
    hide At, TagAt, DoElse, IsOpen;
    MarkTags(c, s, pos);
    OnStack(stack, b, above);
  }

  lemma FiParses(c: Colors, s: string, pos: nat, stack: seq<Node>, b: Node, above: seq<Node>)
    requires !c.onlyColors && At(s, pos, "{}") && IsOpen(b) && forall i :: 0 <= i < |above| ==> !IsOpen(above[i])
    ensures pos + 2 <= |s|
    ensures ParseFrom(c, s, pos, stack + [b] + above)
         == ParseFrom(c, s, pos + 2,
                      stack + [if b.yes == [] then b.(yes := above, final := true) else b.(no := above, final := true)])
  {
    hide At, TagAt, DoFi, IsOpen;
    MarkTags(c, s, pos);
    OnStack(stack, b, above);
  }

  // ---- The whole text ----

  /** The first character of a printed node that is no text. */
  lemma NodeStarts(s: string, pos: nat, n: Node)
    requires !n.Text? && At(s, pos, PrintNode(n))
    ensures Ends(s, pos)
  {
    hide At, PrintRhs, Marks;
    AtIndex(s, pos, PrintNode(n), 0);
  }

  /** Every list of proper nodes is rebuilt on top of the stack. */
  lemma {:induction false} NodesParse(c: Colors, s: string, pos: nat, stack: seq<Node>, ns: seq<Node>)
    requires !c.onlyColors && Proper(ns) && At(s, pos, PrintNodes(ns))
    requires EndsInText(ns) ==> Ends(s, pos + |PrintNodes(ns)|)
    ensures Parses(c, s, pos, stack, ns)
    decreases ns, 2
  {
    hide At, ParseFrom, PrintNode, ProperNode, Ends, Canon;
    if ns == [] {
      assert stack + CanonAll(ns) == stack;
      AtEnd(s, pos);
    } else {
      var n, rest := ns[0], ns[1..];
      AtPiece(s, pos, PrintNode(n), PrintNodes(rest));
      var mid := pos + |PrintNode(n)|;
      if n.Text? { TextIsFollowed(s, pos, ns); }
      NodeParses(c, s, pos, stack, n);
      assert rest != [] ==> rest[|rest| - 1] == ns[|ns| - 1];
      NodesParse(c, s, mid, stack + [Canon(n)], rest);
      Regroup(stack, [Canon(n)], CanonAll(rest));
    }
  }

  lemma AtEnd(s: string, pos: nat)
    requires At(s, pos, PrintNodes([]))
    ensures pos <= |s|
  {
  }

  lemma TextIsFollowed(s: string, pos: nat, ns: seq<Node>)
    requires Proper(ns) && ns != [] && ns[0].Text? && At(s, pos, PrintNodes(ns))
    requires EndsInText(ns) ==> Ends(s, pos + |PrintNodes(ns)|)
    ensures Ends(s, pos + |PrintNode(ns[0])|)
  {
    hide At, Ends, PrintNode;
    var n, rest := ns[0], ns[1..];
    AtPiece(s, pos, PrintNode(n), PrintNodes(rest));
    var mid := pos + |PrintNode(n)|;
    if rest != [] {
      AtPiece(s, mid, PrintNode(rest[0]), PrintNodes(rest[1..]));
      NodeStarts(s, mid, rest[0]);
    }
  }

  lemma {:induction false} NodeParses(c: Colors, s: string, pos: nat, stack: seq<Node>, n: Node)
    requires !c.onlyColors && ProperNode(n) && At(s, pos, PrintNode(n))
    requires n.Text? ==> Ends(s, pos + |PrintNode(n)|)
    ensures ParsesOne(c, s, pos, stack, n)
    decreases n, 2
  {
    hide At, ParseFrom, PrintHead, ProperHead, Ends;
    match n
    case Text(t) => TextParses(c, s, pos, stack, t);
    case Property(name, user) => PropertyParses(c, s, pos, stack, name, user);
    case Block(h, final, yes, no) =>
      if h.isSet {
        HeadParses(c, s, pos, stack, h);
        assert CanonAll([]) == [];
      } else {
        BlockParses(c, s, pos, stack, n);
      }
  }

  /** The two branches of a condition, with the marks. */
  function PrintBranches(yes: seq<Node>, no: seq<Node>): string
  {
    PrintNodes(yes) + ((if no == [] then [] else "{else}" + PrintNodes(no)) + "{}")
  }

  lemma {:induction false} BlockParses(c: Colors, s: string, pos: nat, stack: seq<Node>, n: Node)
    requires !c.onlyColors && ProperNode(n) && n.Block? && !n.head.isSet && At(s, pos, PrintNode(n))
    ensures ParsesOne(c, s, pos, stack, n)
    decreases n, 1
  {
    hide At, ParseFrom, PrintHead, ProperHead, Ends, Proper, PrintNodes, CanonAll;
    AtPiece(s, pos, PrintHead(n.head), PrintBranches(n.yes, n.no));
    HeadParses(c, s, pos, stack, n.head);
    BranchesParse(c, s, pos + |PrintHead(n.head)|, stack, n);
  }

  /** What follows the head of a condition that is open. */
  lemma {:induction false} BranchesParse(c: Colors, s: string, p: nat, stack: seq<Node>, n: Node)
    requires n.Block? && !n.head.isSet && n.final && Proper(n.yes) && Proper(n.no)
    requires !c.onlyColors && At(s, p, PrintBranches(n.yes, n.no))
    ensures var end := p + |PrintBranches(n.yes, n.no)|;
      end <= |s| && ParseFrom(c, s, p, stack + [Block(n.head, false, [], [])]) == ParseFrom(c, s, end, stack + [Canon(n)])
    decreases n, 0
  {
    hide At, ParseFrom, Ends, Proper, PrintNodes, CanonAll;
    var b := Block(n.head, false, [], []);
    var y, e := PrintNodes(n.yes), (if n.no == [] then [] else "{else}" + PrintNodes(n.no)) + "{}";
    AtPiece(s, p, y, e);
    var q := p + |y|;
    BraceEnds(s, q, e);
    NodesParse(c, s, p, stack + [b], n.yes);
    CanonIsClosed(n.yes);
    if n.no == [] {
      assert e == "{}";
      FiParses(c, s, q, stack, b, CanonAll(n.yes));
      CanonIsClosed(n.no);
    } else {
      assert e == "{else}" + (PrintNodes(n.no) + "{}");
      AtPiece(s, q, "{else}", PrintNodes(n.no) + "{}");
      ElseParses(c, s, q, stack, b, CanonAll(n.yes));
      var b' := b.(yes := if CanonAll(n.yes) == [] then [Text([])] else CanonAll(n.yes));
      AtPiece(s, q + 6, PrintNodes(n.no), "{}");
      var r := q + 6 + |PrintNodes(n.no)|;
      BraceEnds(s, r, "{}");
      NodesParse(c, s, q + 6, stack + [b'], n.no);
      CanonIsClosed(n.no);
      FiParses(c, s, r, stack, b', CanonAll(n.no));
    }
  }

  lemma BraceEnds(s: string, pos: nat, e: string)
    requires At(s, pos, e) && e != [] && e[0] == '{'
    ensures Ends(s, pos)
  {
    AtIndex(s, pos, e, 0);
  }

  /** Writing nodes down and parsing the text gives the nodes back, up to the empty text in
      an empty branch before `{else}`. */
  lemma ParseOfPrinted(c: Colors, ns: seq<Node>)
    requires !c.onlyColors && Proper(ns)
    ensures ParseFrom(c, PrintNodes(ns), 0, []) == Parsed(CanonAll(ns))
  {
    var s := PrintNodes(ns);
    assert s[0..|s|] == s;
    NodesParse(c, s, 0, [], ns);
    assert [] + CanonAll(ns) == CanonAll(ns);
  }
}