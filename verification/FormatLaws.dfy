/** What formats mean, from their text to what is printed: heads in every written form, with
white space, and what conditions, assignments and properties print. */
module FormatLaws {
  import opened Strings
  import opened NumberCodec
  import opened FormatParsing
  import opened FormatRoundTrip
  import opened FormatPrinting

  // ---- Heads as they are written ----

  predicate IsWhite(c: char)
  {
    c == ' ' || c == '\t' || c == '\n' || c == '\r' || c as int == 11 || c as int == 12
  }

  predicate White(w: string) { forall i :: 0 <= i < |w| ==> IsWhite(w[i]) }

  /** White space in front of each piece of a head. */
  datatype Gaps = Gaps(sign: string, mark: string, name: string, equal: string, value: string, inner: string, close: string)

  ghost predicate AllWhite(g: Gaps)
  {
    White(g.sign) && White(g.mark) && White(g.name) && White(g.equal) && White(g.value) && White(g.inner) && White(g.close)
  }

  datatype Mark = NoMark | SetMark | UserMark

  datatype Form = DoubleQuoted | SingleQuoted | Bare | OfProperty | OfVariable

  /** The text of a right hand side, with a backslash in front of the characters that would end it. */
  function ValueText(f: Form, inner: string, t: string): string
  {
    match f
    case DoubleQuoted => "\"" + (Escape(t, "\"") + "\"")
    case SingleQuoted => "'" + (t + "'")
    case Bare => Escape(t, "}( \t\n\r\U{0b}\U{0c}")
    case OfProperty => "<" + (inner + (Escape(t, ">( \t\n\r\U{0b}\U{0c}") + ">"))
    case OfVariable => "$" + (inner + Escape(t, "}( \t\n\r\U{0b}\U{0c}"))
  }

  /** Texts that can be written in a form. */
  predicate Fits(f: Form, t: string)
  {
    match f
    case SingleQuoted => '\'' !in t
    case Bare => t == [] || t[0] !in "<$'\""
    case _ => true
  }

  function SignText(g: Gaps, negated: bool): string { if negated then "!" + g.mark else [] }

  function MarkText(g: Gaps, m: Mark): string
  {
    match m case NoMark => [] case SetMark => "*" + g.name case UserMark => "$" + g.name
  }

  function StartText(g: Gaps, negated: bool, m: Mark): string { g.sign + (SignText(g, negated) + MarkText(g, m)) }

  /** `{!$name = "value"}` */
  function HeadText(g: Gaps, negated: bool, m: Mark, name: string, f: Form, t: string): string
  {
    "{" + (StartText(g, negated, m) + (name + (g.equal + ("=" + (g.value + (ValueText(f, g.inner, t) + (g.close + "}")))))))
  }

  /** `{!$name}` */
  function ShortText(g: Gaps, negated: bool, m: Mark, name: string): string
  {
    "{" + (StartText(g, negated, m) + (name + (g.equal + "}")))
  }

  predicate Nameable(negated: bool, m: Mark, name: string)
  {
    && name != [] && (forall i :: 0 <= i < |name| ==> name[i] != '}' && name[i] != '=' && !IsWhite(name[i]))
    && (m == NoMark ==> name[0] != '*' && name[0] != '$' && (!negated ==> name[0] != '!'))
  }

  function RhsOf(f: Form): Rhs { match f case OfProperty => RhsProperty case OfVariable => RhsVar case _ => RhsString }

  function HeadOf(negated: bool, m: Mark, name: string, r: Rhs, t: string): Head
  {
    Head(m == SetMark, m != NoMark, negated, name, r, t)
  }

  // ---- They are read ----

  lemma {:induction false} SeekOver(s: string, p: nat, w: string)
    requires At(s, p, w) && White(w) && p + |w| < |s| && s[p + |w|] !in WHITE
    ensures Seek(s, p) == p + |w|
    decreases |w|
  {
    if w != [] {
      AtIndex(s, p, w, 0);
      assert w == [w[0]] + w[1..];
      AtPiece(s, p, [w[0]], w[1..]);
      SeekOver(s, p + 1, w[1..]);
    }
  }

  lemma WhiteIs(c: char)
    ensures IsWhite(c) <==> c in WHITE
  {
  }

  /** Where the pieces in front of the name stand. */
  lemma StartLayout(s: string, p: nat, g: Gaps, negated: bool, m: Mark, name: string)
    requires AllWhite(g) && Nameable(negated, m, name) && At(s, p, StartText(g, negated, m) + name)
    ensures var q1 := p + |g.sign|;
      var q2 := q1 + |SignText(g, negated)|;
      var q3 := q2 + |MarkText(g, m)|;
      && q3 == p + |StartText(g, negated, m)| && q3 + |name| <= |s| && s[q3] == name[0]
      && At(s, p, g.sign) && (negated ==> s[q1] == '!' && At(s, q1 + 1, g.mark))
      && (m == SetMark ==> s[q2] == '*' && At(s, q2 + 1, g.name)) && (m == UserMark ==> s[q2] == '$' && At(s, q2 + 1, g.name))
  {
    hide At, White, IsWhite, SignText, MarkText;
    var x, y := SignText(g, negated), MarkText(g, m);
    AtPiece(s, p, StartText(g, negated, m), name);
    AtIndex(s, p + |StartText(g, negated, m)|, name, 0);
    AtPiece(s, p, g.sign, x + y);
    AtPiece(s, p + |g.sign|, x, y);
    if negated { SignLaid(s, p + |g.sign|, g, negated); }
    if m != NoMark { MarkLaid(s, p + |g.sign| + |x|, g, m); }
  }

  lemma SignLaid(s: string, p: nat, g: Gaps, negated: bool)
    requires At(s, p, SignText(g, negated)) && negated
    ensures p < |s| && s[p] == '!' && At(s, p + 1, g.mark)
  {
    AtPiece(s, p, "!", g.mark);
    AtIndex(s, p, "!", 0);
  }

  lemma MarkLaid(s: string, p: nat, g: Gaps, m: Mark)
    requires At(s, p, MarkText(g, m)) && m != NoMark
    ensures p < |s| && s[p] == (if m == SetMark then '*' else '$') && At(s, p + 1, g.name)
  {
    var sign := if m == SetMark then "*" else "$";
    AtPiece(s, p, sign, g.name);
    AtIndex(s, p, sign, 0);
  }

  /** The marks, up to the name. */
  lemma StartRead(c: Colors, s: string, p: nat, g: Gaps, negated: bool, m: Mark, name: string)
    requires AllWhite(g) && Nameable(negated, m, name) && At(s, p, StartText(g, negated, m) + name)
    ensures p <= |s| && MarksTag(c, s, p)
         == NameTag(c, s, p + |StartText(g, negated, m)|, HeadOf(negated, m, [], RhsString, []))
  {
    hide At, NameTag, Seek, White, IsWhite, StartText, SignText, MarkText;
    StartLayout(s, p, g, negated, m, name);
    var q1 := p + |g.sign|;
    var q2 := q1 + |SignText(g, negated)|;
    var q3 := q2 + |MarkText(g, m)|;
    TextSizes(g, negated, m);
    WhiteIs(name[0]);
    SeekOver(s, p, g.sign);
    if negated { SeekOver(s, q1 + 1, g.mark); }
    if m != NoMark { SeekOver(s, q2 + 1, g.name); }
  }

  lemma TextSizes(g: Gaps, negated: bool, m: Mark)
    ensures |SignText(g, negated)| == if negated then 1 + |g.mark| else 0
    ensures |MarkText(g, m)| == if m != NoMark then 1 + |g.name| else 0
  {
  }

  lemma NameEnds(s: string, r: nat, negated: bool, m: Mark, name: string, equal: string, after: string)
    requires Nameable(negated, m, name) && White(equal) && after != [] && after[0] in "}="
    requires At(s, r, name + (equal + after))
    ensures var end := r + |name|;
      var p := end + |equal|;
      && r < end && p < |s| && NameStop(s, r) == end && s[r..end] == name && Seek(s, end) == p && s[p] == after[0]
      && At(s, p, after)
  {
    hide At, Seek, NameStop;
    var end := r + |name|;
    AtPiece(s, r, name, equal + after);
    AtPiece(s, end, equal, after);
    AtIndex(s, end + |equal|, after, 0);
    forall k | r <= k < end ensures s[k] !in "}=" && s[k] !in WHITE {
      assert s[k] == name[k - r];
      WhiteIs(s[k]);
    }
    if equal != [] {
      AtIndex(s, end, equal, 0);
      WhiteIs(equal[0]);
    }
    NameStopIs(s, r, end);
    SeekOver(s, end, equal);
  }

  lemma ShortNameRead(c: Colors, s: string, r: nat, negated: bool, m: Mark, name: string, equal: string)
    requires Nameable(negated, m, name) && White(equal) && At(s, r, name + (equal + "}"))
    ensures r <= |s| && NameTag(c, s, r, HeadOf(negated, m, [], RhsString, []))
         == HeadTag(HeadOf(!negated, m, name, RhsString, []), r + |name| + |equal| + 1)
  {
    hide At, Seek, NameStop, White, RhsTag;
    NameEnds(s, r, negated, m, name, equal, "}");
  }

  lemma {:induction false} RawIsRead(c: Colors, s: string, pos: nat, t: string)
    requires At(s, pos, t + "'") && '\'' !in t
    ensures RhsAt(c, s, pos, Single) == (t, pos + |t|) && !RhsOverruns(c, s, pos, Single)
    decreases |t|
  {
    AtIndex(s, pos, t + "'", 0);
    if t != [] {
      assert t + "'" == [t[0]] + (t[1..] + "'");
      AtPiece(s, pos, [t[0]], t[1..] + "'");
      RawIsRead(c, s, pos + 1, t[1..]);
      assert [t[0]] + t[1..] == t;
    }
  }

  /** Where a right hand side ends, and the brace behind it. */
  lemma ClosesBehind(s: string, p: nat, close: string)
    requires White(close) && At(s, p, close + "}")
    ensures var q := p + |close|; q < |s| && s[q] == '}' && Seek(s, p) == q
  {
    hide At, Seek, White;
    AtPiece(s, p, close, "}");
    AtIndex(s, p + |close|, "}", 0);
    SeekOver(s, p, close);
  }

  /** A text without quotes ends at white space or at the brace. */
  lemma BareCloses(s: string, p: nat, close: string)
    requires White(close) && At(s, p, close + "}")
    ensures p < |s| && EndsRhs(Plain, s[p])
    ensures (if s[p] != '}' then Seek(s, p + 1) else p) == p + |close| < |s| && s[p + |close|] == '}'
  {
    hide At, Seek;
    AtIndex(s, p, close + "}", 0);
    AtPiece(s, p, close, "}");
    AtIndex(s, p + |close|, "}", 0);
    if close != [] {
      WhiteIs(close[0]);
      assert close == [close[0]] + close[1..];
      AtPiece(s, p, [close[0]], close[1..]);
      SeekOver(s, p + 1, close[1..]);
    }
  }

  /** White space in front of an escaped text. */
  lemma InnerIsSkipped(s: string, p: nat, inner: string, e: string, after: string)
    requires White(inner) && At(s, p, inner + (e + after)) && after != []
    requires (e != [] && e[0] !in WHITE) || (e == [] && after[0] !in WHITE)
    ensures Seek(s, p) == p + |inner| && At(s, p + |inner|, e + after)
  {
    hide At, Seek, White;
    AtPiece(s, p, inner, e + after);
    AtIndex(s, p + |inner|, e + after, 0);
    SeekOver(s, p, inner);
  }

  lemma EscapedStart(t: string, at: string)
    requires forall ch :: ch in WHITE ==> ch in at
    ensures Escape(t, at) == [] <==> t == []
    ensures t != [] ==> Escape(t, at)[0] !in WHITE
  {
  }

  /** An empty text without quotes needs no white space behind it: that in front of it is enough. */
  predicate Closable(f: Form, t: string, g: Gaps)
  {
    Fits(f, t) && (f in {Bare, OfVariable} && t == [] ==> g.close == [])
  }

  lemma DoubleRead(c: Colors, s: string, q: nat, close: string, t: string, h: Head)
    requires White(close) && At(s, q, "\"" + ((Escape(t, "\"") + "\"") + (close + "}")))
    ensures q < |s| && RhsTag(c, s, q, h) == HeadTag(h.(rhs := RhsString, text := t), q + |Escape(t, "\"")| + |close| + 3)
  {
    hide At, Seek, Escape, RhsAt, RhsOverruns, White, SelfEscaping;
    var e := Escape(t, DOUBLE_STOPS);
    Regroup(e, "\"", close + "}");
    AtPiece(s, q, "\"", e + ("\"" + (close + "}")));
    AtIndex(s, q, "\"", 0);
    AtPiece(s, q + 1, e, "\"" + (close + "}"));
    var end := q + 1 + |e|;
    AtPiece(s, end, "\"", close + "}");
    AtIndex(s, end, "\"", 0);
    StopsEscape();
    RhsOfEscaped(c, s, q + 1, t, DOUBLE_STOPS, Double);
    ClosesBehind(s, end + 1, close);
  }

  lemma SingleRead(c: Colors, s: string, q: nat, close: string, t: string, h: Head)
    requires White(close) && '\'' !in t && At(s, q, "'" + ((t + "'") + (close + "}")))
    ensures q < |s| && RhsTag(c, s, q, h) == HeadTag(h.(rhs := RhsString, text := t), q + |t| + |close| + 3)
  {
    hide At, Seek, RhsAt, RhsOverruns, White;
    AtPiece(s, q, "'", (t + "'") + (close + "}"));
    AtIndex(s, q, "'", 0);
    AtPiece(s, q + 1, t + "'", close + "}");
    var end := q + 1 + |t|;
    AtPiece(s, q + 1, t, "'");
    AtIndex(s, end, "'", 0);
    RawIsRead(c, s, q + 1, t);
    ClosesBehind(s, end + 1, close);
  }

  lemma PlainScan(c: Colors, s: string, p: nat, t: string, close: string)
    requires White(close) && At(s, p, Escape(t, PLAIN_STOPS) + (close + "}"))
    ensures var end := p + |Escape(t, PLAIN_STOPS)|;
      && end + |close| < |s| && RhsAt(c, s, p, Plain) == (t, end) && !RhsOverruns(c, s, p, Plain)
      && (if s[end] != '}' then Seek(s, end + 1) else end) == end + |close| && s[end + |close|] == '}'
  {
    hide At, Seek, Escape, RhsAt, RhsOverruns, White, SelfEscaping;
    var e := Escape(t, PLAIN_STOPS);
    AtPiece(s, p, e, close + "}");
    BareCloses(s, p + |e|, close);
    StopsEscape();
    RhsOfEscaped(c, s, p, t, PLAIN_STOPS, Plain);
  }

  lemma BareRead(c: Colors, s: string, q: nat, close: string, t: string, h: Head)
    requires White(close) && (t == [] || t[0] !in "<$'\"") && (t == [] ==> close == [])
    requires At(s, q, Escape(t, PLAIN_STOPS) + (close + "}"))
    ensures q < |s| && RhsTag(c, s, q, h) == HeadTag(h.(rhs := RhsString, text := t), q + |Escape(t, PLAIN_STOPS)| + |close| + 1)
  {
    hide At, Seek, RhsAt, RhsOverruns, White, Escape;
    PlainScan(c, s, q, t, close);
    var z := Escape(t, PLAIN_STOPS) + (close + "}");
    AtIndex(s, q, z, 0);
    BareStart(t, close);
    assert s[q] == z[0];
    assert s[q] != '<' && s[q] != '$' && s[q] != '\'' && s[q] != '"';
    PlainTag(c, s, q, h);
  }

  /** Without quotes and signs, a right hand side goes up to white space or the brace. */
  lemma PlainTag(c: Colors, s: string, q: nat, h: Head)
    requires q < |s| && s[q] != '<' && s[q] != '$' && s[q] != '\'' && s[q] != '"' && !RhsOverruns(c, s, q, Plain)
    requires var e := RhsAt(c, s, q, Plain).1; e < |s| && CharAt(s, if s[e] != '}' then Seek(s, e + 1) else e) == '}'
    ensures var (t, e) := RhsAt(c, s, q, Plain);
      RhsTag(c, s, q, h) == HeadTag(h.(rhs := RhsString, text := t), (if s[e] != '}' then Seek(s, e + 1) else e) + 1)
  {
    hide Seek, RhsAt, RhsOverruns;
  }

  lemma BareStart(t: string, close: string)
    requires (t == [] || t[0] !in "<$'\"") && (t == [] ==> close == [])
    ensures (Escape(t, PLAIN_STOPS) + (close + "}"))[0] !in "<$'\""
  {
    if t != [] { assert Escape(t, PLAIN_STOPS)[0] == if t[0] in PLAIN_STOPS || t[0] == '\\' then '\\' else t[0]; }
  }

  lemma PropertyPieces(c: Colors, s: string, q: nat, inner: string, close: string, t: string)
    requires White(inner) && White(close) && At(s, q, "<" + (inner + (Escape(t, PROPERTY_STOPS) + (">" + (close + "}")))))
    ensures var p := q + 1 + |inner|;
      var end := p + |Escape(t, PROPERTY_STOPS)|;
      var brace := end + 1 + |close|;
      && brace < |s| && s[q] == '<' && Seek(s, q + 1) == p
      && RhsAt(c, s, p, InProperty) == (t, end) && !RhsOverruns(c, s, p, InProperty)
      && s[end] == '>' && Seek(s, end + 1) == brace && s[brace] == '}'
  {
    hide At, Seek, Escape, RhsAt, RhsOverruns, White;
    var e := Escape(t, PROPERTY_STOPS);
    AngleLayout(s, q, inner, e, close);
    EscapedStart(t, PROPERTY_STOPS);
    InnerIsSkipped(s, q + 1, inner, e, ">" + (close + "}"));
    var p := q + 1 + |inner|;
    AngleScan(c, s, p, t);
    ClosesBehind(s, p + |e| + 1, close);
  }

  lemma AngleLayout(s: string, q: nat, inner: string, e: string, close: string)
    requires At(s, q, "<" + (inner + (e + (">" + (close + "}")))))
    ensures var p := q + 1 + |inner|;
      var end := p + |e|;
      && end + 1 + |close| < |s| && s[q] == '<' && At(s, q + 1, inner + (e + (">" + (close + "}"))))
      && At(s, p, e) && s[end] == '>' && At(s, end + 1, close + "}")
  {
    hide At;
    var z := ">" + (close + "}");
    AtPiece(s, q, "<", inner + (e + z));
    AtIndex(s, q, "<", 0);
    AtPiece(s, q + 1, inner, e + z);
    AtPiece(s, q + 1 + |inner|, e, z);
    AtPiece(s, q + 1 + |inner| + |e|, ">", close + "}");
    AtIndex(s, q + 1 + |inner| + |e|, ">", 0);
    AtBound(s, q + 2 + |inner| + |e|, close + "}");
  }

  lemma AngleScan(c: Colors, s: string, p: nat, t: string)
    requires At(s, p, Escape(t, PROPERTY_STOPS))
    requires var end := p + |Escape(t, PROPERTY_STOPS)|; end < |s| && s[end] == '>'
    ensures RhsAt(c, s, p, InProperty) == (t, p + |Escape(t, PROPERTY_STOPS)|) && !RhsOverruns(c, s, p, InProperty)
  {
    hide At, Escape, RhsAt, RhsOverruns, SelfEscaping, EndsRhs;
    StopsFit(RhsProperty);
    EndsAt(RhsProperty);
    RhsOfEscaped(c, s, p, t, PROPERTY_STOPS, InProperty);
  }

  lemma PropertyRead(c: Colors, s: string, q: nat, inner: string, close: string, t: string, h: Head)
    requires White(inner) && White(close) && At(s, q, "<" + (inner + (Escape(t, PROPERTY_STOPS) + (">" + (close + "}")))))
    ensures q < |s| && RhsTag(c, s, q, h)
         == HeadTag(h.(rhs := RhsProperty, text := t), q + |inner| + |Escape(t, PROPERTY_STOPS)| + |close| + 3)
  {
    hide At, Seek, Escape, RhsAt, RhsOverruns, White;
    PropertyPieces(c, s, q, inner, close, t);
  }

  lemma VariableRead(c: Colors, s: string, q: nat, inner: string, close: string, t: string, h: Head)
    requires White(inner) && White(close) && (t == [] ==> close == [])
    requires At(s, q, "$" + (inner + (Escape(t, PLAIN_STOPS) + (close + "}"))))
    ensures q < |s| && RhsTag(c, s, q, h)
         == HeadTag(h.(rhs := RhsVar, text := t), q + |inner| + |Escape(t, PLAIN_STOPS)| + |close| + 2)
  {
    hide At, Seek, Escape, RhsAt, RhsOverruns, White;
    var e := Escape(t, PLAIN_STOPS);
    EscapedStart(t, PLAIN_STOPS);
    AtPiece(s, q, "$", inner + (e + (close + "}")));
    AtIndex(s, q, "$", 0);
    InnerIsSkipped(s, q + 1, inner, e, close + "}");
    PlainScan(c, s, q + 1 + |inner|, t, close);
  }

  lemma StopsAre()
    ensures PLAIN_STOPS == "}( \t\n\r\U{0b}\U{0c}" && PROPERTY_STOPS == ">( \t\n\r\U{0b}\U{0c}" && DOUBLE_STOPS == "\""
  {
  }

  /** A right hand side in any form. */
  lemma ValueRead(c: Colors, s: string, q: nat, f: Form, g: Gaps, t: string, h: Head)
    requires AllWhite(g) && Closable(f, t, g) && At(s, q, ValueText(f, g.inner, t) + (g.close + "}"))
    ensures q < |s| && RhsTag(c, s, q, h) == HeadTag(h.(rhs := RhsOf(f), text := t), q + |ValueText(f, g.inner, t)| + |g.close| + 1)
  {
    hide At, RhsTag, Escape, White;
    var z := g.close + "}";
    StopsAre();
    match f
    case DoubleQuoted =>
      Regroup("\"", Escape(t, "\"") + "\"", z);
      DoubleRead(c, s, q, g.close, t, h);
    case SingleQuoted =>
      Regroup("'", t + "'", z);
      SingleRead(c, s, q, g.close, t, h);
    case Bare =>
      BareRead(c, s, q, g.close, t, h);
    case OfProperty =>
      var e := Escape(t, PROPERTY_STOPS);
      Regroup("<", g.inner + (e + ">"), z);
      Regroup(g.inner, e + ">", z);
      Regroup(e, ">", z);
      PropertyRead(c, s, q, g.inner, g.close, t, h);
    case OfVariable =>
      var e := Escape(t, PLAIN_STOPS);
      Regroup("$", g.inner + e, z);
      Regroup(g.inner, e, z);
      VariableRead(c, s, q, g.inner, g.close, t, h);
  }

  lemma ValueStart(f: Form, g: Gaps, t: string)
    requires AllWhite(g) && Closable(f, t, g)
    ensures (ValueText(f, g.inner, t) + (g.close + "}"))[0] !in WHITE
  {
    StopsAre();
    if f == Bare { EscapedStart(t, PLAIN_STOPS); }
  }

  /** The name, the equality sign and the right hand side. */
  lemma NameValueRead(c: Colors, s: string, r: nat, negated: bool, m: Mark, name: string, f: Form, g: Gaps, t: string)
    requires AllWhite(g) && Nameable(negated, m, name) && Closable(f, t, g)
    requires At(s, r, name + (g.equal + ("=" + (g.value + (ValueText(f, g.inner, t) + (g.close + "}"))))))
    ensures r <= |s| && NameTag(c, s, r, HeadOf(negated, m, [], RhsString, []))
         == HeadTag(HeadOf(negated, m, name, RhsOf(f), t),
                    r + |name| + |g.equal| + 1 + |g.value| + |ValueText(f, g.inner, t)| + |g.close| + 1)
  {
    hide At, Seek, NameStop, White, RhsTag, ValueText;
    var v := ValueText(f, g.inner, t) + (g.close + "}");
    NameEnds(s, r, negated, m, name, g.equal, "=" + (g.value + v));
    var p := r + |name| + |g.equal|;
    AtPiece(s, p, "=", g.value + v);
    AtPiece(s, p + 1, g.value, v);
    AtIndex(s, p + 1 + |g.value|, v, 0);
    ValueStart(f, g, t);
    SeekOver(s, p + 1, g.value);
    ValueRead(c, s, p + 1 + |g.value|, f, g, t, HeadOf(negated, m, name, RhsString, []));
  }

  lemma StartIsNoLetter(g: Gaps, negated: bool, m: Mark)
    requires AllWhite(g)
    ensures var x := StartText(g, negated, m); x != [] ==> x[0] != '}' && x[0] != 'e'
  {
  }

  /** Behind the brace there is neither `else}` nor `}`. */
  lemma NoMarkBehind(s: string, p: nat, x: string, negated: bool, m: Mark, name: string, equal: string, after: string)
    requires Nameable(negated, m, name) && White(equal) && after != [] && after[0] in "}="
    requires x != [] ==> x[0] != '}' && x[0] != 'e'
    requires !(x == [] && name == "else" && equal == [] && after[0] == '}')
    requires At(s, p, x + (name + (equal + after)))
    ensures p <= |s| && !StartsWith(s, p, "else}") && !StartsWith(s, p, "}")
  {
    hide At, StartsWith;
    AtBound(s, p, x + (name + (equal + after)));
    AtIndex(s, p, x + (name + (equal + after)), 0);
    if x != [] {
      NotStarts(s, p, "}", 0);
      NotStarts(s, p, "else}", 0);
    } else {
      assert (x + (name + (equal + after)))[0] == name[0];
      NotStarts(s, p, "}", 0);
      AtPiece(s, p, x, name + (equal + after));
      AtPiece(s, p, name, equal + after);
      var n := |name|;
      AtPiece(s, p + n, equal, after);
      AtIndex(s, p + n + |equal|, after, 0);
      if n > 4 {
        AtIndex(s, p, name, 4);
        NotStarts(s, p, "else}", 4);
      } else if equal != [] {
        AtIndex(s, p + n, equal, 0);
        NotStarts(s, p, "else}", n);
      } else if n < 4 || after[0] == '=' {
        NotStarts(s, p, "else}", n);
      } else {
        var k :| 0 <= k < 4 && name[k] != "else"[k];
        AtIndex(s, p, name, k);
        NotStarts(s, p, "else}", k);
      }
    }
  }

  /** `{!$name = "value"}`: every written head is read. */
  lemma HeadIsRead(c: Colors, s: string, pos: nat, g: Gaps, negated: bool, m: Mark, name: string, f: Form, t: string)
    requires AllWhite(g) && Nameable(negated, m, name) && Closable(f, t, g)
    requires At(s, pos, HeadText(g, negated, m, name, f, t))
    ensures pos < |s| && s[pos] == '{'
    ensures TagAt(c, s, pos + 1) == HeadTag(HeadOf(negated, m, name, RhsOf(f), t), pos + |HeadText(g, negated, m, name, f, t)|)
  {
    hide At, StartText, ValueText, MarksTag, NameTag, StartsWith, Nameable, White;
    var x := StartText(g, negated, m);
    var after := "=" + (g.value + (ValueText(f, g.inner, t) + (g.close + "}")));
    var rest := g.equal + after;
    AtPiece(s, pos, "{", x + (name + rest));
    AtIndex(s, pos, "{", 0);
    StartIsNoLetter(g, negated, m);
    NoMarkBehind(s, pos + 1, x, negated, m, name, g.equal, after);
    Regroup(x, name, rest);
    AtPiece(s, pos + 1, x + name, rest);
    StartRead(c, s, pos + 1, g, negated, m, name);
    AtPiece(s, pos + 1, x, name + rest);
    NameValueRead(c, s, pos + 1 + |x|, negated, m, name, f, g, t);
  }

  /** `{!$name}`: without a right hand side the empty text is compared, and the sign is turned. */
  lemma ShortIsRead(c: Colors, s: string, pos: nat, g: Gaps, negated: bool, m: Mark, name: string)
    requires AllWhite(g) && Nameable(negated, m, name) && !(StartText(g, negated, m) == [] && name == "else" && g.equal == [])
    requires At(s, pos, ShortText(g, negated, m, name))
    ensures pos < |s| && s[pos] == '{'
    ensures TagAt(c, s, pos + 1) == HeadTag(HeadOf(!negated, m, name, RhsString, []), pos + |ShortText(g, negated, m, name)|)
  {
    hide At, StartText, MarksTag, NameTag, StartsWith, Nameable, White;
    var x := StartText(g, negated, m);
    var rest := g.equal + "}";
    AtPiece(s, pos, "{", x + (name + rest));
    AtIndex(s, pos, "{", 0);
    StartIsNoLetter(g, negated, m);
    NoMarkBehind(s, pos + 1, x, negated, m, name, g.equal, "}");
    Regroup(x, name, rest);
    AtPiece(s, pos + 1, x + name, rest);
    StartRead(c, s, pos + 1, g, negated, m, name);
    AtPiece(s, pos + 1, x, name + rest);
    ShortNameRead(c, s, pos + 1 + |x|, negated, m, name, g.equal);
  }

  // ---- What is printed ----

  /** What stands on the left of the equality sign: a property, or a variable that may be unset. */
  ghost predicate LeftIs(get: Properties, vars: Variables, m: Mark, name: string, v: string)
  {
    match m
    case NoMark => v == get(name)
    case _ => if name in vars then v == vars[name] else v == ""
  }

  ghost predicate RightIs(get: Properties, vars: Variables, f: Form, t: string, v: string)
  {
    match f
    case OfProperty => v == get(t)
    case OfVariable => if t in vars then v == vars[t] else v == ""
    case _ => v == t
  }

  /** The only node of a text. */
  lemma OneNode(get: Properties, vars: Variables, n: Node)
    ensures Prints(get, vars, [n]) == PrintsNode(get, vars, n)
  {
    hide PrintsNode;
    var r := PrintsNode(get, vars, n);
    assert [n][1..] == [] && r.1 + [] == r.1;
    assert Prints(get, r.0, []) == (r.0, []);
  }

  lemma HeadIsPushed(c: Colors, s: string, h: Head, end: nat)
    requires !c.onlyColors && s != [] && s[0] == '{' && TagAt(c, s, 1) == HeadTag(h, end)
    ensures ParseFrom(c, s, 0, []) == ParseFrom(c, s, end, [Block(h, false, [], [])])
  {
    hide TagAt;
    assert [] + [Block(h, false, [], [])] == [Block(h, false, [], [])];
  }

  lemma ParseAtEnd(c: Colors, s: string, stack: seq<Node>)
    ensures ParseFrom(c, s, |s|, stack) == Parsed(stack)
  {
  }

  /** A condition with the head of which nothing is known but that it is read. */
  lemma ConditionIsBuilt(c: Colors, s: string, h: Head, end: nat, yes: seq<Node>, no: seq<Node>)
    requires !c.onlyColors && !h.isSet && Proper(yes) && Proper(no)
    requires s != [] && s[0] == '{' && end <= |s| && TagAt(c, s, 1) == HeadTag(h, end)
    requires At(s, end, PrintBranches(yes, no)) && end + |PrintBranches(yes, no)| == |s|
    ensures ParseFrom(c, s, 0, []) == Parsed([Canon(Block(h, true, yes, no))])
  {
    hide At, Proper, Canon, PrintBranches, ParseFrom;
    var n := Block(h, true, yes, no);
    HeadIsPushed(c, s, h, end);
    BranchesParse(c, s, end, [], n);
    assert [] + [Block(h, false, [], [])] == [Block(h, false, [], [])] && [] + [Canon(n)] == [Canon(n)];
    ParseAtEnd(c, s, [Canon(n)]);
  }

  /** The branches of what the parser builds print what the written ones do. */
  lemma BuiltPrints(get: Properties, vars: Variables, h: Head, yes: seq<Node>, no: seq<Node>)
    requires !h.isSet
    ensures Prints(get, vars, [Canon(Block(h, true, yes, no))])
         == if Test(get, vars, h) then Prints(get, vars, yes) else Prints(get, vars, no)
  {
    hide Test;
    OneNode(get, vars, Canon(Block(h, true, yes, no)));
    CanonNodePrints(get, vars, Block(h, true, yes, no));
  }

  /** A condition prints its first branch if both sides are equal, and its second one if they
      are not; with a sign it is the other way round. */
  lemma ConditionMeans(c: Colors, get: Properties, vars: Variables, g: Gaps, negated: bool, m: Mark, name: string,
                       f: Form, t: string, yes: seq<Node>, no: seq<Node>, left: string, right: string)
    requires !c.onlyColors && AllWhite(g) && Nameable(negated, m, name) && Closable(f, t, g) && m != SetMark
    requires Proper(yes) && Proper(no) && LeftIs(get, vars, m, name, left) && RightIs(get, vars, f, t, right)
    ensures var o := ParseFrom(c, HeadText(g, negated, m, name, f, t) + PrintBranches(yes, no), 0, []);
      && o.Parsed?
      && (left == right && !negated ==> Prints(get, vars, o.nodes) == Prints(get, vars, yes))
      && (left != right && !negated ==> Prints(get, vars, o.nodes) == Prints(get, vars, no))
      && (left == right && negated ==> Prints(get, vars, o.nodes) == Prints(get, vars, no))
      && (left != right && negated ==> Prints(get, vars, o.nodes) == Prints(get, vars, yes))
  {
    hide ParseFrom, HeadText, PrintBranches, Prints, Nameable, Proper, Canon, TagAt;
    var head := HeadText(g, negated, m, name, f, t);
    var s := head + PrintBranches(yes, no);
    WholeIsAt(head, PrintBranches(yes, no));
    var h := HeadOf(negated, m, name, RhsOf(f), t);
    HeadIsRead(c, s, 0, g, negated, m, name, f, t);
    ConditionIsBuilt(c, s, h, |head|, yes, no);
    BuiltPrints(get, vars, h, yes, no);
  }

  lemma WholeIsAt(a: string, b: string)
    ensures At(a + b, 0, a) && At(a + b, |a|, b)
  {
  }

  /** Without a right hand side, a condition asks whether there is anything. */
  lemma ShortConditionMeans(c: Colors, get: Properties, vars: Variables, g: Gaps, negated: bool, m: Mark, name: string,
                            yes: seq<Node>, no: seq<Node>, left: string)
    requires !c.onlyColors && AllWhite(g) && Nameable(negated, m, name) && m != SetMark
    requires !(StartText(g, negated, m) == [] && name == "else" && g.equal == [])
    requires Proper(yes) && Proper(no) && LeftIs(get, vars, m, name, left)
    ensures var o := ParseFrom(c, ShortText(g, negated, m, name) + PrintBranches(yes, no), 0, []);
      && o.Parsed?
      && (left != "" && !negated ==> Prints(get, vars, o.nodes) == Prints(get, vars, yes))
      && (left == "" && !negated ==> Prints(get, vars, o.nodes) == Prints(get, vars, no))
      && (left != "" && negated ==> Prints(get, vars, o.nodes) == Prints(get, vars, no))
      && (left == "" && negated ==> Prints(get, vars, o.nodes) == Prints(get, vars, yes))
  {
    hide ParseFrom, ShortText, StartText, PrintBranches, Prints, Nameable, Proper, Canon, TagAt;
    var head := ShortText(g, negated, m, name);
    var s := head + PrintBranches(yes, no);
    WholeIsAt(head, PrintBranches(yes, no));
    var h := HeadOf(!negated, m, name, RhsString, []);
    ShortIsRead(c, s, 0, g, negated, m, name);
    ConditionIsBuilt(c, s, h, |head|, yes, no);
    BuiltPrints(get, vars, h, yes, no);
  }

  lemma NothingBehind(s: string)
    ensures Ends(s, |s|)
  {
  }

  lemma AssignPrints(get: Properties, vars: Variables, n: Node)
    requires n.Block? && n.head.isSet
    ensures PrintsNode(get, vars, n) == (Assign(get, vars, n.head), [])
  {
    hide Assign;
  }

  /** A text behind an assignment sees what was assigned. */
  lemma AssignedThen(c: Colors, get: Properties, vars: Variables, s: string, h: Head, end: nat, ns: seq<Node>)
    requires !c.onlyColors && h.isSet && Proper(ns)
    requires s != [] && s[0] == '{' && end <= |s| && TagAt(c, s, 1) == HeadTag(h, end)
    requires At(s, end, PrintNodes(ns)) && end + |PrintNodes(ns)| == |s|
    ensures var o := ParseFrom(c, s, 0, []);
      o.Parsed? && Prints(get, vars, o.nodes) == Prints(get, Assign(get, vars, h), ns)
  {
    hide At, TagAt, Proper, PrintNodes, Assign, CanonAll, ParseFrom, PrintsNode, Ends;
    var b := Block(h, false, [], []);
    HeadIsPushed(c, s, h, end);
    NothingBehind(s);
    NodesParse(c, s, end, [b], ns);
    ParseAtEnd(c, s, [b] + CanonAll(ns));
    assert ([b] + CanonAll(ns))[1..] == CanonAll(ns);
    AssignPrints(get, vars, b);
    var r := Prints(get, Assign(get, vars, h), CanonAll(ns));
    assert [] + r.1 == r.1;
    CanonPrints(get, Assign(get, vars, h), ns);
  }

  /** An assignment prints nothing and sets the variable: to the right hand side, or with a
      sign to "1" if that is empty and to nothing if it is not. */
  lemma AssignmentMeans(c: Colors, get: Properties, vars: Variables, g: Gaps, negated: bool, name: string, f: Form, t: string,
                        ns: seq<Node>, right: string)
    requires !c.onlyColors && AllWhite(g) && Nameable(negated, SetMark, name) && Closable(f, t, g)
    requires Proper(ns) && RightIs(get, vars, f, t, right)
    ensures var o := ParseFrom(c, HeadText(g, negated, SetMark, name, f, t) + PrintNodes(ns), 0, []);
      && o.Parsed?
      && (!negated ==> Prints(get, vars, o.nodes) == Prints(get, vars[name := right], ns))
      && (negated && right == "" ==> Prints(get, vars, o.nodes) == Prints(get, vars[name := "1"], ns))
      && (negated && right != "" ==> Prints(get, vars, o.nodes) == Prints(get, vars[name := ""], ns))
  {
    hide ParseFrom, HeadText, PrintNodes, Prints, Nameable, Proper, TagAt;
    var head := HeadText(g, negated, SetMark, name, f, t);
    WholeIsAt(head, PrintNodes(ns));
    HeadIsRead(c, head + PrintNodes(ns), 0, g, negated, SetMark, name, f, t);
    AssignedThen(c, get, vars, head + PrintNodes(ns), HeadOf(negated, SetMark, name, RhsOf(f), t), |head|, ns);
  }

  /** Without a right hand side an assignment sets a flag, or clears it. */
  lemma FlagMeans(c: Colors, get: Properties, vars: Variables, g: Gaps, negated: bool, name: string, ns: seq<Node>)
    requires !c.onlyColors && AllWhite(g) && Nameable(negated, SetMark, name) && Proper(ns)
    ensures var o := ParseFrom(c, ShortText(g, negated, SetMark, name) + PrintNodes(ns), 0, []);
      o.Parsed? && Prints(get, vars, o.nodes) == Prints(get, vars[name := if negated then "" else "1"], ns)
  {
    hide ParseFrom, ShortText, PrintNodes, Prints, Nameable, Proper, TagAt;
    var head := ShortText(g, negated, SetMark, name);
    WholeIsAt(head, PrintNodes(ns));
    ShortIsRead(c, head + PrintNodes(ns), 0, g, negated, SetMark, name);
    AssignedThen(c, get, vars, head + PrintNodes(ns), HeadOf(!negated, SetMark, name, RhsString, []), |head|, ns);
  }

  /** Text stands for itself, up to the signs of the language, and is followed by what a
      property or a variable is. */
  lemma PropertiesMean(c: Colors, get: Properties, vars: Variables, t: string, name: string)
    requires !c.onlyColors && t != [] && '>' !in name && name != [] && name[0] != '$' && !IsWhite(name[0])
    ensures var o := ParseFrom(c, Escape(t, "<{(") + ("<" + (name + ">")), 0, []);
      o.Parsed? && Prints(get, vars, o.nodes) == (vars, t + get(name))
    ensures var o := ParseFrom(c, Escape(t, "<{(") + ("<" + ("$" + name + ">")), 0, []);
      o.Parsed? && Prints(get, vars, o.nodes) == (vars, t + if name in vars then vars[name] else "")
  {
    TextThenProperty(c, get, vars, t, name, false);
    TextThenProperty(c, get, vars, t, name, true);
  }

  lemma TextThenProperty(c: Colors, get: Properties, vars: Variables, t: string, name: string, user: bool)
    requires !c.onlyColors && t != [] && '>' !in name && name != [] && name[0] != '$' && !IsWhite(name[0])
    ensures var o := ParseFrom(c, Escape(t, "<{(") + ("<" + ((if user then "$" + name else name) + ">")), 0, []);
      o.Parsed? && Prints(get, vars, o.nodes) == (vars, t + PrintsNode(get, vars, Property(name, user)).1)
  {
    hide ParseFrom, Escape;
    var ns := [Text(t), Property(name, user)];
    WhiteIs(name[0]);
    assert ns[1..] == [Property(name, user)] && ns[1..][1..] == [];
    assert PrintNodes(ns) == Escape(t, "<{(") + ("<" + ((if user then "$" + name else name) + ">")) by {
      assert PrintNodes(ns[1..]) == PrintNode(ns[1]) + [];
    }
    assert Proper([ns[1]]) && ns[1..] == [ns[1]];
    ParsedPrintsTheSame(c, ns, get, vars);
    OneNode(get, vars, ns[1]);
  }

  // ---- Escapes, colours and errors ----

  /** What an escape in a text stands for. */
  lemma EscapesMean(c: Colors, ch: char)
    ensures ParseFrom(c, ['\\', ch], 0, []) == Parsed([Text([
      if ch == 'n' then 10 as char else if ch == 'r' then 13 as char else if ch == 't' then 9 as char
      else if ch == 'b' then 8 as char else if ch == 'a' then 7 as char else if ch as int == 0 then '\\' else ch])])
  {
    var s := ['\\', ch];
    assert TextAt(s, 2, StopChars(c)) == ([], 2);
    assert TextPiece(s, 0) == ([GetEscape(ch)], 2);
    assert [GetEscape(ch)] + [] == [GetEscape(ch)];
    assert TextAt(s, 0, StopChars(c)) == ([GetEscape(ch)], 2);
    assert !TextOverruns(s, 2, StopChars(c));
    assert [] + [Text([GetEscape(ch)])] == [Text([GetEscape(ch)])];
    ParseAtEnd(c, s, [Text([GetEscape(ch)])]);
  }

  lemma {:induction false} FindBehind(s: string, at: string, pos: nat, end: nat)
    requires pos <= end < |s| && s[end] in at && forall k :: pos <= k < end ==> s[k] !in at
    ensures FindFirstOf(s, at, pos) == end
    decreases end - pos
  {
    if pos < end { FindBehind(s, at, pos + 1, end); }
  }

  /** A colour is what it stands for, nothing if colours are off, and an error if it is none. */
  lemma ColorsMean(c: Colors, d: string)
    requires ')' !in d
    ensures !c.enabled ==> ParseFrom(c, "(" + d + ")", 0, []) == Parsed([])
    ensures c.enabled && c.colorOf(d).Some? ==> ParseFrom(c, "(" + d + ")", 0, []) == Parsed([Text(c.colorOf(d).value)])
    ensures c.enabled && c.colorOf(d).None? ==> ParseFrom(c, "(" + d + ")", 0, []) == Broken(BadColor)
  {
    hide TagAt, TextAt, TextOverruns, FindFirstOf;
    var s := "(" + d + ")";
    FindBehind(s, ")", 1, |d| + 1);
    assert s[1..|d| + 1] == d;
    ParseAtEnd(c, s, []);
    if c.colorOf(d).Some? {
      assert [] + [Text(c.colorOf(d).value)] == [Text(c.colorOf(d).value)];
      ParseAtEnd(c, s, [Text(c.colorOf(d).value)]);
    }
  }

  lemma {:induction false} PlainTextAt(s: string, pos: nat, stop: string)
    requires pos <= |s| && forall k :: pos <= k < |s| ==> s[k] !in stop && s[k] != '\\'
    ensures TextAt(s, pos, stop) == (s[pos..], |s|) && !TextOverruns(s, pos, stop)
    decreases |s| - pos
  {
    if pos < |s| {
      PlainTextAt(s, pos + 1, stop);
      assert s[pos..] == [s[pos]] + s[pos + 1..];
    }
  }

  /** Where only colours are read, all other signs of the language are text. */
  lemma OnlyColorsMean(c: Colors, s: string)
    requires c.onlyColors && s != [] && '(' !in s && '\\' !in s
    ensures ParseFrom(c, s, 0, []) == Parsed([Text(s)])
  {
    hide TagAt, TextAt, TextOverruns;
    PlainTextAt(s, 0, StopChars(c));
    assert s[0..] == s && [] + [Text(s)] == [Text(s)];
    ParseAtEnd(c, s, [Text(s)]);
  }

  /** One text for each error. */
  lemma OpenTextsFail(c: Colors)
    requires !c.onlyColors
    ensures ParseFrom(c, "(a", 0, []) == Broken(UnclosedColor) && ParseFrom(c, "<a", 0, []) == Broken(UnclosedProperty)
  {
    hide TagAt, TextAt, TextOverruns, FindFirstOf;
    NothingFound("(a", ")", 1);
    NothingFound("<a", ">", 1);
  }

  lemma {:induction false} NothingFound(s: string, at: string, pos: nat)
    requires pos <= |s| && forall k :: pos <= k < |s| ==> s[k] !in at
    ensures FindFirstOf(s, at, pos) == |s|
    decreases |s| - pos
  {
    if pos < |s| { NothingFound(s, at, pos + 1); }
  }

  lemma HeadFails(c: Colors, s: string, e: FormatError)
    requires !c.onlyColors && s != [] && s[0] == '{' && TagAt(c, s, 1) == Bad(e)
    ensures ParseFrom(c, s, 0, []) == Broken(e)
  {
    hide TagAt;
  }

  lemma BadHeadsFail(c: Colors)
    requires !c.onlyColors
    ensures ParseFrom(c, "{=a}", 0, []) == Broken(NoName) && ParseFrom(c, "{a", 0, []) == Broken(UnclosedBlock)
    ensures ParseFrom(c, "{a b}", 0, []) == Broken(UnexpectedSymbol)
  {
    hide ParseFrom, RhsTag;
    NoMarkStarts(c, "{=a}");
    NoMarkStarts(c, "{a");
    NoMarkStarts(c, "{a b}");
    assert NameStop("{=a}", 1) == 1;
    assert NameStop("{a", 2) == 2;
    assert NameStop("{a b}", 2) == 2;
    assert Seek("{a b}", 3) == 3;
    HeadFails(c, "{=a}", NoName);
    HeadFails(c, "{a", UnclosedBlock);
    HeadFails(c, "{a b}", UnexpectedSymbol);
  }

  /** Behind the brace there are no marks. */
  lemma NoMarkStarts(c: Colors, s: string)
    requires |s| > 1 && s[1] !in WHITE && s[1] != '!' && s[1] != '*' && s[1] != '$' && s[1] != '}' && s[1] != 'e'
    ensures TagAt(c, s, 1) == NameTag(c, s, 1, HeadOf(false, NoMark, [], RhsString, []))
  {
    hide NameTag, Seek;
    NotStarts(s, 1, "else}", 0);
    NotStarts(s, 1, "}", 0);
    SeekStays(s, 1);
  }

  lemma StrayMarksFail(c: Colors)
    requires !c.onlyColors
    ensures ParseFrom(c, "a{else}", 0, []) == Broken(ElseWithoutIf) && ParseFrom(c, "a{}", 0, []) == Broken(FiWithoutIf)
  {
    hide TextAt, TextOverruns, TagAt;
    LetterIsText("a{else}");
    LetterIsText("a{}");
    MarkTags(c, "a{else}", 1);
    MarkTags(c, "a{}", 1);
    assert [] + [Text("a")] == [Text("a")];
    assert ParseFrom(c, "a{else}", 0, []) == ParseFrom(c, "a{else}", 1, [Text("a")]);
    assert ParseFrom(c, "a{}", 0, []) == ParseFrom(c, "a{}", 1, [Text("a")]);
  }

  lemma LetterIsText(s: string)
    requires |s| > 1 && s[0] == 'a' && s[1] == '{'
    ensures TextAt(s, 0, "<{(") == ("a", 1) && !TextOverruns(s, 0, "<{(")
  {
    assert TextAt(s, 1, "<{(") == ([], 1);
    assert "a" + [] == "a";
  }

  // ---- Column marks, and colours of right hand sides ----

  /** `\C<12>` marks a column and prints nothing; without a number it is text. */
  lemma ColumnsMean(c: Colors, n: string, t: string)
    requires n != [] && (forall i :: 0 <= i < |n| ==> '0' <= n[i] <= '9')
    requires !c.onlyColors && (forall i :: 0 <= i < |t| ==> t[i] != '<' && t[i] != '{' && t[i] != '(' && t[i] != '\\')
    ensures ParseFrom(c, "\\C<" + (n + (">" + t)), 0, []) == Parsed([Text(t)])
  {
    hide TextOverruns, TextAt, TextPiece, TagAt, FindFirstOf;
    var s := "\\C<" + (n + (">" + t));
    var e := 3 + |n|;
    ColumnLayout(n, t);
    FindBehind(s, ">", 3, e);
    PlainTextAt(s, e + 1, "<{(");
    ColumnPiece(s, e);
    TextBegins(s, "<{(", e + 1);
    assert [] + t == t && [] + [Text(t)] == [Text(t)];
    ParseAtEnd(c, s, [Text(t)]);
  }

  lemma ColumnLayout(n: string, t: string)
    requires n != [] && (forall i :: 0 <= i < |n| ==> '0' <= n[i] <= '9')
    requires forall i :: 0 <= i < |t| ==> t[i] != '<' && t[i] != '{' && t[i] != '(' && t[i] != '\\'
    ensures var s := "\\C<" + (n + (">" + t));
      var e := 3 + |n|;
      && 3 < e < |s| && s[0] == '\\' && s[1] == 'C' && s[2] == '<' && s[e] == '>' && s[e + 1..] == t
      && (forall k :: 3 <= k < e ==> '0' <= s[k] <= '9')
      && forall k :: e + 1 <= k < |s| ==> s[k] !in "<{(" && s[k] != '\\'
  {
    var s := "\\C<" + (n + (">" + t));
    var e := 3 + |n|;
    forall k | 3 <= k < e ensures s[k] == n[k - 3] { }
    forall k | e + 1 <= k < |s| ensures s[k] == t[k - e - 1] { }
  }

  lemma ColumnPiece(s: string, e: nat)
    requires 3 < e < |s| && s[0] == '\\' && s[1] == 'C' && s[2] == '<' && FindFirstOf(s, ">", 3) == e
    requires forall k :: 3 <= k < e ==> '0' <= s[k] <= '9'
    ensures TextPiece(s, 0) == ([], e + 1)
  {
    hide FindFirstOf;
    assert forall k :: 0 <= k < e - 3 ==> s[3..e][k] == s[k + 3];
  }

  lemma TextBegins(s: string, stop: string, p: nat)
    requires s != [] && s[0] !in stop && p <= |s| && TextPiece(s, 0).1 == p && |s| > 1
    ensures TextAt(s, 0, stop) == (TextPiece(s, 0).0 + TextAt(s, p, stop).0, TextAt(s, p, stop).1)
    ensures TextOverruns(s, 0, stop) == TextOverruns(s, p, stop)
  {
    hide TextPiece;
  }

  predicate NamesColor(c: char)
  {
    'a' <= c <= 'z' || 'A' <= c <= 'Z' || '0' <= c <= '9' || c == '|' || c == ',' || c == ';' || c == ':'
  }

  /** A parenthesis in a right hand side without quotes is a colour if only letters, digits, and
      the signs of colours stand in it and they name one; else it is text. */
  lemma RhsColorsMean(c: Colors, d: string, s: string)
    requires s == "(" + d + ")}" && forall i :: 0 <= i < |d| ==> NamesColor(d[i])
    ensures c.colorOf(d).Some? && c.enabled ==> RhsAt(c, s, 0, Plain) == (c.colorOf(d).value, |d| + 2)
    ensures c.colorOf(d).Some? && !c.enabled ==> RhsAt(c, s, 0, Plain) == ([], |d| + 2)
    ensures c.colorOf(d).None? ==> RhsPiece(c, s, 0, Plain) == ("(", 1)
    ensures RhsPiece(c, "(d.)", 0, Plain) == ("(", 1) && RhsPiece(c, s, 0, Double) == ("(", 1)
  {
    var e := |d| + 1;
    assert s[1..e] == d && s[e] == ')' && s[e + 1] == '}';
    forall k | 1 <= k < e ensures IsColorChar(s[k]) { assert s[k] == s[1..e][k - 1]; }
    ColorEndIs(s, 1, e);
    assert ColorEnd("(d.)", 2) == 2 && ColorEnd("(d.)", 1) == 2;
    assert RhsAt(c, s, e + 1, Plain) == ([], e + 1);
    if c.colorOf(d).Some? {
      var v := if c.enabled then c.colorOf(d).value else [];
      assert RhsPiece(c, s, 0, Plain) == (v, e + 1);
      assert v + [] == v;
    }
  }

  lemma {:induction false} ColorEndIs(s: string, pos: nat, end: nat)
    requires pos <= end < |s| && (forall k :: pos <= k < end ==> IsColorChar(s[k])) && s[end] == ')'
    ensures ColorEnd(s, pos) == end
    decreases end - pos
  {
    if pos < end { ColorEndIs(s, pos + 1, end); }
  }
}
