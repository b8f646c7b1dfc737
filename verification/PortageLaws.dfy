/** What files of assignments mean where they are read as portage reads them: sections, and the
escapes of portage. */
module PortageLaws {
  import opened Strings
  import opened NumberCodec
  import opened VarsLanguage
  import opened VarsLaws

  // ---- References without sections ----

  /** A reference without braces goes up to the last key character. */
  lemma BareNameMeans(f: Flags, env: Env, name: string)
    requires Shell(f) && env.section == [] && IsName(name)
    ensures var s := "\"$" + name + "\""; ValueAt(f, env, s, 0, Mode.Bare) == (RefValue(env.vars, name), |s|)
  {
    hide KeyEnd, IsName, ValueAt;
    var s := "\"$" + name + "\"";
    var e := 2 + |name|;
    assert s[2..e] == name && s[e] == '"';
    NameLetters(s, name);
    VarsLaws.KeyEndIs(s, 2, e);
    assert PieceAt(f, env, s, 1, Mode.Double) == (RefValue(env.vars, name), e);
    PieceGives(f, env, s, 1, Mode.Double);
    QuoteGives(f, env, s, 0);
    QuoteGives(f, env, s, e);
    AtTheEnd(f, env, s);
    GivesBoth(f, env, s, 0, Mode.Bare, [], 1, Mode.Double, RefValue(env.vars, name), e, Mode.Double);
    GivesBoth(f, env, s, 0, Mode.Bare, [] + RefValue(env.vars, name), e, Mode.Double, [], e + 1, Mode.Bare);
    assert [] + RefValue(env.vars, name) + [] + [] == RefValue(env.vars, name);
  }

  lemma NameLetters(s: string, name: string)
    requires IsName(name) && 2 + |name| <= |s| && s[2..2 + |name|] == name
    ensures forall k :: 2 <= k < 2 + |name| ==> IsKeyLetter(s[k])
    ensures name != []
  {
    forall k | 2 <= k < 2 + |name| ensures IsKeyLetter(s[k]) { assert s[k] == s[2..2 + |name|][k - 2]; }
  }

  lemma AtTheEnd(f: Flags, env: Env, s: string)
    ensures ValueAt(f, env, s, |s|, Mode.Bare) == ([], |s|)
  {
  }

  lemma PieceGives(f: Flags, env: Env, s: string, pos: nat, mode: Mode)
    requires pos < |s| && s[pos] != '\\' && s[pos] != '\'' && s[pos] != '"' && (mode == Mode.Bare ==> !IsDelimiter(f, s[pos]))
    ensures var p := PieceAt(f, env, s, pos, mode); Gives(f, env, s, pos, mode, p.0, p.1, mode)
  {
    hide PieceAt;
    assert ValueAt(f, env, s, pos, mode) == Then(f, env, s, PieceAt(f, env, s, pos, mode), mode);
  }

  /** Without substitution a dollar is a character. */
  lemma NoSubstitution(f: Flags, env: Env, s: string, pos: nat, mode: Mode)
    requires !f.substVars && !f.portageEscapes && pos < |s| && s[pos] == '$'
    ensures Gives(f, env, s, pos, mode, "$", pos + 1, mode)
  {
    PieceGives(f, env, s, pos, mode);
  }

  // ---- Sections ----

  predicate Sectioned(f: Flags) { f.substVars && f.portageEscapes && f.portageSections && !f.onlyKeywordsSlot }

  /** `${NAME}` and `%(NAME)s` */
  datatype SectionPiece = Plain(text: string) | Braced(name: string) | Percent(name: string)

  function PieceWritten(p: SectionPiece): string
  {
    match p case Plain(t) => t case Braced(n) => RefText(n) case Percent(n) => "%(" + (n + ")s")
  }

  function PiecesWritten(ps: seq<SectionPiece>): string
  {
    if ps == [] then [] else PieceWritten(ps[0]) + PiecesWritten(ps[1..])
  }

  ghost predicate ProperPiece(p: SectionPiece)
  {
    match p
    case Plain(t) => forall i :: 0 <= i < |t| ==> t[i] != '"' && t[i] != '\\' && t[i] != '$' && t[i] != '%' && t[i] != '\n' && t[i] != '\''
    case Braced(n) => IsName(n)
    case Percent(n) => IsName(n)
  }

  /** A variable of the section comes before the one of the same name outside. */
  function InSection(vars: Vars, section: string, name: string): string
  {
    if section != "" && name + section in vars then vars[name + section] else if name in vars then vars[name] else ""
  }

  function PieceMeans(vars: Vars, section: string, p: SectionPiece): string
  {
    match p case Plain(t) => t case Braced(n) => InSection(vars, section, n) case Percent(n) => InSection(vars, section, n)
  }

  function PiecesMean(vars: Vars, section: string, ps: seq<SectionPiece>): string
  {
    if ps == [] then [] else PieceMeans(vars, section, ps[0]) + PiecesMean(vars, section, ps[1..])
  }

  lemma {:induction false} NameEndIs(s: string, pos: nat, end: nat)
    requires pos <= end < |s| && (forall k :: pos <= k < end ==> IsKeyLetter(s[k])) && (s[end] == '}' || s[end] == ')')
    ensures NameEnd(s, pos) == end
    decreases end - pos
  {
    if pos < end { NameEndIs(s, pos + 1, end); }
  }

  lemma BracedRead(f: Flags, env: Env, s: string, pos: nat, name: string)
    requires Sectioned(f) && IsName(name) && At(s, pos, RefText(name))
    ensures Gives(f, env, s, pos, Mode.Double, InSection(env.vars, env.section, name), pos + |RefText(name)|, Mode.Double)
  {
    hide At, NameEnd, ValueAt;
    AtBound(s, pos, RefText(name));
    AtPiece(s, pos, "${", name + "}");
    AtIndex(s, pos, "${", 0);
    AtIndex(s, pos, "${", 1);
    var b := pos + 2;
    var e := b + |name|;
    AtPiece(s, b, name, "}");
    AtIndex(s, e, "}", 0);
    forall k | b <= k < e ensures IsKeyLetter(s[k]) { assert s[k] == name[k - b]; }
    NameEndIs(s, b, e);
    assert s[b..e] == name;
    PieceGives(f, env, s, pos, Mode.Double);
  }

  lemma PercentRead(f: Flags, env: Env, s: string, pos: nat, name: string)
    requires Sectioned(f) && IsName(name) && At(s, pos, "%(" + (name + ")s"))
    ensures Gives(f, env, s, pos, Mode.Double, InSection(env.vars, env.section, name), pos + |name| + 4, Mode.Double)
  {
    hide At, NameEnd, ValueAt;
    AtBound(s, pos, "%(" + (name + ")s"));
    AtPiece(s, pos, "%(", name + ")s");
    AtIndex(s, pos, "%(", 0);
    AtIndex(s, pos, "%(", 1);
    var b := pos + 2;
    var e := b + |name|;
    AtPiece(s, b, name, ")s");
    AtIndex(s, e, ")s", 0);
    AtIndex(s, e, ")s", 1);
    forall k | b <= k < e ensures IsKeyLetter(s[k]) { assert s[k] == name[k - b]; }
    NameEndIs(s, b, e);
    assert s[b..e] == name;
    PieceGives(f, env, s, pos, Mode.Double);
  }

  lemma {:induction false} PlainRead(f: Flags, env: Env, s: string, pos: nat, t: string)
    requires Sectioned(f) && ProperPiece(Plain(t)) && At(s, pos, t)
    ensures Gives(f, env, s, pos, Mode.Double, t, pos + |t|, Mode.Double)
    decreases |t|
  {
    hide At, Gives, ValueAt;
    AtBound(s, pos, t);
    if t == [] {
      GivesNothing(f, env, s, pos, Mode.Double);
    } else {
      assert t == [t[0]] + t[1..];
      AtPiece(s, pos, [t[0]], t[1..]);
      AtIndex(s, pos, [t[0]], 0);
      PieceGives(f, env, s, pos, Mode.Double);
      PlainRead(f, env, s, pos + 1, t[1..]);
      GivesBoth(f, env, s, pos, Mode.Double, [t[0]], pos + 1, Mode.Double, t[1..], pos + |t|, Mode.Double);
    }
  }

  lemma {:induction false} PiecesAreRead(f: Flags, env: Env, s: string, pos: nat, ps: seq<SectionPiece>)
    requires Sectioned(f) && (forall i :: 0 <= i < |ps| ==> ProperPiece(ps[i])) && At(s, pos, PiecesWritten(ps))
    ensures Gives(f, env, s, pos, Mode.Double, PiecesMean(env.vars, env.section, ps), pos + |PiecesWritten(ps)|, Mode.Double)
    decreases |ps|
  {
    hide At, Gives, ProperPiece, PieceWritten, PieceMeans;
    AtBound(s, pos, PiecesWritten(ps));
    if ps == [] {
      GivesNothing(f, env, s, pos, Mode.Double);
    } else {
      var u := PieceWritten(ps[0]);
      AtPiece(s, pos, u, PiecesWritten(ps[1..]));
      PieceIsRead(f, env, s, pos, ps[0]);
      PiecesAreRead(f, env, s, pos + |u|, ps[1..]);
      GivesBoth(f, env, s, pos, Mode.Double, PieceMeans(env.vars, env.section, ps[0]), pos + |u|, Mode.Double,
                PiecesMean(env.vars, env.section, ps[1..]), pos + |PiecesWritten(ps)|, Mode.Double);
    }
  }

  lemma PieceIsRead(f: Flags, env: Env, s: string, pos: nat, p: SectionPiece)
    requires Sectioned(f) && ProperPiece(p) && At(s, pos, PieceWritten(p))
    ensures Gives(f, env, s, pos, Mode.Double, PieceMeans(env.vars, env.section, p), pos + |PieceWritten(p)|, Mode.Double)
  {
    hide At, Gives, IsName, InSection, RefText;
    match p
    case Plain(t) => PlainRead(f, env, s, pos, t);
    case Braced(n) => BracedRead(f, env, s, pos, n);
    case Percent(n) => PercentRead(f, env, s, pos, n);
  }

  /** An opening and a closing quote. */
  lemma QuotesOpen(f: Flags, env: Env, s: string, pos: nat)
    requires pos < |s| && s[pos] == '"'
    ensures Gives(f, env, s, pos, Mode.Bare, [], pos + 1, Mode.Double) && Gives(f, env, s, pos, Mode.Double, [], pos + 1, Mode.Bare)
  {
    GivesNothing(f, env, s, pos + 1, Mode.Bare);
    GivesNothing(f, env, s, pos + 1, Mode.Double);
  }

  lemma {:induction false} SpacedKeyIs(s: string, pos: nat, end: nat)
    requires pos <= end < |s| && (forall k :: pos <= k < end ==> IsKeyLetter(s[k])) && (s[end] == '=' || s[end] == ':')
    ensures SpacedKeyEnd(s, pos) == end
    decreases end - pos
  {
    if pos < end { SpacedKeyIs(s, pos + 1, end); }
  }

  function SetText(key: string, sign: string, ps: seq<SectionPiece>): string
  {
    key + (sign + ("\"" + (PiecesWritten(ps) + "\"\n")))
  }

  /** An assignment within a section sets the variable of that section. */
  lemma SetInSection(c: Config, s: string, pos: nat, key: string, sign: string, ps: seq<SectionPiece>, env: Env)
    requires Sectioned(c.flags) && IsVariable(key) && (sign == "=" || sign == ":")
    requires (forall i :: 0 <= i < |ps| ==> ProperPiece(ps[i])) && At(s, pos, SetText(key, sign, ps))
    ensures pos + |SetText(key, sign, ps)| <= |s|
    ensures ReadFrom(c, s, pos, env) == ReadFrom(c, s, pos + |SetText(key, sign, ps)|,
                                                 env.(vars := env.vars[key + env.section := PiecesMean(env.vars, env.section, ps)]))
  {
    hide At, ReadFrom, Gives, IsName, IsVariable, ProperPiece, PiecesWritten, PiecesMean, KeyAt, LineAt, NoiseEnd, ValueAt;
    var f, v := c.flags, PiecesMean(env.vars, env.section, ps);
    SetLayout(s, pos, key, sign, PiecesWritten(ps));
    var q := pos + |key|;
    var e := q + 2 + |PiecesWritten(ps)|;
    KeyIsFound(f, s, pos, key);
    PiecesAreRead(f, env, s, q + 2, ps);
    QuotedValue(f, env, s, q + 1, v, e);
    VarsReader.LineReads(c, s, pos, env);
    assert ValueFor(f, env, s, q) == ValueOf(v, e + 1);
    NewlineEnds(s, e + 1);
    assert ReadKey(c, s, pos, env) == ReadValue(c, s, q, env, Variable(pos, |key|))
      == AfterValue(c, s, e + 1, Assign(c, s, env, Variable(pos, |key|), v));
  }

  lemma NewlineEnds(s: string, e: nat)
    requires e < |s| && s[e] == '\n'
    ensures NoiseEnd(s, e) == e + 1
  {
  }

  /** Where the parts of an assignment stand. */
  lemma SetLayout(s: string, pos: nat, key: string, sign: string, t: string)
    requires (sign == "=" || sign == ":") && At(s, pos, key + (sign + ("\"" + (t + "\"\n"))))
    ensures var q := pos + |key|;
      var e := q + 2 + |t|;
      && e + 2 <= |s| && s[pos..q] == key && (s[q] == '=' || s[q] == ':') && s[q + 1] == '"' && At(s, q + 2, t)
      && s[e] == '"' && s[e + 1] == '\n'
  {
    hide At;
    AtBound(s, pos, key + (sign + ("\"" + (t + "\"\n"))));
    AtPiece(s, pos, key, sign + ("\"" + (t + "\"\n")));
    var q := pos + |key|;
    AtPiece(s, q, sign, "\"" + (t + "\"\n"));
    AtIndex(s, q, sign, 0);
    AtPiece(s, q + 1, "\"", t + "\"\n");
    AtIndex(s, q + 1, "\"", 0);
    AtPiece(s, q + 2, t, "\"\n");
    AtIndex(s, q + 2 + |t|, "\"\n", 0);
    AtIndex(s, q + 2 + |t|, "\"\n", 1);
  }

  lemma KeyIsFound(f: Flags, s: string, pos: nat, key: string)
    requires Sectioned(f) && IsVariable(key) && pos + |key| < |s| && s[pos..pos + |key|] == key
    requires s[pos + |key|] == '=' || s[pos + |key|] == ':'
    ensures LineAt(f, s, pos) == KeyLine(pos) && KeyAt(f, s, pos) == KeyOf(|key|, pos + |key|)
  {
    hide FindFirstOf, AlphaEnd, SpacedKeyEnd;
    KeyStands(s, pos, key);
    SpacedKeyIs(s, pos, pos + |key|);
  }

  lemma KeyStands(s: string, pos: nat, key: string)
    requires IsVariable(key) && pos + |key| <= |s| && s[pos..pos + |key|] == key
    ensures pos < |s| && s[pos] == key[0] && forall k :: pos <= k < pos + |key| ==> IsKeyLetter(s[k])
  {
    forall k | pos <= k < pos + |key| ensures s[k] == key[k - pos] { assert s[k] == s[pos..pos + |key|][k - pos]; }
  }

  lemma QuotedValue(f: Flags, env: Env, s: string, pos: nat, v: string, e: nat)
    requires pos + 1 <= e && e + 1 < |s| && s[pos] == '"' && s[e] == '"' && s[e + 1] == '\n'
    requires Gives(f, env, s, pos + 1, Mode.Double, v, e, Mode.Double)
    ensures ValueAt(f, env, s, pos, Mode.Bare) == (v, e + 1)
  {
    QuotesOpen(f, env, s, pos);
    QuotesOpen(f, env, s, e);
    assert ValueAt(f, env, s, e + 1, Mode.Bare) == ([], e + 1);
    assert v + [] == v;
  }

  /** The name of a section that has no escapes. */
  predicate IsSection(name: string)
  {
    && (name != [] ==> name[0] != ' ' && name[0] != '\t')
    && forall i :: 0 <= i < |name| ==> name[i] != ']' && name[i] != '\\' && name[i] != '\r' && name[i] != '\n'
  }

  lemma {:induction false} HeaderRead(s: string, pos: nat, name: string)
    requires At(s, pos, name + "]") && forall i :: 0 <= i < |name| ==> name[i] != ']' && name[i] != '\\' && name[i] != '\r' && name[i] != '\n'
    ensures pos + |name| < |s| && HeaderAt(s, pos) == Header(name, pos + |name|, true) && s[pos + |name|] == ']'
    decreases |name|
  {
    AtBound(s, pos, name + "]");
    AtIndex(s, pos, name + "]", 0);
    if name != [] {
      assert name + "]" == [name[0]] + (name[1..] + "]");
      AtPiece(s, pos, [name[0]], name[1..] + "]");
      HeaderRead(s, pos + 1, name[1..]);
      assert [name[0]] + name[1..] == name;
    }
  }

  /** What the name of a section does: DEFAULT leaves the section as it is. */
  function Entered(section: string, name: string): string { if name == "DEFAULT" then section else ":" + name }

  lemma SectionRead(c: Config, s: string, pos: nat, name: string, env: Env)
    requires Sectioned(c.flags) && IsSection(name) && At(s, pos, "[" + (name + "]\n"))
    ensures pos + |name| + 3 <= |s|
    ensures ReadFrom(c, s, pos, env) == ReadFrom(c, s, pos + |name| + 3, env.(section := Entered(env.section, name)))
  {
    hide At, ReadFrom, FindFirstOf, AlphaEnd, HeaderAt;
    AtBound(s, pos, "[" + (name + "]\n"));
    AtPiece(s, pos, "[", name + "]\n");
    AtIndex(s, pos, "[", 0);
    assert name + "]\n" == (name + "]") + "\n";
    AtPiece(s, pos + 1, name + "]", "\n");
    AtIndex(s, pos + 1, name + "]", 0);
    AtIndex(s, pos + 1 + |name + "]"|, "\n", 0);
    HeaderRead(s, pos + 1, name);
    assert SkipBlank(s, pos + 1) == pos + 1;
    assert NoiseEnd(s, pos + 1 + |name|) == pos + |name| + 3;
    VarsReader.LineReads(c, s, pos, env);
    assert LineAt(c.flags, s, pos) == SectionLine(pos + 1);
  }

  /** A section with one assignment: which variable is set, and what references in its value mean. */
  lemma SectionMeans(c: Config, name: string, key: string, sign: string, ps: seq<SectionPiece>, env: Env)
    requires Sectioned(c.flags) && IsSection(name) && IsVariable(key) && (sign == "=" || sign == ":")
    requires forall i :: 0 <= i < |ps| ==> ProperPiece(ps[i])
    ensures var section := Entered(env.section, name);
      ReadFrom(c, "[" + (name + "]\n") + SetText(key, sign, ps), 0, env)
      == Reading(true, env.(section := section, vars := env.vars[key + section := PiecesMean(env.vars, section, ps)]))
  {
    hide At, ReadFrom, ProperPiece, PiecesMean, IsSection, IsVariable, SetText, Sectioned;
    var head, text := "[" + (name + "]\n"), SetText(key, sign, ps);
    var s := head + text;
    TextsAre(head, text);
    SectionRead(c, s, 0, name, env);
    var e := env.(section := Entered(env.section, name));
    SetInSection(c, s, |head|, key, sign, ps, e);
    VarsReader.EndReads(c, s, e.(vars := e.vars[key + e.section := PiecesMean(e.vars, e.section, ps)]));
  }

  lemma TextsAre(a: string, b: string)
    ensures At(a + b, 0, a) && At(a + b, |a|, b)
  {
  }

  // ---- Escapes ----

  /** What a letter behind a backslash stands for. */
  function Control(c: char): char
  {
    match c
    case 'a' => 7 as char
    case 'b' => 8 as char
    case 't' => 9 as char
    case 'n' => 10 as char
    case 'f' => 10 as char
    case 'v' => 11 as char
    case 'r' => 13 as char
    case 'e' => 27 as char
    case _ => c
  }

  /** Between quotes there is nothing but one escape. */
  lemma EscapeAlone(f: Flags, env: Env, s: string, mode: Mode, v: string)
    requires f.portageEscapes && |s| >= 3 && ((s[0] == '"' && mode == Mode.Double) || (s[0] == '\'' && mode == Mode.Single))
    requires s[1] == '\\' && s[|s| - 1] == s[0] && EscapeAt(f, s, 2, mode) == (v, |s| - 1)
    ensures ValueAt(f, env, s, 0, Mode.Bare) == (v, |s|)
  {
    hide EscapeAt;
    var n := |s| - 1;
    AtTheEnd(f, env, s);
    assert ValueAt(f, env, s, n, mode) == ([], |s|);
    assert ValueAt(f, env, s, 1, mode) == Then(f, env, s, EscapeAt(f, s, 2, mode), mode);
    assert v + [] == v;
  }

  /** In quotes one backslash makes a control character, and a newline disappears. */
  lemma ShortEscapesMean(f: Flags, env: Env, c: char, q: char)
    requires f.portageEscapes && (q == '"' || q == '\'') && (q == '"' ==> c != '\\')
    ensures var s := [q, '\\', c, q]; ValueAt(f, env, s, 0, Mode.Bare) == (if c == '\n' then [] else [Control(c)], 4)
  {
    var s := [q, '\\', c, q];
    EscapeAlone(f, env, s, if q == '"' then Mode.Double else Mode.Single, if c == '\n' then [] else [Control(c)]);
  }

  /** In double quotes two backslashes are one, three keep one of them, and four are one. */
  lemma LongEscapesMean(f: Flags, env: Env, c: char)
    requires f.portageEscapes && c != '\\'
    ensures var s := "\"\\\\" + [c, '"'];
      ValueAt(f, env, s, 0, Mode.Bare) == (if c == '\n' then [] else [Control(c)], 5)
    ensures var s := "\"\\\\\\" + [c, '"'];
      ValueAt(f, env, s, 0, Mode.Bare) == (if c == '\n' then "\\ " else ['\\', c], 6)
    ensures ValueAt(f, env, "\"\\\\\\\\\"", 0, Mode.Bare) == ("\\", 6)
  {
    EscapeAlone(f, env, "\"\\\\" + [c, '"'], Mode.Double, if c == '\n' then [] else [Control(c)]);
    EscapeAlone(f, env, "\"\\\\\\" + [c, '"'], Mode.Double, if c == '\n' then "\\ " else ['\\', c]);
    EscapeAlone(f, env, "\"\\\\\\\\\"", Mode.Double, "\\");
  }

  /** A dollar behind an escape is a character. */
  lemma DollarBehindEscape(f: Flags, env: Env, c: char)
    requires f.portageEscapes && c != '\\' && c != '\n'
    ensures ValueAt(f, env, ['"', '\\', c, '$', '"'], 0, Mode.Bare) == ([Control(c), '$'], 5)
    ensures ValueAt(f, env, ['\\', c, '$'], 0, Mode.Bare) == ([c, '$'], 3)
  {
    assert [Control(c)] + "$" == [Control(c), '$'] && [c] + "$" == [c, '$'] && [] + [c] == [c];
    EscapeAlone(f, env, ['"', '\\', c, '$', '"'], Mode.Double, [Control(c), '$']);
    BareEscapeAlone(f, env, ['\\', c, '$'], [c, '$']);
  }

  lemma BareEscapeAlone(f: Flags, env: Env, s: string, v: string)
    requires f.portageEscapes && |s| >= 2 && s[0] == '\\' && EscapeAt(f, s, 1, Mode.Bare) == (v, |s|)
    ensures ValueAt(f, env, s, 0, Mode.Bare) == (v, |s|)
  {
    hide EscapeAt;
    AtTheEnd(f, env, s);
    assert ValueAt(f, env, s, 0, Mode.Bare) == Then(f, env, s, EscapeAt(f, s, 1, Mode.Bare), Mode.Bare);
    assert v + [] == v;
  }

  /** Outside of quotes one backslash quotes, and two or three make a control character. */
  lemma BareEscapesMean(f: Flags, env: Env, c: char)
    requires f.portageEscapes && c != '\\'
    ensures ValueAt(f, env, ['\\', c], 0, Mode.Bare) == (if c == '\n' then [] else [c], 2)
    ensures ValueAt(f, env, ['\\', '\\', c], 0, Mode.Bare) == (if c == '\n' || c == '\r' then "\\" else [Control(c)], 3)
    ensures ValueAt(f, env, ['\\', '\\', '\\', c], 0, Mode.Bare) == (if c == '\n' || c == '\r' then "" else [Control(c)], 4)
  {
    assert "\\" + "" == "\\" && "" + "" == "" && "" + [Control(c)] == [Control(c)];
    BareEscapeAlone(f, env, ['\\', c], if c == '\n' then [] else [c]);
    BareEscapeAlone(f, env, ['\\', '\\', c], if c == '\n' || c == '\r' then "\\" else [Control(c)]);
    BareEscapeAlone(f, env, ['\\', '\\', '\\', c], if c == '\n' || c == '\r' then "" else [Control(c)]);
  }

  /** A newline in quotes is a blank. */
  lemma NewlineInQuotes(f: Flags, env: Env)
    requires f.portageEscapes
    ensures ValueAt(f, env, "\"\n\"", 0, Mode.Bare) == (" ", 3)
  {
    var s := "\"\n\"";
    PieceGives(f, env, s, 1, Mode.Double);
    QuotesOpen(f, env, s, 0);
    QuotesOpen(f, env, s, 2);
    AtTheEnd(f, env, s);
    assert PieceAt(f, env, s, 1, Mode.Double) == (" ", 2);
    assert " " + [] == " " && [] + " " == " ";
    assert ValueAt(f, env, s, 2, Mode.Double) == ([], 3);
    assert ValueAt(f, env, s, 1, Mode.Double) == (" ", 3);
  }

  // ---- What else is different in sections ----

  /** A line that starts with a semicolon is a comment. */
  lemma SemicolonMeans(c: Config, t: string, env: Env)
    requires Sectioned(c.flags) && '\n' !in t
    ensures ReadFrom(c, ";" + (t + "\n"), 0, env) == Reading(true, env)
  {
    hide FindFirstOf, ReadFrom, AlphaEnd;
    var s := ";" + (t + "\n");
    TextsAre(";", t + "\n");
    CommentIsOver(s, 1, t);
    VarsReader.LineReads(c, s, 0, env);
    assert NoiseEnd(s, |s| - 1) == |s|;
    VarsReader.EndReads(c, s, env);
  }

  lemma {:induction false} LettersPassed(s: string, pos: nat, end: nat)
    requires pos <= end <= |s| && forall k :: pos <= k < end ==> IsKeyLetter(s[k])
    ensures SpacedKeyEnd(s, pos) == SpacedKeyEnd(s, end)
    decreases end - pos
  {
    if pos < end { LettersPassed(s, pos + 1, end); }
  }

  /** A key may have blanks inside; those behind it do not belong to it. */
  lemma SpacedKeyMeans(a: string, w: string, b: string, g: string)
    requires IsName(a) && IsName(b) && w != [] && Blanks(w) && Blanks(g)
    ensures SpacedKeyEnd(a + (w + (b + (g + "="))), 0) == |a| + |w| + |b|
  {
    hide *;
    SpacedLayout(a, w, b, g);
    SpacedKeyAt(a + (w + (b + (g + "="))), a, w, b, g);
  }

  lemma SpacedKeyAt(s: string, a: string, w: string, b: string, g: string)
    requires IsName(a) && IsName(b) && w != [] && Blanks(w) && Blanks(g)
    requires At(s, 0, a) && At(s, |a|, w) && At(s, |a| + |w|, b) && At(s, |a| + |w| + |b|, g) && At(s, |a| + |w| + |b| + |g|, "=")
    ensures SpacedKeyEnd(s, 0) == |a| + |w| + |b|
  {
    hide *;
    var p, q := |a|, |a| + |w|;
    var e := q + |b|;
    LettersAt(s, 0, a);
    LettersAt(s, q, b);
    SignBehind(s, e, g);
    BlanksBefore(s, p, w);
    LettersPassed(s, 0, p);
    LettersPassed(s, q, e);
    KeyStopsAt(s, p, q);
    KeyStopsAt(s, e, e + |g|);
  }

  lemma SpacedLayout(a: string, w: string, b: string, g: string)
    ensures var s := a + (w + (b + (g + "=")));
      At(s, 0, a) && At(s, |a|, w) && At(s, |a| + |w|, b) && At(s, |a| + |w| + |b|, g) && At(s, |a| + |w| + |b| + |g|, "=")
  {
    hide At;
    var s := a + (w + (b + (g + "=")));
    TextsAre(a, w + (b + (g + "=")));
    AtPiece(s, |a|, w, b + (g + "="));
    AtPiece(s, |a| + |w|, b, g + "=");
    AtPiece(s, |a| + |w| + |b|, g, "=");
  }

  lemma LettersAt(s: string, p: nat, a: string)
    requires IsName(a) && At(s, p, a)
    ensures p < p + |a| <= |s| && forall k :: p <= k < p + |a| ==> IsKeyLetter(s[k])
  {
    AtSlice(s, p, a);
    forall k | p <= k < p + |a| ensures IsKeyLetter(s[k]) { assert s[k] == s[p..p + |a|][k - p]; }
  }

  lemma BlanksBefore(s: string, p: nat, w: string)
    requires w != [] && Blanks(w) && At(s, p, w) && p + |w| < |s| && IsKeyLetter(s[p + |w|])
    ensures SkipBlank(s, p) == p + |w| && !IsKeyLetter(s[p])
  {
    hide SkipBlank;
    AtIndex(s, p, w, 0);
    SkipOver(s, p, w);
  }

  lemma SignBehind(s: string, p: nat, g: string)
    requires Blanks(g) && At(s, p, g) && At(s, p + |g|, "=")
    ensures p + |g| < |s| && SkipBlank(s, p) == p + |g| && !IsKeyLetter(s[p]) && !IsKeyLetter(s[p + |g|])
  {
    hide SkipBlank;
    AtBound(s, p + |g|, "=");
    AtIndex(s, p + |g|, "=", 0);
    if g != [] { AtIndex(s, p, g, 0); }
    SkipOver(s, p, g);
  }

  lemma KeyStopsAt(s: string, p: nat, q: nat)
    requires p <= q < |s| && SkipBlank(s, p) == q && !IsKeyLetter(s[p])
    ensures SpacedKeyEnd(s, p) == if p < q && IsKeyLetter(s[q]) then SpacedKeyEnd(s, q) else p
  {
  }

  /** One backslash in the name of a section quotes, and two make a control character. */
  lemma SectionEscapesMean(ch: char)
    requires ch != '\\' && ch != '\r' && ch != '\n'
    ensures HeaderAt(['\\', ch, ']'], 0) == Header([ch], 2, true)
    ensures HeaderAt(['\\', '\\', ch, ']'], 0) == Header([Control(ch)], 3, true)
  {
    assert HeaderAt(['\\', ch, ']'], 2) == Header([], 2, true) && HeaderAt(['\\', '\\', ch, ']'], 3) == Header([], 3, true);
    assert [ch] + [] == [ch] && [Control(ch)] + [] == [Control(ch)];
  }

  /** What ends a value elsewhere is a part of it where portage's escapes are read, and blanks
      behind the sign are skipped. */
  lemma PortageValues(f: Flags, env: Env)
    requires f.portageEscapes
    ensures ValueAt(f, env, "a;|&)b", 0, Mode.Bare) == ("a;|&)b", 6)
    ensures ValueFor(f, env, "= b\n", 0) == ValueOf("b", 3)
  {
    var s, t := "a;|&)b", "= b\n";
    AtTheEnd(f, env, s);
    RunOfText(f, env, s, 0);
    assert s[0..] == s && s + [] == s;
    assert ValueAt(f, env, t, 3, Mode.Bare) == ([], 3);
    PieceGives(f, env, t, 2, Mode.Bare);
    assert SkipBlank(t, 2) == 2 && SkipBlank(t, 1) == 2;
    assert "b" + [] == "b";
  }

  lemma {:induction false} RunOfText(f: Flags, env: Env, s: string, pos: nat)
    requires f.portageEscapes && pos <= |s| && forall k :: pos <= k < |s| ==> s[k] in "ab;|&)"
    ensures Gives(f, env, s, pos, Mode.Bare, s[pos..], |s|, Mode.Bare)
    decreases |s| - pos
  {
    if pos == |s| {
      GivesNothing(f, env, s, pos, Mode.Bare);
    } else {
      PieceGives(f, env, s, pos, Mode.Bare);
      RunOfText(f, env, s, pos + 1);
      GivesBoth(f, env, s, pos, Mode.Bare, [s[pos]], pos + 1, Mode.Bare, s[pos + 1..], |s|, Mode.Bare);
      assert [s[pos]] + s[pos + 1..] == s[pos..];
    }
  }

  /** In sections a reference needs braces. Any character other than a closing parenthesis is
      passed over together with the next one. */
  lemma SectionReferences(f: Flags, env: Env)
    requires Sectioned(f)
    ensures Reference(f, env, "$a", 0) == ("$", 1)
    ensures SectionReference(env, "%(a?s", 0) == ("%", 1) && SectionReference(env, "%(a)", 0) == ("%", 1)
    ensures SectionReference(env, "%(a?xs", 0) == (InSection(env.vars, env.section, "a"), 6)
  {
    NameOfOne("%(a?s");
    NameOfOne("%(a)");
    NameOfOne("%(a?xs");
    assert "%(a?xs"[2..3] == "a";
  }

  lemma NameOfOne(s: string)
    requires |s| > 3 && s[2] == 'a' && (s[3] == '?' || s[3] == ')')
    ensures NameEnd(s, 2) == 3
  {
    assert NameEnd(s, 3) == 3;
  }
}
