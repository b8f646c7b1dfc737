/** What files of assignments mean: scripts as they are written, and the variables they leave. */
module VarsLaws {
  import opened Strings
  import opened NumberCodec
  import opened VarsLanguage
  import VarsReader
  import D = DumpRoundTrip

  // ---- Values as they are written ----

  predicate IsKeyLetter(c: char) { 'a' <= c <= 'z' || 'A' <= c <= 'Z' || '0' <= c <= '9' || c == '_' || c == '-' }

  predicate IsName(name: string) { name != [] && forall i :: 0 <= i < |name| ==> IsKeyLetter(name[i]) }

  /** A piece within double quotes. */
  datatype Piece = Lit(text: string) | Ref(name: string)

  /** A piece of a value: quoted in one of two ways, escaped, or a reference. */
  datatype Chunk = Quoted(ps: seq<Piece>) | Single(text: string) | Word(text: string) | BareRef(name: string)

  function RefText(name: string): string { "${" + (name + "}") }

  function PieceText(p: Piece): string
  {
    match p case Lit(t) => Escape(t, "\"$\\") case Ref(n) => RefText(n)
  }

  function PiecesText(ps: seq<Piece>): string
  {
    if ps == [] then [] else PieceText(ps[0]) + PiecesText(ps[1..])
  }

  function ChunkText(k: Chunk): string
  {
    match k
    case Quoted(ps) => "\"" + (PiecesText(ps) + "\"")
    case Single(t) => "'" + (Escape(t, "'") + "'")
    case Word(t) => Escape(t, " \t\r#;|&)'\"$")
    case BareRef(n) => RefText(n)
  }

  function ChunksText(ks: seq<Chunk>): string
  {
    if ks == [] then [] else ChunkText(ks[0]) + ChunksText(ks[1..])
  }

  ghost predicate ProperPieces(ps: seq<Piece>) { forall i :: 0 <= i < |ps| ==> ps[i].Ref? ==> IsName(ps[i].name) }

  /** An escaped newline is no newline, so a word has none. */
  ghost predicate ProperChunk(k: Chunk)
  {
    match k
    case Quoted(ps) => ProperPieces(ps)
    case Single(_) => true
    case Word(t) => '\n' !in t
    case BareRef(n) => IsName(n)
  }

  ghost predicate ProperChunks(ks: seq<Chunk>) { forall i :: 0 <= i < |ks| ==> ProperChunk(ks[i]) }

  // ---- What they stand for ----

  function RefValue(vars: Vars, name: string): string { if name in vars then vars[name] else "" }

  function PieceValue(vars: Vars, p: Piece): string
  {
    match p case Lit(t) => t case Ref(n) => RefValue(vars, n)
  }

  function PiecesValue(vars: Vars, ps: seq<Piece>): string
  {
    if ps == [] then [] else PieceValue(vars, ps[0]) + PiecesValue(vars, ps[1..])
  }

  function ChunkValue(vars: Vars, k: Chunk): string
  {
    match k
    case Quoted(ps) => PiecesValue(vars, ps)
    case Single(t) => t
    case Word(t) => t
    case BareRef(n) => RefValue(vars, n)
  }

  function ChunksValue(vars: Vars, ks: seq<Chunk>): string
  {
    if ks == [] then [] else ChunkValue(vars, ks[0]) + ChunksValue(vars, ks[1..])
  }

  // ---- Literals ----

  predicate Shell(f: Flags) { f.substVars && !f.portageEscapes && !f.portageSections }

  /** Characters that need no escape in a mode. */
  ghost predicate Safe(f: Flags, mode: Mode, at: string)
  {
    forall c :: c !in at && c != '\\' && (mode == Mode.Bare ==> c != '\n') ==>
      && !(mode == Mode.Bare && (IsDelimiter(f, c) || c == '\'' || c == '"'))
      && !(mode == Mode.Single && c == '\'') && !(mode == Mode.Double && c == '"') && !Refers(f, mode, c)
  }

  lemma ModesAreSafe(f: Flags)
    requires Shell(f)
    ensures Safe(f, Mode.Double, "\"$\\") && Safe(f, Mode.Single, "'") && Safe(f, Mode.Bare, " \t\r#;|&)'\"$")
  {
  }

  lemma CharRead(f: Flags, env: Env, s: string, pos: nat, c: char, at: string, mode: Mode)
    requires Shell(f) && Safe(f, mode, at) && '\n' !in at && (mode == Mode.Bare ==> c != '\n')
    requires At(s, pos, EscapeChar(c, at))
    ensures var next := pos + |EscapeChar(c, at)|;
      pos < next <= |s| && ValueAt(f, env, s, pos, mode) == ([c] + ValueAt(f, env, s, next, mode).0, ValueAt(f, env, s, next, mode).1)
  {
    hide Reference, SectionReference;
    AtBound(s, pos, EscapeChar(c, at));
    AtIndex(s, pos, EscapeChar(c, at), 0);
    if c in at || c == '\\' { AtIndex(s, pos, EscapeChar(c, at), 1); }
    assert ValueAt(f, env, s, pos, mode) == Then(f, env, s, ([c], pos + |EscapeChar(c, at)|), mode);
  }

  /** The value from `pos` on is `v`, followed by the value from `end` on. */
  ghost predicate Gives(f: Flags, env: Env, s: string, pos: nat, mode: Mode, v: string, end: nat, after: Mode)
  {
    pos <= end <= |s| && ValueAt(f, env, s, pos, mode) == (v + ValueAt(f, env, s, end, after).0, ValueAt(f, env, s, end, after).1)
  }

  lemma GivesNothing(f: Flags, env: Env, s: string, pos: nat, mode: Mode)
    requires pos <= |s|
    ensures Gives(f, env, s, pos, mode, [], pos, mode)
  {
    var v := ValueAt(f, env, s, pos, mode).0;
    assert [] + v == v;
  }

  lemma GivesBoth(f: Flags, env: Env, s: string, pos: nat, m: Mode, v: string, mid: nat, n: Mode, w: string, end: nat, o: Mode)
    requires Gives(f, env, s, pos, m, v, mid, n) && Gives(f, env, s, mid, n, w, end, o)
    ensures Gives(f, env, s, pos, m, v + w, end, o)
  {
    Regroup(v, w, ValueAt(f, env, s, end, o).0);
  }

  lemma {:induction false} LiteralRead(f: Flags, env: Env, s: string, pos: nat, t: string, at: string, mode: Mode)
    requires Shell(f) && Safe(f, mode, at) && '\n' !in at && (mode == Mode.Bare ==> '\n' !in t) && At(s, pos, Escape(t, at))
    ensures Gives(f, env, s, pos, mode, t, pos + |Escape(t, at)|, mode)
    decreases |t|
  {
    hide At, ValueAt, Safe, Gives;
    AtBound(s, pos, Escape(t, at));
    if t == [] {
      GivesNothing(f, env, s, pos, mode);
    } else {
      var u := EscapeChar(t[0], at);
      AtPiece(s, pos, u, Escape(t[1..], at));
      CharGives(f, env, s, pos, t[0], at, mode);
      LiteralRead(f, env, s, pos + |u|, t[1..], at, mode);
      GivesBoth(f, env, s, pos, mode, [t[0]], pos + |u|, mode, t[1..], pos + |Escape(t, at)|, mode);
      assert [t[0]] + t[1..] == t;
    }
  }

  lemma CharGives(f: Flags, env: Env, s: string, pos: nat, c: char, at: string, mode: Mode)
    requires Shell(f) && Safe(f, mode, at) && '\n' !in at && (mode == Mode.Bare ==> c != '\n') && At(s, pos, EscapeChar(c, at))
    ensures Gives(f, env, s, pos, mode, [c], pos + |EscapeChar(c, at)|, mode)
  {
    hide ValueAt, At, Safe;
    CharRead(f, env, s, pos, c, at, mode);
  }

  // ---- References ----

  lemma {:induction false} KeyEndIs(s: string, pos: nat, end: nat)
    requires pos <= end <= |s| && (forall k :: pos <= k < end ==> IsKeyLetter(s[k])) && (end < |s| ==> !IsKeyLetter(s[end]))
    ensures KeyEnd(s, pos) == end
    decreases end - pos
  {
    if pos < end { KeyEndIs(s, pos + 1, end); }
  }

  lemma RefRead(f: Flags, env: Env, s: string, pos: nat, name: string, mode: Mode)
    requires Shell(f) && mode != Mode.Single && env.section == [] && IsName(name) && At(s, pos, RefText(name))
    ensures Gives(f, env, s, pos, mode, RefValue(env.vars, name), pos + |RefText(name)|, mode)
  {
    hide At, KeyEnd;
    AtBound(s, pos, RefText(name));
    AtPiece(s, pos, "${", name + "}");
    AtIndex(s, pos, "${", 0);
    AtIndex(s, pos, "${", 1);
    var b := pos + 2;
    var e := b + |name|;
    AtPiece(s, b, name, "}");
    AtIndex(s, e, "}", 0);
    forall k | b <= k < e ensures IsKeyLetter(s[k]) { assert s[k] == name[k - b]; }
    KeyEndIs(s, b, e);
    assert s[b..e] == name;
    assert PieceAt(f, env, s, pos, mode) == (RefValue(env.vars, name), e + 1);
    assert ValueAt(f, env, s, pos, mode) == Then(f, env, s, (RefValue(env.vars, name), e + 1), mode);
  }

  // ---- Values ----

  lemma {:induction false} PiecesRead(f: Flags, env: Env, s: string, pos: nat, ps: seq<Piece>)
    requires Shell(f) && env.section == [] && ProperPieces(ps) && At(s, pos, PiecesText(ps))
    ensures Gives(f, env, s, pos, Mode.Double, PiecesValue(env.vars, ps), pos + |PiecesText(ps)|, Mode.Double)
    decreases |ps|
  {
    hide At, Gives, IsName, PieceText, PieceValue;
    AtBound(s, pos, PiecesText(ps));
    if ps == [] {
      GivesNothing(f, env, s, pos, Mode.Double);
    } else {
      var u := PieceText(ps[0]);
      AtPiece(s, pos, u, PiecesText(ps[1..]));
      PieceRead(f, env, s, pos, ps[0]);
      PiecesRead(f, env, s, pos + |u|, ps[1..]);
      GivesBoth(f, env, s, pos, Mode.Double, PieceValue(env.vars, ps[0]), pos + |u|, Mode.Double,
                PiecesValue(env.vars, ps[1..]), pos + |PiecesText(ps)|, Mode.Double);
    }
  }

  lemma PieceRead(f: Flags, env: Env, s: string, pos: nat, p: Piece)
    requires Shell(f) && env.section == [] && (p.Ref? ==> IsName(p.name)) && At(s, pos, PieceText(p))
    ensures Gives(f, env, s, pos, Mode.Double, PieceValue(env.vars, p), pos + |PieceText(p)|, Mode.Double)
  {
    hide At, Gives, IsName, Safe, RefValue, RefText;
    ModesAreSafe(f);
    match p
    case Lit(t) => LiteralRead(f, env, s, pos, t, "\"$\\", Mode.Double);
    case Ref(n) => RefRead(f, env, s, pos, n, Mode.Double);
  }

  /** Opening and closing quotes add nothing. */
  lemma QuoteGives(f: Flags, env: Env, s: string, pos: nat)
    requires Shell(f) && pos < |s|
    ensures s[pos] == '"' ==> Gives(f, env, s, pos, Mode.Bare, [], pos + 1, Mode.Double) && Gives(f, env, s, pos, Mode.Double, [], pos + 1, Mode.Bare)
    ensures s[pos] == '\'' ==> Gives(f, env, s, pos, Mode.Bare, [], pos + 1, Mode.Single) && Gives(f, env, s, pos, Mode.Single, [], pos + 1, Mode.Bare)
  {
    GivesNothing(f, env, s, pos + 1, Mode.Bare);
    GivesNothing(f, env, s, pos + 1, Mode.Single);
    GivesNothing(f, env, s, pos + 1, Mode.Double);
  }

  /** A text in quotes. */
  lemma InQuotes(f: Flags, env: Env, s: string, pos: nat, q: string, u: string, v: string, mode: Mode)
    requires Shell(f) && ((q == "\"" && mode == Mode.Double) || (q == "'" && mode == Mode.Single)) && At(s, pos, q + (u + q))
    requires pos + 1 <= |s| && Gives(f, env, s, pos + 1, mode, v, pos + 1 + |u|, mode)
    ensures Gives(f, env, s, pos, Mode.Bare, v, pos + |u| + 2, Mode.Bare)
  {
    hide At, Gives;
    AtBound(s, pos, q + (u + q));
    AtPiece(s, pos, q, u + q);
    AtIndex(s, pos, q, 0);
    AtPiece(s, pos + 1, u, q);
    AtIndex(s, pos + 1 + |u|, q, 0);
    QuoteGives(f, env, s, pos);
    QuoteGives(f, env, s, pos + 1 + |u|);
    GivesBoth(f, env, s, pos, Mode.Bare, [], pos + 1, mode, v, pos + 1 + |u|, mode);
    GivesBoth(f, env, s, pos, Mode.Bare, [] + v, pos + 1 + |u|, mode, [], pos + |u| + 2, Mode.Bare);
    assert [] + v + [] == v;
  }

  lemma ChunkRead(f: Flags, env: Env, s: string, pos: nat, k: Chunk)
    requires Shell(f) && env.section == [] && ProperChunk(k) && At(s, pos, ChunkText(k))
    ensures Gives(f, env, s, pos, Mode.Bare, ChunkValue(env.vars, k), pos + |ChunkText(k)|, Mode.Bare)
  {
    hide At, Gives, IsName, Safe, RefValue, RefText, Escape;
    AtBound(s, pos, ChunkText(k));
    ModesAreSafe(f);
    match k
    case Quoted(ps) =>
      AtPiece(s, pos, "\"", PiecesText(ps) + "\"");
      AtPiece(s, pos + 1, PiecesText(ps), "\"");
      PiecesRead(f, env, s, pos + 1, ps);
      InQuotes(f, env, s, pos, "\"", PiecesText(ps), PiecesValue(env.vars, ps), Mode.Double);
    case Single(t) =>
      var e := Escape(t, "'");
      AtPiece(s, pos, "'", e + "'");
      AtPiece(s, pos + 1, e, "'");
      LiteralRead(f, env, s, pos + 1, t, "'", Mode.Single);
      InQuotes(f, env, s, pos, "'", e, t, Mode.Single);
    case Word(t) => LiteralRead(f, env, s, pos, t, " \t\r#;|&)'\"$", Mode.Bare);
    case BareRef(n) => RefRead(f, env, s, pos, n, Mode.Bare);
  }

  lemma {:induction false} ChunksRead(f: Flags, env: Env, s: string, pos: nat, ks: seq<Chunk>)
    requires Shell(f) && env.section == [] && ProperChunks(ks) && At(s, pos, ChunksText(ks))
    ensures Gives(f, env, s, pos, Mode.Bare, ChunksValue(env.vars, ks), pos + |ChunksText(ks)|, Mode.Bare)
    decreases |ks|
  {
    hide At, Gives, ChunkText, ChunkValue, ProperChunk;
    AtBound(s, pos, ChunksText(ks));
    if ks == [] {
      GivesNothing(f, env, s, pos, Mode.Bare);
    } else {
      var u := ChunkText(ks[0]);
      AtPiece(s, pos, u, ChunksText(ks[1..]));
      ChunkRead(f, env, s, pos, ks[0]);
      ChunksRead(f, env, s, pos + |u|, ks[1..]);
      GivesBoth(f, env, s, pos, Mode.Bare, ChunkValue(env.vars, ks[0]), pos + |u|, Mode.Bare,
                ChunksValue(env.vars, ks[1..]), pos + |ChunksText(ks)|, Mode.Bare);
    }
  }

  // ---- Lines as they are written ----

  predicate Blanks(w: string) { forall i :: 0 <= i < |w| ==> w[i] == ' ' || w[i] == '\t' }

  /** An assignment has blanks in front of its key and of the sign, and a tail behind its value. */
  datatype Line = Comment(blank: string, text: string) | Set(blank: string, key: string, gap: string, ks: seq<Chunk>, tail: string)

  function LineText(l: Line): string
  {
    match l
    case Comment(w, t) => w + ("#" + (t + "\n"))
    case Set(w, key, g, ks, tail) => w + (key + (g + ("=" + (ChunksText(ks) + (tail + "\n")))))
  }

  /** What is ignored behind a value: nothing, or text behind a character that ends it. */
  predicate IsTail(tail: string)
  {
    && (tail != [] ==> tail[0] == ' ' || tail[0] == '\t' || tail[0] == '\r' || tail[0] == '#' || tail[0] == ';' || tail[0] == '|'
                       || tail[0] == '&' || tail[0] == ')')
    && forall i :: 0 <= i < |tail| ==> tail[i] != '\n' && tail[i] != '\\' && tail[i] != '"' && tail[i] != '\''
  }

  /** Keys start with a letter that is no small s, or with an underscore. */
  predicate IsVariable(key: string)
  {
    IsName(key) && ('a' <= key[0] <= 'z' || 'A' <= key[0] <= 'Z' || key[0] == '_') && key[0] != 's'
  }

  ghost predicate ProperLine(l: Line)
  {
    match l
    case Comment(w, t) => Blanks(w) && '\n' !in t
    case Set(w, key, g, ks, tail) => Blanks(w) && IsVariable(key) && Blanks(g) && ProperChunks(ks) && IsTail(tail)
  }

  /** Without a value, a blank or a comment behind the sign makes the line none at all. */
  predicate NoValueIn(l: Line)
  {
    l.Set? && ChunksText(l.ks) == [] && l.tail != [] && (l.tail[0] == ' ' || l.tail[0] == '\t' || l.tail[0] == '#')
  }

  function LineVars(vars: Vars, l: Line): Vars
  {
    match l
    case Comment(_, _) => vars
    case Set(_, key, _, ks, _) => if NoValueIn(l) then vars else vars[key := ChunksValue(vars, ks)]
  }

  function ScriptText(ls: seq<Line>): string
  {
    if ls == [] then [] else LineText(ls[0]) + ScriptText(ls[1..])
  }

  function ScriptVars(vars: Vars, ls: seq<Line>): Vars
    decreases |ls|
  {
    if ls == [] then vars else ScriptVars(LineVars(vars, ls[0]), ls[1..])
  }

  // ---- Lines are read ----

  lemma {:induction false} SkipOver(s: string, p: nat, w: string)
    requires At(s, p, w) && Blanks(w) && p + |w| < |s| && !IsBlank(s[p + |w|])
    ensures SkipBlank(s, p) == p + |w|
    decreases |w|
  {
    if w != [] {
      AtIndex(s, p, w, 0);
      assert w == [w[0]] + w[1..];
      AtPiece(s, p, [w[0]], w[1..]);
      SkipOver(s, p + 1, w[1..]);
    }
  }

  /** Ignored text ends with its line, whether it is a comment or not. */
  lemma {:induction false} TailIsNoise(s: string, p: nat, tail: string)
    requires At(s, p, tail + "\n")
    requires forall i :: 0 <= i < |tail| ==> tail[i] != '\n' && tail[i] != '\\' && tail[i] != '"' && tail[i] != '\''
    ensures var end := p + |tail| + 1; end <= |s| && NoiseEnd(s, p) == end
    decreases |tail|
  {
    AtBound(s, p, tail + "\n");
    AtIndex(s, p, tail + "\n", 0);
    if tail != [] {
      assert tail + "\n" == [tail[0]] + (tail[1..] + "\n");
      AtPiece(s, p, [tail[0]], tail[1..] + "\n");
      if tail[0] == '#' { CommentIsOver(s, p + 1, tail[1..]); } else { TailIsNoise(s, p + 1, tail[1..]); }
    }
  }

  lemma {:induction false} CommentIsOver(s: string, p: nat, t: string)
    requires At(s, p, t + "\n") && '\n' !in t
    ensures var end := p + |t| + 1; end <= |s| && CommentEnd(s, p) == end && FindFirstOf(s, "\n", p) == end - 1 && s[end - 1] == '\n'
    decreases |t|
  {
    AtBound(s, p, t + "\n");
    AtIndex(s, p, t + "\n", 0);
    if t != [] {
      assert t + "\n" == [t[0]] + (t[1..] + "\n");
      AtPiece(s, p, [t[0]], t[1..] + "\n");
      CommentIsOver(s, p + 1, t[1..]);
    }
  }

  lemma CommentRead(c: Config, s: string, pos: nat, w: string, t: string, env: Env)
    requires Blanks(w) && '\n' !in t && At(s, pos, w + ("#" + (t + "\n")))
    ensures var end := pos + |w| + |t| + 2; pos <= end <= |s| && ReadFrom(c, s, pos, env) == ReadFrom(c, s, end, env)
  {
    hide At, Blanks, FindFirstOf, CommentEnd, SkipBlank, ReadFrom;
    AtBound(s, pos, w + ("#" + (t + "\n")));
    AtPiece(s, pos, w, "#" + (t + "\n"));
    var p := pos + |w|;
    AtPiece(s, p, "#", t + "\n");
    AtIndex(s, p, "#", 0);
    SkipOver(s, pos, w);
    CommentIsOver(s, p + 1, t);
    VarsReader.LineReads(c, s, pos, env);
  }

  /** Where the parts of an assignment stand. */
  ghost predicate Laid(s: string, pos: nat, l: Line, p: nat, q: nat, v: nat, t: nat)
    requires l.Set?
  {
    && p == pos + |l.blank| && q == p + |l.key| + |l.gap| && v == q + 1 && t == v + |ChunksText(l.ks)| && t < |s|
    && At(s, pos, l.blank) && At(s, p, l.key) && At(s, p + |l.key|, l.gap) && s[q] == '='
    && At(s, v, ChunksText(l.ks)) && At(s, t, l.tail + "\n") && s[v] == (ChunksText(l.ks) + (l.tail + "\n"))[0]
    && s[t] == (l.tail + "\n")[0]
  }

  lemma SetIsLaid(s: string, pos: nat, l: Line)
    requires l.Set? && At(s, pos, LineText(l))
    ensures var p := pos + |l.blank|;
      var q := p + |l.key| + |l.gap|;
      Laid(s, pos, l, p, q, q + 1, q + 1 + |ChunksText(l.ks)|)
  {
    hide At, ChunksText;
    PartsLaid(s, pos, l.blank, l.key, l.gap, ChunksText(l.ks), l.tail + "\n");
  }

  lemma PartsLaid(s: string, pos: nat, w: string, key: string, g: string, v: string, z: string)
    requires At(s, pos, w + (key + (g + ("=" + (v + z))))) && z != []
    ensures var p := pos + |w|;
      var q := p + |key| + |g|;
      var t := q + 1 + |v|;
      && t < |s| && At(s, pos, w) && At(s, p, key) && At(s, p + |key|, g) && s[q] == '=' && At(s, q + 1, v) && At(s, t, z)
      && s[q + 1] == (v + z)[0] && s[t] == z[0]
  {
    hide At;
    AtPiece(s, pos, w, key + (g + ("=" + (v + z))));
    var p := pos + |w|;
    AtPiece(s, p, key, g + ("=" + (v + z)));
    AtPiece(s, p + |key|, g, "=" + (v + z));
    var q := p + |key| + |g|;
    AtPiece(s, q, "=", v + z);
    AtIndex(s, q, "=", 0);
    AtIndex(s, q + 1, v + z, 0);
    AtPiece(s, q + 1, v, z);
    AtBound(s, q + 1 + |v|, z);
    AtIndex(s, q + 1 + |v|, z, 0);
  }

  /** The key of an assignment is found, and the sign behind it. */
  lemma KeyFound(c: Config, s: string, pos: nat, l: Line, p: nat, q: nat, v: nat, t: nat)
    requires Shell(c.flags) && l.Set? && ProperLine(l) && Laid(s, pos, l, p, q, v, t)
    ensures LineAt(c.flags, s, pos) == KeyLine(p) && KeyAt(c.flags, s, p) == KeyOf(|l.key|, q) && s[p..p + |l.key|] == l.key
  {
    hide At, Blanks, KeyEnd, SkipBlank, FindFirstOf, AlphaEnd, ChunksText;
    var e := p + |l.key|;
    AtIndex(s, p, l.key, 0);
    SkipOver(s, pos, l.blank);
    forall k | p <= k < e ensures IsKeyLetter(s[k]) { AtIndex(s, p, l.key, k - p); }
    GapIsBlank(s, e, l.gap);
    KeyEndIs(s, p, e);
    SkipOver(s, e, l.gap);
    AtSlice(s, p, l.key);
  }

  lemma AtSlice(s: string, p: nat, t: string)
    requires At(s, p, t)
    ensures p + |t| <= |s| && s[p..p + |t|] == t
  {
  }

  lemma GapIsBlank(s: string, e: nat, gap: string)
    requires At(s, e, gap) && Blanks(gap) && e + |gap| < |s| && s[e + |gap|] == '='
    ensures e < |s| && !IsKeyLetter(s[e])
  {
    if gap != [] { AtIndex(s, e, gap, 0); }
  }

  /** What can stand behind the sign. */
  lemma ValueStarts(l: Line)
    requires l.Set? && ProperLine(l)
    ensures var z := ChunksText(l.ks) + (l.tail + "\n");
      && (ChunksText(l.ks) != [] ==> z[0] != '#' && !IsBlank(z[0]))
      && (z[0] in "'\"\\" ==> |ChunksText(l.ks)| > 1)
  {
    hide ChunkValue;
    var ks := l.ks;
    if ChunksText(ks) != [] { StartOfChunks(ks); }
  }

  lemma {:induction false} StartOfChunks(ks: seq<Chunk>)
    requires ProperChunks(ks) && ChunksText(ks) != []
    ensures ChunksText(ks)[0] != '#' && !IsBlank(ChunksText(ks)[0])
    ensures ChunksText(ks)[0] in "'\"\\" ==> |ChunksText(ks)| > 1
  {
    if ChunkText(ks[0]) == [] { StartOfChunks(ks[1..]); } else { StartOfChunk(ks[0]); }
  }

  lemma StartOfChunk(k: Chunk)
    requires ProperChunk(k) && ChunkText(k) != []
    ensures ChunkText(k)[0] != '#' && !IsBlank(ChunkText(k)[0])
    ensures ChunkText(k)[0] in "'\"\\" ==> |ChunkText(k)| > 1
  {
    if k.Word? { StartOfEscaped(k.text, " \t\r#;|&)'\"$"); }
  }

  lemma StartOfEscaped(t: string, at: string)
    requires Escape(t, at) != []
    ensures t != [] && Escape(t, at)[0] == (if t[0] in at || t[0] == '\\' then '\\' else t[0])
    ensures Escape(t, at)[0] == '\\' ==> |Escape(t, at)| > 1
  {
  }

  /** The value of an assignment, and where it ends. */
  lemma ValueFound(c: Config, s: string, pos: nat, l: Line, p: nat, q: nat, v: nat, t: nat, env: Env)
    requires Shell(c.flags) && env.section == [] && l.Set? && ProperLine(l) && Laid(s, pos, l, p, q, v, t)
    requires !NoValueIn(l)
    ensures ValueFor(c.flags, env, s, q) == ValueOf(ChunksValue(env.vars, l.ks), t)
  {
    hide At, ValueAt, ProperChunks, ChunksText, ChunksValue, IsVariable, Blanks, SkipBlank;
    var f, value := c.flags, ChunksValue(env.vars, l.ks);
    ChunksRead(f, env, s, v, l.ks);
    DelimiterStops(f, env, s, t, l.tail);
    assert value + [] == value;
    ValueStarts(l);
  }

  lemma DelimiterStops(f: Flags, env: Env, s: string, t: nat, tail: string)
    requires Shell(f) && IsTail(tail) && t < |s| && s[t] == (tail + "\n")[0]
    ensures ValueAt(f, env, s, t, Mode.Bare) == ([], t)
  {
  }

  /** Without a value there is no assignment. */
  lemma NoValueFound(c: Config, s: string, pos: nat, l: Line, p: nat, q: nat, v: nat, t: nat, env: Env)
    requires Shell(c.flags) && l.Set? && ProperLine(l) && Laid(s, pos, l, p, q, v, t)
    requires NoValueIn(l)
    ensures ValueFor(c.flags, env, s, q) == NoValue(t + |l.tail| + 1)
  {
    hide ChunksText;
    TailIsNoise(s, t, l.tail);
  }

  /** What an assignment leaves, by what the program does with it. */
  lemma SetRead(c: Config, s: string, pos: nat, l: Line, env: Env)
    requires Shell(c.flags) && env.section == [] && l.Set? && ProperLine(l) && At(s, pos, LineText(l))
    requires !NoValueIn(l)
    ensures var p := pos + |l.blank|;
      var t := p + |l.key| + |l.gap| + 1 + |ChunksText(l.ks)|;
      && p + |l.key| <= |s| && s[p..p + |l.key|] == l.key && t <= |s|
      && NoiseEnd(s, t) == pos + |LineText(l)| <= |s|
      && ReadFrom(c, s, pos, env) == AfterValue(c, s, t, Assign(c, s, env, Variable(p, |l.key|), ChunksValue(env.vars, l.ks)))
  {
    hide At, LineAt, KeyAt, ValueFor, NoiseEnd, ChunksText, ChunksValue, ProperLine, ReadFrom, Assign, AfterValue;
    SetIsLaid(s, pos, l);
    var p := pos + |l.blank|;
    var q := p + |l.key| + |l.gap|;
    var t := q + 1 + |ChunksText(l.ks)|;
    KeyFound(c, s, pos, l, p, q, q + 1, t);
    ValueFound(c, s, pos, l, p, q, q + 1, t, env);
    ProperTail(l);
    TailIsNoise(s, t, l.tail);
    VarsReader.LineReads(c, s, pos, env);
  }

  lemma ProperTail(l: Line)
    requires l.Set? && ProperLine(l)
    ensures forall i :: 0 <= i < |l.tail| ==> l.tail[i] != '\n' && l.tail[i] != '\\' && l.tail[i] != '"' && l.tail[i] != '\''
  {
  }

  lemma NoSetRead(c: Config, s: string, pos: nat, l: Line, env: Env)
    requires Shell(c.flags) && l.Set? && ProperLine(l) && At(s, pos, LineText(l))
    requires NoValueIn(l)
    ensures pos + |LineText(l)| <= |s| && ReadFrom(c, s, pos, env) == ReadFrom(c, s, pos + |LineText(l)|, env)
  {
    hide At, LineAt, KeyAt, ValueFor, ChunksText, ProperLine, ReadFrom;
    AtBound(s, pos, LineText(l));
    SetIsLaid(s, pos, l);
    var p := pos + |l.blank|;
    var q := p + |l.key| + |l.gap|;
    var t := q + 1 + |ChunksText(l.ks)|;
    KeyFound(c, s, pos, l, p, q, q + 1, t);
    NoValueFound(c, s, pos, l, p, q, q + 1, t, env);
    VarsReader.LineReads(c, s, pos, env);
  }

  lemma LineRead(c: Config, s: string, pos: nat, l: Line, env: Env)
    requires Shell(c.flags) && !c.flags.onlyKeywordsSlot && env.section == [] && ProperLine(l) && At(s, pos, LineText(l))
    ensures pos + |LineText(l)| <= |s|
    ensures ReadFrom(c, s, pos, env) == ReadFrom(c, s, pos + |LineText(l)|, env.(vars := LineVars(env.vars, l)))
  {
    hide At, ChunksText, ChunksValue, ProperLine, ReadFrom;
    AtBound(s, pos, LineText(l));
    if l.Comment? || NoValueIn(l) {
      LineSkipped(c, s, pos, l, env);
    } else {
      SetRead(c, s, pos, l, env);
      assert l.key + [] == l.key;
    }
  }

  lemma ProperComment(l: Line)
    requires l.Comment? && ProperLine(l)
    ensures Blanks(l.blank) && '\n' !in l.text
  {
  }

  lemma {:induction false} LinesRead(c: Config, s: string, pos: nat, ls: seq<Line>, env: Env)
    requires Shell(c.flags) && !c.flags.onlyKeywordsSlot && env.section == [] && At(s, pos, ScriptText(ls))
    requires forall i :: 0 <= i < |ls| ==> ProperLine(ls[i])
    ensures pos + |ScriptText(ls)| <= |s|
    ensures ReadFrom(c, s, pos, env) == ReadFrom(c, s, pos + |ScriptText(ls)|, env.(vars := ScriptVars(env.vars, ls)))
    decreases |ls|
  {
    hide At, ProperLine, ReadFrom, LineText, LineVars;
    AtBound(s, pos, ScriptText(ls));
    if ls != [] {
      AtPiece(s, pos, LineText(ls[0]), ScriptText(ls[1..]));
      LineRead(c, s, pos, ls[0], env);
      LinesRead(c, s, pos + |LineText(ls[0])|, ls[1..], env.(vars := LineVars(env.vars, ls[0])));
    }
  }

  /** A script of comments and assignments leaves the variables that its lines set one after the
      other; references see what was set before. */
  lemma ScriptMeans(c: Config, ls: seq<Line>, env: Env)
    requires Shell(c.flags) && !c.flags.onlyKeywordsSlot && env.section == []
    requires forall i :: 0 <= i < |ls| ==> ProperLine(ls[i])
    ensures ReadFrom(c, ScriptText(ls), 0, env) == Reading(true, env.(vars := ScriptVars(env.vars, ls)))
  {
    hide ReadFrom, ProperLine, ScriptText, ScriptVars;
    var s := ScriptText(ls);
    assert s[0..|s|] == s;
    LinesRead(c, s, 0, ls, env);
    VarsReader.EndReads(c, s, env.(vars := ScriptVars(env.vars, ls)));
  }

  // ---- Keywords and slot only ----

  /** What is known after a script where only keywords and slot are wanted: reading stops with
      the line by which both are known. A blank in front of the sign hides the name of a key. */
  function UntilBoth(env: Env, ls: seq<Line>): Env
    decreases |ls|
  {
    if ls == [] then env
    else if ls[0].Comment? || NoValueIn(ls[0]) then UntilBoth(env, ls[1..])
    else
      var e := env.(vars := env.vars[ls[0].key := ChunksValue(env.vars, ls[0].ks)]);
      if ls[0].key == "KEYWORDS" && ls[0].gap == "" then
        (if env.slotRead then e.(keywordsRead := true) else UntilBoth(e.(keywordsRead := true), ls[1..]))
      else if ls[0].key == "SLOT" && ls[0].gap == "" then
        (if env.keywordsRead then e.(slotRead := true) else UntilBoth(e.(slotRead := true), ls[1..]))
      else UntilBoth(e, ls[1..])
  }

  lemma {:induction false} StartsAtIs(s: string, p: nat, t: string)
    requires p <= |s|
    ensures StartsAt(s, p, t) <==> p + |t| <= |s| && s[p..p + |t|] == t
    decreases |t|
  {
    if t != [] && p < |s| {
      StartsAtIs(s, p + 1, t[1..]);
      assert t == [t[0]] + t[1..];
      if p + |t| <= |s| { assert s[p..p + |t|] == [s[p]] + s[p + 1..p + |t|]; }
    }
  }

  /** The name of a key is compared up to its sign. */
  lemma NameOfKey(s: string, p: nat, key: string, gap: string, name: string)
    requires IsName(key) && Blanks(gap) && IsName(name) && At(s, p, key + (gap + "="))
    ensures StartsAt(s, p, name + "=") <==> key == name && gap == ""
  {
    var t, u := key + (gap + "="), name + "=";
    var q := |key| + |gap|;
    StartsAtIs(s, p, u);
    AtSlice(s, p, t);
    forall k | 0 <= k < |t| ensures s[p + k] == t[k] { assert s[p..p + |t|][k] == s[p + k]; }
    if key == name && gap == "" {
      assert t == u;
    }
    if p + |u| <= |s| && s[p..p + |u|] == u {
      forall k | 0 <= k < |u| ensures s[p + k] == u[k] { assert s[p..p + |u|][k] == s[p + k]; }
      SameSign(t, q, u);
      NoGap(key, gap, name);
    }
  }

  lemma NoGap(key: string, gap: string, name: string)
    requires Blanks(gap) && IsName(name) && key + (gap + "=") == name + "="
    ensures gap == "" && key == name
  {
    var t, u := key + (gap + "="), name + "=";
    assert gap == [] || gap[0] == ' ' || gap[0] == '\t';
    assert forall i :: 0 <= i < |u| ==> u[i] != ' ' && u[i] != '\t';
    forall j | 0 <= j < |gap| ensures gap[j] != ' ' && gap[j] != '\t' { assert gap[j] == t[|key| + j]; }
    assert |key| == |name| ==> key == t[..|key|] && name == u[..|name|];
  }

  /** Two texts that agree have their first signs at the same place. */
  lemma SameSign(t: string, q: nat, u: string)
    requires q + 1 == |t| && t[q] == '=' && (forall k :: 0 <= k < q ==> t[k] != '=')
    requires u != [] && u[|u| - 1] == '=' && (forall k :: 0 <= k < |u| - 1 ==> u[k] != '=')
    requires forall k :: 0 <= k < |t| && k < |u| ==> t[k] == u[k]
    ensures t == u
  {
    assert q < |u| ==> u[q] == t[q];
    assert |u| - 1 < |t| ==> t[|u| - 1] == u[|u| - 1];
  }

  lemma KeyStands(s: string, pos: nat, l: Line)
    requires l.Set? && ProperLine(l) && At(s, pos, LineText(l))
    ensures At(s, pos + |l.blank|, l.key + (l.gap + "=")) && IsName(l.key) && Blanks(l.gap)
  {
    hide At, ChunksText;
    var z := ChunksText(l.ks) + (l.tail + "\n");
    AtPiece(s, pos, l.blank, l.key + (l.gap + ("=" + z)));
    Regroup(l.gap, "=", z);
    Regroup(l.key, l.gap + "=", z);
    AtPiece(s, pos + |l.blank|, l.key + (l.gap + "="), z);
  }

  lemma LineUntilBoth(c: Config, s: string, pos: nat, l: Line, env: Env)
    requires Shell(c.flags) && c.flags.onlyKeywordsSlot && env.section == [] && l.Set? && !NoValueIn(l) && ProperLine(l)
    requires At(s, pos, LineText(l))
    ensures pos + |LineText(l)| <= |s|
    ensures var end := pos + |LineText(l)|;
      var e := env.(vars := env.vars[l.key := ChunksValue(env.vars, l.ks)]);
      ReadFrom(c, s, pos, env)
      == if l.key == "KEYWORDS" && l.gap == "" then
           (if env.slotRead then Reading(true, e.(keywordsRead := true)) else ReadFrom(c, s, end, e.(keywordsRead := true)))
         else if l.key == "SLOT" && l.gap == "" then
           (if env.keywordsRead then Reading(true, e.(slotRead := true)) else ReadFrom(c, s, end, e.(slotRead := true)))
         else ReadFrom(c, s, end, e)
  {
    hide At, ReadFrom, ProperLine, ChunksText, ChunksValue, NoiseEnd, LineText, StartsAt, IsName;
    SetRead(c, s, pos, l, env);
    KeyStands(s, pos, l);
    assert IsName("KEYWORDS") && IsName("SLOT") by { NamesAre(); }
    NameOfKey(s, pos + |l.blank|, l.key, l.gap, "KEYWORDS");
    NameOfKey(s, pos + |l.blank|, l.key, l.gap, "SLOT");
    assert "KEYWORDS" + "=" == "KEYWORDS=" && "SLOT" + "=" == "SLOT=";
  }

  lemma NamesAre()
    ensures IsName("KEYWORDS") && IsName("SLOT")
  {
  }

  lemma {:induction false} LinesUntilBoth(c: Config, s: string, pos: nat, ls: seq<Line>, env: Env)
    requires Shell(c.flags) && c.flags.onlyKeywordsSlot && env.section == [] && At(s, pos, ScriptText(ls))
    requires pos + |ScriptText(ls)| == |s| && forall i :: 0 <= i < |ls| ==> ProperLine(ls[i])
    ensures ReadFrom(c, s, pos, env) == Reading(true, UntilBoth(env, ls))
    decreases |ls|
  {
    hide At, ProperLine, ReadFrom, LineText, NoValueIn, ChunksValue;
    if ls == [] {
      VarsReader.EndReads(c, s, env);
    } else {
      var l, rest := ls[0], ls[1..];
      AtPiece(s, pos, LineText(l), ScriptText(rest));
      var end := pos + |LineText(l)|;
      assert forall i :: 0 <= i < |rest| ==> rest[i] == ls[i + 1];
      if l.Comment? || NoValueIn(l) {
        LineSkipped(c, s, pos, l, env);
        LinesUntilBoth(c, s, end, rest, env);
      } else {
        LineUntilBoth(c, s, pos, l, env);
        var e := env.(vars := env.vars[l.key := ChunksValue(env.vars, l.ks)]);
        LinesUntilBoth(c, s, end, rest, e);
        LinesUntilBoth(c, s, end, rest, e.(keywordsRead := true));
        LinesUntilBoth(c, s, end, rest, e.(slotRead := true));
      }
    }
  }

  lemma LineSkipped(c: Config, s: string, pos: nat, l: Line, env: Env)
    requires Shell(c.flags) && (l.Comment? || NoValueIn(l)) && ProperLine(l) && At(s, pos, LineText(l))
    ensures pos + |LineText(l)| <= |s| && ReadFrom(c, s, pos, env) == ReadFrom(c, s, pos + |LineText(l)|, env)
  {
    hide At, ChunksText, ProperLine, ReadFrom;
    if l.Comment? {
      ProperComment(l);
      CommentRead(c, s, pos, l.blank, l.text, env);
    } else {
      NoSetRead(c, s, pos, l, env);
    }
  }

  /** Where only keywords and slot are wanted, a script is read up to the line by which both are known. */
  lemma StopsAtBoth(c: Config, ls: seq<Line>, env: Env)
    requires Shell(c.flags) && c.flags.onlyKeywordsSlot && env.section == []
    requires forall i :: 0 <= i < |ls| ==> ProperLine(ls[i])
    ensures ReadFrom(c, ScriptText(ls), 0, env) == Reading(true, UntilBoth(env, ls))
  {
    hide ReadFrom, ProperLine, ScriptText, UntilBoth;
    var s := ScriptText(ls);
    assert s[0..|s|] == s;
    LinesUntilBoth(c, s, 0, ls, env);
  }

  // ---- Reading other files ----

  /** `source` and the dot read a file and go on with what it left, unless keywords and slot are
      all that is wanted and both are there; a failure ends the reading. */
  lemma SourceMeans(c: Config, word: string, ks: seq<Chunk>, rest: string, env: Env)
    requires Shell(c.flags) && c.flags.allowSource && env.section == []
    requires (word == "source " || word == ". ") && ProperChunks(ks) && ChunksValue(env.vars, ks) != []
    ensures var s := word + (ChunksText(ks) + ("\n" + rest));
      var r := c.source(ChunksValue(env.vars, ks), env);
      var after := Env(r.vars, [], env.keywordsRead || r.keywordsRead, env.slotRead || r.slotRead);
      && |word| + |ChunksText(ks)| + 1 <= |s|
      && (!r.ok ==> ReadFrom(c, s, 0, env) == Reading(false, env.(vars := r.vars)))
      && (r.ok && c.flags.onlyKeywordsSlot && after.keywordsRead && after.slotRead ==> ReadFrom(c, s, 0, env) == Reading(true, after))
      && (r.ok && !(c.flags.onlyKeywordsSlot && after.keywordsRead && after.slotRead) ==>
            ReadFrom(c, s, 0, env) == ReadFrom(c, s, |word| + |ChunksText(ks)| + 1, after))
  {
    hide At, ReadFrom, ProperChunks, ChunksText, ChunksValue, ValueAt, LineAt;
    var t := ChunksText(ks);
    var s := word + (t + ("\n" + rest));
    var p, e := |word|, |word| + |t|;
    SourceStands(word, t, rest);
    AtIndex(s, e, "\n", 0);
    CommandFound(c.flags, s, word);
    ChunksRead(c.flags, env, s, p, ks);
    DelimiterStops(c.flags, env, s, e, []);
    var v := ChunksValue(env.vars, ks);
    assert v + [] == v;
    SourceStart(ks, env.vars);
    AtIndex(s, p, t, 0);
    VarsReader.LineReads(c, s, 0, env);
    assert ValueFor(c.flags, env, s, p - 1) == ValueOf(v, e);
    assert NoiseEnd(s, e) == e + 1;
    assert ReadValue(c, s, p - 1, env, File) == AfterValue(c, s, e, Assign(c, s, env, File, v));
  }

  lemma SourceStands(word: string, t: string, rest: string)
    ensures var s := word + (t + ("\n" + rest));
      At(s, 0, word) && At(s, |word|, t) && At(s, |word| + |t|, "\n")
  {
  }

  lemma SourceStart(ks: seq<Chunk>, vars: Vars)
    requires ProperChunks(ks) && ChunksValue(vars, ks) != []
    ensures ChunksText(ks) != [] && ChunksText(ks)[0] != '#' && !IsBlank(ChunksText(ks)[0])
    ensures ChunksText(ks)[0] in "'\"\\" ==> |ChunksText(ks)| > 1
  {
    SomeText(ks, vars);
    StartOfChunks(ks);
  }

  lemma {:induction false} SomeText(ks: seq<Chunk>, vars: Vars)
    requires ChunksValue(vars, ks) != []
    ensures ChunksText(ks) != []
  {
    if ChunkValue(vars, ks[0]) == [] { SomeText(ks[1..], vars); }
  }

  lemma CommandFound(f: Flags, s: string, word: string)
    requires Shell(f) && f.allowSource && (word == "source " || word == ". ") && At(s, 0, word)
    ensures LineAt(f, s, 0) == CommandLine(|word| - 1) && s[|word| - 1] == ' '
  {
    AtBound(s, 0, word);
    AtIndex(s, 0, word, 0);
    AtIndex(s, 0, word, |word| - 1);
    if word == "source " {
      assert s[..6] == "source" by { assert s[0..7] == word; assert s[..6] == word[..6]; }
      forall k | 0 <= k < 6 ensures IsAlpha(s[k]) { assert s[k] == s[..6][k]; }
      AlphaEndIs(s, 0, 6);
    }
  }

  lemma {:induction false} AlphaEndIs(s: string, pos: nat, end: nat)
    requires pos <= end < |s| && (forall k :: pos <= k < end ==> IsAlpha(s[k])) && !IsAlpha(s[end])
    ensures AlphaEnd(s, pos) == end
    decreases end - pos
  {
    if pos < end { AlphaEndIs(s, pos + 1, end); }
  }

  // ---- What is no assignment ----

  /** A line without a sign sets nothing. */
  lemma NoSignMeans(c: Config, key: string, env: Env)
    requires Shell(c.flags) && IsVariable(key)
    ensures ReadFrom(c, key + "\n", 0, env) == Reading(true, env)
  {
    hide At, ReadFrom, KeyEnd, FindFirstOf, AlphaEnd;
    var s := key + "\n";
    var e := |key|;
    assert s[e] == '\n' && s[0] == key[0];
    forall k | 0 <= k < e ensures IsKeyLetter(s[k]) { assert s[k] == key[k]; }
    KeyEndIs(s, 0, e);
    VarsReader.LineReads(c, s, 0, env);
    assert NoiseEnd(s, e) == e + 1;
    VarsReader.EndReads(c, s, env);
  }

  /** What is no reference stands for itself. */
  lemma BadReferences(f: Flags, env: Env)
    requires Shell(f)
    ensures Reference(f, env, "$", 0) == ("$", 1) && Reference(f, env, "${", 0) == ("$", 1)
    ensures Reference(f, env, "${a", 0) == ("$", 1) && Reference(f, env, "${a.}", 0) == ("$", 1)
  {
    assert KeyEnd("${a", 3) == 3 && KeyEnd("${a.}", 3) == 3;
    assert KeyEnd("${a", 2) == 3 && KeyEnd("${a.}", 2) == 3;
  }

  // ---- The files of options ----

  /** Files of options are such scripts: variables are substituted and other files are read. */
  lemma OptionFilesAreScripts(source: (string, Env) -> Sourced, ls: seq<Line>, env: Env)
    requires env.section == [] && forall i :: 0 <= i < |ls| ==> ProperLine(ls[i])
    ensures var c := Config(D.EIXRC_FLAGS, source);
      c.flags.allowSource && ReadFrom(c, ScriptText(ls), 0, env) == Reading(true, env.(vars := ScriptVars(env.vars, ls)))
  {
    hide ReadFrom, ProperLine, ScriptText, ScriptVars;
    ScriptMeans(Config(D.EIXRC_FLAGS, source), ls, env);
  }
}
