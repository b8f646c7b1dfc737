/** What a text of shell-like assignments means: the language of the reader, without its states. */
module VarsLanguage {
  import opened Strings

  /** The flags that the machine looks at. Sections imply the escapes of portage. */
  datatype Flags = Flags(onlyKeywordsSlot: bool, substVars: bool, allowSource: bool,
                         portageEscapes: bool, portageSections: bool)

  predicate Settled(f: Flags) { f.portageSections ==> f.portageEscapes }

  type Vars = map<string, string>

  /** What the reader has learnt so far. */
  datatype Env = Env(vars: Vars, section: string, keywordsRead: bool, slotRead: bool)

  /** What became of a sourced file. */
  datatype Sourced = Sourced(ok: bool, vars: Vars, keywordsRead: bool, slotRead: bool)

  /** `source` stands for the reading of another file. */
  datatype Config = Config(flags: Flags, source: (string, Env) -> Sourced)

  datatype Reading = Reading(ok: bool, env: Env)

  // ---- Characters and runs ----

  predicate IsAlpha(c: char) { 'a' <= c <= 'z' || 'A' <= c <= 'Z' }
  predicate IsKeyStart(c: char) { IsAlpha(c) || c == '_' }
  predicate IsKeyChar(c: char) { IsAlpha(c) || '0' <= c <= '9' || c == '_' || c == '-' }
  predicate IsBlank(c: char) { c == '\t' || c == ' ' }
  predicate IsNameChar(c: char) { IsKeyChar(c) || IsBlank(c) || c == ':' }

  function SkipBlank(s: string, pos: nat): (r: nat)
    requires pos <= |s|
    ensures pos <= r <= |s| && (forall k :: pos <= k < r ==> IsBlank(s[k])) && (r < |s| ==> !IsBlank(s[r]))
    decreases |s| - pos
  {
    if pos < |s| && IsBlank(s[pos]) then SkipBlank(s, pos + 1) else pos
  }

  function AlphaEnd(s: string, pos: nat): (r: nat)
    requires pos <= |s|
    ensures pos <= r <= |s| && (forall k :: pos <= k < r ==> IsAlpha(s[k])) && (r < |s| ==> !IsAlpha(s[r]))
    decreases |s| - pos
  {
    if pos < |s| && IsAlpha(s[pos]) then AlphaEnd(s, pos + 1) else pos
  }

  function KeyEnd(s: string, pos: nat): (r: nat)
    requires pos <= |s|
    ensures pos <= r <= |s| && (forall k :: pos <= k < r ==> IsKeyChar(s[k])) && (r < |s| ==> !IsKeyChar(s[r]))
    decreases |s| - pos
  {
    if pos < |s| && IsKeyChar(s[pos]) then KeyEnd(s, pos + 1) else pos
  }

  function NameEnd(s: string, pos: nat): (r: nat)
    requires pos <= |s|
    ensures pos <= r <= |s| && (forall k :: pos <= k < r ==> IsNameChar(s[k])) && (r < |s| ==> !IsNameChar(s[r]))
    decreases |s| - pos
  {
    if pos < |s| && IsNameChar(s[pos]) then NameEnd(s, pos + 1) else pos
  }

  // ---- Noise ----

  /** Behind the next newline. */
  function CommentEnd(s: string, pos: nat): (r: nat)
    requires pos <= |s|
    ensures pos <= r <= |s| && (pos < |s| ==> pos < r)
    decreases |s| - pos
  {
    if pos == |s| then pos else if s[pos] == '\n' then pos + 1 else CommentEnd(s, pos + 1)
  }

  /** Behind the next newline that is neither escaped nor quoted. */
  function NoiseEnd(s: string, pos: nat): (r: nat)
    requires pos <= |s|
    ensures pos <= r <= |s| && (pos < |s| ==> pos < r)
    decreases |s| - pos
  {
    if pos == |s| then pos
    else if s[pos] == '\n' then pos + 1
    else if s[pos] == '#' then CommentEnd(s, pos + 1)
    else if s[pos] == '\\' then (if pos + 1 == |s| then |s| else NoiseEnd(s, pos + 2))
    else if s[pos] == '\'' || s[pos] == '"' then QuotedNoiseEnd(s, pos + 1, s[pos])
    else NoiseEnd(s, pos + 1)
  }

  /** The same from within a quotation. */
  function QuotedNoiseEnd(s: string, pos: nat, quote: char): (r: nat)
    requires pos <= |s|
    ensures pos <= r <= |s| && (pos < |s| ==> pos < r)
    decreases |s| - pos
  {
    if pos == |s| then pos
    else if s[pos] == quote then NoiseEnd(s, pos + 1)
    else if s[pos] == '\\' then (if pos + 1 == |s| then |s| else QuotedNoiseEnd(s, pos + 2, quote))
    else QuotedNoiseEnd(s, pos + 1, quote)
  }

  // ---- References ----

  /** A variable of the current section hides the one of the same name outside. */
  function Lookup(env: Env, name: string): string
  {
    if name == [] then []
    else if env.section != [] && name + env.section in env.vars then env.vars[name + env.section]
    else if name in env.vars then env.vars[name]
    else []
  }

  /** What `$NAME` or `${NAME}` at `pos` stands for, and the position behind it. What is no
      reference stands for its first character. */
  function Reference(f: Flags, env: Env, s: string, pos: nat): (r: (string, nat))
    requires pos < |s|
    ensures pos < r.1 <= |s|
  {
    var none := ([s[pos]], pos + 1);
    var brace := pos + 1 < |s| && s[pos + 1] == '{';
    var b := if brace then pos + 2 else pos + 1;
    if b >= |s| || (f.portageSections && !brace) then none
    else
      var e := if f.portageSections then NameEnd(s, b) else KeyEnd(s, b);
      if !brace then (Lookup(env, s[b..e]), e)
      else if e == |s| || s[e] != '}' then none
      else (Lookup(env, s[b..e]), e + 1)
  }

  /** `%(NAME)s`. Any character is taken for the closing parenthesis, or none followed by one more. */
  function SectionReference(env: Env, s: string, pos: nat): (r: (string, nat))
    requires pos < |s|
    ensures pos < r.1 <= |s|
  {
    var none := ([s[pos]], pos + 1);
    if pos + 2 >= |s| || s[pos + 1] != '(' then none
    else
      var e := NameEnd(s, pos + 2);
      var p := if e < |s| && s[e] != ')' then e + 1 else e;
      if p + 1 >= |s| || s[p + 1] != 's' then none
      else (Lookup(env, s[pos + 2..e]), p + 2)
  }

  // ---- Values ----

  datatype Mode = Bare | Single | Double

  function PortageEscape(c: char): char
  {
    if c == 'a' then '\U{07}' else if c == 'b' then '\U{08}' else if c == 'e' then '\U{1b}'
    else if c == 'f' || c == 'n' then '\n' else if c == 'r' then '\r' else if c == 't' then '\t'
    else if c == 'v' then '\U{0b}' else c
  }

  /** A dollar directly behind an escape stands for itself. */
  function WithDollar(s: string, text: string, pos: nat, allowed: bool): (r: (string, nat))
    requires pos <= |s|
    ensures pos <= r.1 <= |s|
  {
    if pos < |s| && s[pos] == '$' && allowed then (text + "$", pos + 1) else (text, pos)
  }

  function ShortEscape(s: string, pos: nat): (r: (string, nat))
    requires pos < |s|
    ensures pos < r.1 <= |s|
  {
    if s[pos] == '\n' then ([], pos + 1) else WithDollar(s, [PortageEscape(s[pos])], pos + 1, true)
  }

  /** Behind a backslash in double quotes, as portage reads it. */
  function DoubleEscape(s: string, pos: nat): (r: (string, nat))
    requires pos < |s|
    ensures pos < r.1 <= |s|
  {
    if s[pos] != '\\' then ShortEscape(s, pos)
    else if pos + 1 == |s| then ([], |s|)
    else if s[pos + 1] != '\\' then ShortEscape(s, pos + 1)
    else if pos + 2 == |s| then ("\\", |s|)
    else if s[pos + 2] == '\n' then ("\\ ", pos + 3)
    else WithDollar(s, if s[pos + 2] == '\\' then "\\" else ['\\', s[pos + 2]], pos + 3, true)
  }

  /** Behind a backslash outside of quotes, as portage reads it. */
  function BareEscape(s: string, pos: nat): (r: (string, nat))
    requires pos < |s|
    ensures pos < r.1 <= |s|
  {
    if s[pos] == '\n' then WithDollar(s, [], pos + 1, true)
    else if s[pos] != '\\' then WithDollar(s, [s[pos]], pos + 1, true)
    else
      var p := if pos + 1 < |s| && s[pos + 1] == '\\' then pos + 2 else pos + 1;
      if p == |s| then ([], |s|)
      else
        var before := if p == pos + 1 && s[p] in "\r\n" then "\\" else "";
        WithDollar(s, before + if s[p] in "\r\n" then "" else [PortageEscape(s[p])], p + 1, true)
  }

  /** What stands behind a backslash at the position before `pos`. */
  function EscapeAt(f: Flags, s: string, pos: nat, mode: Mode): (r: (string, nat))
    requires pos < |s|
    ensures pos < r.1 <= |s|
  {
    if !f.portageEscapes then (if s[pos] == '\n' then [] else [s[pos]], pos + 1)
    else match mode case Bare => BareEscape(s, pos) case Single => ShortEscape(s, pos) case Double => DoubleEscape(s, pos)
  }

  /** What ends a value outside of quotes. */
  predicate IsDelimiter(f: Flags, c: char) { c in " \t\r\n#" || (!f.portageEscapes && c in ";|&)") }

  /** A value that goes on at `pos`: the text, and the position of what ends it. */
  function ValueAt(f: Flags, env: Env, s: string, pos: nat, mode: Mode): (r: (string, nat))
    requires pos <= |s|
    ensures pos <= r.1 <= |s|
    decreases |s| - pos, 0
  {
    if pos == |s| then ([], pos)
    else
      var c := s[pos];
      if mode == Bare && IsDelimiter(f, c) then ([], pos)
      else if c == '\\' then
        if pos + 1 == |s| then ([], |s|) else Then(f, env, s, EscapeAt(f, s, pos + 1, mode), mode)
      else if mode == Bare && c == '\'' then ValueAt(f, env, s, pos + 1, Single)
      else if mode == Bare && c == '"' then ValueAt(f, env, s, pos + 1, Double)
      else if mode == Single && c == '\'' then ValueAt(f, env, s, pos + 1, Bare)
      else if mode == Double && c == '"' then ValueAt(f, env, s, pos + 1, Bare)
      else Then(f, env, s, PieceAt(f, env, s, pos, mode), mode)
  }

  function Then(f: Flags, env: Env, s: string, piece: (string, nat), mode: Mode): (r: (string, nat))
    requires piece.1 <= |s|
    ensures piece.1 <= r.1 <= |s|
    decreases |s| - piece.1, 1
  {
    var rest := ValueAt(f, env, s, piece.1, mode);
    (piece.0 + rest.0, rest.1)
  }

  predicate Refers(f: Flags, mode: Mode, c: char)
  {
    f.substVars && c == '$' && (mode != Single || f.portageEscapes)
  }

  predicate SectionRefers(f: Flags, c: char) { f.substVars && f.portageSections && c == '%' }

  /** A reference or a character of a value. */
  function PieceAt(f: Flags, env: Env, s: string, pos: nat, mode: Mode): (r: (string, nat))
    requires pos < |s|
    ensures pos < r.1 <= |s|
  {
    if Refers(f, mode, s[pos]) then Reference(f, env, s, pos)
    else if SectionRefers(f, s[pos]) then SectionReference(env, s, pos)
    else (if s[pos] == '\n' && f.portageEscapes && mode != Bare then " " else [s[pos]], pos + 1)
  }

  // ---- Assignments ----

  /** What a value is for: the variable whose name has `len` characters from `start` on, or the
      command that reads another file. */
  datatype Target = Variable(start: nat, len: nat) | File

  /** The comparison stops at the first difference. */
  predicate StartsAt(s: string, pos: nat, t: string)
    decreases |t|
  {
    t == [] || (pos < |s| && s[pos] == t[0] && StartsAt(s, pos + 1, t[1..]))
  }

  datatype Assigned = Assigned(ok: bool, stop: bool, env: Env)

  function Assign(c: Config, s: string, env: Env, t: Target, value: string): Assigned
    requires t.Variable? ==> t.start + t.len <= |s|
  {
    match t
    case File =>
      if value == [] then Assigned(false, true, env)
      else
        var r := c.source(value, env);
        var e := env.(vars := r.vars, keywordsRead := env.keywordsRead || r.keywordsRead,
                      slotRead := env.slotRead || r.slotRead);
        if r.ok then Assigned(true, c.flags.onlyKeywordsSlot && e.keywordsRead && e.slotRead, e)
        else Assigned(false, true, env.(vars := r.vars))
    case Variable(start, len) =>
      var key := s[start..start + len];
      if !c.flags.onlyKeywordsSlot then
        Assigned(true, false, env.(vars := env.vars[key + env.section := value]))
      else
        var e := env.(vars := env.vars[key := value]);
        if StartsAt(s, start, "KEYWORDS=") then Assigned(true, e.slotRead, e.(keywordsRead := true))
        else if StartsAt(s, start, "SLOT=") then Assigned(true, e.keywordsRead, e.(slotRead := true))
        else Assigned(true, false, e)
  }

  // ---- Lines ----

  datatype Line = LastLine | NoiseLine(next: nat) | KeyLine(next: nat) | CommandLine(next: nat) | SectionLine(next: nat)

  /** Behind the name of the command that reads a file. */
  function CommandAt(f: Flags, s: string, pos: nat): (r: Line)
    requires pos <= |s|
    ensures !r.LastLine? ==> r.next == pos < |s|
    ensures !r.KeyLine? && !r.SectionLine?
  {
    if pos == |s| then LastLine else if f.allowSource && IsBlank(s[pos]) then CommandLine(pos) else NoiseLine(pos)
  }

  function LineAt(f: Flags, s: string, pos: nat): (r: Line)
    requires pos <= |s|
    ensures !r.LastLine? ==> pos <= r.next < |s|
    ensures r.KeyLine? ==> IsKeyStart(s[r.next])
  {
    var p := SkipBlank(s, pos);
    if p == |s| then LastLine
    else if s[p] == '#' || (s[p] == ';' && f.portageSections) then
      var q := FindFirstOf(s, "\n", p + 1);
      if q == |s| then LastLine else NoiseLine(q)
    else if s[p] == 's' then
      var e := AlphaEnd(s, p);
      if e == |s| then LastLine else if s[p..e] != "source" then NoiseLine(e) else CommandAt(f, s, e)
    else if s[p] == '.' then CommandAt(f, s, p + 1)
    else if s[p] == '[' && f.portageSections then (if p + 1 == |s| then LastLine else SectionLine(p + 1))
    else if IsKeyStart(s[p]) then KeyLine(p)
    else NoiseLine(p)
  }

  datatype Header = Header(name: string, next: nat, closed: bool)

  /** The name of a section up to what ends it. */
  function HeaderAt(s: string, pos: nat): (r: Header)
    requires pos <= |s|
    ensures pos <= r.next <= |s|
    decreases |s| - pos
  {
    if pos == |s| || s[pos] in "\r\n" then Header([], pos, false)
    else if s[pos] == ']' then Header([], pos, true)
    else if s[pos] != '\\' then HeaderThen([s[pos]], HeaderAt(s, pos + 1))
    else if pos + 1 == |s| then Header([], |s|, false)
    else if s[pos + 1] != '\\' then HeaderThen([s[pos + 1]], HeaderAt(s, pos + 2))
    else
      var p := if pos + 2 < |s| && s[pos + 2] == '\\' then pos + 3 else pos + 2;
      if p == |s| || s[p] in "\r\n" then Header([], p, false)
      else HeaderThen([PortageEscape(s[p])], HeaderAt(s, p + 1))
  }

  function HeaderThen(t: string, h: Header): Header { h.(name := t + h.name) }

  /** The section named DEFAULT leaves the current section as it is. */
  function Enter(env: Env, h: Header): Env
  {
    if h.closed && h.name != "DEFAULT" then env.(section := ":" + h.name) else env
  }

  /** The length of a key and the position of the sign behind it, or where the next line starts. */
  datatype Key = NoKey(next: nat) | KeyOf(len: nat, next: nat)

  /** Behind the last key character of a run in which blanks may occur. */
  function SpacedKeyEnd(s: string, pos: nat): (r: nat)
    requires pos <= |s|
    ensures pos <= r <= |s|
    decreases |s| - pos
  {
    if pos == |s| then pos
    else if IsKeyChar(s[pos]) then SpacedKeyEnd(s, pos + 1)
    else
      var q := SkipBlank(s, pos);
      if pos < q < |s| && IsKeyChar(s[q]) then SpacedKeyEnd(s, q) else pos
  }

  function KeyAt(f: Flags, s: string, pos: nat): (r: Key)
    requires pos < |s|
    ensures r.KeyOf? ==> pos <= r.next < |s| && pos + r.len <= r.next
    ensures r.NoKey? ==> pos < r.next <= |s|
  {
    var e := if f.portageSections then SpacedKeyEnd(s, pos) else KeyEnd(s, pos);
    var q := SkipBlank(s, e);
    if q == |s| then NoKey(q)
    else if s[q] == '=' || (s[q] == ':' && f.portageSections) then KeyOf(e - pos, q)
    else if s[q] == ';' && f.portageSections then NoKey(CommentEnd(s, q + 1))
    else NoKey(NoiseEnd(s, q))
  }

  /** A value and the position of what ends it, or where the next line starts. */
  datatype Value = NoValue(next: nat) | ValueOf(text: string, next: nat)

  /** Behind the sign at `pos`. */
  function ValueFor(f: Flags, env: Env, s: string, pos: nat): (r: Value)
    requires pos < |s|
    ensures pos < r.next <= |s|
  {
    var p := if f.portageEscapes then SkipBlank(s, pos + 1) else pos + 1;
    if p == |s| then NoValue(p) else ValueStart(f, env, s, p)
  }

  function ValueStart(f: Flags, env: Env, s: string, pos: nat): (r: Value)
    requires pos < |s|
    ensures pos <= r.next <= |s|
  {
    if s[pos] == '#' then NoValue(CommentEnd(s, pos + 1))
    else if IsBlank(s[pos]) then NoValue(NoiseEnd(s, pos))
    else if s[pos] in "'\"\\" && pos + 1 == |s| then NoValue(|s|)
    else
      var v := ValueAt(f, env, s, pos, Bare);
      ValueOf(v.0, v.1)
  }

  // ---- Texts ----

  /** What is known once the text from the line at `pos` on was read. */
  function ReadFrom(c: Config, s: string, pos: nat, env: Env): Reading
    requires pos <= |s|
    decreases |s| - pos, 4
  {
    match LineAt(c.flags, s, pos)
    case LastLine => Reading(true, env)
    case NoiseLine(p) => ReadFrom(c, s, NoiseEnd(s, p), env)
    case SectionLine(p) => AfterHeader(c, s, HeaderAt(s, SkipBlank(s, p)), env)
    case CommandLine(p) => ReadValue(c, s, p, env, File)
    case KeyLine(p) => ReadKey(c, s, p, env)
  }

  function AfterHeader(c: Config, s: string, h: Header, env: Env): Reading
    requires h.next <= |s|
    decreases |s| - h.next, 3
  {
    if h.next == |s| then Reading(true, env) else ReadFrom(c, s, NoiseEnd(s, h.next), Enter(env, h))
  }

  function ReadKey(c: Config, s: string, pos: nat, env: Env): Reading
    requires pos < |s|
    decreases |s| - pos, 1
  {
    match KeyAt(c.flags, s, pos)
    case NoKey(q) => ReadFrom(c, s, q, env)
    case KeyOf(len, q) => ReadValue(c, s, q, env, Variable(pos, len))
  }

  function ReadValue(c: Config, s: string, pos: nat, env: Env, t: Target): Reading
    requires pos < |s| && (t.Variable? ==> t.start + t.len <= |s|)
    decreases |s| - pos, 0
  {
    match ValueFor(c.flags, env, s, pos)
    case NoValue(q) => ReadFrom(c, s, q, env)
    case ValueOf(v, q) => AfterValue(c, s, q, Assign(c, s, env, t, v))
  }

  function AfterValue(c: Config, s: string, pos: nat, a: Assigned): Reading
    requires pos <= |s|
    decreases |s| - pos, 5
  {
    if a.stop then Reading(a.ok, a.env) else ReadFrom(c, s, NoiseEnd(s, pos), a.env)
  }
}
