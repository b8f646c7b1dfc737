/** The machine that reads shell-like assignments: one method a state. */
module VarsReader {
  import opened Strings
  import opened VarsLanguage

  datatype State =
    | JUMP_NOISE | ASSIGN_KEY_VALUE | JUMP_COMMENT | JUMP_WHITESPACE | FIND_ASSIGNMENT
    | EVAL_VALUE | EVAL_READ | EVAL_SECTION
    | VALUE_SINGLE_QUOTE | VALUE_DOUBLE_QUOTE | VALUE_WHITESPACE
    | VALUE_SINGLE_QUOTE_PORTAGE | VALUE_DOUBLE_QUOTE_PORTAGE | VALUE_WHITESPACE_PORTAGE
    | SINGLE_QUOTE_ESCAPE | DOUBLE_QUOTE_ESCAPE | WHITESPACE_ESCAPE
    | SINGLE_QUOTE_ESCAPE_PORTAGE | DOUBLE_QUOTE_ESCAPE_PORTAGE | WHITESPACE_ESCAPE_PORTAGE
    | NOISE_ESCAPE | NOISE_SINGLE_QUOTE | NOISE_DOUBLE_QUOTE | STOP

  predicate IsNoise(st: State) { st in {JUMP_NOISE, JUMP_COMMENT, NOISE_ESCAPE, NOISE_SINGLE_QUOTE, NOISE_DOUBLE_QUOTE} }

  predicate IsPlainValue(st: State)
  {
    st in {VALUE_SINGLE_QUOTE, VALUE_DOUBLE_QUOTE, VALUE_WHITESPACE} || st in {SINGLE_QUOTE_ESCAPE, DOUBLE_QUOTE_ESCAPE, WHITESPACE_ESCAPE}
  }

  predicate IsPortageValue(st: State)
  {
    || st in {VALUE_SINGLE_QUOTE_PORTAGE, VALUE_DOUBLE_QUOTE_PORTAGE, VALUE_WHITESPACE_PORTAGE}
    || st in {SINGLE_QUOTE_ESCAPE_PORTAGE, DOUBLE_QUOTE_ESCAPE_PORTAGE, WHITESPACE_ESCAPE_PORTAGE}
  }

  /** The states in which a value is under way. */
  predicate IsValue(f: Flags, st: State)
  {
    st == EVAL_READ || (if f.portageEscapes then IsPortageValue(st) else IsPlainValue(st))
  }

  /** The states for a value, by the flag for the escapes. */
  function ValueState(f: Flags, mode: Mode): State
  {
    match mode
    case Bare => if f.portageEscapes then VALUE_WHITESPACE_PORTAGE else VALUE_WHITESPACE
    case Single => if f.portageEscapes then VALUE_SINGLE_QUOTE_PORTAGE else VALUE_SINGLE_QUOTE
    case Double => if f.portageEscapes then VALUE_DOUBLE_QUOTE_PORTAGE else VALUE_DOUBLE_QUOTE
  }

  function EscapeState(f: Flags, mode: Mode): State
  {
    match mode
    case Bare => if f.portageEscapes then WHITESPACE_ESCAPE_PORTAGE else WHITESPACE_ESCAPE
    case Single => if f.portageEscapes then SINGLE_QUOTE_ESCAPE_PORTAGE else SINGLE_QUOTE_ESCAPE
    case Double => if f.portageEscapes then DOUBLE_QUOTE_ESCAPE_PORTAGE else DOUBLE_QUOTE_ESCAPE
  }

  /** A state that does not move has a successor of lower rank. */
  function Rank(f: Flags, st: State, s: string, x: nat): nat
  {
    match st
    case STOP => 0
    case JUMP_NOISE => 1
    case EVAL_VALUE => 1
    case ASSIGN_KEY_VALUE => 2
    case JUMP_COMMENT => 2
    case FIND_ASSIGNMENT => 2
    case EVAL_SECTION => 2
    case JUMP_WHITESPACE => 3
    case EVAL_READ => 3
    case VALUE_WHITESPACE => if x < |s| && IsDelimiter(f, s[x]) then 4 else 1
    case VALUE_WHITESPACE_PORTAGE => if x < |s| && IsDelimiter(f, s[x]) then 4 else 1
    case _ => 1
  }

  // ---- Values under way ----

  /** A value of which `value` is read, and whose rest starts at `pos`. */
  function Whole(f: Flags, env: Env, s: string, value: string, pos: nat, mode: Mode): (string, nat)
    requires pos <= |s|
  {
    (value + ValueAt(f, env, s, pos, mode).0, ValueAt(f, env, s, pos, mode).1)
  }

  lemma WholeEnds(f: Flags, env: Env, s: string, value: string, pos: nat, mode: Mode)
    requires pos <= |s| && (pos == |s| || (mode == Bare && IsDelimiter(f, s[pos])))
    ensures Whole(f, env, s, value, pos, mode) == (value, pos)
  {
    assert value + [] == value;
  }

  lemma WholeStarts(f: Flags, env: Env, s: string, pos: nat)
    requires pos <= |s|
    ensures Whole(f, env, s, [], pos, Bare) == ValueAt(f, env, s, pos, Bare)
  {
    var v := ValueAt(f, env, s, pos, Bare).0;
    assert [] + v == v;
  }

  lemma WholeAtEnd(f: Flags, env: Env, s: string, value: string, mode: Mode)
    ensures Whole(f, env, s, value, |s|, mode) == (value, |s|) == Whole(f, env, s, value, |s|, Bare)
  {
    WholeEnds(f, env, s, value, |s|, mode);
    WholeEnds(f, env, s, value, |s|, Bare);
  }

  lemma WholeQuote(f: Flags, env: Env, s: string, value: string, pos: nat)
    requires pos < |s|
    ensures s[pos] == '\'' ==>
      && Whole(f, env, s, value, pos, Bare) == Whole(f, env, s, value, pos + 1, Single)
      && Whole(f, env, s, value, pos, Single) == Whole(f, env, s, value, pos + 1, Bare)
    ensures s[pos] == '"' ==>
      && Whole(f, env, s, value, pos, Bare) == Whole(f, env, s, value, pos + 1, Double)
      && Whole(f, env, s, value, pos, Double) == Whole(f, env, s, value, pos + 1, Bare)
  {
  }

  /** A character that is part of the value in this mode. */
  predicate InValue(f: Flags, c: char, mode: Mode)
  {
    && c != '\\'
    && (mode == Bare ==> !IsDelimiter(f, c) && c != '\'' && c != '"')
    && (mode == Single ==> c != '\'')
    && (mode == Double ==> c != '"')
  }

  lemma WholePiece(f: Flags, env: Env, s: string, value: string, pos: nat, mode: Mode)
    requires pos < |s| && InValue(f, s[pos], mode)
    ensures var p := PieceAt(f, env, s, pos, mode);
      Whole(f, env, s, value, pos, mode) == Whole(f, env, s, value + p.0, p.1, mode)
  {
    hide PieceAt, EscapeAt;
    var p := PieceAt(f, env, s, pos, mode);
    assert ValueAt(f, env, s, pos, mode) == Then(f, env, s, p, mode);
    Regroup(value, p.0, ValueAt(f, env, s, p.1, mode).0);
  }

  /** The same when `pos` is behind a backslash. */
  function Unescaped(f: Flags, env: Env, s: string, value: string, pos: nat, mode: Mode): (string, nat)
    requires pos < |s|
  {
    Whole(f, env, s, value + EscapeAt(f, s, pos, mode).0, EscapeAt(f, s, pos, mode).1, mode)
  }

  lemma WholeEscape(f: Flags, env: Env, s: string, value: string, pos: nat, mode: Mode)
    requires pos < |s| && s[pos] == '\\'
    ensures pos + 1 == |s| ==> Whole(f, env, s, value, pos, mode) == (value, |s|)
    ensures pos + 1 < |s| ==> Whole(f, env, s, value, pos, mode) == Unescaped(f, env, s, value, pos + 1, mode)
  {
    hide PieceAt, EscapeAt;
    if pos + 1 < |s| {
      var p := EscapeAt(f, s, pos + 1, mode);
      assert ValueAt(f, env, s, pos, mode) == Then(f, env, s, p, mode);
      Regroup(value, p.0, ValueAt(f, env, s, p.1, mode).0);
    } else {
      assert value + [] == value;
    }
  }

  lemma DollarLast(s: string, value: string, text: string, pos: nat, allowed: bool)
    requires pos <= |s|
    ensures var r := WithDollar(s, text, pos, allowed);
      (value + r.0, r.1) == WithDollar(s, value + text, pos, allowed)
  {
    Regroup(value, text, "$");
  }

  lemma HeaderStep(s: string, pos: nat)
    requires pos <= |s|
    ensures pos == |s| || s[pos] in "\r\n" ==> HeaderAt(s, pos) == Header([], pos, false)
    ensures pos < |s| && s[pos] == ']' ==> HeaderAt(s, pos) == Header([], pos, true)
    ensures pos < |s| && s[pos] !in "]\r\n\\" ==> HeaderAt(s, pos) == HeaderThen([s[pos]], HeaderAt(s, pos + 1))
  {
  }

  lemma HeaderRegroup(a: string, b: string, h: Header)
    ensures HeaderThen(a, HeaderThen(b, h)) == HeaderThen(a + b, h)
  {
    Regroup(a, b, h.name);
  }

  lemma EndReads(c: Config, s: string, env: Env)
    ensures ReadFrom(c, s, |s|, env) == Reading(true, env)
  {
  }

  lemma NewlineReads(c: Config, s: string, pos: nat, env: Env)
    requires pos < |s|
    ensures s[pos] == '\n' ==> ReadFrom(c, s, pos, env) == ReadFrom(c, s, NoiseEnd(s, pos), env)
  {
  }

  lemma LineReads(c: Config, s: string, pos: nat, env: Env)
    requires pos <= |s|
    ensures var line := LineAt(c.flags, s, pos);
      && (line.LastLine? ==> ReadFrom(c, s, pos, env) == Reading(true, env))
      && (line.NoiseLine? ==> ReadFrom(c, s, pos, env) == ReadFrom(c, s, NoiseEnd(s, line.next), env))
      && (line.SectionLine? ==> ReadFrom(c, s, pos, env) == AfterHeader(c, s, HeaderAt(s, SkipBlank(s, line.next)), env))
      && (line.CommandLine? ==> ReadFrom(c, s, pos, env) == ReadValue(c, s, line.next, env, File))
      && (line.KeyLine? ==> ReadFrom(c, s, pos, env) == ReadKey(c, s, line.next, env))
  {
    hide LineAt, NoiseEnd, SkipBlank, HeaderAt, KeyAt, ReadValue;
  }

  lemma NoiseAtHash(s: string, pos: nat)
    requires pos < |s|
    ensures s[pos] == '#' ==> NoiseEnd(s, pos) == CommentEnd(s, pos + 1)
  {
  }

  lemma {:induction false} SpacedKeyStops(s: string, pos: nat)
    requires pos < |s|
    ensures var e := SpacedKeyEnd(s, pos);
      (IsKeyChar(s[pos]) ==> pos < e) && (e < |s| ==> !IsKeyChar(s[e]))
    decreases |s| - pos
  {
    if IsKeyChar(s[pos]) {
      if pos + 1 < |s| { SpacedKeyStops(s, pos + 1); }
    } else {
      var q := SkipBlank(s, pos);
      if pos < q < |s| && IsKeyChar(s[q]) { SpacedKeyStops(s, q); }
    }
  }

  class VarsReader {
    const config: Config
    var filebuffer: string
    var x: nat
    var state: State
    var retstate: bool
    var sourcecmd: bool
    var keyBegin: nat
    var keyLen: nat
    var value: string
    var section: string
    var vars: Vars
    var keywordsRead: bool
    var slotRead: bool

    constructor (config: Config, vars: Vars)
      requires Settled(config.flags)
      ensures this.config == config && this.vars == vars && !keywordsRead && !slotRead
    {
      this.config, this.vars := config, vars;
      filebuffer, x, state, retstate, sourcecmd, keyBegin, keyLen := [], 0, STOP, true, false, 0, 0;
      value, section, keywordsRead, slotRead := [], [], false, false;
    }

    function Known(): Env
      reads this
    {
      Env(vars, section, keywordsRead, slotRead)
    }

    /** The key is followed by a character that is no part of it. */
    ghost predicate KeyKnown()
      reads this
    {
      keyBegin + keyLen < |filebuffer| && !IsKeyChar(filebuffer[keyBegin + keyLen])
    }

    /** Where the next line starts. */
    ghost function NoiseLeft(): (r: nat)
      reads this
      requires x <= |filebuffer| && (IsNoise(state) ==> x < |filebuffer|)
      ensures r <= |filebuffer|
    {
      match state
      case STOP => |filebuffer|
      case JUMP_NOISE => NoiseEnd(filebuffer, x)
      case JUMP_COMMENT => CommentEnd(filebuffer, x)
      case NOISE_ESCAPE => NoiseEnd(filebuffer, x + 1)
      case NOISE_SINGLE_QUOTE => QuotedNoiseEnd(filebuffer, x, '\'')
      case NOISE_DOUBLE_QUOTE => QuotedNoiseEnd(filebuffer, x, '"')
      case _ => x
    }

    /** The value under way, and the position of what ends it. */
    ghost function ValueLeft(): (r: (string, nat))
      reads this
      requires x <= |filebuffer| && (IsValue(config.flags, state) && state != EVAL_READ ==> x < |filebuffer|)
    {
      var f, s, env := config.flags, filebuffer, Known();
      if state == EscapeState(f, Bare) then Unescaped(f, env, s, value, x, Bare)
      else if state == EscapeState(f, Single) then Unescaped(f, env, s, value, x, Single)
      else if state == EscapeState(f, Double) then Unescaped(f, env, s, value, x, Double)
      else if state == ValueState(f, Single) then Whole(f, env, s, value, x, Single)
      else if state == ValueState(f, Double) then Whole(f, env, s, value, x, Double)
      else Whole(f, env, s, value, x, Bare)
    }

    // ---- Moving ----

    /** To the next character, and then to a state; the machine stops at the end. */
    method NextInput(next: State)
      requires x < |filebuffer|
      modifies this`x, this`state
      ensures x == old(x) + 1 && state == if x == |filebuffer| then STOP else next
    {
      x := x + 1;
      state := if x == |filebuffer| then STOP else next;
    }

    /** The same within a value, which is complete at the end. */
    method NextInputEval(next: State)
      requires x < |filebuffer|
      modifies this`x, this`state
      ensures x == old(x) + 1 && state == if x == |filebuffer| then EVAL_READ else next
    {
      x := x + 1;
      state := if x == |filebuffer| then EVAL_READ else next;
    }

    method SkipSpace()
      requires x < |filebuffer|
      modifies this`x, this`state
      ensures x == SkipBlank(filebuffer, old(x)) && state == if x == |filebuffer| then STOP else old(state)
    {
      while IsBlank(filebuffer[x])
        invariant x < |filebuffer| && SkipBlank(filebuffer, x) == SkipBlank(filebuffer, old(x)) && state == old(state)
        decreases |filebuffer| - x
      {
        x := x + 1;
        if x == |filebuffer| { state := STOP; return; }
      }
    }

    // ---- Noise ----

    method JumpNoise()
      requires state == JUMP_NOISE && x < |filebuffer|
      modifies this`x, this`state
      ensures old(x) < x <= |filebuffer| && (x == |filebuffer| ==> state == STOP)
      ensures (IsNoise(state) || state in {JUMP_WHITESPACE, STOP}) && NoiseLeft() == old(NoiseLeft())
    {
      while filebuffer[x] !in "#\n'\"\\"
        invariant old(x) <= x < |filebuffer| && state == JUMP_NOISE && NoiseEnd(filebuffer, x) == NoiseEnd(filebuffer, old(x))
        decreases |filebuffer| - x
      {
        x := x + 1;
        if x == |filebuffer| { state := STOP; return; }
      }
      match filebuffer[x] {
        case '#' => NextInput(JUMP_COMMENT);
        case '\\' => NextInput(NOISE_ESCAPE);
        case '"' => NextInput(NOISE_DOUBLE_QUOTE);
        case '\'' => NextInput(NOISE_SINGLE_QUOTE);
        case _ => NextInput(JUMP_WHITESPACE);
      }
    }

    method JumpComment()
      requires state == JUMP_COMMENT && x < |filebuffer|
      modifies this`x, this`state
      ensures old(x) <= x <= |filebuffer| && (x == |filebuffer| ==> state == STOP)
      ensures state in {JUMP_NOISE, STOP} && NoiseLeft() == old(NoiseLeft())
    {
      while filebuffer[x] != '\n'
        invariant old(x) <= x < |filebuffer| && state == JUMP_COMMENT && CommentEnd(filebuffer, x) == CommentEnd(filebuffer, old(x))
        decreases |filebuffer| - x
      {
        x := x + 1;
        if x == |filebuffer| { state := STOP; return; }
      }
      state := JUMP_NOISE;
    }

    method NoiseEscape()
      requires state == NOISE_ESCAPE && x < |filebuffer|
      modifies this`x, this`state
      ensures old(x) < x <= |filebuffer| && (x == |filebuffer| ==> state == STOP)
      ensures state in {JUMP_NOISE, STOP} && NoiseLeft() == old(NoiseLeft())
    {
      NextInput(JUMP_NOISE);
    }

    /** A quotation within noise; behind an escape the state stays. */
    method NoiseQuote(quote: char)
      requires quote == '"' || quote == '\''
      requires state == (if quote == '"' then NOISE_DOUBLE_QUOTE else NOISE_SINGLE_QUOTE) && x < |filebuffer|
      modifies this`x, this`state
      ensures old(x) < x <= |filebuffer| && (x == |filebuffer| ==> state == STOP)
      ensures state in {JUMP_NOISE, STOP, old(state)} && NoiseLeft() == old(NoiseLeft())
    {
      while filebuffer[x] != quote && filebuffer[x] != '\\'
        invariant old(x) <= x < |filebuffer| && state == old(state)
        invariant QuotedNoiseEnd(filebuffer, x, quote) == QuotedNoiseEnd(filebuffer, old(x), quote)
        decreases |filebuffer| - x
      {
        x := x + 1;
        if x == |filebuffer| { state := STOP; return; }
      }
      if filebuffer[x] == quote {
        NextInput(JUMP_NOISE);
      } else {
        NextInput(state);
        if state != STOP { NextInput(state); }
      }
    }

    // ---- Lines ----

    /** From the sign of a comment to the end of its line. */
    method SkipCommentLine()
      requires x < |filebuffer| && state == JUMP_WHITESPACE
      modifies this`x, this`state
      ensures x == FindFirstOf(filebuffer, "\n", old(x) + 1)
      ensures state == if x == |filebuffer| then STOP else JUMP_WHITESPACE
    {
      NextInput(JUMP_WHITESPACE);
      if state == STOP { return; }
      ghost var end := FindFirstOf(filebuffer, "\n", x);
      while filebuffer[x] != '\n'
        invariant x < |filebuffer| && state == JUMP_WHITESPACE && FindFirstOf(filebuffer, "\n", x) == end
        decreases |filebuffer| - x
      {
        x := x + 1;
        if x == |filebuffer| { state := STOP; return; }
      }
    }

    method SkipLetters()
      requires x < |filebuffer| && state == JUMP_WHITESPACE
      modifies this`x, this`state
      ensures x == AlphaEnd(filebuffer, old(x)) && state == if x == |filebuffer| then STOP else JUMP_WHITESPACE
    {
      while IsAlpha(filebuffer[x])
        invariant x < |filebuffer| && state == JUMP_WHITESPACE && AlphaEnd(filebuffer, x) == AlphaEnd(filebuffer, old(x))
        decreases |filebuffer| - x
      {
        x := x + 1;
        if x == |filebuffer| { state := STOP; return; }
      }
    }

    /** Behind the name of the command that reads a file. */
    method CommandName()
      requires x < |filebuffer| && !sourcecmd
      modifies this`state, this`sourcecmd
      ensures var command := config.flags.allowSource && IsBlank(filebuffer[x]);
        sourcecmd == command && state == if command then EVAL_VALUE else JUMP_NOISE
    {
      if config.flags.allowSource && IsBlank(filebuffer[x]) {
        sourcecmd, state := true, EVAL_VALUE;
      } else {
        state := JUMP_NOISE;
      }
    }

    method JumpWhitespace()
      requires state == JUMP_WHITESPACE && x < |filebuffer|
      modifies this`x, this`state, this`sourcecmd, this`keyBegin
      ensures old(x) <= x <= |filebuffer| && (x == |filebuffer| ==> state == STOP)
      ensures var line := LineAt(config.flags, filebuffer, old(x));
        && sourcecmd == line.CommandLine?
        && (line.LastLine? ==> state == STOP)
        && (!line.LastLine? ==> x == line.next)
        && (line.NoiseLine? ==> state == JUMP_NOISE || (state == JUMP_WHITESPACE && filebuffer[x] == '\n' && old(x) < x))
        && (line.SectionLine? ==> state == EVAL_SECTION)
        && (line.CommandLine? ==> state == EVAL_VALUE)
        && (line.KeyLine? ==> state == FIND_ASSIGNMENT && keyBegin == x)
    {
      hide SkipBlank, AlphaEnd, FindFirstOf;
      sourcecmd := false;
      SkipSpace();
      if state == STOP { return; }
      var c := filebuffer[x];
      if c == '#' || (c == ';' && config.flags.portageSections) {
        SkipCommentLine();
        return;
      }
      if c == 's' {
        var beginning := x;
        SkipLetters();
        if state == STOP { return; }
        if x - beginning != 6 || filebuffer[beginning..x] != "source" {
          state := JUMP_NOISE;
          return;
        }
        CommandName();
        return;
      }
      if c == '.' {
        NextInput(JUMP_WHITESPACE);
        if state != STOP { CommandName(); }
        return;
      }
      if c == '[' && config.flags.portageSections {
        NextInput(EVAL_SECTION);
        return;
      }
      if IsKeyStart(c) {
        keyBegin, state := x, FIND_ASSIGNMENT;
      } else {
        state := JUMP_NOISE;
      }
    }

    /** The run of key characters in which blanks may occur. */
    method SpacedKey() returns (len: nat)
      requires state == FIND_ASSIGNMENT && x < |filebuffer| && IsKeyChar(filebuffer[x])
      modifies this`x, this`state
      ensures var e := SpacedKeyEnd(filebuffer, old(x)); len == e - old(x) && x == SkipBlank(filebuffer, e)
      ensures state == if x == |filebuffer| then STOP else FIND_ASSIGNMENT
    {
      len := 0;
      ghost var start, e := x, SpacedKeyEnd(filebuffer, x);
      while IsKeyChar(filebuffer[x]) || IsBlank(filebuffer[x])
        invariant start <= x < |filebuffer| && state == FIND_ASSIGNMENT
        invariant
          || (len == x - start && SpacedKeyEnd(filebuffer, x) == e)
          || (len == e - start && x == SkipBlank(filebuffer, e) && !IsKeyChar(filebuffer[x]))
        decreases |filebuffer| - x
      {
        if IsBlank(filebuffer[x]) {
          var beginning := x;
          SkipSpace();
          if state == STOP { return; }
          if IsKeyChar(filebuffer[x]) { len := len + (x - beginning); }
        } else {
          len := len + 1;
          x := x + 1;
          if x == |filebuffer| { state := STOP; return; }
        }
      }
    }

    method PlainKey() returns (len: nat)
      requires state == FIND_ASSIGNMENT && x < |filebuffer|
      modifies this`x, this`state
      ensures var e := KeyEnd(filebuffer, old(x)); len == e - old(x) && x == SkipBlank(filebuffer, e)
      ensures state == if x == |filebuffer| then STOP else FIND_ASSIGNMENT
    {
      len := 0;
      while IsKeyChar(filebuffer[x])
        invariant x < |filebuffer| && state == FIND_ASSIGNMENT && x == old(x) + len
        invariant KeyEnd(filebuffer, x) == KeyEnd(filebuffer, old(x))
        decreases |filebuffer| - x
      {
        len := len + 1;
        x := x + 1;
        if x == |filebuffer| { state := STOP; return; }
      }
      SkipSpace();
    }

    method FindAssignment()
      requires state == FIND_ASSIGNMENT && x < |filebuffer| && IsKeyStart(filebuffer[x])
      modifies this`x, this`state, this`keyLen
      ensures old(x) < x <= |filebuffer| && (x == |filebuffer| ==> state == STOP)
      ensures var key := KeyAt(config.flags, filebuffer, old(x));
        && (key.NoKey? ==> (IsNoise(state) || state == STOP) && NoiseLeft() == key.next)
        && (key.KeyOf? ==> state == EVAL_VALUE && x == key.next && keyLen == key.len && !IsKeyChar(filebuffer[old(x) + keyLen]))
    {
      hide SkipBlank, NoiseEnd, CommentEnd, KeyEnd, SpacedKeyEnd;
      ghost var start := x;
      if !config.flags.portageSections {
        keyLen := PlainKey();
      } else {
        keyLen := SpacedKey();
        SpacedKeyStops(filebuffer, start);
      }
      if state == STOP { return; }
      var c := filebuffer[x];
      if c == '=' || (c == ':' && config.flags.portageSections) {
        state := EVAL_VALUE;
      } else if c == '#' || (c == ';' && config.flags.portageSections) {
        NoiseAtHash(filebuffer, x);
        NextInput(JUMP_COMMENT);
      } else {
        state := JUMP_NOISE;
      }
    }

    // ---- References ----

    /** What is no reference stands for its first character. */
    method AppendRet(backup: nat)
      requires backup < |filebuffer|
      modifies this`x, this`value
      ensures x == backup + 1 && value == old(value) + [filebuffer[backup]]
    {
      x := backup;
      value := value + [filebuffer[x]];
      x := x + 1;
    }

    method VarAppend(beginning: nat, length: nat)
      requires beginning + length <= |filebuffer|
      modifies this`value
      ensures value == old(value) + Lookup(Known(), filebuffer[beginning..beginning + length])
    {
      var name := filebuffer[beginning..beginning + length];
      assert value + [] == value;
      if length == 0 { return; }
      if section != [] && name + section in vars {
        value := value + vars[name + section];
      } else if name in vars {
        value := value + vars[name];
      }
    }

    /** The name of a variable; the position may come to the end. */
    method SkipName(spaced: bool) returns (length: nat)
      requires x <= |filebuffer|
      modifies this`x
      ensures x == (if spaced then NameEnd(filebuffer, old(x)) else KeyEnd(filebuffer, old(x))) && length == x - old(x)
    {
      length := 0;
      while x < |filebuffer| && (IsKeyChar(filebuffer[x]) || (spaced && IsNameChar(filebuffer[x])))
        invariant old(x) <= x <= |filebuffer| && length == x - old(x)
        invariant if spaced then NameEnd(filebuffer, x) == NameEnd(filebuffer, old(x)) else KeyEnd(filebuffer, x) == KeyEnd(filebuffer, old(x))
        decreases |filebuffer| - x
      {
        length := length + 1;
        x := x + 1;
      }
    }

    method ResolveReference()
      requires x < |filebuffer|
      modifies this`x, this`value
      ensures var r := Reference(config.flags, Known(), filebuffer, old(x)); value == old(value) + r.0 && x == r.1
    {
      hide Lookup, KeyEnd, NameEnd;
      var backup := x;
      x := x + 1;
      if x == |filebuffer| { AppendRet(backup); return; }
      var brace := false;
      if filebuffer[x] == '{' {
        brace := true;
        x := x + 1;
        if x == |filebuffer| { AppendRet(backup); return; }
      }
      var beginning := x;
      if config.flags.portageSections && !brace { AppendRet(backup); return; }
      var length := SkipName(config.flags.portageSections);
      if brace && (x == |filebuffer| || filebuffer[x] != '}') { AppendRet(backup); return; }
      VarAppend(beginning, length);
      if brace { x := x + 1; }
    }

    method ResolveSectionReference()
      requires x < |filebuffer|
      modifies this`x, this`value
      ensures var r := SectionReference(Known(), filebuffer, old(x)); value == old(value) + r.0 && x == r.1
    {
      hide Lookup, NameEnd;
      var backup := x;
      x := x + 1;
      if x == |filebuffer| || filebuffer[x] != '(' { AppendRet(backup); return; }
      x := x + 1;
      if x == |filebuffer| { AppendRet(backup); return; }
      var beginning := x;
      var length := SkipName(true);
      if x == |filebuffer| { AppendRet(backup); return; }
      if filebuffer[x] != ')' {
        x := x + 1;
        if x == |filebuffer| { AppendRet(backup); return; }
      }
      x := x + 1;
      if x == |filebuffer| || filebuffer[x] != 's' { AppendRet(backup); return; }
      VarAppend(beginning, length);
      x := x + 1;
    }

    // ---- Values ----

    /** A character or a reference of a value. */
    method TakePiece(mode: Mode)
      requires x < |filebuffer| && InValue(config.flags, filebuffer[x], mode) && Settled(config.flags)
      modifies this`x, this`value
      ensures old(x) < x <= |filebuffer|
      ensures Whole(config.flags, Known(), filebuffer, value, x, mode) == Whole(config.flags, Known(), filebuffer, old(value), old(x), mode)
    {
      hide Whole, Reference, SectionReference;
      WholePiece(config.flags, Known(), filebuffer, value, x, mode);
      if Refers(config.flags, mode, filebuffer[x]) {
        ResolveReference();
      } else if SectionRefers(config.flags, filebuffer[x]) {
        ResolveSectionReference();
      } else {
        value := value + if filebuffer[x] == '\n' && config.flags.portageEscapes && mode != Bare then " " else [filebuffer[x]];
        x := x + 1;
      }
    }

    /** From a quote or a backslash to the state behind it. */
    method LeaveValue(mode: Mode)
      requires x < |filebuffer| && filebuffer[x] in "'\"\\" && !InValue(config.flags, filebuffer[x], mode)
      modifies this`x, this`state
      ensures x == old(x) + 1 && (x == |filebuffer| ==> state == EVAL_READ)
      ensures IsValue(config.flags, state) && ValueLeft() == Whole(config.flags, Known(), filebuffer, value, old(x), mode)
    {
      hide Whole, Unescaped;
      ghost var f, s, env := config.flags, filebuffer, Known();
      var c := filebuffer[x];
      if c == '\\' {
        WholeEscape(f, env, s, value, x, mode);
        NextInputEval(EscapeState(config.flags, mode));
      } else {
        WholeQuote(f, env, s, value, x);
        NextInputEval(if mode != Bare then EVAL_READ else ValueState(config.flags, if c == '"' then Double else Single));
      }
      if x == |filebuffer| {
        WholeAtEnd(f, env, s, value, Single);
        WholeAtEnd(f, env, s, value, Double);
      }
    }

    /** The four states for a quoted value. */
    method ValueQuote(mode: Mode)
      requires mode != Bare && Settled(config.flags) && state == ValueState(config.flags, mode) && x < |filebuffer|
      modifies this`x, this`state, this`value
      ensures old(x) < x <= |filebuffer| && (x == |filebuffer| ==> state == EVAL_READ)
      ensures IsValue(config.flags, state) && ValueLeft() == old(ValueLeft())
    {
      hide Whole, Unescaped;
      ghost var f, s, env, whole := config.flags, filebuffer, Known(), ValueLeft();
      var quote := if mode == Single then '\'' else '"';
      while filebuffer[x] != quote && filebuffer[x] != '\\'
        invariant old(x) <= x < |filebuffer| && state == old(state) && Whole(f, env, s, value, x, mode) == whole
        decreases |filebuffer| - x
      {
        TakePiece(mode);
        if x == |filebuffer| {
          WholeAtEnd(f, env, s, value, mode);
          state := EVAL_READ;
          return;
        }
      }
      LeaveValue(mode);
    }

    /** The two states for a value outside of quotes. */
    method ValueWhitespace()
      requires Settled(config.flags) && state == ValueState(config.flags, Bare) && x < |filebuffer|
      modifies this`x, this`state, this`value
      ensures old(x) <= x <= |filebuffer| && (x == |filebuffer| ==> state == EVAL_READ)
      ensures x == old(x) ==> state == EVAL_READ && IsDelimiter(config.flags, filebuffer[x])
      ensures IsValue(config.flags, state) && ValueLeft() == old(ValueLeft())
    {
      hide Whole, Unescaped;
      ghost var f, s, env, whole := config.flags, filebuffer, Known(), ValueLeft();
      while InValue(config.flags, filebuffer[x], Bare)
        invariant old(x) <= x < |filebuffer| && state == old(state) && Whole(f, env, s, value, x, Bare) == whole
        decreases |filebuffer| - x
      {
        TakePiece(Bare);
        if x == |filebuffer| {
          state := EVAL_READ;
          return;
        }
      }
      if IsDelimiter(config.flags, filebuffer[x]) {
        state := EVAL_READ;
      } else {
        LeaveValue(Bare);
      }
    }

    method EvalRead()
      requires state == EVAL_READ && x <= |filebuffer|
      modifies this`x, this`state
      ensures old(x) <= x <= |filebuffer| && (x == |filebuffer| ==> state in {EVAL_READ, ASSIGN_KEY_VALUE})
      ensures x == old(x) && state != ASSIGN_KEY_VALUE ==>
        state == ValueState(config.flags, Bare) && x < |filebuffer| && !IsDelimiter(config.flags, filebuffer[x])
      ensures state == ASSIGN_KEY_VALUE ==> old(ValueLeft()) == (value, x)
      ensures state != ASSIGN_KEY_VALUE ==> IsValue(config.flags, state) && ValueLeft() == old(ValueLeft())
    {
      hide Whole, Unescaped;
      if x == |filebuffer| || IsDelimiter(config.flags, filebuffer[x]) {
        WholeEnds(config.flags, Known(), filebuffer, value, x, Bare);
        state := ASSIGN_KEY_VALUE;
      } else if filebuffer[x] in "'\"\\" {
        LeaveValue(Bare);
      } else {
        state := ValueState(config.flags, Bare);
      }
    }

    /** A dollar directly behind an escape, and back to the value. */
    method EscapeDone(mode: Mode, dollar: bool)
      requires x < |filebuffer|
      modifies this`x, this`state, this`value
      ensures old(x) < x <= |filebuffer| && (x == |filebuffer| ==> state == EVAL_READ) && IsValue(config.flags, state)
      ensures var r := WithDollar(filebuffer, old(value), old(x) + 1, dollar);
        ValueLeft() == Whole(config.flags, Known(), filebuffer, r.0, r.1, mode)
    {
      hide Whole, Unescaped;
      NextInputEval(ValueState(config.flags, mode));
      if x < |filebuffer| && filebuffer[x] == '$' && dollar {
        value := value + [filebuffer[x]];
        NextInputEval(state);
      }
      if x == |filebuffer| { WholeAtEnd(config.flags, Known(), filebuffer, value, mode); }
    }

    /** The three states for a plain escape. */
    method PlainEscape(mode: Mode)
      requires !config.flags.portageEscapes && state == EscapeState(config.flags, mode) && x < |filebuffer|
      modifies this`x, this`state, this`value
      ensures old(x) < x <= |filebuffer| && (x == |filebuffer| ==> state == EVAL_READ)
      ensures IsValue(config.flags, state) && ValueLeft() == old(ValueLeft())
    {
      hide Whole;
      assert value + [] == value;
      if filebuffer[x] != '\n' { value := value + [filebuffer[x]]; }
      EscapeDone(mode, false);
    }

    method AppendEscaped(c: char)
      modifies this`value
      ensures value == old(value) + [PortageEscape(c)]
    {
      value := value + [match c
                        case 'a' => '\U{07}' case 'b' => '\U{08}' case 'e' => '\U{1b}'
                        case 'f' => '\n' case 'n' => '\n' case 'r' => '\r' case 't' => '\t'
                        case 'v' => '\U{0b}' case _ => c];
    }

    method SingleQuoteEscapePortage()
      requires config.flags.portageEscapes && state == SINGLE_QUOTE_ESCAPE_PORTAGE && x < |filebuffer|
      modifies this`x, this`state, this`value
      ensures old(x) < x <= |filebuffer| && (x == |filebuffer| ==> state == EVAL_READ)
      ensures IsValue(config.flags, state) && ValueLeft() == old(ValueLeft())
    {
      hide Whole, PortageEscape;
      ghost var s, was, start := filebuffer, value, x;
      assert value + [] == value;
      var wasnl := filebuffer[x] == '\n';
      if !wasnl { AppendEscaped(filebuffer[x]); }
      EscapeDone(Single, !wasnl);
      DollarLast(s, was, [PortageEscape(s[start])], start + 1, true);
    }

    method DoubleQuoteEscapePortage()
      requires config.flags.portageEscapes && state == DOUBLE_QUOTE_ESCAPE_PORTAGE && x < |filebuffer|
      modifies this`x, this`state, this`value
      ensures old(x) < x <= |filebuffer| && (x == |filebuffer| ==> state == EVAL_READ)
      ensures IsValue(config.flags, state) && ValueLeft() == old(ValueLeft())
    {
      hide Whole, PortageEscape, WithDollar;
      ghost var f, s, env, was, start := config.flags, filebuffer, Known(), value, x;
      ghost var escape := DoubleEscape(s, start);
      assert ValueLeft() == Whole(f, env, s, was + escape.0, escape.1, Double);
      var dollar := TakeDoubleEscape();
      if state == EVAL_READ {
        WholeAtEnd(f, env, s, value, Double);
      } else {
        EscapeDone(Double, dollar);
      }
    }

    /** Up to the last character of an escape in double quotes. */
    method TakeDoubleEscape() returns (dollar: bool)
      requires state == DOUBLE_QUOTE_ESCAPE_PORTAGE && x < |filebuffer|
      modifies this`x, this`state, this`value
      ensures old(x) <= x <= |filebuffer| && state in {EVAL_READ, old(state)} && (state == EVAL_READ <==> x == |filebuffer|)
      ensures var r := DoubleEscape(filebuffer, old(x));
        (old(value) + r.0, r.1) == if x == |filebuffer| then (value, x) else WithDollar(filebuffer, value, x + 1, dollar)
    {
      hide PortageEscape;
      ghost var was := value;
      assert value + [] == value;
      if filebuffer[x] == '\\' {
        NextInputEval(state);
        if state == EVAL_READ { return false; }
        if filebuffer[x] == '\\' {
          value := value + [filebuffer[x]];
          NextInputEval(state);
          if state == EVAL_READ { return false; }
          if filebuffer[x] == '\n' {
            value := value + " ";
            assert value == was + "\\ ";
            return false;
          }
          if filebuffer[x] != '\\' { value := value + [filebuffer[x]]; }
          DollarLast(filebuffer, was, if filebuffer[x] == '\\' then "\\" else ['\\', filebuffer[x]], x + 1, true);
          assert value == was + if filebuffer[x] == '\\' then "\\" else ['\\', filebuffer[x]];
          return true;
        }
      }
      dollar := filebuffer[x] != '\n';
      if dollar { AppendEscaped(filebuffer[x]); }
      DollarLast(filebuffer, was, [PortageEscape(filebuffer[x])], x + 1, true);
    }

    method WhitespaceEscapePortage()
      requires config.flags.portageEscapes && state == WHITESPACE_ESCAPE_PORTAGE && x < |filebuffer|
      modifies this`x, this`state, this`value
      ensures old(x) < x <= |filebuffer| && (x == |filebuffer| ==> state == EVAL_READ)
      ensures IsValue(config.flags, state) && ValueLeft() == old(ValueLeft())
    {
      hide Whole, PortageEscape, WithDollar;
      ghost var f, s, env, was, start := config.flags, filebuffer, Known(), value, x;
      ghost var escape := BareEscape(s, start);
      assert ValueLeft() == Whole(f, env, s, was + escape.0, escape.1, Bare);
      TakeBareEscape();
      if state == EVAL_READ {
        WholeAtEnd(f, env, s, value, Bare);
      } else {
        EscapeDone(Bare, true);
      }
    }

    /** Up to the last character of an escape outside of quotes. */
    method TakeBareEscape()
      requires state == WHITESPACE_ESCAPE_PORTAGE && x < |filebuffer|
      modifies this`x, this`state, this`value
      ensures old(x) <= x <= |filebuffer| && state in {EVAL_READ, old(state)} && (state == EVAL_READ <==> x == |filebuffer|)
      ensures var r := BareEscape(filebuffer, old(x));
        (old(value) + r.0, r.1) == if x == |filebuffer| then (value, x) else WithDollar(filebuffer, value, x + 1, true)
    {
      hide PortageEscape, WithDollar;
      ghost var was, start := value, x;
      assert value + [] == value;
      if filebuffer[x] == '\n' {
        DollarLast(filebuffer, was, [], x + 1, true);
        return;
      }
      if filebuffer[x] != '\\' {
        value := value + [filebuffer[x]];
        DollarLast(filebuffer, was, [filebuffer[x]], x + 1, true);
        return;
      }
      NextInputEval(state);
      if state == EVAL_READ { return; }
      if filebuffer[x] == '\\' {
        NextInputEval(state);
        if state == EVAL_READ { return; }
      } else if filebuffer[x] in "\r\n" {
        value := value + ['\\'];
      }
      ghost var before := if x == start + 1 && filebuffer[x] in "\r\n" then "\\" else "";
      assert value == was + before;
      if filebuffer[x] !in "\r\n" { AppendEscaped(filebuffer[x]); }
      ghost var text := if filebuffer[x] in "\r\n" then "" else [PortageEscape(filebuffer[x])];
      assert value == was + (before + text);
      DollarLast(filebuffer, was, before + text, x + 1, true);
    }

    // ---- Assignments ----

    method EvalValue()
      requires Settled(config.flags) && state == EVAL_VALUE && x < |filebuffer|
      modifies this`x, this`state, this`value
      ensures old(x) < x <= |filebuffer| && (x == |filebuffer| ==> state in {STOP, EVAL_READ})
      ensures IsValueOf(ValueFor(config.flags, Known(), filebuffer, old(x)))
    {
      hide Whole, Unescaped, NoiseEnd, CommentEnd, QuotedNoiseEnd, SkipBlank, ValueStart, ValueLeft;
      NextInput(EVAL_VALUE);
      value := [];
      if state == STOP { return; }
      if config.flags.portageEscapes { SkipSpace(); }
      if state == STOP { return; }
      FirstOfValue();
    }

    /** The state for the value that was found, or for the noise instead of one. */
    ghost predicate IsValueOf(v: Value)
      reads this
      requires x <= |filebuffer| && (x == |filebuffer| ==> state in {STOP, EVAL_READ})
    {
      if v.NoValue? then (IsNoise(state) || state == STOP) && NoiseLeft() == v.next
      else if state == ASSIGN_KEY_VALUE then (value, x) == (v.text, v.next)
      else IsValue(config.flags, state) && ValueLeft() == (v.text, v.next)
    }

    method FirstOfValue()
      requires Settled(config.flags) && state == EVAL_VALUE && x < |filebuffer| && value == []
      modifies this`x, this`state
      ensures old(x) <= x <= |filebuffer| && (x == |filebuffer| ==> state in {STOP, EVAL_READ})
      ensures IsValueOf(ValueStart(config.flags, Known(), filebuffer, old(x)))
    {
      hide Whole, Unescaped, NoiseEnd, CommentEnd, QuotedNoiseEnd, ValueAt;
      WholeStarts(config.flags, Known(), filebuffer, x);
      var c := filebuffer[x];
      if c in "'\"\\" {
        LeaveValue(Bare);
        if x == |filebuffer| { state := STOP; }
      } else if c in "\r\n" {
        WholeEnds(config.flags, Known(), filebuffer, value, x, Bare);
        state := ASSIGN_KEY_VALUE;
      } else if IsBlank(c) {
        state := JUMP_NOISE;
      } else if c == '#' {
        NextInput(JUMP_COMMENT);
      } else {
        state := ValueState(config.flags, Bare);
      }
    }

    method AssignKeyValue()
      requires state == ASSIGN_KEY_VALUE && x <= |filebuffer| && retstate && (sourcecmd || KeyKnown())
      modifies this`state, this`retstate, this`sourcecmd, this`vars, this`keywordsRead, this`slotRead
      ensures var a := old(Assign(config, filebuffer, Known(), if sourcecmd then File else Variable(keyBegin, keyLen), value));
        && Known() == a.env && retstate == a.ok && (a.ok || a.stop)
        && state == if a.stop || x == |filebuffer| then STOP else JUMP_NOISE
    {
      hide Assign;
      state := if x == |filebuffer| then STOP else JUMP_NOISE;
      if sourcecmd {
        sourcecmd := false;
        Source();
      } else if config.flags.onlyKeywordsSlot {
        AssignKeyword();
      } else {
        AssignPlainly();
      }
    }

    method AssignPlainly()
      requires KeyKnown() && !config.flags.onlyKeywordsSlot
      modifies this`vars
      ensures var a := Assign(config, filebuffer, old(Known()), Variable(keyBegin, keyLen), value);
        Known() == a.env && a.ok && !a.stop
    {
      vars := vars[filebuffer[keyBegin..keyBegin + keyLen] + section := value];
    }

    /** Assigns; the machine stops once both KEYWORDS and SLOT are known. */
    method AssignKeyword()
      requires KeyKnown() && config.flags.onlyKeywordsSlot
      modifies this`state, this`vars, this`keywordsRead, this`slotRead
      ensures var a := Assign(config, filebuffer, old(Known()), Variable(keyBegin, keyLen), value);
        Known() == a.env && a.ok && state == if a.stop then STOP else old(state)
    {
      hide StartsAt;
      vars := vars[filebuffer[keyBegin..keyBegin + keyLen] := value];
      var keywords := Compare("KEYWORDS=");
      if keywords {
        keywordsRead := true;
        if slotRead { state := STOP; }
        return;
      }
      var slot := Compare("SLOT=");
      if slot {
        slotRead := true;
        if keywordsRead { state := STOP; }
      }
    }

    /** Reads another file; what it assigned is kept even when it failed. */
    method Source()
      modifies this`vars, this`keywordsRead, this`slotRead, this`retstate, this`state
      ensures var a := Assign(config, filebuffer, old(Known()), File, value);
        Known() == a.env && (a.ok || a.stop) && retstate == (a.ok && old(retstate)) && state == if a.stop then STOP else old(state)
    {
      if value == [] {
        retstate, state := false, STOP;
        return;
      }
      var r := config.source(value, Known());
      vars := r.vars;
      if !r.ok {
        retstate, state := false, STOP;
        return;
      }
      keywordsRead := keywordsRead || r.keywordsRead;
      slotRead := slotRead || r.slotRead;
      if config.flags.onlyKeywordsSlot && keywordsRead && slotRead { state := STOP; }
    }

    /** Compares the text from the key on; the comparison ends with the key. */
    method Compare(t: string) returns (equal: bool)
      requires KeyKnown() && t != [] && forall i :: 0 <= i < |t| - 1 ==> IsKeyChar(t[i])
      ensures equal == StartsAt(filebuffer, keyBegin, t)
    {
      var i := 0;
      assert t[0..] == t;
      while i < |t|
        invariant i <= |t| && i <= keyLen + 1 && (i == keyLen + 1 ==> i == |t|)
        invariant StartsAt(filebuffer, keyBegin, t) == StartsAt(filebuffer, keyBegin + i, t[i..])
        decreases |t| - i
      {
        assert t[i..][1..] == t[i + 1..];
        if filebuffer[keyBegin + i] != t[i] { return false; }
        i := i + 1;
      }
      return true;
    }

    // ---- Sections ----

    method EvalSection()
      requires state == EVAL_SECTION && x < |filebuffer|
      modifies this`x, this`state, this`value, this`section
      ensures var h := HeaderAt(filebuffer, SkipBlank(filebuffer, old(x)));
        && x == h.next && old(x) <= x && state == (if x == |filebuffer| then STOP else JUMP_NOISE)
        && Known() == if x == |filebuffer| then old(Known()) else Enter(old(Known()), h)
    {
      hide SkipBlank, HeaderAt;
      value := [];
      SkipSpace();
      HeaderStep(filebuffer, x);
      if state == STOP { return; }
      TakeHeader();
      if state == EVAL_SECTION {
        if value != "DEFAULT" { section := ":" + value; }
        state := JUMP_NOISE;
      }
    }

    /** The name of a section, up to the bracket or to what ends the line. */
    method TakeHeader()
      requires state == EVAL_SECTION && x < |filebuffer| && value == []
      modifies this`x, this`state, this`value
      ensures old(x) <= x <= |filebuffer| && state in {EVAL_SECTION, STOP, JUMP_NOISE} && (state == STOP <==> x == |filebuffer|)
      ensures var h := HeaderAt(filebuffer, old(x));
        x == h.next && h.closed == (state == EVAL_SECTION) && (h.closed ==> h.name == value)
    {
      hide HeaderAt;
      ghost var h := HeaderAt(filebuffer, x);
      assert HeaderThen([], h) == h;
      while filebuffer[x] !in "]\r\n"
        invariant old(x) <= x < |filebuffer| && state == EVAL_SECTION && h == HeaderThen(value, HeaderAt(filebuffer, x))
        decreases |filebuffer| - x
      {
        ghost var was := value;
        HeaderStep(filebuffer, x);
        if filebuffer[x] == '\\' {
          TakeHeaderEscape();
        } else {
          value := value + [filebuffer[x]];
          NextInput(EVAL_SECTION);
        }
        HeaderStep(filebuffer, x);
        if state != EVAL_SECTION { return; }
        HeaderRegroup(was, [value[|value| - 1]], HeaderAt(filebuffer, x));
        assert value == was + [value[|value| - 1]];
      }
      HeaderStep(filebuffer, x);
      assert value + [] == value;
      if filebuffer[x] != ']' { state := JUMP_NOISE; }
    }

    /** An escape in the name of a section; what ends the line ends the name. */
    method TakeHeaderEscape()
      requires state == EVAL_SECTION && x < |filebuffer| && filebuffer[x] == '\\'
      modifies this`x, this`state, this`value
      ensures old(x) < x <= |filebuffer| && (x == |filebuffer| ==> state == STOP) && state in {EVAL_SECTION, STOP, JUMP_NOISE}
      ensures state == EVAL_SECTION ==> |value| == |old(value)| + 1 && old(value) <= value
      ensures state == EVAL_SECTION ==> HeaderAt(filebuffer, old(x)) == HeaderThen([value[|value| - 1]], HeaderAt(filebuffer, x))
      ensures state == STOP ==> x == |filebuffer| && HeaderAt(filebuffer, old(x)).next == x && !HeaderAt(filebuffer, old(x)).closed
      ensures state == JUMP_NOISE ==> HeaderAt(filebuffer, old(x)) == Header([], x, false)
    {
      hide PortageEscape;
      NextInput(EVAL_SECTION);
      if state == STOP { return; }
      if filebuffer[x] == '\\' {
        NextInput(EVAL_SECTION);
        if state == STOP { return; }
        if filebuffer[x] == '\\' {
          NextInput(EVAL_SECTION);
          if state == STOP { return; }
        }
        if filebuffer[x] in "\r\n" {
          state := JUMP_NOISE;
          return;
        }
        AppendEscaped(filebuffer[x]);
      } else {
        value := value + [filebuffer[x]];
      }
      NextInput(EVAL_SECTION);
    }

    // ---- The machine ----

    ghost predicate Ready()
      reads this
    {
      && Settled(config.flags)
      && x <= |filebuffer|
      && (x == |filebuffer| ==> state in {EVAL_READ, ASSIGN_KEY_VALUE, STOP})
      && (state != STOP ==> retstate)
      && (IsPlainValue(state) || IsPortageValue(state) ==> IsValue(config.flags, state))
      && (state == FIND_ASSIGNMENT ==> keyBegin == x && IsKeyStart(filebuffer[x]) && !sourcecmd)
      && (state in {EVAL_VALUE, ASSIGN_KEY_VALUE} || IsValue(config.flags, state) ==> sourcecmd || KeyKnown())
    }

    ghost function Finish(v: (string, nat)): Reading
      reads this
      requires v.1 <= |filebuffer| && (sourcecmd || KeyKnown())
    {
      AfterValue(config, filebuffer, v.1, Assign(config, filebuffer, Known(), if sourcecmd then File else Variable(keyBegin, keyLen), v.0))
    }

    /** What the text comes to from here on. */
    ghost function Goal(): Reading
      reads this
      requires Ready()
    {
      if state == STOP then Reading(retstate, Known())
      else if IsNoise(state) || state == JUMP_WHITESPACE then ReadFrom(config, filebuffer, NoiseLeft(), Known())
      else if state == EVAL_SECTION then AfterHeader(config, filebuffer, HeaderAt(filebuffer, SkipBlank(filebuffer, x)), Known())
      else if state == FIND_ASSIGNMENT then ReadKey(config, filebuffer, x, Known())
      else if state == EVAL_VALUE then
        ReadValue(config, filebuffer, x, Known(), if sourcecmd then File else Variable(keyBegin, keyLen))
      else if state == ASSIGN_KEY_VALUE then Finish((value, x))
      else Finish(ValueLeft())
    }

    ghost function Height(): nat
      reads this
    {
      Rank(config.flags, state, filebuffer, x)
    }

    /** The machine went on: behind where it was, or to a lower state. */
    ghost predicate Beyond(x0: nat, height0: nat)
      reads this
    {
      x0 < x || (x0 == x && Height() < height0)
    }

    method StepNoise()
      requires Ready() && IsNoise(state)
      modifies this`x, this`state
      ensures Ready() && Goal() == old(Goal()) && Beyond(old(x), old(Height()))
    {
      hide ReadFrom, NoiseEnd, CommentEnd, QuotedNoiseEnd, NoiseLeft;
      ghost var start := NoiseLeft();
      if state == JUMP_NOISE { JumpNoise(); }
      else if state == JUMP_COMMENT { JumpComment(); }
      else if state == NOISE_ESCAPE { NoiseEscape(); }
      else { NoiseQuote(if state == NOISE_SINGLE_QUOTE then '\'' else '"'); }
      AtLineStart(start);
    }

    lemma AtLineStart(start: nat)
      requires x <= |filebuffer| && (x == |filebuffer| ==> state == STOP) && (IsNoise(state) || state in {JUMP_WHITESPACE, STOP})
      requires NoiseLeft() == start
      ensures state == STOP ==> ReadFrom(config, filebuffer, start, Known()) == Reading(true, Known())
    {
      if state == STOP { EndReads(config, filebuffer, Known()); }
    }

    method StepLine()
      requires Ready() && state == JUMP_WHITESPACE
      modifies this`x, this`state, this`sourcecmd, this`keyBegin
      ensures Ready() && Goal() == old(Goal()) && Beyond(old(x), old(Height()))
    {
      hide ReadFrom, ReadValue, ReadKey, AfterHeader, LineAt, NoiseEnd, SkipBlank, HeaderAt, Goal, KeyKnown;
      LineReads(config, filebuffer, x, Known());
      GoalOfLine();
      JumpWhitespace();
      GoalOfLine();
      if state == JUMP_WHITESPACE { NewlineReads(config, filebuffer, x, Known()); }
    }

    lemma GoalOfLine()
      requires Ready()
      ensures state == STOP ==> Goal() == Reading(retstate, Known())
      ensures state == JUMP_WHITESPACE ==> Goal() == ReadFrom(config, filebuffer, x, Known())
      ensures state == JUMP_NOISE ==> Goal() == ReadFrom(config, filebuffer, NoiseEnd(filebuffer, x), Known())
      ensures state == EVAL_SECTION ==> Goal() == AfterHeader(config, filebuffer, HeaderAt(filebuffer, SkipBlank(filebuffer, x)), Known())
      ensures state == FIND_ASSIGNMENT ==> Goal() == ReadKey(config, filebuffer, x, Known())
      ensures state == EVAL_VALUE && sourcecmd ==> Goal() == ReadValue(config, filebuffer, x, Known(), File)
    {
      hide ReadFrom, ReadValue, ReadKey, AfterHeader, NoiseEnd, SkipBlank, HeaderAt;
    }

    method StepSection()
      requires Ready() && state == EVAL_SECTION
      modifies this`x, this`state, this`value, this`section
      ensures Ready() && Goal() == old(Goal()) && Beyond(old(x), old(Height()))
    {
      hide ReadFrom, ReadValue, ReadKey, HeaderAt, NoiseEnd, SkipBlank;
      EvalSection();
    }

    method StepKey()
      requires Ready() && state == FIND_ASSIGNMENT
      modifies this`x, this`state, this`keyLen
      ensures Ready() && Goal() == old(Goal()) && Beyond(old(x), old(Height()))
    {
      hide ReadFrom, ReadValue, KeyAt, NoiseLeft;
      FindAssignment();
      if state != EVAL_VALUE { AtLineStart(NoiseLeft()); }
    }

    method StepEval()
      requires Ready() && state == EVAL_VALUE
      modifies this`x, this`state, this`value
      ensures Ready() && Goal() == old(Goal()) && Beyond(old(x), old(Height()))
    {
      hide ReadFrom, AfterValue, Assign, ValueFor, NoiseLeft, ValueLeft;
      EvalValue();
      if IsNoise(state) || state == STOP { AtLineStart(NoiseLeft()); }
    }

    method StepAssign()
      requires Ready() && state == ASSIGN_KEY_VALUE
      modifies this`state, this`retstate, this`sourcecmd, this`vars, this`keywordsRead, this`slotRead
      ensures Ready() && Goal() == old(Goal()) && Beyond(old(x), old(Height()))
    {
      hide ReadFrom, Assign, NoiseEnd;
      AssignKeyValue();
      if x == |filebuffer| { EndReads(config, filebuffer, Known()); }
    }

    method StepValue()
      requires Ready() && IsValue(config.flags, state) && state != EVAL_READ
      modifies this`x, this`state, this`value
      ensures Ready() && Goal() == old(Goal()) && Beyond(old(x), old(Height()))
    {
      hide AfterValue, Assign, ValueLeft, Goal, IsDelimiter;
      GoalOfValue();
      StepInValue();
      GoalOfValue();
    }

    lemma GoalOfValue()
      requires Ready()
      ensures IsValue(config.flags, state) ==> Goal() == Finish(ValueLeft())
      ensures state == ASSIGN_KEY_VALUE ==> Goal() == Finish((value, x))
    {
      hide AfterValue, Assign, ValueLeft;
    }

    method StepRead()
      requires Ready() && state == EVAL_READ
      modifies this`x, this`state
      ensures Ready() && Goal() == old(Goal()) && Beyond(old(x), old(Height()))
    {
      hide AfterValue, Assign, ValueLeft, Goal, IsDelimiter;
      GoalOfValue();
      EvalRead();
      GoalOfValue();
    }

    method StepInValue()
      requires Settled(config.flags) && IsValue(config.flags, state) && state != EVAL_READ && x < |filebuffer|
      modifies this`x, this`state, this`value
      ensures old(x) <= x <= |filebuffer| && (x == |filebuffer| ==> state == EVAL_READ)
      ensures x == old(x) ==> state == EVAL_READ && old(Height()) == 4
      ensures IsValue(config.flags, state) && ValueLeft() == old(ValueLeft())
    {
      hide ValueLeft;
      if state == ValueState(config.flags, Bare) { ValueWhitespace(); }
      else if state == ValueState(config.flags, Single) { ValueQuote(Single); }
      else if state == ValueState(config.flags, Double) { ValueQuote(Double); }
      else if config.flags.portageEscapes { StepEscapePortage(); }
      else { StepEscape(); }
    }

    method StepEscapePortage()
      requires config.flags.portageEscapes && x < |filebuffer|
      requires state in {SINGLE_QUOTE_ESCAPE_PORTAGE, DOUBLE_QUOTE_ESCAPE_PORTAGE, WHITESPACE_ESCAPE_PORTAGE}
      modifies this`x, this`state, this`value
      ensures old(x) < x <= |filebuffer| && (x == |filebuffer| ==> state == EVAL_READ)
      ensures IsValue(config.flags, state) && ValueLeft() == old(ValueLeft())
    {
      hide ValueLeft;
      if state == SINGLE_QUOTE_ESCAPE_PORTAGE { SingleQuoteEscapePortage(); }
      else if state == DOUBLE_QUOTE_ESCAPE_PORTAGE { DoubleQuoteEscapePortage(); }
      else { WhitespaceEscapePortage(); }
    }

    method StepEscape()
      requires !config.flags.portageEscapes && x < |filebuffer|
      requires state in {SINGLE_QUOTE_ESCAPE, DOUBLE_QUOTE_ESCAPE, WHITESPACE_ESCAPE}
      modifies this`x, this`state, this`value
      ensures old(x) < x <= |filebuffer| && (x == |filebuffer| ==> state == EVAL_READ)
      ensures IsValue(config.flags, state) && ValueLeft() == old(ValueLeft())
    {
      hide ValueLeft;
      PlainEscape(if state == SINGLE_QUOTE_ESCAPE then Single else if state == DOUBLE_QUOTE_ESCAPE then Double else Bare);
    }

    /** One call of the current state. */
    method Step()
      requires Ready() && state != STOP
      modifies this
      ensures filebuffer == old(filebuffer) && x <= |filebuffer| && Ready() && Goal() == old(Goal()) && Beyond(old(x), old(Height()))
    {
      hide Goal, Rank, KeyKnown;
      if IsNoise(state) { StepNoise(); }
      else if state == JUMP_WHITESPACE { StepLine(); }
      else if state == EVAL_SECTION { StepSection(); }
      else if state == FIND_ASSIGNMENT { StepKey(); }
      else if state == EVAL_VALUE { StepEval(); }
      else if state == ASSIGN_KEY_VALUE { StepAssign(); }
      else if state == EVAL_READ { StepRead(); }
      else { StepValue(); }
    }

    /** Reads a text that is not empty. The machine stops on every text, and comes to what the text
        means; no character at or behind the end is looked at. */
    method ReadMem(buffer: string) returns (ok: bool)
      requires Settled(config.flags) && buffer != []
      modifies this
      ensures Reading(ok, Known()) == ReadFrom(config, buffer, 0, Env(old(vars), [], old(keywordsRead), old(slotRead)))
    {
      hide ReadFrom, Ready, Goal, Rank;
      InitFsm(buffer);
      while state != STOP
        invariant filebuffer == buffer && x <= |buffer| && Ready()
        invariant Goal() == ReadFrom(config, buffer, 0, Env(old(vars), [], old(keywordsRead), old(slotRead)))
        decreases |buffer| - x, Height()
      {
        Step();
      }
      Stopped();
      return retstate;
    }

    lemma Stopped()
      requires Ready() && state == STOP
      ensures Goal() == Reading(retstate, Known())
    {
    }

    method InitFsm(buffer: string)
      requires Settled(config.flags) && buffer != []
      modifies this
      ensures filebuffer == buffer && x == 0 && Ready()
      ensures Goal() == ReadFrom(config, buffer, 0, Env(old(vars), [], old(keywordsRead), old(slotRead)))
    {
      hide ReadFrom, ReadValue, ReadKey, AfterHeader, AfterValue, Assign, ValueLeft;
      filebuffer, state, retstate, sourcecmd, x, keyLen, section := buffer, JUMP_WHITESPACE, true, false, 0, 0, [];
    }
  }
}
