/** The output format language: a text is parsed into nodes by a machine with an explicit
stack. */
module FormatParsing {
  import opened Strings
  import opened Wrappers

  datatype Rhs = RhsString | RhsProperty | RhsVar

  /** The head of a condition or of an assignment. */
  datatype Head = Head(isSet: bool, user: bool, negation: bool, variable: string, rhs: Rhs, text: string)

  /** Node lists are linked by `next` in the program; an empty list is a null pointer. */
  datatype Node =
    | Text(text: string)
    | Property(name: string, user: bool)
    | Block(head: Head, final: bool, yes: seq<Node>, no: seq<Node>)

  datatype FormatError =
    | UnclosedColor | BadColor | UnclosedProperty | NoName | UnclosedBlock | UnexpectedSymbol | ElseWithoutIf | FiWithoutIf

  /** What a colour description stands for; None if it is none. */
  datatype Colors = Colors(enabled: bool, onlyColors: bool, colorOf: string -> Option<string>)

  const WHITE := " \t\n\r\U{0b}\U{0c}"

  /** The character at `i` of a C string, which ends with a NUL. */
  function CharAt(s: string, i: nat): char
    requires i <= |s|
  {
    if i < |s| then s[i] else NUL
  }

  function Seek(s: string, pos: nat): (r: nat)
    requires pos <= |s|
    ensures pos <= r <= |s| && (forall k :: pos <= k < r ==> s[k] in WHITE) && (r < |s| ==> s[r] !in WHITE)
    decreases |s| - pos
  {
    if pos < |s| && s[pos] in WHITE then Seek(s, pos + 1) else pos
  }

  function GetEscape(c: char): char
  {
    if c == NUL then '\\' else if c == 'n' then '\n' else if c == 'r' then '\r' else if c == 't' then '\t'
    else if c == 'b' then '\U{08}' else if c == 'a' then '\U{07}' else c
  }

  predicate IsNumeric(s: string) { s != [] && forall i :: 0 <= i < |s| ==> '0' <= s[i] <= '9' }

  /** append_escape at a backslash: the text it stands for, and the position of the last
      character that belongs to it. A column mark has no text. */
  function AppendEscape(s: string, pos: nat): (r: (string, nat))
    requires pos < |s|
    ensures pos < r.1 <= |s| && (r.1 == |s| <==> pos + 1 == |s|)
  {
    var p := pos + 1;
    if p + 1 < |s| && s[p] == 'C' && s[p + 1] == '<' then
      var end := FindFirstOf(s, ">", p + 2);
      if end < |s| && IsNumeric(s[p + 2..end]) then ([], end) else ([GetEscape(s[p])], p)
    else ([GetEscape(CharAt(s, p))], p)
  }

  /** One character or escape of a text, and the position behind it. */
  function TextPiece(s: string, pos: nat): (r: (string, nat))
    requires pos < |s|
    ensures pos < r.1 <= |s|
  {
    if s[pos] == '\\' then
      var (t, p) := AppendEscape(s, pos);
      (t, if p < |s| then p + 1 else p)
    else ([s[pos]], pos + 1)
  }

  /** (text, position): the text state. */
  function TextAt(s: string, pos: nat, stop: string): (r: (string, nat))
    requires pos <= |s|
    ensures pos <= r.1 <= |s|
    ensures pos < |s| && s[pos] !in stop ==> pos < r.1
    decreases |s| - pos
  {
    if pos == |s| || s[pos] in stop then ([], pos)
    else
      var (t, p) := TextPiece(s, pos);
      var (rest, q) := TextAt(s, p, stop);
      (t + rest, q)
  }

  /** The text state meets a backslash that is the last character: it goes on behind the end. */
  predicate TextOverruns(s: string, pos: nat, stop: string)
    requires pos <= |s|
    decreases |s| - pos
  {
    pos < |s| && s[pos] !in stop && ((s[pos] == '\\' && pos + 1 == |s|) || TextOverruns(s, TextPiece(s, pos).1, stop))
  }

  datatype Modus = Single | Double | Plain | InProperty

  predicate EndsRhs(m: Modus, c: char)
  {
    match m
    case Single => c == '\''
    case Double => c == '"'
    case InProperty => c == '>'
    case Plain => c == '}' || c in WHITE
  }

  predicate IsColorChar(c: char) { 'a' <= c <= 'z' || 'A' <= c <= 'Z' || '0' <= c <= '9' || c in "|,;:" }

  function ColorEnd(s: string, pos: nat): (r: nat)
    requires pos <= |s|
    ensures pos <= r <= |s|
    decreases |s| - pos
  {
    if pos < |s| && IsColorChar(s[pos]) then ColorEnd(s, pos + 1) else pos
  }

  /** One character, escape or colour of a right hand side, and the position behind it. */
  function RhsPiece(c: Colors, s: string, pos: nat, m: Modus): (r: (string, nat))
    requires pos < |s|
    ensures pos < r.1 <= |s|
  {
    if s[pos] == '\\' && m != Single then TextPiece(s, pos)
    else if s[pos] == '(' && m in {Plain, InProperty} then
      var q := ColorEnd(s, pos + 1);
      var color := if CharAt(s, q) == ')' then c.colorOf(s[pos + 1..q]) else None;
      if color.Some? then (if c.enabled then color.value else [], q + 1) else ("(", pos + 1)
    else ([s[pos]], pos + 1)
  }

  /** (text, position): the right hand side of a head. */
  function RhsAt(c: Colors, s: string, pos: nat, m: Modus): (r: (string, nat))
    requires pos <= |s|
    ensures pos <= r.1 <= |s|
    decreases |s| - pos
  {
    if pos == |s| || EndsRhs(m, s[pos]) then ([], pos)
    else
      var (t, p) := RhsPiece(c, s, pos, m);
      var (rest, q) := RhsAt(c, s, p, m);
      (t + rest, q)
  }

  /** A right hand side meets a parenthesis behind which only characters of colours follow: the
      scan for the end of the colour goes on behind the end. */
  predicate RhsOverruns(c: Colors, s: string, pos: nat, m: Modus)
    requires pos <= |s|
    decreases |s| - pos
  {
    && pos < |s| && !EndsRhs(m, s[pos])
    && ((s[pos] == '(' && m in {Plain, InProperty} && ColorEnd(s, pos + 1) == |s|) || RhsOverruns(c, s, RhsPiece(c, s, pos, m).1, m))
  }

  predicate StartsWith(s: string, pos: nat, t: string)
    requires pos <= |s|
  {
    pos + |t| <= |s| && s[pos..pos + |t|] == t
  }

  /** What stands behind "{". */
  datatype Tag = ElseTag(next: nat) | FiTag(next: nat) | HeadTag(head: Head, next: nat) | Bad(error: FormatError) | Past

  function NameStop(s: string, pos: nat): (r: nat)
    requires pos <= |s|
    ensures pos <= r <= |s| && (forall k :: pos <= k < r ==> s[k] !in "}=" && s[k] !in WHITE)
    ensures r < |s| ==> s[r] in "}=" || s[r] in WHITE
    decreases |s| - pos
  {
    if pos == |s| || s[pos] in "}=" || s[pos] in WHITE then pos else NameStop(s, pos + 1)
  }

  /** The right hand side and the closing brace. */
  function RhsTag(c: Colors, s: string, pos: nat, h: Head): (r: Tag)
    requires pos < |s|
    ensures r.HeadTag? ==> pos < r.next <= |s|
    ensures r.HeadTag? || r.Bad? || r.Past?
  {
    var rhs := if s[pos] == '<' then RhsProperty else if s[pos] == '$' then RhsVar else RhsString;
    var modus := if s[pos] == '<' then InProperty else if s[pos] == '\'' then Single else if s[pos] == '"' then Double else Plain;
    var start := if s[pos] in "<$" then Seek(s, pos + 1) else if s[pos] in "'\"" then pos + 1 else pos;
    if RhsOverruns(c, s, start, modus) then Past
    else
      var (text, p) := RhsAt(c, s, start, modus);
      var q := if p < |s| && s[p] != '}' then Seek(s, p + 1) else p;
      if CharAt(s, q) != '}' then Bad(UnclosedBlock) else HeadTag(h.(rhs := rhs, text := text), q + 1)
  }

  /** The name, and what follows it. */
  function NameTag(c: Colors, s: string, pos: nat, h: Head): (r: Tag)
    requires pos <= |s|
    ensures r.HeadTag? ==> pos < r.next <= |s|
    ensures r.HeadTag? || r.Bad? || r.Past?
  {
    var end := NameStop(s, pos);
    if end == pos then Bad(NoName)
    else if end == |s| then Bad(UnclosedBlock)
    else
      var g := h.(variable := s[pos..end]);
      var p := Seek(s, end);
      if CharAt(s, p) == '}' then HeadTag(g.(negation := !g.negation), p + 1)
      else if CharAt(s, p) != '=' then Bad(UnexpectedSymbol)
      else
        var q := Seek(s, p + 1);
        if q == |s| then Bad(UnclosedBlock) else RhsTag(c, s, q, g)
  }

  /** The marks in front of a name. */
  function MarksTag(c: Colors, s: string, pos: nat): (r: Tag)
    requires pos <= |s|
    ensures r.HeadTag? ==> pos < r.next <= |s|
    ensures r.HeadTag? || r.Bad? || r.Past?
  {
    var p1 := Seek(s, pos);
    var negation := CharAt(s, p1) == '!';
    var p2 := if negation then Seek(s, p1 + 1) else p1;
    var mark := CharAt(s, p2);
    var p3 := if mark == '*' || mark == '$' then Seek(s, p2 + 1) else p2;
    NameTag(c, s, p3, Head(mark == '*', mark == '*' || mark == '$', negation, [], RhsString, []))
  }

  /** The state IF. */
  function TagAt(c: Colors, s: string, pos: nat): (r: Tag)
    requires pos <= |s|
    ensures !r.Bad? && !r.Past? ==> pos < r.next <= |s|
  {
    if StartsWith(s, pos, "else}") then ElseTag(pos + 5)
    else if StartsWith(s, pos, "}") then FiTag(pos + 1)
    else MarksTag(c, s, pos)
  }

  // ---- The stack ----

  /** A condition whose end was not seen. */
  predicate IsOpen(n: Node) { n.Block? && !n.head.isSet && !n.final }

  /** The position of the topmost open condition; the height of the stack if there is none. */
  function OpenAt(stack: seq<Node>): (r: nat)
    ensures r <= |stack|
    ensures r < |stack| ==> IsOpen(stack[r]) && forall k :: r < k < |stack| ==> !IsOpen(stack[k])
    ensures r == |stack| ==> forall k :: 0 <= k < |stack| ==> !IsOpen(stack[k])
  {
    if stack == [] then 0
    else
      var n := |stack| - 1;
      if IsOpen(stack[n]) then n
      else
        var r := OpenAt(stack[..n]);
        if r == n then |stack| else r
  }

  /** `{else}`: what stands above the open condition becomes its first branch. */
  function DoElse(stack: seq<Node>): Option<seq<Node>>
  {
    if stack == [] then Some(stack)
    else
      var i := OpenAt(stack);
      if i == |stack| then None
      else
        var above := stack[i + 1..];
        Some(stack[..i] + [stack[i].(yes := if above == [] then [Text([])] else above)])
  }

  /** `{}`: what stands above the open condition becomes the branch that is missing. */
  function DoFi(stack: seq<Node>): Option<seq<Node>>
  {
    if stack == [] then Some(stack)
    else
      var i := OpenAt(stack);
      if i == |stack| then None
      else
        var above := stack[i + 1..];
        var b := stack[i];
        Some(stack[..i] + [if b.yes == [] then b.(yes := above, final := true) else b.(no := above, final := true)])
  }

  /** Overrun: a character behind the end of the text is looked at, and what follows is undefined. */
  datatype Outcome = Parsed(nodes: seq<Node>) | Broken(error: FormatError) | Overrun

  function StopChars(c: Colors): string { if c.onlyColors then "(" else "<{(" }

  /** The whole machine, from the state START on. */
  function ParseFrom(c: Colors, s: string, pos: nat, stack: seq<Node>): Outcome
    requires pos <= |s|
    decreases |s| - pos
  {
    if pos == |s| then Parsed(stack)
    else if s[pos] == '{' && !c.onlyColors then
      match TagAt(c, s, pos + 1)
      case Bad(e) => Broken(e)
      case Past => Overrun
      case HeadTag(h, q) => ParseFrom(c, s, q, stack + [Block(h, false, [], [])])
      case ElseTag(q) =>
        (match DoElse(stack) case None => Broken(ElseWithoutIf) case Some(st) => ParseFrom(c, s, q, st))
      case FiTag(q) =>
        (match DoFi(stack) case None => Broken(FiWithoutIf) case Some(st) => ParseFrom(c, s, q, st))
    else if s[pos] == '<' && !c.onlyColors then
      var q := FindFirstOf(s, ">", pos + 1);
      if q == |s| then Broken(UnclosedProperty)
      else
        var user := s[pos + 1] == '$';
        var p := if user then Seek(s, pos + 2) else pos + 1;
        ParseFrom(c, s, q + 1, stack + [Property(s[p..q], user)])
    else if s[pos] == '(' then
      var q := FindFirstOf(s, ")", pos + 1);
      if q == |s| then Broken(UnclosedColor)
      else if !c.enabled then ParseFrom(c, s, q + 1, stack)
      else
        match c.colorOf(s[pos + 1..q])
        case None => Broken(BadColor)
        case Some(t) => ParseFrom(c, s, q + 1, stack + [Text(t)])
    else if TextOverruns(s, pos, StopChars(c)) then Overrun
    else
      var (t, q) := TextAt(s, pos, StopChars(c));
      ParseFrom(c, s, q, stack + [Text(t)])
  }

  // ---- The machine ----

  datatype State = START | TEXT | COLOR | PROPERTY | IF | ELSE | FI | STOP | ERROR | BEHIND

  /** What the machine comes to from a state. */
  function Continue(c: Colors, s: string, state: State, pos: nat, stack: seq<Node>, error: FormatError): Outcome
    requires pos <= |s|
  {
    match state
    case STOP => Parsed(stack)
    case ERROR => Broken(error)
    case START => ParseFrom(c, s, pos, stack)
    case BEHIND => Overrun
    case TEXT =>
      if TextOverruns(s, pos, StopChars(c)) then Overrun
      else
        var (t, q) := TextAt(s, pos, StopChars(c));
        ParseFrom(c, s, q, stack + [Text(t)])
    case COLOR =>
      var q := FindFirstOf(s, ")", pos);
      if q == |s| then Broken(UnclosedColor)
      else if !c.enabled then ParseFrom(c, s, q + 1, stack)
      else
        (match c.colorOf(s[pos..q])
         case None => Broken(BadColor)
         case Some(t) => ParseFrom(c, s, q + 1, stack + [Text(t)]))
    case PROPERTY =>
      var q := FindFirstOf(s, ">", pos);
      if q == |s| then Broken(UnclosedProperty)
      else
        var user := s[pos] == '$';
        var p := if user then Seek(s, pos + 1) else pos;
        ParseFrom(c, s, q + 1, stack + [Property(s[p..q], user)])
    case IF =>
      (match TagAt(c, s, pos)
       case Bad(e) => Broken(e)
       case Past => Overrun
       case HeadTag(h, q) => ParseFrom(c, s, q, stack + [Block(h, false, [], [])])
       case ElseTag(q) =>
         (match DoElse(stack) case None => Broken(ElseWithoutIf) case Some(st) => ParseFrom(c, s, q, st))
       case FiTag(q) =>
         (match DoFi(stack) case None => Broken(FiWithoutIf) case Some(st) => ParseFrom(c, s, q, st)))
    case ELSE => (match DoElse(stack) case None => Broken(ElseWithoutIf) case Some(st) => ParseFrom(c, s, pos, st))
    case FI => (match DoFi(stack) case None => Broken(FiWithoutIf) case Some(st) => ParseFrom(c, s, pos, st))
  }

  class FormatParser {
    const colors: Colors
    var keller: seq<Node>
    var band: string
    var bandPosition: nat
    var state: State
    var lastError: FormatError

    constructor (colors: Colors)
      ensures this.colors == colors && keller == []
    {
      this.colors, keller := colors, [];
      band, bandPosition, state, lastError := [], 0, STOP, NoName;
    }

    ghost function Goal(): Outcome
      reads this
      requires bandPosition <= |band|
    {
      Continue(colors, band, state, bandPosition, keller, lastError)
    }

    method StateStart()
      requires state == START && bandPosition <= |band|
      modifies this`state, this`bandPosition
      ensures old(bandPosition) <= bandPosition <= |band| && Goal() == old(Goal())
      ensures state == START || bandPosition > old(bandPosition) || state == STOP || (state == TEXT && bandPosition == old(bandPosition))
      ensures state in {STOP, TEXT, COLOR, PROPERTY, IF}
      ensures state == TEXT ==> bandPosition < |band| && band[bandPosition] !in StopChars(colors)
    {
      hide TextAt, TagAt, DoElse, DoFi;
      if bandPosition == |band| {
        state := STOP;
        return;
      }
      var ch := band[bandPosition];
      bandPosition := bandPosition + 1;
      if ch == '{' && !colors.onlyColors {
        state := IF;
      } else if ch == '<' && !colors.onlyColors {
        state := PROPERTY;
      } else if ch == '(' {
        state := COLOR;
      } else {
        bandPosition := bandPosition - 1;
        state := TEXT;
      }
    }

    /** The loop over a text; `over` says that it would go on behind the end. */
    method ScanText(start: nat) returns (text: string, pos: nat, over: bool)
      requires start <= |band|
      ensures over == TextOverruns(band, start, StopChars(colors))
      ensures !over ==> (text, pos) == TextAt(band, start, StopChars(colors))
    {
      hide AppendEscape;
      var stop := StopChars(colors);
      text, pos := [], start;
      ghost var all := TextAt(band, start, stop);
      assert text + all.0 == all.0;
      while pos < |band| && band[pos] !in stop
        invariant start <= pos <= |band|
        invariant TextOverruns(band, pos, stop) == TextOverruns(band, start, stop)
        invariant all == (text + TextAt(band, pos, stop).0, TextAt(band, pos, stop).1)
        decreases |band| - pos
      {
        ghost var t := TextPiece(band, pos);
        Regroup(text, t.0, TextAt(band, t.1, stop).0);
        if band[pos] == '\\' {
          var e := AppendEscape(band, pos);
          text, pos := text + e.0, e.1;
          if pos == |band| { return text, pos, true; }
          pos := pos + 1;
        } else {
          text, pos := text + [band[pos]], pos + 1;
        }
      }
      assert text + [] == text;
      over := false;
    }

    method StateText()
      requires state == TEXT && bandPosition < |band| && band[bandPosition] !in StopChars(colors)
      modifies this`state, this`bandPosition, this`keller
      ensures old(bandPosition) <= bandPosition <= |band| && Goal() == old(Goal())
      ensures state == BEHIND || (state == START && old(bandPosition) < bandPosition)
    {
      hide ParseFrom, TextAt, TextOverruns;
      var textbuffer, p, over := ScanText(bandPosition);
      if over {
        state := BEHIND;
        return;
      }
      keller := keller + [Text(textbuffer)];
      bandPosition, state := p, START;
    }

    method StateColor()
      requires state == COLOR && bandPosition <= |band|
      modifies this`state, this`bandPosition, this`keller, this`lastError
      ensures old(bandPosition) <= bandPosition <= |band| && Goal() == old(Goal())
      ensures state == ERROR || (state == START && bandPosition > old(bandPosition))
    {
      hide ParseFrom;
      var q := FindFirstOf(band, ")", bandPosition);
      if q == |band| {
        lastError, state := UnclosedColor, ERROR;
        return;
      }
      if colors.enabled {
        var ac := colors.colorOf(band[bandPosition..q]);
        if ac.None? {
          lastError, state := BadColor, ERROR;
          return;
        }
        keller := keller + [Text(ac.value)];
      }
      bandPosition, state := q + 1, START;
    }

    method StateProperty()
      requires state == PROPERTY && bandPosition <= |band|
      modifies this`state, this`bandPosition, this`keller, this`lastError
      ensures old(bandPosition) <= bandPosition <= |band| && Goal() == old(Goal())
      ensures state == ERROR || (state == START && bandPosition > old(bandPosition))
    {
      hide ParseFrom;
      var q := FindFirstOf(band, ">", bandPosition);
      if q == |band| {
        lastError, state := UnclosedProperty, ERROR;
        return;
      }
      var userVariable := false;
      if band[bandPosition] == '$' {
        userVariable := true;
        bandPosition := Seek(band, bandPosition + 1);
      }
      keller := keller + [Property(band[bandPosition..q], userVariable)];
      bandPosition, state := q + 1, START;
    }

    /** The loop over the right hand side of a head. */
    method ScanRhs(start: nat, m: Modus) returns (text: string, pos: nat, over: bool)
      requires start <= |band|
      ensures over == RhsOverruns(colors, band, start, m)
      ensures !over ==> (text, pos) == RhsAt(colors, band, start, m)
    {
      hide AppendEscape, EndsRhs, RhsPiece, ColorEnd;
      text, pos := [], start;
      ghost var all := RhsAt(colors, band, start, m);
      assert text + all.0 == all.0;
      while pos < |band| && !EndsRhs(m, band[pos])
        invariant start <= pos <= |band|
        invariant RhsOverruns(colors, band, pos, m) == RhsOverruns(colors, band, start, m)
        invariant all == (text + RhsAt(colors, band, pos, m).0, RhsAt(colors, band, pos, m).1)
        decreases |band| - pos
      {
        var t, p, behind := ScanRhsPiece(pos, m);
        if behind { return text, pos, true; }
        Regroup(text, t, RhsAt(colors, band, p, m).0);
        text, pos := text + t, p;
      }
      assert text + [] == text;
      over := false;
    }

    method ScanRhsPiece(pos: nat, m: Modus) returns (text: string, p: nat, over: bool)
      requires pos < |band|
      ensures over == (band[pos] == '(' && m in {Plain, InProperty} && ColorEnd(band, pos + 1) == |band|)
      ensures !over ==> (text, p) == RhsPiece(colors, band, pos, m)
    {
      hide AppendEscape;
      if band[pos] == '\\' && m != Single {
        var e := AppendEscape(band, pos);
        return e.0, if e.1 < |band| then e.1 + 1 else e.1, false;
      }
      if band[pos] == '(' && m != Single && m != Double {
        var q := pos + 1;
        while q < |band| && IsColorChar(band[q])
          invariant pos < q <= |band| && ColorEnd(band, q) == ColorEnd(band, pos + 1)
          decreases |band| - q
        {
          q := q + 1;
        }
        if q == |band| { return [], pos, true; }
        if band[q] == ')' {
          var ac := colors.colorOf(band[pos + 1..q]);
          if ac.Some? { return if colors.enabled then ac.value else [], q + 1, false; }
        }
        return "(", pos + 1, false;
      }
      return [band[pos]], pos + 1, false;
    }

    method Fail(e: FormatError)
      modifies this`state, this`lastError
      ensures state == ERROR && lastError == e
    {
      state, lastError := ERROR, e;
    }

    method StateIf()
      requires state == IF && bandPosition <= |band|
      modifies this`state, this`bandPosition, this`keller, this`lastError
      ensures old(bandPosition) <= bandPosition <= |band| && Goal() == old(Goal())
      ensures state in {ERROR, BEHIND} || (state in {START, ELSE, FI} && bandPosition > old(bandPosition))
    {
      hide ParseFrom, DoElse, DoFi, MarksTag, Seek;
      if StartsWith(band, bandPosition, "else}") {
        bandPosition, state := bandPosition + 5, ELSE;
        return;
      }
      if StartsWith(band, bandPosition, "}") {
        bandPosition, state := bandPosition + 1, FI;
        return;
      }
      var t := ScanMarksTag(bandPosition);
      if t.Bad? { Fail(t.error); return; }
      if t.Past? { state := BEHIND; return; }
      keller := keller + [Block(t.head, false, [], [])];
      bandPosition, state := t.next, START;
    }

    method ScanMarksTag(start: nat) returns (t: Tag)
      requires start <= |band|
      ensures t == MarksTag(colors, band, start)
    {
      hide NameTag, Seek;
      var p := Seek(band, start);
      var negation := CharAt(band, p) == '!';
      if negation { p := Seek(band, p + 1); }
      var mark := CharAt(band, p);
      if mark == '*' || mark == '$' { p := Seek(band, p + 1); }
      t := ScanNameTag(p, Head(mark == '*', mark == '*' || mark == '$', negation, [], RhsString, []));
    }

    method ScanNameTag(start: nat, h: Head) returns (t: Tag)
      requires start <= |band|
      ensures t == NameTag(colors, band, start, h)
    {
      hide RhsTag, Seek, NameStop;
      var p := NameStop(band, start);
      if p == start { return Bad(NoName); }
      if p == |band| { return Bad(UnclosedBlock); }
      var g := h.(variable := band[start..p]);
      p := Seek(band, p);
      if CharAt(band, p) == '}' { return HeadTag(g.(negation := !g.negation), p + 1); }
      if CharAt(band, p) != '=' { return Bad(UnexpectedSymbol); }
      p := Seek(band, p + 1);
      if p == |band| { return Bad(UnclosedBlock); }
      t := ScanRhsTag(p, g);
    }

    method ScanRhsTag(start: nat, h: Head) returns (t: Tag)
      requires start < |band|
      ensures t == RhsTag(colors, band, start, h)
    {
      hide RhsAt, Seek, EndsRhs, RhsOverruns;
      var p, rhs, modus := start, RhsString, Plain;
      var c := band[p];
      if c == '<' {
        rhs, modus, p := RhsProperty, InProperty, Seek(band, p + 1);
      } else if c == '$' {
        rhs, modus, p := RhsVar, Plain, Seek(band, p + 1);
      } else if c == '\'' {
        modus, p := Single, p + 1;
      } else if c == '"' {
        modus, p := Double, p + 1;
      }
      var text, q, over := ScanRhs(p, modus);
      if over { return Past; }
      if CharAt(band, q) != '}' {
        if q < |band| { q := Seek(band, q + 1); }
        if CharAt(band, q) != '}' { return Bad(UnclosedBlock); }
      }
      return HeadTag(h.(rhs := rhs, text := text), q + 1);
    }

    /** Takes nodes from the stack down to the topmost open condition, and links them. */
    method PopToOpen() returns (found: bool, p: Node, q: seq<Node>)
      requires keller != []
      modifies this`keller
      ensures var i := OpenAt(old(keller));
        found == (i < |old(keller)|) && (found ==> keller == old(keller)[..i] && p == old(keller)[i] && q == old(keller)[i + 1..])
    {
      ghost var stack := keller;
      q := [];
      p := keller[|keller| - 1];
      keller := keller[..|keller| - 1];
      while !IsOpen(p)
        invariant stack == keller + [p] + q && forall k :: 0 <= k < |q| ==> !IsOpen(q[k])
        decreases |keller|
      {
        if keller == [] {
          NoneOpen(stack);
          return false, p, q;
        }
        q := [p] + q;
        p := keller[|keller| - 1];
        keller := keller[..|keller| - 1];
      }
      OpenIs(stack, |keller|);
      found := true;
    }

    method StateElse()
      requires state == ELSE && bandPosition <= |band|
      modifies this`state, this`keller, this`lastError
      ensures state in {START, ERROR} && Goal() == old(Goal())
    {
      hide ParseFrom, OpenAt;
      state := START;
      if keller == [] { return; }
      var found, p, q := PopToOpen();
      if !found { Fail(ElseWithoutIf); return; }
      if q == [] { q := [Text([])]; }
      keller := keller + [p.(yes := q)];
    }

    method StateFi()
      requires state == FI && bandPosition <= |band|
      modifies this`state, this`keller, this`lastError
      ensures state in {START, ERROR} && Goal() == old(Goal())
    {
      hide ParseFrom, OpenAt;
      state := START;
      if keller == [] { return; }
      var found, p, q := PopToOpen();
      if !found { Fail(FiWithoutIf); return; }
      if p.yes == [] { p := p.(yes := q); } else { p := p.(no := q); }
      keller := keller + [p.(final := true)];
    }

    /** Runs the machine; the nodes on the stack are the result. */
    method Start(fmt: string) returns (r: Outcome)
      modifies this
      ensures r == ParseFrom(colors, fmt, 0, []) && keller == []
    {
      hide ParseFrom, TagAt, TextAt, DoElse, DoFi, TextOverruns;
      band, bandPosition, keller, state := fmt, 0, [], START;
      ghost var goal := Goal();
      while state !in {STOP, ERROR, BEHIND}
        invariant band == fmt && bandPosition <= |band| && Goal() == goal
        invariant state == TEXT ==> bandPosition < |band| && band[bandPosition] !in StopChars(colors)
        decreases |band| - bandPosition, Rank(state)
      {
        match state {
          case START => StateStart();
          case TEXT => StateText();
          case COLOR => StateColor();
          case PROPERTY => StateProperty();
          case IF => StateIf();
          case ELSE => StateElse();
          case FI => StateFi();
        }
      }
      r := if state == ERROR then Broken(lastError) else if state == BEHIND then Overrun else Parsed(keller);
      keller := [];
    }
  }

  function Rank(s: State): nat
  {
    match s
    case STOP => 0
    case ERROR => 0
    case BEHIND => 0
    case TEXT => 1
    case START => 2
    case _ => 3
  }

  lemma OpenIs(stack: seq<Node>, i: nat)
    requires i < |stack| && IsOpen(stack[i]) && forall k :: i < k < |stack| ==> !IsOpen(stack[k])
    ensures OpenAt(stack) == i
  {
  }

  lemma NoneOpen(stack: seq<Node>)
    requires forall k :: 0 <= k < |stack| ==> !IsOpen(stack[k])
    ensures OpenAt(stack) == |stack|
  {
  }
}
