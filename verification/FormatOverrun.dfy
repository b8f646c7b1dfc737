/** When the parser of output formats looks behind the end of its text. */
module FormatOverrun {
  import opened Strings
  import opened FormatParsing

  // ---- The scan ----

  /** A scan of the text that keeps no nodes: it only knows whether anything was read, and how
      many conditions are open. */
  predicate Overruns(c: Colors, s: string, pos: nat, empty: bool, open: nat)
    requires pos <= |s|
    decreases |s| - pos
  {
    if pos == |s| then false
    else if s[pos] == '{' && !c.onlyColors then
      match TagAt(c, s, pos + 1)
      case Bad(_) => false
      case Past => true
      case HeadTag(h, q) => Overruns(c, s, q, false, if h.isSet then open else open + 1)
      case ElseTag(q) => (empty || open > 0) && Overruns(c, s, q, empty, open)
      case FiTag(q) => (empty || open > 0) && Overruns(c, s, q, empty, if open > 0 then open - 1 else 0)
    else if s[pos] == '<' && !c.onlyColors then
      var q := FindFirstOf(s, ">", pos + 1);
      q < |s| && Overruns(c, s, q + 1, false, open)
    else if s[pos] == '(' then
      var q := FindFirstOf(s, ")", pos + 1);
      q < |s| && (
        if !c.enabled then Overruns(c, s, q + 1, empty, open)
        else c.colorOf(s[pos + 1..q]).Some? && Overruns(c, s, q + 1, false, open))
    else TextOverruns(s, pos, StopChars(c)) || Overruns(c, s, TextAt(s, pos, StopChars(c)).1, false, open)
  }

  function OpenCount(stack: seq<Node>): nat
  {
    if stack == [] then 0 else OpenCount(stack[..|stack| - 1]) + if IsOpen(stack[|stack| - 1]) then 1 else 0
  }

  lemma {:induction false} OpenCountSum(a: seq<Node>, b: seq<Node>)
    ensures OpenCount(a + b) == OpenCount(a) + OpenCount(b)
  {
    if b == [] {
      assert a + b == a;
    } else {
      assert (a + b)[..|a + b| - 1] == a + b[..|b| - 1];
      OpenCountSum(a, b[..|b| - 1]);
    }
  }

  lemma {:induction false} NoneOpenCount(ns: seq<Node>)
    ensures OpenCount(ns) == 0 <==> forall k :: 0 <= k < |ns| ==> !IsOpen(ns[k])
  {
    if ns != [] { NoneOpenCount(ns[..|ns| - 1]); }
  }

  lemma OneMore(stack: seq<Node>, n: Node)
    ensures stack + [n] != [] && OpenCount(stack + [n]) == OpenCount(stack) + if IsOpen(n) then 1 else 0
  {
    assert (stack + [n])[..|stack|] == stack;
  }

  /** Up to the topmost open condition, and that condition changed. */
  lemma CutAtOpen(stack: seq<Node>, b: Node)
    requires stack != [] && OpenAt(stack) < |stack|
    ensures OpenCount(stack) > 0
    ensures OpenCount(stack[..OpenAt(stack)] + [b]) == OpenCount(stack) - if IsOpen(b) then 0 else 1
  {
    hide OpenAt, OpenCount;
    var i := OpenAt(stack);
    var below, above := stack[..i], stack[i + 1..];
    assert stack == below + [stack[i]] + above;
    OpenCountSum(below + [stack[i]], above);
    NoneOpenCount(above);
    OneMore(below, stack[i]);
    OneMore(below, b);
  }

  lemma MarksCount(stack: seq<Node>)
    ensures DoElse(stack).Some? == DoFi(stack).Some? == (stack == [] || OpenCount(stack) > 0)
    ensures DoElse(stack).Some? ==>
      (DoElse(stack).value == [] <==> stack == []) && OpenCount(DoElse(stack).value) == OpenCount(stack)
    ensures DoFi(stack).Some? ==>
      && (DoFi(stack).value == [] <==> stack == [])
      && OpenCount(DoFi(stack).value) == if OpenCount(stack) > 0 then OpenCount(stack) - 1 else 0
  {
    hide OpenAt, OpenCount;
    NoneOpenCount(stack);
    if stack != [] && OpenAt(stack) < |stack| {
      var b := stack[OpenAt(stack)];
      var above := stack[OpenAt(stack) + 1..];
      CutAtOpen(stack, b.(yes := if above == [] then [Text([])] else above));
      CutAtOpen(stack, if b.yes == [] then b.(yes := above, final := true) else b.(no := above, final := true));
    }
  }

  /** The machine looks behind the end exactly if the scan says so. */
  lemma {:induction false} OverrunIsFound(c: Colors, s: string, pos: nat, stack: seq<Node>)
    requires pos <= |s|
    ensures ParseFrom(c, s, pos, stack) == Overrun <==> Overruns(c, s, pos, stack == [], OpenCount(stack))
    decreases |s| - pos, 1
  {
    hide TagAt, TextAt, TextOverruns, OpenCount, DoElse, DoFi;
    if pos == |s| {
    } else if s[pos] == '{' && !c.onlyColors {
      OverrunInTag(c, s, pos, stack);
    } else if s[pos] == '<' && !c.onlyColors {
      OverrunInProperty(c, s, pos, stack);
    } else if s[pos] == '(' {
      OverrunInColor(c, s, pos, stack);
    } else {
      var t := TextAt(s, pos, StopChars(c));
      OneMore(stack, Text(t.0));
      OverrunIsFound(c, s, t.1, stack + [Text(t.0)]);
    }
  }

  lemma {:induction false} OverrunInTag(c: Colors, s: string, pos: nat, stack: seq<Node>)
    requires pos < |s| && s[pos] == '{' && !c.onlyColors
    ensures ParseFrom(c, s, pos, stack) == Overrun <==> Overruns(c, s, pos, stack == [], OpenCount(stack))
    decreases |s| - pos, 0
  {
    hide TagAt, TextAt, TextOverruns, DoElse, DoFi, OpenCount;
    MarksCount(stack);
    match TagAt(c, s, pos + 1) {
      case Bad(_) =>
      case Past =>
      case HeadTag(h, q) =>
        OneMore(stack, Block(h, false, [], []));
        OverrunIsFound(c, s, q, stack + [Block(h, false, [], [])]);
      case ElseTag(q) =>
        if DoElse(stack).Some? { OverrunIsFound(c, s, q, DoElse(stack).value); }
      case FiTag(q) =>
        if DoFi(stack).Some? { OverrunIsFound(c, s, q, DoFi(stack).value); }
    }
  }

  lemma {:induction false} OverrunInProperty(c: Colors, s: string, pos: nat, stack: seq<Node>)
    requires pos < |s| && s[pos] == '<' && !c.onlyColors
    ensures ParseFrom(c, s, pos, stack) == Overrun <==> Overruns(c, s, pos, stack == [], OpenCount(stack))
    decreases |s| - pos, 0
  {
    hide TagAt, TextAt, TextOverruns, DoElse, DoFi, OpenCount, Seek;
    var q := FindFirstOf(s, ">", pos + 1);
    if q < |s| {
      var user := s[pos + 1] == '$';
      var p := if user then Seek(s, pos + 2) else pos + 1;
      OneMore(stack, Property(s[p..q], user));
      OverrunIsFound(c, s, q + 1, stack + [Property(s[p..q], user)]);
    }
  }

  lemma {:induction false} OverrunInColor(c: Colors, s: string, pos: nat, stack: seq<Node>)
    requires pos < |s| && s[pos] == '('
    ensures ParseFrom(c, s, pos, stack) == Overrun <==> Overruns(c, s, pos, stack == [], OpenCount(stack))
    decreases |s| - pos, 0
  {
    hide TagAt, TextAt, TextOverruns, DoElse, DoFi, OpenCount, Seek;
    var q := FindFirstOf(s, ")", pos + 1);
    if q < |s| {
      if !c.enabled {
        OverrunIsFound(c, s, q + 1, stack);
      } else if c.colorOf(s[pos + 1..q]).Some? {
        var n := Text(c.colorOf(s[pos + 1..q]).value);
        OneMore(stack, n);
        OverrunIsFound(c, s, q + 1, stack + [n]);
      }
    }
  }

  /** The machine on a whole text. */
  lemma OverrunExactly(c: Colors, s: string)
    ensures ParseFrom(c, s, 0, []) == Overrun <==> Overruns(c, s, 0, true, 0)
  {
    hide ParseFrom, Overruns;
    OverrunIsFound(c, s, 0, []);
  }

  // ---- Where it can happen ----

  /** A parenthesis behind which only characters of colours follow. */
  predicate OpenColor(s: string, k: nat)
  {
    k < |s| && s[k] == '(' && ColorEnd(s, k + 1) == |s|
  }

  /** Only the end of a text can lead the machine behind it. */
  predicate EndsBadly(s: string)
  {
    (s != [] && s[|s| - 1] == '\\') || exists k :: 0 <= k < |s| && OpenColor(s, k)
  }

  lemma {:induction false} TextEndsBadly(s: string, pos: nat, stop: string)
    requires pos <= |s| && TextOverruns(s, pos, stop)
    ensures s[|s| - 1] == '\\'
    decreases |s| - pos
  {
    if pos + 1 < |s| || s[pos] != '\\' { TextEndsBadly(s, TextPiece(s, pos).1, stop); }
  }

  lemma {:induction false} RhsEndsBadly(c: Colors, s: string, pos: nat, m: Modus)
    requires pos <= |s| && RhsOverruns(c, s, pos, m)
    ensures exists k :: 0 <= k < |s| && OpenColor(s, k)
    decreases |s| - pos
  {
    if s[pos] == '(' && m in {Plain, InProperty} && ColorEnd(s, pos + 1) == |s| {
      assert OpenColor(s, pos);
    } else {
      RhsEndsBadly(c, s, RhsPiece(c, s, pos, m).1, m);
    }
  }

  lemma TagEndsBadly(c: Colors, s: string, pos: nat)
    requires pos <= |s| && TagAt(c, s, pos).Past?
    ensures EndsBadly(s)
  {
    forall p: nat, m | p <= |s| && RhsOverruns(c, s, p, m) ensures EndsBadly(s) { RhsEndsBadly(c, s, p, m); }
  }

  lemma {:induction false} ScanEndsBadly(c: Colors, s: string, pos: nat, empty: bool, open: nat)
    requires pos <= |s| && Overruns(c, s, pos, empty, open)
    ensures EndsBadly(s)
    decreases |s| - pos
  {
    hide TagAt, TextAt, TextOverruns, EndsBadly;
    if s[pos] == '{' && !c.onlyColors {
      match TagAt(c, s, pos + 1) {
        case Bad(_) =>
        case Past => TagEndsBadly(c, s, pos + 1);
        case HeadTag(h, q) => ScanEndsBadly(c, s, q, false, if h.isSet then open else open + 1);
        case ElseTag(q) => ScanEndsBadly(c, s, q, empty, open);
        case FiTag(q) => ScanEndsBadly(c, s, q, empty, if open > 0 then open - 1 else 0);
      }
    } else if s[pos] == '<' && !c.onlyColors {
      ScanEndsBadly(c, s, FindFirstOf(s, ">", pos + 1) + 1, false, open);
    } else if s[pos] == '(' {
      ScanEndsBadly(c, s, FindFirstOf(s, ")", pos + 1) + 1, empty && !c.enabled, open);
    } else if TextOverruns(s, pos, StopChars(c)) {
      TextEndsBadly(s, pos, StopChars(c));
      BadEnd(s);
    } else {
      ScanEndsBadly(c, s, TextAt(s, pos, StopChars(c)).1, false, open);
    }
  }

  lemma BadEnd(s: string)
    requires s != [] && s[|s| - 1] == '\\'
    ensures EndsBadly(s)
  {
  }

  /** A text that ends neither in a backslash nor in an open colour is read within its bounds. */
  lemma GoodEndsAreSafe(c: Colors, s: string)
    requires !EndsBadly(s)
    ensures ParseFrom(c, s, 0, []) != Overrun
  {
    hide ParseFrom, Overruns, EndsBadly;
    OverrunExactly(c, s);
    if Overruns(c, s, 0, true, 0) { ScanEndsBadly(c, s, 0, true, 0); }
  }

  // ---- Two families of texts ----

  lemma {:induction false} BackslashOverruns(s: string, pos: nat, stop: string)
    requires pos < |s| && s[|s| - 1] == '\\' && '\\' !in stop
    requires forall k :: pos <= k < |s| - 1 ==> s[k] !in stop && s[k] != '\\'
    ensures TextOverruns(s, pos, stop)
    decreases |s| - pos
  {
    if pos + 1 < |s| { BackslashOverruns(s, pos + 1, stop); }
  }

  /** A lone backslash at the end of a text. */
  lemma LoneBackslash(c: Colors, t: string)
    requires forall k :: 0 <= k < |t| ==> t[k] !in "<{(\\"
    ensures ParseFrom(c, t + "\\", 0, []) == Overrun
  {
    hide TextOverruns, TextAt, TagAt;
    BackslashOverruns(t + "\\", 0, StopChars(c));
  }

  lemma {:induction false} ColorsToEnd(s: string, pos: nat)
    requires pos <= |s| && forall k :: pos <= k < |s| ==> IsColorChar(s[k])
    ensures ColorEnd(s, pos) == |s|
    decreases |s| - pos
  {
    if pos < |s| { ColorsToEnd(s, pos + 1); }
  }

  /** A colour that is open at the end of a right hand side. */
  lemma LoneParenthesis(c: Colors, w: string)
    requires !c.onlyColors && forall k :: 0 <= k < |w| ==> IsColorChar(w[k])
    ensures ParseFrom(c, "{a=(" + w, 0, []) == Overrun
  {
    hide ParseFrom, RhsAt, ColorEnd;
    var s := "{a=(" + w;
    ColorsToEnd(s, 4);
    assert RhsOverruns(c, s, 3, Plain);
    assert Seek(s, 1) == 1 && Seek(s, 2) == 2 && Seek(s, 3) == 3 && NameStop(s, 1) == 2;
    assert !StartsWith(s, 1, "else}") && !StartsWith(s, 1, "}") by {
      assert !StartsWith(s, 1, "}") by { assert s[1..2][0] == 'a'; }
      if |s| >= 6 { assert s[1..6][0] == 'a'; }
    }
    assert TagAt(c, s, 1) == Past;
    AtBrace(c, s);
  }

  lemma AtBrace(c: Colors, s: string)
    requires s != [] && s[0] == '{' && !c.onlyColors && TagAt(c, s, 1) == Past
    ensures ParseFrom(c, s, 0, []) == Overrun
  {
    hide TagAt;
  }
}
