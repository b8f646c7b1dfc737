/** Splitting, joining, escaping and trimming of strings. */
module Strings {

  const NUL: char := '\0'
  const SPACES := " \t\r\n"

  /** A string assigned from a C string ends at the first NUL. */
  function CStr(s: string): (r: string)
    ensures r <= s && NUL !in r && (|r| < |s| ==> s[|r|] == NUL)
  {
    if s == [] || s[0] == NUL then [] else [s[0]] + CStr(s[1..])
  }

  lemma {:induction false} CStrIdentity(s: string)
    ensures CStr(s) == s <==> NUL !in s
  {
    if s != [] && s[0] != NUL { CStrIdentity(s[1..]); }
  }

  function CStrs(ws: seq<string>): (r: seq<string>)
    ensures |r| == |ws| && forall i :: 0 <= i < |ws| ==> r[i] == CStr(ws[i])
  {
    seq(|ws|, i requires 0 <= i < |ws| => CStr(ws[i]))
  }

  lemma Regroup<T>(a: seq<T>, b: seq<T>, c: seq<T>)
    ensures a + (b + c) == (a + b) + c
  {
  }

  // ---- Escaping ----

  function EscapeChar(c: char, at: string): (r: string)
  {
    if c in at || c == '\\' then ['\\', c] else [c]
  }

  function Escape(s: string, at: string): string
  {
    if s == [] then [] else EscapeChar(s[0], at) + Escape(s[1..], at)
  }

  /** Removes one level of escapes; `strchr` also finds the terminating NUL. */
  function Unescape(s: string, at: string): (r: string)
    ensures |r| <= |s|
  {
    if s == [] then []
    else if s[0] != '\\' then [s[0]] + Unescape(s[1..], at)
    else if |s| == 1 then []
    else if s[1] == '\\' || s[1] in at || s[1] == NUL then [s[1]] + Unescape(s[2..], at)
    else [s[0]] + Unescape(s[1..], at)
  }

  /** Each special character and each backslash gets a backslash in front, and all else stays. */
  lemma {:induction false} EscapeMeans(a: string, c: char, b: string, at: string)
    ensures Escape([], at) == []
    ensures Escape(a + [c] + b, at) == Escape(a, at) + (if c in at || c == '\\' then ['\\', c] else [c]) + Escape(b, at)
  {
    if a == [] {
      assert ([] + [c] + b)[1..] == b;
    } else {
      assert (a + [c] + b)[1..] == a[1..] + [c] + b;
      EscapeMeans(a[1..], c, b, at);
    }
  }

  lemma {:induction false} UnescapeEscape(s: string, at: string)
    ensures Unescape(Escape(s, at), at) == s
  {
    if s != [] {
      var u := EscapeChar(s[0], at);
      var e := u + Escape(s[1..], at);
      assert e[|u|..] == Escape(s[1..], at);
      UnescapeEscape(s[1..], at);
    }
  }

  lemma {:induction false} EscapePlainRun(s: string, n: nat, at: string)
    requires n <= |s| && forall k :: 0 <= k < n ==> s[k] !in at && s[k] != '\\'
    ensures Escape(s, at) == s[..n] + Escape(s[n..], at)
  {
    if n > 0 {
      EscapePlainRun(s[1..], n - 1, at);
      assert s[1..][n - 1..] == s[n..];
      assert s[..n] == [s[0]] + s[1..][..n - 1];
    }
  }

  /** Up to the first special character text is copied; the character gets a backslash. */
  lemma EscapeStep(s: string, n: nat, at: string)
    requires n <= |s| && forall k :: 0 <= k < n ==> s[k] !in at && s[k] != '\\'
    requires n < |s| ==> s[n] in at || s[n] == '\\'
    ensures n == |s| ==> Escape(s, at) == s
    ensures n < |s| ==> Escape(s, at) == s[..n] + ['\\', s[n]] + Escape(s[n + 1..], at)
  {
    EscapePlainRun(s, n, at);
    var t := s[n..];
    if n < |s| {
      assert t[1..] == s[n + 1..];
      assert Escape(t, at) == ['\\', t[0]] + Escape(t[1..], at);
    } else {
      assert s[..n] == s;
    }
  }

  /** Inserting one character in the rest of a partly edited text. */
  lemma InsertInRest(done: string, rest: string, n: nat, c: char)
    requires n < |rest|
    ensures var r := done + rest; var next := |done| + n;
      r[..next] + [c] + r[next..] == done + (rest[..n] + [c, rest[n]]) + rest[n + 1..]
  {
    var r := done + rest;
    assert r[..|done| + n] == done + rest[..n];
    assert r[|done| + n..] == [rest[n]] + rest[n + 1..];
  }

  lemma RestIndex(done: string, rest: string)
    ensures forall k :: 0 <= k < |rest| ==> rest[k] == (done + rest)[|done| + k]
  {
  }

  /** The loop state: everything before `pos` is escaped, the rest is still raw. */
  ghost predicate Escaping(str: string, at: string, r: string, pos: nat)
    requires pos <= |r|
  {
    Escape(str, at) == r[..pos] + Escape(r[pos..], at)
  }

  /** From one special character to the next. */
  lemma EscapeMove(str: string, at: string, r: string, pos: nat, next: nat)
    requires pos <= |r| && Escaping(str, at, r, pos) && next == FindFirstOf(r, at + ['\\'], pos)
    ensures next == |r| ==> r == Escape(str, at)
    ensures next < |r| ==>
      var s := r[..next] + ['\\'] + r[next..];
      Escaping(str, at, s, next + 2) && |s[next + 2..]| < |r[pos..]|
  {
    hide Escape, FindFirstOf;
    var done, rest, n := r[..pos], r[pos..], next - pos;
    assert r == done + rest;
    RestIndex(done, rest);
    forall k | 0 <= k < n ensures rest[k] !in at && rest[k] != '\\' { assert rest[k] == r[pos + k]; }
    EscapeStep(rest, n, at);
    if next < |r| {
      assert rest[n] == r[next];
      InsertInRest(done, rest, n, '\\');
      var u := rest[..n] + ['\\', rest[n]];
      var s := done + u + rest[n + 1..];
      assert s[..next + 2] == done + u && s[next + 2..] == rest[n + 1..];
      Regroup(done, u, Escape(rest[n + 1..], at));
    }
  }

  lemma EscapeStarts(str: string, at: string)
    ensures Escaping(str, at, str, 0)
  {
    assert str[..0] == [] && str[0..] == str;
  }

  /** escape_string: inserts a backslash before every special character, in place. */
  method EscapeString(str: string, at: string) returns (r: string)
    ensures r == Escape(str, at)
  {
    hide Escape, Escaping, FindFirstOf;
    r := str;
    var myAt := at + ['\\'];
    var pos := 0;
    EscapeStarts(str, at);
    while true
      invariant pos <= |r| && Escaping(str, at, r, pos)
      decreases |r[pos..]|
    {
      var next := FindFirstOf(r, myAt, pos);
      EscapeMove(str, at, r, pos, next);
      if next == |r| { return; }
      r := r[..next] + ['\\'] + r[next..];
      pos := next + 2;
    }
  }

  // ---- Splitting ----

  function FindFirstOf(s: string, at: string, pos: nat): (r: nat)
    requires pos <= |s|
    ensures pos <= r <= |s|
    ensures forall k :: pos <= k < r ==> s[k] !in at
    ensures r < |s| ==> s[r] in at
    decreases |s| - pos
  {
    if pos == |s| || s[pos] in at then pos else FindFirstOf(s, at, pos + 1)
  }

  lemma {:induction false} FindFirstIs(s: string, at: string, pos: nat, n: nat)
    requires pos <= n <= |s| && (forall k :: pos <= k < n ==> s[k] !in at) && (n < |s| ==> s[n] in at)
    ensures FindFirstOf(s, at, pos) == n
    decreases n - pos
  {
    if pos < n { FindFirstIs(s, at, pos + 1, n); }
  }

  /** The words contributed by one finished field. */
  function Piece(field: string, esc: bool, at: string, ignoreEmpty: bool): (r: seq<string>)
  {
    var w := if esc then Unescape(field, at) else field;
    if w == [] && ignoreEmpty then [] else [w]
  }

  /** The words of `field + s`, where `odd` says that an odd number of backslashes
      stands directly before `s`. */
  function Split(s: string, field: string, odd: bool, esc: bool, at: string, ignoreEmpty: bool): seq<string>
    decreases |s|
  {
    if s == [] then Piece(field, esc, at, ignoreEmpty)
    else
      var odd' := s[0] == '\\' && !odd;
      if s[0] in at && !(esc && odd) then
        Piece(field, esc, at, ignoreEmpty) + Split(s[1..], [], odd', esc, at, ignoreEmpty)
      else
        Split(s[1..], field + [s[0]], odd', esc, at, ignoreEmpty)
  }

  /** The plain split at white space that drops empty words. */
  function Words(s: string): seq<string>
  {
    Split(s, [], false, false, SPACES, true)
  }

  ghost predicate OddBackslashes(s: string, pos: nat)
    requires pos <= |s|
  {
    pos > 0 && s[pos - 1] == '\\' && !OddBackslashes(s, pos - 1)
  }

  method EscapedAt(s: string, pos: nat) returns (escaped: bool)
    requires pos <= |s|
    ensures escaped == OddBackslashes(s, pos)
  {
    escaped := false;
    var i: nat := pos;
    while i > 0
      invariant i <= pos
      invariant OddBackslashes(s, pos) == (escaped != OddBackslashes(s, i))
    {
      i := i - 1;
      if s[i] != '\\' { return; }
      escaped := !escaped;
    }
  }

  lemma {:induction false} SplitPlainRun(s: string, pos: nat, next: nat, field: string, esc: bool, at: string, ie: bool)
    requires pos <= next <= |s|
    requires forall k :: pos <= k < next ==> s[k] !in at
    ensures Split(s[pos..], field, OddBackslashes(s, pos), esc, at, ie)
         == Split(s[next..], field + s[pos..next], OddBackslashes(s, next), esc, at, ie)
    decreases next - pos
  {
    if pos < next {
      assert s[pos..][1..] == s[pos + 1..];
      assert field + s[pos..next] == (field + [s[pos]]) + s[pos + 1..next];
      SplitPlainRun(s, pos + 1, next, field + [s[pos]], esc, at, ie);
    } else {
      assert field + s[pos..next] == field;
    }
  }

  lemma SplitRunTo(s: string, last: nat, pos: nat, next: nat, esc: bool, at: string, ie: bool)
    requires last <= pos <= next <= |s|
    requires forall k :: pos <= k < next ==> s[k] !in at
    ensures Split(s[pos..], s[last..pos], OddBackslashes(s, pos), esc, at, ie)
         == Split(s[next..], s[last..next], OddBackslashes(s, next), esc, at, ie)
  {
    SplitPlainRun(s, pos, next, s[last..pos], esc, at, ie);
    assert s[last..pos] + s[pos..next] == s[last..next];
  }

  /** What happens at a delimiter. */
  lemma SplitAtDelimiter(s: string, last: nat, pos: nat, esc: bool, at: string, ie: bool)
    requires last <= pos < |s| && s[pos] in at
    ensures var odd := OddBackslashes(s, pos);
      Split(s[pos..], s[last..pos], odd, esc, at, ie)
      == if esc && odd then Split(s[pos + 1..], s[last..pos + 1], OddBackslashes(s, pos + 1), esc, at, ie)
         else Piece(s[last..pos], esc, at, ie) + Split(s[pos + 1..], [], OddBackslashes(s, pos + 1), esc, at, ie)
  {
    assert s[pos..][1..] == s[pos + 1..];
    assert s[last..pos] + [s[pos]] == s[last..pos + 1];
  }

  method FinishField(field: string, esc: bool, at: string, ignoreEmpty: bool) returns (words: seq<string>)
    ensures words == Piece(field, esc, at, ignoreEmpty)
  {
    var r := field;
    if esc { r := EraseEscapes(field, at); }
    if r != [] || !ignoreEmpty { words := [r]; } else { words := []; }
  }

  /** The loop state of split_string: the words so far, the start of the open field, and
      the position. */
  ghost predicate Splitting(goal: seq<string>, vec: seq<string>, s: string, last: nat, pos: nat, esc: bool, at: string, ie: bool)
    requires last <= pos <= |s|
  {
    goal == vec + Split(s[pos..], s[last..pos], OddBackslashes(s, pos), esc, at, ie)
  }

  lemma SplittingStarts(s: string, esc: bool, at: string, ie: bool)
    ensures Splitting(Split(s, [], false, esc, at, ie), [], s, 0, 0, esc, at, ie)
  {
    hide Split;
    assert s[0..] == s && s[0..0] == [];
  }

  lemma SplittingEnds(goal: seq<string>, vec: seq<string>, s: string, last: nat, esc: bool, at: string, ie: bool)
    requires last <= |s| && Splitting(goal, vec, s, last, |s|, esc, at, ie)
    ensures goal == vec + Piece(s[last..], esc, at, ie)
  {
    assert s[|s|..] == [] && s[last..] == s[last..|s|];
  }

  /** To the next delimiter, and over it. */
  lemma SplittingStep(goal: seq<string>, vec: seq<string>, s: string, last: nat, pos: nat, next: nat, esc: bool, at: string, ie: bool)
    requires last <= pos <= |s| && Splitting(goal, vec, s, last, pos, esc, at, ie) && next == FindFirstOf(s, at, pos)
    ensures Splitting(goal, vec, s, last, next, esc, at, ie)
    ensures next < |s| ==>
      if esc && OddBackslashes(s, next) then Splitting(goal, vec, s, last, next + 1, esc, at, ie)
      else Splitting(goal, vec + Piece(s[last..next], esc, at, ie), s, next + 1, next + 1, esc, at, ie)
  {
    hide Split, OddBackslashes, Piece, FindFirstOf;
    SplitRunTo(s, last, pos, next, esc, at, ie);
    if next < |s| {
      SplitAtDelimiter(s, last, next, esc, at, ie);
      Regroup(vec, Piece(s[last..next], esc, at, ie), Split(s[next + 1..], [], OddBackslashes(s, next + 1), esc, at, ie));
      assert s[next + 1..next + 1] == [];
    }
  }

  method SplitString(str: string, esc: bool, at: string, ignoreEmpty: bool) returns (vec: seq<string>)
    ensures vec == Split(str, [], false, esc, at, ignoreEmpty)
  {
    hide Split, Splitting, Piece, FindFirstOf;
    vec := [];
    var lastPos, pos := 0, 0;
    ghost var goal := Split(str, [], false, esc, at, ignoreEmpty);
    SplittingStarts(str, esc, at, ignoreEmpty);
    while true
      invariant lastPos <= pos <= |str| && Splitting(goal, vec, str, lastPos, pos, esc, at, ignoreEmpty)
      decreases |str| - pos
    {
      var next := FindFirstOf(str, at, pos);
      SplittingStep(goal, vec, str, lastPos, pos, next, esc, at, ignoreEmpty);
      pos := next;
      if pos == |str| { break; }
      var escaped := EscapedAt(str, pos);
      if esc && escaped {
        pos := pos + 1;
        continue;
      }
      var words := FinishField(str[lastPos..pos], esc, at, ignoreEmpty);
      vec := vec + words;
      pos := pos + 1;
      lastPos := pos;
    }
    SplittingEnds(goal, vec, str, lastPos, esc, at, ignoreEmpty);
    var words := FinishField(str[lastPos..], esc, at, ignoreEmpty);
    vec := vec + words;
  }

  lemma {:induction false} UnescapePlainRun(s: string, n: nat, at: string)
    requires n <= |s| && forall k :: 0 <= k < n ==> s[k] != '\\'
    ensures Unescape(s, at) == s[..n] + Unescape(s[n..], at)
  {
    if n > 0 {
      UnescapePlainRun(s[1..], n - 1, at);
      assert s[1..][n - 1..] == s[n..];
      assert s[..n] == [s[0]] + s[1..][..n - 1];
    }
  }

  /** What happens at a backslash: it goes if it escapes something, and stays otherwise. */
  lemma UnescapeStep(s: string, n: nat, at: string)
    requires n < |s| && s[n] == '\\' && forall k :: 0 <= k < n ==> s[k] != '\\'
    ensures n + 1 == |s| ==> Unescape(s, at) == s[..n]
    ensures n + 1 < |s| && (s[n + 1] == '\\' || s[n + 1] in at || s[n + 1] == NUL) ==>
      Unescape(s, at) == s[..n] + [s[n + 1]] + Unescape(s[n + 2..], at)
    ensures n + 1 < |s| && !(s[n + 1] == '\\' || s[n + 1] in at || s[n + 1] == NUL) ==>
      Unescape(s, at) == s[..n + 1] + Unescape(s[n + 1..], at)
  {
    hide Unescape;
    UnescapePlainRun(s, n, at);
    var t := s[n..];
    UnescapeHead(t, at);
    assert t[0] == s[n] && (n + 1 < |s| ==> t[1] == s[n + 1] && t[1..] == s[n + 1..] && t[2..] == s[n + 2..]);
    assert s[..n] + [s[n]] == s[..n + 1];
    assert s[..n] + [] == s[..n];
    if n + 1 < |s| {
      Regroup(s[..n], [s[n + 1]], Unescape(s[n + 2..], at));
      Regroup(s[..n], [s[n]], Unescape(s[n + 1..], at));
    }
  }

  /** What a backslash in front does. */
  lemma UnescapeHead(t: string, at: string)
    requires t != [] && t[0] == '\\'
    ensures |t| == 1 ==> Unescape(t, at) == []
    ensures |t| > 1 && (t[1] == '\\' || t[1] in at || t[1] == NUL) ==> Unescape(t, at) == [t[1]] + Unescape(t[2..], at)
    ensures |t| > 1 && !(t[1] == '\\' || t[1] in at || t[1] == NUL) ==> Unescape(t, at) == [t[0]] + Unescape(t[1..], at)
  {
  }

  /** The text with the character at `pos - 1` erased. */
  lemma EraseInRest(done: string, rest: string, n: nat)
    requires n + 1 < |rest|
    ensures var r := done + rest; var pos := |done| + n + 1;
      r[..pos - 1] + r[pos..] == done + (rest[..n] + [rest[n + 1]]) + rest[n + 2..]
  {
    var r := done + rest;
    assert r[..|done| + n] == done + rest[..n];
    assert r[|done| + n + 1..] == [rest[n + 1]] + rest[n + 2..];
  }

  /** The loop state: no escapes are left before `pos`, the rest is still raw. */
  ghost predicate Erasing(str: string, at: string, r: string, pos: nat)
    requires pos <= |r|
  {
    Unescape(str, at) == r[..pos] + Unescape(r[pos..], at)
  }

  predicate Erasable(c: char, at: string) { c == '\\' || c in at || c == NUL }

  /** From one backslash to the next: it is erased if it is the last character or escapes
      something, and stays otherwise. */
  lemma EraseMove(str: string, at: string, r: string, pos: nat, next: nat)
    requires pos <= |r| && Erasing(str, at, r, pos) && next == FindFirstOf(r, ['\\'], pos)
    ensures next == |r| ==> r == Unescape(str, at)
    ensures next + 1 == |r| ==> r[..next] == Unescape(str, at)
    ensures next + 1 < |r| && Erasable(r[next + 1], at) ==>
      var s := r[..next] + r[next + 1..]; next + 1 <= |s| && Erasing(str, at, s, next + 1)
    ensures next + 1 < |r| && !Erasable(r[next + 1], at) ==> Erasing(str, at, r, next + 1)
  {
    hide Unescape, FindFirstOf;
    var done, rest, n := r[..pos], r[pos..], next - pos;
    assert r == done + rest;
    RestIndex(done, rest);
    forall k | 0 <= k < n ensures rest[k] != '\\' { assert rest[k] == r[pos + k]; }
    if next == |r| {
      UnescapePlainRun(rest, n, at);
      UnescapeNothing(at);
      assert rest[n..] == [] && rest[..n] == rest;
    } else {
      assert rest[n] == r[next];
      UnescapeStep(rest, n, at);
      if next + 1 == |r| {
        EraseLast(done, rest, n);
      } else if Erasable(r[next + 1], at) {
        EraseInRest(done, rest, n);
        var u, s := rest[..n] + [rest[n + 1]], r[..next] + r[next + 1..];
        assert s[..next + 1] == done + u && s[next + 1..] == rest[n + 2..];
        Regroup(done, u, Unescape(rest[n + 2..], at));
      } else {
        assert r[..next + 1] == done + rest[..n + 1] && r[next + 1..] == rest[n + 1..];
        Regroup(done, rest[..n + 1], Unescape(rest[n + 1..], at));
      }
    }
  }

  lemma UnescapeNothing(at: string)
    ensures Unescape([], at) == []
  {
  }

  lemma EraseStarts(str: string, at: string)
    ensures Erasing(str, at, str, 0)
    ensures forall r: string :: Erasing(str, at, r, |r|) ==> r == Unescape(str, at)
  {
    assert str[..0] == [] && str[0..] == str;
    forall r: string | Erasing(str, at, r, |r|) ensures r == Unescape(str, at) {
      assert r[..|r|] == r && r[|r|..] == [];
      UnescapeNothing(at);
    }
  }

  /** erase_escapes: removes the escapes in place. */
  method EraseEscapes(str: string, at: string) returns (r: string)
    ensures r == Unescape(str, at)
  {
    hide Unescape, Erasing, FindFirstOf;
    r := str;
    var pos := 0;
    EraseStarts(str, at);
    while pos < |r|
      invariant pos <= |r| && Erasing(str, at, r, pos)
      decreases |r| - pos
    {
      var next := FindFirstOf(r, ['\\'], pos);
      EraseMove(str, at, r, pos, next);
      if next == |r| { return; }
      pos := next + 1;
      if pos == |r| { return r[..pos - 1]; }
      if Erasable(r[pos], at) { r := r[..pos - 1] + r[pos..]; }
    }
  }

  lemma EraseLast(done: string, rest: string, n: nat)
    requires n + 1 == |rest|
    ensures (done + rest)[..|done| + n] == done + rest[..n]
  {
  }

  // ---- Joining ----

  /** Joins with a separator before every word but the first. */
  function Join(ws: seq<string>, glue: string): string
  {
    if ws == [] then []
    else if |ws| == 1 then ws[0]
    else Join(ws[..|ws| - 1], glue) + glue + ws[|ws| - 1]
  }

  /** Joins as the program does: no separator while the result is still empty. */
  function JoinLazily(ws: seq<string>, glue: string): string
  {
    if ws == [] then []
    else
      var s := JoinLazily(ws[..|ws| - 1], glue);
      (if s == [] then s else s + glue) + ws[|ws| - 1]
  }

  lemma {:induction false} JoinLazilyIsJoin(ws: seq<string>, glue: string)
    requires forall w :: w in ws ==> w != []
    ensures JoinLazily(ws, glue) == Join(ws, glue)
    ensures ws != [] ==> Join(ws, glue) != []
  {
    if |ws| == 1 {
      assert ws[0] in ws;
      assert JoinLazily(ws[..0], glue) == [];
    } else if |ws| > 1 {
      var front := ws[..|ws| - 1];
      assert forall w :: w in front ==> w in ws;
      JoinLazilyIsJoin(front, glue);
    }
  }

  method JoinToString(ws: seq<string>, glue: string) returns (s: string)
    ensures s == JoinLazily(ws, glue)
  {
    s := [];
    for i := 0 to |ws|
      invariant s == JoinLazily(ws[..i], glue)
    {
      assert ws[..i + 1][..i] == ws[..i];
      if s != [] { s := s + glue; }
      s := s + ws[i];
    }
    assert ws[..|ws|] == ws;
  }

  // ---- Splitting undoes escaping ----

  function EscapeAll(ws: seq<string>, at: string): (r: seq<string>)
    ensures |r| == |ws| && forall i :: 0 <= i < |ws| ==> r[i] == Escape(ws[i], at)
  {
    seq(|ws|, i requires 0 <= i < |ws| => Escape(ws[i], at))
  }

  lemma SplitOverChar(c: char, rest: string, field: string, at: string, ie: bool)
    requires '\\' !in at
    ensures Split(EscapeChar(c, at) + rest, field, false, true, at, ie)
         == Split(rest, field + EscapeChar(c, at), false, true, at, ie)
  {
    var u := EscapeChar(c, at);
    if |u| == 1 {
      assert (u + rest)[1..] == rest;
    } else {
      assert (u + rest)[1..] == [c] + rest && ([c] + rest)[1..] == rest;
      assert field + ['\\'] + [c] == field + u;
    }
  }

  /** An escaped word never ends a field, and leaves an even number of backslashes. */
  lemma {:induction false} SplitOverWord(w: string, rest: string, field: string, at: string, ie: bool)
    requires '\\' !in at
    ensures Split(Escape(w, at) + rest, field, false, true, at, ie) == Split(rest, field + Escape(w, at), false, true, at, ie)
  {
    if w == [] {
      assert Escape(w, at) + rest == rest && field + Escape(w, at) == field;
    } else {
      var u := EscapeChar(w[0], at);
      assert Escape(w, at) + rest == u + (Escape(w[1..], at) + rest);
      SplitOverChar(w[0], Escape(w[1..], at) + rest, field, at, ie);
      SplitOverWord(w[1..], rest, field + u, at, ie);
      assert field + Escape(w, at) == field + u + Escape(w[1..], at);
    }
  }

  /** One escaped word with a delimiter after it is one word of the split. */
  lemma SplitOneWord(w: string, rest: string, d: char, at: string, ie: bool)
    requires '\\' !in at && d in at && (ie ==> w != [])
    ensures Split(Escape(w, at), [], false, true, at, ie) == [w]
    ensures Split(Escape(w, at) + ([d] + rest), [], false, true, at, ie) == [w] + Split(rest, [], false, true, at, ie)
  {
    var e := Escape(w, at);
    UnescapeEscape(w, at);
    assert [] + e == e && e + [] == e;
    SplitOverWord(w, [], [], at, ie);
    SplitOverWord(w, [d] + rest, [], at, ie);
    assert ([d] + rest)[1..] == rest;
  }

  /** The joined text, seen from its first word. */
  lemma {:induction false} JoinFront(ws: seq<string>, glue: string)
    requires |ws| > 1
    ensures Join(ws, glue) == ws[0] + (glue + Join(ws[1..], glue))
  {
    var n := |ws| - 1;
    if n == 1 {
      assert ws[..1] == [ws[0]] && ws[1..] == [ws[1]];
    } else {
      JoinFront(ws[..n], glue);
      assert ws[..n][1..] == ws[1..][..n - 1];
    }
  }

  lemma JoinEscapedFront(ws: seq<string>, d: char, at: string)
    requires |ws| > 1
    ensures Join(EscapeAll(ws, at), [d]) == Escape(ws[0], at) + ([d] + Join(EscapeAll(ws[1..], at), [d]))
  {
    var es := EscapeAll(ws, at);
    JoinFront(es, [d]);
    assert es[1..] == EscapeAll(ws[1..], at);
  }

  /** split_string with escapes returns exactly the words that were escaped and joined.
      When empty words are kept, at least one word is needed: no words and one empty
      word both join to the empty string. */
  lemma {:induction false} SplitUndoesEscape(ws: seq<string>, d: char, at: string, ignoreEmpty: bool)
    requires '\\' !in at && d in at
    requires if ignoreEmpty then forall i :: 0 <= i < |ws| ==> ws[i] != [] else ws != []
    ensures Split(Join(EscapeAll(ws, at), [d]), [], false, true, at, ignoreEmpty) == ws
    decreases |ws|
  {
    if |ws| == 1 {
      SplitOneWord(ws[0], [], d, at, ignoreEmpty);
    } else if |ws| > 1 {
      var rest := Join(EscapeAll(ws[1..], at), [d]);
      JoinEscapedFront(ws, d, at);
      SplitOneWord(ws[0], rest, d, at, ignoreEmpty);
      SplitUndoesEscape(ws[1..], d, at, ignoreEmpty);
    }
  }

  // ---- Words and white space ----

  ghost predicate NoSpace(s: string) { forall c :: c in s ==> c !in SPACES }

  /** Without escapes the backslash parity has no influence. */
  lemma {:induction false} SplitIgnoresParity(s: string, field: string, odd: bool)
    ensures Split(s, field, odd, false, SPACES, true) == Split(s, field, false, false, SPACES, true)
    decreases |s|
  {
    if s != [] {
      var field' := if s[0] in SPACES then [] else field + [s[0]];
      SplitIgnoresParity(s[1..], field', s[0] == '\\' && !odd);
      SplitIgnoresParity(s[1..], field', s[0] == '\\');
    }
  }

  function WordsFrom(field: string, s: string): seq<string>
  {
    Split(s, field, false, false, SPACES, true)
  }

  lemma WordsStep(field: string, s: string)
    ensures s == [] ==> WordsFrom(field, s) == if field == [] then [] else [field]
    ensures s != [] && s[0] in SPACES ==> WordsFrom(field, s) == WordsFrom(field, []) + WordsFrom([], s[1..])
    ensures s != [] && s[0] !in SPACES ==> WordsFrom(field, s) == WordsFrom(field + [s[0]], s[1..])
  {
    if s != [] {
      SplitIgnoresParity(s[1..], [], s[0] == '\\');
      SplitIgnoresParity(s[1..], field + [s[0]], s[0] == '\\');
    }
  }

  /** White space between two texts separates their words. */
  lemma {:induction false} WordsConcat(field: string, a: string, c: char, b: string)
    requires c in SPACES
    ensures WordsFrom(field, a + [c] + b) == WordsFrom(field, a) + Words(b)
    decreases |a|
  {
    WordsStep(field, a + [c] + b);
    WordsStep(field, a);
    if a == [] {
      assert (a + [c] + b)[1..] == b;
    } else {
      assert (a + [c] + b)[1..] == a[1..] + [c] + b;
      if a[0] in SPACES {
        WordsConcat([], a[1..], c, b);
      } else {
        WordsConcat(field + [a[0]], a[1..], c, b);
      }
    }
  }

  lemma {:induction false} WordsOfWord(field: string, w: string)
    requires NoSpace(w)
    ensures WordsFrom(field, w) == if field + w == [] then [] else [field + w]
    decreases |w|
  {
    WordsStep(field, w);
    if w == [] {
      assert field + w == field;
    } else {
      assert w[0] in w && forall c :: c in w[1..] ==> c in w;
      WordsOfWord(field + [w[0]], w[1..]);
      assert field + [w[0]] + w[1..] == field + w;
    }
  }

  /** Every word of a split is nonempty and free of white space and comes from the text. */
  lemma {:induction false} WordsAreWords(field: string, s: string)
    requires NoSpace(field)
    ensures forall w :: w in WordsFrom(field, s) ==> w != [] && NoSpace(w)
    ensures forall w, c :: w in WordsFrom(field, s) && c in w ==> c in field || c in s
    decreases |s|
  {
    WordsStep(field, s);
    WordsStep(field, []);
    if s != [] {
      if s[0] in SPACES { WordsAreWords([], s[1..]); } else { WordsAreWords(field + [s[0]], s[1..]); }
    }
  }

  /** Words are what stands between blanks, tabs and the ends of lines. */
  lemma WordsMean(a: string, c: char, b: string, w: string)
    requires c == ' ' || c == '\t' || c == '\r' || c == '\n'
    requires w != [] && forall i :: 0 <= i < |w| ==> w[i] != ' ' && w[i] != '\t' && w[i] != '\r' && w[i] != '\n'
    ensures Words([]) == [] && Words(w) == [w] && Words(a + [c] + b) == Words(a) + Words(b)
  {
    WordsStep([], []);
    WordsConcat([], a, c, b);
    WordsOfWord([], w);
    assert [] + w == w;
  }

  /** Glue is put only once there is text in front of it. */
  lemma GlueMeans(a: string, b: string, glue: string)
    requires a != []
    ensures JoinLazily([[], a, [], b], glue) == a + glue + glue + b
  {
    var none: string := [];
    var ws := [none, a, none, b];
    assert ws[..3] == [none, a, none] && ws[..3][..2] == [none, a] && [none, a][..1] == [none] && [none][..0] == [];
    assert JoinLazily([none], glue) == [];
    assert JoinLazily([none, a], glue) == a;
    assert JoinLazily([none, a, none], glue) == a + glue;
  }

  /** Splitting a joined word list gives the list back. */
  lemma {:induction false} WordsOfJoin(ws: seq<string>)
    requires forall w :: w in ws ==> w != [] && NoSpace(w)
    ensures Words(Join(ws, " ")) == ws
  {
    var n := |ws| - 1;
    if ws != [] {
      assert ws[n] in ws && forall w :: w in ws[..n] ==> w in ws;
      WordsOfWord([], ws[n]);
      assert [] + ws[n] == ws[n];
      if n > 0 {
        WordsOfJoin(ws[..n]);
        WordsConcat([], Join(ws[..n], " "), ' ', ws[n]);
        assert ws == ws[..n] + [ws[n]];
      } else {
        assert ws == [ws[0]];
      }
    }
  }
}
