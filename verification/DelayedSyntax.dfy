/** The delayed references of the configuration: how they are found in a text. */
module DelayedSyntax {
  import opened Strings

  datatype Kind = Variable | IfTrue | IfFalse | IfNonempty | IfEmpty | Else | Fi | Quote

  /** A variable name with its flags; `append` is empty without that flag. */
  datatype Ref = Ref(star: bool, escape: bool, name: string, append: string)

  const NO_REF := Ref(false, false, [], [])

  /** What is found at one opening "%{": a tag, nothing, or nothing at all in the rest. */
  datatype Attempt = Tag(kind: Kind, length: nat, ref: Ref) | NoTag | Stop

  datatype Found = NotFound | Hit(kind: Kind, pos: nat, length: nat, ref: Ref)

  predicate IsNameChar(c: char)
  {
    'a' <= c <= 'z' || 'A' <= c <= 'Z' || '0' <= c <= '9' || c == '_'
  }

  function ToLower(c: char): char
  {
    if 'A' <= c <= 'Z' then ((c as int) + 32) as char else c
  }

  /** caseequal; both strings end at a NUL. */
  predicate CaseEqual(s: string, pattern: string)
  {
    if s == [] || s[0] == NUL then pattern == []
    else pattern != [] && ToLower(s[0]) == pattern[0] && CaseEqual(s[1..], pattern[1..])
  }

  /** Where "%{" occurs at or behind `pos`; `|s|` if nowhere. */
  function FindOpen(s: string, pos: nat): (r: nat)
    requires pos <= |s|
    ensures pos <= r <= |s|
    ensures r < |s| ==> r + 2 <= |s| && s[r] == '%' && s[r + 1] == '{'
    decreases |s| - pos
  {
    if pos == |s| then |s|
    else if pos + 1 < |s| && s[pos] == '%' && s[pos + 1] == '{' then pos
    else FindOpen(s, pos + 1)
  }

  predicate IsHead(c: char) { c == '*' || c == '\\' }

  function HeadEnd(s: string, pos: nat): (r: nat)
    requires pos <= |s|
    ensures pos <= r <= |s|
    ensures forall k :: pos <= k < r ==> IsHead(s[k])
    ensures r < |s| ==> !IsHead(s[r])
    decreases |s| - pos
  {
    if pos < |s| && IsHead(s[pos]) then HeadEnd(s, pos + 1) else pos
  }

  function NameEnd(s: string, pos: nat): (r: nat)
    requires pos <= |s|
    ensures pos <= r <= |s|
    ensures forall k :: pos <= k < r ==> IsNameChar(s[k])
    ensures r < |s| ==> !IsNameChar(s[r])
    decreases |s| - pos
  {
    if pos < |s| && IsNameChar(s[pos]) then NameEnd(s, pos + 1) else pos
  }

  /** The end of the text ends a name as well, but then nothing is found at all. */
  function NameAt(s: string, p: nat, kind: Kind, start: nat): (r: Attempt)
    requires p + 2 <= start < |s|
    ensures r.Tag? ==> 3 <= r.length && p + r.length <= |s|
  {
    var v := HeadEnd(s, start);
    var n := NameEnd(s, v);
    if n == |s| then (if v == |s| then NoTag else Stop)
    else
      var c := s[n];
      var append := kind == Variable && (c == ',' || c == ';');
      var close := if append then FindFirstOf(s, "}", n + 1) else n;
      if close == |s| || s[close] != '}' then NoTag
      else if CaseEqual(s[p + 2..close], "else") then Tag(Else, close + 1 - p, NO_REF)
      else if n == v then NoTag
      else Tag(kind, close + 1 - p, Ref('*' in s[start..v], '\\' in s[start..v], s[v..n], s[n..close]))
  }

  /** The tag whose "%{" stands at `p`. */
  function TagAt(s: string, p: nat): (r: Attempt)
    requires p + 2 <= |s|
    ensures r.Tag? ==> 3 <= r.length && p + r.length <= |s|
  {
    var i := p + 2;
    if i == |s| then Stop
    else if s[i] == '}' then Tag(Fi, 3, NO_REF)
    else if s[i] == '%' then Tag(Quote, 3, NO_REF)
    else if s[i] == '?' || s[i] == '!' then
      if i + 1 == |s| then Stop
      else if s[i + 1] == '?' then
        if i + 2 == |s| then Stop
        else NameAt(s, p, if s[i] == '?' then IfNonempty else IfEmpty, i + 2)
      else NameAt(s, p, if s[i] == '?' then IfTrue else IfFalse, i + 1)
    else NameAt(s, p, Variable, i)
  }

  function FindNext(s: string, pos: nat): (r: Found)
    requires pos <= |s|
    ensures r.Hit? ==> pos <= r.pos && 0 < r.length && r.pos + r.length <= |s|
    decreases |s| - pos
  {
    var p := FindOpen(s, pos);
    if p == |s| then NotFound
    else
      match TagAt(s, p)
      case Stop => NotFound
      case NoTag => FindNext(s, p + 2)
      case Tag(kind, length, ref) => Hit(kind, p, length, ref)
  }

  // ---- The scanning loops ----

  /** The loop over head symbols and name characters: where each of them ends. */
  method ScanName(s: string, start: nat) returns (v: nat, n: nat, star: bool, escape: bool)
    requires start <= |s|
    ensures v == HeadEnd(s, start) && n == NameEnd(s, v)
    ensures star == ('*' in s[start..v]) && escape == ('\\' in s[start..v])
  {
    hide IsNameChar;
    v, star, escape := start, false, false;
    assert s[start..start] == [];
    while v < |s| && IsHead(s[v])
      invariant start <= v <= |s| && HeadEnd(s, v) == HeadEnd(s, start)
      invariant star == ('*' in s[start..v]) && escape == ('\\' in s[start..v])
      decreases |s| - v
    {
      HeadsGrow(s, start, v);
      if s[v] == '*' { star := true; } else { escape := true; }
      v := v + 1;
    }
    n := v;
    while n < |s| && IsNameChar(s[n])
      invariant v <= n <= |s| && NameEnd(s, n) == NameEnd(s, v)
      decreases |s| - n
    {
      n := n + 1;
    }
  }

  lemma HeadsGrow(s: string, start: nat, v: nat)
    requires start <= v < |s|
    ensures forall c :: c in s[start..v + 1] <==> c in s[start..v] || c == s[v]
  {
    assert s[start..v + 1] == s[start..v] + [s[v]];
  }

  method ScanTag(s: string, p: nat, kind: Kind, start: nat) returns (r: Attempt)
    requires p + 2 <= start < |s|
    ensures r == NameAt(s, p, kind, start)
  {
    hide CaseEqual, HeadEnd, NameEnd, FindFirstOf, IsNameChar, IsHead;
    var v, n, star, escape := ScanName(s, start);
    if n == |s| { return if v == |s| then NoTag else Stop; }
    var close := n;
    if kind == Variable && (s[n] == ',' || s[n] == ';') {
      close := FindFirstOf(s, "}", n + 1);
    }
    if close == |s| || s[close] != '}' { return NoTag; }
    if CaseEqual(s[p + 2..close], "else") { return Tag(Else, close + 1 - p, NO_REF); }
    if n == v { return NoTag; }
    return Tag(kind, close + 1 - p, Ref(star, escape, s[v..n], s[n..close]));
  }

  /** find_next_delayed */
  method FindNextDelayed(s: string, start: nat) returns (r: Found)
    requires start <= |s|
    ensures r == FindNext(s, start)
  {
    hide NameAt;
    var pos := start;
    while true
      invariant pos <= |s| && FindNext(s, pos) == FindNext(s, start)
      decreases |s| - pos
    {
      pos := FindOpen(s, pos);
      if pos == |s| { return NotFound; }
      var i := pos + 2;
      if i == |s| { return NotFound; }
      if s[i] == '}' { return Hit(Fi, pos, 3, NO_REF); }
      if s[i] == '%' { return Hit(Quote, pos, 3, NO_REF); }
      var kind := Variable;
      var first := s[i];
      if first == '?' || first == '!' {
        i := i + 1;
        if i == |s| { return NotFound; }
        kind := if first == '?' then IfTrue else IfFalse;
        if s[i] == '?' {
          i := i + 1;
          if i == |s| { return NotFound; }
          kind := if first == '?' then IfNonempty else IfEmpty;
        }
      }
      var tag := ScanTag(s, pos, kind, i);
      match tag {
        case Stop => return NotFound;
        case NoTag => pos := pos + 2;
        case Tag(k, length, ref) => return Hit(k, pos, length, ref);
      }
    }
  }
}
