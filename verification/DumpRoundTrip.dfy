/** Reading the text of all options assigns what was written. */
module DumpRoundTrip {
  import opened Strings
  import opened NumberCodec
  import opened VarsLanguage
  import opened VarsDump
  import VarsReader

  /** The flags with which files of options are read. */
  const EIXRC_FLAGS := Flags(false, true, true, false, false)

  /** The flags that the round trip needs. */
  predicate Simple(f: Flags) { !f.onlyKeywordsSlot && !f.portageEscapes && !f.portageSections }

  predicate IsKey(key: string) { key != [] && forall i :: 0 <= i < |key| ==> IsKeyChar(key[i]) }

  /** A line that starts with `s` is taken for a command, and one that starts with a digit or a
      sign for noise. */
  predicate Readable(key: string) { key != [] && IsKeyStart(key[0]) && key[0] != 's' }

  // ---- Comments and empty lines ----

  lemma CommentStarts(c: Config, s: string, pos: nat, env: Env)
    requires pos < |s| && s[pos] == '#'
    ensures ReadFrom(c, s, pos, env) == ReadFrom(c, s, CommentEnd(s, pos + 1), env)
  {
    hide NoiseEnd, CommentEnd, FindFirstOf, ReadFrom;
    VarsReader.LineReads(c, s, pos, env);
    var q := FindFirstOf(s, "\n", pos + 1);
    CommentEndIs(s, pos + 1, q);
    if q == |s| {
      VarsReader.EndReads(c, s, env);
    } else {
      NoiseAtNewline(s, q);
    }
  }

  lemma {:induction false} CommentEndIs(s: string, pos: nat, q: nat)
    requires pos <= q <= |s| && (forall k :: pos <= k < q ==> s[k] != '\n') && (q < |s| ==> s[q] == '\n')
    ensures CommentEnd(s, pos) == if q == |s| then q else q + 1
    decreases q - pos
  {
    if pos < q { CommentEndIs(s, pos + 1, q); }
  }

  lemma NoiseAtNewline(s: string, pos: nat)
    requires pos < |s| && s[pos] == '\n'
    ensures NoiseEnd(s, pos) == pos + 1
  {
  }

  /** An empty line. */
  lemma NewlineSkipped(c: Config, s: string, pos: nat, env: Env)
    requires At(s, pos, "\n")
    ensures ReadFrom(c, s, pos, env) == ReadFrom(c, s, pos + 1, env)
  {
    AtIndex(s, pos, "\n", 0);
    VarsReader.NewlineReads(c, s, pos, env);
    NoiseAtNewline(s, pos);
  }

  lemma {:induction false} CommentedSkipped(c: Config, s: string, pos: nat, t: string, env: Env)
    requires At(s, pos, Commented(t) + "\n")
    ensures pos <= |s| && ReadFrom(c, s, CommentEnd(s, pos), env) == ReadFrom(c, s, pos + |Commented(t)| + 1, env)
    decreases |t|
  {
    hide At, ReadFrom;
    AtBound(s, pos, Commented(t) + "\n");
    if t == [] {
      assert Commented(t) + "\n" == "\n";
      AtIndex(s, pos, "\n", 0);
    } else {
      var u := if t[0] == '\n' then "\n# " else [t[0]];
      assert Commented(t) + "\n" == u + (Commented(t[1..]) + "\n");
      AtPiece(s, pos, u, Commented(t[1..]) + "\n");
      AtIndex(s, pos, u, 0);
      if t[0] == '\n' {
        AtIndex(s, pos, u, 1);
        AtIndex(s, pos, u, 2);
        CommentStarts(c, s, pos + 1, env);
      }
      CommentedSkipped(c, s, pos + |u|, t[1..], env);
    }
  }

  /** A comment is skipped, whatever its text is. */
  lemma CommentSkipped(c: Config, s: string, pos: nat, t: string, env: Env)
    requires At(s, pos, CommentText(t))
    ensures ReadFrom(c, s, pos, env) == ReadFrom(c, s, pos + |CommentText(t)|, env)
  {
    hide At, ReadFrom, Commented;
    AtPiece(s, pos, "# ", Commented(t) + "\n");
    AtIndex(s, pos, "# ", 0);
    AtIndex(s, pos, "# ", 1);
    CommentStarts(c, s, pos, env);
    CommentedSkipped(c, s, pos + 2, t, env);
  }

  // ---- Assignments ----

  /** A value in double quotes is read back. */
  lemma {:induction false} EscapedIsRead(f: Flags, env: Env, s: string, pos: nat, v: string)
    requires Simple(f) && At(s, pos, Escape(v, DOUBLEQUOTES) + "\"")
    ensures var end := pos + |Escape(v, DOUBLEQUOTES)| + 1;
      && pos < end <= |s|
      && ValueAt(f, env, s, pos, Double) == (v + ValueAt(f, env, s, end, Bare).0, ValueAt(f, env, s, end, Bare).1)
    decreases |v|
  {
    hide At, Reference, SectionReference;
    var all := Escape(v, DOUBLEQUOTES) + "\"";
    AtBound(s, pos, all);
    if v == [] {
      AtIndex(s, pos, all, 0);
      assert [] + ValueAt(f, env, s, pos + 1, Bare).0 == ValueAt(f, env, s, pos + 1, Bare).0;
    } else {
      var u, rest := EscapeChar(v[0], DOUBLEQUOTES), Escape(v[1..], DOUBLEQUOTES) + "\"";
      assert all == u + rest;
      AtPiece(s, pos, u, rest);
      AtIndex(s, pos, u, 0);
      if |u| == 2 { AtIndex(s, pos, u, 1); }
      CharIsRead(f, env, s, pos, v[0], pos + |u|);
      EscapedIsRead(f, env, s, pos + |u|, v[1..]);
      var end := pos + |Escape(v, DOUBLEQUOTES)| + 1;
      Regroup([v[0]], v[1..], ValueAt(f, env, s, end, Bare).0);
      assert v == [v[0]] + v[1..];
    }
  }

  lemma CharIsRead(f: Flags, env: Env, s: string, pos: nat, c: char, next: nat)
    requires Simple(f) && next == pos + |EscapeChar(c, DOUBLEQUOTES)| <= |s|
    requires s[pos] == EscapeChar(c, DOUBLEQUOTES)[0] && (next == pos + 2 ==> s[pos + 1] == c)
    ensures ValueAt(f, env, s, pos, Double) == ([c] + ValueAt(f, env, s, next, Double).0, ValueAt(f, env, s, next, Double).1)
  {
    hide Reference, SectionReference;
    assert ValueAt(f, env, s, pos, Double) == Then(f, env, s, ([c], next), Double);
  }

  /** A value in double quotes is passed over as noise. */
  lemma {:induction false} EscapedIsNoise(s: string, pos: nat, v: string)
    requires At(s, pos, Escape(v, DOUBLEQUOTES) + "\"")
    ensures var end := pos + |Escape(v, DOUBLEQUOTES)| + 1;
      pos < end <= |s| && QuotedNoiseEnd(s, pos, '"') == NoiseEnd(s, end)
    decreases |v|
  {
    hide At;
    var all := Escape(v, DOUBLEQUOTES) + "\"";
    AtBound(s, pos, all);
    if v == [] {
      AtIndex(s, pos, all, 0);
    } else {
      var u, rest := EscapeChar(v[0], DOUBLEQUOTES), Escape(v[1..], DOUBLEQUOTES) + "\"";
      assert all == u + rest;
      AtPiece(s, pos, u, rest);
      AtIndex(s, pos, u, 0);
      if |u| == 2 { AtIndex(s, pos, u, 1); }
      EscapedIsNoise(s, pos + |u|, v[1..]);
    }
  }

  /** The parts of an assignment: the key up to `sign`, the value behind the quote, the newline at `end`. */
  ghost predicate Laid(s: string, pos: nat, key: string, value: string, sign: nat, end: nat)
  {
    && sign == pos + |key| && end == sign + 3 + |Escape(value, DOUBLEQUOTES)| && end < |s|
    && s[pos..sign] == key && s[sign] == '=' && s[sign + 1] == '"'
    && At(s, sign + 2, Escape(value, DOUBLEQUOTES) + "\"") && s[end] == '\n'
  }

  lemma AssignmentLaid(s: string, pos: nat, key: string, value: string)
    requires At(s, pos, AssignmentText(key, value))
    ensures |AssignmentText(key, value)| > 0
    ensures Laid(s, pos, key, value, pos + |key|, pos + |AssignmentText(key, value)| - 1)
  {
    hide At, Escape;
    var e := Escape(value, DOUBLEQUOTES);
    AtPiece(s, pos, key, "=\"" + (e + "\"\n"));
    var sign := pos + |key|;
    AtPiece(s, sign, "=\"", e + "\"\n");
    AtIndex(s, sign, "=\"", 0);
    AtIndex(s, sign, "=\"", 1);
    assert e + "\"\n" == (e + "\"") + "\n";
    AtPiece(s, sign + 2, e + "\"", "\n");
    AtIndex(s, sign + 2 + |e + "\""|, "\n", 0);
  }

  lemma KeyChars(s: string, pos: nat, key: string, sign: nat)
    requires IsKey(key) && sign == pos + |key| < |s| && s[pos..sign] == key
    ensures s[pos] == key[0] && forall k :: pos <= k < sign ==> IsKeyChar(s[k])
  {
    forall k | pos <= k < sign ensures s[k] == key[k - pos] { assert s[k] == s[pos..sign][k - pos]; }
  }

  lemma {:induction false} KeyEndIs(s: string, pos: nat, end: nat)
    requires pos <= end < |s| && (forall k :: pos <= k < end ==> IsKeyChar(s[k])) && !IsKeyChar(s[end])
    ensures KeyEnd(s, pos) == end
    decreases end - pos
  {
    if pos < end { KeyEndIs(s, pos + 1, end); }
  }

  lemma NoBlank(s: string, pos: nat)
    requires pos < |s| && !IsBlank(s[pos])
    ensures SkipBlank(s, pos) == pos
  {
  }

  lemma {:induction false} KeyIsNoise(s: string, pos: nat, sign: nat)
    requires pos <= sign < |s| && (forall k :: pos <= k < sign ==> IsKeyChar(s[k])) && s[sign] == '='
    ensures NoiseEnd(s, pos) == NoiseEnd(s, sign + 1)
    decreases sign - pos
  {
    if pos < sign { KeyIsNoise(s, pos + 1, sign); }
  }

  /** A readable key is found, and its value. */
  lemma ReadableIsAssigned(c: Config, s: string, pos: nat, key: string, value: string, sign: nat, end: nat, env: Env)
    requires Simple(c.flags) && IsKey(key) && Readable(key) && Laid(s, pos, key, value, sign, end)
    ensures ReadFrom(c, s, pos, env) == ReadFrom(c, s, end + 1, env.(vars := env.vars[key + env.section := value]))
  {
    hide At, Escape, KeyEnd, SkipBlank, ValueFor, NoiseEnd, CommentEnd, AlphaEnd, FindFirstOf, ReadFrom;
    KeyChars(s, pos, key, sign);
    KeyEndIs(s, pos, sign);
    NoBlank(s, pos);
    NoBlank(s, sign);
    ValueIsFound(c.flags, env, s, sign, value, end);
    NoiseAtNewline(s, end);
    assert LineAt(c.flags, s, pos) == KeyLine(pos);
    assert KeyAt(c.flags, s, pos) == KeyOf(|key|, sign);
    VarsReader.LineReads(c, s, pos, env);
    var a := Assign(c, s, env, Variable(pos, |key|), value);
    assert ReadKey(c, s, pos, env) == ReadValue(c, s, sign, env, Variable(pos, |key|)) == AfterValue(c, s, end, a);
  }

  lemma ValueIsFound(f: Flags, env: Env, s: string, sign: nat, value: string, end: nat)
    requires Simple(f) && sign + 2 < |s| && s[sign + 1] == '"' && At(s, sign + 2, Escape(value, DOUBLEQUOTES) + "\"")
    requires end == sign + 3 + |Escape(value, DOUBLEQUOTES)| && end < |s| && s[end] == '\n'
    ensures ValueFor(f, env, s, sign) == ValueOf(value, end)
  {
    hide At, Escape;
    EscapedIsRead(f, env, s, sign + 2, value);
    assert ValueAt(f, env, s, end, Bare) == ([], end);
    assert value + [] == value;
  }

  /** Any other key makes the line noise. */
  lemma UnreadableIsSkipped(c: Config, s: string, pos: nat, key: string, value: string, sign: nat, end: nat, env: Env)
    requires Simple(c.flags) && IsKey(key) && !Readable(key) && Laid(s, pos, key, value, sign, end)
    ensures ReadFrom(c, s, pos, env) == ReadFrom(c, s, end + 1, env)
  {
    hide At, Escape, SkipBlank, NoiseEnd, CommentEnd, AlphaEnd, FindFirstOf, ReadFrom;
    VarsReader.LineReads(c, s, pos, env);
    KeyChars(s, pos, key, sign);
    NoBlank(s, pos);
    var p := if s[pos] == 's' then AlphaEnd(s, pos) else pos;
    assert p <= sign;
    KeyIsNoise(s, p, sign);
    QuoteNoise(s, sign, value, end);
  }

  lemma QuoteNoise(s: string, sign: nat, value: string, end: nat)
    requires sign + 2 < |s| && s[sign + 1] == '"' && At(s, sign + 2, Escape(value, DOUBLEQUOTES) + "\"")
    requires end == sign + 3 + |Escape(value, DOUBLEQUOTES)| && end < |s| && s[end] == '\n'
    ensures NoiseEnd(s, sign + 1) == end + 1
  {
    hide At, Escape;
    EscapedIsNoise(s, sign + 2, value);
  }

  /** What an assignment does, for every key of key characters and every value. */
  lemma AssignmentRead(c: Config, s: string, pos: nat, key: string, value: string, env: Env)
    requires Simple(c.flags) && IsKey(key) && At(s, pos, AssignmentText(key, value))
    ensures var after := if Readable(key) then env.(vars := env.vars[key + env.section := value]) else env;
      ReadFrom(c, s, pos, env) == ReadFrom(c, s, pos + |AssignmentText(key, value)|, after)
  {
    hide At, ReadFrom, Escape, AssignmentText, Laid;
    AssignmentLaid(s, pos, key, value);
    var sign, end := pos + |key|, pos + |AssignmentText(key, value)| - 1;
    if Readable(key) {
      ReadableIsAssigned(c, s, pos, key, value, sign, end, env);
    } else {
      UnreadableIsSkipped(c, s, pos, key, value, sign, end, env);
    }
  }

  // ---- Entries ----

  /** What the difference says is a comment, whatever the values are. */
  lemma DifferenceIsComment(o: EixRcOption, useDefaults: bool)
    requires IsKey(o.key) && DifferenceText(o, useDefaults) != []
    ensures CStr(o.key) == o.key
    ensures var comment := Escape(if useDefaults then o.localValue else o.value, DOUBLEQUOTES);
      DifferenceText(o, useDefaults) == CommentText(Message(useDefaults)) + CommentText(o.key + "=\"" + (comment + "\""))
  {
    hide Escape, CStr, Commented;
    CStrIdentity(o.key);
    var comment := Escape(if useDefaults then o.localValue else o.value, DOUBLEQUOTES);
    CommentedLine(Message(useDefaults));
    CommentedAround(o.key + "=\"", comment, "\"");
    Regroup(o.key, "=\"", comment + "\"");
    Regroup("# ", Message(useDefaults), "\n");
    QuotedLine(o.key, Commented(comment));
  }

  lemma QuotedLine(a: string, b: string)
    ensures "# " + a + "=\"" + b + "\"\n" == "# " + (((a + "=\"") + (b + "\"")) + "\n")
  {
  }

  lemma CommentedAround(a: string, m: string, b: string)
    requires '\n' !in a && '\n' !in b
    ensures Commented(a + (m + b)) == a + (Commented(m) + b)
  {
    CommentedLine(a);
    CommentedLine(b);
    CommentedConcat(a, m + b);
    CommentedConcat(m, b);
  }

  lemma DifferenceSkipped(c: Config, s: string, pos: nat, o: EixRcOption, useDefaults: bool, env: Env)
    requires IsKey(o.key) && At(s, pos, DifferenceText(o, useDefaults))
    ensures ReadFrom(c, s, pos, env) == ReadFrom(c, s, pos + |DifferenceText(o, useDefaults)|, env)
  {
    hide At, ReadFrom, Escape, CommentText, DifferenceText;
    AtBound(s, pos, DifferenceText(o, useDefaults));
    if DifferenceText(o, useDefaults) != [] {
      DifferenceIsComment(o, useDefaults);
      var comment := Escape(if useDefaults then o.localValue else o.value, DOUBLEQUOTES);
      var first, second := Message(useDefaults), o.key + "=\"" + (comment + "\"");
      AtPiece(s, pos, CommentText(first), CommentText(second));
      CommentSkipped(c, s, pos, first, env);
      CommentSkipped(c, s, pos + |CommentText(first)|, second, env);
    }
  }

  /** What an entry leaves behind. */
  function AfterEntry(o: EixRcOption, useDefaults: bool, vars: Vars): Vars
  {
    if Readable(o.key) then vars[o.key := Output(o, useDefaults)] else vars
  }

  lemma EntryRead(c: Config, s: string, pos: nat, o: EixRcOption, useDefaults: bool, env: Env)
    requires Simple(c.flags) && IsKey(o.key) && env.section == [] && At(s, pos, EntryText(o, useDefaults))
    ensures ReadFrom(c, s, pos, env)
      == ReadFrom(c, s, pos + |EntryText(o, useDefaults)|, env.(vars := AfterEntry(o, useDefaults, env.vars)))
  {
    hide At, ReadFrom, Escape, CStr, CommentText, AssignmentText, DifferenceText, Readable, Output;
    CStrIdentity(o.key);
    assert o.key + env.section == o.key;
    var assignment := AssignmentText(o.key, Output(o, useDefaults));
    var after := env.(vars := AfterEntry(o, useDefaults, env.vars));
    if o.kind == LOCAL {
      var first := CommentText("locally added:");
      AtPiece(s, pos, first, assignment + "\n");
      CommentSkipped(c, s, pos, "locally added:", env);
      assert [] + "\n" == "\n";
      EntryEnds(c, s, pos + |first|, o, Output(o, useDefaults), [], env, after);
    } else {
      var first, second := CommentText(TypeString(o.kind)), CommentText(CStr(o.description));
      var difference := DifferenceText(o, useDefaults);
      AtPiece(s, pos, first, second + (assignment + (difference + "\n")));
      CommentSkipped(c, s, pos, TypeString(o.kind), env);
      AtPiece(s, pos + |first|, second, assignment + (difference + "\n"));
      CommentSkipped(c, s, pos + |first|, CStr(o.description), env);
      var p := pos + |first| + |second|;
      AtPiece(s, p, assignment, difference + "\n");
      AtPiece(s, p + |assignment|, difference, "\n");
      DifferenceSkipped(c, s, p + |assignment|, o, useDefaults, after);
      EntryEnds(c, s, p, o, Output(o, useDefaults), difference, env, after);
    }
  }

  /** The assignment, and the end of the entry behind what is skipped. */
  lemma EntryEnds(c: Config, s: string, pos: nat, o: EixRcOption, value: string, skipped: string, env: Env, after: Env)
    requires Simple(c.flags) && IsKey(o.key) && env.section == []
    requires At(s, pos, AssignmentText(o.key, value) + (skipped + "\n"))
    requires after == env.(vars := if Readable(o.key) then env.vars[o.key := value] else env.vars)
    requires var p := pos + |AssignmentText(o.key, value)|;
      skipped != [] ==> p + |skipped| <= |s| && ReadFrom(c, s, p, after) == ReadFrom(c, s, p + |skipped|, after)
    ensures var end := pos + |AssignmentText(o.key, value)| + |skipped| + 1;
      end <= |s| && ReadFrom(c, s, pos, env) == ReadFrom(c, s, end, after)
  {
    hide At, ReadFrom, AssignmentText, Readable;
    var assignment := AssignmentText(o.key, value);
    assert o.key + env.section == o.key;
    AtPiece(s, pos, assignment, skipped + "\n");
    AssignmentRead(c, s, pos, o.key, value, env);
    AtPiece(s, pos + |assignment|, skipped, "\n");
    NewlineSkipped(c, s, pos + |assignment| + |skipped|, after);
  }

  // ---- Dumps ----

  function DumpVars(os: seq<EixRcOption>, useDefaults: bool, vars: Vars): Vars
  {
    if os == [] then vars else DumpVars(os[1..], useDefaults, AfterEntry(os[0], useDefaults, vars))
  }

  ghost predicate AllKeys(os: seq<EixRcOption>) { forall i :: 0 <= i < |os| ==> IsKey(os[i].key) }

  lemma {:induction false} DumpRead(c: Config, s: string, pos: nat, os: seq<EixRcOption>, useDefaults: bool, env: Env)
    requires Simple(c.flags) && AllKeys(os) && env.section == [] && At(s, pos, DumpText(os, useDefaults))
    ensures pos <= |s| && ReadFrom(c, s, pos, env)
      == ReadFrom(c, s, pos + |DumpText(os, useDefaults)|, env.(vars := DumpVars(os, useDefaults, env.vars)))
    decreases |os|
  {
    hide At, ReadFrom, EntryText, AfterEntry, IsKey;
    AtBound(s, pos, DumpText(os, useDefaults));
    if os != [] {
      var first, rest := EntryText(os[0], useDefaults), DumpText(os[1..], useDefaults);
      AtPiece(s, pos, first, rest);
      EntryRead(c, s, pos, os[0], useDefaults, env);
      DumpRead(c, s, pos + |first|, os[1..], useDefaults, env.(vars := AfterEntry(os[0], useDefaults, env.vars)));
    }
  }

  /** Reading a dump assigns the values that were dumped, in their order. */
  lemma DumpIsRead(c: Config, os: seq<EixRcOption>, useDefaults: bool, env: Env)
    requires Simple(c.flags) && AllKeys(os) && env.section == []
    ensures ReadFrom(c, DumpText(os, useDefaults), 0, env) == Reading(true, env.(vars := DumpVars(os, useDefaults, env.vars)))
  {
    hide ReadFrom, DumpText, DumpVars, AllKeys;
    var s := DumpText(os, useDefaults);
    assert s[0..|s|] == s;
    DumpRead(c, s, 0, os, useDefaults, env);
    VarsReader.EndReads(c, s, env.(vars := DumpVars(os, useDefaults, env.vars)));
  }

  ghost predicate DistinctKeys(os: seq<EixRcOption>)
  {
    forall i, j :: 0 <= i < j < |os| ==> os[i].key != os[j].key
  }

  /** The variables after a dump was read. */
  lemma {:induction false} DumpVarsAre(os: seq<EixRcOption>, useDefaults: bool, vars: Vars)
    requires DistinctKeys(os)
    ensures var r := DumpVars(os, useDefaults, vars);
      && (forall i :: 0 <= i < |os| && Readable(os[i].key) ==> os[i].key in r && r[os[i].key] == Output(os[i], useDefaults))
      && (forall k :: (forall i :: 0 <= i < |os| && Readable(os[i].key) ==> os[i].key != k) ==>
           (k in r <==> k in vars) && (k in r ==> r[k] == vars[k]))
    decreases |os|
  {
    hide Readable, Output;
    if os != [] {
      var first := AfterEntry(os[0], useDefaults, vars);
      DumpVarsAre(os[1..], useDefaults, first);
      var r := DumpVars(os, useDefaults, vars);
      assert forall i :: 1 <= i < |os| ==> os[i] == os[1..][i - 1];
      forall k | forall i :: 0 <= i < |os| && Readable(os[i].key) ==> os[i].key != k
        ensures (k in r <==> k in vars) && (k in r ==> r[k] == vars[k])
      {
        assert forall i :: 0 <= i < |os[1..]| && Readable(os[1..][i].key) ==> os[1..][i].key == os[i + 1].key != k;
        assert Readable(os[0].key) ==> os[0].key != k;
        assert (k in first <==> k in vars) && (k in first ==> first[k] == vars[k]);
        assert r == DumpVars(os[1..], useDefaults, first);
      }
    }
  }

  /** Every option is back, with its value, exactly if every key is readable. */
  lemma DumpIsComplete(os: seq<EixRcOption>, useDefaults: bool)
    requires DistinctKeys(os)
    ensures (forall i :: 0 <= i < |os| ==>
        os[i].key in DumpVars(os, useDefaults, map[]) && DumpVars(os, useDefaults, map[])[os[i].key] == Output(os[i], useDefaults))
      <==> (forall i :: 0 <= i < |os| ==> Readable(os[i].key))
  {
    hide Readable, Output, DumpVars;
    DumpVarsAre(os, useDefaults, map[]);
    forall i | 0 <= i < |os| && !Readable(os[i].key) ensures os[i].key !in DumpVars(os, useDefaults, map[]) {
      assert forall j :: 0 <= j < |os| && Readable(os[j].key) ==> os[j].key != os[i].key;
    }
  }

  /** Which value of an option comes back: the default where defaults are dumped, unless it was
      added locally, and else the local one. */
  lemma DumpedValues(os: seq<EixRcOption>, useDefaults: bool, vars: Vars, i: nat)
    requires DistinctKeys(os) && i < |os| && os[i].key != []
    requires var c := os[i].key[0]; ('a' <= c <= 'z' && c != 's') || 'A' <= c <= 'Z' || c == '_'
    ensures var r := DumpVars(os, useDefaults, vars);
      && os[i].key in r
      && (useDefaults && os[i].kind != LOCAL ==> r[os[i].key] == os[i].value)
      && (!useDefaults || os[i].kind == LOCAL ==> r[os[i].key] == os[i].localValue)
  {
    hide DumpVars;
    DumpVarsAre(os, useDefaults, vars);
    assert Readable(os[i].key);
  }

  // ---- What a dump looks like ----

  /** Text of one line that needs no escapes. */
  predicate Simply(t: string)
  {
    forall i :: 0 <= i < |t| ==> t[i] != '\n' && t[i] != '"' && t[i] != '$' && t[i] != '\\' && t[i] != NUL
  }

  lemma {:induction false} SimplyWritten(t: string)
    requires Simply(t)
    ensures Escape(t, DOUBLEQUOTES) == t && Commented(t) == t && CStr(t) == t
  {
    if t != [] {
      SimplyWritten(t[1..]);
      assert [t[0]] + t[1..] == t;
    }
  }

  /** The lines of an entry whose texts need no escapes. */
  lemma EntryLooks(o: EixRcOption, useDefaults: bool)
    requires Simply(o.key) && Simply(o.value) && Simply(o.localValue) && Simply(o.description) && o.kind != LOCAL
    ensures var kind := if o.kind == STRING then "STRING" else if o.kind == PREFIXSTRING then "PREFIXSTRING"
                        else if o.kind == INTEGER then "INTEGER" else "BOOLEAN";
      var shown, other := if useDefaults then o.value else o.localValue, if useDefaults then o.localValue else o.value;
      var message := if useDefaults then "was locally changed to:" else "changed locally, default was:";
      EntryText(o, useDefaults) ==
        ("# " + kind + "\n") + (("# " + o.description + "\n") + ((o.key + "=\"" + shown + "\"\n")
        + ((if o.value == o.localValue then "" else ("# " + message + "\n") + ("# " + o.key + "=\"" + other + "\"\n")) + "\n")))
  {
    hide Escape, Commented, CStr;
    SimplyWritten(o.key);
    SimplyWritten(o.value);
    SimplyWritten(o.localValue);
    SimplyWritten(o.description);
    SimplyWritten(TypeString(o.kind));
    CommentLooks(TypeString(o.kind));
    CommentLooks(o.description);
    AssignmentLooks(o.key, Output(o, useDefaults));
  }

  /** The lines of an option that has no default. */
  lemma LocalEntryLooks(o: EixRcOption, useDefaults: bool)
    requires Simply(o.key) && Simply(o.localValue) && o.kind == LOCAL
    ensures EntryText(o, useDefaults) == ("# locally added:" + "\n") + ((o.key + "=\"" + o.localValue + "\"\n") + "\n")
  {
    hide Escape, Commented, CStr;
    SimplyWritten(o.key);
    SimplyWritten(o.localValue);
    SimplyWritten("locally added:");
    AssignmentLooks(o.key, o.localValue);
  }

  lemma CommentLooks(t: string)
    requires Simply(t)
    ensures CommentText(t) == "# " + t + "\n"
  {
    hide Commented;
    SimplyWritten(t);
  }

  lemma AssignmentLooks(key: string, value: string)
    requires Simply(value)
    ensures AssignmentText(key, value) == key + "=\"" + value + "\"\n"
  {
    hide Escape;
    SimplyWritten(value);
  }

  /** The text of all options, read by the machine with the flags for such files. */
  method DumpAndRead(defaults: seq<EixRcOption>, useDefaults: bool, source: (string, Env) -> Sourced, vars: Vars)
    returns (ok: bool, r: Vars)
    requires AllKeys(defaults) && defaults != []
    ensures ok && r == DumpVars(defaults, useDefaults, vars)
  {
    hide ReadFrom, DumpVars, DumpText, AllKeys;
    var text := DumpDefaults(defaults, useDefaults);
    DumpNotEmpty(defaults, useDefaults);
    var config := Config(EIXRC_FLAGS, source);
    var reader := new VarsReader.VarsReader(config, vars);
    ok := reader.ReadMem(text);
    DumpIsRead(config, defaults, useDefaults, Env(vars, [], false, false));
    r := reader.vars;
  }

  lemma DumpNotEmpty(os: seq<EixRcOption>, useDefaults: bool)
    requires os != []
    ensures DumpText(os, useDefaults) != []
  {
  }
}
