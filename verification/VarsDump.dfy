/** The text of all options: written as assignments with comments, and read back. */
module VarsDump {
  import opened Strings

  datatype OptionType = STRING | PREFIXSTRING | INTEGER | BOOLEAN | LOCAL

  datatype EixRcOption = EixRcOption(kind: OptionType, key: string, value: string, localValue: string, description: string)

  const DOUBLEQUOTES := "\"$\\"

  // ---- Comments ----

  /** Every line behind the first gets the sign of a comment. */
  function Commented(s: string): string
  {
    if s == [] then [] else (if s[0] == '\n' then "\n# " else [s[0]]) + Commented(s[1..])
  }

  lemma {:induction false} CommentedConcat(a: string, b: string)
    ensures Commented(a + b) == Commented(a) + Commented(b)
  {
    if a == [] {
      assert a + b == b;
    } else {
      assert (a + b)[1..] == a[1..] + b;
      CommentedConcat(a[1..], b);
    }
  }

  lemma {:induction false} CommentedLine(s: string)
    requires '\n' !in s
    ensures Commented(s) == s
  {
    if s != [] { CommentedLine(s[1..]); }
  }

  /** A newline is followed by the sign of a comment, and nothing else changes. */
  lemma CommentedMeans(a: string, b: string)
    requires '\n' !in a
    ensures Commented(a) == a && Commented(a + "\n" + b) == a + "\n# " + Commented(b)
  {
    CommentedLine(a);
    CommentedConcat(a + "\n", b);
    CommentedConcat(a, "\n");
    assert "\n"[1..] == [];
  }

  /** The part behind `pos` is still to be done. */
  ghost predicate Commenting(s: string, ret: string, pos: nat)
  {
    pos <= |ret| && Commented(s) == ret[..pos] + Commented(ret[pos..])
  }

  /** A run without a newline. */
  lemma CommentRun(s: string, ret: string, pos: nat, next: nat)
    requires Commenting(s, ret, pos) && next == FindFirstOf(ret, "\n", pos)
    ensures Commenting(s, ret, next)
  {
    hide Commented, FindFirstOf;
    var run, rest := ret[pos..next], ret[next..];
    assert ret[pos..] == run + rest;
    CommentedConcat(run, rest);
    CommentedLine(run);
    Regroup(ret[..pos], run, Commented(rest));
    assert ret[..next] == ret[..pos] + run;
  }

  /** A newline, and what is inserted behind it. */
  lemma CommentStep(s: string, ret: string, next: nat)
    requires Commenting(s, ret, next)
    ensures next == |ret| ==> Commented(s) == ret
    ensures next < |ret| && ret[next] == '\n' ==> (
      var r := ret[..next + 1] + "# " + ret[next + 1..];
      Commenting(s, r, next + 2) && |r| - (next + 2) == |ret| - next && r[next + 2] == ' ')
  {
    hide Commented;
    if next == |ret| {
      CommentedLine("");
      assert ret[..next] + "" == ret;
    } else if ret[next] == '\n' {
      var tail := ret[next + 1..];
      var r := ret[..next + 1] + "# " + tail;
      CommentedNewline(ret[next..], tail);
      Regroup(ret[..next], "\n#", Commented(" " + tail));
      assert r[..next + 2] == ret[..next] + "\n#" && r[next + 2..] == " " + tail;
    }
  }

  lemma CommentedNewline(rest: string, tail: string)
    requires rest != [] && rest[0] == '\n' && tail == rest[1..]
    ensures Commented(rest) == "\n#" + Commented(" " + tail)
  {
    CommentedConcat(" ", tail);
    CommentedLine(" ");
  }

  /** as_comment: inserts in place behind every newline. */
  method AsComment(s: string) returns (ret: string)
    ensures ret == Commented(s)
  {
    hide Commented;
    ret := s;
    var pos: nat := 0;
    assert ret[..0] + Commented(ret[0..]) == Commented(s) by { assert ret[0..] == s; }
    while true
      invariant Commenting(s, ret, pos)
      decreases |ret| - pos, pos < |ret| && ret[pos] == '\n'
    {
      var next := FindFirstOf(ret, "\n", pos);
      CommentRun(s, ret, pos, next);
      CommentStep(s, ret, next);
      if next == |ret| { return; }
      ret := ret[..next + 1] + "# " + ret[next + 1..];
      pos := next + 2;
    }
  }

  // ---- Writing ----

  function TypeString(kind: OptionType): string
  {
    match kind
    case STRING => "STRING"
    case PREFIXSTRING => "PREFIXSTRING"
    case INTEGER => "INTEGER"
    case BOOLEAN => "BOOLEAN"
    case LOCAL => "LOCAL"
  }

  function Message(useDefaults: bool): string
  {
    if useDefaults then "was locally changed to:" else "changed locally, default was:"
  }

  /** A line that is only a comment; the text may have lines of its own. */
  function CommentText(t: string): string { "# " + (Commented(t) + "\n") }

  function AssignmentText(key: string, value: string): string
  {
    key + ("=\"" + (Escape(value, DOUBLEQUOTES) + "\"\n"))
  }

  /** The value that an option is dumped with. */
  function Output(o: EixRcOption, useDefaults: bool): string
  {
    if o.kind != LOCAL && useDefaults then o.value else o.localValue
  }

  /** The other value of an option, as a comment. */
  function DifferenceText(o: EixRcOption, useDefaults: bool): string
  {
    var comment := Escape(if useDefaults then o.localValue else o.value, DOUBLEQUOTES);
    if Escape(o.value, DOUBLEQUOTES) == Escape(o.localValue, DOUBLEQUOTES) then []
    else ("# " + Message(useDefaults) + "\n") + ("# " + CStr(o.key) + "=\"" + Commented(comment) + "\"\n")
  }

  function EntryText(o: EixRcOption, useDefaults: bool): string
  {
    var assignment := AssignmentText(CStr(o.key), Output(o, useDefaults));
    if o.kind == LOCAL then CommentText("locally added:") + (assignment + "\n")
    else
      CommentText(TypeString(o.kind)) +
      (CommentText(CStr(o.description)) + (assignment + (DifferenceText(o, useDefaults) + "\n")))
  }

  function DumpText(os: seq<EixRcOption>, useDefaults: bool): string
  {
    if os == [] then [] else EntryText(os[0], useDefaults) + DumpText(os[1..], useDefaults)
  }

  lemma {:induction false} DumpTextSnoc(os: seq<EixRcOption>, o: EixRcOption, useDefaults: bool)
    ensures DumpText(os + [o], useDefaults) == DumpText(os, useDefaults) + EntryText(o, useDefaults)
  {
    hide EntryText;
    if os == [] {
      assert os + [o] == [o];
    } else {
      assert (os + [o])[1..] == os[1..] + [o];
      DumpTextSnoc(os[1..], o, useDefaults);
      Regroup(EntryText(os[0], useDefaults), DumpText(os[1..], useDefaults), EntryText(o, useDefaults));
    }
  }

  method DumpEntry(o: EixRcOption, useDefaults: bool) returns (out: string)
    ensures out == EntryText(o, useDefaults)
  {
    hide Escape, Commented, CStr;
    var key := CStr(o.key);
    var value := EscapeString(o.localValue, DOUBLEQUOTES);
    var deflt := EscapeString(o.value, DOUBLEQUOTES);
    if o.kind == LOCAL {
      CommentedLine("locally added:");
      return "# " + ("locally added:" + "\n") + (key + ("=\"" + (value + "\"\n")) + "\n");
    }
    var output := if useDefaults then deflt else value;
    var comment := if useDefaults then value else deflt;
    var kind := AsComment(TypeString(o.kind));
    var description := AsComment(CStr(o.description));
    var difference := [];
    if deflt != value {
      var other := AsComment(comment);
      difference := ("# " + Message(useDefaults) + "\n") + ("# " + key + "=\"" + other + "\"\n");
    }
    out := "# " + (kind + "\n") + ("# " + (description + "\n") + (key + ("=\"" + (output + "\"\n")) + (difference + "\n")));
  }

  method DumpDefaults(defaults: seq<EixRcOption>, useDefaults: bool) returns (out: string)
    ensures out == DumpText(defaults, useDefaults)
  {
    hide EntryText;
    out := [];
    for i := 0 to |defaults|
      invariant out == DumpText(defaults[..i], useDefaults)
    {
      var entry := DumpEntry(defaults[i], useDefaults);
      out := out + entry;
      DumpTextSnoc(defaults[..i], defaults[i], useDefaults);
      assert defaults[..i + 1] == defaults[..i] + [defaults[i]];
    }
    assert defaults[..|defaults|] == defaults;
  }
}
