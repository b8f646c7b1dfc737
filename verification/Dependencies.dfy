/** Dependency fields: a field that repeats another one is folded into it by a quote, and
unfolded again whenever it is asked for. */
module Dependencies {
  import opened Strings
  import opened Packages
  import opened IndexRoundTrip
  import opened Wrappers

  const THE_SAME: char := '"'

  /** White space normalised: the words, with single spaces between them. */
  function Normal(s: string): string { Join(Words(s), " ") }

  // ---- trimall ----

  function FindFirstNotOf(s: string, at: string, pos: nat): (r: nat)
    requires pos <= |s|
    ensures pos <= r <= |s|
    ensures forall k :: pos <= k < r ==> s[k] in at
    ensures r < |s| ==> s[r] !in at
    decreases |s| - pos
  {
    if pos == |s| || s[pos] !in at then pos else FindFirstNotOf(s, at, pos + 1)
  }

  lemma {:induction false} WordsSkip(s: string, n: nat)
    requires n <= |s| && forall k :: 0 <= k < n ==> s[k] in SPACES
    ensures Words(s) == Words(s[n..])
  {
    if n > 0 {
      WordsStep([], s);
      WordsSkip(s[1..], n - 1);
      assert s[1..][n - 1..] == s[n..];
    } else {
      assert s[n..] == s;
    }
  }

  lemma NoSpaceBefore(s: string, n: nat)
    requires n <= |s| && forall k :: 0 <= k < n ==> s[k] !in SPACES
    ensures NoSpace(s[..n])
  {
    forall c | c in s[..n] ensures c !in SPACES {}
  }

  /** The first word of a text, and the text from its second word on. */
  lemma WordsSplit(s: string, n: nat, m: nat)
    requires n < m <= |s|
    requires (forall k :: 0 <= k < n ==> s[k] !in SPACES) && (forall k :: n <= k < m ==> s[k] in SPACES)
    ensures Words(s) == (if n == 0 then [] else [s[..n]]) + Words(s[m..])
  {
    NoSpaceBefore(s, n);
    var w, t := s[..n], s[n + 1..];
    assert s == w + [s[n]] + t;
    WordsConcat([], w, s[n], t);
    WordsOfWord([], w);
    assert [] + w == w;
    WordsSkip(t, m - (n + 1));
    assert t[m - (n + 1)..] == s[m..];
  }

  lemma OneWord(s: string)
    requires forall k :: 0 <= k < |s| ==> s[k] !in SPACES
    ensures Words(s) == if s == [] then [] else [s]
  {
    assert s[..|s|] == s;
    NoSpaceBefore(s, |s|);
    WordsOfWord([], s);
    assert [] + s == s;
  }

  lemma HasWords(s: string)
    requires s != [] && s[0] !in SPACES
    ensures Words(s) != []
  {
    WordsStep([], s);
    FieldGivesWord([s[0]], s[1..]);
    assert [] + [s[0]] == [s[0]];
  }

  lemma {:induction false} FieldGivesWord(field: string, s: string)
    requires field != []
    ensures WordsFrom(field, s) != []
    decreases |s|
  {
    WordsStep(field, s);
    if s != [] {
      if s[0] in SPACES { WordsStep(field, []); } else { FieldGivesWord(field + [s[0]], s[1..]); }
    }
  }

  lemma JoinCons(w: string, ws: seq<string>)
    ensures Join([w] + ws, " ") == if ws == [] then w else w + " " + Join(ws, " ")
  {
    var all := [w] + ws;
    if ws != [] {
      JoinFront(all, " ");
      assert all[1..] == ws;
      Regroup(w, " ", Join(ws, " "));
    } else {
      assert all == [w];
    }
  }

  /** The loop state of trimall: `done` is finished, `rest` is still to be normalised. */
  ghost predicate Trimming(str: string, done: string, rest: string)
  {
    Normal(str) == done + Normal(rest) && (done != [] ==> rest != [] && rest[0] !in SPACES)
  }

  lemma TrimStep(str: string, done: string, rest: string, n: nat, m: nat)
    requires Trimming(str, done, rest) && n < m <= |rest|
    requires (forall k :: 0 <= k < n ==> rest[k] !in SPACES) && (forall k :: n <= k < m ==> rest[k] in SPACES)
    requires m < |rest| ==> rest[m] !in SPACES
    ensures m == |rest| ==> Normal(str) == done + rest[..n]
    ensures m < |rest| && |done| + n > 0 ==> n > 0 && Trimming(str, done + rest[..n] + " ", rest[m..])
    ensures m < |rest| && |done| + n == 0 ==> Trimming(str, [], rest[m..])
  {
    WordsSplit(rest, n, m);
    var w, t := rest[..n], rest[m..];
    if m == |rest| {
      assert t == [] && Words(t) == [];
      if n > 0 { assert [w] + [] == [w]; } else { assert [] + w == w; }
    } else {
      HasWords(t);
      if n > 0 {
        JoinCons(w, Words(t));
        assert done + (w + " " + Normal(t)) == (done + w + " ") + Normal(t);
      } else {
        assert [] + Words(t) == Words(t);
      }
    }
  }

  lemma TrimEdit(done: string, rest: string, n: nat, m: nat)
    requires n < m <= |rest|
    ensures var r := done + rest; var pos := |done| + n;
      r[..pos] == done + rest[..n]
      && r[pos := ' '][..pos + 1] + r[pos := ' '][|done| + m..] == done + rest[..n] + " " + rest[m..]
      && r[|done| + m..] == rest[m..]
  {
    var r := done + rest;
    var pos := |done| + n;
    var s := r[pos := ' '];
    assert r[..pos] == done + rest[..n];
    assert s[..pos + 1] == done + rest[..n] + " ";
    assert s[|done| + m..] == rest[m..];
  }

  /** The loop state by position: everything before `pos` is finished. */
  ghost predicate TrimmedTo(str: string, r: string, pos: nat)
    requires pos <= |r|
  {
    Trimming(str, r[..pos], r[pos..])
  }

  /** What the two searches found, seen from `pos`. */
  lemma TrimScan(r: string, pos: nat, next: nat, end: nat)
    requires pos <= |r| && next == FindFirstOf(r, SPACES, pos)
    requires next < |r| ==> end == FindFirstNotOf(r, SPACES, next + 1)
    ensures r == r[..pos] + r[pos..]
    ensures forall k :: 0 <= k < next - pos ==> r[pos..][k] !in SPACES
    ensures next < |r| ==>
      pos <= next < end <= |r|
      && (forall k :: next - pos <= k < end - pos ==> r[pos..][k] in SPACES) && (end < |r| ==> r[pos..][end - pos] !in SPACES)
  {
    hide FindFirstOf, FindFirstNotOf;
    if next < |r| {
      forall k | next - pos <= k < end - pos ensures r[pos..][k] in SPACES { assert r[pos..][k] == r[pos + k]; }
    }
  }

  /** From one run of white space to the next. */
  lemma TrimMove(str: string, r: string, pos: nat, next: nat, end: nat)
    requires pos <= |r| && TrimmedTo(str, r, pos) && next == FindFirstOf(r, SPACES, pos)
    requires next < |r| ==> end == FindFirstNotOf(r, SPACES, next + 1)
    ensures next == |r| ==> r == Normal(str)
    ensures next < |r| && end == |r| ==> r[..next] == Normal(str)
    ensures next < |r| && end < |r| && next > 0 ==>
      var s := r[next := ' ']; var t := s[..next + 1] + s[end..];
      TrimmedTo(str, t, next + 1) && |t| - (next + 1) < |r| - pos
    ensures next < |r| && end < |r| && next == 0 ==> TrimmedTo(str, r[end..], 0) && |r[end..]| < |r| - pos
  {
    hide FindFirstOf, FindFirstNotOf, Normal, Trimming;
    TrimScan(r, pos, next, end);
    var done, rest, n := r[..pos], r[pos..], next - pos;
    if next == |r| {
      TrimmedWord(str, done, rest);
    } else {
      TrimStep(str, done, rest, n, end - pos);
      TrimEdit(done, rest, n, end - pos);
      TrimSlices(done + rest[..n] + " ", rest, end - pos);
    }
  }

  lemma TrimSlices(kept: string, rest: string, m: nat)
    requires m <= |rest|
    ensures (kept + rest[m..])[..|kept|] == kept && (kept + rest[m..])[|kept|..] == rest[m..]
    ensures rest[m..][..0] == [] && rest[m..][0..] == rest[m..]
  {
  }

  /** trimall: trims both ends and puts one space for every run of white space, in place. */
  method TrimAll(str: string) returns (r: string)
    ensures r == Normal(str)
  {
    hide Normal, TrimmedTo, FindFirstOf, FindFirstNotOf;
    r := str;
    var pos := 0;
    TrimmingStarts(str);
    while true
      invariant pos <= |r| && TrimmedTo(str, r, pos)
      decreases |r| - pos
    {
      var next := FindFirstOf(r, SPACES, pos);
      if next == |r| {
        TrimMove(str, r, pos, next, 0);
        return;
      }
      var end := FindFirstNotOf(r, SPACES, next + 1);
      TrimMove(str, r, pos, next, end);
      if end == |r| { return r[..next]; }
      pos := next;
      if pos != 0 {
        r := r[pos := ' '];
        pos := pos + 1;
        r := r[..pos] + r[end..];
      } else {
        r := r[end..];
      }
    }
  }

  lemma TrimmingStarts(str: string)
    ensures TrimmedTo(str, str, 0)
  {
    assert str[..0] == [] && str[0..] == str;
    assert [] + Normal(str) == Normal(str);
  }

  lemma TrimmedWord(str: string, done: string, rest: string)
    requires Trimming(str, done, rest) && forall k :: 0 <= k < |rest| ==> rest[k] !in SPACES
    ensures Normal(str) == done + rest
  {
    OneWord(rest);
  }

  // ---- Folding ----

  ghost predicate OccursAt(s: string, t: string, pos: nat)
  {
    pos + |t| <= |s| && s[pos..pos + |t|] == t
  }

  /** The first place where `t` occurs at or behind `pos`; None if there is none. */
  function Find(s: string, t: string, pos: nat): (r: Option<nat>)
    requires pos <= |s|
    ensures r.Some? ==> pos <= r.value && OccursAt(s, t, r.value)
    ensures forall k :: pos <= k < (if r.Some? then r.value else |s| + 1) ==> !OccursAt(s, t, k)
    decreases |s| - pos
  {
    if pos + |t| <= |s| && s[pos..pos + |t|] == t then Some(pos)
    else if pos == |s| then None else Find(s, t, pos + 1)
  }

  /** Whether `from` stands at `pos` as a whole run of words. */
  predicate Bounded(s: string, from: string, pos: nat)
    requires pos + |from| <= |s|
  {
    (pos + |from| < |s| ==> s[pos + |from|] == ' ') && (pos > 0 ==> s[pos - 1] == ' ')
  }

  /** Only the first occurrence is looked at. */
  function Folded(s: string, from: string): Option<string>
  {
    if from == [] then None
    else
      var at := Find(s, from, 0);
      if at.None? || !Bounded(s, from, at.value) then None
      else Some(s[..at.value] + [THE_SAME] + s[at.value + |from|..])
  }

  /** subst_the_same, in place. */
  method SubstTheSame(str: string, from: string) returns (r: string, ok: bool)
    ensures match Folded(str, from) case None => !ok && r == str case Some(f) => ok && r == f
  {
    r := str;
    if from == [] { return r, false; }
    var at := Find(r, from, 0);
    if at.None? { return r, false; }
    var pos := at.value;
    var next := pos + |from|;
    if next < |r| && r[next] != ' ' { return r, false; }
    if pos > 0 && r[pos - 1] != ' ' { return r, false; }
    ghost var before, after := r[..pos], r[next..];
    r := r[..pos] + r[next - 1..];
    assert r == before + [str[next - 1]] + after;
    r := r[pos := THE_SAME];
    return r, true;
  }

  /** The text a field stands for. */
  function Subst(s: string, text: string): string
  {
    match Find(s, [THE_SAME], 0)
    case None => s
    case Some(pos) => s[..pos] + text + s[pos + 1..]
  }

  class DependFields {
    /** The fields as they are stored. */
    var data: Depend

    constructor ()
      ensures data == NO_DEPEND
    {
      data := NO_DEPEND;
    }

    method Set(depend: string, rdepend: string, pdepend: string, bdepend: string, idepend: string, normSpace: bool)
      modifies this
      ensures data == Stored(if normSpace then NormalDepend(Depend(depend, rdepend, pdepend, bdepend, idepend))
                             else Depend(depend, rdepend, pdepend, bdepend, idepend))
      ensures var d := Depend(depend, rdepend, pdepend, bdepend, idepend);
        var n := if normSpace then NormalDepend(d) else d;
        GetDepend() == n.depend && GetRdepend() == n.rdepend <==> Undisturbed(n)
    {
      hide Folded, Normal, Undisturbed, Subst;
      ghost var given := Depend(depend, rdepend, pdepend, bdepend, idepend);
      ShownIsSetExactly(if normSpace then NormalDepend(given) else given);
      data := Depend(depend, rdepend, pdepend, bdepend, idepend);
      if normSpace {
        var a := TrimAll(data.depend);
        var b := TrimAll(data.rdepend);
        var c := TrimAll(data.pdepend);
        var d := TrimAll(data.bdepend);
        var e := TrimAll(data.idepend);
        data := Depend(a, b, c, d, e);
      }
      var f, ok := SubstTheSame(data.depend, data.rdepend);
      data := data.(depend := f);
      if !ok {
        var g, _ := SubstTheSame(data.rdepend, data.depend);
        data := data.(rdepend := g);
      }
    }

    function GetDepend(): string reads this { Shown(data).depend }

    function GetRdepend(): string reads this { Shown(data).rdepend }
  }

  function NormalDepend(d: Depend): Depend
  {
    Depend(Normal(d.depend), Normal(d.rdepend), Normal(d.pdepend), Normal(d.bdepend), Normal(d.idepend))
  }

  /** What is kept: one of the two fields may be folded into the other. */
  function Stored(d: Depend): Depend
  {
    match Folded(d.depend, d.rdepend)
    case Some(f) => d.(depend := f)
    case None =>
      match Folded(d.rdepend, d.depend)
      case Some(f) => d.(rdepend := f)
      case None => d
  }

  /** What is shown of what is kept. */
  function Shown(d: Depend): Depend
  {
    d.(depend := Subst(d.depend, d.rdepend), rdepend := Subst(d.rdepend, d.depend))
  }

  lemma {:induction false} FindQuote(a: string, b: string, pos: nat)
    requires THE_SAME !in a && pos <= |a|
    ensures Find(a + [THE_SAME] + b, [THE_SAME], pos) == Some(|a|)
    decreases |a| - pos
  {
    var s := a + [THE_SAME] + b;
    if pos < |a| {
      assert s[pos..pos + 1] == [a[pos]] && a[pos] in a;
      FindQuote(a, b, pos + 1);
    } else {
      assert s[pos..pos + 1] == [THE_SAME];
    }
  }

  lemma SubstQuote(a: string, b: string, text: string)
    requires THE_SAME !in a
    ensures Subst(a + [THE_SAME] + b, text) == a + text + b
  {
    var s := a + [THE_SAME] + b;
    FindQuote(a, b, 0);
    assert s[..|a|] == a && s[|a| + 1..] == b;
  }

  lemma NoQuote(s: string, text: string)
    requires THE_SAME !in s
    ensures Subst(s, text) == s
  {
    forall p: nat | p < |s| ensures !OccursAt(s, [THE_SAME], p) {
      assert s[p..p + 1][0] == s[p] && s[p] in s;
    }
    assert Find(s, [THE_SAME], 0).None?;
  }

  /** Where a fold takes place, the text is in three pieces. */
  lemma FoldPieces(s: string, from: string) returns (a: string, b: string)
    requires Folded(s, from).Some?
    ensures from != [] && s == a + from + b && Folded(s, from).value == a + [THE_SAME] + b
    ensures (a != [] ==> a[|a| - 1] == ' ') && (b != [] ==> b[0] == ' ')
  {
    var at := Find(s, from, 0).value;
    a, b := s[..at], s[at + |from|..];
    assert s == s[..at] + s[at..at + |from|] + s[at + |from|..];
  }

  lemma QuoteFreePiece(a: string, from: string, b: string)
    requires THE_SAME !in a + from + b
    ensures THE_SAME !in a && THE_SAME !in from && THE_SAME !in b
  {
    forall c | c in a || c in from || c in b ensures c in a + from + b {}
  }

  lemma FoldIsLossless(s: string, from: string)
    requires Folded(s, from).Some? && THE_SAME !in s
    ensures Subst(Folded(s, from).value, from) == s
  {
    var a, b := FoldPieces(s, from);
    QuoteFreePiece(a, from, b);
    SubstQuote(a, b, from);
  }

  /** What was set is shown again, whether or not one field was folded into the other. */
  lemma FoldingIsInvisible(d: Depend)
    requires THE_SAME !in d.depend && THE_SAME !in d.rdepend
    ensures Shown(Stored(d)) == d
  {
    hide Folded, Subst;
    if Folded(d.depend, d.rdepend).Some? {
      FoldIsLossless(d.depend, d.rdepend);
      NoQuote(d.rdepend, Stored(d).depend);
    } else if Folded(d.rdepend, d.depend).Some? {
      FoldIsLossless(d.rdepend, d.depend);
      NoQuote(d.depend, Stored(d).rdepend);
    } else {
      NoQuote(d.depend, d.rdepend);
      NoQuote(d.rdepend, d.depend);
    }
  }

  // ---- Quotes in the fields ----

  lemma {:induction false} QuotePieces(s: string) returns (p: nat)
    requires THE_SAME in s
    ensures p < |s| && s[p] == THE_SAME && THE_SAME !in s[..p]
  {
    if s[0] == THE_SAME {
      p := 0;
    } else {
      var q := QuotePieces(s[1..]);
      p := q + 1;
      assert s[..p] == [s[0]] + s[1..][..q];
    }
  }

  lemma SubstAt(s: string, text: string, p: nat)
    requires p < |s| && s[p] == THE_SAME && THE_SAME !in s[..p]
    ensures Subst(s, text) == s[..p] + text + s[p + 1..]
  {
    hide Subst;
    assert s == s[..p] + [THE_SAME] + s[p + 1..];
    SubstQuote(s[..p], s[p + 1..], text);
  }

  /** A field stands for itself exactly if it has no quote, or the other field is just a quote. */
  lemma SubstKeeps(s: string, text: string)
    ensures Subst(s, text) == s <==> THE_SAME !in s || text == [THE_SAME]
  {
    if THE_SAME in s {
      var p := QuotePieces(s);
      SubstAt(s, text, p);
      var r := s[..p] + text + s[p + 1..];
      assert s == s[..p] + [THE_SAME] + s[p + 1..];
      if r == s {
        assert |text| == 1 && r[p] == text[0];
      }
    } else {
      NoQuote(s, text);
    }
  }

  /** A folded field stands for what it was exactly if no quote stands in front of the fold: one
      there would make the other field occur earlier. */
  lemma FoldKeeps(s: string, from: string)
    requires Folded(s, from).Some?
    ensures Subst(Folded(s, from).value, from) == s <==> THE_SAME !in s[..Find(s, from, 0).value]
  {
    var at := Find(s, from, 0).value;
    var a, b := s[..at], s[at + |from|..];
    var f := a + [THE_SAME] + b;
    assert s == a + from + b;
    if THE_SAME in a {
      var p := QuotePieces(f);
      FirstQuote(a, [THE_SAME] + b, f, p);
      SubstAt(f, from, p);
      var shown := f[..p] + from + f[p + 1..];
      assert !OccursAt(s, from, p);
      assert shown[p..p + |from|] == from;
    } else {
      SubstQuote(a, b, from);
    }
  }

  lemma FirstQuote(a: string, rest: string, f: string, p: nat)
    requires THE_SAME in a && f == a + rest && p < |f| && f[p] == THE_SAME && THE_SAME !in f[..p]
    ensures p < |a|
  {
    var i :| 0 <= i < |a| && a[i] == THE_SAME;
    assert f[i] == THE_SAME && forall k :: 0 <= k < p ==> f[k] == f[..p][k] != THE_SAME;
  }

  /** No quote is in the way of what was set. */
  predicate Undisturbed(d: Depend)
  {
    if Folded(d.depend, d.rdepend).Some? then
      THE_SAME !in d.depend[..Find(d.depend, d.rdepend, 0).value] && (THE_SAME !in d.rdepend || d.depend == d.rdepend)
    else if Folded(d.rdepend, d.depend).Some? then
      THE_SAME !in d.rdepend[..Find(d.rdepend, d.depend, 0).value] && THE_SAME !in d.depend
    else THE_SAME !in d.depend && THE_SAME !in d.rdepend
  }

  /** The folded field is just a quote exactly if both fields were the same. */
  lemma FoldIsQuote(s: string, from: string)
    requires Folded(s, from).Some?
    ensures Folded(s, from).value == [THE_SAME] <==> s == from
  {
    var a, b := FoldPieces(s, from);
    if Folded(s, from).value == [THE_SAME] {
      assert |a| + 1 + |b| == 1;
    }
    if s == from { assert |a| + |b| == 0; }
  }

  lemma SameFolds(s: string)
    ensures s != [] ==> Folded(s, s).Some?
  {
    assert s[0..|s|] == s;
  }

  /** What is shown is what was set exactly if no quote is in the way. */
  lemma ShownIsSetExactly(d: Depend)
    ensures Shown(Stored(d)) == d <==> Undisturbed(d)
  {
    hide Folded, Subst, Find;
    var x, y := d.depend, d.rdepend;
    if Folded(x, y).Some? {
      FoldKeeps(x, y);
      SubstKeeps(y, Folded(x, y).value);
      FoldIsQuote(x, y);
    } else if Folded(y, x).Some? {
      FoldKeeps(y, x);
      SubstKeeps(x, Folded(y, x).value);
      FoldIsQuote(y, x);
      SameFolds(x);
      var a, b := FoldPieces(y, x);
    } else {
      SubstKeeps(x, y);
      SubstKeeps(y, x);
      SameFolds(x);
    }
  }

  /** A quote in a field is taken for the other field. */
  lemma QuoteIsSubstituted()
    ensures var d := Depend([THE_SAME], "a", [], [], []); !Undisturbed(d) && Shown(Stored(d)).depend == "a"
  {
    var q := [THE_SAME];
    assert q[0..1] == q && q[1..1] == [] && "a"[0..1] == "a" && "a"[1..1] == [];
    assert Find(q, "a", 0) == None && Find("a", q, 0) == None;
    assert q[..0] + "a" + q[1..] == "a";
  }

  /** A field that stands between blanks in the other one is kept there as a quote sign; the
      first field is tried first. */
  lemma FoldLooks(a: string, x: string, b: string)
    requires x != [] && x[0] != ' ' && x[0] !in a && (a == [] || a[|a| - 1] == ' ') && (b == [] || b[0] == ' ')
    ensures Stored(Depend(a + x + b, x, [], [], [])) == Depend(a + "\"" + b, x, [], [], [])
    ensures Folded(x, a + x + b) == None ==>
      Stored(Depend(x, a + x + b, [], [], [])) == Depend(x, a + "\"" + b, [], [], [])
  {
    var s := a + x + b;
    FoundAfter(a, x, b, 0);
    assert s[..|a|] == a && s[|a| + |x|..] == b;
    assert a != [] ==> s[|a| - 1] == a[|a| - 1];
    assert b != [] ==> s[|a| + |x|] == b[0];
  }

  lemma {:induction false} FoundAfter(a: string, x: string, b: string, pos: nat)
    requires x != [] && x[0] !in a && pos <= |a|
    ensures Find(a + x + b, x, pos) == Some(|a|)
    decreases |a| - pos
  {
    var s := a + x + b;
    if pos < |a| {
      assert s[pos] == a[pos];
      if pos + |x| <= |s| { assert s[pos..pos + |x|][0] == a[pos]; }
      FoundAfter(a, x, b, pos + 1);
    } else {
      assert s[pos..pos + |x|] == x;
    }
  }

  // ---- Through the index file ----

  lemma {:induction false} JoinConcat(xs: seq<string>, ys: seq<string>)
    requires xs != [] && ys != []
    ensures Join(xs + ys, " ") == Join(xs, " ") + " " + Join(ys, " ")
    decreases |ys|
  {
    var n := |ys| - 1;
    var all := xs + ys;
    assert all[..|all| - 1] == xs + ys[..n];
    if n == 0 {
      assert xs + ys[..n] == xs && Join(ys, " ") == ys[0];
    } else {
      JoinConcat(xs, ys[..n]);
      var x, y, w := Join(xs, " "), Join(ys[..n], " "), ys[n];
      assert (x + " " + y) + " " + w == x + " " + (y + " " + w);
    }
  }

  /** The words of a text between two texts that end and start with a space. */
  lemma WordsAround(a: string, x: string, b: string)
    requires (a != [] ==> a[|a| - 1] == ' ') && (b != [] ==> b[0] == ' ')
    ensures Words(a + x + b) == Words(a) + Words(x) + Words(b)
  {
    WordsBehind(x, b);
    if a == [] {
      assert a + x + b == x + b && Words(a) == [];
      assert [] + Words(x) == Words(x);
    } else {
      var a' := a[..|a| - 1];
      assert a + x + b == a' + [' '] + (x + b) && a == a' + [' '] + [];
      WordsConcat([], a', ' ', x + b);
      WordsConcat([], a', ' ', []);
      assert Words([]) == [];
      Regroup(Words(a'), Words(x), Words(b));
    }
  }

  lemma WordsBehind(x: string, b: string)
    requires b != [] ==> b[0] == ' '
    ensures Words(x + b) == Words(x) + Words(b)
  {
    if b == [] {
      assert x + b == x && Words(b) == [];
    } else {
      var b' := b[1..];
      assert x + b == x + [' '] + b' && b == [] + [' '] + b';
      WordsConcat([], x, ' ', b');
      WordsConcat([], [], ' ', b');
      assert Words([]) == [];
    }
  }

  lemma WordsHaveNo(s: string, c: char)
    requires c !in s
    ensures forall w :: w in Words(s) ==> c !in w
  {
    WordsAreWords([], s);
  }

  /** What comes back from the file for a field without NUL. */
  lemma CanonIsNormal(s: string)
    requires NUL !in s
    ensures CanonWords(s) == Normal(s)
  {
    var ws := Words(s);
    WordsHaveNo(s, NUL);
    forall i | 0 <= i < |ws| ensures NUL !in ws[i] { assert ws[i] in ws; }
    CStrsIdentity(ws);
    WordsAreWords([], s);
    JoinLazilyIsJoin(ws, " ");
  }

  lemma {:induction false} JoinHasNo(ws: seq<string>, c: char)
    requires c != ' ' && forall w :: w in ws ==> c !in w
    ensures c !in Join(ws, " ")
  {
    var n := |ws| - 1;
    if |ws| == 1 {
      assert ws[0] in ws;
    } else if |ws| > 1 {
      assert ws[n] in ws && forall w :: w in ws[..n] ==> w in ws;
      JoinHasNo(ws[..n], c);
    }
  }

  /** The quote among the words of a folded field. */
  lemma QuoteWord()
    ensures Words([THE_SAME]) == [[THE_SAME]]
  {
    OneWord([THE_SAME]);
  }

  function Sep(ws: seq<string>): string { if ws == [] then [] else " " }

  lemma JoinThree(xs: seq<string>, ws: seq<string>, ys: seq<string>)
    requires ws != []
    ensures Join(xs + ws + ys, " ") == (Join(xs, " ") + Sep(xs)) + Join(ws, " ") + (Sep(ys) + Join(ys, " "))
  {
    var x, w, y := Join(xs, " "), Join(ws, " "), Join(ys, " ");
    if ys != [] {
      JoinConcat(xs + ws, ys);
    } else {
      assert xs + ws + ys == xs + ws;
    }
    if xs != [] {
      JoinConcat(xs, ws);
    } else {
      assert xs + ws == ws;
    }
  }

  lemma JoinSep(xs: seq<string>, w: string, ys: seq<string>)
    ensures Join(xs + [w] + ys, " ") == (Join(xs, " ") + Sep(xs)) + w + (Sep(ys) + Join(ys, " "))
  {
    JoinThree(xs, [w], ys);
  }

  /** A folded field that went through the file shows the normalised text again exactly if
      the text folded away had a word, or nothing else was there. */
  lemma FoldThroughFile(s: string, from: string)
    requires Folded(s, from).Some? && THE_SAME !in s && NUL !in s
    ensures Subst(CanonWords(Folded(s, from).value), CanonWords(from)) == Normal(s)
            <==> Words(from) != [] || Words(s) == []
  {
    hide Folded, Subst, Words, Join, CanonWords;
    var a, b := FoldPieces(s, from);
    QuoteFreePiece(a, from, b);
    var f := a + [THE_SAME] + b;
    assert NUL !in f && NUL !in from by {
      forall c | c in f || c in from ensures c == THE_SAME || c in s {}
    }
    CanonIsNormal(f);
    CanonIsNormal(from);
    var xs, ws, ys := Words(a), Words(from), Words(b);
    WordsAround(a, [THE_SAME], b);
    WordsAround(a, from, b);
    QuoteWord();
    JoinSep(xs, [THE_SAME], ys);
    WordsHaveNo(a, THE_SAME);
    JoinHasNo(xs, THE_SAME);
    var left, right := Join(xs, " ") + Sep(xs), Sep(ys) + Join(ys, " ");
    SubstQuote(left, right, Join(ws, " "));
    if ws != [] {
      JoinThree(xs, ws, ys);
    } else {
      EmptyFold(xs, ys);
    }
  }

  /** Without a word between them, the separators of both sides are left. */
  lemma EmptyFold(xs: seq<string>, ys: seq<string>)
    ensures Join([], " ") == []
    ensures (Join(xs, " ") + Sep(xs)) + [] + (Sep(ys) + Join(ys, " ")) == Join(xs + [] + ys, " ") <==> xs + [] + ys == []
  {
    assert xs + [] + ys == xs + ys;
    if xs != [] && ys != [] {
      JoinConcat(xs, ys);
    } else if xs == [] {
      assert xs + ys == ys;
    } else {
      assert xs + ys == xs;
    }
  }

  lemma NormalIsQuoteFree(s: string)
    requires THE_SAME !in s
    ensures THE_SAME !in Normal(s)
  {
    WordsHaveNo(s, THE_SAME);
    JoinHasNo(Words(s), THE_SAME);
  }

  lemma NormalIsNulFree(s: string)
    requires NUL !in s
    ensures NUL !in Normal(s)
  {
    WordsHaveNo(s, NUL);
    JoinHasNo(Words(s), NUL);
  }

  lemma NormalOfNormal(s: string)
    ensures Words(Normal(s)) == Words(s) && Normal(Normal(s)) == Normal(s)
  {
    WordsAreWords([], s);
    WordsOfJoin(Words(s));
  }

  ghost predicate NulFree(d: Depend)
  {
    NUL !in d.depend && NUL !in d.rdepend && NUL !in d.pdepend && NUL !in d.bdepend && NUL !in d.idepend
  }

  /** If a text is folded away, it has a word, or the other field has none. */
  ghost predicate FoldsWords(d: Depend)
  {
    if Folded(d.depend, d.rdepend).Some? then Words(d.rdepend) != [] || Words(d.depend) == []
    else if Folded(d.rdepend, d.depend).Some? then Words(d.depend) != [] || Words(d.rdepend) == []
    else true
  }

  /** What was stored without normalising, written and read back shows the normalised
      fields exactly if no white space alone was folded away. */
  lemma FieldsThroughFile(d: Depend)
    requires THE_SAME !in d.depend && THE_SAME !in d.rdepend && NulFree(d)
    ensures Shown(CanonDepend(Stored(d))) == NormalDepend(d) <==> FoldsWords(d)
  {
    hide Folded, Subst, Words, Normal, CanonWords;
    CanonIsNormal(d.depend);
    CanonIsNormal(d.rdepend);
    CanonIsNormal(d.pdepend);
    CanonIsNormal(d.bdepend);
    CanonIsNormal(d.idepend);
    NormalIsQuoteFree(d.depend);
    NormalIsQuoteFree(d.rdepend);
    if Folded(d.depend, d.rdepend).Some? {
      FoldThroughFile(d.depend, d.rdepend);
      NoQuote(Normal(d.rdepend), CanonWords(Stored(d).depend));
    } else if Folded(d.rdepend, d.depend).Some? {
      FoldThroughFile(d.rdepend, d.depend);
      NoQuote(Normal(d.depend), CanonWords(Stored(d).rdepend));
    } else {
      NoQuote(Normal(d.depend), Normal(d.rdepend));
      NoQuote(Normal(d.rdepend), Normal(d.depend));
    }
  }

  lemma NormalFoldsWords(d: Depend)
    ensures FoldsWords(NormalDepend(d))
  {
    hide Words;
    var n := NormalDepend(d);
    NormalOfNormal(d.depend);
    NormalOfNormal(d.rdepend);
    assert Join([], " ") == [];
  }

  /** Set with normalising, written, read and shown, quote-free fields are normalised and
      otherwise unchanged. */
  lemma SetWriteReadGet(d: Depend)
    requires THE_SAME !in d.depend && THE_SAME !in d.rdepend && NulFree(d)
    ensures Shown(CanonDepend(Stored(NormalDepend(d)))) == NormalDepend(d)
  {
    hide Words, Normal, FoldsWords, Shown, Stored, CanonDepend;
    var n := NormalDepend(d);
    NormalIsQuoteFree(d.depend);
    NormalIsQuoteFree(d.rdepend);
    NormalIsNulFree(d.depend);
    NormalIsNulFree(d.rdepend);
    NormalIsNulFree(d.pdepend);
    NormalIsNulFree(d.bdepend);
    NormalIsNulFree(d.idepend);
    NormalOfNormal(d.depend);
    NormalOfNormal(d.rdepend);
    NormalOfNormal(d.pdepend);
    NormalOfNormal(d.bdepend);
    NormalOfNormal(d.idepend);
    FieldsThroughFile(n);
    NormalFoldsWords(d);
  }

  lemma JoinTwo(a: string, b: string)
    ensures Join([a, b], " ") == a + " " + b
  {
    assert [a, b][..1] == [a];
  }

  lemma BlankFolds()
    ensures Folded("  a", " ") == Some([THE_SAME, ' ', 'a'])
  {
    var s := "  a";
    assert s[0..1] == " " && s[..0] == [] && s[1..] == " a";
    assert [] + [THE_SAME] + " a" == [THE_SAME, ' ', 'a'];
  }

  /** Without normalising, folding white space away leaves a space in front. */
  lemma WhiteSpaceFold()
    ensures var d := Depend("  a", " ", [], [], []);
      !FoldsWords(d) && Shown(CanonDepend(Stored(d))).depend == " a" && NormalDepend(d).depend == "a"
  {
    hide Words, Folded, Subst, CanonWords;
    var s, kept := "  a", [THE_SAME, ' ', 'a'];
    assert Folded(s, " ") == Some(kept) by { BlankFolds(); }
    assert Words(s) == ["a"] by { WordsSkip(s, 2); OneWord("a"); assert s[2..] == "a"; }
    assert Words(" ") == [] by { WordsSkip(" ", 1); OneWord([]); assert " "[1..] == []; }
    assert Words(kept) == [[THE_SAME], "a"] by {
      WordsOfJoin([[THE_SAME], "a"]);
      assert Join([[THE_SAME], "a"], " ") == kept by { JoinTwo([THE_SAME], "a"); }
    }
    CanonIsNormal(kept);
    CanonIsNormal(" ");
    assert Normal(kept) == kept by { JoinTwo([THE_SAME], "a"); }
    assert Normal(" ") == [];
    SubstQuote([], " a", []);
    assert [] + [THE_SAME] + " a" == kept && [] + [] + " a" == " a";
  }
}
