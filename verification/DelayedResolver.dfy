/** The object that resolves delayed references inside its map of values, in place. */
module DelayedResolver {
  import opened Strings
  import opened DelayedSyntax
  import opened DelayedTemplates
  import opened DelayedValues
  import opened Wrappers

  function Erase(s: string, pos: nat, length: nat): string
    requires pos + length <= |s|
  {
    s[..pos] + s[pos + length..]
  }

  lemma EraseMiddle(a: string, b: string, d: string)
    ensures Erase(a + b + d, |a|, |b|) == a + d
  {
    assert (a + b + d)[..|a|] == a && (a + b + d)[|a| + |b|..] == d;
  }

  // ---- Appending to every part ----

  lemma {:induction false} AppendRun(s: string, n: nat, a: string)
    requires n <= |s| && forall k :: 0 <= k < n ==> s[k] != '|'
    ensures AppendEach(s, a) == s[..n] + AppendEach(s[n..], a)
  {
    if n > 0 {
      AppendRun(s[1..], n - 1, a);
      assert s[1..][n - 1..] == s[n..];
      assert s[..n] == [s[0]] + s[1..][..n - 1];
    }
  }

  lemma AppendAtBar(s: string, n: nat, a: string)
    requires n < |s| && s[n] == '|' && forall k :: 0 <= k < n ==> s[k] != '|'
    ensures AppendEach(s, a) == (s[..n] + a + "|") + AppendEach(s[n + 1..], a)
  {
    AppendRun(s, n, a);
    assert s[n..][1..] == s[n + 1..];
    Regroup(s[..n], a + "|", AppendEach(s[n + 1..], a));
  }

  /** The text is inserted before every '|', in place, and appended. */
  method AppendEverywhere(str: string, a: string) returns (r: string)
    requires a != []
    ensures r == AppendEach(str, a)
  {
    r := str;
    var curr := 0;
    ghost var done, rest := [], str;
    while true
      invariant curr == |done| && r == done + rest && AppendEach(str, a) == done + AppendEach(rest, a)
      decreases |rest|
    {
      var next := FindFirstOf(r, "|", curr);
      ghost var n := next - curr;
      RestIndex(done, rest);
      forall k | 0 <= k < n ensures rest[k] != '|' { assert rest[k] == r[curr + k]; }
      if next == |r| {
        AppendRun(rest, n, a);
        assert rest[..n] == rest && rest[n..] == [];
        assert done + (rest + a) == r + a;
        return r + a;
      }
      assert rest[n] == r[next];
      AppendAtBar(rest, n, a);
      Regroup(done, rest[..n] + a + "|", AppendEach(rest[n + 1..], a));
      InsertBar(done, rest, n, a);
      r := r[..next] + a + r[next..];
      curr := next + |a| + 1;
      done, rest := done + (rest[..n] + a + "|"), rest[n + 1..];
    }
  }

  lemma InsertBar(done: string, rest: string, n: nat, a: string)
    requires n < |rest| && rest[n] == '|'
    ensures var r := done + rest; var next := |done| + n;
      r[..next] + a + r[next..] == done + (rest[..n] + a + "|") + rest[n + 1..]
  {
    var r := done + rest;
    assert r[..|done| + n] == done + rest[..n];
    assert r[|done| + n..] == "|" + rest[n + 1..];
  }

  // ---- Choosing a branch in place ----

  /** A choice that is known up to a kept text. */
  ghost predicate Leads(goal: Choice, kept: string, c: Choice)
  {
    if c.Bad? then goal == c else goal.Chosen? && Print(goal.ps) == kept + Print(c.ps)
  }

  function Kept(keep: bool, s: string): string { if keep then s else [] }

  lemma LeadsNext(goal: Choice, a: string, c: Choice, b: string, d: Choice)
    requires Leads(goal, a, c) && Leads(c, b, d)
    ensures Leads(goal, a + b, d)
  {
    if d.Chosen? { Regroup(a, b, Print(d.ps)); }
  }

  lemma PassLeads(keep: bool, p: Piece, c: Choice)
    ensures Leads(Pass(keep, p, c), Kept(keep, PrintPiece(p)), c)
  {
    hide PrintPiece;
    if keep && c.Chosen? {
      assert ([p] + c.ps)[1..] == c.ps;
    } else if c.Chosen? {
      assert [] + Print(c.ps) == Print(c.ps);
    }
  }

  lemma {:induction false} ChooseLead(ps: seq<Piece>, keep: bool, count: nat, gotElse: bool)
    ensures Leads(Choose(ps, keep, count, gotElse), Kept(keep, Lead(ps)), Choose(Tagged(ps), keep, count, gotElse))
  {
    hide PrintPiece;
    var c := Choose(Tagged(ps), keep, count, gotElse);
    if ps != [] && ps[0].Text? {
      ChooseLead(ps[1..], keep, count, gotElse);
      PassLeads(keep, ps[0], Choose(ps[1..], keep, count, gotElse));
      TextPrints(ps[0].s);
      LeadsNext(Choose(ps, keep, count, gotElse), Kept(keep, ps[0].s), Choose(ps[1..], keep, count, gotElse),
                Kept(keep, Lead(ps[1..])), c);
    } else {
      if c.Chosen? { assert [] + Print(c.ps) == Print(c.ps); }
    }
  }

  lemma TextPrints(s: string)
    ensures PrintPiece(Text(s)) == s
  {
  }

  /** What the scan does at a tag. */
  function NextCount(k: Kind, count: nat): nat
  {
    if k == Fi then (if count == 0 then 0 else count - 1)
    else if k == IfTrue || k == IfFalse then count + 1 else count
  }

  lemma ChooseAtTag(t: seq<Piece>, keep: bool, count: nat, gotElse: bool)
    requires t != [] && !t[0].Text? && Proper(t)
    ensures var k := KindOf(t[0]);
      var c := Choose(t, keep, count, gotElse);
      if k == Fi && count == 0 then c == Chosen(t[1..])
      else if k == Else && count == 0 then c == if gotElse then Bad(DoubleElse) else Choose(t[1..], !keep, 0, true)
      else c == Pass(keep, t[0], Choose(t[1..], keep, NextCount(k, count), gotElse))
  {
    hide ProperRef, Plain;
    assert ProperPiece(t[0]);
  }

  /** The scan state: `kept` stays, `dropped` will be erased, `rest` is still to be scanned. */
  ghost predicate Scanning(value: string, skip: nat, del: Option<nat>, pre: string, kept: string, dropped: string, rest: seq<Piece>)
  {
    && value == pre + kept + dropped + Print(rest)
    && skip == |pre + kept + dropped|
    && (if del.Some? then del.value == |pre + kept| else dropped == [])
  }

  lemma ScanFinds(value: string, skip: nat, del: Option<nat>, pre: string, kept: string, dropped: string, rest: seq<Piece>)
    requires Scanning(value, skip, del, pre, kept, dropped, rest) && Proper(rest)
    ensures skip <= |value|
    ensures var t := Tagged(rest);
      FindNext(value, skip) ==
        if t == [] then NotFound else Hit(KindOf(t[0]), skip + |Lead(rest)|, |PrintPiece(t[0])|, RefOf(t[0]))
  {
    hide Plain, PrintPiece, FindNext, Proper, Print;
    EmptyIsPlain();
    FindInPrint(pre + kept + dropped, [], rest, skip);
    assert pre + kept + dropped + [] == pre + kept + dropped;
  }

  /** The text before the next tag goes where the rest of the branch goes. */
  lemma ScanToTag(value: string, skip: nat, del: Option<nat>, pre: string, kept: string, dropped: string, rest: seq<Piece>)
    requires Scanning(value, skip, del, pre, kept, dropped, rest) && Proper(rest)
    ensures Scanning(value, skip + |Lead(rest)|, del, pre, kept + Kept(del.None?, Lead(rest)),
                     dropped + Kept(del.Some?, Lead(rest)), Tagged(rest))
  {
    hide Plain, PrintPiece, Proper, Print;
    PrintLead(rest);
    var l, t := Lead(rest), Print(Tagged(rest));
    if del.Some? {
      assert pre + kept + dropped + (l + t) == pre + (kept + []) + (dropped + l) + t;
    } else {
      assert pre + kept + [] + (l + t) == pre + (kept + l) + ([] + []) + t;
    }
  }

  lemma ScanPass(value: string, skip: nat, del: Option<nat>, pre: string, kept: string, dropped: string, t: seq<Piece>)
    requires Scanning(value, skip, del, pre, kept, dropped, t) && t != []
    ensures var u := PrintPiece(t[0]);
      Scanning(value, skip + |u|, del, pre, kept + Kept(del.None?, u), dropped + Kept(del.Some?, u), t[1..])
  {
    hide PrintPiece;
    var u, r := PrintPiece(t[0]), Print(t[1..]);
    if del.Some? {
      assert pre + kept + dropped + (u + r) == pre + (kept + []) + (dropped + u) + r;
    } else {
      assert pre + kept + [] + (u + r) == pre + (kept + u) + ([] + []) + r;
    }
  }

  /** At a mark of the condition itself, the mark and everything to be dropped is erased. */
  lemma ScanErase(value: string, skip: nat, del: Option<nat>, pre: string, kept: string, dropped: string, t: seq<Piece>)
    requires Scanning(value, skip, del, pre, kept, dropped, t) && t != []
    ensures var u := PrintPiece(t[0]);
      var start := if del.Some? then del.value else skip;
      skip + |u| <= |value| && start <= skip && start == |pre + kept|
      && Erase(value, start, skip + |u| - start) == pre + kept + Print(t[1..])
  {
    hide PrintPiece;
    var u, r := PrintPiece(t[0]), Print(t[1..]);
    assert value == (pre + kept) + (dropped + u) + r;
    EraseMiddle(pre + kept, dropped + u, r);
  }

  lemma ScanSwitched(pre: string, kept: string, rest: seq<Piece>)
    ensures Scanning(pre + kept + Print(rest), |pre + kept|, None, pre, kept, [], rest)
    ensures Scanning(pre + kept + Print(rest), |pre + kept|, Some(|pre + kept|), pre, kept, [], rest)
  {
    assert pre + kept + [] == pre + kept;
  }

  lemma ScanStarts(pre: string, tag: string, ps: seq<Piece>)
    ensures Scanning(pre + Print(ps), |pre|, None, pre, [], [], ps)
    ensures Scanning(pre + tag + Print(ps), |pre| + |tag|, Some(|pre|), pre, [], tag, ps)
    ensures |pre| + |tag| <= |pre + tag + Print(ps)| && Erase(pre + tag + Print(ps), |pre|, |tag|) == pre + Print(ps)
  {
    assert pre + [] == pre;
    EraseMiddle(pre, tag, Print(ps));
  }

  /** The text with one branch of the condition at `pos` left, or the error. */
  method ChooseBranch(text: string, pos: nat, length: nat, result: bool, ghost pre: string, ghost tag: string, ghost ps: seq<Piece>)
    returns (r: Option<string>, e: Error)
    requires text == pre + tag + Print(ps) && pos == |pre| && length == |tag| && Proper(ps)
    ensures match Choose(ps, result, 0, false)
            case Chosen(qs) => r == Some(pre + Print(qs))
            case Bad(err) => r == None && e == err
  {
    hide Choose, Print, PrintPiece, Scanning, Leads, Proper, Erase, FindNext;
    var value, skip: nat, del: Option<nat> := text, pos, None;
    ScanStarts(pre, tag, ps);
    ghost var goal := Choose(ps, result, 0, false);
    ghost var kept, dropped, rest := [], if result then [] else tag, ps;
    if result {
      value := Erase(value, skip, length);
    } else {
      del := Some(skip);
      skip := skip + length;
    }
    var gotElse, count: nat := false, 0;
    e := IfWithoutFi;
    LeadsSelf(goal);
    while true
      invariant Scanning(value, skip, del, pre, kept, dropped, rest) && Proper(rest)
      invariant Leads(goal, kept, Choose(rest, del.None?, count, gotElse))
      invariant del.None? == (result != gotElse)
      decreases |rest|
    {
      ScanFinds(value, skip, del, pre, kept, dropped, rest);
      ghost var t := Tagged(rest);
      var f := FindNextDelayed(value, skip);
      ChooseLead(rest, del.None?, count, gotElse);
      LeadsNext(goal, kept, Choose(rest, del.None?, count, gotElse), Kept(del.None?, Lead(rest)), Choose(t, del.None?, count, gotElse));
      if f.NotFound? {
        ChooseNone(del.None?, count, gotElse);
        LeadsBad(goal, kept + Kept(del.None?, Lead(rest)), IfWithoutFi);
        return None, IfWithoutFi;
      }
      ScanToTag(value, skip, del, pre, kept, dropped, rest);
      kept, dropped := kept + Kept(del.None?, Lead(rest)), dropped + Kept(del.Some?, Lead(rest));
      skip := f.pos;
      ChooseAtTag(t, del.None?, count, gotElse);
      TaggedTail(t);
      if f.kind == Fi && count == 0 {
        ScanErase(value, skip, del, pre, kept, dropped, t);
        LeadsChosen(goal, kept, t[1..]);
        Regroup(pre, kept, Print(t[1..]));
        var start := if del.Some? then del.value else skip;
        return Some(Erase(value, start, skip + f.length - start)), e;
      }
      if f.kind == Else && count == 0 {
        if gotElse {
          LeadsBad(goal, kept, DoubleElse);
          return None, DoubleElse;
        }
        gotElse := true;
        ScanErase(value, skip, del, pre, kept, dropped, t);
        ScanSwitched(pre, kept, t[1..]);
        if result {
          value := Erase(value, skip, f.length);
          del := Some(skip);
        } else {
          value := Erase(value, del.value, skip + f.length - del.value);
          skip := del.value;
          del := None;
        }
        dropped, rest := [], t[1..];
        continue;
      }
      ScanPass(value, skip, del, pre, kept, dropped, t);
      PassLeads(del.None?, t[0], Choose(t[1..], del.None?, NextCount(f.kind, count), gotElse));
      LeadsNext(goal, kept, Choose(t, del.None?, count, gotElse), Kept(del.None?, PrintPiece(t[0])),
                Choose(t[1..], del.None?, NextCount(f.kind, count), gotElse));
      kept, dropped := kept + Kept(del.None?, PrintPiece(t[0])), dropped + Kept(del.Some?, PrintPiece(t[0]));
      rest := t[1..];
      if f.kind == Fi {
        count := count - 1;
      } else if f.kind == IfTrue || f.kind == IfFalse {
        count := count + 1;
      }
      skip := skip + f.length;
    }
  }

  lemma LeadsSelf(goal: Choice)
    ensures Leads(goal, [], goal)
  {
    if goal.Chosen? { assert [] + Print(goal.ps) == Print(goal.ps); }
  }

  lemma ChooseNone(keep: bool, count: nat, gotElse: bool)
    ensures Choose([], keep, count, gotElse) == Bad(IfWithoutFi)
  {
  }

  lemma LeadsBad(goal: Choice, kept: string, e: Error)
    requires Leads(goal, kept, Bad(e))
    ensures goal == Bad(e)
  {
  }

  lemma LeadsChosen(goal: Choice, kept: string, qs: seq<Piece>)
    requires Leads(goal, kept, Chosen(qs))
    ensures goal.Chosen? && Print(goal.ps) == kept + Print(qs)
  {
  }

  lemma TaggedTail(t: seq<Piece>)
    requires Proper(t) && t != []
    ensures Proper(t[1..])
  {
  }

  // ---- The map of values ----

  /** The value a key has got is what the evaluator gives, and rests on no unresolved key. */
  ghost predicate Settled(c: Settings, m: Values, unresolved: set<string>, key: string, v: string)
  {
    var o := Eval(c, m, {}, key);
    o.Value? && o.text == v && o.trail !! unresolved
  }

  /** A value that is being resolved: the scanner meets a reference in it first. */
  ghost predicate Entered(text: string)
  {
    var f := FindNext(text, 0);
    f.Hit? && f.kind !in {Fi, Else, Quote}
  }

  /** The map in the middle of a run: `unresolved` keys have their raw values, except those
      being resolved; all others are settled. */
  ghost predicate Fits(c: Settings, m: Values, vs: map<string, string>, unresolved: set<string>, visited: set<string>)
  {
    && ProperValues(m) && visited <= unresolved <= m.Keys <= vs.Keys
    && (forall k :: k in unresolved && k !in visited ==> vs[k] == Print(m[k]))
    && (forall k :: k in m && k !in unresolved ==> Settled(c, m, unresolved, k, vs[k]))
    && (forall k :: k in visited ==> Entered(vs[k]))
    && (forall k :: k in vs && k !in m ==> vs[k] == [])
  }

  lemma ModifyTwice(c: Settings, key: string, v: string)
    ensures Modify(c, key, Modify(c, key, v)) == Modify(c, key, v)
  {
  }

  /** A key without open references is settled already. */
  lemma FitsSettled(c: Settings, m: Values, vs: map<string, string>, unresolved: set<string>, visited: set<string>, key: string)
    requires Fits(c, m, vs, unresolved, visited) && key !in unresolved
    ensures var v := Modify(c, key, if key in vs then vs[key] else []);
      Eval(c, m, visited, key).Value? && Eval(c, m, visited, key).text == v && Eval(c, m, visited, key).trail !! unresolved
      && Fits(c, m, vs[key := v], unresolved, visited)
  {
    hide Eval, Print, Entered;
    var v := Modify(c, key, if key in vs then vs[key] else []);
    if key in m {
      EvalModified(c, m, {}, key);
      EvalIsStable(c, m, {}, visited, key);
    } else {
      EvalUnknown(c, m, visited, key);
    }
  }

  lemma EvalUnknown(c: Settings, m: Values, visited: set<string>, key: string)
    requires key !in m && key !in visited
    ensures Eval(c, m, visited, key) == Value([], {})
  {
  }

  lemma {:induction false} EvalModified(c: Settings, m: Values, visited: set<string>, key: string)
    requires Eval(c, m, visited, key).Value?
    ensures Modify(c, key, Eval(c, m, visited, key).text) == Eval(c, m, visited, key).text
  {
    if key in m { ExpandModified(c, m, visited + {key}, key, [], m[key]); }
  }

  lemma {:induction false} ExpandModified(c: Settings, m: Values, visited: set<string>, key: string, done: string, ps: seq<Piece>)
    requires Expand(c, m, visited, key, done, ps).Value?
    ensures var v := Expand(c, m, visited, key, done, ps).text; Modify(c, key, v) == v
    decreases |ps|
  {
    if ps != [] {
      hide Transform, Choose, Holds, Eval;
      match ps[0]
      case Text(s) => ExpandModified(c, m, visited, key, done + s, ps[1..]);
      case Use(r) => ExpandModified(c, m, visited, key, done + Transform(r, Eval(c, m, visited, NameOf(c, r)).text), ps[1..]);
      case When(k, r) =>
        var v := Eval(c, m, visited, NameOf(c, r)).text;
        ExpandModified(c, m, visited, key, done, Choose(ps[1..], Holds(k, Transform(r, v)), 0, false).ps);
      case _ =>
    }
  }

  /** While a key is being resolved, its own text does not matter. */
  lemma FitsEntered(c: Settings, m: Values, vs: map<string, string>, unresolved: set<string>, visited: set<string>, key: string)
    requires key in unresolved && key !in visited && key in m && key in vs
    requires Fits(c, m, vs[key := Print(m[key])], unresolved, visited) && Entered(vs[key])
    ensures Fits(c, m, vs, unresolved, visited + {key})
  {
    hide Eval, Print, Entered, Modify;
  }

  lemma FitsLeft(c: Settings, m: Values, vs: map<string, string>, unresolved: set<string>, visited: set<string>, key: string)
    requires Fits(c, m, vs, unresolved, visited + {key}) && key !in visited && key in m
    ensures Fits(c, m, vs[key := Print(m[key])], unresolved, visited)
  {
    hide Eval, Print, Entered, Modify;
  }

  /** The key gets its value. */
  lemma FitsResolved(c: Settings, m: Values, vs: map<string, string>, unresolved: set<string>, visited: set<string>, key: string, v: string)
    requires key in unresolved && key !in visited && key in m && Fits(c, m, vs[key := Print(m[key])], unresolved, visited)
    requires Eval(c, m, visited, key).Value? && Eval(c, m, visited, key).text == v
    requires Eval(c, m, visited, key).trail - {key} !! unresolved && Modify(c, key, v) == v
    ensures Fits(c, m, vs[key := v], unresolved - {key}, visited)
  {
    hide Eval, Print, Entered, Modify;
    EvalIsStable(c, m, visited, {}, key);
  }

  /** The loop state for one key: the finished text, the pieces to come, and the keys that
      went into the text. */
  ghost predicate InProgress(c: Settings, m: Values, vs: map<string, string>, unresolved: set<string>, visited: set<string>,
                             key: string, done: string, ps: seq<Piece>, trail: set<string>)
  {
    && key in unresolved && key !in visited && key in m && key in vs
    && vs[key] == done + Print(ps) && Plain(done) && Proper(ps) && trail !! unresolved
    && Fits(c, m, vs[key := Print(m[key])], unresolved, visited)
    && Eval(c, m, visited, key) == AddTrail(trail, Expand(c, m, visited + {key}, key, done, ps))
  }

  lemma ProgressStarts(c: Settings, m: Values, vs: map<string, string>, unresolved: set<string>, visited: set<string>, key: string)
    requires Fits(c, m, vs, unresolved, visited) && key in unresolved && key !in visited
    ensures InProgress(c, m, vs, unresolved, visited, key, [], m[key], {})
  {
    hide Plain, Print, Expand;
    EmptyIsPlain();
    assert vs[key := Print(m[key])] == vs;
    assert [] + Print(m[key]) == Print(m[key]);
    var o := Expand(c, m, visited + {key}, key, [], m[key]);
    assert AddTrail({}, o) == o by { if o.Value? { assert {} + o.trail == o.trail; } }
  }

  /** The scanner finds the next tag; the text before it is finished. */
  lemma ProgressFinds(c: Settings, m: Values, vs: map<string, string>, unresolved: set<string>, visited: set<string>,
                      key: string, done: string, ps: seq<Piece>, trail: set<string>, pos: nat)
    requires InProgress(c, m, vs, unresolved, visited, key, done, ps, trail) && pos <= |done|
    ensures key in vs && pos <= |vs[key]|
    ensures InProgress(c, m, vs, unresolved, visited, key, done + Lead(ps), Tagged(ps), trail)
    ensures var t := Tagged(ps);
      FindNext(vs[key], pos) ==
        if t == [] then NotFound else Hit(KindOf(t[0]), |done| + |Lead(ps)|, |PrintPiece(t[0])|, RefOf(t[0]))
  {
    hide Plain, Print, Expand, Fits, FindNext, PrintPiece, Proper, Eval;
    FindInPrint([], done, ps, pos);
    assert [] + done + Print(ps) == done + Print(ps);
    PrintLead(ps);
    PlainSum(done, Lead(ps));
    Regroup(done, Lead(ps), Print(Tagged(ps)));
    ExpandLead(c, m, visited + {key}, key, done, ps);
  }

  lemma ProgressEnds(c: Settings, m: Values, vs: map<string, string>, unresolved: set<string>, visited: set<string>,
                     key: string, done: string, trail: set<string>)
    requires InProgress(c, m, vs, unresolved, visited, key, done, [], trail)
    ensures vs[key] == done && trail + {key} !! unresolved - {key}
    ensures var v := Modify(c, key, done);
      Eval(c, m, visited, key) == Value(v, trail + {key}) && Fits(c, m, vs[key := v], unresolved - {key}, visited)
  {
    hide Plain, Fits, Eval;
    assert done + [] == done;
    ModifyTwice(c, key, done);
    FitsResolved(c, m, vs, unresolved, visited, key, Modify(c, key, done));
  }

  lemma ProgressFails(c: Settings, m: Values, vs: map<string, string>, unresolved: set<string>, visited: set<string>,
                      key: string, done: string, t: seq<Piece>, trail: set<string>)
    requires InProgress(c, m, vs, unresolved, visited, key, done, t, trail) && t != []
    ensures t[0] == EndWhen ==> Eval(c, m, visited, key) == Failed(FiWithoutIf, key)
    ensures t[0] == OrElse ==> Eval(c, m, visited, key) == Failed(ElseWithoutIf, key)
  {
    hide Plain, Fits, Eval, Print;
  }

  /** Before a reference is followed, the key counts as being resolved. */
  lemma ProgressEnters(c: Settings, m: Values, vs: map<string, string>, unresolved: set<string>, visited: set<string>,
                       key: string, done: string, t: seq<Piece>, trail: set<string>)
    requires InProgress(c, m, vs, unresolved, visited, key, done, t, trail) && t != [] && (t[0].Use? || t[0].When?)
    ensures Fits(c, m, vs, unresolved, visited + {key})
    ensures var o := Eval(c, m, visited + {key}, NameOf(c, RefOf(t[0])));
      o.Failed? ==> Eval(c, m, visited, key) == o
  {
    hide Plain, Fits, Eval, Print, FindNext, PrintPiece, Proper;
    TaggedSelf(t);
    ProgressFinds(c, m, vs, unresolved, visited, key, done, t, trail, 0);
    ProperHead(c, m, vs, unresolved, visited, key, done, t, trail);
    FitsEntered(c, m, vs, unresolved, visited, key);
  }

  lemma TaggedSelf(t: seq<Piece>)
    requires t != [] && !t[0].Text?
    ensures Tagged(t) == t && Lead(t) == []
  {
  }

  lemma ProperHead(c: Settings, m: Values, vs: map<string, string>, unresolved: set<string>, visited: set<string>,
                   key: string, done: string, t: seq<Piece>, trail: set<string>)
    requires InProgress(c, m, vs, unresolved, visited, key, done, t, trail) && t != [] && (t[0].Use? || t[0].When?)
    ensures KindOf(t[0]) !in {Fi, Else, Quote} && ProperRef(RefOf(t[0])) && Proper(t[1..])
  {
    hide Plain, Fits, Eval, Print;
    assert ProperPiece(t[0]);
  }

  lemma TrailsAdd(t: set<string>, u: set<string>, o: Outcome)
    ensures AddTrail(t, AddTrail(u, o)) == AddTrail(t + u, o)
  {
    if o.Value? { assert t + (u + o.trail) == (t + u) + o.trail; }
  }

  lemma FitsAgain(c: Settings, m: Values, vs: map<string, string>, unresolved: set<string>, visited: set<string>, key: string, text: string)
    requires Fits(c, m, vs, unresolved, visited + {key}) && key !in visited && key in m
    ensures key in unresolved && key in vs && ProperValues(m)
    ensures Fits(c, m, vs[key := text][key := Print(m[key])], unresolved, visited)
  {
    hide Eval, Print, Entered, Modify, Settled, ProperValues;
    FitsLeft(c, m, vs, unresolved, visited, key);
    assert vs[key := text][key := Print(m[key])] == vs[key := Print(m[key])];
  }

  lemma ProgressUses(c: Settings, m: Values, vs: map<string, string>, unresolved: set<string>, visited: set<string>,
                     key: string, done: string, t: seq<Piece>, trail: set<string>,
                     vs': map<string, string>, unresolved': set<string>, v: string, trail': set<string>)
    requires InProgress(c, m, vs, unresolved, visited, key, done, t, trail) && t != [] && t[0].Use?
    requires Fits(c, m, vs', unresolved', visited + {key}) && unresolved' <= unresolved
    requires Eval(c, m, visited + {key}, NameOf(c, t[0].ref)) == Value(v, trail') && trail' !! unresolved'
    ensures var s := Transform(t[0].ref, v);
      InProgress(c, m, vs'[key := done + s + Print(t[1..])], unresolved', visited, key, done + s, t[1..], trail + trail')
  {
    hide Plain, Print, Transform, Proper, Fits, Eval, ProperValues;
    var s := Transform(t[0].ref, v);
    var text := done + s + Print(t[1..]);
    FitsAgain(c, m, vs', unresolved', visited, key, text);
    ProperHead(c, m, vs, unresolved, visited, key, done, t, trail);
    ValueIsPlain(c, m, visited + {key}, NameOf(c, t[0].ref));
    TransformedIsPlain(t[0].ref, v);
    PlainSum(done, s);
    TrailsAdd(trail, trail', Expand(c, m, visited + {key}, key, done + s, t[1..]));
  }

  lemma ProgressTests(c: Settings, m: Values, vs: map<string, string>, unresolved: set<string>, visited: set<string>,
                      key: string, done: string, t: seq<Piece>, trail: set<string>,
                      vs': map<string, string>, unresolved': set<string>, v: string, trail': set<string>)
    requires InProgress(c, m, vs, unresolved, visited, key, done, t, trail) && t != [] && t[0].When?
    requires Fits(c, m, vs', unresolved', visited + {key}) && unresolved' <= unresolved
    requires Eval(c, m, visited + {key}, NameOf(c, t[0].ref)) == Value(v, trail') && trail' !! unresolved'
    ensures match Choose(t[1..], Holds(t[0].kind, Transform(t[0].ref, v)), 0, false)
            case Bad(e) => Eval(c, m, visited, key) == Failed(e, key)
            case Chosen(qs) =>
              InProgress(c, m, vs'[key := done + Print(qs)], unresolved', visited, key, done, qs, trail + trail')
  {
    hide Plain, Print, Transform, Proper, Choose, Holds, Fits, Eval, ProperValues;
    var b := Holds(t[0].kind, Transform(t[0].ref, v));
    ProperHead(c, m, vs, unresolved, visited, key, done, t, trail);
    var choice := Choose(t[1..], b, 0, false);
    if choice.Chosen? {
      ChosenIsProper(t[1..], b, 0, false);
      FitsAgain(c, m, vs', unresolved', visited, key, done + Print(choice.ps));
      TrailsAdd(trail, trail', Expand(c, m, visited + {key}, key, done, choice.ps));
    }
  }

  lemma FitsKeys(c: Settings, m: Values, vs: map<string, string>, unresolved: set<string>, visited: set<string>)
    requires Fits(c, m, vs, unresolved, visited)
    ensures visited <= unresolved <= m.Keys <= vs.Keys && ProperValues(m)
  {
  }

  /** A key that is already being resolved is entered again: its text is met in the middle. */
  lemma EnteredAgain(c: Settings, m: Values, vs: map<string, string>, unresolved: set<string>, visited: set<string>, key: string)
    requires Fits(c, m, vs, unresolved, visited) && key in visited
    ensures key in vs && Entered(vs[key]) && Eval(c, m, visited, key) == Failed(SelfReference, key)
  {
  }

  lemma HeadKind(t: seq<Piece>)
    requires Proper(t) && t != [] && !t[0].Text?
    ensures KindOf(t[0]) != Quote && (KindOf(t[0]) == Fi <==> t[0] == EndWhen) && (KindOf(t[0]) == Else <==> t[0] == OrElse)
    ensures KindOf(t[0]) == Variable <==> t[0].Use?
    ensures KindOf(t[0]) !in {Fi, Else, Variable} <==> t[0].When?
  {
    hide ProperRef, Plain;
    assert ProperPiece(t[0]);
  }

  lemma ProgressKeys(c: Settings, m: Values, vs: map<string, string>, unresolved: set<string>, visited: set<string>,
                     key: string, done: string, t: seq<Piece>, trail: set<string>)
    requires InProgress(c, m, vs, unresolved, visited, key, done, t, trail)
    ensures key in vs && vs[key] == done + Print(t) && key in m && Proper(t) && visited <= unresolved && key in unresolved && key !in visited
    ensures trail !! unresolved && unresolved <= m.Keys
  {
    hide Eval, Print, Plain;
  }

  lemma FitsValue(c: Settings, m: Values, vs: map<string, string>, unresolved: set<string>, key: string)
    requires Fits(c, m, vs, unresolved, {}) && key in vs && key !in unresolved
    ensures Eval(c, m, {}, key).Value? && vs[key] == Eval(c, m, {}, key).text
  {
    hide Eval, Print, Entered;
    if key !in m { EvalUnknown(c, m, {}, key); }
  }

  // ---- Which keys a value needs ----

  const PREFIXES: seq<string> := ["EIX_", "DIFF_", "UPDATE_", "DROP_"]

  /** The keys a reference may mean, whichever program runs. */
  function NamesOf(r: Ref): seq<string>
  {
    if r.star then [PREFIXES[0] + r.name, PREFIXES[1] + r.name, PREFIXES[2] + r.name, PREFIXES[3] + r.name] else [r.name]
  }

  /** The references that bring in another key; the emptiness tests do not. */
  function Joins(s: string, pos: nat): seq<Ref>
    requires pos <= |s|
    decreases |s| - pos
  {
    match FindNext(s, pos)
    case NotFound => []
    case Hit(k, p, l, r) => (if k in {Variable, IfTrue, IfFalse} then [r] else []) + Joins(s, p + l)
  }

  predicate HasTag(s: string) { FindNext(s, 0).Hit? }

  /** Everything the value of a key refers to is there. */
  ghost predicate Closed(vs: map<string, string>, s: string)
  {
    forall r, n :: r in Joins(s, 0) && n in NamesOf(r) ==> n in vs
  }

  datatype Sources = Sources(file: map<string, string>, env: map<string, string>)

  /** A file, which the environment has already overridden, or else the environment. */
  function Lookup(c: Settings, src: Sources, key: string): string
  {
    Modify(c, key, if key in src.file then src.file[key] else if key in src.env then src.env[key] else [])
  }

  /** A finite set of keys that nothing leads out of. */
  ghost predicate Universe(c: Settings, src: Sources, u: set<string>)
  {
    forall k, r, n :: k in u && r in Joins(Lookup(c, src, k), 0) && n in NamesOf(r) ==> n in u
  }

  ghost function NamesIn(vs: map<string, string>): set<string>
  {
    set k, r, n | k in vs && r in Joins(vs[k], 0) && n in NamesOf(r) :: n
  }

  /** For finite maps there always is one, around any key. */
  lemma UniverseExists(c: Settings, src: Sources, key: string) returns (u: set<string>)
    ensures key in u && Universe(c, src, u)
  {
    u := {key} + NamesIn(src.file) + NamesIn(src.env);
    forall k, r, n | k in u && r in Joins(Lookup(c, src, k), 0) && n in NamesOf(r) ensures n in u {
      NoJoins(c, src, k);
    }
  }

  lemma NoJoins(c: Settings, src: Sources, k: string)
    ensures Joins([], 0) == [] && Joins("/", 0) == []
    ensures Joins(Lookup(c, src, k), 0) != [] ==>
      (k in src.file && Lookup(c, src, k) == src.file[k]) || (k !in src.file && k in src.env && Lookup(c, src, k) == src.env[k])
  {
    assert FindOpen("/", 0) == FindOpen("/", 1) == 1;
  }

  /** All values come from their sources. */
  ghost predicate Sourced(c: Settings, src: Sources, vs: map<string, string>)
  {
    forall k :: k in vs ==> vs[k] == Lookup(c, src, k)
  }

  /** What joining brings in: the keys from `a` to `b` and `key` itself are complete, and
      those with a tag are marked. */
  ghost predicate Joined(a: map<string, string>, b: map<string, string>, key: string, d: set<string>, e: set<string>)
  {
    && a.Keys <= b.Keys && key in b
    && (forall k :: k in b && (k !in a || k == key) ==> Closed(b, b[k]))
    && (forall k :: k in e <==> k in d || (k in b && (k !in a || k == key) && HasTag(b[k])))
  }

  /** In the middle of scanning the value of `key`: `seen` says that it has a tag. */
  ghost predicate PartJoined(a: map<string, string>, b: map<string, string>, d: set<string>, e: set<string>, key: string, seen: bool)
  {
    && a.Keys <= b.Keys
    && (forall k :: k in b && k !in a ==> Closed(b, b[k]))
    && (forall k :: k in e <==> k in d || (k in b && k !in a && HasTag(b[k])) || (k == key && seen))
  }

  lemma PartJoins(a: map<string, string>, b: map<string, string>, c: map<string, string>,
                  d: set<string>, e: set<string>, f: set<string>, key: string, seen: bool, name: string)
    requires PartJoined(a, b, d, e, key, seen) && b.Keys <= c.Keys && (forall k :: k in b ==> b[k] == c[k])
    requires if name in b then c == b && f == e else Joined(b, c, name, e, f)
    ensures PartJoined(a, c, d, f, key, seen)
  {
    hide HasTag, Joins, NamesOf;
    forall k | k in c && k !in a ensures Closed(c, c[k]) {
      if k in b { assert Closed(b, b[k]); }
    }
  }

  /** Scanned references are joined. */
  ghost predicate JoinedUpTo(vs: map<string, string>, s: string, pos: nat)
    requires pos <= |s|
  {
    && (forall r, n :: r in Joins(s, 0) && n in NamesOf(r) ==> n in vs || r in Joins(s, pos))
    && (forall r :: r in Joins(s, pos) ==> r in Joins(s, 0))
  }

  predicate IsJoin(k: Kind) { k in {Variable, IfTrue, IfFalse} }

  lemma JoinedStep(vs: map<string, string>, vs': map<string, string>, s: string, pos: nat)
    requires pos <= |s| && JoinedUpTo(vs, s, pos) && vs.Keys <= vs'.Keys
    ensures var f := FindNext(s, pos);
      if f.NotFound? then Closed(vs, s)
      else
        && (IsJoin(f.kind) ==> f.ref in Joins(s, 0))
        && ((IsJoin(f.kind) ==> forall n :: n in NamesOf(f.ref) ==> n in vs') ==> JoinedUpTo(vs', s, f.pos + f.length))
  {
    hide FindNext, NamesOf, Joins;
    JoinsStep(s, pos);
    var f := FindNext(s, pos);
    if f.NotFound? {
      assert forall r :: r in Joins(s, 0) ==> forall n :: n in NamesOf(r) ==> n in vs;
    } else {
      var next := Joins(s, f.pos + f.length);
      forall r | r in Joins(s, pos) ensures r in next || (IsJoin(f.kind) && r == f.ref) {}
      forall r | r in next ensures r in Joins(s, 0) { assert r in Joins(s, pos); }
    }
  }

  lemma JoinsStep(s: string, pos: nat)
    requires pos <= |s|
    ensures match FindNext(s, pos)
            case NotFound => Joins(s, pos) == []
            case Hit(k, p, l, r) => Joins(s, pos) == (if IsJoin(k) then [r] else []) + Joins(s, p + l)
  {
    hide FindNext;
  }

  lemma SourcedSame(c: Settings, src: Sources, a: map<string, string>, b: map<string, string>)
    requires Sourced(c, src, a) && Sourced(c, src, b) && a.Keys <= b.Keys
    ensures forall k :: k in a ==> a[k] == b[k]
  {
  }

  lemma JoinedFromStart(vs: map<string, string>, s: string)
    ensures JoinedUpTo(vs, s, 0)
  {
  }

  lemma NamesInUniverse(c: Settings, src: Sources, u: set<string>, key: string, r: Ref)
    requires Universe(c, src, u) && key in u && r in Joins(Lookup(c, src, key), 0)
    ensures forall n :: n in NamesOf(r) ==> n in u
  {
  }

  /** Exactly the values with a tag are marked. */
  ghost predicate Marked(vs: map<string, string>, d: set<string>)
  {
    forall k :: k in d <==> k in vs && HasTag(vs[k])
  }

  /** A joined map is ready to be resolved. */
  lemma JoinedFits(c: Settings, m: Values, vs: map<string, string>, d: set<string>)
    requires ProperValues(m) && vs.Keys == m.Keys && Marked(vs, d)
    requires forall k :: k in m ==> vs[k] == Print(m[k]) && Modify(c, k, vs[k]) == vs[k]
    ensures Fits(c, m, vs, d, {})
  {
    hide HasTag, Print, Eval, Entered, Modify;
    forall k | k in m && k !in d ensures Settled(c, m, d, k, vs[k]) {
      PlainSettled(c, m, d, k, vs[k]);
    }
  }

  lemma PlainSettled(c: Settings, m: Values, d: set<string>, k: string, v: string)
    requires ProperValues(m) && k in m && v == Print(m[k]) && !HasTag(v) && Modify(c, k, v) == v && k !in d
    ensures Settled(c, m, d, k, v)
  {
    hide FindNext, Modify, Plain, Proper;
    EmptyIsPlain();
    assert Proper(m[k]);
    FindInPrint([], [], m[k], 0);
    assert [] + [] + Print(m[k]) == Print(m[k]);
    PrintLead(m[k]);
    PrintNone();
    ExpandLead(c, m, {} + {k}, k, [], m[k]);
    assert [] + Lead(m[k]) == v;
    assert Expand(c, m, {} + {k}, k, v, []) == Value(v, {k});
  }

  function Restrict(m: Values, keys: set<string>): (r: Values)
    ensures r.Keys == m.Keys * keys && forall k :: k in r ==> r[k] == m[k]
  {
    map k | k in m && k in keys :: m[k]
  }

  /** The written form of all values that may be needed. */
  ghost predicate WrittenAs(c: Settings, src: Sources, m: Values)
  {
    ProperValues(m) && Universe(c, src, m.Keys) && forall k :: k in m ==> Lookup(c, src, k) == Print(m[k])
  }

  lemma JoinedMore(a: map<string, string>, b: map<string, string>, key: string, d: set<string>, e: set<string>)
    requires Joined(a, b, key, d, e) && Marked(a, d) && (forall k :: k in a ==> a[k] == b[k])
    requires forall k :: k in a ==> Closed(a, a[k])
    ensures Marked(b, e) && forall k :: k in b ==> Closed(b, b[k])
  {
    hide HasTag, Joins, NamesOf;
    forall k | k in b ensures Closed(b, b[k]) {
      if k in a { assert Closed(a, a[k]); }
    }
  }

  lemma JoinedReady(c: Settings, src: Sources, m: Values, vs: map<string, string>, d: set<string>)
    requires WrittenAs(c, src, m) && Sourced(c, src, vs) && vs.Keys <= m.Keys && Marked(vs, d)
    requires forall k :: k in vs ==> Closed(vs, vs[k])
    ensures Fits(c, Restrict(m, vs.Keys), vs, d, {})
    ensures forall k, f, n :: k in vs && f in Joins(Lookup(c, src, k), 0) && n in NamesOf(f) ==> n in vs
  {
    hide Fits, HasTag, Print, Joins, NamesOf, Universe;
    forall k | k in vs ensures Modify(c, k, vs[k]) == vs[k] { LookupModified(c, src, k); }
    forall k, f, n | k in vs && f in Joins(Lookup(c, src, k), 0) && n in NamesOf(f) ensures n in vs {
      assert Closed(vs, vs[k]);
    }
    JoinedFits(c, Restrict(m, vs.Keys), vs, d);
  }

  lemma LookupModified(c: Settings, src: Sources, k: string)
    ensures Modify(c, k, Lookup(c, src, k)) == Lookup(c, src, k)
  {
  }

  datatype Resolved = Done(value: string) | Err(error: Error, key: string)

  class EixRc {
    const settings: Settings
    const sources: Sources
    var mainMap: map<string, string>

    constructor (settings: Settings, sources: Sources)
      ensures this.settings == settings && this.sources == sources && mainMap == map[]
    {
      this.settings, this.sources, mainMap := settings, sources, map[];
    }

    /** A copy of the referenced value with the flags applied. */
    method Apply(ref: Ref, s: string) returns (r: string)
      ensures r == Transform(ref, s)
    {
      hide Escape, AppendEach;
      r := s;
      if ref.escape { r := EscapeString(r, SPACES); }
      if ref.append != [] { r := AppendEverywhere(r, ref.append); }
    }

    /** resolve_delayed_recurse: replaces the references in the value of a key, in place.
        The outcome is what the evaluator says: the value, which is then stored and needs
        no further work, or the error. */
    method ResolveDelayedRecurse(key: string, visited: set<string>, hasDelayed: set<string>, ghost m: Values)
      returns (r: Resolved, unresolved: set<string>)
      requires Fits(settings, m, mainMap, hasDelayed, visited)
      modifies this
      ensures match Eval(settings, m, visited, key)
              case Failed(e, k) => r == Err(e, k)
              case Value(v, t) =>
                && r == Done(v) && key in mainMap && mainMap[key] == v
                && Fits(settings, m, mainMap, unresolved, visited) && unresolved <= hasDelayed - {key} && t !! unresolved
                && old(mainMap).Keys <= mainMap.Keys
                && (forall k :: k in visited ==> k in mainMap && k in old(mainMap) && mainMap[k] == old(mainMap)[k])
      decreases m.Keys - visited
    {
      hide Eval, Expand, Fits, InProgress, Print, Choose, Transform, Plain, FindNext;
      unresolved := hasDelayed;
      if key !in hasDelayed {
        FitsSettled(settings, m, mainMap, hasDelayed, visited, key);
        FitsKeys(settings, m, mainMap, hasDelayed, visited);
        mainMap := mainMap[key := Modify(settings, key, if key in mainMap then mainMap[key] else [])];
        return Done(mainMap[key]), unresolved;
      }
      FitsKeys(settings, m, mainMap, hasDelayed, visited);
      if key in visited {
        EnteredAgain(settings, m, mainMap, hasDelayed, visited, key);
      } else {
        ProgressStarts(settings, m, mainMap, hasDelayed, visited, key);
      }
      var pos := 0;
      ghost var done, ps, trail: set<string> := [], m[key], {};
      while true
        invariant key in visited ==> pos == 0 && mainMap == old(mainMap) && unresolved == hasDelayed
        invariant key !in visited ==> pos == |done| && InProgress(settings, m, mainMap, unresolved, visited, key, done, ps, trail)
        invariant key in mainMap && unresolved <= hasDelayed && old(mainMap).Keys <= mainMap.Keys
        invariant forall k :: k in visited ==> k in mainMap && mainMap[k] == old(mainMap)[k]
        decreases |ps|
      {
        if key !in visited {
          ProgressFinds(settings, m, mainMap, unresolved, visited, key, done, ps, trail, pos);
        }
        var f := FindNextDelayed(mainMap[key], pos);
        if f.NotFound? {
          ProgressEnds(settings, m, mainMap, unresolved, visited, key, done + Lead(ps), trail);
          unresolved := unresolved - {key};
          mainMap := mainMap[key := Modify(settings, key, mainMap[key])];
          return Done(mainMap[key]), unresolved;
        }
        if key !in visited {
          done, ps := done + Lead(ps), Tagged(ps);
          ProgressKeys(settings, m, mainMap, unresolved, visited, key, done, ps, trail);
          HeadKind(ps);
          ProgressFails(settings, m, mainMap, unresolved, visited, key, done, ps, trail);
        }
        if f.kind == Fi { return Err(FiWithoutIf, key), unresolved; }
        if f.kind == Else { return Err(ElseWithoutIf, key), unresolved; }
        pos := f.pos;
        if key in visited { return Err(SelfReference, key), unresolved; }
        ProgressEnters(settings, m, mainMap, unresolved, visited, key, done, ps, trail);
        ghost var before, open := mainMap, unresolved;
        var s;
        s, unresolved := ResolveDelayedRecurse(NameOf(settings, f.ref), visited + {key}, unresolved, m);
        if s.Err? { return s, unresolved; }
        ghost var used := Eval(settings, m, visited + {key}, NameOf(settings, f.ref)).trail;
        var text := Apply(f.ref, s.value);
        assert mainMap[key] == before[key];
        if f.kind == Variable {
          ProgressUses(settings, m, before, open, visited, key, done, ps, trail, mainMap, unresolved, s.value, used);
          ProgressText(done, ps);
          Replaced(done, PrintPiece(ps[0]), text, Print(ps[1..]));
          mainMap := mainMap[key := mainMap[key][..pos] + text + mainMap[key][pos + f.length..]];
          pos := pos + |text|;
          done, ps, trail := done + text, ps[1..], trail + used;
          continue;
        }
        ProgressTests(settings, m, before, open, visited, key, done, ps, trail, mainMap, unresolved, s.value, used);
        ProgressText(done, ps);
        var result := Holds(f.kind, text);
        var chosen, e := ChooseBranch(mainMap[key], pos, f.length, result, done, PrintPiece(ps[0]), ps[1..]);
        if chosen.None? { return Err(e, key), unresolved; }
        mainMap := mainMap[key := chosen.value];
        ps, trail := Choose(ps[1..], result, 0, false).ps, trail + used;
      }
    }

    /** Resolves keys one after the other, in any order. Either all of them get the value
        the evaluator gives them, or the first that has none is reported. */
    method ResolveAll(keys: seq<string>, hasDelayed: set<string>, ghost m: Values) returns (r: Resolved, unresolved: set<string>)
      requires Fits(settings, m, mainMap, hasDelayed, {})
      modifies this
      ensures r.Done? <==> forall i :: 0 <= i < |keys| ==> Eval(settings, m, {}, keys[i]).Value?
      ensures r.Done? ==>
        && Fits(settings, m, mainMap, unresolved, {}) && unresolved <= hasDelayed
        && forall i :: 0 <= i < |keys| ==> keys[i] in mainMap && mainMap[keys[i]] == Eval(settings, m, {}, keys[i]).text
      ensures r.Err? ==> exists i :: 0 <= i < |keys| && Eval(settings, m, {}, keys[i]) == Failed(r.error, r.key)
                                     && forall j :: 0 <= j < i ==> Eval(settings, m, {}, keys[j]).Value?
    {
      hide Eval, Fits;
      unresolved := hasDelayed;
      for i := 0 to |keys|
        invariant Fits(settings, m, mainMap, unresolved, {}) && unresolved <= hasDelayed
        invariant forall j :: 0 <= j < i ==>
          keys[j] in mainMap && keys[j] !in unresolved && Eval(settings, m, {}, keys[j]).Value?
      {
        ghost var o := Eval(settings, m, {}, keys[i]);
        r, unresolved := ResolveDelayedRecurse(keys[i], {}, unresolved, m);
        if r.Err? { return; }
        assert o.Value?;
      }
      r := Done([]);
      forall i | 0 <= i < |keys| ensures keys[i] in mainMap && mainMap[keys[i]] == Eval(settings, m, {}, keys[i]).text {
        FitsValue(settings, m, mainMap, unresolved, keys[i]);
      }
    }

    // ---- Joining ----

    /** Fetches a key and, recursively, everything it refers to. */
    method JoinKey(key: string, hasDelayed: set<string>, ghost u: set<string>) returns (marked: set<string>)
      requires Universe(settings, sources, u) && key in u && Sourced(settings, sources, mainMap) && mainMap.Keys <= u
      modifies this
      ensures Sourced(settings, sources, mainMap) && Joined(old(mainMap), mainMap, key, hasDelayed, marked) && mainMap.Keys <= u
      decreases u - mainMap.Keys, if key in mainMap then 5 else 0
    {
      ghost var before := mainMap;
      var val := if key in mainMap then mainMap[key] else [];
      if key in sources.file {
        val := sources.file[key];
      } else if key in sources.env {
        val := sources.env[key];
      }
      val := Modify(settings, key, val);
      mainMap := mainMap[key := val];
      assert mainMap.Keys == before.Keys + {key};
      assert key in before ==> mainMap.Keys == before.Keys;
      marked := JoinKeyRec(key, val, hasDelayed, u);
    }

    method JoinKeyRec(key: string, val: string, hasDelayed: set<string>, ghost u: set<string>) returns (marked: set<string>)
      requires Universe(settings, sources, u) && key in u && Sourced(settings, sources, mainMap) && mainMap.Keys <= u
      requires key in mainMap && mainMap[key] == val
      modifies this
      ensures Sourced(settings, sources, mainMap) && Joined(old(mainMap), mainMap, key, hasDelayed, marked) && mainMap.Keys <= u
      decreases u - mainMap.Keys, 4
    {
      hide FindNext, Joins, NamesOf, Lookup, Closed, JoinedUpTo;
      marked := hasDelayed;
      var pos := 0;
      ghost var a, seen := mainMap, false;
      assert JoinedUpTo(mainMap, val, 0) by { JoinedFromStart(mainMap, val); }
      while true
        invariant pos <= |val| && Sourced(settings, sources, mainMap) && mainMap.Keys <= u
        invariant PartJoined(a, mainMap, hasDelayed, marked, key, seen) && JoinedUpTo(mainMap, val, pos)
        invariant (seen ==> HasTag(val)) && (!seen ==> pos == 0)
        decreases |val| - pos
      {
        var f := FindNextDelayed(val, pos);
        ghost var b := mainMap;
        if f.NotFound? {
          JoinedStep(b, b, val, pos);
          SourcedSame(settings, sources, a, mainMap);
          return;
        }
        seen := true;
        marked := marked + {key};
        if f.kind in {Variable, IfTrue, IfFalse} {
          JoinedStep(b, b, val, pos);
          NamesInUniverse(settings, sources, u, key, f.ref);
          marked := JoinNames(key, NamesOf(f.ref), marked, u, a, hasDelayed);
        }
        JoinedStep(b, mainMap, val, pos);
        pos := f.pos + f.length;
      }
    }

    method JoinNames(key: string, names: seq<string>, hasDelayed: set<string>, ghost u: set<string>,
                     ghost a: map<string, string>, ghost d: set<string>) returns (marked: set<string>)
      requires Universe(settings, sources, u) && Sourced(settings, sources, mainMap) && forall n :: n in names ==> n in u
      requires PartJoined(a, mainMap, d, hasDelayed, key, true) && mainMap.Keys <= u
      modifies this
      ensures Sourced(settings, sources, mainMap) && PartJoined(a, mainMap, d, marked, key, true) && mainMap.Keys <= u
      ensures old(mainMap).Keys <= mainMap.Keys && forall n :: n in names ==> n in mainMap
      decreases u - mainMap.Keys, 3
    {
      hide Universe, Sourced, PartJoined;
      marked := hasDelayed;
      for i := 0 to |names|
        invariant Sourced(settings, sources, mainMap) && PartJoined(a, mainMap, d, marked, key, true) && mainMap.Keys <= u
        invariant old(mainMap).Keys <= mainMap.Keys && forall j :: 0 <= j < i ==> names[j] in mainMap
      {
        ghost var b, e := mainMap, marked;
        marked := JoinKeyIfNew(names[i], marked, u);
        SourcedSame(settings, sources, b, mainMap);
        PartJoins(a, b, mainMap, d, e, marked, key, true, names[i]);
      }
    }

    method JoinKeyIfNew(key: string, hasDelayed: set<string>, ghost u: set<string>) returns (marked: set<string>)
      requires Universe(settings, sources, u) && key in u && Sourced(settings, sources, mainMap) && mainMap.Keys <= u
      modifies this
      ensures Sourced(settings, sources, mainMap) && mainMap.Keys <= u
      ensures old(mainMap).Keys <= mainMap.Keys && key in mainMap
      ensures if key in old(mainMap) then mainMap == old(mainMap) && marked == hasDelayed
              else Joined(old(mainMap), mainMap, key, hasDelayed, marked)
      decreases u - mainMap.Keys, 2
    {
      marked := hasDelayed;
      if key !in mainMap { marked := JoinKey(key, hasDelayed, u); }
    }

    method JoinAll(keys: seq<string>, ghost u: set<string>) returns (marked: set<string>)
      requires mainMap == map[] && Universe(settings, sources, u) && forall k :: k in keys ==> k in u
      modifies this
      ensures Sourced(settings, sources, mainMap) && mainMap.Keys <= u && Marked(mainMap, marked)
      ensures (forall k :: k in keys ==> k in mainMap) && forall k :: k in mainMap ==> Closed(mainMap, mainMap[k])
    {
      hide Universe, HasTag, Lookup, Joins, NamesOf;
      marked := {};
      for i := 0 to |keys|
        invariant Sourced(settings, sources, mainMap) && mainMap.Keys <= u && Marked(mainMap, marked)
        invariant forall j :: 0 <= j < i ==> keys[j] in mainMap
        invariant forall k :: k in mainMap ==> Closed(mainMap, mainMap[k])
      {
        ghost var before, d := mainMap, marked;
        marked := JoinKey(keys[i], marked, u);
        SourcedSame(settings, sources, before, mainMap);
        JoinedMore(before, mainMap, keys[i], d, marked);
      }
    }

    /** Fetches keys and everything they need, and resolves some of them in any order. The
        joined keys are complete, and every key gets the value of the evaluator over them. */
    method ReadKeys(keys: seq<string>, order: seq<string>, ghost m: Values) returns (r: Resolved, ghost joined: set<string>)
      requires mainMap == map[] && WrittenAs(settings, sources, m)
      requires forall k :: k in keys ==> k in m
      modifies this
      ensures joined <= m.Keys && forall k :: k in keys ==> k in joined
      ensures forall k, f, n :: k in joined && f in Joins(Lookup(settings, sources, k), 0) && n in NamesOf(f) ==> n in joined
      ensures var values := Restrict(m, joined);
        && (r.Done? <==> forall i :: 0 <= i < |order| ==> Eval(settings, values, {}, order[i]).Value?)
        && (r.Done? ==> forall i :: 0 <= i < |order| ==>
              order[i] in mainMap && mainMap[order[i]] == Eval(settings, values, {}, order[i]).text)
        && (r.Err? ==> exists i :: 0 <= i < |order| && Eval(settings, values, {}, order[i]) == Failed(r.error, r.key))
    {
      hide Eval, Fits, Lookup, Universe, Joins, NamesOf, HasTag, Print;
      var marked := JoinAll(keys, m.Keys);
      joined := mainMap.Keys;
      JoinedReady(settings, sources, m, mainMap, marked);
      var unresolved;
      r, unresolved := ResolveAll(order, marked, Restrict(m, joined));
    }
  }

  lemma ProgressText(done: string, ps: seq<Piece>)
    requires ps != [] && Proper(ps)
    ensures done + Print(ps) == done + PrintPiece(ps[0]) + Print(ps[1..]) && Proper(ps[1..])
  {
    hide PrintPiece, ProperPiece;
    Regroup(done, PrintPiece(ps[0]), Print(ps[1..]));
  }

  lemma Replaced(a: string, tag: string, text: string, b: string)
    ensures var s := a + tag + b;
      s[..|a|] + text + s[|a| + |tag|..] == a + text + b
  {
    var s := a + tag + b;
    assert s[..|a|] == a && s[|a| + |tag|..] == b;
  }
}
