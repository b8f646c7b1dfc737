/** Values as nested templates, where every condition has its branches: what the flat
evaluation of their text comes to. */
module DelayedTrees {
  import opened Strings
  import opened DelayedSyntax
  import opened DelayedTemplates
  import opened DelayedValues

  datatype Template =
    | End
    | Lit(s: string, rest: Template)
    | Var(ref: Ref, rest: Template)
    | Cond(kind: Kind, ref: Ref, yes: Template, no: Otherwise, rest: Template)

  datatype Otherwise = NoElse | ElseBranch(t: Template)

  function Flat(t: Template): seq<Piece>
  {
    match t
    case End => []
    case Lit(s, r) => [Text(s)] + Flat(r)
    case Var(ref, r) => [Use(ref)] + Flat(r)
    case Cond(k, ref, y, n, r) => [When(k, ref)] + (Flat(y) + (FlatElse(n) + ([EndWhen] + Flat(r))))
  }

  function FlatElse(n: Otherwise): seq<Piece>
  {
    match n case NoElse => [] case ElseBranch(t) => [OrElse] + Flat(t)
  }

  /** Only plain tests inside the branches of a condition. */
  predicate Nestable(t: Template)
  {
    match t
    case End => true
    case Lit(_, r) => Nestable(r)
    case Var(_, r) => Nestable(r)
    case Cond(k, _, y, n, r) =>
      k in {IfTrue, IfFalse} && Nestable(y) && (n.ElseBranch? ==> Nestable(n.t)) && Nestable(r)
  }

  predicate Scannable(t: Template)
  {
    match t
    case End => true
    case Lit(_, r) => Scannable(r)
    case Var(_, r) => Scannable(r)
    case Cond(_, _, y, n, r) => Nestable(y) && (n.ElseBranch? ==> Nestable(n.t)) && Scannable(r)
  }

  type Templates = map<string, Template>

  /** The two parts of a text, one after the other. */
  function Then(a: Outcome, b: Outcome): Outcome
  {
    if a.Failed? then a else if b.Failed? then b else Value(a.text + b.text, a.trail + b.trail)
  }

  /** The value of a key. */
  function Render(c: Settings, m: Templates, visited: set<string>, key: string): Outcome
    decreases m.Keys - visited, 0, End
  {
    if key in visited then Failed(SelfReference, key)
    else if key !in m then Value(Modify(c, key, []), {})
    else
      match RenderText(c, m, visited + {key}, m[key])
      case Failed(e, k) => Failed(e, k)
      case Value(s, t) => Value(Modify(c, key, s), t + {key})
  }

  /** The text of a template: a condition stands for one of its branches. */
  function RenderText(c: Settings, m: Templates, visited: set<string>, t: Template): Outcome
    decreases m.Keys - visited, 1, t
  {
    match t
    case End => Value([], {})
    case Lit(s, r) => Then(Value(s, {}), RenderText(c, m, visited, r))
    case Var(ref, r) =>
      (match Render(c, m, visited, NameOf(c, ref))
       case Failed(e, k) => Failed(e, k)
       case Value(v, u) => Then(Value(Transform(ref, v), u), RenderText(c, m, visited, r)))
    case Cond(k, ref, y, n, r) =>
      (match Render(c, m, visited, NameOf(c, ref))
       case Failed(e, k) => Failed(e, k)
       case Value(v, u) =>
         var branch := if Holds(k, Transform(ref, v)) then RenderText(c, m, visited, y)
                       else if n.ElseBranch? then RenderText(c, m, visited, n.t) else Value([], {});
         Then(Value([], u), Then(branch, RenderText(c, m, visited, r))))
  }

  // ---- Choosing a branch of a nested template ----

  function PassAll(keep: bool, ps: seq<Piece>, c: Choice): Choice
  {
    if keep && c.Chosen? then Chosen(ps + c.ps) else c
  }

  lemma PassAllSum(keep: bool, a: seq<Piece>, b: seq<Piece>, c: Choice)
    ensures PassAll(keep, a, PassAll(keep, b, c)) == PassAll(keep, a + b, c)
  {
    if keep && c.Chosen? { Regroup(a, b, c.ps); }
  }

  lemma ChooseOne(p: Piece, qs: seq<Piece>, keep: bool, count: nat, gotElse: bool)
    ensures p.Text? || p.Use? ==> Choose([p] + qs, keep, count, gotElse) == PassAll(keep, [p], Choose(qs, keep, count, gotElse))
    ensures p.When? ==>
      Choose([p] + qs, keep, count, gotElse)
      == PassAll(keep, [p], Choose(qs, keep, if p.kind in {IfTrue, IfFalse} then count + 1 else count, gotElse))
    ensures p == EndWhen && count > 0 ==> Choose([p] + qs, keep, count, gotElse) == PassAll(keep, [p], Choose(qs, keep, count - 1, gotElse))
    ensures p == EndWhen && count == 0 ==> Choose([p] + qs, keep, count, gotElse) == Chosen(qs)
    ensures p == OrElse && count > 0 ==> Choose([p] + qs, keep, count, gotElse) == PassAll(keep, [p], Choose(qs, keep, count, gotElse))
    ensures p == OrElse && count == 0 && !gotElse ==> Choose([p] + qs, keep, count, gotElse) == Choose(qs, !keep, 0, true)
  {
    assert ([p] + qs)[1..] == qs;
  }

  /** The scan passes over a nested template as a whole. */
  lemma {:induction false} ChoosePasses(t: Template, qs: seq<Piece>, keep: bool, count: nat, gotElse: bool)
    requires Nestable(t)
    ensures Choose(Flat(t) + qs, keep, count, gotElse) == PassAll(keep, Flat(t), Choose(qs, keep, count, gotElse))
    decreases t
  {
    hide Choose, PassAll;
    var d := Choose(qs, keep, count, gotElse);
    match t
    case End =>
      assert Flat(t) + qs == qs;
      PassNothing(keep, d);
    case Lit(s, r) =>
      PassStep(Text(s), r, qs, keep, count, gotElse);
      ChoosePasses(r, qs, keep, count, gotElse);
      PassAllSum(keep, [Text(s)], Flat(r), d);
    case Var(ref, r) =>
      PassStep(Use(ref), r, qs, keep, count, gotElse);
      ChoosePasses(r, qs, keep, count, gotElse);
      PassAllSum(keep, [Use(ref)], Flat(r), d);
    case Cond(k, ref, y, n, r) =>
      var tail := [EndWhen] + (Flat(r) + qs);
      assert Flat(t) + qs == [When(k, ref)] + (Flat(y) + (FlatElse(n) + tail));
      ChooseOne(When(k, ref), Flat(y) + (FlatElse(n) + tail), keep, count, gotElse);
      ChoosePasses(y, FlatElse(n) + tail, keep, count + 1, gotElse);
      ElsePasses(n, tail, keep, count, gotElse);
      ChooseOne(EndWhen, Flat(r) + qs, keep, count + 1, gotElse);
      ChoosePasses(r, qs, keep, count, gotElse);
      PassAllSum(keep, [EndWhen], Flat(r), d);
      PassAllSum(keep, FlatElse(n), [EndWhen] + Flat(r), d);
      PassAllSum(keep, Flat(y), FlatElse(n) + ([EndWhen] + Flat(r)), d);
      PassAllSum(keep, [When(k, ref)], Flat(y) + (FlatElse(n) + ([EndWhen] + Flat(r))), d);
  }

  lemma PassNothing(keep: bool, d: Choice)
    ensures PassAll(keep, [], d) == d
  {
    if d.Chosen? { assert [] + d.ps == d.ps; }
  }

  lemma PassStep(p: Piece, r: Template, qs: seq<Piece>, keep: bool, count: nat, gotElse: bool)
    requires p.Text? || p.Use?
    ensures Choose(([p] + Flat(r)) + qs, keep, count, gotElse) == PassAll(keep, [p], Choose(Flat(r) + qs, keep, count, gotElse))
  {
    hide Choose, PassAll;
    Regroup([p], Flat(r), qs);
    ChooseOne(p, Flat(r) + qs, keep, count, gotElse);
  }

  lemma {:induction false} ElsePasses(n: Otherwise, tail: seq<Piece>, keep: bool, count: nat, gotElse: bool)
    requires n.ElseBranch? ==> Nestable(n.t)
    ensures Choose(FlatElse(n) + tail, keep, count + 1, gotElse) == PassAll(keep, FlatElse(n), Choose(tail, keep, count + 1, gotElse))
    decreases n
  {
    hide Choose, PassAll, Flat, Nestable;
    var d := Choose(tail, keep, count + 1, gotElse);
    if n.NoElse? {
      assert FlatElse(n) + tail == tail;
      PassNothing(keep, d);
    } else {
      Regroup([OrElse], Flat(n.t), tail);
      ChooseOne(OrElse, Flat(n.t) + tail, keep, count + 1, gotElse);
      ChoosePasses(n.t, tail, keep, count + 1, gotElse);
      PassAllSum(keep, [OrElse], Flat(n.t), d);
    }
  }

  /** The scan leaves exactly the right branch. */
  lemma ChooseBranches(y: Template, n: Otherwise, qs: seq<Piece>, result: bool)
    requires Nestable(y) && (n.ElseBranch? ==> Nestable(n.t))
    ensures Choose(Flat(y) + (FlatElse(n) + ([EndWhen] + qs)), result, 0, false)
         == Chosen((if result then Flat(y) else if n.ElseBranch? then Flat(n.t) else []) + qs)
  {
    hide Choose, Nestable;
    var tail := [EndWhen] + qs;
    ChoosePasses(y, FlatElse(n) + tail, result, 0, false);
    if n.NoElse? {
      assert FlatElse(n) + tail == tail;
      ChooseOne(EndWhen, qs, result, 0, false);
      assert [] + qs == qs;
    } else {
      Regroup([OrElse], Flat(n.t), tail);
      ChooseOne(OrElse, Flat(n.t) + tail, result, 0, false);
      ChoosePasses(n.t, tail, !result, 0, true);
      ChooseOne(EndWhen, qs, !result, 0, true);
    }
  }

  // ---- No other branches are scanned rightly ----

  /** Counted starts minus ends. */
  function Balance(ps: seq<Piece>): int
  {
    if ps == [] then 0
    else (if ps[0].When? && ps[0].kind in {IfTrue, IfFalse} then 1 else if ps[0] == EndWhen then -1 else 0) + Balance(ps[1..])
  }

  lemma {:induction false} BalanceSum(a: seq<Piece>, b: seq<Piece>)
    ensures Balance(a + b) == Balance(a) + Balance(b)
  {
    if a == [] {
      assert a + b == b;
    } else {
      assert (a + b)[1..] == a[1..] + b;
      BalanceSum(a[1..], b);
    }
  }

  /** Every emptiness test in a template costs the scan one end mark too many. */
  lemma {:induction false} BalanceOfFlat(t: Template)
    ensures Balance(Flat(t)) <= 0
    ensures Balance(Flat(t)) == 0 <==> Nestable(t)
    decreases t
  {
    match t
    case End =>
    case Lit(s, r) => BalanceOfFlat(r);
    case Var(ref, r) => BalanceOfFlat(r);
    case Cond(k, ref, y, n, r) =>
      BalanceOfFlat(y);
      BalanceOfElse(n);
      BalanceOfFlat(r);
      var tail := [EndWhen] + Flat(r);
      assert tail[1..] == Flat(r);
      BalanceSum(FlatElse(n), tail);
      BalanceSum(Flat(y), FlatElse(n) + tail);
      assert Flat(t)[1..] == Flat(y) + (FlatElse(n) + tail);
  }

  lemma {:induction false} BalanceOfElse(n: Otherwise)
    ensures Balance(FlatElse(n)) <= 0
    ensures Balance(FlatElse(n)) == 0 <==> (n.ElseBranch? ==> Nestable(n.t))
    decreases n
  {
    if n.ElseBranch? {
      BalanceOfFlat(n.t);
      assert FlatElse(n)[1..] == Flat(n.t);
    }
  }

  /** The scan either ends within `a`, and leaves at least all of `qs`, or it goes on with
      `qs`, and the count has changed by the balance. */
  lemma {:induction false} ScanSplit(a: seq<Piece>, qs: seq<Piece>, keep: bool, count: nat, gotElse: bool)
    ensures var c := Choose(a + qs, keep, count, gotElse);
      c.Chosen? && |c.ps| < |qs| ==> count + Balance(a) >= 0
    decreases |a|
  {
    if a == [] {
      assert a + qs == qs;
    } else {
      assert (a + qs)[0] == a[0] && (a + qs)[1..] == a[1..] + qs;
      ScanSplit(a[1..], qs, keep, count, gotElse);
      ScanSplit(a[1..], qs, keep, count + 1, gotElse);
      ScanSplit(a[1..], qs, !keep, 0, true);
      if count > 0 { ScanSplit(a[1..], qs, keep, count - 1, gotElse); }
    }
  }

  function Branch(y: Template, n: Otherwise, result: bool): seq<Piece>
  {
    if result then Flat(y) else if n.ElseBranch? then Flat(n.t) else []
  }

  ghost predicate ScansRight(y: Template, n: Otherwise, qs: seq<Piece>, result: bool)
  {
    Choose(Flat(y) + (FlatElse(n) + ([EndWhen] + qs)), result, 0, false) == Chosen(Branch(y, n, result) + qs)
  }

  lemma DroppedTestFails(y: Template, n: Otherwise, qs: seq<Piece>)
    requires !Nestable(y)
    ensures !ScansRight(y, n, qs, false)
  {
    hide Choose, Nestable, Balance;
    var tail := [EndWhen] + qs;
    BalanceOfFlat(y);
    ScanSplit(Flat(y), FlatElse(n) + tail, false, 0, false);
    assert |Branch(y, n, false) + qs| < |FlatElse(n) + tail|;
  }

  lemma DroppedElseFails(y: Template, n: Otherwise, qs: seq<Piece>)
    requires Nestable(y) && n.ElseBranch? && !Nestable(n.t)
    ensures !ScansRight(y, n, qs, true)
  {
    hide Choose, Nestable, Balance;
    var tail := [EndWhen] + qs;
    BalanceOfFlat(n.t);
    ChoosePasses(y, FlatElse(n) + tail, true, 0, false);
    assert FlatElse(n) + tail == [OrElse] + (Flat(n.t) + tail);
    ChooseOne(OrElse, Flat(n.t) + tail, true, 0, false);
    ScanSplit(Flat(n.t), tail, false, 0, true);
    PassedDiffers(Flat(y), Choose(Flat(n.t) + tail, false, 0, true), qs);
  }

  /** The scan picks the right branch for both outcomes of the test exactly if neither
      branch holds an emptiness test. */
  lemma ScanIsRightExactly(y: Template, n: Otherwise, qs: seq<Piece>)
    ensures ScansRight(y, n, qs, true) && ScansRight(y, n, qs, false)
            <==> Nestable(y) && (n.ElseBranch? ==> Nestable(n.t))
  {
    hide Nestable;
    if !Nestable(y) {
      DroppedTestFails(y, n, qs);
    } else if n.ElseBranch? && !Nestable(n.t) {
      DroppedElseFails(y, n, qs);
    } else {
      ChooseBranches(y, n, qs, true);
      ChooseBranches(y, n, qs, false);
    }
  }

  lemma PassedDiffers(a: seq<Piece>, d: Choice, qs: seq<Piece>)
    requires d != Chosen(qs)
    ensures PassAll(true, a, d) != Chosen(a + qs)
  {
    if d.Chosen? { assert (a + d.ps)[|a|..] == d.ps && (a + qs)[|a|..] == qs; }
  }

  // ---- The flat evaluation is the nested one ----

  function FlatMap(m: Templates): (r: Values)
    ensures r.Keys == m.Keys && forall k :: k in m ==> r[k] == Flat(m[k])
  {
    map k | k in m :: Flat(m[k])
  }

  ghost predicate AllScannable(m: Templates) { forall k :: k in m ==> Scannable(m[k]) }

  lemma {:induction false} NestableIsScannable(t: Template)
    requires Nestable(t)
    ensures Scannable(t)
  {
    match t
    case End =>
    case Lit(_, r) => NestableIsScannable(r);
    case Var(_, r) => NestableIsScannable(r);
    case Cond(_, _, _, _, r) => NestableIsScannable(r);
  }

  /** What the flat evaluation comes to behind a part with outcome `a`. */
  function Behind(c: Settings, m: Templates, visited: set<string>, key: string, done: string, a: Outcome, qs: seq<Piece>): Outcome
  {
    if a.Failed? then a else AddTrail(a.trail, Expand(c, FlatMap(m), visited, key, done + a.text, qs))
  }

  /** What the flat evaluation does with a template and with what follows it. */
  ghost predicate Expands(c: Settings, m: Templates, visited: set<string>, key: string, done: string, t: Template, qs: seq<Piece>)
  {
    Expand(c, FlatMap(m), visited, key, done, Flat(t) + qs)
    == Behind(c, m, visited, key, done, RenderText(c, m, visited, t), qs)
  }

  lemma TrailsAdd(t: set<string>, u: set<string>, o: Outcome)
    ensures AddTrail(t, AddTrail(u, o)) == AddTrail(t + u, o) && AddTrail({}, o) == o
  {
    if o.Value? { assert t + (u + o.trail) == (t + u) + o.trail && {} + o.trail == o.trail; }
  }

  /** One piece in front of a template that is expanded as it should be. */
  lemma ExpandsAfter(c: Settings, m: Templates, visited: set<string>, key: string, done: string, s: string, u: set<string>,
                     r: Template, qs: seq<Piece>, o: Outcome)
    requires Expands(c, m, visited, key, done + s, r, qs)
    requires o == AddTrail(u, Expand(c, FlatMap(m), visited, key, done + s, Flat(r) + qs))
    ensures o == Behind(c, m, visited, key, done, Then(Value(s, u), RenderText(c, m, visited, r)), qs)
  {
    hide Expand, RenderText, Flat;
    var a := RenderText(c, m, visited, r);
    if a.Value? {
      TrailsAdd(u, a.trail, Expand(c, FlatMap(m), visited, key, done + s + a.text, qs));
      Regroup(done, s, a.text);
    }
  }

  lemma ExpandsEnd(c: Settings, m: Templates, visited: set<string>, key: string, done: string, qs: seq<Piece>)
    ensures Expands(c, m, visited, key, done, End, qs)
  {
    assert Flat(End) + qs == qs && done + [] == done;
    TrailsAdd({}, {}, Expand(c, FlatMap(m), visited, key, done, qs));
  }

  lemma {:induction false} ExpandIsRender(c: Settings, m: Templates, visited: set<string>, key: string, done: string, t: Template, qs: seq<Piece>)
    requires AllScannable(m) && Scannable(t)
    ensures Expands(c, m, visited, key, done, t, qs)
    decreases m.Keys - visited, 1, t
  {
    hide Transform, Choose, Holds, Eval, Render;
    match t
    case End => ExpandsEnd(c, m, visited, key, done, qs);
    case Lit(s, r) =>
      ExpandIsRender(c, m, visited, key, done + s, r, qs);
      assert (Flat(t) + qs)[1..] == Flat(r) + qs;
      TrailsAdd({}, {}, Expand(c, FlatMap(m), visited, key, done + s, Flat(r) + qs));
      ExpandsAfter(c, m, visited, key, done, s, {}, r, qs, Expand(c, FlatMap(m), visited, key, done, Flat(t) + qs));
    case Var(ref, r) =>
      EvalIsRender(c, m, visited, NameOf(c, ref));
      assert (Flat(t) + qs)[1..] == Flat(r) + qs;
      var o := Render(c, m, visited, NameOf(c, ref));
      if o.Value? {
        var s := Transform(ref, o.text);
        ExpandIsRender(c, m, visited, key, done + s, r, qs);
        ExpandsAfter(c, m, visited, key, done, s, o.trail, r, qs, Expand(c, FlatMap(m), visited, key, done, Flat(t) + qs));
      }
    case Cond(k, ref, y, n, r) =>
      EvalIsRender(c, m, visited, NameOf(c, ref));
      CondFlat(t, qs);
      var o := Render(c, m, visited, NameOf(c, ref));
      if o.Value? {
        var b := Holds(k, Transform(ref, o.text));
        ChooseBranches(y, n, Flat(r) + qs, b);
        var branch := if b then y else if n.ElseBranch? then n.t else End;
        NestableIsScannable(branch);
        if b || n.ElseBranch? {
          ExpandIsRender(c, m, visited, key, done, branch, Flat(r) + qs);
        } else {
          ExpandsEnd(c, m, visited, key, done, Flat(r) + qs);
        }
        var a := RenderText(c, m, visited, branch);
        if a.Value? {
          ExpandIsRender(c, m, visited, key, done + a.text, r, qs);
          ExpandsAfter(c, m, visited, key, done, a.text, a.trail, r, qs,
                       Expand(c, FlatMap(m), visited, key, done, Flat(branch) + (Flat(r) + qs)));
        }
        CondTrail(o.trail, Then(a, RenderText(c, m, visited, r)));
        var all := Then(a, RenderText(c, m, visited, r));
        if all.Value? { TrailsAdd(o.trail, all.trail, Expand(c, FlatMap(m), visited, key, done + all.text, qs)); }
      }
  }

  lemma CondFlat(t: Template, qs: seq<Piece>)
    requires t.Cond?
    ensures (Flat(t) + qs)[0] == When(t.kind, t.ref)
    ensures (Flat(t) + qs)[1..] == Flat(t.yes) + (FlatElse(t.no) + ([EndWhen] + (Flat(t.rest) + qs)))
  {
    assert Flat(t) + qs == [When(t.kind, t.ref)] + (Flat(t.yes) + (FlatElse(t.no) + ([EndWhen] + (Flat(t.rest) + qs))));
  }

  lemma CondTrail(u: set<string>, a: Outcome)
    ensures Then(Value([], u), a) == AddTrail(u, a)
  {
    if a.Value? { assert [] + a.text == a.text; }
  }

  lemma {:induction false} EvalIsRender(c: Settings, m: Templates, visited: set<string>, key: string)
    requires AllScannable(m)
    ensures Eval(c, FlatMap(m), visited, key) == Render(c, m, visited, key)
    decreases m.Keys - visited, 0, End
  {
    if key in m && key !in visited {
      ExpandIsRender(c, m, visited + {key}, key, [], m[key], []);
      assert Flat(m[key]) + [] == Flat(m[key]);
      var o := RenderText(c, m, visited + {key}, m[key]);
      if o.Value? { assert [] + o.text == o.text; }
    }
  }

  const X := Ref(false, false, "x", [])
  const INNER := Cond(IfNonempty, X, End, NoElse, End)
  const OUTER := Cond(IfTrue, X, INNER, NoElse, End)
  const PLAIN_SETTINGS := Settings({}, [])

  lemma OuterIsEmpty(m: Templates)
    requires "x" !in m && "k" in m && m["k"] == OUTER
    ensures Render(PLAIN_SETTINGS, m, {}, "k") == Value([], {"k"})
  {
    var c := PLAIN_SETTINGS;
    var v: set<string> := {} + {"k"};
    assert Render(c, m, v, "x") == Value([], {});
    assert !Holds(IfTrue, Transform(X, []));
    assert RenderText(c, m, v, End) == Value([], {});
    assert RenderText(c, m, v, OUTER) == Value([], {});
  }

  lemma OuterPieces()
    ensures Flat(OUTER) == [When(IfTrue, X), When(IfNonempty, X), EndWhen, EndWhen]
    ensures Choose([When(IfNonempty, X), EndWhen, EndWhen], false, 0, false) == Chosen([EndWhen])
  {
    assert Flat(INNER) == [When(IfNonempty, X), EndWhen];
    ChooseOne(When(IfNonempty, X), [EndWhen, EndWhen], false, 0, false);
    ChooseOne(EndWhen, [EndWhen], false, 0, false);
    assert [When(IfNonempty, X)] + [EndWhen, EndWhen] == [When(IfNonempty, X), EndWhen, EndWhen];
    assert [EndWhen] + [EndWhen] == [EndWhen, EndWhen];
  }

  lemma OuterFails(m: Values)
    requires "x" !in m && "k" in m && m["k"] == Flat(OUTER)
    ensures Eval(PLAIN_SETTINGS, m, {}, "k") == Failed(FiWithoutIf, "k")
  {
    hide Choose;
    OuterPieces();
    var c, ps := PLAIN_SETTINGS, m["k"];
    var v: set<string> := {} + {"k"};
    assert Eval(c, m, v, "x") == Value([], {});
    assert !Holds(IfTrue, Transform(X, []));
    assert ps[1..] == [When(IfNonempty, X), EndWhen, EndWhen];
    assert Expand(c, m, v, "k", [], [EndWhen]) == Failed(FiWithoutIf, "k");
    assert Expand(c, m, v, "k", [], ps) == Failed(FiWithoutIf, "k");
  }

  /** The scan does not count the emptiness tests: one of them in a branch that is dropped
      leaves its end mark behind. */
  lemma EmptinessTestDoesNotNest()
    ensures Render(PLAIN_SETTINGS, map["k" := OUTER], {}, "k") == Value([], {"k"})
    ensures Eval(PLAIN_SETTINGS, FlatMap(map["k" := OUTER]), {}, "k") == Failed(FiWithoutIf, "k")
  {
    OuterIsEmpty(map["k" := OUTER]);
    OuterFails(FlatMap(map["k" := OUTER]));
  }
}
