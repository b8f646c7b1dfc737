/** What delayed substitution means: a recursive evaluator over lists of pieces. */
module DelayedValues {
  import opened Strings
  import opened DelayedSyntax
  import opened DelayedTemplates

  datatype Error = FiWithoutIf | ElseWithoutIf | DoubleElse | IfWithoutFi | SelfReference

  /** A value with the keys that went into it, or an error with the key where it happened. */
  datatype Outcome = Value(text: string, trail: set<string>) | Failed(error: Error, key: string)

  datatype Settings = Settings(prefixKeys: set<string>, varPrefix: string)

  type Values = map<string, seq<Piece>>

  /** A path prefix "/" counts as no prefix. */
  function Modify(c: Settings, key: string, v: string): string
  {
    if v == "/" && key in c.prefixKeys then [] else v
  }

  function NameOf(c: Settings, r: Ref): string { if r.star then c.varPrefix + r.name else r.name }

  /** `a` in front of every '|' and at the end. */
  function AppendEach(s: string, a: string): string
  {
    if s == [] then a else (if s[0] == '|' then a + "|" else [s[0]]) + AppendEach(s[1..], a)
  }

  function Transform(r: Ref, s: string): string
  {
    var e := if r.escape then Escape(s, SPACES) else s;
    if r.append == [] then e else AppendEach(e, r.append)
  }

  /** The character at `i` of a C string. */
  function CharAt(s: string, i: nat): char { if i < |s| then s[i] else NUL }

  predicate IsTrue(s: string)
  {
    var c, d := CharAt(s, 0), CharAt(s, 1);
    !(c == NUL || c in "NnfF" || (c in "oO" && d in "fF") || (c in "0-" && d == NUL))
  }

  predicate Holds(k: Kind, s: string)
  {
    if k == IfTrue then IsTrue(s) else if k == IfFalse then !IsTrue(s) else if k == IfEmpty then s == [] else s != []
  }

  // ---- Choosing a branch ----

  datatype Choice = Chosen(ps: seq<Piece>) | Bad(error: Error)

  function Pass(keep: bool, p: Piece, c: Choice): Choice
  {
    if keep && c.Chosen? then Chosen([p] + c.ps) else c
  }

  /** The scan for the end of a condition. Only the plain tests are counted as nested. */
  function Choose(ps: seq<Piece>, keep: bool, count: nat, gotElse: bool): (r: Choice)
    ensures r.Chosen? ==> |r.ps| < |ps|
    decreases |ps|
  {
    if ps == [] then Bad(IfWithoutFi)
    else
      match ps[0]
      case EndWhen =>
        if count == 0 then Chosen(ps[1..]) else Pass(keep, ps[0], Choose(ps[1..], keep, count - 1, gotElse))
      case OrElse =>
        if count != 0 then Pass(keep, ps[0], Choose(ps[1..], keep, count, gotElse))
        else if gotElse then Bad(DoubleElse) else Choose(ps[1..], !keep, 0, true)
      case When(k, _) =>
        Pass(keep, ps[0], Choose(ps[1..], keep, if k == IfTrue || k == IfFalse then count + 1 else count, gotElse))
      case _ => Pass(keep, ps[0], Choose(ps[1..], keep, count, gotElse))
  }

  // ---- The evaluator ----

  function AddTrail(t: set<string>, o: Outcome): Outcome
  {
    if o.Value? then o.(trail := t + o.trail) else o
  }

  /** The value of a key while the keys `visited` are being evaluated. */
  function Eval(c: Settings, m: Values, visited: set<string>, key: string): Outcome
    decreases m.Keys - visited, 0, 0
  {
    if key in visited then Failed(SelfReference, key)
    else if key !in m then Value(Modify(c, key, []), {})
    else Expand(c, m, visited + {key}, key, [], m[key])
  }

  function Expand(c: Settings, m: Values, visited: set<string>, key: string, done: string, ps: seq<Piece>): Outcome
    decreases m.Keys - visited, 1, |ps|
  {
    if ps == [] then Value(Modify(c, key, done), {key})
    else
      match ps[0]
      case Text(s) => Expand(c, m, visited, key, done + s, ps[1..])
      case EndWhen => Failed(FiWithoutIf, key)
      case OrElse => Failed(ElseWithoutIf, key)
      case Use(r) =>
        (match Eval(c, m, visited, NameOf(c, r))
         case Failed(e, k) => Failed(e, k)
         case Value(v, t) => AddTrail(t, Expand(c, m, visited, key, done + Transform(r, v), ps[1..])))
      case When(k, r) =>
        (match Eval(c, m, visited, NameOf(c, r))
         case Failed(e, k) => Failed(e, k)
         case Value(v, t) =>
           match Choose(ps[1..], Holds(k, Transform(r, v)), 0, false)
           case Bad(e) => Failed(e, key)
           case Chosen(qs) => AddTrail(t, Expand(c, m, visited, key, done, qs)))
  }

  // ---- A value does not depend on what else is being evaluated ----

  /** A value never rests on a key that is still being evaluated. */
  lemma {:induction false} TrailAvoids(c: Settings, m: Values, visited: set<string>, key: string)
    requires Eval(c, m, visited, key).Value?
    ensures Eval(c, m, visited, key).trail !! visited
    decreases m.Keys - visited, 0, 0
  {
    if key in m {
      TrailOfExpand(c, m, visited + {key}, key, [], m[key]);
    }
  }

  lemma {:induction false} TrailOfExpand(c: Settings, m: Values, visited: set<string>, key: string, done: string, ps: seq<Piece>)
    requires key in visited && Expand(c, m, visited, key, done, ps).Value?
    ensures var t := Expand(c, m, visited, key, done, ps).trail;
      key in t && t - {key} !! visited
    decreases m.Keys - visited, 1, |ps|
  {
    if ps != [] {
      hide Transform, Choose, Modify, Holds;
      match ps[0]
      case Text(s) => TrailOfExpand(c, m, visited, key, done + s, ps[1..]);
      case Use(r) =>
        TrailAvoids(c, m, visited, NameOf(c, r));
        var v := Eval(c, m, visited, NameOf(c, r)).text;
        TrailOfExpand(c, m, visited, key, done + Transform(r, v), ps[1..]);
      case When(k, r) =>
        TrailAvoids(c, m, visited, NameOf(c, r));
        var v := Eval(c, m, visited, NameOf(c, r)).text;
        TrailOfExpand(c, m, visited, key, done, Choose(ps[1..], Holds(k, Transform(r, v)), 0, false).ps);
      case _ =>
    }
  }

  /** While other keys are being evaluated, the value is the same, if it does not rest on them. */
  lemma {:induction false} EvalIsStable(c: Settings, m: Values, visited: set<string>, other: set<string>, key: string)
    requires Eval(c, m, visited, key).Value? && Eval(c, m, visited, key).trail !! other && other <= m.Keys
    ensures Eval(c, m, other, key) == Eval(c, m, visited, key)
    decreases m.Keys - visited, 0, 0
  {
    if key in m {
      TrailOfExpand(c, m, visited + {key}, key, [], m[key]);
      ExpandIsStable(c, m, visited + {key}, other + {key}, key, [], m[key]);
    }
  }

  lemma {:induction false} ExpandIsStable(c: Settings, m: Values, visited: set<string>, other: set<string>, key: string,
                                          done: string, ps: seq<Piece>)
    requires key in visited && key in other && other <= m.Keys && Expand(c, m, visited, key, done, ps).Value?
    requires Expand(c, m, visited, key, done, ps).trail - {key} !! other
    ensures Expand(c, m, other, key, done, ps) == Expand(c, m, visited, key, done, ps)
    decreases m.Keys - visited, 1, |ps|
  {
    if ps != [] {
      hide Transform, Choose, Modify, Holds;
      match ps[0]
      case Text(s) => ExpandIsStable(c, m, visited, other, key, done + s, ps[1..]);
      case Use(r) =>
        TrailAvoids(c, m, visited, NameOf(c, r));
        EvalIsStable(c, m, visited, other, NameOf(c, r));
        var v := Eval(c, m, visited, NameOf(c, r)).text;
        ExpandIsStable(c, m, visited, other, key, done + Transform(r, v), ps[1..]);
      case When(k, r) =>
        TrailAvoids(c, m, visited, NameOf(c, r));
        EvalIsStable(c, m, visited, other, NameOf(c, r));
        var v := Eval(c, m, visited, NameOf(c, r)).text;
        ExpandIsStable(c, m, visited, other, key, done, Choose(ps[1..], Holds(k, Transform(r, v)), 0, false).ps);
      case _ =>
    }
  }

  // ---- Values are plain text ----

  lemma {:induction false} EscapedIsPlain(s: string, at: string)
    requires Plain(s)
    ensures Plain(Escape(s, at)) && (s == [] <==> Escape(s, at) == [])
    ensures s != [] ==> Escape(s, at)[0] == s[0] || Escape(s, at)[0] == '\\'
  {
    if s != [] {
      PlainTail(s);
      EscapedIsPlain(s[1..], at);
      var u, t := EscapeChar(s[0], at), Escape(s[1..], at);
      if s[1..] != [] { assert s[1..][0] == s[1]; }
      PlainJoin(u, t);
    }
  }

  lemma PlainTail(s: string)
    requires Plain(s) && s != []
    ensures Plain(s[1..])
  {
    forall i | 0 <= i < |s[1..]| - 1 ensures !(s[1..][i] == '%' && s[1..][i + 1] == '{') {
      assert s[1..][i] == s[i + 1] && s[1..][i + 1] == s[i + 2];
    }
  }

  /** Two texts make no "%{" between them. */
  lemma PlainJoin(u: string, t: string)
    requires u != [] && Plain(t) && (forall i :: 0 <= i < |u| - 1 ==> !(u[i] == '%' && u[i + 1] == '{'))
    requires if t == [] then u[|u| - 1] != '%' else !(u[|u| - 1] == '%' && t[0] == '{')
    ensures Plain(u + t)
  {
    var r := u + t;
    forall i | 0 <= i < |r| - 1 ensures !(r[i] == '%' && r[i + 1] == '{') {
      if i + 1 < |u| { assert r[i] == u[i] && r[i + 1] == u[i + 1]; }
      else if i >= |u| { assert r[i] == t[i - |u|] && r[i + 1] == t[i + 1 - |u|]; }
    }
  }

  lemma {:induction false} AppendedIsPlain(s: string, a: string)
    requires Plain(s) && a != [] && Plain(a) && a[0] in ",;"
    ensures Plain(AppendEach(s, a))
    ensures AppendEach(s, a) != [] && (AppendEach(s, a)[0] == (if s == [] || s[0] == '|' then a[0] else s[0]))
  {
    if s != [] {
      PlainTail(s);
      AppendedIsPlain(s[1..], a);
      if s[1..] != [] { assert s[1..][0] == s[1]; }
      var t := AppendEach(s[1..], a);
      if s[0] == '|' {
        assert Plain("|");
        PlainSum(a, "|");
        PlainSum(a + "|", t);
      } else {
        PlainJoin([s[0]], t);
      }
    }
  }

  lemma TransformedIsPlain(r: Ref, s: string)
    requires Plain(s) && ProperRef(r)
    ensures Plain(Transform(r, s))
  {
    hide Plain;
    EscapedIsPlain(s, SPACES);
    var e := if r.escape then Escape(s, SPACES) else s;
    if r.append != [] { AppendedIsPlain(e, r.append); }
  }

  /** Choosing a branch drops pieces, but makes no new ones. */
  lemma {:induction false} ChosenIsProper(ps: seq<Piece>, keep: bool, count: nat, gotElse: bool)
    requires Proper(ps) && Choose(ps, keep, count, gotElse).Chosen?
    ensures Proper(Choose(ps, keep, count, gotElse).ps)
    decreases |ps|
  {
    hide ProperPiece;
    match ps[0]
    case EndWhen => if count != 0 { ChosenIsProper(ps[1..], keep, count - 1, gotElse); }
    case OrElse =>
      if count != 0 { ChosenIsProper(ps[1..], keep, count, gotElse); } else { ChosenIsProper(ps[1..], !keep, 0, true); }
    case When(k, _) => ChosenIsProper(ps[1..], keep, if k == IfTrue || k == IfFalse then count + 1 else count, gotElse);
    case _ => ChosenIsProper(ps[1..], keep, count, gotElse);
  }

  ghost predicate ProperValues(m: Values) { forall k :: k in m ==> Proper(m[k]) }

  lemma {:induction false} ValueIsPlain(c: Settings, m: Values, visited: set<string>, key: string)
    requires ProperValues(m) && Eval(c, m, visited, key).Value?
    ensures Plain(Eval(c, m, visited, key).text)
    decreases m.Keys - visited, 0, 0
  {
    hide Plain;
    EmptyIsPlain();
    if key in m { ExpandedIsPlain(c, m, visited + {key}, key, [], m[key]); }
  }

  lemma {:induction false} ExpandedIsPlain(c: Settings, m: Values, visited: set<string>, key: string, done: string, ps: seq<Piece>)
    requires ProperValues(m) && Plain(done) && Proper(ps) && Expand(c, m, visited, key, done, ps).Value?
    ensures Plain(Expand(c, m, visited, key, done, ps).text)
    decreases m.Keys - visited, 1, |ps|
  {
    hide Plain, Transform, Choose, Holds;
    EmptyIsPlain();
    if ps != [] {
      assert ProperPiece(ps[0]);
      match ps[0]
      case Text(s) =>
        PlainSum(done, s);
        ExpandedIsPlain(c, m, visited, key, done + s, ps[1..]);
      case Use(r) =>
        ValueIsPlain(c, m, visited, NameOf(c, r));
        var v := Eval(c, m, visited, NameOf(c, r)).text;
        TransformedIsPlain(r, v);
        PlainSum(done, Transform(r, v));
        ExpandedIsPlain(c, m, visited, key, done + Transform(r, v), ps[1..]);
      case When(k, r) =>
        var v := Eval(c, m, visited, NameOf(c, r)).text;
        ChosenIsProper(ps[1..], Holds(k, Transform(r, v)), 0, false);
        ExpandedIsPlain(c, m, visited, key, done, Choose(ps[1..], Holds(k, Transform(r, v)), 0, false).ps);
      case _ =>
    }
  }

  lemma {:induction false} ExpandLead(c: Settings, m: Values, visited: set<string>, key: string, done: string, ps: seq<Piece>)
    ensures Expand(c, m, visited, key, done, ps) == Expand(c, m, visited, key, done + Lead(ps), Tagged(ps))
    decreases |ps|
  {
    if ps != [] && ps[0].Text? {
      ExpandLead(c, m, visited, key, done + ps[0].s, ps[1..]);
      Regroup(done, ps[0].s, Lead(ps[1..]));
    } else {
      assert done + [] == done;
    }
  }

  // ---- Self-reference ----

  predicate IsRef(p: Piece) { p.Use? || p.When? }

  /** The value of `a` mentions `b`. */
  ghost predicate Refers(c: Settings, m: Values, a: string, b: string)
  {
    a in m && exists p :: p in m[a] && IsRef(p) && NameOf(c, RefOf(p)) == b
  }

  ghost predicate Chain(c: Settings, m: Values, ks: seq<string>)
  {
    ks != [] && forall i :: 0 <= i < |ks| - 1 ==> Refers(c, m, ks[i], ks[i + 1])
  }

  lemma {:induction false} ChosenFrom(ps: seq<Piece>, keep: bool, count: nat, gotElse: bool)
    requires Choose(ps, keep, count, gotElse).Chosen?
    ensures forall p :: p in Choose(ps, keep, count, gotElse).ps ==> p in ps
    decreases |ps|
  {
    assert forall p :: p in ps[1..] ==> p in ps;
    match ps[0]
    case EndWhen => if count != 0 { ChosenFrom(ps[1..], keep, count - 1, gotElse); }
    case OrElse =>
      if count != 0 { ChosenFrom(ps[1..], keep, count, gotElse); } else { ChosenFrom(ps[1..], !keep, 0, true); }
    case When(k, _) => ChosenFrom(ps[1..], keep, if k == IfTrue || k == IfFalse then count + 1 else count, gotElse);
    case _ => ChosenFrom(ps[1..], keep, count, gotElse);
  }

  lemma ChainCons(c: Settings, m: Values, a: string, ks: seq<string>)
    requires Chain(c, m, ks) && Refers(c, m, a, ks[0])
    ensures Chain(c, m, [a] + ks)
  {
    hide Refers;
  }

  /** A self-reference is a chain of references that comes back to a key on it, or to one
      that was being evaluated before. */
  lemma {:induction false} SelfReferenceIsCycle(c: Settings, m: Values, visited: set<string>, key: string) returns (ks: seq<string>)
    requires Eval(c, m, visited, key).Failed? && Eval(c, m, visited, key).error == SelfReference
    ensures Chain(c, m, ks) && ks[0] == key && ks[|ks| - 1] == Eval(c, m, visited, key).key
    ensures ks[|ks| - 1] in visited || ks[|ks| - 1] in ks[..|ks| - 1]
    decreases m.Keys - visited, 0, 0
  {
    if key in visited {
      ks := [key];
    } else {
      ks := CycleInExpand(c, m, visited, key, [], m[key]);
    }
  }

  lemma {:induction false} CycleInExpand(c: Settings, m: Values, visited: set<string>, key: string, done: string, ps: seq<Piece>)
    returns (ks: seq<string>)
    requires key in m && key !in visited && forall p :: p in ps ==> p in m[key]
    requires Expand(c, m, visited + {key}, key, done, ps).Failed? && Expand(c, m, visited + {key}, key, done, ps).error == SelfReference
    ensures Chain(c, m, ks) && ks[0] == key && ks[|ks| - 1] == Expand(c, m, visited + {key}, key, done, ps).key
    ensures ks[|ks| - 1] in visited || ks[|ks| - 1] in ks[..|ks| - 1]
    decreases m.Keys - visited - {key}, 1, |ps|
  {
    hide Transform, Choose, Holds, Modify, Chain;
    assert forall p :: p in ps[1..] ==> p in ps;
    assert m.Keys - visited - {key} == m.Keys - (visited + {key});
    match ps[0]
    case Text(s) => ks := CycleInExpand(c, m, visited, key, done + s, ps[1..]);
    case Use(r) =>
      var o := Eval(c, m, visited + {key}, NameOf(c, r));
      if o.Failed? {
        ks := CycleAbove(c, m, visited, key, ps[0]);
      } else {
        ks := CycleInExpand(c, m, visited, key, done + Transform(r, o.text), ps[1..]);
      }
    case When(k, r) =>
      var o := Eval(c, m, visited + {key}, NameOf(c, r));
      if o.Failed? {
        ks := CycleAbove(c, m, visited, key, ps[0]);
      } else {
        var b := Holds(k, Transform(r, o.text));
        BadIsNoSelfReference(ps[1..], b, 0, false);
        ChosenFrom(ps[1..], b, 0, false);
        ks := CycleInExpand(c, m, visited, key, done, Choose(ps[1..], b, 0, false).ps);
      }
  }

  lemma {:induction false} BadIsNoSelfReference(ps: seq<Piece>, keep: bool, count: nat, gotElse: bool)
    ensures Choose(ps, keep, count, gotElse) != Bad(SelfReference)
    decreases |ps|
  {
    if ps != [] {
      BadIsNoSelfReference(ps[1..], keep, count, gotElse);
      BadIsNoSelfReference(ps[1..], keep, count + 1, gotElse);
      BadIsNoSelfReference(ps[1..], !keep, 0, true);
      if count > 0 { BadIsNoSelfReference(ps[1..], keep, count - 1, gotElse); }
    }
  }

  /** One more key in front of a chain that failed below it. */
  lemma {:induction false} CycleAbove(c: Settings, m: Values, visited: set<string>, key: string, p: Piece) returns (ks: seq<string>)
    requires key in m && key !in visited && p in m[key] && IsRef(p)
    requires var o := Eval(c, m, visited + {key}, NameOf(c, RefOf(p))); o.Failed? && o.error == SelfReference
    ensures Chain(c, m, ks) && ks[0] == key && ks[|ks| - 1] == Eval(c, m, visited + {key}, NameOf(c, RefOf(p))).key
    ensures ks[|ks| - 1] in visited || ks[|ks| - 1] in ks[..|ks| - 1]
    decreases m.Keys - (visited + {key}), 0, 1
  {
    hide Eval;
    var below := SelfReferenceIsCycle(c, m, visited + {key}, NameOf(c, RefOf(p)));
    ChainCons(c, m, key, below);
    ks := [key] + below;
    assert ks[..|ks| - 1] == [key] + below[..|below| - 1];
  }

  /** Values that only refer to keys of lower rank never refer to themselves. */
  lemma {:induction false} RankedNeverSelfRefers(c: Settings, m: Values, key: string, rank: string -> int)
    requires forall a, b :: Refers(c, m, a, b) ==> rank(b) < rank(a)
    ensures Eval(c, m, {}, key).Failed? ==> Eval(c, m, {}, key).error != SelfReference
  {
    if Eval(c, m, {}, key).Failed? && Eval(c, m, {}, key).error == SelfReference {
      var ks := SelfReferenceIsCycle(c, m, {}, key);
      var n := |ks| - 1;
      var i :| 0 <= i < n && ks[i] == ks[n];
      RankFalls(c, m, ks, i, n, rank);
    }
  }

  lemma {:induction false} RankFalls(c: Settings, m: Values, ks: seq<string>, i: nat, j: nat, rank: string -> int)
    requires Chain(c, m, ks) && i < j < |ks| && forall a, b :: Refers(c, m, a, b) ==> rank(b) < rank(a)
    ensures rank(ks[j]) < rank(ks[i])
    decreases j
  {
    assert Refers(c, m, ks[j - 1], ks[j]);
    if i < j - 1 { RankFalls(c, m, ks, i, j - 1, rank); }
  }
}
