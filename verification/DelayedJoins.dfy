/** Values over the joined keys alone, and over all keys: an emptiness test does not bring in its key. */
module DelayedJoins {
  import opened DelayedSyntax
  import opened DelayedTemplates
  import opened DelayedValues
  import opened DelayedResolver

  predicate IsEmptinessTest(p: Piece) { p.When? && (p.kind == IfEmpty || p.kind == IfNonempty) }

  /** The evaluation of a key meets no key outside of `joined` that has a value. */
  ghost predicate Misses(c: Settings, m: Values, joined: set<string>, visited: set<string>, key: string)
    decreases m.Keys - visited, 0, 0
  {
    if key in visited || key !in m then false
    else if key !in joined then
      var o := Eval(c, m, visited, key);
      o.Failed? || o.text != []
    else MissesIn(c, m, joined, visited + {key}, key, [], m[key])
  }

  ghost predicate MissesIn(c: Settings, m: Values, joined: set<string>, visited: set<string>, key: string, done: string, ps: seq<Piece>)
    decreases m.Keys - visited, 1, |ps|
  {
    if ps == [] then false
    else
      match ps[0]
      case Text(s) => MissesIn(c, m, joined, visited, key, done + s, ps[1..])
      case EndWhen => false
      case OrElse => false
      case Use(r) =>
        Misses(c, m, joined, visited, NameOf(c, r)) ||
        (match Eval(c, m, visited, NameOf(c, r))
         case Failed(_, _) => false
         case Value(v, _) => MissesIn(c, m, joined, visited, key, done + Transform(r, v), ps[1..]))
      case When(k, r) =>
        Misses(c, m, joined, visited, NameOf(c, r)) ||
        (match Eval(c, m, visited, NameOf(c, r))
         case Failed(_, _) => false
         case Value(v, _) =>
           match Choose(ps[1..], Holds(k, Transform(r, v)), 0, false)
           case Bad(_) => false
           case Chosen(qs) => MissesIn(c, m, joined, visited, key, done, qs))
  }

  /** The same text or the same error. */
  predicate SameOutcome(o: Outcome, p: Outcome)
  {
    if o.Failed? then o == p else p.Value? && o.text == p.text
  }

  /** If nothing is missed, the joined keys give every value that all keys give. */
  lemma {:induction false} JoinedIsEnough(c: Settings, m: Values, joined: set<string>, visited: set<string>, key: string)
    requires !Misses(c, m, joined, visited, key)
    ensures SameOutcome(Eval(c, Restrict(m, joined), visited, key), Eval(c, m, visited, key))
    decreases m.Keys - visited, 0, 0
  {
    if key !in visited && key in m && key in joined {
      JoinedIsEnoughIn(c, m, joined, visited + {key}, key, [], m[key]);
    }
  }

  lemma {:induction false} JoinedIsEnoughIn(c: Settings, m: Values, joined: set<string>, visited: set<string>,
                                            key: string, done: string, ps: seq<Piece>)
    requires !MissesIn(c, m, joined, visited, key, done, ps)
    ensures SameOutcome(Expand(c, Restrict(m, joined), visited, key, done, ps), Expand(c, m, visited, key, done, ps))
    decreases m.Keys - visited, 1, |ps|
  {
    hide Choose, Transform, Holds, Modify, NameOf;
    if ps != [] {
      match ps[0] {
        case Text(s) => JoinedIsEnoughIn(c, m, joined, visited, key, done + s, ps[1..]);
        case Use(r) =>
          JoinedIsEnough(c, m, joined, visited, NameOf(c, r));
          var o := Eval(c, m, visited, NameOf(c, r));
          if o.Value? { JoinedIsEnoughIn(c, m, joined, visited, key, done + Transform(r, o.text), ps[1..]); }
        case When(k, r) =>
          JoinedIsEnough(c, m, joined, visited, NameOf(c, r));
          var o := Eval(c, m, visited, NameOf(c, r));
          if o.Value? {
            var d := Choose(ps[1..], Holds(k, Transform(r, o.text)), 0, false);
            if d.Chosen? { JoinedIsEnoughIn(c, m, joined, visited, key, done, d.ps); }
          }
        case _ =>
      }
    }
  }

  /** An emptiness test of a missed key takes the other branch exactly if the key has a value. */
  lemma EmptinessSeesValue(p: Piece, v: string)
    requires IsEmptinessTest(p) && ProperPiece(p)
    ensures Holds(p.kind, Transform(p.ref, v)) == Holds(p.kind, Transform(p.ref, [])) <==> v == []
  {
  }

  /** All that the joined keys refer to is joined, by whatever tag. */
  ghost predicate AllJoined(c: Settings, m: Values, joined: set<string>)
  {
    forall k, p :: k in joined && k in m && p in m[k] && IsRef(p) ==> NameOf(c, RefOf(p)) in joined || NameOf(c, RefOf(p)) !in m
  }

  /** Then nothing is missed: only the emptiness tests, which do not bring in their keys, can miss one. */
  lemma {:induction false} AllJoinedMissesNothing(c: Settings, m: Values, joined: set<string>, visited: set<string>, key: string)
    requires AllJoined(c, m, joined) && (key in joined || key !in m)
    ensures !Misses(c, m, joined, visited, key)
    decreases m.Keys - visited, 0, 0
  {
    hide AllJoined;
    if key !in visited && key in m {
      AllJoinedMissesNothingIn(c, m, joined, visited + {key}, key, [], m[key]);
    }
  }

  lemma {:induction false} AllJoinedMissesNothingIn(c: Settings, m: Values, joined: set<string>, visited: set<string>,
                                                    key: string, done: string, ps: seq<Piece>)
    requires AllJoined(c, m, joined) && key in joined && key in m && forall p :: p in ps ==> p in m[key]
    ensures !MissesIn(c, m, joined, visited, key, done, ps)
    decreases m.Keys - visited, 1, |ps|
  {
    hide Choose, Transform, Holds, NameOf;
    if ps != [] {
      assert ps[0] in m[key];
      match ps[0] {
        case Text(s) => AllJoinedMissesNothingIn(c, m, joined, visited, key, done + s, ps[1..]);
        case Use(r) =>
          assert IsRef(ps[0]) && RefOf(ps[0]) == r;
          AllJoinedMissesNothing(c, m, joined, visited, NameOf(c, r));
          var o := Eval(c, m, visited, NameOf(c, r));
          if o.Value? { AllJoinedMissesNothingIn(c, m, joined, visited, key, done + Transform(r, o.text), ps[1..]); }
        case When(k, r) =>
          assert IsRef(ps[0]) && RefOf(ps[0]) == r;
          AllJoinedMissesNothing(c, m, joined, visited, NameOf(c, r));
          var o := Eval(c, m, visited, NameOf(c, r));
          if o.Value? {
            var keep := Holds(k, Transform(r, o.text));
            var d := Choose(ps[1..], keep, 0, false);
            if d.Chosen? {
              ChosenFrom(ps[1..], keep, 0, false);
              AllJoinedMissesNothingIn(c, m, joined, visited, key, done, d.ps);
            }
          }
        case _ =>
      }
    }
  }

  /** A key that is only tested for emptiness is missed: its test sees nothing. */
  lemma TestedKeyIsMissed(c: Settings, t: string, v: string)
    requires c.varPrefix == [] && c.prefixKeys == {} && t != [] && v != []
    ensures var x := Ref(false, false, "x", []);
      var m: Values := map["k" := [When(IfNonempty, x), Text(t), EndWhen], "x" := [Text(v)]];
      && Misses(c, m, {"k"}, {}, "k")
      && Eval(c, Restrict(m, {"k"}), {}, "k") == Value([], {"k"}) && Eval(c, m, {}, "k") == Value(t, {"k", "x"})
  {
    var x := Ref(false, false, "x", []);
    var ps := [When(IfNonempty, x), Text(t), EndWhen];
    var m: Values := map["k" := ps, "x" := [Text(v)]];
    var j := Restrict(m, {"k"});
    var rest := ps[1..];
    assert rest == [Text(t), EndWhen] && rest[1..] == [EndWhen] && [EndWhen][1..] == [];
    ChooseText(t);
    assert Eval(c, m, {"k"}, "x") == Value(v, {"x"}) by {
      assert [Text(v)][1..] == [];
      assert [] + v == v;
      assert Expand(c, m, {"k"} + {"x"}, "x", v, []) == Value(v, {"x"});
    }
    assert {} + {"k"} == {"k"};
    assert Eval(c, j, {"k"}, "x") == Value([], {});
    assert Expand(c, j, {"k"}, "k", [], []) == Value([], {"k"});
    assert [Text(t)][1..] == [] && [] + t == t;
    assert Expand(c, m, {"k"}, "k", t, []) == Value(t, {"k"});
    assert Expand(c, m, {"k"}, "k", [], [Text(t)]) == Value(t, {"k"});
  }

  lemma ChooseText(t: string)
    ensures Choose([Text(t), EndWhen], true, 0, false) == Chosen([Text(t)])
    ensures Choose([Text(t), EndWhen], false, 0, false) == Chosen([])
  {
    var e := [EndWhen];
    assert [Text(t), EndWhen][1..] == e && e[1..] == [];
    assert [Text(t)] + [] == [Text(t)];
    assert Choose(e, true, 0, false) == Choose(e, false, 0, false) == Chosen([]);
  }
}
