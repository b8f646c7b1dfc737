/** What a parsed output format prints. */
module FormatPrinting {
  import opened Strings
  import opened FormatParsing
  import opened FormatRoundTrip

  type Variables = map<string, string>

  /** The properties of the entity that is printed. */
  type Properties = string -> string

  function ValueOf(vars: Variables, name: string): string { if name in vars then vars[name] else [] }

  function RhsValue(get: Properties, vars: Variables, h: Head): string
  {
    match h.rhs
    case RhsString => h.text
    case RhsProperty => get(h.text)
    case RhsVar => ValueOf(vars, h.text)
  }

  /** Whether the first branch of a condition is taken. */
  predicate Test(get: Properties, vars: Variables, h: Head)
  {
    var left := if h.user then ValueOf(vars, h.variable) else get(h.variable);
    (RhsValue(get, vars, h) == left) != h.negation
  }

  /** An assignment; with a negation it tells whether the right hand side is empty. */
  function Assign(get: Properties, vars: Variables, h: Head): Variables
  {
    var v := RhsValue(get, vars, h);
    vars[h.variable := if !h.negation then v else if v == [] then "1" else []]
  }

  /** (variables, output) of one node. */
  function PrintsNode(get: Properties, vars: Variables, n: Node): (Variables, string)
    decreases n, 0
  {
    match n
    case Text(s) => (vars, s)
    case Property(name, user) => (vars, if user then ValueOf(vars, name) else get(name))
    case Block(h, _, yes, no) =>
      if h.isSet then (Assign(get, vars, h), [])
      else if Test(get, vars, h) then Prints(get, vars, yes) else Prints(get, vars, no)
  }

  /** The nodes one after the other: later ones see the variables of earlier ones. */
  function Prints(get: Properties, vars: Variables, ns: seq<Node>): (Variables, string)
    decreases ns, 1
  {
    if ns == [] then (vars, [])
    else
      var (v, s) := PrintsNode(get, vars, ns[0]);
      var (w, t) := Prints(get, v, ns[1..]);
      (w, s + t)
  }

  class PrintFormat {
    const getProperty: Properties
    var userVariables: Variables
    var result: string

    constructor (get: Properties)
      ensures getProperty == get && userVariables == map[] && result == []
    {
      getProperty, userVariables, result := get, map[], [];
    }

    /** Says whether anything was printed. */
    method PrintString(output: string) returns (printed: bool)
      modifies this`result
      ensures result == old(result) + output && printed == (output != [])
    {
      if output == [] {
        assert result + output == result;
        return false;
      }
      result := result + output;
      return true;
    }

    /** recPrint: walks over the nodes, and into the branches that are taken. */
    method RecPrint(nodes: seq<Node>) returns (printed: bool)
      modifies this`result, this`userVariables
      ensures (userVariables, result) == (Prints(getProperty, old(userVariables), nodes).0,
                                          old(result) + Prints(getProperty, old(userVariables), nodes).1)
      ensures printed == (Prints(getProperty, old(userVariables), nodes).1 != [])
      decreases nodes, 1
    {
      hide PrintsNode;
      printed := false;
      ghost var all := Prints(getProperty, userVariables, nodes);
      ghost var sofar := [];
      assert nodes[0..] == nodes && sofar + all.1 == all.1 && result + sofar == result;
      for i := 0 to |nodes|
        invariant result == old(result) + sofar && printed == (sofar != [])
        invariant var rest := Prints(getProperty, userVariables, nodes[i..]); all == (rest.0, sofar + rest.1)
      {
        assert nodes[i..][0] == nodes[i] && nodes[i..][1..] == nodes[i + 1..];
        ghost var before, s := userVariables, PrintsNode(getProperty, userVariables, nodes[i]).1;
        var p := PrintNodeOf(nodes[i]);
        Regroup(sofar, s, Prints(getProperty, userVariables, nodes[i + 1..]).1);
        Regroup(old(result), sofar, s);
        sofar := sofar + s;
        if p { printed := true; }
      }
      assert nodes[|nodes|..] == [] && sofar + [] == sofar;
    }

    method PrintNodeOf(n: Node) returns (printed: bool)
      modifies this`result, this`userVariables
      ensures var r := PrintsNode(getProperty, old(userVariables), n);
        userVariables == r.0 && result == old(result) + r.1 && printed == (r.1 != [])
      decreases n, 0
    {
      match n {
        case Text(s) => printed := PrintString(s);
        case Property(name, user) =>
          printed := PrintString(if user then ValueOf(userVariables, name) else getProperty(name));
        case Block(h, _, yes, no) =>
          if h.isSet {
            userVariables := Assign(getProperty, userVariables, h);
            assert result + [] == result;
            return false;
          }
          printed := false;
          var ok := Test(getProperty, userVariables, h);
          if ok && yes != [] {
            printed := RecPrint(yes);
          } else if !ok && no != [] {
            printed := RecPrint(no);
          } else {
            assert result + [] == result;
          }
      }
    }
  }

  // ---- What the parser builds prints the same ----

  lemma {:induction false} CanonPrints(get: Properties, vars: Variables, ns: seq<Node>)
    ensures Prints(get, vars, CanonAll(ns)) == Prints(get, vars, ns)
    decreases ns, 1
  {
    if ns != [] {
      hide PrintsNode, Canon;
      CanonNodePrints(get, vars, ns[0]);
      CanonPrints(get, PrintsNode(get, vars, ns[0]).0, ns[1..]);
      assert CanonAll(ns)[1..] == CanonAll(ns[1..]);
    }
  }

  lemma {:induction false} CanonNodePrints(get: Properties, vars: Variables, n: Node)
    ensures PrintsNode(get, vars, Canon(n)) == PrintsNode(get, vars, n)
    decreases n, 0
  {
    if n.Block? {
      CanonPrints(get, vars, n.yes);
      CanonPrints(get, vars, n.no);
      EmptyTextPrints(get, vars);
    }
  }

  lemma EmptyTextPrints(get: Properties, vars: Variables)
    ensures Prints(get, vars, [Text([])]) == Prints(get, vars, [])
  {
    assert [Text([])][1..] == [];
  }

  /** A list of proper nodes, written down and parsed again, prints what it printed before. */
  lemma ParsedPrintsTheSame(c: Colors, ns: seq<Node>, get: Properties, vars: Variables)
    requires !c.onlyColors && Proper(ns)
    ensures var o := ParseFrom(c, PrintNodes(ns), 0, []);
      o.Parsed? && Prints(get, vars, o.nodes) == Prints(get, vars, ns)
  {
    hide ParseFrom, PrintNodes, Proper, Prints, CanonAll;
    ParseOfPrinted(c, ns);
    CanonPrints(get, vars, ns);
  }
}
