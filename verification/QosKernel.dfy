/** Traffic shapes as tc sees them: what each command line does to a node's queueing state, and the
    lines that install and remove a shape. A line is modelled by what its arguments say; two lines
    with the same arguments are the same line. */
module QosKernel {
  import opened Prelude

  /** A stored shape. */
  datatype Shape = Shape(id: string, node: string, bridge: string, matchCidr: string, matchVlan: Option<int>,
                         rate: int, ceil: Option<int>, priority: Option<int>,
                         createdBy: string, createdAt: int, updatedAt: int)

  datatype Params = Params(rate: int, ceil: Option<int>, priority: Option<int>)

  /** A selector filter on a bridge, sending what it matches into a shape's class. */
  datatype Filter = Filter(bridge: string, matchCidr: string, matchVlan: Option<int>, id: string)

  /** A class is named by its bridge and its shape. The default target of a bridge's root qdisc is a
      shape's class, or None for the reserved unclassified one. */
  datatype Kernel = Kernel(classes: map<(string, string), Params>, filters: set<Filter>,
                           defaults: map<string, Option<string>>)

  /** `tc` command lines. Deleting filters names the bridge and the priority every shape shares, and
      nothing else. */
  datatype Line =
    | ReplaceQdisc(bridge: string, target: Option<string>)
    | ReplaceClass(bridge: string, id: string, params: Params)
    | ReplaceFilter(filter: Filter)
    | DeleteFilters(bridge: string)
    | DeleteClass(bridge: string, id: string)

  predicate Matched(s: Shape) {
    s.matchCidr != "" || s.matchVlan.Some?
  }

  function FilterOf(s: Shape): Filter {
    Filter(s.bridge, s.matchCidr, s.matchVlan, s.id)
  }

  function ParamsOf(s: Shape): Params {
    Params(s.rate, s.ceil, s.priority)
  }

  function ClassOf(s: Shape): (string, string) {
    (s.bridge, s.id)
  }

  /** The lines that realise a shape, or None when it is invalid. */
  function RenderTC(s: Shape): (lines: Option<seq<Line>>)
    ensures lines.Some? <==> s.bridge != "" && s.rate > 0 && (s.ceil.Some? ==> s.ceil.value >= s.rate)
  {
    if s.bridge == "" || s.rate <= 0 || (s.ceil.Some? && s.ceil.value < s.rate) then None
    else
      Some([ReplaceQdisc(s.bridge, if Matched(s) then None else Some(s.id)), ReplaceClass(s.bridge, s.id, ParamsOf(s))]
           + if Matched(s) then [ReplaceFilter(FilterOf(s))] else [])
  }

  function RenderTCTeardown(s: Shape): seq<Line> {
    (if Matched(s) then [DeleteFilters(s.bridge)] else []) + [DeleteClass(s.bridge, s.id)]
  }

  predicate HasFilters(k: Kernel, bridge: string) {
    exists f :: f in k.filters && f.bridge == bridge
  }

  /** One line: replacing always succeeds, and a filter with new match content is one more filter;
      deleting what is not there fails. */
  function ExecLine(k: Kernel, line: Line): Option<Kernel> {
    match line
    case ReplaceQdisc(bridge, target) => Some(k.(defaults := k.defaults[bridge := target]))
    case ReplaceClass(bridge, id, params) => Some(k.(classes := k.classes[(bridge, id) := params]))
    case ReplaceFilter(filter) => Some(k.(filters := k.filters + {filter}))
    case DeleteFilters(bridge) =>
      if HasFilters(k, bridge) then Some(k.(filters := set f | f in k.filters && f.bridge != bridge)) else None
    case DeleteClass(bridge, id) =>
      if (bridge, id) in k.classes then Some(k.(classes := k.classes - {(bridge, id)})) else None
  }

  /** Lines in order, up to the first that fails. */
  function Run(k: Kernel, lines: seq<Line>): (r: (Kernel, bool))
    decreases |lines|
  {
    if lines == [] then (k, true)
    else
      match ExecLine(k, lines[0])
      case None => (k, false)
      case Some(next) => Run(next, lines[1..])
  }

  /** The kernel with a shape installed. */
  function WithShape(k: Kernel, s: Shape): Kernel {
    Kernel(k.classes[ClassOf(s) := ParamsOf(s)],
           if Matched(s) then k.filters + {FilterOf(s)} else k.filters,
           k.defaults[s.bridge := if Matched(s) then None else Some(s.id)])
  }

  /** A shape is in force: its class has its rate, ceiling and priority, and traffic reaches the class
      through a filter with the shape's selector when there is an address or a VLAN to match, and
      otherwise as the bridge's default. */
  ghost predicate InForce(k: Kernel, s: Shape) {
    && (s.bridge, s.id) in k.classes
    && k.classes[(s.bridge, s.id)].rate == s.rate
    && k.classes[(s.bridge, s.id)].ceil == s.ceil
    && k.classes[(s.bridge, s.id)].priority == s.priority
    && if s.matchCidr != "" || s.matchVlan.Some? then Filter(s.bridge, s.matchCidr, s.matchVlan, s.id) in k.filters
       else s.bridge in k.defaults && k.defaults[s.bridge] == Some(s.id)
  }

  /** The lines of a valid shape always run through, install it, and leave it in force. */
  lemma RenderInstalls(k: Kernel, s: Shape)
    requires RenderTC(s).Some?
    ensures Run(k, RenderTC(s).value) == (WithShape(k, s), true)
    ensures InForce(WithShape(k, s), s)
  {
    var first := ReplaceQdisc(s.bridge, if Matched(s) then None else Some(s.id));
    var second := ReplaceClass(s.bridge, s.id, ParamsOf(s));
    var rest := if Matched(s) then [ReplaceFilter(FilterOf(s))] else [];
    assert RenderTC(s).value == [first] + ([second] + rest);
    var k1 := ExecLine(k, first).value;
    RunOne(k, first, [second] + rest);
    RunOne(k1, second, rest);
    if Matched(s) { RunOne(ExecLine(k1, second).value, rest[0], []); }
  }

  /** No line of a rendering ever fails for want of something to work on. */
  lemma RenderNeverStops(k: Kernel, s: Shape, n: nat)
    requires RenderTC(s).Some? && n < |RenderTC(s).value|
    ensures ExecLine(k, RenderTC(s).value[n]).Some?
  {
  }

  lemma RunOne(k: Kernel, line: Line, rest: seq<Line>)
    requires ExecLine(k, line).Some?
    ensures Run(k, [line] + rest) == Run(ExecLine(k, line).value, rest)
  {
    assert ([line] + rest)[1..] == rest;
  }

  lemma {:induction false} RunOneMore(k: Kernel, lines: seq<Line>, line: Line)
    requires Run(k, lines).1
    ensures Run(k, lines + [line])
         == match ExecLine(Run(k, lines).0, line) case None => (Run(k, lines).0, false) case Some(next) => (next, true)
    decreases |lines|
  {
    if lines == [] {
      assert lines + [line] == [line];
      assert [line][1..] == [];
    } else {
      assert (lines + [line])[1..] == lines[1..] + [line];
      RunOneMore(ExecLine(k, lines[0]).value, lines[1..], line);
    }
  }

  /** A kernel nothing has been rendered into. */
  const EMPTY := Kernel(map[], {}, map[])

  // ----- teardowns, as far as they get -----

  /** A kernel after the first `ran` lines of a shape's teardown took effect. */
  function TornDownTo(k: Kernel, s: Shape, ran: nat): Kernel {
    Kernel(if ran == |RenderTCTeardown(s)| then k.classes - {ClassOf(s)} else k.classes,
           if Matched(s) && ran > 0 then set f | f in k.filters && f.bridge != s.bridge else k.filters,
           k.defaults)
  }

  /** The first `ran` lines of the teardown can take effect: what they delete is there. */
  predicate CanRun(k: Kernel, s: Shape, ran: nat) {
    && ran <= |RenderTCTeardown(s)|
    && (Matched(s) && ran > 0 ==> HasFilters(k, s.bridge))
    && (ran == |RenderTCTeardown(s)| ==> ClassOf(s) in k.classes)
  }

  /** How far a teardown gets when tc itself never fails. */
  function LinesRun(k: Kernel, s: Shape): nat {
    if Matched(s) then
      if !HasFilters(k, s.bridge) then 0 else if ClassOf(s) in k.classes then 2 else 1
    else if ClassOf(s) in k.classes then 1 else 0
  }

  lemma TeardownPrefix(k: Kernel, s: Shape, n: nat)
    requires n <= |RenderTCTeardown(s)|
    ensures Run(k, RenderTCTeardown(s)[..n]).1 <==> CanRun(k, s, n)
    ensures CanRun(k, s, n) ==> Run(k, RenderTCTeardown(s)[..n]).0 == TornDownTo(k, s, n)
  {
    var lines := RenderTCTeardown(s);
    if n == 0 {
      assert lines[..0] == [];
    } else if Matched(s) {
      assert lines[..n] == [DeleteFilters(s.bridge)] + lines[1..n];
      assert lines[1..n] == if n == 1 then [] else [DeleteClass(s.bridge, s.id)] + [];
      if HasFilters(k, s.bridge) {
        RunOne(k, DeleteFilters(s.bridge), lines[1..n]);
        if n == 2 { OneDelete(TornDownTo(k, s, 1), s); }
      }
    } else {
      assert lines[..n] == [DeleteClass(s.bridge, s.id)] + [];
      OneDelete(k, s);
    }
  }

  lemma OneDelete(k: Kernel, s: Shape)
    ensures var run := Run(k, [DeleteClass(s.bridge, s.id)] + []);
      && (run.1 <==> ClassOf(s) in k.classes)
      && run.0 == k.(classes := k.classes - {ClassOf(s)})
  {
    assert ([DeleteClass(s.bridge, s.id)] + [])[1..] == [];
    if ClassOf(s) !in k.classes { assert k.classes - {ClassOf(s)} == k.classes; }
  }

  /** A teardown that stopped only where the next line had nothing to delete got as far as it can. */
  lemma StopsAtLinesRun(k: Kernel, s: Shape, n: nat)
    requires CanRun(k, s, n)
    requires n < |RenderTCTeardown(s)| ==> ExecLine(TornDownTo(k, s, n), RenderTCTeardown(s)[n]).None?
    ensures n == LinesRun(k, s)
  {
  }

  /** What a teardown does when tc works: nothing at all when a filter is expected and the bridge has
      none; otherwise every filter of the bridge goes, and then the shape's class. */
  lemma TeardownRuns(k: Kernel, s: Shape)
    ensures CanRun(k, s, LinesRun(k, s))
    ensures Matched(s) && !HasFilters(k, s.bridge) ==> TornDownTo(k, s, LinesRun(k, s)) == k
    ensures !(Matched(s) && !HasFilters(k, s.bridge)) ==>
      var torn := TornDownTo(k, s, LinesRun(k, s));
      && torn.classes == k.classes - {ClassOf(s)}
      && torn.filters == (if Matched(s) then set f | f in k.filters && f.bridge != s.bridge else k.filters)
      && torn.defaults == k.defaults
  {
    if ClassOf(s) !in k.classes { assert k.classes - {ClassOf(s)} == k.classes; }
  }

  /** The teardown lines of two matched shapes on one bridge start with the same line, so it cannot be
      the filter of the one and not of the other that it removes. When a teardown runs, a matched
      shape on the same bridge goes out of force, and any other shape stays exactly as it was. */
  lemma TeardownHitsTheBridge(k: Kernel, torn: Shape, other: Shape)
    requires torn.id != other.id && InForce(k, other)
    ensures Matched(torn) && Matched(other) && torn.bridge == other.bridge ==>
      RenderTCTeardown(torn)[0] == RenderTCTeardown(other)[0]
    ensures InForce(TornDownTo(k, torn, LinesRun(k, torn)), other)
      <==> !(Matched(torn) && Matched(other) && torn.bridge == other.bridge)
  {
    if Matched(other) { assert HasFilters(k, other.bridge); }
  }

  /** The input: two shapes with selectors, rendered on one bridge. Both are in force until the first
      is torn down, and then neither is. */
  lemma TeardownTakesTheNeighbour(a: Shape, b: Shape)
    requires a.id != b.id && Matched(a) && Matched(b) && a.bridge == b.bridge
    ensures var k := WithShape(WithShape(EMPTY, a), b);
      && InForce(k, a) && InForce(k, b)
      && !InForce(TornDownTo(k, a, LinesRun(k, a)), b)
  {
    var k := WithShape(WithShape(EMPTY, a), b);
    TeardownHitsTheBridge(k, a, b);
  }
}
