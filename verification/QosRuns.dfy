/** The kernel over a whole run of restores: any number of them interrupted anywhere, and then one that
    completes. */
module QosRuns {
  import opened Prelude
  import opened QosKernel
  import opened Qos
  import opened QosHost
  import opened QosRestore

  // ----- what a log takes away -----

  /** A teardown of the log got as far as the class. */
  ghost predicate FreedIn(log: seq<Event>, c: (string, string)) {
    exists e :: e in log && Frees(e, c)
  }

  predicate Frees(e: Event, c: (string, string)) {
    e.TearDown? && ClassOf(e.shape) == c && e.ran == |RenderTCTeardown(e.shape)|
  }

  /** A teardown of the log cleared the bridge of filters. */
  ghost predicate ClearedIn(log: seq<Event>, bridge: string) {
    exists e :: e in log && Clears(e, bridge)
  }

  predicate Clears(e: Event, bridge: string) {
    e.TearDown? && Matched(e.shape) && e.shape.bridge == bridge && e.ran > 0
  }

  ghost predicate ClassWanted(want: seq<Shape>, c: (string, string)) {
    exists s :: s in want && ClassOf(s) == c
  }

  ghost predicate FilterWanted(want: seq<Shape>, f: Filter) {
    exists s :: s in want && Matched(s) && FilterOf(s) == f
  }

  /** Only wanted shapes are rendered. */
  ghost predicate RendersWanted(log: seq<Event>, want: seq<Shape>) {
    forall e :: e in log && e.Render? ==> e.shape in want
  }

  /** Outside what is wanted, the kernel is the first one less what the log took away. */
  ghost predicate ClassesLeft(k: Kernel, log: seq<Event>, want: seq<Shape>, now: Kernel) {
    forall c :: !ClassWanted(want, c) ==> (c in now.classes <==> c in k.classes && !FreedIn(log, c))
  }

  ghost predicate FiltersLeft(k: Kernel, log: seq<Event>, want: seq<Shape>, now: Kernel) {
    forall f :: !FilterWanted(want, f) ==> (f in now.filters <==> f in k.filters && !ClearedIn(log, f.bridge))
  }

  ghost predicate DefaultsLeft(k: Kernel, want: seq<Shape>, now: Kernel) {
    forall b :: !OnBridge(want, b) ==>
      (b in now.defaults <==> b in k.defaults) && (b in now.defaults ==> now.defaults[b] == k.defaults[b])
  }

  ghost predicate Left(k: Kernel, log: seq<Event>, want: seq<Shape>, now: Kernel) {
    ClassesLeft(k, log, want, now) && FiltersLeft(k, log, want, now) && DefaultsLeft(k, want, now)
  }

  lemma NothingTaken(k: Kernel, want: seq<Shape>)
    ensures Left(k, [], want, k)
  {
  }

  lemma TakenJoin(a: seq<Event>, b: seq<Event>)
    ensures forall c :: FreedIn(a + b, c) <==> FreedIn(a, c) || FreedIn(b, c)
    ensures forall bridge :: ClearedIn(a + b, bridge) <==> ClearedIn(a, bridge) || ClearedIn(b, bridge)
  {
    assert forall e :: e in a + b <==> e in a || e in b;
  }

  lemma LeftJoin(k: Kernel, a: seq<Event>, want: seq<Shape>, mid: Kernel, b: seq<Event>, now: Kernel)
    requires Left(k, a, want, mid) && Left(mid, b, want, now)
    ensures Left(k, a + b, want, now)
  {
    TakenJoin(a, b);
  }

  lemma OneTeardown(k: Kernel, s: Shape, ran: nat, want: seq<Shape>)
    ensures Left(k, [TearDown(s, ran)], want, TornDownTo(k, s, ran))
  {
    var e := TearDown(s, ran);
    assert forall x :: x in [e] <==> x == e;
    forall c ensures FreedIn([e], c) <==> Frees(e, c) { if Frees(e, c) { assert e in [e]; } }
    forall b ensures ClearedIn([e], b) <==> Clears(e, b) { if Clears(e, b) { assert e in [e]; } }
  }

  /** Nothing but what is wanted was added, and nothing taken. */
  lemma OnlyWantedAdded(k: Kernel, log: seq<Event>, want: seq<Shape>, now: Kernel)
    requires forall e :: e in log ==> !e.TearDown?
    requires forall c :: !ClassWanted(want, c) ==> (c in now.classes <==> c in k.classes)
    requires forall f :: !FilterWanted(want, f) ==> (f in now.filters <==> f in k.filters)
    requires DefaultsLeft(k, want, now)
    ensures Left(k, log, want, now)
  {
  }

  lemma OneRendering(k: Kernel, s: Shape, want: seq<Shape>)
    requires s in want
    ensures Left(k, [Render(s)], want, WithShape(k, s))
  {
    assert ClassWanted(want, ClassOf(s));
    assert Matched(s) ==> FilterWanted(want, FilterOf(s));
    assert OnBridge(want, s.bridge);
    OnlyWantedAdded(k, [Render(s)], want, WithShape(k, s));
  }

  /** A line of a wanted shape's rendering touches only what is wanted. */
  lemma RenderedLine(k: Kernel, s: Shape, line: Line, want: seq<Shape>)
    requires s in want && RenderTC(s).Some? && line in RenderTC(s).value && ExecLine(k, line).Some?
    ensures Left(k, [], want, ExecLine(k, line).value)
  {
    assert ClassWanted(want, ClassOf(s));
    assert Matched(s) ==> FilterWanted(want, FilterOf(s));
    assert OnBridge(want, s.bridge);
  }

  lemma {:induction false} RenderedLines(k: Kernel, s: Shape, lines: seq<Line>, want: seq<Shape>)
    requires s in want && RenderTC(s).Some? && forall line :: line in lines ==> line in RenderTC(s).value
    ensures Left(k, [], want, Run(k, lines).0)
    decreases |lines|
  {
    if lines == [] {
      NothingTaken(k, want);
    } else {
      assert lines[0] in lines;
      match ExecLine(k, lines[0])
      case None => NothingTaken(k, want);
      case Some(next) =>
        RenderedLine(k, s, lines[0], want);
        RenderedLines(next, s, lines[1..], want);
        var none: seq<Event> := [];
        LeftJoin(k, none, want, next, none, Run(next, lines[1..]).0);
        assert none + none == none;
    }
  }

  lemma PartRendering(k: Kernel, s: Shape, want: seq<Shape>, now: Kernel)
    requires s in want && RenderedInPart(k, s, now)
    ensures Left(k, [Render(s)], want, now)
  {
    var lines := RenderTC(s).value;
    var n :| 0 <= n <= |lines| && Run(k, lines[..n]) == (now, true);
    assert forall line :: line in lines[..n] ==> line in lines;
    RenderedLines(k, s, lines[..n], want);
    assert forall c :: !FreedIn([], c);
    assert forall b :: !ClearedIn([], b);
    OnlyWantedAdded(k, [Render(s)], want, now);
  }

  lemma OneEvent(k: Kernel, e: Event, want: seq<Shape>)
    requires e.Render? ==> e.shape in want
    ensures Left(k, [e], want, KernelEffect(k, e))
  {
    match e
    case TearDown(s, ran) => OneTeardown(k, s, ran, want);
    case Render(s) => OneRendering(k, s, want);
    case _ => OnlyWantedAdded(k, [e], want, k);
  }

  lemma {:induction false} LogLeaves(k: Kernel, log: seq<Event>, want: seq<Shape>)
    requires RendersWanted(log, want)
    ensures Left(k, log, want, KernelAfter(k, log))
  {
    if log == [] {
      NothingTaken(k, want);
    } else {
      var n := |log| - 1;
      var front, last := log[..n], log[n];
      assert forall e :: e in front ==> e in log;
      assert last in log;
      LogLeaves(k, front, want);
      OneEvent(KernelAfter(k, front), last, want);
      LeftJoin(k, front, want, KernelAfter(k, front), [last], KernelAfter(k, log));
      assert front + [last] == log;
    }
  }

  /** Whatever call of an attempt failed, outside what is wanted the kernel is the one before less what
      its log took away. */
  lemma AccountedLeaves(store: Store, k: Kernel, log: seq<Event>, ok: bool, nowStore: Store, now: Kernel,
                        want: seq<Shape>)
    requires Accounts(store, k, log, ok, nowStore, now) && RendersWanted(log, want)
    ensures Left(k, log, want, now)
  {
    LogLeaves(k, log, want);
    if now != KernelAfter(k, log) {
      var n := |log| - 1;
      var front, last := log[..n], log[n];
      assert forall e :: e in front ==> e in log;
      assert last in log;
      LogLeaves(k, front, want);
      PartRendering(KernelAfter(k, front), last.shape, want, now);
      LeftJoin(k, front, want, KernelAfter(k, front), [last], now);
      assert front + [last] == log && last == Render(last.shape);
    }
  }

  // ----- runs -----

  /** One restore with its log. */
  ghost predicate Logged(node: string, want: seq<Shape>, before: (Store, Kernel), after: (Store, Kernel), ok: bool,
                         log: seq<Event>)
  {
    exists live, done, tears, puts ::
      AttemptLogged(node, want, before, after, ok, live, done, tears, puts) && log == DropLog(done, tears) + puts
  }

  lemma {:induction false} DropsRenderNothing(ds: seq<Shape>, tears: seq<nat>)
    requires |ds| == |tears|
    ensures forall e :: e in DropLog(ds, tears) ==> !e.Render?
  {
    if ds != [] { DropsRenderNothing(ds[..|ds| - 1], tears[..|ds| - 1]); }
  }

  lemma {:induction false} PutsRenderWanted(want: seq<Shape>)
    ensures forall e :: e in PutLog(want) ==> (e.Render? ==> e.shape in want) && !e.TearDown?
  {
    if want != [] {
      var n := |want| - 1;
      PutsRenderWanted(want[..n]);
      assert forall s :: s in want[..n] ==> s in want;
      assert want[n] in want;
    }
  }

  lemma LoggedRendersWanted(node: string, want: seq<Shape>, before: (Store, Kernel), after: (Store, Kernel), ok: bool,
                            log: seq<Event>)
    requires Logged(node, want, before, after, ok, log)
    ensures RendersWanted(log, want) && Left(before.1, log, want, after.1)
  {
    var live, done, tears, puts :|
      AttemptLogged(node, want, before, after, ok, live, done, tears, puts) && log == DropLog(done, tears) + puts;
    DropsRenderNothing(done, tears);
    PutsRenderWanted(want);
    assert forall e :: e in puts ==> e in PutLog(want);
    assert forall e :: e in log <==> e in DropLog(done, tears) || e in puts;
    AccountedLeaves(before.0, before.1, log, ok, after.0, after.1, want);
  }

  function Joined(logs: seq<seq<Event>>): seq<Event> {
    if logs == [] then [] else Joined(logs[..|logs| - 1]) + logs[|logs| - 1]
  }

  /** Attempts one after the other, each with its log. */
  ghost predicate IsRun(node: string, want: seq<Shape>, states: seq<(Store, Kernel)>, oks: seq<bool>,
                        logs: seq<seq<Event>>) {
    && |states| == |oks| + 1 == |logs| + 1
    && forall i :: 0 <= i < |oks| ==> Logged(node, want, states[i], states[i + 1], oks[i], logs[i])
  }

  lemma {:induction false} RunLeaves(node: string, want: seq<Shape>, states: seq<(Store, Kernel)>, oks: seq<bool>,
                                    logs: seq<seq<Event>>, n: nat)
    requires IsRun(node, want, states, oks, logs) && n <= |logs|
    ensures Left(states[0].1, Joined(logs[..n]), want, states[n].1)
  {
    if n == 0 {
      NothingTaken(states[0].1, want);
    } else {
      RunLeaves(node, want, states, oks, logs, n - 1);
      assert Logged(node, want, states[n - 1], states[n], oks[n - 1], logs[n - 1]);
      LoggedRendersWanted(node, want, states[n - 1], states[n], oks[n - 1], logs[n - 1]);
      LeftJoin(states[0].1, Joined(logs[..n - 1]), want, states[n - 1].1, logs[n - 1], states[n].1);
      assert logs[..n][..n - 1] == logs[..n - 1];
    }
  }

  // ----- a run that completes -----

  ghost predicate NoClassSurvives(k: Kernel, log: seq<Event>, want: seq<Shape>) {
    forall c :: c in k.classes ==> FreedIn(log, c) || ClassWanted(want, c)
  }

  ghost predicate NoFilterSurvives(k: Kernel, log: seq<Event>, want: seq<Shape>) {
    forall f :: f in k.filters ==> ClearedIn(log, f.bridge) || FilterWanted(want, f)
  }

  lemma CompletedKernel(node: string, want: seq<Shape>, before: (Store, Kernel), after: (Store, Kernel),
                        log: seq<Event>)
    returns (torn: Kernel)
    requires Logged(node, want, before, after, true, log)
    ensures after.1 == WithShapes(torn, want)
  {
    var live, done, tears, puts :|
      AttemptLogged(node, want, before, after, true, live, done, tears, puts) && log == DropLog(done, tears) + puts;
    LogJoin(before.0, before.1, DropLog(done, tears), puts);
    torn := KernelAfter(before.1, DropLog(done, tears));
    PutLogDoes(before.0, torn, want);
  }

  lemma SurvivorsDecide(k: Kernel, log: seq<Event>, want: seq<Shape>, torn: Kernel)
    requires Left(k, log, want, WithShapes(torn, want))
    ensures ExactClasses(WithShapes(torn, want), want) <==> NoClassSurvives(k, log, want)
    ensures ExactFilters(WithShapes(torn, want), want) <==> NoFilterSurvives(k, log, want)
  {
    var now := WithShapes(torn, want);
    WithShapesHolds(torn, want);
    assert forall c :: ClassWanted(want, c) ==> c in now.classes;
    assert forall f :: FilterWanted(want, f) ==> f in now.filters;
    assert ExactClasses(now, want) <==> forall c :: c in now.classes <==> ClassWanted(want, c);
    assert ExactFilters(now, want) <==> forall f :: f in now.filters <==> FilterWanted(want, f);
  }

  lemma DefaultsSurvive(k: Kernel, want: seq<Shape>, torn: Kernel)
    requires DefaultsLeft(k, want, WithShapes(torn, want))
    ensures NoStrayDefault(WithShapes(torn, want), want) <==> NoDefaultLeft(k, want)
  {
    var now := WithShapes(torn, want);
    forall b { DefaultsDecided(torn, want, b); }
    assert forall b :: b in k.defaults && !OnBridge(want, b) ==> b in now.defaults && now.defaults[b] == k.defaults[b];
  }

  /** Over any number of attempts, interrupted anywhere, of which the last completes: the kernel ends in
      step with the snapshot if and only if every class and every filter the run began with is wanted
      or was taken away by a teardown of one of the attempts, every whole-bridge shape of the snapshot
      is the last on its bridge, and no default the run began with is on a bridge left empty. */
  lemma RunEndsInStepIff(node: string, want: seq<Shape>, states: seq<(Store, Kernel)>, oks: seq<bool>,
                         logs: seq<seq<Event>>)
    requires IsRun(node, want, states, oks, logs) && DistinctIds(want)
    requires oks != [] && oks[|oks| - 1]
    ensures InStep(states[|oks|].1, want) <==>
      && NoClassSurvives(states[0].1, Joined(logs), want) && NoFilterSurvives(states[0].1, Joined(logs), want)
      && WholeBridgesLast(want) && NoDefaultLeft(states[0].1, want)
  {
    var n := |oks|;
    RunLeaves(node, want, states, oks, logs, n);
    assert logs[..n] == logs;
    assert Logged(node, want, states[n - 1], states[n], true, logs[n - 1]);
    var torn := CompletedKernel(node, want, states[n - 1], states[n], logs[n - 1]);
    SurvivorsDecide(states[0].1, Joined(logs), want, torn);
    DefaultsSurvive(states[0].1, want, torn);
    OrderDecides(torn, want);
  }
}
