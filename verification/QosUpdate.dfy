/** What updating or deleting one shape does to a kernel in step with the node's rows, for every
    outcome of the teardown. */
module QosUpdate {
  import opened Prelude
  import opened QosKernel
  import opened Qos
  import opened QosHost
  import opened QosRestore

  // ----- one shape among others -----

  ghost predicate SameMembers(a: seq<Shape>, b: seq<Shape>) {
    forall s :: s in a <==> s in b
  }

  /** Being in step is about which shapes there are, not about their order. */
  lemma InStepOfMembers(k: Kernel, a: seq<Shape>, b: seq<Shape>)
    requires SameMembers(a, b)
    ensures InStep(k, a) <==> InStep(k, b)
  {
    if InStep(k, a) { InStepCarries(k, a, b); }
    if InStep(k, b) { InStepCarries(k, b, a); }
  }

  lemma InStepCarries(k: Kernel, a: seq<Shape>, b: seq<Shape>)
    requires SameMembers(a, b) && InStep(k, a)
    ensures InStep(k, b)
  {
  }

  /** The other shapes of a listing. */
  function Others(live: seq<Shape>, i: nat): seq<Shape>
    requires i < |live|
  {
    live[..i] + live[i + 1..]
  }

  lemma OthersAre(live: seq<Shape>, i: nat, t: Shape)
    requires DistinctIds(live) && i < |live| && t.id == live[i].id
    ensures forall o :: o in Others(live, i) ==> o.id != live[i].id
    ensures SameMembers(live, Others(live, i) + [live[i]])
    ensures SameMembers(live[i := t], Others(live, i) + [t])
  {
    var others := Others(live, i);
    forall o | o in others ensures o.id != live[i].id {
      var j :| 0 <= j < |others| && others[j] == o;
      assert o == live[if j < i then j else j + 1];
    }
    assert live == live[..i] + [live[i]] + live[i + 1..];
    assert live[i := t] == live[..i] + [t] + live[i + 1..];
  }

  /** One shape, in step with the kernel next to the others. */
  ghost predicate Among(k: Kernel, others: seq<Shape>, s: Shape) {
    InStep(k, others + [s]) && forall o :: o in others ==> o.id != s.id
  }

  /** Another shape with a selector is on the bridge. */
  ghost predicate Neighbour(others: seq<Shape>, bridge: string) {
    exists o :: o in others && Matched(o) && o.bridge == bridge
  }

  /** Another whole-bridge shape is on the bridge. */
  ghost predicate Occupied(others: seq<Shape>, bridge: string) {
    exists o :: o in others && !Matched(o) && o.bridge == bridge
  }

  lemma WithOne(others: seq<Shape>, s: Shape)
    ensures forall x :: x in others + [s] <==> x in others || x == s
  {
  }

  predicate Complete(s: Shape, ran: nat) {
    ran == |RenderTCTeardown(s)|
  }

  lemma AmongClasses(k: Kernel, others: seq<Shape>, s: Shape, c: (string, string))
    requires Among(k, others, s)
    ensures c in k.classes <==> c == ClassOf(s) || exists o :: o in others && ClassOf(o) == c
    ensures forall o :: o in others ==> ClassOf(o) != ClassOf(s)
  {
    WithOne(others, s);
  }

  lemma AmongFilters(k: Kernel, others: seq<Shape>, s: Shape, f: Filter)
    requires Among(k, others, s)
    ensures f in k.filters <==>
      (Matched(s) && f == FilterOf(s)) || exists o :: o in others && Matched(o) && FilterOf(o) == f
    ensures f.id == s.id ==> (f in k.filters <==> Matched(s) && f == FilterOf(s))
  {
    WithOne(others, s);
  }

  // ----- deleting -----

  lemma DeletedClasses(k: Kernel, others: seq<Shape>, s: Shape, ran: nat)
    requires Among(k, others, s)
    ensures ExactClasses(TornDownTo(k, s, ran), others) <==> Complete(s, ran)
  {
    forall c { AmongClasses(k, others, s, c); }
    AmongClasses(k, others, s, ClassOf(s));
    assert Complete(s, ran) <==> ClassOf(s) !in TornDownTo(k, s, ran).classes;
  }

  lemma DeletedFilters(k: Kernel, others: seq<Shape>, s: Shape, ran: nat)
    requires Among(k, others, s)
    ensures ExactFilters(TornDownTo(k, s, ran), others) <==>
      (Matched(s) ==> ran > 0 && !Neighbour(others, s.bridge))
  {
    var torn := TornDownTo(k, s, ran);
    forall f { AmongFilters(k, others, s, f); }
    AmongFilters(k, others, s, FilterOf(s));
    if Matched(s) && ran == 0 {
      assert FilterOf(s) in torn.filters;
    } else if Matched(s) && Neighbour(others, s.bridge) {
      var o :| o in others && Matched(o) && o.bridge == s.bridge;
      assert FilterOf(o) !in torn.filters;
    }
  }

  lemma DeletedOthers(k: Kernel, others: seq<Shape>, s: Shape, ran: nat)
    requires Among(k, others, s)
    ensures AllInForce(TornDownTo(k, s, ran), others) <==> !(Matched(s) && ran > 0 && Neighbour(others, s.bridge))
  {
    var torn := TornDownTo(k, s, ran);
    assert forall o :: o in others ==> o in others + [s] && InForce(k, o);
    if Matched(s) && ran > 0 && Neighbour(others, s.bridge) {
      var o :| o in others && Matched(o) && o.bridge == s.bridge;
      assert !InForce(torn, o);
    }
  }

  lemma DeletedDefaults(k: Kernel, others: seq<Shape>, s: Shape, ran: nat)
    requires Among(k, others, s)
    ensures NoStrayDefault(TornDownTo(k, s, ran), others) <==> Matched(s)
  {
    assert s in others + [s] && InForce(k, s);
    WithOne(others, s);
  }

  /** Deleting a shape leaves the kernel in step with the other rows if and only if its teardown ran to
      its end, it had a selector, and no other shape with a selector is on its bridge. */
  lemma DeleteInStepIff(k: Kernel, live: seq<Shape>, i: nat, ran: nat)
    requires DistinctIds(live) && i < |live| && InStep(k, live)
    ensures var s, others := live[i], Others(live, i);
      InStep(TornDownTo(k, s, ran), others) <==> Complete(s, ran) && Matched(s) && !Neighbour(others, s.bridge)
  {
    var s, others := live[i], Others(live, i);
    OthersAre(live, i, s);
    InStepOfMembers(k, live, others + [s]);
    DeletedClasses(k, others, s, ran);
    DeletedFilters(k, others, s, ran);
    DeletedOthers(k, others, s, ran);
    DeletedDefaults(k, others, s, ran);
  }

  // ----- updating -----

  function UpdatedKernel(k: Kernel, s: Shape, ran: nat, t: Shape): Kernel {
    WithShape(TornDownTo(k, s, ran), t)
  }

  /** That is the kernel the log of an update that goes through leaves, whatever time it stores. */
  lemma UpdateLogDoes(store: Store, k: Kernel, s: Shape, ran: nat, t: Shape, now: int)
    ensures KernelAfter(k, UpdateLog(s, t, ran, now)) == UpdatedKernel(k, s, ran, t.(updatedAt := now))
  {
    UpdateAccounts(store, k, s, t, ran, now);
  }

  lemma UpdatedClass(k: Kernel, others: seq<Shape>, s: Shape, ran: nat, t: Shape, c: (string, string))
    requires Among(k, others, s) && t.id == s.id
    ensures c in UpdatedKernel(k, s, ran, t).classes <==>
      || c == ClassOf(t) || (c == ClassOf(s) && !Complete(s, ran))
      || exists o :: o in others && ClassOf(o) == c
  {
    AmongClasses(k, others, s, c);
  }

  lemma UpdatedClasses(k: Kernel, others: seq<Shape>, s: Shape, ran: nat, t: Shape)
    requires Among(k, others, s) && t.id == s.id
    ensures ExactClasses(UpdatedKernel(k, s, ran, t), others + [t]) <==> Complete(s, ran) || t.bridge == s.bridge
  {
    WithOne(others, t);
    forall c { UpdatedClass(k, others, s, ran, t, c); }
    UpdatedClass(k, others, s, ran, t, ClassOf(s));
    assert forall o :: o in others ==> ClassOf(o) != ClassOf(s);
  }

  /** The old filter of the shape is gone or is the new one's, and no neighbour's is. */
  ghost predicate FiltersFit(others: seq<Shape>, s: Shape, ran: nat, t: Shape) {
    Matched(s) ==> if ran > 0 then !Neighbour(others, s.bridge) else Matched(t) && FilterOf(t) == FilterOf(s)
  }

  /** The teardown, as far as it ran, takes the filter. */
  predicate TakesFilter(s: Shape, ran: nat, f: Filter) {
    Matched(s) && ran > 0 && f.bridge == s.bridge
  }

  lemma UpdatedFilter(k: Kernel, others: seq<Shape>, s: Shape, ran: nat, t: Shape, f: Filter)
    requires Among(k, others, s) && t.id == s.id
    ensures f in UpdatedKernel(k, s, ran, t).filters <==>
      || (Matched(t) && f == FilterOf(t))
      || (!TakesFilter(s, ran, f) &&
          ((Matched(s) && f == FilterOf(s)) || exists o :: o in others && Matched(o) && FilterOf(o) == f))
  {
    AmongFilters(k, others, s, f);
  }

  lemma UpdatedFilters(k: Kernel, others: seq<Shape>, s: Shape, ran: nat, t: Shape)
    requires Among(k, others, s) && t.id == s.id
    ensures ExactFilters(UpdatedKernel(k, s, ran, t), others + [t]) <==> FiltersFit(others, s, ran, t)
  {
    var now := UpdatedKernel(k, s, ran, t);
    WithOne(others, t);
    forall f { UpdatedFilter(k, others, s, ran, t, f); }
    UpdatedFilter(k, others, s, ran, t, FilterOf(s));
    assert forall o :: o in others ==> FilterOf(o).id == o.id && o.id != s.id;
    if Matched(s) && ran > 0 && Neighbour(others, s.bridge) {
      var o :| o in others && Matched(o) && o.bridge == s.bridge;
      assert FilterOf(o) !in now.filters && o in others + [t];
    }
  }

  lemma OtherInForce(k: Kernel, s: Shape, ran: nat, t: Shape, o: Shape)
    requires InForce(k, o) && o.id != s.id && t.id == s.id
    ensures InForce(UpdatedKernel(k, s, ran, t), o) <==>
      if Matched(o) then !(Matched(s) && ran > 0 && o.bridge == s.bridge) else o.bridge != t.bridge
  {
  }

  lemma UpdatedInForce(k: Kernel, others: seq<Shape>, s: Shape, ran: nat, t: Shape)
    requires Among(k, others, s) && t.id == s.id
    ensures AllInForce(UpdatedKernel(k, s, ran, t), others + [t]) <==>
      !(Matched(s) && ran > 0 && Neighbour(others, s.bridge)) && !Occupied(others, t.bridge)
  {
    var now := UpdatedKernel(k, s, ran, t);
    WithOne(others, t);
    Installs(TornDownTo(k, s, ran), t);
    forall o | o in others
      ensures InForce(now, o) <==>
        if Matched(o) then !(Matched(s) && ran > 0 && o.bridge == s.bridge) else o.bridge != t.bridge
    {
      assert o in others + [s] && InForce(k, o);
      OtherInForce(k, s, ran, t, o);
    }
    AllOfOthers(now, others, s, ran, t);
  }

  lemma Installs(k: Kernel, s: Shape)
    ensures InForce(WithShape(k, s), s)
  {
  }

  lemma AllOfOthers(now: Kernel, others: seq<Shape>, s: Shape, ran: nat, t: Shape)
    requires forall o :: o in others ==>
      (InForce(now, o) <==> if Matched(o) then !(Matched(s) && ran > 0 && o.bridge == s.bridge)
                            else o.bridge != t.bridge)
    ensures (forall o :: o in others ==> InForce(now, o)) <==>
      !(Matched(s) && ran > 0 && Neighbour(others, s.bridge)) && !Occupied(others, t.bridge)
  {
    if Matched(s) && ran > 0 && Neighbour(others, s.bridge) {
      var o :| o in others && Matched(o) && o.bridge == s.bridge;
      assert !InForce(now, o);
    }
    if Occupied(others, t.bridge) {
      var o :| o in others && !Matched(o) && o.bridge == t.bridge;
      assert !InForce(now, o);
    }
  }

  lemma UpdatedDefaults(k: Kernel, others: seq<Shape>, s: Shape, ran: nat, t: Shape)
    requires Among(k, others, s) && t.id == s.id
    ensures NoStrayDefault(UpdatedKernel(k, s, ran, t), others + [t]) <==> Matched(s) || t.bridge == s.bridge
  {
    var now := UpdatedKernel(k, s, ran, t);
    assert s in others + [s] && InForce(k, s);
    WithOne(others, s);
    WithOne(others, t);
    if !Matched(s) && t.bridge != s.bridge {
      assert now.defaults[s.bridge] == Some(s.id);
    } else {
      forall b | b in now.defaults && now.defaults[b].Some?
        ensures exists x :: x in others + [t] && !Matched(x) && x.bridge == b && now.defaults[b] == Some(x.id)
      {
        if b == t.bridge {
          assert t in others + [t];
        } else {
          var x :| x in others + [s] && !Matched(x) && x.bridge == b && k.defaults[b] == Some(x.id);
          assert x in others + [t];
        }
      }
    }
  }

  /** Updating a shape, for every outcome of the teardown before the new rendering: the kernel ends in
      step with the rows if and only if the old class went or is the new one, the old filter went or is
      the new one and took no neighbour's with it, no other whole-bridge shape is on the new bridge,
      and a shape that was its bridge's default stays on the bridge. */
  lemma UpdateInStepIff(k: Kernel, live: seq<Shape>, i: nat, ran: nat, t: Shape)
    requires DistinctIds(live) && i < |live| && InStep(k, live) && t.id == live[i].id
    ensures var s, others := live[i], Others(live, i);
      InStep(UpdatedKernel(k, s, ran, t), live[i := t]) <==>
        && (Complete(s, ran) || t.bridge == s.bridge)
        && FiltersFit(others, s, ran, t)
        && !Occupied(others, t.bridge)
        && (Matched(s) || t.bridge == s.bridge)
  {
    var s, others := live[i], Others(live, i);
    OthersAre(live, i, t);
    InStepOfMembers(k, live, others + [s]);
    InStepOfMembers(UpdatedKernel(k, s, ran, t), live[i := t], others + [t]);
    UpdatedClasses(k, others, s, ran, t);
    UpdatedFilters(k, others, s, ran, t);
    UpdatedInForce(k, others, s, ran, t);
    UpdatedDefaults(k, others, s, ran, t);
  }

  // ----- when tc itself never fails -----

  lemma InStepRunsWhole(k: Kernel, live: seq<Shape>, s: Shape)
    requires InStep(k, live) && s in live
    ensures Complete(s, LinesRun(k, s)) && LinesRun(k, s) > 0
  {
    assert InForce(k, s);
    assert Matched(s) ==> FilterOf(s) in k.filters && HasFilters(k, s.bridge);
  }

  /** With working tc an update keeps the kernel in step if and only if a shape with a selector has no
      neighbour with one on its bridge, no other whole-bridge shape is on the new bridge, and a
      whole-bridge shape stays on its bridge. */
  lemma WorkingUpdateIff(k: Kernel, live: seq<Shape>, i: nat, t: Shape)
    requires DistinctIds(live) && i < |live| && InStep(k, live) && t.id == live[i].id
    ensures var s, others := live[i], Others(live, i);
      InStep(UpdatedKernel(k, s, LinesRun(k, s), t), live[i := t]) <==>
        && (Matched(s) ==> !Neighbour(others, s.bridge))
        && !Occupied(others, t.bridge)
        && (!Matched(s) ==> t.bridge == s.bridge)
  {
    assert live[i] in live;
    InStepRunsWhole(k, live, live[i]);
    UpdateInStepIff(k, live, i, LinesRun(k, live[i]), t);
  }

  /** And a deletion if and only if the shape has a selector and no neighbour with one. */
  lemma WorkingDeleteIff(k: Kernel, live: seq<Shape>, i: nat)
    requires DistinctIds(live) && i < |live| && InStep(k, live)
    ensures var s, others := live[i], Others(live, i);
      InStep(TornDownTo(k, s, LinesRun(k, s)), others) <==> Matched(s) && !Neighbour(others, s.bridge)
  {
    assert live[i] in live;
    InStepRunsWhole(k, live, live[i]);
    DeleteInStepIff(k, live, i, LinesRun(k, live[i]));
  }

  /** The input: two shapes with selectors on one bridge, rendered and in step, and a new rate for the
      first. The update takes the second one's filter away. */
  lemma RateUpdateTakesTheNeighbour(a: Shape, b: Shape, rate: int)
    requires a.id != b.id && Matched(a) && Matched(b) && a.bridge == b.bridge
    ensures var k, t := WithShapes(EMPTY, [a, b]), a.(rate := rate);
      InStep(k, [a, b]) && !InStep(UpdatedKernel(k, a, LinesRun(k, a), t), [t, b])
  {
    var live, t := [a, b], a.(rate := rate);
    assert DistinctIds(live) && WholeBridgesLast(live);
    RenderedIsInStep(live);
    WorkingUpdateIff(WithShapes(EMPTY, live), live, 0, t);
    assert live[0 := t] == [t, b] && Others(live, 0) == [b];
    assert b in [b];
  }
}
