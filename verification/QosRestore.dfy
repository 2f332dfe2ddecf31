/** What restoring a QoS snapshot achieves: in the store, and in the kernel. */
module QosRestore {
  import opened Prelude
  import opened QosKernel
  import opened Qos
  import opened QosHost

  // ----- the store -----

  predicate SameRendering(a: Shape, b: Shape) {
    && a.id == b.id && a.bridge == b.bridge && a.rate == b.rate && a.ceil == b.ceil && a.priority == b.priority
    && a.matchCidr == b.matchCidr && a.matchVlan == b.matchVlan
  }

  predicate SameOrigin(a: Shape, b: Shape) {
    a.node == b.node && a.createdBy == b.createdBy && a.createdAt == b.createdAt
  }

  /** No captured id is alive on another node. */
  ghost predicate NoneElsewhere(live: Store, node: string, want: seq<Shape>) {
    forall s :: s in want && s.id in live ==> InScope(live[s.id], node)
  }

  /** What a restore leaves in each row. */
  lemma RestoredRow(live: Store, node: string, want: seq<Shape>, id: string)
    requires DistinctIds(want)
    ensures var back := RestoredStore(live, node, want);
      && (id in back <==> id in Ids(want) || (id in live && !InScope(live[id], node)))
      && (id in back && id !in Ids(want) ==> back[id] == live[id])
      && (forall s :: s in want && s.id == id ==>
            back[id] == if id in live then Updated(live[id], s) else s)
  {
    var kept := Kept(live, node, want);
    PutAllAt(kept, want, id);
    forall s | s in want && s.id == id
      ensures RestoredStore(live, node, want)[id] == if id in live then Updated(live[id], s) else s
    {
      var i :| 0 <= i < |want| && want[i] == s;
      assert id in Ids(want);
    }
  }

  /** Capture a node's shapes, let anything happen to the store, restore. Every captured row is back
      with its whole rendering, and exactly as captured when it had gone or when the row that lives
      has the captured node and creation fields, which an update never writes. The node's rows are
      exactly the captured ones by id if and only if no captured id is alive on another node; such a
      row stays on its node, and is left untouched if and only if it already reads as the captured
      one. Every other row of another node is untouched. */
  lemma SnapshotComesBack(captured: Store, node: string, want: seq<Shape>, live: Store)
    requires KeyedById(captured) && IsListing(captured, node, want) && KeyedById(live)
    ensures var back := RestoredStore(live, node, want);
      && (forall s :: s in want ==> s.id in back && SameRendering(back[s.id], s))
      && (forall s :: s in want ==> (back[s.id] == s <==> s.id !in live || SameOrigin(live[s.id], s)))
      && ((forall id :: id in back && InScope(back[id], node) <==> id in Ids(want)) <==>
        NoneElsewhere(live, node, want))
      && (forall id :: id in live && !InScope(live[id], node) ==> id in back && !InScope(back[id], node))
      && (forall id :: id in live && !InScope(live[id], node) ==>
            (back[id] == live[id] <==> forall s :: s in want && s.id == id ==> live[id] == Updated(live[id], s)))
  {
    var back := RestoredStore(live, node, want);
    forall id ensures id in live && !InScope(live[id], node) ==>
                && id in back && !InScope(back[id], node)
                && (back[id] == live[id] <==> forall s :: s in want && s.id == id ==> live[id] == Updated(live[id], s))
    {
      RestoredRow(live, node, want, id);
      if id in Ids(want) { var s :| s in want && s.id == id; }
    }
    forall s | s in want
      ensures s.id in back && back[s.id] == if s.id in live then Updated(live[s.id], s) else s
    {
      RestoredRow(live, node, want, s.id);
      assert s.id in Ids(want);
    }
    RowsOfTheNode(captured, node, want, live);
  }

  lemma RowsOfTheNode(captured: Store, node: string, want: seq<Shape>, live: Store)
    requires KeyedById(captured) && IsListing(captured, node, want)
    ensures var back := RestoredStore(live, node, want);
      (forall id :: id in back && InScope(back[id], node) <==> id in Ids(want)) <==> NoneElsewhere(live, node, want)
  {
    var back := RestoredStore(live, node, want);
    forall id
      ensures (id in back && InScope(back[id], node) <==> id in Ids(want))
         <==> forall s :: s in want && s.id == id && id in live ==> InScope(live[id], node)
    {
      RestoredRow(live, node, want, id);
      if id in Ids(want) { var s :| s in want && s.id == id; }
    }
    if NoneElsewhere(live, node, want) {
      forall id ensures id in back && InScope(back[id], node) <==> id in Ids(want) {}
    } else {
      var s :| s in want && s.id in live && !InScope(live[s.id], node);
      assert !(s.id in back && InScope(back[s.id], node) <==> s.id in Ids(want));
    }
  }

  /** The input: a shape deleted and created again by someone else is back with its rendering, and
      with the other's name on it. */
  lemma OtherOriginStays(s: Shape, other: string)
    requires other != s.createdBy
    ensures var live := map[s.id := s.(createdBy := other)];
      && IsListing(map[s.id := s], s.node, [s])
      && RestoredStore(live, s.node, [s])[s.id] == s.(createdBy := other) != s
  {
    var live := map[s.id := s.(createdBy := other)];
    RestoredRow(live, s.node, [s], s.id);
    assert s in [s];
  }

  // ----- the kernel: what is in force -----

  /** A later shape of another id never takes a class or a filter away; it takes the bridge's default
      away whatever it matches. */
  lemma {:induction false} WithShapesInForce(k: Kernel, want: seq<Shape>, i: nat)
    requires DistinctIds(want) && i < |want|
    ensures ClassOf(want[i]) in WithShapes(k, want).classes
    ensures WithShapes(k, want).classes[ClassOf(want[i])] == ParamsOf(want[i])
    ensures Matched(want[i]) ==> FilterOf(want[i]) in WithShapes(k, want).filters
    ensures !Matched(want[i]) ==>
      want[i].bridge in WithShapes(k, want).defaults
      && (WithShapes(k, want).defaults[want[i].bridge] == Some(want[i].id)
          <==> forall j :: i < j < |want| ==> want[j].bridge != want[i].bridge)
  {
    var n := |want| - 1;
    var front := want[..n];
    assert forall j :: 0 <= j < n ==> front[j] == want[j];
    if i < n {
      WithShapesInForce(k, front, i);
      assert want[i].id != want[n].id;
    }
  }

  /** After a restore every matched shape of the snapshot is in force. A whole-bridge shape is in force
      exactly when no later shape of the snapshot is on its bridge: rendering any shape points the
      bridge's default away from it. */
  lemma EveryShapeInForce(k: Kernel, want: seq<Shape>, i: nat)
    requires DistinctIds(want) && i < |want|
    ensures InForce(WithShapes(k, want), want[i])
      <==> (Matched(want[i]) || forall j :: i < j < |want| ==> want[j].bridge != want[i].bridge)
  {
    WithShapesInForce(k, want, i);
  }

  /** The input: a whole-bridge shape, and any shape rendered after it on its bridge. */
  lemma LaterShapeTakesTheDefault(a: Shape, b: Shape)
    requires a.id != b.id && a.bridge == b.bridge && !Matched(a)
    ensures InForce(WithShapes(EMPTY, [a]), a) && !InForce(WithShapes(EMPTY, [a, b]), a)
  {
    EveryShapeInForce(EMPTY, [a], 0);
    EveryShapeInForce(EMPTY, [a, b], 0);
  }

  // ----- the kernel: in step with the snapshot -----

  ghost predicate ExactClasses(k: Kernel, shapes: seq<Shape>) {
    forall c :: c in k.classes <==> exists s :: s in shapes && ClassOf(s) == c
  }

  ghost predicate ExactFilters(k: Kernel, shapes: seq<Shape>) {
    forall f :: f in k.filters <==> exists s :: s in shapes && Matched(s) && FilterOf(s) == f
  }

  ghost predicate AllInForce(k: Kernel, shapes: seq<Shape>) {
    forall s :: s in shapes ==> InForce(k, s)
  }

  /** No bridge sends its unclassified traffic to a class that is not there for it. */
  ghost predicate NoStrayDefault(k: Kernel, shapes: seq<Shape>) {
    forall b :: b in k.defaults && k.defaults[b].Some? ==>
      exists s :: s in shapes && !Matched(s) && s.bridge == b && k.defaults[b] == Some(s.id)
  }

  /** The kernel is in step with these shapes: their classes and filters are there and no others, every
      one of them is in force, and no default target is left over. */
  ghost predicate InStep(k: Kernel, shapes: seq<Shape>) {
    ExactClasses(k, shapes) && ExactFilters(k, shapes) && AllInForce(k, shapes) && NoStrayDefault(k, shapes)
  }

  /** A teardown of these cleared the bridge of filters. */
  ghost predicate ClearedBy(ds: seq<Shape>, tears: seq<nat>, bridge: string)
    requires |ds| == |tears|
  {
    exists i :: 0 <= i < |ds| && Matched(ds[i]) && ds[i].bridge == bridge && tears[i] > 0
  }

  /** A teardown of these got as far as the class. */
  ghost predicate FreedBy(ds: seq<Shape>, tears: seq<nat>, c: (string, string))
    requires |ds| == |tears|
  {
    exists i :: 0 <= i < |ds| && ClassOf(ds[i]) == c && tears[i] == |RenderTCTeardown(ds[i])|
  }

  lemma ByOneMore(ds: seq<Shape>, tears: seq<nat>, bridge: string, c: (string, string))
    requires |ds| == |tears| > 0
    ensures var n := |ds| - 1;
      && (ClearedBy(ds, tears, bridge) <==>
            ClearedBy(ds[..n], tears[..n], bridge) || (Matched(ds[n]) && ds[n].bridge == bridge && tears[n] > 0))
      && (FreedBy(ds, tears, c) <==>
            FreedBy(ds[..n], tears[..n], c) || (ClassOf(ds[n]) == c && tears[n] == |RenderTCTeardown(ds[n])|))
  {
    var n := |ds| - 1;
    var front, before := ds[..n], tears[..n];
    assert forall i :: 0 <= i < n ==> front[i] == ds[i] && before[i] == tears[i];
    if ClearedBy(front, before, bridge) {
      var i :| 0 <= i < n && Matched(front[i]) && front[i].bridge == bridge && before[i] > 0;
      assert Matched(ds[i]) && ds[i].bridge == bridge && tears[i] > 0;
    }
    if FreedBy(front, before, c) {
      var i :| 0 <= i < n && ClassOf(front[i]) == c && before[i] == |RenderTCTeardown(front[i])|;
      assert ClassOf(ds[i]) == c && tears[i] == |RenderTCTeardown(ds[i])|;
    }
  }

  /** What a series of teardowns leaves, for every outcome of every one of them. */
  lemma {:induction false} TornDownAllLeaves(k: Kernel, ds: seq<Shape>, tears: seq<nat>)
    requires |ds| == |tears|
    ensures var torn := TornDownAll(k, ds, tears);
      && (forall f :: f in torn.filters <==> f in k.filters && !ClearedBy(ds, tears, f.bridge))
      && (forall c :: c in torn.classes <==> c in k.classes && !FreedBy(ds, tears, c))
      && (forall c :: c in torn.classes ==> torn.classes[c] == k.classes[c])
      && torn.defaults == k.defaults
  {
    if ds != [] {
      var n := |ds| - 1;
      TornDownAllLeaves(k, ds[..n], tears[..n]);
      forall bridge, c { ByOneMore(ds, tears, bridge, c); }
    }
  }

  lemma {:induction false} WithShapesHolds(k: Kernel, want: seq<Shape>)
    ensures forall c :: c in WithShapes(k, want).classes <==> c in k.classes || exists s :: s in want && ClassOf(s) == c
    ensures forall f :: f in WithShapes(k, want).filters <==>
              f in k.filters || exists s :: s in want && Matched(s) && FilterOf(s) == f
  {
    if want != [] {
      var front, last := want[..|want| - 1], want[|want| - 1];
      WithShapesHolds(k, front);
      assert forall s :: s in want <==> s in front || s == last;
    }
  }

  ghost predicate OnBridge(shapes: seq<Shape>, bridge: string) {
    exists s :: s in shapes && s.bridge == bridge
  }

  /** Rendering decides the default of the bridges it touches, and of no other. */
  lemma {:induction false} DefaultsDecided(k: Kernel, want: seq<Shape>, b: string)
    ensures var now := WithShapes(k, want).defaults;
      && (!OnBridge(want, b) ==> (b in now <==> b in k.defaults) && (b in now ==> now[b] == k.defaults[b]))
      && (OnBridge(want, b) ==> b in now && (now[b].Some? ==>
            exists s :: s in want && !Matched(s) && s.bridge == b && now[b] == Some(s.id)))
  {
    if want != [] {
      var front, last := want[..|want| - 1], want[|want| - 1];
      DefaultsDecided(k, front, b);
      assert forall s :: s in want <==> s in front || s == last;
      if last.bridge == b {
        assert last in want;
      } else {
        assert OnBridge(want, b) <==> OnBridge(front, b);
      }
    }
  }

  // ----- what decides it, for any kernel to start from -----

  ghost predicate NoClassLeft(k: Kernel, want: seq<Shape>, ds: seq<Shape>, tears: seq<nat>)
    requires |ds| == |tears|
  {
    forall c :: c in k.classes ==> FreedBy(ds, tears, c) || exists s :: s in want && ClassOf(s) == c
  }

  ghost predicate NoFilterLeft(k: Kernel, want: seq<Shape>, ds: seq<Shape>, tears: seq<nat>)
    requires |ds| == |tears|
  {
    forall f :: f in k.filters ==>
      ClearedBy(ds, tears, f.bridge) || exists s :: s in want && Matched(s) && FilterOf(s) == f
  }

  ghost predicate NoDefaultLeft(k: Kernel, want: seq<Shape>) {
    forall b :: b in k.defaults && k.defaults[b].Some? ==> OnBridge(want, b)
  }

  /** Every whole-bridge shape is the last of the shapes on its bridge. */
  ghost predicate WholeBridgesLast(want: seq<Shape>) {
    forall i, j :: 0 <= i < j < |want| && want[i].bridge == want[j].bridge ==> Matched(want[i])
  }

  lemma ClassesDecide(k: Kernel, ds: seq<Shape>, tears: seq<nat>, want: seq<Shape>)
    requires |ds| == |tears|
    ensures ExactClasses(WithShapes(TornDownAll(k, ds, tears), want), want) <==> NoClassLeft(k, want, ds, tears)
  {
    TornDownAllLeaves(k, ds, tears);
    WithShapesHolds(TornDownAll(k, ds, tears), want);
  }

  lemma FiltersDecide(k: Kernel, ds: seq<Shape>, tears: seq<nat>, want: seq<Shape>)
    requires |ds| == |tears|
    ensures ExactFilters(WithShapes(TornDownAll(k, ds, tears), want), want) <==> NoFilterLeft(k, want, ds, tears)
  {
    TornDownAllLeaves(k, ds, tears);
    WithShapesHolds(TornDownAll(k, ds, tears), want);
  }

  lemma OrderDecides(k: Kernel, want: seq<Shape>)
    requires DistinctIds(want)
    ensures AllInForce(WithShapes(k, want), want) <==> WholeBridgesLast(want)
  {
    forall i | 0 <= i < |want|
      ensures InForce(WithShapes(k, want), want[i])
         <==> (Matched(want[i]) || forall j :: i < j < |want| ==> want[j].bridge != want[i].bridge)
    {
      EveryShapeInForce(k, want, i);
    }
    if WholeBridgesLast(want) {
      forall s | s in want ensures InForce(WithShapes(k, want), s) {
        var i :| 0 <= i < |want| && want[i] == s;
      }
    }
    if AllInForce(WithShapes(k, want), want) {
      forall i, j | 0 <= i < j < |want| && want[i].bridge == want[j].bridge ensures Matched(want[i]) {
        assert want[i] in want;
      }
    }
  }

  lemma DefaultsDecide(k: Kernel, want: seq<Shape>)
    ensures NoStrayDefault(WithShapes(k, want), want) <==> NoDefaultLeft(k, want)
  {
    forall b { DefaultsDecided(k, want, b); }
    var now := WithShapes(k, want).defaults;
    assert forall b :: !OnBridge(want, b) && b in k.defaults ==> b in now && now[b] == k.defaults[b];
  }

  /** From any kernel, and for every outcome of the teardowns, a restore ends in step with the
      snapshot if and only if nothing of the old state is left over and every whole-bridge shape of
      the snapshot is the last on its bridge. */
  lemma LeftoversDecide(k: Kernel, ds: seq<Shape>, tears: seq<nat>, want: seq<Shape>)
    requires DistinctIds(want) && |ds| == |tears|
    ensures InStep(WithShapes(TornDownAll(k, ds, tears), want), want) <==>
      && NoClassLeft(k, want, ds, tears) && NoFilterLeft(k, want, ds, tears)
      && WholeBridgesLast(want) && NoDefaultLeft(k, want)
  {
    ClassesDecide(k, ds, tears, want);
    FiltersDecide(k, ds, tears, want);
    OrderDecides(TornDownAll(k, ds, tears), want);
    DefaultsDecide(TornDownAll(k, ds, tears), want);
    TornDownAllLeaves(k, ds, tears);
  }

  // ----- what decides it, starting in step -----

  /** Every teardown ran to its end. */
  ghost predicate AllRan(ds: seq<Shape>, tears: seq<nat>)
    requires |ds| == |tears|
  {
    forall i :: 0 <= i < |ds| ==> tears[i] == |RenderTCTeardown(ds[i])|
  }

  /** A shape with a selector is dropped on the bridge. */
  ghost predicate Cleared(ds: seq<Shape>, bridge: string) {
    exists d :: d in ds && Matched(d) && d.bridge == bridge
  }

  /** A surviving shape keeps its bridge, and its selector unless a dropped one takes the bridge's
      filters with it. */
  ghost predicate SurvivorFits(s: Shape, w: Shape, ds: seq<Shape>) {
    && s.bridge == w.bridge
    && (Matched(s) ==> (Matched(w) && FilterOf(s) == FilterOf(w)) || Cleared(ds, s.bridge))
  }

  ghost predicate AllFit(live: seq<Shape>, want: seq<Shape>, ds: seq<Shape>) {
    forall s, w :: s in live && w in want && s.id == w.id ==> SurvivorFits(s, w, ds)
  }

  /** A bridge that loses a whole-bridge shape gets another shape. */
  ghost predicate DefaultsReplaced(ds: seq<Shape>, want: seq<Shape>) {
    forall d :: d in ds && !Matched(d) ==> OnBridge(want, d.bridge)
  }

  /** A restore from a kernel in step with the node's rows. */
  ghost predicate FromInStep(k: Kernel, live: seq<Shape>, want: seq<Shape>, ds: seq<Shape>) {
    && DistinctIds(live) && DistinctIds(want) && InStep(k, live)
    && DistinctIds(ds) && forall s :: s in ds <==> s in live && s.id !in Ids(want)
  }

  /** Starting from a kernel in step with the node's rows, and for every outcome of every teardown, the
      kernel ends in step with the snapshot if and only if every teardown ran to its end, every
      survivor keeps its bridge and its selector (or loses its old filter with its bridge's), every
      whole-bridge shape of the snapshot is the last on its bridge, and no whole-bridge shape is
      dropped from a bridge the snapshot leaves empty. */
  lemma KernelEqualsStoreIff(k: Kernel, live: seq<Shape>, want: seq<Shape>, tears: seq<nat>)
    requires DistinctIds(live) && DistinctIds(want) && InStep(k, live)
    requires |tears| == |Dropped(live, Ids(want))|
    ensures var ds := Dropped(live, Ids(want));
      InStep(WithShapes(TornDownAll(k, ds, tears), want), want) <==>
        && AllRan(ds, tears) && AllFit(live, want, ds)
        && WholeBridgesLast(want) && DefaultsReplaced(ds, want)
  {
    var ds := Dropped(live, Ids(want));
    DroppedAre(live, Ids(want));
    LeftoversDecide(k, ds, tears, want);
    if NoClassLeft(k, want, ds, tears) {
      OnlyIfRan(k, live, want, ds, tears);
      if NoFilterLeft(k, want, ds, tears) { OnlyIfFit(k, live, want, ds, tears); }
    }
    if AllRan(ds, tears) && AllFit(live, want, ds) {
      IfClasses(k, live, want, ds, tears);
      IfFilters(k, live, want, ds, tears);
    }
    if AllFit(live, want, ds) { DefaultsIff(k, live, want, ds); }
  }

  lemma SameId(shapes: seq<Shape>, a: Shape, b: Shape)
    requires DistinctIds(shapes) && a in shapes && b in shapes && a.id == b.id
    ensures a == b
  {
    var i :| 0 <= i < |shapes| && shapes[i] == a;
    var j :| 0 <= j < |shapes| && shapes[j] == b;
  }

  lemma OnlyIfRan(k: Kernel, live: seq<Shape>, want: seq<Shape>, ds: seq<Shape>, tears: seq<nat>)
    requires FromInStep(k, live, want, ds) && |ds| == |tears| && NoClassLeft(k, want, ds, tears)
    ensures AllRan(ds, tears)
  {
    forall i | 0 <= i < |ds| ensures tears[i] == |RenderTCTeardown(ds[i])| {
      var d := ds[i];
      assert d in ds;
      assert ClassOf(d) in k.classes;
      assert forall w :: w in want ==> w.id in Ids(want);
      var j :| 0 <= j < |ds| && ClassOf(ds[j]) == ClassOf(d) && tears[j] == |RenderTCTeardown(ds[j])|;
      assert i == j;
    }
  }

  lemma OnlyIfFit(k: Kernel, live: seq<Shape>, want: seq<Shape>, ds: seq<Shape>, tears: seq<nat>)
    requires FromInStep(k, live, want, ds) && |ds| == |tears|
    requires NoClassLeft(k, want, ds, tears) && NoFilterLeft(k, want, ds, tears)
    ensures AllFit(live, want, ds)
  {
    forall s, w | s in live && w in want && s.id == w.id ensures SurvivorFits(s, w, ds) {
      OnlyIfFits(k, live, want, ds, tears, s, w);
    }
  }

  lemma OnlyIfFits(k: Kernel, live: seq<Shape>, want: seq<Shape>, ds: seq<Shape>, tears: seq<nat>, s: Shape, w: Shape)
    requires FromInStep(k, live, want, ds) && |ds| == |tears|
    requires NoClassLeft(k, want, ds, tears) && NoFilterLeft(k, want, ds, tears)
    requires s in live && w in want && s.id == w.id
    ensures SurvivorFits(s, w, ds)
  {
    assert s.id in Ids(want);
    assert forall i :: 0 <= i < |ds| ==> ds[i] in ds && ds[i].id !in Ids(want);
    var x :| x in want && ClassOf(x) == ClassOf(s);
    SameId(want, x, w);
    if Matched(s) && !Cleared(ds, s.bridge) {
      assert FilterOf(s) in k.filters;
      var y :| y in want && Matched(y) && FilterOf(y) == FilterOf(s);
      SameId(want, y, w);
    }
  }

  lemma IfClasses(k: Kernel, live: seq<Shape>, want: seq<Shape>, ds: seq<Shape>, tears: seq<nat>)
    requires FromInStep(k, live, want, ds) && |ds| == |tears| && AllRan(ds, tears) && AllFit(live, want, ds)
    ensures NoClassLeft(k, want, ds, tears)
  {
    forall c | c in k.classes ensures FreedBy(ds, tears, c) || exists s :: s in want && ClassOf(s) == c {
      var s :| s in live && ClassOf(s) == c;
      if s.id in Ids(want) {
        var w :| w in want && w.id == s.id;
        assert SurvivorFits(s, w, ds);
        assert ClassOf(w) == c;
      } else {
        assert s in ds;
        var j :| 0 <= j < |ds| && ds[j] == s;
        assert tears[j] == |RenderTCTeardown(ds[j])|;
      }
    }
  }

  lemma IfFilters(k: Kernel, live: seq<Shape>, want: seq<Shape>, ds: seq<Shape>, tears: seq<nat>)
    requires FromInStep(k, live, want, ds) && |ds| == |tears| && AllRan(ds, tears) && AllFit(live, want, ds)
    ensures NoFilterLeft(k, want, ds, tears)
  {
    forall f | f in k.filters
      ensures ClearedBy(ds, tears, f.bridge) || exists s :: s in want && Matched(s) && FilterOf(s) == f
    {
      var s :| s in live && Matched(s) && FilterOf(s) == f;
      if s.id in Ids(want) {
        var w :| w in want && w.id == s.id;
        assert SurvivorFits(s, w, ds);
        if Cleared(ds, s.bridge) { ClearedRan(ds, tears, s.bridge); }
      } else {
        assert s in ds;
        ClearedRan(ds, tears, s.bridge);
      }
    }
  }

  lemma ClearedRan(ds: seq<Shape>, tears: seq<nat>, bridge: string)
    requires |ds| == |tears| && AllRan(ds, tears)
    ensures ClearedBy(ds, tears, bridge) <==> Cleared(ds, bridge)
  {
    if Cleared(ds, bridge) {
      var d :| d in ds && Matched(d) && d.bridge == bridge;
      var i :| 0 <= i < |ds| && ds[i] == d;
      assert tears[i] == |RenderTCTeardown(ds[i])|;
    }
    if ClearedBy(ds, tears, bridge) {
      var i :| 0 <= i < |ds| && Matched(ds[i]) && ds[i].bridge == bridge && tears[i] > 0;
      assert ds[i] in ds;
    }
  }

  lemma DefaultsIff(k: Kernel, live: seq<Shape>, want: seq<Shape>, ds: seq<Shape>)
    requires FromInStep(k, live, want, ds) && AllFit(live, want, ds)
    ensures NoDefaultLeft(k, want) <==> DefaultsReplaced(ds, want)
  {
    if NoDefaultLeft(k, want) {
      forall d | d in ds && !Matched(d) ensures OnBridge(want, d.bridge) {
        assert InForce(k, d);
      }
    }
    if DefaultsReplaced(ds, want) {
      forall b | b in k.defaults && k.defaults[b].Some? ensures OnBridge(want, b) {
        var s :| s in live && !Matched(s) && s.bridge == b && k.defaults[b] == Some(s.id);
        if s.id in Ids(want) {
          var w :| w in want && w.id == s.id;
          assert SurvivorFits(s, w, ds);
        } else {
          assert s in ds;
        }
      }
    }
  }

  // ----- when tc itself never fails -----

  /** No two dropped shapes with selectors share a bridge. */
  ghost predicate DropsApart(ds: seq<Shape>) {
    forall i, j :: 0 <= i < j < |ds| && Matched(ds[i]) && Matched(ds[j]) ==> ds[i].bridge != ds[j].bridge
  }

  lemma AllRanOneMore(ds: seq<Shape>, tears: seq<nat>, s: Shape, ran: nat)
    requires |ds| == |tears|
    ensures AllRan(ds + [s], tears + [ran]) <==> AllRan(ds, tears) && ran == |RenderTCTeardown(s)|
  {
    var more, moreTears := ds + [s], tears + [ran];
    assert forall i :: 0 <= i < |ds| ==> more[i] == ds[i] && moreTears[i] == tears[i];
    assert more[|ds|] == s && moreTears[|ds|] == ran;
  }

  lemma ApartOneMore(ds: seq<Shape>, s: Shape)
    ensures DropsApart(ds + [s]) <==> DropsApart(ds) && !(Matched(s) && Cleared(ds, s.bridge))
  {
    var more := ds + [s];
    assert forall i :: 0 <= i < |ds| ==> more[i] == ds[i];
    if Cleared(ds, s.bridge) {
      var d :| d in ds && Matched(d) && d.bridge == s.bridge;
      var i :| 0 <= i < |ds| && ds[i] == d;
      assert more[i] == d && more[|ds|] == s;
    }
    assert forall i :: 0 <= i < |ds| ==> ds[i] in ds;
  }

  /** With everything before it torn down to the end, a teardown runs to its end exactly when no shape
      with a selector went before it on its bridge. */
  lemma LastRuns(k: Kernel, ds: seq<Shape>, tears: seq<nat>, s: Shape)
    requires |ds| == |tears| && AllRan(ds, tears) && forall d :: d in ds ==> d.id != s.id
    requires ClassOf(s) in k.classes && (Matched(s) ==> FilterOf(s) in k.filters)
    ensures LinesRun(TornDownAll(k, ds, tears), s) == |RenderTCTeardown(s)|
       <==> !(Matched(s) && Cleared(ds, s.bridge))
  {
    TornDownAllLeaves(k, ds, tears);
    assert forall i :: 0 <= i < |ds| ==> ds[i] in ds;
    ClearedRan(ds, tears, s.bridge);
    if Matched(s) { FiltersGone(k, ds, tears, s); }
  }

  /** With working tc every teardown runs to its end if and only if no two of the dropped shapes with
      selectors share a bridge: the second finds the bridge's filters gone and stops there. */
  lemma {:induction false} WorkingTearsRan(k: Kernel, ds: seq<Shape>)
    requires DistinctIds(ds)
    requires forall d :: d in ds ==> ClassOf(d) in k.classes && (Matched(d) ==> FilterOf(d) in k.filters)
    ensures AllRan(ds, WorkingTears(k, ds)) <==> DropsApart(ds)
  {
    if ds != [] {
      var n := |ds| - 1;
      FrontAndLast(ds);
      FrontIsDistinct(ds);
      WorkingTearsRan(k, ds[..n]);
      WorkingStep(k, ds[..n], ds[n]);
    }
  }

  lemma FrontIsDistinct(ds: seq<Shape>)
    requires ds != [] && DistinctIds(ds)
    ensures var n := |ds| - 1;
      && ds[n] in ds && DistinctIds(ds[..n])
      && (forall d :: d in ds[..n] ==> d in ds && d.id != ds[n].id)
  {
  }

  lemma WorkingStep(k: Kernel, ds: seq<Shape>, s: Shape)
    requires AllRan(ds, WorkingTears(k, ds)) <==> DropsApart(ds)
    requires forall d :: d in ds ==> d.id != s.id
    requires ClassOf(s) in k.classes && (Matched(s) ==> FilterOf(s) in k.filters)
    ensures AllRan(ds + [s], WorkingTears(k, ds + [s])) <==> DropsApart(ds + [s])
  {
    var tears := WorkingTears(k, ds);
    WorkingOneMore(k, ds, s);
    AllRanOneMore(ds, tears, s, LinesRun(TornDownAll(k, ds, tears), s));
    ApartOneMore(ds, s);
    if AllRan(ds, tears) { LastRuns(k, ds, tears, s); }
  }

  lemma FiltersGone(k: Kernel, ds: seq<Shape>, tears: seq<nat>, s: Shape)
    requires |ds| == |tears| && FilterOf(s) in k.filters
    ensures HasFilters(TornDownAll(k, ds, tears), s.bridge) <==> !ClearedBy(ds, tears, s.bridge)
  {
    TornDownAllLeaves(k, ds, tears);
    if !ClearedBy(ds, tears, s.bridge) { assert FilterOf(s) in TornDownAll(k, ds, tears).filters; }
  }

  /** The same theorem when tc never fails. */
  lemma WorkingKernelIff(k: Kernel, live: seq<Shape>, want: seq<Shape>)
    requires DistinctIds(live) && DistinctIds(want) && InStep(k, live)
    ensures var ds := Dropped(live, Ids(want));
      InStep(WithShapes(TornDownAll(k, ds, WorkingTears(k, ds)), want), want) <==>
        && DropsApart(ds) && AllFit(live, want, ds)
        && WholeBridgesLast(want) && DefaultsReplaced(ds, want)
  {
    var ds := Dropped(live, Ids(want));
    DroppedAre(live, Ids(want));
    KernelEqualsStoreIff(k, live, want, WorkingTears(k, ds));
    WorkingTearsRan(k, ds);
  }

  lemma {:induction false} AllDropped(live: seq<Shape>)
    ensures Dropped(live, {}) == live
  {
    if live != [] { AllDropped(live[1..]); }
  }

  /** Dropping everything leaves a kernel in step exactly when it leaves no class, filter or default. */
  lemma NothingWanted(k: Kernel, live: seq<Shape>)
    requires DistinctIds(live) && InStep(k, live)
    ensures Ids([]) == {} && Dropped(live, {}) == live
    ensures InStep(WithShapes(TornDownAll(k, live, WorkingTears(k, live)), []), [])
       <==> DropsApart(live) && forall d :: d in live ==> Matched(d)
  {
    AllDropped(live);
    assert Ids([]) == {};
    WorkingKernelIff(k, live, []);
    assert WholeBridgesLast([]);
    if DefaultsReplaced(live, []) {
      forall d | d in live ensures Matched(d) {
        assert !OnBridge([], d.bridge);
      }
    }
  }

  /** The inputs, with tc that never fails: two shapes with selectors dropped from one bridge, and a
      whole-bridge shape dropped from a bridge that then has none. Neither drop ends in step. */
  lemma DropsThatLeak(a: Shape, b: Shape)
    requires a.id != b.id && Matched(a) && Matched(b) && a.bridge == b.bridge
    ensures var k := WithShapes(EMPTY, [a, b]);
      InStep(k, [a, b]) && !InStep(WithShapes(TornDownAll(k, [a, b], WorkingTears(k, [a, b])), []), [])
  {
    var live := [a, b];
    assert DistinctIds(live) && WholeBridgesLast(live);
    RenderedIsInStep(live);
    assert !DropsApart(live) by { assert live[0] == a && live[1] == b; }
    NothingWanted(WithShapes(EMPTY, live), live);
  }

  lemma DroppedDefaultStays(a: Shape)
    requires !Matched(a)
    ensures var k := WithShapes(EMPTY, [a]);
      InStep(k, [a]) && !InStep(WithShapes(TornDownAll(k, [a], WorkingTears(k, [a])), []), [])
  {
    var live := [a];
    assert DistinctIds(live) && WholeBridgesLast(live);
    RenderedIsInStep(live);
    assert a in live;
    NothingWanted(WithShapes(EMPTY, live), live);
  }

  /** Rendering shapes into an empty kernel puts it in step with them exactly when their order does. */
  lemma RenderedIsInStep(shapes: seq<Shape>)
    requires DistinctIds(shapes)
    ensures InStep(WithShapes(EMPTY, shapes), shapes) <==> WholeBridgesLast(shapes)
  {
    LeftoversDecide(EMPTY, [], [], shapes);
  }

  // ----- retrying -----

  /** Rendering the same shapes again changes nothing. */
  lemma RenderAgain(k: Kernel, want: seq<Shape>)
    ensures WithShapes(WithShapes(k, want), want) == WithShapes(k, want)
  {
    Overlay(k, want);
    Overlay(WithShapes(k, want), want);
    var over := WithShapes(EMPTY, want);
    assert k.classes + over.classes + over.classes == k.classes + over.classes;
    assert k.filters + over.filters + over.filters == k.filters + over.filters;
    assert k.defaults + over.defaults + over.defaults == k.defaults + over.defaults;
  }

  lemma OverlayOne(k: Kernel, over: Kernel, s: Shape)
    ensures WithShape(Kernel(k.classes + over.classes, k.filters + over.filters, k.defaults + over.defaults), s)
         == Kernel(k.classes + WithShape(over, s).classes, k.filters + WithShape(over, s).filters,
                   k.defaults + WithShape(over, s).defaults)
  {
    var target := if Matched(s) then None else Some(s.id);
    assert (k.classes + over.classes)[ClassOf(s) := ParamsOf(s)] == k.classes + over.classes[ClassOf(s) := ParamsOf(s)];
    assert (k.defaults + over.defaults)[s.bridge := target] == k.defaults + over.defaults[s.bridge := target];
    assert k.filters + over.filters + {FilterOf(s)} == k.filters + (over.filters + {FilterOf(s)});
  }

  lemma {:induction false} Overlay(k: Kernel, want: seq<Shape>)
    ensures var over := WithShapes(EMPTY, want);
      WithShapes(k, want) == Kernel(k.classes + over.classes, k.filters + over.filters, k.defaults + over.defaults)
  {
    if want == [] {
      assert k.classes + map[] == k.classes && k.filters + {} == k.filters && k.defaults + map[] == k.defaults;
    } else {
      var n := |want| - 1;
      Overlay(k, want[..n]);
      OverlayOne(k, WithShapes(EMPTY, want[..n]), want[n]);
    }
  }

  lemma {:induction false} NothingDropped(live: seq<Shape>, wantIds: set<string>)
    requires forall s :: s in live ==> s.id in wantIds
    ensures Dropped(live, wantIds) == []
  {
    if live != [] {
      assert live[0] in live;
      NothingDropped(live[1..], wantIds);
    }
  }

  /** Once a restore has completed, restoring again drops nothing and leaves the kernel as it is. */
  lemma RetryLeavesTheKernel(start: Store, node: string, want: seq<Shape>, live: seq<Shape>, torn: Kernel)
    requires DistinctIds(want) && KeyedById(start) && IsListing(RestoredStore(start, node, want), node, live)
    ensures Dropped(live, Ids(want)) == []
    ensures WithShapes(TornDownAll(WithShapes(torn, want), [], []), want) == WithShapes(torn, want)
  {
    RenderAgain(torn, want);
    forall s | s in live ensures s.id in Ids(want) { RestoredRow(start, node, want, s.id); }
    NothingDropped(live, Ids(want));
  }

  /** So a retry of a completed restore ends in step if and only if the completed restore did: a
      teardown that failed once is never made up for. */
  lemma RetryConvergesIff(k: Kernel, start: Store, node: string, live: seq<Shape>, want: seq<Shape>, tears: seq<nat>,
                          again: seq<Shape>)
    requires KeyedById(start) && IsListing(start, node, live) && DistinctIds(want) && InStep(k, live)
    requires |tears| == |Dropped(live, Ids(want))|
    requires IsListing(RestoredStore(start, node, want), node, again)
    ensures Dropped(again, Ids(want)) == []
    ensures var ds := Dropped(live, Ids(want));
      var first := WithShapes(TornDownAll(k, ds, tears), want);
      InStep(WithShapes(TornDownAll(first, [], []), want), want) <==>
        && AllRan(ds, tears) && AllFit(live, want, ds)
        && WholeBridgesLast(want) && DefaultsReplaced(ds, want)
  {
    KernelEqualsStoreIff(k, live, want, tears);
    RetryLeavesTheKernel(start, node, want, again, TornDownAll(k, Dropped(live, Ids(want)), tears));
  }

  // ----- any number of attempts, failing anywhere -----

  /** One restore of the snapshot, whichever of its calls failed, as its log accounts for it. */
  ghost predicate Attempt(node: string, want: seq<Shape>, before: (Store, Kernel), after: (Store, Kernel), ok: bool) {
    exists live, done, tears, puts :: AttemptLogged(node, want, before, after, ok, live, done, tears, puts)
  }

  ghost predicate AttemptLogged(node: string, want: seq<Shape>, before: (Store, Kernel), after: (Store, Kernel),
                                ok: bool,
                                live: seq<Shape>, done: seq<Shape>, tears: seq<nat>, puts: seq<Event>)
  {
    && RestoreLog(Dropped(live, Ids(want)), done, tears, want, puts, ok)
    && (ok || DropLog(done, tears) + puts != [] ==> IsListing(before.0, node, live))
    && Accounts(before.0, before.1, DropLog(done, tears) + puts, ok, after.0, after.1)
  }

  /** A class of a shape that is neither stored nor wanted. */
  ghost predicate Orphan(state: (Store, Kernel), want: seq<Shape>, c: (string, string)) {
    c in state.1.classes && c.1 !in state.0 && c.1 !in Ids(want)
  }

  /** The log touches no row of this id and tears no shape of it down. */
  ghost predicate Spares(log: seq<Event>, id: string) {
    forall e :: e in log ==> (e.TearDown? ==> e.shape.id != id) && (e.PutRow? ==> e.shape.id != id)
  }

  lemma {:induction false} SparedStays(store: Store, k: Kernel, log: seq<Event>, c: (string, string))
    requires Spares(log, c.1) && c in k.classes && c.1 !in store
    ensures c in KernelAfter(k, log).classes && c.1 !in StoreAfter(store, log)
  {
    if log != [] {
      var n := |log| - 1;
      assert forall e :: e in log[..n] ==> e in log;
      SparedStays(store, k, log[..n], c);
      assert log[n] in log;
    }
  }

  lemma {:induction false} DropLogSpares(ds: seq<Shape>, tears: seq<nat>, id: string)
    requires |ds| == |tears| && forall d :: d in ds ==> d.id != id
    ensures Spares(DropLog(ds, tears), id)
  {
    if ds != [] {
      var n := |ds| - 1;
      assert forall d :: d in ds[..n] ==> d in ds;
      DropLogSpares(ds[..n], tears[..n], id);
      assert ds[n] in ds;
    }
  }

  lemma {:induction false} PutLogSpares(want: seq<Shape>, id: string)
    requires id !in Ids(want)
    ensures Spares(PutLog(want), id)
  {
    if want != [] {
      var n := |want| - 1;
      FrontAndLast(want);
      IdsOneMore(want[..n], want[n]);
      PutLogSpares(want[..n], id);
    }
  }

  /** Rendering, in whole or in part, takes no class away. */
  lemma RenderKeepsClasses(k: Kernel, s: Shape, now: Kernel, c: (string, string))
    requires RenderedInPart(k, s, now) && c in k.classes
    ensures c in now.classes
  {
    var lines := RenderTC(s).value;
    var n :| 0 <= n <= |lines| && Run(k, lines[..n]) == (now, true);
    RunKeepsClasses(k, lines[..n], c);
  }

  lemma {:induction false} RunKeepsClasses(k: Kernel, lines: seq<Line>, c: (string, string))
    requires c in k.classes && forall line :: line in lines ==> !line.DeleteClass?
    ensures c in Run(k, lines).0.classes
    decreases |lines|
  {
    if lines != [] {
      assert lines[0] in lines;
      match ExecLine(k, lines[0])
      case None =>
      case Some(next) => RunKeepsClasses(next, lines[1..], c);
    }
  }

  lemma AttemptSpares(node: string, want: seq<Shape>, before: (Store, Kernel), live: seq<Shape>, done: seq<Shape>,
                      tears: seq<nat>, puts: seq<Event>, ok: bool, c: (string, string))
    requires RestoreLog(Dropped(live, Ids(want)), done, tears, want, puts, ok)
    requires IsListing(before.0, node, live) && c.1 !in before.0 && c.1 !in Ids(want)
    ensures Spares(DropLog(done, tears) + puts, c.1)
  {
    DroppedAre(live, Ids(want));
    forall d | d in done ensures d.id != c.1 {
      assert d in Dropped(live, Ids(want));
    }
    DropLogSpares(done, tears, c.1);
    PutLogSpares(want, c.1);
    assert forall e :: e in puts ==> e in PutLog(want);
  }

  lemma AttemptKeepsOrphan(node: string, want: seq<Shape>, before: (Store, Kernel), after: (Store, Kernel), ok: bool,
                           c: (string, string))
    requires Attempt(node, want, before, after, ok) && Orphan(before, want, c)
    ensures Orphan(after, want, c)
  {
    var live, done, tears, puts :| AttemptLogged(node, want, before, after, ok, live, done, tears, puts);
    var log := DropLog(done, tears) + puts;
    if ok || log != [] {
      AttemptSpares(node, want, before, live, done, tears, puts, ok, c);
      AccountedKeepsOrphan(before, after, log, ok, c);
    }
  }

  lemma AccountedKeepsOrphan(before: (Store, Kernel), after: (Store, Kernel), log: seq<Event>, ok: bool, c: (string,
                             string))
    requires Accounts(before.0, before.1, log, ok, after.0, after.1) && Spares(log, c.1)
    requires c in before.1.classes && c.1 !in before.0
    ensures c in after.1.classes && c.1 !in after.0
  {
    SparedStays(before.0, before.1, log, c);
    if !ok && log != [] {
      var front, last := log[..|log| - 1], log[|log| - 1];
      assert forall e :: e in front ==> e in log;
      SparedStays(before.0, before.1, front, c);
      if after.1 != KernelAfter(before.1, log) {
        RenderKeepsClasses(KernelAfter(before.1, front), last.shape, after.1, c);
      }
    }
  }

  ghost predicate Attempts(node: string, want: seq<Shape>, states: seq<(Store, Kernel)>, oks: seq<bool>) {
    && |states| == |oks| + 1
    && forall i :: 0 <= i < |oks| ==> Attempt(node, want, states[i], states[i + 1], oks[i])
  }

  /** A class whose row is gone and whose shape is not wanted is never removed again, by any number of
      attempts, complete or failing anywhere: no such run ends in step. */
  lemma {:induction false} OrphanForEver(node: string, want: seq<Shape>, states: seq<(Store, Kernel)>, oks: seq<bool>,
                                        c: (string, string), i: nat)
    requires Attempts(node, want, states, oks) && Orphan(states[0], want, c) && i <= |oks|
    ensures Orphan(states[i], want, c) && !InStep(states[i].1, want)
  {
    if i > 0 {
      OrphanForEver(node, want, states, oks, c, i - 1);
      assert Attempt(node, want, states[i - 1], states[i], oks[i - 1]);
      AttemptKeepsOrphan(node, want, states[i - 1], states[i], oks[i - 1], c);
    }
    assert forall s :: s in want ==> s.id in Ids(want);
  }

  /** The input: one shape with a selector, dropped, and its teardown stopped after `ran` lines. The
      row goes all the same. The restore, and every retry, ends in step if and only if the teardown
      ran to its end. */
  lemma FailedTeardownIsForEver(d: Shape, ran: nat)
    requires Matched(d) && ran <= 2
    ensures var before := (map[d.id := d], WithShapes(EMPTY, [d]));
      var after := (map[], TornDownAll(before.1, [d], [ran]));
      && InStep(before.1, [d]) && CanRunAll(before.1, [d], [ran])
      && AttemptLogged(d.node, [], before, after, true, [d], [d], [ran], [])
      && (InStep(after.1, []) <==> ran == 2)
      && (ran < 2 ==> Orphan(after, [], ClassOf(d)))
  {
    var live, k := [d], WithShapes(EMPTY, [d]);
    assert DistinctIds(live) && WholeBridgesLast(live);
    RenderedIsInStep(live);
    AllDropped(live);
    assert Ids([]) == {};
    CanStop(k, d, ran);
    DropLogDoes(map[d.id := d], k, live, [ran]);
    assert DropLog(live, [ran]) + [] == DropLog(live, [ran]);
    assert map[d.id := d] - Ids(live) == map[];
    assert PutLog([]) == [];
    FailedTeardownDecides(k, d, ran);
  }

  lemma CanStop(k: Kernel, d: Shape, ran: nat)
    requires Matched(d) && ClassOf(d) in k.classes && FilterOf(d) in k.filters && ran <= 2
    ensures CanRunAll(k, [d], [ran])
  {
    TearOneMore(k, [], [], d, ran);
    assert [] + [d] == [d] && [] + [ran] == [ran];
    assert HasFilters(k, d.bridge);
  }

  lemma FailedTeardownDecides(k: Kernel, d: Shape, ran: nat)
    requires Matched(d) && InStep(k, [d]) && ran <= 2
    ensures InStep(TornDownAll(k, [d], [ran]), []) <==> ran == 2
    ensures ran < 2 ==> ClassOf(d) in TornDownAll(k, [d], [ran]).classes
  {
    AllDropped([d]);
    assert Ids([]) == {};
    KernelEqualsStoreIff(k, [d], [], [ran]);
    assert WholeBridgesLast([]);
    assert WithShapes(TornDownAll(k, [d], [ran]), []) == TornDownAll(k, [d], [ran]);
    TornDownAllLeaves(k, [d], [ran]);
    assert d in [d];
  }
}
