/** The QoS gateway: the stored shapes of a node kept in step with its rendered kernel state, and
    snapshot and restore of both. Every tc line and every store call may fail, and one that is
    reported as failed may nevertheless have landed. */
module Qos {
  import opened Prelude
  import opened QosKernel

  /** What the gateway did, in order. A teardown records how many of its lines took effect. */
  datatype Event =
    TearDown(shape: Shape, ran: nat) | Render(shape: Shape) | DeleteRow(id: string) | PutRow(shape: Shape)

  type Store = map<string, Shape>

  ghost predicate KeyedById(store: Store) {
    forall id :: id in store ==> store[id].id == id
  }

  ghost predicate DistinctIds(shapes: seq<Shape>) {
    forall i, j :: 0 <= i < j < |shapes| ==> shapes[i].id != shapes[j].id
  }

  /** An empty node lists every shape. */
  predicate InScope(s: Shape, node: string) {
    node == "" || s.node == node
  }

  /** A listing of a node's rows: each of them, once. */
  ghost predicate IsListing(store: Store, node: string, shapes: seq<Shape>) {
    && DistinctIds(shapes)
    && (forall s :: s in shapes ==> s.id in store && store[s.id] == s && (node == "" || s.node == node))
    && (forall id :: id in store && (node == "" || store[id].node == node) ==> store[id] in shapes)
  }

  function Ids(shapes: seq<Shape>): set<string> {
    set s | s in shapes :: s.id
  }

  /** The row an update writes: it never changes a row's node or its creation fields. */
  function Updated(row: Shape, s: Shape): Shape {
    s.(node := row.node, createdBy := row.createdBy, createdAt := row.createdAt)
  }

  function Put(store: Store, s: Shape): Store {
    store[s.id := if s.id in store then Updated(store[s.id], s) else s]
  }

  function PutAll(store: Store, shapes: seq<Shape>): Store {
    if shapes == [] then store else Put(PutAll(store, shapes[..|shapes| - 1]), shapes[|shapes| - 1])
  }

  /** The rows a restore drops: those of the node that the snapshot does not name. */
  function Kept(store: Store, node: string, want: seq<Shape>): Store {
    map id | id in store && (id in Ids(want) || !InScope(store[id], node)) :: store[id]
  }

  function RestoredStore(store: Store, node: string, want: seq<Shape>): Store {
    PutAll(Kept(store, node, want), want)
  }

  /** The live shapes a restore drops, in listing order. */
  function Dropped(live: seq<Shape>, wantIds: set<string>): seq<Shape> {
    if live == [] then []
    else if live[0].id in wantIds then Dropped(live[1..], wantIds)
    else [live[0]] + Dropped(live[1..], wantIds)
  }

  /** Tear shapes down one after the other, each as far as its outcome says. */
  function TornDownAll(k: Kernel, ds: seq<Shape>, tears: seq<nat>): Kernel
    requires |ds| == |tears|
  {
    if ds == [] then k
    else
      var n := |ds| - 1;
      TornDownTo(TornDownAll(k, ds[..n], tears[..n]), ds[n], tears[n])
  }

  /** The outcomes are possible ones: what each line that took effect deleted was there. */
  ghost predicate CanRunAll(k: Kernel, ds: seq<Shape>, tears: seq<nat>)
    requires |ds| == |tears|
  {
    ds == [] || (var n := |ds| - 1;
      CanRunAll(k, ds[..n], tears[..n]) && CanRun(TornDownAll(k, ds[..n], tears[..n]), ds[n], tears[n]))
  }

  /** The outcomes when tc itself never fails. */
  function WorkingTears(k: Kernel, ds: seq<Shape>): (tears: seq<nat>)
    ensures |tears| == |ds|
  {
    if ds == [] then []
    else
      var n := |ds| - 1;
      var before := WorkingTears(k, ds[..n]);
      before + [LinesRun(TornDownAll(k, ds[..n], before), ds[n])]
  }

  function WithShapes(k: Kernel, shapes: seq<Shape>): Kernel {
    if shapes == [] then k else WithShape(WithShapes(k, shapes[..|shapes| - 1]), shapes[|shapes| - 1])
  }

  // ----- the log, and what it says of rows and kernel -----

  /** Each dropped shape's teardown is tried, and then its row deleted. */
  function DropLog(ds: seq<Shape>, tears: seq<nat>): seq<Event>
    requires |ds| == |tears|
  {
    if ds == [] then []
    else
      var n := |ds| - 1;
      DropLog(ds[..n], tears[..n]) + [TearDown(ds[n], tears[n]), DeleteRow(ds[n].id)]
  }

  /** Each wanted shape is rendered, and then its row written. */
  function PutLog(want: seq<Shape>): seq<Event> {
    if want == [] then []
    else PutLog(want[..|want| - 1]) + [Render(want[|want| - 1]), PutRow(want[|want| - 1])]
  }

  function StoreEffect(store: Store, e: Event): Store {
    match e
    case DeleteRow(id) => store - {id}
    case PutRow(s) => Put(store, s)
    case _ => store
  }

  function KernelEffect(k: Kernel, e: Event): Kernel {
    match e
    case TearDown(s, ran) => TornDownTo(k, s, ran)
    case Render(s) => WithShape(k, s)
    case _ => k
  }

  function StoreAfter(store: Store, log: seq<Event>): Store {
    if log == [] then store else StoreEffect(StoreAfter(store, log[..|log| - 1]), log[|log| - 1])
  }

  function KernelAfter(k: Kernel, log: seq<Event>): Kernel {
    if log == [] then k else KernelEffect(KernelAfter(k, log[..|log| - 1]), log[|log| - 1])
  }

  /** Some first lines of a rendering took effect. */
  ghost predicate RenderedInPart(k: Kernel, s: Shape, now: Kernel) {
    RenderTC(s).Some? && exists n :: 0 <= n <= |RenderTC(s).value| && Run(k, RenderTC(s).value[..n]) == (now, true)
  }

  /** Rows and kernel are what the log says; when the last call logged failed, it may have had its
      effect, none, or, if it was a rendering, part of it. */
  ghost predicate Accounts(store: Store, k: Kernel, log: seq<Event>, ok: bool, nowStore: Store, nowKernel: Kernel) {
    if ok || log == [] then nowStore == StoreAfter(store, log) && nowKernel == KernelAfter(k, log)
    else
      var front, last := log[..|log| - 1], log[|log| - 1];
      && (nowStore == StoreAfter(store, log) || nowStore == StoreAfter(store, front))
      && (nowKernel == KernelAfter(k, log)
          || (last.Render? && RenderedInPart(KernelAfter(k, front), last.shape, nowKernel)))
  }

  /** Restoring from here ends with the same rows as restoring from where it began. */
  ghost predicate Resumable(start: Store, now: Store, node: string, want: seq<Shape>) {
    RestoredStore(now, node, want) == RestoredStore(start, node, want)
  }

  lemma LogOneMore(store: Store, k: Kernel, log: seq<Event>, e: Event)
    ensures StoreAfter(store, log + [e]) == StoreEffect(StoreAfter(store, log), e)
    ensures KernelAfter(k, log + [e]) == KernelEffect(KernelAfter(k, log), e)
  {
    assert (log + [e])[..|log|] == log;
  }

  lemma {:induction false} LogJoin(store: Store, k: Kernel, a: seq<Event>, b: seq<Event>)
    ensures StoreAfter(store, a + b) == StoreAfter(StoreAfter(store, a), b)
    ensures KernelAfter(k, a + b) == KernelAfter(KernelAfter(k, a), b)
  {
    if b == [] {
      assert a + b == a;
    } else {
      var front := b[..|b| - 1];
      LogJoin(store, k, a, front);
      assert (a + b)[..|a + b| - 1] == a + front;
    }
  }

  /** A rendering and a write: the shape installed, the row written. */
  lemma LogOnePut(store: Store, k: Kernel, log: seq<Event>, s: Shape)
    ensures StoreAfter(store, log + [Render(s), PutRow(s)]) == Put(StoreAfter(store, log), s)
    ensures KernelAfter(k, log + [Render(s), PutRow(s)]) == WithShape(KernelAfter(k, log), s)
  {
    LogOneMore(store, k, log, Render(s));
    LogOneMore(store, k, log + [Render(s)], PutRow(s));
    assert log + [Render(s)] + [PutRow(s)] == log + [Render(s), PutRow(s)];
  }

  /** A teardown and a deletion: torn down as far as it got, the row gone. */
  lemma LogOneDrop(store: Store, k: Kernel, log: seq<Event>, s: Shape, ran: nat)
    ensures StoreAfter(store, log + [TearDown(s, ran), DeleteRow(s.id)]) == StoreAfter(store, log) - {s.id}
    ensures KernelAfter(k, log + [TearDown(s, ran), DeleteRow(s.id)]) == TornDownTo(KernelAfter(k, log), s, ran)
  {
    LogOneMore(store, k, log, TearDown(s, ran));
    LogOneMore(store, k, log + [TearDown(s, ran)], DeleteRow(s.id));
    assert log + [TearDown(s, ran)] + [DeleteRow(s.id)] == log + [TearDown(s, ran), DeleteRow(s.id)];
  }

  lemma RowsOneLess(store: Store, ds: seq<Shape>)
    requires ds != []
    ensures store - Ids(ds[..|ds| - 1]) - {ds[|ds| - 1].id} == store - Ids(ds)
  {
    IdsOneMore(ds[..|ds| - 1], ds[|ds| - 1]);
    assert ds == ds[..|ds| - 1] + [ds[|ds| - 1]];
  }

  /** Drops delete the rows and leave the kernel torn down as far as the outcomes say. */
  lemma {:induction false} DropLogDoes(store: Store, k: Kernel, ds: seq<Shape>, tears: seq<nat>)
    requires |ds| == |tears|
    ensures StoreAfter(store, DropLog(ds, tears)) == store - Ids(ds)
    ensures KernelAfter(k, DropLog(ds, tears)) == TornDownAll(k, ds, tears)
  {
    if ds == [] {
      assert store - Ids(ds) == store;
    } else {
      var n := |ds| - 1;
      DropLogDoes(store, k, ds[..n], tears[..n]);
      LogOneDrop(store, k, DropLog(ds[..n], tears[..n]), ds[n], tears[n]);
      RowsOneLess(store, ds);
    }
  }

  lemma IdsOneMore(shapes: seq<Shape>, s: Shape)
    ensures Ids(shapes + [s]) == Ids(shapes) + {s.id}
  {
    assert forall x :: x in shapes + [s] <==> x in shapes || x == s;
  }

  /** Puts write the rows and leave the kernel with the shapes rendered. */
  lemma {:induction false} PutLogDoes(store: Store, k: Kernel, want: seq<Shape>)
    ensures StoreAfter(store, PutLog(want)) == PutAll(store, want)
    ensures KernelAfter(k, PutLog(want)) == WithShapes(k, want)
  {
    if want != [] {
      var n := |want| - 1;
      PutLogDoes(store, k, want[..n]);
      LogOnePut(store, k, PutLog(want[..n]), want[n]);
    }
  }

  lemma {:induction false} PutLogContinues(want: seq<Shape>, i: nat)
    requires i < |want|
    ensures PutLog(want[..i]) + [Render(want[i]), PutRow(want[i])] == PutLog(want[..i + 1]) <= PutLog(want)
  {
    assert want[..i + 1][..i] == want[..i];
    if i + 1 < |want| {
      var n := |want| - 1;
      PutLogContinues(want[..n], i);
      assert want[..n][..i + 1] == want[..i + 1] && want[..n][..i] == want[..i];
    } else {
      assert want[..i + 1] == want;
    }
  }

  // ----- what is dropped -----

  lemma {:induction false} DroppedOneMore(live: seq<Shape>, s: Shape, wantIds: set<string>)
    ensures Dropped(live + [s], wantIds) == Dropped(live, wantIds) + if s.id in wantIds then [] else [s]
  {
    if live == [] {
      assert (live + [s])[1..] == [];
    } else {
      assert (live + [s])[1..] == live[1..] + [s];
      DroppedOneMore(live[1..], s, wantIds);
    }
  }

  /** What is dropped of the first shapes is the first part of what is dropped. */
  lemma {:induction false} DroppedPrefix(live: seq<Shape>, i: nat, wantIds: set<string>)
    requires i <= |live|
    ensures Dropped(live[..i], wantIds) <= Dropped(live, wantIds)
    decreases |live| - i
  {
    if i < |live| {
      assert live[..i + 1] == live[..i] + [live[i]];
      DroppedOneMore(live[..i], live[i], wantIds);
      DroppedPrefix(live, i + 1, wantIds);
    } else {
      assert live[..i] == live;
    }
  }

  /** The shapes a restore drops are those listed and not wanted, each once. */
  lemma {:induction false} DroppedAre(live: seq<Shape>, wantIds: set<string>)
    ensures forall s :: s in Dropped(live, wantIds) <==> s in live && s.id !in wantIds
    ensures DistinctIds(live) ==> DistinctIds(Dropped(live, wantIds))
  {
    if live != [] {
      var rest := live[1..];
      DroppedAre(rest, wantIds);
      assert forall s :: s in live <==> s == live[0] || s in rest;
      if DistinctIds(live) {
        assert forall i :: 0 <= i < |rest| ==> rest[i] == live[i + 1];
        forall s | s in rest ensures s.id != live[0].id {
          var i :| 0 <= i < |rest| && rest[i] == s;
        }
      }
    }
  }

  lemma DroppedIds(live: seq<Shape>, wantIds: set<string>)
    ensures Ids(Dropped(live, wantIds)) == Ids(live) - wantIds
  {
    DroppedAre(live, wantIds);
  }

  /** A partial update; every field may be left alone. */
  datatype Patch = Patch(bridge: Option<string>, matchCidr: Option<string>, matchVlan: Option<int>,
                         rate: Option<int>, ceil: Option<int>, priority: Option<int>)

  /** A field takes the value given, and keeps its own when none is. */
  predicate Takes<T(==)>(given: Option<T>, was: T, now: T) {
    (given.Some? ==> now == given.value) && (given.None? ==> now == was)
  }

  /** The same for a field that may be unset; a patch cannot unset it. */
  predicate TakesOptional<T(==)>(given: Option<T>, was: Option<T>, now: Option<T>) {
    (given.Some? ==> now == given) && (given.None? ==> now == was)
  }

  /** What an update makes of a row, field by field. */
  predicate RowPatched(was: Shape, p: Patch, now: Shape) {
    && Takes(p.bridge, was.bridge, now.bridge) && Takes(p.matchCidr, was.matchCidr, now.matchCidr)
    && TakesOptional(p.matchVlan, was.matchVlan, now.matchVlan)
    && Takes(p.rate, was.rate, now.rate)
    && TakesOptional(p.ceil, was.ceil, now.ceil) && TakesOptional(p.priority, was.priority, now.priority)
    && now.id == was.id && now.node == was.node
    && now.createdBy == was.createdBy && now.createdAt == was.createdAt
  }

  function Patched(s: Shape, p: Patch): (now: Shape)
    ensures RowPatched(s, p, now)
  {
    s.(bridge := p.bridge.GetOr(s.bridge),
       matchCidr := p.matchCidr.GetOr(s.matchCidr),
       matchVlan := if p.matchVlan.Some? then p.matchVlan else s.matchVlan,
       rate := p.rate.GetOr(s.rate),
       ceil := if p.ceil.Some? then p.ceil else s.ceil,
       priority := if p.priority.Some? then p.priority else s.priority)
  }

  // ----- rows -----

  /** An update writes everything but the row's node and its creation fields. */
  lemma UpdatedMeans(row: Shape, s: Shape)
    ensures var now := Updated(row, s);
      && now.node == row.node && now.createdBy == row.createdBy && now.createdAt == row.createdAt
      && now.id == s.id && now.bridge == s.bridge && now.matchCidr == s.matchCidr && now.matchVlan == s.matchVlan
      && now.rate == s.rate && now.ceil == s.ceil && now.priority == s.priority && now.updatedAt == s.updatedAt
  {
  }

  /** What a sequence of puts leaves in each row. */
  lemma {:induction false} PutAllAt(store: Store, shapes: seq<Shape>, id: string)
    requires DistinctIds(shapes)
    ensures id in PutAll(store, shapes) <==> id in store || id in Ids(shapes)
    ensures id in store && id !in Ids(shapes) ==> PutAll(store, shapes)[id] == store[id]
    ensures forall i :: 0 <= i < |shapes| && shapes[i].id == id ==>
      PutAll(store, shapes)[id] == if id in store then Updated(store[id], shapes[i]) else shapes[i]
  {
    if shapes != [] {
      var front := shapes[..|shapes| - 1];
      assert shapes == front + [shapes[|shapes| - 1]];
      PutAllAt(store, front, id);
      assert forall i :: 0 <= i < |front| ==> front[i] in front && front[i].id in Ids(front);
      if id == shapes[|shapes| - 1].id {
        assert id !in Ids(front);
      }
    }
  }

  /** Putting again what a first, interrupted pass had already put changes nothing. */
  lemma PutAgain(store: Store, want: seq<Shape>, n: nat)
    requires DistinctIds(want) && n <= |want|
    ensures PutAll(PutAll(store, want[..n]), want) == PutAll(store, want)
  {
    var once := PutAll(store, want[..n]);
    forall id
      ensures id in PutAll(once, want) <==> id in PutAll(store, want)
      ensures id in PutAll(store, want) && id in PutAll(once, want) ==>
        PutAll(once, want)[id] == PutAll(store, want)[id]
    {
      PutAllAt(store, want[..n], id);
      PutAllAt(once, want, id);
      PutAllAt(store, want, id);
      if id in Ids(want) {
        var s :| s in want && s.id == id;
        var i :| 0 <= i < |want| && want[i] == s;
        if i < n { assert want[..n][i] == want[i]; }
      }
      if id in Ids(want[..n]) {
        var s :| s in want[..n] && s.id == id;
        var i :| 0 <= i < n && want[..n][i] == s;
        assert want[i] == s;
      }
    }
    assert PutAll(once, want) == PutAll(store, want);
  }

  lemma DropResumes(start: Store, now: Store, node: string, want: seq<Shape>, live: seq<Shape>, done: seq<Shape>)
    requires IsListing(start, node, live) && now == start - Ids(done)
    requires forall s :: s in done ==> s in Dropped(live, Ids(want))
    ensures Resumable(start, now, node, want)
  {
    DroppedAre(live, Ids(want));
    forall id | id in start && id !in now ensures InScope(start[id], node) && id !in Ids(want) {
      var s :| s in done && s.id == id;
      assert s in live;
    }
    assert Kept(now, node, want) == Kept(start, node, want);
  }

  lemma DropsToKept(start: Store, node: string, want: seq<Shape>, live: seq<Shape>)
    requires KeyedById(start) && IsListing(start, node, live)
    ensures start - Ids(Dropped(live, Ids(want))) == Kept(start, node, want)
  {
    DroppedIds(live, Ids(want));
    forall id | id in start && InScope(start[id], node) ensures id in Ids(live) {
      assert start[id] in live && start[id].id == id;
    }
    assert forall id :: id in Ids(live) ==> id in start && InScope(start[id], node);
  }

  lemma PutResumes(start: Store, node: string, want: seq<Shape>, n: nat)
    requires DistinctIds(want) && n <= |want|
    ensures Resumable(start, PutAll(Kept(start, node, want), want[..n]), node, want)
  {
    var kept := Kept(start, node, want);
    var now := PutAll(kept, want[..n]);
    forall id ensures id in Kept(now, node, want) <==> id in now {
      PutAllAt(kept, want[..n], id);
      assert forall i :: 0 <= i < n ==> want[..n][i] == want[i] && want[i] in want && want[i].id in Ids(want);
    }
    assert Kept(now, node, want) == now;
    PutAgain(kept, want, n);
  }
}
