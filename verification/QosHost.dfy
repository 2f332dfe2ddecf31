/** The gateway itself: the calls it makes, in order, and what they leave, whichever of them fail. */
module QosHost {
  import opened Prelude
  import opened QosKernel
  import opened Qos

  /** The log of a restore as far as it got: every drop before any put, each teardown right before
      its row's deletion, each rendering right before its row's write. */
  ghost predicate RestoreLog(ds: seq<Shape>, done: seq<Shape>, tears: seq<nat>, want: seq<Shape>, puts: seq<Event>,
                             ok: bool) {
    && done <= ds && |tears| == |done| && puts <= PutLog(want)
    && (puts != [] ==> done == ds)
    && (ok ==> done == ds && puts == PutLog(want))
  }

  /** Where the drops of a restore stand. */
  ghost predicate Dropping(start: Store, k: Kernel, done: seq<Shape>, tears: seq<nat>, store: Store, kernel: Kernel) {
    && |tears| == |done| && CanRunAll(k, done, tears)
    && kernel == TornDownAll(k, done, tears) && store == start - Ids(done)
  }

  lemma DropLogOneMore(ds: seq<Shape>, tears: seq<nat>, s: Shape, ran: nat)
    requires |ds| == |tears|
    ensures DropLog(ds + [s], tears + [ran]) == DropLog(ds, tears) + [TearDown(s, ran), DeleteRow(s.id)]
  {
    assert (ds + [s])[..|ds|] == ds && (tears + [ran])[..|ds|] == tears;
  }

  lemma TearOneMore(k: Kernel, ds: seq<Shape>, tears: seq<nat>, s: Shape, ran: nat)
    requires |ds| == |tears|
    ensures TornDownAll(k, ds + [s], tears + [ran]) == TornDownTo(TornDownAll(k, ds, tears), s, ran)
    ensures CanRunAll(k, ds + [s], tears + [ran]) <==>
      CanRunAll(k, ds, tears) && CanRun(TornDownAll(k, ds, tears), s, ran)
  {
    assert (ds + [s])[..|ds|] == ds && (tears + [ran])[..|ds|] == tears;
  }

  lemma WorkingOneMore(k: Kernel, ds: seq<Shape>, s: Shape)
    ensures var tears := WorkingTears(k, ds);
      WorkingTears(k, ds + [s]) == tears + [LinesRun(TornDownAll(k, ds, tears), s)]
  {
    assert (ds + [s])[..|ds|] == ds;
  }

  /** One more drop: on success the drops go on, on failure the log accounts for what is left. */
  lemma DropStep(start: Store, k: Kernel, done: seq<Shape>, tears: seq<nat>, store: Store, kernel: Kernel,
                 s: Shape, ran: nat, ok: bool, nowStore: Store, nowKernel: Kernel)
    requires Dropping(start, k, done, tears, store, kernel)
    requires CanRun(kernel, s, ran) && nowKernel == TornDownTo(kernel, s, ran)
    requires nowStore == store - {s.id} || (!ok && nowStore == store)
    ensures ok ==> Dropping(start, k, done + [s], tears + [ran], nowStore, nowKernel)
    ensures CanRunAll(k, done + [s], tears + [ran])
    ensures Accounts(start, k, DropLog(done + [s], tears + [ran]), ok, nowStore, nowKernel)
  {
    TearOneMore(k, done, tears, s, ran);
    DropsTakeRows(start, done, s);
    DropAccounts(start, k, done, tears, s, ran, ok, nowStore);
  }

  lemma DropsTakeRows(store: Store, ds: seq<Shape>, s: Shape)
    ensures store - Ids(ds) - {s.id} == store - Ids(ds + [s])
  {
    IdsOneMore(ds, s);
  }

  lemma DropAccounts(store: Store, k: Kernel, ds: seq<Shape>, tears: seq<nat>, s: Shape, ran: nat, ok: bool,
                     nowStore: Store)
    requires |ds| == |tears|
    requires nowStore == store - Ids(ds + [s]) || (!ok && nowStore == store - Ids(ds))
    ensures Accounts(store, k, DropLog(ds + [s], tears + [ran]), ok, nowStore, TornDownAll(k, ds + [s], tears + [ran]))
  {
    var log, all := DropLog(ds, tears), DropLog(ds + [s], tears + [ran]);
    DropLogOneMore(ds, tears, s, ran);
    DropLogDoes(store, k, ds, tears);
    DropLogDoes(store, k, ds + [s], tears + [ran]);
    LogOneMore(store, k, log, TearDown(s, ran));
    assert all[..|all| - 1] == log + [TearDown(s, ran)];
  }

  lemma DropsComplete(start: Store, k: Kernel, done: seq<Shape>, tears: seq<nat>, store: Store, kernel: Kernel)
    requires Dropping(start, k, done, tears, store, kernel)
    ensures Accounts(start, k, DropLog(done, tears), true, store, kernel)
  {
    DropLogDoes(start, k, done, tears);
  }

  lemma StoppedRows(start: Store, k: Kernel, done: seq<Shape>, tears: seq<nat>, s: Shape, ran: nat, store: Store,
                    kernel: Kernel)
    requires |done| == |tears|
    requires Accounts(start, k, DropLog(done + [s], tears + [ran]), false, store, kernel)
    ensures store == start - Ids(done + [s]) || store == start - Ids(done)
  {
    var front := DropLog(done, tears);
    DropLogOneMore(done, tears, s, ran);
    var log := DropLog(done + [s], tears + [ran]);
    assert log[..|log| - 1] == front + [TearDown(s, ran)];
    LogOneMore(start, k, front, TearDown(s, ran));
    DropLogDoes(start, k, done, tears);
    DropLogDoes(start, k, done + [s], tears + [ran]);
  }

  lemma LastTaken<T>(xs: seq<T>, n: nat)
    requires n < |xs|
    ensures xs[..n + 1] == xs[..n] + [xs[n]]
  {
  }

  /** Drops that stopped leave rows a whole restore still brings to the same end. */
  lemma StoppedDropsResume(start: Store, k: Kernel, node: string, want: seq<Shape>, live: seq<Shape>,
                           done: seq<Shape>, tears: seq<nat>, s: Shape, ran: nat, store: Store, kernel: Kernel)
    requires IsListing(start, node, live) && |done| == |tears|
    requires forall d :: d in done + [s] ==> d in Dropped(live, Ids(want))
    requires Accounts(start, k, DropLog(done + [s], tears + [ran]), false, store, kernel)
    ensures Resumable(start, store, node, want)
  {
    StoppedRows(start, k, done, tears, s, ran, store, kernel);
    if store == start - Ids(done) {
      DropResumes(start, store, node, want, live, done);
    } else {
      DropResumes(start, store, node, want, live, done + [s]);
    }
  }

  lemma FailedDropsResume(start: Store, k: Kernel, node: string, want: seq<Shape>, live: seq<Shape>, done: seq<Shape>,
                          tears: seq<nat>, store: Store, kernel: Kernel)
    requires IsListing(start, node, live) && |done| == |tears| > 0 && done <= Dropped(live, Ids(want))
    requires Accounts(start, k, DropLog(done, tears), false, store, kernel)
    ensures Resumable(start, store, node, want)
    ensures Accounts(start, k, DropLog(done, tears) + [], false, store, kernel)
  {
    assert DropLog(done, tears) + [] == DropLog(done, tears);
    var n := |done| - 1;
    FrontAndLast(done);
    FrontAndLast(tears);
    StoppedDropsResume(start, k, node, want, live, done[..n], tears[..n], done[n], tears[n], store, kernel);
  }

  lemma FrontAndLast<T>(xs: seq<T>)
    requires xs != []
    ensures xs[..|xs| - 1] + [xs[|xs| - 1]] == xs
  {
  }

  /** The puts of a restore come after its drops, and are accounted for after them. */
  lemma AccountsAfterDrops(store: Store, k: Kernel, ds: seq<Shape>, tears: seq<nat>, puts: seq<Event>, ok: bool,
                           nowStore: Store, nowKernel: Kernel)
    requires |ds| == |tears|
    requires Accounts(store - Ids(ds), TornDownAll(k, ds, tears), puts, ok, nowStore, nowKernel)
    ensures Accounts(store, k, DropLog(ds, tears) + puts, ok, nowStore, nowKernel)
  {
    DropLogDoes(store, k, ds, tears);
    AccountsJoin(store, k, DropLog(ds, tears), puts, ok, nowStore, nowKernel);
  }

  lemma AccountsJoin(store: Store, k: Kernel, first: seq<Event>, second: seq<Event>, ok: bool,
                     nowStore: Store, nowKernel: Kernel)
    requires Accounts(StoreAfter(store, first), KernelAfter(k, first), second, ok, nowStore, nowKernel)
    requires second == [] ==> ok || Accounts(store, k, first, ok, nowStore, nowKernel)
    ensures Accounts(store, k, first + second, ok, nowStore, nowKernel)
  {
    LogJoin(store, k, first, second);
    if second == [] {
      assert first + second == first;
    } else {
      LogJoin(store, k, first, second[..|second| - 1]);
      assert (first + second)[..|first + second| - 1] == first + second[..|second| - 1];
    }
  }

  /** The two halves of a restore together. */
  lemma RestoreEnds(start: Store, k: Kernel, node: string, want: seq<Shape>, live: seq<Shape>, done: seq<Shape>,
                    tears: seq<nat>, puts: seq<Event>, ok: bool,
                    midStore: Store, mid: Kernel, store: Store, kernel: Kernel)
    requires KeyedById(start) && IsListing(start, node, live)
    requires done == Dropped(live, Ids(want)) && |tears| == |done|
    requires Accounts(start, k, DropLog(done, tears), true, midStore, mid)
    requires (ok ==> puts == PutLog(want)) && Accounts(midStore, mid, puts, ok, store, kernel)
    requires exists n :: 0 <= n <= |want| && store == PutAll(midStore, want[..n])
    ensures Accounts(start, k, DropLog(done, tears) + puts, ok, store, kernel)
    ensures ok ==> store == RestoredStore(start, node, want) && kernel == WithShapes(TornDownAll(k, done, tears), want)
    ensures DistinctIds(want) ==> Resumable(start, store, node, want)
  {
    DropLogDoes(start, k, done, tears);
    AccountsAfterDrops(start, k, done, tears, puts, ok, store, kernel);
    DropsToKept(start, node, want, live);
    PutLogDoes(midStore, mid, want);
    if DistinctIds(want) {
      var n :| 0 <= n <= |want| && store == PutAll(midStore, want[..n]);
      PutResumes(start, node, want, n);
    }
  }

  /** What trying one shape logs. */
  function Attempted(s: Shape, rendered: bool): seq<Event> {
    if RenderTC(s).None? then [] else [Render(s)] + if rendered then [PutRow(s)] else []
  }

  /** What trying one shape leaves: an invalid shape nothing; a rendering that fails, part of it; after
      a rendering the row too, which a write that fails may or may not have stored. */
  ghost predicate OneTried(store: Store, k: Kernel, s: Shape, ok: bool, rendered: bool, nowStore: Store,
                           nowKernel: Kernel) {
    && (ok ==> rendered) && (rendered ==> RenderTC(s).Some?)
    && if rendered then nowKernel == WithShape(k, s) && (nowStore == Put(store, s) || (!ok && nowStore == store))
       else nowStore == store && if RenderTC(s).None? then nowKernel == k else RenderedInPart(k, s, nowKernel)
  }

  /** The puts logged when shape `i` is the last one tried. */
  function Tried(want: seq<Shape>, i: nat, rendered: bool): seq<Event>
    requires i < |want|
  {
    PutLog(want[..i]) + Attempted(want[i], rendered)
  }

  lemma LongerPrefix<T>(a: seq<T>, b: seq<T>, c: seq<T>, whole: seq<T>)
    requires b <= c && a + c <= whole
    ensures a + b <= whole
  {
    assert a + b <= a + c;
  }

  lemma TriedIsPart(want: seq<Shape>, i: nat, rendered: bool)
    requires i < |want|
    ensures Tried(want, i, rendered) <= PutLog(want)
  {
    PutLogContinues(want, i);
    LongerPrefix(PutLog(want[..i]), Attempted(want[i], rendered), [Render(want[i]), PutRow(want[i])], PutLog(want));
  }

  /** A shape that is invalid, fails to render, or fails to be stored ends the puts, and the log
      accounts for what is left. */
  lemma TriedAccounts(start: Store, k: Kernel, want: seq<Shape>, i: nat, rendered: bool, store: Store, kernel: Kernel)
    requires i < |want|
    requires OneTried(PutAll(start, want[..i]), WithShapes(k, want[..i]), want[i], false, rendered, store, kernel)
    ensures Accounts(start, k, Tried(want, i, rendered), false, store, kernel)
  {
    var log, s := PutLog(want[..i]), want[i];
    PutLogDoes(start, k, want[..i]);
    LogOneMore(start, k, log, Render(s));
    LogOneMore(start, k, log + [Render(s)], PutRow(s));
    if RenderTC(s).None? {
      assert Tried(want, i, rendered) == log;
    } else if rendered {
      assert Tried(want, i, rendered) == log + [Render(s)] + [PutRow(s)];
    } else {
      assert Tried(want, i, rendered) == log + [Render(s)];
    }
  }

  lemma PutOneMore(start: Store, k: Kernel, want: seq<Shape>, i: nat)
    requires i < |want|
    ensures PutAll(start, want[..i + 1]) == Put(PutAll(start, want[..i]), want[i])
    ensures WithShapes(k, want[..i + 1]) == WithShape(WithShapes(k, want[..i]), want[i])
    ensures PutLog(want[..i + 1]) == PutLog(want[..i]) + [Render(want[i]), PutRow(want[i])]
  {
    assert want[..i + 1][..i] == want[..i];
  }

  /** Where the puts of a restore stand: the first `i` shapes are rendered and stored. */
  ghost predicate Putting(start: Store, k: Kernel, want: seq<Shape>, i: nat, store: Store, kernel: Kernel) {
    i <= |want| && store == PutAll(start, want[..i]) && kernel == WithShapes(k, want[..i])
  }

  /** The puts ended: the log accounts for what is left, and the rows are those of some first shapes. */
  ghost predicate PutsEnd(start: Store, k: Kernel, want: seq<Shape>, puts: seq<Event>, ok: bool, store: Store,
                          kernel: Kernel) {
    && puts <= PutLog(want) && (ok ==> puts == PutLog(want))
    && Accounts(start, k, puts, ok, store, kernel)
    && exists n :: 0 <= n <= |want| && store == PutAll(start, want[..n])
  }

  lemma PutsComplete(start: Store, k: Kernel, want: seq<Shape>, store: Store, kernel: Kernel)
    requires Putting(start, k, want, |want|, store, kernel)
    ensures PutsEnd(start, k, want, PutLog(want), true, store, kernel)
  {
    assert want[..|want|] == want;
    PutLogDoes(start, k, want);
  }

  lemma PutStops(start: Store, k: Kernel, want: seq<Shape>, i: nat, rendered: bool, store: Store, kernel: Kernel)
    requires i < |want|
    requires OneTried(PutAll(start, want[..i]), WithShapes(k, want[..i]), want[i], false, rendered, store, kernel)
    ensures PutsEnd(start, k, want, Tried(want, i, rendered), false, store, kernel)
  {
    TriedAccounts(start, k, want, i, rendered, store, kernel);
    TriedIsPart(want, i, rendered);
    PutOneMore(start, k, want, i);
    assert store == PutAll(start, want[..i]) || store == PutAll(start, want[..i + 1]);
  }

  lemma PutGoesOn(start: Store, k: Kernel, want: seq<Shape>, i: nat, store: Store, kernel: Kernel)
    requires i < |want|
    requires OneTried(PutAll(start, want[..i]), WithShapes(k, want[..i]), want[i], true, true, store, kernel)
    ensures Putting(start, k, want, i + 1, store, kernel) && Tried(want, i, true) == PutLog(want[..i + 1])
  {
    PutOneMore(start, k, want, i);
    assert Attempted(want[i], true) == [Render(want[i]), PutRow(want[i])];
  }

  lemma PutNext(start: Store, k: Kernel, want: seq<Shape>, i: nat, ok: bool, rendered: bool,
                midStore: Store, mid: Kernel, store: Store, kernel: Kernel)
    requires i < |want| && Putting(start, k, want, i, midStore, mid)
    requires OneTried(midStore, mid, want[i], ok, rendered, store, kernel)
    ensures ok ==> Putting(start, k, want, i + 1, store, kernel) && Tried(want, i, rendered) == PutLog(want[..i + 1])
    ensures !ok ==> PutsEnd(start, k, want, Tried(want, i, rendered), false, store, kernel)
  {
    if ok {
      PutGoesOn(start, k, want, i, store, kernel);
    } else {
      PutStops(start, k, want, i, rendered, store, kernel);
    }
  }

  /** The log of an update. */
  function UpdateLog(row: Shape, s: Shape, ran: nat, now: int): seq<Event> {
    [TearDown(row, ran), Render(s), PutRow(s.(updatedAt := now))]
  }

  lemma UpdateAccounts(store: Store, k: Kernel, row: Shape, s: Shape, ran: nat, now: int)
    ensures var torn, log := TornDownTo(k, row, ran), UpdateLog(row, s, ran, now);
      && log[..1] == [TearDown(row, ran)] && log[..2] == [TearDown(row, ran), Render(s)] && log[..3] == log
      && StoreAfter(store, log[..1]) == store && KernelAfter(k, log[..1]) == torn
      && StoreAfter(store, log[..2]) == store && KernelAfter(k, log[..2]) == WithShape(torn, s)
      && StoreAfter(store, log) == Put(store, s.(updatedAt := now)) && KernelAfter(k, log) == WithShape(torn, s)
  {
    var log := UpdateLog(row, s, ran, now);
    assert [] + [log[0]] == log[..1];
    LogOneMore(store, k, [], log[0]);
    assert log[..1] + [log[1]] == log[..2];
    LogOneMore(store, k, log[..1], log[1]);
    assert log[..2] + [log[2]] == log;
    LogOneMore(store, k, log[..2], log[2]);
  }

  class QosGateway {
    const localNode: string
    const reliable: bool
    var store: Store
    var kernel: Kernel
    var events: seq<Event>

    constructor (localNode: string, reliable: bool, store: Store, kernel: Kernel)
      ensures this.localNode == localNode && this.reliable == reliable
      ensures this.store == store && this.kernel == kernel && events == []
    {
      this.localNode, this.reliable, this.store, this.kernel, events := localNode, reliable, store, kernel, [];
    }

    /** Only the local node's shapes can be applied; an unknown local name allows any. */
    function EnsureLocal(node: string): bool {
      localNode == "" || node == localNode
    }

    /** Run tc lines up to the first failure: the first `n` of them take effect, all of them when it
        succeeds. A line that is reported as failed may be the last of the n. */
    method Exec(lines: seq<Line>) returns (ok: bool, n: nat)
      modifies this`kernel
      ensures n <= |lines| && Run(old(kernel), lines[..n]) == (kernel, true)
      ensures ok ==> n == |lines|
      ensures reliable ==> (ok <==> n == |lines|)
      ensures reliable && n < |lines| ==> ExecLine(kernel, lines[n]).None?
    {
      assert lines[..0] == [];
      for i := 0 to |lines|
        invariant Run(old(kernel), lines[..i]) == (kernel, true)
      {
        RunOneMore(old(kernel), lines[..i], lines[i]);
        assert lines[..i + 1] == lines[..i] + [lines[i]];
        var next := ExecLine(kernel, lines[i]);
        if next.None? { return false, i; }
        var fault: bool, landed: bool := *, *;
        if !reliable && fault && !landed { return false, i; }
        kernel := next.value;
        if !reliable && fault { return false, i + 1; }
      }
      assert lines[..|lines|] == lines;
      ok, n := true, |lines|;
    }

    /** Attempt a teardown; a failure is only logged. */
    method TearDownShape(s: Shape) returns (ran: nat)
      modifies this`kernel, this`events
      ensures events == old(events) + [TearDown(s, ran)]
      ensures CanRun(old(kernel), s, ran) && kernel == TornDownTo(old(kernel), s, ran)
      ensures reliable ==> ran == LinesRun(old(kernel), s)
    {
      ghost var before := kernel;
      var complete;
      complete, ran := Exec(RenderTCTeardown(s));
      TeardownPrefix(before, s, ran);
      if reliable { StopsAtLinesRun(before, s, ran); }
      events := events + [TearDown(s, ran)];
    }

    method RenderShape(s: Shape, lines: seq<Line>) returns (ok: bool)
      requires RenderTC(s) == Some(lines)
      modifies this`kernel, this`events
      ensures events == old(events) + [Render(s)]
      ensures RenderedInPart(old(kernel), s, kernel)
      ensures ok ==> kernel == WithShape(old(kernel), s)
      ensures reliable ==> ok
    {
      ghost var before := kernel;
      events := events + [Render(s)];
      var n;
      ok, n := Exec(lines);
      RenderInstalls(before, s);
      assert lines[..|lines|] == lines;
      if n < |lines| { RenderNeverStops(before, s, n); }
    }

    method List(node: string) returns (r: Option<seq<Shape>>)
      requires KeyedById(store)
      ensures r.Some? ==> IsListing(store, node, r.value)
      ensures reliable ==> r.Some?
    {
      var fault: bool := *;
      if !reliable && fault { return None; }
      var left, out := store.Keys, [];
      while left != {}
        invariant left <= store.Keys
        invariant DistinctIds(out)
        invariant forall s :: s in out ==> s.id in store && s.id !in left && store[s.id] == s && InScope(s, node)
        invariant forall id :: id in store && id !in left && InScope(store[id], node) ==> store[id] in out
      {
        var id :| id in left;
        left := left - {id};
        if InScope(store[id], node) {
          assert forall i :: 0 <= i < |out| ==> out[i] in out;
          out := out + [store[id]];
        }
      }
      r := Some(out);
    }

    method RepoDelete(id: string) returns (ok: bool)
      modifies this`store, this`events
      ensures events == old(events) + [DeleteRow(id)]
      ensures store == old(store) - {id} || (!ok && store == old(store))
      ensures reliable ==> ok
    {
      events := events + [DeleteRow(id)];
      var fault: bool, landed: bool := *, *;
      ok := reliable || !fault;
      if ok || landed { store := store - {id}; }
    }

    method RepoUpdate(s: Shape) returns (ok: bool)
      requires s.id in store
      modifies this`store, this`events
      ensures events == old(events) + [PutRow(s)]
      ensures store == Put(old(store), s) || (!ok && store == old(store))
      ensures reliable ==> ok
    {
      events := events + [PutRow(s)];
      var fault: bool, landed: bool := *, *;
      ok := reliable || !fault;
      if ok || landed { store := store[s.id := Updated(store[s.id], s)]; }
    }

    /** Get; insert when that fails, update otherwise. An insert is refused when the row exists. */
    method RepoPut(s: Shape) returns (ok: bool)
      modifies this`store, this`events
      ensures events == old(events) + [PutRow(s)]
      ensures store == Put(old(store), s) || (!ok && store == old(store))
      ensures reliable ==> ok
    {
      var getFault: bool := *;
      if s.id in store && (reliable || !getFault) {
        ok := RepoUpdate(s);
        return;
      }
      events := events + [PutRow(s)];
      if s.id in store { return false; }
      var fault: bool, landed: bool := *, *;
      ok := reliable || !fault;
      if ok || landed { store := store[s.id := s]; }
    }

    /** Attempt a shape's teardown, then delete its row whatever came of it. */
    method DropOne(s: Shape) returns (ok: bool, ran: nat)
      modifies this`store, this`kernel, this`events
      ensures events == old(events) + [TearDown(s, ran), DeleteRow(s.id)]
      ensures CanRun(old(kernel), s, ran) && kernel == TornDownTo(old(kernel), s, ran)
      ensures store == old(store) - {s.id} || (!ok && store == old(store))
      ensures reliable ==> ok && ran == LinesRun(old(kernel), s)
    {
      ran := TearDownShape(s);
      ok := RepoDelete(s.id);
    }

    /** Render a shape, then store its row if tc accepted it. */
    method ApplyOne(s: Shape) returns (ok: bool, rendered: bool)
      modifies this`store, this`kernel, this`events
      ensures events == old(events) + Attempted(s, rendered)
      ensures OneTried(old(store), old(kernel), s, ok, rendered, store, kernel)
      ensures reliable && RenderTC(s).Some? ==> ok && rendered
    {
      ok, rendered := false, false;
      var lines := RenderTC(s);
      if lines.None? { return; }
      rendered := RenderShape(s, lines.value);
      if !rendered { return; }
      ok := RepoPut(s);
    }

    method DeleteShape(node: string, id: string) returns (ok: bool, ran: nat)
      requires KeyedById(store)
      modifies this`store, this`kernel, this`events
      ensures (localNode != "" && node != localNode) || id !in old(store) ==>
        !ok && store == old(store) && kernel == old(kernel) && events == old(events)
      ensures events == old(events) ==> !ok && store == old(store) && kernel == old(kernel)
      ensures events != old(events) ==>
        var s := old(store)[id];
        && id in old(store) && events == old(events) + [TearDown(s, ran), DeleteRow(id)]
        && CanRun(old(kernel), s, ran) && kernel == TornDownTo(old(kernel), s, ran)
        && (store == old(store) - {id} || (!ok && store == old(store)))
      ensures reliable && (localNode == "" || node == localNode) && id in old(store) ==>
        ok && ran == LinesRun(old(kernel), old(store)[id])
    {
      ok, ran := false, 0;
      if !EnsureLocal(node) { return; }
      var fault: bool := *;
      if id !in store || (!reliable && fault) { return; }
      ok, ran := DropOne(store[id]);
    }

    /** Tear the old rendering down, whatever comes of it; render the patched shape; store it. */
    method UpdateShape(node: string, id: string, patch: Patch, now: int)
      returns (ok: bool, ran: nat, ghost log: seq<Event>)
      requires KeyedById(store)
      modifies this`store, this`kernel, this`events
      ensures events == old(events) + log
      ensures (localNode != "" && node != localNode) || id !in old(store) ==> !ok && log == []
      ensures log == [] ==> !ok && store == old(store) && kernel == old(kernel)
      ensures log != [] ==>
        && id in old(store) && CanRun(old(kernel), old(store)[id], ran)
        && log <= UpdateLog(old(store)[id], Patched(old(store)[id], patch), ran, now)
        && Accounts(old(store), old(kernel), log, ok, store, kernel)
      ensures ok ==>
        && log == UpdateLog(old(store)[id], Patched(old(store)[id], patch), ran, now)
        && store == old(store)[id := Patched(old(store)[id], patch).(updatedAt := now)]
        && RowPatched(old(store)[id], patch, store[id]) && store[id].updatedAt == now
        && InForce(kernel, store[id])
      ensures reliable && (localNode == "" || node == localNode) && id in old(store) ==>
        && ran == LinesRun(old(kernel), old(store)[id])
        && (ok <==> RenderTC(Patched(old(store)[id], patch)).Some?)
    {
      ok, ran, log := false, 0, [];
      if !EnsureLocal(node) { return; }
      var fault: bool := *;
      if id !in store || (!reliable && fault) { return; }
      ok, ran, log := Replace(store[id], Patched(store[id], patch), now);
    }

    /** Tear one rendering down, install and store another. */
    method Replace(row: Shape, s: Shape, now: int) returns (ok: bool, ran: nat, ghost log: seq<Event>)
      requires row.id in store && store[row.id] == row && s.id == row.id
      modifies this`store, this`kernel, this`events
      ensures events == old(events) + log && log != []
      ensures CanRun(old(kernel), row, ran) && log <= UpdateLog(row, s, ran, now)
      ensures Accounts(old(store), old(kernel), log, ok, store, kernel)
      ensures ok ==> log == UpdateLog(row, s, ran, now) && store == Put(old(store), s.(updatedAt := now))
      ensures ok ==> InForce(kernel, s)
      ensures reliable ==> ran == LinesRun(old(kernel), row) && (ok <==> RenderTC(s).Some?)
    {
      ok := false;
      ghost var start, k := store, kernel;
      ran := TearDownShape(row);
      ghost var whole := UpdateLog(row, s, ran, now);
      UpdateAccounts(start, k, row, s, ran, now);
      log := whole[..1];
      var lines := RenderTC(s);
      if lines.None? { return; }
      var rendered := RenderShape(s, lines.value);
      log := whole[..2];
      assert whole[..2][..1] == whole[..1];
      if !rendered { return; }
      RenderInstalls(TornDownTo(k, row, ran), s);
      ok := RepoUpdate(s.(updatedAt := now));
      log := whole;
    }

    /** Serialise the node's shapes. */
    method SnapshotQos(node: string) returns (r: Option<seq<Shape>>)
      requires KeyedById(store)
      ensures r.Some? ==> IsListing(store, node, r.value)
      ensures reliable ==> r.Some?
    {
      r := List(node);
    }

    /** Tear down and delete the rows the snapshot does not name: `done` are the shapes tried, and
        `tears` records how far each teardown got. On failure it is the last row tried whose deletion
        failed. */
    method DropOthers(want: seq<Shape>, live: seq<Shape>)
      returns (ok: bool, ghost done: seq<Shape>, ghost tears: seq<nat>)
      modifies this`store, this`kernel, this`events
      ensures done <= Dropped(live, Ids(want)) && |tears| == |done|
      ensures if ok then done == Dropped(live, Ids(want)) else done != []
      ensures events == old(events) + DropLog(done, tears)
      ensures CanRunAll(old(kernel), done, tears)
      ensures Accounts(old(store), old(kernel), DropLog(done, tears), ok, store, kernel)
      ensures reliable ==> ok && tears == WorkingTears(old(kernel), done)
    {
      done, tears := [], [];
      var wantIds := Ids(want);
      ghost var start, k, log := store, kernel, events;
      assert start - Ids(done) == start;
      for i := 0 to |live|
        invariant done == Dropped(live[..i], wantIds)
        invariant Dropping(start, k, done, tears, store, kernel)
        invariant events == log + DropLog(done, tears)
        invariant reliable ==> tears == WorkingTears(k, done)
      {
        LastTaken(live, i);
        DroppedOneMore(live[..i], live[i], wantIds);
        if live[i].id in wantIds { continue; }
        ok, done, tears := DropNext(live[i], start, k, log, done, tears);
        if !ok {
          DroppedPrefix(live, i + 1, wantIds);
          return;
        }
      }
      assert live[..|live|] == live;
      DropsComplete(start, k, done, tears, store, kernel);
      ok := true;
    }

    /** Drop one more shape, recording it. */
    method DropNext(s: Shape, ghost start: Store, ghost k: Kernel, ghost log: seq<Event>, ghost done: seq<Shape>,
                    ghost tears: seq<nat>)
      returns (ok: bool, ghost more: seq<Shape>, ghost moreTears: seq<nat>)
      requires Dropping(start, k, done, tears, store, kernel)
      requires events == log + DropLog(done, tears) && (reliable ==> tears == WorkingTears(k, done))
      modifies this`store, this`kernel, this`events
      ensures more == done + [s] && |moreTears| == |more|
      ensures events == log + DropLog(more, moreTears)
      ensures CanRunAll(k, more, moreTears)
      ensures Accounts(start, k, DropLog(more, moreTears), ok, store, kernel)
      ensures ok ==> Dropping(start, k, more, moreTears, store, kernel)
      ensures reliable ==> ok && moreTears == WorkingTears(k, more)
    {
      ghost var storeBefore, kernelBefore := store, kernel;
      var ran;
      ok, ran := DropOne(s);
      DropStep(start, k, done, tears, storeBefore, kernelBefore, s, ran, ok, store, kernel);
      DropLogOneMore(done, tears, s, ran);
      WorkingOneMore(k, done, s);
      more, moreTears := done + [s], tears + [ran];
    }

    /** Render and store the wanted shapes, in order, up to the first call that fails. */
    method ApplyWanted(want: seq<Shape>) returns (ok: bool, ghost puts: seq<Event>)
      modifies this`store, this`kernel, this`events
      ensures events == old(events) + puts && puts <= PutLog(want) && (ok ==> puts == PutLog(want))
      ensures Accounts(old(store), old(kernel), puts, ok, store, kernel)
      ensures exists n :: 0 <= n <= |want| && store == PutAll(old(store), want[..n])
      ensures ok ==> forall s :: s in want ==> RenderTC(s).Some?
      ensures reliable && (forall s :: s in want ==> RenderTC(s).Some?) ==> ok
    {
      ghost var start, k, log := store, kernel, events;
      assert want[..0] == [];
      for i := 0 to |want|
        invariant Putting(start, k, want, i, store, kernel)
        invariant events == log + PutLog(want[..i])
        invariant forall j :: 0 <= j < i ==> RenderTC(want[j]).Some?
      {
        ok, puts := ApplyNext(want, i, start, k, log);
        if !ok { return; }
      }
      PutsComplete(start, k, want, store, kernel);
      assert want[..|want|] == want;
      ok, puts := true, PutLog(want);
    }

    /** Render and store one more shape, recording it. */
    method ApplyNext(want: seq<Shape>, i: nat, ghost start: Store, ghost k: Kernel, ghost log: seq<Event>)
      returns (ok: bool, ghost puts: seq<Event>)
      requires i < |want| && Putting(start, k, want, i, store, kernel)
      requires events == log + PutLog(want[..i])
      modifies this`store, this`kernel, this`events
      ensures events == log + puts
      ensures ok ==> RenderTC(want[i]).Some? && puts == PutLog(want[..i + 1])
      ensures ok ==> Putting(start, k, want, i + 1, store, kernel)
      ensures !ok ==> PutsEnd(start, k, want, puts, false, store, kernel)
      ensures reliable && RenderTC(want[i]).Some? ==> ok
    {
      ghost var midStore, mid := store, kernel;
      var rendered;
      ok, rendered := ApplyOne(want[i]);
      PutNext(start, k, want, i, ok, rendered, midStore, mid, store, kernel);
      puts := Tried(want, i, rendered);
    }

    /** Bring a node's shapes back to a snapshot of them. In every outcome the log says which calls
        were made, how far each teardown got, and what rows and kernel are left. */
    method RestoreQos(node: string, want: seq<Shape>)
      returns (ok: bool, ghost live: seq<Shape>, ghost done: seq<Shape>, ghost tears: seq<nat>, ghost puts: seq<Event>)
      requires KeyedById(store)
      modifies this`store, this`kernel, this`events
      ensures localNode != "" && node != localNode ==> !ok && events == old(events)
      ensures ok || events != old(events) ==> IsListing(old(store), node, live)
      ensures RestoreLog(Dropped(live, Ids(want)), done, tears, want, puts, ok)
      ensures events == old(events) + DropLog(done, tears) + puts
      ensures CanRunAll(old(kernel), done, tears)
      ensures Accounts(old(store), old(kernel), DropLog(done, tears) + puts, ok, store, kernel)
      ensures ok ==>
        && store == RestoredStore(old(store), node, want)
        && kernel == WithShapes(TornDownAll(old(kernel), done, tears), want)
      ensures reliable && ok ==> tears == WorkingTears(old(kernel), done)
      ensures reliable && (localNode == "" || node == localNode) && (forall s :: s in want ==> RenderTC(s).Some?) ==> ok
      ensures DistinctIds(want) ==> Resumable(old(store), store, node, want)
    {
      live, done, tears, puts := [], [], [], [];
      if !EnsureLocal(node) { return false, live, done, tears, puts; }
      var listed := List(node);
      if listed.None? { return false, live, done, tears, puts; }
      live := listed.value;
      ghost var start, k := store, kernel;
      ok, done, tears := DropOthers(want, listed.value);
      if !ok {
        FailedDropsResume(start, k, node, want, live, done, tears, store, kernel);
        return;
      }
      ghost var midStore, mid := store, kernel;
      ok, puts := ApplyWanted(want);
      RestoreEnds(start, k, node, want, live, done, tears, puts, ok, midStore, mid, store, kernel);
    }
  }
}
