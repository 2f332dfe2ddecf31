/** The daemon's run group: n actors, each in its own goroutine, sending their results on one
    buffered channel; a receive loop that cancels everything at the first result. */
module RunGroup {
  import opened Prelude

  /** An actor's result: None is a nil error. */
  type Outcome = Option<int>

  /** An actor has not been started, is running its function, has returned and is about to send,
      or has sent its result. */
  datatype Actor = NotStarted | Running | Ready(result: Outcome) | Sent(result: Outcome)

  /** Where run() stands: starting goroutine k, about to receive the k-th result, about to cancel
      after it, or returned. */
  datatype Phase = Starting(k: nat) | Receiving(k: nat) | Cancelling(k: nat) | Done(result: Outcome)

  /** The whole group. `order` and `received` are history: the actors in the order they sent, and
      the results taken off the channel so far. */
  datatype Group = Group(actors: seq<Actor>, chan: seq<Outcome>, phase: Phase, firstErr: Outcome,
                         cancelled: bool, parentCancelled: bool, order: seq<nat>, received: seq<Outcome>)

  datatype Step = Spawn | Finish(i: nat, result: Outcome) | Send(i: nat) | Receive | Cancel | Return | ParentCancel

  function Init(n: nat): Group {
    Group(seq(n, _ => NotStarted), [], if n == 0 then Receiving(0) else Starting(0), None, false, false, [], [])
  }

  /** The first error of a sequence of results. */
  function FirstError(results: seq<Outcome>): Outcome {
    if results == [] then None
    else if results[0].Some? then results[0]
    else FirstError(results[1..])
  }

  lemma {:induction false} FirstErrorWithOneMore(results: seq<Outcome>, r: Outcome)
    ensures FirstError(results + [r]) == if FirstError(results).Some? then FirstError(results) else r
  {
    if results == [] {
      assert (results + [r])[1..] == [];
    } else {
      assert (results + [r])[1..] == results[1..] + [r];
      FirstErrorWithOneMore(results[1..], r);
    }
  }

  /** One atomic step of one goroutine, of the receive loop, or of the parent; None when the step
      cannot be taken. The channel's capacity is the number of actors. */
  function Next(g: Group, step: Step): Option<Group> {
    var n := |g.actors|;
    match step
    case Spawn =>
      if g.phase.Starting? && g.phase.k < n
      then Some(g.(actors := g.actors[g.phase.k := Running],
                   phase := if g.phase.k + 1 == n then Receiving(0) else Starting(g.phase.k + 1)))
      else None
    case Finish(i, result) =>
      if i < n && g.actors[i].Running? then Some(g.(actors := g.actors[i := Ready(result)])) else None
    case Send(i) =>
      if i < n && g.actors[i].Ready? && |g.chan| < n
      then Some(g.(actors := g.actors[i := Sent(g.actors[i].result)],
                   chan := g.chan + [g.actors[i].result],
                   order := g.order + [i]))
      else None
    case Receive =>
      if g.phase.Receiving? && g.phase.k < n && g.chan != []
      then Some(g.(chan := g.chan[1..],
                   received := g.received + [g.chan[0]],
                   firstErr := if g.chan[0].Some? && g.firstErr.None? then g.chan[0] else g.firstErr,
                   phase := Cancelling(g.phase.k)))
      else None
    case Cancel =>
      if g.phase.Cancelling? then Some(g.(cancelled := true, phase := Receiving(g.phase.k + 1))) else None
    case Return =>
      if g.phase.Receiving? && g.phase.k == n then Some(g.(cancelled := true, phase := Done(g.firstErr))) else None
    case ParentCancel =>
      if g.parentCancelled then None else Some(g.(parentCancelled := true))
  }

  /** The receive loop on its own, over the results in the order they arrive. */
  method ReceiveLoop(results: seq<Outcome>) returns (firstErr: Outcome, cancelled: bool)
    ensures firstErr == FirstError(results)
    ensures cancelled <==> results != []
  {
    firstErr, cancelled := None, false;
    for k := 0 to |results|
      invariant firstErr == FirstError(results[..k])
      invariant cancelled <==> k > 0
    {
      assert results[..k + 1] == results[..k] + [results[k]];
      FirstErrorWithOneMore(results[..k], results[k]);
      if results[k].Some? && firstErr.None? {
        firstErr := results[k];
      }
      cancelled := true;
    }
    assert results[..|results|] == results;
  }

  // ----- the invariant -----

  predicate NoRepeats(xs: seq<nat>) {
    forall i, j :: 0 <= i < j < |xs| ==> xs[i] != xs[j]
  }

  /** Who has sent, and what is in flight: the received and the buffered results together are the
      results of the senders, in the order they sent. */
  ghost predicate Accounted(g: Group) {
    var n := |g.actors|;
    && NoRepeats(g.order)
    && (forall j :: 0 <= j < |g.order| ==> g.order[j] < n)
    && (forall i :: 0 <= i < n ==> (i in g.order <==> g.actors[i].Sent?))
    && |g.received| + |g.chan| == |g.order|
    && (forall j :: 0 <= j < |g.order| ==> g.actors[g.order[j]] == Sent((g.received + g.chan)[j]))
  }

  ghost predicate PhaseInv(g: Group) {
    var n := |g.actors|;
    match g.phase
    case Starting(k) =>
      && k < n && !g.cancelled && g.received == []
      && forall i :: 0 <= i < n ==> (g.actors[i].NotStarted? <==> i >= k)
    case Receiving(k) =>
      && |g.received| == k <= n && (g.cancelled <==> k > 0)
      && forall i :: 0 <= i < n ==> !g.actors[i].NotStarted?
    case Cancelling(k) =>
      && |g.received| == k + 1 <= n && (g.cancelled <==> k > 0)
      && forall i :: 0 <= i < n ==> !g.actors[i].NotStarted?
    case Done(result) =>
      && |g.received| == n && g.cancelled && result == g.firstErr
  }

  ghost predicate Inv(g: Group) {
    && Accounted(g)
    && PhaseInv(g)
    && g.firstErr == FirstError(g.received)
  }

  lemma InitInv(n: nat)
    ensures Inv(Init(n))
  {
  }

  lemma SendKeepsAccount(g: Group, i: nat)
    requires Accounted(g) && Next(g, Send(i)).Some?
    ensures Accounted(Next(g, Send(i)).value)
  {
    var h := Next(g, Send(i)).value;
    assert i !in g.order;
    assert h.received + h.chan == (g.received + g.chan) + [g.actors[i].result];
    forall x | 0 <= x < |h.actors| ensures x in h.order <==> h.actors[x].Sent? {
      assert x in h.order <==> x in g.order || x == i;
    }
  }

  lemma ReceiveKeepsAccount(g: Group)
    requires Accounted(g) && Next(g, Receive).Some?
    ensures Accounted(Next(g, Receive).value)
    ensures g.firstErr == FirstError(g.received) ==>
      Next(g, Receive).value.firstErr == FirstError(Next(g, Receive).value.received)
  {
    var h := Next(g, Receive).value;
    assert h.received + h.chan == g.received + g.chan;
    FirstErrorWithOneMore(g.received, g.chan[0]);
  }

  /** Every step of every goroutine keeps the invariant. */
  lemma StepInv(g: Group, step: Step)
    requires Inv(g) && Next(g, step).Some?
    ensures Inv(Next(g, step).value) && |Next(g, step).value.actors| == |g.actors|
  {
    match step
    case Send(i) => SendKeepsAccount(g, i);
    case Receive => ReceiveInv(g);
    case _ =>
  }

  lemma ReceiveInv(g: Group)
    requires Inv(g) && Next(g, Receive).Some?
    ensures Inv(Next(g, Receive).value) && |Next(g, Receive).value.actors| == |g.actors|
  {
    ReceiveKeepsAccount(g);
    OrderFits(g);
  }

  lemma OrderFits(g: Group)
    requires Accounted(g)
    ensures |g.received| + |g.chan| <= |g.actors|
  {
    SizeAtMost(g.order, |g.actors|);
  }

  // ----- counting -----

  function Elements(xs: seq<nat>): (s: set<nat>)
    ensures forall x: nat :: x in s <==> x in xs
    ensures NoRepeats(xs) ==> |s| == |xs|
  {
    if xs == [] then {}
    else
      var front := xs[..|xs| - 1];
      assert xs == front + [xs[|xs| - 1]];
      Elements(front) + {xs[|xs| - 1]}
  }

  function Below(n: nat): (s: set<nat>)
    ensures forall x: nat :: x in s <==> x < n
    ensures |s| == n
  {
    if n == 0 then {} else Below(n - 1) + {n - 1}
  }

  lemma {:induction false} SubsetSize<T>(a: set<T>, b: set<T>)
    requires a <= b
    ensures |a| <= |b|
    ensures |a| == |b| ==> a == b
  {
    if a != {} {
      var x :| x in a;
      SubsetSize(a - {x}, b - {x});
    }
  }

  /** Distinct indices below n are at most n, and are all of them only when there are n. */
  lemma SizeAtMost(xs: seq<nat>, n: nat)
    requires NoRepeats(xs) && forall j :: 0 <= j < |xs| ==> xs[j] < n
    ensures |xs| <= n
    ensures |xs| == n <==> forall i :: 0 <= i < n ==> i in xs
  {
    assert Elements(xs) <= Below(n);
    SubsetSize(Elements(xs), Below(n));
    if forall i :: 0 <= i < n ==> i in xs {
      assert Elements(xs) == Below(n);
    }
    if |xs| == n {
      forall i | 0 <= i < n ensures i in xs { assert i in Below(n); }
    }
  }

  // ----- theorems -----

  ghost predicate IsRun(g: Group, steps: seq<Step>, h: Group)
    decreases |steps|
  {
    if steps == [] then g == h
    else Next(g, steps[0]).Some? && IsRun(Next(g, steps[0]).value, steps[1..], h)
  }

  lemma {:induction false} RunInv(g: Group, steps: seq<Step>, h: Group)
    requires Inv(g) && IsRun(g, steps, h)
    ensures Inv(h) && |h.actors| == |g.actors|
    decreases |steps|
  {
    if steps != [] {
      StepInv(g, steps[0]);
      RunInv(Next(g, steps[0]).value, steps[1..], h);
    }
  }

  /** No actor ever blocks sending its result, in any interleaving. */
  lemma SendNeverBlocks(n: nat, steps: seq<Step>, g: Group, i: nat)
    requires IsRun(Init(n), steps, g)
    requires i < |g.actors| && g.actors[i].Ready?
    ensures Next(g, Send(i)).Some?
  {
    InitInv(n);
    RunInv(Init(n), steps, g);
    SizeAtMost(g.order, n);
    assert i !in g.order;
  }

  lemma NoReadyActorIsStuck(n: nat, steps: seq<Step>, g: Group, i: nat)
    requires IsRun(Init(n), steps, g) && i < |g.actors|
    ensures Next(g, Send(i)).None? ==> !g.actors[i].Ready?
  {
    if g.actors[i].Ready? { SendNeverBlocks(n, steps, g, i); }
  }

  /** The results of the actors, in the order they were sent, which is the order of receipt. */
  function ResultsInOrder(g: Group): (r: seq<Outcome>)
    requires forall j :: 0 <= j < |g.order| ==> g.order[j] < |g.actors| && g.actors[g.order[j]].Sent?
    ensures |r| == |g.order|
  {
    seq(|g.order|, j requires 0 <= j < |g.order| => g.actors[g.order[j]].result)
  }

  lemma {:induction false} FirstErrorIsFirst(results: seq<Outcome>)
    ensures FirstError(results).None? <==> forall j :: 0 <= j < |results| ==> results[j].None?
    ensures FirstError(results).Some? ==>
      exists j :: 0 <= j < |results| && results[j] == FirstError(results) && forall k :: 0 <= k < j ==> results[k].None?
  {
    if results != [] && results[0].None? {
      var rest := results[1..];
      FirstErrorIsFirst(rest);
      assert forall j :: 1 <= j < |results| ==> results[j] == rest[j - 1];
      if FirstError(rest).Some? {
        var j :| 0 <= j < |rest| && rest[j] == FirstError(rest) && forall k :: 0 <= k < j ==> rest[k].None?;
        assert results[j + 1] == FirstError(results);
      }
    }
  }

  /** run() returns only after every actor has returned; it returns nil exactly when all of them
      returned nil, and otherwise the first error in the order of receipt. */
  lemma ReturnMeansAllReturned(n: nat, steps: seq<Step>, g: Group)
    requires IsRun(Init(n), steps, g) && g.phase.Done?
    ensures |g.actors| == n && forall i :: 0 <= i < n ==> g.actors[i].Sent?
    ensures g.phase.result.None? <==> forall i :: 0 <= i < n ==> g.actors[i].result.None?
    ensures (forall j :: 0 <= j < |g.order| ==> g.order[j] < n) && g.phase.result == FirstError(ResultsInOrder(g))
  {
    InitInv(n);
    RunInv(Init(n), steps, g);
    SizeAtMost(g.order, n);
    assert g.chan == [];
    assert g.received + g.chan == g.received;
    assert ResultsInOrder(g) == g.received;
    FirstErrorIsFirst(g.received);
    forall i | 0 <= i < n && g.phase.result.None? ensures g.actors[i].result.None? {
      var j :| 0 <= j < |g.order| && g.order[j] == i;
      assert g.actors[g.order[j]] == Sent(g.received[j]);
    }
    if g.phase.result.Some? {
      var j :| 0 <= j < |g.received| && g.received[j].Some?;
      assert g.actors[g.order[j]] == Sent(g.received[j]);
    }
  }

  // ----- what the actors' functions returned, read off the steps -----

  /** The actors in the order of their Send steps. */
  function Senders(steps: seq<Step>): seq<nat> {
    if steps == [] then []
    else
      var last := steps[|steps| - 1];
      Senders(steps[..|steps| - 1]) + if last.Send? then [last.i] else []
  }

  predicate Finishes(step: Step, i: nat) {
    step.Finish? && step.i == i
  }

  /** Step k is the one step in which actor i's function returns, and r is what it returns. */
  ghost predicate FinishOnce(steps: seq<Step>, i: nat, k: int, r: Outcome) {
    && 0 <= k < |steps| && steps[k] == Finish(i, r)
    && forall j :: 0 <= j < |steps| && Finishes(steps[j], i) ==> j == k
  }

  ghost predicate Returned(steps: seq<Step>, i: nat, r: Outcome) {
    exists k :: FinishOnce(steps, i, k, r)
  }

  ghost predicate NotReturned(steps: seq<Step>, i: nat) {
    forall k :: 0 <= k < |steps| ==> !Finishes(steps[k], i)
  }

  predicate HasReturned(a: Actor) {
    a.Ready? || a.Sent?
  }

  ghost predicate ReturnedOnce(steps: seq<Step>, i: nat) {
    exists k, r :: FinishOnce(steps, i, k, r)
  }

  /** What the group holds of an actor is what its function returned. */
  ghost predicate TracedActor(steps: seq<Step>, g: Group, i: nat) {
    if i < |g.actors| && HasReturned(g.actors[i]) then Returned(steps, i, g.actors[i].result)
    else NotReturned(steps, i)
  }

  ghost predicate Traced(steps: seq<Step>, g: Group) {
    g.order == Senders(steps) && forall i: nat :: TracedActor(steps, g, i)
  }

  lemma OneMoreStep(steps: seq<Step>, step: Step, i: nat)
    ensures NotReturned(steps + [step], i) <==> NotReturned(steps, i) && !Finishes(step, i)
    ensures forall r :: Returned(steps, i, r) && !Finishes(step, i) ==> Returned(steps + [step], i, r)
    ensures NotReturned(steps, i) && Finishes(step, i) ==> Returned(steps + [step], i, step.result)
    ensures Senders(steps + [step]) == Senders(steps) + if step.Send? then [step.i] else []
  {
    var more := steps + [step];
    assert more[..|steps|] == steps && more[|steps|] == step;
    assert forall k :: 0 <= k < |steps| ==> more[k] == steps[k];
    forall r | Returned(steps, i, r) && !Finishes(step, i) ensures Returned(more, i, r) {
      var k :| FinishOnce(steps, i, k, r);
      assert FinishOnce(more, i, k, r);
    }
    if NotReturned(steps, i) && Finishes(step, i) { assert FinishOnce(more, i, |steps|, step.result); }
  }

  /** A step touches an actor's result only by that actor's own return. */
  lemma StepTracesActor(steps: seq<Step>, g: Group, step: Step, i: nat)
    requires PhaseInv(g) && TracedActor(steps, g, i) && Next(g, step).Some?
    ensures TracedActor(steps + [step], Next(g, step).value, i)
  {
    OneMoreStep(steps, step, i);
    var h := Next(g, step).value;
    if Finishes(step, i) {
      assert i < |g.actors| && !HasReturned(g.actors[i]) && h.actors[i] == Ready(step.result);
    } else if i < |g.actors| && HasReturned(g.actors[i]) {
      assert HasReturned(h.actors[i]) && h.actors[i].result == g.actors[i].result;
      assert Returned(steps, i, g.actors[i].result);
    }
  }

  lemma StepTraces(steps: seq<Step>, g: Group, step: Step)
    requires PhaseInv(g) && Traced(steps, g) && Next(g, step).Some?
    ensures Traced(steps + [step], Next(g, step).value)
  {
    OneMoreStep(steps, step, 0);
    forall i: nat ensures TracedActor(steps + [step], Next(g, step).value, i) {
      StepTracesActor(steps, g, step, i);
    }
  }

  lemma {:induction false} RunTraces(done: seq<Step>, g: Group, steps: seq<Step>, h: Group)
    requires Inv(g) && Traced(done, g) && IsRun(g, steps, h)
    ensures Traced(done + steps, h)
    decreases |steps|
  {
    if steps == [] {
      assert done + steps == done;
    } else {
      StepInv(g, steps[0]);
      StepTraces(done, g, steps[0]);
      RunTraces(done + [steps[0]], Next(g, steps[0]).value, steps[1..], h);
      assert done + [steps[0]] + steps[1..] == done + steps;
    }
  }

  lemma FinishIsTheResult(steps: seq<Step>, g: Group, k: nat)
    requires Traced(steps, g) && k < |steps| && steps[k].Finish?
    ensures var i := steps[k].i;
      i < |g.actors| && HasReturned(g.actors[i]) && steps[k].result == g.actors[i].result
  {
    var i := steps[k].i;
    assert Finishes(steps[k], i) && TracedActor(steps, g, i);
    assert !NotReturned(steps, i);
    var at :| FinishOnce(steps, i, at, g.actors[i].result);
  }

  lemma TracedResults(n: nat, steps: seq<Step>, g: Group)
    requires IsRun(Init(n), steps, g) && g.phase.Done?
    ensures Traced(steps, g) && |g.actors| == |g.order| == n && NoRepeats(g.order)
    ensures forall i :: 0 <= i < n ==> i in g.order && g.actors[i].Sent? && Returned(steps, i, g.actors[i].result)
  {
    InitInv(n);
    RunInv(Init(n), steps, g);
    RunTraces([], Init(n), steps, g);
    assert [] + steps == steps;
    SizeAtMost(g.order, n);
    forall i | 0 <= i < n ensures Returned(steps, i, g.actors[i].result) { assert TracedActor(steps, g, i); }
  }

  /** run() against what the functions returned: every one of them has returned, once, and each has
      sent once. run() returns nil if and only if all of them returned nil, and otherwise the error
      returned by the first to send one, everyone who sent before it having returned nil. */
  lemma RunReturnsFirstError(n: nat, steps: seq<Step>, g: Group)
    requires IsRun(Init(n), steps, g) && g.phase.Done?
    ensures forall i :: 0 <= i < n ==> ReturnedOnce(steps, i)
    ensures |Senders(steps)| == n && NoRepeats(Senders(steps)) && forall i :: 0 <= i < n ==> i in Senders(steps)
    ensures g.phase.result.None? <==> forall k :: 0 <= k < |steps| && steps[k].Finish? ==> steps[k].result.None?
    ensures g.phase.result.Some? ==>
      exists j :: 0 <= j < n && FirstToFail(steps, j, g.phase.result)
  {
    TracedResults(n, steps, g);
    ReturnMeansAllReturned(n, steps, g);
    forall i | 0 <= i < n ensures ReturnedOnce(steps, i) && exists k :: FinishOnce(steps, i, k, g.actors[i].result) {
      assert Returned(steps, i, g.actors[i].result);
    }
    NilIffAllNil(n, steps, g);
    ErrorIsTheFirst(n, steps, g);
  }

  /** The j-th sender returned r, and every sender before it returned nil. */
  ghost predicate FirstToFail(steps: seq<Step>, j: nat, r: Outcome) {
    && j < |Senders(steps)| && Returned(steps, Senders(steps)[j], r)
    && forall m :: 0 <= m < j ==> Returned(steps, Senders(steps)[m], None)
  }

  lemma NilIffAllNil(n: nat, steps: seq<Step>, g: Group)
    requires IsRun(Init(n), steps, g) && g.phase.Done?
    ensures g.phase.result.None? <==> forall k :: 0 <= k < |steps| && steps[k].Finish? ==> steps[k].result.None?
  {
    TracedResults(n, steps, g);
    ReturnMeansAllReturned(n, steps, g);
    if g.phase.result.None? {
      forall k | 0 <= k < |steps| && steps[k].Finish? ensures steps[k].result.None? { FinishIsTheResult(steps, g, k); }
    } else {
      var i :| 0 <= i < n && g.actors[i].result.Some?;
      var k :| FinishOnce(steps, i, k, g.actors[i].result);
      assert steps[k].Finish? && steps[k].result.Some?;
    }
  }

  lemma ErrorIsTheFirst(n: nat, steps: seq<Step>, g: Group)
    requires IsRun(Init(n), steps, g) && g.phase.Done?
    ensures g.phase.result.Some? ==>
      exists j :: 0 <= j < n && FirstToFail(steps, j, g.phase.result)
  {
    TracedResults(n, steps, g);
    ReturnMeansAllReturned(n, steps, g);
    var results := ResultsInOrder(g);
    FirstErrorIsFirst(results);
    if g.phase.result.Some? {
      var j :| 0 <= j < n && results[j] == g.phase.result && forall m :: 0 <= m < j ==> results[m].None?;
      forall m | 0 <= m <= j ensures Returned(steps, Senders(steps)[m], results[m]) {
        assert g.order[m] in g.order;
      }
      assert FirstToFail(steps, j, results[j]);
    }
  }

  /** Cancellation holds from the first processed result onward, and not before it unless the
      parent cancelled. */
  lemma CancelledOnceProcessed(n: nat, steps: seq<Step>, g: Group)
    requires IsRun(Init(n), steps, g)
    ensures (g.phase.Receiving? && g.phase.k > 0) || (g.phase.Cancelling? && g.phase.k > 0) || g.phase.Done? <==>
      g.cancelled
  {
    InitInv(n);
    RunInv(Init(n), steps, g);
  }

  function Weight(a: Actor): nat {
    match a
    case NotStarted => 3
    case Running => 2
    case Ready(_) => 1
    case Sent(_) => 0
  }

  function Weights(actors: seq<Actor>): nat {
    if actors == [] then 0 else Weights(actors[..|actors| - 1]) + Weight(actors[|actors| - 1])
  }

  lemma {:induction false} WeightsUpdate(actors: seq<Actor>, i: nat, a: Actor)
    requires i < |actors|
    ensures Weights(actors[i := a]) == Weights(actors) - Weight(actors[i]) + Weight(a)
  {
    var front := actors[..|actors| - 1];
    if i < |front| {
      WeightsUpdate(front, i, a);
      assert actors[i := a][..|actors| - 1] == front[i := a];
    } else {
      assert actors[i := a][..|actors| - 1] == front;
    }
  }

  function PhaseWeight(g: Group): int {
    var n := |g.actors|;
    match g.phase
    case Starting(_) => 2 * n + 2
    case Receiving(k) => 2 * (n - k) + 1
    case Cancelling(k) => 2 * (n - k)
    case Done(_) => 0
  }

  /** The work left: what bounds the rest of any run. */
  function Measure(g: Group): int {
    Weights(g.actors) + PhaseWeight(g) + (if g.parentCancelled then 0 else 1)
  }

  lemma StepDecreases(g: Group, step: Step)
    requires PhaseInv(g) && Next(g, step).Some? && PhaseInv(Next(g, step).value)
    ensures 0 <= Measure(Next(g, step).value) < Measure(g)
  {
    match step
    case Spawn => WeightsUpdate(g.actors, g.phase.k, Running);
    case Finish(i, result) => WeightsUpdate(g.actors, i, Ready(result));
    case Send(i) => WeightsUpdate(g.actors, i, Sent(g.actors[i].result));
    case _ =>
  }

  lemma {:induction false} RunLength(g: Group, steps: seq<Step>, h: Group)
    requires Inv(g) && IsRun(g, steps, h)
    ensures |steps| + Measure(h) <= Measure(g)
    decreases |steps|
  {
    if steps != [] {
      StepInv(g, steps[0]);
      StepDecreases(g, steps[0]);
      RunLength(Next(g, steps[0]).value, steps[1..], h);
    }
  }

  lemma {:induction false} InitWeights(n: nat)
    ensures Weights(Init(n).actors) == 3 * n
  {
    if n > 0 {
      InitWeights(n - 1);
      assert Init(n).actors[..n - 1] == Init(n - 1).actors;
    }
  }

  /** No interleaving goes on for ever: a run of n actors takes at most 5n + 3 steps. */
  lemma RunsAreBounded(n: nat, steps: seq<Step>, g: Group)
    requires IsRun(Init(n), steps, g)
    ensures |steps| <= 5 * n + 3
  {
    InitInv(n);
    InitWeights(n);
    RunInv(Init(n), steps, g);
    RunLength(Init(n), steps, g);
  }

  /** The steps the group takes by itself, without an actor's function returning. */
  predicate OwnStep(step: Step) {
    !step.Finish? && !step.ParentCancel?
  }

  /** Whenever run() has not returned and no step of its own is possible, it waits for an actor
      that is still running; and unless nothing at all has been received yet, everything has been
      cancelled. So, if every actor returns once cancelled, run() returns: runs are bounded, and the
      only state to rest in is the one where every actor is still running and no one cancelled. */
  lemma RestsOnlyUndisturbed(n: nat, steps: seq<Step>, g: Group)
    requires IsRun(Init(n), steps, g) && !g.phase.Done?
    requires forall step :: OwnStep(step) ==> Next(g, step).None?
    ensures |g.actors| == n && exists i :: 0 <= i < n && g.actors[i].Running?
    ensures g.cancelled || forall i :: 0 <= i < n ==> g.actors[i].Running?
  {
    InitInv(n);
    RunInv(Init(n), steps, g);
    assert Next(g, Spawn).None? && Next(g, Receive).None? && Next(g, Cancel).None? && Next(g, Return).None?;
    assert g.phase.Receiving? && g.chan == [];
    SizeAtMost(g.order, n);
    forall i | 0 <= i < n ensures !g.actors[i].Ready? {
      assert OwnStep(Send(i)) && Next(g, Send(i)).None?;
      NoReadyActorIsStuck(n, steps, g, i);
    }
    var i :| 0 <= i < n && i !in g.order;
    assert g.actors[i].Running?;
    if !g.cancelled {
      assert g.order == [];
    }
  }

  /** The group as its users see it: when every actor returns once its context is cancelled, by the
      group or by the parent, the only place to come to rest, other than having returned, is the one
      where nothing at all was cancelled and every actor still runs. With RunsAreBounded, run() returns
      as soon as an actor does or the parent cancels. */
  lemma CancelledGroupReturns(n: nat, steps: seq<Step>, g: Group)
    requires IsRun(Init(n), steps, g)
    requires forall step :: OwnStep(step) ==> Next(g, step).None?
    requires g.cancelled || g.parentCancelled ==> forall i :: 0 <= i < |g.actors| ==> !g.actors[i].Running?
    ensures g.phase.Done? ||
      (!g.cancelled && !g.parentCancelled && |g.actors| == n > 0 && forall i :: 0 <= i < n ==> g.actors[i].Running?)
  {
    if !g.phase.Done? { RestsOnlyUndisturbed(n, steps, g); }
  }
}
