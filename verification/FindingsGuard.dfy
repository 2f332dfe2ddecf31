/** The watcher behind the automatic canary gate: the instant each finding was first seen, kept over
    an unbounded stream of findings cycles, and the verdict a canary hold is promoted on. */
module FindingsGuard {
  import opened Prelude

  /** A finding names nodes directly and through references; a reference that does not parse names
      none. */
  datatype Finding = Finding(id: string, isError: bool, nodes: seq<string>, refNodes: seq<Option<string>>)

  datatype Cycle = Cycle(at: int, findings: seq<Finding>)

  datatype Verdict = NoEvidence | Clean | NewErrors(ids: seq<string>)

  function Ids(fs: seq<Finding>): set<string> {
    set f | f in fs :: f.id
  }

  // ----- attribution -----

  /** The finding names the node, directly or through a reference. */
  predicate Names(f: Finding, node: string) {
    node != "" && (node in f.nodes || Some(node) in f.refNodes)
  }

  /** The finding names one of the nodes. */
  predicate Attributable(f: Finding, nodes: seq<string>) {
    exists n :: n in nodes && Names(f, n)
  }

  ghost predicate NamesOneOf(f: Finding, want: set<string>) {
    exists n :: n in want && Names(f, n)
  }

  method AttributableToNodes(f: Finding, want: set<string>) returns (yes: bool)
    ensures yes <==> NamesOneOf(f, want)
  {
    for i := 0 to |f.nodes|
      invariant forall k :: 0 <= k < i ==> f.nodes[k] == "" || f.nodes[k] !in want
    {
      if f.nodes[i] != "" && f.nodes[i] in want {
        assert Names(f, f.nodes[i]);
        return true;
      }
    }
    for i := 0 to |f.refNodes|
      invariant forall k :: 0 <= k < i ==> f.refNodes[k].Some? ==>
        f.refNodes[k].value == "" || f.refNodes[k].value !in want
    {
      if f.refNodes[i].Some? && f.refNodes[i].value != "" && f.refNodes[i].value in want {
        assert Some(f.refNodes[i].value) in f.refNodes && Names(f, f.refNodes[i].value);
        return true;
      }
    }
    yes := false;
  }

  // ----- history -----

  /** Cycle k begins the unbroken run of presence of `id` that reaches the last cycle. */
  ghost predicate RunBegins(history: seq<Cycle>, id: string, k: int) {
    && 0 <= k < |history|
    && (forall c :: k <= c < |history| ==> id in Ids(history[c].findings))
    && (k == 0 || id !in Ids(history[k - 1].findings))
  }

  /** The time the current run of an id began. */
  function RunStart(history: seq<Cycle>, id: string): int
    requires history != [] && id in Ids(history[|history| - 1].findings)
  {
    var n := |history| - 1;
    if n > 0 && id in Ids(history[n - 1].findings) then RunStart(history[..n], id) else history[n].at
  }

  /** RunStart is the time of the one cycle where the current run begins. */
  lemma {:induction false} RunStartIsTheBeginning(history: seq<Cycle>, id: string, k: int)
    requires RunBegins(history, id, k)
    ensures RunStart(history, id) == history[k].at
  {
    var n := |history| - 1;
    if k < n {
      assert id in Ids(history[n - 1].findings);
      assert RunBegins(history[..n], id, k);
      RunStartIsTheBeginning(history[..n], id, k);
    }
  }

  lemma {:induction false} EveryRunBegins(history: seq<Cycle>, id: string) returns (k: int)
    requires history != [] && id in Ids(history[|history| - 1].findings)
    ensures RunBegins(history, id, k)
  {
    var n := |history| - 1;
    if n > 0 && id in Ids(history[n - 1].findings) {
      k := EveryRunBegins(history[..n], id);
    } else {
      k := n;
    }
  }

  /** A finding that clears and comes back is new again. */
  lemma ReturningIsNew(history: seq<Cycle>, gone: Cycle, back: Cycle, id: string)
    requires id !in Ids(gone.findings) && id in Ids(back.findings)
    ensures RunStart(history + [gone] + [back], id) == back.at
  {
    var all := history + [gone] + [back];
    assert all[|all| - 2] == gone && all[|all| - 1] == back;
  }

  // ----- the guard -----

  /** What the verdict is by definition, over the whole history. */
  ghost predicate IsNewError(history: seq<Cycle>, f: Finding, nodes: seq<string>, since: int)
    requires history != []
  {
    && f in history[|history| - 1].findings
    && f.isError
    && RunStart(history, f.id) >= since
    && Attributable(f, nodes)
  }

  /** The ids of the new errors among some findings of the last cycle, in their order. */
  ghost function NewErrorIds(history: seq<Cycle>, fs: seq<Finding>, nodes: seq<string>, since: int): seq<string>
    requires history != []
  {
    if fs == [] then []
    else
      var rest := NewErrorIds(history, fs[1..], nodes, since);
      (if IsNewError(history, fs[0], nodes, since) then [fs[0].id] else []) + rest
  }

  lemma {:induction false} NewErrorIdsOneMore(history: seq<Cycle>, fs: seq<Finding>, f: Finding, nodes: seq<string>,
                                              since: int)
    requires history != []
    ensures NewErrorIds(history, fs + [f], nodes, since)
         == NewErrorIds(history, fs, nodes, since) + if IsNewError(history, f, nodes, since) then [f.id] else []
  {
    if fs == [] {
      assert (fs + [f])[1..] == [];
    } else {
      assert (fs + [f])[1..] == fs[1..] + [f];
      NewErrorIdsOneMore(history, fs[1..], f, nodes, since);
    }
  }

  /** They are the ids of exactly the new errors, and there are none only when there is no new error. */
  lemma {:induction false} NewErrorIdsMean(history: seq<Cycle>, fs: seq<Finding>, nodes: seq<string>, since: int)
    requires history != []
    ensures forall id :: id in NewErrorIds(history, fs, nodes, since) <==>
              exists f :: f in fs && f.id == id && IsNewError(history, f, nodes, since)
    ensures NewErrorIds(history, fs, nodes, since) == [] <==>
      forall f :: f in fs ==> !IsNewError(history, f, nodes, since)
  {
    if fs != [] {
      NewErrorIdsMean(history, fs[1..], nodes, since);
      assert forall f :: f in fs <==> f == fs[0] || f in fs[1..];
    }
  }

  ghost predicate HasEvidence(history: seq<Cycle>, since: int) {
    history != [] && history[|history| - 1].at != 0 && history[|history| - 1].at >= since
  }

  class Guard {
    var firstSeen: map<string, int>
    var last: seq<Finding>
    var lastCycleAt: int

    /** Every cycle observed. */
    ghost var history: seq<Cycle>

    ghost predicate Valid()
      reads this
    {
      if history == [] then firstSeen == map[] && last == [] && lastCycleAt == 0
      else
        && last == history[|history| - 1].findings
        && lastCycleAt == history[|history| - 1].at
        && firstSeen.Keys == Ids(last)
        && forall id :: id in firstSeen ==> firstSeen[id] == RunStart(history, id)
    }

    constructor ()
      ensures Valid() && history == []
    {
      firstSeen, last, lastCycleAt, history := map[], [], 0, [];
    }

    /** One findings cycle, at time `at`. */
    method Observe(at: int, fs: seq<Finding>)
      requires Valid()
      modifies this
      ensures Valid() && history == old(history) + [Cycle(at, fs)]
    {
      var seen: map<string, int> := map[];
      for i := 0 to |fs|
        invariant seen.Keys == Ids(fs[..i])
        invariant forall id :: id in seen ==> seen[id] == if id in firstSeen then firstSeen[id] else at
      {
        assert fs[..i + 1] == fs[..i] + [fs[i]];
        var id := fs[i].id;
        if id in firstSeen {
          seen := seen[id := firstSeen[id]];
        } else {
          seen := seen[id := at];
        }
      }
      assert fs[..|fs|] == fs;
      ghost var now := history + [Cycle(at, fs)];
      forall id | id in seen ensures seen[id] == RunStart(now, id) {
        assert now[..|now| - 1] == history;
      }
      firstSeen := seen;
      last := fs;
      lastCycleAt := at;
      history := now;
    }

    /** Whether one finding of the last cycle counts against a hold over the nodes `want`. */
    method CountsAgainst(f: Finding, want: set<string>, since: int, ghost nodes: seq<string>) returns (yes: bool)
      requires Valid() && f in last && want == set n | n in nodes
      ensures yes <==> IsNewError(history, f, nodes, since)
    {
      if !f.isError { return false; }
      assert f.id in firstSeen;
      if firstSeen[f.id] < since { return false; }
      yes := AttributableToNodes(f, want);
    }

    /** The verdict on a canary hold over `nodes` that began at `since`. */
    method CheckCanary(nodes: seq<string>, since: int) returns (verdict: Verdict)
      requires Valid()
      ensures verdict.NoEvidence? <==> !HasEvidence(history, since)
      ensures verdict.Clean? <==>
        HasEvidence(history, since) && forall f :: f in last ==> !IsNewError(history, f, nodes, since)
      ensures verdict.NewErrors? ==> verdict.ids == NewErrorIds(history, last, nodes, since)
    {
      var want: set<string> := set n | n in nodes;
      if lastCycleAt == 0 || lastCycleAt < since {
        return NoEvidence;
      }
      var newErrors: seq<string> := [];
      for i := 0 to |last|
        invariant newErrors == NewErrorIds(history, last[..i], nodes, since)
      {
        var counts := CountsAgainst(last[i], want, since, nodes);
        NewErrorIdsOneMore(history, last[..i], last[i], nodes, since);
        assert last[..i + 1] == last[..i] + [last[i]];
        if !counts { continue; }
        newErrors := newErrors + [last[i].id];
      }
      assert last[..|last|] == last;
      NewErrorIdsMean(history, last, nodes, since);
      verdict := if |newErrors| > 0 then NewErrors(newErrors) else Clean;
    }
  }

  /** A finding that was firing before the hold began never counts against it while it keeps firing,
      however many cycles go by. */
  lemma {:induction false} OldFindingsStayOld(history: seq<Cycle>, more: seq<Cycle>, id: string, since: int)
    requires history != [] && id in Ids(history[|history| - 1].findings) && RunStart(history, id) < since
    requires forall c :: 0 <= c < |more| ==> id in Ids(more[c].findings)
    ensures (history + more) != [] && id in Ids((history + more)[|history + more| - 1].findings)
    ensures RunStart(history + more, id) < since
  {
    if more == [] {
      assert history + more == history;
    } else {
      var front := more[..|more| - 1];
      OldFindingsStayOld(history, front, id, since);
      assert (history + more)[..|history + more| - 1] == history + front;
      assert (history + more)[|history + more| - 1] == more[|more| - 1];
    }
  }
}
