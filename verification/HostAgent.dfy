/** The node agent that owns the interfaces file, its staged draft and the network reload. Every
    method runs under one mutex, so a run is a sequence of whole steps by any number of callers. */
module HostAgent {
  import opened Prelude

  /** A write either puts the content in place or fails and leaves something else on disk. */
  datatype WriteOutcome = Written | Broken(left: string)

  /** The committed file, the staged file if there is one, and the content the kernel runs; a
      failed reload leaves the last unknown. */
  datatype Files = Files(committed: string, staged: Option<string>, kernel: Option<string>)

  /** How the system calls of one reload turn out; a flag is true when the call succeeds. */
  datatype ReloadEnv = ReloadEnv(readStaged: bool, readCommitted: bool, write: WriteOutcome, first: bool,
                                 restore: WriteOutcome, second: bool, remove: bool)

  datatype Step =
    | Read(succeeds: bool)
    | Stage(content: string, write: WriteOutcome)
    | Reload(env: ReloadEnv)
    | Discard(removed: bool)

  function Put(content: string, write: WriteOutcome): string {
    if write.Written? then content else write.left
  }

  /** Put new content in place and reload; on a failed reload put the old content back and reload
      again. Returns the committed file, what the kernel runs, and whether the first reload
      succeeded. The agent and the command line share this sequence. */
  function Swap(committed: string, kernel: Option<string>, content: string, write: WriteOutcome, first: bool,
                restore: WriteOutcome, second: bool): (r: (string, Option<string>, bool))
  {
    if write.Broken? then (write.left, kernel, false)
    else if first then (content, Some(content), true)
    else if restore.Broken? then (restore.left, None, false)
    else (committed, if second then Some(committed) else None, false)
  }

  function Next(f: Files, step: Step): (r: (Files, bool)) {
    match step
    case Read(succeeds) => (f, succeeds)
    case Stage(content, write) => (f.(staged := Some(Put(content, write))), write.Written?)
    case Discard(removed) =>
      if f.staged.None? || removed then (f.(staged := None), true) else (f, false)
    case Reload(env) =>
      if f.staged.None? || !env.readStaged || !env.readCommitted then (f, false)
      else
        var (committed, kernel, ok) :=
          Swap(f.committed, f.kernel, f.staged.value, env.write, env.first, env.restore, env.second);
        (Files(committed, if ok && env.remove then None else f.staged, kernel), ok)
  }

  class HostNodeAgent {
    var committed: string
    var staged: Option<string>
    var kernel: Option<string>

    /** The daemon starts on whatever files are there. */
    constructor (files: Files)
      ensures View() == files
    {
      committed, staged, kernel := files.committed, files.staged, files.kernel;
    }

    function View(): Files
      reads this
    {
      Files(committed, staged, kernel)
    }

    method ReadInterfaces(succeeds: bool) returns (r: Option<string>)
      ensures r == if Next(View(), Read(succeeds)).1 then Some(committed) else None
    {
      r := if succeeds then Some(committed) else None;
    }

    method StageInterfaces(content: string, write: WriteOutcome) returns (ok: bool)
      modifies this
      ensures (View(), ok) == Next(old(View()), Stage(content, write))
    {
      if write.Broken? {
        staged := Some(write.left);
        return false;
      }
      staged := Some(content);
      ok := true;
    }

    method ReloadInterfaces(env: ReloadEnv) returns (ok: bool)
      modifies this
      ensures (View(), ok) == Next(old(View()), Reload(env))
    {
      if staged.None? || !env.readStaged { return false; }
      var draft := staged.value;
      if !env.readCommitted { return false; }
      var backup := committed;
      if env.write.Broken? {
        committed := env.write.left;
        return false;
      }
      committed := draft;
      if !env.first {
        kernel := None;
        if env.restore.Broken? {
          committed := env.restore.left;
        } else {
          committed := backup;
          if env.second { kernel := Some(backup); }
        }
        return false;
      }
      kernel := Some(draft);
      if env.remove { staged := None; }
      ok := true;
    }

    method DiscardStaged(removed: bool) returns (ok: bool)
      modifies this
      ensures (View(), ok) == Next(old(View()), Discard(removed))
    {
      if staged.Some? {
        if !removed { return false; }
        staged := None;
      }
      ok := true;
    }

    /** Stage, then reload: two locked steps, here with no other caller between them. */
    method RestoreInterfaces(content: string, write: WriteOutcome, env: ReloadEnv) returns (ok: bool)
      modifies this
      ensures write.Broken? ==> !ok && View() == Next(old(View()), Stage(content, write)).0
      ensures write.Written? ==> (View(), ok) == Next(Next(old(View()), Stage(content, write)).0, Reload(env))
    {
      ok := StageInterfaces(content, write);
      if !ok { return; }
      ok := ReloadInterfaces(env);
    }
  }

  // ----- runs -----

  function Run(f: Files, steps: seq<Step>): Files {
    if steps == [] then f else Next(Run(f, steps[..|steps| - 1]), steps[|steps| - 1]).0
  }

  predicate WritesSucceed(step: Step) {
    match step
    case Stage(_, write) => write.Written?
    case Reload(env) => env.write.Written? && env.restore.Written?
    case _ => true
  }

  /** The content of the last Stage of a run, if any. */
  function LastStaged(steps: seq<Step>): Option<string> {
    if steps == [] then None
    else
      var last := steps[|steps| - 1];
      if last.Stage? then Some(last.content) else LastStaged(steps[..|steps| - 1])
  }

  ghost predicate StagedIn(steps: seq<Step>, content: string) {
    exists k :: 0 <= k < |steps| && steps[k].Stage? && steps[k].content == content
  }

  lemma {:induction false} LastStagedIsStaged(steps: seq<Step>)
    ensures LastStaged(steps).Some? ==> StagedIn(steps, LastStaged(steps).value)
    ensures LastStaged(steps).None? <==> forall k :: 0 <= k < |steps| ==> !steps[k].Stage?
  {
    if steps != [] {
      var front := steps[..|steps| - 1];
      LastStagedIsStaged(front);
      if steps[|steps| - 1].Stage? {
        assert StagedIn(steps, steps[|steps| - 1].content);
      } else {
        if LastStaged(front).Some? {
          var k :| 0 <= k < |front| && front[k].Stage? && front[k].content == LastStaged(front).value;
          assert steps[k] == front[k];
        }
        assert forall k :: 0 <= k < |front| ==> steps[k] == front[k];
      }
    }
  }

  /** While file writes succeed, the staged file is the last content staged, or the one it all began
      with. */
  lemma {:induction false} StagedIsLast(f: Files, steps: seq<Step>)
    requires forall step :: step in steps ==> WritesSucceed(step)
    ensures Run(f, steps).staged.Some? ==>
      Run(f, steps).staged == if LastStaged(steps).Some? then LastStaged(steps) else f.staged
  {
    if steps != [] {
      StagedIsLast(f, steps[..|steps| - 1]);
      assert WritesSucceed(steps[|steps| - 1]);
    }
  }

  /** And the kernel, when its state is known, runs the committed file, if it did to begin with. */
  lemma {:induction false} RunKeeps(f: Files, steps: seq<Step>)
    requires f.kernel.Some? ==> f.kernel == Some(f.committed)
    requires forall step :: step in steps ==> WritesSucceed(step)
    ensures Run(f, steps).kernel.Some? ==> Run(f, steps).kernel == Some(Run(f, steps).committed)
  {
    if steps != [] {
      RunKeeps(f, steps[..|steps| - 1]);
      assert WritesSucceed(steps[|steps| - 1]);
    }
  }

  /** Between any two locked steps of any interleaving, the committed file is the initial content, the
      content staged before it all began, or a content that some earlier step staged. */
  lemma {:induction false} CommittedWasStaged(f: Files, steps: seq<Step>)
    requires forall step :: step in steps ==> WritesSucceed(step)
    ensures var now := Run(f, steps).committed;
      now == f.committed || f.staged == Some(now) || StagedIn(steps, now)
  {
    if steps != [] {
      var front := steps[..|steps| - 1];
      CommittedWasStaged(f, front);
      StagedIsLast(f, front);
      LastStagedIsStaged(front);
      assert WritesSucceed(steps[|steps| - 1]);
      if StagedIn(front, Run(f, steps).committed) {
        var k :| 0 <= k < |front| && front[k].Stage? && front[k].content == Run(f, steps).committed;
        assert steps[k] == front[k];
      }
    }
  }

  /** A reload that fails leaves the committed file as it was, unless a write broke. */
  lemma FailedReloadKeepsTheFile(f: Files, env: ReloadEnv)
    requires !Next(f, Reload(env)).1 && WritesSucceed(Reload(env))
    ensures Next(f, Reload(env)).0.committed == f.committed
    ensures Next(f, Reload(env)).0.staged == f.staged
  {
  }

  /** The agent's contract asks that a failed reload leave both the file and the running state as
      they were. It does so exactly when the reload never got as far as the file, or the file was
      put back and the second reload succeeded (or a broken write happened to leave the old
      content, before any reload). */
  lemma ReloadContract(f: Files, env: ReloadEnv)
    requires f.kernel == Some(f.committed) && !Next(f, Reload(env)).1
    ensures var now := Next(f, Reload(env)).0;
      (now.committed == f.committed && now.kernel == f.kernel)
      <==> (f.staged.None? || !env.readStaged || !env.readCommitted
            || env.write == Broken(f.committed)
            || (env.write.Written? && env.restore.Written? && env.second))
  {
  }

  /** The input: the reload fails, and so does the one after the file was put back. */
  lemma SecondReloadFails(committed: string, draft: string)
    ensures var f := Files(committed, Some(draft), Some(committed));
      var env := ReloadEnv(true, true, Written, false, Written, false, true);
      Next(f, Reload(env)) == (Files(committed, Some(draft), None), false)
  {
  }

  /** Staging puts the content in the pending file, or reports that it did not. */
  lemma StageMeans(f: Files, content: string, write: WriteOutcome)
    ensures Next(f, Stage(content, write)) ==
      if write.Written? then (Files(f.committed, Some(content), f.kernel), true)
      else (Files(f.committed, Some(write.left), f.kernel), false)
  {
  }

  /** Discarding leaves nothing staged, or reports that the file is still there. */
  lemma DiscardMeans(f: Files, removed: bool)
    ensures var (now, ok) := Next(f, Discard(removed));
      && now.committed == f.committed && now.kernel == f.kernel
      && (ok <==> f.staged.None? || removed)
      && now.staged == if ok then None else f.staged
  {
  }

  /** A reload that succeeds commits the staged file, and the kernel runs it; the staged file is gone
      unless removing it failed. */
  lemma SuccessfulReloadCommits(f: Files, env: ReloadEnv)
    requires Next(f, Reload(env)).1
    ensures f.staged.Some?
    ensures Next(f, Reload(env)).0 ==
      Files(f.staged.value, if env.remove then None else f.staged, f.staged)
  {
  }

  // ----- when a reload finds its file -----

  /** Every call of the reload up to and including the first reload works. */
  predicate Works(env: ReloadEnv) {
    env.readStaged && env.readCommitted && env.write.Written? && env.first
  }

  /** The step takes a staged file away, if there is one. */
  predicate Consumes(step: Step) {
    (step.Discard? && step.removed) || (step.Reload? && Works(step.env) && step.env.remove)
  }

  /** A file is staged after these steps, given whether one was before them. */
  predicate Pending(before: bool, steps: seq<Step>) {
    if steps == [] then before
    else
      var last := steps[|steps| - 1];
      last.Stage? || (Pending(before, steps[..|steps| - 1]) && !Consumes(last))
  }

  /** Some step after the k-th stages a file. */
  ghost predicate StagedLater(steps: seq<Step>, k: int) {
    exists j :: 0 <= j < |steps| && k < j && steps[j].Stage?
  }

  lemma LaterOneMore(steps: seq<Step>, k: int)
    requires steps != [] && k < |steps| - 1
    ensures StagedLater(steps, k) <==> steps[|steps| - 1].Stage? || StagedLater(steps[..|steps| - 1], k)
  {
    var front := steps[..|steps| - 1];
    if j :| 0 <= j < |front| && k < j && front[j].Stage? { assert steps[j].Stage?; }
    if j :| 0 <= j < |steps| && k < j && steps[j].Stage? { assert j < |front| ==> front[j].Stage?; }
  }

  /** Whatever takes the staged file away is followed by a Stage. */
  ghost predicate NeverTakenForGood(steps: seq<Step>) {
    forall k :: 0 <= k < |steps| && Consumes(steps[k]) ==> StagedLater(steps, k)
  }

  lemma {:induction false} PendingMeans(steps: seq<Step>)
    ensures Pending(true, steps) <==> NeverTakenForGood(steps)
  {
    if steps != [] {
      var n := |steps| - 1;
      var front := steps[..n];
      PendingMeans(front);
      forall k | 0 <= k < n
        ensures front[k] == steps[k] && (StagedLater(steps, k) <==> steps[n].Stage? || StagedLater(front, k))
      {
        LaterOneMore(steps, k);
      }
      assert !StagedLater(steps, n);
    }
  }

  lemma {:induction false} StagedIffPending(f: Files, steps: seq<Step>)
    ensures Run(f, steps).staged.Some? <==> Pending(f.staged.Some?, steps)
  {
    if steps != [] { StagedIffPending(f, steps[..|steps| - 1]); }
  }

  /** In every interleaving a reload succeeds if and only if a file is staged and its calls work. */
  lemma ReloadSucceedsIff(f: Files, steps: seq<Step>, env: ReloadEnv)
    ensures Next(Run(f, steps), Reload(env)).1 <==> Pending(f.staged.Some?, steps) && Works(env)
  {
    StagedIffPending(f, steps);
  }

  // ----- RestoreInterfaces among other callers -----

  lemma {:induction false} RunAppend(f: Files, a: seq<Step>, b: seq<Step>)
    ensures Run(f, a + b) == Run(Run(f, a), b)
  {
    if b == [] {
      assert a + b == a;
    } else {
      var front := b[..|b| - 1];
      assert (a + b)[..|a + b| - 1] == a + front;
      RunAppend(f, a, front);
    }
  }

  /** What a restore reports, with any steps of other callers before it and between its own two: a
      failed staging write is reported and ends it there, and otherwise its reload decides. */
  function RestoreReports(f: Files, before: seq<Step>, content: string, write: WriteOutcome, between: seq<Step>,
                          env: ReloadEnv): bool
  {
    write.Written? && Next(Run(f, before + [Stage(content, write)] + between), Reload(env)).1
  }

  /** A restore reports success if and only if its own staging write succeeds, the calls of its reload
      work, and nobody took the staged file away in between without staging another: with working calls
      it reports failure, its content live or not, exactly when someone did. */
  lemma RestoreReportsIff(f: Files, before: seq<Step>, content: string, write: WriteOutcome, between: seq<Step>,
                          env: ReloadEnv)
    ensures RestoreReports(f, before, content, write, between, env)
       <==> write.Written? && Works(env) && NeverTakenForGood(between)
  {
    var staged := before + [Stage(content, write)];
    RunAppend(f, staged, between);
    StagedIffPending(f, staged);
    ReloadSucceedsIff(Run(f, staged), between, env);
    PendingMeans(between);
  }

  /** With no other caller in between, that is what RestoreInterfaces returns. */
  lemma RestoreAloneReports(f: Files, content: string, write: WriteOutcome, env: ReloadEnv)
    ensures RestoreReports(f, [], content, write, [], env)
       <==> write.Written? && Next(Next(f, Stage(content, write)).0, Reload(env)).1
  {
    assert [] + [Stage(content, write)] + [] == [Stage(content, write)];
    assert [Stage(content, write)][..0] == [];
  }

  /** When it reports success, what it committed is the last content staged before its reload: its
      own exactly when no later Stage, or the last of them, carried the same content. */
  lemma RestoreAmongOthers(f: Files, before: seq<Step>, content: string, between: seq<Step>, env: ReloadEnv)
    requires forall step :: step in between ==> WritesSucceed(step)
    requires Next(Run(f, before + [Stage(content, Written)] + between), Reload(env)).1
    ensures Next(Run(f, before + [Stage(content, Written)] + between), Reload(env)).0.committed
         == LastStaged(between).GetOr(content)
  {
    var staged := before + [Stage(content, Written)];
    RunAppend(f, staged, between);
    StagedIsLast(Run(f, staged), between);
  }

  /** One other Stage in between, and a restore that reports success has committed the other
      caller's content; one other Reload in between, and a restore whose content is live and
      running reports a failure. */
  lemma RestoreIsNotAtomic(committed: string, mine: string, theirs: string)
    requires mine != theirs
    ensures var fine := ReloadEnv(true, true, Written, true, Written, true, true);
      var f := Files(committed, None, Some(committed));
      && Next(Run(f, [Stage(mine, Written), Stage(theirs, Written)]), Reload(fine))
         == (Files(theirs, None, Some(theirs)), true)
      && Next(Run(f, [Stage(mine, Written), Reload(fine)]), Reload(fine))
         == (Files(mine, None, Some(mine)), false)
  {
    var fine := ReloadEnv(true, true, Written, true, Written, true, true);
    var f := Files(committed, None, Some(committed));
    RunAppend(f, [Stage(mine, Written)], [Stage(theirs, Written)]);
    RunAppend(f, [Stage(mine, Written)], [Reload(fine)]);
    assert [Stage(mine, Written)] + [Stage(theirs, Written)] == [Stage(mine, Written), Stage(theirs, Written)];
    assert [Stage(mine, Written)] + [Reload(fine)] == [Stage(mine, Written), Reload(fine)];
  }
}
