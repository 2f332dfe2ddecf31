/** `vnproxctl rollback-now`: restore the local interfaces file from a changeset's pre-apply
    snapshot and mark the changeset terminal, with the daemon down. Every call may fail, and the
    operator may run the command any number of times. */
module RollbackNow {
  import opened Prelude
  import opened HostAgent
  import opened Snapshots

  datatype Status = Draft | Applying | AwaitingConfirm | Committed | RolledBack | Failed | Discarded

  datatype Row = Row(status: Status, deadline: Option<int>, updatedAt: int)

  datatype SnapshotRow = SnapshotRow(kind: string, files: seq<FileEntry>)

  /** What one changeset's rollback can see: its row, its snapshots in listing order, the blob
      store, and the local host. The snapshots and blobs are never written by this command. */
  datatype World = World(row: Row, snapshots: seq<SnapshotRow>, blobs: map<string, string>, host: LocalHost)

  /** A row update succeeds, fails with the row unwritten, or fails with the row written. */
  datatype UpdateOutcome = Saved | NotSaved | SavedButReportedFailed

  datatype Env = Env(root: bool, openStore: bool, getRow: bool,
                     listSnapshots: bool, readBlob: bool, node: Option<string>,
                     restore: RestoreEnv, update: UpdateOutcome, now: int)

  // ----- the pre-apply snapshot -----

  function PreSnapshot(rows: seq<SnapshotRow>): (r: Option<SnapshotRow>)
    ensures r.Some? ==> r.value in rows && r.value.kind == "pre"
    ensures r.None? ==> forall row :: row in rows ==> row.kind != "pre"
  {
    if rows == [] then None
    else if rows[0].kind == "pre" then Some(rows[0])
    else PreSnapshot(rows[1..])
  }

  method PreSnapshotFor(rows: seq<SnapshotRow>) returns (r: Option<SnapshotRow>)
    ensures r == PreSnapshot(rows)
  {
    for i := 0 to |rows|
      invariant PreSnapshot(rows) == PreSnapshot(rows[i..])
    {
      if rows[i].kind == "pre" { return Some(rows[i]); }
    }
    r := None;
  }

  // ----- one attempt -----

  /** The content an attempt for `node` restores, when it can be had. */
  function Target(w: World, node: string): Option<string> {
    match PreSnapshot(w.snapshots)
    case None => None
    case Some(pre) =>
      match ContentFor(pre.files, node, w.blobs)
      case Err(_) => None
      case Ok(content) => Some(content)
  }

  predicate InFlight(s: Status) {
    s.AwaitingConfirm? || s.Applying?
  }

  function Terminal(s: Status): Status {
    if s.Applying? then Failed else RolledBack
  }

  /** Whether the picked entry has to be read from the blob store. */
  function NeedsBlob(w: World, node: string): bool {
    match PreSnapshot(w.snapshots)
    case None => false
    case Some(pre) =>
      match LastFor(pre.files, node)
      case None => false
      case Some(f) => f.content == ""
  }

  /** Everything up to the restore goes through. */
  predicate Reaches(w: World, env: Env) {
    && env.root && env.openStore && env.getRow && InFlight(w.row.status)
    && env.listSnapshots && env.node.Some? && Target(w, env.node.value).Some?
    && (NeedsBlob(w, env.node.value) ==> env.readBlob)
  }

  function AttemptOnce(w: World, env: Env): (r: (World, int)) {
    if !Reaches(w, env) then (w, 1)
    else
      var (host, restored) := LocalRestore(w.host, Target(w, env.node.value).value, env.restore);
      if !restored then (w.(host := host), 1)
      else
        var row := Row(Terminal(w.row.status), None, env.now);
        match env.update
        case Saved => (w.(host := host, row := row), 0)
        case NotSaved => (w.(host := host), 1)
        case SavedButReportedFailed => (w.(host := host, row := row), 1)
  }

  class RollbackCommand {
    var row: Row
    const snapshots: seq<SnapshotRow>
    const blobs: map<string, string>
    const cli: CliHost

    constructor (row: Row, snapshots: seq<SnapshotRow>, blobs: map<string, string>, cli: CliHost)
      ensures this.row == row && this.snapshots == snapshots && this.blobs == blobs && this.cli == cli
    {
      this.row, this.snapshots, this.blobs, this.cli := row, snapshots, blobs, cli;
    }

    function View(): World
      reads this, cli
    {
      World(row, snapshots, blobs, cli.host)
    }

    method RunRollbackNow(env: Env) returns (code: int)
      modifies this, cli
      ensures (View(), code) == AttemptOnce(old(View()), env)
    {
      if !env.root || !env.openStore || !env.getRow { return 1; }
      var cs := row;
      match cs.status {
        case AwaitingConfirm =>
        case Applying =>
        case _ => return 1;
      }
      if !env.listSnapshots { return 1; }
      var pre := PreSnapshotFor(snapshots);
      if pre.None? || env.node.None? { return 1; }
      var picked, _ := SnapshotContentForNode(pre.value.files, env.node.value, blobs);
      if picked.Err? { return 1; }
      if NeedsBlob(View(), env.node.value) && !env.readBlob { return 1; }
      var restored := cli.RestoreLocalInterfaces(picked.value, env.restore);
      if !restored { return 1; }
      var target := RolledBack;
      if cs.status.Applying? { target := Failed; }
      cs := cs.(status := target, deadline := None, updatedAt := env.now);
      if env.update.NotSaved? { return 1; }
      row := cs;
      code := if env.update.Saved? then 0 else 1;
    }
  }

  // ----- theorems over one attempt -----

  /** The only status changes are awaiting_confirm to rolled_back and applying to failed; a change
      happens only in an attempt whose restore succeeded, and clears the deadline. */
  lemma StatusChanges(w: World, env: Env)
    ensures var now := AttemptOnce(w, env).0;
      now.row != w.row ==>
        && ((w.row.status.AwaitingConfirm? && now.row.status.RolledBack?) ||
          (w.row.status.Applying? && now.row.status.Failed?))
        && now.row.deadline.None?
        && env.node.Some? && Target(w, env.node.value).Some?
        && env.restore.write.Written? && env.restore.first
        && now.host.committed == Target(w, env.node.value).value
        && now.host.kernel == Some(now.host.committed)
  {
  }

  /** Exit code 0 means all of it: the row is terminal and the pre-apply content is live. */
  lemma SuccessMeansDone(w: World, env: Env)
    requires AttemptOnce(w, env).1 == 0
    ensures var now := AttemptOnce(w, env).0;
      && InFlight(w.row.status) && now.row == Row(Terminal(w.row.status), None, env.now)
      && Some(now.host.committed) == Target(w, env.node.GetOr("")) && now.host.kernel == Some(now.host.committed)
  {
  }

  /** Snapshot i is the first pre-apply one in listing order. */
  ghost predicate IsFirstPre(rows: seq<SnapshotRow>, i: int) {
    && 0 <= i < |rows| && rows[i].kind == "pre"
    && forall j :: 0 <= j < i ==> rows[j].kind != "pre"
  }

  lemma {:induction false} FirstPreIsPicked(rows: seq<SnapshotRow>, i: nat)
    requires IsFirstPre(rows, i)
    ensures PreSnapshot(rows) == Some(rows[i])
  {
    if i > 0 {
      assert IsFirstPre(rows[1..], i - 1);
      FirstPreIsPicked(rows[1..], i - 1);
    }
  }

  /** A clean attempt on a changeset that is applying or awaiting its confirm restores what the last entry
      of the node in the first pre-apply snapshot holds, in itself or in the blob its digest names, and
      ends the changeset: applying as failed, awaiting_confirm as rolled back. */
  lemma CleanAttemptEnds(w: World, clean: Env, node: string, i: nat, j: nat)
    requires w.row.status in {Applying, AwaitingConfirm} && Clean(clean) && clean.node == Some(node)
    requires IsFirstPre(w.snapshots, i) && IsLastOf(w.snapshots[i].files, node, j)
    requires w.snapshots[i].files[j].content != "" || w.snapshots[i].files[j].sha in w.blobs
    ensures var entry := w.snapshots[i].files[j];
      var content := if entry.content != "" then entry.content else w.blobs[entry.sha];
      AttemptOnce(w, clean) ==
        (w.(row := Row(if w.row.status == Applying then Failed else RolledBack, None, clean.now),
            host := LocalHost(content, Some(content), w.host.backups[clean.restore.backupName := w.host.committed])),
         0)
  {
    FirstPreIsPicked(w.snapshots, i);
    PickMeans(w.snapshots[i].files, node, w.blobs);
  }

  /** A changeset in any other status is refused untouched. */
  lemma OtherStatusesRefused(w: World, env: Env)
    requires w.row.status !in {Applying, AwaitingConfirm}
    ensures AttemptOnce(w, env) == (w, 1)
  {
  }

  /** An attempt in which every call succeeds. */
  predicate Clean(env: Env) {
    && env.root && env.openStore && env.getRow && env.listSnapshots && env.readBlob
    && env.restore.readCommitted && env.restore.backup.Written? && env.restore.write.Written? && env.restore.first
    && env.update.Saved?
  }

  // ----- theorems over runs -----

  function RunAll(w: World, envs: seq<Env>): World {
    if envs == [] then w else AttemptOnce(RunAll(w, envs[..|envs| - 1]), envs[|envs| - 1]).0
  }

  /** Once the row is out of flight, no attempt changes anything: not the file, not the row, not
      even the backups. */
  lemma {:induction false} TerminalIsFinal(w: World, envs: seq<Env>)
    requires !InFlight(w.row.status)
    ensures RunAll(w, envs) == w
  {
    if envs != [] { TerminalIsFinal(w, envs[..|envs| - 1]); }
  }

  /** The node whose attempt took the row out of flight, if one has. */
  function FinishedOn(w: World, envs: seq<Env>): Option<string> {
    if envs == [] then None
    else
      var front := envs[..|envs| - 1];
      var before, after := RunAll(w, front), RunAll(w, envs);
      if InFlight(before.row.status) && !InFlight(after.row.status) then envs[|envs| - 1].node else FinishedOn(w, front)
  }

  /** Where any run of attempts, on any nodes, can be: either the row is as it was, or one attempt took
      it the one allowed step, and then the pre-apply content of that attempt's node is live. */
  lemma {:induction false} RunOutcome(w: World, envs: seq<Env>)
    requires InFlight(w.row.status)
    ensures var now := RunAll(w, envs);
      && now.snapshots == w.snapshots && now.blobs == w.blobs
      && (FinishedOn(w, envs).None? ==> now.row == w.row)
      && (FinishedOn(w, envs).Some? ==>
            && now.row.status == Terminal(w.row.status) && now.row.deadline.None?
            && Some(now.host.committed) == Target(w, FinishedOn(w, envs).value)
            && now.host.kernel == Some(now.host.committed))
  {
    if envs != [] {
      var front := envs[..|envs| - 1];
      RunOutcome(w, front);
      OneAttempt(RunAll(w, front), envs[|envs| - 1]);
    }
  }

  /** One attempt keeps the row in flight untouched, or takes it out with its node's content live. */
  lemma OneAttempt(w: World, env: Env)
    ensures var now := AttemptOnce(w, env).0;
      && now.snapshots == w.snapshots && now.blobs == w.blobs
      && (!InFlight(w.row.status) ==> now == w)
      && (InFlight(w.row.status) && InFlight(now.row.status) ==> now.row == w.row)
      && (InFlight(w.row.status) && !InFlight(now.row.status) ==>
            && env.node.Some? && now.row.status == Terminal(w.row.status) && now.row.deadline.None?
            && Some(now.host.committed) == Target(w, env.node.value)
            && now.host.kernel == Some(now.host.committed))
  {
  }

  /** The finishing node is one that some attempt named. */
  lemma {:induction false} FinishedOnANode(w: World, envs: seq<Env>)
    ensures FinishedOn(w, envs).Some? ==> exists env :: env in envs && env.node == FinishedOn(w, envs)
  {
    if envs != [] {
      FinishedOnANode(w, envs[..|envs| - 1]);
      assert envs[|envs| - 1] in envs;
      assert forall env :: env in envs[..|envs| - 1] ==> env in envs;
    }
  }

  /** A clean attempt on a node, after any attempts on any nodes, leaves that node's pre-apply content
      live if and only if the row was still in flight, or the node whose attempt finished the row has
      the same pre-apply content. The status and the deadline end alike in either case. */
  lemma CleanAttemptAfterAny(w: World, envs: seq<Env>, clean: Env, node: string)
    requires InFlight(w.row.status) && Target(w, node).Some?
    requires Clean(clean) && clean.node == Some(node)
    ensures var at_last := AttemptOnce(RunAll(w, envs), clean).0;
      && (at_last.host.committed == Target(w, node).value <==>
            InFlight(RunAll(w, envs).row.status) || Target(w, FinishedOn(w, envs).GetOr(node)) == Target(w, node))
      && at_last.host.kernel == Some(at_last.host.committed)
      && at_last.row.status == Terminal(w.row.status) && at_last.row.deadline == None
  {
    RunOutcome(w, envs);
  }

  /** The input: two nodes with different pre-apply contents. A clean attempt on the one ends the
      changeset, and a clean attempt on the other is then refused with the first one's content live. */
  lemma SecondNodeIsRefused(w: World, onFirst: Env, onSecond: Env)
    requires InFlight(w.row.status) && Clean(onFirst) && Clean(onSecond) && onFirst.node.Some? && onSecond.node.Some?
    requires Target(w, onFirst.node.value).Some? && Target(w, onSecond.node.value).Some?
    requires Target(w, onFirst.node.value) != Target(w, onSecond.node.value)
    ensures var first := AttemptOnce(w, onFirst);
      && first.1 == 0 && AttemptOnce(first.0, onSecond) == (first.0, 1)
      && Some(first.0.host.committed) == Target(w, onFirst.node.value)
  {
  }

  /** Retrying converges: after any attempts that named this node or none, failing in any way at any
      call (no host name, a restore that broke the file, a row update lost or half-reported), one clean
      attempt leaves the file, the kernel, the status and the deadline that a clean attempt would have
      left in the first place. */
  lemma RetryConverges(w: World, envs: seq<Env>, clean: Env, node: string)
    requires InFlight(w.row.status) && Target(w, node).Some?
    requires Clean(clean) && clean.node == Some(node)
    requires forall env :: env in envs && env.node.Some? ==> env.node == Some(node)
    ensures var at_last := AttemptOnce(RunAll(w, envs), clean).0; var at_once := AttemptOnce(w, clean).0;
      && at_last.host.committed == at_once.host.committed == Target(w, node).value
      && at_last.host.kernel == at_once.host.kernel
      && at_last.row.status == at_once.row.status == Terminal(w.row.status)
      && at_last.row.deadline == at_once.row.deadline == None
  {
    RunOutcome(w, envs);
    FinishedOnANode(w, envs);
    CleanAttemptAfterAny(w, envs, clean, node);
  }

  /** Over a run the row changes at most once. */
  lemma {:induction false} AtMostOneChange(w: World, envs: seq<Env>, i: nat, j: nat)
    requires i <= j <= |envs|
    requires RunAll(w, envs[..i]).row != w.row && InFlight(w.row.status)
    ensures RunAll(w, envs[..j]) == RunAll(w, envs[..i])
  {
    if i < j {
      AtMostOneChange(w, envs, i, j - 1);
      OutOfFlight(w, envs[..i]);
      assert envs[..j][..j - 1] == envs[..j - 1];
    }
  }

  lemma {:induction false} OutOfFlight(w: World, envs: seq<Env>)
    ensures RunAll(w, envs).row == w.row || !InFlight(RunAll(w, envs).row.status)
  {
    if envs != [] { OutOfFlight(w, envs[..|envs| - 1]); }
  }
}
