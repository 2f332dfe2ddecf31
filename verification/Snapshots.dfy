/** The command line's own restore path, for when the daemon is down: picking the file a snapshot
    holds for a node, and putting it in place. */
module Snapshots {
  import opened Prelude
  import opened HostAgent

  datatype FileEntry = FileEntry(node: string, content: string, sha: string)

  datatype PickError = NoFiles | NoFileForNode | BlobMissing

  // ----- nodes of a snapshot -----

  /** The nodes in the order each is first seen. */
  function FirstSeen(files: seq<FileEntry>): seq<string> {
    if files == [] then []
    else
      var before := FirstSeen(files[..|files| - 1]);
      var node := files[|files| - 1].node;
      if node in before then before else before + [node]
  }

  method SnapshotNodeList(files: seq<FileEntry>) returns (nodes: seq<string>)
    ensures nodes == FirstSeen(files)
  {
    nodes := [];
    var seen: set<string> := {};
    for k := 0 to |files|
      invariant nodes == FirstSeen(files[..k])
      invariant forall n :: n in seen <==> n in nodes
    {
      assert files[..k + 1][..k] == files[..k];
      if files[k].node !in seen {
        seen := seen + {files[k].node};
        nodes := nodes + [files[k].node];
      }
    }
    assert files[..|files|] == files;
  }

  /** The index of a node's first entry, or the length when it has none. */
  function FirstIndexOf(files: seq<FileEntry>, node: string): (r: nat)
    ensures r <= |files|
    ensures r < |files| ==> files[r].node == node
    ensures forall j :: 0 <= j < r ==> files[j].node != node
  {
    if files == [] then 0
    else
      var front := files[..|files| - 1];
      var k := FirstIndexOf(front, node);
      if k < |front| then k else if files[|files| - 1].node == node then |front| else |files|
  }

  /** The nodes listed are those of the snapshot. */
  lemma {:induction false} FirstSeenMembers(files: seq<FileEntry>, node: string)
    ensures node in FirstSeen(files) <==> FirstIndexOf(files, node) < |files|
  {
    if files != [] {
      var front := files[..|files| - 1];
      FirstSeenMembers(front, node);
      FirstSeenMembers(front, files[|files| - 1].node);
    }
  }

  /** Every node is listed once, and in the order of first entries. */
  lemma {:induction false} FirstSeenOrder(files: seq<FileEntry>, i: nat, j: nat)
    requires i < j < |FirstSeen(files)|
    ensures FirstIndexOf(files, FirstSeen(files)[i]) < FirstIndexOf(files, FirstSeen(files)[j]) < |files|
  {
    var front := files[..|files| - 1];
    FirstSeenMembers(front, FirstSeen(files)[i]);
    FirstSeenMembers(front, FirstSeen(files)[j]);
    if j < |FirstSeen(front)| {
      FirstSeenOrder(front, i, j);
    }
  }

  // ----- picking a node's file -----

  /** The last entry of a node wins. */
  function LastFor(files: seq<FileEntry>, node: string): Option<FileEntry> {
    if files == [] then None
    else if files[|files| - 1].node == node then Some(files[|files| - 1])
    else LastFor(files[..|files| - 1], node)
  }

  function OtherNodes(files: seq<FileEntry>, node: string): seq<string> {
    if files == [] then []
    else
      var before := OtherNodes(files[..|files| - 1], node);
      if files[|files| - 1].node == node then before else before + [files[|files| - 1].node]
  }

  /** An entry's own content, or else the blob its digest names. */
  function Hydrated(f: FileEntry, blobs: map<string, string>): Result<string, PickError> {
    if f.content != "" then Ok(f.content)
    else if f.sha in blobs then Ok(blobs[f.sha])
    else Err(BlobMissing)
  }

  function ContentFor(files: seq<FileEntry>, node: string, blobs: map<string, string>): Result<string, PickError> {
    if files == [] then Err(NoFiles)
    else
      match LastFor(files, node)
      case None => Err(NoFileForNode)
      case Some(f) => Hydrated(f, blobs)
  }

  method SnapshotContentForNode(files: seq<FileEntry>, node: string, blobs: map<string, string>)
    returns (r: Result<string, PickError>, otherNodes: seq<string>)
    ensures r == ContentFor(files, node, blobs)
    ensures otherNodes == if r.Ok? then OtherNodes(files, node) else []
  {
    otherNodes := [];
    if |files| == 0 { return Err(NoFiles), []; }
    var picked: Option<FileEntry> := None;
    for i := 0 to |files|
      invariant picked == LastFor(files[..i], node)
      invariant otherNodes == OtherNodes(files[..i], node)
    {
      assert files[..i + 1][..i] == files[..i];
      if files[i].node == node {
        picked := Some(files[i]);
      } else {
        otherNodes := otherNodes + [files[i].node];
      }
    }
    assert files[..|files|] == files;
    if picked.None? { return Err(NoFileForNode), []; }
    r := Hydrated(picked.value, blobs);
    if r.Err? { otherNodes := []; }
  }

  ghost predicate IsLastOf(files: seq<FileEntry>, node: string, i: int) {
    && 0 <= i < |files| && files[i].node == node
    && forall j :: i < j < |files| ==> files[j].node != node
  }

  /** What the pick means: the content comes from the last entry of that very node. */
  lemma {:induction false} PickIsLastOfNode(files: seq<FileEntry>, node: string)
    ensures LastFor(files, node).None? <==> forall i :: 0 <= i < |files| ==> files[i].node != node
    ensures LastFor(files, node).Some? ==>
      exists i :: IsLastOf(files, node, i) && files[i] == LastFor(files, node).value
  {
    if files != [] {
      var front := files[..|files| - 1];
      PickIsLastOfNode(front, node);
      assert forall i :: 0 <= i < |front| ==> files[i] == front[i];
      if files[|files| - 1].node == node {
        assert IsLastOf(files, node, |files| - 1);
      } else if LastFor(front, node).Some? {
        var i :| IsLastOf(front, node, i) && front[i] == LastFor(front, node).value;
        assert IsLastOf(files, node, i);
      }
    }
  }

  /** The other nodes reported are those of the entries of any other node. */
  lemma {:induction false} OtherNodesAre(files: seq<FileEntry>, node: string, other: string)
    ensures other in OtherNodes(files, node)
       <==> other != node && exists i :: 0 <= i < |files| && files[i].node == other
  {
    if files != [] {
      var n := |files| - 1;
      OtherNodesAre(files[..n], node, other);
      assert forall i :: 0 <= i < n ==> files[i] == files[..n][i];
      assert files[n].node == other ==> exists i :: 0 <= i < |files| && files[i].node == other;
    }
  }

  /** The content for a node, or why there is none: an empty snapshot, a snapshot without the node, or a
      last entry that holds nothing itself and names no blob. */
  lemma PickMeans(files: seq<FileEntry>, node: string, blobs: map<string, string>)
    ensures var r := ContentFor(files, node, blobs);
      && (r == Err(NoFiles) <==> files == [])
      && (r == Err(NoFileForNode) <==> files != [] && forall i :: 0 <= i < |files| ==> files[i].node != node)
      && (forall i :: IsLastOf(files, node, i) ==>
            r == if files[i].content != "" then Ok(files[i].content)
                 else if files[i].sha in blobs then Ok(blobs[files[i].sha])
                 else Err(BlobMissing))
  {
    PickIsLastOfNode(files, node);
    assert files != [] ==> files[0].node == files[0].node;
    forall i, j | IsLastOf(files, node, i) && IsLastOf(files, node, j) ensures i == j {}
  }

  // ----- restoring locally -----

  /** The files and the kernel as the command line sees them; backups by file name. */
  datatype LocalHost = LocalHost(committed: string, kernel: Option<string>, backups: map<string, string>)

  datatype RestoreEnv = RestoreEnv(readCommitted: bool, backupName: string, backup: WriteOutcome, write: WriteOutcome,
                                   first: bool, restore: WriteOutcome, second: bool)

  function LocalRestore(h: LocalHost, content: string, env: RestoreEnv): (r: (LocalHost, bool)) {
    if !env.readCommitted then (h, false)
    else
      var kept := h.(backups := h.backups[env.backupName := Put(h.committed, env.backup)]);
      if env.backup.Broken? then (kept, false)
      else
        var (committed, kernel, ok) :=
          Swap(h.committed, h.kernel, content, env.write, env.first, env.restore, env.second);
        (kept.(committed := committed, kernel := kernel), ok)
  }

  class CliHost {
    var host: LocalHost

    constructor (host: LocalHost)
      ensures this.host == host
    {
      this.host := host;
    }

    method RestoreLocalInterfaces(content: string, env: RestoreEnv) returns (ok: bool)
      modifies this
      ensures (host, ok) == LocalRestore(old(host), content, env)
    {
      if !env.readCommitted { return false; }
      var current := host.committed;
      if env.backup.Broken? {
        host := host.(backups := host.backups[env.backupName := env.backup.left]);
        return false;
      }
      host := host.(backups := host.backups[env.backupName := current]);
      if env.write.Broken? {
        host := host.(committed := env.write.left);
        return false;
      }
      host := host.(committed := content);
      if !env.first {
        host := host.(kernel := None);
        if env.restore.Broken? {
          host := host.(committed := env.restore.left);
          return false;
        }
        host := host.(committed := current);
        if env.second { host := host.(kernel := Some(current)); }
        return false;
      }
      host := host.(kernel := Some(content));
      ok := true;
    }
  }

  /** The command line and the agent restore alike: from the same file and kernel, for every content
      and every outcome of the two writes and the two reloads, they leave the same file and the same
      kernel and report the same result, which with unbroken writes is that of the first reload.
      The command line also leaves the file it found in the backup. */
  lemma CliAndAgentAgree(h: LocalHost, staged: Option<string>, content: string, env: RestoreEnv, remove: bool)
    requires env.readCommitted && env.backup.Written?
    ensures var f := Files(h.committed, staged, h.kernel);
      var reload := Reload(ReloadEnv(true, true, env.write, env.first, env.restore, env.second, remove));
      var (agent, agentOk) := Next(Next(f, Stage(content, Written)).0, reload);
      var (cli, cliOk) := LocalRestore(h, content, env);
      && cli.committed == agent.committed && cli.kernel == agent.kernel && cliOk == agentOk
      && cliOk == (env.write.Written? && env.first)
      && (env.write.Written? && env.restore.Written? ==> cli.committed == if env.first then content else h.committed)
      && cli.backups == h.backups[env.backupName := h.committed]
  {
  }

  // ----- backups over runs -----

  function HostAfter(h: LocalHost, content: string, envs: seq<RestoreEnv>): LocalHost {
    if envs == [] then h
    else LocalRestore(HostAfter(h, content, envs[..|envs| - 1]), content, envs[|envs| - 1]).0
  }

  /** Attempt i writes a backup, under a name no later attempt of the run writes one under. */
  ghost predicate LastUse(envs: seq<RestoreEnv>, i: int) {
    && 0 <= i < |envs| && envs[i].readCommitted
    && forall j :: i < j < |envs| && envs[j].readCommitted ==> envs[j].backupName != envs[i].backupName
  }

  predicate Holds(backups: map<string, string>, name: string, content: string) {
    name in backups && backups[name] == content
  }

  /** What the backup of attempt `i` holds: the file as that attempt found it. */
  function BackedUp(h: LocalHost, content: string, envs: seq<RestoreEnv>, i: int): string
    requires 0 <= i < |envs|
  {
    Put(HostAfter(h, content, envs[..i]).committed, envs[i].backup)
  }

  ghost predicate Unused(envs: seq<RestoreEnv>, name: string) {
    forall i :: 0 <= i < |envs| && envs[i].readCommitted ==> envs[i].backupName != name
  }

  lemma OneMoreUse(envs: seq<RestoreEnv>, i: int, name: string)
    requires envs != [] && i < |envs| - 1
    ensures var n := |envs| - 1; var last := envs[n];
      && (LastUse(envs, i) <==>
            LastUse(envs[..n], i) && !(last.readCommitted && last.backupName == envs[i].backupName))
      && (Unused(envs, name) <==> Unused(envs[..n], name) && !(last.readCommitted && last.backupName == name))
  {
    var n := |envs| - 1;
    var front := envs[..n];
    assert forall j :: 0 <= j < n ==> front[j] == envs[j];
    if LastUse(front, i) && !(envs[n].readCommitted && envs[n].backupName == envs[i].backupName) {
      assert forall j :: i < j < |envs| && j < n ==> front[j] == envs[j];
    }
    if Unused(envs, name) {
      assert envs[n].readCommitted ==> envs[n].backupName != name;
    }
  }

  /** What a backup holds after a run of attempts: the file as the last attempt of that name found it,
      or what it held before when no attempt used the name. */
  lemma {:induction false} BackupIsOfItsLastUse(h: LocalHost, content: string, envs: seq<RestoreEnv>, name: string)
    ensures var after := HostAfter(h, content, envs).backups;
      && (Unused(envs, name) ==> forall found :: Holds(after, name, found) <==> Holds(h.backups, name, found))
      && (forall i :: LastUse(envs, i) && envs[i].backupName == name ==>
            Holds(after, name, BackedUp(h, content, envs, i)))
  {
    if envs != [] {
      var n := |envs| - 1;
      BackupIsOfItsLastUse(h, content, envs[..n], name);
      OneMoreUse(envs, -1, name);
      forall i | LastUse(envs, i) && envs[i].backupName == name
        ensures Holds(HostAfter(h, content, envs).backups, name, BackedUp(h, content, envs, i))
      {
        if i < n {
          OneMoreUse(envs, i, name);
          assert envs[..n][..i] == envs[..i];
        }
      }
    }
  }

  /** So over any run of attempts a content found on disk survives in a backup if and only if some
      attempt put it there under a name no later attempt used again, or it was in an older backup
      whose name none of them used. */
  lemma ContentSurvivesIff(h: LocalHost, content: string, envs: seq<RestoreEnv>, found: string)
    ensures (exists name :: Holds(HostAfter(h, content, envs).backups, name, found))
       <==> (exists i :: LastUse(envs, i) && BackedUp(h, content, envs, i) == found)
            || (exists name :: Unused(envs, name) && Holds(h.backups, name, found))
  {
    var after := HostAfter(h, content, envs).backups;
    if name :| Holds(after, name, found) {
      BackupIsOfItsLastUse(h, content, envs, name);
      if !Unused(envs, name) { var i := LastUseOf(envs, name); }
    }
    if i :| LastUse(envs, i) && BackedUp(h, content, envs, i) == found {
      BackupIsOfItsLastUse(h, content, envs, envs[i].backupName);
    }
    if name :| Unused(envs, name) && Holds(h.backups, name, found) {
      BackupIsOfItsLastUse(h, content, envs, name);
    }
  }

  lemma {:induction false} LastUseOf(envs: seq<RestoreEnv>, name: string) returns (i: int)
    requires !Unused(envs, name)
    ensures LastUse(envs, i) && envs[i].backupName == name
  {
    var n := |envs| - 1;
    if envs[n].readCommitted && envs[n].backupName == name {
      i := n;
    } else {
      OneMoreUse(envs, -1, name);
      i := LastUseOf(envs[..n], name);
      OneMoreUse(envs, i, name);
    }
  }

  /** The input: two restores under one backup name, the first of them live by the time of the second.
      The content first found is in no backup afterwards. */
  lemma SecondBackupReplacesTheFirst(h: LocalHost, content: string, name: string)
    requires h.committed != content && h.backups == map[]
    ensures var env := RestoreEnv(true, name, Written, Written, true, Written, true);
      forall n :: !Holds(HostAfter(h, content, [env, env]).backups, n, h.committed)
  {
    var env := RestoreEnv(true, name, Written, Written, true, Written, true);
    var first := LocalRestore(h, content, env).0;
    assert [env][..0] == [];
    assert HostAfter(h, content, [env]) == first;
    assert [env, env][..1] == [env];
    assert HostAfter(h, content, [env, env]) == LocalRestore(first, content, env).0;
    assert first == LocalHost(content, Some(content), map[name := h.committed]);
  }
}
