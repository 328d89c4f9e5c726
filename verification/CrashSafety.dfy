/** What holds at every moment of a transaction, whatever the environment does. */
module CrashSafety {
  import opened Wrappers
  import opened Paths
  import opened FileTree
  import opened Journal

  // ---- The tree stays a tree ----

  ghost predicate AlwaysWellFormed(d: Disk) {
    WellFormed(d.now) && forall t :: t in d.past ==> WellFormed(t)
  }

  lemma UndoKeepsTree(plan: Plan, d: Disk, op: CompletedOp)
    requires AlwaysWellFormed(d)
    ensures AlwaysWellFormed(UndoOp(plan, d, op).disk)
  {
    match op
    case FileCopied(dst, backup) =>
      var r := RemoveInstalled(plan, d, dst);
      assert AlwaysWellFormed(r.disk);
      if r.ok && backup.Some? {
        RenameKeepsTree(r.disk.now, backup.value, dst, r.disk.Fault(plan));
      }
    case _ =>
  }

  lemma {:induction false} UnwindKeepsTree(plan: Plan, d: Disk, ops: seq<CompletedOp>, done: nat)
    requires AlwaysWellFormed(d)
    ensures AlwaysWellFormed(Unwind(plan, d, ops, done).disk)
    decreases |ops|
  {
    if ops != [] {
      UndoKeepsTree(plan, d, ops[|ops| - 1]);
      var u := UndoOp(plan, d, ops[|ops| - 1]);
      if u.ok {
        UnwindKeepsTree(plan, u.disk, ops[..|ops| - 1], done + 1);
      }
    }
  }

  lemma {:induction false} DropBackupsKeepsTree(plan: Plan, d: Disk, ops: seq<CompletedOp>)
    requires AlwaysWellFormed(d)
    ensures AlwaysWellFormed(DropBackups(plan, d, ops))
  {
    if ops != [] {
      DropBackupsKeepsTree(plan, d, ops[..|ops| - 1]);
    }
  }

  lemma CreateDirectoryKeepsTree(plan: Plan, w: World, path: Path)
    requires AlwaysWellFormed(w.disk)
    ensures AlwaysWellFormed(CreateDirectory(plan, w, path).world.disk)
  {
    CreateDirAllKeepsTree(w.disk.now, path, w.disk.Fault(plan));
  }

  lemma CopyWithBackupKeepsTree(plan: Plan, w: World, src: Path, dst: Path)
    requires AlwaysWellFormed(w.disk)
    ensures AlwaysWellFormed(CopyWithBackup(plan, w, src, dst).world.disk)
  {
    var o := Copy(w.disk.now, dst, Backup(dst), w.disk.Fault(plan));
    CopyKeepsTree(w.disk.now, dst, Backup(dst), w.disk.Fault(plan));
    var d := if dst in w.disk.now then w.disk.Then(o) else w.disk;
    assert AlwaysWellFormed(d);
    CopyKeepsTree(d.now, src, dst, d.Fault(plan));
  }

  lemma ApplyKeepsTree(plan: Plan, w: World, c: Command)
    requires AlwaysWellFormed(w.disk)
    ensures AlwaysWellFormed(Apply(plan, w, c).world.disk)
  {
    match c
    case CreateDirectoryCmd(path) => CreateDirectoryKeepsTree(plan, w, path);
    case InstallFileCmd(src, dst) =>
      if dst != [] {
        CreateDirectoryKeepsTree(plan, w, Parent(dst));
        CopyWithBackupKeepsTree(plan, CreateDirectory(plan, w, Parent(dst)).world, src, dst);
      } else {
        CopyWithBackupKeepsTree(plan, w, src, dst);
      }
    case CommitCmd => DropBackupsKeepsTree(plan, w.disk, w.ops);
    case RollbackCmd => UnwindKeepsTree(plan, w.disk, w.ops, 0);
    case RegisterServiceCmd(_) =>
  }

  /** Every tree a run passes through is well formed, the ones between two primitives included. */
  lemma {:induction false} RunKeepsTree(plan: Plan, w: World, cmds: seq<Command>)
    requires AlwaysWellFormed(w.disk)
    ensures AlwaysWellFormed(Run(plan, w, cmds).disk)
  {
    if cmds != [] {
      RunKeepsTree(plan, w, cmds[..|cmds| - 1]);
      ApplyKeepsTree(plan, Run(plan, w, cmds[..|cmds| - 1]), cmds[|cmds| - 1]);
    }
  }

  // ---- A finished transaction is inert ----

  /** Once committed or rolled back (even in vain), every call fails, names the reason and
      changes nothing, over all later runs. */
  lemma {:induction false} FinishedIsInert(plan: Plan, w: World, cmds: seq<Command>, c: Command)
    requires w.state != Active
    ensures Run(plan, w, cmds) == w
    ensures Apply(plan, w, c)
         == Reply(w, Err(if w.state == Committed then AlreadyCommitted else AlreadyRolledBack))
  {
    if cmds != [] {
      FinishedIsInert(plan, w, cmds[..|cmds| - 1], cmds[|cmds| - 1]);
    }
  }

  // ---- No original byte is ever lost ----

  predicate Same(t0: Tree, t: Tree, p: Path)
    requires p in t0
  {
    p in t && t[p] == t0[p]
  }

  predicate Saved(t0: Tree, t: Tree, p: Path)
    requires p in t0
  {
    Backup(p) in t && t[Backup(p)] == t0[p]
  }

  /** Each original file is still in its place or at its backup. */
  ghost predicate Survives(t0: Tree, t: Tree) {
    forall p :: IsFile(t0, p) ==> Same(t0, t, p) || Saved(t0, t, p)
  }

  ghost predicate AlwaysSurvives(t0: Tree, d: Disk) {
    Survives(t0, d.now) && forall t :: t in d.past ==> Survives(t0, t)
  }

  function Targets(cmds: seq<Command>): (s: set<Path>)
    ensures forall d :: d in s <==> exists i :: 0 <= i < |cmds| && cmds[i].InstallFileCmd? && cmds[i].dst == d
  {
    set i | 0 <= i < |cmds| && cmds[i].InstallFileCmd? :: cmds[i].dst
  }

  /** Backups are new, are not destinations themselves and are not shared. */
  ghost predicate FreeBackups(t0: Tree, targets: set<Path>) {
    && (forall d :: d in targets ==> Backup(d) !in t0 && Backup(d) !in targets)
    && (forall d, e :: d in targets && e in targets && Backup(d) == Backup(e) ==> d == e)
  }

  /** No file that existed at the start is overwritten twice. */
  ghost predicate OverwritesOnce(t0: Tree, cmds: seq<Command>) {
    forall i, j | 0 <= i < j < |cmds| && cmds[i].InstallFileCmd? && cmds[j].InstallFileCmd? ::
      cmds[i].dst == cmds[j].dst ==> cmds[i].dst !in t0
  }

  /** A journal entry whose undoing gives back what it took. */
  predicate GuardedOp(t0: Tree, t: Tree, op: CompletedOp, seen: set<Path>)
    requires op.FileCopied?
  {
    && op.destination in seen
    && (op.backup.Some? ==>
          op.backup.value == Backup(op.destination) && !IsDir(t, op.backup.value))
    && (IsFile(t0, op.destination) ==> op.backup.Some? && Saved(t0, t, op.destination))
  }

  ghost predicate Guarded(t0: Tree, t: Tree, ops: seq<CompletedOp>, seen: set<Path>) {
    && (forall p :: IsFile(t0, p) && p !in seen ==> Same(t0, t, p))
    && Survives(t0, t)
    && (forall i :: 0 <= i < |ops| && ops[i].FileCopied? ==> GuardedOp(t0, t, ops[i], seen))
    && (forall i, j | 0 <= i < j < |ops| && ops[i].FileCopied? && ops[j].FileCopied? ::
          ops[i].destination == ops[j].destination ==> ops[i].destination !in t0)
  }

  /** During installation every recorded backup is on the disk. */
  ghost predicate BackupsPresent(t: Tree, ops: seq<CompletedOp>) {
    forall i :: 0 <= i < |ops| && ops[i].FileCopied? && ops[i].backup.Some?
      ==> IsFile(t, ops[i].backup.value)
  }

  lemma RestoreSurvives(plan: Plan, d: Disk, op: CompletedOp, ops: seq<CompletedOp>, t0: Tree,
                        seen: set<Path>)
    requires op.FileCopied? && op.destination !in d.now
    requires FreeBackups(t0, seen) && AlwaysSurvives(t0, d)
    requires Guarded(t0, d.now, ops, seen) && GuardedOp(t0, d.now, op, seen)
    requires forall i | 0 <= i < |ops| && ops[i].FileCopied? ::
      ops[i].destination == op.destination ==> op.destination !in t0
    ensures var u := RestoreBackup(plan, d, op.destination, op.backup);
      AlwaysSurvives(t0, u.disk) && (u.ok ==> Guarded(t0, u.disk.now, ops, seen))
  {
    var u := RestoreBackup(plan, d, op.destination, op.backup);
    if u.ok && u.disk != d {
      var dst, b, t, t' := op.destination, Backup(op.destination), d.now, u.disk.now;
      assert t' == (t - {b})[dst := t[b]];
      forall p | IsFile(t0, p)
        ensures Same(t0, t', p) || Saved(t0, t', p)
        ensures p !in seen ==> Same(t0, t', p)
      {
      }
      forall i | 0 <= i < |ops| && ops[i].FileCopied?
        ensures GuardedOp(t0, t', ops[i], seen)
      {
        assert GuardedOp(t0, t, ops[i], seen);
      }
    }
  }

  lemma RemovalSurvives(t: Tree, t': Tree, ops: seq<CompletedOp>, t0: Tree, seen: set<Path>)
    requires ops != [] && ops[|ops| - 1].FileCopied?
    requires FreeBackups(t0, seen) && Guarded(t0, t, ops, seen)
    requires t' == t || t' == t - {ops[|ops| - 1].destination}
    ensures Guarded(t0, t', ops[..|ops| - 1], seen) && GuardedOp(t0, t', ops[|ops| - 1], seen)
  {
    var rest := ops[..|ops| - 1];
    assert GuardedOp(t0, t, ops[|ops| - 1], seen);
    forall i | 0 <= i < |rest| && rest[i].FileCopied?
      ensures GuardedOp(t0, t', rest[i], seen)
    {
      assert GuardedOp(t0, t, ops[i], seen);
    }
  }

  lemma UndoSurvives(plan: Plan, d: Disk, ops: seq<CompletedOp>, t0: Tree, seen: set<Path>)
    requires ops != []
    requires FreeBackups(t0, seen) && AlwaysSurvives(t0, d)
    requires Guarded(t0, d.now, ops, seen)
    ensures var u := UndoOp(plan, d, ops[|ops| - 1]);
      AlwaysSurvives(t0, u.disk) && (u.ok ==> Guarded(t0, u.disk.now, ops[..|ops| - 1], seen))
  {
    var op, rest := ops[|ops| - 1], ops[..|ops| - 1];
    if op.FileCopied? {
      assert GuardedOp(t0, d.now, op, seen);
      var r := RemoveInstalled(plan, d, op.destination);
      RemovalSurvives(d.now, r.disk.now, ops, t0, seen);
      if r.ok {
        RestoreSurvives(plan, r.disk, op, rest, t0, seen);
      }
    } else {
      assert Guarded(t0, d.now, rest, seen);
    }
  }

  lemma {:induction false} UnwindSurvives(
      plan: Plan, d: Disk, ops: seq<CompletedOp>, done: nat, t0: Tree, seen: set<Path>)
    requires FreeBackups(t0, seen) && AlwaysSurvives(t0, d) && AlwaysWellFormed(d)
    requires Guarded(t0, d.now, ops, seen)
    ensures AlwaysSurvives(t0, Unwind(plan, d, ops, done).disk)
    decreases |ops|
  {
    if ops != [] {
      UndoSurvives(plan, d, ops, t0, seen);
      UndoKeepsTree(plan, d, ops[|ops| - 1]);
      var u := UndoOp(plan, d, ops[|ops| - 1]);
      if u.ok {
        UnwindSurvives(plan, u.disk, ops[..|ops| - 1], done + 1, t0, seen);
      }
    }
  }

  ghost predicate GuardedWorld(t0: Tree, w: World, seen: set<Path>) {
    && AlwaysSurvives(t0, w.disk)
    && AlwaysWellFormed(w.disk)
    && (w.state == Active ==>
          Guarded(t0, w.disk.now, w.ops, seen) && BackupsPresent(w.disk.now, w.ops))
  }

  lemma CreateDirectorySurvives(plan: Plan, w: World, path: Path, t0: Tree, seen: set<Path>)
    requires GuardedWorld(t0, w, seen)
    ensures GuardedWorld(t0, CreateDirectory(plan, w, path).world, seen)
  {
    CreateDirectoryKeepsTree(plan, w, path);
  }

  lemma SaveSurvives(t: Tree, ops: seq<CompletedOp>, dst: Path, f: Fault, t0: Tree, seen: set<Path>)
    requires Guarded(t0, t, ops, seen) && BackupsPresent(t, ops)
    requires FreeBackups(t0, seen + {dst})
    requires dst in t0 ==> dst !in seen
    ensures var o := Copy(t, dst, Backup(dst), f);
      && Guarded(t0, o.tree, ops, seen + {dst}) && BackupsPresent(o.tree, ops)
      && (o.ok && IsFile(t0, dst) ==> Saved(t0, o.tree, dst))
  {
    var seen', t' := seen + {dst}, Copy(t, dst, Backup(dst), f).tree;
    if t' != t {
      forall p | IsFile(t0, p)
        ensures Same(t0, t', p) || Saved(t0, t', p)
        ensures p !in seen ==> Same(t0, t', p)
      {
      }
      forall i | 0 <= i < |ops| && ops[i].FileCopied?
        ensures GuardedOp(t0, t', ops[i], seen')
      {
        assert GuardedOp(t0, t, ops[i], seen);
      }
    } else {
      assert forall i :: 0 <= i < |ops| && ops[i].FileCopied? ==>
        GuardedOp(t0, t, ops[i], seen) && GuardedOp(t0, t, ops[i], seen');
    }
  }

  lemma CopyWithBackupSurvives(
      plan: Plan, w: World, src: Path, dst: Path, t0: Tree, seen: set<Path>)
    requires GuardedWorld(t0, w, seen) && w.state == Active
    requires FreeBackups(t0, seen + {dst})
    requires dst in t0 ==> dst !in seen
    ensures GuardedWorld(t0, CopyWithBackup(plan, w, src, dst).world, seen + {dst})
  {
    var seen' := seen + {dst};
    assert forall i :: 0 <= i < |w.ops| && w.ops[i].FileCopied? ==>
      GuardedOp(t0, w.disk.now, w.ops[i], seen);
    if dst in w.disk.now {
      var o := Copy(w.disk.now, dst, Backup(dst), w.disk.Fault(plan));
      var w' := World(w.disk.Then(o), w.ops, w.state);
      SaveSurvives(w.disk.now, w.ops, dst, w.disk.Fault(plan), t0, seen);
      CopyKeepsTree(w.disk.now, dst, Backup(dst), w.disk.Fault(plan));
      if o.ok {
        CopyInSurvives(plan, w', src, dst, Some(Backup(dst)), t0, seen, seen');
      }
    } else {
      assert forall i :: 0 <= i < |w.ops| && w.ops[i].FileCopied? ==>
        GuardedOp(t0, w.disk.now, w.ops[i], seen');
      CopyInSurvives(plan, w, src, dst, None, t0, seen, seen');
    }
  }

  lemma CopyInSurvives(plan: Plan, w: World, src: Path, dst: Path, backup: Option<Path>,
                       t0: Tree, seen: set<Path>, seen': set<Path>)
    requires GuardedWorld(t0, w, seen') && w.state == Active
    requires seen' == seen + {dst} && FreeBackups(t0, seen')
    requires dst in t0 ==> dst !in seen
    requires forall i :: 0 <= i < |w.ops| && w.ops[i].FileCopied? ==> w.ops[i].destination in seen
    requires backup.Some? ==> backup.value == Backup(dst) && IsFile(w.disk.now, Backup(dst))
    requires IsFile(t0, dst) ==> backup.Some? && Saved(t0, w.disk.now, dst)
    ensures GuardedWorld(t0, CopyIn(plan, w, src, dst, backup).world, seen')
  {
    CopyKeepsTree(w.disk.now, src, dst, w.disk.Fault(plan));
    OverwriteSurvives(w.disk.now, w.ops, src, dst, w.disk.Fault(plan), t0, seen, seen');
    var w1 := CopyIn(plan, w, src, dst, backup).world;
    if |w1.ops| > |w.ops| {
      assert GuardedOp(t0, w1.disk.now, w1.ops[|w.ops|], seen');
    }
  }

  lemma OverwriteSurvives(t: Tree, ops: seq<CompletedOp>, src: Path, dst: Path, f: Fault,
                          t0: Tree, seen: set<Path>, seen': set<Path>)
    requires seen' == seen + {dst} && FreeBackups(t0, seen')
    requires Guarded(t0, t, ops, seen') && BackupsPresent(t, ops)
    requires forall i :: 0 <= i < |ops| && ops[i].FileCopied? ==> ops[i].destination in seen
    requires IsFile(t0, dst) ==> Saved(t0, t, dst)
    ensures var t' := Copy(t, src, dst, f).tree;
      Guarded(t0, t', ops, seen') && BackupsPresent(t', ops)
  {
    var t' := Copy(t, src, dst, f).tree;
    forall p | IsFile(t0, p)
      ensures Same(t0, t', p) || Saved(t0, t', p)
      ensures p !in seen' ==> Same(t0, t', p)
    {
    }
    forall i | 0 <= i < |ops| && ops[i].FileCopied?
      ensures GuardedOp(t0, t', ops[i], seen')
    {
      assert GuardedOp(t0, t, ops[i], seen');
    }
  }

  lemma ApplySurvives(plan: Plan, w: World, c: Command, t0: Tree, seen: set<Path>)
    requires GuardedWorld(t0, w, seen)
    requires c != CommitCmd
    requires FreeBackups(t0, seen + Targets([c]))
    requires c.InstallFileCmd? && c.dst in t0 ==> c.dst !in seen
    ensures GuardedWorld(t0, Apply(plan, w, c).world, seen + Targets([c]))
  {
    assert c.InstallFileCmd? ==> [c][0].dst in Targets([c]);
    if w.state != Active {
      FinishedIsInert(plan, w, [], c);
    } else {
      match c
      case CreateDirectoryCmd(path) => CreateDirectorySurvives(plan, w, path, t0, seen);
      case InstallFileCmd(src, dst) =>
        assert Targets([c]) == {dst};
        if dst == [] {
          CopyWithBackupSurvives(plan, w, src, dst, t0, seen);
        } else {
          CreateDirectorySurvives(plan, w, Parent(dst), t0, seen);
          var r := CreateDirectory(plan, w, Parent(dst));
          if r.result.Ok? {
            CopyWithBackupSurvives(plan, r.world, src, dst, t0, seen);
          }
        }
      case RollbackCmd =>
        UnwindSurvives(plan, w.disk, w.ops, 0, t0, seen);
        UnwindKeepsTree(plan, w.disk, w.ops, 0);
      case RegisterServiceCmd(_) =>
    }
  }

  lemma {:induction false} RunGuarded(plan: Plan, t0: Tree, cmds: seq<Command>)
    requires WellFormed(t0)
    requires CommitCmd !in cmds
    requires FreeBackups(t0, Targets(cmds)) && OverwritesOnce(t0, cmds)
    ensures GuardedWorld(t0, Run(plan, Fresh(t0), cmds), Targets(cmds))
  {
    if cmds != [] {
      var init, c := cmds[..|cmds| - 1], cmds[|cmds| - 1];
      assert Targets(cmds) == Targets(init) + Targets([c]) by {
        assert cmds == init + [c];
        forall d | d in Targets(init)
          ensures d in Targets(cmds)
        {
          var i :| 0 <= i < |init| && init[i].InstallFileCmd? && init[i].dst == d;
          assert cmds[i] == init[i];
        }
        forall d | d in Targets([c])
          ensures d in Targets(cmds)
        {
          assert cmds[|cmds| - 1] == c;
        }
        forall d | d in Targets(cmds)
          ensures d in Targets(init) + Targets([c])
        {
          var i :| 0 <= i < |cmds| && cmds[i].InstallFileCmd? && cmds[i].dst == d;
          if i < |init| { assert init[i] == cmds[i]; } else { assert [c][0] == cmds[i]; }
        }
      }
      RunGuarded(plan, t0, init);
      ApplySurvives(plan, Run(plan, Fresh(t0), init), c, t0, Targets(init));
    }
  }

  /** Before a commit, at every moment of every run (between the two copies of an installation,
      after a copy that failed half way, in the middle of a rollback and after one that failed),
      each file of the initial tree is in its place or at its backup, byte for byte. */
  lemma BytesAlwaysSurvive(plan: Plan, t0: Tree, cmds: seq<Command>)
    requires WellFormed(t0)
    requires CommitCmd !in cmds
    requires FreeBackups(t0, Targets(cmds)) && OverwritesOnce(t0, cmds)
    ensures AlwaysSurvives(t0, Run(plan, Fresh(t0), cmds).disk)
  {
    RunGuarded(plan, t0, cmds);
  }
}
