/** Whole runs: an installation followed by a rollback. */
module Restoration {
  import opened Wrappers
  import opened Paths
  import opened FileTree
  import opened Journal
  import opened CrashSafety
  import opened Recovery

  /** A run that only installs, and whose file installations all succeed.
      Making a directory may fail, part of the way or at once. */
  ghost predicate InstallsSucceed(plan: Plan, w: World, cmds: seq<Command>) {
    forall i :: 0 <= i < |cmds| ==> InstallSucceeds(plan, Run(plan, w, cmds[..i]), cmds[i])
  }

  predicate InstallSucceeds(plan: Plan, w: World, c: Command) {
    match c
    case InstallFileCmd(src, dst) => InstallFile(plan, w, src, dst).result.Ok?
    case CreateDirectoryCmd(_) => true
    case RegisterServiceCmd(_) => true
    case CommitCmd => false
    case RollbackCmd => false
  }

  /** Every command succeeds, those that make directories included. */
  ghost predicate AllSucceed(plan: Plan, w: World, cmds: seq<Command>) {
    forall i :: 0 <= i < |cmds| ==>
      && !cmds[i].CommitCmd? && !cmds[i].RollbackCmd?
      && Apply(plan, Run(plan, w, cmds[..i]), cmds[i]).result.Ok?
  }

  ghost predicate InstalledWorld(t0: Tree, w: World) {
    w.state == Active && Installed(t0, w.disk.now, w.ops)
  }

  lemma CreateDirectoryInstalled(plan: Plan, w: World, path: Path, t0: Tree)
    requires InstalledWorld(t0, w)
    ensures InstalledWorld(t0, CreateDirectory(plan, w, path).world)
  {
    if path !in w.disk.now {
      DirsInstalled(t0, w.disk.now, w.ops, path, w.disk.Fault(plan));
      if CreateDirAll(w.disk.now, path, w.disk.Fault(plan)).ok {
        DirInstalled(t0, w.disk.now, w.ops, path, w.disk.Fault(plan));
      }
    }
  }

  lemma CopyInstalled(plan: Plan, w: World, src: Path, dst: Path, t0: Tree)
    requires InstalledWorld(t0, w) && CopyWithBackup(plan, w, src, dst).result.Ok?
    ensures InstalledWorld(t0, CopyWithBackup(plan, w, src, dst).world)
  {
    var t, f := w.disk.now, w.disk.Fault(plan);
    if dst in t {
      var d := w.disk.Then(Copy(t, dst, Backup(dst), f));
      OverwriteInstalled(t0, t, w.ops, src, dst, f, d.Fault(plan));
    } else {
      NewFileInstalled(t0, t, w.ops, src, dst, f);
    }
  }

  lemma ApplyInstalled(plan: Plan, w: World, c: Command, t0: Tree)
    requires InstalledWorld(t0, w) && InstallSucceeds(plan, w, c)
    ensures InstalledWorld(t0, Apply(plan, w, c).world)
  {
    match c
    case CreateDirectoryCmd(path) => CreateDirectoryInstalled(plan, w, path, t0);
    case InstallFileCmd(src, dst) =>
      if dst != [] {
        CreateDirectoryInstalled(plan, w, Parent(dst), t0);
        CopyInstalled(plan, CreateDirectory(plan, w, Parent(dst)).world, src, dst, t0);
      } else {
        CopyInstalled(plan, w, src, dst, t0);
      }
    case RegisterServiceCmd(name) => ServiceInstalled(t0, w, name);
  }

  lemma ServiceInstalled(t0: Tree, w: World, name: string)
    requires InstalledWorld(t0, w)
    ensures Installed(t0, w.disk.now, w.ops + [ServiceRegistered(name)])
  {
    Appended(w.ops, ServiceRegistered(name));
    LoggedPrefix(t0, w.ops, ServiceRegistered(name));
  }

  lemma {:induction false} RunInstalled(plan: Plan, t0: Tree, cmds: seq<Command>)
    requires WellFormed(t0) && InstallsSucceed(plan, Fresh(t0), cmds)
    ensures InstalledWorld(t0, Run(plan, Fresh(t0), cmds))
  {
    if cmds == [] {
      assert Installed(t0, t0, []);
    } else {
      var init, c := cmds[..|cmds| - 1], cmds[|cmds| - 1];
      var w := Run(plan, Fresh(t0), init);
      assert forall i :: 0 <= i < |init| ==> init[..i] == cmds[..i];
      RunInstalled(plan, t0, init);
      ApplyInstalled(plan, w, c, t0);
    }
  }

  /** The two trees hold the same files. */
  ghost predicate SameFiles(t: Tree, t': Tree) {
    forall p :: (IsFile(t, p) <==> IsFile(t', p)) && (IsFile(t, p) ==> t[p] == t'[p])
  }

  lemma UndoInstalled(plan: Plan, w: World, t0: Tree)
    requires InstalledWorld(t0, w) && FaultFree(plan, |w.disk.past|)
    ensures var r, left := Rollback(plan, w), Unjournalled(t0, w.disk.now, w.ops);
      && r.result == Ok
      && Restored(t0, r.world.disk.now, w.ops, left)
      && (SameFiles(t0, r.world.disk.now) <==> forall p :: !Lost(t0, w.ops, p))
  {
    InstalledIsPartly(t0, w.disk.now, w.ops);
    var left := Unjournalled(t0, w.disk.now, w.ops);
    assert w.ops[..|w.ops|] == w.ops;
    UnwindPartly(plan, w.disk, t0, w.ops, |w.ops|, 0, left);
    var t := Unwind(plan, w.disk, w.ops, 0).disk.now;
    UnwoundIsRestored(t0, t, w.ops, left);
    assert forall p :: IsFile(t0, p) && !Lost(t0, w.ops, p) ==> Same(t0, t, p);
    if p :| Lost(t0, w.ops, p) {
      assert IsFile(t0, p) && !IsFile(t, p);
    }
  }

  /** The exact result of a fault-free rollback, for any installation: it succeeds, every file of
      the initial tree is back with its bytes unless it is `Lost`, lost files are gone, no new file
      remains, and the new directories that remain are those of which no entry tells, with those
      above them. */
  lemma RollbackIsExact(plan: Plan, t0: Tree, cmds: seq<Command>)
    requires WellFormed(t0) && InstallsSucceed(plan, Fresh(t0), cmds)
    requires FaultFree(plan, |Run(plan, Fresh(t0), cmds).disk.past|)
    ensures var w := Run(plan, Fresh(t0), cmds);
      var r := Rollback(plan, w);
      r.result == Ok
      && Restored(t0, r.world.disk.now, w.ops, Unjournalled(t0, w.disk.now, w.ops))
  {
    RunInstalled(plan, t0, cmds);
    UndoInstalled(plan, Run(plan, Fresh(t0), cmds), t0);
  }

  /** The files are as before exactly when no original file shares its path with a backup and
      each overwritten one was overwritten once, with no later backup on top of its own. */
  lemma FilesRestoredExactlyWhen(plan: Plan, t0: Tree, cmds: seq<Command>)
    requires WellFormed(t0) && InstallsSucceed(plan, Fresh(t0), cmds)
    requires FaultFree(plan, |Run(plan, Fresh(t0), cmds).disk.past|)
    ensures var w := Run(plan, Fresh(t0), cmds);
      SameFiles(t0, Rollback(plan, w).world.disk.now) <==>
      forall p :: IsFile(t0, p) ==> !IsBackup(w.ops, p) && (IsDestination(w.ops, p) ==> Kept(w.ops, p))
  {
    var w := Run(plan, Fresh(t0), cmds);
    RunInstalled(plan, t0, cmds);
    UndoInstalled(plan, w, t0);
    assert forall p :: Lost(t0, w.ops, p) <==>
      IsFile(t0, p) && (IsBackup(w.ops, p) || (IsDestination(w.ops, p) && !Kept(w.ops, p)));
  }

  lemma CheckedIsGuarded(plan: Plan, t0: Tree, cmds: seq<Command>)
    requires WellFormed(t0) && InstallsSucceed(plan, Fresh(t0), cmds)
    requires FreeBackups(t0, Targets(cmds)) && OverwritesOnce(t0, cmds)
    ensures var w := Run(plan, Fresh(t0), cmds);
      Guarded(t0, w.disk.now, w.ops, Targets(cmds))
  {
    var w := Run(plan, Fresh(t0), cmds);
    forall i | 0 <= i < |cmds|
      ensures cmds[i] != CommitCmd
    {
      assert InstallSucceeds(plan, Run(plan, Fresh(t0), cmds[..i]), cmds[i]);
    }
    RunGuarded(plan, t0, cmds);
    RunStaysActive(plan, t0, cmds);
  }

  lemma CheckedLosesNothing(plan: Plan, t0: Tree, cmds: seq<Command>)
    requires WellFormed(t0) && InstallsSucceed(plan, Fresh(t0), cmds)
    requires FreeBackups(t0, Targets(cmds)) && OverwritesOnce(t0, cmds)
    ensures forall p :: !Lost(t0, Run(plan, Fresh(t0), cmds).ops, p)
  {
    var w := Run(plan, Fresh(t0), cmds);
    CheckedIsGuarded(plan, t0, cmds);
    forall p | IsFile(t0, p)
      ensures !Lost(t0, w.ops, p)
    {
      GuardedIsKept(t0, w.disk.now, w.ops, Targets(cmds), p);
    }
  }

  /** With commands a caller can check beforehand (backups new, not shared and no destinations;
      nothing that existed overwritten twice) a rollback restores every file. */
  lemma RollbackRestoresFiles(plan: Plan, t0: Tree, cmds: seq<Command>)
    requires WellFormed(t0) && InstallsSucceed(plan, Fresh(t0), cmds)
    requires FreeBackups(t0, Targets(cmds)) && OverwritesOnce(t0, cmds)
    requires FaultFree(plan, |Run(plan, Fresh(t0), cmds).disk.past|)
    ensures var r := Rollback(plan, Run(plan, Fresh(t0), cmds));
      r.result == Ok && SameFiles(t0, r.world.disk.now)
  {
    CheckedLosesNothing(plan, t0, cmds);
    RunInstalled(plan, t0, cmds);
    UndoInstalled(plan, Run(plan, Fresh(t0), cmds), t0);
  }

  lemma {:induction false} RunStaysActive(plan: Plan, t0: Tree, cmds: seq<Command>)
    requires InstallsSucceed(plan, Fresh(t0), cmds)
    ensures Run(plan, Fresh(t0), cmds).state == Active
  {
    if cmds != [] {
      var init, c := cmds[..|cmds| - 1], cmds[|cmds| - 1];
      assert forall i :: 0 <= i < |init| ==> init[..i] == cmds[..i];
      RunStaysActive(plan, t0, init);
      assert InstallSucceeds(plan, Run(plan, Fresh(t0), init), c);
    }
  }

  lemma GuardedIsKept(t0: Tree, t: Tree, ops: seq<CompletedOp>, seen: set<Path>, p: Path)
    requires Guarded(t0, t, ops, seen) && FreeBackups(t0, seen) && IsFile(t0, p)
    ensures !Lost(t0, ops, p)
  {
    forall j | 0 <= j < |ops| && ops[j].FileCopied?
      ensures ops[j].destination in seen
      ensures ops[j].backup.Some? ==> ops[j].backup.value == Backup(ops[j].destination)
    {
      assert GuardedOp(t0, t, ops[j], seen);
    }
    if i :| 0 <= i < |ops| && CopiesTo(ops[i], p) {
      assert KeptBy(ops, p, i);
    }
  }

  // ---- Directories ----

  /** Whatever is made is made in a directory that was there. */
  ghost predicate ParentsExist(plan: Plan, w: World, cmds: seq<Command>) {
    forall i :: 0 <= i < |cmds| ==> ParentExists(Run(plan, w, cmds[..i]).disk.now, cmds[i])
  }

  predicate ParentExists(t: Tree, c: Command) {
    match c
    case CreateDirectoryCmd(p) => p in t || (p != [] && Parent(p) in t)
    case InstallFileCmd(_, dst) =>
      dst == [] || Parent(dst) in t || (Parent(dst) != [] && Parent(Parent(dst)) in t)
    case _ => true
  }

  ghost predicate AllJournalled(t0: Tree, w: World) {
    forall p :: IsDir(w.disk.now, p) && p !in t0 ==> IsJournalled(w.ops, p)
  }

  lemma CreateDirectoryJournalled(plan: Plan, w: World, path: Path, t0: Tree)
    requires WellFormed(w.disk.now) && AllJournalled(t0, w) && w.state == Active
    requires path in w.disk.now || (path != [] && Parent(path) in w.disk.now)
    ensures AllJournalled(t0, CreateDirectory(plan, w, path).world)
  {
    if path !in w.disk.now {
      var t, f := w.disk.now, w.disk.Fault(plan);
      var o := CreateDirAll(t, path, f);
      Appended(w.ops, DirectoryCreated(path));
      forall p | p in o.tree && p !in t
        ensures o.ok && p == path
      {
        if p <= Parent(path) {
          NotAbove(t, p, Parent(path));
        }
      }
    }
  }

  lemma CopyJournalled(plan: Plan, w: World, src: Path, dst: Path, t0: Tree)
    requires AllJournalled(t0, w) && w.state == Active
    ensures AllJournalled(t0, CopyWithBackup(plan, w, src, dst).world)
  {
    Appended(w.ops, FileCopied(dst, None));
    Appended(w.ops, FileCopied(dst, Some(Backup(dst))));
  }

  lemma {:induction false} RunJournalled(plan: Plan, t0: Tree, cmds: seq<Command>)
    requires WellFormed(t0) && InstallsSucceed(plan, Fresh(t0), cmds)
    requires ParentsExist(plan, Fresh(t0), cmds)
    ensures AllJournalled(t0, Run(plan, Fresh(t0), cmds))
  {
    if cmds != [] {
      var init, c := cmds[..|cmds| - 1], cmds[|cmds| - 1];
      var w := Run(plan, Fresh(t0), init);
      assert forall i :: 0 <= i < |init| ==> init[..i] == cmds[..i];
      RunJournalled(plan, t0, init);
      RunStaysActive(plan, t0, init);
      RunKeepsTree(plan, Fresh(t0), init);
      assert InstallSucceeds(plan, w, c) && ParentExists(w.disk.now, c);
      match c {
        case CreateDirectoryCmd(path) => CreateDirectoryJournalled(plan, w, path, t0);
        case InstallFileCmd(src, dst) =>
          if dst != [] {
            CreateDirectoryJournalled(plan, w, Parent(dst), t0);
            CopyJournalled(plan, CreateDirectory(plan, w, Parent(dst)).world, src, dst, t0);
          } else {
            CopyJournalled(plan, w, src, dst, t0);
          }
        case RegisterServiceCmd(name) => Appended(w.ops, ServiceRegistered(name));
      }
    }
  }

  // Directories that no entry tells of

  ghost predicate Stray(t0: Tree, w: World, q: Path) {
    IsDir(w.disk.now, q) && q !in t0 && !IsJournalled(w.ops, q)
  }

  lemma StrayThroughMake(plan: Plan, w: World, path: Path, t0: Tree, q: Path)
    requires Stray(t0, w, q)
    ensures Stray(t0, CreateDirectory(plan, w, path).world, q)
  {
    Appended(w.ops, DirectoryCreated(path));
  }

  lemma StrayThroughCopy(plan: Plan, w: World, src: Path, dst: Path, t0: Tree, q: Path)
    requires Stray(t0, w, q)
    ensures Stray(t0, CopyWithBackup(plan, w, src, dst).world, q)
  {
    Appended(w.ops, FileCopied(dst, None));
    Appended(w.ops, FileCopied(dst, Some(Backup(dst))));
  }

  lemma StrayStays(plan: Plan, w: World, c: Command, t0: Tree, q: Path)
    requires Stray(t0, w, q) && c != CommitCmd && c != RollbackCmd
    ensures Stray(t0, Apply(plan, w, c).world, q)
  {
    match c
    case CreateDirectoryCmd(path) => StrayThroughMake(plan, w, path, t0, q);
    case InstallFileCmd(src, dst) =>
      if dst != [] {
        StrayThroughMake(plan, w, Parent(dst), t0, q);
        StrayThroughCopy(plan, CreateDirectory(plan, w, Parent(dst)).world, src, dst, t0, q);
      } else {
        StrayThroughCopy(plan, w, src, dst, t0, q);
      }
    case RegisterServiceCmd(name) => Appended(w.ops, ServiceRegistered(name));
  }

  lemma {:induction false} StrayRemains(plan: Plan, w: World, cmds: seq<Command>, i: nat, t0: Tree, q: Path)
    requires i <= |cmds| && Stray(t0, Run(plan, w, cmds[..i]), q)
    requires forall j :: 0 <= j < |cmds| ==> cmds[j] != CommitCmd && cmds[j] != RollbackCmd
    ensures Stray(t0, Run(plan, w, cmds), q)
  {
    if i == |cmds| {
      assert cmds[..i] == cmds;
    } else {
      var init := cmds[..|cmds| - 1];
      assert init[..i] == cmds[..i];
      StrayRemains(plan, w, init, i, t0, q);
      StrayStays(plan, Run(plan, w, init), cmds[|cmds| - 1], t0, q);
    }
  }

  lemma StrayMade(plan: Plan, w: World, path: Path, t0: Tree)
    requires InstalledWorld(t0, w) && CreateDirectory(plan, w, path).result.Ok?
    requires path !in w.disk.now && (path == [] || Parent(path) !in w.disk.now)
    ensures path != [] && Stray(t0, CreateDirectory(plan, w, path).world, Parent(path))
  {
    OriginalsPresent(t0, w.disk.now, w.ops);
    Appended(w.ops, DirectoryCreated(path));
    assert Parent(path) <= path;
    assert !IsJournalled(w.ops, Parent(path));
  }

  /** A command that succeeds where a parent is missing makes a stray directory. */
  lemma ParentMissing(plan: Plan, w: World, c: Command, t0: Tree) returns (q: Path)
    requires InstalledWorld(t0, w) && Apply(plan, w, c).result.Ok? && !ParentExists(w.disk.now, c)
    ensures Stray(t0, Apply(plan, w, c).world, q)
  {
    match c
    case CreateDirectoryCmd(path) =>
      StrayMade(plan, w, path, t0);
      q := Parent(path);
    case InstallFileCmd(src, dst) =>
      StrayMade(plan, w, Parent(dst), t0);
      q := Parent(Parent(dst));
      StrayThroughCopy(plan, CreateDirectory(plan, w, Parent(dst)).world, src, dst, t0, q);
  }

  lemma SucceedingInstalls(plan: Plan, w: World, cmds: seq<Command>)
    requires AllSucceed(plan, w, cmds)
    ensures InstallsSucceed(plan, w, cmds)
    ensures forall j :: 0 <= j < |cmds| ==> cmds[j] != CommitCmd && cmds[j] != RollbackCmd
  {
  }

  lemma PrefixSucceeds(plan: Plan, w: World, cmds: seq<Command>, i: nat)
    requires i <= |cmds| && InstallsSucceed(plan, w, cmds)
    ensures InstallsSucceed(plan, w, cmds[..i])
  {
    assert forall j :: 0 <= j < i ==> cmds[..i][..j] == cmds[..j];
  }

  lemma StrayLeft(plan: Plan, t0: Tree, cmds: seq<Command>)
    requires WellFormed(t0) && AllSucceed(plan, Fresh(t0), cmds)
    ensures var w := Run(plan, Fresh(t0), cmds);
      !ParentsExist(plan, Fresh(t0), cmds) && FaultFree(plan, |w.disk.past|) ==>
        Rollback(plan, w).world.disk.now != t0
  {
    var w0, w := Fresh(t0), Run(plan, Fresh(t0), cmds);
    if !ParentsExist(plan, w0, cmds) && FaultFree(plan, |w.disk.past|) {
      var i :| 0 <= i < |cmds| && !ParentExists(Run(plan, w0, cmds[..i]).disk.now, cmds[i]);
      SucceedingInstalls(plan, w0, cmds);
      PrefixSucceeds(plan, w0, cmds, i);
      RunInstalled(plan, t0, cmds[..i]);
      var q := ParentMissing(plan, Run(plan, w0, cmds[..i]), cmds[i], t0);
      assert cmds[..i + 1][..i] == cmds[..i];
      StrayRemains(plan, w0, cmds, i + 1, t0, q);
      RollbackIsExact(plan, t0, cmds);
      assert q in Unjournalled(t0, w.disk.now, w.ops) && q <= q;
    }
  }

  lemma NothingLeft(plan: Plan, t0: Tree, cmds: seq<Command>)
    requires WellFormed(t0) && InstallsSucceed(plan, Fresh(t0), cmds)
    requires forall p :: !Lost(t0, Run(plan, Fresh(t0), cmds).ops, p)
    requires ParentsExist(plan, Fresh(t0), cmds)
    requires FaultFree(plan, |Run(plan, Fresh(t0), cmds).disk.past|)
    ensures Rollback(plan, Run(plan, Fresh(t0), cmds)).world.disk.now == t0
  {
    var w := Run(plan, Fresh(t0), cmds);
    RunJournalled(plan, t0, cmds);
    assert Unjournalled(t0, w.disk.now, w.ops) == {};
    RollbackIsExact(plan, t0, cmds);
  }

  /** The initial tree is back, whole, if nothing is lost and each directory is made in one that
      exists; and if all commands succeed, only then. */
  lemma TreeRestoredExactlyWhen(plan: Plan, t0: Tree, cmds: seq<Command>)
    requires WellFormed(t0) && InstallsSucceed(plan, Fresh(t0), cmds)
    requires FaultFree(plan, |Run(plan, Fresh(t0), cmds).disk.past|)
    ensures var w := Run(plan, Fresh(t0), cmds);
      var restored := Rollback(plan, w).world.disk.now == t0;
      var sound := ParentsExist(plan, Fresh(t0), cmds) && forall p :: !Lost(t0, w.ops, p);
      (sound ==> restored) && (AllSucceed(plan, Fresh(t0), cmds) ==> (restored <==> sound))
  {
    var w := Run(plan, Fresh(t0), cmds);
    RollbackIsExact(plan, t0, cmds);
    if !ParentsExist(plan, Fresh(t0), cmds) {
      if AllSucceed(plan, Fresh(t0), cmds) {
        StrayLeft(plan, t0, cmds);
      }
    } else if forall p :: !Lost(t0, w.ops, p) {
      NothingLeft(plan, t0, cmds);
    }
  }

  /** The same with commands a caller can check beforehand. */
  lemma RollbackRestoresTree(plan: Plan, t0: Tree, cmds: seq<Command>)
    requires WellFormed(t0) && InstallsSucceed(plan, Fresh(t0), cmds)
    requires FreeBackups(t0, Targets(cmds)) && OverwritesOnce(t0, cmds)
    requires FaultFree(plan, |Run(plan, Fresh(t0), cmds).disk.past|)
    ensures var restored := Rollback(plan, Run(plan, Fresh(t0), cmds)).world.disk.now == t0;
      && (ParentsExist(plan, Fresh(t0), cmds) ==> restored)
      && (AllSucceed(plan, Fresh(t0), cmds) ==> (restored <==> ParentsExist(plan, Fresh(t0), cmds)))
  {
    CheckedLosesNothing(plan, t0, cmds);
    TreeRestoredExactlyWhen(plan, t0, cmds);
  }
}
