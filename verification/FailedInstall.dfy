/** A rollback after an installation that failed, the case rollback is there for. */
module FailedInstall {
  import opened Paths
  import opened FileTree
  import opened Journal
  import opened CrashSafety
  import opened Recovery
  import opened Restoration
  import opened RollbackFrame

  ghost predicate NothingLost(t0: Tree, ops: seq<CompletedOp>) {
    forall p :: !Lost(t0, ops, p)
  }

  /** An entry copied to `q` or saved at it, so that rollback removes what is there. */
  ghost predicate Known(ops: seq<CompletedOp>, q: Path) {
    IsDestination(ops, q) || IsBackup(ops, q)
  }

  /** The original file `p` comes back from `q`. */
  ghost predicate ComesFrom(t0: Tree, ops: seq<CompletedOp>, p: Path, q: Path) {
    IsFile(t0, p) && Kept(ops, p) && !IsBackup(ops, p) && Backup(p) == q
  }

  ghost predicate Needed(t0: Tree, ops: seq<CompletedOp>, q: Path) {
    exists p :: ComesFrom(t0, ops, p, q)
  }

  predicate SameAt(t: Tree, t': Tree, q: Path) {
    (IsFile(t, q) <==> IsFile(t', q)) && (IsFile(t, q) ==> t[q] == t'[q])
  }

  /** Whatever a failed call did at `q`, rollback does not show it: `q` is unchanged, or the journal
      knows it and needs it for no original file. */
  ghost predicate Harmless(t0: Tree, t: Tree, t': Tree, ops: seq<CompletedOp>, q: Path) {
    SameAt(t, t', q) || (Known(ops, q) && !Needed(t0, ops, q))
  }

  // ---- Writing without an entry ----

  lemma Overwritten(t0: Tree, t: Tree, ops: seq<CompletedOp>, q: Path, x: Node)
    requires Installed(t0, t, ops) && x.File? && !IsDir(t, q) && WellFormed(t[q := x])
    requires Known(ops, q) && !Needed(t0, ops, q)
    ensures Installed(t0, t[q := x], ops)
  {
    var t' := t[q := x];
    forall p | IsFile(t0, p) && Kept(ops, p) && !IsBackup(ops, p)
      ensures Saved(t0, t', p)
    {
      assert !ComesFrom(t0, ops, p, q);
    }
  }

  lemma KeptOnce(ops: seq<CompletedOp>, t0: Tree, p: Path, r: Path)
    requires WellLogged(t0, ops) && IsFile(t0, p) && IsFile(t0, r)
    requires Kept(ops, p) && Kept(ops, r) && Backup(p) == Backup(r)
    ensures p == r
  {
    var i: nat :| KeptBy(ops, p, i);
    var j: nat :| KeptBy(ops, r, j);
    assert Logged(t0, ops, i) && SavesAt(ops[i], Backup(p));
    assert Logged(t0, ops, j) && SavesAt(ops[j], Backup(r));
    assert i == j;
  }

  /** What is written where an original file comes from takes its place. */
  lemma Replaced(t0: Tree, t: Tree, ops: seq<CompletedOp>, p: Path, q: Path, x: Node)
    requires Installed(t0, t, ops) && x.File? && !IsDir(t, q) && WellFormed(t[q := x])
    requires ComesFrom(t0, ops, p, q)
    ensures Installed(t0[p := x], t[q := x], ops) && IsBackup(ops, q)
  {
    var t0', t' := t0[p := x], t[q := x];
    var i: nat :| KeptBy(ops, p, i);
    assert Logged(t0, ops, i) && SavesAt(ops[i], q) && CopiesTo(ops[i], p);
    assert WellLogged(t0', ops) by {
      forall k | 0 <= k < |ops|
        ensures Logged(t0', ops, k)
      {
        assert Logged(t0, ops, k);
      }
    }
    forall r | IsFile(t0', r) && Kept(ops, r) && !IsBackup(ops, r)
      ensures Saved(t0', t', r)
    {
      if r == p {
        assert t0'[r] == x && t'[Backup(r)] == x;
      } else {
        assert IsFile(t0, r) && Saved(t0, t, r);
        if Backup(r) == q {
          KeptOnce(ops, t0, p, r);
        }
      }
    }
    assert IsDestination(ops, p) && IsBackup(ops, q);
    forall r | IsFile(t0', r) && !IsDestination(ops, r) && !IsBackup(ops, r)
      ensures Same(t0', t', r)
    {
      assert IsFile(t0, r) && Same(t0, t, r);
    }
    forall r | IsDir(t0', r)
      ensures IsDir(t', r)
    {
      assert IsDir(t0, r);
    }
  }

  /** The two trees differ in the bytes of files at most. */
  ghost predicate SameShape(t: Tree, t': Tree) {
    forall p :: (IsDir(t, p) <==> IsDir(t', p)) && (IsFile(t, p) <==> IsFile(t', p))
  }

  /** The initial tree that rollback takes for the real one after a write that no entry tells of. */
  lemma Rewritten(t0: Tree, t: Tree, ops: seq<CompletedOp>, q: Path, x: Node) returns (t0': Tree)
    requires Installed(t0, t, ops) && x.File? && !IsDir(t, q) && WellFormed(t[q := x])
    requires Known(ops, q) || SameAt(t, t[q := x], q)
    ensures Installed(t0', t[q := x], ops) && SameShape(t0, t0')
    ensures forall p :: IsFile(t0, p) ==> t0'[p] == t0[p] || ComesFrom(t0, ops, p, q)
    ensures SameFiles(t0, t0') <==> Harmless(t0, t, t[q := x], ops, q)
  {
    if SameAt(t, t[q := x], q) {
      assert t[q := x] == t;
      t0' := t0;
    } else if Needed(t0, ops, q) {
      var p :| ComesFrom(t0, ops, p, q);
      Replaced(t0, t, ops, p, q, x);
      assert Saved(t0, t, p) && IsFile(t, q) && t0[p] != x;
      t0' := t0[p := x];
      assert IsFile(t0, p) && t0'[p] != t0[p];
    } else {
      Overwritten(t0, t, ops, q, x);
      t0' := t0;
    }
  }

  lemma UndoRewritten(plan: Plan, w: World, t0: Tree, t0': Tree)
    requires InstalledWorld(t0', w) && SameShape(t0, t0') && FaultFree(plan, |w.disk.past|)
    ensures var t := Rollback(plan, w).world.disk.now;
      && Rollback(plan, w).result == Ok
      && (SameFiles(t0, t) <==> NothingLost(t0, w.ops) && SameFiles(t0, t0'))
      && forall p :: IsFile(t0, p) && !Lost(t0, w.ops, p) ==> IsFile(t, p) && t[p] == t0'[p]
  {
    var t := Rollback(plan, w).world.disk.now;
    UndoInstalled(plan, w, t0');
    assert forall p :: IsFile(t0, p) <==> IsFile(t0', p);
    assert forall p :: Lost(t0, w.ops, p) <==> Lost(t0', w.ops, p);
    if SameFiles(t0, t) {
      forall p
        ensures !Lost(t0, w.ops, p)
      {
        assert Lost(t0', w.ops, p) ==> !IsFile(t, p);
      }
      assert SameFiles(t0', t);
    }
    if NothingLost(t0, w.ops) && SameFiles(t0, t0') {
      assert SameFiles(t0', t);
    }
  }

  /** A file at a path that the journal does not know stays. */
  lemma Stays(plan: Plan, d: Disk, ops: seq<CompletedOp>, t: Tree, q: Path)
    requires Present(t, ops) && WellFormed(d.now) && IsFile(d.now, q) && !Known(ops, q)
    requires forall p :: IsFile(t, p) ==> IsFile(d.now, p)
    ensures var t' := Unwind(plan, d, ops, 0).disk.now; IsFile(t', q) && t'[q] == d.now[q]
  {
    forall i | 0 <= i < |ops|
      ensures ClearOf(ops[i], q)
    {
      if ops[i].FileCopied? {
        var dst := ops[i].destination;
        assert CopiesTo(ops[i], dst) && IsDestination(ops, dst);
        FileIsNotAbove(d.now, dst, q);
        if ops[i].backup.Some? {
          assert SavesAt(ops[i], ops[i].backup.value) && IsBackup(ops, ops[i].backup.value);
          FileIsNotAbove(d.now, ops[i].backup.value, q);
        }
      }
    }
    assert Clear(ops, q);
    RollbackFramed(plan, d, ops, 0);
  }

  lemma FileIsNotAbove(t: Tree, f: Path, x: Path)
    requires WellFormed(t) && IsFile(t, f) && x in t && f != x
    ensures !(f <= x)
  {
    assert f <= x ==> f < x;
    if f < x {
      AncestorIsDir(t, x, f);
    }
  }

  /** It stays, and it is no original file. */
  lemma StaysInVain(plan: Plan, w: World, t0: Tree, t: Tree, q: Path)
    requires Installed(t0, t, w.ops) && w.state == Active && WellFormed(w.disk.now)
    requires IsFile(w.disk.now, q) && !IsDir(t, q) && !Known(w.ops, q) && !SameAt(t, w.disk.now, q)
    requires forall p :: IsFile(t, p) ==> IsFile(w.disk.now, p)
    ensures !SameFiles(t0, Rollback(plan, w).world.disk.now)
  {
    Stays(plan, w.disk, w.ops, t, q);
    assert IsDir(t0, q) ==> IsDir(t, q);
    assert IsFile(t0, q) ==> Same(t0, t, q);
    var t' := Rollback(plan, w).world.disk.now;
    assert IsFile(t', q) && !(IsFile(t0, q) && t0[q] == t'[q]);
  }

  /** Two writes that no entry tells of, after an installation. */
  lemma WritesUndoneExactlyWhen(plan: Plan, w: World, t0: Tree, t: Tree, b: Path, x: Node, dst: Path, y: Node)
    requires Installed(t0, t, w.ops) && w.state == Active && FaultFree(plan, |w.disk.past|)
    requires x.File? && y.File? && !IsDir(t, b) && !IsDir(t, dst) && (b == dst ==> x == y)
    requires WellFormed(t[b := x]) && WellFormed(w.disk.now) && w.disk.now == t[b := x][dst := y]
    ensures SameFiles(t0, Rollback(plan, w).world.disk.now)
       <==> && NothingLost(t0, w.ops)
            && Harmless(t0, t, w.disk.now, w.ops, b) && Harmless(t0, t, w.disk.now, w.ops, dst)
  {
    var ops, t1, t2 := w.ops, t[b := x], w.disk.now;
    if !Known(ops, b) && !SameAt(t, t2, b) {
      StaysInVain(plan, w, t0, t, b);
      assert !Harmless(t0, t, t2, ops, b);
    } else if !Known(ops, dst) && !SameAt(t, t2, dst) {
      StaysInVain(plan, w, t0, t, dst);
      assert !Harmless(t0, t, t2, ops, dst);
    } else {
      var t0' := Rewritten(t0, t, ops, b, x);
      if b == dst {
        assert t2 == t1;
        UndoRewritten(plan, w, t0, t0');
      } else {
        var t0'' := Rewritten(t0', t1, ops, dst, y);
        UndoRewritten(plan, w, t0, t0'');
        BothRewritten(t0, t0', t0'', ops, b, dst);
        NeededAlike(t0, t0', ops, dst);
      }
    }
  }

  lemma NeededAlike(t0: Tree, t0': Tree, ops: seq<CompletedOp>, q: Path)
    requires SameShape(t0, t0')
    ensures Needed(t0, ops, q) <==> Needed(t0', ops, q)
  {
    assert forall p :: ComesFrom(t0, ops, p, q) <==> ComesFrom(t0', ops, p, q);
  }

  /** Two rewritings are of different files. */
  lemma BothRewritten(t0: Tree, t0': Tree, t0'': Tree, ops: seq<CompletedOp>, b: Path, dst: Path)
    requires SameShape(t0, t0') && SameShape(t0', t0'') && b != dst
    requires forall p :: IsFile(t0, p) ==> t0'[p] == t0[p] || ComesFrom(t0, ops, p, b)
    requires forall p :: IsFile(t0', p) ==> t0''[p] == t0'[p] || ComesFrom(t0', ops, p, dst)
    ensures SameFiles(t0, t0'') <==> SameFiles(t0, t0') && SameFiles(t0', t0'')
  {
    forall p | IsFile(t0, p)
      ensures t0'[p] == t0[p] || t0''[p] == t0'[p]
    {
      assert Backup(p) != b || Backup(p) != dst;
    }
  }

  // ---- A failed call ----

  /** What failed copies do to a tree: nothing, or they write the backup, or the destination too. */
  lemma FailedCopies(plan: Plan, w: World, src: Path, dst: Path)
    requires CopyWithBackup(plan, w, src, dst).result.Err?
    ensures var t, t' := w.disk.now, CopyWithBackup(plan, w, src, dst).world.disk.now;
      && (t' == t
          || (dst !in t && IsFile(t', dst) && t' == t[dst := t'[dst]])
          || (IsFile(t, dst) && IsFile(t', Backup(dst)) && IsFile(t', dst) && !IsDir(t, Backup(dst))
              && t' == t[Backup(dst) := t'[Backup(dst)]][dst := t'[dst]]))
      && CopyWithBackup(plan, w, src, dst).world.state == w.state
      && CopyWithBackup(plan, w, src, dst).world.ops == w.ops
  {
    var t, t' := w.disk.now, CopyWithBackup(plan, w, src, dst).world.disk.now;
    if dst in t {
      var o := Copy(t, dst, Backup(dst), w.disk.Fault(plan));
      assert o.tree == t || (IsFile(t, dst) && o.tree == t[Backup(dst) := o.tree[Backup(dst)]]);
      assert t' == o.tree || t' == o.tree[dst := t'[dst]];
    }
  }

  lemma WriteKeepsTree(t: Tree, q: Path, x: Node)
    requires WellFormed(t) && x.File? && q != [] && IsDir(t, Parent(q)) && !IsDir(t, q)
    ensures WellFormed(t[q := x])
  {
  }

  lemma FailedCopiesUndone(plan: Plan, t0: Tree, w: World, src: Path, dst: Path)
    requires InstalledWorld(t0, w) && CopyWithBackup(plan, w, src, dst).result.Err?
    requires var failed := CopyWithBackup(plan, w, src, dst).world;
      WellFormed(failed.disk.now) && FaultFree(plan, |failed.disk.past|)
    ensures var failed := CopyWithBackup(plan, w, src, dst).world;
      UndoneExactlyWhen(plan, t0, w, failed, dst)
  {
    var failed, b := CopyWithBackup(plan, w, src, dst).world, Backup(dst);
    var t, t' := w.disk.now, failed.disk.now;
    FailedCopies(plan, w, src, dst);
    if t' == t {
      UndoRewritten(plan, failed, t0, t0);
    } else if dst !in t {
      assert t' == t[dst := t'[dst]][dst := t'[dst]];
      WritesUndoneExactlyWhen(plan, failed, t0, t, dst, t'[dst], dst, t'[dst]);
    } else {
      assert dst != [] && IsDir(t, Parent(dst));
      WriteKeepsTree(t, b, t'[b]);
      WritesUndoneExactlyWhen(plan, failed, t0, t, b, t'[b], dst, t'[dst]);
    }
  }

  /** Rolling back `failed` restores all files exactly when nothing was lost before, and what the call
      did at the two paths it may write is harmless. */
  ghost predicate UndoneExactlyWhen(plan: Plan, t0: Tree, w: World, failed: World, dst: Path) {
    SameFiles(t0, Rollback(plan, failed).world.disk.now) <==>
      && NothingLost(t0, w.ops)
      && Harmless(t0, w.disk.now, failed.disk.now, w.ops, Backup(dst))
      && Harmless(t0, w.disk.now, failed.disk.now, w.ops, dst)
  }

  /** The journals say the same of files. */
  ghost predicate SameFate(ops: seq<CompletedOp>, ops': seq<CompletedOp>) {
    forall p ::
      && (IsDestination(ops, p) <==> IsDestination(ops', p))
      && (IsBackup(ops, p) <==> IsBackup(ops', p))
      && (Kept(ops, p) <==> Kept(ops', p))
  }

  lemma NoCopyAppended(ops: seq<CompletedOp>, op: CompletedOp)
    requires !op.FileCopied?
    ensures SameFate(ops, ops + [op])
  {
    var all := ops + [op];
    assert forall i :: 0 <= i < |ops| ==> all[i] == ops[i];
    Appended(ops, op);
    forall p | Kept(ops, p)
      ensures Kept(all, p)
    {
      var i: nat :| KeptBy(ops, p, i);
      assert KeptBy(all, p, i);
    }
  }

  lemma FateDecides(
      t0: Tree, t: Tree, t1: Tree, t': Tree, ops: seq<CompletedOp>, ops1: seq<CompletedOp>, q: Path)
    requires SameFate(ops, ops1) && SameFiles(t, t1)
    ensures NothingLost(t0, ops) <==> NothingLost(t0, ops1)
    ensures Harmless(t0, t, t', ops, q) <==> Harmless(t0, t1, t', ops1, q)
  {
    assert forall p :: Lost(t0, ops, p) <==> Lost(t0, ops1, p);
    assert forall p :: ComesFrom(t0, ops, p, q) <==> ComesFrom(t0, ops1, p, q);
    assert SameAt(t, t', q) <==> SameAt(t1, t', q);
  }

  lemma DirectoryKeepsFiles(plan: Plan, w: World, p: Path)
    ensures SameFiles(w.disk.now, CreateDirectory(plan, w, p).world.disk.now)
    ensures SameFate(w.ops, CreateDirectory(plan, w, p).world.ops)
  {
    NoCopyAppended(w.ops, DirectoryCreated(p));
    var w1 := CreateDirectory(plan, w, p).world;
    assert w1.ops == w.ops || w1.ops == w.ops + [DirectoryCreated(p)];
  }

  lemma FailedCallUndone(plan: Plan, t0: Tree, w: World, src: Path, dst: Path)
    requires InstalledWorld(t0, w) && InstallFile(plan, w, src, dst).result.Err?
    requires var failed := InstallFile(plan, w, src, dst).world;
      WellFormed(failed.disk.now) && FaultFree(plan, |failed.disk.past|)
    ensures UndoneExactlyWhen(plan, t0, w, InstallFile(plan, w, src, dst).world, dst)
  {
    var failed := InstallFile(plan, w, src, dst).world;
    if dst == [] {
      FailedCopiesUndone(plan, t0, w, src, dst);
    } else {
      var made := CreateDirectory(plan, w, Parent(dst));
      CreateDirectoryInstalled(plan, w, Parent(dst), t0);
      DirectoryKeepsFiles(plan, w, Parent(dst));
      FateDecides(t0, w.disk.now, made.world.disk.now, failed.disk.now, w.ops, made.world.ops, Backup(dst));
      FateDecides(t0, w.disk.now, made.world.disk.now, failed.disk.now, w.ops, made.world.ops, dst);
      if made.result.Ok? {
        FailedCopiesUndone(plan, t0, made.world, src, dst);
      } else {
        UndoRewritten(plan, failed, t0, t0);
      }
    }
  }

  /** After any installation, and a file installation that failed anywhere, a fault-free rollback
      restores every file exactly when nothing was lost before the call, and each of the two paths
      it may have written is unchanged, or known to the journal and needed for no original file. */
  lemma FailedInstallUndoneExactlyWhen(plan: Plan, t0: Tree, cmds: seq<Command>, src: Path, dst: Path)
    requires WellFormed(t0) && InstallsSucceed(plan, Fresh(t0), cmds)
    requires InstallFile(plan, Run(plan, Fresh(t0), cmds), src, dst).result.Err?
    requires FaultFree(plan, |InstallFile(plan, Run(plan, Fresh(t0), cmds), src, dst).world.disk.past|)
    ensures var w := Run(plan, Fresh(t0), cmds);
      UndoneExactlyWhen(plan, t0, w, InstallFile(plan, w, src, dst).world, dst)
  {
    RunInstalled(plan, t0, cmds);
    RunKeepsTree(plan, Fresh(t0), cmds);
    ApplyKeepsTree(plan, Run(plan, Fresh(t0), cmds), InstallFileCmd(src, dst));
    FailedCallUndone(plan, t0, Run(plan, Fresh(t0), cmds), src, dst);
  }

  // ---- A call that fails although the disk does not ----

  /** What such a call leaves at the backup of `dst`: a copy, or nothing if it copies onto itself. */
  function Saving(t: Tree, dst: Path): Node
    requires dst in t
  {
    if Backup(dst) == dst then File([]) else t[dst]
  }

  /** There is a file to save, and nothing in the way. */
  predicate Saves(t: Tree, dst: Path) {
    IsFile(t, dst) && !IsDir(t, Backup(dst))
  }

  lemma CopiesFailByThemselves(plan: Plan, w: World, src: Path, dst: Path)
    requires FaultFree(plan, |w.disk.past|) && WellFormed(w.disk.now)
    requires CopyWithBackup(plan, w, src, dst).result.Err?
    ensures var t := w.disk.now;
      CopyWithBackup(plan, w, src, dst).world.disk.now
      == if Saves(t, dst) then t[Backup(dst) := Saving(t, dst)] else t
  {
    assert IsFile(w.disk.now, dst) ==> dst != [] && IsDir(w.disk.now, Parent(dst));
  }

  /** Such a call makes directories, and the backup if there is a file to save. */
  lemma FailsByItself(plan: Plan, w: World, src: Path, dst: Path)
    requires FaultFree(plan, |w.disk.past|) && WellFormed(w.disk.now) && w.state == Active
    requires InstallFile(plan, w, src, dst).result.Err?
    ensures var t, failed := w.disk.now, InstallFile(plan, w, src, dst).world;
      && failed.state == Active
      && if Saves(t, dst) then
           failed.ops == w.ops && failed.disk.now == t[Backup(dst) := Saving(t, dst)]
         else SameFiles(t, failed.disk.now)
  {
    if dst == [] || Parent(dst) in w.disk.now {
      CopiesFailByThemselves(plan, w, src, dst);
      FailedCopies(plan, w, src, dst);
    } else {
      var made := CreateDirectory(plan, w, Parent(dst));
      DirectoryKeepsFiles(plan, w, Parent(dst));
      CreateDirAllKeepsTree(w.disk.now, Parent(dst), w.disk.Fault(plan));
      if made.result.Ok? {
        CopiesFailByThemselves(plan, made.world, src, dst);
        FailedCopies(plan, made.world, src, dst);
      }
      assert dst in w.disk.now ==> IsDir(w.disk.now, Parent(dst));
      assert !IsFile(made.world.disk.now, dst);
    }
  }

  lemma HarmlessByItself(plan: Plan, t0: Tree, w: World, src: Path, dst: Path)
    requires FaultFree(plan, |w.disk.past|) && WellFormed(w.disk.now) && w.state == Active
    requires InstallFile(plan, w, src, dst).result.Err?
    ensures var t, t', b := w.disk.now, InstallFile(plan, w, src, dst).world.disk.now, Backup(dst);
      Harmless(t0, t, t', w.ops, b) && Harmless(t0, t, t', w.ops, dst) <==>
        || !Saves(t, dst) || (b in t && t[b] == Saving(t, dst))
        || (Known(w.ops, b) && !Needed(t0, w.ops, b))
  {
    FailsByItself(plan, w, src, dst);
  }

  /** The same condition before the call, if the disk does not fail: nothing was lost, and there is no
      file to save, or its backup is already there, or the journal knows the backup path and needs
      it for no original file. */
  lemma CallWithoutFaultUndoneExactlyWhen(
      plan: Plan, t0: Tree, cmds: seq<Command>, src: Path, dst: Path)
    requires WellFormed(t0) && InstallsSucceed(plan, Fresh(t0), cmds)
    requires InstallFile(plan, Run(plan, Fresh(t0), cmds), src, dst).result.Err?
    requires FaultFree(plan, |Run(plan, Fresh(t0), cmds).disk.past|)
    ensures var w, b := Run(plan, Fresh(t0), cmds), Backup(dst);
      var t := w.disk.now;
      SameFiles(t0, Rollback(plan, InstallFile(plan, w, src, dst).world).world.disk.now) <==>
        && NothingLost(t0, w.ops)
        && (|| !IsFile(t, dst) || IsDir(t, b)
            || (b in t && t[b] == Saving(t, dst))
            || (Known(w.ops, b) && !Needed(t0, w.ops, b)))
  {
    var w := Run(plan, Fresh(t0), cmds);
    RunInstalled(plan, t0, cmds);
    assert |w.disk.past| <= |InstallFile(plan, w, src, dst).world.disk.past|;
    FailedInstallUndoneExactlyWhen(plan, t0, cmds, src, dst);
    HarmlessByItself(plan, t0, w, src, dst);
  }

  /** What is seen when it is not undone.  A backup that the journal does not know stays, with the bytes
      of the file that the call saved; and an original file that comes from there gets these bytes
      for its own. */
  lemma BackupLeftBehind(plan: Plan, t0: Tree, cmds: seq<Command>, src: Path, dst: Path)
    requires WellFormed(t0) && InstallsSucceed(plan, Fresh(t0), cmds)
    requires InstallFile(plan, Run(plan, Fresh(t0), cmds), src, dst).result.Err?
    requires FaultFree(plan, |Run(plan, Fresh(t0), cmds).disk.past|)
    ensures var w, b := Run(plan, Fresh(t0), cmds), Backup(dst);
      var r := Rollback(plan, InstallFile(plan, w, src, dst).world);
      Saves(w.disk.now, dst) ==>
        && (!Known(w.ops, b) ==> IsFile(r.world.disk.now, b) && r.world.disk.now[b] == Saving(w.disk.now, dst))
        && (forall p :: ComesFrom(t0, w.ops, p, b) ==>
              r.result == Ok && IsFile(r.world.disk.now, p) && r.world.disk.now[p] == Saving(w.disk.now, dst))
  {
    var w, b := Run(plan, Fresh(t0), cmds), Backup(dst);
    var t, failed := w.disk.now, InstallFile(plan, w, src, dst).world;
    RunInstalled(plan, t0, cmds);
    if Saves(t, dst) {
      FailsByItself(plan, w, src, dst);
      assert dst != [] && IsDir(t, Parent(dst));
      WriteKeepsTree(t, b, Saving(t, dst));
      if !Known(w.ops, b) {
        Stays(plan, failed.disk, w.ops, t, b);
      }
      forall p | ComesFrom(t0, w.ops, p, b)
        ensures var r := Rollback(plan, failed);
          r.result == Ok && IsFile(r.world.disk.now, p) && r.world.disk.now[p] == Saving(t, dst)
      {
        Replaced(t0, t, w.ops, p, b, Saving(t, dst));
        UndoRewritten(plan, failed, t0, t0[p := Saving(t, dst)]);
        assert !Lost(t0, w.ops, p);
      }
    }
  }

  /** A call without a source, over an original file: nothing needs to fail for it to leave the
      file's backup behind, which the rollback does not find. */
  lemma MissingSourceLeavesBackup(plan: Plan, t0: Tree, src: Path, dst: Path)
    requires WellFormed(t0) && FaultFree(plan, 0)
    requires IsFile(t0, dst) && !IsFile(t0, src) && src != Backup(dst)
    requires Backup(dst) !in t0
    ensures var r := InstallFile(plan, Fresh(t0), src, dst);
      && r.result == Err(Io)
      && Rollback(plan, r.world).result == Ok
      && Rollback(plan, r.world).world.disk.now == t0[Backup(dst) := t0[dst]]
  {
    assert dst != [] && IsDir(t0, Parent(dst));
  }
}
