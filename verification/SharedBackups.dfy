/** What becomes of two files that meet at one backup path. */
module SharedBackups {
  import opened Wrappers
  import opened Paths
  import opened FileTree
  import opened Journal
  import opened Recovery
  import opened Restoration
  import opened FailedInstall

  function Entry(t: Tree, dst: Path): CompletedOp {
    FileCopied(dst, if dst in t then Some(Backup(dst)) else None)
  }

  /** One successful installation into an existing directory. */
  lemma Entered(plan: Plan, w: World, src: Path, dst: Path)
    requires w.state == Active && dst != [] && IsDir(w.disk.now, Parent(dst))
    requires InstallFile(plan, w, src, dst).result.Ok?
    ensures var w' := InstallFile(plan, w, src, dst).world;
      && w'.state == Active && w'.ops == w.ops + [Entry(w.disk.now, dst)]
      && (forall p :: IsDir(w.disk.now, p) ==> IsDir(w'.disk.now, p))
      && (forall p :: p in w'.disk.now <==>
            || p in w.disk.now || p == dst
            || (dst in w.disk.now && p == Backup(dst)))
  {
  }

  function Two(s: Path, d: Path, r: Path, e: Path): seq<Command> {
    [InstallFileCmd(s, d), InstallFileCmd(r, e)]
  }

  /** A successful run of two installations, into existing directories. */
  ghost predicate BothSucceed(plan: Plan, t0: Tree, s: Path, d: Path, r: Path, e: Path) {
    && WellFormed(t0) && InstallsSucceed(plan, Fresh(t0), Two(s, d, r, e))
    && d != [] && e != [] && IsDir(t0, Parent(d)) && IsDir(t0, Parent(e))
    && FaultFree(plan, |Run(plan, Fresh(t0), Two(s, d, r, e)).disk.past|)
  }

  lemma BothEntered(plan: Plan, t0: Tree, s: Path, d: Path, r: Path, e: Path)
    requires BothSucceed(plan, t0, s, d, r, e)
    ensures Run(plan, Fresh(t0), Two(s, d, r, e)).ops
         == [ Entry(t0, d),
              if e in t0 || e == d || (d in t0 && e == Backup(d)) then FileCopied(e, Some(Backup(e)))
              else FileCopied(e, None) ]
  {
    var cmds, w0 := Two(s, d, r, e), Fresh(t0);
    var w1 := Apply(plan, w0, cmds[0]).world;
    assert cmds[..1][..0] == [] && cmds[..0] == [];
    assert cmds[..1] == [cmds[0]] && Run(plan, w0, cmds[..1]) == w1;
    assert InstallSucceeds(plan, w0, cmds[0]) && InstallSucceeds(plan, w1, cmds[1]);
    Entered(plan, w0, s, d);
    Entered(plan, w1, r, e);
  }

  lemma SharedJournal(t0: Tree, d: Path, e: Path)
    requires IsFile(t0, d) && IsFile(t0, e) && d != e && Backup(d) == Backup(e)
    ensures var ops := [FileCopied(d, Some(Backup(d))), FileCopied(e, Some(Backup(e)))];
      Lost(t0, ops, d) && (Lost(t0, ops, e) <==> Backup(e) == e)
  {
    var ops := [FileCopied(d, Some(Backup(d))), FileCopied(e, Some(Backup(e)))];
    assert CopiesTo(ops[0], d) && CopiesTo(ops[1], e) && SavesAt(ops[1], Backup(d));
    assert KeptBy(ops, e, 1);
    assert forall i: nat :: i < 2 && CopiesTo(ops[i], d) ==> i == 0;
  }

  /** Of two original files with one backup path, the one installed first is gone after a rollback,
      and the other is back unless it is itself at that path. */
  lemma SharedBackupLoses(plan: Plan, t0: Tree, s: Path, d: Path, r: Path, e: Path)
    requires BothSucceed(plan, t0, s, d, r, e)
    requires IsFile(t0, d) && IsFile(t0, e) && d != e && Backup(d) == Backup(e)
    ensures var t := Rollback(plan, Run(plan, Fresh(t0), Two(s, d, r, e))).world.disk.now;
      d !in t && if Backup(e) == e then e !in t else IsFile(t, e) && t[e] == t0[e]
  {
    BothEntered(plan, t0, s, d, r, e);
    SharedJournal(t0, d, e);
    RollbackIsExact(plan, t0, Two(s, d, r, e));
  }

  lemma BackupFirstJournal(t0: Tree, d: Path, b: Path)
    requires IsFile(t0, d) && b !in t0
    ensures forall p :: !Lost(t0, [FileCopied(b, None), FileCopied(d, Some(b))], p)
  {
    var ops := [FileCopied(b, None), FileCopied(d, Some(b))];
    assert KeptBy(ops, d, 1);
  }

  /** A new file may be installed at the backup path of an original one before that one is. */
  lemma BackupPathInstalledFirst(plan: Plan, t0: Tree, s: Path, d: Path, r: Path)
    requires IsFile(t0, d) && Backup(d) !in t0 && BothSucceed(plan, t0, r, Backup(d), s, d)
    ensures SameFiles(t0, Rollback(plan, Run(plan, Fresh(t0), Two(r, Backup(d), s, d))).world.disk.now)
  {
    BothEntered(plan, t0, r, Backup(d), s, d);
    BackupFirstJournal(t0, d, Backup(d));
    RunInstalled(plan, t0, Two(r, Backup(d), s, d));
    UndoInstalled(plan, Run(plan, Fresh(t0), Two(r, Backup(d), s, d)), t0);
  }

  /** After it, the same two installations lose the original. */
  lemma BackupPathInstalledLater(plan: Plan, t0: Tree, s: Path, d: Path, r: Path)
    requires IsFile(t0, d) && Backup(d) !in t0 && BothSucceed(plan, t0, s, d, r, Backup(d))
    ensures d !in Rollback(plan, Run(plan, Fresh(t0), Two(s, d, r, Backup(d)))).world.disk.now
  {
    var ops := Run(plan, Fresh(t0), Two(s, d, r, Backup(d))).ops;
    BothEntered(plan, t0, s, d, r, Backup(d));
    BackupOfBackup(d);
    assert CopiesTo(ops[0], d) && SavesAt(ops[1], Backup(d));
    assert forall i: nat :: i < 2 && CopiesTo(ops[i], d) ==> i == 0;
    assert Lost(t0, ops, d);
    RollbackIsExact(plan, t0, Two(s, d, r, Backup(d)));
  }

  /** If the second of two originals with one backup path cannot be installed, for want of a source,
      rollback succeeds and leaves its bytes in the first. */
  lemma FailedCallSwapsBytes(plan: Plan, t0: Tree, s: Path, d: Path, r: Path, e: Path)
    requires WellFormed(t0) && InstallsSucceed(plan, Fresh(t0), [InstallFileCmd(s, d)])
    requires IsFile(t0, d) && IsFile(t0, e) && d != e
    requires Backup(d) == Backup(e) && Backup(d) !in {d, e}
    requires var w := Run(plan, Fresh(t0), [InstallFileCmd(s, d)]);
      FaultFree(plan, |w.disk.past|) && InstallFile(plan, w, r, e).result.Err?
    ensures var w := Run(plan, Fresh(t0), [InstallFileCmd(s, d)]);
      var u := Rollback(plan, InstallFile(plan, w, r, e).world);
      u.result == Ok && IsFile(u.world.disk.now, d) && u.world.disk.now[d] == t0[e]
  {
    var cmds := [InstallFileCmd(s, d)];
    var w := Run(plan, Fresh(t0), cmds);
    assert cmds[..0] == [] && Run(plan, Fresh(t0), cmds[..0]) == Fresh(t0);
    assert InstallSucceeds(plan, Fresh(t0), cmds[0]);
    EnteredOver(plan, Fresh(t0), s, d, e);
    assert KeptBy(w.ops, d, 0);
    assert ComesFrom(t0, w.ops, d, Backup(e)) by {
      assert !IsBackup(w.ops, d);
    }
    BackupLeftBehind(plan, t0, cmds, r, e);
  }

  lemma EnteredOver(plan: Plan, w: World, src: Path, dst: Path, e: Path)
    requires w.state == Active && WellFormed(w.disk.now)
    requires IsFile(w.disk.now, dst) && IsFile(w.disk.now, e) && e != dst && e != Backup(dst)
    requires InstallFile(plan, w, src, dst).result.Ok?
    ensures var w' := InstallFile(plan, w, src, dst).world;
      && w'.ops == w.ops + [FileCopied(dst, Some(Backup(dst)))]
      && IsFile(w'.disk.now, e) && w'.disk.now[e] == w.disk.now[e] && !IsDir(w'.disk.now, Backup(dst))
  {
    assert dst != [] && IsDir(w.disk.now, Parent(dst));
  }
}
