/** What a rollback will give back, told from the commands before any of them is called. */
module Foresight {
  import opened Wrappers
  import opened Paths
  import opened FileTree
  import opened Journal
  import opened Recovery
  import opened Restoration
  import opened FailedInstall

  datatype Foreseen = Foreseen(files: set<Path>, copies: seq<CompletedOp>)

  /** The files there will be, and the entries for copies there will be, if all goes well. */
  function Foresee(t0: Tree, cmds: seq<Command>): Foreseen {
    if cmds == [] then Foreseen(set p | p in t0 && IsFile(t0, p), [])
    else
      var f := Foresee(t0, cmds[..|cmds| - 1]);
      match cmds[|cmds| - 1]
      case InstallFileCmd(_, dst) =>
        if dst in f.files then
          Foreseen(f.files + {Backup(dst)}, f.copies + [FileCopied(dst, Some(Backup(dst)))])
        else Foreseen(f.files + {dst}, f.copies + [FileCopied(dst, None)])
      case _ => f
  }

  ghost predicate Right(f: Foreseen, w: World) {
    (forall p :: IsFile(w.disk.now, p) <==> p in f.files) && SameFate(f.copies, w.ops)
  }

  lemma KeptAfter(ops: seq<CompletedOp>, op: CompletedOp, p: Path)
    ensures Kept(ops + [op], p) <==>
      if CopiesTo(op, p) then !IsDestination(ops, p)
      else Kept(ops, p) && !SavesAt(op, Backup(p))
  {
    var all := ops + [op];
    Appended(ops, op);
    assert all[|ops|] == op && forall i :: 0 <= i < |ops| ==> all[i] == ops[i];
    if CopiesTo(op, p) && !IsDestination(ops, p) {
      assert KeptBy(all, p, |ops|);
    } else if !CopiesTo(op, p) && Kept(ops, p) && !SavesAt(op, Backup(p)) {
      var i: nat :| KeptBy(ops, p, i);
      assert KeptBy(all, p, i);
    }
  }

  lemma SameFateAppended(ops: seq<CompletedOp>, ops': seq<CompletedOp>, op: CompletedOp)
    requires SameFate(ops, ops')
    ensures SameFate(ops + [op], ops' + [op])
  {
    Appended(ops, op);
    Appended(ops', op);
    forall p
      ensures Kept(ops + [op], p) <==> Kept(ops' + [op], p)
    {
      KeptAfter(ops, op, p);
      KeptAfter(ops', op, p);
    }
  }

  lemma DirectoryForeseen(plan: Plan, f: Foreseen, w: World, p: Path)
    requires Right(f, w)
    ensures Right(f, CreateDirectory(plan, w, p).world)
  {
    DirectoryKeepsFiles(plan, w, p);
  }

  lemma CopyForeseen(plan: Plan, f: Foreseen, w: World, src: Path, dst: Path)
    requires Right(f, w) && CopyWithBackup(plan, w, src, dst).result.Ok?
    ensures Right(
      if dst in f.files then
        Foreseen(f.files + {Backup(dst)}, f.copies + [FileCopied(dst, Some(Backup(dst)))])
      else Foreseen(f.files + {dst}, f.copies + [FileCopied(dst, None)]),
      CopyWithBackup(plan, w, src, dst).world)
  {
    SameFateAppended(f.copies, w.ops, FileCopied(dst, None));
    SameFateAppended(f.copies, w.ops, FileCopied(dst, Some(Backup(dst))));
  }

  lemma {:induction false} RunForeseen(plan: Plan, t0: Tree, cmds: seq<Command>)
    requires InstallsSucceed(plan, Fresh(t0), cmds)
    ensures Right(Foresee(t0, cmds), Run(plan, Fresh(t0), cmds))
  {
    if cmds != [] {
      var init, c := cmds[..|cmds| - 1], cmds[|cmds| - 1];
      var f, w := Foresee(t0, init), Run(plan, Fresh(t0), init);
      assert forall i :: 0 <= i < |init| ==> init[..i] == cmds[..i];
      RunForeseen(plan, t0, init);
      RunStaysActive(plan, t0, init);
      assert InstallSucceeds(plan, w, c);
      match c {
        case CreateDirectoryCmd(path) => DirectoryForeseen(plan, f, w, path);
        case InstallFileCmd(src, dst) =>
          if dst != [] {
            DirectoryForeseen(plan, f, w, Parent(dst));
            CopyForeseen(plan, f, CreateDirectory(plan, w, Parent(dst)).world, src, dst);
          } else {
            CopyForeseen(plan, f, w, src, dst);
          }
        case RegisterServiceCmd(name) =>
          NoCopyAppended(w.ops, ServiceRegistered(name));
      }
    }
  }

  /** Whether a rollback of the whole installation will restore every file is decided by the initial
      tree and the commands. */
  lemma RestoredExactlyWhenForeseen(plan: Plan, t0: Tree, cmds: seq<Command>)
    requires WellFormed(t0) && InstallsSucceed(plan, Fresh(t0), cmds)
    requires FaultFree(plan, |Run(plan, Fresh(t0), cmds).disk.past|)
    ensures SameFiles(t0, Rollback(plan, Run(plan, Fresh(t0), cmds)).world.disk.now)
       <==> NothingLost(t0, Foresee(t0, cmds).copies)
  {
    var w := Run(plan, Fresh(t0), cmds);
    RunInstalled(plan, t0, cmds);
    UndoInstalled(plan, w, t0);
    RunForeseen(plan, t0, cmds);
    assert forall p :: Lost(t0, Foresee(t0, cmds).copies, p) <==> Lost(t0, w.ops, p);
  }
}
