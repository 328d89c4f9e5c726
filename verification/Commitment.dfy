/** A committed installation is a plain one: no journal, no backups. */
module Commitment {
  import opened Wrappers
  import opened Paths
  import opened FileTree
  import opened Journal
  import opened CrashSafety
  import opened Recovery
  import opened Restoration

  // ---- The plain installer ----

  function PlainMake(t: Tree, p: Path): Tree {
    CreateDirAll(t, p, NoFault).tree
  }

  function PlainApply(t: Tree, c: Command): Tree {
    match c
    case CreateDirectoryCmd(p) => PlainMake(t, p)
    case InstallFileCmd(src, dst) =>
      Copy(if dst == [] then t else PlainMake(t, Parent(dst)), src, dst, NoFault).tree
    case _ => t
  }

  function PlainRun(t: Tree, cmds: seq<Command>): Tree {
    if cmds == [] then t
    else PlainApply(PlainRun(t, cmds[..|cmds| - 1]), cmds[|cmds| - 1])
  }

  /** No backup is a destination, a source, a directory to make or a node that was there. */
  ghost predicate BackupsApart(t0: Tree, targets: set<Path>, cmds: seq<Command>) {
    forall b :: b in Backups(targets) ==>
      && b !in t0 && b !in targets && CreateDirectoryCmd(b) !in cmds
      && forall i :: 0 <= i < |cmds| && cmds[i].InstallFileCmd? ==> cmds[i].src != b
  }

  function Backups(targets: set<Path>): set<Path> {
    set d | d in targets :: Backup(d)
  }

  // ---- The simulation ----

  /** The tree is the plain one with the recorded backups on top. */
  ghost predicate OnTop(s: Tree, t: Tree, ops: seq<CompletedOp>) {
    && (forall p :: p in s ==> p in t && t[p] == s[p])
    && (forall p :: p in t && p !in s ==> IsBackup(ops, p))
    && (forall b :: IsBackup(ops, b) ==> b !in s && IsFile(t, b))
  }

  ghost predicate Simulates(s: Tree, w: World, t0: Tree, targets: set<Path>) {
    && w.state == Active
    && OnTop(s, w.disk.now, w.ops) && WellFormed(w.disk.now)
    && (forall p :: IsFile(s, p) ==> p in t0 || p in targets)
    && (forall b :: IsBackup(w.ops, b) ==> b in Backups(targets))
  }

  lemma MakeExisting(s: Tree, t: Tree, ops: seq<CompletedOp>, p: Path)
    requires OnTop(s, t, ops) && WellFormed(t) && p in t && !IsBackup(ops, p)
    ensures PlainMake(s, p) == s
  {
    forall q | q <= p
      ensures q in s
    {
      if q < p { AncestorIsDir(t, p, q); } else { assert q == p; }
    }
    assert WithDirs(s, p) == s;
  }

  lemma WithDirsOnTop(s: Tree, t: Tree, ops: seq<CompletedOp>, p: Path)
    requires OnTop(s, t, ops)
    requires forall q :: q <= p ==> !IsFile(t, q) && (q in t ==> q in s)
    ensures OnTop(WithDirs(s, p), WithDirs(t, p), ops)
  {
  }

  lemma MakeMissing(s: Tree, t: Tree, ops: seq<CompletedOp>, p: Path, f: Fault)
    requires OnTop(s, t, ops) && CreateDirAll(t, p, f).ok
    ensures OnTop(PlainMake(s, p), CreateDirAll(t, p, f).tree, ops)
    ensures forall q :: IsFile(PlainMake(s, p), q) ==> IsFile(s, q)
  {
    forall q | q <= p
      ensures !IsFile(t, q) && (q in t ==> q in s)
    {
      assert q == p[..|q|];
      assert !IsFile(t, p[..|q|]);
    }
    WithDirsOnTop(s, t, ops, p);
    assert forall i :: 0 <= i <= |p| ==> p[..i] <= p && !IsFile(s, p[..i]);
    assert PlainMake(s, p) == WithDirs(s, p);
  }

  lemma MakeSimulates(plan: Plan, s: Tree, w: World, p: Path, t0: Tree, targets: set<Path>)
    requires Simulates(s, w, t0, targets) && CreateDirectory(plan, w, p).result.Ok?
    requires !IsBackup(w.ops, p)
    ensures Simulates(PlainMake(s, p), CreateDirectory(plan, w, p).world, t0, targets)
  {
    var t, f := w.disk.now, w.disk.Fault(plan);
    if p in t {
      MakeExisting(s, t, w.ops, p);
    } else {
      MakeMissing(s, t, w.ops, p, f);
      CreateDirAllKeepsTree(t, p, f);
      Appended(w.ops, DirectoryCreated(p));
    }
  }

  lemma CopySimulates(plan: Plan, s: Tree, w: World, src: Path, dst: Path, backup: Option<Path>,
                      t0: Tree, targets: set<Path>)
    requires WellFormed(w.disk.now) && dst in targets
    requires OnTop(s, w.disk.now, w.ops + [FileCopied(dst, backup)])
    requires !IsBackup(w.ops + [FileCopied(dst, backup)], src)
    requires !IsBackup(w.ops + [FileCopied(dst, backup)], dst)
    requires forall p :: IsFile(s, p) ==> p in t0 || p in targets
    requires CopyIn(plan, w, src, dst, backup).result.Ok?
    ensures var w' := CopyIn(plan, w, src, dst, backup).world;
      var s' := Copy(s, src, dst, NoFault).tree;
      && OnTop(s', w'.disk.now, w'.ops) && WellFormed(w'.disk.now)
      && forall p :: IsFile(s', p) ==> p in t0 || p in targets
  {
    CopyKeepsTree(w.disk.now, src, dst, w.disk.Fault(plan));
  }

  lemma SaveSimulates(s: Tree, t: Tree, ops: seq<CompletedOp>, dst: Path, f: Fault,
                      t0: Tree, targets: set<Path>)
    requires OnTop(s, t, ops) && forall p :: IsFile(s, p) ==> p in t0 || p in targets
    requires Backup(dst) !in t0 && Backup(dst) !in targets
    requires Copy(t, dst, Backup(dst), f).ok
    ensures OnTop(s, Copy(t, dst, Backup(dst), f).tree, ops + [FileCopied(dst, Some(Backup(dst)))])
  {
    Appended(ops, FileCopied(dst, Some(Backup(dst))));
    assert Backup(dst) !in s;
  }

  lemma InstallSimulates(plan: Plan, s: Tree, w: World, src: Path, dst: Path,
                         t0: Tree, targets: set<Path>)
    requires Simulates(s, w, t0, targets) && dst in targets
    requires forall b :: b in Backups(targets) ==> b !in t0 && b !in targets && b != src
    requires CopyWithBackup(plan, w, src, dst).result.Ok?
    ensures Simulates(Copy(s, src, dst, NoFault).tree, CopyWithBackup(plan, w, src, dst).world,
                      t0, targets)
  {
    var t := w.disk.now;
    assert Backup(dst) in Backups(targets);
    if dst in t {
      var backup := Some(Backup(dst));
      var o := Copy(t, dst, Backup(dst), w.disk.Fault(plan));
      SaveSimulates(s, t, w.ops, dst, w.disk.Fault(plan), t0, targets);
      CopyKeepsTree(t, dst, Backup(dst), w.disk.Fault(plan));
      Appended(w.ops, FileCopied(dst, backup));
      CopySimulates(plan, s, World(w.disk.Then(o), w.ops, w.state), src, dst, backup, t0, targets);
    } else {
      Appended(w.ops, FileCopied(dst, None));
      CopySimulates(plan, s, w, src, dst, None, t0, targets);
    }
  }

  lemma ParentIsNoBackup(plan: Plan, w: World, src: Path, dst: Path, s: Tree)
    requires OnTop(s, w.disk.now, w.ops) && dst != [] && w.state == Active
    requires InstallFile(plan, w, src, dst).result.Ok?
    ensures !IsBackup(w.ops, Parent(dst))
  {
    var t := CreateDirectory(plan, w, Parent(dst)).world.disk.now;
    assert IsDir(t, Parent(dst));
  }

  lemma {:induction false} RunSimulates(plan: Plan, t0: Tree, cmds: seq<Command>, targets: set<Path>)
    requires WellFormed(t0) && AllSucceed(plan, Fresh(t0), cmds)
    requires Targets(cmds) <= targets
    requires BackupsApart(t0, targets, cmds)
    ensures Simulates(PlainRun(t0, cmds), Run(plan, Fresh(t0), cmds), t0, targets)
  {
    if cmds != [] {
      var init, c := cmds[..|cmds| - 1], cmds[|cmds| - 1];
      var s, w := PlainRun(t0, init), Run(plan, Fresh(t0), init);
      assert forall i :: 0 <= i < |init| ==> init[i] == cmds[i] && init[..i] == cmds[..i];
      assert Targets(init) <= Targets(cmds);
      RunSimulates(plan, t0, init, targets);
      assert Apply(plan, w, c).result.Ok? && c in cmds;
      match c {
        case CreateDirectoryCmd(p) => MakeSimulates(plan, s, w, p, t0, targets);
        case InstallFileCmd(src, dst) =>
          assert cmds[|cmds| - 1].src == src && cmds[|cmds| - 1].dst == dst;
          assert dst in Targets(cmds);
          if dst == [] {
            InstallSimulates(plan, s, w, src, dst, t0, targets);
          } else {
            ParentIsNoBackup(plan, w, src, dst, s);
            MakeSimulates(plan, s, w, Parent(dst), t0, targets);
            InstallSimulates(plan, PlainMake(s, Parent(dst)),
                             CreateDirectory(plan, w, Parent(dst)).world, src, dst, t0, targets);
          }
        case RegisterServiceCmd(name) => Appended(w.ops, ServiceRegistered(name));
      }
    }
  }

  lemma {:induction false} BackupsDropped(plan: Plan, d: Disk, ops: seq<CompletedOp>)
    requires FaultFree(plan, |d.past|)
    requires forall b :: IsBackup(ops, b) ==> IsFile(d.now, b)
    ensures var d' := DropBackups(plan, d, ops);
      && |d.past| <= |d'.past|
      && (forall p :: p in d'.now <==> p in d.now && !IsBackup(ops, p))
      && (forall p :: p in d'.now ==> d'.now[p] == d.now[p])
  {
    if ops != [] {
      var init, op := ops[..|ops| - 1], ops[|ops| - 1];
      assert init + [op] == ops;
      Appended(init, op);
      BackupsDropped(plan, d, init);
    }
  }

  /** After a fault-free commit the tree is, node for node, the one that plain copying would have
      made: each destination holds what was copied to it last, no backup is left, and nothing
      else differs. */
  lemma CommitIsPlainInstall(plan: Plan, t0: Tree, cmds: seq<Command>)
    requires WellFormed(t0) && BackupsApart(t0, Targets(cmds), cmds)
    ensures var w := Run(plan, Fresh(t0), cmds);
      AllSucceed(plan, Fresh(t0), cmds) && FaultFree(plan, |w.disk.past|) ==>
        Commit(plan, w).result == Ok && Commit(plan, w).world.disk.now == PlainRun(t0, cmds)
  {
    var w := Run(plan, Fresh(t0), cmds);
    if AllSucceed(plan, Fresh(t0), cmds) && FaultFree(plan, |w.disk.past|) {
      RunSimulates(plan, t0, cmds, Targets(cmds));
      BackupsDropped(plan, w.disk, w.ops);
    }
  }

  lemma {:induction false} OnlyBackupsDropped(plan: Plan, d: Disk, ops: seq<CompletedOp>)
    ensures var d' := DropBackups(plan, d, ops);
      && (forall p :: p in d'.now ==> p in d.now && d'.now[p] == d.now[p])
      && (forall p :: p in d.now && p !in d'.now ==> IsBackup(ops, p))
  {
    if ops != [] {
      var init, op := ops[..|ops| - 1], ops[|ops| - 1];
      assert init + [op] == ops;
      Appended(init, op);
      OnlyBackupsDropped(plan, d, init);
    }
  }

  /** Whatever removals fail, the commit succeeds, and the tree is the plain one with some of the
      recorded backups on top. */
  lemma CommitLeavesBackups(plan: Plan, t0: Tree, cmds: seq<Command>)
    requires WellFormed(t0) && BackupsApart(t0, Targets(cmds), cmds)
    ensures var w := Run(plan, Fresh(t0), cmds);
      var s, t := PlainRun(t0, cmds), Commit(plan, w).world.disk.now;
      AllSucceed(plan, Fresh(t0), cmds) ==>
        && Commit(plan, w).result == Ok
        && (forall p :: p in s ==> p in t && t[p] == s[p])
        && (forall p :: p in t && p !in s ==> IsBackup(w.ops, p) && IsFile(t, p))
  {
    var w := Run(plan, Fresh(t0), cmds);
    if AllSucceed(plan, Fresh(t0), cmds) {
      RunSimulates(plan, t0, cmds, Targets(cmds));
      OnlyBackupsDropped(plan, w.disk, w.ops);
    }
  }

  lemma PlainApplyKeeps(s: Tree, c: Command, p: Path)
    requires c.InstallFileCmd? ==> c.dst != p
    ensures p in s ==> p in PlainApply(s, c) && PlainApply(s, c)[p] == s[p]
    ensures p !in s ==> !IsFile(PlainApply(s, c), p)
  {
  }

  /** The plain installer changes only its destinations and makes directories. */
  lemma {:induction false} PlainRunFrame(t0: Tree, cmds: seq<Command>, p: Path)
    requires p !in Targets(cmds)
    ensures p in t0 ==> p in PlainRun(t0, cmds) && PlainRun(t0, cmds)[p] == t0[p]
    ensures p !in t0 ==> !IsFile(PlainRun(t0, cmds), p)
  {
    if cmds != [] {
      var init, c := cmds[..|cmds| - 1], cmds[|cmds| - 1];
      assert forall i :: 0 <= i < |init| ==> init[i] == cmds[i];
      PlainRunFrame(t0, init, p);
      assert cmds[|cmds| - 1] == c;
      PlainApplyKeeps(PlainRun(t0, init), c, p);
    }
  }

  /** A destination keeps what was copied to it last: the source as it then was, or nothing at
      all if the file was copied onto itself. */
  lemma {:induction false} PlainRunLastCopy(t0: Tree, cmds: seq<Command>, i: nat, src: Path, dst: Path)
    requires i < |cmds| && cmds[i] == InstallFileCmd(src, dst)
    requires forall j :: i < j < |cmds| && cmds[j].InstallFileCmd? ==> cmds[j].dst != dst
    requires var s := PlainRun(t0, cmds[..i]);
      IsFile(s, src) && Copy(if dst == [] then s else PlainMake(s, Parent(dst)), src, dst, NoFault).ok
    ensures var s := PlainRun(t0, cmds[..i]);
      dst in PlainRun(t0, cmds)
      && PlainRun(t0, cmds)[dst] == File(if src == dst then [] else s[src].data)
  {
    var init, c := cmds[..|cmds| - 1], cmds[|cmds| - 1];
    if i < |init| {
      assert init[..i] == cmds[..i] && init[i] == cmds[i];
      assert forall j :: 0 <= j < |init| ==> init[j] == cmds[j];
      PlainRunLastCopy(t0, init, i, src, dst);
      PlainApplyKeeps(PlainRun(t0, init), c, dst);
    }
  }
}
