/** What the calls do on any disk and under any faults, in terms of the tree and the plan alone. */
module CallEffects {
  import opened Wrappers
  import opened Paths
  import opened FileTree
  import opened Journal
  import opened RollbackFrame

  // ---- Undoing one copied file ----

  /** What was installed is there, and is a directory by now or is not removed for a fault. */
  predicate Unremovable(plan: Plan, d: Disk, dst: Path) {
    dst in d.now && (IsDir(d.now, dst) || plan(|d.past|) != NoFault)
  }

  /** How many primitives it takes to remove what was installed. */
  function Removals(d: Disk, dst: Path): nat {
    if dst in d.now then 1 else 0
  }

  /** With the installed file gone, its backup is there and cannot be renamed. */
  predicate Unreturnable(plan: Plan, d: Disk, dst: Path, b: Path) {
    && b in d.now - {dst}
    && (|| plan(|d.past| + Removals(d, dst)) != NoFault
        || dst == [] || !IsDir(d.now - {dst}, Parent(dst))
        || (IsDir(d.now, b) && b <= dst))
  }

  predicate Stuck(plan: Plan, d: Disk, dst: Path, backup: Option<Path>) {
    Unremovable(plan, d, dst) || (backup.Some? && Unreturnable(plan, d, dst, backup.value))
  }

  /** The tree with the installed file gone and the backup, if there is one, in its place. */
  function Returned(t: Tree, dst: Path, backup: Option<Path>): Tree {
    var gone := t - {dst};
    if backup.None? || backup.value !in gone then gone
    else if gone[backup.value].File? then (gone - {backup.value})[dst := gone[backup.value]]
    else MoveDir(gone, backup.value, dst)
  }

  lemma CopyUnwound(plan: Plan, d: Disk, dst: Path, backup: Option<Path>, done: nat)
    ensures var u := Unwind(plan, d, [FileCopied(dst, backup)], done);
      && u.result == (if Stuck(plan, d, dst, backup) then Err(RollbackFailed(done)) else Ok)
      && u.disk.now == (if Unremovable(plan, d, dst) then d.now
                        else if Stuck(plan, d, dst, backup) then d.now - {dst}
                        else Returned(d.now, dst, backup))
      && |u.disk.past| == |d.past| + Removals(d, dst)
                          + if !Unremovable(plan, d, dst) && backup.Some? && backup.value in d.now - {dst}
                            then 1 else 0
  {
    var op := FileCopied(dst, backup);
    assert [op][..0] == [];
    assert dst !in d.now ==> d.now - {dst} == d.now;
  }

  lemma OtherUnwound(plan: Plan, d: Disk, op: CompletedOp, done: nat)
    requires !op.FileCopied?
    ensures var u := Unwind(plan, d, [op], done);
      && u.result == Ok
      && u.disk.now == (if op.DirectoryCreated? && op.path != [] && IsEmptyDir(d.now, op.path)
                           && plan(|d.past|) == NoFault then d.now - {op.path} else d.now)
      && |u.disk.past| == |d.past| + if op.DirectoryCreated? && op.path in d.now then 1 else 0
  {
    assert [op][..0] == [];
  }

  /** A rollback of one copied file: what it reports, the exact tree in each case, and the number of
      primitives it took. */
  lemma CopyUndoneExactly(plan: Plan, d: Disk, dst: Path, backup: Option<Path>)
    ensures var r := Rollback(plan, World(d, [FileCopied(dst, backup)], Active));
      && r.world.state == RolledBack && r.world.ops == [FileCopied(dst, backup)]
      && r.result == (if Stuck(plan, d, dst, backup) then Err(RollbackFailed(0)) else Ok)
      && r.world.disk.now == (if Unremovable(plan, d, dst) then d.now
                              else if Stuck(plan, d, dst, backup) then d.now - {dst}
                              else Returned(d.now, dst, backup))
      && |r.world.disk.past| == |d.past| + Removals(d, dst)
           + if !Unremovable(plan, d, dst) && backup.Some? && backup.value in d.now - {dst} then 1 else 0
  {
    CopyUnwound(plan, d, dst, backup, 0);
  }

  /** A rollback of one other entry: a directory goes if it is empty and nothing fails, and is never an
      error; for a service nothing happens. */
  lemma OtherUndoneExactly(plan: Plan, d: Disk, op: CompletedOp)
    requires !op.FileCopied?
    ensures var r := Rollback(plan, World(d, [op], Active));
      && r.world.state == RolledBack && r.world.ops == [op] && r.result == Ok
      && r.world.disk.now == (if op.DirectoryCreated? && op.path != [] && IsEmptyDir(d.now, op.path)
                                 && plan(|d.past|) == NoFault then d.now - {op.path} else d.now)
      && |r.world.disk.past| == |d.past| + if op.DirectoryCreated? && op.path in d.now then 1 else 0
  {
    OtherUnwound(plan, d, op, 0);
  }

  // ---- Undoing many entries ----

  lemma {:induction false} UnwindShift(plan: Plan, d: Disk, ops: seq<CompletedOp>, done: nat, done': nat)
    ensures Unwind(plan, d, ops, done).disk == Unwind(plan, d, ops, done').disk
    ensures Unwind(plan, d, ops, done).result == Ok <==> Unwind(plan, d, ops, done').result == Ok
    decreases |ops|
  {
    if ops != [] {
      UnwindShift(plan, UndoOp(plan, d, ops[|ops| - 1]).disk, ops[..|ops| - 1], done + 1, done' + 1);
    }
  }

  /** A rollback undoes the end of the journal, and what is before it only if that went well. */
  lemma RollbackInTwo(plan: Plan, d: Disk, first: seq<CompletedOp>, last: seq<CompletedOp>)
    ensures
      var all := Rollback(plan, World(d, first + last, Active));
      var end := Rollback(plan, World(d, last, Active));
      if end.result == Ok then
        var rest := Rollback(plan, World(end.world.disk, first, Active));
        all.world.disk == rest.world.disk && (all.result == Ok <==> rest.result == Ok)
      else all.world.disk == end.world.disk && all.result == end.result
  {
    UnwindSplit(plan, d, first, last, 0);
    UnwindShift(plan, Unwind(plan, d, last, 0).disk, first, |last|, 0);
  }

  /** A rollback reports index `i` exactly when the last `i` entries can be undone, and of the one
      before them, a copied file, the installed file cannot be removed or its backup not be
      returned.  In the first case that entry changes nothing, in the second its file is gone; and
      nothing is changed that the last `i + 1` entries do not allow. */
  lemma RollbackReportsExactlyWhen(plan: Plan, d: Disk, ops: seq<CompletedOp>, i: nat)
    requires i < |ops|
    ensures var op, end := ops[|ops| - 1 - i], Rollback(plan, World(d, ops[|ops| - i..], Active));
      var all, mid := Rollback(plan, World(d, ops, Active)), end.world.disk;
      && (all.result == Err(RollbackFailed(i)) <==>
            end.result == Ok && op.FileCopied? && Stuck(plan, mid, op.destination, op.backup))
      && (all.result == Err(RollbackFailed(i)) ==>
            && all.world.disk.now == (if Unremovable(plan, mid, op.destination) then mid.now
                                      else mid.now - {op.destination})
            && Framed(d.now, all.world.disk.now, ops[|ops| - 1 - i..]))
  {
    var n := |ops| - 1 - i;
    var first, op, last := ops[..n], ops[n], ops[n + 1..];
    var mid := Unwind(plan, d, last, 0);
    assert ops == (first + [op]) + last;
    UnwindSplit(plan, d, first + [op], last, 0);
    FailureIndex(plan, d, last, 0);
    if mid.result.Ok? {
      var one := Unwind(plan, mid.disk, [op], i);
      UnwindSplit(plan, mid.disk, first, [op], i);
      if op.FileCopied? {
        CopyUnwound(plan, mid.disk, op.destination, op.backup, i);
      } else {
        OtherUnwound(plan, mid.disk, op, i);
      }
      if one.result.Ok? {
        FailureIndex(plan, one.disk, first, i + 1);
      } else {
        assert ops[n..] == [op] + last;
        UnwindSplit(plan, d, [op], last, 0);
        RollbackFramed(plan, d, ops[n..], 0);
      }
    }
  }

  /** If it reports no index, everything is undone. */
  lemma RollbackReportsAnIndex(plan: Plan, d: Disk, ops: seq<CompletedOp>)
    ensures match Rollback(plan, World(d, ops, Active)).result
      case Ok => true
      case Err(e) => e.RollbackFailed? && e.index < |ops|
  {
    FailureIndex(plan, d, ops, 0);
  }

  // ---- Installing one file ----

  /** The directory of `dst` is not there yet. */
  predicate Orphaned(t: Tree, dst: Path) {
    dst != [] && Parent(dst) !in t
  }

  /** One primitive to make directories or to save what is there, if need be, and one to copy. */
  function Primitives(t: Tree, dst: Path): nat {
    if Orphaned(t, dst) || dst in t then 2 else 1
  }

  ghost predicate Installable(t: Tree, src: Path, dst: Path) {
    && dst != [] && !IsDir(t, dst) && (forall q :: q < dst ==> !IsFile(t, q))
    && (dst in t ==> !IsDir(t, Backup(dst)))
    && (IsFile(t, src) || (dst in t && src == Backup(dst)))
  }

  /** The bytes that arrive at `dst`: copying a file onto itself empties it. */
  ghost function Arriving(t: Tree, src: Path, dst: Path): Bytes
    requires Installable(t, src, dst)
  {
    if src == dst then []
    else if dst in t && src == Backup(dst) then t[dst].data
    else t[src].data
  }

  /** The tree with the directory of `dst` made, what was there saved, and the file copied. */
  ghost function AfterInstall(t: Tree, src: Path, dst: Path): Tree
    requires Installable(t, src, dst)
  {
    var made := if Orphaned(t, dst) then WithDirs(t, Parent(dst)) else t;
    var saved := if dst !in t then made
                 else made[Backup(dst) := if Backup(dst) == dst then File([]) else t[dst]];
    saved[dst := File(Arriving(t, src, dst))]
  }

  lemma CopiesExactlyWhen(plan: Plan, w: World, src: Path, dst: Path)
    requires WellFormed(w.disk.now) && !Orphaned(w.disk.now, dst)
    ensures var t, n, r := w.disk.now, |w.disk.past|, CopyWithBackup(plan, w, src, dst);
      && r.result == (if Installable(t, src, dst) && plan(n) == NoFault
                         && (dst in t ==> plan(n + 1) == NoFault) then Ok else Err(Io))
      && (r.result == Ok ==>
            && r.world.disk.now == AfterInstall(t, src, dst) && |r.world.disk.past| == n + Primitives(t, dst)
            && r.world.ops == w.ops + [FileCopied(dst, if dst in t then Some(Backup(dst)) else None)]
            && r.world.state == w.state)
  {
    if dst != [] {
      NoFileAbove(w.disk.now, dst);
    }
  }

  /** A directory has no file above it. */
  lemma NoFileAbove(t: Tree, dst: Path)
    requires WellFormed(t) && dst != [] && Parent(dst) in t
    ensures (forall q :: q < dst ==> !IsFile(t, q)) <==> IsDir(t, Parent(dst))
  {
    assert Parent(dst) < dst && (IsFile(t, Parent(dst)) || IsDir(t, Parent(dst)));
    forall q | IsFile(t, q) && q < dst
      ensures q == Parent(dst)
    {
      AboveParent(dst, q);
      if q != Parent(dst) {
        AncestorIsDir(t, Parent(dst), q);
      }
    }
  }

  lemma AboveParent(dst: Path, q: Path)
    requires dst != []
    ensures q < dst <==> q <= Parent(dst)
  {
  }

  lemma MakesExactlyWhen(plan: Plan, w: World, p: Path)
    requires p !in w.disk.now && w.state == Active
    ensures var t, n, r := w.disk.now, |w.disk.past|, CreateDirectory(plan, w, p);
      && r.result == (if (forall q :: q <= p ==> !IsFile(t, q)) && plan(n) == NoFault then Ok else Err(Io))
      && (r.result == Ok ==>
            && r.world.disk.now == WithDirs(t, p) && |r.world.disk.past| == n + 1
            && r.world.ops == w.ops + [DirectoryCreated(p)] && r.world.state == Active)
  {
    var t := w.disk.now;
    assert (exists i :: 0 <= i <= |p| && IsFile(t, p[..i])) <==> exists q :: q <= p && IsFile(t, q) by {
      assert forall q :: q <= p ==> q == p[..|q|];
      assert forall i :: 0 <= i <= |p| ==> p[..i] <= p;
    }
  }

  /** A directory is made, with those above it, and recorded if it was not there; it fails exactly on a
      file in the way or a fault, and then records nothing. */
  lemma CreatesExactlyWhen(plan: Plan, w: World, p: Path)
    requires w.state == Active
    ensures var t, n, r := w.disk.now, |w.disk.past|, CreateDirectory(plan, w, p);
      && r.result == (if p in t || ((forall q :: q <= p ==> !IsFile(t, q)) && plan(n) == NoFault) then Ok
                      else Err(Io))
      && (p in t ==> r.world == w)
      && (p !in t && r.result == Ok ==>
            && r.world.disk.now == WithDirs(t, p) && r.world.ops == w.ops + [DirectoryCreated(p)])
      && (r.result != Ok ==> r.world.ops == w.ops)
  {
    if p !in w.disk.now {
      MakesExactlyWhen(plan, w, p);
    }
  }

  lemma InstallableBelow(t: Tree, src: Path, dst: Path)
    requires WellFormed(t) && Orphaned(t, dst) && forall q :: q <= Parent(dst) ==> !IsFile(t, q)
    ensures var made := WithDirs(t, Parent(dst));
      && dst !in t && dst !in made && (Installable(t, src, dst) <==> Installable(made, src, dst))
      && (Installable(t, src, dst) ==> Arriving(t, src, dst) == Arriving(made, src, dst))
  {
    var made := WithDirs(t, Parent(dst));
    assert dst !in t;
    assert !(dst <= Parent(dst));
    forall q
      ensures IsFile(t, q) <==> IsFile(made, q)
      ensures q < dst ==> !IsFile(t, q)
    {
      AboveParent(dst, q);
    }
  }

  /** A file is installed exactly when it can be and no primitive fails; then the tree, the journal and
      the number of primitives are these. */
  lemma InstallsExactlyWhen(plan: Plan, w: World, src: Path, dst: Path)
    requires w.state == Active && WellFormed(w.disk.now)
    ensures var t, n, r := w.disk.now, |w.disk.past|, InstallFile(plan, w, src, dst);
      && r.result == (if Installable(t, src, dst) && plan(n) == NoFault
                         && (Primitives(t, dst) == 2 ==> plan(n + 1) == NoFault) then Ok else Err(Io))
      && (r.result == Ok ==>
            && r.world.disk.now == AfterInstall(t, src, dst) && |r.world.disk.past| == n + Primitives(t, dst)
            && r.world.ops == w.ops
                 + (if Orphaned(t, dst) then [DirectoryCreated(Parent(dst))] else [])
                 + [FileCopied(dst, if dst in t then Some(Backup(dst)) else None)]
            && r.world.state == Active)
  {
    var t := w.disk.now;
    if Orphaned(t, dst) {
      var made := CreateDirectory(plan, w, Parent(dst));
      MakesExactlyWhen(plan, w, Parent(dst));
      if made.result.Ok? {
        CreateDirAllKeepsTree(t, Parent(dst), plan(|w.disk.past|));
        InstallableBelow(t, src, dst);
        CopiesExactlyWhen(plan, made.world, src, dst);
      } else {
        forall q | IsFile(t, q)
          ensures q <= Parent(dst) <==> q < dst
        {
          AboveParent(dst, q);
        }
      }
    } else {
      CopiesExactlyWhen(plan, w, src, dst);
    }
  }

  // ---- Committing ----

  /** A commit always succeeds; each recorded backup goes if it is a file and its own removal does not
      fail, whatever became of the others. */
  lemma CommitDropsEach(plan: Plan, d: Disk, ops: seq<CompletedOp>, op: CompletedOp)
    ensures
      var before := Commit(plan, World(d, ops, Active));
      var after := Commit(plan, World(d, ops + [op], Active));
      var t, n := before.world.disk.now, |before.world.disk.past|;
      && after.result == Ok && after.world.state == Committed && after.world.ops == ops + [op]
      && if op.FileCopied? && op.backup.Some? then
           && |after.world.disk.past| == n + 1
           && after.world.disk.now == if IsFile(t, op.backup.value) && plan(n) == NoFault
                                      then t - {op.backup.value} else t
         else after.world.disk == before.world.disk
  {
    assert (ops + [op])[..|ops|] == ops;
  }
}
