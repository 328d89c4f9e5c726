/** What a rollback may touch, on any disk: the user may have changed anything in between. */
module RollbackFrame {
  import opened Wrappers
  import opened Paths
  import opened FileTree
  import opened Journal
  import opened CrashSafety
  import opened Recovery

  /** No entry copied to, or saved at, `p` or something above it. */
  ghost predicate Clear(ops: seq<CompletedOp>, p: Path) {
    forall i :: 0 <= i < |ops| ==> ClearOf(ops[i], p)
  }

  predicate ClearOf(op: CompletedOp, p: Path) {
    op.FileCopied? ==>
      !(op.destination <= p) && (op.backup.Some? ==> !(op.backup.value <= p))
  }

  /** No entry copied to `p`, or saved at `p` or something above it. */
  ghost predicate Spared(ops: seq<CompletedOp>, p: Path) {
    forall i :: 0 <= i < |ops| ==> SparedBy(ops[i], p)
  }

  predicate SparedBy(op: CompletedOp, p: Path) {
    op.FileCopied? ==>
      op.destination != p && (op.backup.Some? ==> !(op.backup.value <= p))
  }

  /** Of the nodes that satisfy `Clear`, files stay as they are, nothing is new, and only
      journalled directories may go. */
  ghost predicate Framed(t: Tree, t': Tree, ops: seq<CompletedOp>) {
    forall p :: Clear(ops, p) ==>
      && (p in t' ==> p in t && t'[p] == t[p])
      && (p in t && p !in t' ==> IsDir(t, p) && IsJournalled(ops, p))
  }

  /** Spared nodes stay as they are, except journalled directories. */
  ghost predicate KeepsSpared(t: Tree, t': Tree, ops: seq<CompletedOp>) {
    forall p :: p in t && Spared(ops, p) && !(IsDir(t, p) && IsJournalled(ops, p)) ==>
      p in t' && t'[p] == t[p]
  }

  lemma UndoFrame(plan: Plan, d: Disk, op: CompletedOp, p: Path)
    requires ClearOf(op, p)
    ensures var t' := UndoOp(plan, d, op).disk.now;
      && (p in t' ==> p in d.now && t'[p] == d.now[p])
      && (p in d.now && p !in t' ==> IsEmptyDir(d.now, p) && Makes(op, p))
  {
    if op.FileCopied? {
      var r := RemoveInstalled(plan, d, op.destination);
      assert p in r.disk.now <==> p in d.now;
      assert p in d.now ==> r.disk.now[p] == d.now[p];
    }
  }

  /** Rollback, whether it succeeds or not, changes no file that is not at or below a recorded
      destination or backup, creates nothing elsewhere, and removes no directory but journalled ones. */
  lemma {:induction false} RollbackFramed(plan: Plan, d: Disk, ops: seq<CompletedOp>, done: nat)
    ensures Framed(d.now, Unwind(plan, d, ops, done).disk.now, ops)
    decreases |ops|
  {
    if ops != [] {
      var rest, op := ops[..|ops| - 1], ops[|ops| - 1];
      var u := UndoOp(plan, d, op);
      if u.ok {
        RollbackFramed(plan, u.disk, rest, done + 1);
      }
      assert rest + [op] == ops;
      Appended(rest, op);
      var t' := Unwind(plan, d, ops, done).disk.now;
      forall p | Clear(ops, p)
        ensures p in t' ==> p in d.now && t'[p] == d.now[p]
        ensures p in d.now && p !in t' ==> IsDir(d.now, p) && IsJournalled(ops, p)
      {
        assert ClearOf(op, p);
        assert forall i :: 0 <= i < |rest| ==> rest[i] == ops[i];
        assert Clear(rest, p);
        UndoFrame(plan, d, op, p);
      }
    }
  }

  lemma UndoSpares(plan: Plan, d: Disk, op: CompletedOp, p: Path)
    requires WellFormed(d.now) && p in d.now && SparedBy(op, p)
    ensures var t' := UndoOp(plan, d, op).disk.now;
      (p in t' && t'[p] == d.now[p]) || (IsEmptyDir(d.now, p) && Makes(op, p))
  {
    if op.FileCopied? {
      var dst := op.destination;
      var r := RemoveInstalled(plan, d, dst);
      if dst <= p {
        // `p` lies in a directory where the destination was, which cannot be removed
        AncestorIsDir(d.now, p, dst);
      } else if r.ok {
        assert p in r.disk.now && r.disk.now[p] == d.now[p];
      }
    }
  }

  /** What exists is safe in more places: also below a destination.  Rollback, whether it succeeds
      or not, keeps every file that is no destination and not at or below a recorded backup. */
  lemma {:induction false} RollbackSpares(plan: Plan, d: Disk, ops: seq<CompletedOp>, done: nat)
    requires AlwaysWellFormed(d)
    ensures KeepsSpared(d.now, Unwind(plan, d, ops, done).disk.now, ops)
    decreases |ops|
  {
    if ops != [] {
      var rest, op := ops[..|ops| - 1], ops[|ops| - 1];
      var u := UndoOp(plan, d, op);
      UndoKeepsTree(plan, d, op);
      if u.ok {
        RollbackSpares(plan, u.disk, rest, done + 1);
      }
      assert rest + [op] == ops;
      Appended(rest, op);
      assert forall i :: 0 <= i < |rest| ==> rest[i] == ops[i];
      var t' := Unwind(plan, d, ops, done).disk.now;
      forall p | p in d.now && Spared(ops, p) && !(IsDir(d.now, p) && IsJournalled(ops, p))
        ensures p in t' && t'[p] == d.now[p]
      {
        assert SparedBy(op, p) && Spared(rest, p);
        UndoSpares(plan, d, op, p);
      }
    }
  }

  /** A directory that holds something rollback may not remove is still there. */
  lemma OccupiedDirStays(plan: Plan, d: Disk, ops: seq<CompletedOp>, c: Path, p: Path)
    requires AlwaysWellFormed(d) && c in d.now && p < c
    requires Spared(ops, c) && !(IsDir(d.now, c) && IsJournalled(ops, c))
    ensures var t' := Unwind(plan, d, ops, 0).disk.now;
      IsDir(t', p) && c in t' && t'[c] == d.now[c]
  {
    RollbackSpares(plan, d, ops, 0);
    UnwindKeepsTree(plan, d, ops, 0);
    AncestorIsDir(Unwind(plan, d, ops, 0).disk.now, c, p);
  }

  /** The backup's rename takes place. */
  predicate Renames(plan: Plan, d: Disk, dst: Path, b: Path) {
    && (if dst in d.now then
          IsFile(d.now, dst) && plan(|d.past|) == NoFault && plan(|d.past| + 1) == NoFault
        else plan(|d.past|) == NoFault)
    && dst != [] && IsDir(d.now, Parent(dst))
  }

  /** Below a recorded backup, where only a user can have put a directory, undoing an entry moves
      a file along with that directory exactly when nothing but a file is at the destination, the
      destination's own directory is there and not inside the backup, and no primitive fails.
      Otherwise the file stays, unless it is the destination itself. */
  lemma BackupDirMovesExactlyWhen(plan: Plan, d: Disk, dst: Path, b: Path, rest: Path)
    requires WellFormed(d.now) && rest != [] && IsFile(d.now, b + rest)
    ensures var t, t' := d.now, UndoOp(plan, d, FileCopied(dst, Some(b))).disk.now;
      var from, to := b + rest, dst + rest;
      && (from !in t' && to in t' && t'[to] == t[from] <==> Renames(plan, d, dst, b) && !(b <= dst))
      && (!Renames(plan, d, dst, b) || b <= dst ==> dst == from || (from in t' && t'[from] == t[from]))
  {
    var t, from, to := d.now, b + rest, dst + rest;
    var u := UndoOp(plan, d, FileCopied(dst, Some(b)));
    var r := RemoveInstalled(plan, d, dst);
    assert b < from;
    AncestorIsDir(t, from, b);
    if to in t {
      AncestorIsDir(t, to, dst);
    }
    if dst < from {
      AncestorIsDir(t, from, dst);
    }
    assert to[|dst|..] == rest && from[..|b|] == b;
  }

  // ---- A rollback that fails ----

  /** Undoing a journal is undoing its end, then its beginning. */
  lemma {:induction false} UnwindSplit(
      plan: Plan, d: Disk, first: seq<CompletedOp>, last: seq<CompletedOp>, done: nat)
    ensures var mid := Unwind(plan, d, last, done);
      Unwind(plan, d, first + last, done)
      == if mid.result.Ok? then Unwind(plan, mid.disk, first, done + |last|) else mid
    decreases |last|
  {
    var all := first + last;
    if last == [] {
      assert all == first;
    } else {
      var u := UndoOp(plan, d, last[|last| - 1]);
      assert all[|all| - 1] == last[|last| - 1];
      assert all[..|all| - 1] == first + last[..|last| - 1];
      if u.ok {
        UnwindSplit(plan, u.disk, first, last[..|last| - 1], done + 1);
      }
    }
  }

  lemma {:induction false} FailureIndex(plan: Plan, d: Disk, ops: seq<CompletedOp>, done: nat)
    ensures match Unwind(plan, d, ops, done).result
      case Ok => true
      case Err(e) => e.RollbackFailed? && done <= e.index < done + |ops|
    decreases |ops|
  {
    if ops != [] {
      var u := UndoOp(plan, d, ops[|ops| - 1]);
      if u.ok {
        FailureIndex(plan, u.disk, ops[..|ops| - 1], done + 1);
      }
    }
  }
}
