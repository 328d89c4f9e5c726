/** What a rollback gives back, exactly. */
module Recovery {
  import opened Wrappers
  import opened Paths
  import opened FileTree
  import opened Journal
  import opened CrashSafety

  predicate CopiesTo(op: CompletedOp, p: Path) {
    op.FileCopied? && op.destination == p
  }

  predicate SavesAt(op: CompletedOp, b: Path) {
    op.FileCopied? && op.backup == Some(b)
  }

  predicate Makes(op: CompletedOp, p: Path) {
    op == DirectoryCreated(p)
  }

  ghost predicate IsDestination(ops: seq<CompletedOp>, p: Path) {
    exists i :: 0 <= i < |ops| && CopiesTo(ops[i], p)
  }

  ghost predicate IsBackup(ops: seq<CompletedOp>, b: Path) {
    exists i :: 0 <= i < |ops| && SavesAt(ops[i], b)
  }

  ghost predicate IsJournalled(ops: seq<CompletedOp>, p: Path) {
    exists i :: 0 <= i < |ops| && Makes(ops[i], p)
  }

  /** Entry `i` is the only one that copies to `p`, and the last one that saves at its backup. */
  ghost predicate KeptBy(ops: seq<CompletedOp>, p: Path, i: nat) {
    && i < |ops| && CopiesTo(ops[i], p)
    && (forall j :: 0 <= j < |ops| && CopiesTo(ops[j], p) ==> j == i)
    && (forall j :: i < j < |ops| ==> !SavesAt(ops[j], Backup(p)))
  }

  ghost predicate Kept(ops: seq<CompletedOp>, p: Path) {
    exists i :: KeptBy(ops, p, i)
  }

  /** An original file that the journal cannot give back: its path served as a backup, or it was
      overwritten and then overwritten again, or its backup was. */
  ghost predicate Lost(t0: Tree, ops: seq<CompletedOp>, p: Path) {
    IsFile(t0, p) && (IsBackup(ops, p) || (IsDestination(ops, p) && !Kept(ops, p)))
  }

  /** Directories made on the way to a journalled one (or to a failure), of which no entry tells. */
  ghost function Unjournalled(t0: Tree, t: Tree, ops: seq<CompletedOp>): (u: set<Path>)
    ensures forall p :: p in u <==> IsDir(t, p) && p !in t0 && !IsJournalled(ops, p)
  {
    set p | p in t && IsDir(t, p) && p !in t0 && !IsJournalled(ops, p)
  }

  lemma Appended(ops: seq<CompletedOp>, op: CompletedOp)
    ensures forall p :: IsDestination(ops + [op], p) <==> IsDestination(ops, p) || CopiesTo(op, p)
    ensures forall p :: IsBackup(ops + [op], p) <==> IsBackup(ops, p) || SavesAt(op, p)
    ensures forall p :: IsJournalled(ops + [op], p) <==> IsJournalled(ops, p) || Makes(op, p)
    ensures forall p :: Kept(ops + [op], p) ==>
      if CopiesTo(op, p) then !IsDestination(ops, p)
      else Kept(ops, p) && !SavesAt(op, Backup(p))
  {
    var all := ops + [op];
    assert all[|ops|] == op && forall i :: 0 <= i < |ops| ==> all[i] == ops[i];
    forall p | Kept(all, p)
      ensures if CopiesTo(op, p) then !IsDestination(ops, p)
              else Kept(ops, p) && !SavesAt(op, Backup(p))
    {
      var i: nat :| KeptBy(all, p, i);
      if !CopiesTo(op, p) {
        assert KeptBy(ops, p, i);
        assert !SavesAt(all[|ops|], Backup(p));
      } else {
        assert i == |ops|;
      }
    }
  }

  // ---- What installation keeps ----

  /** How entry `i` came about. */
  ghost predicate Logged(t0: Tree, ops: seq<CompletedOp>, i: nat)
    requires i < |ops|
  {
    match ops[i]
    case FileCopied(d, backup) =>
      && d != [] && !IsDir(t0, d)
      && (backup.Some? ==> backup.value == Backup(d))
      && (d in t0 ==> backup.Some?)
      && (backup.None? ==> forall j :: 0 <= j < i ==> !SavesAt(ops[j], d))
      && (backup.Some? && d !in t0 ==> d == Backup(d) || exists j :: 0 <= j < i && CopiesTo(ops[j], d))
    case DirectoryCreated(p) =>
      && p !in t0
      && forall j :: 0 <= j < i ==>
           (ops[j].DirectoryCreated? ==> !(p <= ops[j].path))
           && (ops[j].FileCopied? ==> !(p <= ops[j].destination))
    case ServiceRegistered(_) => true
  }

  ghost predicate WellLogged(t0: Tree, ops: seq<CompletedOp>) {
    forall i :: 0 <= i < |ops| ==> Logged(t0, ops, i)
  }

  /** Every entry's node is on the disk. */
  ghost predicate Present(t: Tree, ops: seq<CompletedOp>) {
    && (forall p :: IsDestination(ops, p) || IsBackup(ops, p) ==> IsFile(t, p))
    && (forall p :: IsJournalled(ops, p) ==> IsDir(t, p))
  }

  ghost predicate OriginalsKept(t0: Tree, t: Tree, ops: seq<CompletedOp>) {
    && (forall p :: IsDir(t0, p) ==> IsDir(t, p))
    && (forall p :: IsFile(t0, p) && !IsDestination(ops, p) && !IsBackup(ops, p) ==> Same(t0, t, p))
    && (forall p :: IsFile(t0, p) && Kept(ops, p) && !IsBackup(ops, p) ==> Saved(t0, t, p))
  }

  ghost predicate NewFilesLogged(t0: Tree, t: Tree, ops: seq<CompletedOp>) {
    forall p :: IsFile(t, p) && p !in t0 ==> IsDestination(ops, p) || IsBackup(ops, p)
  }

  ghost predicate Installed(t0: Tree, t: Tree, ops: seq<CompletedOp>) {
    && WellFormed(t0) && WellFormed(t)
    && WellLogged(t0, ops) && Present(t, ops)
    && OriginalsKept(t0, t, ops) && NewFilesLogged(t0, t, ops)
  }

  lemma LoggedPrefix(t0: Tree, ops: seq<CompletedOp>, op: CompletedOp)
    requires WellLogged(t0, ops) && Logged(t0, ops + [op], |ops|)
    ensures WellLogged(t0, ops + [op])
  {
    var all := ops + [op];
    forall i | 0 <= i < |all|
      ensures Logged(t0, all, i)
    {
      if i < |ops| {
        assert Logged(t0, ops, i) && all[i] == ops[i];
        assert forall j :: 0 <= j < i ==> all[j] == ops[j];
        if (all[i].FileCopied? && all[i].backup.Some? && all[i].destination !in t0
            && all[i].destination != Backup(all[i].destination)) {
          var j :| 0 <= j < i && CopiesTo(ops[j], ops[i].destination);
          assert CopiesTo(all[j], all[i].destination);
        }
      }
    }
  }

  /** Some of the directories on the way to `p` are made. */
  lemma DirsInstalled(t0: Tree, t: Tree, ops: seq<CompletedOp>, p: Path, f: Fault)
    requires Installed(t0, t, ops)
    ensures Installed(t0, CreateDirAll(t, p, f).tree, ops)
  {
    CreateDirAllKeepsTree(t, p, f);
  }

  lemma OriginalsPresent(t0: Tree, t: Tree, ops: seq<CompletedOp>)
    requires Installed(t0, t, ops)
    ensures forall p :: p in t0 ==> p in t
  {
    forall p | p in t0
      ensures p in t
    {
      assert IsDir(t0, p) || IsFile(t0, p);
    }
  }

  lemma NotAbove(t: Tree, p: Path, q: Path)
    requires WellFormed(t) && p !in t && q in t
    ensures !(p <= q)
  {
    assert p <= q ==> p == q || p < q;
    if p < q {
      AncestorIsDir(t, q, p);
    }
  }

  lemma DirInstalled(t0: Tree, t: Tree, ops: seq<CompletedOp>, p: Path, f: Fault)
    requires Installed(t0, t, ops) && p !in t && CreateDirAll(t, p, f).ok
    ensures Installed(t0, CreateDirAll(t, p, f).tree, ops + [DirectoryCreated(p)])
  {
    var op := DirectoryCreated(p);
    DirsInstalled(t0, t, ops, p, f);
    OriginalsPresent(t0, t, ops);
    Appended(ops, op);
    forall j | 0 <= j < |ops|
      ensures ops[j].DirectoryCreated? ==> !(p <= ops[j].path)
      ensures ops[j].FileCopied? ==> !(p <= ops[j].destination)
    {
      if ops[j].DirectoryCreated? {
        assert Makes(ops[j], ops[j].path) && IsJournalled(ops, ops[j].path);
        NotAbove(t, p, ops[j].path);
      }
      if ops[j].FileCopied? {
        assert CopiesTo(ops[j], ops[j].destination) && IsDestination(ops, ops[j].destination);
        NotAbove(t, p, ops[j].destination);
      }
    }
    LoggedPrefix(t0, ops, op);
  }

  /** A new file is copied in. */
  lemma NewFileInstalled(t0: Tree, t: Tree, ops: seq<CompletedOp>, src: Path, dst: Path, f: Fault)
    requires Installed(t0, t, ops) && dst !in t && Copy(t, src, dst, f).ok
    ensures Installed(t0, Copy(t, src, dst, f).tree, ops + [FileCopied(dst, None)])
  {
    var op, t' := FileCopied(dst, None), Copy(t, src, dst, f).tree;
    OriginalsPresent(t0, t, ops);
    CopyKeepsTree(t, src, dst, f);
    Appended(ops, op);
    assert !IsBackup(ops, dst);
    assert Logged(t0, ops + [op], |ops|) by {
      assert forall j :: 0 <= j < |ops| ==> (ops + [op])[j] == ops[j];
    }
    LoggedPrefix(t0, ops, op);
    forall p | IsFile(t0, p) && Kept(ops + [op], p) && !IsBackup(ops, p)
      ensures Saved(t0, t', p)
    {
      assert Kept(ops, p);
    }
  }

  /** A file is saved and overwritten. */
  lemma OverwriteInstalled(t0: Tree, t: Tree, ops: seq<CompletedOp>, src: Path, dst: Path,
                           f: Fault, g: Fault)
    requires Installed(t0, t, ops) && dst in t
    requires var o := Copy(t, dst, Backup(dst), f); o.ok && Copy(o.tree, src, dst, g).ok
    ensures Installed(t0, Copy(Copy(t, dst, Backup(dst), f).tree, src, dst, g).tree,
                      ops + [FileCopied(dst, Some(Backup(dst)))])
  {
    var op, b := FileCopied(dst, Some(Backup(dst))), Backup(dst);
    var t1 := Copy(t, dst, b, f).tree;
    var t' := Copy(t1, src, dst, g).tree;
    Appended(ops, op);
    assert SavesAt(op, b) && CopiesTo(op, dst);
    BackupOfBackup(dst);
    assert t' == t[b := t[dst]][dst := t'[dst]];
    OverwriteLogged(t0, t, ops, dst);
    OverwriteKeeps(t0, t, ops, dst, t'[dst]);
    assert WellFormed(t') by {
      CopyKeepsTree(t, dst, b, f);
      CopyKeepsTree(t1, src, dst, g);
    }
  }

  lemma OverwriteLogged(t0: Tree, t: Tree, ops: seq<CompletedOp>, dst: Path)
    requires Installed(t0, t, ops) && IsFile(t, dst)
    ensures WellLogged(t0, ops + [FileCopied(dst, Some(Backup(dst)))])
  {
    var op := FileCopied(dst, Some(Backup(dst)));
    assert Logged(t0, ops + [op], |ops|) by {
      if IsDestination(ops, dst) {
        var j :| 0 <= j < |ops| && CopiesTo(ops[j], dst);
        assert (ops + [op])[j] == ops[j];
      } else if dst !in t0 {
        var j :| 0 <= j < |ops| && SavesAt(ops[j], dst);
        assert Logged(t0, ops, j);
        BackupOfBackup(ops[j].destination);
      }
    }
    LoggedPrefix(t0, ops, op);
  }

  lemma OverwriteKeeps(t0: Tree, t: Tree, ops: seq<CompletedOp>, dst: Path, n: Node)
    requires Installed(t0, t, ops) && IsFile(t, dst) && n.File?
    requires !IsDir(t, Backup(dst))
    ensures var t' := t[Backup(dst) := t[dst]][dst := n];
      var ops' := ops + [FileCopied(dst, Some(Backup(dst)))];
      Present(t', ops') && OriginalsKept(t0, t', ops') && NewFilesLogged(t0, t', ops')
  {
    var b := Backup(dst);
    var t', ops' := t[b := t[dst]][dst := n], ops + [FileCopied(dst, Some(b))];
    Appended(ops, FileCopied(dst, Some(b)));
    forall p | IsFile(t0, p) && Kept(ops', p) && !IsBackup(ops', p)
      ensures Saved(t0, t', p)
    {
      if p == dst {
        assert Same(t0, t, dst);
      } else {
        assert Kept(ops, p) && Saved(t0, t, p);
        assert Backup(p) != b;
        BackupOfBackup(p);
        var i: nat :| KeptBy(ops, p, i);
        assert Logged(t0, ops, i) && SavesAt(ops[i], Backup(p));
      }
    }
  }

  // ---- What unwinding keeps ----

  /** What a complete journal says about itself and the initial tree. */
  ghost predicate SoundJournal(t0: Tree, ops: seq<CompletedOp>) {
    && WellFormed(t0) && WellLogged(t0, ops)
    && forall p :: IsJournalled(ops, p) ==> !IsDestination(ops, p) && !IsBackup(ops, p)
  }

  /** The original files once the entries from `k` on are undone. */
  ghost predicate OriginalsPartly(t0: Tree, t: Tree, ops: seq<CompletedOp>, k: nat) {
    && (forall p :: IsDir(t0, p) ==> IsDir(t, p))
    && (forall p :: IsFile(t0, p) && !IsDestination(ops, p) && !IsBackup(ops, p) ==> Same(t0, t, p))
    && (forall p, i: nat {:trigger KeptBy(ops, p, i)} ::
          IsFile(t0, p) && KeptBy(ops, p, i) && !IsBackup(ops, p) ==>
            if i < k then Saved(t0, t, p) else Same(t0, t, p))
    && (forall p, i {:trigger SavedAgain(ops, p, i)} | k <= i < |ops| && SavedAgain(ops, p, i) ::
          p in t0 && CopiesTo(ops[i], p) ==> p !in t)
  }

  /** A later entry than `i` saved something else at the backup of `p`. */
  ghost predicate SavedAgain(ops: seq<CompletedOp>, p: Path, i: int) {
    exists j :: i < j < |ops| && 0 <= j && SavesAt(ops[j], Backup(p))
  }

  ghost predicate NewFilesPartly(t0: Tree, t: Tree, ops: seq<CompletedOp>, k: nat) {
    && (forall p :: IsDestination(ops, p) || IsBackup(ops, p) ==> !IsDir(t, p))
    && (forall p :: IsFile(t, p) && p !in t0 ==> IsDestination(ops, p) || IsBackup(ops, p))
    && (forall b, i {:trigger SavesAt(ops[i], b)} :: k <= i < |ops| && SavesAt(ops[i], b) ==> b !in t)
    && (forall d :: d in t && d !in t0 && IsDestination(ops, d) ==> CopiedBefore(ops, d, k))
  }

  ghost predicate CopiedBefore(ops: seq<CompletedOp>, d: Path, k: int) {
    exists i :: 0 <= i < k && i < |ops| && CopiesTo(ops[i], d)
  }

  ghost predicate MadeBefore(ops: seq<CompletedOp>, p: Path, k: int) {
    exists i :: 0 <= i < k && i < |ops| && Makes(ops[i], p)
  }

  ghost predicate AboveSome(p: Path, left: set<Path>) {
    exists u :: u in left && p <= u
  }

  ghost predicate DirsPartly(t0: Tree, t: Tree, ops: seq<CompletedOp>, k: nat, left: set<Path>) {
    && (forall u :: u in left ==> IsDir(t, u) && u !in t0 && !IsJournalled(ops, u))
    && (forall p :: IsDir(t, p) && p !in t0 ==> MadeBefore(ops, p, k) || AboveSome(p, left))
  }

  ghost predicate Partly(t0: Tree, t: Tree, ops: seq<CompletedOp>, k: nat, left: set<Path>) {
    && WellFormed(t)
    && OriginalsPartly(t0, t, ops, k) && NewFilesPartly(t0, t, ops, k)
    && DirsPartly(t0, t, ops, k, left)
  }

  lemma InstalledIsPartly(t0: Tree, t: Tree, ops: seq<CompletedOp>)
    requires Installed(t0, t, ops)
    ensures SoundJournal(t0, ops)
    ensures Partly(t0, t, ops, |ops|, Unjournalled(t0, t, ops))
  {
    forall p, i: nat | IsFile(t0, p) && KeptBy(ops, p, i) && !IsBackup(ops, p)
      ensures i < |ops| && Saved(t0, t, p)
    {
      assert Kept(ops, p);
    }
    forall d | d in t && d !in t0 && IsDestination(ops, d)
      ensures CopiedBefore(ops, d, |ops|)
    {
      var i :| 0 <= i < |ops| && CopiesTo(ops[i], d);
    }
    var left := Unjournalled(t0, t, ops);
    forall p | IsDir(t, p) && p !in t0
      ensures MadeBefore(ops, p, |ops|) || AboveSome(p, left)
    {
      if IsJournalled(ops, p) {
        var i :| 0 <= i < |ops| && Makes(ops[i], p);
      } else {
        assert p in left && p <= p;
      }
    }
  }

  // ---- Undoing one entry ----

  ghost predicate FaultFree(plan: Plan, from: nat) {
    forall c: nat :: from <= c ==> plan(c) == NoFault
  }

  /** The tree after a fault-free removal of `dst` and return of its backup, if it has one other
      than itself. */
  function GivenBack(t: Tree, dst: Path, backup: Option<Path>): Tree {
    if backup.Some? && backup.value != dst && backup.value in t then
      (t - {dst, backup.value})[dst := t[backup.value]]
    else t - {dst}
  }

  lemma UndoCopy(plan: Plan, d: Disk, t0: Tree, ops: seq<CompletedOp>, k: nat, left: set<Path>)
    requires 0 < k <= |ops| && ops[k - 1].FileCopied?
    requires SoundJournal(t0, ops) && Partly(t0, d.now, ops, k, left)
    requires FaultFree(plan, |d.past|)
    ensures var u := UndoOp(plan, d, ops[k - 1]);
      u.ok && u.disk.now == GivenBack(d.now, ops[k - 1].destination, ops[k - 1].backup)
      && WellFormed(u.disk.now) && |d.past| <= |u.disk.past|
  {
    var dst, backup := ops[k - 1].destination, ops[k - 1].backup;
    assert CopiesTo(ops[k - 1], dst) && IsDestination(ops, dst) && Logged(t0, ops, k - 1);
    var r := RemoveInstalled(plan, d, dst);
    assert r.ok && r.disk.now == d.now - {dst};
    assert WellFormed(r.disk.now);
    if backup.Some? {
      var b := backup.value;
      assert SavesAt(ops[k - 1], b) && IsBackup(ops, b);
      if b != dst && b in d.now {
        RenameKeepsTree(r.disk.now, b, dst, r.disk.Fault(plan));
        assert Parent(b) == Parent(dst);
      }
    }
  }

  lemma UndoCopyPartly(t0: Tree, t: Tree, ops: seq<CompletedOp>, k: nat, left: set<Path>)
    requires 0 < k <= |ops| && ops[k - 1].FileCopied?
    requires SoundJournal(t0, ops) && Partly(t0, t, ops, k, left)
    requires WellFormed(GivenBack(t, ops[k - 1].destination, ops[k - 1].backup))
    ensures Partly(t0, GivenBack(t, ops[k - 1].destination, ops[k - 1].backup), ops, k - 1, left)
  {
    var dst, backup := ops[k - 1].destination, ops[k - 1].backup;
    var t' := GivenBack(t, dst, backup);
    assert CopiesTo(ops[k - 1], dst) && IsDestination(ops, dst) && Logged(t0, ops, k - 1);
    assert backup.Some? ==> SavesAt(ops[k - 1], backup.value) && IsBackup(ops, backup.value);
    UndoCopyOriginals(t0, t, ops, k, left);
    UndoCopyNewFiles(t0, t, ops, k, left);
    forall p | IsDir(t', p) && p !in t0
      ensures MadeBefore(ops, p, k - 1) || AboveSome(p, left)
    {
      assert IsDir(t, p);
      if MadeBefore(ops, p, k) {
        var i :| 0 <= i < k && i < |ops| && Makes(ops[i], p);
        assert i != k - 1;
      }
    }
  }

  lemma UndoCopyOriginals(t0: Tree, t: Tree, ops: seq<CompletedOp>, k: nat, left: set<Path>)
    requires 0 < k <= |ops| && ops[k - 1].FileCopied?
    requires SoundJournal(t0, ops) && Partly(t0, t, ops, k, left)
    ensures OriginalsPartly(t0, GivenBack(t, ops[k - 1].destination, ops[k - 1].backup), ops, k - 1)
  {
    var dst, backup := ops[k - 1].destination, ops[k - 1].backup;
    var t' := GivenBack(t, dst, backup);
    assert CopiesTo(ops[k - 1], dst) && IsDestination(ops, dst) && Logged(t0, ops, k - 1);
    assert backup.Some? ==> SavesAt(ops[k - 1], backup.value) && IsBackup(ops, backup.value);
    forall p, i: nat | IsFile(t0, p) && KeptBy(ops, p, i) && !IsBackup(ops, p)
      ensures if i < k - 1 then Saved(t0, t', p) else Same(t0, t', p)
    {
      UndoCopyKept(t0, t, ops, k, left, p, i);
    }
    forall p, i | k - 1 <= i < |ops| && SavedAgain(ops, p, i) && p in t0 && CopiesTo(ops[i], p)
      ensures p !in t'
    {
      UndoCopyLost(t0, t, ops, k, left, p, i);
    }
  }

  /** Entries between the one that keeps `p` and the end leave its backup alone. */
  lemma KeptIsSpared(t0: Tree, ops: seq<CompletedOp>, p: Path, i: nat, j: nat)
    requires WellLogged(t0, ops) && IsFile(t0, p) && KeptBy(ops, p, i)
    requires i < j < |ops| && ops[j].FileCopied?
    ensures ops[j].destination != Backup(p) && ops[j].backup != Some(Backup(p))
  {
    assert Logged(t0, ops, i) && SavesAt(ops[i], Backup(p));
    assert Logged(t0, ops, j) && !SavesAt(ops[j], Backup(p));
    BackupOfBackup(p);
  }

  lemma UndoCopyKept(t0: Tree, t: Tree, ops: seq<CompletedOp>, k: nat, left: set<Path>, p: Path, i: nat)
    requires 0 < k <= |ops| && ops[k - 1].FileCopied?
    requires SoundJournal(t0, ops) && Partly(t0, t, ops, k, left)
    requires IsFile(t0, p) && KeptBy(ops, p, i) && !IsBackup(ops, p)
    ensures var t' := GivenBack(t, ops[k - 1].destination, ops[k - 1].backup);
      if i < k - 1 then Saved(t0, t', p) else Same(t0, t', p)
  {
    var op := ops[k - 1];
    assert CopiesTo(op, op.destination);
    assert op.backup.Some? ==> SavesAt(op, op.backup.value);
    if i < k - 1 {
      KeptIsSpared(t0, ops, p, i, k - 1);
    } else if i == k - 1 {
      assert Logged(t0, ops, i) && SavesAt(op, Backup(p)) && IsBackup(ops, Backup(p));
    }
  }

  lemma UndoCopyLost(t0: Tree, t: Tree, ops: seq<CompletedOp>, k: nat, left: set<Path>, p: Path, i: int)
    requires 0 < k <= |ops| && ops[k - 1].FileCopied?
    requires SoundJournal(t0, ops) && Partly(t0, t, ops, k, left)
    requires k - 1 <= i < |ops| && SavedAgain(ops, p, i) && p in t0 && CopiesTo(ops[i], p)
    ensures p !in GivenBack(t, ops[k - 1].destination, ops[k - 1].backup)
  {
    assert Logged(t0, ops, k - 1);
    var j :| i < j < |ops| && 0 <= j && SavesAt(ops[j], Backup(p));
    assert Backup(p) !in t;
  }

  lemma UndoCopyNewFiles(t0: Tree, t: Tree, ops: seq<CompletedOp>, k: nat, left: set<Path>)
    requires 0 < k <= |ops| && ops[k - 1].FileCopied?
    requires SoundJournal(t0, ops) && Partly(t0, t, ops, k, left)
    ensures NewFilesPartly(t0, GivenBack(t, ops[k - 1].destination, ops[k - 1].backup), ops, k - 1)
  {
    var dst, backup := ops[k - 1].destination, ops[k - 1].backup;
    var t' := GivenBack(t, dst, backup);
    assert CopiesTo(ops[k - 1], dst) && IsDestination(ops, dst);
    assert backup.Some? ==> SavesAt(ops[k - 1], backup.value) && IsBackup(ops, backup.value);
    forall d | d in t' && d !in t0 && IsDestination(ops, d)
      ensures CopiedBefore(ops, d, k - 1)
    {
      NewFileCopiedBefore(t0, t, ops, k, left, d);
    }
    forall b, i | k - 1 <= i < |ops| && SavesAt(ops[i], b)
      ensures b !in t'
    {
      BackupStaysAway(t0, t, ops, k, left, b, i);
    }
  }

  lemma NewFileCopiedBefore(t0: Tree, t: Tree, ops: seq<CompletedOp>, k: nat, left: set<Path>, d: Path)
    requires 0 < k <= |ops| && ops[k - 1].FileCopied?
    requires SoundJournal(t0, ops) && Partly(t0, t, ops, k, left)
    requires d in GivenBack(t, ops[k - 1].destination, ops[k - 1].backup)
    requires d !in t0 && IsDestination(ops, d)
    ensures CopiedBefore(ops, d, k - 1)
  {
    assert Logged(t0, ops, k - 1);
    if d == ops[k - 1].destination {
      var j :| 0 <= j < k - 1 && CopiesTo(ops[j], d);
    } else {
      var j :| 0 <= j < k && j < |ops| && CopiesTo(ops[j], d);
      assert j != k - 1;
    }
  }

  /** The backup of an undone entry is gone, and no earlier entry brings it back: an entry for it
      has no other backup than itself. */
  lemma BackupStaysAway(t0: Tree, t: Tree, ops: seq<CompletedOp>, k: nat, left: set<Path>, b: Path, i: nat)
    requires 0 < k <= |ops| && ops[k - 1].FileCopied?
    requires SoundJournal(t0, ops) && Partly(t0, t, ops, k, left)
    requires k - 1 <= i < |ops| && SavesAt(ops[i], b)
    ensures b !in GivenBack(t, ops[k - 1].destination, ops[k - 1].backup)
  {
    var dst, backup := ops[k - 1].destination, ops[k - 1].backup;
    SavedOnItself(t0, ops, i, b);
    assert Logged(t0, ops, k - 1);
    assert i >= k ==> b !in t;
    GoneStaysAway(t, dst, backup, b);
  }

  lemma SavedOnItself(t0: Tree, ops: seq<CompletedOp>, i: nat, b: Path)
    requires i < |ops| && WellLogged(t0, ops) && SavesAt(ops[i], b)
    ensures Backup(b) == b
  {
    assert Logged(t0, ops, i);
    BackupOfBackup(ops[i].destination);
  }

  lemma GoneStaysAway(t: Tree, dst: Path, backup: Option<Path>, b: Path)
    requires b !in t || backup == Some(b)
    requires dst == b && backup.Some? ==> backup.value == b
    ensures b !in GivenBack(t, dst, backup)
  {
  }

  lemma UndoDirPartly(t0: Tree, t: Tree, ops: seq<CompletedOp>, k: nat, left: set<Path>)
    requires 0 < k <= |ops| && ops[k - 1].DirectoryCreated?
    requires SoundJournal(t0, ops) && Partly(t0, t, ops, k, left)
    ensures var p := ops[k - 1].path;
      Partly(t0, if IsEmptyDir(t, p) then t - {p} else t, ops, k - 1, left)
  {
    var p := ops[k - 1].path;
    assert Makes(ops[k - 1], p) && IsJournalled(ops, p) && Logged(t0, ops, k - 1);
    EntryForgotten(t0, t, ops, k, left);
    if IsEmptyDir(t, p) {
      DirForgotten(t0, t, ops, k - 1, p);
      assert !AboveSome(p, left);
    } else if p in t {
      assert IsDir(t, p);
      var c :| c in t && p < c;
      OccupiedDir(t0, t, ops, k, left, p, c);
    }
    DirsForgotten(t0, t, ops, k, left);
  }

  lemma DirForgotten(t0: Tree, t: Tree, ops: seq<CompletedOp>, k: nat, p: Path)
    requires WellFormed(t) && p != [] && p !in t0 && IsEmptyDir(t, p)
    requires OriginalsPartly(t0, t, ops, k) && NewFilesPartly(t0, t, ops, k)
    ensures WellFormed(t - {p})
    ensures OriginalsPartly(t0, t - {p}, ops, k) && NewFilesPartly(t0, t - {p}, ops, k)
  {
  }

  lemma DirsForgotten(t0: Tree, t: Tree, ops: seq<CompletedOp>, k: nat, left: set<Path>)
    requires 0 < k <= |ops| && ops[k - 1].DirectoryCreated?
    requires DirsPartly(t0, t, ops, k, left) && IsJournalled(ops, ops[k - 1].path)
    requires IsDir(t, ops[k - 1].path) ==>
      if IsEmptyDir(t, ops[k - 1].path) then !AboveSome(ops[k - 1].path, left)
      else AboveSome(ops[k - 1].path, left)
    ensures var p := ops[k - 1].path;
      DirsPartly(t0, if IsEmptyDir(t, p) then t - {p} else t, ops, k - 1, left)
  {
    var p := ops[k - 1].path;
    var t' := if IsEmptyDir(t, p) then t - {p} else t;
    forall q | IsDir(t', q) && q !in t0
      ensures MadeBefore(ops, q, k - 1) || AboveSome(q, left)
    {
      if MadeBefore(ops, q, k) {
        var i :| 0 <= i < k && i < |ops| && Makes(ops[i], q);
        assert i == k - 1 ==> q == p;
      }
    }
  }

  /** An entry that copies nothing does not matter to the files. */
  lemma EntryForgotten(t0: Tree, t: Tree, ops: seq<CompletedOp>, k: nat, left: set<Path>)
    requires 0 < k <= |ops| && !ops[k - 1].FileCopied?
    requires SoundJournal(t0, ops) && Partly(t0, t, ops, k, left)
    ensures OriginalsPartly(t0, t, ops, k - 1) && NewFilesPartly(t0, t, ops, k - 1)
  {
    forall d | d in t && d !in t0 && IsDestination(ops, d)
      ensures CopiedBefore(ops, d, k - 1)
    {
      var i :| 0 <= i < k && i < |ops| && CopiesTo(ops[i], d);
      assert i != k - 1;
    }
    forall p, i: nat | IsFile(t0, p) && KeptBy(ops, p, i) && !IsBackup(ops, p)
      ensures if i < k - 1 then Saved(t0, t, p) else Same(t0, t, p)
    {
      assert CopiesTo(ops[i], p) && i != k - 1;
    }
  }

  /** A journalled directory that is not empty when its turn comes holds an unjournalled one. */
  lemma OccupiedDir(t0: Tree, t: Tree, ops: seq<CompletedOp>, k: nat, left: set<Path>, p: Path, c: Path)
    requires 0 < k <= |ops| && Makes(ops[k - 1], p)
    requires SoundJournal(t0, ops) && Partly(t0, t, ops, k, left)
    requires c in t && p < c
    ensures AboveSome(p, left)
  {
    assert Logged(t0, ops, k - 1);
    if c in t0 {
      AncestorIsDir(t0, c, p);
    } else if IsDir(t, c) {
      if !MadeBefore(ops, c, k) {
        var u :| u in left && c <= u;
        assert p <= u;
      }
    } else if !IsDestination(ops, c) {
      var i :| 0 <= i < |ops| && SavesAt(ops[i], c);
      BackupBeside(t0, ops, i, p, c);
    }
  }

  lemma BackupBeside(t0: Tree, ops: seq<CompletedOp>, i: nat, p: Path, b: Path)
    requires i < |ops| && SavesAt(ops[i], b) && Logged(t0, ops, i) && p < b
    ensures p <= ops[i].destination
  {
    assert p <= Parent(b) == Parent(ops[i].destination) <= ops[i].destination;
  }

  lemma UndoPartly(plan: Plan, d: Disk, t0: Tree, ops: seq<CompletedOp>, k: nat, left: set<Path>)
    requires 0 < k <= |ops|
    requires SoundJournal(t0, ops) && Partly(t0, d.now, ops, k, left)
    requires FaultFree(plan, |d.past|)
    ensures var u := UndoOp(plan, d, ops[k - 1]);
      u.ok && |d.past| <= |u.disk.past| && Partly(t0, u.disk.now, ops, k - 1, left)
  {
    match ops[k - 1]
    case FileCopied(_, _) =>
      UndoCopy(plan, d, t0, ops, k, left);
      UndoCopyPartly(t0, d.now, ops, k, left);
    case DirectoryCreated(p) =>
      UndoDirPartly(t0, d.now, ops, k, left);
      assert Logged(t0, ops, k - 1) && p != [];
    case ServiceRegistered(_) =>
      UndoServicePartly(t0, d.now, ops, k, left);
  }

  lemma {:induction false} UnwindPartly(
      plan: Plan, d: Disk, t0: Tree, ops: seq<CompletedOp>, k: nat, done: nat, left: set<Path>)
    requires k <= |ops|
    requires SoundJournal(t0, ops) && Partly(t0, d.now, ops, k, left)
    requires FaultFree(plan, |d.past|)
    ensures var u := Unwind(plan, d, ops[..k], done);
      u.result == Ok && Partly(t0, u.disk.now, ops, 0, left)
    decreases k
  {
    if k > 0 {
      assert ops[..k][..k - 1] == ops[..k - 1];
      UndoPartly(plan, d, t0, ops, k, left);
      UnwindPartly(plan, UndoOp(plan, d, ops[k - 1]).disk, t0, ops, k - 1, done + 1, left);
    }
  }

  lemma UndoServicePartly(t0: Tree, t: Tree, ops: seq<CompletedOp>, k: nat, left: set<Path>)
    requires 0 < k <= |ops| && ops[k - 1].ServiceRegistered?
    requires SoundJournal(t0, ops) && Partly(t0, t, ops, k, left)
    ensures Partly(t0, t, ops, k - 1, left)
  {
    EntryForgotten(t0, t, ops, k, left);
    forall p | IsDir(t, p) && p !in t0 && MadeBefore(ops, p, k)
      ensures MadeBefore(ops, p, k - 1)
    {
      var i :| 0 <= i < k && i < |ops| && Makes(ops[i], p);
      assert i != k - 1;
    }
  }

  /** What a complete rollback leaves: the initial tree without what was lost, and the
      directories of which no entry tells, with those above them. */
  ghost predicate Restored(t0: Tree, t: Tree, ops: seq<CompletedOp>, left: set<Path>) {
    && (forall p :: p in t <==> (p in t0 && !Lost(t0, ops, p)) || AboveSome(p, left))
    && (forall p :: p in t ==> t[p] == if p in t0 then t0[p] else Dir)
    && (forall p :: Lost(t0, ops, p) ==> p !in t)
  }

  lemma UnwoundIsRestored(t0: Tree, t: Tree, ops: seq<CompletedOp>, left: set<Path>)
    requires SoundJournal(t0, ops) && Partly(t0, t, ops, 0, left)
    ensures Restored(t0, t, ops, left)
  {
    forall p | IsFile(t0, p)
      ensures if Lost(t0, ops, p) then p !in t else Same(t0, t, p)
    {
      OriginalFile(t0, t, ops, left, p);
    }
    forall p | p in t && p !in t0
      ensures IsDir(t, p) && AboveSome(p, left)
    {
      assert !IsBackup(ops, p);
      assert !CopiedBefore(ops, p, 0);
    }
    forall p | AboveSome(p, left)
      ensures IsDir(t, p)
    {
      var u :| u in left && p <= u;
      if p != u { AncestorIsDir(t, u, p); }
    }
    forall p | p in t0 && t0[p].Dir?
      ensures IsDir(t, p)
    {
      assert IsDir(t0, p);
    }
  }

  lemma OriginalFile(t0: Tree, t: Tree, ops: seq<CompletedOp>, left: set<Path>, p: Path)
    requires SoundJournal(t0, ops) && Partly(t0, t, ops, 0, left) && IsFile(t0, p)
    ensures if Lost(t0, ops, p) then p !in t else Same(t0, t, p)
  {
    if IsBackup(ops, p) {
      var i :| 0 <= i < |ops| && SavesAt(ops[i], p);
      assert p !in t;
    } else if IsDestination(ops, p) {
      if Kept(ops, p) {
        var i: nat :| KeptBy(ops, p, i);
      } else {
        var i :| 0 <= i < |ops| && CopiesTo(ops[i], p);
        assert !KeptBy(ops, p, i);
        if j :| 0 <= j < |ops| && CopiesTo(ops[j], p) && j != i {
          assert Logged(t0, ops, i) && Logged(t0, ops, j);
          assert SavesAt(ops[i], Backup(p)) && SavesAt(ops[j], Backup(p));
          var a := if i < j then i else j;
          assert SavedAgain(ops, p, a);
        } else {
          var j :| i < j < |ops| && SavesAt(ops[j], Backup(p));
          assert SavedAgain(ops, p, i);
        }
        assert p !in t;
      }
    }
  }
}
