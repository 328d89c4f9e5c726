/** What each installer call does to a disk and a journal, as functions of the state before it. */
module Journal {
  import opened Wrappers
  import opened Paths
  import opened FileTree

  /** A disk: the tree it holds now, and every tree it held before, one for each primitive.
      The number of primitives so far is the position in the environment's plan. */
  datatype Disk = Disk(now: Tree, past: seq<Tree>) {
    function Fault(plan: Plan): Fault {
      plan(|past|)
    }

    function Then(o: Outcome): Disk {
      Disk(o.tree, past + [now])
    }
  }

  datatype CompletedOp =
    | FileCopied(destination: Path, backup: Option<Path>)
    | DirectoryCreated(path: Path)
    | ServiceRegistered(name: string)

  datatype TxState = Active | Committed | RolledBack

  datatype TxError = Io | AlreadyCommitted | AlreadyRolledBack | RollbackFailed(index: nat)

  datatype TxResult = Ok | Err(error: TxError)

  datatype World = World(disk: Disk, ops: seq<CompletedOp>, state: TxState)

  datatype Reply = Reply(world: World, result: TxResult)

  /** A new transaction on an existing tree. */
  function Fresh(t: Tree): World {
    World(Disk(t, []), [], Active)
  }

  function EnsureActive(state: TxState): TxResult {
    match state
    case Active => Ok
    case Committed => Err(AlreadyCommitted)
    case RolledBack => Err(AlreadyRolledBack)
  }

  function CreateDirectory(plan: Plan, w: World, path: Path): Reply {
    if w.state != Active then Reply(w, EnsureActive(w.state))
    else if path in w.disk.now then Reply(w, Ok)
    else
      var o := CreateDirAll(w.disk.now, path, w.disk.Fault(plan));
      if o.ok then Reply(World(w.disk.Then(o), w.ops + [DirectoryCreated(path)], Active), Ok)
      else Reply(World(w.disk.Then(o), w.ops, Active), Err(Io))
  }

  /** The second copy of an installation, once the old file (if any) is saved at `backup`. */
  function CopyIn(plan: Plan, w: World, src: Path, dst: Path, backup: Option<Path>): Reply {
    var o := Copy(w.disk.now, src, dst, w.disk.Fault(plan));
    if o.ok then Reply(World(w.disk.Then(o), w.ops + [FileCopied(dst, backup)], w.state), Ok)
    else Reply(World(w.disk.Then(o), w.ops, w.state), Err(Io))
  }

  function CopyWithBackup(plan: Plan, w: World, src: Path, dst: Path): Reply {
    if dst in w.disk.now then
      var o := Copy(w.disk.now, dst, Backup(dst), w.disk.Fault(plan));
      var w' := World(w.disk.Then(o), w.ops, w.state);
      if o.ok then CopyIn(plan, w', src, dst, Some(Backup(dst))) else Reply(w', Err(Io))
    else CopyIn(plan, w, src, dst, None)
  }

  function InstallFile(plan: Plan, w: World, src: Path, dst: Path): Reply {
    if w.state != Active then Reply(w, EnsureActive(w.state))
    else if dst == [] then CopyWithBackup(plan, w, src, dst)
    else
      var r := CreateDirectory(plan, w, Parent(dst));
      if r.result.Ok? then CopyWithBackup(plan, r.world, src, dst) else r
  }

  function RegisterService(w: World, name: string): Reply {
    if w.state != Active then Reply(w, EnsureActive(w.state))
    else Reply(w.(ops := w.ops + [ServiceRegistered(name)]), Ok)
  }

  function DropBackup(plan: Plan, d: Disk, op: CompletedOp): Disk {
    if op.FileCopied? && op.backup.Some? then
      d.Then(RemoveFile(d.now, op.backup.value, d.Fault(plan)))
    else d
  }

  function DropBackups(plan: Plan, d: Disk, ops: seq<CompletedOp>): Disk {
    if ops == [] then d
    else DropBackup(plan, DropBackups(plan, d, ops[..|ops| - 1]), ops[|ops| - 1])
  }

  function Commit(plan: Plan, w: World): Reply {
    if w.state != Active then Reply(w, EnsureActive(w.state))
    else Reply(World(DropBackups(plan, w.disk, w.ops), w.ops, Committed), Ok)
  }

  datatype Undone = Undone(disk: Disk, ok: bool)

  /** `RemoveInstalled` then `RestoreBackup` undo one copied file. */
  function RemoveInstalled(plan: Plan, d: Disk, dst: Path): Undone {
    if dst in d.now then
      var o := RemoveFile(d.now, dst, d.Fault(plan));
      Undone(d.Then(o), o.ok)
    else Undone(d, true)
  }

  function RestoreBackup(plan: Plan, d: Disk, dst: Path, backup: Option<Path>): Undone {
    if backup.Some? && backup.value in d.now then
      var o := Rename(d.now, backup.value, dst, d.Fault(plan));
      Undone(d.Then(o), o.ok)
    else Undone(d, true)
  }

  /** Undo one entry.  A directory that cannot be removed is left without an error. */
  function UndoOp(plan: Plan, d: Disk, op: CompletedOp): Undone {
    match op
    case FileCopied(dst, backup) =>
      var removed := RemoveInstalled(plan, d, dst);
      if removed.ok then RestoreBackup(plan, removed.disk, dst, backup) else removed
    case DirectoryCreated(path) =>
      if path in d.now then Undone(d.Then(RemoveDir(d.now, path, d.Fault(plan))), true)
      else Undone(d, true)
    case ServiceRegistered(_) => Undone(d, true)
  }

  datatype Unwound = Unwound(disk: Disk, result: TxResult)

  /** Undo the journal from its end; `done` entries have been undone before. */
  function Unwind(plan: Plan, d: Disk, ops: seq<CompletedOp>, done: nat): Unwound
    decreases |ops|
  {
    if ops == [] then Unwound(d, Ok)
    else
      var u := UndoOp(plan, d, ops[|ops| - 1]);
      if u.ok then Unwind(plan, u.disk, ops[..|ops| - 1], done + 1)
      else Unwound(u.disk, Err(RollbackFailed(done)))
  }

  function Rollback(plan: Plan, w: World): Reply {
    if w.state != Active then Reply(w, EnsureActive(w.state))
    else
      var u := Unwind(plan, w.disk, w.ops, 0);
      Reply(World(u.disk, w.ops, RolledBack), u.result)
  }

  // ---- Runs ----

  datatype Command =
    | CreateDirectoryCmd(path: Path)
    | InstallFileCmd(src: Path, dst: Path)
    | RegisterServiceCmd(name: string)
    | CommitCmd
    | RollbackCmd

  function Apply(plan: Plan, w: World, c: Command): Reply {
    match c
    case CreateDirectoryCmd(path) => CreateDirectory(plan, w, path)
    case InstallFileCmd(src, dst) => InstallFile(plan, w, src, dst)
    case RegisterServiceCmd(name) => RegisterService(w, name)
    case CommitCmd => Commit(plan, w)
    case RollbackCmd => Rollback(plan, w)
  }

  function Run(plan: Plan, w: World, cmds: seq<Command>): World {
    if cmds == [] then w
    else Apply(plan, Run(plan, w, cmds[..|cmds| - 1]), cmds[|cmds| - 1]).world
  }
}
