/** The transactional installer, over a file system whose primitives may fail. */
module InstallTransaction {
  import opened Wrappers
  import opened Paths
  import opened FileTree
  import opened Journal

  class FileSystem {
    const plan: Plan
    var nodes: Tree
    var clock: nat
    ghost var past: seq<Tree>

    ghost predicate Valid()
      reads this
    {
      |past| == clock
    }

    ghost function AsDisk(): Disk
      reads this
    {
      Disk(nodes, past)
    }

    constructor (nodes: Tree, plan: Plan)
      ensures Valid() && AsDisk() == Disk(nodes, []) && this.plan == plan
    {
      this.nodes, this.plan, clock, past := nodes, plan, 0, [];
    }

    method Take(o: Outcome)
      requires Valid()
      modifies this
      ensures Valid() && AsDisk() == old(AsDisk()).Then(o)
    {
      past := past + [nodes];
      nodes, clock := o.tree, clock + 1;
    }
  }

  class Transaction {
    const fs: FileSystem
    var ops: seq<CompletedOp>
    var state: TxState

    ghost predicate Valid()
      reads this, fs
    {
      fs.Valid()
    }

    ghost function AsWorld(): World
      reads this, fs
    {
      World(fs.AsDisk(), ops, state)
    }

    constructor (fs: FileSystem)
      requires fs.Valid()
      ensures Valid() && this.fs == fs && AsWorld() == World(fs.AsDisk(), [], Active)
    {
      this.fs, ops, state := fs, [], Active;
    }

    method CreateDirectory(path: Path) returns (r: TxResult)
      requires Valid()
      modifies this, fs
      ensures Valid() && Reply(AsWorld(), r) == Journal.CreateDirectory(fs.plan, old(AsWorld()), path)
    {
      r := EnsureActive(state);
      if r.Ok? && path !in fs.nodes {
        var o := CreateDirAll(fs.nodes, path, fs.plan(fs.clock));
        fs.Take(o);
        if o.ok {
          ops := ops + [DirectoryCreated(path)];
        } else {
          r := Err(Io);
        }
      }
    }

    method InstallFile(src: Path, dst: Path) returns (r: TxResult)
      requires Valid()
      modifies this, fs
      ensures Valid() && Reply(AsWorld(), r) == Journal.InstallFile(fs.plan, old(AsWorld()), src, dst)
    {
      r := EnsureActive(state);
      if r.Err? {
        return;
      }
      if dst != [] && Parent(dst) !in fs.nodes {
        var made := CreateDirAll(fs.nodes, Parent(dst), fs.plan(fs.clock));
        fs.Take(made);
        if !made.ok {
          return Err(Io);
        }
        ops := ops + [DirectoryCreated(Parent(dst))];
      }
      var backup := None;
      if dst in fs.nodes {
        var saved := Copy(fs.nodes, dst, Backup(dst), fs.plan(fs.clock));
        fs.Take(saved);
        if !saved.ok {
          return Err(Io);
        }
        backup := Some(Backup(dst));
      }
      var copied := Copy(fs.nodes, src, dst, fs.plan(fs.clock));
      fs.Take(copied);
      if !copied.ok {
        return Err(Io);
      }
      ops := ops + [FileCopied(dst, backup)];
    }

    method RegisterService(name: string) returns (r: TxResult)
      requires Valid()
      modifies this
      ensures Valid() && Reply(AsWorld(), r) == Journal.RegisterService(old(AsWorld()), name)
    {
      r := EnsureActive(state);
      if r.Ok? {
        ops := ops + [ServiceRegistered(name)];
      }
    }

    method Commit() returns (r: TxResult)
      requires Valid()
      modifies this, fs
      ensures Valid() && Reply(AsWorld(), r) == Journal.Commit(fs.plan, old(AsWorld()))
    {
      r := EnsureActive(state);
      if r.Err? {
        return;
      }
      for i := 0 to |ops|
        invariant Valid() && ops == old(ops) && state == old(state)
        invariant fs.AsDisk() == DropBackups(fs.plan, old(fs.AsDisk()), ops[..i])
      {
        var op := ops[i];
        assert ops[..i + 1][..i] == ops[..i];
        if op.FileCopied? && op.backup.Some? {
          fs.Take(RemoveFile(fs.nodes, op.backup.value, fs.plan(fs.clock)));
        }
      }
      assert ops[..|ops|] == ops;
      state := Committed;
    }

    method Rollback() returns (r: TxResult)
      requires Valid()
      modifies this, fs
      ensures Valid() && Reply(AsWorld(), r) == Journal.Rollback(fs.plan, old(AsWorld()))
    {
      r := EnsureActive(state);
      if r.Err? {
        return;
      }
      state := RolledBack;
      ghost var goal := Unwind(fs.plan, fs.AsDisk(), ops, 0);
      var left := |ops|;
      assert ops[..left] == ops;
      while left > 0
        invariant 0 <= left <= |ops|
        invariant Valid() && ops == old(ops) && state == RolledBack
        invariant Unwind(fs.plan, fs.AsDisk(), ops[..left], |ops| - left) == goal
      {
        ghost var before := fs.AsDisk();
        var op := ops[left - 1];
        assert ops[..left][..left - 1] == ops[..left - 1];
        match op {
          case FileCopied(dst, backup) =>
            if dst in fs.nodes {
              var removed := RemoveFile(fs.nodes, dst, fs.plan(fs.clock));
              fs.Take(removed);
              if !removed.ok {
                return Err(RollbackFailed(|ops| - left));
              }
            }
            if backup.Some? && backup.value in fs.nodes {
              var restored := Rename(fs.nodes, backup.value, dst, fs.plan(fs.clock));
              fs.Take(restored);
              if !restored.ok {
                return Err(RollbackFailed(|ops| - left));
              }
            }
          case DirectoryCreated(path) =>
            if path in fs.nodes {
              fs.Take(RemoveDir(fs.nodes, path, fs.plan(fs.clock)));
            }
          case ServiceRegistered(_) =>
        }
        assert Undone(fs.AsDisk(), true) == UndoOp(fs.plan, before, op);
        left := left - 1;
      }
    }
  }
}
