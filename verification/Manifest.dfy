/** What is to be installed, on each platform. */
module Manifest {
  import opened Wrappers
  import opened Paths
  import opened FileTree
  import opened Journal
  import opened CrashSafety
  import opened Recovery
  import opened Restoration

  /** A path as written, absolute or not. */
  datatype PathBuf = PathBuf(absolute: bool, parts: seq<string>) {
    predicate IsEmpty() {
      !absolute && parts == []
    }

    function Join(more: seq<string>): PathBuf {
      PathBuf(absolute, parts + more)
    }
  }

  datatype FileEntry = FileEntry(source: PathBuf, destination: PathBuf, required: bool)

  datatype InstallManifest = InstallManifest(
    files: seq<FileEntry>, cleanupPaths: seq<PathBuf>, preservedPaths: seq<PathBuf>)

  datatype ManifestError =
    | DuplicateDestination(path: PathBuf)
    | EmptySource(path: PathBuf)
    | EmptyDestination(path: PathBuf)
    | PreservedPathInCleanup(path: PathBuf)

  // ---- Verification of a manifest ----

  predicate NewDestination(files: seq<FileEntry>, i: nat)
    requires i < |files|
  {
    forall j :: 0 <= j < i ==> files[j].destination != files[i].destination
  }

  predicate SoundEntry(files: seq<FileEntry>, i: nat)
    requires i < |files|
  {
    !files[i].source.IsEmpty() && !files[i].destination.IsEmpty() && NewDestination(files, i)
  }

  predicate SoundEntries(files: seq<FileEntry>, n: nat)
    requires n <= |files|
  {
    forall i :: 0 <= i < n ==> SoundEntry(files, i)
  }

  /** No empty path, no destination twice, nothing both preserved and cleaned up. */
  predicate Consistent(m: InstallManifest) {
    && (forall f :: f in m.files ==> !f.source.IsEmpty() && !f.destination.IsEmpty())
    && (forall i, j :: 0 <= i < j < |m.files| ==> m.files[i].destination != m.files[j].destination)
    && (forall p :: p in m.preservedPaths ==> p !in m.cleanupPaths)
  }

  /** Entry `i` is the first that is not sound. */
  predicate FirstUnsound(m: InstallManifest, i: nat)
    requires i < |m.files|
  {
    SoundEntries(m.files, i) && !SoundEntry(m.files, i)
  }

  /** Preserved path `i` is the first that is cleaned up. */
  predicate FirstCleaned(m: InstallManifest, i: nat)
    requires i < |m.preservedPaths|
  {
    && m.preservedPaths[i] in m.cleanupPaths
    && forall j :: 0 <= j < i ==> m.preservedPaths[j] !in m.cleanupPaths
  }

  /** The error names the first entry at fault, and its first fault. */
  function FaultOf(entry: FileEntry): ManifestError {
    if entry.source.IsEmpty() then EmptySource(entry.destination)
    else if entry.destination.IsEmpty() then EmptyDestination(entry.source)
    else DuplicateDestination(entry.destination)
  }

  predicate Faulty(m: InstallManifest, e: ManifestError) {
    || (exists i :: 0 <= i < |m.files| && FirstUnsound(m, i) && e == FaultOf(m.files[i]))
    || (&& SoundEntries(m.files, |m.files|)
        && exists i | 0 <= i < |m.preservedPaths| ::
             FirstCleaned(m, i) && e == PreservedPathInCleanup(m.preservedPaths[i]))
  }

  lemma SoundIsConsistent(m: InstallManifest)
    ensures Consistent(m) <==>
      && SoundEntries(m.files, |m.files|)
      && forall i :: 0 <= i < |m.preservedPaths| ==> m.preservedPaths[i] !in m.cleanupPaths
  {
    if SoundEntries(m.files, |m.files|) {
      forall i, j | 0 <= i < j < |m.files|
        ensures m.files[i].destination != m.files[j].destination
      {
        assert SoundEntry(m.files, j);
      }
      forall f | f in m.files
        ensures !f.source.IsEmpty() && !f.destination.IsEmpty()
      {
        var i :| 0 <= i < |m.files| && m.files[i] == f;
        assert SoundEntry(m.files, i);
      }
    }
  }

  /** Succeeds exactly on consistent manifests. */
  method Verify(m: InstallManifest) returns (error: Option<ManifestError>)
    ensures error.None? <==> Consistent(m)
    ensures error.Some? ==> Faulty(m, error.value)
  {
    SoundIsConsistent(m);
    var seen: set<PathBuf> := {};
    for i := 0 to |m.files|
      invariant SoundEntries(m.files, i)
      invariant seen == set j | 0 <= j < i :: m.files[j].destination
    {
      var entry := m.files[i];
      if entry.source.IsEmpty() {
        return Some(EmptySource(entry.destination));
      }
      if entry.destination.IsEmpty() {
        return Some(EmptyDestination(entry.source));
      }
      if entry.destination in seen {
        return Some(DuplicateDestination(entry.destination));
      }
      seen := seen + {entry.destination};
    }
    var cleanup := set p | p in m.cleanupPaths;
    for i := 0 to |m.preservedPaths|
      invariant forall j :: 0 <= j < i ==> m.preservedPaths[j] !in m.cleanupPaths
    {
      if m.preservedPaths[i] in cleanup {
        return Some(PreservedPathInCleanup(m.preservedPaths[i]));
      }
    }
    return None;
  }

  // ---- The two platforms ----

  function Relative(parts: seq<string>): PathBuf {
    PathBuf(false, parts)
  }

  function WindowsManifest(prefix: PathBuf): InstallManifest {
    var bin, config, logs := prefix.Join(["bin"]), prefix.Join(["config"]), prefix.Join(["logs"]);
    InstallManifest(
      [ FileEntry(Relative(["bin", "flightd.exe"]), bin.Join(["flightd.exe"]), true),
        FileEntry(Relative(["bin", "flightctl.exe"]), bin.Join(["flightctl.exe"]), true),
        FileEntry(Relative(["config", "config.toml"]), config.Join(["config.toml"]), true),
        FileEntry(Relative(["config", "default.profile.toml"]),
                  config.Join(["default.profile.toml"]), true) ],
      [bin, config, logs, prefix],
      [config.Join(["config.toml"])])
  }

  function LinuxManifest(prefix: PathBuf): InstallManifest {
    var usrBin := prefix.Join(["usr", "bin"]);
    var share := prefix.Join(["usr", "share", "flight-hub"]);
    var systemd := prefix.Join(["usr", "lib", "systemd", "user"]);
    InstallManifest(
      [ FileEntry(Relative(["usr", "bin", "flightd"]), usrBin.Join(["flightd"]), true),
        FileEntry(Relative(["usr", "bin", "flightctl"]), usrBin.Join(["flightctl"]), true),
        FileEntry(Relative(["usr", "share", "flight-hub", "99-flight-hub.rules"]),
                  share.Join(["99-flight-hub.rules"]), true),
        FileEntry(Relative(["usr", "lib", "systemd", "user", "flightd.service"]),
                  systemd.Join(["flightd.service"]), true) ],
      [usrBin, share, systemd],
      [ Relative(["~", ".config", "flight-hub"]),
        Relative(["~", ".local", "share", "flight-hub"]) ])
  }

  /** The backups of a list of destinations are new to it and not shared. */
  ghost predicate SeparateBackups(ds: seq<Path>) {
    && (forall i, j :: 0 <= i < |ds| && 0 <= j < |ds| ==> Backup(ds[i]) != ds[j])
    && (forall i, j :: 0 <= i < j < |ds| ==> Backup(ds[i]) != Backup(ds[j]))
  }

  function Destinations(m: InstallManifest): (ds: seq<Path>)
    ensures |ds| == |m.files| && forall i :: 0 <= i < |ds| ==> ds[i] == m.files[i].destination.parts
  {
    seq(|m.files|, i requires 0 <= i < |m.files| => m.files[i].destination.parts)
  }

  /** Backups depend on the directory and the stem alone. */
  lemma BackupsBeside(dirs: seq<Path>, names: seq<string>, ds: seq<Path>)
    requires |ds| == |dirs| == |names|
    requires forall i :: 0 <= i < |ds| ==> ds[i] == dirs[i] + [names[i]] && names[i] !in {"", ".."}
    requires forall i, j | 0 <= i < |ds| && 0 <= j < |ds| ::
      dirs[i] == dirs[j] ==> FileStem(names[i]) + ".bak" != names[j]
    requires forall i, j | 0 <= i < j < |ds| ::
      dirs[i] == dirs[j] ==> FileStem(names[i]) + ".bak" != FileStem(names[j]) + ".bak"
    ensures SeparateBackups(ds)
  {
    forall i | 0 <= i < |ds|
      ensures Parent(ds[i]) == dirs[i] && FileName(ds[i]) == names[i]
      ensures Parent(Backup(ds[i])) == dirs[i]
      ensures FileName(Backup(ds[i])) == FileStem(names[i]) + ".bak"
    {
      assert FileStem(names[i]) + "." + "bak" == FileStem(names[i]) + ".bak";
    }
  }

  lemma WindowsManifestIsConsistent(prefix: PathBuf)
    ensures Consistent(WindowsManifest(prefix))
  {
    var m := WindowsManifest(prefix);
    var n := |prefix.parts|;
    assert m.files[0].destination.parts[n + 1] == "flightd.exe";
    assert m.files[1].destination.parts[n + 1] == "flightctl.exe";
    assert m.files[2].destination.parts[n + 1] == "config.toml" && "config.toml"[0] == 'c';
    assert m.files[3].destination.parts[n + 1] == "default.profile.toml";
    assert "flightd.exe"[0] == 'f';
    assert |m.preservedPaths[0].parts| == n + 2;
    assert forall p :: p in m.cleanupPaths ==> |p.parts| < n + 2;
  }

  lemma LinuxManifestIsConsistent(prefix: PathBuf)
    ensures Consistent(LinuxManifest(prefix))
  {
    var m := LinuxManifest(prefix);
    var n := |prefix.parts|;
    assert |m.files[0].destination.parts| == |m.files[1].destination.parts| == n + 3;
    assert m.files[0].destination.parts[n + 2] == "flightd";
    assert m.files[1].destination.parts[n + 2] == "flightctl";
    assert |m.files[2].destination.parts| == n + 4;
    assert |m.files[3].destination.parts| == n + 5;
    forall p, q | p in m.preservedPaths && q in m.cleanupPaths
      ensures p != q
    {
      var a, b := p.parts, q.parts;
      assert a[|a| - 1] == "flight-hub" && a[|a| - 3] != "usr";
      assert b[|b| - 1] == "bin" || b[|b| - 1] == "user" || b[|b| - 3] == "usr";
    }
  }

  /** Both manifests verify for every prefix, and no two of their files share a backup. */
  lemma ManifestsAreSound(prefix: PathBuf)
    ensures Consistent(WindowsManifest(prefix)) && Consistent(LinuxManifest(prefix))
    ensures SeparateBackups(Destinations(WindowsManifest(prefix)))
    ensures SeparateBackups(Destinations(LinuxManifest(prefix)))
  {
    WindowsManifestIsConsistent(prefix);
    LinuxManifestIsConsistent(prefix);
    WindowsBackups(prefix);
    LinuxBackups(prefix);
  }

  lemma WindowsBackups(prefix: PathBuf)
    ensures SeparateBackups(Destinations(WindowsManifest(prefix)))
  {
    var bin, config := prefix.parts + ["bin"], prefix.parts + ["config"];
    assert bin[|prefix.parts|] == "bin" && config[|prefix.parts|] == "config";
    StemBeforeDot("flightd.exe", 7);
    StemBeforeDot("flightctl.exe", 9);
    StemBeforeDot("config.toml", 6);
    StemBeforeDot("default.profile.toml", 15);
    BackupsBeside([bin, bin, config, config],
                  ["flightd.exe", "flightctl.exe", "config.toml", "default.profile.toml"],
                  Destinations(WindowsManifest(prefix)));
  }

  lemma LinuxBackups(prefix: PathBuf)
    ensures SeparateBackups(Destinations(LinuxManifest(prefix)))
  {
    var bin := prefix.parts + ["usr", "bin"];
    var share := prefix.parts + ["usr", "share", "flight-hub"];
    var systemd := prefix.parts + ["usr", "lib", "systemd", "user"];
    assert |bin| < |share| < |systemd|;
    StemBeforeDot("99-flight-hub.rules", 13);
    StemBeforeDot("flightd.service", 7);
    BackupsBeside([bin, bin, share, systemd],
                  ["flightd", "flightctl", "99-flight-hub.rules", "flightd.service"],
                  Destinations(LinuxManifest(prefix)));
  }

  // ---- Installing a manifest ----

  /** The commands that install the files of a manifest, from the given staged sources. */
  function InstallCommands(m: InstallManifest, sources: seq<Path>): (cmds: seq<Command>)
    requires |sources| == |m.files|
    ensures |cmds| == |m.files|
    ensures forall i :: 0 <= i < |cmds| ==> cmds[i] == InstallFileCmd(sources[i], Destinations(m)[i])
  {
    seq(|m.files|, i requires 0 <= i < |m.files| => InstallFileCmd(sources[i], Destinations(m)[i]))
  }

  lemma ManifestIsCheckable(t0: Tree, m: InstallManifest, sources: seq<Path>)
    requires Consistent(m) && SeparateBackups(Destinations(m)) && |sources| == |m.files|
    requires forall f :: f in m.files ==> f.destination.absolute && Backup(f.destination.parts) !in t0
    ensures var cmds := InstallCommands(m, sources);
      FreeBackups(t0, Targets(cmds)) && OverwritesOnce(t0, cmds)
  {
    var cmds, ds := InstallCommands(m, sources), Destinations(m);
    forall i | 0 <= i < |ds|
      ensures Backup(ds[i]) !in t0
    {
      assert m.files[i] in m.files;
    }
    forall i, j | 0 <= i < j < |ds|
      ensures ds[i] != ds[j]
    {
      assert m.files[i] in m.files && m.files[j] in m.files;
    }
    DestinationsAreCheckable(t0, cmds, ds);
  }

  lemma DestinationsAreCheckable(t0: Tree, cmds: seq<Command>, ds: seq<Path>)
    requires |cmds| == |ds| && forall i :: 0 <= i < |ds| ==> cmds[i].InstallFileCmd? && cmds[i].dst == ds[i]
    requires forall i :: 0 <= i < |ds| ==> Backup(ds[i]) !in t0
    requires forall i, j :: 0 <= i < j < |ds| ==> ds[i] != ds[j]
    requires SeparateBackups(ds)
    ensures FreeBackups(t0, Targets(cmds)) && OverwritesOnce(t0, cmds)
  {
    assert forall d :: d in Targets(cmds) ==> exists i :: 0 <= i < |ds| && ds[i] == d;
  }

  /** If the installation succeeds, a fault-free rollback restores every file. */
  ghost predicate RollsBack(plan: Plan, t0: Tree, cmds: seq<Command>) {
    var w := Run(plan, Fresh(t0), cmds);
    InstallsSucceed(plan, Fresh(t0), cmds) && FaultFree(plan, |w.disk.past|) ==>
      Rollback(plan, w).result == Ok && SameFiles(t0, Rollback(plan, w).world.disk.now)
  }

  /** Rolling back an installation of a consistent manifest restores every file, if its backups
      are separate and were not on the disk. */
  lemma ManifestRollback(plan: Plan, t0: Tree, m: InstallManifest, sources: seq<Path>)
    requires Consistent(m) && SeparateBackups(Destinations(m)) && |sources| == |m.files|
    requires forall f :: f in m.files ==> f.destination.absolute && Backup(f.destination.parts) !in t0
    requires WellFormed(t0)
    ensures RollsBack(plan, t0, InstallCommands(m, sources))
  {
    var cmds := InstallCommands(m, sources);
    ManifestIsCheckable(t0, m, sources);
    if InstallsSucceed(plan, Fresh(t0), cmds) && FaultFree(plan, |Run(plan, Fresh(t0), cmds).disk.past|) {
      RollbackRestoresFiles(plan, t0, cmds);
    }
  }

  lemma PlatformsAbsolute(prefix: PathBuf, m: InstallManifest)
    requires m == WindowsManifest(prefix) || m == LinuxManifest(prefix)
    ensures Consistent(m) && SeparateBackups(Destinations(m)) && |m.files| == 4
    ensures forall f :: f in m.files ==> f.destination.absolute == prefix.absolute
  {
    ManifestsAreSound(prefix);
    DestinationsUnder(prefix, m);
  }

  lemma DestinationsUnder(prefix: PathBuf, m: InstallManifest)
    requires m == WindowsManifest(prefix) || m == LinuxManifest(prefix)
    ensures |m.files| == 4
    ensures forall i :: 0 <= i < |m.files| ==> m.files[i].destination.absolute == prefix.absolute
  {
  }

  /** Both platforms' installations roll back, wherever they are rooted, if the backups were not
      on the disk. */
  lemma PlatformsRollBack(plan: Plan, t0: Tree, prefix: PathBuf, m: InstallManifest, sources: seq<Path>)
    requires m == WindowsManifest(prefix) || m == LinuxManifest(prefix)
    requires prefix.absolute && |sources| == |m.files| && WellFormed(t0)
    requires forall f :: f in m.files ==> Backup(f.destination.parts) !in t0
    ensures RollsBack(plan, t0, InstallCommands(m, sources))
  {
    PlatformsAbsolute(prefix, m);
    ManifestRollback(plan, t0, m, sources);
  }
}
