/** Absolute paths, as the installer uses them: the sequence of components below the root. */
module Paths {

  type Path = seq<string>

  /** `Path::parent` of a path other than the root. */
  function Parent(p: Path): Path
    requires p != []
  {
    p[..|p| - 1]
  }

  function FileName(p: Path): string
    requires p != []
  {
    p[|p| - 1]
  }

  /** The position of the last dot in a file name, or -1. */
  function LastDot(name: string): (i: int)
    ensures -1 <= i < |name|
    ensures 0 <= i ==> name[i] == '.'
    ensures forall j :: i < j < |name| ==> name[j] != '.'
  {
    if name == "" then -1
    else if name[|name| - 1] == '.' then |name| - 1
    else LastDot(name[..|name| - 1])
  }

  /** `Path::file_stem`: the name up to its last dot, unless that dot starts the name. */
  function FileStem(name: string): string {
    var i := LastDot(name);
    if name == ".." || i <= 0 then name else name[..i]
  }

  /** The last component names a file; no component is empty in the library's paths. */
  predicate HasFileName(p: Path) {
    p != [] && FileName(p) !in {"", ".."}
  }

  /** `Path::with_extension`; a path that has no file name is returned as it is. */
  function WithExtension(p: Path, extension: string): Path
    requires extension != ""
  {
    if !HasFileName(p) then p
    else Parent(p) + [FileStem(FileName(p)) + "." + extension]
  }

  /** Where `install_file` saves the file that it overwrites. */
  function Backup(p: Path): (b: Path)
    ensures |b| == |p|
    ensures p != [] ==> Parent(b) == Parent(p)
  {
    WithExtension(p, "bak")
  }

  lemma StemBeforeDot(name: string, i: nat)
    requires 0 < i < |name| && name[i] == '.' && name != ".."
    requires forall j :: i < j < |name| ==> name[j] != '.'
    ensures FileStem(name) == name[..i]
  {
    var k := LastDot(name);
    assert k >= i;
  }

  lemma StemOfBackup(stem: string)
    requires stem != ""
    ensures FileStem(stem + ".bak") == stem && stem + ".bak" !in {"", ".."}
  {
    var name := stem + ".bak";
    assert name[|stem|..] == ".bak";
    assert name[|stem| + 1] == 'b' && name[|stem| + 2] == 'a' && name[|stem| + 3] == 'k';
    StemBeforeDot(name, |stem|);
  }

  /** The backup stands beside the file: what follows the last dot of its name gives way to `bak`,
      and a name without a dot, or with only one in front, is extended. */
  lemma BackupName(dir: Path, stem: string, extension: string)
    requires '.' !in extension && stem != ""
    ensures stem + "." + extension != ".." ==> Backup(dir + [stem + "." + extension]) == dir + [stem + ".bak"]
    ensures extension != "" ==> Backup(dir + [extension]) == dir + [extension + ".bak"]
    ensures extension != "" ==> Backup(dir + ["." + extension]) == dir + ["." + extension + ".bak"]
    ensures Backup([]) == [] && Backup(dir + [".."]) == dir + [".."]
  {
    DottedName(dir, stem, extension);
    PlainName(dir, extension);
    if extension != "" {
      HiddenName(dir, extension);
    }
  }

  lemma DottedName(dir: Path, stem: string, extension: string)
    requires '.' !in extension && stem != ""
    ensures stem + "." + extension != ".." ==> Backup(dir + [stem + "." + extension]) == dir + [stem + ".bak"]
  {
    var name := stem + "." + extension;
    if name != ".." {
      assert name[|stem|] == '.' && forall j :: |stem| < j < |name| ==> name[j] == extension[j - |stem| - 1];
      StemBeforeDot(name, |stem|);
      assert name[..|stem|] == stem;
      BackupOfStem(dir, name);
    }
  }

  lemma BackupOfStem(dir: Path, name: string)
    requires name !in {"", ".."}
    ensures Backup(dir + [name]) == dir + [FileStem(name) + ".bak"]
  {
    assert (dir + [name])[..|dir|] == dir;
    assert "." + "bak" == ".bak";
    assert FileStem(name) + "." + "bak" == FileStem(name) + ".bak";
  }

  lemma PlainName(dir: Path, name: string)
    requires '.' !in name
    ensures name != "" ==> Backup(dir + [name]) == dir + [name + ".bak"]
  {
    if name != "" {
      BackupOfStem(dir, name);
    }
  }

  lemma HiddenName(dir: Path, rest: string)
    requires '.' !in rest && rest != ""
    ensures Backup(dir + ["." + rest]) == dir + ["." + rest + ".bak"]
  {
    var name := "." + rest;
    assert forall j :: 0 < j < |name| ==> name[j] == rest[j - 1];
    assert name[1] != '.';
    var k := LastDot(name);
    assert name[0] == '.';
    BackupOfStem(dir, name);
  }

  /** The backup of a backup is that backup. */
  lemma BackupOfBackup(p: Path)
    ensures Backup(Backup(p)) == Backup(p)
  {
    if HasFileName(p) {
      var stem := FileStem(FileName(p));
      StemOfBackup(stem);
      assert stem + "." + "bak" == stem + ".bak";
    }
  }

  /** Two files share one backup exactly when they differ at most in their extension. */
  lemma BackupsCollide(p: Path, q: Path)
    requires HasFileName(p) && HasFileName(q)
    ensures Backup(p) == Backup(q)
       <==> Parent(p) == Parent(q) && FileStem(FileName(p)) == FileStem(FileName(q))
  {
    var b, c := Backup(p), Backup(q);
    var s, r := FileStem(FileName(p)), FileStem(FileName(q));
    assert Parent(b) == Parent(p) && Parent(c) == Parent(q);
    assert FileName(b) == s + ".bak" && FileName(c) == r + ".bak";
    if b == c {
      assert s == (s + ".bak")[..|s + ".bak"| - 4] == (r + ".bak")[..|r + ".bak"| - 4] == r;
    }
  }
}
