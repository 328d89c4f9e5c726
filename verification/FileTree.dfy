/** A file system as a map from paths to nodes, and its primitives, any of which may fail. */
module FileTree {
  import opened Paths

  type Bytes = seq<bv8>

  datatype Node = Dir | File(data: Bytes)

  type Tree = map<Path, Node>

  predicate IsDir(t: Tree, p: Path) {
    p in t && t[p].Dir?
  }

  predicate IsFile(t: Tree, p: Path) {
    p in t && t[p].File?
  }

  /** Every node but the root lies in a directory. */
  ghost predicate WellFormed(t: Tree) {
    && IsDir(t, [])
    && forall p {:trigger Parent(p)} :: p in t && p != [] ==> IsDir(t, Parent(p))
  }

  lemma {:induction false} AncestorIsDir(t: Tree, p: Path, q: Path)
    requires WellFormed(t) && p in t && q < p
    ensures IsDir(t, q)
    decreases |p|
  {
    if |p| - 1 != |q| {
      AncestorIsDir(t, Parent(p), q);
    } else {
      assert q == Parent(p);
    }
  }

  /** What the environment does to one primitive.  A failing write may get part of the way. */
  datatype Fault = NoFault | Fault(progress: nat)

  /** The environment's behaviour over a whole run: one choice for each primitive in turn. */
  type Plan = nat -> Fault

  datatype Outcome = Outcome(tree: Tree, ok: bool)

  function Min(a: nat, b: nat): nat {
    if a < b then a else b
  }

  function Prefixes(p: Path): (s: set<Path>)
    ensures forall q :: q in s <==> q <= p
  {
    var s := set i | 0 <= i <= |p| :: p[..i];
    assert forall q :: q <= p ==> q == p[..|q|];
    s
  }

  function WithDirs(t: Tree, p: Path): (r: Tree)
    ensures forall q :: q in r <==> q in t || q <= p
    ensures forall q :: q in t ==> r[q] == t[q]
    ensures forall q :: q in r && q !in t ==> r[q] == Dir
  {
    map q | q in t.Keys + Prefixes(p) :: if q in t then t[q] else Dir
  }

  /** `fs::create_dir_all`.  A fault stops it before the last directory is made. */
  function CreateDirAll(t: Tree, p: Path, f: Fault): Outcome {
    if exists i :: 0 <= i <= |p| && IsFile(t, p[..i]) then Outcome(t, false)
    else if f.NoFault? then Outcome(WithDirs(t, p), true)
    else if p == [] then Outcome(t, false)
    else Outcome(WithDirs(t, p[..Min(f.progress, |p| - 1)]), false)
  }

  /** `fs::copy`.  The target is truncated when it is opened, so copying a file onto itself
      empties it, and a copy that fails may leave any prefix of the data behind. */
  function Copy(t: Tree, from: Path, to: Path, f: Fault): Outcome {
    if !IsFile(t, from) || to == [] || !IsDir(t, Parent(to)) || IsDir(t, to) then Outcome(t, false)
    else
      var data := if from == to then [] else t[from].data;
      if f.NoFault? then Outcome(t[to := File(data)], true)
      else if f.progress == 0 then Outcome(t, false)
      else Outcome(t[to := File(data[..Min(f.progress - 1, |data|)])], false)
  }

  /** `fs::remove_file` */
  function RemoveFile(t: Tree, p: Path, f: Fault): Outcome {
    if f.NoFault? && IsFile(t, p) then Outcome(t - {p}, true) else Outcome(t, false)
  }

  predicate IsEmptyDir(t: Tree, p: Path) {
    IsDir(t, p) && forall q | q in t :: !(p < q)
  }

  /** `fs::remove_dir`, which refuses a directory that holds something. */
  function RemoveDir(t: Tree, p: Path, f: Fault): Outcome {
    if f.NoFault? && p != [] && IsEmptyDir(t, p) then Outcome(t - {p}, true) else Outcome(t, false)
  }

  /** `fs::rename`, which replaces a file, and moves a directory with everything below it. */
  function Rename(t: Tree, from: Path, to: Path, f: Fault): Outcome {
    if !f.NoFault? || from !in t || to == [] || !IsDir(t, Parent(to)) then Outcome(t, false)
    else if from == to then Outcome(t, true)
    else if t[from].File? then
      if IsDir(t, to) then Outcome(t, false) else Outcome((t - {from})[to := t[from]], true)
    else if from <= to || (to in t && !IsEmptyDir(t, to)) then Outcome(t, false)
    else Outcome(MoveDir(t, from, to), true)
  }

  function MoveDir(t: Tree, from: Path, to: Path): (r: Tree)
    ensures forall q :: q in r <==> (q in t && !(from <= q)) || (to <= q && from + q[|to|..] in t)
    ensures forall q :: q in r ==>
      r[q] == if to <= q && from + q[|to|..] in t then t[from + q[|to|..]] else t[q]
  {
    var kept := map q | q in t && !(from <= q) :: t[q];
    var targets := set q | q in t && from <= q :: to + q[|from|..];
    assert forall q :: q in targets <==> to <= q && from + q[|to|..] in t by {
      forall q | q in targets
        ensures to <= q && from + q[|to|..] in t
      {
        var s :| s in t && from <= s && q == to + s[|from|..];
        assert q[|to|..] == s[|from|..] && s == from + s[|from|..];
      }
      forall q | to <= q && from + q[|to|..] in t
        ensures q in targets
      {
        var s := from + q[|to|..];
        assert s[|from|..] == q[|to|..] && q == to + s[|from|..];
      }
    }
    kept + map q | q in targets :: t[from + q[|to|..]]
  }

  // ---- Every primitive keeps the tree well formed ----

  lemma CreateDirAllKeepsTree(t: Tree, p: Path, f: Fault)
    requires WellFormed(t)
    ensures WellFormed(CreateDirAll(t, p, f).tree)
  {
    if !(exists i :: 0 <= i <= |p| && IsFile(t, p[..i])) {
      var q := if f.NoFault? || p == [] then p else p[..Min(f.progress, |p| - 1)];
      var r := WithDirs(t, q);
      forall x | x in r && x != []
        ensures IsDir(r, Parent(x))
      {
        if x !in t {
          var y := Parent(x);
          assert y <= p && y == p[..|y|];
          assert !IsFile(t, p[..|y|]);
        }
      }
      assert IsDir(r, []);
    }
  }

  lemma CopyKeepsTree(t: Tree, from: Path, to: Path, f: Fault)
    requires WellFormed(t)
    ensures WellFormed(Copy(t, from, to, f).tree)
  {
  }

  lemma RenameKeepsTree(t: Tree, from: Path, to: Path, f: Fault)
    requires WellFormed(t)
    ensures WellFormed(Rename(t, from, to, f).tree)
  {
    var o := Rename(t, from, to, f);
    if o.ok && from != to && t[from].Dir? {
      var r := o.tree;
      assert from != [];
      assert IsDir(r, []);
      forall q | q in r && q != []
        ensures IsDir(r, Parent(q))
      {
        if to <= q && from + q[|to|..] in t {
          if q == to {
            assert !(from <= Parent(to));
            assert Parent(to) in t;
          } else {
            var s := from + q[|to|..];
            assert Parent(s) == from + Parent(q)[|to|..];
          }
        } else {
          assert from <= Parent(q) ==> from <= q;
          if to <= Parent(q) {
            // `to` was absent or an empty directory
            assert q in t && to < q;
            AncestorIsDir(t, q, to);
          }
        }
      }
    }
  }
}
