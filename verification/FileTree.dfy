/**
A file system as one mutable tree, with an oracle that says which steps fail.
Only the operations the import code uses are modelled, each as one atomic step.
*/
module FileTree {
  import opened Wrappers

  type Path = seq<string>

  datatype Node = Dir | File(content: string)

  type Tree = map<Path, Node>

  /** Every strict ancestor of an existing path is a directory. */
  ghost predicate WellFormed(t: Tree) {
    && [] in t && t[[]] == Dir
    && forall p, n {:trigger p in t, p[..n]} | p in t && 0 <= n < |p| :: p[..n] in t && t[p[..n]] == Dir
  }

  /** Some path at or above p is a file, so no directory can be made at p. */
  predicate Blocked(t: Tree, p: Path) {
    exists n | 0 <= n <= |p| :: p[..n] in t && t[p[..n]].File?
  }

  function Parent(p: Path): Path
    requires p != []
  {
    p[..|p| - 1]
  }

  /** p and its ancestors added as directories where nothing was there. */
  function WithDirs(t: Tree, p: Path): Tree {
    map q | q in t.Keys + (set n | 0 <= n <= |p| :: p[..n]) :: if q in t then t[q] else Dir
  }

  /** The tree without p and all that is below it. */
  function Prune(t: Tree, p: Path): Tree {
    map q | q in t && !(p <= q) :: t[q]
  }

  /** The subtree at src moved to dst, replacing what was there. */
  function Renamed(t: Tree, src: Path, dst: Path): Tree {
    map q | q in Prune(Prune(t, src), dst).Keys + (set s | s in t && src <= s :: dst + s[|src|..])
      :: if dst <= q then (if src + q[|dst|..] in t then t[src + q[|dst|..]] else Dir) else t[q]
  }

  /** When rename(2) succeeds: a file replaces a file, a directory only an empty directory. */
  predicate CanRename(t: Tree, src: Path, dst: Path) {
    && src in t && dst != [] && src != [] && !(src <= dst) && !(dst <= src)
    && Parent(dst) in t && t[Parent(dst)] == Dir
    && (dst in t ==> t[dst].File? == t[src].File?)
    && (t[src].Dir? ==> forall q | q in t :: dst <= q ==> q == dst)
  }

  lemma PrefixSlice(p: Path, q: Path)
    ensures p <= q ==> |p| <= |q| && q[..|p|] == p
    ensures p <= q && |p| == |q| ==> p == q
  {
    if p <= q { assert q[..|p|] == p; assert q[..|q|] == q; }
  }

  /** What is missing at p is missing below p. */
  lemma AbsentBelow(t: Tree, p: Path)
    requires WellFormed(t) && p !in t
    ensures forall q | q in t :: !(p <= q)
  {
    forall q | q in t
      ensures !(p <= q)
    {
      PrefixSlice(p, q);
    }
  }

  lemma AncestorIn(t: Tree, p: Path, q: Path)
    requires WellFormed(t) && p in t
    ensures q <= p ==> q in t
  {
    PrefixSlice(q, p);
    if q <= p && q != p { assert p[..|q|] in t; }
  }

  /** A file has nothing below it. */
  lemma LeafFile(t: Tree, p: Path)
    requires WellFormed(t) && p in t && t[p].File?
    ensures forall q | q in t && p <= q :: q == p
  {
    forall q | q in t && p <= q
      ensures q == p
    {
      assert q[..|p|] == p;
    }
  }

  lemma WithDirsWellFormed(t: Tree, p: Path)
    requires WellFormed(t) && !Blocked(t, p)
    ensures WellFormed(WithDirs(t, p))
    ensures forall n | 0 <= n <= |p| :: p[..n] in WithDirs(t, p) && WithDirs(t, p)[p[..n]] == Dir
    ensures forall q | q in t :: q in WithDirs(t, p) && WithDirs(t, p)[q] == t[q]
    ensures forall q | q in WithDirs(t, p) && q !in t :: q <= p && WithDirs(t, p)[q] == Dir
  {
    var t' := WithDirs(t, p);
    forall n | 0 <= n <= |p|
      ensures p[..n] in t' && t'[p[..n]] == Dir
    {
    }
    forall q, n | q in t' && 0 <= n < |q|
      ensures q[..n] in t' && t'[q[..n]] == Dir
    {
      if q !in t {
        assert q[..n] == p[..n];
      }
    }
  }

  lemma PruneWellFormed(t: Tree, p: Path)
    requires WellFormed(t) && p != []
    ensures WellFormed(Prune(t, p))
  {
    var t' := Prune(t, p);
    forall q, n | q in t' && 0 <= n < |q|
      ensures q[..n] in t' && t'[q[..n]] == Dir
    {
      PrefixTrans(p, q[..n], q);
    }
  }

  lemma PrefixTrans(a: Path, b: Path, c: Path)
    ensures a <= b && b <= c ==> a <= c
  {
  }

  /** Two prefixes of one path are comparable. */
  lemma Comparable(a: Path, b: Path, q: Path)
    requires a <= q && b <= q
    ensures a <= b || b <= a
  {
    assert a == q[..|a|] && b == q[..|b|];
  }

  lemma RenamedPointwise(t: Tree, src: Path, dst: Path)
    requires WellFormed(t) && CanRename(t, src, dst)
    ensures forall q | !(src <= q) && !(dst <= q) ::
              (q in Renamed(t, src, dst) <==> q in t) && (q in t ==> Renamed(t, src, dst)[q] == t[q])
    ensures forall q | src <= q :: q !in Renamed(t, src, dst)
    ensures forall q | dst <= q ::
              (q in Renamed(t, src, dst) <==> src + q[|dst|..] in t)
              && (q in Renamed(t, src, dst) ==> Renamed(t, src, dst)[q] == t[src + q[|dst|..]])
  {
    var t' := Renamed(t, src, dst);
    forall q | dst <= q
      ensures q in t' <==> src + q[|dst|..] in t
      ensures q in t' ==> t'[q] == t[src + q[|dst|..]]
    {
      var s := src + q[|dst|..];
      assert s[|src|..] == q[|dst|..];
      assert dst + s[|src|..] == q;
      if q in t' {
        var s' :| s' in t && src <= s' && q == dst + s'[|src|..];
        assert s'[|src|..] == q[|dst|..];
        assert s' == s;
      }
    }
    forall q | src <= q
      ensures q !in t'
    {
      if dst <= q { Comparable(src, dst, q); }
    }
  }

  lemma RenamedWellFormed(t: Tree, src: Path, dst: Path)
    requires WellFormed(t) && CanRename(t, src, dst)
    ensures WellFormed(Renamed(t, src, dst))
  {
    RenamedPointwise(t, src, dst);
    var t' := Renamed(t, src, dst);
    forall q, n | q in t' && 0 <= n < |q|
      ensures q[..n] in t' && t'[q[..n]] == Dir
    {
      if dst <= q {
        var s := src + q[|dst|..];
        if |dst| <= n {
          var m := |src| + n - |dst|;
          assert s[..m] == src + q[..n][|dst|..];
          assert dst <= q[..n];
        } else {
          assert q[..n] == Parent(dst)[..n];
          if n < |dst| - 1 { assert Parent(dst) in t; } else { assert q[..n] == Parent(dst); }
          assert q[..n] in t && t[q[..n]] == Dir;
          PrefixTrans(src, q[..n], dst);
        }
      } else {
        PrefixTrans(src, q[..n], q);
        PrefixTrans(dst, q[..n], q);
      }
    }
  }

  /**
  The live file system. The steps in `faults` are hit by an I/O
  error; a step may also fail on its own, when its preconditions are not met.
  What a failing step leaves half-done is chosen arbitrarily.
  */
  class FileSystem {
    var tree: Tree
    var clock: nat
    const faults: set<nat>  // the steps hit by an I/O error
    ghost var lastFault: int  // the last step so far that was hit by an I/O error, or -1

    ghost predicate Valid()
      reads this
    {
      && WellFormed(tree)
      && -1 <= lastFault < clock
      && (lastFault >= 0 ==> lastFault in faults)
      && forall k | lastFault < k < clock :: k !in faults
    }

    /** What one more step makes of the last fault. */
    ghost function Faulted(step: nat, last: int): int {
      if step in faults then step else last
    }

    constructor (tree: Tree, faults: set<nat>)
      requires WellFormed(tree)
      ensures Valid() && this.tree == tree && this.faults == faults && clock == 0 && lastFault == -1
    {
      this.tree, this.faults, clock, lastFault := tree, faults, 0, -1;
    }

    function Exists(p: Path): (b: bool)
      reads this
    {
      p in tree
    }

    function IsDir(p: Path): (b: bool)
      reads this
    {
      p in tree && tree[p].Dir?
    }

    /** std::fs::create_dir_all. A failing call may have made some ancestors. */
    method CreateDirAll(p: Path) returns (ok: bool)
      requires Valid()
      modifies this
      ensures Valid() && clock == old(clock) + 1 && lastFault == Faulted(old(clock), old(lastFault))
      ensures ok <==> old(clock) !in faults && !Blocked(old(tree), p)
      ensures ok ==> forall n | 0 <= n <= |p| :: p[..n] in tree && tree[p[..n]] == Dir
      ensures forall q | q in old(tree) :: q in tree && tree[q] == old(tree)[q]
      ensures forall q | q in tree && q !in old(tree) :: q <= p && tree[q] == Dir && (!ok ==> q != p)
    {
      ok := clock !in faults && !Blocked(tree, p);
      lastFault, clock := Faulted(clock, lastFault), clock + 1;
      if ok {
        WithDirsWellFormed(tree, p);
        tree := WithDirs(tree, p);
      } else {
        var reach: nat := *;
        if 0 <= reach < |p| && !Blocked(tree, p[..reach]) {
          WithDirsWellFormed(tree, p[..reach]);
          tree := WithDirs(tree, p[..reach]);
        }
      }
    }

    /** std::fs::write. A failing call may leave a truncated file. */
    method Write(p: Path, content: string) returns (ok: bool)
      requires Valid() && p != [] && Parent(p) in tree && tree[Parent(p)] == Dir
      requires p in tree ==> tree[p].File?
      modifies this
      ensures Valid() && clock == old(clock) + 1 && lastFault == Faulted(old(clock), old(lastFault))
      ensures ok <==> old(clock) !in faults
      ensures ok ==> tree == old(tree)[p := File(content)]
      ensures !ok ==> tree == old(tree) || exists junk :: tree == old(tree)[p := File(junk)]
    {
      ok := clock !in faults;
      lastFault, clock := Faulted(clock, lastFault), clock + 1;
      var partial: bool := *;
      var text: string := *;
      if ok { text := content; }
      if ok || partial {
        tree := tree[p := File(text)];
        WriteWellFormed(old(tree), p, text);
      }
    }

    /** std::fs::read_to_string. */
    method Read(p: Path) returns (r: Option<string>)
      requires Valid()
      modifies this`clock, this`lastFault
      ensures Valid() && clock == old(clock) + 1 && lastFault == Faulted(old(clock), old(lastFault))
      ensures r.Some? <==> old(clock) !in faults && p in tree && tree[p].File?
      ensures r.Some? ==> tree[p] == File(r.value)
    {
      r := if clock !in faults && p in tree && tree[p].File? then Some(tree[p].content) else None;
      lastFault, clock := Faulted(clock, lastFault), clock + 1;
    }

    /** std::fs::rename. */
    method Rename(src: Path, dst: Path) returns (ok: bool)
      requires Valid()
      modifies this
      ensures Valid() && clock == old(clock) + 1 && lastFault == Faulted(old(clock), old(lastFault))
      ensures ok <==> old(clock) !in faults && CanRename(old(tree), src, dst)
      ensures tree == if ok then Renamed(old(tree), src, dst) else old(tree)
    {
      ok := clock !in faults && CanRename(tree, src, dst);
      lastFault, clock := Faulted(clock, lastFault), clock + 1;
      if ok {
        RenamedWellFormed(tree, src, dst);
        tree := Renamed(tree, src, dst);
      }
    }

    /** std::fs::remove_dir_all. A failing call may have removed part of the subtree. */
    method RemoveDirAll(p: Path) returns (ok: bool)
      requires Valid() && p != []
      modifies this
      ensures Valid() && clock == old(clock) + 1 && lastFault == Faulted(old(clock), old(lastFault))
      ensures ok <==> old(clock) !in faults && p in old(tree)
      ensures ok ==> tree == Prune(old(tree), p)
      ensures !ok ==> forall q | q in tree :: q in old(tree) && tree[q] == old(tree)[q]
      ensures !ok ==> forall q | q in old(tree) && !(p < q) :: q in tree
    {
      ok := clock !in faults && p in tree;
      lastFault, clock := Faulted(clock, lastFault), clock + 1;
      if ok {
        PruneWellFormed(tree, p);
        tree := Prune(tree, p);
      } else {
        var victims: set<Path> := *;
        tree := map q | q in tree && !(exists v | v in victims :: p < v && v <= q) :: tree[q];
        assert WellFormed(tree) by {
          forall q, n | q in tree && 0 <= n < |q|
            ensures q[..n] in tree && tree[q[..n]] == Dir
          {
            assert q in old(tree);
            forall v | v in victims
              ensures v <= q[..n] ==> v <= q
            {
              PrefixTrans(v, q[..n], q);
            }
          }
        }
      }
    }

    /** std::fs::remove_file. */
    method RemoveFile(p: Path) returns (ok: bool)
      requires Valid()
      modifies this
      ensures Valid() && clock == old(clock) + 1 && lastFault == Faulted(old(clock), old(lastFault))
      ensures ok <==> old(clock) !in faults && p in old(tree) && old(tree)[p].File?
      ensures tree == if ok then Prune(old(tree), p) else old(tree)
    {
      ok := clock !in faults && p in tree && tree[p].File?;
      lastFault, clock := Faulted(clock, lastFault), clock + 1;
      if ok {
        PruneWellFormed(tree, p);
        tree := Prune(tree, p);
      }
    }
  }

  lemma WriteWellFormed(t: Tree, p: Path, content: string)
    requires WellFormed(t) && p != [] && Parent(p) in t && t[Parent(p)] == Dir
    requires p in t ==> t[p].File?
    ensures WellFormed(t[p := File(content)])
  {
    var t' := t[p := File(content)];
    forall q, n | q in t' && 0 <= n < |q|
      ensures q[..n] in t' && t'[q[..n]] == Dir
    {
      if q == p {
        if n < |p| - 1 { assert q[..n] == Parent(p)[..n]; } else { assert q[..n] == Parent(p); }
      }
      assert q[..n] <= q;
      if p in t { LeafFile(t, p); } else { AbsentBelow(t, p); }
    }
  }
}
