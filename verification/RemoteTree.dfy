/** A remote file tree and the SFTP calls the WebDAV server makes on it. Every
    call may fail at any time, and a failed write may leave a partial file. */
module RemoteTree {
  import opened Optional

  /** Names from the root down. */
  type Path = seq<string>

  datatype Node = Dir | File(content: seq<int>)

  type Tree = map<Path, Node>

  function At(t: Tree, p: Path): Option<Node> {
    if p in t then Some(t[p]) else None
  }

  function Parent(p: Path): Path
    requires p != []
  {
    p[..|p| - 1]
  }

  predicate InDirectory(t: Tree, p: Path) {
    p != [] && At(t, Parent(p)) == Some(Dir)
  }

  predicate CanWrite(t: Tree, p: Path) {
    InDirectory(t, p) && At(t, p) != Some(Dir)
  }

  predicate CanRename(t: Tree, src: Path, dest: Path) {
    src in t && dest !in t && InDirectory(t, dest) && !(src <= dest)
  }

  /** Every path but the root lies in a directory. */
  ghost predicate WellFormed(t: Tree) {
    forall p | p in t && p != [] :: InDirectory(t, p)
  }

  /** The same place below `to` as `p` is below `from`. */
  function Swap(p: Path, from: Path, onto: Path): Path
    requires from <= p
  {
    onto + p[|from|..]
  }

  ghost function Under(t: Tree, p: Path): set<Path> {
    set q | q in t && p <= q
  }

  /** The tree with `src` put in the place of `dest`: what an atomic rename gives
      when that place is free. */
  function Moved(t: Tree, src: Path, dest: Path): Tree {
    (map p | p in t && !(src <= p) && !(dest <= p) :: t[p])
    + (map p | p in (set q | q in t && src <= q :: Swap(q, src, dest)) && dest <= p && Swap(p, dest, src) in t
       :: t[Swap(p, dest, src)])
  }

  datatype MkdirResult = Made | Exists | MkdirFailed

  datatype RenameResult = Renamed | CrossDevice | RenameFailed

  predicate IsFile(t: Tree, p: Path) {
    p in t && t[p].File?
  }

  /** `failed` records whether a call that the tree allows has not worked, and `crossed`
      whether the last rename was refused because of different devices. */
  class Remote {
    const limit: nat   // no server makes directories on paths of any length
    var tree: Tree
    ghost var failed: bool
    ghost var crossed: bool

    constructor (tree: Tree, limit: nat)
      ensures this.tree == tree && this.limit == limit && !failed && !crossed
    {
      this.tree, this.limit := tree, limit;
      failed, crossed := false, false;
    }

    method Stat(p: Path) returns (node: Option<Node>)
      modifies this`failed
      ensures node.Some? ==> node == At(tree, p)
      ensures failed <==> old(failed) || (p in tree && node.None?)
    {
      var ok: bool := *;
      node := if ok && p in tree then Some(tree[p]) else None;
      failed := failed || (p in tree && node.None?);
    }

    method ReadDir(p: Path) returns (ok: bool, names: seq<string>)
      modifies this`failed
      ensures failed <==> old(failed) || (At(tree, p) == Some(Dir) && !ok)
      ensures ok ==> At(tree, p) == Some(Dir)
      ensures ok ==> forall n :: n in names <==> p + [n] in tree
      ensures ok ==> forall i, j | 0 <= i < j < |names| :: names[i] != names[j]
    {
      ok, names := *, [];
      failed := failed || (At(tree, p) == Some(Dir) && !ok);
      if At(tree, p) != Some(Dir) {
        ok := false;
      }
      if ok {
        var todo := set q | q in tree && |q| == |p| + 1 && p <= q :: q[|p|];
        ghost var all := todo;
        assert forall q | q in tree && |q| == |p| + 1 && p <= q :: q == p + [q[|p|]];
        assert forall n :: n in all <==> p + [n] in tree by {
          forall n | p + [n] in tree ensures n in all { assert (p + [n])[|p|] == n; }
        }
        while todo != {}
          invariant todo <= all
          invariant forall n :: n in names <==> n in all - todo
          invariant forall i, j | 0 <= i < j < |names| :: names[i] != names[j]
        {
          var n :| n in todo;
          assert n !in names;
          names, todo := names + [n], todo - {n};
        }
      }
    }

    method Mkdir(p: Path) returns (r: MkdirResult)
      modifies this
      ensures r.Made? ==> p !in old(tree) && InDirectory(old(tree), p) && tree == old(tree)[p := Dir]
      ensures r.Exists? ==> p in tree
      ensures !r.MkdirFailed? ==> |p| <= limit
      ensures !r.Made? ==> tree == old(tree)
      ensures crossed == old(crossed)
      ensures failed <==> (
        || old(failed)
        || (r.MkdirFailed? && |p| <= limit && (p in old(tree) || InDirectory(old(tree), p))))
    {
      var ok: bool := *;
      if |p| > limit {
        return MkdirFailed;
      }
      if ok && p in tree {
        return Exists;
      }
      if ok && InDirectory(tree, p) {
        tree := tree[p := Dir];
        return Made;
      }
      failed := failed || p in tree || InDirectory(tree, p);
      return MkdirFailed;
    }

    method Open(p: Path) returns (ok: bool)
      modifies this`failed
      ensures ok ==> IsFile(tree, p)
      ensures failed <==> old(failed) || (IsFile(tree, p) && !ok)
    {
      ok := *;
      failed := failed || (IsFile(tree, p) && !ok);
      if !IsFile(tree, p) {
        ok := false;
      }
    }

    /** Creates the file, or empties one that is there. */
    method Create(p: Path) returns (ok: bool)
      modifies this
      ensures ok ==> CanWrite(old(tree), p) && tree == old(tree)[p := File([])]
      ensures !ok ==> tree == old(tree)
      ensures crossed == old(crossed) && (failed <==> old(failed) || (CanWrite(old(tree), p) && !ok))
    {
      ok := *;
      failed := failed || (CanWrite(tree, p) && !ok);
      if !CanWrite(tree, p) {
        ok := false;
      }
      if ok {
        tree := tree[p := File([])];
      }
    }

    /** Streams one file into another, reading as it goes; on failure a part of it
        may be there. */
    method Stream(src: Path, dest: Path) returns (ok: bool)
      requires src in tree && tree[src].File? && dest in tree && tree[dest] == File([])
      modifies this
      ensures exists part | part <= old(tree)[src].content ::
        tree == old(tree)[dest := File(part)] && (ok ==> part == old(tree)[src].content)
      ensures crossed == old(crossed) && (failed <==> old(failed) || !ok)
    {
      var content := tree[src].content;
      var sent :| 0 <= sent <= |content|;
      assert content[..|content|] == content;
      tree := tree[dest := File(content[..sent])];
      ok := sent == |content|;
      failed := failed || !ok;
    }

    method Rename(src: Path, dest: Path) returns (r: RenameResult)
      modifies this
      ensures r.Renamed? ==> CanRename(old(tree), src, dest) && tree == Moved(old(tree), src, dest)
      ensures !r.Renamed? ==> tree == old(tree)
      ensures crossed <==> r.CrossDevice?
      ensures failed <==> old(failed) || (r.RenameFailed? && CanRename(old(tree), src, dest))
    {
      r := *;
      crossed := r.CrossDevice?;
      failed := failed || (r.RenameFailed? && CanRename(tree, src, dest));
      if r.Renamed? {
        if !CanRename(tree, src, dest) {
          return RenameFailed;
        }
        tree := Moved(tree, src, dest);
      }
    }

    /** Removes a subtree; a failure may leave any part of it behind. */
    method RemoveAll(p: Path) returns (ok: bool)
      modifies this
      ensures forall q | !(p <= q) :: At(tree, q) == At(old(tree), q)
      ensures ok ==> forall q | p <= q :: q !in tree
      ensures forall q | q in tree :: At(tree, q) == At(old(tree), q)
      ensures crossed == old(crossed) && (failed <==> old(failed) || !ok)
    {
      ok := true;
      var todo := set q | q in tree && p <= q;
      while todo != {} && ok
        invariant forall q | q in tree && p <= q :: q in todo
        invariant forall q | !(p <= q) :: At(tree, q) == At(old(tree), q)
        invariant forall q | q in tree :: At(tree, q) == At(old(tree), q)
        invariant forall q | q in todo :: p <= q
        invariant crossed == old(crossed) && (failed <==> old(failed) || !ok)
        decreases todo, ok
      {
        ok := *;
        failed := failed || !ok;
        if ok {
          var q :| q in todo;
          tree, todo := tree - {q}, todo - {q};
        }
      }
    }
  }
}
