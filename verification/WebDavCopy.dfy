/** WebDAV COPY and MOVE (sections 9.8 and 9.9 of RFC 4918) over SFTP. */
module WebDavCopy {
  import opened Optional
  import opened RemoteTree

  /** What a place holds after something is copied onto it: a file replaces, a
      directory merges. A directory copied onto a file leaves the file, because
      the failed mkdir is taken for an existing directory; copying its children
      fails, so this can only end in success if there are none. */
  function Over(source: Option<Node>, target: Option<Node>): Option<Node> {
    match source
    case None => target
    case Some(File(_)) => source
    case Some(Dir) => if target.Some? && target.value.File? then target else source
  }

  /** What reading a place of the source yields. A file copied onto itself has been
      emptied before it is read. */
  function Read(t: Tree, p: Path, onto: Path): Option<Node> {
    if p == onto && p in t && t[p].File? then Some(File([])) else At(t, p)
  }

  function Expected(t: Tree, src: Path, dest: Path, p: Path): Option<Node> {
    if dest <= p then Over(Read(t, Swap(p, dest, src), p), At(t, p)) else At(t, p)
  }

  /** `u` is `t` after copying `src` onto `dest`; nothing else has changed. */
  ghost predicate Copied(t: Tree, u: Tree, src: Path, dest: Path) {
    forall p :: At(u, p) == Expected(t, src, dest, p)
  }

  /** Some children have been copied, the others not touched. */
  ghost predicate PartCopied(t: Tree, u: Tree, src: Path, dest: Path, done: seq<string>) {
    forall p :: At(u, p) ==
      if dest <= p && (|p| == |dest| || p[|dest|] in done) then Expected(t, src, dest, p) else At(t, p)
  }

  /** Nothing outside `dest` has changed and nothing at all has been removed. */
  ghost predicate OnlyAdded(t: Tree, u: Tree, dest: Path) {
    t.Keys <= u.Keys && forall p :: !(dest <= p) ==> At(u, p) == At(t, p)
  }

  /** Everything in the source has a place at the destination. */
  ghost predicate Covers(t: Tree, u: Tree, src: Path, dest: Path) {
    forall p | p in t && src <= p :: Swap(p, src, dest) in u
  }

  predicate Apart(src: Path, dest: Path) {
    !(src <= dest) && !(dest <= src)
  }

  /** The destination is a place within the source. */
  predicate Inside(src: Path, dest: Path) {
    src <= dest && src != dest
  }

  /** Enough for a result that no listing order affects, as nothing is written into
      what is still to be copied (yet not necessary): the two do not overlap,
      or are the same, or the destination lies above and no entry of the source has
      the name that leads down to the source. */
  predicate Clear(t: Tree, src: Path, dest: Path) {
    Apart(src, dest) || src == dest || (Inside(dest, src) && src + [src[|dest|]] !in t)
  }

  method CopyFile(remote: Remote, src: Path, dest: Path) returns (ok: bool)
    requires WellFormed(remote.tree)
    modifies remote
    ensures ok ==> src in old(remote.tree) && old(remote.tree)[src].File? && CanWrite(old(remote.tree), dest)
    ensures ok ==> remote.tree == old(remote.tree)[dest := Read(old(remote.tree), src, dest).value]
    ensures !ok ==>
      || remote.tree == old(remote.tree)
      || (CanWrite(old(remote.tree), dest) && exists part :: remote.tree == old(remote.tree)[dest := File(part)])
    ensures remote.crossed == old(remote.crossed) && (ok || old(remote.failed) ==> remote.failed == old(remote.failed))
    ensures !old(remote.failed) && IsFile(old(remote.tree), src) ==>
      (ok <==> CanWrite(old(remote.tree), dest) && !remote.failed)
  {
    ok := remote.Open(src);
    if !ok {
      return;
    }
    ok := remote.Create(dest);
    if !ok {
      return;
    }
    ghost var created := remote.tree;
    ok := remote.Stream(src, dest);
    assert forall part :: created[dest := File(part)] == old(remote.tree)[dest := File(part)];
  }

  /** Nothing disappears or turns from a directory into a file or back. */
  ghost predicate SameKinds(t: Tree, u: Tree) {
    forall p | p in t :: p in u && (t[p].Dir? <==> u[p].Dir?)
  }

  /** What stands in the way of a place below the source: a file where a directory is
      needed, a directory where a file is, or the server's limit. */
  predicate Fits(t: Tree, src: Path, dest: Path, limit: nat, p: Path)
    requires p in t && src <= p && p != src
  {
    var q := Swap(p, src, dest);
    && !IsFile(t, Parent(q)) && (t[p].File? ==> At(t, q) != Some(Dir)) && (t[p].Dir? ==> |q| <= limit)
  }

  predicate TopFits(t: Tree, src: Path, dest: Path, limit: nat) {
    && src in t
    && (if t[src].File? then CanWrite(t, dest) else |dest| <= limit && (dest in t || InDirectory(t, dest)))
  }

  /** The tree allows the copy. */
  ghost predicate Possible(t: Tree, src: Path, dest: Path, limit: nat) {
    TopFits(t, src, dest, limit) && forall p | p in t && src <= p && p != src :: Fits(t, src, dest, limit, p)
  }

  /** Where the result does not depend on the order of the listings, a copy succeeds
      exactly when the tree allows it and no call fails. */
  ghost predicate Fair(t: Tree, src: Path, dest: Path, limit: nat, ok: bool, failed: bool) {
    Clear(t, src, dest) ==> (ok <==> Possible(t, src, dest, limit) && !failed)
  }

  /** Always ends. For a destination within the source that is due to the server's
      limit on paths alone, and never with success; for every other one the recursion
      is as deep as the source. */
  method CopyRecursive(remote: Remote, src: Path, dest: Path) returns (ok: bool)
    requires WellFormed(remote.tree)
    modifies remote
    ensures Outcome(old(remote.tree), remote.tree, src, dest, remote.limit, old(remote.failed), ok, remote.failed)
    ensures remote.crossed == old(remote.crossed)
    decreases Room(remote.limit, src, dest), Height(remote.tree, src), 1
  {
    ghost var t := remote.tree;
    var node := remote.Stat(src);
    if node.None? {
      Unchanged(t, src, dest, remote.limit, old(remote.failed), remote.failed);
      return false;
    }
    if node.value.File? {
      ok := CopyFile(remote, src, dest);
      FileOutcome(t, remote.tree, src, dest, remote.limit, old(remote.failed), ok, remote.failed);
      return;
    }
    ok := CopyDirectory(remote, src, dest);
  }

  method CopyDirectory(remote: Remote, src: Path, dest: Path) returns (ok: bool)
    requires WellFormed(remote.tree) && At(remote.tree, src) == Some(Dir)
    modifies remote
    ensures Outcome(old(remote.tree), remote.tree, src, dest, remote.limit, old(remote.failed), ok, remote.failed)
    ensures remote.crossed == old(remote.crossed)
    decreases Room(remote.limit, src, dest), Height(remote.tree, src), 0
  {
    ghost var t := remote.tree;
    var made := remote.Mkdir(dest);
    if made.MkdirFailed? {
      Unchanged(t, src, dest, remote.limit, old(remote.failed), remote.failed);
      return false;
    }
    var listed, names := remote.ReadDir(src);
    Begun(t, remote.tree, src, dest, remote.limit, old(remote.failed));
    if !listed {
      return false;
    }
    ghost var listing := remote.tree;
    if !Inside(src, dest) { ListedBefore(t, listing, src, dest, names); }
    for i := 0 to |names|
      invariant InCourse(t, listing, remote.tree, src, dest, names[..i])
      invariant !old(remote.failed) ==> ChildrenFit(t, src, dest, remote.limit, names[..i])
      invariant remote.failed == old(remote.failed) && remote.crossed == old(remote.crossed)
    {
      ghost var before := remote.tree;
      ChildShrinks(t, listing, before, src, dest, names[i], remote.limit);
      var copied := CopyRecursive(remote, src + [names[i]], dest + [names[i]]);
      ChildStep(t, listing, before, remote.tree, src, dest, names, i, remote.limit, old(remote.failed), copied, remote.failed);
      if !copied {
        return false;
      }
    }
    AllDone(t, listing, remote.tree, src, dest, names);
    if !old(remote.failed) { AllFit(t, src, dest, remote.limit, names); }
    return true;
  }

  /** What a copy leaves, whether it succeeds and whether calls have failed. */
  ghost predicate Outcome(t: Tree, u: Tree, src: Path, dest: Path, limit: nat, wasFailed: bool, ok: bool, failed: bool) {
    && Sound(t, u, src, dest) && (ok ==> Done(t, u, src, dest))
    && (wasFailed ==> failed) && (ok ==> failed == wasFailed)
    && (!wasFailed ==> Fair(t, src, dest, limit, ok, failed))
  }

  ghost predicate InCourse(t: Tree, listing: Tree, u: Tree, src: Path, dest: Path, done: seq<string>) {
    Sound(t, u, src, dest) && SameKinds(listing, u) && ChildrenDone(t, u, src, dest, done)
  }

  /** A copy that has failed on the spot. */
  lemma Unchanged(t: Tree, src: Path, dest: Path, limit: nat, wasFailed: bool, failed: bool)
    requires WellFormed(t) && (wasFailed ==> failed)
    requires src !in t || failed || (At(t, src) == Some(Dir) && !TopFits(t, src, dest, limit))
    ensures Outcome(t, t, src, dest, limit, wasFailed, false, failed)
  {}

  lemma FileOutcome(t: Tree, u: Tree, src: Path, dest: Path, limit: nat, wasFailed: bool, ok: bool, failed: bool)
    requires WellFormed(t) && IsFile(t, src) && (wasFailed ==> failed) && (ok ==> failed == wasFailed)
    requires if ok then CanWrite(t, dest) && u == t[dest := Read(t, src, dest).value]
             else u == t || (CanWrite(t, dest) && exists part :: u == t[dest := File(part)])
    requires !wasFailed ==> (ok <==> CanWrite(t, dest) && !failed)
    ensures Outcome(t, u, src, dest, limit, wasFailed, ok, failed)
  {
    FilePossible(t, src, dest, limit);
    if u != t {
      FileWritten(t, u, src, dest);
    }
    if ok { FileCopied(t, u, src, dest); }
    assert u == t ==> Sound(t, u, src, dest);
  }

  lemma Begun(t: Tree, u: Tree, src: Path, dest: Path, limit: nat, wasFailed: bool)
    requires WellFormed(t) && At(t, src) == Some(Dir) && |dest| <= limit
    requires if dest in t then u == t else InDirectory(t, dest) && u == t[dest := Dir]
    ensures InCourse(t, u, u, src, dest, []) && ChildrenFit(t, src, dest, limit, [])
    ensures Outcome(t, u, src, dest, limit, wasFailed, false, true)
    ensures TopFits(t, src, dest, limit) && At(u, src) == Some(Dir)
  {
    DirectoryMade(t, u, src, dest);
  }

  /** One more child, copied or not. */
  lemma ChildStep(t: Tree, listing: Tree, before: Tree, after: Tree, src: Path, dest: Path, names: seq<string>, i: nat,
                  limit: nat, wasFailed: bool, ok: bool, failed: bool)
    requires i < |names| && forall j, k | 0 <= j < k < |names| :: names[j] != names[k]
    requires !Inside(src, dest) ==> forall n | n in names :: src + [n] in t
    requires WellFormed(t) && At(t, src) == Some(Dir)
    requires InCourse(t, listing, before, src, dest, names[..i])
    requires !wasFailed ==> ChildrenFit(t, src, dest, limit, names[..i])
    requires Outcome(before, after, src + [names[i]], dest + [names[i]], limit, wasFailed, ok, failed)
    ensures ok ==> InCourse(t, listing, after, src, dest, names[..i + 1])
    ensures ok && !wasFailed ==> ChildrenFit(t, src, dest, limit, names[..i + 1])
    ensures !ok ==> Outcome(t, after, src, dest, limit, wasFailed, false, failed)
  {
    NextChild(t, before, src, dest, names, i, limit);
    ChildSound(t, before, after, src, dest, names[i]);
    if ok {
      ChildDone(t, before, after, src, dest, names, i);
      if !wasFailed { NextFits(t, before, src, dest, names, i, limit); }
    }
  }

  /** What holds of the tree at any time during a copy. */
  ghost predicate Sound(t: Tree, u: Tree, src: Path, dest: Path) {
    && WellFormed(u) && SameKinds(t, u) && OnlyAdded(t, u, dest)
    && (!Inside(src, dest) ==> NoDeeper(t, u, src, dest))
  }

  ghost predicate ChildrenDone(t: Tree, u: Tree, src: Path, dest: Path, done: seq<string>) {
    && dest in u
    && (if Inside(src, dest) then dest[|src|] !in done else PartCovered(t, u, src, dest, done))
    && (Clear(t, src, dest) ==> PartCopied(t, u, src, dest, done))
  }

  ghost predicate Done(t: Tree, u: Tree, src: Path, dest: Path) {
    && src in t && Covers(t, u, src, dest) && !Inside(src, dest)
    && (Clear(t, src, dest) ==> Copied(t, u, src, dest))
  }

  // ---- the steps of the proof ----

  /** The longest path in a set. */
  ghost function Longest(ps: set<Path>): (n: nat)
    ensures forall p | p in ps :: |p| <= n
    ensures ps != {} ==> exists p :: p in ps && |p| == n
  {
    if ps == {} then 0
    else
      var p :| p in ps;
      var n := Longest(ps - {p});
      assert ps - {p} != {} ==> exists q :: q in ps && |q| == n;
      if |p| > n then |p| else if ps - {p} == {} then |p| else n
  }

  ghost function Depth(t: Tree, src: Path): nat {
    Longest(Under(t, src))
  }

  /** How far the source reaches down. */
  ghost function Height(t: Tree, src: Path): nat
  {
    if src in t && Depth(t, src) >= |src| then Depth(t, src) - |src| + 1 else 0
  }

  /** A copy adds nothing deeper below `dest` than the source is below `src`. */
  ghost predicate NoDeeper(t: Tree, u: Tree, src: Path, dest: Path) {
    forall p | p in u && p !in t :: |p| + |src| <= Depth(t, src) + |dest|
  }

  /** How much deeper a destination within the source can still get. */
  function Room(limit: nat, src: Path, dest: Path): nat {
    if !Inside(src, dest) then 0 else if |dest| > limit then 1 else limit - |dest| + 2
  }

  lemma ChildHasLessRoom(limit: nat, src: Path, dest: Path, e: string)
    requires Inside(src, dest) && |dest| <= limit
    ensures Room(limit, src + [e], dest + [e]) < Room(limit, src, dest)
  {}

  /** The way down to the destination is a child of the source whose copy is inside
      itself again, so it is not one of those that succeed. */
  lemma NotOntoItself(src: Path, dest: Path, e: string)
    requires Inside(src, dest) && !Inside(src + [e], dest + [e])
    ensures e != dest[|src|]
  {
    assert dest[..|src| + 1] == src + [dest[|src|]];
  }

  /** But it is one of those that are listed. */
  lemma FindsItself(t: Tree, src: Path, dest: Path, names: seq<string>)
    requires WellFormed(t) && Inside(src, dest) && dest in t
    requires forall n :: n in names <==> src + [n] in t
    ensures dest[|src|] in names[..|names|]
  {
    assert dest[..|src| + 1] == src + [dest[|src|]];
    PrefixIn(t, src + [dest[|src|]], dest);
  }

  lemma FileWritten(t: Tree, u: Tree, src: Path, dest: Path)
    requires WellFormed(t) && src in t && CanWrite(t, dest)
    requires u == t || exists part :: u == t[dest := File(part)]
    ensures WellFormed(u) && SameKinds(t, u) && OnlyAdded(t, u, dest) && NoDeeper(t, u, src, dest)
  {
    assert src in Under(t, src);
    forall p | p in u && p != []
      ensures InDirectory(u, p)
    {
      if p != dest {
        assert InDirectory(t, p);
      }
    }
  }

  lemma FileCopied(t: Tree, u: Tree, src: Path, dest: Path)
    requires WellFormed(t) && src in t && t[src].File? && u == t[dest := Read(t, src, dest).value]
    requires CanWrite(t, dest)
    ensures Copied(t, u, src, dest) && Covers(t, u, src, dest) && !Inside(src, dest)
  {
    if Inside(src, dest) { NoRoomInFile(t, src, dest); }
    forall p | dest <= p
      ensures At(u, p) == Expected(t, src, dest, p)
    {
      if p == dest {
        assert Swap(p, dest, src) == src;
      } else {
        assert |Swap(p, dest, src)| > |src|;
        NothingUnderFile(t, src, Swap(p, dest, src));
      }
    }
    forall p | p in t && src <= p
      ensures Swap(p, src, dest) in u
    {
      if p != src { NothingUnderFile(t, src, p); }
      assert Swap(src, src, dest) == dest;
    }
  }

  lemma NoRoomInFile(t: Tree, f: Path, p: Path)
    requires WellFormed(t) && At(t, f) != Some(Dir) && Inside(f, p)
    ensures !CanWrite(t, p)
  {
    if f != Parent(p) { NothingUnderFile(t, f, Parent(p)); }
  }

  lemma DirectoryMade(t: Tree, u: Tree, src: Path, dest: Path)
    requires WellFormed(t) && At(t, src) == Some(Dir)
    requires u == t || (dest !in t && InDirectory(t, dest) && u == t[dest := Dir])
    ensures WellFormed(u) && SameKinds(t, u) && OnlyAdded(t, u, dest) && NoDeeper(t, u, src, dest)
    ensures dest in u ==> PartCopied(t, u, src, dest, [])
  {
    assert src in Under(t, src);
    assert forall p | p in u && p != [] && p != dest :: InDirectory(t, p);
    if dest in u {
      assert Swap(dest, dest, src) == src;
      assert forall p | dest <= p && |p| == |dest| :: p == dest;
    }
  }

  /** Only a directory has anything below it. */
  lemma {:induction false} NothingUnderFile(t: Tree, f: Path, p: Path)
    requires WellFormed(t) && At(t, f) != Some(Dir) && f <= p && p != f
    ensures p !in t
    decreases |p|
  {
    if p in t {
      assert InDirectory(t, p);
      if Parent(p) != f {
        NothingUnderFile(t, f, Parent(p));
      }
    }
  }

  lemma Comparable(a: Path, b: Path, p: Path)
    requires a <= p && b <= p
    ensures a <= b || b <= a
  {
    if |a| <= |b| {
      assert a == p[..|a|] == b[..|a|];
    } else {
      assert b == p[..|b|] == a[..|b|];
    }
  }

  lemma DisjointPlaces(src: Path, dest: Path, p: Path)
    requires Apart(src, dest) && src <= p
    ensures !(dest <= p)
  {
    if dest <= p { Comparable(src, dest, p); }
  }

  lemma ListedBefore(t: Tree, u: Tree, src: Path, dest: Path, names: seq<string>)
    requires At(t, src) == Some(Dir) && !Inside(src, dest) && (u == t || u == t[dest := Dir])
    requires forall n :: n in names <==> src + [n] in u
    ensures forall n :: n in names <==> src + [n] in t
  {
    forall n
      ensures n in names <==> src + [n] in t
    {
      assert src <= src + [n] && src != src + [n];
    }
  }

  lemma ParentsPrefix(p: Path, a: string, q: Path, b: string)
    requires p + [a] <= q + [b]
    ensures p <= q
  {
    assert p == (q + [b])[..|p|];
  }

  lemma ChildIsSmaller(t: Tree, before: Tree, src: Path, dest: Path, e: string)
    requires OnlyAdded(t, before, dest) && NoDeeper(t, before, src, dest) && !Inside(src, dest)
    requires src in t && src + [e] in t
    ensures !Inside(src + [e], dest + [e])
    ensures Depth(before, src + [e]) <= Depth(t, src) && Height(before, src + [e]) < Height(t, src)
  {
    if src + [e] <= dest + [e] { ParentsPrefix(src, e, dest, e); }
    assert src in Under(t, src) && src + [e] in Under(before, src + [e]);
    var p :| p in Under(before, src + [e]) && |p| == Depth(before, src + [e]);
    assert src <= src + [e] <= p;
    if p in t {
      assert p in Under(t, src);
    } else {
      assert !(dest <= p) ==> At(before, p) == At(t, p);
      NotDeeperThanSource(t, src, dest, p);
    }
  }

  /** A path that was added and lies in the source can only be there because the
      destination is above the source, so it is no deeper than what was there. */
  lemma NotDeeperThanSource(t: Tree, src: Path, dest: Path, p: Path)
    requires src <= p && dest <= p && !Inside(src, dest) && |p| + |src| <= Depth(t, src) + |dest|
    ensures |p| <= Depth(t, src)
  {
    Comparable(src, dest, p);
  }

  lemma ChildShrinks(t: Tree, listing: Tree, before: Tree, src: Path, dest: Path, e: string, limit: nat)
    requires Sound(t, before, src, dest) && SameKinds(listing, before)
    requires src in t && src + [e] in listing && (if Inside(src, dest) then |dest| <= limit else src + [e] in t)
    ensures Room(limit, src + [e], dest + [e]) < Room(limit, src, dest)
      || (Room(limit, src + [e], dest + [e]) == Room(limit, src, dest) && Height(before, src + [e]) < Height(t, src))
  {
    if Inside(src, dest) {
      ChildHasLessRoom(limit, src, dest, e);
    } else {
      ChildIsSmaller(t, before, src, dest, e);
    }
  }

  /** Whatever becomes of a child, the tree stays sound. */
  lemma ChildSound(t: Tree, before: Tree, after: Tree, src: Path, dest: Path, e: string)
    requires Sound(t, before, src, dest) && Sound(before, after, src + [e], dest + [e])
    requires !Inside(src, dest) ==> src in t && src + [e] in t
    ensures Sound(t, after, src, dest)
  {
    OnlyAddedChain(t, before, after, dest, e);
    if !Inside(src, dest) {
      ChildIsSmaller(t, before, src, dest, e);
      NoDeeperChain(t, before, after, src, dest, e);
    }
  }

  lemma ChildDone(t: Tree, before: Tree, after: Tree, src: Path, dest: Path, names: seq<string>, i: nat)
    requires i < |names| && forall j, k | 0 <= j < k < |names| :: names[j] != names[k]
    requires !Inside(src, dest) ==> forall n | n in names :: src + [n] in t
    requires t.Keys <= before.Keys && before.Keys <= after.Keys
    requires ChildrenDone(t, before, src, dest, names[..i])
    requires Done(before, after, src + [names[i]], dest + [names[i]])
    ensures ChildrenDone(t, after, src, dest, names[..i + 1])
  {
    if Inside(src, dest) {
      StillNotListed(src, dest, names, i);
      InsideNotClear(t, src, dest);
    } else {
      ChildCovered(t, before, after, src, dest, names, i);
      if Clear(t, src, dest) { ChildCopied(t, before, after, src, dest, names, i); }
    }
  }

  lemma StillNotListed(src: Path, dest: Path, names: seq<string>, i: nat)
    requires i < |names| && Inside(src, dest) && dest[|src|] !in names[..i]
    requires !Inside(src + [names[i]], dest + [names[i]])
    ensures dest[|src|] !in names[..i + 1]
  {
    NotOntoItself(src, dest, names[i]);
    assert names[..i + 1] == names[..i] + [names[i]];
  }

  lemma InsideNotClear(t: Tree, src: Path, dest: Path)
    requires Inside(src, dest)
    ensures !Clear(t, src, dest)
  {}

  lemma AllDone(t: Tree, listing: Tree, u: Tree, src: Path, dest: Path, names: seq<string>)
    requires WellFormed(t) && At(t, src) == Some(Dir) && WellFormed(listing) && dest in listing
    requires forall n :: n in names <==> src + [n] in listing
    requires !Inside(src, dest) ==> forall n :: n in names <==> src + [n] in t
    requires ChildrenDone(t, u, src, dest, names[..|names|])
    ensures Done(t, u, src, dest)
  {
    if Inside(src, dest) { FindsItself(listing, src, dest, names); }
    AllCovered(t, u, src, dest, names);
    if Clear(t, src, dest) { AllCopied(t, u, src, dest, names); }
  }

  lemma NoDeeperChain(t: Tree, before: Tree, after: Tree, src: Path, dest: Path, e: string)
    requires NoDeeper(t, before, src, dest) && NoDeeper(before, after, src + [e], dest + [e])
    requires Depth(before, src + [e]) <= Depth(t, src)
    ensures NoDeeper(t, after, src, dest)
  {}

  // ---- when a copy is possible ----

  lemma FilePossible(t: Tree, src: Path, dest: Path, limit: nat)
    requires WellFormed(t) && IsFile(t, src)
    ensures Possible(t, src, dest, limit) <==> CanWrite(t, dest)
  {
    forall p | src <= p && p != src
      ensures p !in t
    {
      NothingUnderFile(t, src, p);
    }
  }

  /** The children treated so far fit. */
  ghost predicate PartFits(t: Tree, src: Path, dest: Path, limit: nat, done: seq<string>) {
    forall p | p in t && src <= p && p != src && p[|src|] in done :: Fits(t, src, dest, limit, p)
  }

  ghost predicate ChildFits(t: Tree, src: Path, dest: Path, limit: nat, e: string) {
    forall p | p in t && src + [e] <= p :: src <= p && p != src && Fits(t, src, dest, limit, p)
  }

  ghost predicate ChildrenFit(t: Tree, src: Path, dest: Path, limit: nat, done: seq<string>) {
    Clear(t, src, dest) ==> PartFits(t, src, dest, limit, done)
  }

  /** The outcome for the next child: its copy is clear as well, and possible exactly
      when all of it fits, whatever has been copied before. */
  ghost predicate ChildVerdict(t: Tree, before: Tree, src: Path, dest: Path, limit: nat, e: string) {
    Clear(t, src, dest) ==>
      && Clear(before, src + [e], dest + [e])
      && (Possible(before, src + [e], dest + [e], limit) <==> ChildFits(t, src, dest, limit, e))
      && (Possible(t, src, dest, limit) ==> ChildFits(t, src, dest, limit, e))
  }

  lemma NextChild(t: Tree, before: Tree, src: Path, dest: Path, names: seq<string>, i: nat, limit: nat)
    requires i < |names| && forall j, k | 0 <= j < k < |names| :: names[j] != names[k]
    requires !Inside(src, dest) ==> forall n | n in names :: src + [n] in t
    requires WellFormed(t) && WellFormed(before) && At(t, src) == Some(Dir)
    requires ChildrenDone(t, before, src, dest, names[..i])
    ensures ChildVerdict(t, before, src, dest, limit, names[i])
  {
    if Clear(t, src, dest) {
      if Inside(src, dest) { InsideNotClear(t, src, dest); }
      assert names[i] !in names[..i];
      ChildPossible(t, before, src, dest, names[..i], names[i], limit);
    }
  }

  lemma ChildPossible(t: Tree, before: Tree, src: Path, dest: Path, done: seq<string>, e: string, limit: nat)
    requires e !in done && src + [e] in t && forall n | n in done :: src + [n] in t
    requires WellFormed(t) && WellFormed(before) && At(t, src) == Some(Dir) && Clear(t, src, dest)
    requires dest in before && PartCopied(t, before, src, dest, done)
    ensures ChildVerdict(t, before, src, dest, limit, e)
  {
    ChildKept(t, before, src, dest, done, e);
    ChildClear(t, src, dest, e);
    Untouched(t, before, src, dest, done, e);
    ChildPossibleIff(t, before, src, dest, limit, e);
    PossibleChild(t, src, dest, limit, e);
  }

  lemma PossibleChild(t: Tree, src: Path, dest: Path, limit: nat, e: string)
    ensures Possible(t, src, dest, limit) ==> ChildFits(t, src, dest, limit, e)
  {
    BelowChild(t, src, e);
  }

  lemma NextFits(t: Tree, before: Tree, src: Path, dest: Path, names: seq<string>, i: nat, limit: nat)
    requires i < |names| && ChildrenFit(t, src, dest, limit, names[..i])
    requires ChildVerdict(t, before, src, dest, limit, names[i])
    requires Clear(t, src, dest) ==> Possible(before, src + [names[i]], dest + [names[i]], limit)
    ensures ChildrenFit(t, src, dest, limit, names[..i + 1])
  {
    assert names[..i + 1] == names[..i] + [names[i]];
    BelowChild(t, src, names[i]);
  }

  lemma Untouched(t: Tree, before: Tree, src: Path, dest: Path, done: seq<string>, e: string)
    requires PartCopied(t, before, src, dest, done) && e !in done && At(t, src) == Some(Dir) && dest in before
    ensures forall q | dest + [e] <= q :: At(before, q) == At(t, q)
    ensures At(before, dest) == Some(Dir) <==> !IsFile(t, dest)
  {
    assert Swap(dest, dest, src) == src;
    forall q | dest + [e] <= q
      ensures At(before, q) == At(t, q)
    {
      ChildPlace(src, dest, e, q);
    }
  }

  lemma BelowChild(t: Tree, src: Path, e: string)
    ensures forall p | src + [e] <= p :: src <= p && p != src && p[|src|] == e
    ensures forall p | src <= p && p != src && p[|src|] == e :: src + [e] <= p
  {
    forall p | src <= p && p != src && p[|src|] == e
      ensures src + [e] <= p
    {
      assert p[..|src| + 1] == src + [e];
    }
  }

  /** Below a child, the tree in course reads as it did before the copy. */
  ghost predicate SameBelow(t: Tree, before: Tree, src: Path, dest: Path, e: string) {
    && (forall p | src + [e] <= p :: At(before, p) == At(t, p))
    && (forall q | dest + [e] <= q :: At(before, q) == At(t, q))
    && (At(before, dest) == Some(Dir) <==> !IsFile(t, dest))
  }

  lemma ChildPossibleIff(t: Tree, before: Tree, src: Path, dest: Path, limit: nat, e: string)
    requires WellFormed(t) && WellFormed(before) && src + [e] in t && SameBelow(t, before, src, dest, e)
    ensures Possible(before, src + [e], dest + [e], limit) <==> ChildFits(t, src, dest, limit, e)
  {
    if Possible(before, src + [e], dest + [e], limit) {
      PossibleFits(t, before, src, dest, limit, e);
    }
    if ChildFits(t, src, dest, limit, e) {
      FitsPossible(t, before, src, dest, limit, e);
    }
  }

  lemma PossibleFits(t: Tree, before: Tree, src: Path, dest: Path, limit: nat, e: string)
    requires WellFormed(before) && src + [e] in t && SameBelow(t, before, src, dest, e)
    requires Possible(before, src + [e], dest + [e], limit)
    ensures ChildFits(t, src, dest, limit, e)
  {
    BelowChild(t, src, e);
    forall p | p in t && src + [e] <= p
      ensures src <= p && p != src && Fits(t, src, dest, limit, p)
    {
      if p == src + [e] {
        TopFitsIff(t, before, src, dest, limit, e);
      } else {
        DeeperFits(t, before, src, dest, limit, e, p);
      }
    }
  }

  lemma FitsPossible(t: Tree, before: Tree, src: Path, dest: Path, limit: nat, e: string)
    requires WellFormed(before) && src + [e] in t && SameBelow(t, before, src, dest, e)
    requires ChildFits(t, src, dest, limit, e)
    ensures Possible(before, src + [e], dest + [e], limit)
  {
    TopFitsIff(t, before, src, dest, limit, e);
    forall p | p in before && src + [e] <= p && p != src + [e]
      ensures Fits(before, src + [e], dest + [e], limit, p)
    {
      assert At(before, p) == At(t, p) && p in t;
      DeeperFits(t, before, src, dest, limit, e, p);
    }
  }

  lemma TopFitsIff(t: Tree, before: Tree, src: Path, dest: Path, limit: nat, e: string)
    requires WellFormed(before) && src + [e] in t && At(before, src + [e]) == At(t, src + [e])
    requires At(before, dest + [e]) == At(t, dest + [e])
    requires At(before, dest) == Some(Dir) <==> !IsFile(t, dest)
    ensures TopFits(before, src + [e], dest + [e], limit) <==> Fits(t, src, dest, limit, src + [e])
  {
    assert Swap(src + [e], src, dest) == dest + [e] && Parent(dest + [e]) == dest;
  }

  lemma DeeperFits(t: Tree, before: Tree, src: Path, dest: Path, limit: nat, e: string, p: Path)
    requires p in t && src + [e] <= p && p != src + [e] && src <= p && p != src
    requires At(before, p) == At(t, p) && forall q | dest + [e] <= q :: At(before, q) == At(t, q)
    ensures p in before && (Fits(before, src + [e], dest + [e], limit, p) <==> Fits(t, src, dest, limit, p))
  {
    ChildPlace(dest, src, e, p);
    var q := Swap(p, src, dest);
    assert dest + [e] <= q && |q| > |dest + [e]| && dest + [e] <= Parent(q);
    assert At(before, q) == At(t, q) && At(before, Parent(q)) == At(t, Parent(q));
  }

  lemma AllFit(t: Tree, src: Path, dest: Path, limit: nat, names: seq<string>)
    requires WellFormed(t) && At(t, src) == Some(Dir) && TopFits(t, src, dest, limit)
    requires !Inside(src, dest) ==> forall n :: n in names <==> src + [n] in t
    requires ChildrenFit(t, src, dest, limit, names[..|names|])
    ensures Clear(t, src, dest) ==> Possible(t, src, dest, limit)
  {
    if Clear(t, src, dest) {
      if Inside(src, dest) { InsideNotClear(t, src, dest); }
      AllFits(t, src, dest, limit, names);
    }
  }

  lemma AllFits(t: Tree, src: Path, dest: Path, limit: nat, names: seq<string>)
    requires WellFormed(t) && At(t, src) == Some(Dir) && TopFits(t, src, dest, limit)
    requires forall n :: n in names <==> src + [n] in t
    requires PartFits(t, src, dest, limit, names[..|names|])
    ensures Possible(t, src, dest, limit)
  {
    assert names[..|names|] == names;
    forall p | p in t && src <= p && p != src
      ensures p[|src|] in names
    {
      assert p[..|src| + 1] == src + [p[|src|]];
      PrefixIn(t, src + [p[|src|]], p);
    }
  }

  /** Onto a free place beside the source, only the server's limit can be in the way. */
  lemma FreePossible(t: Tree, src: Path, dest: Path, limit: nat)
    requires WellFormed(t) && src in t && dest !in t && InDirectory(t, dest)
    ensures Possible(t, src, dest, limit) <==>
      forall p | p in t && src <= p && t[p].Dir? :: |Swap(p, src, dest)| <= limit
  {
    assert Swap(src, src, dest) == dest;
    forall p | p in t && src <= p && p != src
      ensures !IsFile(t, Parent(Swap(p, src, dest))) && Swap(p, src, dest) !in t
    {
      var q := Swap(p, src, dest);
      NothingUnderFile(t, dest, q);
      if Parent(q) != dest { NothingUnderFile(t, dest, Parent(q)); }
    }
  }

  // ---- every child is copied ----

  ghost predicate PartCovered(t: Tree, u: Tree, src: Path, dest: Path, done: seq<string>) {
    forall p | p in t && src <= p && |p| > |src| && p[|src|] in done :: Swap(p, src, dest) in u
  }

  lemma ChildCovered(t: Tree, before: Tree, after: Tree, src: Path, dest: Path, names: seq<string>, i: nat)
    requires i < |names| && t.Keys <= before.Keys && before.Keys <= after.Keys
    requires PartCovered(t, before, src, dest, names[..i])
    requires Covers(before, after, src + [names[i]], dest + [names[i]])
    ensures PartCovered(t, after, src, dest, names[..i + 1])
  {
    var e := names[i];
    forall p | p in t && src <= p && |p| > |src| && p[|src|] in names[..i + 1]
      ensures Swap(p, src, dest) in after
    {
      if p[|src|] == e {
        assert p[..|src| + 1] == src + [e];
        ChildPlace(dest, src, e, p);
      }
    }
  }

  lemma AllCovered(t: Tree, u: Tree, src: Path, dest: Path, names: seq<string>)
    requires WellFormed(t) && dest in u && forall n :: n in names <==> src + [n] in t
    requires PartCovered(t, u, src, dest, names[..|names|])
    ensures Covers(t, u, src, dest)
  {
    assert names[..|names|] == names;
    forall p | p in t && src <= p
      ensures Swap(p, src, dest) in u
    {
      if p == src {
        assert Swap(p, src, dest) == dest;
      } else {
        assert p[..|src| + 1] == src + [p[|src|]];
        PrefixIn(t, src + [p[|src|]], p);
      }
    }
  }

  lemma {:induction false} PrefixIn(t: Tree, a: Path, p: Path)
    requires WellFormed(t) && a <= p && p in t
    ensures a in t
    decreases |p|
  {
    if a != p {
      PrefixIn(t, a, Parent(p));
    }
  }

  lemma ChildPlace(src: Path, dest: Path, e: string, p: Path)
    requires dest + [e] <= p
    ensures dest <= p && p[|dest|] == e && Swap(p, dest + [e], src + [e]) == Swap(p, dest, src)
  {
    assert p[|dest|..] == [e] + p[|dest| + 1..];
  }

  lemma OtherChild(dest: Path, e: string, p: Path)
    requires dest <= p && |p| > |dest| && !(dest + [e] <= p)
    ensures p[|dest|] != e
  {
    assert p[..|dest| + 1] == dest + [p[|dest|]];
  }

  /** What is still to be copied has not been touched. */
  lemma ChildKept(t: Tree, before: Tree, src: Path, dest: Path, done: seq<string>, e: string)
    requires Clear(t, src, dest) && PartCopied(t, before, src, dest, done)
    requires e !in done && forall n | n in done :: src + [n] in t
    ensures forall p | src + [e] <= p :: At(before, p) == At(t, p)
  {
    forall p | src + [e] <= p
      ensures At(before, p) == At(t, p)
    {
      assert src <= p && p[|src|] == e;
      if dest <= p {
        if Apart(src, dest) {
          Comparable(src, dest, p);
        } else if src != dest {
          assert p[|dest|] == src[|dest|];
        }
      }
    }
  }

  lemma InsideChild(t: Tree, before: Tree, after: Tree, src: Path, dest: Path, e: string, p: Path)
    requires dest + [e] <= p && (forall q | src + [e] <= q :: At(before, q) == At(t, q))
    requires At(before, p) == At(t, p) && At(after, p) == Expected(before, src + [e], dest + [e], p)
    ensures At(after, p) == Expected(t, src, dest, p)
    ensures dest <= p && |p| > |dest| && p[|dest|] == e
  {
    ChildPlace(src, dest, e, p);
    assert src + [e] <= Swap(p, dest, src);
  }

  lemma ChildCopied(t: Tree, before: Tree, after: Tree, src: Path, dest: Path, names: seq<string>, i: nat)
    requires i < |names| && forall j, k | 0 <= j < k < |names| :: names[j] != names[k]
    requires Clear(t, src, dest) && forall n | n in names :: src + [n] in t
    requires PartCopied(t, before, src, dest, names[..i])
    requires Clear(before, src + [names[i]], dest + [names[i]])
      ==> Copied(before, after, src + [names[i]], dest + [names[i]])
    ensures PartCopied(t, after, src, dest, names[..i + 1])
  {
    var e := names[i];
    assert names[..i + 1] == names[..i] + [e];
    assert e !in names[..i];
    ChildKept(t, before, src, dest, names[..i], e);
    ChildClear(t, src, dest, e);
    OneMoreCopied(t, before, after, src, dest, names[..i], e);
  }

  lemma ChildClear(t: Tree, src: Path, dest: Path, e: string)
    requires Clear(t, src, dest) && src + [e] in t
    ensures Apart(src + [e], dest + [e]) || src == dest
  {
    if src + [e] <= dest + [e] { ParentsPrefix(src, e, dest, e); }
    if dest + [e] <= src + [e] {
      ParentsPrefix(dest, e, src, e);
      if |src| > |dest| { NextName(dest, src, e); }
    }
  }

  lemma NextName(dest: Path, src: Path, e: string)
    requires dest + [e] <= src + [e] && |src| > |dest|
    ensures src[|dest|] == e
  {
    assert (dest + [e])[|dest|] == (src + [e])[|dest|];
  }

  lemma OneMoreCopied(t: Tree, before: Tree, after: Tree, src: Path, dest: Path, done: seq<string>, e: string)
    requires e !in done && forall q | src + [e] <= q :: At(before, q) == At(t, q)
    requires PartCopied(t, before, src, dest, done) && Copied(before, after, src + [e], dest + [e])
    ensures PartCopied(t, after, src, dest, done + [e])
  {
    forall p
      ensures At(after, p) ==
        if dest <= p && (|p| == |dest| || p[|dest|] in done + [e]) then Expected(t, src, dest, p) else At(t, p)
    {
      if dest + [e] <= p {
        ChildPlace(src, dest, e, p);
        InsideChild(t, before, after, src, dest, e, p);
      } else {
        assert At(after, p) == At(before, p);
        if dest <= p && |p| > |dest| { OtherChild(dest, e, p); }
      }
    }
  }

  lemma AllCopied(t: Tree, u: Tree, src: Path, dest: Path, names: seq<string>)
    requires WellFormed(t) && forall n :: n in names <==> src + [n] in t
    requires PartCopied(t, u, src, dest, names[..|names|])
    ensures Copied(t, u, src, dest)
  {
    assert names[..|names|] == names;
    forall p | dest <= p && |p| > |dest| && p[|dest|] !in names
      ensures At(t, p) == Expected(t, src, dest, p)
    {
      var e := p[|dest|];
      var s := Swap(p, dest, src);
      assert s == src + [e] + p[|dest| + 1..];
      assert src + [e] <= s && src + [e] !in t;
      if s != src + [e] {
        NothingUnderFile(t, src + [e], s);
      }
    }
  }

  lemma OnlyAddedChain(t: Tree, u: Tree, v: Tree, dest: Path, e: string)
    requires OnlyAdded(t, u, dest) && OnlyAdded(u, v, dest + [e])
    ensures OnlyAdded(t, v, dest)
  {
    forall p | !(dest <= p)
      ensures At(v, p) == At(t, p)
    {
      if dest + [e] <= p { ChildPlace(dest, dest, e, p); }
    }
  }

  // ---- COPY and MOVE as requests ----

  datatype Status = Created | Conflict | CopyConflict | CleanupConflict

  method HandleCopy(remote: Remote, src: Path, dest: Path) returns (status: Status)
    requires WellFormed(remote.tree)
    modifies remote
    ensures status.Created? || status.CopyConflict?
    ensures status.Created? ==> src in old(remote.tree) && !Inside(src, dest)
    ensures status.Created? ==> Covers(old(remote.tree), remote.tree, src, dest)
    ensures status.Created? && Clear(old(remote.tree), src, dest) ==> Copied(old(remote.tree), remote.tree, src, dest)
    ensures OnlyAdded(old(remote.tree), remote.tree, dest)
    ensures Clear(old(remote.tree), src, dest) && !old(remote.failed) ==>
      (status.Created? <==> Possible(old(remote.tree), src, dest, remote.limit) && !remote.failed)
  {
    var ok := CopyRecursive(remote, src, dest);
    status := if ok then Created else CopyConflict;
  }

  /** The source is gone and is what `dest` now holds, over what was there. */
  ghost predicate Relocated(t: Tree, v: Tree, src: Path, dest: Path) {
    forall p :: At(v, p) == if src <= p then None else Expected(t, src, dest, p)
  }

  /** Only the source is gone, nothing outside the destination has changed, and what
      was in the source has a place there. */
  ghost predicate Transferred(t: Tree, v: Tree, src: Path, dest: Path) {
    && (forall p | src <= p :: p !in v)
    && (forall p | !(src <= p) && !(dest <= p) :: At(v, p) == At(t, p))
    && (forall p | p in t && !(src <= p) :: p in v)
    && (forall p | p in t && src <= p && !(src <= Swap(p, src, dest)) :: Swap(p, src, dest) in v)
  }

  /** Rename, or copy and delete when the server reports different devices. */
  method HandleMove(remote: Remote, src: Path, dest: Path) returns (status: Status)
    requires WellFormed(remote.tree)
    modifies remote
    ensures status.Created? ==> src in old(remote.tree) && !Inside(src, dest)
    ensures status.Created? ==> Transferred(old(remote.tree), remote.tree, src, dest)
    ensures status.Created? && Clear(old(remote.tree), src, dest) ==>
      Relocated(old(remote.tree), remote.tree, src, dest)
    ensures status.Created? && Apart(src, dest) ==>
      (remote.tree == Moved(old(remote.tree), src, dest) <==> Exact(old(remote.tree), src, dest))
    ensures Clear(old(remote.tree), src, dest) && !old(remote.failed) ==>
      (status.Created? <==> (
         && !remote.failed
         && if remote.crossed then Possible(old(remote.tree), src, dest, remote.limit)
            else CanRename(old(remote.tree), src, dest)))
    ensures status.Conflict? ==> remote.tree == old(remote.tree)
    ensures status.CopyConflict? ==> OnlyAdded(old(remote.tree), remote.tree, dest)
    ensures status.CleanupConflict? && Clear(old(remote.tree), src, dest) ==>
      forall p | !(src <= p) :: At(remote.tree, p) == Expected(old(remote.tree), src, dest, p)
  {
    ghost var t := remote.tree;
    var renamed := remote.Rename(src, dest);
    if renamed.Renamed? {
      if dest <= src { PrefixIn(t, dest, src); }
      RenameRelocates(t, src, dest);
      RenameTransfers(t, remote.tree, src, dest);
      FreeIsExact(t, src, dest);
      return Created;
    }
    if renamed.RenameFailed? {
      return Conflict;
    }
    var copied := CopyRecursive(remote, src, dest);
    if !copied {
      return CopyConflict;
    }
    ghost var u := remote.tree;
    var removed := remote.RemoveAll(src);
    if !removed {
      return CleanupConflict;
    }
    RemovalTransfers(t, u, remote.tree, src, dest);
    if Apart(src, dest) { MoveIsRename(t, u, remote.tree, src, dest); }
    return Created;
  }

  lemma RemovalTransfers(t: Tree, u: Tree, v: Tree, src: Path, dest: Path)
    requires OnlyAdded(t, u, dest) && Covers(t, u, src, dest)
    requires forall q | !(src <= q) :: At(v, q) == At(u, q)
    requires forall q | src <= q :: q !in v
    ensures Transferred(t, v, src, dest)
  {
    assert forall q | q in u && !(src <= q) :: At(v, q) == At(u, q) && q in v;
  }

  lemma RenameTransfers(t: Tree, v: Tree, src: Path, dest: Path)
    requires Apart(src, dest) && Relocated(t, v, src, dest)
    ensures Transferred(t, v, src, dest)
  {
    forall p | p in t && !(src <= p)
      ensures p in v
    {
      assert At(v, p) == Expected(t, src, dest, p);
    }
    forall p | p in t && src <= p && !(src <= Swap(p, src, dest))
      ensures Swap(p, src, dest) in v
    {
      var q := Swap(p, src, dest);
      assert Swap(q, dest, src) == p;
      assert At(v, q) == Expected(t, src, dest, q);
    }
    forall p | src <= p
      ensures p !in v
    {
      assert At(v, p) == None;
    }
  }

  /** Nothing lies under `dest` that the source does not have, and no file is in
      the way of a directory. */
  ghost predicate Exact(t: Tree, src: Path, dest: Path) {
    forall p | dest <= p && p in t :: Swap(p, dest, src) in t && !(t[Swap(p, dest, src)].Dir? && t[p].File?)
  }

  /** A free destination is the plain case. */
  lemma FreeIsExact(t: Tree, src: Path, dest: Path)
    requires WellFormed(t) && dest !in t
    ensures Exact(t, src, dest)
  {
    forall p | dest <= p && p in t
      ensures false
    {
      if p != dest {
        NothingUnderFile(t, dest, p);
      }
    }
  }

  /** The same tree hangs under `dest` in `u` as under `src` in `t`. */
  ghost predicate SameTree(t: Tree, u: Tree, src: Path, dest: Path) {
    forall p | dest <= p :: At(u, p) == At(t, Swap(p, dest, src))
  }

  lemma SwapMoves(p: Path, from: Path, onto: Path)
    requires from <= p && from != onto
    ensures Swap(p, from, onto) != p
  {
    var q := Swap(p, from, onto);
    assert q[..|onto|] == onto && |q| == |p| - |from| + |onto|;
    assert p[..|from|] == from;
  }

  /** The files of a subtree are all empty. */
  ghost predicate NoContent(t: Tree, src: Path) {
    forall p | p in t && src <= p && t[p].File? :: t[p].content == []
  }

  /** After a copy, the destination equals the source exactly when nothing was left
      over there, as the server does not clear an existing destination first; and, if
      the two are the same, when there was nothing to lose. */
  lemma CopyEqualsSourceIff(t: Tree, u: Tree, src: Path, dest: Path)
    requires Copied(t, u, src, dest)
    ensures SameTree(t, u, src, dest) <==> Exact(t, src, dest) && (src == dest ==> NoContent(t, src))
  {
    if src == dest {
      EmptiedIff(t, u, src);
      SameOntoItself(t, u, src);
    } else {
      CopyEqualsOther(t, u, src, dest);
    }
  }

  /** Copying something onto itself changes nothing exactly when its files are empty
      already: every other one loses its content. */
  lemma EmptiedIff(t: Tree, u: Tree, src: Path)
    requires Copied(t, u, src, src)
    ensures u == t <==> NoContent(t, src)
    ensures forall p | p in t && src <= p && t[p].File? :: p in u && u[p] == File([])
  {
    forall p
      ensures At(u, p) == if src <= p then Read(t, p, p) else At(t, p)
    {
      if src <= p { assert Swap(p, src, src) == p; }
    }
    forall p | p in t && src <= p && t[p].File?
      ensures p in u && u[p] == File([])
    {
      assert At(u, p) == Read(t, p, p) == Some(File([]));
    }
    if NoContent(t, src) {
      forall p
        ensures At(t, p) == At(u, p)
      {
        if src <= p && p in t && t[p].File? { assert t[p] == File([]); }
      }
      SameMap(t, u);
    }
  }

  lemma SameOntoItself(t: Tree, u: Tree, src: Path)
    requires Copied(t, u, src, src)
    ensures SameTree(t, u, src, src) <==> u == t
    ensures Exact(t, src, src)
  {
    assert forall p | src <= p :: Swap(p, src, src) == p;
    if SameTree(t, u, src, src) {
      forall p
        ensures At(u, p) == At(t, p)
      {
        if src <= p { assert At(u, p) == At(t, Swap(p, src, src)); }
      }
      SameMap(u, t);
    }
  }

  lemma CopyEqualsOther(t: Tree, u: Tree, src: Path, dest: Path)
    requires Copied(t, u, src, dest) && src != dest
    ensures SameTree(t, u, src, dest) <==> Exact(t, src, dest)
  {
    forall p | dest <= p
      ensures Read(t, Swap(p, dest, src), p) == At(t, Swap(p, dest, src))
    {
      SwapMoves(p, dest, src);
    }
    if SameTree(t, u, src, dest) {
      forall p | dest <= p && p in t
        ensures Swap(p, dest, src) in t && !(t[Swap(p, dest, src)].Dir? && t[p].File?)
      {
        assert At(u, p) == Over(At(t, Swap(p, dest, src)), At(t, p)) == At(t, Swap(p, dest, src));
      }
    }
    if Exact(t, src, dest) {
      forall p | dest <= p
        ensures At(u, p) == At(t, Swap(p, dest, src))
      {
        assert At(u, p) == Over(At(t, Swap(p, dest, src)), At(t, p));
      }
    }
  }

  lemma MovedUnder(t: Tree, src: Path, dest: Path, p: Path)
    requires Apart(src, dest) && dest <= p
    ensures At(Moved(t, src, dest), p) == At(t, Swap(p, dest, src))
  {
    var s := Swap(p, dest, src);
    assert src <= s && Swap(s, src, dest) == p;
  }

  lemma MovedElsewhere(t: Tree, src: Path, dest: Path, p: Path)
    requires !(dest <= p)
    ensures At(Moved(t, src, dest), p) == if src <= p then None else At(t, p)
  {}

  lemma RenameRelocates(t: Tree, src: Path, dest: Path)
    requires WellFormed(t) && Apart(src, dest) && CanRename(t, src, dest)
    ensures Relocated(t, Moved(t, src, dest), src, dest)
  {
    forall p
      ensures At(Moved(t, src, dest), p) == if src <= p then None else Expected(t, src, dest, p)
    {
      if dest <= p {
        DisjointPlaces(dest, src, p);
        if p != dest {
          NothingUnderFile(t, dest, p);
        }
        MovedUnder(t, src, dest, p);
      } else {
        MovedElsewhere(t, src, dest, p);
      }
    }
  }

  /** Copy then delete ends in the tree that a rename gives, exactly when nothing
      at the destination survives the copy. */
  lemma MoveIsRename(t: Tree, u: Tree, v: Tree, src: Path, dest: Path)
    requires Apart(src, dest) && Copied(t, u, src, dest)
    requires forall q | !(src <= q) :: At(v, q) == At(u, q)
    requires forall q | src <= q :: q !in v
    ensures v == Moved(t, src, dest) <==> Exact(t, src, dest)
  {
    CopyEqualsSourceIff(t, u, src, dest);
    forall p | dest <= p
      ensures At(v, p) == At(u, p) && At(Moved(t, src, dest), p) == At(t, Swap(p, dest, src))
    {
      DisjointPlaces(dest, src, p);
      MovedUnder(t, src, dest, p);
    }
    if SameTree(t, u, src, dest) {
      forall p
        ensures At(v, p) == At(Moved(t, src, dest), p)
      {
        if !(dest <= p) { MovedElsewhere(t, src, dest, p); }
      }
      SameMap(v, Moved(t, src, dest));
    }
  }

  lemma SameMap(a: Tree, b: Tree)
    requires forall p :: At(a, p) == At(b, p)
    ensures a == b
  {
    assert forall p :: p in a <==> At(a, p).Some?;
    assert forall p :: p in b <==> At(b, p).Some?;
    assert forall p | p in a :: At(a, p).value == a[p];
    assert forall p | p in b :: At(b, p).value == b[p];
  }
}
