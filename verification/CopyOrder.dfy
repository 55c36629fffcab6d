/** Copies that overlap their source: those that never return, and those whose result
    depends on the order in which the server lists a directory. */
module CopyOrder {
  import opened Optional
  import opened RemoteTree
  import opened WebDavCopy

  predicate Distinct(names: seq<string>) {
    forall i, j | 0 <= i < j < |names| :: names[i] != names[j]
  }

  ghost predicate Lists(t: Tree, p: Path, names: seq<string>) {
    Distinct(names) && forall n :: n in names <==> p + [n] in t
  }

  function WithDirectory(t: Tree, dest: Path): Tree {
    if dest in t then t else t[dest := Dir]
  }

  /** The recursive copy returns, within so many nested calls, when every operation
      that can succeed does. It leaves `u`; `ok` says whether it returns success. */
  ghost predicate Returns(t: Tree, src: Path, dest: Path, calls: nat, u: Tree, ok: bool)
    decreases calls, 0, 0
  {
    && calls > 0
    && match At(t, src)
       case None => !ok && u == t
       case Some(File(_)) =>
         if CanWrite(t, dest) then ok && u == t[dest := Read(t, src, dest).value] else !ok && u == t
       case Some(Dir) =>
         if dest !in t && !InDirectory(t, dest) then !ok && u == t
         else exists names ::
           Lists(WithDirectory(t, dest), src, names) && ReturnsAll(WithDirectory(t, dest), src, dest, names, calls - 1, u, ok)
  }

  ghost predicate ReturnsAll(t: Tree, src: Path, dest: Path, names: seq<string>, calls: nat, u: Tree, ok: bool)
    decreases calls, 1, |names|
  {
    if names == [] then ok && u == t
    else exists v, good ::
      && Returns(t, src + [names[0]], dest + [names[0]], calls, v, good)
      && if good then ReturnsAll(v, src, dest, names[1..], calls, u, ok) else !ok && u == v
  }

  lemma FirstChild(t: Tree, src: Path, dest: Path, names: seq<string>, calls: nat, u: Tree, ok: bool)
    returns (v: Tree, good: bool)
    requires names != [] && ReturnsAll(t, src, dest, names, calls, u, ok)
    ensures Returns(t, src + [names[0]], dest + [names[0]], calls, v, good)
    ensures if good then ReturnsAll(v, src, dest, names[1..], calls, u, ok) else !ok && u == v
  {
    v, good :|
      && Returns(t, src + [names[0]], dest + [names[0]], calls, v, good)
      && if good then ReturnsAll(v, src, dest, names[1..], calls, u, ok) else !ok && u == v;
  }

  // ---- onto a free place beside the source ----

  lemma ChildrenApart(src: Path, dest: Path, a: string, b: string)
    requires Apart(src, dest)
    ensures Apart(src + [a], dest + [b])
  {
    if src + [a] <= dest + [b] { ParentsPrefix(src, a, dest, b); }
    if dest + [b] <= src + [a] { ParentsPrefix(dest, b, src, a); }
  }

  /** Nothing stands in the way of such a copy. */
  lemma {:induction false} FreeSucceeds(t: Tree, src: Path, dest: Path, calls: nat, u: Tree, ok: bool)
    requires WellFormed(t) && Apart(src, dest) && src in t && dest !in t && InDirectory(t, dest)
    requires Returns(t, src, dest, calls, u, ok)
    ensures ok && WellFormed(u) && OnlyAdded(t, u, dest)
    decreases calls, 0, 0
  {
    if t[src].Dir? {
      var made := WithDirectory(t, dest);
      var names :| Lists(made, src, names) && ReturnsAll(made, src, dest, names, calls - 1, u, ok);
      MadeRoom(t, dest);
      ListedFree(t, src, dest, names);
      FreeChildren(made, src, dest, names, calls - 1, u, ok);
    } else {
      FileWritten(t, u, src, dest);
    }
  }

  lemma MadeRoom(t: Tree, dest: Path)
    requires WellFormed(t) && dest !in t && InDirectory(t, dest)
    ensures WellFormed(WithDirectory(t, dest)) && forall n :: dest + [n] !in WithDirectory(t, dest)
    ensures OnlyAdded(t, WithDirectory(t, dest), dest)
  {
    assert forall p | p in t && p != [] :: InDirectory(t, p);
    forall n
      ensures dest + [n] !in WithDirectory(t, dest)
    {
      NothingUnderFile(t, dest, dest + [n]);
    }
  }

  lemma ListedFree(t: Tree, src: Path, dest: Path, names: seq<string>)
    requires Lists(WithDirectory(t, dest), src, names)
    ensures forall n | n in names :: src + [n] in WithDirectory(t, dest)
  {}

  lemma {:induction false} FreeChildren(t: Tree, src: Path, dest: Path, names: seq<string>, calls: nat, u: Tree, ok: bool)
    requires WellFormed(t) && Apart(src, dest) && At(t, dest) == Some(Dir) && Distinct(names)
    requires forall n | n in names :: src + [n] in t && dest + [n] !in t
    requires ReturnsAll(t, src, dest, names, calls, u, ok)
    ensures ok && WellFormed(u) && OnlyAdded(t, u, dest)
    decreases calls, 1, |names|
  {
    if names != [] {
      var n := names[0];
      var v, good := FirstChild(t, src, dest, names, calls, u, ok);
      ChildrenApart(src, dest, n, n);
      assert Parent(dest + [n]) == dest;
      FreeSucceeds(t, src + [n], dest + [n], calls, v, good);
      Remaining(t, v, src, dest, names);
      FreeChildren(v, src, dest, names[1..], calls, u, ok);
      OnlyAddedFirst(t, v, u, dest, n);
    }
  }

  /** Copying one child leaves the rest as they were. */
  lemma Remaining(t: Tree, v: Tree, src: Path, dest: Path, names: seq<string>)
    requires names != [] && Distinct(names) && OnlyAdded(t, v, dest + [names[0]])
    requires forall n | n in names :: src + [n] in t && dest + [n] !in t
    ensures Distinct(names[1..]) && At(v, dest) == At(t, dest)
    ensures forall n | n in names[1..] :: src + [n] in v && dest + [n] !in v
  {
    forall n | n in names[1..]
      ensures src + [n] in v && dest + [n] !in v
    {
      assert n in names && n != names[0];
      assert (dest + [n])[|dest|] != (dest + [names[0]])[|dest|];
      assert At(v, dest + [n]) == At(t, dest + [n]);
    }
  }

  lemma OnlyAddedFirst(t: Tree, v: Tree, u: Tree, dest: Path, n: string)
    requires OnlyAdded(t, v, dest + [n]) && OnlyAdded(v, u, dest)
    ensures OnlyAdded(t, u, dest)
  {
    forall p | !(dest <= p)
      ensures At(u, p) == At(t, p)
    {
      if dest + [n] <= p { ChildPlace(dest, dest, n, p); }
    }
  }

  // ---- into the source itself ----

  lemma {:induction false} KeepsKinds(t: Tree, src: Path, dest: Path, calls: nat, u: Tree, ok: bool)
    requires WellFormed(t) && Returns(t, src, dest, calls, u, ok)
    ensures WellFormed(u) && SameKinds(t, u)
    decreases calls, 0, 0
  {
    if At(t, src) == Some(Dir) && (dest in t || InDirectory(t, dest)) {
      var names := AsDirectory(t, src, dest, calls, u, ok);
      KeepsKindsAll(WithDirectory(t, dest), src, dest, names, calls - 1, u, ok);
      SameKindsTwice(t, WithDirectory(t, dest), u);
    } else {
      AtOnce(t, src, dest, calls, u, ok);
    }
  }

  /** The call made a directory and went through a listing. */
  lemma AsDirectory(t: Tree, src: Path, dest: Path, calls: nat, u: Tree, ok: bool) returns (names: seq<string>)
    requires WellFormed(t) && At(t, src) == Some(Dir) && (dest in t || InDirectory(t, dest))
    requires Returns(t, src, dest, calls, u, ok)
    ensures var made := WithDirectory(t, dest);
      && calls > 0 && Lists(made, src, names) && ReturnsAll(made, src, dest, names, calls - 1, u, ok)
      && WellFormed(made) && SameKinds(t, made) && dest in made
  {
    names :| Lists(WithDirectory(t, dest), src, names)
      && ReturnsAll(WithDirectory(t, dest), src, dest, names, calls - 1, u, ok);
    DirectoryMade(t, WithDirectory(t, dest), src, dest);
  }

  /** The call copied a file or failed on the spot. */
  lemma AtOnce(t: Tree, src: Path, dest: Path, calls: nat, u: Tree, ok: bool)
    requires WellFormed(t) && !(At(t, src) == Some(Dir) && (dest in t || InDirectory(t, dest)))
    requires Returns(t, src, dest, calls, u, ok)
    ensures WellFormed(u) && SameKinds(t, u) && (ok ==> src in t && t[src].File? && CanWrite(t, dest))
  {
    if src in t && t[src].File? && CanWrite(t, dest) {
      FileWritten(t, u, src, dest);
    }
  }

  lemma SameKindsTwice(t: Tree, u: Tree, v: Tree)
    requires SameKinds(t, u) && SameKinds(u, v)
    ensures SameKinds(t, v)
  {}

  lemma {:induction false} KeepsKindsAll(t: Tree, src: Path, dest: Path, names: seq<string>, calls: nat, u: Tree, ok: bool)
    requires WellFormed(t) && ReturnsAll(t, src, dest, names, calls, u, ok)
    ensures WellFormed(u) && SameKinds(t, u)
    decreases calls, 1, |names|
  {
    if names != [] {
      var v, good := FirstChild(t, src, dest, names, calls, u, ok);
      KeepsKinds(t, src + [names[0]], dest + [names[0]], calls, v, good);
      if good {
        KeepsKindsAll(v, src, dest, names[1..], calls, u, ok);
        SameKindsTwice(t, v, u);
      }
    }
  }

  /** Nothing can be copied to a place within itself, whether that place is free or
      not: among what is to be copied is always the way down to the place, whose own
      copy is again one into itself. It fails or does not return. */
  lemma {:induction false} NeverSucceeds(t: Tree, src: Path, dest: Path, calls: nat, u: Tree)
    requires WellFormed(t) && Inside(src, dest)
    ensures !Returns(t, src, dest, calls, u, true)
    decreases calls, 0, 0
  {
    if Returns(t, src, dest, calls, u, true) {
      if At(t, src) == Some(Dir) && (dest in t || InDirectory(t, dest)) {
        var names := AsDirectory(t, src, dest, calls, u, true);
        FindsItself(WithDirectory(t, dest), src, dest, names);
        NeverSucceedsAll(WithDirectory(t, dest), src, dest, names, calls - 1, u);
      } else {
        AtOnce(t, src, dest, calls, u, true);
        NoRoomInFile(t, src, dest);
      }
    }
  }

  lemma {:induction false} NeverSucceedsAll(t: Tree, src: Path, dest: Path, names: seq<string>, calls: nat, u: Tree)
    requires WellFormed(t) && Inside(src, dest) && dest[|src|] in names
    ensures !ReturnsAll(t, src, dest, names, calls, u, true)
    decreases calls, 1, |names|
  {
    if ReturnsAll(t, src, dest, names, calls, u, true) {
      var n := names[0];
      var v, good := FirstChild(t, src, dest, names, calls, u, true);
      if n == dest[|src|] {
        assert src + [n] == dest[..|src| + 1];
        NeverSucceeds(t, src + [n], dest + [n], calls, v);
      } else {
        KeepsKinds(t, src + [n], dest + [n], calls, v, good);
        NeverSucceedsAll(v, src, dest, names[1..], calls, u);
      }
    }
  }

  /** A directory copied to a free place within itself: the copy finds itself among
      what is to be copied, at every level again, so no number of calls is enough. */
  lemma {:induction false} NeverReturns(t: Tree, src: Path, dest: Path, calls: nat, u: Tree, ok: bool)
    requires WellFormed(t) && At(t, src) == Some(Dir) && Inside(src, dest)
    requires dest !in t && InDirectory(t, dest)
    ensures !Returns(t, src, dest, calls, u, ok)
    decreases calls, 0, 0
  {
    if Returns(t, src, dest, calls, u, ok) {
      var made := WithDirectory(t, dest);
      var names :| Lists(made, src, names) && ReturnsAll(made, src, dest, names, calls - 1, u, ok);
      MadeRoom(t, dest);
      WayDown(t, src, dest);
      NeverReturnsAll(made, src, dest, names, calls - 1, u, ok);
    }
  }

  /** The next directory on the way from the source down to the destination. */
  lemma WayDown(t: Tree, src: Path, dest: Path)
    requires WellFormed(t) && Inside(src, dest) && dest !in t && InDirectory(t, dest)
    ensures At(WithDirectory(t, dest), src + [dest[|src|]]) == Some(Dir)
  {
    var next := src + [dest[|src|]];
    assert next == dest[..|src| + 1];
    if next != dest {
      assert next <= Parent(dest);
      if next != Parent(dest) && At(t, next) != Some(Dir) {
        NothingUnderFile(t, next, Parent(dest));
      }
    }
  }

  lemma {:induction false} NeverReturnsAll(t: Tree, src: Path, dest: Path, names: seq<string>, calls: nat, u: Tree, ok: bool)
    requires WellFormed(t) && Inside(src, dest) && At(t, dest) == Some(Dir) && Distinct(names)
    requires dest[|src|] in names && At(t, src + [dest[|src|]]) == Some(Dir)
    requires forall n | n in names :: src + [n] in t && dest + [n] !in t
    ensures !ReturnsAll(t, src, dest, names, calls, u, ok)
    decreases calls, 1, |names|
  {
    if ReturnsAll(t, src, dest, names, calls, u, ok) {
      var n, next := names[0], dest[|src|];
      var v, good := FirstChild(t, src, dest, names, calls, u, ok);
      assert Parent(dest + [n]) == dest;
      if n == next {
        assert src + [n] == dest[..|src| + 1];
        NeverReturns(t, src + [n], dest + [n], calls, v, good);
      } else {
        Siblings(src, dest, n);
        FreeSucceeds(t, src + [n], dest + [n], calls, v, good);
        Remaining(t, v, src, dest, names);
        NotBelow(src, dest, n);
        NeverReturnsAll(v, src, dest, names[1..], calls, u, ok);
      }
    }
  }

  lemma Siblings(src: Path, dest: Path, n: string)
    requires Inside(src, dest) && n != dest[|src|]
    ensures Apart(src + [n], dest + [n])
  {
    assert (src + [n])[|src|] != (dest + [n])[|src|];
  }

  lemma NotBelow(src: Path, dest: Path, n: string)
    requires Inside(src, dest)
    ensures !(dest + [n] <= src + [dest[|src|]])
  {}

  /** For a free place within a directory: the copy returns exactly when it cannot
      even create that place. */
  lemma ReturnsIffNoRoom(t: Tree, src: Path, dest: Path)
    requires WellFormed(t) && At(t, src) == Some(Dir) && Inside(src, dest) && dest !in t
    ensures (exists calls, u, ok :: Returns(t, src, dest, calls, u, ok)) <==> !InDirectory(t, dest)
  {
    if InDirectory(t, dest) {
      forall calls: nat, u, ok
        ensures !Returns(t, src, dest, calls, u, ok)
      {
        NeverReturns(t, src, dest, calls, u, ok);
      }
    } else {
      assert Returns(t, src, dest, 1, t, false);
    }
  }

  // ---- onto a place above the source ----

  /** A directory `a` that holds another `a`, both with an entry `x`. */
  function Nested(a: string, x: string, c: seq<int>, d: seq<int>): Tree {
    map[[] := Dir, [a] := Dir, [a, a] := Dir, [a, a, x] := File(c), [a, x] := File(d)]
  }

  lemma FileReturns(t: Tree, src: Path, dest: Path, calls: nat)
    requires calls > 0 && src in t && t[src].File? && CanWrite(t, dest)
    ensures Returns(t, src, dest, calls, t[dest := Read(t, src, dest).value], true)
  {}

  lemma ThenNext(t: Tree, src: Path, dest: Path, names: seq<string>, calls: nat, v: Tree, u: Tree)
    requires names != [] && Returns(t, src + [names[0]], dest + [names[0]], calls, v, true)
    requires ReturnsAll(v, src, dest, names[1..], calls, u, true)
    ensures ReturnsAll(t, src, dest, names, calls, u, true)
  {}

  lemma DirectoryReturns(t: Tree, src: Path, dest: Path, names: seq<string>, calls: nat, u: Tree)
    requires calls > 0 && At(t, src) == Some(Dir) && dest in t && Lists(t, src, names)
    requires ReturnsAll(t, src, dest, names, calls - 1, u, true)
    ensures Returns(t, src, dest, calls, u, true)
  {
    assert WithDirectory(t, dest) == t;
  }

  /** Copying the inner `a` over the outer one changes the entry `x` of the source. */
  lemma InnerReturns(t: Tree, a: string, x: string, c: seq<int>)
    requires a != x && At(t, [a]) == Some(Dir) && At(t, [a, a]) == Some(Dir)
    requires At(t, [a, a, x]) == Some(File(c)) && [a, x] in t && t[[a, x]].File?
    requires Lists(t, [a, a], [x])
    ensures Returns(t, [a, a], [a], 2, t[[a, x] := File(c)], true)
  {
    var u := t[[a, x] := File(c)];
    assert [a, a] + [x] == [a, a, x] && [a] + [x] == [a, x] && Parent([a, x]) == [a];
    FileReturns(t, [a, a, x], [a, x], 1);
    ThenNext(t, [a, a], [a], [x], 1, u, u);
    DirectoryReturns(t, [a, a], [a], [x], 2, u);
  }

  lemma OuterReturns(t: Tree, a: string, x: string, e: seq<int>)
    requires a != x && At(t, []) == Some(Dir) && At(t, [a, x]) == Some(File(e)) && At(t, [x]) != Some(Dir)
    ensures Returns(t, [a] + [x], [] + [x], 2, t[[x] := File(e)], true)
  {
    assert [a] + [x] == [a, x] && [] + [x] == [x] && Parent([x]) == [];
    assert [a, x] != [x];
    FileReturns(t, [a, x], [x], 2);
  }

  lemma InNested(a: string, x: string, c: seq<int>, d: seq<int>, p: Path)
    ensures p in Nested(a, x, c, d) <==> p == [] || p == [a] || p == [a, a] || p == [a, a, x] || p == [a, x]
  {}

  lemma InOuter(a: string, x: string, c: seq<int>, d: seq<int>, n: string)
    ensures [a] + [n] in Nested(a, x, c, d) <==> n == a || n == x
  {
    var p := [a] + [n];
    InNested(a, x, c, d, p);
    assert |p| == 2 && p[1] == n && p == [a, n];
  }

  lemma InInner(a: string, x: string, c: seq<int>, d: seq<int>, n: string)
    ensures [a, a] + [n] in Nested(a, x, c, d) <==> n == x
  {
    var p := [a, a] + [n];
    InNested(a, x, c, d, p);
    assert |p| == 3 && p[2] == n && p == [a, a, n];
  }

  lemma NestedLists(a: string, x: string, c: seq<int>, d: seq<int>)
    requires a != x
    ensures var t := Nested(a, x, c, d);
      Lists(t, [a], [a, x]) && Lists(t, [a], [x, a]) && Lists(t, [a, a], [x])
  {
    forall n
      ensures [a] + [n] in Nested(a, x, c, d) <==> n == a || n == x
    {
      InOuter(a, x, c, d, n);
    }
    forall n
      ensures [a, a] + [n] in Nested(a, x, c, d) <==> n == x
    {
      InInner(a, x, c, d, n);
    }
  }

  lemma NestedWellFormed(a: string, x: string, c: seq<int>, d: seq<int>)
    requires a != x
    ensures WellFormed(Nested(a, x, c, d))
  {
    forall p | p in Nested(a, x, c, d) && p != []
      ensures InDirectory(Nested(a, x, c, d), p)
    {
      InNested(a, x, c, d, p);
      assert Parent([a]) == [] && Parent([a, a]) == [a] && Parent([a, x]) == [a] && Parent([a, a, x]) == [a, a];
    }
  }

  ghost predicate HasNested(t: Tree, a: string, x: string, c: seq<int>, d: seq<int>) {
    && a != x && At(t, []) == Some(Dir) && At(t, [a]) == Some(Dir) && At(t, [a, a]) == Some(Dir)
    && At(t, [a, a, x]) == Some(File(c)) && At(t, [a, x]) == Some(File(d)) && [x] !in t
    && Lists(t, [a], [a, x]) && Lists(t, [a], [x, a]) && Lists(t, [a, a], [x])
  }

  lemma InnerFirst(t: Tree, a: string, x: string, c: seq<int>, d: seq<int>) returns (u: Tree)
    requires HasNested(t, a, x, c, d)
    ensures Returns(t, [a], [], 3, u, true) && At(u, [x]) == Some(File(c))
  {
    assert [a] + [a] == [a, a] && [] + [a] == [a] && [x] != [a, x];
    var inner := t[[a, x] := File(c)];
    InnerReturns(t, a, x, c);
    u := inner[[x] := File(c)];
    OuterReturns(inner, a, x, c);
    ThenNext(inner, [a], [], [x], 2, u, u);
    ThenNext(t, [a], [], [a, x], 2, inner, u);
    DirectoryReturns(t, [a], [], [a, x], 3, u);
  }

  lemma OuterFirst(t: Tree, a: string, x: string, c: seq<int>, d: seq<int>) returns (v: Tree)
    requires HasNested(t, a, x, c, d)
    ensures Returns(t, [a], [], 3, v, true) && At(v, [x]) == Some(File(d))
  {
    assert [a] + [a] == [a, a] && [] + [a] == [a] && [x] != [a, x] && [x] != [a];
    assert [x] != [a, a] && [x] != [a, a, x];
    var outer := t[[x] := File(d)];
    OuterReturns(t, a, x, d);
    OuterLists(t, a, x, d);
    InnerReturns(outer, a, x, c);
    v := outer[[a, x] := File(c)];
    ThenNext(outer, [a], [], [a], 2, v, v);
    ThenNext(t, [a], [], [x, a], 2, outer, v);
    DirectoryReturns(t, [a], [], [x, a], 3, v);
  }

  lemma OuterLists(t: Tree, a: string, x: string, d: seq<int>)
    requires Lists(t, [a, a], [x])
    ensures Lists(t[[x] := File(d)], [a, a], [x])
  {
    assert forall n :: |[a, a] + [n]| != |[x]|;
  }

  /** What is copied out of `a` then depends on whether `a` or `x` is listed first. */
  lemma OrderDecides(a: string, x: string, c: seq<int>, d: seq<int>) returns (t: Tree, u: Tree, v: Tree)
    requires a != x
    ensures WellFormed(t) && Inside([], [a]) && !Clear(t, [a], [])
    ensures Returns(t, [a], [], 3, u, true) && At(u, [x]) == Some(File(c))
    ensures Returns(t, [a], [], 3, v, true) && At(v, [x]) == Some(File(d))
  {
    t := Nested(a, x, c, d);
    NestedLists(a, x, c, d);
    NestedWellFormed(a, x, c, d);
    InNested(a, x, c, d, [x]);
    assert [x] != [a] && [a] + [a] == [a, a];
    u := InnerFirst(t, a, x, c, d);
    v := OuterFirst(t, a, x, c, d);
  }

  /** Such an overlap need not matter: with directories only, there is nothing that
      could be overwritten. */
  lemma ClearNotNecessary(a: string) returns (t: Tree)
    ensures WellFormed(t) && !Clear(t, [a], []) && Copied(t, t, [a], [])
  {
    t := map[[] := Dir, [a] := Dir, [a, a] := Dir];
    assert [a] + [a] == [a, a] && Parent([a]) == [] && Parent([a, a]) == [a];
    forall p
      ensures At(t, p) == Expected(t, [a], [], p)
    {
      var s := Swap(p, [], [a]);
      assert s == [a] + p && |s| == |p| + 1;
      if s in t {
        assert s == [a] || s == [a, a];
        assert p == s[1..];
        assert [a][1..] == [] && [a, a][1..] == [a];
        assert p in t;
      }
    }
  }
}
