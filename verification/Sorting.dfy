/** Byte-wise string order and the in-place insertion sort of option keys. */
module Sorting {
  predicate Less(a: string, b: string) {
    if b == [] then false
    else if a == [] then true
    else if a[0] != b[0] then a[0] < b[0]
    else Less(a[1..], b[1..])
  }

  /** A string is less exactly when it is the beginning of the other, or has the
      smaller character where they first differ. */
  lemma {:induction false} LessIff(a: string, b: string)
    ensures Less(a, b) <==>
      exists i | 0 <= i <= |a| && i < |b| :: a[..i] == b[..i] && (i == |a| || a[i] < b[i])
  {
    if a == [] || b == [] || a[0] != b[0] {
      if Less(a, b) { assert a[..0] == b[..0]; }
      if i :| 0 <= i <= |a| && i < |b| && a[..i] == b[..i] && (i == |a| || a[i] < b[i]) {
        if i > 0 { SameFirst(a, b, i); }
      }
    } else {
      LessIff(a[1..], b[1..]);
      if i :| 0 <= i <= |a[1..]| && i < |b[1..]| && a[1..][..i] == b[1..][..i]
              && (i == |a[1..]| || a[1..][i] < b[1..][i]) {
        assert a[..i + 1] == [a[0]] + a[1..][..i] && b[..i + 1] == [b[0]] + b[1..][..i];
      }
      if i :| 0 <= i <= |a| && i < |b| && a[..i] == b[..i] && (i == |a| || a[i] < b[i]) {
        assert a[1..][..i - 1] == a[..i][1..] && b[1..][..i - 1] == b[..i][1..];
      }
    }
  }

  lemma SameFirst(a: string, b: string, i: nat)
    requires 0 < i <= |a| && i <= |b| && a[..i] == b[..i]
    ensures a[0] == b[0]
  {
    assert a[..i][0] == b[..i][0];
  }

  lemma {:induction false} LessTotal(a: string, b: string)
    ensures Less(a, b) || Less(b, a) || a == b
    ensures !(Less(a, b) && Less(b, a)) && !Less(a, a)
  {
    if a != [] {
      LessTotal(a[1..], a[1..]);
      if b != [] {
        LessTotal(a[1..], b[1..]);
        if a[0] == b[0] && a[1..] == b[1..] {
          assert a == [a[0]] + a[1..] && b == [b[0]] + b[1..];
        }
      }
    }
  }

  lemma {:induction false} LessTransitive(a: string, b: string, c: string)
    requires Less(a, b) && Less(b, c)
    ensures Less(a, c)
  {
    if a != [] && b != [] && c != [] && a[0] == b[0] == c[0] {
      LessTransitive(a[1..], b[1..], c[1..]);
    }
  }

  /** Not-less is transitive too, as the order is total. */
  lemma NotLessTransitive(a: string, b: string, c: string)
    requires !Less(b, a) && !Less(c, b)
    ensures !Less(c, a)
  {
    LessTotal(a, b);
    LessTotal(b, c);
    LessTotal(a, c);
    if Less(c, a) && Less(a, b) { LessTransitive(c, a, b); }
  }

  predicate Ordered(s: seq<string>) {
    OrderedUpTo(s, |s|)
  }

  predicate OrderedUpTo(s: seq<string>, n: nat) {
    forall p, q | 0 <= p < q < n && q < |s| :: !Less(s[q], s[p])
  }

  ghost predicate SameStrings(s: seq<string>, t: seq<string>) {
    multiset(s) == multiset(t)
  }

  /** The element at `i` is on its way left and has got to `j`: it is less than all
      it has passed, and the others up to `i` are in order. */
  ghost predicate Inserting(s: seq<string>, i: nat, j: nat) {
    && j <= i < |s|
    && (forall p, q | 0 <= p < q <= i && q != j :: !Less(s[q], s[p]))
    && (forall q | j < q <= i :: Less(s[j], s[q]))
  }

  method SortStrings(a: array<string>)
    modifies a
    ensures Ordered(a[..]) && SameStrings(a[..], old(a[..]))
  {
    ghost var was := a[..];
    var i := 1;
    while i < a.Length
      invariant 1 <= i && (i <= a.Length || a.Length == 0)
      invariant OrderedUpTo(a[..], i) && SameStrings(a[..], was)
    {
      var j := i;
      while j > 0 && Less(a[j], a[j - 1])
        invariant Inserting(a[..], i, j) && SameStrings(a[..], was)
      {
        ghost var before := a[..];
        a[j], a[j - 1] := a[j - 1], a[j];
        OneLeft(before, a[..], i, j);
        j := j - 1;
      }
      Inserted(a[..], i, j);
      i := i + 1;
    }
  }

  lemma OneLeft(s: seq<string>, t: seq<string>, i: nat, j: nat)
    requires 0 < j && Inserting(s, i, j) && Less(s[j], s[j - 1])
    requires t == s[j := s[j - 1]][j - 1 := s[j]]
    ensures Inserting(t, i, j - 1) && SameStrings(t, s)
  {
    forall p, q | 0 <= p < q <= i && q != j - 1
      ensures !Less(t[q], t[p])
    {
      LessTotal(t[p], t[q]);
      if p == j - 1 && q > j {
        assert Less(s[j], s[q]);
      }
    }
  }

  lemma Inserted(s: seq<string>, i: nat, j: nat)
    requires Inserting(s, i, j) && (j > 0 ==> !Less(s[j], s[j - 1]))
    ensures OrderedUpTo(s, i + 1)
  {
    forall p | 0 <= p < j
      ensures !Less(s[j], s[p])
    {
      if p < j - 1 {
        NotLessTransitive(s[p], s[j - 1], s[j]);
      }
    }
  }

  // ---- the sorted list of a set ----

  predicate Increasing(s: seq<string>) {
    forall i, j | 0 <= i < j < |s| :: Less(s[i], s[j])
  }

  ghost function Elements(s: seq<string>): set<string> {
    set x | x in s
  }

  lemma NoElements(s: seq<string>)
    ensures s == [] <==> Elements(s) == {}
  {
    if s != [] { assert s[0] in Elements(s); }
  }

  /** A set has only one increasing list. */
  lemma {:induction false} OneList(a: seq<string>, b: seq<string>)
    requires Increasing(a) && Increasing(b) && Elements(a) == Elements(b)
    ensures a == b
    decreases |a|
  {
    if a == [] {
      NoElements(b);
    } else {
      assert a[0] in Elements(b);
      assert b != [] && b[0] in Elements(a);
      SameHead(a, b);
      SameTail(a, b);
      OneList(a[1..], b[1..]);
      assert a == [a[0]] + a[1..] && b == [b[0]] + b[1..];
    }
  }

  lemma SameHead(a: seq<string>, b: seq<string>)
    requires Increasing(a) && Increasing(b) && a != [] && b != [] && a[0] in b && b[0] in a
    ensures a[0] == b[0]
  {
    LessTotal(a[0], b[0]);
  }

  lemma SameTail(a: seq<string>, b: seq<string>)
    requires Increasing(a) && Increasing(b) && a != [] && b != [] && a[0] == b[0] && Elements(a) == Elements(b)
    ensures Elements(a[1..]) == Elements(b[1..])
  {
    LessTotal(a[0], a[0]);
    assert Elements(a[1..]) == Elements(a) - {a[0]} by { TailElements(a); }
    assert Elements(b[1..]) == Elements(b) - {b[0]} by { TailElements(b); }
  }

  lemma TailElements(a: seq<string>)
    requires Increasing(a) && a != []
    ensures Elements(a[1..]) == Elements(a) - {a[0]}
  {
    LessTotal(a[0], a[0]);
    assert a == [a[0]] + a[1..];
    assert forall x | x in a[1..] :: Less(a[0], x);
    assert forall x | x in a :: x == a[0] || x in a[1..];
  }

  lemma {:induction false} SortedListExists(s: set<string>) returns (r: seq<string>)
    ensures Increasing(r) && Elements(r) == s
    decreases s
  {
    if s == {} {
      r := [];
    } else {
      var k := LeastOf(s);
      var rest := SortedListExists(s - {k});
      r := [k] + rest;
      assert forall x | x in rest :: x in Elements(rest);
      assert forall x :: x in Elements(r) <==> x == k || x in Elements(rest);
    }
  }

  lemma {:induction false} LeastOf(s: set<string>) returns (k: string)
    requires s != {}
    ensures k in s && forall x | x in s && x != k :: Less(k, x)
    decreases s
  {
    var y :| y in s;
    if s == {y} {
      k := y;
    } else {
      var z := LeastOf(s - {y});
      LessTotal(y, z);
      k := if Less(y, z) then y else z;
      forall x | x in s && x != k
        ensures Less(k, x)
      {
        if x != y && k == y && x != z {
          LessTransitive(y, z, x);
        }
      }
    }
  }

  ghost function SortedList(s: set<string>): (r: seq<string>)
    ensures Increasing(r) && Elements(r) == s
  {
    SortedListHas(s);
    var r :| Increasing(r) && Elements(r) == s;
    r
  }

  lemma SortedListHas(s: set<string>)
    ensures exists r :: Increasing(r) && Elements(r) == s
  {
    var r := SortedListExists(s);
  }

  /** Sorting distinct strings gives the list of their set. */
  lemma SortedIsList(s: seq<string>, was: seq<string>)
    requires Ordered(s) && multiset(s) == multiset(was)
    requires forall i, j | 0 <= i < j < |was| :: was[i] != was[j]
    ensures s == SortedList(Elements(was))
  {
    Distinct(s, was);
    forall i, j | 0 <= i < j < |s|
      ensures Less(s[i], s[j])
    {
      LessTotal(s[i], s[j]);
    }
    assert forall x :: x in s <==> x in multiset(s);
    assert forall x :: x in was <==> x in multiset(was);
    assert Elements(s) == Elements(was);
    OneList(s, SortedList(Elements(was)));
  }

  lemma Distinct(s: seq<string>, was: seq<string>)
    requires multiset(s) == multiset(was)
    requires forall i, j | 0 <= i < j < |was| :: was[i] != was[j]
    ensures forall i, j | 0 <= i < j < |s| :: s[i] != s[j]
  {
    forall i, j | 0 <= i < j < |s|
      ensures s[i] != s[j]
    {
      if s[i] == s[j] {
        Twice(s, i, j);
        Once(was, s[i]);
        assert false;
      }
    }
  }

  lemma Twice(s: seq<string>, i: nat, j: nat)
    requires i < j < |s| && s[i] == s[j]
    ensures multiset(s)[s[i]] >= 2
  {
    assert s == s[..i] + [s[i]] + s[i + 1..j] + [s[j]] + s[j + 1..];
  }

  lemma {:induction false} Once(s: seq<string>, x: string)
    requires forall i, j | 0 <= i < j < |s| :: s[i] != s[j]
    ensures multiset(s)[x] <= 1
    decreases |s|
  {
    if s != [] {
      Once(s[1..], x);
      assert s == [s[0]] + s[1..];
      assert s[0] == x ==> x !in s[1..];
    }
  }
}
