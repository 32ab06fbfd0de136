/** The in-place sort of the converted ACL (fs/nfsd/nfs4acl.c:348-389). */
module AclSort {
  import opened AclTypes

  // ---- inversions ----

  function Below(s: seq<Named>, id: Id): nat {
    if s == [] then 0 else (if s[0].id < id then 1 else 0) + Below(s[1..], id)
  }

  /** The number of pairs that are out of order. */
  function Inversions(s: seq<Named>): nat {
    if s == [] then 0 else Below(s[1..], s[0].id) + Inversions(s[1..])
  }

  function Swapped<T>(s: seq<T>, i: nat): (r: seq<T>)
    requires i + 1 < |s|
    ensures |r| == |s|
  {
    s[i := s[i+1]][i+1 := s[i]]
  }

  lemma {:induction false} BelowSwapped(s: seq<Named>, i: nat, id: Id)
    requires i + 1 < |s|
    ensures Below(Swapped(s, i), id) == Below(s, id)
  {
    if i == 0 {
      assert Swapped(s, i)[1..][1..] == s[1..][1..];
    } else {
      assert Swapped(s, i)[1..] == Swapped(s[1..], i - 1);
      BelowSwapped(s[1..], i - 1, id);
    }
  }

  /** Exchanging two neighbours that are out of order removes exactly one inversion. */
  lemma {:induction false} SwapRemovesInversion(s: seq<Named>, i: nat)
    requires i + 1 < |s| && s[i].id > s[i+1].id
    ensures Inversions(Swapped(s, i)) == Inversions(s) - 1
  {
    var t := Swapped(s, i);
    if i == 0 {
      assert t[1..][1..] == s[1..][1..];
    } else {
      assert t[1..] == Swapped(s[1..], i - 1);
      SwapRemovesInversion(s[1..], i - 1);
      BelowSwapped(s[1..], i - 1, s[0].id);
    }
  }

  lemma SwapPermutes(s: seq<Named>, i: nat)
    requires i + 1 < |s| && Distinct(s)
    ensures multiset(Swapped(s, i)) == multiset(s) && Distinct(Swapped(s, i))
  {
  }

  lemma {:induction false} NeighboursAscend(s: seq<Named>)
    requires Distinct(s) && forall i :: 0 <= i < |s| - 1 ==> s[i].id <= s[i+1].id
    ensures Ascending(s)
  {
    if s != [] {
      var t := s[1..];
      forall i | 0 <= i < |t| - 1 ensures t[i].id <= t[i+1].id {
        assert s[i+1].id <= s[i+1+1].id;
      }
      NeighboursAscend(t);
      forall i, j | 0 <= i < j < |s| ensures s[i].id < s[j].id {
        if i > 0 {
          assert t[i-1].id < t[j-1].id;
        } else if j > 1 {
          assert t[0].id < t[j-1].id;
        }
      }
    }
  }

  // ---- the sort ----

  /** The array is pre, then the entries for ns, then post. */
  ghost predicate Holds(a: array<Entry>, pre: seq<Entry>, tag: Tag, ns: seq<Named>, post: seq<Entry>)
    reads a
  {
    && a.Length == |pre| + |ns| + |post|
    && (forall k :: 0 <= k < |pre| ==> a[k] == pre[k])
    && (forall k :: |pre| <= k < |pre| + |ns| ==> a[k] == Entry(tag, ns[k-|pre|].perm, ns[k-|pre|].id))
    && (forall k :: |pre| + |ns| <= k < a.Length ==> a[k] == post[k-|pre|-|ns|])
  }

  lemma HoldsConcat(a: array<Entry>, pre: seq<Entry>, tag: Tag, ns: seq<Named>, post: seq<Entry>)
    ensures Holds(a, pre, tag, ns, post) <==> a[..] == pre + Tagged(tag, ns) + post
  {
    var c := pre + Tagged(tag, ns) + post;
    if a[..] == c {
      assert forall k :: 0 <= k < a.Length ==> a[k] == c[k];
    }
  }

  method SwapNeighbours(a: array<Entry>, i: nat, ghost pre: seq<Entry>, ghost tag: Tag, ghost ns: seq<Named>,
      ghost post: seq<Entry>)
    requires Holds(a, pre, tag, ns, post) && |pre| <= i && i + 1 < |pre| + |ns|
    modifies a
    ensures Holds(a, pre, tag, Swapped(ns, i - |pre|), post)
  {
    a[i], a[i+1] := a[i+1], a[i];
  }

  /** One comparison of the bubble sort. */
  method BubbleStep(a: array<Entry>, i: nat, ghost pre: seq<Entry>, ghost tag: Tag, ghost ns0: seq<Named>,
      ghost post: seq<Entry>)
      returns (swapped: bool, ghost ns: seq<Named>)
    requires Holds(a, pre, tag, ns0, post) && |pre| <= i && i + 1 < |pre| + |ns0| && Distinct(ns0)
    modifies a
    ensures Holds(a, pre, tag, ns, post) && multiset(ns) == multiset(ns0) && |ns| == |ns0| && Distinct(ns)
    ensures if swapped then Inversions(ns) < Inversions(ns0)
            else ns == ns0 && ns[i - |pre|].id <= ns[i - |pre| + 1].id
  {
    ns := ns0;
    swapped := a[i].id > a[i+1].id;
    if swapped {
      SwapRemovesInversion(ns, i - |pre|);
      SwapPermutes(ns, i - |pre|);
      SwapNeighbours(a, i, pre, tag, ns, post);
      ns := Swapped(ns, i - |pre|);
    }
  }

  /** One pass of the bubble sort: with a swap there are fewer inversions, without one the
      range is in order. */
  method BubblePass(a: array<Entry>, start: nat, end: int, ghost pre: seq<Entry>, ghost tag: Tag,
      ghost ns0: seq<Named>, ghost post: seq<Entry>)
      returns (sorted: bool, ghost ns: seq<Named>)
    requires Holds(a, pre, tag, ns0, post) && start == |pre| && end + 1 == start + |ns0| && Distinct(ns0)
    modifies a
    ensures Holds(a, pre, tag, ns, post) && multiset(ns) == multiset(ns0) && |ns| == |ns0| && Distinct(ns)
    ensures if sorted then ns == ns0 && Ascending(ns) else Inversions(ns) < Inversions(ns0)
  {
    ns := ns0;
    sorted := true;
    var i := start;
    while i < end
      invariant start <= i && (i <= end || i == start) && |ns| == |ns0|
      invariant Holds(a, pre, tag, ns, post) && multiset(ns) == multiset(ns0) && Distinct(ns)
      invariant if sorted then ns == ns0 else Inversions(ns) < Inversions(ns0)
      invariant sorted ==> forall k :: 0 <= k < i - start ==> ns[k].id <= ns[k+1].id
    {
      var swapped;
      swapped, ns := BubbleStep(a, i, pre, tag, ns, post);
      if swapped {
        sorted := false;
      }
      i := i + 1;
    }
    if sorted {
      NeighboursAscend(ns);
    }
  }

  /** sort_pacl_range, both ends included; it stops because inversions run out. */
  method SortPaclRange(a: array<Entry>, start: nat, end: int, ghost pre: seq<Entry>, ghost tag: Tag,
      ghost ns0: seq<Named>, ghost post: seq<Entry>)
      returns (ghost ns: seq<Named>)
    requires Holds(a, pre, tag, ns0, post) && start == |pre| && end + 1 == start + |ns0| && Distinct(ns0)
    modifies a
    ensures Holds(a, pre, tag, ns, post) && multiset(ns) == multiset(ns0) && |ns| == |ns0| && Ascending(ns)
  {
    ns := ns0;
    var sorted := false;
    while !sorted
      invariant Holds(a, pre, tag, ns, post) && multiset(ns) == multiset(ns0) && |ns| == |ns0| && Distinct(ns)
      invariant sorted ==> Ascending(ns)
      decreases Inversions(ns), !sorted
    {
      sorted, ns := BubblePass(a, start, end, pre, tag, ns, post);
    }
  }

  /** b has the entries of a, its users and its groups each in ascending order. */
  ghost predicate Reordered(a: PosixAcl, b: PosixAcl) {
    && a.(users := b.users, groups := b.groups) == b
    && multiset(a.users) == multiset(b.users) && multiset(a.groups) == multiset(b.groups)
    && Ascending(b.users) && Ascending(b.groups)
  }

  lemma MultisetMembers(a: seq<Named>, b: seq<Named>)
    requires multiset(a) == multiset(b)
    ensures forall n :: n in a <==> n in b
  {
    assert forall n :: n in a <==> n in multiset(a);
    assert forall n :: n in b <==> n in multiset(b);
  }

  /** Sorting changes nobody's access. */
  lemma ReorderedGrantsSame(a: PosixAcl, b: PosixAcl, p: Perm, file: File, r: Requester)
    requires Reordered(a, b)
    ensures a.Grants(p, file, r) <==> b.Grants(p, file, r)
  {
    MultisetMembers(a.users, b.users);
    MultisetMembers(a.groups, b.groups);
  }

  lemma AscendingHeads(a: seq<Named>, b: seq<Named>)
    requires Ascending(a) && Ascending(b) && a != [] && a[0] in b && b != [] && b[0] in a
    ensures a[0] == b[0]
  {
    var i :| 0 <= i < |a| && a[i] == b[0];
    var j :| 0 <= j < |b| && b[j] == a[0];
    assert a[0].id <= a[i].id && b[0].id <= b[j].id;
  }

  lemma SameTails(a: seq<Named>, b: seq<Named>)
    requires a != [] && b != [] && multiset(a) == multiset(b) && a[0] == b[0]
    ensures multiset(a[1..]) == multiset(b[1..])
  {
    assert a == [a[0]] + a[1..] && b == [b[0]] + b[1..];
    assert multiset(a) == multiset{a[0]} + multiset(a[1..]);
    assert multiset(b) == multiset{b[0]} + multiset(b[1..]);
    assert multiset(a[1..]) == multiset(a) - multiset{a[0]};
  }

  lemma EmptyTogether(a: seq<Named>, b: seq<Named>)
    requires multiset(a) == multiset(b)
    ensures |a| == |b|
  {
    assert |multiset(a)| == |multiset(b)|;
  }

  /** A list that is in order already is the only sorted one with its entries. */
  lemma {:induction false} SortedIsUnique(a: seq<Named>, b: seq<Named>)
    requires multiset(a) == multiset(b) && Ascending(a) && Ascending(b)
    ensures a == b
  {
    EmptyTogether(a, b);
    if a != [] {
      MultisetMembers(a, b);
      AscendingHeads(a, b);
      SameTails(a, b);
      SortedIsUnique(a[1..], b[1..]);
      assert a == [a[0]] + a[1..] && b == [b[0]] + b[1..];
    }
  }

  /** sort_pacl on a converted ACL, which always has a mask entry. */
  method SortPacl(es: array<Entry>, ghost a: PosixAcl) returns (ghost b: PosixAcl)
    requires es[..] == a.Flatten() && a.mask.Some? && Distinct(a.users) && Distinct(a.groups)
    modifies es
    ensures es[..] == b.Flatten() && Reordered(a, b)
  {
    b := a;
    if es.Length <= 4 {
      return;
    }
    ghost var own, grp := [Entry(UserObj, a.owner, UNDEFINED_ID)], [Entry(GroupObj, a.group, UNDEFINED_ID)];
    ghost var rest := grp + Tagged(Group, a.groups) + a.Tail();
    assert es[..] == own + Tagged(User, a.users) + rest;
    HoldsConcat(es, own, User, a.users, rest);
    var i := SkipTag(es, 1, User, own, a.users, rest);
    ghost var us := SortPaclRange(es, 1, i - 1, own, User, a.users, rest);
    HoldsConcat(es, own, User, us, rest);
    ghost var front := own + Tagged(User, us) + grp;
    assert es[..] == front + Tagged(Group, a.groups) + a.Tail();
    HoldsConcat(es, front, Group, a.groups, a.Tail());
    i := i + 1;
    var j := SkipTag(es, i, Group, front, a.groups, a.Tail());
    ghost var gs := SortPaclRange(es, i, j - 1, front, Group, a.groups, a.Tail());
    HoldsConcat(es, front, Group, gs, a.Tail());
    b := a.(users := us, groups := gs);
  }

  /** The two scans for the end of a run. */
  method SkipTag(es: array<Entry>, from: nat, tag: Tag, ghost pre: seq<Entry>, ghost ns: seq<Named>,
      ghost post: seq<Entry>)
      returns (i: nat)
    requires Holds(es, pre, tag, ns, post) && from == |pre| && post != [] && post[0].tag != tag
    ensures i == from + |ns|
  {
    assert es[from + |ns|] == post[0];
    i := from;
    while es[i].tag == tag
      invariant from <= i <= from + |ns|
      decreases es.Length - i
    {
      i := i + 1;
    }
  }
}
