/** A POSIX ACL translated to ACEs (AclForward) and back (AclReverse) comes back whole. */
module AclRoundTrip {
  import opened Common
  import opened AclTypes
  import opened AclForward
  import opened AclReverse
  import Sorting = AclSort

  const RWX: Mask := {READ_DATA, WRITE_DATA, APPEND_DATA, EXECUTE, DELETE_CHILD}

  // ---- what comes back ----

  function Masked(ns: seq<Named>, mask: Perms): (r: seq<Named>)
    ensures |r| == |ns|
    ensures forall i :: 0 <= i < |ns| ==> r[i] == Named(ns[i].id, ns[i].perm * mask)
  {
    seq(|ns|, i requires 0 <= i < |ns| => Named(ns[i].id, ns[i].perm * mask))
  }

  /** The same ids, owner and other; the group class as the mask leaves it, under the mask
      that is just wide enough. */
  function Normalized(a: PosixAcl): PosixAcl {
    var s := Summarize(a);
    PosixAcl(a.owner, Masked(a.users, s.mask), s.group, Masked(a.groups, s.mask),
             Some(s.users + s.group + s.groups), a.other)
  }

  lemma MaskedLookups(ns: seq<Named>, mask: Perms, ids: set<Id>, id: Id, p: Perm)
    ensures GrantedBy(Masked(ns, mask), ids, p) <==> GrantedBy(ns, ids, p) && p in mask
    ensures Lists(Masked(ns, mask), id) <==> Lists(ns, id)
    ensures (exists n <- Masked(ns, mask) :: n.id in ids) <==> (exists n <- ns :: n.id in ids)
    ensures GrantedBy(ns, ids, p) ==> p in UnionPerms(ns)
  {
    var ms := Masked(ns, mask);
    UnionPermsHolds(ns, p);
    forall i | 0 <= i < |ns|
      ensures ns[i] in ns && ms[i] in ms && ms[i].id == ns[i].id && (p in ms[i].perm <==> p in ns[i].perm && p in mask)
    {
    }
  }

  /** Coming back changes nobody's access, even when the source had no mask entry. */
  lemma NormalizedGrantsSame(a: PosixAcl, p: Perm, file: File, r: Requester)
    ensures Normalized(a).Grants(p, file, r) <==> a.Grants(p, file, r)
  {
    MaskedLookups(a.users, a.Limit(), {r.uid}, r.uid, p);
    MaskedLookups(a.groups, a.Limit(), r.gids, r.uid, p);
  }

  // ---- processing the emitted ACEs ----

  lemma {:induction false} ProcessConcat(s: AclState, a: seq<Ace>, b: seq<Ace>)
    ensures ProcessAll(s, a + b) == ProcessAll(ProcessAll(s, a), b)
  {
    if b == [] {
      assert a + b == a;
    } else {
      assert (a + b)[..|a + b|-1] == a + b[..|b|-1];
      ProcessConcat(s, a, b[..|b|-1]);
    }
  }

  lemma ProcessSingle(s: AclState, ace: Ace)
    ensures ProcessAll(s, [ace]) == ProcessOne(s, ace)
  {
    assert [ace][..0] == [];
  }

  /** The accumulator has settled on ps: it allows exactly that, and everything else that
      `rest` would still add is denied, by bits that POSIX can deny. */
  ghost predicate Settled(st: AceState, ps: Perms, extra: Mask, rest: Perms, dir: bool) {
    && st.allow == AllowBits(ps, dir) + extra
    && ModeBits(rest - ps, dir) <= st.deny <= RWX
  }

  lemma ModeBitsFacts(x: Perms, y: Perms, dir: bool)
    ensures ModeBits(x, dir) <= RWX && ModeBits(x - y, dir) !! AllowBits(y, dir)
    ensures x <= y ==> ModeBits(x, dir) <= ModeBits(y, dir)
    ensures ModeBits(x, dir) <= ModeBits(x - y, dir) + ModeBits(y, dir)
    ensures RWX !! ANYONE_MODE && RWX !! OWNER_MODE
  {
  }

  /** Further denials leave a settled accumulator settled. */
  lemma SettledDeny(st: AceState, ps: Perms, extra: Mask, rest: Perms, dir: bool, m: Mask)
    requires Settled(st, ps, extra, rest, dir) && m <= RWX
    ensures Settled(DenyIn(st, m), ps, extra, rest, dir)
  {
  }

  /** Allowing everyone the rest adds nothing to a settled accumulator. */
  lemma SettledAllow(st: AceState, ps: Perms, extra: Mask, rest: Perms, dir: bool)
    requires Settled(st, ps, extra, rest, dir)
    ensures AllowIn(st, AllowBits(rest, dir)).allow == st.allow
    ensures AllowIn(st, AllowBits(rest, dir)).deny <= RWX
  {
    ModeBitsFacts(rest, ps, dir);
  }

  lemma LowModeOfAllow(ps: Perms, extra: Mask, dir: bool)
    requires extra <= OWNER_MODE
    ensures LowMode(AllowBits(ps, dir) + extra, dir) == ps
  {
    forall p: Perm ensures p in LowMode(AllowBits(ps, dir) + extra, dir) <==> p in ps {
      assert p in ALL_PERMS by {
        match p case Read => case Write => case Execute =>
      }
      var b := if p == Read then READ_DATA else if p == Write then WRITE_DATA else EXECUTE;
      ModeBitsExact(p, b, dir);
      if p in ps {
        assert PermBits(p, dir) <= ModeBits(ps, dir);
      }
    }
  }

  ghost predicate OwnerSettled(s: AclState, a: PosixAcl, dir: bool) {
    Settled(s.owner, a.owner, OWNER_MODE, a.other, dir)
  }

  ghost predicate UsersSettled(s: AclState, a: PosixAcl, n: nat, dir: bool)
    requires n <= |a.users|
  {
    && |s.users| == n
    && forall i :: 0 <= i < n ==>
         s.users[i].uid == a.users[i].id && Settled(s.users[i].perms, a.users[i].perm * a.Limit(), {}, a.other, dir)
  }

  /** After the owner's ACEs and those of n users. */
  ghost predicate Phase1(s: AclState, a: PosixAcl, n: nat, dir: bool)
    requires n <= |a.users|
  {
    && OwnerSettled(s, a, dir) && UsersSettled(s, a, n, dir)
    && s.group == s.other == s.everyone == NOTHING && s.groups == []
  }

  /** The denials of a (deny, allow) pair, in terms of masks alone. */
  lemma DenyThen(s: AclState, deny: Perms, flag: Mask, who: WhoType, id: Id, dir: bool, rest: seq<Ace>)
    ensures var d := DenyUnlessEmpty(deny, flag, who, id, dir);
      ProcessAll(s, d + rest)
        == ProcessAll(if deny == {} then s else ProcessOne(s, Ace(Deny, flag, ModeBits(deny, dir), who, id)), rest)
  {
    var d := DenyUnlessEmpty(deny, flag, who, id, dir);
    ProcessConcat(s, d, rest);
    if deny != {} {
      ProcessSingle(s, d[0]);
    }
  }

  lemma OwnerPair(d: Mask, a: Mask, flag: Mask)
    requires d !! a
    ensures ProcessOne(ProcessOne(INIT_STATE, Ace(Deny, flag, d, WhoOwner, 0)), Ace(Allow, flag, a, WhoOwner, 0))
         == INIT_STATE.(empty := false, owner := AceState(a, d))
    ensures ProcessOne(INIT_STATE, Ace(Allow, flag, a, WhoOwner, 0))
      == INIT_STATE.(empty := false, owner := AceState(a, {}))
  {
    assert d - {} == d && {} + d == d && a - d == a && {} + a == a && a - {} == a;
  }

  lemma UserPair(s: AclState, id: Id, d: Mask, a: Mask, flag: Mask)
    requires d !! a && IndexOf(s.users, id) == |s.users| && s.everyone == NOTHING && IDENTIFIER_GROUP !in flag
    ensures ProcessOne(ProcessOne(s, Ace(Deny, flag, d, WhoNamed, id)), Ace(Allow, flag, a, WhoNamed, id))
         == s.(empty := false, owner := DenyIn(s.owner, d), users := s.users + [IdState(id, AceState(a, d))])
    ensures ProcessOne(s, Ace(Allow, flag, a, WhoNamed, id))
         == s.(empty := false, users := s.users + [IdState(id, AceState(a, {}))])
  {
    assert d - {} == d && {} + d == d && a - d == a && {} + a == a && a - {} == a;
    var us := s.users + [IdState(id, AceState({}, d))];
    IndexOfUnique(us, id, |s.users|);
    var mid := ProcessOne(s, Ace(Deny, flag, d, WhoNamed, id));
    assert mid == s.(empty := false, owner := DenyIn(s.owner, d), users := us) by {
      assert (s.users + [IdState(id, NOTHING)])[|s.users| := IdState(id, AceState({}, d))] == us;
    }
    assert us[|s.users| := IdState(id, AceState(a, d))] == s.users + [IdState(id, AceState(a, d))];
  }

  lemma SettledPair(perms: Perms, deny: Perms, extra: Mask, rest: Perms, dir: bool)
    requires rest - perms <= deny && deny !! perms && extra <= OWNER_MODE
    ensures Settled(AceState(AllowBits(perms, dir) + extra, ModeBits(deny, dir)), perms, extra, rest, dir)
    ensures ModeBits(deny, dir) !! AllowBits(perms, dir) + extra && ModeBits(deny, dir) <= RWX
    ensures deny == {} ==> ModeBits(deny, dir) == {}
  {
    ModeBitsFacts(deny, perms, dir);
    ModeBitsFacts(rest - perms, deny, dir);
    assert deny - perms == deny;
  }

  lemma OwnerPhase(a: PosixAcl, flag: Mask, dir: bool)
    ensures Phase1(ProcessAll(INIT_STATE, OwnerAces(Summarize(a), flag, dir)), a, 0, dir)
  {
    var s := Summarize(a);
    var deny := (s.users + s.group + s.groups + s.other) - s.owner;
    var allow := AllowBits(s.owner, dir) + OWNER_MODE;
    SettledPair(s.owner, deny, OWNER_MODE, s.other, dir);
    DenyThen(INIT_STATE, deny, flag, WhoOwner, 0, dir, [Ace(Allow, flag, allow, WhoOwner, 0)]);
    ProcessSingle(if deny == {} then INIT_STATE
      else ProcessOne(INIT_STATE, Ace(Deny, flag, ModeBits(deny, dir), WhoOwner, 0)),
      Ace(Allow, flag, allow, WhoOwner, 0));
    OwnerPair(ModeBits(deny, dir), allow, flag);
  }

  lemma UserStep(s: AclState, a: PosixAcl, n: nat, flag: Mask, dir: bool)
    requires a.Valid() && n < |a.users| && Phase1(s, a, n, dir) && IDENTIFIER_GROUP !in flag
    ensures Phase1(ProcessAll(s, UserAce(a.users[n], Summarize(a), flag, dir)), a, n + 1, dir)
  {
    var u, sum := a.users[n], Summarize(a);
    var perms := u.perm * sum.mask;
    var deny := (sum.groups + sum.group + sum.other) - perms;
    var d, allow := ModeBits(deny, dir), Ace(Allow, flag, AllowBits(perms, dir), WhoNamed, u.id);
    assert IndexOf(s.users, u.id) == n;
    SettledPair(perms, deny, {}, sum.other, dir);
    assert AllowBits(perms, dir) + {} == AllowBits(perms, dir);
    SettledDeny(s.owner, a.owner, OWNER_MODE, a.other, dir, d);
    DenyThen(s, deny, flag, WhoNamed, u.id, dir, [allow]);
    ProcessSingle(if deny == {} then s else ProcessOne(s, Ace(Deny, flag, d, WhoNamed, u.id)), allow);
    UserPair(s, u.id, d, AllowBits(perms, dir), flag);
  }

  lemma ProcessUserAces(s: AclState, ns: seq<Named>, k: nat, sum: Summary, flag: Mask, dir: bool)
    requires k < |ns|
    ensures ProcessAll(s, UserAces(ns[..k+1], sum, flag, dir))
         == ProcessAll(ProcessAll(s, UserAces(ns[..k], sum, flag, dir)), UserAce(ns[k], sum, flag, dir))
  {
    assert ns[..k+1][..k] == ns[..k];
    ProcessConcat(s, UserAces(ns[..k], sum, flag, dir), UserAce(ns[k], sum, flag, dir));
  }

  lemma {:induction false} UsersPhase(s: AclState, a: PosixAcl, n: nat, flag: Mask, dir: bool)
    requires a.Valid() && n <= |a.users| && Phase1(s, a, 0, dir) && IDENTIFIER_GROUP !in flag
    ensures Phase1(ProcessAll(s, UserAces(a.users[..n], Summarize(a), flag, dir)), a, n, dir)
    decreases n
  {
    if n > 0 {
      var k := n - 1;
      UsersPhase(s, a, k, flag, dir);
      ProcessUserAces(s, a.users, k, Summarize(a), flag, dir);
      UserStep(ProcessAll(s, UserAces(a.users[..k], Summarize(a), flag, dir)), a, k, flag, dir);
    }
  }

  // ---- the group class ----

  /** After the group allows: every entry allows exactly its own, and nothing is denied yet. */
  ghost predicate Phase2(s: AclState, a: PosixAcl, n: nat, dir: bool)
    requires n <= |a.groups|
  {
    && OwnerSettled(s, a, dir) && UsersSettled(s, a, |a.users|, dir)
    && s.group == AceState(AllowBits(Summarize(a).group, dir), {}) && s.other == s.everyone == NOTHING
    && |s.groups| == n
    && forall i :: 0 <= i < n ==>
         s.groups[i] == IdState(a.groups[i].id, AceState(AllowBits(a.groups[i].perm * a.Limit(), dir), {}))
  }

  lemma GroupPair(s: AclState, id: Id, m: Mask, flag: Mask)
    requires IndexOf(s.groups, id) == |s.groups| && s.everyone == NOTHING && IDENTIFIER_GROUP in flag
    ensures ProcessOne(s, Ace(Allow, flag, m, WhoNamed, id))
         == s.(empty := false, groups := s.groups + [IdState(id, AceState(m, {}))])
  {
    assert {} + (m - {}) == m;
  }

  lemma GroupObjPair(s: AclState, m: Mask, flag: Mask)
    requires s.group == NOTHING
    ensures ProcessOne(s, Ace(Allow, flag, m, WhoGroup, 0)) == s.(empty := false, group := AceState(m, {}))
  {
    assert {} + (m - {}) == m;
  }

  lemma GroupAllowStep(t: AclState, a: PosixAcl, k: nat, flag: Mask, dir: bool)
    requires a.Valid() && k < |a.groups| && Phase2(t, a, k, dir)
    ensures Phase2(ProcessOne(t, GroupAllow(a.groups[k], Summarize(a), flag, dir)), a, k + 1, dir)
  {
    var ace := GroupAllow(a.groups[k], Summarize(a), flag, dir);
    assert IndexOf(t.groups, a.groups[k].id) == k;
    GroupPair(t, a.groups[k].id, ace.mask, ace.flag);
  }

  lemma ProcessGroupAllow(s: AclState, ns: seq<Named>, k: nat, sum: Summary, flag: Mask, dir: bool)
    requires k < |ns|
    ensures ProcessAll(s, GroupAllows(ns[..k+1], sum, flag, dir))
         == ProcessOne(ProcessAll(s, GroupAllows(ns[..k], sum, flag, dir)), GroupAllow(ns[k], sum, flag, dir))
  {
    assert ns[..k+1][..k] == ns[..k];
    ProcessAllAppend(s, GroupAllows(ns[..k], sum, flag, dir), GroupAllow(ns[k], sum, flag, dir));
  }

  lemma {:induction false} GroupsAllowed(s: AclState, a: PosixAcl, n: nat, flag: Mask, dir: bool)
    requires a.Valid() && n <= |a.groups| && Phase2(s, a, 0, dir)
    ensures Phase2(ProcessAll(s, GroupAllows(a.groups[..n], Summarize(a), flag, dir)), a, n, dir)
    decreases n
  {
    if n > 0 {
      var k := n - 1;
      GroupsAllowed(s, a, k, flag, dir);
      GroupAllowStep(ProcessAll(s, GroupAllows(a.groups[..k], Summarize(a), flag, dir)), a, k, flag, dir);
      ProcessGroupAllow(s, a.groups, k, Summarize(a), flag, dir);
    }
  }

  lemma ProcessFour(s: AclState, o: seq<Ace>, u: seq<Ace>, g: Ace, ga: seq<Ace>)
    ensures ProcessAll(s, o + u + [g] + ga) == ProcessAll(ProcessOne(ProcessAll(ProcessAll(s, o), u), g), ga)
  {
    ProcessConcat(s, o, u);
    ProcessAllAppend(s, o + u, g);
    ProcessConcat(s, o + u + [g], ga);
  }

  lemma UsersFront(a: PosixAcl, flag: Mask, dir: bool)
    requires a.Valid() && IDENTIFIER_GROUP !in flag
    ensures Phase1(ProcessAll(ProcessAll(INIT_STATE, OwnerAces(Summarize(a), flag, dir)),
                              UserAces(a.users, Summarize(a), flag, dir)), a, |a.users|, dir)
  {
    OwnerPhase(a, flag, dir);
    assert a.users[..|a.users|] == a.users;
    UsersPhase(ProcessAll(INIT_STATE, OwnerAces(Summarize(a), flag, dir)), a, |a.users|, flag, dir);
  }

  lemma GroupFront(t: AclState, a: PosixAcl, flag: Mask, dir: bool)
    requires a.Valid() && Phase1(t, a, |a.users|, dir)
    ensures Phase2(ProcessAll(ProcessOne(t, Ace(Allow, flag, AllowBits(Summarize(a).group, dir), WhoGroup, 0)),
                              GroupAllows(a.groups, Summarize(a), flag, dir)), a, |a.groups|, dir)
  {
    var m := AllowBits(Summarize(a).group, dir);
    GroupObjPair(t, m, flag);
    assert a.groups[..|a.groups|] == a.groups;
    GroupsAllowed(t.(empty := false, group := AceState(m, {})), a, |a.groups|, flag, dir);
  }

  lemma FrontPhase(a: PosixAcl, flag: Mask, dir: bool)
    requires a.Valid() && IDENTIFIER_GROUP !in flag
    ensures Phase2(ProcessAll(INIT_STATE, Front(a, flag, dir)), a, |a.groups|, dir)
  {
    var s := Summarize(a);
    var o, u := OwnerAces(s, flag, dir), UserAces(a.users, s, flag, dir);
    var t := ProcessAll(ProcessAll(INIT_STATE, o), u);
    UsersFront(a, flag, dir);
    GroupFront(t, a, flag, dir);
    ProcessFour(INIT_STATE, o, u, Ace(Allow, flag, AllowBits(s.group, dir), WhoGroup, 0),
      GroupAllows(a.groups, s, flag, dir));
  }

  ghost predicate AllowsOnly(st: AceState, ps: Perms, dir: bool) {
    st.allow == AllowBits(ps, dir) && st.deny <= RWX
  }

  /** During the group denies: the allows stand still, and the first n groups are settled. */
  ghost predicate Phase3(s: AclState, a: PosixAcl, n: nat, dir: bool)
    requires n <= |a.groups|
  {
    && OwnerSettled(s, a, dir) && UsersSettled(s, a, |a.users|, dir)
    && Settled(s.group, Summarize(a).group, {}, a.other, dir)
    && s.other == NOTHING && s.everyone.allow == {} && s.everyone.deny <= RWX
    && |s.groups| == |a.groups|
    && (forall i :: 0 <= i < |a.groups| ==>
          s.groups[i].uid == a.groups[i].id && AllowsOnly(s.groups[i].perms, a.groups[i].perm * a.Limit(), dir))
    && (forall i :: 0 <= i < n ==> Settled(s.groups[i].perms, a.groups[i].perm * a.Limit(), {}, a.other, dir))
  }

  /** Denials made on behalf of a group never disturb what has been reached. */
  lemma DenyAllPhase3(s: AclState, a: PosixAcl, n: nat, dir: bool, m: Mask)
    requires n <= |a.groups| && Phase3(s, a, n, dir) && m <= RWX
    ensures Phase3(DenyAll(s.(group := DenyIn(s.group, m)), m), a, n, dir)
    ensures Phase3(DenyAll(s, m), a, n, dir)
  {
    SettledDeny(s.owner, a.owner, OWNER_MODE, a.other, dir, m);
    SettledDeny(s.group, Summarize(a).group, {}, a.other, dir, m);
    forall i | 0 <= i < |a.users|
      ensures Settled(DenyIn(s.users[i].perms, m), a.users[i].perm * a.Limit(), {}, a.other, dir)
    {
      SettledDeny(s.users[i].perms, a.users[i].perm * a.Limit(), {}, a.other, dir, m);
    }
    forall i | 0 <= i < n
      ensures Settled(DenyIn(s.groups[i].perms, m), a.groups[i].perm * a.Limit(), {}, a.other, dir)
    {
      SettledDeny(s.groups[i].perms, a.groups[i].perm * a.Limit(), {}, a.other, dir, m);
    }
  }

  lemma GroupObjDeny(s: AclState, a: PosixAcl, flag: Mask, dir: bool)
    requires Phase2(s, a, |a.groups|, dir)
    ensures Phase3(ProcessAll(s, DenyUnlessEmpty(Summarize(a).other - Summarize(a).group, flag, WhoGroup, 0, dir)),
      a, 0, dir)
  {
    var sum := Summarize(a);
    var deny := sum.other - sum.group;
    var d := ModeBits(deny, dir);
    SettledPair(sum.group, deny, {}, sum.other, dir);
    assert AllowBits(sum.group, dir) + {} == AllowBits(sum.group, dir);
    if deny == {} {
      assert d == {};
    } else {
      ProcessSingle(s, Ace(Deny, flag, d, WhoGroup, 0));
      var g := AceState(AllowBits(sum.group, dir), d);
      assert DenyIn(s.group, d) == g by {
        assert {} + (d - AllowBits(sum.group, dir)) == d;
      }
      DenyAllPhase3(s.(group := g, empty := false), a, 0, dir, d);
    }
  }

  lemma GroupDenyEffect(s: AclState, n: nat, d: Mask, flag: Mask, id: Id)
    requires n < |s.groups| && IndexOf(s.groups, id) == n && IDENTIFIER_GROUP in flag
    ensures var p := DenyIn(s.groups[n].perms, d);
      ProcessOne(s, Ace(Deny, flag, d, WhoNamed, id))
        == DenyAll(s.(empty := false, groups := s.groups[n := s.groups[n].(perms := p)],
          group := DenyIn(s.group, p.deny)), p.deny)
  {
  }

  lemma GroupSettles(s: AclState, a: PosixAcl, n: nat, dir: bool, p: AceState)
    requires n < |a.groups| && Phase3(s, a, n, dir)
    requires Settled(p, a.groups[n].perm * a.Limit(), {}, a.other, dir)
    ensures Phase3(s.(empty := false, groups := s.groups[n := s.groups[n].(perms := p)]), a, n + 1, dir)
  {
  }

  lemma GroupDenyStep(s: AclState, a: PosixAcl, n: nat, flag: Mask, dir: bool)
    requires a.Valid() && n < |a.groups| && Phase3(s, a, n, dir)
    ensures Phase3(ProcessAll(s, GroupDeny(a.groups[n], Summarize(a), flag, dir)), a, n + 1, dir)
  {
    var g := a.groups[n];
    var perms := g.perm * a.Limit();
    var deny := a.other - perms;
    var d := ModeBits(deny, dir);
    var p := DenyIn(s.groups[n].perms, d);
    SettledPair(perms, deny, {}, a.other, dir);
    assert AllowBits(perms, dir) + {} == AllowBits(perms, dir);
    assert Settled(p, perms, {}, a.other, dir);
    GroupSettles(s, a, n, dir, p);
    if deny == {} {
      assert d == {} && p == s.groups[n].perms;
      assert s.groups[n := s.groups[n].(perms := p)] == s.groups;
    } else {
      IndexOfUnique(s.groups, g.id, n);
      ProcessSingle(s, Ace(Deny, flag + {IDENTIFIER_GROUP}, d, WhoNamed, g.id));
      GroupDenyEffect(s, n, d, flag + {IDENTIFIER_GROUP}, g.id);
      DenyAllPhase3(s.(empty := false, groups := s.groups[n := s.groups[n].(perms := p)]), a, n + 1, dir, p.deny);
    }
  }

  lemma ProcessGroupDeny(s: AclState, ns: seq<Named>, k: nat, sum: Summary, flag: Mask, dir: bool)
    requires k < |ns|
    ensures ProcessAll(s, GroupDenies(ns[..k+1], sum, flag, dir))
         == ProcessAll(ProcessAll(s, GroupDenies(ns[..k], sum, flag, dir)), GroupDeny(ns[k], sum, flag, dir))
  {
    assert ns[..k+1][..k] == ns[..k];
    ProcessConcat(s, GroupDenies(ns[..k], sum, flag, dir), GroupDeny(ns[k], sum, flag, dir));
  }

  lemma {:induction false} GroupsDenied(s: AclState, a: PosixAcl, n: nat, flag: Mask, dir: bool)
    requires a.Valid() && n <= |a.groups| && Phase3(s, a, 0, dir)
    ensures Phase3(ProcessAll(s, GroupDenies(a.groups[..n], Summarize(a), flag, dir)), a, n, dir)
    decreases n
  {
    if n > 0 {
      var k := n - 1;
      GroupsDenied(s, a, k, flag, dir);
      GroupDenyStep(ProcessAll(s, GroupDenies(a.groups[..k], Summarize(a), flag, dir)), a, k, flag, dir);
      ProcessGroupDeny(s, a.groups, k, Summarize(a), flag, dir);
    }
  }

  // ---- the end of the pass ----

  /** What the pass leaves behind. */
  ghost predicate Final(s: AclState, a: PosixAcl, dir: bool) {
    && !s.empty && |s.users| == |a.users| && |s.groups| == |a.groups|
    && s.owner.allow == AllowBits(a.owner, dir) + OWNER_MODE && s.owner.deny <= RWX
    && AllowsOnly(s.group, Summarize(a).group, dir) && AllowsOnly(s.other, a.other, dir)
    && (forall i :: 0 <= i < |a.users| ==>
          s.users[i].uid == a.users[i].id && AllowsOnly(s.users[i].perms, a.users[i].perm * a.Limit(), dir))
    && (forall i :: 0 <= i < |a.groups| ==>
          s.groups[i].uid == a.groups[i].id && AllowsOnly(s.groups[i].perms, a.groups[i].perm * a.Limit(), dir))
  }

  lemma EveryoneUsers(s: AclState, a: PosixAcl, i: nat, dir: bool)
    requires Phase3(s, a, |a.groups|, dir) && i < |a.users|
    ensures s.users[i].uid == a.users[i].id
    ensures AllowsOnly(AllowIn(s.users[i].perms, AllowBits(a.other, dir)), a.users[i].perm * a.Limit(), dir)
  {
    SettledAllow(s.users[i].perms, a.users[i].perm * a.Limit(), {}, a.other, dir);
  }

  lemma EveryoneGroups(s: AclState, a: PosixAcl, i: nat, dir: bool)
    requires Phase3(s, a, |a.groups|, dir) && i < |a.groups|
    ensures s.groups[i].uid == a.groups[i].id
    ensures AllowsOnly(AllowIn(s.groups[i].perms, AllowBits(a.other, dir)), a.groups[i].perm * a.Limit(), dir)
  {
    SettledAllow(s.groups[i].perms, a.groups[i].perm * a.Limit(), {}, a.other, dir);
  }

  lemma EveryoneOwners(s: AclState, a: PosixAcl, dir: bool)
    requires Phase3(s, a, |a.groups|, dir)
    ensures var m := AllowBits(a.other, dir);
      && AllowIn(s.owner, m).allow == AllowBits(a.owner, dir) + OWNER_MODE && AllowIn(s.owner, m).deny <= RWX
      && AllowsOnly(AllowIn(s.group, m), Summarize(a).group, dir) && AllowsOnly(AllowIn(s.other, m), a.other, dir)
  {
    SettledAllow(s.owner, a.owner, OWNER_MODE, a.other, dir);
    SettledAllow(s.group, Summarize(a).group, {}, a.other, dir);
  }

  /** t is s after m has been allowed to everyone. */
  ghost predicate AllowedToAll(s: AclState, t: AclState, m: Mask) {
    && !t.empty && t.owner == AllowIn(s.owner, m) && t.group == AllowIn(s.group, m) && t.other == AllowIn(s.other, m)
    && |t.users| == |s.users| && |t.groups| == |s.groups|
    && (forall i :: 0 <= i < |s.users| ==> t.users[i] == s.users[i].(perms := AllowIn(s.users[i].perms, m)))
    && (forall i :: 0 <= i < |s.groups| ==> t.groups[i] == s.groups[i].(perms := AllowIn(s.groups[i].perms, m)))
  }

  lemma EveryoneAllowed(s: AclState, flag: Mask, m: Mask)
    ensures AllowedToAll(s, ProcessOne(s, Ace(Allow, flag, m, WhoEveryone, 0)), m)
  {
  }

  lemma EveryoneFinal(s: AclState, t: AclState, a: PosixAcl, dir: bool)
    requires Phase3(s, a, |a.groups|, dir) && AllowedToAll(s, t, AllowBits(a.other, dir))
    ensures Final(t, a, dir)
  {
    EveryoneOwners(s, a, dir);
    forall i | 0 <= i < |a.users|
      ensures t.users[i].uid == a.users[i].id && AllowsOnly(t.users[i].perms, a.users[i].perm * a.Limit(), dir)
    {
      EveryoneUsers(s, a, i, dir);
    }
    forall i | 0 <= i < |a.groups|
      ensures t.groups[i].uid == a.groups[i].id && AllowsOnly(t.groups[i].perms, a.groups[i].perm * a.Limit(), dir)
    {
      EveryoneGroups(s, a, i, dir);
    }
  }

  lemma EveryoneEnds(s: AclState, a: PosixAcl, flag: Mask, dir: bool)
    requires Phase3(s, a, |a.groups|, dir)
    ensures Final(ProcessOne(s, Ace(Allow, flag, AllowBits(a.other, dir), WhoEveryone, 0)), a, dir)
  {
    EveryoneAllowed(s, flag, AllowBits(a.other, dir));
    EveryoneFinal(s, ProcessOne(s, Ace(Allow, flag, AllowBits(a.other, dir), WhoEveryone, 0)), a, dir);
  }

  lemma EmitEnds(a: PosixAcl, flag: Mask, dir: bool)
    requires a.Valid() && IDENTIFIER_GROUP !in flag
    ensures Final(ProcessAll(INIT_STATE, Emit(a, flag, dir)), a, dir)
  {
    var s := Summarize(a);
    var f, d := Front(a, flag, dir), DenyUnlessEmpty(s.other - s.group, flag, WhoGroup, 0, dir);
    var gd, e := GroupDenies(a.groups, s, flag, dir), Ace(Allow, flag, AllowBits(s.other, dir), WhoEveryone, 0);
    FrontPhase(a, flag, dir);
    var s1 := ProcessAll(INIT_STATE, f);
    GroupObjDeny(s1, a, flag, dir);
    assert a.groups[..|a.groups|] == a.groups;
    GroupsDenied(ProcessAll(s1, d), a, |a.groups|, flag, dir);
    ProcessConcat(s1, d, gd);
    ProcessAllAppend(s1, d + gd, e);
    EveryoneEnds(ProcessAll(s1, d + gd), a, flag, dir);
    ProcessConcat(INIT_STATE, f, Back(a, flag, dir));
  }

  lemma {:induction false} UnionAllowBits(xs: seq<IdState>, ns: seq<Named>, mask: Perms, dir: bool, bit: Bit)
    requires |xs| == |ns| && forall i :: 0 <= i < |ns| ==> xs[i].perms.allow == AllowBits(ns[i].perm * mask, dir)
    ensures bit in UnionAllow(xs) ==> bit in AllowBits(UnionPerms(ns) * mask, dir)
    ensures bit in ModeBits(UnionPerms(ns) * mask, dir) ==> bit in UnionAllow(xs)
  {
    if xs != [] {
      var k := |xs| - 1;
      UnionAllowBits(xs[..k], ns[..k], mask, dir, bit);
      assert UnionPerms(ns) == UnionPerms(ns[..k]) + ns[k].perm;
    }
  }

  /** The mask entry is exactly the union of the group-class permissions. */
  lemma MaskOfFinal(s: AclState, a: PosixAcl, dir: bool)
    requires Final(s, a, dir)
    ensures LowMode(UnionAllow(s.users) + s.group.allow + UnionAllow(s.groups), dir) == Normalized(a).mask.value
  {
    var sum := Summarize(a);
    var all := sum.users + sum.group + sum.groups;
    var m := UnionAllow(s.users) + s.group.allow + UnionAllow(s.groups);
    assert m == AllowBits(all, dir) by {
      forall bit: Bit ensures bit in m <==> bit in AllowBits(all, dir) {
        UnionAllowBits(s.users, a.users, a.Limit(), dir, bit);
        UnionAllowBits(s.groups, a.groups, a.Limit(), dir, bit);
        ModeBitsUnion(sum.users, sum.group, sum.groups, dir);
      }
    }
    assert AllowBits(all, dir) + {} == AllowBits(all, dir);
    LowModeOfAllow(all, {}, dir);
  }

  lemma ModeBitsUnion(x: Perms, y: Perms, z: Perms, dir: bool)
    ensures ModeBits(x + y + z, dir) == ModeBits(x, dir) + ModeBits(y, dir) + ModeBits(z, dir)
  {
  }

  lemma EntriesOfFinal(xs: seq<IdState>, ns: seq<Named>, mask: Perms, dir: bool)
    requires |xs| == |ns|
    requires forall i :: 0 <= i < |ns| ==> xs[i].uid == ns[i].id && AllowsOnly(xs[i].perms, ns[i].perm * mask, dir)
    ensures Entries(xs, dir) == Masked(ns, mask)
    ensures forall i :: 0 <= i < |xs| ==> Deniable(xs[i].perms.deny, false)
  {
    forall i | 0 <= i < |ns| ensures LowMode(xs[i].perms.allow, dir) == ns[i].perm * mask {
      LowModeOfOnly(xs[i].perms, ns[i].perm * mask, dir);
    }
  }

  lemma LowModeOfOnly(st: AceState, ps: Perms, dir: bool)
    requires AllowsOnly(st, ps, dir)
    ensures LowMode(st.allow, dir) == ps && Deniable(st.deny, false)
  {
    assert AllowBits(ps, dir) + {} == AllowBits(ps, dir);
    LowModeOfAllow(ps, {}, dir);
  }

  lemma DeniableRwx(m: Mask)
    requires m <= RWX
    ensures Deniable(m, true) && Deniable(m, false)
  {
  }

  lemma FinalDeniable(s: AclState, a: PosixAcl, dir: bool)
    requires Final(s, a, dir)
    ensures AllDeniable(s)
  {
    DeniableRwx(s.owner.deny);
    DeniableRwx(s.group.deny);
    DeniableRwx(s.other.deny);
    forall i | 0 <= i < |s.users| ensures Deniable(s.users[i].perms.deny, false) {
      DeniableRwx(s.users[i].perms.deny);
    }
    forall i | 0 <= i < |s.groups| ensures Deniable(s.groups[i].perms.deny, false) {
      DeniableRwx(s.groups[i].perms.deny);
    }
  }

  lemma FinalAcl(s: AclState, a: PosixAcl, dir: bool)
    requires Final(s, a, dir)
    ensures AclOf(s, dir) == Normalized(a)
  {
    MaskOfFinal(s, a, dir);
    LowModeOfAllow(a.owner, OWNER_MODE, dir);
    LowModeOfOnly(s.group, Summarize(a).group, dir);
    LowModeOfOnly(s.other, a.other, dir);
    EntriesOfFinal(s.users, a.users, a.Limit(), dir);
    EntriesOfFinal(s.groups, a.groups, a.Limit(), dir);
  }

  lemma FinalConverts(s: AclState, a: PosixAcl, dir: bool, isDefault: bool)
    requires Final(s, a, dir)
    ensures StateToAcl(s, dir, isDefault) == Ok(Some(Normalized(a)))
  {
    FinalDeniable(s, a, dir);
    FinalAcl(s, a, dir);
  }

  // ---- the round trip ----

  /** The ACEs of one ACL all carry its flags and are accepted as such. */
  ghost predicate Flagged(aces: seq<Ace>, flag: Mask) {
    forall i :: 0 <= i < |aces| ==>
      !aces[i].kind.OtherType? && (aces[i].flag == flag || aces[i].flag == flag + {IDENTIFIER_GROUP})
  }

  lemma {:induction false} UserAcesFlagged(ns: seq<Named>, s: Summary, flag: Mask, dir: bool)
    ensures Flagged(UserAces(ns, s, flag, dir), flag)
  {
    if ns != [] {
      UserAcesFlagged(ns[..|ns|-1], s, flag, dir);
    }
  }

  lemma {:induction false} GroupAcesFlagged(ns: seq<Named>, s: Summary, flag: Mask, dir: bool)
    ensures Flagged(GroupAllows(ns, s, flag, dir), flag) && Flagged(GroupDenies(ns, s, flag, dir), flag)
  {
    if ns != [] {
      GroupAcesFlagged(ns[..|ns|-1], s, flag, dir);
    }
  }

  lemma FlaggedConcat(a: seq<Ace>, b: seq<Ace>, flag: Mask)
    requires Flagged(a, flag) && Flagged(b, flag)
    ensures Flagged(a + b, flag)
  {
  }

  lemma EmitFlagged(a: PosixAcl, flag: Mask, dir: bool)
    ensures Flagged(Emit(a, flag, dir), flag) && Emit(a, flag, dir) != []
  {
    var s := Summarize(a);
    var o, u, g := OwnerAces(s, flag, dir), UserAces(a.users, s, flag, dir),
      Ace(Allow, flag, AllowBits(s.group, dir), WhoGroup, 0);
    var d, e := DenyUnlessEmpty(s.other - s.group, flag, WhoGroup, 0, dir),
      Ace(Allow, flag, AllowBits(s.other, dir), WhoEveryone, 0);
    var ga, gd := GroupAllows(a.groups, s, flag, dir), GroupDenies(a.groups, s, flag, dir);
    UserAcesFlagged(a.users, s, flag, dir);
    GroupAcesFlagged(a.groups, s, flag, dir);
    FlaggedConcat(o, u, flag);
    FlaggedConcat(o + u, [g], flag);
    FlaggedConcat(o + u + [g], ga, flag);
    FlaggedConcat(d, gd, flag);
    FlaggedConcat(d + gd, [e], flag);
    FlaggedConcat(Front(a, flag, dir), Back(a, flag, dir), flag);
  }

  lemma FlagKinds(ace: Ace)
    ensures ace.flag == {} || ace.flag == {} + {IDENTIFIER_GROUP} ==> !Inheritable(ace) && ace.flag <= SUPPORTED_FLAGS
    ensures ace.flag == DEFAULT_FLAGS || ace.flag == DEFAULT_FLAGS + {IDENTIFIER_GROUP}
      ==> Inheritable(ace) && INHERIT_ONLY in ace.flag && ace.flag <= SUPPORTED_FLAGS
  {
    if ace.flag == DEFAULT_FLAGS || ace.flag == DEFAULT_FLAGS + {IDENTIFIER_GROUP} {
      assert FILE_INHERIT in ace.flag * INHERITANCE_FLAGS;
    }
  }

  lemma SelectPlain(front: seq<Ace>, last: Ace)
    requires !Inheritable(last)
    ensures Effective(front + [last]) == Effective(front) + [last]
    ensures Inherited(front + [last]) == Inherited(front)
  {
    assert (front + [last])[..|front|] == front;
  }

  lemma PlainLast(e: seq<Ace>)
    requires Flagged(e, {}) && e != []
    ensures Flagged(e[..|e|-1], {}) && !Inheritable(e[|e|-1])
  {
    FlagKinds(e[|e|-1]);
  }

  lemma {:induction false} SelectEffective(e: seq<Ace>)
    requires Flagged(e, {})
    ensures Effective(e) == e && Inherited(e) == []
  {
    if e != [] {
      var front, last := e[..|e|-1], e[|e|-1];
      PlainLast(e);
      SelectEffective(front);
      SelectPlain(front, last);
      assert front + [last] == e;
    }
  }

  /** Which of two differently flagged batches ends up where. */
  lemma {:induction false} SelectBoth(e: seq<Ace>, d: seq<Ace>)
    requires Flagged(e, {}) && Flagged(d, DEFAULT_FLAGS)
    ensures Effective(e + d) == e && Inherited(e + d) == d
    decreases |d|
  {
    if d == [] {
      assert e + d == e;
      SelectEffective(e);
    } else {
      assert (e + d)[..|e + d|-1] == e + d[..|d|-1];
      SelectBoth(e, d[..|d|-1]);
      FlagKinds(d[|d|-1]);
    }
  }

  lemma FlaggedAccepted(aces: seq<Ace>, dir: bool)
    ensures Flagged(aces, {}) ==> AllAccepted(aces, dir)
    ensures Flagged(aces, DEFAULT_FLAGS) && dir ==> AllAccepted(aces, dir)
    ensures Flagged(aces, DEFAULT_FLAGS) && aces != [] && !dir ==> !Accepted(aces[0], dir)
  {
    forall i | 0 <= i < |aces|
      ensures Flagged(aces, {}) || (Flagged(aces, DEFAULT_FLAGS) && dir) ==> Accepted(aces[i], dir)
    {
      FlagKinds(aces[i]);
    }
    if aces != [] {
      FlagKinds(aces[0]);
    }
  }

  lemma BatchesAccepted(e: seq<Ace>, f: seq<Ace>, dir: bool)
    requires Flagged(e, {}) && Flagged(f, DEFAULT_FLAGS)
    ensures AllAccepted(e + f, dir) <==> f == [] || dir
  {
    FlaggedAccepted(e, dir);
    FlaggedAccepted(f, dir);
    if f != [] && !dir {
      assert (e + f)[|e|] == f[0];
    }
  }

  /** Two batches convert independently; the inheritable one needs a directory. */
  lemma BatchesConvert(e: seq<Ace>, f: seq<Ace>, dir: bool, n: PosixAcl, m: Option<PosixAcl>)
    requires Flagged(e, {}) && Flagged(f, DEFAULT_FLAGS)
    requires StateToAcl(ProcessAll(INIT_STATE, e), dir, false) == Ok(Some(n))
    requires StateToAcl(ProcessAll(INIT_STATE, f), dir, true) == Ok(m)
    ensures ToPosix(e + f, dir) == if f == [] || dir then Ok(Pair(Some(n), m)) else Einval
  {
    BatchesAccepted(e, f, dir);
    SelectBoth(e, f);
  }

  lemma EmitConverts(a: PosixAcl, flag: Mask, dir: bool, isDefault: bool)
    requires a.Valid() && IDENTIFIER_GROUP !in flag
    ensures StateToAcl(ProcessAll(INIT_STATE, Emit(a, flag, dir)), dir, isDefault) == Ok(Some(Normalized(a)))
  {
    EmitEnds(a, flag, dir);
    FinalConverts(ProcessAll(INIT_STATE, Emit(a, flag, dir)), a, dir, isDefault);
  }

  function NormalizedOption(d: Option<PosixAcl>): Option<PosixAcl> {
    if d.Some? then Some(Normalized(d.value)) else None
  }

  /** What an absent access ACL comes back as: nobody is granted anything. */
  const NO_ACCESS := PosixAcl({}, [], {}, [], Some({}), {})

  function Returned(a: Option<PosixAcl>): PosixAcl {
    if a.Some? then Normalized(a.value) else NO_ACCESS
  }

  lemma EmitOptionFlagged(a: Option<PosixAcl>, flag: Mask, dir: bool)
    ensures Flagged(EmitOption(a, flag, dir), flag) && (EmitOption(a, flag, dir) == [] <==> a.None?)
  {
    if a.Some? { EmitFlagged(a.value, flag, dir); }
  }

  lemma EmitOptionConverts(a: Option<PosixAcl>, flag: Mask, dir: bool, isDefault: bool)
    requires (a.Some? ==> a.value.Valid()) && IDENTIFIER_GROUP !in flag
    ensures StateToAcl(ProcessAll(INIT_STATE, EmitOption(a, flag, dir)), dir, isDefault)
         == Ok(if a.None? && isDefault then None else Some(Returned(a)))
  {
    if a.Some? {
      EmitConverts(a.value, flag, dir, isDefault);
    } else {
      InitConverts(dir);
    }
  }

  lemma InitConverts(dir: bool)
    ensures AllDeniable(INIT_STATE) && AclOf(INIT_STATE, dir) == NO_ACCESS
  {
    assert Entries([], dir) == [];
  }

  /** Translating valid ACLs to ACEs and back under the same directory flag succeeds exactly
      when there is no default ACL or the object is a directory, and yields the same ids with
      owner, other and every masked group-class permission unchanged. */
  lemma RoundTrip(a: Option<PosixAcl>, d: Option<PosixAcl>, dir: bool)
    requires (a.Some? ==> a.value.Valid()) && (d.Some? ==> d.value.Valid())
    ensures ToPosix(EmitBoth(a, d, dir), dir)
         == if d.None? || dir then Ok(Pair(Some(Returned(a)), NormalizedOption(d))) else Einval
  {
    var e, f := EmitOption(a, {}, dir), EmitOption(d, DEFAULT_FLAGS, dir);
    EmitOptionFlagged(a, {}, dir);
    EmitOptionConverts(a, {}, dir, false);
    EmitOptionFlagged(d, DEFAULT_FLAGS, dir);
    EmitOptionConverts(d, DEFAULT_FLAGS, dir, true);
    BatchesConvert(e, f, dir, Returned(a), NormalizedOption(d));
  }

  /** The arrays come back in order already, so the final sort leaves them as they are. */
  lemma RoundTripSorted(a: PosixAcl, b: PosixAcl)
    requires a.Valid() && Sorting.Reordered(Normalized(a), b)
    ensures b == Normalized(a) && b.Valid()
  {
    Sorting.SortedIsUnique(Normalized(a).users, b.users);
    Sorting.SortedIsUnique(Normalized(a).groups, b.groups);
  }
}
