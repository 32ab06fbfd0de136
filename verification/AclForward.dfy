/** POSIX ACL to NFSv4 ACEs (fs/nfsd/nfs4acl.c:65-97, 133-346): the emission, the in-place
    filling of the ACE array, and the proof that the ACEs grant exactly what the ACL grants. */
module AclForward {
  import opened Common
  import opened AclTypes

  // ---- mask translation ----

  function ModeBits(ps: Perms, dir: bool): Mask {
    (if Read in ps then PermBits(Read, dir) else {}) +
    (if Write in ps then PermBits(Write, dir) else {}) +
    (if Execute in ps then PermBits(Execute, dir) else {})
  }

  function AllowBits(ps: Perms, dir: bool): Mask {
    ANYONE_MODE + ModeBits(ps, dir)
  }

  /** A bit of permission p is in a translated mask exactly when p was in the source. */
  lemma ModeBitsExact(p: Perm, bit: Bit, dir: bool)
    requires bit in PermBits(p, dir)
    ensures forall ps: Perms {:trigger ModeBits(ps, dir)} :: bit in ModeBits(ps, dir) <==> p in ps
    ensures bit !in ANYONE_MODE && bit !in OWNER_MODE
  {
  }

  // ---- summaries ----

  datatype Summary = Summary(owner: Perms, users: Perms, group: Perms, groups: Perms, other: Perms, mask: Perms)

  function UnionPerms(ns: seq<Named>): Perms {
    if ns == [] then {} else UnionPerms(ns[..|ns|-1]) + ns[|ns|-1].perm
  }

  lemma {:induction false} UnionPermsHolds(ns: seq<Named>, p: Perm)
    ensures p in UnionPerms(ns) <==> exists i :: 0 <= i < |ns| && p in ns[i].perm
  {
    if ns != [] {
      UnionPermsHolds(ns[..|ns|-1], p);
      if p in ns[|ns|-1].perm {
        assert p in UnionPerms(ns);
      } else if i :| 0 <= i < |ns| && p in ns[i].perm {
        assert ns[..|ns|-1][i] == ns[i];
      }
    }
  }

  /** The effective permissions of each class, the mask already applied. */
  function Summarize(a: PosixAcl): Summary {
    var m := a.Limit();
    Summary(a.owner, UnionPerms(a.users) * m, a.group * m, UnionPerms(a.groups) * m, a.other, m)
  }

  function Absorb(s: Summary, e: Entry): Summary {
    match e.tag
    case UserObj => s.(owner := e.perm)
    case GroupObj => s.(group := e.perm)
    case User => s.(users := s.users + e.perm)
    case Group => s.(groups := s.groups + e.perm)
    case OtherObj => s.(other := e.perm)
    case MaskObj => s.(mask := e.perm)
  }

  function AbsorbAll(s: Summary, es: seq<Entry>): Summary {
    if es == [] then s else Absorb(AbsorbAll(s, es[..|es|-1]), es[|es|-1])
  }

  lemma {:induction false} AbsorbConcat(s: Summary, a: seq<Entry>, b: seq<Entry>)
    ensures AbsorbAll(s, a + b) == AbsorbAll(AbsorbAll(s, a), b)
  {
    if b == [] {
      assert a + b == a;
    } else {
      assert (a + b)[..|a + b|-1] == a + b[..|b|-1];
      AbsorbConcat(s, a, b[..|b|-1]);
    }
  }

  lemma {:induction false} AbsorbTagged(s: Summary, ns: seq<Named>)
    ensures AbsorbAll(s, Tagged(User, ns)) == s.(users := s.users + UnionPerms(ns))
    ensures AbsorbAll(s, Tagged(Group, ns)) == s.(groups := s.groups + UnionPerms(ns))
  {
    if ns == [] {
      assert s.users + {} == s.users && s.groups + {} == s.groups;
    } else {
      var k := |ns| - 1;
      AbsorbTagged(s, ns[..k]);
      assert Tagged(User, ns)[..k] == Tagged(User, ns[..k]);
      assert Tagged(Group, ns)[..k] == Tagged(Group, ns[..k]);
      assert s.users + UnionPerms(ns[..k]) + ns[k].perm == s.users + UnionPerms(ns);
      assert s.groups + UnionPerms(ns[..k]) + ns[k].perm == s.groups + UnionPerms(ns);
    }
  }

  const BLANK := Summary({}, {}, {}, {}, {}, ALL_PERMS)

  lemma AbsorbOne(s: Summary, e: Entry)
    ensures AbsorbAll(s, [e]) == Absorb(s, e)
  {
    assert [e][..0] == [];
  }

  lemma AbsorbTail(s: Summary, a: PosixAcl)
    ensures AbsorbAll(s, a.Tail()) == s.(other := a.other, mask := if a.mask.Some? then a.mask.value else s.mask)
  {
    var o := Entry(OtherObj, a.other, UNDEFINED_ID);
    if a.mask.Some? {
      var m := Entry(MaskObj, a.mask.value, UNDEFINED_ID);
      AbsorbConcat(s, [m], [o]);
      AbsorbOne(s, m);
      AbsorbOne(Absorb(s, m), o);
    } else {
      assert a.Tail() == [o];
      AbsorbOne(s, o);
    }
  }

  lemma AbsorbFlatten(a: PosixAcl)
    ensures AbsorbAll(BLANK, a.Flatten())
         == Summary(a.owner, UnionPerms(a.users), a.group, UnionPerms(a.groups), a.other, a.Limit())
  {
    var e1, e2 := Entry(UserObj, a.owner, UNDEFINED_ID), Entry(GroupObj, a.group, UNDEFINED_ID);
    var us, gs := Tagged(User, a.users), Tagged(Group, a.groups);
    var s1 := BLANK.(owner := a.owner);
    AbsorbOne(BLANK, e1);
    AbsorbConcat(BLANK, [e1], us);
    AbsorbTagged(s1, a.users);
    assert {} + UnionPerms(a.users) == UnionPerms(a.users);
    var s2 := s1.(users := UnionPerms(a.users));
    AbsorbConcat(BLANK, [e1] + us, [e2]);
    AbsorbOne(s2, e2);
    var s3 := s2.(group := a.group);
    AbsorbConcat(BLANK, [e1] + us + [e2], gs);
    AbsorbTagged(s3, a.groups);
    assert {} + UnionPerms(a.groups) == UnionPerms(a.groups);
    AbsorbConcat(BLANK, [e1] + us + [e2] + gs, a.Tail());
    AbsorbTail(s3.(groups := UnionPerms(a.groups)), a);
  }

  /** summarize_posix_acl. */
  method SummarizePosixAcl(es: seq<Entry>, ghost a: PosixAcl) returns (pas: Summary)
    requires es == a.Flatten()
    ensures pas == Summarize(a)
  {
    pas := BLANK;
    var i := 0;
    while i < |es|
      invariant 0 <= i <= |es|
      invariant pas == AbsorbAll(BLANK, es[..i])
    {
      assert es[..i+1][..i] == es[..i];
      match es[i].tag {
        case UserObj => pas := pas.(owner := es[i].perm);
        case GroupObj => pas := pas.(group := es[i].perm);
        case User => pas := pas.(users := pas.users + es[i].perm);
        case Group => pas := pas.(groups := pas.groups + es[i].perm);
        case OtherObj => pas := pas.(other := es[i].perm);
        case MaskObj => pas := pas.(mask := es[i].perm);
      }
      i := i + 1;
    }
    assert es[..i] == es;
    AbsorbFlatten(a);
    pas := pas.(users := pas.users * pas.mask, group := pas.group * pas.mask, groups := pas.groups * pas.mask);
  }

  // ---- the ACEs ----

  function DenyUnlessEmpty(deny: Perms, flag: Mask, who: WhoType, id: Id, dir: bool): seq<Ace> {
    if deny == {} then [] else [Ace(Deny, flag, ModeBits(deny, dir), who, id)]
  }

  function OwnerAces(s: Summary, flag: Mask, dir: bool): seq<Ace> {
    DenyUnlessEmpty((s.users + s.group + s.groups + s.other) - s.owner, flag, WhoOwner, 0, dir) +
    [Ace(Allow, flag, AllowBits(s.owner, dir) + OWNER_MODE, WhoOwner, 0)]
  }

  function UserAce(n: Named, s: Summary, flag: Mask, dir: bool): seq<Ace> {
    DenyUnlessEmpty((s.groups + s.group + s.other) - n.perm * s.mask, flag, WhoNamed, n.id, dir) +
    [Ace(Allow, flag, AllowBits(n.perm * s.mask, dir), WhoNamed, n.id)]
  }

  function UserAces(ns: seq<Named>, s: Summary, flag: Mask, dir: bool): (r: seq<Ace>)
    ensures |r| <= 2 * |ns|
  {
    if ns == [] then [] else UserAces(ns[..|ns|-1], s, flag, dir) + UserAce(ns[|ns|-1], s, flag, dir)
  }

  function GroupAllow(n: Named, s: Summary, flag: Mask, dir: bool): Ace {
    Ace(Allow, flag + {IDENTIFIER_GROUP}, AllowBits(n.perm * s.mask, dir), WhoNamed, n.id)
  }

  function GroupAllows(ns: seq<Named>, s: Summary, flag: Mask, dir: bool): (r: seq<Ace>)
    ensures |r| == |ns|
  {
    if ns == [] then [] else GroupAllows(ns[..|ns|-1], s, flag, dir) + [GroupAllow(ns[|ns|-1], s, flag, dir)]
  }

  function GroupDeny(n: Named, s: Summary, flag: Mask, dir: bool): seq<Ace> {
    DenyUnlessEmpty(s.other - n.perm * s.mask, flag + {IDENTIFIER_GROUP}, WhoNamed, n.id, dir)
  }

  function GroupDenies(ns: seq<Named>, s: Summary, flag: Mask, dir: bool): (r: seq<Ace>)
    ensures |r| <= |ns|
  {
    if ns == [] then [] else GroupDenies(ns[..|ns|-1], s, flag, dir) + GroupDeny(ns[|ns|-1], s, flag, dir)
  }

  /** Everything up to and including the group allows, and the rest. */
  function Front(a: PosixAcl, flag: Mask, dir: bool): seq<Ace> {
    var s := Summarize(a);
    OwnerAces(s, flag, dir) + UserAces(a.users, s, flag, dir) +
    [Ace(Allow, flag, AllowBits(s.group, dir), WhoGroup, 0)] + GroupAllows(a.groups, s, flag, dir)
  }

  function Back(a: PosixAcl, flag: Mask, dir: bool): seq<Ace> {
    var s := Summarize(a);
    DenyUnlessEmpty(s.other - s.group, flag, WhoGroup, 0, dir) + GroupDenies(a.groups, s, flag, dir) +
    [Ace(Allow, flag, AllowBits(s.other, dir), WhoEveryone, 0)]
  }

  /** The ACEs for one POSIX ACL. At most two per entry, so the caller's allocation suffices. */
  function Emit(a: PosixAcl, flag: Mask, dir: bool): (r: seq<Ace>)
    ensures |r| <= 2 * |a.Flatten()|
  {
    Front(a, flag, dir) + Back(a, flag, dir)
  }

  // ---- exactness ----

  lemma {:induction false} UserAcesDecide(
      ns: seq<Named>, s: Summary, flag: Mask, dir: bool, p: Perm, bit: Bit, file: File, r: Requester)
    requires bit in PermBits(p, dir) && Distinct(ns) && IDENTIFIER_GROUP !in flag
    ensures FirstMatch(UserAces(ns, s, flag, dir), bit, file, r)
         == if !Lists(ns, r.uid) then Undecided
            else if GrantedBy(ns, {r.uid}, p) && p in s.mask then Allowed
            else if p in s.groups + s.group + s.other then Denied else Undecided
  {
    if ns != [] {
      var k := |ns| - 1;
      UserAcesDecide(ns[..k], s, flag, dir, p, bit, file, r);
      FirstMatchConcat(UserAces(ns[..k], s, flag, dir), UserAce(ns[k], s, flag, dir), bit, file, r);
      PairDecides(ns[k], s, flag, dir, p, bit, file, r);
      LastEntry(ns, r.uid, p);
    }
  }

  /** What the last of a list of distinct entries adds to the lookups by id. */
  lemma LastEntry(ns: seq<Named>, id: Id, p: Perm)
    requires ns != [] && Distinct(ns)
    ensures var rest, n := ns[..|ns|-1], ns[|ns|-1];
      && (Lists(ns, id) <==> Lists(rest, id) || n.id == id)
      && (Lists(rest, id) ==> n.id != id)
      && (GrantedBy(ns, {id}, p) <==> GrantedBy(rest, {id}, p) || (n.id == id && p in n.perm))
      && (GrantedBy(rest, {id}, p) ==> Lists(rest, id))
  {
    var rest, n := ns[..|ns|-1], ns[|ns|-1];
    assert ns == rest + [n];
  }

  lemma PairDecides(n: Named, s: Summary, flag: Mask, dir: bool, p: Perm, bit: Bit, file: File, r: Requester)
    requires bit in PermBits(p, dir) && IDENTIFIER_GROUP !in flag
    ensures FirstMatch(UserAce(n, s, flag, dir), bit, file, r)
         == if n.id != r.uid then Undecided
            else if p in n.perm && p in s.mask then Allowed
            else if p in s.groups + s.group + s.other then Denied else Undecided
  {
    ModeBitsExact(p, bit, dir);
    var deny := (s.groups + s.group + s.other) - n.perm * s.mask;
    var allow := [Ace(Allow, flag, AllowBits(n.perm * s.mask, dir), WhoNamed, n.id)];
    FirstMatchConcat(DenyUnlessEmpty(deny, flag, WhoNamed, n.id, dir), allow, bit, file, r);
    DenyDecides(deny, flag, WhoNamed, n.id, dir, p, bit, file, r);
    SingleDecides(allow[0], bit, file, r);
  }

  lemma SingleDecides(ace: Ace, bit: Bit, file: File, r: Requester)
    ensures FirstMatch([ace], bit, file, r) == if Decides(ace, bit, file, r) then Verdict(ace) else Undecided
  {
    assert [ace][1..] == [];
  }

  lemma DenyDecides(deny: Perms, flag: Mask, who: WhoType, id: Id, dir: bool, p: Perm, bit: Bit, file: File,
      r: Requester)
    requires bit in PermBits(p, dir)
    ensures FirstMatch(DenyUnlessEmpty(deny, flag, who, id, dir), bit, file, r)
         == if p in deny && Matches(Ace(Deny, flag, {}, who, id), file, r) then Denied else Undecided
  {
    ModeBitsExact(p, bit, dir);
    if deny != {} {
      SingleDecides(Ace(Deny, flag, ModeBits(deny, dir), who, id), bit, file, r);
    }
  }

  lemma {:induction false} GroupAllowsDecide(
      ns: seq<Named>, s: Summary, flag: Mask, dir: bool, p: Perm, bit: Bit, file: File, r: Requester)
    requires bit in PermBits(p, dir)
    ensures FirstMatch(GroupAllows(ns, s, flag, dir), bit, file, r)
         == if GrantedBy(ns, r.gids, p) && p in s.mask then Allowed else Undecided
  {
    ModeBitsExact(p, bit, dir);
    if ns != [] {
      var k := |ns| - 1;
      GroupAllowsDecide(ns[..k], s, flag, dir, p, bit, file, r);
      var ace := GroupAllow(ns[k], s, flag, dir);
      FirstMatchConcat(GroupAllows(ns[..k], s, flag, dir), [ace], bit, file, r);
      SingleDecides(ace, bit, file, r);
      GrantedBySnoc(ns, r.gids, p);
    }
  }

  lemma GrantedBySnoc(ns: seq<Named>, ids: set<Id>, p: Perm)
    requires ns != []
    ensures var k := |ns| - 1;
      GrantedBy(ns, ids, p) <==> GrantedBy(ns[..k], ids, p) || (ns[k].id in ids && p in ns[k].perm)
  {
    var k := |ns| - 1;
    assert ns == ns[..k] + [ns[k]];
  }

  /** Some entry for one of `ids` lacks p once masked. */
  ghost predicate WithheldBy(ns: seq<Named>, ids: set<Id>, p: Perm, mask: Perms) {
    exists n <- ns :: n.id in ids && !(p in n.perm && p in mask)
  }

  lemma {:induction false} GroupDeniesDecide(
      ns: seq<Named>, s: Summary, flag: Mask, dir: bool, p: Perm, bit: Bit, file: File, r: Requester)
    requires bit in PermBits(p, dir)
    ensures FirstMatch(GroupDenies(ns, s, flag, dir), bit, file, r)
         == if WithheldBy(ns, r.gids, p, s.mask) && p in s.other then Denied else Undecided
  {
    if ns != [] {
      var k := |ns| - 1;
      var n := ns[k];
      GroupDeniesDecide(ns[..k], s, flag, dir, p, bit, file, r);
      FirstMatchConcat(GroupDenies(ns[..k], s, flag, dir), GroupDeny(n, s, flag, dir), bit, file, r);
      DenyDecides(s.other - n.perm * s.mask, flag + {IDENTIFIER_GROUP}, WhoNamed, n.id, dir, p, bit, file, r);
      assert ns == ns[..k] + [n];
      assert WithheldBy(ns, r.gids, p, s.mask)
        <==> WithheldBy(ns[..k], r.gids, p, s.mask) || (n.id in r.gids && !(p in n.perm && p in s.mask));
    }
  }

  lemma OwnerAcesDecide(s: Summary, flag: Mask, dir: bool, p: Perm, bit: Bit, file: File, r: Requester)
    requires bit in PermBits(p, dir)
    ensures FirstMatch(OwnerAces(s, flag, dir), bit, file, r)
         == if r.uid != file.uid then Undecided
            else if p in s.owner then Allowed
            else if p in s.users + s.group + s.groups + s.other then Denied else Undecided
  {
    ModeBitsExact(p, bit, dir);
    var deny := (s.users + s.group + s.groups + s.other) - s.owner;
    var allow := Ace(Allow, flag, AllowBits(s.owner, dir) + OWNER_MODE, WhoOwner, 0);
    FirstMatchConcat(DenyUnlessEmpty(deny, flag, WhoOwner, 0, dir), [allow], bit, file, r);
    DenyDecides(deny, flag, WhoOwner, 0, dir, p, bit, file, r);
    SingleDecides(allow, bit, file, r);
  }

  lemma FrontDecides(a: PosixAcl, flag: Mask, dir: bool, p: Perm, bit: Bit, file: File, r: Requester)
    requires a.Valid() && bit in PermBits(p, dir) && IDENTIFIER_GROUP !in flag
    ensures FirstMatch(Front(a, flag, dir), bit, file, r)
         == var s := Summarize(a);
            var own := FirstMatch(OwnerAces(s, flag, dir), bit, file, r);
            var usr := FirstMatch(UserAces(a.users, s, flag, dir), bit, file, r);
            if own != Undecided then own
            else if usr != Undecided then usr
            else if (file.gid in r.gids && p in s.group) || (GrantedBy(a.groups, r.gids, p) && p in s.mask) then Allowed
            else Undecided
  {
    ModeBitsExact(p, bit, dir);
    var s := Summarize(a);
    var o, u := OwnerAces(s, flag, dir), UserAces(a.users, s, flag, dir);
    var g := Ace(Allow, flag, AllowBits(s.group, dir), WhoGroup, 0);
    FirstMatchConcat(o, u, bit, file, r);
    FirstMatchConcat(o + u, [g], bit, file, r);
    FirstMatchConcat(o + u + [g], GroupAllows(a.groups, s, flag, dir), bit, file, r);
    SingleDecides(g, bit, file, r);
    GroupAllowsDecide(a.groups, s, flag, dir, p, bit, file, r);
  }

  lemma BackDecides(a: PosixAcl, flag: Mask, dir: bool, p: Perm, bit: Bit, file: File, r: Requester)
    requires bit in PermBits(p, dir)
    ensures FirstMatch(Back(a, flag, dir), bit, file, r)
         == var s := Summarize(a);
            if p !in s.other then Undecided
            else if (file.gid in r.gids && p !in s.group) || WithheldBy(a.groups, r.gids, p, s.mask) then Denied
            else Allowed
  {
    ModeBitsExact(p, bit, dir);
    var s := Summarize(a);
    var d := DenyUnlessEmpty(s.other - s.group, flag, WhoGroup, 0, dir);
    var gd := GroupDenies(a.groups, s, flag, dir);
    var e := Ace(Allow, flag, AllowBits(s.other, dir), WhoEveryone, 0);
    FirstMatchConcat(d, gd, bit, file, r);
    FirstMatchConcat(d + gd, [e], bit, file, r);
    DenyDecides(s.other - s.group, flag, WhoGroup, 0, dir, p, bit, file, r);
    GroupDeniesDecide(a.groups, s, flag, dir, p, bit, file, r);
    SingleDecides(e, bit, file, r);
  }

  /** The emitted ACEs allow each bit of a permission exactly when the POSIX algorithm grants
      it: for every requester, also one in several groups or an owner who is a named user. */
  lemma ForwardIsExact(a: PosixAcl, flag: Mask, dir: bool, p: Perm, bit: Bit, file: File, r: Requester)
    requires a.Valid() && bit in PermBits(p, dir) && IDENTIFIER_GROUP !in flag
    ensures FirstMatch(Emit(a, flag, dir), bit, file, r) == Allowed <==> a.Grants(p, file, r)
  {
    var s := Summarize(a);
    FirstMatchConcat(Front(a, flag, dir), Back(a, flag, dir), bit, file, r);
    OwnerAcesDecide(s, flag, dir, p, bit, file, r);
    UserAcesDecide(a.users, s, flag, dir, p, bit, file, r);
    FrontDecides(a, flag, dir, p, bit, file, r);
    BackDecides(a, flag, dir, p, bit, file, r);
    UnionPermsHolds(a.users, p);
    UnionPermsHolds(a.groups, p);
    assert GrantedBy(a.users, {r.uid}, p) ==> p in UnionPerms(a.users);
    assert GrantedBy(a.groups, r.gids, p) ==> p in UnionPerms(a.groups);
    if !a.InGroupClass(file, r) {
      assert !WithheldBy(a.groups, r.gids, p, s.mask) && !GrantedBy(a.groups, r.gids, p);
    } else if !(file.gid in r.gids && p in s.group) && !(GrantedBy(a.groups, r.gids, p) && p in s.mask) {
      GroupClassWithheld(a, p, file, r);
    }
  }

  lemma GroupClassWithheld(a: PosixAcl, p: Perm, file: File, r: Requester)
    requires a.InGroupClass(file, r)
    requires !(file.gid in r.gids && p in Summarize(a).group)
    requires !(GrantedBy(a.groups, r.gids, p) && p in a.Limit())
    ensures (file.gid in r.gids && p !in Summarize(a).group) || WithheldBy(a.groups, r.gids, p, a.Limit())
  {
    if file.gid !in r.gids {
      var n :| n in a.groups && n.id in r.gids;
      assert !(p in n.perm && p in a.Limit());
    }
  }

  // ---- filling the array ----

  /** struct nfs4_acl: a fixed array of which the first naces are in use. */
  class Nfs4Acl {
    const aces: array<Ace>
    var naces: nat
    ghost var contents: seq<Ace>

    ghost predicate Valid()
      reads this, aces
    {
      naces <= aces.Length && contents == aces[..naces]
    }

    /** nfs4_acl_new. */
    constructor (n: nat)
      ensures Valid() && contents == [] && aces.Length == n && fresh(aces)
    {
      aces := new Ace[n](_ => Ace(Allow, {}, {}, WhoEveryone, 0));
      naces := 0;
      contents := [];
    }

    method Append(ace: Ace)
      requires Valid() && |contents| < aces.Length
      modifies this, aces
      ensures Valid() && contents == old(contents) + [ace]
    {
      aces[naces] := ace;
      naces := naces + 1;
      contents := contents + [ace];
    }

    method AppendDeny(deny: Perms, flag: Mask, who: WhoType, id: Id, dir: bool)
      requires Valid() && |contents| + |DenyUnlessEmpty(deny, flag, who, id, dir)| <= aces.Length
      modifies this, aces
      ensures Valid() && contents == old(contents) + DenyUnlessEmpty(deny, flag, who, id, dir)
    {
      if deny != {} {
        Append(Ace(Deny, flag, ModeBits(deny, dir), who, id));
      }
    }
  }

  /** es[from..] starts with the entries for ns, all tagged `tag`, and then something else. */
  ghost predicate RunAt(es: seq<Entry>, from: nat, tag: Tag, ns: seq<Named>) {
    && from + |ns| < |es| && es[from + |ns|].tag != tag
    && forall i :: from <= i < from + |ns| ==> es[i] == Entry(tag, ns[i-from].perm, ns[i-from].id)
  }

  /** Where the entries of each kind sit in the flattened ACL. */
  ghost predicate LaidOut(es: seq<Entry>, a: PosixAcl) {
    && RunAt(es, 1, User, a.users) && RunAt(es, 2 + |a.users|, Group, a.groups)
    && es[0].perm == a.owner
    && var tail := 2 + |a.users| + |a.groups|;
      if es[tail].tag == MaskObj then tail + 1 < |es| && es[tail + 1].perm == a.other else es[tail].perm == a.other
  }

  lemma FlattenLayout(a: PosixAcl)
    ensures LaidOut(a.Flatten(), a)
  {
  }

  /** _posix_to_nfsv4_one: appends the ACEs for one ACL behind those already there. */
  method PosixToNfsv4One(es: seq<Entry>, acl: Nfs4Acl, flag: Mask, dir: bool, ghost a: PosixAcl)
    requires es == a.Flatten() && acl.Valid()
    requires |acl.contents| + |Emit(a, flag, dir)| <= acl.aces.Length
    modifies acl, acl.aces
    ensures acl.Valid() && acl.contents == old(acl.contents) + Emit(a, flag, dir)
  {
    FlattenLayout(a);
    var pas := SummarizePosixAcl(es, a);
    ghost var start := acl.contents;
    var pa := FillFront(es, acl, flag, dir, pas, a);
    FillBack(es, pa, acl, flag, dir, pas, a);
    Assoc(start, Front(a, flag, dir), Back(a, flag, dir));
  }

  /** Lines 235-307; returns the position of the owning group's entry. */
  method FillFront(es: seq<Entry>, acl: Nfs4Acl, flag: Mask, dir: bool, pas: Summary, ghost a: PosixAcl)
      returns (groupOwner: nat)
    requires LaidOut(es, a) && pas == Summarize(a) && acl.Valid()
    requires |acl.contents| + |Front(a, flag, dir)| <= acl.aces.Length
    modifies acl, acl.aces
    ensures groupOwner == 1 + |a.users|
    ensures acl.Valid() && acl.contents == old(acl.contents) + Front(a, flag, dir)
  {
    ghost var start, own, usr := acl.contents, OwnerAces(pas, flag, dir), UserAces(a.users, pas, flag, dir);
    var grp := Ace(Allow, flag, AllowBits(pas.group, dir), WhoGroup, 0);
    AppendOwner(es[0].perm, acl, flag, dir, pas);
    groupOwner := AppendUsers(es, acl, flag, dir, pas, a.users);
    Assoc(start, own, usr);
    acl.Append(grp);
    Assoc(start, own + usr, [grp]);
    AppendGroupAllows(es, groupOwner + 1, acl, flag, dir, pas, a.groups);
    Assoc(start, own + usr + [grp], GroupAllows(a.groups, pas, flag, dir));
  }

  lemma Assoc(a: seq<Ace>, b: seq<Ace>, c: seq<Ace>)
    ensures a + b + c == a + (b + c)
  {
  }

  method AppendOwner(perm: Perms, acl: Nfs4Acl, flag: Mask, dir: bool, pas: Summary)
    requires acl.Valid() && perm == pas.owner
    requires |acl.contents| + |OwnerAces(pas, flag, dir)| <= acl.aces.Length
    modifies acl, acl.aces
    ensures acl.Valid() && acl.contents == old(acl.contents) + OwnerAces(pas, flag, dir)
  {
    acl.AppendDeny((pas.users + pas.group + pas.groups + pas.other) - pas.owner, flag, WhoOwner, 0, dir);
    acl.Append(Ace(Allow, flag, AllowBits(perm, dir) + OWNER_MODE, WhoOwner, 0));
  }

  /** Lines 311-345, from the owning group's entry again. */
  method FillBack(es: seq<Entry>, groupOwner: nat, acl: Nfs4Acl, flag: Mask, dir: bool, pas: Summary, ghost a: PosixAcl)
    requires LaidOut(es, a) && pas == Summarize(a) && acl.Valid() && groupOwner == 1 + |a.users|
    requires |acl.contents| + |Back(a, flag, dir)| <= acl.aces.Length
    modifies acl, acl.aces
    ensures acl.Valid() && acl.contents == old(acl.contents) + Back(a, flag, dir)
  {
    ghost var start, denials := acl.contents, GroupClassDenials(a.groups, pas, flag, dir);
    var pa := FillDenials(es, groupOwner, acl, flag, dir, pas, a.groups);
    if es[pa].tag == MaskObj {
      pa := pa + 1;
    }
    var last := Ace(Allow, flag, AllowBits(es[pa].perm, dir), WhoEveryone, 0);
    acl.Append(last);
    Assoc(start, denials, [last]);
  }

  /** The denials that follow the group allows. */
  ghost function GroupClassDenials(ns: seq<Named>, s: Summary, flag: Mask, dir: bool): seq<Ace> {
    DenyUnlessEmpty(s.other - s.group, flag, WhoGroup, 0, dir) + GroupDenies(ns, s, flag, dir)
  }

  method FillDenials(es: seq<Entry>, groupOwner: nat, acl: Nfs4Acl, flag: Mask, dir: bool, pas: Summary,
      ghost ns: seq<Named>)
      returns (pa: nat)
    requires RunAt(es, groupOwner + 1, Group, ns) && acl.Valid()
    requires |acl.contents| + |GroupClassDenials(ns, pas, flag, dir)| <= acl.aces.Length
    modifies acl, acl.aces
    ensures pa == groupOwner + 1 + |ns|
    ensures acl.Valid() && acl.contents == old(acl.contents) + GroupClassDenials(ns, pas, flag, dir)
  {
    ghost var start := acl.contents;
    acl.AppendDeny(pas.other - pas.group, flag, WhoGroup, 0, dir);
    pa := AppendGroupDenies(es, groupOwner + 1, acl, flag, dir, pas, ns);
    Assoc(start, DenyUnlessEmpty(pas.other - pas.group, flag, WhoGroup, 0, dir), GroupDenies(ns, pas, flag, dir));
  }

  method AppendUsers(es: seq<Entry>, acl: Nfs4Acl, flag: Mask, dir: bool, pas: Summary, ghost ns: seq<Named>)
      returns (pa: nat)
    requires RunAt(es, 1, User, ns) && acl.Valid()
    requires |acl.contents| + |UserAces(ns, pas, flag, dir)| <= acl.aces.Length
    modifies acl, acl.aces
    ensures pa == 1 + |ns|
    ensures acl.Valid() && acl.contents == old(acl.contents) + UserAces(ns, pas, flag, dir)
  {
    ghost var before := acl.contents;
    pa := 1;
    while es[pa].tag == User
      invariant 1 <= pa <= 1 + |ns| && acl.Valid()
      invariant acl.contents == before + UserAces(ns[..pa-1], pas, flag, dir)
      decreases |es| - pa
    {
      UserAcesStep(ns, pa - 1, pas, flag, dir);
      AppendUser(es[pa], acl, flag, dir, pas);
      Assoc(before, UserAces(ns[..pa-1], pas, flag, dir), UserAce(ns[pa-1], pas, flag, dir));
      pa := pa + 1;
    }
    assert ns[..pa-1] == ns;
  }

  method AppendUser(e: Entry, acl: Nfs4Acl, flag: Mask, dir: bool, pas: Summary)
    requires acl.Valid() && |acl.contents| + |UserAce(Named(e.id, e.perm), pas, flag, dir)| <= acl.aces.Length
    modifies acl, acl.aces
    ensures acl.Valid() && acl.contents == old(acl.contents) + UserAce(Named(e.id, e.perm), pas, flag, dir)
  {
    acl.AppendDeny((pas.groups + pas.group + pas.other) - e.perm * pas.mask, flag, WhoNamed, e.id, dir);
    acl.Append(Ace(Allow, flag, AllowBits(e.perm * pas.mask, dir), WhoNamed, e.id));
  }

  lemma {:induction false} UserAcesStep(ns: seq<Named>, k: nat, s: Summary, flag: Mask, dir: bool)
    requires k < |ns|
    ensures UserAces(ns[..k+1], s, flag, dir) == UserAces(ns[..k], s, flag, dir) + UserAce(ns[k], s, flag, dir)
    ensures |UserAces(ns[..k+1], s, flag, dir)| <= |UserAces(ns, s, flag, dir)|
    decreases |ns|
  {
    assert ns[..k+1][..k] == ns[..k];
    if k + 1 < |ns| {
      var rest := ns[..|ns|-1];
      assert rest[..k+1] == ns[..k+1];
      UserAcesStep(rest, k, s, flag, dir);
    } else {
      assert ns[..k+1] == ns;
    }
  }

  method AppendGroupAllows(es: seq<Entry>, from: nat, acl: Nfs4Acl, flag: Mask, dir: bool, pas: Summary,
      ghost ns: seq<Named>)
    requires RunAt(es, from, Group, ns) && acl.Valid()
    requires |acl.contents| + |ns| <= acl.aces.Length
    modifies acl, acl.aces
    ensures acl.Valid() && acl.contents == old(acl.contents) + GroupAllows(ns, pas, flag, dir)
  {
    ghost var before := acl.contents;
    var pa := from;
    while es[pa].tag == Group
      invariant from <= pa <= from + |ns| && acl.Valid()
      invariant acl.contents == before + GroupAllows(ns[..pa-from], pas, flag, dir)
      decreases |es| - pa
    {
      assert ns[..pa-from+1][..pa-from] == ns[..pa-from];
      acl.Append(Ace(Allow, flag + {IDENTIFIER_GROUP}, AllowBits(es[pa].perm * pas.mask, dir), WhoNamed, es[pa].id));
      Assoc(before, GroupAllows(ns[..pa-from], pas, flag, dir), [GroupAllow(ns[pa-from], pas, flag, dir)]);
      pa := pa + 1;
    }
    assert ns[..pa-from] == ns;
  }

  method AppendGroupDenies(es: seq<Entry>, from: nat, acl: Nfs4Acl, flag: Mask, dir: bool, pas: Summary,
      ghost ns: seq<Named>)
      returns (pa: nat)
    requires RunAt(es, from, Group, ns) && acl.Valid()
    requires |acl.contents| + |GroupDenies(ns, pas, flag, dir)| <= acl.aces.Length
    modifies acl, acl.aces
    ensures pa == from + |ns|
    ensures acl.Valid() && acl.contents == old(acl.contents) + GroupDenies(ns, pas, flag, dir)
  {
    ghost var before := acl.contents;
    pa := from;
    while es[pa].tag == Group
      invariant from <= pa <= from + |ns| && acl.Valid()
      invariant acl.contents == before + GroupDenies(ns[..pa-from], pas, flag, dir)
      decreases |es| - pa
    {
      GroupDeniesStep(ns, pa - from, pas, flag, dir);
      AppendGroupDeny(es[pa], acl, flag, dir, pas);
      Assoc(before, GroupDenies(ns[..pa-from], pas, flag, dir), GroupDeny(ns[pa-from], pas, flag, dir));
      pa := pa + 1;
    }
    assert ns[..pa-from] == ns;
  }

  method AppendGroupDeny(e: Entry, acl: Nfs4Acl, flag: Mask, dir: bool, pas: Summary)
    requires acl.Valid() && |acl.contents| + |GroupDeny(Named(e.id, e.perm), pas, flag, dir)| <= acl.aces.Length
    modifies acl, acl.aces
    ensures acl.Valid() && acl.contents == old(acl.contents) + GroupDeny(Named(e.id, e.perm), pas, flag, dir)
  {
    acl.AppendDeny(pas.other - e.perm * pas.mask, flag + {IDENTIFIER_GROUP}, WhoNamed, e.id, dir);
  }

  lemma {:induction false} GroupDeniesStep(ns: seq<Named>, k: nat, s: Summary, flag: Mask, dir: bool)
    requires k < |ns|
    ensures GroupDenies(ns[..k+1], s, flag, dir) == GroupDenies(ns[..k], s, flag, dir) + GroupDeny(ns[k], s, flag, dir)
    ensures |GroupDenies(ns[..k+1], s, flag, dir)| <= |GroupDenies(ns, s, flag, dir)|
    decreases |ns|
  {
    assert ns[..k+1][..k] == ns[..k];
    if k + 1 < |ns| {
      var rest := ns[..|ns|-1];
      assert rest[..k+1] == ns[..k+1];
      GroupDeniesStep(rest, k, s, flag, dir);
    } else {
      assert ns[..k+1] == ns;
    }
  }

  // ---- the whole ACL ----

  /** NFS4_INHERITANCE_FLAGS | NFS4_ACE_INHERIT_ONLY_ACE, on every ACE of a default ACL. */
  const DEFAULT_FLAGS: Mask := INHERITANCE_FLAGS + {INHERIT_ONLY}

  function EmitOption(a: Option<PosixAcl>, flag: Mask, dir: bool): seq<Ace> {
    if a.Some? then Emit(a.value, flag, dir) else []
  }

  /** The ACEs for an access ACL and a default ACL, either of which may be absent. */
  function EmitBoth(a: Option<PosixAcl>, d: Option<PosixAcl>, dir: bool): seq<Ace> {
    EmitOption(a, {}, dir) + EmitOption(d, DEFAULT_FLAGS, dir)
  }

  /** es is the flat array of a, or absent like it. */
  ghost predicate Flattens(es: Option<seq<Entry>>, a: Option<PosixAcl>) {
    es.Some? == a.Some? && (a.Some? ==> es.value == a.value.Flatten())
  }

  function Count(es: Option<seq<Entry>>): nat {
    if es.Some? then |es.value| else 0
  }

  /** nfs4_acl_posix_to_nfsv4 on ACLs that posix_acl_valid accepts: room for two ACEs per
      entry is always enough. */
  method PosixToNfsv4(es: Option<seq<Entry>>, des: Option<seq<Entry>>, dir: bool,
      ghost a: Option<PosixAcl>, ghost d: Option<PosixAcl>)
      returns (acl: Nfs4Acl)
    requires Flattens(es, a) && Flattens(des, d)
    ensures fresh(acl) && acl.Valid() && acl.contents == EmitBoth(a, d, dir)
    ensures acl.aces.Length == 2 * (Count(es) + Count(des))
  {
    var size := 0;
    if es.Some? {
      size := size + 2 * |es.value|;
    }
    if des.Some? {
      size := size + 2 * |des.value|;
    }
    acl := new Nfs4Acl(size);
    if es.Some? {
      PosixToNfsv4One(es.value, acl, {}, dir, a.value);
    }
    assert acl.contents == EmitOption(a, {}, dir);
    if des.Some? {
      PosixToNfsv4One(des.value, acl, DEFAULT_FLAGS, dir, d.value);
    }
  }
}
