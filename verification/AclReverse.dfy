/** NFSv4 ACEs to POSIX ACLs (fs/nfsd/nfs4acl.c:108-122, 391-752): the accumulating pass
    and the proof that its result never grants more than the ACEs do. */
module AclReverse {
  import opened Common
  import opened AclTypes

  // ---- accumulators ----

  /** struct posix_ace_state: bits settled for one class, disjointly. */
  datatype AceState = AceState(allow: Mask, deny: Mask)

  const NOTHING := AceState({}, {})

  function AllowIn(s: AceState, m: Mask): AceState {
    s.(allow := s.allow + (m - s.deny))
  }

  function DenyIn(s: AceState, m: Mask): AceState {
    s.(deny := s.deny + (m - s.allow))
  }

  datatype IdState = IdState(uid: Id, perms: AceState)

  /** struct posix_acl_state without its mask field, which only posix_state_to_acl uses. */
  datatype AclState = AclState(
    empty: bool, owner: AceState, group: AceState, other: AceState, everyone: AceState,
    users: seq<IdState>, groups: seq<IdState>)

  const INIT_STATE := AclState(true, NOTHING, NOTHING, NOTHING, NOTHING, [], [])

  function DenyEach(a: seq<IdState>, m: Mask): (r: seq<IdState>)
    ensures |r| == |a|
    ensures forall i :: 0 <= i < |a| ==> r[i] == IdState(a[i].uid, DenyIn(a[i].perms, m))
  {
    seq(|a|, i requires 0 <= i < |a| => IdState(a[i].uid, DenyIn(a[i].perms, m)))
  }

  function AllowEach(a: seq<IdState>, m: Mask): (r: seq<IdState>)
    ensures |r| == |a|
    ensures forall i :: 0 <= i < |a| ==> r[i] == IdState(a[i].uid, AllowIn(a[i].perms, m))
  {
    seq(|a|, i requires 0 <= i < |a| => IdState(a[i].uid, AllowIn(a[i].perms, m)))
  }

  /** The position of uid, or the length when it is not there. */
  function IndexOf(a: seq<IdState>, uid: Id): (i: nat)
    ensures i <= |a|
    ensures forall j :: 0 <= j < i ==> a[j].uid != uid
    ensures i < |a| ==> a[i].uid == uid
  {
    if a == [] then 0 else if a[0].uid == uid then 0 else 1 + IndexOf(a[1..], uid)
  }

  lemma IndexOfUnique(a: seq<IdState>, uid: Id, i: nat)
    requires i <= |a| && (forall j :: 0 <= j < i ==> a[j].uid != uid) && (i < |a| ==> a[i].uid == uid)
    ensures IndexOf(a, uid) == i
  {
  }

  /** find_uid: an unknown id starts with what everyone has so far. */
  function Ensured(a: seq<IdState>, uid: Id, everyone: AceState): (r: seq<IdState>)
    ensures |a| <= |r| <= |a| + 1 && IndexOf(a, uid) < |r|
    ensures forall i :: 0 <= i < |a| ==> r[i] == a[i]
    ensures r[IndexOf(a, uid)].uid == uid
    ensures |r| > |a| ==> IndexOf(a, uid) == |a| && r[|a|] == IdState(uid, everyone)
  {
    if IndexOf(a, uid) < |a| then a else a + [IdState(uid, everyone)]
  }

  /** The ACL_USER and ACL_GROUP cases once find_uid has returned i. A user's denials reach
      the owner, who may be that user; a group's reach everybody, who may be in it. */
  function UserAt(s: AclState, i: nat, ace: Ace): AclState
    requires i < |s.users|
  {
    var u := s.users[i];
    if ace.kind.Allow? then s.(users := s.users[i := u.(perms := AllowIn(u.perms, ace.mask))])
    else
      var p := DenyIn(u.perms, ace.mask);
      s.(users := s.users[i := u.(perms := p)], owner := DenyIn(s.owner, p.deny))
  }

  function GroupAt(s: AclState, i: nat, ace: Ace): AclState
    requires i < |s.groups|
  {
    var g := s.groups[i];
    if ace.kind.Allow? then s.(groups := s.groups[i := g.(perms := AllowIn(g.perms, ace.mask))])
    else
      var p := DenyIn(g.perms, ace.mask);
      DenyAll(s.(groups := s.groups[i := g.(perms := p)], group := DenyIn(s.group, p.deny)), p.deny)
  }

  /** The denials shared by the two group cases. */
  function DenyAll(s: AclState, m: Mask): AclState {
    s.(owner := DenyIn(s.owner, m), everyone := DenyIn(s.everyone, m),
       users := DenyEach(s.users, m), groups := DenyEach(s.groups, m))
  }

  /** process_one_v4_ace. */
  function ProcessOne(s0: AclState, ace: Ace): AclState {
    var s := s0.(empty := false);
    var m := ace.mask;
    match ace.whotype
    case WhoOwner =>
      s.(owner := if ace.kind.Allow? then AllowIn(s.owner, m) else DenyIn(s.owner, m))
    case WhoGroup =>
      if ace.kind.Allow? then s.(group := AllowIn(s.group, m))
      else
        var g := DenyIn(s.group, m);
        DenyAll(s.(group := g), g.deny)
    case WhoNamed =>
      if IDENTIFIER_GROUP in ace.flag then
        GroupAt(s.(groups := Ensured(s.groups, ace.who, s.everyone)), IndexOf(s.groups, ace.who), ace)
      else
        UserAt(s.(users := Ensured(s.users, ace.who, s.everyone)), IndexOf(s.users, ace.who), ace)
    case WhoEveryone =>
      EveryoneAll(s, ace.kind.Allow?, m)
  }

  function EveryoneAll(s: AclState, allow: bool, m: Mask): AclState {
    if allow then
      s.(owner := AllowIn(s.owner, m), group := AllowIn(s.group, m), other := AllowIn(s.other, m),
         everyone := AllowIn(s.everyone, m), users := AllowEach(s.users, m), groups := AllowEach(s.groups, m))
    else
      DenyAll(s.(group := DenyIn(s.group, m), other := DenyIn(s.other, m)), m)
  }

  function ProcessAll(s: AclState, aces: seq<Ace>): AclState {
    if aces == [] then s else ProcessOne(ProcessAll(s, aces[..|aces|-1]), aces[|aces|-1])
  }

  lemma ProcessAllAppend(s: AclState, aces: seq<Ace>, ace: Ace)
    ensures ProcessAll(s, aces + [ace]) == ProcessOne(ProcessAll(s, aces), ace)
  {
    assert (aces + [ace])[..|aces|] == aces;
  }

  // ---- soundness of the accumulators ----

  /** What an accumulator says about one bit. */
  function Cell(s: AceState, bit: Bit): Decision {
    if bit in s.allow then Allowed else if bit in s.deny then Denied else Undecided
  }

  /** Nothing is allowed before evaluation has settled the bit. */
  predicate Quiet(s: AceState, bit: Bit, d: Decision) {
    Cell(s, bit) == Allowed ==> d != Undecided
  }

  /** An accumulator that may answer for the requester also records every denial. */
  predicate Tracks(s: AceState, bit: Bit, d: Decision) {
    Quiet(s, bit, d) && (d == Denied ==> Cell(s, bit) == Denied)
  }

  predicate DistinctIds(a: seq<IdState>) {
    forall i, j :: 0 <= i < j < |a| ==> a[i].uid != a[j].uid
  }

  predicate HasId(a: seq<IdState>, id: Id) {
    exists i :: 0 <= i < |a| && a[i].uid == id
  }

  predicate HasIdIn(a: seq<IdState>, ids: set<Id>) {
    exists i :: 0 <= i < |a| && a[i].uid in ids
  }

  /** The invariant of the pass, for one bit and one requester about whom first-match
      evaluation says d so far. While an id has no entry yet, everyone's state stands in. */
  ghost predicate Sound(s: AclState, bit: Bit, file: File, r: Requester, d: Decision) {
    && Quiet(s.everyone, bit, d) && Quiet(s.other, bit, d)
    && (r.uid == file.uid ==> Tracks(s.owner, bit, d))
    && (file.gid in r.gids ==> Quiet(s.group, bit, d))
    && (forall i :: 0 <= i < |s.users| && s.users[i].uid == r.uid ==> Quiet(s.users[i].perms, bit, d))
    && (forall i :: 0 <= i < |s.groups| && s.groups[i].uid in r.gids ==> Quiet(s.groups[i].perms, bit, d))
    && (d == Denied && r.uid != file.uid ==>
          && (forall i :: 0 <= i < |s.users| && s.users[i].uid == r.uid ==> Cell(s.users[i].perms, bit) == Denied)
          && (!HasId(s.users, r.uid) ==> GroupClassDenied(s, bit, file, r)))
  }

  ghost predicate GroupClassDenied(s: AclState, bit: Bit, file: File, r: Requester) {
    && Cell(s.everyone, bit) == Denied
    && (file.gid in r.gids ==> Cell(s.group, bit) == Denied)
    && (forall i :: 0 <= i < |s.groups| && s.groups[i].uid in r.gids ==> Cell(s.groups[i].perms, bit) == Denied)
    && (file.gid in r.gids || HasIdIn(s.groups, r.gids) || Cell(s.other, bit) == Denied)
  }

  function Consider(d: Decision, ace: Ace, bit: Bit, file: File, r: Requester): Decision {
    if d == Undecided && Decides(ace, bit, file, r) then Verdict(ace) else d
  }

  lemma SoundOwner(s: AclState, ace: Ace, bit: Bit, file: File, r: Requester, d: Decision)
    requires Sound(s, bit, file, r, d) && !ace.kind.OtherType? && ace.whotype.WhoOwner?
    ensures Sound(ProcessOne(s, ace), bit, file, r, Consider(d, ace, bit, file, r))
  {
  }

  lemma SoundFindUser(s: AclState, id: Id, bit: Bit, file: File, r: Requester, d: Decision)
    requires Sound(s, bit, file, r, d)
    ensures Sound(s.(users := Ensured(s.users, id, s.everyone)), bit, file, r, d)
  {
    var us := Ensured(s.users, id, s.everyone);
    if i :| 0 <= i < |s.users| && s.users[i].uid == r.uid {
      assert us[i].uid == r.uid;
    }
  }

  lemma SoundUserAt(s: AclState, i: nat, ace: Ace, bit: Bit, file: File, r: Requester, d: Decision)
    requires Sound(s, bit, file, r, d) && !ace.kind.OtherType? && i < |s.users| && s.users[i].uid == ace.who
    requires DistinctIds(s.users)
    requires ace.whotype.WhoNamed? && IDENTIFIER_GROUP !in ace.flag
    ensures Sound(UserAt(s, i, ace), bit, file, r, Consider(d, ace, bit, file, r))
  {
    var t := UserAt(s, i, ace);
    if j :| 0 <= j < |s.users| && s.users[j].uid == r.uid {
      assert t.users[j].uid == r.uid;
    }
    assert t.users[i].uid == ace.who;
  }

  lemma SoundGroupObj(s: AclState, ace: Ace, bit: Bit, file: File, r: Requester, d: Decision)
    requires Sound(s, bit, file, r, d) && !ace.kind.OtherType? && ace.whotype.WhoGroup?
    ensures Sound(ProcessOne(s, ace), bit, file, r, Consider(d, ace, bit, file, r))
  {
  }

  lemma SoundFindGroup(s: AclState, id: Id, bit: Bit, file: File, r: Requester, d: Decision)
    requires Sound(s, bit, file, r, d)
    ensures Sound(s.(groups := Ensured(s.groups, id, s.everyone)), bit, file, r, d)
  {
    var gs := Ensured(s.groups, id, s.everyone);
    if i :| 0 <= i < |s.groups| && s.groups[i].uid in r.gids {
      assert gs[i].uid in r.gids;
    }
  }

  lemma SoundGroupAt(s: AclState, i: nat, ace: Ace, bit: Bit, file: File, r: Requester, d: Decision)
    requires Sound(s, bit, file, r, d) && !ace.kind.OtherType? && i < |s.groups| && s.groups[i].uid == ace.who
    requires ace.whotype.WhoNamed? && IDENTIFIER_GROUP in ace.flag
    ensures Sound(GroupAt(s, i, ace), bit, file, r, Consider(d, ace, bit, file, r))
  {
    if ace.kind.Allow? {
      SoundGroupAllow(s, i, ace, bit, file, r, d);
    } else {
      SoundGroupDeny(s, i, ace, bit, file, r, d);
    }
  }

  lemma SoundGroupAllow(s: AclState, i: nat, ace: Ace, bit: Bit, file: File, r: Requester, d: Decision)
    requires Sound(s, bit, file, r, d) && ace.kind.Allow? && i < |s.groups| && s.groups[i].uid == ace.who
    requires ace.whotype.WhoNamed? && IDENTIFIER_GROUP in ace.flag
    ensures Sound(GroupAt(s, i, ace), bit, file, r, Consider(d, ace, bit, file, r))
  {
    var t := GroupAt(s, i, ace);
    assert t.users == s.users;
    if j :| 0 <= j < |s.groups| && s.groups[j].uid in r.gids {
      assert t.groups[j].uid in r.gids;
    }
  }

  lemma SoundGroupDeny(s: AclState, i: nat, ace: Ace, bit: Bit, file: File, r: Requester, d: Decision)
    requires Sound(s, bit, file, r, d) && ace.kind.Deny? && i < |s.groups| && s.groups[i].uid == ace.who
    requires ace.whotype.WhoNamed? && IDENTIFIER_GROUP in ace.flag
    ensures Sound(GroupAt(s, i, ace), bit, file, r, Consider(d, ace, bit, file, r))
  {
    var t := GroupAt(s, i, ace);
    SameIds(s.users, t.users, r.uid);
    if j :| 0 <= j < |s.groups| && s.groups[j].uid in r.gids {
      assert t.groups[j].uid in r.gids;
    }
    assert t.groups[i].uid == ace.who;
  }

  lemma SameIds(a: seq<IdState>, b: seq<IdState>, id: Id)
    requires |a| == |b| && forall i :: 0 <= i < |a| ==> b[i].uid == a[i].uid
    ensures HasId(a, id) <==> HasId(b, id)
  {
    if i :| 0 <= i < |a| && a[i].uid == id { assert b[i].uid == id; }
    if i :| 0 <= i < |b| && b[i].uid == id { assert a[i].uid == id; }
  }

  lemma SoundEveryone(s: AclState, ace: Ace, bit: Bit, file: File, r: Requester, d: Decision)
    requires Sound(s, bit, file, r, d) && !ace.kind.OtherType? && ace.whotype.WhoEveryone?
    ensures Sound(ProcessOne(s, ace), bit, file, r, Consider(d, ace, bit, file, r))
  {
  }

  lemma ProcessOneSound(s: AclState, ace: Ace, bit: Bit, file: File, r: Requester, d: Decision)
    requires Sound(s, bit, file, r, d) && !ace.kind.OtherType? && DistinctIds(s.users)
    ensures Sound(ProcessOne(s, ace), bit, file, r, Consider(d, ace, bit, file, r))
  {
    match ace.whotype
    case WhoOwner => SoundOwner(s, ace, bit, file, r, d);
    case WhoGroup => SoundGroupObj(s, ace, bit, file, r, d);
    case WhoEveryone => SoundEveryone(s, ace, bit, file, r, d);
    case WhoNamed =>
      var t := s.(empty := false);
      if IDENTIFIER_GROUP in ace.flag {
        SoundFindGroup(t, ace.who, bit, file, r, d);
        SoundGroupAt(t.(groups := Ensured(t.groups, ace.who, t.everyone)), IndexOf(t.groups, ace.who), ace, bit, file,
          r, d);
      } else {
        SoundFindUser(t, ace.who, bit, file, r, d);
        SoundUserAt(t.(users := Ensured(t.users, ace.who, t.everyone)), IndexOf(t.users, ace.who), ace, bit, file, r,
          d);
      }
  }

  predicate Shape(s: AclState, limit: nat) {
    DistinctIds(s.users) && DistinctIds(s.groups) && |s.users| <= limit && |s.groups| <= limit
  }

  lemma EnsuredDistinct(a: seq<IdState>, uid: Id, e: AceState)
    requires DistinctIds(a)
    ensures DistinctIds(Ensured(a, uid, e))
  {
  }

  lemma DenyAllShape(s: AclState, m: Mask, limit: nat)
    requires Shape(s, limit)
    ensures Shape(DenyAll(s, m), limit)
  {
  }

  lemma NamedShape(s: AclState, ace: Ace, limit: nat)
    requires Shape(s, limit) && ace.whotype.WhoNamed?
    ensures Shape(ProcessOne(s, ace), limit + 1)
  {
    if IDENTIFIER_GROUP in ace.flag {
      EnsuredDistinct(s.groups, ace.who, s.everyone);
      var gs, i := Ensured(s.groups, ace.who, s.everyone), IndexOf(s.groups, ace.who);
      if !ace.kind.Allow? {
        var p := DenyIn(gs[i].perms, ace.mask);
        DenyAllShape(s.(groups := gs[i := gs[i].(perms := p)]), p.deny, limit + 1);
      }
    } else {
      EnsuredDistinct(s.users, ace.who, s.everyone);
    }
  }

  /** Ids stay distinct, and one ACE adds at most one entry to each array. */
  lemma ProcessOneShape(s: AclState, ace: Ace, limit: nat)
    requires Shape(s, limit)
    ensures Shape(ProcessOne(s, ace), limit + 1) && !ProcessOne(s, ace).empty
  {
    if ace.whotype.WhoNamed? {
      NamedShape(s, ace, limit);
    }
  }

  predicate Plain(aces: seq<Ace>) {
    forall i :: 0 <= i < |aces| ==> !aces[i].kind.OtherType?
  }

  /** Named ids are distinct and the arrays never outgrow the ACE count they were sized for. */
  lemma {:induction false} ProcessAllShape(aces: seq<Ace>)
    ensures Shape(ProcessAll(INIT_STATE, aces), |aces|)
    ensures ProcessAll(INIT_STATE, aces).empty <==> aces == []
  {
    if aces != [] {
      ProcessAllShape(aces[..|aces|-1]);
      ProcessOneShape(ProcessAll(INIT_STATE, aces[..|aces|-1]), aces[|aces|-1], |aces| - 1);
    }
  }

  lemma {:induction false} ProcessAllSound(aces: seq<Ace>, bit: Bit, file: File, r: Requester)
    requires Plain(aces)
    ensures Sound(ProcessAll(INIT_STATE, aces), bit, file, r, FirstMatch(aces, bit, file, r))
  {
    if aces != [] {
      var front, last := aces[..|aces|-1], aces[|aces|-1];
      ProcessAllSound(front, bit, file, r);
      ProcessAllShape(front);
      ProcessOneSound(ProcessAll(INIT_STATE, front), last, bit, file, r, FirstMatch(front, bit, file, r));
      assert aces == front + [last];
      FirstMatchConcat(front, [last], bit, file, r);
      assert [last][1..] == [];
    }
  }

  // ---- the resulting ACL ----

  /** low_mode_from_nfs4: pessimistic, a permission needs all its bits. */
  function LowMode(m: Mask, dir: bool): Perms {
    set p <- ALL_PERMS | PermBits(p, dir) <= m
  }

  /** check_deny: the bits that POSIX could never deny. */
  predicate Deniable(deny: Mask, isOwner: bool) {
    deny !! {READ_ATTRIBUTES, READ_ACL} && (isOwner ==> deny !! {WRITE_ATTRIBUTES, WRITE_ACL})
  }

  function Entries(a: seq<IdState>, dir: bool): (r: seq<Named>)
    ensures |r| == |a|
    ensures forall i :: 0 <= i < |a| ==> r[i] == Named(a[i].uid, LowMode(a[i].perms.allow, dir))
  {
    seq(|a|, i requires 0 <= i < |a| => Named(a[i].uid, LowMode(a[i].perms.allow, dir)))
  }

  function UnionAllow(a: seq<IdState>): Mask {
    if a == [] then {} else UnionAllow(a[..|a|-1]) + a[|a|-1].perms.allow
  }

  predicate AllDeniable(s: AclState) {
    && Deniable(s.owner.deny, true) && Deniable(s.group.deny, false) && Deniable(s.other.deny, false)
    && (forall i :: 0 <= i < |s.users| ==> Deniable(s.users[i].perms.deny, false))
    && (forall i :: 0 <= i < |s.groups| ==> Deniable(s.groups[i].perms.deny, false))
  }

  /** The ACL the accumulators stand for. */
  function AclOf(s: AclState, dir: bool): PosixAcl {
    PosixAcl(
      LowMode(s.owner.allow, dir), Entries(s.users, dir), LowMode(s.group.allow, dir), Entries(s.groups, dir),
      Some(LowMode(UnionAllow(s.users) + s.group.allow + UnionAllow(s.groups), dir)), LowMode(s.other.allow, dir))
  }

  /** posix_state_to_acl before sorting. None stands for the zero-length default ACL. */
  function StateToAcl(s: AclState, dir: bool, isDefault: bool): Result<Option<PosixAcl>> {
    if s.empty && isDefault then Ok(None)
    else if !AllDeniable(s) then Einval
    else Ok(Some(AclOf(s, dir)))
  }

  lemma EntriesList(us: seq<IdState>, dir: bool, id: Id)
    ensures Lists(Entries(us, dir), id) <==> HasId(us, id)
  {
    var ns := Entries(us, dir);
    if i :| 0 <= i < |us| && us[i].uid == id { assert ns[i].id == id && ns[i] in ns; }
    if n :| n in ns && n.id == id {
      var i :| 0 <= i < |ns| && ns[i] == n;
      assert us[i].uid == id;
    }
  }

  lemma EntriesListIn(us: seq<IdState>, dir: bool, ids: set<Id>)
    ensures (exists n <- Entries(us, dir) :: n.id in ids) <==> HasIdIn(us, ids)
  {
    var ns := Entries(us, dir);
    if i :| 0 <= i < |us| && us[i].uid in ids { assert ns[i].id in ids && ns[i] in ns; }
    if n :| n in ns && n.id in ids {
      var i :| 0 <= i < |ns| && ns[i] == n;
      assert us[i].uid in ids;
    }
  }

  lemma StateGrantsSoundly(s: AclState, dir: bool, p: Perm, bit: Bit, file: File, r: Requester, d: Decision,
      a: PosixAcl)
    requires Sound(s, bit, file, r, d) && bit in PermBits(p, dir)
    requires StateToAcl(s, dir, false) == Ok(Some(a)) && a.Grants(p, file, r)
    ensures d == Allowed
  {
    EntriesList(s.users, dir, r.uid);
    EntriesListIn(s.groups, dir, r.gids);
    if r.uid != file.uid {
      if Lists(a.users, r.uid) {
        var i :| 0 <= i < |a.users| && a.users[i].id == r.uid && p in a.users[i].perm;
        assert s.users[i].uid == r.uid;
      } else if a.InGroupClass(file, r) {
        if !(file.gid in r.gids && p in a.group) {
          var i :| 0 <= i < |a.groups| && a.groups[i].id in r.gids && p in a.groups[i].perm;
          assert s.groups[i].uid in r.gids;
        }
      }
    }
  }

  // ---- the whole conversion ----

  predicate Inheritable(ace: Ace) {
    ace.flag * INHERITANCE_FLAGS != {}
  }

  /** The rule for which ACEs count now and which only for new files in the directory. */
  function Effective(aces: seq<Ace>): seq<Ace> {
    if aces == [] then []
    else
      var last := aces[|aces|-1];
      Effective(aces[..|aces|-1]) + (if Inheritable(last) && INHERIT_ONLY in last.flag then [] else [last])
  }

  function Inherited(aces: seq<Ace>): seq<Ace> {
    if aces == [] then []
    else
      var last := aces[|aces|-1];
      Inherited(aces[..|aces|-1]) + (if Inheritable(last) then [last] else [])
  }

  predicate Accepted(ace: Ace, dir: bool) {
    !ace.kind.OtherType? && ace.flag <= SUPPORTED_FLAGS && (Inheritable(ace) ==> dir)
  }

  predicate AllAccepted(aces: seq<Ace>, dir: bool) {
    forall i :: 0 <= i < |aces| ==> Accepted(aces[i], dir)
  }

  datatype Pair = Pair(acl: Option<PosixAcl>, dacl: Option<PosixAcl>)

  /** nfs4_acl_nfsv4_to_posix up to the final sort. */
  function ToPosix(aces: seq<Ace>, dir: bool): Result<Pair> {
    if !AllAccepted(aces, dir) then Einval
    else
      match StateToAcl(ProcessAll(INIT_STATE, Effective(aces)), dir, false)
      case Einval => Einval
      case Ok(a) =>
        match StateToAcl(ProcessAll(INIT_STATE, Inherited(aces)), dir, true)
        case Einval => Einval
        case Ok(d) => Ok(Pair(a, d))
  }

  lemma {:induction false} SelectedArePlain(aces: seq<Ace>, dir: bool)
    requires AllAccepted(aces, dir)
    ensures Plain(Effective(aces)) && Plain(Inherited(aces))
    ensures |Effective(aces)| <= |aces| && |Inherited(aces)| <= |aces|
  {
    if aces != [] {
      SelectedArePlain(aces[..|aces|-1], dir);
    }
  }

  /** Conservative translation: whatever the access ACL grants, through the owner, a named
      user, the group class or other, first-match evaluation of the effective ACEs allows bit
      for bit; and the default ACL stands in the same relation to the inheritable ACEs. */
  lemma ReverseIsConservative(aces: seq<Ace>, dir: bool, pair: Pair, p: Perm, bit: Bit, file: File, r: Requester)
    requires ToPosix(aces, dir) == Ok(pair) && bit in PermBits(p, dir)
    ensures pair.acl.Some?
    ensures pair.acl.value.Grants(p, file, r) ==> FirstMatch(Effective(aces), bit, file, r) == Allowed
    ensures pair.dacl.Some? && pair.dacl.value.Grants(p, file, r) ==>
      FirstMatch(Inherited(aces), bit, file, r) == Allowed
    ensures pair.dacl.None? <==> Inherited(aces) == []
  {
    SelectedArePlain(aces, dir);
    var eff, inh := Effective(aces), Inherited(aces);
    ProcessAllSound(eff, bit, file, r);
    ProcessAllSound(inh, bit, file, r);
    ProcessAllShape(inh);
    if pair.acl.value.Grants(p, file, r) {
      StateGrantsSoundly(ProcessAll(INIT_STATE, eff), dir, p, bit, file, r, FirstMatch(eff, bit, file, r),
        pair.acl.value);
    }
    if pair.dacl.Some? && pair.dacl.value.Grants(p, file, r) {
      StateGrantsSoundly(ProcessAll(INIT_STATE, inh), dir, p, bit, file, r, FirstMatch(inh, bit, file, r),
        pair.dacl.value);
    }
  }
}
