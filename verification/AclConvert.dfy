/** The converter of fs/nfsd/nfs4acl.c:391-752 in the form the server runs it: accumulators
    updated in place, fixed arrays that grow by a counter, an entry array filled by a moving
    index and then sorted. Every method is proved against AclReverse. */
module AclConvert {
  import opened Common
  import opened AclTypes
  import opened AclReverse
  import opened AclSort

  /** struct posix_ace_state_array. */
  class AceStateArray {
    const aces: array<IdState>
    var n: nat
    ghost var contents: seq<IdState>

    ghost predicate Valid()
      reads this, aces
    {
      n <= aces.Length && contents == aces[..n]
    }

    constructor (cnt: nat)
      ensures Valid() && contents == [] && aces.Length == cnt && fresh(aces)
    {
      aces := new IdState[cnt](_ => IdState(0, NOTHING));
      n := 0;
      contents := [];
    }

    /** find_uid: a linear search that appends a missing id. */
    method FindUid(uid: Id, everyone: AceState) returns (i: nat)
      requires Valid() && |contents| < aces.Length
      modifies this, aces
      ensures Valid() && contents == Ensured(old(contents), uid, everyone) && i == IndexOf(old(contents), uid)
    {
      i := 0;
      while i < n && aces[i].uid != uid
        invariant 0 <= i <= n
        invariant forall j :: 0 <= j < i ==> contents[j].uid != uid
      {
        i := i + 1;
      }
      IndexOfUnique(contents, uid, i);
      if i == n {
        n := n + 1;
        aces[i] := IdState(uid, everyone);
        contents := contents + [IdState(uid, everyone)];
      }
    }

    method SetAt(i: nat, perms: AceState)
      requires Valid() && i < |contents|
      modifies this, aces
      ensures Valid() && n == old(n) && contents == old(contents[i := contents[i].(perms := perms)])
    {
      aces[i] := aces[i].(perms := perms);
      contents := contents[i := contents[i].(perms := perms)];
    }

    /** deny_bits_array. */
    method DenyBits(m: Mask)
      requires Valid()
      modifies this, aces
      ensures Valid() && contents == DenyEach(old(contents), m)
    {
      ghost var before := contents;
      var i := 0;
      while i < n
        invariant 0 <= i <= n == |before| == |contents| && Valid()
        invariant forall k :: 0 <= k < i ==> contents[k] == IdState(before[k].uid, DenyIn(before[k].perms, m))
        invariant forall k :: i <= k < n ==> contents[k] == before[k]
      {
        SetAt(i, DenyIn(aces[i].perms, m));
        i := i + 1;
      }
    }

    /** allow_bits_array. */
    method AllowBits(m: Mask)
      requires Valid()
      modifies this, aces
      ensures Valid() && contents == AllowEach(old(contents), m)
    {
      ghost var before := contents;
      var i := 0;
      while i < n
        invariant 0 <= i <= n == |before| == |contents| && Valid()
        invariant forall k :: 0 <= k < i ==> contents[k] == IdState(before[k].uid, AllowIn(before[k].perms, m))
        invariant forall k :: i <= k < n ==> contents[k] == before[k]
      {
        SetAt(i, AllowIn(aces[i].perms, m));
        i := i + 1;
      }
    }
  }

  /** struct posix_acl_state. */
  class PosixAclState {
    var empty: bool
    var owner: AceState
    var group: AceState
    var other: AceState
    var everyone: AceState
    var mask: Mask
    const users: AceStateArray
    const groups: AceStateArray
    ghost var seen: seq<Ace>

    ghost function Repr(): set<object> {
      {this, users, groups, users.aces, groups.aces}
    }

    ghost predicate Sane()
      reads Repr()
    {
      && users != groups && users.aces != groups.aces
      && users.Valid() && groups.Valid()
    }

    /** The fields are those that the pass over the ACEs in `seen` leads to. */
    ghost predicate Valid()
      reads Repr()
    {
      Sane() && Model() == ProcessAll(INIT_STATE, seen)
    }

    ghost function Model(): AclState
      reads this, users, groups
    {
      AclState(empty, owner, group, other, everyone, users.contents, groups.contents)
    }

    /** init_state. */
    constructor (cnt: nat)
      ensures Valid() && seen == [] && mask == {}
      ensures users.aces.Length == cnt && groups.aces.Length == cnt
      ensures fresh(Repr())
    {
      empty, owner, group, other, everyone, mask, seen := true, NOTHING, NOTHING, NOTHING, NOTHING, {}, [];
      users := new AceStateArray(cnt);
      groups := new AceStateArray(cnt);
    }

    method DenyUser(i: nat, m: Mask)
      requires Sane() && i < |users.contents|
      modifies this, users, users.aces
      ensures Sane() && mask == old(mask) && seen == old(seen)
      ensures Model() == UserAt(old(Model()), i, Ace(Deny, {}, m, WhoNamed, 0))
    {
      users.SetAt(i, DenyIn(users.aces[i].perms, m));
      owner := DenyIn(owner, users.aces[i].perms.deny);
    }

    method DenyAllBits(m: Mask)
      requires Sane()
      modifies Repr()
      ensures Sane() && mask == old(mask) && seen == old(seen)
      ensures Model() == DenyAll(old(Model()), m)
    {
      owner := DenyIn(owner, m);
      everyone := DenyIn(everyone, m);
      users.DenyBits(m);
      groups.DenyBits(m);
    }

    method DenyGroup(i: nat, m: Mask)
      requires Sane() && i < |groups.contents|
      modifies Repr()
      ensures Sane() && mask == old(mask) && seen == old(seen)
      ensures Model() == GroupAt(old(Model()), i, Ace(Deny, {}, m, WhoNamed, 0))
    {
      groups.SetAt(i, DenyIn(groups.aces[i].perms, m));
      var all := groups.aces[i].perms.deny;
      group := DenyIn(group, all);
      DenyAllBits(all);
    }

    method ProcessEveryone(allow: bool, m: Mask)
      requires Sane()
      modifies Repr()
      ensures Sane() && mask == old(mask) && seen == old(seen)
      ensures Model() == EveryoneAll(old(Model()), allow, m)
    {
      if allow {
        owner := AllowIn(owner, m);
        group := AllowIn(group, m);
        other := AllowIn(other, m);
        everyone := AllowIn(everyone, m);
        users.AllowBits(m);
        groups.AllowBits(m);
      } else {
        group := DenyIn(group, m);
        other := DenyIn(other, m);
        DenyAllBits(m);
      }
    }

    /** process_one_v4_ace. */
    method ProcessOneV4Ace(ace: Ace)
      requires Sane() && |users.contents| < users.aces.Length && |groups.contents| < groups.aces.Length
      modifies Repr()
      ensures Sane() && mask == old(mask) && seen == old(seen)
      ensures Model() == ProcessOne(old(Model()), ace)
    {
      empty := false;
      var m, allow := ace.mask, ace.kind.Allow?;
      match ace.whotype {
        case WhoOwner =>
          owner := if allow then AllowIn(owner, m) else DenyIn(owner, m);
        case WhoNamed =>
          if IDENTIFIER_GROUP in ace.flag {
            var i := groups.FindUid(ace.who, everyone);
            if allow {
              groups.SetAt(i, AllowIn(groups.aces[i].perms, m));
            } else {
              DenyGroup(i, m);
            }
          } else {
            var i := users.FindUid(ace.who, everyone);
            if allow {
              users.SetAt(i, AllowIn(users.aces[i].perms, m));
            } else {
              DenyUser(i, m);
            }
          }
        case WhoGroup =>
          if allow {
            group := AllowIn(group, m);
          } else {
            group := DenyIn(group, m);
            DenyAllBits(group.deny);
          }
        case WhoEveryone =>
          ProcessEveryone(allow, m);
      }
    }

    /** process_one_v4_ace on a state that knows its past. */
    method Process(ace: Ace)
      requires Valid() && |seen| < users.aces.Length && |seen| < groups.aces.Length
      modifies Repr()
      ensures Valid() && mask == old(mask) && seen == old(seen) + [ace]
    {
      ProcessAllShape(seen);
      ProcessAllAppend(INIT_STATE, seen, ace);
      ProcessOneV4Ace(ace);
      seen := seen + [ace];
    }

    method AddToMask(s: AceState)
      modifies this`mask
      ensures mask == old(mask) + s.allow
    {
      mask := mask + s.allow;
    }

    /** The loop over one array in posix_state_to_acl: writes the entries from pace on, adds
        their bits to the mask, and gives up at the first denial that POSIX cannot express. */
    method FillEntries(src: AceStateArray, tag: Tag, es: array<Entry>, from: nat, dir: bool)
        returns (pace: nat, ok: bool)
      requires src.Valid() && from + |src.contents| <= es.Length
      modifies this`mask, es
      ensures ok <==> forall i :: 0 <= i < |src.contents| ==> Deniable(src.contents[i].perms.deny, false)
      ensures ok ==> pace == from + |src.contents| && mask == old(mask) + UnionAllow(src.contents)
      ensures ok ==> es[..pace] == old(es[..from]) + Tagged(tag, Entries(src.contents, dir))
    {
      ghost var a := src.contents;
      pace := from;
      var i := 0;
      while i < src.n
        invariant 0 <= i <= src.n == |a| && src.contents == a && src.Valid() && pace == from + i
        invariant forall k :: 0 <= k < i ==> Deniable(a[k].perms.deny, false)
        invariant es[..from] == old(es[..from])
        invariant forall k :: 0 <= k < i ==> es[from + k] == Entry(tag, LowMode(a[k].perms.allow, dir), a[k].uid)
        invariant mask == old(mask) + UnionAllow(a[..i])
      {
        assert a[..i+1][..i] == a[..i];
        if !Deniable(src.aces[i].perms.deny, false) {
          return pace, false;
        }
        es[pace] := Entry(tag, LowMode(src.aces[i].perms.allow, dir), src.aces[i].uid);
        AddToMask(src.aces[i].perms);
        pace, i := pace + 1, i + 1;
      }
      assert a[..i] == a;
      assert es[..pace] == es[..from] + es[from..pace];
      ok := true;
    }

    /** posix_state_to_acl. The array of length zero is the empty default ACL. */
    method PosixStateToAcl(dir: bool, isDefault: bool) returns (es: array<Entry>, ok: bool)
      requires Sane() && mask == {}
      modifies this`mask
      ensures fresh(es)
      ensures ok <==> (empty && isDefault) || AllDeniable(Model())
      ensures ok ==> es[..] == if empty && isDefault then [] else AclOf(Model(), dir).Flatten()
    {
      if empty && isDefault {
        es := new Entry[0];
        return es, true;
      }
      es := new Entry[4 + users.n + groups.n](_ => Entry(UserObj, {}, UNDEFINED_ID));
      ghost var a := AclOf(Model(), dir);
      var pace;
      pace, ok := FillPart(UserObj, owner, users, User, es, 0, dir);
      if !ok {
        return;
      }
      assert es[..pace] == [Entry(UserObj, a.owner, UNDEFINED_ID)] + Tagged(User, a.users);
      pace, ok := FillPart(GroupObj, group, groups, Group, es, pace, dir);
      if !ok {
        return;
      }
      assert mask == UnionAllow(users.contents) + group.allow + UnionAllow(groups.contents);
      ok := FillTail(es, pace, dir);
      assert a.Tail() == [Entry(MaskObj, LowMode(mask, dir), UNDEFINED_ID)] + [Entry(OtherObj, a.other, UNDEFINED_ID)];
    }

    /** The entry of an owning class, the owner's or the group's, and the named entries behind
        it; all but the owner's count towards the mask. */
    method FillPart(own: Tag, st: AceState, src: AceStateArray, tag: Tag, es: array<Entry>, from: nat, dir: bool)
        returns (pace: nat, ok: bool)
      requires src.Valid() && from + 1 + |src.contents| <= es.Length
      modifies this`mask, es
      ensures ok <==> Deniable(st.deny, own.UserObj?) && forall i :: 0 <= i < |src.contents| ==>
        Deniable(src.contents[i].perms.deny, false)
      ensures ok ==> pace == from + 1 + |src.contents|
      ensures ok ==> mask == old(mask) + (if own.UserObj? then {} else st.allow) + UnionAllow(src.contents)
      ensures ok ==> es[..pace]
                       == old(es[..from]) + [Entry(own, LowMode(st.allow, dir), UNDEFINED_ID)]
                         + Tagged(tag, Entries(src.contents, dir))
    {
      if !Deniable(st.deny, own.UserObj?) {
        return 0, false;
      }
      Put(es, from, Entry(own, LowMode(st.allow, dir), UNDEFINED_ID));
      if !own.UserObj? {
        AddToMask(st);
      }
      pace, ok := FillEntries(src, tag, es, from + 1, dir);
    }

    /** The mask and other entries. */
    method FillTail(es: array<Entry>, pace: nat, dir: bool) returns (ok: bool)
      requires pace + 2 == es.Length
      modifies es
      ensures ok <==> Deniable(other.deny, false)
      ensures ok ==> es[..]
                       == old(es[..pace]) + ([Entry(MaskObj, LowMode(mask, dir), UNDEFINED_ID)]
                         + [Entry(OtherObj, LowMode(other.allow, dir), UNDEFINED_ID)])
    {
      Put(es, pace, Entry(MaskObj, LowMode(mask, dir), UNDEFINED_ID));
      ok := Deniable(other.deny, false);
      if ok {
        Put(es, pace + 1, Entry(OtherObj, LowMode(other.allow, dir), UNDEFINED_ID));
      }
      assert es[..] == es[..pace+2];
    }
  }

  /** Writes the next entry behind those already filled in. */
  method Put(es: array<Entry>, pace: nat, e: Entry)
    requires pace < es.Length
    modifies es
    ensures es[..pace+1] == old(es[..pace]) + [e]
  {
    es[pace] := e;
  }

  /** One turn of the loop over the ACEs. */
  method Distribute(ace: Ace, dir: bool, effective: PosixAclState, default_: PosixAclState) returns (ok: bool)
    requires effective.Valid() && default_.Valid() && effective.Repr() !! default_.Repr()
    requires |effective.seen| < effective.users.aces.Length && |effective.seen| < effective.groups.aces.Length
    requires |default_.seen| < default_.users.aces.Length && |default_.seen| < default_.groups.aces.Length
    modifies effective.Repr(), default_.Repr()
    ensures effective.Valid() && default_.Valid()
    ensures effective.mask == old(effective.mask) && default_.mask == old(default_.mask)
    ensures ok <==> Accepted(ace, dir)
    ensures ok ==>
      effective.seen == old(effective.seen) + if Inheritable(ace) && INHERIT_ONLY in ace.flag then [] else [ace]
    ensures ok ==> default_.seen == old(default_.seen) + if Inheritable(ace) then [ace] else []
  {
    if ace.kind.OtherType? || !(ace.flag <= SUPPORTED_FLAGS) {
      return false;
    }
    if ace.flag * INHERITANCE_FLAGS == {} {
      effective.Process(ace);
      return true;
    }
    if !dir {
      return false;
    }
    default_.Process(ace);
    if INHERIT_ONLY !in ace.flag {
      effective.Process(ace);
    }
    ok := true;
  }

  lemma SelectionStep(aces: seq<Ace>, i: nat, dir: bool)
    requires i < |aces| && AllAccepted(aces[..i], dir)
    ensures |Effective(aces[..i])| <= i && |Inherited(aces[..i])| <= i
    ensures Accepted(aces[i], dir) ==> AllAccepted(aces[..i+1], dir)
    ensures !Accepted(aces[i], dir) ==> !AllAccepted(aces, dir)
    ensures Effective(aces[..i+1]) == Effective(aces[..i])
      + if Inheritable(aces[i]) && INHERIT_ONLY in aces[i].flag then [] else [aces[i]]
    ensures Inherited(aces[..i+1]) == Inherited(aces[..i]) + if Inheritable(aces[i]) then [aces[i]] else []
  {
    assert aces[..i+1][..i] == aces[..i];
    SelectedArePlain(aces[..i], dir);
    if Accepted(aces[i], dir) {
      var t := aces[..i+1];
      forall k | 0 <= k < |t| ensures Accepted(t[k], dir) {
        assert k < i ==> aces[..i][k] == t[k];
      }
    }
  }

  /** The loop: both states have seen their share of the ACEs, or some ACE was refused. */
  method ProcessAces(aces: seq<Ace>, dir: bool) returns (ok: bool, effective: PosixAclState, default_: PosixAclState)
    ensures ok <==> AllAccepted(aces, dir)
    ensures fresh(effective.Repr()) && fresh(default_.Repr()) && effective.Valid() && default_.Valid()
    ensures effective.Repr() !! default_.Repr() && effective.mask == {} && default_.mask == {}
    ensures ok ==> effective.seen == Effective(aces) && default_.seen == Inherited(aces)
  {
    effective := new PosixAclState(|aces|);
    default_ := new PosixAclState(|aces|);
    ok := true;
    var i := 0;
    while i < |aces|
      invariant 0 <= i <= |aces| && ok && AllAccepted(aces[..i], dir)
      invariant effective.Valid() && default_.Valid() && effective.mask == {} && default_.mask == {}
      invariant fresh(effective.Repr()) && fresh(default_.Repr()) && effective.Repr() !! default_.Repr()
      invariant effective.users.aces.Length == |aces| == effective.groups.aces.Length
      invariant default_.users.aces.Length == |aces| == default_.groups.aces.Length
      invariant effective.seen == Effective(aces[..i]) && default_.seen == Inherited(aces[..i])
    {
      SelectionStep(aces, i, dir);
      ok := Distribute(aces[i], dir, effective, default_);
      if !ok {
        return;
      }
      i := i + 1;
    }
    assert aces[..i] == aces;
  }

  /** A converted ACL has distinct ids and a mask, which is all that sorting asks of it. */
  lemma ConvertedIsSortable(aces: seq<Ace>, dir: bool)
    ensures var a := AclOf(ProcessAll(INIT_STATE, aces), dir);
      a.mask.Some? && Distinct(a.users) && Distinct(a.groups)
    ensures ProcessAll(INIT_STATE, aces).empty <==> aces == []
  {
    ProcessAllShape(aces);
  }

  /** es holds the entries of b, which is a, absent or in sorted order. */
  ghost predicate HoldsSorted(es: array<Entry>, a: Option<PosixAcl>, b: Option<PosixAcl>)
    reads es
  {
    && a.Some? == b.Some? && (a.Some? ==> Reordered(a.value, b.value))
    && es[..] == if b.None? then [] else b.value.Flatten()
  }

  /** posix_state_to_acl followed by sort_pacl; r is what the state stands for. */
  method Finish(state: PosixAclState, dir: bool, isDefault: bool, ghost r: Result<Option<PosixAcl>>)
      returns (ok: bool, es: array<Entry>, ghost b: Option<PosixAcl>)
    requires state.Valid() && state.mask == {}
    requires r == StateToAcl(ProcessAll(INIT_STATE, state.seen), dir, isDefault)
    modifies state
    ensures fresh(es) && (ok <==> r.Ok?) && (ok ==> HoldsSorted(es, r.value, b))
  {
    ghost var a := AclOf(state.Model(), dir);
    ConvertedIsSortable(state.seen, dir);
    b := None;
    es, ok := state.PosixStateToAcl(dir, isDefault);
    if ok && es.Length > 0 {
      ghost var c := SortPacl(es, a);
      b := Some(c);
    }
  }

  /** The conversion, as its two halves. */
  ghost function Halves(aces: seq<Ace>, dir: bool): (Result<Option<PosixAcl>>, Result<Option<PosixAcl>>) {
    (StateToAcl(ProcessAll(INIT_STATE, Effective(aces)), dir, false),
      StateToAcl(ProcessAll(INIT_STATE, Inherited(aces)), dir, true))
  }

  lemma ToPosixByHalves(aces: seq<Ace>, dir: bool, a: Result<Option<PosixAcl>>, d: Result<Option<PosixAcl>>)
    requires (a, d) == Halves(aces, dir)
    ensures ToPosix(aces, dir).Ok? <==> AllAccepted(aces, dir) && a.Ok? && d.Ok?
    ensures ToPosix(aces, dir).Ok? ==> ToPosix(aces, dir).value == Pair(a.value, d.value)
  {
  }

  /** Both halves of the conversion; the second is not begun when the first fails. */
  method FinishBoth(effective: PosixAclState, default_: PosixAclState, dir: bool,
      ghost r: Result<Option<PosixAcl>>, ghost q: Result<Option<PosixAcl>>)
      returns (ok: bool, pacl: array<Entry>, dpacl: array<Entry>, ghost pair: Pair)
    requires effective.Valid() && default_.Valid() && effective.mask == {} && default_.mask == {}
    requires effective.Repr() !! default_.Repr()
    requires r == StateToAcl(ProcessAll(INIT_STATE, effective.seen), dir, false)
    requires q == StateToAcl(ProcessAll(INIT_STATE, default_.seen), dir, true)
    modifies effective, default_
    ensures ok <==> r.Ok? && q.Ok?
    ensures ok ==> HoldsSorted(pacl, r.value, pair.acl) && HoldsSorted(dpacl, q.value, pair.dacl)
  {
    ghost var a, d;
    pair := Pair(None, None);
    ok, pacl, a := Finish(effective, dir, false, r);
    dpacl := pacl;
    if !ok {
      return;
    }
    ok, dpacl, d := Finish(default_, dir, true, q);
    pair := Pair(a, d);
  }

  /** nfs4_acl_nfsv4_to_posix. The ghost results are the two ACLs that the arrays hold. */
  method Nfsv4ToPosix(aces: seq<Ace>, dir: bool)
      returns (ok: bool, pacl: array<Entry>, dpacl: array<Entry>, ghost pair: Pair)
    ensures ok <==> ToPosix(aces, dir).Ok?
    ensures ok ==> HoldsSorted(pacl, ToPosix(aces, dir).value.acl, pair.acl)
    ensures ok ==> HoldsSorted(dpacl, ToPosix(aces, dir).value.dacl, pair.dacl)
  {
    pacl, dpacl, pair := new Entry[0], new Entry[0], Pair(None, None);
    var effective, default_;
    ok, effective, default_ := ProcessAces(aces, dir);
    if !ok {
      return;
    }
    ghost var r, q := Halves(aces, dir).0, Halves(aces, dir).1;
    ok, pacl, dpacl, pair := FinishBoth(effective, default_, dir, r, q);
    ToPosixByHalves(aces, dir, r, q);
  }

  /** From end to end: whatever array the conversion leaves for the access or the default ACL, the
      ACL in it is valid, and each r, w, x bit it grants a requester is granted by first-match
      evaluation of the ACEs selected for it. Only the default ACL can be absent, and is exactly when
      no ACE is inheritable. */
  lemma ConvertedArrayIsConservative(
      aces: seq<Ace>, dir: bool, isDefault: bool, es: array<Entry>, pair: Pair, b: Option<PosixAcl>,
      p: Perm, bit: Bit, file: File, r: Requester)
    requires ToPosix(aces, dir) == Ok(pair) && bit in PermBits(p, dir)
    requires HoldsSorted(es, if isDefault then pair.dacl else pair.acl, b)
    ensures b.None? <==> isDefault && Inherited(aces) == []
    ensures b.Some? ==> es[..] == b.value.Flatten() && b.value.Valid()
    ensures b.Some? && b.value.Grants(p, file, r) ==>
      FirstMatch(if isDefault then Inherited(aces) else Effective(aces), bit, file, r) == Allowed
  {
    ReverseIsConservative(aces, dir, pair, p, bit, file, r);
    if b.Some? {
      var a := if isDefault then pair.dacl.value else pair.acl.value;
      ReorderedGrantsSame(a, b.value, p, file, r);
      ConvertedHasMask(aces, dir, pair, isDefault);
    }
  }

  lemma ConvertedHasMask(aces: seq<Ace>, dir: bool, pair: Pair, isDefault: bool)
    requires ToPosix(aces, dir) == Ok(pair)
    ensures var a := if isDefault then pair.dacl else pair.acl; a.Some? ==> a.value.mask.Some?
  {
  }
}
