/** Access control lists as fs/nfsd/nfs4acl.c sees them: NFSv4 ACEs, POSIX ACLs, and
    two independent definitions of what each of them grants to a requester. */
module AclTypes {
  import opened Common

  datatype Result<+T> = Ok(value: T) | Einval

  // ---- u32 masks ----

  /** A u32 mask is the set of its one-bits; `|`, `&` and `& ~` become `+`, `*` and `-`. */
  newtype Bit = b: int | 0 <= b < 32
  type Mask = set<Bit>

  // ACE mask bits, section 5.11.2 of RFC 3530
  const READ_DATA: Bit := 0
  const WRITE_DATA: Bit := 1
  const APPEND_DATA: Bit := 2
  const EXECUTE: Bit := 5
  const DELETE_CHILD: Bit := 6
  const READ_ATTRIBUTES: Bit := 7
  const WRITE_ATTRIBUTES: Bit := 8
  const READ_ACL: Bit := 17
  const WRITE_ACL: Bit := 18
  const SYNCHRONIZE: Bit := 20

  // ACE flag bits, section 5.11.3 of RFC 3530
  const FILE_INHERIT: Bit := 0
  const DIRECTORY_INHERIT: Bit := 1
  const INHERIT_ONLY: Bit := 3
  const IDENTIFIER_GROUP: Bit := 6

  const INHERITANCE_FLAGS: Mask := {FILE_INHERIT, DIRECTORY_INHERIT}
  const SUPPORTED_FLAGS: Mask := {FILE_INHERIT, DIRECTORY_INHERIT, INHERIT_ONLY, IDENTIFIER_GROUP}
  const ANYONE_MODE: Mask := {READ_ATTRIBUTES, READ_ACL, SYNCHRONIZE}
  const OWNER_MODE: Mask := {WRITE_ATTRIBUTES, WRITE_ACL}

  // ---- permissions ----

  datatype Perm = Read | Write | Execute
  type Perms = set<Perm>
  const ALL_PERMS: Perms := {Read, Write, Execute}

  /** The ACE bits one POSIX permission stands for; on a directory, write includes DELETE_CHILD. */
  function PermBits(p: Perm, dir: bool): Mask {
    match p
    case Read => {READ_DATA}
    case Write => {WRITE_DATA, APPEND_DATA} + (if dir then {DELETE_CHILD} else {})
    case Execute => {EXECUTE}
  }

  // ---- NFSv4 side ----

  type Id = nat

  datatype AceType = Allow | Deny | OtherType(code: nat)
  datatype WhoType = WhoOwner | WhoGroup | WhoNamed | WhoEveryone
  datatype Ace = Ace(kind: AceType, flag: Mask, mask: Mask, whotype: WhoType, who: Id)

  /** The file's owner and owning group, and somebody asking for access. */
  datatype File = File(uid: Id, gid: Id)
  datatype Requester = Requester(uid: Id, gids: set<Id>)

  predicate Matches(ace: Ace, file: File, r: Requester) {
    match ace.whotype
    case WhoOwner => r.uid == file.uid
    case WhoGroup => file.gid in r.gids
    case WhoNamed => if IDENTIFIER_GROUP in ace.flag then ace.who in r.gids else ace.who == r.uid
    case WhoEveryone => true
  }

  datatype Decision = Undecided | Allowed | Denied

  /** Section 5.11 of RFC 3530, for one bit: the first ACE that names the requester and
      carries the bit settles it. */
  function FirstMatch(aces: seq<Ace>, bit: Bit, file: File, r: Requester): Decision {
    if aces == [] then Undecided
    else if Decides(aces[0], bit, file, r) then Verdict(aces[0])
    else FirstMatch(aces[1..], bit, file, r)
  }

  predicate Decides(ace: Ace, bit: Bit, file: File, r: Requester) {
    !ace.kind.OtherType? && bit in ace.mask && Matches(ace, file, r)
  }

  function Verdict(ace: Ace): Decision {
    if ace.kind.Allow? then Allowed else Denied
  }

  lemma {:induction false} FirstMatchConcat(a: seq<Ace>, b: seq<Ace>, bit: Bit, file: File, r: Requester)
    ensures FirstMatch(a + b, bit, file, r)
         == if FirstMatch(a, bit, file, r) == Undecided then FirstMatch(b, bit, file, r)
           else FirstMatch(a, bit, file, r)
  {
    if a == [] {
      assert a + b == b;
    } else {
      assert (a + b)[0] == a[0] && (a + b)[1..] == a[1..] + b;
      FirstMatchConcat(a[1..], b, bit, file, r);
    }
  }

  // ---- POSIX side ----

  datatype Tag = UserObj | User | GroupObj | Group | MaskObj | OtherObj
  datatype Entry = Entry(tag: Tag, perm: Perms, id: Id)

  /** ACL_UNDEFINED_ID, the id of entries that name nobody; never a valid uid or gid. */
  const UNDEFINED_ID: Id := 0xFFFF_FFFF

  datatype Named = Named(id: Id, perm: Perms)

  /** A POSIX ACL by what it contains; `Flatten` is the entry array that the server handles. */
  datatype PosixAcl = PosixAcl(
    owner: Perms, users: seq<Named>, group: Perms, groups: seq<Named>, mask: Option<Perms>, other: Perms)
  {
    function Flatten(): seq<Entry> {
      [Entry(UserObj, owner, UNDEFINED_ID)] + Tagged(User, users) +
      [Entry(GroupObj, group, UNDEFINED_ID)] + Tagged(Group, groups) + Tail()
    }

    function Tail(): seq<Entry> {
      (if mask.Some? then [Entry(MaskObj, mask.value, UNDEFINED_ID)] else []) + [Entry(OtherObj, other, UNDEFINED_ID)]
    }

    /** What posix_acl_valid accepts: named entries strictly ordered by id, and a mask entry
        whenever there is a named one. */
    predicate Valid() {
      && Ascending(users) && Ascending(groups)
      && (users != [] || groups != [] ==> mask.Some?)
    }

    /** The mask in force: without a mask entry nothing is masked off. */
    function Limit(): Perms {
      if mask.Some? then mask.value else ALL_PERMS
    }

    /** The POSIX algorithm for one permission: exactly one class answers, the owner, a named
        user, the group class as a whole, or everybody else. */
    predicate Grants(p: Perm, file: File, r: Requester) {
      if r.uid == file.uid then p in owner
      else if Lists(users, r.uid) then GrantedBy(users, {r.uid}, p) && p in Limit()
      else if InGroupClass(file, r) then
        ((file.gid in r.gids && p in group) || GrantedBy(groups, r.gids, p)) && p in Limit()
      else p in other
    }

    predicate InGroupClass(file: File, r: Requester) {
      file.gid in r.gids || exists n <- groups :: n.id in r.gids
    }
  }

  function Tagged(tag: Tag, ns: seq<Named>): (es: seq<Entry>)
    ensures |es| == |ns|
    ensures forall i :: 0 <= i < |ns| ==> es[i] == Entry(tag, ns[i].perm, ns[i].id)
  {
    seq(|ns|, i requires 0 <= i < |ns| => Entry(tag, ns[i].perm, ns[i].id))
  }

  predicate Ascending(ns: seq<Named>) {
    forall i, j :: 0 <= i < j < |ns| ==> ns[i].id < ns[j].id
  }

  predicate Distinct(ns: seq<Named>) {
    forall i, j :: 0 <= i < j < |ns| ==> ns[i].id != ns[j].id
  }

  predicate Lists(ns: seq<Named>, id: Id) {
    exists n <- ns :: n.id == id
  }

  /** Some entry for one of `ids` carries p. */
  predicate GrantedBy(ns: seq<Named>, ids: set<Id>, p: Perm) {
    exists n <- ns :: n.id in ids && p in n.perm
  }
}
