/** Open and lock stateids of one file (fs/nfsd/nfs4state.c:142-155, 193-238, 454-475, 532-621,
    2299-2316, 2429-2445, 2704-2799, 2993-3076, 3649-3683, 3751-3755, 4013-4022): what each operation
    does to the open counts, the three shared descriptors and the share reservations, and when the
    record of the file is freed. */
module OpenState {

  // ---- share modes ----

  datatype Right = R | W

  /** The values 0..3 of share_access and share_deny. */
  datatype Mode = NoMode | ReadMode | WriteMode | BothMode

  function Rights(m: Mode): set<Right> {
    match m
    case NoMode => {}
    case ReadMode => {R}
    case WriteMode => {W}
    case BothMode => {R, W}
  }

  /** A share bitmap remembers which values opens have used, not only their union. */
  type Bitmap = set<Mode>

  /** bmap_to_share_mode. */
  function ShareMode(b: Bitmap): set<Right> {
    (if ReadMode in b then {R} else {}) + (if WriteMode in b then {W} else {}) + (if BothMode in b then {R, W} else {})
  }

  // ---- stateids ----

  /** struct nfs4_ol_stateid: an open stateid, or a lock stateid under the open `parent`. */
  datatype Stateid = Stateid(id: nat, owner: nat, isOpen: bool, parent: nat, access: Bitmap, deny: Bitmap)

  /** How much one bitmap contributes to fi_access for r. */
  function UsesOf(b: Bitmap, r: Right): nat {
    (if (if r == R then ReadMode else WriteMode) in b then 1 else 0) + (if BothMode in b then 1 else 0)
  }

  function Total(ss: seq<Stateid>, r: Right): nat {
    if ss == [] then 0 else UsesOf(ss[0].access, r) + Total(ss[1..], r)
  }

  /** What one use of mode m counts for r. */
  function Need(m: Mode, r: Right): (n: nat)
    ensures n == if r in Rights(m) then 1 else 0
  {
    match m
    case NoMode => 0
    case ReadMode => if r == R then 1 else 0
    case WriteMode => if r == W then 1 else 0
    case BothMode => assert r == R || r == W; 1
  }

  function LeakTotal(leaked: seq<Mode>, r: Right): nat {
    if leaked == [] then 0 else LeakTotal(leaked[..|leaked|-1], r) + Need(leaked[|leaked|-1], r)
  }

  lemma {:induction false} TotalConcat(a: seq<Stateid>, b: seq<Stateid>, r: Right)
    ensures Total(a + b, r) == Total(a, r) + Total(b, r)
  {
    if a == [] {
      assert a + b == b;
    } else {
      assert (a + b)[1..] == a[1..] + b;
      TotalConcat(a[1..], b, r);
    }
  }

  lemma TotalSplit(ss: seq<Stateid>, i: nat, r: Right)
    requires i < |ss|
    ensures Total(ss, r) == Total(ss[..i], r) + UsesOf(ss[i].access, r) + Total(ss[i+1..], r)
    ensures Total(ss[..i] + ss[i+1..], r) == Total(ss, r) - UsesOf(ss[i].access, r)
  {
    assert ss == ss[..i] + ss[i..];
    TotalConcat(ss[..i], ss[i..], r);
    TotalConcat(ss[..i], ss[i+1..], r);
  }

  lemma TotalUpdate(ss: seq<Stateid>, i: nat, t: Stateid, r: Right)
    requires i < |ss|
    ensures Total(ss[i := t], r) == Total(ss, r) - UsesOf(ss[i].access, r) + UsesOf(t.access, r)
  {
    TotalSplit(ss, i, r);
    TotalSplit(ss[i := t], i, r);
    assert ss[i := t][..i] == ss[..i] && ss[i := t][i+1..] == ss[i+1..];
  }

  // ---- the file ----

  /** fi_fds and fi_access of struct nfs4_file. */
  datatype Counts = Counts(rdonly: bool, wronly: bool, rdwr: bool, readers: int, writers: int)
  {
    function Of(r: Right): int {
      if r == R then readers else writers
    }

    function Fd(m: Mode): bool {
      match m case NoMode => false case ReadMode => rdonly case WriteMode => wronly case BothMode => rdwr
    }

    /** find_readable_file, find_writeable_file: is a descriptor usable for r open? */
    predicate Usable(r: Right) {
      (if r == R then rdonly else wronly) || rdwr
    }
  }

  /** No descriptor open and nothing counted. */
  const CLOSED := Counts(false, false, false, 0, 0)

  function OpenFds(c: Counts): nat {
    (if c.rdonly then 1 else 0) + (if c.wronly then 1 else 0) + (if c.rdwr then 1 else 0)
  }

  /** struct nfs4_file of one inode, `delegs` the delegations that hold it. History variables:
      `leaked`, the modes of new opens that failed in the truncate after this record had counted them,
      and `orphans`, the descriptors left open in records of this inode that were freed. */
  datatype FileModel = FileModel(fds: Counts, stateids: seq<Stateid>, leaked: seq<Mode>, delegs: nat, orphans: nat)

  /** Each stateid and each delegation has a reference; without one, the inode has no record. */
  predicate Held(f: FileModel) {
    f.stateids != [] || f.delegs > 0
  }

  /** put_nfs4_file frees a record nobody holds, whatever it counts, and closes nothing; the next OPEN
      starts with a new record. */
  function Settle(f: FileModel): FileModel {
    if Held(f) then f else FileModel(CLOSED, [], [], 0, f.orphans + OpenFds(f.fds))
  }

  function OpenFd(c: Counts, m: Mode): Counts {
    match m
    case NoMode => c
    case ReadMode => c.(rdonly := true)
    case WriteMode => c.(wronly := true)
    case BothMode => c.(rdwr := true)
  }

  /** nfs4_file_get_access. */
  function Get(c: Counts, m: Mode): Counts {
    c.(readers := c.readers + Need(m, R), writers := c.writers + Need(m, W))
  }

  /** __nfs4_file_put_access: the last user of one kind closes that descriptor, and the
      read-write one too unless it is still needed for the other kind. */
  function PutOne(c: Counts, r: Right): Counts {
    if r == R then
      var d := c.(readers := c.readers - 1);
      if d.readers != 0 then d
      else d.(rdonly := false, rdwr := d.rdwr && !d.wronly && d.writers != 0)
    else
      var d := c.(writers := c.writers - 1);
      if d.writers != 0 then d
      else d.(wronly := false, rdwr := d.rdwr && !d.rdonly && d.readers != 0)
  }

  /** nfs4_file_put_access. */
  function Put(c: Counts, m: Mode): Counts {
    match m
    case NoMode => c
    case ReadMode => PutOne(c, R)
    case WriteMode => PutOne(c, W)
    case BothMode => PutOne(PutOne(c, R), W)
  }

  // ---- accounting ----

  /** Whatever is counted has a usable descriptor, and no descriptor is open without a use. */
  predicate Backed(c: Counts) {
    && c.readers >= 0 && c.writers >= 0
    && (c.readers > 0 ==> c.Usable(R))
    && (c.writers > 0 ==> c.Usable(W))
    && (c.rdonly ==> c.readers > 0)
    && (c.wronly ==> c.writers > 0)
    && (c.rdwr ==> c.readers > 0 || c.writers > 0)
  }

  /** Counts c are d with one use of mode m more. */
  predicate Adds(c: Counts, d: Counts, m: Mode) {
    c.readers == d.readers + Need(m, R) && c.writers == d.writers + Need(m, W)
  }

  lemma PutBacked(c: Counts, m: Mode)
    requires Backed(c) && c.readers >= Need(m, R) && c.writers >= Need(m, W)
    ensures Backed(Put(c, m))
    ensures Adds(c, Put(c, m), m)
  {
    if m == BothMode {
      assert Backed(PutOne(c, R));
    }
  }

  /** Opening the descriptor of a mode if need be and counting it. */
  lemma GetBacked(c: Counts, m: Mode)
    requires Backed(c)
    ensures Backed(Get(OpenFd(c, m), m))
    ensures Adds(Get(OpenFd(c, m), m), c, m)
    ensures m != BothMode && (forall r :: r in Rights(m) ==> c.Usable(r)) ==> Backed(Get(c, m))
  {
    assert R in Rights(ReadMode) && W in Rights(WriteMode);
  }

  /** What fi_access should hold: what the stateids use plus what has leaked. */
  function Users(ss: seq<Stateid>, leaked: seq<Mode>, r: Right): nat {
    Total(ss, r) + LeakTotal(leaked, r)
  }

  /** The counts are right up to `er` and `ew`, which the operation at hand has counted but not
      recorded in a stateid. */
  ghost predicate Balanced(f: FileModel, er: nat, ew: nat) {
    && Backed(f.fds)
    && f.fds.readers == Users(f.stateids, f.leaked, R) + er
    && f.fds.writers == Users(f.stateids, f.leaked, W) + ew
  }

  /** Giving up one bit of a stateid's bitmap together with its count. */
  lemma DropUse(f: FileModel, i: nat, t: Stateid, m: Mode, er: nat, ew: nat)
    requires Balanced(f, er, ew) && i < |f.stateids| && m != NoMode
    requires m in f.stateids[i].access && t.access == f.stateids[i].access - {m}
    ensures Balanced(f.(fds := Put(f.fds, m), stateids := f.stateids[i := t]), er, ew)
  {
    TotalUpdate(f.stateids, i, t, R);
    TotalUpdate(f.stateids, i, t, W);
    PutBacked(f.fds, m);
  }

  /** Recording in a stateid's bitmap a bit that has been counted, in counts `c`. */
  lemma AddUse(f: FileModel, i: nat, t: Stateid, m: Mode, c: Counts)
    requires Balanced(f, 0, 0) && i < |f.stateids| && m != NoMode
    requires m !in f.stateids[i].access && t.access == f.stateids[i].access + {m}
    requires Backed(c) && Adds(c, f.fds, m)
    ensures Balanced(f.(fds := c, stateids := f.stateids[i := t]), 0, 0)
  {
    TotalUpdate(f.stateids, i, t, R);
    TotalUpdate(f.stateids, i, t, W);
  }

  lemma SameUse(f: FileModel, i: nat, t: Stateid)
    requires Balanced(f, 0, 0) && i < |f.stateids| && t.access == f.stateids[i].access
    ensures Balanced(f.(stateids := f.stateids[i := t]), 0, 0)
  {
    TotalUpdate(f.stateids, i, t, R);
    TotalUpdate(f.stateids, i, t, W);
  }

  lemma NewUse(f: FileModel, t: Stateid, m: Mode, c: Counts)
    requires Balanced(f, 0, 0)
    requires UsesOf(t.access, R) == Need(m, R) && UsesOf(t.access, W) == Need(m, W)
    requires Backed(c) && Adds(c, f.fds, m)
    ensures Balanced(f.(fds := c, stateids := [t] + f.stateids), 0, 0)
  {
    assert ([t] + f.stateids)[1..] == f.stateids;
  }

  lemma LeakUse(f: FileModel, m: Mode, c: Counts)
    requires Balanced(f, 0, 0)
    requires Backed(c) && Adds(c, f.fds, m)
    ensures Balanced(f.(fds := c, leaked := f.leaked + [m]), 0, 0)
  {
    assert (f.leaked + [m])[..|f.leaked|] == f.leaked;
  }

  // ---- operations ----

  datatype Status = Ok | ShareDenied | DelegError | VfsError | Inval | SetattrError | BadStateid | OpenMode

  /** An OPEN that found its owner; `delegCur` says that it claims a delegation, and `id` is what the
      id allocator would hand out. */
  datatype OpenReq = OpenReq(owner: nat, access: Mode, deny: Mode, truncate: bool, delegCur: bool, id: nat)

  /** How the file system and the delegation check answer. */
  datatype Env = Env(openOk: bool, setattrOk: bool, delegOk: bool)

  /** test_share. */
  predicate TestShare(s: Stateid, access: Mode, deny: Mode) {
    ShareMode(s.access) !! Rights(deny) && ShareMode(s.deny) !! Rights(access)
  }

  predicate Conflicts(ss: seq<Stateid>, access: Mode, deny: Mode) {
    exists s <- ss :: s.isOpen && !TestShare(s, access, deny)
  }

  /** The last open stateid of an owner, -1 when there is none. */
  function Owned(ss: seq<Stateid>, owner: nat): (i: int)
    ensures -1 <= i < |ss|
    ensures i >= 0 ==> ss[i].isOpen && ss[i].owner == owner
    ensures i < 0 ==> forall j :: 0 <= j < |ss| ==> !(ss[j].isOpen && ss[j].owner == owner)
  {
    if ss == [] then -1
    else if ss[|ss|-1].isOpen && ss[|ss|-1].owner == owner then |ss| - 1
    else Owned(ss[..|ss|-1], owner)
  }

  /** nfs4_get_vfs_file. */
  function GetVfsFile(c: Counts, m: Mode, openOk: bool): (Counts, bool) {
    if !c.Fd(m) && !openOk then (c, false) else (Get(OpenFd(c, m), m), true)
  }

  /** nfsd4_truncate. */
  function Truncate(q: OpenReq, env: Env): Status {
    if !q.truncate then Ok else if W !in Rights(q.access) then Inval else if env.setattrOk then Ok else SetattrError
  }

  /** nfs4_upgrade_open: a failed truncate gives back what was counted. */
  function Upgrade(f: FileModel, i: nat, q: OpenReq, env: Env): (FileModel, Status)
    requires i < |f.stateids|
  {
    var s := f.stateids[i];
    var more := q.access !in s.access;
    var (c, ok) := if more then GetVfsFile(f.fds, q.access, env.openOk) else (f.fds, true);
    if !ok then (f, VfsError)
    else if Truncate(q, env) != Ok then (f.(fds := if more then Put(c, q.access) else c), Truncate(q, env))
    else
      var t := s.(access := s.access + {q.access}, deny := s.deny + {q.deny});
      (f.(fds := c, stateids := f.stateids[i := t]), Ok)
  }

  /** init_open_stateid. */
  function InitOpen(q: OpenReq): Stateid {
    Stateid(q.id, q.owner, true, 0, {q.access}, {q.deny})
  }

  /** The new-open branch of nfsd4_process_open2: a failed truncate gives nothing back. */
  function NewOpen(f: FileModel, q: OpenReq, env: Env): (FileModel, Status) {
    var (c, ok) := GetVfsFile(f.fds, q.access, env.openOk);
    if !ok then (f, VfsError)
    else if Truncate(q, env) != Ok then (f.(fds := c, leaked := f.leaked + [q.access]), Truncate(q, env))
    else (f.(fds := c, stateids := [InitOpen(q)] + f.stateids), Ok)
  }

  /** nfsd4_process_open2, up to the reference it holds meanwhile. */
  function ProcessOpen(f: FileModel, q: OpenReq, env: Env): (FileModel, Status) {
    var i := Owned(f.stateids, q.owner);
    if !Held(f) then if q.delegCur then (f, BadStateid) else NewOpen(f, q, env)
    else if Conflicts(f.stateids, q.access, q.deny) then (f, ShareDenied)
    else if !env.delegOk then (f, DelegError)
    else if i >= 0 then Upgrade(f, i, q, env)
    else NewOpen(f, q, env)
  }

  /** nfs4_stateid_downgrade_bit. */
  function DropBit(f: FileModel, i: nat, m: Mode): (g: FileModel)
    requires i < |f.stateids|
    ensures |g.stateids| == |f.stateids|
  {
    var s := f.stateids[i];
    if m !in s.access then f
    else f.(fds := Put(f.fds, m), stateids := f.stateids[i := s.(access := s.access - {m})])
  }

  /** nfs4_stateid_downgrade. */
  function DropTo(f: FileModel, i: nat, to: Mode): (g: FileModel)
    requires i < |f.stateids|
    ensures |g.stateids| == |f.stateids|
  {
    if to == ReadMode then DropBit(DropBit(f, i, WriteMode), i, BothMode)
    else if to == WriteMode then DropBit(DropBit(f, i, ReadMode), i, BothMode)
    else f
  }

  /** reset_union_bmap_deny. */
  function DenyWithin(b: Bitmap, to: Mode): Bitmap {
    set m <- b | Rights(m) <= Rights(to)
  }

  /** nfsd4_open_downgrade on a stateid that passed the stateid checks. */
  function Downgrade(f: FileModel, i: nat, access: Mode, deny: Mode): (FileModel, Status)
    requires i < |f.stateids|
  {
    var s := f.stateids[i];
    if access !in s.access || deny !in s.deny then (f, Inval)
    else
      var g := DropTo(f, i, access);
      var t := g.stateids[i];
      (g.(stateids := g.stateids[i := t.(deny := DenyWithin(t.deny, deny))]), Ok)
  }

  /** release_all_access. */
  function ReleaseAll(c: Counts, b: Bitmap): Counts {
    var c1 := if ReadMode in b then Put(c, ReadMode) else c;
    var c2 := if WriteMode in b then Put(c1, WriteMode) else c1;
    if BothMode in b then Put(c2, BothMode) else c2
  }

  /** The modes whose share bits are below n. */
  function ModesBelow(n: nat): Bitmap {
    (if n > 1 then {ReadMode} else {}) + (if n > 2 then {WriteMode} else {}) + (if n > 3 then {BothMode} else {})
  }

  lemma ReleaseAllIgnoresNoMode(c: Counts, b: Bitmap)
    ensures ReleaseAll(c, b * ModesBelow(4)) == ReleaseAll(c, b)
  {
  }

  function Without(ss: seq<Stateid>, i: nat): (r: seq<Stateid>)
    requires i < |ss|
    ensures |r| == |ss| - 1
  {
    ss[..i] + ss[i+1..]
  }

  /** release_lock_stateid. */
  function ReleaseLock(f: FileModel, i: nat): FileModel
    requires i < |f.stateids|
  {
    f.(fds := ReleaseAll(f.fds, f.stateids[i].access), stateids := Without(f.stateids, i))
  }

  /** The first lock stateid under an open, -1 when there is none. */
  function FirstLock(ss: seq<Stateid>, parent: nat): (i: int)
    ensures -1 <= i < |ss|
    ensures i >= 0 ==> !ss[i].isOpen && ss[i].parent == parent
    ensures i < 0 ==> forall j :: 0 <= j < |ss| ==> ss[j].isOpen || ss[j].parent != parent
  {
    if ss == [] then -1
    else if !ss[0].isOpen && ss[0].parent == parent then 0
    else var i := FirstLock(ss[1..], parent); if i < 0 then -1 else i + 1
  }

  /** release_stateid_lockowners. */
  function ReleaseLocks(f: FileModel, parent: nat): FileModel
    decreases |f.stateids|
  {
    var i := FirstLock(f.stateids, parent);
    if i < 0 then f else ReleaseLocks(ReleaseLock(f, i), parent)
  }

  /** unhash_open_stateid. */
  function Close(f: FileModel, i: nat): FileModel
    requires i < |f.stateids|
  {
    var g := ReleaseLocks(f.(stateids := Without(f.stateids, i)), f.stateids[i].id);
    g.(fds := ReleaseAll(g.fds, f.stateids[i].access))
  }

  /** alloc_init_lock_stateid. */
  function NewLock(f: FileModel, i: nat, id: nat, owner: nat): FileModel
    requires i < |f.stateids|
  {
    f.(stateids := [Stateid(id, owner, false, f.stateids[i].id, {}, f.stateids[i].deny)] + f.stateids)
  }

  function SingleMode(r: Right): Mode {
    if r == R then ReadMode else WriteMode
  }

  /** Finding a descriptor for a lock, and get_lock_access. */
  function LockAccess(f: FileModel, i: nat, r: Right): (FileModel, Status)
    requires i < |f.stateids|
  {
    var s, m := f.stateids[i], SingleMode(r);
    if !f.fds.Usable(r) then (f, OpenMode)
    else if m in s.access then (f, Ok)
    else (f.(fds := Get(f.fds, m), stateids := f.stateids[i := s.(access := s.access + {m})]), Ok)
  }

  // ---- runs ----

  datatype Op =
    | OpOpen(q: OpenReq, env: Env)
    | OpDowngrade(id: nat, access: Mode, deny: Mode)
    | OpClose(id: nat)
    | OpNewLock(openId: nat, id: nat, owner: nat)
    | OpLockAccess(id: nat, r: Right)
    | OpReleaseLock(id: nat)
    | OpDelegate
    | OpReturnDeleg

  function Find(ss: seq<Stateid>, id: nat, open: bool): (i: int)
    ensures -1 <= i < |ss|
    ensures i >= 0 ==> ss[i].id == id && ss[i].isOpen == open
  {
    if ss == [] then -1
    else if ss[0].id == id && ss[0].isOpen == open then 0
    else var i := Find(ss[1..], id, open); if i < 0 then -1 else i + 1
  }

  /** One operation, as decoded: access and downgrade modes are never empty. A delegation is handed
      out at an OPEN. */
  function Act(f: FileModel, op: Op): (FileModel, Status)
  {
    match op
    case OpOpen(q, env) => if q.access == NoMode then (f, Inval) else ProcessOpen(f, q, env)
    case OpDowngrade(id, access, deny) =>
      var i := Find(f.stateids, id, true);
      if i < 0 then (f, BadStateid) else if access == NoMode then (f, Inval) else Downgrade(f, i, access, deny)
    case OpClose(id) =>
      var i := Find(f.stateids, id, true);
      if i < 0 then (f, BadStateid) else (Close(f, i), Ok)
    case OpNewLock(openId, id, owner) =>
      var i := Find(f.stateids, openId, true);
      if i < 0 then (f, BadStateid) else (NewLock(f, i, id, owner), Ok)
    case OpLockAccess(id, r) =>
      var i := Find(f.stateids, id, false);
      if i < 0 then (f, BadStateid) else LockAccess(f, i, r)
    case OpReleaseLock(id) =>
      var i := Find(f.stateids, id, false);
      if i < 0 then (f, BadStateid) else (ReleaseLock(f, i), Ok)
    case OpDelegate => if f.stateids == [] then (f, BadStateid) else (f.(delegs := f.delegs + 1), Ok)
    case OpReturnDeleg => if f.delegs == 0 then (f, BadStateid) else (f.(delegs := f.delegs - 1), Ok)
  }

  /** The operation, and the dropping of the references it leaves behind. */
  function Step(f: FileModel, op: Op): (FileModel, Status) {
    (Settle(Act(f, op).0), Act(f, op).1)
  }

  /** An inode that was never opened. */
  const NEW_FILE := FileModel(CLOSED, [], [], 0, 0)

  // ---- the invariant ----

  ghost predicate ShareSafe(ss: seq<Stateid>) {
    forall i, j :: 0 <= i < |ss| && 0 <= j < |ss| && i != j && ss[i].isOpen && ss[j].isOpen
      ==> ShareMode(ss[i].access) !! ShareMode(ss[j].deny)
  }

  ghost predicate OnePerOwner(ss: seq<Stateid>) {
    forall i, j :: 0 <= i < |ss| && 0 <= j < |ss| && i != j && ss[i].isOpen && ss[j].isOpen ==>
      ss[i].owner != ss[j].owner
  }

  predicate HasOpen(ss: seq<Stateid>, id: nat) {
    exists s <- ss :: s.isOpen && s.id == id
  }

  ghost predicate LocksHaveOpens(ss: seq<Stateid>) {
    forall s <- ss :: !s.isOpen ==> HasOpen(ss, s.parent)
  }

  predicate PlainBitmaps(ss: seq<Stateid>) {
    forall s <- ss :: NoMode !in s.access
  }

  ghost predicate Exclusive(ss: seq<Stateid>) {
    ShareSafe(ss) && OnePerOwner(ss) && PlainBitmaps(ss)
  }

  ghost predicate Reservations(ss: seq<Stateid>) {
    Exclusive(ss) && LocksHaveOpens(ss)
  }

  ghost predicate Inv(f: FileModel) {
    Balanced(f, 0, 0) && Reservations(f.stateids)
  }

  lemma ShareModeGrows(b: Bitmap, m: Mode)
    ensures ShareMode(b + {m}) == ShareMode(b) + Rights(m)
  {
  }

  lemma ShareModeShrinks(b: Bitmap, c: Bitmap)
    requires b <= c
    ensures ShareMode(b) <= ShareMode(c)
  {
  }

  /** Replacing a stateid by one that takes on only what the conflict check allowed. */
  lemma UpgradeReservations(ss: seq<Stateid>, i: nat, access: Mode, deny: Mode)
    requires Reservations(ss) && i < |ss| && ss[i].isOpen && access != NoMode && !Conflicts(ss, access, deny)
    ensures Reservations(ss[i := ss[i].(access := ss[i].access + {access}, deny := ss[i].deny + {deny})])
  {
    var t := ss[i].(access := ss[i].access + {access}, deny := ss[i].deny + {deny});
    var ts := ss[i := t];
    ShareModeGrows(ss[i].access, access);
    ShareModeGrows(ss[i].deny, deny);
    forall j | 0 <= j < |ss| && ss[j].isOpen ensures TestShare(ss[j], access, deny) {
      assert ss[j] in ss;
    }
    SameIdentity(ss, ts);
  }

  /** Changing bitmaps moves no stateid. */
  lemma SameIdentity(ss: seq<Stateid>, ts: seq<Stateid>)
    requires |ss| == |ts| && LocksHaveOpens(ss)
    requires forall j :: 0 <= j < |ss| ==> ts[j] == ss[j].(access := ts[j].access, deny := ts[j].deny)
    ensures LocksHaveOpens(ts)
  {
    forall j | 0 <= j < |ts| && !ts[j].isOpen ensures HasOpen(ts, ts[j].parent) {
      assert ss[j] in ss;
      var k :| 0 <= k < |ss| && ss[k].isOpen && ss[k].id == ss[j].parent;
      assert ts[k] in ts;
    }
  }

  lemma ShrinkReservations(ss: seq<Stateid>, i: nat, access: Bitmap, deny: Bitmap)
    requires Reservations(ss) && i < |ss| && access <= ss[i].access && deny <= ss[i].deny
    ensures Reservations(ss[i := ss[i].(access := access, deny := deny)])
  {
    ShareModeShrinks(access, ss[i].access);
    ShareModeShrinks(deny, ss[i].deny);
    SameIdentity(ss, ss[i := ss[i].(access := access, deny := deny)]);
    assert ss[i] in ss;
  }

  lemma AddReservations(ss: seq<Stateid>, t: Stateid)
    requires Reservations(ss) && NoMode !in t.access
    requires if t.isOpen then
        && Owned(ss, t.owner) < 0
        && forall j :: 0 <= j < |ss| && ss[j].isOpen ==>
             ShareMode(ss[j].access) !! ShareMode(t.deny) && ShareMode(t.access) !! ShareMode(ss[j].deny)
      else HasOpen(ss, t.parent)
    ensures Reservations([t] + ss)
  {
    var ts := [t] + ss;
    forall s | s in ts && !s.isOpen ensures HasOpen(ts, s.parent) {
      if s in ss {
        assert HasOpen(ss, s.parent);
      }
      var o :| o in ss && o.isOpen && o.id == s.parent;
      assert o in ts;
    }
  }

  lemma RemoveExclusive(ss: seq<Stateid>, i: nat)
    requires Exclusive(ss) && i < |ss|
    ensures Exclusive(Without(ss, i))
  {
  }

  /** While an open is being closed, only its own locks may be without it. */
  ghost predicate LocksHaveOpensBut(ss: seq<Stateid>, id: nat) {
    forall s <- ss :: !s.isOpen && s.parent != id ==> HasOpen(ss, s.parent)
  }

  lemma RemoveLocksHaveOpens(ss: seq<Stateid>, i: nat, id: nat)
    requires LocksHaveOpensBut(ss, id) && i < |ss| && (ss[i].isOpen ==> ss[i].id == id)
    ensures LocksHaveOpensBut(Without(ss, i), id)
  {
    var ts := Without(ss, i);
    forall s | s in ts && !s.isOpen && s.parent != id ensures HasOpen(ts, s.parent) {
      assert s in ss;
      var k :| 0 <= k < |ss| && ss[k].isOpen && ss[k].id == s.parent;
      assert ss[k] in ts by {
        if k < i { assert ts[k] == ss[k]; } else { assert ts[k-1] == ss[k]; }
      }
    }
  }

  /** Releasing lock i when every lock but those under `id` has its open. */
  lemma RemoveLock(ss: seq<Stateid>, i: nat)
    requires Reservations(ss) && i < |ss| && !ss[i].isOpen
    ensures Reservations(Without(ss, i))
  {
    RemoveExclusive(ss, i);
    var ts := Without(ss, i);
    forall s | s in ts && !s.isOpen ensures HasOpen(ts, s.parent) {
      assert s in ss;
      var k :| 0 <= k < |ss| && ss[k].isOpen && ss[k].id == s.parent;
      assert ss[k] in ts by {
        if k < i { assert ts[k] == ss[k]; } else { assert ts[k-1] == ss[k]; }
      }
    }
  }

  // ---- every operation keeps the invariant ----

  /** Releasing everything a bitmap of a departed stateid holds. */
  lemma ReleaseAllBalanced(f: FileModel, b: Bitmap, er: nat, ew: nat)
    requires Balanced(f, er + UsesOf(b, R), ew + UsesOf(b, W))
    ensures Balanced(f.(fds := ReleaseAll(f.fds, b)), er, ew)
  {
    var c := f.fds;
    if ReadMode in b { PutBacked(c, ReadMode); }
    var c1 := if ReadMode in b then Put(c, ReadMode) else c;
    if WriteMode in b { PutBacked(c1, WriteMode); }
    var c2 := if WriteMode in b then Put(c1, WriteMode) else c1;
    if BothMode in b { PutBacked(c2, BothMode); }
  }

  lemma ReleaseLockBalanced(f: FileModel, i: nat, er: nat, ew: nat)
    requires Balanced(f, er, ew) && i < |f.stateids|
    ensures Balanced(ReleaseLock(f, i), er, ew)
  {
    TotalSplit(f.stateids, i, R);
    TotalSplit(f.stateids, i, W);
    ReleaseAllBalanced(f.(stateids := Without(f.stateids, i)), f.stateids[i].access, er, ew);
  }

  lemma {:induction false} ReleaseLocksKeeps(f: FileModel, id: nat, er: nat, ew: nat)
    requires Balanced(f, er, ew) && Exclusive(f.stateids) && LocksHaveOpensBut(f.stateids, id)
    ensures var g := ReleaseLocks(f, id); Balanced(g, er, ew) && Reservations(g.stateids)
    decreases |f.stateids|
  {
    var i := FirstLock(f.stateids, id);
    if i >= 0 {
      ReleaseLockBalanced(f, i, er, ew);
      RemoveExclusive(f.stateids, i);
      RemoveLocksHaveOpens(f.stateids, i, id);
      ReleaseLocksKeeps(ReleaseLock(f, i), id, er, ew);
    } else {
      forall s | s in f.stateids && !s.isOpen ensures s.parent != id {
        var k :| 0 <= k < |f.stateids| && f.stateids[k] == s;
      }
    }
  }

  lemma CloseKeeps(f: FileModel, i: nat)
    requires Inv(f) && i < |f.stateids| && f.stateids[i].isOpen
    ensures Inv(Close(f, i))
  {
    var s := f.stateids[i];
    var g := f.(stateids := Without(f.stateids, i));
    TotalSplit(f.stateids, i, R);
    TotalSplit(f.stateids, i, W);
    RemoveExclusive(f.stateids, i);
    RemoveLocksHaveOpens(f.stateids, i, s.id);
    ReleaseLocksKeeps(g, s.id, UsesOf(s.access, R), UsesOf(s.access, W));
    ReleaseAllBalanced(ReleaseLocks(g, s.id), s.access, 0, 0);
  }

  lemma DropBitKeeps(f: FileModel, i: nat, m: Mode)
    requires Inv(f) && i < |f.stateids| && m != NoMode
    ensures Inv(DropBit(f, i, m))
  {
    var s := f.stateids[i];
    if m in s.access {
      var t := s.(access := s.access - {m});
      DropUse(f, i, t, m, 0, 0);
      ShrinkReservations(f.stateids, i, t.access, t.deny);
    }
  }

  lemma DowngradeKeeps(f: FileModel, i: nat, access: Mode, deny: Mode)
    requires Inv(f) && i < |f.stateids|
    ensures Inv(Downgrade(f, i, access, deny).0)
  {
    var s := f.stateids[i];
    if access in s.access && deny in s.deny {
      if access == ReadMode {
        DropBitKeeps(f, i, WriteMode);
        DropBitKeeps(DropBit(f, i, WriteMode), i, BothMode);
      } else if access == WriteMode {
        DropBitKeeps(f, i, ReadMode);
        DropBitKeeps(DropBit(f, i, ReadMode), i, BothMode);
      }
      var g := DropTo(f, i, access);
      var t := g.stateids[i];
      var u := t.(deny := DenyWithin(t.deny, deny));
      SameUse(g, i, u);
      ShrinkReservations(g.stateids, i, u.access, u.deny);
    }
  }

  lemma UpgradeKeeps(f: FileModel, i: nat, q: OpenReq, env: Env)
    requires Inv(f) && i < |f.stateids| && f.stateids[i].isOpen && q.access != NoMode
    requires !Conflicts(f.stateids, q.access, q.deny)
    ensures Inv(Upgrade(f, i, q, env).0)
  {
    var s, m := f.stateids[i], q.access;
    var t := s.(access := s.access + {m}, deny := s.deny + {q.deny});
    UpgradeReservations(f.stateids, i, m, q.deny);
    if m in s.access {
      assert t.access == s.access;
      SameUse(f, i, t);
    } else {
      GetBacked(f.fds, m);
      AddUse(f, i, t, m, Get(OpenFd(f.fds, m), m));
      GetThenPut(f, m);
    }
  }

  /** Counting a mode and giving it back restores the balance. */
  lemma GetThenPut(f: FileModel, m: Mode)
    requires Balanced(f, 0, 0)
    ensures Balanced(f.(fds := Put(Get(OpenFd(f.fds, m), m), m)), 0, 0)
  {
    CountAndGiveBack(f.fds, m);
  }

  lemma NewOpenReservations(ss: seq<Stateid>, q: OpenReq)
    requires Reservations(ss) && q.access != NoMode && Owned(ss, q.owner) < 0 && !Conflicts(ss, q.access, q.deny)
    ensures Reservations([InitOpen(q)] + ss)
  {
    ShareModeGrows({}, q.access);
    ShareModeGrows({}, q.deny);
    assert {} + {q.access} == {q.access} && {} + {q.deny} == {q.deny};
    forall j | 0 <= j < |ss| && ss[j].isOpen ensures TestShare(ss[j], q.access, q.deny) {
      assert ss[j] in ss;
    }
    AddReservations(ss, InitOpen(q));
  }

  lemma NewOpenKeeps(f: FileModel, q: OpenReq, env: Env)
    requires Inv(f) && q.access != NoMode && Owned(f.stateids, q.owner) < 0
    requires !Conflicts(f.stateids, q.access, q.deny)
    ensures Inv(NewOpen(f, q, env).0)
  {
    var c := Get(OpenFd(f.fds, q.access), q.access);
    GetBacked(f.fds, q.access);
    NewOpenReservations(f.stateids, q);
    NewUse(f, InitOpen(q), q.access, c);
    LeakUse(f, q.access, c);
  }

  lemma OpenKeeps(f: FileModel, q: OpenReq, env: Env)
    requires Inv(f) && q.access != NoMode
    ensures Inv(ProcessOpen(f, q, env).0)
  {
    var i := Owned(f.stateids, q.owner);
    if !Conflicts(f.stateids, q.access, q.deny) {
      if i >= 0 {
        UpgradeKeeps(f, i, q, env);
      } else {
        NewOpenKeeps(f, q, env);
      }
    }
  }

  lemma NewLockKeeps(f: FileModel, i: nat, id: nat, owner: nat)
    requires Inv(f) && i < |f.stateids| && f.stateids[i].isOpen
    ensures Inv(NewLock(f, i, id, owner))
  {
    var t := Stateid(id, owner, false, f.stateids[i].id, {}, f.stateids[i].deny);
    assert f.stateids[i] in f.stateids;
    AddReservations(f.stateids, t);
    NewUse(f, t, NoMode, f.fds);
  }

  lemma LockAccessKeeps(f: FileModel, i: nat, r: Right)
    requires Inv(f) && i < |f.stateids| && !f.stateids[i].isOpen
    ensures Inv(LockAccess(f, i, r).0)
  {
    var s, m := f.stateids[i], SingleMode(r);
    if f.fds.Usable(r) && m !in s.access {
      GetBacked(f.fds, m);
      var t := s.(access := s.access + {m});
      AddUse(f, i, t, m, Get(f.fds, m));
      SameIdentity(f.stateids, f.stateids[i := t]);
      assert s in f.stateids;
    }
  }

  lemma ReleaseLockKeeps(f: FileModel, i: nat)
    requires Inv(f) && i < |f.stateids| && !f.stateids[i].isOpen
    ensures Inv(ReleaseLock(f, i))
  {
    ReleaseLockBalanced(f, i, 0, 0);
    RemoveLock(f.stateids, i);
  }

  lemma OpenOpKeeps(f: FileModel, op: Op)
    requires Inv(f) && op.OpOpen?
    ensures Inv(Act(f, op).0)
  {
    if op.q.access != NoMode { OpenKeeps(f, op.q, op.env); }
  }

  lemma OpenStateidOpKeeps(f: FileModel, op: Op)
    requires Inv(f) && (op.OpDowngrade? || op.OpClose?)
    ensures Inv(Act(f, op).0)
  {
    var i := Find(f.stateids, op.id, true);
    if i >= 0 {
      if op.OpClose? {
        CloseKeeps(f, i);
      } else if op.access != NoMode {
        DowngradeKeeps(f, i, op.access, op.deny);
      }
    }
  }

  lemma NewLockOpKeeps(f: FileModel, op: Op)
    requires Inv(f) && op.OpNewLock?
    ensures Inv(Act(f, op).0)
  {
    var i := Find(f.stateids, op.openId, true);
    if i >= 0 { NewLockKeeps(f, i, op.id, op.owner); }
  }

  lemma LockAccessOpKeeps(f: FileModel, op: Op)
    requires Inv(f) && op.OpLockAccess?
    ensures Inv(Act(f, op).0)
  {
    var i := Find(f.stateids, op.id, false);
    if i >= 0 { LockAccessKeeps(f, i, op.r); }
  }

  lemma ReleaseLockOpKeeps(f: FileModel, op: Op)
    requires Inv(f) && op.OpReleaseLock?
    ensures Inv(Act(f, op).0)
  {
    var i := Find(f.stateids, op.id, false);
    if i >= 0 { ReleaseLockKeeps(f, i); }
  }

  lemma ActKeeps(f: FileModel, op: Op)
    requires Inv(f)
    ensures Inv(Act(f, op).0)
  {
    if op.OpOpen? {
      OpenOpKeeps(f, op);
    } else if op.OpDowngrade? || op.OpClose? {
      OpenStateidOpKeeps(f, op);
    } else if op.OpNewLock? {
      NewLockOpKeeps(f, op);
    } else if op.OpLockAccess? {
      LockAccessOpKeeps(f, op);
    } else if op.OpReleaseLock? {
      ReleaseLockOpKeeps(f, op);
    }
  }

  lemma SettleKeeps(f: FileModel)
    requires Inv(f)
    ensures Inv(Settle(f))
  {
  }

  lemma StepKeeps(f: FileModel, op: Op)
    requires Inv(f)
    ensures Inv(Step(f, op).0)
  {
    ActKeeps(f, op);
    SettleKeeps(Act(f, op).0);
  }

  // ---- all runs ----

  function Run(f: FileModel, ops: seq<Op>): FileModel
    decreases |ops|
  {
    if ops == [] then f else Step(Run(f, ops[..|ops|-1]), ops[|ops|-1]).0
  }

  lemma {:induction false} RunKeeps(f: FileModel, ops: seq<Op>)
    requires Inv(f)
    ensures Inv(Run(f, ops))
    decreases |ops|
  {
    if ops != [] {
      RunKeeps(f, ops[..|ops|-1]);
      StepKeeps(Run(f, ops[..|ops|-1]), ops[|ops|-1]);
    }
  }

  // ---- what a fresh file's runs guarantee ----

  /** An OPEN of a new stateid that is counted and then fails in the truncate. */
  predicate Leaky(f: FileModel, op: Op) {
    && op.OpOpen? && op.q.access != NoMode
    && (if Held(f) then
          !Conflicts(f.stateids, op.q.access, op.q.deny) && op.env.delegOk && Owned(f.stateids, op.q.owner) < 0
        else !op.q.delegCur)
    && (f.fds.Fd(op.q.access) || op.env.openOk)
    && Truncate(op.q, op.env) != Ok
  }

  /** Since the inode last was without a record, such an OPEN has left it with one. */
  predicate LeakedSince(f: FileModel, ops: seq<Op>)
    decreases |ops|
  {
    && ops != [] && Held(Run(f, ops))
    && (LeakedSince(f, ops[..|ops|-1]) || Leaky(Run(f, ops[..|ops|-1]), ops[|ops|-1]))
  }

  /** Some operation of the run ended a record in which such an OPEN had been counted. */
  predicate EverOrphans(f: FileModel, ops: seq<Op>)
    decreases |ops|
  {
    && ops != []
    && (EverOrphans(f, ops[..|ops|-1]) ||
        (!Held(Run(f, ops)) && (LeakedSince(f, ops[..|ops|-1]) || Leaky(Run(f, ops[..|ops|-1]), ops[|ops|-1]))))
  }

  lemma {:induction false} ReleaseLocksLeaked(f: FileModel, parent: nat)
    ensures var g := ReleaseLocks(f, parent); g.leaked == f.leaked && g.delegs == f.delegs && g.orphans == f.orphans
    decreases |f.stateids|
  {
    var i := FirstLock(f.stateids, parent);
    if i >= 0 { ReleaseLocksLeaked(ReleaseLock(f, i), parent); }
  }

  lemma OpenLeaked(f: FileModel, q: OpenReq, env: Env)
    ensures var g := ProcessOpen(f, q, env).0; g.orphans == f.orphans && (q.access != NoMode ==>
      g.leaked == if Leaky(f, OpOpen(q, env)) then f.leaked + [q.access] else f.leaked)
  {
  }

  lemma CloseLeaked(f: FileModel, i: nat)
    requires i < |f.stateids|
    ensures Close(f, i).leaked == f.leaked && Close(f, i).orphans == f.orphans
  {
    ReleaseLocksLeaked(f.(stateids := Without(f.stateids, i)), f.stateids[i].id);
  }

  lemma DowngradeLeaked(f: FileModel, i: nat, access: Mode, deny: Mode)
    requires i < |f.stateids|
    ensures Downgrade(f, i, access, deny).0.leaked == f.leaked && Downgrade(f, i, access, deny).0.orphans == f.orphans
  {
  }

  lemma ActLeaked(f: FileModel, op: Op)
    ensures var g := Act(f, op).0;
      g.orphans == f.orphans && g.leaked == if Leaky(f, op) then f.leaked + [op.q.access] else f.leaked
  {
    match op
    case OpOpen(q, env) => OpenLeaked(f, q, env);
    case OpClose(id) => if Find(f.stateids, id, true) >= 0 { CloseLeaked(f, Find(f.stateids, id, true)); }
    case OpDowngrade(id, access, deny) =>
      if Find(f.stateids, id, true) >= 0 { DowngradeLeaked(f, Find(f.stateids, id, true), access, deny); }
    case OpNewLock(_, _, _) =>
    case OpLockAccess(_, _) =>
    case OpReleaseLock(_) =>
    case OpDelegate =>
    case OpReturnDeleg =>
  }

  /** A record that nobody holds any more has a descriptor open exactly when something leaked in it. */
  lemma UnheldFds(f: FileModel)
    requires Inv(f) && NoMode !in f.leaked && f.stateids == []
    ensures OpenFds(f.fds) > 0 <==> f.leaked != []
  {
    if f.leaked != [] { LeakedCounts(f.leaked); }
  }

  lemma StepLeaked(f: FileModel, op: Op, g: FileModel)
    requires Inv(f) && NoMode !in f.leaked && g == Step(f, op).0
    ensures NoMode !in g.leaked && (g.leaked != [] <==> Held(g) && (f.leaked != [] || Leaky(f, op)))
    ensures g.orphans >= f.orphans
    ensures g.orphans > f.orphans <==> !Held(g) && (f.leaked != [] || Leaky(f, op))
  {
    var h := Act(f, op).0;
    ActLeaked(f, op);
    ActKeeps(f, op);
    if !Held(h) { UnheldFds(h); }
  }

  lemma {:induction false} RunLeaked(f: FileModel, ops: seq<Op>)
    requires Inv(f) && f.leaked == []
    ensures NoMode !in Run(f, ops).leaked && (Run(f, ops).leaked != [] <==> LeakedSince(f, ops))
    ensures Run(f, ops).orphans >= f.orphans && (Run(f, ops).orphans > f.orphans <==> EverOrphans(f, ops))
    decreases |ops|
  {
    if ops != [] {
      var front, last := ops[..|ops|-1], ops[|ops|-1];
      RunLeaked(f, front);
      RunKeeps(f, front);
      StepLeaked(Run(f, front), last, Run(f, ops));
    }
  }

  lemma LeakedCounts(leaked: seq<Mode>)
    requires leaked != [] && NoMode !in leaked
    ensures LeakTotal(leaked, R) + LeakTotal(leaked, W) > 0
  {
    var m := leaked[|leaked|-1];
    assert m in leaked;
    assert R in Rights(m) || W in Rights(m);
  }

  /** The descriptors and counts of a file without a read-write descriptor. */
  predicate Counted(c: Counts, rdonly: bool, wronly: bool, readers: int, writers: int) {
    c.rdonly == rdonly && c.wronly == wronly && !c.rdwr && c.readers == readers && c.writers == writers
  }

  predicate IsNew(f: FileModel) {
    Counted(f.fds, false, false, 0, 0) && f.stateids == [] && f.leaked == [] && f.delegs == 0 && f.orphans == 0
  }

  /** The states a new file can reach. */
  ghost predicate Reaches(f: FileModel, ops: seq<Op>, g: FileModel) {
    IsNew(f) && g == Run(f, ops)
  }

  lemma NewFileInv(f: FileModel)
    requires IsNew(f)
    ensures Inv(f) && f.leaked == []
  {
  }

  lemma RunInv(f: FileModel, ops: seq<Op>, g: FileModel)
    requires Inv(f) && f.leaked == [] && g == Run(f, ops)
    ensures Inv(g) && NoMode !in g.leaked && (g.leaked != [] <==> LeakedSince(f, ops))
  {
    RunKeeps(f, ops);
    RunLeaked(f, ops);
  }

  lemma ReachesInv(f: FileModel, ops: seq<Op>, g: FileModel)
    requires Reaches(f, ops, g)
    ensures Inv(g) && NoMode !in g.leaked && (g.leaked != [] <==> LeakedSince(f, ops))
  {
    NewFileInv(f);
    RunInv(f, ops, g);
  }

  /** Open accounting over every run: the counts cover the stateids' bitmaps, and equal them
      exactly when, since the inode last was without a record, no new open failed in its truncate
      while others held the record. */
  lemma AccountingOverRuns(f: FileModel, ops: seq<Op>, g: FileModel)
    requires Reaches(f, ops, g)
    ensures g.fds.readers >= Total(g.stateids, R) && g.fds.writers >= Total(g.stateids, W)
    ensures (g.fds.readers == Total(g.stateids, R) && g.fds.writers == Total(g.stateids, W)) <==> !LeakedSince(f, ops)
  {
    ReachesInv(f, ops, g);
    if g.leaked != [] { LeakedCounts(g.leaked); }
  }

  /** A counted right always has a descriptor to serve it; a file nobody uses has none open. */
  lemma DescriptorsOverRuns(f: FileModel, ops: seq<Op>, g: FileModel)
    requires Reaches(f, ops, g)
    ensures (g.fds.readers > 0 ==> g.fds.Usable(R)) && (g.fds.writers > 0 ==> g.fds.Usable(W))
    ensures g.fds.readers == 0 && g.fds.writers == 0 <==> !g.fds.rdonly && !g.fds.wronly && !g.fds.rdwr
  {
    ReachesInv(f, ops, g);
  }

  /** When the last stateid or delegation is gone, the record is freed. It orphans an open descriptor
      exactly when a new open had failed in its truncate under this record, or just did. */
  lemma LastReleaseCloses(f: FileModel, ops: seq<Op>, op: Op, g: FileModel, h: FileModel)
    requires Reaches(f, ops, g) && h == Step(g, op).0 && !Held(h)
    ensures h.fds == CLOSED && h.orphans >= g.orphans
    ensures h.orphans > g.orphans <==> LeakedSince(f, ops) || Leaky(g, op)
  {
    ReachesInv(f, ops, g);
    StepLeaked(g, op, h);
  }

  /** So the run of an inode has orphaned a descriptor exactly when one of its records ended so. */
  lemma OrphansOverRuns(f: FileModel, ops: seq<Op>, g: FileModel)
    requires Reaches(f, ops, g)
    ensures g.orphans > 0 <==> EverOrphans(f, ops)
  {
    NewFileInv(f);
    RunLeaked(f, ops);
  }

  lemma RunTwo(f: FileModel, a: Op, b: Op)
    ensures Run(f, [a, b]) == Step(Step(f, a).0, b).0
  {
    assert [a, b][..1] == [a] && [a][..0] == [];
    assert Run(f, [a]) == Step(Run(f, []), a).0;
  }

  function FailingTruncate(owner: nat, id: nat): Op {
    OpOpen(OpenReq(owner, WriteMode, NoMode, true, false, id), Env(true, false, true))
  }

  function PlainOpen(owner: nat, access: Mode, deny: Mode, id: nat): Op {
    OpOpen(OpenReq(owner, access, deny, false, false, id), Env(true, true, true))
  }

  lemma OpenStep(f: FileModel, q: OpenReq, env: Env, g: FileModel, status: Status)
    requires q.access != NoMode && g == Settle(ProcessOpen(f, q, env).0) && status == ProcessOpen(f, q, env).1
    ensures Step(f, OpOpen(q, env)) == (g, status)
  {
  }

  /** The first owner opens the file for reading. */
  lemma FirstOpen(f: FileModel, q: OpenReq, env: Env, g: FileModel)
    requires f.fds.readers == 0 && f.fds.writers == 0 && !f.fds.rdonly && !f.fds.wronly && !f.fds.rdwr
    requires f.stateids == [] && f.delegs == 0
    requires q.access == ReadMode && !q.truncate && !q.delegCur && env.openOk
    requires g == Settle(ProcessOpen(f, q, env).0)
    ensures g.fds.readers == 1 && g.fds.writers == 0 && g.fds.rdonly && !g.fds.wronly && !g.fds.rdwr
    ensures |g.stateids| == 1 && g.stateids[0] == InitOpen(q)
  {
  }

  /** The smallest run that leaves the counts wrong: one owner has the file open for reading, and
      another's OPEN for writing fails in its truncate. */
  lemma FailedTruncateLeaks(f: FileModel, a: nat, b: nat, id: nat, other: nat)
    requires IsNew(f) && a != b
    ensures var g := Run(f, [PlainOpen(a, ReadMode, NoMode, id), FailingTruncate(b, other)]);
      g.fds.writers == 1 && g.fds.wronly && Total(g.stateids, W) == 0
  {
    RunTwo(f, PlainOpen(a, ReadMode, NoMode, id), FailingTruncate(b, other));
    var q, env := OpenReq(a, ReadMode, NoMode, false, false, id), Env(true, true, true);
    var r, bad := OpenReq(b, WriteMode, NoMode, true, false, other), Env(true, false, true);
    var g := Settle(ProcessOpen(f, q, env).0);
    var h := Settle(ProcessOpen(g, r, bad).0);
    FirstOpen(f, q, env, g);
    SecondFails(g, r, bad, h);
    OpenStep(f, q, env, g, ProcessOpen(f, q, env).1);
    OpenStep(g, r, bad, h, ProcessOpen(g, r, bad).1);
    ReaderTotal(h.stateids);
  }

  lemma ReaderTotal(ss: seq<Stateid>)
    requires |ss| == 1 && ss[0].access == {ReadMode}
    ensures Total(ss, W) == 0
  {
    assert ss[1..] == [] && UsesOf(ss[0].access, W) == 0;
  }

  lemma SecondFails(f: FileModel, q: OpenReq, env: Env, g: FileModel)
    requires Counted(f.fds, true, false, 1, 0) && |f.stateids| == 1 && f.stateids[0].isOpen
    requires f.stateids[0].owner != q.owner && f.stateids[0].deny == {NoMode}
    requires q.access == WriteMode && q.deny == NoMode && q.truncate && !q.delegCur && env.openOk && !env.setattrOk
      && env.delegOk
    requires g == Settle(ProcessOpen(f, q, env).0)
    ensures g.stateids == f.stateids && Counted(g.fds, true, true, 1, 1)
  {
    assert f.stateids[..0] == [];
  }

  /** With nobody else holding the file, the record goes with the failed OPEN; a descriptor stays open
      that belongs to no record. */
  lemma FailedTruncateOrphans(f: FileModel, owner: nat, id: nat)
    requires IsNew(f)
    ensures var (g, status) := Step(f, FailingTruncate(owner, id)); !Held(g) && g.orphans == 1 && status == SetattrError
  {
  }

  /** Share reservations, section 8.9 of RFC 3530: no open's access meets another's deny, and an
      owner has one open stateid for the file at most. */
  lemma SharesOverRuns(f: FileModel, ops: seq<Op>, g: FileModel, i: nat, j: nat)
    requires Reaches(f, ops, g)
    requires i < |g.stateids| && j < |g.stateids| && i != j && g.stateids[i].isOpen && g.stateids[j].isOpen
    ensures ShareMode(g.stateids[i].access) !! ShareMode(g.stateids[j].deny)
    ensures g.stateids[i].owner != g.stateids[j].owner
  {
    ReachesInv(f, ops, g);
  }

  /** A new owner's OPEN is refused as a share conflict exactly when its stateid would break the
      reservations. */
  lemma DeniedExactlyWhenUnsafe(f: FileModel, q: OpenReq, env: Env)
    requires Inv(f) && q.access != NoMode && Owned(f.stateids, q.owner) < 0
    ensures ProcessOpen(f, q, env).1 == ShareDenied <==> !ShareSafe([InitOpen(q)] + f.stateids)
  {
    var ss := f.stateids;
    if Conflicts(ss, q.access, q.deny) {
      var k :| 0 <= k < |ss| && ss[k].isOpen && !TestShare(ss[k], q.access, q.deny);
      ConflictIsUnsafe(ss, q, k);
    } else {
      NewOpenReservations(ss, q);
    }
  }

  /** The stateids after owner i's OPEN has been granted as an upgrade. */
  function Upgraded(ss: seq<Stateid>, i: nat, access: Mode, deny: Mode): seq<Stateid>
    requires i < |ss|
  {
    ss[i := ss[i].(access := ss[i].access + {access}, deny := ss[i].deny + {deny})]
  }

  /** An owner that has the file open is refused exactly when the upgrade would break the reservations,
      or its request conflicts with its own stateid. */
  lemma OwnerDeniedExactly(f: FileModel, q: OpenReq, env: Env, i: nat)
    requires Inv(f) && q.access != NoMode && i == Owned(f.stateids, q.owner)
    ensures ProcessOpen(f, q, env).1 == ShareDenied <==>
      !ShareSafe(Upgraded(f.stateids, i, q.access, q.deny)) || !TestShare(f.stateids[i], q.access, q.deny)
  {
    var ss := f.stateids;
    if Conflicts(ss, q.access, q.deny) {
      var k :| 0 <= k < |ss| && ss[k].isOpen && !TestShare(ss[k], q.access, q.deny);
      if k != i { UpgradeUnsafe(ss, i, k, q.access, q.deny); }
    } else {
      UpgradeReservations(ss, i, q.access, q.deny);
      assert ss[i] in ss;
    }
  }

  lemma UpgradeUnsafe(ss: seq<Stateid>, i: nat, k: nat, access: Mode, deny: Mode)
    requires i < |ss| && k < |ss| && k != i && ss[i].isOpen && ss[k].isOpen && !TestShare(ss[k], access, deny)
    ensures !ShareSafe(Upgraded(ss, i, access, deny))
  {
    var ts := Upgraded(ss, i, access, deny);
    ShareModeGrows(ss[i].access, access);
    ShareModeGrows(ss[i].deny, deny);
    assert ts[k] == ss[k] && ts[i].isOpen;
  }

  /** The second half does happen: an owner that reads and denies reading to others is refused when it
      asks for reading again, although no other owner is there. */
  lemma OwnReservationRefuses(start: FileModel, owner: nat, id: nat, other: nat)
    requires IsNew(start)
    ensures var f := Step(start, PlainOpen(owner, ReadMode, ReadMode, id)).0;
      && |f.stateids| == 1 && f.stateids[0] == Stateid(id, owner, true, 0, {ReadMode}, {ReadMode})
      && ShareSafe(Upgraded(f.stateids, 0, ReadMode, NoMode))
      && Step(f, PlainOpen(owner, ReadMode, NoMode, other)).1 == ShareDenied
  {
    var q, env := OpenReq(owner, ReadMode, ReadMode, false, false, id), Env(true, true, true);
    var f := Settle(ProcessOpen(start, q, env).0);
    FirstOpen(start, q, env, f);
    OpenStep(start, q, env, f, ProcessOpen(start, q, env).1);
    OwnConflict(f, OpenReq(owner, ReadMode, NoMode, false, false, other), env);
    AloneIsSafe(Upgraded(f.stateids, 0, ReadMode, NoMode));
  }

  lemma AloneIsSafe(ss: seq<Stateid>)
    requires |ss| == 1
    ensures ShareSafe(ss)
  {
  }

  lemma OwnConflict(f: FileModel, q: OpenReq, env: Env)
    requires f.stateids != [] && f.stateids[0].isOpen && f.stateids[0].deny == {ReadMode} && q.access == ReadMode
    ensures Step(f, OpOpen(q, env)).1 == ShareDenied
  {
    assert R in ShareMode({ReadMode}) && R in Rights(ReadMode);
    assert f.stateids[0] in f.stateids && !TestShare(f.stateids[0], q.access, q.deny);
  }

  lemma ConflictIsUnsafe(ss: seq<Stateid>, q: OpenReq, k: nat)
    requires k < |ss| && ss[k].isOpen && !TestShare(ss[k], q.access, q.deny)
    ensures !ShareSafe([InitOpen(q)] + ss)
  {
    var ts := [InitOpen(q)] + ss;
    ShareModeGrows({}, q.access);
    ShareModeGrows({}, q.deny);
    assert {} + {q.access} == {q.access} && {} + {q.deny} == {q.deny};
    assert ts[0].isOpen && ts[k + 1] == ss[k];
  }

  // ---- what single operations undo and reach ----

  /** Counting a use and giving it back leaves the counts as they were. */
  lemma CountAndGiveBack(d: Counts, m: Mode)
    requires Backed(d)
    ensures var c := Put(Get(OpenFd(d, m), m), m); Backed(c) && c.readers == d.readers && c.writers == d.writers
  {
    GetBacked(d, m);
    var c := Get(OpenFd(d, m), m);
    PutBacked(c, m);
  }

  /** A failed OPEN of an owner that already has the file open changes no count and no stateid. */
  lemma FailedUpgradeRestores(f: FileModel, i: nat, q: OpenReq, env: Env)
    requires Inv(f) && i < |f.stateids| && q.access != NoMode
    requires Upgrade(f, i, q, env).1 != Ok
    ensures var g := Upgrade(f, i, q, env).0;
      g.stateids == f.stateids && g.fds.readers == f.fds.readers && g.fds.writers == f.fds.writers
  {
    FailedUpgradeCounts(f, i, q, env);
  }

  lemma FailedUpgradeCounts(f: FileModel, i: nat, q: OpenReq, env: Env)
    requires Backed(f.fds) && i < |f.stateids| && Upgrade(f, i, q, env).1 != Ok
    ensures var g := Upgrade(f, i, q, env).0;
      g.stateids == f.stateids && g.fds.readers == f.fds.readers && g.fds.writers == f.fds.writers
  {
    CountAndGiveBack(f.fds, q.access);
  }

  /** CLOSE takes back what the OPEN of a fresh stateid counted. */
  lemma CloseUndoesOpen(f: FileModel, q: OpenReq, env: Env)
    requires Inv(f) && q.access != NoMode && FirstLock(f.stateids, q.id) < 0
    requires NewOpen(f, q, env).1 == Ok
    ensures var g := Close(NewOpen(f, q, env).0, 0);
      g.stateids == f.stateids && g.fds.readers == f.fds.readers && g.fds.writers == f.fds.writers
  {
    var c := Get(OpenFd(f.fds, q.access), q.access);
    var g := NewOpen(f, q, env).0;
    assert g == f.(fds := c, stateids := [InitOpen(q)] + f.stateids);
    CloseFirst(g, InitOpen(q), f.stateids);
    ReleaseSingle(c, q.access);
    CountAndGiveBack(f.fds, q.access);
  }

  /** Closing the newest stateid when it has no locks. */
  lemma CloseFirst(g: FileModel, s: Stateid, rest: seq<Stateid>)
    requires g.stateids == [s] + rest && FirstLock(rest, s.id) < 0
    ensures Close(g, 0) == g.(fds := ReleaseAll(g.fds, s.access), stateids := rest)
  {
    assert Without(g.stateids, 0) == rest;
    var h := g.(stateids := rest);
    assert ReleaseLocks(h, s.id) == h;
  }

  lemma ReleaseSingle(c: Counts, m: Mode)
    requires m != NoMode
    ensures ReleaseAll(c, {m}) == Put(c, m)
  {
  }

  /** A granted OPEN_DOWNGRADE leaves exactly the requested share modes, and moves no other stateid. */
  lemma DowngradeReaches(f: FileModel, i: nat, access: Mode, deny: Mode)
    requires Inv(f) && i < |f.stateids| && access != NoMode && Downgrade(f, i, access, deny).1 == Ok
    ensures var g := Downgrade(f, i, access, deny).0;
      && g.stateids == f.stateids[i := g.stateids[i]]
      && ShareMode(g.stateids[i].access) == Rights(access) && ShareMode(g.stateids[i].deny) == Rights(deny)
  {
    var s := f.stateids[i];
    assert s in f.stateids;
    DropToAccess(f, i, access);
    DenyWithinExact(s.deny, deny);
    KeptModes(s.access, access);
  }

  /** The bits OPEN_DOWNGRADE clears; bits it keeps lie within the new mode. */
  function Dropped(to: Mode): Bitmap {
    if to == ReadMode then {WriteMode, BothMode} else if to == WriteMode then {ReadMode, BothMode} else {}
  }

  lemma DropToAccess(f: FileModel, i: nat, to: Mode)
    requires i < |f.stateids|
    ensures DropTo(f, i, to).stateids == f.stateids[i := f.stateids[i].(access := f.stateids[i].access - Dropped(to))]
  {
    var s := f.stateids[i];
    if to == ReadMode {
      DropBitAccess(f, i, WriteMode);
      DropBitAccess(DropBit(f, i, WriteMode), i, BothMode);
      assert s.access - {WriteMode} - {BothMode} == s.access - Dropped(to);
    } else if to == WriteMode {
      DropBitAccess(f, i, ReadMode);
      DropBitAccess(DropBit(f, i, ReadMode), i, BothMode);
      assert s.access - {ReadMode} - {BothMode} == s.access - Dropped(to);
    } else {
      assert s.access - Dropped(to) == s.access;
    }
  }

  lemma DropBitAccess(f: FileModel, i: nat, m: Mode)
    requires i < |f.stateids|
    ensures DropBit(f, i, m).stateids == f.stateids[i := f.stateids[i].(access := f.stateids[i].access - {m})]
  {
    if m !in f.stateids[i].access {
      assert f.stateids[i].access - {m} == f.stateids[i].access;
    }
  }

  lemma KeptModes(b: Bitmap, to: Mode)
    requires to in b && to != NoMode && NoMode !in b
    ensures ShareMode(b - Dropped(to)) == Rights(to)
  {
    assert to in b - Dropped(to);
  }

  lemma DenyWithinExact(b: Bitmap, to: Mode)
    requires to in b
    ensures ShareMode(DenyWithin(b, to)) == Rights(to)
  {
    var d := DenyWithin(b, to);
    assert to in d;
    assert R in Rights(ReadMode) && R in Rights(BothMode) && W in Rights(WriteMode) && W in Rights(BothMode);
  }

  // ---- the implementation ----

  function Oflag(m: Mode): nat
    requires m != NoMode
    ensures Oflag(m) < 3
  {
    match m case ReadMode => 0 case WriteMode => 1 case BothMode => 2
  }

  function ModeOfBits(i: nat): Mode {
    if i == 1 then ReadMode else if i == 2 then WriteMode else if i == 3 then BothMode else NoMode
  }

  class Nfs4File {
    const fds: array<bool>
    const access: array<int>
    var stateids: seq<Stateid>
    var delegs: nat
    var refs: nat
    ghost var leaked: seq<Mode>
    ghost var orphans: nat

    ghost predicate Valid() {
      fds.Length == 3 && access.Length == 2
    }

    /** Between operations every reference is a stateid's or a delegation's. */
    ghost predicate AtRest()
      reads this
    {
      Valid() && refs == |stateids| + delegs
    }

    /** The record's fields, which mean something while it is referenced. */
    ghost function Model(): FileModel
      requires Valid()
      reads this, fds, access
    {
      FileModel(Counts(fds[0], fds[1], fds[2], access[0], access[1]), stateids, leaked, delegs, orphans)
    }

    /** What is there to be found between operations. */
    ghost function Found(): FileModel
      requires Valid()
      reads this, fds, access
    {
      if refs > 0 then Model() else FileModel(CLOSED, [], [], 0, orphans)
    }

    /** An inode without a record. */
    constructor ()
      ensures AtRest() && fresh(fds) && fresh(access)
      ensures Found() == NEW_FILE
    {
      fds := new bool[3](i => false);
      access := new int[2](i => 0);
      stateids, delegs, refs := [], 0, 0;
      leaked, orphans := [], 0;
    }

    /** nfsd4_init_file. */
    method InitFile()
      requires Valid() && refs == 0 && stateids == [] && delegs == 0
      modifies this`refs, this`leaked, fds, access
      ensures refs == 1 && Model() == FileModel(CLOSED, [], [], 0, orphans)
    {
      refs := 1;
      for i := 0 to 3
        invariant refs == 1 && forall j :: 0 <= j < i ==> !fds[j]
      {
        fds[i] := false;
      }
      access[0], access[1] := 0, 0;
      leaked := [];
    }

    /** put_nfs4_file. */
    method PutFile()
      requires Valid() && refs > 0
      modifies this`refs, this`orphans
      ensures refs == old(refs) - 1
      ensures orphans == old(orphans) + if refs == 0 then OpenFds(Model().fds) else 0
    {
      refs := refs - 1;
      if refs == 0 {
        orphans := orphans + OpenFds(Model().fds);
      }
    }

    method GetAccessOne(oflag: nat)
      requires Valid() && oflag < 2 && (fds[oflag] || fds[2])
      modifies access
      ensures access[oflag] == old(access[oflag]) + 1 && access[1 - oflag] == old(access[1 - oflag])
    {
      access[oflag] := access[oflag] + 1;
    }

    method GetAccess(m: Mode)
      requires Valid() && m != NoMode
      requires forall r :: r in Rights(m) ==> Model().fds.Usable(r)
      modifies access
      ensures Model() == old(Model()).(fds := Get(old(Model()).fds, m))
    {
      assert R in Rights(m) <==> m == ReadMode || m == BothMode;
      assert W in Rights(m) <==> m == WriteMode || m == BothMode;
      if m == BothMode {
        GetAccessOne(0);
        GetAccessOne(1);
      } else {
        GetAccessOne(Oflag(m));
      }
    }

    method PutFd(oflag: nat)
      requires Valid() && oflag < 3
      modifies fds
      ensures !fds[oflag] && forall o :: 0 <= o < 3 && o != oflag ==> fds[o] == old(fds[o])
    {
      if fds[oflag] {
        fds[oflag] := false;
      }
    }

    method PutAccessOne(oflag: nat)
      requires Valid() && oflag < 2
      modifies fds, access
      ensures Model() == old(Model()).(fds := PutOne(old(Model()).fds, if oflag == 0 then R else W))
    {
      access[oflag] := access[oflag] - 1;
      if access[oflag] == 0 {
        PutFd(oflag);
        if fds[1 - oflag] || access[1 - oflag] == 0 {
          PutFd(2);
        }
      }
    }

    method PutAccess(m: Mode)
      requires Valid() && m != NoMode
      modifies fds, access
      ensures Model() == old(Model()).(fds := Put(old(Model()).fds, m))
    {
      if m == BothMode {
        PutAccessOne(0);
        PutAccessOne(1);
      } else {
        PutAccessOne(Oflag(m));
      }
    }

    method CheckOpen(owner: nat, mode: Mode, deny: Mode) returns (status: Status, stp: int)
      ensures status == if Conflicts(stateids, mode, deny) then ShareDenied else Ok
      ensures status == Ok ==> stp == Owned(stateids, owner)
    {
      stp := -1;
      for k := 0 to |stateids|
        invariant stp == Owned(stateids[..k], owner)
        invariant forall j :: 0 <= j < k && stateids[j].isOpen ==> TestShare(stateids[j], mode, deny)
      {
        assert stateids[..k+1][..k] == stateids[..k];
        if stateids[k].isOpen {
          if stateids[k].owner == owner {
            stp := k;
          }
          if !TestShare(stateids[k], mode, deny) {
            return ShareDenied, stp;
          }
        }
      }
      assert stateids[..|stateids|] == stateids;
      status := Ok;
    }

    method GetFile(m: Mode, openOk: bool) returns (ok: bool)
      requires Valid() && m != NoMode
      modifies fds, access
      ensures (old(Model()).(fds := Model().fds), ok) == (Model(), ok)
      ensures (Model().fds, ok) == GetVfsFile(old(Model()).fds, m, openOk)
    {
      if !fds[Oflag(m)] {
        if !openOk {
          return false;
        }
        fds[Oflag(m)] := true;
      }
      GetAccess(m);
      ok := true;
    }

    method UpgradeOpen(i: nat, q: OpenReq, env: Env) returns (status: Status)
      requires Valid() && i < |stateids| && q.access != NoMode
      modifies this`stateids, fds, access
      ensures (Model(), status) == Upgrade(old(Model()), i, q, env)
    {
      var more := q.access !in stateids[i].access;
      if more {
        var ok := GetFile(q.access, env.openOk);
        if !ok {
          return VfsError;
        }
      }
      status := Truncate(q, env);
      if status != Ok {
        if more {
          PutAccess(q.access);
        }
        return;
      }
      var s := stateids[i];
      stateids := stateids[i := s.(access := s.access + {q.access}, deny := s.deny + {q.deny})];
    }

    /** The part of nfsd4_process_open2 for a stateid that is new. */
    method OpenNew(q: OpenReq, env: Env) returns (status: Status)
      requires Valid() && q.access != NoMode
      modifies this`stateids, this`leaked, this`refs, fds, access
      ensures (Model(), status) == NewOpen(old(Model()), q, env)
      ensures refs - |stateids| == old(refs - |stateids|)
    {
      var ok := GetFile(q.access, env.openOk);
      if !ok {
        return VfsError;
      }
      status := Truncate(q, env);
      if status != Ok {
        leaked := leaked + [q.access];
        return;
      }
      stateids, refs := [InitOpen(q)] + stateids, refs + 1;
    }

    method OpenFound(q: OpenReq, env: Env) returns (status: Status)
      requires Valid() && q.access != NoMode && Held(Model())
      modifies this`stateids, this`leaked, this`refs, fds, access
      ensures (Model(), status) == ProcessOpen(old(Model()), q, env)
      ensures refs - |stateids| == old(refs - |stateids|)
    {
      var stp;
      status, stp := CheckOpen(q.owner, q.access, q.deny);
      if status != Ok {
        return;
      }
      if !env.delegOk {
        return DelegError;
      }
      if stp >= 0 {
        status := UpgradeOpen(stp, q, env);
      } else {
        status := OpenNew(q, env);
      }
    }

    method OpenHeld(q: OpenReq, env: Env) returns (status: Status)
      requires AtRest() && q.access != NoMode && refs > 0
      modifies this, fds, access
      ensures AtRest() && (Found(), status) == ProcessOpen(old(Found()), q, env)
    {
      refs := refs + 1;
      status := OpenFound(q, env);
      PutFile();
    }

    method OpenUnheld(q: OpenReq, env: Env) returns (status: Status)
      requires AtRest() && q.access != NoMode && refs == 0
      modifies this, fds, access
      ensures AtRest() && Found() == Settle(ProcessOpen(old(Found()), q, env).0)
        && status == ProcessOpen(old(Found()), q, env).1
    {
      if q.delegCur {
        return BadStateid;
      }
      InitFile();
      status := OpenFresh(q, env);
    }

    /** The first OPEN under a new record. */
    method OpenFresh(q: OpenReq, env: Env) returns (status: Status)
      requires Valid() && q.access != NoMode && refs == 1 && stateids == [] && delegs == 0
      modifies this, fds, access
      ensures AtRest() && Found() == Settle(NewOpen(old(Model()), q, env).0)
        && status == NewOpen(old(Model()), q, env).1
    {
      status := OpenNew(q, env);
      PutFile();
    }

    method ProcessOpen2(q: OpenReq, env: Env) returns (status: Status)
      requires AtRest() && q.access != NoMode
      modifies this, fds, access
      ensures AtRest() && Found() == Settle(ProcessOpen(old(Found()), q, env).0)
        && status == ProcessOpen(old(Found()), q, env).1
    {
      if refs > 0 {
        status := OpenHeld(q, env);
      } else {
        status := OpenUnheld(q, env);
      }
    }

    method DowngradeBit(i: nat, m: Mode)
      requires Valid() && i < |stateids| && m != NoMode
      modifies this`stateids, fds, access
      ensures Model() == DropBit(old(Model()), i, m)
    {
      if m !in stateids[i].access {
        return;
      }
      PutAccess(m);
      stateids := stateids[i := stateids[i].(access := stateids[i].access - {m})];
    }

    method OpenDowngrade(i: nat, mode: Mode, deny: Mode) returns (status: Status)
      requires Valid() && i < |stateids| && mode != NoMode
      modifies this`stateids, fds, access
      ensures (Model(), status) == Downgrade(old(Model()), i, mode, deny)
    {
      if mode !in stateids[i].access || deny !in stateids[i].deny {
        return Inval;
      }
      match mode {
        case ReadMode =>
          DowngradeBit(i, WriteMode);
          DowngradeBit(i, BothMode);
        case WriteMode =>
          DowngradeBit(i, ReadMode);
          DowngradeBit(i, BothMode);
        case BothMode =>
      }
      stateids := stateids[i := stateids[i].(deny := DenyWithin(stateids[i].deny, deny))];
      status := Ok;
    }

    method ReleaseAllAccess(b: Bitmap)
      requires Valid()
      modifies fds, access
      ensures Model() == old(Model()).(fds := ReleaseAll(old(Model()).fds, b))
    {
      for i := 1 to 4
        invariant stateids == old(stateids) && leaked == old(leaked)
        invariant Model().fds == ReleaseAll(old(Model()).fds, b * ModesBelow(i))
      {
        if ModeOfBits(i) in b {
          PutAccess(ModeOfBits(i));
        }
      }
      ReleaseAllIgnoresNoMode(old(Model()).fds, b);
    }

    /** The lock's open still holds the file. */
    method ReleaseLockStateid(i: nat)
      requires Valid() && i < |stateids| && refs > 1
      modifies this`stateids, this`refs, this`orphans, fds, access
      ensures Model() == ReleaseLock(old(Model()), i) && refs == old(refs) - 1
    {
      var b := stateids[i].access;
      stateids := Without(stateids, i);
      ReleaseAllAccess(b);
      PutFile();
    }

    method ReleaseStateidLockowners(parent: nat)
      requires Valid() && refs > |stateids|
      modifies this`stateids, this`refs, this`orphans, fds, access
      ensures Model() == ReleaseLocks(old(Model()), parent)
      ensures refs - |stateids| == old(refs - |stateids|)
    {
      var i := FirstLock(stateids, parent);
      while i >= 0
        invariant i == FirstLock(stateids, parent) && refs - |stateids| == old(refs - |stateids|)
        invariant ReleaseLocks(Model(), parent) == ReleaseLocks(old(Model()), parent)
        decreases |stateids|
      {
        ReleaseLockStateid(i);
        i := FirstLock(stateids, parent);
      }
    }

    method CloseOpenStateid(i: nat)
      requires AtRest() && i < |stateids|
      modifies this`stateids, this`refs, this`orphans, fds, access
      ensures AtRest() && Found() == Settle(Close(old(Found()), i))
    {
      var s := stateids[i];
      ReleaseLocksLeaked(Model().(stateids := Without(stateids, i)), s.id);
      stateids := Without(stateids, i);
      ReleaseStateidLockowners(s.id);
      ReleaseAllAccess(s.access);
      PutFile();
    }

    method AllocInitLockStateid(i: nat, id: nat, owner: nat)
      requires AtRest() && i < |stateids|
      modifies this`stateids, this`refs
      ensures AtRest() && Found() == NewLock(old(Found()), i, id, owner)
    {
      stateids := [Stateid(id, owner, false, stateids[i].id, {}, stateids[i].deny)] + stateids;
      refs := refs + 1;
    }

    /** alloc_init_deleg, after an OPEN. */
    method AllocInitDeleg()
      requires AtRest() && stateids != []
      modifies this`delegs, this`refs
      ensures AtRest() && Found() == Step(old(Found()), OpDelegate).0
    {
      delegs, refs := delegs + 1, refs + 1;
    }

    /** nfs4_put_delegation, for the last reference to it. */
    method PutDelegation()
      requires AtRest() && delegs > 0
      modifies this`delegs, this`refs, this`orphans
      ensures AtRest() && Found() == Step(old(Found()), OpReturnDeleg).0
    {
      delegs := delegs - 1;
      PutFile();
    }

    method GetLockAccess(i: nat, r: Right) returns (status: Status)
      requires Valid() && i < |stateids|
      modifies this`stateids, access
      ensures (Model(), status) == LockAccess(old(Model()), i, r)
    {
      var m := SingleMode(r);
      if !fds[Oflag(m)] && !fds[2] {
        return OpenMode;
      }
      status := Ok;
      if m in stateids[i].access {
        return;
      }
      GetAccess(m);
      stateids := stateids[i := stateids[i].(access := stateids[i].access + {m})];
    }
  }
}
