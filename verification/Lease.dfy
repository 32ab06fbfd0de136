/** Client leases: the list of clients ordered by last renewal, and the periodic reaping of it
    (fs/nfsd/nfs4state.c:1029-1046, 1105-1131, 1334-1356, 3162-3234; fs/nfsd/state.h:276-286). */
module Lease {

  // ---- time ----

  /** An unsigned long. */
  const WORD: int := 0x1_0000_0000_0000_0000

  /** time_after, on the wrapped difference. */
  predicate TimeAfter(a: int, b: int) {
    (b - a) % WORD >= WORD / 2
  }

  lemma TimeAfterIsLater(a: int, b: int)
    requires -WORD / 2 < b - a < WORD / 2
    ensures TimeAfter(a, b) <==> a > b
  {
  }

  const LAUNDROMAT_MINTIMEOUT := 1

  // ---- the list ----

  /** `refs` counts the requests in flight on the client's sessions. */
  datatype Client = Client(id: nat, time: int, refs: nat)

  datatype World = World(now: int, lease: int, lru: seq<Client>)

  function Min(a: int, b: int): int {
    if a <= b then a else b
  }

  /** Position of a client, -1 when it is not listed. */
  function Find(l: seq<Client>, id: nat): (i: int)
    ensures -1 <= i < |l|
    ensures i >= 0 ==> l[i].id == id
    ensures i < 0 ==> forall c <- l :: c.id != id
  {
    if l == [] then -1 else if l[0].id == id then 0
    else var i := Find(l[1..], id); if i < 0 then -1 else i + 1
  }

  function Without(l: seq<Client>, i: nat): seq<Client>
    requires i < |l|
  {
    l[..i] + l[i+1..]
  }

  /** renew_client_locked: to the tail, with the current time. */
  function Renew(w: World, i: nat): World
    requires i < |w.lru|
  {
    w.(lru := Without(w.lru, i) + [w.lru[i].(time := w.now)])
  }

  function SetRefs(w: World, i: nat, refs: nat): World
    requires i < |w.lru|
  {
    w.(lru := w.lru[i := w.lru[i].(refs := refs)])
  }

  // ---- reaping, by looking at every client ----

  predicate Stale(c: Client, cutoff: int) {
    c.time <= cutoff && c.refs == 0
  }

  function Kept(l: seq<Client>, cutoff: int): seq<Client> {
    if l == [] then [] else Kept(l[..|l|-1], cutoff) + if Stale(l[|l|-1], cutoff) then [] else [l[|l|-1]]
  }

  /** Last in, first out. */
  function Reaped(l: seq<Client>, cutoff: int): seq<Client> {
    if l == [] then [] else (if Stale(l[|l|-1], cutoff) then [l[|l|-1]] else []) + Reaped(l[..|l|-1], cutoff)
  }

  /** The least time any unexpired lease of l still has, at most `most`. */
  function LeastLeft(l: seq<Client>, cutoff: int, most: int): int {
    if l == [] then most
    else
      var rest := LeastLeft(l[..|l|-1], cutoff, most);
      if l[|l|-1].time > cutoff then Min(rest, l[|l|-1].time - cutoff) else rest
  }

  // ---- the invariant ----

  predicate Sorted(l: seq<Client>) {
    forall i, j :: 0 <= i < j < |l| ==> l[i].time <= l[j].time
  }

  predicate DistinctIds(l: seq<Client>) {
    forall i, j :: 0 <= i < j < |l| ==> l[i].id != l[j].id
  }

  /** Oldest renewal first, none in the future, none at zero, which marks an expired client. */
  predicate Inv(w: World) {
    && 0 < w.now < WORD / 4 && 0 < w.lease < WORD / 4
    && Sorted(w.lru) && DistinctIds(w.lru)
    && forall c <- w.lru :: 0 < c.time <= w.now
  }

  // ---- the early exit is a full scan ----

  lemma {:induction false} AllKept(l: seq<Client>, k: nat, cutoff: int)
    requires k <= |l| && forall i :: k <= i < |l| ==> l[i].time > cutoff
    ensures Kept(l, cutoff) == Kept(l[..k], cutoff) + l[k..]
    ensures Reaped(l, cutoff) == Reaped(l[..k], cutoff)
  {
    if k < |l| {
      var m := l[..|l|-1];
      AllKept(m, k, cutoff);
      assert m[..k] == l[..k] && m[k..] + [l[|l|-1]] == l[k..];
    } else {
      assert l[..k] == l;
    }
  }

  /** In a sorted list the first unexpired lease is the one that runs out first. */
  lemma {:induction false} FirstUnexpiredIsLeast(l: seq<Client>, k: nat, cutoff: int, most: int)
    requires Sorted(l) && k <= |l|
    requires forall i :: 0 <= i < k ==> l[i].time <= cutoff
    requires forall i :: k <= i < |l| ==> l[i].time > cutoff
    ensures LeastLeft(l, cutoff, most) == if k < |l| then Min(most, l[k].time - cutoff) else most
  {
    if l != [] {
      var m := l[..|l|-1];
      FirstUnexpiredIsLeast(m, if k <= |m| then k else |m|, cutoff, most);
    }
  }

  lemma {:induction false} LeastLeftBound(l: seq<Client>, cutoff: int, most: int)
    ensures LeastLeft(l, cutoff, most) <= most
    ensures forall c <- l :: c.time > cutoff ==> LeastLeft(l, cutoff, most) <= c.time - cutoff
    ensures most > 0 ==> LeastLeft(l, cutoff, most) > 0
  {
    if l != [] {
      LeastLeftBound(l[..|l|-1], cutoff, most);
      forall c | c in l && c.time > cutoff ensures LeastLeft(l, cutoff, most) <= c.time - cutoff {
        if c != l[|l|-1] { assert c in l[..|l|-1]; }
      }
    }
  }

  /** Stopping at the first unexpired lease loses nothing. */
  lemma EarlyExit(l: seq<Client>, k: nat, cutoff: int, lease: int)
    requires Sorted(l) && k <= |l| && lease > 0
    requires forall i :: 0 <= i < k ==> l[i].time <= cutoff
    requires k < |l| ==> l[k].time > cutoff
    ensures Kept(l, cutoff) == Kept(l[..k], cutoff) + l[k..]
    ensures Reaped(l, cutoff) == Reaped(l[..k], cutoff)
    ensures LeastLeft(l, cutoff, lease) == if k < |l| then Min(lease, l[k].time - cutoff) else lease
    ensures LeastLeft(l, cutoff, lease) >= LAUNDROMAT_MINTIMEOUT
  {
    AllKept(l, k, cutoff);
    FirstUnexpiredIsLeast(l, k, cutoff, lease);
    LeastLeftBound(l, cutoff, lease);
  }

  /** Exactly the stale clients go, the others stay in their order. */
  lemma {:induction false} KeptMembers(l: seq<Client>, cutoff: int)
    ensures forall c :: c in Kept(l, cutoff) <==> c in l && !Stale(c, cutoff)
    ensures forall c :: c in Reaped(l, cutoff) <==> c in l && Stale(c, cutoff)
    ensures |Kept(l, cutoff)| + |Reaped(l, cutoff)| == |l|
  {
    if l != [] {
      var m := l[..|l|-1];
      KeptMembers(m, cutoff);
      forall c ensures c in l <==> c in m || c == l[|l|-1] {
        assert l == m + [l[|l|-1]];
      }
    }
  }

  /** Idle for the lease time, and no request in flight. */
  predicate Idle(c: Client, now: int, lease: int) {
    now - c.time >= lease && c.refs == 0
  }

  /** The clients reaped from `list` are the idle ones, and all others are kept. */
  ghost predicate OnlyIdleReaped(list: seq<Client>, reaped: seq<Client>, kept: seq<Client>, now: int, lease: int) {
    && (forall c <- list :: if Idle(c, now, lease) then c in reaped else c in kept)
    && (forall c <- reaped :: c in list && Idle(c, now, lease))
    && (forall c <- kept :: c in list && !Idle(c, now, lease))
  }

  lemma ReapsExactlyTheIdle(l: seq<Client>, now: int, lease: int)
    ensures OnlyIdleReaped(l, Reaped(l, now - lease), Kept(l, now - lease), now, lease)
  {
    KeptMembers(l, now - lease);
  }

  lemma SnocSorted(l: seq<Client>, c: Client)
    requires Sorted(l) && DistinctIds(l) && forall d <- l :: d.time <= c.time && d.id != c.id
    ensures Sorted(l + [c]) && DistinctIds(l + [c])
  {
    forall i | 0 <= i < |l| ensures l[i].time <= c.time && l[i].id != c.id {
      assert l[i] in l;
    }
  }

  lemma {:induction false} KeptSorted(l: seq<Client>, cutoff: int)
    requires Sorted(l) && DistinctIds(l)
    ensures Sorted(Kept(l, cutoff)) && DistinctIds(Kept(l, cutoff))
  {
    if l != [] {
      var m, last := l[..|l|-1], l[|l|-1];
      KeptSorted(m, cutoff);
      KeptMembers(m, cutoff);
      forall d | d in Kept(m, cutoff) ensures d.time <= last.time && d.id != last.id {
        var i :| 0 <= i < |m| && m[i] == d;
        assert l[i] == d;
      }
      SnocSorted(Kept(m, cutoff), last);
    }
  }

  lemma ScanOne(l: seq<Client>, k: nat, cutoff: int)
    requires k < |l|
    ensures Kept(l[..k+1], cutoff) == Kept(l[..k], cutoff) + if Stale(l[k], cutoff) then [] else [l[k]]
    ensures Reaped(l[..k+1], cutoff) == (if Stale(l[k], cutoff) then [l[k]] else []) + Reaped(l[..k], cutoff)
  {
    assert l[..k+1][..k] == l[..k];
  }

  // ---- runs ----

  datatype Op =
    | Tick(seconds: nat)
    | Enter(id: nat)
    | Touch(id: nat)
    | BeginRequest(id: nat)
    | EndRequest(id: nat)
    | Expire(id: nat)
    | Laundromat

  function Cutoff(w: World): int {
    w.now - w.lease
  }

  function OnEnter(w: World, id: nat): World {
    if Find(w.lru, id) < 0 then w.(lru := w.lru + [Client(id, w.now, 0)]) else w
  }

  function OnTouch(w: World, id: nat): World {
    var i := Find(w.lru, id); if i < 0 then w else Renew(w, i)
  }

  function OnBegin(w: World, id: nat): World {
    var i := Find(w.lru, id); if i < 0 then w else SetRefs(w, i, w.lru[i].refs + 1)
  }

  /** release_session_client: a client's last request ending renews its lease. */
  function OnEnd(w: World, id: nat): World {
    var i := Find(w.lru, id);
    if i < 0 || w.lru[i].refs == 0 then w
    else
      var v := SetRefs(w, i, w.lru[i].refs - 1);
      if v.lru[i].refs == 0 then Renew(v, i) else v
  }

  function OnExpire(w: World, id: nat): World {
    var i := Find(w.lru, id); if i < 0 then w else w.(lru := Without(w.lru, i))
  }

  function OnLaundromat(w: World): World {
    w.(lru := Kept(w.lru, Cutoff(w)))
  }

  function Step(w: World, op: Op): World {
    match op
    case Tick(seconds) => if w.now + seconds < WORD / 4 then w.(now := w.now + seconds) else w
    case Enter(id) => OnEnter(w, id)
    case Touch(id) => OnTouch(w, id)
    case BeginRequest(id) => OnBegin(w, id)
    case EndRequest(id) => OnEnd(w, id)
    case Expire(id) => OnExpire(w, id)
    case Laundromat => OnLaundromat(w)
  }

  lemma WithoutKeeps(w: World, i: nat)
    requires Inv(w) && i < |w.lru|
    ensures Inv(w.(lru := Without(w.lru, i)))
  {
    var l := Without(w.lru, i);
    assert forall k :: 0 <= k < |l| ==> l[k] == w.lru[if k < i then k else k + 1];
  }

  lemma WithoutMembers(l: seq<Client>, i: nat)
    requires i < |l| && DistinctIds(l)
    ensures forall c <- Without(l, i) :: c in l && c.id != l[i].id
  {
    forall c | c in Without(l, i) ensures c in l && c.id != l[i].id {
      var k :| 0 <= k < |l| - 1 && Without(l, i)[k] == c;
      assert c == l[if k < i then k else k + 1];
    }
  }

  lemma RenewKeeps(w: World, i: nat)
    requires Inv(w) && i < |w.lru|
    ensures Inv(Renew(w, i))
  {
    WithoutKeeps(w, i);
    WithoutMembers(w.lru, i);
    SnocSorted(Without(w.lru, i), w.lru[i].(time := w.now));
  }

  lemma SetRefsKeeps(w: World, i: nat, refs: nat)
    requires Inv(w) && i < |w.lru|
    ensures Inv(SetRefs(w, i, refs))
  {
    forall c | c in SetRefs(w, i, refs).lru ensures 0 < c.time <= w.now {
      var k :| 0 <= k < |w.lru| && SetRefs(w, i, refs).lru[k] == c;
      assert w.lru[k] in w.lru;
    }
  }

  lemma EnterKeeps(w: World, id: nat)
    requires Inv(w)
    ensures Inv(OnEnter(w, id))
  {
    if Find(w.lru, id) < 0 {
      SnocSorted(w.lru, Client(id, w.now, 0));
    }
  }

  lemma EndRequestKeeps(w: World, id: nat)
    requires Inv(w)
    ensures Inv(OnEnd(w, id))
  {
    var i := Find(w.lru, id);
    if i >= 0 && w.lru[i].refs > 0 {
      SetRefsKeeps(w, i, w.lru[i].refs - 1);
      if w.lru[i].refs == 1 {
        RenewKeeps(SetRefs(w, i, w.lru[i].refs - 1), i);
      }
    }
  }

  lemma LaundromatKeeps(w: World)
    requires Inv(w)
    ensures Inv(OnLaundromat(w))
  {
    KeptSorted(w.lru, Cutoff(w));
    KeptMembers(w.lru, Cutoff(w));
  }

  lemma OtherOpsKeep(w: World, id: nat)
    requires Inv(w)
    ensures Inv(OnTouch(w, id)) && Inv(OnBegin(w, id)) && Inv(OnExpire(w, id))
  {
    var i := Find(w.lru, id);
    if i >= 0 {
      RenewKeeps(w, i);
      SetRefsKeeps(w, i, w.lru[i].refs + 1);
      WithoutKeeps(w, i);
    }
  }

  lemma StepKeeps(w: World, op: Op)
    requires Inv(w)
    ensures Inv(Step(w, op))
  {
    match op
    case Tick(_) =>
    case Enter(id) => EnterKeeps(w, id);
    case Touch(id) => OtherOpsKeep(w, id);
    case BeginRequest(id) => OtherOpsKeep(w, id);
    case EndRequest(id) => EndRequestKeeps(w, id);
    case Expire(id) => OtherOpsKeep(w, id);
    case Laundromat => LaundromatKeeps(w);
  }

  function Run(w: World, ops: seq<Op>): World
    decreases |ops|
  {
    if ops == [] then w else Run(Step(w, ops[0]), ops[1..])
  }

  lemma {:induction false} RunKeeps(w: World, ops: seq<Op>)
    requires Inv(w)
    ensures Inv(Run(w, ops))
    decreases |ops|
  {
    if ops != [] {
      StepKeeps(w, ops[0]);
      RunKeeps(Step(w, ops[0]), ops[1..]);
    }
  }

  /** Client id is listed with a lease renewed at t0 or later. */
  predicate Listed(w: World, id: nat, t0: int) {
    exists c <- w.lru :: c.id == id && c.time >= t0
  }

  lemma RenewLists(w: World, i: nat, id: nat, t0: int)
    requires Inv(w) && i < |w.lru| && Listed(w, id, t0)
    ensures Listed(Renew(w, i), id, t0)
  {
    var c :| c in w.lru && c.id == id && c.time >= t0;
    var l, r := Without(w.lru, i), Renew(w, i).lru;
    if c == w.lru[i] {
      assert r[|l|] == c.(time := w.now);
      assert r[|l|] in r;
    } else {
      OthersStay(w.lru, i, c);
      assert c in r;
    }
  }

  lemma OthersStay(l: seq<Client>, i: nat, c: Client)
    requires i < |l| && c in l && c != l[i]
    ensures c in Without(l, i)
  {
    var k :| 0 <= k < |l| && l[k] == c;
    assert Without(l, i)[if k < i then k else k - 1] == c;
  }

  lemma SetRefsLists(w: World, i: nat, refs: nat, id: nat, t0: int)
    requires i < |w.lru| && Listed(w, id, t0)
    ensures Listed(SetRefs(w, i, refs), id, t0)
  {
    var k :| 0 <= k < |w.lru| && w.lru[k].id == id && w.lru[k].time >= t0;
    var r := SetRefs(w, i, refs).lru;
    assert r[k].id == id && r[k].time >= t0 && r[k] in r;
  }

  lemma RequestLists(w: World, other: nat, id: nat, t0: int)
    requires Inv(w) && Listed(w, id, t0)
    ensures Listed(OnTouch(w, other), id, t0) && Listed(OnBegin(w, other), id, t0)
  {
    var i := Find(w.lru, other);
    if i >= 0 {
      RenewLists(w, i, id, t0);
      SetRefsLists(w, i, w.lru[i].refs + 1, id, t0);
    }
  }

  lemma EndLists(w: World, other: nat, id: nat, t0: int)
    requires Inv(w) && Listed(w, id, t0)
    ensures Listed(OnEnd(w, other), id, t0)
  {
    var i := Find(w.lru, other);
    if i >= 0 && w.lru[i].refs > 0 {
      SetRefsLists(w, i, w.lru[i].refs - 1, id, t0);
      SetRefsKeeps(w, i, w.lru[i].refs - 1);
      RenewLists(SetRefs(w, i, w.lru[i].refs - 1), i, id, t0);
    }
  }

  lemma ExpireLists(w: World, other: nat, id: nat, t0: int)
    requires Listed(w, id, t0) && other != id
    ensures Listed(OnExpire(w, other), id, t0)
  {
    var c :| c in w.lru && c.id == id && c.time >= t0;
    var i := Find(w.lru, other);
    if i >= 0 { OthersStay(w.lru, i, c); }
  }

  lemma StepLists(w: World, op: Op, id: nat, t0: int)
    requires Inv(w) && Listed(w, id, t0) && op != Expire(id) && w.now < t0 + w.lease
    ensures Listed(Step(w, op), id, t0)
  {
    match op
    case Tick(_) =>
    case Enter(other) =>
      var c :| c in w.lru && c.id == id && c.time >= t0;
      assert c in OnEnter(w, other).lru;
    case Touch(other) => RequestLists(w, other, id, t0);
    case BeginRequest(other) => RequestLists(w, other, id, t0);
    case EndRequest(other) => EndLists(w, other, id, t0);
    case Expire(other) => ExpireLists(w, other, id, t0);
    case Laundromat => KeptMembers(w.lru, Cutoff(w));
  }

  lemma StepClock(w: World, op: Op)
    ensures Step(w, op).now >= w.now && Step(w, op).lease == w.lease
  {
  }

  lemma {:induction false} RunClock(w: World, ops: seq<Op>)
    ensures Run(w, ops).now >= w.now && Run(w, ops).lease == w.lease
    decreases |ops|
  {
    if ops != [] {
      StepClock(w, ops[0]);
      RunClock(Step(w, ops[0]), ops[1..]);
    }
  }

  /** A client listed with a lease renewed at t0 or later stays listed over every run that ends before
      t0 plus the lease time and does not expire that client explicitly, whatever laundromat passes,
      renewals and requests of any client the run holds. */
  lemma {:induction false} RecentlyRenewedSurvives(w: World, ops: seq<Op>, id: nat, t0: int)
    requires Inv(w) && Listed(w, id, t0) && Expire(id) !in ops && Run(w, ops).now < t0 + w.lease
    ensures Listed(Run(w, ops), id, t0)
    decreases |ops|
  {
    if ops != [] {
      RunClock(w, ops);
      var v := Step(w, ops[0]);
      StepClock(w, ops[0]);
      RunClock(v, ops[1..]);
      StepKeeps(w, ops[0]);
      StepLists(w, ops[0], id, t0);
      RecentlyRenewedSurvives(v, ops[1..], id, t0);
    }
  }

  /** Renewing sets such a t0: the present. */
  lemma RenewalLists(w: World, id: nat)
    requires Find(w.lru, id) >= 0
    ensures Listed(Step(w, Touch(id)), id, w.now)
  {
    var r := Step(w, Touch(id)).lru;
    assert r[|r|-1] in r;
  }

  /** Sleeping for the returned time never passes the moment an unexpired lease runs out, and the
      one-second floor changes nothing: what the scan returns is already at least one. */
  lemma SleepNeverOvershoots(w: World, c: Client)
    requires Inv(w) && c in w.lru && c.time > Cutoff(w)
    ensures var t := LeastLeft(w.lru, Cutoff(w), w.lease);
      t >= LAUNDROMAT_MINTIMEOUT && w.now + t <= c.time + w.lease
  {
    LeastLeftBound(w.lru, Cutoff(w), w.lease);
  }

  // ---- the implementation ----

  class ClientLru {
    const lease: int
    var now: int
    var lru: seq<Client>

    ghost function Model(): World
      reads this
    {
      World(now, lease, lru)
    }

    constructor (now: int, lease: int)
      ensures Model() == World(now, lease, [])
    {
      this.now, this.lease, lru := now, lease, [];
    }

    method RenewClientLocked(i: nat)
      requires i < |lru| && Inv(Model())
      modifies this`lru
      ensures Model() == Renew(old(Model()), i)
    {
      var c := lru[i];
      assert c in lru;
      if c.time == 0 {
        return;
      }
      lru := lru[..i] + lru[i+1..] + [c.(time := now)];
    }

    /** A request ends; a client no longer listed has expired meanwhile and is freed, not renewed. */
    method ReleaseSessionClient(id: nat)
      requires Inv(Model()) && (Find(lru, id) >= 0 ==> lru[Find(lru, id)].refs > 0)
      modifies this`lru
      ensures Model() == Step(old(Model()), EndRequest(id))
    {
      var i := Find(lru, id);
      if i < 0 {
        return;
      }
      SetRefsKeeps(Model(), i, lru[i].refs - 1);
      lru := lru[i := lru[i].(refs := lru[i].refs - 1)];
      if lru[i].refs == 0 {
        RenewClientLocked(i);
      }
    }

    /** nfs4_laundromat. Only the client list decides the sleep: what the delegations and the
        open owners would ask for is computed there and dropped. */
    method LaundromatPass() returns (reaped: seq<Client>, sleep: int)
      requires Inv(Model())
      modifies this`lru
      ensures Model() == Step(old(Model()), Laundromat)
      ensures reaped == Reaped(old(lru), now - lease)
      ensures sleep == LeastLeft(old(lru), now - lease, lease)
    {
      var kept;
      var list := lru;
      kept, reaped, sleep := Scan(list, now, lease);
      assert kept == Kept(list, now - lease) && reaped == Reaped(list, now - lease)
        && sleep == LeastLeft(list, now - lease, lease);
      lru := kept;
      if sleep < LAUNDROMAT_MINTIMEOUT {
        sleep := LAUNDROMAT_MINTIMEOUT;
      }
    }
  }

  /** The walk over the client list, up to the first unexpired lease: stopping there still takes
      exactly the idle clients. */
  method Scan(list: seq<Client>, now: int, lease: int) returns (kept: seq<Client>, reaped: seq<Client>, sleep: int)
    requires Inv(World(now, lease, list))
    ensures kept == Kept(list, now - lease) && reaped == Reaped(list, now - lease)
    ensures OnlyIdleReaped(list, reaped, kept, now, lease)
    ensures sleep == LeastLeft(list, now - lease, lease) && sleep >= LAUNDROMAT_MINTIMEOUT
  {
    var cutoff := now - lease;
    kept, reaped, sleep := [], [], lease;
    var k := 0;
    while k < |list|
      invariant 0 <= k <= |list|
      invariant kept == Kept(list[..k], cutoff) && reaped == Reaped(list[..k], cutoff)
      invariant forall i :: 0 <= i < k ==> list[i].time <= cutoff
      invariant sleep == lease
    {
      var c := list[k];
      assert 0 < c.time <= now by { assert c in list; }
      TimeAfterIsLater(c.time, cutoff);
      if TimeAfter(c.time, cutoff) {
        if sleep > c.time - cutoff {
          sleep := c.time - cutoff;
        }
        break;
      }
      ScanOne(list, k, cutoff);
      if c.refs != 0 {
        kept := kept + [c];
      } else {
        reaped := [c] + reaped;
      }
      k := k + 1;
    }
    EarlyExit(list, k, cutoff, lease);
    kept := kept + list[k..];
    ReapsExactlyTheIdle(list, now, lease);
  }
}
