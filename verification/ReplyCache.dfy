/** The duplicate-request cache (fs/nfsd/nfscache.c:21-303) and the caller that pairs each lookup
    with one update (fs/nfsd/nfssvc.c:581-655). */
module ReplyCache {
  import opened Common

  // ---- data ----

  const WORD: int := 0x1_0000_0000

  type U32 = x: int | 0 <= x < WORD

  const CACHESIZE := 1024
  const HASHSIZE := 64
  const MAX_CACHED_WORDS := 64
  const MAX_COMPLAINTS := 5

  datatype State = Unused | InProg | Done

  datatype CType = NoCache | ReplStat | ReplBuff

  /** What identifies a call: transaction id, procedure, version, protocol and client address. */
  datatype Key = Key(xid: U32, proc: nat, vers: nat, prot: nat, addr: nat)

  /** struct svc_cacherep; `data` is the stored status word or the stored words. */
  datatype Entry = Entry(state: State, key: Key, ctype: CType, secure: bool, time: int, data: seq<U32>)

  /** A hash link: which entry, and the transaction id it is filed under. */
  datatype Link = Link(id: nat, xid: U32)

  /** The pool, the LRU list (least recent first), and every hash link, newest first. */
  datatype Cache = Cache(hz: nat, disabled: bool, complaints: nat, pool: seq<Entry>, lru: seq<nat>, filed: seq<Link>)
  {
    /** How long an entry counts, and within what time a retransmission is simply dropped. */
    function Life(): nat { 120 * hz }

    function Delay(): nat { hz / 5 }
  }

  // ---- hashing ----

  function Pow2(n: nat): nat {
    if n == 0 then 1 else 2 * Pow2(n - 1)
  }

  /** Exclusive or of the low n bits. */
  function Xor(a: nat, b: nat, n: nat): (r: nat)
    ensures r < Pow2(n)
  {
    if n == 0 then 0 else (if a % 2 != b % 2 then 1 else 0) + 2 * Xor(a / 2, b / 2, n - 1)
  }

  /** request_hash. */
  function RequestHash(xid: U32): (h: nat)
    ensures h < HASHSIZE
  {
    assert Pow2(6) == 64;
    Xor(xid, xid / 0x100_0000, 6)
  }

  /** One hash chain. */
  function Chain(filed: seq<Link>, b: nat): seq<Link> {
    if filed == [] then []
    else if RequestHash(filed[0].xid) == b then [filed[0]] + Chain(filed[1..], b)
    else Chain(filed[1..], b)
  }

  function Unfiled(filed: seq<Link>, id: nat): seq<Link> {
    if filed == [] then []
    else if filed[0].id == id then Unfiled(filed[1..], id)
    else [filed[0]] + Unfiled(filed[1..], id)
  }

  // ---- looking up ----

  /** A call to be answered: how its replies are cached, whether its port is privileged, and how
      many words its reply has room for. */
  datatype Call = Call(key: Key, ctype: CType, secure: bool, room: nat)

  datatype Answer = DropIt | Reply(data: seq<U32>) | DoIt

  /** The test the lookup makes on each entry of the chain. */
  predicate Matches(e: Entry, k: Key, now: int, life: nat) {
    e.state != Unused && e.key == k && now < e.time + life
  }

  /** The first match in a list of links, -1 when there is none. */
  function FirstMatch(links: seq<Link>, pool: seq<Entry>, k: Key, now: int, life: nat): (i: int)
    ensures i >= 0 ==> i < |pool| && Matches(pool[i], k, now, life) && exists l <- links :: l.id == i
    ensures i < 0 ==> forall l <- links :: l.id < |pool| ==> !Matches(pool[l.id], k, now, life)
  {
    if links == [] then -1
    else if links[0].id < |pool| && Matches(pool[links[0].id], k, now, life) then links[0].id
    else FirstMatch(links[1..], pool, k, now, life)
  }

  /** The first entry of the LRU list that is not in progress, -1 when all are. */
  function FirstIdle(lru: seq<nat>, pool: seq<Entry>): (i: int)
    ensures i >= 0 ==> i < |pool| && i in lru && pool[i].state != InProg
    ensures i < 0 ==> forall j <- lru :: j < |pool| ==> pool[j].state == InProg
  {
    if lru == [] then -1
    else if lru[0] < |pool| && pool[lru[0]].state != InProg then lru[0]
    else FirstIdle(lru[1..], pool)
  }

  function Removed(lru: seq<nat>, i: nat): seq<nat> {
    if lru == [] then [] else if lru[0] == i then lru[1..] else [lru[0]] + Removed(lru[1..], i)
  }

  /** lru_put_end. */
  function ToEnd(lru: seq<nat>, i: nat): seq<nat> {
    Removed(lru, i) + [i]
  }

  /** A retransmission found entry i: its age starts again. */
  function Touch(c: Cache, i: nat, now: int): Cache
    requires i < |c.pool|
  {
    c.(pool := c.pool[i := c.pool[i].(time := now)], lru := ToEnd(c.lru, i))
  }

  /** What a found entry, as it was, tells the dispatcher. */
  function AnswerFrom(e: Entry, q: Call, now: int, delay: nat): Answer {
    if e.state == InProg || now - e.time < delay then DropIt
    else if !q.secure && e.secure then DoIt
    else match e.ctype
      case NoCache => DoIt
      case ReplStat => Reply(e.data)
      case ReplBuff => if |e.data| <= q.room then Reply(e.data) else DoIt
  }

  /** Entry i is taken over for a new call and filed under it; its place in the LRU list stays. */
  function Claim(c: Cache, i: nat, k: Key, now: int): Cache
    requires i < |c.pool|
  {
    c.(pool := c.pool[i := Entry(InProg, k, NoCache, c.pool[i].secure, now, [])],
       filed := [Link(i, k.xid)] + Unfiled(c.filed, i))
  }

  /** nfsd_cache_lookup; the last result is the entry the call now owns. */
  function Lookup(c: Cache, q: Call, now: int): (Cache, Answer, Option<nat>) {
    if c.disabled || q.ctype == NoCache then (c, DoIt, None)
    else
      var i := FirstMatch(c.filed, c.pool, q.key, now, c.Life());
      if i >= 0 then (Touch(c, i, now), AnswerFrom(c.pool[i], q, now, c.Delay()), None)
      else
        var j := FirstIdle(c.lru, c.pool);
        if j < 0 then
          (c.(complaints := c.complaints + 1, disabled := c.complaints + 1 > MAX_COMPLAINTS), DoIt, None)
        else (Claim(c, j, q.key, now), DoIt, Some(j))
  }

  // ---- updating ----

  /** How a call ended: the procedure's cache type, the reply words from the status on, none when
      the call was dropped or could not be encoded, and whether a buffer could be had. */
  datatype End = End(ctype: CType, statp: Option<seq<U32>>, secure: bool, mallocOk: bool)

  function StoredWords(r: End): seq<U32>
    requires r.statp.Some?
  {
    match r.ctype
    case NoCache => []
    case ReplStat => if r.statp.value == [] then [] else r.statp.value[..1]
    case ReplBuff => r.statp.value
  }

  predicate Cacheable(r: End) {
    r.statp.Some? && |r.statp.value| <= MAX_CACHED_WORDS && (r.ctype == ReplBuff ==> r.mallocOk)
  }

  /** nfsd_cache_update for the call that owns entry i. */
  function Update(c: Cache, i: nat, r: End, now: int): Cache
    requires i < |c.pool|
  {
    var e := c.pool[i];
    if c.disabled then c
    else if !Cacheable(r) then c.(pool := c.pool[i := e.(state := Unused)])
    else c.(pool := c.pool[i := e.(state := Done, ctype := r.ctype, secure := r.secure, time := now,
      data := StoredWords(r))],
            lru := ToEnd(c.lru, i))
  }

  // ---- runs ----

  /** The cache, the clock, and which call owns which entry. */
  datatype World = World(cache: Cache, owner: map<nat, Key>, now: int)

  datatype Event = Tick(jiffies: nat) | Arrive(q: Call) | Finish(i: nat, r: End)

  function Step(w: World, ev: Event): World {
    match ev
    case Tick(n) => w.(now := w.now + n)
    case Arrive(q) =>
      var (c, _, mine) := Lookup(w.cache, q, w.now);
      w.(cache := c, owner := if mine.Some? then w.owner[mine.value := q.key] else w.owner)
    case Finish(i, r) =>
      if i in w.owner && i < |w.cache.pool| then w.(cache := Update(w.cache, i, r, w.now), owner := w.owner - {i})
        else w
  }

  // ---- the invariant ----

  ghost predicate Covers(lru: seq<nat>, n: nat) {
    && |lru| == n
    && (forall k :: 0 <= k < |lru| ==> lru[k] < n)
    && (forall k, l :: 0 <= k < l < |lru| ==> lru[k] != lru[l])
    && (forall i: nat :: i < n ==> i in lru)
  }

  predicate UsedBefore(pool: seq<Entry>, i: nat, j: nat) {
    i < |pool| && j < |pool| && pool[i].state == Done && pool[j].state == Done ==> pool[i].time <= pool[j].time
  }

  /** Finished entries stand in the LRU list in the order they were last used. */
  ghost predicate Ordered(lru: seq<nat>, pool: seq<Entry>) {
    forall k, l :: 0 <= k < l < |lru| ==> UsedBefore(pool, lru[k], lru[l])
  }

  ghost predicate Filed(filed: seq<Link>, pool: seq<Entry>) {
    && (forall k :: 0 <= k < |filed| ==> filed[k].id < |pool| && pool[filed[k].id].key.xid == filed[k].xid)
    && (forall k, l :: 0 <= k < l < |filed| ==> filed[k].id != filed[l].id)
    && (forall i :: 0 <= i < |pool| && pool[i].state != Unused ==> exists l <- filed :: l.id == i)
  }

  ghost predicate Owned(c: Cache, owner: map<nat, Key>) {
    && (forall i <- owner :: i < |c.pool| && c.pool[i].state == InProg && c.pool[i].key == owner[i])
    && (!c.disabled ==> forall i :: 0 <= i < |c.pool| && c.pool[i].state == InProg ==> i in owner)
  }

  ghost predicate Past(pool: seq<Entry>, now: int) {
    forall i :: 0 <= i < |pool| && pool[i].state != Unused ==> pool[i].time <= now
  }

  ghost predicate Inv(w: World) {
    && Covers(w.cache.lru, |w.cache.pool|)
    && Ordered(w.cache.lru, w.cache.pool)
    && Filed(w.cache.filed, w.cache.pool)
    && Owned(w.cache, w.owner)
    && Past(w.cache.pool, w.now)
  }

  lemma {:induction false} RemovedCovers(lru: seq<nat>, i: nat)
    requires forall k, l :: 0 <= k < l < |lru| ==> lru[k] != lru[l]
    ensures forall k, l :: 0 <= k < l < |Removed(lru, i)| ==> Removed(lru, i)[k] != Removed(lru, i)[l]
    ensures forall k :: 0 <= k < |Removed(lru, i)| ==> Removed(lru, i)[k] in lru && Removed(lru, i)[k] != i
    ensures forall j <- lru :: j != i ==> j in Removed(lru, i)
    ensures i in lru ==> |Removed(lru, i)| == |lru| - 1
  {
    if lru != [] {
      RemovedCovers(lru[1..], i);
      if lru[0] != i {
        var r := Removed(lru[1..], i);
        forall k | 0 <= k < |r| ensures r[k] != lru[0] {
          var m :| 0 <= m < |lru[1..]| && lru[1..][m] == r[k];
          assert lru[m + 1] == r[k];
        }
        forall j | j in lru && j != i ensures j in [lru[0]] + r {
          assert j == lru[0] || j in lru[1..];
        }
      } else {
        forall j | j in lru && j != i ensures j in lru[1..] {
          assert j == lru[0] || j in lru[1..];
        }
      }
    }
  }

  lemma ToEndCovers(lru: seq<nat>, i: nat, n: nat)
    requires Covers(lru, n) && i < n
    ensures Covers(ToEnd(lru, i), n)
  {
    RemovedCovers(lru, i);
    var r := Removed(lru, i);
    forall k | 0 <= k < |r| ensures r[k] < n {
      var m :| 0 <= m < |lru| && lru[m] == r[k];
    }
  }

  /** Removing keeps the relative order: what stands before what in the rest stood so before. */
  lemma {:induction false} RemovedOrdered(lru: seq<nat>, i: nat, pool: seq<Entry>)
    requires Ordered(lru, pool)
    ensures Ordered(Removed(lru, i), pool)
  {
    if lru != [] && lru[0] != i {
      RemovedOrdered(lru[1..], i, pool);
      var r := Removed(lru[1..], i);
      RemovedSubset(lru[1..], i);
      forall l | 0 <= l < |r| ensures UsedBefore(pool, lru[0], r[l]) {
        assert r[l] in lru[1..];
        var m :| 0 <= m < |lru[1..]| && lru[1..][m] == r[l];
        assert lru[m + 1] == r[l];
      }
    }
  }

  lemma {:induction false} RemovedSubset(lru: seq<nat>, i: nat)
    ensures forall j <- Removed(lru, i) :: j in lru
  {
    if lru != [] && lru[0] != i {
      RemovedSubset(lru[1..], i);
    }
  }

  lemma EndOrdered(lru: seq<nat>, pool: seq<Entry>, i: nat, e: Entry)
    requires Covers(lru, |pool|) && Ordered(lru, pool) && i < |pool| && Past(pool, e.time)
    ensures Ordered(ToEnd(lru, i), pool[i := e])
  {
    RemovedCovers(lru, i);
    RemovedOrdered(lru, i, pool);
    var r := Removed(lru, i);
    assert forall k :: 0 <= k < |r| ==> r[k] != i;
    forall k, l | 0 <= k < l < |r| ensures UsedBefore(pool[i := e], r[k], r[l]) {
      assert UsedBefore(pool, r[k], r[l]);
    }
  }

  lemma BusyOrdered(lru: seq<nat>, pool: seq<Entry>, i: nat, e: Entry)
    requires Ordered(lru, pool) && i < |pool| && e.state != Done
    ensures Ordered(lru, pool[i := e])
  {
    forall k, l | 0 <= k < l < |lru| ensures UsedBefore(pool[i := e], lru[k], lru[l]) {
      assert UsedBefore(pool, lru[k], lru[l]);
    }
  }

  /** A change of an entry that keeps its key, and frees it or leaves it in use. */
  lemma SameFiled(filed: seq<Link>, pool: seq<Entry>, i: nat, e: Entry)
    requires Filed(filed, pool) && i < |pool| && e.key == pool[i].key && (e.state != Unused ==> pool[i].state != Unused)
    ensures Filed(filed, pool[i := e])
  {
  }

  lemma {:induction false} UnfiledMembers(filed: seq<Link>, i: nat)
    requires forall k, l :: 0 <= k < l < |filed| ==> filed[k].id != filed[l].id
    ensures forall k, l :: 0 <= k < l < |Unfiled(filed, i)| ==> Unfiled(filed, i)[k].id != Unfiled(filed, i)[l].id
    ensures forall k :: 0 <= k < |Unfiled(filed, i)| ==> Unfiled(filed, i)[k] in filed && Unfiled(filed, i)[k].id != i
    ensures forall l <- filed :: l.id != i ==> l in Unfiled(filed, i)
  {
    if filed != [] {
      UnfiledMembers(filed[1..], i);
      var r := Unfiled(filed[1..], i);
      forall k | 0 <= k < |r| ensures r[k].id != filed[0].id {
        var m :| 0 <= m < |filed[1..]| && filed[1..][m] == r[k];
        assert filed[m + 1] == r[k];
      }
      forall l | l in filed && l.id != i ensures l in Unfiled(filed, i) {
        assert l == filed[0] || l in filed[1..];
      }
    }
  }

  lemma RefiledFiled(filed: seq<Link>, pool: seq<Entry>, i: nat, e: Entry)
    requires Filed(filed, pool) && i < |pool|
    ensures Filed([Link(i, e.key.xid)] + Unfiled(filed, i), pool[i := e])
  {
    UnfiledMembers(filed, i);
    var r := Unfiled(filed, i);
    var links, after := [Link(i, e.key.xid)] + r, pool[i := e];
    forall k | 0 <= k < |r| ensures r[k].id < |pool| && r[k].id != i && pool[r[k].id].key.xid == r[k].xid {
      var m :| 0 <= m < |filed| && filed[m] == r[k];
    }
    forall j | 0 <= j < |pool| && after[j].state != Unused ensures exists l <- links :: l.id == j {
      if j == i {
        assert links[0] in links;
      } else {
        var l :| l in filed && l.id == j;
        assert l in links;
      }
    }
  }

  lemma TouchKeeps(w: World, i: nat)
    requires Inv(w) && i < |w.cache.pool| && w.cache.pool[i].state != Unused
    ensures Inv(w.(cache := Touch(w.cache, i, w.now)))
  {
    var e := w.cache.pool[i].(time := w.now);
    ToEndCovers(w.cache.lru, i, |w.cache.pool|);
    EndOrdered(w.cache.lru, w.cache.pool, i, e);
    SameFiled(w.cache.filed, w.cache.pool, i, e);
  }

  lemma ClaimKeeps(w: World, i: nat, k: Key)
    requires Inv(w) && i < |w.cache.pool| && w.cache.pool[i].state != InProg
    ensures Inv(w.(cache := Claim(w.cache, i, k, w.now), owner := w.owner[i := k]))
  {
    var e := Entry(InProg, k, NoCache, w.cache.pool[i].secure, w.now, []);
    BusyOrdered(w.cache.lru, w.cache.pool, i, e);
    RefiledFiled(w.cache.filed, w.cache.pool, i, e);
  }

  lemma LookupKeeps(w: World, q: Call)
    requires Inv(w)
    ensures Inv(Step(w, Arrive(q)))
  {
    var c := w.cache;
    if !c.disabled && q.ctype != NoCache {
      var i := FirstMatch(c.filed, c.pool, q.key, w.now, c.Life());
      var j := FirstIdle(c.lru, c.pool);
      if i >= 0 {
        TouchKeeps(w, i);
      } else if j >= 0 {
        ClaimKeeps(w, j, q.key);
      }
    }
  }

  lemma GivenUpKeeps(w: World, i: nat)
    requires Inv(w) && i in w.owner && i < |w.cache.pool|
    ensures var c := w.cache;
      Inv(w.(cache := c.(pool := c.pool[i := c.pool[i].(state := Unused)]), owner := w.owner - {i}))
  {
    var c, e := w.cache, w.cache.pool[i].(state := Unused);
    BusyOrdered(c.lru, c.pool, i, e);
    SameFiled(c.filed, c.pool, i, e);
  }

  lemma StoredKeeps(w: World, i: nat, d: Entry)
    requires Inv(w) && i in w.owner && i < |w.cache.pool|
    requires d.state == Done && d.key == w.cache.pool[i].key && d.time == w.now
    ensures var c := w.cache;
      Inv(w.(cache := c.(pool := c.pool[i := d], lru := ToEnd(c.lru, i)), owner := w.owner - {i}))
  {
    var c := w.cache;
    ToEndCovers(c.lru, i, |c.pool|);
    EndOrdered(c.lru, c.pool, i, d);
    SameFiled(c.filed, c.pool, i, d);
  }

  lemma FinishKeeps(w: World, i: nat, r: End)
    requires Inv(w) && i in w.owner && i < |w.cache.pool|
    ensures Inv(Step(w, Finish(i, r)))
  {
    var e := w.cache.pool[i];
    if !w.cache.disabled {
      if Cacheable(r) {
        StoredKeeps(w, i,
          e.(state := Done, ctype := r.ctype, secure := r.secure, time := w.now, data := StoredWords(r)));
      } else {
        GivenUpKeeps(w, i);
      }
    }
  }

  lemma StepKeeps(w: World, ev: Event)
    requires Inv(w)
    ensures Inv(Step(w, ev))
  {
    match ev
    case Tick(_) =>
    case Arrive(q) => LookupKeeps(w, q);
    case Finish(i, r) => if i in w.owner { FinishKeeps(w, i, r); }
  }

  /** nfsd_reply_cache_init. */
  function NewCache(hz: nat): Cache {
    Cache(hz, false, 0, seq(CACHESIZE, _ => Entry(Unused, Key(0, 0, 0, 0, 0), NoCache, false, 0, [])),
          seq(CACHESIZE, i => i), [])
  }

  lemma NewCacheInv(hz: nat)
    ensures Inv(World(NewCache(hz), map[], 0))
  {
    var c := NewCache(hz);
    forall i: nat | i < CACHESIZE ensures i in c.lru {
      assert c.lru[i] == i;
    }
  }

  function Run(w: World, evs: seq<Event>): World
    decreases |evs|
  {
    if evs == [] then w else Run(Step(w, evs[0]), evs[1..])
  }

  lemma {:induction false} RunKeeps(w: World, evs: seq<Event>)
    requires Inv(w)
    ensures Inv(Run(w, evs))
    decreases |evs|
  {
    if evs != [] {
      StepKeeps(w, evs[0]);
      RunKeeps(Step(w, evs[0]), evs[1..]);
    }
  }

  // ---- what the calls can rely on ----

  /** Hashing loses nothing: the chain a call hashes to gives the first match of all links, and
      there is one exactly when some entry of the pool matches. */
  lemma ChainSearchIsPoolScan(c: Cache, k: Key, now: int)
    requires Filed(c.filed, c.pool)
    ensures FirstMatch(Chain(c.filed, RequestHash(k.xid)), c.pool, k, now, c.Life())
      == FirstMatch(c.filed, c.pool, k, now, c.Life())
    ensures FirstMatch(c.filed, c.pool, k, now, c.Life()) >= 0 <==> exists e <- c.pool :: Matches(e, k, now, c.Life())
  {
    ChainSearch(c.filed, c.pool, k, now, c.Life());
    var i := FirstMatch(c.filed, c.pool, k, now, c.Life());
    if i >= 0 {
      assert c.pool[i] in c.pool;
    }
    if e :| e in c.pool && Matches(e, k, now, c.Life()) {
      var j :| 0 <= j < |c.pool| && c.pool[j] == e;
      assert exists l <- c.filed :: l.id == j;
    }
  }

  lemma {:induction false} ChainSearch(filed: seq<Link>, pool: seq<Entry>, k: Key, now: int, life: nat)
    requires forall l :: 0 <= l < |filed| ==> filed[l].id < |pool| && pool[filed[l].id].key.xid == filed[l].xid
    ensures FirstMatch(Chain(filed, RequestHash(k.xid)), pool, k, now, life) == FirstMatch(filed, pool, k, now, life)
  {
    if filed != [] {
      var rest := Chain(filed[1..], RequestHash(k.xid));
      ChainSearch(filed[1..], pool, k, now, life);
      assert ([filed[0]] + rest)[1..] == rest;
    }
  }

  /** The entry a new call takes over is not in progress, and if it holds a finished reply, that
      is the one least recently used of all finished ones. */
  lemma EvictsLeastRecent(w: World, q: Call)
    requires Inv(w) && Lookup(w.cache, q, w.now).2.Some?
    ensures var i := Lookup(w.cache, q, w.now).2.value;
      && i < |w.cache.pool| && w.cache.pool[i].state != InProg && i !in w.owner
      && (w.cache.pool[i].state == Done ==>
            forall e <- w.cache.pool :: e.state == Done ==> w.cache.pool[i].time <= e.time)
  {
    var c := w.cache;
    var i := FirstIdle(c.lru, c.pool);
    if c.pool[i].state == Done {
      forall e | e in c.pool && e.state == Done ensures c.pool[i].time <= e.time {
        var j :| 0 <= j < |c.pool| && c.pool[j] == e;
        assert j in c.lru;
        IdleBefore(c.lru, c.pool, j);
      }
    }
  }

  lemma {:induction false} IdleBefore(lru: seq<nat>, pool: seq<Entry>, j: nat)
    requires Ordered(lru, pool) && j in lru && j < |pool| && pool[j].state == Done
    ensures FirstIdle(lru, pool) >= 0 && UsedBefore(pool, FirstIdle(lru, pool), j)
  {
    if lru[0] < |pool| && pool[lru[0]].state != InProg {
      var m :| 0 <= m < |lru| && lru[m] == j;
      if m > 0 { assert UsedBefore(pool, lru[0], lru[m]); }
    } else {
      assert j in lru[1..];
      forall k, l | 0 <= k < l < |lru[1..]| ensures UsedBefore(pool, lru[1..][k], lru[1..][l]) {
        assert UsedBefore(pool, lru[k + 1], lru[l + 1]);
      }
      IdleBefore(lru[1..], pool, j);
    }
  }

  /** An entry in progress stays with the call that claimed it until that call ends. */
  lemma InProgressIsOwned(w: World, ev: Event, i: nat)
    requires Inv(w) && i in w.owner && !(ev.Finish? && ev.i == i)
    ensures var v := Step(w, ev);
      i in v.owner && v.owner[i] == w.owner[i] && i < |v.cache.pool| && v.cache.pool[i].state == InProg
      && v.cache.pool[i].key == w.cache.pool[i].key
  {
    StepKeeps(w, ev);
    if ev.Arrive? && Lookup(w.cache, ev.q, w.now).2.Some? { EvictsLeastRecent(w, ev.q); }
  }

  /** Entry i answers for its key at this moment. */
  predicate Current(c: Cache, i: nat, now: int) {
    i < |c.pool| && c.pool[i].state != Unused && now < c.pool[i].time + c.Life()
  }

  /** At most one entry answers for key k. */
  ghost predicate KeyedFor(w: World, k: Key) {
    forall i: nat, j: nat ::
      Current(w.cache, i, w.now) && Current(w.cache, j, w.now) && w.cache.pool[i].key == w.cache.pool[j].key == k ==>
        i == j
  }

  /** The cache is a map from keys to entries. */
  ghost predicate KeyedMap(w: World) {
    forall k: Key :: KeyedFor(w, k)
  }

  /** A call for key k ends whose entry has been superseded by another current one. */
  ghost predicate Revives(w: World, ev: Event, k: Key) {
    && ev.Finish? && ev.i in w.owner && ev.i < |w.cache.pool| && !w.cache.disabled && Cacheable(ev.r)
    && w.cache.pool[ev.i].key == k
    && exists j: nat :: Current(w.cache, j, w.now) && j != ev.i && w.cache.pool[j].key == k
  }

  lemma TouchKeyed(w: World, i: nat, k: Key)
    requires KeyedFor(w, k) && Current(w.cache, i, w.now)
    ensures KeyedFor(w.(cache := Touch(w.cache, i, w.now)), k)
  {
    var c := Touch(w.cache, i, w.now);
    assert forall j: nat :: Current(c, j, w.now) ==> Current(w.cache, j, w.now) && c.pool[j].key == w.cache.pool[j].key;
  }

  lemma ClaimKeyed(w: World, i: nat, claimed: Key, k: Key)
    requires KeyedFor(w, k) && i < |w.cache.pool|
    requires forall j: nat :: Current(w.cache, j, w.now) ==> w.cache.pool[j].key != claimed
    ensures KeyedFor(w.(cache := Claim(w.cache, i, claimed, w.now)), k)
  {
    var c := Claim(w.cache, i, claimed, w.now);
    assert forall j: nat :: Current(c, j, w.now) && j != i ==>
      Current(w.cache, j, w.now) && c.pool[j] == w.cache.pool[j];
  }

  lemma ArriveKeyed(w: World, q: Call, k: Key)
    requires Inv(w) && KeyedFor(w, k)
    ensures KeyedFor(Step(w, Arrive(q)), k)
  {
    var c := w.cache;
    if !c.disabled && q.ctype != NoCache {
      ChainSearchIsPoolScan(c, q.key, w.now);
      var i := FirstMatch(c.filed, c.pool, q.key, w.now, c.Life());
      var j := FirstIdle(c.lru, c.pool);
      if i >= 0 {
        TouchKeyed(w, i, k);
      } else if j >= 0 {
        forall m: nat | Current(c, m, w.now) ensures c.pool[m].key != q.key {
          assert c.pool[m] in c.pool;
        }
        ClaimKeyed(w, j, q.key, k);
      }
    }
  }

  lemma FinishKeyed(w: World, i: nat, r: End, k: Key)
    requires Inv(w) && KeyedFor(w, k) && i in w.owner && i < |w.cache.pool|
    ensures KeyedFor(Step(w, Finish(i, r)), k) <==> !Revives(w, Finish(i, r), k)
  {
    var c := w.cache;
    var v := Step(w, Finish(i, r));
    if Revives(w, Finish(i, r), k) {
      var j: nat :| Current(c, j, w.now) && j != i && c.pool[j].key == k;
      assert Current(v.cache, j, v.now) && Current(v.cache, i, v.now);
    } else {
      forall m: nat | Current(v.cache, m, v.now) && m != i ensures Current(c, m, w.now) {
      }
    }
  }

  /** At most one current entry for a key: every event keeps it so, except the end of a call for
      that key which outlived its entry's 120 seconds while a retransmission claimed another; and
      that one always breaks it. What happens to other keys does not matter. */
  lemma StepKeyedFor(w: World, ev: Event, k: Key)
    requires Inv(w) && KeyedFor(w, k)
    ensures KeyedFor(Step(w, ev), k) <==> !Revives(w, ev, k)
  {
    match ev
    case Tick(n) =>
      assert forall i: nat :: Current(w.cache, i, w.now + n) ==> Current(w.cache, i, w.now);
    case Arrive(q) => ArriveKeyed(w, q, k);
    case Finish(i, r) => if i in w.owner && i < |w.cache.pool| { FinishKeyed(w, i, r, k); }
  }

  ghost predicate EverRevives(w: World, evs: seq<Event>, k: Key)
    decreases |evs|
  {
    evs != [] && (Revives(w, evs[0], k) || EverRevives(Step(w, evs[0]), evs[1..], k))
  }

  lemma {:induction false} RunKeyedFor(w: World, evs: seq<Event>, k: Key)
    requires Inv(w) && KeyedFor(w, k) && !EverRevives(w, evs, k)
    ensures Inv(Run(w, evs)) && KeyedFor(Run(w, evs), k)
    decreases |evs|
  {
    if evs != [] {
      StepKeeps(w, evs[0]);
      StepKeyedFor(w, evs[0], k);
      RunKeyedFor(Step(w, evs[0]), evs[1..], k);
    }
  }

  /** Over every run of a fresh cache in which no superseded call ends, the cache is a keyed map;
      and every entry in progress has exactly one owner, unless the cache was disabled. */
  lemma CacheIsKeyedMap(start: World, evs: seq<Event>)
    requires start == World(NewCache(start.cache.hz), map[], 0)
    requires forall k: Key :: !EverRevives(start, evs, k)
    ensures KeyedMap(Run(start, evs)) && Inv(Run(start, evs))
  {
    NewCacheInv(start.cache.hz);
    RunKeeps(start, evs);
    forall k: Key ensures KeyedFor(Run(start, evs), k) {
      RunKeyedFor(start, evs, k);
    }
  }

  /** That does happen: a call, a retransmission 120 seconds later, and then the end of the first. */
  lemma LateFinishDuplicates(hz: nat, k: Key, r: End)
    requires hz > 0 && Cacheable(r)
    ensures var q := Call(k, ReplStat, true, 0);
      var w1 := Step(Step(World(NewCache(hz), map[], 0), Arrive(q)), Tick(120 * hz));
      var w2 := Step(Step(w1, Arrive(q)), Finish(0, r));
      Current(w2.cache, 0, w2.now) && Current(w2.cache, 1, w2.now)
      && w2.cache.pool[0].key == w2.cache.pool[1].key == k && !KeyedFor(w2, k)
  {
    var q := Call(k, ReplStat, true, 0);
    var w0 := World(NewCache(hz), map[], 0);
    assert w0.cache.lru[0] == 0 && w0.cache.lru[1..][0] == 1;
    var w1 := Step(w0, Arrive(q));
    assert w1.cache.pool[0] == Entry(InProg, k, NoCache, false, 0, []);
    assert w1.cache.filed == [Link(0, k.xid)] && w1.owner == map[0 := k];
    var w2 := Step(w1, Tick(120 * hz));
    assert [Link(0, k.xid)][1..] == [];
    assert FirstMatch(w2.cache.filed, w2.cache.pool, k, w2.now, w2.cache.Life()) == -1;
    assert FirstIdle(w2.cache.lru, w2.cache.pool) == 1;
    var w3 := Step(w2, Arrive(q));
    assert w3.cache.pool[1] == Entry(InProg, k, NoCache, false, 120 * hz, []);
    assert w3.cache.pool[0] == w1.cache.pool[0] && 0 in w3.owner;
    var w4 := Step(w3, Finish(0, r));
    assert Current(w4.cache, 0, w4.now) && Current(w4.cache, 1, w4.now);
  }

  /** In every state, a retransmission for whose key some entry is current claims nothing and is
      answered from a current entry for that key, even where superseded calls have left several. */
  lemma RetransmissionFindsEntry(w: World, q: Call, i: nat) returns (j: nat)
    requires Inv(w) && Current(w.cache, i, w.now) && w.cache.pool[i].key == q.key
    requires !w.cache.disabled && q.ctype != NoCache
    ensures Current(w.cache, j, w.now) && w.cache.pool[j].key == q.key
    ensures Lookup(w.cache, q, w.now).2 == None
    ensures Lookup(w.cache, q, w.now).1 == AnswerFrom(w.cache.pool[j], q, w.now, w.cache.Delay())
  {
    var c := w.cache;
    ChainSearchIsPoolScan(c, q.key, w.now);
    assert c.pool[i] in c.pool && Matches(c.pool[i], q.key, w.now, c.Life());
    j := FirstMatch(c.filed, c.pool, q.key, w.now, c.Life());
  }

  /** A retransmission with a current entry claims nothing, and is executed again only if it comes
      from an unprivileged port for a reply to a privileged one, if nothing was stored, or if the
      stored words do not fit. */
  lemma RetransmissionAnswer(w: World, q: Call, i: nat)
    requires Inv(w) && KeyedFor(w, q.key) && Current(w.cache, i, w.now) && w.cache.pool[i].key == q.key
    requires !w.cache.disabled && q.ctype != NoCache
    ensures var (c, a, mine) := Lookup(w.cache, q, w.now); var e := w.cache.pool[i];
      && mine == None
      && (a == DropIt <==> e.state == InProg || w.now - e.time < w.cache.Delay())
      && (a.Reply? ==> a.data == e.data)
      && (a == DoIt <==> (
            && e.state == Done && w.now - e.time >= w.cache.Delay()
            && ((!q.secure && e.secure) || e.ctype == NoCache || (e.ctype == ReplBuff && |e.data| > q.room))))
  {
    var j := RetransmissionFindsEntry(w, q, i);
    assert j == i;
  }

  // ---- no finished call is repeated ----

  /** Along the run nothing takes over entry i, and no superseded call for key k ends. */
  ghost predicate Undisturbed(w: World, evs: seq<Event>, i: nat, k: Key)
    decreases |evs|
  {
    evs == [] || (
      && !(evs[0].Arrive? && Lookup(w.cache, evs[0].q, w.now).2 == Some(i))
      && !Revives(w, evs[0], k)
      && Undisturbed(Step(w, evs[0]), evs[1..], i, k))
  }

  lemma StepKeepsReply(w: World, ev: Event, i: nat)
    requires Inv(w) && i < |w.cache.pool| && w.cache.pool[i].state == Done
    requires !(ev.Arrive? && Lookup(w.cache, ev.q, w.now).2 == Some(i))
    ensures var p := Step(w, ev).cache.pool; i < |p| && p[i] == w.cache.pool[i].(time := p[i].time)
    ensures Step(w, ev).cache.hz == w.cache.hz
  {
  }

  lemma {:induction false} RunKeepsReply(w: World, evs: seq<Event>, i: nat, k: Key)
    requires Inv(w) && KeyedFor(w, k) && i < |w.cache.pool| && w.cache.pool[i].state == Done
      && Undisturbed(w, evs, i, k)
    ensures Inv(Run(w, evs)) && KeyedFor(Run(w, evs), k)
    ensures var p := Run(w, evs).cache.pool; i < |p| && p[i] == w.cache.pool[i].(time := p[i].time)
    decreases |evs|
  {
    if evs != [] {
      StepKeeps(w, evs[0]);
      StepKeyedFor(w, evs[0], k);
      StepKeepsReply(w, evs[0], i);
      RunKeepsReply(Step(w, evs[0]), evs[1..], i, k);
    }
  }

  /** A call ends with a cacheable reply r. However the run goes on, as long as its entry is
      neither taken over nor out of date, nor its key duplicated, a retransmission with the same
      port security is dropped or answered with the stored words, never executed. */
  lemma FinishedCallNotRepeated(w: World, i: nat, r: End, evs: seq<Event>, q: Call)
    requires Inv(w) && KeyedFor(w, q.key) && i in w.owner && i < |w.cache.pool| && !w.cache.disabled
    requires Cacheable(r) && r.ctype != NoCache && Undisturbed(w, [Finish(i, r)] + evs, i, q.key)
    requires q.key == w.owner[i] && q.ctype != NoCache && (r.secure ==> q.secure) && |StoredWords(r)| <= q.room
    requires var v := Run(Step(w, Finish(i, r)), evs); Current(v.cache, i, v.now) && !v.cache.disabled
    ensures var v := Run(Step(w, Finish(i, r)), evs);
      Lookup(v.cache, q, v.now).1 in {DropIt, Reply(StoredWords(r))} && Lookup(v.cache, q, v.now).2 == None
  {
    var u := Step(w, Finish(i, r));
    assert ([Finish(i, r)] + evs)[1..] == evs;
    FinishKeeps(w, i, r);
    StepKeyedFor(w, Finish(i, r), q.key);
    RunKeepsReply(u, evs, i, q.key);
    RetransmissionAnswer(Run(u, evs), q, i);
  }

  // ---- how long a stored reply lasts ----

  predicate Idle(pool: seq<Entry>, i: nat) {
    i < |pool| && pool[i].state != InProg
  }

  /** How many entries stand before i in the LRU list and are not in progress: they are taken over first. */
  function IdleAhead(lru: seq<nat>, pool: seq<Entry>, i: nat): nat {
    if lru == [] || lru[0] == i then 0 else (if Idle(pool, lru[0]) then 1 else 0) + IdleAhead(lru[1..], pool, i)
  }

  lemma {:induction false} FirstIdleAhead(lru: seq<nat>, pool: seq<Entry>, i: nat)
    requires i in lru && Idle(pool, i)
    ensures FirstIdle(lru, pool) >= 0
    ensures FirstIdle(lru, pool) == i <==> IdleAhead(lru, pool, i) == 0
  {
    if lru[0] != i && !Idle(pool, lru[0]) {
      assert i in lru[1..];
      FirstIdleAhead(lru[1..], pool, i);
    }
  }

  lemma {:induction false} MoreIdle(lru: seq<nat>, pool: seq<Entry>, after: seq<Entry>, i: nat)
    requires forall j <- lru :: Idle(pool, j) ==> Idle(after, j)
    ensures IdleAhead(lru, after, i) >= IdleAhead(lru, pool, i)
  {
    if lru != [] && lru[0] != i {
      MoreIdle(lru[1..], pool, after, i);
    }
  }

  /** One entry, which the list holds once, becomes busy. */
  lemma {:induction false} OneBusier(lru: seq<nat>, pool: seq<Entry>, j: nat, e: Entry, i: nat)
    requires j < |pool| && forall k, l :: 0 <= k < l < |lru| ==> lru[k] != lru[l]
    ensures IdleAhead(lru, pool[j := e], i) >= IdleAhead(lru, pool, i) - 1
  {
    if lru != [] && lru[0] != i {
      if lru[0] == j {
        forall m | m in lru[1..] ensures m != j {
          var k :| 0 <= k < |lru[1..]| && lru[1..][k] == m;
          assert lru[k + 1] == m;
        }
        MoreIdle(lru[1..], pool, pool[j := e], i);
      } else {
        OneBusier(lru[1..], pool, j, e, i);
      }
    }
  }

  lemma {:induction false} AheadOfMore(l: seq<nat>, m: seq<nat>, pool: seq<Entry>, i: nat)
    ensures IdleAhead(l + m, pool, i) >= IdleAhead(l, pool, i)
  {
    if l != [] && l[0] != i {
      assert (l + m)[1..] == l[1..] + m;
      AheadOfMore(l[1..], m, pool, i);
    }
  }

  lemma {:induction false} AheadWithout(lru: seq<nat>, pool: seq<Entry>, j: nat, i: nat)
    ensures IdleAhead(Removed(lru, j), pool, i) >= IdleAhead(lru, pool, i) - if Idle(pool, j) && j != i then 1 else 0
  {
    if lru != [] && lru[0] != j && lru[0] != i {
      AheadWithout(lru[1..], pool, j, i);
      assert ([lru[0]] + Removed(lru[1..], j))[1..] == Removed(lru[1..], j);
    }
  }

  /** Entry j moves to the end of the list and ends up idle: i loses at most the one place it had. */
  lemma MovedAway(lru: seq<nat>, pool: seq<Entry>, j: nat, e: Entry, i: nat)
    requires j < |pool| && (pool[j].state != InProg ==> e.state != InProg)
    ensures IdleAhead(ToEnd(lru, j), pool[j := e], i) >= IdleAhead(lru, pool, i) - if Idle(pool, j) && j != i then 1
      else 0
  {
    AheadWithout(lru, pool, j, i);
    AheadOfMore(Removed(lru, j), [j], pool, i);
    MoreIdle(ToEnd(lru, j), pool, pool[j := e], i);
  }

  /** Which call takes over entry i: one that claims an entry at all when no idle one stands before it. */
  lemma TakenExactly(w: World, q: Call, i: nat)
    requires Inv(w) && Idle(w.cache.pool, i)
    ensures Lookup(w.cache, q, w.now).2 == Some(i) <==>
      Lookup(w.cache, q, w.now).2.Some? && IdleAhead(w.cache.lru, w.cache.pool, i) == 0
  {
    FirstIdleAhead(w.cache.lru, w.cache.pool, i);
  }

  /** No other entry for key k is in progress, or current. */
  ghost predicate Alone(w: World, i: nat, k: Key) {
    forall j: nat :: j < |w.cache.pool| && j != i && w.cache.pool[j].key == k ==>
      w.cache.pool[j].state != InProg && !Current(w.cache, j, w.now)
  }

  /** Entry i holds the finished reply for key k. */
  ghost predicate Stores(w: World, i: nat, k: Key) {
    && Inv(w) && !w.cache.disabled && i < |w.cache.pool|
    && w.cache.pool[i].state == Done && w.cache.pool[i].key == k && Alone(w, i, k)
  }

  /** Entry i of v is that of w, perhaps touched since. */
  predicate SameReply(w: World, v: World, i: nat) {
    && i < |w.cache.pool| == |v.cache.pool| && w.cache.hz == v.cache.hz && w.now <= v.now
    && v.cache.pool[i] == w.cache.pool[i].(time := v.cache.pool[i].time) && w.cache.pool[i].time <= v.cache.pool[i].time
  }

  function Ahead(w: World, i: nat): nat {
    IdleAhead(w.cache.lru, w.cache.pool, i)
  }

  lemma TickStores(w: World, n: nat, i: nat, k: Key)
    requires Stores(w, i, k)
    ensures Stores(Step(w, Tick(n)), i, k) && SameReply(w, Step(w, Tick(n)), i)
      && Ahead(Step(w, Tick(n)), i) == Ahead(w, i)
  {
    StepKeeps(w, Tick(n));
    var v := Step(w, Tick(n));
    assert forall j: nat :: Current(v.cache, j, v.now) ==> Current(w.cache, j, w.now);
  }

  lemma TouchStores(w: World, q: Call, j: nat, i: nat, k: Key)
    requires Stores(w, i, k) && Inv(Step(w, Arrive(q)))
    requires j < |w.cache.pool| && Current(w.cache, j, w.now)
      && Step(w, Arrive(q)) == w.(cache := Touch(w.cache, j, w.now))
    ensures var v := Step(w, Arrive(q)); Stores(v, i, k) && SameReply(w, v, i) && Ahead(v, i) >= Ahead(w, i) - 1
  {
    MovedAway(w.cache.lru, w.cache.pool, j, w.cache.pool[j].(time := w.now), i);
  }

  lemma ClaimStores(w: World, q: Call, j: nat, i: nat, k: Key)
    requires Stores(w, i, k) && Inv(Step(w, Arrive(q))) && j < |w.cache.pool| && j != i && q.key != k
    requires Step(w, Arrive(q)) == w.(cache := Claim(w.cache, j, q.key, w.now), owner := w.owner[j := q.key])
    ensures var v := Step(w, Arrive(q)); Stores(v, i, k) && SameReply(w, v, i) && Ahead(v, i) >= Ahead(w, i) - 1
  {
    OneBusier(w.cache.lru, w.cache.pool, j, Entry(InProg, q.key, NoCache, w.cache.pool[j].secure, w.now, []), i);
  }

  /** Each arriving call costs a stored, current reply at most one place. */
  lemma ArriveStores(w: World, q: Call, i: nat, k: Key)
    requires Stores(w, i, k) && Current(w.cache, i, w.now) && Ahead(w, i) > 0
    ensures var v := Step(w, Arrive(q)); Stores(v, i, k) && SameReply(w, v, i) && Ahead(v, i) >= Ahead(w, i) - 1
  {
    var c := w.cache;
    StepKeeps(w, Arrive(q));
    if !c.disabled && q.ctype != NoCache {
      ChainSearchIsPoolScan(c, q.key, w.now);
      FirstIdleAhead(c.lru, c.pool, i);
      var m := FirstMatch(c.filed, c.pool, q.key, w.now, c.Life());
      var j := FirstIdle(c.lru, c.pool);
      if m >= 0 {
        TouchStores(w, q, m, i, k);
      } else {
        assert c.pool[i] in c.pool;
        ClaimStores(w, q, j, i, k);
      }
    }
  }

  /** The end of another call costs it none. */
  lemma FinishStores(w: World, j: nat, r: End, i: nat, k: Key)
    requires Stores(w, i, k)
    ensures var v := Step(w, Finish(j, r)); Stores(v, i, k) && SameReply(w, v, i) && Ahead(v, i) >= Ahead(w, i)
  {
    var c := w.cache;
    StepKeeps(w, Finish(j, r));
    if j in w.owner && j < |c.pool| {
      var e := c.pool[j];
      if Cacheable(r) {
        var d := e.(state := Done, ctype := r.ctype, secure := r.secure, time := w.now, data := StoredWords(r));
        MovedAway(c.lru, c.pool, j, d, i);
      } else {
        MoreIdle(c.lru, c.pool, c.pool[j := e.(state := Unused)], i);
      }
    }
  }

  function Arrivals(evs: seq<Event>): nat {
    if evs == [] then 0 else (if evs[0].Arrive? then 1 else 0) + Arrivals(evs[1..])
  }

  lemma {:induction false} RunClock(w: World, evs: seq<Event>)
    ensures Run(w, evs).now >= w.now
    decreases |evs|
  {
    if evs != [] { RunClock(Step(w, evs[0]), evs[1..]); }
  }

  lemma SameReplyTrans(u: World, v: World, w: World, i: nat)
    requires SameReply(u, v, i) && SameReply(v, w, i)
    ensures SameReply(u, w, i)
  {
  }

  /** A stored reply outlives every run that stays within its time and brings at most as many calls as
      there are idle entries before it. */
  lemma {:induction false} StoredReplyLasts(w: World, evs: seq<Event>, i: nat, k: Key)
    requires Stores(w, i, k) && Arrivals(evs) <= Ahead(w, i)
    requires Run(w, evs).now < w.cache.pool[i].time + w.cache.Life()
    ensures Stores(Run(w, evs), i, k) && SameReply(w, Run(w, evs), i)
    decreases |evs|
  {
    if evs != [] {
      var v := Step(w, evs[0]);
      RunClock(w, evs);
      match evs[0] {
        case Tick(n) => TickStores(w, n, i, k);
        case Arrive(q) => ArriveStores(w, q, i, k);
        case Finish(j, r) => FinishStores(w, j, r, i, k);
      }
      StoredReplyLasts(v, evs[1..], i, k);
      SameReplyTrans(w, v, Run(v, evs[1..]), i);
    }
  }

  /** How many entries of a list are in progress. */
  function BusyIn(l: seq<nat>, pool: seq<Entry>): nat {
    if l == [] then 0 else (if Idle(pool, l[0]) then 0 else 1) + BusyIn(l[1..], pool)
  }

  lemma {:induction false} AheadAtEnd(l: seq<nat>, pool: seq<Entry>, i: nat)
    requires i !in l
    ensures IdleAhead(l + [i], pool, i) == |l| - BusyIn(l, pool)
  {
    if l != [] {
      assert (l + [i])[1..] == l[1..] + [i];
      AheadAtEnd(l[1..], pool, i);
    }
  }

  lemma {:induction false} BusyCount(l: seq<nat>, pool: seq<Entry>, busy: set<nat>)
    requires forall k, m :: 0 <= k < m < |l| ==> l[k] != l[m]
    requires forall j: nat :: j in busy <==> j in l && !Idle(pool, j)
    ensures BusyIn(l, pool) == |busy|
  {
    if l == [] {
      assert busy == {};
    } else {
      forall j | j in l[1..] ensures j != l[0] {
        var m :| 0 <= m < |l[1..]| && l[1..][m] == j;
        assert l[m + 1] == j;
      }
      BusyCount(l[1..], pool, busy - {l[0]});
      assert l[0] in busy ==> busy == (busy - {l[0]}) + {l[0]};
      assert l[0] !in busy ==> busy == busy - {l[0]};
    }
  }

  lemma AheadOfLast(lru: seq<nat>, pool: seq<Entry>, i: nat, busy: set<nat>)
    requires Covers(lru, |pool|) && Idle(pool, i)
    requires forall j: nat :: j in busy <==> j < |pool| && !Idle(pool, j)
    ensures IdleAhead(ToEnd(lru, i), pool, i) == |pool| - 1 - |busy|
  {
    var l := Removed(lru, i);
    RemovedCovers(lru, i);
    RemovedSubset(lru, i);
    AheadAtEnd(l, pool, i);
    forall j: nat ensures j in busy <==> j in l && !Idle(pool, j) {
      if j in busy { assert j in lru; }
    }
    BusyCount(l, pool, busy);
  }

  /** A call that has just ended goes behind all others: every entry but its own and those of the
      calls in progress is taken over before it. */
  lemma AheadAfterFinish(w: World, i: nat, r: End)
    requires Inv(w) && i in w.owner && !w.cache.disabled && Cacheable(r)
    ensures Ahead(Step(w, Finish(i, r)), i) == |w.cache.pool| - |w.owner|
  {
    var u := Step(w, Finish(i, r));
    StepKeeps(w, Finish(i, r));
    AheadOfLast(w.cache.lru, u.cache.pool, i, u.owner.Keys);
    assert w.owner.Keys == u.owner.Keys + {i} && |w.owner| == |w.owner.Keys|;
  }

  lemma FinishBecomesStored(w: World, i: nat, r: End, k: Key)
    requires Inv(w) && i in w.owner && !w.cache.disabled && w.owner[i] == k && Alone(w, i, k) && Cacheable(r)
    ensures Stores(Step(w, Finish(i, r)), i, k)
  {
    StepKeeps(w, Finish(i, r));
  }

  /** The guarantee in terms of what is known when a call ends with a cacheable reply and no other
      entry for its key is in progress or current. For 120 seconds, and through as many other calls as
      there are entries not in progress, a retransmission is dropped or answered with the stored words. */
  lemma StoredReplyAnswers(w: World, i: nat, r: End, evs: seq<Event>, q: Call)
    requires Inv(w) && i in w.owner && !w.cache.disabled && Alone(w, i, q.key)
    requires Cacheable(r) && r.ctype != NoCache
    requires q.key == w.owner[i] && q.ctype != NoCache && (r.secure ==> q.secure) && |StoredWords(r)| <= q.room
    requires Arrivals(evs) <= |w.cache.pool| - |w.owner|
    requires Run(Step(w, Finish(i, r)), evs).now < w.now + w.cache.Life()
    ensures var v := Run(Step(w, Finish(i, r)), evs);
      Lookup(v.cache, q, v.now).1 in {DropIt, Reply(StoredWords(r))} && Lookup(v.cache, q, v.now).2 == None
  {
    var u := Step(w, Finish(i, r));
    FinishBecomesStored(w, i, r, q.key);
    AheadAfterFinish(w, i, r);
    var v := Run(u, evs);
    assert u.cache.pool[i].time == w.now && u.cache.hz == w.cache.hz;
    StoredReplyLasts(u, evs, i, q.key);
    StoredAnswers(v, i, q, u.cache.pool[i]);
  }

  lemma StoredAnswers(v: World, i: nat, q: Call, e: Entry)
    requires Stores(v, i, q.key) && v.cache.pool[i] == e.(time := v.cache.pool[i].time)
      && v.now < v.cache.pool[i].time + v.cache.Life()
    requires q.ctype != NoCache && (e.secure ==> q.secure) && e.ctype != NoCache && |e.data| <= q.room
    ensures Lookup(v.cache, q, v.now).1 in {DropIt, Reply(e.data)} && Lookup(v.cache, q, v.now).2 == None
  {
    assert Current(v.cache, i, v.now);
    RetransmissionAnswer(v, q, i);
  }

  /** But the dispatcher passes on the procedure's own cache type, which is none for a v4
      compound: the call is remembered, its reply is not, and any retransmission past the delay
      is executed again. */
  lemma UncachedTypeIsRepeated(w: World, i: nat, r: End, n: nat, q: Call)
    requires Inv(w) && KeyedFor(w, q.key) && i in w.owner && i < |w.cache.pool| && !w.cache.disabled
    requires Cacheable(r) && r.ctype == NoCache && !Revives(w, Finish(i, r), q.key)
    requires q.key == w.owner[i] && q.ctype != NoCache && w.cache.Delay() <= n < w.cache.Life()
    ensures var v := Step(Step(w, Finish(i, r)), Tick(n)); Lookup(v.cache, q, v.now).1 == DoIt
  {
    var u := Step(w, Finish(i, r));
    FinishKeeps(w, i, r);
    StepKeyedFor(w, Finish(i, r), q.key);
    var v := Step(u, Tick(n));
    StepKeeps(u, Tick(n));
    StepKeyedFor(u, Tick(n), q.key);
    assert Current(v.cache, i, v.now);
    RetransmissionAnswer(v, q, i);
  }

  // ---- every claim is given back ----

  ghost predicate EndsLater(evs: seq<Event>, i: nat) {
    forall ev <- evs :: ev.Finish? ==> ev.i != i
  }

  lemma {:induction false} RunKeepsOwner(w: World, evs: seq<Event>, i: nat)
    requires Inv(w) && i in w.owner && EndsLater(evs, i)
    ensures var v := Run(w, evs); Inv(v) && i in v.owner && v.owner[i] == w.owner[i]
    decreases |evs|
  {
    if evs != [] {
      StepKeeps(w, evs[0]);
      InProgressIsOwned(w, evs[0], i);
      assert forall ev <- evs[1..] :: ev in evs;
      RunKeepsOwner(Step(w, evs[0]), evs[1..], i);
    }
  }

  /** A call claims an entry; whatever other calls do until it ends, the entry stays its own, in
      progress under its key. Its one update releases the entry, unless the cache has been disabled
      meanwhile, and then the entry stays in progress for good. */
  lemma ClaimIsReleased(w: World, q: Call, evs: seq<Event>, i: nat, r: End)
    requires Inv(w) && Lookup(w.cache, q, w.now).2 == Some(i) && EndsLater(evs, i)
    ensures var v := Run(Step(w, Arrive(q)), evs); var u := Step(v, Finish(i, r));
      && i < |v.cache.pool| && v.cache.pool[i].state == InProg && v.cache.pool[i].key == q.key
      && i !in u.owner && i < |u.cache.pool| && (u.cache.pool[i].state == InProg <==> v.cache.disabled)
  {
    StepKeeps(w, Arrive(q));
    RunKeepsOwner(Step(w, Arrive(q)), evs, i);
  }

  // ---- the implementation ----

  lemma {:induction false} ChainUnfiled(filed: seq<Link>, i: nat, was: U32, b: nat)
    requires forall l <- filed :: l.id == i ==> l.xid == was
    ensures Chain(Unfiled(filed, i), b) == if RequestHash(was) == b then Unfiled(Chain(filed, b), i)
      else Chain(filed, b)
  {
    if filed != [] {
      assert filed[0] in filed && forall l <- filed[1..] :: l in filed;
      ChainUnfiled(filed[1..], i, was, b);
      var rest, tail := Unfiled(filed[1..], i), Chain(filed[1..], b);
      assert ([filed[0]] + rest)[1..] == rest && ([filed[0]] + tail)[1..] == tail;
    }
  }

  lemma ChainPush(filed: seq<Link>, l: Link, b: nat)
    ensures Chain([l] + filed, b) == if RequestHash(l.xid) == b then [l] + Chain(filed, b) else Chain(filed, b)
  {
    assert ([l] + filed)[1..] == filed;
  }

  lemma FirstMatchAt(links: seq<Link>, pool: seq<Entry>, k: Key, now: int, life: nat, n: nat)
    requires n < |links|
    ensures FirstMatch(links[n..], pool, k, now, life) ==
      if links[n].id < |pool| && Matches(pool[links[n].id], k, now, life) then links[n].id
      else FirstMatch(links[n+1..], pool, k, now, life)
  {
    assert links[n..][1..] == links[n+1..];
  }

  lemma FirstIdleAt(lru: seq<nat>, pool: seq<Entry>, n: nat)
    requires n < |lru|
    ensures FirstIdle(lru[n..], pool) ==
      if lru[n] < |pool| && pool[lru[n]].state != InProg then lru[n] else FirstIdle(lru[n+1..], pool)
  {
    assert lru[n..][1..] == lru[n+1..];
  }

  /** How executing a call ends, and what the transport is told to do. */
  datatype Outcome = Dropped | EncodeFailed | Encoded(words: seq<U32>)

  datatype Verdict = GarbageArgs | NoAnswer | SystemError | Sent(words: seq<U32>)

  function Ending(q: Call, procType: CType, outcome: Outcome, mallocOk: bool): End {
    End(if outcome.Encoded? then procType else NoCache, if outcome.Encoded? then Some(outcome.words)
      else None, q.secure, mallocOk)
  }

  function Executed(outcome: Outcome): Verdict {
    match outcome case Dropped => NoAnswer case EncodeFailed => SystemError case Encoded(words) => Sent(words)
  }

  /** A decoded call that is neither dropped nor answered from the cache is executed, and updates
      the entry it claimed with the procedure's own cache type. */
  function Dispatched(c: Cache, q: Call, procType: CType, decoded: bool, outcome: Outcome,
                      now: int, later: int, mallocOk: bool): (Cache, Verdict) {
    if !decoded then (c, GarbageArgs)
    else
      var (d, a, mine) := Lookup(c, q, now);
      Concluded(d, a, mine, Ending(q, procType, outcome, mallocOk), outcome, later)
  }

  /** What the dispatcher does with the answer of the lookup. */
  function Concluded(d: Cache, a: Answer, mine: Option<nat>, r: End, outcome: Outcome, later: int): (Cache, Verdict) {
    match a
    case DropIt => (d, NoAnswer)
    case Reply(data) => (d, Sent(data))
    case DoIt => (if mine.Some? && mine.value < |d.pool| then Update(d, mine.value, r, later) else d, Executed(outcome))
  }

  /** Whatever happens after the lookup, an entry it claimed is released: no call leaves more
      entries in progress than it found. */
  lemma DispatchReleases(c: Cache, q: Call, procType: CType, decoded: bool, outcome: Outcome,
                         now: int, later: int, mallocOk: bool, i: nat)
    requires i < |c.pool| && !c.disabled
    ensures var p := Dispatched(c, q, procType, decoded, outcome, now, later, mallocOk).0.pool;
      |p| == |c.pool| && (p[i].state == InProg ==> c.pool[i].state == InProg)
  {
  }

  class CacheTable {
    const hz: nat
    const pool: array<Entry>
    const chains: array<seq<Link>>
    var disabled: bool
    var complaints: nat
    var lru: seq<nat>
    ghost var filed: seq<Link>

    ghost predicate Valid()
      reads this, pool, chains
    {
      && chains.Length == HASHSIZE
      && (forall b :: 0 <= b < HASHSIZE ==> chains[b] == Chain(filed, b))
      && Filed(filed, pool[..])
      && pool.Length == CACHESIZE && Covers(lru, pool.Length)
    }

    ghost function Model(): Cache
      reads this, pool
    {
      Cache(hz, disabled, complaints, pool[..], lru, filed)
    }

    constructor (hz: nat)
      ensures Valid() && fresh(pool) && fresh(chains)
      ensures Model() == NewCache(hz)
    {
      this.hz, disabled, complaints := hz, false, 0;
      pool := new Entry[CACHESIZE](_ => Entry(Unused, Key(0, 0, 0, 0, 0), NoCache, false, 0, []));
      chains := new seq<Link>[HASHSIZE](_ => []);
      lru := seq(CACHESIZE, i => i);
      filed := [];
      new;
      assert pool[..] == NewCache(hz).pool;
      assert lru == NewCache(hz).lru;
      NewCacheInv(hz);
    }

    method LruPutEnd(i: nat)
      modifies this`lru
      ensures lru == ToEnd(old(lru), i)
    {
      lru := ToEnd(lru, i);
    }

    /** hash_refile: the entry leaves the chain of its former transaction id for that of its new one. */
    method HashRefile(i: nat, was: U32)
      requires chains.Length == HASHSIZE && i < pool.Length
      requires forall b :: 0 <= b < HASHSIZE ==> chains[b] == Chain(filed, b)
      requires forall l <- filed :: l.id == i ==> l.xid == was
      modifies chains, this`filed
      ensures filed == [Link(i, pool[i].key.xid)] + Unfiled(old(filed), i)
      ensures forall b :: 0 <= b < HASHSIZE ==> chains[b] == Chain(filed, b)
    {
      var from, to := RequestHash(was), RequestHash(pool[i].key.xid);
      chains[from] := Unfiled(chains[from], i);
      chains[to] := [Link(i, pool[i].key.xid)] + chains[to];
      filed := [Link(i, pool[i].key.xid)] + Unfiled(filed, i);
      forall b | 0 <= b < HASHSIZE ensures chains[b] == Chain(filed, b) {
        ChainUnfiled(old(filed), i, was, b);
        ChainPush(Unfiled(old(filed), i), Link(i, pool[i].key.xid), b);
      }
    }

    method FindEntry(k: Key, now: int) returns (i: int)
      requires Valid()
      ensures i == FirstMatch(filed, pool[..], k, now, 120 * hz)
    {
      var chain := chains[RequestHash(k.xid)];
      ghost var all := pool[..];
      ChainSearch(filed, all, k, now, 120 * hz);
      for n := 0 to |chain|
        invariant FirstMatch(chain, all, k, now, 120 * hz) == FirstMatch(chain[n..], all, k, now, 120 * hz)
      {
        FirstMatchAt(chain, all, k, now, 120 * hz, n);
        if chain[n].id < pool.Length && Matches(pool[chain[n].id], k, now, 120 * hz) {
          return chain[n].id;
        }
      }
      i := -1;
    }

    /** The walk over the LRU list, with its guard against a list that loops: `looped` says whether
        the guard fired, which it never does. */
    method FindIdle() returns (i: int, looped: bool)
      requires Valid()
      ensures i == FirstIdle(lru, pool[..])
      ensures !looped
    {
      var safe := 0;
      ghost var all := pool[..];
      looped := false;
      while safe < |lru| && !looped
        invariant 0 <= safe <= |lru| && !looped
        invariant FirstIdle(lru, all) == FirstIdle(lru[safe..], all)
      {
        FirstIdleAt(lru, all, safe);
        if pool[lru[safe]].state != InProg {
          i := lru[safe];
          return;
        }
        looped := safe > CACHESIZE;
        safe := safe + 1;
      }
      i := -1;
    }

    /** A retransmission found entry i. */
    method TouchEntry(i: nat, now: int)
      requires Valid() && i < pool.Length && pool[i].state != Unused
      modifies this, pool
      ensures Valid() && Model() == Touch(old(Model()), i, now)
    {
      var e := pool[i].(time := now);
      SameFiled(filed, pool[..], i, e);
      ToEndCovers(lru, i, pool.Length);
      pool[i] := e;
      LruPutEnd(i);
      assert pool[..] == old(pool[..])[i := e];
    }

    /** Entry j is taken over for a new call. */
    method ClaimEntry(j: nat, k: Key, now: int)
      requires Valid() && j < pool.Length
      modifies this, pool, chains
      ensures Valid() && Model() == Claim(old(Model()), j, k, now)
    {
      var e := Entry(InProg, k, NoCache, pool[j].secure, now, []);
      RefiledFiled(filed, pool[..], j, e);
      var was := pool[j].key.xid;
      pool[j] := e;
      assert pool[..] == old(pool[..])[j := e];
      HashRefile(j, was);
    }

    method CacheLookup(q: Call, now: int) returns (a: Answer, mine: Option<nat>)
      requires Valid()
      modifies this, pool, chains
      ensures Valid() && (Model(), a, mine) == Lookup(old(Model()), q, now)
      ensures mine.Some? ==> a == DoIt && mine.value < pool.Length && pool[mine.value].state == InProg
    {
      mine := None;
      if disabled || q.ctype == NoCache {
        return DoIt, None;
      }
      var i := FindEntry(q.key, now);
      if i >= 0 {
        a := AnswerFrom(pool[i], q, now, hz / 5);
        TouchEntry(i, now);
        return;
      }
      var j, looped := FindIdle();
      assert !looped;
      if j < 0 {
        complaints := complaints + 1;
        if complaints > MAX_COMPLAINTS {
          disabled := true;
        }
        return DoIt, None;
      }
      ClaimEntry(j, q.key, now);
      return DoIt, Some(j);
    }

    method CacheUpdate(i: nat, r: End, now: int)
      requires Valid() && i < pool.Length && pool[i].state != Unused
      modifies this, pool
      ensures Valid() && Model() == Update(old(Model()), i, r, now)
    {
      if disabled {
        return;
      }
      var e := pool[i];
      if r.statp.None? || |r.statp.value| > MAX_CACHED_WORDS || (r.ctype == ReplBuff && !r.mallocOk) {
        SameFiled(filed, pool[..], i, e.(state := Unused));
        pool[i] := e.(state := Unused);
        assert pool[..] == old(pool[..])[i := e.(state := Unused)];
        return;
      }
      var d := e.(state := Done, ctype := r.ctype, secure := r.secure, time := now, data := StoredWords(r));
      SameFiled(filed, pool[..], i, d);
      ToEndCovers(lru, i, pool.Length);
      LruPutEnd(i);
      pool[i] := d;
      assert pool[..] == old(pool[..])[i := d];
    }

    method Conclude(a: Answer, mine: Option<nat>, r: End, outcome: Outcome, later: int) returns (verdict: Verdict)
      requires Valid()
      requires mine.Some? ==> mine.value < pool.Length && pool[mine.value].state != Unused
      modifies this, pool
      ensures Valid() && (Model(), verdict) == Concluded(old(Model()), a, mine, r, outcome, later)
    {
      if a == DropIt {
        return NoAnswer;
      }
      if a.Reply? {
        return Sent(a.data);
      }
      if mine.Some? {
        CacheUpdate(mine.value, r, later);
      }
      verdict := Executed(outcome);
    }

    /** nfsd_dispatch. */
    method Dispatch(q: Call, procType: CType, decoded: bool, outcome: Outcome, now: int, later: int, mallocOk: bool)
      returns (verdict: Verdict)
      requires Valid()
      modifies this, pool, chains
      ensures Valid()
      ensures (Model(), verdict) == Dispatched(old(Model()), q, procType, decoded, outcome, now, later, mallocOk)
    {
      if !decoded {
        return GarbageArgs;
      }
      var a, mine := CacheLookup(q, now);
      verdict := Conclude(a, mine, Ending(q, procType, outcome, mallocOk), outcome, later);
    }
  }
}
