/** Accounting of the session reply cache (fs/nfsd/nfs4state.c:705-759, 761-798, 906-985):
    what CREATE_SESSION reserves and what releasing a session gives back. */
module DrcMemory {

  // ---- machine integers ----

  const WORD: int := 0x1_0000_0000

  type U32 = x: int | 0 <= x < WORD

  function Wrap(x: int): U32 {
    x % WORD
  }

  /** A 32-bit value read as a signed int. */
  function Signed(x: U32): int {
    if x < WORD / 2 then x else x - WORD
  }

  /** C division truncates towards zero. */
  function Quotient(a: int, b: int): int
    requires b > 0
  {
    if a >= 0 then a / b else -(-a / b)
  }

  function Min(a: int, b: int): int {
    if a <= b then a else b
  }

  // ---- the pool ----

  const MIN_HDR_SEQ_SZ := 24 + 12 + 44
  const MAX_SLOTS_PER_SESSION := 160
  const SLOT_CACHE_SIZE := 1024
  const MAX_MEM_PER_SESSION := 32 * 1024

  /** The fore-channel attributes that matter here, as requested or as granted. */
  datatype Attrs = Attrs(maxreqs: U32, maxrespCached: U32)

  /** nfsd_drc_max_mem, nfsd_drc_mem_used, the live sessions, and how many slot buffers they own. */
  datatype Pool = Pool(max: U32, used: U32, sessions: seq<Attrs>, buffers: int)

  /** nfsd4_sanitize_slot_size: the subtraction wraps. */
  function SanitizeSlotSize(size: U32): nat {
    Min(Wrap(size - MIN_HDR_SEQ_SZ), SLOT_CACHE_SIZE)
  }

  /** slot_bytes. */
  function SlotBytes(a: Attrs): int {
    Signed(Wrap(a.maxrespCached - MIN_HDR_SEQ_SZ))
  }

  /** How many slots nfsd4_get_drc_mem grants. */
  function Granted(p: Pool, slotsize: nat, num: U32): int
    requires slotsize > 0
  {
    var avail := Min(MAX_MEM_PER_SESSION, Signed(Wrap(p.max - p.used)));
    Min(Min(num, MAX_SLOTS_PER_SESSION), Quotient(avail, slotsize))
  }

  function Use(p: Pool, n: int): Pool {
    p.(used := Wrap(p.used + n))
  }

  /** init_forechannel_attrs. */
  function ForeChannel(req: Attrs, numslots: U32, slotsize: nat): Attrs {
    Attrs(numslots, Min(req.maxrespCached, slotsize + MIN_HDR_SEQ_SZ))
  }

  function Charge(a: Attrs): int {
    a.maxreqs * SlotBytes(a)
  }

  /** free_session for session i. */
  function Free(p: Pool, i: nat): Pool
    requires i < |p.sessions|
  {
    var a := p.sessions[i];
    p.(used := Wrap(p.used - Charge(a)), sessions := p.sessions[..i] + p.sessions[i+1..],
      buffers := p.buffers - a.maxreqs)
  }

  datatype Outcome = Created | NoMem | DivideError

  /** How many allocations succeed before one fails, and whether the connection registers. */
  datatype Env = Env(allocs: nat, connOk: bool)

  function Add(p: Pool, a: Attrs): Pool {
    p.(sessions := [a] + p.sessions, buffers := p.buffers + a.maxreqs)
  }

  /** alloc_init_session. */
  function Create(p: Pool, req: Attrs, env: Env): (Pool, Outcome) {
    var slotsize := SanitizeSlotSize(req.maxrespCached);
    if slotsize == 0 then (p, DivideError)
    else
      var n := Granted(p, slotsize, req.maxreqs);
      var q := Use(p, n * slotsize);
      if n < 1 then (q, NoMem)
      else if env.allocs <= n then (Use(q, -(slotsize * req.maxreqs)), NoMem)
      else
        var r := Add(q, ForeChannel(req, n, slotsize));
        if env.connOk then (r, Created) else (Free(r, 0), NoMem)
  }

  // ---- conservation ----

  function Held(ss: seq<Attrs>): int {
    if ss == [] then 0 else Charge(ss[0]) + Held(ss[1..])
  }

  function Slots(ss: seq<Attrs>): nat {
    if ss == [] then 0 else ss[0].maxreqs + Slots(ss[1..])
  }

  predicate Proper(a: Attrs) {
    1 <= a.maxreqs <= MAX_SLOTS_PER_SESSION && 1 <= SlotBytes(a) <= SLOT_CACHE_SIZE && Charge(a) <= MAX_MEM_PER_SESSION
  }

  /** What is used is what the live sessions will give back, and never more than there is. */
  predicate Balanced(p: Pool) {
    && p.used == Held(p.sessions) && p.used <= p.max
    && p.buffers == Slots(p.sessions)
    && forall a <- p.sessions :: Proper(a)
  }

  lemma {:induction false} HeldSplit(ss: seq<Attrs>, i: nat)
    requires i < |ss|
    ensures Held(ss[..i] + ss[i+1..]) == Held(ss) - Charge(ss[i])
    ensures Slots(ss[..i] + ss[i+1..]) == Slots(ss) - ss[i].maxreqs
  {
    if i == 0 {
      assert ss[..0] + ss[1..] == ss[1..];
    } else {
      var t := ss[..i] + ss[i+1..];
      assert t[1..] == ss[1..][..i-1] + ss[1..][i..];
      HeldSplit(ss[1..], i - 1);
    }
  }

  lemma {:induction false} HeldCovers(ss: seq<Attrs>, i: nat)
    requires i < |ss| && forall a <- ss :: Proper(a)
    ensures Held(ss) >= Charge(ss[i]) >= 1
  {
    assert ss[0] in ss && ss[i] in ss;
    ProductPositive(ss[0].maxreqs, SlotBytes(ss[0]));
    ProductPositive(ss[i].maxreqs, SlotBytes(ss[i]));
    HeldNonneg(ss[1..]);
    if i > 0 { HeldCovers(ss[1..], i - 1); }
  }

  lemma {:induction false} HeldNonneg(ss: seq<Attrs>)
    requires forall a <- ss :: Proper(a)
    ensures Held(ss) >= 0
  {
    if ss != [] {
      assert ss[0] in ss;
      ProductPositive(ss[0].maxreqs, SlotBytes(ss[0]));
      HeldNonneg(ss[1..]);
    }
  }

  lemma ProductPositive(a: int, b: int)
    requires a >= 1 && b >= 1
    ensures a * b >= 1
  {
  }

  lemma QuotientBound(n: int, a: int, b: int)
    requires b > 0 && 0 <= n <= Quotient(a, b)
    ensures n * b <= a || n == 0
  {
    if n > 0 {
      assert a >= 0 && a / b >= n;
      assert a / b * b >= n * b by { assert (a / b - n) * b >= 0; }
    }
  }

  /** The grant fits: for a pool within its bounds, reserved memory stays within them too. */
  lemma GrantFits(p: Pool, slotsize: nat, num: U32)
    requires p.used <= p.max && slotsize > 0
    ensures var n := Granted(p, slotsize, num);
      n > 0 ==> n <= MAX_SLOTS_PER_SESSION && n * slotsize <= MAX_MEM_PER_SESSION && p.used + n * slotsize <= p.max
  {
    var n := Granted(p, slotsize, num);
    var avail := Min(MAX_MEM_PER_SESSION, Signed(Wrap(p.max - p.used)));
    if n > 0 { QuotientBound(n, avail, slotsize); }
  }

  lemma WrapSmall(x: int)
    requires 0 <= x < WORD
    ensures Wrap(x) == x
  {
  }

  /** Freeing any session keeps the balance. */
  lemma FreeBalances(p: Pool, i: nat)
    requires Balanced(p) && i < |p.sessions|
    ensures Balanced(Free(p, i))
  {
    HeldSplit(p.sessions, i);
    HeldCovers(p.sessions, i);
    WrapSmall(p.used - Charge(p.sessions[i]));
  }

  /** When creating a session keeps the balance: nothing was granted; or the slots were allocated
      and the client asked for more than the header bytes; or they were not, and what it asked for
      is what it had been granted, up to a multiple of 2^32 bytes. */
  predicate Conserving(p: Pool, req: Attrs, env: Env) {
    var slotsize := SanitizeSlotSize(req.maxrespCached);
    slotsize == 0 ||
    var n := Granted(p, slotsize, req.maxreqs);
    n == 0 || (n > 0 && if env.allocs <= n then Wrap(slotsize * (req.maxreqs - n)) == 0
      else req.maxrespCached > MIN_HDR_SEQ_SZ)
  }

  lemma SlotSizes(req: Attrs, n: U32)
    requires SanitizeSlotSize(req.maxrespCached) > 0
    ensures var slotsize := SanitizeSlotSize(req.maxrespCached);
      && (req.maxrespCached > MIN_HDR_SEQ_SZ ==> SlotBytes(ForeChannel(req, n, slotsize)) == slotsize)
      && (req.maxrespCached < MIN_HDR_SEQ_SZ ==>
            slotsize == SLOT_CACHE_SIZE && SlotBytes(ForeChannel(req, n, slotsize))
              == req.maxrespCached - MIN_HDR_SEQ_SZ)
  {
  }

  lemma AddBalances(p: Pool, a: Attrs, bytes: int)
    requires Balanced(p) && Proper(a) && bytes == Charge(a) && p.used + bytes <= p.max
    ensures Balanced(Add(Use(p, bytes), a))
  {
    assert ([a] + p.sessions)[1..] == p.sessions;
    ProductPositive(a.maxreqs, SlotBytes(a));
  }

  lemma FreeAdded(p: Pool, a: Attrs, bytes: int)
    ensures Free(Add(Use(p, bytes), a), 0) == Use(Use(p, bytes), -Charge(a))
  {
    assert ([a] + p.sessions)[1..] == p.sessions;
    assert ([a] + p.sessions)[..0] + ([a] + p.sessions)[1..] == p.sessions;
  }

  /** CREATE_SESSION keeps the balance exactly under that condition. */
  lemma CreateBalancesExactly(p: Pool, req: Attrs, env: Env)
    requires Balanced(p)
    ensures Balanced(Create(p, req, env).0) <==> Conserving(p, req, env)
  {
    var slotsize := SanitizeSlotSize(req.maxrespCached);
    if slotsize > 0 {
      var n := Granted(p, slotsize, req.maxreqs);
      if n < 1 {
        GrantFloor(p, slotsize, req.maxreqs);
        RefusedGrant(p, slotsize, n);
      } else {
        GrantFits(p, slotsize, req.maxreqs);
        if env.allocs <= n {
          FailedAllocation(p, slotsize, n, req.maxreqs);
        } else if req.maxrespCached > MIN_HDR_SEQ_SZ {
          CreatedProperly(p, req, env);
        } else {
          CreatedTooSmall(p, req, env);
        }
      }
    }
  }

  /** A grant is negative only when more than half the range is free, and then not by more. */
  lemma GrantFloor(p: Pool, slotsize: nat, num: U32)
    requires slotsize > 0
    ensures var n := Granted(p, slotsize, num); n < 1 ==> -WORD / 2 <= n * slotsize
  {
    QuotientFloor(Min(MAX_MEM_PER_SESSION, Signed(Wrap(p.max - p.used))), slotsize);
  }

  lemma QuotientFloor(a: int, b: int)
    requires b > 0 && a >= -WORD / 2
    ensures Quotient(a, b) < 1 ==> -WORD / 2 <= Quotient(a, b) * b
  {
    if a < 0 {
      var q := -a / b;
      assert q * b <= -a;
      assert Quotient(a, b) * b == -(q * b);
    } else {
      QuotientNonneg(a, b);
    }
  }

  lemma RefusedGrant(p: Pool, slotsize: nat, n: int)
    requires Balanced(p) && 0 < slotsize <= SLOT_CACHE_SIZE && -WORD / 2 <= n * slotsize && n < 1
    ensures Balanced(Use(p, n * slotsize)) <==> n == 0
  {
  }

  lemma WrapSame(u: U32, d: int)
    ensures Wrap(u - d) == u <==> Wrap(d) == 0
  {
    assert d == d / WORD * WORD + Wrap(d);
    assert u - d == (u - d) / WORD * WORD + Wrap(u - d);
  }

  lemma UseTwice(p: Pool, a: int, b: int)
    ensures Use(Use(p, a), b) == p.(used := Wrap(p.used + a + b))
  {
    assert p.used + a == (p.used + a) / WORD * WORD + Wrap(p.used + a);
  }

  lemma FailedAllocation(p: Pool, slotsize: nat, n: int, maxreqs: U32)
    requires Balanced(p)
    ensures Balanced(Use(Use(p, n * slotsize), -(slotsize * maxreqs))) <==> Wrap(slotsize * (maxreqs - n)) == 0
  {
    var d := slotsize * (maxreqs - n);
    assert d == slotsize * maxreqs - n * slotsize;
    UseTwice(p, n * slotsize, -(slotsize * maxreqs));
    WrapSame(p.used, d);
  }

  lemma CreatedProperly(p: Pool, req: Attrs, env: Env)
    requires Balanced(p) && req.maxrespCached > MIN_HDR_SEQ_SZ
    requires var slotsize := SanitizeSlotSize(req.maxrespCached);
      slotsize > 0 && 1 <= Granted(p, slotsize, req.maxreqs) < env.allocs
    ensures Balanced(Create(p, req, env).0)
  {
    var slotsize := SanitizeSlotSize(req.maxrespCached);
    var n := Granted(p, slotsize, req.maxreqs);
    var a := ForeChannel(req, n, slotsize);
    GrantFits(p, slotsize, req.maxreqs);
    SlotSizes(req, n);
    AddOrUndo(p, a, n * slotsize, env);
  }

  lemma AddOrUndo(p: Pool, a: Attrs, bytes: int, env: Env)
    requires Balanced(p) && Proper(a) && bytes == Charge(a) && p.used + bytes <= p.max
    ensures var r := Add(Use(p, bytes), a); Balanced(if env.connOk then r else Free(r, 0))
  {
    AddBalances(p, a, bytes);
    FreeBalances(Add(Use(p, bytes), a), 0);
  }

  lemma CreatedTooSmall(p: Pool, req: Attrs, env: Env)
    requires Balanced(p) && req.maxrespCached <= MIN_HDR_SEQ_SZ
    requires var slotsize := SanitizeSlotSize(req.maxrespCached);
      slotsize > 0 && 1 <= Granted(p, slotsize, req.maxreqs) < env.allocs
    ensures !Balanced(Create(p, req, env).0)
  {
    var slotsize := SanitizeSlotSize(req.maxrespCached);
    var n := Granted(p, slotsize, req.maxreqs);
    var a := ForeChannel(req, n, slotsize);
    GrantFits(p, slotsize, req.maxreqs);
    SlotSizes(req, n);
    NeverBalances(p, a, n, req.maxrespCached, env);
  }

  /** What n slots are charged beyond what they give back when only m bytes were asked for. */
  function Excess(n: int, m: int): (d: int)
    requires 1 <= n <= 32 && 0 <= m < MIN_HDR_SEQ_SZ
    ensures d == n * SLOT_CACHE_SIZE - n * (m - MIN_HDR_SEQ_SZ) && Wrap(-d) != 0
  {
    var d := n * (SLOT_CACHE_SIZE + MIN_HDR_SEQ_SZ - m);
    assert 0 < d <= 32 * 1104;
    d
  }

  lemma NeverBalances(p: Pool, a: Attrs, n: int, m: int, env: Env)
    requires Balanced(p) && a.maxreqs == n && 1 <= n <= 32 && 0 <= m < MIN_HDR_SEQ_SZ
      && SlotBytes(a) == m - MIN_HDR_SEQ_SZ
    ensures var r := Add(Use(p, n * SLOT_CACHE_SIZE), a); !Balanced(if env.connOk then r else Free(r, 0))
  {
    var r := Add(Use(p, n * SLOT_CACHE_SIZE), a);
    assert a in r.sessions;
    var d := Excess(n, m);
    FreeAdded(p, a, n * SLOT_CACHE_SIZE);
    UseTwice(p, n * SLOT_CACHE_SIZE, -Charge(a));
    WrapSame(p.used, -d);
  }

  /** A request for exactly the 80 header bytes makes the slot size zero, and then the grant divides
      by it; no other request does. */
  lemma DivideErrorExactly(p: Pool, req: Attrs, env: Env)
    ensures Create(p, req, env).1 == DivideError <==> req.maxrespCached == MIN_HDR_SEQ_SZ
    ensures req.maxrespCached == MIN_HDR_SEQ_SZ ==> Create(p, req, env).0 == p
  {
    SlotSizeZero(req.maxrespCached);
  }

  lemma SlotSizeZero(size: U32)
    ensures SanitizeSlotSize(size) == 0 <==> size == MIN_HDR_SEQ_SZ
  {
  }

  // ---- all runs ----

  datatype Op = Make(req: Attrs, env: Env) | Drop(i: nat)

  function Step(p: Pool, op: Op): Pool {
    match op
    case Make(req, env) => Create(p, req, env).0
    case Drop(i) => if i < |p.sessions| then Free(p, i) else p
  }

  function Run(p: Pool, ops: seq<Op>): Pool
    decreases |ops|
  {
    if ops == [] then p else Run(Step(p, ops[0]), ops[1..])
  }

  predicate AllConserving(p: Pool, ops: seq<Op>)
    decreases |ops|
  {
    ops == [] || ((ops[0].Make? ==> Conserving(p, ops[0].req, ops[0].env)) && AllConserving(Step(p, ops[0]), ops[1..]))
  }

  lemma {:induction false} RunBalances(p: Pool, ops: seq<Op>)
    requires Balanced(p) && AllConserving(p, ops)
    ensures Balanced(Run(p, ops))
    decreases |ops|
  {
    if ops != [] {
      match ops[0] {
        case Make(req, env) => CreateBalancesExactly(p, req, env);
        case Drop(i) => if i < |p.sessions| { FreeBalances(p, i); }
      }
      RunBalances(Step(p, ops[0]), ops[1..]);
    }
  }

  /** Conservation over every run of creations and releases: the total is what the live sessions
      hold, at most 32 KiB each, it never exceeds the maximum, and it returns to zero with the
      last of them. */
  lemma MemoryConserved(max: U32, ops: seq<Op>)
    requires AllConserving(Pool(max, 0, [], 0), ops)
    ensures var p := Run(Pool(max, 0, [], 0), ops);
      && p.used == Held(p.sessions) && p.used <= p.max && p.buffers == Slots(p.sessions)
      && (forall a <- p.sessions :: 1 <= Charge(a) <= MAX_MEM_PER_SESSION)
      && (p.used == 0 <==> p.sessions == [])
  {
    RunBalances(Pool(max, 0, [], 0), ops);
    var p := Run(Pool(max, 0, [], 0), ops);
    forall a | a in p.sessions ensures Charge(a) >= 1 {
      ProductPositive(a.maxreqs, SlotBytes(a));
    }
    if p.sessions != [] { HeldCovers(p.sessions, 0); }
  }

  /** Requests that ask for more than 80 cached bytes and meet no allocation failure conserve;
      so do those whose failed allocation had not reduced the grant. */
  lemma OrdinaryRequestsConserve(p: Pool, req: Attrs, env: Env)
    requires Balanced(p) && p.max < WORD / 2 && req.maxrespCached > MIN_HDR_SEQ_SZ
    requires env.allocs > MAX_SLOTS_PER_SESSION
      || req.maxreqs == Granted(p, SanitizeSlotSize(req.maxrespCached), req.maxreqs)
    ensures Conserving(p, req, env)
  {
    GrantedNonneg(p, SanitizeSlotSize(req.maxrespCached), req.maxreqs);
    TimesZero(SanitizeSlotSize(req.maxrespCached));
  }

  lemma GrantedNonneg(p: Pool, slotsize: nat, num: U32)
    requires p.used <= p.max < WORD / 2 && slotsize > 0
    ensures 0 <= Granted(p, slotsize, num) <= MAX_SLOTS_PER_SESSION
  {
    WrapSmall(p.max - p.used);
    QuotientNonneg(Min(MAX_MEM_PER_SESSION, p.max - p.used), slotsize);
  }

  lemma QuotientNonneg(a: int, b: int)
    requires a >= 0 && b > 0
    ensures Quotient(a, b) >= 0
  {
    var q := a / b;
    assert a < q * b + b;
    if q < 0 {
      ProductPositive(-q, b);
    }
  }

  lemma TimesZero(a: int)
    ensures Wrap(a * 0) == 0
  {
  }

  lemma RunTwo(p: Pool, a: Op, b: Op)
    ensures Run(p, [a, b]) == Step(Step(p, a), b)
  {
    assert [a, b][1..] == [b] && [b][1..] == [];
    assert Run(p, [a, b]) == Run(Step(p, a), [b]) == Run(Step(Step(p, a), b), []);
  }

  lemma SmallSessionMade(max: U32)
    requires 0x1_0000 <= max < WORD / 2
    ensures Create(Pool(max, 0, [], 0), Attrs(1, 40), Env(2, true)).0 == Pool(max, 1024, [Attrs(1, 40)], 1)
  {
    var p := Pool(max, 0, [], 0);
    assert Wrap(max) == max && Wrap(40 - 80) == WORD - 40;
    assert SanitizeSlotSize(40) == 1024;
    assert Granted(p, 1024, 1) == 1;
    assert Use(p, 1024) == Pool(max, 1024, [], 0);
  }

  lemma SmallSessionFreed(max: U32)
    ensures Free(Pool(max, 1024, [Attrs(1, 40)], 1), 0) == Pool(max, 1064, [], 0)
  {
  }

  /** A session that asks for 40 cached bytes is charged 1024 for its slot and gives back none:
      releasing it raises the total by 40 more. */
  lemma SmallRequestLeaks(max: U32)
    requires 0x1_0000 <= max < WORD / 2
    ensures Run(Pool(max, 0, [], 0), [Make(Attrs(1, 40), Env(2, true)), Drop(0)]) == Pool(max, 1064, [], 0)
  {
    RunTwo(Pool(max, 0, [], 0), Make(Attrs(1, 40), Env(2, true)), Drop(0));
    SmallSessionMade(max);
    SmallSessionFreed(max);
  }

  /** On a fresh pool, whatever its size, a request for 80 cached bytes and one slot. */
  lemma EightyBytesDivideByZero(max: U32, env: Env)
    ensures Create(Pool(max, 0, [], 0), Attrs(1, 80), env) == (Pool(max, 0, [], 0), DivideError)
  {
    DivideErrorExactly(Pool(max, 0, [], 0), Attrs(1, 80), env);
  }

  /** CREATE_SESSION neither fails in a division nor unbalances the pool exactly when it asks for
      other than 80 bytes and conserves. */
  predicate Sound(p: Pool, req: Attrs, env: Env) {
    Create(p, req, env).1 != DivideError && Balanced(Create(p, req, env).0)
  }

  lemma SoundExactly(p: Pool, req: Attrs, env: Env)
    requires Balanced(p)
    ensures Sound(p, req, env) <==> req.maxrespCached != MIN_HDR_SEQ_SZ && Conserving(p, req, env)
  {
    DivideErrorExactly(p, req, env);
    CreateBalancesExactly(p, req, env);
  }

  // ---- the implementation ----

  class DrcPool {
    const max: U32
    var used: U32
    var sessions: seq<Attrs>
    var buffers: int

    ghost function Model(): Pool
      reads this
    {
      Pool(max, used, sessions, buffers)
    }

    constructor (max: U32)
      ensures Model() == Pool(max, 0, [], 0)
    {
      this.max := max;
      used := 0;
      sessions := [];
      buffers := 0;
    }

    method GetDrcMem(slotsize: nat, num: U32) returns (n: int)
      requires slotsize > 0
      modifies this`used
      ensures n == Granted(old(Model()), slotsize, num)
      ensures Model() == Use(old(Model()), n * slotsize)
    {
      n := Min(num, MAX_SLOTS_PER_SESSION);
      var avail := Min(MAX_MEM_PER_SESSION, Signed(Wrap(max - used)));
      n := Min(n, Quotient(avail, slotsize));
      used := Wrap(used + n * slotsize);
    }

    method PutDrcMem(slotsize: nat, num: U32)
      modifies this`used
      ensures Model() == Use(old(Model()), -(slotsize * num))
    {
      used := Wrap(used - slotsize * num);
    }

    /** alloc_session: one buffer per slot, all given back if one cannot be had. */
    method AllocSession(numslots: nat, allocs: nat) returns (ok: bool)
      modifies this`buffers
      ensures ok == (allocs > numslots)
      ensures buffers == old(buffers) + if ok then numslots else 0
    {
      if allocs == 0 {
        return false;
      }
      for i := 0 to numslots
        invariant i + 1 <= allocs
        invariant buffers == old(buffers) + i
      {
        if i + 2 > allocs {
          for j := 0 to i
            invariant buffers == old(buffers) + i - j
          {
            buffers := buffers - 1;
          }
          return false;
        }
        buffers := buffers + 1;
      }
      ok := true;
    }

    method FreeSession(i: nat)
      requires i < |sessions|
      modifies this
      ensures Model() == Free(old(Model()), i)
    {
      var a := sessions[i];
      used := Wrap(used - a.maxreqs * SlotBytes(a));
      for k := 0 to a.maxreqs
        invariant buffers == old(buffers) - k
        invariant used == Wrap(old(used) - Charge(a)) && sessions == old(sessions)
      {
        buffers := buffers - 1;
      }
      sessions := sessions[..i] + sessions[i+1..];
    }

    method AllocInitSession(req: Attrs, env: Env) returns (outcome: Outcome)
      modifies this
      ensures (Model(), outcome) == Create(old(Model()), req, env)
    {
      var slotsize := SanitizeSlotSize(req.maxrespCached);
      if slotsize == 0 {
        return DivideError;
      }
      var numslots := GetDrcMem(slotsize, req.maxreqs);
      if numslots < 1 {
        return NoMem;
      }
      var ok := AllocSession(numslots, env.allocs);
      if !ok {
        PutDrcMem(slotsize, req.maxreqs);
        return NoMem;
      }
      sessions := [ForeChannel(req, numslots, slotsize)] + sessions;
      if !env.connOk {
        FreeSession(0);
        return NoMem;
      }
      outcome := Created;
    }
  }
}
