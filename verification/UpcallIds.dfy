/** Transaction ids of the upcalls to the client-tracking daemon (fs/nfsd/nfs4recover.c:570-615,
    740-785): a 32-bit counter, a search for a value no outstanding upcall has, and the reply. */
module UpcallIds {
  import opened Common

  const WORD: int := 0x1_0000_0000

  type U32 = x: int | 0 <= x < WORD

  /** struct cld_upcall; `waiter` stands for the record and the task sleeping on it. */
  datatype Upcall = Upcall(waiter: nat, xid: U32)

  /** struct cld_net; `last` counts allocations. */
  datatype Net = Net(xid: U32, list: seq<Upcall>, last: nat)

  function Ids(list: seq<Upcall>): set<U32> {
    set u <- list :: u.xid
  }

  /** The value k steps after start. */
  function Later(start: U32, k: nat): U32 {
    (start + k) % WORD
  }

  /** How many values from start on are taken before the first free one, counting from k. */
  function Probe(ids: set<U32>, start: U32, k: nat): (d: nat)
    ensures d >= k && (d <= WORD || d == k)
    ensures forall e :: k <= e < d ==> Later(start, e) in ids
    ensures d < WORD ==> Later(start, d) !in ids
    decreases WORD - k
  {
    if k >= WORD || Later(start, k) !in ids then k else Probe(ids, start, k + 1)
  }

  /** The values tried so far. */
  ghost function Tried(start: U32, k: nat): set<U32> {
    set e | 0 <= e < k :: Later(start, e)
  }

  lemma {:induction false} TriedCount(start: U32, k: nat)
    requires k <= WORD
    ensures |Tried(start, k)| == k
  {
    if k > 0 {
      TriedCount(start, k - 1);
      assert Later(start, k - 1) !in Tried(start, k - 1);
      assert Tried(start, k) == Tried(start, k - 1) + {Later(start, k - 1)};
    }
  }

  lemma SubsetCount(a: set<U32>, b: set<U32>)
    requires a <= b
    ensures |a| <= |b|
  {
    assert b == a + (b - a);
  }

  /** Pigeonhole: k values from start on are taken only if at least k ids are outstanding. */
  lemma TakenNeedsIds(ids: set<U32>, start: U32, k: nat)
    requires k <= WORD && forall e :: 0 <= e < k ==> Later(start, e) in ids
    ensures k <= |ids|
  {
    TriedCount(start, k);
    SubsetCount(Tried(start, k), ids);
  }

  lemma {:induction false} IdsCount(list: seq<Upcall>)
    ensures |Ids(list)| <= |list|
  {
    if list != [] {
      IdsCount(list[1..]);
      assert Ids(list) == {list[0].xid} + Ids(list[1..]);
    }
  }

  lemma LaterNext(start: U32, k: nat)
    ensures (Later(start, k) + 1) % WORD == Later(start, k + 1)
  {
  }

  lemma ProbeIs(ids: set<U32>, start: U32, k: nat)
    requires k < WORD && Later(start, k) !in ids && forall e :: 0 <= e < k ==> Later(start, e) in ids
    ensures Probe(ids, start, 0) == k
  {
  }

  /** The search ends, after at most as many collisions as there are upcalls, exactly when some
      id is free; fewer than 2^32 outstanding upcalls always leave one. */
  lemma SearchEnds(list: seq<Upcall>, start: U32)
    requires |list| < WORD
    ensures Probe(Ids(list), start, 0) <= |list| && Later(start, Probe(Ids(list), start, 0)) !in Ids(list)
  {
    IdsCount(list);
    var d := Probe(Ids(list), start, 0);
    TakenNeedsIds(Ids(list), start, if d <= WORD then d else WORD);
  }

  // ---- operations ----

  /** alloc_cld_upcall. */
  function Alloc(n: Net): Net {
    var x := Later(n.xid, Probe(Ids(n.list), n.xid, 0));
    Net((x + 1) % WORD, [Upcall(n.last, x)] + n.list, n.last + 1)
  }

  function Without(list: seq<Upcall>, i: nat): seq<Upcall>
    requires i < |list|
  {
    list[..i] + list[i+1..]
  }

  function FindXid(list: seq<Upcall>, xid: U32): (i: int)
    ensures -1 <= i < |list|
    ensures i >= 0 ==> list[i].xid == xid
    ensures i < 0 ==> forall u <- list :: u.xid != xid
  {
    if list == [] then -1 else if list[0].xid == xid then 0
    else var i := FindXid(list[1..], xid); if i < 0 then -1 else i + 1
  }

  /** What the writer of a reply gets, and whom the reply wakes. */
  datatype Answer = Inval | Fault | Woken(waiter: nat)

  /** cld_pipe_downcall on a reply of the right length with a readable id. The upcall is taken off
      the list before the rest of the reply is copied, which can fail. */
  function Downcall(n: Net, xid: U32, copyOk: bool): (Net, Answer) {
    var i := FindXid(n.list, xid);
    if i < 0 then (n, Inval)
    else (n.(list := Without(n.list, i)), if copyOk then Woken(n.list[i].waiter) else Fault)
  }

  function FindWaiter(list: seq<Upcall>, waiter: nat): (i: int)
    ensures -1 <= i < |list|
    ensures i >= 0 ==> list[i].waiter == waiter
  {
    if list == [] then -1 else if list[0].waiter == waiter then 0
    else var i := FindWaiter(list[1..], waiter); if i < 0 then -1 else i + 1
  }

  /** free_cld_upcall; an upcall that was answered is already off the list. */
  function Free(n: Net, waiter: nat): Net {
    var i := FindWaiter(n.list, waiter);
    if i < 0 then n else n.(list := Without(n.list, i))
  }

  datatype Op = OpAlloc | OpDowncall(xid: U32, copyOk: bool) | OpFree(waiter: nat)

  function Step(n: Net, op: Op): Net {
    match op
    case OpAlloc => if |n.list| < WORD - 1 then Alloc(n) else n
    case OpDowncall(xid, copyOk) => Downcall(n, xid, copyOk).0
    case OpFree(waiter) => Free(n, waiter)
  }

  // ---- the invariant ----

  ghost predicate Inv(n: Net) {
    && |n.list| < WORD
    && (forall i, j :: 0 <= i < j < |n.list| ==> n.list[i].xid != n.list[j].xid)
    && (forall i, j :: 0 <= i < j < |n.list| ==> n.list[i].waiter != n.list[j].waiter)
    && (forall i :: 0 <= i < |n.list| ==> n.list[i].waiter < n.last)
  }

  lemma AllocKeeps(n: Net)
    requires Inv(n) && |n.list| < WORD - 1
    ensures Inv(Alloc(n))
  {
    SearchEnds(n.list, n.xid);
    forall i | 0 <= i < |n.list| ensures n.list[i].xid in Ids(n.list) {
      assert n.list[i] in n.list;
    }
  }

  lemma WithoutKeeps(n: Net, i: nat)
    requires Inv(n) && i < |n.list|
    ensures Inv(n.(list := Without(n.list, i)))
  {
    var l := Without(n.list, i);
    assert forall k :: 0 <= k < |l| ==> l[k] == n.list[if k < i then k else k + 1];
  }

  lemma StepKeeps(n: Net, op: Op)
    requires Inv(n)
    ensures Inv(Step(n, op))
  {
    match op
    case OpAlloc => if |n.list| < WORD - 1 { AllocKeeps(n); }
    case OpDowncall(xid, _) => if FindXid(n.list, xid) >= 0 { WithoutKeeps(n, FindXid(n.list, xid)); }
    case OpFree(waiter) => if FindWaiter(n.list, waiter) >= 0 { WithoutKeeps(n, FindWaiter(n.list, waiter)); }
  }

  function Run(n: Net, ops: seq<Op>): Net
    decreases |ops|
  {
    if ops == [] then n else Run(Step(n, ops[0]), ops[1..])
  }

  lemma {:induction false} RunKeeps(n: Net, ops: seq<Op>)
    requires Inv(n)
    ensures Inv(Run(n, ops))
    decreases |ops|
  {
    if ops != [] {
      StepKeeps(n, ops[0]);
      RunKeeps(Step(n, ops[0]), ops[1..]);
    }
  }

  /** Outstanding ids stay pairwise distinct over every run, however often the counter wraps. */
  lemma OutstandingIdsDistinct(xid: U32, ops: seq<Op>, u: Upcall, v: Upcall)
    requires var n := Run(Net(xid, [], 0), ops); u in n.list && v in n.list && u.xid == v.xid
    ensures u == v
  {
    RunKeeps(Net(xid, [], 0), ops);
  }

  /** A reply wakes somebody exactly when an upcall has its id and the rest of it can be copied,
      and then the waiter of the one upcall with that id. That upcall leaves the list whether or not
      the copy succeeds, and no other does, so the same reply finds nobody a second time. */
  lemma ReplyWakesOne(xid: U32, ops: seq<Op>, reply: U32, copyOk: bool, again: bool)
    ensures var n := Run(Net(xid, [], 0), ops);
      var (m, answer) := Downcall(n, reply, copyOk);
      && (answer.Woken? <==> reply in Ids(n.list) && copyOk)
      && (answer.Fault? <==> reply in Ids(n.list) && !copyOk)
      && (answer.Inval? ==> m == n)
      && (answer.Woken? ==> forall u <- n.list :: u.xid == reply <==> u.waiter == answer.waiter)
      && Downcall(m, reply, again).1 == Inval
      && (forall u :: u in m.list <==> u in n.list && u.xid != reply)
  {
    var n := Run(Net(xid, [], 0), ops);
    RunKeeps(Net(xid, [], 0), ops);
    ReplyWakesOneAt(n, reply, copyOk, again);
  }

  lemma WithoutMembers(n: Net, i: nat)
    requires Inv(n) && i < |n.list|
    ensures forall u :: u in Without(n.list, i) <==> u in n.list && u.xid != n.list[i].xid
  {
    var l := Without(n.list, i);
    assert forall k :: 0 <= k < |l| ==> l[k] == n.list[if k < i then k else k + 1];
    forall u ensures u in l <==> u in n.list && u.xid != n.list[i].xid {
      if u in n.list && u.xid != n.list[i].xid {
        var k :| 0 <= k < |n.list| && n.list[k] == u;
        assert l[if k < i then k else k - 1] == u;
      }
    }
  }

  lemma ReplyWakesOneAt(n: Net, reply: U32, copyOk: bool, again: bool)
    requires Inv(n)
    ensures var (m, answer) := Downcall(n, reply, copyOk);
      && (answer.Inval? <==> reply !in Ids(n.list)) && (answer.Woken? ==> copyOk) && (answer.Fault? ==> !copyOk)
      && (answer.Woken? ==> forall u <- n.list :: u.xid == reply <==> u.waiter == answer.waiter)
      && Downcall(m, reply, again).1 == Inval
      && (forall u :: u in m.list <==> u in n.list && u.xid != reply)
  {
    var i := FindXid(n.list, reply);
    if i >= 0 {
      assert n.list[i] in n.list;
      WithoutMembers(n, i);
    }
  }

  // ---- upcalls that no reply can wake any more ----

  /** An upcall was made for this waiter, and it is no longer listed. */
  ghost predicate Unlisted(n: Net, waiter: nat) {
    waiter < n.last && forall u <- n.list :: u.waiter != waiter
  }

  /** Along the run some reply wakes the waiter. */
  predicate EverWoken(n: Net, ops: seq<Op>, waiter: nat)
    decreases |ops|
  {
    ops != [] && (
      || (ops[0].OpDowncall? && Downcall(n, ops[0].xid, ops[0].copyOk).1 == Woken(waiter))
      || EverWoken(Step(n, ops[0]), ops[1..], waiter))
  }

  lemma StepUnlisted(n: Net, op: Op, waiter: nat)
    requires Unlisted(n, waiter)
    ensures Unlisted(Step(n, op), waiter)
    ensures op.OpDowncall? ==> Downcall(n, op.xid, op.copyOk).1 != Woken(waiter)
  {
    if op.OpDowncall? && FindXid(n.list, op.xid) >= 0 {
      assert n.list[FindXid(n.list, op.xid)] in n.list;
    }
  }

  /** Records are never reused, so an upcall off the list is out of reach of every later reply. */
  lemma {:induction false} UnlistedNeverWoken(n: Net, ops: seq<Op>, waiter: nat)
    requires Unlisted(n, waiter)
    ensures !EverWoken(n, ops, waiter)
    decreases |ops|
  {
    if ops != [] {
      StepUnlisted(n, ops[0], waiter);
      UnlistedNeverWoken(Step(n, ops[0]), ops[1..], waiter);
    }
  }

  /** A reply strands a listed waiter, which then no run wakes, exactly when it has the waiter's id
      and cannot be copied; with the copy it wakes that waiter, and with another id neither. */
  lemma StrandsExactly(n: Net, u: Upcall, reply: U32, copyOk: bool, later: seq<Op>)
    requires Inv(n) && u in n.list
    ensures var (m, answer) := Downcall(n, reply, copyOk);
      && (answer == Woken(u.waiter) <==> u.xid == reply && copyOk)
      && (Unlisted(m, u.waiter) && answer != Woken(u.waiter) <==> u.xid == reply && !copyOk)
      && (Unlisted(m, u.waiter) ==> !EverWoken(m, later, u.waiter))
  {
    var (m, answer) := Downcall(n, reply, copyOk);
    ReplyWakesOneAt(n, reply, copyOk, copyOk);
    SameWaiterSameId(n, u);
    if u.xid == reply {
      assert u.xid in Ids(n.list);
    } else {
      assert u in m.list;
    }
    if Unlisted(m, u.waiter) { UnlistedNeverWoken(m, later, u.waiter); }
  }

  lemma SameWaiterSameId(n: Net, u: Upcall)
    requires Inv(n) && u in n.list
    ensures u.waiter < n.last && forall v <- n.list :: v.waiter == u.waiter ==> v == u
  {
    var i :| 0 <= i < |n.list| && n.list[i] == u;
  }

  /** The shortest such run: one upcall, and a reply to it whose copy fails. */
  lemma FailedCopyStrands(xid: U32, later: seq<Op>)
    ensures var n := Run(Net(xid, [], 0), [OpAlloc]); var (m, answer) := Downcall(n, xid, false);
      n.list == [Upcall(0, xid)] && m.list == [] && answer == Fault && !EverWoken(m, later, 0)
  {
    var n := Net(xid, [], 0);
    assert Run(n, [OpAlloc]) == Run(Step(n, OpAlloc), []) by {
      assert [OpAlloc][1..] == [];
    }
    assert Alloc(n).list == [Upcall(0, xid)];
    UnlistedNeverWoken(Downcall(Alloc(n), xid, false).0, later, 0);
  }

  /** n distinct values below n are all of them. */
  lemma {:induction false} FullRange(ids: set<int>, n: nat, x: int)
    requires (forall y <- ids :: 0 <= y < n) && |ids| == n && 0 <= x < n
    ensures x in ids
  {
    if n - 1 in ids {
      if x < n - 1 { FullRange(ids - {n - 1}, n - 1, x); }
    } else {
      BelowCount(ids, n - 1);
    }
  }

  lemma {:induction false} BelowCount(ids: set<int>, n: nat)
    requires forall y <- ids :: 0 <= y < n
    ensures |ids| <= n
  {
    if n == 0 {
      assert forall y :: y !in ids;
      assert ids == {};
    } else {
      BelowCount(ids - {n - 1}, n - 1);
    }
  }

  /** With all 2^32 ids outstanding the search would find none. */
  lemma SearchNeedsAFreeId(ids: set<U32>, start: U32)
    requires |ids| == WORD
    ensures Probe(ids, start, 0) == WORD
  {
    var all: set<int> := ids;
    var d := Probe(ids, start, 0);
    if d < WORD { FullRange(all, WORD, Later(start, d)); }
  }

  // ---- the implementation ----

  class CldNet {
    var xid: U32
    var list: seq<Upcall>
    var last: nat

    ghost function Model(): Net
      reads this
    {
      Net(xid, list, last)
    }

    constructor (xid: U32)
      ensures Model() == Net(xid, [], 0)
    {
      this.xid, list, last := xid, [], 0;
    }

    /** Walks the list for an upcall with the counter's value. */
    method Collides() returns (found: bool)
      ensures found <==> xid in Ids(list)
    {
      for i := 0 to |list|
        invariant forall j :: 0 <= j < i ==> list[j].xid != xid
      {
        if list[i].xid == xid {
          assert list[i] in list;
          return true;
        }
      }
      found := false;
    }

    /** The restart_search loop. */
    method Search()
      requires |list| < WORD
      modifies this`xid
      ensures xid == Later(old(xid), Probe(Ids(list), old(xid), 0))
    {
      ghost var ids, start, k := Ids(list), xid, 0;
      IdsCount(list);
      var collides := Collides();
      while collides
        invariant xid == Later(start, k) && k <= |ids| < WORD
        invariant collides <==> xid in ids
        invariant forall e :: 0 <= e < k ==> Later(start, e) in ids
        decreases |ids| - k
      {
        TakenNeedsIds(ids, start, k + 1);
        LaterNext(start, k);
        xid := (xid + 1) % WORD;
        k := k + 1;
        collides := Collides();
      }
      ProbeIs(ids, start, k);
    }

    method AllocCldUpcall()
      requires |list| < WORD
      modifies this
      ensures Model() == Alloc(old(Model()))
    {
      Search();
      var cup := xid;
      xid := (xid + 1) % WORD;
      list := [Upcall(last, cup)] + list;
      last := last + 1;
    }

    method CldPipeDowncall(reply: U32, copyOk: bool) returns (answer: Answer)
      modifies this`list
      ensures (Model(), answer) == Downcall(old(Model()), reply, copyOk)
    {
      var cup := Unlink(reply);
      if cup.None? {
        return Inval;
      }
      if !copyOk {
        return Fault;
      }
      answer := Woken(cup.value);
    }

    /** The list walk under the lock. */
    method Unlink(reply: U32) returns (cup: Option<nat>)
      modifies this`list
      ensures var i := FindXid(old(list), reply);
        && (cup.Some? <==> i >= 0) && (i < 0 ==> list == old(list))
        && (i >= 0 ==> list == Without(old(list), i) && cup == Some(old(list)[i].waiter))
    {
      for i := 0 to |list|
        invariant list == old(list)
        invariant forall j :: 0 <= j < i ==> list[j].xid != reply
      {
        if list[i].xid == reply {
          FirstXid(list, reply, i);
          cup := Some(list[i].waiter);
          list := list[..i] + list[i+1..];
          return;
        }
      }
      cup := None;
    }

    method FreeCldUpcall(waiter: nat)
      modifies this`list
      ensures Model() == Free(old(Model()), waiter)
    {
      var i := FindWaiter(list, waiter);
      if i >= 0 {
        list := list[..i] + list[i+1..];
      }
    }
  }

  lemma {:induction false} FirstXid(list: seq<Upcall>, xid: U32, i: nat)
    requires i < |list| && list[i].xid == xid && forall j :: 0 <= j < i ==> list[j].xid != xid
    ensures FindXid(list, xid) == i
  {
    if i > 0 { FirstXid(list[1..], xid, i - 1); }
  }
}
