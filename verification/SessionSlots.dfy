/** The forward-channel slots of one NFSv4.1 session and their replay cache, section 2.10.6.1 of
    RFC 5661 (fs/nfsd/nfs4state.c:1461-1539, 1689-1708, 1994-2095; fs/nfsd/nfs4xdr.c:3661-3691). */
module SessionSlots {

  // ---- data ----

  const SEQ_MOD: int := 0x1_0000_0000

  type Seqid = x: int | 0 <= x < SEQ_MOD

  type Byte = x: int | 0 <= x < 256

  /** struct nfsd4_slot. */
  datatype Slot = Slot(seqid: Seqid, inuse: bool, cachethis: bool, initialized: bool,
                       opcnt: nat, status: nat, data: seq<Byte>)

  /** A slot as allocated. */
  const NEW_SLOT := Slot(0, false, false, false, 0, 0, [])

  /** What SEQUENCE sees of a compound: `ops` is its operation count, `size` its bytes. */
  datatype Request = Request(slotid: nat, seqid: Seqid, cachethis: bool, ops: nat, size: nat)

  /** A compound's outcome; `data` is what follows the encoded SEQUENCE. */
  datatype Reply = Reply(opcnt: nat, status: nat, data: seq<Byte>)

  datatype Limits = Limits(maxops: nat, maxreqSize: nat)

  datatype Answer =
    | Execute
    | Stored(reply: Reply)
    | RetryUncached
    | Jukebox
    | Misordered
    | TooManyOps
    | RequestTooBig
    | BadSlot

  datatype Check = Next | Same | Busy | Wrong

  // ---- one slot ----

  /** check_slot_seqid. */
  function CheckSlotSeqid(seqid: Seqid, slotSeqid: Seqid, inuse: bool): Check {
    if inuse then (if seqid == slotSeqid then Busy else Wrong)
    else if seqid == (slotSeqid + 1) % SEQ_MOD then Next
    else if seqid == slotSeqid then Same
    else Wrong
  }

  /** nfsd4_replay_cache_entry. */
  function Replay(slot: Slot, q: Request): Answer {
    if q.ops > 1 && !slot.cachethis then RetryUncached else Stored(Reply(slot.opcnt, slot.status, slot.data))
  }

  /** nfsd4_sequence once the slot has been found. */
  function OnSlot(slot: Slot, q: Request): (Slot, Answer) {
    match CheckSlotSeqid(q.seqid, slot.seqid, slot.inuse)
    case Next => (slot.(seqid := q.seqid, inuse := true, cachethis := q.cachethis), Execute)
    case Same => (slot, if slot.initialized then Replay(slot, q) else Misordered)
    case Busy => (slot, Jukebox)
    case Wrong => (slot, Misordered)
  }

  /** nfsd4_not_cached, for a compound that starts with SEQUENCE. */
  predicate NotCached(slot: Slot, r: Reply) {
    !slot.cachethis || r.opcnt == 1
  }

  /** nfsd4_store_cache_entry and the release of the slot. */
  function Finish(slot: Slot, r: Reply): Slot {
    slot.(opcnt := r.opcnt, status := r.status, initialized := true, inuse := false,
          data := if NotCached(slot, r) then [] else r.data)
  }

  // ---- the session ----

  /** One execution on a slot: what was asked, and the reply once there is one. */
  datatype Exec = Exec(request: Request, done: bool, reply: Reply)

  const NO_REPLY := Reply(0, 0, [])

  /** The slots, with what each slot has executed so far as a history variable. */
  datatype Session = Session(limits: Limits, slots: seq<Slot>, hist: seq<seq<Exec>>)

  /** The checks nfsd4_sequence makes before it looks at the slot. */
  function Refused(limits: Limits, slots: nat, q: Request): (bool, Answer) {
    if q.ops > limits.maxops then (true, TooManyOps)
    else if q.size > limits.maxreqSize then (true, RequestTooBig)
    else if q.slotid >= slots then (true, BadSlot)
    else (false, Execute)
  }

  function Sequence(s: Session, q: Request): (Session, Answer)
    requires |s.hist| == |s.slots|
  {
    var (no, why) := Refused(s.limits, |s.slots|, q);
    if no then (s, why)
    else
      var k := q.slotid;
      var (slot, a) := OnSlot(s.slots[k], q);
      if a != Execute then (s, a)
      else (s.(slots := s.slots[k := slot], hist := s.hist[k := s.hist[k] + [Exec(q, false, NO_REPLY)]]), a)
  }

  /** The compound running on slot k ends: nfs4svc_encode_compoundres. */
  function Encode(s: Session, k: nat, r: Reply): Session
    requires |s.hist| == |s.slots| && k < |s.slots| && s.hist[k] != []
  {
    var h := s.hist[k];
    s.(slots := s.slots[k := Finish(s.slots[k], r)],
       hist := s.hist[k := h[|h|-1 := Exec(h[|h|-1].request, true, r)]])
  }

  /** A reply counts the operations it ran, and holds no bytes when SEQUENCE was the only one. */
  predicate ReplyTo(q: Request, r: Reply) {
    1 <= r.opcnt <= q.ops && (r.opcnt == 1 ==> r.data == [])
  }

  datatype Event = Arrive(q: Request) | End(slotid: nat, r: Reply)

  /** Only a running compound can end. */
  predicate Enabled(s: Session, e: Event) {
    e.End? ==>
      && e.slotid < |s.slots| && |s.hist| == |s.slots| && s.slots[e.slotid].inuse
      && s.hist[e.slotid] != [] && ReplyTo(s.hist[e.slotid][|s.hist[e.slotid]|-1].request, e.r)
  }

  function Step(s: Session, e: Event): Session
    requires |s.hist| == |s.slots|
  {
    if !Enabled(s, e) then s
    else match e
      case Arrive(q) => Sequence(s, q).0
      case End(k, r) => Encode(s, k, r)
  }

  // ---- the invariant ----

  /** The id of the k-th execution on a slot, counting from zero. */
  function IdOf(k: nat): Seqid {
    (k + 1) % SEQ_MOD
  }

  /** A slot stands for its history: it holds the last id, is in use while the last execution
      runs, and holds the last reply once there is one. */
  ghost predicate Tracks(slot: Slot, h: seq<Exec>) {
    && slot.seqid == |h| % SEQ_MOD
    && (forall k :: 0 <= k < |h| ==> h[k].request.seqid == IdOf(k))
    && (forall k :: 0 <= k < |h| - 1 ==> h[k].done)
    && (forall k :: 0 <= k < |h| && h[k].done ==> ReplyTo(h[k].request, h[k].reply))
    && slot.inuse == (h != [] && !h[|h|-1].done)
    && (h == [] ==> !slot.initialized)
    && (h != [] ==> slot.cachethis == h[|h|-1].request.cachethis)
    && (h != [] && h[|h|-1].done ==> slot.initialized && Holds(slot, h[|h|-1].reply))
  }

  predicate Holds(slot: Slot, r: Reply) {
    slot.opcnt == r.opcnt && slot.status == r.status && slot.data == if slot.cachethis then r.data else []
  }

  ghost predicate Inv(s: Session) {
    && |s.hist| == |s.slots|
    && (forall k :: 0 <= k < |s.slots| ==> Tracks(s.slots[k], s.hist[k]))
    && (forall k :: 0 <= k < |s.slots| ==> Admitted(s.limits, |s.slots|, k, s.hist[k]))
  }

  /** What ran on slot k was addressed to it and within the limits. */
  ghost predicate Admitted(limits: Limits, slots: nat, k: nat, h: seq<Exec>) {
    forall i :: 0 <= i < |h| ==> h[i].request.slotid == k && !Refused(limits, slots, h[i].request).0
  }

  lemma AcceptTracks(slot: Slot, h: seq<Exec>, q: Request)
    requires Tracks(slot, h) && OnSlot(slot, q).1 == Execute
    ensures Tracks(OnSlot(slot, q).0, h + [Exec(q, false, NO_REPLY)])
  {
    var g := h + [Exec(q, false, NO_REPLY)];
    assert forall k :: 0 <= k < |h| ==> g[k] == h[k];
  }

  lemma FinishTracks(slot: Slot, h: seq<Exec>, r: Reply)
    requires Tracks(slot, h) && slot.inuse && h != [] && ReplyTo(h[|h|-1].request, r)
    ensures Tracks(Finish(slot, r), h[|h|-1 := Exec(h[|h|-1].request, true, r)])
  {
  }

  lemma StepKeeps(s: Session, e: Event)
    requires Inv(s)
    ensures Inv(Step(s, e))
  {
    if Enabled(s, e) {
      match e
      case Arrive(q) =>
        if Sequence(s, q).1 == Execute { AcceptTracks(s.slots[q.slotid], s.hist[q.slotid], q); }
      case End(k, r) =>
        FinishTracks(s.slots[k], s.hist[k], r);
    }
  }

  // ---- all runs ----

  function NewSession(limits: Limits, slots: nat): (s: Session) {
    Session(limits, seq(slots, _ => NEW_SLOT), seq(slots, _ => []))
  }

  ghost predicate Reachable(s: Session, es: seq<Event>)
    decreases |es|
  {
    if es == [] then s == NewSession(s.limits, |s.slots|)
    else exists t :: Reachable(t, es[..|es|-1]) && |t.hist| == |t.slots| && s == Step(t, es[|es|-1])
  }

  lemma {:induction false} ReachableInv(s: Session, es: seq<Event>)
    requires Reachable(s, es)
    ensures Inv(s)
    decreases |es|
  {
    if es != [] {
      var t :| Reachable(t, es[..|es|-1]) && |t.hist| == |t.slots| && s == Step(t, es[|es|-1]);
      ReachableInv(t, es[..|es|-1]);
      StepKeeps(t, es[|es|-1]);
    }
  }

  lemma ReachableSlot(s: Session, es: seq<Event>, k: nat)
    requires Reachable(s, es) && k < |s.slots|
    ensures |s.hist| == |s.slots| && Tracks(s.slots[k], s.hist[k]) && Admitted(s.limits, |s.slots|, k, s.hist[k])
  {
    ReachableInv(s, es);
  }

  lemma SameId(i: nat, j: nat)
    requires i <= j
    ensures IdOf(i) == IdOf(j) <==> (j - i) % SEQ_MOD == 0
  {
    assert i + 1 == (i + 1) / SEQ_MOD * SEQ_MOD + IdOf(i);
    assert j + 1 == (j + 1) / SEQ_MOD * SEQ_MOD + IdOf(j);
    assert j - i == (j - i) / SEQ_MOD * SEQ_MOD + (j - i) % SEQ_MOD;
  }

  /** Accepted ids are consecutive modulo 2^32, starting from 1; no two executions overlap. */
  lemma ConsecutiveIds(s: Session, es: seq<Event>, k: nat, i: nat)
    requires Reachable(s, es) && k < |s.hist| && i < |s.hist[k]|
    ensures s.hist[k][i].request.seqid == (i + 1) % SEQ_MOD
    ensures i < |s.hist[k]| - 1 ==> s.hist[k][i].done
  {
    ReachableInv(s, es);
  }

  /** Two executions on a slot carry the same id exactly when a multiple of 2^32 apart. */
  lemma IdsRepeatOnlyAfterWrap(s: Session, es: seq<Event>, k: nat, i: nat, j: nat)
    requires Reachable(s, es) && k < |s.hist| && i <= j < |s.hist[k]|
    ensures s.hist[k][i].request.seqid == s.hist[k][j].request.seqid <==> (j - i) % SEQ_MOD == 0
  {
    ConsecutiveIds(s, es, k, i);
    ConsecutiveIds(s, es, k, j);
    SameId(i, j);
  }

  /** A request runs exactly when it is within the limits, its slot is idle and its id is the
      one after the last executed. */
  lemma ExecutesExactlyNext(s: Session, es: seq<Event>, q: Request)
    requires Reachable(s, es) && |s.hist| == |s.slots|
    ensures Sequence(s, q).1 == Execute <==>
      && q.ops <= s.limits.maxops && q.size <= s.limits.maxreqSize && q.slotid < |s.slots|
      && q.seqid == IdOf(|s.hist[q.slotid]|)
      && (forall i :: 0 <= i < |s.hist[q.slotid]| ==> s.hist[q.slotid][i].done)
  {
    if q.slotid < |s.slots| {
      ReachableSlot(s, es, q.slotid);
      RunsExactlyNext(s.slots[q.slotid], s.hist[q.slotid], q);
    }
  }

  lemma RunsExactlyNext(slot: Slot, h: seq<Exec>, q: Request)
    requires Tracks(slot, h)
    ensures OnSlot(slot, q).1 == Execute <==> q.seqid == IdOf(|h|) && forall i :: 0 <= i < |h| ==> h[i].done
  {
    assert (slot.seqid + 1) % SEQ_MOD == IdOf(|h|);
  }

  /** An id that was executed is not executed again before 2^32 - 1 others were. */
  lemma NoEarlyReexecution(s: Session, es: seq<Event>, q: Request, i: nat)
    requires Reachable(s, es) && |s.hist| == |s.slots| && q.slotid < |s.slots|
    requires i < |s.hist[q.slotid]| && s.hist[q.slotid][i].request.seqid == q.seqid
    requires Sequence(s, q).1 == Execute
    ensures |s.hist[q.slotid]| - i - 1 >= SEQ_MOD - 1
  {
    ConsecutiveIds(s, es, q.slotid, i);
    ExecutesExactlyNext(s, es, q);
    SameId(i, |s.hist[q.slotid]|);
  }

  /** While a compound runs on a slot nothing else runs there, and a copy of it is told to wait. */
  lemma BusySlot(s: Session, es: seq<Event>, q: Request)
    requires Reachable(s, es) && |s.hist| == |s.slots| && q.slotid < |s.slots|
    requires var h := s.hist[q.slotid]; h != [] && !h[|h|-1].done
    ensures Sequence(s, q).0 == s
    ensures q == s.hist[q.slotid][|s.hist[q.slotid]|-1].request ==> Sequence(s, q).1 == Jukebox
  {
    ReachableSlot(s, es, q.slotid);
  }

  /** A retry of a finished compound changes nothing, and gets the stored count, status and bytes
      exactly when caching was asked for or SEQUENCE is all it holds. */
  lemma RetryGetsStoredReply(s: Session, es: seq<Event>, q: Request)
    requires Reachable(s, es) && |s.hist| == |s.slots| && q.slotid < |s.slots|
    requires var h := s.hist[q.slotid]; h != [] && h[|h|-1].done && h[|h|-1].request == q
    ensures Sequence(s, q).0 == s
    ensures var r := s.hist[q.slotid][|s.hist[q.slotid]|-1].reply;
      Sequence(s, q).1 == if q.cachethis || q.ops == 1 then Stored(r) else RetryUncached
  {
    ReachableSlot(s, es, q.slotid);
    var h := s.hist[q.slotid];
    assert ReplyTo(q, h[|h|-1].reply);
  }

  /** A slot that never ran anything has nothing to replay: id 0 is refused, not answered. */
  lemma UnusedSlotReplaysNothing(s: Session, es: seq<Event>, q: Request)
    requires Reachable(s, es) && |s.hist| == |s.slots| && !Refused(s.limits, |s.slots|, q).0
    requires s.hist[q.slotid] == []
    ensures Sequence(s, q).1 == if q.seqid == 1 then Execute else Misordered
  {
    ReachableSlot(s, es, q.slotid);
  }

  /** Traffic on one slot leaves the others as they were. */
  lemma OtherSlotsUntouched(s: Session, e: Event, k: nat)
    requires |s.hist| == |s.slots| && k < |s.slots|
    requires k != if e.Arrive? then e.q.slotid else e.slotid
    ensures var t := Step(s, e);
      |t.slots| == |t.hist| == |s.slots| && t.slots[k] == s.slots[k] && t.hist[k] == s.hist[k]
  {
  }

  // ---- the implementation ----

  /** The fields nfs4svc_encode_compoundres and nfsd4_sequence update in place. */
  class SlotTable {
    const limits: Limits
    const slots: array<Slot>
    ghost var hist: seq<seq<Exec>>

    ghost predicate Valid()
      reads this
    {
      |hist| == slots.Length
    }

    ghost function Model(): (s: Session)
      reads this, slots
    {
      Session(limits, slots[..], hist)
    }

    constructor (limits: Limits, n: nat)
      ensures Valid() && fresh(slots)
      ensures Model() == NewSession(limits, n)
    {
      this.limits := limits;
      slots := new Slot[n](_ => NEW_SLOT);
      hist := seq(n, _ => []);
      new;
      assert slots[..] == NewSession(limits, n).slots;
      assert hist == NewSession(limits, n).hist;
    }

    method OnSequence(q: Request) returns (a: Answer)
      requires Valid()
      modifies this`hist, slots
      ensures Valid() && (Model(), a) == Sequence(old(Model()), q)
    {
      if q.ops > limits.maxops {
        return TooManyOps;
      }
      if q.size > limits.maxreqSize {
        return RequestTooBig;
      }
      if q.slotid >= slots.Length {
        return BadSlot;
      }
      var k := q.slotid;
      var check := CheckSlotSeqid(q.seqid, slots[k].seqid, slots[k].inuse);
      match check {
        case Same =>
          a := if slots[k].initialized then Replay(slots[k], q) else Misordered;
        case Busy =>
          a := Jukebox;
        case Wrong =>
          a := Misordered;
        case Next =>
          slots[k] := slots[k].(seqid := q.seqid);
          slots[k] := slots[k].(inuse := true);
          slots[k] := slots[k].(cachethis := q.cachethis);
          hist := hist[k := hist[k] + [Exec(q, false, NO_REPLY)]];
          a := Execute;
          assert slots[..] == old(slots[..])[k := OnSlot(old(slots[k]), q).0];
      }
    }

    method EncodeCompoundRes(k: nat, r: Reply)
      requires Valid() && k < slots.Length && hist[k] != []
      modifies this`hist, slots
      ensures Valid() && Model() == Encode(old(Model()), k, r)
    {
      slots[k] := slots[k].(opcnt := r.opcnt, status := r.status);
      slots[k] := slots[k].(initialized := true);
      slots[k] := slots[k].(data := if NotCached(slots[k], r) then [] else r.data);
      slots[k] := slots[k].(inuse := false);
      var h := hist[k];
      hist := hist[k := h[|h|-1 := Exec(h[|h|-1].request, true, r)]];
    }
  }
}
