/** Stateid generation numbers (fs/nfsd/state.h:298-305, fs/nfsd/nfs4state.c:3319-3358): a 32-bit
    counter that skips zero, compared through a signed difference. */
module StateidGen {

  const WORD: int := 0x1_0000_0000
  const HALF: int := 0x8000_0000

  type U32 = x: int | 0 <= x < WORD

  /** update_stateid: increments, and increments again over zero. */
  function Update(g: U32): U32 {
    var h := (g + 1) % WORD;
    if h == 0 then (h + 1) % WORD else h
  }

  function Updates(g: U32, k: nat): U32 {
    if k == 0 then g else Update(Updates(g, k - 1))
  }

  function Signed(x: U32): int {
    if x < HALF then x else x - WORD
  }

  /** stateid_generation_after: the signed difference of two values read as signed, which wraps. */
  predicate After(a: U32, b: U32) {
    Signed((Signed(a) - Signed(b)) % WORD) > 0
  }

  datatype Status = Ok | BadStateid | OldStateid

  /** check_stateid_generation. */
  function Check(given: U32, current: U32, hasSession: bool): Status {
    if hasSession && given == 0 then Ok
    else if given == current then Ok
    else if After(given, current) then BadStateid
    else OldStateid
  }

  /** How far current is ahead of given, modulo 2^32. */
  function Ahead(given: U32, current: U32): U32 {
    (current - given) % WORD
  }

  /** The verdict depends only on that distance: the same, up to half way round behind, or in
      front. The value exactly half way round counts as old, whichever of the two is given. */
  lemma CheckByDistance(given: U32, current: U32)
    ensures Check(given, current, false) ==
      if Ahead(given, current) == 0 then Ok else if Ahead(given, current) <= HALF then OldStateid else BadStateid
  {
  }

  /** Two values never judge each other both newer; they judge each other both old only when they
      are exactly half the range apart. */
  lemma VerdictsOppose(a: U32, b: U32)
    requires a != b
    ensures Check(a, b, false) == Check(b, a, false) == OldStateid <==> Ahead(a, b) == HALF
    ensures Ahead(a, b) != HALF ==> (Check(a, b, false) == OldStateid <==> Check(b, a, false) == BadStateid)
  {
    CheckByDistance(a, b);
    CheckByDistance(b, a);
    assert Ahead(b, a) == WORD - Ahead(a, b);
  }

  /** How many values the counter takes: all but zero. */
  const TURN: int := WORD - 1

  /** Wherever the counter starts, any number of updates leaves it at a value other than zero, and
      that many places on around the turn of 2^32 - 1 values. */
  lemma {:induction false} UpdatesGoRound(g: U32, k: nat)
    requires g != 0
    ensures Updates(g, k) == (g - 1 + k) % TURN + 1
  {
    if k > 0 {
      UpdatesGoRound(g, k - 1);
      UpdateRound(Updates(g, k - 1), g - 1 + (k - 1));
    }
  }

  lemma UpdateRound(g: U32, x: nat)
    requires g == x % TURN + 1
    ensures Update(g) == (x + 1) % TURN + 1
  {
    assert x + 1 == x / TURN * TURN + g;
  }

  /** After any number of updates, whatever the value before the first, the generation is not zero. */
  lemma NeverZero(g: U32, k: nat)
    requires k > 0
    ensures Updates(g, k) != 0
  {
    assert Updates(g, k) == Update(Updates(g, k - 1));
  }

  /** Whether k updates from g, less full turns, pass the skipped zero. */
  predicate Crosses(g: U32, k: nat) {
    g + k % TURN >= WORD
  }

  /** How far ahead k updates are of g: what exceeds full turns, and one more if zero was skipped. */
  function Gap(g: U32, k: nat): nat {
    k % TURN + if Crosses(g, k) then 1 else 0
  }

  lemma GapIsAhead(g: U32, k: nat)
    requires g != 0
    ensures Ahead(g, Updates(g, k)) == Gap(g, k)
    ensures Gap(g, k) == 0 <==> k % TURN == 0
  {
    UpdatesGoRound(g, k);
    SumRound(g - 1, k);
    var r := k % TURN;
    assert Updates(g, k) == if Crosses(g, k) then g + r - TURN else g + r;
    AheadOf(g, r, Updates(g, k));
  }

  lemma AheadOf(g: U32, r: nat, h: U32)
    requires g != 0 && r < TURN && h == if g + r >= WORD then g + r - TURN else g + r
    ensures Ahead(g, h) == r + if g + r >= WORD then 1 else 0
  {
  }

  lemma SumRound(a: nat, k: nat)
    requires a < TURN
    ensures (a + k) % TURN == if a + k % TURN < TURN then a + k % TURN else a + k % TURN - TURN
  {
    assert a + k == k / TURN * TURN + (a + k % TURN);
  }

  /** After any number k of updates the older value is judged the current one exactly when k is full
      turns, old exactly when the gap is at most half the range, and from the future otherwise. */
  lemma OldExactly(g: U32, k: nat)
    requires g != 0
    ensures Check(g, Updates(g, k), false) ==
      if k % TURN == 0 then Ok else if Gap(g, k) <= HALF then OldStateid else BadStateid
  {
    GapIsAhead(g, k);
    CheckByDistance(g, Updates(g, k));
  }

  /** And the newer value, checked against the older, is judged from the future exactly when the gap
      is less than half the range. */
  lemma FutureExactly(g: U32, k: nat)
    requires g != 0
    ensures Check(Updates(g, k), g, false) ==
      if k % TURN == 0 then Ok else if Gap(g, k) < HALF then BadStateid else OldStateid
  {
    GapIsAhead(g, k);
    FutureByDistance(g, Updates(g, k));
  }

  lemma FutureByDistance(a: U32, b: U32)
    ensures Check(b, a, false) == if Ahead(a, b) == 0 then Ok else if Ahead(a, b) < HALF then BadStateid else OldStateid
  {
    CheckByDistance(b, a);
    if a != b { AheadBack(a, b); }
  }

  /** The older value is the current one again exactly after full turns. */
  lemma CurrentOnlyAfterFullTurns(g: U32, k: nat)
    requires g != 0
    ensures Updates(g, k) == g <==> k % TURN == 0
  {
    GapIsAhead(g, k);
  }

  lemma AheadBack(a: U32, b: U32)
    requires a != b
    ensures Ahead(b, a) == WORD - Ahead(a, b)
  {
  }

  /** With sessions a zero generation stands for whatever is current; without them it is judged
      like any other value. */
  lemma ZeroGeneration(current: U32, hasSession: bool)
    requires current != 0
    ensures Check(0, current, hasSession) == if hasSession then Ok else if current <= HALF then OldStateid
      else BadStateid
  {
    CheckByDistance(0, current);
  }

  /** A stateid, whose generation the server updates in place. */
  class Stateid {
    var generation: U32

    constructor ()
      ensures generation == 0
    {
      generation := 0;
    }

    method UpdateStateid()
      modifies this
      ensures generation == Update(old(generation))
    {
      generation := (generation + 1) % WORD;
      if generation == 0 {
        generation := 1;
      }
    }
  }
}
