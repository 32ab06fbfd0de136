/** Writing a READDIRPLUS reply entry by entry into reserved pages (fs/nfsd/nfs3xdr.c:64-72,
    575-592, 792-998; fs/nfsd/nfs3proc.c:462-514): entries that straddle a page boundary, and
    64-bit cookies that do. */
module ReaddirWriter {
  import opened Common

  const WORD: int := 0x1_0000_0000
  const WORD64: int := 0x1_0000_0000_0000_0000

  type Word = x: int | 0 <= x < WORD
  type Byte = x: int | 0 <= x < 256
  type U64 = x: int | 0 <= x < WORD64

  /** Words in a page. */
  const PW := 1024

  const NFS3_MAXNAMLEN := 255
  const ENTRY_BAGGAGE := 2 + 1 + 2 + 1
  const ENTRYPLUS_BAGGAGE := 1 + 21 + 1 + 16
  const OFFSET_MAX: U64 := 0x7fff_ffff_ffff_ffff

  // ---- entries as words ----

  /** A directory entry; `plus` is its attributes and file handle, already as words. */
  datatype Entry = Entry(name: seq<Byte>, offset: U64, ino: U64, plus: seq<Word>)

  /** What the encoders can produce: a file handle of 64 bytes takes one word more than the size
      estimate allows for, its length. */
  predicate Sized(e: Entry) {
    |e.plus| <= ENTRYPLUS_BAGGAGE + 1
  }

  /** The estimate covers the entry. */
  predicate Estimated(e: Entry) {
    |e.plus| <= ENTRYPLUS_BAGGAGE
  }

  function Min(a: int, b: int): int {
    if a <= b then a else b
  }

  /** The name as sent: overlong ones are cut. */
  function Name(e: Entry): seq<Byte> {
    if |e.name| > NFS3_MAXNAMLEN then e.name[..NFS3_MAXNAMLEN] else e.name
  }

  function QuadLen(n: nat): nat {
    (n + 3) / 4
  }

  function ByteAt(s: seq<Byte>, i: nat): Byte {
    if i < |s| then s[i] else 0
  }

  /** Bytes packed into words, padded with zeros. */
  function Pack(s: seq<Byte>): (r: seq<Word>)
    ensures |r| == QuadLen(|s|)
    decreases |s|
  {
    if s == [] then []
    else
      [ByteAt(s, 0) * 0x100_0000 + ByteAt(s, 1) * 0x1_0000 + ByteAt(s, 2) * 0x100 + ByteAt(s, 3)]
      + Pack(if |s| <= 4 then [] else s[4..])
  }

  function High(x: U64): Word { x / WORD }

  function Low(x: U64): Word { x % WORD }

  function Hyper(x: U64): seq<Word> {
    [High(x), Low(x)]
  }

  /** The words up to the cookie. */
  function Front(e: Entry): (r: seq<Word>)
    ensures |r| == 4 + QuadLen(|Name(e)|)
  {
    [1] + Hyper(e.ino) + [|Name(e)|] + Pack(Name(e))
  }

  /** An entry whose cookie is `next`. */
  function Words(e: Entry, next: U64): (r: seq<Word>)
    ensures |r| == |Front(e)| + 2 + |e.plus|
  {
    Front(e) + Hyper(next) + e.plus
  }

  /** The estimate encode_entry makes of an entry's length. */
  function Estimate(e: Entry): nat {
    QuadLen(|Name(e)|) + ENTRY_BAGGAGE + ENTRYPLUS_BAGGAGE
  }

  // ---- the flat reply ----

  /** One growing sequence of words, and where the last entry's cookie is. */
  datatype Flat = Flat(out: seq<Word>, cookie: Option<nat>)
  {
    predicate Valid() {
      cookie.Some? ==> cookie.value + 2 <= |out|
    }
  }

  /** Filling in the last entry's cookie. */
  function Patch(f: Flat, next: U64): (g: Flat)
    requires f.Valid()
    ensures g.Valid() && |g.out| == |f.out| && g.cookie == f.cookie
  {
    if f.cookie.None? then f
    else f.(out := f.out[f.cookie.value := High(next)][f.cookie.value + 1 := Low(next)])
  }

  /** An entry gives the one before it its cookie, and follows it. */
  function Append(f: Flat, e: Entry): (g: Flat)
    requires f.Valid()
    ensures g.Valid()
  {
    Flat(Patch(f, e.offset).out + Words(e, OFFSET_MAX), Some(|f.out| + |Front(e)|))
  }

  function Appended(es: seq<Entry>): (f: Flat)
    ensures f.Valid()
  {
    if es == [] then Flat([], None) else Append(Appended(es[..|es|-1]), es[|es|-1])
  }

  /** The reply as it should read: each cookie is the next entry's offset, the last is `last`. */
  function Rendered(es: seq<Entry>, last: U64): seq<Word> {
    if es == [] then [] else Rendered(es[..|es|-1], es[|es|-1].offset) + Words(es[|es|-1], last)
  }

  lemma {:induction false} AppendedIsRendered(es: seq<Entry>, last: U64)
    ensures Patch(Appended(es), last).out == Rendered(es, last)
    ensures Appended(es).out == Rendered(es, OFFSET_MAX)
  {
    if es != [] {
      var m, e := es[..|es|-1], es[|es|-1];
      AppendedIsRendered(m, e.offset);
      var front := Patch(Appended(m), e.offset).out;
      PatchTail(front, e, last);
    }
  }

  /** How many words the first i entries take. */
  function Start(es: seq<Entry>, i: nat): nat
    requires i <= |es|
  {
    if i == 0 then 0 else Start(es, i - 1) + |Words(es[i-1], 0)|
  }

  lemma {:induction false} StartPrefix(es: seq<Entry>, i: nat)
    requires es != [] && i < |es|
    ensures Start(es[..|es|-1], i) == Start(es, i)
  {
    if i > 0 { StartPrefix(es, i - 1); }
  }

  lemma {:induction false} RenderedLength(es: seq<Entry>, last: U64)
    ensures |Rendered(es, last)| == Start(es, |es|)
  {
    if es != [] {
      RenderedLength(es[..|es|-1], es[|es|-1].offset);
      StartPrefix(es, |es| - 1);
    }
  }

  predicate FoundAt(out: seq<Word>, at: nat, ws: seq<Word>) {
    at + |ws| <= |out| && out[at..at + |ws|] == ws
  }

  lemma FoundInFront(a: seq<Word>, b: seq<Word>, at: nat, ws: seq<Word>)
    requires FoundAt(a, at, ws)
    ensures FoundAt(a + b, at, ws)
  {
    assert (a + b)[at..at + |ws|] == a[at..at + |ws|];
  }

  lemma FoundBehind(a: seq<Word>, b: seq<Word>)
    ensures FoundAt(a + b, |a|, b)
  {
    assert (a + b)[|a|..|a| + |b|] == b;
  }

  function Next(es: seq<Entry>, last: U64, i: nat): U64
    requires i < |es|
  {
    if i + 1 < |es| then es[i + 1].offset else last
  }

  /** Where entry i of the reply lies: there are its words, with the offset of the entry that follows
      it, or at the end the directory's last offset, as its cookie. */
  lemma {:induction false} RenderedEntry(es: seq<Entry>, last: U64, i: nat)
    requires i < |es|
    ensures FoundAt(Rendered(es, last), Start(es, i), Words(es[i], Next(es, last, i)))
    decreases |es|
  {
    var m, e := es[..|es|-1], es[|es|-1];
    StartPrefix(es, i);
    if i < |m| {
      RenderedEntry(m, e.offset, i);
      assert m[i] == es[i] && Next(m, e.offset, i) == Next(es, last, i);
      FoundInFront(Rendered(m, e.offset), Words(e, last), Start(es, i), Words(es[i], Next(es, last, i)));
    } else {
      RenderedLength(m, e.offset);
      FoundBehind(Rendered(m, e.offset), Words(e, last));
    }
  }

  lemma PatchTail(front: seq<Word>, e: Entry, last: U64)
    ensures Patch(Flat(front + Words(e, OFFSET_MAX), Some(|front| + |Front(e)|)), last).out == front + Words(e, last)
  {
    var a, b := front + Words(e, OFFSET_MAX), front + Words(e, last);
    var c := |front| + |Front(e)|;
    assert b[c] == High(last) && b[c + 1] == Low(last);
    assert a[..c] == b[..c] && a[c + 2..] == b[c + 2..];
  }

  // ---- pages ----

  /** A word's place: which reserved page, and where in it. */
  datatype Ptr = Ptr(page: nat, word: nat)
  {
    function Index(): nat { page * PW + word }
  }

  /** Where the cookie of an entry written at p lies: in p's page, in the next, or half in each. */
  function CookiePtr(p: Ptr, o: nat): (Ptr, Option<Ptr>) {
    var rem := PW - p.word;
    if o + 2 <= rem then (Ptr(p.page, p.word + o), None)
    else if o >= rem then (Ptr(p.page + 1, o - rem), None)
    else (Ptr(p.page, p.word + o), Some(Ptr(p.page + 1, 0)))
  }

  lemma PatchTwice(f: Flat, next: U64)
    requires f.Valid()
    ensures Patch(Patch(f, next), next) == Patch(f, next)
  {
  }

  /** Where in its page the buffer pointer stands after an entry written at word w. An entry whose
      estimate fits is left in the page, any other is split when it reaches the page's end. */
  function After(w: nat, e: Entry): nat {
    if w + Estimate(e) < PW then w + |Words(e, OFFSET_MAX)| else (w + |Words(e, OFFSET_MAX)|) % PW
  }

  function Place(es: seq<Entry>): nat {
    if es == [] then 0 else After(Place(es[..|es|-1]), es[|es|-1])
  }

  /** How many entries are taken from word w on with `room` words left: each needs its estimate, uses
      its size, and cannot be written once the pointer stands behind its page. */
  function Taken(es: seq<Entry>, room: int, w: nat): (n: nat)
    ensures n <= |es|
  {
    if es == [] || room < Estimate(es[0]) || w == PW then 0
    else 1 + Taken(es[1..], room - |Words(es[0], OFFSET_MAX)|, After(w, es[0]))
  }

  /** The pointer gets there exactly when an entry is one word longer than its estimate, and the
      estimate fits into the page with that one word to spare. */
  lemma EdgeExactly(w: nat, e: Entry)
    requires w < PW && Sized(e)
    ensures After(w, e) <= PW
    ensures After(w, e) == PW <==> !Estimated(e) && w + Estimate(e) == PW - 1
  {
  }

  /** So it does not as long as the estimates cover the entries, and then only the room decides. */
  function Fitting(es: seq<Entry>, room: int): nat {
    if es == [] || room < Estimate(es[0]) then 0 else 1 + Fitting(es[1..], room - |Words(es[0], OFFSET_MAX)|)
  }

  lemma {:induction false} EstimatedStaysInPage(es: seq<Entry>, room: int, w: nat)
    requires w < PW && forall e <- es :: Estimated(e)
    ensures Taken(es, room, w) == Fitting(es, room)
    decreases |es|
  {
    if es != [] {
      assert es[0] in es;
      EdgeExactly(w, es[0]);
      EstimatedStaysInPage(es[1..], room - |Words(es[0], OFFSET_MAX)|, After(w, es[0]));
    }
  }

  lemma {:induction false} EstimatedPlace(es: seq<Entry>)
    requires forall e <- es :: Estimated(e)
    ensures Place(es) < PW
  {
    if es != [] {
      EstimatedPlace(es[..|es|-1]);
      assert es[|es|-1] in es;
      EdgeExactly(Place(es[..|es|-1]), es[|es|-1]);
    }
  }

  /** The last cookie lies half in one page and half in the next. */
  predicate Fence(es: seq<Entry>) {
    Appended(es).cookie.Some? && Appended(es).cookie.value % PW == PW - 1
  }

  /** Entries of one size: 13 words, the cookie after 9. */
  predicate Thirteen(e: Entry) {
    QuadLen(|Name(e)|) == 5 && |e.plus| == 2
  }

  lemma {:induction false} ThirteenTaken(es: seq<Entry>, room: int)
    requires (forall e <- es :: Thirteen(e)) && es != [] && room == 37 + 13 * (|es| - 1)
    ensures Fitting(es, room) == |es| - 1
    decreases |es|
  {
    assert es[0] in es;
    if |es| > 1 {
      ThirteenTaken(es[1..], room - 13);
    }
  }

  lemma {:induction false} ThirteenAppended(es: seq<Entry>)
    requires forall e <- es :: Thirteen(e)
    ensures |Appended(es).out| == 13 * |es|
    ensures es != [] ==> Appended(es).cookie == Some(13 * |es| - 4)
  {
    if es != [] {
      assert es[|es|-1] in es;
      ThirteenAppended(es[..|es|-1]);
    }
  }

  /** Eighty entries of 13 words, asked for with 4264 bytes: the 79th is the last taken. */
  lemma EightyOffered(es: seq<Entry>, count: nat)
    requires |es| == 80 && count == 4264 && forall e <- es :: Thirteen(e)
    ensures Taken(es, count / 4 - 2, 0) == 79
  {
    ThirteenTaken(es, count / 4 - 2);
    EstimatedStaysInPage(es, count / 4 - 2, 0);
  }

  /** And its cookie sits on the boundary between the first two pages. */
  lemma FenceHappens(taken: seq<Entry>)
    requires |taken| == 79 && forall e <- taken :: Thirteen(e)
    ensures Fence(taken)
  {
    ThirteenAppended(taken);
  }

  lemma ThirteenRendered(es: seq<Entry>, last: U64)
    requires forall e <- es :: Thirteen(e)
    ensures |Rendered(es, last)| == 13 * |es|
  {
    ThirteenAppended(es);
    AppendedIsRendered(es, OFFSET_MAX);
    RenderedLength(es, last);
    RenderedLength(es, OFFSET_MAX);
  }

  lemma EightyReply(es: seq<Entry>)
    requires |es| == 80 && forall e <- es :: Thirteen(e)
    ensures Taken(es, 1064, 0) == 79 && Fence(es[..79]) && |Rendered(es[..79], es[79].offset)| == 13 * 79
    ensures Place(es[..79]) < PW
  {
    forall e | e in es[..79] ensures Estimated(e) {
      assert e in es;
    }
    EstimatedPlace(es[..79]);
    EightyOffered(es, 4264);
    FenceHappens(es[..79]);
    ThirteenRendered(es[..79], es[79].offset);
  }

  lemma IndexInPage(p: Ptr)
    requires p.word < PW
    ensures p.Index() % PW == p.word
  {
  }

  lemma AppendedStep(es: seq<Entry>, n: nat)
    requires n < |es|
    ensures Appended(es[..n+1]) == Append(Appended(es[..n]), es[n])
  {
    assert es[..n+1][..n] == es[..n];
  }

  lemma TakenStep(es: seq<Entry>, n: nat, left: int, w: nat, room: int)
    requires n < |es| && Taken(es, room, 0) == n + Taken(es[n..], left, w)
    ensures left < Estimate(es[n]) || w == PW ==> Taken(es, room, 0) == n
    ensures left >= Estimate(es[n]) && w != PW ==>
      Taken(es, room, 0) == n + 1 + Taken(es[n+1..], left - |Words(es[n], OFFSET_MAX)|, After(w, es[n]))
  {
    assert es[n..][1..] == es[n+1..];
  }

  lemma PlaceStep(es: seq<Entry>, n: nat)
    requires n < |es|
    ensures Place(es[..n+1]) == After(Place(es[..n]), es[n])
  {
    assert es[..n+1][..n] == es[..n];
  }

  lemma CookiePtrIndex(p: Ptr, o: nat)
    requires p.word < PW && o + 2 <= PW
    ensures var (q, r) := CookiePtr(p, o);
      && q.Index() == p.Index() + o && q.word < PW && q.page <= p.page + 1
      && (r.Some? <==> q.word == PW - 1) && (r.Some? ==> q.page == p.page && r.value == Ptr(q.page + 1, 0))
  {
  }

  datatype Outcome = Encoded | TooSmall | Lost

  /** struct nfsd3_readdirres with its pages; `out` and `cookie` are the flat reply, and `outside`
      counts words written where no reserved page is. */
  class Writer {
    const pages: seq<array<Word>>
    const reserved: nat
    var buffer: Ptr
    var buflen: int
    var offset: Option<Ptr>
    var offset1: Option<Ptr>
    ghost var outside: nat
    ghost var out: seq<Word>
    ghost var cookie: Option<nat>

    ghost predicate Pages() {
      && reserved <= |pages|
      && (forall i :: 0 <= i < |pages| ==> pages[i].Length == PW)
      && (forall i, j :: 0 <= i < j < |pages| ==> pages[i] != pages[j])
    }

    /** The pages hold the flat words in order, the buffer pointer stands behind them, at most at the
        end of its page, and the room left keeps two words of the reserved pages free. */
    ghost predicate Core()
      reads this, pages
    {
      && Pages()
      && buffer.word <= PW && (reserved == 0 ==> buffer == Ptr(0, 0)) && (reserved > 0 ==> buffer.page < reserved)
      && |out| == buffer.Index() && |out| + buflen + 2 <= reserved * PW
      && (forall g, w :: 0 <= g < reserved && 0 <= w < PW && g * PW + w < |out| ==> pages[g][w] == out[g * PW + w])
      && (cookie.Some? ==> cookie.value + 2 <= |out|)
    }

    /** The offset pointers address the two words of the last cookie. */
    ghost predicate Linked()
      reads this
    {
      && (cookie.Some? <==> offset.Some?) && (offset.None? ==> offset1.None?)
      && (offset.Some? ==>
            && offset.value.Index() == cookie.value && offset.value.word < PW && offset.value.page < reserved
            && (offset1.Some? <==> offset.value.word == PW - 1)
            && (offset1.Some? ==> offset1.value == Ptr(offset.value.page + 1, 0) && offset.value.page + 1 < reserved))
    }

    ghost predicate Valid()
      reads this, pages
    {
      Core() && Linked() && outside == 0
    }

    ghost function Model(): Flat
      reads this
    {
      Flat(out, cookie)
    }

    /** nfs3svc_decode_readdirplusargs and the start of nfsd3_proc_readdirplus: one page is reserved
        for each begun page of the byte count; two words are kept for the end marks. */
    constructor (all: seq<array<Word>>, count: nat)
      requires (count + 4 * PW - 1) / (4 * PW) <= |all|
      requires forall i :: 0 <= i < |all| ==> all[i].Length == PW
      requires forall i, j :: 0 <= i < j < |all| ==> all[i] != all[j]
      ensures Valid() && pages == all && reserved == (count + 4 * PW - 1) / (4 * PW)
      ensures Model() == Flat([], None) && buflen == count / 4 - 2
    {
      pages := all;
      var pn, len := 0, count as int;
      while len > 0
        invariant pn == (count - len + 4 * PW - 1) / (4 * PW) && len <= count
        invariant len > 0 ==> (count - len) % (4 * PW) == 0
        invariant len <= 0 ==> pn == (count + 4 * PW - 1) / (4 * PW)
      {
        pn := pn + 1;
        len := len - 4 * PW;
      }
      reserved := pn;
      buffer, buflen, offset, offset1 := Ptr(0, 0), count / 4 - 2, None, None;
      outside, out, cookie := 0, [], None;
    }

    /** Writes one word; behind the end of a page there is no page. */
    method Poke(p: Ptr, v: Word)
      requires Pages() && p.page < reserved
      modifies this`outside, pages[p.page]
      ensures p.word < PW ==> outside == old(outside) && pages[p.page][p.word] == v
      ensures p.word >= PW ==> outside == old(outside) + 1
      ensures forall k :: 0 <= k < PW && k != p.word ==> pages[p.page][k] == old(pages[p.page][k])
    {
      if p.word < PW {
        pages[p.page][p.word] := v;
      } else {
        outside := outside + 1;
      }
    }

    /** Two words written inside the pages, at the place of the cookie. */
    method WriteHalves(o: Ptr, l: Ptr, next: U64)
      requires Core() && cookie.Some? && o.Index() == cookie.value && l.Index() == cookie.value + 1
      requires o.word < PW && l.word < PW && o.page < reserved && l.page < reserved
      modifies this`outside, this`out, pages[o.page], pages[l.page]
      ensures Core() && outside == old(outside) && Model() == Patch(old(Model()), next)
    {
      ghost var c := cookie.value;
      Poke(o, High(next));
      Poke(l, Low(next));
      out := out[c := High(next)][c + 1 := Low(next)];
      forall g, w | 0 <= g < reserved && 0 <= w < PW && g * PW + w < |out| ensures pages[g][w] == out[g * PW + w] {
        if g * PW + w == c {
          assert g == o.page && w == o.word;
        } else if g * PW + w == c + 1 {
          assert g == l.page && w == l.word;
        } else {
          assert pages[g][w] == old(pages[g][w]);
        }
      }
    }

    /** xdr_encode_hyper at a pointer, or the two halves of a split cookie. */
    method WriteCookie(next: U64)
      requires Core() && offset.Some? && cookie.Some? && offset.value.Index() == cookie.value
      requires offset.value.word < PW && offset.value.page < reserved
      requires offset1.Some? ==>
        && offset.value.word == PW - 1 && offset1.value == Ptr(offset.value.page + 1, 0)
        && offset.value.page + 1 < reserved
      modifies this`outside, this`offset1, this`out, pages[..reserved]
      ensures offset1 == None
      ensures old(offset1).Some? || offset.value.word < PW - 1 ==>
        outside == old(outside) && Core() && Model() == Patch(old(Model()), next)
      ensures old(offset1).None? && offset.value.word == PW - 1 ==> outside == old(outside) + 1
      ensures old(offset1).None? && offset.value.word == PW - 1 && Patch(old(Model()), next) == old(Model()) ==>
        Core() && Model() == old(Model())
    {
      var o := offset.value;
      var l := if offset1.Some? then offset1.value else Ptr(o.page, o.word + 1);
      offset1 := None;
      if l.word < PW {
        WriteHalves(o, l, next);
      } else {
        assert out[cookie.value] == pages[o.page][o.word];
        assert Patch(Model(), next) == Model() ==> Patch(Model(), next).out[cookie.value] == High(next);
        Poke(o, High(next));
        Poke(l, Low(next));
      }
    }

    /** The start of encode_entry. */
    method PatchCookie(next: U64)
      requires Valid()
      modifies this`outside, this`offset1, this`out, pages[..reserved]
      ensures Core() && outside == 0 && offset1 == None && Model() == Patch(old(Model()), next)
    {
      if offset.Some? {
        WriteCookie(next);
      }
    }

    /** Writes words one after the other inside one page. */
    method WriteWords(g: nat, w: nat, ws: seq<Word>)
      requires Pages() && g < reserved && w + |ws| <= PW
      modifies pages[g]
      ensures forall k :: 0 <= k < PW ==> pages[g][k] == if w <= k < w + |ws| then ws[k - w] else old(pages[g][k])
    {
      for i := 0 to |ws|
        invariant forall k :: 0 <= k < PW ==> pages[g][k] == if w <= k < w + i then ws[k - w] else old(pages[g][k])
      {
        pages[g][w + i] := ws[i];
      }
    }

    /** encode_entry_baggage and encode_entryplus_baggage at word w of page g. */
    method EncodeBaggage(g: nat, w: nat, e: Entry)
      requires Pages() && g < reserved && w + |Words(e, OFFSET_MAX)| <= PW
      modifies pages[g], this`offset
      ensures forall k :: 0 <= k < PW ==>
        pages[g][k] == if w <= k < w + |Words(e, OFFSET_MAX)| then Words(e, OFFSET_MAX)[k - w] else old(pages[g][k])
      ensures offset == Some(Ptr(g, w + |Front(e)|))
    {
      WriteWords(g, w, Words(e, OFFSET_MAX));
      offset := Some(Ptr(g, w + |Front(e)|));
    }

    /** Which of the reserved pages is being filled; none, when the pointer stands at the end of one. */
    method CurrentPage() returns (pn: nat)
      requires Core() && reserved > 0
      ensures pn == if buffer.word < PW then buffer.page else reserved
    {
      pn := 0;
      while pn < reserved
        invariant pn <= if buffer.word < PW then buffer.page else reserved
      {
        if buffer.page == pn && buffer.word < PW {
          break;
        }
        pn := pn + 1;
      }
    }

    /** Words first..last of the flat reply are in the pages. */
    ghost predicate Holds(flat: seq<Word>, first: nat, last: nat)
      requires Pages() && last <= |flat|
      reads pages
    {
      forall g, w :: 0 <= g < reserved && 0 <= w < PW && first <= g * PW + w < last ==> pages[g][w] == flat[g * PW + w]
    }

    /** The pages hold one more entry: the flat reply follows. */
    ghost method Grow(e: Entry)
      requires Pages() && buffer.word <= PW && buffer.page < reserved
      requires buffer.Index() == |out| + |Words(e, OFFSET_MAX)| && buffer.Index() + buflen + 2 <= reserved * PW
      requires Holds(out, 0, |out|) && Holds(out + Words(e, OFFSET_MAX), |out|, |out| + |Words(e, OFFSET_MAX)|)
      modifies this`out, this`cookie
      ensures Core() && Model() == Flat(old(out) + Words(e, OFFSET_MAX), Some(|old(out)| + |Front(e)|))
    {
      cookie := Some(|out| + |Front(e)|);
      out := out + Words(e, OFFSET_MAX);
      forall g, w | 0 <= g < reserved && 0 <= w < PW && g * PW + w < |out| ensures pages[g][w] == out[g * PW + w] {
        if g * PW + w < |old(out)| {
          assert pages[g][w] == old(out)[g * PW + w];
        } else {
          assert pages[g][w] == (old(out) + Words(e, OFFSET_MAX))[g * PW + w];
        }
      }
    }

    /** The words of e have been written at the buffer pointer, inside its page. */
    method StepOver(e: Entry)
      requires Pages() && buffer.page < reserved && buffer.word + |Words(e, OFFSET_MAX)| <= PW
      requires |out| == buffer.Index() && |out| + buflen + 2 <= reserved * PW && Holds(out, 0, |out|)
      requires forall k :: buffer.word <= k < buffer.word + |Words(e, OFFSET_MAX)| ==>
        pages[buffer.page][k] == Words(e, OFFSET_MAX)[k - buffer.word]
      modifies this`buffer, this`buflen, this`out, this`cookie
      ensures Core() && buflen == old(buflen) - |Words(e, OFFSET_MAX)|
      ensures buffer == Ptr(old(buffer).page, old(buffer).word + |Words(e, OFFSET_MAX)|)
      ensures Model() == Flat(old(out) + Words(e, OFFSET_MAX), Some(|old(out)| + |Front(e)|))
    {
      var p := buffer;
      ghost var ws, n := Words(e, OFFSET_MAX), |out|;
      buffer := Ptr(p.page, p.word + |Words(e, OFFSET_MAX)|);
      buflen := buflen - |Words(e, OFFSET_MAX)|;
      forall g, w | 0 <= g < reserved && 0 <= w < PW && n <= g * PW + w < n + |ws|
        ensures pages[g][w] == (out + ws)[g * PW + w]
      {
        assert g == p.page && p.word <= w && g * PW + w - n == w - p.word;
      }
      Grow(e);
    }

    method EncodeInPage(e: Entry)
      requires Core() && reserved > 0 && buffer.word + |Words(e, OFFSET_MAX)| <= PW
      modifies this`offset, this`buffer, this`buflen, this`out, this`cookie, pages[buffer.page]
      ensures Core() && buflen == old(buflen) - |Words(e, OFFSET_MAX)|
      ensures Model() == Flat(old(out) + Words(e, OFFSET_MAX), Some(|old(out)| + |Front(e)|))
      ensures buffer == Ptr(old(buffer).page, old(buffer).word + |Words(e, OFFSET_MAX)|)
      ensures offset == Some(CookiePtr(old(buffer), |Front(e)|).0) && CookiePtr(old(buffer), |Front(e)|).1 == None
    {
      var p := buffer;
      EncodeBaggage(p.page, p.word, e);
      forall g, w | 0 <= g < reserved && 0 <= w < PW && g * PW + w < |out| ensures pages[g][w] == out[g * PW + w] {
        assert g <= p.page && (g == p.page ==> w < p.word);
      }
      StepOver(e);
    }

    /** Encoding into the next page and moving the whole entry back to p. */
    method PlaceWhole(p: Ptr, e: Entry)
      requires Pages() && p.page + 1 < reserved && p.word + |Words(e, OFFSET_MAX)| < PW
      modifies this`offset, pages[p.page], pages[p.page + 1]
      ensures forall k :: 0 <= k < p.word ==> pages[p.page][k] == old(pages[p.page][k])
      ensures forall k :: p.word <= k < p.word + |Words(e, OFFSET_MAX)| ==>
        pages[p.page][k] == Words(e, OFFSET_MAX)[k - p.word]
      ensures offset == Some(Ptr(p.page, p.word + |Front(e)|))
    {
      var tmp, n := p.page + 1, |Words(e, OFFSET_MAX)|;
      EncodeBaggage(tmp, 0, e);
      var moved := pages[tmp][..n];
      WriteWords(p.page, p.word, moved);
      offset := Some(Ptr(p.page, p.word + offset.value.word));
    }

    /** Pointing the cookie pointers, set for the start of page p.page + 1, at its final place. */
    method FixOffset(p: Ptr, o: nat)
      requires p.word < PW && offset == Some(Ptr(p.page + 1, o)) && offset1 == None
      modifies this`offset, this`offset1
      ensures offset == Some(CookiePtr(p, o).0) && offset1 == CookiePtr(p, o).1
    {
      var len1 := PW - p.word;
      if o + 2 <= len1 {
        offset := Some(Ptr(p.page, p.word + o));
      } else if o >= len1 {
        offset := Some(Ptr(p.page + 1, o - len1));
      } else {
        assert o == len1 - 1;
        offset := Some(Ptr(p.page, p.word + o));
        offset1 := Some(Ptr(p.page + 1, 0));
      }
    }

    /** The two moves of a split: the first words of the n at the start of page tmp fill the page of
        p, the others go to the front of page tmp. */
    method MoveSplit(p: Ptr, tmp: nat, n: nat, ghost ws: seq<Word>)
      requires Pages() && tmp == p.page + 1 && tmp < reserved && PW - n <= p.word < PW && n < PW
      requires |ws| == n && forall k :: 0 <= k < n ==> pages[tmp][k] == ws[k]
      modifies pages[p.page], pages[tmp]
      ensures forall k :: 0 <= k < p.word ==> pages[p.page][k] == old(pages[p.page][k])
      ensures forall k :: p.word <= k < PW ==> pages[p.page][k] == ws[k - p.word]
      ensures forall k :: 0 <= k < p.word + n - PW ==> pages[tmp][k] == ws[PW - p.word..][k]
    {
      var len1 := PW - p.word;
      var first, rest := pages[tmp][..len1], pages[tmp][len1..n];
      assert rest == ws[len1..];
      WriteWords(p.page, p.word, first);
      WriteWords(tmp, 0, rest);
    }

    method PlaceSplit(p: Ptr, tmp: nat, e: Entry)
      requires Pages() && tmp == p.page + 1 && tmp < reserved && p.word < PW && offset1 == None
      requires |Words(e, OFFSET_MAX)| < PW <= p.word + |Words(e, OFFSET_MAX)|
      modifies this`offset, this`offset1, pages[p.page], pages[tmp]
      ensures forall k :: 0 <= k < p.word ==> pages[p.page][k] == old(pages[p.page][k])
      ensures forall k :: p.word <= k < PW ==> pages[p.page][k] == Words(e, OFFSET_MAX)[k - p.word]
      ensures forall k :: 0 <= k < p.word + |Words(e, OFFSET_MAX)| - PW ==>
        pages[tmp][k] == Words(e, OFFSET_MAX)[PW - p.word..][k]
      ensures offset == Some(CookiePtr(p, |Front(e)|).0) && offset1 == CookiePtr(p, |Front(e)|).1
    {
      EncodeBaggage(tmp, 0, e);
      FixOffset(p, offset.value.word);
      MoveSplit(p, tmp, |Words(e, OFFSET_MAX)|, Words(e, OFFSET_MAX));
    }

    method MoveBack(e: Entry)
      requires Core() && buffer.page + 1 < reserved && buffer.word + |Words(e, OFFSET_MAX)| < PW
      modifies this`offset, this`buffer, this`buflen, this`out, this`cookie, pages[buffer.page], pages[buffer.page + 1]
      ensures Core() && buflen == old(buflen) - |Words(e, OFFSET_MAX)|
      ensures Model() == Flat(old(out) + Words(e, OFFSET_MAX), Some(|old(out)| + |Front(e)|))
      ensures buffer == Ptr(old(buffer).page, old(buffer).word + |Words(e, OFFSET_MAX)|)
      ensures offset == Some(CookiePtr(old(buffer), |Front(e)|).0) && CookiePtr(old(buffer), |Front(e)|).1 == None
    {
      var p := buffer;
      PlaceWhole(p, e);
      forall g, w | 0 <= g < reserved && 0 <= w < PW && g * PW + w < |out| ensures pages[g][w] == out[g * PW + w] {
        assert g <= p.page && (g == p.page ==> w < p.word);
      }
      StepOver(e);
    }

    method Split(e: Entry)
      requires Core() && buffer.word < PW && buffer.page + 1 < reserved && |Words(e, OFFSET_MAX)| <= buflen + 1
        && offset1 == None
      requires |Words(e, OFFSET_MAX)| < PW <= buffer.word + |Words(e, OFFSET_MAX)|
      modifies this`offset, this`offset1, this`buffer, this`buflen, this`out, this`cookie, pages[buffer.page],
        pages[buffer.page + 1]
      ensures Core() && buflen == old(buflen) - |Words(e, OFFSET_MAX)|
      ensures Model() == Flat(old(out) + Words(e, OFFSET_MAX), Some(|old(out)| + |Front(e)|))
      ensures buffer == Ptr(old(buffer).page + 1, old(buffer).word + |Words(e, OFFSET_MAX)| - PW)
      ensures offset == Some(CookiePtr(old(buffer), |Front(e)|).0) && offset1 == CookiePtr(old(buffer), |Front(e)|).1
    {
      var p := buffer;
      ghost var ws, n := Words(e, OFFSET_MAX), |out|;
      var tmp := p.page + 1;
      PlaceSplit(p, tmp, e);
      buffer := Ptr(tmp, p.word + |Words(e, OFFSET_MAX)| - PW);
      buflen := buflen - |Words(e, OFFSET_MAX)|;
      forall g, w | 0 <= g < reserved && 0 <= w < PW && g * PW + w < n ensures pages[g][w] == out[g * PW + w] {
        assert g <= p.page && (g == p.page ==> w < p.word);
      }
      forall g, w | 0 <= g < reserved && 0 <= w < PW && n <= g * PW + w < n + |ws|
        ensures pages[g][w] == (out + ws)[g * PW + w]
      {
        if g == p.page {
          assert p.word <= w && g * PW + w - n == w - p.word;
        } else {
          assert g == tmp && g * PW + w - n == PW - p.word + w;
          assert pages[g][w] == ws[PW - p.word..][w];
        }
      }
      Grow(e);
    }

    /** Writing an entry that has room, at a pointer that stands in a page. The next page is used only
        when it is one of the reserved ones: the room left guarantees that there is one. */
    method PlaceEntry(e: Entry, pn: nat)
      requires Core() && Sized(e) && buflen >= Estimate(e) && offset1 == None && buffer.word < PW && pn == buffer.page
      modifies this`offset, this`offset1, this`buffer, this`buflen, this`out, this`cookie, pages[..reserved]
      ensures Core() && buflen == old(buflen) - |Words(e, OFFSET_MAX)|
      ensures buffer.word == After(old(buffer).word, e)
      ensures Model() == Flat(old(out) + Words(e, OFFSET_MAX), Some(|old(out)| + |Front(e)|))
      ensures offset == Some(CookiePtr(old(buffer), |Front(e)|).0) && offset1 == CookiePtr(old(buffer), |Front(e)|).1
    {
      if buffer.word + Estimate(e) < PW {
        EncodeInPage(e);
      } else if pn + 1 < |pages| {
        assert pn + 1 < reserved;
        if buffer.word + |Words(e, OFFSET_MAX)| < PW {
          MoveBack(e);
        } else {
          Split(e);
        }
      } else {
        assert false;
      }
    }

    /** What a refused entry leaves of reply f: its offset is in the last cookie, and the pointer to
        a split cookie's second half is gone. */
    ghost predicate Refused(f: Flat, next: U64)
      requires f.Valid()
      reads this
    {
      && Model() == Patch(f, next) && offset1.None? && (cookie.Some? <==> offset.Some?)
      && (offset.Some? ==>
            offset.value.Index() == cookie.value && offset.value.word < PW && offset.value.page < reserved)
    }

    /** encode_entry. When no page is found to be the current one, where an entry goes depends on the
        addresses of the pages. */
    method EncodeEntry(e: Entry) returns (outcome: Outcome)
      requires Valid() && Sized(e)
      modifies this, pages[..reserved]
      ensures Core() && outside == 0
      ensures outcome ==
        if old(buflen) < Estimate(e) then TooSmall else if old(buffer.word) == PW then Lost else Encoded
      ensures outcome == Encoded ==> Valid() && Model() == Append(old(Model()), e)
      ensures outcome == Encoded ==>
        buflen == old(buflen) - |Words(e, OFFSET_MAX)| && buffer.word == After(old(buffer.word), e)
      ensures outcome != Encoded ==> Refused(old(Model()), e.offset) && buffer == old(buffer) && buflen == old(buflen)
    {
      PatchCookie(e.offset);
      if buflen < Estimate(e) {
        return TooSmall;
      }
      var pn := CurrentPage();
      if pn == reserved {
        return Lost;
      }
      CookiePtrIndex(buffer, |Front(e)|);
      PlaceEntry(e, pn);
      assert Linked();
      outcome := Encoded;
    }

    /** Either both halves of the last cookie can be reached, or it is split, already holds the
        offset, and its second half cannot. */
    ghost predicate Ready(last: U64)
      requires Model().Valid()
      reads this
    {
      Linked() || (offset.Some? && cookie.Some? && offset1.None? && offset.value.Index() == cookie.value
        && offset.value.word == PW - 1 && offset.value.page < reserved && Patch(Model(), last) == Model())
    }

    lemma LateReady(es: seq<Entry>, last: U64)
      requires Core() && Refused(Appended(es), last)
      ensures Ready(last) && (Linked() <==> !Fence(es)) && Patch(Model(), last).out == Rendered(es, last) == out
    {
      AppendedIsRendered(es, last);
      PatchTwice(Appended(es), last);
      if offset.Some? {
        IndexInPage(offset.value);
        assert cookie == Appended(es).cookie;
      }
    }

    /** The last lines of nfsd3_proc_readdirplus: the last cookie. After a refused entry the pointer
        to a split cookie's second half is gone, and the second word is written behind the page. */
    method Finish(last: U64)
      requires Core() && outside == 0
      requires Ready(last)
      modifies this`outside, this`offset1, this`out, pages[..reserved]
      ensures Core() && Model() == Patch(old(Model()), last)
      ensures outside == if old(Linked()) then 0 else 1
    {
      if offset.Some? {
        WriteCookie(last);
      }
    }

    /** The count of words in the reply, page by page; of all pages, when the pointer stands in none. */
    method CountWords() returns (count: nat)
      requires Core()
      ensures count == if buffer.word < PW then |out| else reserved * PW
    {
      count := 0;
      for i := 0 to reserved
        invariant count == i * PW && (buffer.word < PW ==> i <= buffer.page)
      {
        if buffer.page == i && buffer.word < PW {
          return count + buffer.word;
        }
        count := count + PW;
      }
    }

    /** The directory offers entries until one is refused or none is left; `last` is the offset the
        directory stopped at, and `lost` says that the pointer stands in no page for an entry that has
        room. */
    method EncodeAll(es: seq<Entry>, end: U64) returns (n: nat, last: U64, lost: bool)
      requires Valid() && Model() == Flat([], None) && forall e <- es :: Sized(e)
      modifies this, pages[..reserved]
      ensures n == Taken(es, old(buflen), 0) && n <= |es| && last == if n < |es| then es[n].offset else end
      ensures Core() && outside == 0 && buffer.word == Place(es[..n]) && buflen == old(buflen) - |out|
      ensures n == |es| ==> !lost && Linked() && Model() == Appended(es[..n])
      ensures n < |es| ==>
        Refused(Appended(es[..n]), last) && (lost <==> Place(es[..n]) == PW && buflen >= Estimate(es[n]))
    {
      n, last, lost := 0, end, false;
      ghost var room := buflen;
      while n < |es|
        invariant n <= |es| && Valid() && last == end && !lost
        invariant Model() == Appended(es[..n]) && buffer.word == Place(es[..n]) && buflen == room - |out|
        invariant Taken(es, room, 0) == n + Taken(es[n..], buflen, buffer.word)
      {
        TakenStep(es, n, buflen, buffer.word, room);
        var outcome := OfferEntry(es, n);
        if outcome != Encoded {
          return n, es[n].offset, outcome == Lost;
        }
        n := n + 1;
      }
    }

    /** One entry of those the directory offers. */
    method OfferEntry(es: seq<Entry>, n: nat) returns (outcome: Outcome)
      requires Valid() && n < |es| && (forall e <- es :: Sized(e)) && Model() == Appended(es[..n])
        && buffer.word == Place(es[..n])
      modifies this, pages[..reserved]
      ensures Core() && outside == 0
      ensures outcome ==
        if old(buflen) < Estimate(es[n]) then TooSmall else if old(buffer.word) == PW then Lost else Encoded
      ensures outcome == Encoded ==>
        Valid() && Model() == Appended(es[..n+1]) && |out| == old(|out|) + |Words(es[n], OFFSET_MAX)|
      ensures outcome == Encoded ==>
        && buflen == old(buflen) - |Words(es[n], OFFSET_MAX)|
        && buffer.word == After(old(buffer.word), es[n]) == Place(es[..n+1])
      ensures outcome != Encoded ==>
        Refused(Appended(es[..n]), es[n].offset) && buffer == old(buffer) && buflen == old(buflen)
    {
      assert es[n] in es;
      AppendedStep(es, n);
      PlaceStep(es, n);
      outcome := EncodeEntry(es[n]);
    }

    /** The reply before its last cookie is written. */
    method EncodeReady(es: seq<Entry>, end: U64) returns (n: nat, last: U64, lost: bool)
      requires Valid() && Model() == Flat([], None) && forall e <- es :: Sized(e)
      modifies this, pages[..reserved]
      ensures n == Taken(es, old(buflen), 0) && n <= |es| && last == if n < |es| then es[n].offset else end
      ensures Core() && outside == 0 && buffer.word == Place(es[..n])
      ensures lost <==> n < |es| && Place(es[..n]) == PW && old(buflen) - |out| >= Estimate(es[n])
      ensures Ready(last) && Patch(Model(), last).out == Rendered(es[..n], last)
      ensures n < |es| ==> out == Rendered(es[..n], last)
      ensures !Linked() <==> n < |es| && Fence(es[..n])
    {
      n, last, lost := EncodeAll(es, end);
      if n < |es| {
        LateReady(es[..n], last);
      } else {
        AppendedIsRendered(es[..n], last);
      }
    }

    /** nfsd3_proc_readdirplus over the entries the directory offers: the first n are taken, the pages
        hold them with each cookie the next one's offset, and count is the words they take, unless the
        last of them ends with its page. When a further entry has room then, what follows depends on
        the addresses of the pages, and the model stops. */
    method Readdirplus(es: seq<Entry>, end: U64) returns (n: nat, count: nat, lost: bool)
      requires Valid() && Model() == Flat([], None) && forall e <- es :: Sized(e)
      modifies this, pages[..reserved]
      ensures n == Taken(es, old(buflen), 0) && n <= |es|
      ensures Core() && out == Rendered(es[..n], if n < |es| then es[n].offset else end)
      ensures lost <==> n < |es| && Place(es[..n]) == PW && old(buflen) - |out| >= Estimate(es[n])
      ensures !lost ==> count == if Place(es[..n]) < PW then |out| else reserved * PW
      ensures !lost ==> outside == if n < |es| && Fence(es[..n]) then 1 else 0
    {
      var last;
      count := 0;
      n, last, lost := EncodeReady(es, end);
      if lost {
        return;
      }
      Finish(last);
      count := CountWords();
    }

  }

  /** A reply that writes one word outside its pages: eighty entries of 13 words each, asked for with
      4264 bytes. The 79th is the last that fits, and its cookie is split between the two pages. */
  method BoundaryOverrun(all: seq<array<Word>>, es: seq<Entry>, end: U64) returns (w: Writer, n: nat, count: nat)
    requires |all| >= 2 && forall i :: 0 <= i < |all| ==> all[i].Length == PW
    requires forall i, j :: 0 <= i < j < |all| ==> all[i] != all[j]
    requires |es| == 80 && forall e <- es :: Thirteen(e)
    modifies all
    ensures n == 79 && count == 13 * 79 && w.reserved == 2 && w.out == Rendered(es[..79], es[79].offset)
    ensures w.outside == 1
  {
    EightyReply(es);
    w := new Writer(all, 4264);
    var lost;
    n, count, lost := w.Readdirplus(es, end);
  }

  /** Entries that the estimate makes one word too short: 64 words, the estimate 63. */
  predicate SixtyFour(e: Entry) {
    QuadLen(|Name(e)|) == 18 && |e.plus| == 40
  }

  lemma {:induction false} SixtyFourTaken(es: seq<Entry>, room: int, k: nat)
    requires (forall e <- es :: SixtyFour(e)) && k <= 16 && |es| >= 16 - k && room >= 64 * (16 - k)
    ensures Taken(es, room, 64 * k) == 16 - k
    decreases 16 - k
  {
    if k < 16 {
      assert es[0] in es;
      SixtyFourTaken(es[1..], room - 64, k + 1);
    }
  }

  lemma {:induction false} SixtyFourPlace(es: seq<Entry>)
    requires (forall e <- es :: SixtyFour(e)) && |es| <= 16
    ensures Place(es) == 64 * |es|
    ensures forall last :: |Rendered(es, last)| == 64 * |es|
  {
    if es != [] {
      assert es[|es|-1] in es;
      SixtyFourPlace(es[..|es|-1]);
    }
  }

  lemma SixteenFill(es: seq<Entry>)
    requires 16 <= |es| <= 17 && forall e <- es :: SixtyFour(e)
    ensures Taken(es, 2046, 0) == 16 && Place(es[..16]) == PW && forall last :: |Rendered(es[..16], last)| == PW
    ensures forall e <- es :: Sized(e)
  {
    SixtyFourTaken(es, 2046, 0);
    SixtyFourPlace(es[..16]);
  }

  /** Sixteen entries of 64 words, each one more than its estimate, fill the first of two pages to its
      last word. The reply is then said to be two pages long; and if a seventeenth entry comes, for
      which there is room, no page is found to write it to. */
  method PageEdge(all: seq<array<Word>>, es: seq<Entry>, end: U64) returns (w: Writer, n: nat, count: nat, lost: bool)
    requires |all| >= 2 && forall i :: 0 <= i < |all| ==> all[i].Length == PW
    requires forall i, j :: 0 <= i < j < |all| ==> all[i] != all[j]
    requires 16 <= |es| <= 17 && forall e <- es :: SixtyFour(e)
    modifies all
    ensures n == 16 && |w.out| == PW && (lost <==> |es| == 17)
    ensures !lost ==> count == 2 * PW
  {
    SixteenFill(es);
    w := new Writer(all, 8192);
    n, count, lost := w.Readdirplus(es, end);
    if |es| == 17 { assert es[16] in es; }
  }
}
