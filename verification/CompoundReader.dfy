/** Reading a compound request that lies in a head buffer and a list of pages
    (fs/nfsd/nfs4xdr.c:113-176, 1602-1637): what READ_BUF and the opcode fetch return and consume. */
module CompoundReader {
  import opened Common

  const PAGE_SIZE := 4096
  const TMP_SIZE := 32

  type Byte = x: int | 0 <= x < 256

  /** The part of struct nfsd4_compoundargs that tracks the input: the buffer being read with the
      position and the end in it, the pages to come, and how many bytes they hold in all. */
  datatype Reader = Reader(buf: seq<Byte>, pos: nat, end: nat, pages: seq<seq<Byte>>, pagelen: nat)
  {
    predicate Valid() {
      && pos <= end <= |buf| && pos % 4 == 0 && end % 4 == 0 && pagelen % 4 == 0
      && pagelen <= PAGE_SIZE * |pages|
      && forall i :: 0 <= i < |pages| ==> |pages[i]| == PAGE_SIZE
    }

    /** Bytes left in the current buffer. */
    function Avail(): int {
      end - pos
    }

    /** The bytes not yet consumed. */
    function Remaining(): seq<Byte>
      requires Valid()
    {
      buf[pos..end] + Held(pages, pagelen)
    }
  }

  /** The first n bytes of a list of pages. */
  function Held(pages: seq<seq<Byte>>, n: nat): (s: seq<Byte>)
    requires n <= PAGE_SIZE * |pages| && forall i :: 0 <= i < |pages| ==> |pages[i]| == PAGE_SIZE
    ensures |s| == n
  {
    if pages == [] then []
    else if n <= PAGE_SIZE then pages[0][..n]
    else pages[0] + Held(pages[1..], n - PAGE_SIZE)
  }

  /** Bytes that an item of n bytes takes: XDR_QUADLEN, in bytes. */
  function Padded(n: nat): nat {
    (n + 3) / 4 * 4
  }

  /** Stepping to the next page. */
  function NextPage(r: Reader): Reader
    requires r.pages != []
  {
    if r.pagelen < PAGE_SIZE then Reader(r.pages[0], 0, r.pagelen / 4 * 4, r.pages[1..], 0)
    else Reader(r.pages[0], 0, PAGE_SIZE, r.pages[1..], r.pagelen - PAGE_SIZE)
  }

  /** READ_BUF and read_buf: the bytes, none when they cannot be had. */
  function ReadBuf(r: Reader, n: nat, mallocOk: bool): (Reader, Option<seq<Byte>>)
    requires r.Valid()
  {
    var avail := r.Avail();
    if n <= avail then (r.(pos := r.pos + Padded(n)), Some(r.buf[r.pos..r.pos + n]))
    else if avail + r.pagelen < n || avail + PAGE_SIZE < n || (n > TMP_SIZE && !mallocOk) then (r, None)
    else
      var q := NextPage(r);
      (q.(pos := Padded(n - avail)), Some(r.buf[r.pos..r.end] + q.buf[..n - avail]))
  }

  /** The opcode fetch of nfsd4_decode_compound: the four bytes, none when the input has ended. */
  function Opcode(r: Reader): (Reader, Option<seq<Byte>>)
    requires r.Valid()
  {
    if r.pos == r.end && r.pagelen < 4 then (r, None)
    else
      var q := if r.pos == r.end then NextPage(r) else r;
      (q.(pos := q.pos + 4), Some(q.buf[q.pos..q.pos + 4]))
  }

  // ---- refinement of a flat stream ----

  lemma HeldSplit(pages: seq<seq<Byte>>, n: nat)
    requires pages != [] && n <= PAGE_SIZE * |pages| && forall i :: 0 <= i < |pages| ==> |pages[i]| == PAGE_SIZE
    ensures n < PAGE_SIZE ==> Held(pages, n) == pages[0][..n]
    ensures n >= PAGE_SIZE ==> Held(pages, n) == pages[0] + Held(pages[1..], n - PAGE_SIZE)
  {
    if n == PAGE_SIZE {
      assert pages[0][..n] == pages[0];
      assert Held(pages[1..], 0) == [];
    }
  }

  /** Stepping to the next page loses nothing when the current buffer is used up. */
  lemma NextPageKeeps(r: Reader)
    requires r.Valid() && r.pagelen > 0
    ensures r.pages != [] && NextPage(r).Valid()
    ensures r.Remaining() == r.buf[r.pos..r.end] + NextPage(r).Remaining()
    ensures NextPage(r).pos == 0 && (NextPage(r).Avail() == PAGE_SIZE || NextPage(r).Avail() == r.pagelen < PAGE_SIZE)
  {
    var q := NextPage(r);
    HeldSplit(r.pages, r.pagelen);
    if r.pagelen < PAGE_SIZE {
      assert Held(q.pages, 0) == [];
      assert q.buf[0..q.end] == r.pages[0][..r.pagelen];
    } else {
      assert q.buf[0..PAGE_SIZE] == r.pages[0];
    }
  }

  /** Moving on inside the current buffer drops that many bytes from the front. */
  lemma AdvanceKeeps(r: Reader, k: nat)
    requires r.Valid() && k % 4 == 0 && k <= r.Avail()
    ensures r.(pos := r.pos + k).Valid()
    ensures k <= |r.Remaining()| && r.(pos := r.pos + k).Remaining() == r.Remaining()[k..]
  {
    var s := r.(pos := r.pos + k);
    assert s.buf[s.pos..s.end] == r.buf[r.pos..r.end][k..];
  }

  lemma PaddedBound(n: nat, m: nat)
    requires n <= m && m % 4 == 0
    ensures Padded(n) <= m && Padded(n) % 4 == 0 && n <= Padded(n)
  {
  }

  lemma TakeDrop(a: seq<Byte>, t: seq<Byte>, n: nat, k: nat)
    requires n <= |t| && k <= |t|
    ensures (a + t)[..|a| + n] == a + t[..n] && (a + t)[|a| + k..] == t[k..]
  {
  }

  lemma ReadInBuffer(r: Reader, n: nat)
    requires r.Valid() && n <= r.Avail()
    ensures var q := r.(pos := r.pos + Padded(n)); var s := r.Remaining();
      q.Valid() && Padded(n) <= |s| && r.buf[r.pos..r.pos + n] == s[..n] && q.Remaining() == s[Padded(n)..]
  {
    PaddedBound(n, r.Avail());
    AdvanceKeeps(r, Padded(n));
  }

  lemma ReadAcross(r: Reader, n: nat)
    requires r.Valid() && r.Avail() < n <= r.Avail() + r.pagelen && n <= r.Avail() + PAGE_SIZE
    ensures r.pages != []
    ensures var next := NextPage(r); var rest := n - r.Avail(); var q := next.(pos := Padded(rest));
      var s := r.Remaining();
      q.Valid() && Padded(n) <= |s| && rest <= |next.buf| && r.buf[r.pos..r.end] + next.buf[..rest] == s[..n]
        && q.Remaining() == s[Padded(n)..]
  {
    var rest := n - r.Avail();
    NextPageKeeps(r);
    var next := NextPage(r);
    PaddedBound(rest, next.Avail());
    AdvanceKeeps(next, Padded(rest));
    assert Padded(n) == r.Avail() + Padded(rest);
    TakeDrop(r.buf[r.pos..r.end], next.Remaining(), rest, Padded(rest));
    assert next.Remaining()[..rest] == next.buf[..rest];
  }

  /** READ_BUF returns the bytes reading the concatenation would, and consumes them with their
      padding; when it fails it consumes nothing. */
  lemma ReadBufIsFlat(r: Reader, n: nat, mallocOk: bool)
    requires r.Valid()
    ensures var (q, b) := ReadBuf(r, n, mallocOk); var s := r.Remaining();
      && q.Valid()
      && (b.Some? ==> Padded(n) <= |s| && b.value == s[..n] && q.Remaining() == s[Padded(n)..])
      && (b.None? ==> q == r)
  {
    if n <= r.Avail() {
      ReadInBuffer(r, n);
    } else if ReadBuf(r, n, mallocOk).1.Some? {
      ReadAcross(r, n);
    }
  }

  /** The exact condition for any size: the bytes must be there, must not reach past the next
      page, and must lie in one buffer or find a place to be copied to. */
  lemma ReadBufSucceedsExactly(r: Reader, n: nat, mallocOk: bool)
    requires r.Valid()
    ensures ReadBuf(r, n, mallocOk).1.Some? <==>
      n <= |r.Remaining()| && n <= r.Avail() + PAGE_SIZE && (n <= r.Avail() || n <= TMP_SIZE || mallocOk)
  {
  }

  /** For the sizes READ_BUF is meant for, and as long as memory can be had, it fails exactly when
      the stream is too short. */
  lemma ReadBufFailsOnlyAtEnd(r: Reader, n: nat, mallocOk: bool)
    requires r.Valid() && n <= PAGE_SIZE && (mallocOk || n <= TMP_SIZE)
    ensures ReadBuf(r, n, mallocOk).1.None? <==> |r.Remaining()| < n
  {
    ReadBufSucceedsExactly(r, n, mallocOk);
  }

  /** The opcode fetch takes the next four bytes, across a page boundary if need be, and reports a
      missing opcode exactly at the end of the stream. */
  lemma OpcodeIsFlat(r: Reader)
    requires r.Valid()
    ensures var (q, b) := Opcode(r); var s := r.Remaining();
      && q.Valid()
      && (b.None? <==> s == [])
      && (b.None? ==> q == r)
      && (b.Some? ==> |s| >= 4 && b.value == s[..4] && q.Remaining() == s[4..])
  {
    var s := r.Remaining();
    assert |s| == r.Avail() + r.pagelen;
    if r.pos == r.end && r.pagelen >= 4 {
      var q := NextPage(r);
      NextPageKeeps(r);
      AdvanceKeeps(q, 4);
      assert s == q.Remaining();
      assert s[..4] == q.buf[0..4];
    } else if r.pos != r.end {
      AdvanceKeeps(r, 4);
      assert s[..4] == r.buf[r.pos..r.pos + 4];
    }
  }

  // ---- any sequence of reads ----

  datatype Request = Bytes(n: nat, mallocOk: bool) | Op

  function Read(r: Reader, q: Request): (Reader, Option<seq<Byte>>)
    requires r.Valid()
  {
    match q case Bytes(n, mallocOk) => ReadBuf(r, n, mallocOk) case Op => Opcode(r)
  }

  /** What the requests return, up to the first that fails. */
  function Outputs(r: Reader, qs: seq<Request>): seq<seq<Byte>>
    requires r.Valid()
    decreases |qs|
  {
    if qs == [] then []
    else
      var (next, b) := Read(r, qs[0]);
      ReadKeeps(r, qs[0]);
      if b.None? then [] else [b.value] + Outputs(next, qs[1..])
  }

  lemma ReadKeeps(r: Reader, q: Request)
    requires r.Valid()
    ensures Read(r, q).0.Valid()
  {
    match q
    case Bytes(n, mallocOk) => ReadBufIsFlat(r, n, mallocOk);
    case Op => OpcodeIsFlat(r);
  }

  function Size(q: Request): nat {
    match q case Bytes(n, _) => n case Op => 4
  }

  /** The same requests on one flat buffer. */
  function FlatOutputs(s: seq<Byte>, qs: seq<Request>): seq<seq<Byte>>
    decreases |qs|
  {
    if qs == [] || |s| < Padded(Size(qs[0])) then []
    else [s[..Size(qs[0])]] + FlatOutputs(s[Padded(Size(qs[0]))..], qs[1..])
  }

  predicate Ordinary(qs: seq<Request>) {
    forall q <- qs :: q.Bytes? ==> q.n <= PAGE_SIZE && (q.mallocOk || q.n <= TMP_SIZE)
  }

  /** Any sequence of reads over head and pages returns what it would on the concatenation. */
  lemma {:induction false} PagedReadingIsFlat(r: Reader, qs: seq<Request>)
    requires r.Valid() && Ordinary(qs)
    ensures Outputs(r, qs) == FlatOutputs(r.Remaining(), qs)
    decreases |qs|
  {
    if qs != [] {
      var q, s := qs[0], r.Remaining();
      assert |s| == r.Avail() + r.pagelen && |s| % 4 == 0;
      assert q in qs && Ordinary(qs[1..]);
      ReadKeeps(r, q);
      match q {
        case Bytes(n, mallocOk) =>
          ReadBufIsFlat(r, n, mallocOk);
          ReadBufFailsOnlyAtEnd(r, n, mallocOk);
          if n <= |s| { PaddedBound(n, |s|); }
        case Op =>
          OpcodeIsFlat(r);
      }
      if Read(r, q).1.Some? {
        PagedReadingIsFlat(Read(r, q).0, qs[1..]);
      }
    }
  }

  /** Whatever the sizes and the allocations, what is returned is at least a prefix of that. */
  lemma {:induction false} PagedReadingIsPrefix(r: Reader, qs: seq<Request>)
    requires r.Valid()
    ensures Outputs(r, qs) <= FlatOutputs(r.Remaining(), qs)
    decreases |qs|
  {
    if qs != [] {
      ReadKeeps(r, qs[0]);
      match qs[0] {
        case Bytes(n, mallocOk) => ReadBufIsFlat(r, n, mallocOk);
        case Op => OpcodeIsFlat(r);
      }
      if Read(r, qs[0]).1.Some? {
        PagedReadingIsPrefix(Read(r, qs[0]).0, qs[1..]);
      }
    }
  }

  // ---- the implementation ----

  class CompoundArgs {
    var buf: seq<Byte>
    var p: nat
    var end: nat
    var pagelist: seq<seq<Byte>>
    var pagelen: nat

    function Model(): Reader
      reads this
    {
      Reader(buf, p, end, pagelist, pagelen)
    }

    /** nfs4svc_decode_compoundargs. */
    constructor (head: seq<Byte>, pages: seq<seq<Byte>>, pagelen: nat)
      requires Reader(head, 0, |head|, pages, pagelen).Valid()
      ensures Model() == Reader(head, 0, |head|, pages, pagelen)
    {
      buf, p, end, pagelist, this.pagelen := head, 0, |head|, pages, pagelen;
    }

    method StepPage()
      requires Model().Valid() && pagelen > 0
      modifies this
      ensures Model() == NextPage(old(Model()))
    {
      buf := pagelist[0];
      p := 0;
      pagelist := pagelist[1..];
      if pagelen < PAGE_SIZE {
        end := pagelen / 4 * 4;
        pagelen := 0;
      } else {
        end := PAGE_SIZE;
        pagelen := pagelen - PAGE_SIZE;
      }
    }

    method ReadBytes(nbytes: nat, mallocOk: bool) returns (r: Option<seq<Byte>>)
      requires Model().Valid()
      modifies this
      ensures (Model(), r) == ReadBuf(old(Model()), nbytes, mallocOk)
      ensures Model().Valid()
    {
      var avail := end - p;
      if nbytes <= avail {
        ReadInBuffer(Model(), nbytes);
        r := Some(buf[p..p + nbytes]);
        p := p + Padded(nbytes);
        return;
      }
      if avail + pagelen < nbytes {
        return None;
      }
      if avail + PAGE_SIZE < nbytes {
        return None;
      }
      if nbytes > TMP_SIZE && !mallocOk {
        return None;
      }
      var first := buf[p..end];
      ReadAcross(Model(), nbytes);
      StepPage();
      r := Some(first + buf[..nbytes - avail]);
      p := p + Padded(nbytes - avail);
    }

    method FetchOpcode() returns (r: Option<seq<Byte>>)
      requires Model().Valid()
      modifies this
      ensures (Model(), r) == Opcode(old(Model()))
      ensures Model().Valid()
    {
      OpcodeIsFlat(Model());
      if p == end {
        if pagelen < 4 {
          return None;
        }
        NextPageKeeps(Model());
        StepPage();
      }
      r := Some(buf[p..p + 4]);
      p := p + 4;
    }
  }
}
