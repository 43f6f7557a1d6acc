/** The client's cache of a leased append-only file (`LDBLease` in cfs/include/FsLibLease.h): a vector
    of pages, each with a 16-bit number that packs the owning thread and how much of the page is filled. */
module LeaseCache {

  import opened Bytes

  const PAGE: nat := 4096
  const MAGIC: nat := 10000
  const U16: nat := 65536
  const U64: nat := 0x1_0000_0000_0000_0000

  /** `Absent` is a null page pointer. */
  datatype Slot = Absent | Page(data: seq<Byte>, tag: nat)

  // ---------------------------------------------------------------- the packed number

  /** The number given to a page when it is allocated for a thread. */
  function NewTag(tid: int): (tag: nat)
    ensures tag < U16
  {
    (MAGIC * tid) % U16
  }

  function Fill(tag: nat): (n: nat)
  {
    tag % MAGIC
  }

  /** The number with the fill replaced. */
  function Refill(tag: nat, n: nat): (r: nat)
  {
    (tag / MAGIC * MAGIC + n) % U16
  }

  lemma RefillFill(tag: nat, n: nat)
    requires tag < U16 && n <= PAGE
    ensures Refill(tag, n) < U16 && Fill(Refill(tag, n)) == n && Refill(tag, n) / MAGIC == tag / MAGIC
  {
    var q := tag / MAGIC;
    assert q <= 6;
    assert q * MAGIC + n < U16;
  }

  /** The owning thread is read back from the packed number exactly for the threads 0 to 6. */
  lemma OwnerRecoveredIff(tid: int, n: nat)
    requires n <= PAGE
    ensures Refill(NewTag(tid), n) / MAGIC == tid <==> 0 <= tid <= 6
  {
    RefillFill(NewTag(tid), n);
    if 0 <= tid <= 6 {
      assert MAGIC * tid < U16;
      assert NewTag(tid) == MAGIC * tid;
    }
  }

  // ---------------------------------------------------------------- pages against the file

  /** The filled part of page `i` agrees with the file, as far as the file goes. */
  predicate PageOk(s: Slot, i: nat, file: seq<Byte>)
  {
    s.Page? ==>
      && |s.data| == PAGE && s.tag < U16 && Fill(s.tag) <= PAGE
      && (forall k :: 0 <= k < Fill(s.tag) && i * PAGE + k < |file| ==> s.data[k] == file[i * PAGE + k])
  }

  predicate Cached(pages: seq<Slot>, file: seq<Byte>)
  {
    forall i :: 0 <= i < |pages| ==> PageOk(pages[i], i, file)
  }

  predicate Has(pages: seq<Slot>, i: nat, n: nat)
  {
    i < |pages| && pages[i].Page? && n <= Fill(pages[i].tag)
  }

  /** Every page of the file is there and marked full. */
  ghost predicate Complete(pages: seq<Slot>, size: nat)
  {
    forall i :: 0 <= i && i * PAGE < size ==> Has(pages, i, PAGE)
  }

  /** The page an append starts in holds the bytes before it. */
  predicate Appendable(pages: seq<Slot>, size: nat)
  {
    size % PAGE == 0 || Has(pages, size / PAGE, size % PAGE)
  }

  lemma CompleteIsAppendable(pages: seq<Slot>, size: nat)
    requires Complete(pages, size)
    ensures Appendable(pages, size)
  {
    if size % PAGE != 0 {
      assert Has(pages, size / PAGE, PAGE);
    }
  }

  function Overwrite(data: seq<Byte>, at: nat, src: seq<Byte>): (r: seq<Byte>)
    requires at + |src| <= |data|
    ensures |r| == |data|
    ensures forall k :: 0 <= k < |data| ==> r[k] == if at <= k < at + |src| then src[k - at] else data[k]
  {
    data[..at] + src + data[at + |src|..]
  }

  /** The page to write to: the one that is there, or new memory. */
  function Opened(s: Slot, raw: seq<Byte>, tid: int): (r: Slot)
    ensures r.Page?
  {
    if s.Page? then s else Page(raw, NewTag(tid))
  }

  function AppendPage(s: Slot, at: nat, src: seq<Byte>): (r: Slot)
    requires s.Page? && at + |src| <= |s.data|
  {
    Page(Overwrite(s.data, at, src), Refill(s.tag, PAGE))
  }

  /** Where in page `i` an append at `size` writes, and what. */
  function PieceAt(size: nat, i: nat): (at: nat)
  {
    if i == size / PAGE then size % PAGE else 0
  }

  function Piece(size: nat, buf: seq<Byte>, i: nat): (r: seq<Byte>)
    requires 0 < size + |buf| && size / PAGE <= i <= (size + |buf| - 1) / PAGE
    ensures PieceAt(size, i) + |r| <= PAGE
    ensures size <= i * PAGE + PieceAt(size, i) && i * PAGE + PieceAt(size, i) + |r| <= size + |buf|
    ensures forall k :: 0 <= k < |r| ==> r[k] == buf[i * PAGE + PieceAt(size, i) + k - size]
    ensures PieceAt(size, i) + |r| == PAGE || i * PAGE + PieceAt(size, i) + |r| == size + |buf|
  {
    var lo := i * PAGE + PieceAt(size, i) - size;
    var hi := if i == (size + |buf| - 1) / PAGE then |buf| else (i + 1) * PAGE - size;
    buf[lo..hi]
  }

  lemma AppendPageOk(s: Slot, raw: seq<Byte>, tid: int, i: nat, file: seq<Byte>, buf: seq<Byte>)
    requires 0 < |file| + |buf| && |file| / PAGE <= i <= (|file| + |buf| - 1) / PAGE && |raw| == PAGE
    requires PageOk(s, i, file)
    requires i == |file| / PAGE && |file| % PAGE != 0 ==> s.Page? && |file| % PAGE <= Fill(s.tag)
    ensures var o := Opened(s, raw, tid);
            var r := AppendPage(o, PieceAt(|file|, i), Piece(|file|, buf, i));
            PageOk(r, i, file + buf) && Fill(r.tag) == PAGE
  {
    var o := Opened(s, raw, tid);
    RefillFill(o.tag, PAGE);
    var at, piece := PieceAt(|file|, i), Piece(|file|, buf, i);
    var r := AppendPage(o, at, piece);
    forall k | 0 <= k < PAGE && i * PAGE + k < |file + buf| ensures r.data[k] == (file + buf)[i * PAGE + k] {
      if k < at {
        assert r.data[k] == s.data[k] && i * PAGE + k < |file|;
      } else {
        assert k < at + |piece|;
        assert r.data[k] == piece[k - at];
      }
    }
  }

  /** Memory that does not hold the given byte. */
  function Wrong(b: Byte): (raw: seq<Byte>)
    ensures |raw| == PAGE && forall k :: 0 <= k < PAGE ==> raw[k] != b
  {
    var x: Byte := if b == 0 then 1 else 0;
    seq(PAGE, _ => x)
  }

  /** An append into a page that is not cached is right whatever the new memory holds exactly when it
      starts at the beginning of the page: a lease on a file whose size is not a multiple of the page
      size must not append before the last page is cached. */
  lemma FreshPageOkIff(tid: int, i: nat, file: seq<Byte>, buf: seq<Byte>)
    requires 0 < |file| + |buf| && |file| / PAGE <= i <= (|file| + |buf| - 1) / PAGE
    ensures PieceAt(|file|, i) == 0 <==>
            forall raw: seq<Byte> :: |raw| == PAGE ==>
              PageOk(AppendPage(Opened(Absent, raw, tid), PieceAt(|file|, i), Piece(|file|, buf, i)), i, file + buf)
  {
    if PieceAt(|file|, i) == 0 {
      forall raw: seq<Byte> | |raw| == PAGE
        ensures PageOk(AppendPage(Opened(Absent, raw, tid), PieceAt(|file|, i), Piece(|file|, buf, i)), i, file + buf)
      {
        AppendPageOk(Absent, raw, tid, i, file, buf);
      }
    } else {
      var raw := Wrong(file[i * PAGE]);
      var o := Opened(Absent, raw, tid);
      var r := AppendPage(o, PieceAt(|file|, i), Piece(|file|, buf, i));
      RefillFill(o.tag, PAGE);
      assert r.data[0] == raw[0] != (file + buf)[i * PAGE + 0];
      assert !PageOk(r, i, file + buf);
    }
  }

  /** `Write` at a page-aligned offset adds what the page does not have yet. */
  function FilledPage(s: Slot, src: seq<Byte>): (r: Slot)
    requires s.Page? && |s.data| == PAGE && |src| <= PAGE
  {
    var real_ := Fill(s.tag);
    if |src| > real_ then Page(Overwrite(s.data, real_, src[real_..]), Refill(s.tag, |src|)) else s
  }

  /** Bytes to be kept at `at` agree with the file, as far as the file goes. */
  predicate AgreesWith(src: seq<Byte>, file: seq<Byte>, at: nat)
  {
    forall k :: 0 <= k < |src| && at + k < |file| ==> src[k] == file[at + k]
  }

  /** A page that is there is filled rightly by any thread; a new one if its number shows no fill. */
  lemma FilledPageOk(s: Slot, raw: seq<Byte>, tid: int, i: nat, file: seq<Byte>, src: seq<Byte>)
    requires |raw| == PAGE && |src| <= PAGE && PageOk(s, i, file) && AgreesWith(src, file, i * PAGE)
    requires s.Page? || Fill(NewTag(tid)) == 0
    ensures var r := FilledPage(Opened(s, raw, tid), src);
            PageOk(r, i, file) && Fill(r.tag) >= |src| && (s.Page? ==> Fill(r.tag) >= Fill(s.tag))
  {
    var o := Opened(s, raw, tid);
    RefillFill(o.tag, |src|);
    var r := FilledPage(o, src);
    forall k | 0 <= k < Fill(r.tag) && i * PAGE + k < |file| ensures r.data[k] == file[i * PAGE + k] {
      if |src| > Fill(o.tag) && k >= Fill(o.tag) {
        assert r.data[k] == src[Fill(o.tag)..][k - Fill(o.tag)] == src[k];
      }
    }
  }

  lemma FillsWrongly(tid: int, raw: seq<Byte>, i: nat, file: seq<Byte>, src: seq<Byte>)
    requires 0 < |src| <= PAGE && |raw| == PAGE && i * PAGE < |file| && raw[0] != file[i * PAGE]
    requires Fill(NewTag(tid)) != 0
    ensures !PageOk(FilledPage(Opened(Absent, raw, tid), src), i, file)
  {
    var r := FilledPage(Opened(Absent, raw, tid), src);
    RefillFill(NewTag(tid), |src|);
    assert Fill(r.tag) > PAGE || (r.data[0] == raw[0] && Fill(r.tag) > 0);
    assert Fill(r.tag) <= PAGE ==> r.data[0] != file[i * PAGE + 0];
  }

  /** Filling a page that is not cached is right whatever the new memory holds if and only if the
      number given to a new page shows no fill. */
  lemma FillFreshIff(tid: int, i: nat, file: seq<Byte>, src: seq<Byte>)
    requires 0 < |src| <= PAGE && AgreesWith(src, file, i * PAGE) && i * PAGE < |file|
    ensures Fill(NewTag(tid)) == 0 <==>
            forall raw: seq<Byte> :: |raw| == PAGE ==> PageOk(FilledPage(Opened(Absent, raw, tid), src), i, file)
  {
    if Fill(NewTag(tid)) == 0 {
      forall raw: seq<Byte> | |raw| == PAGE ensures PageOk(FilledPage(Opened(Absent, raw, tid), src), i, file) {
        FilledPageOk(Absent, raw, tid, i, file, src);
      }
    } else {
      var raw := Wrong(file[i * PAGE]);
      FillsWrongly(tid, raw, i, file, src);
      assert !PageOk(FilledPage(Opened(Absent, raw, tid), src), i, file);
    }
  }

  /** 625 and 4096 have no common factor. */
  lemma Coprime(d: int, m: int)
    requires 625 * d == 4096 * m && -4096 < d < 4096
    ensures d == 0
  {
    assert d == 4096 * (3729 * m - 569 * d);
  }

  lemma Wraps(a: int, k: int)
    ensures (a + 65536 * k) % 65536 == a % 65536
  {
  }

  lemma TagPeriod(tid: int)
    ensures NewTag(tid) == NewTag(tid % 4096)
  {
    var q, r := tid / 4096, tid % 4096;
    assert 10000 * tid == 10000 * r + 65536 * (625 * q);
    Wraps(10000 * r, 625 * q);
  }

  /** That is so for the threads 0 to 6, and for those that the 16 bits make equal to them. */
  lemma CleanTagIff(tid: int)
    ensures Fill(NewTag(tid)) == 0 <==> tid % 4096 <= 6
  {
    TagPeriod(tid);
    var r := tid % 4096;
    var m, tag := MAGIC * r / U16, NewTag(r);
    assert MAGIC * r == U16 * m + tag;
    var t := tag / MAGIC;
    if tag == MAGIC * t {
      Coprime(r - t, m);
    }
  }

  /** Thread 7: the new page's number shows a fill beyond the page, so nothing is copied and the page
      counts as filled with what the memory held. */
  lemma SeventhThread(raw: seq<Byte>, src: seq<Byte>)
    requires |raw| == PAGE && |src| <= PAGE
    ensures FilledPage(Opened(Absent, raw, 7), src) == Page(raw, 4464) && Fill(4464) > PAGE
  {
  }

  /** `CheckArraySize`. */
  function Resized(pages: seq<Slot>, n: nat): (r: seq<Slot>)
    ensures |r| == if |pages| < n then n else |pages|
    ensures forall i :: 0 <= i < |r| ==> r[i] == if i < |pages| then pages[i] else Absent
  {
    if |pages| < n then pages + seq(n - |pages|, _ => Absent) else pages
  }

  /** How much of page `i` an access to `count` bytes at `offset` needs. */
  function Need(offset: nat, count: nat, i: nat): (n: nat)
    requires 0 < offset + count
  {
    if i == (offset + count - 1) / PAGE then (offset + count - 1) % PAGE + 1 else PAGE
  }

  predicate Serves(pages: seq<Slot>, offset: nat, count: nat, i: nat)
    requires 0 < offset + count
  {
    Has(pages, i, Need(offset, count, i))
  }

  predicate InRange(offset: nat, count: nat, i: nat)
    requires 0 < offset + count
  {
    offset / PAGE <= i <= (offset + count - 1) / PAGE
  }

  /** Every page of an access can serve its part. */
  ghost predicate ServesAll(pages: seq<Slot>, offset: nat, count: nat)
    requires 0 < offset + count
  {
    forall i :: InRange(offset, count, i) ==> Serves(pages, offset, count, i)
  }

  lemma CompleteServes(pages: seq<Slot>, size: nat, offset: nat, count: nat)
    requires Complete(pages, size) && 0 < offset + count <= size
    ensures ServesAll(pages, offset, count)
  {
    forall i: nat | InRange(offset, count, i) ensures Serves(pages, offset, count, i) {
      assert i * PAGE < size;
      assert Has(pages, i, PAGE);
    }
  }

  /** What the pages before page `i` contribute to a read. */
  function Got(offset: nat, count: nat, i: nat): (n: int)
    requires 0 < offset + count
  {
    if i == offset / PAGE then 0 else if i == (offset + count - 1) / PAGE + 1 then count else i * PAGE - offset
  }

  predicate Matches(data: seq<Byte>, file: seq<Byte>, offset: nat, count: nat)
  {
    offset + count <= |file| ==> |data| <= count && data == file[offset..offset + |data|]
  }

  /** One more page of a read. */
  lemma ReadStep(s: Slot, file: seq<Byte>, offset: nat, count: nat, i: nat, data: seq<Byte>)
    requires 0 < offset + count && InRange(offset, count, i) && |data| == Got(offset, count, i)
    requires s.Page? && PageOk(s, i, file) && Need(offset, count, i) <= Fill(s.tag)
    requires Matches(data, file, offset, count)
    ensures var from := if i == offset / PAGE then offset % PAGE else 0;
            var data' := data + s.data[from..Need(offset, count, i)];
            && from <= Need(offset, count, i)
            && |data'| == Got(offset, count, i + 1) && Matches(data', file, offset, count)
  {
    var from := if i == offset / PAGE then offset % PAGE else 0;
    var to := Need(offset, count, i);
    assert offset + |data| == i * PAGE + from;
    if offset + count <= |file| {
      assert i * PAGE + to <= offset + count;
      var piece := s.data[from..to];
      forall k | 0 <= k < |piece| ensures piece[k] == file[offset + |data| + k] {
        assert piece[k] == s.data[from + k] == file[i * PAGE + (from + k)];
      }
      assert data + piece == file[offset..offset + |data + piece|];
    }
  }

  /** The pages of an append are full afterwards, the others as before. */
  lemma AppendCompletes(before: seq<Slot>, after: seq<Slot>, size: nat, n: nat)
    requires Complete(before, size) && 0 < size + n
    requires forall i :: size / PAGE <= i <= (size + n - 1) / PAGE ==> Has(after, i, PAGE)
    requires forall i :: 0 <= i < size / PAGE && Has(before, i, PAGE) ==> Has(after, i, PAGE)
    ensures Complete(after, size + n)
  {
    forall i | 0 <= i && i * PAGE < size + n ensures Has(after, i, PAGE) {
      if i < size / PAGE {
        assert i * PAGE < size;
        assert Has(before, i, PAGE);
      }
    }
  }

  /** The bytes a miss asks for, in 64 bits: the page distance is added where it should be taken off. */
  function MissCount(offset: nat, count: nat, numHit: nat): (n: nat)
  {
    (count + offset % PAGE + PAGE * numHit) % U64
  }

  /** They end where the read ends if and only if no page was hit before the miss. */
  lemma MissCountIff(offset: nat, count: nat, numHit: nat)
    requires count + offset % PAGE + PAGE * numHit < U64
    ensures PAGE * (offset / PAGE + numHit) + MissCount(offset, count, numHit) == offset + count + 2 * PAGE * numHit
    ensures PAGE * (offset / PAGE + numHit) + MissCount(offset, count, numHit) == offset + count <==> numHit == 0
  {
    assert PAGE * (offset / PAGE) + offset % PAGE == offset;
    assert PAGE * (offset / PAGE + numHit) == PAGE * (offset / PAGE) + PAGE * numHit;
  }

  /** The loop of `Read`: copies page by page, and stops at the first page that cannot serve its part. */
  method ReadPages(pages: seq<Slot>, ghost file: seq<Byte>, count: nat, offset: nat)
    returns (hit: bool, data: seq<Byte>, at: nat)
    requires 0 < offset + count && |pages| > (offset + count - 1) / PAGE && Cached(pages, file)
    ensures hit <==> ServesAll(pages, offset, count)
    ensures hit ==> at == (offset + count - 1) / PAGE + 1 && |data| == count
    ensures !hit ==> InRange(offset, count, at) && !Serves(pages, offset, count, at)
    ensures |data| == Got(offset, count, at) && Matches(data, file, offset, count)
    ensures forall i: nat :: InRange(offset, count, i) && i < at ==> Serves(pages, offset, count, i)
  {
    var first, last := offset / PAGE, (offset + count - 1) / PAGE;
    data := [];
    for i := first to last + 1
      invariant |data| == Got(offset, count, i) && Matches(data, file, offset, count)
      invariant forall j: nat :: InRange(offset, count, j) && j < i ==> Serves(pages, offset, count, j)
    {
      var from := if i == first then offset % PAGE else 0;
      var to := if i == last then (offset + count - 1) % PAGE else PAGE - 1;
      if pages[i].Absent? || to >= Fill(pages[i].tag) {
        assert InRange(offset, count, i) && !Serves(pages, offset, count, i);
        return false, data, i;
      }
      assert PageOk(pages[i], i, file);
      ReadStep(pages[i], file, offset, count, i, data);
      data := data + pages[i].data[from..to + 1];
    }
    return true, data, last + 1;
  }

  ghost predicate Memory(raw: nat -> seq<Byte>)
  {
    forall i :: |raw(i)| == PAGE
  }

  /** A page the append does not reach. */
  lemma OutsideOk(s: Slot, i: nat, file: seq<Byte>, buf: seq<Byte>)
    requires PageOk(s, i, file) && (i < |file| / PAGE || i * PAGE >= |file| + |buf|)
    ensures PageOk(s, i, file + buf)
  {
  }

  /** The loop of `Write` at the end of the file. */
  method AppendPages(pages: seq<Slot>, ghost file: seq<Byte>, size: nat, buf: seq<Byte>, tid: int,
                     raw: nat -> seq<Byte>)
    returns (r: seq<Slot>)
    requires size == |file| && 0 < size + |buf| && Cached(pages, file) && Appendable(pages, size) && Memory(raw)
    ensures |r| == |Resized(pages, (size + |buf| - 1) / PAGE + 1)| && Cached(r, file + buf)
    ensures forall i :: 0 <= i < |r| && !(size / PAGE <= i <= (size + |buf| - 1) / PAGE) ==>
              r[i] == if i < |pages| then pages[i] else Absent
    ensures forall i :: size / PAGE <= i <= (size + |buf| - 1) / PAGE ==> Has(r, i, PAGE)
  {
    var first, last := size / PAGE, (size + |buf| - 1) / PAGE;
    r := Resized(pages, last + 1);
    ghost var all := r;
    for i := first to last + 1
      invariant |r| == |all|
      invariant forall j :: 0 <= j < |r| && !(first <= j < i) ==> r[j] == all[j]
      invariant forall j :: first <= j < i ==> PageOk(r[j], j, file + buf) && Has(r, j, PAGE)
    {
      AppendPageOk(r[i], raw(i), tid, i, file, buf);
      var s := Opened(r[i], raw(i), tid);
      r := r[i := AppendPage(s, PieceAt(size, i), Piece(size, buf, i))];
    }
    forall i | 0 <= i < |r| && !(first <= i <= last) ensures PageOk(r[i], i, file + buf) {
      assert i < first || i > last;
      OutsideOk(all[i], i, file, buf);
    }
  }

  // ---------------------------------------------------------------- keeping what the server returned

  predicate Shaped(pages: seq<Slot>)
  {
    forall i :: 0 <= i < |pages| && pages[i].Page? ==> |pages[i].data| == PAGE
  }

  /** The part of `buf`, which starts at the aligned `offset`, that belongs to page `i`. */
  function Chunk(buf: seq<Byte>, offset: nat, i: nat): (r: seq<Byte>)
    requires 0 < offset + |buf| && offset % PAGE == 0 && InRange(offset, |buf|, i)
    ensures |r| == Need(offset, |buf|, i) <= PAGE && offset <= i * PAGE && i * PAGE - offset + |r| <= |buf|
    ensures forall k :: 0 <= k < |r| ==> r[k] == buf[i * PAGE - offset + k]
  {
    var lo := PAGE * (i - offset / PAGE);
    var hi := if i == (offset + |buf| - 1) / PAGE then |buf| else lo + PAGE;
    buf[lo..hi]
  }

  /** The pages after `Write` at an offset; `raw(i)` is what memory allocated for page `i` happens to hold. */
  ghost function FilledAll(pages: seq<Slot>, offset: nat, buf: seq<Byte>, tid: int,
                           raw: nat -> seq<Byte>): (r: seq<Slot>)
    requires 0 < offset + |buf| && offset % PAGE == 0 && Shaped(pages) && Memory(raw)
  {
    var all := Resized(pages, (offset + |buf| - 1) / PAGE + 1);
    seq(|all|, i requires 0 <= i < |all| =>
      if InRange(offset, |buf|, i) then FilledPage(Opened(all[i], raw(i), tid), Chunk(buf, offset, i)) else all[i])
  }

  /** Every page of the range has memory already. */
  ghost predicate AllThere(pages: seq<Slot>, offset: nat, count: nat)
    requires 0 < offset + count
  {
    forall i :: InRange(offset, count, i) ==> Has(pages, i, 0)
  }

  ghost predicate Keeps(before: seq<Slot>, after: seq<Slot>)
  {
    forall i, n :: Has(before, i, n) ==> Has(after, i, n)
  }

  lemma ChunkAgrees(buf: seq<Byte>, offset: nat, file: seq<Byte>, i: nat)
    requires 0 < offset + |buf| && offset % PAGE == 0 && InRange(offset, |buf|, i) && AgreesWith(buf, file, offset)
    ensures AgreesWith(Chunk(buf, offset, i), file, i * PAGE)
  {
    var src := Chunk(buf, offset, i);
    forall k | 0 <= k < |src| && i * PAGE + k < |file| ensures src[k] == file[i * PAGE + k] {
      assert buf[i * PAGE - offset + k] == file[offset + (i * PAGE - offset + k)];
    }
  }

  lemma FilledOne(pages: seq<Slot>, offset: nat, buf: seq<Byte>, tid: int, raw: nat -> seq<Byte>, file: seq<Byte>,
                  i: nat)
    requires 0 < offset + |buf| && offset % PAGE == 0 && Cached(pages, file) && Memory(raw)
    requires AgreesWith(buf, file, offset) && (Fill(NewTag(tid)) == 0 || AllThere(pages, offset, |buf|))
    requires i < |FilledAll(pages, offset, buf, tid, raw)|
    ensures var r := FilledAll(pages, offset, buf, tid, raw)[i];
            && PageOk(r, i, file)
            && (InRange(offset, |buf|, i) ==> r.Page? && Need(offset, |buf|, i) <= Fill(r.tag))
            && (i < |pages| && pages[i].Page? ==> r.Page? && Fill(pages[i].tag) <= Fill(r.tag))
  {
    var all := Resized(pages, (offset + |buf| - 1) / PAGE + 1);
    if InRange(offset, |buf|, i) {
      ChunkAgrees(buf, offset, file, i);
      assert PageOk(all[i], i, file);
      assert all[i].Page? || Fill(NewTag(tid)) == 0;
      FilledPageOk(all[i], raw(i), tid, i, file, Chunk(buf, offset, i));
    }
  }

  /** With a clean thread number, or with memory for every page, the bytes are kept rightly, nothing is
      forgotten, and the range can be read afterwards. */
  lemma FilledRight(pages: seq<Slot>, offset: nat, buf: seq<Byte>, tid: int, raw: nat -> seq<Byte>, file: seq<Byte>)
    requires 0 < offset + |buf| && offset % PAGE == 0 && Cached(pages, file) && Memory(raw)
    requires AgreesWith(buf, file, offset) && (Fill(NewTag(tid)) == 0 || AllThere(pages, offset, |buf|))
    ensures var r := FilledAll(pages, offset, buf, tid, raw);
            Cached(r, file) && Keeps(pages, r) && ServesAll(r, offset, |buf|)
  {
    var r := FilledAll(pages, offset, buf, tid, raw);
    forall i: nat | i < |r|
      ensures && PageOk(r[i], i, file)
              && (InRange(offset, |buf|, i) ==> r[i].Page? && Need(offset, |buf|, i) <= Fill(r[i].tag))
              && (i < |pages| && pages[i].Page? ==> r[i].Page? && Fill(pages[i].tag) <= Fill(r[i].tag))
    {
      FilledOne(pages, offset, buf, tid, raw, file, i);
    }
  }

  lemma FilledWrongly(pages: seq<Slot>, offset: nat, buf: seq<Byte>, tid: int, file: seq<Byte>, i: nat)
    returns (raw: nat -> seq<Byte>)
    requires buf != [] && offset % PAGE == 0 && Shaped(pages) && offset + |buf| <= |file|
    requires Fill(NewTag(tid)) != 0 && InRange(offset, |buf|, i) && !Has(pages, i, 0)
    ensures Memory(raw) && !Cached(FilledAll(pages, offset, buf, tid, raw), file)
  {
    assert i * PAGE < |file|;
    var wrong := Wrong(file[i * PAGE]);
    raw := (_: nat) => wrong;
    var r := FilledAll(pages, offset, buf, tid, raw);
    FillsWrongly(tid, wrong, i, file, Chunk(buf, offset, i));
    assert r[i] == FilledPage(Opened(Absent, wrong, tid), Chunk(buf, offset, i));
    assert !PageOk(r[i], i, file);
  }

  /** The cache is right afterwards whatever the new memory holds if and only if the thread number is
      clean or every page of the range has memory already. */
  lemma FilledRightIff(pages: seq<Slot>, offset: nat, buf: seq<Byte>, tid: int, file: seq<Byte>)
    requires buf != [] && offset % PAGE == 0 && Cached(pages, file)
    requires AgreesWith(buf, file, offset) && offset + |buf| <= |file|
    ensures Fill(NewTag(tid)) == 0 || AllThere(pages, offset, |buf|) <==>
            forall raw: nat -> seq<Byte> :: Memory(raw) ==> Cached(FilledAll(pages, offset, buf, tid, raw), file)
  {
    if Fill(NewTag(tid)) == 0 || AllThere(pages, offset, |buf|) {
      forall raw: nat -> seq<Byte> | Memory(raw) ensures Cached(FilledAll(pages, offset, buf, tid, raw), file) {
        FilledRight(pages, offset, buf, tid, raw, file);
      }
    } else {
      var i :| InRange(offset, |buf|, i) && !Has(pages, i, 0);
      var raw := FilledWrongly(pages, offset, buf, tid, file, i);
      assert !Cached(FilledAll(pages, offset, buf, tid, raw), file);
    }
  }

  // ---------------------------------------------------------------- a read that misses

  /** A miss after `numHit` pages asks for no less than the rest of the read, in 64 bits. */
  lemma MissCountCovers(offset: nat, count: nat, numHit: nat)
    requires 0 < offset + count && InRange(offset, count, offset / PAGE + numHit) && 2 * (count + PAGE) < U64
    ensures var o := PAGE * (offset / PAGE + numHit);
            && o % PAGE == 0 && (numHit == 0 ==> o <= offset) && o <= offset + count
            && o + MissCount(offset, count, numHit) == offset + count + 2 * PAGE * numHit
  {
    assert PAGE * numHit <= count + offset % PAGE;
    MissCountIff(offset, count, numHit);
  }

  /** The reader's buffer after a miss: the pages that were hit, and then the server's bytes. */
  function Assembled(data: seq<Byte>, served: seq<Byte>, offset: nat, count: nat, missOffset: nat): (r: seq<Byte>)
    requires missOffset <= offset + count <= missOffset + |served|
  {
    if missOffset <= offset then served[offset - missOffset..][..count]
    else data + served[..offset + count - missOffset]
  }

  lemma AssembledMatches(data: seq<Byte>, served: seq<Byte>, offset: nat, count: nat, missOffset: nat, file: seq<Byte>)
    requires missOffset <= offset + count <= missOffset + |served|
    requires Matches(data, file, offset, count) && (missOffset <= offset || |data| == missOffset - offset)
    requires AgreesWith(served, file, missOffset)
    ensures var r := Assembled(data, served, offset, count, missOffset); |r| == count && Matches(r, file, offset, count)
  {
    var r := Assembled(data, served, offset, count, missOffset);
    if offset + count <= |file| {
      forall k | 0 <= k < count ensures r[k] == file[offset + k] {
        if missOffset <= offset {
          assert r[k] == served[offset - missOffset + k] == file[missOffset + (offset - missOffset + k)];
        } else if k < |data| {
          assert data[k] == file[offset..offset + |data|][k];
        } else {
          assert r[k] == served[k - |data|] == file[missOffset + (k - |data|)];
        }
      }
      assert r == file[offset..offset + count];
    }
  }

  /** The pages before the miss, and those the server's bytes went to, serve the whole read. */
  lemma ServesWider(pages: seq<Slot>, offset: nat, count: nat, numHit: nat, missOffset: nat, missCount: nat)
    requires 0 < offset + count && missOffset == PAGE * (offset / PAGE + numHit)
    requires missOffset + missCount >= offset + count && ServesAll(pages, missOffset, missCount)
    requires forall i: nat :: InRange(offset, count, i) && i < offset / PAGE + numHit ==>
               Serves(pages, offset, count, i)
    ensures ServesAll(pages, offset, count)
  {
    forall i: nat | InRange(offset, count, i) ensures Serves(pages, offset, count, i) {
      if i >= offset / PAGE + numHit {
        assert InRange(missOffset, missCount, i);
        assert Serves(pages, missOffset, missCount, i);
      }
    }
  }

  /** More places in the array serve nothing more. */
  lemma ResizedServes(pages: seq<Slot>, more: seq<Slot>, offset: nat, count: nat)
    requires 0 < offset + count && more == Resized(pages, (offset + count - 1) / PAGE + 1)
    ensures forall i: nat :: Serves(more, offset, count, i) <==> Serves(pages, offset, count, i)
  {
  }

  // ---------------------------------------------------------------- the object

  class LDBLease {
    var fileSize: nat
    var pages: seq<Slot>
    /** The file the cache stands for. */
    ghost var file: seq<Byte>

    ghost predicate Sound()
      reads this
    {
      fileSize == |file| && Cached(pages, file)
    }

    constructor (ghost file: seq<Byte>, size: nat)
      requires size == |file|
      ensures Sound() && this.file == file && pages == []
      ensures size == 0 ==> Complete(pages, fileSize)
    {
      this.file, fileSize, pages := file, size, [];
    }

    method Read(count: nat, offset: nat)
      returns (hit: bool, data: seq<Byte>, missCount: nat, missOffset: nat, numHit: nat)
      requires Sound() && 0 < offset + count
      modifies this`pages
      ensures Sound() && pages == Resized(old(pages), (offset + count - 1) / PAGE + 1)
      ensures hit <==> ServesAll(pages, offset, count)
      ensures Matches(data, file, offset, count)
      ensures |data| == if hit then count else if numHit == 0 then 0 else missOffset - offset
      ensures !hit ==>
        var i := offset / PAGE + numHit;
        && InRange(offset, count, i) && !Serves(pages, offset, count, i)
        && missOffset == PAGE * i && missCount == MissCount(offset, count, numHit)
      ensures forall i: nat :: InRange(offset, count, i) && i < offset / PAGE + numHit ==>
                Serves(pages, offset, count, i)
      ensures offset + count <= |file| && old(Complete(pages, fileSize)) ==> hit
    {
      pages := Resized(pages, (offset + count - 1) / PAGE + 1);
      var at;
      hit, data, at := ReadPages(pages, file, count, offset);
      missCount, missOffset, numHit := 0, 0, at - offset / PAGE;
      if !hit {
        missCount, missOffset := MissCount(offset, count, numHit), PAGE * at;
      }
      if offset + count <= |file| && old(Complete(pages, fileSize)) {
        CompleteServes(old(pages), fileSize, offset, count);
      }
    }

    /** Appends; `raw(i)` is what the memory allocated for page `i` happens to hold. */
    method Append(buf: seq<Byte>, tid: int, raw: nat -> seq<Byte>)
      requires Sound() && 0 < fileSize + |buf| && Appendable(pages, fileSize) && Memory(raw)
      modifies this
      ensures Sound() && file == old(file) + buf
      ensures |pages| == |Resized(old(pages), (fileSize - 1) / PAGE + 1)|
      ensures forall i :: 0 <= i < |pages| && !(old(fileSize) / PAGE <= i <= (fileSize - 1) / PAGE) ==>
                pages[i] == if i < |old(pages)| then old(pages)[i] else Absent
      ensures forall i :: old(fileSize) / PAGE <= i <= (fileSize - 1) / PAGE ==> Has(pages, i, PAGE)
      ensures old(Complete(pages, fileSize)) ==> Complete(pages, fileSize)
    {
      ghost var before := pages;
      pages := AppendPages(pages, file, fileSize, buf, tid, raw);
      if Complete(before, fileSize) {
        AppendCompletes(before, pages, fileSize, |buf|);
      }
      file, fileSize := file + buf, fileSize + |buf|;
    }

    /** Keeps what the server returned for a page-aligned range. */
    method WriteAt(buf: seq<Byte>, offset: nat, tid: int, raw: nat -> seq<Byte>)
      requires Sound() && 0 < offset + |buf| && offset % PAGE == 0 && Memory(raw)
      modifies this`pages
      ensures Shaped(old(pages)) && pages == FilledAll(old(pages), offset, buf, tid, raw)
      ensures AgreesWith(buf, file, offset) && (Fill(NewTag(tid)) == 0 || AllThere(old(pages), offset, |buf|)) ==>
                Sound() && Keeps(old(pages), pages) && ServesAll(pages, offset, |buf|)
    {
      var first, last := offset / PAGE, (offset + |buf| - 1) / PAGE;
      pages := Resized(pages, last + 1);
      ghost var all, goal := pages, FilledAll(pages, offset, buf, tid, raw);
      for i := first to last + 1
        invariant |pages| == |goal| && unchanged(`file) && unchanged(`fileSize)
        invariant forall j :: 0 <= j < |pages| ==> pages[j] == if j < i then goal[j] else all[j]
      {
        pages := pages[i := FilledPage(Opened(pages[i], raw(i), tid), Chunk(buf, offset, i))];
      }
      assert pages == FilledAll(old(pages), offset, buf, tid, raw);
      if AgreesWith(buf, file, offset) && (Fill(NewTag(tid)) == 0 || AllThere(old(pages), offset, |buf|)) {
        FilledRight(old(pages), offset, buf, tid, raw, file);
      }
    }

    /** A read of the file through the lease: what is not cached is asked of the server, put in the reader's
        buffer behind what was, and kept. `serve` gives what the buffer holds there afterwards: the server's
        bytes or, when it fails, what was there before, which the original keeps just the same. All of
        `served` goes into the buffer: two pages more than the read for each page hit. */
    method Pread(count: nat, offset: nat, tid: int, raw: nat -> seq<Byte>, serve: (nat, nat) -> seq<Byte>)
      returns (hit: bool, data: seq<Byte>, served: seq<Byte>, missOffset: nat, numHit: nat)
      requires Sound() && 0 < offset + count && 2 * (count + PAGE) < U64 && Memory(raw)
      requires forall o, n :: |serve(o, n)| == n
      modifies this`pages
      ensures |data| == count && (AgreesWith(served, file, missOffset) ==> Matches(data, file, offset, count))
      ensures AgreesWith(served, file, missOffset) && Fill(NewTag(tid)) == 0 ==>
                Sound() && Keeps(old(pages), pages) && ServesAll(pages, offset, count)
      ensures hit ==> served == [] && ServesAll(pages, offset, count)
      ensures !hit ==>
                && missOffset == PAGE * (offset / PAGE + numHit) && served == serve(missOffset, |served|)
                && missOffset + |served| == offset + count + 2 * PAGE * numHit
                && InRange(offset, count, offset / PAGE + numHit)
                && !Serves(old(pages), offset, count, offset / PAGE + numHit)
      ensures !hit ==> forall i: nat :: InRange(offset, count, i) && i < offset / PAGE + numHit ==>
                Serves(old(pages), offset, count, i)
    {
      var missCount;
      hit, data, missCount, missOffset, numHit := Read(count, offset);
      served := [];
      if !hit {
        MissCountCovers(offset, count, numHit);
        served := serve(missOffset, missCount);
        if AgreesWith(served, file, missOffset) {
          AssembledMatches(data, served, offset, count, missOffset, file);
        }
        data := Assembled(data, served, offset, count, missOffset);
        ghost var read := pages;
        ResizedServes(old(pages), read, offset, count);
        WriteAt(served, missOffset, tid, raw);
        if AgreesWith(served, file, missOffset) && Fill(NewTag(tid)) == 0 {
          assert forall i: nat :: InRange(offset, count, i) && i < offset / PAGE + numHit ==>
            Serves(read, offset, count, i);
          ServesWider(pages, offset, count, numHit, missOffset, missCount);
        }
      }
    }
  }

  function Concat(bufs: seq<seq<Byte>>): (r: seq<Byte>)
  {
    if bufs == [] then [] else Concat(bufs[..|bufs| - 1]) + bufs[|bufs| - 1]
  }

  /** Any appends to an empty file, by any threads, and then any read within the file. */
  method AppendsThenRead(bufs: seq<seq<Byte>>, tids: nat -> int, raw: nat -> seq<Byte>, count: nat, offset: nat)
    returns (hit: bool, data: seq<Byte>)
    requires (bufs != [] ==> bufs[0] != []) && Memory(raw)
    requires 0 < offset + count <= |Concat(bufs)|
    ensures hit && data == Concat(bufs)[offset..offset + count]
  {
    var lease := new LDBLease([], 0);
    for k := 0 to |bufs|
      invariant fresh(lease) && lease.Sound() && Complete(lease.pages, lease.fileSize)
      invariant lease.file == Concat(bufs[..k]) && (k > 0 ==> lease.file != [])
    {
      assert bufs[..k + 1][..k] == bufs[..k];
      CompleteIsAppendable(lease.pages, lease.fileSize);
      lease.Append(bufs[k], tids(k), raw);
    }
    assert bufs[..|bufs|] == bufs;
    var missCount, missOffset, numHit;
    hit, data, missCount, missOffset, numHit := lease.Read(count, offset);
  }
}
