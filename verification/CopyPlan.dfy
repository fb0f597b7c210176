/**
  What xfs_copy writes for one allocation group (copy/xfs_copy.c): the AG header, then everything
  that the free-space records leave over, in pieces that suit direct I/O.

  Disk addresses are 512-byte sectors, buffer positions and lengths are bytes, and the two sizes of
  a copy are unsigned 64-bit values whose wrap-around is written out.
*/
module CopyPlan {
  import opened Arith

  const BBSIZE := 512

  /** A by-block free-space record: ar_startblock, ar_blockcount. */
  datatype FreeRec = FreeRec(start: nat, count: nat)

  /** One write to the targets, in bytes. */
  datatype Range = Range(pos: nat, len: nat) {
    predicate Has(x: int) { pos <= x < pos + len }
    function End(): nat { pos + len }
  }

  /** The sizes of the source filesystem and of the device or file that holds it, in bytes. */
  datatype Source = Source(fsSize: nat, devSize: nat)

  /**
    The geometry of one AG and of the buffer.  Block size, AG origin and I/O size are in sectors;
    `bufSize` is in bytes.
  */
  datatype Geometry = Geometry(
    blockSectors: nat, minIoSectors: nat, bufSize: nat,
    agStart: nat, headerBlocks: nat, agLength: nat, src: Source)
  {
    predicate Valid() {
      && blockSectors > 0 && minIoSectors > 0 && headerBlocks > 0
      && bufSize > 0 && bufSize % MinIo() == 0
      && headerBlocks <= agLength
      && BBSIZE * (agStart + agLength * blockSectors + minIoSectors) < U64 / 4
      && BBSIZE * AgEnd() <= src.fsSize <= src.devSize
      && (src.devSize == src.fsSize || BBSIZE * (AgEnd() + minIoSectors) <= src.devSize)
    }

    function MinIo(): nat { BBSIZE * minIoSectors }

    /** XFS_AGB_TO_DADDR */
    function Daddr(agbno: nat): nat { agStart + agbno * blockSectors }

    function AgEnd(): nat { Daddr(agLength) }

    /** End of the header before any rounding, as a sector. */
    function HeaderLimit(): nat { Daddr(headerBlocks) }
  }

  function RoundDown(x: nat, y: nat): int
    requires y > 0
  {
    x / y * y
  }

  function RoundUp(x: nat, y: nat): int
    requires y > 0
  {
    (x + (y - 1)) / y * y
  }

  /** roundup() on an unsigned 64-bit value. */
  function RoundUp64(x: nat, y: nat): int
    requires y > 0
  {
    RoundDown((x + (y - 1)) % U64, y)
  }

  /** The size of a copy that starts at sector `begin` and ends before sector `end`, as the code computes it. */
  function CopySize(begin: nat, end: nat, minIo: nat): int
    requires minIo > 0
  {
    var sizeb := (end - begin) % U64;
    RoundUp64(sizeb * BBSIZE % U64, minIo)
  }

  // ---------------------------------------------------------------------------
  // Rounding
  // ---------------------------------------------------------------------------

  lemma {:induction false} RoundDownFacts(x: nat, y: nat)
    requires y > 0
    ensures 0 <= RoundDown(x, y) <= x < RoundDown(x, y) + y
    ensures RoundDown(x, y) % y == 0
  {
    var q := x / y;
    assert x == q * y + x % y;
    if q >= 1 { MulAtLeast(q, y); }
    MulDivMod(q, y, 0);
  }

  lemma {:induction false} RoundUpFacts(x: nat, y: nat)
    requires y > 0
    ensures x <= RoundUp(x, y) < x + y
    ensures RoundUp(x, y) % y == 0
  {
    MulDivMod((x + (y - 1)) / y, y, 0);
  }

  /** Rounding down keeps a multiple of y that is below x. */
  lemma {:induction false} RoundDownAbove(a: nat, x: nat, y: nat)
    requires y > 0 && a % y == 0 && a <= x
    ensures a <= RoundDown(x, y)
  {
    RoundDownFacts(x, y);
    var p, q := a / y, x / y;
    assert a == p * y;
    assert (p - q) * y == p * y - q * y && (q - p) * y == q * y - p * y;
    if p > q { MulAtLeast(p - q, y); }
    if p < q { MulAtLeast(q - p, y); }
  }

  lemma {:induction false} RoundUpExact(x: nat, y: nat)
    requires y > 0 && x % y == 0
    ensures RoundUp(x, y) == x && RoundDown(x, y) == x
  {
    MulDivMod(x / y, y, y - 1);
  }

  lemma {:induction false} SumMultiple(a: nat, b: nat, y: nat)
    requires y > 0 && a % y == 0 && b % y == 0
    ensures (a + b) % y == 0
    ensures a >= b ==> (a - b) % y == 0
  {
    var p, q := a / y, b / y;
    assert a == p * y && b == q * y;
    assert a + b == (p + q) * y + 0;
    MulDivMod(p + q, y, 0);
    assert a - b == (p - q) * y + 0;
    MulDivMod(p - q, y, 0);
  }

  /** Scaling by the sector size commutes with the remainder. */
  lemma {:induction false} SectorMultiple(x: nat, m: nat)
    requires m > 0 && x % m == 0
    ensures (BBSIZE * x) % (BBSIZE * m) == 0
  {
    var q := x / m;
    assert x == q * m;
    assert BBSIZE * x == q * (BBSIZE * m) + 0;
    MulDivMod(q, BBSIZE * m, 0);
  }

  /** A multiple of the I/O size in bytes is a multiple of it in sectors. */
  lemma {:induction false} SectorDivides(e: nat, m: nat)
    requires m > 0 && e % (BBSIZE * m) == 0
    ensures BBSIZE * (e / BBSIZE) == e && (e / BBSIZE) % m == 0
  {
    var q := e / (BBSIZE * m);
    assert e == q * (BBSIZE * m);
    var p := q * m;
    assert e == BBSIZE * p by { assert q * (BBSIZE * m) == BBSIZE * (q * m); }
    MulDivMod(q, m, 0);
  }

  /** The ordinary case: the copy runs to `end`, rounded up. */
  lemma {:induction false} CopySizeForward(begin: nat, end: nat, minIo: nat)
    requires begin <= end && 0 < minIo < U64 / 2 && BBSIZE * end < U64 / 2
    ensures CopySize(begin, end, minIo) == RoundUp(BBSIZE * (end - begin), minIo)
  {
    assert (end - begin) % U64 == end - begin;
    var size := (end - begin) * BBSIZE;
    assert size % U64 == size;
    assert (size + (minIo - 1)) % U64 == size + (minIo - 1);
  }

  /**
    The pathological case: the free extent starts before `begin`, but by less than the I/O size.
    The subtraction wraps, and rounding up wraps it back to nothing.
  */
  lemma {:induction false} CopySizeWraps(begin: nat, end: nat, minIo: nat)
    requires end < begin && BBSIZE * (begin - end) < minIo < U64 / 2
    ensures CopySize(begin, end, minIo) == 0
  {
    var d := begin - end;
    assert (end - begin) % U64 == U64 - d;
    assert (U64 - d) * BBSIZE == 511 * U64 + (U64 - BBSIZE * d);
    MulDivMod(511, U64, U64 - BBSIZE * d);
    assert (U64 - BBSIZE * d + (minIo - 1)) % U64 == minIo - 1 - BBSIZE * d;
    MulDivMod(0, minIo, minIo - 1 - BBSIZE * d);
  }

  // ---------------------------------------------------------------------------
  // The header and the free-space records
  // ---------------------------------------------------------------------------

  /** read_ag_header: the header range, rounded out to the I/O size. */
  function Header(g: Geometry): Range
    requires g.Valid()
  {
    var position := BBSIZE * g.agStart;
    RoundDownFacts(position, g.MinIo());
    var newpos := RoundDown(position, g.MinIo());
    var length := BBSIZE * (g.headerBlocks * g.blockSectors) + (position - newpos);
    RoundUpFacts(length, g.MinIo());
    Range(newpos, RoundUp(length, g.MinIo()))
  }

  /** The header range is aligned, holds the whole header and overshoots it by less than the I/O size. */
  lemma {:induction false} HeaderFacts(g: Geometry)
    requires g.Valid()
    ensures var h := Header(g);
            && h.pos % g.MinIo() == 0 && h.len % g.MinIo() == 0 && h.End() % g.MinIo() == 0
            && h.pos <= BBSIZE * g.agStart < h.pos + g.MinIo()
            && BBSIZE * g.HeaderLimit() <= h.End() < BBSIZE * g.HeaderLimit() + g.MinIo()
  {
    var position := BBSIZE * g.agStart;
    RoundDownFacts(position, g.MinIo());
    var length := BBSIZE * (g.headerBlocks * g.blockSectors) + (position - RoundDown(position, g.MinIo()));
    RoundUpFacts(length, g.MinIo());
    SumMultiple(Header(g).pos, Header(g).len, g.MinIo());
  }

  function Flatten(leaves: seq<seq<FreeRec>>): seq<FreeRec> {
    if leaves == [] then [] else leaves[0] + Flatten(leaves[1..])
  }

  /** Free extents of a consistent AG: non-empty, past the header, ascending, disjoint, inside the AG. */
  ghost predicate GoodRecords(g: Geometry, recs: seq<FreeRec>) {
    && (forall i :: 0 <= i < |recs| ==>
                      && recs[i].count > 0 && g.headerBlocks <= recs[i].start
                      && recs[i].start + recs[i].count <= g.agLength)
    && (forall i, j :: 0 <= i < j < |recs| ==> recs[i].start + recs[i].count <= recs[j].start)
  }

  predicate InRecord(g: Geometry, r: FreeRec, x: int) {
    BBSIZE * g.Daddr(r.start) <= x < BBSIZE * g.Daddr(r.start + r.count)
  }

  /** Byte x of the disk lies in a free extent. */
  ghost predicate Free(g: Geometry, recs: seq<FreeRec>, x: int) {
    exists i :: 0 <= i < |recs| && InRecord(g, recs[i], x)
  }

  ghost predicate Written(writes: seq<Range>, x: int) {
    exists k :: 0 <= k < |writes| && writes[k].Has(x)
  }

  /** The chunks are consecutive, cover exactly the bytes from lo to hi and each suits the buffer. */
  ghost predicate Tiles(chunks: seq<Range>, lo: nat, hi: nat, minIo: nat, bufSize: nat)
    requires minIo > 0
  {
    && lo <= hi
    && (chunks == [] ==> lo == hi)
    && (chunks != [] ==> chunks[0].pos == lo && chunks[|chunks| - 1].End() == hi)
    && (forall k :: 0 <= k < |chunks| - 1 ==> chunks[k].End() == chunks[k + 1].pos)
    && (forall k :: 0 <= k < |chunks| ==> FitsBuffer(chunks[k], minIo, bufSize) && lo <= chunks[k].pos)
  }

  predicate FitsBuffer(r: Range, minIo: nat, bufSize: nat)
    requires minIo > 0
  {
    0 < r.len <= bufSize && r.pos % minIo == 0 && r.len % minIo == 0
  }

  lemma {:induction false} TilesWritten(chunks: seq<Range>, lo: nat, hi: nat, minIo: nat, bufSize: nat, x: int)
    requires minIo > 0 && Tiles(chunks, lo, hi, minIo, bufSize)
    ensures Written(chunks, x) <==> lo <= x < hi
  {
    if chunks != [] {
      var last := |chunks| - 1;
      var front := chunks[..last];
      TilesWritten(front, lo, chunks[last].pos, minIo, bufSize, x);
      WrittenConcat(front, [chunks[last]], x);
      assert front + [chunks[last]] == chunks;
      assert [chunks[last]][0].Has(x) <==> chunks[last].pos <= x < hi;
    }
  }

  lemma {:induction false} TilesWithin(chunks: seq<Range>, lo: nat, hi: nat, minIo: nat, bufSize: nat, k: nat)
    requires minIo > 0 && Tiles(chunks, lo, hi, minIo, bufSize) && k < |chunks|
    ensures FitsBuffer(chunks[k], minIo, bufSize) && lo <= chunks[k].pos && chunks[k].End() <= hi
    decreases |chunks| - k
  {
    if k < |chunks| - 1 { TilesWithin(chunks, lo, hi, minIo, bufSize, k + 1); }
  }

  lemma {:induction false} WrittenConcat(a: seq<Range>, b: seq<Range>, x: int)
    ensures Written(a + b, x) <==> Written(a, x) || Written(b, x)
  {
    if Written(a, x) {
      var k :| 0 <= k < |a| && a[k].Has(x);
      assert (a + b)[k].Has(x);
    }
    if Written(b, x) {
      var k :| 0 <= k < |b| && b[k].Has(x);
      assert (a + b)[|a| + k].Has(x);
    }
  }

  // ---------------------------------------------------------------------------
  // The copy loops
  // ---------------------------------------------------------------------------

  /**
    read_wbuf: rounds the request out to the I/O size; the program gives up when it exceeds the buffer.
    A read that is cut short at the end of the filesystem counts as a full one, any other as it is.
  */
  method ReadWbuf(position: nat, length: nat, minIo: nat, size: nat, src: Source)
    returns (aborted: bool, r: Range, ghost want: Range)
    requires minIo > 0
    ensures want.pos % minIo == 0 && want.len % minIo == 0
    ensures want.pos <= position && position + length <= want.End()
    ensures want.len < length + 2 * minIo
    ensures position % minIo == 0 && length % minIo == 0 ==> want == Range(position, length)
    ensures aborted <==> want.len > size
    ensures !aborted ==>
              (r == want <==> want.len == 0 || want.End() <= src.devSize || Max(want.pos, src.devSize) == src.fsSize)
    ensures !aborted && r != want ==> r == Range(want.pos, Max(0, src.devSize - want.pos))
  {
    RoundDownFacts(position, minIo);
    var pos: nat := RoundDown(position, minIo);
    var len: nat := length;
    if pos != position {
      len := len + (position - pos);
    }
    RoundUpFacts(len, minIo);
    if len % minIo != 0 {
      len := RoundUp(len, minIo);
    }
    if position % minIo == 0 {
      RoundUpExact(position, minIo);
    }
    r, want := Range(pos, len), Range(pos, len);
    aborted := len > size;
    if !aborted {
      var res: nat := Min(len, Max(0, src.devSize - pos));
      if !(res < len && pos + res == src.fsSize) {
        r := Range(pos, res);
      }
    }
  }

  lemma {:induction false} TilesAppend(chunks: seq<Range>, lo: nat, r: Range, minIo: nat, bufSize: nat)
    requires minIo > 0 && Tiles(chunks, lo, r.pos, minIo, bufSize) && FitsBuffer(r, minIo, bufSize)
    ensures Tiles(chunks + [r], lo, r.End(), minIo, bufSize)
  {
  }

  lemma {:induction false} MultipleAtLeast(a: nat, m: nat)
    requires m > 0 && a % m == 0 && a > 0
    ensures m <= a
  {
    if a < m { MulDivMod(0, m, a); }
  }

  /** The chunk loop of main: `size` bytes from byte `start`. */
  method CopyExtent(start: nat, size: nat, minIo: nat, bufSize: nat, src: Source)
    returns (aborted: bool, chunks: seq<Range>)
    requires minIo > 0 && bufSize > 0 && bufSize % minIo == 0
    requires start % minIo == 0 && size % minIo == 0
    requires start + size <= src.devSize || (src.devSize == src.fsSize && start + size < src.fsSize + minIo)
    ensures !aborted
    ensures Tiles(chunks, start, start + size, minIo, bufSize)
  {
    aborted, chunks := false, [];
    var position, left := start, size;
    while left > 0 && !aborted
      invariant !aborted && position % minIo == 0 && left % minIo == 0
      invariant 0 <= left && position + left == start + size
      invariant Tiles(chunks, start, position, minIo, bufSize)
      decreases left
    {
      var length := if left > bufSize then bufSize else left;
      SumMultiple(left, length, minIo);
      MultipleAtLeast(length, minIo);
      left := left - length;
      var r;
      ghost var want;
      aborted, r, want := ReadWbuf(position, length, minIo, bufSize, src);
      SumMultiple(position, length, minIo);
      TilesAppend(chunks, start, r, minIo, bufSize);
      chunks := chunks + [r];
      position := position + r.len;
    }
  }

  /** First sector after the header as written. */
  function HeaderEnd(g: Geometry): nat
    requires g.Valid()
  {
    Header(g).End() / BBSIZE
  }

  lemma {:induction false} HeaderEndFacts(g: Geometry)
    requires g.Valid()
    ensures BBSIZE * HeaderEnd(g) == Header(g).End()
    ensures HeaderEnd(g) % g.minIoSectors == 0
    ensures g.HeaderLimit() <= HeaderEnd(g) < g.HeaderLimit() + g.minIoSectors
  {
    HeaderFacts(g);
    SectorDivides(Header(g).End(), g.minIoSectors);
  }

  /** The end of the last free extent, as a sector. */
  function LastEnd(g: Geometry, recs: seq<FreeRec>): nat
    requires recs != []
  {
    var r := recs[|recs| - 1];
    g.Daddr(r.start + r.count)
  }

  /**
    No data copy starts inside the header: exactly when the AG has no free extent, or the last one
    ends past the rounded header, or nothing is left to copy after it.
  */
  predicate TailClear(g: Geometry, recs: seq<FreeRec>)
    requires g.Valid()
  {
    recs == [] || HeaderEnd(g) <= LastEnd(g, recs) || g.AgEnd() <= RoundDown(LastEnd(g, recs), g.minIoSectors)
  }

  /** The lowest byte that a data copy of the AG may start at. */
  function LowestCopy(g: Geometry, recs: seq<FreeRec>): int
    requires g.Valid()
  {
    if TailClear(g, recs) then Header(g).End() else BBSIZE * RoundDown(LastEnd(g, recs), g.minIoSectors)
  }

  /** I/O size divides the block size and the AG starts on a multiple of it. */
  predicate Aligned(g: Geometry)
    requires g.minIoSectors > 0
  {
    g.blockSectors % g.minIoSectors == 0 && g.agStart % g.minIoSectors == 0
  }

  /** Every byte of the AG below `lim` that is not free has been written. */
  ghost predicate CoveredTo(g: Geometry, recs: seq<FreeRec>, writes: seq<Range>, lim: int) {
    forall x :: BBSIZE * g.agStart <= x < lim && !Free(g, recs, x) ==> Written(writes, x)
  }

  /** Where coverage stands after the first `done` records. */
  function Limit(g: Geometry, recs: seq<FreeRec>, done: nat): nat
    requires g.Valid() && done <= |recs|
  {
    if done == 0 then Header(g).End() else BBSIZE * LastEnd(g, recs[..done])
  }

  /** The copy in front of one free extent, or behind the last one: sectors from `begin` up to `end`. */
  method CopyGap(g: Geometry, begin: nat, end: nat) returns (aborted: bool, chunks: seq<Range>)
    requires g.Valid() && begin % g.minIoSectors == 0 && end <= g.AgEnd()
    requires begin < end + g.minIoSectors
    ensures !aborted
    ensures GapChunks(g, begin, end, chunks)
  {
    SectorMultiple(begin, g.minIoSectors);
    var size := CopySize(begin, end, g.MinIo());
    if begin <= end {
      CopySizeForward(begin, end, g.MinIo());
      RoundUpFacts(BBSIZE * (end - begin), g.MinIo());
    } else {
      CopySizeWraps(begin, end, g.MinIo());
    }
    aborted, chunks := CopyExtent(BBSIZE * begin, size, g.MinIo(), g.bufSize, g.src);
  }

  // ---------------------------------------------------------------------------
  // Coverage, one free extent at a time
  // ---------------------------------------------------------------------------

  lemma {:induction false} DaddrMono(g: Geometry, a: nat, b: nat)
    requires a <= b
    ensures g.Daddr(a) <= g.Daddr(b)
  {
    assert g.Daddr(b) - g.Daddr(a) == (b - a) * g.blockSectors;
  }

  lemma {:induction false} DaddrAligned(g: Geometry, a: nat)
    requires g.minIoSectors > 0 && Aligned(g)
    ensures g.Daddr(a) % g.minIoSectors == 0
  {
    var q := g.blockSectors / g.minIoSectors;
    assert g.blockSectors == q * g.minIoSectors;
    assert a * g.blockSectors == (a * q) * g.minIoSectors + 0;
    MulDivMod(a * q, g.minIoSectors, 0);
    SumMultiple(g.agStart, a * g.blockSectors, g.minIoSectors);
  }

  /** A byte of the AG past the header that belongs to no free extent. */
  ghost predicate Used(g: Geometry, recs: seq<FreeRec>, x: int)
    requires g.Valid()
  {
    Header(g).End() <= x < BBSIZE * g.AgEnd() && !Free(g, recs, x)
  }

  /** Bytes between the end of extent done-1 and the start of extent `done` are not free. */
  lemma {:induction false} GapIsUsed(g: Geometry, recs: seq<FreeRec>, done: nat, x: int)
    requires g.Valid() && GoodRecords(g, recs) && done <= |recs|
    requires Limit(g, recs, done) <= x
    requires x < if done < |recs| then BBSIZE * g.Daddr(recs[done].start) else BBSIZE * g.AgEnd()
    ensures !Free(g, recs, x)
  {
    forall i | 0 <= i < |recs|
      ensures !InRecord(g, recs[i], x)
    {
      if i < done {
        assert recs[..done][done - 1] == recs[done - 1];
        assert recs[i].start + recs[i].count <= recs[done - 1].start + recs[done - 1].count;
        DaddrMono(g, recs[i].start + recs[i].count, recs[done - 1].start + recs[done - 1].count);
      } else {
        assert recs[done].start <= recs[i].start;
        DaddrMono(g, recs[done].start, recs[i].start);
      }
    }
  }

  /** What holds after `done` free extents: `data` is what was written after the header. */
  ghost predicate Progress(g: Geometry, recs: seq<FreeRec>, done: nat, data: seq<Range>, nextBegin: nat)
    requires g.Valid() && done <= |recs|
  {
    && nextBegin == (if done == 0 then HeaderEnd(g) else RoundDown(LastEnd(g, recs[..done]), g.minIoSectors))
    && CoveredTo(g, recs, [Header(g)] + data, Limit(g, recs, done))
    && DataFits(g, data)
    && (Aligned(g) ==> DataUsed(g, recs, data))
  }

  ghost predicate DataFits(g: Geometry, data: seq<Range>)
    requires g.Valid()
  {
    forall k :: 0 <= k < |data| ==> DataChunk(g, data[k]) && Header(g).End() <= data[k].pos
  }

  ghost predicate DataUsed(g: Geometry, recs: seq<FreeRec>, data: seq<Range>)
    requires g.Valid()
  {
    forall x :: Written(data, x) ==> Used(g, recs, x)
  }

  predicate DataChunk(g: Geometry, r: Range)
    requires g.Valid()
  {
    FitsBuffer(r, g.MinIo(), g.bufSize) && Header(g).pos <= r.pos && r.End() < BBSIZE * g.AgEnd() + g.MinIo()
  }

  lemma {:induction false} NextBeginFacts(g: Geometry, recs: seq<FreeRec>, done: nat, data: seq<Range>, nextBegin: nat)
    requires g.Valid() && done <= |recs| && Progress(g, recs, done, data, nextBegin)
    ensures nextBegin % g.minIoSectors == 0
    ensures BBSIZE * nextBegin <= Limit(g, recs, done)
    ensures Aligned(g) ==> BBSIZE * nextBegin == Limit(g, recs, done)
  {
    HeaderEndFacts(g);
    if done > 0 {
      RoundDownFacts(LastEnd(g, recs[..done]), g.minIoSectors);
      if Aligned(g) {
        var r := recs[..done][done - 1];
        DaddrAligned(g, r.start + r.count);
        RoundUpExact(LastEnd(g, recs[..done]), g.minIoSectors);
      }
    }
  }

  /** Where the gap in front of extent `done` lies. */
  lemma {:induction false} GapEnd(g: Geometry, recs: seq<FreeRec>, done: nat)
    requires GoodRecords(g, recs) && done < |recs|
    ensures g.HeaderLimit() <= g.Daddr(recs[done].start) <= g.AgEnd()
    ensures done > 0 ==> LastEnd(g, recs[..done]) <= g.Daddr(recs[done].start)
  {
    DaddrMono(g, g.headerBlocks, recs[done].start);
    DaddrMono(g, recs[done].start, g.agLength);
    if done > 0 {
      assert recs[..done][done - 1] == recs[done - 1];
      DaddrMono(g, recs[done - 1].start + recs[done - 1].count, recs[done].start);
    }
  }

  /** The gap in front of extent `done` is not too far behind `begin` for the sizes to work out. */
  lemma {:induction false} BeginInReach(g: Geometry, recs: seq<FreeRec>, done: nat, data: seq<Range>, nextBegin: nat)
    requires g.Valid() && GoodRecords(g, recs) && done < |recs| && Progress(g, recs, done, data, nextBegin)
    ensures var end := g.Daddr(recs[done].start);
            end <= g.AgEnd() && nextBegin < end + g.minIoSectors && HeaderEnd(g) < end + g.minIoSectors
  {
    GapEnd(g, recs, done);
    HeaderEndFacts(g);
    NextBeginFacts(g, recs, done, data, nextBegin);
  }

  ghost predicate GapChunks(g: Geometry, begin: nat, end: nat, chunks: seq<Range>)
    requires g.Valid()
  {
    && (begin <= end ==>
          var size := RoundUp(BBSIZE * (end - begin), g.MinIo());
          size >= 0 && Tiles(chunks, BBSIZE * begin, BBSIZE * begin + size, g.MinIo(), g.bufSize))
    && (end < begin ==> chunks == [])
  }

  /** A gap that starts at an aligned sector is covered, overshoots by less than the I/O size. */
  lemma {:induction false} GapChunksFacts(g: Geometry, begin: nat, end: nat, chunks: seq<Range>, x: int)
    requires g.Valid() && GapChunks(g, begin, end, chunks)
    ensures BBSIZE * begin <= x < BBSIZE * end ==> Written(chunks, x)
    ensures Written(chunks, x) ==> BBSIZE * begin <= x < BBSIZE * end + g.MinIo()
    ensures Written(chunks, x) && begin % g.minIoSectors == 0 && end % g.minIoSectors == 0 ==> x < BBSIZE * end
  {
    if begin <= end {
      var size := BBSIZE * (end - begin);
      RoundUpFacts(size, g.MinIo());
      TilesWritten(chunks, BBSIZE * begin, BBSIZE * begin + RoundUp(size, g.MinIo()), g.MinIo(), g.bufSize, x);
      if begin % g.minIoSectors == 0 && end % g.minIoSectors == 0 {
        SumMultiple(end, begin, g.minIoSectors);
        SectorMultiple(end - begin, g.minIoSectors);
        RoundUpExact(size, g.MinIo());
      }
    }
  }

  lemma {:induction false} CoverStep(g: Geometry, recs: seq<FreeRec>, done: nat, data: seq<Range>, begin: nat, end: nat,
                                     chunks: seq<Range>, lim: int)
    requires g.Valid() && GoodRecords(g, recs) && done <= |recs|
    requires CoveredTo(g, recs, [Header(g)] + data, Limit(g, recs, done))
    requires BBSIZE * begin <= Limit(g, recs, done) || begin == HeaderEnd(g)
    requires GapChunks(g, begin, end, chunks)
    requires forall x :: BBSIZE * end <= x < lim ==> Free(g, recs, x)
    ensures CoveredTo(g, recs, [Header(g)] + (data + chunks), lim)
  {
    assert [Header(g)] + (data + chunks) == ([Header(g)] + data) + chunks;
    forall x | BBSIZE * g.agStart <= x < lim && !Free(g, recs, x)
      ensures Written([Header(g)] + (data + chunks), x)
    {
      CoverPoint(g, recs, Limit(g, recs, done), data, begin, end, chunks, x);
    }
  }

  lemma {:induction false} CoverPoint(g: Geometry, recs: seq<FreeRec>, lim: int, data: seq<Range>, begin: nat, end: nat,
                                      chunks: seq<Range>, x: int)
    requires g.Valid() && CoveredTo(g, recs, [Header(g)] + data, lim) && GapChunks(g, begin, end, chunks)
    requires BBSIZE * begin <= lim || begin == HeaderEnd(g)
    requires BBSIZE * g.agStart <= x < BBSIZE * end && !Free(g, recs, x)
    ensures Written(([Header(g)] + data) + chunks, x)
  {
    WrittenConcat([Header(g)] + data, chunks, x);
    if BBSIZE * begin <= x {
      GapChunksFacts(g, begin, end, chunks, x);
    } else if begin == HeaderEnd(g) {
      HeaderCovers(g, data, x);
    }
  }

  lemma {:induction false} HeaderCovers(g: Geometry, data: seq<Range>, x: int)
    requires g.Valid() && BBSIZE * g.agStart <= x < BBSIZE * HeaderEnd(g)
    ensures Written([Header(g)] + data, x)
  {
    HeaderFacts(g);
    HeaderEndFacts(g);
    assert ([Header(g)] + data)[0].Has(x);
  }

  lemma {:induction false} ChunksFit(g: Geometry, begin: nat, end: nat, chunks: seq<Range>)
    requires g.Valid() && GapChunks(g, begin, end, chunks) && end <= g.AgEnd()
    requires Header(g).pos <= BBSIZE * begin
    ensures forall k :: 0 <= k < |chunks| ==> DataChunk(g, chunks[k]) && BBSIZE * begin <= chunks[k].pos
  {
    if begin <= end {
      var size := RoundUp(BBSIZE * (end - begin), g.MinIo());
      RoundUpFacts(BBSIZE * (end - begin), g.MinIo());
      forall k | 0 <= k < |chunks|
        ensures DataChunk(g, chunks[k]) && BBSIZE * begin <= chunks[k].pos
      {
        TilesWithin(chunks, BBSIZE * begin, BBSIZE * begin + size, g.MinIo(), g.bufSize, k);
      }
    }
  }

  lemma {:induction false} FitsConcat(g: Geometry, data: seq<Range>, chunks: seq<Range>)
    requires g.Valid() && DataFits(g, data) && DataFits(g, chunks)
    ensures DataFits(g, data + chunks)
  {
  }

  lemma {:induction false} StepUsed(g: Geometry, recs: seq<FreeRec>, done: nat, data: seq<Range>, nextBegin: nat,
                                    begin: nat, end: nat, chunks: seq<Range>)
    requires g.Valid() && GoodRecords(g, recs) && done < |recs| && Aligned(g)
    requires Progress(g, recs, done, data, nextBegin) && GapChunks(g, begin, end, chunks)
    requires begin == (if nextBegin < HeaderEnd(g) then HeaderEnd(g) else nextBegin)
    requires end == g.Daddr(recs[done].start)
    ensures DataUsed(g, recs, data + chunks)
  {
    NextBeginFacts(g, recs, done, data, nextBegin);
    HeaderFacts(g);
    HeaderEndFacts(g);
    GapEnd(g, recs, done);
    DaddrAligned(g, recs[done].start);
    forall x | Written(data + chunks, x)
      ensures Used(g, recs, x)
    {
      WrittenConcat(data, chunks, x);
      if Written(chunks, x) {
        GapChunksFacts(g, begin, end, chunks, x);
        GapIsUsed(g, recs, done, x);
      }
    }
  }

  /** One iteration of the record loop. */
  lemma {:induction false} ProgressStep(g: Geometry, recs: seq<FreeRec>, done: nat, data: seq<Range>, nextBegin: nat,
                                        chunks: seq<Range>)
    requires g.Valid() && GoodRecords(g, recs) && done < |recs| && Progress(g, recs, done, data, nextBegin)
    requires var begin := if nextBegin < HeaderEnd(g) then HeaderEnd(g) else nextBegin;
             GapChunks(g, begin, g.Daddr(recs[done].start), chunks)
    ensures var r := recs[done];
            var next := RoundDown(g.Daddr(r.start + r.count), g.minIoSectors);
            next >= 0 && Progress(g, recs, done + 1, data + chunks, next)
  {
    var begin := if nextBegin < HeaderEnd(g) then HeaderEnd(g) else nextBegin;
    var end := g.Daddr(recs[done].start);
    if Aligned(g) { StepUsed(g, recs, done, data, nextBegin, begin, end, chunks); }
    StepCovered(g, recs, done, data, nextBegin, begin, end, chunks);
    assert recs[..done + 1][done] == recs[done];
    RoundDownFacts(LastEnd(g, recs[..done + 1]), g.minIoSectors);
  }

  lemma {:induction false} StepCovered(g: Geometry, recs: seq<FreeRec>, done: nat, data: seq<Range>, nextBegin: nat,
                                       begin: nat, end: nat, chunks: seq<Range>)
    requires g.Valid() && GoodRecords(g, recs) && done < |recs|
    requires Progress(g, recs, done, data, nextBegin) && GapChunks(g, begin, end, chunks)
    requires begin == (if nextBegin < HeaderEnd(g) then HeaderEnd(g) else nextBegin)
    requires end == g.Daddr(recs[done].start)
    ensures CoveredTo(g, recs, [Header(g)] + (data + chunks), Limit(g, recs, done + 1))
    ensures DataFits(g, data + chunks)
  {
    NextBeginFacts(g, recs, done, data, nextBegin);
    HeaderFacts(g);
    HeaderEndFacts(g);
    GapEnd(g, recs, done);
    var lim := Limit(g, recs, done + 1);
    assert recs[..done + 1][done] == recs[done];
    forall x | BBSIZE * end <= x < lim
      ensures Free(g, recs, x)
    {
      assert InRecord(g, recs[done], x);
    }
    CoverStep(g, recs, done, data, begin, end, chunks, lim);
    ChunksFit(g, begin, end, chunks);
    FitsConcat(g, data, chunks);
  }

  /** The copy behind the last free extent, when there is anything left. */
  lemma {:induction false} TailStep(g: Geometry, recs: seq<FreeRec>, data: seq<Range>, nextBegin: nat,
                                    chunks: seq<Range>)
    requires g.Valid() && GoodRecords(g, recs) && Progress(g, recs, |recs|, data, nextBegin)
    requires if nextBegin < g.AgEnd() then GapChunks(g, nextBegin, g.AgEnd(), chunks) else chunks == []
    ensures CoveredTo(g, recs, [Header(g)] + (data + chunks), BBSIZE * g.AgEnd())
    ensures forall k :: 0 <= k < |chunks| ==> DataChunk(g, chunks[k]) && BBSIZE * nextBegin <= chunks[k].pos
    ensures nextBegin < g.AgEnd() ==> chunks != [] && chunks[0].pos == BBSIZE * nextBegin
    ensures Aligned(g) ==> forall x :: Written(chunks, x) ==> Used(g, recs, x)
  {
    NextBeginFacts(g, recs, |recs|, data, nextBegin);
    HeaderFacts(g);
    HeaderEndFacts(g);
    assert recs[..|recs|] == recs;
    if nextBegin < g.AgEnd() {
      CoverStep(g, recs, |recs|, data, nextBegin, g.AgEnd(), chunks, BBSIZE * g.AgEnd());
      NextBeginAboveHeader(g, recs, nextBegin);
      ChunksFit(g, nextBegin, g.AgEnd(), chunks);
      GapChunksFacts(g, nextBegin, g.AgEnd(), chunks, BBSIZE * nextBegin);
      if Aligned(g) {
        DaddrAligned(g, g.agLength);
        forall x | Written(chunks, x)
          ensures Used(g, recs, x)
        {
          GapChunksFacts(g, nextBegin, g.AgEnd(), chunks, x);
          GapIsUsed(g, recs, |recs|, x);
          AlignedTail(g, recs, nextBegin);
        }
      }
    } else {
      assert data + chunks == data;
    }
  }

  lemma {:induction false} NextBeginAboveHeader(g: Geometry, recs: seq<FreeRec>, nextBegin: nat)
    requires g.Valid() && GoodRecords(g, recs)
    requires nextBegin == if recs == [] then HeaderEnd(g) else RoundDown(LastEnd(g, recs), g.minIoSectors)
    ensures Header(g).pos <= BBSIZE * nextBegin
    ensures BBSIZE * nextBegin < Header(g).End() <==> recs != [] && LastEnd(g, recs) < HeaderEnd(g)
  {
    HeaderFacts(g);
    HeaderEndFacts(g);
    SectorDivides(Header(g).pos, g.minIoSectors);
    if recs != [] {
      var r := recs[|recs| - 1];
      DaddrMono(g, 0, r.start + r.count);
      RoundDownFacts(LastEnd(g, recs), g.minIoSectors);
      RoundDownAbove(Header(g).pos / BBSIZE, LastEnd(g, recs), g.minIoSectors);
      if HeaderEnd(g) <= LastEnd(g, recs) {
        RoundDownAbove(HeaderEnd(g), LastEnd(g, recs), g.minIoSectors);
      }
    }
  }

  /** With aligned blocks the last free extent always ends past the header. */
  lemma {:induction false} AlignedTail(g: Geometry, recs: seq<FreeRec>, nextBegin: nat)
    requires g.Valid() && GoodRecords(g, recs) && Aligned(g)
    requires nextBegin == if recs == [] then HeaderEnd(g) else RoundDown(LastEnd(g, recs), g.minIoSectors)
    ensures TailClear(g, recs) && Header(g).End() <= BBSIZE * nextBegin
  {
    AlignedHeader(g);
    if recs != [] { LastPastHeader(g, recs); }
    NextBeginAboveHeader(g, recs, nextBegin);
  }

  lemma {:induction false} AlignedHeader(g: Geometry)
    requires g.Valid() && Aligned(g)
    ensures HeaderEnd(g) == g.HeaderLimit() && BBSIZE * HeaderEnd(g) == Header(g).End()
  {
    HeaderEndFacts(g);
    DaddrAligned(g, g.headerBlocks);
    MultiplesApart(g.HeaderLimit(), HeaderEnd(g), g.minIoSectors);
  }

  lemma {:induction false} LastPastHeader(g: Geometry, recs: seq<FreeRec>)
    requires GoodRecords(g, recs) && recs != []
    ensures g.HeaderLimit() <= LastEnd(g, recs)
  {
    var r := recs[|recs| - 1];
    DaddrMono(g, g.headerBlocks, r.start + r.count);
  }

  /** Two multiples less than one step apart are equal. */
  lemma {:induction false} MultiplesApart(a: nat, b: nat, m: nat)
    requires m > 0 && a % m == 0 && b % m == 0 && a <= b < a + m
    ensures a == b
  {
    var p, q := a / m, b / m;
    assert a == p * m && b == q * m;
    assert (q - p) * m == b - a && (p - q) * m == a - b;
    if q > p { MulAtLeast(q - p, m); }
    if p > q { MulAtLeast(p - q, m); }
  }

  /** One free-space record: copy the gap in front of it and move on behind it. */
  method CopyRecord(g: Geometry, ghost recs: seq<FreeRec>, ghost done: nat, rec: FreeRec,
                    data: seq<Range>, nextBegin: nat, agBegin: nat)
    returns (aborted: bool, data': seq<Range>, nextBegin': nat)
    requires g.Valid() && GoodRecords(g, recs) && done < |recs| && rec == recs[done]
    requires Progress(g, recs, done, data, nextBegin) && agBegin == HeaderEnd(g)
    ensures !aborted && Progress(g, recs, done + 1, data', nextBegin')
  {
    var begin := if nextBegin < agBegin then agBegin else nextBegin;
    NextBeginFacts(g, recs, done, data, nextBegin);
    BeginInReach(g, recs, done, data, nextBegin);
    HeaderEndFacts(g);
    var chunks;
    aborted, chunks := CopyGap(g, begin, g.Daddr(rec.start));
    ProgressStep(g, recs, done, data, nextBegin, chunks);
    data' := data + chunks;
    nextBegin' := RoundDown(g.Daddr(rec.start + rec.count), g.minIoSectors);
  }

  /** The record loop over one leaf, whose records are those of the tree from `done` on. */
  method CopyLeaf(g: Geometry, ghost recs: seq<FreeRec>, ghost done: nat, leaf: seq<FreeRec>,
                  data0: seq<Range>, nextBegin0: nat, agBegin: nat)
    returns (aborted: bool, data: seq<Range>, nextBegin: nat)
    requires g.Valid() && GoodRecords(g, recs) && done + |leaf| <= |recs| && agBegin == HeaderEnd(g)
    requires Progress(g, recs, done, data0, nextBegin0) && forall i :: 0 <= i < |leaf| ==> leaf[i] == recs[done + i]
    ensures !aborted && Progress(g, recs, done + |leaf|, data, nextBegin)
  {
    aborted, data, nextBegin := false, data0, nextBegin0;
    var i := 0;
    while i < |leaf| && !aborted
      invariant 0 <= i <= |leaf| && !aborted
      invariant Progress(g, recs, done + i, data, nextBegin)
    {
      aborted, data, nextBegin := CopyRecord(g, recs, done + i, leaf[i], data, nextBegin, agBegin);
      i := i + 1;
    }
  }

  /** The leaf is next among the records. */
  lemma {:induction false} LeafIsNext(recs: seq<FreeRec>, leaves: seq<seq<FreeRec>>, l: nat, done: nat)
    requires l < |leaves| && done <= |recs| && recs[done..] == Flatten(leaves[l..])
    ensures var next := done + |leaves[l]|;
            && next <= |recs| && recs[next..] == Flatten(leaves[l + 1..])
            && forall i :: 0 <= i < |leaves[l]| ==> leaves[l][i] == recs[done + i]
  {
    assert leaves[l..][1..] == leaves[l + 1..];
    assert recs[done..] == leaves[l] + Flatten(leaves[l + 1..]);
    assert recs[done + |leaves[l]|..] == recs[done..][|leaves[l]|..];
    assert forall i :: 0 <= i < |leaves[l]| ==> recs[done..][i] == recs[done + i];
  }

  /** The record loop over every leaf of the by-block tree. */
  method CopyRecords(g: Geometry, leaves: seq<seq<FreeRec>>, agBegin: nat)
    returns (aborted: bool, data: seq<Range>, nextBegin: nat)
    requires g.Valid() && GoodRecords(g, Flatten(leaves)) && agBegin == HeaderEnd(g)
    ensures !aborted && Progress(g, Flatten(leaves), |Flatten(leaves)|, data, nextBegin)
  {
    ghost var recs := Flatten(leaves);
    aborted, data, nextBegin := false, [], agBegin;
    ghost var done := 0;
    var l := 0;
    StartProgress(g, recs);
    assert leaves[0..] == leaves && recs[0..] == recs;
    while l < |leaves| && !aborted
      invariant 0 <= l <= |leaves| && !aborted
      invariant 0 <= done <= |recs| && recs[done..] == Flatten(leaves[l..])
      invariant Progress(g, recs, done, data, nextBegin)
    {
      LeafIsNext(recs, leaves, l, done);
      aborted, data, nextBegin := CopyLeaf(g, recs, done, leaves[l], data, nextBegin, agBegin);
      done, l := done + |leaves[l]|, l + 1;
    }
    assert recs[done..] == [];
  }

  /**
    The body of the AG loop in main: header first, then the gaps between the free extents of every
    leaf, then the tail.  `aborted` is the exit(1) of read_wbuf.
  */
  method CopyAg(g: Geometry, leaves: seq<seq<FreeRec>>) returns (aborted: bool, writes: seq<Range>)
    requires g.Valid() && GoodRecords(g, Flatten(leaves))
    ensures aborted <==> Header(g).len > g.bufSize
    ensures !aborted ==> AgCopied(g, Flatten(leaves), writes)
  {
    ghost var recs := Flatten(leaves);
    HeaderFacts(g);
    var header;
    ghost var want;
    HeaderInside(g);
    aborted, header, want := ReadWbuf(Header(g).pos, Header(g).len, g.MinIo(), g.bufSize, g.src);
    writes := [header];
    if !aborted {
      var data, nextBegin;
      aborted, data, nextBegin := CopyRecords(g, leaves, header.End() / BBSIZE);
      NextBeginFacts(g, recs, |recs|, data, nextBegin);
      var tail: seq<Range> := [];
      if nextBegin < g.AgEnd() {
        aborted, tail := CopyGap(g, nextBegin, g.AgEnd());
      }
      TailStep(g, recs, data, nextBegin, tail);
      Assemble(g, recs, data, tail, nextBegin);
      writes := [header] + (data + tail);
    }
  }

  /** The header starts inside the filesystem, and ends less than one I/O unit past the AG. */
  lemma {:induction false} HeaderInside(g: Geometry)
    requires g.Valid()
    ensures Header(g).pos <= g.src.fsSize && Header(g).End() <= BBSIZE * (g.AgEnd() + g.minIoSectors)
  {
    HeaderFacts(g);
    HeaderEndFacts(g);
    DaddrMono(g, g.headerBlocks, g.agLength);
  }

  /**
    What a copied AG promises: the header comes first; every byte of the AG that is not free is
    written; every data chunk is aligned, fits the buffer and stays in reach of the AG; the header
    is left alone afterwards exactly when TailClear, and otherwise the tail copy starts inside it, at
    LowestCopy; with an aligned geometry that always holds
    and nothing but used space is copied.
  */
  ghost predicate AgCopied(g: Geometry, recs: seq<FreeRec>, writes: seq<Range>)
    requires g.Valid()
  {
    && |writes| > 0 && writes[0] == Header(g)
    && CoveredTo(g, recs, writes, BBSIZE * g.AgEnd())
    && (forall k :: 1 <= k < |writes| ==> DataChunk(g, writes[k]))
    && (forall k :: 1 <= k < |writes| ==> LowestCopy(g, recs) <= writes[k].pos)
    && (!TailClear(g, recs) ==> exists k :: 1 <= k < |writes| && writes[k].pos == LowestCopy(g, recs))
    && ((forall k :: 1 <= k < |writes| ==> Header(g).End() <= writes[k].pos) <==> TailClear(g, recs))
    && (Aligned(g) ==> TailClear(g, recs) && forall x :: Written(writes[1..], x) ==> Used(g, recs, x))
  }

  lemma {:induction false} StartProgress(g: Geometry, recs: seq<FreeRec>)
    requires g.Valid()
    ensures Progress(g, recs, 0, [], HeaderEnd(g))
  {
    HeaderFacts(g);
    forall x | BBSIZE * g.agStart <= x < Header(g).End()
      ensures Written([Header(g)] + [], x)
    {
      assert ([Header(g)] + [])[0].Has(x);
    }
  }

  /** Puts header, data and tail together. */
  lemma {:induction false} Assemble(g: Geometry, recs: seq<FreeRec>, data: seq<Range>, tail: seq<Range>, nextBegin: nat)
    requires g.Valid() && GoodRecords(g, recs) && Progress(g, recs, |recs|, data, nextBegin)
    requires forall k :: 0 <= k < |tail| ==> DataChunk(g, tail[k]) && BBSIZE * nextBegin <= tail[k].pos
    requires if nextBegin < g.AgEnd() then tail != [] && tail[0].pos == BBSIZE * nextBegin else tail == []
    requires CoveredTo(g, recs, [Header(g)] + (data + tail), BBSIZE * g.AgEnd())
    requires Aligned(g) ==> forall x :: Written(tail, x) ==> Used(g, recs, x)
    ensures AgCopied(g, recs, [Header(g)] + (data + tail))
  {
    var writes := [Header(g)] + (data + tail);
    assert writes[1..] == data + tail;
    assert recs[..|recs|] == recs;
    NextBeginAboveHeader(g, recs, nextBegin);
    HeaderEndFacts(g);
    forall x {
      WrittenConcat(data, tail, x);
    }
    if nextBegin < g.AgEnd() {
      assert writes[1 + |data|] == tail[0];
    }
    if Aligned(g) {
      AlignedTail(g, recs, nextBegin);
    }
  }

  /**
    The header is not always left alone: 1 KiB blocks copied with 4 KiB I/O, and a single free block
    right behind the header.  The tail copy then starts over at byte 0.
  */
  lemma {:induction false} TailNotAlwaysClear()
    ensures var g := Geometry(2, 8, 0x10_0000, 0, 2, 0x4000, Source(0x100_0000, 0x100_0000));
            var recs := [FreeRec(2, 1)];
            g.Valid() && GoodRecords(g, recs) && !TailClear(g, recs) && LowestCopy(g, recs) == 0
  {
    var g := Geometry(2, 8, 0x10_0000, 0, 2, 0x4000, Source(0x100_0000, 0x100_0000));
    assert Header(g) == Range(0, 4096);
    assert LastEnd(g, [FreeRec(2, 1)]) == 6;
  }
}
