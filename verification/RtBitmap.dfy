/**
  The realtime bitmap summariser of the checker (db/check.c, process_rtbitmap): it counts, for every
  bitmap block and every power of two, the maximal runs of free extents.
*/
module RtBitmap {
  import opened Arith

  // ---------------------------------------------------------------------------
  // Runs
  // ---------------------------------------------------------------------------

  /** A maximal run of set bits starts at s. */
  predicate RunStart(bits: seq<bool>, s: nat)
    requires s < |bits|
  {
    bits[s] && (s == 0 || !bits[s - 1])
  }

  /** The number of set bits from s on. */
  function RunLen(bits: seq<bool>, s: nat): (n: nat)
    requires s <= |bits|
    ensures s + n <= |bits|
    decreases |bits| - s
  {
    if s == |bits| || !bits[s] then 0 else 1 + RunLen(bits, s + 1)
  }

  /** libxfs_highbit64, which takes a negative int for an unsigned 64-bit value. */
  function HighBit(n: int): (r: int)
    ensures n > 0 ==> r >= 0
  {
    if n < 0 then 63 else if n == 0 then -1 else if n == 1 then 0 else 1 + HighBit(n / 2)
  }

  lemma {:induction false} PositiveLog(n: nat)
    requires n > 0
    ensures Pow2(HighBit(n)) <= n < Pow2(HighBit(n) + 1)
  {
    if n >= 2 { PositiveLog(n / 2); }
  }

  lemma {:induction false} NegativeLog(n: int)
    requires -0x8000_0000_0000_0000 <= n < 0
    ensures HighBit(n) == 63 && Pow2(63) <= n % U64 < Pow2(64)
  {
    MulDivMod(-1, U64, n + U64);
    PowValues();
  }

  /** It is the floor of the binary logarithm, of the unsigned 64-bit value; -1 for zero. */
  lemma {:induction false} HighBitIsLog(n: int)
    requires -0x8000_0000_0000_0000 <= n <= 0x7fff_ffff_ffff_ffff
    ensures n == 0 ==> HighBit(n) == -1
    ensures n != 0 ==> HighBit(n) >= 0 && Pow2(HighBit(n)) <= n % U64 < Pow2(HighBit(n) + 1)
  {
    if n > 0 {
      PositiveLog(n);
      MulDivMod(0, U64, n);
    } else if n < 0 {
      NegativeLog(n);
    }
  }

  /** The run that starts at s belongs to this entry of the summary. */
  ghost predicate Counts(bits: seq<bool>, bpb: nat, s: nat, log: nat, block: nat)
    requires s < |bits| && bpb > 0
  {
    RunStart(bits, s) && s / bpb == block && HighBit(RunLen(bits, s)) == log
  }

  /** How many runs that start before k belong to an entry. */
  ghost function RunCount(bits: seq<bool>, bpb: nat, k: nat, log: nat, block: nat): nat
    requires k <= |bits| && bpb > 0
  {
    if k == 0 then 0 else RunCount(bits, bpb, k - 1, log, block) + if Counts(bits, bpb, k - 1, log, block) then 1 else 0
  }

  /** The total length of the runs that start before k. */
  ghost function RunTotal(bits: seq<bool>, k: nat): nat
    requires k <= |bits|
  {
    if k == 0 then 0 else RunTotal(bits, k - 1) + if RunStart(bits, k - 1) then RunLen(bits, k - 1) else 0
  }

  /** All bits from s up to x are set. */
  ghost predicate AllSet(bits: seq<bool>, s: nat, x: nat) {
    s <= x <= |bits| && forall i :: s <= i < x ==> bits[i]
  }

  lemma {:induction false} RunLenIs(bits: seq<bool>, s: nat, x: nat)
    requires AllSet(bits, s, x) && (x == |bits| || !bits[x])
    ensures RunLen(bits, s) == x - s
    decreases x - s
  {
    if s < x { RunLenIs(bits, s + 1, x); }
  }

  /** No run starts inside a run. */
  lemma {:induction false} NoneInside(bits: seq<bool>, bpb: nat, s: nat, x: nat, log: nat, block: nat)
    requires bpb > 0 && s < x && AllSet(bits, s, x) && RunStart(bits, s)
    ensures RunCount(bits, bpb, x, log, block)
         == RunCount(bits, bpb, s, log, block) + if Counts(bits, bpb, s, log, block) then 1 else 0
    ensures RunTotal(bits, x) == RunTotal(bits, s) + RunLen(bits, s)
    decreases x
  {
    if s + 1 < x { NoneInside(bits, bpb, s, x - 1, log, block); }
  }

  lemma {:induction false} HighBitBelow(n: nat, levels: nat)
    requires 0 < n < Pow2(levels)
    ensures HighBit(n) < levels
  {
    if n >= 2 { HighBitBelow(n / 2, levels - 1); }
  }

  // ---------------------------------------------------------------------------
  // The summary
  // ---------------------------------------------------------------------------

  /** xfs_rtsumoffs */
  function SumOffs(rbmblocks: nat, log: int, block: nat): int { log * rbmblocks + block }

  /** What is to be counted: the bits looked at, the geometry, and the summary as it was. */
  datatype Job = Job(bits: seq<bool>, bpb: nat, rbmblocks: nat, levels: nat, sum0: seq<nat>) {
    /** There are enough levels for all runs, and the entries of all of them exist. */
    ghost predicate Valid() {
      bpb > 0 && |bits| < Pow2(levels) && levels <= 63 && levels * rbmblocks <= |sum0|
    }
  }

  ghost function Entry(sum: seq<nat>, rbmblocks: nat, log: nat, block: nat): nat {
    var i := log * rbmblocks + block;
    if 0 <= i < |sum| then sum[i] else 0
  }

  /** Every entry counts the runs that start before k, on top of what it was. */
  ghost predicate Tallied(j: Job, sum: seq<nat>, k: nat)
    requires k <= |j.bits| && j.bpb > 0
  {
    forall log: nat, block: nat :: log < j.levels && block < j.rbmblocks ==> EntryTallied(j, sum, k, log, block)
  }

  ghost predicate EntryTallied(j: Job, sum: seq<nat>, k: nat, log: nat, block: nat)
    requires k <= |j.bits| && j.bpb > 0
  {
    Entry(sum, j.rbmblocks, log, block)
    == Entry(j.sum0, j.rbmblocks, log, block) + RunCount(j.bits, j.bpb, k, log, block)
  }

  lemma {:induction false} SumOffsInRange(rbmblocks: nat, levels: nat, log: nat, block: nat)
    requires log < levels && block < rbmblocks
    ensures 0 <= SumOffs(rbmblocks, log, block) < levels * rbmblocks
  {
    MulAtLeast(levels - log, rbmblocks);
    assert (levels - log) * rbmblocks == levels * rbmblocks - log * rbmblocks;
  }

  lemma {:induction false} SumOffsUnique(rbmblocks: nat, log: nat, block: nat, log': nat, block': nat)
    requires block < rbmblocks && block' < rbmblocks
    requires SumOffs(rbmblocks, log, block) == SumOffs(rbmblocks, log', block')
    ensures log == log' && block == block'
  {
    MulDivMod(log, rbmblocks, block);
    MulDivMod(log', rbmblocks, block');
  }

  /** The run from s up to x belongs to this entry. */
  ghost predicate Placed(j: Job, s: nat, x: nat, log: nat, block: nat) {
    j.bpb > 0 && s < x && s / j.bpb == block < j.rbmblocks && HighBit(x - s) == log < j.levels
  }

  /** The summary with one more run in an entry. */
  ghost predicate Bumped(j: Job, sum: seq<nat>, sum': seq<nat>, log: nat, block: nat) {
    var i := SumOffs(j.rbmblocks, log, block);
    0 <= i < |sum| && sum' == sum[i := sum[i] + 1]
  }

  lemma {:induction false} BumpedEntry(j: Job, sum: seq<nat>, sum': seq<nat>, log1: nat, block1: nat, log: nat,
                                       block: nat)
    requires Bumped(j, sum, sum', log1, block1) && block < j.rbmblocks && block1 < j.rbmblocks
    ensures Entry(sum', j.rbmblocks, log, block)
         == Entry(sum, j.rbmblocks, log, block) + if log == log1 && block == block1 then 1 else 0
  {
    if SumOffs(j.rbmblocks, log, block) == SumOffs(j.rbmblocks, log1, block1) {
      SumOffsUnique(j.rbmblocks, log, block, log1, block1);
    }
  }

  /** A maximal run from s up to x. */
  ghost predicate IsRun(bits: seq<bool>, s: nat, x: nat) {
    s < x && AllSet(bits, s, x) && RunStart(bits, s) && (x == |bits| || !bits[x])
  }

  lemma {:induction false} TallyRun(j: Job, sum: seq<nat>, sum': seq<nat>, s: nat, x: nat, log1: nat, block1: nat)
    requires j.Valid() && IsRun(j.bits, s, x) && Placed(j, s, x, log1, block1)
    requires Tallied(j, sum, s) && Bumped(j, sum, sum', log1, block1)
    ensures Tallied(j, sum', x) && RunTotal(j.bits, x) == RunTotal(j.bits, s) + (x - s)
  {
    RunLenIs(j.bits, s, x);
    forall log: nat, block: nat | log < j.levels && block < j.rbmblocks
      ensures EntryTallied(j, sum', x, log, block)
    {
      assert EntryTallied(j, sum, s, log, block);
      NoneInside(j.bits, j.bpb, s, x, log, block);
      BumpedEntry(j, sum, sum', log1, block1, log, block);
    }
    NoneInside(j.bits, j.bpb, s, x, 0, 0);
  }

  /** A run that its own entry does not count leaves the summary incomplete. */
  lemma {:induction false} MissedRun(j: Job, sum: seq<nat>, sum': seq<nat>, s: nat, x: nat, log: nat, block: nat)
    requires j.Valid() && IsRun(j.bits, s, x) && Placed(j, s, x, log, block) && Tallied(j, sum, s)
    requires Entry(sum', j.rbmblocks, log, block) == Entry(sum, j.rbmblocks, log, block)
    ensures !Tallied(j, sum', x)
  {
    RunLenIs(j.bits, s, x);
    NoneInside(j.bits, j.bpb, s, x, log, block);
    assert EntryTallied(j, sum, s, log, block);
    assert !EntryTallied(j, sum', x, log, block);
  }

  lemma {:induction false} TallyClear(j: Job, sum: seq<nat>, x: nat)
    requires j.bpb > 0 && x < |j.bits| && !j.bits[x] && Tallied(j, sum, x)
    ensures Tallied(j, sum, x + 1) && RunTotal(j.bits, x + 1) == RunTotal(j.bits, x)
  {
    var y := x + 1;
    forall log: nat, block: nat | log < j.levels && block < j.rbmblocks
      ensures EntryTallied(j, sum, y, log, block)
    {
      assert EntryTallied(j, sum, x, log, block);
    }
  }

  // ---------------------------------------------------------------------------
  // The bits of the blocks
  // ---------------------------------------------------------------------------

  /** The first bit of a block. */
  ghost function BlockStart(bpb: nat, b: nat): nat {
    if b == 0 then 0 else BlockStart(bpb, b - 1) + bpb
  }

  lemma {:induction false} BlockStartIs(bpb: nat, b: nat)
    ensures BlockStart(bpb, b) == b * bpb
  {
    if b > 0 {
      BlockStartIs(bpb, b - 1);
      assert b * bpb == (b - 1) * bpb + bpb;
    }
  }

  /** The bits of consecutive bitmap blocks. */
  ghost function AllBits(blocks: seq<seq<bool>>): seq<bool> {
    if blocks == [] then [] else AllBits(blocks[..|blocks| - 1]) + blocks[|blocks| - 1]
  }

  /** All blocks have the same number of bits. */
  ghost predicate Whole(blocks: seq<seq<bool>>, bpb: nat) {
    forall b :: 0 <= b < |blocks| ==> |blocks[b]| == bpb
  }

  lemma {:induction false} BitsLength(blocks: seq<seq<bool>>, bpb: nat)
    requires Whole(blocks, bpb)
    ensures |AllBits(blocks)| == BlockStart(bpb, |blocks|)
  {
    if blocks != [] { BitsLength(blocks[..|blocks| - 1], bpb); }
  }

  lemma {:induction false} BitOfBlock(blocks: seq<seq<bool>>, bpb: nat, b: nat, bit: nat)
    requires Whole(blocks, bpb) && b < |blocks| && bit < bpb
    ensures BlockStart(bpb, b) + bit < |AllBits(blocks)| && AllBits(blocks)[BlockStart(bpb, b) + bit] == blocks[b][bit]
  {
    var front := blocks[..|blocks| - 1];
    BitsLength(front, bpb);
    if b < |front| { BitOfBlock(front, bpb, b, bit); }
  }

  /** The bits that are looked at. */
  ghost function Scanned(blocks: seq<seq<bool>>, rextents: nat): (bits: seq<bool>)
    ensures |bits| <= rextents
  {
    var all := AllBits(blocks);
    if |all| <= rextents then all else all[..rextents]
  }

  lemma {:induction false} ScannedBit(blocks: seq<seq<bool>>, bpb: nat, rextents: nat, b: nat, bit: nat, x: nat)
    requires Whole(blocks, bpb) && b < |blocks| && bit < bpb && x == BlockStart(bpb, b) + bit < rextents
    ensures x < |Scanned(blocks, rextents)| && Scanned(blocks, rextents)[x] == blocks[b][bit]
  {
    BitOfBlock(blocks, bpb, b, bit);
  }

  /** The scan ends at the end of the bits it looks at. */
  lemma {:induction false} ScannedAll(blocks: seq<seq<bool>>, bpb: nat, rextents: nat, x: nat)
    requires Whole(blocks, bpb) && x <= |Scanned(blocks, rextents)|
    requires x == rextents || x == BlockStart(bpb, |blocks|)
    ensures x == |Scanned(blocks, rextents)|
  {
    BitsLength(blocks, bpb);
  }

  // ---------------------------------------------------------------------------
  // The loop
  // ---------------------------------------------------------------------------

  /** The state after x extents: the run that is open, if any, starts at s. */
  ghost predicate Progress(j: Job, sum: seq<nat>, x: nat, open: bool, s: nat, frextents: nat) {
    && j.Valid() && |sum| == |j.sum0| && x <= |j.bits|
    && (x > 0 ==> j.bits[x - 1] == open) && (x == 0 ==> !open)
    && (open ==> s < x && RunStart(j.bits, s) && AllSet(j.bits, s, x))
    && var k := if open then s else x;
       Tallied(j, sum, k) && frextents == RunTotal(j.bits, k) + (x - k)
  }

  lemma {:induction false} ProgressStart(j: Job)
    requires j.Valid()
    ensures Progress(j, j.sum0, 0, false, 0, 0)
  {
    forall log: nat, block: nat | log < j.levels && block < j.rbmblocks
      ensures EntryTallied(j, j.sum0, 0, log, block)
    {
    }
  }

  lemma {:induction false} ProgressSet(j: Job, sum: seq<nat>, x: nat, open: bool, s: nat, frextents: nat)
    requires Progress(j, sum, x, open, s, frextents) && x < |j.bits| && j.bits[x]
    ensures Progress(j, sum, x + 1, true, if open then s else x, frextents + 1)
  {
  }

  lemma {:induction false} ProgressClear(j: Job, sum: seq<nat>, x: nat, s: nat, frextents: nat)
    requires Progress(j, sum, x, false, s, frextents) && x < |j.bits| && !j.bits[x]
    ensures Progress(j, sum, x + 1, false, s, frextents)
  {
    TallyClear(j, sum, x);
  }

  lemma {:induction false} ProgressClose(j: Job, sum: seq<nat>, sum': seq<nat>, x: nat, s: nat, frextents: nat,
                                         log: nat, block: nat)
    requires Progress(j, sum, x, true, s, frextents) && x < |j.bits| && !j.bits[x]
    requires Placed(j, s, x, log, block) && Bumped(j, sum, sum', log, block)
    ensures Progress(j, sum', x + 1, false, s, frextents)
  {
    TallyRun(j, sum, sum', s, x, log, block);
    TallyClear(j, sum', x);
  }

  lemma {:induction false} ProgressTotal(j: Job, sum: seq<nat>, open: bool, s: nat, frextents: nat)
    requires Progress(j, sum, |j.bits|, open, s, frextents)
    ensures frextents == RunTotal(j.bits, |j.bits|)
  {
    if open {
      RunLenIs(j.bits, s, |j.bits|);
      NoneInside(j.bits, j.bpb, s, |j.bits|, 0, 0);
    }
  }

  /** The variables of the loop. */
  datatype Scan = Scan(extno: nat, open: bool, startBlock: nat, startBit: nat, frextents: nat) {
    ghost function Start(bpb: nat): nat { BlockStart(bpb, startBlock) + startBit }
  }

  ghost predicate ScanOk(j: Job, v: Scan, sum: seq<nat>) {
    && Progress(j, sum, v.extno, v.open, v.Start(j.bpb), v.frextents)
    && (v.open ==> v.startBit < j.bpb && v.startBlock < j.rbmblocks)
  }

  /** The length of the run that ends at this bit, and where it is counted. */
  lemma {:induction false} RunPlace(bpb: nat, block: nat, bit: nat, v: Scan)
    requires v.startBit < bpb
    ensures v.Start(bpb) / bpb == v.startBlock
    ensures (block - v.startBlock) * bpb + (bit - v.startBit) == BlockStart(bpb, block) + bit - v.Start(bpb)
  {
    BlockStartIs(bpb, block);
    BlockStartIs(bpb, v.startBlock);
    MulDivMod(v.startBlock, bpb, v.startBit);
    assert (block - v.startBlock) * bpb == block * bpb - v.startBlock * bpb;
  }

  /** A run inside the bitmap has an entry. */
  lemma {:induction false} OpenRunPlaced(j: Job, v: Scan, sum: seq<nat>) returns (log: nat)
    requires ScanOk(j, v, sum) && v.open
    ensures log == HighBit(v.extno - v.Start(j.bpb)) && Placed(j, v.Start(j.bpb), v.extno, log, v.startBlock)
    ensures 0 <= SumOffs(j.rbmblocks, log, v.startBlock) < |sum|
  {
    RunPlace(j.bpb, 0, 0, v);
    HighBitBelow(v.extno - v.Start(j.bpb), j.levels);
    log := HighBit(v.extno - v.Start(j.bpb));
    SumOffsInRange(j.rbmblocks, j.levels, log, v.startBlock);
  }

  /** Where the code counts the run that starts at one bit and ends at another. */
  function RunOffs(rbmblocks: nat, bpb: nat, block: int, bit: nat, startBlock: nat, startBit: nat): int {
    SumOffs(rbmblocks, HighBit((block - startBlock) * bpb + (bit - startBit)), startBlock)
  }

  /** A run that is still open when the blocks run out ends in block -1, and is never counted at an entry. */
  lemma {:induction false} StrayIsOutside(rbmblocks: nat, levels: nat, bpb: nat, startBlock: nat, startBit: nat)
    requires startBit < bpb && levels <= 63 && startBlock < rbmblocks
    ensures !(0 <= RunOffs(rbmblocks, bpb, -1, bpb, startBlock, startBit) < levels * rbmblocks)
  {
    var len := (-1 - startBlock) * bpb + (bpb - startBit);
    assert len == -(startBlock * bpb + startBit);
    if len < 0 {
      assert (63 - levels) * rbmblocks == 63 * rbmblocks - levels * rbmblocks;
    } else if startBlock > 0 {
      MulAtLeast(startBlock, bpb);
    }
  }

  /** Count the run that ends at this bit, if its entry lies inside the array. */
  method CloseRun(sum: array<nat>, rbmblocks: nat, bpb: nat, block: int, bit: nat, v: Scan)
    modifies sum
    ensures var i := RunOffs(rbmblocks, bpb, block, bit, v.startBlock, v.startBit);
            sum[..] == if 0 <= i < sum.Length then old(sum[..])[i := old(sum[..])[i] + 1] else old(sum[..])
  {
    var len := (block - v.startBlock) * bpb + (bit - v.startBit);
    var log := HighBit(len);
    var offs := SumOffs(rbmblocks, log, v.startBlock);
    if 0 <= offs < sum.Length { sum[offs] := sum[offs] + 1; }
  }

  /** Count the open run, which ends at this bit of this block. */
  method EndRun(ghost j: Job, v: Scan, sum: array<nat>, rbmblocks: nat, bpb: nat, block: nat, bit: nat)
    returns (ghost log: nat)
    requires ScanOk(j, v, sum[..]) && v.open && rbmblocks == j.rbmblocks && bpb == j.bpb
    requires v.extno == BlockStart(bpb, block) + bit
    modifies sum
    ensures Placed(j, v.Start(bpb), v.extno, log, v.startBlock)
    ensures Bumped(j, old(sum[..]), sum[..], log, v.startBlock)
  {
    RunPlace(bpb, block, bit, v);
    log := OpenRunPlaced(j, v, sum[..]);
    CloseRun(sum, rbmblocks, bpb, block, bit, v);
  }

  /** One bit. */
  method ScanBit(ghost j: Job, isSet: bool, block: nat, bit: nat, v0: Scan, sum: array<nat>, rbmblocks: nat, bpb: nat)
    returns (v: Scan)
    requires ScanOk(j, v0, sum[..]) && rbmblocks == j.rbmblocks && bpb == j.bpb && bit < bpb && block < rbmblocks
    requires v0.extno == BlockStart(bpb, block) + bit < |j.bits| && j.bits[v0.extno] == isSet
    modifies sum
    ensures ScanOk(j, v, sum[..]) && v.extno == v0.extno + 1
  {
    ghost var s, was := v0.Start(bpb), sum[..];
    if isSet {
      ProgressSet(j, was, v0.extno, v0.open, s, v0.frextents);
      v := if v0.open then v0.(extno := v0.extno + 1, frextents := v0.frextents + 1)
           else Scan(v0.extno + 1, true, block, bit, v0.frextents + 1);
    } else if v0.open {
      ghost var log := EndRun(j, v0, sum, rbmblocks, bpb, block, bit);
      ProgressClose(j, was, sum[..], v0.extno, s, v0.frextents, log, v0.startBlock);
      v := v0.(extno := v0.extno + 1, open := false);
    } else {
      ProgressClear(j, was, v0.extno, s, v0.frextents);
      v := v0.(extno := v0.extno + 1);
    }
  }

  /** The bits of one block, up to the last extent. */
  method ScanBlock(ghost j: Job, blocks: seq<seq<bool>>, b: nat, rextents: nat, v0: Scan, sum: array<nat>,
                   rbmblocks: nat, bpb: nat)
    returns (v: Scan, bit: nat)
    requires Whole(blocks, bpb) && b < |blocks| <= rbmblocks && rbmblocks == j.rbmblocks && bpb == j.bpb
    requires j.bits == Scanned(blocks, rextents) && ScanOk(j, v0, sum[..]) && v0.extno == BlockStart(bpb, b) <= rextents
    modifies sum
    ensures ScanOk(j, v, sum[..])
    ensures v.extno == BlockStart(bpb, b) + bit <= rextents && bit <= bpb
    ensures v.extno < rextents ==> bit == bpb && v.extno == BlockStart(bpb, b + 1)
  {
    v, bit := v0, 0;
    while bit < bpb && v.extno < rextents
      invariant bit <= bpb && v.extno == BlockStart(bpb, b) + bit <= rextents
      invariant ScanOk(j, v, sum[..])
    {
      ScannedBit(blocks, bpb, rextents, b, bit, v.extno);
      v := ScanBit(j, blocks[b][bit], b, bit, v, sum, rbmblocks, bpb);
      bit := bit + 1;
    }
  }

  /** The run still open after the loop; the block is -1 when the loop ran out of blocks. */
  method FinishRun(ghost j: Job, v: Scan, sum: array<nat>, rbmblocks: nat, bpb: nat, atEnd: bool, b: nat, bit: nat)
    requires ScanOk(j, v, sum[..]) && v.open && v.extno == |j.bits| && rbmblocks == j.rbmblocks && bpb == j.bpb
    requires if atEnd then v.extno == BlockStart(bpb, b) + bit else bit == bpb
    modifies sum
    ensures Tallied(j, sum[..], |j.bits|) <==> atEnd
  {
    ghost var s, was := v.Start(bpb), sum[..];
    if atEnd {
      ghost var log := EndRun(j, v, sum, rbmblocks, bpb, b, bit);
      TallyRun(j, was, sum[..], s, |j.bits|, log, v.startBlock);
    } else {
      ghost var log := OpenRunPlaced(j, v, was);
      StrayIsOutside(rbmblocks, j.levels, bpb, v.startBlock, v.startBit);
      SumOffsInRange(rbmblocks, j.levels, log, v.startBlock);
      CloseRun(sum, rbmblocks, bpb, -1, bit, v);
      MissedRun(j, was, sum[..], s, |j.bits|, log, v.startBlock);
    }
  }

  /** The bitmap has fewer bits than there are extents, and ends inside a run. */
  ghost predicate EndsOpen(bits: seq<bool>, rextents: nat) {
    |bits| < rextents && bits != [] && bits[|bits| - 1]
  }

  /** The loop over the blocks. */
  method ScanBlocks(ghost j: Job, blocks: seq<seq<bool>>, rextents: nat, sum: array<nat>, rbmblocks: nat, bpb: nat)
    returns (v: Scan, b: nat, bit: nat, atEnd: bool)
    requires Whole(blocks, bpb) && |blocks| <= rbmblocks && rbmblocks == j.rbmblocks && bpb == j.bpb
    requires j.bits == Scanned(blocks, rextents) && j.Valid() && sum[..] == j.sum0
    modifies sum
    ensures ScanOk(j, v, sum[..]) && v.extno == |j.bits|
    ensures atEnd ==> v.extno == BlockStart(bpb, b) + bit == rextents
    ensures !atEnd && v.open ==> bit == bpb && v.extno < rextents
  {
    v, b, bit, atEnd := Scan(0, false, 0, 0, 0), 0, 0, false;
    ProgressStart(j);
    while b < |blocks| && !atEnd
      invariant b <= |blocks| && ScanOk(j, v, sum[..])
      invariant !atEnd ==> v.extno == BlockStart(bpb, b) <= rextents && (b > 0 ==> bit == bpb && v.extno < rextents)
      invariant atEnd ==> v.extno == BlockStart(bpb, b) + bit == rextents
      decreases |blocks| - b, !atEnd
    {
      v, bit := ScanBlock(j, blocks, b, rextents, v, sum, rbmblocks, bpb);
      if v.extno == rextents { atEnd := true; } else { b := b + 1; }
    }
    ScannedAll(blocks, bpb, rextents, v.extno);
  }

  /**
    process_rtbitmap over the bitmap's blocks in order. The count of free extents is the total length
    of all runs. Every entry grows by the number of maximal runs of its size that start in its block
    if and only if the bitmap does not end inside a run before the last extent.
  */
  method ProcessRtBitmap(blocks: seq<seq<bool>>, bpb: nat, rextents: nat, sum: array<nat>, rbmblocks: nat,
                         ghost levels: nat)
    returns (frextents: nat)
    requires bpb > 0 && Whole(blocks, bpb) && |blocks| <= rbmblocks
    requires rextents < Pow2(levels) && levels <= 63 && levels * rbmblocks <= sum.Length
    modifies sum
    ensures var bits := Scanned(blocks, rextents);
            && frextents == RunTotal(bits, |bits|)
            && (Tallied(Job(bits, bpb, rbmblocks, levels, old(sum[..])), sum[..], |bits|)
                <==> !EndsOpen(bits, rextents))
  {
    ghost var j := Job(Scanned(blocks, rextents), bpb, rbmblocks, levels, sum[..]);
    var v, b, bit, atEnd := ScanBlocks(j, blocks, rextents, sum, rbmblocks, bpb);
    ProgressTotal(j, sum[..], v.open, v.Start(bpb), v.frextents);
    frextents := v.frextents;
    if v.open {
      FinishRun(j, v, sum, rbmblocks, bpb, atEnd, b, bit);
    }
  }

  /** A bitmap of one 512-byte block, all free, for one extent more than it has bits. */
  lemma {:induction false} ShortBitmapExample()
    ensures var blocks := [seq(4096, _ => true)];
            Whole(blocks, 4096) && EndsOpen(Scanned(blocks, 4097), 4097)
  {
    var blocks := [seq(4096, _ => true)];
    assert blocks[..0] == [];
    assert AllBits(blocks) == AllBits(blocks[..0]) + blocks[0];
  }
}
