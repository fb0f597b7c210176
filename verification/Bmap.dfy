/**
  Block map lookup (db/bmap.c): descent of the extent B-tree, the walk along its leaves, the clipping
  of extents to a range of file offsets, and the enumeration loop of the bmap command. File offsets and lengths
  are unsigned 64-bit.
*/
module Bmap {
  import opened Arith

  const NULLFSBLOCK := U64 - 1

  /** A decoded extent record, or an entry of the result. */
  datatype Extent = Extent(off: nat, start: nat, count: nat, unwritten: bool) {
    function End(): nat { off + count }
  }

  /** A block of the tree below the root. */
  datatype Block = Leaf(recs: seq<Extent>, right: nat) | Node(keys: seq<nat>, ptrs: seq<nat>)

  type Disk = map<nat, Block>

  /** An inode fork; the root of the tree lies in the inode. */
  datatype Fork = Local | Extents(recs: seq<Extent>) | Btree(keys: seq<nat>, ptrs: seq<nat>) | Unsupported

  // ---------------------------------------------------------------------------
  // What a lookup should return
  // ---------------------------------------------------------------------------

  /** A record holds a 54-bit offset and a 21-bit nonzero count, and ends before the next one starts. */
  ghost predicate RecordOk(recs: seq<Extent>, i: nat)
    requires i < |recs|
  {
    && recs[i].off < 0x40_0000_0000_0000 && 1 <= recs[i].count < 0x20_0000
    && (i + 1 < |recs| ==> recs[i].End() <= recs[i + 1].off)
  }

  ghost predicate Sorted(recs: seq<Extent>) {
    forall i :: 0 <= i < |recs| ==> RecordOk(recs, i)
  }

  lemma {:induction false} SortedAt(recs: seq<Extent>, i: nat, j: nat)
    requires Sorted(recs) && i <= j < |recs|
    ensures recs[j].off < 0x40_0000_0000_0000 && 1 <= recs[j].count < 0x20_0000
    ensures i < j ==> recs[i].End() <= recs[j].off
  {
    assert RecordOk(recs, j);
    if i < j {
      SortedAt(recs, i, j - 1);
      assert RecordOk(recs, j - 1);
    }
  }

  /** The extent reaches past lo and starts no later than hi. */
  predicate Meets(e: Extent, lo: nat, hi: nat) { e.off <= hi && lo < e.End() }

  /** The part of an extent in lo .. hi; when hi < lo the length wraps around. */
  function Clip(e: Extent, lo: nat, hi: nat): Extent {
    var o := Max(e.off, lo);
    Extent(o, e.start + (o - e.off), (Min(e.End(), hi + 1) - o) % U64, e.unwritten)
  }

  function ClipOne(e: Extent, lo: nat, hi: nat): seq<Extent> {
    if Meets(e, lo, hi) then [Clip(e, lo, hi)] else []
  }

  /** The first k records clipped to lo .. hi. */
  function ClipTo(recs: seq<Extent>, k: nat, lo: nat, hi: nat): seq<Extent>
    requires k <= |recs|
  {
    if k == 0 then [] else ClipTo(recs, k - 1, lo, hi) + ClipOne(recs[k - 1], lo, hi)
  }

  function ClipAll(recs: seq<Extent>, lo: nat, hi: nat): seq<Extent> {
    ClipTo(recs, |recs|, lo, hi)
  }

  function Take(s: seq<Extent>, n: nat): seq<Extent> { if |s| <= n then s else s[..n] }

  lemma {:induction false} ClipPrefix(recs: seq<Extent>, k: nat, n: nat, lo: nat, hi: nat)
    requires k <= n <= |recs|
    ensures ClipTo(recs, k, lo, hi) <= ClipTo(recs, n, lo, hi)
  {
    if k < n { ClipPrefix(recs, k, n - 1, lo, hi); }
  }

  lemma {:induction false} ClipSkips(recs: seq<Extent>, k: nat, n: nat, lo: nat, hi: nat)
    requires k <= n <= |recs| && forall i :: k <= i < n ==> !Meets(recs[i], lo, hi)
    ensures ClipTo(recs, k, lo, hi) == ClipTo(recs, n, lo, hi)
  {
    if k < n { ClipSkips(recs, k, n - 1, lo, hi); }
  }

  // ---------------------------------------------------------------------------
  // One extent, with a cursor that moves
  // ---------------------------------------------------------------------------

  datatype Verdict = Skip | Stop | Emit(ext: Extent)

  /** bmap_one_extent */
  function OneExtent(e: Extent, cur: nat, eoff: nat): Verdict {
    if e.End() <= cur then Skip
    else if e.off > eoff then Stop
    else
      var moved := if e.off < cur then Extent(cur, e.start + (cur - e.off), e.count - (cur - e.off), e.unwritten)
                   else e;
      var last := moved.End() - 1;
      Emit(if last > eoff then moved.(count := (moved.count - (last - eoff)) % U64) else moved)
  }

  lemma {:induction false} OneExtentClips(e: Extent, cur: nat, eoff: nat)
    requires 1 <= e.count < U64
    ensures Meets(e, cur, eoff) ==> OneExtent(e, cur, eoff) == Emit(Clip(e, cur, eoff))
    ensures OneExtent(e, cur, eoff) == Skip <==> e.End() <= cur
    ensures OneExtent(e, cur, eoff) == Stop <==> cur < e.End() && eoff < e.off
  {
  }

  /** The cursor is the start of the range, or has not passed the first k records. */
  ghost predicate CursorOk(recs: seq<Extent>, k: nat, lo: nat, cur: nat)
    requires k <= |recs|
  {
    cur == lo || (k > 0 && lo < recs[k - 1].End() && cur <= recs[k - 1].End())
  }

  /** So it does not matter for later records that the cursor has moved. */
  lemma {:induction false} CursorIrrelevant(recs: seq<Extent>, k: nat, i: nat, lo: nat, hi: nat, cur: nat)
    requires Sorted(recs) && k <= i < |recs| && CursorOk(recs, k, lo, cur)
    ensures Meets(recs[i], cur, hi) == Meets(recs[i], lo, hi) && Clip(recs[i], cur, hi) == Clip(recs[i], lo, hi)
    ensures CursorOk(recs, i + 1, lo, cur)
  {
    SortedAt(recs, i, i);
    if k > 0 { SortedAt(recs, k - 1, i); }
  }

  lemma {:induction false} CursorMoves(e: Extent, cur: nat, eoff: nat)
    requires Meets(e, cur, eoff) && e.End() < U64
    ensures (Clip(e, cur, eoff).off + Clip(e, cur, eoff).count) % U64 == Min(e.End(), eoff + 1)
  {
    var o := Max(e.off, cur);
    var m := Min(e.End(), eoff + 1);
    assert o < U64 && m < U64;
    if m < o {
      assert (m - o) % U64 == m - o + U64;
      assert (m + U64) % U64 == m;
    }
  }

  /** What has been done after the first k of the records. */
  ghost predicate Done(all: seq<Extent>, k: nat, lo: nat, hi: nat, nex: nat, cur: nat, out: seq<Extent>)
    requires k <= |all|
  {
    CursorOk(all, k, lo, cur) && |out| <= nex && out == ClipTo(all, k, lo, hi)
  }

  /** Nothing more can be added. */
  ghost predicate Finished(all: seq<Extent>, lo: nat, hi: nat, nex: nat, out: seq<Extent>) {
    out == Take(ClipAll(all, lo, hi), nex)
  }

  lemma {:induction false} FullIsFinished(all: seq<Extent>, k: nat, lo: nat, hi: nat, nex: nat, cur: nat,
                                          out: seq<Extent>)
    requires k <= |all| && Done(all, k, lo, hi, nex, cur, out)
    requires |out| == nex || k == |all|
    ensures Finished(all, lo, hi, nex, out)
  {
    ClipPrefix(all, k, |all|, lo, hi);
  }

  lemma {:induction false} StopIsFinished(all: seq<Extent>, k: nat, lo: nat, hi: nat, nex: nat, cur: nat,
                                          out: seq<Extent>)
    requires Sorted(all) && k < |all| && Done(all, k, lo, hi, nex, cur, out) && hi < all[k].off
    ensures Finished(all, lo, hi, nex, out)
  {
    forall i | k <= i < |all|
      ensures !Meets(all[i], lo, hi)
    {
      SortedAt(all, k, i);
    }
    ClipSkips(all, k, |all|, lo, hi);
  }

  /** One turn of the record loop. */
  lemma {:induction false} ScanStep(all: seq<Extent>, k: nat, lo: nat, hi: nat, nex: nat, cur: nat, out: seq<Extent>,
                                    verdict: Verdict)
    requires Sorted(all) && k < |all| && Done(all, k, lo, hi, nex, cur, out) && |out| < nex && hi < U64
    requires verdict == OneExtent(all[k], cur, hi)
    ensures verdict == Skip ==> Done(all, k + 1, lo, hi, nex, cur, out)
    ensures verdict == Stop ==> Finished(all, lo, hi, nex, out)
    ensures verdict.Emit? ==>
              Done(all, k + 1, lo, hi, nex, (verdict.ext.off + verdict.ext.count) % U64, out + [verdict.ext])
  {
    SortedAt(all, k, k);
    OneExtentClips(all[k], cur, hi);
    CursorIrrelevant(all, k, k, lo, hi, cur);
    match verdict
    case Skip =>
    case Stop => StopIsFinished(all, k, lo, hi, nex, cur, out);
    case Emit(e) => CursorMoves(all[k], cur, hi);
  }

  /** The record loop that the extents format and each leaf share; `all` are the records of the fork. */
  method ScanRecords(recs: seq<Extent>, ghost all: seq<Extent>, ghost k0: nat, ghost lo: nat, eoff: nat, nex: nat,
                     cur0: nat, out0: seq<Extent>)
    returns (cur: nat, out: seq<Extent>, stopped: bool)
    requires Sorted(all) && k0 + |recs| <= |all| && eoff < U64
    requires forall j :: 0 <= j < |recs| ==> recs[j] == all[k0 + j]
    requires Done(all, k0, lo, eoff, nex, cur0, out0)
    ensures |out| <= nex
    ensures stopped || |out| == nex ==> Finished(all, lo, eoff, nex, out)
    ensures !stopped && |out| < nex ==> Done(all, k0 + |recs|, lo, eoff, nex, cur, out)
  {
    cur, out, stopped := cur0, out0, false;
    var i := 0;
    ghost var k := k0;
    while i < |recs| && |out| < nex && !stopped
      invariant 0 <= i <= |recs| && k == k0 + i && Done(all, k, lo, eoff, nex, cur, out)
      invariant stopped ==> Finished(all, lo, eoff, nex, out)
      decreases !stopped, |recs| - i
    {
      assert recs[i] == all[k];
      var verdict := OneExtent(recs[i], cur, eoff);
      ScanStep(all, k, lo, eoff, nex, cur, out, verdict);
      match verdict
      case Skip => i, k := i + 1, k + 1;
      case Stop => stopped := true;
      case Emit(e) => out, cur, i, k := out + [e], (e.off + e.count) % U64, i + 1, k + 1;
    }
    if !stopped && |out| == nex {
      FullIsFinished(all, k, lo, eoff, nex, cur, out);
    }
  }

  // ---------------------------------------------------------------------------
  // The tree
  // ---------------------------------------------------------------------------

  /** The leaves below a block at height h, from left to right. */
  ghost function Leaves(disk: Disk, bno: nat, h: nat): seq<nat>
    decreases h, 0
  {
    if h == 0 then [bno]
    else if bno in disk && disk[bno].Node? then ChildLeaves(disk, disk[bno].ptrs, h - 1)
    else []
  }

  ghost function ChildLeaves(disk: Disk, ptrs: seq<nat>, h: nat): seq<nat>
    decreases h, |ptrs| + 1
  {
    if ptrs == [] then [] else Leaves(disk, ptrs[0], h) + ChildLeaves(disk, ptrs[1..], h)
  }

  ghost function LeafRecs(disk: Disk, bno: nat): seq<Extent> {
    if bno in disk && disk[bno].Leaf? then disk[bno].recs else []
  }

  /** The records of the first i leaves. */
  ghost function RecordsTo(disk: Disk, leaves: seq<nat>, i: nat): seq<Extent>
    requires i <= |leaves|
  {
    if i == 0 then [] else RecordsTo(disk, leaves, i - 1) + LeafRecs(disk, leaves[i - 1])
  }

  /** The first offset in a block. */
  function FirstOff(block: Block): nat {
    match block
    case Leaf(recs, _) => if recs == [] then 0 else recs[0].off
    case Node(keys, _) => if keys == [] then 0 else keys[0]
  }

  /** A block at height h: no empty leaf, and every key is the first offset of its child. */
  ghost predicate BlockOk(disk: Disk, bno: nat, h: nat)
    decreases h, 0
  {
    && bno in disk
    && (h == 0 ==> disk[bno].Leaf? && disk[bno].recs != [])
    && (h > 0 ==> disk[bno].Node? && ChildrenOk(disk, disk[bno].keys, disk[bno].ptrs, h - 1))
  }

  ghost predicate ChildrenOk(disk: Disk, keys: seq<nat>, ptrs: seq<nat>, h: nat)
    decreases h, 1
  {
    && |keys| == |ptrs| >= 1
    && forall i :: 0 <= i < |ptrs| ==> BlockOk(disk, ptrs[i], h) && keys[i] == FirstOff(disk[ptrs[i]])
  }

  ghost function LeafAt(leaves: seq<nat>, i: nat): nat { if i < |leaves| then leaves[i] else NULLFSBLOCK }

  /** Each leaf's right sibling is the next leaf. */
  ghost predicate Chained(disk: Disk, leaves: seq<nat>) {
    && (forall i :: 0 <= i < |leaves| ==> leaves[i] != NULLFSBLOCK)
    && (forall i :: 0 <= i < |leaves| ==> LinkOk(disk, leaves, i))
  }

  ghost predicate LinkOk(disk: Disk, leaves: seq<nat>, i: nat)
    requires i < |leaves|
  {
    && leaves[i] in disk && disk[leaves[i]].Leaf?
    && disk[leaves[i]].right == LeafAt(leaves, i + 1)
  }

  ghost function TreeRecords(disk: Disk, ptrs: seq<nat>, h: nat): seq<Extent> {
    var leaves := ChildLeaves(disk, ptrs, h);
    RecordsTo(disk, leaves, |leaves|)
  }

  /** The extents of a fork, flattened; h is the height of the children of the root. */
  ghost function ForkRecords(disk: Disk, fork: Fork, h: nat): seq<Extent> {
    match fork
    case Local => []
    case Unsupported => []
    case Extents(recs) => recs
    case Btree(_, ptrs) => TreeRecords(disk, ptrs, h)
  }

  /** A well-formed fork. */
  ghost predicate ForkOk(disk: Disk, fork: Fork, h: nat) {
    && Sorted(ForkRecords(disk, fork, h))
    && (fork.Btree? ==> ChildrenOk(disk, fork.keys, fork.ptrs, h) && Chained(disk, ChildLeaves(disk, fork.ptrs, h)))
  }

  lemma {:induction false} RecordsPrefix(disk: Disk, leaves: seq<nat>, i: nat, n: nat)
    requires i <= n <= |leaves|
    ensures RecordsTo(disk, leaves, i) <= RecordsTo(disk, leaves, n)
  {
    if i < n { RecordsPrefix(disk, leaves, i, n - 1); }
  }

  /** The records of leaf i follow those of the leaves before it. */
  lemma {:induction false} LeafSpan(disk: Disk, leaves: seq<nat>, i: nat, k: nat, all: seq<Extent>)
    requires i < |leaves| && all == RecordsTo(disk, leaves, |leaves|) && k == |RecordsTo(disk, leaves, i)|
    ensures var recs := LeafRecs(disk, leaves[i]);
            && k + |recs| <= |all| && k + |recs| == |RecordsTo(disk, leaves, i + 1)|
            && forall j :: 0 <= j < |recs| ==> recs[j] == all[k + j]
  {
    RecordsPrefix(disk, leaves, i + 1, |leaves|);
    var recs := LeafRecs(disk, leaves[i]);
    var upTo := RecordsTo(disk, leaves, i + 1);
    forall j | 0 <= j < |recs|
      ensures recs[j] == all[k + j]
    {
      assert upTo[k + j] == recs[j];
    }
  }

  // ---------------------------------------------------------------------------
  // The descent
  // ---------------------------------------------------------------------------

  /** The child that select_child picks, looking at the keys from i on. */
  function ChildFrom(keys: seq<nat>, off: nat, i: nat): (c: nat)
    requires i <= |keys| && |keys| > 0
    ensures c < |keys|
    ensures (forall j :: 0 <= j < i ==> keys[j] < off) ==> c == 0 || keys[c] <= off
    decreases |keys| - i
  {
    if i == |keys| then i - 1
    else if keys[i] == off then i
    else if keys[i] > off then (if i == 0 then 0 else i - 1)
    else ChildFrom(keys, off, i + 1)
  }

  /** select_child */
  method SelectChild(off: nat, keys: seq<nat>) returns (i: nat)
    requires |keys| >= 1
    ensures i == ChildFrom(keys, off, 0)
    ensures i < |keys| && (i == 0 || keys[i] <= off)
    ensures i + 1 < |keys| && keys[i] < off ==> off < keys[i + 1]
  {
    i := 0;
    while i < |keys|
      invariant 0 <= i <= |keys| && ChildFrom(keys, off, 0) == ChildFrom(keys, off, i)
      invariant forall j :: 0 <= j < i ==> keys[j] < off
    {
      if keys[i] == off {
        return;
      }
      if keys[i] > off {
        return if i == 0 then 0 else i - 1;
      }
      i := i + 1;
    }
    i := |keys| - 1;
  }

  /** The leaf that a descent from this block ends at. */
  ghost function Target(disk: Disk, bno: nat, h: nat, off: nat): nat
    requires BlockOk(disk, bno, h)
    decreases h
  {
    if h == 0 then bno
    else
      assert ChildrenOk(disk, disk[bno].keys, disk[bno].ptrs, h - 1);
      var i := ChildFrom(disk[bno].keys, off, 0);
      Target(disk, disk[bno].ptrs[i], h - 1, off)
  }

  /** No leaf is skipped, or the leaf arrived at starts at or before the offset. */
  ghost predicate Arrives(disk: Disk, leaves: seq<nat>, p: nat, bno: nat, off: nat) {
    && p < |leaves| && leaves[p] == bno && LeafRecs(disk, bno) != []
    && (p == 0 || LeafRecs(disk, bno)[0].off <= off)
  }

  lemma {:induction false} ChildLeavesSplit(disk: Disk, ptrs: seq<nat>, h: nat, i: nat)
    requires i < |ptrs|
    ensures ChildLeaves(disk, ptrs, h)
         == ChildLeaves(disk, ptrs[..i], h) + Leaves(disk, ptrs[i], h) + ChildLeaves(disk, ptrs[i + 1..], h)
  {
    if i > 0 {
      ChildLeavesSplit(disk, ptrs[1..], h, i - 1);
      assert ptrs[..i][1..] == ptrs[1..][..i - 1];
      assert ptrs[1..][i..] == ptrs[i + 1..];
    }
  }

  /** Following first children leads to a leaf that starts with the block's first offset. */
  lemma {:induction false} FirstLeaf(disk: Disk, bno: nat, h: nat)
    requires BlockOk(disk, bno, h)
    ensures var ls := Leaves(disk, bno, h);
            ls != [] && LeafRecs(disk, ls[0]) != [] && LeafRecs(disk, ls[0])[0].off == FirstOff(disk[bno])
    decreases h
  {
    if h > 0 { FirstLeaf(disk, disk[bno].ptrs[0], h - 1); }
  }

  lemma {:induction false} TargetArrives(disk: Disk, bno: nat, h: nat, off: nat) returns (p: nat)
    requires BlockOk(disk, bno, h)
    ensures Arrives(disk, Leaves(disk, bno, h), p, Target(disk, bno, h, off), off)
    decreases h, 0
  {
    if h == 0 {
      p := 0;
    } else {
      p := ChildArrives(disk, disk[bno].keys, disk[bno].ptrs, h - 1, off, ChildFrom(disk[bno].keys, off, 0));
    }
  }

  lemma {:induction false} ChildArrives(disk: Disk, keys: seq<nat>, ptrs: seq<nat>, h: nat, off: nat, i: nat)
    returns (p: nat)
    requires ChildrenOk(disk, keys, ptrs, h) && i < |ptrs| && (i == 0 || keys[i] <= off)
    ensures Arrives(disk, ChildLeaves(disk, ptrs, h), p, Target(disk, ptrs[i], h, off), off)
    decreases h, 1
  {
    var q := TargetArrives(disk, ptrs[i], h, off);
    FirstLeaf(disk, ptrs[i], h);
    ChildLeavesSplit(disk, ptrs, h, i);
    p := |ChildLeaves(disk, ptrs[..i], h)| + q;
  }

  /** The descent of bmap: the leaf where the walk starts. */
  method FindLeaf(disk: Disk, keys: seq<nat>, ptrs: seq<nat>, ghost h: nat, off: nat) returns (bno: nat, ghost p: nat)
    requires ChildrenOk(disk, keys, ptrs, h)
    ensures Arrives(disk, ChildLeaves(disk, ptrs, h), p, bno, off)
  {
    var i := SelectChild(off, keys);
    bno := ptrs[i];
    p := ChildArrives(disk, keys, ptrs, h, off, i);
    ghost var target, d := Target(disk, bno, h, off), h;
    while disk[bno].Node?
      invariant BlockOk(disk, bno, d) && Target(disk, bno, d, off) == target
      decreases d
    {
      assert d > 0 && ChildrenOk(disk, disk[bno].keys, disk[bno].ptrs, d - 1);
      i := SelectChild(off, disk[bno].keys);
      bno, d := disk[bno].ptrs[i], d - 1;
    }
  }

  /** So nothing before that leaf reaches past the offset. */
  lemma {:induction false} ArrivedSkips(disk: Disk, leaves: seq<nat>, p: nat, bno: nat, lo: nat, hi: nat, nex: nat,
                                        k: nat, all: seq<Extent>)
    requires all == RecordsTo(disk, leaves, |leaves|) && Sorted(all) && Arrives(disk, leaves, p, bno, lo)
    requires k == |RecordsTo(disk, leaves, p)|
    ensures k <= |all| && Done(all, k, lo, hi, nex, lo, [])
  {
    LeafSpan(disk, leaves, p, k, all);
    if p > 0 {
      var first := LeafRecs(disk, leaves[p])[0];
      assert first == all[k + 0];
      forall i | 0 <= i < k
        ensures !Meets(all[i], lo, hi)
      {
        SortedAt(all, i, k);
      }
    }
    ClipSkips(all, 0, k, lo, hi);
  }

  /** The state of the walk after the first k records. */
  ghost predicate Walking(all: seq<Extent>, k: nat, lo: nat, hi: nat, nex: nat, cur: nat, out: seq<Extent>,
                          stopped: bool)
  {
    && k <= |all| && |out| <= nex
    && if stopped || |out| == nex then Finished(all, lo, hi, nex, out) else Done(all, k, lo, hi, nex, cur, out)
  }

  /** One leaf of the walk; after nex extents the walk only follows the siblings. */
  method VisitLeaf(recs: seq<Extent>, ghost all: seq<Extent>, ghost k: nat, ghost off: nat, eoff: nat, nex: nat,
                   cur0: nat, out0: seq<Extent>)
    returns (cur: nat, out: seq<Extent>, stopped: bool)
    requires Sorted(all) && eoff < U64 && Walking(all, k, off, eoff, nex, cur0, out0, false)
    requires k + |recs| <= |all| && forall j :: 0 <= j < |recs| ==> recs[j] == all[k + j]
    ensures Walking(all, k + |recs|, off, eoff, nex, cur, out, stopped)
  {
    if |out0| < nex {
      cur, out, stopped := ScanRecords(recs, all, k, off, eoff, nex, cur0, out0);
    } else {
      cur, out, stopped := cur0, out0, false;
    }
  }

  /** The records of this leaf are those of all records from k on, up to the next leaf's. */
  ghost predicate Span(disk: Disk, bno: nat, k: nat, next: nat, all: seq<Extent>) {
    && bno in disk && disk[bno].Leaf? && next == k + |disk[bno].recs| <= |all|
    && forall j :: 0 <= j < |disk[bno].recs| ==> disk[bno].recs[j] == all[k + j]
  }

  /** Where the records of each leaf start in the list of all records. */
  ghost predicate Layout(disk: Disk, leaves: seq<nat>, starts: seq<nat>, all: seq<Extent>) {
    && |starts| == |leaves| + 1 && starts[|leaves|] == |all|
    && forall i :: 0 <= i < |leaves| ==> Span(disk, leaves[i], starts[i], starts[i + 1], all)
  }

  lemma {:induction false} SpanOf(disk: Disk, leaves: seq<nat>, i: nat, k: nat, next: nat)
    requires i < |leaves| && LinkOk(disk, leaves, i)
    requires k == |RecordsTo(disk, leaves, i)| && next == |RecordsTo(disk, leaves, i + 1)|
    ensures Span(disk, leaves[i], k, next, RecordsTo(disk, leaves, |leaves|))
  {
    LeafSpan(disk, leaves, i, k, RecordsTo(disk, leaves, |leaves|));
  }

  lemma {:induction false} LayoutOf(disk: Disk, leaves: seq<nat>) returns (starts: seq<nat>)
    requires Chained(disk, leaves)
    ensures Layout(disk, leaves, starts, RecordsTo(disk, leaves, |leaves|))
    ensures forall i :: 0 <= i <= |leaves| ==> starts[i] == |RecordsTo(disk, leaves, i)|
  {
    var all := RecordsTo(disk, leaves, |leaves|);
    starts := seq(|leaves| + 1, i requires 0 <= i <= |leaves| => |RecordsTo(disk, leaves, i)|);
    forall i | 0 <= i < |leaves|
      ensures Span(disk, leaves[i], starts[i], starts[i + 1], all)
    {
      assert LinkOk(disk, leaves, i);
      SpanOf(disk, leaves, i, starts[i], starts[i + 1]);
    }
  }

  /** The walk along the leaves, from leaf p on. */
  method WalkLeaves(disk: Disk, start: nat, ghost leaves: seq<nat>, ghost starts: seq<nat>, ghost all: seq<Extent>,
                    ghost p: nat, off: nat, eoff: nat, nex: nat)
    returns (out: seq<Extent>)
    requires Sorted(all) && Chained(disk, leaves) && Layout(disk, leaves, starts, all)
    requires p < |leaves| && start == leaves[p] && eoff < U64 && nex > 0
    requires starts[p] <= |all| && Done(all, starts[p], off, eoff, nex, off, [])
    ensures Finished(all, off, eoff, nex, out)
  {
    ghost var i := p;
    var bno, cur, stopped := start, off, false;
    out := [];
    while bno != NULLFSBLOCK && !stopped
      invariant i <= |leaves| && (!stopped ==> bno == LeafAt(leaves, i))
      invariant Walking(all, starts[i], off, eoff, nex, cur, out, stopped)
      decreases |leaves| - i
    {
      assert LinkOk(disk, leaves, i) && Span(disk, leaves[i], starts[i], starts[i + 1], all);
      cur, out, stopped := VisitLeaf(disk[bno].recs, all, starts[i], off, eoff, nex, cur, out);
      bno, i := disk[bno].right, i + 1;
    }
    if !stopped && |out| < nex {
      FullIsFinished(all, starts[i], off, eoff, nex, cur, out);
    }
  }

  method WalkFrom(disk: Disk, start: nat, ghost leaves: seq<nat>, ghost p: nat, off: nat, eoff: nat, nex: nat)
    returns (out: seq<Extent>)
    requires Sorted(RecordsTo(disk, leaves, |leaves|)) && Chained(disk, leaves) && Arrives(disk, leaves, p, start, off)
    requires nex > 0 && eoff < U64
    ensures Finished(RecordsTo(disk, leaves, |leaves|), off, eoff, nex, out)
  {
    ghost var all := RecordsTo(disk, leaves, |leaves|);
    ghost var starts := LayoutOf(disk, leaves);
    ArrivedSkips(disk, leaves, p, start, off, eoff, nex, starts[p], all);
    out := WalkLeaves(disk, start, leaves, starts, all, p, off, eoff, nex);
  }

  /** A fork whose records are in the inode. */
  method ScanExtents(recs: seq<Extent>, off: nat, eoff: nat, nex: nat) returns (out: seq<Extent>)
    requires Sorted(recs) && off < U64 && eoff < U64 && nex > 0
    ensures out == Take(ClipAll(recs, off, eoff), nex)
  {
    var cur, stopped;
    cur, out, stopped := ScanRecords(recs, recs, 0, off, eoff, nex, off, []);
    if !stopped && |out| < nex { FullIsFinished(recs, |recs|, off, eoff, nex, cur, out); }
  }

  /**
    bmap: the first nex extents of the flattened record list clipped to the range, for every fork
    format, offset and length; the last offset is computed modulo 2^64.
  */
  method Lookup(disk: Disk, fork: Fork, ghost h: nat, off: nat, len: nat, nex: nat) returns (out: seq<Extent>)
    requires ForkOk(disk, fork, h) && off < U64 && len < U64 && nex > 0
    ensures out == Take(ClipAll(ForkRecords(disk, fork, h), off, (off + len - 1) % U64), nex)
  {
    var eoff := (off + len - 1) % U64;
    match fork
    case Local => out := [];
    case Unsupported => out := [];
    case Extents(recs) =>
      out := ScanExtents(recs, off, eoff, nex);
    case Btree(keys, ptrs) =>
      var bno;
      ghost var p;
      bno, p := FindLeaf(disk, keys, ptrs, h, off);
      out := WalkFrom(disk, bno, ChildLeaves(disk, ptrs, h), p, off, eoff, nex);
  }

  // ---------------------------------------------------------------------------
  // What clipping means
  // ---------------------------------------------------------------------------

  /** The extent maps file offset x to block b. */
  predicate Covers(e: Extent, x: nat, b: nat, unwritten: bool) {
    e.off <= x < e.End() && b == e.start + (x - e.off) && unwritten == e.unwritten
  }

  ghost predicate Maps(exts: seq<Extent>, x: nat, b: nat, unwritten: bool) {
    exists i :: 0 <= i < |exts| && Covers(exts[i], x, b, unwritten)
  }

  lemma {:induction false} MapsAppend(a: seq<Extent>, c: seq<Extent>, x: nat, b: nat, u: bool)
    ensures Maps(a + c, x, b, u) <==> Maps(a, x, b, u) || Maps(c, x, b, u)
  {
    if Maps(a, x, b, u) {
      var i :| 0 <= i < |a| && Covers(a[i], x, b, u);
      assert (a + c)[i] == a[i];
    }
    if Maps(c, x, b, u) {
      var i :| 0 <= i < |c| && Covers(c[i], x, b, u);
      assert (a + c)[|a| + i] == c[i];
    }
  }

  lemma {:induction false} ClipOneMaps(e: Extent, lo: nat, hi: nat, x: nat, b: nat, u: bool)
    requires lo <= hi < U64 && 1 <= e.count && e.End() < U64
    ensures Maps(ClipOne(e, lo, hi), x, b, u) <==> lo <= x <= hi && Covers(e, x, b, u)
  {
    if Meets(e, lo, hi) {
      assert ClipOne(e, lo, hi)[0] == Clip(e, lo, hi);
    }
  }

  lemma {:induction false} ClipToMaps(recs: seq<Extent>, k: nat, lo: nat, hi: nat, x: nat, b: nat, u: bool)
    requires Sorted(recs) && k <= |recs| && lo <= hi < U64
    ensures Maps(ClipTo(recs, k, lo, hi), x, b, u) <==> lo <= x <= hi && Maps(recs[..k], x, b, u)
  {
    if k > 0 {
      ClipToMaps(recs, k - 1, lo, hi, x, b, u);
      SortedAt(recs, k - 1, k - 1);
      ClipOneMaps(recs[k - 1], lo, hi, x, b, u);
      MapsAppend(ClipTo(recs, k - 1, lo, hi), ClipOne(recs[k - 1], lo, hi), x, b, u);
      assert recs[..k] == recs[..k - 1] + [recs[k - 1]];
      MapsAppend(recs[..k - 1], [recs[k - 1]], x, b, u);
      assert [recs[k - 1]][0] == recs[k - 1];
    }
  }

  /** The clipped list maps exactly the offsets of the range that the fork maps, to the same blocks. */
  lemma {:induction false} ClippedMapsSame(recs: seq<Extent>, lo: nat, hi: nat, x: nat, b: nat, u: bool)
    requires Sorted(recs) && lo <= hi < U64
    ensures Maps(ClipAll(recs, lo, hi), x, b, u) <==> lo <= x <= hi && Maps(recs, x, b, u)
  {
    ClipToMaps(recs, |recs|, lo, hi, x, b, u);
    assert recs[..|recs|] == recs;
  }

  /** Clipping to every offset changes nothing. */
  lemma {:induction false} ClipToWhole(recs: seq<Extent>, k: nat)
    requires Sorted(recs) && k <= |recs|
    ensures ClipTo(recs, k, 0, U64 - 1) == recs[..k]
  {
    if k > 0 {
      ClipToWhole(recs, k - 1);
      SortedAt(recs, k - 1, k - 1);
    }
  }

  // ---------------------------------------------------------------------------
  // The enumeration loop of bmap_f
  // ---------------------------------------------------------------------------

  /** The first result of a lookup comes from the first record that meets the range. */
  lemma {:induction false} FirstMet(recs: seq<Extent>, k: nat, lo: nat, hi: nat) returns (i: nat)
    requires k <= |recs| && ClipTo(recs, k, lo, hi) != []
    ensures i < k && Meets(recs[i], lo, hi) && (forall j :: 0 <= j < i ==> !Meets(recs[j], lo, hi))
    ensures ClipTo(recs, k, lo, hi)[0] == Clip(recs[i], lo, hi)
  {
    if ClipTo(recs, k - 1, lo, hi) != [] {
      i := FirstMet(recs, k - 1, lo, hi);
    } else {
      i := k - 1;
      NoneMet(recs, k - 1, lo, hi);
    }
  }

  lemma {:induction false} NoneMet(recs: seq<Extent>, k: nat, lo: nat, hi: nat)
    requires k <= |recs| && ClipTo(recs, k, lo, hi) == []
    ensures forall j :: 0 <= j < k ==> !Meets(recs[j], lo, hi)
  {
    if k > 0 { NoneMet(recs, k - 1, lo, hi); }
  }

  /** Where the loop goes on after a lookup that found something. */
  ghost function NextOff(recs: seq<Extent>, co: nat, eo: nat): nat
    requires ClipAll(recs, co, eo) != []
  {
    var be := ClipAll(recs, co, eo)[0];
    (be.off + be.count) % U64
  }

  /** The loop has listed the first j records and goes on at co. */
  ghost predicate Listed(recs: seq<Extent>, j: nat, co0: nat, eo: nat, co: nat, out: seq<Extent>) {
    && j <= |recs| && co < U64 && CursorOk(recs, j, co0, co) && out == ClipTo(recs, j, co0, eo)
    && forall i :: 0 <= i < j ==> recs[i].End() <= co
  }

  /** Some extent reaches over the end of the range, and past the current offset. */
  ghost predicate Straddles(recs: seq<Extent>, co: nat, eo: nat) {
    exists i :: 0 <= i < |recs| && recs[i].off <= eo && recs[i].End() > eo + 1 && recs[i].End() > co
  }

  lemma {:induction false} ListedNext(recs: seq<Extent>, j: nat, co0: nat, eo: nat, co: nat, out: seq<Extent>)
    returns (j': nat)
    requires Sorted(recs) && eo < U64 && !Straddles(recs, co0, eo) && Listed(recs, j, co0, eo, co, out)
    requires ClipAll(recs, co, eo) != []
    ensures j < j' && Listed(recs, j', co0, eo, NextOff(recs, co, eo), out + [ClipAll(recs, co, eo)[0]])
  {
    var i := FirstMet(recs, |recs|, co, eo);
    j' := i + 1;
    MetIsNext(recs, j, i, co0, eo, co);
    SortedAt(recs, i, i);
    CursorMoves(recs[i], co, eo);
    forall m | 0 <= m < j'
      ensures recs[m].End() <= NextOff(recs, co, eo)
    {
      SortedAt(recs, m, i);
    }
  }

  /** The first record met from co on is the next one of the clipped list. */
  lemma {:induction false} MetIsNext(recs: seq<Extent>, j: nat, i: nat, co0: nat, eo: nat, co: nat)
    requires Sorted(recs) && j <= |recs| && CursorOk(recs, j, co0, co) && i < |recs| && Meets(recs[i], co, eo)
    requires (forall m :: 0 <= m < i ==> !Meets(recs[m], co, eo)) && forall m :: 0 <= m < j ==> recs[m].End() <= co
    ensures j <= i && ClipTo(recs, i + 1, co0, eo) == ClipTo(recs, j, co0, eo) + [Clip(recs[i], co, eo)]
  {
    forall m | j <= m < i
      ensures !Meets(recs[m], co0, eo)
    {
      CursorIrrelevant(recs, j, m, co0, eo, co);
    }
    ClipSkips(recs, j, i, co0, eo);
    CursorIrrelevant(recs, j, i, co0, eo, co);
  }

  lemma {:induction false} ListedEnd(recs: seq<Extent>, j: nat, co0: nat, eo: nat, co: nat, out: seq<Extent>)
    requires Sorted(recs) && Listed(recs, j, co0, eo, co, out) && ClipAll(recs, co, eo) == []
    ensures out == ClipAll(recs, co0, eo)
  {
    NoneMet(recs, |recs|, co, eo);
    forall m | j <= m < |recs|
      ensures !Meets(recs[m], co0, eo)
    {
      CursorIrrelevant(recs, j, m, co0, eo, co);
    }
    ClipSkips(recs, j, |recs|, co0, eo);
  }

  /** eo - co + 1 and back, modulo 2^64. */
  lemma {:induction false} RangeEnd(co: nat, eo: nat)
    requires co < U64 && eo < U64
    ensures 0 <= (eo - co + 1) % U64 < U64 && (co + (eo - co + 1) % U64 - 1) % U64 == eo
  {
    var len := (eo - co + 1) % U64;
    assert len == eo - co + 1 || len == eo - co + 1 + U64 || len == eo - co + 1 - U64;
  }

  /**
    The loop of bmap_f over one fork, one extent per lookup, lists exactly the clipped extents and
    ends, unless an extent reaches over the end of the range.
  */
  method Enumerate(disk: Disk, fork: Fork, ghost h: nat, co0: nat, eo: nat) returns (out: seq<Extent>)
    requires ForkOk(disk, fork, h) && co0 < U64 && eo < U64 && !Straddles(ForkRecords(disk, fork, h), co0, eo)
    ensures out == ClipAll(ForkRecords(disk, fork, h), co0, eo)
  {
    ghost var recs := ForkRecords(disk, fork, h);
    ghost var j: nat := 0;
    var co: nat, more := co0, true;
    out := [];
    while more
      invariant Listed(recs, j, co0, eo, co, out)
      invariant !more ==> out == ClipAll(recs, co0, eo)
      decreases if more then |recs| + 1 - j else 0
    {
      RangeEnd(co, eo);
      var be := Lookup(disk, fork, h, co, (eo - co + 1) % U64, 1);
      if be == [] {
        ListedEnd(recs, j, co0, eo, co, out);
        more := false;
      } else {
        j := ListedNext(recs, j, co0, eo, co, out);
        out, co := out + [be[0]], (be[0].off + be[0].count) % U64;
      }
    }
  }

  /** Without a range the loop lists the fork itself: every extent once, in order. */
  lemma {:induction false} WholeForkListed(recs: seq<Extent>)
    requires Sorted(recs)
    ensures !Straddles(recs, 0, U64 - 1) && ClipAll(recs, 0, U64 - 1) == recs
  {
    ClipToWhole(recs, |recs|);
    assert recs[..|recs|] == recs;
    forall i | 0 <= i < |recs|
      ensures recs[i].End() <= U64
    {
      SortedAt(recs, i, i);
    }
  }

  /** The first n turns of the loop all find an extent. */
  ghost predicate Turns(recs: seq<Extent>, co: nat, eo: nat, n: nat)
    decreases n
  {
    n == 0 || (ClipAll(recs, co, eo) != [] && Turns(recs, NextOff(recs, co, eo), eo, n - 1))
  }

  /** One more turn over an extent that straddles the end finds something and does not get past the end. */
  lemma {:induction false} StraddledTurn(recs: seq<Extent>, co: nat, eo: nat, s: nat)
    requires Sorted(recs) && s < |recs| && recs[s].off <= eo && recs[s].End() > eo + 1 && recs[s].End() > co
    ensures ClipAll(recs, co, eo) != [] && NextOff(recs, co, eo) <= eo + 1
  {
    if ClipAll(recs, co, eo) == [] { NoneMet(recs, |recs|, co, eo); }
    var i := FirstMet(recs, |recs|, co, eo);
    SortedAt(recs, i, i);
    CursorMoves(recs[i], co, eo);
  }

  lemma {:induction false} TurnsForever(recs: seq<Extent>, co: nat, eo: nat, n: nat)
    requires Sorted(recs) && Straddles(recs, co, eo)
    ensures Turns(recs, co, eo, n)
    decreases n
  {
    if n > 0 {
      var s :| 0 <= s < |recs| && recs[s].off <= eo && recs[s].End() > eo + 1 && recs[s].End() > co;
      StraddledTurn(recs, co, eo, s);
      TurnsForever(recs, NextOff(recs, co, eo), eo, n - 1);
    }
  }

  lemma {:induction false} TurnsEnd(recs: seq<Extent>, j: nat, co0: nat, eo: nat, co: nat, out: seq<Extent>)
    requires Sorted(recs) && eo < U64 && !Straddles(recs, co0, eo) && Listed(recs, j, co0, eo, co, out)
    ensures exists n: nat :: !Turns(recs, co, eo, n)
    decreases |recs| - j
  {
    if ClipAll(recs, co, eo) == [] {
      assert !Turns(recs, co, eo, 1);
    } else {
      var j' := ListedNext(recs, j, co0, eo, co, out);
      var co' := NextOff(recs, co, eo);
      TurnsEnd(recs, j', co0, eo, co', out + [ClipAll(recs, co, eo)[0]]);
      var n: nat :| !Turns(recs, co', eo, n);
      assert !Turns(recs, co, eo, n + 1);
    }
  }

  /** The loop runs forever exactly when an extent reaches over the end of the range. */
  lemma {:induction false} LoopsForever(recs: seq<Extent>, co: nat, eo: nat)
    requires Sorted(recs) && co < U64 && eo < U64
    ensures (forall n: nat :: Turns(recs, co, eo, n)) <==> Straddles(recs, co, eo)
  {
    if Straddles(recs, co, eo) {
      forall n: nat ensures Turns(recs, co, eo, n) { TurnsForever(recs, co, eo, n); }
    } else {
      TurnsEnd(recs, 0, co, eo, co, []);
    }
  }

  /** It does happen: a range that ends inside an extent. */
  lemma {:induction false} StraddleExample()
    ensures var recs := [Extent(0, 100, 10, false)];
            Sorted(recs) && forall n: nat :: Turns(recs, 0, 4, n)
  {
    var recs := [Extent(0, 100, 10, false)];
    assert RecordOk(recs, 0);
    assert recs[0].off <= 4 && recs[0].End() > 5;
    assert Straddles(recs, 0, 4);
    LoopsForever(recs, 0, 4);
  }
}
