/**
  The checker's per-block type map and its scan of an allocation group's two free-space trees
  (db/check.c): a clean scan means that the trees agree with each other and with the map. Block numbers,
  lengths and the counters of a group are unsigned 32-bit.
*/
module FreeSpace {
  import opened Arith

  /** dbm_t */
  datatype Dbm =
    | Unknown | Agf | Agfl | Agi | Attr | BtBmapA | BtBmapD | BtBno | BtCnt | BtIno | Data | Dir | Free1 | Free2
    | FreeList | Inode | Log | Missing | Quota | RtBitmap | RtData | RtFree | RtSum | Sb | Symlink | BtFino | BtRmap
    | BtRefc | RlData | CowData

  // ---------------------------------------------------------------------------
  // Claims on values
  // ---------------------------------------------------------------------------

  /** A call of check_set_dbmap: these blocks should be `from` and become `to`. */
  datatype Claim = Claim(start: nat, len: nat, from: Dbm, to: Dbm) {
    predicate Has(b: int) { start <= b < start + len }
  }

  /** check_range, with its 32-bit arithmetic. */
  predicate RangeOk(agblocks: nat, start: nat, len: nat) {
    (start + len - 1) % U32 < agblocks
  }

  lemma {:induction false} RangeOkIs(agblocks: nat, start: nat, len: nat)
    requires start < U32 && len < U32 && agblocks < U32
    ensures RangeOk(agblocks, start, len)
       <==> 0 < start + len <= agblocks || U32 < start + len <= U32 + agblocks
  {
  }

  predicate Shareable(d: Dbm) { d == Data || d == RlData }

  /** is_reflink: on such a claim a block that is unknown or file data is never complained about. */
  predicate Lenient(reflink: bool, to: Dbm) { reflink && Shareable(to) }

  predicate Expected(d: Dbm, from: Dbm, lenient: bool) {
    d == from || (lenient && (d == Unknown || Shareable(d)))
  }

  /** What a claimed block becomes: claimed as data twice it is shared data, and stays so. */
  function Become(d: Dbm, to: Dbm): Dbm {
    if Shareable(d) && to == Data then RlData else to
  }

  ghost predicate Accepts(map0: seq<Dbm>, c: Claim, reflink: bool) {
    && RangeOk(|map0|, c.start, c.len)
    && (c.len > 0 ==> c.start + c.len <= |map0|)
    && forall b :: 0 <= b < |map0| && c.Has(b) ==> Expected(map0[b], c.from, Lenient(reflink, c.to))
  }

  ghost function Marked(map0: seq<Dbm>, c: Claim): (m: seq<Dbm>)
    ensures |m| == |map0|
    ensures forall b :: 0 <= b < |m| ==> m[b] == if c.Has(b) then Become(map0[b], c.to) else map0[b]
  {
    seq(|map0|, b requires 0 <= b < |map0| => if c.Has(b) then Become(map0[b], c.to) else map0[b])
  }

  /** The map after the first k claims. */
  ghost function After(map0: seq<Dbm>, cs: seq<Claim>, k: nat): (m: seq<Dbm>)
    requires k <= |cs|
    ensures |m| == |map0|
  {
    if k == 0 then map0 else Marked(After(map0, cs, k - 1), cs[k - 1])
  }

  ghost predicate AcceptedAt(map0: seq<Dbm>, cs: seq<Claim>, k: nat, reflink: bool)
    requires k < |cs|
  {
    Accepts(After(map0, cs, k), cs[k], reflink)
  }

  /** Every claim finds what it expects. */
  ghost predicate Accepted(map0: seq<Dbm>, cs: seq<Claim>, reflink: bool) {
    forall k :: 0 <= k < |cs| ==> AcceptedAt(map0, cs, k, reflink)
  }

  lemma {:induction false} AfterPrefix(map0: seq<Dbm>, a: seq<Claim>, b: seq<Claim>, k: nat)
    requires k <= |a|
    ensures After(map0, a + b, k) == After(map0, a, k)
  {
    if k > 0 { AfterPrefix(map0, a, b, k - 1); }
  }

  lemma {:induction false} AfterSuffix(map0: seq<Dbm>, a: seq<Claim>, b: seq<Claim>, k: nat)
    requires k <= |b|
    ensures After(map0, a + b, |a| + k) == After(After(map0, a, |a|), b, k)
  {
    if k == 0 {
      AfterPrefix(map0, a, b, |a|);
    } else {
      AfterSuffix(map0, a, b, k - 1);
      assert (a + b)[|a| + k - 1] == b[k - 1];
    }
  }

  lemma {:induction false} AcceptedConcat(map0: seq<Dbm>, a: seq<Claim>, b: seq<Claim>, reflink: bool)
    requires Accepted(map0, a, reflink) && Accepted(After(map0, a, |a|), b, reflink)
    ensures Accepted(map0, a + b, reflink)
    ensures After(map0, a + b, |a + b|) == After(After(map0, a, |a|), b, |b|)
  {
    AfterSuffix(map0, a, b, |b|);
    forall k | 0 <= k < |a + b|
      ensures AcceptedAt(map0, a + b, k, reflink)
    {
      if k < |a| {
        AfterPrefix(map0, a, b, k);
        assert AcceptedAt(map0, a, k, reflink);
      } else {
        AfterSuffix(map0, a, b, k - |a|);
        assert AcceptedAt(After(map0, a, |a|), b, k - |a|, reflink);
      }
    }
  }

  lemma {:induction false} AcceptedSplit(map0: seq<Dbm>, a: seq<Claim>, b: seq<Claim>, reflink: bool)
    requires Accepted(map0, a + b, reflink)
    ensures Accepted(map0, a, reflink) && Accepted(After(map0, a, |a|), b, reflink)
  {
    forall k | 0 <= k < |a|
      ensures AcceptedAt(map0, a, k, reflink)
    {
      AfterPrefix(map0, a, b, k);
      assert AcceptedAt(map0, a + b, k, reflink);
    }
    forall k | 0 <= k < |b|
      ensures AcceptedAt(After(map0, a, |a|), b, k, reflink)
    {
      AfterSuffix(map0, a, b, k);
      assert AcceptedAt(map0, a + b, |a| + k, reflink);
    }
  }

  lemma {:induction false} AcceptedOne(map0: seq<Dbm>, c: Claim, reflink: bool)
    requires Accepts(map0, c, reflink)
    ensures Accepted(map0, [c], reflink) && After(map0, [c], 1) == Marked(map0, c)
  {
    assert After(map0, [c], 0) == map0;
  }

  // ---------------------------------------------------------------------------
  // The trees
  // ---------------------------------------------------------------------------

  datatype Rec = Rec(start: nat, count: nat)

  datatype Kind = Bno | Cnt

  /** A tree block; its entries are read as records at level 0 and as pointers above. */
  datatype Block = Block(magic: Magic, level: nat, recs: seq<Rec>, ptrs: seq<nat>)

  datatype Magic = BnoMagic | CntMagic | OtherMagic

  /** The block map of the group's trees and the record limits. */
  datatype Group = Group(disk: map<nat, Block>, maxRecs: nat, minRecs: nat, maxPtrs: nat, minPtrs: nat)

  function TreeType(kind: Kind): Dbm { if kind == Bno then BtBno else BtCnt }

  function MagicOf(kind: Kind): Magic { if kind == Bno then BnoMagic else CntMagic }

  function RecClaim(kind: Kind, r: Rec): Claim {
    if kind == Bno then Claim(r.start, r.count, Unknown, Free1) else Claim(r.start, r.count, Free1, Free2)
  }

  function RecClaims(kind: Kind, recs: seq<Rec>, k: nat): seq<Claim>
    requires k <= |recs|
  {
    if k == 0 then [] else RecClaims(kind, recs, k - 1) + [RecClaim(kind, recs[k - 1])]
  }

  /** What scanning a tree claims, in order. */
  ghost function TreeClaims(g: Group, kind: Kind, bno: nat, level: nat): seq<Claim>
    decreases level, 1
  {
    if bno !in g.disk then []
    else [Claim(bno, 1, Unknown, TreeType(kind))] + EntryClaims(g, kind, g.disk[bno], level)
  }

  ghost function EntryClaims(g: Group, kind: Kind, block: Block, level: nat): seq<Claim>
    decreases level, 0
  {
    if level == 0 then RecClaims(kind, block.recs, |block.recs|)
    else ChildClaims(g, kind, block.ptrs, level - 1, |block.ptrs|)
  }

  ghost function ChildClaims(g: Group, kind: Kind, ptrs: seq<nat>, level: nat, k: nat): seq<Claim>
    requires k <= |ptrs|
    decreases level, k + 2
  {
    if k == 0 then [] else ChildClaims(g, kind, ptrs, level, k - 1) + TreeClaims(g, kind, ptrs[k - 1], level)
  }

  /** The first k records of a by-block leaf ascend from above block 0. */
  ghost predicate AscendTo(recs: seq<Rec>, k: nat)
    requires k <= |recs|
  {
    forall i :: 0 <= i < k ==> recs[i].start > LastStart(recs, i)
  }

  function LastStart(recs: seq<Rec>, i: nat): nat
    requires i <= |recs|
  {
    if i == 0 then 0 else recs[i - 1].start
  }

  /**
    A tree of this height that is in order: all blocks can be read, have the magic number of the tree and
    the right level, and hold an allowed number of entries, and by-block leaves ascend.
  */
  ghost predicate SoundTree(g: Group, kind: Kind, bno: nat, level: nat, isRoot: bool)
    decreases level, 1
  {
    && bno in g.disk && g.disk[bno].magic == (match kind case Bno => BnoMagic case Cnt => CntMagic)
    && g.disk[bno].level == level && SoundEntries(g, kind, g.disk[bno], level, isRoot)
  }

  ghost predicate SoundEntries(g: Group, kind: Kind, block: Block, level: nat, isRoot: bool)
    decreases level, 0
  {
    if level == 0 then
      && |block.recs| <= g.maxRecs && (isRoot || g.minRecs <= |block.recs|)
      && (kind == Bno ==> AscendTo(block.recs, |block.recs|))
    else
      && |block.ptrs| <= g.maxPtrs && (isRoot || g.minPtrs <= |block.ptrs|)
      && SoundChildren(g, kind, block.ptrs, level - 1, |block.ptrs|)
  }

  ghost predicate SoundChildren(g: Group, kind: Kind, ptrs: seq<nat>, level: nat, k: nat)
    requires k <= |ptrs|
    decreases level, k + 2
  {
    k == 0 || (SoundChildren(g, kind, ptrs, level, k - 1) && SoundTree(g, kind, ptrs[k - 1], level, false))
  }

  /** The blocks that claims with this target take, counted with multiplicity. */
  ghost function Total(cs: seq<Claim>, to: Dbm, k: nat): nat
    requires k <= |cs|
  {
    if k == 0 then 0 else Total(cs, to, k - 1) + if cs[k - 1].to == to then cs[k - 1].len else 0
  }

  ghost function Longest(cs: seq<Claim>, to: Dbm, k: nat): nat
    requires k <= |cs|
  {
    if k == 0 then 0
    else
      var m := Longest(cs, to, k - 1);
      if cs[k - 1].to == to && cs[k - 1].len > m then cs[k - 1].len else m
  }

  lemma {:induction false} SumsConcat(a: seq<Claim>, b: seq<Claim>, to: Dbm, k: nat)
    requires k <= |b|
    ensures Total(a + b, to, |a| + k) == Total(a, to, |a|) + Total(b, to, k)
    ensures Longest(a + b, to, |a| + k)
         == var x, y := Longest(a, to, |a|), Longest(b, to, k); if y > x then y else x
  {
    if k == 0 {
      SumsPrefix(a, b, to, |a|);
    } else {
      SumsConcat(a, b, to, k - 1);
      assert (a + b)[|a| + k - 1] == b[k - 1];
    }
  }

  lemma {:induction false} SumsPrefix(a: seq<Claim>, b: seq<Claim>, to: Dbm, k: nat)
    requires k <= |a|
    ensures Total(a + b, to, k) == Total(a, to, k) && Longest(a + b, to, k) == Longest(a, to, k)
  {
    if k > 0 {
      SumsPrefix(a, b, to, k - 1);
      assert (a + b)[k - 1] == a[k - 1];
    }
  }

  // ---------------------------------------------------------------------------
  // What a clean scan means
  // ---------------------------------------------------------------------------

  /** The claims that free-space scans make. */
  predicate FreeClaim(c: Claim) {
    (c.from == Unknown && (c.to == BtBno || c.to == BtCnt || c.to == Free1)) || (c.from == Free1 && c.to == Free2)
  }

  ghost predicate FreeClaims(cs: seq<Claim>) {
    forall k :: 0 <= k < |cs| ==> FreeClaim(cs[k])
  }

  /** Claim k on block b, whose types over time are h. */
  ghost predicate StepOf(h: seq<Dbm>, cs: seq<Claim>, k: nat, b: nat)
    requires k < |cs| == |h| - 1
  {
    if cs[k].Has(b) then h[k] == cs[k].from && h[k + 1] == cs[k].to && FreeClaim(cs[k]) else h[k + 1] == h[k]
  }

  /** The types that block b goes through. */
  ghost predicate History(h: seq<Dbm>, cs: seq<Claim>, b: nat) {
    |h| == |cs| + 1 && forall k :: 0 <= k < |cs| ==> StepOf(h, cs, k, b)
  }

  lemma {:induction false} BlockStep(map0: seq<Dbm>, cs: seq<Claim>, k: nat, b: nat, reflink: bool)
    requires Accepted(map0, cs, reflink) && FreeClaims(cs) && k < |cs| && b < |map0|
    ensures cs[k].Has(b) ==> After(map0, cs, k)[b] == cs[k].from && After(map0, cs, k + 1)[b] == cs[k].to
    ensures !cs[k].Has(b) ==> After(map0, cs, k + 1)[b] == After(map0, cs, k)[b]
  {
    assert AcceptedAt(map0, cs, k, reflink) && FreeClaim(cs[k]);
  }

  lemma {:induction false} HistoryOf(map0: seq<Dbm>, cs: seq<Claim>, b: nat, reflink: bool) returns (h: seq<Dbm>)
    requires Accepted(map0, cs, reflink) && FreeClaims(cs) && b < |map0|
    ensures History(h, cs, b) && h[0] == map0[b]
  {
    h := seq(|cs| + 1, k requires 0 <= k <= |cs| => After(map0, cs, k)[b]);
    forall k | 0 <= k < |cs|
      ensures StepOf(h, cs, k, b)
    {
      BlockStep(map0, cs, k, b, reflink);
      assert FreeClaim(cs[k]);
    }
  }

  lemma {:induction false} UnknownUntouched(h: seq<Dbm>, cs: seq<Claim>, k: nat, b: nat)
    requires History(h, cs, b) && k <= |cs| && h[k] == Unknown
    ensures h[0] == Unknown && forall j :: 0 <= j < k ==> !cs[j].Has(b)
  {
    if k > 0 {
      assert StepOf(h, cs, k - 1, b);
      UnknownUntouched(h, cs, k - 1, b);
    }
  }

  /** A block found Free1 was made so by exactly one claim before. */
  lemma {:induction false} Free1Origin(h: seq<Dbm>, cs: seq<Claim>, k: nat, b: nat) returns (j: nat)
    requires History(h, cs, b) && k <= |cs| && h[0] != Free1 && h[k] == Free1
    ensures j < k && cs[j].to == Free1 && cs[j].Has(b) && h[0] == Unknown
    ensures forall i :: 0 <= i < k && i != j ==> !cs[i].Has(b)
  {
    assert StepOf(h, cs, k - 1, b);
    if cs[k - 1].Has(b) {
      j := k - 1;
      UnknownUntouched(h, cs, k - 1, b);
    } else {
      j := Free1Origin(h, cs, k - 1, b);
    }
  }

  /** A block that is Free2 is not claimed again. */
  lemma {:induction false} Free2Final(h: seq<Dbm>, cs: seq<Claim>, i: nat, k: nat, b: nat)
    requires History(h, cs, b) && i <= k <= |cs| && h[i] == Free2
    ensures h[k] == Free2 && forall j :: i <= j < k ==> !cs[j].Has(b)
  {
    if i < k {
      Free2Final(h, cs, i, k - 1, b);
      assert StepOf(h, cs, k - 1, b);
    }
  }

  /** No block is marked free before the scan. */
  ghost predicate NoFree(map0: seq<Dbm>) {
    forall b :: 0 <= b < |map0| ==> map0[b] != Free1 && map0[b] != Free2
  }

  /**
    A block of a by-count record is in exactly one by-block record, was unknown before, and nothing
    else claims it: no other record of either tree and no block of the trees themselves.
  */
  lemma {:induction false} OneOfEachTree(map0: seq<Dbm>, cs: seq<Claim>, i: nat, b: nat, reflink: bool) returns (j: nat)
    requires Accepted(map0, cs, reflink) && FreeClaims(cs) && NoFree(map0)
    requires i < |cs| && cs[i].to == Free2 && cs[i].Has(b)
    ensures b < |map0| && map0[b] == Unknown
    ensures j < i && cs[j].to == Free1 && cs[j].Has(b)
    ensures forall k :: 0 <= k < |cs| && k != i && k != j ==> !cs[k].Has(b)
  {
    assert AcceptedAt(map0, cs, i, reflink) && FreeClaim(cs[i]);
    var h := HistoryOf(map0, cs, b, reflink);
    assert StepOf(h, cs, i, b);
    j := Free1Origin(h, cs, i, b);
    Free2Final(h, cs, i + 1, |cs|, b);
  }

  /** The records of the by-count tree do not overlap. */
  lemma {:induction false} CountRecordsDisjoint(map0: seq<Dbm>, cs: seq<Claim>, i: nat, k: nat, b: nat, reflink: bool)
    requires Accepted(map0, cs, reflink) && FreeClaims(cs) && NoFree(map0)
    requires i < k < |cs| && cs[i].to == Free2 && cs[k].to == Free2
    ensures !(cs[i].Has(b) && cs[k].Has(b))
  {
    if cs[i].Has(b) { var j := OneOfEachTree(map0, cs, i, b, reflink); }
  }

  /** How many of the first k blocks have this type. */
  ghost function CountTo(m: seq<Dbm>, to: Dbm, k: nat): (n: nat)
    requires k <= |m|
    ensures n <= k
  {
    if k == 0 then 0 else CountTo(m, to, k - 1) + if m[k - 1] == to then 1 else 0
  }

  /** How many of the first k blocks the claim takes. */
  function Overlap(c: Claim, k: nat): nat {
    if k <= c.start then 0 else if k <= c.start + c.len then k - c.start else c.len
  }

  lemma {:induction false} CountMarked(m: seq<Dbm>, c: Claim, k: nat, reflink: bool)
    requires Accepts(m, c, reflink) && FreeClaim(c) && k <= |m|
    ensures CountTo(Marked(m, c), Free2, k) == CountTo(m, Free2, k) + if c.to == Free2 then Overlap(c, k) else 0
  {
    if k > 0 { CountMarked(m, c, k - 1, reflink); }
  }

  lemma {:induction false} CountAfter(map0: seq<Dbm>, cs: seq<Claim>, k: nat, reflink: bool)
    requires Accepted(map0, cs, reflink) && FreeClaims(cs) && k <= |cs|
    ensures CountTo(After(map0, cs, k), Free2, |map0|) == CountTo(map0, Free2, |map0|) + Total(cs, Free2, k)
  {
    if k > 0 {
      CountAfter(map0, cs, k - 1, reflink);
      assert AcceptedAt(map0, cs, k - 1, reflink) && FreeClaim(cs[k - 1]);
      CountMarked(After(map0, cs, k - 1), cs[k - 1], |map0|, reflink);
    }
  }

  lemma {:induction false} CountNone(m: seq<Dbm>, k: nat)
    requires NoFree(m) && k <= |m|
    ensures CountTo(m, Free2, k) == 0
  {
    if k > 0 { CountNone(m, k - 1); }
  }

  /** The free blocks counted are exactly those left Free2, so the count cannot have wrapped around. */
  lemma {:induction false} FreeBlocksCounted(map0: seq<Dbm>, cs: seq<Claim>, reflink: bool)
    requires Accepted(map0, cs, reflink) && FreeClaims(cs) && NoFree(map0)
    ensures Total(cs, Free2, |cs|) == CountTo(After(map0, cs, |cs|), Free2, |map0|) <= |map0|
  {
    CountAfter(map0, cs, |cs|, reflink);
    CountNone(map0, |map0|);
  }

  /** The longest free extent is the maximum over the by-count records. */
  lemma {:induction false} LongestIsMax(cs: seq<Claim>, to: Dbm, k: nat)
    requires k <= |cs|
    ensures forall i :: 0 <= i < k && cs[i].to == to ==> cs[i].len <= Longest(cs, to, k)
    ensures Longest(cs, to, k) == 0 || exists i :: 0 <= i < k && cs[i].to == to && cs[i].len == Longest(cs, to, k)
  {
    if k > 0 { LongestIsMax(cs, to, k - 1); }
  }

  /** Shared file data never goes back to plain data, whatever claims follow without a complaint. */
  lemma {:induction false} SharedStaysShared(map0: seq<Dbm>, cs: seq<Claim>, k: nat, b: nat, reflink: bool)
    requires Accepted(map0, cs, reflink) && k <= |cs| && b < |map0| && map0[b] == RlData
    requires forall i :: 0 <= i < |cs| ==> cs[i].from != RlData
    ensures After(map0, cs, k)[b] == RlData
  {
    if k > 0 {
      SharedStaysShared(map0, cs, k - 1, b, reflink);
      assert AcceptedAt(map0, cs, k - 1, reflink);
    }
  }

  // ---------------------------------------------------------------------------
  // When a scan is clean
  // ---------------------------------------------------------------------------

  predicate InRange(blocks: nat, c: Claim) {
    RangeOk(blocks, c.start, c.len) && (c.len > 0 ==> c.start + c.len <= blocks)
  }

  ghost predicate NoneBefore(cs: seq<Claim>, k: nat, b: nat)
    requires k <= |cs|
  {
    forall i :: 0 <= i < k ==> !cs[i].Has(b)
  }

  ghost predicate OnlyBefore(cs: seq<Claim>, j: nat, k: nat, b: nat)
    requires k <= |cs|
  {
    j < k && cs[j].Has(b) && cs[j].to == Free1 && forall i :: 0 <= i < k && i != j ==> !cs[i].Has(b)
  }

  /** The block was unknown, and was claimed before by one by-block record, for a by-count record, or by nothing. */
  ghost predicate InTurn(was: Dbm, cs: seq<Claim>, k: nat, b: nat)
    requires k < |cs|
  {
    was == Unknown && if cs[k].to == Free2 then exists j: nat :: OnlyBefore(cs, j, k, b) else NoneBefore(cs, k, b)
  }

  /** Claim k lies in the group and has its turn on all its blocks. */
  ghost predicate Fits(map0: seq<Dbm>, cs: seq<Claim>, k: nat)
    requires k < |cs|
  {
    InRange(|map0|, cs[k]) && forall b :: 0 <= b < |map0| ==> (cs[k].Has(b) ==> InTurn(map0[b], cs, k, b))
  }

  lemma {:induction false} NoneBeforeKeeps(map0: seq<Dbm>, cs: seq<Claim>, k: nat, b: nat)
    requires k <= |cs| && b < |map0| && NoneBefore(cs, k, b)
    ensures After(map0, cs, k)[b] == map0[b]
  {
    if k > 0 {
      assert NoneBefore(cs, k - 1, b);
      NoneBeforeKeeps(map0, cs, k - 1, b);
    }
  }

  lemma {:induction false} OnlyBeforeMarks(map0: seq<Dbm>, cs: seq<Claim>, j: nat, k: nat, b: nat)
    requires k <= |cs| && b < |map0| && map0[b] == Unknown && OnlyBefore(cs, j, k, b)
    ensures After(map0, cs, k)[b] == Free1
  {
    if j == k - 1 {
      assert NoneBefore(cs, k - 1, b);
      NoneBeforeKeeps(map0, cs, k - 1, b);
    } else {
      assert OnlyBefore(cs, j, k - 1, b);
      OnlyBeforeMarks(map0, cs, j, k - 1, b);
    }
  }

  lemma {:induction false} FitsIsAccepted(map0: seq<Dbm>, cs: seq<Claim>, k: nat, reflink: bool)
    requires k < |cs| && FreeClaim(cs[k]) && Fits(map0, cs, k)
    ensures AcceptedAt(map0, cs, k, reflink)
  {
    forall b | 0 <= b < |map0| && cs[k].Has(b)
      ensures After(map0, cs, k)[b] == cs[k].from
    {
      assert InTurn(map0[b], cs, k, b);
      if cs[k].to == Free2 {
        var j: nat :| OnlyBefore(cs, j, k, b);
        OnlyBeforeMarks(map0, cs, j, k, b);
      } else {
        NoneBeforeKeeps(map0, cs, k, b);
      }
    }
  }

  lemma {:induction false} AcceptedFits(map0: seq<Dbm>, cs: seq<Claim>, k: nat, reflink: bool)
    requires Accepted(map0, cs, reflink) && FreeClaims(cs) && NoFree(map0) && k < |cs|
    ensures Fits(map0, cs, k)
  {
    assert AcceptedAt(map0, cs, k, reflink) && FreeClaim(cs[k]);
    forall b | 0 <= b < |map0| && cs[k].Has(b)
      ensures InTurn(map0[b], cs, k, b)
    {
      var h := HistoryOf(map0, cs, b, reflink);
      assert StepOf(h, cs, k, b);
      if cs[k].to == Free2 {
        var j := Free1Origin(h, cs, k, b);
        assert OnlyBefore(cs, j, k, b);
      } else {
        UnknownUntouched(h, cs, k, b);
      }
    }
  }

  /** The claims are accepted if and only if each lies in the group and has its turn on all its blocks. */
  lemma {:induction false} AcceptedIff(map0: seq<Dbm>, cs: seq<Claim>, reflink: bool)
    requires FreeClaims(cs) && NoFree(map0)
    ensures Accepted(map0, cs, reflink) <==> forall k :: 0 <= k < |cs| ==> Fits(map0, cs, k)
  {
    if Accepted(map0, cs, reflink) {
      forall k | 0 <= k < |cs|
        ensures Fits(map0, cs, k)
      {
        AcceptedFits(map0, cs, k, reflink);
      }
    }
    if forall k :: 0 <= k < |cs| ==> Fits(map0, cs, k) {
      forall k | 0 <= k < |cs|
        ensures AcceptedAt(map0, cs, k, reflink)
      {
        assert FreeClaim(cs[k]);
        FitsIsAccepted(map0, cs, k, reflink);
      }
    }
  }

  /** A group in order: one leaf in each tree, both with the record of blocks 5 to 7. */
  lemma {:induction false} HealthyExample(g: Group, map0: seq<Dbm>, reflink: bool)
    requires 1 in g.disk && g.disk[1] == Block(BnoMagic, 0, [Rec(5, 3)], []) && g.maxRecs >= 1
    requires 2 in g.disk && g.disk[2] == Block(CntMagic, 0, [Rec(5, 3)], [])
    requires |map0| == 16 && forall b :: 0 <= b < 16 ==> map0[b] == Unknown
    ensures SoundTree(g, Bno, 1, 0, true) && SoundTree(g, Cnt, 2, 0, true)
    ensures Accepted(map0, TreeClaims(g, Bno, 1, 0) + TreeClaims(g, Cnt, 2, 0), reflink)
  {
    var cs := TreeClaims(g, Bno, 1, 0) + TreeClaims(g, Cnt, 2, 0);
    assert RecClaims(Bno, [Rec(5, 3)], 1) == [Claim(5, 3, Unknown, Free1)];
    assert RecClaims(Cnt, [Rec(5, 3)], 1) == [Claim(5, 3, Free1, Free2)];
    assert cs == [Claim(1, 1, Unknown, BtBno), Claim(5, 3, Unknown, Free1),
                  Claim(2, 1, Unknown, BtCnt), Claim(5, 3, Free1, Free2)];
    forall k | 0 <= k < |cs|
      ensures Fits(map0, cs, k)
    {
      if k == 3 {
        assert forall b :: 0 <= b < 16 ==> (cs[3].Has(b) ==> OnlyBefore(cs, 1, 3, b));
      }
    }
    AcceptedIff(map0, cs, reflink);
  }

  // ---------------------------------------------------------------------------
  // Data blocks
  // ---------------------------------------------------------------------------

  /** Claims of extents of files. */
  ghost predicate DataClaims(cs: seq<Claim>) {
    forall k :: 0 <= k < |cs| ==> cs[k].from == Unknown && cs[k].to == Data
  }

  /** How many of the first k claims take the block. */
  ghost function Times(cs: seq<Claim>, k: nat, b: nat): nat
    requires k <= |cs|
  {
    if k == 0 then 0 else Times(cs, k - 1, b) + if cs[k - 1].Has(b) then 1 else 0
  }

  /** Claimed once a block is data, claimed more often it is shared data. */
  lemma {:induction false} SharedIfTwice(map0: seq<Dbm>, cs: seq<Claim>, k: nat, b: nat)
    requires DataClaims(cs) && k <= |cs| && b < |map0| && map0[b] == Unknown
    ensures After(map0, cs, k)[b]
         == var n := Times(cs, k, b); if n == 0 then Unknown else if n == 1 then Data else RlData
  {
    if k > 0 { SharedIfTwice(map0, cs, k - 1, b); }
  }

  /** No block is known to be data before. */
  ghost predicate NoData(map0: seq<Dbm>) {
    forall b :: 0 <= b < |map0| ==> map0[b] != Data && map0[b] != RlData
  }

  ghost predicate DataFits(map0: seq<Dbm>, cs: seq<Claim>, k: nat, reflink: bool)
    requires k < |cs|
  {
    && InRange(|map0|, cs[k])
    && forall b :: 0 <= b < |map0| ==>
         (cs[k].Has(b) ==> map0[b] == Unknown && (reflink || Times(cs, k, b) == 0))
  }

  lemma {:induction false} ClaimedWasUnknown(map0: seq<Dbm>, cs: seq<Claim>, k: nat, b: nat, reflink: bool)
    requires DataClaims(cs) && NoData(map0) && Accepted(map0, cs, reflink)
    requires k < |cs| && b < |map0| && cs[k].Has(b)
    ensures map0[b] == Unknown
    decreases k
  {
    if NoneBefore(cs, k, b) {
      NoneBeforeKeeps(map0, cs, k, b);
      assert AcceptedAt(map0, cs, k, reflink);
    } else {
      var i :| 0 <= i < k && cs[i].Has(b);
      ClaimedWasUnknown(map0, cs, i, b, reflink);
    }
  }

  lemma {:induction false} DataClaimAccepted(map0: seq<Dbm>, cs: seq<Claim>, k: nat, reflink: bool)
    requires DataClaims(cs) && k < |cs| && DataFits(map0, cs, k, reflink)
    ensures AcceptedAt(map0, cs, k, reflink)
  {
    forall b | 0 <= b < |map0| && cs[k].Has(b)
      ensures Expected(After(map0, cs, k)[b], Unknown, reflink)
    {
      SharedIfTwice(map0, cs, k, b);
    }
  }

  /**
    Extents of files are accepted if and only if they lie in the group, on blocks nothing else has claimed,
    and with shared extents on any number of times, without them once.
  */
  lemma {:induction false} DataAcceptedIff(map0: seq<Dbm>, cs: seq<Claim>, reflink: bool)
    requires DataClaims(cs) && NoData(map0)
    ensures Accepted(map0, cs, reflink) <==> forall k :: 0 <= k < |cs| ==> DataFits(map0, cs, k, reflink)
  {
    if Accepted(map0, cs, reflink) {
      forall k | 0 <= k < |cs|
        ensures DataFits(map0, cs, k, reflink)
      {
        assert AcceptedAt(map0, cs, k, reflink);
        forall b | 0 <= b < |map0| && cs[k].Has(b)
          ensures map0[b] == Unknown && (reflink || Times(cs, k, b) == 0)
        {
          ClaimedWasUnknown(map0, cs, k, b, reflink);
          SharedIfTwice(map0, cs, k, b);
        }
      }
    }
    if forall k :: 0 <= k < |cs| ==> DataFits(map0, cs, k, reflink) {
      forall k | 0 <= k < |cs|
        ensures AcceptedAt(map0, cs, k, reflink)
      {
        DataClaimAccepted(map0, cs, k, reflink);
      }
    }
  }

  // ---------------------------------------------------------------------------
  // The scan
  // ---------------------------------------------------------------------------

  /** The map and the counters of the group. */
  datatype Tally = Tally(dbmap: seq<Dbm>, freeblks: nat, longest: nat)

  /** From t to t' by these claims without a complaint. */
  ghost predicate Clean(t: Tally, t': Tally, cs: seq<Claim>, reflink: bool) {
    && Accepted(t.dbmap, cs, reflink) && FreeClaims(cs) && t'.dbmap == After(t.dbmap, cs, |cs|)
    && CountersMove(t, t', cs)
  }

  ghost predicate CountersMove(t: Tally, t': Tally, cs: seq<Claim>) {
    && t'.freeblks == (t.freeblks + Total(cs, Free2, |cs|)) % U32
    && t'.longest == Max(t.longest, Longest(cs, Free2, |cs|))
  }

  lemma {:induction false} CleanConcat(t: Tally, t1: Tally, t2: Tally, a: seq<Claim>, b: seq<Claim>, all: seq<Claim>,
                                       reflink: bool)
    requires Clean(t, t1, a, reflink) && Clean(t1, t2, b, reflink) && all == a + b
    ensures Clean(t, t2, all, reflink)
  {
    AcceptedConcat(t.dbmap, a, b, reflink);
    FreeConcat(a, b);
    CountersConcat(t, t1, t2, a, b);
  }

  /**
    A part of the scan, from t to t': it adds no error if and only if the blocks it looks at are sound and
    the map accepts their claims, and then makes just these.
  */
  ghost predicate Outcome(quiet: bool, sound: bool, t: Tally, t': Tally, cs: seq<Claim>, reflink: bool) {
    && (quiet <==> sound && Accepted(t.dbmap, cs, reflink))
    && (quiet ==> Clean(t, t', cs, reflink))
  }

  lemma {:induction false} OutcomeConcat(q1: bool, s1: bool, q2: bool, s2: bool, t: Tally, t1: Tally, t2: Tally,
                                         a: seq<Claim>, b: seq<Claim>, all: seq<Claim>, reflink: bool)
    requires Outcome(q1, s1, t, t1, a, reflink) && Outcome(q2, s2, t1, t2, b, reflink) && all == a + b
    ensures Outcome(q1 && q2, s1 && s2, t, t2, all, reflink)
  {
    if q1 && q2 { CleanConcat(t, t1, t2, a, b, all, reflink); }
    if Accepted(t.dbmap, all, reflink) { AcceptedSplit(t.dbmap, a, b, reflink); }
  }

  lemma {:induction false} OutcomeNone(t: Tally, reflink: bool)
    requires t.freeblks < U32
    ensures Outcome(true, true, t, t, [], reflink)
  {
    CleanNone(t, reflink);
  }

  lemma {:induction false} OutcomeOne(quiet: bool, sound: bool, t: Tally, t': Tally, c: Claim, reflink: bool)
    requires quiet <==> sound && Accepts(t.dbmap, c, reflink)
    requires quiet ==> Clean(t, t', [c], reflink)
    ensures Outcome(quiet, sound, t, t', [c], reflink)
  {
    assert After(t.dbmap, [c], 0) == t.dbmap;
    if Accepted(t.dbmap, [c], reflink) { assert AcceptedAt(t.dbmap, [c], 0, reflink); }
  }

  lemma {:induction false} FreeConcat(a: seq<Claim>, b: seq<Claim>)
    requires FreeClaims(a) && FreeClaims(b)
    ensures FreeClaims(a + b)
  {
  }

  lemma {:induction false} CountersConcat(t: Tally, t1: Tally, t2: Tally, a: seq<Claim>, b: seq<Claim>)
    requires CountersMove(t, t1, a) && CountersMove(t1, t2, b)
    ensures CountersMove(t, t2, a + b)
  {
    SumsConcat(a, b, Free2, |b|);
    WrapAdd(t.freeblks, Total(a, Free2, |a|), Total(b, Free2, |b|));
  }

  lemma {:induction false} WrapAdd(x: nat, y: nat, z: nat)
    ensures ((x + y) % U32 + z) % U32 == (x + (y + z)) % U32
  {
  }

  lemma {:induction false} CleanOne(t: Tally, t': Tally, c: Claim, reflink: bool)
    requires FreeClaim(c) && Accepts(t.dbmap, c, reflink) && t'.dbmap == Marked(t.dbmap, c)
    requires t'.freeblks == (t.freeblks + if c.to == Free2 then c.len else 0) % U32
    requires t'.longest == Max(t.longest, if c.to == Free2 then c.len else 0)
    ensures Clean(t, t', [c], reflink)
  {
    AcceptedOne(t.dbmap, c, reflink);
    assert Total([c], Free2, 1) == Total([c], Free2, 0) + if c.to == Free2 then c.len else 0;
    assert Longest([c], Free2, 0) == 0;
  }

  lemma {:induction false} CleanNone(t: Tally, reflink: bool)
    requires t.freeblks < U32
    ensures Clean(t, t, [], reflink)
  {
  }

  /** What a clean scan of both trees says about the map and the counters. */
  ghost predicate Agrees(t: Tally, t': Tally, cs: seq<Claim>, reflink: bool) {
    && Accepted(t.dbmap, cs, reflink) && FreeClaims(cs) && t'.dbmap == After(t.dbmap, cs, |cs|)
    && t'.freeblks == CountTo(t'.dbmap, Free2, |t'.dbmap|) == Total(cs, Free2, |cs|)
    && t'.longest == Longest(cs, Free2, |cs|)
  }

  lemma {:induction false} CleanAgrees(t: Tally, t': Tally, cs: seq<Claim>, reflink: bool)
    requires Clean(t, t', cs, reflink) && NoFree(t.dbmap) && t.freeblks == t.longest == 0 && |t.dbmap| < U32
    ensures Agrees(t, t', cs, reflink)
  {
    FreeBlocksCounted(t.dbmap, cs, reflink);
  }

  /** The order of the records is part of their soundness. */
  lemma {:induction false} OutcomeOrder(quiet: bool, sound: bool, rises: bool, t: Tally, t': Tally, cs: seq<Claim>,
                                        reflink: bool)
    requires Outcome(quiet, sound, t, t', cs, reflink)
    ensures Outcome(quiet && rises, sound && rises, t, t', cs, reflink)
  {
  }

  lemma {:induction false} AscendMore(recs: seq<Rec>, i: nat)
    requires i < |recs|
    ensures AscendTo(recs, i + 1) <==> AscendTo(recs, i) && recs[i].start > LastStart(recs, i)
  {
  }

  /** Everything in the trees is 32-bit. */
  ghost predicate GroupOk(g: Group) {
    forall bno :: bno in g.disk ==>
      && bno < U32
      && (forall i :: 0 <= i < |g.disk[bno].recs| ==>
            g.disk[bno].recs[i].start < U32 && g.disk[bno].recs[i].count < U32)
  }

  class Checker {
    const g: Group
    const reflink: bool
    const dbmap: array<Dbm>
    var error: nat
    var serious: nat
    var freeblks: nat
    var longest: nat

    ghost predicate Valid()
      reads this
    {
      dbmap.Length < U32 && freeblks < U32 && GroupOk(g)
    }

    ghost function Now(): Tally
      reads this, dbmap
    {
      Tally(dbmap[..], freeblks, longest)
    }

    constructor (g: Group, reflink: bool, dbmap: array<Dbm>)
      requires dbmap.Length < U32 && GroupOk(g)
      ensures Valid() && this.g == g && this.reflink == reflink && this.dbmap == dbmap
      ensures error == serious == freeblks == longest == 0
    {
      this.g, this.reflink, this.dbmap := g, reflink, dbmap;
      error, serious, freeblks, longest := 0, 0, 0, 0;
    }

    /**
      check_range, without the messages: a range that is not empty at block 0 passes if it ends inside the
      group, or if its end wraps around to a place inside the group.
    */
    method CheckRange(start: nat, len: nat) returns (ok: bool)
      requires start < U32 && len < U32 && dbmap.Length < U32
      modifies `error
      ensures ok <==> 0 < start + len <= dbmap.Length || 0 < start + len - 0x1_0000_0000 <= dbmap.Length
      ensures error == old(error) + if ok then 0 else 1
    {
      ok := (start + len - 1) % U32 < dbmap.Length;
      if !ok { error := error + 1; }
    }

    /** check_dbmap */
    method CheckDbmap(start: nat, len: nat, from: Dbm, lenient: bool)
      requires start < U32 && len < U32 && dbmap.Length < U32
      modifies `error
      ensures error >= old(error)
      ensures error == old(error) <==>
              && (len > 0 ==> start + len <= dbmap.Length)
              && (forall b :: 0 <= b < dbmap.Length && start <= b < start + len ==> Expected(dbmap[b], from, lenient))
    {
      var i, stop := 0, false;
      while i < len && !stop
        invariant 0 <= i <= len && (i > 0 ==> start + i <= dbmap.Length) && error >= old(error)
        invariant stop ==> i < len && error > old(error) && start + i >= dbmap.Length
        invariant !stop ==>
          (error == old(error) <==>
           forall b :: 0 <= b < dbmap.Length && start <= b < start + i ==> Expected(dbmap[b], from, lenient))
        decreases len - i, !stop
      {
        if (start + i) % U32 >= dbmap.Length {
          error, stop := error + 1, true;
        } else {
          if !Expected(dbmap[start + i], from, lenient) { error := error + 1; }
          i := i + 1;
        }
      }
    }

    /** check_set_dbmap: complains exactly when the claim does not find what it expects, and marks the blocks anyway. */
    method CheckSetDbmap(start: nat, len: nat, from: Dbm, to: Dbm)
      requires start < U32 && len < U32 && dbmap.Length < U32
      modifies `error, dbmap
      ensures error >= old(error)
      ensures error == old(error) <==> Accepts(old(dbmap[..]), Claim(start, len, from, to), reflink)
      ensures dbmap[..] == if RangeOk(dbmap.Length, start, len) then Marked(old(dbmap[..]), Claim(start, len, from, to))
                           else old(dbmap[..])
    {
      ghost var c := Claim(start, len, from, to);
      ghost var was := dbmap[..];
      RangeOkIs(dbmap.Length, start, len);
      var ok := CheckRange(start, len);
      if !ok {
        assert dbmap[..] == was;
        return;
      }
      CheckDbmap(start, len, from, Lenient(reflink, to));
      ghost var error1 := error;
      var i, stop := 0, false;
      while i < len && !stop
        invariant 0 <= i <= len && (i > 0 ==> start + i <= dbmap.Length) && error >= error1
        invariant stop ==> i < len && start + i >= dbmap.Length
        invariant error == error1 <==> !stop
        invariant forall b :: 0 <= b < dbmap.Length ==>
                    dbmap[b] == if start <= b < start + i then Become(old(dbmap[b]), to) else old(dbmap[b])
        decreases len - i, !stop
      {
        if (start + i) % U32 >= dbmap.Length {
          error, stop := error + 1, true;
        } else {
          dbmap[start + i] := Become(dbmap[start + i], to);
          i := i + 1;
        }
      }
      assert dbmap[..] == Marked(was, c);
    }

    /** One record of a leaf. */
    method ScanRecord(kind: Kind, r: Rec)
      requires Valid() && r.start < U32 && r.count < U32
      modifies this, dbmap
      ensures Valid() && error >= old(error) && serious == old(serious)
      ensures Outcome(error == old(error), true, old(Now()), Now(), [RecClaim(kind, r)], reflink)
    {
      if kind == Bno {
        CheckSetDbmap(r.start, r.count, Unknown, Free1);
      } else {
        CheckSetDbmap(r.start, r.count, Free1, Free2);
        freeblks := (freeblks + r.count) % U32;
        if r.count > longest { longest := r.count; }
      }
      if error == old(error) {
        CleanOne(old(Now()), Now(), RecClaim(kind, r), reflink);
      }
      OutcomeOne(error == old(error), true, old(Now()), Now(), RecClaim(kind, r), reflink);
    }

    /** One more record, after these claims; of by-block records also the order is checked. */
    method ScanNext(kind: Kind, r: Rec, lastblock: nat, ghost t0: Tally, ghost cs: seq<Claim>, ghost quiet: bool,
                    ghost sound: bool)
      returns (lastblock': nat)
      requires Valid() && r.start < U32 && r.count < U32 && Outcome(quiet, sound, t0, Now(), cs, reflink)
      modifies this, dbmap
      ensures Valid() && error >= old(error) && serious >= old(serious)
      ensures var rises := kind == Bno ==> r.start > lastblock;
              && (kind == Bno && rises ==> lastblock' == r.start)
              && Outcome(quiet && error == old(error) && serious == old(serious), sound && rises, t0, Now(),
                         cs + [RecClaim(kind, r)], reflink)
    {
      ghost var t1 := Now();
      ScanRecord(kind, r);
      ghost var all := cs + [RecClaim(kind, r)];
      OutcomeConcat(quiet, sound, error == old(error), true, t0, t1, Now(), cs, [RecClaim(kind, r)], all, reflink);
      OutcomeOrder(quiet && error == old(error), sound, kind == Bno ==> r.start > lastblock, t0, Now(), all, reflink);
      lastblock' := lastblock;
      if kind == Bno {
        if r.start <= lastblock { serious := serious + 1; } else { lastblock' := r.start; }
      }
    }

    /** The leaf loops of scanfunc_bno and scanfunc_cnt; only the by-block tree complains about the order. */
    method ScanLeaf(kind: Kind, recs: seq<Rec>)
      requires Valid() && forall i :: 0 <= i < |recs| ==> recs[i].start < U32 && recs[i].count < U32
      modifies this, dbmap
      ensures Valid() && error >= old(error) && serious >= old(serious)
      ensures Outcome(error == old(error) && serious == old(serious), kind == Bno ==> AscendTo(recs, |recs|),
                      old(Now()), Now(), RecClaims(kind, recs, |recs|), reflink)
    {
      var i, lastblock := 0, 0;
      ghost var t0, t, quiet, sound := Now(), Now(), true, true;
      OutcomeNone(t0, reflink);
      while i < |recs|
        invariant 0 <= i <= |recs| && Valid() && error >= old(error) && serious >= old(serious) && t == Now()
        invariant quiet == (error == old(error) && serious == old(serious))
        invariant sound == (kind == Bno ==> AscendTo(recs, i))
        invariant kind == Bno && sound ==> lastblock == LastStart(recs, i)
        invariant Outcome(quiet, sound, t0, t, RecClaims(kind, recs, i), reflink)
      {
        ghost var error1, serious1, last1 := error, serious, lastblock;
        lastblock := ScanNext(kind, recs[i], lastblock, t0, RecClaims(kind, recs, i), quiet, sound);
        AscendMore(recs, i);
        quiet := quiet && error == error1 && serious == serious1;
        t, sound := Now(), sound && (kind == Bno ==> recs[i].start > last1);
        i := i + 1;
      }
    }

    /** scan_sbtree; a tree of no levels never passes, and only its root is looked at here. */
    method ScanTree(kind: Kind, root: nat, nlevels: nat, isRoot: bool)
      requires Valid()
      modifies this, dbmap
      ensures Valid() && error >= old(error) && serious >= old(serious)
      ensures nlevels == 0 ==> !(error == old(error) && serious == old(serious))
      ensures nlevels > 0 ==>
                Outcome(error == old(error) && serious == old(serious), SoundTree(g, kind, root, nlevels - 1, isRoot),
                        old(Now()), Now(), TreeClaims(g, kind, root, nlevels - 1), reflink)
      decreases nlevels, 0
    {
      if root !in g.disk {
        error := error + 1;
      } else if nlevels > 0 {
        ScanBlock(kind, root, g.disk[root], nlevels - 1, isRoot);
      } else if g.disk[root].magic != MagicOf(kind) {
        serious := serious + 1;
      } else {
        MarkTreeBlock(kind, root, g.disk[root], -1);
      }
    }

    /** The tree block itself: its level is checked and it is claimed. */
    method MarkTreeBlock(kind: Kind, bno: nat, block: Block, level: int)
      requires Valid() && bno < U32
      modifies this, dbmap
      ensures Valid() && error >= old(error) && serious == old(serious)
      ensures Outcome(error == old(error), block.level == level, old(Now()), Now(),
                      [Claim(bno, 1, Unknown, TreeType(kind))], reflink)
    {
      if block.level != level { error := error + 1; }
      CheckSetDbmap(bno, 1, Unknown, TreeType(kind));
      ghost var c := Claim(bno, 1, Unknown, TreeType(kind));
      if error == old(error) { CleanOne(old(Now()), Now(), c, reflink); }
      OutcomeOne(error == old(error), block.level == level, old(Now()), Now(), c, reflink);
    }

    /** scanfunc_bno and scanfunc_cnt, which differ in the magic number, the types and the treatment of records. */
    method ScanBlock(kind: Kind, bno: nat, block: Block, level: nat, isRoot: bool)
      requires Valid() && bno in g.disk && block == g.disk[bno]
      modifies this, dbmap
      ensures Valid() && error >= old(error) && serious >= old(serious)
      ensures Outcome(error == old(error) && serious == old(serious), SoundTree(g, kind, bno, level, isRoot),
                      old(Now()), Now(), TreeClaims(g, kind, bno, level), reflink)
      decreases level, 3
    {
      if block.magic != MagicOf(kind) {
        serious := serious + 1;
        return;
      }
      MarkTreeBlock(kind, bno, block, level);
      ghost var c, t1, quiet1 := Claim(bno, 1, Unknown, TreeType(kind)), Now(), error == old(error);
      ghost var error1, serious1 := error, serious;
      ScanEntries(kind, block, level, isRoot);
      OutcomeConcat(quiet1, block.level == level, error == error1 && serious == serious1,
                    SoundEntries(g, kind, block, level, isRoot), old(Now()), t1, Now(), [c],
                    EntryClaims(g, kind, block, level), TreeClaims(g, kind, bno, level), reflink);
    }

    /** The records or pointers of a block, unless there are too many or too few of them. */
    method ScanEntries(kind: Kind, block: Block, level: nat, isRoot: bool)
      requires Valid() && block in g.disk.Values
      modifies this, dbmap
      ensures Valid() && error >= old(error) && serious >= old(serious)
      ensures Outcome(error == old(error) && serious == old(serious), SoundEntries(g, kind, block, level, isRoot),
                      old(Now()), Now(), EntryClaims(g, kind, block, level), reflink)
      decreases level, 2
    {
      if level == 0 {
        if |block.recs| > g.maxRecs || (!isRoot && |block.recs| < g.minRecs) {
          serious := serious + 1;
          return;
        }
        ScanLeaf(kind, block.recs);
      } else {
        if |block.ptrs| > g.maxPtrs || (!isRoot && |block.ptrs| < g.minPtrs) {
          serious := serious + 1;
          return;
        }
        ScanChildren(kind, block.ptrs, level);
      }
    }

    /** The loop over the pointers of a node. */
    method ScanChildren(kind: Kind, ptrs: seq<nat>, level: nat)
      requires Valid() && level > 0
      modifies this, dbmap
      ensures Valid() && error >= old(error) && serious >= old(serious)
      ensures Outcome(error == old(error) && serious == old(serious), SoundChildren(g, kind, ptrs, level - 1, |ptrs|),
                      old(Now()), Now(), ChildClaims(g, kind, ptrs, level - 1, |ptrs|), reflink)
      decreases level, 1
    {
      var i := 0;
      ghost var t0, t := Now(), Now();
      ghost var quiet := true;
      OutcomeNone(t0, reflink);
      while i < |ptrs|
        invariant 0 <= i <= |ptrs| && Valid() && error >= old(error) && serious >= old(serious) && t == Now()
        invariant quiet == (error == old(error) && serious == old(serious))
        invariant Outcome(quiet, SoundChildren(g, kind, ptrs, level - 1, i), t0, t,
                          ChildClaims(g, kind, ptrs, level - 1, i), reflink)
      {
        ghost var t1, error1, serious1 := t, error, serious;
        ScanTree(kind, ptrs[i], level, false);
        t := Now();
        OutcomeConcat(quiet, SoundChildren(g, kind, ptrs, level - 1, i), error == error1 && serious == serious1,
                      SoundTree(g, kind, ptrs[i], level - 1, false), t0, t1, t,
                      ChildClaims(g, kind, ptrs, level - 1, i), TreeClaims(g, kind, ptrs[i], level - 1),
                      ChildClaims(g, kind, ptrs, level - 1, i + 1), reflink);
        quiet := quiet && error == error1 && serious == serious1;
        i := i + 1;
      }
    }

    /**
      The free-space part of scan_ag. It adds no error if and only if both trees are sound and their claims
      fit together; then OneOfEachTree and CountRecordsDisjoint apply, the free-block counter is the number
      of blocks left Free2, and the longest extent is that of the by-count records.
    */
    method ScanFreeSpace(bnoRoot: nat, bnoLevels: nat, cntRoot: nat, cntLevels: nat)
      requires Valid() && freeblks == longest == 0 && NoFree(dbmap[..])
      modifies this, dbmap
      ensures Valid() && error >= old(error) && serious >= old(serious)
      ensures bnoLevels == 0 || cntLevels == 0 ==> !(error == old(error) && serious == old(serious))
      ensures bnoLevels > 0 && cntLevels > 0 ==>
                var cs := TreeClaims(g, Bno, bnoRoot, bnoLevels - 1) + TreeClaims(g, Cnt, cntRoot, cntLevels - 1);
                && (error == old(error) && serious == old(serious) <==>
                      && SoundTree(g, Bno, bnoRoot, bnoLevels - 1, true)
                      && SoundTree(g, Cnt, cntRoot, cntLevels - 1, true)
                      && Accepted(old(dbmap[..]), cs, reflink))
                && (error == old(error) && serious == old(serious) ==> Agrees(old(Now()), Now(), cs, reflink))
    {
      ghost var t0 := Now();
      ScanTree(Bno, bnoRoot, bnoLevels, true);
      ghost var t1, error1, serious1 := Now(), error, serious;
      ScanTree(Cnt, cntRoot, cntLevels, true);
      if bnoLevels > 0 && cntLevels > 0 {
        ghost var a, b := TreeClaims(g, Bno, bnoRoot, bnoLevels - 1), TreeClaims(g, Cnt, cntRoot, cntLevels - 1);
        OutcomeConcat(error1 == old(error) && serious1 == old(serious), SoundTree(g, Bno, bnoRoot, bnoLevels - 1, true),
                      error == error1 && serious == serious1, SoundTree(g, Cnt, cntRoot, cntLevels - 1, true), t0, t1,
                      Now(), a, b, a + b, reflink);
        if error == old(error) && serious == old(serious) { CleanAgrees(t0, Now(), a + b, reflink); }
      }
    }
  }
}
