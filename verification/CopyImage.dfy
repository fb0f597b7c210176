/**
  What ends up on a target of xfs_copy (copy/xfs_copy.c): the main pass over all AGs with the
  superblock marked in progress, the final superblock pass, and the image that both leave behind.
*/
module CopyImage {
  import opened Arith
  import opened CopyPlan
  import opened CopyProtocol
  import opened Superblock

  /** The bytes of a device. */
  type Image = int -> bv8

  function FromSource(source: Image, r: Range): seq<bv8> {
    seq(r.len, k => source(r.pos + k))
  }

  predicate Touches(b: Buffer, x: int) { b.position <= x < b.position + |b.data| }

  function Write(img: Image, b: Buffer): Image {
    (x: int) => if Touches(b, x) then b.data[x - b.position] else img(x)
  }

  /** The device after a sequence of writes. */
  function After(img: Image, bs: seq<Buffer>): Image {
    if bs == [] then img else Write(After(img, bs[..|bs| - 1]), bs[|bs| - 1])
  }

  ghost predicate Touched(bs: seq<Buffer>, x: int) {
    exists k :: 0 <= k < |bs| && Touches(bs[k], x)
  }

  /** An AG as the copy sees it: its geometry and the leaves of its by-block free-space tree. */
  datatype Ag = Ag(g: Geometry, leaves: seq<seq<FreeRec>>) {
    ghost predicate Valid() { g.Valid() && GoodRecords(g, Flatten(leaves)) && Header(g).len <= g.bufSize }

    /** A byte of this AG that the copy must carry over. */
    ghost predicate Holds(x: int) {
      BBSIZE * g.agStart <= x < BBSIZE * g.AgEnd() && !Free(g, Flatten(leaves), x)
    }
  }

  /** AG 0 starts the disk, and no other AG starts within the first I/O unit. */
  ghost predicate ValidDisk(ags: seq<Ag>) {
    && |ags| > 0
    && ags[0].g.agStart == 0
    && (forall j :: 0 <= j < |ags| ==> ags[j].Valid())
    && (forall j :: 1 <= j < |ags| ==> ags[j].g.minIoSectors <= ags[j].g.agStart)
  }

  /**
    The superblock of AG 0 survives the data copies of AG 0: there is no free extent, or the last one
    ends past the first I/O unit.
  */
  predicate SuperblockSafe(ag: Ag)
    requires ag.g.Valid()
  {
    var recs := Flatten(ag.leaves);
    recs == [] || ag.g.minIoSectors <= LastEnd(ag.g, recs)
  }

  /** A buffer of the main pass: source data, but the very first write has the in-progress byte set. */
  ghost predicate Faithful(source: Image, b: Buffer, first: bool) {
    && b.position >= 0
    && forall k :: 0 <= k < |b.data| ==>
                     b.data[k] == if first && b.position + k == INPROGRESS then 1 else source(b.position + k)
  }

  // ---------------------------------------------------------------------------
  // The main pass
  // ---------------------------------------------------------------------------

  /** What the buffers of the first n AGs achieve. */
  ghost predicate MainPass(source: Image, ags: seq<Ag>, n: nat, bs: seq<Buffer>)
    requires n <= |ags| && forall j :: 0 <= j < |ags| ==> ags[j].g.Valid()
  {
    && (forall k :: 0 <= k < |bs| ==> Faithful(source, bs[k], k == 0))
    && (forall j, x :: 0 <= j < n && ags[j].Holds(x) ==> Touched(bs, x))
    && (n == 0 ==> bs == [])
    && (n > 0 ==> bs != [] && Touches(bs[0], INPROGRESS))
    && (n > 0 ==> (SuperblockSafe(ags[0]) <==> forall k :: 1 <= k < |bs| ==> !Touches(bs[k], INPROGRESS)))
  }

  /** Turns the ranges of one AG into buffers; for the first write of AG 0 it sets sb_inprogress. */
  method FillBuffers(source: Image, writes: seq<Range>, markFirst: bool) returns (bs: seq<Buffer>)
    ensures |bs| == |writes|
    ensures forall k :: 0 <= k < |bs| ==>
                          && bs[k].position == writes[k].pos && |bs[k].data| == writes[k].len
                          && Faithful(source, bs[k], markFirst && k == 0)
  {
    bs := [];
    for i := 0 to |writes|
      invariant |bs| == i
      invariant forall k :: 0 <= k < i ==>
                              && bs[k].position == writes[k].pos && |bs[k].data| == writes[k].len
                              && Faithful(source, bs[k], markFirst && k == 0)
    {
      var data := FromSource(source, writes[i]);
      if markFirst && i == 0 && 0 <= INPROGRESS - writes[i].pos < |data| {
        data := data[INPROGRESS - writes[i].pos := 1];
      }
      bs := bs + [Buffer(writes[i].pos, data)];
    }
  }

  lemma {:induction false} LowestCopyOfAg0(g: Geometry, recs: seq<FreeRec>)
    requires g.Valid() && GoodRecords(g, recs) && g.agStart == 0
    ensures recs == [] || g.minIoSectors <= LastEnd(g, recs) ==> LowestCopy(g, recs) > INPROGRESS
    ensures recs != [] && LastEnd(g, recs) < g.minIoSectors ==> !TailClear(g, recs) && LowestCopy(g, recs) == 0
  {
    HeaderEndFacts(g);
    HeaderReach(g);
    if recs != [] {
      var last, m := LastEnd(g, recs), g.minIoSectors;
      RoundDownFacts(last, m);
      if m <= last {
        assert m % m == 0;
        RoundDownAbove(m, last, m);
      } else {
        MulDivMod(0, m, last);
        MultipleAtLeast(HeaderEnd(g), m);
      }
    }
  }

  /** The header is at least one sector and one I/O unit long. */
  lemma {:induction false} HeaderReach(g: Geometry)
    requires g.Valid() && g.agStart == 0
    ensures Header(g).pos == 0 && INPROGRESS < Header(g).End() && 0 < HeaderEnd(g) && 0 < g.AgEnd()
  {
    HeaderFacts(g);
    HeaderEndFacts(g);
    assert g.headerBlocks * g.blockSectors >= 1 by { MulAtLeast(g.headerBlocks, g.blockSectors); }
    assert g.agLength * g.blockSectors >= 1 by { MulAtLeast(g.agLength, g.blockSectors); }
  }

  /** In AG 0 a data copy reaches the in-progress byte exactly when the superblock is not safe. */
  lemma {:induction false} Ag0Copies(ag: Ag, writes: seq<Range>)
    requires ag.Valid() && ag.g.agStart == 0 && AgCopied(ag.g, Flatten(ag.leaves), writes)
    ensures writes[0].Has(INPROGRESS)
    ensures SuperblockSafe(ag) <==> forall k :: 1 <= k < |writes| ==> !writes[k].Has(INPROGRESS)
  {
    var g, recs := ag.g, Flatten(ag.leaves);
    HeaderReach(g);
    LowestCopyOfAg0(g, recs);
    if !SuperblockSafe(ag) {
      var k :| 1 <= k < |writes| && writes[k].pos == LowestCopy(g, recs);
      assert DataChunk(g, writes[k]);
      assert g.MinIo() <= writes[k].len by { MultipleAtLeast(writes[k].len, g.MinIo()); }
      assert writes[k].Has(INPROGRESS);
    }
  }

  /** The other AGs stay away from the superblock of AG 0. */
  lemma {:induction false} OtherAgCopies(ag: Ag, writes: seq<Range>, k: nat)
    requires ag.Valid() && ag.g.minIoSectors <= ag.g.agStart && AgCopied(ag.g, Flatten(ag.leaves), writes)
    requires k < |writes|
    ensures INPROGRESS < writes[k].pos
  {
    var g := ag.g;
    HeaderFacts(g);
    assert g.MinIo() % g.MinIo() == 0;
    RoundDownAbove(g.MinIo(), BBSIZE * g.agStart, g.MinIo());
    if k > 0 { assert DataChunk(g, writes[k]); }
  }

  lemma {:induction false} TouchedConcat(a: seq<Buffer>, b: seq<Buffer>, x: int)
    ensures Touched(a + b, x) <==> Touched(a, x) || Touched(b, x)
  {
    if Touched(a, x) {
      var k :| 0 <= k < |a| && Touches(a[k], x);
      assert Touches((a + b)[k], x);
    }
    if Touched(b, x) {
      var k :| 0 <= k < |b| && Touches(b[k], x);
      assert Touches((a + b)[|a| + k], x);
    }
  }

  /** Adding the buffers of AG n. */
  lemma {:induction false} MainPassStep(source: Image, ags: seq<Ag>, n: nat, bs: seq<Buffer>, writes: seq<Range>,
                                        more: seq<Buffer>)
    requires ValidDisk(ags) && n < |ags| && MainPass(source, ags, n, bs)
    requires AgCopied(ags[n].g, Flatten(ags[n].leaves), writes) && |more| == |writes|
    requires forall k :: 0 <= k < |more| ==>
                           && more[k].position == writes[k].pos && |more[k].data| == writes[k].len
                           && Faithful(source, more[k], n == 0 && k == 0)
    ensures MainPass(source, ags, n + 1, bs + more)
  {
    FaithfulConcat(source, bs, more, n == 0);
    MoreTouched(ags, n, bs, writes, more);
    if n > 0 {
      OthersAfter(ags, n, bs, writes, more);
    } else {
      FirstTouched(ags, writes, more);
      assert bs + more == more;
    }
  }

  /** The buffers of AG 0: its header first, and nothing else on the in-progress byte exactly when it is safe. */
  lemma {:induction false} FirstTouched(ags: seq<Ag>, writes: seq<Range>, more: seq<Buffer>)
    requires ValidDisk(ags) && AgCopied(ags[0].g, Flatten(ags[0].leaves), writes) && |more| == |writes|
    requires forall k :: 0 <= k < |more| ==> more[k].position == writes[k].pos && |more[k].data| == writes[k].len
    ensures more != [] && Touches(more[0], INPROGRESS)
    ensures SuperblockSafe(ags[0]) <==> forall k :: 1 <= k < |more| ==> !Touches(more[k], INPROGRESS)
  {
    Ag0Copies(ags[0], writes);
    forall k | 0 <= k < |more|
      ensures Touches(more[k], INPROGRESS) <==> writes[k].Has(INPROGRESS)
    {
      assert more[k].position == writes[k].pos && |more[k].data| == writes[k].len;
    }
  }

  /** The buffers of the other AGs stay off the in-progress byte. */
  lemma {:induction false} OthersAfter(ags: seq<Ag>, n: nat, bs: seq<Buffer>, writes: seq<Range>, more: seq<Buffer>)
    requires ValidDisk(ags) && 0 < n < |ags| && AgCopied(ags[n].g, Flatten(ags[n].leaves), writes)
    requires |more| == |writes| && bs != []
    requires forall k :: 0 <= k < |more| ==> more[k].position == writes[k].pos && |more[k].data| == writes[k].len
    ensures (bs + more)[0] == bs[0]
    ensures (forall k :: 1 <= k < |bs + more| ==> !Touches((bs + more)[k], INPROGRESS))
       <==> (forall k :: 1 <= k < |bs| ==> !Touches(bs[k], INPROGRESS))
  {
    forall k | 0 <= k < |more|
      ensures !Touches(more[k], INPROGRESS)
    {
      OtherAgCopies(ags[n], writes, k);
      assert more[k].position == writes[k].pos;
    }
    SafeAfter(bs, more);
  }

  lemma {:induction false} FaithfulConcat(source: Image, bs: seq<Buffer>, more: seq<Buffer>, first: bool)
    requires first ==> bs == []
    requires !first ==> bs != []
    requires forall k :: 0 <= k < |bs| ==> Faithful(source, bs[k], k == 0)
    requires forall k :: 0 <= k < |more| ==> Faithful(source, more[k], first && k == 0)
    ensures forall k :: 0 <= k < |bs + more| ==> Faithful(source, (bs + more)[k], k == 0)
  {
    forall k | 0 <= k < |bs + more|
      ensures Faithful(source, (bs + more)[k], k == 0)
    {
      if k < |bs| { assert (bs + more)[k] == bs[k]; } else { assert (bs + more)[k] == more[k - |bs|]; }
    }
  }

  lemma {:induction false} MoreTouched(ags: seq<Ag>, n: nat, bs: seq<Buffer>, writes: seq<Range>, more: seq<Buffer>)
    requires ValidDisk(ags) && n < |ags| && AgCopied(ags[n].g, Flatten(ags[n].leaves), writes) && |more| == |writes|
    requires forall k :: 0 <= k < |more| ==> more[k].position == writes[k].pos && |more[k].data| == writes[k].len
    requires forall j, x :: 0 <= j < n && ags[j].Holds(x) ==> Touched(bs, x)
    ensures forall j, x :: 0 <= j < n + 1 && ags[j].Holds(x) ==> Touched(bs + more, x)
  {
    forall j, x | 0 <= j < n + 1 && ags[j].Holds(x)
      ensures Touched(bs + more, x)
    {
      TouchedConcat(bs, more, x);
      if j == n {
        var k :| 0 <= k < |writes| && writes[k].Has(x);
        assert Touches(more[k], x);
      }
    }
  }

  lemma {:induction false} SafeAfter(bs: seq<Buffer>, more: seq<Buffer>)
    requires bs != [] && forall k :: 0 <= k < |more| ==> !Touches(more[k], INPROGRESS)
    ensures (forall k :: 1 <= k < |bs + more| ==> !Touches((bs + more)[k], INPROGRESS))
       <==> (forall k :: 1 <= k < |bs| ==> !Touches(bs[k], INPROGRESS))
  {
    if forall k :: 1 <= k < |bs + more| ==> !Touches((bs + more)[k], INPROGRESS) {
      forall k | 1 <= k < |bs|
        ensures !Touches(bs[k], INPROGRESS)
      {
        assert (bs + more)[k] == bs[k];
      }
    }
  }

  /** The AG loop of main. */
  method CopyAllAgs(source: Image, ags: seq<Ag>) returns (aborted: bool, bs: seq<Buffer>)
    requires ValidDisk(ags)
    ensures !aborted && MainPass(source, ags, |ags|, bs)
  {
    aborted, bs := false, [];
    var n := 0;
    while n < |ags| && !aborted
      invariant 0 <= n <= |ags| && !aborted
      invariant MainPass(source, ags, n, bs)
    {
      var writes;
      aborted, writes := CopyAg(ags[n].g, ags[n].leaves);
      var more := FillBuffers(source, writes, n == 0);
      MainPassStep(source, ags, n, bs, writes, more);
      bs := bs + more;
      n := n + 1;
    }
  }

  // ---------------------------------------------------------------------------
  // The final pass
  // ---------------------------------------------------------------------------

  /** The writes after the main pass: only the last one reaches the in-progress byte, and clears it. */
  ghost predicate FinalPass(finals: seq<Buffer>) {
    && finals != []
    && (forall k :: 0 <= k < |finals| - 1 ==> !Touches(finals[k], INPROGRESS))
    && var last := finals[|finals| - 1];
       Touches(last, INPROGRESS) && last.data[INPROGRESS - last.position] == 0
  }

  /** Where the superblock is in the buffer that holds the header. */
  function SuperblockAt(g: Geometry): int
    requires g.Valid()
  {
    BBSIZE * g.agStart - Header(g).pos
  }

  /** A sector is no larger than a block, so that the header holds it. */
  ghost predicate ValidMount(mount: Mount, ags: seq<Ag>) {
    mount.Valid() && forall j :: 0 <= j < |ags| ==> mount.sectSize <= BBSIZE * ags[j].g.blockSectors
  }

  lemma {:induction false} HeaderHoldsSuperblock(ag: Ag, mount: Mount)
    requires ag.Valid() && mount.Valid() && mount.sectSize <= BBSIZE * ag.g.blockSectors
    ensures 0 <= SuperblockAt(ag.g) && SuperblockAt(ag.g) + mount.sectSize <= Header(ag.g).len
  {
    HeaderFacts(ag.g);
    assert ag.g.headerBlocks * ag.g.blockSectors >= ag.g.blockSectors by {
      MulAtLeast(ag.g.headerBlocks, ag.g.blockSectors);
    }
  }

  /** The header as it is read again, with sb_inprogress cleared in AG 0. */
  function Reread(source: Image, ag: Ag, first: bool): (data: seq<bv8>)
    requires ag.g.Valid()
    ensures |data| == Header(ag.g).len
    ensures forall k :: 0 <= k < |data| ==>
              data[k] == if first && k == SuperblockAt(ag.g) + INPROGRESS then 0 else source(Header(ag.g).pos + k)
  {
    var data := FromSource(source, Header(ag.g));
    var i := SuperblockAt(ag.g) + INPROGRESS;
    if first && 0 <= i < |data| then data[i := 0] else data
  }

  /** The header of this AG once more, with the superblock updated for the target. */
  ghost predicate ClosingWrite(source: Image, ag: Ag, first: bool, mount: Mount, uuid: seq<bv8>, renamed: bool,
                               b: Buffer)
    requires ag.g.Valid() && |uuid| == UUID_SIZE
  {
    var data, at := Reread(source, ag, first), SuperblockAt(ag.g);
    && b.position == Header(ag.g).pos
    && 0 <= at && Inside(mount, data, at) && UpdatedFrom(mount, uuid, renamed, at, data, b.data)
  }

  /** How many superblocks are rewritten. */
  function Rewritten(ags: seq<Ag>, duplicate: bool): nat { if duplicate then 1 else |ags| }

  /** What the closing writes to one target depend on: its UUID and the log it gets; `renamed` as in UpdatedFrom. */
  datatype Finish = Finish(duplicate: bool, mount: Mount, uuid: seq<bv8>, renamed: bool, log: seq<Buffer>)

  /** The closing writes: the new log unless duplicating, then the superblocks backwards. */
  ghost predicate Closing(source: Image, ags: seq<Ag>, f: Finish, finals: seq<Buffer>) {
    && ValidDisk(ags) && ValidMount(f.mount, ags) && |f.uuid| == UUID_SIZE && (f.duplicate ==> f.log == [])
    && var n := Rewritten(ags, f.duplicate);
       && |finals| == |f.log| + n && f.log <= finals
       && forall j :: 0 <= j < n ==> CloseOf(source, ags, f, finals, j)
  }

  ghost predicate CloseOf(source: Image, ags: seq<Ag>, f: Finish, finals: seq<Buffer>, j: nat)
    requires |f.uuid| == UUID_SIZE && j < |ags| && j < |finals| && ags[j].g.Valid()
  {
    ClosingWrite(source, ags[j], j == 0, f.mount, f.uuid, f.renamed, finals[|finals| - 1 - j])
  }

  /** The last of them clears the in-progress byte, and no other reaches it exactly when the log stays off it. */
  lemma {:induction false} ClosingIsFinal(source: Image, ags: seq<Ag>, f: Finish, finals: seq<Buffer>)
    requires Closing(source, ags, f, finals)
    ensures FinalPass(finals) <==> !Touched(f.log, INPROGRESS)
  {
    var n := |finals|;
    HeaderReach(ags[0].g);
    assert CloseOf(source, ags, f, finals, 0);
    forall k | 0 <= k < n - 1
      ensures Touches(finals[k], INPROGRESS) ==> k < |f.log| && finals[k] == f.log[k]
    {
      var j := n - 1 - k;
      if j < Rewritten(ags, f.duplicate) {
        assert CloseOf(source, ags, f, finals, j);
        HeaderBeyond(ags[j]);
      }
    }
    assert forall k :: 0 <= k < |f.log| ==> finals[k] == f.log[k];
  }

  /** Some target up to the j-th has a UUID of its own where the metadata's has to be remembered. */
  ghost predicate RenamedBy(mount: Mount, uuids: seq<seq<bv8>>, j: nat) {
    exists t :: 0 <= t <= j && t < |uuids| && mount.Renames(uuids[t])
  }

  /** One superblock for all targets in turn: read once, and updated in place for each. */
  method CloseSuperblock(source: Image, ag: Ag, first: bool, mount: Mount, uuids: seq<seq<bv8>>)
    returns (bs: seq<Buffer>)
    requires ag.Valid() && mount.Valid() && mount.sectSize <= BBSIZE * ag.g.blockSectors
    requires forall j :: 0 <= j < |uuids| ==> |uuids[j]| == UUID_SIZE
    ensures |bs| == |uuids| && forall j :: 0 <= j < |bs| ==> ClosingFor(source, ag, first, mount, uuids, j, bs[j])
  {
    HeaderHoldsSuperblock(ag, mount);
    var r, at := Header(ag.g), SuperblockAt(ag.g);
    var data := FromSource(source, r);
    if first {
      data := data[at + INPROGRESS := 0];
    }
    assert data == Reread(source, ag, first);
    bs := [];
    while |bs| < |uuids|
      invariant |bs| <= |uuids| && |data| == r.len
      invariant if bs == [] then data == Reread(source, ag, first) else data == bs[|bs| - 1].data
      invariant forall j :: 0 <= j < |bs| ==> ClosingFor(source, ag, first, mount, uuids, j, bs[j])
    {
      var b := CloseForNext(source, ag, first, mount, uuids, bs, data);
      data, bs := b.data, bs + [b];
    }
  }

  /** The closing write to target j. */
  ghost predicate ClosingFor(source: Image, ag: Ag, first: bool, mount: Mount, uuids: seq<seq<bv8>>, j: nat, b: Buffer)
    requires ag.g.Valid() && j < |uuids| && |uuids[j]| == UUID_SIZE
  {
    ClosingWrite(source, ag, first, mount, uuids[j], RenamedBy(mount, uuids, j), b)
  }

  /** One more target. */
  method CloseForNext(source: Image, ag: Ag, first: bool, mount: Mount, uuids: seq<seq<bv8>>, bs: seq<Buffer>,
                      data: seq<bv8>)
    returns (b: Buffer)
    requires ag.Valid() && mount.Valid() && mount.sectSize <= BBSIZE * ag.g.blockSectors && |bs| < |uuids|
    requires (forall j :: 0 <= j < |uuids| ==> |uuids[j]| == UUID_SIZE) && |data| == Header(ag.g).len
    requires if bs == [] then data == Reread(source, ag, first) else data == bs[|bs| - 1].data
    requires |bs| > 0 ==> ClosingFor(source, ag, first, mount, uuids, |bs| - 1, bs[|bs| - 1])
    ensures ClosingFor(source, ag, first, mount, uuids, |bs|, b) && |b.data| == |data|
  {
    HeaderHoldsSuperblock(ag, mount);
    var now := UpdateUuid(mount, data, SuperblockAt(ag.g), uuids[|bs|]);
    ClosingNext(source, ag, first, mount, uuids, bs, data, now);
    b := Buffer(Header(ag.g).pos, now);
  }

  /** The buffer left by the targets before, updated for one more. */
  lemma {:induction false} ClosingNext(source: Image, ag: Ag, first: bool, mount: Mount, uuids: seq<seq<bv8>>,
                                       bs: seq<Buffer>, mid: seq<bv8>, data: seq<bv8>)
    requires ag.Valid() && mount.Valid() && mount.sectSize <= BBSIZE * ag.g.blockSectors && |bs| < |uuids|
    requires (forall j :: 0 <= j < |uuids| ==> |uuids[j]| == UUID_SIZE) && |mid| == Header(ag.g).len
    requires if bs == [] then mid == Reread(source, ag, first) else mid == bs[|bs| - 1].data
    requires |bs| > 0 ==> ClosingFor(source, ag, first, mount, uuids, |bs| - 1, bs[|bs| - 1])
    requires SuperblockAt(ag.g) >= 0 && Inside(mount, mid, SuperblockAt(ag.g))
    requires UpdatedFrom(mount, uuids[|bs|], mount.Renames(uuids[|bs|]), SuperblockAt(ag.g), mid, data)
    ensures ClosingFor(source, ag, first, mount, uuids, |bs|, Buffer(Header(ag.g).pos, data))
  {
    var j := |bs|;
    RenamedStep(mount, uuids, j);
    if j > 0 {
      UpdatedAgain(mount, uuids[j - 1], uuids[j], RenamedBy(mount, uuids, j - 1), mount.Renames(uuids[j]),
                   SuperblockAt(ag.g), Reread(source, ag, first), mid, data);
    }
  }

  lemma {:induction false} RenamedStep(mount: Mount, uuids: seq<seq<bv8>>, j: nat)
    requires j < |uuids|
    ensures RenamedBy(mount, uuids, j) <==> mount.Renames(uuids[j]) || (j > 0 && RenamedBy(mount, uuids, j - 1))
  {
    if j > 0 && RenamedBy(mount, uuids, j - 1) {
      var t :| 0 <= t <= j - 1 && t < |uuids| && mount.Renames(uuids[t]);
      assert 0 <= t <= j;
    }
  }

  /** What the closing writes to target t depend on. */
  ghost function FinishOf(duplicate: bool, mount: Mount, uuids: seq<seq<bv8>>, logs: seq<seq<Buffer>>, t: nat): Finish
    requires t < |uuids| && t < |logs|
  {
    Finish(duplicate, mount, uuids[t], RenamedBy(mount, uuids, t), if duplicate then [] else logs[t])
  }

  /** The writes to a target so far: the log, and the superblocks from i on. */
  ghost predicate ClosingFrom(source: Image, ags: seq<Ag>, f: Finish, finals: seq<Buffer>, i: nat)
    requires ValidDisk(ags) && |f.uuid| == UUID_SIZE
  {
    var n := Rewritten(ags, f.duplicate);
    && i <= n && |finals| == |f.log| + n - i && f.log <= finals
    && forall j :: i <= j < n ==>
         ClosingWrite(source, ags[j], j == 0, f.mount, f.uuid, f.renamed, finals[|f.log| + n - 1 - j])
  }

  lemma {:induction false} ClosingMore(source: Image, ags: seq<Ag>, f: Finish, finals: seq<Buffer>, i: nat, b: Buffer)
    requires ValidDisk(ags) && |f.uuid| == UUID_SIZE && i > 0 && ClosingFrom(source, ags, f, finals, i)
    requires ClosingWrite(source, ags[i - 1], i - 1 == 0, f.mount, f.uuid, f.renamed, b)
    ensures ClosingFrom(source, ags, f, finals + [b], i - 1)
  {
  }

  /**
    The closing writes to all targets: to each the new log unless duplicating, then the superblocks
    backwards, each with the target's UUID, AG 0 last and with sb_inprogress cleared.
  */
  method SuperblockPass(source: Image, ags: seq<Ag>, duplicate: bool, mount: Mount, uuids: seq<seq<bv8>>,
                        logs: seq<seq<Buffer>>)
    returns (finals: seq<seq<Buffer>>)
    requires ValidDisk(ags) && ValidMount(mount, ags) && |logs| == |uuids|
    requires forall t :: 0 <= t < |uuids| ==> |uuids[t]| == UUID_SIZE
    ensures |finals| == |uuids|
    ensures forall t :: 0 <= t < |uuids| ==>
              Closing(source, ags, FinishOf(duplicate, mount, uuids, logs, t), finals[t])
  {
    var numAgs := |ags|;
    if duplicate {
      finals, numAgs := seq(|uuids|, _ => []), 1;
    } else {
      finals := logs;
    }
    var i := numAgs;
    while i > 0
      invariant 0 <= i <= numAgs && |finals| == |uuids|
      invariant forall t :: 0 <= t < |uuids| ==>
                  ClosingFrom(source, ags, FinishOf(duplicate, mount, uuids, logs, t), finals[t], i)
    {
      var bs := CloseSuperblock(source, ags[i - 1], i - 1 == 0, mount, uuids);
      var t := 0;
      while t < |uuids|
        invariant 0 <= t <= |uuids| && |finals| == |uuids|
        invariant forall u :: 0 <= u < |uuids| ==>
                    ClosingFrom(source, ags, FinishOf(duplicate, mount, uuids, logs, u), finals[u],
                                if u < t then i - 1 else i)
      {
        assert ClosingFor(source, ags[i - 1], i - 1 == 0, mount, uuids, t, bs[t]);
        ClosingMore(source, ags, FinishOf(duplicate, mount, uuids, logs, t), finals[t], i, bs[t]);
        finals := finals[t := finals[t] + [bs[t]]];
        t := t + 1;
      }
      i := i - 1;
    }
    forall t | 0 <= t < |uuids|
      ensures Closing(source, ags, FinishOf(duplicate, mount, uuids, logs, t), finals[t])
    {
      ClosingDone(source, ags, FinishOf(duplicate, mount, uuids, logs, t), finals[t]);
    }
  }

  lemma {:induction false} ClosingDone(source: Image, ags: seq<Ag>, f: Finish, finals: seq<Buffer>)
    requires ValidDisk(ags) && ValidMount(f.mount, ags) && |f.uuid| == UUID_SIZE && (f.duplicate ==> f.log == [])
    requires ClosingFrom(source, ags, f, finals, 0)
    ensures Closing(source, ags, f, finals)
  {
  }

  lemma {:induction false} HeaderBeyond(ag: Ag)
    requires ag.Valid() && ag.g.minIoSectors <= ag.g.agStart
    ensures INPROGRESS < Header(ag.g).pos
  {
    HeaderFacts(ag.g);
    assert ag.g.MinIo() % ag.g.MinIo() == 0;
    RoundDownAbove(ag.g.MinIo(), BBSIZE * ag.g.agStart, ag.g.MinIo());
  }

  // ---------------------------------------------------------------------------
  // The image
  // ---------------------------------------------------------------------------

  lemma {:induction false} AfterConcat(img: Image, a: seq<Buffer>, b: seq<Buffer>, x: int)
    ensures After(img, a + b)(x) == After(After(img, a), b)(x)
  {
    if b == [] {
      assert a + b == a;
    } else {
      var front := b[..|b| - 1];
      assert (a + b)[..|a + b| - 1] == a + front;
      AfterConcat(img, a, front, x);
    }
  }

  /** The in-progress byte after the first p writes of the main pass. */
  lemma {:induction false} MarkedWhileSafe(img: Image, source: Image, bs: seq<Buffer>, p: nat)
    requires 1 <= p <= |bs| && Faithful(source, bs[0], true) && Touches(bs[0], INPROGRESS)
    requires forall k :: 1 <= k < p ==> !Touches(bs[k], INPROGRESS)
    ensures After(img, bs[..p])(INPROGRESS) == 1
  {
    assert bs[..p][..p - 1] == bs[..p - 1];
    if p > 1 { MarkedWhileSafe(img, source, bs, p - 1); }
  }

  /**
    In-progress stays set from the first write until just before the last one, which clears it --
    exactly when the superblock of AG 0 is safe from the data copies.
  */
  lemma {:induction false} InProgressUntilLastWrite(img: Image, source: Image, ags: seq<Ag>, bs: seq<Buffer>,
                                                    finals: seq<Buffer>)
    requires ValidDisk(ags) && MainPass(source, ags, |ags|, bs) && FinalPass(finals)
    requires source(126) == 0
    ensures After(img, bs + finals)(126) == 0
    ensures SuperblockSafe(ags[0]) <==>
            forall p :: 1 <= p < |bs + finals| ==> After(img, (bs + finals)[..p])(126) == 1
  {
    var all := bs + finals;
    if SuperblockSafe(ags[0]) {
      forall p | 1 <= p < |all|
        ensures After(img, all[..p])(INPROGRESS) == 1
      {
        assert all[0] == bs[0];
        forall k | 1 <= k < p
          ensures !Touches(all[k], INPROGRESS)
        {
          if k >= |bs| { assert all[k] == finals[k - |bs|]; }
        }
        assert Faithful(source, bs[0], true);
        MarkedWhileSafe(img, source, all, p);
      }
    } else {
      var k :| 1 <= k < |bs| && Touches(bs[k], INPROGRESS);
      assert Faithful(source, bs[k], false);
      assert all[..k + 1][..k] == all[..k] && all[..k + 1][k] == bs[k];
      assert After(img, all[..k + 1])(INPROGRESS) == 0;
    }
  }

  /** With 1 KiB blocks and 4 KiB direct I/O a free extent right behind the header exposes the superblock. */
  lemma {:induction false} UnsafeExample()
    ensures var ag := Ag(Geometry(2, 8, 0x10_0000, 0, 2, 0x4000, Source(0x100_0000, 0x100_0000)), [[FreeRec(2, 1)]]);
            ag.Valid() && !SuperblockSafe(ag)
  {
    var ag := Ag(Geometry(2, 8, 0x10_0000, 0, 2, 0x4000, Source(0x100_0000, 0x100_0000)), [[FreeRec(2, 1)]]);
    assert Flatten(ag.leaves) == [FreeRec(2, 1)];
    assert Header(ag.g) == Range(0, 0x1000);
    assert LastEnd(ag.g, [FreeRec(2, 1)]) == 6;
  }

  /** With an I/O size that divides the block size the superblock is always safe. */
  lemma {:induction false} AlignedIsSafe(ag: Ag)
    requires ag.Valid() && Aligned(ag.g) && ag.g.agStart == 0
    ensures SuperblockSafe(ag)
  {
    var g, recs := ag.g, Flatten(ag.leaves);
    if recs != [] {
      var r := recs[|recs| - 1];
      MultipleAtLeast(g.blockSectors, g.minIoSectors);
      DaddrMono(g, 1, r.start + r.count);
    }
  }

  /** The last write that reaches a byte decides it. */
  lemma {:induction false} AfterLast(img: Image, bs: seq<Buffer>, k: nat, x: int)
    requires k < |bs| && Touches(bs[k], x) && forall m :: k < m < |bs| ==> !Touches(bs[m], x)
    ensures After(img, bs)(x) == bs[k].data[x - bs[k].position]
  {
    if k < |bs| - 1 { AfterLast(img, bs[..|bs| - 1], k, x); }
  }

  /** Writes that all carry the same value leave it, if one of them reaches the byte or it was there before. */
  lemma {:induction false} AfterSame(img: Image, bs: seq<Buffer>, x: int, v: bv8)
    requires forall k :: 0 <= k < |bs| && Touches(bs[k], x) ==> bs[k].data[x - bs[k].position] == v
    requires img(x) == v || Touched(bs, x)
    ensures After(img, bs)(x) == v
  {
    if bs != [] && !Touches(bs[|bs| - 1], x) {
      var front := bs[..|bs| - 1];
      if img(x) != v {
        var k :| 0 <= k < |bs| && Touches(bs[k], x);
        assert Touches(front[k], x);
      }
      AfterSame(img, front, x, v);
    }
  }

  /** The main pass leaves source data on every byte it must carry over, but for the in-progress byte. */
  lemma {:induction false} MainPassCopies(img: Image, source: Image, ags: seq<Ag>, bs: seq<Buffer>, j: nat, x: int)
    requires ValidDisk(ags) && MainPass(source, ags, |ags|, bs) && j < |ags| && ags[j].Holds(x) && x != INPROGRESS
    ensures After(img, bs)(x) == source(x)
  {
    forall k | 0 <= k < |bs| && Touches(bs[k], x)
      ensures bs[k].data[x - bs[k].position] == source(x)
    {
      assert Faithful(source, bs[k], k == 0);
    }
    assert Touched(bs, x);
    AfterSame(img, bs, x, source(x));
  }

  /** A byte of the superblock of this AG that the closing write may change. */
  predicate Stamped(f: Finish, ag: Ag, x: int) {
    var r := x - BBSIZE * ag.g.agStart;
    UuidByte(r) || CrcByte(f.mount, r) || (f.renamed && (r == INCOMPAT || MetaByte(r)))
  }

  /** Neither the new log nor a change to a superblock reaches this byte. */
  ghost predicate Plain(ags: seq<Ag>, f: Finish, x: int) {
    && !Touched(f.log, x)
    && forall m :: 0 <= m < |ags| && m < Rewritten(ags, f.duplicate) ==> !Stamped(f, ags[m], x)
  }

  /** The closing write that reaches a byte, if it is not one of the log. */
  lemma {:induction false} CloseThatTouches(source: Image, ags: seq<Ag>, f: Finish, finals: seq<Buffer>, k: nat, x: int)
    returns (j: nat)
    requires Closing(source, ags, f, finals) && k < |finals| && Touches(finals[k], x) && !Touched(f.log, x)
    ensures j < Rewritten(ags, f.duplicate) <= |ags| && k == |finals| - 1 - j && CloseOf(source, ags, f, finals, j)
  {
    assert forall m :: 0 <= m < |f.log| ==> finals[m] == f.log[m] && !Touches(f.log[m], x);
    j := |finals| - 1 - k;
    assert CloseOf(source, ags, f, finals, j);
  }

  /** Off the log and what is stamped, the closing writes are source data. */
  lemma {:induction false} ClosingCopies(source: Image, ags: seq<Ag>, f: Finish, finals: seq<Buffer>, k: nat, x: int)
    requires Closing(source, ags, f, finals) && source(INPROGRESS) == 0 && Plain(ags, f, x)
    requires k < |finals| && Touches(finals[k], x)
    ensures finals[k].data[x - finals[k].position] == source(x)
  {
    var j := CloseThatTouches(source, ags, f, finals, k, x);
    assert !Stamped(f, ags[j], x);
    var i, at := x - finals[k].position, SuperblockAt(ags[j].g);
    assert finals[k].data[i] == Updated(f.mount, f.uuid, f.renamed, i - at, Reread(source, ags[j], j == 0)[i]);
  }

  /** Closing writes that come after that of AG j are those of the AGs before it. */
  lemma {:induction false} LaterMisses(source: Image, ags: seq<Ag>, f: Finish, finals: seq<Buffer>, j: nat, x: int)
    requires Closing(source, ags, f, finals) && j <= Rewritten(ags, f.duplicate)
    requires forall m :: 0 <= m < j ==> !Header(ags[m].g).Has(x)
    ensures forall k :: |finals| - j <= k < |finals| ==> !Touches(finals[k], x)
  {
    forall k | |finals| - j <= k < |finals|
      ensures !Touches(finals[k], x)
    {
      var m := |finals| - 1 - k;
      assert !Header(ags[m].g).Has(x);
      assert CloseOf(source, ags, f, finals, m);
    }
  }

  /** In the end a header byte of AG j is as the closing write left it, if no earlier header reaches that far. */
  lemma {:induction false} HeaderIsClosed(img: Image, source: Image, ags: seq<Ag>, f: Finish, finals: seq<Buffer>,
                                          j: nat, x: int)
    requires Closing(source, ags, f, finals) && j < Rewritten(ags, f.duplicate) && Header(ags[j].g).Has(x)
    requires forall m :: 0 <= m < j ==> !Header(ags[m].g).Has(x)
    ensures CloseOf(source, ags, f, finals, j)
    ensures After(img, finals)(x) == finals[|finals| - 1 - j].data[x - Header(ags[j].g).pos]
  {
    LaterMisses(source, ags, f, finals, j, x);
    assert CloseOf(source, ags, f, finals, j);
    AfterLast(img, finals, |finals| - 1 - j, x);
  }

  /** The superblock of an AG as a device holds it. */
  function SectorOf(img: Image, g: Geometry, mount: Mount): seq<bv8> {
    FromSource(img, Range(BBSIZE * g.agStart, mount.sectSize))
  }

  /** No header of an earlier AG reaches into the superblock of AG j. */
  ghost predicate Clear(ags: seq<Ag>, mount: Mount, j: nat)
    requires j < |ags| && forall m :: 0 <= m < |ags| ==> ags[m].g.Valid()
  {
    forall m, x :: 0 <= m < j && 0 <= x - BBSIZE * ags[j].g.agStart < mount.sectSize ==> !Header(ags[m].g).Has(x)
  }

  /** Of a source that is not in progress the header is reread as it is. */
  lemma {:induction false} RereadIsSource(source: Image, ag: Ag, first: bool, mount: Mount)
    requires ag.Valid() && mount.Valid() && mount.sectSize <= BBSIZE * ag.g.blockSectors
    requires source(INPROGRESS) == 0 && (first ==> ag.g.agStart == 0)
    ensures 0 <= SuperblockAt(ag.g) && SuperblockAt(ag.g) + mount.sectSize <= Header(ag.g).len
    ensures Reread(source, ag, first) == FromSource(source, Header(ag.g))
    ensures Reread(source, ag, first)[SuperblockAt(ag.g)..SuperblockAt(ag.g) + mount.sectSize]
         == SectorOf(source, ag.g, mount)
  {
    HeaderHoldsSuperblock(ag, mount);
  }

  /** A device that shows a buffer where the superblock is. */
  lemma {:induction false} ShownSector(out: Image, b: Buffer, g: Geometry, mount: Mount, at: nat, sb: int)
    requires sb == BBSIZE * g.agStart == b.position + at && at + mount.sectSize <= |b.data|
    requires forall x :: sb <= x < sb + mount.sectSize ==> out(x) == b.data[x - b.position]
    ensures SectorOf(out, g, mount) == b.data[at..at + mount.sectSize]
  {
    var sector, part := SectorOf(out, g, mount), b.data[at..at + mount.sectSize];
    forall k | 0 <= k < mount.sectSize
      ensures sector[k] == part[k]
    {
      assert out(sb + k) == b.data[sb + k - b.position];
    }
  }

  lemma {:induction false} UpdatedShown(out: Image, b: Buffer, source: Image, ag: Ag, first: bool, f: Finish)
    requires ag.Valid() && f.mount.Valid() && f.mount.sectSize <= BBSIZE * ag.g.blockSectors && |f.uuid| == UUID_SIZE
    requires source(INPROGRESS) == 0 && (first ==> ag.g.agStart == 0)
    requires ClosingWrite(source, ag, first, f.mount, f.uuid, f.renamed, b)
    requires var sb := BBSIZE * ag.g.agStart;
             forall x :: sb <= x < sb + f.mount.sectSize && Touches(b, x) ==> out(x) == b.data[x - b.position]
    ensures UpdatedFrom(f.mount, f.uuid, f.renamed, 0, SectorOf(source, ag.g, f.mount), SectorOf(out, ag.g, f.mount))
  {
    var at := SuperblockAt(ag.g);
    RereadIsSource(source, ag, first, f.mount);
    ShownSector(out, b, ag.g, f.mount, at, BBSIZE * ag.g.agStart);
    UpdatedSector(f.mount, f.uuid, f.renamed, at, Reread(source, ag, first), b.data,
                  SectorOf(source, ag.g, f.mount), SectorOf(out, ag.g, f.mount));
  }

  /**
    In the end the superblock of AG j is the source's with the target's UUID, with the source's UUID
    kept as that of the metadata where that is needed, and with a right checksum.
  */
  lemma {:induction false} SuperblockStamped(img: Image, source: Image, ags: seq<Ag>, f: Finish, finals: seq<Buffer>,
                                             j: nat)
    requires Closing(source, ags, f, finals) && j < Rewritten(ags, f.duplicate) && Clear(ags, f.mount, j)
    requires source(INPROGRESS) == 0
    ensures UpdatedFrom(f.mount, f.uuid, f.renamed, 0, SectorOf(source, ags[j].g, f.mount),
                        SectorOf(After(img, finals), ags[j].g, f.mount))
  {
    var sb, b := BBSIZE * ags[j].g.agStart, finals[|finals| - 1 - j];
    assert CloseOf(source, ags, f, finals, j);
    forall x | sb <= x < sb + f.mount.sectSize && Touches(b, x)
      ensures After(img, finals)(x) == b.data[x - b.position]
    {
      HeaderIsClosed(img, source, ags, f, finals, j, x);
    }
    UpdatedShown(After(img, finals), b, source, ags[j], j == 0, f);
  }

  /** In the end the log is the new one, where no header reaches. */
  lemma {:induction false} LogFormatted(img: Image, source: Image, ags: seq<Ag>, f: Finish, finals: seq<Buffer>, x: int)
    requires Closing(source, ags, f, finals)
    requires forall m :: 0 <= m < Rewritten(ags, f.duplicate) ==> !Header(ags[m].g).Has(x)
    ensures After(img, finals)(x) == After(img, f.log)(x)
  {
    var rest := finals[|f.log|..];
    assert finals == f.log + rest;
    LaterMisses(source, ags, f, finals, Rewritten(ags, f.duplicate), x);
    AfterConcat(img, f.log, rest, x);
    assert forall k :: 0 <= k < |rest| ==> rest[k] == finals[|f.log| + k];
    AfterSame(After(img, f.log), rest, x, After(img, f.log)(x));
  }

  /** The target has received the main pass and then the closing writes. */
  ghost predicate Finished(n: nat, states: seq<State>, steps: seq<Step>, k: nat, i: nat, source: Image, ags: seq<Ag>,
                           bs: seq<Buffer>, f: Finish, finals: seq<Buffer>)
  {
    && Run(n, states, steps) && k < |states| && i < n && |states[k].targets| == n
    && states[k].main.Filling? && states[k].targets[i].state.Active?
    && ValidDisk(ags) && MainPass(source, ags, |ags|, bs) && Published(states, steps, k) == bs
    && Closing(source, ags, f, finals) && source(INPROGRESS) == 0
  }

  /** Closing writes that are source data at x leave the copy right at x. */
  lemma {:induction false} CopyAt(n: nat, states: seq<State>, steps: seq<Step>, k: nat, i: nat, img: Image,
                                  source: Image, ags: seq<Ag>, bs: seq<Buffer>, f: Finish, finals: seq<Buffer>,
                                  j: nat, x: int)
    requires Finished(n, states, steps, k, i, source, ags, bs, f, finals) && j < |ags| && ags[j].Holds(x)
    requires forall k :: 0 <= k < |finals| && Touches(finals[k], x) ==>
               finals[k].data[x - finals[k].position] == source(x)
    ensures After(img, states[k].targets[i].written + finals)(x) == source(x)
  {
    ActiveTargetsHaveEverything(n, states, steps, k, i);
    AfterConcat(img, bs, finals, x);
    if x == INPROGRESS {
      HeaderReach(ags[0].g);
      assert CloseOf(source, ags, f, finals, 0);
      assert Touches(finals[|finals| - 1], x);
    } else {
      MainPassCopies(img, source, ags, bs, j, x);
    }
    AfterSame(After(img, bs), finals, x, source(x));
  }

  /**
    End to end: however the threads interleave and whichever targets fail, a target that is still
    ACTIVE after the main pass and receives the closing writes equals the source on every byte that is
    not free, outside of the new log and the fields stamped in the superblocks rewritten.
  */
  lemma {:induction false} ActiveTargetIsCopy(n: nat, states: seq<State>, steps: seq<Step>, k: nat, i: nat, img: Image,
                                              source: Image, ags: seq<Ag>, bs: seq<Buffer>, f: Finish,
                                              finals: seq<Buffer>, j: nat, x: int)
    requires Finished(n, states, steps, k, i, source, ags, bs, f, finals)
    requires j < |ags| && ags[j].Holds(x) && Plain(ags, f, x)
    ensures After(img, states[k].targets[i].written + finals)(x) == source(x)
  {
    forall m | 0 <= m < |finals| && Touches(finals[m], x)
      ensures finals[m].data[x - finals[m].position] == source(x)
    {
      ClosingCopies(source, ags, f, finals, m, x);
    }
    CopyAt(n, states, steps, k, i, img, source, ags, bs, f, finals, j, x);
  }

  /** The same of every target none of whose I/O has failed. */
  lemma {:induction false} FlawlessTargetIsCopy(n: nat, states: seq<State>, steps: seq<Step>, k: nat, i: nat,
                                                img: Image, source: Image, ags: seq<Ag>, bs: seq<Buffer>, f: Finish,
                                                finals: seq<Buffer>, j: nat, x: int)
    requires Run(n, states, steps) && k < |states| && i < n && !IoFailed(states, steps, k, i)
    requires states[k].main.Filling? && ValidDisk(ags) && MainPass(source, ags, |ags|, bs)
    requires Published(states, steps, k) == bs && Closing(source, ags, f, finals) && source(INPROGRESS) == 0
    requires j < |ags| && ags[j].Holds(x) && Plain(ags, f, x)
    ensures |states[k].targets| == n && After(img, states[k].targets[i].written + finals)(x) == source(x)
  {
    NoFailureNoLoss(n, states, steps, k, i);
    ActiveTargetIsCopy(n, states, steps, k, i, img, source, ags, bs, f, finals, j, x);
  }

  /**
    Duplicating is exact: if the source's first superblock has the UUID the source was mounted with, and
    a right checksum if there are checksums, the target equals the source on every byte that is not free.
  */
  lemma {:induction false} DuplicateIsExact(n: nat, states: seq<State>, steps: seq<Step>, k: nat, i: nat, img: Image,
                                            source: Image, ags: seq<Ag>, bs: seq<Buffer>, f: Finish,
                                            finals: seq<Buffer>, j: nat, x: int)
    requires Finished(n, states, steps, k, i, source, ags, bs, f, finals) && j < |ags| && ags[j].Holds(x)
    requires f.duplicate && f.uuid == f.mount.uuid && !f.renamed
    requires SectorOf(source, ags[0].g, f.mount)[UUID..UUID + UUID_SIZE] == f.mount.uuid
    requires f.mount.crc ==> Summed(f.mount, SectorOf(source, ags[0].g, f.mount))
    ensures After(img, states[k].targets[i].written + finals)(x) == source(x)
  {
    DuplicateKeeps(source, ags, f, finals);
    CopyAt(n, states, steps, k, i, img, source, ags, bs, f, finals, j, x);
  }

  lemma {:induction false} DuplicateKeeps(source: Image, ags: seq<Ag>, f: Finish, finals: seq<Buffer>)
    requires Closing(source, ags, f, finals) && source(INPROGRESS) == 0
    requires f.duplicate && f.uuid == f.mount.uuid && !f.renamed
    requires SectorOf(source, ags[0].g, f.mount)[UUID..UUID + UUID_SIZE] == f.mount.uuid
    requires f.mount.crc ==> Summed(f.mount, SectorOf(source, ags[0].g, f.mount))
    ensures finals == [Buffer(Header(ags[0].g).pos, FromSource(source, Header(ags[0].g)))]
  {
    var at, was := SuperblockAt(ags[0].g), Reread(source, ags[0], true);
    RereadIsSource(source, ags[0], true, f.mount);
    assert CloseOf(source, ags, f, finals, 0);
    var sector := was[at..at + f.mount.sectSize];
    assert was[at + UUID..at + UUID + UUID_SIZE] == sector[UUID..UUID + UUID_SIZE];
    SameUuidKeeps(f.mount, at, was, finals[0].data);
  }
}
