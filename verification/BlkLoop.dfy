/**
  An extent that is not behind everything mapped, set block by block (db/check.c, blkmap_set_ext and
  blkmap_set_blk): the exact condition under which the entries still hold the map afterwards.
*/
module BlkLoop {
  import opened Arith
  import opened BlkEnts

  // ---------------------------------------------------------------------------
  // The loop
  // ---------------------------------------------------------------------------

  /** The first k blocks of an extent. */
  function SetMany(ents: seq<Ent>, o: nat, b: nat, k: nat): seq<Ent> {
    if k == 0 then ents else SetBlkFrom(SetMany(ents, o, b, k - 1), 0, o + k - 1, b + k - 1)
  }

  /** The entry, from i on, where the search for an offset stops. */
  function StopFrom(ents: seq<Ent>, i: nat, o: nat): (k: nat)
    requires i <= |ents|
    ensures i <= k <= |ents| && (k < |ents| ==> !Passes(ents[k], o))
    decreases |ents| - i
  {
    if i < |ents| && Passes(ents[i], o) then StopFrom(ents, i + 1, o) else i
  }

  function Stop(ents: seq<Ent>, o: nat): (k: nat)
    ensures k <= |ents| && (k < |ents| ==> !Passes(ents[k], o))
  {
    StopFrom(ents, 0, o)
  }

  lemma {:induction false} StopPasses(ents: seq<Ent>, i: nat, o: nat)
    requires i <= |ents|
    ensures forall j :: i <= j < StopFrom(ents, i, o) ==> Passes(ents[j], o)
    decreases |ents| - i
  {
    if i < |ents| && Passes(ents[i], o) { StopPasses(ents, i + 1, o); }
  }

  lemma {:induction false} StopIs(ents: seq<Ent>, i: nat, k: nat, o: nat, b: nat)
    requires i <= k <= |ents| && (forall j :: i <= j < k ==> Passes(ents[j], o))
    requires k < |ents| ==> !Passes(ents[k], o)
    ensures StopFrom(ents, i, o) == k && SetBlkFrom(ents, i, o, b) == SetAt(ents, k, o, b)
    decreases k - i
  {
    if i < k { StopIs(ents, i + 1, k, o, b); }
  }

  /**
    The block closes the gap to the next entry, and that is not the last: blkmap_shrink then leaves
    entries behind that it has freed.
  */
  predicate Dangles(ents: seq<Ent>, o: nat) {
    var k := Stop(ents, o);
    k + 2 < |ents| && ents[k].startoff > 0 && o == ents[k].End() && ents[k + 1].startoff <= o + 1
  }

  /** One of the first k blocks does that. */
  predicate DanglesMany(ents: seq<Ent>, o: nat, b: nat, k: nat) {
    k > 0 && (DanglesMany(ents, o, b, k - 1) || Dangles(SetMany(ents, o, b, k - 1), o + k - 1))
  }

  // ---------------------------------------------------------------------------
  // What the loop needs
  // ---------------------------------------------------------------------------

  /** The entry that takes the extent in: the one it starts in or behind, or a new one. */
  function Home(ents: seq<Ent>, o: nat): Ent {
    var k := Stop(ents, o);
    if k < |ents| && ents[k].startoff <= o then ents[k] else Ent(o, [])
  }

  /** The entries after it. */
  function Rest(ents: seq<Ent>, o: nat): seq<Ent> {
    var k := Stop(ents, o);
    if k < |ents| && ents[k].startoff <= o then ents[k + 1..] else ents[k..]
  }

  /** From offset x on the blocks of the entry are those that follow its first one. */
  ghost predicate RunsFrom(e: Ent, x: nat) {
    forall y: nat :: x <= y && e.Has(y) ==> e.blks[y - e.startoff] == e.blks[0] + (y - e.startoff)
  }

  /**
    No entry starts at offset 0, nor does an extent of several blocks; it does not start just before an
    entry; and if it reaches the next entry, that is the last, with consecutive blocks from where the
    extent ends.
  */
  ghost predicate LoopFits(ents: seq<Ent>, o: nat, c: nat) {
    && ents != [] && ents[0].startoff > 0 && (o > 0 || c == 1)
    && Stop(ents, o) < |ents| && o + 1 != ents[Stop(ents, o)].startoff
    && var rest := Rest(ents, o);
       rest == [] || o + c < rest[0].startoff || (|rest| == 1 && RunsFrom(rest[0], o + c))
  }

  // ---------------------------------------------------------------------------
  // One entry and what follows it
  // ---------------------------------------------------------------------------

  /** Setting an offset in the entry e or just behind it, with the entries `rest` after it. */
  function Put(e: Ent, rest: seq<Ent>, x: nat, v: nat): (r: (Ent, seq<Ent>))
    requires e.startoff <= x <= e.End()
    ensures r.0.startoff == e.startoff && x < r.0.End() && e.End() <= r.0.End()
  {
    if x < e.End() then (Ent(e.startoff, e.blks[x - e.startoff := v]), rest)
    else if rest == [] || x + 1 < rest[0].startoff then (Ent(e.startoff, e.blks + [v]), rest)
    else
      var n := rest[0];
      var first := if n.blks == [] then 0 else n.blks[0];
      (Ent(e.startoff, e.blks + [v] + Run(first, |n.blks|)), seq(|rest| - 1, _ => n))
  }

  /** The entries with one of them singled out. */
  function Around(pre: seq<Ent>, e: Ent, rest: seq<Ent>): seq<Ent> { pre + [e] + rest }

  /** That is what blkmap_set_blk does when it stops there. */
  lemma {:induction false} PutIs(pre: seq<Ent>, e: Ent, rest: seq<Ent>, x: nat, v: nat)
    requires (forall j :: 0 <= j < |pre| ==> Passes(pre[j], x)) && e.startoff > 0 && e.startoff <= x <= e.End()
    ensures SetBlkFrom(Around(pre, e, rest), 0, x, v) == Around(pre, Put(e, rest, x, v).0, Put(e, rest, x, v).1)
    ensures Dangles(Around(pre, e, rest), x) <==> x == e.End() && |rest| >= 2 && rest[0].startoff <= x + 1
  {
    var ents, k := Around(pre, e, rest), |pre|;
    assert forall j :: 0 <= j < k ==> ents[j] == pre[j];
    StopIs(ents, 0, k, x, v);
    assert ents[..k] == pre && ents[k] == e && ents[k + 1..] == rest;
    if rest != [] { assert ents[k + 1] == rest[0]; }
  }

  /** The first i blocks of an extent. */
  function Puts(e: Ent, rest: seq<Ent>, o: nat, b: nat, i: nat): (r: (Ent, seq<Ent>))
    requires e.startoff <= o <= e.End()
    ensures r.0.startoff == e.startoff && o + i <= r.0.End()
  {
    if i == 0 then (e, rest)
    else
      var (e1, rest1) := Puts(e, rest, o, b, i - 1);
      Put(e1, rest1, o + i - 1, b + i - 1)
  }

  /** The extent has reached the next entry. */
  predicate Reached(rest: seq<Ent>, x: nat) { rest != [] && rest[0].startoff <= x }

  /** The block of offset y after i blocks, the entry having been e, and n if it has taken that in. */
  function BlockOf(e: Ent, n: Ent, o: nat, b: nat, i: nat, y: nat): nat {
    if o <= y < o + i then b + (y - o)
    else if e.Has(y) then e.blks[y - e.startoff]
    else if n.blks == [] then 0
    else n.blks[0] + if y >= n.startoff then y - n.startoff else 0
  }

  /** The entry after i blocks, as long as at most one entry was taken in. */
  ghost predicate Grew(e: Ent, rest: seq<Ent>, o: nat, b: nat, i: nat, e': Ent, rest': seq<Ent>)
    requires e.startoff <= o <= e.End()
  {
    if Reached(rest, o + i)
    then rest' == [] && e'.End() == Max(rest[0].End(), o + i)
         && forall y: nat :: e'.Has(y) ==> e'.blks[y - e'.startoff] == BlockOf(e, rest[0], o, b, i, y)
    else rest' == rest && e'.End() == Max(e.End(), o + i)
         && forall y: nat :: e'.Has(y) ==> e'.blks[y - e'.startoff] == BlockOf(e, e, o, b, i, y)
  }

  lemma {:induction false} GrewStep(e: Ent, rest: seq<Ent>, o: nat, b: nat, i: nat, e1: Ent, rest1: seq<Ent>, e2: Ent,
                                    rest2: seq<Ent>)
    requires e.startoff <= o <= e.End() && e1.startoff == e.startoff && o + i <= e1.End()
    requires rest != [] ==> e.End() < rest[0].startoff && rest[0].blks != []
    requires Reached(rest, o + i + 1) ==> |rest| == 1
    requires Grew(e, rest, o, b, i, e1, rest1) && (e2, rest2) == Put(e1, rest1, o + i, b + i)
    ensures Grew(e, rest, o, b, i + 1, e2, rest2)
  {
    var x := o + i;
    if Reached(rest, x + 1) && !Reached(rest, x) {
      var n := rest[0];
      assert n.startoff == x + 1 && e1.End() == x && rest1 == rest == [n];
      assert rest2 == [] && e2.blks == e1.blks + [b + i] + Run(n.blks[0], |n.blks|);
      forall y: nat | e2.Has(y)
        ensures e2.blks[y - e2.startoff] == BlockOf(e, n, o, b, i + 1, y)
      {
        if y < x { assert e1.Has(y) && e1.blks[y - e1.startoff] == BlockOf(e, e, o, b, i, y); }
      }
    } else {
      var n := if Reached(rest, x) then rest[0] else e;
      assert rest2 == rest1 && e2.End() == Max(e1.End(), x + 1);
      forall y: nat | e2.Has(y)
        ensures e2.blks[y - e2.startoff] == BlockOf(e, n, o, b, i + 1, y)
      {
        if y != x { assert e1.Has(y) && e1.blks[y - e1.startoff] == BlockOf(e, n, o, b, i, y); }
      }
    }
  }

  lemma {:induction false} PutsGrew(e: Ent, rest: seq<Ent>, o: nat, b: nat, i: nat)
    requires e.startoff <= o <= e.End() && (rest != [] ==> e.End() < rest[0].startoff && rest[0].blks != [])
    requires Reached(rest, o + i) ==> |rest| == 1
    ensures Grew(e, rest, o, b, i, Puts(e, rest, o, b, i).0, Puts(e, rest, o, b, i).1)
  {
    if i > 0 {
      PutsGrew(e, rest, o, b, i - 1);
      var (e1, rest1) := Puts(e, rest, o, b, i - 1);
      var (e2, rest2) := Puts(e, rest, o, b, i);
      GrewStep(e, rest, o, b, i - 1, e1, rest1, e2, rest2);
    }
  }

  // ---------------------------------------------------------------------------
  // The loop works on one entry
  // ---------------------------------------------------------------------------

  lemma {:induction false} ManyShift(ents: seq<Ent>, o: nat, b: nat, i: nat, first: seq<Ent>)
    requires first == SetBlkFrom(ents, 0, o, b)
    ensures SetMany(ents, o, b, i + 1) == SetMany(first, o + 1, b + 1, i)
  {
    if i == 0 {
      assert SetMany(ents, o, b, 0) == ents;
    } else {
      ManyShift(ents, o, b, i - 1, first);
      ManyStep(ents, o, b, i);
      ManyStep(first, o + 1, b + 1, i - 1);
    }
  }

  lemma {:induction false} ManyStep(ents: seq<Ent>, o: nat, b: nat, i: nat)
    ensures SetMany(ents, o, b, i + 1) == SetBlkFrom(SetMany(ents, o, b, i), 0, o + i, b + i)
  {
  }

  lemma {:induction false} DanglesStep(ents: seq<Ent>, o: nat, b: nat, i: nat, mid: seq<Ent>, x: nat)
    requires mid == SetMany(ents, o, b, i) && x == o + i
    ensures DanglesMany(ents, o, b, i + 1) <==> DanglesMany(ents, o, b, i) || Dangles(mid, x)
  {
  }

  lemma {:induction false} DanglesShift(ents: seq<Ent>, o: nat, b: nat, i: nat, first: seq<Ent>)
    requires first == SetBlkFrom(ents, 0, o, b)
    ensures DanglesMany(ents, o, b, i + 1) <==> Dangles(ents, o) || DanglesMany(first, o + 1, b + 1, i)
  {
    if i == 0 {
      assert SetMany(ents, o, b, 0) == ents && !DanglesMany(ents, o, b, 0) && !DanglesMany(first, o + 1, b + 1, 0);
    } else {
      DanglesShift(ents, o, b, i - 1, first);
      ManyShift(ents, o, b, i - 1, first);
      DanglesBoth(ents, o, b, i, first, SetMany(ents, o, b, i));
    }
  }

  lemma {:induction false} DanglesBoth(ents: seq<Ent>, o: nat, b: nat, i: nat, first: seq<Ent>, mid: seq<Ent>)
    requires i > 0 && mid == SetMany(ents, o, b, i) == SetMany(first, o + 1, b + 1, i - 1)
    requires DanglesMany(ents, o, b, i) <==> Dangles(ents, o) || DanglesMany(first, o + 1, b + 1, i - 1)
    ensures DanglesMany(ents, o, b, i + 1) <==> Dangles(ents, o) || DanglesMany(first, o + 1, b + 1, i)
  {
    DanglesStep(ents, o, b, i, mid, o + i);
    DanglesStep(first, o + 1, b + 1, i - 1, mid, o + i);
  }

  lemma {:induction false} PutsShift(e: Ent, rest: seq<Ent>, o: nat, b: nat, i: nat)
    requires e.startoff <= o <= e.End()
    ensures var (e1, rest1) := Put(e, rest, o, b);
            Puts(e, rest, o, b, i + 1) == Puts(e1, rest1, o + 1, b + 1, i)
  {
    if i == 0 {
      assert Puts(e, rest, o, b, 0) == (e, rest);
    } else {
      PutsShift(e, rest, o, b, i - 1);
    }
  }

  /** From an entry that does not start at offset 0 the loop never leaves it. */
  lemma {:induction false} PutsAre(pre: seq<Ent>, e: Ent, rest: seq<Ent>, o: nat, b: nat, i: nat, ents: seq<Ent>)
    requires (forall j :: 0 <= j < |pre| ==> Passes(pre[j], o)) && e.startoff > 0 && e.startoff <= o <= e.End()
    requires ents == Around(pre, e, rest)
    ensures SetMany(ents, o, b, i) == Around(pre, Puts(e, rest, o, b, i).0, Puts(e, rest, o, b, i).1)
  {
    if i > 0 {
      PutsAre(pre, e, rest, o, b, i - 1, ents);
      ManyPuts(ents, pre, e, rest, o, b, i - 1, Puts(e, rest, o, b, i - 1), Puts(e, rest, o, b, i));
    }
  }

  lemma {:induction false} ManyPuts(ents: seq<Ent>, pre: seq<Ent>, e: Ent, rest: seq<Ent>, o: nat, b: nat, i: nat,
                                    r: (Ent, seq<Ent>), r': (Ent, seq<Ent>))
    requires (forall j :: 0 <= j < |pre| ==> Passes(pre[j], o)) && e.startoff > 0 && e.startoff <= o <= e.End()
    requires r == Puts(e, rest, o, b, i) && r' == Puts(e, rest, o, b, i + 1)
    requires SetMany(ents, o, b, i) == Around(pre, r.0, r.1)
    ensures SetMany(ents, o, b, i + 1) == Around(pre, r'.0, r'.1)
  {
    PutsStep(e, rest, o, b, i, o + i, b + i);
    ManyPut(ents, pre, r.0, r.1, o, b, i, o + i, b + i);
  }

  lemma {:induction false} ManyPut(ents: seq<Ent>, pre: seq<Ent>, e1: Ent, rest1: seq<Ent>, o: nat, b: nat, i: nat,
                                   x: nat, v: nat)
    requires (forall j :: 0 <= j < |pre| ==> Passes(pre[j], o)) && x == o + i && v == b + i
    requires e1.startoff > 0 && e1.startoff <= x <= e1.End() && SetMany(ents, o, b, i) == Around(pre, e1, rest1)
    ensures SetMany(ents, o, b, i + 1) == Around(pre, Put(e1, rest1, x, v).0, Put(e1, rest1, x, v).1)
  {
    ManyStep(ents, o, b, i);
    PutIsLater(pre, e1, rest1, o, x, v);
  }

  lemma {:induction false} PutsStep(e: Ent, rest: seq<Ent>, o: nat, b: nat, i: nat, x: nat, v: nat)
    requires e.startoff <= o <= e.End() && x == o + i && v == b + i
    ensures Puts(e, rest, o, b, i + 1) == Put(Puts(e, rest, o, b, i).0, Puts(e, rest, o, b, i).1, x, v)
  {
  }

  lemma {:induction false} PutIsLater(pre: seq<Ent>, e: Ent, rest: seq<Ent>, o: nat, x: nat, v: nat)
    requires (forall j :: 0 <= j < |pre| ==> Passes(pre[j], o)) && o <= x
    requires e.startoff > 0 && e.startoff <= x <= e.End()
    ensures SetBlkFrom(Around(pre, e, rest), 0, x, v) == Around(pre, Put(e, rest, x, v).0, Put(e, rest, x, v).1)
    ensures Dangles(Around(pre, e, rest), x) <==> x == e.End() && |rest| >= 2 && rest[0].startoff <= x + 1
  {
    assert forall j :: 0 <= j < |pre| ==> Passes(pre[j], o) && Passes(pre[j], x);
    PutIs(pre, e, rest, x, v);
  }

  /** The next block takes an entry in that is not the last. */
  lemma {:induction false} NextDangles(e: Ent, rest: seq<Ent>, o: nat, b: nat, i: nat, x: nat)
    requires e.startoff <= o <= e.End() && x == o + i && !(|rest| >= 2 && Reached(rest, x))
    requires rest != [] ==> e.End() < rest[0].startoff && rest[0].blks != []
    ensures var (e1, rest1) := Puts(e, rest, o, b, i);
            x == e1.End() && |rest1| >= 2 && rest1[0].startoff <= x + 1 <==> |rest| >= 2 && Reached(rest, x + 1)
  {
    PutsGrew(e, rest, o, b, i);
  }

  lemma {:induction false} DanglesNext(ents: seq<Ent>, pre: seq<Ent>, e1: Ent, rest1: seq<Ent>, o: nat, b: nat, i: nat,
                                       x: nat)
    requires (forall j :: 0 <= j < |pre| ==> Passes(pre[j], o)) && x == o + i
    requires e1.startoff > 0 && e1.startoff <= x <= e1.End() && SetMany(ents, o, b, i) == Around(pre, e1, rest1)
    ensures DanglesMany(ents, o, b, i + 1)
       <==> DanglesMany(ents, o, b, i) || (x == e1.End() && |rest1| >= 2 && rest1[0].startoff <= x + 1)
  {
    DanglesStep(ents, o, b, i, Around(pre, e1, rest1), x);
    PutIsLater(pre, e1, rest1, o, x, b);
  }

  /** It leaves freed entries behind exactly when it reaches an entry that is not the last. */
  lemma {:induction false} DanglesIs(pre: seq<Ent>, e: Ent, rest: seq<Ent>, o: nat, b: nat, i: nat, ents: seq<Ent>)
    requires (forall j :: 0 <= j < |pre| ==> Passes(pre[j], o)) && e.startoff > 0 && e.startoff <= o <= e.End()
    requires (rest != [] ==> e.End() < rest[0].startoff && rest[0].blks != []) && ents == Around(pre, e, rest)
    ensures DanglesMany(ents, o, b, i) <==> |rest| >= 2 && Reached(rest, o + i)
  {
    if i > 0 {
      var x := o + (i - 1);
      var (e1, rest1) := Puts(e, rest, o, b, i - 1);
      DanglesIs(pre, e, rest, o, b, i - 1, ents);
      PutsAre(pre, e, rest, o, b, i - 1, ents);
      DanglesNext(ents, pre, e1, rest1, o, b, i - 1, x);
      if !(|rest| >= 2 && Reached(rest, x)) { NextDangles(e, rest, o, b, i - 1, x); }
    }
  }

  /** The entries around the home of the extent. */
  lemma {:induction false} HomeFacts(ents: seq<Ent>, o: nat)
    requires Shape(ents) && ents != [] && ents[0].startoff > 0
    requires Stop(ents, o) < |ents| && o + 1 != ents[Stop(ents, o)].startoff
    ensures var e, rest := Home(ents, o), Rest(ents, o);
            && e.startoff <= o <= e.End() && e.End() <= Max(o, OFF_LIMIT)
            && (o > 0 ==> e.startoff > 0)
            && (rest != [] ==> e.End() < rest[0].startoff && rest[0].blks != [] && rest[0].End() <= OFF_LIMIT)
    ensures var k := Stop(ents, o);
            && (forall j :: 0 <= j < k ==> Passes(ents[j], o))
            && (k > 0 ==> ents[k - 1].End() < Home(ents, o).startoff)
  {
    var k := Stop(ents, o);
    StopPasses(ents, 0, o);
    Apart(ents, 0, k);
    Apart(ents, k, k);
    if k > 0 { Apart(ents, k - 1, k); }
    if k + 1 < |ents| { Apart(ents, k, k + 1); }
  }

  /** The first block puts the extent into its home. */
  lemma {:induction false} FirstBlock(ents: seq<Ent>, o: nat, b: nat)
    requires Shape(ents) && ents != [] && ents[0].startoff > 0
    requires Stop(ents, o) < |ents| && o + 1 != ents[Stop(ents, o)].startoff
    ensures var e, rest := Home(ents, o), Rest(ents, o);
            && e.startoff <= o <= e.End()
            && var (e1, rest1) := Put(e, rest, o, b);
               && SetBlkFrom(ents, 0, o, b) == Around(ents[..Stop(ents, o)], e1, rest1)
               && (Dangles(ents, o) <==> |rest| >= 2 && Reached(rest, o + 1))
  {
    var k, e, rest := Stop(ents, o), Home(ents, o), Rest(ents, o);
    HomeFacts(ents, o);
    StopIs(ents, 0, k, o, b);
    if ents[k].startoff <= o {
      assert ents == Around(ents[..k], e, rest);
      PutIs(ents[..k], e, rest, o, b);
    } else {
      assert e.blks + [b] == [b];
    }
  }

  /** The blocks after the first. */
  lemma {:induction false} LaterBlocks(pre: seq<Ent>, e: Ent, rest: seq<Ent>, o: nat, b: nat, i: nat, e1: Ent,
                                       rest1: seq<Ent>)
    requires (forall j :: 0 <= j < |pre| ==> Passes(pre[j], o)) && e.startoff <= o <= e.End()
    requires (rest != [] ==> e.End() < rest[0].startoff && rest[0].blks != [])
    requires (e1, rest1) == Put(e, rest, o, b) && (i > 0 ==> e1.startoff > 0)
    ensures e1.startoff <= o + 1 <= e1.End()
    ensures SetMany(Around(pre, e1, rest1), o + 1, b + 1, i)
         == Around(pre, Puts(e1, rest1, o + 1, b + 1, i).0, Puts(e1, rest1, o + 1, b + 1, i).1)
    ensures (|rest| >= 2 && Reached(rest, o + 1)) || DanglesMany(Around(pre, e1, rest1), o + 1, b + 1, i)
       <==> |rest| >= 2 && Reached(rest, o + 1 + i)
  {
    if i > 0 {
      assert forall j :: 0 <= j < |pre| ==> Passes(pre[j], o) && Passes(pre[j], o + 1);
      PutsAre(pre, e1, rest1, o + 1, b + 1, i, Around(pre, e1, rest1));
      if !(|rest| >= 2 && Reached(rest, o + 1)) {
        DanglesIs(pre, e1, rest1, o + 1, b + 1, i, Around(pre, e1, rest1));
      }
    }
  }

  /** What the whole loop makes of the entries. */
  lemma {:induction false} LoopIs(ents: seq<Ent>, o: nat, b: nat, c: nat)
    requires Shape(ents) && ents != [] && ents[0].startoff > 0 && c >= 1 && (o > 0 || c == 1)
    requires Stop(ents, o) < |ents| && o + 1 != ents[Stop(ents, o)].startoff
    ensures var k, e, rest := Stop(ents, o), Home(ents, o), Rest(ents, o);
            && e.startoff <= o <= e.End()
            && SetMany(ents, o, b, c) == Around(ents[..k], Puts(e, rest, o, b, c).0, Puts(e, rest, o, b, c).1)
            && (DanglesMany(ents, o, b, c) <==> |rest| >= 2 && Reached(rest, o + c))
  {
    HomeFacts(ents, o);
    FirstBlock(ents, o, b);
    LoopFrom(ents, ents[..Stop(ents, o)], Home(ents, o), Rest(ents, o), o, b, c);
  }

  lemma {:induction false} LoopFrom(ents: seq<Ent>, pre: seq<Ent>, e: Ent, rest: seq<Ent>, o: nat, b: nat, c: nat)
    requires (forall j :: 0 <= j < |pre| ==> Passes(pre[j], o)) && e.startoff <= o <= e.End() && c >= 1
    requires (rest != [] ==> e.End() < rest[0].startoff && rest[0].blks != []) && (c > 1 ==> e.startoff > 0)
    requires SetBlkFrom(ents, 0, o, b) == Around(pre, Put(e, rest, o, b).0, Put(e, rest, o, b).1)
    requires Dangles(ents, o) <==> |rest| >= 2 && Reached(rest, o + 1)
    ensures SetMany(ents, o, b, c) == Around(pre, Puts(e, rest, o, b, c).0, Puts(e, rest, o, b, c).1)
    ensures DanglesMany(ents, o, b, c) <==> |rest| >= 2 && Reached(rest, o + c)
  {
    var (e1, rest1) := Put(e, rest, o, b);
    ManyShift(ents, o, b, c - 1, Around(pre, e1, rest1));
    DanglesShift(ents, o, b, c - 1, Around(pre, e1, rest1));
    PutsShift(e, rest, o, b, c - 1);
    LaterBlocks(pre, e, rest, o, b, c - 1, e1, rest1);
  }

  // ---------------------------------------------------------------------------
  // When the map is right afterwards
  // ---------------------------------------------------------------------------

  lemma {:induction false} AroundMaps(pre: seq<Ent>, e: Ent, rest: seq<Ent>, x: nat, v: nat)
    ensures Maps(Around(pre, e, rest), x, v) <==> Maps(pre, x, v) || EntMaps(e, x, v) || Maps(rest, x, v)
  {
    MapsConcat(pre + [e], rest, x, v);
    MapsConcat(pre, [e], x, v);
    OneMaps(e, x, v);
  }

  /** What is mapped before the home, in it and after it. */
  lemma {:induction false} HomeMaps(ents: seq<Ent>, o: nat, x: nat, v: nat)
    requires Shape(ents) && ents != [] && ents[0].startoff > 0
    requires Stop(ents, o) < |ents| && o + 1 != ents[Stop(ents, o)].startoff
    ensures var pre, e, rest := ents[..Stop(ents, o)], Home(ents, o), Rest(ents, o);
            && (Maps(ents, x, v) <==> Maps(pre, x, v) || EntMaps(e, x, v) || Maps(rest, x, v))
            && (Maps(pre, x, v) ==> x < o) && (Maps(rest, x, v) ==> rest != [] && rest[0].startoff <= x)
  {
    var k, e, rest := Stop(ents, o), Home(ents, o), Rest(ents, o);
    HomeFacts(ents, o);
    if ents[k].startoff <= o {
      assert ents == Around(ents[..k], e, rest);
      AroundMaps(ents[..k], e, rest, x, v);
      BeforeAfter(ents, k, k + 1, o, x, v);
    } else {
      assert ents == ents[..k] + rest;
      MapsConcat(ents[..k], rest, x, v);
      BeforeAfter(ents, k, k, o, x, v);
    }
  }

  lemma {:induction false} BeforeAfter(ents: seq<Ent>, k: nat, n: nat, o: nat, x: nat, v: nat)
    requires Shape(ents) && k <= n <= |ents| && forall j :: 0 <= j < k ==> Passes(ents[j], o)
    ensures Maps(ents[..k], x, v) ==> x < o
    ensures Maps(ents[n..], x, v) ==> n < |ents| && ents[n].startoff <= x
  {
    if Maps(ents[..k], x, v) {
      var i :| 0 <= i < k && EntMaps(ents[..k][i], x, v);
      assert Passes(ents[i], o);
    }
    if Maps(ents[n..], x, v) {
      var i :| 0 <= i < |ents| - n && EntMaps(ents[n..][i], x, v);
      Apart(ents, n, n + i);
    }
  }

  /** What the home maps in the end. */
  lemma {:induction false} GrewMaps(e: Ent, rest: seq<Ent>, o: nat, b: nat, c: nat, e': Ent, rest': seq<Ent>, x: nat,
                                    v: nat)
    requires e.startoff <= o <= e.End() && c >= 1 && Grew(e, rest, o, b, c, e', rest') && e'.startoff == e.startoff
    requires rest != [] ==> e.End() < rest[0].startoff && rest[0].blks != []
    requires Reached(rest, o + c) ==> |rest| == 1
    ensures o <= x < o + c ==> (EntMaps(e', x, v) <==> v == b + (x - o))
    ensures x < o ==> (EntMaps(e', x, v) <==> EntMaps(e, x, v))
    ensures o + c <= x && !Reached(rest, o + c) ==> (EntMaps(e', x, v) <==> EntMaps(e, x, v))
    ensures o + c <= x && Reached(rest, o + c) ==>
              (EntMaps(e', x, v) <==> rest[0].Has(x) && v == rest[0].blks[0] + (x - rest[0].startoff))
  {
    var n := if Reached(rest, o + c) then rest[0] else e;
    if e'.Has(x) { assert e'.blks[x - e'.startoff] == BlockOf(e, n, o, b, c, x); }
  }

  /** The loop maps what it should, if the extent fits. */
  lemma {:induction false} FittingMaps(ents: seq<Ent>, m: map<nat, nat>, o: nat, b: nat, c: nat, x: nat, v: nat)
    requires Shape(ents) && Holds(ents, m) && c >= 1 && LoopFits(ents, o, c)
    ensures Maps(SetMany(ents, o, b, c), x, v) <==> x in Added(m, o, b, c) && Added(m, o, b, c)[x] == v
  {
    HoldsIsMaps(ents, m);
    assert Maps(ents, x, v) <==> x in m && m[x] == v;
    AddedAt(m, o, b, c, x);
    LoopMaps(ents, o, b, c, x, v);
  }

  lemma {:induction false} LoopMaps(ents: seq<Ent>, o: nat, b: nat, c: nat, x: nat, v: nat)
    requires Shape(ents) && c >= 1 && LoopFits(ents, o, c)
    ensures Maps(SetMany(ents, o, b, c), x, v) <==> if o <= x < o + c then v == b + (x - o) else Maps(ents, x, v)
  {
    var pre, e, rest := ents[..Stop(ents, o)], Home(ents, o), Rest(ents, o);
    HomeFacts(ents, o);
    LoopIs(ents, o, b, c);
    PutsGrew(e, rest, o, b, c);
    var (e', rest') := Puts(e, rest, o, b, c);
    AroundMaps(pre, e', rest', x, v);
    HomeMaps(ents, o, x, v);
    GrewMaps(e, rest, o, b, c, e', rest', x, v);
    if Reached(rest, o + c) {
      assert rest == [rest[0]] && !Maps(rest', x, v);
      OneMaps(rest[0], x, v);
    }
  }

  lemma {:induction false} FittingHolds(ents: seq<Ent>, m: map<nat, nat>, o: nat, b: nat, c: nat)
    requires Shape(ents) && Holds(ents, m) && c >= 1 && o + c <= OFF_LIMIT && LoopFits(ents, o, c)
    ensures Shape(SetMany(ents, o, b, c)) && Holds(SetMany(ents, o, b, c), Added(m, o, b, c))
    ensures !DanglesMany(ents, o, b, c)
  {
    var now, m' := SetMany(ents, o, b, c), Added(m, o, b, c);
    forall x: nat, v: nat
      ensures Maps(now, x, v) <==> x in m' && m'[x] == v
    {
      FittingMaps(ents, m, o, b, c, x, v);
    }
    HoldsIsMaps(now, m');
    FittingShape(ents, o, b, c);
  }

  lemma {:induction false} FittingShape(ents: seq<Ent>, o: nat, b: nat, c: nat)
    requires Shape(ents) && c >= 1 && o + c <= OFF_LIMIT && LoopFits(ents, o, c)
    ensures Shape(SetMany(ents, o, b, c)) && !DanglesMany(ents, o, b, c)
  {
    var k, e, rest := Stop(ents, o), Home(ents, o), Rest(ents, o);
    HomeFacts(ents, o);
    LoopIs(ents, o, b, c);
    PutsGrew(e, rest, o, b, c);
    var (e', rest') := Puts(e, rest, o, b, c);
    AroundShape(ents, k, e', rest', |ents| - |rest'|);
  }

  lemma {:induction false} AroundShape(ents: seq<Ent>, k: nat, e: Ent, rest: seq<Ent>, n: nat)
    requires Shape(ents) && k <= n <= |ents| && rest == ents[n..] && e.blks != [] && e.End() <= OFF_LIMIT
    requires (k > 0 ==> ents[k - 1].End() < e.startoff) && (rest != [] ==> e.End() < rest[0].startoff)
    ensures Shape(Around(ents[..k], e, rest))
  {
    assert ents == ents[..k] + ents[k..n] + rest;
    assert Shape([e]) by { assert EntOk([e], 0); }
    ReplaceShape(ents[..k], ents[k..n], [e], rest);
  }

  // ---------------------------------------------------------------------------
  // When it is not
  // ---------------------------------------------------------------------------

  /** Entries that hold offset 0 start there. */
  lemma {:induction false} ZeroIsFirst(ents: seq<Ent>, m: map<nat, nat>)
    requires Shape(ents) && Holds(ents, m) && 0 in m
    ensures ents != [] && ents[0].startoff == 0
  {
    assert Somewhere(ents, 0);
    var i :| 0 <= i < |ents| && ents[i].Has(0);
    Apart(ents, 0, i);
  }

  /** In front of an entry at offset 0 everything is inserted. */
  lemma {:induction false} ZeroInserts(ents: seq<Ent>, x: nat, v: nat)
    requires ents != [] && ents[0].startoff == 0
    ensures SetBlkFrom(ents, 0, x, v) == [Ent(x, [v])] + ents
  {
    assert ents[..0] == [] && ents[0..] == ents;
  }

  /** Once the first entry is not at offset 0, it never is again. */
  lemma {:induction false} PositiveStays(ents: seq<Ent>, x: nat, v: nat)
    requires ents != [] && ents[0].startoff > 0 && x > 0
    ensures SetBlkFrom(ents, 0, x, v) != [] && SetBlkFrom(ents, 0, x, v)[0].startoff > 0
  {
    var k := Stop(ents, x);
    StopPasses(ents, 0, x);
    StopIs(ents, 0, k, x, v);
    if k > 0 { assert ents[..k][0] == ents[0]; }
  }

  lemma {:induction false} PositiveLoop(ents: seq<Ent>, o: nat, b: nat, i: nat)
    requires ents != [] && ents[0].startoff > 0 && o > 0
    ensures SetMany(ents, o, b, i) != [] && SetMany(ents, o, b, i)[0].startoff > 0
  {
    if i > 0 {
      PositiveLoop(ents, o, b, i - 1);
      PositiveStays(SetMany(ents, o, b, i - 1), o + i - 1, b + i - 1);
    }
  }

  /** Entries that lack an offset, or have it with another block. */
  lemma {:induction false} Lacks(ents: seq<Ent>, m: map<nat, nat>)
    requires ents != [] && ents[0].startoff > 0 && 0 in m
    ensures !(Shape(ents) && Holds(ents, m))
  {
    if Shape(ents) && Holds(ents, m) { ZeroIsFirst(ents, m); }
  }

  lemma {:induction false} Differs(ents: seq<Ent>, m: map<nat, nat>, k: nat, x: nat, v: nat)
    requires k < |ents| && EntMaps(ents[k], x, v) && x in m && m[x] != v
    ensures !Holds(ents, m)
  {
  }

  /** An entry at offset 0, now or after the first block, is lost from its place. */
  lemma {:induction false} ZeroFails(ents: seq<Ent>, m: map<nat, nat>, o: nat, b: nat, c: nat)
    requires Shape(ents) && Holds(ents, m) && ents != [] && c >= 1
    requires ents[0].startoff == 0 || (o == 0 && c > 1)
    ensures !(Shape(SetMany(ents, o, b, c)) && Holds(SetMany(ents, o, b, c), Added(m, o, b, c)))
  {
    AddedAt(m, o, b, c, 0);
    Apart(ents, 0, 0);
    assert ents[0].startoff == 0 ==> ents[0].Has(0);
    if o == 0 && c == 1 {
      ZeroInserts(ents, o, b);
      ManyStep(ents, o, b, 0);
      var first := [Ent(0, [b])] + ents;
      assert first[0] == Ent(0, [b]) && first[1] == ents[0] && !EntOk(first, 0);
    } else {
      ZeroMoves(ents, o, b, c);
      Lacks(SetMany(ents, o, b, c), Added(m, o, b, c));
    }
  }

  lemma {:induction false} ZeroMoves(ents: seq<Ent>, o: nat, b: nat, c: nat)
    requires ents != [] && c >= 1 && ((ents[0].startoff == 0 && o > 0) || (o == 0 && c > 1))
    ensures SetMany(ents, o, b, c) != [] && SetMany(ents, o, b, c)[0].startoff > 0
  {
    if o > 0 {
      ZeroInserts(ents, o, b);
      PositiveAfter(ents, o, b, c, [Ent(o, [b])] + ents);
    } else {
      var first := SetBlkFrom(ents, 0, 0, b);
      FirstAtZero(ents, b);
      ZeroInserts(first, 1, b + 1);
      PositiveAfter(first, 1, b + 1, c - 1, [Ent(1, [b + 1])] + first);
      ManyShift(ents, 0, b, c - 1, first);
    }
  }

  lemma {:induction false} PositiveAfter(ents: seq<Ent>, o: nat, b: nat, c: nat, first: seq<Ent>)
    requires c >= 1 && first == SetBlkFrom(ents, 0, o, b) && first != [] && first[0].startoff > 0
    ensures SetMany(ents, o, b, c) != [] && SetMany(ents, o, b, c)[0].startoff > 0
  {
    ManyShift(ents, o, b, c - 1, first);
    PositiveLoop(first, o + 1, b + 1, c - 1);
  }

  lemma {:induction false} FirstAtZero(ents: seq<Ent>, b: nat)
    requires ents != []
    ensures SetBlkFrom(ents, 0, 0, b) != [] && SetBlkFrom(ents, 0, 0, b)[0].startoff == 0
  {
    StopIs(ents, 0, 0, 0, b);
  }

  /** The first block of an entry stays when later ones are set. */
  lemma {:induction false} FirstKept(e: Ent, rest: seq<Ent>, o: nat, b: nat, i: nat)
    requires e.startoff < o <= e.End()
    ensures |Puts(e, rest, o, b, i).0.blks| > 0 && Puts(e, rest, o, b, i).0.blks[0] == e.blks[0]
  {
    if i > 0 { FirstKept(e, rest, o, b, i - 1); }
  }

  /** An extent that starts just before an entry gets a wrong first block. */
  lemma {:induction false} PrependFails(ents: seq<Ent>, m: map<nat, nat>, o: nat, b: nat, c: nat)
    requires Shape(ents) && ents != [] && ents[0].startoff > 0 && c >= 1 && (o > 0 || c == 1)
    requires Stop(ents, o) < |ents| && o + 1 == ents[Stop(ents, o)].startoff
    ensures !Holds(SetMany(ents, o, b, c), Added(m, o, b, c))
  {
    PrependIs(ents, o, b, c);
    AddedAt(m, o, b, c, o);
    Differs(SetMany(ents, o, b, c), Added(m, o, b, c), Stop(ents, o), o, b + 1);
  }

  lemma {:induction false} PrependIs(ents: seq<Ent>, o: nat, b: nat, c: nat)
    requires c >= 1 && (o > 0 || c == 1)
    requires Stop(ents, o) < |ents| && o + 1 == ents[Stop(ents, o)].startoff
    ensures Stop(ents, o) < |SetMany(ents, o, b, c)| && EntMaps(SetMany(ents, o, b, c)[Stop(ents, o)], o, b + 1)
  {
    var k := Stop(ents, o);
    var pre, e, rest := ents[..k], Ent(o, [b + 1] + ents[k].blks), ents[k + 1..];
    StopPasses(ents, 0, o);
    StopIs(ents, 0, k, o, b);
    ManyShift(ents, o, b, c - 1, Around(pre, e, rest));
    assert forall j :: 0 <= j < |pre| ==> Passes(pre[j], o);
    FirstStays(pre, e, rest, o, b, c - 1);
  }

  lemma {:induction false} FirstStays(pre: seq<Ent>, e: Ent, rest: seq<Ent>, o: nat, b: nat, i: nat)
    requires (forall j :: 0 <= j < |pre| ==> Passes(pre[j], o)) && e.startoff == o && e.blks != [] && (i > 0 ==> o > 0)
    ensures var now := SetMany(Around(pre, e, rest), o + 1, b + 1, i);
            |pre| < |now| && EntMaps(now[|pre|], o, e.blks[0])
  {
    if i > 0 {
      assert forall j :: 0 <= j < |pre| ==> Passes(pre[j], o) && Passes(pre[j], o + 1);
      PutsAre(pre, e, rest, o + 1, b + 1, i, Around(pre, e, rest));
      FirstKept(e, rest, o + 1, b + 1, i);
    }
  }

  /** Reaching the last entry fails if its blocks from there on are not consecutive. */
  lemma {:induction false} TailFails(ents: seq<Ent>, m: map<nat, nat>, o: nat, b: nat, c: nat)
    requires Shape(ents) && Holds(ents, m) && ents != [] && ents[0].startoff > 0 && c >= 1 && (o > 0 || c == 1)
    requires Stop(ents, o) < |ents| && o + 1 != ents[Stop(ents, o)].startoff
    requires |Rest(ents, o)| == 1 && Reached(Rest(ents, o), o + c) && !RunsFrom(Rest(ents, o)[0], o + c)
    ensures !Holds(SetMany(ents, o, b, c), Added(m, o, b, c))
  {
    var k, n := Stop(ents, o), Rest(ents, o)[0];
    var y: nat :| o + c <= y && n.Has(y) && n.blks[y - n.startoff] != n.blks[0] + (y - n.startoff);
    assert ents[|ents| - 1] == n;
    HoldsAt(ents, m, |ents| - 1, y);
    AddedAt(m, o, b, c, y);
    TailIs(ents, o, b, c, n, y);
    Differs(SetMany(ents, o, b, c), Added(m, o, b, c), k, y, n.blks[0] + (y - n.startoff));
  }

  lemma {:induction false} TailIs(ents: seq<Ent>, o: nat, b: nat, c: nat, n: Ent, y: nat)
    requires Shape(ents) && ents != [] && ents[0].startoff > 0 && c >= 1 && (o > 0 || c == 1)
    requires Stop(ents, o) < |ents| && o + 1 != ents[Stop(ents, o)].startoff
    requires Rest(ents, o) == [n] && Reached([n], o + c) && o + c <= y && n.Has(y)
    ensures Stop(ents, o) < |SetMany(ents, o, b, c)|
    ensures EntMaps(SetMany(ents, o, b, c)[Stop(ents, o)], y, n.blks[0] + (y - n.startoff))
  {
    var e := Home(ents, o);
    HomeFacts(ents, o);
    LoopIs(ents, o, b, c);
    PutsGrew(e, [n], o, b, c);
    GrewMaps(e, [n], o, b, c, Puts(e, [n], o, b, c).0, Puts(e, [n], o, b, c).1, y, n.blks[0] + (y - n.startoff));
  }

  /**
    An extent set block by block: the entries hold the map with the extent added, and none of them has
    been freed, if and only if the extent fits.
  */
  lemma {:induction false} LoopUpdates(ents: seq<Ent>, m: map<nat, nat>, o: nat, b: nat, c: nat)
    requires Shape(ents) && Holds(ents, m) && ents != [] && o < ents[|ents| - 1].End()
    requires c >= 1 && o + c <= OFF_LIMIT
    ensures var now := SetMany(ents, o, b, c);
            !DanglesMany(ents, o, b, c) && Shape(now) && Holds(now, Added(m, o, b, c)) <==> LoopFits(ents, o, c)
  {
    var k := Stop(ents, o);
    StopPasses(ents, 0, o);
    assert !Passes(ents[|ents| - 1], o) && k < |ents|;
    if LoopFits(ents, o, c) {
      FittingHolds(ents, m, o, b, c);
    } else if ents[0].startoff == 0 || (o == 0 && c > 1) {
      ZeroFails(ents, m, o, b, c);
    } else if o + 1 == ents[k].startoff {
      PrependFails(ents, m, o, b, c);
    } else if |Rest(ents, o)| >= 2 {
      LoopIs(ents, o, b, c);
    } else {
      TailFails(ents, m, o, b, c);
    }
  }
}
