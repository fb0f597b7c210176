/**
  The checker's in-memory map of a file's blocks (db/check.c). Whatever extents it is given, it is a
  finite map exactly as long as they fit; extents in ascending order always do.
*/
module BlkMap {
  import opened Arith
  import opened BlkEnts
  import opened BlkLoop

  /** bmap_ext_t, as blkmap_getn fills it. */
  datatype Ext = Ext(off: nat, start: nat, count: nat) {
    function End(): nat { off + count }

    predicate Maps(x: nat, b: nat) { off <= x < End() && b == start + (x - off) }
  }

  /** The block loops of blkent_new and blkent_append. */
  method Blocks(b: nat, c: nat) returns (blks: seq<nat>)
    ensures |blks| == c && forall i :: 0 <= i < c ==> blks[i] == b + i
  {
    blks := [];
    for i := 0 to c
      invariant |blks| == i && forall j :: 0 <= j < i ==> blks[j] == b + j
    {
      blks := blks + [b + i];
    }
  }

  // ---------------------------------------------------------------------------
  // Extents out of a window
  // ---------------------------------------------------------------------------

  /** The extents map exactly the window's part of the map, up to offset `hi`. */
  ghost predicate Describes(exts: seq<Ext>, m: map<nat, nat>, lo: nat, hi: nat) {
    && (forall i: nat, x: nat, b: nat :: i < |exts| && exts[i].Maps(x, b) ==> lo <= x < hi && x in m && m[x] == b)
    && (forall x :: x in m && lo <= x < hi ==> Listed(exts, x, m[x]))
  }

  ghost predicate Listed(exts: seq<Ext>, x: nat, b: nat) {
    exists i :: 0 <= i < |exts| && exts[i].Maps(x, b)
  }

  /** The next extent neither overlaps this one nor continues it. */
  ghost predicate Separate(exts: seq<Ext>, i: nat)
    requires i + 1 < |exts|
  {
    && exts[i].End() <= exts[i + 1].off
    && !(exts[i].End() == exts[i + 1].off && exts[i].start + exts[i].count == exts[i + 1].start)
  }

  /** Non-empty, ascending and merged as far as possible. */
  ghost predicate Merged(exts: seq<Ext>) {
    && (forall i :: 0 <= i < |exts| ==> exts[i].count >= 1)
    && (forall i :: 0 <= i < |exts| - 1 ==> Separate(exts, i))
  }

  ghost predicate Window(exts: seq<Ext>, m: map<nat, nat>, lo: nat, hi: nat) {
    && Describes(exts, m, lo, hi) && Merged(exts) && (exts != [] ==> exts[|exts| - 1].End() <= hi)
  }

  /** One offset of blkmap_getn: extend the last extent or start a new one. */
  function Push(exts: seq<Ext>, x: nat, b: nat): seq<Ext> {
    if exts != [] && exts[|exts| - 1].End() == x && exts[|exts| - 1].start + exts[|exts| - 1].count == b
    then exts[|exts| - 1 := exts[|exts| - 1].(count := exts[|exts| - 1].count + 1)]
    else exts + [Ext(x, b, 1)]
  }

  lemma {:induction false} PushMerged(exts: seq<Ext>, x: nat, b: nat)
    requires Merged(exts) && (exts != [] ==> exts[|exts| - 1].End() <= x)
    ensures Merged(Push(exts, x, b)) && Push(exts, x, b) != []
    ensures var p := Push(exts, x, b); p[|p| - 1].End() == x + 1
  {
    var p := Push(exts, x, b);
    forall i | 0 <= i < |p| - 1
      ensures Separate(p, i)
    {
      if i < |exts| - 1 { assert Separate(exts, i); }
    }
  }

  lemma {:induction false} PushMaps(exts: seq<Ext>, x: nat, b: nat, i: nat, y: nat, c: nat)
    requires i < |Push(exts, x, b)|
    ensures Push(exts, x, b)[i].Maps(y, c) ==> (y == x && c == b) || (i < |exts| && exts[i].Maps(y, c))
    ensures i < |exts| && exts[i].Maps(y, c) ==> Push(exts, x, b)[i].Maps(y, c)
  {
  }

  lemma {:induction false} PushDescribes(exts: seq<Ext>, m: map<nat, nat>, lo: nat, x: nat)
    requires Window(exts, m, lo, x) && lo <= x && x in m
    ensures Window(Push(exts, x, m[x]), m, lo, x + 1)
  {
    var p := Push(exts, x, m[x]);
    PushMerged(exts, x, m[x]);
    forall i: nat, y: nat, c: nat | i < |p| && p[i].Maps(y, c)
      ensures lo <= y < x + 1 && y in m && m[y] == c
    {
      PushMaps(exts, x, m[x], i, y, c);
    }
    forall y | y in m && lo <= y < x + 1
      ensures Listed(p, y, m[y])
    {
      if y == x {
        assert p[|p| - 1].Maps(x, m[x]);
      } else {
        var i :| 0 <= i < |exts| && exts[i].Maps(y, m[y]);
        PushMaps(exts, x, m[x], i, y, m[y]);
      }
    }
  }

  /** Offsets that are not mapped add nothing. */
  lemma {:induction false} GapDescribes(exts: seq<Ext>, m: map<nat, nat>, lo: nat, x: nat, x': nat)
    requires Window(exts, m, lo, x) && x <= x' && forall y :: x <= y < x' && lo <= y ==> y !in m
    ensures Window(exts, m, lo, x')
  {
  }

  lemma {:induction false} OneOffset(exts: seq<Ext>, m: map<nat, nat>, lo: nat, x: nat, exts': seq<Ext>)
    requires Window(exts, m, lo, x) && x in m && exts' == if x < lo then exts else Push(exts, x, m[x])
    ensures Window(exts', m, lo, x + 1)
  {
    if x >= lo { PushDescribes(exts, m, lo, x); } else { GapDescribes(exts, m, lo, x, x + 1); }
  }

  /** A mapped offset behind the first i entries is not before the next one. */
  lemma {:induction false} NextEnt(ents: seq<Ent>, m: map<nat, nat>, i: nat, x: nat)
    requires Shape(ents) && Holds(ents, m) && i <= |ents| && x in m && (i == 0 || ents[i - 1].End() <= x)
    ensures i < |ents| && ents[i].startoff <= x
  {
    var j :| 0 <= j < |ents| && ents[j].Has(x);
    if j < i { Apart(ents, j, i - 1); } else { Apart(ents, i, j); }
  }

  // ---------------------------------------------------------------------------
  // The map itself
  // ---------------------------------------------------------------------------

  /**
    The extent is behind everything that is mapped, or fits when it is set block by block. An extent
    of no blocks must not make an entry.
  */
  ghost predicate ExtFits(ents: seq<Ent>, o: nat, c: nat) {
    if c == 0 then ents != [] && o <= ents[|ents| - 1].End()
    else ents == [] || ents[|ents| - 1].End() <= o || LoopFits(ents, o, c)
  }

  class BlkMap {
    var ents: seq<Ent>
    ghost var m: map<nat, nat>

    /** Some entry has been freed that is still in use. */
    ghost var freed: bool

    ghost predicate Valid()
      reads this
    {
      !freed && Shape(ents) && Holds(ents, m)
    }

    /** blkmap_alloc */
    constructor ()
      ensures Valid() && m == map[]
    {
      ents, m, freed := [], map[], false;
    }

    /** blkmap_set_blk */
    method SetBlk(o: nat, b: nat)
      modifies `ents, `freed
      ensures ents == SetBlkFrom(old(ents), 0, o, b) && freed == (old(freed) || Dangles(old(ents), o))
    {
      freed := freed || Dangles(ents, o);
      var i := 0;
      while i < |ents| && Passes(ents[i], o)
        invariant 0 <= i <= |ents| && ents == old(ents)
        invariant SetBlkFrom(ents, i, o, b) == SetBlkFrom(ents, 0, o, b)
      {
        i := i + 1;
      }
      ents := SetAt(ents, i, o, b);
    }

    /** The loop of blkmap_set_ext, one block at a time. */
    method SetBlks(o: nat, b: nat, c: nat)
      modifies `ents, `freed
      ensures ents == SetMany(old(ents), o, b, c) && freed == (old(freed) || DanglesMany(old(ents), o, b, c))
    {
      var i := 0;
      while i < c
        invariant 0 <= i <= c
        invariant ents == SetMany(old(ents), o, b, i) && freed == (old(freed) || DanglesMany(old(ents), o, b, i))
      {
        SetBlk(o + i, b + i);
        i := i + 1;
      }
    }

    /** A new entry behind all others. */
    method AddNew(o: nat, b: nat, c: nat)
      requires Valid() && o + c <= OFF_LIMIT && (ents == [] || ents[|ents| - 1].End() < o)
      modifies this
      ensures m == Added(old(m), o, b, c) && (Valid() <==> c > 0)
    {
      var blks := Blocks(b, c);
      if ents != [] { LastEnd(ents, m); }
      AppendEnt(ents, m, o, b, blks);
      if c > 0 {
        AppendShape(ents, Ent(o, blks));
      } else {
        assert !EntOk(ents + [Ent(o, blks)], |ents|);
      }
      ents := ents + [Ent(o, blks)];
      m := Added(m, o, b, c);
    }

    /** More blocks for the last entry. */
    method AddMore(o: nat, b: nat, c: nat)
      requires Valid() && o + c <= OFF_LIMIT && ents != [] && ents[|ents| - 1].End() == o
      modifies this
      ensures m == Added(old(m), o, b, c) && Valid()
    {
      var blks := Blocks(b, c);
      var n := |ents| - 1;
      LastEnd(ents, m);
      GrownShape(ents, blks);
      GrowEnt(ents, m, o, b, blks);
      ents := ents[n := Ent(ents[n].startoff, ents[n].blks + blks)];
      m := Added(m, o, b, c);
    }

    /**
      blkmap_set_ext: the map gains exactly the offsets of the extent if and only if the extent fits; an
      extent behind everything that is mapped always does.
    */
    method SetExt(o: nat, b: nat, c: nat)
      requires Valid() && o < MAX_OFF && c < MAX_LEN
      modifies this
      ensures m == Added(old(m), o, b, c) && (Valid() <==> ExtFits(old(ents), o, c))
      ensures c > 0 && AllBelow(old(m), o) ==> Valid()
    {
      if ents != [] { LastEnd(ents, m); }
      if ents == [] {
        AddNew(o, b, c);
      } else if ents[|ents| - 1].End() == o {
        AddMore(o, b, c);
      } else if ents[|ents| - 1].End() < o {
        AddNew(o, b, c);
      } else {
        if c > 0 { LoopUpdates(ents, m, o, b, c); }
        SetBlks(o, b, c);
        m := Added(m, o, b, c);
      }
    }

    /** blkmap_get is lookup. */
    method Get(o: nat) returns (b: nat)
      requires Valid()
      ensures b == if o in m then m[o] else 0xffff_ffff_ffff_ffff
    {
      var i := 0;
      while i < |ents|
        invariant 0 <= i <= |ents| && forall j :: 0 <= j < i ==> !ents[j].Has(o)
      {
        if ents[i].Has(o) {
          return ents[i].blks[o - ents[i].startoff];
        }
        i := i + 1;
      }
      assert o !in m by { assert o in m ==> Somewhere(ents, o); }
      b := NULLFSBLOCK;
    }

    /** The inner loop of blkmap_getn: the part of entry i inside the window o .. hi - 1. */
    method AddEnt(i: nat, o: nat, hi: nat, exts0: seq<Ext>) returns (exts: seq<Ext>, ghost bound: nat)
      requires Valid() && i < |ents| && ents[i].startoff < hi && o < ents[i].End()
      requires Window(exts0, m, o, ents[i].startoff)
      ensures bound == Min(ents[i].End(), hi) && Window(exts, m, o, bound)
    {
      Apart(ents, i, i);
      assert InMap(ents[i], m);
      exts, bound := AddBlocks(ents[i], m, o, hi, exts0);
    }

    static method AddBlocks(ent: Ent, ghost m: map<nat, nat>, o: nat, hi: nat, exts0: seq<Ext>)
      returns (exts: seq<Ext>, ghost bound: nat)
      requires InMap(ent, m) && ent.startoff < hi && ent.blks != [] && Window(exts0, m, o, ent.startoff)
      ensures bound == Min(ent.End(), hi) && Window(exts, m, o, bound)
    {
      var ento := ent.startoff;
      exts := exts0;
      while ento < ent.End() && ento < hi
        invariant ent.startoff <= ento <= ent.End() && ento <= hi && Window(exts, m, o, ento)
      {
        assert ent.Has(ento);
        ghost var before := exts;
        if ento >= o { exts := Push(exts, ento, ent.blks[ento - ent.startoff]); }
        OneOffset(before, m, o, ento, exts);
        ento := ento + 1;
      }
      bound := ento;
    }

    /** blkmap_getn: maximally merged extents that equal lookup at every offset of the window, and nothing more. */
    method GetN(o: nat, nb: nat) returns (exts: seq<Ext>)
      requires Valid()
      ensures Describes(exts, m, o, o + nb) && Merged(exts)
    {
      var hi := o + nb;
      exts := [];
      var i := 0;
      ghost var bound: nat := 0;
      while i < |ents| && ents[i].startoff < hi
        invariant 0 <= i <= |ents| && bound <= hi && Window(exts, m, o, bound)
        invariant bound == if i == 0 then 0 else Min(ents[i - 1].End(), hi)
      {
        if i > 0 { Apart(ents, i - 1, i); }
        if ents[i].End() <= o {
          GapDescribes(exts, m, o, bound, ents[i].End());
          bound := ents[i].End();
        } else {
          SkipGap(ents, m, exts, o, bound, i, ents[i].startoff);
          exts, bound := AddEnt(i, o, hi, exts);
        }
        i := i + 1;
      }
      SkipGap(ents, m, exts, o, bound, i, hi);
    }

    /** blkmap_next_off: the least mapped offset after o, or the first one; t is the entry it is in. */
    method NextOff(o: nat, t: nat) returns (next: nat, t': nat)
      requires Valid() && (o == NULLFILEOFF || (t < |ents| && ents[t].Has(o)))
      ensures next == NULLFILEOFF ==> forall x :: x in m ==> o != NULLFILEOFF && x <= o
      ensures next != NULLFILEOFF ==>
                && next in m && next < NULLFILEOFF && (o == NULLFILEOFF || o < next)
                && t' < |ents| && ents[t'].Has(next)
      ensures next != NULLFILEOFF ==> forall x :: x in m && (o == NULLFILEOFF || o < x) ==> next <= x
    {
      t' := t;
      if ents == [] {
        return NULLFILEOFF, t;
      }
      if o == NULLFILEOFF {
        t', next := 0, ents[0].startoff;
        Apart(ents, 0, 0);
        assert ents[0].Has(next);
        forall x | x in m ensures next <= x { NextEnt(ents, m, 0, x); }
      } else if o + 1 < ents[t].End() {
        next := o + 1;
        Apart(ents, t, t);
        assert ents[t].Has(next);
      } else if t + 1 >= |ents| {
        next := NULLFILEOFF;
        LastEnd(ents, m);
      } else {
        t' := t + 1;
        next := ents[t'].startoff;
        Apart(ents, t, t');
        assert ents[t'].Has(next);
        forall x | x in m && o < x ensures next <= x { NextEnt(ents, m, t', x); }
      }
    }

    /** The loop of its callers visits every mapped offset once, in order. */
    method VisitAll() returns (offs: seq<nat>)
      requires Valid()
      ensures forall x :: x in m <==> x in offs
      ensures forall i, j :: 0 <= i < j < |offs| ==> offs[i] < offs[j]
    {
      offs := [];
      var o: nat, t: nat := NextOff(NULLFILEOFF, 0);
      while o != NULLFILEOFF
        invariant o != NULLFILEOFF ==> t < |ents| && ents[t].Has(o) && o in m && o < NULLFILEOFF
        invariant Visited(m, offs, o)
        decreases NULLFILEOFF - o
      {
        ghost var was := o;
        offs := offs + [o];
        o, t := NextOff(o, t);
        VisitStep(m, offs, was, o);
      }
    }
  }

  /** The offsets before o have been visited, in order; the null offset is behind all. */
  ghost predicate Visited(m: map<nat, nat>, offs: seq<nat>, o: nat) {
    && (forall i :: 0 <= i < |offs| ==> offs[i] in m && (o != NULLFILEOFF ==> offs[i] < o))
    && (forall x :: x in m ==> x in offs || (o != NULLFILEOFF && o <= x))
    && (forall i, j :: 0 <= i < j < |offs| ==> offs[i] < offs[j])
  }

  lemma {:induction false} VisitStep(m: map<nat, nat>, offs: seq<nat>, o: nat, next: nat)
    requires offs != [] && offs[|offs| - 1] == o && Visited(m, offs[..|offs| - 1], o) && o in m && o != NULLFILEOFF
    requires next != NULLFILEOFF ==> o < next
    requires forall x :: x in m && o < x ==> next != NULLFILEOFF && next <= x
    ensures Visited(m, offs, next)
  {
    var front := offs[..|offs| - 1];
    assert offs == front + [o];
    assert forall i :: 0 <= i < |front| ==> offs[i] == front[i];
  }

  lemma {:induction false} SkipGap(ents: seq<Ent>, m: map<nat, nat>, exts: seq<Ext>, o: nat, bound: nat, i: nat,
                                   to: nat)
    requires Shape(ents) && Holds(ents, m) && Window(exts, m, o, bound) && i <= |ents| && bound <= to
    requires bound == to || bound == if i == 0 then 0 else ents[i - 1].End()
    requires i < |ents| ==> to <= ents[i].startoff
    ensures Window(exts, m, o, to)
  {
    forall y | bound <= y < to && o <= y
      ensures y !in m
    {
      if y in m { NextEnt(ents, m, i, y); }
    }
    GapDescribes(exts, m, o, bound, to);
  }
}
