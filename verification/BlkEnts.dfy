/**
  The entries of the checker's map of a file's blocks (db/check.c): runs of consecutive file offsets
  with the block of every offset, and what setting blocks does to them.
*/
module BlkEnts {
  import opened Arith

  const NULLFILEOFF := U64 - 1
  const NULLFSBLOCK := U64 - 1

  /** Records have 54 bits for the offset and 21 for the length. */
  const MAX_OFF := 0x40_0000_0000_0000
  const MAX_LEN := 0x20_0000
  const OFF_LIMIT := MAX_OFF + MAX_LEN

  /** blkent_t: the blocks of |blks| consecutive offsets. */
  datatype Ent = Ent(startoff: nat, blks: seq<nat>) {
    function End(): nat { startoff + |blks| }

    predicate Has(o: nat) { startoff <= o < End() }
  }

  ghost predicate EntOk(ents: seq<Ent>, i: nat)
    requires i < |ents|
  {
    && |ents[i].blks| >= 1 && ents[i].End() <= OFF_LIMIT
    && (i + 1 < |ents| ==> ents[i].End() < ents[i + 1].startoff)
  }

  /** Entries are not empty, ascend, and never touch. */
  ghost predicate Shape(ents: seq<Ent>) {
    forall i :: 0 <= i < |ents| ==> EntOk(ents, i)
  }

  /** The entries hold exactly this map. */
  ghost predicate Holds(ents: seq<Ent>, m: map<nat, nat>) {
    && (forall i: nat, o: nat :: i < |ents| && ents[i].Has(o) ==> o in m && m[o] == ents[i].blks[o - ents[i].startoff])
    && (forall o :: o in m ==> Somewhere(ents, o))
  }

  /** The entry holds part of this map. */
  ghost predicate InMap(ent: Ent, m: map<nat, nat>) {
    forall o: nat :: ent.Has(o) ==> o in m && m[o] == ent.blks[o - ent.startoff]
  }

  ghost predicate Somewhere(ents: seq<Ent>, o: nat) {
    exists i :: 0 <= i < |ents| && ents[i].Has(o)
  }

  lemma {:induction false} Apart(ents: seq<Ent>, i: nat, j: nat)
    requires Shape(ents) && i <= j < |ents|
    ensures |ents[j].blks| >= 1 && ents[j].End() <= OFF_LIMIT
    ensures i < j ==> ents[i].End() < ents[j].startoff
  {
    assert EntOk(ents, j);
    if i < j {
      Apart(ents, i, j - 1);
      assert EntOk(ents, j - 1);
    }
  }

  /** The map with offsets o .. o + c - 1 mapped to blocks b .. b + c - 1. */
  ghost function Added(m: map<nat, nat>, o: nat, b: nat, c: nat): map<nat, nat> {
    if c == 0 then m else Added(m, o, b, c - 1)[o + c - 1 := b + c - 1]
  }

  lemma {:induction false} AddedAt(m: map<nat, nat>, o: nat, b: nat, c: nat, x: nat)
    ensures x in Added(m, o, b, c) <==> x in m || o <= x < o + c
    ensures x in Added(m, o, b, c) ==> Added(m, o, b, c)[x] == if o <= x < o + c then b + (x - o) else m[x]
  {
    if c > 0 { AddedAt(m, o, b, c - 1, x); }
  }

  ghost predicate AllBelow(m: map<nat, nat>, o: nat) {
    forall x :: x in m ==> x < o
  }

  lemma {:induction false} AppendShape(ents: seq<Ent>, e: Ent)
    requires Shape(ents) && |e.blks| >= 1 && e.End() <= OFF_LIMIT
    requires ents == [] || ents[|ents| - 1].End() < e.startoff
    ensures Shape(ents + [e])
  {
    forall i | 0 <= i < |ents + [e]|
      ensures EntOk(ents + [e], i)
    {
      if i < |ents| { assert EntOk(ents, i); }
    }
  }

  lemma {:induction false} AppendEnt(ents: seq<Ent>, m: map<nat, nat>, o: nat, b: nat, blks: seq<nat>)
    requires Holds(ents, m) && AllBelow(m, o) && forall i :: 0 <= i < |blks| ==> blks[i] == b + i
    ensures Holds(ents + [Ent(o, blks)], Added(m, o, b, |blks|))
  {
    var ents', m' := ents + [Ent(o, blks)], Added(m, o, b, |blks|);
    forall i: nat, x: nat | i < |ents'| && ents'[i].Has(x)
      ensures x in m' && m'[x] == ents'[i].blks[x - ents'[i].startoff]
    {
      AddedAt(m, o, b, |blks|, x);
      if i < |ents| {
        assert ents[i].Has(x) && ents'[i] == ents[i] && x in m;
      } else {
        assert ents'[i].blks[x - o] == b + (x - o);
      }
    }
    forall x | x in m'
      ensures Somewhere(ents', x)
    {
      AddedAt(m, o, b, |blks|, x);
      if x in m {
        var i :| 0 <= i < |ents| && ents[i].Has(x);
        assert ents'[i].Has(x);
      } else {
        assert ents'[|ents|].Has(x);
      }
    }
  }

  /** The entries with more blocks at the end of the last one. */
  ghost function Grown(ents: seq<Ent>, blks: seq<nat>): seq<Ent>
    requires ents != []
  {
    ents[|ents| - 1 := Ent(ents[|ents| - 1].startoff, ents[|ents| - 1].blks + blks)]
  }

  lemma {:induction false} GrownShape(ents: seq<Ent>, blks: seq<nat>)
    requires Shape(ents) && ents != [] && ents[|ents| - 1].End() + |blks| <= OFF_LIMIT
    ensures Shape(Grown(ents, blks))
  {
    forall i | 0 <= i < |ents|
      ensures EntOk(Grown(ents, blks), i)
    {
      assert EntOk(ents, i);
    }
  }

  /** What the grown entries hold: the old offsets, and the new ones at the end. */
  lemma {:induction false} GrownHas(ents: seq<Ent>, blks: seq<nat>, i: nat, x: nat)
    requires i < |ents|
    ensures var last, e := ents[|ents| - 1], Grown(ents, blks)[i];
            && (e.Has(x) <==> ents[i].Has(x) || (i == |ents| - 1 && last.End() <= x < last.End() + |blks|))
            && (ents[i].Has(x) ==> e.blks[x - e.startoff] == ents[i].blks[x - ents[i].startoff])
            && (e.Has(x) && !ents[i].Has(x) ==> e.blks[x - e.startoff] == blks[x - last.End()])
  {
  }

  lemma {:induction false} GrowEnt(ents: seq<Ent>, m: map<nat, nat>, o: nat, b: nat, blks: seq<nat>)
    requires Holds(ents, m) && ents != [] && o == ents[|ents| - 1].End() && AllBelow(m, o)
    requires forall i :: 0 <= i < |blks| ==> blks[i] == b + i
    ensures Holds(Grown(ents, blks), Added(m, o, b, |blks|))
  {
    var ents', m' := Grown(ents, blks), Added(m, o, b, |blks|);
    forall i: nat, x: nat | i < |ents'| && ents'[i].Has(x)
      ensures x in m' && m'[x] == ents'[i].blks[x - ents'[i].startoff]
    {
      AddedAt(m, o, b, |blks|, x);
      GrownHas(ents, blks, i, x);
      if ents[i].Has(x) { assert x in m; } else { assert blks[x - o] == b + (x - o); }
    }
    forall x | x in m'
      ensures Somewhere(ents', x)
    {
      AddedAt(m, o, b, |blks|, x);
      if x in m {
        var i :| 0 <= i < |ents| && ents[i].Has(x);
        GrownHas(ents, blks, i, x);
      } else {
        GrownHas(ents, blks, |ents| - 1, x);
      }
    }
  }

  /** The offset just behind the last entry is not below any mapped offset. */
  lemma {:induction false} LastEnd(ents: seq<Ent>, m: map<nat, nat>)
    requires Shape(ents) && Holds(ents, m) && ents != []
    ensures AllBelow(m, ents[|ents| - 1].End())
    ensures ents[|ents| - 1].End() - 1 in m
  {
    forall x | x in m
      ensures x < ents[|ents| - 1].End()
    {
      var i :| 0 <= i < |ents| && ents[i].Has(x);
      Apart(ents, i, |ents| - 1);
    }
    Apart(ents, |ents| - 1, |ents| - 1);
    assert ents[|ents| - 1].Has(ents[|ents| - 1].End() - 1);
  }

  // ---------------------------------------------------------------------------
  // One block, anywhere
  // ---------------------------------------------------------------------------

  /** Consecutive blocks, as blkent_new and blkent_append fill them in. */
  function Run(b: nat, c: nat): seq<nat> { seq(c, i => b + i) }

  /** blkmap_set_blk goes on to the next entry; an entry at offset 0 stops it, by unsigned wrap-around. */
  predicate Passes(e: Ent, o: nat) { e.startoff > 0 && o > e.End() }

  /** blkmap_set_blk, from entry i on. */
  function SetBlkFrom(ents: seq<Ent>, i: nat, o: nat, b: nat): seq<Ent>
    requires i <= |ents|
    decreases |ents| - i
  {
    if i < |ents| && Passes(ents[i], o) then SetBlkFrom(ents, i + 1, o, b) else SetAt(ents, i, o, b)
  }

  /** What it does where it stops; blkent_prepend stores the block after the one it is given. */
  function SetAt(ents: seq<Ent>, i: nat, o: nat, b: nat): seq<Ent>
    requires i <= |ents|
  {
    if i == |ents| then ents + [Ent(o, [b])]
    else
      var e := ents[i];
      if e.startoff == 0 || o + 1 < e.startoff then ents[..i] + [Ent(o, [b])] + ents[i..]
      else if o + 1 == e.startoff then ents[..i] + [Ent(o, [b + 1] + e.blks)] + ents[i + 1..]
      else if e.Has(o) then ents[..i] + [Ent(e.startoff, e.blks[o - e.startoff := b])] + ents[i + 1..]
      else if i + 1 == |ents| || e.End() + 1 < ents[i + 1].startoff
      then ents[..i] + [Ent(e.startoff, e.blks + [b])] + ents[i + 1..]
      else Joined(ents, i, b)
  }

  /**
    The entry grows up to the next one and takes it in, with the blocks that follow its first one.
    blkmap_shrink then moves the entries the wrong way: all that follow become the one taken in.
  */
  function Joined(ents: seq<Ent>, i: nat, b: nat): seq<Ent>
    requires i + 1 < |ents|
  {
    var e, n := ents[i], ents[i + 1];
    var first := if n.blks == [] then 0 else n.blks[0];
    ents[..i] + [Ent(e.startoff, e.blks + [b] + Run(first, |n.blks|))] + seq(|ents| - i - 2, _ => n)
  }

  /** The block can be placed relative to entry i. */
  predicate FitsAt(ents: seq<Ent>, i: nat, o: nat)
    requires i < |ents|
  {
    && (o + 1 == ents[i].startoff ==> i > 0 && ents[i - 1].End() == o)
    && (o == ents[i].End() && i + 1 < |ents| && ents[i + 1].startoff == o + 1 ==>
          i + 2 == |ents| && ents[i + 1].blks != [] && ents[i + 1].blks == Run(ents[i + 1].blks[0], |ents[i + 1].blks|))
  }

  /**
    Nothing starts at offset 0; the block is not just before an entry, unless it closes the gap between
    two; and then the second is the last, with consecutive blocks.
  */
  ghost predicate Fits(ents: seq<Ent>, o: nat) {
    (ents != [] ==> ents[0].startoff > 0) && forall i :: 0 <= i < |ents| ==> FitsAt(ents, i, o)
  }

  /** Some entry maps x to v. */
  ghost predicate Maps(ents: seq<Ent>, x: nat, v: nat) {
    exists i :: 0 <= i < |ents| && EntMaps(ents[i], x, v)
  }

  predicate EntMaps(e: Ent, x: nat, v: nat) { e.Has(x) && e.blks[x - e.startoff] == v }

  lemma {:induction false} MapsConcat(a: seq<Ent>, c: seq<Ent>, x: nat, v: nat)
    ensures Maps(a + c, x, v) <==> Maps(a, x, v) || Maps(c, x, v)
  {
    if Maps(a, x, v) {
      var i :| 0 <= i < |a| && EntMaps(a[i], x, v);
      assert EntMaps((a + c)[i], x, v);
    }
    if Maps(c, x, v) {
      var i :| 0 <= i < |c| && EntMaps(c[i], x, v);
      assert EntMaps((a + c)[|a| + i], x, v);
    }
  }

  /** The entries hold a map exactly when they map what it maps. */
  lemma {:induction false} HoldsIsMaps(ents: seq<Ent>, m: map<nat, nat>)
    ensures Holds(ents, m) <==> forall x: nat, v: nat :: Maps(ents, x, v) <==> x in m && m[x] == v
  {
    if Holds(ents, m) {
      forall x: nat, v: nat
        ensures Maps(ents, x, v) <==> x in m && m[x] == v
      {
        if x in m && m[x] == v {
          var i :| 0 <= i < |ents| && ents[i].Has(x);
          assert EntMaps(ents[i], x, v);
        }
      }
    }
    if forall x: nat, v: nat :: Maps(ents, x, v) <==> x in m && m[x] == v {
      forall i: nat, x: nat | i < |ents| && ents[i].Has(x)
        ensures x in m && m[x] == ents[i].blks[x - ents[i].startoff]
      {
        assert EntMaps(ents[i], x, ents[i].blks[x - ents[i].startoff]);
        assert Maps(ents, x, ents[i].blks[x - ents[i].startoff]);
      }
      forall x | x in m
        ensures Somewhere(ents, x)
      {
        assert Maps(ents, x, m[x]);
      }
    }
  }

  /** Changing some entries in the middle so that just o changes. */
  lemma {:induction false} ReplaceHolds(pre: seq<Ent>, mid: seq<Ent>, mid': seq<Ent>, post: seq<Ent>, m: map<nat, nat>,
                                        o: nat, b: nat)
    requires Holds(pre + mid + post, m) && !Somewhere(pre, o) && !Somewhere(post, o)
    requires forall x: nat, v: nat :: Maps(mid', x, v) <==> if x == o then v == b else Maps(mid, x, v)
    ensures Holds(pre + mid' + post, m[o := b])
  {
    HoldsIsMaps(pre + mid + post, m);
    forall x: nat, v: nat
      ensures Maps(pre + mid' + post, x, v) <==> x in m[o := b] && m[o := b][x] == v
    {
      assert Maps(pre + mid + post, x, v) <==> x in m && m[x] == v;
      MapsConcat(pre + mid, post, x, v);
      MapsConcat(pre, mid, x, v);
      MapsConcat(pre + mid', post, x, v);
      MapsConcat(pre, mid', x, v);
    }
    HoldsIsMaps(pre + mid' + post, m[o := b]);
  }

  /** Changing some entries in the middle keeps the shape, if they keep theirs and their distance. */
  lemma {:induction false} ReplaceShape(pre: seq<Ent>, mid: seq<Ent>, mid': seq<Ent>, post: seq<Ent>)
    requires Shape(pre + mid + post) && Shape(mid') && mid' != []
    requires pre != [] ==> pre[|pre| - 1].End() < mid'[0].startoff
    requires post != [] ==> mid'[|mid'| - 1].End() < post[0].startoff
    ensures Shape(pre + mid' + post)
  {
    var was, now := pre + mid + post, pre + mid' + post;
    forall i | 0 <= i < |now|
      ensures EntOk(now, i)
    {
      if i < |pre| {
        assert EntOk(was, i) && was[i] == pre[i] == now[i];
      } else if i < |pre| + |mid'| {
        assert EntOk(mid', i - |pre|);
      } else {
        assert EntOk(was, i - |mid'| + |mid|);
      }
    }
  }

  /** Where it stops. */
  lemma {:induction false} StopsAt(ents: seq<Ent>, i: nat, o: nat, b: nat) returns (k: nat)
    requires i <= |ents| && forall j :: 0 <= j < i ==> Passes(ents[j], o)
    ensures i <= k <= |ents| && (forall j :: 0 <= j < k ==> Passes(ents[j], o))
    ensures k < |ents| ==> !Passes(ents[k], o)
    ensures SetBlkFrom(ents, i, o, b) == SetAt(ents, k, o, b)
    decreases |ents| - i
  {
    if i < |ents| && Passes(ents[i], o) { k := StopsAt(ents, i + 1, o, b); } else { k := i; }
  }

  /** The entries before and after the place do not have the offset. */
  lemma {:induction false} NotElsewhere(ents: seq<Ent>, k: nat, n: nat, o: nat)
    requires Shape(ents) && k <= n <= |ents| && (forall j :: 0 <= j < k ==> Passes(ents[j], o))
    requires n < |ents| ==> o < ents[n].startoff
    ensures !Somewhere(ents[..k], o) && !Somewhere(ents[n..], o)
  {
    forall j | 0 <= j < |ents| - n
      ensures !ents[n..][j].Has(o)
    {
      Apart(ents, n, n + j);
      assert ents[n..][j] == ents[n + j];
    }
    forall j | 0 <= j < k
      ensures !ents[..k][j].Has(o)
    {
      assert Passes(ents[j], o);
    }
  }

  /** One entry that maps one offset. */
  lemma {:induction false} OneMaps(e: Ent, x: nat, v: nat)
    ensures Maps([e], x, v) <==> EntMaps(e, x, v)
  {
    assert [e][0] == e;
  }

  /** Entries k .. n - 1 give way to one entry that maps what they do, and o to b. */
  lemma {:induction false} PutOne(ents: seq<Ent>, m: map<nat, nat>, k: nat, n: nat, e: Ent, o: nat, b: nat)
    requires Shape(ents) && Holds(ents, m) && k <= n <= |ents| && (forall j :: 0 <= j < k ==> Passes(ents[j], o))
    requires n < |ents| ==> o < ents[n].startoff && e.End() < ents[n].startoff
    requires 1 <= |e.blks| && e.End() <= OFF_LIMIT && (k > 0 ==> ents[k - 1].End() < e.startoff)
    requires forall x: nat, v: nat :: EntMaps(e, x, v) <==> if x == o then v == b else Maps(ents[k..n], x, v)
    ensures Shape(ents[..k] + [e] + ents[n..]) && Holds(ents[..k] + [e] + ents[n..], m[o := b])
  {
    var pre, mid, post := ents[..k], ents[k..n], ents[n..];
    assert ents == pre + mid + post;
    NotElsewhere(ents, k, n, o);
    forall x: nat, v: nat
      ensures Maps([e], x, v) <==> if x == o then v == b else Maps(mid, x, v)
    {
      OneMaps(e, x, v);
    }
    ReplaceHolds(pre, mid, [e], post, m, o, b);
    assert Shape([e]) by { assert EntOk([e], 0); }
    ReplaceShape(pre, mid, [e], post);
  }

  /** A new entry of its own. */
  lemma {:induction false} PutNew(ents: seq<Ent>, m: map<nat, nat>, k: nat, o: nat, b: nat)
    requires Shape(ents) && Holds(ents, m) && k <= |ents| && (forall j :: 0 <= j < k ==> Passes(ents[j], o))
    requires o < OFF_LIMIT && (k < |ents| ==> o + 1 < ents[k].startoff)
    ensures Shape(ents[..k] + [Ent(o, [b])] + ents[k..]) && Holds(ents[..k] + [Ent(o, [b])] + ents[k..], m[o := b])
  {
    assert ents[k..k] == [];
    PutOne(ents, m, k, k, Ent(o, [b]), o, b);
  }

  /** The entry has the offset. */
  lemma {:induction false} PutInside(ents: seq<Ent>, m: map<nat, nat>, k: nat, o: nat, b: nat)
    requires Shape(ents) && Holds(ents, m) && k < |ents| && (forall j :: 0 <= j < k ==> Passes(ents[j], o))
    requires ents[k].Has(o)
    ensures var e := Ent(ents[k].startoff, ents[k].blks[o - ents[k].startoff := b]);
            Shape(ents[..k] + [e] + ents[k + 1..]) && Holds(ents[..k] + [e] + ents[k + 1..], m[o := b])
  {
    var e := Ent(ents[k].startoff, ents[k].blks[o - ents[k].startoff := b]);
    assert ents[k..k + 1] == [ents[k]];
    forall x: nat, v: nat
      ensures EntMaps(e, x, v) <==> if x == o then v == b else Maps([ents[k]], x, v)
    {
      OneMaps(ents[k], x, v);
    }
    Apart(ents, k, k);
    if k > 0 { Apart(ents, k - 1, k); }
    if k + 1 < |ents| { Apart(ents, k, k + 1); }
    PutOne(ents, m, k, k + 1, e, o, b);
  }

  /** The offset is just behind the entry. */
  lemma {:induction false} PutBehind(ents: seq<Ent>, m: map<nat, nat>, k: nat, o: nat, b: nat)
    requires Shape(ents) && Holds(ents, m) && k < |ents| && (forall j :: 0 <= j < k ==> Passes(ents[j], o))
    requires o == ents[k].End() < OFF_LIMIT && (k + 1 < |ents| ==> o + 1 < ents[k + 1].startoff)
    ensures var e := Ent(ents[k].startoff, ents[k].blks + [b]);
            Shape(ents[..k] + [e] + ents[k + 1..]) && Holds(ents[..k] + [e] + ents[k + 1..], m[o := b])
  {
    var e := Ent(ents[k].startoff, ents[k].blks + [b]);
    assert ents[k..k + 1] == [ents[k]];
    forall x: nat, v: nat
      ensures EntMaps(e, x, v) <==> if x == o then v == b else Maps([ents[k]], x, v)
    {
      OneMaps(ents[k], x, v);
    }
    if k > 0 { Apart(ents, k - 1, k); }
    PutOne(ents, m, k, k + 1, e, o, b);
  }

  /** The offset closes the gap to the last entry, which has consecutive blocks. */
  lemma {:induction false} PutBetween(ents: seq<Ent>, m: map<nat, nat>, k: nat, o: nat, b: nat)
    requires Shape(ents) && Holds(ents, m) && k + 2 == |ents| && (forall j :: 0 <= j < k ==> Passes(ents[j], o))
    requires o == ents[k].End() && o + 1 == ents[k + 1].startoff
    requires ents[k + 1].blks != [] && ents[k + 1].blks == Run(ents[k + 1].blks[0], |ents[k + 1].blks|)
    ensures Shape(Joined(ents, k, b)) && Holds(Joined(ents, k, b), m[o := b])
  {
    var e := Ent(ents[k].startoff, ents[k].blks + [b] + ents[k + 1].blks);
    assert ents[k..k + 2] == [ents[k]] + [ents[k + 1]] && ents[k + 2..] == [];
    assert Joined(ents, k, b) == ents[..k] + [e] + ents[k + 2..];
    forall x: nat, v: nat
      ensures EntMaps(e, x, v) <==> if x == o then v == b else Maps(ents[k..k + 2], x, v)
    {
      MapsConcat([ents[k]], [ents[k + 1]], x, v);
      OneMaps(ents[k], x, v);
      OneMaps(ents[k + 1], x, v);
    }
    Apart(ents, k + 1, k + 1);
    if k > 0 { Apart(ents, k - 1, k); }
    PutOne(ents, m, k, k + 2, e, o, b);
  }

  /** Otherwise closing a gap leaves the entries out of order, or maps some offset wrongly. */
  lemma {:induction false} BadJoin(ents: seq<Ent>, m: map<nat, nat>, k: nat, o: nat, b: nat)
    requires Shape(ents) && Holds(ents, m) && k + 1 < |ents| && o == ents[k].End() && o + 1 == ents[k + 1].startoff
    requires ents[k + 1].blks != []
    requires k + 2 < |ents| || ents[k + 1].blks != Run(ents[k + 1].blks[0], |ents[k + 1].blks|)
    ensures !(Shape(Joined(ents, k, b)) && Holds(Joined(ents, k, b), m[o := b]))
  {
    var now, n := Joined(ents, k, b), ents[k + 1];
    Apart(ents, k + 1, k + 1);
    if k + 2 < |ents| {
      assert now[k + 1] == n;
      assert !EntOk(now, k);
    } else {
      var run := Run(n.blks[0], |n.blks|);
      var j :| 0 <= j < |run| && n.blks[j] != run[j];
      var x := n.startoff + j;
      assert ents[k + 1].Has(x) && now[k].Has(x);
      assert m[o := b][x] == n.blks[j] && now[k].blks[x - now[k].startoff] == run[j];
    }
  }

  /** Whether the block fits depends on the entry where the search stops. */
  lemma {:induction false} FitsWhereStopped(ents: seq<Ent>, k: nat, o: nat)
    requires Shape(ents) && k <= |ents| && (forall j :: 0 <= j < k ==> Passes(ents[j], o))
    requires k < |ents| ==> !Passes(ents[k], o)
    ensures Fits(ents, o) <==> (k < |ents| ==> ents[k].startoff > 0 && FitsAt(ents, k, o))
  {
    if k < |ents| && ents[k].startoff == 0 && k > 0 { Apart(ents, k - 1, k); }
    if k < |ents| ==> ents[k].startoff > 0 && FitsAt(ents, k, o) {
      forall i | 0 <= i < |ents|
        ensures FitsAt(ents, i, o)
      {
        Apart(ents, i, i);
        if i < k {
          assert Passes(ents[i], o);
        } else if k < i {
          Apart(ents, k, i - 1);
          Apart(ents, i - 1, i - 1);
          Apart(ents, i - 1, i);
        }
      }
    }
  }

  /** One block anywhere: the map is updated at that offset if and only if the block fits. */
  lemma {:induction false} SetBlkUpdates(ents: seq<Ent>, m: map<nat, nat>, o: nat, b: nat)
    requires Shape(ents) && Holds(ents, m) && o < OFF_LIMIT
    ensures var now := SetBlkFrom(ents, 0, o, b);
            Shape(now) && Holds(now, m[o := b]) <==> Fits(ents, o)
  {
    var k := StopsAt(ents, 0, o, b);
    FitsWhereStopped(ents, k, o);
    SetAtUpdates(ents, m, k, o, b);
  }

  lemma {:induction false} HoldsAt(ents: seq<Ent>, m: map<nat, nat>, i: nat, x: nat)
    requires Holds(ents, m) && i < |ents| && ents[i].Has(x)
    ensures x in m && EntMaps(ents[i], x, m[x])
  {
  }

  lemma {:induction false} SetAtUpdates(ents: seq<Ent>, m: map<nat, nat>, k: nat, o: nat, b: nat)
    requires Shape(ents) && Holds(ents, m) && o < OFF_LIMIT && k <= |ents|
    requires (forall j :: 0 <= j < k ==> Passes(ents[j], o)) && (k < |ents| ==> !Passes(ents[k], o))
    ensures var now := SetAt(ents, k, o, b);
            Shape(now) && Holds(now, m[o := b]) <==> (k < |ents| ==> ents[k].startoff > 0 && FitsAt(ents, k, o))
  {
    if k == |ents| {
      assert ents[..k] + [Ent(o, [b])] + ents[k..] == ents + [Ent(o, [b])];
      PutNew(ents, m, k, o, b);
    } else {
      Apart(ents, k, k);
      var e, now := ents[k], SetAt(ents, k, o, b);
      if e.startoff == 0 {
        assert now[k + 1] == e && !EntOk(now, k);
      } else if o + 1 < e.startoff {
        PutNew(ents, m, k, o, b);
      } else if o + 1 == e.startoff {
        assert EntMaps(now[k], o, b + 1);
        if Holds(now, m[o := b]) {
          HoldsAt(now, m[o := b], k, o);
          assert false;
        }
        if k > 0 { assert Passes(ents[k - 1], o); }
      } else if e.Has(o) {
        PutInside(ents, m, k, o, b);
      } else if k + 1 == |ents| || o + 1 < ents[k + 1].startoff {
        PutBehind(ents, m, k, o, b);
      } else {
        Apart(ents, k, k + 1);
        if FitsAt(ents, k, o) { PutBetween(ents, m, k, o, b); } else { BadJoin(ents, m, k, o, b); }
      }
    }
  }

  /** A block set just before an entry is stored as the block after it. */
  lemma {:induction false} PrependExample()
    ensures SetBlkFrom([Ent(11, [70])], 0, 10, 50) == [Ent(10, [51, 70])] && !Fits([Ent(11, [70])], 10)
  {
    var ents := [Ent(11, [70])];
    assert !FitsAt(ents, 0, 10);
    assert [51] + [70] == [51, 70] && ents[..0] == [] && ents[1..] == [];
    assert SetAt(ents, 0, 10, 50) == [Ent(10, [51, 70])];
  }
}
