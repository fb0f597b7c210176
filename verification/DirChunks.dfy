/**
  How xfs_metadump gathers the extents of a multi-block directory into whole directory blocks
  (db/metadump.c, process_multi_fsb_dir): a map and a length that outlive the calls.
*/
module DirChunks {

  /** One mapping: len filesystem blocks from block `start`. */
  datatype Piece = Piece(start: nat, len: nat)

  /** n consecutive blocks. */
  function Blocks(s: nat, n: nat): (r: seq<nat>)
    ensures |r| == n && forall i :: 0 <= i < n ==> r[i] == s + i
  {
    if n == 0 then [] else Blocks(s, n - 1) + [s + n - 1]
  }

  lemma {:induction false} Assoc<T>(a: seq<T>, b: seq<T>, c: seq<T>)
    ensures a + (b + c) == (a + b) + c
  {
  }

  lemma {:induction false} BlocksSplit(s: nat, k: nat, n: nat)
    ensures Blocks(s, k + n) == Blocks(s, k) + Blocks(s + k, n)
  {
    if n > 0 {
      BlocksSplit(s, k, n - 1);
      Assoc(Blocks(s, k), Blocks(s + k, n - 1), [s + k + n - 1]);
    }
  }

  /** The blocks of a map, in order. */
  function Flat(ps: seq<Piece>): seq<nat> {
    if ps == [] then [] else Flat(ps[..|ps| - 1]) + Blocks(ps[|ps| - 1].start, ps[|ps| - 1].len)
  }

  /** The blocks of all maps that were written, in order. */
  function FlatAll(maps: seq<seq<Piece>>): seq<nat> {
    if maps == [] then [] else FlatAll(maps[..|maps| - 1]) + Flat(maps[|maps| - 1])
  }

  lemma {:induction false} FlatAppend(ps: seq<Piece>, p: Piece)
    ensures Flat(ps + [p]) == Flat(ps) + Blocks(p.start, p.len)
  {
    assert (ps + [p])[..|ps|] == ps;
  }

  lemma {:induction false} FlatAllAppend(maps: seq<seq<Piece>>, ps: seq<Piece>)
    ensures FlatAll(maps + [ps]) == FlatAll(maps) + Flat(ps)
  {
    assert (maps + [ps])[..|maps|] == maps;
  }

  ghost predicate NoEmptyPiece(ps: seq<Piece>) {
    forall i :: 0 <= i < |ps| ==> ps[i].len >= 1
  }

  /** So there are no more pieces than blocks. */
  lemma {:induction false} PiecesFit(ps: seq<Piece>)
    requires NoEmptyPiece(ps)
    ensures |ps| <= |Flat(ps)|
  {
    if ps != [] { PiecesFit(ps[..|ps| - 1]); }
  }

  /** A map for one directory block: exactly fsbcount blocks in at most fsbcount pieces. */
  ghost predicate Whole(ps: seq<Piece>, fsbcount: nat) {
    |Flat(ps)| == fsbcount && |ps| <= fsbcount && NoEmptyPiece(ps)
  }

  class DirMap {
    const fsbcount: nat
    var pending: seq<Piece>
    var length: nat
    ghost var flushed: seq<seq<Piece>>

    ghost predicate Valid()
      reads this
    {
      && length < fsbcount && |Flat(pending)| == length && NoEmptyPiece(pending)
      && forall i :: 0 <= i < |flushed| ==> Whole(flushed[i], fsbcount)
    }

    /** Everything taken in so far: what was written and what is pending. */
    ghost function Taken(): seq<nat>
      reads this
    {
      FlatAll(flushed) + Flat(pending)
    }

    constructor (fsbcount: nat)
      requires fsbcount > 0
      ensures Valid() && this.fsbcount == fsbcount && Taken() == []
    {
      this.fsbcount := fsbcount;
      pending, length, flushed := [], 0, [];
    }

    /** Add one piece; reaching fsbcount blocks completes the map. */
    method AddPiece(s: nat, c: nat) returns (len: nat)
      requires Valid() && c > 0
      modifies this
      ensures 1 <= len <= c && Taken() == old(Taken()) + Blocks(s, len) && flushed == old(flushed)
      ensures NoEmptyPiece(pending) && length < fsbcount
      ensures if length == 0 then Whole(pending, fsbcount) else Valid() && len == c
    {
      if length + c >= fsbcount {
        len := fsbcount - length;
        length := 0;
      } else {
        length := length + c;
        len := c;
      }
      FlatAppend(pending, Piece(s, len));
      pending := pending + [Piece(s, len)];
      PiecesFit(pending);
      Assoc(FlatAll(flushed), Flat(old(pending)), Blocks(s, len));
    }

    /** Read and write the directory block that is complete; either may fail. */
    method Flush() returns (ok: bool)
      requires Whole(pending, fsbcount) && length == 0 < fsbcount
      requires forall i :: 0 <= i < |flushed| ==> Whole(flushed[i], fsbcount)
      modifies this
      ensures Valid() && Taken() == old(Taken()) && pending == [] && flushed == old(flushed) + [old(pending)]
    {
      FlatAllAppend(flushed, pending);
      flushed := flushed + [pending];
      pending := [];
      ok := *;
    }

    /**
      process_multi_fsb_dir for the extent of c blocks at s. Every map completed covers one directory
      block, and the maps completed followed by the pending one are the blocks taken in, in order; all
      c of them unless a failed write or read made it stop.
    */
    method Process(s: nat, c: nat) returns (ok: bool, done: nat)
      requires Valid()
      modifies this
      ensures Valid() && old(flushed) <= flushed && done <= c && (ok ==> done == c)
      ensures Taken() == old(Taken()) + Blocks(s, done)
      ensures !ok ==> pending == [] && |flushed| > |old(flushed)|
    {
      ok, done := true, 0;
      while done < c && ok
        invariant Valid() && old(flushed) <= flushed && done <= c
        invariant Taken() == old(Taken()) + Blocks(s, done)
        invariant !ok ==> pending == [] && |flushed| > |old(flushed)|
        decreases c - done, ok
      {
        var len := AddPiece(s + done, c - done);
        BlocksSplit(s, done, len);
        Assoc(old(Taken()), Blocks(s, done), Blocks(s + done, len));
        if length == 0 { ok := Flush(); }
        done := done + len;
      }
    }
  }
}
