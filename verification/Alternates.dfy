/**
  Alternate names with the same hash (db/obfuscate.c, flip_bit and find_alternate): every set bit of
  a sequence number selects a pair of name bits that meet in the hash, and flips both.
*/
module Alternates {
  import opened Arith
  import opened NameHash

  /** A bit of a byte, the byte counted from a starting point near the end of the name. */
  datatype Spot = Spot(byte: nat, bit: nat)

  datatype Row = Row(a: Spot, b: Spot)

  const ROWS := 14

  /** bit_to_flip[][2] */
  function RowAt(r: nat): Row
    requires r < ROWS
  {
    if r == 0 then Row(Spot(0, 0), Spot(1, 7))
    else if r == 1 then Row(Spot(1, 0), Spot(2, 7))
    else if r == 2 then Row(Spot(2, 0), Spot(3, 7))
    else if r == 3 then Row(Spot(0, 4), Spot(4, 0))
    else if r == 4 then Row(Spot(0, 5), Spot(4, 1))
    else if r == 5 then Row(Spot(0, 6), Spot(4, 2))
    else if r == 6 then Row(Spot(0, 7), Spot(4, 3))
    else if r == 7 then Row(Spot(3, 0), Spot(4, 7))
    else if r == 8 then Row(Spot(0, 0), Spot(5, 3))
    else if r == 9 then Row(Spot(0, 1), Spot(5, 4))
    else if r == 10 then Row(Spot(0, 2), Spot(5, 5))
    else if r == 11 then Row(Spot(0, 3), Spot(5, 6))
    else if r == 12 then Row(Spot(0, 4), Spot(5, 7))
    else Row(Spot(4, 0), Spot(5, 7))
  }

  /** 1 << k */
  function Bit(k: nat): bv8
    requires k < 8
  {
    if k == 0 then 1 else if k == 1 then 2 else if k == 2 then 4 else if k == 3 then 8
    else if k == 4 then 16 else if k == 5 then 32 else if k == 6 then 64 else 128
  }

  /** The last row whose bytes all exist in a name of this length. */
  function LastRow(len: nat): (r: nat)
    requires len >= 2
    ensures r < ROWS
  {
    if len == 2 then 0 else if len == 3 then 1 else if len == 4 then 2 else if len == 5 then 7 else 13
  }

  lemma {:induction false} LastRowIs(len: nat, k: nat)
    requires len >= 2 && k < ROWS
    ensures RowAt(k).b.byte < len <==> k <= LastRow(len)
  {
  }

  /** Where the rows start to apply: their last byte is the last byte of the name. */
  function Offset(len: nat): nat
    requires len >= 2
  {
    LastRowIs(len, LastRow(len));
    len - (RowAt(LastRow(len)).b.byte + 1)
  }

  lemma {:induction false} RowFacts(r: nat)
    requires r < ROWS
    ensures var row := RowAt(r);
            row.a.byte < row.b.byte <= 5 && row.a.bit < 8 && row.b.bit < 8
  {
  }

  lemma {:induction false} RowsAscend(r: nat, top: nat)
    requires r <= top < ROWS
    ensures RowAt(r).b.byte <= RowAt(top).b.byte
  {
  }

  /** A sequence with two elements replaced. */
  function PutTwo<T>(s: seq<T>, p0: nat, v0: T, p1: nat, v1: T): seq<T>
    requires p0 < p1 < |s|
  {
    s[p0 := v0][p1 := v1]
  }

  /** The two bytes and masks that a bit sequence number selects. */
  datatype Pair = Pair(p0: nat, m0: bv8, p1: nat, m1: bv8)

  function PairFor(len: nat, bitseq: nat): (q: Pair)
    requires len >= 2 && bitseq <= LastRow(len)
    ensures q.p0 < q.p1 < len
  {
    var row := RowAt(LastRow(len) - bitseq);
    RowFacts(LastRow(len) - bitseq);
    RowsAscend(LastRow(len) - bitseq, LastRow(len));
    Pair(Offset(len) + row.a.byte, Bit(row.a.bit), Offset(len) + row.b.byte, Bit(row.b.bit))
  }

  /** flip_bit: the return code and the name as it is left. */
  function FlipBit(name: Name, bitseq: nat): (int, Name)
    requires |name| >= 2
  {
    if bitseq > LastRow(|name|) then (-1, name)
    else FlipWith(name, PairFor(|name|, bitseq))
  }

  function FlipWith(name: Name, q: Pair): (int, Name)
    requires q.p0 < q.p1 < |name|
  {
    if Invalid(XorByte(name[q.p0], q.m0)) || Invalid(XorByte(name[q.p1], q.m1)) then (0, name)
    else (1, Flipped(name, q))
  }

  /** The name with both bits flipped. */
  function Flipped(name: Name, q: Pair): Name
    requires q.p0 < q.p1 < |name|
  {
    PutTwo(name, q.p0, XorByte(name[q.p0], q.m0), q.p1, XorByte(name[q.p1], q.m1))
  }

  /** The loop of find_alternate, `bits` being what is left of the sequence number above `bitseq`. */
  function FindFrom(name: Name, bits: nat, bitseq: nat): (int, Name)
    requires |name| >= 2
    decreases bits
  {
    if bits == 0 then (1, name)
    else if bits % 2 == 0 then FindFrom(name, bits / 2, bitseq + 1)
    else
      var (code, flipped) := FlipBit(name, bitseq);
      FlipKeepsLength(name, bitseq);
      if code < 1 then (code, flipped) else FindFrom(flipped, bits / 2, bitseq + 1)
  }

  /** find_alternate: 1 with alternate number `sequence`, 0 when it is not valid, -1 when there are no more. */
  function FindAlternate(name: Name, sequence: nat): (int, Name) {
    if sequence == 0 then (1, name)
    else if |name| < 2 then (-1, name)
    else FindFrom(name, sequence, 0)
  }

  lemma {:induction false} FlipKeepsLength(name: Name, bitseq: nat)
    requires |name| >= 2
    ensures |FlipBit(name, bitseq).1| == |name|
  {
  }

  // ---------------------------------------------------------------------------
  // In place
  // ---------------------------------------------------------------------------

  /** The search for the last usable row. */
  method FindLastRow(len: nat) returns (index: nat)
    requires len >= 2
    ensures index == LastRow(len)
  {
    index := 0;
    while index < ROWS && RowAt(index).b.byte < len
      invariant 0 <= index <= ROWS
      invariant forall k :: 0 <= k < index ==> RowAt(k).b.byte < len
    {
      index := index + 1;
    }
    assert RowAt(0).b.byte < len;
    LastRowIs(len, index - 1);
    if index < ROWS { LastRowIs(len, index); }
    index := index - 1;
  }

  method FlipBitInPlace(name: array<bv8>, bitseq: nat) returns (code: int)
    requires name.Length >= 2
    modifies name
    ensures (code, name[..]) == FlipBit(old(name[..]), bitseq)
  {
    var index := FindLastRow(name.Length);
    if bitseq > index {
      return -1;
    }
    var q := PairFor(name.Length, bitseq);
    code := FlipAt(name, q, XorByte(name[..][q.p0], q.m0), XorByte(name[..][q.p1], q.m1));
  }

  /** Only changes the bytes if both results are valid. */
  method FlipAt(name: array<bv8>, q: Pair, v0: bv8, v1: bv8) returns (code: int)
    requires q.p0 < q.p1 < name.Length
    modifies name
    ensures Invalid(v0) || Invalid(v1) ==> code == 0 && name[..] == old(name[..])
    ensures !Invalid(v0) && !Invalid(v1) ==> code == 1 && name[..] == PutTwo(old(name[..]), q.p0, v0, q.p1, v1)
  {
    if Invalid(v0) || Invalid(v1) {
      return 0;
    }
    StoreTwo(name, q.p0, v0, q.p1, v1);
    code := 1;
  }

  method StoreTwo<T>(a: array<T>, p0: nat, v0: T, p1: nat, v1: T)
    requires p0 < p1 < a.Length
    modifies a
    ensures a[..] == PutTwo(old(a[..]), p0, v0, p1, v1)
  {
    a[p0] := v0;
    a[p1] := v1;
  }

  method FindAlternateInPlace(name: array<bv8>, sequence: nat) returns (code: int)
    modifies name
    ensures (code, name[..]) == FindAlternate(old(name[..]), sequence)
  {
    if sequence == 0 {
      return 1;
    }
    if name.Length < 2 {
      return -1;
    }
    var bits, bitseq := sequence, 0;
    while bits != 0
      invariant FindFrom(name[..], bits, bitseq) == FindFrom(old(name[..]), sequence, 0)
      decreases bits
    {
      if bits % 2 != 0 {
        code := FlipBitInPlace(name, bitseq);
        if code < 1 {
          return code;
        }
      }
      bits, bitseq := bits / 2, bitseq + 1;
    }
    code := 1;
  }

  // ---------------------------------------------------------------------------
  // Length, hash and validity
  // ---------------------------------------------------------------------------

  /** A difference in the hash after n more characters. */
  function RolN(d: bv32, n: nat): bv32 {
    if n == 0 then d else Rol7(RolN(d, n - 1))
  }

  /** The two bits of every row meet in the hash. */
  lemma {:induction false} RowsMeet(r: nat)
    requires r < ROWS
    ensures var row := RowAt(r);
            row.a.byte < row.b.byte && row.a.bit < 8 && row.b.bit < 8
            && RolN(Wide(Bit(row.a.bit)), row.b.byte - row.a.byte) == Wide(Bit(row.b.bit))
  {
    RowFacts(r);
    RolOne();
    RolFour();
    RolFive();
  }

  lemma {:induction false} RolOne()
    ensures RolN(1, 1) == 128
  {
    assert RolN(1, 0) == 1;
  }

  lemma {:induction false} RolFour()
    ensures RolN(16, 4) == 1 && RolN(32, 4) == 2 && RolN(64, 4) == 4 && RolN(128, 4) == 8
  {
    RolFourIs(16);
    RolFourIs(32);
    RolFourIs(64);
    RolFourIs(128);
  }

  lemma {:induction false} RolFourIs(d: bv32)
    ensures RolN(d, 4) == Rol28(d)
  {
    assert RolN(d, 1) == Rol7(d);
    assert RolN(d, 2) == Rol7(Rol7(d));
    assert RolN(d, 3) == Rol7(Rol7(Rol7(d)));
    assert RolN(d, 4) == Rol7(Rol7(Rol7(Rol7(d))));
  }

  lemma {:induction false} RolFive()
    ensures RolN(1, 5) == 8 && RolN(2, 5) == 16 && RolN(4, 5) == 32 && RolN(8, 5) == 64 && RolN(16, 5) == 128
  {
    RolFourIs(1);
    RolFourIs(2);
    RolFourIs(4);
    RolFourIs(8);
    RolFourIs(16);
    assert RolN(1, 5) == Rol7(RolN(1, 4));
    assert RolN(2, 5) == Rol7(RolN(2, 4));
    assert RolN(4, 5) == Rol7(RolN(4, 4));
    assert RolN(8, 5) == Rol7(RolN(8, 4));
    assert RolN(16, 5) == Rol7(RolN(16, 4));
  }

  function XorWord(x: bv32, y: bv32): bv32 { x ^ y }

  function XorByte(c: bv8, m: bv8): bv8 { c ^ m }

  function Wide(m: bv8): bv32 { m as bv32 }

  lemma {:induction false} StepDiffBits(h: bv32, d: bv32, c: bv8)
    ensures (c as bv32) ^ (((h ^ d) << 7) | ((h ^ d) >> 25))
         == ((c as bv32) ^ ((h << 7) | (h >> 25))) ^ ((d << 7) | (d >> 25))
  {
  }

  lemma {:induction false} StepFlipBits(h: bv32, c: bv8, m: bv8)
    ensures ((c ^ m) as bv32) ^ ((h << 7) | (h >> 25)) == ((c as bv32) ^ ((h << 7) | (h >> 25))) ^ (m as bv32)
  {
  }

  lemma {:induction false} StepOfDiff(h: bv32, d: bv32, c: bv8)
    ensures Step(h ^ d, c) == Step(h, c) ^ Rol7(d)
  {
    StepDiffBits(h, d, c);
  }

  lemma {:induction false} StepOfFlip(h: bv32, c: bv8, m: bv8)
    ensures Step(h, c ^ m) == Step(h, c) ^ (m as bv32)
  {
    StepFlipBits(h, c, m);
  }

  /** A difference in the hash so far is rotated by the next character. */
  lemma {:induction false} StepDiff(h: bv32, d: bv32, c: bv8)
    ensures Step(XorWord(h, d), c) == XorWord(Step(h, c), Rol7(d))
  {
    StepOfDiff(h, d, c);
    assert XorWord(Step(h, c), Rol7(d)) == Step(h ^ d, c);
  }

  /** A difference in a character enters the hash as it is. */
  lemma {:induction false} StepFlip(h: bv32, c: bv8, m: bv8)
    ensures Step(h, XorByte(c, m)) == XorWord(Step(h, c), Wide(m))
  {
    StepOfFlip(h, c, m);
    assert XorWord(Step(h, c), m as bv32) == Step(h, c ^ m);
  }

  lemma {:induction false} XorTwice(x: bv32, y: bv32)
    ensures XorWord(XorWord(x, y), y) == x
  {
  }

  function Fold<C, H>(step: (H, C) -> H, start: H, s: seq<C>): H {
    if s == [] then start else step(Fold(step, start, s[..|s| - 1]), s[|s| - 1])
  }

  function Iterate<H>(f: H -> H, x: H, n: nat): H {
    if n == 0 then x else f(Iterate(f, x, n - 1))
  }

  /** What the proof below uses of the hash: it is a fold, and differences go through it linearly. */
  datatype Algebra<!C(!new), !H(!new)> =
    Algebra(step: (H, C) -> H, xor: (H, H) -> H, rol: H -> H, flip: (C, C) -> C, wide: C -> H)
  {
    ghost predicate Linear() {
      && (forall h, d, c :: step(xor(h, d), c) == xor(step(h, c), rol(d)))
      && (forall h, c, m :: step(h, flip(c, m)) == xor(step(h, c), wide(m)))
      && (forall x, y :: xor(xor(x, y), y) == x)
    }
  }

  /** The functions of the algebra are those of the hash. */
  ghost predicate OfHash(g: Algebra<bv8, bv32>) {
    && (forall h, c {:trigger Step(h, c)} :: g.step(h, c) == Step(h, c))
    && (forall x, y {:trigger XorWord(x, y)} :: g.xor(x, y) == XorWord(x, y))
    && (forall x {:trigger Rol7(x)} :: g.rol(x) == Rol7(x))
    && (forall c, m {:trigger XorByte(c, m)} :: g.flip(c, m) == XorByte(c, m))
    && (forall m {:trigger Wide(m)} :: g.wide(m) == Wide(m))
  }

  lemma {:induction false} HashIsFold(name: Name, g: Algebra<bv8, bv32>)
    requires OfHash(g)
    ensures Hash(name, false) == Fold(g.step, 0, name)
  {
    if name != [] {
      HashIsFold(name[..|name| - 1], g);
    }
  }

  lemma {:induction false} RolNIsIterate(d: bv32, n: nat, g: Algebra<bv8, bv32>)
    requires OfHash(g)
    ensures RolN(d, n) == Iterate(g.rol, d, n)
  {
    if n > 0 { RolNIsIterate(d, n - 1, g); }
  }

  lemma {:induction false} LinearDiff(g: Algebra<bv8, bv32>, h: bv32, d: bv32, c: bv8)
    requires OfHash(g)
    ensures g.step(g.xor(h, d), c) == g.xor(g.step(h, c), g.rol(d))
  {
    StepDiff(h, d, c);
  }

  lemma {:induction false} LinearFlip(g: Algebra<bv8, bv32>, h: bv32, c: bv8, m: bv8)
    requires OfHash(g)
    ensures g.step(h, g.flip(c, m)) == g.xor(g.step(h, c), g.wide(m))
  {
    StepFlip(h, c, m);
  }

  lemma {:induction false} LinearTwice(g: Algebra<bv8, bv32>, x: bv32, y: bv32)
    requires OfHash(g)
    ensures g.xor(g.xor(x, y), y) == x
  {
    XorTwice(x, y);
  }

  lemma {:induction false} HashIsLinear(g: Algebra<bv8, bv32>)
    requires OfHash(g)
    ensures g.Linear()
  {
    forall h, d, c ensures g.step(g.xor(h, d), c) == g.xor(g.step(h, c), g.rol(d)) { LinearDiff(g, h, d, c); }
    forall h, c, m ensures g.step(h, g.flip(c, m)) == g.xor(g.step(h, c), g.wide(m)) { LinearFlip(g, h, c, m); }
    forall x, y ensures g.xor(g.xor(x, y), y) == x { LinearTwice(g, x, y); }
  }

  lemma {:induction false} HashAlgebra() returns (g: Algebra<bv8, bv32>)
    ensures OfHash(g)
  {
    g := Algebra(Step, XorWord, Rol7, XorByte, Wide);
  }

  /** Folds over the first k elements stay related if every element keeps them so. */
  lemma {:induction false} FoldRelated<C, H>(step: (H, C) -> H, start: H, s: seq<C>, t: seq<C>, related: (nat, H,
                                             H) -> bool, k: nat)
    requires k <= |s| == |t| && related(0, start, start)
    requires forall i: nat, h, h' :: i < |s| && related(i, h, h') ==> related(i + 1, step(h, s[i]), step(h', t[i]))
    ensures related(k, Fold(step, start, s[..k]), Fold(step, start, t[..k]))
  {
    if k > 0 {
      FoldRelated(step, start, s, t, related, k - 1);
      var h, h' := Fold(step, start, s[..k - 1]), Fold(step, start, t[..k - 1]);
      assert s[..k][..k - 1] == s[..k - 1] && t[..k][..k - 1] == t[..k - 1];
      assert Fold(step, start, s[..k]) == step(h, s[k - 1]) && Fold(step, start, t[..k]) == step(h', t[k - 1]);
      assert related(k - 1 + 1, step(h, s[k - 1]), step(h', t[k - 1]));
    }
  }

  /**
    The fold is the same after two flips that meet: from the first on the folds of the prefixes are
    apart, and the second undoes the difference.
  */
  lemma {:induction false} FlipsCancel<C(!new), H(!new)>(g: Algebra<C, H>, start: H, s: seq<C>, p0: nat, m0: C,
                                                         p1: nat, m1: C)
    requires g.Linear() && p0 < p1 < |s| && Iterate(g.rol, g.wide(m0), p1 - p0) == g.wide(m1)
    ensures Fold(g.step, start, PutTwo(s, p0, g.flip(s[p0], m0), p1, g.flip(s[p1], m1))) == Fold(g.step, start, s)
  {
    var t := PutTwo(s, p0, g.flip(s[p0], m0), p1, g.flip(s[p1], m1));
    var d := g.wide(m0);
    var related := (i: nat, h: H, h': H) =>
      if p0 < i <= p1 then h' == g.xor(h, Iterate(g.rol, d, i - 1 - p0)) else h' == h;
    forall i: nat, h, h' | i < |s| && related(i, h, h')
      ensures related(i + 1, g.step(h, s[i]), g.step(h', t[i]))
    {
      PutTwoAt(s, p0, g.flip(s[p0], m0), p1, g.flip(s[p1], m1), i);
      if i == p1 {
        var e := Iterate(g.rol, d, p1 - 1 - p0);
        assert g.step(h', t[i]) == g.xor(g.step(h', s[i]), g.wide(m1));
        assert g.step(h', s[i]) == g.xor(g.step(h, s[i]), g.rol(e));
        assert g.rol(e) == g.wide(m1);
      } else if i == p0 {
        assert Iterate(g.rol, d, 0) == d;
      } else if p0 < i < p1 {
        assert Iterate(g.rol, d, i - p0) == g.rol(Iterate(g.rol, d, i - 1 - p0));
      }
    }
    FoldRelated(g.step, start, s, t, related, |s|);
    assert s[..|s|] == s && t[..|s|] == t;
  }

  lemma {:induction false} PutTwoAt<T>(s: seq<T>, p0: nat, v0: T, p1: nat, v1: T, i: nat)
    requires p0 < p1 < |s| && i < |s|
    ensures PutTwo(s, p0, v0, p1, v1)[i] == if i == p0 then v0 else if i == p1 then v1 else s[i]
  {
  }

  lemma {:induction false} PairMeets(len: nat, bitseq: nat)
    requires len >= 2 && bitseq <= LastRow(len)
    ensures var q := PairFor(len, bitseq);
            RolN(Wide(q.m0), q.p1 - q.p0) == Wide(q.m1)
  {
    RowsMeet(LastRow(len) - bitseq);
    RowMeetsAt(RowAt(LastRow(len) - bitseq), Offset(len), PairFor(len, bitseq));
  }

  lemma {:induction false} RowMeetsAt(row: Row, offset: nat, q: Pair)
    requires row.a.byte < row.b.byte && row.a.bit < 8 && row.b.bit < 8
    requires RolN(Wide(Bit(row.a.bit)), row.b.byte - row.a.byte) == Wide(Bit(row.b.bit))
    requires q == Pair(offset + row.a.byte, Bit(row.a.bit), offset + row.b.byte, Bit(row.b.bit))
    ensures RolN(Wide(q.m0), q.p1 - q.p0) == Wide(q.m1)
  {
    assert q.p1 - q.p0 == row.b.byte - row.a.byte;
  }

  lemma {:induction false} FlipWithValid(name: Name, q: Pair)
    requires q.p0 < q.p1 < |name|
    ensures ValidName(name) ==> ValidName(FlipWith(name, q).1)
  {
    var v0, v1 := XorByte(name[q.p0], q.m0), XorByte(name[q.p1], q.m1);
    if ValidName(name) && !Invalid(v0) && !Invalid(v1) { PutTwoValid(name, q.p0, v0, q.p1, v1); }
  }

  lemma {:induction false} PutTwoValid(name: Name, p0: nat, v0: bv8, p1: nat, v1: bv8)
    requires p0 < p1 < |name| && ValidName(name) && !Invalid(v0) && !Invalid(v1)
    ensures ValidName(PutTwo(name, p0, v0, p1, v1))
  {
    forall i | 0 <= i < |name|
      ensures !Invalid(PutTwo(name, p0, v0, p1, v1)[i])
    {
      PutTwoAt(name, p0, v0, p1, v1, i);
    }
  }

  lemma {:induction false} FlippedByAlgebra(g: Algebra<bv8, bv32>, name: Name, q: Pair)
    requires OfHash(g) && q.p0 < q.p1 < |name|
    ensures Flipped(name, q) == PutTwo(name, q.p0, g.flip(name[q.p0], q.m0), q.p1, g.flip(name[q.p1], q.m1))
  {
  }

  lemma {:induction false} MeetInAlgebra(g: Algebra<bv8, bv32>, m0: bv8, m1: bv8, n: nat)
    requires OfHash(g) && RolN(Wide(m0), n) == Wide(m1)
    ensures Iterate(g.rol, g.wide(m0), n) == g.wide(m1)
  {
    RolNIsIterate(Wide(m0), n, g);
  }

  lemma {:induction false} FoldsAgree(g: Algebra<bv8, bv32>, name: Name, q: Pair, flipped: Name)
    requires g.Linear() && q.p0 < q.p1 < |name| && Iterate(g.rol, g.wide(q.m0), q.p1 - q.p0) == g.wide(q.m1)
    requires flipped == PutTwo(name, q.p0, g.flip(name[q.p0], q.m0), q.p1, g.flip(name[q.p1], q.m1))
    ensures Fold(g.step, 0, flipped) == Fold(g.step, 0, name)
  {
    FlipsCancel(g, 0, name, q.p0, q.m0, q.p1, q.m1);
  }

  lemma {:induction false} FlippedHash(name: Name, q: Pair)
    requires q.p0 < q.p1 < |name| && RolN(Wide(q.m0), q.p1 - q.p0) == Wide(q.m1)
    ensures Hash(Flipped(name, q), false) == Hash(name, false)
  {
    var g := HashAlgebra();
    var flipped := Flipped(name, q);
    assert Fold(g.step, 0, flipped) == Fold(g.step, 0, name) by {
      HashIsLinear(g);
      MeetInAlgebra(g, q.m0, q.m1, q.p1 - q.p0);
      FlippedByAlgebra(g, name, q);
      FoldsAgree(g, name, q, flipped);
    }
    HashIsFold(name, g);
    HashIsFold(flipped, g);
  }

  lemma {:induction false} FlipBitHash(name: Name, bitseq: nat)
    requires |name| >= 2 && bitseq <= LastRow(|name|)
    ensures Hash(FlipWith(name, PairFor(|name|, bitseq)).1, false) == Hash(name, false)
  {
    PairMeets(|name|, bitseq);
    FlippedHash(name, PairFor(|name|, bitseq));
  }

  /** One flip keeps length and hash, and never makes a valid name invalid. */
  lemma {:induction false} FlipKeeps(name: Name, bitseq: nat)
    requires |name| >= 2
    ensures FlipBit(name, bitseq).0 in {-1, 0, 1}
    ensures FlipBit(name, bitseq).0 < 1 ==> FlipBit(name, bitseq).1 == name
    ensures FlipBit(name, bitseq).0 == -1 <==> bitseq > LastRow(|name|)
    ensures Hash(FlipBit(name, bitseq).1, false) == Hash(name, false)
    ensures ValidName(name) ==> ValidName(FlipBit(name, bitseq).1)
  {
    if bitseq <= LastRow(|name|) {
      FlipBitHash(name, bitseq);
      FlipWithValid(name, PairFor(|name|, bitseq));
    }
  }

  lemma {:induction false} FindKeeps(name: Name, bits: nat, bitseq: nat)
    requires |name| >= 2
    ensures var (code, found) := FindFrom(name, bits, bitseq);
            && code in {-1, 0, 1}
            && |found| == |name| && Hash(found, false) == Hash(name, false)
            && (ValidName(name) ==> ValidName(found))
    decreases bits
  {
    if bits > 0 {
      if bits % 2 == 0 {
        FindKeeps(name, bits / 2, bitseq + 1);
      } else {
        FlipKeeps(name, bitseq);
        FlipKeepsLength(name, bitseq);
        var (code, flipped) := FlipBit(name, bitseq);
        if code == 1 { FindKeeps(flipped, bits / 2, bitseq + 1); }
      }
    }
  }

  /**
    Whatever find_alternate returns, partial flips included, the name it leaves has the same length
    and plain hash, and is valid if the original was.
  */
  lemma {:induction false} AlternateKeeps(name: Name, sequence: nat)
    ensures var (code, found) := FindAlternate(name, sequence);
            && code in {-1, 0, 1}
            && |found| == |name| && Hash(found, false) == Hash(name, false)
            && (ValidName(name) ==> ValidName(found))
  {
    if sequence > 0 && |name| >= 2 { FindKeeps(name, sequence, 0); }
  }

  // ---------------------------------------------------------------------------
  // Which alternates are different
  // ---------------------------------------------------------------------------

  predicate HasBit(x: bv8, b: nat)
    requires b < 8
  {
    x & Bit(b) != 0
  }

  predicate BitAt(name: Name, p: nat, b: nat)
    requires p < |name| && b < 8
  {
    HasBit(name[p], b)
  }

  /** Bit sequence number j flips bit b of byte p in a name of length len. */
  predicate Hits(len: nat, j: nat, p: nat, b: nat)
    requires len >= 2
  {
    j <= LastRow(len) && RowHits(RowAt(LastRow(len) - j), Offset(len), p, b)
  }

  predicate RowHits(row: Row, offset: nat, p: nat, b: nat) {
    (p == offset + row.a.byte && b == row.a.bit) || (p == offset + row.b.byte && b == row.b.bit)
  }

  /** Whether the set bits of `bits`, counted from bitseq j on, flip bit b of byte p an odd number of times. */
  predicate Odd(bits: nat, len: nat, j: nat, p: nat, b: nat)
    requires len >= 2
    decreases bits
  {
    bits != 0 && ((bits % 2 == 1 && Hits(len, j, p, b)) != Odd(bits / 2, len, j + 1, p, b))
  }

  lemma {:induction false} XorBit(x: bv8, y: bv8, b: nat, c: nat)
    requires b < 8 && c < 8 && y == XorByte(x, Bit(c))
    ensures HasBit(y, b) == (HasBit(x, b) != (b == c))
  {
  }

  /** What replacing two bytes by themselves with one bit flipped does to bit b of byte p. */
  lemma {:induction false} PairToggles(name: Name, p0: nat, b0: nat, v0: bv8, p1: nat, b1: nat, v1: bv8, p: nat, b: nat)
    requires p0 < p1 < |name| && b0 < 8 && b1 < 8 && p < |name| && b < 8
    requires v0 == XorByte(name[p0], Bit(b0)) && v1 == XorByte(name[p1], Bit(b1))
    ensures BitAt(PutTwo(name, p0, v0, p1, v1), p, b)
         == (BitAt(name, p, b) != ((p == p0 && b == b0) || (p == p1 && b == b1)))
  {
    PutTwoAt(name, p0, v0, p1, v1, p);
    XorBit(name[p0], v0, b, b0);
    XorBit(name[p1], v1, b, b1);
  }

  lemma {:induction false} RowToggles(name: Name, row: Row, q: Pair, p: nat, b: nat)
    requires |name| >= 2 && p < |name| && b < 8 && row.a.bit < 8 && row.b.bit < 8
    requires q == Pair(Offset(|name|) + row.a.byte, Bit(row.a.bit), Offset(|name|) + row.b.byte, Bit(row.b.bit))
    requires q.p0 < q.p1 < |name| && FlipWith(name, q).0 == 1
    ensures |FlipWith(name, q).1| == |name|
    ensures BitAt(FlipWith(name, q).1, p, b) == (BitAt(name, p, b) != RowHits(row, Offset(|name|), p, b))
  {
    PairToggles(name, q.p0, row.a.bit, XorByte(name[q.p0], q.m0), q.p1, row.b.bit, XorByte(name[q.p1], q.m1), p, b);
  }

  lemma {:induction false} FlipToggles(name: Name, j: nat, p: nat, b: nat)
    requires |name| >= 2 && FlipBit(name, j).0 == 1 && p < |name| && b < 8
    ensures |FlipBit(name, j).1| == |name|
    ensures BitAt(FlipBit(name, j).1, p, b) == (BitAt(name, p, b) != Hits(|name|, j, p, b))
  {
    RowFacts(LastRow(|name|) - j);
    RowToggles(name, RowAt(LastRow(|name|) - j), PairFor(|name|, j), p, b);
  }

  lemma {:induction false} FindToggles(name: Name, bits: nat, j: nat, p: nat, b: nat)
    requires |name| >= 2 && FindFrom(name, bits, j).0 == 1 && p < |name| && b < 8
    ensures |FindFrom(name, bits, j).1| == |name|
    ensures BitAt(FindFrom(name, bits, j).1, p, b) == (BitAt(name, p, b) != Odd(bits, |name|, j, p, b))
    decreases bits
  {
    if bits != 0 {
      if bits % 2 == 0 {
        FindToggles(name, bits / 2, j + 1, p, b);
      } else {
        FlipToggles(name, j, p, b);
        FindToggles(FlipBit(name, j).1, bits / 2, j + 1, p, b);
      }
    }
  }

  /** Bitwise exclusive or. */
  function Xor(s: nat, t: nat): nat
    decreases s + t
  {
    if s == 0 && t == 0 then 0
    else 2 * Xor(s / 2, t / 2) + (if s % 2 != t % 2 then 1 else 0)
  }

  lemma {:induction false} OddXor(s: nat, t: nat, len: nat, j: nat, p: nat, b: nat)
    requires len >= 2
    ensures Odd(Xor(s, t), len, j, p, b) == (Odd(s, len, j, p, b) != Odd(t, len, j, p, b))
    decreases s + t
  {
    if s != 0 || t != 0 {
      OddXor(s / 2, t / 2, len, j + 1, p, b);
      var x := Xor(s, t);
      assert x / 2 == Xor(s / 2, t / 2) && (x % 2 == 1 <==> s % 2 != t % 2);
      if x == 0 { assert !Odd(x / 2, len, j + 1, p, b); }
    }
  }

  lemma {:induction false} XorZero(s: nat, t: nat)
    ensures Xor(s, t) == 0 <==> s == t
    decreases s + t
  {
    if s != 0 || t != 0 { XorZero(s / 2, t / 2); }
  }

  lemma {:induction false} ZeroBits(k: nat)
    ensures !BitOf(0, k)
  {
    if k > 0 { ZeroBits(k - 1); }
  }

  lemma {:induction false} OddNone(bits: nat, len: nat, j: nat, p: nat, b: nat)
    requires len >= 2 && forall i :: j <= i ==> !Hits(len, i, p, b)
    ensures !Odd(bits, len, j, p, b)
    decreases bits
  {
    if bits != 0 { OddNone(bits / 2, len, j + 1, p, b); }
  }

  /** A spot that one bit sequence number alone flips shows that bit of the sequence number. */
  lemma {:induction false} OddOne(bits: nat, len: nat, j: nat, p: nat, b: nat, j1: nat)
    requires len >= 2 && j <= j1 && forall i :: j <= i ==> (Hits(len, i, p, b) <==> i == j1)
    ensures Odd(bits, len, j, p, b) == BitOf(bits, j1 - j)
    decreases bits
  {
    if bits == 0 {
      ZeroBits(j1 - j);
    } else if j == j1 {
      OddNone(bits / 2, len, j + 1, p, b);
    } else {
      OddOne(bits / 2, len, j + 1, p, b, j1);
    }
  }

  /** A spot that two of them flip shows whether the two bits differ. */
  lemma {:induction false} OddTwo(bits: nat, len: nat, j: nat, p: nat, b: nat, j1: nat, j2: nat)
    requires len >= 2 && j <= j1 < j2 && forall i :: j <= i ==> (Hits(len, i, p, b) <==> i == j1 || i == j2)
    ensures Odd(bits, len, j, p, b) == (BitOf(bits, j1 - j) != BitOf(bits, j2 - j))
    decreases bits
  {
    if bits == 0 {
      ZeroBits(j1 - j);
      ZeroBits(j2 - j);
    } else if j == j1 {
      OddOne(bits / 2, len, j + 1, p, b, j2);
    } else {
      OddTwo(bits / 2, len, j + 1, p, b, j1, j2);
    }
  }

  /** Row r is alone in flipping its second spot, except for the rows 3, 12 and 13 of the full table. */
  lemma {:induction false} OwnSpot(r: nat, k: nat, top: nat)
    requires r <= top < ROWS && k <= top && (top <= 7 || (r != 3 && r != 12 && r != 13))
    ensures RowHits(RowAt(k), 0, RowAt(r).b.byte, RowAt(r).b.bit) <==> k == r
  {
  }

  lemma {:induction false} HitsOwnSpot(len: nat, j: nat, p: nat, b: nat)
    requires len >= 2 && j <= LastRow(len) && (len < 6 || (j != 0 && j != 1 && j != 10))
    requires p == Offset(len) + RowAt(LastRow(len) - j).b.byte && b == RowAt(LastRow(len) - j).b.bit
    ensures forall i :: 0 <= i ==> (Hits(len, i, p, b) <==> i == j)
  {
    var top := LastRow(len);
    forall i | 0 <= i
      ensures Hits(len, i, p, b) <==> i == j
    {
      if i <= top {
        OwnSpot(top - j, top - i, top);
        assert RowHits(RowAt(top - i), Offset(len), p, b) == RowHits(RowAt(top - i), 0, p - Offset(len), b);
      }
    }
  }

  /** In the full table, rows 12 and 13 share one spot, rows 3 and 13 another, rows 3 and 12 a third. */
  lemma {:induction false} SharedSpots(k: nat)
    requires k < ROWS
    ensures RowHits(RowAt(k), 0, 5, 7) <==> k == 12 || k == 13
    ensures RowHits(RowAt(k), 0, 4, 0) <==> k == 3 || k == 13
    ensures RowHits(RowAt(k), 0, 0, 4) <==> k == 3 || k == 12
  {
  }

  lemma {:induction false} HitsSharedSpots(len: nat, p5: nat, p4: nat)
    requires len >= 6 && p5 == Offset(len) + 5 && p4 == Offset(len) + 4
    ensures forall i :: 0 <= i ==> (Hits(len, i, p5, 7) <==> i == 0 || i == 1)
    ensures forall i :: 0 <= i ==> (Hits(len, i, p4, 0) <==> i == 0 || i == 10)
  {
    forall i | 0 <= i
      ensures Hits(len, i, p5, 7) <==> i == 0 || i == 1
      ensures Hits(len, i, p4, 0) <==> i == 0 || i == 10
    {
      if i <= 13 {
        SharedSpots(13 - i);
        assert RowHits(RowAt(13 - i), Offset(len), p5, 7) == RowHits(RowAt(13 - i), 0, 5, 7);
        assert RowHits(RowAt(13 - i), Offset(len), p4, 0) == RowHits(RowAt(13 - i), 0, 4, 0);
      }
    }
  }

  /** Sequence bits 0, 1 and 10 select rows 13, 12 and 3, whose flips cancel out. */
  const TRIPLE := 1027

  lemma {:induction false} TripleBits(k: nat)
    requires k < ROWS
    ensures BitOf(TRIPLE, k) <==> k == 0 || k == 1 || k == 10
  {
    assert BitOf(1027, k) == (if k == 0 then true else BitOf(513, k - 1));
    assert k >= 1 ==> BitOf(513, k - 1) == (if k == 1 then true else BitOf(256, k - 2));
    assert k >= 2 ==> BitOf(256, k - 2) == (if k == 2 then false else BitOf(128, k - 3));
    assert k >= 3 ==> BitOf(128, k - 3) == (if k == 3 then false else BitOf(64, k - 4));
    assert k >= 4 ==> BitOf(64, k - 4) == (if k == 4 then false else BitOf(32, k - 5));
    assert k >= 5 ==> BitOf(32, k - 5) == (if k == 5 then false else BitOf(16, k - 6));
    assert k >= 6 ==> BitOf(16, k - 6) == (if k == 6 then false else BitOf(8, k - 7));
    assert k >= 7 ==> BitOf(8, k - 7) == (if k == 7 then false else BitOf(4, k - 8));
    assert k >= 8 ==> BitOf(4, k - 8) == (if k == 8 then false else BitOf(2, k - 9));
    assert k >= 9 ==> BitOf(2, k - 9) == (if k == 9 then false else BitOf(1, k - 10));
    assert k >= 10 ==> BitOf(1, k - 10) == (if k == 10 then true else BitOf(0, k - 11));
    if k >= 11 { ZeroBits(k - 11); }
  }

  lemma {:induction false} TripleCancels(len: nat, p: nat, b: nat)
    requires len >= 6
    ensures !Odd(TRIPLE, len, 0, p, b)
  {
    var top := LastRow(len);
    assert Odd(1027, len, 0, p, b) == (Hits(len, 0, p, b) != Odd(513, len, 1, p, b));
    assert Odd(513, len, 1, p, b) == (Hits(len, 1, p, b) != Odd(256, len, 2, p, b));
    assert Odd(256, len, 2, p, b) == Odd(128, len, 3, p, b);
    assert Odd(128, len, 3, p, b) == Odd(64, len, 4, p, b);
    assert Odd(64, len, 4, p, b) == Odd(32, len, 5, p, b);
    assert Odd(32, len, 5, p, b) == Odd(16, len, 6, p, b);
    assert Odd(16, len, 6, p, b) == Odd(8, len, 7, p, b);
    assert Odd(8, len, 7, p, b) == Odd(4, len, 8, p, b);
    assert Odd(4, len, 8, p, b) == Odd(2, len, 9, p, b);
    assert Odd(2, len, 9, p, b) == Odd(1, len, 10, p, b);
    assert Odd(1, len, 10, p, b) == Hits(len, 10, p, b);
  }

  /** No combination of rows cancels out, but for the empty one and, in long names, the triple. */
  lemma {:induction false} Kernel(x: nat, len: nat)
    requires len >= 2 && x < Pow2(LastRow(len) + 1)
    requires forall p, b :: 0 <= p < len && 0 <= b < 8 ==> !Odd(x, len, 0, p, b)
    ensures x == 0 || (len >= 6 && x == TRIPLE)
  {
    var top := LastRow(len);
    forall j | 0 <= j <= top && (len < 6 || (j != 0 && j != 1 && j != 10))
      ensures !BitOf(x, j)
    {
      var p, b := Offset(len) + RowAt(top - j).b.byte, RowAt(top - j).b.bit;
      RowFacts(top - j);
      HitsOwnSpot(len, j, p, b);
      OddOne(x, len, 0, p, b, j);
      assert !Odd(x, len, 0, p, b);
    }
    if len >= 6 {
      var p5, p4 := Offset(len) + 5, Offset(len) + 4;
      HitsSharedSpots(len, p5, p4);
      OddTwo(x, len, 0, p5, 7, 0, 1);
      OddTwo(x, len, 0, p4, 0, 0, 10);
      assert !Odd(x, len, 0, p5, 7) && !Odd(x, len, 0, p4, 0);
    }
    FromBits(x, len);
  }

  lemma {:induction false} FromBits(x: nat, len: nat)
    requires len >= 2 && x < Pow2(LastRow(len) + 1)
    requires forall j :: 0 <= j <= LastRow(len) && (len < 6 || (j != 0 && j != 1 && j != 10)) ==> !BitOf(x, j)
    requires len >= 6 ==> BitOf(x, 0) == BitOf(x, 1) && BitOf(x, 0) == BitOf(x, 10)
    ensures x == 0 || (len >= 6 && x == TRIPLE)
  {
    var n := LastRow(len) + 1;
    if len < 6 || !BitOf(x, 0) {
      forall k | 0 <= k < n
        ensures BitOf(x, k) == BitOf(0, k)
      {
        ZeroBits(k);
      }
      BitsDetermine(x, 0, n);
    } else {
      forall k | 0 <= k < n
        ensures BitOf(x, k) == BitOf(TRIPLE, k)
      {
        TripleBits(k);
      }
      assert Pow2(14) == 8 * Pow2(11) && Pow2(11) == 8 * Pow2(8) && Pow2(8) == 8 * Pow2(5) && Pow2(5) == 32;
      BitsDetermine(x, TRIPLE, n);
    }
  }

  lemma {:induction false} SameBits(x: bv8, y: bv8)
    requires forall b :: 0 <= b < 8 ==> HasBit(x, b) == HasBit(y, b)
    ensures x == y
  {
    assert HasBit(x, 0) == HasBit(y, 0) && HasBit(x, 1) == HasBit(y, 1) && HasBit(x, 2) == HasBit(y, 2)
        && HasBit(x, 3) == HasBit(y, 3) && HasBit(x, 4) == HasBit(y, 4) && HasBit(x, 5) == HasBit(y, 5)
        && HasBit(x, 6) == HasBit(y, 6) && HasBit(x, 7) == HasBit(y, 7);
  }

  /** A successful search never needed more rows than the name has. */
  lemma {:induction false} FoundInRange(name: Name, bits: nat, j: nat)
    requires |name| >= 2 && FindFrom(name, bits, j).0 == 1
    ensures if j > LastRow(|name|) then bits == 0 else bits < Pow2(LastRow(|name|) + 1 - j)
    decreases bits
  {
    if bits != 0 {
      if bits % 2 == 0 {
        FoundInRange(name, bits / 2, j + 1);
      } else {
        FlipKeepsLength(name, j);
        FoundInRange(FlipBit(name, j).1, bits / 2, j + 1);
      }
    }
  }

  lemma {:induction false} XorBound(s: nat, t: nat, n: nat)
    requires s < Pow2(n) && t < Pow2(n)
    ensures Xor(s, t) < Pow2(n)
  {
    if n > 0 { XorBound(s / 2, t / 2, n - 1); }
  }

  /**
    Two successful sequence numbers give the same name exactly when they are equal or, in names of six
    bytes and more, differ in just the bits 0, 1 and 10.
  */
  lemma {:induction false} AlternatesDiffer(name: Name, s: nat, t: nat)
    requires |name| >= 2 && FindAlternate(name, s).0 == 1 && FindAlternate(name, t).0 == 1
    ensures FindAlternate(name, s).1 == FindAlternate(name, t).1
       <==> s == t || (|name| >= 6 && Xor(s, t) == TRIPLE)
  {
    var len, x := |name|, Xor(s, t);
    var a, c := FindFrom(name, s, 0).1, FindFrom(name, t, 0).1;
    FindKeeps(name, s, 0);
    FindKeeps(name, t, 0);
    FoundInRange(name, s, 0);
    FoundInRange(name, t, 0);
    XorBound(s, t, LastRow(len) + 1);
    XorZero(s, t);
    if a == c {
      forall p, b | 0 <= p < len && 0 <= b < 8
        ensures !Odd(x, len, 0, p, b)
      {
        OddIsDifferent(name, s, t, p, b);
      }
      Kernel(x, len);
    }
    if x == 0 || (len >= 6 && x == TRIPLE) {
      forall p | 0 <= p < len
        ensures a[p] == c[p]
      {
        CancelledByte(name, s, t, p);
      }
    }
  }

  /** The bits in which two alternates differ. */
  lemma {:induction false} OddIsDifferent(name: Name, s: nat, t: nat, p: nat, b: nat)
    requires |name| >= 2 && FindFrom(name, s, 0).0 == 1 && FindFrom(name, t, 0).0 == 1 && p < |name| && b < 8
    ensures |FindFrom(name, s, 0).1| == |FindFrom(name, t, 0).1| == |name|
    ensures Odd(Xor(s, t), |name|, 0, p, b)
         == (BitAt(FindFrom(name, s, 0).1, p, b) != BitAt(FindFrom(name, t, 0).1, p, b))
  {
    FindToggles(name, s, 0, p, b);
    FindToggles(name, t, 0, p, b);
    OddXor(s, t, |name|, 0, p, b);
  }

  lemma {:induction false} CancelledByte(name: Name, s: nat, t: nat, p: nat)
    requires |name| >= 2 && FindFrom(name, s, 0).0 == 1 && FindFrom(name, t, 0).0 == 1 && p < |name|
    requires Xor(s, t) == 0 || (|name| >= 6 && Xor(s, t) == TRIPLE)
    ensures |FindFrom(name, s, 0).1| == |FindFrom(name, t, 0).1| == |name|
    ensures FindFrom(name, s, 0).1[p] == FindFrom(name, t, 0).1[p]
  {
    OddIsDifferent(name, s, t, p, 0);
    var a, c := FindFrom(name, s, 0).1, FindFrom(name, t, 0).1;
    forall b | 0 <= b < 8
      ensures HasBit(a[p], b) == HasBit(c[p], b)
    {
      OddIsDifferent(name, s, t, p, b);
      if Xor(s, t) == TRIPLE { TripleCancels(|name|, p, b); }
      assert BitAt(a, p, b) == HasBit(a[p], b) && BitAt(c, p, b) == HasBit(c[p], b);
    }
    SameBits(a[p], c[p]);
  }

  /** The exception is real: alternate 1027 of a six-byte name is the name itself. */
  lemma {:induction false} TripleIsOriginal()
    ensures var name: Name := [0x61, 0x62, 0x63, 0x64, 0x65, 0x66];
            FindAlternate(name, TRIPLE) == (1, name)
  {
    var name: Name := [0x61, 0x62, 0x63, 0x64, 0x65, 0x66];
    var one: Name := [0x61, 0x62, 0x63, 0x64, 0x64, 0xe6];
    var two: Name := [0x71, 0x62, 0x63, 0x64, 0x64, 0x66];
    assert PairFor(6, 0) == Pair(4, 1, 5, 128);
    assert (0x65 as bv8) ^ 1 == 0x64 && (0x66 as bv8) ^ 128 == 0xe6;
    assert PutTwo(name, 4, 0x64, 5, 0xe6) == one;
    assert FlipBit(name, 0) == (1, one);
    assert PairFor(6, 1) == Pair(0, 16, 5, 128);
    assert (0x61 as bv8) ^ 16 == 0x71 && (0xe6 as bv8) ^ 128 == 0x66;
    assert PutTwo(one, 0, 0x71, 5, 0x66) == two;
    assert FlipBit(one, 1) == (1, two);
    assert PairFor(6, 10) == Pair(0, 16, 4, 1);
    assert (0x71 as bv8) ^ 16 == 0x61 && (0x64 as bv8) ^ 1 == 0x65;
    assert PutTwo(two, 0, 0x61, 4, 0x65) == name;
    assert FlipBit(two, 10) == (1, name);
    assert FindFrom(two, 1, 10) == (1, name);
    assert FindFrom(two, 4, 8) == FindFrom(two, 2, 9) == FindFrom(two, 1, 10);
    assert FindFrom(two, 16, 6) == FindFrom(two, 8, 7) == FindFrom(two, 4, 8);
    assert FindFrom(two, 64, 4) == FindFrom(two, 32, 5) == FindFrom(two, 16, 6);
    assert FindFrom(two, 256, 2) == FindFrom(two, 128, 3) == FindFrom(two, 64, 4);
    assert FindFrom(one, 513, 1) == FindFrom(two, 256, 2);
    assert FindFrom(name, 1027, 0) == FindFrom(one, 513, 1);
  }

  lemma {:induction false} FirstPair()
    ensures PairFor(2, 0) == Pair(0, 1, 1, 128)
  {
    assert LastRow(2) == 0 && RowAt(0) == Row(Spot(0, 0), Spot(1, 7));
  }

  lemma {:induction false} FlippedAb()
    ensures XorByte(0x41, 1) == 0x40 && XorByte(0x62, 128) == 0xe2 && !Invalid(0x40) && !Invalid(0xe2)
  {
  }

  /** The first alternate of a two-byte name. */
  lemma {:induction false} FirstOfTwo()
    ensures FindAlternate([0x41, 0x62], 1) == (1, [0x40, 0xe2])
  {
    var name: Name := [0x41, 0x62];
    var found: Name := [0x40, 0xe2];
    FirstPair();
    FlippedAb();
    assert PutTwo(name, 0, 0x40, 1, 0xe2) == found;
    assert FlipWith(name, Pair(0, 1, 1, 128)) == (1, found);
    assert FlipBit(name, 0) == (1, found);
    assert FindFrom(name, 1, 0) == FindFrom(found, 0, 1);
  }
}
