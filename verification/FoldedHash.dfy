/**
  What an alternate name does to the hash of an ascii-ci filesystem, which folds each byte to lower
  case first (libxfs/xfs_dir2.c, with flip_bit and find_alternate of db/obfuscate.c).
*/
module FoldedHash {
  import opened Alternates
  import opened NameHash

  // ---------------------------------------------------------------------------
  // The folded hash is the plain hash and a shift
  // ---------------------------------------------------------------------------

  /** What folding adds to a byte. */
  function FoldMask(folds: bool): bv8 { if folds then 0x20 else 0 }

  lemma {:induction false} FoldFlips(c: bv8)
    ensures Folded(c, true) == XorByte(c, FoldMask(NeedsXfrm(c)))
  {
  }

  function NextShift(d: bv32, folds: bool): bv32 { XorWord(Rol7(d), Wide(FoldMask(folds))) }

  /** What folding the bytes marked adds to the hash of the first i bytes. */
  ghost function Shift(folds: seq<bool>, i: nat): bv32
    requires i <= |folds|
  {
    if i == 0 then 0 else NextShift(Shift(folds, i - 1), folds[i - 1])
  }

  /** The bytes that are folded. */
  ghost function Folds(x: Name): (fs: seq<bool>)
    ensures |fs| == |x|
  {
    seq(|x|, i requires 0 <= i < |x| => NeedsXfrm(x[i]))
  }

  lemma {:induction false} XorAssoc(x: bv32, y: bv32, z: bv32)
    ensures XorWord(XorWord(x, y), z) == XorWord(x, XorWord(y, z))
  {
  }

  lemma {:induction false} XorSwap(x: bv32, y: bv32)
    ensures XorWord(x, y) == XorWord(y, x)
  {
  }

  lemma {:induction false} XorNothing(x: bv32)
    ensures XorWord(x, 0) == x && XorWord(x, x) == 0
  {
  }

  lemma {:induction false} FoldedStep(h: bv32, d: bv32, c: bv8)
    ensures Step(XorWord(h, d), Folded(c, true)) == XorWord(Step(h, c), NextShift(d, NeedsXfrm(c)))
  {
    var m := FoldMask(NeedsXfrm(c));
    FoldFlips(c);
    StepFlip(XorWord(h, d), c, m);
    StepDiff(h, d, c);
    XorAssoc(Step(h, c), Rol7(d), Wide(m));
  }

  lemma {:induction false} FoldedHashIs(x: Name, i: nat)
    requires i <= |x|
    ensures Hash(x[..i], true) == XorWord(Hash(x[..i], false), Shift(Folds(x), i))
  {
    if i == 0 {
      XorNothing(0);
    } else {
      FoldedHashIs(x, i - 1);
      HashPrefix(x, i - 1, true);
      HashPrefix(x, i - 1, false);
      FoldedStep(Hash(x[..i - 1], false), Shift(Folds(x), i - 1), x[i - 1]);
    }
  }

  // ---------------------------------------------------------------------------
  // When two shifts are the same
  // ---------------------------------------------------------------------------

  /** The bytes that are folded in just one of two names. */
  ghost function Differ(fs: seq<bool>, gs: seq<bool>): (ds: seq<bool>)
    requires |fs| == |gs|
    ensures |ds| == |fs|
  {
    seq(|fs|, i requires 0 <= i < |fs| => fs[i] != gs[i])
  }

  lemma {:induction false} RolBits(x: bv32, y: bv32)
    ensures ((x ^ y) << 7) | ((x ^ y) >> 25) == ((x << 7) | (x >> 25)) ^ ((y << 7) | (y >> 25))
  {
  }

  lemma {:induction false} RolInline(x: bv32, y: bv32)
    ensures Rol7(x ^ y) == Rol7(x) ^ Rol7(y)
  {
    RolBits(x, y);
  }

  lemma {:induction false} RolXor(x: bv32, y: bv32)
    ensures Rol7(XorWord(x, y)) == XorWord(Rol7(x), Rol7(y))
  {
    RolInline(x, y);
    assert XorWord(Rol7(x), Rol7(y)) == Rol7(x ^ y);
  }

  lemma {:induction false} XorMedial(a: bv32, b: bv32, c: bv32, d: bv32)
    ensures XorWord(XorWord(a, b), XorWord(c, d)) == XorWord(XorWord(a, c), XorWord(b, d))
  {
    XorAssoc(a, b, XorWord(c, d));
    XorAssoc(b, c, d);
    XorSwap(b, c);
    XorAssoc(c, b, d);
    XorAssoc(a, c, XorWord(b, d));
  }

  lemma {:induction false} MaskXor(f: bool, g: bool)
    ensures Wide(FoldMask(f != g)) == XorWord(Wide(FoldMask(f)), Wide(FoldMask(g)))
  {
  }

  lemma {:induction false} NextShiftXor(d: bv32, e: bv32, f: bool, g: bool)
    ensures NextShift(XorWord(d, e), f != g) == XorWord(NextShift(d, f), NextShift(e, g))
  {
    RolXor(d, e);
    MaskXor(f, g);
    XorMedial(Rol7(d), Rol7(e), Wide(FoldMask(f)), Wide(FoldMask(g)));
  }

  lemma {:induction false} ShiftXor(fs: seq<bool>, gs: seq<bool>, i: nat)
    requires i <= |fs| == |gs|
    ensures Shift(Differ(fs, gs), i) == XorWord(Shift(fs, i), Shift(gs, i))
  {
    if i == 0 {
      XorNothing(0);
    } else {
      ShiftXor(fs, gs, i - 1);
      NextShiftXor(Shift(fs, i - 1), Shift(gs, i - 1), fs[i - 1], gs[i - 1]);
    }
  }

  function Sel(on: bool, bit: bv32): bv32 { if on then bit else 0 }

  /** Where the bits that the last six bytes add are by now: all in different places. */
  function Pattern(a: bool, b: bool, c: bool, d: bool, e: bool, f: bool): bv32 {
    Sel(a, 0x20) | Sel(b, 0x1000) | Sel(c, 0x80000) | Sel(d, 0x4000000) | Sel(e, 0x2) | Sel(f, 0x100)
  }

  lemma {:induction false} PatternStep(a: bool, b: bool, c: bool, d: bool, e: bool, next: bool)
    ensures NextShift(Pattern(a, b, c, d, e, false), next) == Pattern(next, a, b, c, d, e)
  {
  }

  lemma {:induction false} PatternZero(a: bool, b: bool, c: bool, d: bool, e: bool, f: bool)
    ensures Pattern(a, b, c, d, e, f) == 0 <==> !a && !b && !c && !d && !e && !f
  {
  }

  predicate At(fs: seq<bool>, i: int) { 0 <= i < |fs| && fs[i] }

  /** Only the last six bytes are marked. */
  ghost predicate AtEnd(fs: seq<bool>) {
    forall i :: 0 <= i < |fs| - 6 ==> !fs[i]
  }

  lemma {:induction false} ShiftIsPattern(fs: seq<bool>, i: nat)
    requires AtEnd(fs) && i <= |fs|
    ensures Shift(fs, i)
         == Pattern(At(fs, i - 1), At(fs, i - 2), At(fs, i - 3), At(fs, i - 4), At(fs, i - 5), At(fs, i - 6))
  {
    if i == 0 {
      PatternZero(false, false, false, false, false, false);
    } else {
      ShiftIsPattern(fs, i - 1);
      PatternStep(At(fs, i - 2), At(fs, i - 3), At(fs, i - 4), At(fs, i - 5), At(fs, i - 6), fs[i - 1]);
    }
  }

  lemma {:induction false} ShiftZero(fs: seq<bool>)
    requires AtEnd(fs)
    ensures Shift(fs, |fs|) == 0 <==> forall i :: 0 <= i < |fs| ==> !fs[i]
  {
    var n := |fs|;
    ShiftIsPattern(fs, n);
    PatternZero(At(fs, n - 1), At(fs, n - 2), At(fs, n - 3), At(fs, n - 4), At(fs, n - 5), At(fs, n - 6));
    assert forall i :: 0 <= i < n - 6 ==> !fs[i];
  }

  lemma {:induction false} XorCancels(p: bv32, d: bv32, e: bv32)
    ensures XorWord(p, d) == XorWord(p, e) <==> XorWord(d, e) == 0
  {
    XorSwap(p, d);
    XorSwap(p, e);
    XorTwice(d, p);
    XorTwice(e, p);
    XorTwice(d, e);
    XorSwap(0, e);
    XorNothing(e);
  }

  /**
    Two names with the same plain hash that differ in their last six bytes at most have the same folded
    hash exactly when the same bytes are folded.
  */
  lemma {:induction false} FoldedHashesAgree(x: Name, y: Name)
    requires |x| == |y| && Hash(x, false) == Hash(y, false)
    requires forall p :: 0 <= p < |x| - 6 ==> x[p] == y[p]
    ensures Hash(x, true) == Hash(y, true) <==> forall p :: 0 <= p < |x| ==> NeedsXfrm(x[p]) == NeedsXfrm(y[p])
  {
    var n, fs, gs := |x|, Folds(x), Folds(y);
    var ds := Differ(fs, gs);
    assert x[..n] == x && y[..n] == y;
    FoldedHashIs(x, n);
    FoldedHashIs(y, n);
    XorCancels(Hash(x, false), Shift(fs, n), Shift(gs, n));
    ShiftXor(fs, gs, n);
    ShiftZero(ds);
    assert forall p :: 0 <= p < n ==> ds[p] == (NeedsXfrm(x[p]) != NeedsXfrm(y[p]));
  }

  // ---------------------------------------------------------------------------
  // When an alternate keeps the folded hash
  // ---------------------------------------------------------------------------

  function Byte(o: seq<bool>): bv8
    requires |o| == 8
  {
    (if o[0] then 1 else 0) | (if o[1] then 2 else 0) | (if o[2] then 4 else 0) | (if o[3] then 8 else 0)
    | (if o[4] then 16 else 0) | (if o[5] then 32 else 0) | (if o[6] then 64 else 0) | (if o[7] then 128 else 0)
  }

  lemma {:induction false} ByteHas(o: seq<bool>, b: nat)
    requires |o| == 8 && b < 8
    ensures HasBit(Byte(o), b) == o[b]
  {
  }

  lemma {:induction false} XorHas(x: bv8, y: bv8, b: nat)
    requires b < 8
    ensures HasBit(XorByte(x, y), b) == (HasBit(x, b) != HasBit(y, b))
  {
  }

  /** Byte p of alternate s, from the name and the rows that the sequence number selects. */
  function AlternateByte(name: Name, s: nat, p: nat): bv8
    requires p < |name|
  {
    if |name| < 2 then name[p]
    else XorByte(name[p], Byte(seq(8, b requires 0 <= b < 8 => Odd(s, |name|, 0, p, b))))
  }

  lemma {:induction false} FoundByte(name: Name, s: nat, p: nat)
    requires FindAlternate(name, s).0 == 1 && p < |name|
    ensures |FindAlternate(name, s).1| == |name| && FindAlternate(name, s).1[p] == AlternateByte(name, s, p)
  {
    if |name| >= 2 {
      var found := FindFrom(name, s, 0).1;
      var o := seq(8, b requires 0 <= b < 8 => Odd(s, |name|, 0, p, b));
      FindKeeps(name, s, 0);
      forall b | 0 <= b < 8
        ensures HasBit(found[p], b) == HasBit(XorByte(name[p], Byte(o)), b)
      {
        FindToggles(name, s, 0, p, b);
        ByteHas(o, b);
        XorHas(name[p], Byte(o), b);
        assert BitAt(found, p, b) == HasBit(found[p], b);
      }
      SameBits(found[p], XorByte(name[p], Byte(o)));
    }
  }

  /** The rows reach no further than the last six bytes. */
  lemma {:induction false} FoundFront(name: Name, s: nat, p: nat)
    requires FindAlternate(name, s).0 == 1 && p < |name| - 6
    ensures |FindAlternate(name, s).1| == |name| && FindAlternate(name, s).1[p] == name[p]
  {
    var found := FindFrom(name, s, 0).1;
    FindKeeps(name, s, 0);
    forall b | 0 <= b < 8
      ensures HasBit(found[p], b) == HasBit(name[p], b)
    {
      FindToggles(name, s, 0, p, b);
      OddNone(s, |name|, 0, p, b);
      assert BitAt(found, p, b) == HasBit(found[p], b) && BitAt(name, p, b) == HasBit(name[p], b);
    }
    SameBits(found[p], name[p]);
  }

  /** Sequence number s turns no byte that is folded into one that is not, nor the other way round. */
  ghost predicate KeepsFolds(name: Name, s: nat) {
    forall p :: 0 <= p < |name| ==> NeedsXfrm(AlternateByte(name, s, p)) == NeedsXfrm(name[p])
  }

  /** An alternate always keeps the plain hash; it keeps the folded one exactly when it keeps the folds. */
  lemma {:induction false} FoldedHashKept(name: Name, s: nat)
    requires FindAlternate(name, s).0 == 1
    ensures Hash(FindAlternate(name, s).1, true) == Hash(name, true) <==> KeepsFolds(name, s)
  {
    var found := FindAlternate(name, s).1;
    AlternateKeeps(name, s);
    forall p | 0 <= p < |name|
      ensures found[p] == AlternateByte(name, s, p)
      ensures p < |name| - 6 ==> found[p] == name[p]
    {
      FoundByte(name, s, p);
      if p < |name| - 6 { FoundFront(name, s, p); }
    }
    FoldedHashesAgree(found, name);
  }

  lemma {:induction false} HashPair(a: bv8, b: bv8)
    ensures Hash([a, b], true) == Step(Step(0, Folded(a, true)), Folded(b, true))
  {
    assert [a, b] == [a] + [b];
    HashAppend([a], b, true);
    assert [a] == [] + [a];
    HashAppend([], a, true);
  }

  lemma {:induction false} ExampleHashes()
    ensures Step(Step(0, Folded(0x41, true)), Folded(0x62, true)) == 0x30e2
    ensures Step(Step(0, Folded(0x40, true)), Folded(0xe2, true)) == 0x20e2
  {
    assert Folded(0x41, true) == 0x61 && Folded(0x62, true) == 0x62;
    assert Folded(0x40, true) == 0x40 && Folded(0xe2, true) == 0xe2;
    assert Step(0, 0x61) == 0x61 && Step(0, 0x40) == 0x40;
    assert Step(0x61, 0x62) == 0x30e2 && Step(0x40, 0xe2) == 0x20e2;
  }

  /** Not all do: the second name below is alternate 1 of the first, and 'A' is folded but '@' is not. */
  lemma {:induction false} AlternateChangesFoldedHash()
    ensures FindAlternate([0x41, 0x62], 1) == (1, [0x40, 0xe2])
    ensures Hash([0x40, 0xe2], true) != Hash([0x41, 0x62], true)
  {
    HashPair(0x41, 0x62);
    HashPair(0x40, 0xe2);
    ExampleHashes();
    FirstOfTwo();
  }
}
