/**
  Hash-preserving name obfuscation (db/obfuscate.c, obfuscate_name): a random prefix, and five last
  bytes that make up for it in the hash, with bit flips that keep every byte valid.
*/
module Obfuscate {
  import opened NameHash

  /** The characters random_filename_char draws from. */
  predicate FilenameChar(c: bv8) {
    0x41 <= c <= 0x5a || 0x61 <= c <= 0x7a || 0x30 <= c <= 0x39 || c == 0x2d || c == 0x5f
  }

  /** The remaining hash in the groups that the five solved bytes take: shifts 28, 21, 14, 7 and 0. */
  ghost predicate Grouped(h: bv32, r0: bv8, r1: bv8, r2: bv8, r3: bv8, r4: bv8) {
    && r0 == ((h >> 28) & 0x7f) as bv8 && r1 == ((h >> 21) & 0x7f) as bv8 && r2 == ((h >> 14) & 0x7f) as bv8
    && r3 == ((h >> 7) & 0x7f) as bv8 && r4 == (h & 0x7f) as bv8
  }

  /** The high bit that undoes a flip in the byte before. */
  function HighBit(carry: bool): bv8 { if carry then 0x80 else 0 }

  /** The byte would be '/' or NUL, so its bit 0 is flipped. */
  predicate Trips(raw: bv8, carry: bool) { Invalid(raw ^ HighBit(carry)) }

  /** The byte as the loop leaves it. */
  function Made(raw: bv8, carry: bool): bv8 {
    if Trips(raw, carry) then raw ^ HighBit(carry) ^ 1 else raw ^ HighBit(carry)
  }

  /** One byte of the loop. */
  ghost predicate Link(raw: bv8, carry: bool, made: bv8, next: bool) {
    made == Made(raw, carry) && next == Trips(raw, carry)
  }

  /** A run of the five-byte loop: carry[j] tells whether byte j-1 was flipped. */
  ghost predicate Chain(raws: seq<bv8>, bytes: seq<bv8>, carry: seq<bool>) {
    && |bytes| <= |raws| && |carry| == |bytes| + 1 && !carry[0]
    && forall j :: 0 <= j < |bytes| ==> Link(raws[j], carry[j], bytes[j], carry[j + 1])
  }

  lemma {:induction false} ChainGrows(raws: seq<bv8>, bytes: seq<bv8>, carry: seq<bool>, c: bv8, next: bool)
    requires Chain(raws, bytes, carry) && |bytes| < |raws|
    requires Link(raws[|bytes|], carry[|bytes|], c, next)
    ensures Chain(raws, bytes + [c], carry + [next])
  {
  }

  lemma {:induction false} MadeAsFlips(raw: bv8, carry: bool, next: bool)
    requires next == Trips(raw, carry)
    ensures Made(raw, carry) == raw ^ (if carry then 0x80 else 0) ^ (if next then 1 else 0)
  {
  }

  /** A made byte is never '/' or NUL. */
  lemma {:induction false} MadeValid(raw: bv8, carry: bool)
    requires raw < 0x80
    ensures !Invalid(Made(raw, carry))
  {
  }

  /** What five bytes contribute to the hash. */
  function Spread(b0: bv8, b1: bv8, b2: bv8, b3: bv8, b4: bv8): bv32 {
    (((b0 as bv32) << 28) | ((b0 as bv32) >> 4)) ^ ((b1 as bv32) << 21) ^ ((b2 as bv32) << 14) ^ ((b3 as bv32) << 7)
    ^ (b4 as bv32)
  }

  lemma {:induction false} FiveSteps(p: bv32, b0: bv8, b1: bv8, b2: bv8, b3: bv8, b4: bv8)
    ensures Step(Step(Step(Step(Step(p, b0), b1), b2), b3), b4) == Spread(b0, b1, b2, b3, b4) ^ Rol3(p)
  {
  }

  /**
    Whatever bits are flipped, each flip meets its partner in the hash, and the one behind the last
    byte wraps around to bit 4 of the first.
  */
  lemma {:induction false} FlipsCancel(h: bv32, r0: bv8, r1: bv8, r2: bv8, r3: bv8, r4: bv8,
                                       b0: bv8, b1: bv8, b2: bv8, b3: bv8, b4: bv8,
                                       c1: bool, c2: bool, c3: bool, c4: bool, c5: bool)
    requires Grouped(h, r0, r1, r2, r3, r4)
    requires b0 == r0 ^ (if c1 then 1 else 0) ^ (if c5 then 0x10 else 0)
    requires b1 == r1 ^ (if c1 then 0x80 else 0) ^ (if c2 then 1 else 0)
    requires b2 == r2 ^ (if c2 then 0x80 else 0) ^ (if c3 then 1 else 0)
    requires b3 == r3 ^ (if c3 then 0x80 else 0) ^ (if c4 then 1 else 0)
    requires b4 == r4 ^ (if c4 then 0x80 else 0) ^ (if c5 then 1 else 0)
    ensures Spread(b0, b1, b2, b3, b4) == h
  {
  }

  lemma {:induction false} Cancel(h: bv32, rolled: bv32, hash: bv32)
    requires h == rolled ^ hash
    ensures h ^ rolled == hash
  {
  }

  /** The flip behind the last byte wraps around to bit 4 of the first. */
  function Wrapped(c: bv8, wrap: bool): bv8 { if wrap then c ^ 0x10 else c }

  /** The first byte stays below every character that is invalid or folds, with or without the wrap-around flip. */
  lemma {:induction false} FirstByte(raw: bv8, made: bv8, next: bool, wrap: bool)
    requires raw < 0x10 && Link(raw, false, made, next)
    ensures !Invalid(Wrapped(made, wrap)) && !NeedsXfrm(Wrapped(made, wrap)) && Wrapped(made, wrap) < 0x20
  {
  }

  /** The five bytes, with the wrap-around flip of the first, contribute exactly h to the hash. */
  lemma {:induction false} ChainSpread(h: bv32, rs: seq<bv8>, bytes: seq<bv8>, carry: seq<bool>, first: bv8)
    requires |rs| == |bytes| == 5 && Grouped(h, rs[0], rs[1], rs[2], rs[3], rs[4]) && Chain(rs, bytes, carry)
    requires rs[0] < 0x10 && first == Wrapped(bytes[0], carry[5])
    ensures Spread(first, bytes[1], bytes[2], bytes[3], bytes[4]) == h && !Invalid(first) && first < 0x20
  {
    ChainLinks(rs, bytes, carry);
    MadeSpread(h, rs[0], rs[1], rs[2], rs[3], rs[4], bytes[0], bytes[1], bytes[2], bytes[3], bytes[4],
               carry[1], carry[2], carry[3], carry[4], carry[5], first);
    FirstByte(rs[0], bytes[0], carry[1], carry[5]);
  }

  lemma {:induction false} ChainLinks(rs: seq<bv8>, bytes: seq<bv8>, carry: seq<bool>)
    requires |rs| == |bytes| == 5 && Chain(rs, bytes, carry)
    ensures Link(rs[0], false, bytes[0], carry[1]) && Link(rs[1], carry[1], bytes[1], carry[2])
    ensures Link(rs[2], carry[2], bytes[2], carry[3]) && Link(rs[3], carry[3], bytes[3], carry[4])
    ensures Link(rs[4], carry[4], bytes[4], carry[5])
  {
    assert Link(rs[0], carry[0], bytes[0], carry[1]);
  }

  lemma {:induction false} MadeSpread(h: bv32, r0: bv8, r1: bv8, r2: bv8, r3: bv8, r4: bv8,
                                      b0: bv8, b1: bv8, b2: bv8, b3: bv8, b4: bv8,
                                      c1: bool, c2: bool, c3: bool, c4: bool, c5: bool, first: bv8)
    requires Grouped(h, r0, r1, r2, r3, r4)
    requires Link(r0, false, b0, c1) && Link(r1, c1, b1, c2) && Link(r2, c2, b2, c3)
    requires Link(r3, c3, b3, c4) && Link(r4, c4, b4, c5)
    requires first == Wrapped(b0, c5)
    ensures Spread(first, b1, b2, b3, b4) == h
  {
    assert first == r0 ^ (if c1 then 1 else 0) ^ (if c5 then 0x10 else 0) by { MadeAsFlips(r0, false, c1); }
    MadeAsFlips(r1, c1, c2);
    MadeAsFlips(r2, c2, c3);
    MadeAsFlips(r3, c3, c4);
    MadeAsFlips(r4, c4, c5);
    FlipsCancel(h, r0, r1, r2, r3, r4, first, b1, b2, b3, b4, c1, c2, c3, c4, c5);
  }

  lemma {:induction false} Compose(prefix: bv32, hash: bv32, b0: bv8, b1: bv8, b2: bv8, b3: bv8, b4: bv8)
    requires Spread(b0, b1, b2, b3, b4) == Lacks(prefix, hash)
    ensures Step(Step(Step(Step(Step(prefix, b0), b1), b2), b3), b4) == hash
  {
    FiveSteps(prefix, b0, b1, b2, b3, b4);
    Cancel(Spread(b0, b1, b2, b3, b4), Rol3(prefix), hash);
  }

  lemma {:induction false} FiveAppended(name: Name, p: nat, ci: bool)
    requires |name| == p + 5
    requires ci ==> forall k :: p <= k < p + 5 ==> !NeedsXfrm(name[k])
    ensures Hash(name, ci)
         == Step(Step(Step(Step(Step(Hash(name[..p], ci), name[p]), name[p + 1]), name[p + 2]), name[p + 3]),
                 name[p + 4])
  {
    HashPrefix(name, p, ci);
    HashPrefix(name, p + 1, ci);
    HashPrefix(name, p + 2, ci);
    HashPrefix(name, p + 3, ci);
    HashPrefix(name, p + 4, ci);
    assert name[..p + 5] == name;
  }

  /** A name whose last five bytes make up for the rest of it hashes as wanted. */
  lemma {:induction false} SolvedName(name: Name, p: nat, hash: bv32, ci: bool)
    requires |name| == p + 5
    requires ci ==> forall k :: p <= k < p + 5 ==> !NeedsXfrm(name[k])
    requires Spread(name[p], name[p + 1], name[p + 2], name[p + 3], name[p + 4]) == Lacks(Hash(name[..p], ci), hash)
    ensures Hash(name, ci) == hash
  {
    FiveAppended(name, p, ci);
    Compose(Hash(name[..p], ci), hash, name[p], name[p + 1], name[p + 2], name[p + 3], name[p + 4]);
  }

  lemma {:induction false} FilenameCharValid(c: bv8)
    requires FilenameChar(c)
    ensures !Invalid(c)
  {
  }

  // ---------------------------------------------------------------------------
  // The name that a random prefix leads to
  // ---------------------------------------------------------------------------

  /** The groups of the remaining hash. */
  function Raws(h: bv32): (r: seq<bv8>)
    ensures |r| == 5
  {
    [((h >> 28) & 0x7f) as bv8, ((h >> 21) & 0x7f) as bv8, ((h >> 14) & 0x7f) as bv8, ((h >> 7) & 0x7f) as bv8,
     (h & 0x7f) as bv8]
  }

  /** Whether the byte before byte j was flipped. */
  function Carry(raws: seq<bv8>, j: nat): bool
    requires j <= |raws|
  {
    j > 0 && Trips(raws[j - 1], Carry(raws, j - 1))
  }

  /** Byte j before the wrap-around fixup. */
  function TailByte(raws: seq<bv8>, j: nat): bv8
    requires j < |raws|
  {
    Made(raws[j], Carry(raws, j))
  }

  function TailOf(raws: seq<bv8>): (r: Name)
    requires |raws| == 5
    ensures |r| == 5
  {
    [Wrapped(TailByte(raws, 0), Carry(raws, 5)), TailByte(raws, 1), TailByte(raws, 2), TailByte(raws, 3),
     TailByte(raws, 4)]
  }

  /** The five bytes that contribute h to the hash. */
  function Tail(h: bv32): (r: Name)
    ensures |r| == 5
  {
    TailOf(Raws(h))
  }

  predicate Folding(tail: Name) { exists j :: 0 <= j < |tail| && NeedsXfrm(tail[j]) }

  /** What is left for the tail to contribute. */
  function Remaining(prefix: Name, hash: bv32, ci: bool): bv32 { Lacks(Hash(prefix, ci), hash) }

  function Lacks(newHash: bv32, hash: bv32): bv32 { Rol3(newHash) ^ hash }

  /** The name that a prefix leads to. */
  function Attempt(prefix: Name, hash: bv32, ci: bool): Name { prefix + Tail(Remaining(prefix, hash, ci)) }

  /** An ascii-ci filesystem would fold one of the last five bytes, so that the hash would not match. */
  predicate Refused(prefix: Name, hash: bv32, ci: bool) { ci && Folding(Tail(Remaining(prefix, hash, ci))) }

  lemma {:induction false} RawsGrouped(h: bv32, r: seq<bv8>)
    requires r == Raws(h)
    ensures Grouped(h, r[0], r[1], r[2], r[3], r[4]) && r[0] < 0x10 && forall j :: 0 <= j < 5 ==> r[j] < 0x80
  {
    assert ((h >> 28) & 0x7f) as bv8 < 0x10;
    assert ((h >> 21) & 0x7f) as bv8 < 0x80;
    assert ((h >> 14) & 0x7f) as bv8 < 0x80;
    assert ((h >> 7) & 0x7f) as bv8 < 0x80;
    assert (h & 0x7f) as bv8 < 0x80;
  }

  /** The loop makes these bytes. */
  lemma {:induction false} ChainIsTail(raws: seq<bv8>, bytes: seq<bv8>, carry: seq<bool>, j: nat)
    requires Chain(raws, bytes, carry) && j <= |bytes|
    ensures carry[j] == Carry(raws, j) && (j < |bytes| ==> bytes[j] == TailByte(raws, j))
  {
    if j > 0 {
      ChainIsTail(raws, bytes, carry, j - 1);
      assert Link(raws[j - 1], carry[j - 1], bytes[j - 1], carry[j]);
    }
    if j < |bytes| { assert Link(raws[j], carry[j], bytes[j], carry[j + 1]); }
  }

  /** The bytes of the tail as a run of the loop. */
  lemma {:induction false} TailChain(raws: seq<bv8>) returns (bytes: seq<bv8>, carry: seq<bool>)
    requires |raws| == 5
    ensures |bytes| == 5 && Chain(raws, bytes, carry) && carry[5] == Carry(raws, 5)
    ensures forall j :: 0 <= j < 5 ==> bytes[j] == TailByte(raws, j)
  {
    bytes := seq(5, j requires 0 <= j < 5 => TailByte(raws, j));
    carry := seq(6, j requires 0 <= j < 6 => Carry(raws, j));
    forall j | 0 <= j < 5
      ensures Link(raws[j], carry[j], bytes[j], carry[j + 1])
    {
      assert Carry(raws, j + 1) == Trips(raws[j], Carry(raws, j));
    }
  }

  /** They contribute h, are valid, and the first is a control character. */
  lemma {:induction false} TailOfFacts(h: bv32, raws: seq<bv8>, tail: Name)
    requires |raws| == 5 && Grouped(h, raws[0], raws[1], raws[2], raws[3], raws[4]) && raws[0] < 0x10
    requires (forall j :: 0 <= j < 5 ==> raws[j] < 0x80) && tail == TailOf(raws)
    ensures Spread(tail[0], tail[1], tail[2], tail[3], tail[4]) == h && ValidName(tail) && tail[0] < 0x20
  {
    var bytes, carry := TailChain(raws);
    ChainSpread(h, raws, bytes, carry, tail[0]);
    RestValid(raws, tail);
  }

  lemma {:induction false} RestValid(raws: seq<bv8>, tail: Name)
    requires |raws| == 5 && (forall j :: 0 <= j < 5 ==> raws[j] < 0x80) && tail == TailOf(raws)
    ensures forall j :: 1 <= j < 5 ==> !Invalid(tail[j])
  {
    forall j | 1 <= j < 5
      ensures !Invalid(tail[j])
    {
      assert tail[j] == TailByte(raws, j);
      MadeValid(raws[j], Carry(raws, j));
    }
  }

  lemma {:induction false} TailFacts(h: bv32, tail: Name)
    requires tail == Tail(h)
    ensures Spread(tail[0], tail[1], tail[2], tail[3], tail[4]) == h && ValidName(tail) && tail[0] < 0x20
  {
    RawsGrouped(h, Raws(h));
    TailOfFacts(h, Raws(h), tail);
  }

  /**
    A name that a random prefix leads to is valid, has the wanted hash and starts with the prefix; its
    fifth byte from the end is a control character, so it is not the name of any ordinary file.
  */
  lemma {:induction false} AttemptFacts(prefix: Name, hash: bv32, ci: bool)
    requires (forall i :: 0 <= i < |prefix| ==> FilenameChar(prefix[i])) && !Refused(prefix, hash, ci)
    ensures var name := Attempt(prefix, hash, ci);
            && |name| == |prefix| + 5 && name[..|prefix|] == prefix && ValidName(name) && Hash(name, ci) == hash
            && 0 < name[|prefix|] < 0x20
  {
    var tail, name, p := Tail(Remaining(prefix, hash, ci)), Attempt(prefix, hash, ci), |prefix|;
    TailFacts(Remaining(prefix, hash, ci), tail);
    assert name[..p] == prefix;
    assert forall j :: 0 <= j < 5 ==> name[p + j] == tail[j];
    forall i | 0 <= i < |name|
      ensures !Invalid(name[i])
    {
      if i < p { FilenameCharValid(prefix[i]); } else { assert name[i] == tail[i - p]; }
    }
    SolvedName(name, p, hash, ci);
  }

  /** Groups that are all valid are the bytes themselves. */
  lemma {:induction false} PlainTail(h: bv32, r0: bv8, r1: bv8, r2: bv8, r3: bv8, r4: bv8)
    requires Grouped(h, r0, r1, r2, r3, r4)
    requires !Invalid(r0) && !Invalid(r1) && !Invalid(r2) && !Invalid(r3) && !Invalid(r4)
    ensures Tail(h) == [r0, r1, r2, r3, r4]
  {
    RawsAre(h, r0, r1, r2, r3, r4);
    PlainTailOf([r0, r1, r2, r3, r4]);
  }

  lemma {:induction false} RawsAre(h: bv32, r0: bv8, r1: bv8, r2: bv8, r3: bv8, r4: bv8)
    requires Grouped(h, r0, r1, r2, r3, r4)
    ensures Raws(h) == [r0, r1, r2, r3, r4]
  {
  }

  lemma {:induction false} PlainTailOf(raws: seq<bv8>)
    requires |raws| == 5 && forall i :: 0 <= i < |raws| ==> !Invalid(raws[i])
    ensures TailOf(raws) == raws
  {
    PlainBytes(raws, 5);
  }

  lemma {:induction false} PlainBytes(raws: seq<bv8>, j: nat)
    requires j <= |raws| && forall i :: 0 <= i < |raws| ==> !Invalid(raws[i])
    ensures !Carry(raws, j) && forall i :: 0 <= i < j ==> TailByte(raws, i) == raws[i]
  {
    if j > 0 {
      PlainBytes(raws, j - 1);
      PlainByte(raws[j - 1]);
    }
  }

  lemma {:induction false} PlainByte(raw: bv8)
    requires !Invalid(raw)
    ensures !Trips(raw, false) && Made(raw, false) == raw
  {
  }

  /** The name is one that some random prefix leads to. */
  predicate Scrambled(name: Name, hash: bv32, ci: bool) {
    && |name| >= 5
    && var prefix := name[..|name| - 5];
       && (forall i :: 0 <= i < |prefix| ==> FilenameChar(prefix[i]))
       && !Refused(prefix, hash, ci) && name == Attempt(prefix, hash, ci)
  }

  lemma {:induction false} ScrambledBy(prefix: Name, hash: bv32, h: bv32, r0: bv8, r1: bv8, r2: bv8, r3: bv8, r4: bv8)
    requires (forall i :: 0 <= i < |prefix| ==> FilenameChar(prefix[i])) && h == Lacks(Hash(prefix, false), hash)
    requires Grouped(h, r0, r1, r2, r3, r4)
    requires !Invalid(r0) && !Invalid(r1) && !Invalid(r2) && !Invalid(r3) && !Invalid(r4)
    ensures Scrambled(prefix + [r0, r1, r2, r3, r4], hash, false)
  {
    PlainTail(h, r0, r1, r2, r3, r4);
    assert (prefix + [r0, r1, r2, r3, r4])[..|prefix|] == prefix;
  }

  lemma {:induction false} ScrambledFacts(name: Name, hash: bv32, ci: bool)
    requires Scrambled(name, hash, ci)
    ensures ValidName(name) && Hash(name, ci) == hash && 0 < name[|name| - 5] < 0x20
    ensures forall i :: 0 <= i < |name| ==> name[i] != 0 && name[i] != 0x2f
  {
    AttemptFacts(name[..|name| - 5], hash, ci);
  }

  // ---------------------------------------------------------------------------
  // The code
  // ---------------------------------------------------------------------------

  /** The random characters: the i-th of attempt t. */
  type Draws = (nat, nat) -> bv8

  ghost predicate FromAlphabet(draws: Draws) {
    forall t: nat, i: nat :: FilenameChar(draws(t, i))
  }

  /** The prefix of attempt t. */
  function Drawn(draws: Draws, t: nat, n: nat): (r: Name)
    ensures |r| == n
  {
    seq(n, i => if i >= 0 then draws(t, i) else 0)
  }

  /** The random beginning of the new name, with its hash. */
  method FillPrefix(name: array<bv8>, ci: bool, draws: Draws, t: nat) returns (newHash: bv32)
    requires name.Length >= 5
    modifies name
    ensures name[..name.Length - 5] == Drawn(draws, t, name.Length - 5)
    ensures newHash == Hash(Drawn(draws, t, name.Length - 5), ci)
  {
    newHash := 0;
    var i := 0;
    while i < name.Length - 5
      invariant 0 <= i <= name.Length - 5
      invariant name[..i] == Drawn(draws, t, i) && newHash == Hash(name[..i], ci)
    {
      var c := draws(t, i);
      ghost var before := name[..i];
      name[i] := c;
      assert name[..i + 1] == before + [c] == Drawn(draws, t, i + 1);
      HashAppend(before, c, ci);
      newHash := Step(newHash, Folded(c, ci));
      i := i + 1;
    }
  }

  /** One byte: its seven hash bits and the pending high bit, made valid by flipping bit 0. */
  method SolveByte(raw: bv8, highBit: bv8, ghost carry: bool) returns (c: bv8, newHighBit: bv8, ghost next: bool)
    requires highBit == HighBit(carry)
    ensures Link(raw, carry, c, next) && newHighBit == HighBit(next)
  {
    next := Trips(raw, carry);
    c := raw ^ highBit;
    if Invalid(c) {
      c := c ^ 1;
      newHighBit := 0x80;
    } else {
      newHighBit := 0;
    }
  }

  /** The loop over the last five bytes; gives up on a byte that an ascii-ci filesystem would fold. */
  method SolveFive(name: array<bv8>, raws: seq<bv8>, ci: bool) returns (ok: bool, highBit: bv8, ghost carry: seq<bool>)
    requires name.Length >= 5 && |raws| == 5
    modifies name
    ensures forall k :: 0 <= k < name.Length - 5 ==> name[k] == old(name[k])
    ensures 0 < |carry| <= 6 && (ok ==> |carry| == 6)
    ensures var first, j := name.Length - 5, |carry| - 1;
            && Chain(raws, name[first..first + j], carry) && highBit == HighBit(carry[j])
            && (ok ==> forall k :: first <= k < name.Length ==> ci ==> !NeedsXfrm(name[k]))
            && (!ok ==> ci && j > 0 && NeedsXfrm(name[first + j - 1]))
  {
    var first := name.Length - 5;
    ok, highBit, carry := true, 0, [false];
    var j := 0;
    while j < 5 && ok
      invariant 0 <= j <= 5 && |carry| == j + 1
      invariant forall k :: 0 <= k < first ==> name[k] == old(name[k])
      invariant Chain(raws, name[first..first + j], carry) && highBit == HighBit(carry[j])
      invariant ok ==> forall k :: first <= k < first + j ==> ci ==> !NeedsXfrm(name[k])
      invariant !ok ==> ci && j > 0 && NeedsXfrm(name[first + j - 1])
    {
      ghost var bytes := name[first..first + j];
      var c, newHighBit;
      ghost var next;
      c, newHighBit, next := SolveByte(raws[j], highBit, carry[j]);
      ChainGrows(raws, bytes, carry, c, next);
      name[first + j], highBit := c, newHighBit;
      ok := !(ci && NeedsXfrm(c));
      carry := carry + [next];
      j := j + 1;
      assert name[first..first + j] == bytes + [c];
    }
  }

  /** The first byte never folds, with or without the wrap-around fixup. */
  lemma {:induction false} FirstNeverFolds(raws: seq<bv8>)
    requires |raws| == 5 && raws[0] < 0x10
    ensures !NeedsXfrm(TailByte(raws, 0)) && !NeedsXfrm(TailOf(raws)[0])
  {
    FirstByte(raws[0], TailByte(raws, 0), Trips(raws[0], false), false);
    FirstByte(raws[0], TailByte(raws, 0), Trips(raws[0], false), Carry(raws, 5));
  }

  lemma {:induction false} FoldsInTail(raws: seq<bv8>, j: nat)
    requires |raws| == 5 && raws[0] < 0x10 && j < 5 && NeedsXfrm(TailByte(raws, j))
    ensures Folding(TailOf(raws))
  {
    FirstNeverFolds(raws);
    assert j != 0 && TailOf(raws)[j] == TailByte(raws, j);
  }

  /** The last five bytes with the wrap-around fixup of the first. */
  method SolveTail(name: array<bv8>, h: bv32, ci: bool) returns (ok: bool)
    requires name.Length >= 5
    modifies name
    ensures forall k :: 0 <= k < name.Length - 5 ==> name[k] == old(name[k])
    ensures ok <==> !(ci && Folding(Tail(h)))
    ensures ok ==> name[name.Length - 5..] == Tail(h)
  {
    var raws := Raws(h);
    RawsGrouped(h, raws);
    ok := SolveRaws(name, raws, ci);
  }

  method SolveRaws(name: array<bv8>, raws: seq<bv8>, ci: bool) returns (ok: bool)
    requires name.Length >= 5 && |raws| == 5 && raws[0] < 0x10
    modifies name
    ensures forall k :: 0 <= k < name.Length - 5 ==> name[k] == old(name[k])
    ensures ok <==> !(ci && Folding(TailOf(raws)))
    ensures ok ==> name[name.Length - 5..] == TailOf(raws)
  {
    var highBit;
    ghost var carry;
    var first := name.Length - 5;
    ok, highBit, carry := SolveFive(name, raws, ci);
    ghost var bytes := name[first..first + |carry| - 1];
    FirstNeverFolds(raws);
    if ok {
      var c := Wrapped(name[first], highBit != 0);
      TailReached(raws, bytes, carry, c);
      name[first] := c;
      assert name[first..] == [c] + bytes[1..];
      ok := !(ci && NeedsXfrm(c));
    } else {
      ChainIsTail(raws, bytes, carry, |carry| - 2);
      FoldsInTail(raws, |carry| - 2);
    }
  }

  lemma {:induction false} TailReached(raws: seq<bv8>, bytes: seq<bv8>, carry: seq<bool>, c: bv8)
    requires |raws| == |bytes| == 5 && Chain(raws, bytes, carry)
    requires c == Wrapped(bytes[0], HighBit(carry[5]) != 0)
    ensures TailOf(raws) == [c] + bytes[1..]
  {
    ChainIsTail(raws, bytes, carry, 0);
    ChainIsTail(raws, bytes, carry, 1);
    ChainIsTail(raws, bytes, carry, 2);
    ChainIsTail(raws, bytes, carry, 3);
    ChainIsTail(raws, bytes, carry, 4);
    ChainIsTail(raws, bytes, carry, 5);
  }

  /** The first k prefixes are all refused. */
  ghost predicate AllRefused(draws: Draws, n: nat, hash: bv32, ci: bool, k: nat) {
    forall t: nat :: t < k ==> Refused(Drawn(draws, t, n), hash, ci)
  }

  lemma {:induction false} RefusedMore(draws: Draws, n: nat, hash: bv32, ci: bool, k: nat)
    requires AllRefused(draws, n, hash, ci, k) && Refused(Drawn(draws, k, n), hash, ci)
    ensures AllRefused(draws, n, hash, ci, k + 1)
  {
  }

  lemma {:induction false} RefusedNeedsCi(draws: Draws, n: nat, hash: bv32, ci: bool)
    requires AllRefused(draws, n, hash, ci, 1001)
    ensures ci
  {
    assert Refused(Drawn(draws, 0, n), hash, ci);
  }

  lemma {:induction false} DrawnScrambles(draws: Draws, t: nat, n: nat, hash: bv32, ci: bool)
    requires FromAlphabet(draws) && !Refused(Drawn(draws, t, n), hash, ci)
    ensures Scrambled(Attempt(Drawn(draws, t, n), hash, ci), hash, ci)
  {
    var prefix := Drawn(draws, t, n);
    assert Attempt(prefix, hash, ci)[..n] == prefix;
  }

  /** One attempt. */
  method TryPrefix(hash: bv32, name: array<bv8>, ci: bool, draws: Draws, t: nat) returns (ok: bool)
    requires name.Length >= 5 && AllRefused(draws, name.Length - 5, hash, ci, t)
    modifies name
    ensures ok ==> !Refused(Drawn(draws, t, name.Length - 5), hash, ci)
    ensures ok ==> name[..] == Attempt(Drawn(draws, t, name.Length - 5), hash, ci)
    ensures !ok ==> AllRefused(draws, name.Length - 5, hash, ci, t + 1)
  {
    var newHash := FillPrefix(name, ci, draws, t);
    newHash := Lacks(newHash, hash);
    ok := SolveTail(name, newHash, ci);
    if ok {
      assert name[..] == name[..name.Length - 5] + name[name.Length - 5..];
    } else {
      RefusedMore(draws, name.Length - 5, hash, ci, t);
    }
  }

  /** What obfuscate_name may turn a name into. */
  predicate Obfuscated(name: Name, hash: bv32, ci: bool, obf: Name) {
    && |obf| == |name|
    && (|name| < 5 ==> obf == name)
    && (|name| >= 5 ==> Scrambled(obf, hash, ci) || (ci && obf == name))
  }

  /**
    A short name stays. Another becomes what the first prefix leads to that is not refused, or stays when
    1001 have been.
  */
  ghost predicate ObfuscateResult(was: Name, now: Name, hash: bv32, ci: bool, draws: Draws, tries: nat, ok: bool) {
    if |was| < 5 then now == was && tries == 0
    else
      var n := |was| - 5;
      && |now| == |was| && 1 <= tries <= 1001 && AllRefused(draws, n, hash, ci, if ok then tries - 1 else tries)
      && (ok ==> !Refused(Drawn(draws, tries - 1, n), hash, ci))
      && (ok ==> now == Attempt(Drawn(draws, tries - 1, n), hash, ci))
      && (!ok ==> tries == 1001 && now == was)
  }

  /**
    obfuscate_name: a name of at least five bytes becomes the one that the first usable prefix leads to.
    Every prefix is usable but on an ascii-ci filesystem, where the old name comes back if none of 1001
    is.
  */
  method ObfuscateName(hash: bv32, name: array<bv8>, ci: bool, draws: Draws) returns (tries: nat, ghost ok: bool)
    modifies name
    ensures ObfuscateResult(old(name[..]), name[..], hash, ci, draws, tries, ok)
  {
    tries, ok := 0, false;
    if name.Length < 5 {
      return;
    }
    var oldname := name[..];
    var done := false;
    while !done && tries <= 1000
      invariant tries <= 1001 && (done ==> tries > 0)
      invariant AllRefused(draws, name.Length - 5, hash, ci, if done then tries - 1 else tries)
      invariant done ==> !Refused(Drawn(draws, tries - 1, name.Length - 5), hash, ci)
      invariant done ==> name[..] == Attempt(Drawn(draws, tries - 1, name.Length - 5), hash, ci)
      decreases !done, 1001 - tries
    {
      done := TryPrefix(hash, name, ci, draws, tries);
      tries := tries + 1;
    }
    ok := done;
    if !done {
      forall i | 0 <= i < name.Length {
        name[i] := oldname[i];
      }
      assert name[..] == oldname;
    }
  }

  /** What is left of that when it does not matter which attempt it was. */
  method ObfuscateSome(hash: bv32, name: array<bv8>, ci: bool, draws: Draws) returns (ghost t: nat, ghost ok: bool)
    modifies name
    ensures name.Length < 5 || !ok ==> name[..] == old(name[..])
    ensures name.Length >= 5 && ok ==> !Refused(Drawn(draws, t, name.Length - 5), hash, ci)
                                       && name[..] == Attempt(Drawn(draws, t, name.Length - 5), hash, ci)
    ensures name.Length >= 5 && !ok ==> ci
  {
    var tries;
    tries, ok := ObfuscateName(hash, name, ci, draws);
    t := if tries > 0 then tries - 1 else 0;
    if name.Length >= 5 && !ok { RefusedNeedsCi(draws, name.Length - 5, hash, ci); }
  }

  lemma {:induction false} AttemptObfuscates(name: Name, obf: Name, hash: bv32, ci: bool, draws: Draws, t: nat)
    requires FromAlphabet(draws) && |obf| == |name| >= 5 && !Refused(Drawn(draws, t, |name| - 5), hash, ci)
    requires obf == Attempt(Drawn(draws, t, |name| - 5), hash, ci)
    ensures Obfuscated(name, hash, ci, obf)
  {
    DrawnScrambles(draws, t, |name| - 5, hash, ci);
  }
}
