/**
  Bit fields in big-endian buffers (db/bit.c) and the arithmetic fuzzers that rewrite them
  (db/fuzz.c). Bytes are the integers below 256, and 64-bit words are taken as unsigned.
*/
module BitField {
  import opened Arith

  type Byte = b: int | 0 <= b < 256

  // ---------------------------------------------------------------------------
  // Bits of a byte, most significant first
  // ---------------------------------------------------------------------------

  /** x >> s */
  function Shr(x: nat, s: nat): nat {
    if s == 0 then x else Shr(x / 2, s - 1)
  }

  /** x with the bit of weight 2^s set or cleared. */
  function Put(x: nat, s: nat, v: bool): nat {
    if s == 0 then x - x % 2 + I(v) else 2 * Put(x / 2, s - 1, v) + x % 2
  }

  function I(v: bool): nat { if v then 1 else 0 }

  function GetBit(b: Byte, k: nat): bool
    requires k < 8
  {
    BitOf(b, 7 - k)
  }

  lemma {:induction false} PutBound(x: nat, s: nat, v: bool, n: nat)
    requires x < Pow2(n) && s < n
    ensures Put(x, s, v) < Pow2(n)
  {
    assert x == 2 * (x / 2) + x % 2 && Pow2(n) == 2 * Pow2(n - 1);
    if s > 0 { PutBound(x / 2, s - 1, v, n - 1); } else { assert x / 2 < Pow2(n - 1); }
  }

  /** The other bits keep their value. */
  lemma {:induction false} PutGet(x: nat, s: nat, v: bool, j: nat)
    ensures BitOf(Put(x, s, v), j) == if j == s then v else BitOf(x, j)
  {
    if s > 0 {
      TwiceAnd(Put(x / 2, s - 1, v), x % 2);
      if j > 0 { PutGet(x / 2, s - 1, v, j - 1); }
    } else {
      TwiceAnd(x / 2, I(v));
    }
  }

  lemma {:induction false} TwiceAnd(y: nat, r: nat)
    requires r < 2
    ensures (2 * y + r) / 2 == y && (2 * y + r) % 2 == r
  {
  }

  lemma {:induction false} ShrBit(x: nat, s: nat)
    ensures Shr(x, s) % 2 == I(BitOf(x, s))
  {
    if s > 0 { ShrBit(x / 2, s - 1); }
  }

  lemma {:induction false} ShrHalf(x: nat, s: nat)
    ensures Shr(x, s) / 2 == Shr(x, s + 1)
  {
    if s > 0 { ShrHalf(x / 2, s - 1); }
  }

  lemma {:induction false} ShrAll(x: nat, n: nat)
    requires x < Pow2(n)
    ensures Shr(x, n) == 0
  {
    if n > 0 { ShrAll(x / 2, n - 1); }
  }

  // ---------------------------------------------------------------------------
  // Bits of a buffer
  // ---------------------------------------------------------------------------

  /** The bit at an offset into a buffer. */
  function BitAt(buf: seq<Byte>, i: nat): bool
    requires i < 8 * |buf|
  {
    GetBit(buf[i / 8], i % 8)
  }

  /** n bits from bit offset `off`, read as one number. */
  function Value(buf: seq<Byte>, off: nat, n: nat): nat
    requires off + n <= 8 * |buf|
  {
    if n == 0 then 0 else 2 * Value(buf, off, n - 1) + I(BitAt(buf, off + n - 1))
  }

  lemma {:induction false} ValueBound(buf: seq<Byte>, off: nat, n: nat)
    requires off + n <= 8 * |buf|
    ensures Value(buf, off, n) < Pow2(n)
  {
    if n > 0 { ValueBound(buf, off, n - 1); }
  }

  /** n bits of one buffer are those of another. */
  ghost predicate SameBits(a: seq<Byte>, aoff: nat, b: seq<Byte>, boff: nat, n: nat) {
    && aoff + n <= 8 * |a| && boff + n <= 8 * |b|
    && forall i, j :: aoff <= i < aoff + n && boff <= j < boff + n && i - aoff == j - boff ==>
         BitAt(a, i) == BitAt(b, j)
  }

  /** The fields are equal as numbers exactly when their bits are. */
  lemma {:induction false} ValueSame(a: seq<Byte>, aoff: nat, b: seq<Byte>, boff: nat, n: nat)
    requires aoff + n <= 8 * |a| && boff + n <= 8 * |b|
    ensures Value(a, aoff, n) == Value(b, boff, n) <==> SameBits(a, aoff, b, boff, n)
  {
    if n > 0 {
      ValueSame(a, aoff, b, boff, n - 1);
    }
  }

  /** The first k bits of a byte follow what is before it. */
  lemma {:induction false} ValuePart(buf: seq<Byte>, p: nat, off: nat, n: nat, k: nat)
    requires off + n == 8 * p && p < |buf| && k <= 8
    ensures Value(buf, off, n + k) == Pow2(k) * Value(buf, off, n) + Shr(buf[p], 8 - k)
  {
    if k == 0 {
      assert Pow2(8) == 256;
      ShrAll(buf[p], 8);
    } else {
      ValuePart(buf, p, off, n, k - 1);
      ShrHalf(buf[p], 8 - k);
      ShrBit(buf[p], 8 - k);
      Double(Pow2(k - 1), Value(buf, off, n));
    }
  }

  lemma {:induction false} Double(x: nat, y: nat)
    ensures (2 * x) * y == 2 * (x * y)
  {
  }

  /** A whole byte of a buffer is eight bits of the number. */
  lemma {:induction false} ValueByte(buf: seq<Byte>, p: nat, off: nat, n: nat)
    requires off + n == 8 * p && p < |buf|
    ensures Value(buf, off, n + 8) == 256 * Value(buf, off, n) + buf[p]
  {
    ValuePart(buf, p, off, n, 8);
    assert Pow2(8) == 256;
  }

  // ---------------------------------------------------------------------------
  // Writing
  // ---------------------------------------------------------------------------

  /** Only the bits off .. off + n - 1 may differ. */
  ghost predicate OthersKept(was: seq<Byte>, now: seq<Byte>, off: nat, n: nat) {
    && |was| == |now|
    && forall i :: 0 <= i < 8 * |now| && !(off <= i < off + n) ==> BitAt(now, i) == BitAt(was, i)
  }

  lemma {:induction false} PutBit(buf: seq<Byte>, bit: nat, v: bool, buf': seq<Byte>)
    requires bit < 8 * |buf| && Put(buf[bit / 8], 7 - bit % 8, v) < 256
    requires buf' == buf[bit / 8 := Put(buf[bit / 8], 7 - bit % 8, v)]
    ensures BitAt(buf', bit) == v && OthersKept(buf, buf', bit, 1)
  {
    PutGet(buf[bit / 8], 7 - bit % 8, v, 7 - bit % 8);
    forall i | 0 <= i < 8 * |buf'| && i != bit
      ensures BitAt(buf', i) == BitAt(buf, i)
    {
      if i / 8 == bit / 8 { PutGet(buf[bit / 8], 7 - bit % 8, v, 7 - i % 8); }
    }
  }

  /** setbit_l */
  method SetBitL(buf: array<Byte>, bit: nat, v: bool)
    requires bit < 8 * buf.Length
    modifies buf
    ensures BitAt(buf[..], bit) == v && OthersKept(old(buf[..]), buf[..], bit, 1)
  {
    assert Pow2(8) == 256;
    PutBound(buf[bit / 8], 7 - bit % 8, v, 8);
    PutBit(buf[..], bit, v, buf[..][bit / 8 := Put(buf[bit / 8], 7 - bit % 8, v)]);
    buf[bit / 8] := Put(buf[bit / 8], 7 - bit % 8, v);
    assert buf[..] == old(buf[..])[bit / 8 := buf[bit / 8]];
  }

  /** setbitval: n bits of `input` go to bit offset `off`, bit by bit or by whole bytes. */
  method SetBitVal(buf: array<Byte>, off: nat, n: nat, input: seq<Byte>)
    requires off + n <= 8 * buf.Length && n <= 8 * |input|
    modifies buf
    ensures SameBits(buf[..], off, input, 0, n) && OthersKept(old(buf[..]), buf[..], off, n)
  {
    if off % 8 != 0 || n % 8 != 0 {
      var bit := 0;
      while bit < n
        invariant 0 <= bit <= n
        invariant SameBits(buf[..], off, input, 0, bit) && OthersKept(old(buf[..]), buf[..], off, bit)
      {
        SetBitL(buf, bit + off, BitAt(input, bit));
        bit := bit + 1;
      }
    } else {
      CopyBytes(buf, off / 8, n / 8, input);
      BytesAreBits(old(buf[..]), buf[..], off / 8, n / 8, input);
    }
  }

  /** memcpy */
  method CopyBytes(buf: array<Byte>, p: nat, k: nat, input: seq<Byte>)
    requires p + k <= buf.Length && k <= |input|
    modifies buf
    ensures buf[..] == old(buf[..p]) + input[..k] + old(buf[p + k..])
  {
    var j := 0;
    while j < k
      invariant 0 <= j <= k
      invariant forall i :: 0 <= i < buf.Length ==> buf[i] == if p <= i < p + j then input[i - p] else old(buf[i])
    {
      buf[p + j] := input[j];
      j := j + 1;
    }
  }

  lemma {:induction false} BytesAreBits(was: seq<Byte>, now: seq<Byte>, p: nat, k: nat, input: seq<Byte>)
    requires p + k <= |was| && k <= |input| && now == was[..p] + input[..k] + was[p + k..]
    ensures SameBits(now, 8 * p, input, 0, 8 * k) && OthersKept(was, now, 8 * p, 8 * k)
  {
    assert forall i :: p <= i < p + k ==> now[i] == input[i - p];
    assert forall i :: 0 <= i < |now| && !(p <= i < p + k) ==> now[i] == was[i];
  }

  // ---------------------------------------------------------------------------
  // Reading
  // ---------------------------------------------------------------------------

  lemma {:induction false} PowAdd(a: nat, b: nat)
    ensures Pow2(a + b) == Pow2(a) * Pow2(b)
  {
    if b > 0 {
      PowAdd(a, b - 1);
      Double(Pow2(b - 1), Pow2(a));
    }
  }

  /** get_unaligned_be16 and its relatives. */
  function BeValue(buf: seq<Byte>, p: nat, k: nat): nat
    requires p + k <= |buf|
  {
    if k == 0 then 0 else 256 * BeValue(buf, p, k - 1) + buf[p + k - 1]
  }

  lemma {:induction false} BeIsValue(buf: seq<Byte>, p: nat, k: nat)
    requires p + k <= |buf|
    ensures BeValue(buf, p, k) == Value(buf, 8 * p, 8 * k)
  {
    if k > 0 {
      BeIsValue(buf, p, k - 1);
      ValueByte(buf, p + k - 1, 8 * p, 8 * (k - 1));
    }
  }

  /** The field as a 64-bit word: a signed field with its top bit set is extended to the left. */
  function Extended(v: nat, n: nat, signed: bool): int {
    if signed && 0 < n < 64 && v >= Pow2(n - 1) then v + (U64 - Pow2(n)) else v
  }

  lemma {:induction false} TopBit(buf: seq<Byte>, off: nat, n: nat)
    requires off + n <= 8 * |buf| && n > 0
    ensures Value(buf, off, n) >= Pow2(n - 1) <==> BitAt(buf, off)
  {
    if n > 1 { TopBit(buf, off, n - 1); } else { assert Value(buf, off, 0) == 0; }
  }

  /** x << k, without losing bits. */
  function Shl(x: nat, k: nat): nat
    decreases k
  {
    if k == 0 then x else Shl(2 * x, k - 1)
  }

  lemma {:induction false} ShlZero(k: nat)
    ensures Shl(0, k) == 0
  {
    if k > 0 { ShlZero(k - 1); }
  }

  lemma {:induction false} ShlNext(x: nat, k: nat)
    ensures Shl(x + 1, k) == Shl(x, k) + Pow2(k)
    decreases k
  {
    if k > 0 {
      ShlNext(2 * x, k - 1);
      ShlNext(2 * x + 1, k - 1);
    }
  }

  /** The sign bits that a set top bit brings. */
  function SignBits(top: bool, n: nat, signed: bool): int { if top && signed && n < 64 then U64 - Pow2(n) else 0 }

  /** The loop of getbitval; what is or-ed into the result lies below all that is set. */
  method ScrapeBits(buf: seq<Byte>, off: nat, n: nat, signed: bool) returns (r: int)
    requires off + n <= 8 * |buf| && n <= 64
    ensures r == Extended(Value(buf, off, n), n, signed)
  {
    r := 0;
    var i := 0;
    ShlZero(n);
    while i < n
      invariant 0 <= i <= n
      invariant r == (if i == 0 then 0 else SignBits(BitAt(buf, off), n, signed)) + Shl(Value(buf, off, i), n - i)
    {
      ghost var v := Value(buf, off, i);
      if BitAt(buf, off + i) {
        ShlNext(2 * v, n - i - 1);
        if i == 0 && signed && n < 64 { r := U64 - Pow2(n); }
        r := r + Pow2(n - i - 1);
      }
      i := i + 1;
    }
    if n > 0 { TopBit(buf, off, n); }
  }

  /** The casts of the fast paths. */
  function Cast(v: nat, n: nat, signed: bool): int {
    if signed && n == 32 && v >= 0x8000_0000 then v + (U64 - 0x1_0000_0000)
    else if signed && n == 16 && v >= 0x8000 then v + (U64 - 0x1_0000)
    else if signed && n == 8 && v >= 0x80 then v + (U64 - 0x100)
    else v
  }

  lemma {:induction false} CastExtends(v: nat, n: nat, signed: bool)
    requires n == 64 || n == 32 || n == 16 || n == 8
    ensures Cast(v, n, signed) == Extended(v, n, signed)
  {
    PowValues();
  }

  /** getbitval: the aligned fast paths and the loop compute the same. */
  method GetBitVal(buf: seq<Byte>, off: nat, n: nat, signed: bool) returns (r: int)
    requires off + n <= 8 * |buf| && n <= 64
    ensures r == Extended(Value(buf, off, n), n, signed)
  {
    if off % 8 == 0 && (n == 64 || n == 32 || n == 16 || n == 8) {
      BeIsValue(buf, off / 8, n / 8);
      r := Cast(BeValue(buf, off / 8, n / 8), n, signed);
      CastExtends(Value(buf, off, n), n, signed);
    } else {
      r := ScrapeBits(buf, off, n, signed);
    }
  }

  // ---------------------------------------------------------------------------
  // Formatting a number
  // ---------------------------------------------------------------------------

  /** The k lowest bytes of v, big-endian. */
  function BeBytes(v: nat, k: nat): (r: seq<Byte>)
    ensures |r| == k
  {
    if k == 0 then [] else BeBytes(v / 256, k - 1) + [v % 256]
  }

  lemma {:induction false} BeBytesTail(v: nat, k: nat, n: nat)
    requires n <= k
    ensures BeBytes(v, k)[k - n..] == BeBytes(v, n)
  {
    if n > 0 { BeBytesTail(v / 256, k - 1, n - 1); }
  }

  lemma {:induction false} BeBytesPrefix(a: seq<Byte>, b: seq<Byte>, j: nat)
    requires j <= |a| && j <= |b| && a[..j] == b[..j]
    ensures BeValue(a, 0, j) == BeValue(b, 0, j)
  {
    if j > 0 {
      assert a[j - 1] == a[..j][j - 1] == b[j - 1];
      assert a[..j - 1] == a[..j][..j - 1] == b[..j - 1];
      BeBytesPrefix(a, b, j - 1);
    }
  }

  lemma {:induction false} ModSplit(v: nat, m: nat)
    requires m > 0
    ensures v % (256 * m) == 256 * (v / 256 % m) + v % 256
  {
    var q, r := v / 256, v % 256;
    var a, b := q / m, q % m;
    assert q == a * m + b && v == 256 * q + r;
    assert v == a * (256 * m) + (256 * b + r);
    MulDivMod(a, 256 * m, 256 * b + r);
  }

  /** Reading the bytes back gives the number modulo the size. */
  lemma {:induction false} BeRoundTrip(v: nat, k: nat)
    ensures BeValue(BeBytes(v, k), 0, k) == v % Pow2(8 * k)
  {
    if k > 0 {
      BeRoundTrip(v / 256, k - 1);
      BeBytesPrefix(BeBytes(v, k), BeBytes(v / 256, k - 1), k - 1);
      PowAdd(8, 8 * (k - 1));
      assert Pow2(8) == 256;
      ModSplit(v, Pow2(8 * (k - 1)));
    }
  }

  /** Dropping the lowest bits divides. */
  lemma {:induction false} ValueDrop(buf: seq<Byte>, off: nat, n: nat, d: nat)
    requires off + n + d <= 8 * |buf|
    ensures Value(buf, off, n) == Value(buf, off, n + d) / Pow2(d)
  {
    if d > 0 {
      ValueDrop(buf, off, n, d - 1);
      var x := Value(buf, off, n + d);
      assert x / 2 == Value(buf, off, n + d - 1);
      DivDiv(x, Pow2(d - 1));
    }
  }

  lemma {:induction false} DivDiv(x: nat, d: nat)
    requires d > 0
    ensures x / (2 * d) == x / 2 / d
  {
    var q, r := x / 2 / d, x / 2 % d;
    assert x / 2 == q * d + r;
    assert x == q * (2 * d) + (2 * r + x % 2);
    MulDivMod(q, 2 * d, 2 * r + x % 2);
  }

  lemma {:induction false} ModScale(v: nat, m: nat, d: nat)
    requires m > 0 && d > 0
    ensures m * d > 0 && (v * d) % (m * d) / d == v % m
  {
    var q, r := v / m, v % m;
    MulAtLeast(m, d);
    assert v == q * m + r;
    assert v * d == q * (m * d) + r * d;
    assert r * d < m * d by { MulAtLeast(m - r, d); assert (m - r) * d == m * d - r * d; }
    MulDivMod(q, m * d, r * d);
    MulDivMod(r, d, 0);
  }

  lemma {:induction false} Regroup(q: int, m: int, k: int, s: int, t: int)
    ensures q * (m * k) + (s * m + t) == (q * k + s) * m + t
  {
  }

  lemma {:induction false} ModMod(x: int, m: nat, k: nat)
    requires m > 0 && k > 0
    ensures m * k > 0 && x % (m * k) % m == x % m
  {
    MulAtLeast(m, k);
    var q, r := x / (m * k), x % (m * k);
    var s, t := r / m, r % m;
    assert x == q * (m * k) + r && r == s * m + t;
    Regroup(q, m, k, s, t);
    MulDivMod(q * k + s, m, t);
  }

  lemma {:induction false} ModModPow(x: int, a: nat, b: nat)
    requires a <= b
    ensures x % Pow2(b) % Pow2(a) == x % Pow2(a)
  {
    PowAdd(a, b - a);
    ModMod(x, Pow2(a), Pow2(b - a));
  }

  lemma {:induction false} WordMod(x: int, n: nat)
    requires n <= 64
    ensures x % U64 % Pow2(n) == x % Pow2(n)
  {
    PowValues();
    ModModPow(x, n, 64);
  }

  lemma {:induction false} FormatWord(w: nat, k: nat)
    requires k <= 8
    ensures Value(BeBytes(w % U64, k), 0, 8 * k) == w % Pow2(8 * k)
  {
    BeRoundTrip(w % U64, k);
    BeIsValue(BeBytes(w % U64, k), 0, k);
    WordMod(w, 8 * k);
  }

  lemma {:induction false} FormattedField(bytes: seq<Byte>, w: nat, v: nat, n: nat, k: nat, pad: nat)
    requires w == v * Pow2(pad) && bytes == BeBytes(w % U64, k) && 8 * k == n + pad && k <= 8
    ensures Value(bytes, 0, n) == v % Pow2(n)
  {
    FormatWord(w, k);
    ValueDrop(bytes, 0, n, pad);
    PowAdd(n, pad);
    FormatAlgebra(v, Pow2(n), Pow2(pad), Pow2(8 * k), Value(bytes, 0, 8 * k), Value(bytes, 0, n));
  }

  lemma {:induction false} FormatAlgebra(v: nat, m: nat, d: nat, size: nat, whole: nat, field: nat)
    requires m > 0 && d > 0 && size == m * d > 0 && whole == v * d % size && field == whole / d
    ensures field == v % m
  {
    ModScale(v, m, d);
  }

  /** format_number: the field of the bytes returned, read back, is the number modulo its size. */
  method FormatNumber(v: nat, n: nat) returns (bytes: seq<Byte>)
    requires 1 <= n <= 64
    ensures n <= 8 * |bytes| && Value(bytes, 0, n) == v % Pow2(n)
  {
    var pad := if n % 8 != 0 then 8 - n % 8 else 0;
    var skip := 7 - (n - 1) / 8;
    bytes := LowBytes(v * Pow2(pad), skip);
    FormattedField(bytes, v * Pow2(pad), v, n, 8 - skip, pad);
  }

  /** The 64-bit word in big-endian order, without the first bytes. */
  method LowBytes(w: nat, skip: nat) returns (bytes: seq<Byte>)
    requires skip <= 8
    ensures bytes == BeBytes(w % U64, 8 - skip)
  {
    bytes := BeBytes(w % U64, 8)[skip..];
    BeBytesTail(w % U64, 8, 8 - skip);
  }

  // ---------------------------------------------------------------------------
  // The fuzzers
  // ---------------------------------------------------------------------------

  /** The small prime that is added. */
  function Prime(n: nat): nat { if n > 8 then 2017 else 137 }

  /** Write a value into a field and nothing else. */
  method WriteField(buf: array<Byte>, off: nat, n: nat, v: nat)
    requires 1 <= n <= 64 && off + n <= 8 * buf.Length
    modifies buf
    ensures Value(buf[..], off, n) == v % Pow2(n) && OthersKept(old(buf[..]), buf[..], off, n)
  {
    var bytes := FormatNumber(v, n);
    SetBitVal(buf, off, n, bytes);
    ValueSame(buf[..], off, bytes, 0, n);
  }

  /** fuzz_add */
  method FuzzAdd(buf: array<Byte>, off: nat, n: nat) returns (ok: bool)
    requires n >= 1 && off + n <= 8 * buf.Length
    modifies buf
    ensures ok <==> n <= 64
    ensures ok ==> Value(buf[..], off, n) == (old(Value(buf[..], off, n)) + if n > 8 then 2017 else 137) % Pow2(n)
    ensures OthersKept(old(buf[..]), buf[..], off, n) && (!ok ==> buf[..] == old(buf[..]))
  {
    if n > 64 {
      return false;
    }
    var v := GetBitVal(buf[..], off, n, false);
    WordMod(v + Prime(n), n);
    WriteField(buf, off, n, (v + Prime(n)) % U64);
    ok := true;
  }

  /** fuzz_sub */
  method FuzzSub(buf: array<Byte>, off: nat, n: nat) returns (ok: bool)
    requires n >= 1 && off + n <= 8 * buf.Length
    modifies buf
    ensures ok <==> n <= 64
    ensures ok ==> Value(buf[..], off, n) == (old(Value(buf[..], off, n)) - if n > 8 then 2017 else 137) % Pow2(n)
    ensures OthersKept(old(buf[..]), buf[..], off, n) && (!ok ==> buf[..] == old(buf[..]))
  {
    if n > 64 {
      return false;
    }
    var v := GetBitVal(buf[..], off, n, false);
    WordMod(v - Prime(n), n);
    WriteField(buf, off, n, (v - Prime(n)) % U64);
    ok := true;
  }

  lemma {:induction false} AddSubMod(v: nat, k: nat, m: nat)
    requires v < m
    ensures ((v + k) % m - k) % m == v
  {
    var q, r := (v + k) / m, (v + k) % m;
    assert v + k == q * m + r;
    assert r - k == (-q) * m + v;
    MulDivMod(-q, m, v);
  }

  /** Buffers with equal bits are equal. */
  lemma {:induction false} BufferOfBits(a: seq<Byte>, b: seq<Byte>)
    requires |a| == |b| && forall i :: 0 <= i < 8 * |a| ==> BitAt(a, i) == BitAt(b, i)
    ensures a == b
  {
    forall p | 0 <= p < |a|
      ensures a[p] == b[p]
    {
      forall j | 0 <= j < 8
        ensures BitOf(a[p], j) == BitOf(b[p], j)
      {
        assert BitAt(a, 8 * p + (7 - j)) == BitAt(b, 8 * p + (7 - j));
      }
      assert Pow2(8) == 256;
      BitsDetermine(a[p], b[p], 8);
    }
  }

  /** A field written and then written back leaves the buffer as it was. */
  lemma {:induction false} Restored(b0: seq<Byte>, b1: seq<Byte>, b2: seq<Byte>, off: nat, n: nat, k: nat)
    requires off + n <= 8 * |b0| && OthersKept(b0, b1, off, n) && OthersKept(b1, b2, off, n)
    requires Value(b1, off, n) == (Value(b0, off, n) + k) % Pow2(n)
    requires Value(b2, off, n) == (Value(b1, off, n) - k) % Pow2(n)
    ensures b2 == b0
  {
    ValueBound(b0, off, n);
    AddSubMod(Value(b0, off, n), k, Pow2(n));
    ValueSame(b2, off, b0, off, n);
    BufferOfBits(b2, b0);
  }

  /** fuzz_add followed by fuzz_sub restores the buffer. */
  method AddThenSub(buf: array<Byte>, off: nat, n: nat)
    requires n >= 1 && off + n <= 8 * buf.Length
    modifies buf
    ensures buf[..] == old(buf[..])
  {
    ghost var b0 := buf[..];
    var ok := FuzzAdd(buf, off, n);
    ghost var b1 := buf[..];
    ok := FuzzSub(buf, off, n);
    if ok { Restored(b0, b1, buf[..], off, n, Prime(n)); }
  }
}
