/** Integers of up to 64 bits at any bit offset of a string: the bit-wise get and
    set. */
module Bitfield {
  import opened Bitpos

  // -------- Powers of two --------

  function Pow2(n: nat): (p: nat)
    ensures p > 0
  {
    if n == 0 then 1 else 2 * Pow2(n - 1)
  }

  lemma {:induction false} PowGrows(m: nat, n: nat)
    requires m <= n
    ensures Pow2(m) <= Pow2(n)
    decreases n
  {
    if m < n { PowGrows(m, n - 1); }
  }

  lemma QuotientUnique(x: int, d: nat, q: int, r: nat)
    requires d > 0 && x == d * q + r && r < d
    ensures x / d == q && x % d == r
  {
    var e := x / d;
    assert d * e + x % d == d * q + r;
    if e > q { MulStep(d, q, e); } else if e < q { MulStep(d, e, q); }
  }

  lemma {:induction false} MulStep(d: nat, a: int, b: int)
    requires a < b
    ensures d * a + d <= d * b
    decreases b - a
  {
    assert d * b == d * (b - 1) + d;
    if a < b - 1 { MulStep(d, a, b - 1); }
  }

  /** The last bit of a number and the rest of it, modulo a power of two. */
  lemma ModPush(v: nat, n: nat)
    ensures v % Pow2(n + 1) == 2 * (v / 2 % Pow2(n)) + v % 2
  {
    var p := Pow2(n);
    var h := v / 2;
    assert h == p * (h / p) + h % p;
    assert v == 2 * h + v % 2;
    assert v == 2 * p * (h / p) + (2 * (h % p) + v % 2) by {
      assert 2 * h == 2 * (p * (h / p) + h % p) == 2 * p * (h / p) + 2 * (h % p);
    }
    QuotientUnique(v, 2 * p, h / p, 2 * (h % p) + v % 2);
  }

  // -------- Shifts and masks --------

  /** Bit i of a number. */
  predicate BitOf(v: nat, i: nat)
    decreases i
  {
    if i == 0 then v % 2 != 0 else BitOf(v / 2, i - 1)
  }

  /** Its low n bits. */
  function Low(v: nat, n: nat): nat
    decreases n
  {
    if n == 0 then 0 else 2 * Low(v / 2, n - 1) + v % 2
  }

  lemma {:induction false} LowIsMod(v: nat, n: nat)
    ensures Low(v, n) == v % Pow2(n)
    decreases n
  {
    if n > 0 {
      LowIsMod(v / 2, n - 1);
      ModPush(v, n - 1);
    }
  }

  lemma HalfFirst(v: nat, p: nat)
    requires p > 0
    ensures v / (2 * p) == v / 2 / p
  {
    var q, r := v / 2 / p, v / 2 % p;
    assert v / 2 == p * q + r && v == 2 * (v / 2) + v % 2;
    assert v == 2 * p * q + (2 * r + v % 2) by { assert 2 * (p * q + r) == 2 * p * q + 2 * r; }
    QuotientUnique(v, 2 * p, q, 2 * r + v % 2);
  }

  lemma {:induction false} BitOfIsDiv(v: nat, i: nat)
    ensures BitOf(v, i) <==> v / Pow2(i) % 2 != 0
    decreases i
  {
    if i == 0 {
      assert v / 1 == v;
    } else {
      BitOfIsDiv(v / 2, i - 1);
      HalfFirst(v, Pow2(i - 1));
    }
  }

  // -------- Bits and fields --------

  /** Bit q of the string, zeros after its end. */
  predicate Bit(s: seq<bv8>, q: nat) { q < 8 * |s| && BitAt(s, q) }

  function Digit(one: bool): nat { if one then 1 else 0 }

  /** The unsigned integer in n bits from off on, most significant first. */
  function Unsigned(s: seq<bv8>, off: nat, n: nat): (v: nat)
    ensures v < Pow2(n)
  {
    if n == 0 then 0 else 2 * Unsigned(s, off, n - 1) + Digit(Bit(s, off + n - 1))
  }

  /** The same bits read in two's complement. */
  function Signed(s: seq<bv8>, off: nat, n: nat): (v: int)
    requires n > 0
    ensures 0 - Pow2(n - 1) <= v < Pow2(n - 1)
  {
    AsSigned(Unsigned(s, off, n), n)
  }

  function AsSigned(u: nat, n: nat): (v: int)
    requires n > 0 && u < Pow2(n)
    ensures 0 - Pow2(n - 1) <= v < Pow2(n - 1)
  {
    if u >= Pow2(n - 1) then u - Pow2(n) else u
  }

  lemma {:induction false} SameBits(s: seq<bv8>, t: seq<bv8>, off: nat, to: nat, n: nat)
    requires forall q :: off <= q < off + n ==> Bit(s, q) == Bit(t, q - off + to)
    ensures Unsigned(s, off, n) == Unsigned(t, to, n)
  {
    if n > 0 {
      SameBits(s, t, off, to, n - 1);
      assert Bit(s, off + n - 1) == Bit(t, to + n - 1);
    }
  }

  // -------- Writing --------

  function WithBit(b: bv8, j: nat, one: bool): bv8
    requires j < 8
  {
    (b & !Mask8(j)) | (if one then Mask8(j) else 0)
  }

  lemma WithBitEffect(b: bv8, j: nat, one: bool, i: nat)
    requires i < 8 && j < 8
    ensures InByte(WithBit(b, j, one), i) == if i == j then one else InByte(b, i)
  {}

  function PutBit(s: seq<bv8>, pos: nat, one: bool): (t: seq<bv8>)
    requires pos < 8 * |s|
    ensures |t| == |s|
  {
    s[pos / 8 := WithBit(s[pos / 8], pos % 8, one)]
  }

  lemma WriteBit(s: seq<bv8>, pos: nat, one: bool, q: nat)
    requires pos < 8 * |s|
    ensures Bit(PutBit(s, pos, one), q) == if q == pos then one else Bit(s, q)
  {
    if q < 8 * |s| && q / 8 == pos / 8 {
      WithBitEffect(s[pos / 8], pos % 8, one, q % 8);
    }
  }

  /** Only the field has changed, and it holds the value modulo its width. */
  ghost predicate Stored(s: seq<bv8>, t: seq<bv8>, off: nat, n: nat, v: nat) {
    && |t| == |s| && Unsigned(t, off, n) == v % Pow2(n)
    && forall q :: 0 <= q < 8 * |s| && !(off <= q < off + n) ==> Bit(t, q) == Bit(s, q)
  }

  /** The first j of the n binary digits of v. */
  function Digits(v: nat, n: nat, j: nat): nat
    requires j <= n
  {
    if j == 0 then 0 else 2 * Digits(v, n, j - 1) + Digit(BitOf(v, n - j))
  }

  /** The string after the first j bits of the field are written. */
  function Written(s: seq<bv8>, off: nat, n: nat, v: nat, j: nat): (t: seq<bv8>)
    requires j <= n && off + n <= 8 * |s|
    ensures |t| == |s|
  {
    if j == 0 then s
    else
      PutBit(Written(s, off, n, v, j - 1), off + j - 1, BitOf(v, n - j))
  }

  lemma StoreStep(s: seq<bv8>, t: seq<bv8>, u: seq<bv8>, off: nat, j: nat, one: bool)
    requires |s| == |t| && off + j < 8 * |s| && u == PutBit(t, off + j, one)
    requires forall q :: 0 <= q < 8 * |s| && !(off <= q < off + j) ==> Bit(t, q) == Bit(s, q)
    ensures Unsigned(u, off, j + 1) == 2 * Unsigned(t, off, j) + Digit(one)
    ensures forall q :: 0 <= q < 8 * |s| && !(off <= q < off + j + 1) ==> Bit(u, q) == Bit(s, q)
  {
    forall q | 0 <= q ensures Bit(u, q) == if q == off + j then one else Bit(t, q) { WriteBit(t, off + j, one, q); }
    SameBits(u, t, off, off, j);
  }

  lemma {:induction false} DigitsOfHalf(v: nat, n: nat, j: nat)
    requires j < n
    ensures Digits(v, n, j) == Digits(v / 2, n - 1, j)
    decreases j
  {
    if j > 0 { DigitsOfHalf(v, n, j - 1); }
  }

  lemma {:induction false} AllDigits(v: nat, n: nat)
    ensures Digits(v, n, n) == Low(v, n)
    decreases n
  {
    if n > 0 {
      DigitsOfHalf(v, n, n - 1);
      AllDigits(v / 2, n - 1);
    }
  }

  lemma {:induction false} WrittenBits(s: seq<bv8>, off: nat, n: nat, v: nat, j: nat)
    requires j <= n && off + n <= 8 * |s|
    ensures Unsigned(Written(s, off, n, v, j), off, j) == Digits(v, n, j)
    ensures forall q :: 0 <= q < 8 * |s| && !(off <= q < off + j) ==> Bit(Written(s, off, n, v, j), q) == Bit(s, q)
  {
    if j > 0 {
      WrittenBits(s, off, n, v, j - 1);
      StoreStep(s, Written(s, off, n, v, j - 1), Written(s, off, n, v, j), off, j - 1, BitOf(v, n - j));
    }
  }

  lemma WrittenStored(s: seq<bv8>, off: nat, n: nat, v: nat)
    requires off + n <= 8 * |s|
    ensures Stored(s, Written(s, off, n, v, n), off, n, v)
  {
    WrittenBits(s, off, n, v, n);
    AllDigits(v, n);
    LowIsMod(v, n);
  }

  /** `setUnsignedBitfield`. */
  method SetUnsignedBitfield(p: array<bv8>, offset: nat, bits: nat, value: nat)
    requires offset + bits <= 8 * p.Length
    modifies p
    ensures p[..] == Written(old(p[..]), offset, bits, value, bits)
    ensures Stored(old(p[..]), p[..], offset, bits, value)
  {
    ghost var s := p[..];
    var j, at := 0, offset;
    while j < bits
      invariant 0 <= j <= bits && at == offset + j && p[..] == Written(s, offset, bits, value, j)
    {
      var bitval := BitOf(value, bits - 1 - j);
      var byte := at / 8;
      p[byte] := WithBit(p[byte], at % 8, bitval);
      j, at := j + 1, at + 1;
    }
    WrittenStored(s, offset, bits, value);
  }

  /** `getUnsignedBitfield`. */
  method GetUnsignedBitfield(p: seq<bv8>, offset: nat, bits: nat) returns (value: nat)
    requires offset + bits <= 8 * |p|
    ensures value == Unsigned(p, offset, bits)
  {
    value := 0;
    var j, at := 0, offset;
    while j < bits
      invariant 0 <= j <= bits && at == offset + j && value == Unsigned(p, offset, j)
    {
      value := 2 * value + Digit(InByte(p[at / 8], at % 8));
      j, at := j + 1, at + 1;
    }
  }
}
