/** `crc64` as division of the message bits, and the footer of DUMP payloads. */
module Crc64 {
  import opened Words
  import opened Crc64Table

  function Low(x: bv64): bv8 { (x & 0xFF) as bv8 }

  function Wide(b: bv8): bv64 { b as bv64 }

  function Down8(x: bv64): bv64 { x >> 8 }

  function Xor(x: bv64, y: bv64): bv64 { x ^ y }

  lemma LowBit(a: bv64, y: bv64)
    requires y & 1 == 0
    ensures (a ^ y) & 1 == a & 1
  {}

  lemma DownXor(a: bv64, y: bv64)
    ensures (a ^ y) >> 1 == (a >> 1) ^ (y >> 1)
  {}

  lemma XorSwap(p: bv64, q: bv64, r: bv64)
    ensures (p ^ q) ^ r == (p ^ r) ^ q
  {}

  /** Division is linear in the bits above the one it tests. */
  lemma ShiftXor(a: bv64, y: bv64)
    requires y & 1 == 0
    ensures Shift1(Xor(a, y)) == Xor(Shift1(a), Half(y))
  {
    LowBit(a, y);
    DownXor(a, y);
    XorSwap(a >> 1, y >> 1, POLY);
  }

  lemma ShiftHigh(x: bv64, y: bv64)
    requires y & 0xFF == 0
    ensures Shift8(Xor(x, y)) == Xor(Shift8(x), Down8(y))
  {
    var a := Half(y); var b := Half(a); var c := Half(b); var d := Half(c);
    var e := Half(d); var f := Half(e); var g := Half(f); var h := Half(g);
    HalvingsEven(y, a, b, c, d, e, f, g, h);
    var p := Shift1(x); var q := Shift1(p); var r := Shift1(q); var s := Shift1(r);
    var t := Shift1(s); var u := Shift1(t); var v := Shift1(u);
    ShiftXor(x, y); ShiftXor(p, a); ShiftXor(q, b); ShiftXor(r, c);
    ShiftXor(s, d); ShiftXor(t, e); ShiftXor(u, f); ShiftXor(v, g);
  }

  // -------- The table step is eight divisions --------

  /** The loop body of `crc64`. */
  function TableStep(crc: bv64, b: bv8): bv64 { Xor(Table(Low(crc) ^ b), Down8(crc)) }

  /** The byte added to the low end and shifted through. */
  function ByteStep(crc: bv64, b: bv8): bv64 { Shift8(Xor(crc, Wide(b))) }

  lemma Parts(crc: bv64, b: bv8, i: bv8, y: bv64)
    requires i == Low(crc) ^ b && y == crc & !0xFF
    ensures Xor(crc, Wide(b)) == Xor(Wide(i), y) && Down8(y) == Down8(crc) && y & 0xFF == 0
  {}

  lemma TableStepIsByteStep(crc: bv64, b: bv8)
    ensures TableStep(crc, b) == ByteStep(crc, b)
  {
    var i, y := Low(crc) ^ b, crc & !0xFF;
    Parts(crc, b, i, y);
    TableIsShift(i);
    ShiftHigh(Wide(i), y);
  }

  function Unit(one: bool): bv64 { if one then 1 else 0 }

  /** One message bit added to the low end and divided. */
  function Feed(crc: bv64, one: bool): bv64 { Shift1(Xor(crc, Unit(one))) }

  lemma LowPart(w: bv64, y: bv64)
    requires y == w & !1
    ensures w == Xor(Unit(Odd(w)), y) && y & 1 == 0 && Half(y) == Half(w)
  {}

  lemma XorAssoc(x: bv64, l: bv64, y: bv64)
    ensures Xor(x, Xor(l, y)) == Xor(Xor(x, l), y)
  {}

  lemma FeedFrom(x: bv64, w: bv64, l: bv64, y: bv64)
    requires w == Xor(l, y) && y & 1 == 0 && Half(y) == Half(w)
    ensures Shift1(Xor(x, w)) == Xor(Shift1(Xor(x, l)), Half(w))
  {
    XorAssoc(x, l, y);
    ShiftXor(Xor(x, l), y);
  }

  lemma FeedOne(x: bv64, w: bv64)
    ensures Shift1(Xor(x, w)) == Xor(Feed(x, Odd(w)), Half(w))
  {
    LowPart(w, w & !1);
    FeedFrom(x, w, Unit(Odd(w)), w & !1);
  }

  lemma ByteHalvings(b: bv8, y: bv64, a: bv64, c: bv64, d: bv64, e: bv64, f: bv64, g: bv64, h: bv64, z: bv64)
    requires y == Wide(b) && Halvings(y, a, c, d, e, f, g, h, z)
    ensures z == 0
    ensures Odd(y) == (b & 1 != 0) && Odd(a) == (b & 2 != 0) && Odd(c) == (b & 4 != 0) && Odd(d) == (b & 8 != 0)
    ensures Odd(e) == (b & 16 != 0) && Odd(f) == (b & 32 != 0) && Odd(g) == (b & 64 != 0) && Odd(h) == (b & 128 != 0)
  {}

  /** Eight bits fed one after another. */
  function Feed8(crc: bv64, a: bool, b: bool, c: bool, d: bool, e: bool, f: bool, g: bool, h: bool): bv64 {
    Feed(Feed(Feed(Feed(Feed(Feed(Feed(Feed(crc, a), b), c), d), e), f), g), h)
  }

  lemma XorZero(x: bv64, z: bv64)
    requires z == 0
    ensures Xor(x, z) == x
  {}

  lemma ByteStepIsFeed(crc: bv64, b: bv8)
    ensures ByteStep(crc, b)
         == Feed8(crc, b & 1 != 0, b & 2 != 0, b & 4 != 0, b & 8 != 0, b & 16 != 0, b & 32 != 0, b & 64 != 0,
                  b & 128 != 0)
  {
    var y := Wide(b);
    var a := Half(y); var c := Half(a); var d := Half(c); var e := Half(d);
    var f := Half(e); var g := Half(f); var h := Half(g); var z := Half(h);
    ByteHalvings(b, y, a, c, d, e, f, g, h, z);
    FeedChain(crc, y, a, c, d, e, f, g, h, z);
    XorZero(Feed8(crc, Odd(y), Odd(a), Odd(c), Odd(d), Odd(e), Odd(f), Odd(g), Odd(h)), z);
  }

  lemma FeedChain(crc: bv64, y: bv64, a: bv64, c: bv64, d: bv64, e: bv64, f: bv64, g: bv64, h: bv64, z: bv64)
    requires Halvings(y, a, c, d, e, f, g, h, z)
    ensures Shift8(Xor(crc, y))
         == Xor(Feed8(crc, Odd(y), Odd(a), Odd(c), Odd(d), Odd(e), Odd(f), Odd(g), Odd(h)), z)
  {
    var p := Feed(crc, Odd(y)); var q := Feed(p, Odd(a)); var r := Feed(q, Odd(c)); var s := Feed(r, Odd(d));
    var t := Feed(s, Odd(e)); var u := Feed(t, Odd(f)); var v := Feed(u, Odd(g));
    FeedOne(crc, y); FeedOne(p, a); FeedOne(q, c); FeedOne(r, d);
    FeedOne(s, e); FeedOne(t, f); FeedOne(u, g); FeedOne(v, h);
  }

  // -------- Whole messages --------

  /** The remainder after dividing message bits one at a time. */
  function Divide(crc: bv64, bits: seq<bool>): bv64 {
    if bits == [] then crc else Feed(Divide(crc, bits[..|bits| - 1]), bits[|bits| - 1])
  }

  /** The bits of a byte, least significant first. */
  function BitsOfByte(b: bv8): seq<bool> {
    [b & 1 != 0, b & 2 != 0, b & 4 != 0, b & 8 != 0, b & 16 != 0, b & 32 != 0, b & 64 != 0, b & 128 != 0]
  }

  function BitsOf(s: seq<bv8>): seq<bool> {
    if s == [] then [] else BitsOf(s[..|s| - 1]) + BitsOfByte(s[|s| - 1])
  }

  function Crc(crc: bv64, s: seq<bv8>): bv64 {
    if s == [] then crc else TableStep(Crc(crc, s[..|s| - 1]), s[|s| - 1])
  }

  lemma DivideSnoc(crc: bv64, bits: seq<bool>, one: bool)
    ensures Divide(crc, bits + [one]) == Feed(Divide(crc, bits), one)
  {
    assert (bits + [one])[..|bits|] == bits;
  }

  lemma DivideTwo(crc: bv64, bits: seq<bool>, a: bool, b: bool)
    ensures Divide(crc, bits + [a, b]) == Feed(Feed(Divide(crc, bits), a), b)
  {
    DivideSnoc(crc, bits, a);
    DivideSnoc(crc, bits + [a], b);
    assert bits + [a, b] == bits + [a] + [b];
  }

  lemma DivideEight(crc: bv64, bits: seq<bool>, a: bool, b: bool, c: bool, d: bool, e: bool, f: bool, g: bool, h: bool)
    ensures Divide(crc, bits + [a, b, c, d, e, f, g, h]) == Feed8(Divide(crc, bits), a, b, c, d, e, f, g, h)
  {
    DivideTwo(crc, bits, a, b);
    DivideTwo(crc, bits + [a, b], c, d);
    DivideTwo(crc, bits + [a, b] + [c, d], e, f);
    DivideTwo(crc, bits + [a, b] + [c, d] + [e, f], g, h);
    FourPairs(bits, a, b, c, d, e, f, g, h);
  }

  lemma FourPairs(bits: seq<bool>, a: bool, b: bool, c: bool, d: bool, e: bool, f: bool, g: bool, h: bool)
    ensures bits + [a, b, c, d, e, f, g, h] == bits + [a, b] + [c, d] + [e, f] + [g, h]
  {}

  /** The table-driven sum is the division of the message's bits. */
  lemma {:induction false} CrcIsDivision(crc: bv64, s: seq<bv8>)
    ensures Crc(crc, s) == Divide(crc, BitsOf(s))
  {
    if s != [] {
      var t, b := s[..|s| - 1], s[|s| - 1];
      CrcIsDivision(crc, t);
      TableStepIsByteStep(Crc(crc, t), b);
      ByteStepIsFeed(Crc(crc, t), b);
      DivideEight(crc, BitsOf(t), b & 1 != 0, b & 2 != 0, b & 4 != 0, b & 8 != 0, b & 16 != 0, b & 32 != 0,
                  b & 64 != 0, b & 128 != 0);
    }
  }

  lemma {:induction false} CrcConcat(crc: bv64, s: seq<bv8>, t: seq<bv8>)
    ensures Crc(crc, s + t) == Crc(Crc(crc, s), t)
  {
    if t == [] {
      assert s + t == s;
    } else {
      CrcConcat(crc, s, t[..|t| - 1]);
      assert (s + t)[..|s + t| - 1] == s + t[..|t| - 1];
    }
  }

  lemma CrcNext(crc: bv64, s: seq<bv8>, j: nat)
    requires j < |s|
    ensures Crc(crc, s[..j + 1]) == TableStep(Crc(crc, s[..j]), s[j])
  {
    assert s[..j + 1][..j] == s[..j];
  }

  /** `crc64`. */
  method RunCrc64(crc: bv64, s: seq<bv8>) returns (r: bv64)
    ensures r == Crc(crc, s) && r == Divide(crc, BitsOf(s))
  {
    r := crc;
    var j := 0;
    while j < |s|
      invariant 0 <= j <= |s| && r == Crc(crc, s[..j])
    {
      CrcNext(crc, s, j);
      r := TableStep(r, s[j]);
      j := j + 1;
    }
    assert s[..j] == s;
    CrcIsDivision(crc, s);
  }

  // -------- Different bytes, different sums --------

  /** The top bit of the polynomial tells which way a division went. */
  lemma ShiftInjective(x: bv64, y: bv64)
    requires Shift1(x) == Shift1(y)
    ensures x == y
  {}

  lemma Shift8Injective(x: bv64, y: bv64)
    requires Shift8(x) == Shift8(y)
    ensures x == y
  {
    var a := Shift1(x); var b := Shift1(a); var c := Shift1(b); var d := Shift1(c);
    var e := Shift1(d); var f := Shift1(e); var g := Shift1(f);
    var p := Shift1(y); var q := Shift1(p); var r := Shift1(q); var s := Shift1(r);
    var t := Shift1(s); var u := Shift1(t); var v := Shift1(u);
    ShiftInjective(g, v); ShiftInjective(f, u); ShiftInjective(e, t); ShiftInjective(d, s);
    ShiftInjective(c, r); ShiftInjective(b, q); ShiftInjective(a, p); ShiftInjective(x, y);
  }

  lemma XorInjective(x: bv64, y: bv64, b: bv8, c: bv8)
    ensures Xor(x, Wide(b)) == Xor(y, Wide(b)) ==> x == y
    ensures Xor(x, Wide(b)) == Xor(x, Wide(c)) ==> b == c
  {}

  lemma StepInjective(x: bv64, y: bv64, b: bv8, c: bv8)
    ensures TableStep(x, b) == TableStep(y, b) ==> x == y
    ensures TableStep(x, b) == TableStep(x, c) ==> b == c
  {
    TableStepIsByteStep(x, b); TableStepIsByteStep(y, b); TableStepIsByteStep(x, c);
    if ByteStep(x, b) == ByteStep(y, b) { Shift8Injective(Xor(x, Wide(b)), Xor(y, Wide(b))); }
    if ByteStep(x, b) == ByteStep(x, c) { Shift8Injective(Xor(x, Wide(b)), Xor(x, Wide(c))); }
    XorInjective(x, y, b, c);
  }

  lemma {:induction false} CrcInjective(x: bv64, y: bv64, s: seq<bv8>)
    requires x != y
    ensures Crc(x, s) != Crc(y, s)
  {
    if s != [] {
      CrcInjective(x, y, s[..|s| - 1]);
      StepInjective(Crc(x, s[..|s| - 1]), Crc(y, s[..|s| - 1]), s[|s| - 1], s[|s| - 1]);
    }
  }

  /** Changing one byte of a message always changes its sum. */
  lemma ByteChangeShows(crc: bv64, s: seq<bv8>, i: nat, b: bv8)
    requires i < |s| && b != s[i]
    ensures Crc(crc, s[i := b]) != Crc(crc, s)
  {
    var p, t := s[..i], s[i + 1..];
    assert s == p + [s[i]] + t && s[i := b] == p + [b] + t;
    CrcConcat(crc, p + [s[i]], t);
    CrcConcat(crc, p + [b], t);
    assert (p + [s[i]])[..|p|] == p && (p + [b])[..|p|] == p;
    StepInjective(Crc(crc, p), Crc(crc, p), s[i], b);
    CrcInjective(Crc(crc, p + [s[i]]), Crc(crc, p + [b]), t);
  }
}
