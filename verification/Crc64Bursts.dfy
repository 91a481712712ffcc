/** Which changes of a message the sum of `crc64` cannot miss: any that lies within
    64 adjacent bits. */
module Crc64Bursts {
  import opened Words
  import opened Crc64Table
  import opened Crc64

  // -------- The polynomial --------

  /** The Jones polynomial, highest power first. */
  const JONES: bv64 := 0xad93d23594c935a9

  function Push(acc: bv64, x: bv64): bv64 { (acc << 1) | (x & 1) }

  /** The n lowest bits of x, taken off one by one and put below acc. */
  function Mirrored(x: bv64, acc: bv64, n: nat): bv64
    decreases n
  {
    if n == 0 then acc else Mirrored(Half(x), Push(acc, x), n - 1)
  }

  lemma MirrorFour(x: bv64, acc: bv64, n: nat, y: bv64, b: bv64)
    requires y == Half(Half(Half(Half(x))))
    requires b == Push(Push(Push(Push(acc, x), Half(x)), Half(Half(x))), Half(Half(Half(x))))
    ensures Mirrored(x, acc, n + 4) == Mirrored(y, b, n)
  {
    var x1 := Half(x); var x2 := Half(x1); var x3 := Half(x2);
    var a1 := Push(acc, x); var a2 := Push(a1, x1); var a3 := Push(a2, x2);
    assert Mirrored(x, acc, n + 4) == Mirrored(x1, a1, n + 3);
    assert Mirrored(x1, a1, n + 3) == Mirrored(x2, a2, n + 2);
    assert Mirrored(x2, a2, n + 2) == Mirrored(x3, a3, n + 1);
  }

  lemma Quarter1()
    ensures Mirrored(0xad93d23594c935a9, 0x0, 64) == Mirrored(0xad93d23594c9, 0x95ac, 48)
  {
    MirrorFour(0xad93d23594c935a9, 0x0, 60, 0xad93d23594c935a, 0x9);
    MirrorFour(0xad93d23594c935a, 0x9, 56, 0xad93d23594c935, 0x95);
    MirrorFour(0xad93d23594c935, 0x95, 52, 0xad93d23594c93, 0x95a);
    MirrorFour(0xad93d23594c93, 0x95a, 48, 0xad93d23594c9, 0x95ac);
  }

  lemma Quarter2()
    ensures Mirrored(0xad93d23594c9, 0x95ac, 48) == Mirrored(0xad93d235, 0x95ac9329, 32)
  {
    MirrorFour(0xad93d23594c9, 0x95ac, 44, 0xad93d23594c, 0x95ac9);
    MirrorFour(0xad93d23594c, 0x95ac9, 40, 0xad93d23594, 0x95ac93);
    MirrorFour(0xad93d23594, 0x95ac93, 36, 0xad93d2359, 0x95ac932);
    MirrorFour(0xad93d2359, 0x95ac932, 32, 0xad93d235, 0x95ac9329);
  }

  lemma Quarter3()
    ensures Mirrored(0xad93d235, 0x95ac9329, 32) == Mirrored(0xad93, 0x95ac9329ac4b, 16)
  {
    MirrorFour(0xad93d235, 0x95ac9329, 28, 0xad93d23, 0x95ac9329a);
    MirrorFour(0xad93d23, 0x95ac9329a, 24, 0xad93d2, 0x95ac9329ac);
    MirrorFour(0xad93d2, 0x95ac9329ac, 20, 0xad93d, 0x95ac9329ac4);
    MirrorFour(0xad93d, 0x95ac9329ac4, 16, 0xad93, 0x95ac9329ac4b);
  }

  lemma Quarter4()
    ensures Mirrored(0xad93, 0x95ac9329ac4b, 16) == Mirrored(0x0, 0x95ac9329ac4bc9b5, 0)
  {
    MirrorFour(0xad93, 0x95ac9329ac4b, 12, 0xad9, 0x95ac9329ac4bc);
    MirrorFour(0xad9, 0x95ac9329ac4bc, 8, 0xad, 0x95ac9329ac4bc9);
    MirrorFour(0xad, 0x95ac9329ac4bc9, 4, 0xa, 0x95ac9329ac4bc9b);
    MirrorFour(0xa, 0x95ac9329ac4bc9b, 0, 0x0, 0x95ac9329ac4bc9b5);
  }

  /** The constant of the division is the Jones polynomial with its bits reversed. */
  lemma PolyIsJones()
    ensures Mirrored(JONES, 0, 64) == POLY
  {
    Quarter1(); Quarter2(); Quarter3(); Quarter4();
  }

  // -------- Going back --------

  /** The word without its n lowest bits. */
  function Dropped(x: bv64, n: nat): bv64
    decreases n
  {
    if n == 0 then x else Dropped(Half(x), n - 1)
  }

  /** The words agree above their n lowest bits. */
  predicate Near(x: bv64, y: bv64, n: nat) { Dropped(x, n) == Dropped(y, n) }

  lemma DownOfXor(x: bv64, c: bv64, e: bv64)
    requires e == Xor(x, c)
    ensures Half(e) == Xor(Half(x), Half(c))
  {}

  lemma {:induction false} DroppedXor(x: bv64, c: bv64, e: bv64, n: nat)
    requires e == Xor(x, c)
    ensures Dropped(e, n) == Xor(Dropped(x, n), Dropped(c, n))
    decreases n
  {
    if n > 0 {
      DownOfXor(x, c, e);
      DroppedXor(Half(x), Half(c), Half(e), n - 1);
    }
  }

  lemma XorCancels(x: bv64, y: bv64, c: bv64)
    requires Xor(x, c) == Xor(y, c)
    ensures x == y
  {}

  lemma NearXor(x: bv64, y: bv64, c: bv64, n: nat)
    requires Near(Xor(x, c), Xor(y, c), n)
    ensures Near(x, y, n)
  {
    DroppedXor(x, c, Xor(x, c), n);
    DroppedXor(y, c, Xor(y, c), n);
    XorCancels(Dropped(x, n), Dropped(y, n), Dropped(c, n));
  }

  predicate Meets(x: bv64, m: bv64) { x & m != 0 }

  lemma MeetsBelow(x: bv64, m: bv64)
    requires !Odd(m)
    ensures Meets(x, m) == Meets(Half(x), Half(m))
  {}

  lemma {:induction false} MeetsDropped(x: bv64, m: bv64, n: nat)
    requires LowClear(m, n)
    ensures Meets(x, m) == Meets(Dropped(x, n), Dropped(m, n))
    decreases n
  {
    if n > 0 {
      MeetsBelow(x, m);
      MeetsDropped(Half(x), Half(m), n - 1);
    }
  }

  const TOP: bv64 := 0x8000_0000_0000_0000

  lemma NearTops(x: bv64, y: bv64, n: nat)
    requires Near(x, y, n) && n <= 63
    ensures Meets(x, TOP) == Meets(y, TOP)
  {
    FirstClear();
    LessClear(TOP, 63, n);
    MeetsDropped(x, TOP, n);
    MeetsDropped(y, TOP, n);
  }

  /** The top bit of a division tells the bit it dropped. */
  lemma ShiftTop(x: bv64)
    ensures Meets(Shift1(x), TOP) == Odd(x)
  {}

  function Poly(odd: bool): bv64 { if odd then POLY else 0 }

  lemma ShiftIsXor(x: bv64)
    ensures Shift1(x) == Xor(Half(x), Poly(Odd(x)))
  {}

  lemma UnitDrops(x: bv64, a: bool)
    ensures Half(Xor(x, Unit(a))) == Half(x)
  {}

  lemma ShiftBack(x: bv64, y: bv64, n: nat)
    requires Near(Shift1(x), Shift1(y), n) && n <= 63
    ensures Near(Half(x), Half(y), n)
  {
    NearTops(Shift1(x), Shift1(y), n);
    ShiftTop(x);
    ShiftTop(y);
    ShiftIsXor(x);
    ShiftIsXor(y);
    NearXor(Half(x), Half(y), Poly(Odd(x)), n);
  }

  /** Two steps that end near each other began so, a bit farther apart. */
  lemma FeedBack(x: bv64, y: bv64, a: bool, b: bool, n: nat)
    requires Near(Feed(x, a), Feed(y, b), n) && n <= 63
    ensures Near(x, y, n + 1)
  {
    ShiftBack(Xor(x, Unit(a)), Xor(y, Unit(b)), n);
    UnitDrops(x, a);
    UnitDrops(y, b);
  }

  lemma {:induction false} DivideBack(x: bv64, y: bv64, a: seq<bool>, b: seq<bool>, n: nat)
    requires |a| == |b| && n + |a| <= 64 && Near(Divide(x, a), Divide(y, b), n)
    ensures Near(x, y, n + |a|)
  {
    if a != [] {
      var k := |a| - 1;
      FeedBack(Divide(x, a[..k]), Divide(y, b[..k]), a[k], b[k], n);
      DivideBack(x, y, a[..k], b[..k], n + 1);
    }
  }

  lemma UnitOdd(x: bv64, a: bool, b: bool)
    requires Odd(Xor(x, Unit(a))) == Odd(Xor(x, Unit(b)))
    ensures a == b
  {}

  lemma FeedsFar(x: bv64, a: bool, b: bool, n: nat)
    requires a != b && n <= 63
    ensures !Near(Feed(x, a), Feed(x, b), n)
  {
    if Near(Feed(x, a), Feed(x, b), n) {
      NearTops(Feed(x, a), Feed(x, b), n);
      ShiftTop(Xor(x, Unit(a)));
      ShiftTop(Xor(x, Unit(b)));
      UnitOdd(x, a, b);
      assert false;
    }
  }

  lemma {:induction false} DivideConcat(x: bv64, a: seq<bool>, b: seq<bool>)
    ensures Divide(x, a + b) == Divide(Divide(x, a), b)
  {
    if b == [] {
      assert a + b == a;
    } else {
      var n := |b| - 1;
      DivideConcat(x, a, b[..n]);
      assert (a + b)[..|a + b| - 1] == a + b[..n];
    }
  }

  /** Bits that differ at their first place and are at most 64 leave different
      remainders. */
  lemma FirstBitShows(x: bv64, a: bool, b: bool, s: seq<bool>, t: seq<bool>)
    requires a != b && |s| == |t| <= 63
    ensures Divide(x, [a] + s) != Divide(x, [b] + t)
  {
    var p, q := Feed(x, a), Feed(x, b);
    DivideSnoc(x, [], a);
    DivideSnoc(x, [], b);
    assert [] + [a] == [a] && [] + [b] == [b];
    DivideConcat(x, [a], s);
    DivideConcat(x, [b], t);
    FeedsFar(x, a, b, |s|);
    if Divide(p, s) == Divide(q, t) { DivideBack(p, q, s, t, 0); }
  }

  lemma {:induction false} FirstDifference(s: seq<bool>, t: seq<bool>) returns (i: nat)
    requires |s| == |t| && s != t
    ensures i < |s| && s[..i] == t[..i] && s[i] != t[i]
  {
    if s[0] != t[0] {
      i := 0;
    } else {
      var j := FirstDifference(s[1..], t[1..]);
      i := j + 1;
      assert s == [s[0]] + s[1..] && t == [t[0]] + t[1..];
      assert s[..i] == [s[0]] + s[1..][..j] && t[..i] == [t[0]] + t[1..][..j];
    }
  }

  /** Different strings of at most 64 bits leave different remainders, from any
      state. */
  lemma BitsShow(x: bv64, s: seq<bool>, t: seq<bool>)
    requires |s| == |t| <= 64 && s != t
    ensures Divide(x, s) != Divide(x, t)
  {
    var i := FirstDifference(s, t);
    assert s == s[..i] + ([s[i]] + s[i + 1..]) && t == t[..i] + ([t[i]] + t[i + 1..]);
    DivideConcat(x, s[..i], [s[i]] + s[i + 1..]);
    DivideConcat(x, t[..i], [t[i]] + t[i + 1..]);
    FirstBitShows(Divide(x, s[..i]), s[i], t[i], s[i + 1..], t[i + 1..]);
  }

  lemma {:induction false} DivideInjective(x: bv64, y: bv64, s: seq<bool>)
    requires x != y
    ensures Divide(x, s) != Divide(y, s)
  {
    if s != [] {
      var n := |s| - 1;
      DivideInjective(x, y, s[..n]);
      FeedInjective(Divide(x, s[..n]), Divide(y, s[..n]), s[n]);
    }
  }

  lemma FeedInjective(x: bv64, y: bv64, a: bool)
    requires x != y
    ensures Feed(x, a) != Feed(y, a)
  {}

  lemma WindowInBits(x: bv64, p: seq<bool>, u: seq<bool>, v: seq<bool>, q: seq<bool>)
    requires |u| == |v| <= 64 && u != v
    ensures Divide(x, p + u + q) != Divide(x, p + v + q)
  {
    DivideConcat(x, p + u, q);
    DivideConcat(x, p + v, q);
    DivideConcat(x, p, u);
    DivideConcat(x, p, v);
    BitsShow(Divide(x, p), u, v);
    DivideInjective(Divide(x, p + u), Divide(x, p + v), q);
  }

  // -------- Messages --------

  /** Outside the k bits from i on the messages agree. */
  predicate AgreeOutside(s: seq<bool>, t: seq<bool>, i: nat, k: nat) {
    i + k <= |s| == |t| && s[..i] == t[..i] && s[i + k..] == t[i + k..]
  }

  lemma BurstInBits(x: bv64, s: seq<bool>, t: seq<bool>, i: nat, k: nat)
    requires AgreeOutside(s, t, i, k) && k <= 64 && s != t
    ensures Divide(x, s) != Divide(x, t)
  {
    var p, a, b, q := s[..i], s[i..i + k], t[i..i + k], s[i + k..];
    assert s == p + a + q && t == p + b + q;
    WindowInBits(x, p, a, b, q);
  }

  lemma {:induction false} BitsLength(s: seq<bv8>)
    ensures |BitsOf(s)| == 8 * |s|
  {
    if s != [] { BitsLength(s[..|s| - 1]); }
  }

  lemma SameMasked(b: bv8, c: bv8)
    requires (b & 1 != 0) == (c & 1 != 0) && (b & 2 != 0) == (c & 2 != 0) && (b & 4 != 0) == (c & 4 != 0)
    requires (b & 8 != 0) == (c & 8 != 0) && (b & 16 != 0) == (c & 16 != 0) && (b & 32 != 0) == (c & 32 != 0)
    requires (b & 64 != 0) == (c & 64 != 0) && (b & 128 != 0) == (c & 128 != 0)
    ensures b == c
  {}

  lemma EightAlike(s: seq<bool>, t: seq<bool>)
    requires s == t && |s| == 8
    ensures s[0] == t[0] && s[1] == t[1] && s[2] == t[2] && s[3] == t[3]
    ensures s[4] == t[4] && s[5] == t[5] && s[6] == t[6] && s[7] == t[7]
  {}

  lemma ByteBitsDiffer(b: bv8, c: bv8)
    requires b != c
    ensures BitsOfByte(b) != BitsOfByte(c)
  {
    if BitsOfByte(b) == BitsOfByte(c) {
      EightAlike(BitsOfByte(b), BitsOfByte(c));
      SameMasked(b, c);
      assert false;
    }
  }

  lemma {:induction false} BitsDiffer(s: seq<bv8>, t: seq<bv8>)
    requires |s| == |t| && s != t
    ensures BitsOf(s) != BitsOf(t)
  {
    var n := |s| - 1;
    BitsLength(s[..n]);
    BitsLength(t[..n]);
    if s[n] != t[n] {
      ByteBitsDiffer(s[n], t[n]);
      assert BitsOf(s)[8 * n..] == BitsOfByte(s[n]) && BitsOf(t)[8 * n..] == BitsOfByte(t[n]);
    } else {
      assert s == s[..n] + [s[n]] && t == t[..n] + [t[n]];
      BitsDiffer(s[..n], t[..n]);
      assert BitsOf(s)[..8 * n] == BitsOf(s[..n]) && BitsOf(t)[..8 * n] == BitsOf(t[..n]);
    }
  }

  /** A change within 64 adjacent bits of a message always changes its sum, wherever
      the bytes begin. */
  lemma BurstShows(crc: bv64, s: seq<bv8>, t: seq<bv8>, i: nat, k: nat)
    requires |s| == |t| && s != t && k <= 64 && AgreeOutside(BitsOf(s), BitsOf(t), i, k)
    ensures Crc(crc, s) != Crc(crc, t)
  {
    CrcIsDivision(crc, s);
    CrcIsDivision(crc, t);
    BitsDiffer(s, t);
    BurstInBits(crc, BitsOf(s), BitsOf(t), i, k);
  }

  lemma EightBytesShow(crc: bv64, s: seq<bv8>, t: seq<bv8>)
    requires |s| == |t| <= 8 && s != t
    ensures Crc(crc, s) != Crc(crc, t)
  {
    BitsLength(s);
    BitsLength(t);
    BitsDiffer(s, t);
    CrcIsDivision(crc, s);
    CrcIsDivision(crc, t);
    BitsShow(crc, BitsOf(s), BitsOf(t));
  }

  lemma Regroup(a: seq<bool>, b: seq<bool>, c: seq<bool>)
    ensures a + (b + c) == a + b + c
  {}

  lemma {:induction false} BitsConcat(s: seq<bv8>, t: seq<bv8>)
    ensures BitsOf(s + t) == BitsOf(s) + BitsOf(t)
  {
    if t == [] {
      assert s + t == s;
    } else {
      var n := |t| - 1;
      BitsConcat(s, t[..n]);
      assert (s + t)[..|s + t| - 1] == s + t[..n] && (s + t)[|s + t| - 1] == t[n];
      Regroup(BitsOf(s), BitsOf(t[..n]), BitsOfByte(t[n]));
    }
  }

  /** Replacing at most eight adjacent bytes of a message by others always changes
      its sum. */
  lemma WindowShows(crc: bv64, p: seq<bv8>, u: seq<bv8>, v: seq<bv8>, q: seq<bv8>)
    requires |u| == |v| <= 8 && u != v
    ensures Crc(crc, p + u + q) != Crc(crc, p + v + q)
  {
    WindowBits(p, u, q);
    WindowBits(p, v, q);
    BitsLength(u);
    BitsLength(v);
    BitsDiffer(u, v);
    CrcIsDivision(crc, p + u + q);
    CrcIsDivision(crc, p + v + q);
    WindowInBits(crc, BitsOf(p), BitsOf(u), BitsOf(v), BitsOf(q));
  }

  lemma WindowBits(p: seq<bv8>, u: seq<bv8>, q: seq<bv8>)
    ensures BitsOf(p + u + q) == BitsOf(p) + BitsOf(u) + BitsOf(q)
  {
    BitsConcat(p + u, q);
    BitsConcat(p, u);
  }
}
