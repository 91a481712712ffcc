/** `redisBitpos`: the first bit of a kind found by bytes, then words, then a
    sliding mask, against the definition over single bits. */
module Bitpos {
  import opened Words

  // -------- Bits of a string --------

  /** Bit j of a byte, the most significant first. */
  function Mask8(j: nat): bv8
    requires j < 8
  {
    if j == 0 then 128 else if j == 1 then 64 else if j == 2 then 32 else if j == 3 then 16
    else if j == 4 then 8 else if j == 5 then 4 else if j == 6 then 2 else 1
  }

  predicate InByte(b: bv8, j: nat)
    requires j < 8
  {
    b & Mask8(j) != 0
  }

  predicate BitAt(s: seq<bv8>, pos: nat)
    requires pos < 8 * |s|
  {
    InByte(s[pos / 8], pos % 8)
  }

  /** No bit of the kind before pos. */
  ghost predicate NoneBefore(s: seq<bv8>, bit: bool, pos: nat) {
    pos <= 8 * |s| && forall q :: 0 <= q < pos ==> BitAt(s, q) != bit
  }

  /** A byte of the opposite kind only. */
  function Skip8(bit: bool): bv8 { if bit then 0 else 255 }

  lemma SkipByte(b: bv8, bit: bool)
    ensures b == Skip8(bit) <==> forall j :: 0 <= j < 8 ==> InByte(b, j) != bit
  {
    if b != Skip8(bit) {
      assert InByte(b, 0) == bit || InByte(b, 1) == bit || InByte(b, 2) == bit || InByte(b, 3) == bit
          || InByte(b, 4) == bit || InByte(b, 5) == bit || InByte(b, 6) == bit || InByte(b, 7) == bit;
    }
  }

  lemma SkippedByte(s: seq<bv8>, bit: bool, c: nat)
    requires c < |s| && s[c] == Skip8(bit) && NoneBefore(s, bit, 8 * c)
    ensures NoneBefore(s, bit, 8 * c + 8)
  {
    SkipByte(s[c], bit);
    forall q | 8 * c <= q < 8 * c + 8 ensures BitAt(s, q) != bit { assert q / 8 == c; }
  }

  // -------- Words --------

  function Ext(b: bv8): bv64 { b as bv64 }

  /** Eight bytes as loaded in place, least significant first. */
  function Load(a: bv8, b: bv8, c: bv8, d: bv8, e: bv8, f: bv8, g: bv8, h: bv8): bv64 {
    Ext(a) | (Ext(b) << 8) | (Ext(c) << 16) | (Ext(d) << 24)
    | (Ext(e) << 32) | (Ext(f) << 40) | (Ext(g) << 48) | (Ext(h) << 56)
  }

  function Skip64(bit: bool): bv64 { if bit then 0 else 0xFFFF_FFFF_FFFF_FFFF }

  lemma LoadSkips(a: bv8, b: bv8, c: bv8, d: bv8, e: bv8, f: bv8, g: bv8, h: bv8, bit: bool)
    ensures var k := Skip8(bit);
            Load(a, b, c, d, e, f, g, h) == Skip64(bit) <==>
            a == k && b == k && c == k && d == k && e == k && f == k && g == k && h == k
  {}

  function LoadAt(s: seq<bv8>, c: nat): bv64
    requires c + 8 <= |s|
  {
    Load(s[c], s[c + 1], s[c + 2], s[c + 3], s[c + 4], s[c + 5], s[c + 6], s[c + 7])
  }

  lemma SkippedWord(s: seq<bv8>, bit: bool, c: nat)
    requires c + 8 <= |s| && LoadAt(s, c) == Skip64(bit) && NoneBefore(s, bit, 8 * c)
    ensures NoneBefore(s, bit, 8 * (c + 8))
  {
    LoadSkips(s[c], s[c + 1], s[c + 2], s[c + 3], s[c + 4], s[c + 5], s[c + 6], s[c + 7], bit);
    SkippedByte(s, bit, c); SkippedByte(s, bit, c + 1); SkippedByte(s, bit, c + 2); SkippedByte(s, bit, c + 3);
    SkippedByte(s, bit, c + 4); SkippedByte(s, bit, c + 5); SkippedByte(s, bit, c + 6); SkippedByte(s, bit, c + 7);
  }

  // -------- The last word --------

  function Push(w: bv64, b: bv8): bv64 { (w << 8) | Ext(b) }

  /** The bytes from c on, shifted in from the right, zeros after the end. */
  function Shifted(s: seq<bv8>, c: nat, j: nat): bv64 {
    if j == 0 then 0 else Push(Shifted(s, c, j - 1), Padded(s, c + j - 1))
  }

  function Padded(s: seq<bv8>, i: nat): bv8 { if i < |s| then s[i] else 0 }

  /** Eight bytes, most significant first. */
  function Big(a: bv8, b: bv8, c: bv8, d: bv8, e: bv8, f: bv8, g: bv8, h: bv8): bv64 { Load(h, g, f, e, d, c, b, a) }

  function BigAt(s: seq<bv8>, c: nat): bv64 {
    Big(Padded(s, c), Padded(s, c + 1), Padded(s, c + 2), Padded(s, c + 3),
        Padded(s, c + 4), Padded(s, c + 5), Padded(s, c + 6), Padded(s, c + 7))
  }

  lemma Pushing(a: bv8, b: bv8, c: bv8, d: bv8, e: bv8, f: bv8, g: bv8, h: bv8)
    ensures Push(Push(Push(Push(Push(Push(Push(Push(0, a), b), c), d), e), f), g), h) == Big(a, b, c, d, e, f, g, h)
  {}

  lemma ShiftedStep(s: seq<bv8>, c: nat, j: nat)
    ensures Shifted(s, c, j + 1) == Push(Shifted(s, c, j), Padded(s, c + j))
  {}

  lemma ShiftedIsBig(s: seq<bv8>, c: nat)
    ensures Shifted(s, c, 8) == BigAt(s, c)
  {
    Pushing(Padded(s, c), Padded(s, c + 1), Padded(s, c + 2), Padded(s, c + 3),
            Padded(s, c + 4), Padded(s, c + 5), Padded(s, c + 6), Padded(s, c + 7));
    ShiftedStep(s, c, 0); ShiftedStep(s, c, 1); ShiftedStep(s, c, 2); ShiftedStep(s, c, 3);
    ShiftedStep(s, c, 4); ShiftedStep(s, c, 5); ShiftedStep(s, c, 6); ShiftedStep(s, c, 7);
  }

  predicate Test(one: bv64, word: bv64) { one & word != 0 }

  function Twice(w: bv64): bv64 { w << 1 }

  function By8(w: bv64): bv64 { w << 8 }

  /** The first byte of a word. */
  function Lead(w: bv64): bv64 { w >> 56 }

  /** The sliding mask after k shifts. */
  function Mask64(k: nat): bv64 { if k == 0 then 0x8000_0000_0000_0000 else Half(Mask64(k - 1)) }

  /** The word shifted left k times. */
  function Shl(w: bv64, k: nat): bv64
    decreases k
  {
    if k == 0 then w else Shl(Twice(w), k - 1)
  }

  predicate Top(w: bv64) { w & 0x8000_0000_0000_0000 != 0 }

  lemma SlideOne(m: bv64, w: bv64)
    requires !Odd(m)
    ensures Test(Half(m), w) <==> Test(m, Twice(w))
  {}

  lemma HalfNonZero(m: bv64)
    requires !Odd(m) && m != 0
    ensures Half(m) != 0
  {}

  lemma {:induction false} MaskClear(k: nat)
    requires k < 64
    ensures LowClear(Mask64(k), 63 - k) && Mask64(k) != 0
  {
    if k == 0 {
      FirstClear();
    } else {
      MaskClear(k - 1);
      HalfNonZero(Mask64(k - 1));
    }
  }

  /** Testing under the sliding mask is testing the top bit of the word slid the
      other way. */
  lemma {:induction false} SlideMask(k: nat, w: bv64)
    requires k < 64
    ensures Test(Mask64(k), w) <==> Top(Shl(w, k))
    decreases k
  {
    if k == 0 {
      TopMask(w);
    } else {
      MaskClear(k - 1);
      SlideOne(Mask64(k - 1), w);
      SlideMask(k - 1, Twice(w));
    }
  }

  lemma TopMask(w: bv64)
    ensures Test(0x8000_0000_0000_0000, w) <==> Top(w)
  {}

  lemma {:induction false} ShlAdd(w: bv64, i: nat, j: nat)
    ensures Shl(w, i + j) == Shl(Shl(w, i), j)
    decreases i
  {
    if i > 0 { ShlAdd(Twice(w), i - 1, j); }
  }

  lemma EightShifts(w: bv64)
    ensures Twice(Twice(Twice(Twice(Twice(Twice(Twice(Twice(w)))))))) == By8(w)
  {}

  lemma ShlByte(w: bv64)
    ensures Shl(w, 8) == By8(w)
  {
    EightShifts(w);
    var x := Twice(Twice(Twice(Twice(w))));
    assert Shl(w, 8) == Shl(x, 4);
    assert Shl(x, 4) == Twice(Twice(Twice(Twice(x))));
  }

  /** Seven doublings. */
  predicate Doublings(w: bv64, a: bv64, b: bv64, c: bv64, d: bv64, e: bv64, f: bv64, g: bv64) {
    a == Twice(w) && b == Twice(a) && c == Twice(b) && d == Twice(c) && e == Twice(d) && f == Twice(e) && g == Twice(f)
  }

  lemma TopBits(w: bv64, y: bv8, a: bv64, b: bv64, c: bv64, d: bv64, e: bv64, f: bv64, g: bv64)
    requires Doublings(w, a, b, c, d, e, f, g) && Lead(w) == Ext(y)
    ensures (Top(w) <==> InByte(y, 0)) && (Top(a) <==> InByte(y, 1)) && (Top(b) <==> InByte(y, 2))
    ensures (Top(c) <==> InByte(y, 3))
    ensures (Top(d) <==> InByte(y, 4)) && (Top(e) <==> InByte(y, 5)) && (Top(f) <==> InByte(y, 6))
    ensures (Top(g) <==> InByte(y, 7))
  {}

  lemma ShlOne(w: bv64, v: bv64, k: nat)
    requires v == Twice(w)
    ensures Shl(w, k + 1) == Shl(v, k)
  {}

  lemma Shls(w: bv64, a: bv64, b: bv64, c: bv64, d: bv64, e: bv64, f: bv64, g: bv64)
    requires Doublings(w, a, b, c, d, e, f, g)
    ensures Shl(w, 0) == w && Shl(w, 1) == a && Shl(w, 2) == b && Shl(w, 3) == c
    ensures Shl(w, 4) == d && Shl(w, 5) == e && Shl(w, 6) == f && Shl(w, 7) == g
  {
    ShlOne(f, g, 0); ShlOne(e, f, 0); ShlOne(e, f, 1);
    ShlOne(d, e, 0); ShlOne(d, e, 1); ShlOne(d, e, 2);
    ShlOne(c, d, 0); ShlOne(c, d, 1); ShlOne(c, d, 2); ShlOne(c, d, 3);
    ShlOne(b, c, 0); ShlOne(b, c, 1); ShlOne(b, c, 2); ShlOne(b, c, 3); ShlOne(b, c, 4);
    ShlOne(a, b, 0); ShlOne(a, b, 1); ShlOne(a, b, 2); ShlOne(a, b, 3); ShlOne(a, b, 4); ShlOne(a, b, 5);
  }

  lemma TopBitFirst(w: bv64, y: bv8, j: nat)
    requires j < 8 && Lead(w) == Ext(y)
    ensures Top(Shl(w, j)) <==> InByte(y, j)
  {
    var a := Twice(w); var b := Twice(a); var c := Twice(b); var d := Twice(c);
    var e := Twice(d); var f := Twice(e); var g := Twice(f);
    TopBits(w, y, a, b, c, d, e, f, g);
    Shls(w, a, b, c, d, e, f, g);
  }

  /** Byte i of eight. */
  function Nth(a: bv8, b: bv8, c: bv8, d: bv8, e: bv8, f: bv8, g: bv8, h: bv8, i: nat): bv8 {
    if i == 0 then a else if i == 1 then b else if i == 2 then c else if i == 3 then d
    else if i == 4 then e else if i == 5 then f else if i == 6 then g else if i == 7 then h else 0
  }

  lemma NextByte(w: bv64, v: bv64, i: nat, j: nat)
    requires v == By8(w) && i > 0
    ensures Shl(w, 8 * i + j) == Shl(v, 8 * (i - 1) + j)
  {
    ShlAdd(w, 8, 8 * (i - 1) + j);
    ShlByte(w);
  }

  function ByteShl(w: bv64, i: nat): bv64
    decreases i
  {
    if i == 0 then w else ByteShl(By8(w), i - 1)
  }

  lemma {:induction false} ShlBytes(w: bv64, i: nat, j: nat)
    ensures Shl(w, 8 * i + j) == Shl(ByteShl(w, i), j)
    decreases i
  {
    if i > 0 {
      NextByte(w, By8(w), i, j);
      ShlBytes(By8(w), i - 1, j);
    }
  }

  lemma NthNext(a: bv8, b: bv8, c: bv8, d: bv8, e: bv8, f: bv8, g: bv8, h: bv8, i: nat)
    requires i > 0
    ensures Nth(b, c, d, e, f, g, h, 0, i - 1) == Nth(a, b, c, d, e, f, g, h, i)
  {}

  lemma ShiftByteTo(w: bv64, v: bv64, a: bv8, b: bv8, c: bv8, d: bv8, e: bv8, f: bv8, g: bv8, h: bv8)
    requires w == Big(a, b, c, d, e, f, g, h) && v == Big(b, c, d, e, f, g, h, 0)
    ensures By8(w) == v
  {}

  lemma TopByteOf(w: bv64, a: bv8, b: bv8, c: bv8, d: bv8, e: bv8, f: bv8, g: bv8, h: bv8)
    requires w == Big(a, b, c, d, e, f, g, h)
    ensures Lead(w) == Ext(a)
  {}

  lemma {:induction false} ByteOfWord(a: bv8, b: bv8, c: bv8, d: bv8, e: bv8, f: bv8, g: bv8, h: bv8, w: bv64, i: nat,
                                      y: bv8)
    requires w == Big(a, b, c, d, e, f, g, h) && y == Nth(a, b, c, d, e, f, g, h, i)
    ensures Lead(ByteShl(w, i)) == Ext(y)
    decreases i
  {
    if i == 0 {
      TopByteOf(w, a, b, c, d, e, f, g, h);
    } else {
      NthNext(a, b, c, d, e, f, g, h, i);
      var v := Big(b, c, d, e, f, g, h, 0);
      ShiftByteTo(w, v, a, b, c, d, e, f, g, h);
      ByteOfWord(b, c, d, e, f, g, h, 0, v, i - 1, y);
    }
  }

  /** Bit j of byte i, under the sliding mask. */
  lemma MaskedBit(w: bv64, x: bv64, i: nat, j: nat, y: bv8)
    requires 8 * i + j < 64 && j < 8 && x == ByteShl(w, i) && Lead(x) == Ext(y)
    ensures Test(Mask64(8 * i + j), w) <==> InByte(y, j)
  {
    MaskedTop(w, x, i, j);
    TopBitFirst(x, y, j);
  }

  lemma MaskedTop(w: bv64, x: bv64, i: nat, j: nat)
    requires 8 * i + j < 64 && x == ByteShl(w, i)
    ensures Test(Mask64(8 * i + j), w) <==> Top(Shl(x, j))
  {
    SlideMask(8 * i + j, w);
    ShlBytes(w, i, j);
  }

  /** Bit k of the eight bytes from c on, zeros after the end. */
  predicate Hit(s: seq<bv8>, c: nat, k: nat) { InByte(Padded(s, c + k / 8), k % 8) }

  lemma MaskHits(w: bv64, k: nat, y: bv8)
    requires k < 64 && Lead(ByteShl(w, k / 8)) == Ext(y)
    ensures Test(Mask64(k), w) <==> InByte(y, k % 8)
  {
    MaskedBit(w, ByteShl(w, k / 8), k / 8, k % 8, y);
  }

  lemma MaskIsHit(s: seq<bv8>, c: nat, k: nat, w: bv64, y: bv8)
    requires k < 64 && w == BigAt(s, c) && y == Padded(s, c + k / 8)
    ensures Test(Mask64(k), w) <==> Hit(s, c, k)
  {
    HitWord(s, c, k / 8, w, y);
    MaskHits(w, k, y);
  }

  lemma HitWord(s: seq<bv8>, c: nat, i: nat, w: bv64, y: bv8)
    requires i < 8 && w == BigAt(s, c) && y == Padded(s, c + i)
    ensures Lead(ByteShl(w, i)) == Ext(y)
  {
    ByteOfWord(Padded(s, c), Padded(s, c + 1), Padded(s, c + 2), Padded(s, c + 3),
               Padded(s, c + 4), Padded(s, c + 5), Padded(s, c + 6), Padded(s, c + 7), w, i, y);
  }

  /** The word has a bit of the kind unless it is all of the other. */
  lemma SomeHit(s: seq<bv8>, c: nat, bit: bool) returns (k: nat)
    requires BigAt(s, c) != Skip64(bit)
    ensures k < 64 && Hit(s, c, k) == bit
  {
    LoadSkips(Padded(s, c + 7), Padded(s, c + 6), Padded(s, c + 5), Padded(s, c + 4),
              Padded(s, c + 3), Padded(s, c + 2), Padded(s, c + 1), Padded(s, c), bit);
    var i :| 0 <= i < 8 && Padded(s, c + i) != Skip8(bit);
    SkipByte(Padded(s, c + i), bit);
    var j :| 0 <= j < 8 && InByte(Padded(s, c + i), j) == bit;
    k := 8 * i + j;
    assert k / 8 == i && k % 8 == j;
  }

  // -------- The function --------

  /** The position of the first bit of the kind; without one, -1 for ones and the
      length for zeros, as if zeros followed the string. */
  ghost predicate First(s: seq<bv8>, bit: bool, pos: int) {
    if exists q :: 0 <= q < 8 * |s| && BitAt(s, q) == bit
    then 0 <= pos < 8 * |s| && BitAt(s, pos) == bit && NoneBefore(s, bit, pos)
    else pos == if bit then -1 else 8 * |s|
  }

  lemma HitIsBit(s: seq<bv8>, c: nat, k: nat)
    requires c <= |s|
    ensures 8 * c + k < 8 * |s| ==> Hit(s, c, k) == BitAt(s, 8 * c + k)
    ensures 8 * c + k >= 8 * |s| ==> !Hit(s, c, k)
  {
    assert (8 * c + k) / 8 == c + k / 8 && (8 * c + k) % 8 == k % 8;
    SkipByte(0, true);
  }

  /** Skips whole bytes up to a word boundary, then whole words. */
  method SkipWords(s: seq<bv8>, address: nat, bit: bool) returns (c: nat)
    ensures c <= |s| && NoneBefore(s, bit, 8 * c)
    ensures c + 8 <= |s| ==> BigAt(s, c) != Skip64(bit)
  {
    c := 0;
    var found := false;
    while (address + c) % 8 != 0 && c < |s| && !found
      invariant c <= |s| && NoneBefore(s, bit, 8 * c)
      invariant found ==> c < |s| && s[c] != Skip8(bit)
      decreases |s| - c, !found
    {
      if s[c] != Skip8(bit) {
        found := true;
      } else {
        SkippedByte(s, bit, c);
        c := c + 1;
      }
    }
    if !found {
      while c + 8 <= |s| && LoadAt(s, c) == Skip64(bit)
        invariant c <= |s| && NoneBefore(s, bit, 8 * c)
      {
        SkippedWord(s, bit, c);
        c := c + 8;
      }
    }
    if c + 8 <= |s| { Unskipped(s, bit, c, found); }
  }

  lemma Unskipped(s: seq<bv8>, bit: bool, c: nat, found: bool)
    requires c + 8 <= |s| && (if found then s[c] != Skip8(bit) else LoadAt(s, c) != Skip64(bit))
    ensures BigAt(s, c) != Skip64(bit)
  {
    LoadSkips(s[c], s[c + 1], s[c + 2], s[c + 3], s[c + 4], s[c + 5], s[c + 6], s[c + 7], bit);
    LoadSkips(s[c + 7], s[c + 6], s[c + 5], s[c + 4], s[c + 3], s[c + 2], s[c + 1], s[c], bit);
  }

  lemma PushByte(w: bv64, v: bv64, y: bv8)
    requires v == (w << 8) | Ext(y)
    ensures v == Push(w, y)
  {}

  lemma PushNothing(w: bv64, v: bv64)
    requires v == w << 8
    ensures v == Push(w, 0)
  {}

  /** Loads up to eight bytes, the first as the most significant. */
  method LoadWord(s: seq<bv8>, start: nat) returns (word: bv64)
    ensures word == BigAt(s, start)
  {
    word := 0;
    var c, j := start, 0;
    while j < 8
      invariant 0 <= j <= 8 && word == Shifted(s, start, j)
      invariant c == start + j || (c >= |s| && start + j >= |s|)
    {
      ghost var before := word;
      word := word << 8;
      if c < |s| {
        word := word | Ext(s[c]);
        PushByte(before, word, s[c]);
        c := c + 1;
      } else {
        PushNothing(before, word);
      }
      ShiftedStep(s, start, j);
      j := j + 1;
    }
    ShiftedIsBig(s, start);
  }

  /** A word that could not be skipped, or was not even whole, has the bit, except
      that a short one may have no ones. */
  lemma LastWord(s: seq<bv8>, c: nat, bit: bool)
    requires c <= |s| && (c + 8 <= |s| ==> BigAt(s, c) != Skip64(bit)) && (bit ==> BigAt(s, c) != 0)
    ensures BigAt(s, c) != Skip64(bit)
  {
    LoadSkips(Padded(s, c + 7), Padded(s, c + 6), Padded(s, c + 5), Padded(s, c + 4),
              Padded(s, c + 3), Padded(s, c + 2), Padded(s, c + 1), Padded(s, c), bit);
  }

  lemma NoOnes(s: seq<bv8>, c: nat)
    requires c <= |s| < c + 8 && BigAt(s, c) == 0 && NoneBefore(s, true, 8 * c)
    ensures NoneBefore(s, true, 8 * |s|)
  {
    LoadSkips(Padded(s, c + 7), Padded(s, c + 6), Padded(s, c + 5), Padded(s, c + 4),
              Padded(s, c + 3), Padded(s, c + 2), Padded(s, c + 1), Padded(s, c), true);
    AllSkipped(s, true, c);
  }

  lemma {:induction false} AllSkipped(s: seq<bv8>, bit: bool, c: nat)
    requires c <= |s| && NoneBefore(s, bit, 8 * c) && forall i :: c <= i < |s| ==> s[i] == Skip8(bit)
    ensures NoneBefore(s, bit, 8 * |s|)
    decreases |s| - c
  {
    if c < |s| {
      SkippedByte(s, bit, c);
      AllSkipped(s, bit, c + 1);
    }
  }

  /** The mask finds in the word exactly the bits of the string. */
  ghost predicate Shows(word: bv64, s: seq<bv8>, c: nat) {
    forall k :: 0 <= k < 64 ==> (Test(Mask64(k), word) <==> Hit(s, c, k))
  }

  lemma WordShows(s: seq<bv8>, c: nat, word: bv64)
    requires word == BigAt(s, c)
    ensures Shows(word, s, c)
  {
    forall k | 0 <= k < 64 ensures Test(Mask64(k), word) <==> Hit(s, c, k) {
      MaskIsHit(s, c, k, word, Padded(s, c + k / 8));
    }
  }

  /** The scan under the sliding mask: the loop always finds its bit, so the mask
      never runs out. */
  method ScanWord(s: seq<bv8>, c: nat, bit: bool, word: bv64, ghost h: nat) returns (k: nat)
    requires Shows(word, s, c) && h < 64 && Hit(s, c, h) == bit
    ensures k < 64 && Hit(s, c, k) == bit && forall i :: 0 <= i < k ==> Hit(s, c, i) != bit
  {
    var one: bv64 := !((0xFFFF_FFFF_FFFF_FFFF as bv64) >> 1);
    k := 0;
    FirstMask(one);
    while Test(one, word) != bit
      invariant k <= h && one == Mask64(k) && one != 0
      invariant forall i :: 0 <= i < k ==> Hit(s, c, i) != bit
      decreases 64 - k
    {
      MaskNonZero(k + 1);
      NextMask(one, Half(one), k);
      one := Half(one);
      k := k + 1;
    }
  }

  lemma NextMask(one: bv64, half: bv64, k: nat)
    requires one == Mask64(k) && half == Half(one)
    ensures half == Mask64(k + 1)
  {}

  lemma MaskNonZero(k: nat)
    requires k < 64
    ensures Mask64(k) != 0
  {
    MaskClear(k);
  }

  lemma FirstMask(one: bv64)
    requires one == !((0xFFFF_FFFF_FFFF_FFFF as bv64) >> 1)
    ensures one == Mask64(0) && one != 0
  {}

  lemma FirstHit(s: seq<bv8>, c: nat, bit: bool, k: nat)
    requires c <= |s| && NoneBefore(s, bit, 8 * c) && Hit(s, c, k) == bit
    requires forall i :: 0 <= i < k ==> Hit(s, c, i) != bit
    ensures First(s, bit, 8 * c + k)
  {
    HitIsBit(s, c, k);
    forall q | 0 <= q < 8 * c + k && q < 8 * |s| ensures BitAt(s, q) != bit {
      if q >= 8 * c { HitIsBit(s, c, q - 8 * c); }
    }
    if 8 * c + k > 8 * |s| { HitIsBit(s, c, 8 * |s| - 8 * c); }
  }

  /** `redisBitpos` on a buffer at the given address. */
  method RedisBitpos(s: seq<bv8>, address: nat, bit: bool) returns (pos: int)
    ensures First(s, bit, pos)
  {
    var c := SkipWords(s, address, bit);
    var word := LoadWord(s, c);
    if bit && word == 0 {
      NoOnes(s, c);
      return -1;
    }
    LastWord(s, c, bit);
    ghost var h := SomeHit(s, c, bit);
    WordShows(s, c, word);
    var k := ScanWord(s, c, bit, word, h);
    FirstHit(s, c, bit, k);
    pos := 8 * c + k;
  }
}
