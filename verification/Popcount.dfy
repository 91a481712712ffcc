/** `redisPopcount`: bits counted 28 bytes at a time with word arithmetic, against
    the sum over single bits. */
module Popcount {

  // -------- What is counted --------

  function Unit(one: bool): nat { if one then 1 else 0 }

  /** The number of set bits of a byte. */
  function Ones(b: bv8): nat {
    Unit(b & 1 != 0) + Unit(b & 2 != 0) + Unit(b & 4 != 0) + Unit(b & 8 != 0)
    + Unit(b & 16 != 0) + Unit(b & 32 != 0) + Unit(b & 64 != 0) + Unit(b & 128 != 0)
  }

  function BitCount(s: seq<bv8>): nat {
    if s == [] then 0 else BitCount(s[..|s| - 1]) + Ones(s[|s| - 1])
  }

  // -------- The table --------

  function Row0(l: bv8): nat {
    if l == 0 then 0 else if l == 1 then 1 else if l == 2 then 1 else if l == 3 then 2 else
    if l == 4 then 1 else if l == 5 then 2 else if l == 6 then 2 else if l == 7 then 3 else
    if l == 8 then 1 else if l == 9 then 2 else if l == 10 then 2 else if l == 11 then 3 else
    if l == 12 then 2 else if l == 13 then 3 else if l == 14 then 3 else 4
  }

  function Row1(l: bv8): nat {
    if l == 0 then 1 else if l == 1 then 2 else if l == 2 then 2 else if l == 3 then 3 else
    if l == 4 then 2 else if l == 5 then 3 else if l == 6 then 3 else if l == 7 then 4 else
    if l == 8 then 2 else if l == 9 then 3 else if l == 10 then 3 else if l == 11 then 4 else
    if l == 12 then 3 else if l == 13 then 4 else if l == 14 then 4 else 5
  }

  function Row2(l: bv8): nat {
    if l == 0 then 2 else if l == 1 then 3 else if l == 2 then 3 else if l == 3 then 4 else
    if l == 4 then 3 else if l == 5 then 4 else if l == 6 then 4 else if l == 7 then 5 else
    if l == 8 then 3 else if l == 9 then 4 else if l == 10 then 4 else if l == 11 then 5 else
    if l == 12 then 4 else if l == 13 then 5 else if l == 14 then 5 else 6
  }

  function Row3(l: bv8): nat {
    if l == 0 then 3 else if l == 1 then 4 else if l == 2 then 4 else if l == 3 then 5 else
    if l == 4 then 4 else if l == 5 then 5 else if l == 6 then 5 else if l == 7 then 6 else
    if l == 8 then 4 else if l == 9 then 5 else if l == 10 then 5 else if l == 11 then 6 else
    if l == 12 then 5 else if l == 13 then 6 else if l == 14 then 6 else 7
  }

  function Row4(l: bv8): nat {
    if l == 0 then 4 else if l == 1 then 5 else if l == 2 then 5 else if l == 3 then 6 else
    if l == 4 then 5 else if l == 5 then 6 else if l == 6 then 6 else if l == 7 then 7 else
    if l == 8 then 5 else if l == 9 then 6 else if l == 10 then 6 else if l == 11 then 7 else
    if l == 12 then 6 else if l == 13 then 7 else if l == 14 then 7 else 8
  }

  /** `bitsinbyte`: its sixteen rows of sixteen are these five. */
  function BitsInByte(b: bv8): nat {
    var h, l := b >> 4, b & 15;
    if h == 0 then Row0(l)
    else if h == 1 || h == 2 || h == 4 || h == 8 then Row1(l)
    else if h == 3 || h == 5 || h == 6 || h == 9 || h == 10 || h == 12 then Row2(l)
    else if h == 7 || h == 11 || h == 13 || h == 14 then Row3(l)
    else Row4(l)
  }

  lemma Row0IsOnes(b: bv8, h: bv8, l: bv8)
    requires h == b >> 4 && l == b & 15 && h == 0
    ensures Row0(l) == Ones(b)
  {}

  lemma Row1IsOnes(b: bv8, h: bv8, l: bv8)
    requires h == b >> 4 && l == b & 15 && (h == 1 || h == 2 || h == 4 || h == 8)
    ensures Row1(l) == Ones(b)
  {}

  lemma Row2IsOnes(b: bv8, h: bv8, l: bv8)
    requires h == b >> 4 && l == b & 15 && (h == 3 || h == 5 || h == 6 || h == 9 || h == 10 || h == 12)
    ensures Row2(l) == Ones(b)
  {}

  lemma Row3IsOnes(b: bv8, h: bv8, l: bv8)
    requires h == b >> 4 && l == b & 15 && (h == 7 || h == 11 || h == 13 || h == 14)
    ensures Row3(l) == Ones(b)
  {}

  lemma Row4IsOnes(b: bv8, h: bv8, l: bv8)
    requires h == b >> 4 && l == b & 15 && h == 15
    ensures Row4(l) == Ones(b)
  {}

  lemma TableIsOnes(b: bv8)
    ensures BitsInByte(b) == Ones(b)
  {
    var h, l := b >> 4, b & 15;
    if h == 0 { Row0IsOnes(b, h, l); }
    else if h == 1 || h == 2 || h == 4 || h == 8 { Row1IsOnes(b, h, l); }
    else if h == 3 || h == 5 || h == 6 || h == 9 || h == 10 || h == 12 { Row2IsOnes(b, h, l); }
    else if h == 7 || h == 11 || h == 13 || h == 14 { Row3IsOnes(b, h, l); }
    else { LastRow(b, h); Row4IsOnes(b, h, l); }
  }

  lemma LastRow(b: bv8, h: bv8)
    requires h == b >> 4 && h != 0 && h != 1 && h != 2 && h != 3 && h != 4 && h != 5 && h != 6 && h != 7
    requires h != 8 && h != 9 && h != 10 && h != 11 && h != 12 && h != 13 && h != 14
    ensures h == 15
  {}

  // -------- Words in byte lanes --------

  function Word(a: bv32, b: bv32, c: bv32, d: bv32): bv32 { a | (b << 8) | (c << 16) | (d << 24) }

  function Pairs(x: bv32): bv32 { x - ((x >> 1) & 0x55555555) }

  function Nibbles(x: bv32): bv32 { (x & 0x33333333) + ((x >> 2) & 0x33333333) }

  function Bytes(x: bv32): bv32 { (x + (x >> 4)) & 0x0F0F0F0F }

  /** The set bits of a byte, as a word. */
  function Sum8(x: bv32): bv32 {
    (x & 1) + ((x >> 1) & 1) + ((x >> 2) & 1) + ((x >> 3) & 1)
    + ((x >> 4) & 1) + ((x >> 5) & 1) + ((x >> 6) & 1) + ((x >> 7) & 1)
  }

  lemma PairsByLane(x: bv32, a: bv32, b: bv32, c: bv32, d: bv32)
    requires a < 256 && b < 256 && c < 256 && d < 256 && x == Word(a, b, c, d)
    ensures Pairs(x) == Word(Pairs(a), Pairs(b), Pairs(c), Pairs(d))
    ensures Pairs(a) < 256 && Pairs(b) < 256 && Pairs(c) < 256 && Pairs(d) < 256
  {}

  lemma NibblesByLane(a: bv32, b: bv32, c: bv32, d: bv32)
    requires a < 256 && b < 256 && c < 256 && d < 256
    ensures Nibbles(Word(a, b, c, d)) == Word(Nibbles(a), Nibbles(b), Nibbles(c), Nibbles(d))
  {}

  /** Both halves of a byte hold at most four. */
  predicate Halved(x: bv32) { x <= 0x44 && x & 0xF <= 4 }

  lemma BytesByLane(a: bv32, b: bv32, c: bv32, d: bv32)
    requires Halved(a) && Halved(b) && Halved(c) && Halved(d)
    ensures Bytes(Word(a, b, c, d)) == Word(Bytes(a), Bytes(b), Bytes(c), Bytes(d))
  {}

  lemma OneLane(a: bv32)
    requires a < 256
    ensures Pairs(a) < 256 && Halved(Nibbles(Pairs(a))) && Bytes(Nibbles(Pairs(a))) == Sum8(a) && Sum8(a) <= 8
  {}

  /** The three masked steps leave in every byte the number of its set bits. */
  lemma LaneSums(a: bv32, b: bv32, c: bv32, d: bv32)
    requires a < 256 && b < 256 && c < 256 && d < 256
    ensures Bytes(Nibbles(Pairs(Word(a, b, c, d)))) == Word(Sum8(a), Sum8(b), Sum8(c), Sum8(d))
  {
    OneLane(a); OneLane(b); OneLane(c); OneLane(d);
    PairsByLane(Word(a, b, c, d), a, b, c, d);
    NibblesByLane(Pairs(a), Pairs(b), Pairs(c), Pairs(d));
    BytesByLane(Nibbles(Pairs(a)), Nibbles(Pairs(b)), Nibbles(Pairs(c)), Nibbles(Pairs(d)));
  }

  // -------- From words to numbers --------

  lemma BitIsUnit(b: bv8, x: bv32)
    requires x == b as bv32
    ensures x & 1 == (if b & 1 != 0 then 1 else 0) && (x >> 1) & 1 == (if b & 2 != 0 then 1 else 0)
    ensures (x >> 2) & 1 == (if b & 4 != 0 then 1 else 0) && (x >> 3) & 1 == (if b & 8 != 0 then 1 else 0)
    ensures (x >> 4) & 1 == (if b & 16 != 0 then 1 else 0) && (x >> 5) & 1 == (if b & 32 != 0 then 1 else 0)
    ensures (x >> 6) & 1 == (if b & 64 != 0 then 1 else 0) && (x >> 7) & 1 == (if b & 128 != 0 then 1 else 0)
    ensures x < 256
  {}

  function Bit(one: bool): bv32 { if one then 1 else 0 }

  /** Eight bits added as a word or as a number. */
  lemma EightBits(u: bool, v: bool, w: bool, x: bool, y: bool, z: bool, p: bool, q: bool)
    ensures (Bit(u) + Bit(v) + Bit(w) + Bit(x) + Bit(y) + Bit(z) + Bit(p) + Bit(q)) as nat
         == Unit(u) + Unit(v) + Unit(w) + Unit(x) + Unit(y) + Unit(z) + Unit(p) + Unit(q)
  {}

  lemma Or8(a: bv32, b: bv32)
    requires a <= 56 && b <= 56
    ensures (a | (b << 8)) as nat == a as nat + 0x100 * (b as nat) && (a | (b << 8)) & 0x3F3F == a | (b << 8)
  {}

  lemma Or16(a: bv32, b: bv32)
    requires a & 0x3F3F == a && b & 0x3F3F == b
    ensures (a | (b << 16)) as nat == a as nat + 0x10000 * (b as nat)
  {}

  lemma Halves(w: bv32, a: bv32, b: bv32, c: bv32, d: bv32, lo: bv32, hi: bv32)
    requires w == Word(a, b, c, d) && lo == a | (b << 8) && hi == c | (d << 8)
    ensures w == lo | (hi << 16)
  {}

  lemma JoinHalves(w: bv32, a: bv32, b: bv32, c: bv32, d: bv32, lo: bv32, hi: bv32)
    requires lo as nat == a as nat + 0x100 * (b as nat) && hi as nat == c as nat + 0x100 * (d as nat)
    requires w as nat == lo as nat + 0x10000 * (hi as nat)
    ensures w as nat == a as nat + 0x100 * (b as nat) + 0x10000 * (c as nat) + 0x1000000 * (d as nat)
  {}

  lemma WordIsNumber(w: bv32, a: bv32, b: bv32, c: bv32, d: bv32, lo: bv32, hi: bv32)
    requires a <= 56 && b <= 56 && c <= 56 && d <= 56
    requires w == Word(a, b, c, d) && lo == a | (b << 8) && hi == c | (d << 8)
    ensures w as nat == a as nat + 0x100 * (b as nat) + 0x10000 * (c as nat) + 0x1000000 * (d as nat)
  {
    Halves(w, a, b, c, d, lo, hi);
    Or8(a, b);
    Or8(c, d);
    Or16(lo, hi);
    JoinHalves(w, a, b, c, d, lo, hi);
  }

  // -------- Four bytes --------

  /** A word as loaded from four bytes, least significant first. */
  function Load(s: seq<bv8>, i: nat): bv32
    requires i + 4 <= |s|
  {
    Word(s[i] as bv32, s[i + 1] as bv32, s[i + 2] as bv32, s[i + 3] as bv32)
  }

  function Counts(w: bv32): bv32 { Bytes(Nibbles(Pairs(w))) }

  lemma Sum8IsOnes(b: bv8, x: bv32)
    requires x == b as bv32
    ensures x < 256 && Sum8(x) as nat == Ones(b) && Sum8(x) <= 8
  {
    BitIsUnit(b, x);
    OneLane(x);
    EightBits(b & 1 != 0, b & 2 != 0, b & 4 != 0, b & 8 != 0, b & 16 != 0, b & 32 != 0, b & 64 != 0, b & 128 != 0);
  }

  lemma CountsOfBytes(p: bv8, q: bv8, r: bv8, t: bv8, x: bv32, y: bv32, z: bv32, u: bv32, w: bv32)
      returns (a: bv32, b: bv32, c: bv32, d: bv32)
    requires x == p as bv32 && y == q as bv32 && z == r as bv32 && u == t as bv32 && w == Word(x, y, z, u)
    ensures Counts(w) == Word(a, b, c, d) && a <= 8 && b <= 8 && c <= 8 && d <= 8
    ensures a as nat == Ones(p) && b as nat == Ones(q) && c as nat == Ones(r) && d as nat == Ones(t)
  {
    Sum8IsOnes(p, x); Sum8IsOnes(q, y); Sum8IsOnes(r, z); Sum8IsOnes(t, u);
    LaneSums(x, y, z, u);
    a, b, c, d := Sum8(x), Sum8(y), Sum8(z), Sum8(u);
  }

  /** Four numbers side by side. */
  function Side(a: nat, b: nat, c: nat, d: nat): nat { a + 0x100 * b + 0x1_0000 * c + 0x100_0000 * d }

  lemma CountsNumber(p: bv8, q: bv8, r: bv8, t: bv8, x: bv32, y: bv32, z: bv32, u: bv32, w: bv32, v: bv32)
    requires x == p as bv32 && y == q as bv32 && z == r as bv32 && u == t as bv32 && w == Word(x, y, z, u)
    requires v == Counts(w)
    ensures v as nat == Side(Ones(p), Ones(q), Ones(r), Ones(t))
  {
    var a, b, c, d := CountsOfBytes(p, q, r, t, x, y, z, u, w);
    CountsAreSide(v, a, b, c, d, a | (b << 8), c | (d << 8), p, q, r, t);
  }

  lemma CountsAreSide(v: bv32, a: bv32, b: bv32, c: bv32, d: bv32, lo: bv32, hi: bv32, p: bv8, q: bv8, r: bv8, t: bv8)
    requires a <= 8 && b <= 8 && c <= 8 && d <= 8 && v == Word(a, b, c, d) && lo == a | (b << 8) && hi == c | (d << 8)
    requires a as nat == Ones(p) && b as nat == Ones(q) && c as nat == Ones(r) && d as nat == Ones(t)
    ensures v as nat == Side(Ones(p), Ones(q), Ones(r), Ones(t))
  {
    WordIsNumber(v, a, b, c, d, lo, hi);
  }

  lemma CountsOfLoad(s: seq<bv8>, i: nat)
    requires i + 4 <= |s|
    ensures Counts(Load(s, i)) as nat == Side(Ones(s[i]), Ones(s[i + 1]), Ones(s[i + 2]), Ones(s[i + 3]))
  {
    CountsNumber(s[i], s[i + 1], s[i + 2], s[i + 3],
                 s[i] as bv32, s[i + 1] as bv32, s[i + 2] as bv32, s[i + 3] as bv32, Load(s, i), Counts(Load(s, i)));
  }

  // -------- The product and the shift --------

  lemma ModLow(low: nat, high: nat)
    requires low < 0x1_0000_0000
    ensures (low + 0x1_0000_0000 * high) % 0x1_0000_0000 == low
  {}

  lemma DivTop(rest: nat, q: nat)
    requires rest < 0x100_0000
    ensures (rest + 0x100_0000 * q) / 0x100_0000 == q
  {}

  /** Unsigned 32-bit `(w * 0x01010101) >> 24`. */
  function TopByte(w: nat): nat { w * 0x0101_0101 % 0x1_0000_0000 / 0x100_0000 }

  /** The multiplication adds the four lanes into the top byte; they sum to at
      most 224, so nothing carries out. */
  lemma TopByteSums(a: nat, b: nat, c: nat, d: nat)
    requires a <= 56 && b <= 56 && c <= 56 && d <= 56
    ensures TopByte(Side(a, b, c, d)) == a + b + c + d
  {
    var rest := a + 0x100 * (a + b) + 0x1_0000 * (a + b + c);
    var high := (b + c + d) + 0x100 * (c + d) + 0x1_0000 * d;
    ModLow(rest + 0x100_0000 * (a + b + c + d), high);
    DivTop(rest, a + b + c + d);
    assert (a + 0x100 * b + 0x1_0000 * c + 0x100_0000 * d) * 0x0101_0101
        == rest + 0x100_0000 * (a + b + c + d) + 0x1_0000_0000 * high;
  }

  // -------- Seven words --------

  /** Unsigned 32-bit addition. */
  function Add32(x: nat, y: nat): nat { (x + y) % 0x1_0000_0000 }

  /** Words added from the left. */
  function Total(ws: seq<nat>): nat
    requires ws != []
  {
    if |ws| == 1 then ws[0] else Add32(Total(ws[..|ws| - 1]), ws[|ws| - 1])
  }

  function SumOf(n: seq<nat>): nat { if n == [] then 0 else SumOf(n[..|n| - 1]) + n[|n| - 1] }

  /** Byte `at` of the first k words, added. */
  function Lane(n: seq<nat>, k: nat, at: nat): nat
    requires at < 4 && 4 * k <= |n|
  {
    if k == 0 then 0 else Lane(n, k - 1, at) + n[4 * (k - 1) + at]
  }

  lemma SumSnoc(n: seq<nat>, i: nat, j: nat)
    requires i <= j < |n|
    ensures SumOf(n[i..j + 1]) == SumOf(n[i..j]) + n[j]
  {
    assert n[i..j + 1][..j - i] == n[i..j];
  }

  lemma SumNext(n: seq<nat>, p: nat)
    requires p < |n|
    ensures SumOf(n[..p + 1]) == SumOf(n[..p]) + n[p]
  {
    SumSnoc(n, 0, p);
    assert n[0..p + 1] == n[..p + 1] && n[0..p] == n[..p];
  }

  lemma {:induction false} SumConcat(n: seq<nat>, i: nat, j: nat)
    requires i <= j <= |n|
    ensures SumOf(n[..j]) == SumOf(n[..i]) + SumOf(n[i..j])
  {
    if i == j {
      assert n[i..j] == [];
    } else {
      SumConcat(n, i, j - 1);
      SumNext(n, j - 1);
      SumSnoc(n, i, j - 1);
    }
  }

  lemma {:induction false} LanesSum(n: seq<nat>, k: nat)
    requires 4 * k <= |n|
    ensures SumOf(n[..4 * k]) == Lane(n, k, 0) + Lane(n, k, 1) + Lane(n, k, 2) + Lane(n, k, 3)
  {
    if k > 0 {
      LanesSum(n, k - 1);
      var j := 4 * (k - 1);
      SumNext(n, j); SumNext(n, j + 1); SumNext(n, j + 2); SumNext(n, j + 3);
    }
  }

  /** Every word holds the four counts of its bytes. */
  predicate Holds(ws: seq<nat>, n: seq<nat>) {
    && |n| == 4 * |ws| && (forall i :: 0 <= i < |n| ==> n[i] <= 8)
    && forall k :: 0 <= k < |ws| ==> ws[k] == Side(n[4 * k], n[4 * k + 1], n[4 * k + 2], n[4 * k + 3])
  }

  lemma {:induction false} LaneBound(n: seq<nat>, k: nat, at: nat)
    requires at < 4 && 4 * k <= |n| && forall i :: 0 <= i < |n| ==> n[i] <= 8
    ensures Lane(n, k, at) <= 8 * k
  {
    if k > 0 { LaneBound(n, k - 1, at); }
  }

  lemma AddSides(a: nat, b: nat, c: nat, d: nat, e: nat, f: nat, g: nat, h: nat)
    requires a <= 48 && b <= 48 && c <= 48 && d <= 48 && e <= 8 && f <= 8 && g <= 8 && h <= 8
    ensures Add32(Side(a, b, c, d), Side(e, f, g, h)) == Side(a + e, b + f, c + g, d + h)
  {
    assert Side(a, b, c, d) + Side(e, f, g, h) == Side(a + e, b + f, c + g, d + h);
    ModLow(Side(a + e, b + f, c + g, d + h), 0);
  }

  lemma {:induction false} TotalLanes(ws: seq<nat>, n: seq<nat>, k: nat)
    requires Holds(ws, n) && 0 < k <= |ws| <= 7
    ensures Total(ws[..k]) == Side(Lane(n, k, 0), Lane(n, k, 1), Lane(n, k, 2), Lane(n, k, 3))
  {
    if k == 1 {
      assert Lane(n, 0, 0) == 0 && Lane(n, 0, 1) == 0 && Lane(n, 0, 2) == 0 && Lane(n, 0, 3) == 0;
    } else {
      TotalLanes(ws, n, k - 1);
      assert ws[..k][..k - 1] == ws[..k - 1];
      var j := k - 1;
      LaneBound(n, j, 0); LaneBound(n, j, 1); LaneBound(n, j, 2); LaneBound(n, j, 3);
      AddSides(Lane(n, j, 0), Lane(n, j, 1), Lane(n, j, 2), Lane(n, j, 3), n[4 * j], n[4 * j + 1], n[4 * j + 2],
               n[4 * j + 3]);
    }
  }

  /** Seven words of byte counts come to at most 224, and the product brings out
      their sum. */
  lemma SevenWords(ws: seq<nat>, n: seq<nat>)
    requires Holds(ws, n) && |ws| == 7
    ensures TopByte(Total(ws)) == SumOf(n)
  {
    TotalLanes(ws, n, 7);
    LaneBound(n, 7, 0); LaneBound(n, 7, 1); LaneBound(n, 7, 2); LaneBound(n, 7, 3);
    TopByteSums(Lane(n, 7, 0), Lane(n, 7, 1), Lane(n, 7, 2), Lane(n, 7, 3));
    LanesSum(n, 7);
    assert ws[..7] == ws && n[..4 * 7] == n;
  }

  lemma TotalSnoc(ws: seq<nat>, w: nat)
    requires ws != []
    ensures Total(ws + [w]) == Add32(Total(ws), w)
  {
    assert (ws + [w])[..|ws|] == ws;
  }

  lemma TotalOfSeven(a: nat, b: nat, c: nat, d: nat, e: nat, f: nat, g: nat)
    ensures Total([a, b, c, d, e, f, g]) == Add32(Add32(Add32(Add32(Add32(Add32(a, b), c), d), e), f), g)
  {
    TotalSnoc([a], b);
    TotalSnoc([a] + [b], c);
    TotalSnoc([a] + [b] + [c], d);
    TotalSnoc([a] + [b] + [c] + [d], e);
    TotalSnoc([a] + [b] + [c] + [d] + [e], f);
    TotalSnoc([a] + [b] + [c] + [d] + [e] + [f], g);
    assert [a] + [b] + [c] + [d] + [e] + [f] + [g] == [a, b, c, d, e, f, g];
  }

  // -------- The function --------

  function OnesOf(s: seq<bv8>): (n: seq<nat>)
    ensures |n| == |s|
  {
    seq(|s|, i requires 0 <= i < |s| => Ones(s[i]))
  }

  lemma {:induction false} CountIsSum(s: seq<bv8>)
    ensures BitCount(s) == SumOf(OnesOf(s))
  {
    if s != [] {
      CountIsSum(s[..|s| - 1]);
      assert OnesOf(s)[..|s| - 1] == OnesOf(s[..|s| - 1]);
    }
  }

  /** What a masked word contributes to the sum. */
  function Part(s: seq<bv8>, i: nat): nat
    requires i + 4 <= |s|
  {
    Counts(Load(s, i)) as nat
  }

  lemma OnesAt(s: seq<bv8>, n: seq<nat>, i: nat, o: nat)
    requires i < |s| && n == OnesOf(s) && o == Ones(s[i])
    ensures n[i] == o
  {}

  lemma PartHolds(s: seq<bv8>, n: seq<nat>, i: nat, w: nat, p: nat, q: nat, r: nat, t: nat)
    requires i + 4 <= |s| && n == OnesOf(s) && w == Part(s, i)
    requires p == Ones(s[i]) && q == Ones(s[i + 1]) && r == Ones(s[i + 2]) && t == Ones(s[i + 3])
    ensures w == Side(n[i], n[i + 1], n[i + 2], n[i + 3])
  {
    OnesAt(s, n, i, p); OnesAt(s, n, i + 1, q); OnesAt(s, n, i + 2, r); OnesAt(s, n, i + 3, t);
    PartIsSide(s, i, w, p, q, r, t);
  }

  lemma PartIsSide(s: seq<bv8>, i: nat, w: nat, p: nat, q: nat, r: nat, t: nat)
    requires i + 4 <= |s| && w == Part(s, i)
    requires p == Ones(s[i]) && q == Ones(s[i + 1]) && r == Ones(s[i + 2]) && t == Ones(s[i + 3])
    ensures w == Side(p, q, r, t)
  {
    CountsOfLoad(s, i);
  }

  lemma PartsHold(s: seq<bv8>, n: seq<nat>, i: nat, ws: seq<nat>)
    requires i + 28 <= |s| && n == OnesOf(s) && |ws| == 7
    requires forall k :: 0 <= k < 7 ==> ws[k] == Part(s, i + 4 * k)
    ensures Holds(ws, n[i..i + 28])
  {
    forall k | 0 <= k < 7
      ensures ws[k] == Side(n[i + 4 * k], n[i + 4 * k + 1], n[i + 4 * k + 2], n[i + 4 * k + 3])
    {
      var j := i + 4 * k;
      PartHolds(s, n, j, ws[k], Ones(s[j]), Ones(s[j + 1]), Ones(s[j + 2]), Ones(s[j + 3]));
    }
    forall j | i <= j < i + 28 ensures n[j] <= 8 { EightAtMost(s[j]); }
  }

  lemma EightAtMost(b: bv8)
    ensures Ones(b) <= 8
  {}

  /** `redisPopcount` on a buffer at the given address. */
  method RedisPopcount(s: seq<bv8>, address: nat) returns (bits: nat)
    ensures bits == BitCount(s)
  {
    ghost var n := OnesOf(s);
    bits := 0;
    var p, count := 0, |s|;
    while (address + p) % 4 != 0 && count > 0
      invariant 0 <= count && p + count == |s| && bits == SumOf(n[..p])
      decreases count
    {
      SumNext(n, p);
      TableIsOnes(s[p]);
      bits := bits + BitsInByte(s[p]);
      p, count := p + 1, count - 1;
    }
    while count >= 28
      invariant 0 <= count && p + count == |s| && bits == SumOf(n[..p])
    {
      var part := CountBlock(s, p);
      SumConcat(n, p, p + 28);
      bits := bits + part;
      p, count := p + 28, count - 28;
    }
    while count > 0
      invariant 0 <= count && p + count == |s| && bits == SumOf(n[..p])
    {
      SumNext(n, p);
      TableIsOnes(s[p]);
      bits := bits + BitsInByte(s[p]);
      p, count := p + 1, count - 1;
    }
    assert n[..p] == n;
    CountIsSum(s);
  }

  /** The body of the 28-byte loop. */
  method CountBlock(s: seq<bv8>, p: nat) returns (part: nat)
    requires p + 28 <= |s|
    ensures part == SumOf(OnesOf(s)[p..p + 28])
  {
    var aux1, aux2, aux3, aux4 := Part(s, p), Part(s, p + 4), Part(s, p + 8), Part(s, p + 12);
    var aux5, aux6, aux7 := Part(s, p + 16), Part(s, p + 20), Part(s, p + 24);
    part := TopByte(Add32(Add32(Add32(Add32(Add32(Add32(aux1, aux2), aux3), aux4), aux5), aux6), aux7));
    TotalOfSeven(aux1, aux2, aux3, aux4, aux5, aux6, aux7);
    PartsHold(s, OnesOf(s), p, [aux1, aux2, aux3, aux4, aux5, aux6, aux7]);
    SevenWords([aux1, aux2, aux3, aux4, aux5, aux6, aux7], OnesOf(s)[p..p + 28]);
  }
}
