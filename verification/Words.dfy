/** Words of 64 bits, halved bit by bit. */
module Words {

  function Half(x: bv64): bv64 { x >> 1 }

  predicate Odd(x: bv64) { x & 1 != 0 }

  /** Eight halvings. */
  predicate Halvings(x: bv64, a: bv64, b: bv64, c: bv64, d: bv64, e: bv64, f: bv64, g: bv64, h: bv64) {
    && a == Half(x) && b == Half(a) && c == Half(b) && d == Half(c)
    && e == Half(d) && f == Half(e) && g == Half(f) && h == Half(g)
  }

  lemma HalvingsEven(x: bv64, a: bv64, b: bv64, c: bv64, d: bv64, e: bv64, f: bv64, g: bv64, h: bv64)
    requires Halvings(x, a, b, c, d, e, f, g, h) && x & 0xFF == 0
    ensures !Odd(x) && !Odd(a) && !Odd(b) && !Odd(c) && !Odd(d) && !Odd(e) && !Odd(f) && !Odd(g)
    ensures h == x >> 8
  {}

  /** The n lowest bits are clear. */
  predicate LowClear(x: bv64, n: nat)
    decreases n
  {
    n == 0 || (!Odd(x) && LowClear(Half(x), n - 1))
  }

  lemma {:induction false} LessClear(x: bv64, n: nat, k: nat)
    requires LowClear(x, n) && k <= n
    ensures LowClear(x, k)
    decreases k
  {
    if k > 0 { LessClear(Half(x), n - 1, k - 1); }
  }

  lemma MoreClear(x: bv64, n: nat)
    requires !Odd(x) && LowClear(Half(x), n)
    ensures LowClear(x, n + 1)
  {}

  lemma ByteClear(x: bv64, y: bv64, n: nat)
    requires x & 0xFF == 0 && y == x >> 8 && LowClear(y, n)
    ensures LowClear(x, n + 8)
  {
    var a := Half(x); var b := Half(a); var c := Half(b); var d := Half(c);
    var e := Half(d); var f := Half(e); var g := Half(f);
    HalvingsEven(x, a, b, c, d, e, f, g, Half(g));
    MoreClear(g, n); MoreClear(f, n + 1); MoreClear(e, n + 2); MoreClear(d, n + 3);
    MoreClear(c, n + 4); MoreClear(b, n + 5); MoreClear(a, n + 6); MoreClear(x, n + 7);
  }

  lemma FirstClear()
    ensures LowClear(0x8000_0000_0000_0000, 63)
  {
    assert LowClear(0x80, 7);
    ByteClear(0x8000, 0x80, 7);
    ByteClear(0x80_0000, 0x8000, 15);
    ByteClear(0x8000_0000, 0x80_0000, 23);
    ByteClear(0x80_0000_0000, 0x8000_0000, 31);
    ByteClear(0x8000_0000_0000, 0x80_0000_0000, 39);
    ByteClear(0x80_0000_0000_0000, 0x8000_0000_0000, 47);
    ByteClear(0x8000_0000_0000_0000, 0x80_0000_0000_0000, 55);
  }
}
