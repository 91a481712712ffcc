/** The footer of DUMP payloads: two bytes of version and eight of CRC. */
module DumpPayload {
  import opened Crc64Table
  import opened Crc64
  import opened Crc64Bursts

  const RDB_VERSION: nat := 8

  /** The word without its n lowest bytes. */
  function WithoutBytes(x: bv64, n: nat): bv64 { if n == 0 then x else Down8(WithoutBytes(x, n - 1)) }

  /** Its n lowest bytes, the lowest first. */
  function LowBytes(x: bv64, n: nat): (r: seq<bv8>)
    ensures |r| == n
  {
    if n == 0 then [] else LowBytes(x, n - 1) + [Low(WithoutBytes(x, n - 1))]
  }

  /** A sum as it lies in memory. */
  function Bytes64(x: bv64): (r: seq<bv8>)
    ensures |r| == 8
  {
    LowBytes(x, 8)
  }

  /** `createDumpPayload` on a serialized object. */
  function Create(image: seq<bv8>): seq<bv8> {
    var body := image + [8, 0];
    body + Bytes64(Crc(0, body))
  }

  /** The version in a footer. */
  function Version(lo: bv8, hi: bv8): nat { 256 * (hi as nat) + lo as nat }

  /** The sum of the body is the one in the footer. */
  predicate Matches(body: seq<bv8>, foot: seq<bv8>) { Bytes64(Crc(0, body)) == foot }

  /** `verifyDumpPayload`. */
  predicate Accepts(p: seq<bv8>) {
    && |p| >= 10
    && Version(p[|p| - 10], p[|p| - 9]) <= RDB_VERSION
    && Matches(p[..|p| - 8], p[|p| - 8..])
  }

  lemma OwnVersion()
    ensures Version(8, 0) == RDB_VERSION
  {}

  /** A payload just created is accepted. */
  lemma CreatedIsAccepted(image: seq<bv8>)
    ensures Accepts(Create(image))
  {
    var body := image + [8, 0];
    var p := Create(image);
    OwnVersion();
    assert p[..|p| - 8] == body && p[|p| - 8..] == Bytes64(Crc(0, body));
    assert p[|p| - 10] == 8 && p[|p| - 9] == 0;
  }

  // -------- A payload is its own proof --------

  lemma Eaten(y: bv64, b: bv8)
    requires b == Low(y)
    ensures TableStep(y, b) == Down8(y)
  {
    NoIndex(b);
    XorZero(Down8(y), Table(0));
    XorTurns(Down8(y), Table(0));
  }

  lemma NoIndex(b: bv8)
    ensures b ^ b == 0 && Table(0) == 0
  {}

  lemma XorTurns(x: bv64, y: bv64)
    ensures Xor(x, y) == Xor(y, x)
  {}

  /** A step function over a whole message. */
  ghost function Fold(f: (bv64, bv8) -> bv64, x: bv64, s: seq<bv8>): bv64 {
    if s == [] then x else f(Fold(f, x, s[..|s| - 1]), s[|s| - 1])
  }

  lemma {:induction false} CrcIsFold(x: bv64, s: seq<bv8>)
    ensures Crc(x, s) == Fold(TableStep, x, s)
  {
    if s != [] { CrcIsFold(x, s[..|s| - 1]); }
  }

  /** The step eats the low byte of a word. */
  ghost predicate Eats(f: (bv64, bv8) -> bv64) { forall y: bv64 :: f(y, Low(y)) == Down8(y) }

  lemma {:induction false} EatLowBytes(f: (bv64, bv8) -> bv64, x: bv64, n: nat)
    requires Eats(f)
    ensures Fold(f, x, LowBytes(x, n)) == WithoutBytes(x, n)
  {
    if n > 0 {
      EatLowBytes(f, x, n - 1);
      var y := WithoutBytes(x, n - 1);
      assert LowBytes(x, n)[..n - 1] == LowBytes(x, n - 1);
      assert f(y, Low(y)) == Down8(y);
    }
  }

  lemma TableStepEats()
    ensures Eats(TableStep)
  {
    forall y ensures TableStep(y, Low(y)) == Down8(y) { Eaten(y, Low(y)); }
  }

  lemma ByteShifts(x: bv64)
    ensures Down8(x) == x >> 8 && Down8(x >> 8) == x >> 16 && Down8(x >> 16) == x >> 24 && Down8(x >> 24) == x >> 32
    ensures Down8(x >> 32) == x >> 40 && Down8(x >> 40) == x >> 48 && Down8(x >> 48) == x >> 56 && Down8(x >> 56) == 0
  {}

  lemma NothingLeft(x: bv64)
    ensures WithoutBytes(x, 8) == 0
  {
    ByteShifts(x);
    assert WithoutBytes(x, 1) == x >> 8 && WithoutBytes(x, 2) == x >> 16 && WithoutBytes(x, 3) == x >> 24;
    assert WithoutBytes(x, 4) == x >> 32 && WithoutBytes(x, 5) == x >> 40 && WithoutBytes(x, 6) == x >> 48;
    assert WithoutBytes(x, 7) == x >> 56;
  }

  /** A message followed by its own sum sums to zero. */
  lemma OwnSumIsZero(x: bv64)
    ensures Crc(x, Bytes64(x)) == 0
  {
    CrcIsFold(x, Bytes64(x));
    TableStepEats();
    EatLowBytes(TableStep, x, 8);
    NothingLeft(x);
  }

  /** No other eight bytes do that. */
  lemma ZeroSumIff(x: bv64, foot: seq<bv8>)
    requires |foot| == 8
    ensures Crc(x, foot) == 0 <==> foot == Bytes64(x)
  {
    OwnSumIsZero(x);
    if foot != Bytes64(x) { EightBytesShow(x, foot, Bytes64(x)); }
  }

  /** Nine bytes are enough to hide a change, from any state. */
  lemma NineBytesMaySlip(crc: bv64, b: bv8, c: bv8)
    ensures Crc(crc, [b] + Bytes64(TableStep(crc, b))) == Crc(crc, [c] + Bytes64(TableStep(crc, c)))
  {
    OneThenSum(crc, b);
    OneThenSum(crc, c);
  }

  lemma OneThenSum(crc: bv64, b: bv8)
    ensures Crc(crc, [b] + Bytes64(TableStep(crc, b))) == 0
  {
    var y := TableStep(crc, b);
    assert [b][..0] == [];
    CrcConcat(crc, [b], Bytes64(y));
    OwnSumIsZero(y);
  }

  /** The check passes exactly when the version does and the payload, footer and
      all, sums to zero. */
  lemma AcceptsIff(p: seq<bv8>)
    ensures Accepts(p) <==> |p| >= 10 && Version(p[|p| - 10], p[|p| - 9]) <= RDB_VERSION && Crc(0, p) == 0
  {
    if |p| >= 10 {
      var body, foot := p[..|p| - 8], p[|p| - 8..];
      assert p == body + foot;
      CrcConcat(0, body, foot);
      ZeroSumIff(Crc(0, body), foot);
    }
  }

  /** No payload that is accepted stays so when it changes within 64 adjacent bits,
      in the body, in the footer or across both. */
  lemma AnyBurstIsRejected(p: seq<bv8>, t: seq<bv8>, i: nat, k: nat)
    requires Accepts(p) && |t| == |p| && t != p && k <= 64 && AgreeOutside(BitsOf(p), BitsOf(t), i, k)
    ensures !Accepts(t)
  {
    AcceptsIff(p);
    AcceptsIff(t);
    BurstShows(0, p, t, i, k);
  }

  /** Nor when at most eight adjacent bytes are replaced. */
  lemma AnyWindowIsRejected(p: seq<bv8>, u: seq<bv8>, v: seq<bv8>, q: seq<bv8>)
    requires Accepts(p + u + q) && |u| == |v| <= 8 && u != v
    ensures !Accepts(p + v + q)
  {
    AcceptsIff(p + u + q);
    AcceptsIff(p + v + q);
    WindowShows(0, p, u, v, q);
  }

  /** Nor when any one byte changes. */
  lemma AnyByteChangeIsRejected(p: seq<bv8>, i: nat, b: bv8)
    requires Accepts(p) && i < |p| && b != p[i]
    ensures !Accepts(p[i := b])
  {
    Around(p, i, b);
    OneByteWindow(p[..i], p[i], b, p[i + 1..], p, p[i := b]);
  }

  lemma Around(p: seq<bv8>, i: nat, b: bv8)
    requires i < |p|
    ensures p == p[..i] + [p[i]] + p[i + 1..] && p[i := b] == p[..i] + [b] + p[i + 1..]
  {}

  lemma OneByteWindow(q: seq<bv8>, c: bv8, b: bv8, r: seq<bv8>, p: seq<bv8>, t: seq<bv8>)
    requires b != c && p == q + [c] + r && t == q + [b] + r && Accepts(p)
    ensures !Accepts(t)
  {
    assert [c][0] != [b][0];
    AnyWindowIsRejected(q, [c], [b], r);
  }

  /** `verifyDumpPayload`, as run: the sum computed over all but the last eight
      bytes is compared with them byte by byte. */
  method VerifyDumpPayload(p: seq<bv8>) returns (ok: bool)
    ensures ok <==> Accepts(p)
  {
    if |p| < 10 { return false; }
    var footer := |p| - 10;
    var rdbver := Version(p[footer], p[footer + 1]);
    if rdbver > RDB_VERSION { return false; }
    var crc := RunCrc64(0, p[..|p| - 8]);
    ok := Bytes64(crc) == p[footer + 2..];
  }
}
