/** The slot bitmaps of cluster nodes: one bit per hash slot, low bit first. */
module SlotBitmap {

  const SLOTS: nat := 16384

  type Bitmap = b: seq<bv8> | |b| == SLOTS / 8 witness seq(SLOTS / 8, i => 0)

  function Empty(): (b: Bitmap)
    ensures forall i :: 0 <= i < |b| ==> b[i] == 0
  {
    seq(SLOTS / 8, i => 0)
  }

  /** 1 << i for a bit of a byte. */
  function Mask(i: nat): bv8
    requires i < 8
  {
    if i == 0 then 1 else if i == 1 then 2 else if i == 2 then 4 else if i == 3 then 8
    else if i == 4 then 16 else if i == 5 then 32 else if i == 6 then 64 else 128
  }

  predicate TestBit(b: Bitmap, pos: nat)
    requires pos < SLOTS
  {
    BitOf(b[pos / 8], pos % 8)
  }

  function SetBit(b: Bitmap, pos: nat): Bitmap
    requires pos < SLOTS
  {
    b[pos / 8 := b[pos / 8] | Mask(pos % 8)]
  }

  function ClearBit(b: Bitmap, pos: nat): Bitmap
    requires pos < SLOTS
  {
    b[pos / 8 := b[pos / 8] & !Mask(pos % 8)]
  }

  lemma MaskBits(x: bv8, i: nat, j: nat)
    requires i < 8 && j < 8
    ensures (x | Mask(i)) & Mask(j) != 0 <==> i == j || x & Mask(j) != 0
    ensures (x & !Mask(i)) & Mask(j) != 0 <==> i != j && x & Mask(j) != 0
  {}

  /** Whether a bit of a byte is set. */
  predicate BitOf(x: bv8, i: nat)
    requires i < 8
  {
    x & Mask(i) != 0
  }

  lemma BitOfUpdates(x: bv8, i: nat, j: nat)
    requires i < 8 && j < 8
    ensures BitOf(x | Mask(i), j) <==> i == j || BitOf(x, j)
    ensures BitOf(x & !Mask(i), j) <==> i != j && BitOf(x, j)
  {
    MaskBits(x, i, j);
  }

  lemma SetBitEffect(b: Bitmap, p: nat, q: nat)
    requires p < SLOTS && q < SLOTS
    ensures TestBit(SetBit(b, p), q) <==> q == p || TestBit(b, q)
    ensures TestBit(ClearBit(b, p), q) <==> q != p && TestBit(b, q)
  {
    assert p == 8 * (p / 8) + p % 8 && q == 8 * (q / 8) + q % 8;
    if p / 8 == q / 8 {
      BitOfUpdates(b[p / 8], p % 8, q % 8);
    } else {
      assert SetBit(b, p)[q / 8] == b[q / 8] && ClearBit(b, p)[q / 8] == b[q / 8];
    }
  }

  /** The number of set bits among the first n. */
  function Count(b: Bitmap, n: nat): (k: nat)
    requires n <= SLOTS
    ensures k <= n
  {
    if n == 0 then 0 else Count(b, n - 1) + if TestBit(b, n - 1) then 1 else 0
  }

  lemma {:induction false} CountSet(b: Bitmap, p: nat, n: nat)
    requires p < SLOTS && n <= SLOTS
    ensures Count(SetBit(b, p), n) == Count(b, n) + if p < n && !TestBit(b, p) then 1 else 0
  {
    if n > 0 {
      SetBitEffect(b, p, n - 1);
      CountSet(b, p, n - 1);
    }
  }

  lemma {:induction false} CountClear(b: Bitmap, p: nat, n: nat)
    requires p < SLOTS && n <= SLOTS
    ensures Count(ClearBit(b, p), n) == Count(b, n) - if p < n && TestBit(b, p) then 1 else 0
  {
    if n > 0 {
      SetBitEffect(b, p, n - 1);
      CountClear(b, p, n - 1);
    }
  }

  lemma {:induction false} CountZero(b: Bitmap, n: nat)
    requires n <= SLOTS
    ensures Count(b, n) == 0 <==> forall j :: 0 <= j < n ==> !TestBit(b, j)
  {
    if n > 0 { CountZero(b, n - 1); }
  }

  /** The number of set bits. */
  function Population(b: Bitmap): nat { Count(b, 8 * |b|) }

  lemma PopulationSet(b: Bitmap, p: nat)
    requires p < SLOTS
    ensures Population(SetBit(b, p)) == Population(b) + if TestBit(b, p) then 0 else 1
  {
    CountSet(b, p, 8 * |b|);
  }

  lemma PopulationClear(b: Bitmap, p: nat)
    requires p < SLOTS
    ensures Population(ClearBit(b, p)) == Population(b) - if TestBit(b, p) then 1 else 0
  {
    CountClear(b, p, 8 * |b|);
  }

  lemma PopulationZero(b: Bitmap)
    ensures Population(b) == 0 <==> forall j :: 0 <= j < SLOTS ==> !TestBit(b, j)
  {
    CountZero(b, 8 * |b|);
  }
}
