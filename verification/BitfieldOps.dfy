/** The checks, SET and INCRBY of BITFIELD on unsigned fields of 1 to 63 bits and
    signed fields of 1 to 64. */
module BitfieldOps {
  import opened Bitpos
  import opened Bitfield
  import opened Options

  // -------- 64-bit arithmetic --------

  const U64: nat := 0x1_0000_0000_0000_0000
  const I64: nat := 0x8000_0000_0000_0000

  function ToU64(x: int): (u: nat)
    ensures u < U64
  {
    x % 0x1_0000_0000_0000_0000
  }

  function ToI64(x: int): (i: int)
    ensures 0 - I64 <= i < I64
  {
    var u := ToU64(x);
    if u >= I64 then u - U64 else u
  }

  predicate IsI64(x: int) { 0 - I64 <= x < I64 }

  lemma Fits(x: int)
    ensures IsI64(x) ==> ToI64(x) == x
    ensures 0 <= x < U64 ==> ToU64(x) == x
  {}

  lemma {:induction false} PowAdd(a: nat, b: nat)
    ensures Pow2(a + b) == Pow2(a) * Pow2(b)
  {
    if b > 0 {
      PowAdd(a, b - 1);
      assert Pow2(a) * (2 * Pow2(b - 1)) == 2 * (Pow2(a) * Pow2(b - 1));
    }
  }

  lemma Pow64()
    ensures Pow2(63) == I64 && Pow2(64) == U64
  {
    assert Pow2(8) == 256;
    PowAdd(8, 8); PowAdd(16, 16); PowAdd(32, 31); PowAdd(16, 15);
    assert Pow2(7) == 128;
    PowAdd(8, 7);
  }

  lemma ModAddMul(r: int, p: nat, m: int)
    requires p > 0
    ensures (r + p * m) % p == r % p
  {
    var q := r / p;
    assert r + p * m == p * (q + m) + r % p by { assert p * (q + m) == p * q + p * m; }
    QuotientUnique(r + p * m, p, q + m, r % p);
  }

  lemma ModFactor(x: int, p: nat, k: nat, u: nat)
    requires p > 0 && k > 0 && u == x % (p * k)
    ensures u % p == x % p
  {
    var q := x / (p * k);
    assert x == u + p * (k * q) by { assert p * (k * q) == (p * k) * q; }
    ModAddMul(u, p, k * q);
  }

  lemma PowSplits(n: nat)
    requires n <= 64
    ensures Pow2(n) * Pow2(64 - n) == U64
  {
    Pow64();
    PowAdd(n, 64 - n);
  }

  /** Truncation to 64 bits loses nothing that a narrower field keeps. */
  lemma NarrowMod(x: int, n: nat)
    requires n <= 64
    ensures ToU64(x) % Pow2(n) == x % Pow2(n)
  {
    PowSplits(n);
    ModFactor(x, Pow2(n), Pow2(64 - n), ToU64(x));
  }

  lemma SmallMod(v: nat, p: nat)
    requires v < p
    ensures v % p == v
  {}

  lemma ModNegative(v: int, p: nat)
    requires 0 - p <= v < 0 < p
    ensures v % p == v + p
  {
    QuotientUnique(v, p, -1, v + p);
  }

  // -------- Overflow checks --------

  datatype Overflow = Wrap | Sat | Fail

  /** The returned code and what `*limit` is set to, if it is set. */
  datatype Check = Check(code: int, limit: Option<int>)

  function Max(n: nat): nat { Pow2(n) - 1 }

  /** The check for a field of values up to max, given the wrapped sum. */
  function UnsignedCheck(value: nat, incr: int, max: nat, wrapped: nat, ow: Overflow): Check {
    var maxincr, minincr := ToI64(max - value), ToI64(0 - value);
    if value > max || (incr > 0 && incr > maxincr) then
      Check(1, match ow case Wrap => Some(wrapped) case Sat => Some(max) case Fail => None)
    else if incr < 0 && incr < minincr then
      match ow case Wrap => Check(1, Some(wrapped)) case Sat => Check(-1, Some(0)) case Fail => Check(-1, None)
    else Check(0, None)
  }

  /** `checkUnsignedBitfieldOverflow`. */
  function CheckUnsigned(value: nat, incr: int, n: nat, ow: Overflow): Check {
    UnsignedCheck(value, incr, Max(n), Low(ToU64(value + incr), n), ow)
  }

  /** What all ones shifted by the whole width of a word become, which C leaves
      open: zeros, or all ones still where the machine shifts by 64 modulo 64. */
  datatype Machine = ShiftsOut | ShiftsNone

  /** The masks for a field of n bits have the bits above it. */
  predicate Sound(n: nat, w: Machine) { n < 64 || w == ShiftsOut }

  /** The wrapped value: the sign bit is propagated above the field, or
      everything above it cleared. With a mask of all ones nothing else is left. */
  function WrapSigned(value: int, incr: int, n: nat, w: Machine): int
    requires 0 < n <= 64
  {
    var c := ToU64(ToU64(value) + ToU64(incr));
    if !Sound(n, w) then if BitOf(c, n - 1) then -1 else 0
    else if BitOf(c, n - 1) then ToI64(U64 - Pow2(n) + Low(c, n)) else ToI64(Low(c, n))
  }

  /** `narrow` says that the field is smaller than a word. */
  function SignedCheck(narrow: bool, value: int, incr: int, max: nat, wrapped: int, ow: Overflow): Check {
    var min := 0 - max - 1;
    var maxincr, minincr := ToI64(max - value), ToI64(min - value);
    if value > max || (narrow && incr > maxincr) || (value >= 0 && incr > 0 && incr > maxincr) then
      Check(1, match ow case Wrap => Some(wrapped) case Sat => Some(max) case Fail => None)
    else if value < min || (narrow && incr < minincr) || (value < 0 && incr < 0 && incr < minincr) then
      match ow case Wrap => Check(1, Some(wrapped)) case Sat => Check(-1, Some(min)) case Fail => Check(-1, None)
    else Check(0, None)
  }

  /** `checkSignedBitfieldOverflow`. */
  function CheckSigned(value: int, incr: int, n: nat, ow: Overflow, w: Machine): Check
    requires 0 < n <= 64
  {
    SignedCheck(n != 64, value, incr, Max(n - 1), WrapSigned(value, incr, n, w), ow)
  }

  function Clamp(x: int, lo: int, hi: int): int { if x < lo then lo else if x > hi then hi else x }

  lemma SmallPow(n: nat)
    requires n <= 63
    ensures Pow2(n) <= I64
  {
    Pow64();
    PowGrows(n, 63);
  }

  lemma WidePow(n: nat)
    requires 0 < n <= 64
    ensures Pow2(n - 1) <= I64 && Pow2(n) == 2 * Pow2(n - 1) && (n < 64 ==> Pow2(n) <= I64)
    ensures (n == 64 ==> Pow2(n - 1) == I64)
  {
    SmallPow(n - 1);
    Pow64();
    if n < 64 { SmallPow(n); }
  }

  lemma UnsignedCheckExact(value: nat, incr: int, max: nat, wrapped: nat, ow: Overflow)
    requires value <= max < I64 && IsI64(incr)
    ensures var r, sum := UnsignedCheck(value, incr, max, wrapped, ow), value + incr;
            && (r.code == 0 <==> 0 <= sum <= max)
            && (r.code != 0 && ow == Wrap ==> r.limit == Some(wrapped))
            && (r.code != 0 && ow == Sat ==> r.limit == Some(Clamp(sum, 0, max)))
  {
    Fits(max - value);
    Fits(0 - value);
  }

  /** For a value of the field, the unsigned check reports exactly the sums out of
      range, and its limits are the wrapped and the clamped sum. */
  lemma UnsignedExact(value: nat, incr: int, n: nat, ow: Overflow)
    requires n <= 63 && value <= Max(n) && IsI64(incr)
    ensures var r, sum := CheckUnsigned(value, incr, n, ow), value + incr;
            && (r.code == 0 <==> 0 <= sum <= Max(n))
            && (r.code != 0 && ow == Wrap ==> r.limit == Some(sum % Pow2(n)))
            && (r.code != 0 && ow == Sat ==> r.limit == Some(Clamp(sum, 0, Max(n))))
  {
    SmallPow(n);
    NarrowMod(value + incr, n);
    LowIsMod(ToU64(value + incr), n);
    UnsignedCheckExact(value, incr, Max(n), Low(ToU64(value + incr), n), ow);
  }

  /** x brought into the range of signed n-bit integers by steps of 2^n. */
  function Residue(x: int, n: nat): (v: int)
    requires n > 0
    ensures 0 - Pow2(n - 1) <= v < Pow2(n - 1)
    decreases if x < 0 then 0 - 2 * x - 1 else 2 * x + 1
  {
    if x < 0 - Pow2(n - 1) then Residue(x + Pow2(n), n)
    else if x >= Pow2(n - 1) then Residue(x - Pow2(n), n)
    else x
  }

  lemma ModStep(x: int, p: nat)
    requires p > 0
    ensures (x + p) % p == x % p && (x - p) % p == x % p
  {
    ModAddMul(x, p, 1);
    ModAddMul(x, p, -1);
  }

  /** That is the two's complement reading of x modulo 2^n. */
  lemma {:induction false} ResidueIsMod(x: int, n: nat)
    requires n > 0
    ensures Residue(x, n) == AsSigned(x % Pow2(n), n)
    decreases if x < 0 then 0 - 2 * x - 1 else 2 * x + 1
  {
    ModStep(x, Pow2(n));
    if x < 0 - Pow2(n - 1) {
      ResidueIsMod(x + Pow2(n), n);
    } else if x >= Pow2(n - 1) {
      ResidueIsMod(x - Pow2(n), n);
    } else if x < 0 {
      ModNegative(x, Pow2(n));
    } else {
      SmallMod(x, Pow2(n));
    }
  }

  lemma UpperHalf(c: int, p: nat, m: nat, q: int, r: int)
    requires p > 0 && m == 2 * p && c == m * q + r && 0 <= r < m
    ensures c / p % 2 != 0 <==> r >= p
  {
    assert p * (2 * q) == m * q && p * (2 * q + 1) == m * q + p;
    if r >= p { QuotientUnique(c, p, 2 * q + 1, r - p); } else { QuotientUnique(c, p, 2 * q, r); }
  }

  lemma SignBitOf(c: int, p: nat, m: nat)
    requires p > 0 && m == 2 * p
    ensures c / p % 2 != 0 <==> c % m >= p
  {
    UpperHalf(c, p, m, c / m, c % m);
  }

  lemma SignBit(c: nat, n: nat)
    requires n > 0
    ensures BitOf(c, n - 1) <==> c % Pow2(n) >= Pow2(n - 1)
    ensures Low(c, n) == c % Pow2(n)
  {
    BitOfIsDiv(c, n - 1);
    SignBitOf(c, Pow2(n - 1), Pow2(n));
    LowIsMod(c, n);
  }

  /** The sum in a word is the exact sum in the field. */
  lemma WordSum(value: int, incr: int, n: nat, c: nat)
    requires n <= 64 && c == ToU64(ToU64(value) + ToU64(incr))
    ensures c % Pow2(n) == (value + incr) % Pow2(n)
  {
    NarrowMod(ToU64(value) + ToU64(incr), n);
    SumMod(value, incr, n);
  }

  lemma ResidueOf(x: int, c: nat, n: nat)
    requires 0 < n && c % Pow2(n) == x % Pow2(n)
    ensures Low(c, n) < Pow2(n) && (BitOf(c, n - 1) <==> Low(c, n) >= Pow2(n - 1))
    ensures Residue(x, n) == if BitOf(c, n - 1) then Low(c, n) - Pow2(n) else Low(c, n)
  {
    SignBit(c, n);
    ResidueIsMod(x, n);
  }

  lemma WrapSignedIsResidue(value: int, incr: int, n: nat, w: Machine)
    requires 0 < n <= 64 && Sound(n, w)
    ensures WrapSigned(value, incr, n, w) == Residue(value + incr, n)
  {
    var c := ToU64(ToU64(value) + ToU64(incr));
    WordSum(value, incr, n, c);
    ResidueOf(value + incr, c, n);
    Extended(Low(c, n), n);
  }

  /** The bits above the field make a negative integer of it. */
  lemma Extended(u: nat, n: nat)
    requires 0 < n <= 64 && u < Pow2(n)
    ensures Pow2(n) <= U64
    ensures u >= Pow2(n - 1) ==> ToI64(U64 - Pow2(n) + u) == u - Pow2(n)
    ensures u < Pow2(n - 1) ==> ToI64(u) == u
  {
    WidePow(n);
    Fits(u);
    Fits(u - Pow2(n));
    WrapDown(u - Pow2(n));
  }

  /** Without sound masks the wrap keeps the sign and nothing else. */
  lemma WrapSign(value: int, incr: int, n: nat, w: Machine)
    requires 0 < n <= 64 && !Sound(n, w)
    ensures WrapSigned(value, incr, n, w) == Signum(Residue(value + incr, n))
  {
    var c := ToU64(ToU64(value) + ToU64(incr));
    WordSum(value, incr, n, c);
    ResidueOf(value + incr, c, n);
  }

  function Signum(x: int): int { if x < 0 then -1 else 0 }

  /** The wrap is the residue exactly with sound masks or where only the sign is
      left of it. */
  lemma WrapExactIff(value: int, incr: int, n: nat, w: Machine)
    requires 0 < n <= 64
    ensures WrapSigned(value, incr, n, w) == Residue(value + incr, n) <==>
            Sound(n, w) || Residue(value + incr, n) == -1 || Residue(value + incr, n) == 0
  {
    if Sound(n, w) { WrapSignedIsResidue(value, incr, n, w); } else { WrapSign(value, incr, n, w); }
  }

  lemma WrapDown(x: int)
    requires 0 - U64 <= x < 0
    ensures ToI64(x + U64) == ToI64(x)
  {}

  /** Adding the 64-bit images of two integers adds the integers, in the field. */
  lemma SumMod(a: int, b: int, n: nat)
    requires n <= 64
    ensures (ToU64(a) + ToU64(b)) % Pow2(n) == (a + b) % Pow2(n)
  {
    NarrowMod(a, n);
    NarrowMod(b, n);
    var p := Pow2(n);
    ModSum(ToU64(a), ToU64(b), p);
    ModSum(a, b, p);
  }

  lemma ModSum(a: int, b: int, p: nat)
    requires p > 0
    ensures (a + b) % p == (a % p + b % p) % p
  {
    var q := a / p + b / p;
    assert a + b == (a % p + b % p) + p * q by { assert p * q == p * (a / p) + p * (b / p); }
    ModAddMul(a % p + b % p, p, q);
  }

  lemma SignedCheckExact(narrow: bool, value: int, incr: int, max: nat, wrapped: int, ow: Overflow)
    requires (if narrow then 2 * max < I64 else max == I64 - 1) && 0 - max - 1 <= value <= max && IsI64(incr)
    ensures var r, sum := SignedCheck(narrow, value, incr, max, wrapped, ow), value + incr;
            && (r.code == 0 <==> 0 - max - 1 <= sum <= max)
            && (r.code != 0 && ow == Wrap ==> r.limit == Some(wrapped))
            && (r.code != 0 && ow == Sat ==> r.limit == Some(Clamp(sum, 0 - max - 1, max)))
            && (r.code != 0 && ow == Fail ==> r.limit == None)
  {
    Fits(max - value);
    Fits(0 - max - 1 - value);
  }

  /** For a value of the field, so does the signed check, except that the wrapped
      sum is right only where the masks leave it so. */
  lemma SignedExact(value: int, incr: int, n: nat, ow: Overflow, w: Machine)
    requires 0 < n <= 64 && IsI64(incr) && 0 - Pow2(n - 1) <= value < Pow2(n - 1)
    ensures var r, sum, lo, hi := CheckSigned(value, incr, n, ow, w), value + incr, 0 - Pow2(n - 1), Pow2(n - 1) - 1;
            && (r.code == 0 <==> lo <= sum <= hi)
            && (r.code != 0 && ow == Wrap ==> (r.limit == Some(Residue(sum, n)) <==>
                                               Sound(n, w) || Residue(sum, n) == -1 || Residue(sum, n) == 0))
            && (r.code != 0 && ow == Sat ==> r.limit == Some(Clamp(sum, lo, hi)))
            && (r.code != 0 && ow == Fail ==> r.limit == None)
  {
    WidePow(n);
    WrapExactIff(value, incr, n, w);
    SignedCheckExact(n != 64, value, incr, Max(n - 1), WrapSigned(value, incr, n, w), ow);
  }

  lemma SignedSetCheckExact(narrow: bool, value: int, max: nat, wrapped: int, ow: Overflow)
    requires (if narrow then 2 * max < I64 else max == I64 - 1) && IsI64(value)
    ensures var r, min := SignedCheck(narrow, value, 0, max, wrapped, ow), 0 - max - 1;
            && (r.code == 0 <==> min <= value <= max)
            && (r.code != 0 && ow == Wrap ==> r.limit == Some(wrapped))
            && (r.code != 0 && ow == Sat ==> (r.limit == Some(Clamp(value, min, max)) <==> value >= max + 1 - I64))
            && (r.code != 0 && ow == Sat && value < max + 1 - I64 ==> r.limit == Some(max))
            && (r.code != 0 && ow == Fail ==> r.limit == None)
  {
    Fits(max - value);
    Fits(0 - max - 1 - value);
    if max - value >= I64 { WrapUp(max - value); }
  }

  /** SET: the signed check reports exactly the values out of range and wraps
      them, but it saturates to the right end only when `max - value` does not
      overflow. No value is out of range of 64 bits. */
  lemma SignedSetExact(value: int, n: nat, ow: Overflow, w: Machine)
    requires 0 < n <= 64 && IsI64(value)
    ensures var r, lo, hi := CheckSigned(value, 0, n, ow, w), 0 - Pow2(n - 1), Pow2(n - 1) - 1;
            && (r.code == 0 <==> lo <= value <= hi) && (n == 64 ==> r.code == 0)
            && (r.code != 0 && ow == Wrap ==> r.limit == Some(Residue(value, n)))
            && (r.code != 0 && ow == Sat ==> (r.limit == Some(Clamp(value, lo, hi)) <==> value >= Pow2(n - 1) - I64))
            && (r.code != 0 && ow == Sat && value < Pow2(n - 1) - I64 ==> r.limit == Some(hi))
            && (r.code != 0 && ow == Fail ==> r.limit == None)
  {
    WidePow(n);
    if n < 64 { WrapSignedIsResidue(value, 0, n, w); }
    SignedSetCheckExact(n != 64, value, Max(n - 1), WrapSigned(value, 0, n, w), ow);
  }

  lemma WrapUp(x: int)
    requires I64 <= x < U64
    ensures ToI64(x) == x - U64
  {}

  /** The least 64-bit integer, stored into eight signed bits with saturation,
      becomes the greatest value of the field. */
  lemma SaturatesToTheWrongEnd(w: Machine)
    ensures CheckSigned(0 - I64, 0, 8, Sat, w).limit == Some(127)
  {
    assert Pow2(7) == 128;
    SignedSetExact(0 - I64, 8, Sat, w);
  }

  /** SET: the unsigned check takes the 64-bit image of the value, so it saturates
      a negative one to the top. */
  lemma UnsignedSetExact(value: int, n: nat, ow: Overflow)
    requires 0 < n <= 63 && IsI64(value)
    ensures var r := CheckUnsigned(ToU64(value), 0, n, ow);
            && (r.code == 0 <==> 0 <= value <= Max(n))
            && (r.code != 0 && ow == Wrap ==> r.limit == Some(value % Pow2(n)))
            && (r.code != 0 && ow == Sat ==>
                r.limit == Some(Max(n)) && (Max(n) == Clamp(value, 0, Max(n)) <==> value >= 0))
  {
    SmallPow(n);
    Fits(value);
    NarrowMod(value, n);
    LowIsMod(ToU64(value), n);
    Fits(ToU64(value));
    if ToU64(value) <= Max(n) {
      Fits(Max(n) - ToU64(value));
      Fits(0 - ToU64(value));
    }
  }

  // -------- The operations --------

  datatype Kind = Set | IncrBy

  datatype Outcome = Outcome(bytes: seq<bv8>, reply: Option<int>)

  /** What both code paths do after the check: nothing on a refused overflow, else
      store the limit or the plain value. INCRBY replies the new value, SET the
      old one. */
  function Finish(s: seq<bv8>, kind: Kind, off: nat, n: nat, oldval: int, check: Check, plain: int): (r: Outcome)
    requires off + n <= 8 * |s|
    ensures |r.bytes| == |s|
  {
    if check.code != 0 && check.limit == None then Outcome(s, None)
    else
      var newval := if check.code != 0 then check.limit.value else plain;
      Outcome(Written(s, off, n, ToU64(newval), n), Some(if kind == IncrBy then newval else oldval))
  }

  /** SET and INCRBY on an unsigned field. */
  function ExecUnsigned(s: seq<bv8>, kind: Kind, off: nat, n: nat, arg: int, ow: Overflow): (r: Outcome)
    requires 0 < n <= 63 && off + n <= 8 * |s|
    ensures |r.bytes| == |s|
  {
    var oldval := Unsigned(s, off, n);
    if kind == IncrBy then Finish(s, kind, off, n, oldval, CheckUnsigned(oldval, arg, n, ow), ToU64(oldval + arg))
    else Finish(s, kind, off, n, oldval, CheckUnsigned(ToU64(arg), 0, n, ow), ToU64(arg))
  }

  /** `getSignedBitfield`: without sound masks all negative integers read as -1. */
  function ReadSigned(s: seq<bv8>, off: nat, n: nat, w: Machine): (v: int)
    requires 0 < n
    ensures 0 - Pow2(n - 1) <= v < Pow2(n - 1)
    ensures v == Signed(s, off, n) <==> Sound(n, w) || Signed(s, off, n) >= -1
  {
    if Sound(n, w) then Signed(s, off, n) else Misread(Signed(s, off, n))
  }

  /** A mask of all ones makes every negative integer -1. */
  function Misread(v: int): int { if v < 0 then -1 else v }

  /** SET and INCRBY on a signed field. */
  function ExecSigned(s: seq<bv8>, kind: Kind, off: nat, n: nat, arg: int, ow: Overflow, w: Machine): (r: Outcome)
    requires 0 < n <= 64 && off + n <= 8 * |s|
    ensures |r.bytes| == |s|
  {
    var oldval := ReadSigned(s, off, n, w);
    if kind == IncrBy then Finish(s, kind, off, n, oldval, CheckSigned(oldval, arg, n, ow, w), ToI64(oldval + arg))
    else Finish(s, kind, off, n, oldval, CheckSigned(arg, 0, n, ow, w), arg)
  }

  /** No bit outside the field differs. */
  ghost predicate OnlyField(s: seq<bv8>, t: seq<bv8>, off: nat, n: nat) {
    |t| == |s| && forall q :: 0 <= q < 8 * |s| && !(off <= q < off + n) ==> Bit(t, q) == Bit(s, q)
  }

  /** What an overflow policy makes of an integer; None where it refuses. */
  function Policy(x: int, lo: int, hi: int, wrapped: int, ow: Overflow): Option<int> {
    if lo <= x <= hi then Some(x)
    else match ow case Wrap => Some(wrapped) case Sat => Some(Clamp(x, lo, hi)) case Fail => None
  }

  lemma WrittenUnsigned(s: seq<bv8>, off: nat, n: nat, v: nat)
    requires off + n <= 8 * |s| && v <= Max(n)
    ensures Unsigned(Written(s, off, n, v, n), off, n) == v && OnlyField(s, Written(s, off, n, v, n), off, n)
  {
    WrittenStored(s, off, n, v);
    SmallMod(v, Pow2(n));
  }

  lemma WrittenSigned(s: seq<bv8>, off: nat, n: nat, v: int)
    requires 0 < n <= 64 && off + n <= 8 * |s| && 0 - Pow2(n - 1) <= v < Pow2(n - 1)
    ensures Signed(Written(s, off, n, ToU64(v), n), off, n) == v
    ensures OnlyField(s, Written(s, off, n, ToU64(v), n), off, n)
  {
    WrittenStored(s, off, n, ToU64(v));
    NarrowMod(v, n);
    ResidueIsMod(v, n);
  }

  /** The check refuses, or lets x through. */
  predicate LetsThrough(check: Check, plain: int, x: Option<int>) {
    && (check.code != 0 && check.limit == None <==> x == None)
    && (x.Some? ==> x.value == if check.code != 0 then check.limit.value else plain)
  }

  lemma FinishUnsigned(s: seq<bv8>, kind: Kind, off: nat, n: nat, oldval: int, check: Check, plain: int, x: Option<int>)
    requires 0 < n <= 63 && off + n <= 8 * |s| && LetsThrough(check, plain, x) && (x.Some? ==> 0 <= x.value <= Max(n))
    ensures var r := Finish(s, kind, off, n, oldval, check, plain);
            && OnlyField(s, r.bytes, off, n) && (x == None ==> r == Outcome(s, None))
            && (x.Some? ==>
                Unsigned(r.bytes, off, n) == x.value && r.reply == Some(if kind == IncrBy then x.value else oldval))
  {
    if x.Some? {
      SmallPow(n);
      Fits(x.value);
      WrittenUnsigned(s, off, n, x.value);
    }
  }

  lemma FinishSigned(s: seq<bv8>, kind: Kind, off: nat, n: nat, oldval: int, check: Check, plain: int, x: Option<int>)
    requires 0 < n <= 64 && off + n <= 8 * |s| && LetsThrough(check, plain, x)
    requires x.Some? ==> 0 - Pow2(n - 1) <= x.value < Pow2(n - 1)
    ensures var r := Finish(s, kind, off, n, oldval, check, plain);
            && OnlyField(s, r.bytes, off, n) && (x == None ==> r == Outcome(s, None))
            && (x.Some? ==>
                Signed(r.bytes, off, n) == x.value && r.reply == Some(if kind == IncrBy then x.value else oldval))
  {
    if x.Some? { WrittenSigned(s, off, n, x.value); }
  }

  lemma UnsignedPolicy(value: nat, incr: int, n: nat, ow: Overflow)
    requires 0 < n <= 63 && value <= Max(n) && IsI64(incr)
    ensures var x := Policy(value + incr, 0, Max(n), (value + incr) % Pow2(n), ow);
            && LetsThrough(CheckUnsigned(value, incr, n, ow), ToU64(value + incr), x)
            && (x.Some? ==> 0 <= x.value <= Max(n))
  {
    UnsignedExact(value, incr, n, ow);
    SmallPow(n);
    Fits(value + incr);
  }

  /** What the signed check lets through of a sum: the policy with its own wrap. */
  function Passed(value: int, incr: int, n: nat, ow: Overflow, w: Machine): Option<int>
    requires 0 < n <= 64
  {
    Policy(value + incr, 0 - Pow2(n - 1), Pow2(n - 1) - 1, WrapSigned(value, incr, n, w), ow)
  }

  lemma WrapInRange(value: int, incr: int, n: nat, w: Machine)
    requires 0 < n <= 64
    ensures 0 - Pow2(n - 1) <= WrapSigned(value, incr, n, w) < Pow2(n - 1)
  {
    if Sound(n, w) { WrapSignedIsResidue(value, incr, n, w); } else { WrapSign(value, incr, n, w); }
  }

  lemma SignedPolicy(value: int, incr: int, n: nat, ow: Overflow, w: Machine)
    requires 0 < n <= 64 && IsI64(incr) && 0 - Pow2(n - 1) <= value < Pow2(n - 1)
    ensures var x := Passed(value, incr, n, ow, w);
            && LetsThrough(CheckSigned(value, incr, n, ow, w), ToI64(value + incr), x)
            && (x.Some? ==> 0 - Pow2(n - 1) <= x.value < Pow2(n - 1))
  {
    WidePow(n);
    WrapInRange(value, incr, n, w);
    SignedCheckExact(n != 64, value, incr, Max(n - 1), WrapSigned(value, incr, n, w), ow);
    Fits(value + incr);
  }

  /** INCRBY on an unsigned field stores and replies what the policy makes of the
      exact sum, or leaves every byte alone and replies nothing. */
  lemma IncrByUnsigned(s: seq<bv8>, off: nat, n: nat, arg: int, ow: Overflow)
    requires 0 < n <= 63 && off + n <= 8 * |s| && IsI64(arg)
    ensures var r, sum := ExecUnsigned(s, IncrBy, off, n, arg, ow), Unsigned(s, off, n) + arg;
            && r.reply == Policy(sum, 0, Max(n), sum % Pow2(n), ow)
            && OnlyField(s, r.bytes, off, n)
            && (if r.reply == None then r.bytes == s else Unsigned(r.bytes, off, n) == r.reply.value)
  {
    var v := Unsigned(s, off, n);
    UnsignedPolicy(v, arg, n, ow);
    IncrFinishUnsigned(s, off, n, arg, ow, v, CheckUnsigned(v, arg, n, ow), ToU64(v + arg),
                       Policy(v + arg, 0, Max(n), (v + arg) % Pow2(n), ow));
  }

  lemma IncrFinishUnsigned(s: seq<bv8>, off: nat, n: nat, arg: int, ow: Overflow,
                           v: nat, check: Check, plain: int, x: Option<int>)
    requires 0 < n <= 63 && off + n <= 8 * |s| && v == Unsigned(s, off, n)
    requires check == CheckUnsigned(v, arg, n, ow) && plain == ToU64(v + arg) && LetsThrough(check, plain, x)
    requires x.Some? ==> 0 <= x.value <= Max(n)
    ensures var r := ExecUnsigned(s, IncrBy, off, n, arg, ow);
            && r.reply == x && OnlyField(s, r.bytes, off, n)
            && (if x == None then r.bytes == s else Unsigned(r.bytes, off, n) == x.value)
  {
    FinishUnsigned(s, IncrBy, off, n, v, check, plain, x);
  }

  lemma IncrFinish(s: seq<bv8>, off: nat, n: nat, arg: int, ow: Overflow, w: Machine,
                   v: int, check: Check, plain: int, x: Option<int>)
    requires 0 < n <= 64 && off + n <= 8 * |s| && v == ReadSigned(s, off, n, w)
    requires check == CheckSigned(v, arg, n, ow, w) && plain == ToI64(v + arg) && LetsThrough(check, plain, x)
    requires x.Some? ==> 0 - Pow2(n - 1) <= x.value < Pow2(n - 1)
    ensures var r := ExecSigned(s, IncrBy, off, n, arg, ow, w);
            && r.reply == x && OnlyField(s, r.bytes, off, n)
            && (if x == None then r.bytes == s else Signed(r.bytes, off, n) == x.value)
  {
    FinishSigned(s, IncrBy, off, n, v, check, plain, x);
  }

  /** When INCRBY on a 64-bit field holding v is right although the masks are all
      ones: the field reads as it is and the sum does not wrap, or the field is
      misread and the policy hides it. */
  predicate Lucky(v: int, arg: int, ow: Overflow) {
    if v >= -1 then IsI64(v + arg) || ow != Wrap
    else match ow
         case Wrap => arg == 0 - I64 && v == 0 - I64
         case Sat => arg <= 1 - I64
         case Fail => arg == 0 - I64
  }

  /** Around the 64-bit integers once. */
  function Around(x: int): int { if x < 0 - I64 then x + U64 else if x >= I64 then x - U64 else x }

  lemma Residue64(x: int, n: nat)
    requires n == 64 && 0 - U64 <= x < U64
    ensures Residue(x, n) == Around(x)
  {
    Pow64();
  }

  lemma LuckyIff(v: int, arg: int, ow: Overflow, a: int, b: int)
    requires IsI64(v) && IsI64(arg) && a == Signum(Around(Misread(v) + arg)) && b == Around(v + arg)
    ensures var got := Policy(Misread(v) + arg, 0 - I64, I64 - 1, a, ow);
            var right := Policy(v + arg, 0 - I64, I64 - 1, b, ow);
            got == right <==> Lucky(v, arg, ow)
  {}

  /** INCRBY on a signed field stores and replies what the check lets through of the
      sum with the field as it is read. */
  lemma IncrPassed(s: seq<bv8>, off: nat, n: nat, arg: int, ow: Overflow, w: Machine, v: int)
    requires 0 < n <= 64 && off + n <= 8 * |s| && IsI64(arg) && v == ReadSigned(s, off, n, w)
    ensures var r, x := ExecSigned(s, IncrBy, off, n, arg, ow, w), Passed(v, arg, n, ow, w);
            && r.reply == x && OnlyField(s, r.bytes, off, n)
            && (if x == None then r.bytes == s else Signed(r.bytes, off, n) == x.value)
  {
    SignedPolicy(v, arg, n, ow, w);
    IncrFinish(s, off, n, arg, ow, w, v, CheckSigned(v, arg, n, ow, w), ToI64(v + arg), Passed(v, arg, n, ow, w));
  }

  /** What the policy makes of an exact result. */
  function Right(x: int, n: nat, ow: Overflow): Option<int>
    requires 0 < n <= 64
  {
    Policy(x, 0 - Pow2(n - 1), Pow2(n - 1) - 1, Residue(x, n), ow)
  }

  lemma PassedWide(v: int, arg: int, n: nat, ow: Overflow, w: Machine)
    requires n == 64 && !Sound(n, w) && IsI64(arg) && IsI64(v)
    ensures Passed(Misread(v), arg, n, ow, w) == Right(v + arg, n, ow) <==> Lucky(v, arg, ow)
  {
    var u := Misread(v);
    Pow64();
    WrapSign(u, arg, n, w);
    Residue64(u + arg, n);
    Residue64(v + arg, n);
    LuckyIff(v, arg, ow, WrapSigned(u, arg, n, w), Residue(v + arg, n));
  }

  lemma PassedIff(v: int, u: int, arg: int, n: nat, ow: Overflow, w: Machine)
    requires 0 < n <= 64 && IsI64(arg) && 0 - Pow2(n - 1) <= v < Pow2(n - 1)
    requires u == if Sound(n, w) then v else Misread(v)
    ensures Passed(u, arg, n, ow, w) == Right(v + arg, n, ow) <==> Sound(n, w) || Lucky(v, arg, ow)
  {
    if Sound(n, w) {
      WrapSignedIsResidue(v, arg, n, w);
    } else {
      Pow64();
      PassedWide(v, arg, n, ow, w);
    }
  }

  /** INCRBY on a signed field stores and replies one integer, or leaves every byte
      alone and replies nothing. The reply is what the policy makes of the exact
      sum exactly with sound masks or by luck. */
  lemma IncrBySigned(s: seq<bv8>, off: nat, n: nat, arg: int, ow: Overflow, w: Machine)
    requires 0 < n <= 64 && off + n <= 8 * |s| && IsI64(arg)
    ensures var r, v := ExecSigned(s, IncrBy, off, n, arg, ow, w), Signed(s, off, n);
            && OnlyField(s, r.bytes, off, n)
            && (if r.reply == None then r.bytes == s else Signed(r.bytes, off, n) == r.reply.value)
            && (r.reply == Right(v + arg, n, ow) <==> Sound(n, w) || Lucky(v, arg, ow))
  {
    var u := ReadSigned(s, off, n, w);
    IncrStores(s, off, n, arg, ow, w);
    IncrRightIff(s, off, n, arg, ow, w, Signed(s, off, n), u, ExecSigned(s, IncrBy, off, n, arg, ow, w).reply);
  }

  lemma IncrStores(s: seq<bv8>, off: nat, n: nat, arg: int, ow: Overflow, w: Machine)
    requires 0 < n <= 64 && off + n <= 8 * |s| && IsI64(arg)
    ensures var r := ExecSigned(s, IncrBy, off, n, arg, ow, w);
            && OnlyField(s, r.bytes, off, n)
            && (if r.reply == None then r.bytes == s else Signed(r.bytes, off, n) == r.reply.value)
  {
    IncrPassed(s, off, n, arg, ow, w, ReadSigned(s, off, n, w));
  }

  lemma IncrRightIff(s: seq<bv8>, off: nat, n: nat, arg: int, ow: Overflow, w: Machine,
                     v: int, u: int, reply: Option<int>)
    requires 0 < n <= 64 && off + n <= 8 * |s| && IsI64(arg)
    requires v == Signed(s, off, n) && u == ReadSigned(s, off, n, w)
    requires reply == ExecSigned(s, IncrBy, off, n, arg, ow, w).reply
    ensures reply == Right(v + arg, n, ow) <==> Sound(n, w) || Lucky(v, arg, ow)
  {
    IncrPassed(s, off, n, arg, ow, w, u);
    PassedIff(v, u, arg, n, ow, w);
  }

  /** What a SET lets through, right or wrong. */
  function SetValue(check: Check, plain: int): Option<int> {
    if check.code == 0 then Some(plain) else check.limit
  }

  /** SET stores what the policy makes of the new value, except that saturation
      from a value too small for `max - value` goes to the wrong end. It replies the
      old value, as it is read. */
  lemma SetSigned(s: seq<bv8>, off: nat, n: nat, arg: int, ow: Overflow, w: Machine)
    requires 0 < n <= 64 && off + n <= 8 * |s| && IsI64(arg)
    ensures var r := ExecSigned(s, Set, off, n, arg, ow, w);
            var x := Right(arg, n, ow);
            && OnlyField(s, r.bytes, off, n)
            && (x == None ==> r == Outcome(s, None))
            && (x.Some? ==>
                r.reply.Some? && (r.reply.value == Signed(s, off, n) <==> Sound(n, w) || Signed(s, off, n) >= -1))
            && (x.Some? ==> (Signed(r.bytes, off, n) == x.value <==> ow != Sat || n == 64 || arg >= Pow2(n - 1) - I64))
  {
    SignedSetExact(arg, n, ow, w);
    WidePow(n);
    var check := CheckSigned(arg, 0, n, ow, w);
    FinishSigned(s, Set, off, n, ReadSigned(s, off, n, w), check, arg, SetValue(check, arg));
  }

  /** SET on an unsigned field does so except that saturation takes a negative
      value to the top. */
  lemma SetUnsigned(s: seq<bv8>, off: nat, n: nat, arg: int, ow: Overflow)
    requires 0 < n <= 63 && off + n <= 8 * |s| && IsI64(arg)
    ensures var r := ExecUnsigned(s, Set, off, n, arg, ow);
            var x := Policy(arg, 0, Max(n), arg % Pow2(n), ow);
            && OnlyField(s, r.bytes, off, n)
            && (x == None ==> r == Outcome(s, None))
            && (x.Some? ==> r.reply == Some(Unsigned(s, off, n)))
            && (x.Some? ==> (Unsigned(r.bytes, off, n) == x.value <==> ow != Sat || arg >= 0))
  {
    UnsignedSetExact(arg, n, ow);
    SmallPow(n);
    Fits(arg);
    var check := CheckUnsigned(ToU64(arg), 0, n, ow);
    FinishUnsigned(s, Set, off, n, Unsigned(s, off, n), check, ToU64(arg), SetValue(check, ToU64(arg)));
  }
}
