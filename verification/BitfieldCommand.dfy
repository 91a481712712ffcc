/** A whole BITFIELD command: room for the farthest bit written, then its operations
    in order. */
module BitfieldCommand {
  import opened Bitpos
  import opened Bitfield
  import opened BitfieldOps
  import opened Options

  // -------- Operations --------

  datatype FieldOp =
    | Read(signed: bool, off: nat, n: nat)
    | Write(kind: Kind, signed: bool, off: nat, n: nat, arg: int, ow: Overflow)

  /** What the parser lets through: the widths, and 64-bit arguments. */
  predicate Parsed(op: FieldOp) {
    0 < op.n <= (if op.signed then 64 else 63) && (op.Write? ==> IsI64(op.arg))
  }

  predicate AllParsed(ops: seq<FieldOp>) { forall i :: 0 <= i < |ops| ==> Parsed(ops[i]) }

  /** A write stays inside the string. */
  predicate Runnable(op: FieldOp, size: nat) {
    0 < op.n <= (if op.signed then 64 else 63) && (op.Write? ==> op.off + op.n <= 8 * size)
  }

  predicate AllRunnable(ops: seq<FieldOp>, size: nat) { forall i :: 0 <= i < |ops| ==> Runnable(ops[i], size) }

  /** The field of an operation, as it is read. */
  function FieldOf(s: seq<bv8>, op: FieldOp, w: Machine): int
    requires op.n > 0
  {
    if op.signed then ReadSigned(s, op.off, op.n, w) else Unsigned(s, op.off, op.n)
  }

  function Step(s: seq<bv8>, op: FieldOp, w: Machine): (r: Outcome)
    requires Runnable(op, |s|)
    ensures |r.bytes| == |s|
  {
    match op
    case Read(_, _, _) => Outcome(s, Some(FieldOf(s, op, w)))
    case Write(kind, signed, off, n, arg, ow) =>
      if signed then ExecSigned(s, kind, off, n, arg, ow, w) else ExecUnsigned(s, kind, off, n, arg, ow)
  }

  /** The first k operations: the string they leave. */
  function Bytes(s: seq<bv8>, ops: seq<FieldOp>, k: nat, w: Machine): (t: seq<bv8>)
    requires k <= |ops| && AllRunnable(ops, |s|)
    ensures |t| == |s|
  {
    if k == 0 then s else Step(Bytes(s, ops, k - 1, w), ops[k - 1], w).bytes
  }

  /** The reply of each operation. */
  function Answers(s: seq<bv8>, ops: seq<FieldOp>, w: Machine): nat -> Option<int>
    requires AllRunnable(ops, |s|)
  {
    (i: nat) => if i < |ops| then Step(Bytes(s, ops, i, w), ops[i], w).reply else None
  }

  function First(f: nat -> Option<int>, k: nat): (rs: seq<Option<int>>)
    ensures |rs| == k && forall i :: 0 <= i < k ==> rs[i] == f(i)
  {
    seq(k, i requires 0 <= i < k => f(i))
  }

  /** The replies of the first k. */
  function Replies(s: seq<bv8>, ops: seq<FieldOp>, k: nat, w: Machine): (rs: seq<Option<int>>)
    requires k <= |ops| && AllRunnable(ops, |s|)
    ensures |rs| == k
  {
    First(Answers(s, ops, w), k)
  }

  predicate Covers(op: FieldOp, q: nat) { op.Write? && op.off <= q < op.off + op.n }

  lemma StepOnly(s: seq<bv8>, op: FieldOp, w: Machine, q: nat)
    requires Parsed(op) && Runnable(op, |s|) && !Covers(op, q)
    ensures Bit(Step(s, op, w).bytes, q) == Bit(s, q)
  {
    match op
    case Read(_, _, _) =>
    case Write(kind, signed, off, n, arg, ow) =>
      if signed && kind == Set { SetSigned(s, off, n, arg, ow, w); }
      else if signed { IncrBySigned(s, off, n, arg, ow, w); }
      else if kind == Set { SetUnsigned(s, off, n, arg, ow); }
      else { IncrByUnsigned(s, off, n, arg, ow); }
  }

  lemma LastOnly(s: seq<bv8>, ops: seq<FieldOp>, k: nat, w: Machine, q: nat)
    requires 0 < k <= |ops| && AllParsed(ops) && AllRunnable(ops, |s|) && !Covers(ops[k - 1], q)
    ensures Bit(Bytes(s, ops, k, w), q) == Bit(Bytes(s, ops, k - 1, w), q)
  {
    StepOnly(Bytes(s, ops, k - 1, w), ops[k - 1], w, q);
  }

  lemma {:induction false} BytesOnly(s: seq<bv8>, ops: seq<FieldOp>, k: nat, w: Machine, q: nat, t: seq<bv8>)
    requires k <= |ops| && AllParsed(ops) && AllRunnable(ops, |s|) && forall i :: 0 <= i < k ==> !Covers(ops[i], q)
    requires t == Bytes(s, ops, k, w)
    ensures Bit(t, q) == Bit(s, q)
  {
    if k > 0 {
      BytesOnly(s, ops, k - 1, w, q, Bytes(s, ops, k - 1, w));
      LastOnly(s, ops, k, w, q);
    }
  }

  // -------- Making room --------

  /** `lookupStringForBitCommand`: zeros up to the byte of the highest bit. */
  function Grown(s: seq<bv8>, maxbit: nat): (t: seq<bv8>)
    ensures |t| >= |s| && maxbit < 8 * |t|
  {
    var size := maxbit / 8 + 1;
    if size <= |s| then s else s + seq(size - |s|, i => 0)
  }

  lemma GrownBit(s: seq<bv8>, maxbit: nat, q: nat)
    ensures Bit(Grown(s, maxbit), q) == Bit(s, q)
  {
    SkipByte(0, true);
  }

  /** Growing changes no field, as fields past the end read zeros anyway. */
  lemma GrowthIsInvisible(s: seq<bv8>, maxbit: nat, off: nat, n: nat)
    ensures Unsigned(Grown(s, maxbit), off, n) == Unsigned(s, off, n)
  {
    forall q | off <= q < off + n ensures Bit(Grown(s, maxbit), q) == Bit(s, q - off + off) { GrownBit(s, maxbit, q); }
    SameBits(Grown(s, maxbit), s, off, off, n);
  }

  predicate ReadOnly(ops: seq<FieldOp>) { forall i :: 0 <= i < |ops| ==> ops[i].Read? }

  /** The last bit any of the operations writes. */
  function HighestWrite(ops: seq<FieldOp>): (top: nat)
    ensures forall op :: op in ops && op.Write? ==> op.off + op.n <= top + 1
  {
    if ops == [] then 0
    else
      var rest, op := HighestWrite(ops[..|ops| - 1]), ops[|ops| - 1];
      assert ops == ops[..|ops| - 1] + [op];
      if op.Write? && rest + 1 < op.off + op.n then op.off + op.n - 1 else rest
  }

  /** The string the operations run on. */
  function Room(s: seq<bv8>, ops: seq<FieldOp>): (t: seq<bv8>)
    requires AllParsed(ops)
    ensures AllRunnable(ops, |t|)
  {
    if ReadOnly(ops) then s else Grown(s, HighestWrite(ops))
  }

  /** A command changes no bit outside the fields it writes, of the string as it
      was with zeros behind it. */
  lemma CommandOnly(s: seq<bv8>, ops: seq<FieldOp>, w: Machine, q: nat)
    requires AllParsed(ops) && forall i :: 0 <= i < |ops| ==> !Covers(ops[i], q)
    ensures Bit(Bytes(Room(s, ops), ops, |ops|, w), q) == Bit(s, q)
  {
    BytesOnly(Room(s, ops), ops, |ops|, w, q, Bytes(Room(s, ops), ops, |ops|, w));
    if !ReadOnly(ops) { GrownBit(s, HighestWrite(ops), q); }
  }

  // -------- Replies --------

  /** What an operation replies where its field reads v. */
  function ReplyOf(v: int, op: FieldOp, w: Machine): Option<int>
    requires Parsed(op) && (!op.signed ==> v >= 0)
  {
    match op
    case Read(_, _, _) => Some(v)
    case Write(IncrBy, signed, _, n, arg, ow) =>
      if signed then SetValue(CheckSigned(v, arg, n, ow, w), ToI64(v + arg))
      else SetValue(CheckUnsigned(v, arg, n, ow), ToU64(v + arg))
    case Write(Set, signed, _, n, arg, ow) =>
      var x := if signed then SetValue(CheckSigned(arg, 0, n, ow, w), arg)
               else SetValue(CheckUnsigned(ToU64(arg), 0, n, ow), ToU64(arg));
      if x == None then None else Some(v)
  }

  lemma StepReply(s: seq<bv8>, op: FieldOp, w: Machine)
    requires Parsed(op) && Runnable(op, |s|)
    ensures Step(s, op, w).reply == ReplyOf(FieldOf(s, op, w), op, w)
  {}

  lemma SameField(s: seq<bv8>, t: seq<bv8>, op: FieldOp, w: Machine)
    requires op.n > 0 && forall q :: op.off <= q < op.off + op.n ==> Bit(s, q) == Bit(t, q)
    ensures FieldOf(s, op, w) == FieldOf(t, op, w)
  {
    forall q | op.off <= q < op.off + op.n ensures Bit(s, q) == Bit(t, q - op.off + op.off) {}
    SameBits(s, t, op.off, op.off, op.n);
  }

  /** An operation whose field no earlier one writes replies by what the string held
      there before the command, zeros past its end. */
  lemma CommandReply(s: seq<bv8>, ops: seq<FieldOp>, k: nat, w: Machine)
    requires AllParsed(ops) && k < |ops|
    requires forall i, q :: 0 <= i < k && ops[k].off <= q < ops[k].off + ops[k].n ==> !Covers(ops[i], q)
    ensures Replies(Room(s, ops), ops, |ops|, w)[k] == ReplyOf(FieldOf(s, ops[k], w), ops[k], w)
  {
    var room, op := Room(s, ops), ops[k];
    var t := Bytes(room, ops, k, w);
    forall q: nat | op.off <= q < op.off + op.n ensures Bit(t, q) == Bit(s, q) {
      BytesOnly(room, ops, k, w, q, Bytes(room, ops, k, w));
      if !ReadOnly(ops) { GrownBit(s, HighestWrite(ops), q); }
    }
    SameField(t, s, op, w);
    StepReply(t, op, w);
    assert Replies(room, ops, |ops|, w)[k] == Answers(room, ops, w)(k);
  }

  // -------- As executed --------

  /** `getSignedBitfield`. */
  method GetSignedBitfield(p: seq<bv8>, offset: nat, bits: nat, w: Machine) returns (value: int)
    requires 0 < bits <= 64 && offset + bits <= 8 * |p|
    ensures value == ReadSigned(p, offset, bits, w)
  {
    var u := GetUnsignedBitfield(p, offset, bits);
    SignBit(u, bits);
    SmallMod(u, Pow2(bits));
    Extended(u, bits);
    if !BitOf(u, bits - 1) {
      value := ToI64(u);
    } else {
      value := if Sound(bits, w) then ToI64(U64 - Pow2(bits) + u) else -1;
    }
  }

  /** The nine-byte copy holds the padded string from the field's byte on. */
  lemma BufferBits(s: seq<bv8>, buf: seq<bv8>, byte: nat, q: nat)
    requires |buf| == 9 && q < 72
    requires forall i :: 0 <= i < 9 ==> buf[i] == if byte + i < |s| then s[byte + i] else 0
    ensures Bit(buf, q) == Bit(s, 8 * byte + q)
  {
    assert (8 * byte + q) / 8 == byte + q / 8 && (8 * byte + q) % 8 == q % 8;
    SkipByte(0, true);
  }

  lemma BufferReads(s: seq<bv8>, buf: seq<bv8>, off: nat, n: nat)
    requires |buf| == 9 && n <= 64
    requires forall i :: 0 <= i < 9 ==> buf[i] == if off / 8 + i < |s| then s[off / 8 + i] else 0
    ensures Unsigned(buf, off - 8 * (off / 8), n) == Unsigned(s, off, n)
  {
    var byte := off / 8;
    forall q | off - 8 * byte <= q < off - 8 * byte + n ensures Bit(buf, q) == Bit(s, q - (off - 8 * byte) + off) {
      BufferBits(s, buf, byte, q);
    }
    SameBits(buf, s, off - 8 * byte, off, n);
  }

  /** The copy. */
  method Buffer(src: seq<bv8>, byte: nat) returns (buf: seq<bv8>)
    ensures |buf| == 9 && forall i :: 0 <= i < 9 ==> buf[i] == if byte + i < |src| then src[byte + i] else 0
  {
    var b := new bv8[9](_ => 0);
    var i := 0;
    while i < 9 && byte + i < |src|
      invariant 0 <= i <= 9 && (i > 0 ==> byte + i <= |src|)
      invariant forall k :: 0 <= k < i ==> b[k] == src[byte + k]
      invariant forall k :: i <= k < 9 ==> b[k] == 0
    {
      b[i] := src[byte + i];
      i := i + 1;
    }
    buf := b[..];
  }

  lemma SameRead(s: seq<bv8>, t: seq<bv8>, off: nat, to: nat, n: nat, w: Machine)
    requires n > 0 && Unsigned(s, off, n) == Unsigned(t, to, n)
    ensures ReadSigned(s, off, n, w) == ReadSigned(t, to, n, w)
  {}

  /** GET through the buffer reads the string as if zeros followed it. */
  method Get(src: seq<bv8>, signed: bool, off: nat, n: nat, w: Machine) returns (val: int)
    requires 0 < n <= (if signed then 64 else 63)
    ensures val == if signed then ReadSigned(src, off, n, w) else Unsigned(src, off, n)
  {
    var byte := off / 8;
    var at := off - 8 * byte;
    var buf := Buffer(src, byte);
    BufferReads(src, buf, off, n);
    if signed {
      val := GetSignedBitfield(buf, at, n, w);
      SameRead(buf, src, at, off, n, w);
    } else {
      val := GetUnsignedBitfield(buf, at, n);
    }
  }

  /** The writing part of both code paths. */
  method Store(p: array<bv8>, kind: Kind, off: nat, n: nat, oldval: int, check: Check, plain: int, ow: Overflow)
      returns (reply: Option<int>)
    requires off + n <= 8 * p.Length && (check.code != 0 ==> (check.limit == None <==> ow == Fail))
    modifies p
    ensures p[..] == Finish(old(p[..]), kind, off, n, oldval, check, plain).bytes
    ensures reply == Finish(old(p[..]), kind, off, n, oldval, check, plain).reply
  {
    if check.code != 0 && ow == Fail { return None; }
    var newval := if check.code != 0 then check.limit.value else plain;
    reply := Some(if kind == IncrBy then newval else oldval);
    SetUnsignedBitfield(p, off, n, ToU64(newval));
  }

  method WriteSigned(p: array<bv8>, kind: Kind, off: nat, n: nat, arg: int, ow: Overflow, w: Machine)
      returns (reply: Option<int>)
    requires 0 < n <= 64 && off + n <= 8 * p.Length
    modifies p
    ensures Outcome(p[..], reply) == ExecSigned(old(p[..]), kind, off, n, arg, ow, w)
  {
    var oldval := GetSignedBitfield(p[..], off, n, w);
    if kind == IncrBy {
      reply := Store(p, kind, off, n, oldval, CheckSigned(oldval, arg, n, ow, w), ToI64(oldval + arg), ow);
    } else {
      reply := Store(p, kind, off, n, oldval, CheckSigned(arg, 0, n, ow, w), arg, ow);
    }
  }

  method WriteUnsigned(p: array<bv8>, kind: Kind, off: nat, n: nat, arg: int, ow: Overflow)
      returns (reply: Option<int>)
    requires 0 < n <= 63 && off + n <= 8 * p.Length
    modifies p
    ensures Outcome(p[..], reply) == ExecUnsigned(old(p[..]), kind, off, n, arg, ow)
  {
    var oldval := GetUnsignedBitfield(p[..], off, n);
    if kind == IncrBy {
      reply := Store(p, kind, off, n, oldval, CheckUnsigned(oldval, arg, n, ow), ToU64(oldval + arg), ow);
    } else {
      reply := Store(p, kind, off, n, oldval, CheckUnsigned(ToU64(arg), 0, n, ow), ToU64(arg), ow);
    }
  }

  /** One operation of the command on the string in place. */
  method Execute(p: array<bv8>, op: FieldOp, w: Machine) returns (reply: Option<int>)
    requires Runnable(op, p.Length)
    modifies p
    ensures Outcome(p[..], reply) == Step(old(p[..]), op, w)
  {
    match op
    case Read(signed, off, n) =>
      var val := Get(p[..], signed, off, n, w);
      reply := Some(val);
    case Write(kind, signed, off, n, arg, ow) =>
      if signed {
        reply := WriteSigned(p, kind, off, n, arg, ow, w);
      } else {
        reply := WriteUnsigned(p, kind, off, n, arg, ow);
      }
  }

  /** The execution loop of `bitfieldCommand`. */
  method ExecuteAll(p: array<bv8>, ops: seq<FieldOp>, w: Machine) returns (replies: seq<Option<int>>)
    requires AllRunnable(ops, p.Length)
    modifies p
    ensures p[..] == Bytes(old(p[..]), ops, |ops|, w) && replies == Replies(old(p[..]), ops, |ops|, w)
  {
    ghost var s := p[..];
    ghost var f := Answers(s, ops, w);
    replies := [];
    var j := 0;
    while j < |ops|
      invariant 0 <= j <= |ops| && p[..] == Bytes(s, ops, j, w) && replies == First(f, j)
    {
      ghost var was := p[..];
      var reply := Execute(p, ops[j], w);
      Next(s, ops, j, w, was, p[..], reply);
      FirstSnoc(f, j);
      replies := replies + [reply];
      j := j + 1;
    }
  }

  lemma FirstSnoc(f: nat -> Option<int>, k: nat)
    ensures First(f, k + 1) == First(f, k) + [f(k)]
  {}

  lemma Next(s: seq<bv8>, ops: seq<FieldOp>, k: nat, w: Machine, was: seq<bv8>, now: seq<bv8>, reply: Option<int>)
    requires k < |ops| && AllRunnable(ops, |s|) && was == Bytes(s, ops, k, w)
    requires Outcome(now, reply) == Step(was, ops[k], w)
    ensures now == Bytes(s, ops, k + 1, w) && reply == Answers(s, ops, w)(k)
  {}

  /** The part of the parsing loop that decides how far the string must reach. */
  method Reach(ops: seq<FieldOp>) returns (readonly: bool, top: nat)
    requires AllParsed(ops)
    ensures (readonly <==> ReadOnly(ops)) && top == HighestWrite(ops)
  {
    readonly, top := true, 0;
    var j := 0;
    while j < |ops|
      invariant 0 <= j <= |ops| && (readonly <==> ReadOnly(ops[..j])) && top == HighestWrite(ops[..j])
    {
      assert ops[..j + 1][..j] == ops[..j];
      if ops[j].Write? {
        readonly := false;
        if top < ops[j].off + ops[j].n - 1 { top := ops[j].off + ops[j].n - 1; }
      }
      j := j + 1;
    }
    assert ops[..j] == ops;
  }

  /** The command after parsing: room, then the operations. */
  method Command(s: seq<bv8>, ops: seq<FieldOp>, w: Machine) returns (t: seq<bv8>, replies: seq<Option<int>>)
    requires AllParsed(ops)
    ensures t == Bytes(Room(s, ops), ops, |ops|, w) && replies == Replies(Room(s, ops), ops, |ops|, w)
  {
    var readonly, top := Reach(ops);
    var room := if readonly then s else Grown(s, top);
    var p := new bv8[|room|](i requires 0 <= i < |room| => room[i]);
    assert p[..] == room;
    replies := ExecuteAll(p, ops, w);
    t := p[..];
  }
}
