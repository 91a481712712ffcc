/** The append-only file as bytes: printing commands and loading them back. */
module AofCodec {

  type byte = x: int | 0 <= x < 256
  type Bytes = seq<byte>
  type Command = seq<Bytes>

  const LF: byte := 10
  const CR: byte := 13
  const CRLF: Bytes := [CR, LF]
  const STAR: byte := 42
  const DOLLAR: byte := 36
  const LINE_MAX := 127           // fgets into a 128 byte buffer
  const INT_MAX := 0x7fff_ffff
  const LONG_MAX := 0x7fff_ffff_ffff_ffff

  // -------- Decimal numbers --------

  predicate IsDigit(b: byte) { 48 <= b <= 57 }

  function Digits(n: nat): (s: Bytes)
    ensures |s| >= 1 && forall i :: 0 <= i < |s| ==> IsDigit(s[i])
    ensures n >= 1 ==> s[0] != 48
  {
    if n < 10 then [(48 + n) as byte] else Digits(n / 10) + [(48 + n % 10) as byte]
  }

  /** The value of the leading digits, continuing from `acc`. */
  function Value(s: Bytes, acc: nat): (v: nat)
    ensures v >= acc
  {
    if s == [] || !IsDigit(s[0]) then acc else Value(s[1..], 10 * acc + (s[0] - 48))
  }

  predicate IsSpace(b: byte) { b == 32 || 9 <= b <= 13 }

  function SkipSpaces(s: Bytes): Bytes {
    if s != [] && IsSpace(s[0]) then SkipSpaces(s[1..]) else s
  }

  /** `strtol` and `atoi` on the text that follows the type byte. */
  function StrToL(s: Bytes): int {
    var t := SkipSpaces(s);
    if t != [] && t[0] == 45 then 0 - Value(t[1..], 0)
    else if t != [] && t[0] == 43 then Value(t[1..], 0)
    else Value(t, 0)
  }

  lemma {:induction false} ValueAppend(s: Bytes, t: Bytes, acc: nat)
    requires forall i :: 0 <= i < |s| ==> IsDigit(s[i])
    ensures Value(s + t, acc) == Value(t, Value(s, acc))
    decreases |s|
  {
    if s == [] {
      assert s + t == t;
    } else {
      assert (s + t)[1..] == s[1..] + t;
      ValueAppend(s[1..], t, 10 * acc + (s[0] - 48));
    }
  }

  lemma {:induction false} ValueOfDigits(n: nat)
    ensures Value(Digits(n), 0) == n
  {
    if n >= 10 {
      ValueOfDigits(n / 10);
      var last := [(48 + n % 10) as byte];
      ValueAppend(Digits(n / 10), last, 0);
      assert last[1..] == [];
    }
  }

  lemma StrToLOfDigits(n: nat, tail: Bytes)
    requires tail == [] || !IsDigit(tail[0])
    ensures StrToL(Digits(n) + tail) == n
  {
    ValueOfDigits(n);
    ValueAppend(Digits(n), tail, 0);
  }

  lemma {:induction false} DigitsLength(n: nat, k: nat)
    requires n < Pow10(k + 1)
    ensures |Digits(n)| <= k + 1
    decreases k
  {
    if n >= 10 && k > 0 { DigitsLength(n / 10, k - 1); }
  }

  function Pow10(k: nat): nat { if k == 0 then 1 else 10 * Pow10(k - 1) }

  lemma HeaderFits(n: nat)
    requires n <= LONG_MAX
    ensures |Digits(n)| <= 19
  {
    assert Pow10(4) == 10000;
    assert Pow10(8) == 100000000;
    assert Pow10(12) == 1000000000000;
    assert Pow10(16) == 10000000000000000;
    assert Pow10(19) == 10000000000000000000;
    DigitsLength(n, 18);
  }

  // -------- Printing --------

  function Header(kind: byte, n: nat): (s: Bytes)
    ensures |s| >= 4 && s[0] == kind
  {
    [kind] + Digits(n) + CRLF
  }

  function PrintArg(a: Bytes): (s: Bytes)
    ensures |s| >= |a| + 6
  {
    Header(DOLLAR, |a|) + a + CRLF
  }

  function PrintArgs(args: seq<Bytes>): Bytes {
    if args == [] then [] else PrintArg(args[0]) + PrintArgs(args[1..])
  }

  function Print(c: Command): (s: Bytes)
    ensures |s| >= 4 && s[0] == STAR
  {
    Header(STAR, |c|) + PrintArgs(c)
  }

  function PrintAll(cs: seq<Command>): Bytes {
    if cs == [] then [] else Print(cs[0]) + PrintAll(cs[1..])
  }

  /** What the C types allow: `int argc`, at least the command name, and
      lengths that fit a long. */
  predicate Printable(c: Command) {
    1 <= |c| <= INT_MAX && forall i :: 0 <= i < |c| ==> |c[i]| <= LONG_MAX
  }

  predicate AllPrintable(cs: seq<Command>) {
    forall i :: 0 <= i < |cs| ==> Printable(cs[i])
  }

  lemma {:induction false} PrintArgsAppend(a: seq<Bytes>, b: seq<Bytes>)
    ensures PrintArgs(a + b) == PrintArgs(a) + PrintArgs(b)
  {
    if a == [] {
      assert a + b == b;
    } else {
      assert (a + b)[1..] == a[1..] + b;
      PrintArgsAppend(a[1..], b);
    }
  }

  lemma PrintArgsSnoc(a: seq<Bytes>, x: Bytes)
    ensures PrintArgs(a + [x]) == PrintArgs(a) + PrintArg(x)
  {
    var one: seq<Bytes> := [x];
    assert one[1..] == [];
    PrintArgsAppend(a, one);
  }

  lemma {:induction false} PrintAllAppend(a: seq<Command>, b: seq<Command>)
    ensures PrintAll(a + b) == PrintAll(a) + PrintAll(b)
  {
    if a == [] {
      assert a + b == b;
    } else {
      assert (a + b)[1..] == a[1..] + b;
      PrintAllAppend(a[1..], b);
    }
  }

  /** `catAppendOnlyGenericCommand`. */
  method CatCommand(dst: Bytes, argv: Command) returns (r: Bytes)
    ensures r == dst + Print(argv)
  {
    r := dst + ([STAR] + Digits(|argv|) + CRLF);
    ghost var base := r;
    assert argv[..0] == [];
    for j := 0 to |argv|
      invariant r == base + PrintArgs(argv[..j])
    {
      r := r + ([DOLLAR] + Digits(|argv[j]|) + CRLF) + argv[j] + CRLF;
      AppendArg(base, argv[..j], argv[j]);
      assert argv[..j + 1] == argv[..j] + [argv[j]];
    }
    assert argv[..|argv|] == argv;
    assert base + PrintArgs(argv) == dst + Print(argv);
  }

  lemma AppendArg(base: Bytes, done: seq<Bytes>, x: Bytes)
    ensures base + PrintArgs(done) + ([DOLLAR] + Digits(|x|) + CRLF) + x + CRLF == base + PrintArgs(done + [x])
  {
    PrintArgsSnoc(done, x);
  }

  // -------- Reading --------

  /** One `fgets`: up to LINE_MAX bytes, ending after a newline. */
  datatype Line = NoLine | Line(text: Bytes, rest: Bytes, hitEof: bool)

  function LineLength(s: Bytes, limit: nat): (n: nat)
    ensures n <= |s| && n <= limit
    ensures s != [] && limit > 0 ==> n > 0
  {
    if limit == 0 || s == [] then 0
    else if s[0] == LF then 1
    else 1 + LineLength(s[1..], limit - 1)
  }

  function Fgets(s: Bytes): (l: Line)
    ensures l.Line? <==> s != []
    ensures l.Line? ==> l.text + l.rest == s && |l.rest| < |s| && l.text != []
  {
    if s == [] then NoLine
    else
      var n := LineLength(s, LINE_MAX);
      Line(s[..n], s[n..], n == |s| && n < LINE_MAX && s[n - 1] != LF)
  }

  /** Why reading a command stopped short of one. */
  datatype Stop = ShortRead | ReadError | BadFormat | NoMemory

  datatype ArgRead = Arg(value: Bytes, rest: Bytes) | NoArg(why: Stop)

  /** One `$<len>` line, `len` bytes, and two bytes discarded unread. */
  function ReadArg(s: Bytes): (r: ArgRead)
    ensures r.Arg? ==> |r.rest| < |s|
  {
    var l := Fgets(s);
    if l.NoLine? then NoArg(ShortRead)
    else if l.text[0] != DOLLAR then NoArg(BadFormat)
    else
      var len := StrToL(l.text[1..]);
      if len < 0 then NoArg(NoMemory)
      else if |l.rest| < len then NoArg(ShortRead)
      else if |l.rest| < len + 2 then NoArg(ShortRead)
      else Arg(l.rest[..len], l.rest[len + 2..])
  }

  datatype ArgsRead = Args(values: seq<Bytes>, rest: Bytes) | NoArgs(why: Stop)

  function ReadArgs(s: Bytes, count: nat): (r: ArgsRead)
    ensures r.Args? ==> |r.values| == count && |r.rest| <= |s|
    decreases count
  {
    if count == 0 then Args([], s)
    else
      var a := ReadArg(s);
      if a.NoArg? then NoArgs(a.why)
      else
        var more := ReadArgs(a.rest, count - 1);
        if more.NoArgs? then more else Args([a.value] + more.values, more.rest)
  }

  datatype CommandRead = Got(argv: Command, rest: Bytes) | AtEnd | NoCommand(why: Stop)

  function ReadCommand(s: Bytes): (r: CommandRead)
    ensures r.Got? ==> |r.rest| < |s| && |r.argv| >= 1
    ensures r.AtEnd? <==> s == []
  {
    var l := Fgets(s);
    if l.NoLine? then AtEnd
    else if l.text[0] != STAR then NoCommand(BadFormat)
    else if |l.text| == 1 || l.text[1] == 0 then NoCommand(if l.hitEof then ShortRead else ReadError)
    else
      var argc := StrToL(l.text[1..]);
      if argc < 1 then NoCommand(BadFormat)
      else
        var a := ReadArgs(l.rest, argc);
        if a.NoArgs? then NoCommand(a.why) else Got(a.values, a.rest)
  }

  /** How loading ended: at a clean end of file, or why not. */
  datatype Ending = Clean | UnknownCommand | Stopped(why: Stop)

  /** The commands run, the bytes they took, and how it ended. */
  datatype Loaded = Loaded(ran: seq<Command>, validUpTo: nat, ending: Ending)

  function LoadFrom(s: Bytes, known: Bytes -> bool): (r: Loaded)
    ensures r.validUpTo <= |s|
    decreases |s|
  {
    var c := ReadCommand(s);
    match c
    case AtEnd => Loaded([], 0, Clean)
    case NoCommand(why) => Loaded([], 0, Stopped(why))
    case Got(argv, rest) =>
      if !known(argv[0]) then Loaded([], 0, UnknownCommand)
      else
        var more := LoadFrom(rest, known);
        Loaded([argv] + more.ran, (|s| - |rest|) + more.validUpTo, more.ending)
  }

  // -------- Reading back what was printed --------

  lemma {:induction false} LineLengthAt(t: Bytes, rest: Bytes, limit: nat)
    requires forall i :: 0 <= i < |t| ==> t[i] != LF
    requires |t| < limit
    ensures LineLength(t + [LF] + rest, limit) == |t| + 1
  {
    var s := t + [LF] + rest;
    if t != [] {
      assert s[1..] == t[1..] + [LF] + rest;
      LineLengthAt(t[1..], rest, limit - 1);
    }
  }

  lemma {:induction false} LineLengthAll(t: Bytes, limit: nat)
    requires forall i :: 0 <= i < |t| ==> t[i] != LF
    requires |t| <= limit
    ensures LineLength(t, limit) == |t|
  {
    if t != [] { LineLengthAll(t[1..], limit - 1); }
  }

  lemma FgetsHeader(kind: byte, n: nat, rest: Bytes)
    requires n <= LONG_MAX && kind != LF
    ensures Fgets(Header(kind, n) + rest) == Line(Header(kind, n), rest, false)
    ensures StrToL(Header(kind, n)[1..]) == n
  {
    HeaderFits(n);
    var t := [kind] + Digits(n) + [CR];
    assert Header(kind, n) == t + [LF];
    LineLengthAt(t, rest, LINE_MAX);
    assert Header(kind, n)[1..] == Digits(n) + CRLF;
    StrToLOfDigits(n, CRLF);
  }

  lemma ReadArgPrinted(a: Bytes, rest: Bytes)
    requires |a| <= LONG_MAX
    ensures ReadArg(PrintArg(a) + rest) == Arg(a, rest)
  {
    var tail := a + CRLF + rest;
    assert PrintArg(a) + rest == Header(DOLLAR, |a|) + tail;
    FgetsHeader(DOLLAR, |a|, tail);
  }

  lemma {:induction false} ReadArgsPrinted(args: seq<Bytes>, rest: Bytes)
    requires forall i :: 0 <= i < |args| ==> |args[i]| <= LONG_MAX
    ensures ReadArgs(PrintArgs(args) + rest, |args|) == Args(args, rest)
    decreases |args|
  {
    if args == [] {
      assert PrintArgs(args) + rest == rest;
    } else {
      var tail := PrintArgs(args[1..]) + rest;
      assert PrintArgs(args) + rest == PrintArg(args[0]) + tail;
      ReadArgPrinted(args[0], tail);
      ReadArgsPrinted(args[1..], rest);
      assert args == [args[0]] + args[1..];
    }
  }

  /** Reading undoes printing, whatever bytes the arguments hold. */
  lemma ReadPrinted(c: Command, rest: Bytes)
    requires Printable(c)
    ensures ReadCommand(Print(c) + rest) == Got(c, rest)
  {
    var tail := PrintArgs(c) + rest;
    assert Print(c) + rest == Header(STAR, |c|) + tail;
    FgetsHeader(STAR, |c|, tail);
    ReadArgsPrinted(c, rest);
    assert Header(STAR, |c|)[1] == Digits(|c|)[0];
  }

  // -------- Cutting the file anywhere --------

  lemma CutHeader(kind: byte, n: nat, m: nat)
    requires n <= LONG_MAX && kind != LF && 1 <= m <= |Header(kind, n)|
    ensures var t := Header(kind, n)[..m];
            && Fgets(t) == Line(t, [], m < |Header(kind, n)|)
            && StrToL(t[1..]) >= 0
            && (n >= 1 && m >= 2 ==> StrToL(t[1..]) >= 1 && t[1] != 0)
  {
    var h := Header(kind, n);
    var t := h[..m];
    HeaderFits(n);
    if m == |h| {
      assert t == h && h + [] == h;
      FgetsHeader(kind, n, []);
      assert h[1] == Digits(n)[0];
    } else {
      assert forall i :: 0 <= i < m ==> t[i] != LF;
      LineLengthAll(t, LINE_MAX);
      assert t[..m] == t && t[m..] == [];
      if m >= 2 {
        assert t[1] == Digits(n)[0];
        assert t[1..][0] == t[1];
      }
    }
  }

  lemma ReadArgCut(a: Bytes, m: nat)
    requires |a| <= LONG_MAX && m < |PrintArg(a)|
    ensures ReadArg(PrintArg(a)[..m]) == NoArg(ShortRead)
  {
    var h := Header(DOLLAR, |a|);
    var t := PrintArg(a)[..m];
    if m == 0 {
      assert t == [];
    } else if m <= |h| {
      assert t == h[..m];
      CutHeader(DOLLAR, |a|, m);
    } else {
      var tail := (a + CRLF)[..m - |h|];
      assert t == h + tail;
      FgetsHeader(DOLLAR, |a|, tail);
    }
  }

  lemma CutFirst(a: Bytes, more: Bytes, m: nat, count: nat)
    requires |a| <= LONG_MAX && m < |PrintArg(a)| && count >= 1
    ensures ReadArgs((PrintArg(a) + more)[..m], count) == NoArgs(ShortRead)
  {
    assert (PrintArg(a) + more)[..m] == PrintArg(a)[..m];
    ReadArgCut(a, m);
  }

  lemma CutLater(a: Bytes, more: Bytes, m: nat, count: nat)
    requires |a| <= LONG_MAX && |PrintArg(a)| <= m <= |PrintArg(a)| + |more| && count >= 1
    requires ReadArgs(more[..m - |PrintArg(a)|], count - 1) == NoArgs(ShortRead)
    ensures ReadArgs((PrintArg(a) + more)[..m], count) == NoArgs(ShortRead)
  {
    var rest := more[..m - |PrintArg(a)|];
    assert (PrintArg(a) + more)[..m] == PrintArg(a) + rest;
    ReadArgPrinted(a, rest);
  }

  lemma {:induction false} ReadArgsCut(args: seq<Bytes>, m: nat)
    requires forall i :: 0 <= i < |args| ==> |args[i]| <= LONG_MAX
    requires m < |PrintArgs(args)|
    ensures ReadArgs(PrintArgs(args)[..m], |args|) == NoArgs(ShortRead)
    decreases |args|
  {
    var n := |PrintArg(args[0])|;
    if m < n {
      CutFirst(args[0], PrintArgs(args[1..]), m, |args|);
    } else {
      ReadArgsCut(args[1..], m - n);
      CutLater(args[0], PrintArgs(args[1..]), m, |args|);
    }
  }

  /** A command cut anywhere inside is a short read, never a wrong command. */
  lemma ReadCut(c: Command, m: nat)
    requires Printable(c) && 0 < m < |Print(c)|
    ensures ReadCommand(Print(c)[..m]) == NoCommand(ShortRead)
  {
    var h := Header(STAR, |c|);
    var t := Print(c)[..m];
    if m <= |h| {
      assert t == h[..m];
      CutHeader(STAR, |c|, m);
      if m >= 2 { ShortOfArgs(StrToL(t[1..])); }
    } else {
      var tail := PrintArgs(c)[..m - |h|];
      assert t == h + tail;
      FgetsHeader(STAR, |c|, tail);
      assert h[1] == Digits(|c|)[0];
      ReadArgsCut(c, m - |h|);
    }
  }

  lemma ShortOfArgs(count: nat)
    requires count >= 1
    ensures ReadArgs([], count) == NoArgs(ShortRead)
  {}

  /** How many leading commands lie wholly within the first k bytes. */
  function Whole(cs: seq<Command>, k: nat): (n: nat)
    ensures n <= |cs|
  {
    if cs == [] || k < |Print(cs[0])| then 0 else 1 + Whole(cs[1..], k - |Print(cs[0])|)
  }

  predicate AllKnown(cs: seq<Command>, known: Bytes -> bool)
    requires AllPrintable(cs)
  {
    forall i :: 0 <= i < |cs| ==> known(cs[i][0])
  }

  lemma LoadStep(c: Command, tail: Bytes, known: Bytes -> bool)
    requires Printable(c) && known(c[0])
    ensures var more := LoadFrom(tail, known);
            LoadFrom(Print(c) + tail, known) == Loaded([c] + more.ran, |Print(c)| + more.validUpTo, more.ending)
  {
    ReadPrinted(c, tail);
  }

  lemma PrintAllCons(c: Command, cs: seq<Command>)
    ensures PrintAll([c] + cs) == Print(c) + PrintAll(cs)
  {
    assert ([c] + cs)[1..] == cs;
  }

  lemma {:induction false} WholeIsLongest(cs: seq<Command>, k: nat)
    requires k <= |PrintAll(cs)|
    ensures var n := Whole(cs, k);
            |PrintAll(cs[..n])| <= k && (n < |cs| ==> k < |PrintAll(cs[..n])| + |Print(cs[n])|)
    decreases |cs|
  {
    var n := Whole(cs, k);
    if cs != [] && k >= |Print(cs[0])| {
      var rest := cs[1..];
      WholeIsLongest(rest, k - |Print(cs[0])|);
      assert cs[..n] == [cs[0]] + rest[..n - 1];
      PrintAllCons(cs[0], rest[..n - 1]);
    } else {
      assert cs[..n] == [];
    }
  }

  function CutLoaded(cs: seq<Command>, k: nat): Loaded {
    var whole := cs[..Whole(cs, k)];
    Loaded(whole, |PrintAll(whole)|, if |PrintAll(whole)| == k then Clean else Stopped(ShortRead))
  }

  lemma CutLoadedCons(cs: seq<Command>, k: nat)
    requires cs != [] && k >= |Print(cs[0])|
    ensures var p := |Print(cs[0])|;
            var more := CutLoaded(cs[1..], k - p);
            CutLoaded(cs, k) == Loaded([cs[0]] + more.ran, p + more.validUpTo, more.ending)
  {
    var n := Whole(cs, k);
    assert cs[..n] == [cs[0]] + cs[1..][..n - 1];
    PrintAllCons(cs[0], cs[1..][..n - 1]);
  }

  lemma SliceConcat(a: Bytes, b: Bytes, k: nat)
    requires k <= |a| + |b|
    ensures k < |a| ==> (a + b)[..k] == a[..k]
    ensures k >= |a| ==> (a + b)[..k] == a + b[..k - |a|]
  {}

  lemma LoadHead(c: Command, k: nat, known: Bytes -> bool)
    requires Printable(c) && 0 < k < |Print(c)|
    ensures LoadFrom(Print(c)[..k], known) == Loaded([], 0, Stopped(ShortRead))
  {
    ReadCut(c, k);
  }

  lemma NoneWhole(cs: seq<Command>, k: nat)
    requires cs == [] || k < |Print(cs[0])|
    ensures CutLoaded(cs, k) == Loaded([], 0, if k == 0 then Clean else Stopped(ShortRead))
  {
    assert cs[..Whole(cs, k)] == [];
  }

  /** Wherever the log is cut, the loader runs exactly the commands wholly
      before the cut and reports the bytes they took; the ending is clean iff
      the cut falls between commands. */
  lemma {:induction false} LoadCut(cs: seq<Command>, k: nat, known: Bytes -> bool)
    requires AllPrintable(cs) && AllKnown(cs, known) && k <= |PrintAll(cs)|
    ensures LoadFrom(PrintAll(cs)[..k], known) == CutLoaded(cs, k)
    decreases |cs|
  {
    if cs == [] {
      NoneWhole(cs, k);
    } else {
      var p, rest := Print(cs[0]), PrintAll(cs[1..]);
      SliceConcat(p, rest, k);
      if k < |p| {
        NoneWhole(cs, k);
        if k > 0 { LoadHead(cs[0], k, known); }
      } else {
        LoadStep(cs[0], rest[..k - |p|], known);
        LoadCut(cs[1..], k - |p|, known);
        CutLoadedCons(cs, k);
      }
    }
  }

  /** Uncut, the whole log is read back. */
  lemma LoadPrinted(cs: seq<Command>, known: Bytes -> bool)
    requires AllPrintable(cs) && AllKnown(cs, known)
    ensures LoadFrom(PrintAll(cs), known) == Loaded(cs, |PrintAll(cs)|, Clean)
  {
    var all := PrintAll(cs);
    assert all[..|all|] == all;
    LoadCut(cs, |all|, known);
    WholeAll(cs);
    assert cs[..|cs|] == cs;
  }

  lemma {:induction false} WholeAll(cs: seq<Command>)
    ensures Whole(cs, |PrintAll(cs)|) == |cs|
  {
    if cs != [] { WholeAll(cs[1..]); }
  }

  // -------- The loader as the server runs it --------

  /** The whole of `loadAppendOnlyFile` after the file is open: an empty file is
      a valid one; a file that starts with an RDB preamble is not read here. */
  datatype LoadOutcome = EmptyFile | RdbPreamble | Ok(ran: seq<Command>, keep: nat) | Fatal(ran: seq<Command>)

  const REDIS: Bytes := [82, 69, 68, 73, 83]

  function LoadFile(f: Bytes, tolerant: bool, known: Bytes -> bool): LoadOutcome {
    if f == [] then EmptyFile
    else if |f| >= 5 && f[..5] == REDIS then RdbPreamble
    else
      var l := LoadFrom(f, known);
      if l.ending == Clean then Ok(l.ran, |f|)
      else if l.ending == Stopped(ShortRead) && tolerant then Ok(l.ran, l.validUpTo)
      else Fatal(l.ran)
  }

  /** In truncation-tolerant mode every cut of a printed log loads, runs exactly
      the commands wholly before the cut, and truncates the file to them. */
  lemma TolerantLoadOfCut(cs: seq<Command>, k: nat, known: Bytes -> bool)
    requires AllPrintable(cs) && AllKnown(cs, known) && 0 < k <= |PrintAll(cs)|
    ensures var n := Whole(cs, k);
            LoadFile(PrintAll(cs)[..k], true, known) == Ok(cs[..n], |PrintAll(cs[..n])|)
  {
    LoadCut(cs, k, known);
    var f := PrintAll(cs)[..k];
    assert f[0] == STAR;
    if |f| >= 5 { assert f[..5][0] == STAR; }
  }

  /** `known` command names and the file being loaded, read through a position. */
  class Loader {
    const file: Bytes
    var pos: nat

    constructor (file: Bytes)
      ensures this.file == file && pos == 0
    {
      this.file, pos := file, 0;
    }

    ghost predicate Valid() reads this { pos <= |file| }

    function Rest(): Bytes
      reads this
      requires Valid()
    {
      file[pos..]
    }

    method GetLine() returns (l: Line)
      requires Valid()
      modifies this
      ensures Valid() && l == Fgets(old(Rest()))
      ensures Rest() == if l.Line? then l.rest else old(Rest())
    {
      if pos == |file| { return NoLine; }
      var start, n := pos, 0;
      while n < LINE_MAX && start + n < |file| && (n == 0 || file[start + n - 1] != LF)
        invariant n <= LINE_MAX && start + n <= |file|
        invariant forall j :: start <= j < start + n - 1 ==> file[j] != LF
      {
        n := n + 1;
      }
      assert forall i :: 0 <= i < n ==> file[start..][i] == file[start + i];
      LineLengthIs(file[start..], n);
      pos := start + n;
      assert file[start..][..n] == file[start..pos] && file[start..][n..] == file[pos..];
      l := Line(file[start..pos], file[pos..], pos == |file| && n < LINE_MAX && file[pos - 1] != LF);
    }

    method GetArg() returns (r: ArgRead)
      requires Valid()
      modifies this
      ensures Valid() && r == ReadArg(old(Rest()))
      ensures r.Arg? ==> Rest() == r.rest
    {
      var l := GetLine();
      if l.NoLine? { return NoArg(ShortRead); }
      if l.text[0] != DOLLAR { return NoArg(BadFormat); }
      var len := StrToL(l.text[1..]);
      if len < 0 { return NoArg(NoMemory); }
      if |file| - pos < len { return NoArg(ShortRead); }
      var value := file[pos..pos + len];
      assert value == Rest()[..len];
      if |file| - pos < len + 2 { return NoArg(ShortRead); }
      ghost var at := Rest();
      pos := pos + len + 2;
      assert at[len + 2..] == Rest();
      return Arg(value, file[pos..]);
    }

    method GetCommand() returns (r: CommandRead)
      requires Valid()
      modifies this
      ensures Valid() && r == ReadCommand(old(Rest()))
      ensures r.Got? ==> Rest() == r.rest
    {
      var l := GetLine();
      if l.NoLine? { return AtEnd; }
      if l.text[0] != STAR { return NoCommand(BadFormat); }
      if |l.text| == 1 || l.text[1] == 0 { return NoCommand(if l.hitEof then ShortRead else ReadError); }
      var argc := StrToL(l.text[1..]);
      if argc < 1 { return NoCommand(BadFormat); }
      var a := GetArgs(argc);
      return if a.NoArgs? then NoCommand(a.why) else Got(a.values, a.rest);
    }

    method GetArgs(argc: nat) returns (r: ArgsRead)
      requires Valid()
      modifies this
      ensures Valid() && r == ReadArgs(old(Rest()), argc)
      ensures r.Args? ==> Rest() == r.rest
    {
      var argv := [];
      ghost var all := ReadArgs(Rest(), argc);
      for j := 0 to argc
        invariant Valid() && |argv| == j
        invariant all == Prepend(argv, ReadArgs(Rest(), argc - j))
      {
        ghost var here := Rest();
        var a := GetArg();
        NextArg(all, argv, here, argc - j, a);
        if a.NoArg? { return NoArgs(a.why); }
        argv := argv + [a.value];
      }
      PrependNone(argv, Rest());
      return Args(argv, file[pos..]);
    }

    /** The main loop: run every command up to the first that cannot be read. */
    method Load(known: Bytes -> bool) returns (r: Loaded)
      requires pos == 0
      modifies this
      ensures r == LoadFrom(file, known)
    {
      var ran, validUpTo := [], 0;
      assert file[0..] == file;
      while true
        invariant Valid() && validUpTo == pos
        invariant LoadFrom(file, known) == After(ran, validUpTo, LoadFrom(Rest(), known))
        decreases |file| - pos
      {
        ghost var here := Rest();
        var c := GetCommand();
        if c.AtEnd? { return Loaded(ran, validUpTo, Clean); }
        if c.NoCommand? { return Loaded(ran, validUpTo, Stopped(c.why)); }
        if !known(c.argv[0]) { return Loaded(ran, validUpTo, UnknownCommand); }
        AfterSnoc(ran, validUpTo, c.argv, |here| - |c.rest|, LoadFrom(c.rest, known));
        ran := ran + [c.argv];
        validUpTo := pos;
      }
    }
  }

  lemma {:induction false} LineLengthIs(s: Bytes, n: nat)
    requires 1 <= n <= LINE_MAX && n <= |s|
    requires forall i :: 0 <= i < n - 1 ==> s[i] != LF
    requires n == LINE_MAX || n == |s| || s[n - 1] == LF
    ensures LineLength(s, LINE_MAX) == n
  {
    LineLengthIsAt(s, n, LINE_MAX);
  }

  lemma {:induction false} LineLengthIsAt(s: Bytes, n: nat, limit: nat)
    requires 1 <= n <= limit && n <= |s|
    requires forall i :: 0 <= i < n - 1 ==> s[i] != LF
    requires n == limit || n == |s| || s[n - 1] == LF
    ensures LineLength(s, limit) == n
    decreases n
  {
    if n > 1 {
      assert forall i :: 0 <= i < |s| - 1 ==> s[1..][i] == s[i + 1];
      LineLengthIsAt(s[1..], n - 1, limit - 1);
    }
  }

  lemma ReadArgsUnfold(s: Bytes, count: nat)
    requires count > 0
    ensures var a := ReadArg(s);
            ReadArgs(s, count) == if a.NoArg? then NoArgs(a.why)
                                  else if ReadArgs(a.rest, count - 1).NoArgs? then ReadArgs(a.rest, count - 1)
                                  else Args([a.value] + ReadArgs(a.rest, count - 1).values,
                                            ReadArgs(a.rest, count - 1).rest)
  {}

  ghost function Prepend(front: seq<Bytes>, r: ArgsRead): ArgsRead {
    if r.Args? then Args(front + r.values, r.rest) else r
  }

  /** One more argument read, or the first that cannot be. */
  lemma NextArg(all: ArgsRead, front: seq<Bytes>, s: Bytes, count: nat, a: ArgRead)
    requires count > 0 && all == Prepend(front, ReadArgs(s, count)) && a == ReadArg(s)
    ensures a.NoArg? ==> all == NoArgs(a.why)
    ensures !a.NoArg? ==> all == Prepend(front + [a.value], ReadArgs(a.rest, count - 1))
  {
    ReadArgsUnfold(s, count);
    if !a.NoArg? { PrependSnoc(front, a.value, ReadArgs(a.rest, count - 1)); }
  }

  lemma PrependNone(front: seq<Bytes>, s: Bytes)
    ensures Prepend(front, ReadArgs(s, 0)) == Args(front, s)
  {
    assert front + [] == front;
  }

  lemma PrependSnoc(front: seq<Bytes>, a: Bytes, r: ArgsRead)
    ensures Prepend(front, if r.NoArgs? then r else Args([a] + r.values, r.rest)) == Prepend(front + [a], r)
  {
    if r.Args? { assert front + ([a] + r.values) == (front + [a]) + r.values; }
  }

  ghost function After(ran: seq<Command>, valid: nat, r: Loaded): Loaded {
    Loaded(ran + r.ran, valid + r.validUpTo, r.ending)
  }

  lemma AfterSnoc(ran: seq<Command>, valid: nat, c: Command, n: nat, r: Loaded)
    ensures After(ran, valid, Loaded([c] + r.ran, n + r.validUpTo, r.ending)) == After(ran + [c], valid + n, r)
  {
    assert ran + ([c] + r.ran) == (ran + [c]) + r.ran;
  }
}
