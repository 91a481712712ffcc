/** What running the commands of the log does to the dataset. */
module AofReplay {
  import opened AofCodec
  import opened Options

  /** The commands that rebuild a collection, a bounded batch at a time. */
  datatype Kind = RPush | SAdd | ZAdd | HMSet

  /** A stored value.  A score is kept as the text it is printed as. */
  datatype Object =
    | Str(text: Bytes)
    | List(items: seq<Bytes>)
    | Set(members: set<Bytes>)
    | ZSet(scores: map<Bytes, Bytes>)
    | Hash(fields: map<Bytes, Bytes>)

  datatype Entry = Entry(obj: Object, expire: Option<nat>)
  type Db = map<Bytes, Entry>

  /** The databases, and the one the running client has selected. */
  datatype Server = Server(selected: nat, dbs: seq<Db>)

  predicate Valid(s: Server) { s.selected < |s.dbs| }

  const SELECT: Bytes := [83, 69, 76, 69, 67, 84]
  const SET: Bytes := [83, 69, 84]
  const PEXPIREAT: Bytes := [80, 69, 88, 80, 73, 82, 69, 65, 84]

  function Name(k: Kind): Bytes {
    match k
    case RPush => [82, 80, 85, 83, 72]
    case SAdd => [83, 65, 68, 68]
    case ZAdd => [90, 65, 68, 68]
    case HMSet => [72, 77, 83, 69, 84]
  }

  /** Arguments per item: a member, or a score and a member, or a field and a value. */
  function Width(k: Kind): (w: nat)
    ensures 1 <= w <= 2
  {
    if k.RPush? || k.SAdd? then 1 else 2
  }

  function EmptyOf(k: Kind): Object {
    match k
    case RPush => List([])
    case SAdd => Set({})
    case ZAdd => ZSet(map[])
    case HMSet => Hash(map[])
  }

  predicate HasKind(o: Object, k: Kind) {
    match k
    case RPush => o.List?
    case SAdd => o.Set?
    case ZAdd => o.ZSet?
    case HMSet => o.Hash?
  }

  type Item = seq<Bytes>

  function AddItem(k: Kind, o: Object, x: Item): (r: Object)
    requires HasKind(o, k) && |x| == Width(k)
    ensures HasKind(r, k)
  {
    match k
    case RPush => List(o.items + [x[0]])
    case SAdd => Set(o.members + {x[0]})
    case ZAdd => ZSet(o.scores[x[1] := x[0]])
    case HMSet => Hash(o.fields[x[0] := x[1]])
  }

  predicate AllWide(xs: seq<Item>, w: nat) { forall i :: 0 <= i < |xs| ==> |xs[i]| == w }

  function AddItems(k: Kind, o: Object, xs: seq<Item>): (r: Object)
    requires HasKind(o, k) && AllWide(xs, Width(k))
    ensures HasKind(r, k)
    decreases |xs|
  {
    if xs == [] then o else AddItems(k, AddItem(k, o, xs[0]), xs[1..])
  }

  lemma {:induction false} AddItemsAppend(k: Kind, o: Object, a: seq<Item>, b: seq<Item>)
    requires HasKind(o, k) && AllWide(a, Width(k)) && AllWide(b, Width(k))
    ensures AllWide(a + b, Width(k))
    ensures AddItems(k, o, a + b) == AddItems(k, AddItems(k, o, a), b)
    decreases |a|
  {
    if a == [] {
      assert a + b == b;
    } else {
      assert (a + b)[1..] == a[1..] + b;
      AddItemsAppend(k, AddItem(k, o, a[0]), a[1..], b);
    }
  }

  // -------- Items as arguments --------

  function Flatten(xs: seq<Item>): seq<Bytes> {
    if xs == [] then [] else xs[0] + Flatten(xs[1..])
  }

  /** Whether n arguments make whole items of width w. */
  predicate Even(n: nat, w: nat) { w == 1 || n % 2 == 0 }

  function Group(args: seq<Bytes>, w: nat): (xs: seq<Item>)
    requires 1 <= w <= 2 && Even(|args|, w)
    ensures AllWide(xs, w)
  {
    if |args| < w then [] else [args[..w]] + Group(args[w..], w)
  }

  lemma {:induction false} FlattenLength(xs: seq<Item>, w: nat)
    requires AllWide(xs, w)
    ensures |Flatten(xs)| == |xs| * w
  {
    if xs != [] { FlattenLength(xs[1..], w); }
  }

  lemma {:induction false} GroupFlatten(xs: seq<Item>, w: nat)
    requires 1 <= w <= 2 && AllWide(xs, w)
    ensures Even(|Flatten(xs)|, w) && Group(Flatten(xs), w) == xs
  {
    FlattenLength(xs, w);
    if xs != [] {
      FlattenLength(xs[1..], w);
      GroupFlatten(xs[1..], w);
      assert Flatten(xs)[..w] == xs[0] && Flatten(xs)[w..] == Flatten(xs[1..]);
      assert xs == [xs[0]] + xs[1..];
    }
  }

  // -------- Running one command --------

  function Put(s: Server, key: Bytes, e: Entry): (r: Server)
    requires Valid(s)
    ensures Valid(r)
  {
    s.(dbs := s.dbs[s.selected := s.dbs[s.selected][key := e]])
  }

  /** A collection command: an arity or type error leaves the dataset alone. */
  function RunItems(s: Server, k: Kind, c: Command): (r: Server)
    requires Valid(s) && |c| >= 1
    ensures Valid(r)
  {
    var w, db := Width(k), s.dbs[s.selected];
    if |c| < 2 + w || !Even(|c| - 2, w) then s
    else if c[1] in db && !HasKind(db[c[1]].obj, k) then s
    else
      var was := if c[1] in db then db[c[1]] else Entry(EmptyOf(k), None);
      Put(s, c[1], was.(obj := AddItems(k, was.obj, Group(c[2..], w))))
  }

  function KindOf(name: Bytes): Option<Kind> {
    if name == Name(RPush) then Some(RPush)
    else if name == Name(SAdd) then Some(SAdd)
    else if name == Name(ZAdd) then Some(ZAdd)
    else if name == Name(HMSet) then Some(HMSet)
    else None
  }

  lemma KindOfName(k: Kind)
    ensures KindOf(Name(k)) == Some(k)
    ensures Name(k) != SELECT && Name(k) != SET && Name(k) != PEXPIREAT
  {
    assert |Name(RPush)| == 5 && |Name(SAdd)| == 4 && |Name(ZAdd)| == 4 && |Name(HMSet)| == 5;
    assert Name(RPush)[0] != Name(HMSet)[0] && Name(SAdd)[0] != Name(ZAdd)[0];
    assert |SELECT| == 6 && |SET| == 3 && |PEXPIREAT| == 9;
  }

  /** Every other command, as some deterministic change of the selected database
      and its neighbours. */
  type Other = (Server, Command) -> seq<Db>

  /** Run one command; SELECT changes the client, the rest the dataset. */
  function Run(other: Other, s: Server, c: Command): (r: Server)
    requires Valid(s) && |c| >= 1
    ensures Valid(r) && |r.dbs| == |s.dbs|
  {
    if c[0] == SELECT then
      if |c| == 2 && 0 <= StrToL(c[1]) < |s.dbs| then s.(selected := StrToL(c[1])) else s
    else if c[0] == SET && |c| == 3 then Put(s, c[1], Entry(Str(c[2]), None))
    else if c[0] == PEXPIREAT && |c| == 3 then
      var db := s.dbs[s.selected];
      if c[1] in db && StrToL(c[2]) >= 0 then Put(s, c[1], db[c[1]].(expire := Some(StrToL(c[2])))) else s
    else if KindOf(c[0]).Some? then RunItems(s, KindOf(c[0]).value, c)
    else
      var dbs := other(s, c);
      if |dbs| == |s.dbs| then s.(dbs := dbs) else s
  }

  predicate Nonempty(cs: seq<Command>) { forall i :: 0 <= i < |cs| ==> |cs[i]| >= 1 }

  function RunAll(other: Other, s: Server, cs: seq<Command>): (r: Server)
    requires Valid(s) && Nonempty(cs)
    ensures Valid(r) && |r.dbs| == |s.dbs|
    decreases |cs|
  {
    if cs == [] then s else RunAll(other, Run(other, s, cs[0]), cs[1..])
  }

  lemma {:induction false} RunAllAppend(other: Other, s: Server, a: seq<Command>, b: seq<Command>)
    requires Valid(s) && Nonempty(a) && Nonempty(b)
    ensures Nonempty(a + b)
    ensures RunAll(other, s, a + b) == RunAll(other, RunAll(other, s, a), b)
    decreases |a|
  {
    if a == [] {
      assert a + b == b;
    } else {
      assert (a + b)[1..] == a[1..] + b;
      RunAllAppend(other, Run(other, s, a[0]), a[1..], b);
    }
  }
}
