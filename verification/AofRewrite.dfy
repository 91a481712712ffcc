/** Rewriting the log: the shortest command stream that rebuilds a dataset. */
module AofRewrite {
  import opened AofCodec
  import opened AofReplay
  import opened Options

  const ITEMS_PER_CMD: nat := 64

  /** A value as the rewriting child iterates over it. */
  datatype Stored = Plain(text: Bytes) | Items(kind: Kind, items: seq<Item>)
  datatype Row = Row(key: Bytes, value: Stored, expire: Option<nat>)

  /** One database, in iteration order. */
  type Table = seq<Row>

  predicate Live(r: Row, now: nat) { r.expire.None? || r.expire.value >= now }

  /** Collections are never empty, and their items have the width of their kind. */
  predicate RowOk(r: Row) {
    r.value.Items? ==> r.value.items != [] && AllWide(r.value.items, Width(r.value.kind))
  }

  predicate TableOk(t: Table) {
    && (forall i :: 0 <= i < |t| ==> RowOk(t[i]))
    && (forall i, j :: 0 <= i < j < |t| ==> t[i].key != t[j].key)
  }

  function Meaning(v: Stored): Object
    requires v.Items? ==> AllWide(v.items, Width(v.kind))
  {
    match v
    case Plain(t) => Str(t)
    case Items(k, xs) => AddItems(k, EmptyOf(k), xs)
  }

  function AddRow(db: Db, r: Row, now: nat): Db
    requires RowOk(r)
  {
    if Live(r, now) then db[r.key := Entry(Meaning(r.value), r.expire)] else db
  }

  /** The dataset a table stands for: its rows that have not expired. */
  function AddRows(db: Db, t: Table, now: nat): Db
    requires forall i :: 0 <= i < |t| ==> RowOk(t[i])
    decreases |t|
  {
    if t == [] then db else AddRows(AddRow(db, t[0], now), t[1..], now)
  }

  // -------- The commands --------

  function Min(a: nat, b: nat): nat { if a < b then a else b }

  function BatchCommand(k: Kind, key: Bytes, xs: seq<Item>): Command {
    [Name(k), key] + Flatten(xs)
  }

  function Batches(k: Kind, key: Bytes, xs: seq<Item>, limit: nat): seq<Command>
    requires limit > 0
    decreases |xs|
  {
    if xs == [] then []
    else
      var m := Min(limit, |xs|);
      [BatchCommand(k, key, xs[..m])] + Batches(k, key, xs[m..], limit)
  }

  function ValueCommands(r: Row, limit: nat): seq<Command>
    requires limit > 0
  {
    match r.value
    case Plain(t) => [[SET, r.key, t]]
    case Items(k, xs) => Batches(k, r.key, xs, limit)
  }

  function ExpireCommands(r: Row): seq<Command> {
    if r.expire.None? then [] else [[PEXPIREAT, r.key, Digits(r.expire.value)]]
  }

  function RowCommands(r: Row, now: nat, limit: nat): seq<Command>
    requires limit > 0
  {
    if Live(r, now) then ValueCommands(r, limit) + ExpireCommands(r) else []
  }

  function RowsCommands(t: Table, now: nat, limit: nat): seq<Command>
    requires limit > 0
  {
    if t == [] then [] else RowCommands(t[0], now, limit) + RowsCommands(t[1..], now, limit)
  }

  function TableCommands(t: Table, j: nat, now: nat, limit: nat): seq<Command>
    requires limit > 0
  {
    if t == [] then [] else [[SELECT, Digits(j)]] + RowsCommands(t, now, limit)
  }

  /** The commands of the first i databases. */
  function AllCommands(ts: seq<Table>, i: nat, now: nat, limit: nat): seq<Command>
    requires limit > 0 && i <= |ts|
  {
    if i == 0 then [] else AllCommands(ts, i - 1, now, limit) + TableCommands(ts[i - 1], i - 1, now, limit)
  }

  // -------- Replaying one collection --------

  lemma PutTwice(s: Server, key: Bytes, a: Entry, b: Entry)
    requires Valid(s)
    ensures Put(Put(s, key, a), key, b) == Put(s, key, b)
  {
    var db := s.dbs[s.selected];
    assert db[key := a][key := b] == db[key := b];
    assert s.dbs[s.selected := db[key := a]][s.selected := db[key := b]] == s.dbs[s.selected := db[key := b]];
  }

  /** The entry a collection command finds under its key. */
  function Found(s: Server, key: Bytes, k: Kind): Entry
    requires Valid(s)
  {
    var db := s.dbs[s.selected];
    if key in db then db[key] else Entry(EmptyOf(k), None)
  }

  lemma RunBatch(other: Other, s: Server, k: Kind, key: Bytes, xs: seq<Item>)
    requires Valid(s) && xs != [] && AllWide(xs, Width(k)) && HasKind(Found(s, key, k).obj, k)
    ensures var was := Found(s, key, k);
            Run(other, s, BatchCommand(k, key, xs)) == Put(s, key, was.(obj := AddItems(k, was.obj, xs)))
  {
    var c := BatchCommand(k, key, xs);
    RunNamed(other, s, k, c);
    RunItemsOf(s, k, key, c, xs);
  }

  lemma RunNamed(other: Other, s: Server, k: Kind, c: Command)
    requires Valid(s) && c != [] && c[0] == Name(k)
    ensures Run(other, s, c) == RunItems(s, k, c)
  {
    KindOfName(k);
  }

  lemma RunItemsOf(s: Server, k: Kind, key: Bytes, c: Command, xs: seq<Item>)
    requires Valid(s) && xs != [] && AllWide(xs, Width(k)) && HasKind(Found(s, key, k).obj, k)
    requires |c| >= 2 && c[1] == key && c[2..] == Flatten(xs)
    ensures var was := Found(s, key, k);
            RunItems(s, k, c) == Put(s, key, was.(obj := AddItems(k, was.obj, xs)))
  {
    GroupFlatten(xs, Width(k));
    FlattenLength(xs, Width(k));
    assert |xs| * Width(k) >= Width(k) by { assert |xs| >= 1; }
  }

  lemma {:induction false} BatchesNonempty(k: Kind, key: Bytes, xs: seq<Item>, limit: nat)
    requires limit > 0
    ensures Nonempty(Batches(k, key, xs, limit))
    decreases |xs|
  {
    if xs != [] { BatchesNonempty(k, key, xs[Min(limit, |xs|)..], limit); }
  }

  /** However a collection is cut into batches, replaying them adds its items in
      iteration order to whatever the key held. */
  lemma {:induction false} RunBatches(other: Other, s: Server, k: Kind, key: Bytes, xs: seq<Item>, limit: nat)
    requires Valid(s) && limit > 0 && xs != [] && AllWide(xs, Width(k)) && HasKind(Found(s, key, k).obj, k)
    ensures Nonempty(Batches(k, key, xs, limit))
    ensures var was := Found(s, key, k);
            RunAll(other, s, Batches(k, key, xs, limit)) == Put(s, key, was.(obj := AddItems(k, was.obj, xs)))
    decreases |xs|
  {
    BatchesNonempty(k, key, xs, limit);
    var m, was := Min(limit, |xs|), Found(s, key, k);
    var head, tail := xs[..m], xs[m..];
    assert xs == head + tail;
    var cs := Batches(k, key, xs, limit);
    assert cs[0] == BatchCommand(k, key, head) && cs[1..] == Batches(k, key, tail, limit);
    RunBatch(other, s, k, key, head);
    var e1 := was.(obj := AddItems(k, was.obj, head));
    AddItemsAppend(k, was.obj, head, tail);
    if tail != [] {
      var s1 := Put(s, key, e1);
      assert Found(s1, key, k) == e1;
      RunBatches(other, s1, k, key, tail, limit);
      PutTwice(s, key, e1, e1.(obj := AddItems(k, e1.obj, tail)));
    } else {
      assert head == xs;
    }
  }

  // -------- Replaying a row, a table, all tables --------

  lemma RunOne(other: Other, s: Server, c: Command)
    requires Valid(s) && |c| >= 1
    ensures RunAll(other, s, [c]) == Run(other, s, c)
  {
    assert [c][1..] == [];
  }

  lemma RunRow(other: Other, s: Server, r: Row, now: nat, limit: nat)
    requires Valid(s) && limit > 0 && RowOk(r) && r.key !in s.dbs[s.selected]
    ensures Nonempty(RowCommands(r, now, limit))
    ensures RunAll(other, s, RowCommands(r, now, limit))
         == s.(dbs := s.dbs[s.selected := AddRow(s.dbs[s.selected], r, now)])
  {
    if Live(r, now) {
      var e := Entry(Meaning(r.value), None);
      var s1 := Put(s, r.key, e);
      RunValue(other, s, r, limit);
      RunAllAppend(other, s, ValueCommands(r, limit), ExpireCommands(r));
      if r.expire.Some? {
        var c := [PEXPIREAT, r.key, Digits(r.expire.value)];
        RunOne(other, s1, c);
        RunExpire(other, s1, r.key, r.expire.value);
        PutTwice(s, r.key, e, e.(expire := r.expire));
      }
    } else {
      assert s.dbs[s.selected := s.dbs[s.selected]] == s.dbs;
    }
  }

  lemma RunValue(other: Other, s: Server, r: Row, limit: nat)
    requires Valid(s) && limit > 0 && RowOk(r) && r.key !in s.dbs[s.selected]
    ensures Nonempty(ValueCommands(r, limit))
    ensures RunAll(other, s, ValueCommands(r, limit)) == Put(s, r.key, Entry(Meaning(r.value), None))
  {
    match r.value
    case Plain(t) =>
      RunOne(other, s, [SET, r.key, t]);
      assert |SELECT| != |SET|;
    case Items(k, xs) =>
      RunBatches(other, s, k, r.key, xs, limit);
  }

  lemma RunExpire(other: Other, s: Server, key: Bytes, at: nat)
    requires Valid(s) && key in s.dbs[s.selected]
    ensures Run(other, s, [PEXPIREAT, key, Digits(at)]) == Put(s, key, s.dbs[s.selected][key].(expire := Some(at)))
  {
    assert |PEXPIREAT| == 9 && |SELECT| == 6 && |SET| == 3;
    assert Digits(at) + [] == Digits(at);
    StrToLOfDigits(at, []);
  }

  predicate NoneIn(t: Table, db: Db) { forall i :: 0 <= i < |t| ==> t[i].key !in db }

  lemma {:induction false} RunRows(other: Other, s: Server, t: Table, now: nat, limit: nat)
    requires Valid(s) && limit > 0 && TableOk(t) && NoneIn(t, s.dbs[s.selected])
    ensures Nonempty(RowsCommands(t, now, limit))
    ensures RunAll(other, s, RowsCommands(t, now, limit))
         == s.(dbs := s.dbs[s.selected := AddRows(s.dbs[s.selected], t, now)])
    decreases |t|
  {
    if t == [] {
      assert s.dbs[s.selected := s.dbs[s.selected]] == s.dbs;
    } else {
      RunRow(other, s, t[0], now, limit);
      var db1 := AddRow(s.dbs[s.selected], t[0], now);
      var s1 := s.(dbs := s.dbs[s.selected := db1]);
      RunRows(other, s1, t[1..], now, limit);
      RunAllAppend(other, s, RowCommands(t[0], now, limit), RowsCommands(t[1..], now, limit));
      assert s.dbs[s.selected := db1][s.selected := AddRows(db1, t[1..], now)]
          == s.dbs[s.selected := AddRows(db1, t[1..], now)];
    }
  }

  predicate AllTablesOk(ts: seq<Table>) { forall i :: 0 <= i < |ts| ==> TableOk(ts[i]) }

  function Datasets(ts: seq<Table>, now: nat): (dbs: seq<Db>)
    requires AllTablesOk(ts)
    ensures |dbs| == |ts|
  {
    seq(|ts|, i requires 0 <= i < |ts| => AddRows(map[], ts[i], now))
  }

  lemma RunSelect(other: Other, s: Server, j: nat)
    requires Valid(s) && j < |s.dbs|
    ensures Run(other, s, [SELECT, Digits(j)]) == s.(selected := j)
  {
    assert Digits(j) + [] == Digits(j);
    StrToLOfDigits(j, []);
  }

  lemma RunTable(other: Other, s: Server, t: Table, j: nat, now: nat, limit: nat)
    requires Valid(s) && limit > 0 && j < |s.dbs| && TableOk(t) && s.dbs[j] == map[]
    ensures Nonempty(TableCommands(t, j, now, limit))
    ensures RunAll(other, s, TableCommands(t, j, now, limit)).dbs == s.dbs[j := AddRows(map[], t, now)]
  {
    if t == [] {
      assert s.dbs[j := s.dbs[j]] == s.dbs;
    } else {
      var c := [SELECT, Digits(j)];
      var s1 := s.(selected := j);
      RunSelect(other, s, j);
      RunRows(other, s1, t, now, limit);
      RunOne(other, s, c);
      RunAllAppend(other, s, [c], RowsCommands(t, now, limit));
    }
  }

  function Blank(n: nat): (s: Server)
    ensures |s.dbs| == n
  {
    Server(0, seq(n, i => map[]))
  }

  /** The first i databases rebuilt and the others still empty. */
  ghost predicate Rebuilt(dbs: seq<Db>, goal: seq<Db>, i: nat) {
    && |dbs| == |goal| && i <= |goal|
    && (forall k :: 0 <= k < i ==> dbs[k] == goal[k])
    && (forall k :: i <= k < |goal| ==> dbs[k] == map[])
  }

  lemma RebuiltStep(dbs: seq<Db>, goal: seq<Db>, j: nat)
    requires j < |goal| && Rebuilt(dbs, goal, j)
    ensures Rebuilt(dbs[j := goal[j]], goal, j + 1)
  {}

  lemma TableStep(other: Other, s: Server, cs: seq<Command>, t: Table, j: nat, now: nat, limit: nat)
    requires Valid(s) && Nonempty(cs) && limit > 0 && j < |s.dbs| && TableOk(t)
    requires RunAll(other, s, cs).dbs[j] == map[]
    ensures Nonempty(cs + TableCommands(t, j, now, limit))
    ensures RunAll(other, s, cs + TableCommands(t, j, now, limit)).dbs
         == RunAll(other, s, cs).dbs[j := AddRows(map[], t, now)]
  {
    RunTable(other, RunAll(other, s, cs), t, j, now, limit);
    RunAllAppend(other, s, cs, TableCommands(t, j, now, limit));
  }

  lemma TableRebuilt(other: Other, s: Server, cs: seq<Command>, t: Table, goal: seq<Db>, j: nat, now: nat, limit: nat)
    requires Valid(s) && Nonempty(cs) && limit > 0 && j < |goal| && TableOk(t) && goal[j] == AddRows(map[], t, now)
    requires Rebuilt(RunAll(other, s, cs).dbs, goal, j)
    ensures Nonempty(cs + TableCommands(t, j, now, limit))
    ensures Rebuilt(RunAll(other, s, cs + TableCommands(t, j, now, limit)).dbs, goal, j + 1)
  {
    TableStep(other, s, cs, t, j, now, limit);
    RebuiltStep(RunAll(other, s, cs).dbs, goal, j);
  }

  lemma {:induction false} RunTables(other: Other, s: Server, ts: seq<Table>, goal: seq<Db>, i: nat, now: nat,
                                     limit: nat, cs: seq<Command>)
    requires limit > 0 && i <= |ts| && AllTablesOk(ts) && Valid(s) && cs == AllCommands(ts, i, now, limit)
    requires |goal| == |ts| && Rebuilt(s.dbs, goal, 0)
    requires forall j :: 0 <= j < |ts| ==> goal[j] == AddRows(map[], ts[j], now)
    ensures Nonempty(cs) && Rebuilt(RunAll(other, s, cs).dbs, goal, i)
  {
    if i > 0 {
      var fewer := AllCommands(ts, i - 1, now, limit);
      RunTables(other, s, ts, goal, i - 1, now, limit, fewer);
      TableRebuilt(other, s, fewer, ts[i - 1], goal, i - 1, now, limit);
      assert cs == fewer + TableCommands(ts[i - 1], i - 1, now, limit);
    }
  }

  /** The rewritten log rebuilds the dataset: replayed from empty, the commands
      yield every database with exactly its unexpired rows, for any batch limit. */
  lemma RewriteRebuilds(other: Other, ts: seq<Table>, now: nat, limit: nat)
    requires limit > 0 && ts != [] && AllTablesOk(ts)
    ensures Nonempty(AllCommands(ts, |ts|, now, limit))
    ensures RunAll(other, Blank(|ts|), AllCommands(ts, |ts|, now, limit)).dbs == Datasets(ts, now)
  {
    RunTables(other, Blank(|ts|), ts, Datasets(ts, now), |ts|, now, limit, AllCommands(ts, |ts|, now, limit));
  }

  // -------- What the items of a collection mean --------

  lemma {:induction false} ListMeaning(o: Object, xs: seq<Item>)
    requires o.List? && AllWide(xs, 1)
    ensures AddItems(RPush, o, xs) == List(o.items + seq(|xs|, i requires 0 <= i < |xs| => xs[i][0]))
    decreases |xs|
  {
    var all := seq(|xs|, i requires 0 <= i < |xs| => xs[i][0]);
    if xs == [] {
      assert o.items + all == o.items;
    } else {
      var tail := xs[1..];
      ListMeaning(AddItem(RPush, o, xs[0]), tail);
      assert all == [xs[0][0]] + seq(|tail|, i requires 0 <= i < |tail| => tail[i][0]);
    }
  }

  lemma {:induction false} SetMeaning(o: Object, xs: seq<Item>)
    requires o.Set? && AllWide(xs, 1)
    ensures AddItems(SAdd, o, xs) == Set(o.members + set i | 0 <= i < |xs| :: xs[i][0])
    decreases |xs|
  {
    if xs != [] {
      var tail := xs[1..];
      SetMeaning(AddItem(SAdd, o, xs[0]), tail);
      var all, rest := set i | 0 <= i < |xs| :: xs[i][0], set i | 0 <= i < |tail| :: tail[i][0];
      forall x | x in all ensures x in rest + {xs[0][0]} {
        var i :| 0 <= i < |xs| && xs[i][0] == x;
        if i > 0 { assert tail[i - 1][0] == x; }
      }
      forall x | x in rest ensures x in all {
        var i :| 0 <= i < |tail| && tail[i][0] == x;
        assert xs[i + 1][0] == x;
      }
      assert all == rest + {xs[0][0]};
    }
  }

  /** Where an item of a map-like collection keeps its key and its value. */
  function KeyOf(k: Kind, x: Item): Bytes requires |x| == 2 { if k.ZAdd? then x[1] else x[0] }
  function ValueOf(k: Kind, x: Item): Bytes requires |x| == 2 { if k.ZAdd? then x[0] else x[1] }
  function MapOf(o: Object): map<Bytes, Bytes> requires o.ZSet? || o.Hash? { if o.ZSet? then o.scores else o.fields }

  predicate DistinctKeys(k: Kind, xs: seq<Item>)
    requires AllWide(xs, 2)
  {
    forall i, j :: 0 <= i < j < |xs| ==> KeyOf(k, xs[i]) != KeyOf(k, xs[j])
  }

  /** Sorted sets and hashes: every item is found under its key, and nothing
      but the items and what was there before. */
  lemma {:induction false} MapMeaning(k: Kind, o: Object, xs: seq<Item>)
    requires (k.ZAdd? || k.HMSet?) && HasKind(o, k) && AllWide(xs, 2) && DistinctKeys(k, xs)
    ensures var m := MapOf(AddItems(k, o, xs));
            && (forall i :: 0 <= i < |xs| ==> KeyOf(k, xs[i]) in m && m[KeyOf(k, xs[i])] == ValueOf(k, xs[i]))
            && (forall x :: x in m ==> x in MapOf(o) || exists i :: 0 <= i < |xs| && KeyOf(k, xs[i]) == x)
            && (forall x :: x in MapOf(o) && (forall i :: 0 <= i < |xs| ==> KeyOf(k, xs[i]) != x) ==>
                x in m && m[x] == MapOf(o)[x])
    decreases |xs|
  {
    if xs != [] {
      var tail, o1 := xs[1..], AddItem(k, o, xs[0]);
      MapMeaning(k, o1, tail);
      var m := MapOf(AddItems(k, o, xs));
      forall i | 0 <= i < |xs| ensures KeyOf(k, xs[i]) in m && m[KeyOf(k, xs[i])] == ValueOf(k, xs[i]) {
        if i > 0 { assert tail[i - 1] == xs[i]; }
      }
      forall x | x in m && x !in MapOf(o) ensures exists i :: 0 <= i < |xs| && KeyOf(k, xs[i]) == x {
        if x in MapOf(o1) {
          assert KeyOf(k, xs[0]) == x;
        } else {
          var i :| 0 <= i < |tail| && KeyOf(k, tail[i]) == x;
          assert KeyOf(k, xs[i + 1]) == x;
        }
      }
    }
  }

  // -------- The rewriting loops, as bytes --------

  /** What is left to print when `count` items of the present batch are out. */
  ghost function Pending(k: Kind, key: Bytes, xs: seq<Item>, count: nat, limit: nat): Bytes
    requires limit > 0 && count < limit
  {
    if count == 0 then PrintAll(Batches(k, key, xs, limit))
    else
      var m := Min(limit - count, |xs|);
      PrintArgs(Flatten(xs[..m])) + PrintAll(Batches(k, key, xs[m..], limit))
  }

  lemma FlattenCons(x: Item, xs: seq<Item>)
    ensures PrintArgs(Flatten([x] + xs)) == PrintArgs(x) + PrintArgs(Flatten(xs))
  {
    assert ([x] + xs)[1..] == xs;
    PrintArgsAppend(x, Flatten(xs));
  }

  lemma Assoc(a: Bytes, b: Bytes, c: Bytes)
    ensures a + b + c == a + (b + c)
  {}

  lemma PrintArgsCons(x: Bytes, xs: seq<Bytes>)
    ensures PrintArgs([x] + xs) == PrintArg(x) + PrintArgs(xs)
  {
    assert ([x] + xs)[1..] == xs;
  }

  lemma PrintTwo(a: Bytes, b: Bytes, rest: seq<Bytes>)
    ensures Print([a, b] + rest) == (Header(STAR, 2 + |rest|) + PrintArg(a) + PrintArg(b)) + PrintArgs(rest)
  {
    assert [a, b] + rest == [a] + ([b] + rest);
    PrintArgsCons(b, rest);
    PrintArgsCons(a, [b] + rest);
    Regroup(Header(STAR, 2 + |rest|), PrintArg(a), PrintArg(b), PrintArgs(rest));
  }

  /** The header of a batch of n items. */
  function BatchHeader(k: Kind, key: Bytes, n: nat): Bytes {
    Header(STAR, 2 + n * Width(k)) + PrintArg(Name(k)) + PrintArg(key)
  }

  lemma PrintBatch(k: Kind, key: Bytes, xs: seq<Item>)
    requires AllWide(xs, Width(k))
    ensures Print(BatchCommand(k, key, xs)) == BatchHeader(k, key, |xs|) + PrintArgs(Flatten(xs))
  {
    FlattenLength(xs, Width(k));
    PrintTwo(Name(k), key, Flatten(xs));
  }

  /** The text of the present batch from its first item on, and what follows. */
  ghost function InBatch(k: Kind, key: Bytes, xs: seq<Item>, done: nat, limit: nat): Bytes
    requires limit > 0 && done < limit
  {
    var m := Min(limit - done, |xs|);
    PrintArgs(Flatten(xs[..m])) + PrintAll(Batches(k, key, xs[m..], limit))
  }

  lemma PendingHeader(k: Kind, key: Bytes, xs: seq<Item>, limit: nat)
    requires limit > 0 && xs != [] && AllWide(xs, Width(k))
    ensures Pending(k, key, xs, 0, limit) == BatchHeader(k, key, Min(limit, |xs|)) + InBatch(k, key, xs, 0, limit)
  {
    var m := Min(limit, |xs|);
    var head, tail := xs[..m], Batches(k, key, xs[m..], limit);
    PrintAllCons(BatchCommand(k, key, head), tail);
    PrintBatch(k, key, head);
    Assoc(BatchHeader(k, key, m), PrintArgs(Flatten(head)), PrintAll(tail));
  }

  lemma InBatchStep(k: Kind, key: Bytes, xs: seq<Item>, done: nat, limit: nat)
    requires done < limit && xs != []
    ensures InBatch(k, key, xs, done, limit)
            == PrintArgs(xs[0]) + Pending(k, key, xs[1..], if done + 1 == limit then 0 else done + 1, limit)
  {
    var m, tail := Min(limit - done, |xs|), xs[1..];
    assert xs[..m] == [xs[0]] + tail[..m - 1];
    assert xs[m..] == tail[m - 1..];
    FlattenCons(xs[0], tail[..m - 1]);
    Assoc(PrintArgs(xs[0]), PrintArgs(Flatten(tail[..m - 1])), PrintAll(Batches(k, key, xs[m..], limit)));
    PendingAfter(k, key, tail, done, m - 1, limit);
  }

  lemma PendingAfter(k: Kind, key: Bytes, xs: seq<Item>, done: nat, m: nat, limit: nat)
    requires done < limit && m == Min(limit - done - 1, |xs|)
    ensures PrintArgs(Flatten(xs[..m])) + PrintAll(Batches(k, key, xs[m..], limit))
         == Pending(k, key, xs, if done + 1 == limit then 0 else done + 1, limit)
  {
    if done + 1 == limit {
      assert xs[..m] == [] && xs[m..] == xs;
      assert PrintArgs(Flatten([])) + PrintAll(Batches(k, key, xs, limit)) == PrintAll(Batches(k, key, xs, limit));
    }
  }

  lemma PendingNothing(k: Kind, key: Bytes, count: nat, limit: nat)
    requires count < limit
    ensures Pending(k, key, [], count, limit) == []
  {
    var none: seq<Item> := [];
    assert none[..0] == [] && none[0..] == [];
  }

  function NextCount(count: nat, limit: nat): nat { if count + 1 == limit then 0 else count + 1 }

  lemma ItemStep(k: Kind, key: Bytes, xs: seq<Item>, count: nat, limit: nat, out: Bytes)
    requires count < limit && xs != [] && AllWide(xs, Width(k))
    ensures var header := if count == 0 then BatchHeader(k, key, Min(limit, |xs|)) else [];
            out + Pending(k, key, xs, count, limit)
            == (out + header + PrintArgs(xs[0])) + Pending(k, key, xs[1..], NextCount(count, limit), limit)
  {
    var header := if count == 0 then BatchHeader(k, key, Min(limit, |xs|)) else [];
    var more := Pending(k, key, xs[1..], NextCount(count, limit), limit);
    if count == 0 { PendingHeader(k, key, xs, limit); }
    InBatchStep(k, key, xs, count, limit);
    assert Pending(k, key, xs, count, limit) == header + (PrintArgs(xs[0]) + more);
    Regroup(out, header, PrintArgs(xs[0]), more);
  }

  lemma Regroup(a: Bytes, b: Bytes, c: Bytes, d: Bytes)
    ensures a + (b + (c + d)) == (a + b + c) + d
  {}

  /** What is still to be written after i items, `count` of them in the open command. */
  ghost function Rest(k: Kind, key: Bytes, xs: seq<Item>, i: nat, count: nat, limit: nat): Bytes
    requires count < limit && i <= |xs|
  {
    Pending(k, key, xs[i..], count, limit)
  }

  lemma TailStep(k: Kind, key: Bytes, xs: seq<Item>, i: nat, count: nat, limit: nat, out: Bytes, more: Bytes)
    requires count < limit && i < |xs| && AllWide(xs, Width(k))
    requires more == (if count == 0 then out + BatchHeader(k, key, Min(limit, |xs| - i)) else out) + PrintArgs(xs[i])
    ensures out + Rest(k, key, xs, i, count, limit) == more + Rest(k, key, xs, i + 1, NextCount(count, limit), limit)
  {
    var ys := xs[i..];
    assert |ys| == |xs| - i && ys[0] == xs[i] && ys[1..] == xs[i + 1..];
    ItemStep(k, key, ys, count, limit, out);
    if count != 0 { assert out + [] == out; }
  }

  lemma RestOfAll(k: Kind, key: Bytes, xs: seq<Item>, limit: nat)
    requires limit > 0
    ensures [] + Rest(k, key, xs, 0, 0, limit) == PrintAll(Batches(k, key, xs, limit))
  {
    assert xs[0..] == xs;
  }

  lemma RestOfNone(k: Kind, key: Bytes, xs: seq<Item>, count: nat, limit: nat, out: Bytes)
    requires count < limit
    ensures out + Rest(k, key, xs, |xs|, count, limit) == out
  {
    assert xs[|xs|..] == [];
    PendingNothing(k, key, count, limit);
    assert out + [] == out;
  }


  /** `rewriteListObject`, `rewriteSetObject`, `rewriteSortedSetObject` and
      `rewriteHashObject`: one pass over the items, a new command header
      whenever the item count of the present one wraps to zero. */
  /** One item, after the header of its command when it is the first. */
  method WriteItem(k: Kind, key: Bytes, x: Item, items: nat, count: nat, out: Bytes) returns (r: Bytes)
    requires items > 0
    ensures var head := if count == 0 then out + BatchHeader(k, key, Min(ITEMS_PER_CMD, items)) else out;
            r == head + PrintArgs(x)
  {
    r := out;
    if count == 0 {
      var cmdItems := if items > ITEMS_PER_CMD then ITEMS_PER_CMD else items;
      r := r + BatchHeader(k, key, cmdItems);
    }
    r := r + PrintArgs(x);
  }

  method RewriteItems(k: Kind, key: Bytes, xs: seq<Item>) returns (out: Bytes)
    requires AllWide(xs, Width(k))
    ensures out == PrintAll(Batches(k, key, xs, ITEMS_PER_CMD))
  {
    out := [];
    var count, items, i := 0, |xs|, 0;
    RestOfAll(k, key, xs, ITEMS_PER_CMD);
    while i < |xs|
      invariant i <= |xs| && items == |xs| - i && count < ITEMS_PER_CMD
      invariant out + Rest(k, key, xs, i, count, ITEMS_PER_CMD) == PrintAll(Batches(k, key, xs, ITEMS_PER_CMD))
    {
      var more := WriteItem(k, key, xs[i], items, count, out);
      TailStep(k, key, xs, i, count, ITEMS_PER_CMD, out, more);
      out := more;
      count := count + 1;
      if count == ITEMS_PER_CMD { count := 0; }
      items := items - 1;
      i := i + 1;
    }
    RestOfNone(k, key, xs, count, ITEMS_PER_CMD, out);
  }

  lemma PrintOne(c: Command)
    ensures PrintAll([c]) == Print(c)
  {
    PrintAllCons(c, []);
  }

  method RewriteRow(r: Row, now: nat) returns (out: Bytes)
    requires RowOk(r)
    ensures out == PrintAll(RowCommands(r, now, ITEMS_PER_CMD))
  {
    if r.expire.Some? && r.expire.value < now { return []; }
    match r.value {
      case Plain(t) =>
        out := Print([SET, r.key, t]);
        PrintOne([SET, r.key, t]);
      case Items(k, xs) =>
        out := RewriteItems(k, r.key, xs);
    }
    PrintAllAppend(ValueCommands(r, ITEMS_PER_CMD), ExpireCommands(r));
    if r.expire.Some? {
      PrintOne([PEXPIREAT, r.key, Digits(r.expire.value)]);
      out := out + Print([PEXPIREAT, r.key, Digits(r.expire.value)]);
    } else {
      assert out + [] == out;
    }
  }

  lemma {:induction false} RowsSnoc(t: Table, r: Row, now: nat, limit: nat)
    requires limit > 0
    ensures RowsCommands(t + [r], now, limit) == RowsCommands(t, now, limit) + RowCommands(r, now, limit)
    decreases |t|
  {
    if t == [] {
      assert t + [r] == [r] && [r][1..] == [];
    } else {
      assert (t + [r])[1..] == t[1..] + [r];
      RowsSnoc(t[1..], r, now, limit);
    }
  }

  lemma RowStep(first: seq<Command>, t: Table, i: nat, now: nat, limit: nat)
    requires limit > 0 && i < |t|
    ensures first + RowsCommands(t[..i], now, limit) + RowCommands(t[i], now, limit)
            == first + RowsCommands(t[..i + 1], now, limit)
  {
    assert t[..i + 1] == t[..i] + [t[i]];
    RowsSnoc(t[..i], t[i], now, limit);
  }

  lemma PrintMore(done: seq<Command>, more: seq<Command>, out: Bytes, text: Bytes)
    requires out == PrintAll(done) && text == PrintAll(more)
    ensures out + text == PrintAll(done + more)
  {
    PrintAllAppend(done, more);
  }

  method RewriteTable(t: Table, j: nat, now: nat) returns (out: Bytes)
    requires TableOk(t)
    ensures out == PrintAll(TableCommands(t, j, now, ITEMS_PER_CMD))
  {
    if |t| == 0 { return []; }
    out := Print([SELECT, Digits(j)]);
    PrintOne([SELECT, Digits(j)]);
    ghost var cs: seq<Command> := [[SELECT, Digits(j)]];
    ghost var first := cs;
    assert t[..0] == [] && first + [] == first;
    for i := 0 to |t|
      invariant cs == first + RowsCommands(t[..i], now, ITEMS_PER_CMD) && out == PrintAll(cs)
    {
      var row := RewriteRow(t[i], now);
      ghost var more := RowCommands(t[i], now, ITEMS_PER_CMD);
      PrintMore(cs, more, out, row);
      RowStep(first, t, i, now, ITEMS_PER_CMD);
      cs, out := cs + more, out + row;
    }
    assert t[..|t|] == t;
  }

  /** `rewriteAppendOnlyFileRio`: every non-empty database in turn. */
  method RewriteAll(ts: seq<Table>, now: nat) returns (out: Bytes)
    requires AllTablesOk(ts)
    ensures out == PrintAll(AllCommands(ts, |ts|, now, ITEMS_PER_CMD))
  {
    out := [];
    for j := 0 to |ts|
      invariant out == PrintAll(AllCommands(ts, j, now, ITEMS_PER_CMD))
    {
      var table := RewriteTable(ts[j], j, now);
      PrintMore(AllCommands(ts, j, now, ITEMS_PER_CMD), TableCommands(ts[j], j, now, ITEMS_PER_CMD), out, table);
      out := out + table;
    }
  }
}
