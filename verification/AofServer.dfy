/** The append-only file over a server's life: feeding, flushing under every
    outcome of write and ftruncate, and the background rewrite with its child. */
module AofServer {
  import opened AofCodec
  import opened AofReplay
  import opened AofRewrite
  import opened Options

  /** Where the rewriting child is.  `Done` holds the temporary file it left. */
  datatype Stage = Saving | Asked | Done(tmp: Bytes) | Failed

  /** A rewrite in progress: what the child saw at the fork, the parent's block
      list (`pending`), the data pipe, and what the child has read from it.
      `fed` is history: the commands fed since the fork. */
  datatype Child = Child(
    tables: seq<Table>,
    pending: Bytes,
    pipe: Bytes,
    diff: Bytes,
    stop: bool,
    acked: bool,
    stage: Stage,
    fed: seq<Command>)

  /** `on` is AOF_ON as against AOF_WAIT_REWRITE; `log` is history: the commands
      the file and the buffer stand for. */
  datatype Aof = Aof(
    dbs: seq<Db>,
    file: Bytes,
    size: nat,
    buf: Bytes,
    selectedDb: int,
    on: bool,
    child: Option<Child>,
    log: seq<Command>)

  datatype Step =
    | Feed(db: nat, c: Command)
    | Flush(written: nat, truncated: bool)
    | Fork(tables: seq<Table>)
    | SendDiff(n: nat)
    | ReadDiff(n: nat)
    | Ask
    | HandleAsk(ackSent: bool)
    | Finish
    | ChildFails
    | Reap(appended: bool, renamed: bool)

  /** The text of a rewrite; nothing the child holds has expired. */
  function Snapshot(ts: seq<Table>): seq<Command> { AllCommands(ts, |ts|, 0, ITEMS_PER_CMD) }

  function Select(db: nat): Command { [SELECT, Digits(db)] }

  /** The commands `feedAppendOnlyFile` prints for one command. */
  function Fed(selectedDb: int, db: nat, c: Command): seq<Command> {
    if db != selectedDb then [Select(db), c] else [c]
  }

  predicate Enabled(a: Aof, step: Step) {
    match step
    case Feed(db, c) => db < |a.dbs| && Printable(c) && c[0] != SELECT
    case Flush(w, _) => w <= |a.buf|
    case Fork(ts) =>
      && a.child.None? && |ts| == |a.dbs| && AllTablesOk(ts) && Datasets(ts, 0) == a.dbs
      && AllPrintable(Snapshot(ts))
    case SendDiff(n) => a.child.Some? && !a.child.value.stop && n <= |a.child.value.pending|
    case ReadDiff(n) => a.child.Some? && a.child.value.stage.Saving? && n <= |a.child.value.pipe|
    case Ask => a.child.Some? && a.child.value.stage.Saving?
    case HandleAsk(_) => a.child.Some? && a.child.value.stage.Asked? && !a.child.value.stop
    case Finish => a.child.Some? && a.child.value.stage.Asked? && a.child.value.acked
    case ChildFails => a.child.Some? && !a.child.value.stage.Done?
    case Reap(_, _) => a.child.Some? && (a.child.value.stage.Done? || a.child.value.stage.Failed?)
  }

  function DoFeed(other: Other, a: Aof, db: nat, c: Command): Aof
    requires Enabled(a, Feed(db, c))
  {
    var cs := Fed(a.selectedDb, db, c);
    var text := PrintAll(cs);
    a.(dbs := Run(other, Server(db, a.dbs), c).dbs,
       selectedDb := db,
       buf := if a.on then a.buf + text else a.buf,
       log := a.log + cs,
       child := if a.child.None? then None
                else Some(a.child.value.(pending := a.child.value.pending + text, fed := a.child.value.fed + cs)))
  }

  /** The file, its recorded size, and the bytes not yet written. */
  datatype Disk = Disk(file: Bytes, size: nat, buf: Bytes)

  /** `flushAppendOnlyFile` for a write that put `w` bytes out (none is an error). */
  function Flushed(d: Disk, w: nat, truncated: bool): Disk
    requires w <= |d.buf|
  {
    if w == |d.buf| then Disk(d.file + d.buf, d.size + w, [])
    else if w == 0 then d
    else
      var short := d.file + d.buf[..w];
      if truncated then d.(file := if d.size <= |short| then short[..d.size] else short)
      else Disk(short, d.size + w, d.buf[w..])
  }

  function DoFlush(a: Aof, w: nat, truncated: bool): Aof
    requires w <= |a.buf|
  {
    var d := Flushed(Disk(a.file, a.size, a.buf), w, truncated);
    a.(file := d.file, size := d.size, buf := d.buf)
  }

  function DoReap(a: Aof, appended: bool, renamed: bool): Aof
    requires a.child.Some?
  {
    var c := a.child.value;
    if c.stage.Done? && appended && renamed then
      var file := c.stage.tmp + c.pending;
      a.(file := file, size := |file|, buf := [], selectedDb := -1, on := true, child := None,
         log := Snapshot(c.tables) + c.fed)
    else a.(child := None)
  }

  function DoChild(c: Child, step: Step): Child
    requires step.SendDiff? ==> step.n <= |c.pending|
    requires step.ReadDiff? ==> step.n <= |c.pipe|
  {
    match step
    case SendDiff(n) => c.(pipe := c.pipe + c.pending[..n], pending := c.pending[n..])
    case ReadDiff(n) => c.(diff := c.diff + c.pipe[..n], pipe := c.pipe[n..])
    case Ask => c.(stage := Asked)
    case HandleAsk(ok) => c.(stop := true, acked := ok)
    case Finish =>
      c.(diff := c.diff + c.pipe, pipe := [], stage := Done(PrintAll(Snapshot(c.tables)) + (c.diff + c.pipe)))
    case ChildFails => c.(stage := Failed)
    case _ => c
  }

  function Next(other: Other, a: Aof, step: Step): Aof
    requires Enabled(a, step)
  {
    match step
    case Feed(db, c) => DoFeed(other, a, db, c)
    case Flush(w, truncated) => DoFlush(a, w, truncated)
    case Fork(ts) => a.(child := Some(Child(ts, [], [], [], false, false, Saving, [])), selectedDb := -1)
    case Reap(appended, renamed) => DoReap(a, appended, renamed)
    case _ => a.(child := Some(DoChild(a.child.value, step)))
  }

  // -------- The invariant --------

  /** Replaying `cs` from dataset `from` gives `dbs`, and leaves the loader's
      client on the database the server believes the log has selected. */
  ghost predicate Replays(other: Other, from: Server, cs: seq<Command>, dbs: seq<Db>, selectedDb: int) {
    && Valid(from) && Nonempty(cs)
    && var end := RunAll(other, from, cs);
       end.dbs == dbs && (selectedDb >= 0 ==> end.selected == selectedDb)
  }

  ghost predicate LogOk(other: Other, a: Aof) {
    && a.size == |a.file| && a.dbs != [] && a.selectedDb < |a.dbs|
    && (a.on ==>
          && a.file + a.buf == PrintAll(a.log)
          && AllPrintable(a.log)
          && Replays(other, Blank(|a.dbs|), a.log, a.dbs, a.selectedDb))
  }

  /** No byte fed since the fork is lost, repeated or reordered on its way to the
      child, and the commands fed take the dataset at the fork to the present
      one whatever database the rewritten part ends on. */
  ghost predicate ChildOk(other: Other, a: Aof, c: Child) {
    && c.diff + c.pipe + c.pending == PrintAll(c.fed)
    && |c.tables| == |a.dbs| && AllTablesOk(c.tables) && AllPrintable(Snapshot(c.tables)) && AllPrintable(c.fed)
    && (c.fed == [] ==> a.selectedDb == -1 && a.dbs == Datasets(c.tables, 0))
    && (c.fed != [] ==> forall sel :: 0 <= sel < |a.dbs| ==>
          Replays(other, Server(sel, Datasets(c.tables, 0)), c.fed, a.dbs, a.selectedDb))
    && (c.acked ==> c.stop)
    && (c.stage.Done? ==> c.stop && c.pipe == [] && c.stage.tmp == PrintAll(Snapshot(c.tables)) + c.diff)
  }

  ghost predicate Inv(other: Other, a: Aof) {
    LogOk(other, a) && (a.child.Some? ==> ChildOk(other, a, a.child.value))
  }

  // -------- Feeding --------

  lemma RunKeepsSelected(other: Other, s: Server, c: Command)
    requires Valid(s) && |c| >= 1 && c[0] != SELECT
    ensures Run(other, s, c).selected == s.selected
  {}

  /** One command fed extends every replay that agrees with `selectedDb`. */
  lemma FeedReplays(other: Other, from: Server, cs: seq<Command>, dbs: seq<Db>, selectedDb: int, db: nat, c: Command)
    requires Replays(other, from, cs, dbs, selectedDb) && db < |dbs| && |c| >= 1 && c[0] != SELECT
    ensures Replays(other, from, cs + Fed(selectedDb, db, c), Run(other, Server(db, dbs), c).dbs, db)
  {
    var end := RunAll(other, from, cs);
    RunKeepsSelected(other, Server(db, dbs), c);
    RunAllAppend(other, from, cs, Fed(selectedDb, db, c));
    if db == selectedDb {
      RunOne(other, end, c);
    } else {
      RunSelect(other, end, db);
      RunOne(other, end.(selected := db), c);
      RunOne(other, end, Select(db));
      RunAllAppend(other, end, [Select(db)], [c]);
      assert [Select(db)] + [c] == [Select(db), c];
    }
  }

  lemma FedPrintable(selectedDb: int, db: nat, c: Command)
    requires Printable(c) && db <= INT_MAX
    ensures AllPrintable(Fed(selectedDb, db, c))
  {
    HeaderFits(db);
  }

  lemma FeedLog(other: Other, a: Aof, db: nat, c: Command)
    requires Enabled(a, Feed(db, c)) && LogOk(other, a) && |a.dbs| <= INT_MAX
    ensures LogOk(other, DoFeed(other, a, db, c))
  {
    if a.on {
      var cs := Fed(a.selectedDb, db, c);
      FeedReplays(other, Blank(|a.dbs|), a.log, a.dbs, a.selectedDb, db, c);
      FedPrintable(a.selectedDb, db, c);
      PrintAllAppend(a.log, cs);
      Assoc(a.file, a.buf, PrintAll(cs));
    }
  }

  lemma FeedChild(other: Other, a: Aof, c0: Child, db: nat, c: Command)
    requires Enabled(a, Feed(db, c)) && a.child == Some(c0) && ChildOk(other, a, c0) && |a.dbs| <= INT_MAX
    ensures var a' := DoFeed(other, a, db, c); ChildOk(other, a', a'.child.value)
  {
    var cs := Fed(a.selectedDb, db, c);
    var a' := DoFeed(other, a, db, c);
    FedPrintable(a.selectedDb, db, c);
    PrintAllAppend(c0.fed, cs);
    Assoc(c0.diff + c0.pipe, c0.pending, PrintAll(cs));
    forall sel | 0 <= sel < |a.dbs|
      ensures Replays(other, Server(sel, Datasets(c0.tables, 0)), c0.fed + cs, a'.dbs, a'.selectedDb)
    {
      var from := Server(sel, Datasets(c0.tables, 0));
      assert Replays(other, from, c0.fed, a.dbs, a.selectedDb);
      FeedReplays(other, from, c0.fed, a.dbs, a.selectedDb, db, c);
    }
  }

  // -------- Flushing --------

  /** Whatever write and ftruncate do, the file followed by the buffer is still
      everything logged, and the recorded size is still the file's length. */
  lemma FlushConserves(d: Disk, w: nat, truncated: bool)
    requires w <= |d.buf| && d.size == |d.file|
    ensures var e := Flushed(d, w, truncated);
            && e.file + e.buf == d.file + d.buf
            && e.size == |e.file|
            && d.file <= e.file
  {
    if 0 < w < |d.buf| {
      var short := d.file + d.buf[..w];
      assert short[..d.size] == d.file;
      assert d.buf == d.buf[..w] + d.buf[w..];
    }
  }

  // -------- The rewrite --------

  lemma ForkChild(other: Other, a: Aof, ts: seq<Table>)
    requires Enabled(a, Fork(ts)) && LogOk(other, a)
    ensures var a' := Next(other, a, Fork(ts)); LogOk(other, a') && ChildOk(other, a', a'.child.value)
  {}

  predicate MovesOnly(step: Step) {
    !step.Feed? && !step.Flush? && !step.Fork? && !step.Reap?
  }

  /** Pipe writes of any size, pipe reads and the handshake only move bytes. */
  lemma BytesConserved(c: Child, step: Step)
    requires MovesOnly(step)
    requires step.SendDiff? ==> step.n <= |c.pending|
    requires step.ReadDiff? ==> step.n <= |c.pipe|
    ensures var d := DoChild(c, step); d.diff + d.pipe + d.pending == c.diff + c.pipe + c.pending
  {
    match step
    case SendDiff(n) =>
      assert c.pending == c.pending[..n] + c.pending[n..];
    case ReadDiff(n) =>
      assert c.pipe == c.pipe[..n] + c.pipe[n..];
    case _ =>
  }

  lemma ChildMoves(other: Other, a: Aof, step: Step)
    requires Inv(other, a) && Enabled(a, step) && MovesOnly(step)
    ensures Inv(other, Next(other, a, step))
  {
    var c := a.child.value;
    var d := DoChild(c, step);
    BytesConserved(c, step);
    assert d.tables == c.tables && d.fed == c.fed;
    SameChild(other, a, c, d);
  }

  lemma SameChild(other: Other, a: Aof, c: Child, d: Child)
    requires LogOk(other, a) && ChildOk(other, a, c) && d.tables == c.tables && d.fed == c.fed
    requires d.diff + d.pipe + d.pending == c.diff + c.pipe + c.pending
    requires d.acked ==> d.stop
    requires d.stage.Done? ==> d.stop && d.pipe == [] && d.stage.tmp == PrintAll(Snapshot(d.tables)) + d.diff
    ensures Inv(other, a.(child := Some(d)))
  {
    var a' := a.(child := Some(d));
    forall sel | 0 <= sel < |a.dbs| && c.fed != []
      ensures Replays(other, Server(sel, Datasets(c.tables, 0)), c.fed, a'.dbs, a'.selectedDb)
    {}
  }

  lemma ReapReplays(other: Other, a: Aof, c: Child)
    requires ChildOk(other, a, c) && a.dbs != []
    ensures Replays(other, Blank(|a.dbs|), Snapshot(c.tables) + c.fed, a.dbs, -1)
  {
    var cs := Snapshot(c.tables);
    RewriteRebuilds(other, c.tables, 0, ITEMS_PER_CMD);
    var mid := RunAll(other, Blank(|a.dbs|), cs);
    RunAllAppend(other, Blank(|a.dbs|), cs, c.fed);
    if c.fed != [] {
      assert Replays(other, Server(mid.selected, Datasets(c.tables, 0)), c.fed, a.dbs, a.selectedDb);
    }
  }

  /** A successful rewrite: the renamed file is the printed snapshot followed by
      everything fed since the fork, and replays to the present dataset. */
  lemma ReapSuccess(other: Other, a: Aof)
    requires Inv(other, a) && Enabled(a, Reap(true, true)) && a.child.value.stage.Done?
    ensures var a' := DoReap(a, true, true);
            LogOk(other, a') && a'.buf == [] && a'.on && a'.file == PrintAll(a'.log) && a'.child.None?
  {
    var c := a.child.value;
    ReapReplays(other, a, c);
    assert c.diff + c.pipe + c.pending == c.diff + c.pending;
    ReapText(Snapshot(c.tables), c.fed, c.stage.tmp, c.diff, c.pending);
    var a' := DoReap(a, true, true);
    assert a'.file + [] == a'.file;
  }

  lemma ReapText(snapshot: seq<Command>, fed: seq<Command>, tmp: Bytes, diff: Bytes, pending: Bytes)
    requires tmp == PrintAll(snapshot) + diff && diff + pending == PrintAll(fed)
    ensures tmp + pending == PrintAll(snapshot + fed)
  {
    PrintAllAppend(snapshot, fed);
    Assoc(PrintAll(snapshot), diff, pending);
  }

  lemma FlushInv(other: Other, a: Aof, w: nat, truncated: bool)
    requires Inv(other, a) && w <= |a.buf|
    ensures Inv(other, DoFlush(a, w, truncated))
  {
    FlushConserves(Disk(a.file, a.size, a.buf), w, truncated);
    var a' := DoFlush(a, w, truncated);
    if a.child.Some? { KeptChild(other, a, a', a.child.value); }
  }

  lemma KeptChild(other: Other, a: Aof, a': Aof, c: Child)
    requires ChildOk(other, a, c) && a'.dbs == a.dbs && a'.selectedDb == a.selectedDb
    ensures ChildOk(other, a', c)
  {
    forall sel | 0 <= sel < |a.dbs| && c.fed != []
      ensures Replays(other, Server(sel, Datasets(c.tables, 0)), c.fed, a'.dbs, a'.selectedDb)
    {}
  }

  lemma ReapInv(other: Other, a: Aof, appended: bool, renamed: bool)
    requires Inv(other, a) && Enabled(a, Reap(appended, renamed))
    ensures Inv(other, DoReap(a, appended, renamed))
  {
    if a.child.value.stage.Done? && appended && renamed { ReapSuccess(other, a); }
  }

  lemma FeedInv(other: Other, a: Aof, db: nat, c: Command)
    requires Inv(other, a) && Enabled(a, Feed(db, c)) && |a.dbs| <= INT_MAX
    ensures Inv(other, DoFeed(other, a, db, c)) && |DoFeed(other, a, db, c).dbs| == |a.dbs|
  {
    FeedLog(other, a, db, c);
    if a.child.Some? { FeedChild(other, a, a.child.value, db, c); }
  }

  lemma NextInv(other: Other, a: Aof, step: Step)
    requires Inv(other, a) && Enabled(a, step) && |a.dbs| <= INT_MAX
    ensures Inv(other, Next(other, a, step)) && |Next(other, a, step).dbs| == |a.dbs|
  {
    match step
    case Feed(db, c) => FeedInv(other, a, db, c);
    case Flush(w, truncated) => FlushInv(other, a, w, truncated);
    case Fork(ts) => ForkChild(other, a, ts);
    case Reap(appended, renamed) => ReapInv(other, a, appended, renamed);
    case _ => ChildMoves(other, a, step);
  }

  // -------- Runs --------

  /** A server that starts with an empty dataset of n databases and an empty file. */
  function Start(n: nat, on: bool): Aof {
    Aof(Blank(n).dbs, [], 0, [], -1, on, None, [])
  }

  ghost predicate IsRun(other: Other, n: nat, on: bool, steps: seq<Step>, a: Aof)
    decreases |steps|
  {
    if steps == [] then a == Start(n, on)
    else exists m: Aof ::
      IsRun(other, n, on, Front(steps), m) && Enabled(m, Last(steps)) && a == Next(other, m, Last(steps))
  }

  function Front(steps: seq<Step>): (r: seq<Step>)
    requires steps != []
    ensures |r| < |steps|
  {
    steps[..|steps| - 1]
  }

  function Last(steps: seq<Step>): Step
    requires steps != []
  {
    steps[|steps| - 1]
  }

  lemma {:induction false} RunsKeepInv(other: Other, n: nat, on: bool, steps: seq<Step>, a: Aof)
    requires IsRun(other, n, on, steps, a) && 1 <= n <= INT_MAX
    ensures Inv(other, a) && |a.dbs| == n
    decreases |steps|
  {
    if steps != [] {
      var m: Aof :| IsRun(other, n, on, Front(steps), m) && Enabled(m, Last(steps)) && a == Next(other, m, Last(steps));
      RunsKeepInv(other, n, on, Front(steps), m);
      NextInv(other, m, Last(steps));
    }
  }

  /** What a loader that knows every command makes of a file: the dataset. */
  ghost function Recovered(other: Other, n: nat, f: Bytes): seq<Db>
    requires n >= 1
  {
    var ran := LoadFrom(f, name => true).ran;
    LoadedNonempty(f);
    RunAll(other, Blank(n), ran).dbs
  }

  lemma {:induction false} LoadedNonempty(f: Bytes)
    ensures Nonempty(LoadFrom(f, name => true).ran)
    decreases |f|
  {
    var c := ReadCommand(f);
    if c.Got? { LoadedNonempty(c.rest); }
  }

  lemma RecoveredPrinted(other: Other, n: nat, cs: seq<Command>)
    requires n >= 1 && AllPrintable(cs)
    ensures Nonempty(cs) && Recovered(other, n, PrintAll(cs)) == RunAll(other, Blank(n), cs).dbs
  {
    LoadPrinted(cs, name => true);
  }

  /** Durability, in every run: with the AOF on, loading the file followed by the
      unflushed buffer gives exactly the server's dataset, and the recorded size
      is the file's length. */
  lemma FileAndBufferAreTheDataset(other: Other, n: nat, on: bool, steps: seq<Step>, a: Aof)
    requires IsRun(other, n, on, steps, a) && 1 <= n <= INT_MAX && a.on
    ensures Recovered(other, n, a.file + a.buf) == a.dbs
    ensures a.size == |a.file|
  {
    RunsKeepInv(other, n, on, steps, a);
    RecoveredPrinted(other, n, a.log);
  }

  /** A crash at any point: what is on disk loads, in truncation-tolerant mode,
      to a prefix of the commands logged, the longest wholly written. */
  lemma CrashRecoversPrefix(other: Other, n: nat, on: bool, steps: seq<Step>, a: Aof)
    requires IsRun(other, n, on, steps, a) && 1 <= n <= INT_MAX && a.on && a.file != []
    ensures var k := Whole(a.log, |a.file|);
            LoadFile(a.file, true, name => true) == Ok(a.log[..k], |PrintAll(a.log[..k])|)
  {
    RunsKeepInv(other, n, on, steps, a);
    assert a.file == PrintAll(a.log)[..|a.file|];
    TolerantLoadOfCut(a.log, |a.file|, name => true);
  }

  /** In every run, when the rewrite succeeds the new file alone loads to the
      server's dataset; when it fails the old file and buffer stay as they were. */
  lemma RewriteIsSafe(other: Other, n: nat, on: bool, steps: seq<Step>, a: Aof, appended: bool, renamed: bool)
    requires IsRun(other, n, on, steps, a) && 1 <= n <= INT_MAX && Enabled(a, Reap(appended, renamed))
    ensures var a' := DoReap(a, appended, renamed);
            if a.child.value.stage.Done? && appended && renamed
            then Recovered(other, n, a'.file) == a.dbs && a'.buf == [] && a'.size == |a'.file| && a'.on
            else a'.file == a.file && a'.buf == a.buf && a'.log == a.log && LogOk(other, a')
  {
    RunsKeepInv(other, n, on, steps, a);
    if a.child.value.stage.Done? && appended && renamed {
      ReapSuccess(other, a);
      RecoveredPrinted(other, n, DoReap(a, true, true).log);
    }
  }
}
