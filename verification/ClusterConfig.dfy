/** One node's view of the cluster: the slot table with its redundant bitmaps,
    the master/slave links, failure reports and migration tables. */
module ClusterConfig {
  import opened SlotBitmap
  import opened Options

  type NodeId = nat
  datatype Role = Master | Slave | Undecided

  datatype Report = Report(from: NodeId, time: int)

  datatype Node = Node(
    role: Role,
    slaveof: Option<NodeId>,
    slaves: seq<NodeId>,
    bitmap: Bitmap,
    numslots: int,
    reports: seq<Report>,
    configEpoch: nat)

  /** Pointers between nodes are names here. */
  datatype Config = Config(
    nodes: map<NodeId, Node>,
    slots: seq<Option<NodeId>>,
    importing: seq<Option<NodeId>>,
    migrating: seq<Option<NodeId>>)

  // -------- The invariants --------

  /** A node's bitmap and counter say exactly what the slot table says of it. */
  predicate OwnsExactly(slots: seq<Option<NodeId>>, n: NodeId, x: Node)
    requires |slots| == SLOTS
  {
    && x.numslots == Population(x.bitmap)
    && forall j :: 0 <= j < SLOTS ==> (TestBit(x.bitmap, j) <==> slots[j] == Some(n))
  }

  predicate TableOk(t: seq<Option<NodeId>>, nodes: map<NodeId, Node>) {
    |t| == SLOTS && forall j :: 0 <= j < SLOTS && t[j].Some? ==> t[j].value in nodes
  }

  ghost predicate SlotsOk(c: Config) {
    && TableOk(c.slots, c.nodes)
    && forall n {:trigger OwnsExactly(c.slots, n, c.nodes[n])} :: n in c.nodes ==> OwnsExactly(c.slots, n, c.nodes[n])
  }

  predicate Distinct<T(==)>(s: seq<T>) { forall i, j :: 0 <= i < j < |s| ==> s[i] != s[j] }

  /** A node that follows a master is on its list. */
  predicate FollowsOk(nodes: map<NodeId, Node>, a: NodeId)
    requires a in nodes
  {
    nodes[a].slaveof.Some? ==> nodes[a].slaveof.value in nodes && a in nodes[nodes[a].slaveof.value].slaves
  }

  /** Every node on a master's list follows it, and is there once. */
  predicate LeadsOk(nodes: map<NodeId, Node>, m: NodeId)
    requires m in nodes
  {
    && Distinct(nodes[m].slaves)
    && forall a :: a in nodes[m].slaves ==> a in nodes && nodes[a].slaveof == Some(m)
  }

  predicate RankOk(x: Node) { x.role != Slave ==> x.slaveof == None }

  predicate LinkOkAt(nodes: map<NodeId, Node>, x: NodeId)
    requires x in nodes
  {
    FollowsOk(nodes, x) && LeadsOk(nodes, x) && RankOk(nodes[x])
  }

  /** `slaves` arrays and `slaveof` pointers are inverse, without duplicates, and
      only slaves follow anybody. */
  ghost predicate LinksOk(c: Config) {
    forall a {:trigger LinkOkAt(c.nodes, a)} :: a in c.nodes ==> LinkOkAt(c.nodes, a)
  }

  predicate Bare(x: Node) { x.role != Master ==> x.numslots == 0 }

  /** Only masters own slots. */
  ghost predicate BareOk(c: Config) {
    forall a {:trigger Bare(c.nodes[a])} :: a in c.nodes ==> Bare(c.nodes[a])
  }

  /** At most one report per reporter, and every reporter is in the table. */
  predicate ReportListOk(rs: seq<Report>, nodes: map<NodeId, Node>) {
    && (forall i, j :: 0 <= i < j < |rs| ==> rs[i].from != rs[j].from)
    && (forall i :: 0 <= i < |rs| ==> rs[i].from in nodes)
  }

  ghost predicate ReportsOk(c: Config) {
    forall a {:trigger ReportListOk(c.nodes[a].reports, c.nodes)} :: a in c.nodes ==>
      ReportListOk(c.nodes[a].reports, c.nodes)
  }

  ghost predicate Ok(c: Config) {
    && SlotsOk(c) && LinksOk(c) && BareOk(c) && ReportsOk(c)
    && TableOk(c.importing, c.nodes) && TableOk(c.migrating, c.nodes)
  }

  // -------- One slot at a time --------

  function ClearSlot(c: Config, j: nat): Config
    requires TableOk(c.slots, c.nodes) && j < SLOTS
  {
    if c.slots[j] == None then c
    else
      var n := c.slots[j].value;
      var x := c.nodes[n];
      c.(slots := c.slots[j := None],
         nodes := c.nodes[n := x.(bitmap := ClearBit(x.bitmap, j),
                                  numslots := if TestBit(x.bitmap, j) then x.numslots - 1 else x.numslots)])
  }

  function TakeSlot(c: Config, n: NodeId, j: nat): Config
    requires |c.slots| == SLOTS && n in c.nodes && j < SLOTS
  {
    if c.slots[j] != None then c
    else
      var x := c.nodes[n];
      c.(slots := c.slots[j := Some(n)],
         nodes := c.nodes[n := x.(bitmap := SetBit(x.bitmap, j),
                                  numslots := if TestBit(x.bitmap, j) then x.numslots else x.numslots + 1)])
  }

  /** Everything but slots and bitmaps. */
  predicate SameLinks(c: Config, d: Config) {
    && c.nodes.Keys == d.nodes.Keys && c.importing == d.importing && c.migrating == d.migrating
    && forall n :: n in c.nodes ==>
         d.nodes[n] == c.nodes[n].(bitmap := d.nodes[n].bitmap, numslots := d.nodes[n].numslots)
  }

  lemma SameLinksKeeps(c: Config, d: Config)
    requires SameLinks(c, d)
    requires TableOk(c.importing, c.nodes) && TableOk(c.migrating, c.nodes) && LinksOk(c) && ReportsOk(c)
    ensures TableOk(d.importing, d.nodes) && TableOk(d.migrating, d.nodes) && LinksOk(d) && ReportsOk(d)
  {
    forall x | x in d.nodes ensures LinkOkAt(d.nodes, x) {
      assert LinkOkAt(c.nodes, x);
    }
    forall x | x in d.nodes ensures ReportListOk(d.nodes[x].reports, d.nodes) {
      assert ReportListOk(c.nodes[x].reports, c.nodes);
    }
  }

  lemma SetBitEffects(b: Bitmap, p: nat)
    requires p < SLOTS
    ensures forall q :: 0 <= q < SLOTS ==> (TestBit(SetBit(b, p), q) <==> q == p || TestBit(b, q))
    ensures forall q :: 0 <= q < SLOTS ==> (TestBit(ClearBit(b, p), q) <==> q != p && TestBit(b, q))
  {
    forall q | 0 <= q < SLOTS
      ensures (TestBit(SetBit(b, p), q) <==> q == p || TestBit(b, q))
      ensures (TestBit(ClearBit(b, p), q) <==> q != p && TestBit(b, q))
    {
      SetBitEffect(b, p, q);
    }
  }

  lemma OwnerCleared(slots: seq<Option<NodeId>>, n: NodeId, x: Node, j: nat)
    requires |slots| == SLOTS && j < SLOTS && OwnsExactly(slots, n, x) && slots[j] == Some(n)
    ensures TestBit(x.bitmap, j)
    ensures OwnsExactly(slots[j := None], n, x.(bitmap := ClearBit(x.bitmap, j), numslots := x.numslots - 1))
  {
    SetBitEffects(x.bitmap, j);
    PopulationClear(x.bitmap, j);
  }

  lemma OwnerTakes(slots: seq<Option<NodeId>>, n: NodeId, x: Node, j: nat)
    requires |slots| == SLOTS && j < SLOTS && OwnsExactly(slots, n, x) && slots[j] == None
    ensures !TestBit(x.bitmap, j)
    ensures OwnsExactly(slots[j := Some(n)], n, x.(bitmap := SetBit(x.bitmap, j), numslots := x.numslots + 1))
  {
    SetBitEffects(x.bitmap, j);
    PopulationSet(x.bitmap, j);
  }

  lemma OwnerUnaffected(slots: seq<Option<NodeId>>, n: NodeId, x: Node, j: nat, o: Option<NodeId>)
    requires |slots| == SLOTS && j < SLOTS && OwnsExactly(slots, n, x) && slots[j] != Some(n) && o != Some(n)
    ensures OwnsExactly(slots[j := o], n, x)
  {}

  /** The assertion in `clusterDelSlot` cannot fire, and the table and bitmaps
      still agree. */
  lemma ClearSlotOk(c: Config, j: nat)
    requires SlotsOk(c) && j < SLOTS
    ensures SlotsOk(ClearSlot(c, j)) && SameLinks(c, ClearSlot(c, j))
    ensures c.slots[j].Some? ==> TestBit(c.nodes[c.slots[j].value].bitmap, j)
  {
    if c.slots[j].Some? {
      var n := c.slots[j].value;
      OwnerCleared(c.slots, n, c.nodes[n], j);
      forall m | m in c.nodes && m != n ensures OwnsExactly(c.slots[j := None], m, c.nodes[m]) {
        OwnerUnaffected(c.slots, m, c.nodes[m], j, None);
      }
    }
  }

  lemma TakeSlotOk(c: Config, n: NodeId, j: nat)
    requires SlotsOk(c) && n in c.nodes && j < SLOTS
    ensures SlotsOk(TakeSlot(c, n, j)) && SameLinks(c, TakeSlot(c, n, j))
  {
    if c.slots[j].None? {
      OwnerTakes(c.slots, n, c.nodes[n], j);
      forall m | m in c.nodes && m != n ensures OwnsExactly(c.slots[j := Some(n)], m, c.nodes[m]) {
        OwnerUnaffected(c.slots, m, c.nodes[m], j, Some(n));
      }
    }
  }

  lemma ClearSlotKeeps(c: Config, j: nat)
    requires Ok(c) && j < SLOTS
    ensures Ok(ClearSlot(c, j))
  {
    var d := ClearSlot(c, j);
    ClearSlotOk(c, j);
    SameLinksKeeps(c, d);
    if c.slots[j].Some? {
      var n := c.slots[j].value;
      PopulationZero(c.nodes[n].bitmap);
      assert OwnsExactly(c.slots, n, c.nodes[n]) && Bare(c.nodes[n]);
    }
    forall m | m in d.nodes ensures Bare(d.nodes[m]) { assert Bare(c.nodes[m]); }
  }

  lemma TakeSlotKeeps(c: Config, n: NodeId, j: nat)
    requires Ok(c) && n in c.nodes && c.nodes[n].role == Master && j < SLOTS
    ensures Ok(TakeSlot(c, n, j))
  {
    var d := TakeSlot(c, n, j);
    TakeSlotOk(c, n, j);
    SameLinksKeeps(c, d);
    forall m | m in d.nodes ensures Bare(d.nodes[m]) { assert Bare(c.nodes[m]); }
  }

  // -------- Links --------

  function Put(c: Config, n: NodeId, x: Node): (d: Config)
    ensures n in c.nodes ==> d.nodes.Keys == c.nodes.Keys
  {
    c.(nodes := c.nodes[n := x])
  }

  function Without(s: seq<NodeId>, a: NodeId): seq<NodeId> {
    if s == [] then [] else if s[0] == a then s[1..] else [s[0]] + Without(s[1..], a)
  }

  lemma {:induction false} WithoutEffect(s: seq<NodeId>, a: NodeId)
    requires Distinct(s)
    ensures Distinct(Without(s, a)) && forall x :: x in Without(s, a) <==> x in s && x != a
  {
    if s != [] {
      assert s == [s[0]] + s[1..];
      assert s[0] !in s[1..];
      WithoutEffect(s[1..], a);
      if s[0] != a { DistinctCons(s[0], Without(s[1..], a)); }
    }
  }

  lemma DistinctCons(x: NodeId, s: seq<NodeId>)
    requires x !in s && Distinct(s)
    ensures Distinct([x] + s) && Distinct(s + [x])
  {}

  predicate Linked(c: Config, a: NodeId) {
    a in c.nodes && (c.nodes[a].slaveof.Some? ==> c.nodes[a].slaveof.value in c.nodes)
  }

  /** Take `a` off its master's list and forget the master. */
  function Unlink(c: Config, a: NodeId): (d: Config)
    requires Linked(c, a)
    ensures d.nodes.Keys == c.nodes.Keys
  {
    if c.nodes[a].slaveof == None then c
    else
      var m := c.nodes[a].slaveof.value;
      var e := Put(c, m, c.nodes[m].(slaves := Without(c.nodes[m].slaves, a)));
      Put(e, a, e.nodes[a].(slaveof := None))
  }

  function Link(c: Config, a: NodeId, m: NodeId): (d: Config)
    requires a in c.nodes && m in c.nodes
    ensures d.nodes.Keys == c.nodes.Keys
  {
    var e := Put(c, m, c.nodes[m].(slaves := c.nodes[m].slaves + [a]));
    Put(e, a, e.nodes[a].(slaveof := Some(m)))
  }

  function SetRole(c: Config, a: NodeId, r: Role): (d: Config)
    requires a in c.nodes
    ensures d.nodes.Keys == c.nodes.Keys
  {
    Put(c, a, c.nodes[a].(role := r))
  }

  /** Everything but links. */
  predicate SameSlots(c: Config, d: Config) {
    && c.nodes.Keys == d.nodes.Keys && c.slots == d.slots && c.importing == d.importing && c.migrating == d.migrating
    && forall n :: n in c.nodes ==>
         c.nodes[n] == d.nodes[n].(slaveof := c.nodes[n].slaveof, slaves := c.nodes[n].slaves)
  }

  lemma SameSlotsKeeps(c: Config, d: Config)
    requires Ok(c) && SameSlots(c, d) && LinksOk(d)
    ensures Ok(d)
  {
    forall n | n in d.nodes
      ensures OwnsExactly(d.slots, n, d.nodes[n]) && ReportListOk(d.nodes[n].reports, d.nodes) && Bare(d.nodes[n])
    {
      assert OwnsExactly(c.slots, n, c.nodes[n]) && ReportListOk(c.nodes[n].reports, c.nodes) && Bare(c.nodes[n]);
    }
  }

  lemma UnlinkAt(c: Config, a: NodeId, m: NodeId, x: NodeId)
    requires a in c.nodes && m in c.nodes && x in c.nodes && c.nodes[a].slaveof == Some(m) && Linked(c, a)
    requires Distinct(c.nodes[m].slaves)
    requires LinkOkAt(c.nodes, x)
    ensures LinkOkAt(Unlink(c, a).nodes, x)
  {
    WithoutEffect(c.nodes[m].slaves, a);
  }

  lemma UnlinkLinks(c: Config, a: NodeId)
    requires LinksOk(c) && a in c.nodes
    ensures Linked(c, a) && LinksOk(Unlink(c, a)) && SameSlots(c, Unlink(c, a))
    ensures Unlink(c, a).nodes[a].slaveof == None
  {
    assert LinkOkAt(c.nodes, a);
    if c.nodes[a].slaveof.Some? {
      var m := c.nodes[a].slaveof.value;
      assert LinkOkAt(c.nodes, m);
      forall x | x in Unlink(c, a).nodes ensures LinkOkAt(Unlink(c, a).nodes, x) { UnlinkAt(c, a, m, x); }
    }
  }

  lemma LinkAt(c: Config, a: NodeId, m: NodeId, x: NodeId)
    requires a in c.nodes && m in c.nodes && x in c.nodes && c.nodes[a].slaveof == None && c.nodes[a].role == Slave
    requires LinkOkAt(c.nodes, x) && LinkOkAt(c.nodes, m)
    ensures LinkOkAt(Link(c, a, m).nodes, x)
  {
    assert a !in c.nodes[x].slaves && a !in c.nodes[m].slaves;
    DistinctCons(a, c.nodes[m].slaves);
  }

  lemma LinkLinks(c: Config, a: NodeId, m: NodeId)
    requires LinksOk(c) && a in c.nodes && m in c.nodes && c.nodes[a].slaveof == None && c.nodes[a].role == Slave
    ensures LinksOk(Link(c, a, m)) && SameSlots(c, Link(c, a, m))
  {
    forall x | x in Link(c, a, m).nodes ensures LinkOkAt(Link(c, a, m).nodes, x) { LinkAt(c, a, m, x); }
  }

  /** `clusterSetNodeAsMaster`. */
  function AsMaster(c: Config, n: NodeId): (d: Config)
    requires Linked(c, n)
    ensures d.nodes.Keys == c.nodes.Keys
  {
    if c.nodes[n].role == Master then c else SetRole(Unlink(c, n), n, Master)
  }

  lemma AsMasterOk(c: Config, n: NodeId)
    requires Ok(c) && n in c.nodes
    ensures Linked(c, n) && Ok(AsMaster(c, n)) && AsMaster(c, n).nodes[n].role == Master
    ensures AsMaster(c, n).slots == c.slots
  {
    UnlinkLinks(c, n);
    if c.nodes[n].role != Master {
      SameSlotsKeeps(c, Unlink(c, n));
      RoleOk(Unlink(c, n), n, Master);
    }
  }

  lemma RoleOk(c: Config, n: NodeId, r: Role)
    requires Ok(c) && n in c.nodes
    requires r != Slave ==> c.nodes[n].slaveof == None
    requires r != Master ==> c.nodes[n].numslots == 0
    ensures Ok(SetRole(c, n, r))
  {
    var d := SetRole(c, n, r);
    forall m | m in d.nodes ensures OwnsExactly(d.slots, m, d.nodes[m]) {
      assert OwnsExactly(c.slots, m, c.nodes[m]);
    }
    forall x | x in d.nodes ensures LinkOkAt(d.nodes, x) {
      assert LinkOkAt(c.nodes, x);
    }
    forall x | x in d.nodes ensures ReportListOk(d.nodes[x].reports, d.nodes) && Bare(d.nodes[x]) {
      assert ReportListOk(c.nodes[x].reports, c.nodes) && Bare(c.nodes[x]);
    }
  }

  /** Make `a` follow `m`, leaving whoever it followed. */
  function Follow(c: Config, a: NodeId, m: NodeId): (d: Config)
    requires Linked(c, a) && m in c.nodes
    ensures d.nodes.Keys == c.nodes.Keys
  {
    Link(Unlink(c, a), a, m)
  }

  lemma FollowOk(c: Config, a: NodeId, m: NodeId)
    requires Ok(c) && a in c.nodes && m in c.nodes && c.nodes[a].role == Slave
    ensures Linked(c, a) && Ok(Follow(c, a, m)) && Follow(c, a, m).slots == c.slots
    ensures Follow(c, a, m).nodes[a].slaveof == Some(m)
  {
    UnlinkLinks(c, a);
    SameSlotsKeeps(c, Unlink(c, a));
    LinkLinks(Unlink(c, a), a, m);
    SameSlotsKeeps(Unlink(c, a), Follow(c, a, m));
  }

  // -------- Scanning the slots --------

  /** What one pass over the table does to a slot: nothing, release it, or give
      it to a node. */
  datatype Move = Keep | Release | Give(to: NodeId)

  function MoveSlot(c: Config, j: nat, m: Move): (d: Config)
    requires TableOk(c.slots, c.nodes) && j < SLOTS && (m.Give? ==> m.to in c.nodes)
    ensures TableOk(d.slots, d.nodes) && d.nodes.Keys == c.nodes.Keys
  {
    match m
    case Keep => c
    case Release => ClearSlot(c, j)
    case Give(n) => TakeSlot(ClearSlot(c, j), n, j)
  }

  /** The first k slots moved in order. */
  function Scan(c: Config, moves: seq<Move>, k: nat): (d: Config)
    requires TableOk(c.slots, c.nodes) && |moves| == SLOTS && k <= SLOTS
    requires forall j :: 0 <= j < SLOTS && moves[j].Give? ==> moves[j].to in c.nodes
    ensures TableOk(d.slots, d.nodes) && d.nodes.Keys == c.nodes.Keys
  {
    if k == 0 then c else MoveSlot(Scan(c, moves, k - 1), k - 1, moves[k - 1])
  }

  function ScanAll(c: Config, moves: seq<Move>): (d: Config)
    requires TableOk(c.slots, c.nodes) && |moves| == SLOTS
    requires forall j :: 0 <= j < SLOTS && moves[j].Give? ==> moves[j].to in c.nodes
    ensures TableOk(d.slots, d.nodes) && d.nodes.Keys == c.nodes.Keys
  {
    Scan(c, moves, |moves|)
  }

  function Moved(was: Option<NodeId>, m: Move): Option<NodeId> {
    match m
    case Keep => was
    case Release => None
    case Give(n) => Some(n)
  }

  predicate GivesToMasters(c: Config, moves: seq<Move>) {
    && |moves| == SLOTS
    && forall j :: 0 <= j < SLOTS && moves[j].Give? ==>
      moves[j].to in c.nodes && c.nodes[moves[j].to].role == Master
  }

  lemma SameLinksTransitive(c: Config, d: Config, e: Config)
    requires SameLinks(c, d) && SameLinks(d, e)
    ensures SameLinks(c, e)
  {}

  lemma ClearedSlots(c: Config, j: nat)
    requires SlotsOk(c) && j < SLOTS
    ensures ClearSlot(c, j).slots == c.slots[j := None] && SameLinks(c, ClearSlot(c, j))
  {
    ClearSlotOk(c, j);
    if c.slots[j] == None { assert c.slots[j := None] == c.slots; }
  }

  lemma GiveSlots(c: Config, j: nat, n: NodeId)
    requires SlotsOk(c) && j < SLOTS && n in c.nodes
    ensures var e := TakeSlot(ClearSlot(c, j), n, j); e.slots == c.slots[j := Some(n)] && SameLinks(c, e)
  {
    ClearSlotOk(c, j);
    ClearedSlots(c, j);
    var d := ClearSlot(c, j);
    TakeSlotOk(d, n, j);
    SameLinksTransitive(c, d, TakeSlot(d, n, j));
    assert c.slots[j := None][j := Some(n)] == c.slots[j := Some(n)];
  }

  lemma GiveOk(c: Config, j: nat, n: NodeId)
    requires Ok(c) && j < SLOTS && n in c.nodes && c.nodes[n].role == Master
    ensures Ok(TakeSlot(ClearSlot(c, j), n, j))
  {
    ClearSlotKeeps(c, j);
    ClearedSlots(c, j);
    TakeSlotKeeps(ClearSlot(c, j), n, j);
  }

  lemma MoveSlotOk(c: Config, j: nat, m: Move)
    requires Ok(c) && j < SLOTS && (m.Give? ==> m.to in c.nodes && c.nodes[m.to].role == Master)
    ensures Ok(MoveSlot(c, j, m)) && SameLinks(c, MoveSlot(c, j, m))
    ensures MoveSlot(c, j, m).slots == c.slots[j := Moved(c.slots[j], m)]
  {
    match m
    case Keep => assert c.slots[j := c.slots[j]] == c.slots;
    case Release => ClearedSlots(c, j); ClearSlotKeeps(c, j);
    case Give(n) => GiveSlots(c, j, n); GiveOk(c, j, n);
  }

  /** A pass over the slots keeps every invariant, changes nothing but slots and
      bitmaps, and moves exactly the slots it is told to. */
  lemma {:induction false} ScanOk(c: Config, moves: seq<Move>, k: nat)
    requires Ok(c) && GivesToMasters(c, moves) && k <= SLOTS
    ensures Ok(Scan(c, moves, k)) && SameLinks(c, Scan(c, moves, k))
    ensures forall j :: 0 <= j < SLOTS ==>
            Scan(c, moves, k).slots[j] == if j < k then Moved(c.slots[j], moves[j]) else c.slots[j]
  {
    if k > 0 {
      ScanOk(c, moves, k - 1);
      var d := Scan(c, moves, k - 1);
      MoveSlotOk(d, k - 1, moves[k - 1]);
      SameLinksTransitive(c, d, Scan(c, moves, k));
    }
  }

  lemma ScanAllOk(c: Config, moves: seq<Move>)
    requires Ok(c) && GivesToMasters(c, moves)
    ensures Ok(ScanAll(c, moves)) && SameLinks(c, ScanAll(c, moves))
    ensures forall j :: 0 <= j < SLOTS ==> ScanAll(c, moves).slots[j] == Moved(c.slots[j], moves[j])
  {
    ScanOk(c, moves, |moves|);
  }

  /** `clusterDelNodeSlots`: release what the node owns. */
  function ReleaseMoves(c: Config, n: NodeId): (ms: seq<Move>)
    requires |c.slots| == SLOTS
    ensures |ms| == SLOTS
  {
    seq(SLOTS, j requires 0 <= j < SLOTS => if c.slots[j] == Some(n) then Release else Keep)
  }

  /** `clusterFailoverReplaceYourMaster`: take what the old master owns. */
  function TakeOverMoves(c: Config, from: NodeId, to: NodeId): (ms: seq<Move>)
    requires |c.slots| == SLOTS
    ensures |ms| == SLOTS
  {
    seq(SLOTS, j requires 0 <= j < SLOTS => if c.slots[j] == Some(from) then Give(to) else Keep)
  }

  /** Whether `sender`, claiming slot j with `epoch`, gets it: the slot is not
      being imported and is unassigned or held with a smaller configEpoch. */
  predicate Wins(c: Config, sender: NodeId, epoch: nat, claimed: Bitmap, j: nat)
    requires TableOk(c.slots, c.nodes) && |c.importing| == SLOTS && j < SLOTS
  {
    && TestBit(claimed, j) && c.slots[j] != Some(sender) && c.importing[j] == None
    && (c.slots[j] == None || c.nodes[c.slots[j].value].configEpoch < epoch)
  }

  /** `clusterUpdateSlotsConfigWith`. */
  function ClaimMoves(c: Config, sender: NodeId, epoch: nat, claimed: Bitmap): (ms: seq<Move>)
    requires TableOk(c.slots, c.nodes) && |c.importing| == SLOTS
    ensures |ms| == SLOTS
  {
    seq(SLOTS, j requires 0 <= j < SLOTS => if Wins(c, sender, epoch, claimed, j) then Give(sender) else Keep)
  }

  // -------- Failure reports --------

  function DropReport(rs: seq<Report>, from: NodeId): seq<Report> {
    if rs == [] then [] else if rs[0].from == from then rs[1..] else [rs[0]] + DropReport(rs[1..], from)
  }

  /** `clusterNodeCleanupFailureReports`. */
  function Recent(rs: seq<Report>, now: int, maxAge: int): seq<Report> {
    if rs == [] then []
    else if now - rs[0].time > maxAge then Recent(rs[1..], now, maxAge)
    else [rs[0]] + Recent(rs[1..], now, maxAge)
  }

  lemma ReportCons(r: Report, rs: seq<Report>, nodes: map<NodeId, Node>)
    requires ReportListOk(rs, nodes) && r.from in nodes && forall x :: x in rs ==> x.from != r.from
    ensures ReportListOk([r] + rs, nodes) && ReportListOk(rs + [r], nodes)
  {}

  lemma ReportTail(rs: seq<Report>, nodes: map<NodeId, Node>)
    requires ReportListOk(rs, nodes) && rs != []
    ensures ReportListOk(rs[1..], nodes) && forall x :: x in rs[1..] ==> x.from != rs[0].from
  {}

  lemma {:induction false} DropReportOk(rs: seq<Report>, from: NodeId, nodes: map<NodeId, Node>)
    requires ReportListOk(rs, nodes)
    ensures ReportListOk(DropReport(rs, from), nodes)
    ensures forall r :: r in DropReport(rs, from) <==> r in rs && r.from != from
  {
    if rs != [] {
      ReportTail(rs, nodes);
      DropReportOk(rs[1..], from, nodes);
      if rs[0].from != from { ReportCons(rs[0], DropReport(rs[1..], from), nodes); }
    }
  }

  lemma {:induction false} RecentOk(rs: seq<Report>, now: int, maxAge: int, nodes: map<NodeId, Node>)
    requires ReportListOk(rs, nodes)
    ensures ReportListOk(Recent(rs, now, maxAge), nodes)
    ensures forall r :: r in Recent(rs, now, maxAge) <==> r in rs && now - r.time <= maxAge
  {
    if rs != [] {
      ReportTail(rs, nodes);
      RecentOk(rs[1..], now, maxAge, nodes);
      if now - rs[0].time <= maxAge { ReportCons(rs[0], Recent(rs[1..], now, maxAge), nodes); }
    }
  }

  /** `clusterNodeAddFailureReport`. */
  function AddReport(rs: seq<Report>, from: NodeId, now: int): seq<Report> {
    if rs == [] then [Report(from, now)]
    else if rs[0].from == from then [rs[0].(time := now)] + rs[1..]
    else [rs[0]] + AddReport(rs[1..], from, now)
  }

  lemma {:induction false} AddReportOk(rs: seq<Report>, from: NodeId, now: int, nodes: map<NodeId, Node>)
    requires ReportListOk(rs, nodes) && from in nodes
    ensures ReportListOk(AddReport(rs, from, now), nodes)
    ensures forall r :: r in AddReport(rs, from, now) <==> (r in rs && r.from != from) || r == Report(from, now)
  {
    if rs != [] {
      ReportTail(rs, nodes);
      assert rs == [rs[0]] + rs[1..];
      if rs[0].from != from {
        AddReportOk(rs[1..], from, now, nodes);
        ReportCons(rs[0], AddReport(rs[1..], from, now), nodes);
      } else {
        ReportCons(rs[0].(time := now), rs[1..], nodes);
      }
    }
  }

  // -------- Removing a node --------

  function Unset(t: seq<Option<NodeId>>, n: NodeId): (r: seq<Option<NodeId>>)
    ensures |r| == |t|
  {
    seq(|t|, j requires 0 <= j < |t| => if t[j] == Some(n) then None else t[j])
  }

  function DropReports(rs: seq<Report>, from: NodeId, now: int, maxAge: int): seq<Report> {
    if exists i :: 0 <= i < |rs| && rs[i].from == from then Recent(DropReport(rs, from), now, maxAge) else rs
  }

  /** `clusterDelNode` after the slots are released: the other nodes without
      reports from n and without links to it. */
  function Survivor(x: Node, n: NodeId, now: int, maxAge: int): Node {
    x.(reports := DropReports(x.reports, n, now, maxAge),
       slaveof := if x.slaveof == Some(n) then None else x.slaveof,
       slaves := Without(x.slaves, n))
  }

  function Survivors(nodes: map<NodeId, Node>, n: NodeId, now: int, maxAge: int): (r: map<NodeId, Node>)
    ensures r.Keys == nodes.Keys - {n}
  {
    map a | a in nodes && a != n :: Survivor(nodes[a], n, now, maxAge)
  }

  function Drop(d: Config, n: NodeId, now: int, maxAge: int): Config {
    Config(Survivors(d.nodes, n, now, maxAge), d.slots, Unset(d.importing, n), Unset(d.migrating, n))
  }

  function DeleteNode(c: Config, n: NodeId, now: int, maxAge: int): Config
    requires TableOk(c.slots, c.nodes)
  {
    Drop(ScanAll(c, ReleaseMoves(c, n)), n, now, maxAge)
  }

  /** Nothing in the view refers to `n` any more. */
  ghost predicate Forgotten(c: Config, n: NodeId) {
    && n !in c.nodes
    && (forall j :: 0 <= j < |c.slots| ==> c.slots[j] != Some(n))
    && (forall j :: 0 <= j < |c.importing| ==> c.importing[j] != Some(n))
    && (forall j :: 0 <= j < |c.migrating| ==> c.migrating[j] != Some(n))
    && (forall a :: a in c.nodes ==>
          && c.nodes[a].slaveof != Some(n) && n !in c.nodes[a].slaves
          && forall r :: r in c.nodes[a].reports ==> r.from != n)
  }

  lemma DropReportsOk(rs: seq<Report>, from: NodeId, now: int, maxAge: int, nodes: map<NodeId, Node>)
    requires ReportListOk(rs, nodes)
    ensures ReportListOk(DropReports(rs, from, now, maxAge), nodes)
    ensures forall r :: r in DropReports(rs, from, now, maxAge) ==> r in rs && r.from != from
  {
    DropReportOk(rs, from, nodes);
    RecentOk(DropReport(rs, from), now, maxAge, nodes);
  }

  lemma SurvivorLinks(c: Config, n: NodeId, now: int, maxAge: int, x: NodeId)
    requires LinksOk(c) && x in c.nodes && x != n
    ensures var nodes := Survivors(c.nodes, n, now, maxAge);
            LinkOkAt(nodes, x) && nodes[x].slaveof != Some(n) && n !in nodes[x].slaves
  {
    var nodes := Survivors(c.nodes, n, now, maxAge);
    assert LinkOkAt(c.nodes, x);
    WithoutEffect(c.nodes[x].slaves, n);
    if nodes[x].slaveof.Some? {
      var m := nodes[x].slaveof.value;
      assert LinkOkAt(c.nodes, m);
      WithoutEffect(c.nodes[m].slaves, n);
    }
  }

  lemma DropLinks(d: Config, n: NodeId, now: int, maxAge: int)
    requires LinksOk(d)
    ensures LinksOk(Drop(d, n, now, maxAge))
    ensures forall x :: x in Drop(d, n, now, maxAge).nodes ==>
              Drop(d, n, now, maxAge).nodes[x].slaveof != Some(n) && n !in Drop(d, n, now, maxAge).nodes[x].slaves
  {
    var e := Drop(d, n, now, maxAge);
    forall x | x in e.nodes ensures LinkOkAt(e.nodes, x) && e.nodes[x].slaveof != Some(n) && n !in e.nodes[x].slaves {
      SurvivorLinks(d, n, now, maxAge, x);
    }
  }

  lemma DropKeepsReports(d: Config, n: NodeId, now: int, maxAge: int)
    requires ReportsOk(d)
    ensures ReportsOk(Drop(d, n, now, maxAge))
    ensures forall x, r :: x in Drop(d, n, now, maxAge).nodes && r in Drop(d, n, now, maxAge).nodes[x].reports ==>
            r.from != n
  {
    var e := Drop(d, n, now, maxAge);
    forall x | x in e.nodes
      ensures ReportListOk(e.nodes[x].reports, e.nodes) && forall r :: r in e.nodes[x].reports ==> r.from != n
    {
      assert ReportListOk(d.nodes[x].reports, d.nodes);
      DropReportsOk(d.nodes[x].reports, n, now, maxAge, d.nodes);
    }
  }

  lemma DropKeepsSlots(d: Config, n: NodeId, now: int, maxAge: int)
    requires SlotsOk(d) && BareOk(d) && forall j :: 0 <= j < SLOTS ==> d.slots[j] != Some(n)
    ensures SlotsOk(Drop(d, n, now, maxAge)) && BareOk(Drop(d, n, now, maxAge))
  {
    var e := Drop(d, n, now, maxAge);
    forall x | x in e.nodes ensures OwnsExactly(e.slots, x, e.nodes[x]) && Bare(e.nodes[x]) {
      assert OwnsExactly(d.slots, x, d.nodes[x]) && Bare(d.nodes[x]);
    }
  }

  predicate Owns(slots: seq<Option<NodeId>>, n: NodeId) { exists j :: 0 <= j < |slots| && slots[j] == Some(n) }

  lemma DropForgets(d: Config, n: NodeId, now: int, maxAge: int)
    requires LinksOk(d) && ReportsOk(d) && !Owns(d.slots, n)
    ensures Forgotten(Drop(d, n, now, maxAge), n)
  {
    DropLinks(d, n, now, maxAge);
    DropKeepsReports(d, n, now, maxAge);
  }

  lemma DropOk(d: Config, n: NodeId, now: int, maxAge: int)
    requires Ok(d) && !Owns(d.slots, n)
    ensures Ok(Drop(d, n, now, maxAge)) && Forgotten(Drop(d, n, now, maxAge), n)
  {
    DropForgets(d, n, now, maxAge);
    DropLinks(d, n, now, maxAge);
    DropKeepsReports(d, n, now, maxAge);
    DropKeepsSlots(d, n, now, maxAge);
  }

  /** Releasing a node's slots leaves it none and touches no other slot. */
  lemma ReleaseOk(c: Config, n: NodeId)
    requires Ok(c)
    ensures var d := ScanAll(c, ReleaseMoves(c, n));
            && Ok(d) && SameLinks(c, d) && !Owns(d.slots, n)
            && (n in c.nodes ==> d.nodes[n].numslots == 0)
            && forall j :: 0 <= j < SLOTS && c.slots[j] != Some(n) ==> d.slots[j] == c.slots[j]
  {
    ScanAllOk(c, ReleaseMoves(c, n));
    var d := ScanAll(c, ReleaseMoves(c, n));
    if n in c.nodes {
      assert OwnsExactly(d.slots, n, d.nodes[n]);
      PopulationZero(d.nodes[n].bitmap);
    }
  }

  /** Deleting a node keeps every invariant and leaves no reference to it. */
  lemma DeleteNodeOk(c: Config, n: NodeId, now: int, maxAge: int)
    requires Ok(c)
    ensures Ok(DeleteNode(c, n, now, maxAge)) && Forgotten(DeleteNode(c, n, now, maxAge), n)
    ensures DeleteNode(c, n, now, maxAge).nodes.Keys == c.nodes.Keys - {n}
  {
    ReleaseOk(c, n);
    var d := ScanAll(c, ReleaseMoves(c, n));
    assert d.nodes.Keys == c.nodes.Keys;
    DropOk(d, n, now, maxAge);
  }
}
