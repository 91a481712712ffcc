/** Runs of everything that changes one node's view of the cluster: what every
    reachable view satisfies, and when the node dereferences a null master. */
module ClusterRuns {
  import opened SlotBitmap
  import opened ClusterConfig
  import opened ClusterSteps
  import opened Options

  datatype Op =
    | Meet(n: NodeId)                                            // a handshake starts
    | Settle(n: NodeId, role: Role)                              // a handshake completes
    | Receive(sender: NodeId, epoch: nat, follows: Option<NodeId>, claimed: Bitmap) // PING, PONG or MEET
    | Update(n: NodeId, epoch: nat, claimed: Bitmap)             // UPDATE
    | Takeover                                                   // an election is won
    | Replicate(n: NodeId, empty: bool)                          // CLUSTER REPLICATE, slave migration
    | Forget(n: NodeId, now: int, maxAge: int)                   // CLUSTER FORGET
    | Expire(n: NodeId, now: int, maxAge: int)                   // a handshake times out
    | Assign(j: nat)                                             // CLUSTER ADDSLOTS
    | Unassign(j: nat)                                           // CLUSTER DELSLOTS
    | Flush(empty: bool)                                         // CLUSTER FLUSHSLOTS
    | Import(j: nat, n: NodeId)                                  // CLUSTER SETSLOT IMPORTING
    | Migrate(j: nat, n: NodeId)                                 // CLUSTER SETSLOT MIGRATING
    | Stable(j: nat)                                             // CLUSTER SETSLOT STABLE
    | Bind(j: nat, n: NodeId, keys: nat, epoch: nat)             // CLUSTER SETSLOT NODE
    | Report(n: NodeId, sender: NodeId, now: int)
    | Retract(n: NodeId, sender: NodeId, now: int, maxAge: int)

  ghost predicate Inv(c: Config, me: NodeId) {
    Ok(c) && me in c.nodes && c.nodes[me].role != Undecided
  }

  function NewNode(role: Role): Node { Node(role, None, [], Empty(), 0, [], 0) }

  function Start(me: NodeId): Config {
    Config(map[me := NewNode(Master)], seq(SLOTS, i => None), seq(SLOTS, i => None), seq(SLOTS, i => None))
  }

  lemma StartOk(me: NodeId)
    ensures Inv(Start(me), me)
  {
    PopulationZero(Empty());
    forall j | 0 <= j < SLOTS ensures !TestBit(Empty(), j) { NoBits(j % 8); }
    assert OwnsExactly(Start(me).slots, me, NewNode(Master));
  }

  lemma NoBits(i: nat)
    requires i < 8
    ensures !BitOf(0, i)
  {}

  // -------- Small edits of one node --------

  /** Everything of a node that the invariants look at, except its reports. */
  predicate SameShape(x: Node, y: Node) {
    x == y.(configEpoch := x.configEpoch, reports := x.reports)
  }

  lemma EditOk(c: Config, n: NodeId, y: Node)
    requires Ok(c) && n in c.nodes && SameShape(y, c.nodes[n]) && ReportListOk(y.reports, c.nodes)
    ensures Ok(Put(c, n, y))
  {
    var d := Put(c, n, y);
    EditLinks(c, n, y);
    forall m | m in d.nodes ensures OwnsExactly(d.slots, m, d.nodes[m]) && Bare(d.nodes[m]) {
      assert OwnsExactly(c.slots, m, c.nodes[m]) && Bare(c.nodes[m]);
    }
    forall m | m in d.nodes ensures ReportListOk(d.nodes[m].reports, d.nodes) {
      assert ReportListOk(c.nodes[m].reports, c.nodes);
    }
  }

  lemma EditLinks(c: Config, n: NodeId, y: Node)
    requires LinksOk(c) && n in c.nodes && SameShape(y, c.nodes[n])
    ensures LinksOk(Put(c, n, y))
  {
    var d := Put(c, n, y);
    forall m | m in d.nodes ensures LinkOkAt(d.nodes, m) { assert LinkOkAt(c.nodes, m); }
  }

  lemma MeetOk(c: Config, n: NodeId)
    requires Ok(c) && n !in c.nodes
    ensures Ok(Put(c, n, NewNode(Undecided)))
  {
    var d := Put(c, n, NewNode(Undecided));
    PopulationZero(Empty());
    forall j | 0 <= j < SLOTS ensures !TestBit(Empty(), j) { NoBits(j % 8); }
    forall m | m in d.nodes ensures OwnsExactly(d.slots, m, d.nodes[m]) && Bare(d.nodes[m]) {
      if m != n { assert OwnsExactly(c.slots, m, c.nodes[m]) && Bare(c.nodes[m]); }
    }
    forall m | m in d.nodes ensures LinkOkAt(d.nodes, m) {
      if m != n { assert LinkOkAt(c.nodes, m); }
    }
    forall m | m in d.nodes ensures ReportListOk(d.nodes[m].reports, d.nodes) {
      if m != n { assert ReportListOk(c.nodes[m].reports, c.nodes); }
    }
  }

  /** `importing` or `migrating` with one entry changed. */
  lemma OpenSlotOk(c: Config, importing: seq<Option<NodeId>>, migrating: seq<Option<NodeId>>)
    requires Ok(c) && TableOk(importing, c.nodes) && TableOk(migrating, c.nodes)
    ensures Ok(c.(importing := importing, migrating := migrating))
  {
    var d := c.(importing := importing, migrating := migrating);
    forall m | m in d.nodes ensures OwnsExactly(d.slots, m, d.nodes[m]) && Bare(d.nodes[m]) {
      assert OwnsExactly(c.slots, m, c.nodes[m]) && Bare(c.nodes[m]);
    }
    forall m | m in d.nodes ensures LinkOkAt(d.nodes, m) { assert LinkOkAt(c.nodes, m); }
    forall m | m in d.nodes ensures ReportListOk(d.nodes[m].reports, d.nodes) {
      assert ReportListOk(c.nodes[m].reports, c.nodes);
    }
  }

  // -------- One step --------

  function SetEpoch(c: Config, n: NodeId, epoch: nat): (d: Config)
    requires n in c.nodes
    ensures d.nodes.Keys == c.nodes.Keys
  {
    if epoch > c.nodes[n].configEpoch then Put(c, n, c.nodes[n].(configEpoch := epoch)) else c
  }

  lemma SetEpochInv(c: Config, me: NodeId, n: NodeId, epoch: nat)
    requires Inv(c, me) && n in c.nodes
    ensures Inv(SetEpoch(c, n, epoch), me) && SetEpoch(c, n, epoch).nodes[n].role == c.nodes[n].role
  {
    assert ReportListOk(c.nodes[n].reports, c.nodes);
    if epoch > c.nodes[n].configEpoch { EditOk(c, n, c.nodes[n].(configEpoch := epoch)); }
  }

  /** The claim of a master, or None where the node dies on a null pointer. */
  ghost function Claim(c: Config, me: NodeId, sender: NodeId, epoch: nat, claimed: Bitmap): Option<Config>
    requires Inv(c, me) && sender in c.nodes
  {
    assert LinkOkAt(c.nodes, me);
    if Crashes(c, me, sender, epoch, claimed) then None else Some(UpdateSlots(c, me, sender, epoch, claimed))
  }

  /** The role part of a packet header, after its epoch. */
  ghost function Heard(c: Config, me: NodeId, sender: NodeId, epoch: nat, follows: Option<NodeId>): (d: Config)
    requires Inv(c, me) && sender in c.nodes && c.nodes[sender].role != Undecided
    ensures Inv(d, me) && sender in d.nodes
  {
    SetEpochInv(c, me, sender, epoch);
    var d := SetEpoch(c, sender, epoch);
    AnnounceInv(d, me, sender, follows);
    Announce(d, sender, follows)
  }

  /** The reported node of an UPDATE, as a master with its new epoch. */
  ghost function Promoted(c: Config, me: NodeId, n: NodeId, epoch: nat): (d: Config)
    requires Inv(c, me) && n in c.nodes && c.nodes[n].role != Undecided
    ensures Inv(d, me) && n in d.nodes && d.nodes[n].role == Master
  {
    PromotedInv(c, me, n);
    var d := AsMaster(c, n);
    SetEpochInv(d, me, n, epoch);
    SetEpoch(d, n, epoch)
  }

  lemma PromotedInv(c: Config, me: NodeId, n: NodeId)
    requires Inv(c, me) && n in c.nodes && c.nodes[n].role != Undecided
    ensures Linked(c, n) && Inv(AsMaster(c, n), me) && AsMaster(c, n).nodes[n].role == Master
  {
    AsMasterOk(c, n);
    AsMasterOthers(c, n);
  }

  lemma AnnounceInv(c: Config, me: NodeId, sender: NodeId, follows: Option<NodeId>)
    requires Inv(c, me) && sender in c.nodes && c.nodes[sender].role != Undecided
    ensures Linked(c, sender) && Inv(Announce(c, sender, follows), me) && sender in Announce(c, sender, follows).nodes
  {
    AnnounceOk(c, sender, follows);
  }

  /** A node may go unless it is this node or the one it replicates. */
  predicate Forgettable(c: Config, me: NodeId, n: NodeId) {
    n in c.nodes && n != me && me in c.nodes && !(c.nodes[me].role == Slave && c.nodes[me].slaveof == Some(n))
  }

  /** `CLUSTER REPLICATE` accepts any node it does not believe to be a slave. */
  predicate Replicable(c: Config, me: NodeId, n: NodeId, empty: bool) {
    && n in c.nodes && n != me && me in c.nodes && c.nodes[n].role != Slave
    && (c.nodes[me].role == Master ==> c.nodes[me].numslots == 0 && empty)
  }

  /** `CLUSTER ADDSLOTS` on a free slot, whatever this node's role. */
  function Assigned(c: Config, me: NodeId, j: nat): Config
    requires me in c.nodes && |c.slots| == SLOTS == |c.importing| && j < SLOTS
  {
    TakeSlot(c.(importing := c.importing[j := None]), me, j)
  }

  /** `CLUSTER SETSLOT NODE` is for masters, and not for a slot of this node that
      still has keys unless it stays here. */
  predicate Bindable(c: Config, me: NodeId, j: nat, n: NodeId, keys: nat)
    requires me in c.nodes && |c.slots| == SLOTS
  {
    j < SLOTS && n in c.nodes && c.nodes[me].role != Slave && !(c.slots[j] == Some(me) && n != me && keys != 0)
  }

  /** The open slot closed; an import that ends here may raise this node's epoch. */
  function Closed(c: Config, me: NodeId, j: nat, n: NodeId, keys: nat, epoch: nat): (d: Config)
    requires me in c.nodes && |c.importing| == SLOTS == |c.migrating| && j < SLOTS
    ensures d.nodes.Keys == c.nodes.Keys && d.slots == c.slots
  {
    var b := c.(migrating := if keys == 0 then c.migrating[j := None] else c.migrating,
                importing := if n == me then c.importing[j := None] else c.importing);
    if n == me && c.importing[j].Some? then SetEpoch(b, me, epoch) else b
  }

  function Bound(c: Config, me: NodeId, j: nat, n: NodeId, keys: nat, epoch: nat): Config
    requires me in c.nodes && n in c.nodes && |c.importing| == SLOTS == |c.migrating| && j < SLOTS
    requires TableOk(c.slots, c.nodes)
  {
    TakeSlot(ClearSlot(Closed(c, me, j, n, keys, epoch), j), n, j)
  }

  /** One step; None where the node dies. */
  ghost function Do(c: Config, me: NodeId, op: Op): Option<Config>
    requires Inv(c, me)
  {
    match op
    case Meet(n) => Some(if n in c.nodes then c else Put(c, n, NewNode(Undecided)))
    case Settle(n, role) =>
      Some(if n in c.nodes && c.nodes[n].role == Undecided && role != Undecided then SetRole(c, n, role) else c)
    case Receive(sender, epoch, follows, claimed) =>
      if sender !in c.nodes || c.nodes[sender].role == Undecided then Some(c)
      else
        var d := Heard(c, me, sender, epoch, follows);
        if d.nodes[sender].role == Master && d.nodes[sender].bitmap != claimed
        then Claim(d, me, sender, epoch, claimed) else Some(d)
    case Update(n, epoch, claimed) =>
      if n !in c.nodes || c.nodes[n].role == Undecided || c.nodes[n].configEpoch >= epoch then Some(c)
      else Claim(Promoted(c, me, n, epoch), me, n, epoch, claimed)
    case Takeover => assert LinkOkAt(c.nodes, me); Some(Failover(c, me))
    case Replicate(n, empty) =>
      assert LinkOkAt(c.nodes, me);
      Some(if Replicable(c, me, n, empty) then SetMaster(c, me, n) else c)
    case Forget(n, now, maxAge) => Some(if Forgettable(c, me, n) then DeleteNode(c, n, now, maxAge) else c)
    case Expire(n, now, maxAge) =>
      Some(if n in c.nodes && c.nodes[n].role == Undecided then DeleteNode(c, n, now, maxAge) else c)
    case Assign(j) => Some(if j < SLOTS && c.slots[j] == None then Assigned(c, me, j) else c)
    case Unassign(j) =>
      Some(if j < SLOTS && c.slots[j].Some? then ClearSlot(c.(importing := c.importing[j := None]), j) else c)
    case Flush(empty) => Some(if empty then ScanAll(c, ReleaseMoves(c, me)) else c)
    case Import(j, n) =>
      Some(if j < SLOTS && n in c.nodes && c.nodes[me].role != Slave && c.slots[j] != Some(me)
           then c.(importing := c.importing[j := Some(n)]) else c)
    case Migrate(j, n) =>
      Some(if j < SLOTS && n in c.nodes && c.nodes[me].role != Slave && c.slots[j] == Some(me)
           then c.(migrating := c.migrating[j := Some(n)]) else c)
    case Stable(j) =>
      Some(if j < SLOTS && c.nodes[me].role != Slave
           then c.(importing := c.importing[j := None], migrating := c.migrating[j := None]) else c)
    case Bind(j, n, keys, epoch) => Some(if Bindable(c, me, j, n, keys) then Bound(c, me, j, n, keys, epoch) else c)
    case Report(n, sender, now) =>
      Some(if n in c.nodes && sender in c.nodes
           then Put(c, n, c.nodes[n].(reports := AddReport(c.nodes[n].reports, sender, now)))
           else c)
    case Retract(n, sender, now, maxAge) =>
      Some(if n in c.nodes
           then Put(c, n, c.nodes[n].(reports := DropReports(c.nodes[n].reports, sender, now, maxAge)))
           else c)
  }

  // -------- Every step keeps the invariant --------

  lemma ClaimInv(c: Config, me: NodeId, sender: NodeId, epoch: nat, claimed: Bitmap)
    requires Inv(c, me) && sender in c.nodes && c.nodes[sender].role == Master
    ensures Claim(c, me, sender, epoch, claimed).Some? ==> Inv(Claim(c, me, sender, epoch, claimed).value, me)
  {
    if !Crashes(c, me, sender, epoch, claimed) { UpdateSlotsOk(c, me, sender, epoch, claimed); }
  }

  lemma DeleteInv(c: Config, me: NodeId, n: NodeId, now: int, maxAge: int)
    requires Inv(c, me) && n != me
    ensures Inv(DeleteNode(c, n, now, maxAge), me)
  {
    DeleteNodeOk(c, n, now, maxAge);
    ReleaseOk(c, n);
  }

  lemma ReplicateInv(c: Config, me: NodeId, n: NodeId, empty: bool)
    requires Inv(c, me) && Replicable(c, me, n, empty)
    ensures Linked(c, me) && Inv(SetMaster(c, me, n), me)
  {
    assert Bare(c.nodes[me]);
    SetMasterOk(c, me, n);
  }

  lemma TakenByOther(c: Config, n: NodeId, j: nat)
    requires Ok(c) && n in c.nodes && j < SLOTS && c.slots[j] == None && c.nodes[n].role != Master
    ensures TakeSlot(c, n, j).nodes[n].numslots == 1 && !BareOk(TakeSlot(c, n, j))
    ensures TakeSlot(c, n, j).nodes.Keys == c.nodes.Keys
    ensures forall x :: x in c.nodes ==> TakeSlot(c, n, j).nodes[x].role == c.nodes[x].role
  {
    assert Bare(c.nodes[n]) && OwnsExactly(c.slots, n, c.nodes[n]);
    OwnerTakes(c.slots, n, c.nodes[n], j);
    assert !Bare(TakeSlot(c, n, j).nodes[n]);
  }

  /** Adding a slot keeps the invariants exactly on a master. */
  lemma AssignInvIff(c: Config, me: NodeId, j: nat)
    requires Inv(c, me) && j < SLOTS && c.slots[j] == None
    ensures Inv(Assigned(c, me, j), me) <==> c.nodes[me].role == Master
  {
    var b := c.(importing := c.importing[j := None]);
    OpenSlotOk(c, b.importing, c.migrating);
    if c.nodes[me].role == Master { TakeSlotKeeps(b, me, j); } else { TakenByOther(b, me, j); }
  }

  lemma ClosedInv(c: Config, me: NodeId, j: nat, n: NodeId, keys: nat, epoch: nat)
    requires Inv(c, me) && j < SLOTS && n in c.nodes
    ensures Inv(Closed(c, me, j, n, keys, epoch), me)
    ensures Closed(c, me, j, n, keys, epoch).nodes[n].role == c.nodes[n].role
  {
    var b := c.(migrating := if keys == 0 then c.migrating[j := None] else c.migrating,
                importing := if n == me then c.importing[j := None] else c.importing);
    OpenSlotOk(c, b.importing, b.migrating);
    SetEpochInv(b, me, me, epoch);
  }

  /** Handing a slot to a node keeps them exactly when that node is a master. */
  lemma BindInvIff(c: Config, me: NodeId, j: nat, n: NodeId, keys: nat, epoch: nat)
    requires Inv(c, me) && j < SLOTS && n in c.nodes
    ensures Inv(Bound(c, me, j, n, keys, epoch), me) <==> c.nodes[n].role == Master
  {
    ClosedInv(c, me, j, n, keys, epoch);
    var b := Closed(c, me, j, n, keys, epoch);
    ClearedSlots(b, j);
    ClearSlotKeeps(b, j);
    var d := ClearSlot(b, j);
    if c.nodes[n].role == Master { TakeSlotKeeps(d, n, j); } else { TakenByOther(d, n, j); }
  }

  /** A slave that has been given a slot still passes every test of
      `CLUSTER REPLICATE`, and then meets the assertion that it owns none. */
  lemma SlaveWithSlotFails(c: Config, me: NodeId, j: nat, n: NodeId, empty: bool)
    requires Inv(c, me) && c.nodes[me].role == Slave && j < SLOTS && c.slots[j] == None && Replicable(c, me, n, empty)
    ensures Replicable(Assigned(c, me, j), me, n, empty) && Assigned(c, me, j).nodes[me].numslots == 1
  {
    var b := c.(importing := c.importing[j := None]);
    OpenSlotOk(c, b.importing, c.migrating);
    TakenByOther(b, me, j);
  }

  lemma UnassignInv(c: Config, me: NodeId, j: nat)
    requires Inv(c, me) && j < SLOTS
    ensures Inv(ClearSlot(c.(importing := c.importing[j := None]), j), me)
  {
    OpenSlotOk(c, c.importing[j := None], c.migrating);
    ClearSlotKeeps(c.(importing := c.importing[j := None]), j);
  }

  lemma ReportsInv(c: Config, me: NodeId, n: NodeId, rs: seq<Report>)
    requires Inv(c, me) && n in c.nodes && ReportListOk(rs, c.nodes)
    ensures Inv(Put(c, n, c.nodes[n].(reports := rs)), me)
  {
    EditOk(c, n, c.nodes[n].(reports := rs));
  }

  /** Packets: the epoch, the role and the slots of the sender. */
  lemma ReceiveInv(c: Config, me: NodeId, op: Op)
    requires Inv(c, me) && (op.Receive? || op.Update?)
    ensures Do(c, me, op).Some? ==> Inv(Do(c, me, op).value, me)
  {
    match op
    case Receive(sender, epoch, follows, claimed) =>
      if sender in c.nodes && c.nodes[sender].role != Undecided {
        var d := Heard(c, me, sender, epoch, follows);
        if d.nodes[sender].role == Master { ClaimInv(d, me, sender, epoch, claimed); }
      }
    case Update(n, epoch, claimed) =>
      if n in c.nodes && c.nodes[n].role != Undecided { ClaimInv(Promoted(c, me, n, epoch), me, n, epoch, claimed); }
  }

  lemma MembershipInv(c: Config, me: NodeId, op: Op)
    requires Inv(c, me) && (op.Meet? || op.Settle? || op.Forget? || op.Expire? || op.Takeover? || op.Replicate?)
    ensures Do(c, me, op).Some? && Inv(Do(c, me, op).value, me)
  {
    match op
    case Meet(n) => if n !in c.nodes { MeetOk(c, n); }
    case Settle(n, role) =>
      if n in c.nodes && c.nodes[n].role == Undecided && role != Undecided {
        assert LinkOkAt(c.nodes, n) && Bare(c.nodes[n]);
        RoleOk(c, n, role);
      }
    case Forget(n, now, maxAge) => if n != me { DeleteInv(c, me, n, now, maxAge); }
    case Expire(n, now, maxAge) => if n != me { DeleteInv(c, me, n, now, maxAge); }
    case Takeover => if c.nodes[me].slaveof.Some? { FailoverExact(c, me); }
    case Replicate(n, empty) => if Replicable(c, me, n, empty) { ReplicateInv(c, me, n, empty); }
  }

  /** A slot is given to a node that is not a master. */
  predicate Misplaced(c: Config, me: NodeId, op: Op)
    requires me in c.nodes && |c.slots| == SLOTS
  {
    || (op.Assign? && op.j < SLOTS && c.slots[op.j] == None && c.nodes[me].role != Master)
    || (op.Bind? && Bindable(c, me, op.j, op.n, op.keys) && c.nodes[op.n].role != Master)
  }

  predicate ForSlots(op: Op) {
    op.Assign? || op.Unassign? || op.Flush? || op.Import? || op.Migrate? || op.Stable? || op.Bind?
  }

  lemma SlotsInv(c: Config, me: NodeId, op: Op)
    requires Inv(c, me) && ForSlots(op)
    ensures Do(c, me, op).Some? && (Inv(Do(c, me, op).value, me) <==> !Misplaced(c, me, op))
  {
    match op
    case Assign(j) => if j < SLOTS && c.slots[j] == None { AssignInvIff(c, me, j); }
    case Unassign(j) => if j < SLOTS { UnassignInv(c, me, j); }
    case Flush(_) => ReleaseOk(c, me);
    case Stable(j) => if j < SLOTS { OpenSlotOk(c, c.importing[j := None], c.migrating[j := None]); }
    case Bind(j, n, keys, epoch) => if Bindable(c, me, j, n, keys) { BindInvIff(c, me, j, n, keys, epoch); }
    case Import(j, n) => if j < SLOTS && n in c.nodes { OpenSlotOk(c, c.importing[j := Some(n)], c.migrating); }
    case Migrate(j, n) => if j < SLOTS && n in c.nodes { OpenSlotOk(c, c.importing, c.migrating[j := Some(n)]); }
  }

  lemma GossipInv(c: Config, me: NodeId, op: Op)
    requires Inv(c, me) && (op.Report? || op.Retract?)
    ensures Do(c, me, op).Some? && Inv(Do(c, me, op).value, me)
  {
    match op
    case Report(n, sender, now) =>
      if n in c.nodes && sender in c.nodes {
        assert ReportListOk(c.nodes[n].reports, c.nodes);
        AddReportOk(c.nodes[n].reports, sender, now, c.nodes);
        ReportsInv(c, me, n, AddReport(c.nodes[n].reports, sender, now));
      }
    case Retract(n, sender, now, maxAge) =>
      if n in c.nodes {
        assert ReportListOk(c.nodes[n].reports, c.nodes);
        DropReportsOk(c.nodes[n].reports, sender, now, maxAge, c.nodes);
        ReportsInv(c, me, n, DropReports(c.nodes[n].reports, sender, now, maxAge));
      }
  }

  /** A step that the node survives keeps every invariant exactly when it gives
      slots to masters only. */
  lemma StepInv(c: Config, me: NodeId, op: Op)
    requires Inv(c, me)
    ensures Do(c, me, op).Some? ==> (Inv(Do(c, me, op).value, me) <==> !Misplaced(c, me, op))
  {
    if op.Receive? || op.Update? { ReceiveInv(c, me, op); }
    else if ForSlots(op) { SlotsInv(c, me, op); }
    else if op.Report? || op.Retract? { GossipInv(c, me, op); }
    else { MembershipInv(c, me, op); }
  }

  /** Where a run leads: a view, the death of the node, or slots with a node that
      is no master. */
  datatype Fate = Alive(view: Config) | Dead | Astray

  ghost function Run(me: NodeId, ops: seq<Op>): (r: Fate)
    ensures r.Alive? ==> Inv(r.view, me)
  {
    if ops == [] then StartOk(me); Alive(Start(me))
    else
      var r, op := Run(me, ops[..|ops| - 1]), ops[|ops| - 1];
      if !r.Alive? then r else Lead(r.view, me, op)
  }

  ghost function Lead(c: Config, me: NodeId, op: Op): (r: Fate)
    requires Inv(c, me)
    ensures r.Alive? ==> Inv(r.view, me)
  {
    StepInv(c, me, op);
    if Misplaced(c, me, op) then Astray
    else if Do(c, me, op) == None then Dead
    else Alive(Do(c, me, op).value)
  }

  // -------- When the node dies --------

  /** Some claimed slot is unassigned and not being imported. */
  predicate ClaimsFree(c: Config, claimed: Bitmap)
    requires |c.slots| == SLOTS && |c.importing| == SLOTS
  {
    exists j :: 0 <= j < SLOTS && TestBit(claimed, j) && c.slots[j] == None && c.importing[j] == None
  }

  /** Another settled node speaks as a master of a free slot while this node is
      a slave without a master. */
  predicate Fatal(c: Config, me: NodeId, op: Op)
    requires me in c.nodes && |c.slots| == SLOTS && |c.importing| == SLOTS
  {
    && c.nodes[me].role == Slave && c.nodes[me].slaveof == None
    && ((op.Receive? && op.sender in c.nodes && op.sender != me && c.nodes[op.sender].role != Undecided
         && op.follows == None && ClaimsFree(c, op.claimed))
        || (op.Update? && op.n in c.nodes && op.n != me && c.nodes[op.n].role != Undecided
            && c.nodes[op.n].configEpoch < op.epoch && ClaimsFree(c, op.claimed)))
  }

  /** What the other steps of a packet leave alone. */
  predicate Undisturbed(c: Config, d: Config, me: NodeId, n: NodeId)
    requires me in c.nodes && n in c.nodes
  {
    && me in d.nodes && n in d.nodes && d.slots == c.slots && d.importing == c.importing
    && d.nodes[n].bitmap == c.nodes[n].bitmap
    && (n != me ==> d.nodes[me].role == c.nodes[me].role && d.nodes[me].slaveof == c.nodes[me].slaveof)
  }

  lemma AsMasterUndisturbed(c: Config, me: NodeId, n: NodeId)
    requires Linked(c, n) && me in c.nodes
    ensures Undisturbed(c, AsMaster(c, n), me, n)
  {}

  lemma CrashesIff(c: Config, me: NodeId, sender: NodeId, epoch: nat, claimed: Bitmap)
    requires Inv(c, me) && sender in c.nodes
    ensures Crashes(c, me, sender, epoch, claimed) <==>
            sender != me && c.nodes[me].role == Slave && c.nodes[me].slaveof == None && ClaimsFree(c, claimed)
  {
    if ClaimsFree(c, claimed) {
      var j :| 0 <= j < SLOTS && TestBit(claimed, j) && c.slots[j] == None && c.importing[j] == None;
      assert Wins(c, sender, epoch, claimed, j);
    }
  }

  lemma FreeIsDirty(c: Config, n: NodeId, claimed: Bitmap)
    requires Ok(c) && n in c.nodes && ClaimsFree(c, claimed)
    ensures c.nodes[n].bitmap != claimed
  {
    assert OwnsExactly(c.slots, n, c.nodes[n]);
  }

  lemma UpdateDiesIff(c: Config, me: NodeId, op: Op)
    requires Inv(c, me) && op.Update? && op.n in c.nodes
    requires c.nodes[op.n].role != Undecided && c.nodes[op.n].configEpoch < op.epoch
    ensures Do(c, me, op) == None <==> Fatal(c, me, op)
  {
    var d := Promoted(c, me, op.n, op.epoch);
    assert LinkOkAt(c.nodes, op.n);
    AsMasterUndisturbed(c, me, op.n);
    CrashesIff(d, me, op.n, op.epoch, op.claimed);
  }

  /** A step kills the node exactly when it is fatal. */
  lemma DiesIff(c: Config, me: NodeId, op: Op)
    requires Inv(c, me)
    ensures Do(c, me, op) == None <==> Fatal(c, me, op)
  {
    match op
    case Receive(sender, epoch, follows, claimed) =>
      if sender in c.nodes && c.nodes[sender].role != Undecided { ReceiveDiesIff(c, me, op); }
    case Update(n, epoch, claimed) =>
      if n in c.nodes && c.nodes[n].role != Undecided && c.nodes[n].configEpoch < epoch { UpdateDiesIff(c, me, op); }
    case _ =>
  }

  lemma ReceiveDiesIff(c: Config, me: NodeId, op: Op)
    requires Inv(c, me) && op.Receive? && op.sender in c.nodes && c.nodes[op.sender].role != Undecided
    ensures Do(c, me, op) == None <==> Fatal(c, me, op)
  {
    SetEpochInv(c, me, op.sender, op.epoch);
    var b := SetEpoch(c, op.sender, op.epoch);
    var d := Heard(c, me, op.sender, op.epoch, op.follows);
    AnnounceOk(b, op.sender, op.follows);
    if op.follows == None {
      assert LinkOkAt(b.nodes, op.sender);
      AsMasterUndisturbed(b, me, op.sender);
      CrashesIff(d, me, op.sender, op.epoch, op.claimed);
      if ClaimsFree(d, op.claimed) { FreeIsDirty(d, op.sender, op.claimed); }
    }
  }

  // -------- Runs that never die --------

  /** A slave follows a node whose handshake is over. */
  predicate Anchored(c: Config, me: NodeId)
    requires me in c.nodes
  {
    c.nodes[me].role == Slave ==>
      && c.nodes[me].slaveof.Some? && c.nodes[me].slaveof.value in c.nodes
      && c.nodes[c.nodes[me].slaveof.value].role != Undecided
  }

  /** The operator does not replicate a node still in handshake and gives slots to
      masters only, and no packet of this node comes back to it. */
  predicate Careful(c: Config, me: NodeId, op: Op)
    requires me in c.nodes && |c.slots| == SLOTS
  {
    && !Misplaced(c, me, op)
    && (op.Replicate? && op.n in c.nodes ==> c.nodes[op.n].role != Undecided)
    && (op.Receive? ==> op.sender != me)
  }

  /** Settled nodes stay settled, and this node follows whom it followed. */
  predicate SameAnchor(c: Config, d: Config, me: NodeId)
    requires me in c.nodes
  {
    && me in d.nodes && c.nodes.Keys == d.nodes.Keys
    && (forall x :: x in c.nodes && c.nodes[x].role != Undecided ==> d.nodes[x].role != Undecided)
    && d.nodes[me].role == c.nodes[me].role && d.nodes[me].slaveof == c.nodes[me].slaveof
  }

  lemma AsMasterAnchor(c: Config, me: NodeId, n: NodeId)
    requires Linked(c, n) && me in c.nodes && n != me
    ensures SameAnchor(c, AsMaster(c, n), me)
  {}

  lemma AnnounceAnchor(c: Config, me: NodeId, sender: NodeId, follows: Option<NodeId>)
    requires Inv(c, me) && sender in c.nodes && sender != me && c.nodes[sender].role != Undecided
    ensures Linked(c, sender) && SameAnchor(c, Announce(c, sender, follows), me)
  {
    AnnounceOk(c, sender, follows);
  }

  lemma ClaimAnchored(c: Config, me: NodeId, sender: NodeId, epoch: nat, claimed: Bitmap)
    requires Inv(c, me) && Anchored(c, me) && sender in c.nodes && c.nodes[sender].role == Master
    ensures Claim(c, me, sender, epoch, claimed).Some?
    ensures me in Claim(c, me, sender, epoch, claimed).value.nodes
    ensures Anchored(Claim(c, me, sender, epoch, claimed).value, me)
  {
    CrashesIff(c, me, sender, epoch, claimed);
    UpdateSlotsOk(c, me, sender, epoch, claimed);
  }

  ghost predicate StaysAnchored(c: Config, me: NodeId, op: Op)
    requires Inv(c, me)
  {
    Do(c, me, op).Some? && me in Do(c, me, op).value.nodes && Anchored(Do(c, me, op).value, me)
  }

  lemma ReceiveAnchored(c: Config, me: NodeId, op: Op)
    requires Inv(c, me) && Anchored(c, me) && op.Receive? && op.sender != me
    ensures StaysAnchored(c, me, op)
  {
    if op.sender in c.nodes && c.nodes[op.sender].role != Undecided {
      SetEpochInv(c, me, op.sender, op.epoch);
      var b := SetEpoch(c, op.sender, op.epoch);
      AnnounceAnchor(b, me, op.sender, op.follows);
      var d := Heard(c, me, op.sender, op.epoch, op.follows);
      assert Anchored(d, me);
      if d.nodes[op.sender].role == Master { ClaimAnchored(d, me, op.sender, op.epoch, op.claimed); }
    }
  }

  lemma UpdateAnchored(c: Config, me: NodeId, op: Op)
    requires Inv(c, me) && Anchored(c, me) && op.Update?
    ensures StaysAnchored(c, me, op)
  {
    if op.n in c.nodes && c.nodes[op.n].role != Undecided && c.nodes[op.n].configEpoch < op.epoch {
      var d := Promoted(c, me, op.n, op.epoch);
      assert LinkOkAt(c.nodes, op.n);
      if op.n != me { AsMasterAnchor(c, me, op.n); }
      assert Anchored(d, me);
      ClaimAnchored(d, me, op.n, op.epoch, op.claimed);
    }
  }

  lemma DeleteAnchored(c: Config, me: NodeId, n: NodeId, now: int, maxAge: int)
    requires Inv(c, me) && Anchored(c, me) && n != me && (c.nodes[me].role == Slave ==> c.nodes[me].slaveof != Some(n))
    ensures me in DeleteNode(c, n, now, maxAge).nodes && Anchored(DeleteNode(c, n, now, maxAge), me)
  {
    ReleaseOk(c, n);
  }

  lemma MembershipAnchored(c: Config, me: NodeId, op: Op)
    requires Inv(c, me) && Anchored(c, me) && Careful(c, me, op)
    requires op.Forget? || op.Expire? || op.Takeover? || op.Replicate?
    ensures StaysAnchored(c, me, op)
  {
    match op
    case Forget(n, now, maxAge) => if Forgettable(c, me, n) { DeleteAnchored(c, me, n, now, maxAge); }
    case Expire(n, now, maxAge) =>
      if n in c.nodes && c.nodes[n].role == Undecided { DeleteAnchored(c, me, n, now, maxAge); }
    case Takeover => if c.nodes[me].slaveof.Some? { FailoverExact(c, me); }
    case Replicate(n, empty) =>
      if Replicable(c, me, n, empty) {
        assert Bare(c.nodes[me]);
        SetMasterOk(c, me, n);
      }
  }

  /** From an anchored view a careful step does not kill the node and leaves it
      anchored. */
  lemma CarefulStep(c: Config, me: NodeId, op: Op)
    requires Inv(c, me) && Anchored(c, me) && Careful(c, me, op)
    ensures StaysAnchored(c, me, op)
  {
    if op.Receive? { ReceiveAnchored(c, me, op); }
    else if op.Update? { UpdateAnchored(c, me, op); }
    else if op.Forget? || op.Expire? || op.Takeover? || op.Replicate? { MembershipAnchored(c, me, op); }
    else if op.Flush? { ReleaseOk(c, me); }
    else if op.Bind? && Bindable(c, me, op.j, op.n, op.keys) { BindAnchored(c, me, op); }
  }

  lemma BindAnchored(c: Config, me: NodeId, op: Op)
    requires Inv(c, me) && Anchored(c, me) && op.Bind? && Bindable(c, me, op.j, op.n, op.keys)
    ensures StaysAnchored(c, me, op)
  {
    ClosedInv(c, me, op.j, op.n, op.keys, op.epoch);
    var b := Closed(c, me, op.j, op.n, op.keys, op.epoch);
    GiveSlots(b, op.j, op.n);
  }

  ghost predicate CarefulRun(me: NodeId, ops: seq<Op>) {
    ops == [] || (var before := ops[..|ops| - 1];
                  CarefulRun(me, before) && (Run(me, before).Alive? ==>
                                             Careful(Run(me, before).view, me, ops[|ops| - 1])))
  }

  /** A careful run never reaches the null pointer or misplaces a slot. */
  lemma {:induction false} CarefulRunsLive(me: NodeId, ops: seq<Op>)
    requires CarefulRun(me, ops)
    ensures Run(me, ops).Alive? && Anchored(Run(me, ops).view, me)
  {
    if ops != [] {
      CarefulRunsLive(me, ops[..|ops| - 1]);
      CarefulStep(Run(me, ops[..|ops| - 1]).view, me, ops[|ops| - 1]);
    }
  }

  // -------- A run that dies --------

  /** A slave without a master, and slot 0 free. */
  predicate Orphaned(c: Config, me: NodeId) {
    && me in c.nodes && c.nodes[me].role == Slave && c.nodes[me].slaveof == None
    && |c.slots| == SLOTS && |c.importing| == SLOTS && c.slots[0] == None && c.importing[0] == None
  }

  lemma RunSnoc(me: NodeId, ops: seq<Op>, op: Op)
    ensures Run(me, ops + [op]) == if Run(me, ops).Alive? then Lead(Run(me, ops).view, me, op) else Run(me, ops)
  {
    assert (ops + [op])[..|ops + [op]| - 1] == ops;
  }

  /** Replicating a node in handshake and losing it to the timeout orphans this
      node. */
  lemma OrphanedByExpiry(c: Config, me: NodeId)
    requires Inv(c, me) && c.nodes.Keys == {me, 1} && me != 1 && c.nodes[1].role == Undecided
    requires c.slots[0] == None && c.importing[0] == None && c.nodes[me].role == Slave && c.nodes[me].slaveof == Some(1)
    ensures Orphaned(DeleteNode(c, 1, 0, 0), me) && DeleteNode(c, 1, 0, 0).nodes.Keys == {me}
  {
    ReleaseOk(c, 1);
  }

  lemma FirstSteps(me: NodeId)
    requires me != 1
    ensures var r := Run(me, [Meet(1), Replicate(1, true)]);
            && r.Alive? && r.view.nodes.Keys == {me, 1} && r.view.nodes[1].role == Undecided
            && r.view.slots[0] == None && r.view.importing[0] == None
            && r.view.nodes[me].role == Slave && r.view.nodes[me].slaveof == Some(1)
  {
    RunSnoc(me, [], Meet(1));
    RunSnoc(me, [Meet(1)], Replicate(1, true));
    assert [] + [Meet(1)] == [Meet(1)] && [Meet(1)] + [Replicate(1, true)] == [Meet(1), Replicate(1, true)];
    var c := Run(me, [Meet(1)]).view;
    assert c == Put(Start(me), 1, NewNode(Undecided));
    SetMasterOk(c, me, 1);
  }

  lemma Claimant(c: Config, me: NodeId)
    requires Inv(c, me) && Orphaned(c, me) && 2 !in c.nodes
    ensures Do(c, me, Meet(2)).Some? && Inv(Do(c, me, Meet(2)).value, me)
    ensures var d := Do(Do(c, me, Meet(2)).value, me, Settle(2, Master));
            d.Some? && Inv(d.value, me) && Fatal(d.value, me, Receive(2, 1, None, SetBit(Empty(), 0)))
  {
    StepInv(c, me, Meet(2));
    var d := Do(c, me, Meet(2)).value;
    StepInv(d, me, Settle(2, Master));
    SetBitEffect(Empty(), 0, 0);
  }

  lemma ReachOrphan(me: NodeId) returns (c: Config)
    requires me != 1
    ensures Run(me, [Meet(1), Replicate(1, true), Expire(1, 0, 0)]) == Alive(c)
    ensures Inv(c, me) && Orphaned(c, me) && c.nodes.Keys == {me}
  {
    FirstSteps(me);
    var two := [Meet(1), Replicate(1, true)];
    var b := Run(me, two).view;
    OrphanedByExpiry(b, me);
    RunSnoc(me, two, Expire(1, 0, 0));
    assert two + [Expire(1, 0, 0)] == [Meet(1), Replicate(1, true), Expire(1, 0, 0)];
    c := DeleteNode(b, 1, 0, 0);
  }

  lemma Continue(me: NodeId, ops: seq<Op>, c: Config, op: Op, more: seq<Op>)
    requires Run(me, ops) == Alive(c) && Inv(c, me) && !ForSlots(op) && more == ops + [op]
    ensures Run(me, more) == if Do(c, me, op) == None then Dead else Alive(Do(c, me, op).value)
  {
    RunSnoc(me, ops, op);
  }

  /** The operator can lead a node to its death with one command. */
  lemma DeathIsReachable(me: NodeId)
    requires me != 1 && me != 2
    ensures Run(me, [Meet(1), Replicate(1, true), Expire(1, 0, 0), Meet(2), Settle(2, Master),
                     Receive(2, 1, None, SetBit(Empty(), 0))]) == Dead
  {
    var last := Receive(2, 1, None, SetBit(Empty(), 0));
    var three := [Meet(1), Replicate(1, true), Expire(1, 0, 0)];
    var four, five := three + [Meet(2)], three + [Meet(2), Settle(2, Master)];
    var c := ReachOrphan(me);
    Claimant(c, me);
    var d := Do(c, me, Meet(2)).value;
    var e := Do(d, me, Settle(2, Master)).value;
    Continue(me, three, c, Meet(2), four);
    Continue(me, four, d, Settle(2, Master), five);
    Continue(me, five, e, last, five + [last]);
    DiesIff(e, me, last);
    assert five + [last] == [Meet(1), Replicate(1, true), Expire(1, 0, 0), Meet(2), Settle(2, Master), last];
  }
}
