/** Everything that changes a node's view of the cluster, and what every such
    change keeps. */
module ClusterSteps {
  import opened SlotBitmap
  import opened ClusterConfig
  import opened Options

  /** `clusterSetMaster`: this node becomes a slave of `n`. */
  function SetMaster(c: Config, me: NodeId, n: NodeId): (r: Config)
    requires Linked(c, me) && n in c.nodes
    ensures r.nodes.Keys == c.nodes.Keys
  {
    var d := if c.nodes[me].role == Master
             then SetRole(c, me, Slave).(importing := seq(SLOTS, i => None), migrating := seq(SLOTS, i => None))
             else c;
    Follow(d, me, n)
  }

  lemma CloseAll(c: Config)
    requires Ok(c)
    ensures Ok(c.(importing := seq(SLOTS, i => None), migrating := seq(SLOTS, i => None)))
  {
    var d := c.(importing := seq(SLOTS, i => None), migrating := seq(SLOTS, i => None));
    forall x | x in d.nodes ensures LinkOkAt(d.nodes, x) { assert LinkOkAt(c.nodes, x); }
  }

  lemma FollowRoles(c: Config, a: NodeId, m: NodeId)
    requires Linked(c, a) && m in c.nodes
    ensures forall x :: x in c.nodes ==> Follow(c, a, m).nodes[x].role == c.nodes[x].role
    ensures forall x :: x in c.nodes && x != a ==> Follow(c, a, m).nodes[x].slaveof == c.nodes[x].slaveof
  {}

  lemma SetMasterOk(c: Config, me: NodeId, n: NodeId)
    requires Ok(c) && me in c.nodes && n in c.nodes && c.nodes[me].numslots == 0 && c.nodes[me].role != Undecided
    ensures Linked(c, me) && Ok(SetMaster(c, me, n)) && SetMaster(c, me, n).slots == c.slots
    ensures SetMaster(c, me, n).nodes[me].slaveof == Some(n) && SetMaster(c, me, n).nodes[me].role == Slave
    ensures forall x :: x in c.nodes && x != me ==> SetMaster(c, me, n).nodes[x].role == c.nodes[x].role
  {
    assert LinkOkAt(c.nodes, me);
    if c.nodes[me].role == Master {
      RoleOk(c, me, Slave);
      CloseAll(SetRole(c, me, Slave));
      var d := SetRole(c, me, Slave).(importing := seq(SLOTS, i => None), migrating := seq(SLOTS, i => None));
      FollowOk(d, me, n);
      FollowRoles(d, me, n);
    } else {
      FollowOk(c, me, n);
      FollowRoles(c, me, n);
    }
  }

  // -------- Slot claims --------

  /** This node, or the master it replicates. */
  function CurrentMaster(c: Config, me: NodeId): Option<NodeId>
    requires me in c.nodes
  {
    if c.nodes[me].role == Master then Some(me) else c.nodes[me].slaveof
  }

  predicate Claimable(c: Config) { TableOk(c.slots, c.nodes) && |c.importing| == SLOTS }

  /** The claim takes some slot held by `o`. */
  predicate TakesFrom(c: Config, sender: NodeId, epoch: nat, claimed: Bitmap, o: Option<NodeId>)
    requires Claimable(c)
  {
    exists j :: 0 <= j < SLOTS && Wins(c, sender, epoch, claimed, j) && c.slots[j] == o
  }

  /** The null pointer case: a slave that knows no master of its own is told of
      an unassigned slot. */
  predicate Crashes(c: Config, me: NodeId, sender: NodeId, epoch: nat, claimed: Bitmap)
    requires Claimable(c) && me in c.nodes
  {
    sender != me && CurrentMaster(c, me) == None && TakesFrom(c, sender, epoch, claimed, None)
  }

  /** The claim takes the last slots of this node's master, or of this node where
      it is the master. */
  predicate Demotes(c: Config, me: NodeId, sender: NodeId, epoch: nat, claimed: Bitmap)
    requires Claimable(c) && me in c.nodes && sender in c.nodes
  {
    var d, cur := ScanAll(c, ClaimMoves(c, sender, epoch, claimed)), CurrentMaster(c, me);
    cur.Some? && TakesFrom(c, sender, epoch, claimed, cur) && cur.value in d.nodes && d.nodes[cur.value].numslots == 0
  }

  /** `clusterUpdateSlotsConfigWith`, where it does not crash. */
  function UpdateSlots(c: Config, me: NodeId, sender: NodeId, epoch: nat, claimed: Bitmap): Config
    requires Claimable(c) && Linked(c, me) && sender in c.nodes && !Crashes(c, me, sender, epoch, claimed)
  {
    if sender == me then c
    else
      var d := ScanAll(c, ClaimMoves(c, sender, epoch, claimed));
      if Demotes(c, me, sender, epoch, claimed) && Linked(d, me) then SetMaster(d, me, sender) else d
  }

  lemma ClaimsOk(c: Config, sender: NodeId, epoch: nat, claimed: Bitmap)
    requires Ok(c) && sender in c.nodes && c.nodes[sender].role == Master
    ensures var d := ScanAll(c, ClaimMoves(c, sender, epoch, claimed));
            && Ok(d) && SameLinks(c, d)
            && forall j :: 0 <= j < SLOTS ==>
              d.slots[j] == if Wins(c, sender, epoch, claimed, j) then Some(sender) else c.slots[j]
  {
    ScanAllOk(c, ClaimMoves(c, sender, epoch, claimed));
  }

  lemma DemotionOk(c: Config, d: Config, me: NodeId, sender: NodeId, cur: NodeId)
    requires Ok(d) && SameLinks(c, d) && me in c.nodes && sender in c.nodes && c.nodes[me].role != Undecided
    requires CurrentMaster(c, me) == Some(cur) && cur in d.nodes && d.nodes[cur].numslots == 0
    ensures Linked(d, me) && Ok(SetMaster(d, me, sender)) && SetMaster(d, me, sender).slots == d.slots
    ensures SetMaster(d, me, sender).nodes[me].slaveof == Some(sender)
    ensures SetMaster(d, me, sender).nodes[me].role == Slave
    ensures forall x :: x in c.nodes && x != me ==> SetMaster(d, me, sender).nodes[x].role == c.nodes[x].role
  {
    assert d.nodes[me].role == c.nodes[me].role;
    assert d.nodes[me].numslots == 0 by { if c.nodes[me].role != Master { assert Bare(d.nodes[me]); } }
    SetMasterOk(d, me, sender);
  }

  lemma ResolvedLink(c: Config, me: NodeId)
    requires LinksOk(c) && me in c.nodes
    ensures Linked(c, me)
  {
    assert LinkOkAt(c.nodes, me);
  }

  lemma UpdateSlotsOk(c: Config, me: NodeId, sender: NodeId, epoch: nat, claimed: Bitmap)
    requires Ok(c) && me in c.nodes && c.nodes[me].role != Undecided
    requires sender in c.nodes && c.nodes[sender].role == Master && !Crashes(c, me, sender, epoch, claimed)
    ensures Linked(c, me)
    ensures var d := UpdateSlots(c, me, sender, epoch, claimed);
            && Ok(d) && d.nodes.Keys == c.nodes.Keys
            && (forall x :: x in c.nodes && x != me ==> d.nodes[x].role == c.nodes[x].role)
            && ((d.nodes[me].role == Slave && d.nodes[me].slaveof == Some(sender))
                || (d.nodes[me].role == c.nodes[me].role && d.nodes[me].slaveof == c.nodes[me].slaveof))
            && d.slots == if sender == me then c.slots else ScanAll(c, ClaimMoves(c, sender, epoch, claimed)).slots
  {
    ResolvedLink(c, me);
    if sender != me {
      ClaimsOk(c, sender, epoch, claimed);
      var d := ScanAll(c, ClaimMoves(c, sender, epoch, claimed));
      if Demotes(c, me, sender, epoch, claimed) { DemotionOk(c, d, me, sender, CurrentMaster(c, me).value); }
    }
  }

  lemma {:induction false} KeepAll(c: Config, moves: seq<Move>, k: nat)
    requires TableOk(c.slots, c.nodes) && |moves| == SLOTS && k <= SLOTS
    requires forall j :: 0 <= j < SLOTS ==> moves[j] == Keep
    ensures Scan(c, moves, k) == c
  {
    if k > 0 { KeepAll(c, moves, k - 1); }
  }

  /** A packet whose bitmap is the one already known need not be scanned: the
      comparison before the scan only skips scans that change nothing. */
  lemma CleanClaimIsVoid(c: Config, me: NodeId, sender: NodeId, epoch: nat)
    requires Ok(c) && me in c.nodes && sender in c.nodes
    ensures Linked(c, me) && !Crashes(c, me, sender, epoch, c.nodes[sender].bitmap)
    ensures UpdateSlots(c, me, sender, epoch, c.nodes[sender].bitmap) == c
  {
    ResolvedLink(c, me);
    assert OwnsExactly(c.slots, sender, c.nodes[sender]);
    var ms := ClaimMoves(c, sender, epoch, c.nodes[sender].bitmap);
    KeepAll(c, ms, |ms|);
  }

  // -------- Failover --------

  /** `clusterFailoverReplaceYourMaster`. */
  function Failover(c: Config, me: NodeId): Config
    requires TableOk(c.slots, c.nodes) && Linked(c, me)
  {
    if c.nodes[me].role == Master || c.nodes[me].slaveof == None then c
    else
      var d := AsMaster(c, me);
      ScanAll(d, TakeOverMoves(d, c.nodes[me].slaveof.value, me))
  }

  /** A failover moves exactly the old master's slots, all of them to this node,
      which becomes a master following nobody. */
  lemma FailoverExact(c: Config, me: NodeId)
    requires Ok(c) && me in c.nodes && c.nodes[me].slaveof.Some?
    ensures Linked(c, me) && Ok(Failover(c, me))
    ensures var old_, d := c.nodes[me].slaveof.value, Failover(c, me);
            && d.nodes[me].role == Master && d.nodes[me].slaveof == None
            && forall j :: 0 <= j < SLOTS ==> d.slots[j] == if c.slots[j] == Some(old_) then Some(me) else c.slots[j]
  {
    assert LinkOkAt(c.nodes, me);
    AsMasterOk(c, me);
    var d := AsMaster(c, me);
    ScanAllOk(d, TakeOverMoves(d, c.nodes[me].slaveof.value, me));
    assert LinkOkAt(Failover(c, me).nodes, me);
  }

  // -------- Role announcements --------

  /** A master that turned into a slave loses its slots. */
  function Demoted(c: Config, n: NodeId): (d: Config)
    requires TableOk(c.slots, c.nodes) && n in c.nodes
    ensures d.nodes.Keys == c.nodes.Keys
  {
    if c.nodes[n].role == Master then SetRole(ScanAll(c, ReleaseMoves(c, n)), n, Slave) else c
  }

  /** What a header's `slaveof` field does to the sender's entry. */
  function Announce(c: Config, sender: NodeId, follows: Option<NodeId>): (r: Config)
    requires TableOk(c.slots, c.nodes) && Linked(c, sender)
    ensures r.nodes.Keys == c.nodes.Keys
  {
    if follows == None then AsMaster(c, sender)
    else
      var d := Demoted(c, sender);
      if follows.value in d.nodes && Linked(d, sender) && d.nodes[sender].slaveof != follows
      then Follow(d, sender, follows.value) else d
  }

  /** Who has which role and follows whom, for everybody but n. */
  predicate SameOthers(c: Config, d: Config, n: NodeId) {
    && c.nodes.Keys == d.nodes.Keys
    && forall x :: x in c.nodes && x != n ==>
      d.nodes[x].role == c.nodes[x].role && d.nodes[x].slaveof == c.nodes[x].slaveof
  }

  lemma DemotedOk(c: Config, n: NodeId)
    requires Ok(c) && n in c.nodes && c.nodes[n].role != Undecided
    ensures Ok(Demoted(c, n)) && SameOthers(c, Demoted(c, n), n) && Demoted(c, n).nodes[n].role == Slave
  {
    if c.nodes[n].role == Master {
      ReleaseOk(c, n);
      assert LinkOkAt(c.nodes, n);
      RoleOk(ScanAll(c, ReleaseMoves(c, n)), n, Slave);
    }
  }

  lemma AsMasterOthers(c: Config, n: NodeId)
    requires Linked(c, n)
    ensures SameOthers(c, AsMaster(c, n), n) && AsMaster(c, n).nodes[n].role == Master
  {}

  /** An announcement keeps the invariants, settles the sender's role and leaves
      the roles and masters of all others. */
  lemma AnnounceOk(c: Config, sender: NodeId, follows: Option<NodeId>)
    requires Ok(c) && sender in c.nodes && c.nodes[sender].role != Undecided
    ensures Linked(c, sender) && Ok(Announce(c, sender, follows)) && SameOthers(c, Announce(c, sender, follows), sender)
    ensures Announce(c, sender, follows).nodes[sender].role == if follows == None then Master else Slave
  {
    assert LinkOkAt(c.nodes, sender);
    if follows == None {
      AsMasterOk(c, sender);
      AsMasterOthers(c, sender);
    } else {
      DemotedOk(c, sender);
      var d := Demoted(c, sender);
      if follows.value in d.nodes {
        FollowOk(d, sender, follows.value);
        FollowRoles(d, sender, follows.value);
      }
    }
  }
}
