/** The cluster view as `cluster.c` keeps it: fields changed in place, slot by
    slot and link by link. Every method is tied to the value functions whose
    invariants are proved beside them. */
module ClusterState {
  import opened SlotBitmap
  import opened ClusterConfig
  import opened ClusterSteps
  import opened Options

  class Cluster {
    var nodes: map<NodeId, Node>
    var slots: seq<Option<NodeId>>
    var importing: seq<Option<NodeId>>
    var migrating: seq<Option<NodeId>>

    ghost function View(): Config
      reads this
    {
      Config(nodes, slots, importing, migrating)
    }

    /** `clusterDelSlot`: the node's bit was set, as its assertion says. */
    method DelSlot(j: nat) returns (ok: bool)
      requires SlotsOk(View()) && j < SLOTS
      modifies this
      ensures ok <==> old(slots[j]).Some?
      ensures View() == ClearSlot(old(View()), j) && SlotsOk(View())
    {
      ClearSlotOk(View(), j);
      if slots[j] == None { return false; }
      var n := slots[j].value;
      var was := TestBit(nodes[n].bitmap, j);
      nodes := nodes[n := nodes[n].(bitmap := ClearBit(nodes[n].bitmap, j),
                                    numslots := nodes[n].numslots - if was then 1 else 0)];
      assert was;
      slots := slots[j := None];
      ok := true;
    }

    /** `clusterAddSlot`. */
    method AddSlot(n: NodeId, j: nat) returns (ok: bool)
      requires SlotsOk(View()) && n in nodes && j < SLOTS
      modifies this
      ensures ok <==> old(slots[j]) == None
      ensures View() == TakeSlot(old(View()), n, j) && SlotsOk(View())
    {
      TakeSlotOk(View(), n, j);
      if slots[j] != None { return false; }
      var was := TestBit(nodes[n].bitmap, j);
      nodes := nodes[n := nodes[n].(bitmap := SetBit(nodes[n].bitmap, j),
                                    numslots := nodes[n].numslots + if was then 0 else 1)];
      slots := slots[j := Some(n)];
      ok := true;
    }

    /** `clusterDelNodeSlots`: releases exactly the node's slots and counts them. */
    method DelNodeSlots(n: NodeId) returns (deleted: int)
      requires Ok(View()) && n in nodes
      modifies this
      ensures View() == ScanAll(old(View()), ReleaseMoves(old(View()), n)) && Ok(View())
      ensures deleted == old(nodes[n].numslots) && nodes[n].numslots == 0
    {
      ghost var c := View();
      ghost var views := Trace(c, ReleaseMoves(c, n));
      deleted := 0;
      var j := 0;
      while j < SLOTS
        invariant 0 <= j <= SLOTS && View() == views[j] && n in nodes
        invariant deleted + nodes[n].numslots == c.nodes[n].numslots
      {
        assert Round(c, ReleaseMoves(c, n), j, views[j], views[j + 1]);
        assert OwnsExactly(View().slots, n, View().nodes[n]);
        if TestBit(nodes[n].bitmap, j) {
          var _ := DelSlot(j);
          deleted := deleted + 1;
        }
        j := j + 1;
      }
      ReleaseOk(c, n);
    }

    // -------- Links --------

    /** `clusterNodeRemoveSlave`: shifts the rest of the array down. */
    method RemoveSlave(m: NodeId, a: NodeId) returns (ok: bool)
      requires m in nodes
      modifies this
      ensures ok <==> a in old(nodes[m].slaves)
      ensures View() == Put(old(View()), m, old(nodes[m]).(slaves := Without(old(nodes[m].slaves), a)))
    {
      ghost var s := nodes[m].slaves;
      var j := 0;
      while j < |nodes[m].slaves|
        invariant 0 <= j <= |s| && View() == old(View()) && a !in s[..j]
      {
        if nodes[m].slaves[j] == a {
          WithoutFirst(s, a, j);
          nodes := nodes[m := nodes[m].(slaves := nodes[m].slaves[..j] + nodes[m].slaves[j + 1..])];
          return true;
        }
        j := j + 1;
      }
      WithoutNone(s, a);
      assert nodes[m := nodes[m]] == nodes;
      ok := false;
    }

    /** `clusterNodeAddSlave`: appends unless already there. */
    method AddSlave(m: NodeId, a: NodeId) returns (ok: bool)
      requires m in nodes
      modifies this
      ensures ok <==> a !in old(nodes[m].slaves)
      ensures !ok ==> View() == old(View())
      ensures ok ==> View() == Put(old(View()), m, old(nodes[m]).(slaves := old(nodes[m].slaves) + [a]))
    {
      var j := 0;
      while j < |nodes[m].slaves|
        invariant 0 <= j <= |nodes[m].slaves| && View() == old(View()) && a !in nodes[m].slaves[..j]
      {
        if nodes[m].slaves[j] == a { return false; }
        j := j + 1;
      }
      assert nodes[m].slaves[..j] == nodes[m].slaves;
      nodes := nodes[m := nodes[m].(slaves := nodes[m].slaves + [a])];
      ok := true;
    }

    /** `clusterSetNodeAsMaster`. */
    method SetNodeAsMaster(n: NodeId)
      requires Ok(View()) && n in nodes
      modifies this
      ensures Linked(old(View()), n) && View() == AsMaster(old(View()), n) && Ok(View())
    {
      AsMasterOk(View(), n);
      if nodes[n].role == Master { return; }
      if nodes[n].slaveof.Some? {
        var _ := RemoveSlave(nodes[n].slaveof.value, n);
      }
      nodes := nodes[n := nodes[n].(role := Master, slaveof := None)];
    }

    /** Take `a` off its master's list, if it has one; the pointer stays. */
    method Detach(a: NodeId)
      requires Linked(View(), a)
      modifies this
      ensures View() == Detached(old(View()), a)
    {
      if nodes[a].slaveof.Some? {
        var _ := RemoveSlave(nodes[a].slaveof.value, a);
      }
    }

    method Attach(a: NodeId, m: NodeId)
      requires a in nodes && m in nodes && a !in nodes[m].slaves
      modifies this
      ensures View() == Link(old(View()), a, m)
    {
      nodes := nodes[a := nodes[a].(slaveof := Some(m))];
      var _ := AddSlave(m, a);
    }

    /** `clusterSetMaster`: this node follows `n`; its assertions are the
        preconditions. */
    method SetMyMaster(me: NodeId, n: NodeId)
      requires Ok(View()) && me in nodes && nodes[me].role != Undecided && n in nodes && n != me
      requires nodes[me].numslots == 0
      modifies this
      ensures Linked(old(View()), me) && View() == SetMaster(old(View()), me, n) && Ok(View())
    {
      SetMasterOk(View(), me, n);
      if nodes[me].role == Master {
        nodes := nodes[me := nodes[me].(role := Slave)];
        importing, migrating := seq(SLOTS, i => None), seq(SLOTS, i => None);
        DemotedLinks(old(View()), me);
        DetachedLink(View(), me, n);
      } else {
        DetachedLink(View(), me, n);
        Detach(me);
      }
      Attach(me, n);
    }

    /** `clusterFailoverReplaceYourMaster`. */
    method FailoverReplaceYourMaster(me: NodeId)
      requires Ok(View()) && me in nodes
      modifies this
      ensures Linked(old(View()), me) && View() == Failover(old(View()), me) && Ok(View())
    {
      ResolvedLink(View(), me);
      if nodes[me].role == Master || nodes[me].slaveof == None { return; }
      FailoverExact(View(), me);
      var from := nodes[me].slaveof.value;
      SetNodeAsMaster(me);
      ghost var c := View();
      TakeOverSlots(from, me);
    }

    method TakeOverSlots(from: NodeId, me: NodeId)
      requires Ok(View()) && from in nodes && me in nodes && nodes[me].role == Master
      modifies this
      ensures View() == ScanAll(old(View()), TakeOverMoves(old(View()), from, me))
    {
      ghost var c := View();
      ghost var views := Trace(c, TakeOverMoves(c, from, me));
      var j := 0;
      while j < SLOTS
        invariant 0 <= j <= SLOTS && View() == views[j]
      {
        assert Round(c, TakeOverMoves(c, from, me), j, views[j], views[j + 1]);
        assert OwnsExactly(View().slots, from, View().nodes[from]);
        if TestBit(nodes[from].bitmap, j) {
          var _ := DelSlot(j);
          var _ := AddSlot(me, j);
        }
        j := j + 1;
      }
    }

    /** One round of that loop. */
    method ClaimSlot(sender: NodeId, epoch: nat, claimed: Bitmap, j: nat) returns (won: bool, was: Option<NodeId>)
      requires SlotsOk(View()) && |importing| == SLOTS && sender in nodes && j < SLOTS
      modifies this
      ensures was == old(slots[j]) && (won <==> Wins(old(View()), sender, epoch, claimed, j))
      ensures View() == if won then TakeSlot(ClearSlot(old(View()), j), sender, j) else old(View())
    {
      was, won := slots[j], false;
      if TestBit(claimed, j) {
        if slots[j] == Some(sender) || importing[j].Some? { return; }
        if slots[j] == None || nodes[slots[j].value].configEpoch < epoch {
          var _ := DelSlot(j);
          var _ := AddSlot(sender, j);
          won := true;
        }
      }
    }

    /** The loop of `clusterUpdateSlotsConfigWith`: rebinds the slots the sender
        wins, notes whether one of them was the current master's, and lists those
        that were this node's and still hold keys. */
    method Rebind(me: NodeId, sender: NodeId, epoch: nat, claimed: Bitmap, keys: seq<nat>)
        returns (took: bool, dirty: seq<nat>)
      requires Ok(View()) && me in nodes && sender in nodes && nodes[sender].role == Master && |keys| == SLOTS
      modifies this
      ensures View() == ScanAll(old(View()), ClaimMoves(old(View()), sender, epoch, claimed))
      ensures took <==> TakesFrom(old(View()), sender, epoch, claimed, CurrentMaster(old(View()), me))
      ensures dirty == Lost(old(View()), me, sender, epoch, claimed, keys, |keys|)
    {
      ghost var c := View();
      ghost var views := Trace(c, ClaimMoves(c, sender, epoch, claimed));
      var cur := if nodes[me].role == Master then Some(me) else nodes[me].slaveof;
      took, dirty := false, [];
      var j := 0;
      while j < SLOTS
        invariant 0 <= j <= SLOTS && View() == views[j]
        invariant took <==> TakesBelow(c, sender, epoch, claimed, cur, j)
        invariant dirty == Lost(c, me, sender, epoch, claimed, keys, j)
      {
        assert Round(c, ClaimMoves(c, sender, epoch, claimed), j, views[j], views[j + 1]);
        SameWins(c, View(), sender, epoch, claimed, j);
        RoundResults(c, me, sender, epoch, claimed, keys, cur, j);
        var won, was := ClaimSlot(sender, epoch, claimed, j);
        if won {
          if was == Some(me) && keys[j] > 0 { dirty := dirty + [j]; }
          if was == cur { took := true; }
        }
        j := j + 1;
      }
      TakesBelowEnd(c, sender, epoch, claimed, cur, j);
    }

    /** `clusterUpdateSlotsConfigWith`. It crashes exactly as `Crashes` says; else
        `purge` lists the slots whose keys are then deleted. */
    method UpdateSlotsConfigWith(me: NodeId, sender: NodeId, epoch: nat, claimed: Bitmap, keys: seq<nat>)
        returns (crashed: bool, purge: seq<nat>)
      requires Ok(View()) && me in nodes && nodes[me].role != Undecided
      requires sender in nodes && nodes[sender].role == Master && |keys| == SLOTS
      modifies this
      ensures Linked(old(View()), me)
      ensures crashed <==> Crashes(old(View()), me, sender, epoch, claimed)
      ensures !crashed ==> View() == UpdateSlots(old(View()), me, sender, epoch, claimed) && Ok(View())
      ensures !crashed ==> purge == if sender == me || Demotes(old(View()), me, sender, epoch, claimed) then []
                                    else Lost(old(View()), me, sender, epoch, claimed, keys, |keys|)
    {
      ghost var c := View();
      ResolvedLink(c, me);
      if sender == me { return false, []; }
      AfterRebind(c, me, sender, epoch, claimed);
      var cur := if nodes[me].role == Master then Some(me) else nodes[me].slaveof;
      var took, dirty := Rebind(me, sender, epoch, claimed, keys);
      if took && cur == None { return true, []; }
      crashed, purge := false, [];
      if took && nodes[cur.value].numslots == 0 {
        SetMyMaster(me, sender);
      } else {
        purge := dirty;
      }
    }

    /** The role part of packet processing. */
    method ProcessRole(sender: NodeId, follows: Option<NodeId>)
      requires Ok(View()) && sender in nodes && nodes[sender].role != Undecided
      modifies this
      ensures Linked(old(View()), sender) && View() == Announce(old(View()), sender, follows) && Ok(View())
    {
      AnnounceOk(View(), sender, follows);
      if follows == None {
        SetNodeAsMaster(sender);
        return;
      }
      DemotedOk(View(), sender);
      if nodes[sender].role == Master {
        var _ := DelNodeSlots(sender);
        nodes := nodes[sender := nodes[sender].(role := Slave)];
      }
      assert View() == Demoted(old(View()), sender);
      ResolvedLink(View(), sender);
      if follows.value in nodes && nodes[sender].slaveof != follows {
        DetachedLink(View(), sender, follows.value);
        Detach(sender);
        Attach(sender, follows.value);
      }
    }

    // -------- Failure reports --------

    /** `clusterNodeAddFailureReport`. */
    method AddFailureReport(n: NodeId, sender: NodeId, now: int) returns (added: bool)
      requires n in nodes
      modifies this
      ensures added <==> forall r :: r in old(nodes[n].reports) ==> r.from != sender
      ensures View() == Put(old(View()), n, old(nodes[n]).(reports := AddReport(old(nodes[n].reports), sender, now)))
    {
      ghost var rs := nodes[n].reports;
      var j := 0;
      while j < |nodes[n].reports|
        invariant 0 <= j <= |rs| && View() == old(View())
        invariant forall i :: 0 <= i < j ==> rs[i].from != sender
      {
        if nodes[n].reports[j].from == sender {
          AddReportAt(rs, sender, now, j);
          nodes := nodes[n := nodes[n].(reports := nodes[n].reports[j := nodes[n].reports[j].(time := now)])];
          return false;
        }
        j := j + 1;
      }
      AddReportEnd(rs, sender, now);
      nodes := nodes[n := nodes[n].(reports := nodes[n].reports + [Report(sender, now)])];
      added := true;
    }

    /** `clusterNodeCleanupFailureReports`: removes the old ones while walking. */
    method CleanupFailureReports(n: NodeId, now: int, maxAge: int)
      requires n in nodes
      modifies this
      ensures View() == Put(old(View()), n, old(nodes[n]).(reports := Recent(old(nodes[n].reports), now, maxAge)))
    {
      ghost var x := nodes[n];
      var l, j := nodes[n].reports, 0;
      while j < |l|
        invariant 0 <= j <= |l| && View() == old(View())
        invariant l[..j] + Recent(l[j..], now, maxAge) == Recent(x.reports, now, maxAge)
        decreases |l| - j
      {
        assert l[j..][1..] == l[j + 1..];
        if now - l[j].time > maxAge {
          assert (l[..j] + l[j + 1..])[..j] == l[..j] && (l[..j] + l[j + 1..])[j..] == l[j + 1..];
          l := l[..j] + l[j + 1..];
        } else {
          assert l[..j + 1] == l[..j] + [l[j]];
          j := j + 1;
        }
      }
      assert l[j..] == [] && l[..j] + Recent(l[j..], now, maxAge) == l;
      nodes := nodes[n := nodes[n].(reports := l)];
    }

    /** `clusterNodeDelFailureReport`. */
    method DelFailureReport(n: NodeId, sender: NodeId, now: int, maxAge: int) returns (found: bool)
      requires n in nodes
      modifies this
      ensures found <==> exists i :: 0 <= i < |old(nodes[n].reports)| && old(nodes[n].reports)[i].from == sender
      ensures View() == Put(old(View()), n,
                            old(nodes[n]).(reports := DropReports(old(nodes[n].reports), sender, now, maxAge)))
    {
      ghost var rs := nodes[n].reports;
      var j := 0;
      while j < |nodes[n].reports| && nodes[n].reports[j].from != sender
        invariant 0 <= j <= |rs|
        invariant forall i :: 0 <= i < j ==> rs[i].from != sender
      {
        j := j + 1;
      }
      if j == |nodes[n].reports| {
        assert nodes[n := nodes[n]] == nodes;
        return false;
      }
      DropReportAt(rs, sender, j);
      nodes := nodes[n := nodes[n].(reports := nodes[n].reports[..j] + nodes[n].reports[j + 1..])];
      CleanupFailureReports(n, now, maxAge);
      found := true;
    }

    // -------- Removing a node --------

    /** One round of the slot loop of `clusterDelNode`. */
    method CloseSlot(n: NodeId, j: nat)
      requires SlotsOk(View()) && j < SLOTS == |importing| == |migrating|
      modifies this
      ensures importing == if old(importing[j]) == Some(n) then old(importing)[j := None] else old(importing)
      ensures migrating == if old(migrating[j]) == Some(n) then old(migrating)[j := None] else old(migrating)
      ensures slots == (if old(slots[j]) == Some(n) then ClearSlot(old(View()), j) else old(View())).slots
      ensures nodes == (if old(slots[j]) == Some(n) then ClearSlot(old(View()), j) else old(View())).nodes
    {
      if importing[j] == Some(n) { importing := importing[j := None]; }
      if migrating[j] == Some(n) { migrating := migrating[j := None]; }
      SlotsOnly(old(View()), View());
      if slots[j] == Some(n) {
        var _ := DelSlot(j);
      }
    }

    method CloseSlotsOf(n: NodeId)
      requires Ok(View()) && n in nodes
      modifies this
      ensures View() == ScanAll(old(View()), ReleaseMoves(old(View()), n)).(importing := Unset(old(importing), n),
                                                                            migrating := Unset(old(migrating), n))
    {
      ghost var c := View();
      ghost var views := Trace(c, ReleaseMoves(c, n));
      UnsetNone(c.importing, n);
      UnsetNone(c.migrating, n);
      var j := 0;
      while j < SLOTS
        invariant 0 <= j <= SLOTS && slots == views[j].slots && nodes == views[j].nodes
        invariant importing == UnsetBelow(c.importing, n, j) && migrating == UnsetBelow(c.migrating, n, j)
      {
        assert Round(c, ReleaseMoves(c, n), j, views[j], views[j + 1]);
        ReleaseRound(c, n, j, views[j], views[j + 1], View());
        UnsetStep(c.importing, n, j);
        UnsetStep(c.migrating, n, j);
        CloseSlot(n, j);
        j := j + 1;
      }
      UnsetAll(c.importing, n, j);
      UnsetAll(c.migrating, n, j);
    }

    /** The failure-report loop of `clusterDelNode`, over the other nodes in any
        order. */
    method DropReportsFrom(n: NodeId, now: int, maxAge: int)
      modifies this
      ensures slots == old(slots) && importing == old(importing) && migrating == old(migrating)
      ensures nodes.Keys == old(nodes.Keys)
      ensures forall a :: a in nodes ==>
              nodes[a] == if a == n then old(nodes)[a] else Unreported(old(nodes)[a], n, now, maxAge)
    {
      ghost var before := nodes;
      var todo := nodes.Keys - {n};
      while todo != {}
        invariant slots == old(slots) && importing == old(importing) && migrating == old(migrating)
        invariant nodes.Keys == before.Keys && todo <= before.Keys - {n}
        invariant forall a :: a in before ==>
                  nodes[a] == if a == n || a in todo then before[a] else Unreported(before[a], n, now, maxAge)
      {
        var a :| a in todo;
        var _ := DelFailureReport(a, n, now, maxAge);
        todo := todo - {a};
      }
    }

    /** `freeClusterNode`: the node's slaves forget it, its master's list drops it,
        and it leaves the table. */
    method FreeNode(n: NodeId)
      requires n in nodes && LinksOk(View())
      modifies this
      ensures slots == old(slots) && importing == old(importing) && migrating == old(migrating)
      ensures nodes.Keys == old(nodes.Keys) - {n}
      ensures forall a :: a in nodes ==> nodes[a] == Unlinked(old(nodes)[a], n)
    {
      ghost var c := View();
      assert LinkOkAt(c.nodes, n);
      var j := 0;
      while j < |nodes[n].slaves|
        invariant 0 <= j <= |c.nodes[n].slaves| && slots == c.slots && importing == c.importing
        invariant migrating == c.migrating
        invariant nodes.Keys == c.nodes.Keys && nodes[n].slaves == c.nodes[n].slaves && nodes[n].role == c.nodes[n].role
        invariant nodes[n].slaveof == if n in c.nodes[n].slaves[..j] then None else c.nodes[n].slaveof
        invariant forall a :: a in nodes ==>
                  nodes[a] == if a in c.nodes[n].slaves[..j] then c.nodes[a].(slaveof := None) else c.nodes[a]
      {
        var a := nodes[n].slaves[j];
        nodes := nodes[a := nodes[a].(slaveof := None)];
        j := j + 1;
      }
      if nodes[n].role == Slave && nodes[n].slaveof.Some? {
        var _ := RemoveSlave(nodes[n].slaveof.value, n);
      }
      FreedNodes(c, nodes, n);
      nodes := nodes - {n};
    }

    /** `clusterDelNode`: afterwards nothing refers to `n`. */
    method DelNode(n: NodeId, now: int, maxAge: int)
      requires Ok(View()) && n in nodes
      modifies this
      ensures View() == DeleteNode(old(View()), n, now, maxAge) && Ok(View()) && Forgotten(View(), n)
    {
      ghost var c := View();
      DeleteNodeOk(c, n, now, maxAge);
      ReleaseOk(c, n);
      CloseSlotsOf(n);
      ghost var d := ScanAll(c, ReleaseMoves(c, n));
      DropReportsFrom(n, now, maxAge);
      UnreportedLinks(d, View(), n, now, maxAge);
      FreeNode(n);
      SurvivorsAre(d.nodes, nodes, n, now, maxAge);
    }
  }

  function UnsetBelow(t: seq<Option<NodeId>>, n: NodeId, k: nat): (r: seq<Option<NodeId>>)
    requires k <= |t|
    ensures |r| == |t|
  {
    Unset(t[..k], n) + t[k..]
  }

  lemma UnsetNone(t: seq<Option<NodeId>>, n: NodeId)
    ensures UnsetBelow(t, n, 0) == t
  {}

  lemma UnsetStep(t: seq<Option<NodeId>>, n: NodeId, k: nat)
    requires k < |t|
    ensures UnsetBelow(t, n, k)[k] == t[k]
    ensures UnsetBelow(t, n, k + 1) == if t[k] == Some(n) then UnsetBelow(t, n, k)[k := None] else UnsetBelow(t, n, k)
  {}

  lemma UnsetAll(t: seq<Option<NodeId>>, n: NodeId, k: nat)
    requires k == |t|
    ensures UnsetBelow(t, n, k) == Unset(t, n)
  {
    assert t[..k] == t;
  }

  function Unreported(x: Node, n: NodeId, now: int, maxAge: int): Node {
    x.(reports := DropReports(x.reports, n, now, maxAge))
  }

  function Unlinked(x: Node, n: NodeId): Node {
    x.(slaveof := if x.slaveof == Some(n) then None else x.slaveof, slaves := Without(x.slaves, n))
  }

  lemma SlotsOnly(c: Config, d: Config)
    requires SlotsOk(c) && d.slots == c.slots && d.nodes == c.nodes
    ensures SlotsOk(d)
  {}

  lemma ReleaseRound(c: Config, n: NodeId, j: nat, d: Config, e: Config, v: Config)
    requires Ok(c) && j < SLOTS && Round(c, ReleaseMoves(c, n), j, d, e) && v.slots == d.slots && v.nodes == d.nodes
    ensures SlotsOk(v)
    ensures var w := if v.slots[j] == Some(n) then ClearSlot(v, j) else v; w.slots == e.slots && w.nodes == e.nodes
  {
    SlotsOnly(d, v);
  }

  lemma UnreportedLinks(c: Config, d: Config, n: NodeId, now: int, maxAge: int)
    requires LinksOk(c) && c.nodes.Keys == d.nodes.Keys
    requires forall a :: a in c.nodes ==>
             d.nodes[a] == if a == n then c.nodes[a] else Unreported(c.nodes[a], n, now, maxAge)
    ensures LinksOk(d)
  {
    forall x | x in d.nodes ensures LinkOkAt(d.nodes, x) { assert LinkOkAt(c.nodes, x); }
  }

  lemma SurvivorsAre(before: map<NodeId, Node>, after: map<NodeId, Node>, n: NodeId, now: int, maxAge: int)
    requires after.Keys == before.Keys - {n}
    requires forall a :: a in after ==> after[a] == Unlinked(Unreported(before[a], n, now, maxAge), n)
    ensures after == Survivors(before, n, now, maxAge)
  {}

  /** Clearing the pointers of n's slaves and taking n off its master's list is
      all there is to unlink. */
  lemma FreedNodes(c: Config, nodes: map<NodeId, Node>, n: NodeId)
    requires LinksOk(c) && n in c.nodes && nodes.Keys == c.nodes.Keys
    requires forall a :: a in nodes ==>
               var x := if a in c.nodes[n].slaves then c.nodes[a].(slaveof := None) else c.nodes[a];
               nodes[a] == if c.nodes[n].slaveof == Some(a) && n !in c.nodes[n].slaves
                           then x.(slaves := Without(x.slaves, n)) else x
    ensures forall a :: a in nodes && a != n ==> nodes[a] == Unlinked(c.nodes[a], n)
  {
    forall a | a in nodes && a != n ensures nodes[a] == Unlinked(c.nodes[a], n) {
      assert LinkOkAt(c.nodes, a) && LinkOkAt(c.nodes, n);
      if n !in c.nodes[a].slaves { WithoutNone(c.nodes[a].slaves, n); }
    }
  }

  lemma {:induction false} AddReportAt(rs: seq<Report>, from: NodeId, now: int, j: nat)
    requires j < |rs| && rs[j].from == from && forall i :: 0 <= i < j ==> rs[i].from != from
    ensures AddReport(rs, from, now) == rs[j := rs[j].(time := now)]
  {
    if j > 0 {
      AddReportAt(rs[1..], from, now, j - 1);
      assert rs[j := rs[j].(time := now)] == [rs[0]] + rs[1..][j - 1 := rs[1..][j - 1].(time := now)];
    } else {
      assert rs[0 := rs[0].(time := now)] == [rs[0].(time := now)] + rs[1..];
    }
  }

  lemma {:induction false} AddReportEnd(rs: seq<Report>, from: NodeId, now: int)
    requires forall i :: 0 <= i < |rs| ==> rs[i].from != from
    ensures AddReport(rs, from, now) == rs + [Report(from, now)]
  {
    if rs != [] {
      AddReportEnd(rs[1..], from, now);
      assert rs + [Report(from, now)] == [rs[0]] + (rs[1..] + [Report(from, now)]);
    }
  }

  lemma {:induction false} DropReportAt(rs: seq<Report>, from: NodeId, j: nat)
    requires j < |rs| && rs[j].from == from && forall i :: 0 <= i < j ==> rs[i].from != from
    ensures DropReport(rs, from) == rs[..j] + rs[j + 1..]
  {
    if j > 0 {
      DropReportAt(rs[1..], from, j - 1);
      assert rs[..j] + rs[j + 1..] == [rs[0]] + (rs[1..][..j - 1] + rs[1..][j..]);
    }
  }

  lemma AfterRebind(c: Config, me: NodeId, sender: NodeId, epoch: nat, claimed: Bitmap)
    requires Ok(c) && me in c.nodes && c.nodes[me].role != Undecided && sender != me && Linked(c, me)
    requires sender in c.nodes && c.nodes[sender].role == Master
    ensures var d, cur := ScanAll(c, ClaimMoves(c, sender, epoch, claimed)), CurrentMaster(c, me);
            && Ok(d) && (cur.Some? ==> cur.value in d.nodes)
            && (Demotes(c, me, sender, epoch, claimed) ==>
                  d.nodes[me].role != Undecided && d.nodes[me].numslots == 0 && Linked(d, me))
            && (!Crashes(c, me, sender, epoch, claimed) ==>
                  UpdateSlots(c, me, sender, epoch, claimed)
                  == if Demotes(c, me, sender, epoch, claimed) then SetMaster(d, me, sender) else d)
  {
    ClaimsOk(c, sender, epoch, claimed);
    var d := ScanAll(c, ClaimMoves(c, sender, epoch, claimed));
    if Demotes(c, me, sender, epoch, claimed) {
      DemotionOk(c, d, me, sender, CurrentMaster(c, me).value);
      assert Bare(d.nodes[me]);
    }
  }

  /** Round j of a pass over the slots, from d to e: slot j is still as it was in
      c, and is moved as told. */
  ghost predicate Round(c: Config, moves: seq<Move>, j: nat, d: Config, e: Config)
    requires GivesToMasters(c, moves) && |c.slots| == SLOTS && j < |moves|
  {
    && Ok(d) && SameLinks(c, d) && d.slots[j] == c.slots[j]
    && e == MoveSlot(d, j, moves[j])
  }

  /** The views a pass goes through. */
  lemma Trace(c: Config, moves: seq<Move>) returns (views: seq<Config>)
    requires Ok(c) && GivesToMasters(c, moves)
    ensures |views| == |moves| + 1 && views[0] == c && views[|moves|] == ScanAll(c, moves) && Ok(ScanAll(c, moves))
    ensures forall j :: 0 <= j < |moves| ==> Round(c, moves, j, views[j], views[j + 1])
  {
    views := seq(|moves| + 1, k requires 0 <= k <= |moves| => Scan(c, moves, k));
    forall j | 0 <= j < |moves| ensures Round(c, moves, j, views[j], views[j + 1]) {
      ScanOk(c, moves, j);
    }
    ScanAllOk(c, moves);
  }

  /** What one round adds to the two results. */
  lemma RoundResults(c: Config, me: NodeId, sender: NodeId, epoch: nat, claimed: Bitmap, keys: seq<nat>,
                     o: Option<NodeId>, j: nat)
    requires Claimable(c) && j < |keys| == SLOTS
    ensures var won := Wins(c, sender, epoch, claimed, j);
            && TakesBelow(c, sender, epoch, claimed, o, j + 1)
              == (TakesBelow(c, sender, epoch, claimed, o, j) || (won && c.slots[j] == o))
            && Lost(c, me, sender, epoch, claimed, keys, j + 1)
               == Lost(c, me, sender, epoch, claimed, keys, j)
                  + if won && c.slots[j] == Some(me) && keys[j] > 0 then [j] else []
  {}

  lemma SameWins(c: Config, d: Config, sender: NodeId, epoch: nat, claimed: Bitmap, j: nat)
    requires Ok(c) && Ok(d) && SameLinks(c, d) && j < SLOTS && d.slots[j] == c.slots[j]
    ensures Wins(d, sender, epoch, claimed, j) <==> Wins(c, sender, epoch, claimed, j)
  {}

  predicate TakesBelow(c: Config, sender: NodeId, epoch: nat, claimed: Bitmap, o: Option<NodeId>, k: nat)
    requires Claimable(c) && k <= SLOTS
  {
    k > 0 && (TakesBelow(c, sender, epoch, claimed, o, k - 1)
              || (Wins(c, sender, epoch, claimed, k - 1) && c.slots[k - 1] == o))
  }

  lemma {:induction false} TakesBelowAll(c: Config, sender: NodeId, epoch: nat, claimed: Bitmap, o: Option<NodeId>,
                                         k: nat)
    requires Claimable(c) && k <= SLOTS
    ensures TakesBelow(c, sender, epoch, claimed, o, k) <==>
            exists i :: 0 <= i < k && Wins(c, sender, epoch, claimed, i) && c.slots[i] == o
  {
    if k > 0 { TakesBelowAll(c, sender, epoch, claimed, o, k - 1); }
  }

  lemma TakesBelowEnd(c: Config, sender: NodeId, epoch: nat, claimed: Bitmap, o: Option<NodeId>, k: nat)
    requires Claimable(c) && k == SLOTS
    ensures TakesBelow(c, sender, epoch, claimed, o, k) <==> TakesFrom(c, sender, epoch, claimed, o)
  {
    TakesBelowAll(c, sender, epoch, claimed, o, k);
  }

  lemma LostSlots(c: Config, me: NodeId, sender: NodeId, epoch: nat, claimed: Bitmap, keys: seq<nat>, k: nat)
    requires Claimable(c) && k <= |keys| == SLOTS
    ensures forall j :: j in Lost(c, me, sender, epoch, claimed, keys, k) <==>
              0 <= j < k && Wins(c, sender, epoch, claimed, j) && c.slots[j] == Some(me) && keys[j] > 0
  {}

  /** The slots below k that this node loses to the claim and still has keys in,
      in order. */
  function Lost(c: Config, me: NodeId, sender: NodeId, epoch: nat, claimed: Bitmap, keys: seq<nat>, k: nat): seq<nat>
    requires Claimable(c) && k <= |keys| == SLOTS
  {
    if k == 0 then []
    else
      Lost(c, me, sender, epoch, claimed, keys, k - 1)
      + if Wins(c, sender, epoch, claimed, k - 1) && c.slots[k - 1] == Some(me) && keys[k - 1] > 0 then [k - 1] else []
  }

  function Detached(c: Config, a: NodeId): (d: Config)
    requires Linked(c, a)
    ensures d.nodes.Keys == c.nodes.Keys
  {
    if c.nodes[a].slaveof == None then c
    else var m := c.nodes[a].slaveof.value; Put(c, m, c.nodes[m].(slaves := Without(c.nodes[m].slaves, a)))
  }

  lemma DetachedLink(c: Config, a: NodeId, m: NodeId)
    requires LinksOk(c) && a in c.nodes && m in c.nodes
    ensures Linked(c, a) && a !in Detached(c, a).nodes[m].slaves
    ensures Link(Detached(c, a), a, m) == Follow(c, a, m)
  {
    UnlinkedOk(c, a);
    var d, e := Detached(c, a), Unlink(c, a);
    assert d.nodes[m].slaves == e.nodes[m].slaves;
  }

  lemma DemotedLinks(c: Config, me: NodeId)
    requires Ok(c) && me in c.nodes && c.nodes[me].role == Master && c.nodes[me].numslots == 0
    ensures var d := SetRole(c, me, Slave).(importing := seq(SLOTS, i => None), migrating := seq(SLOTS, i => None));
            LinksOk(d) && d.nodes[me].slaveof == None
  {
    assert LinkOkAt(c.nodes, me);
    RoleOk(c, me, Slave);
    CloseAll(SetRole(c, me, Slave));
  }

  lemma {:induction false} WithoutFirst(s: seq<NodeId>, a: NodeId, j: nat)
    requires j < |s| && s[j] == a && a !in s[..j]
    ensures Without(s, a) == s[..j] + s[j + 1..]
  {
    if j > 0 {
      assert s[0] in s[..j];
      assert s[1..][..j - 1] == s[1..j] && forall x :: x in s[1..j] ==> x in s[..j];
      WithoutFirst(s[1..], a, j - 1);
      assert s[..j] + s[j + 1..] == [s[0]] + (s[1..][..j - 1] + s[1..][j..]);
    }
  }

  lemma {:induction false} WithoutNone(s: seq<NodeId>, a: NodeId)
    requires a !in s
    ensures Without(s, a) == s
  {
    if s != [] { WithoutNone(s[1..], a); }
  }

  lemma UnlinkedOk(c: Config, a: NodeId)
    requires LinksOk(c) && a in c.nodes
    ensures Linked(c, a) && forall x :: x in c.nodes ==> a !in Unlink(c, a).nodes[x].slaves
  {
    UnlinkLinks(c, a);
    forall x | x in c.nodes ensures a !in Unlink(c, a).nodes[x].slaves { assert LinkOkAt(Unlink(c, a).nodes, x); }
  }
}
