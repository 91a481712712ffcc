/** One cluster node's epochs and election fields, and how each packet, timer
    and command changes them. */
module ClusterEpochs {

  type NodeId = nat

  /** The epoch and election part of `server.cluster`; `known` holds the
      configEpoch of every entry of the node table, the node itself included. */
  datatype Node = Node(
    currentEpoch: nat,
    lastVoteEpoch: nat,
    authEpoch: nat,
    authCount: nat,
    authSent: bool,
    master: bool,
    known: map<NodeId, nat>)

  /** The header fields every packet carries. */
  datatype Header = Header(sender: NodeId, currentEpoch: nat, configEpoch: nat)

  function Max(x: nat, y: nat): nat { if x < y then y else x }

  function Fresh(me: NodeId): Node {
    Node(0, 0, 0, 0, false, true, map[me := 0])
  }

  /** The first part of packet processing, for a sender in the node table. */
  function SeeHeader(n: Node, h: Header): Node {
    if h.sender !in n.known then n
    else n.(currentEpoch := Max(n.currentEpoch, h.currentEpoch),
            known := n.known[h.sender := Max(n.known[h.sender], h.configEpoch)])
  }

  /** The body of an UPDATE packet about a node of the table. */
  function SeeUpdate(n: Node, about: NodeId, epoch: nat): Node {
    if about !in n.known || n.known[about] >= epoch then n
    else n.(known := n.known[about := epoch])
  }

  /** What the voter finds in its own tables about the request. */
  datatype Circumstances = Circumstances(
    requesterIsMaster: bool,
    masterKnown: bool,
    masterFailed: bool,
    forceAck: bool,
    votedRecently: bool,
    slotConflict: bool)

  predicate GrantsVote(n: Node, voter: bool, requestEpoch: nat, c: Circumstances) {
    && voter
    && requestEpoch >= n.currentEpoch
    && n.lastVoteEpoch != n.currentEpoch
    && !c.requesterIsMaster && c.masterKnown && (c.masterFailed || c.forceAck)
    && !c.votedRecently
    && !c.slotConflict
  }

  function Vote(n: Node): Node { n.(lastVoteEpoch := n.currentEpoch) }

  predicate CountsAck(n: Node, voter: bool, ackEpoch: nat) {
    voter && ackEpoch >= n.authEpoch
  }

  function CountAck(n: Node): Node { n.(authCount := n.authCount + 1) }

  function ResetElection(n: Node): Node { n.(authCount := 0, authSent := false) }

  function StartElection(n: Node): Node {
    n.(currentEpoch := n.currentEpoch + 1, authEpoch := n.currentEpoch + 1, authSent := true)
  }

  function WinElection(n: Node, me: NodeId): Node
    requires me in n.known
  {
    n.(known := n.known[me := Max(n.known[me], n.authEpoch)], master := true)
  }

  /** Assign the node a new configEpoch without asking anyone. */
  function TakeNewEpoch(n: Node, me: NodeId): Node {
    n.(currentEpoch := n.currentEpoch + 1, known := n.known[me := n.currentEpoch + 1])
  }

  /** The greatest epoch the node knows of. */
  ghost predicate IsMaxEpoch(n: Node, e: nat) {
    && n.currentEpoch <= e
    && (forall x :: x in n.known ==> n.known[x] <= e)
    && (e == n.currentEpoch || exists x :: x in n.known && n.known[x] == e)
  }

  function BumpEpoch(n: Node, me: NodeId, maxEpoch: nat): Node
    requires me in n.known
  {
    if n.known[me] == 0 || n.known[me] != maxEpoch then TakeNewEpoch(n, me) else n
  }

  predicate Collides(n: Node, me: NodeId, h: Header, senderMaster: bool) {
    && me in n.known && h.sender in n.known
    && n.master && senderMaster
    && h.configEpoch == n.known[me] == n.known[h.sender]
    && h.sender > me
  }

  function SetConfigEpoch(n: Node, me: NodeId, e: nat): Node {
    n.(currentEpoch := Max(n.currentEpoch, e), known := n.known[me := e])
  }

  // -------- The bound every step keeps --------

  ghost predicate Bounded(n: Node) {
    && (forall x :: x in n.known ==> n.known[x] <= n.currentEpoch)
    && n.lastVoteEpoch <= n.currentEpoch
    && n.authEpoch <= n.currentEpoch
  }

  /** In a bounded node a bump or a collision fix picks an epoch strictly above
      every configEpoch the node knows, its own included. */
  lemma NewEpochIsUnique(n: Node, me: NodeId, maxEpoch: nat)
    requires Bounded(n) && me in n.known && IsMaxEpoch(n, maxEpoch)
    ensures maxEpoch == n.currentEpoch
    ensures Bounded(TakeNewEpoch(n, me)) && Bounded(BumpEpoch(n, me, maxEpoch))
    ensures forall x :: x in n.known ==> n.known[x] < TakeNewEpoch(n, me).known[me]
    ensures BumpEpoch(n, me, maxEpoch) != n ==>
            forall x :: x in n.known ==> n.known[x] < BumpEpoch(n, me, maxEpoch).known[me]
    ensures BumpEpoch(n, me, maxEpoch).known[me] == BumpEpoch(n, me, maxEpoch).currentEpoch
  {}

  // -------- The node as the server keeps it --------

  /** `myslots` claims and the slot table, as the voting rule reads them. */
  datatype Request = Request(header: Header, claimed: seq<bool>, forceAck: bool)

  class ClusterNode {
    const me: NodeId
    var currentEpoch: nat
    var lastVoteEpoch: nat
    var authEpoch: nat
    var authCount: nat
    var authSent: bool
    var master: bool
    var configEpochs: map<NodeId, nat>
    var slots: seq<int>   // owner of each slot, -1 when unassigned

    ghost function State(): Node
      reads this
    {
      Node(currentEpoch, lastVoteEpoch, authEpoch, authCount, authSent, master, configEpochs)
    }

    ghost predicate Valid()
      reads this
    {
      && me in configEpochs
      && forall j :: 0 <= j < |slots| && slots[j] >= 0 ==> (slots[j] as nat) in configEpochs
    }

    ghost predicate Conflict(claimed: seq<bool>, epoch: nat)
      reads this
      requires Valid() && |claimed| == |slots|
    {
      exists j :: 0 <= j < |slots| && claimed[j] && slots[j] >= 0 && configEpochs[slots[j] as nat] > epoch
    }

    constructor (me: NodeId)
      ensures Valid() && this.me == me && State() == Fresh(me) && slots == []
    {
      this.me := me;
      currentEpoch, lastVoteEpoch, authEpoch, authCount, authSent, master := 0, 0, 0, 0, false, true;
      configEpochs := map[me := 0];
      slots := [];
    }

    method ProcessHeader(h: Header)
      requires Valid()
      modifies this`currentEpoch, this`configEpochs
      ensures Valid() && State() == SeeHeader(old(State()), h)
    {
      if h.sender in configEpochs {
        if h.currentEpoch > currentEpoch { currentEpoch := h.currentEpoch; }
        if h.configEpoch > configEpochs[h.sender] {
          configEpochs := configEpochs[h.sender := h.configEpoch];
        }
        assert configEpochs == old(configEpochs)[h.sender := Max(old(configEpochs)[h.sender], h.configEpoch)];
      }
    }

    method ProcessUpdate(about: NodeId, epoch: nat)
      requires Valid()
      modifies this`configEpochs
      ensures Valid() && State() == SeeUpdate(old(State()), about, epoch)
    {
      if about in configEpochs && configEpochs[about] < epoch {
        configEpochs := configEpochs[about := epoch];
      }
    }

    /** `clusterSendFailoverAuthIfNeeded`: scan the claimed slots, then vote. */
    method SendFailoverAuthIfNeeded(r: Request, voter: bool, c: Circumstances) returns (granted: bool)
      requires Valid() && |r.claimed| == |slots|
      requires c.slotConflict == Conflict(r.claimed, r.header.configEpoch) && c.forceAck == r.forceAck
      modifies this`lastVoteEpoch
      ensures granted == GrantsVote(old(State()), voter, r.header.currentEpoch, c)
      ensures State() == if granted then Vote(old(State())) else old(State())
    {
      granted := false;
      if !voter { return; }
      if r.header.currentEpoch < currentEpoch { return; }
      if lastVoteEpoch == currentEpoch { return; }
      if c.requesterIsMaster || !c.masterKnown || (!c.masterFailed && !r.forceAck) { return; }
      if c.votedRecently { return; }
      for j := 0 to |slots|
        invariant forall i :: 0 <= i < j && r.claimed[i] && slots[i] >= 0 ==>
                    configEpochs[slots[i] as nat] <= r.header.configEpoch
      {
        if !r.claimed[j] { continue; }
        if slots[j] < 0 || configEpochs[slots[j] as nat] <= r.header.configEpoch { continue; }
        return;
      }
      lastVoteEpoch := currentEpoch;
      granted := true;
    }

    method ProcessAuthAck(voter: bool, ackEpoch: nat)
      modifies this`authCount
      ensures State() == if CountsAck(old(State()), voter, ackEpoch) then CountAck(old(State())) else old(State())
    {
      if voter && ackEpoch >= authEpoch { authCount := authCount + 1; }
    }

    /** `clusterGetMaxEpoch`. */
    method GetMaxEpoch() returns (max: nat)
      ensures IsMaxEpoch(State(), max)
    {
      max := 0;
      var rest := configEpochs.Keys;
      while rest != {}
        invariant rest <= configEpochs.Keys
        invariant forall x :: x in configEpochs && x !in rest ==> configEpochs[x] <= max
        invariant max == 0 || exists x :: x in configEpochs && configEpochs[x] == max
        decreases rest
      {
        var x :| x in rest;
        if configEpochs[x] > max { max := configEpochs[x]; }
        rest := rest - {x};
      }
      if max < currentEpoch { max := currentEpoch; }
    }

    /** `clusterBumpConfigEpochWithoutConsensus`. */
    method BumpConfigEpochWithoutConsensus() returns (bumped: bool)
      requires Valid()
      modifies this`currentEpoch, this`configEpochs
      ensures Valid()
      ensures exists max :: IsMaxEpoch(old(State()), max) && State() == BumpEpoch(old(State()), me, max)
      ensures bumped <==> State() != old(State())
    {
      var max := GetMaxEpoch();
      if configEpochs[me] == 0 || configEpochs[me] != max {
        currentEpoch := currentEpoch + 1;
        configEpochs := configEpochs[me := currentEpoch];
        assert State() == BumpEpoch(old(State()), me, max);
        return true;
      }
      assert State() == BumpEpoch(old(State()), me, max);
      return false;
    }

    /** `clusterHandleConfigEpochCollision`, reached for a sender of the table. */
    method HandleConfigEpochCollision(h: Header, senderMaster: bool)
      requires Valid()
      modifies this`currentEpoch, this`configEpochs
      ensures Valid()
      ensures State() == if Collides(old(State()), me, h, senderMaster)
                         then TakeNewEpoch(old(State()), me) else old(State())
    {
      if h.sender !in configEpochs || !master || !senderMaster || h.configEpoch != configEpochs[me] { return; }
      if configEpochs[h.sender] != configEpochs[me] { return; }
      if h.sender <= me { return; }
      currentEpoch := currentEpoch + 1;
      configEpochs := configEpochs[me := currentEpoch];
    }

    /** The part of `clusterHandleSlaveFailover` past the timing tests: schedule
        a new attempt, ask for votes, or take over once the quorum is reached. */
    method HandleSlaveFailover(retry: bool, size: nat) returns (won: bool)
      requires Valid()
      modifies this`currentEpoch, this`authEpoch, this`authCount, this`authSent, this`master, this`configEpochs
      ensures Valid()
      ensures var s := old(State());
              State() == if s.master then s
                         else if retry then ResetElection(s)
                         else if !s.authSent then StartElection(s)
                         else if s.authCount >= size / 2 + 1 then WinElection(s, me)
                         else s
      ensures won <==> !old(master) && !retry && old(authSent) && old(authCount) >= size / 2 + 1
    {
      won := false;
      if master { return; }
      if retry {
        authCount, authSent := 0, false;
        return;
      }
      if !authSent {
        currentEpoch := currentEpoch + 1;
        authEpoch := currentEpoch;
        authSent := true;
        return;
      }
      if authCount >= size / 2 + 1 {
        if configEpochs[me] < authEpoch { configEpochs := configEpochs[me := authEpoch]; }
        assert configEpochs == old(configEpochs)[me := Max(old(configEpochs)[me], authEpoch)];
        master := true;
        won := true;
      }
    }
  }
}
