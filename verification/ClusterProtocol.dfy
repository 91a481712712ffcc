/** Many cluster nodes and the packets between them: epochs, votes and the
    election of a slave, over every run. */
module ClusterProtocol {
  import opened ClusterEpochs
  import opened Options

  /** A heartbeat, or an UPDATE when `about` is given. */
  datatype Packet = Packet(header: Header, about: Option<(NodeId, nat)>)

  /** A request for votes goes to the other nodes of the sender's table. */
  datatype Ask = Ask(header: Header, to: set<NodeId>)

  datatype Ack = Ack(header: Header, dst: NodeId)

  /** History: a vote granted, and an election won by the votes of `backers` together
      with `stale` acknowledgements left over from an earlier attempt. */
  datatype Granted = Granted(voter: NodeId, slave: NodeId, epoch: nat)
  datatype Win = Win(slave: NodeId, epoch: nat, backers: set<NodeId>, stale: nat)

  /** Packets and requests may be lost, repeated and reordered; an
      acknowledgement is delivered at most once.  `votes`, `counted`, `stale`
      and `wins` are history. */
  datatype World = World(
    nodes: map<NodeId, Node>,
    packets: set<Packet>,
    requests: set<Ask>,
    acks: set<Ack>,
    votes: set<Granted>,
    counted: map<NodeId, set<NodeId>>,
    stale: map<NodeId, nat>,
    wins: set<Win>)

  datatype Step =
    | SendPacket(n: NodeId, whose: NodeId, about: Option<NodeId>)
    | ReceivePacket(n: NodeId, packet: Packet, senderMaster: bool)
    | AskForVotes(n: NodeId, whose: NodeId)
    | RetryLater(n: NodeId)
    | ReceiveRequest(n: NodeId, ask: Ask, found: Circumstances)
    | ReceiveAck(n: NodeId, ack: Ack)
    | TakeOver(n: NodeId)
    | Bump(n: NodeId, max: nat)
    | AssignEpoch(n: NodeId, epoch: nat)
    | Learn(n: NodeId, other: NodeId)
    | Forget(n: NodeId, other: NodeId)
    | ChangeRole(n: NodeId, master: bool)

  function Quorum(voters: set<NodeId>): nat { |voters| / 2 + 1 }

  predicate Shaped(w: World) {
    w.nodes.Keys == w.counted.Keys == w.stale.Keys && forall i :: i in w.nodes ==> i in w.nodes[i].known
  }

  /** Every node starts at epoch 0, with any node table and either role. */
  predicate IsInitial(w: World) {
    && Shaped(w)
    && w.packets == {} && w.requests == {} && w.acks == {} && w.votes == {} && w.wins == {}
    && (forall i :: i in w.nodes ==>
          && w.counted[i] == {} && w.stale[i] == 0
          && w.nodes[i] == Node(0, 0, 0, 0, false, w.nodes[i].master, w.nodes[i].known)
          && forall x :: x in w.nodes[i].known ==> w.nodes[i].known[x] == 0)
  }

  ghost predicate Enabled(voters: set<NodeId>, w: World, step: Step)
    requires Shaped(w)
  {
    && step.n in w.nodes
    && var s := w.nodes[step.n];
       match step
       case SendPacket(_, whose, about) => whose in s.known && (about.Some? ==> about.value in s.known)
       case ReceivePacket(_, p, _) => p in w.packets
       case AskForVotes(_, whose) => !s.master && !s.authSent && whose in s.known
       case RetryLater(_) => !s.master
       case ReceiveRequest(n, ask, _) => ask in w.requests && n in ask.to
       case ReceiveAck(n, a) => a in w.acks && a.dst == n
       case TakeOver(_) => !s.master && s.authSent && s.authCount >= Quorum(voters)
       case Bump(_, max) => IsMaxEpoch(s, max)
       case AssignEpoch(n, _) => s.known == map[n := 0]
       case Learn(_, x) => x !in s.known
       case Forget(n, x) => x != n
       case _ => true
  }

  function Put(w: World, i: NodeId, s: Node): (r: World)
    requires Shaped(w) && i in w.nodes && i in s.known
    ensures Shaped(r) && r.nodes.Keys == w.nodes.Keys
  {
    w.(nodes := w.nodes[i := s])
  }

  function Tally(w: World, i: NodeId, counted: set<NodeId>, stale: nat): (r: World)
    requires Shaped(w) && i in w.nodes
    ensures Shaped(r) && r.nodes == w.nodes
  {
    w.(counted := w.counted[i := counted], stale := w.stale[i := stale])
  }

  function OnPacket(s: Node, me: NodeId, p: Packet, senderMaster: bool): Node
    requires me in s.known
  {
    var t := SeeHeader(s, p.header);
    if p.header.sender !in s.known then s
    else if p.about.Some? then SeeUpdate(t, p.about.value.0, p.about.value.1)
    else if Collides(t, me, p.header, senderMaster) then TakeNewEpoch(t, me)
    else t
  }

  function OnRequest(voters: set<NodeId>, w: World, n: NodeId, h: Header, found: Circumstances): (r: World)
    requires Shaped(w) && n in w.nodes
    ensures Shaped(r) && r.nodes.Keys == w.nodes.Keys
  {
    var s := SeeHeader(w.nodes[n], h);
    if h.sender in s.known && GrantsVote(s, n in voters, h.currentEpoch, found)
    then Put(w, n, Vote(s)).(acks := w.acks + {Ack(Header(n, s.currentEpoch, s.known[n]), h.sender)},
                             votes := w.votes + {Granted(n, h.sender, s.currentEpoch)})
    else Put(w, n, s)
  }

  function OnAck(voters: set<NodeId>, w: World, n: NodeId, a: Ack): (r: World)
    requires Shaped(w) && n in w.nodes
    ensures Shaped(r) && r.nodes.Keys == w.nodes.Keys
  {
    var s := SeeHeader(w.nodes[n], a.header);
    var w' := w.(acks := w.acks - {a});
    if a.header.sender in s.known && CountsAck(s, a.header.sender in voters, a.header.currentEpoch)
    then
      var w'' := Put(w', n, CountAck(s));
      if s.authSent then Tally(w'', n, w.counted[n] + {a.header.sender}, w.stale[n])
      else Tally(w'', n, w.counted[n], w.stale[n] + 1)
    else Put(w', n, s)
  }

  /** What the stepping node does to its own fields. */
  function Stepped(s: Node, n: NodeId, step: Step): (t: Node)
    requires n in s.known && !step.ReceiveRequest? && !step.ReceiveAck?
    requires step.Forget? ==> step.other != n
    ensures n in t.known
  {
    match step
    case SendPacket(_, _, _) => s
    case ReceivePacket(_, p, senderMaster) => OnPacket(s, n, p, senderMaster)
    case AskForVotes(_, _) => StartElection(s)
    case RetryLater(_) => ResetElection(s)
    case TakeOver(_) => WinElection(s, n)
    case Bump(_, max) => BumpEpoch(s, n, max)
    case AssignEpoch(_, e) => SetConfigEpoch(s, n, e)
    case Learn(_, x) => s.(known := s.known[x := 0])
    case Forget(_, x) => s.(known := s.known - {x})
    case ChangeRole(_, m) => s.(master := m)
  }

  /** The packets and history a local step adds. */
  function Recorded(w: World, s: Node, step: Step): (r: World)
    requires Shaped(w) && step.n in w.nodes
    requires step.SendPacket? ==> step.whose in s.known && (step.about.Some? ==> step.about.value in s.known)
    requires step.AskForVotes? ==> step.whose in s.known
    ensures Shaped(r) && r.nodes == w.nodes
  {
    var n := step.n;
    match step
    case SendPacket(_, whose, about) =>
      var h := Header(n, s.currentEpoch, s.known[whose]);
      w.(packets := w.packets + {Packet(h, if about.None? then None else Some((about.value, s.known[about.value])))})
    case AskForVotes(_, whose) =>
      w.(requests := w.requests + {Ask(Header(n, s.currentEpoch + 1, s.known[whose]), s.known.Keys - {n})})
    case RetryLater(_) => Tally(w, n, {}, 0)
    case TakeOver(_) => w.(wins := w.wins + {Win(n, s.authEpoch, w.counted[n], w.stale[n])})
    case _ => w
  }

  ghost function Next(voters: set<NodeId>, w: World, step: Step): (r: World)
    requires Shaped(w) && Enabled(voters, w, step)
    ensures Shaped(r) && r.nodes.Keys == w.nodes.Keys
  {
    if step.ReceiveRequest? then OnRequest(voters, w, step.n, step.ask.header, step.found)
    else if step.ReceiveAck? then OnAck(voters, w, step.n, step.ack)
    else Recorded(Put(w, step.n, Stepped(w.nodes[step.n], step.n, step)), w.nodes[step.n], step)
  }

  // -------- Epoch bounds --------

  predicate PacketBounded(p: Packet) {
    && p.header.configEpoch <= p.header.currentEpoch
    && (p.about.Some? ==> p.about.value.1 <= p.header.currentEpoch)
  }

  ghost predicate EpochsBounded(w: World) {
    && (forall i :: i in w.nodes ==> Bounded(w.nodes[i]))
    && (forall p :: p in w.packets ==> PacketBounded(p))
    && (forall q :: q in w.requests ==> q.header.configEpoch <= q.header.currentEpoch)
    && (forall a :: a in w.acks ==> a.header.configEpoch <= a.header.currentEpoch)
  }

  lemma SeeHeaderBounded(n: Node, h: Header)
    requires Bounded(n) && h.configEpoch <= h.currentEpoch
    ensures Bounded(SeeHeader(n, h))
  {}

  lemma OnPacketBounded(n: Node, me: NodeId, p: Packet, senderMaster: bool)
    requires Bounded(n) && me in n.known
    requires PacketBounded(p)
    ensures Bounded(OnPacket(n, me, p, senderMaster))
  {
    SeeHeaderBounded(n, p.header);
  }

  lemma PutBounded(w: World, i: NodeId, s: Node)
    requires Shaped(w) && EpochsBounded(w) && i in w.nodes && i in s.known && Bounded(s)
    ensures EpochsBounded(Put(w, i, s))
  {}

  lemma OnRequestBounded(voters: set<NodeId>, w: World, n: NodeId, h: Header, found: Circumstances)
    requires Shaped(w) && EpochsBounded(w) && n in w.nodes && h.configEpoch <= h.currentEpoch
    ensures EpochsBounded(OnRequest(voters, w, n, h, found))
  {
    var s := SeeHeader(w.nodes[n], h);
    SeeHeaderBounded(w.nodes[n], h);
    PutBounded(w, n, s);
    PutBounded(w, n, Vote(s));
  }

  lemma OnAckBounded(voters: set<NodeId>, w: World, n: NodeId, a: Ack)
    requires Shaped(w) && EpochsBounded(w) && n in w.nodes && a in w.acks
    ensures EpochsBounded(OnAck(voters, w, n, a))
  {
    var s := SeeHeader(w.nodes[n], a.header);
    SeeHeaderBounded(w.nodes[n], a.header);
    var w' := w.(acks := w.acks - {a});
    PutBounded(w', n, s);
    PutBounded(w', n, CountAck(s));
  }

  lemma SteppedBounded(voters: set<NodeId>, w: World, step: Step)
    requires Shaped(w) && EpochsBounded(w) && Enabled(voters, w, step)
    requires !step.ReceiveRequest? && !step.ReceiveAck?
    ensures Bounded(Stepped(w.nodes[step.n], step.n, step))
  {
    assert Bounded(w.nodes[step.n]);
    if step.ReceivePacket? {
      OnPacketBounded(w.nodes[step.n], step.n, step.packet, step.senderMaster);
    }
  }

  lemma RecordedBounded(w: World, s: Node, step: Step)
    requires Shaped(w) && EpochsBounded(w) && step.n in w.nodes && Bounded(s)
    requires step.SendPacket? ==> step.whose in s.known && (step.about.Some? ==> step.about.value in s.known)
    requires step.AskForVotes? ==> step.whose in s.known
    ensures EpochsBounded(Recorded(w, s, step))
  {}

  lemma NextEpochsBounded(voters: set<NodeId>, w: World, step: Step)
    requires Shaped(w) && EpochsBounded(w) && Enabled(voters, w, step)
    ensures EpochsBounded(Next(voters, w, step))
  {
    if step.ReceiveRequest? {
      OnRequestBounded(voters, w, step.n, step.ask.header, step.found);
    } else if step.ReceiveAck? {
      OnAckBounded(voters, w, step.n, step.ack);
    } else {
      var s := w.nodes[step.n];
      SteppedBounded(voters, w, step);
      PutBounded(w, step.n, Stepped(s, step.n, step));
      RecordedBounded(Put(w, step.n, Stepped(s, step.n, step)), s, step);
    }
  }

  // -------- Elections --------

  ghost predicate VotesOk(voters: set<NodeId>, w: World) {
    && (forall v :: v in w.votes ==>
          && v.voter in voters && v.voter in w.nodes && v.slave in w.nodes
          && v.epoch <= w.nodes[v.voter].lastVoteEpoch
          && v.epoch <= w.nodes[v.slave].authEpoch)
    && (forall v, v' :: v in w.votes && v' in w.votes && v.voter == v'.voter && v.epoch == v'.epoch ==> v == v')
  }

  ghost predicate RequestsOk(w: World) {
    forall q :: q in w.requests ==>
      q.header.sender in w.nodes && q.header.currentEpoch <= w.nodes[q.header.sender].authEpoch
  }

  predicate Cast(a: Ack, votes: set<Granted>) {
    Granted(a.header.sender, a.dst, a.header.currentEpoch) in votes
  }

  predicate SameVote(a: Ack, a': Ack) {
    a.header.sender == a'.header.sender && a.header.currentEpoch == a'.header.currentEpoch
  }

  /** An acknowledgement in flight records a vote and has not been counted. */
  predicate AckFits(a: Ack, s: Node, counted: set<NodeId>, votes: set<Granted>) {
    && Cast(a, votes)
    && (s.authSent && a.header.currentEpoch == s.authEpoch ==> a.header.sender !in counted)
  }

  ghost predicate AcksOk(w: World)
    requires Shaped(w)
  {
    && (forall a :: a in w.acks ==> a.dst in w.nodes && AckFits(a, w.nodes[a.dst], w.counted[a.dst], w.votes))
    && (forall a, a' :: a in w.acks && a' in w.acks && SameVote(a, a') ==> a == a')
  }

  /** The counter of a slave is the masters that voted for it in the epoch of
      its present election, plus the stale acknowledgements it let in. */
  predicate TallyFits(s: Node, i: NodeId, counted: set<NodeId>, stale: nat, votes: set<Granted>) {
    && s.authCount == |counted| + stale
    && (forall v :: v in counted ==> s.authSent && Granted(v, i, s.authEpoch) in votes)
  }

  ghost predicate TallyOk(w: World, i: NodeId)
    requires Shaped(w) && i in w.nodes
  {
    TallyFits(w.nodes[i], i, w.counted[i], w.stale[i], w.votes)
  }

  ghost predicate WinsOk(voters: set<NodeId>, w: World) {
    forall x :: x in w.wins ==>
      && |x.backers| + x.stale >= Quorum(voters)
      && forall v :: v in x.backers ==> Granted(v, x.slave, x.epoch) in w.votes
  }

  ghost predicate ElectionOk(voters: set<NodeId>, w: World)
    requires Shaped(w)
  {
    && VotesOk(voters, w) && RequestsOk(w) && AcksOk(w)
    && (forall i :: i in w.nodes ==> TallyOk(w, i))
    && WinsOk(voters, w)
  }

  predicate SameElection(s: Node, t: Node) {
    && s.lastVoteEpoch == t.lastVoteEpoch && s.authEpoch == t.authEpoch
    && s.authCount == t.authCount && s.authSent == t.authSent
  }

  lemma PutSame(voters: set<NodeId>, w: World, n: NodeId, t: Node)
    requires Shaped(w) && ElectionOk(voters, w) && n in w.nodes && n in t.known
    requires SameElection(w.nodes[n], t)
    ensures ElectionOk(voters, Put(w, n, t))
  {
    var r := Put(w, n, t);
    forall i | i in r.nodes ensures TallyOk(r, i) { assert TallyOk(w, i); }
  }

  lemma AskOk(voters: set<NodeId>, w: World, n: NodeId, whose: NodeId)
    requires Shaped(w) && ElectionOk(voters, w) && EpochsBounded(w)
    requires n in w.nodes && whose in w.nodes[n].known && !w.nodes[n].authSent
    ensures ElectionOk(voters, Recorded(Put(w, n, StartElection(w.nodes[n])), w.nodes[n], AskForVotes(n, whose)))
  {
    var r := Recorded(Put(w, n, StartElection(w.nodes[n])), w.nodes[n], AskForVotes(n, whose));
    assert Bounded(w.nodes[n]);
    forall i | i in r.nodes ensures TallyOk(r, i) { assert TallyOk(w, i); }
    forall a | a in r.acks && a.dst == n ensures a.header.currentEpoch < r.nodes[n].authEpoch {
      assert Cast(a, w.votes);
    }
  }

  lemma RetryOk(voters: set<NodeId>, w: World, n: NodeId)
    requires Shaped(w) && ElectionOk(voters, w) && n in w.nodes
    ensures ElectionOk(voters, Tally(Put(w, n, ResetElection(w.nodes[n])), n, {}, 0))
  {
    var r := Tally(Put(w, n, ResetElection(w.nodes[n])), n, {}, 0);
    forall i | i in r.nodes ensures TallyOk(r, i) { assert TallyOk(w, i); }
  }

  lemma AddWinOk(voters: set<NodeId>, w: World, x: Win)
    requires Shaped(w) && ElectionOk(voters, w)
    requires |x.backers| + x.stale >= Quorum(voters)
    requires forall v :: v in x.backers ==> Granted(v, x.slave, x.epoch) in w.votes
    ensures ElectionOk(voters, w.(wins := w.wins + {x}))
  {
    var r := w.(wins := w.wins + {x});
    forall i | i in r.nodes ensures TallyOk(r, i) { assert TallyOk(w, i); }
  }

  lemma TakeOverOk(voters: set<NodeId>, w: World, n: NodeId)
    requires Shaped(w) && ElectionOk(voters, w) && n in w.nodes
    requires w.nodes[n].authCount >= Quorum(voters)
    ensures ElectionOk(voters, Recorded(Put(w, n, WinElection(w.nodes[n], n)), w.nodes[n], TakeOver(n)))
  {
    var m := Put(w, n, WinElection(w.nodes[n], n));
    PutSame(voters, w, n, WinElection(w.nodes[n], n));
    assert TallyOk(m, n);
    AddWinOk(voters, m, Win(n, w.nodes[n].authEpoch, w.counted[n], w.stale[n]));
  }

  /** The state after node `n`, now in state `s`, votes for `to`. */
  function Granting(w: World, n: NodeId, s: Node, to: NodeId): (r: World)
    requires Shaped(w) && n in w.nodes && n in s.known
    ensures Shaped(r)
  {
    Put(w, n, Vote(s)).(acks := w.acks + {Ack(Header(n, s.currentEpoch, s.known[n]), to)},
                        votes := w.votes + {Granted(n, to, s.currentEpoch)})
  }

  lemma GrantVotesOk(voters: set<NodeId>, w: World, n: NodeId, s: Node, to: NodeId)
    requires Shaped(w) && VotesOk(voters, w) && n in w.nodes && n in s.known && n in voters && to in w.nodes
    requires SameElection(w.nodes[n], s) && s.lastVoteEpoch < s.currentEpoch <= w.nodes[to].authEpoch
    ensures VotesOk(voters, Granting(w, n, s, to))
  {
    var r := Granting(w, n, s, to);
    forall v | v in r.votes
      ensures v.voter in voters && v.voter in r.nodes && v.slave in r.nodes
      ensures v.epoch <= r.nodes[v.voter].lastVoteEpoch && v.epoch <= r.nodes[v.slave].authEpoch
    {}
  }

  lemma GrantAcksOk(voters: set<NodeId>, w: World, n: NodeId, s: Node, to: NodeId)
    requires Shaped(w) && VotesOk(voters, w) && AcksOk(w) && n in w.nodes && n in s.known && to in w.nodes
    requires TallyOk(w, to)
    requires SameElection(w.nodes[n], s) && s.lastVoteEpoch < s.currentEpoch
    ensures AcksOk(Granting(w, n, s, to))
  {
    var r, a := Granting(w, n, s, to), Ack(Header(n, s.currentEpoch, s.known[n]), to);
    forall b | b in w.acks ensures !SameVote(a, b) && Cast(b, r.votes) { assert Cast(b, w.votes); }
    if n in w.counted[to] { assert Granted(n, to, w.nodes[to].authEpoch) in w.votes; }
  }

  lemma GrantOk(voters: set<NodeId>, w: World, n: NodeId, s: Node, to: NodeId)
    requires Shaped(w) && ElectionOk(voters, w) && n in w.nodes && n in s.known && n in voters && to in w.nodes
    requires SameElection(w.nodes[n], s) && s.lastVoteEpoch < s.currentEpoch <= w.nodes[to].authEpoch
    ensures ElectionOk(voters, Granting(w, n, s, to))
  {
    var r := Granting(w, n, s, to);
    GrantVotesOk(voters, w, n, s, to);
    assert TallyOk(w, to);
    GrantAcksOk(voters, w, n, s, to);
    forall i | i in r.nodes ensures TallyOk(r, i) { assert TallyOk(w, i); }
  }

  lemma OnRequestOk(voters: set<NodeId>, w: World, n: NodeId, h: Header, found: Circumstances)
    requires Shaped(w) && ElectionOk(voters, w) && EpochsBounded(w) && n in w.nodes
    requires h.sender in w.nodes && h.configEpoch <= h.currentEpoch <= w.nodes[h.sender].authEpoch
    ensures ElectionOk(voters, OnRequest(voters, w, n, h, found))
  {
    var s := SeeHeader(w.nodes[n], h);
    SeeHeaderBounded(w.nodes[n], h);
    if h.sender in s.known && GrantsVote(s, n in voters, h.currentEpoch, found) {
      GrantOk(voters, w, n, s, h.sender);
    } else {
      PutSame(voters, w, n, s);
    }
  }

  lemma DropAckOk(voters: set<NodeId>, w: World, a: Ack)
    requires Shaped(w) && ElectionOk(voters, w)
    ensures ElectionOk(voters, w.(acks := w.acks - {a}))
  {
    var r := w.(acks := w.acks - {a});
    forall i | i in r.nodes ensures TallyOk(r, i) { assert TallyOk(w, i); }
  }

  /** The state after node `n`, now in state `s`, counts acknowledgement `a`. */
  function Counting(w: World, n: NodeId, s: Node, a: Ack): (r: World)
    requires Shaped(w) && n in w.nodes && n in s.known
    ensures Shaped(r) && r.nodes == w.nodes[n := CountAck(s)]
    ensures r.votes == w.votes && r.requests == w.requests && r.wins == w.wins
  {
    var m := Put(w.(acks := w.acks - {a}), n, CountAck(s));
    if s.authSent then Tally(m, n, w.counted[n] + {a.header.sender}, w.stale[n])
    else Tally(m, n, w.counted[n], w.stale[n] + 1)
  }

  lemma CountTallyOk(voters: set<NodeId>, w: World, n: NodeId, s: Node, a: Ack, i: NodeId)
    requires Shaped(w) && VotesOk(voters, w) && AcksOk(w) && a in w.acks && a.dst == n && n in s.known
    requires i in w.nodes && TallyOk(w, i)
    requires SameElection(w.nodes[n], s) && a.header.currentEpoch >= s.authEpoch
    ensures TallyOk(Counting(w, n, s, a), i)
  {
    assert Cast(a, w.votes);
  }

  lemma CountAcksOk(w: World, n: NodeId, s: Node, a: Ack)
    requires Shaped(w) && AcksOk(w) && a in w.acks && a.dst == n && n in s.known
    requires SameElection(w.nodes[n], s)
    ensures AcksOk(Counting(w, n, s, a)) || a.header.currentEpoch != s.authEpoch
  {
    var r := Counting(w, n, s, a);
    if a.header.currentEpoch == s.authEpoch {
      forall b | b in r.acks && r.nodes[b.dst].authSent && b.header.currentEpoch == r.nodes[b.dst].authEpoch
        ensures b.header.sender !in r.counted[b.dst]
      {
        assert b in w.acks && (b.dst == n ==> !SameVote(a, b) || b == a);
      }
    }
  }

  lemma FrameVotes(voters: set<NodeId>, w: World, r: World)
    requires VotesOk(voters, w) && RequestsOk(w) && WinsOk(voters, w)
    requires r.votes == w.votes && r.requests == w.requests && r.wins == w.wins && r.nodes.Keys == w.nodes.Keys
    requires forall i :: i in w.nodes ==>
      w.nodes[i].lastVoteEpoch == r.nodes[i].lastVoteEpoch && w.nodes[i].authEpoch == r.nodes[i].authEpoch
    ensures VotesOk(voters, r) && RequestsOk(r) && WinsOk(voters, r)
  {}

  lemma AckIsRecent(voters: set<NodeId>, w: World, a: Ack)
    requires Shaped(w) && VotesOk(voters, w) && AcksOk(w) && a in w.acks
    ensures a.header.currentEpoch <= w.nodes[a.dst].authEpoch
  {
    assert Cast(a, w.votes);
  }

  lemma CountOk(voters: set<NodeId>, w: World, n: NodeId, s: Node, a: Ack)
    requires Shaped(w) && ElectionOk(voters, w) && a in w.acks && a.dst == n && n in s.known
    requires SameElection(w.nodes[n], s) && a.header.currentEpoch >= s.authEpoch
    ensures ElectionOk(voters, Counting(w, n, s, a))
  {
    AckIsRecent(voters, w, a);
    CountAcksOk(w, n, s, a);
    forall i | i in w.nodes ensures TallyOk(Counting(w, n, s, a), i) { CountTallyOk(voters, w, n, s, a, i); }
    CountedOk(voters, w, n, s, Counting(w, n, s, a));
  }

  lemma CountedOk(voters: set<NodeId>, w: World, n: NodeId, s: Node, r: World)
    requires Shaped(w) && ElectionOk(voters, w) && n in w.nodes && SameElection(w.nodes[n], s)
    requires Shaped(r) && r.nodes == w.nodes[n := CountAck(s)]
    requires r.votes == w.votes && r.requests == w.requests && r.wins == w.wins
    requires AcksOk(r) && forall i :: i in w.nodes ==> TallyOk(r, i)
    ensures ElectionOk(voters, r)
  {
    FrameVotes(voters, w, r);
  }

  lemma OnAckOk(voters: set<NodeId>, w: World, n: NodeId, a: Ack)
    requires Shaped(w) && ElectionOk(voters, w) && a in w.acks && a.dst == n && n in w.nodes
    ensures ElectionOk(voters, OnAck(voters, w, n, a))
  {
    var s := SeeHeader(w.nodes[n], a.header);
    if a.header.sender in s.known && CountsAck(s, a.header.sender in voters, a.header.currentEpoch) {
      CountOk(voters, w, n, s, a);
      assert OnAck(voters, w, n, a) == Counting(w, n, s, a);
    } else {
      DropAckOk(voters, w, a);
      PutSame(voters, w.(acks := w.acks - {a}), n, s);
    }
  }

  lemma SteppedSame(s: Node, n: NodeId, step: Step)
    requires n in s.known && !step.ReceiveRequest? && !step.ReceiveAck? && (step.Forget? ==> step.other != n)
    requires !step.AskForVotes? && !step.RetryLater?
    ensures SameElection(s, Stepped(s, n, step))
  {}

  lemma RecordedOk(voters: set<NodeId>, w: World, s: Node, step: Step)
    requires Shaped(w) && ElectionOk(voters, w) && step.n in w.nodes
    requires step.SendPacket? ==> step.whose in s.known && (step.about.Some? ==> step.about.value in s.known)
    requires !step.AskForVotes? && !step.RetryLater? && !step.TakeOver?
    ensures ElectionOk(voters, Recorded(w, s, step))
  {
    var r := Recorded(w, s, step);
    forall i | i in r.nodes ensures TallyOk(r, i) { assert TallyOk(w, i); }
  }

  lemma NextElectionOk(voters: set<NodeId>, w: World, step: Step)
    requires Shaped(w) && ElectionOk(voters, w) && EpochsBounded(w) && Enabled(voters, w, step)
    ensures ElectionOk(voters, Next(voters, w, step))
  {
    var n := step.n;
    match step
    case ReceiveRequest(_, ask, found) => OnRequestOk(voters, w, n, ask.header, found);
    case ReceiveAck(_, a) => OnAckOk(voters, w, n, a);
    case AskForVotes(_, whose) => AskOk(voters, w, n, whose);
    case RetryLater(_) => RetryOk(voters, w, n);
    case TakeOver(_) => TakeOverOk(voters, w, n);
    case _ =>
      SteppedSame(w.nodes[n], n, step);
      PutSame(voters, w, n, Stepped(w.nodes[n], n, step));
      RecordedOk(voters, Put(w, n, Stepped(w.nodes[n], n, step)), w.nodes[n], step);
  }

  // -------- Runs --------

  ghost predicate IsRun(voters: set<NodeId>, steps: seq<Step>, w: World)
    decreases |steps|
  {
    if steps == [] then IsInitial(w)
    else exists m: World ::
      && IsRun(voters, steps[..|steps| - 1], m)
      && Shaped(m) && Enabled(voters, m, steps[|steps| - 1]) && w == Next(voters, m, steps[|steps| - 1])
  }

  lemma InitialOk(voters: set<NodeId>, w: World)
    requires IsInitial(w)
    ensures Shaped(w) && EpochsBounded(w) && ElectionOk(voters, w)
  {}

  /** Every reachable state keeps the epoch bounds and the election invariant. */
  lemma {:induction false} RunsOk(voters: set<NodeId>, steps: seq<Step>, w: World)
    requires IsRun(voters, steps, w)
    ensures Shaped(w) && EpochsBounded(w) && ElectionOk(voters, w)
    decreases |steps|
  {
    if steps == [] {
      InitialOk(voters, w);
    } else {
      var last := steps[|steps| - 1];
      var m :| && IsRun(voters, steps[..|steps| - 1], m)
               && Shaped(m) && Enabled(voters, m, last) && w == Next(voters, m, last);
      RunsOk(voters, steps[..|steps| - 1], m);
      NextEpochsBounded(voters, m, last);
      NextElectionOk(voters, m, last);
    }
  }

  lemma BackersDisjoint(voters: set<NodeId>, w: World, x: Win, y: Win)
    requires VotesOk(voters, w) && WinsOk(voters, w) && x in w.wins && y in w.wins
    requires x.epoch == y.epoch && x.slave != y.slave
    ensures |x.backers| + |y.backers| <= |voters|
  {
    forall v | v in x.backers ensures v !in y.backers {
      assert Granted(v, x.slave, x.epoch) in w.votes;
    }
    forall v | v in x.backers + y.backers ensures v in voters {
      assert Granted(v, x.slave, x.epoch) in w.votes || Granted(v, y.slave, y.epoch) in w.votes;
    }
    SubsetSize(x.backers + y.backers, voters);
  }

  lemma SubsetSize(a: set<NodeId>, b: set<NodeId>)
    requires a <= b
    ensures |a| <= |b|
  {
    assert b == a + (b - a);
  }

  /** Election safety: unless stale acknowledgements make up the margin between
      two quorums and the electorate, an epoch has at most one winner. */
  lemma OneWinnerPerEpoch(voters: set<NodeId>, steps: seq<Step>, w: World, x: Win, y: Win)
    requires IsRun(voters, steps, w)
    requires x in w.wins && y in w.wins && x.epoch == y.epoch
    requires x.stale + y.stale < 2 * Quorum(voters) - |voters|
    ensures x.slave == y.slave
  {
    RunsOk(voters, steps, w);
    if x.slave != y.slave { BackersDisjoint(voters, w, x, y); }
  }

  /** A master votes at most once per epoch, in every run. */
  lemma OneVotePerEpoch(voters: set<NodeId>, steps: seq<Step>, w: World, v: Granted, v': Granted)
    requires IsRun(voters, steps, w)
    requires v in w.votes && v' in w.votes && v.voter == v'.voter && v.epoch == v'.epoch
    ensures v.slave == v'.slave
  {
    RunsOk(voters, steps, w);
  }

  // -------- Runs without late acknowledgements --------

  /** The step counts an acknowledgement after its attempt was given up and before
      the next one starts. */
  predicate Late(voters: set<NodeId>, w: World, step: Step)
    requires Shaped(w) && step.n in w.nodes
  {
    step.ReceiveAck? && var s, h := w.nodes[step.n], step.ack.header;
    !s.authSent && h.sender in s.known && h.sender in voters && h.currentEpoch >= s.authEpoch
  }

  ghost predicate NoneStale(w: World)
    requires Shaped(w)
  {
    (forall i :: i in w.nodes ==> w.stale[i] == 0) && forall x :: x in w.wins ==> x.stale == 0
  }

  lemma AckStale(voters: set<NodeId>, w: World, n: NodeId, a: Ack)
    requires Shaped(w) && n in w.nodes
    ensures OnAck(voters, w, n, a).wins == w.wins
    ensures OnAck(voters, w, n, a).stale
         == w.stale[n := w.stale[n] + if Late(voters, w, ReceiveAck(n, a)) then 1 else 0]
  {
    assert w.stale[n := w.stale[n]] == w.stale;
  }

  lemma AckNoneStale(voters: set<NodeId>, w: World, n: NodeId, a: Ack, r: World)
    requires Shaped(w) && Shaped(r) && NoneStale(w) && n in w.nodes && r.nodes.Keys == w.nodes.Keys && r.wins == w.wins
    requires r.stale == w.stale[n := w.stale[n] + if Late(voters, w, ReceiveAck(n, a)) then 1 else 0]
    ensures NoneStale(r) <==> !Late(voters, w, ReceiveAck(n, a))
  {
    assert r.stale[n] == 0 <==> !Late(voters, w, ReceiveAck(n, a));
  }

  lemma OnAckNoneStale(voters: set<NodeId>, w: World, n: NodeId, a: Ack)
    requires Shaped(w) && NoneStale(w) && n in w.nodes
    ensures NoneStale(OnAck(voters, w, n, a)) <==> !Late(voters, w, ReceiveAck(n, a))
  {
    var r := OnAck(voters, w, n, a);
    AckStale(voters, w, n, a);
    AckNoneStale(voters, w, n, a, r);
  }

  lemma LocalNoneStale(w: World, s: Node, step: Step)
    requires Shaped(w) && NoneStale(w) && step.n in w.nodes
    requires step.SendPacket? ==> step.whose in s.known && (step.about.Some? ==> step.about.value in s.known)
    requires step.AskForVotes? ==> step.whose in s.known
    ensures NoneStale(Recorded(w, s, step))
  {
    var r := Recorded(w, s, step);
    assert forall i :: i in w.nodes ==> r.stale[i] == 0;
  }

  /** A late acknowledgement is the only way a counter takes in a stale vote. */
  lemma NextNoneStale(voters: set<NodeId>, w: World, step: Step)
    requires Shaped(w) && NoneStale(w) && Enabled(voters, w, step)
    ensures NoneStale(Next(voters, w, step)) <==> !Late(voters, w, step)
  {
    if step.ReceiveAck? {
      OnAckNoneStale(voters, w, step.n, step.ack);
    } else if step.ReceiveRequest? {
      var r := OnRequest(voters, w, step.n, step.ask.header, step.found);
      assert r.stale == w.stale && r.wins == w.wins;
    } else {
      LocalNoneStale(Put(w, step.n, Stepped(w.nodes[step.n], step.n, step)), w.nodes[step.n], step);
    }
  }

  ghost predicate IsPromptRun(voters: set<NodeId>, steps: seq<Step>, w: World)
    decreases |steps|
  {
    if steps == [] then IsInitial(w)
    else exists m: World ::
      && IsPromptRun(voters, steps[..|steps| - 1], m)
      && Shaped(m) && Enabled(voters, m, steps[|steps| - 1]) && !Late(voters, m, steps[|steps| - 1])
      && w == Next(voters, m, steps[|steps| - 1])
  }

  lemma {:induction false} PromptRunsCountNoneStale(voters: set<NodeId>, steps: seq<Step>, w: World)
    requires IsPromptRun(voters, steps, w)
    ensures Shaped(w) && IsRun(voters, steps, w) && NoneStale(w)
    decreases |steps|
  {
    if steps != [] {
      var last := steps[|steps| - 1];
      var m :| && IsPromptRun(voters, steps[..|steps| - 1], m)
               && Shaped(m) && Enabled(voters, m, last) && !Late(voters, m, last) && w == Next(voters, m, last);
      PromptRunsCountNoneStale(voters, steps[..|steps| - 1], m);
      NextNoneStale(voters, m, last);
    }
  }

  /** Without late acknowledgements an epoch has at most one winner. */
  lemma PromptRunsAreSafe(voters: set<NodeId>, steps: seq<Step>, w: World, x: Win, y: Win)
    requires IsPromptRun(voters, steps, w)
    requires x in w.wins && y in w.wins && x.epoch == y.epoch
    ensures x.slave == y.slave
  {
    PromptRunsCountNoneStale(voters, steps, w);
    OneWinnerPerEpoch(voters, steps, w, x, y);
  }
}
