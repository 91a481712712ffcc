/** Acknowledgements that arrive between two attempts: for every electorate, a run in
    which they give one epoch two winners, at exactly the margin that election
    safety leaves. */
module ClusterStaleAck {
  import opened ClusterEpochs
  import opened ClusterProtocol
  import opened Options

  /** The voter finds nothing against a request with the force flag. */
  const WILLING := Circumstances(false, true, false, true, false, false)

  /** A table of nodes at configEpoch 0. */
  function Table(ids: set<NodeId>): map<NodeId, nat> { map i | i in ids :: 0 }

  // -------- Traces --------

  /** A run with every world it passes. */
  datatype Trace = Trace(steps: seq<Step>, worlds: seq<World>)

  ghost predicate Goes(voters: set<NodeId>, w: World, step: Step, r: World) {
    Shaped(w) && Enabled(voters, w, step) && r == Next(voters, w, step)
  }

  ghost predicate GoesAt(voters: set<NodeId>, t: Trace, i: nat)
    requires i < |t.steps| && |t.worlds| == |t.steps| + 1
  {
    Goes(voters, t.worlds[i], t.steps[i], t.worlds[i + 1])
  }

  ghost predicate IsTrace(voters: set<NodeId>, t: Trace) {
    && |t.worlds| == |t.steps| + 1 && IsInitial(t.worlds[0])
    && forall i: nat {:trigger GoesAt(voters, t, i)} :: i < |t.steps| ==> GoesAt(voters, t, i)
  }

  ghost predicate EndsIn(voters: set<NodeId>, t: Trace, w: World) {
    IsTrace(voters, t) && t.worlds[|t.steps|] == w
  }

  lemma Extend(voters: set<NodeId>, t: Trace, w: World, step: Step, r: World) returns (u: Trace)
    requires EndsIn(voters, t, w) && Goes(voters, w, step, r)
    ensures EndsIn(voters, u, r)
  {
    var n := |t.steps|;
    u := Trace(t.steps + [step], t.worlds + [r]);
    assert u.worlds[n] == w && u.worlds[n + 1] == r && u.steps[n] == step;
    forall i: nat | i < |u.steps| ensures GoesAt(voters, u, i) {
      if i < n { StillGoes(voters, t, u, i); }
    }
  }

  lemma StillGoes(voters: set<NodeId>, t: Trace, u: Trace, i: nat)
    requires IsTrace(voters, t) && i < |t.steps| && i < |u.steps| && |u.worlds| == |u.steps| + 1
    requires t.steps[i] == u.steps[i] && t.worlds[i] == u.worlds[i] && t.worlds[i + 1] == u.worlds[i + 1]
    ensures GoesAt(voters, u, i)
  {
    assert GoesAt(voters, t, i);
  }

  lemma RunGoesOn(voters: set<NodeId>, steps: seq<Step>, w: World, r: World)
    requires steps != [] && IsRun(voters, steps[..|steps| - 1], w) && Goes(voters, w, steps[|steps| - 1], r)
    ensures IsRun(voters, steps, r)
  {}

  lemma TraceGoes(voters: set<NodeId>, t: Trace, i: nat, step: Step)
    requires IsTrace(voters, t) && i < |t.steps| && step == t.steps[i]
    ensures Goes(voters, t.worlds[i], step, t.worlds[i + 1])
  {
    assert GoesAt(voters, t, i);
  }

  lemma {:induction false} TraceIsRun(voters: set<NodeId>, t: Trace, k: nat, steps: seq<Step>)
    requires IsTrace(voters, t) && k <= |t.steps| && steps == t.steps[..k]
    ensures IsRun(voters, steps, t.worlds[k])
  {
    if k == 0 {
      assert steps == [];
    } else {
      var fewer := steps[..|steps| - 1];
      TraceIsRun(voters, t, k - 1, fewer);
      TraceGoes(voters, t, k - 1, steps[|steps| - 1]);
      RunGoesOn(voters, steps, t.worlds[k - 1], t.worlds[k]);
    }
  }

  // -------- One vote, cast and counted --------

  /** The node can vote for a request of epoch e. */
  predicate Open(n: Node, ids: set<NodeId>, e: nat) {
    n.currentEpoch <= e && n.lastVoteEpoch < e && n.known == Table(ids)
  }

  function Voted(n: Node, e: nat): Node { n.(currentEpoch := e, lastVoteEpoch := e) }

  /** The request of epoch e by slave s. */
  function AskOf(s: NodeId, e: nat, ids: set<NodeId>): Ask { Ask(Header(s, e, 0), ids - {s}) }

  /** Slave s waits for votes of epoch e, or no longer does. */
  predicate Polls(w: World, ids: set<NodeId>, s: NodeId, e: nat) {
    && Shaped(w) && w.nodes.Keys == ids && s in ids && AskOf(s, e, ids) in w.requests && w.acks == {}
    && w.nodes[s].known == Table(ids) && w.nodes[s].authEpoch <= e <= w.nodes[s].currentEpoch
  }

  lemma SeeNothing(n: Node, h: Header, ids: set<NodeId>)
    requires n.known == Table(ids) && h.configEpoch == 0 && h.sender in ids
    ensures SeeHeader(n, h) == n.(currentEpoch := Max(n.currentEpoch, h.currentEpoch))
  {
    assert n.known[h.sender := 0] == n.known;
  }

  lemma CastOne(voters: set<NodeId>, ids: set<NodeId>, w: World, s: NodeId, e: nat, v: NodeId)
    requires Polls(w, ids, s, e) && v in voters && v in ids && v != s && Open(w.nodes[v], ids, e)
    ensures var step := ReceiveRequest(v, AskOf(s, e, ids), WILLING);
            && Enabled(voters, w, step)
            && Next(voters, w, step) == w.(nodes := w.nodes[v := Voted(w.nodes[v], e)],
                                           acks := {Ack(Header(v, e, 0), s)}, votes := w.votes + {Granted(v, s, e)})
  {
    SeeNothing(w.nodes[v], Header(s, e, 0), ids);
  }

  lemma CountOne(voters: set<NodeId>, ids: set<NodeId>, w: World, s: NodeId, e: nat, v: NodeId)
    requires Shaped(w) && w.nodes.Keys == ids && s in ids && v in voters && v in ids
    requires w.acks == {Ack(Header(v, e, 0), s)}
    requires w.nodes[s].known == Table(ids) && w.nodes[s].authEpoch <= e <= w.nodes[s].currentEpoch
    ensures var step, n := ReceiveAck(s, Ack(Header(v, e, 0), s)), w.nodes[s];
            && Enabled(voters, w, step)
            && Next(voters, w, step)
               == w.(nodes := w.nodes[s := CountAck(n)], acks := {},
                     counted := if n.authSent then w.counted[s := w.counted[s] + {v}] else w.counted,
                     stale := if n.authSent then w.stale else w.stale[s := w.stale[s] + 1])
  {
    var ack := Ack(Header(v, e, 0), s);
    SeeNothing(w.nodes[s], ack.header, ids);
    assert w.acks - {ack} == {};
    assert w.stale[s := w.stale[s]] == w.stale && w.counted[s := w.counted[s]] == w.counted;
  }

  /** What polling the voters in S leaves of a node. */
  predicate NodePolled(w: World, r: World, S: set<NodeId>, s: NodeId, e: nat, i: NodeId)
    requires Shaped(w) && Shaped(r) && i in w.nodes && i in r.nodes
  {
    var n, m := w.nodes[i], r.nodes[i];
    if i == s then
      && m == n.(authCount := n.authCount + |S|)
      && r.counted[i] == (if n.authSent then w.counted[i] + S else w.counted[i])
      && r.stale[i] == (if n.authSent then w.stale[i] else w.stale[i] + |S|)
    else
      m == (if i in S then Voted(n, e) else n) && r.counted[i] == w.counted[i] && r.stale[i] == w.stale[i]
  }

  ghost predicate Polled(w: World, r: World, S: set<NodeId>, s: NodeId, e: nat) {
    && Shaped(w) && Shaped(r) && r.nodes.Keys == w.nodes.Keys
    && r.requests == w.requests && r.acks == {} && r.wins == w.wins
    && forall i {:trigger NodePolled(w, r, S, s, e, i)} :: i in w.nodes ==> NodePolled(w, r, S, s, e, i)
  }

  /** A vote cast, then counted. */
  ghost predicate CastAndCounted(w: World, m: World, r: World, s: NodeId, e: nat, v: NodeId) {
    && Shaped(w) && Shaped(m) && Shaped(r) && s in w.nodes && v in w.nodes && v != s
    && m == w.(nodes := w.nodes[v := Voted(w.nodes[v], e)], acks := m.acks, votes := m.votes)
    && s in m.nodes
    && var n := m.nodes[s];
       r == m.(nodes := m.nodes[s := CountAck(n)], acks := {},
               counted := if n.authSent then m.counted[s := m.counted[s] + {v}] else m.counted,
               stale := if n.authSent then m.stale else m.stale[s := m.stale[s] + 1])
  }

  lemma CountedAt(w: World, m: World, r: World, s: NodeId, e: nat, v: NodeId, i: NodeId)
    requires CastAndCounted(w, m, r, s, e, v) && i in w.nodes && i in r.nodes
    ensures NodePolled(w, r, {v}, s, e, i)
  {}

  lemma CastThenCount(w: World, m: World, r: World, s: NodeId, e: nat, v: NodeId)
    requires CastAndCounted(w, m, r, s, e, v)
    ensures Polled(w, r, {v}, s, e)
  {
    assert r.nodes.Keys == w.nodes.Keys;
    forall i | i in w.nodes ensures NodePolled(w, r, {v}, s, e, i) { CountedAt(w, m, r, s, e, v, i); }
  }

  lemma PollOne(voters: set<NodeId>, ids: set<NodeId>, t: Trace, w: World, s: NodeId, e: nat, v: NodeId)
      returns (u: Trace, r: World)
    requires EndsIn(voters, t, w) && Polls(w, ids, s, e)
    requires v in voters && v in ids && v != s && Open(w.nodes[v], ids, e)
    ensures EndsIn(voters, u, r) && Polled(w, r, {v}, s, e)
  {
    var ask, ack := ReceiveRequest(v, AskOf(s, e, ids), WILLING), ReceiveAck(s, Ack(Header(v, e, 0), s));
    CastOne(voters, ids, w, s, e, v);
    var m := Next(voters, w, ask);
    var half := Extend(voters, t, w, ask, m);
    CountOne(voters, ids, m, s, e, v);
    r := Next(voters, m, ack);
    u := Extend(voters, half, m, ack, r);
    CastThenCount(w, m, r, s, e, v);
  }

  lemma NodePolledMore(w: World, m: World, r: World, S: set<NodeId>, T: set<NodeId>, v: NodeId, s: NodeId, e: nat,
                       i: NodeId)
    requires Shaped(w) && Shaped(m) && Shaped(r) && i in w.nodes && i in m.nodes && i in r.nodes
    requires v !in S && v != s && T == S + {v}
    requires NodePolled(w, m, S, s, e, i) && NodePolled(m, r, {v}, s, e, i)
    ensures NodePolled(w, r, T, s, e, i)
  {
    assert |T| == |S| + 1;
    assert w.counted[i] + S + {v} == w.counted[i] + T;
  }

  lemma PolledMore(w: World, m: World, r: World, S: set<NodeId>, T: set<NodeId>, v: NodeId, s: NodeId, e: nat)
    requires v !in S && v != s && T == S + {v} && Polled(w, m, S, s, e) && Polled(m, r, {v}, s, e)
    ensures Polled(w, r, T, s, e)
  {
    forall i | i in w.nodes ensures NodePolled(w, r, T, s, e, i) {
      assert NodePolled(w, m, S, s, e, i) && NodePolled(m, r, {v}, s, e, i);
      NodePolledMore(w, m, r, S, T, v, s, e, i);
    }
  }

  lemma StillPolls(w: World, m: World, ids: set<NodeId>, S: set<NodeId>, s: NodeId, e: nat, v: NodeId)
    requires Polls(w, ids, s, e) && Polled(w, m, S, s, e) && v in ids && v !in S && v != s && Open(w.nodes[v], ids, e)
    ensures Polls(m, ids, s, e) && Open(m.nodes[v], ids, e)
  {
    assert NodePolled(w, m, S, s, e, s) && NodePolled(w, m, S, s, e, v);
  }

  lemma PollAnother(voters: set<NodeId>, ids: set<NodeId>, t: Trace, w: World, m: World, s: NodeId, e: nat,
                    S: set<NodeId>, T: set<NodeId>, v: NodeId) returns (u: Trace, r: World)
    requires EndsIn(voters, t, m) && Polls(w, ids, s, e) && Polled(w, m, S, s, e)
    requires v in voters && v in ids && v !in S && v != s && T == S + {v} && Open(w.nodes[v], ids, e)
    ensures EndsIn(voters, u, r) && Polled(w, r, T, s, e)
  {
    StillPolls(w, m, ids, S, s, e, v);
    u, r := PollOne(voters, ids, t, m, s, e, v);
    PolledMore(w, m, r, S, T, v, s, e);
  }

  lemma PolledNobody(w: World, s: NodeId, e: nat)
    requires Shaped(w) && w.acks == {}
    ensures Polled(w, w, {}, s, e)
  {
    forall i | i in w.nodes ensures NodePolled(w, w, {}, s, e, i) {}
  }

  /** A slave may collect the votes of any voters that can still vote. */
  lemma {:induction false} Poll(voters: set<NodeId>, ids: set<NodeId>, t: Trace, w: World,
                                s: NodeId, e: nat, S: set<NodeId>) returns (u: Trace, r: World)
    requires EndsIn(voters, t, w) && Polls(w, ids, s, e) && S <= voters && S <= ids && s !in S
    requires forall v :: v in S ==> Open(w.nodes[v], ids, e)
    ensures EndsIn(voters, u, r) && Polled(w, r, S, s, e)
    decreases |S|
  {
    if v :| v in S {
      var T := S - {v};
      var half, m := Poll(voters, ids, t, w, s, e, T);
      u, r := PollAnother(voters, ids, half, w, m, s, e, T, S, v);
    } else {
      u, r := t, w;
      PolledNobody(w, s, e);
    }
  }

  // -------- The scenes of the run --------

  /** Where each voter stands: `two` have voted in epoch 2, of the rest `one` in
      epoch 1. */
  predicate VoterAt(n: Node, ids: set<NodeId>, one: bool, two: bool) {
    var e := if two then 2 else if one then 1 else 0;
    n == Node(e, e, 0, 0, false, true, Table(ids))
  }

  datatype Cast = Cast(voters: set<NodeId>, a: NodeId, b: NodeId)

  function Everyone(c: Cast): set<NodeId> { c.voters + {c.a, c.b} }

  predicate CastOk(c: Cast) { c.voters != {} && c.a !in c.voters && c.b !in c.voters && c.a != c.b }

  function SlaveAt(c: Cast, epoch: nat, auth: nat, count: nat, sent: bool): Node {
    Node(epoch, 0, auth, count, sent, false, Table(Everyone(c)))
  }

  predicate VoterScene(c: Cast, w: World, one: set<NodeId>, two: set<NodeId>, v: NodeId)
    requires v in w.nodes
  {
    VoterAt(w.nodes[v], Everyone(c), v in one, v in two)
  }

  ghost predicate VotersAt(c: Cast, w: World, one: set<NodeId>, two: set<NodeId>)
    requires w.nodes.Keys == Everyone(c)
  {
    forall v {:trigger VoterScene(c, w, one, two, v)} :: v in c.voters ==> VoterScene(c, w, one, two, v)
  }

  ghost predicate Scene(c: Cast, w: World, x: Node, y: Node, one: set<NodeId>, two: set<NodeId>, asks: set<Ask>) {
    && Shaped(w) && w.nodes.Keys == Everyone(c) && w.nodes[c.a] == x && w.nodes[c.b] == y
    && w.acks == {} && w.requests == asks && VotersAt(c, w, one, two)
  }

  /** The slaves' tallies, and who has won. */
  ghost predicate Score(c: Cast, w: World, ca: set<NodeId>, sa: nat, cb: set<NodeId>, wins: set<Win>) {
    && Shaped(w) && c.a in w.nodes && c.b in w.nodes
    && w.counted[c.a] == ca && w.stale[c.a] == sa && w.counted[c.b] == cb && w.stale[c.b] == 0 && w.wins == wins
  }

  function Beginning(c: Cast): (w: World)
    requires CastOk(c)
    ensures Shaped(w)
  {
    var ids := Everyone(c);
    World(map i | i in ids :: Node(0, 0, 0, 0, false, i in c.voters, Table(ids)), {}, {}, {}, {},
          map i | i in ids :: {}, map i | i in ids :: 0, {})
  }

  lemma Begin(c: Cast) returns (t: Trace)
    requires CastOk(c)
    ensures EndsIn(c.voters, t, Beginning(c))
    ensures Scene(c, Beginning(c), SlaveAt(c, 0, 0, 0, false), SlaveAt(c, 0, 0, 0, false), {}, {}, {})
    ensures Score(c, Beginning(c), {}, 0, {}, {})
  {
    t := Trace([], [Beginning(c)]);
    forall v | v in c.voters ensures VoterScene(c, Beginning(c), {}, {}, v) {}
  }

  /** A slave asks the others for votes in the next epoch. */
  lemma AskGoes(c: Cast, w: World, s: NodeId)
    requires Shaped(w) && s in w.nodes && s in Everyone(c)
    requires !w.nodes[s].master && !w.nodes[s].authSent && w.nodes[s].known == Table(Everyone(c))
    ensures Goes(c.voters, w, AskForVotes(s, s),
                 w.(nodes := w.nodes[s := StartElection(w.nodes[s])],
                    requests := w.requests + {AskOf(s, w.nodes[s].currentEpoch + 1, Everyone(c))}))
  {
    assert Table(Everyone(c)).Keys == Everyone(c);
  }

  /** A slave gives up its attempt. */
  lemma GiveUpGoes(c: Cast, w: World, s: NodeId)
    requires Shaped(w) && s in w.nodes && !w.nodes[s].master && w.counted[s] == {} && w.stale[s] == 0
    ensures Goes(c.voters, w, RetryLater(s), w.(nodes := w.nodes[s := ResetElection(w.nodes[s])]))
  {
    assert w.counted[s := {}] == w.counted && w.stale[s := 0] == w.stale;
  }

  /** A slave with a quorum takes over. */
  lemma WinGoes(c: Cast, w: World, s: NodeId)
    requires Shaped(w) && s in w.nodes && !w.nodes[s].master && w.nodes[s].authSent
    requires w.nodes[s].authCount >= Quorum(c.voters)
    ensures Goes(c.voters, w, TakeOver(s),
                 w.(nodes := w.nodes[s := WinElection(w.nodes[s], s)],
                    wins := w.wins + {Win(s, w.nodes[s].authEpoch, w.counted[s], w.stale[s])}))
  {}

  lemma OverhearGoes(c: Cast, w: World)
    requires CastOk(c) && Shaped(w) && c.b in w.nodes && AskOf(c.a, 1, Everyone(c)) in w.requests
    requires w.nodes[c.b] == SlaveAt(c, 0, 0, 0, false)
    ensures Goes(c.voters, w, ReceiveRequest(c.b, AskOf(c.a, 1, Everyone(c)), WILLING),
                 w.(nodes := w.nodes[c.b := SlaveAt(c, 1, 0, 0, false)]))
  {
    SeeNothing(w.nodes[c.b], Header(c.a, 1, 0), Everyone(c));
  }

  // -------- The run --------

  /** A step of a slave alone leaves the voters where they are. */
  lemma SlaveMoves(c: Cast, w: World, r: World, x: Node, y: Node, one: set<NodeId>, two: set<NodeId>, asks: set<Ask>,
                   s: NodeId, n: Node, more: set<Ask>)
    requires CastOk(c) && Scene(c, w, x, y, one, two, asks) && Shaped(r) && (s == c.a || s == c.b)
    requires r.nodes == w.nodes[s := n] && r.acks == {} && r.requests == more
    ensures Scene(c, r, if s == c.a then n else x, if s == c.b then n else y, one, two, more)
  {
    SameKeys(w.nodes, s, n);
    VotersStay(c, w, r, one, two, s, n);
  }

  lemma SameKeys(nodes: map<NodeId, Node>, s: NodeId, n: Node)
    requires s in nodes
    ensures nodes[s := n].Keys == nodes.Keys
  {}

  lemma VotersStay(c: Cast, w: World, r: World, one: set<NodeId>, two: set<NodeId>, s: NodeId, n: Node)
    requires w.nodes.Keys == Everyone(c) && r.nodes.Keys == Everyone(c) && s !in c.voters
    requires r.nodes == w.nodes[s := n] && VotersAt(c, w, one, two)
    ensures VotersAt(c, r, one, two)
  {
    forall v | v in c.voters ensures VoterScene(c, r, one, two, v) { assert VoterScene(c, w, one, two, v); }
  }

  lemma VoterPolled(c: Cast, w: World, r: World, one: set<NodeId>, two: set<NodeId>, S: set<NodeId>, s: NodeId, e: nat,
                    v: NodeId)
    requires v in c.voters && v in w.nodes && v in r.nodes && Shaped(w) && Shaped(r) && s !in c.voters
    requires VoterScene(c, w, one, two, v) && NodePolled(w, r, S, s, e, v)
    requires (e == 1 && S !! two) || e == 2
    ensures VoterScene(c, r, if e == 1 then one + S else one, if e == 2 then two + S else two, v)
  {}

  lemma VotersPolled(c: Cast, w: World, r: World, one: set<NodeId>, two: set<NodeId>, S: set<NodeId>, s: NodeId, e: nat)
    requires w.nodes.Keys == Everyone(c) && r.nodes.Keys == Everyone(c) && s !in c.voters && VotersAt(c, w, one, two)
    requires Polled(w, r, S, s, e) && ((e == 1 && S !! two) || e == 2)
    ensures VotersAt(c, r, if e == 1 then one + S else one, if e == 2 then two + S else two)
  {
    var one', two' := if e == 1 then one + S else one, if e == 2 then two + S else two;
    forall v | v in c.voters ensures VoterScene(c, r, one', two', v) {
      assert VoterScene(c, w, one, two, v) && NodePolled(w, r, S, s, e, v);
      VoterPolled(c, w, r, one, two, S, s, e, v);
    }
  }

  lemma PollMoves(c: Cast, w: World, r: World, x: Node, y: Node, one: set<NodeId>, two: set<NodeId>, asks: set<Ask>,
                  S: set<NodeId>, s: NodeId, e: nat)
    requires CastOk(c) && Scene(c, w, x, y, one, two, asks) && (s == c.a || s == c.b) && S <= c.voters
    requires Polled(w, r, S, s, e) && ((e == 1 && S !! two) || e == 2)
    ensures var n := w.nodes[s].(authCount := w.nodes[s].authCount + |S|);
            Scene(c, r, if s == c.a then n else x, if s == c.b then n else y,
                  if e == 1 then one + S else one, if e == 2 then two + S else two, asks)
  {
    assert NodePolled(w, r, S, s, e, c.a) && NodePolled(w, r, S, s, e, c.b);
    VotersPolled(c, w, r, one, two, S, s, e);
  }

  /** Voters that have not voted in the epoch can. */
  lemma AllOpen(c: Cast, w: World, x: Node, y: Node, one: set<NodeId>, two: set<NodeId>, asks: set<Ask>, S: set<NodeId>,
                e: nat)
    requires CastOk(c) && Scene(c, w, x, y, one, two, asks) && S <= c.voters && S !! two
    requires (e == 1 && S !! one) || e == 2
    ensures forall v :: v in S ==> Open(w.nodes[v], Everyone(c), e)
  {
    forall v | v in S ensures Open(w.nodes[v], Everyone(c), e) { assert VoterScene(c, w, one, two, v); }
  }

  /** Polling in a scene. */
  lemma PollScene(c: Cast, t: Trace, w: World, x: Node, y: Node, one: set<NodeId>, two: set<NodeId>, asks: set<Ask>,
                  S: set<NodeId>, s: NodeId, e: nat) returns (u: Trace, r: World)
    requires CastOk(c) && EndsIn(c.voters, t, w) && Scene(c, w, x, y, one, two, asks)
    requires (s == c.a || s == c.b) && S <= c.voters && S !! two && ((e == 1 && S !! one) || e == 2)
    requires AskOf(s, e, Everyone(c)) in asks
    requires w.nodes[s].known == Table(Everyone(c)) && w.nodes[s].authEpoch <= e <= w.nodes[s].currentEpoch
    ensures EndsIn(c.voters, u, r) && Polled(w, r, S, s, e)
    ensures var n := w.nodes[s].(authCount := w.nodes[s].authCount + |S|);
            Scene(c, r, if s == c.a then n else x, if s == c.b then n else y,
                  if e == 1 then one + S else one, if e == 2 then two + S else two, asks)
  {
    AllOpen(c, w, x, y, one, two, asks, S, e);
    u, r := Poll(c.voters, Everyone(c), t, w, s, e, S);
    PollMoves(c, w, r, x, y, one, two, asks, S, s, e);
  }

  lemma PollScore(c: Cast, w: World, r: World, S: set<NodeId>, s: NodeId, e: nat, ca: set<NodeId>, sa: nat,
                  cb: set<NodeId>, wins: set<Win>)
    requires CastOk(c) && Score(c, w, ca, sa, cb, wins) && Polled(w, r, S, s, e) && (s == c.a || s == c.b)
    requires s == c.b ==> w.nodes[s].authSent
    ensures var sent := w.nodes[s].authSent;
            Score(c, r, if s == c.a && sent then ca + S else ca, if s == c.a && !sent then sa + |S| else sa,
                  if s == c.b then cb + S else cb, wins)
  {
    assert NodePolled(w, r, S, s, e, c.a) && NodePolled(w, r, S, s, e, c.b);
  }

  function FirstAsk(c: Cast): set<Ask> { {AskOf(c.a, 1, Everyone(c))} }

  /** The first request is given up. */
  lemma GivenUp(c: Cast) returns (t: Trace, w: World)
    requires CastOk(c)
    ensures EndsIn(c.voters, t, w)
    ensures Scene(c, w, SlaveAt(c, 1, 1, 0, false), SlaveAt(c, 0, 0, 0, false), {}, {}, FirstAsk(c))
    ensures Score(c, w, {}, 0, {}, {})
  {
    var w0, y, asks := Beginning(c), SlaveAt(c, 0, 0, 0, false), FirstAsk(c);
    var t0 := Begin(c);
    AskGoes(c, w0, c.a);
    var w1 := w0.(nodes := w0.nodes[c.a := StartElection(w0.nodes[c.a])], requests := asks);
    assert w0.requests + asks == asks;
    var t1 := Extend(c.voters, t0, w0, AskForVotes(c.a, c.a), w1);
    SlaveMoves(c, w0, w1, y, y, {}, {}, {}, c.a, SlaveAt(c, 1, 1, 0, true), asks);
    GiveUpGoes(c, w1, c.a);
    w := w1.(nodes := w1.nodes[c.a := ResetElection(w1.nodes[c.a])]);
    t := Extend(c.voters, t1, w1, RetryLater(c.a), w);
    SlaveMoves(c, w1, w, SlaveAt(c, 1, 1, 0, true), y, {}, {}, asks, c.a, SlaveAt(c, 1, 1, 0, false), asks);
  }

  lemma PollFirst(c: Cast, t: Trace, w: World, x: Node, y: Node, M: set<NodeId>, none: set<NodeId>)
      returns (u: Trace, r: World)
    requires CastOk(c) && M <= c.voters && none == {} && EndsIn(c.voters, t, w)
    requires x == SlaveAt(c, 1, 1, 0, false) && Scene(c, w, x, y, none, none, FirstAsk(c))
    ensures EndsIn(c.voters, u, r) && Polled(w, r, M, c.a, 1)
    ensures Scene(c, r, x.(authCount := |M|), y, M, none, FirstAsk(c))
  {
    u, r := PollScene(c, t, w, x, y, none, none, FirstAsk(c), M, c.a, 1);
    assert none + M == M;
  }

  /** Then the votes of M for it arrive and are counted. */
  lemma LateVotes(c: Cast, M: set<NodeId>) returns (t: Trace, w: World)
    requires CastOk(c) && M <= c.voters
    ensures EndsIn(c.voters, t, w)
    ensures Scene(c, w, SlaveAt(c, 1, 1, |M|, false), SlaveAt(c, 0, 0, 0, false), M, {}, FirstAsk(c))
    ensures Score(c, w, {}, |M|, {}, {})
  {
    var t0, w0 := GivenUp(c);
    t, w := PollFirst(c, t0, w0, SlaveAt(c, 1, 1, 0, false), SlaveAt(c, 0, 0, 0, false), M, {});
    PollScore(c, w0, w, M, c.a, 1, {}, 0, {}, {});
  }

  function BothAsks(c: Cast): set<Ask> { {AskOf(c.a, 1, Everyone(c)), AskOf(c.a, 2, Everyone(c))} }

  /** The second attempt starts with them on its count. */
  lemma AskAgain(c: Cast, M: set<NodeId>) returns (t: Trace, w: World)
    requires CastOk(c) && M <= c.voters
    ensures EndsIn(c.voters, t, w)
    ensures Scene(c, w, SlaveAt(c, 2, 2, |M|, true), SlaveAt(c, 0, 0, 0, false), M, {}, BothAsks(c))
    ensures Score(c, w, {}, |M|, {}, {})
  {
    var x, y, ask := SlaveAt(c, 1, 1, |M|, false), SlaveAt(c, 0, 0, 0, false), FirstAsk(c);
    var t0, w0 := LateVotes(c, M);
    AskGoes(c, w0, c.a);
    assert ask + {AskOf(c.a, 2, Everyone(c))} == BothAsks(c);
    w := w0.(nodes := w0.nodes[c.a := StartElection(x)], requests := BothAsks(c));
    t := Extend(c.voters, t0, w0, AskForVotes(c.a, c.a), w);
    SlaveMoves(c, w0, w, x, y, M, {}, ask, c.a, SlaveAt(c, 2, 2, |M|, true), BothAsks(c));
  }

  /** It collects the votes of F on top of them. */
  lemma SecondAttempt(c: Cast, M: set<NodeId>, F: set<NodeId>) returns (t: Trace, w: World)
    requires CastOk(c) && M <= c.voters && F <= c.voters
    ensures EndsIn(c.voters, t, w)
    ensures Scene(c, w, SlaveAt(c, 2, 2, |M| + |F|, true), SlaveAt(c, 0, 0, 0, false), M, F, BothAsks(c))
    ensures Score(c, w, F, |M|, {}, {})
  {
    var x, y := SlaveAt(c, 2, 2, |M|, true), SlaveAt(c, 0, 0, 0, false);
    var t0, w0 := AskAgain(c, M);
    t, w := PollScene(c, t0, w0, x, y, M, {}, BothAsks(c), F, c.a, 2);
    PollScore(c, w0, w, F, c.a, 2, {}, |M|, {}, {});
    assert {} + F == F;
  }

  /** It wins. */
  lemma FirstWinner(c: Cast, M: set<NodeId>, F: set<NodeId>) returns (t: Trace, w: World, x: Node)
    requires CastOk(c) && M <= c.voters && F <= c.voters && |M| + |F| >= Quorum(c.voters)
    ensures EndsIn(c.voters, t, w) && Scene(c, w, x, SlaveAt(c, 0, 0, 0, false), M, F, BothAsks(c))
    ensures Score(c, w, F, |M|, {}, {Win(c.a, 2, F, |M|)})
  {
    var x0, y, win := SlaveAt(c, 2, 2, |M| + |F|, true), SlaveAt(c, 0, 0, 0, false), Win(c.a, 2, F, |M|);
    var t0, w0 := SecondAttempt(c, M, F);
    WinGoes(c, w0, c.a);
    assert {} + {win} == {win};
    x := WinElection(x0, c.a);
    w := w0.(nodes := w0.nodes[c.a := x], wins := {win});
    t := Extend(c.voters, t0, w0, TakeOver(c.a), w);
    SlaveMoves(c, w0, w, x0, y, M, F, BothAsks(c), c.a, x, BothAsks(c));
  }

  /** b hears of epoch 1 from the first request. */
  lemma Overhear(c: Cast, t: Trace, w: World, x: Node, M: set<NodeId>, F: set<NodeId>) returns (u: Trace, r: World)
    requires CastOk(c) && EndsIn(c.voters, t, w) && Scene(c, w, x, SlaveAt(c, 0, 0, 0, false), M, F, BothAsks(c))
    ensures EndsIn(c.voters, u, r) && Scene(c, r, x, SlaveAt(c, 1, 0, 0, false), M, F, BothAsks(c))
    ensures r.counted == w.counted && r.stale == w.stale && r.wins == w.wins
  {
    var y := SlaveAt(c, 1, 0, 0, false);
    OverhearGoes(c, w);
    r := w.(nodes := w.nodes[c.b := y]);
    u := Extend(c.voters, t, w, ReceiveRequest(c.b, AskOf(c.a, 1, Everyone(c)), WILLING), r);
    SlaveMoves(c, w, r, x, SlaveAt(c, 0, 0, 0, false), M, F, BothAsks(c), c.b, y, BothAsks(c));
  }

  /** Then b asks for votes in epoch 2 as well. */
  lemma BothAsk(c: Cast, t: Trace, w: World, x: Node, M: set<NodeId>, F: set<NodeId>, two: set<Ask>)
      returns (u: Trace, r: World, asks: set<Ask>)
    requires CastOk(c) && EndsIn(c.voters, t, w) && Scene(c, w, x, SlaveAt(c, 1, 0, 0, false), M, F, two)
    ensures EndsIn(c.voters, u, r) && AskOf(c.b, 2, Everyone(c)) in asks
    ensures Scene(c, r, x, SlaveAt(c, 2, 2, 0, true), M, F, asks)
    ensures r.counted == w.counted && r.stale == w.stale && r.wins == w.wins
  {
    AskGoes(c, w, c.b);
    asks := two + {AskOf(c.b, 2, Everyone(c))};
    r := w.(nodes := w.nodes[c.b := StartElection(w.nodes[c.b])], requests := asks);
    u := Extend(c.voters, t, w, AskForVotes(c.b, c.b), r);
    SlaveMoves(c, w, r, x, SlaveAt(c, 1, 0, 0, false), M, F, two, c.b, SlaveAt(c, 2, 2, 0, true), asks);
  }

  /** The voters that have not voted in epoch 2 make b another winner. */
  lemma SecondWinner(c: Cast, t: Trace, w: World, x: Node, asks: set<Ask>, M: set<NodeId>, F: set<NodeId>,
                     G: set<NodeId>, late: nat, wins: set<Win>) returns (u: Trace, r: World)
    requires CastOk(c) && EndsIn(c.voters, t, w) && AskOf(c.b, 2, Everyone(c)) in asks
    requires Scene(c, w, x, SlaveAt(c, 2, 2, 0, true), M, F, asks) && Score(c, w, F, late, {}, wins)
    requires G == c.voters - F && |G| >= Quorum(c.voters)
    ensures EndsIn(c.voters, u, r) && r.wins == wins + {Win(c.b, 2, G, 0)}
  {
    var t1, w1 := PollScene(c, t, w, x, SlaveAt(c, 2, 2, 0, true), M, F, asks, G, c.b, 2);
    PollScore(c, w, w1, G, c.b, 2, F, late, {}, wins);
    assert {} + G == G;
    WinGoes(c, w1, c.b);
    r := w1.(nodes := w1.nodes[c.b := WinElection(w1.nodes[c.b], c.b)], wins := w1.wins + {Win(c.b, 2, G, 0)});
    u := Extend(c.voters, t1, w1, TakeOver(c.b), r);
  }

  lemma TwoWinners(c: Cast, M: set<NodeId>, F: set<NodeId>, G: set<NodeId>) returns (t: Trace)
    requires CastOk(c) && M <= c.voters && F <= c.voters && G == c.voters - F
    requires |M| + |F| >= Quorum(c.voters) && |G| >= Quorum(c.voters)
    ensures IsTrace(c.voters, t) && t.worlds[|t.steps|].wins == {Win(c.a, 2, F, |M|), Win(c.b, 2, G, 0)}
  {
    var t0, w0, x := FirstWinner(c, M, F);
    var t1, w1 := Overhear(c, t0, w0, x, M, F);
    var t2, w2, asks := BothAsk(c, t1, w1, x, M, F, BothAsks(c));
    var u, r := SecondWinner(c, t2, w2, x, asks, M, F, G, |M|, {Win(c.a, 2, F, |M|)});
    t := u;
  }

  // -------- Choosing the voters --------

  lemma {:induction false} Pick(s: set<NodeId>, k: nat) returns (t: set<NodeId>)
    requires k <= |s|
    ensures t <= s && |t| == k
    decreases |s|
  {
    if k == |s| {
      t := s;
    } else {
      var v :| v in s;
      t := Pick(s - {v}, k);
    }
  }

  lemma SizeLeft(s: set<NodeId>, t: set<NodeId>)
    requires t <= s
    ensures |s - t| == |s| - |t|
  {
    assert (s - t) + t == s;
  }

  /** The margin of two quorums over the electorate. */
  function Margin(voters: set<NodeId>): nat { 2 * Quorum(voters) - |voters| }

  /** For every electorate the condition of election safety is tight: a run with two
      winners of one epoch whose late acknowledgements sum to the margin. */
  lemma StaleAcksBreakSafety(voters: set<NodeId>, a: NodeId, b: NodeId)
      returns (steps: seq<Step>, w: World, x: Win, y: Win)
    requires voters != {} && a !in voters && b !in voters && a != b
    ensures IsRun(voters, steps, w) && x in w.wins && y in w.wins
    ensures x.epoch == y.epoch && x.slave != y.slave && x.stale + y.stale == 2 * Quorum(voters) - |voters|
  {
    var c := Cast(voters, a, b);
    var margin, q := Margin(voters), Quorum(voters);
    NonEmpty(voters);
    var M := Pick(voters, margin);
    var F := Pick(voters, q - margin);
    SizeLeft(voters, F);
    var t := TwoWinners(c, M, F, voters - F);
    TraceIsRun(voters, t, |t.steps|, t.steps);
    steps, w := t.steps, t.worlds[|t.steps|];
    x, y := Win(a, 2, F, margin), Win(b, 2, voters - F, 0);
  }

  lemma NonEmpty(s: set<NodeId>)
    requires s != {}
    ensures |s| >= 1
  {}
}
