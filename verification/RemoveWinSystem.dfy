/** Replicas that prepare operations locally and receive each other's in any
    order: convergence, and what the vector clock stands for. */
module RemoveWinSystem {
  import opened VectorClock
  import opened RemoveWin
  import opened Options

  /** The j-th remove issued by a replica. */
  datatype RemoveId = RemoveId(replica: nat, index: nat)

  /** `elems[q]` is the element at replica q and `delivered[q]` the operations it
      has applied, as indices into `sent`.  `seen` and `carried` are history: the
      removes whose news has reached a replica, and those an operation brings. */
  datatype System = System(
    elems: seq<Element>,
    delivered: seq<seq<nat>>,
    sent: seq<Op>,
    issued: seq<nat>,
    seen: seq<set<RemoveId>>,
    carried: seq<set<RemoveId>>)

  datatype Step =
    | DoAdd(p: nat, value: real)
    | DoIncrBy(p: nat, value: real)
    | DoRem(p: nat)
    | Deliver(p: nat, k: nat)

  function Start(n: nat): System {
    System(seq(n, i => Init(n)), seq(n, i => []), [], seq(n, i => 0), seq(n, i => {}), [])
  }

  predicate Shaped(s: System) {
    var n := |s.elems|;
    && |s.delivered| == |s.issued| == |s.seen| == n
    && |s.carried| == |s.sent|
    && (forall q :: 0 <= q < n ==> |s.elems[q].current| == n)
    && (forall k :: 0 <= k < |s.sent| ==> Fits(s.sent[k], n) && s.sent[k].t.id < n)
    && (forall q, i :: 0 <= q < n && 0 <= i < |s.delivered[q]| ==> s.delivered[q][i] < |s.sent|)
  }

  /** The guards of the prepare phases, and delivery at most once. */
  predicate Enabled(s: System, step: Step) {
    && step.p < |s.elems|
    && match step
       case DoAdd(p, _) => !Exists(s.elems[p])
       case DoIncrBy(p, _) => Exists(s.elems[p])
       case DoRem(p) => Exists(s.elems[p])
       case Deliver(p, k) => p < |s.delivered| && k < |s.sent| && k !in s.delivered[p]
  }

  /** The operation a prepare phase broadcasts: its stamp is the local clock
      (`ADD_CR_NON_RMV`), or the local clock with its own component advanced
      (`ADD_CR_RMV`). */
  function Prepared(s: System, step: Step): Op
    requires Shaped(s) && Enabled(s, step) && !step.Deliver?
  {
    var p, c := step.p, s.elems[step.p].current;
    match step
    case DoAdd(_, v) => Add(Stamp(c, p), v)
    case DoIncrBy(_, v) => IncrBy(Stamp(c, p), v)
    case DoRem(_) => Rem(Stamp(c[p := c[p] + 1], p))
  }

  function Send(s: System, op: Op, news: set<RemoveId>): System {
    s.(sent := s.sent + [op], carried := s.carried + [news])
  }

  function Receive(s: System, p: nat, k: nat): (r: System)
    requires Shaped(s) && p < |s.elems| && k < |s.sent|
  {
    s.(elems := s.elems[p := Apply(s.elems[p], s.sent[k])],
       delivered := s.delivered[p := s.delivered[p] + [k]],
       seen := s.seen[p := s.seen[p] + s.carried[k]])
  }

  function Issue(s: System, step: Step): (r: System)
    requires Shaped(s) && Enabled(s, step) && !step.Deliver?
    ensures Shaped(r)
  {
    var p := step.p;
    var news := if step.DoRem? then s.seen[p] + {RemoveId(p, s.issued[p])} else s.seen[p];
    var t := Send(s, Prepared(s, step), news);
    if step.DoRem? then t.(issued := s.issued[p := s.issued[p] + 1]) else t
  }

  /** A prepare phase broadcasts and then runs the effect locally. */
  function Next(s: System, step: Step): System
    requires Shaped(s) && Enabled(s, step)
  {
    if step.Deliver? then Receive(s, step.p, step.k)
    else Receive(Issue(s, step), step.p, |s.sent|)
  }

  // -------- The invariant --------

  function OpsOf(sent: seq<Op>, ks: seq<nat>): (ops: seq<Op>)
    requires forall i :: 0 <= i < |ks| ==> ks[i] < |sent|
    ensures |ops| == |ks|
  {
    seq(|ks|, i requires 0 <= i < |ks| => sent[ks[i]])
  }

  /** The removes a clock stands for: the first c[p] removes of every replica p. */
  ghost predicate Covers(c: Clock, known: set<RemoveId>) {
    forall r: RemoveId :: r in known <==> r.replica < |c| && r.index < c[r.replica]
  }

  ghost predicate ElementsRun(s: System)
    requires Shaped(s)
  {
    forall q :: 0 <= q < |s.elems| ==>
      var ops := OpsOf(s.sent, s.delivered[q]);
      AllFit(ops, |s.elems|) && s.elems[q] == Run(Init(|s.elems|), ops)
  }

  ghost predicate ClocksCover(s: System)
    requires Shaped(s)
  {
    && (forall q :: 0 <= q < |s.elems| ==> Covers(s.elems[q].current, s.seen[q]))
    && (forall k :: 0 <= k < |s.sent| ==> Covers(s.sent[k].t.vector, s.carried[k]))
  }

  predicate Below(c: Clock, issued: seq<nat>) {
    |c| == |issued| && forall p :: 0 <= p < |c| ==> 0 <= c[p] <= issued[p]
  }

  /** No clock runs ahead of the removes issued, and a replica knows its own. */
  ghost predicate ClocksBounded(s: System)
    requires Shaped(s)
  {
    && (forall q :: 0 <= q < |s.elems| ==> s.elems[q].current[q] == s.issued[q])
    && (forall q :: 0 <= q < |s.elems| ==> Below(s.elems[q].current, s.issued))
    && (forall k :: 0 <= k < |s.sent| ==> Below(s.sent[k].t.vector, s.issued))
  }

  /** A replica that inserted under its present clock still has the element. */
  ghost predicate InsertsKept(s: System)
    requires Shaped(s)
  {
    && (forall k :: 0 <= k < |s.sent| && s.sent[k].Add? ==>
         var e := s.elems[s.sent[k].t.id];
         Leq(s.sent[k].t.vector, e.current) && (s.sent[k].t.vector == e.current ==> Exists(e)))
    && (forall j, k :: 0 <= j < k < |s.sent| && s.sent[j].Add? && s.sent[k].Add? ==> s.sent[j].t != s.sent[k].t)
  }

  ghost predicate Inv(s: System) {
    Shaped(s) && ElementsRun(s) && ClocksCover(s) && ClocksBounded(s) && InsertsKept(s)
  }

  lemma StartInv(n: nat)
    ensures Inv(Start(n))
  {
    var s := Start(n);
    forall q | 0 <= q < n ensures OpsOf(s.sent, s.delivered[q]) == [] {}
  }

  lemma CoversJoin(a: Clock, x: set<RemoveId>, b: Clock, y: set<RemoveId>)
    requires |a| == |b| && Covers(a, x) && Covers(b, y)
    ensures Covers(Join(a, b), x + y)
  {}

  lemma CoversNext(c: Clock, x: set<RemoveId>, p: nat)
    requires p < |c| && c[p] >= 0 && Covers(c, x)
    ensures Covers(c[p := c[p] + 1], x + {RemoveId(p, c[p])})
  {}

  /** A clock is exactly the set of removes it stands for. */
  lemma CoversInjective(a: Clock, b: Clock, x: set<RemoveId>)
    requires |a| == |b| && Covers(a, x) && Covers(b, x)
    requires forall i :: 0 <= i < |a| ==> a[i] >= 0 && b[i] >= 0
    ensures a == b
  {
    forall i | 0 <= i < |a| ensures a[i] == b[i] {
      assert RemoveId(i, a[i]) !in x && RemoveId(i, b[i]) !in x;
    }
  }

  lemma NextShaped(s: System, step: Step)
    requires Shaped(s) && Enabled(s, step)
    ensures Shaped(Next(s, step))
  {}

  lemma NextElementsRun(s: System, step: Step)
    requires Shaped(s) && ElementsRun(s) && Enabled(s, step)
    ensures Shaped(Next(s, step)) && ElementsRun(Next(s, step))
  {
    var r, p, n := Next(s, step), step.p, |s.elems|;
    NextShaped(s, step);
    forall q | 0 <= q < n
      ensures var ops := OpsOf(r.sent, r.delivered[q]);
              AllFit(ops, n) && r.elems[q] == Run(Init(n), ops)
    {
      var was := OpsOf(s.sent, s.delivered[q]);
      assert OpsOf(r.sent, s.delivered[q]) == was;
      if q == p {
        var k := if step.Deliver? then step.k else |s.sent|;
        assert OpsOf(r.sent, r.delivered[p]) == was + [r.sent[k]];
        RunSnoc(Init(n), was, r.sent[k]);
      }
    }
  }

  lemma IssueClocksCover(s: System, step: Step)
    requires Shaped(s) && ClocksCover(s) && ClocksBounded(s) && Enabled(s, step) && !step.Deliver?
    ensures ClocksCover(Issue(s, step))
  {
    var r, p, n := Issue(s, step), step.p, |s.sent|;
    if step.DoRem? { CoversNext(s.elems[p].current, s.seen[p], p); }
    assert Covers(r.sent[n].t.vector, r.carried[n]);
    forall j | 0 <= j < |r.sent| ensures Covers(r.sent[j].t.vector, r.carried[j]) {}
  }

  lemma ReceiveClocksCover(s: System, p: nat, k: nat)
    requires Shaped(s) && ClocksCover(s) && p < |s.elems| && k < |s.sent| && Shaped(Receive(s, p, k))
    ensures ClocksCover(Receive(s, p, k))
  {
    CoversJoin(s.elems[p].current, s.seen[p], s.sent[k].t.vector, s.carried[k]);
  }

  lemma NextClocksCover(s: System, step: Step)
    requires Shaped(s) && ClocksCover(s) && ClocksBounded(s) && Enabled(s, step)
    ensures Shaped(Next(s, step)) && ClocksCover(Next(s, step))
  {
    NextShaped(s, step);
    if step.Deliver? {
      ReceiveClocksCover(s, step.p, step.k);
    } else {
      IssueClocksCover(s, step);
      ReceiveClocksCover(Issue(s, step), step.p, |s.sent|);
    }
  }

  lemma BelowJoin(a: Clock, b: Clock, issued: seq<nat>)
    requires Below(a, issued) && Below(b, issued)
    ensures Below(Join(a, b), issued)
  {}

  lemma BelowMore(c: Clock, issued: seq<nat>, p: nat)
    requires Below(c, issued) && p < |c|
    ensures Below(c, issued[p := issued[p] + 1])
  {}

  lemma PreparedBelow(s: System, step: Step)
    requires Shaped(s) && ClocksBounded(s) && Enabled(s, step) && !step.Deliver?
    ensures Below(Prepared(s, step).t.vector, Issue(s, step).issued)
  {}

  lemma NextClocksBounded(s: System, step: Step)
    requires Shaped(s) && ClocksBounded(s) && Enabled(s, step)
    ensures Shaped(Next(s, step)) && ClocksBounded(Next(s, step))
  {
    NextShaped(s, step);
    var p := step.p;
    if step.Deliver? {
      ReceiveBounded(s, p, step.k);
    } else {
      var m := Issue(s, step);
      PreparedBelow(s, step);
      forall q | 0 <= q < |s.elems| ensures Below(s.elems[q].current, m.issued) {
        if step.DoRem? { BelowMore(s.elems[q].current, s.issued, p); }
      }
      forall k | 0 <= k < |m.sent| ensures Below(m.sent[k].t.vector, m.issued) {
        if step.DoRem? && k < |s.sent| { BelowMore(s.sent[k].t.vector, s.issued, p); }
      }
      ReceiveBounded(m, p, |s.sent|);
    }
  }

  lemma ReceiveBounded(s: System, p: nat, k: nat)
    requires Shaped(s) && p < |s.elems| && k < |s.sent| && Shaped(Receive(s, p, k))
    requires forall q :: 0 <= q < |s.elems| ==> Below(s.elems[q].current, s.issued)
    requires forall j :: 0 <= j < |s.sent| ==> Below(s.sent[j].t.vector, s.issued)
    requires forall q :: 0 <= q < |s.elems| && q != p ==> s.elems[q].current[q] == s.issued[q]
    requires s.elems[p].current[p] == s.issued[p] || s.sent[k].t.vector[p] == s.issued[p]
    ensures ClocksBounded(Receive(s, p, k))
  {
    BelowJoin(s.elems[p].current, s.sent[k].t.vector, s.issued);
    var c := Join(s.elems[p].current, s.sent[k].t.vector);
    assert c[p] == s.issued[p] by { assert Below(c, s.issued); }
    assert Receive(s, p, k).elems[p].current == c;
  }

  /** Applying an operation that leaves the clock alone never drops the element. */
  lemma ApplyKeepsExisting(e: Element, op: Op)
    requires Fits(op, |e.current|)
    ensures Leq(e.current, Apply(e, op).current)
    ensures Apply(e, op).current == e.current && Exists(e) ==> Exists(Apply(e, op))
  {
    ApplyIsLiftThenAct(e, op);
  }

  lemma NextInsertsKept(s: System, step: Step)
    requires Shaped(s) && InsertsKept(s) && Enabled(s, step)
    ensures Shaped(Next(s, step)) && InsertsKept(Next(s, step))
  {
    NextShaped(s, step);
    var r, p := Next(s, step), step.p;
    var k := if step.Deliver? then step.k else |s.sent|;
    ApplyKeepsExisting(s.elems[p], r.sent[k]);
    forall j | 0 <= j < |r.sent| && r.sent[j].Add?
      ensures var e := r.elems[r.sent[j].t.id];
              Leq(r.sent[j].t.vector, e.current) && (r.sent[j].t.vector == e.current ==> Exists(e))
    {
      if j < |s.sent| {
        var old_, new_ := s.elems[s.sent[j].t.id], r.elems[s.sent[j].t.id];
        LeqTransitive(s.sent[j].t.vector, old_.current, new_.current);
        if s.sent[j].t.vector == new_.current { LeqAntisymmetric(old_.current, new_.current); }
      } else {
        ApplyIsLiftThenAct(s.elems[p], r.sent[k]);
        JoinAbsorbs(s.elems[p].current, r.sent[k].t.vector);
      }
    }
  }

  lemma NextInv(s: System, step: Step)
    requires Inv(s) && Enabled(s, step)
    ensures Inv(Next(s, step))
  {
    NextElementsRun(s, step);
    NextClocksCover(s, step);
    NextClocksBounded(s, step);
    NextInsertsKept(s, step);
  }

  // -------- Runs --------

  ghost predicate IsRun(n: nat, steps: seq<Step>, s: System)
    decreases |steps|
  {
    if steps == [] then s == Start(n)
    else exists m: System ::
      && IsRun(n, steps[..|steps| - 1], m) && Shaped(m) && Enabled(m, steps[|steps| - 1])
      && s == Next(m, steps[|steps| - 1])
  }

  lemma {:induction false} RunsKeepInv(n: nat, steps: seq<Step>, s: System)
    requires IsRun(n, steps, s)
    ensures Inv(s) && |s.elems| == n
    decreases |steps|
  {
    if steps == [] {
      StartInv(n);
    } else {
      var last := steps[|steps| - 1];
      var m :| IsRun(n, steps[..|steps| - 1], m) && Shaped(m) && Enabled(m, last) && s == Next(m, last);
      RunsKeepInv(n, steps[..|steps| - 1], m);
      NextInv(m, last);
    }
  }

  lemma DeliveredCompatible(s: System, q: nat)
    requires Shaped(s) && InsertsKept(s) && q < |s.elems|
    ensures AllCompatible(OpsOf(s.sent, s.delivered[q]))
  {
    var ops := OpsOf(s.sent, s.delivered[q]);
    forall x, y | x in ops && y in ops ensures Compatible(x, y) {
      var i :| 0 <= i < |ops| && ops[i] == x;
      var j :| 0 <= j < |ops| && ops[j] == y;
      var k, l := s.delivered[q][i], s.delivered[q][j];
      assert s.sent[k] == x && s.sent[l] == y;
    }
  }

  /** Strong eventual consistency in every run: replicas that have received the
      same operations, in whatever order, hold the same element. */
  lemma ReplicasConverge(n: nat, steps: seq<Step>, s: System, q: nat, q': nat)
    requires IsRun(n, steps, s) && q < n && q' < n
    requires Shaped(s) && |s.elems| == n
    requires multiset(OpsOf(s.sent, s.delivered[q])) == multiset(OpsOf(s.sent, s.delivered[q']))
    ensures s.elems[q] == s.elems[q']
  {
    RunsKeepInv(n, steps, s);
    DeliveredCompatible(s, q);
    OrderIrrelevant(Init(n), OpsOf(s.sent, s.delivered[q]), OpsOf(s.sent, s.delivered[q']));
  }

  lemma ExistingIsCovered(s: System, q: nat) returns (k: nat)
    requires Inv(s) && q < |s.elems| && Exists(s.elems[q])
    ensures k in s.delivered[q] && k < |s.sent| && s.sent[k].Add? && s.seen[q] <= s.carried[k]
  {
    var ks := s.delivered[q];
    var ops := OpsOf(s.sent, ks);
    ExistsIff(|s.elems|, ops);
    var op :| op in ops && op.Add? && op.t.vector == s.elems[q].current;
    var i :| 0 <= i < |ops| && ops[i] == op;
    k := ks[i];
    assert Covers(s.sent[k].t.vector, s.carried[k]) && Covers(s.elems[q].current, s.seen[q]);
  }

  lemma DeliveredIsBelow(s: System, q: nat, i: nat)
    requires Inv(s) && q < |s.elems| && i < |s.delivered[q]|
    ensures Leq(s.sent[s.delivered[q][i]].t.vector, s.elems[q].current)
  {
    var ops := OpsOf(s.sent, s.delivered[q]);
    assert ops[i] in ops;
    JoinAllIsLeastUpperBound(|s.elems|, ops, JoinAll(|s.elems|, ops));
    RunDescribed(|s.elems|, ops);
  }

  lemma CoveredExists(s: System, q: nat, i: nat)
    requires Inv(s) && q < |s.elems| && i < |s.delivered[q]|
    requires var k := s.delivered[q][i]; s.sent[k].Add? && s.seen[q] <= s.carried[k]
    ensures Exists(s.elems[q])
  {
    var ks, k := s.delivered[q], s.delivered[q][i];
    var ops, c := OpsOf(s.sent, ks), s.elems[q].current;
    DeliveredIsBelow(s, q, i);
    assert Covers(s.sent[k].t.vector, s.carried[k]) && Covers(c, s.seen[q]);
    assert s.carried[k] == s.seen[q];
    assert Below(c, s.issued) && Below(s.sent[k].t.vector, s.issued);
    CoversInjective(c, s.sent[k].t.vector, s.seen[q]);
    assert ops[i] in ops && ops[i].Add? && ops[i].t.vector == c;
    ExistsIff(|s.elems|, ops);
  }

  /** Remove wins, in every run: the element exists at a replica iff some
      insertion received there had seen every remove the replica knows of. */
  lemma RemoveWins(n: nat, steps: seq<Step>, s: System, q: nat)
    requires IsRun(n, steps, s) && q < n
    ensures Shaped(s) && |s.elems| == n
    ensures Exists(s.elems[q]) <==>
            exists k :: k in s.delivered[q] && s.sent[k].Add? && s.seen[q] <= s.carried[k]
  {
    RunsKeepInv(n, steps, s);
    if Exists(s.elems[q]) {
      var k := ExistingIsCovered(s, q);
    }
    if k :| k in s.delivered[q] && s.sent[k].Add? && s.seen[q] <= s.carried[k] {
      var i :| 0 <= i < |s.delivered[q]| && s.delivered[q][i] == k;
      CoveredExists(s, q, i);
    }
  }

  // -------- An increment that overtakes its insertion --------

  lemma RunGoesOn(n: nat, steps: seq<Step>, more: seq<Step>, m: System, step: Step, r: System)
    requires IsRun(n, steps, m) && Shaped(m) && Enabled(m, step) && r == Next(m, step)
    requires more == steps + [step]
    ensures IsRun(n, more, r)
  {
    assert more[..|more| - 1] == steps && more[|more| - 1] == step;
  }

  lemma InsertFirst(n: nat, p: nat, v: real) returns (s: System)
    requires p < n
    ensures IsRun(n, [DoAdd(p, v)], s) && Shaped(s) && |s.sent| == 1 && |s.elems| == n
    ensures s.elems == Start(n).elems[p := Element(p, Zero(n), v, 0.0, Some(v))]
    ensures forall q :: 0 <= q < n && q != p ==> s.delivered[q] == []
  {
    s := Next(Start(n), DoAdd(p, v));
    RunGoesOn(n, [], [DoAdd(p, v)], Start(n), DoAdd(p, v), s);
    FirstInsertion(n, p, v);
    NextShaped(Start(n), DoAdd(p, v));
  }

  lemma ThenIncrement(n: nat, p: nat, v: real, w: real) returns (s: System)
    requires p < n
    ensures IsRun(n, [DoAdd(p, v), DoIncrBy(p, w)], s) && Shaped(s) && |s.elems| == n
    ensures |s.sent| == 2 && s.sent[1] == IncrBy(Stamp(Zero(n), p), w)
    ensures forall q :: 0 <= q < n && q != p ==> s.elems[q] == Init(n) && s.delivered[q] == []
  {
    var step := DoIncrBy(p, w);
    var m := InsertFirst(n, p, v);
    s := Next(m, step);
    RunGoesOn(n, [DoAdd(p, v)], [DoAdd(p, v), step], m, step, s);
    NextShaped(m, step);
  }

  lemma Overtakes(m: System, p: nat, q: nat, w: real)
    requires Shaped(m) && q < |m.elems| && |m.sent| == 2 && m.sent[1] == IncrBy(Stamp(Zero(|m.elems|), p), w)
    requires m.elems[q] == Init(|m.elems|) && m.delivered[q] == []
    ensures Enabled(m, Deliver(q, 1)) && |Next(m, Deliver(q, 1)).elems| == |m.elems|
    ensures Next(m, Deliver(q, 1)).elems[q] == Element(-1, Zero(|m.elems|), 0.0, w, Some(w))
  {
    LoneIncrement(|m.elems|, p, w);
  }

  /** Without causal delivery visible and existing differ: in a run of any number of
      replicas, an increment that overtakes its insertion shows its own value at a
      replica where the element does not exist. */
  lemma VisibleWithoutInsertion(n: nat, p: nat, q: nat, v: real, w: real) returns (s: System)
    requires p < n && q < n && p != q
    ensures IsRun(n, [DoAdd(p, v), DoIncrBy(p, w), Deliver(q, 1)], s) && |s.elems| == n
    ensures s.elems[q].score == Some(w) && !Exists(s.elems[q])
  {
    var step := Deliver(q, 1);
    var m := ThenIncrement(n, p, v, w);
    Overtakes(m, p, q, w);
    s := Next(m, step);
    RunGoesOn(n, [DoAdd(p, v), DoIncrBy(p, w)], [DoAdd(p, v), DoIncrBy(p, w), step], m, step, s);
  }
}
