/** Which orders of delivery kill a server: a move that takes place adds the `uid` of
    its node to a set of children, and before any insertion of the node that is null. */
module RwTreeDeaths {
  import opened VectorClock
  import opened Options
  import opened RwTree
  import opened RwTreeRivals
  import opened RwTreeShape
  import opened RwTreeContent

  // -------- Which nodes are known --------

  /** The replica knew the node from the start or has been told of an insertion. */
  predicate Introduced(t: Tree, ops: seq<Op>, id: Id)
    requires Shaped(t)
  {
    At(t, id).known || exists op :: op in ops && op.Insert? && op.id == id
  }

  lemma InsertKnown(t: Tree, op: Op, id: Id)
    requires Shaped(t) && op.Insert? && Fits(op, t.n)
    ensures At(EffectInsert(t, op), id).known <==> At(t, id).known || id == op.id
  {}

  lemma MoveKnown(t: Tree, op: Op, id: Id)
    requires Shaped(t) && op.Move? && Fits(op, t.n) && !Fatal(t, op)
    ensures At(EffectMove(t, op), id).known == At(t, id).known
  {}

  lemma EffectKnown(t: Tree, op: Op, id: Id)
    requires Shaped(t) && Fits(op, t.n) && !Fatal(t, op)
    ensures At(Effect(t, op), id).known <==> At(t, id).known || (op.Insert? && id == op.id)
  {
    match op
    case Insert(_, _, _, _, _) => InsertKnown(t, op, id);
    case Move(_, _, _, _, _) => MoveKnown(t, op, id);
    case Delete(_, _) =>
    case Rename(_, _, _, _) =>
  }

  lemma {:induction false} KnownIff(t: Tree, ops: seq<Op>, id: Id)
    requires Shaped(t) && OpsFit(ops, t.n)
    ensures Run(t, ops).Some? ==> (At(Run(t, ops).value, id).known <==> Introduced(t, ops, id))
  {
    if ops != [] && Run(t, ops).Some? {
      var p, x := ops[..|ops| - 1], ops[|ops| - 1];
      assert ops == p + [x];
      KnownIff(t, p, id);
      EffectKnown(Run(t, p).value, x, id);
    }
  }

  // -------- When a delivery kills --------

  /** A move that takes place on a node not introduced. */
  predicate Deadly(u: Tree, op: Op, introduced: bool)
    requires Shaped(u) && Fits(op, u.n)
  {
    op.Move? && !introduced && Takes(At(Cleared(u, op), op.id), op)
  }

  lemma DeadlyIff(u: Tree, op: Op, introduced: bool)
    requires Shaped(u) && Fits(op, u.n) && (op.Move? ==> (At(u, op.id).known <==> introduced))
    ensures Step(u, op) == None <==> Deadly(u, op, introduced)
  {}

  /** The deliveries p are survived, and op after them is such a move. */
  predicate Kills(t: Tree, p: seq<Op>, op: Op)
    requires Shaped(t) && OpsFit(p, t.n) && Fits(op, t.n)
  {
    Run(t, p).Some? && Deadly(Run(t, p).value, op, Introduced(t, p, op.id))
  }

  lemma NextDiesIff(t: Tree, p: seq<Op>, op: Op, more: seq<Op>)
    requires Shaped(t) && OpsFit(p, t.n) && Fits(op, t.n) && more == p + [op]
    ensures OpsFit(more, t.n) && (Run(t, more) == None <==> Run(t, p) == None || Kills(t, p, op))
  {
    RunSnoc(t, p, op, more);
    if Run(t, p).Some? {
      KnownIff(t, p, op.id);
      DeadlyIff(Run(t, p).value, op, Introduced(t, p, op.id));
    }
  }

  predicate KillsAt(t: Tree, ops: seq<Op>, k: nat)
    requires Shaped(t) && OpsFit(ops, t.n) && k < |ops|
  {
    Kills(t, ops[..k], ops[k])
  }

  ghost predicate SomeKills(t: Tree, ops: seq<Op>)
    requires Shaped(t) && OpsFit(ops, t.n)
  {
    exists k: nat :: k < |ops| && KillsAt(t, ops, k)
  }

  lemma {:induction false} DeadStaysDead(t: Tree, ops: seq<Op>, k: nat)
    requires Shaped(t) && OpsFit(ops, t.n) && k <= |ops| && Run(t, ops[..k]) == None
    ensures Run(t, ops) == None
    decreases |ops|
  {
    if k == |ops| {
      assert ops[..k] == ops;
    } else {
      var p := ops[..|ops| - 1];
      assert p[..k] == ops[..k];
      DeadStaysDead(t, p, k);
    }
  }

  lemma KillerKills(t: Tree, ops: seq<Op>, k: nat)
    requires Shaped(t) && OpsFit(ops, t.n) && k < |ops| && KillsAt(t, ops, k)
    ensures Run(t, ops) == None
  {
    var p, op, more := ops[..k], ops[k], ops[..k + 1];
    NextDiesIff(t, p, op, more);
    DeadStaysDead(t, ops, k + 1);
  }

  lemma KillsLonger(t: Tree, p: seq<Op>, ops: seq<Op>)
    requires Shaped(t) && OpsFit(p, t.n) && OpsFit(ops, t.n) && |p| <= |ops| && p == ops[..|p|] && SomeKills(t, p)
    ensures SomeKills(t, ops)
  {
    var k: nat :| k < |p| && KillsAt(t, p, k);
    SamePrefix(p, ops, k);
    KillsAlike(t, p, ops, k, p[..k]);
  }

  lemma SamePrefix(p: seq<Op>, ops: seq<Op>, k: nat)
    requires k < |p| <= |ops| && p == ops[..|p|]
    ensures p[..k] == ops[..k] && p[k] == ops[k]
  {}

  lemma KillsAlike(t: Tree, p: seq<Op>, ops: seq<Op>, k: nat, q: seq<Op>)
    requires Shaped(t) && OpsFit(p, t.n) && OpsFit(ops, t.n) && k < |p| && k < |ops|
    requires q == p[..k] && q == ops[..k] && p[k] == ops[k] && KillsAt(t, p, k)
    ensures SomeKills(t, ops)
  {
    assert Kills(t, q, p[k]);
    assert KillsAt(t, ops, k);
  }

  lemma KillsLast(t: Tree, p: seq<Op>, op: Op, ops: seq<Op>)
    requires Shaped(t) && OpsFit(p, t.n) && Fits(op, t.n) && ops == p + [op] && OpsFit(ops, t.n) && Kills(t, p, op)
    ensures SomeKills(t, ops)
  {
    assert ops[..|p|] == p && ops[|p|] == op;
    assert KillsAt(t, ops, |p|);
  }

  lemma {:induction false} FirstDeath(t: Tree, ops: seq<Op>)
    requires Shaped(t) && OpsFit(ops, t.n) && Run(t, ops) == None
    ensures SomeKills(t, ops)
    decreases |ops|
  {
    var p, op := ops[..|ops| - 1], ops[|ops| - 1];
    NextDiesIff(t, p, op, ops);
    if Kills(t, p, op) {
      KillsLast(t, p, op, ops);
    } else {
      FirstDeath(t, p);
      KillsLonger(t, p, ops);
    }
  }

  /** A sequence of deliveries kills the server exactly when one of them is a move
      that takes place before any insertion of its node. */
  lemma RunDiesIff(t: Tree, ops: seq<Op>)
    requires Shaped(t) && OpsFit(ops, t.n)
    ensures Run(t, ops) == None <==> SomeKills(t, ops)
  {
    if SomeKills(t, ops) {
      var k: nat :| k < |ops| && KillsAt(t, ops, k);
      KillerKills(t, ops, k);
    }
    if Run(t, ops) == None { FirstDeath(t, ops); }
  }

  /** Every move comes after an insertion of its node. */
  predicate Introduces(t: Tree, ops: seq<Op>)
    requires Shaped(t)
  {
    forall k :: 0 <= k < |ops| && ops[k].Move? ==> Introduced(t, ops[..k], ops[k].id)
  }

  /** Orders that bring each insertion before the moves of its node survive. */
  lemma OrderlyRunsLive(t: Tree, ops: seq<Op>)
    requires Shaped(t) && OpsFit(ops, t.n) && Introduces(t, ops)
    ensures Run(t, ops).Some?
  {
    RunDiesIff(t, ops);
  }

  /** Replicas that follow such orders agree on headers. */
  lemma OrderlyRunsConverge(t: Tree, s: seq<Op>, s': seq<Op>, id: Id)
    requires Shaped(t) && OpsFit(s, t.n) && OpsFit(s', t.n) && multiset(s) == multiset(s')
    requires Introduces(t, s) && Introduces(t, s')
    ensures Run(t, s).Some? && Run(t, s').Some?
    ensures Header(At(Run(t, s).value, id)) == Header(At(Run(t, s').value, id))
  {
    OrderlyRunsLive(t, s);
    OrderlyRunsLive(t, s');
    HeadersConverge(t, t, s, s', id);
  }

  // -------- A move that comes too early --------

  /** The first thing a replica hears of a node is a move: it kills exactly when it
      is the first move its issuer made of the node and saw no other. */
  lemma FirstContact(t: Tree, op: Op)
    requires Shaped(t) && op.Move? && Fits(op, t.n) && op.id != op.to && At(t, op.id) == Blank(t.n)
    requires Leq(Zero(t.n), op.r.vector) && Leq(Zero(t.n), op.v.vector)
    ensures Fatal(t, op) <==> op.v.vector == Zero(t.n)[op.v.id := 1]
  {
    var zero := Zero(t.n);
    var t1 := RemoveNode(t, op.to, op.rto);
    assert Header(At(t1, op.id)) == Header(At(t, op.id));
    JoinAbsorbs(op.r.vector, zero);
    JoinCommutes(zero, op.r.vector, op.r.vector);
    var x := At(Cleared(t, op), op.id);
    assert x.current == op.r.vector && x.moves == zero && !x.known;
    ReadyFromZero(t.n, op.v);
  }

  lemma ReadyFromZero(n: nat, v: Stamp)
    requires StampFits(v, n) && Leq(Zero(n), v.vector)
    ensures !Concurrent(Zero(n), v.vector) && (Ready(Zero(n), v) <==> v.vector == Zero(n)[v.id := 1])
  {
    if Ready(Zero(n), v) { assert v.vector == Zero(n)[v.id := 1]; }
  }

  /** The effect of `CreateTree` at a replica. */
  function Start(n: nat, pid: nat): (t: Tree)
    ensures Shaped(t)
  {
    Tree(n, map[ROOT := Node(pid, Zero(n), Zero(n), Zero(n), true, Some("_root_"), Detached, {})])
  }

  /** One replica inserts a node below the root and another, having heard of it,
      moves it; every check of the prepare phases passes. A third replica that hears
      of the move first dies. */
  lemma DeathIsReachable(n: nat, pid: nat, x: Id)
    requires n >= 2 && x != ROOT
    ensures var t, zero := Start(n, pid), Zero(n);
            var ins := Insert(x, "x", ROOT, zero, Stamp(zero, 0));
            var mv := Move(ROOT, x, Stamp(zero[1 := 1], 1), zero, Stamp(zero, 1));
            && Member(t, ROOT) && !Member(t, x)
            && (var u := EffectInsert(t, ins);
                Member(u, ROOT) && Member(u, x) && forall k: nat :: !Collected(u, x, ROOT, k))
            && Run(t, [ins, mv]).Some? && Run(t, [mv]) == None
  {
    var t, zero := Start(n, pid), Zero(n);
    var ins := Insert(x, "x", ROOT, zero, Stamp(zero, 0));
    var mv := Move(ROOT, x, Stamp(zero[1 := 1], 1), zero, Stamp(zero, 1));
    assert Up(Links(t), ROOT, 0) == Some(ROOT);
    ParentlessIsNoMember(t, x);
    Sprout(t, ins);
    Orders(t, ins, mv);
  }

  lemma Sprout(t: Tree, ins: Op)
    requires Shaped(t) && ins.Insert? && Fits(ins, t.n) && ins.under == ROOT && ins.id != ROOT
    requires At(t, ins.id) == Blank(t.n)
    requires ROOT !in Links(t) && At(t, ROOT).children == {} && ins.rp == At(t, ROOT).current
    requires ins.r.vector == Zero(t.n)
    ensures var u := EffectInsert(t, ins);
            Member(u, ROOT) && Member(u, ins.id) && forall k: nat :: !Collected(u, ins.id, ROOT, k)
  {
    var u := EffectInsert(t, ins);
    assert Up(Links(t), ROOT, 0) == Some(ROOT) && Up(Links(u), ROOT, 0) == Some(ROOT);
    ParentlessIsNoMember(t, ins.id);
    OwnInsertIsVisible(t, ins);
    QuietInsert(t, ins);
    assert At(u, ins.id).children == {};
    forall k: nat ensures !Collected(u, ins.id, ROOT, k) { Leaf(u, ins.id, ROOT, k); }
  }

  /** Nothing but the node itself is collected from a leaf. */
  lemma {:induction false} Leaf(t: Tree, src: Id, x: Id, k: nat)
    requires Shaped(t) && At(t, src).children == {} && x != src
    ensures !Collected(t, src, x, k)
    decreases k
  {
    if k > 0 {
      forall y | Collected(t, src, y, k - 1) ensures x !in At(t, y).children {
        if y != src { Leaf(t, src, y, k - 1); }
      }
    }
  }

  lemma Orders(t: Tree, ins: Op, mv: Op)
    requires Shaped(t) && ins.Insert? && mv.Move? && Fits(ins, t.n) && Fits(mv, t.n)
    requires mv.id == ins.id != mv.to && At(t, ins.id) == Blank(t.n)
    requires mv.r.vector == Zero(t.n) && mv.v.vector == Zero(t.n)[mv.v.id := 1]
    ensures Run(t, [ins, mv]).Some? && Run(t, [mv]) == None
  {
    InOrder(t, ins, mv, [ins, mv]);
    TooEarly(t, mv, [mv]);
  }

  lemma TooEarly(t: Tree, mv: Op, early: seq<Op>)
    requires Shaped(t) && mv.Move? && Fits(mv, t.n) && mv.id != mv.to && At(t, mv.id) == Blank(t.n) && early == [mv]
    requires mv.r.vector == Zero(t.n) && mv.v.vector == Zero(t.n)[mv.v.id := 1]
    ensures OpsFit(early, t.n) && Run(t, early) == None
  {
    FirstContact(t, mv);
    RunSnoc(t, [], mv, early);
  }

  lemma InOrder(t: Tree, ins: Op, mv: Op, both: seq<Op>)
    requires Shaped(t) && ins.Insert? && mv.Move? && Fits(ins, t.n) && Fits(mv, t.n) && mv.id == ins.id
    requires both == [ins, mv]
    ensures OpsFit(both, t.n) && Run(t, both).Some?
  {
    InsertKnown(t, ins, mv.id);
    RunSnoc(t, [], ins, [ins]);
    RunSnoc(t, [ins], mv, both);
  }
}
