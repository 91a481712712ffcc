/** Moves of one node by several replicas: when they agree on its parent, and when
    they build a cycle. */
module RwTreeMoves {
  import opened VectorClock
  import opened Options
  import opened RwTree
  import opened RwTreeRivals
  import opened RwTreeShape

  /** What moves look at and change in a node. */
  datatype Place = Place(parent: Parent, moves: Clock)

  datatype Trip = Trip(to: Id, v: Stamp)

  function PlaceOf(x: Node): Place { Place(x.parent, x.moves) }

  /** A move of an up-to-date node. */
  function Go(p: Place, m: Trip): (q: Place)
    requires StampFits(m.v, |p.moves|)
    ensures |q.moves| == |p.moves|
  {
    var takes := if Concurrent(p.moves, m.v.vector) then Beyond(p.parent, m.to) else Ready(p.moves, m.v);
    Place(if takes then Below(m.to) else p.parent, Join(p.moves, m.v.vector))
  }

  /** The effect of a delivered move on the moved node is `Go`, and on every other
      node's place nothing. */
  lemma EffectIsGo(t: Tree, op: Op, j: Id)
    requires Shaped(t) && op.Move? && Fits(op, t.n) && !Fatal(t, op)
    requires UpToDate(t, op) && op.r.vector == At(t, op.id).current
    ensures var p := PlaceOf(At(t, j));
            PlaceOf(At(EffectMove(t, op), j)) == if j == op.id then Go(p, Trip(op.to, op.v)) else p
    ensures Header(At(EffectMove(t, op), j)) == Header(At(t, j)) && At(EffectMove(t, op), j).known == At(t, j).known
  {}

  predicate AllFit(ms: seq<Trip>, n: nat) { forall i :: 0 <= i < |ms| ==> StampFits(ms[i].v, n) }

  function GoAll(p: Place, ms: seq<Trip>): (q: Place)
    requires AllFit(ms, |p.moves|)
    ensures |q.moves| == |p.moves|
  {
    if ms == [] then p else Go(GoAll(p, ms[..|ms| - 1]), ms[|ms| - 1])
  }

  // -------- One move per replica --------

  function Stamps(ms: seq<Trip>): (vs: seq<Stamp>)
    ensures |vs| == |ms|
  {
    seq(|ms|, i requires 0 <= i < |ms| => ms[i].v)
  }

  /** The parent is the least target. */
  predicate LeastTarget(q: Place, ms: seq<Trip>) {
    q.parent.Below? && (exists m :: m in ms && m.to == q.parent.id) && forall m :: m in ms ==> q.parent.id <= m.to
  }

  lemma LeastStep(q: Place, u: seq<Trip>, m: Trip, ms: seq<Trip>)
    requires StampFits(m.v, |q.moves|) && LeastTarget(q, u) && Concurrent(q.moves, m.v.vector) && ms == u + [m]
    ensures LeastTarget(Go(q, m), ms)
  {
    var x :| x in u && x.to == q.parent.id;
    assert x in ms && m in ms;
  }

  lemma LeastFirst(q: Place, m: Trip)
    requires StampFits(m.v, |q.moves|) && Issued(q.moves, m.v)
    ensures LeastTarget(Go(q, m), [m])
  {
    FirstRival(q.moves, m.v);
    assert m in [m];
  }

  /** Rival moves put the node under the least of their targets. */
  lemma {:induction false} RivalsMeet(p: Place, ms: seq<Trip>)
    requires Rivals(p.moves, Stamps(ms))
    ensures AllFit(ms, |p.moves|) && Counts(p.moves, GoAll(p, ms).moves, Ids(Stamps(ms)))
    ensures ms != [] ==> LeastTarget(GoAll(p, ms), ms)
  {
    forall i | 0 <= i < |ms| ensures StampFits(ms[i].v, |p.moves|) { assert Stamps(ms)[i] == ms[i].v; }
    if ms != [] {
      var u, m := ms[..|ms| - 1], ms[|ms| - 1];
      assert Stamps(ms) == Stamps(u) + [m.v] && ms == u + [m];
      RivalsFront(p.moves, Stamps(ms), Stamps(u), m.v);
      RivalsMeet(p, u);
      MeetStep(p.moves, GoAll(p, u), u, m, ms);
    }
  }

  lemma MeetStep(c: Clock, q: Place, u: seq<Trip>, m: Trip, ms: seq<Trip>)
    requires |c| == |q.moves| && StampFits(m.v, |c|) && Issued(c, m.v) && ms == u + [m]
    requires Counts(c, q.moves, Ids(Stamps(u))) && m.v.id !in Ids(Stamps(u)) && AllFit(u, |c|)
    requires u != [] ==> LeastTarget(q, u)
    ensures Counts(c, Go(q, m).moves, Ids(Stamps(u)) + {m.v.id}) && LeastTarget(Go(q, m), ms)
  {
    CountsStep(c, q.moves, Ids(Stamps(u)), m.v);
    if u == [] {
      assert q.moves == c && ms == [m];
      LeastFirst(q, m);
    } else {
      assert Stamps(u)[0] == u[0].v && u[0].v in Stamps(u);
      LaterRival(c, q.moves, Ids(Stamps(u)), m.v, u[0].v.id);
      LeastStep(q, u, m, ms);
    }
  }

  lemma LeastUnique(a: Place, b: Place, xs: seq<Trip>, ys: seq<Trip>)
    requires LeastTarget(a, xs) && LeastTarget(b, ys) && forall m :: m in xs <==> m in ys
    ensures a.parent == b.parent
  {
    var x :| x in xs && x.to == a.parent.id;
    var y :| y in ys && y.to == b.parent.id;
    assert x in ys && y in xs;
  }

  /** So replicas that deliver rival moves in different orders agree. */
  lemma RivalsConverge(p: Place, xs: seq<Trip>, ys: seq<Trip>)
    requires Rivals(p.moves, Stamps(xs)) && Rivals(p.moves, Stamps(ys)) && forall m :: m in xs <==> m in ys
    ensures AllFit(xs, |p.moves|) && AllFit(ys, |p.moves|) && GoAll(p, xs).parent == GoAll(p, ys).parent
  {
    RivalsMeet(p, xs);
    RivalsMeet(p, ys);
    assert (xs != [] ==> xs[0] in ys) && (ys != [] ==> ys[0] in xs);
    if xs != [] { LeastUnique(GoAll(p, xs), GoAll(p, ys), xs, ys); }
  }

  // -------- A second move breaks the agreement --------

  function Min(i: Id, j: Id): Id { if j < i then j else i }

  /** One replica moves the node to a.to and then to a2.to, another meanwhile to
      b.to; all stamps are the ones their prepare phases give. */
  predicate SecondMove(p: Place, a: Trip, a2: Trip, b: Trip) {
    && StampFits(a.v, |p.moves|) && StampFits(a2.v, |p.moves|) && StampFits(b.v, |p.moves|)
    && Issued(p.moves, a.v) && Issued(a.v.vector, a2.v) && Issued(p.moves, b.v) && a.v.id == a2.v.id != b.v.id
  }

  lemma RivalOfSecond(p: Place, a: Trip, a2: Trip, b: Trip)
    requires SecondMove(p, a, a2, b)
    ensures Go(Go(Go(p, a), a2), b).parent == Below(Min(a2.to, b.to))
  {
    FirstRival(p.moves, a.v);
    var q := Go(p, a);
    assert q.moves == a.v.vector;
    FirstRival(q.moves, a2.v);
    var r := Go(q, a2);
    assert r.moves == a2.v.vector;
    assert r.moves[a.v.id] > b.v.vector[a.v.id] && r.moves[b.v.id] < b.v.vector[b.v.id];
  }

  lemma SecondAfterRival(p: Place, a: Trip, a2: Trip, b: Trip)
    requires SecondMove(p, a, a2, b)
    ensures Go(Go(Go(p, b), a), a2).parent == Below(Min(Min(b.to, a.to), a2.to))
  {
    FirstRival(p.moves, b.v);
    var q := Go(p, b);
    assert q.moves == b.v.vector;
    assert q.moves[b.v.id] > a.v.vector[b.v.id] && q.moves[a.v.id] < a.v.vector[a.v.id];
    var r := Go(q, a);
    assert r.moves[b.v.id] > a2.v.vector[b.v.id] && r.moves[a.v.id] < a2.v.vector[a.v.id];
  }

  lemma RivalBetween(p: Place, a: Trip, a2: Trip, b: Trip)
    requires SecondMove(p, a, a2, b)
    ensures Go(Go(Go(p, a), b), a2).parent == Below(Min(Min(a.to, b.to), a2.to))
  {
    FirstRival(p.moves, a.v);
    var q := Go(p, a);
    assert q.moves == a.v.vector;
    assert q.moves[a.v.id] > b.v.vector[a.v.id] && q.moves[b.v.id] < b.v.vector[b.v.id];
    var r := Go(q, b);
    assert r.moves[b.v.id] > a2.v.vector[b.v.id] && r.moves[a.v.id] < a2.v.vector[a.v.id];
  }

  /** The three causal orders of delivery agree on the parent exactly when the
      first of the two moves goes to no smaller a name than the other two. */
  lemma SecondMoveAgreesIff(p: Place, a: Trip, a2: Trip, b: Trip)
    requires SecondMove(p, a, a2, b)
    ensures Go(Go(Go(p, a), b), a2).parent == Go(Go(Go(p, b), a), a2).parent
    ensures Go(Go(Go(p, a), a2), b).parent == Go(Go(Go(p, b), a), a2).parent <==> Min(a2.to, b.to) <= a.to
  {
    RivalOfSecond(p, a, a2, b);
    SecondAfterRival(p, a, a2, b);
    RivalBetween(p, a, a2, b);
  }

  /** It does happen that they disagree. */
  lemma SecondMoveDiverges()
    ensures var p := Place(Below(9), [0, 0]);
            var a, a2, b := Trip(1, Stamp([1, 0], 0)), Trip(3, Stamp([2, 0], 0)), Trip(2, Stamp([0, 1], 1));
            && SecondMove(p, a, a2, b)
            && Go(Go(Go(p, a), a2), b).parent == Below(2) && Go(Go(Go(p, b), a), a2).parent == Below(1)
  {
    var p := Place(Below(9), [0, 0]);
    var a, a2, b := Trip(1, Stamp([1, 0], 0)), Trip(3, Stamp([2, 0], 0)), Trip(2, Stamp([0, 1], 1));
    RivalOfSecond(p, a, a2, b);
    SecondAfterRival(p, a, a2, b);
  }

  // -------- Crossed moves --------

  /** The next move of an up-to-date node that exists here. */
  predicate Next(t: Tree, op: Op)
    requires Shaped(t) && op.Move? && Fits(op, t.n)
  {
    && UpToDate(t, op) && op.r.vector == At(t, op.id).current
    && Exists(At(t, op.id)) && Issued(At(t, op.id).moves, op.v)
  }

  /** It lands. */
  lemma NextLands(t: Tree, op: Op)
    requires Shaped(t) && op.Move? && Fits(op, t.n) && Next(t, op)
    ensures !Fatal(t, op) && Links(EffectMove(t, op)) == Links(t)[op.id := op.to]
  {
    UpToDateClear(t, op);
    FirstRival(At(t, op.id).moves, op.v);
    MoveLinks(t, op);
  }

  /** The next move of another node is still the next one. */
  lemma StillNext(t: Tree, a: Op, b: Op, u: Tree)
    requires Shaped(t) && a.Move? && b.Move? && Fits(a, t.n) && Fits(b, t.n) && a.id != b.id
    requires Next(t, a) && Next(t, b) && !Fatal(t, a) && u == EffectMove(t, a)
    ensures Shaped(u) && u.n == t.n && Next(u, b)
  {
    EffectIsGo(t, a, b.id);
    EffectIsGo(t, a, b.to);
  }

  lemma TwoCycle(m: map<Id, Id>, a: Id, b: Id, n: nat)
    requires a in m && b in m && m[a] == b && m[b] == a && a != ROOT && b != ROOT
    ensures Up(m, a, n).Some? && Up(m, a, n) != Some(ROOT)
  {
    assert Up(m, a, 1) == Some(b) && Up(m, a, 2) == Some(a);
    CycleNeverStops(m, a, 2, n);
  }

  /** Two replicas each put one of two nodes under the other. In either order of
      delivery both nodes end below each other, and the climb from them never
      stops. */
  lemma CrossedMoves(t: Tree, a: Op, b: Op, n: nat)
    requires Shaped(t) && a.Move? && b.Move? && Fits(a, t.n) && Fits(b, t.n) && Next(t, a) && Next(t, b)
    requires a.id == b.to && b.id == a.to && a.id != b.id && a.id != ROOT && b.id != ROOT
    ensures !Fatal(t, a) && !Fatal(EffectMove(t, a), b)
    ensures var m := Links(EffectMove(EffectMove(t, a), b));
            && a.id in m && m[a.id] == b.id && b.id in m && m[b.id] == a.id
            && Up(m, a.id, n).Some? && Up(m, a.id, n) != Some(ROOT)
  {
    NextLands(t, a);
    var u := EffectMove(t, a);
    StillNext(t, a, b, u);
    NextLands(u, b);
    TwoCycle(Links(EffectMove(u, b)), a.id, b.id, n);
  }
}
