/** The remove-win tree: nodes with remove-win headers, parent pointers and sets of
    children, as the effect phase of its replicated commands updates them. */
module RwTree {
  import opened VectorClock
  import opened Options
  import RemoveWin

  type Id = nat
  const ROOT: Id := 0

  /** The text a node keeps of its parent: none yet, the word that `tRemFunc`
      leaves (the root starts with such a word too), or an identifier. */
  datatype Parent = Absent | Detached | Below(id: Id)

  /** `rtn`: the header, the clocks of moves and of value changes, whether `uid` is
      set, and the links. */
  datatype Node = Node(pid: int, current: Clock, moves: Clock, values: Clock, known: bool, name: Option<string>,
                       parent: Parent, children: set<Id>)

  /** The tree at one of n replicas. */
  datatype Tree = Tree(n: nat, nodes: map<Id, Node>)

  /** Broadcast operations with the clocks their prepare phase attached. */
  datatype Op =
    | Insert(id: Id, name: string, under: Id, rp: Clock, r: Stamp)
    | Delete(id: Id, r: Stamp)
    | Rename(id: Id, name: string, v: Stamp, r: Stamp)
    | Move(to: Id, id: Id, v: Stamp, rto: Clock, r: Stamp)

  predicate Exists(x: Node) { x.pid >= 0 }

  /** Only an insertion makes a node exist, and it sets `uid` and the parent. */
  predicate NodeFits(x: Node, n: nat) {
    && |x.current| == |x.moves| == |x.values| == n
    && (Exists(x) ==> x.known && x.parent != Absent)
    && (x.parent.Below? ==> x.known)
  }

  predicate Shaped(t: Tree) { forall id :: id in t.nodes ==> NodeFits(t.nodes[id], t.n) }

  predicate StampFits(s: Stamp, n: nat) { |s.vector| == n && 0 <= s.id < n }

  predicate Fits(op: Op, n: nat) {
    StampFits(op.r, n)
    && match op
       case Insert(_, _, _, rp, _) => |rp| == n
       case Delete(_, _) => true
       case Rename(_, _, v, _) => StampFits(v, n)
       case Move(_, _, v, rto, _) => StampFits(v, n) && |rto| == n
  }

  function Blank(n: nat): (x: Node)
    ensures NodeFits(x, n)
  {
    Node(-1, Zero(n), Zero(n), Zero(n), false, None, Absent, {})
  }

  /** `rtnHTGet` with creation. */
  function At(t: Tree, id: Id): (x: Node)
    requires Shaped(t)
    ensures NodeFits(x, t.n)
  {
    if id in t.nodes then t.nodes[id] else Blank(t.n)
  }

  function Put(t: Tree, id: Id, x: Node): (u: Tree)
    requires Shaped(t) && NodeFits(x, t.n)
    ensures Shaped(u) && u.n == t.n && At(u, id) == x && forall j :: j != id ==> At(u, j) == At(t, j)
  {
    t.(nodes := t.nodes[id := x])
  }

  // -------- Effects --------

  function Header(x: Node): (int, Clock) { (x.pid, x.current) }

  /** The header is `id`'s alone; nobody else's changes. */
  ghost predicate OnlyHeader(t: Tree, u: Tree, id: Id)
    requires Shaped(t) && Shaped(u)
  {
    u.n == t.n && forall j :: j != id ==> Header(At(u, j)) == Header(At(t, j))
  }

  /** `id` taken off the children of its parent, if that is a node. */
  function Unlist(t: Tree, id: Id, p: Parent): (u: Tree)
    requires Shaped(t)
    ensures Shaped(u) && u.n == t.n
    ensures forall j :: At(u, j) == At(t, j).(children := At(u, j).children)
    ensures forall j :: At(u, j).children == if p == Below(j) then At(t, j).children - {id} else At(t, j).children
  {
    if p.Below? then Put(t, p.id, At(t, p.id).(children := At(t, p.id).children - {id})) else t
  }

  /** `tRemFunc`. */
  function RemoveNode(t: Tree, id: Id, clock: Clock): (u: Tree)
    requires Shaped(t) && |clock| == t.n
    ensures Shaped(u) && u.n == t.n && OnlyHeader(t, u, id)
    ensures At(u, id).current == Join(At(t, id).current, clock)
    ensures At(u, id).pid == if Leq(clock, At(t, id).current) then At(t, id).pid else -1
    ensures At(u, id).parent == if Leq(clock, At(t, id).current) then At(t, id).parent else Detached
    ensures forall j :: At(u, j).known == At(t, j).known && At(u, j).moves == At(t, j).moves
    ensures forall j :: j != id ==> At(u, j).parent == At(t, j).parent
  {
    var x := At(t, id);
    JoinAbsorbs(x.current, clock);
    if Leq(clock, x.current) then t
    else
      var t1 := Put(t, id, x.(pid := -1, current := Join(x.current, clock)));
      var t2 := Unlist(t1, id, x.parent);
      Put(t2, id, At(t2, id).(parent := Detached))
  }

  /** The links and the name of a new node, before its header is looked at. */
  function Hang(t: Tree, op: Op): (u: Tree)
    requires Shaped(t) && op.Insert?
    ensures Shaped(u) && u.n == t.n && forall j :: Header(At(u, j)) == Header(At(t, j))
    ensures At(u, op.id).known && At(u, op.id).parent == Below(op.under)
    ensures forall j :: j != op.id ==> At(u, j).known == At(t, j).known && At(u, j).parent == At(t, j).parent
  {
    var x := At(t, op.id);
    var name := if x.values == Zero(t.n) then Some(op.name) else x.name;
    var t1 := Put(t, op.id, x.(known := true, parent := Below(op.under), name := name));
    Put(t1, op.under, At(t1, op.under).(children := At(t1, op.under).children + {op.id}))
  }

  /** The node is the inserter's if nothing was removed that it had not seen. */
  function Own(t: Tree, id: Id, r: Stamp): (u: Tree)
    requires Shaped(t) && |r.vector| == t.n && At(t, id).known && At(t, id).parent != Absent
    ensures Shaped(u) && u.n == t.n && OnlyHeader(t, u, id)
    ensures forall j :: At(u, j) == At(t, j).(pid := At(u, j).pid)
  {
    var y := At(t, id);
    if r.vector == y.current && y.pid < r.id then Put(t, id, y.(pid := r.id)) else t
  }

  function EffectInsert(t: Tree, op: Op): (u: Tree)
    requires Shaped(t) && op.Insert? && Fits(op, t.n)
    ensures Shaped(u) && u.n == t.n
  {
    Own(RemoveNode(RemoveNode(Hang(t, op), op.under, op.rp), op.id, op.r.vector), op.id, op.r)
  }

  /** `currentCompare` below zero: the first difference is upwards. */
  predicate LexLess(a: Clock, b: Clock)
    requires |a| == |b|
  {
    a != [] && (a[0] < b[0] || (a[0] == b[0] && LexLess(a[1..], b[1..])))
  }

  /** `causally_ready`. */
  predicate Ready(a: Clock, s: Stamp)
    requires StampFits(s, |a|)
  {
    && s.vector[s.id] == a[s.id] + 1
    && forall i :: 0 <= i < |a| && i != s.id ==> s.vector[i] <= a[i]
  }

  /** `checkCurrency`. */
  predicate Concurrent(a: Clock, b: Clock)
    requires |a| == |b|
  {
    !Leq(a, b) && !Leq(b, a)
  }

  function EffectRename(t: Tree, op: Op): (u: Tree)
    requires Shaped(t) && op.Rename? && Fits(op, t.n)
    ensures Shaped(u) && u.n == t.n
  {
    var t1 := RemoveNode(t, op.id, op.r.vector);
    var x := At(t1, op.id);
    var wins := op.r.vector == x.current && (LexLess(x.values, op.v.vector) || Ready(x.values, op.v));
    Put(t1, op.id, x.(name := if wins then Some(op.name) else x.name, values := Join(x.values, op.v.vector)))
  }

  /** Put node `id` under `to`. */
  function Relink(t: Tree, id: Id, to: Id): (u: Tree)
    requires Shaped(t) && At(t, id).known
    ensures Shaped(u) && u.n == t.n && At(u, id).parent == Below(to)
    ensures forall j :: Header(At(u, j)) == Header(At(t, j)) && (j != id ==> At(u, j).parent == At(t, j).parent)
    ensures forall j :: At(u, j).known == At(t, j).known && At(u, j).moves == At(t, j).moves
  {
    var t1 := Unlist(t, id, At(t, id).parent);
    var t2 := Put(t1, to, At(t1, to).(children := At(t1, to).children + {id}));
    Put(t2, id, At(t2, id).(parent := Below(to)))
  }

  /** The text of the parent is greater than an identifier: an absent text is less
      than all of them, the word of a detached node greater. */
  predicate Beyond(p: Parent, to: Id) { p.Detached? || (p.Below? && p.id > to) }

  /** Whether a move takes place: it follows all moves seen, or it is concurrent
      with them and its target precedes the present parent. */
  predicate Takes(x: Node, op: Op)
    requires op.Move? && Fits(op, |x.moves|) && |x.current| == |x.moves|
  {
    && op.r.vector == x.current
    && if Concurrent(x.moves, op.v.vector) then Beyond(x.parent, op.to) else Ready(x.moves, op.v)
  }

  /** The move proper, once the headers are brought up to date. */
  function Shift(t: Tree, op: Op): (u: Tree)
    requires Shaped(t) && op.Move? && Fits(op, t.n) && (Takes(At(t, op.id), op) ==> At(t, op.id).known)
    ensures Shaped(u) && u.n == t.n && forall j :: Header(At(u, j)) == Header(At(t, j))
  {
    var t3 := if Takes(At(t, op.id), op) then Relink(t, op.id, op.to) else t;
    Put(t3, op.id, At(t3, op.id).(moves := Join(At(t3, op.id).moves, op.v.vector)))
  }

  /** The tree once both nodes of a move have seen the removes it carries. */
  function Cleared(t: Tree, op: Op): (u: Tree)
    requires Shaped(t) && op.Move? && Fits(op, t.n)
    ensures Shaped(u) && u.n == t.n
  {
    RemoveNode(RemoveNode(t, op.to, op.rto), op.id, op.r.vector)
  }

  /** A move that takes place adds the `uid` of its node to a set of children; where
      that is still a null pointer the server dies. */
  predicate Fatal(t: Tree, op: Op)
    requires Shaped(t) && Fits(op, t.n)
  {
    op.Move? && var x := At(Cleared(t, op), op.id); Takes(x, op) && !x.known
  }

  function EffectMove(t: Tree, op: Op): (u: Tree)
    requires Shaped(t) && op.Move? && Fits(op, t.n) && !Fatal(t, op)
    ensures Shaped(u) && u.n == t.n
  {
    Shift(Cleared(t, op), op)
  }

  function Effect(t: Tree, op: Op): (u: Tree)
    requires Shaped(t) && Fits(op, t.n) && !Fatal(t, op)
    ensures Shaped(u) && u.n == t.n
  {
    match op
    case Insert(_, _, _, _, _) => EffectInsert(t, op)
    case Delete(id, r) => RemoveNode(t, id, r.vector)
    case Rename(_, _, _, _) => EffectRename(t, op)
    case Move(_, _, _, _, _) => EffectMove(t, op)
  }

  // -------- Headers: every node is a remove-win element --------

  /** What an operation means to the header of node id. */
  function HeaderOps(op: Op, id: Id): seq<RemoveWin.Op> {
    match op
    case Insert(i, _, under, rp, r) =>
      Maybe(id == under, RemoveWin.Rem(Stamp(rp, 0))) + Maybe(id == i, RemoveWin.Add(r, 0.0))
    case Delete(i, r) => if id == i then [RemoveWin.Rem(r)] else []
    case Rename(i, _, _, r) => if id == i then [RemoveWin.Rem(r)] else []
    case Move(to, i, _, rto, r) =>
      Maybe(id == to, RemoveWin.Rem(Stamp(rto, 0))) + Maybe(id == i, RemoveWin.Rem(r))
  }

  predicate Mirrors(x: Node, e: RemoveWin.Element) { x.pid == e.pid && x.current == e.current }

  lemma MirrorRemove(t: Tree, id: Id, clock: Clock, j: Id, e: RemoveWin.Element, rid: int)
    requires Shaped(t) && |clock| == t.n && rid >= 0 && Mirrors(At(t, j), e)
    ensures j == id ==> Mirrors(At(RemoveNode(t, id, clock), j), RemoveWin.Apply(e, RemoveWin.Rem(Stamp(clock, rid))))
    ensures j != id ==> Mirrors(At(RemoveNode(t, id, clock), j), e)
  {}

  predicate OpsFit(ops: seq<Op>, n: nat) { forall i :: 0 <= i < |ops| ==> Fits(ops[i], n) }

  lemma HeaderOpsFit(op: Op, id: Id, n: nat)
    requires Fits(op, n)
    ensures RemoveWin.AllFit(HeaderOps(op, id), n)
  {}

  lemma RunTwo(e: RemoveWin.Element, a: seq<RemoveWin.Op>, b: seq<RemoveWin.Op>, f: RemoveWin.Element)
    requires |b| <= 1 && RemoveWin.AllFit(a, |e.current|) && RemoveWin.AllFit(b, |e.current|)
    requires f == RemoveWin.Run(e, a)
    ensures RemoveWin.AllFit(a + b, |e.current|) && RemoveWin.Run(e, a + b) == RemoveWin.Run(f, b)
  {
    if b == [] {
      assert a + b == a;
    } else {
      RunOne(f, b[0]);
      assert b == [b[0]];
      RemoveWin.RunSnoc(e, a, b[0]);
    }
  }

  lemma RunOne(e: RemoveWin.Element, x: RemoveWin.Op)
    requires RemoveWin.Fits(x, |e.current|)
    ensures RemoveWin.Run(e, [x]) == RemoveWin.Apply(e, x) && RemoveWin.Run(e, []) == e
  {
    assert [x][..0] == [];
  }

  function Maybe(some: bool, x: RemoveWin.Op): seq<RemoveWin.Op> { if some then [x] else [] }

  lemma RunMaybeOne(e: RemoveWin.Element, some: bool, x: RemoveWin.Op, s: seq<RemoveWin.Op>)
    requires RemoveWin.Fits(x, |e.current|) && s == Maybe(some, x)
    ensures |s| <= 1 && RemoveWin.AllFit(s, |e.current|)
    ensures RemoveWin.Run(e, s) == if some then RemoveWin.Apply(e, x) else e
  {
    RunOne(e, x);
  }

  lemma RunMaybe(e: RemoveWin.Element, one: bool, x: RemoveWin.Op, two: bool, y: RemoveWin.Op, f: RemoveWin.Element)
    requires RemoveWin.Fits(x, |e.current|) && RemoveWin.Fits(y, |e.current|)
    requires f == if one then RemoveWin.Apply(e, x) else e
    ensures RemoveWin.AllFit(Maybe(one, x) + Maybe(two, y), |e.current|)
    ensures RemoveWin.Run(e, Maybe(one, x) + Maybe(two, y)) == if two then RemoveWin.Apply(f, y) else f
  {
    RunMaybeOne(e, one, x, Maybe(one, x));
    RunMaybeOne(f, two, y, Maybe(two, y));
    RunTwo(e, Maybe(one, x), Maybe(two, y), f);
  }

  lemma MirrorAdd(t: Tree, id: Id, r: Stamp, j: Id, e: RemoveWin.Element)
    requires Shaped(t) && StampFits(r, t.n) && Mirrors(At(t, j), e) && At(t, id).known && At(t, id).parent != Absent
    ensures var u := Own(RemoveNode(t, id, r.vector), id, r);
            Mirrors(At(u, j), if j == id then RemoveWin.Apply(e, RemoveWin.Add(r, 0.0)) else e)
  {
    MirrorRemove(t, id, r.vector, j, e, r.id);
  }

  lemma MirrorInsert(t: Tree, op: Op, j: Id, e: RemoveWin.Element)
    requires Shaped(t) && op.Insert? && Fits(op, t.n) && Mirrors(At(t, j), e)
    ensures RemoveWin.AllFit(HeaderOps(op, j), t.n)
    ensures Mirrors(At(EffectInsert(t, op), j), RemoveWin.Run(e, HeaderOps(op, j)))
  {
    var t2 := Hang(t, op);
    var first: RemoveWin.Op := RemoveWin.Rem(Stamp(op.rp, 0));
    var f := if j == op.under then RemoveWin.Apply(e, first) else e;
    assert Header(At(t2, j)) == Header(At(t, j));
    MirrorRemove(t2, op.under, op.rp, j, e, 0);
    MirrorAdd(RemoveNode(t2, op.under, op.rp), op.id, op.r, j, f);
    RunMaybe(e, j == op.under, first, j == op.id, RemoveWin.Add(op.r, 0.0), f);
  }

  lemma MirrorMove(t: Tree, op: Op, j: Id, e: RemoveWin.Element)
    requires Shaped(t) && op.Move? && Fits(op, t.n) && !Fatal(t, op) && Mirrors(At(t, j), e)
    ensures RemoveWin.AllFit(HeaderOps(op, j), t.n)
    ensures Mirrors(At(EffectMove(t, op), j), RemoveWin.Run(e, HeaderOps(op, j)))
  {
    var t1 := RemoveNode(t, op.to, op.rto);
    MirrorRemove(t, op.to, op.rto, j, e, 0);
    var first: RemoveWin.Op := RemoveWin.Rem(Stamp(op.rto, 0));
    var f := if j == op.to then RemoveWin.Apply(e, first) else e;
    MirrorRemove(t1, op.id, op.r.vector, j, f, op.r.id);
    var t2 := RemoveNode(t1, op.id, op.r.vector);
    assert Header(At(Shift(t2, op), j)) == Header(At(t2, j));
    RunMaybe(e, j == op.to, first, j == op.id, RemoveWin.Rem(op.r), f);
  }

  lemma MirrorEffect(t: Tree, op: Op, j: Id, e: RemoveWin.Element)
    requires Shaped(t) && Fits(op, t.n) && !Fatal(t, op) && Mirrors(At(t, j), e)
    ensures RemoveWin.AllFit(HeaderOps(op, j), t.n)
    ensures Mirrors(At(Effect(t, op), j), RemoveWin.Run(e, HeaderOps(op, j)))
  {
    match op
    case Insert(_, _, _, _, _) => MirrorInsert(t, op, j, e);
    case Move(_, _, _, _, _) => MirrorMove(t, op, j, e);
    case Delete(id, r) =>
      MirrorRemove(t, id, r.vector, j, e, r.id);
      RunOne(e, RemoveWin.Rem(r));
    case Rename(id, _, _, r) =>
      MirrorRemove(t, id, r.vector, j, e, r.id);
      RunOne(e, RemoveWin.Rem(r));
  }

  // -------- Whole deliveries --------

  /** One delivery; None where the server dies. */
  function Step(t: Tree, op: Op): (u: Option<Tree>)
    requires Shaped(t) && Fits(op, t.n)
    ensures u.Some? ==> Shaped(u.value) && u.value.n == t.n
  {
    if Fatal(t, op) then None else Some(Effect(t, op))
  }

  /** Deliveries in order; None once the server has died. */
  function Run(t: Tree, ops: seq<Op>): (u: Option<Tree>)
    requires Shaped(t) && OpsFit(ops, t.n)
    ensures u.Some? ==> Shaped(u.value) && u.value.n == t.n
  {
    if ops == [] then Some(t)
    else
      var before := Run(t, ops[..|ops| - 1]);
      if before == None then None else Step(before.value, ops[|ops| - 1])
  }

  lemma RunSnoc(t: Tree, ops: seq<Op>, op: Op, more: seq<Op>)
    requires Shaped(t) && OpsFit(ops, t.n) && Fits(op, t.n) && more == ops + [op]
    ensures OpsFit(more, t.n)
    ensures Run(t, more) == if Run(t, ops) == None then None else Step(Run(t, ops).value, op)
  {
    assert more[..|more| - 1] == ops;
  }

  function AllHeaderOps(ops: seq<Op>, id: Id): seq<RemoveWin.Op> {
    if ops == [] then [] else AllHeaderOps(ops[..|ops| - 1], id) + HeaderOps(ops[|ops| - 1], id)
  }

  lemma {:induction false} RunConcat(e: RemoveWin.Element, a: seq<RemoveWin.Op>, b: seq<RemoveWin.Op>)
    requires RemoveWin.AllFit(a, |e.current|) && RemoveWin.AllFit(b, |e.current|)
    ensures RemoveWin.AllFit(a + b, |e.current|) && RemoveWin.Run(e, a + b) == RemoveWin.Run(RemoveWin.Run(e, a), b)
  {
    if b == [] {
      assert a + b == a;
    } else {
      var c, x := b[..|b| - 1], b[|b| - 1];
      assert b == c + [x] && a + b == (a + c) + [x];
      RunConcat(e, a, c);
      RemoveWin.RunSnoc(e, a + c, x);
    }
  }

  lemma {:induction false} AllHeaderOpsFit(ops: seq<Op>, id: Id, n: nat)
    requires OpsFit(ops, n)
    ensures RemoveWin.AllFit(AllHeaderOps(ops, id), n)
  {
    if ops != [] {
      AllHeaderOpsFit(ops[..|ops| - 1], id, n);
      HeaderOpsFit(ops[|ops| - 1], id, n);
    }
  }

  /** In deliveries the server survives, the header of a node is that of a
      remove-win element given the node's share of the operations. */
  lemma {:induction false} RunMirrors(t: Tree, ops: seq<Op>, id: Id, e: RemoveWin.Element)
    requires Shaped(t) && OpsFit(ops, t.n) && Mirrors(At(t, id), e)
    ensures RemoveWin.AllFit(AllHeaderOps(ops, id), t.n)
    ensures var u := Run(t, ops); u.Some? ==> Mirrors(At(u.value, id), RemoveWin.Run(e, AllHeaderOps(ops, id)))
  {
    AllHeaderOpsFit(ops, id, t.n);
    if ops != [] && Run(t, ops).Some? {
      var p, x := ops[..|ops| - 1], ops[|ops| - 1];
      RunMirrors(t, p, id, e);
      MirrorEffect(Run(t, p).value, x, id, RemoveWin.Run(e, AllHeaderOps(p, id)));
      RunConcat(e, AllHeaderOps(p, id), HeaderOps(x, id));
    }
  }

  /** How often each header operation occurs. */
  function Tally(ops: seq<Op>, id: Id): multiset<RemoveWin.Op> { multiset(AllHeaderOps(ops, id)) }

  lemma TallySnoc(ops: seq<Op>, y: Op, id: Id)
    ensures Tally(ops + [y], id) == Tally(ops, id) + multiset(HeaderOps(y, id))
  {
    assert (ops + [y])[..|ops|] == ops;
  }

  lemma {:induction false} TallyMoveToEnd(u: seq<Op>, x: Op, v: seq<Op>, id: Id)
    ensures Tally(u + [x] + v, id) == Tally(u + v, id) + multiset(HeaderOps(x, id))
    decreases |v|
  {
    if v == [] {
      assert u + [x] + v == u + [x] && u + v == u;
      TallySnoc(u, x, id);
    } else {
      var w, y := v[..|v| - 1], v[|v| - 1];
      assert u + [x] + v == (u + [x] + w) + [y] && u + v == (u + w) + [y];
      TallyMoveToEnd(u, x, w, id);
      TallySnoc(u + [x] + w, y, id);
      TallySnoc(u + w, y, id);
    }
  }

  lemma {:induction false} SameTally(s: seq<Op>, s': seq<Op>, id: Id)
    requires multiset(s) == multiset(s')
    ensures Tally(s, id) == Tally(s', id)
    decreases |s|
  {
    if s == [] {
      assert |multiset(s')| == 0;
    } else {
      var p, x := s[..|s| - 1], s[|s| - 1];
      assert s == p + [x];
      var u, v := RemoveWin.SplitAt(p, x, s');
      SameTally(p, u + v, id);
      TallySnoc(p, x, id);
      TallyMoveToEnd(u, x, v, id);
    }
  }

  predicate Plain(a: RemoveWin.Op) { a.Add? ==> a.value == 0.0 }

  lemma PlainOps(op: Op, id: Id, a: RemoveWin.Op)
    requires a in HeaderOps(op, id)
    ensures Plain(a)
  {}

  lemma {:induction false} AllPlain(ops: seq<Op>, id: Id, a: RemoveWin.Op)
    requires a in AllHeaderOps(ops, id)
    ensures Plain(a)
  {
    if a in AllHeaderOps(ops[..|ops| - 1], id) { AllPlain(ops[..|ops| - 1], id, a); }
    else { PlainOps(ops[|ops| - 1], id, a); }
  }

  lemma InsertionsAgree(ops: seq<Op>, id: Id)
    ensures RemoveWin.AllCompatible(AllHeaderOps(ops, id))
  {
    forall a, b | a in AllHeaderOps(ops, id) && b in AllHeaderOps(ops, id) ensures RemoveWin.Compatible(a, b) {
      AllPlain(ops, id, a);
      AllPlain(ops, id, b);
    }
  }

  /** Whatever the order of delivery, replicas that started with the same header of
      a node and have survived the same operations agree on that header. */
  lemma HeadersConverge(t: Tree, t': Tree, s: seq<Op>, s': seq<Op>, id: Id)
    requires Shaped(t) && Shaped(t') && t.n == t'.n && Header(At(t, id)) == Header(At(t', id))
    requires OpsFit(s, t.n) && OpsFit(s', t.n) && multiset(s) == multiset(s')
    ensures var u, u' := Run(t, s), Run(t', s');
            u.Some? && u'.Some? ==> Header(At(u.value, id)) == Header(At(u'.value, id))
  {
    var e := RemoveWin.Element(At(t, id).pid, At(t, id).current, 0.0, 0.0, None);
    RunMirrors(t, s, id, e);
    RunMirrors(t', s', id, e);
    SameTally(s, s', id);
    InsertionsAgree(s, id);
    RemoveWin.OrderIrrelevant(e, AllHeaderOps(s, id), AllHeaderOps(s', id));
  }
}
