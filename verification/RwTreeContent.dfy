/** What deliveries do to the names and parents of tree nodes: where replicas that
    agree on headers still come to differ. */
module RwTreeContent {
  import opened VectorClock
  import opened Options
  import opened RwTree
  import opened RwTreeRivals
  import opened RwTreeShape

  // -------- Names --------

  /** The part of a node that value changes read and write. */
  datatype Label = Label(name: Option<string>, values: Clock)

  datatype Change = Change(name: string, v: Stamp)

  function LabelOf(x: Node): Label { Label(x.name, x.values) }

  /** A value change of an up-to-date node. */
  function Set(p: Label, m: Change): (q: Label)
    requires StampFits(m.v, |p.values|)
    ensures |q.values| == |p.values|
  {
    Label(if LexLess(p.values, m.v.vector) || Ready(p.values, m.v) then Some(m.name) else p.name,
          Join(p.values, m.v.vector))
  }

  /** The effect of a delivered value change on the node is `Set`, and on every
      other node's label nothing. */
  lemma EffectIsSet(t: Tree, op: Op, j: Id)
    requires Shaped(t) && op.Rename? && Fits(op, t.n) && op.r.vector == At(t, op.id).current
    ensures var p := LabelOf(At(t, j));
            LabelOf(At(EffectRename(t, op), j)) == if j == op.id then Set(p, Change(op.name, op.v)) else p
    ensures Header(At(EffectRename(t, op), j)) == Header(At(t, j))
    ensures At(EffectRename(t, op), j).parent == At(t, j).parent
  {}

  predicate AllFit(ms: seq<Change>, n: nat) { forall i :: 0 <= i < |ms| ==> StampFits(ms[i].v, n) }

  function SetAll(p: Label, ms: seq<Change>): (q: Label)
    requires AllFit(ms, |p.values|)
    ensures |q.values| == |p.values|
  {
    if ms == [] then p else Set(SetAll(p, ms[..|ms| - 1]), ms[|ms| - 1])
  }

  /** Each change is delivered after everything its issuer had seen. */
  predicate Causal(p: Label, ms: seq<Change>)
    requires AllFit(ms, |p.values|)
  {
    ms == [] || (Causal(p, ms[..|ms| - 1]) && Ready(SetAll(p, ms[..|ms| - 1]).values, ms[|ms| - 1].v))
  }

  /** Under causal delivery the name is the last one delivered, not the last one
      issued: concurrent changes are not ordered. */
  lemma LastDeliveredNames(p: Label, ms: seq<Change>)
    requires AllFit(ms, |p.values|) && Causal(p, ms) && ms != []
    ensures SetAll(p, ms).name == Some(ms[|ms| - 1].name)
  {}

  function Stamps(ms: seq<Change>): (vs: seq<Stamp>)
    ensures |vs| == |ms|
  {
    seq(|ms|, i requires 0 <= i < |ms| => ms[i].v)
  }

  /** Changes issued from one state, each by another replica, are ready in every
      order. */
  lemma {:induction false} RivalsAreCausal(p: Label, ms: seq<Change>)
    requires Rivals(p.values, Stamps(ms))
    ensures AllFit(ms, |p.values|) && Causal(p, ms) && Counts(p.values, SetAll(p, ms).values, Ids(Stamps(ms)))
  {
    forall i | 0 <= i < |ms| ensures StampFits(ms[i].v, |p.values|) { assert Stamps(ms)[i] == ms[i].v; }
    if ms != [] {
      var front, m := ms[..|ms| - 1], ms[|ms| - 1];
      assert Stamps(ms) == Stamps(front) + [m.v];
      RivalsFront(p.values, Stamps(ms), Stamps(front), m.v);
      RivalsAreCausal(p, front);
      CountsStep(p.values, SetAll(p, front).values, Ids(Stamps(front)), m.v);
    }
  }

  lemma RivalsNamed(p: Label, ms: seq<Change>)
    requires Rivals(p.values, Stamps(ms)) && ms != []
    ensures AllFit(ms, |p.values|) && SetAll(p, ms).name == Some(ms[|ms| - 1].name)
  {
    RivalsAreCausal(p, ms);
    LastDeliveredNames(p, ms);
  }

  /** Two replicas that deliver concurrent changes, the same ones or not, each in
      its own order, agree on the name exactly when their last changes do. */
  lemma NamesAgreeIff(p: Label, xs: seq<Change>, ys: seq<Change>, q: Label, r: Label, x: Change, y: Change)
    requires Rivals(p.values, Stamps(xs + [x])) && Rivals(p.values, Stamps(ys + [y]))
    requires AllFit(xs + [x], |p.values|) && q == SetAll(p, xs + [x])
    requires AllFit(ys + [y], |p.values|) && r == SetAll(p, ys + [y])
    ensures q.name == r.name <==> x.name == y.name
  {
    RivalsNamed(p, xs + [x]);
    RivalsNamed(p, ys + [y]);
    SameNames(q, r, x.name, y.name);
  }

  lemma SameNames(q: Label, r: Label, x: string, y: string)
    requires q.name == Some(x) && r.name == Some(y)
    ensures q.name == r.name <==> x == y
  {}

  /** Two concurrent changes always end in the order of delivery. */
  lemma TwoNames(p: Label, a: Change, b: Change)
    requires StampFits(a.v, |p.values|) && StampFits(b.v, |p.values|)
    requires Issued(p.values, a.v) && Issued(p.values, b.v) && a.v.id != b.v.id
    ensures Set(Set(p, a), b).name == Some(b.name) && Set(Set(p, b), a).name == Some(a.name)
  {
    CountsStep(p.values, p.values, {}, a.v);
    CountsStep(p.values, p.values, {}, b.v);
    CountsStep(p.values, Set(p, a).values, {a.v.id}, b.v);
    CountsStep(p.values, Set(p, b).values, {b.v.id}, a.v);
  }

  // -------- Parents --------

  /** Any insertion that brings no news of a removal sets the parent, whether or
      not it becomes the owner; one that does leaves the node without parent. */
  lemma InsertParent(t: Tree, op: Op)
    requires Shaped(t) && op.Insert? && Fits(op, t.n) && op.id != op.under
    ensures At(EffectInsert(t, op), op.id).parent
         == if Leq(op.r.vector, At(t, op.id).current) then Below(op.under) else Detached
  {
    var t1 := Hang(t, op);
    assert Header(At(t1, op.id)) == Header(At(t, op.id));
  }

  lemma ParentlessIsNoMember(t: Tree, id: Id)
    requires Shaped(t) && !At(t, id).parent.Below? && id != ROOT
    ensures !Member(t, id)
  {
    forall k: nat ensures Up(Links(t), id, k) != Some(ROOT) {
      assert id !in Links(t);
    }
  }

  lemma InsertClock(t: Tree, op: Op)
    requires Shaped(t) && op.Insert? && Fits(op, t.n) && op.id != op.under
    ensures At(EffectInsert(t, op), op.id).current == Join(At(t, op.id).current, op.r.vector)
    ensures Leq(At(t, op.id).current, op.r.vector) ==> Exists(At(EffectInsert(t, op), op.id))
  {
    JoinAbsorbs(op.r.vector, At(t, op.id).current);
    JoinCommutes(At(t, op.id).current, op.r.vector, op.r.vector);
    if Leq(op.r.vector, At(t, op.id).current) && Leq(At(t, op.id).current, op.r.vector) {
      LeqAntisymmetric(At(t, op.id).current, op.r.vector);
    }
  }

  /** The header after two operations the server survives in both orders. */
  lemma SwappedHeaders(t: Tree, a: Op, b: Op, id: Id)
    requires Shaped(t) && Fits(a, t.n) && Fits(b, t.n) && !a.Move? && !b.Move?
    ensures Header(At(Effect(Effect(t, a), b), id)) == Header(At(Effect(Effect(t, b), a), id))
  {
    var xs, ys := [a, b], [b, a];
    assert multiset(xs) == multiset{a, b} == multiset(ys);
    RunPair(t, a, b, xs);
    RunPair(t, b, a, ys);
    HeadersConverge(t, t, xs, ys, id);
  }

  /** Two insertions of one node under different parents: the header does not
      depend on the order of delivery, the parent is that of the later one. */
  lemma ConcurrentInsertsAgreeIff(t: Tree, a: Op, b: Op)
    requires Shaped(t) && a.Insert? && b.Insert? && Fits(a, t.n) && Fits(b, t.n)
    requires a.id == b.id && a.id != a.under && b.id != b.under
    requires Leq(a.r.vector, At(t, a.id).current) && Leq(b.r.vector, At(t, a.id).current)
    ensures Header(At(Effect(Effect(t, a), b), a.id)) == Header(At(Effect(Effect(t, b), a), a.id))
    ensures At(Effect(Effect(t, a), b), a.id).parent == At(Effect(Effect(t, b), a), a.id).parent <==> a.under == b.under
  {
    TwoInOrder(t, a, b);
    TwoInOrder(t, b, a);
    SwappedHeaders(t, a, b, a.id);
  }

  lemma TwoInOrder(t: Tree, a: Op, b: Op)
    requires Shaped(t) && a.Insert? && b.Insert? && Fits(a, t.n) && Fits(b, t.n)
    requires a.id == b.id && a.id != a.under && b.id != b.under
    requires Leq(a.r.vector, At(t, a.id).current) && Leq(b.r.vector, At(t, a.id).current)
    ensures At(Effect(Effect(t, a), b), a.id).parent == Below(b.under)
  {
    InsertClock(t, a);
    JoinAbsorbs(At(t, a.id).current, a.r.vector);
    InsertParent(EffectInsert(t, a), b);
  }

  lemma RunPair(t: Tree, a: Op, b: Op, xs: seq<Op>)
    requires Shaped(t) && Fits(a, t.n) && Fits(b, t.n) && !a.Move? && !b.Move? && xs == [a, b]
    ensures OpsFit(xs, t.n) && Run(t, xs) == Some(Effect(Effect(t, a), b))
  {
    RunSnoc(t, [], a, [a]);
    RunSnoc(t, [a], b, xs);
  }

  /** An insertion that knows of a removal, delivered before it and after it: the
      node exists both times with one header, and only the second time it hangs
      somewhere. */
  lemma EarlyInsertIsLost(t: Tree, del: Op, ins: Op)
    requires Shaped(t) && del.Delete? && ins.Insert? && Fits(del, t.n) && Fits(ins, t.n)
    requires del.id == ins.id && ins.id != ins.under && ins.id != ROOT && ins.r.vector == del.r.vector
    requires Leq(At(t, del.id).current, del.r.vector) && At(t, del.id).current != del.r.vector
    ensures var early, late := Effect(Effect(t, ins), del), Effect(Effect(t, del), ins);
            && Header(At(early, ins.id)) == Header(At(late, ins.id))
            && Exists(At(early, ins.id)) && Exists(At(late, ins.id))
            && !Member(early, ins.id) && At(late, ins.id).parent == Below(ins.under)
  {
    EarlyPart(t, del, ins);
    LatePart(t, del, ins);
    SwappedHeaders(t, ins, del, ins.id);
  }

  lemma EarlyPart(t: Tree, del: Op, ins: Op)
    requires Shaped(t) && del.Delete? && ins.Insert? && Fits(del, t.n) && Fits(ins, t.n)
    requires del.id == ins.id && ins.id != ins.under && ins.id != ROOT && ins.r.vector == del.r.vector
    requires Leq(At(t, del.id).current, del.r.vector) && At(t, del.id).current != del.r.vector
    ensures Exists(At(Effect(Effect(t, ins), del), ins.id)) && !Member(Effect(Effect(t, ins), del), ins.id)
  {
    if Leq(ins.r.vector, At(t, ins.id).current) { LeqAntisymmetric(At(t, ins.id).current, ins.r.vector); }
    InsertParent(t, ins);
    InsertClock(t, ins);
    var u := Effect(t, ins);
    assert Effect(u, del) == u;
    ParentlessIsNoMember(u, ins.id);
  }

  lemma LatePart(t: Tree, del: Op, ins: Op)
    requires Shaped(t) && del.Delete? && ins.Insert? && Fits(del, t.n) && Fits(ins, t.n)
    requires del.id == ins.id && ins.id != ins.under && ins.r.vector == del.r.vector
    requires Leq(At(t, del.id).current, del.r.vector)
    ensures At(Effect(Effect(t, del), ins), ins.id).parent == Below(ins.under)
    ensures Exists(At(Effect(Effect(t, del), ins), ins.id))
  {
    var u := Effect(t, del);
    JoinAbsorbs(del.r.vector, At(t, del.id).current);
    JoinCommutes(At(t, del.id).current, del.r.vector, del.r.vector);
    assert At(u, del.id).current == del.r.vector;
    InsertParent(u, ins);
    InsertClock(u, ins);
  }

  /** A node that exists and hangs nowhere is put under the target of the next move
      that reaches it, even of a move concurrent with those it has seen. */
  lemma LostNodeIsFound(t: Tree, op: Op)
    requires Shaped(t) && op.Move? && Fits(op, t.n) && UpToDate(t, op) && op.r.vector == At(t, op.id).current
    requires Exists(At(t, op.id)) && At(t, op.id).parent == Detached
    ensures !Fatal(t, op)
    ensures At(EffectMove(t, op), op.id).parent == Below(op.to) <==>
            Concurrent(At(t, op.id).moves, op.v.vector) || Ready(At(t, op.id).moves, op.v)
  {
    UpToDateClear(t, op);
  }

  // -------- At the replica that issues the command --------

  /** An insertion the replica issued itself is visible at once: a member under
      the given parent, listed there, with the given name if it never had one. */
  lemma OwnInsertIsVisible(t: Tree, op: Op)
    requires Shaped(t) && op.Insert? && Fits(op, t.n) && op.id != op.under && ROOT !in Links(t)
    requires op.rp == At(t, op.under).current && op.r.vector == At(t, op.id).current
    requires Member(t, op.under) && !Member(t, op.id)
    ensures var u := EffectInsert(t, op);
            && Exists(At(u, op.id)) && Member(u, op.id) && op.id in At(u, op.under).children
            && (At(t, op.id).values == Zero(t.n) ==> At(u, op.id).name == Some(op.name))
  {
    InsertLinks(t, op);
    InsertClock(t, op);
    MemberNotUnder(Links(t), op.under, op.id);
    var m, m' := Links(t), Links(EffectInsert(t, op));
    var k: nat :| Up(m, op.under, k) == Some(ROOT);
    forall j | 0 <= j < k ensures Up(m, op.under, j) != Some(op.id) { }
    SamePath(m, m', op.id, op.under, k);
    assert Up(m', op.id, k + 1) == Some(ROOT);
  }

  /** A deletion the replica issued itself takes the node out at once. */
  lemma OwnDeleteIsGone(t: Tree, op: Op)
    requires Shaped(t) && op.Delete? && Fits(op, t.n) && op.id != ROOT
    requires op.r.vector == At(t, op.id).current[op.r.id := At(t, op.id).current[op.r.id] + 1]
    ensures var u := Effect(t, op);
            && !Exists(At(u, op.id)) && !Member(u, op.id)
            && (At(t, op.id).parent.Below? ==> op.id !in At(u, At(t, op.id).parent.id).children)
  {
    assert !Leq(op.r.vector, At(t, op.id).current);
    ParentlessIsNoMember(Effect(t, op), op.id);
  }
}
