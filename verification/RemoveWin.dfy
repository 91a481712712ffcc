/** The remove-win element: the `reh` header and the priority-queue element
    built on it, as the effect phase of the replicated commands updates them. */
module RemoveWin {
  import opened VectorClock
  import opened Options

  /** `rze` with its `reh` header; `score` is the entry of the visible sorted set. */
  datatype Element = Element(pid: int, current: Clock, innate: real, acquired: real, score: Option<real>)

  /** Broadcast operations, with the stamp the prepare phase attached. */
  datatype Op =
    | Add(t: Stamp, value: real)
    | IncrBy(t: Stamp, value: real)
    | Rem(t: Stamp)

  predicate Exists(e: Element) { e.pid >= 0 }

  predicate Ahead(t: Clock, e: Element)
    requires |t| == |e.current|
  {
    !Leq(t, e.current)
  }

  function Init(n: nat): Element {
    Element(-1, Zero(n), 0.0, 0.0, None)
  }

  function RemoveFunc(e: Element, t: Clock): (r: Element)
    requires |t| == |e.current|
    ensures r.current == Join(e.current, t)
    ensures Ahead(t, e) ==> !Exists(r)
  {
    JoinAbsorbs(e.current, t);
    if Ahead(t, e) then Element(-1, Join(e.current, t), 0.0, 0.0, None) else e
  }

  predicate Fits(op: Op, n: nat) { |op.t.vector| == n && op.t.id >= 0 }

  function Apply(e: Element, op: Op): (r: Element)
    requires Fits(op, |e.current|)
    ensures r.current == Join(e.current, op.t.vector)
  {
    var f := RemoveFunc(e, op.t.vector);
    match op
    case Rem(_) => f
    case Add(t, v) =>
      if t.vector == f.current && f.pid < t.id
      then f.(pid := t.id, innate := v, score := Some(v + f.acquired))
      else f
    case IncrBy(t, v) =>
      if t.vector == f.current
      then f.(acquired := f.acquired + v, score := Some(f.innate + f.acquired + v))
      else f
  }

  /** Two insertions by one replica under one clock are the same insertion. */
  predicate Compatible(a: Op, b: Op) {
    a.Add? && b.Add? && a.t == b.t ==> a.value == b.value
  }

  // -------- Apply as: raise the clock, then act --------

  /** Raise the clock to `j`; a clock that moves takes the content with it. */
  function Lift(e: Element, j: Clock): (r: Element)
    ensures r.current == j
  {
    if j == e.current then e else Element(-1, j, 0.0, 0.0, None)
  }

  /** What an operation does once the clock is at least its own. */
  function Act(e: Element, op: Op): (r: Element)
    ensures r.current == e.current
    ensures op.t.vector != e.current ==> r == e
  {
    match op
    case Rem(_) => e
    case Add(t, v) =>
      if t.vector == e.current && e.pid < t.id
      then e.(pid := t.id, innate := v, score := Some(v + e.acquired))
      else e
    case IncrBy(t, v) =>
      if t.vector == e.current
      then e.(acquired := e.acquired + v, score := Some(e.innate + e.acquired + v))
      else e
  }

  lemma ApplyIsLiftThenAct(e: Element, op: Op)
    requires Fits(op, |e.current|)
    ensures Apply(e, op) == Act(Lift(e, Join(e.current, op.t.vector)), op)
  {
    JoinAbsorbs(e.current, op.t.vector);
  }

  lemma ActCommutes(e: Element, a: Op, b: Op)
    requires Compatible(a, b)
    ensures Act(Act(e, a), b) == Act(Act(e, b), a)
  {}

  /** Acting before the clock is raised further is the same as acting after. */
  lemma LiftAfterAct(e: Element, a: Op, j: Clock)
    requires Fits(a, |e.current|) && |j| == |e.current|
    requires Leq(Join(e.current, a.t.vector), j)
    ensures Lift(Apply(e, a), j) == Act(Lift(e, j), a)
  {
    var c1 := Join(e.current, a.t.vector);
    ApplyIsLiftThenAct(e, a);
    if c1 != j {
      if a.t.vector == j || e.current == j { LeqAntisymmetric(c1, j); }
    }
  }

  lemma TwoSteps(e: Element, a: Op, b: Op)
    requires Fits(a, |e.current|) && Fits(b, |e.current|)
    ensures Apply(Apply(e, a), b)
         == Act(Act(Lift(e, Join(Join(e.current, a.t.vector), b.t.vector)), a), b)
  {
    var j := Join(Join(e.current, a.t.vector), b.t.vector);
    ApplyIsLiftThenAct(Apply(e, a), b);
    LiftAfterAct(e, a, j);
  }

  /** Any two operations commute on any element: no causal order is needed. */
  lemma Commute(e: Element, a: Op, b: Op)
    requires Fits(a, |e.current|) && Fits(b, |e.current|)
    requires Compatible(a, b)
    ensures Apply(Apply(e, a), b) == Apply(Apply(e, b), a)
  {
    JoinCommutes(e.current, a.t.vector, b.t.vector);
    TwoSteps(e, a, b);
    TwoSteps(e, b, a);
    ActCommutes(Lift(e, Join(Join(e.current, a.t.vector), b.t.vector)), a, b);
  }

  // -------- Whole delivery sequences --------

  predicate AllFit(ops: seq<Op>, n: nat) {
    forall i :: 0 <= i < |ops| ==> Fits(ops[i], n)
  }

  predicate AllCompatible(ops: seq<Op>) {
    forall a, b :: a in ops && b in ops ==> Compatible(a, b)
  }

  function Run(e: Element, ops: seq<Op>): (r: Element)
    requires AllFit(ops, |e.current|)
    ensures |r.current| == |e.current|
  {
    if ops == [] then e
    else Apply(Run(e, ops[..|ops| - 1]), ops[|ops| - 1])
  }

  lemma RunSnoc(e: Element, ops: seq<Op>, op: Op)
    requires AllFit(ops, |e.current|) && Fits(op, |e.current|)
    ensures AllFit(ops + [op], |e.current|)
    ensures Run(e, ops + [op]) == Apply(Run(e, ops), op)
  {
    assert (ops + [op])[..|ops|] == ops;
  }

  /** An operation delivered early could as well have been delivered last. */
  lemma {:induction false} MoveToEnd(e: Element, u: seq<Op>, x: Op, v: seq<Op>)
    requires AllFit(u, |e.current|) && AllFit(v, |e.current|) && Fits(x, |e.current|)
    requires AllCompatible(u + [x] + v)
    ensures AllFit(u + [x] + v, |e.current|) && AllFit(u + v, |e.current|)
    ensures Run(e, u + [x] + v) == Apply(Run(e, u + v), x)
    decreases |v|
  {
    if v == [] {
      assert u + [x] + v == u + [x] && u + v == u;
      RunSnoc(e, u, x);
    } else {
      var w, y := v[..|v| - 1], v[|v| - 1];
      assert v == w + [y];
      assert u + [x] + v == (u + [x] + w) + [y] && u + v == (u + w) + [y];
      assert forall a :: a in u + [x] + w ==> a in u + [x] + v;
      MoveToEnd(e, u, x, w);
      RunSnoc(e, u + [x] + w, y);
      RunSnoc(e, u + w, y);
      assert x in u + [x] + v && y in u + [x] + v;
      Commute(Run(e, u + w), x, y);
    }
  }

  /** The last operation of one order, found in the other. */
  lemma SplitAt<T>(p: seq<T>, x: T, s': seq<T>) returns (u: seq<T>, v: seq<T>)
    requires multiset(p + [x]) == multiset(s')
    ensures s' == u + [x] + v && multiset(u + v) == multiset(p)
    ensures |u + v| == |p|
    ensures forall a :: a in s' ==> a in p + [x]
  {
    var m := multiset(p + [x]);
    assert x in m;
    var i :| 0 <= i < |s'| && s'[i] == x;
    u, v := s'[..i], s'[i + 1..];
    assert s' == u + [x] + v;
    assert m == multiset(p) + multiset{x};
    assert multiset(s') == multiset(u) + multiset{x} + multiset(v);
    assert multiset(u + v) == multiset(u) + multiset(v);
    assert multiset(u + v) == multiset(s') - multiset{x};
    assert multiset(p) == m - multiset{x};
    assert |multiset(u + v)| == |multiset(p)|;
    forall a | a in s' ensures a in p + [x] { assert a in multiset(s'); }
  }

  /** Strong convergence of one element: the same operations delivered in any
      two orders leave the same clock, id, values and visible score. */
  lemma {:induction false} OrderIrrelevant(e: Element, s: seq<Op>, s': seq<Op>)
    requires AllFit(s, |e.current|) && AllFit(s', |e.current|)
    requires AllCompatible(s)
    requires multiset(s) == multiset(s')
    ensures Run(e, s) == Run(e, s')
    decreases |s|
  {
    if s == [] {
      assert |multiset(s')| == 0;
    } else {
      var p, x := s[..|s| - 1], s[|s| - 1];
      assert s == p + [x];
      var u, v := SplitAt(p, x, s');
      assert AllFit(u, |e.current|) by { assert forall i :: 0 <= i < |u| ==> u[i] == s'[i]; }
      assert AllFit(v, |e.current|) by { assert forall i :: 0 <= i < |v| ==> v[i] == s'[|u| + 1 + i]; }
      MoveToEnd(e, u, x, v);
      OrderIrrelevant(e, p, u + v);
    }
  }

  // -------- What the final element is, without replaying it --------

  function JoinAll(n: nat, ops: seq<Op>): (j: Clock)
    requires AllFit(ops, n)
    ensures |j| == n
  {
    if ops == [] then Zero(n) else Join(JoinAll(n, ops[..|ops| - 1]), ops[|ops| - 1].t.vector)
  }

  function SumIncr(ops: seq<Op>, j: Clock): real {
    if ops == [] then 0.0
    else
      var op := ops[|ops| - 1];
      SumIncr(ops[..|ops| - 1], j) + if op.IncrBy? && op.t.vector == j then op.value else 0.0
  }

  predicate Current(op: Op, j: Clock) { op.t.vector == j && !op.Rem? }

  predicate DescribesId(e: Element, ops: seq<Op>) {
    && (forall op :: op in ops && op.Add? && op.t.vector == e.current ==> op.t.id <= e.pid)
    && (if e.pid == -1 then e.innate == 0.0
        else e.pid >= 0 && Add(Stamp(e.current, e.pid), e.innate) in ops)
  }

  predicate DescribesScore(e: Element, ops: seq<Op>) {
    e.score == if exists op :: op in ops && Current(op, e.current)
               then Some(e.innate + e.acquired) else None
  }

  /** `current` is the join of everything delivered; `pid` the greatest id among
      insertions stamped with exactly that join; `innate` that insertion's value;
      `acquired` the sum of the increments stamped with it; and the element is
      visible iff an insertion or an increment is stamped with it. */
  predicate Describes(e: Element, n: nat, ops: seq<Op>)
    requires AllFit(ops, n)
  {
    && e.current == JoinAll(n, ops)
    && DescribesId(e, ops)
    && e.acquired == SumIncr(ops, e.current)
    && DescribesScore(e, ops)
  }

  lemma {:induction false} SumIncrAbove(n: nat, ops: seq<Op>, j: Clock)
    requires AllFit(ops, n) && |j| == n
    requires !Leq(j, JoinAll(n, ops))
    ensures SumIncr(ops, j) == 0.0
    ensures forall op :: op in ops ==> op.t.vector != j
  {
    if ops != [] {
      var p, x := ops[..|ops| - 1], ops[|ops| - 1];
      assert ops == p + [x];
      if Leq(j, JoinAll(n, p)) { LeqTransitive(j, JoinAll(n, p), JoinAll(n, ops)); }
      SumIncrAbove(n, p, j);
    }
  }

  lemma {:induction false} RunDescribed(n: nat, ops: seq<Op>)
    requires AllFit(ops, n)
    ensures Describes(Run(Init(n), ops), n, ops)
  {
    if ops != [] {
      var p, x := ops[..|ops| - 1], ops[|ops| - 1];
      assert ops == p + [x];
      RunDescribed(n, p);
      StepDescribed(n, p, x, Run(Init(n), p));
    }
  }

  lemma StepDescribed(n: nat, p: seq<Op>, x: Op, e: Element)
    requires AllFit(p, n) && Fits(x, n) && |e.current| == n
    requires Describes(e, n, p)
    ensures AllFit(p + [x], n) && Describes(Apply(e, x), n, p + [x])
  {
    var ops, r := p + [x], Apply(e, x);
    assert ops[..|ops| - 1] == p;
    assert forall op :: op in ops <==> op in p || op == x;
    if Ahead(x.t.vector, e) {
      JoinAbsorbs(e.current, x.t.vector);
      LeqAntisymmetricContra(e.current, r.current);
      SumIncrAbove(n, p, r.current);
      FreshDescribed(p, x, e);
    } else {
      JoinAbsorbs(e.current, x.t.vector);
      KeptDescribed(p, x, e);
    }
  }

  lemma FreshDescribed(p: seq<Op>, x: Op, e: Element)
    requires Fits(x, |e.current|) && Ahead(x.t.vector, e)
    requires forall op :: op in p ==> op.t.vector != Apply(e, x).current
    ensures DescribesId(Apply(e, x), p + [x]) && DescribesScore(Apply(e, x), p + [x])
  {
    var ops, r := p + [x], Apply(e, x);
    assert forall op :: op in ops <==> op in p || op == x;
    assert r == Act(Lift(e, r.current), x) by {
      ApplyIsLiftThenAct(e, x);
      LeqAntisymmetricContra(e.current, r.current);
    }
    if Current(x, r.current) { assert x in ops && Current(x, r.current); }
  }

  lemma KeptDescribed(p: seq<Op>, x: Op, e: Element)
    requires Fits(x, |e.current|) && !Ahead(x.t.vector, e)
    requires DescribesId(e, p) && DescribesScore(e, p)
    ensures DescribesId(Apply(e, x), p + [x]) && DescribesScore(Apply(e, x), p + [x])
  {
    var ops, r := p + [x], Apply(e, x);
    assert forall op :: op in ops <==> op in p || op == x;
    assert r == Act(e, x);
    if Current(x, e.current) { assert x in ops && Current(x, r.current); }
    if op :| op in p && Current(op, e.current) { assert op in ops && Current(op, r.current); }
  }

  lemma LeqAntisymmetricContra(a: Clock, b: Clock)
    requires |a| == |b| && Leq(a, b) && a != b
    ensures !Leq(b, a)
  {
    if Leq(b, a) { LeqAntisymmetric(a, b); }
  }

  // -------- Duplicates: the header depends only on the set of operations --------

  lemma {:induction false} JoinAllIsLeastUpperBound(n: nat, ops: seq<Op>, u: Clock)
    requires AllFit(ops, n) && |u| == n
    ensures Leq(JoinAll(n, ops), u) <==>
            Leq(Zero(n), u) && forall op :: op in ops ==> |op.t.vector| == n && Leq(op.t.vector, u)
  {
    if ops != [] {
      var p, x := ops[..|ops| - 1], ops[|ops| - 1];
      assert ops == p + [x];
      JoinAllIsLeastUpperBound(n, p, u);
      JoinIsLeast(JoinAll(n, p), x.t.vector, u);
      assert forall op :: op in ops <==> op in p || op == x;
    }
  }

  lemma JoinAllBySet(n: nat, s: seq<Op>, s': seq<Op>)
    requires AllFit(s, n) && AllFit(s', n)
    requires forall op :: op in s <==> op in s'
    ensures JoinAll(n, s) == JoinAll(n, s')
  {
    var j, j' := JoinAll(n, s), JoinAll(n, s');
    JoinAllIsLeastUpperBound(n, s, j);
    JoinAllIsLeastUpperBound(n, s', j');
    JoinAllIsLeastUpperBound(n, s, j');
    JoinAllIsLeastUpperBound(n, s', j);
    LeqAntisymmetric(j, j');
  }

  lemma IdBySet(e: Element, e': Element, s: seq<Op>, s': seq<Op>)
    requires AllCompatible(s) && forall op :: op in s <==> op in s'
    requires e.current == e'.current && DescribesId(e, s) && DescribesId(e', s')
    ensures e.pid == e'.pid && e.innate == e'.innate
  {
    var a, a' := Add(Stamp(e.current, e.pid), e.innate), Add(Stamp(e.current, e'.pid), e'.innate);
    if a in s && a' in s { assert Compatible(a, a'); }
  }

  /** With duplicates and in any order, `current`, `pid` and `innate` are fixed
      by which operations were delivered at least once. */
  lemma SetDeterminesHeader(n: nat, s: seq<Op>, s': seq<Op>)
    requires AllFit(s, n) && AllFit(s', n) && AllCompatible(s)
    requires forall op :: op in s <==> op in s'
    ensures var e, e' := Run(Init(n), s), Run(Init(n), s');
            e.current == e'.current && e.pid == e'.pid && e.innate == e'.innate
  {
    RunDescribed(n, s);
    RunDescribed(n, s');
    JoinAllBySet(n, s, s');
    IdBySet(Run(Init(n), s), Run(Init(n), s'), s, s');
  }

  /** The element exists iff some delivered insertion carries the join of every
      delivered clock; one that misses a delivered remove cannot keep it. */
  lemma ExistsIff(n: nat, ops: seq<Op>)
    requires AllFit(ops, n)
    ensures var e := Run(Init(n), ops);
            Exists(e) <==> exists op :: op in ops && op.Add? && op.t.vector == e.current
    ensures Exists(Run(Init(n), ops)) ==>
            exists op :: op in ops && op.Add? && forall r :: r in ops ==>
              |r.t.vector| == |op.t.vector| && Leq(r.t.vector, op.t.vector)
  {
    RunDescribed(n, ops);
    var e := Run(Init(n), ops);
    if Exists(e) {
      var a := Add(Stamp(e.current, e.pid), e.innate);
      assert a in ops && a.Add? && a.t.vector == e.current;
      JoinAllIsLeastUpperBound(n, ops, e.current);
    }
  }

  /** Being in the visible sorted set and existing differ exactly when an
      increment arrived under the current clock and no insertion did. */
  lemma VisibleIff(n: nat, ops: seq<Op>)
    requires AllFit(ops, n)
    ensures var e := Run(Init(n), ops);
            (e.score.Some? <==> Exists(e)) <==>
            ((exists op :: op in ops && op.IncrBy? && op.t.vector == e.current) ==>
             (exists op :: op in ops && op.Add? && op.t.vector == e.current))
  {
    RunDescribed(n, ops);
    ExistsIff(n, ops);
    var e := Run(Init(n), ops);
    if op :| op in ops && Current(op, e.current) { assert op.Add? || op.IncrBy?; }
    if op :| op in ops && op.IncrBy? && op.t.vector == e.current { assert Current(op, e.current); }
    if op :| op in ops && op.Add? && op.t.vector == e.current { assert Current(op, e.current); }
  }

  /** An increment at the initial clock shows a score on an element that does not
      exist. */
  lemma LoneIncrement(n: nat, p: nat, w: real)
    ensures Apply(Init(n), IncrBy(Stamp(Zero(n), p), w)) == Element(-1, Zero(n), 0.0, w, Some(w))
  {
    JoinAbsorbs(Zero(n), Zero(n));
  }

  lemma FirstInsertion(n: nat, p: nat, v: real)
    ensures Apply(Init(n), Add(Stamp(Zero(n), p), v)) == Element(p, Zero(n), v, 0.0, Some(v))
  {
    JoinAbsorbs(Zero(n), Zero(n));
  }

  // -------- The element as the server keeps it: updated in place --------

  class RwElement {
    var pid: int
    const current: array<int>
    var innate: real
    var acquired: real
    var score: Option<real>

    ghost function View(): Element
      reads this, current
    {
      Element(pid, current[..], innate, acquired, score)
    }

    constructor (n: nat)
      ensures View() == Init(n) && fresh(current)
    {
      var c := new int[n](i => 0);
      current := c;
      pid, innate, acquired, score := -1, 0.0, 0.0, None;
      new;
      assert current[..] == Zero(n);
    }

    /** `removeFunc` over `removeCheck` and `REH_RMV_FUNC`. */
    method Remove(t: Clock)
      requires |t| == current.Length
      modifies this, current
      ensures View() == RemoveFunc(old(View()), t)
    {
      var ahead := RemoveCheck(current, t);
      if ahead {
        UpdateVC(current, t);
        pid, innate, acquired, score := -1, 0.0, 0.0, None;
      }
    }

    /** The effect phase of `rzadd`. */
    method EffectAdd(t: Stamp, value: real)
      requires Fits(Add(t, value), current.Length)
      modifies this, current
      ensures View() == Apply(old(View()), Add(t, value))
    {
      Remove(t.vector);
      var same := EqualVC(current, t.vector);
      if same && pid < t.id {
        pid, innate := t.id, value;
        score := Some(innate + acquired);
      }
    }

    /** The effect phase of `rzincrby`. */
    method EffectIncrBy(t: Stamp, value: real)
      requires Fits(IncrBy(t, value), current.Length)
      modifies this, current
      ensures View() == Apply(old(View()), IncrBy(t, value))
    {
      Remove(t.vector);
      var same := EqualVC(current, t.vector);
      if same {
        acquired := acquired + value;
        score := Some(innate + acquired);
      }
    }

    /** The effect phase of `rzrem`. */
    method EffectRem(t: Stamp)
      requires Fits(Rem(t), current.Length)
      modifies this, current
      ensures View() == Apply(old(View()), Rem(t))
    {
      Remove(t.vector);
    }
  }
}
