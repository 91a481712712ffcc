/** What moves do to the shape of the tree: when they leave it without cycles, and
    when replicas agree on it. */
module RwTreeShape {
  import opened VectorClock
  import opened RwTree
  import opened Options

  // -------- Climbing --------

  /** The parents of the nodes that exist. */
  function Links(t: Tree): map<Id, Id> {
    map id | id in t.nodes && Exists(t.nodes[id]) && t.nodes[id].parent.Below? :: t.nodes[id].parent.id
  }

  /** The k-th ancestor. */
  function Up(m: map<Id, Id>, id: Id, k: nat): Option<Id>
    decreases k
  {
    if k == 0 then Some(id) else if id in m then Up(m, m[id], k - 1) else None
  }

  ghost predicate Acyclic(m: map<Id, Id>) { forall id: Id, k: nat :: k > 0 ==> Up(m, id, k) != Some(id) }

  ghost predicate Under(m: map<Id, Id>, low: Id, high: Id) { exists k: nat :: Up(m, low, k) == Some(high) }

  lemma {:induction false} UpAdd(m: map<Id, Id>, id: Id, i: nat, j: nat)
    ensures Up(m, id, i + j) == (if Up(m, id, i) == None then None else Up(m, Up(m, id, i).value, j))
    decreases i
  {
    if i > 0 && id in m { UpAdd(m, m[id], i - 1, j); }
  }

  /** The first k nodes of the climb avoid s. */
  ghost predicate Avoids(m: map<Id, Id>, id: Id, k: nat, s: Id) { forall j :: 0 <= j < k ==> Up(m, id, j) != Some(s) }

  ghost predicate SameBut(m: map<Id, Id>, m': map<Id, Id>, s: Id) {
    forall x :: x != s && (x in m || x in m') ==> x in m && x in m' && m[x] == m'[x]
  }

  lemma {:induction false} SamePath(m: map<Id, Id>, m': map<Id, Id>, s: Id, id: Id, k: nat)
    requires SameBut(m, m', s) && Avoids(m, id, k, s)
    ensures Up(m', id, k) == Up(m, id, k)
    decreases k
  {
    if k > 0 {
      assert Up(m, id, 0) != Some(s);
      if id in m {
        forall j | 0 <= j < k - 1 ensures Up(m, m[id], j) != Some(s) { assert Up(m, id, j + 1) != Some(s); }
        SamePath(m, m', s, m[id], k - 1);
      }
    }
  }

  lemma {:induction false} FirstVisit(m: map<Id, Id>, id: Id, k: nat, s: Id) returns (i: nat)
    requires Up(m, id, k) == Some(s)
    ensures i <= k && Up(m, id, i) == Some(s) && Avoids(m, id, i, s)
  {
    if j :| 0 <= j < k && Up(m, id, j) == Some(s) { i := FirstVisit(m, id, j, s); } else { i := k; }
  }

  lemma CycleThrough(m: map<Id, Id>, id: Id, j: nat, d: nat, s: Id)
    requires Up(m, id, j + d) == Some(id) && Up(m, id, j) == Some(s)
    ensures Up(m, s, d + j) == Some(s)
  {
    UpAdd(m, id, j, d);
    UpAdd(m, s, d, j);
  }

  /** A cycle after the change means the new parent was below the node. */
  lemma NewCycle(m: map<Id, Id>, src: Id, dst: Id, id: Id, k: nat)
    requires Acyclic(m) && k > 0 && Up(m[src := dst], id, k) == Some(id)
    ensures Under(m, dst, src)
  {
    var m' := m[src := dst];
    if Avoids(m', id, k, src) {
      SamePath(m', m, src, id, k);
    } else {
      var j :| 0 <= j < k && Up(m', id, j) == Some(src);
      CycleThrough(m', id, j, k - j, src);
      assert Up(m', dst, k - 1) == Some(src);
      var i := FirstVisit(m', dst, k - 1, src);
      SamePath(m', m, src, dst, i);
    }
  }

  /** Putting a node under another keeps the tree free of cycles exactly when the
      new parent is not below the node. */
  lemma AcyclicIff(m: map<Id, Id>, src: Id, dst: Id)
    requires Acyclic(m)
    ensures Acyclic(m[src := dst]) <==> !Under(m, dst, src)
  {
    var m' := m[src := dst];
    if Under(m, dst, src) {
      var k: nat :| Up(m, dst, k) == Some(src);
      var i := FirstVisit(m, dst, k, src);
      SamePath(m, m', src, dst, i);
      assert Up(m', src, i + 1) == Up(m', dst, i) == Some(src);
    } else {
      forall id: Id, k: nat | k > 0 ensures Up(m', id, k) != Some(id) {
        if Up(m', id, k) == Some(id) { NewCycle(m, src, dst, id, k); }
      }
    }
  }

  // -------- A move at a replica --------

  lemma RelinkLinks(t: Tree, id: Id, to: Id)
    requires Shaped(t) && At(t, id).known
    ensures Links(Relink(t, id, to)) == if Exists(At(t, id)) then Links(t)[id := to] else Links(t)
  {
    var u := Relink(t, id, to);
    var m := if Exists(At(t, id)) then Links(t)[id := to] else Links(t);
    forall j ensures j in Links(u) <==> j in m { assert Header(At(u, j)) == Header(At(t, j)); }
    forall j | j in Links(u) ensures Links(u)[j] == m[j] {
      assert j != id ==> At(u, j).parent == At(t, j).parent;
    }
  }

  lemma MovesLinks(t: Tree, id: Id, c: Clock)
    requires Shaped(t) && |c| == t.n
    ensures Links(Put(t, id, At(t, id).(moves := c))) == Links(t)
  {}

  /** The move takes place at this replica, on a node that exists here. */
  predicate Lands(t: Tree, op: Op)
    requires Shaped(t) && op.Move? && Fits(op, t.n)
  {
    var x := At(Cleared(t, op), op.id);
    Takes(x, op) && Exists(x)
  }

  lemma MoveLinks(t: Tree, op: Op)
    requires Shaped(t) && op.Move? && Fits(op, t.n) && !Fatal(t, op)
    ensures var m := Links(Cleared(t, op)); Links(EffectMove(t, op)) == if Lands(t, op) then m[op.id := op.to] else m
  {
    var u := Cleared(t, op);
    if Takes(At(u, op.id), op) {
      RelinkLinks(u, op.id, op.to);
      var w := Relink(u, op.id, op.to);
      MovesLinks(w, op.id, Join(At(w, op.id).moves, op.v.vector));
    } else {
      MovesLinks(u, op.id, Join(At(u, op.id).moves, op.v.vector));
    }
  }

  /** A move delivered to a replica leaves the tree there without cycles exactly
      unless it takes place and its target is below the moved node there. */
  lemma MoveKeepsAcyclicIff(t: Tree, op: Op)
    requires Shaped(t) && op.Move? && Fits(op, t.n) && !Fatal(t, op) && Acyclic(Links(t))
    ensures Acyclic(Links(EffectMove(t, op))) <==> !(Lands(t, op) && Under(Links(Cleared(t, op)), op.to, op.id))
  {
    RemoveKeepsAcyclic(t, op.to, op.rto);
    RemoveKeepsAcyclic(RemoveNode(t, op.to, op.rto), op.id, op.r.vector);
    MoveLinks(t, op);
    AcyclicIff(Links(Cleared(t, op)), op.id, op.to);
  }

  /** The operation removes nothing here: this replica has seen every remove its
      origin had. */
  predicate UpToDate(t: Tree, op: Op)
    requires Shaped(t) && op.Move? && Fits(op, t.n)
  {
    Leq(op.rto, At(t, op.to).current) && Leq(op.r.vector, At(t, op.id).current)
  }

  lemma UpToDateClear(t: Tree, op: Op)
    requires Shaped(t) && op.Move? && Fits(op, t.n) && UpToDate(t, op)
    ensures Cleared(t, op) == t && (At(t, op.id).known ==> !Fatal(t, op))
  {}

  // -------- The check before a move --------

  /** Every node is among the children of its parent. */
  predicate Listed(t: Tree)
    requires Shaped(t)
  {
    forall id :: id in Links(t) ==> id in At(t, Links(t)[id]).children
  }

  /** What `subTree` collects from src, k levels down. */
  ghost predicate Collected(t: Tree, src: Id, x: Id, k: nat)
    requires Shaped(t)
    decreases k
  {
    Exists(At(t, x)) && if k == 0 then x == src else exists y :: Collected(t, src, y, k - 1) && x in At(t, y).children
  }

  lemma {:induction false} UnderIsCollected(t: Tree, low: Id, src: Id, k: nat)
    requires Shaped(t) && Listed(t) && Exists(At(t, src)) && Up(Links(t), low, k) == Some(src)
    ensures Collected(t, src, low, k)
    decreases k
  {
    if k > 0 {
      UnderIsCollected(t, Links(t)[low], src, k - 1);
      assert Collected(t, src, Links(t)[low], k - 1) && low in At(t, Links(t)[low]).children;
    }
  }

  /** The check a replica makes before it issues a move keeps its own tree free of
      cycles. */
  lemma OwnMoveKeepsAcyclic(t: Tree, op: Op)
    requires Shaped(t) && Listed(t) && Acyclic(Links(t))
    requires op.Move? && Fits(op, t.n) && UpToDate(t, op) && Exists(At(t, op.id))
    requires forall k: nat :: !Collected(t, op.id, op.to, k)
    ensures !Fatal(t, op) && Acyclic(Links(EffectMove(t, op)))
  {
    UpToDateClear(t, op);
    MoveKeepsAcyclicIff(t, op);
    if Under(Links(t), op.to, op.id) {
      var k: nat :| Up(Links(t), op.to, k) == Some(op.id);
      UnderIsCollected(t, op.to, op.id, k);
    }
  }

  // -------- Deletions and insertions --------

  lemma {:induction false} SubmapUp(m: map<Id, Id>, m': map<Id, Id>, id: Id, k: nat)
    requires (forall x :: x in m' ==> x in m && m[x] == m'[x]) && Up(m', id, k).Some?
    ensures Up(m, id, k) == Up(m', id, k)
    decreases k
  {
    if k > 0 { SubmapUp(m, m', m'[id], k - 1); }
  }

  lemma RemoveLinks(t: Tree, id: Id, c: Clock, x: Id)
    requires Shaped(t) && |c| == t.n && x in Links(RemoveNode(t, id, c))
    ensures x in Links(t) && Links(t)[x] == Links(RemoveNode(t, id, c))[x]
  {
    assert x == id || Header(At(RemoveNode(t, id, c), x)) == Header(At(t, x));
  }

  lemma RemoveKeepsAcyclic(t: Tree, id: Id, c: Clock)
    requires Shaped(t) && |c| == t.n && Acyclic(Links(t))
    ensures Acyclic(Links(RemoveNode(t, id, c)))
  {
    var m, m' := Links(t), Links(RemoveNode(t, id, c));
    forall x | x in m' ensures x in m && m[x] == m'[x] { RemoveLinks(t, id, c, x); }
    forall x: Id, k: nat | k > 0 ensures Up(m', x, k) != Some(x) {
      if Up(m', x, k).Some? { SubmapUp(m, m', x, k); }
    }
  }

  lemma MemberNotUnder(m: map<Id, Id>, high: Id, id: Id)
    requires ROOT !in m && Under(m, high, ROOT) && !Under(m, id, ROOT)
    ensures !Under(m, high, id)
  {
    var j: nat :| Up(m, high, j) == Some(ROOT);
    forall k: nat ensures Up(m, high, k) != Some(id) {
      assert Up(m, id, 0) == Some(id);
      if k <= j { UpAdd(m, high, k, j - k); } else { UpAdd(m, high, j, k - j); }
    }
  }

  /** Where an insertion brings no news, its effect is to hang the node and to
      settle who owns it. */
  lemma QuietInsert(t: Tree, op: Op)
    requires Shaped(t) && op.Insert? && Fits(op, t.n)
    requires Leq(op.rp, At(t, op.under).current) && Leq(op.r.vector, At(t, op.id).current)
    ensures EffectInsert(t, op) == Own(Hang(t, op), op.id, op.r)
  {
    var u := Hang(t, op);
    assert Header(At(u, op.under)) == Header(At(t, op.under)) && Header(At(u, op.id)) == Header(At(t, op.id));
  }

  lemma OwnLinks(t: Tree, id: Id, r: Stamp)
    requires Shaped(t) && StampFits(r, t.n) && At(t, id).parent.Below? && r.vector == At(t, id).current
    ensures Links(Own(t, id, r)) == Links(t)[id := At(t, id).parent.id]
  {
    var u, m := Own(t, id, r), Links(t)[id := At(t, id).parent.id];
    assert Exists(At(u, id));
    forall j ensures j in Links(u) <==> j in m { assert At(u, j) == At(t, j).(pid := At(u, j).pid); }
  }

  lemma HangLinks(t: Tree, op: Op, j: Id)
    requires Shaped(t) && op.Insert? && j != op.id
    ensures j in Links(Hang(t, op)) <==> j in Links(t)
    ensures j in Links(t) ==> Links(Hang(t, op))[j] == Links(t)[j]
  {
    assert Header(At(Hang(t, op), j)) == Header(At(t, j));
  }

  lemma InsertLinks(t: Tree, op: Op)
    requires Shaped(t) && op.Insert? && Fits(op, t.n)
    requires Leq(op.rp, At(t, op.under).current) && op.r.vector == At(t, op.id).current
    ensures Links(EffectInsert(t, op)) == Links(t)[op.id := op.under]
  {
    QuietInsert(t, op);
    var u := Hang(t, op);
    OwnLinks(u, op.id, op.r);
    var m, m' := Links(t)[op.id := op.under], Links(u)[op.id := op.under];
    forall j ensures j in m <==> j in m' { if j != op.id { HangLinks(t, op, j); } }
    forall j | j in m ensures m[j] == m'[j] { if j != op.id { HangLinks(t, op, j); } }
  }

  /** The check before an insertion, that the parent is a member and the node is
      not, keeps the replica's own tree free of cycles. */
  lemma OwnInsertKeepsAcyclic(t: Tree, op: Op)
    requires Shaped(t) && Acyclic(Links(t)) && ROOT !in Links(t)
    requires op.Insert? && Fits(op, t.n) && Leq(op.rp, At(t, op.under).current) && op.r.vector == At(t, op.id).current
    requires Under(Links(t), op.under, ROOT) && !Under(Links(t), op.id, ROOT)
    ensures Acyclic(Links(EffectInsert(t, op)))
  {
    InsertLinks(t, op);
    MemberNotUnder(Links(t), op.under, op.id);
    AcyclicIff(Links(t), op.id, op.under);
  }

  // -------- Every effect keeps children listed --------

  predicate ListedAt(t: Tree, id: Id)
    requires Shaped(t)
  {
    var x := At(t, id);
    Exists(x) && x.parent.Below? ==> id in At(t, x.parent.id).children
  }

  lemma ListedIff(t: Tree)
    requires Shaped(t)
    ensures Listed(t) <==> forall id :: ListedAt(t, id)
  {
    if Listed(t) {
      forall id ensures ListedAt(t, id) { assert id in Links(t) ==> id in At(t, Links(t)[id]).children; }
    }
    if forall id :: ListedAt(t, id) {
      forall id | id in Links(t) ensures id in At(t, Links(t)[id]).children { assert ListedAt(t, id); }
    }
  }

  lemma RemoveListed(t: Tree, id: Id, c: Clock, j: Id)
    requires Shaped(t) && |c| == t.n && ListedAt(t, j)
    ensures ListedAt(RemoveNode(t, id, c), j)
  {}

  lemma HangListed(t: Tree, op: Op, j: Id)
    requires Shaped(t) && op.Insert? && ListedAt(t, j)
    ensures ListedAt(Hang(t, op), j)
    ensures j == op.id ==> At(Hang(t, op), j).parent == Below(op.under) && j in At(Hang(t, op), op.under).children
  {}

  /** A node without the right link is not owned either way. */
  predicate LinkedOrLoose(t: Tree, id: Id)
    requires Shaped(t)
  {
    var x := At(t, id);
    x.parent.Below? ==> id in At(t, x.parent.id).children
  }

  lemma RemoveLinked(t: Tree, id: Id, c: Clock, j: Id)
    requires Shaped(t) && |c| == t.n && LinkedOrLoose(t, j)
    ensures LinkedOrLoose(RemoveNode(t, id, c), j)
  {}

  lemma InsertListed(t: Tree, op: Op, j: Id)
    requires Shaped(t) && op.Insert? && Fits(op, t.n) && ListedAt(t, j)
    ensures ListedAt(EffectInsert(t, op), j)
  {
    var t2 := Hang(t, op);
    var t3 := RemoveNode(t2, op.under, op.rp);
    HangListed(t, op, j);
    RemoveListed(t2, op.under, op.rp, j);
    RemoveListed(t3, op.id, op.r.vector, j);
    if j == op.id {
      RemoveLinked(t2, op.under, op.rp, j);
      RemoveLinked(t3, op.id, op.r.vector, j);
    }
  }

  lemma RelinkListed(t: Tree, id: Id, to: Id, j: Id)
    requires Shaped(t) && At(t, id).known && ListedAt(t, j)
    ensures ListedAt(Relink(t, id, to), j)
  {}

  lemma ShiftListed(t: Tree, op: Op, j: Id)
    requires Shaped(t) && op.Move? && Fits(op, t.n) && ListedAt(t, j)
    requires (Takes(At(t, op.id), op) ==> At(t, op.id).known)
    ensures ListedAt(Shift(t, op), j)
  {
    if Takes(At(t, op.id), op) { RelinkListed(t, op.id, op.to, j); }
  }

  lemma MoveListed(t: Tree, op: Op, j: Id)
    requires Shaped(t) && op.Move? && Fits(op, t.n) && !Fatal(t, op) && ListedAt(t, j)
    ensures ListedAt(EffectMove(t, op), j)
  {
    var t1 := RemoveNode(t, op.to, op.rto);
    RemoveListed(t, op.to, op.rto, j);
    RemoveListed(t1, op.id, op.r.vector, j);
    ShiftListed(RemoveNode(t1, op.id, op.r.vector), op, j);
  }

  /** Whatever is delivered, and in whatever order, every existing node stays among
      its parent's children, so the check before a move misses nothing. */
  lemma EffectKeepsListed(t: Tree, op: Op)
    requires Shaped(t) && Fits(op, t.n) && !Fatal(t, op) && Listed(t)
    ensures Listed(Effect(t, op))
  {
    ListedIff(t);
    forall j ensures ListedAt(Effect(t, op), j) {
      match op
      case Insert(_, _, _, _, _) => InsertListed(t, op, j);
      case Move(_, _, _, _, _) => MoveListed(t, op, j);
      case Delete(id, r) => RemoveListed(t, id, r.vector, j);
      case Rename(id, _, _, r) => RemoveListed(t, id, r.vector, j);
    }
    ListedIff(Effect(t, op));
  }

  lemma {:induction false} RunKeepsListed(t: Tree, ops: seq<Op>)
    requires Shaped(t) && OpsFit(ops, t.n) && Listed(t)
    ensures Run(t, ops).Some? ==> Listed(Run(t, ops).value)
  {
    if ops != [] && Run(t, ops).Some? {
      RunKeepsListed(t, ops[..|ops| - 1]);
      EffectKeepsListed(Run(t, ops[..|ops| - 1]).value, ops[|ops| - 1]);
    }
  }

  // -------- Membership --------

  /** The climb from a node reaches the root. */
  ghost predicate Member(t: Tree, id: Id) { Under(Links(t), id, ROOT) }

  ghost predicate SeenBy(m: map<Id, Id>, id: Id, k: nat, x: Id) { exists j: nat :: j < k && Up(m, id, j) == Some(x) }

  /** The first k nodes of a climb without cycles are k nodes of the map. */
  lemma {:induction false} ClimbSize(m: map<Id, Id>, id: Id, k: nat) returns (seen: set<Id>)
    requires Acyclic(m) && Up(m, id, k).Some?
    ensures |seen| == k && seen <= m.Keys && forall x :: x in seen ==> SeenBy(m, id, k, x)
  {
    if k == 0 {
      seen := {};
    } else {
      UpAdd(m, id, k - 1, 1);
      var before := ClimbSize(m, id, k - 1);
      var x := Up(m, id, k - 1).value;
      if x in before {
        var j: nat :| j < k - 1 && Up(m, id, j) == Some(x);
        UpAdd(m, id, j, k - 1 - j);
      }
      seen := before + {x};
      forall y | y in seen ensures SeenBy(m, id, k, y) {
        if y in before { assert SeenBy(m, id, k - 1, y); } else { assert Up(m, id, k - 1) == Some(y); }
      }
    }
  }

  lemma ClimbBound(m: map<Id, Id>, id: Id, k: nat)
    requires Acyclic(m) && Up(m, id, k).Some?
    ensures k <= |m.Keys|
  {
    var seen := ClimbSize(m, id, k);
    SubsetSize(seen, m.Keys);
  }

  lemma {:induction false} SubsetSize(a: set<Id>, b: set<Id>)
    requires a <= b
    ensures |a| <= |b|
    decreases a
  {
    if x :| x in a { SubsetSize(a - {x}, b - {x}); }
  }

  lemma StopsShort(m: map<Id, Id>, id: Id, k: nat, e: Id)
    requires Up(m, id, k) == Some(e) && e !in m && e != ROOT && Avoids(m, id, k, ROOT)
    ensures !Under(m, id, ROOT)
  {
    forall j: nat ensures Up(m, id, j) != Some(ROOT) {
      if j > k { UpAdd(m, id, k, j - k); }
    }
  }

  /** `istreeMember`: in a tree without cycles the climb stops, and tells whether
      the root was reached. */
  method IsTreeMember(t: Tree, id: Id) returns (res: bool)
    requires Shaped(t) && Acyclic(Links(t))
    ensures res <==> Member(t, id)
  {
    ghost var m := Links(t);
    var ele := id;
    ghost var k: nat := 0;
    res := true;
    while ele != ROOT
      invariant Up(m, id, k) == Some(ele) && Avoids(m, id, k, ROOT) && k <= |m.Keys|
      decreases |m.Keys| - k
    {
      if !(ele in t.nodes && Exists(t.nodes[ele])) || t.nodes[ele].parent == Detached {
        StopsShort(m, id, k, ele);
        return false;
      }
      UpAdd(m, id, k, 1);
      ele := t.nodes[ele].parent.id;
      k := k + 1;
      ClimbBound(m, id, k);
    }
  }

  /** Around a cycle that misses the root the climb never stops. */
  lemma {:induction false} CycleNeverStops(m: map<Id, Id>, id: Id, k: nat, n: nat)
    requires k > 0 && Up(m, id, k) == Some(id) && Avoids(m, id, k, ROOT)
    ensures Up(m, id, n).Some? && Up(m, id, n) != Some(ROOT)
    decreases n
  {
    if n < k {
      UpAdd(m, id, n, k - n);
    } else {
      UpAdd(m, id, k, n - k);
      CycleNeverStops(m, id, k, n - k);
    }
  }
}
