/** A replica's tree as the commands' effect phase changes it in place. */
module RwTreeReplica {
  import opened VectorClock
  import opened Options
  import opened RwTree

  /** `causally_ready`. */
  method CausallyReady(current: Clock, next: Stamp) returns (ready: bool)
    requires StampFits(next, |current|)
    ensures ready <==> Ready(current, next)
  {
    var o, i := next.id, 0;
    while i < |current|
      invariant 0 <= i <= |current|
      invariant forall k :: 0 <= k < i && k != o ==> next.vector[k] <= current[k]
    {
      if i != o && next.vector[i] > current[i] { return false; }
      i := i + 1;
    }
    ready := next.vector[o] == current[o] + 1;
  }

  /** `checkCurrency`. */
  method CheckCurrency(a: Clock, b: Clock) returns (concurrent: bool)
    requires |a| == |b|
    ensures concurrent <==> Concurrent(a, b)
  {
    if a == b { return false; }
    var flag1, flag2, i := false, false, 0;
    while i < |a|
      invariant 0 <= i <= |a|
      invariant flag1 <==> exists k :: 0 <= k < i && a[k] > b[k]
      invariant flag2 <==> exists k :: 0 <= k < i && a[k] < b[k]
    {
      if a[i] > b[i] { flag1 := true; } else if a[i] < b[i] { flag2 := true; }
      i := i + 1;
    }
    concurrent := flag1 && flag2;
  }

  /** `currentCompare`. */
  method CurrentCompare(a: Clock, b: Clock) returns (sign: int)
    requires |a| == |b|
    ensures (sign < 0 <==> LexLess(a, b)) && (sign > 0 <==> LexLess(b, a)) && (sign == 0 <==> a == b)
  {
    var i := 0;
    while i < |a|
      invariant 0 <= i <= |a| && a[..i] == b[..i]
      invariant LexLess(a, b) <==> LexLess(a[i..], b[i..])
      invariant LexLess(b, a) <==> LexLess(b[i..], a[i..])
    {
      assert a[i..][1..] == a[i + 1..] && b[i..][1..] == b[i + 1..];
      if a[i] > b[i] { return 1; }
      if a[i] < b[i] { return -1; }
      i := i + 1;
    }
    assert a == a[..i] && b == b[..i];
    sign := 0;
  }

  class Replica {
    const n: nat
    var nodes: map<Id, Node>
    var dead: bool

    ghost function View(): Tree
      reads this
    {
      Tree(n, nodes)
    }

    /** `rtnHTGet` with creation. */
    function Get(id: Id): (x: Node)
      requires Shaped(View())
      reads this
      ensures x == At(View(), id)
    {
      if id in nodes then nodes[id] else Blank(n)
    }

    /** `tRemFunc`. */
    method Remove(id: Id, t: Clock)
      requires Shaped(View()) && |t| == n
      modifies this`nodes
      ensures View() == RemoveNode(old(View()), id, t)
    {
      var x := Get(id);
      if Leq(t, x.current) { return; }
      nodes := nodes[id := x.(pid := -1, current := Join(x.current, t))];
      TakeOff(id, x.parent);
      nodes := nodes[id := Get(id).(parent := Detached)];
    }

    /** `setTypeRemove` on the children of the parent, if that is a node. */
    method TakeOff(id: Id, p: Parent)
      requires Shaped(View())
      modifies this`nodes
      ensures View() == Unlist(old(View()), id, p)
    {
      if p.Below? {
        nodes := nodes[p.id := Get(p.id).(children := Get(p.id).children - {id})];
      }
    }

    /** The effect of `treeNodeInsertWithUid`. */
    method EffectInsert(op: Op)
      requires Shaped(View()) && op.Insert? && Fits(op, n)
      modifies this`nodes
      ensures View() == RwTree.EffectInsert(old(View()), op)
    {
      var x := Get(op.id);
      var name := if x.values == Zero(n) then Some(op.name) else x.name;
      nodes := nodes[op.id := x.(known := true, parent := Below(op.under), name := name)];
      nodes := nodes[op.under := Get(op.under).(children := Get(op.under).children + {op.id})];
      assert View() == Hang(old(View()), op);
      Remove(op.under, op.rp);
      Remove(op.id, op.r.vector);
      var y := Get(op.id);
      if op.r.vector == y.current && y.pid < op.r.id {
        nodes := nodes[op.id := y.(pid := op.r.id)];
      }
    }

    /** The effect of `treeNodeDelete`. */
    method EffectDelete(op: Op)
      requires Shaped(View()) && op.Delete? && Fits(op, n)
      modifies this`nodes
      ensures View() == Effect(old(View()), op)
    {
      Remove(op.id, op.r.vector);
    }

    /** The effect of `treeNodeChangeValue`. */
    method EffectRename(op: Op)
      requires Shaped(View()) && op.Rename? && Fits(op, n)
      modifies this`nodes
      ensures View() == RwTree.EffectRename(old(View()), op)
    {
      Remove(op.id, op.r.vector);
      var x := Get(op.id);
      if op.r.vector == x.current {
        var sign := CurrentCompare(x.values, op.v.vector);
        var ready := CausallyReady(x.values, op.v);
        if sign < 0 || ready { x := x.(name := Some(op.name)); }
      }
      nodes := nodes[op.id := x.(values := Join(x.values, op.v.vector))];
    }

    /** Put `id` under `to`; the server dies where its `uid` is not known yet. */
    method Rehang(id: Id, to: Id)
      requires Shaped(View()) && !dead
      modifies this
      ensures Shaped(View()) && (dead <==> !old(Get(id).known))
      ensures !dead ==> View() == Relink(old(View()), id, to)
    {
      var x := Get(id);
      TakeOff(id, x.parent);
      if !x.known {
        dead := true;
        return;
      }
      nodes := nodes[to := Get(to).(children := Get(to).children + {id})];
      nodes := nodes[id := Get(id).(parent := Below(to))];
    }

    /** `sdscmp` of the parent's text with an identifier above zero. */
    method After(p: Parent, to: Id) returns (greater: bool)
      ensures greater <==> Beyond(p, to)
    {
      match p
      case Absent => greater := false;
      case Detached => greater := true;
      case Below(id) => greater := id > to;
    }

    /** The effect of `treeNodeMove`. */
    method EffectMove(op: Op)
      requires Shaped(View()) && !dead && op.Move? && Fits(op, n)
      modifies this
      ensures dead <==> Fatal(old(View()), op)
      ensures !dead ==> View() == RwTree.EffectMove(old(View()), op)
    {
      Remove(op.to, op.rto);
      Remove(op.id, op.r.vector);
      assert View() == Cleared(old(View()), op);
      var x := Get(op.id);
      var takes := false;
      if op.r.vector == x.current {
        var concurrent := CheckCurrency(x.moves, op.v.vector);
        if concurrent {
          takes := After(x.parent, op.to);
        } else {
          takes := CausallyReady(x.moves, op.v);
        }
      }
      if takes {
        Rehang(op.id, op.to);
        if dead { return; }
      }
      nodes := nodes[op.id := Get(op.id).(moves := Join(Get(op.id).moves, op.v.vector))];
    }
  }
}
