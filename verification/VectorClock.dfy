/** Vector clocks: the pointwise order, the join, and the in-place routines
    that compute them. */
module VectorClock {

  type Clock = seq<int>

  /** The clock and the replica id that travel with an operation. */
  datatype Stamp = Stamp(vector: Clock, id: int)

  predicate Leq(a: Clock, b: Clock)
    requires |a| == |b|
  {
    forall i :: 0 <= i < |a| ==> a[i] <= b[i]
  }

  function Max(x: int, y: int): int {
    if x < y then y else x
  }

  function Join(a: Clock, b: Clock): (c: Clock)
    requires |a| == |b|
    ensures |c| == |a|
    ensures Leq(a, c) && Leq(b, c)
  {
    seq(|a|, i requires 0 <= i < |a| => Max(a[i], b[i]))
  }

  function Zero(n: nat): (c: Clock)
    ensures |c| == n
    ensures forall i :: 0 <= i < n ==> c[i] == 0
  {
    seq(n, i => 0)
  }

  lemma JoinIsLeast(a: Clock, b: Clock, u: Clock)
    requires |a| == |b| == |u|
    ensures Leq(Join(a, b), u) <==> Leq(a, u) && Leq(b, u)
  {
    if Leq(Join(a, b), u) {
      forall i | 0 <= i < |a| ensures a[i] <= u[i] && b[i] <= u[i] {
        assert Join(a, b)[i] <= u[i];
      }
    }
  }

  lemma LeqAntisymmetric(a: Clock, b: Clock)
    requires |a| == |b| && Leq(a, b) && Leq(b, a)
    ensures a == b
  {}

  lemma LeqTransitive(a: Clock, b: Clock, c: Clock)
    requires |a| == |b| == |c| && Leq(a, b) && Leq(b, c)
    ensures Leq(a, c)
  {}

  lemma JoinAbsorbs(a: Clock, b: Clock)
    requires |a| == |b|
    ensures Leq(b, a) <==> Join(a, b) == a
  {
    if Join(a, b) == a {
      forall i | 0 <= i < |a| ensures b[i] <= a[i] { assert Join(a, b)[i] == a[i]; }
    }
    if Leq(b, a) {
      assert Join(a, b) == a;
    }
  }

  lemma JoinCommutes(a: Clock, b: Clock, c: Clock)
    requires |a| == |b| == |c|
    ensures Join(Join(a, b), c) == Join(Join(a, c), b)
    ensures Join(a, b) == Join(b, a)
  {
    assert Join(Join(a, b), c) == Join(Join(a, c), b);
    assert Join(a, b) == Join(b, a);
  }

  /** `updateVC`: the join is computed in place, and only for equal sizes. */
  method UpdateVC(tar: array<int>, m: Clock)
    modifies tar
    ensures |m| == tar.Length ==> tar[..] == Join(old(tar[..]), m)
    ensures |m| != tar.Length ==> tar[..] == old(tar[..])
  {
    if tar.Length != |m| { return; }
    var i := 0;
    while i < tar.Length
      invariant 0 <= i <= tar.Length
      invariant forall k :: 0 <= k < i ==> tar[k] == Max(old(tar[k]), m[k])
      invariant forall k :: i <= k < tar.Length ==> tar[k] == old(tar[k])
    {
      if m[i] > tar[i] { tar[i] := m[i]; }
      i := i + 1;
    }
    assert tar[..] == Join(old(tar[..]), m);
  }

  /** `equalVC`. */
  method EqualVC(a: array<int>, b: Clock) returns (eq: bool)
    ensures eq <==> a[..] == b
  {
    if a.Length != |b| { return false; }
    var i := 0;
    while i < a.Length
      invariant 0 <= i <= a.Length
      invariant a[..i] == b[..i]
    {
      if a[i] != b[i] {
        assert a[..][i] != b[i];
        return false;
      }
      i := i + 1;
    }
    assert a[..] == a[..i] && b == b[..i];
    return true;
  }

  /** `removeCheck`: some component of `t` is ahead of `current`. */
  method RemoveCheck(current: array<int>, t: Clock) returns (ahead: bool)
    requires |t| == current.Length
    ensures ahead <==> !Leq(t, current[..])
  {
    var i := 0;
    while i < |t|
      invariant 0 <= i <= |t|
      invariant forall k :: 0 <= k < i ==> t[k] <= current[k]
    {
      if current[i] < t[i] {
        assert t[i] > current[..][i];
        return true;
      }
      i := i + 1;
    }
    return false;
  }
}
