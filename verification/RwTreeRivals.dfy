/** Stamps that several replicas issue for one node from the same state of its clock. */
module RwTreeRivals {
  import opened VectorClock
  import opened RwTree

  /** `nowVC`: the stamp issued where the clock is c. */
  predicate Issued(c: Clock, v: Stamp)
    requires StampFits(v, |c|)
  {
    v.vector == c[v.id := c[v.id] + 1]
  }

  /** Issued from one state, each by another replica. */
  predicate Rivals(c: Clock, vs: seq<Stamp>) {
    && (forall i :: 0 <= i < |vs| ==> StampFits(vs[i], |c|) && Issued(c, vs[i]))
    && forall i, j :: 0 <= i < j < |vs| ==> vs[i].id != vs[j].id
  }

  function Ids(vs: seq<Stamp>): set<int> { set v | v in vs :: v.id }

  lemma RivalsFront(c: Clock, vs: seq<Stamp>, front: seq<Stamp>, v: Stamp)
    requires Rivals(c, vs) && vs == front + [v]
    ensures Rivals(c, front) && StampFits(v, |c|) && Issued(c, v) && v.id !in Ids(front)
    ensures Ids(vs) == Ids(front) + {v.id}
  {
    assert vs[|front|] == v;
    forall i | 0 <= i < |front| ensures vs[i] == front[i] {}
    forall x | x in front ensures x.id != v.id {
      var k :| 0 <= k < |front| && front[k] == x;
      assert vs[k] == x;
    }
  }

  /** The clock counts exactly the replicas whose stamps have been delivered. */
  predicate Counts(c: Clock, c': Clock, ids: set<int>)
    requires |c| == |c'|
  {
    forall i :: 0 <= i < |c| ==> c'[i] == c[i] + if i in ids then 1 else 0
  }

  lemma CountsStep(c: Clock, c': Clock, ids: set<int>, v: Stamp)
    requires |c| == |c'| && StampFits(v, |c|) && Counts(c, c', ids) && Issued(c, v) && v.id !in ids
    ensures Ready(c', v) && Counts(c, Join(c', v.vector), ids + {v.id})
  {}

  lemma FirstRival(c: Clock, v: Stamp)
    requires StampFits(v, |c|) && Issued(c, v)
    ensures !Concurrent(c, v.vector) && Ready(c, v) && Join(c, v.vector) == v.vector
  {
    assert Leq(c, v.vector);
    JoinAbsorbs(v.vector, c);
    JoinCommutes(c, v.vector, v.vector);
  }

  lemma LaterRival(c: Clock, c': Clock, ids: set<int>, v: Stamp, i: int)
    requires |c| == |c'| && StampFits(v, |c|) && Counts(c, c', ids) && Issued(c, v) && v.id !in ids
    requires i in ids && 0 <= i < |c|
    ensures Concurrent(c', v.vector)
  {
    assert c'[i] > v.vector[i] && c'[v.id] < v.vector[v.id];
  }
}
