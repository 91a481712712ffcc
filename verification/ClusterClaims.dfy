/** Slot claims in any order: where every claimant's configEpoch is known and
    distinct, the slot table they leave depends only on who claimed what. */
module ClusterClaims {
  import opened SlotBitmap
  import opened ClusterConfig
  import opened ClusterSteps
  import opened Options

  datatype Claim = Claim(sender: NodeId, claimed: Bitmap)

  predicate Claims(m: Claim, me: NodeId, j: nat)
    requires j < SLOTS
  {
    m.sender != me && TestBit(m.claimed, j)
  }

  /** This node is a master or knows its master, and imports nothing. */
  ghost predicate Quiet(c: Config, me: NodeId) {
    && Ok(c) && me in c.nodes && c.nodes[me].role != Undecided && CurrentMaster(c, me).Some?
    && forall j :: 0 <= j < SLOTS ==> c.importing[j] == None
  }

  /** Every claimant other than this node is a known master. */
  ghost predicate KnownBy(c: Config, me: NodeId, ms: seq<Claim>) {
    forall m :: m in ms ==> m.sender in c.nodes && (m.sender != me ==> c.nodes[m.sender].role == Master)
  }

  function Epochs(c: Config): map<NodeId, nat> { map n | n in c.nodes :: c.nodes[n].configEpoch }

  // -------- One claim --------

  ghost predicate Follows(c: Config, d: Config, me: NodeId) {
    && Quiet(d, me) && d.nodes.Keys == c.nodes.Keys && Epochs(d) == Epochs(c)
    && forall x :: x in c.nodes && x != me ==> d.nodes[x].role == c.nodes[x].role
  }

  /** Who holds slot j after a claim. */
  function Better(ep: map<NodeId, nat>, me: NodeId, o: Option<NodeId>, m: Claim, j: nat): Option<NodeId>
    requires j < SLOTS && m.sender in ep && (o.Some? ==> o.value in ep)
  {
    if Claims(m, me, j) && (o == None || ep[o.value] < ep[m.sender]) then Some(m.sender) else o
  }

  function Apply(c: Config, me: NodeId, m: Claim): Config
    requires Claimable(c) && Linked(c, me) && m.sender in c.nodes && CurrentMaster(c, me).Some?
  {
    UpdateSlots(c, me, m.sender, c.nodes[m.sender].configEpoch, m.claimed)
  }

  lemma SetMasterEpochs(c: Config, me: NodeId, n: NodeId)
    requires Linked(c, me) && n in c.nodes
    ensures Epochs(SetMaster(c, me, n)) == Epochs(c)
    ensures || SetMaster(c, me, n).importing == c.importing
            || forall j :: 0 <= j < SLOTS ==> SetMaster(c, me, n).importing[j] == None
  {
    var d := SetMaster(c, me, n);
    forall x | x in c.nodes ensures d.nodes[x].configEpoch == c.nodes[x].configEpoch {}
  }

  lemma SameLinksEpochs(c: Config, d: Config)
    requires SameLinks(c, d)
    ensures Epochs(d) == Epochs(c)
  {
    forall x | x in c.nodes ensures d.nodes[x].configEpoch == c.nodes[x].configEpoch {}
  }

  lemma ApplyEpochs(c: Config, me: NodeId, m: Claim)
    requires Quiet(c, me) && Linked(c, me) && m.sender in c.nodes && m.sender != me && c.nodes[m.sender].role == Master
    ensures Epochs(Apply(c, me, m)) == Epochs(c)
    ensures |Apply(c, me, m).importing| == SLOTS ==> forall j :: 0 <= j < SLOTS ==> Apply(c, me, m).importing[j] == None
  {
    var epoch := c.nodes[m.sender].configEpoch;
    ClaimsOk(c, m.sender, epoch, m.claimed);
    var d := ScanAll(c, ClaimMoves(c, m.sender, epoch, m.claimed));
    SameLinksEpochs(c, d);
    if Linked(d, me) { SetMasterEpochs(d, me, m.sender); }
  }

  lemma ApplyFollows(c: Config, me: NodeId, m: Claim)
    requires Quiet(c, me) && KnownBy(c, me, [m])
    ensures Linked(c, me) && m.sender in c.nodes && Follows(c, Apply(c, me, m), me)
  {
    assert m in [m];
    ResolvedLink(c, me);
    if m.sender != me {
      UpdateSlotsOk(c, me, m.sender, c.nodes[m.sender].configEpoch, m.claimed);
      ApplyEpochs(c, me, m);
    }
  }

  lemma ApplySlots(c: Config, me: NodeId, m: Claim, j: nat)
    requires Quiet(c, me) && KnownBy(c, me, [m]) && j < SLOTS
    ensures Linked(c, me) && m.sender in c.nodes
    ensures Apply(c, me, m).slots[j] == Better(Epochs(c), me, c.slots[j], m, j)
  {
    assert m in [m];
    ResolvedLink(c, me);
    if m.sender != me {
      var epoch := c.nodes[m.sender].configEpoch;
      UpdateSlotsOk(c, me, m.sender, epoch, m.claimed);
      ClaimsOk(c, m.sender, epoch, m.claimed);
    }
  }

  // -------- A run of claims --------

  ghost function RunClaims(c: Config, me: NodeId, ms: seq<Claim>): (d: Config)
    requires Quiet(c, me) && KnownBy(c, me, ms)
    ensures Follows(c, d, me)
  {
    if ms == [] then c
    else
      var before := ms[..|ms| - 1];
      var d := RunClaims(c, me, before);
      ApplyFollows(d, me, ms[|ms| - 1]);
      Apply(d, me, ms[|ms| - 1])
  }

  function Owner(ep: map<NodeId, nat>, me: NodeId, o: Option<NodeId>, ms: seq<Claim>, j: nat): (r: Option<NodeId>)
    requires j < SLOTS && (o.Some? ==> o.value in ep) && forall m :: m in ms ==> m.sender in ep
    ensures r.Some? ==> r.value in ep
  {
    if ms == [] then o else Better(ep, me, Owner(ep, me, o, ms[..|ms| - 1], j), ms[|ms| - 1], j)
  }

  lemma {:induction false} RunClaimsSlots(c: Config, me: NodeId, ms: seq<Claim>, j: nat)
    requires Quiet(c, me) && KnownBy(c, me, ms) && j < SLOTS
    ensures RunClaims(c, me, ms).slots[j] == Owner(Epochs(c), me, c.slots[j], ms, j)
  {
    if ms != [] {
      RunClaimsSlots(c, me, ms[..|ms| - 1], j);
      ApplySlots(RunClaims(c, me, ms[..|ms| - 1]), me, ms[|ms| - 1], j);
    }
  }

  // -------- The greatest epoch wins --------

  predicate Claimed(ms: seq<Claim>, me: NodeId, j: nat, n: NodeId)
    requires j < SLOTS
  {
    exists m :: m in ms && Claims(m, me, j) && m.sender == n
  }

  /** The holder is the old one or a claimant, has at least the epoch of every
      claimant, and differs from the old one only with a greater epoch. */
  ghost predicate Greatest(ep: map<NodeId, nat>, me: NodeId, o: Option<NodeId>, ms: seq<Claim>, j: nat,
                           r: Option<NodeId>)
    requires j < SLOTS && (o.Some? ==> o.value in ep) && (r.Some? ==> r.value in ep)
    requires forall m :: m in ms ==> m.sender in ep
  {
    && (r == o || (r.Some? && Claimed(ms, me, j, r.value) && (o.Some? ==> ep[o.value] < ep[r.value])))
    && forall m :: m in ms && Claims(m, me, j) ==> r.Some? && ep[m.sender] <= ep[r.value]
  }

  lemma {:induction false} OwnerGreatest(ep: map<NodeId, nat>, me: NodeId, o: Option<NodeId>, ms: seq<Claim>, j: nat)
    requires j < SLOTS && (o.Some? ==> o.value in ep) && forall m :: m in ms ==> m.sender in ep
    ensures Greatest(ep, me, o, ms, j, Owner(ep, me, o, ms, j))
  {
    if ms != [] {
      var before, last := ms[..|ms| - 1], ms[|ms| - 1];
      assert ms == before + [last];
      OwnerGreatest(ep, me, o, before, j);
      assert forall n :: Claimed(before, me, j, n) ==> Claimed(ms, me, j, n);
      if Claims(last, me, j) { assert Claimed(ms, me, j, last.sender); }
    }
  }

  /** Distinct claimants have distinct epochs. */
  ghost predicate DistinctEpochs(ep: map<NodeId, nat>, ms: seq<Claim>)
    requires forall m :: m in ms ==> m.sender in ep
  {
    forall a, b :: a in ms && b in ms && ep[a.sender] == ep[b.sender] ==> a.sender == b.sender
  }

  lemma GreatestUnique(ep: map<NodeId, nat>, me: NodeId, o: Option<NodeId>, xs: seq<Claim>, ys: seq<Claim>, j: nat,
                       r: Option<NodeId>, s: Option<NodeId>)
    requires j < SLOTS && (o.Some? ==> o.value in ep) && (r.Some? ==> r.value in ep) && (s.Some? ==> s.value in ep)
    requires forall m :: m in xs + ys ==> m.sender in ep
    requires DistinctEpochs(ep, xs) && (forall n :: Claimed(xs, me, j, n) <==> Claimed(ys, me, j, n))
    requires Greatest(ep, me, o, xs, j, r) && Greatest(ep, me, o, ys, j, s)
    ensures r == s
  {
    if r != o { assert Claimed(ys, me, j, r.value); }
    if s != o { assert Claimed(xs, me, j, s.value); }
  }

  /** A slot after a run of claims is with its greatest-epoch claimant or stayed
      with an owner whose epoch no claimant exceeds. */
  lemma SlotGoesToGreatest(c: Config, me: NodeId, ms: seq<Claim>, j: nat)
    requires Quiet(c, me) && KnownBy(c, me, ms) && j < SLOTS
    ensures var o := RunClaims(c, me, ms).slots[j];
            (o.Some? ==> o.value in c.nodes) && Greatest(Epochs(c), me, c.slots[j], ms, j, o)
  {
    RunClaimsSlots(c, me, ms, j);
    OwnerGreatest(Epochs(c), me, c.slots[j], ms, j);
  }

  ghost predicate SameClaimants(xs: seq<Claim>, ys: seq<Claim>, me: NodeId, j: nat)
    requires j < SLOTS
  {
    forall n :: Claimed(xs, me, j, n) <==> Claimed(ys, me, j, n)
  }

  lemma SlotConverges(c: Config, me: NodeId, xs: seq<Claim>, ys: seq<Claim>, j: nat)
    requires Quiet(c, me) && KnownBy(c, me, xs) && KnownBy(c, me, ys) && DistinctEpochs(Epochs(c), xs)
    requires j < SLOTS && SameClaimants(xs, ys, me, j)
    ensures RunClaims(c, me, xs).slots[j] == RunClaims(c, me, ys).slots[j]
  {
    SlotGoesToGreatest(c, me, xs, j);
    SlotGoesToGreatest(c, me, ys, j);
    GreatestUnique(Epochs(c), me, c.slots[j], xs, ys, j, RunClaims(c, me, xs).slots[j], RunClaims(c, me, ys).slots[j]);
  }

  /** Any two sequences of claims by the same claimants, in any order and with
      any repeats, leave the same slot table. */
  lemma ClaimsConverge(c: Config, me: NodeId, xs: seq<Claim>, ys: seq<Claim>)
    requires Quiet(c, me) && KnownBy(c, me, xs) && KnownBy(c, me, ys) && DistinctEpochs(Epochs(c), xs)
    requires forall j :: 0 <= j < SLOTS ==> SameClaimants(xs, ys, me, j)
    ensures RunClaims(c, me, xs).slots == RunClaims(c, me, ys).slots
  {
    var s, t := RunClaims(c, me, xs).slots, RunClaims(c, me, ys).slots;
    forall j | 0 <= j < SLOTS ensures s[j] == t[j] { SlotConverges(c, me, xs, ys, j); }
  }

  /** Whatever the epochs, a slot never goes to an owner with a smaller epoch. */
  lemma OwnerEpochNeverDrops(c: Config, me: NodeId, ms: seq<Claim>, j: nat)
    requires Quiet(c, me) && KnownBy(c, me, ms) && j < SLOTS && c.slots[j].Some?
    ensures var o := RunClaims(c, me, ms).slots[j];
            o.Some? && o.value in c.nodes && c.nodes[c.slots[j].value].configEpoch <= c.nodes[o.value].configEpoch
  {
    SlotGoesToGreatest(c, me, ms, j);
  }

  // -------- Why the epochs must be distinct --------

  /** Two claimants tie for slot j, and both beat its owner. */
  predicate Tied(ep: map<NodeId, nat>, me: NodeId, o: Option<NodeId>, a: Claim, b: Claim, j: nat)
    requires j < SLOTS && a.sender in ep && b.sender in ep && (o.Some? ==> o.value in ep)
  {
    && Claims(a, me, j) && Claims(b, me, j) && a.sender != b.sender && ep[a.sender] == ep[b.sender]
    && (o == None || ep[o.value] < ep[a.sender])
  }

  lemma BetterCommutesIff(ep: map<NodeId, nat>, me: NodeId, o: Option<NodeId>, a: Claim, b: Claim, j: nat)
    requires j < SLOTS && a.sender in ep && b.sender in ep && (o.Some? ==> o.value in ep)
    ensures Better(ep, me, Better(ep, me, o, a, j), b, j) == Better(ep, me, Better(ep, me, o, b, j), a, j)
            <==> !Tied(ep, me, o, a, b, j)
  {}

  lemma TwoOwners(c: Config, me: NodeId, a: Claim, b: Claim, j: nat)
    requires Quiet(c, me) && KnownBy(c, me, [a, b]) && j < SLOTS
    ensures RunClaims(c, me, [a, b]).slots[j] == Better(Epochs(c), me, Better(Epochs(c), me, c.slots[j], a, j), b, j)
  {
    RunClaimsSlots(c, me, [a, b], j);
    assert [a, b][..1] == [a] && [a][..0] == [];
    assert a in [a, b] && b in [a, b];
    assert Owner(Epochs(c), me, c.slots[j], [a], j) == Better(Epochs(c), me, c.slots[j], a, j);
  }

  lemma SlotCommutesIff(c: Config, me: NodeId, a: Claim, b: Claim, j: nat)
    requires Quiet(c, me) && KnownBy(c, me, [a, b]) && KnownBy(c, me, [b, a]) && j < SLOTS
    ensures a.sender in c.nodes && b.sender in c.nodes
    ensures RunClaims(c, me, [a, b]).slots[j] == RunClaims(c, me, [b, a]).slots[j] <==>
            !Tied(Epochs(c), me, c.slots[j], a, b, j)
  {
    assert a in [a, b] && b in [a, b];
    TwoOwners(c, me, a, b, j);
    TwoOwners(c, me, b, a, j);
    BetterCommutesIff(Epochs(c), me, c.slots[j], a, b, j);
  }

  /** Two claims leave the same table in either order exactly when they tie for
      no slot. */
  lemma TwoClaimsCommuteIff(c: Config, me: NodeId, a: Claim, b: Claim)
    requires Quiet(c, me) && KnownBy(c, me, [a, b]) && KnownBy(c, me, [b, a])
    ensures a.sender in c.nodes && b.sender in c.nodes
    ensures RunClaims(c, me, [a, b]).slots == RunClaims(c, me, [b, a]).slots <==>
            forall j :: 0 <= j < SLOTS ==> !Tied(Epochs(c), me, c.slots[j], a, b, j)
  {
    assert a in [a, b] && b in [a, b];
    var s, t := RunClaims(c, me, [a, b]).slots, RunClaims(c, me, [b, a]).slots;
    forall j | 0 <= j < SLOTS ensures s[j] == t[j] <==> !Tied(Epochs(c), me, c.slots[j], a, b, j) {
      SlotCommutesIff(c, me, a, b, j);
    }
  }
}
