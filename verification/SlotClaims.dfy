/** Propagation of slot claims: whatever the order in which a process hears the claims
    of the masters, every slot ends with the contender of the greatest configEpoch. */
module SlotClaims {
  import opened Wrappers
  import opened ClusterModel

  datatype Claim = Claim(node: Name, epoch: nat, bits: set<nat>)

  // The claim is of a known peer, under the configEpoch recorded for it.
  ghost predicate Valid(s: State, c: Claim) {
    c.node in s.nodes && c.node != s.myself && c.epoch == s.nodes[c.node].configEpoch
  }

  ghost predicate AllValid(s: State, claims: seq<Claim>) {
    forall i | 0 <= i < |claims| :: Valid(s, claims[i])
  }

  ghost function Process(s: State, c: Claim): State
    requires StateInv(s) && Valid(s, c)
  {
    UpdateSlotsConfigWith(s, c.node, c.epoch, c.bits)
  }

  ghost function ProcessAll(s: State, claims: seq<Claim>): (r: State)
    requires StateInv(s) && AllValid(s, claims)
    ensures StateInv(r) && AllValid(r, claims) && SameEpochs(s, r)
    decreases |claims|
  {
    if claims == [] then s
    else
      var last := |claims| - 1;
      var r := ProcessAll(s, claims[..last]);
      StillValid(s, r, claims);
      ProcessFrame(r, claims[last]);
      SameEpochsTwice(s, r, Process(r, claims[last]));
      StillValid(s, Process(r, claims[last]), claims);
      Process(r, claims[last])
  }

  lemma StillValid(s: State, r: State, claims: seq<Claim>)
    requires AllValid(s, claims) && SameEpochs(s, r)
    ensures AllValid(r, claims)
  {
    forall i | 0 <= i < |claims| ensures Valid(r, claims[i]) { assert Valid(s, claims[i]); }
  }

  lemma SameEpochsTwice(s: State, t: State, r: State)
    requires SameEpochs(s, t) && SameEpochs(t, r)
    ensures SameEpochs(s, r)
  {
  }

  ghost predicate SameEpochs(s: State, r: State) {
    && r.myself == s.myself && r.nodes.Keys == s.nodes.Keys
    && (forall n | n in s.nodes :: r.nodes[n].configEpoch == s.nodes[n].configEpoch)
    && |r.importing| == |s.importing|
    && (forall j | 0 <= j < |s.importing| && s.importing[j].None? :: r.importing[j].None?)
  }

  lemma ProcessFrame(s: State, c: Claim)
    requires StateInv(s) && Valid(s, c)
    ensures StateInv(Process(s, c)) && SameEpochs(s, Process(s, c))
    ensures Process(s, c).slots == Claimed(s, c.node, c.epoch, c.bits)
  {
    hide StateInv, Coherent, LosesSlot, Owned;
    UpdateSlotsKeepsInv(s, c.node, c.epoch, c.bits);
  }

  ghost function OwnerEpoch(s: State, o: Option<Name>): int {
    if o.Some? && o.value in s.nodes then s.nodes[o.value].configEpoch else -1
  }

  /** No claim lowers the epoch under which a slot is served. */
  lemma ClaimsNeverLowerEpochs(s: State, c: Claim, j: nat)
    requires StateInv(s) && Valid(s, c) && j < CLUSTER_SLOTS
    ensures OwnerEpoch(Process(s, c), Process(s, c).slots[j]) >= OwnerEpoch(s, s.slots[j])
  {
    ProcessFrame(s, c);
  }

  // n claims slot j.
  ghost predicate Claims(claims: seq<Claim>, n: Name, j: nat) {
    exists i :: 0 <= i < |claims| && claims[i].node == n && j in claims[i].bits
  }

  // Owner o of slot j is the initial owner or a claimant, and none of them is newer.
  ghost predicate Prevailed(s: State, claims: seq<Claim>, j: nat, o: Option<Name>)
    requires Coherent(s) && j < CLUSTER_SLOTS
  {
    && (o == s.slots[j] || (o.Some? && Claims(claims, o.value, j)))
    && OwnerEpoch(s, s.slots[j]) <= OwnerEpoch(s, o)
    && (OwnerEpoch(s, s.slots[j]) == OwnerEpoch(s, o) ==> o == s.slots[j])
    && forall i | 0 <= i < |claims| && j in claims[i].bits :: claims[i].epoch <= OwnerEpoch(s, o)
  }

  /** Convergence: after any sequence of claims, a slot that is not being imported
      belongs to the contender with the greatest epoch, its initial owner included. */
  lemma {:induction false} HighestEpochPrevails(s: State, claims: seq<Claim>, j: nat)
    requires StateInv(s) && AllValid(s, claims) && j < CLUSTER_SLOTS && s.importing[j].None?
    ensures Prevailed(s, claims, j, ProcessAll(s, claims).slots[j])
  {
    hide Process;
    if claims != [] {
      var last := |claims| - 1;
      var before := claims[..last];
      HighestEpochPrevails(s, before, j);
      assert Valid(s, claims[last]);
      ProcessFrame(ProcessAll(s, before), claims[last]);
      OneMorePrevails(s, claims, j, ProcessAll(s, before));
    }
  }

  // What one claim does to the owner of a slot.
  lemma Contest(s: State, r: State, c: Claim, j: nat)
    requires Coherent(r) && Valid(s, c) && SameEpochs(s, r) && j < CLUSTER_SLOTS && r.importing[j].None?
    ensures |Claimed(r, c.node, c.epoch, c.bits)| == CLUSTER_SLOTS
    ensures
      var was, o := r.slots[j], Claimed(r, c.node, c.epoch, c.bits)[j];
      && (o == was || (o == Some(c.node) && j in c.bits && OwnerEpoch(s, was) < OwnerEpoch(s, o)))
      && (j in c.bits ==> c.epoch <= OwnerEpoch(s, o))
  {
    hide Owned;
  }

  lemma OneMorePrevails(s: State, claims: seq<Claim>, j: nat, r: State)
    requires Coherent(s) && Coherent(r) && AllValid(s, claims) && SameEpochs(s, r)
    requires claims != [] && j < CLUSTER_SLOTS && r.importing[j].None?
    requires Prevailed(s, claims[..|claims| - 1], j, r.slots[j])
    ensures
      var c := claims[|claims| - 1];
      Prevailed(s, claims, j, Claimed(r, c.node, c.epoch, c.bits)[j])
  {
    hide Coherent, Claimed, OwnerEpoch, Owned;
    var last := |claims| - 1;
    var before, c := claims[..last], claims[last];
    assert Valid(s, c);
    Contest(s, r, c, j);
    var o := Claimed(r, c.node, c.epoch, c.bits)[j];
    forall n | Claims(before, n, j)
      ensures Claims(claims, n, j)
    {
      var i :| 0 <= i < |before| && before[i].node == n && j in before[i].bits;
      assert claims[i] == before[i];
    }
    forall i | 0 <= i < |claims| && j in claims[i].bits
      ensures claims[i].epoch <= OwnerEpoch(s, o)
    {
      if i < last { assert before[i] == claims[i]; }
    }
  }

  ghost predicate SameClaims(a: seq<Claim>, b: seq<Claim>) {
    multiset(a) == multiset(b)
  }

  ghost predicate DistinctEpochs(claims: seq<Claim>) {
    forall i, k | 0 <= i < |claims| && 0 <= k < |claims| && claims[i].epoch == claims[k].epoch ::
      claims[i].node == claims[k].node
  }

  /** Order does not matter: processes that hear the same claims in different orders
      agree on the owner of every slot that neither is importing. */
  lemma OrderDoesNotMatter(s: State, a: seq<Claim>, b: seq<Claim>, j: nat)
    requires StateInv(s) && AllValid(s, a) && AllValid(s, b) && SameClaims(a, b) && DistinctEpochs(a)
    requires j < CLUSTER_SLOTS && s.importing[j].None?
    ensures ProcessAll(s, a).slots[j] == ProcessAll(s, b).slots[j]
  {
    hide ProcessAll;
    HighestEpochPrevails(s, a, j);
    HighestEpochPrevails(s, b, j);
    PrevailedUnique(s, a, b, j, ProcessAll(s, a).slots[j], ProcessAll(s, b).slots[j]);
  }

  lemma PrevailedUnique(s: State, a: seq<Claim>, b: seq<Claim>, j: nat, o: Option<Name>, p: Option<Name>)
    requires Coherent(s) && j < CLUSTER_SLOTS && AllValid(s, a) && AllValid(s, b)
    requires SameClaims(a, b) && DistinctEpochs(a)
    requires Prevailed(s, a, j, o) && Prevailed(s, b, j, p)
    ensures o == p
  {
    assert Prevailed(s, a, j, p) by { PrevailedPermutes(s, b, a, j, p); }
    if o != s.slots[j] && p != s.slots[j] {
      var i :| 0 <= i < |a| && a[i].node == o.value && j in a[i].bits;
      var k :| 0 <= k < |a| && a[k].node == p.value && j in a[k].bits;
      assert Valid(s, a[i]) && Valid(s, a[k]);
    }
  }

  lemma PrevailedPermutes(s: State, b: seq<Claim>, a: seq<Claim>, j: nat, p: Option<Name>)
    requires Coherent(s) && j < CLUSTER_SLOTS && SameClaims(a, b) && Prevailed(s, b, j, p)
    ensures Prevailed(s, a, j, p)
  {
    if p != s.slots[j] {
      var i :| 0 <= i < |b| && b[i].node == p.value && j in b[i].bits;
      assert b[i] in multiset(a);
      var k :| 0 <= k < |a| && a[k] == b[i];
    }
    forall i | 0 <= i < |a| && j in a[i].bits
      ensures a[i].epoch <= OwnerEpoch(s, p)
    {
      assert a[i] in multiset(b);
      var k :| 0 <= k < |b| && b[k] == a[i];
    }
  }

  /** Repeating a claim already processed changes nothing at all, unless one of its
      slots was being imported and no longer is. */
  lemma RepeatedClaimIsIgnored(s: State, claims: seq<Claim>, i: nat)
    requires StateInv(s) && AllValid(s, claims) && i < |claims|
    requires forall j | 0 <= j < CLUSTER_SLOTS && j in claims[i].bits ::
      s.importing[j].None? || ProcessAll(s, claims).importing[j].Some?
    ensures
      var r := ProcessAll(s, claims);
      Valid(r, claims[i]) && Process(r, claims[i]) == r
  {
    hide ProcessAll, Process;
    var r, c := ProcessAll(s, claims), claims[i];
    assert Valid(s, c) && Valid(r, c);
    forall j | 0 <= j < CLUSTER_SLOTS
      ensures !Prevails(r, c.node, c.epoch, c.bits, j)
    {
      if j in c.bits && r.importing[j].None? {
        HighestEpochPrevails(s, claims, j);
      }
    }
    NothingPrevails(r, c);
  }

  lemma NothingPrevails(r: State, c: Claim)
    requires StateInv(r) && Valid(r, c)
    requires forall j | 0 <= j < CLUSTER_SLOTS :: !Prevails(r, c.node, c.epoch, c.bits, j)
    ensures Process(r, c) == r
  {
    hide Coherent;
    assert Coherent(r);
    assert Claimed(r, c.node, c.epoch, c.bits) == r.slots by { TableUnchanged(r, c); }
    RebindSame(r);
  }

  lemma TableUnchanged(r: State, c: Claim)
    requires Coherent(r)
    requires forall j | 0 <= j < CLUSTER_SLOTS :: !Prevails(r, c.node, c.epoch, c.bits, j)
    ensures Claimed(r, c.node, c.epoch, c.bits) == r.slots
  {
  }

  lemma RebindSame(s: State)
    requires Coherent(s)
    ensures Rebind(s, s.slots) == s
  {
    assert Rebind(s, s.slots).nodes == s.nodes;
  }
}
