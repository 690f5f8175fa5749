/** What the handlers of one process do, said about single slots, nodes and packets: who owns
    a slot afterwards, who is told what, and exactly when a step is taken. */
module ClusterEffects {
  import opened Wrappers
  import opened ClusterModel

  // ------------------------------------------------------------------- the table

  lemma OwnedIs(t: seq<Option<Name>>, n: Name)
    ensures forall j :: j in Owned(t, n) <==> 0 <= j < |t| && t[j] == Some(n)
  {
  }

  // -------------------------------------------------------------------- failover

  // The owner of slot j once me has taken over from boss.
  ghost predicate TakenOver(was: seq<Option<Name>>, now: seq<Option<Name>>, boss: Name, me: Name) {
    |was| == |now| == CLUSTER_SLOTS
    && forall j | 0 <= j < CLUSTER_SLOTS :: now[j] == if was[j] == Some(boss) then Some(me) else was[j]
  }

  /** Exactly when the routine does what: a replica of a failed master that serves slots, or
      one in a manual failover, schedules an election, asks for votes, and wins once more than
      half of the masters that serve slots have voted. */
  lemma FailoverDecides(s: State, t: Timing)
    requires StateInv(s)
    ensures
      var me, step := s.nodes[s.myself], NextFailoverStep(s, t);
      var may := !me.master && me.slaveof.Some? && s.nodes[me.slaveof.value].numslots > 0
        && (t.manual || (s.nodes[me.slaveof.value].fail && !t.noFailover && !t.dataTooOld));
      && (step.Rescheduled? <==> may && t.retryElapsed)
      && (step.Requested? <==> may && !t.retryElapsed && !t.waiting && !t.expired && !s.authSent)
      && (step.Won? <==> may && !t.retryElapsed && !t.waiting && !t.expired && s.authSent && 2 * s.authCount > s.size)
  {
    hide Coherent, EpochsBounded;
    assert ReplicaHasMaster(s) by { CoherentRole(s); }
  }

  ghost predicate ReplicaHasMaster(s: State) {
    s.myself in s.nodes && (s.nodes[s.myself].slaveof.Some? ==> s.nodes[s.myself].slaveof.value in s.nodes)
  }

  lemma CoherentRole(s: State)
    requires StateInv(s)
    ensures ReplicaHasMaster(s)
  {
  }

  /** A replica that has its votes takes the place of its master: it owns exactly the slots
      that one had, of which there are some, under the epoch of the election; no other slot
      and no other node changes. */
  lemma WinnerTakesOver(s: State, t: Timing)
    requires StateInv(s) && NextFailoverStep(s, t).Won?
    ensures
      var r, me, boss := HandleSlaveFailover(s, t).state, s.myself, s.nodes[s.myself].slaveof.value;
      && boss in s.nodes && boss != me && r.nodes.Keys == s.nodes.Keys
      && TakenOver(s.slots, r.slots, boss, me)
      && (exists j :: 0 <= j < CLUSTER_SLOTS && s.slots[j] == Some(boss))
      && r.nodes[boss] == s.nodes[boss].(slots := {}, numslots := 0)
      && r.nodes[me] == Node(true, s.nodes[me].fail, Later(s.nodes[me].configEpoch, s.authEpoch),
                             s.nodes[boss].slots, s.nodes[boss].numslots, None)
      && (forall n | n in s.nodes && n != me && n != boss :: r.nodes[n] == s.nodes[n])
      && r == s.(slots := r.slots, nodes := r.nodes, size := r.size)
  {
    hide Owned, EpochsBounded, Rebind, Broadcast, ReplaceMaster;
    var a := AdoptElectionEpoch(s);
    AdoptElectionKeepsInv(s);
    ReplacedIs(a);
    FailoverDecides(s, t);
    OwnedEmpty(s, s.nodes[s.myself].slaveof.value);
  }

  function Later(a: nat, b: nat): nat { if a < b then b else a }

  /** And every node the winner has a link to is told just that, once. */
  lemma WinnerTells(s: State, t: Timing)
    requires StateInv(s) && NextFailoverStep(s, t).Won?
    ensures
      var o, me, boss := HandleSlaveFailover(s, t), s.myself, s.nodes[s.myself].slaveof.value;
      && (forall e | e in o.sends ::
            && e.msg == Msg(me, s.currentEpoch, Later(s.nodes[me].configEpoch, s.authEpoch), e.msg.slots, None, Pong)
            && (forall j: nat :: j in e.msg.slots <==> j < CLUSTER_SLOTS && s.slots[j] == Some(boss))
            && o.sends[e] == 1)
      && forall n :: (exists e :: e in o.sends && e.dst == n) <==> n in s.nodes && n in t.links && n != me
  {
    hide Coherent, Owned, EpochsBounded, Broadcast, HandleSlaveFailover, NextFailoverStep;
    var o := HandleSlaveFailover(s, t);
    WinnerTakesOver(s, t);
    FailoverDecides(s, t);
    FailoverKeepsInv(s, t);
    SendsOfWinner(s, t);
    BroadcastIsTrue(o.state, t.links, Pong);
    ReplicaOwnsNothing(s);
    forall e | e in o.sends
      ensures
        var me := s.nodes[s.myself];
        && e.msg == Msg(s.myself, s.currentEpoch, Later(me.configEpoch, s.authEpoch), e.msg.slots, None, Pong)
        && forall j: nat :: j in e.msg.slots <==> j < CLUSTER_SLOTS && s.slots[j] == Some(me.slaveof.value)
    {
      assert TrueHeader(o.state, e.msg);
      assert MsgInv(e.msg);
    }
  }

  lemma SendsOfWinner(s: State, t: Timing)
    requires StateInv(s) && NextFailoverStep(s, t).Won?
    ensures
      var o := HandleSlaveFailover(s, t);
      StateInv(o.state) && o.sends == Broadcast(o.state, t.links, Pong) && o.state.myself == s.myself
  {
    hide ReplaceMaster, Broadcast, NextFailoverStep, Coherent, EpochsBounded;
    FailoverKeepsInv(s, t);
    AdoptElectionKeepsInv(s);
    ReplaceMasterKeepsInv(AdoptElectionEpoch(s));
  }

  lemma ReplacedIs(s: State)
    requires StateInv(s) && !s.nodes[s.myself].master
    ensures
      var r, me, boss := ReplaceMaster(s), s.myself, s.nodes[s.myself].slaveof.value;
      && boss in s.nodes && boss != me && r.nodes.Keys == s.nodes.Keys
      && TakenOver(s.slots, r.slots, boss, me)
      && r.nodes[boss] == s.nodes[boss].(slots := {}, numslots := 0)
      && r.nodes[me] == s.nodes[me].(master := true, slaveof := None, slots := s.nodes[boss].slots,
                                     numslots := s.nodes[boss].numslots)
      && (forall n | n in s.nodes && n != me && n != boss :: r.nodes[n] == s.nodes[n])
      && r == s.(slots := r.slots, nodes := r.nodes)
  {
    hide EpochsBounded;
    var r, me, boss := ReplaceMaster(s), s.myself, s.nodes[s.myself].slaveof.value;
    ReplicaOwnsNothing(s);
    var t := r.slots;
    assert Owned(t, boss) == {};
    assert Owned(t, me) == Owned(s.slots, boss);
    forall n | n in s.nodes && n != me && n != boss
      ensures r.nodes[n] == s.nodes[n]
    {
      assert Owned(t, n) == Owned(s.slots, n);
    }
  }

  /** The size that decides about majorities is the number of masters that have slots. */
  lemma SizeIs(s: State, masters: set<Name>)
    requires StateInv(s)
    requires forall n :: n in masters <==>
      n in s.nodes && s.nodes[n].master && exists j :: 0 <= j < CLUSTER_SLOTS && s.slots[j] == Some(n)
    ensures RefreshSize(s) == s.(size := |masters|)
  {
    hide Owned, EpochsBounded;
    forall n
      ensures n in ServingMasters(s) <==> n in masters
    {
      if n in s.nodes { OwnedEmpty(s, n); }
    }
    assert ServingMasters(s) == masters;
  }

  // --------------------------------------------------------------------- claims

  // Each slot claimed goes to the claimant unless it is being imported or has an owner whose
  // epoch is not lower.
  ghost predicate Reassigned(s: State, now: seq<Option<Name>>, claimant: Name, epoch: nat, bits: set<nat>)
    requires StateInv(s)
  {
    |now| == CLUSTER_SLOTS
    && forall j | 0 <= j < CLUSTER_SLOTS ::
         now[j] == if j in bits && s.importing[j].None?
                      && (s.slots[j].None? || s.nodes[s.slots[j].value].configEpoch < epoch)
                   then Some(claimant) else s.slots[j]
  }

  // This process, or the master it replicates, served slots and serves none any more.
  ghost predicate LostAll(s: State, now: seq<Option<Name>>)
    requires StateInv(s)
  {
    var cur := if s.nodes[s.myself].master then s.myself else s.nodes[s.myself].slaveof.value;
    && (exists j :: 0 <= j < |s.slots| && s.slots[j] == Some(cur))
    && (forall j | 0 <= j < |now| :: now[j] != Some(cur))
  }

  // Apart from slots, nodes are as before; who lost all slots follows the claimant.
  ghost predicate RolesAfter(s: State, r: State, claimant: Name)
    requires StateInv(s)
  {
    && r.nodes.Keys == s.nodes.Keys
    && (forall n | n in s.nodes && n != s.myself ::
          r.nodes[n] == s.nodes[n].(slots := r.nodes[n].slots, numslots := r.nodes[n].numslots))
    && var me, now := s.nodes[s.myself], r.nodes[s.myself];
       if LostAll(s, r.slots) then
         && now == me.(master := false, slaveof := Some(claimant), slots := {}, numslots := 0)
         && (if me.master then forall j | 0 <= j < |r.importing| :: r.importing[j].None? else r.importing == s.importing)
       else now == me.(slots := now.slots, numslots := now.numslots) && r.importing == s.importing
  }

  /** A claim of another node, for single slots; whoever is left without slots by it, itself
      or with its master, becomes a replica of the claimant, and nobody else does. */
  lemma ClaimIs(s: State, claimant: Name, epoch: nat, bits: set<nat>)
    requires StateInv(s) && claimant in s.nodes && claimant != s.myself
    ensures
      var r := UpdateSlotsConfigWith(s, claimant, epoch, bits);
      && StateInv(r) && Reassigned(s, r.slots, claimant, epoch, bits) && RolesAfter(s, r, claimant)
      && r == s.(slots := r.slots, nodes := r.nodes, importing := r.importing)
  {
    hide Owned, EpochsBounded, Coherent, LosesSlot, LostAll, Claimed, Reassigned;
    var t := Claimed(s, claimant, epoch, bits);
    var b := Rebind(s, t);
    ClaimedFits(s, claimant, epoch, bits);
    RebindKeepsInv(s, t);
    UpdateSlotsKeepsInv(s, claimant, epoch, bits);
    ClaimedIs(s, claimant, epoch, bits);
    LosesIff(s, claimant, epoch, bits);
    SetMasterIs(b, claimant);
  }

  lemma SetMasterIs(s: State, n: Name)
    requires s.myself in s.nodes
    ensures
      var r, me := SetMaster(s, n), s.nodes[s.myself];
      && r == s.(nodes := r.nodes, importing := r.importing)
      && r.nodes == s.nodes[s.myself := me.(master := false, slaveof := Some(n))]
      && (if me.master then forall j | 0 <= j < |r.importing| :: r.importing[j].None? else r.importing == s.importing)
  {
  }

  lemma ClaimedIs(s: State, claimant: Name, epoch: nat, bits: set<nat>)
    requires StateInv(s)
    ensures Reassigned(s, Claimed(s, claimant, epoch, bits), claimant, epoch, bits)
  {
    hide Owned, EpochsBounded;
  }

  lemma LosesIff(s: State, claimant: Name, epoch: nat, bits: set<nat>)
    requires StateInv(s) && claimant in s.nodes && claimant != s.myself
    requires StateInv(Rebind(s, Claimed(s, claimant, epoch, bits)))
    ensures
      var t := Claimed(s, claimant, epoch, bits);
      var r := Rebind(s, t);
      && CurMaster(s).Some? && CurMaster(s).value in r.nodes
      && (LosesSlot(s, claimant, epoch, bits) && r.nodes[CurMaster(s).value].numslots == 0 <==> LostAll(s, t))
      && (LostAll(s, t) ==> r.nodes[s.myself].slots == {} && r.nodes[s.myself].numslots == 0)
  {
    hide Owned, EpochsBounded;
    var t := Claimed(s, claimant, epoch, bits);
    var r := Rebind(s, t);
    var cur := CurMaster(s).value;
    OwnedEmpty(r, cur);
    if !s.nodes[s.myself].master { ReplicaOwnsNothing(r); }
    if LostAll(s, t) {
      NoSlots(r, s.myself);
      var j :| 0 <= j < |s.slots| && s.slots[j] == Some(cur);
      assert t[j] != Some(cur);
      assert Prevails(s, claimant, epoch, bits, j);
    }
  }

  lemma NoSlots(s: State, n: Name)
    requires Coherent(s) && n in s.nodes && forall j | 0 <= j < |s.slots| :: s.slots[j] != Some(n)
    ensures s.nodes[n].slots == {} && s.nodes[n].numslots == 0
  {
    assert Owned(s.slots, n) == {};
  }

  /** An UPDATE about a node, read with a newer epoch than the one recorded for it: the node is
      a master with that epoch, and has every slot named there that is not being imported and
      has no owner of the same epoch or a newer one. Otherwise nothing happens. */
  lemma UpdateIs(s: State, n: Name, epoch: nat, bits: set<nat>)
    requires StateInv(s) && epoch <= s.currentEpoch
    ensures n !in s.nodes || epoch <= s.nodes[n].configEpoch ==> ReceiveUpdate(s, n, epoch, bits) == s
    ensures n in s.nodes && s.nodes[n].configEpoch < epoch ==>
      var r := ReceiveUpdate(s, n, epoch, bits);
      && StateInv(r) && r.nodes.Keys == s.nodes.Keys
      && r.nodes[n].master && r.nodes[n].configEpoch == epoch
      && (n != s.myself ==> Reassigned(s, r.slots, n, epoch, bits))
      && (n != s.myself ==> r.nodes[n].slaveof == if s.nodes[n].master then s.nodes[n].slaveof else None)
      && (n == s.myself ==> r.slots == s.slots)
  {
    hide Owned, UpdateSlotsConfigWith, LostAll, Coherent, EpochsBounded, Reassigned;
    if n in s.nodes && s.nodes[n].configEpoch < epoch {
      var a := SetNodeAsMaster(s, n);
      SetNodeAsMasterKeepsInv(s, n);
      var b := a.(nodes := a.nodes[n := a.nodes[n].(configEpoch := epoch)]);
      RaisedKeepsInv(a, n, epoch);
      UpdateSlotsKeepsInv(b, n, epoch, bits);
      assert ReceiveUpdate(s, n, epoch, bits) == UpdateSlotsConfigWith(b, n, epoch, bits);
      if n == s.myself {
        assert UpdateSlotsConfigWith(b, n, epoch, bits) == b by { OwnClaim(b, epoch, bits); }
      } else {
        ClaimIs(b, n, epoch, bits);
        SameTable(s, b, UpdateSlotsConfigWith(b, n, epoch, bits).slots, n, epoch, bits);
      }
    }
  }

  lemma OwnClaim(s: State, epoch: nat, bits: set<nat>)
    requires StateInv(s)
    ensures UpdateSlotsConfigWith(s, s.myself, epoch, bits) == s
  {
  }

  // Only the claimant's own epoch and role differ, which its claims do not look at.
  lemma SameTable(s: State, b: State, now: seq<Option<Name>>, n: Name, epoch: nat, bits: set<nat>)
    requires StateInv(s) && StateInv(b) && b.slots == s.slots && b.importing == s.importing
    requires b.nodes.Keys == s.nodes.Keys
    requires forall m | m in s.nodes && m != n :: b.nodes[m].configEpoch == s.nodes[m].configEpoch
    requires Reassigned(b, now, n, epoch, bits)
    ensures Reassigned(s, now, n, epoch, bits)
  {
    hide Owned, EpochsBounded;
  }

  // -------------------------------------------------------------------- packets

  // What every packet of a known node makes known: greater epochs.
  ghost predicate Observed(s: State, r: State, m: Msg) {
    m.sender in s.nodes
    && r == s.(currentEpoch := Later(s.currentEpoch, m.currentEpoch),
               nodes := s.nodes[m.sender := s.nodes[m.sender].(
                 configEpoch := Later(s.nodes[m.sender].configEpoch, m.configEpoch))])
  }

  lemma ObservedIs(s: State, m: Msg)
    requires StateInv(s) && MsgInv(m) && m.sender in s.nodes
    ensures Observed(s, ObserveEpochs(s, m), m) && StateInv(ObserveEpochs(s, m))
  {
    hide Coherent, RoleOk;
    ObserveKeepsInv(s, m);
  }

  // A master that serves slots votes once an epoch, for a replica of a failed master, or in a
  // manual failover, whose claims are not older than what it knows.
  ghost predicate MayVote(s: State, m: Msg, env: Env)
    requires StateInv(s) && m.sender in s.nodes && m.body.AuthRequest?
  {
    var me, node := s.nodes[s.myself], s.nodes[m.sender];
    && me.master && me.numslots > 0
    && s.currentEpoch <= m.currentEpoch && s.lastVoteEpoch != m.currentEpoch
    && !node.master && node.slaveof.Some? && (s.nodes[node.slaveof.value].fail || m.body.forceAck)
    && !env.votedRecently
    && forall j | 0 <= j < CLUSTER_SLOTS && j in m.slots && s.slots[j].Some? ::
         s.nodes[s.slots[j].value].configEpoch <= m.configEpoch
  }

  ghost predicate OneBallot(sends: multiset<Envelope>, m: Msg, me: Name) {
    exists a :: sends == multiset{Envelope(m.sender, a)} && IsBallot(a, m, me)
  }

  ghost predicate IsBallot(a: Msg, m: Msg, me: Name) {
    a.body == AuthAck && a.sender == me && a.currentEpoch == m.currentEpoch
  }

  /** Exactly when a vote is given, and that nothing else happens then. */
  lemma VoteIs(s: State, m: Msg, env: Env)
    requires StateInv(s) && MsgInv(m) && m.sender in s.nodes && m.sender != s.myself && m.body.AuthRequest?
    ensures
      var o := Receive(s, m, env);
      && Observed(s, o.state.(lastVoteEpoch := s.lastVoteEpoch), m)
      && o.state.lastVoteEpoch == (if MayVote(s, m, env) then m.currentEpoch else s.lastVoteEpoch)
      && (if MayVote(s, m, env) && env.linkUp then OneBallot(o.sends, m, s.myself) else o.sends == multiset{})
  {
    hide Coherent, EpochsBounded, BuildMsg, MsgInv, RoleOk, GrantsVote, MayVote;
    var s1 := ObserveEpochs(s, m);
    ObservedIs(s, m);
    VoteGranted(s, s1, m, env);
    var v := s1.(lastVoteEpoch := s1.currentEpoch);
    Voted(s1);
    HeaderEpoch(v, AuthAck);
    Knows(s1);
    assert Receive(s, m, env) == Vote(s1, m, env);
    if GrantsVote(s1, m, env) && env.linkUp {
      var a := BuildMsg(v, AuthAck);
      assert Vote(s1, m, env).sends == multiset{Envelope(m.sender, a)} && IsBallot(a, m, s.myself);
    }
  }

  lemma VoteGranted(s: State, r: State, m: Msg, env: Env)
    requires StateInv(s) && StateInv(r) && m.sender in s.nodes && m.body.AuthRequest? && Observed(s, r, m)
    ensures m.sender in r.nodes && (GrantsVote(r, m, env) <==> MayVote(s, m, env))
    ensures GrantsVote(r, m, env) ==> r.currentEpoch == m.currentEpoch
  {
    hide Owned, RoleOk, EpochsBounded;
    MasterKnown(s, m.sender);
    assert s.myself in s.nodes && s.myself in r.nodes by { Knows(s); Knows(r); }
  }

  lemma Knows(s: State)
    requires StateInv(s)
    ensures s.myself in s.nodes && |s.slots| == |s.importing| == CLUSTER_SLOTS
  {
  }

  lemma Voted(s: State)
    requires StateInv(s)
    ensures StateInv(s.(lastVoteEpoch := s.currentEpoch))
  {
  }

  lemma HeaderEpoch(s: State, body: Body)
    requires StateInv(s)
    ensures
      var m := BuildMsg(s, body);
      m.currentEpoch == s.currentEpoch && m.sender == s.myself && m.body == body
  {
  }

  lemma MasterKnown(s: State, n: Name)
    requires Coherent(s) && n in s.nodes
    ensures s.nodes[n].slaveof.Some? ==> s.nodes[n].slaveof.value in s.nodes
  {
  }

  /** An acknowledgement is counted, once, exactly if it is a serving master's and not older
      than the election; nothing else but epochs changes. */
  lemma AckIs(s: State, m: Msg, env: Env)
    requires StateInv(s) && MsgInv(m) && m.sender in s.nodes && m.sender != s.myself && m.body.AuthAck?
    ensures
      var o, node := Receive(s, m, env), s.nodes[m.sender];
      && o.sends == multiset{}
      && Observed(s, o.state.(authCount := s.authCount), m)
      && o.state.authCount
         == s.authCount + if node.master && node.numslots > 0 && s.authEpoch <= m.currentEpoch then 1 else 0
  {
    hide StateInv;
    ObservedIs(s, m);
  }

  /** Of nodes that are not known only pings are answered, and nothing is believed; a FAIL
      marks a known node other than this process; an UPDATE is what UpdateIs says. */
  lemma OtherPacketsAre(s: State, m: Msg, env: Env)
    requires StateInv(s) && MsgInv(m) && m.sender != s.myself
    ensures
      var o := Receive(s, m, env);
      && (m.sender !in s.nodes ==> o.state == s)
      && (m.sender !in s.nodes ==> |o.sends| == if m.body.Ping? || m.body.Meet? then 1 else 0)
      && (m.sender in s.nodes && (m.body.Fail? || m.body.Update? || m.body.Other?) ==>
            o.sends == multiset{} && exists s1 :: Observed(s, s1, m) && StateInv(s1) && PacketDone(s1, o.state, m.body))
  {
    hide Coherent, RoleOk, ReceiveUpdate, GrantsVote, CountsAck, BuildMsg;
    if m.sender in s.nodes {
      var s1 := ObserveEpochs(s, m);
      ObservedIs(s, m);
      ObserveKeepsInv(s, m);
      if m.body.Fail? || m.body.Update? || m.body.Other? { assert PacketDone(s1, Receive(s, m, env).state, m.body); }
    }
  }

  ghost predicate PacketDone(s: State, r: State, body: Body)
    requires StateInv(s)
  {
    match body
    case Fail(about) =>
      if about in s.nodes && about != s.myself then r == s.(nodes := s.nodes[about := s.nodes[about].(fail := true)])
      else r == s
    case Update(n, epoch, bits) => epoch <= s.currentEpoch && r == ReceiveUpdate(s, n, epoch, bits)
    case _ => r == s
  }

  // ------------------------------------------------------------------- heartbeats

  // The role a node announces: a master is nobody's replica; a master that has become a
  // replica loses its slots, and follows the node it names if that one is known.
  ghost predicate RoleTold(s: State, r: State, m: Msg) {
    && m.sender in s.nodes && r.nodes.Keys == s.nodes.Keys && |s.slots| == |r.slots| == CLUSTER_SLOTS
    && r == s.(slots := r.slots, nodes := r.nodes)
    && (forall n | n in s.nodes && n != m.sender :: r.nodes[n] == s.nodes[n])
    && var was, now := s.nodes[m.sender], r.nodes[m.sender];
       && now.configEpoch == was.configEpoch && now.fail == was.fail
       && now.master == m.slaveof.None?
       && (m.slaveof.None? ==> r.slots == s.slots && now.slaveof == if was.master then was.slaveof else None)
       && (m.slaveof.Some? ==> now.slaveof == if m.slaveof.value in s.nodes then m.slaveof else was.slaveof)
       && (m.slaveof.Some? ==>
             forall j | 0 <= j < CLUSTER_SLOTS ::
               r.slots[j] == if was.master && s.slots[j] == Some(m.sender) then None else s.slots[j])
  }

  lemma RoleIs(s: State, m: Msg)
    requires StateInv(s) && m.sender in s.nodes && m.sender != s.myself
    ensures StateInv(RoleSwitch(s, m)) && RoleTold(s, RoleSwitch(s, m), m)
  {
    hide Owned, EpochsBounded, Coherent, DemoteNode, RoleOk;
    RoleSwitchKeepsInv(s, m);
    DemoteKeepsInv(s, m.sender);
    DemoteIs(s, m.sender);
  }

  lemma DemoteIs(s: State, n: Name)
    requires StateInv(s) && n in s.nodes && n != s.myself
    ensures
      var r := DemoteNode(s, n);
      && r == s.(slots := r.slots, nodes := r.nodes) && r.nodes.Keys == s.nodes.Keys
      && |s.slots| == |r.slots| == CLUSTER_SLOTS
      && (forall m | m in s.nodes && m != n :: r.nodes[m] == s.nodes[m])
      && r.nodes[n] == s.nodes[n].(master := false, slots := r.nodes[n].slots, numslots := r.nodes[n].numslots)
      && forall j | 0 <= j < CLUSTER_SLOTS ::
           r.slots[j] == if s.nodes[n].master && s.slots[j] == Some(n) then None else s.slots[j]
  {
    hide EpochsBounded, RoleOk, Owned;
    DemoteKeepsInv(s, n);
    forall m | m in s.nodes && m != n
      ensures Owned(WithoutNode(s.slots, n), m) == Owned(s.slots, m)
    {
      OwnedIs(s.slots, m);
      OwnedIs(WithoutNode(s.slots, n), m);
    }
  }

  // The least slot that the sender claims although a node with a newer epoch has it.
  ghost predicate FirstStale(s: State, m: Msg, j: nat)
    requires StateInv(s)
  {
    Stale(s, m, j) && forall i | 0 <= i < j :: !Stale(s, m, i)
  }

  ghost predicate Stale(s: State, m: Msg, j: nat)
    requires StateInv(s)
  {
    && j < CLUSTER_SLOTS && j in m.slots && s.slots[j].Some? && s.slots[j].value != m.sender
    && m.configEpoch < s.nodes[s.slots[j].value].configEpoch
  }

  // Who claims slots that a node with a newer epoch has is told about that node: its epoch
  // and all its slots; of several the one of the least slot.
  ghost predicate Corrected(s: State, m: Msg, sends: multiset<Envelope>)
    requires StateInv(s)
  {
    && ((forall j: nat :: !Stale(s, m, j)) ==> sends == multiset{})
    && forall j: nat | FirstStale(s, m, j) :: OneUpdate(s, m, sends, s.slots[j].value)
  }

  ghost predicate OneUpdate(s: State, m: Msg, sends: multiset<Envelope>, n: Name)
    requires StateInv(s) && n in s.nodes
  {
    exists a :: sends == multiset{Envelope(m.sender, a)} && TellsAbout(s, a, n)
  }

  lemma SendUpdateIs(s: State, m: Msg)
    requires StateInv(s) && m.sender in s.nodes
    ensures s.myself in s.nodes && Corrected(s, m, SendUpdate(s, m))
  {
    hide Owned, EpochsBounded, RoleOk, BuildMsg;
    Knows(s);
    var r := FirstOutdated(s, m, CLUSTER_SLOTS);
    forall j: nat ensures Stale(s, m, j) <==> j < CLUSTER_SLOTS && OutdatedClaim(s, m, j) {}
    forall j: nat | FirstStale(s, m, j)
      ensures OneUpdate(s, m, SendUpdate(s, m), s.slots[j].value)
    {
      var n := s.slots[j].value;
      assert r == Some(j);
      var a := BuildMsg(s, Update(n, s.nodes[n].configEpoch, s.nodes[n].slots));
      HeaderEpoch(s, Update(n, s.nodes[n].configEpoch, s.nodes[n].slots));
      OwnedIs(s.slots, n);
      assert SendUpdate(s, m) == multiset{Envelope(m.sender, a)} && TellsAbout(s, a, n);
    }
  }

  ghost predicate TellsAbout(s: State, a: Msg, n: Name)
    requires StateInv(s) && n in s.nodes
  {
    && a.body.Update? && a.body.node == n && a.body.epoch == s.nodes[n].configEpoch && a.sender == s.myself
    && forall j: nat :: j in a.body.bits <==> j < CLUSTER_SLOTS && s.slots[j] == Some(n)
  }

  // Two masters with the same epoch: the one with the smaller name takes a new one.
  ghost predicate Settled(s: State, r: State, m: Msg)
    requires StateInv(s) && m.sender in s.nodes
  {
    var me, them := s.nodes[s.myself], s.nodes[m.sender];
    r == if me.master && them.master && m.configEpoch == me.configEpoch == them.configEpoch && s.myself < m.sender
         then s.(currentEpoch := s.currentEpoch + 1, nodes := s.nodes[s.myself := me.(configEpoch := s.currentEpoch + 1)])
         else s
  }

  lemma SettledIs(s: State, m: Msg)
    requires StateInv(s) && m.sender in s.nodes
    ensures StateInv(ResolveCollision(s, m)) && Settled(s, ResolveCollision(s, m), m)
  {
    hide Coherent, EpochsBounded;
    ResolveCollisionKeepsInv(s, m);
  }

  // What the sender claims is not what is recorded for it, or for the master it replicates.
  ghost predicate Differs(s: State, m: Msg)
    requires StateInv(s) && m.sender in s.nodes
  {
    var node := s.nodes[m.sender];
    var who := if node.master then Some(m.sender) else node.slaveof;
    who.Some? && exists j: nat :: j in m.slots <==> !(j < CLUSTER_SLOTS && s.slots[j] == who)
  }

  lemma DiffersIff(s: State, m: Msg)
    requires StateInv(s) && m.sender in s.nodes
    ensures DirtySlots(s, m) <==> Differs(s, m)
  {
    hide EpochsBounded, RoleOk, Owned;
    var node := s.nodes[m.sender];
    if node.master || node.slaveof.Some? {
      var who := if node.master then m.sender else node.slaveof.value;
      OwnedIs(s.slots, who);
      assert s.nodes[who].slots == Owned(s.slots, who);
      if m.slots != Owned(s.slots, who) {
        var j :| j in m.slots <==> !(j in Owned(s.slots, who));
        assert j in m.slots <==> !(j < CLUSTER_SLOTS && s.slots[j] == Some(who));
      }
    }
  }

  /** A heartbeat of a known node, step by step: epochs, then its role, then its claims if it
      is a master, then a collision of epochs; a ping is answered, and claims that are out of
      date are answered by an UPDATE if there is a link. */
  lemma HeartbeatIs(s: State, m: Msg, env: Env)
    returns (s1: State, s2: State, s3: State, pong: Msg, told: multiset<Envelope>)
    requires StateInv(s) && MsgInv(m) && m.sender in s.nodes && m.sender != s.myself
    requires m.body.Ping? || m.body.Pong? || m.body.Meet?
    ensures StateInv(s1) && StateInv(s2) && StateInv(s3) && m.sender in s2.nodes && m.sender in s3.nodes
    ensures Observed(s, s1, m) && RoleTold(s1, s2, m)
    ensures m.slaveof.None? ==> Reassigned(s2, s3.slots, m.sender, m.configEpoch, m.slots) && RolesAfter(s2, s3, m.sender)
    ensures m.slaveof.Some? ==> s3 == s2
    ensures s3 == s2.(slots := s3.slots, nodes := s3.nodes, importing := s3.importing)
    ensures Settled(s3, Receive(s, m, env).state, m)
    ensures TrueHeader(s1, pong) && pong.body.Pong?
    ensures Receive(s, m, env).sends ==
            (if m.body.Pong? then multiset{} else multiset{Envelope(m.sender, pong)})
            + (if Differs(s2, m) && env.linkUp then told else multiset{})
    ensures Corrected(s3, m, told)
  {
    hide Coherent, EpochsBounded, Reassigned, RolesAfter, RoleSwitch, ResolveCollision, SendUpdate, BuildMsg, Settled, Differs,
      Corrected, DirtySlots, TrueHeader, UpdateSlotsConfigWith, RoleOk, MsgInv;
    s1, s2 := ObserveEpochs(s, m), RoleSwitch(ObserveEpochs(s, m), m);
    ObservedIs(s, m);
    RoleIs(s1, m);
    s3 := AdoptClaims(s2, m);
    AdoptClaimsKeepsInv(s2, m);
    DiffersIff(s2, m);
    ClaimsAdopted(s2, m);
    SettledIs(s3, m);
    PongIsTrue(s1);
    pong := BuildMsg(s1, Pong);
    SendUpdateIs(s3, m);
    told := SendUpdate(s3, m);
  }

  lemma PongIsTrue(s: State)
    requires StateInv(s)
    ensures s.myself in s.nodes && TrueHeader(s, BuildMsg(s, Pong)) && BuildMsg(s, Pong).body.Pong?
  {
    assert s.nodes[HeaderOwner(s)].slots == Owned(s.slots, HeaderOwner(s));
  }

  // A master's claims that are as recorded change nothing.
  lemma ClaimsAdopted(s: State, m: Msg)
    requires StateInv(s) && m.sender in s.nodes && m.sender != s.myself
    ensures
      var r := AdoptClaims(s, m);
      && r == s.(slots := r.slots, nodes := r.nodes, importing := r.importing) && r.nodes.Keys == s.nodes.Keys
      && (s.nodes[m.sender].master ==> Reassigned(s, r.slots, m.sender, m.configEpoch, m.slots) && RolesAfter(s, r, m.sender))
      && (!s.nodes[m.sender].master ==> r == s)
  {
    hide EpochsBounded, Owned, UpdateSlotsConfigWith, RoleOk;
    AdoptClaimsKeepsInv(s, m);
    ClaimIs(s, m.sender, m.configEpoch, m.slots);
    if s.nodes[m.sender].master && !DirtySlots(s, m) {
      OwnedIs(s.slots, m.sender);
      assert s.nodes[m.sender].slots == Owned(s.slots, m.sender);
    }
  }

  // ------------------------------------------------------------------ commands

  // Slots and epochs of nodes may differ, nothing else about them.
  ghost predicate SameRoles(s: State, r: State) {
    && r.nodes.Keys == s.nodes.Keys
    && r == s.(slots := r.slots, importing := r.importing, nodes := r.nodes, currentEpoch := r.currentEpoch)
    && forall n | n in s.nodes ::
         && r.nodes[n].master == s.nodes[n].master && r.nodes[n].slaveof == s.nodes[n].slaveof
         && r.nodes[n].fail == s.nodes[n].fail
         && (n != s.myself ==> r.nodes[n].configEpoch == s.nodes[n].configEpoch)
  }

  ghost predicate SameEpochs(s: State, r: State) {
    r.currentEpoch == s.currentEpoch && s.myself in s.nodes && s.myself in r.nodes
    && r.nodes[s.myself].configEpoch == s.nodes[s.myself].configEpoch
  }

  // The slots in which are o now, the others as before.
  ghost predicate Put(was: seq<Option<Name>>, now: seq<Option<Name>>, which: set<nat>, o: Option<Name>) {
    |now| == |was| && forall j: nat | j < |was| :: now[j] == if j in which then o else was[j]
  }

  // The epoch stays, or is the next one after all that are known.
  ghost predicate MayBump(s: State, r: State, bumps: bool)
    requires s.myself in s.nodes && s.myself in r.nodes
  {
    var was, now := s.nodes[s.myself].configEpoch, r.nodes[s.myself].configEpoch;
    if bumps && (was == 0 || was != s.currentEpoch) then now == r.currentEpoch == s.currentEpoch + 1
    else now == was && r.currentEpoch == s.currentEpoch
  }

  lemma ReboundRoles(s: State, t: seq<Option<Name>>, importing: seq<Option<Name>>)
    requires s.myself in s.nodes
    ensures
      var r := Rebind(s, t).(importing := importing);
      SameRoles(s, r) && SameEpochs(s, r) && r.slots == t && r.importing == importing
    ensures
      var r := Rebind(s, t);
      SameRoles(s, r) && SameEpochs(s, r) && r.slots == t && r.importing == s.importing && r.myself == s.myself
  {
    hide Owned;
  }

  /** All slots of ADDSLOTS, or none, are taken by this process: none if one of them has an
      owner. No slot stays marked as being imported. */
  lemma AddSlotsIs(s: State, which: set<nat>)
    requires StateInv(s)
    ensures
      var r := Execute(s, AddSlots(which));
      if forall j | j in which :: j < CLUSTER_SLOTS && s.slots[j].None? then
        && SameRoles(s, r) && SameEpochs(s, r)
        && Put(s.slots, r.slots, which, Some(s.myself)) && Put(s.importing, r.importing, which, None)
      else r == s
  {
    hide EpochsBounded, Rebind, SameRoles, SameEpochs;
    Knows(s);
    ReboundRoles(s, TakenBy(s.slots, which, s.myself), Cleared(s.importing, which));
  }

  /** All slots of DELSLOTS, or none, lose their owner: none if one of them has no owner. */
  lemma DelSlotsIs(s: State, which: set<nat>)
    requires StateInv(s)
    ensures
      var r := Execute(s, DelSlots(which));
      if forall j | j in which :: j < CLUSTER_SLOTS && s.slots[j].Some? then
        && SameRoles(s, r) && SameEpochs(s, r)
        && Put(s.slots, r.slots, which, None) && Put(s.importing, r.importing, which, None)
      else r == s
  {
    hide EpochsBounded, Rebind, SameRoles, SameEpochs;
    Knows(s);
    ReboundRoles(s, Cleared(s.slots, which), Cleared(s.importing, which));
  }

  /** FLUSHSLOTS gives up the slots of this process; a slot that it does not have can be marked
      as being imported from a known node by a master, and the mark taken away. */
  lemma MarkIs(s: State, slot: nat, from: Name)
    requires StateInv(s)
    ensures
      var f := Execute(s, FlushSlots);
      && SameRoles(s, f) && SameEpochs(s, f) && f.importing == s.importing && |f.slots| == CLUSTER_SLOTS
      && forall j | 0 <= j < CLUSTER_SLOTS :: f.slots[j] == if s.slots[j] == Some(s.myself) then None else s.slots[j]
    ensures
      var may := s.nodes[s.myself].master && slot < CLUSTER_SLOTS;
      && Execute(s, SetSlotStable(slot)) == (if may then s.(importing := s.importing[slot := None]) else s)
      && Execute(s, SetSlotImporting(slot, from))
         == if may && s.slots[slot] != Some(s.myself) && from in s.nodes
            then s.(importing := s.importing[slot := Some(from)]) else s
  {
    hide EpochsBounded, Rebind, SameRoles, SameEpochs;
    Knows(s);
    ReboundRoles(s, WithoutNode(s.slots, s.myself), s.importing);
  }

  /** A master assigns a slot to a known node, unless it has the slot itself, with keys in it.
      Getting a slot that was being imported ends that, and takes a new epoch. */
  lemma AssignIs(s: State, slot: nat, owner: Name, hasKeys: bool)
    requires StateInv(s)
    ensures
      var r, me := Execute(s, SetSlotNode(slot, owner, hasKeys)), s.myself;
      && me in s.nodes
      && if s.nodes[me].master && slot < CLUSTER_SLOTS && owner in s.nodes
            && !(s.slots[slot] == Some(me) && owner != me && hasKeys) then
           var ends := owner == me && s.importing[slot].Some?;
           && SameRoles(s, r) && me in r.nodes
           && Put(s.slots, r.slots, {slot}, Some(owner))
           && Put(s.importing, r.importing, if ends then {slot} else {}, None)
           && MayBump(s, r, ends)
         else r == s
  {
    hide EpochsBounded, Rebind, SameRoles, SameEpochs, MayBump, CloseImport, Coherent;
    Knows(s);
    if s.nodes[s.myself].master && slot < CLUSTER_SLOTS && owner in s.nodes {
      var b := CloseImport(s, slot, owner);
      CloseImportKeepsInv(s, slot, owner);
      ClosedIs(s, slot, owner);
      Knows(b);
      ReboundRoles(b, s.slots[slot := Some(owner)], b.importing);
      var r := Rebind(b, s.slots[slot := Some(owner)]);
      SameTwice(s, b, r, owner == s.myself && s.importing[slot].Some?);
    }
  }

  lemma SameTwice(s: State, b: State, r: State, bumps: bool)
    requires SameRoles(s, b) && s.myself in s.nodes && s.myself in b.nodes && MayBump(s, b, bumps)
    requires SameRoles(b, r) && b.myself == s.myself && SameEpochs(b, r)
    ensures SameRoles(s, r) && MayBump(s, r, bumps)
  {
  }

  lemma ClosedIs(s: State, slot: nat, owner: Name)
    requires StateInv(s) && slot < CLUSTER_SLOTS
    ensures
      var b, ends := CloseImport(s, slot, owner), owner == s.myself && s.importing[slot].Some?;
      && SameRoles(s, b) && s.myself in s.nodes && s.myself in b.nodes && b.myself == s.myself
      && b.slots == s.slots && Put(s.importing, b.importing, if ends then {slot} else {}, None)
      && MayBump(s, b, ends)
  {
    hide EpochsBounded, Owned;
  }

  /** BUMPEPOCH takes a new epoch unless this process has the greatest one already; the epoch
      of a node that is alone and has none can be set. */
  lemma EpochCommandIs(s: State, epoch: nat)
    requires StateInv(s)
    ensures
      var r := Execute(s, BumpEpoch);
      && s.myself in s.nodes && s.myself in r.nodes
      && SameRoles(s, r) && r.slots == s.slots && r.importing == s.importing && MayBump(s, r, true)
    ensures
      Execute(s, SetConfigEpoch(epoch))
      == if |s.nodes| == 1 && s.nodes[s.myself].configEpoch == 0
         then s.(currentEpoch := Later(s.currentEpoch, epoch),
                 nodes := s.nodes[s.myself := s.nodes[s.myself].(configEpoch := epoch)])
         else s
  {
    hide EpochsBounded, Coherent;
    Knows(s);
    assert |s.nodes| > 0;
  }

  /** Following a known master is possible for a replica and for an empty master without slots. */
  lemma ReplicateIs(s: State, n: Name, empty: bool)
    requires StateInv(s)
    ensures
      var r, me := Execute(s, Replicate(n, empty)), s.nodes[s.myself];
      if n in s.nodes && n != s.myself && s.nodes[n].master && (me.master ==> me.numslots == 0 && empty) then
        && r == s.(nodes := s.nodes[s.myself := me.(master := false, slaveof := Some(n))], importing := r.importing)
        && (if me.master then forall j | 0 <= j < |r.importing| :: r.importing[j].None? else r.importing == s.importing)
      else r == s
  {
    hide EpochsBounded, Coherent, SetMaster;
    Knows(s);
    SetMasterIs(s, n);
  }

  /** A soft reset leaves this process as a master that knows nobody and no slot. */
  lemma ResetIs(s: State)
    requires StateInv(s)
    ensures
      var r, me := Execute(s, ResetSoft), s.nodes[s.myself];
      && r == s.(slots := r.slots, importing := r.importing,
                 nodes := map[s.myself := me.(master := true, slaveof := None, slots := {}, numslots := 0)])
      && |r.slots| == |r.importing| == CLUSTER_SLOTS
      && forall j | 0 <= j < CLUSTER_SLOTS :: r.slots[j].None? && r.importing[j].None?
  {
    hide EpochsBounded, Coherent;
  }

  /** Forgetting a known node that this process does not follow takes it out of the table, with
      its slots, the imports from it and the replicas' references to it. */
  lemma ForgetIs(s: State, n: Name)
    requires StateInv(s)
    ensures
      var r, me := Execute(s, Forget(n)), s.nodes[s.myself];
      if n in s.nodes && n != s.myself && (me.master || me.slaveof != Some(n)) then
        && r == s.(slots := r.slots, importing := r.importing, nodes := r.nodes) && r.nodes.Keys == s.nodes.Keys - {n}
        && |r.slots| == |r.importing| == CLUSTER_SLOTS
        && (forall j | 0 <= j < CLUSTER_SLOTS :: r.slots[j] == if s.slots[j] == Some(n) then None else s.slots[j])
        && (forall j | 0 <= j < CLUSTER_SLOTS ::
              r.importing[j] == if s.importing[j] == Some(n) then None else s.importing[j])
        && forall m | m in r.nodes ::
             r.nodes[m] == if s.nodes[m].slaveof == Some(n) then s.nodes[m].(slaveof := None) else s.nodes[m]
      else r == s
  {
    hide EpochsBounded, Owned;
    Knows(s);
    forall m | m in s.nodes && m != n
      ensures Owned(WithoutNode(s.slots, n), m) == Owned(s.slots, m)
    {
      OwnedIs(s.slots, m);
      OwnedIs(WithoutNode(s.slots, n), m);
    }
  }
}
