/** The process itself: server.cluster as an object whose fields the handlers update,
    with the slot table and the importing table as arrays. Every method is shown to
    take the configuration where ClusterModel says. The assertions of the source
    (clusterDelSlot, clusterSetMaster) appear as assert statements. */
module ClusterProcess {
  import opened Wrappers
  import opened ClusterModel
  import opened ClusterEffects

  class Cluster {
    const myself: Name
    var nodes: map<Name, Node>
    var currentEpoch: nat
    var lastVoteEpoch: nat
    var size: nat
    const slots: array<Option<Name>>
    const importing: array<Option<Name>>
    var authEpoch: nat
    var authCount: nat
    var authSent: bool

    ghost function View(): State
      reads this, slots, importing
    {
      State(myself, nodes, currentEpoch, lastVoteEpoch, size, slots[..], importing[..],
            authEpoch, authCount, authSent)
    }

    ghost predicate Tables()
      reads this
    {
      slots.Length == importing.Length == CLUSTER_SLOTS && slots != importing
    }

    ghost predicate Valid()
      reads this, slots, importing
    {
      Tables() && StateInv(View())
    }

    constructor (me: Name)
      ensures Valid() && View() == Fresh(me)
      ensures fresh(slots) && fresh(importing)
    {
      myself := me;
      nodes := map[me := Node(true, false, 0, {}, 0, None)];
      currentEpoch, lastVoteEpoch, size := 0, 0, 1;
      slots := new Option<Name>[CLUSTER_SLOTS](_ => None);
      importing := new Option<Name>[CLUSTER_SLOTS](_ => None);
      authEpoch, authCount, authSent := 0, 0, false;
      new;
      FreshInv(me);
      assert slots[..] == Fresh(me).slots && importing[..] == Fresh(me).importing;
    }

    /** The slot must be free. */
    method AddSlot(n: Name, j: nat) returns (ok: bool)
      requires Tables() && Coherent(View()) && n in nodes && j < CLUSTER_SLOTS
      modifies this`nodes, slots
      ensures ok <==> old(slots[j]).None?
      ensures Coherent(View())
      ensures View() == if ok then Rebind(old(View()), old(slots[..])[j := Some(n)]) else old(View())
      ensures nodes.Keys == old(nodes.Keys)
    {
      if slots[j].Some? { return false; }
      ghost var s := View();
      var node := nodes[n];
      nodes := nodes[n := node.(slots := node.slots + {j}, numslots := node.numslots + 1)];
      slots[j] := Some(n);
      AddedSlot(s, n, j, View());
      return true;
    }

    /** The bit of the owner is set whenever the table names an owner. */
    method DelSlot(j: nat) returns (ok: bool)
      requires Tables() && Coherent(View()) && j < CLUSTER_SLOTS
      modifies this`nodes, slots
      ensures ok <==> old(slots[j]).Some?
      ensures Coherent(View())
      ensures View() == Rebind(old(View()), old(slots[..])[j := None])
      ensures forall n | old(slots[j]) == Some(n) :: n in old(nodes) && n in nodes && nodes[n].numslots + 1 == old(nodes[n].numslots)
      ensures nodes.Keys == old(nodes.Keys)
    {
      hide Coherent, Rebind;
      ghost var s := View();
      SlotIsCounted(s, j);
      if slots[j].None? {
        assert s.slots[j := None] == s.slots;
        RebindSelf(s);
        return false;
      }
      var n := slots[j].value;
      var node := nodes[n];
      assert j in node.slots && node.numslots > 0;
      nodes := nodes[n := node.(slots := node.slots - {j}, numslots := node.numslots - 1)];
      slots[j] := None;
      RemovedSlot(s, n, j, View());
      return true;
    }

    /** All slots of a node are freed; their number is returned. */
    method DelNodeSlots(n: Name) returns (deleted: nat)
      requires Tables() && Coherent(View()) && n in nodes
      modifies this`nodes, slots
      ensures Coherent(View()) && View() == ClusterModel.DelNodeSlots(old(View()), n)
      ensures deleted == |Owned(old(slots[..]), n)|
    {
      hide Coherent, Rebind, Mixed, Owned;
      ghost var s, t := View(), WithoutNode(slots[..], n);
      RebindStart(s, t);
      deleted := 0;
      for j := 0 to CLUSTER_SLOTS
        invariant n in nodes && Coherent(View()) && View() == Rebind(s, Mixed(s.slots, t, j))
        invariant deleted + nodes[n].numslots == s.nodes[n].numslots
      {
        ghost var v := View();
        BitIsOwner(v, n, j);
        RebindStep(s, v, t, j);
        if j in nodes[n].slots {
          var _ := DelSlot(j);
          deleted := deleted + 1;
        }
      }
      MixedEnd(s.slots, t);
      AllCounted(s, View(), t, n);
    }

    method SetMaster(n: Name)
      requires Valid() && n in nodes && n != myself && nodes[myself].numslots == 0
      modifies this`nodes, importing
      ensures Valid() && View() == ClusterModel.SetMaster(old(View()), n)
    {
      hide Coherent, EpochsBounded;
      assert n != myself;
      assert nodes[myself].numslots == 0;
      ghost var s := View();
      SetMasterKeepsInv(s, n);
      var me := nodes[myself];
      if me.master {
        forall j | 0 <= j < importing.Length { importing[j] := None; }
      }
      nodes := nodes[myself := me.(master := false, slaveof := Some(n))];
      assert View().importing == ClusterModel.SetMaster(s, n).importing;
      assert View() == ClusterModel.SetMaster(s, n);
    }

    method MoveSlot(j: nat, n: Name)
      requires Tables() && Coherent(View()) && n in nodes && j < CLUSTER_SLOTS
      modifies this`nodes, slots
      ensures Coherent(View()) && nodes.Keys == old(nodes.Keys)
      ensures View() == Rebind(old(View()), old(slots[..])[j := Some(n)])
    {
      hide Coherent, Rebind;
      ghost var v := View();
      var _ := DelSlot(j);
      RebindFrame(v, v.slots[j := None]);
      RebindTwice(v, v.slots[j := None], v.slots[j := Some(n)]);
      assert v.slots[j := None][j := Some(n)] == v.slots[j := Some(n)];
      var _ := AddSlot(n, j);
    }

    // The loop over the claimed slots; tells whether curmaster lost one.
    method ClaimSlots(sender: Name, epoch: nat, bits: set<nat>, curmaster: Option<Name>) returns (newmaster: bool)
      requires Tables() && Coherent(View()) && sender in nodes
      modifies this`nodes, slots
      ensures Coherent(View()) && nodes.Keys == old(nodes.Keys)
      ensures View() == Rebind(old(View()), Claimed(old(View()), sender, epoch, bits))
      ensures newmaster <==> LostBelow(old(View()), sender, epoch, bits, curmaster, CLUSTER_SLOTS)
    {
      hide Coherent, Rebind, Mixed, LostBelow;
      ghost var s := View();
      newmaster := false;
      ghost var t := Claimed(s, sender, epoch, bits);
      RebindStart(s, t);
      LostNone(s, sender, epoch, bits, curmaster);
      for j := 0 to CLUSTER_SLOTS
        invariant nodes.Keys == s.nodes.Keys && Coherent(View())
        invariant View() == Rebind(s, Mixed(s.slots, t, j))
        invariant newmaster <==> LostBelow(s, sender, epoch, bits, curmaster, j)
      {
        RebindStep(s, View(), t, j);
        RebindFrame(s, Mixed(s.slots, t, j));
        OwnerKnown(s, j);
        LostStep(s, sender, epoch, bits, curmaster, j);
        if j in bits && slots[j] != Some(sender) && importing[j].None?
           && (slots[j].None? || nodes[slots[j].value].configEpoch < epoch)
        {
          if slots[j] == curmaster { newmaster := true; }
          MoveSlot(j, sender);
        }
      }
      MixedEnd(s.slots, t);
    }

    method UpdateSlotsConfigWith(sender: Name, epoch: nat, bits: set<nat>)
      requires Valid() && sender in nodes
      modifies this`nodes, slots, importing
      ensures Valid() && View() == ClusterModel.UpdateSlotsConfigWith(old(View()), sender, epoch, bits)
      ensures nodes.Keys == old(nodes.Keys)
    {
      hide Coherent, Rebind, EpochsBounded;
      ghost var s := View();
      UpdateSlotsKeepsInv(s, sender, epoch, bits);
      var curmaster := if nodes[myself].master then Some(myself) else nodes[myself].slaveof;
      CurMasterKnown(s);
      if sender == myself { return; }
      var newmaster := ClaimSlots(sender, epoch, bits, curmaster);
      RebindFrame(s, Claimed(s, sender, epoch, bits));
      ClaimKeepsInv(s, sender, epoch, bits);
      if newmaster && nodes[curmaster.value].numslots == 0 {
        NowEmpty(s, sender, epoch, bits);
        SetMaster(sender);
      }
    }

    // Slots imported from the node are no longer imported.
    method StopImports(n: Name)
      requires Tables()
      modifies importing
      ensures importing[..] == WithoutNode(old(importing[..]), n)
    {
      hide Mixed;
      ghost var was := importing[..];
      MixedStart(was, WithoutNode(was, n));
      for j := 0 to CLUSTER_SLOTS
        invariant importing[..] == Mixed(was, WithoutNode(was, n), j)
      {
        MixedAt(was, WithoutNode(was, n), j);
        if importing[j] == Some(n) { importing[j] := None; }
      }
      MixedEnd(was, WithoutNode(was, n));
    }

    method DelNode(n: Name)
      requires Valid() && n in nodes && n != myself && (nodes[myself].master || nodes[myself].slaveof != Some(n))
      modifies this`nodes, slots, importing
      ensures Valid() && View() == ClusterModel.DelNode(old(View()), n)
    {
      hide Coherent, Rebind, EpochsBounded, Mixed, WithoutNode;
      ghost var s := View();
      DelNodeKeepsInv(s, n);
      StopImports(n);
      ImportingApart(s, importing[..], n);
      assert View() == s.(importing := importing[..]);
      var _ := DelNodeSlots(n);
      RebindFrame(s, WithoutNode(s.slots, n));
      nodes := map m | m in nodes && m != n ::
        if nodes[m].slaveof == Some(n) then nodes[m].(slaveof := None) else nodes[m];
    }

    method SetNodeAsMaster(n: Name)
      requires Valid() && n in nodes
      modifies this`nodes
      ensures Valid() && View() == ClusterModel.SetNodeAsMaster(old(View()), n)
    {
      SetNodeAsMasterKeepsInv(View(), n);
      if nodes[n].master { return; }
      nodes := nodes[n := nodes[n].(master := true, slaveof := None)];
    }

    method GetMaxEpoch() returns (max: nat)
      ensures IsMaxEpoch(View(), max)
    {
      max := 0;
      var todo := nodes.Keys;
      while todo != {}
        invariant todo <= nodes.Keys
        invariant forall n | n in nodes && n !in todo :: nodes[n].configEpoch <= max
        invariant max == 0 || exists n :: n in nodes && nodes[n].configEpoch == max
        decreases todo
      {
        var n :| n in todo;
        if nodes[n].configEpoch > max { max := nodes[n].configEpoch; }
        todo := todo - {n};
      }
      if max < currentEpoch { max := currentEpoch; }
    }

    method BumpConfigEpochWithoutConsensus() returns (ok: bool)
      requires Valid()
      modifies this`currentEpoch, this`nodes
      ensures Valid() && View() == BumpWithoutConsensus(old(View()))
      ensures ok <==> nodes[myself].configEpoch > old(nodes)[myself].configEpoch
    {
      hide Coherent, IsMaxEpoch;
      BumpKeepsInv(View());
      var maxEpoch := GetMaxEpoch();
      MaxIsCurrent(View(), maxEpoch);
      if nodes[myself].configEpoch == 0 || nodes[myself].configEpoch != maxEpoch {
        currentEpoch := currentEpoch + 1;
        nodes := nodes[myself := nodes[myself].(configEpoch := currentEpoch)];
        return true;
      }
      return false;
    }

    method HandleConfigEpochCollision(sender: Name)
      requires Valid() && sender in nodes
      modifies this`currentEpoch, this`nodes
      ensures Valid() && View() == HandleCollision(old(View()), sender)
    {
      hide Coherent, EpochsBounded;
      TakeNextEpochKeepsInv(View());
      if nodes[sender].configEpoch != nodes[myself].configEpoch
         || !nodes[sender].master || !nodes[myself].master { return; }
      if sender <= myself { return; }
      currentEpoch := currentEpoch + 1;
      nodes := nodes[myself := nodes[myself].(configEpoch := currentEpoch)];
    }

    method CountServingMasters() returns (serving: nat)
      ensures serving == |ServingMasters(View())|
    {
      serving := 0;
      var todo := nodes.Keys;
      ghost var seen: set<Name> := {};
      while todo != {}
        invariant todo <= nodes.Keys
        invariant forall n :: n in seen <==> n in nodes && n !in todo && nodes[n].master && nodes[n].numslots > 0
        invariant serving == |seen|
        decreases todo
      {
        var n :| n in todo;
        if nodes[n].master && nodes[n].numslots > 0 {
          serving := serving + 1;
          seen := seen + {n};
        }
        todo := todo - {n};
      }
      assert seen == ServingMasters(View());
    }

    method UpdateState()
      requires Valid()
      modifies this`size
      ensures Valid() && View() == RefreshSize(old(View()))
    {
      hide StateInv;
      RefreshKeepsInv(View());
      size := CountServingMasters();
    }

    method FailoverReplaceYourMaster()
      requires Valid()
      modifies this`nodes, slots
      ensures Valid() && View() == ReplaceMaster(old(View()))
      ensures !old(nodes[myself].master) ==>
        TakenOver(old(slots[..]), slots[..], old(nodes[myself].slaveof.value), myself) && nodes[myself].master
    {
      hide Coherent, Rebind, EpochsBounded, Mixed, TakenOver;
      ghost var s0 := View();
      ReplaceMasterKeepsInv(s0);
      if !nodes[myself].master { ReplacedIs(s0); }
      CurMasterKnown(s0);
      if nodes[myself].master { return; }
      var oldmaster := nodes[myself].slaveof.value;
      SetNodeAsMaster(myself);
      ghost var s, t := View(), Inherited(slots[..], oldmaster, myself);
      RebindStart(s, t);
      for j := 0 to CLUSTER_SLOTS
        invariant nodes.Keys == s.nodes.Keys && Coherent(View())
        invariant View() == Rebind(s, Mixed(s.slots, t, j))
      {
        RebindStep(s, View(), t, j);
        BitIsOwner(View(), oldmaster, j);
        if j in nodes[oldmaster].slots {
          MoveSlot(j, myself);
        }
      }
      MixedEnd(s.slots, t);
    }

    method BuildMessageHdr(body: Body) returns (m: Msg)
      requires Valid()
      ensures m == BuildMsg(View(), body)
    {
      CurMasterKnown(View());
      var me := nodes[myself];
      var master := if !me.master && me.slaveof.Some? then me.slaveof.value else myself;
      m := Msg(myself, currentEpoch, nodes[master].configEpoch, nodes[master].slots, me.slaveof, body);
    }

    method BroadcastMessage(links: set<Name>, body: Body) returns (sends: multiset<Envelope>)
      requires Valid()
      ensures sends == Broadcast(View(), links, body)
    {
      hide Coherent, EpochsBounded, BuildMsg;
      var m := BuildMessageHdr(body);
      var todo := nodes.Keys;
      var packets: set<Envelope> := {};
      while todo != {}
        invariant todo <= nodes.Keys
        invariant packets == set n | n in nodes.Keys && n !in todo && n in links && n != myself :: Envelope(n, m)
        decreases todo
      {
        var n :| n in todo;
        if n in links && n != myself {
          packets := packets + {Envelope(n, m)};
        }
        todo := todo - {n};
      }
      sends := multiset(packets);
      assert packets == set n | n in nodes.Keys && n in links && n != myself :: Envelope(n, BuildMsg(View(), body));
    }

    // The header of a packet from a known sender.
    method ObserveHeader(m: Msg)
      requires Valid() && MsgInv(m)
      modifies this`currentEpoch, this`nodes
      ensures Valid() && View() == ObserveEpochs(old(View()), m)
    {
      hide Coherent, EpochsBounded, RoleOk;
      ghost var s := View();
      ObserveKeepsInv(s, m);
      if m.sender !in nodes { return; }
      if m.currentEpoch > currentEpoch { currentEpoch := m.currentEpoch; }
      if m.configEpoch > nodes[m.sender].configEpoch {
        nodes := nodes[m.sender := nodes[m.sender].(configEpoch := m.configEpoch)];
      }
      assert nodes == ObserveEpochs(s, m).nodes;
      assert View() == ObserveEpochs(s, m);
    }

    method SwitchRole(m: Msg)
      requires Valid() && m.sender in nodes && m.sender != myself
      modifies this`nodes, slots
      ensures Valid() && View() == RoleSwitch(old(View()), m)
    {
      hide Coherent, EpochsBounded, Rebind;
      ghost var s := View();
      RoleSwitchKeepsInv(s, m);
      if m.slaveof.None? {
        SetNodeAsMaster(m.sender);
        return;
      }
      if nodes[m.sender].master {
        DemoteKeepsInv(s, m.sender);
        var _ := DelNodeSlots(m.sender);
        RebindFrame(s, WithoutNode(s.slots, m.sender));
        nodes := nodes[m.sender := nodes[m.sender].(master := false)];
      }
      if m.slaveof.value in nodes && nodes[m.sender].slaveof != m.slaveof {
        nodes := nodes[m.sender := nodes[m.sender].(slaveof := m.slaveof)];
      }
    }

    // The first slot whose claim by the sender is outdated, if any.
    method SendUpdateIfOutdated(m: Msg) returns (sends: multiset<Envelope>)
      requires Valid()
      ensures sends == SendUpdate(View(), m)
    {
      hide EpochsBounded, BuildMsg, Coherent, FirstOutdated;
      ghost var s := View();
      NoneFound(s, m, 0);
      for j := 0 to CLUSTER_SLOTS
        invariant FirstOutdated(s, m, j).None?
      {
        OwnerKnown(s, j);
        NoneFound(s, m, j);
        if j in m.slots && slots[j].Some? && slots[j] != Some(m.sender)
           && nodes[slots[j].value].configEpoch > m.configEpoch
        {
          FirstFound(s, m, j, CLUSTER_SLOTS);
          var n := slots[j].value;
          var packet := BuildMessageHdr(Update(n, nodes[n].configEpoch, nodes[n].slots));
          return multiset{Envelope(m.sender, packet)};
        }
      }
      return multiset{};
    }

    method ProcessHeartbeatConfig(m: Msg, env: Env) returns (sends: multiset<Envelope>)
      requires Valid() && m.sender in nodes && m.sender != myself
      modifies this`nodes, this`currentEpoch, slots, importing
      ensures Valid() && Outcome(View(), sends) == ProcessConfig(old(View()), m, env)
    {
      hide Coherent, EpochsBounded, RoleSwitch, ClusterModel.UpdateSlotsConfigWith, SendUpdate, HandleCollision;
      ghost var s := View();
      RoleSwitchKeepsInv(s, m);
      SwitchRole(m);
      ghost var s2 := View();
      AdoptClaimsKeepsInv(s2, m);
      var senderMaster := if nodes[m.sender].master then Some(m.sender) else nodes[m.sender].slaveof;
      SlaveofKnown(s2, m.sender);
      var dirty := senderMaster.Some? && nodes[senderMaster.value].slots != m.slots;
      if nodes[m.sender].master && dirty {
        UpdateSlotsConfigWith(m.sender, m.configEpoch, m.slots);
      }
      ghost var s3 := View();
      assert s3 == AdoptClaims(s2, m);
      sends := multiset{};
      if dirty && env.linkUp {
        sends := SendUpdateIfOutdated(m);
      }
      if nodes[myself].master && nodes[m.sender].master && m.configEpoch == nodes[myself].configEpoch {
        HandleConfigEpochCollision(m.sender);
      }
    }

    method SendFailoverAuthIfNeeded(m: Msg, env: Env) returns (sends: multiset<Envelope>)
      requires Valid() && m.sender in nodes && m.sender != myself && m.body.AuthRequest?
      modifies this`lastVoteEpoch
      ensures Valid() && Outcome(View(), sends) == Vote(old(View()), m, env)
    {
      hide Coherent, EpochsBounded, BuildMsg;
      ghost var s := View();
      VoteKeepsInv(s, m, env);
      sends := multiset{};
      var node := nodes[m.sender];
      if !nodes[myself].master || nodes[myself].numslots == 0 { return; }
      if m.currentEpoch < currentEpoch { return; }
      if lastVoteEpoch == currentEpoch { return; }
      SlaveofKnown(s, m.sender);
      if node.master || node.slaveof.None? || (!nodes[node.slaveof.value].fail && !m.body.forceAck) { return; }
      if env.votedRecently { return; }
      for j := 0 to CLUSTER_SLOTS
        invariant unchanged(this)
        invariant forall i | 0 <= i < j && i in m.slots && slots[i].Some? ::
          slots[i].value in nodes && nodes[slots[i].value].configEpoch <= m.configEpoch
      {
        OwnerKnown(s, j);
        if j !in m.slots { continue; }
        if slots[j].None? || nodes[slots[j].value].configEpoch <= m.configEpoch { continue; }
        assert !ClaimsFresh(s, m);
        return;
      }
      lastVoteEpoch := currentEpoch;
      if env.linkUp {
        var ack := BuildMessageHdr(AuthAck);
        sends := multiset{Envelope(m.sender, ack)};
      }
    }

    method ProcessUpdate(n: Name, epoch: nat, bits: set<nat>)
      requires Valid() && epoch <= currentEpoch
      modifies this`nodes, slots, importing
      ensures Valid() && View() == ReceiveUpdate(old(View()), n, epoch, bits)
    {
      hide Coherent, ClusterModel.UpdateSlotsConfigWith;
      if n !in nodes { return; }
      if nodes[n].configEpoch >= epoch { return; }
      SetNodeAsMaster(n);
      RaisedKeepsInv(View(), n, epoch);
      nodes := nodes[n := nodes[n].(configEpoch := epoch)];
      UpdateSlotsConfigWith(n, epoch, bits);
    }

    /** One packet: the configuration and the replies are those of Receive. */
    method ProcessPacket(m: Msg, env: Env) returns (sends: multiset<Envelope>)
      requires Valid() && MsgInv(m) && m.sender != myself
      modifies this, slots, importing
      ensures Valid() && Outcome(View(), sends) == Receive(old(View()), m, env)
    {
      hide Coherent, EpochsBounded, ObserveEpochs, ProcessConfig, Vote, ReceiveUpdate, BuildMsg;
      ghost var s := View();
      ObserveKeepsInv(s, m);
      var known := m.sender in nodes;
      if !known { UnknownSender(s, m); }
      ObserveHeader(m);
      sends := multiset{};
      if m.body.Ping? || m.body.Pong? || m.body.Meet? {
        if !m.body.Pong? {
          var pong := BuildMessageHdr(Pong);
          sends := multiset{Envelope(m.sender, pong)};
        }
        if known {
          var more := ProcessHeartbeatConfig(m, env);
          sends := sends + more;
        }
        return;
      }
      if !known { return; }
      match m.body {
        case Fail(about) =>
          SetFailKeepsInv(View(), about, true);
          if about in nodes && about != myself {
            nodes := nodes[about := nodes[about].(fail := true)];
          }
        case AuthRequest(_) => sends := SendFailoverAuthIfNeeded(m, env);
        case AuthAck =>
          CountAckKeepsInv(View(), m);
          if nodes[m.sender].master && nodes[m.sender].numslots > 0 && m.currentEpoch >= authEpoch {
            authCount := authCount + 1;
          }
        case Update(n, epoch, bits) => ProcessUpdate(n, epoch, bits);
        case _ =>
      }
    }

    /** The periodic routine of a replica, given its clock readings. */
    method HandleSlaveFailover(t: Timing) returns (sends: multiset<Envelope>)
      requires Valid()
      modifies this, slots
      ensures Valid() && Outcome(View(), sends) == ClusterModel.HandleSlaveFailover(old(View()), t)
    {
      hide Coherent, Broadcast, ReplaceMaster, RefreshSize;
      ghost var s := View();
      FailoverKeepsInv(s, t);
      SlaveofKnown(s, myself);
      sends := multiset{};
      if nodes[myself].master || nodes[myself].slaveof.None? { return; }
      var boss := nodes[nodes[myself].slaveof.value];
      if (!boss.fail && !t.manual) || (t.noFailover && !t.manual) || boss.numslots == 0 { return; }
      if t.dataTooOld && !t.manual { return; }
      if t.retryElapsed {
        authCount, authSent := 0, false;
        sends := BroadcastMessage(t.links, Pong);
        return;
      }
      if t.waiting { return; }
      if t.expired { return; }
      if !authSent {
        currentEpoch := currentEpoch + 1;
        authEpoch := currentEpoch;
        authSent := true;
        sends := BroadcastMessage(t.links, AuthRequest(t.forceAck));
        return;
      }
      if authCount >= size / 2 + 1 {
        AdoptKeepsInv(s);
        if nodes[myself].configEpoch < authEpoch {
          nodes := nodes[myself := nodes[myself].(configEpoch := authEpoch)];
        }
        assert View() == AdoptElectionEpoch(s);
        FailoverReplaceYourMaster();
        if t.refreshed { UpdateState(); }
        sends := BroadcastMessage(t.links, Pong);
      }
    }
  }

  // Among the first k slots, a prevailing claim takes one from curmaster.
  ghost predicate LostBelow(s: State, sender: Name, epoch: nat, bits: set<nat>, curmaster: Option<Name>, k: nat)
    requires Coherent(s) && k <= CLUSTER_SLOTS
  {
    exists j :: 0 <= j < k && Prevails(s, sender, epoch, bits, j) && s.slots[j] == curmaster
  }

  lemma LostNone(s: State, sender: Name, epoch: nat, bits: set<nat>, curmaster: Option<Name>)
    requires Coherent(s)
    ensures !LostBelow(s, sender, epoch, bits, curmaster, 0)
  {
  }

  lemma LostStep(s: State, sender: Name, epoch: nat, bits: set<nat>, curmaster: Option<Name>, k: nat)
    requires Coherent(s) && k < CLUSTER_SLOTS
    ensures LostBelow(s, sender, epoch, bits, curmaster, k + 1)
      <==> (LostBelow(s, sender, epoch, bits, curmaster, k)
            || (Prevails(s, sender, epoch, bits, k) && s.slots[k] == curmaster))
  {
  }

  // The first k entries of t, the others of s.
  ghost function Mixed(s: seq<Option<Name>>, t: seq<Option<Name>>, k: nat): seq<Option<Name>>
    requires |s| == |t| && k <= |s|
  {
    t[..k] + s[k..]
  }

  // A node has as many slots as its counter says, and none when they were taken away.
  lemma AllCounted(s: State, r: State, t: seq<Option<Name>>, n: Name)
    requires Coherent(s) && Coherent(r) && n in s.nodes && n in r.nodes
    requires t == WithoutNode(s.slots, n) && r == Rebind(s, t)
    ensures s.nodes[n].numslots == |Owned(s.slots, n)| && r.nodes[n].numslots == 0
  {
    OwnedEmpty(r, n);
  }

  lemma BitIsOwner(s: State, n: Name, j: nat)
    requires Coherent(s) && n in s.nodes && j < CLUSTER_SLOTS
    ensures j in s.nodes[n].slots <==> s.slots[j] == Some(n)
  {
  }

  lemma RebindSelf(s: State)
    requires Coherent(s)
    ensures Rebind(s, s.slots) == s
  {
    assert Rebind(s, s.slots).nodes == s.nodes;
  }

  lemma RebindTwice(s: State, t: seq<Option<Name>>, u: seq<Option<Name>>)
    ensures Rebind(Rebind(s, t), u) == Rebind(s, u)
  {
    assert Rebind(Rebind(s, t), u).nodes == Rebind(s, u).nodes;
  }

  lemma RebindStart(s: State, t: seq<Option<Name>>)
    requires Coherent(s) && |t| == CLUSTER_SLOTS
    ensures s == Rebind(s, Mixed(s.slots, t, 0))
  {
    RebindSelf(s);
    assert Mixed(s.slots, t, 0) == s.slots;
  }

  lemma RebindFrame(s: State, t: seq<Option<Name>>)
    ensures Rebind(s, t) == s.(slots := t, nodes := Rebind(s, t).nodes)
    ensures Rebind(s, t).nodes.Keys == s.nodes.Keys
    ensures forall n | n in s.nodes ::
      Rebind(s, t).nodes[n] == s.nodes[n].(slots := Owned(t, n), numslots := |Owned(t, n)|)
  {
  }

  lemma SlotIsCounted(s: State, j: nat)
    requires Coherent(s) && j < CLUSTER_SLOTS
    ensures |s.slots| == CLUSTER_SLOTS
    ensures
      var o := s.slots[j];
      o.Some? ==> o.value in s.nodes && j in s.nodes[o.value].slots && s.nodes[o.value].numslots > 0
  {
  }

  lemma OwnerKnown(s: State, j: nat)
    requires Coherent(s) && j < CLUSTER_SLOTS
    ensures s.slots[j].Some? ==> s.slots[j].value in s.nodes
  {
  }

  lemma MixedAt(s: seq<Option<Name>>, t: seq<Option<Name>>, j: nat)
    requires |s| == |t| && j < |s|
    ensures Mixed(s, t, j)[j] == s[j] && Mixed(s, t, j)[j := t[j]] == Mixed(s, t, j + 1)
    ensures s[j] == t[j] ==> Mixed(s, t, j) == Mixed(s, t, j + 1)
  {
  }

  lemma MixedStart(s: seq<Option<Name>>, t: seq<Option<Name>>)
    requires |s| == |t|
    ensures Mixed(s, t, 0) == s
  {
  }

  lemma MaxIsCurrent(s: State, e: nat)
    requires EpochsBounded(s) && IsMaxEpoch(s, e)
    ensures e == s.currentEpoch
  {
  }

  lemma ImportingApart(s: State, i: seq<Option<Name>>, n: Name)
    requires Coherent(s) && |i| == CLUSTER_SLOTS
    ensures Coherent(s.(importing := i))
    ensures ClusterModel.DelNodeSlots(s.(importing := i), n) == ClusterModel.DelNodeSlots(s, n).(importing := i)
  {
  }

  lemma SlaveofKnown(s: State, n: Name)
    requires Coherent(s) && n in s.nodes
    ensures s.nodes[n].slaveof.Some? ==> s.nodes[n].slaveof.value in s.nodes
  {
  }

  lemma UnknownSender(s: State, m: Msg)
    requires m.sender !in s.nodes
    ensures ObserveEpochs(s, m) == s
  {
  }

  lemma NoneFound(s: State, m: Msg, j: nat)
    requires Coherent(s) && j < CLUSTER_SLOTS
    ensures FirstOutdated(s, m, 0).None?
    ensures FirstOutdated(s, m, j).None? && !OutdatedClaim(s, m, j) ==> FirstOutdated(s, m, j + 1).None?
  {
    hide OutdatedClaim;
  }

  lemma {:induction false} FirstFound(s: State, m: Msg, j: nat, k: nat)
    requires Coherent(s) && j < k <= CLUSTER_SLOTS
    requires FirstOutdated(s, m, j).None? && OutdatedClaim(s, m, j)
    ensures FirstOutdated(s, m, k) == Some(j)
    decreases k
  {
    if j + 1 < k { FirstFound(s, m, j, k - 1); }
  }

  lemma AdoptKeepsInv(s: State)
    requires StateInv(s)
    ensures StateInv(AdoptElectionEpoch(s))
  {
  }

  lemma CurMasterKnown(s: State)
    requires StateInv(s)
    ensures CurMaster(s).Some? && CurMaster(s).value in s.nodes
  {
  }

  lemma ClaimKeepsInv(s: State, sender: Name, epoch: nat, bits: set<nat>)
    requires StateInv(s) && sender in s.nodes && sender != s.myself
    ensures StateInv(Rebind(s, Claimed(s, sender, epoch, bits)))
  {
    if !s.nodes[s.myself].master { ReplicaOwnsNothing(s); }
    RebindKeepsInv(s, Claimed(s, sender, epoch, bits));
  }

  // When the current master is left without slots, this process serves none.
  lemma NowEmpty(s: State, sender: Name, epoch: nat, bits: set<nat>)
    requires StateInv(s) && sender in s.nodes && sender != s.myself
    requires
      var r := Rebind(s, Claimed(s, sender, epoch, bits));
      r.nodes[CurMaster(s).value].numslots == 0
    ensures Rebind(s, Claimed(s, sender, epoch, bits)).nodes[s.myself].numslots == 0
  {
    ClaimKeepsInv(s, sender, epoch, bits);
  }

  lemma MixedEnd(s: seq<Option<Name>>, t: seq<Option<Name>>)
    requires |s| == |t|
    ensures Mixed(s, t, |s|) == t
  {
  }

  // One more entry of the new table.
  lemma RebindStep(s: State, v: State, t: seq<Option<Name>>, j: nat)
    requires |s.slots| == |t| && j < |t| && v == Rebind(s, Mixed(s.slots, t, j))
    ensures v.slots[j] == s.slots[j] && v.nodes.Keys == s.nodes.Keys
    ensures Rebind(v, v.slots[j := t[j]]) == Rebind(s, Mixed(s.slots, t, j + 1))
    ensures v.slots[j := t[j]] == v.slots ==> v == Rebind(s, Mixed(s.slots, t, j + 1))
    ensures Rebind(v, v.slots[j := None]).slots[j := t[j]] == Mixed(s.slots, t, j + 1)
    ensures Rebind(Rebind(v, v.slots[j := None]), Mixed(s.slots, t, j + 1)) == Rebind(s, Mixed(s.slots, t, j + 1))
  {
    assert Mixed(s.slots, t, j + 1) == Mixed(s.slots, t, j)[j := t[j]];
    RebindTwice(s, Mixed(s.slots, t, j), Mixed(s.slots, t, j + 1));
    RebindTwice(s, Mixed(s.slots, t, j), v.slots[j := None]);
    RebindTwice(s, v.slots[j := None], Mixed(s.slots, t, j + 1));
  }

  lemma AddedSlot(s: State, n: Name, j: nat, r: State)
    requires Coherent(s) && n in s.nodes && j < CLUSTER_SLOTS && s.slots[j].None?
    requires
      var node := s.nodes[n];
      r == s.(slots := s.slots[j := Some(n)],
              nodes := s.nodes[n := node.(slots := node.slots + {j}, numslots := node.numslots + 1)])
    ensures Coherent(r) && r == Rebind(s, s.slots[j := Some(n)])
  {
    OwnedUpdate(s, j, Some(n), r);
  }

  lemma RemovedSlot(s: State, n: Name, j: nat, r: State)
    requires Coherent(s) && n in s.nodes && j < CLUSTER_SLOTS && s.slots[j] == Some(n)
    requires s.nodes[n].numslots > 0
    requires
      var node := s.nodes[n];
      r == s.(slots := s.slots[j := None],
              nodes := s.nodes[n := node.(slots := node.slots - {j}, numslots := node.numslots - 1)])
    ensures Coherent(r) && r == Rebind(s, s.slots[j := None])
  {
    OwnedUpdate(s, j, None, r);
  }

  // Giving a slot to a node, or taking it away, changes the bitmap of that node alone.
  lemma OwnedUpdate(s: State, j: nat, o: Option<Name>, r: State)
    requires Coherent(s) && j < CLUSTER_SLOTS && (o.Some? ==> o.value in s.nodes)
    requires (o.Some? && s.slots[j].None?) || (o.None? && s.slots[j].Some?)
    requires r == s.(slots := s.slots[j := o], nodes := r.nodes) && r.nodes.Keys == s.nodes.Keys
    requires forall n | n in s.nodes ::
      r.nodes[n] == if o == Some(n) then
                      s.nodes[n].(slots := s.nodes[n].slots + {j}, numslots := s.nodes[n].numslots + 1)
                    else if s.slots[j] == Some(n) then
                      s.nodes[n].(slots := s.nodes[n].slots - {j}, numslots := r.nodes[n].numslots)
                    else s.nodes[n]
    requires forall n | n in s.nodes && s.slots[j] == Some(n) :: r.nodes[n].numslots == s.nodes[n].numslots - 1
    ensures Coherent(r) && r == Rebind(s, s.slots[j := o])
  {
    hide Owned;
    var t := s.slots[j := o];
    forall n | n in s.nodes
      ensures r.nodes[n] == s.nodes[n].(slots := Owned(t, n), numslots := |Owned(t, n)|)
    {
      OwnedAt(s.slots, j, o, n);
    }
    assert r.nodes == Rebind(s, t).nodes;
    RebindCoherent(s, t);
  }

  lemma OwnedAt(s: seq<Option<Name>>, j: nat, o: Option<Name>, n: Name)
    requires j < |s| && ((o.Some? && s[j].None?) || (o.None? && s[j].Some?))
    ensures o == Some(n) ==> Owned(s[j := o], n) == Owned(s, n) + {j} && j !in Owned(s, n)
    ensures s[j] == Some(n) ==> Owned(s[j := o], n) == Owned(s, n) - {j} && j in Owned(s, n)
    ensures o != Some(n) && s[j] != Some(n) ==> Owned(s[j := o], n) == Owned(s, n)
  {
  }
}
