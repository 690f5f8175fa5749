/** The whole cluster: any number of processes, a bag of packets in flight, and one
    event per thing that can happen. Packets may be lost and reordered, and each is
    delivered at most once. */
module ClusterBus {
  import opened ClusterModel

  // A replica took its master's place. The last two fields are bookkeeping:
  // the masters whose acknowledgement was counted while this election was running,
  // and how many acknowledgements were counted between its scheduling and its start.
  datatype Win = Win(epoch: nat, winner: Name, size: nat, voters: set<Name>, late: nat)

  // votes, counted, late and wins only record what happened; no handler reads them.
  datatype Bus = Bus(
    procs: map<Name, State>,
    net: multiset<Envelope>,
    votes: map<(Name, nat), Name>,
    counted: map<Name, set<Name>>,
    late: map<Name, nat>,
    wins: set<Win>)

  datatype Event =
    | Deliver(packet: Envelope, env: Env)
    | Lose(packet: Envelope)
    | Cron(who: Name, timing: Timing)
    | RecomputeSize(who: Name)
    | Emit(who: Name, dst: Name, body: Body)
    | Handshake(who: Name, peer: Name, master: bool)
    | Judge(who: Name, peer: Name, fail: bool)
    | Admin(who: Name, command: Command)

  // ------------------------------------------------------------------ transitions

  ghost predicate ProcsOk(b: Bus) {
    && (forall n | n in b.procs :: StateInv(b.procs[n]) && b.procs[n].myself == n)
    && b.counted.Keys == b.late.Keys == b.procs.Keys
  }

  ghost predicate PacketsOk(b: Bus) {
    forall p | p in b.net :: MsgInv(p.msg) && p.msg.sender in b.procs && p.msg.sender != p.dst
  }

  ghost predicate Enabled(b: Bus, ev: Event) {
    match ev
    case Deliver(p, _) => p in b.net && p.dst in b.procs
    case Lose(p) => p in b.net
    case Cron(n, _) => n in b.procs
    case RecomputeSize(n) => n in b.procs
    case Emit(n, dst, body) => n in b.procs && dst != n && !body.AuthRequest? && !body.AuthAck? && !body.Update?
    case Handshake(n, _, _) => n in b.procs
    case Judge(n, _, _) => n in b.procs
    case Admin(n, c) => n in b.procs && b.procs[n].myself in b.procs[n].nodes && Accepted(b.procs[n], c)
  }

  ghost predicate Granted(s: State, m: Msg, env: Env)
    requires StateInv(s) && MsgInv(m)
  {
    && m.body.AuthRequest? && m.sender in s.nodes
    && StateInv(ObserveEpochs(s, m))
    && GrantsVote(ObserveEpochs(s, m), m, env)
  }

  ghost predicate Counted(s: State, m: Msg) {
    m.body.AuthAck? && m.sender in s.nodes && CountsAck(ObserveEpochs(s, m), m)
  }

  ghost function ApplyDeliver(b: Bus, p: Envelope, env: Env): Bus
    requires ProcsOk(b) && PacketsOk(b) && p in b.net && p.dst in b.procs
  {
    var s := b.procs[p.dst];
    var o := Receive(s, p.msg, env);
    b.(procs := b.procs[p.dst := o.state],
       net := b.net - multiset{p} + o.sends,
       votes := if Granted(s, p.msg, env)
                then b.votes[(p.dst, o.state.currentEpoch) := p.msg.sender] else b.votes,
       counted := if Counted(s, p.msg) && s.authSent
                  then b.counted[p.dst := b.counted[p.dst] + {p.msg.sender}] else b.counted,
       late := if Counted(s, p.msg) && !s.authSent
               then b.late[p.dst := b.late[p.dst] + 1] else b.late)
  }

  ghost function ApplyCron(b: Bus, n: Name, t: Timing): Bus
    requires ProcsOk(b) && n in b.procs
  {
    var s := b.procs[n];
    var o := HandleSlaveFailover(s, t);
    var step := NextFailoverStep(s, t);
    b.(procs := b.procs[n := o.state],
       net := b.net + o.sends,
       counted := if step.Rescheduled? then b.counted[n := {}] else b.counted,
       late := if step.Rescheduled? then b.late[n := 0] else b.late,
       wins := if step.Won?
               then b.wins + {Win(s.authEpoch, n, s.size, b.counted[n], b.late[n])} else b.wins)
  }

  ghost function Apply(b: Bus, ev: Event): Bus
    requires ProcsOk(b) && PacketsOk(b) && Enabled(b, ev)
  {
    match ev
    case Deliver(p, env) => ApplyDeliver(b, p, env)
    case Lose(p) => b.(net := b.net - multiset{p})
    case Cron(n, t) => ApplyCron(b, n, t)
    case Emit(n, dst, body) => b.(net := b.net + multiset{Envelope(dst, BuildMsg(b.procs[n], body))})
    case _ => b.(procs := b.procs[ev.who := Local(b.procs[ev.who], ev)])
  }

  ghost predicate Step(b: Bus, ev: Event, b': Bus) {
    ProcsOk(b) && PacketsOk(b) && Enabled(b, ev) && b' == Apply(b, ev)
  }

  ghost predicate Init(b: Bus) {
    && (forall n | n in b.procs :: b.procs[n] == Fresh(n))
    && b.net == multiset{} && b.votes == map[] && b.wins == {}
    && b.counted == (map n | n in b.procs :: {})
    && b.late == (map n | n in b.procs :: 0)
  }

  /** A run of the cluster, from processes that only know themselves. */
  ghost predicate IsRun(trace: seq<Bus>, evs: seq<Event>) {
    && |trace| == |evs| + 1
    && Init(trace[0])
    && forall i | 0 <= i < |evs| :: Step(trace[i], evs[i], trace[i + 1])
  }

  // ---------------------------------------------------------- epochs and slot tables

  ghost predicate Sound(b: Bus) { ProcsOk(b) && PacketsOk(b) }

  lemma StepKeepsSound(b: Bus, ev: Event, b': Bus)
    requires Step(b, ev, b')
    ensures Sound(b')
    ensures b'.procs.Keys == b.procs.Keys
  {
    hide StateInv, MsgInv, ApplyDeliver, ApplyCron, Local;
    match ev
    case Deliver(p, env) => DeliverKeepsSound(b, p, env);
    case Lose(p) =>
    case Cron(n, t) => CronKeepsSound(b, n, t);
    case Emit(n, dst, body) => EmitKeepsSound(b, n, dst, body);
    case _ => LocalKeepsSound(b, ev);
  }

  lemma DeliverKeepsSound(b: Bus, p: Envelope, env: Env)
    requires Sound(b) && p in b.net && p.dst in b.procs
    ensures Sound(ApplyDeliver(b, p, env))
    ensures ApplyDeliver(b, p, env).procs.Keys == b.procs.Keys
  {
    hide StateInv, Receive, MsgInv, Granted, Counted, Ballot, NoBallots;
    ReceiveKeepsInv(b.procs[p.dst], p.msg, env);
    ReceiveFrame(b.procs[p.dst], p.msg, env);
  }

  lemma CronKeepsSound(b: Bus, n: Name, t: Timing)
    requires Sound(b) && n in b.procs
    ensures Sound(ApplyCron(b, n, t))
    ensures ApplyCron(b, n, t).procs.Keys == b.procs.Keys
  {
    hide StateInv, HandleSlaveFailover, NextFailoverStep, MsgInv;
    FailoverKeepsInv(b.procs[n], t);
    FailoverFrame(b.procs[n], t);
  }

  lemma EmitKeepsSound(b: Bus, n: Name, dst: Name, body: Body)
    requires Sound(b) && Enabled(b, Emit(n, dst, body))
    ensures Sound(Apply(b, Emit(n, dst, body)))
  {
    hide StateInv, BuildMsg, MsgInv;
    BuildMsgInv(b.procs[n], body);
  }

  lemma LocalKeepsSound(b: Bus, ev: Event)
    requires Sound(b) && Enabled(b, ev)
    requires ev.RecomputeSize? || ev.Handshake? || ev.Judge? || ev.Admin?
    ensures Sound(Apply(b, ev))
    ensures Apply(b, ev).procs.Keys == b.procs.Keys
  {
    hide StateInv, Execute, Learn, SetFail, RefreshSize, MsgInv;
    LocalFrame(b.procs[ev.who], ev);
  }

  // Events that touch one process and send nothing.
  ghost function Local(s: State, ev: Event): State
    requires StateInv(s)
    requires ev.RecomputeSize? || ev.Handshake? || ev.Judge? || ev.Admin?
  {
    match ev
    case RecomputeSize(_) => RefreshSize(s)
    case Handshake(_, peer, master) => Learn(s, peer, master)
    case Judge(_, peer, fail) => SetFail(s, peer, fail)
    case Admin(_, c) => Execute(s, c)
  }

  lemma LocalFrame(s: State, ev: Event)
    requires StateInv(s)
    requires ev.RecomputeSize? || ev.Handshake? || ev.Judge? || ev.Admin?
    requires ev.Admin? ==> Accepted(s, ev.command)
    ensures StateInv(Local(s, ev)) && SameElection(s, Local(s, ev))
  {
    hide Coherent, EpochsBounded, Execute, Learn, SetFail;
    match ev
    case RecomputeSize(_) => RefreshKeepsInv(s);
    case Handshake(_, peer, master) => LearnKeepsInv(s, peer, master); LearnFrame(s, peer, master);
    case Judge(_, peer, fail) => SetFailKeepsInv(s, peer, fail); SetFailFrame(s, peer, fail);
    case Admin(_, c) => ExecuteKeepsInv(s, c); ExecuteFrame(s, c);
  }

  lemma LearnFrame(s: State, peer: Name, master: bool)
    ensures SameElection(s, Learn(s, peer, master))
  {
  }

  lemma SetFailFrame(s: State, peer: Name, fail: bool)
    ensures SameElection(s, SetFail(s, peer, fail))
  {
  }

  /** Epoch bound and slot table coherence over the whole network: in every state of
      every run, at every process, currentEpoch is at least lastVoteEpoch, the epoch of
      its election and every configEpoch known; both copies of slot ownership agree for
      all nodes at once; a replica has a known master; and every packet in flight
      carries a currentEpoch at least as large as any configEpoch in it. */
  lemma {:induction false} RunsAreSound(trace: seq<Bus>, evs: seq<Event>, i: nat)
    requires IsRun(trace, evs) && i < |trace|
    ensures Sound(trace[i])
    ensures trace[i].procs.Keys == trace[0].procs.Keys
  {
    hide StateInv, Fresh, Apply, Enabled, MsgInv;
    if i == 0 {
      forall n | n in trace[0].procs ensures StateInv(trace[0].procs[n]) && trace[0].procs[n].myself == n
      {
        FreshInv(n);
      }
    } else {
      RunsAreSound(trace, evs, i - 1);
      StepKeepsSound(trace[i - 1], evs[i - 1], trace[i]);
    }
  }

  // --------------------------------------------------- epochs taken without consensus

  /** From s to r this process took an epoch that is greater than all it had observed, voted
      in or stood for, and than the configEpoch of every other node it knows. */
  ghost predicate NewEpoch(s: State, r: State) {
    && r.myself in r.nodes
    && var e := r.nodes[r.myself].configEpoch;
    && s.currentEpoch < e == r.currentEpoch && r.lastVoteEpoch < e && r.authEpoch < e
    && forall n | n in r.nodes && n != r.myself :: r.nodes[n].configEpoch < e
  }

  // The configEpoch of this process stays or is a new one.
  ghost predicate OldOrNewEpoch(s: State, r: State) {
    && s.myself == r.myself && s.myself in s.nodes && s.myself in r.nodes
    && (r.nodes[s.myself].configEpoch == s.nodes[s.myself].configEpoch || NewEpoch(s, r))
  }

  // Roles and slots change, epochs and the known nodes do not.
  ghost predicate SameEpochs(s: State, r: State) {
    && r.myself == s.myself && r.nodes.Keys == s.nodes.Keys
    && r.currentEpoch == s.currentEpoch && r.lastVoteEpoch == s.lastVoteEpoch && r.authEpoch == s.authEpoch
    && forall n | n in s.nodes :: r.nodes[n].configEpoch == s.nodes[n].configEpoch
  }

  lemma TakeNextIsNew(s: State)
    requires StateInv(s)
    ensures NewEpoch(s, TakeNextEpoch(s))
  {
  }

  lemma RoleSwitchEpochs(s: State, m: Msg)
    requires m.sender in s.nodes
    ensures SameEpochs(s, RoleSwitch(s, m))
  {
  }

  lemma AdoptEpochs(s: State, m: Msg)
    requires StateInv(s) && m.sender in s.nodes
    ensures SameEpochs(s, AdoptClaims(s, m))
  {
    hide Prevails, LosesSlot, Owned;
  }

  lemma ObserveOwn(s: State, m: Msg)
    requires StateInv(s) && m.sender != s.myself
    ensures
      var t := ObserveEpochs(s, m);
      && t.myself == s.myself && t.currentEpoch >= s.currentEpoch && t.nodes.Keys == s.nodes.Keys
      && t.nodes[s.myself].configEpoch == s.nodes[s.myself].configEpoch
      && (m.sender in s.nodes ==> t.currentEpoch >= m.currentEpoch)
  {
  }

  // A collision is resolved in a state with the epochs of t.
  lemma CollisionIsNew(t: State, r: State, m: Msg)
    requires StateInv(r) && SameEpochs(t, r) && m.sender in r.nodes
    ensures OldOrNewEpoch(t, ResolveCollision(r, m))
    ensures NewEpoch(t, ResolveCollision(r, m)) ==> ResolveCollision(r, m).currentEpoch == t.currentEpoch + 1
  {
    TakeNextIsNew(r);
  }

  lemma PingEpoch(s: State, m: Msg, env: Env)
    requires StateInv(s) && MsgInv(m) && m.sender != s.myself
    ensures OldOrNewEpoch(ObserveEpochs(s, m), ReceivePing(s, m, env).state)
  {
    hide RoleSwitch, AdoptClaims, ResolveCollision, SendUpdate, BuildMsg, MsgInv, SameEpochs, NewEpoch;
    var t := ObserveEpochs(s, m);
    ObserveKeepsInv(s, m);
    if m.sender in s.nodes {
      var t2 := RoleSwitch(t, m);
      RoleSwitchKeepsInv(t, m);
      RoleSwitchEpochs(t, m);
      var t3 := AdoptClaims(t2, m);
      AdoptClaimsKeepsInv(t2, m);
      AdoptEpochs(t2, m);
      SameEpochsTwice(t, t2, t3);
      CollisionIsNew(t, t3, m);
    }
  }

  lemma SameEpochsTwice(s: State, t: State, r: State)
    requires SameEpochs(s, t) && SameEpochs(t, r)
    ensures SameEpochs(s, r)
  {
  }

  /** A packet other than an UPDATE leaves the configEpoch of this process, or makes it take a
      new epoch, also greater than what the packet carried. */
  lemma PacketEpochIsNew(s: State, m: Msg, env: Env)
    requires StateInv(s) && MsgInv(m) && m.sender != s.myself && !m.body.Update?
    ensures
      var r := Receive(s, m, env).state;
      && OldOrNewEpoch(s, r)
      && (r.nodes[s.myself].configEpoch != s.nodes[s.myself].configEpoch ==>
            NewEpoch(s, r) && (m.sender in s.nodes ==> m.configEpoch <= m.currentEpoch < r.currentEpoch))
  {
    hide Coherent, RoleOk, ReceivePing, GrantsVote, CountsAck, BuildMsg;
    ObserveKeepsInv(s, m);
    ObserveOwn(s, m);
    OwnKnown(s);
    if m.body.Ping? || m.body.Pong? || m.body.Meet? { PingEpoch(s, m, env); }
  }

  lemma OwnKnown(s: State)
    requires StateInv(s)
    ensures s.myself in s.nodes
  {
  }

  /** So does every command but SET-CONFIG-EPOCH. */
  lemma CommandEpochIsNew(s: State, c: Command)
    requires StateInv(s) && !c.SetConfigEpoch?
    ensures OldOrNewEpoch(s, Execute(s, c))
  {
    hide Owned, Coherent, WithoutNode, TakenBy, Cleared, EpochsBounded, NewEpoch, AssignTo, BumpWithoutConsensus;
    match c
    case BumpEpoch => BumpIsNew(s);
    case SetSlotNode(slot, owner, hasKeys) => AssignIsNew(s, slot, owner, hasKeys);
    case _ =>
  }

  lemma BumpIsNew(s: State)
    requires StateInv(s)
    ensures OldOrNewEpoch(s, BumpWithoutConsensus(s))
  {
    hide Coherent, NewEpoch;
    TakeNextIsNew(s);
  }

  lemma AssignIsNew(s: State, slot: nat, owner: Name, hasKeys: bool)
    requires StateInv(s)
    ensures OldOrNewEpoch(s, AssignTo(s, slot, owner, hasKeys))
  {
    hide Coherent, Owned, BumpWithoutConsensus;
    BumpIsNew(s);
  }

  /** In every run: an epoch that a process takes in handling a packet or a command is
      greater than every epoch it has observed, voted in or stood for. */
  lemma TakenEpochIsNew(trace: seq<Bus>, evs: seq<Event>, i: nat, n: Name)
    requires IsRun(trace, evs) && i < |evs| && n in trace[i].procs
    requires
      || (evs[i].Deliver? && evs[i].packet.dst == n && !evs[i].packet.msg.body.Update?)
      || (evs[i].Admin? && evs[i].who == n && !evs[i].command.SetConfigEpoch?)
    ensures n in trace[i + 1].procs && OldOrNewEpoch(trace[i].procs[n], trace[i + 1].procs[n])
  {
    hide StateInv, Init, MsgInv, Receive, Execute, OldOrNewEpoch;
    RunsAreSound(trace, evs, i);
    assert Step(trace[i], evs[i], trace[i + 1]);
    var s := trace[i].procs[n];
    if evs[i].Deliver? {
      PacketEpochIsNew(s, evs[i].packet.msg, evs[i].env);
    } else {
      CommandEpochIsNew(s, evs[i].command);
    }
  }

  // ------------------------------------------- what handlers do to election fields

  ghost predicate SameElection(s: State, t: State) {
    && t.myself == s.myself
    && t.authEpoch == s.authEpoch && t.authSent == s.authSent
    && t.authCount == s.authCount && t.lastVoteEpoch == s.lastVoteEpoch
  }

  ghost predicate NoBallots(sends: multiset<Envelope>) {
    forall p | p in sends :: !p.msg.body.AuthRequest? && !p.msg.body.AuthAck?
  }

  // The acknowledgement a granted vote sends, if the link is up.
  ghost predicate Ballot(s: State, m: Msg, sends: multiset<Envelope>) {
    sends == multiset{} || exists a: Msg ::
      sends == multiset{Envelope(m.sender, a)} && a.body == AuthAck
      && a.sender == s.myself && a.currentEpoch == m.currentEpoch
  }

  ghost predicate ReceiveEffect(s: State, m: Msg, env: Env, o: Outcome)
    requires StateInv(s) && MsgInv(m)
  {
    && o.state.myself == s.myself
    && s.currentEpoch <= o.state.currentEpoch
    && o.state.authEpoch == s.authEpoch && o.state.authSent == s.authSent
    && o.state.authCount == s.authCount + (if Counted(s, m) then 1 else 0)
    && (!Granted(s, m, env) ==> o.state.lastVoteEpoch == s.lastVoteEpoch && NoBallots(o.sends))
    && (Granted(s, m, env) ==>
          && s.lastVoteEpoch < m.currentEpoch == o.state.currentEpoch == o.state.lastVoteEpoch
          && Ballot(s, m, o.sends))
  }

  /** Packets change nothing about elections except by granting a vote, which happens
      at most once for an epoch, or by counting an acknowledgement. */
  lemma ReceiveFrame(s: State, m: Msg, env: Env)
    requires StateInv(s) && MsgInv(m) && m.sender != s.myself
    ensures ReceiveEffect(s, m, env, Receive(s, m, env))
  {
    if m.body.AuthRequest? {
      AuthRequestFrame(s, m, env);
    } else if m.body.Ping? || m.body.Pong? || m.body.Meet? {
      PingFrame(s, m, env);
    } else {
      OtherFrame(s, m, env);
    }
  }

  lemma PingFrame(s: State, m: Msg, env: Env)
    requires StateInv(s) && MsgInv(m) && m.sender != s.myself
    requires m.body.Ping? || m.body.Pong? || m.body.Meet?
    ensures ReceiveEffect(s, m, env, Receive(s, m, env))
  {
    hide ProcessConfig, Coherent, EpochsBounded, BuildMsg;
    ObserveKeepsInv(s, m);
    BuildMsgInv(ObserveEpochs(s, m), Pong);
    if m.sender in s.nodes { ProcessConfigFrame(ObserveEpochs(s, m), m, env); }
  }

  lemma OtherFrame(s: State, m: Msg, env: Env)
    requires StateInv(s) && MsgInv(m) && m.sender != s.myself
    requires m.body.AuthAck? || m.body.Fail? || m.body.Update? || m.body.Other?
    ensures ReceiveEffect(s, m, env, Receive(s, m, env))
  {
    hide ReceiveUpdate, Coherent, RoleOk;
    ObserveKeepsInv(s, m);
    if m.body.Update? && m.sender in s.nodes {
      ReceiveUpdateFrame(ObserveEpochs(s, m), m.body.node, m.body.epoch, m.body.bits);
    }
  }

  lemma AuthRequestFrame(s: State, m: Msg, env: Env)
    requires StateInv(s) && MsgInv(m) && m.sender != s.myself && m.body.AuthRequest?
    ensures ReceiveEffect(s, m, env, Receive(s, m, env))
  {
    hide Coherent;
    ObserveKeepsInv(s, m);
    if Granted(s, m, env) {
      var s1 := ObserveEpochs(s, m);
      var v := s1.(lastVoteEpoch := s1.currentEpoch);
      assert Coherent(v) by { VoteKeepsInv(s1, m, env); }
      var a := BuildMsg(v, AuthAck);
      assert a.body == AuthAck && a.sender == s.myself && a.currentEpoch == m.currentEpoch;
    }
  }

  lemma ProcessConfigFrame(s: State, m: Msg, env: Env)
    requires StateInv(s) && m.sender in s.nodes && m.sender != s.myself
    ensures SameElection(s, ProcessConfig(s, m, env).state)
    ensures s.currentEpoch <= ProcessConfig(s, m, env).state.currentEpoch
    ensures NoBallots(ProcessConfig(s, m, env).sends)
  {
    hide RoleSwitch, AdoptClaims, ResolveCollision, Coherent, EpochsBounded, DirtySlots, FirstOutdated, BuildMsg;
    var s2 := RoleSwitch(s, m);
    RoleSwitchKeepsInv(s, m);
    RoleSwitchFrame(s, m);
    var s3 := AdoptClaims(s2, m);
    AdoptClaimsKeepsInv(s2, m);
    AdoptClaimsFrame(s2, m);
    ResolveCollisionFrame(s3, m);
    SendUpdateFrame(s3, m);
  }

  lemma RoleSwitchFrame(s: State, m: Msg)
    requires m.sender in s.nodes
    ensures SameElection(s, RoleSwitch(s, m)) && RoleSwitch(s, m).currentEpoch == s.currentEpoch
  {
  }

  lemma AdoptClaimsFrame(s: State, m: Msg)
    requires StateInv(s) && m.sender in s.nodes
    ensures SameElection(s, AdoptClaims(s, m)) && AdoptClaims(s, m).currentEpoch == s.currentEpoch
  {
    hide DirtySlots, UpdateSlotsConfigWith;
    UpdateSlotsFrame(s, m.sender, m.configEpoch, m.slots);
  }

  lemma UpdateSlotsFrame(s: State, sender: Name, epoch: nat, bits: set<nat>)
    requires StateInv(s) && sender in s.nodes
    ensures SameElection(s, UpdateSlotsConfigWith(s, sender, epoch, bits))
    ensures UpdateSlotsConfigWith(s, sender, epoch, bits).currentEpoch == s.currentEpoch
  {
  }

  lemma ResolveCollisionFrame(s: State, m: Msg)
    requires s.myself in s.nodes && m.sender in s.nodes
    ensures SameElection(s, ResolveCollision(s, m)) && ResolveCollision(s, m).currentEpoch >= s.currentEpoch
  {
  }

  lemma SendUpdateFrame(s: State, m: Msg)
    requires Coherent(s) && s.myself in s.nodes
    ensures NoBallots(SendUpdate(s, m))
  {
  }

  lemma ReceiveUpdateFrame(s: State, n: Name, epoch: nat, bits: set<nat>)
    requires StateInv(s) && epoch <= s.currentEpoch
    ensures SameElection(s, ReceiveUpdate(s, n, epoch, bits))
    ensures ReceiveUpdate(s, n, epoch, bits).currentEpoch == s.currentEpoch
  {
    hide UpdateSlotsConfigWith, Coherent, EpochsBounded;
    if n in s.nodes && s.nodes[n].configEpoch < epoch {
      SetNodeAsMasterKeepsInv(s, n);
      RaisedKeepsInv(SetNodeAsMaster(s, n), n, epoch);
      var a := SetNodeAsMaster(s, n);
      var b := a.(nodes := a.nodes[n := a.nodes[n].(configEpoch := epoch)]);
      UpdateSlotsFrame(b, n, epoch, bits);
    }
  }

  lemma FailoverFrame(s: State, t: Timing)
    requires StateInv(s)
    ensures
      var o := HandleSlaveFailover(s, t);
      match NextFailoverStep(s, t)
      case Idle => o.state == s && o.sends == multiset{}
      case Rescheduled => o.state == s.(authCount := 0, authSent := false) && NoBallots(o.sends)
      case Requested =>
        && !s.authSent
        && o.state == s.(currentEpoch := s.currentEpoch + 1, authEpoch := s.currentEpoch + 1, authSent := true)
        && forall p | p in o.sends :: p.msg.body.AuthRequest? && p.msg.currentEpoch == s.currentEpoch + 1
      case Won => s.authSent && HasQuorum(s) && SameElection(s, o.state) && NoBallots(o.sends)
    ensures HandleSlaveFailover(s, t).state.myself == s.myself
  {
  }

  lemma ExecuteFrame(s: State, c: Command)
    requires StateInv(s)
    ensures SameElection(s, Execute(s, c))
  {
    hide Coherent, EpochsBounded, RoleOk;
  }
}
