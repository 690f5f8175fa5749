/** One Redis Cluster process: the configuration it holds about itself and its
    peers, and what each handler does to that configuration.

    Names stand for the 40 byte node identifiers; only their equality and their
    (total) memcmp order are used. Epochs are unbounded. Decisions that depend
    on clocks, links or the key space arrive as explicit inputs. */
module ClusterModel {
  import opened Wrappers

  const CLUSTER_SLOTS: nat := 16384

  type Name = nat

  datatype Node = Node(
    master: bool,
    fail: bool,
    configEpoch: nat,
    slots: set<nat>,
    numslots: nat,
    slaveof: Option<Name>)

  datatype State = State(
    myself: Name,
    nodes: map<Name, Node>,
    currentEpoch: nat,
    lastVoteEpoch: nat,
    size: nat,
    slots: seq<Option<Name>>,
    importing: seq<Option<Name>>,
    authEpoch: nat,
    authCount: nat,
    authSent: bool)

  // Other stands for the packets whose only effect here is their header
  // (PUBLISH, MODULE, MFSTART).
  datatype Body =
    | Ping
    | Pong
    | Meet
    | Fail(about: Name)
    | AuthRequest(forceAck: bool)
    | AuthAck
    | Update(node: Name, epoch: nat, bits: set<nat>)
    | Other

  datatype Msg = Msg(
    sender: Name,
    currentEpoch: nat,
    configEpoch: nat,
    slots: set<nat>,
    slaveof: Option<Name>,
    body: Body)

  datatype Envelope = Envelope(dst: Name, msg: Msg)

  datatype Outcome = Outcome(state: State, sends: multiset<Envelope>)

  // What a handler learns from its environment: whether the link towards the
  // peer is up, and whether a vote about the same master was cast too recently.
  datatype Env = Env(linkUp: bool, votedRecently: bool)

  // The clock and configuration tests of the failover routine, in source order.
  datatype Timing = Timing(
    manual: bool,
    noFailover: bool,
    dataTooOld: bool,
    retryElapsed: bool,
    waiting: bool,
    expired: bool,
    forceAck: bool,
    refreshed: bool,
    links: set<Name>)

  datatype Command =
    | AddSlots(which: set<nat>)
    | DelSlots(which: set<nat>)
    | FlushSlots
    | SetSlotImporting(slot: nat, from: Name)
    | SetSlotStable(slot: nat)
    | SetSlotNode(slot: nat, owner: Name, hasKeys: bool)
    | BumpEpoch
    | SetConfigEpoch(epoch: nat)
    | Forget(node: Name)
    | Replicate(target: Name, empty: bool)
    | ResetSoft

  // ---------------------------------------------------------------- invariants

  function Owned(slots: seq<Option<Name>>, n: Name): set<nat> {
    set j | 0 <= j < |slots| && slots[j] == Some(n)
  }

  /** The two copies of slot ownership agree: slots[j] == n exactly when bit j of
      n's bitmap is set, numslots is the number of set bits, and neither table
      nor node refers to a node that is no longer known. */
  ghost predicate Coherent(s: State) {
    && |s.slots| == |s.importing| == CLUSTER_SLOTS
    && (forall j | 0 <= j < |s.slots| && s.slots[j].Some? :: s.slots[j].value in s.nodes)
    && (forall n | n in s.nodes :: s.nodes[n].slots == Owned(s.slots, n))
    && (forall n | n in s.nodes :: s.nodes[n].numslots == |s.nodes[n].slots|)
    && (forall n | n in s.nodes && s.nodes[n].slaveof.Some? :: s.nodes[n].slaveof.value in s.nodes)
  }

  /** This process knows itself; as a replica it knows its master and serves nothing. */
  ghost predicate RoleOk(s: State) {
    && s.myself in s.nodes
    && (s.nodes[s.myself].master || (
          && s.nodes[s.myself].slaveof.Some?
          && s.nodes[s.myself].slaveof.value != s.myself
          && s.nodes[s.myself].numslots == 0))
  }

  /** No epoch this process has seen, voted in or run an election for is ahead of
      its currentEpoch. */
  ghost predicate EpochsBounded(s: State) {
    && s.lastVoteEpoch <= s.currentEpoch
    && s.authEpoch <= s.currentEpoch
    && forall n | n in s.nodes :: s.nodes[n].configEpoch <= s.currentEpoch
  }

  ghost predicate StateInv(s: State) {
    Coherent(s) && RoleOk(s) && EpochsBounded(s)
  }

  ghost predicate MsgInv(m: Msg) {
    && m.configEpoch <= m.currentEpoch
    && (forall j | j in m.slots :: j < CLUSTER_SLOTS)
    && (m.body.Update? ==> m.body.epoch <= m.currentEpoch)
  }

  ghost predicate SendsInv(me: Name, sends: multiset<Envelope>) {
    forall e | e in sends ::
      && MsgInv(e.msg)
      && e.msg.sender == me
      && e.dst != me
  }

  // ------------------------------------------------------------- slot ownership

  /** The configuration with slot table t: every bitmap and counter follows. */
  function Rebind(s: State, t: seq<Option<Name>>): State {
    s.(slots := t,
       nodes := map n | n in s.nodes ::
         s.nodes[n].(slots := Owned(t, n), numslots := |Owned(t, n)|))
  }

  lemma RebindCoherent(s: State, t: seq<Option<Name>>)
    requires Coherent(s) && |t| == CLUSTER_SLOTS
    requires forall j | 0 <= j < |t| && t[j].Some? :: t[j].value in s.nodes
    ensures Coherent(Rebind(s, t))
  {
  }

  /** Two coherent configurations with the same slot table that differ at most in
      bitmaps and counters are equal: the table determines both. */
  lemma CoherentDetermined(a: State, b: State)
    requires Coherent(a) && Coherent(b) && a.slots == b.slots
    requires a.nodes.Keys == b.nodes.Keys
    requires forall n | n in a.nodes ::
      a.nodes[n].(slots := {}, numslots := 0) == b.nodes[n].(slots := {}, numslots := 0)
    ensures a.nodes == b.nodes
  {
    forall n | n in a.nodes
      ensures a.nodes[n] == b.nodes[n]
    {
      assert a.nodes[n].(slots := {}, numslots := 0) == b.nodes[n].(slots := {}, numslots := 0);
      assert a.nodes[n].slots == Owned(a.slots, n) == b.nodes[n].slots;
    }
  }

  lemma OwnedEmpty(s: State, n: Name)
    requires Coherent(s) && n in s.nodes
    ensures s.nodes[n].numslots == 0 <==> (forall j | 0 <= j < |s.slots| :: s.slots[j] != Some(n))
  {
    if s.nodes[n].numslots == 0 {
      assert Owned(s.slots, n) == {};
      forall j | 0 <= j < |s.slots|
        ensures s.slots[j] != Some(n)
      {
        assert j !in Owned(s.slots, n);
      }
    }
    if forall j | 0 <= j < |s.slots| :: s.slots[j] != Some(n) {
      assert Owned(s.slots, n) == {};
    }
  }

  // Slots owned by n become unassigned.
  function WithoutNode(t: seq<Option<Name>>, n: Name): seq<Option<Name>> {
    seq(|t|, j requires 0 <= j < |t| => if t[j] == Some(n) then None else t[j])
  }

  function DelNodeSlots(s: State, n: Name): State {
    Rebind(s, WithoutNode(s.slots, n))
  }

  // A claim of slot j by sender under epoch prevails over the current table.
  predicate Prevails(s: State, sender: Name, epoch: nat, bits: set<nat>, j: nat)
    requires Coherent(s) && j < CLUSTER_SLOTS
  {
    && j in bits
    && s.slots[j] != Some(sender)
    && s.importing[j].None?
    && (s.slots[j].None? || s.nodes[s.slots[j].value].configEpoch < epoch)
  }

  function Claimed(s: State, sender: Name, epoch: nat, bits: set<nat>): (t: seq<Option<Name>>)
    requires Coherent(s)
  {
    seq(CLUSTER_SLOTS, j requires 0 <= j < CLUSTER_SLOTS =>
      if Prevails(s, sender, epoch, bits, j) then Some(sender) else s.slots[j])
  }

  // This process, or the master it replicates.
  function CurMaster(s: State): Option<Name>
    requires s.myself in s.nodes
  {
    if s.nodes[s.myself].master then Some(s.myself) else s.nodes[s.myself].slaveof
  }

  predicate LosesSlot(s: State, sender: Name, epoch: nat, bits: set<nat>)
    requires Coherent(s) && s.myself in s.nodes
  {
    exists j :: 0 <= j < CLUSTER_SLOTS && Prevails(s, sender, epoch, bits, j) && s.slots[j] == CurMaster(s)
  }

  function SetMaster(s: State, n: Name): State
    requires s.myself in s.nodes
  {
    s.(nodes := s.nodes[s.myself := s.nodes[s.myself].(master := false, slaveof := Some(n))],
       importing := if s.nodes[s.myself].master
                    then seq(|s.importing|, j requires 0 <= j < |s.importing| => None)
                    else s.importing)
  }

  function SetNodeAsMaster(s: State, n: Name): State
    requires n in s.nodes
  {
    if s.nodes[n].master then s
    else s.(nodes := s.nodes[n := s.nodes[n].(master := true, slaveof := None)])
  }

  function UpdateSlotsConfigWith(s: State, sender: Name, epoch: nat, bits: set<nat>): State
    requires Coherent(s) && RoleOk(s) && sender in s.nodes
  {
    if sender == s.myself then s
    else
      var r := Rebind(s, Claimed(s, sender, epoch, bits));
      if LosesSlot(s, sender, epoch, bits) && r.nodes[CurMaster(s).value].numslots == 0
      then SetMaster(r, sender)
      else r
  }

  // Every reference to n is cleared and n leaves the table.
  function Unlink(s: State, n: Name): State {
    s.(importing := WithoutNode(s.importing, n),
       nodes := map m | m in s.nodes && m != n ::
         if s.nodes[m].slaveof == Some(n) then s.nodes[m].(slaveof := None) else s.nodes[m])
  }

  function DelNode(s: State, n: Name): State {
    Unlink(DelNodeSlots(s, n), n)
  }

  // ------------------------------------------------------------------- epochs

  function Max(a: nat, b: nat): nat { if a < b then b else a }

  ghost predicate IsMaxEpoch(s: State, e: nat) {
    && s.currentEpoch <= e
    && (forall n | n in s.nodes :: s.nodes[n].configEpoch <= e)
    && (e == s.currentEpoch || exists n :: n in s.nodes && s.nodes[n].configEpoch == e)
  }

  function TakeNextEpoch(s: State): State
    requires s.myself in s.nodes
  {
    s.(currentEpoch := s.currentEpoch + 1,
       nodes := s.nodes[s.myself := s.nodes[s.myself].(configEpoch := s.currentEpoch + 1)])
  }

  // Under EpochsBounded the greatest epoch known is currentEpoch itself.
  function BumpWithoutConsensus(s: State): State
    requires s.myself in s.nodes
  {
    if s.nodes[s.myself].configEpoch == 0 || s.nodes[s.myself].configEpoch != s.currentEpoch
    then TakeNextEpoch(s) else s
  }

  function HandleCollision(s: State, sender: Name): State
    requires s.myself in s.nodes && sender in s.nodes
  {
    var them, me := s.nodes[sender], s.nodes[s.myself];
    if them.configEpoch != me.configEpoch || !them.master || !me.master || sender <= s.myself
    then s else TakeNextEpoch(s)
  }

  function ObserveEpochs(s: State, m: Msg): State {
    if m.sender !in s.nodes then s
    else s.(currentEpoch := Max(s.currentEpoch, m.currentEpoch),
            nodes := s.nodes[m.sender := s.nodes[m.sender].(
              configEpoch := Max(s.nodes[m.sender].configEpoch, m.configEpoch))])
  }

  // ------------------------------------------------------------------ messages

  // A replica publishes the slots and configEpoch of its master.
  function HeaderOwner(s: State): Name
    requires s.myself in s.nodes
  {
    var me := s.nodes[s.myself];
    if !me.master && me.slaveof.Some? then me.slaveof.value else s.myself
  }

  function BuildMsg(s: State, body: Body): Msg
    requires Coherent(s) && s.myself in s.nodes
  {
    var owner := s.nodes[HeaderOwner(s)];
    Msg(s.myself, s.currentEpoch, owner.configEpoch, owner.slots, s.nodes[s.myself].slaveof, body)
  }

  function Broadcast(s: State, links: set<Name>, body: Body): multiset<Envelope>
    requires Coherent(s) && s.myself in s.nodes
  {
    multiset(set n | n in s.nodes.Keys && n in links && n != s.myself :: Envelope(n, BuildMsg(s, body)))
  }

  // ------------------------------------------------------------------ handlers

  // A node recorded as master announces itself as a replica: it loses its slots.
  function DemoteNode(s: State, n: Name): State
    requires n in s.nodes
  {
    if !s.nodes[n].master then s
    else
      var r := DelNodeSlots(s, n);
      r.(nodes := r.nodes[n := r.nodes[n].(master := false)])
  }

  function Follow(s: State, n: Name, master: Name): State
    requires n in s.nodes
  {
    if master in s.nodes then s.(nodes := s.nodes[n := s.nodes[n].(slaveof := Some(master))]) else s
  }

  function RoleSwitch(s: State, m: Msg): State
    requires m.sender in s.nodes
  {
    if m.slaveof.None? then SetNodeAsMaster(s, m.sender)
    else Follow(DemoteNode(s, m.sender), m.sender, m.slaveof.value)
  }

  // Slot j is claimed by the sender but known to belong to a fresher node.
  predicate OutdatedClaim(s: State, m: Msg, j: nat)
    requires Coherent(s) && j < CLUSTER_SLOTS
  {
    && j in m.slots
    && s.slots[j].Some?
    && s.slots[j] != Some(m.sender)
    && s.nodes[s.slots[j].value].configEpoch > m.configEpoch
  }

  // The first outdated claim below k.
  function FirstOutdated(s: State, m: Msg, k: nat): (r: Option<nat>)
    requires Coherent(s) && k <= CLUSTER_SLOTS
    ensures r.Some? ==> r.value < k && OutdatedClaim(s, m, r.value)
    ensures r.Some? ==> forall j | 0 <= j < r.value :: !OutdatedClaim(s, m, j)
    ensures r.None? ==> forall j | 0 <= j < k :: !OutdatedClaim(s, m, j)
  {
    if k == 0 then None
    else
      var r := FirstOutdated(s, m, k - 1);
      if r.Some? then r else if OutdatedClaim(s, m, k - 1) then Some(k - 1) else None
  }

  function SendUpdate(s: State, m: Msg): multiset<Envelope>
    requires Coherent(s) && s.myself in s.nodes
  {
    var r := FirstOutdated(s, m, CLUSTER_SLOTS);
    if r.None? then multiset{}
    else
      var n := s.slots[r.value].value;
      multiset{Envelope(m.sender, BuildMsg(s, Update(n, s.nodes[n].configEpoch, s.nodes[n].slots)))}
  }

  // The sender's claim differs from what is recorded for it (or for its master).
  predicate DirtySlots(s: State, m: Msg)
    requires Coherent(s) && m.sender in s.nodes
  {
    var who := if s.nodes[m.sender].master then Some(m.sender) else s.nodes[m.sender].slaveof;
    who.Some? && s.nodes[who.value].slots != m.slots
  }

  // Slots part of a heartbeat: adopt newer claims, or tell the sender it is outdated.
  function AdoptClaims(s: State, m: Msg): State
    requires StateInv(s) && m.sender in s.nodes
  {
    if s.nodes[m.sender].master && DirtySlots(s, m)
    then UpdateSlotsConfigWith(s, m.sender, m.configEpoch, m.slots) else s
  }

  function ResolveCollision(s: State, m: Msg): State
    requires s.myself in s.nodes && m.sender in s.nodes
  {
    if s.nodes[s.myself].master && s.nodes[m.sender].master
       && m.configEpoch == s.nodes[s.myself].configEpoch
    then HandleCollision(s, m.sender) else s
  }

  function ProcessConfig(s: State, m: Msg, env: Env): Outcome
    requires StateInv(s) && m.sender in s.nodes && m.sender != s.myself
  {
    var s2 := RoleSwitch(s, m);
    RoleSwitchKeepsInv(s, m);
    var s3 := AdoptClaims(s2, m);
    AdoptClaimsKeepsInv(s2, m);
    Outcome(ResolveCollision(s3, m),
            if DirtySlots(s2, m) && env.linkUp then SendUpdate(s3, m) else multiset{})
  }

  function ReceivePing(s: State, m: Msg, env: Env): Outcome
    requires StateInv(s) && MsgInv(m) && m.sender != s.myself
  {
    var s1 := ObserveEpochs(s, m);
    ObserveKeepsInv(s, m);
    var pong := if m.body.Pong? then multiset{} else multiset{Envelope(m.sender, BuildMsg(s1, Pong))};
    if m.sender !in s.nodes then Outcome(s1, pong)
    else
      var o := ProcessConfig(s1, m, env);
      Outcome(o.state, pong + o.sends)
  }

  // Every claimed slot is unassigned or served under an epoch not above the request's.
  predicate ClaimsFresh(s: State, m: Msg)
    requires Coherent(s)
  {
    forall j | 0 <= j < CLUSTER_SLOTS && j in m.slots && s.slots[j].Some? ::
      s.nodes[s.slots[j].value].configEpoch <= m.configEpoch
  }

  predicate GrantsVote(s: State, m: Msg, env: Env)
    requires Coherent(s) && s.myself in s.nodes && m.sender in s.nodes && m.body.AuthRequest?
  {
    var me, node := s.nodes[s.myself], s.nodes[m.sender];
    && me.master && me.numslots > 0
    && m.currentEpoch >= s.currentEpoch
    && s.lastVoteEpoch != s.currentEpoch
    && !node.master && node.slaveof.Some?
    && (s.nodes[node.slaveof.value].fail || m.body.forceAck)
    && !env.votedRecently
    && ClaimsFresh(s, m)
  }

  function Vote(s: State, m: Msg, env: Env): Outcome
    requires Coherent(s) && s.myself in s.nodes && m.sender in s.nodes && m.body.AuthRequest?
  {
    if GrantsVote(s, m, env) then
      var v := s.(lastVoteEpoch := s.currentEpoch);
      Outcome(v, if env.linkUp then multiset{Envelope(m.sender, BuildMsg(v, AuthAck))} else multiset{})
    else Outcome(s, multiset{})
  }

  predicate CountsAck(s: State, m: Msg)
    requires m.sender in s.nodes
  {
    s.nodes[m.sender].master && s.nodes[m.sender].numslots > 0 && m.currentEpoch >= s.authEpoch
  }

  function CountAck(s: State, m: Msg): State
    requires m.sender in s.nodes
  {
    if CountsAck(s, m) then s.(authCount := s.authCount + 1) else s
  }

  function ReceiveUpdate(s: State, n: Name, epoch: nat, bits: set<nat>): State
    requires StateInv(s) && epoch <= s.currentEpoch
  {
    if n !in s.nodes || s.nodes[n].configEpoch >= epoch then s
    else
      var a := SetNodeAsMaster(s, n);
      var b := a.(nodes := a.nodes[n := a.nodes[n].(configEpoch := epoch)]);
      UpdateSlotsConfigWith(b, n, epoch, bits)
  }

  /** What processing one packet does. */
  function Receive(s: State, m: Msg, env: Env): Outcome
    requires StateInv(s) && MsgInv(m) && m.sender != s.myself
  {
    if m.body.Ping? || m.body.Pong? || m.body.Meet? then ReceivePing(s, m, env)
    else if m.sender !in s.nodes then Outcome(s, multiset{})
    else
      var s1 := ObserveEpochs(s, m);
      ObserveKeepsInv(s, m);
      match m.body
      case Fail(about) =>
        Outcome(if about == s1.myself then s1 else SetFail(s1, about, true), multiset{})
      case AuthRequest(_) => Vote(s1, m, env)
      case AuthAck =>
        Outcome(CountAck(s1, m), multiset{})
      case Update(n, epoch, bits) => Outcome(ReceiveUpdate(s1, n, epoch, bits), multiset{})
      case _ => Outcome(s1, multiset{})
  }

  // ------------------------------------------------------------------ failover

  function ServingMasters(s: State): set<Name> {
    set n | n in s.nodes && s.nodes[n].master && s.nodes[n].numslots > 0
  }

  // Slots of the old master pass to this process, now a master.
  function Inherited(t: seq<Option<Name>>, from: Name, to: Name): seq<Option<Name>> {
    seq(|t|, j requires 0 <= j < |t| => if t[j] == Some(from) then Some(to) else t[j])
  }

  function ReplaceMaster(s: State): State
    requires Coherent(s) && RoleOk(s)
  {
    if s.nodes[s.myself].master then s
    else
      var boss := s.nodes[s.myself].slaveof.value;
      Rebind(SetNodeAsMaster(s, s.myself), Inherited(s.slots, boss, s.myself))
  }

  datatype FailoverStep = Idle | Rescheduled | Requested | Won

  predicate HasQuorum(s: State) { s.authCount >= s.size / 2 + 1 }

  function NextFailoverStep(s: State, t: Timing): FailoverStep
    requires Coherent(s) && s.myself in s.nodes
  {
    var me := s.nodes[s.myself];
    if me.master || me.slaveof.None? then Idle
    else
      var boss := s.nodes[me.slaveof.value];
      if (!boss.fail && !t.manual) || (t.noFailover && !t.manual) || boss.numslots == 0 then Idle
      else if t.dataTooOld && !t.manual then Idle
      else if t.retryElapsed then Rescheduled
      else if t.waiting || t.expired then Idle
      else if !s.authSent then Requested
      else if HasQuorum(s) then Won
      else Idle
  }

  // The winner adopts the epoch of its election as configEpoch.
  function AdoptElectionEpoch(s: State): State
    requires s.myself in s.nodes
  {
    s.(nodes := s.nodes[s.myself := s.nodes[s.myself].(
         configEpoch := Max(s.nodes[s.myself].configEpoch, s.authEpoch))])
  }

  function RefreshSize(s: State): State { s.(size := |ServingMasters(s)|) }

  function HandleSlaveFailover(s: State, t: Timing): Outcome
    requires StateInv(s)
  {
    match NextFailoverStep(s, t)
    case Idle => Outcome(s, multiset{})
    case Rescheduled =>
      var r := s.(authCount := 0, authSent := false);
      Outcome(r, Broadcast(r, t.links, Pong))
    case Requested =>
      var r := s.(currentEpoch := s.currentEpoch + 1, authEpoch := s.currentEpoch + 1, authSent := true);
      Outcome(r, Broadcast(r, t.links, AuthRequest(t.forceAck)))
    case Won =>
      var a := AdoptElectionEpoch(s);
      var r := ReplaceMaster(a);
      ReplaceMasterKeepsInv(a);
      var w := if t.refreshed then RefreshSize(r) else r;
      Outcome(w, Broadcast(w, t.links, Pong))
  }

  // ------------------------------------------------------------------ commands

  function AssignFree(s: State, which: set<nat>): State
    requires StateInv(s)
  {
    if exists j :: j in which && (j >= CLUSTER_SLOTS || s.slots[j].Some?) then s
    else
      Rebind(s, TakenBy(s.slots, which, s.myself)).(importing := Cleared(s.importing, which))
  }

  function Unassign(s: State, which: set<nat>): State
    requires StateInv(s)
  {
    if exists j :: j in which && (j >= CLUSTER_SLOTS || s.slots[j].None?) then s
    else Rebind(s, Cleared(s.slots, which)).(importing := Cleared(s.importing, which))
  }

  function CloseImport(s: State, slot: nat, owner: Name): State
    requires StateInv(s) && slot < CLUSTER_SLOTS
  {
    if owner == s.myself && s.importing[slot].Some?
    then BumpWithoutConsensus(s).(importing := s.importing[slot := None]) else s
  }

  function AssignTo(s: State, slot: nat, owner: Name, hasKeys: bool): State
    requires StateInv(s)
  {
    if !s.nodes[s.myself].master || slot >= CLUSTER_SLOTS || owner !in s.nodes
       || (s.slots[slot] == Some(s.myself) && owner != s.myself && hasKeys)
    then s
    else Rebind(CloseImport(s, slot, owner), s.slots[slot := Some(owner)])
  }

  function Blank(s: State): State
    requires s.myself in s.nodes
  {
    s.(importing := seq(CLUSTER_SLOTS, j => None),
       slots := seq(CLUSTER_SLOTS, j => None),
       nodes := map[s.myself :=
         s.nodes[s.myself].(master := true, slaveof := None, slots := {}, numslots := 0)])
  }

  function Execute(s: State, c: Command): State
    requires StateInv(s)
  {
    match c
    case AddSlots(which) => AssignFree(s, which)
    case DelSlots(which) => Unassign(s, which)
    case FlushSlots => DelNodeSlots(s, s.myself)
    case SetSlotImporting(slot, from) =>
      if !s.nodes[s.myself].master || slot >= CLUSTER_SLOTS || s.slots[slot] == Some(s.myself)
         || from !in s.nodes
      then s else s.(importing := s.importing[slot := Some(from)])
    case SetSlotStable(slot) =>
      if !s.nodes[s.myself].master || slot >= CLUSTER_SLOTS
      then s else s.(importing := s.importing[slot := None])
    case SetSlotNode(slot, owner, hasKeys) => AssignTo(s, slot, owner, hasKeys)
    case BumpEpoch => BumpWithoutConsensus(s)
    case SetConfigEpoch(epoch) =>
      if |s.nodes| > 1 || s.nodes[s.myself].configEpoch != 0 then s
      else s.(currentEpoch := Max(s.currentEpoch, epoch),
              nodes := s.nodes[s.myself := s.nodes[s.myself].(configEpoch := epoch)])
    case Forget(n) =>
      if n !in s.nodes || n == s.myself || (!s.nodes[s.myself].master && s.nodes[s.myself].slaveof == Some(n))
      then s else DelNode(s, n)
    case Replicate(n, empty) =>
      if n !in s.nodes || n == s.myself || !s.nodes[n].master
         || (s.nodes[s.myself].master && (s.nodes[s.myself].numslots != 0 || !empty))
      then s else SetMaster(s, n)
    case ResetSoft => Blank(s)
  }

  function TakenBy(t: seq<Option<Name>>, which: set<nat>, n: Name): seq<Option<Name>> {
    seq(|t|, j requires 0 <= j < |t| => if j in which then Some(n) else t[j])
  }

  function Cleared(t: seq<Option<Name>>, which: set<nat>): seq<Option<Name>> {
    seq(|t|, j requires 0 <= j < |t| => if j in which then None else t[j])
  }

  // A peer whose handshake completed enters the table with no slots and epoch zero.
  function Learn(s: State, n: Name, master: bool): State {
    if n in s.nodes then s
    else s.(nodes := s.nodes[n := Node(master, false, 0, {}, 0, None)])
  }

  function SetFail(s: State, n: Name, fail: bool): State {
    if n in s.nodes then s.(nodes := s.nodes[n := s.nodes[n].(fail := fail)]) else s
  }

  /** A process started with an empty configuration file. */
  function Fresh(me: Name): State {
    State(me, map[me := Node(true, false, 0, {}, 0, None)], 0, 0, 1,
          seq(CLUSTER_SLOTS, j => None), seq(CLUSTER_SLOTS, j => None), 0, 0, false)
  }

  // ---------------------------------------------------- every step keeps StateInv

  lemma ObserveKeepsInv(s: State, m: Msg)
    requires StateInv(s) && MsgInv(m)
    ensures StateInv(ObserveEpochs(s, m))
    ensures ObserveEpochs(s, m).nodes.Keys == s.nodes.Keys
    ensures m.sender in s.nodes ==> m.currentEpoch <= ObserveEpochs(s, m).currentEpoch
  {
  }

  /** Changing the slot table keeps the invariant when a replica gains no slot. */
  lemma RebindKeepsInv(s: State, t: seq<Option<Name>>)
    requires StateInv(s) && |t| == CLUSTER_SLOTS
    requires forall j | 0 <= j < |t| && t[j].Some? :: t[j].value in s.nodes
    requires s.nodes[s.myself].master || forall j | 0 <= j < |t| :: t[j] != Some(s.myself)
    ensures StateInv(Rebind(s, t))
  {
    RebindCoherent(s, t);
    if !s.nodes[s.myself].master {
      OwnedEmpty(Rebind(s, t), s.myself);
    }
  }

  lemma ReplicaOwnsNothing(s: State)
    requires StateInv(s) && !s.nodes[s.myself].master
    ensures forall j | 0 <= j < |s.slots| :: s.slots[j] != Some(s.myself)
  {
    OwnedEmpty(s, s.myself);
  }

  lemma RoleSwitchKeepsInv(s: State, m: Msg)
    requires StateInv(s) && m.sender in s.nodes && m.sender != s.myself
    ensures StateInv(RoleSwitch(s, m))
    ensures RoleSwitch(s, m).nodes.Keys == s.nodes.Keys && RoleSwitch(s, m).myself == s.myself
  {
    hide StateInv, DemoteNode, Follow, SetNodeAsMaster;
    DemoteKeepsInv(s, m.sender);
    SetNodeAsMasterKeepsInv(s, m.sender);
    if m.slaveof.Some? {
      FollowKeepsInv(DemoteNode(s, m.sender), m.sender, m.slaveof.value);
    }
  }

  lemma DemoteKeepsInv(s: State, n: Name)
    requires StateInv(s) && n in s.nodes && n != s.myself
    ensures StateInv(DemoteNode(s, n))
    ensures DemoteNode(s, n).nodes.Keys == s.nodes.Keys && DemoteNode(s, n).myself == s.myself
  {
    hide Owned, WithoutNode;
    DelNodeSlotsKeepsInv(s, n);
    DemotedKeepsInv(DelNodeSlots(s, n), n);
  }

  lemma DemotedKeepsInv(s: State, n: Name)
    requires StateInv(s) && n in s.nodes && n != s.myself
    ensures StateInv(s.(nodes := s.nodes[n := s.nodes[n].(master := false)]))
  {
    hide Owned;
    NodeKeepsInv(s, n, s.nodes[n].(master := false));
  }

  lemma FollowKeepsInv(s: State, n: Name, master: Name)
    requires StateInv(s) && n in s.nodes && n != s.myself
    ensures StateInv(Follow(s, n, master))
    ensures Follow(s, n, master).nodes.Keys == s.nodes.Keys && Follow(s, n, master).myself == s.myself
  {
  }

  // One node changed in its role and epoch.
  lemma NodeKeepsInv(s: State, n: Name, node: Node)
    requires StateInv(s) && n in s.nodes
    requires node.slots == s.nodes[n].slots && node.numslots == s.nodes[n].numslots
    requires node.configEpoch <= s.currentEpoch && (node.slaveof.Some? ==> node.slaveof.value in s.nodes)
    requires n == s.myself && !node.master ==> node.slaveof.Some? && node.slaveof.value != n && node.numslots == 0
    ensures StateInv(s.(nodes := s.nodes[n := node]))
  {
    hide Owned;
  }

  lemma RaisedKeepsInv(s: State, n: Name, epoch: nat)
    requires StateInv(s) && n in s.nodes && epoch <= s.currentEpoch
    ensures StateInv(s.(nodes := s.nodes[n := s.nodes[n].(configEpoch := epoch)]))
  {
    hide Owned;
    NodeKeepsInv(s, n, s.nodes[n].(configEpoch := epoch));
  }

  lemma SetNodeAsMasterKeepsInv(s: State, n: Name)
    requires StateInv(s) && n in s.nodes
    ensures StateInv(SetNodeAsMaster(s, n)) && SetNodeAsMaster(s, n).currentEpoch == s.currentEpoch
    ensures SetNodeAsMaster(s, n).nodes.Keys == s.nodes.Keys && SetNodeAsMaster(s, n).myself == s.myself
  {
    hide Coherent, RoleOk;
    NodeKeepsInv(s, n, s.nodes[n].(master := true, slaveof := None));
  }

  lemma DelNodeSlotsKeepsInv(s: State, n: Name)
    requires StateInv(s)
    ensures StateInv(DelNodeSlots(s, n))
  {
    if !s.nodes[s.myself].master {
      ReplicaOwnsNothing(s);
    }
    RebindKeepsInv(s, WithoutNode(s.slots, n));
  }

  // A claim gives slots to known nodes, and none to a replica that runs this process.
  lemma ClaimedFits(s: State, sender: Name, epoch: nat, bits: set<nat>)
    requires StateInv(s) && sender in s.nodes && sender != s.myself
    ensures
      var t := Claimed(s, sender, epoch, bits);
      && |t| == CLUSTER_SLOTS
      && (forall j | 0 <= j < |t| && t[j].Some? :: t[j].value in s.nodes)
      && (s.nodes[s.myself].master || forall j | 0 <= j < |t| :: t[j] != Some(s.myself))
  {
    hide Prevails;
    if !s.nodes[s.myself].master { ReplicaOwnsNothing(s); }
  }

  lemma LoserIsMaster(s: State, sender: Name, epoch: nat, bits: set<nat>)
    requires StateInv(s)
    ensures LosesSlot(s, sender, epoch, bits) ==> CurMaster(s).Some? && CurMaster(s).value in s.nodes
  {
  }

  lemma UpdateSlotsKeepsInv(s: State, sender: Name, epoch: nat, bits: set<nat>)
    requires StateInv(s) && sender in s.nodes
    ensures StateInv(UpdateSlotsConfigWith(s, sender, epoch, bits))
    ensures UpdateSlotsConfigWith(s, sender, epoch, bits).nodes.Keys == s.nodes.Keys
  {
    hide Owned, Prevails, Claimed, EpochsBounded, Coherent, LosesSlot;
    LoserIsMaster(s, sender, epoch, bits);
    if sender != s.myself {
      var t := Claimed(s, sender, epoch, bits);
      ClaimedFits(s, sender, epoch, bits);
      RebindKeepsInv(s, t);
      var r := Rebind(s, t);
      if LosesSlot(s, sender, epoch, bits) && r.nodes[CurMaster(s).value].numslots == 0 {
        SetMasterKeepsInv(r, sender);
      }
    }
  }

  /** Becoming a replica: the two assertions of the source are the preconditions. */
  lemma SetMasterKeepsInv(s: State, n: Name)
    requires StateInv(s) && n in s.nodes
    requires n != s.myself && s.nodes[s.myself].numslots == 0
    ensures StateInv(SetMaster(s, n))
  {
  }

  lemma AdoptClaimsKeepsInv(s: State, m: Msg)
    requires StateInv(s) && m.sender in s.nodes
    ensures StateInv(AdoptClaims(s, m))
    ensures AdoptClaims(s, m).nodes.Keys == s.nodes.Keys
    ensures AdoptClaims(s, m).myself == s.myself
  {
    UpdateSlotsKeepsInv(s, m.sender, m.configEpoch, m.slots);
  }

  lemma ReplaceMasterKeepsInv(s: State)
    requires StateInv(s)
    ensures StateInv(ReplaceMaster(s)) && ReplaceMaster(s).myself == s.myself
    ensures ReplaceMaster(s).nodes.Keys == s.nodes.Keys
  {
  }

  lemma TakeNextEpochKeepsInv(s: State)
    requires StateInv(s)
    ensures StateInv(TakeNextEpoch(s))
  {
  }

  lemma ReceiveUpdateKeepsInv(s: State, n: Name, epoch: nat, bits: set<nat>)
    requires StateInv(s) && epoch <= s.currentEpoch
    ensures StateInv(ReceiveUpdate(s, n, epoch, bits))
    ensures ReceiveUpdate(s, n, epoch, bits).nodes.Keys == s.nodes.Keys
  {
    hide SetNodeAsMaster, UpdateSlotsConfigWith, Owned;
    if n in s.nodes && s.nodes[n].configEpoch < epoch {
      var a := SetNodeAsMaster(s, n);
      SetNodeAsMasterKeepsInv(s, n);
      var b := a.(nodes := a.nodes[n := a.nodes[n].(configEpoch := epoch)]);
      RaisedKeepsInv(a, n, epoch);
      UpdateSlotsKeepsInv(b, n, epoch, bits);
    }
  }

  lemma BuildMsgInv(s: State, body: Body)
    requires StateInv(s)
    requires body.Update? ==> body.epoch <= s.currentEpoch
    ensures MsgInv(BuildMsg(s, body)) && BuildMsg(s, body).sender == s.myself && BuildMsg(s, body).body == body
  {
  }

  // A master announces exactly the slots the table gives to it, under its configEpoch; a
  // replica names its master and announces that node's slots and configEpoch.
  ghost predicate TrueHeader(s: State, m: Msg)
    requires StateInv(s)
  {
    var me := s.nodes[s.myself];
    var owner := if me.master then s.myself else me.slaveof.value;
    && m.sender == s.myself && m.currentEpoch == s.currentEpoch && m.slaveof == me.slaveof
    && (forall j | 0 <= j < CLUSTER_SLOTS :: j in m.slots <==> s.slots[j] == Some(owner))
    && m.configEpoch == s.nodes[owner].configEpoch
  }

  lemma BroadcastInv(s: State, links: set<Name>, body: Body)
    requires StateInv(s) && !body.Update?
    ensures SendsInv(s.myself, Broadcast(s, links, body))
  {
    BuildMsgInv(s, body);
  }

  /** What goes out says the truth about the sender and carries no epoch ahead of its own; it
      goes to known nodes with a link, to each once, and never to the sender. */
  lemma BroadcastIsTrue(s: State, links: set<Name>, body: Body)
    requires StateInv(s) && !body.Update?
    ensures SendsInv(s.myself, Broadcast(s, links, body))
    ensures forall e | e in Broadcast(s, links, body) ::
      TrueHeader(s, e.msg) && e.msg.body == body && Broadcast(s, links, body)[e] == 1
    ensures forall n :: (exists e :: e in Broadcast(s, links, body) && e.dst == n) <==> n in s.nodes && n in links && n != s.myself
  {
    BroadcastInv(s, links, body);
    var m := BuildMsg(s, body);
    assert s.nodes[HeaderOwner(s)].slots == Owned(s.slots, HeaderOwner(s));
    assert TrueHeader(s, m);
    hide TrueHeader, StateInv, Coherent;
    var sends := Broadcast(s, links, body);
    forall n
      ensures (exists e :: e in sends && e.dst == n) <==> n in s.nodes && n in links && n != s.myself
    {
      if n in s.nodes && n in links && n != s.myself { assert Envelope(n, m) in sends; }
    }
  }

  lemma ResolveCollisionKeepsInv(s: State, m: Msg)
    requires StateInv(s) && m.sender in s.nodes
    ensures StateInv(ResolveCollision(s, m))
  {
    TakeNextEpochKeepsInv(s);
  }

  lemma ProcessConfigKeepsInv(s: State, m: Msg, env: Env)
    requires StateInv(s) && m.sender in s.nodes && m.sender != s.myself
    ensures StateInv(ProcessConfig(s, m, env).state)
    ensures SendsInv(s.myself, ProcessConfig(s, m, env).sends)
  {
    hide RoleSwitch, AdoptClaims, ResolveCollision, SendUpdate;
    var s2 := RoleSwitch(s, m);
    RoleSwitchKeepsInv(s, m);
    var s3 := AdoptClaims(s2, m);
    AdoptClaimsKeepsInv(s2, m);
    ResolveCollisionKeepsInv(s3, m);
    SendUpdateInv(s3, m);
  }

  lemma ReceivePingKeepsInv(s: State, m: Msg, env: Env)
    requires StateInv(s) && MsgInv(m) && m.sender != s.myself
    ensures StateInv(ReceivePing(s, m, env).state)
    ensures SendsInv(s.myself, ReceivePing(s, m, env).sends)
  {
    hide BuildMsg, ProcessConfig, MsgInv;
    var s1 := ObserveEpochs(s, m);
    ObserveKeepsInv(s, m);
    BuildMsgInv(s1, Pong);
    if m.sender in s.nodes {
      ProcessConfigKeepsInv(s1, m, env);
    }
  }

  lemma SendUpdateInv(s: State, m: Msg)
    requires StateInv(s) && m.sender != s.myself
    ensures SendsInv(s.myself, SendUpdate(s, m))
  {
    var r := FirstOutdated(s, m, CLUSTER_SLOTS);
    if r.Some? {
      var n := s.slots[r.value].value;
      BuildMsgInv(s, Update(n, s.nodes[n].configEpoch, s.nodes[n].slots));
    }
  }

  lemma VoteKeepsInv(s: State, m: Msg, env: Env)
    requires StateInv(s) && m.sender in s.nodes && m.body.AuthRequest? && m.sender != s.myself
    ensures StateInv(Vote(s, m, env).state)
    ensures SendsInv(s.myself, Vote(s, m, env).sends)
  {
    BuildMsgInv(s.(lastVoteEpoch := s.currentEpoch), AuthAck);
  }

  lemma CountAckKeepsInv(s: State, m: Msg)
    requires StateInv(s) && m.sender in s.nodes
    ensures StateInv(CountAck(s, m))
  {
  }

  /** Receiving any packet keeps the invariant and sends only well-bounded packets. */
  lemma ReceiveKeepsInv(s: State, m: Msg, env: Env)
    requires StateInv(s) && MsgInv(m) && m.sender != s.myself
    ensures StateInv(Receive(s, m, env).state)
    ensures SendsInv(s.myself, Receive(s, m, env).sends)
  {
    hide ReceivePing, ReceiveUpdate, Vote, Coherent, RoleOk;
    if m.body.Ping? || m.body.Pong? || m.body.Meet? {
      ReceivePingKeepsInv(s, m, env);
    } else if m.sender in s.nodes {
      var s1 := ObserveEpochs(s, m);
      ObserveKeepsInv(s, m);
      match m.body {
        case Update(n, epoch, bits) => ReceiveUpdateKeepsInv(s1, n, epoch, bits);
        case AuthRequest(_) => VoteKeepsInv(s1, m, env);
        case Fail(about) => SetFailKeepsInv(s1, about, true);
        case AuthAck => CountAckKeepsInv(s1, m);
        case _ =>
      }
    }
  }

  lemma FailoverKeepsInv(s: State, t: Timing)
    requires StateInv(s)
    ensures StateInv(HandleSlaveFailover(s, t).state)
    ensures SendsInv(s.myself, HandleSlaveFailover(s, t).sends)
  {
    hide Coherent, EpochsBounded, NextFailoverStep, Broadcast, SendsInv, ReplaceMaster, AdoptElectionEpoch;
    match NextFailoverStep(s, t)
    case Idle => NothingSent(s.myself);
    case Rescheduled =>
      CountingKeepsInv(s, 0, false);
      BroadcastInv(s.(authCount := 0, authSent := false), t.links, Pong);
    case Requested =>
      StandingKeepsInv(s);
      BroadcastInv(s.(currentEpoch := s.currentEpoch + 1, authEpoch := s.currentEpoch + 1, authSent := true),
                   t.links, AuthRequest(t.forceAck));
    case Won =>
      AdoptElectionKeepsInv(s);
      var r := ReplaceMaster(AdoptElectionEpoch(s));
      ReplaceMasterKeepsInv(AdoptElectionEpoch(s));
      RefreshKeepsInv(r);
      BroadcastInv(if t.refreshed then RefreshSize(r) else r, t.links, Pong);
  }

  lemma NothingSent(n: Name)
    ensures SendsInv(n, multiset{})
  {
  }

  lemma CountingKeepsInv(s: State, count: nat, sent: bool)
    requires StateInv(s)
    ensures StateInv(s.(authCount := count, authSent := sent))
  {
  }

  lemma StandingKeepsInv(s: State)
    requires StateInv(s)
    ensures StateInv(s.(currentEpoch := s.currentEpoch + 1, authEpoch := s.currentEpoch + 1, authSent := true))
  {
  }

  lemma AdoptElectionKeepsInv(s: State)
    requires StateInv(s)
    ensures StateInv(AdoptElectionEpoch(s)) && AdoptElectionEpoch(s).myself == s.myself
  {
  }

  lemma RefreshKeepsInv(s: State)
    requires StateInv(s)
    ensures StateInv(RefreshSize(s))
  {
  }

  lemma UnlinkKeepsInv(s: State, n: Name)
    requires StateInv(s) && n in s.nodes && n != s.myself
    requires s.nodes[s.myself].master || s.nodes[s.myself].slaveof != Some(n)
    requires forall j | 0 <= j < CLUSTER_SLOTS :: s.slots[j] != Some(n)
    ensures StateInv(Unlink(s, n))
  {
  }

  /** Forgetting a node leaves no slot, importing entry or slaveof reference to it. */
  lemma DelNodeKeepsInv(s: State, n: Name)
    requires StateInv(s) && n in s.nodes && n != s.myself
    requires s.nodes[s.myself].master || s.nodes[s.myself].slaveof != Some(n)
    ensures StateInv(DelNode(s, n))
    ensures DelNode(s, n).nodes.Keys == s.nodes.Keys - {n}
    ensures forall j | 0 <= j < CLUSTER_SLOTS ::
      DelNode(s, n).slots[j] != Some(n) && DelNode(s, n).importing[j] != Some(n)
  {
    hide StateInv, WithoutNode, Owned;
    DelNodeSlotsKeepsInv(s, n);
    FreedOf(s, n);
    UnlinkKeepsInv(DelNodeSlots(s, n), n);
  }

  lemma FreedOf(s: State, n: Name)
    requires StateInv(s) && n in s.nodes
    ensures |s.slots| == |s.importing| == CLUSTER_SLOTS && s.myself in s.nodes
    ensures |WithoutNode(s.slots, n)| == |WithoutNode(s.importing, n)| == CLUSTER_SLOTS
    ensures forall j | 0 <= j < CLUSTER_SLOTS ::
      WithoutNode(s.slots, n)[j] != Some(n) && WithoutNode(s.importing, n)[j] != Some(n)
  {
    hide Owned;
  }

  // ADDSLOTS is accepted from a replica too; it is only considered on masters.
  predicate Accepted(s: State, c: Command)
    requires s.myself in s.nodes
  {
    c.AddSlots? ==> s.nodes[s.myself].master
  }

  lemma AssignFreeKeepsInv(s: State, which: set<nat>)
    requires StateInv(s) && s.nodes[s.myself].master
    ensures StateInv(AssignFree(s, which))
  {
    RebindKeepsInv(s, TakenBy(s.slots, which, s.myself));
  }

  lemma UnassignKeepsInv(s: State, which: set<nat>)
    requires StateInv(s)
    ensures StateInv(Unassign(s, which))
  {
    if !s.nodes[s.myself].master { ReplicaOwnsNothing(s); }
    RebindKeepsInv(s, Cleared(s.slots, which));
  }

  lemma AssignToKeepsInv(s: State, slot: nat, owner: Name, hasKeys: bool)
    requires StateInv(s)
    ensures StateInv(AssignTo(s, slot, owner, hasKeys))
  {
    if s.nodes[s.myself].master && slot < CLUSTER_SLOTS && owner in s.nodes {
      CloseImportKeepsInv(s, slot, owner);
      RebindKeepsInv(CloseImport(s, slot, owner), s.slots[slot := Some(owner)]);
    }
  }

  lemma CloseImportKeepsInv(s: State, slot: nat, owner: Name)
    requires StateInv(s) && slot < CLUSTER_SLOTS
    ensures StateInv(CloseImport(s, slot, owner))
    ensures CloseImport(s, slot, owner).nodes.Keys == s.nodes.Keys
    ensures CloseImport(s, slot, owner).myself == s.myself
    ensures CloseImport(s, slot, owner).nodes[s.myself].master == s.nodes[s.myself].master
  {
    BumpKeepsInv(s);
  }

  lemma BlankInv(s: State)
    requires StateInv(s)
    ensures StateInv(Blank(s))
  {
    assert Owned(Blank(s).slots, s.myself) == {};
  }

  lemma BumpKeepsInv(s: State)
    requires StateInv(s)
    ensures StateInv(BumpWithoutConsensus(s))
  {
    TakeNextEpochKeepsInv(s);
  }

  /** Every administrator command considered keeps the invariant. */
  lemma ExecuteKeepsInv(s: State, c: Command)
    requires StateInv(s) && Accepted(s, c)
    ensures StateInv(Execute(s, c))
  {
    hide AssignFree, Unassign, DelNodeSlots, AssignTo, BumpWithoutConsensus, DelNode, SetMaster, Blank, Owned;
    match c
    case SetSlotImporting(slot, from) => ImportingKeepsInv(s, slot, Some(from));
    case SetSlotStable(slot) => ImportingKeepsInv(s, slot, None);
    case BumpEpoch => BumpKeepsInv(s);
    case SetConfigEpoch(epoch) => SetConfigEpochKeepsInv(s, epoch);
    case Forget(n) => ForgetKeepsInv(s, n);
    case Replicate(n, _) => ReplicateKeepsInv(s, c);
    case AddSlots(which) => AssignFreeKeepsInv(s, which);
    case DelSlots(which) => UnassignKeepsInv(s, which);
    case FlushSlots => DelNodeSlotsKeepsInv(s, s.myself);
    case SetSlotNode(slot, owner, hasKeys) => AssignToKeepsInv(s, slot, owner, hasKeys);
    case ResetSoft => BlankInv(s);
  }

  lemma ImportingKeepsInv(s: State, slot: nat, from: Option<Name>)
    requires StateInv(s)
    ensures slot < CLUSTER_SLOTS ==> StateInv(s.(importing := s.importing[slot := from]))
  {
  }

  lemma SetConfigEpochKeepsInv(s: State, epoch: nat)
    requires StateInv(s)
    ensures StateInv(Execute(s, SetConfigEpoch(epoch)))
  {
    if |s.nodes| <= 1 { OnlyMyself(s); }
  }

  lemma OnlyMyself(s: State)
    requires StateInv(s) && |s.nodes| <= 1
    ensures s.nodes.Keys == {s.myself}
  {
    assert s.nodes.Keys - {s.myself} == {} by {
      assert |s.nodes.Keys - {s.myself}| == |s.nodes.Keys| - 1;
    }
  }

  lemma ForgetKeepsInv(s: State, n: Name)
    requires StateInv(s)
    ensures StateInv(Execute(s, Forget(n)))
  {
    if n in s.nodes && n != s.myself && (s.nodes[s.myself].master || s.nodes[s.myself].slaveof != Some(n)) {
      DelNodeKeepsInv(s, n);
    }
  }

  lemma ReplicateKeepsInv(s: State, c: Command)
    requires StateInv(s) && c.Replicate?
    ensures StateInv(Execute(s, c))
  {
    if c.target in s.nodes && c.target != s.myself && s.nodes[s.myself].numslots == 0 {
      SetMasterKeepsInv(s, c.target);
    }
  }

  lemma LearnKeepsInv(s: State, n: Name, master: bool)
    requires StateInv(s)
    ensures StateInv(Learn(s, n, master))
  {
    if n !in s.nodes {
      assert Owned(s.slots, n) == {};
    }
  }

  lemma SetFailKeepsInv(s: State, n: Name, fail: bool)
    requires StateInv(s)
    ensures StateInv(SetFail(s, n, fail))
  {
  }

  lemma FreshInv(me: Name)
    ensures StateInv(Fresh(me)) && Fresh(me).myself == me
  {
    assert Owned(Fresh(me).slots, me) == {};
  }
}
