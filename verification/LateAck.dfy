/** Why election safety needs its assumption: a run in which an acknowledgement is
    counted between the scheduling and the start of an election, and two replicas of
    the same master win the same epoch. */
module LateAck {
  import opened Wrappers
  import opened ClusterModel
  import opened ClusterBus

  // Process 0 serves slot 0; processes 1 and 2 replicate it.
  ghost function Unassigned(): seq<Option<Name>> { seq(CLUSTER_SLOTS, j => None) }

  ghost function Table(): seq<Option<Name>> { Unassigned()[0 := Some(0)] }

  const EMPTY_MASTER := Node(true, false, 0, {}, 0, None)
  const SERVING := Node(true, false, 0, {0}, 1, None)
  const UNBOUND := Node(false, false, 0, {}, 0, None)
  const REPLICA := Node(false, false, 0, {}, 0, Some(0))

  const QUIET := Env(false, false)
  const REACHABLE := Env(true, false)

  ghost function MasterState(one: Node, two: Node, epoch: nat, vote: nat): State {
    State(0, map[0 := SERVING, 1 := one, 2 := two], epoch, vote, 1, Table(), Unassigned(), 0, 0, false)
  }

  ghost function ReplicaState(me: Name, epoch: nat, auth: nat, count: nat, sent: bool): State {
    State(me, map[0 := SERVING, me := REPLICA], epoch, 0, 1, Table(), Unassigned(), auth, count, sent)
  }

  // A process that knows about process 0 but still is an empty master itself.
  ghost function Joined(me: Name, zero: Node, table: seq<Option<Name>>): State {
    State(me, map[0 := zero, me := EMPTY_MASTER], 0, 0, 1, table, Unassigned(), 0, 0, false)
  }

  // A manual failover attempt, with or without the retry timeout elapsed.
  ghost function Manual(retry: bool, links: set<Name>): Timing {
    Timing(true, false, false, retry, false, false, true, false, links)
  }

  ghost function FromReplica(me: Name, epoch: nat, body: Body): Msg {
    Msg(me, epoch, 0, {0}, Some(0), body)
  }

  ghost function FromMaster(epoch: nat, body: Body): Msg {
    Msg(0, epoch, 0, {0}, None, body)
  }

  lemma Tables()
    ensures forall n | n != 0 :: Owned(Table(), n) == {}
    ensures Owned(Table(), 0) == {0}
    ensures forall n :: Owned(Unassigned(), n) == {}
  {
  }

  lemma MasterStateInv(one: Node, two: Node, epoch: nat, vote: nat)
    requires one in {UNBOUND, REPLICA} && two in {UNBOUND, REPLICA} && vote <= epoch
    ensures StateInv(MasterState(one, two, epoch, vote))
  {
    Tables();
  }

  lemma ReplicaStateInv(me: Name, epoch: nat, auth: nat, count: nat, sent: bool)
    requires me != 0 && auth <= epoch
    ensures StateInv(ReplicaState(me, epoch, auth, count, sent))
  {
    Tables();
  }

  lemma JoinedInv(me: Name)
    requires me != 0
    ensures StateInv(Joined(me, EMPTY_MASTER, Unassigned())) && StateInv(Joined(me, SERVING, Table()))
  {
    Tables();
  }

  // ---------------------------------------------------------------- single steps

  lemma ServeSlot()
    ensures StateInv(Fresh(0))
    ensures Learn(Learn(Execute(Fresh(0), AddSlots({0})), 1, false), 2, false) == MasterState(UNBOUND, UNBOUND, 0, 0)
  {
    hide StateInv, Learn;
    FreshInv(0);
    FirstSlot();
    BothLearnt();
  }

  ghost function ServingState(): State {
    State(0, map[0 := SERVING], 0, 0, 1, Table(), Unassigned(), 0, 0, false)
  }

  lemma FirstSlot()
    ensures StateInv(Fresh(0)) && Execute(Fresh(0), AddSlots({0})) == ServingState()
  {
    hide StateInv, Owned, TakenBy, Cleared;
    FreshInv(0);
    Tables();
    TakesSlot();
    assert Rebind(Fresh(0), Table()).nodes == map[0 := SERVING];
  }

  lemma TakesSlot()
    ensures TakenBy(Unassigned(), {0}, 0) == Table() && Cleared(Unassigned(), {0}) == Unassigned()
  {
  }

  lemma BothLearnt()
    ensures Learn(Learn(ServingState(), 1, false), 2, false) == MasterState(UNBOUND, UNBOUND, 0, 0)
  {
    hide Table, Unassigned;
  }

  lemma HearMaster(me: Name)
    requires me != 0
    ensures StateInv(Joined(me, EMPTY_MASTER, Unassigned())) && MsgInv(FromMaster(0, Pong))
    ensures Receive(Joined(me, EMPTY_MASTER, Unassigned()), FromMaster(0, Pong), QUIET)
         == Outcome(Joined(me, SERVING, Table()), multiset{})
  {
    JoinedInv(me);
    Tables();
    var s, m := Joined(me, EMPTY_MASTER, Unassigned()), FromMaster(0, Pong);
    assert ObserveEpochs(s, m) == s;
    assert RoleSwitch(s, m) == s;
    assert Claimed(s, 0, 0, {0}) == Table();
    assert Rebind(s, Table()) == Joined(me, SERVING, Table());
    assert AdoptClaims(s, m) == Joined(me, SERVING, Table());
    assert ResolveCollision(Joined(me, SERVING, Table()), m) == Joined(me, SERVING, Table());
  }

  lemma BecomeReplica(me: Name)
    requires me != 0
    ensures StateInv(Joined(me, SERVING, Table()))
    ensures Execute(Joined(me, SERVING, Table()), Replicate(0, true)) == ReplicaState(me, 0, 0, 0, false)
  {
    JoinedInv(me);
  }

  lemma HearReplica(one: Node, two: Node, me: Name)
    requires one in {UNBOUND, REPLICA} && two in {UNBOUND, REPLICA} && me in {1, 2}
    ensures StateInv(MasterState(one, two, 0, 0)) && MsgInv(FromReplica(me, 0, Pong))
    ensures Receive(MasterState(one, two, 0, 0), FromReplica(me, 0, Pong), QUIET)
         == Outcome(MasterState(if me == 1 then REPLICA else one, if me == 2 then REPLICA else two, 0, 0), multiset{})
  {
    MasterStateInv(one, two, 0, 0);
    var s, m := MasterState(one, two, 0, 0), FromReplica(me, 0, Pong);
    assert ObserveEpochs(s, m) == s;
    var t := MasterState(if me == 1 then REPLICA else one, if me == 2 then REPLICA else two, 0, 0);
    assert RoleSwitch(s, m) == t by { HearsRole(one, two, me); }
    MasterStateInv(if me == 1 then REPLICA else one, if me == 2 then REPLICA else two, 0, 0);
    hide RoleSwitch, AdoptClaims, ResolveCollision, DirtySlots, Table, Unassigned;
    NothingDirty(t, m);
  }

  lemma HearsRole(one: Node, two: Node, me: Name)
    requires one in {UNBOUND, REPLICA} && two in {UNBOUND, REPLICA} && me in {1, 2}
    ensures StateInv(MasterState(one, two, 0, 0))
    ensures RoleSwitch(MasterState(one, two, 0, 0), FromReplica(me, 0, Pong))
         == MasterState(if me == 1 then REPLICA else one, if me == 2 then REPLICA else two, 0, 0)
  {
    MasterStateInv(one, two, 0, 0);
    hide StateInv, Table, Unassigned;
  }

  lemma NothingDirty(s: State, m: Msg)
    requires StateInv(s) && m.sender in s.nodes && m.slots == {0}
    requires s.nodes[m.sender] == REPLICA && 0 in s.nodes && s.nodes[0] == SERVING
    ensures !DirtySlots(s, m) && AdoptClaims(s, m) == s && ResolveCollision(s, m) == s
  {
  }

  lemma Stand(me: Name, epoch: nat, auth: nat, count: nat, links: set<Name>)
    requires me != 0 && auth <= epoch && links <= {0}
    ensures StateInv(ReplicaState(me, epoch, auth, count, false))
    ensures HandleSlaveFailover(ReplicaState(me, epoch, auth, count, false), Manual(false, links))
         == Outcome(ReplicaState(me, epoch + 1, epoch + 1, count, true),
                    if links == {} then multiset{}
                    else multiset{Envelope(0, FromReplica(me, epoch + 1, AuthRequest(true)))})
    ensures NextFailoverStep(ReplicaState(me, epoch, auth, count, false), Manual(false, links)) == Requested
  {
    hide EpochsBounded, Broadcast, Table, Unassigned;
    ReplicaStateInv(me, epoch, auth, count, false);
    Asks(me, epoch + 1, count, links);
  }

  lemma Asks(me: Name, epoch: nat, count: nat, links: set<Name>)
    requires me != 0 && links <= {0}
    ensures StateInv(ReplicaState(me, epoch, epoch, count, true))
    ensures Broadcast(ReplicaState(me, epoch, epoch, count, true), links, AuthRequest(true))
         == if links == {} then multiset{} else multiset{Envelope(0, FromReplica(me, epoch, AuthRequest(true)))}
  {
    ReplicaStateInv(me, epoch, epoch, count, true);
    hide EpochsBounded, Table, Unassigned;
    var r := ReplicaState(me, epoch, epoch, count, true);
    assert BuildMsg(r, AuthRequest(true)) == FromReplica(me, epoch, AuthRequest(true));
    hide BuildMsg;
    assert (set n | n in r.nodes.Keys && n in links && n != r.myself :: Envelope(n, BuildMsg(r, AuthRequest(true))))
        == if links == {} then {} else {Envelope(0, FromReplica(me, epoch, AuthRequest(true)))};
  }

  lemma Reschedule(me: Name, epoch: nat, auth: nat, count: nat)
    requires me != 0 && auth <= epoch
    ensures StateInv(ReplicaState(me, epoch, auth, count, true))
    ensures HandleSlaveFailover(ReplicaState(me, epoch, auth, count, true), Manual(true, {}))
         == Outcome(ReplicaState(me, epoch, auth, 0, false), multiset{})
    ensures NextFailoverStep(ReplicaState(me, epoch, auth, count, true), Manual(true, {})) == Rescheduled
  {
    ReplicaStateInv(me, epoch, auth, count, true);
    var r := ReplicaState(me, epoch, auth, 0, false);
    ReplicaStateInv(me, epoch, auth, 0, false);
    NoLinks(r, {}, Pong);
  }

  lemma NoLinks(s: State, links: set<Name>, body: Body)
    requires Coherent(s) && s.myself in s.nodes && links * s.nodes.Keys == {}
    ensures Broadcast(s, links, body) == multiset{}
  {
    var targets := set n | n in s.nodes.Keys && n in links && n != s.myself :: Envelope(n, BuildMsg(s, body));
    assert forall n | n in s.nodes.Keys && n in links :: n in links * s.nodes.Keys;
    assert targets == {};
  }

  lemma CastVote(me: Name, epoch: nat, vote: nat, request: nat)
    requires me in {1, 2} && vote <= epoch <= request && vote < request
    ensures StateInv(MasterState(REPLICA, REPLICA, epoch, vote)) && MsgInv(FromReplica(me, request, AuthRequest(true)))
    ensures Receive(MasterState(REPLICA, REPLICA, epoch, vote), FromReplica(me, request, AuthRequest(true)), REACHABLE)
         == Outcome(MasterState(REPLICA, REPLICA, request, request), multiset{Envelope(me, FromMaster(request, AuthAck))})
    ensures Granted(MasterState(REPLICA, REPLICA, epoch, vote), FromReplica(me, request, AuthRequest(true)), REACHABLE)
  {
    MasterStateInv(REPLICA, REPLICA, epoch, vote);
    MasterStateInv(REPLICA, REPLICA, request, vote);
    MasterStateInv(REPLICA, REPLICA, request, request);
    var s, m := MasterState(REPLICA, REPLICA, epoch, vote), FromReplica(me, request, AuthRequest(true));
    var s1 := MasterState(REPLICA, REPLICA, request, vote);
    assert ObserveEpochs(s, m) == s1;
    assert GrantsVote(s1, m, REACHABLE);
    assert BuildMsg(MasterState(REPLICA, REPLICA, request, request), AuthAck) == FromMaster(request, AuthAck);
  }

  lemma CountAckOf(me: Name, epoch: nat, auth: nat, count: nat, sent: bool, ack: nat)
    requires me != 0 && auth <= ack <= epoch
    ensures StateInv(ReplicaState(me, epoch, auth, count, sent)) && MsgInv(FromMaster(ack, AuthAck))
    ensures Receive(ReplicaState(me, epoch, auth, count, sent), FromMaster(ack, AuthAck), QUIET)
         == Outcome(ReplicaState(me, epoch, auth, count + 1, sent), multiset{})
    ensures Counted(ReplicaState(me, epoch, auth, count, sent), FromMaster(ack, AuthAck))
    ensures !Granted(ReplicaState(me, epoch, auth, count, sent), FromMaster(ack, AuthAck), QUIET)
  {
    ReplicaStateInv(me, epoch, auth, count, sent);
    var s, m := ReplicaState(me, epoch, auth, count, sent), FromMaster(ack, AuthAck);
    assert ObserveEpochs(s, m) == s;
  }

  lemma CatchUp(me: Name, epoch: nat)
    requires me != 0
    ensures StateInv(ReplicaState(me, 0, 0, 0, false)) && MsgInv(FromMaster(epoch, Other))
    ensures Receive(ReplicaState(me, 0, 0, 0, false), FromMaster(epoch, Other), QUIET)
         == Outcome(ReplicaState(me, epoch, 0, 0, false), multiset{})
  {
    ReplicaStateInv(me, 0, 0, 0, false);
  }

  lemma WithOneVote(me: Name)
    requires me != 0
    ensures StateInv(ReplicaState(me, 2, 2, 1, true))
    ensures NextFailoverStep(ReplicaState(me, 2, 2, 1, true), Manual(false, {})) == Won
  {
    ReplicaStateInv(me, 2, 2, 1, true);
  }

  // ----------------------------------------------------------------------- the run

  ghost predicate Reached(b: Bus) {
    Sound(b) && exists trace: seq<Bus>, evs: seq<Event> :: EndsIn(trace, evs, b)
  }

  ghost predicate EndsIn(trace: seq<Bus>, evs: seq<Event>, b: Bus) {
    IsRun(trace, evs) && trace[|evs|] == b
  }

  lemma Continue(b: Bus, ev: Event, b': Bus)
    requires Reached(b) && Enabled(b, ev) && b' == Apply(b, ev)
    ensures Reached(b')
  {
    hide StateInv, MsgInv, Apply, Enabled, EndsIn;
    StepKeepsSound(b, ev, b');
    var trace: seq<Bus>, evs: seq<Event> :| EndsIn(trace, evs, b);
    Extend(trace, evs, b, ev, b');
  }

  lemma Extend(trace: seq<Bus>, evs: seq<Event>, b: Bus, ev: Event, b': Bus)
    requires EndsIn(trace, evs, b) && Step(b, ev, b')
    ensures EndsIn(trace + [b'], evs + [ev], b')
  {
    hide Step, Init;
    var trace', evs' := trace + [b'], evs + [ev];
    forall i | 0 <= i < |evs'|
      ensures Step(trace'[i], evs'[i], trace'[i + 1])
    {
      if i < |evs| { assert Step(trace[i], evs[i], trace[i + 1]); }
    }
  }

  // Three processes, nothing yet recorded about elections.
  ghost function Three(zero: State, one: State, two: State, net: multiset<Envelope>): Bus {
    Bus(map[0 := zero, 1 := one, 2 := two], net, map[],
        map[0 := {}, 1 := {}, 2 := {}], map[0 := 0, 1 := 0, 2 := 0], {})
  }

  lemma Start()
    ensures Reached(Three(Fresh(0), Fresh(1), Fresh(2), multiset{}))
  {
    hide StateInv, Fresh;
    var b := Three(Fresh(0), Fresh(1), Fresh(2), multiset{});
    FreshInv(0); FreshInv(1); FreshInv(2);
    StartsFresh();
    hide Three, Init, Sound;
    assert EndsIn([b], [], b);
  }

  lemma StartsFresh()
    ensures
      var b := Three(Fresh(0), Fresh(1), Fresh(2), multiset{});
      Init(b) && (StateInv(Fresh(0)) && StateInv(Fresh(1)) && StateInv(Fresh(2)) ==> Sound(b))
  {
    hide StateInv, Fresh, Sound;
    var b := Three(Fresh(0), Fresh(1), Fresh(2), multiset{});
    assert b.counted == map n | n in b.procs :: {};
    assert b.late == map n | n in b.procs :: 0;
    SoundStart();
  }

  lemma SoundStart()
    ensures StateInv(Fresh(0)) && StateInv(Fresh(1)) && StateInv(Fresh(2)) ==>
      Sound(Three(Fresh(0), Fresh(1), Fresh(2), multiset{}))
  {
    FreshNames();
    hide StateInv, Fresh;
  }

  lemma FreshNames()
    ensures Fresh(0).myself == 0 && Fresh(1).myself == 1 && Fresh(2).myself == 2
  {
  }

  lemma Administer(b: Bus, n: Name, c: Command, s: State)
    requires Reached(b) && n in b.procs && StateInv(b.procs[n]) && Accepted(b.procs[n], c)
    requires s == Execute(b.procs[n], c)
    ensures Reached(b.(procs := b.procs[n := s]))
  {
    hide Coherent, EpochsBounded, Execute, Reached;
    ReachedSound(b);
    Continue(b, Admin(n, c), b.(procs := b.procs[n := s]));
  }

  lemma Meets(b: Bus, n: Name, peer: Name, master: bool, s: State)
    requires Reached(b) && n in b.procs && s == Learn(b.procs[n], peer, master)
    ensures Reached(b.(procs := b.procs[n := s]))
  {
    hide StateInv, Learn, Reached;
    ReachedSound(b);
    Continue(b, Handshake(n, peer, master), b.(procs := b.procs[n := s]));
  }

  // Process n sends m to dst, which handles it at once and answers nothing.
  lemma Exchange(b: Bus, n: Name, dst: Name, body: Body, s: State)
    requires Reached(b) && n in b.procs && dst in b.procs && n != dst && b.net == multiset{}
    requires body.Pong? || body.Other?
    requires MsgInv(BuildMsg(b.procs[n], body))
    requires Receive(b.procs[dst], BuildMsg(b.procs[n], body), QUIET) == Outcome(s, multiset{})
    ensures Reached(b.(procs := b.procs[dst := s]))
  {
    hide Coherent, EpochsBounded, MsgInv, BuildMsg, Receive, Reached;
    ReachedSound(b);
    BuildMsgInv(b.procs[n], body);
    var p := Envelope(dst, BuildMsg(b.procs[n], body));
    Sends(b, n, dst, body);
    Handles(b.(net := multiset{p}), p, s);
    assert b.(net := multiset{p}, procs := b.procs[dst := s]).(net := multiset{}) == b.(procs := b.procs[dst := s]);
  }

  lemma Sends(b: Bus, n: Name, dst: Name, body: Body)
    requires Reached(b) && n in b.procs && dst in b.procs && n != dst && b.net == multiset{}
    requires (body.Pong? || body.Other?) && StateInv(b.procs[n])
    ensures Reached(b.(net := multiset{Envelope(dst, BuildMsg(b.procs[n], body))}))
  {
    hide Coherent, EpochsBounded, MsgInv, BuildMsg, Reached, ApplyDeliver, ApplyCron, Local;
    ReachedSound(b);
    BuildMsgInv(b.procs[n], body);
    var sent := b.(net := multiset{Envelope(dst, BuildMsg(b.procs[n], body))});
    assert Apply(b, Emit(n, dst, body)) == sent;
    Continue(b, Emit(n, dst, body), sent);
  }

  lemma Handles(b: Bus, p: Envelope, s: State)
    requires Reached(b) && p.dst in b.procs && p.msg.sender != p.dst && b.net == multiset{p}
    requires p.msg.body.Pong? || p.msg.body.Other?
    requires MsgInv(p.msg) && StateInv(b.procs[p.dst]) && b.procs[p.dst].myself != p.msg.sender
    requires Receive(b.procs[p.dst], p.msg, QUIET) == Outcome(s, multiset{})
    ensures Reached(b.(procs := b.procs[p.dst := s], net := multiset{}))
  {
    hide Coherent, MsgInv, Receive, Reached;
    ReachedSound(b);
    NotBallot(b.procs[p.dst], p.msg);
    var got := b.(procs := b.procs[p.dst := s], net := multiset{});
    assert Apply(b, Deliver(p, QUIET)) == got;
    Continue(b, Deliver(p, QUIET), got);
  }

  lemma ReachedSound(b: Bus)
    requires Reached(b)
    ensures Sound(b)
  {
  }

  lemma NotBallot(s: State, m: Msg)
    requires StateInv(s) && MsgInv(m) && (m.body.Pong? || m.body.Other?)
    ensures !Granted(s, m, QUIET) && !Counted(s, m)
  {
  }

  lemma SlotServed()
    ensures StateInv(Fresh(0)) && Reached(Three(Execute(Fresh(0), AddSlots({0})), Fresh(1), Fresh(2), multiset{}))
  {
    hide Coherent, EpochsBounded, Reached, Execute, Fresh;
    Start();
    FreshInv(0);
    Fresh0Master();
    var b0 := Three(Fresh(0), Fresh(1), Fresh(2), multiset{});
    var s1 := Execute(Fresh(0), AddSlots({0}));
    Administer(b0, 0, AddSlots({0}), s1);
    assert Three(s1, Fresh(1), Fresh(2), multiset{}) == b0.(procs := b0.procs[0 := s1]);
  }

  lemma MasterUp()
    ensures Reached(Three(MasterState(UNBOUND, UNBOUND, 0, 0), Fresh(1), Fresh(2), multiset{}))
  {
    hide StateInv, Reached, Learn, Execute, Fresh, MasterState;
    SlotServed();
    ServeSlot();
    var s1 := Execute(Fresh(0), AddSlots({0}));
    var b1 := Three(s1, Fresh(1), Fresh(2), multiset{});
    var s2 := Learn(s1, 1, false);
    Meets(b1, 0, 1, false, s2);
    var b2 := Three(s2, Fresh(1), Fresh(2), multiset{});
    assert b2 == b1.(procs := b1.procs[0 := s2]);
    Meets(b2, 0, 2, false, MasterState(UNBOUND, UNBOUND, 0, 0));
    assert Three(MasterState(UNBOUND, UNBOUND, 0, 0), Fresh(1), Fresh(2), multiset{})
        == b2.(procs := b2.procs[0 := MasterState(UNBOUND, UNBOUND, 0, 0)]);
  }

  lemma Fresh0Master()
    ensures 0 in Fresh(0).nodes && Fresh(0).nodes[0].master && Fresh(0).myself == 0
  {
  }

  // Process me learns about process 0, becomes its replica and tells it so.
  lemma ReplicaUp(b: Bus, me: Name, one: Node, two: Node)
    requires Reached(b) && b.net == multiset{} && me in {1, 2} && 0 in b.procs && me in b.procs
    requires one in {UNBOUND, REPLICA} && two in {UNBOUND, REPLICA}
    requires b.procs[0] == MasterState(one, two, 0, 0) && b.procs[me] == Fresh(me)
    ensures Reached(b.(procs := b.procs
      [me := ReplicaState(me, 0, 0, 0, false)]
      [0 := MasterState(if me == 1 then REPLICA else one, if me == 2 then REPLICA else two, 0, 0)]))
  {
    hide Coherent, Reached, Receive, Execute, BuildMsg, Learn, MasterState, Joined, ReplicaState, EpochsBounded;
    var r := ReplicaState(me, 0, 0, 0, false);
    var k := Joined(me, SERVING, Table());
    var j := Joined(me, EMPTY_MASTER, Unassigned());
    var c := MasterState(if me == 1 then REPLICA else one, if me == 2 then REPLICA else two, 0, 0);
    HeadersAre(me, one, two);
    Meeting(me);
    Meets(b, me, 0, true, j);
    var b1 := b.(procs := b.procs[me := j]);
    HearMaster(me);
    Exchange(b1, 0, me, Pong, k);
    var b2 := b1.(procs := b1.procs[me := k]);
    BecomeReplica(me);
    Administer(b2, me, Replicate(0, true), r);
    var b3 := b2.(procs := b2.procs[me := r]);
    HearReplica(one, two, me);
    Exchange(b3, me, 0, Pong, c);
    assert b3.(procs := b3.procs[0 := c]) == b.(procs := b.procs[me := r][0 := c]);
  }

  lemma Meeting(me: Name)
    requires me != 0
    ensures Learn(Fresh(me), 0, true) == Joined(me, EMPTY_MASTER, Unassigned())
  {
  }

  lemma HeadersAre(me: Name, one: Node, two: Node)
    requires one in {UNBOUND, REPLICA} && two in {UNBOUND, REPLICA} && me in {1, 2}
    ensures StateInv(MasterState(one, two, 0, 0)) && StateInv(ReplicaState(me, 0, 0, 0, false))
    ensures BuildMsg(MasterState(one, two, 0, 0), Pong) == FromMaster(0, Pong)
    ensures BuildMsg(ReplicaState(me, 0, 0, 0, false), Pong) == FromReplica(me, 0, Pong)
  {
    MasterStateInv(one, two, 0, 0);
    ReplicaStateInv(me, 0, 0, 0, false);
  }

  lemma Setup()
    ensures Reached(Three(MasterState(REPLICA, REPLICA, 0, 0),
                          ReplicaState(1, 0, 0, 0, false), ReplicaState(2, 0, 0, 0, false), multiset{}))
  {
    hide StateInv, Fresh, Reached, MasterState, ReplicaState;
    MasterUp();
    var b := Three(MasterState(UNBOUND, UNBOUND, 0, 0), Fresh(1), Fresh(2), multiset{});
    ReplicaUp(b, 1, UNBOUND, UNBOUND);
    var c := Three(MasterState(REPLICA, UNBOUND, 0, 0), ReplicaState(1, 0, 0, 0, false), Fresh(2), multiset{});
    assert c == b.(procs := b.procs[1 := ReplicaState(1, 0, 0, 0, false)][0 := MasterState(REPLICA, UNBOUND, 0, 0)]);
    ReplicaUp(c, 2, REPLICA, UNBOUND);
    assert Three(MasterState(REPLICA, REPLICA, 0, 0), ReplicaState(1, 0, 0, 0, false), ReplicaState(2, 0, 0, 0, false), multiset{})
        == c.(procs := c.procs[2 := ReplicaState(2, 0, 0, 0, false)][0 := MasterState(REPLICA, REPLICA, 0, 0)]);
  }

  // ------------------------------------------------------------- the two elections

  ghost function Request(me: Name, epoch: nat): Envelope {
    Envelope(0, FromReplica(me, epoch, AuthRequest(true)))
  }

  ghost function Ack(me: Name, epoch: nat): Envelope {
    Envelope(me, FromMaster(epoch, AuthAck))
  }

  lemma Stands(b: Bus, me: Name, epoch: nat, auth: nat, count: nat, links: set<Name>)
    requires Reached(b) && me in b.procs && me != 0 && auth <= epoch && links <= {0}
    requires b.procs[me] == ReplicaState(me, epoch, auth, count, false)
    ensures Reached(b.(
      procs := b.procs[me := ReplicaState(me, epoch + 1, epoch + 1, count, true)],
      net := b.net + (if links == {} then multiset{} else multiset{Request(me, epoch + 1)})))
  {
    hide StateInv, Reached, ReplicaState, HandleSlaveFailover, NextFailoverStep;
    ReachedSound(b);
    Stand(me, epoch, auth, count, links);
    var c := ApplyCron(b, me, Manual(false, links));
    assert c.net == b.net + (if links == {} then multiset{} else multiset{Request(me, epoch + 1)});
    Continue(b, Cron(me, Manual(false, links)), c);
  }

  lemma Reschedules(b: Bus, me: Name, epoch: nat, auth: nat, count: nat)
    requires Reached(b) && me in b.procs && me != 0 && auth <= epoch
    requires b.procs[me] == ReplicaState(me, epoch, auth, count, true)
    ensures Reached(b.(
      procs := b.procs[me := ReplicaState(me, epoch, auth, 0, false)],
      counted := b.counted[me := {}], late := b.late[me := 0]))
  {
    hide StateInv, Reached, ReplicaState, HandleSlaveFailover, NextFailoverStep;
    ReachedSound(b);
    Reschedule(me, epoch, auth, count);
    var c := ApplyCron(b, me, Manual(true, {}));
    assert c.net == b.net;
    Continue(b, Cron(me, Manual(true, {})), c);
  }

  lemma Votes(b: Bus, me: Name, epoch: nat, vote: nat, request: nat)
    requires Reached(b) && me in {1, 2} && 0 in b.procs && vote <= epoch <= request && vote < request
    requires b.procs[0] == MasterState(REPLICA, REPLICA, epoch, vote)
    requires b.net == multiset{Request(me, request)}
    ensures Reached(b.(
      procs := b.procs[0 := MasterState(REPLICA, REPLICA, request, request)],
      net := multiset{Ack(me, request)},
      votes := b.votes[(0, request) := me]))
  {
    hide StateInv, MsgInv, Reached, MasterState, Receive, Granted;
    ReachedSound(b);
    CastVote(me, epoch, vote, request);
    MasterEpoch(request);
    var p := Request(me, request);
    assert !Counted(b.procs[0], p.msg);
    var c := ApplyDeliver(b, p, REACHABLE);
    assert c.net == multiset{Ack(me, request)};
    Continue(b, Deliver(p, REACHABLE), c);
  }

  lemma MasterEpoch(epoch: nat)
    ensures MasterState(REPLICA, REPLICA, epoch, epoch).currentEpoch == epoch
  {
  }

  lemma Counts(b: Bus, me: Name, epoch: nat, auth: nat, count: nat, sent: bool, ack: nat)
    requires Reached(b) && me in b.procs && me != 0 && auth <= ack <= epoch
    requires b.procs[me] == ReplicaState(me, epoch, auth, count, sent)
    requires b.net == multiset{Ack(me, ack)} && me in b.counted && me in b.late
    ensures Reached(b.(
      procs := b.procs[me := ReplicaState(me, epoch, auth, count + 1, sent)],
      net := multiset{},
      counted := if sent then b.counted[me := b.counted[me] + {0}] else b.counted,
      late := if sent then b.late else b.late[me := b.late[me] + 1]))
  {
    hide StateInv, MsgInv, Reached, Receive, Granted, Counted;
    ReachedSound(b);
    CountAckOf(me, epoch, auth, count, sent, ack);
    var c := ApplyDeliver(b, Ack(me, ack), QUIET);
    assert c.net == multiset{};
    Continue(b, Deliver(Ack(me, ack), QUIET), c);
  }

  lemma Wins(b: Bus, me: Name)
    requires Reached(b) && me in b.procs && me != 0 && me in b.counted && me in b.late
    requires b.procs[me] == ReplicaState(me, 2, 2, 1, true)
    ensures ProcsOk(b)
    ensures
      var c := ApplyCron(b, me, Manual(false, {}));
      && Reached(c)
      && c.wins == b.wins + {Win(2, me, 1, b.counted[me], b.late[me])}
      && c.counted == b.counted && c.late == b.late && c.procs.Keys == b.procs.Keys
      && forall n | n in b.procs && n != me :: c.procs[n] == b.procs[n]
  {
    hide StateInv, Reached, HandleSlaveFailover, NextFailoverStep;
    ReachedSound(b);
    WithOneVote(me);
    Continue(b, Cron(me, Manual(false, {})), ApplyCron(b, me, Manual(false, {})));
  }

  // The cluster during the race: late1 and counted2 are the records that change.
  ghost function Race(
    zero: nat, one: State, two: State, net: multiset<Envelope>,
    votes: map<(Name, nat), Name>, late1: nat, counted2: set<Name>): Bus
  {
    Bus(map[0 := MasterState(REPLICA, REPLICA, zero, zero), 1 := one, 2 := two], net, votes,
        map[0 := {}, 1 := {}, 2 := counted2], map[0 := 0, 1 := late1, 2 := 0], {})
  }

  // A replica in its successive states: it stood in epoch 1, rescheduled, counted an
  // acknowledgement while waiting, and stood in epoch 2.
  ghost function Replica1(k: nat): State {
    if k == 0 then ReplicaState(1, 0, 0, 0, false)
    else if k == 1 then ReplicaState(1, 1, 1, 0, true)
    else if k == 2 then ReplicaState(1, 1, 1, 0, false)
    else if k == 3 then ReplicaState(1, 1, 1, 1, false)
    else ReplicaState(1, 2, 2, 1, true)
  }

  ghost function Replica2(k: nat): State {
    if k == 0 then ReplicaState(2, 0, 0, 0, false)
    else if k == 1 then ReplicaState(2, 1, 0, 0, false)
    else if k == 2 then ReplicaState(2, 2, 2, 0, true)
    else ReplicaState(2, 2, 2, 1, true)
  }

  lemma FirstVote()
    ensures Reached(Race(1, Replica1(1), Replica2(0), multiset{Ack(1, 1)}, map[(0, 1) := 1], 0, {}))
  {
    hide StateInv, Reached, MasterState, ReplicaState;
    Setup();
    var b0 := Race(0, Replica1(0), Replica2(0), multiset{}, map[], 0, {});
    assert b0 == Three(MasterState(REPLICA, REPLICA, 0, 0), Replica1(0), Replica2(0), multiset{});
    Stands(b0, 1, 0, 0, 0, {0});
    var b1 := Race(0, Replica1(1), Replica2(0), multiset{Request(1, 1)}, map[], 0, {});
    assert b1 == b0.(procs := b0.procs[1 := Replica1(1)], net := b0.net + multiset{Request(1, 1)});
    Votes(b1, 1, 0, 0, 1);
    assert Race(1, Replica1(1), Replica2(0), multiset{Ack(1, 1)}, map[(0, 1) := 1], 0, {})
        == b1.(procs := b1.procs[0 := MasterState(REPLICA, REPLICA, 1, 1)], net := multiset{Ack(1, 1)},
               votes := b1.votes[(0, 1) := 1]);
  }

  lemma Again()
    ensures Reached(Race(1, Replica1(2), Replica2(0), multiset{Ack(1, 1)}, map[(0, 1) := 1], 0, {}))
  {
    hide StateInv, Reached, MasterState, ReplicaState;
    FirstVote();
    var b0 := Race(1, Replica1(1), Replica2(0), multiset{Ack(1, 1)}, map[(0, 1) := 1], 0, {});
    Reschedules(b0, 1, 1, 1, 0);
    var b1 := Race(1, Replica1(2), Replica2(0), multiset{Ack(1, 1)}, map[(0, 1) := 1], 0, {});
    assert b1 == b0.(procs := b0.procs[1 := Replica1(2)], counted := b0.counted[1 := {}], late := b0.late[1 := 0]);
  }

  lemma LateCount()
    ensures Reached(Race(1, Replica1(3), Replica2(0), multiset{}, map[(0, 1) := 1], 1, {}))
  {
    hide StateInv, Reached, MasterState, ReplicaState, Ack;
    Again();
    var b1 := Race(1, Replica1(2), Replica2(0), multiset{Ack(1, 1)}, map[(0, 1) := 1], 0, {});
    Counts(b1, 1, 1, 1, 0, false, 1);
    assert Race(1, Replica1(3), Replica2(0), multiset{}, map[(0, 1) := 1], 1, {})
        == b1.(procs := b1.procs[1 := Replica1(3)], net := multiset{}, late := b1.late[1 := 1]);
  }

  lemma BothStand()
    ensures Reached(Race(1, Replica1(4), Replica2(2), multiset{Request(2, 2)}, map[(0, 1) := 1], 1, {}))
  {
    hide Coherent, EpochsBounded, Reached, MasterState, ReplicaState, Receive, BuildMsg;
    LateCount();
    var b0 := Race(1, Replica1(3), Replica2(0), multiset{}, map[(0, 1) := 1], 1, {});
    Stands(b0, 1, 1, 1, 1, {});
    var b1 := Race(1, Replica1(4), Replica2(0), multiset{}, map[(0, 1) := 1], 1, {});
    assert b1 == b0.(procs := b0.procs[1 := Replica1(4)], net := b0.net + multiset{});
    CatchUp(2, 1);
    HeaderNow();
    Exchange(b1, 0, 2, Other, Replica2(1));
    var b2 := Race(1, Replica1(4), Replica2(1), multiset{}, map[(0, 1) := 1], 1, {});
    assert b2 == b1.(procs := b1.procs[2 := Replica2(1)]);
    Stands(b2, 2, 1, 0, 0, {0});
    assert Race(1, Replica1(4), Replica2(2), multiset{Request(2, 2)}, map[(0, 1) := 1], 1, {})
        == b2.(procs := b2.procs[2 := Replica2(2)], net := b2.net + multiset{Request(2, 2)});
  }

  lemma HeaderNow()
    ensures StateInv(MasterState(REPLICA, REPLICA, 1, 1))
    ensures BuildMsg(MasterState(REPLICA, REPLICA, 1, 1), Other) == FromMaster(1, Other)
  {
    MasterStateInv(REPLICA, REPLICA, 1, 1);
  }

  lemma SecondVote()
    ensures Reached(Race(2, Replica1(4), Replica2(2), multiset{Ack(2, 2)}, map[(0, 1) := 1, (0, 2) := 2], 1, {}))
  {
    hide StateInv, Reached, MasterState, ReplicaState;
    BothStand();
    var b0 := Race(1, Replica1(4), Replica2(2), multiset{Request(2, 2)}, map[(0, 1) := 1], 1, {});
    Votes(b0, 2, 1, 1, 2);
    var b1 := Race(2, Replica1(4), Replica2(2), multiset{Ack(2, 2)}, map[(0, 1) := 1, (0, 2) := 2], 1, {});
    assert b1 == b0.(procs := b0.procs[0 := MasterState(REPLICA, REPLICA, 2, 2)], net := multiset{Ack(2, 2)},
                     votes := b0.votes[(0, 2) := 2]);
  }

  lemma BothHaveOneVote()
    ensures Reached(Race(2, Replica1(4), Replica2(3), multiset{}, map[(0, 1) := 1, (0, 2) := 2], 1, {0}))
  {
    hide StateInv, Reached, MasterState, ReplicaState, Ack;
    SecondVote();
    var b1 := Race(2, Replica1(4), Replica2(2), multiset{Ack(2, 2)}, map[(0, 1) := 1, (0, 2) := 2], 1, {});
    Counts(b1, 2, 2, 2, 0, true, 2);
    assert b1.counted[2] + {0} == {0};
    assert Race(2, Replica1(4), Replica2(3), multiset{}, map[(0, 1) := 1, (0, 2) := 2], 1, {0})
        == b1.(procs := b1.procs[2 := Replica2(3)], net := multiset{}, counted := b1.counted[2 := b1.counted[2] + {0}]);
  }

  /** Two replicas win epoch 2: the only master voted for replica 2, while replica 1
      still counts the acknowledgement of its election in epoch 1. */
  lemma TwoWinnersOfOneEpoch()
    ensures exists trace: seq<Bus>, evs: seq<Event>, w, x ::
      IsRun(trace, evs) && w in trace[|evs|].wins && x in trace[|evs|].wins
      && w.epoch == x.epoch && w.winner != x.winner && w.size == x.size == 1
  {
    hide StateInv, Reached, MasterState, ReplicaState, ApplyCron;
    BothHaveOneVote();
    var b := Race(2, Replica1(4), Replica2(3), multiset{}, map[(0, 1) := 1, (0, 2) := 2], 1, {0});
    Wins(b, 1);
    var c := ApplyCron(b, 1, Manual(false, {}));
    Wins(c, 2);
    var d := ApplyCron(c, 2, Manual(false, {}));
    assert b.counted[1] == {} && b.late[1] == 1 && c.counted[2] == {0} && c.late[2] == 0;
    assert Win(2, 1, 1, {}, 1) in c.wins;
    assert Win(2, 1, 1, {}, 1) in d.wins && Win(2, 2, 1, {0}, 0) in d.wins;
    RunTo(d);
  }

  lemma RunTo(b: Bus)
    requires Reached(b) && Win(2, 1, 1, {}, 1) in b.wins && Win(2, 2, 1, {0}, 0) in b.wins
    ensures exists trace: seq<Bus>, evs: seq<Event>, w, x ::
      IsRun(trace, evs) && w in trace[|evs|].wins && x in trace[|evs|].wins
      && w.epoch == x.epoch && w.winner != x.winner && w.size == x.size == 1
  {
    hide Sound, Init, Step;
    var trace: seq<Bus>, evs: seq<Event> :| EndsIn(trace, evs, b);
    var w, x := Win(2, 1, 1, {}, 1), Win(2, 2, 1, {0}, 0);
    assert w in trace[|evs|].wins && x in trace[|evs|].wins;
  }
}
