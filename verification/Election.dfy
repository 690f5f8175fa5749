/** Replica elections: a master votes once per epoch, and two quorums of the same
    set of masters share a voter, so one epoch elects at most one replica. */
module Election {
  import opened ClusterModel
  import opened ClusterBus

  ghost predicate IsAck(b: Bus, p: Envelope, voter: Name, epoch: nat) {
    p in b.net && p.msg.body.AuthAck? && p.msg.sender == voter && p.msg.currentEpoch == epoch
  }

  // Votes are in the past of the voter, and of the election of the replica voted for.
  ghost predicate VotesOk(b: Bus) {
    forall v, e | (v, e) in b.votes ::
      && v in b.procs && b.votes[(v, e)] in b.procs
      && e <= b.procs[v].lastVoteEpoch
      && e <= b.procs[b.votes[(v, e)]].authEpoch
  }

  ghost predicate RequestsOk(b: Bus) {
    forall p | p in b.net && p.msg.body.AuthRequest? ::
      p.msg.sender in b.procs && p.msg.currentEpoch <= b.procs[p.msg.sender].authEpoch
  }

  // An acknowledgement in flight is the only one for its vote.
  ghost predicate AcksOk(b: Bus) {
    && (forall p | p in b.net && p.msg.body.AuthAck? ::
          && b.net[p] == 1
          && (p.msg.sender, p.msg.currentEpoch) in b.votes
          && b.votes[(p.msg.sender, p.msg.currentEpoch)] == p.dst)
    && (forall p, q | p in b.net && q in b.net && p.msg.body.AuthAck? && q.msg.body.AuthAck?
                      && p.msg.sender == q.msg.sender && p.msg.currentEpoch == q.msg.currentEpoch ::
          p == q)
  }

  // The running count: distinct voters of this election, plus the late ones.
  ghost predicate CountOk(b: Bus, c: Name)
    requires ProcsOk(b) && c in b.procs
  {
    var s := b.procs[c];
    && s.authCount == |b.counted[c]| + b.late[c]
    && (!s.authSent ==> b.counted[c] == {})
    && (forall v | v in b.counted[c] ::
          && (v, s.authEpoch) in b.votes && b.votes[(v, s.authEpoch)] == c
          && forall p | p in b.net :: !IsAck(b, p, v, s.authEpoch))
  }

  ghost predicate WinOk(b: Bus, w: Win) {
    && (forall v | v in w.voters :: (v, w.epoch) in b.votes && b.votes[(v, w.epoch)] == w.winner)
    && |w.voters| + w.late >= w.size / 2 + 1
  }

  ghost predicate ElectionInv(b: Bus) {
    && Sound(b) && VotesOk(b) && RequestsOk(b) && AcksOk(b)
    && (forall c | c in b.procs :: CountOk(b, c))
    && (forall w | w in b.wins :: WinOk(b, w))
  }

  lemma InitElection(b: Bus)
    requires Init(b) && Sound(b)
    ensures ElectionInv(b)
  {
    hide StateInv, MsgInv, WinOk, IsAck;
  }

  // The next bus has the same ballots on record and no new ballot in flight.
  ghost predicate Quiet(b: Bus, b': Bus) {
    && Sound(b) && Sound(b') && b'.procs.Keys == b.procs.Keys
    && b'.votes == b.votes && b'.counted == b.counted && b'.late == b.late && b'.wins == b.wins
    && (forall n | n in b.procs :: SameElection(b.procs[n], b'.procs[n]))
    && (forall p | p in b'.net && (p.msg.body.AuthRequest? || p.msg.body.AuthAck?) ::
          p in b.net && b'.net[p] <= b.net[p])
  }

  lemma QuietKeepsElection(b: Bus, b': Bus)
    requires ElectionInv(b) && Quiet(b, b')
    ensures ElectionInv(b')
  {
    hide StateInv, MsgInv, PacketsOk, CountOk, WinOk, VotesOk, RequestsOk, AcksOk, SameElection;
    QuietKeepsVotes(b, b');
    forall c | c in b'.procs ensures CountOk(b', c) { QuietKeepsCount(b, b', c); }
    forall w | w in b'.wins ensures WinOk(b', w) { SameVotesSameWins(b, b', w); }
  }

  lemma QuietKeepsVotes(b: Bus, b': Bus)
    requires VotesOk(b) && RequestsOk(b) && AcksOk(b) && Quiet(b, b')
    ensures VotesOk(b') && RequestsOk(b') && AcksOk(b')
  {
    hide StateInv, MsgInv, PacketsOk;
  }

  lemma QuietKeepsCount(b: Bus, b': Bus, c: Name)
    requires ProcsOk(b) && Quiet(b, b') && c in b.procs && CountOk(b, c)
    ensures CountOk(b', c)
  {
    hide StateInv, MsgInv, PacketsOk;
  }

  lemma SameVotesSameWins(b: Bus, b': Bus, w: Win)
    requires b'.votes == b.votes && WinOk(b, w)
    ensures WinOk(b', w)
  {
  }

  lemma DeliverKeepsElection(b: Bus, p: Envelope, env: Env)
    requires ElectionInv(b) && p in b.net && p.dst in b.procs
    ensures ElectionInv(ApplyDeliver(b, p, env))
  {
    hide StateInv, MsgInv, Receive, Granted, Counted, VotesOk, RequestsOk, AcksOk, CountOk, WinOk;
    var s := b.procs[p.dst];
    ReceiveFrame(s, p.msg, env);
    DeliverKeepsSound(b, p, env);
    if Granted(s, p.msg, env) {
      GrantShape(b, p, env);
      GrantKeepsElection(b, ApplyDeliver(b, p, env), p.dst, p.msg.sender, p.msg.currentEpoch);
    } else if Counted(s, p.msg) {
      CountedIsCurrent(b, p);
      CountShape(b, p, env);
      CountKeepsElection(b, ApplyDeliver(b, p, env), p);
    } else {
      QuietKeepsElection(b, ApplyDeliver(b, p, env));
    }
  }

  // Voter v votes for c in epoch e; at most one acknowledgement enters the network.
  ghost predicate GrantEffect(b: Bus, b': Bus, v: Name, c: Name, e: nat) {
    && Sound(b) && Sound(b') && b'.procs.Keys == b.procs.Keys && v in b.procs && c in b.procs
    && b.procs[v].lastVoteEpoch < e
    && e <= b.procs[c].authEpoch
    && b'.votes == b.votes[(v, e) := c]
    && b'.counted == b.counted && b'.late == b.late && b'.wins == b.wins
    && b'.procs[v].lastVoteEpoch == e
    && (forall n | n in b.procs :: SameElection(b.procs[n], b'.procs[n].(lastVoteEpoch := b.procs[n].lastVoteEpoch)))
    && (forall n | n in b.procs && n != v :: b'.procs[n] == b.procs[n])
    && (forall p | p in b'.net :: FromBefore(b, b', p) || NewAck(p, v, c, e) || IsQuiet(p))
    && (forall p | p in b'.net && NewAck(p, v, c, e) :: b'.net[p] <= b.net[p] + 1)
    && (forall p, q | p in b'.net && q in b'.net && NewAck(p, v, c, e) && NewAck(q, v, c, e)
                      && p !in b.net && q !in b.net :: p == q)
  }

  ghost predicate FromBefore(b: Bus, b': Bus, p: Envelope) { p in b.net && b'.net[p] <= b.net[p] }

  ghost predicate IsQuiet(p: Envelope) { !p.msg.body.AuthRequest? && !p.msg.body.AuthAck? }

  ghost predicate NewAck(p: Envelope, v: Name, c: Name, e: nat) {
    p.msg.body.AuthAck? && p.msg.sender == v && p.dst == c && p.msg.currentEpoch == e
  }

  lemma GrantShape(b: Bus, p: Envelope, env: Env)
    requires Sound(b) && RequestsOk(b) && p in b.net && p.dst in b.procs
    requires Granted(b.procs[p.dst], p.msg, env)
    requires Sound(ApplyDeliver(b, p, env))
    requires ReceiveEffect(b.procs[p.dst], p.msg, env, Receive(b.procs[p.dst], p.msg, env))
    ensures GrantEffect(b, ApplyDeliver(b, p, env), p.dst, p.msg.sender, p.msg.currentEpoch)
  {
    hide StateInv, MsgInv, PacketsOk, Receive, NewAck, FromBefore, IsQuiet, GrantsVote, CountsAck, Ballot, NoBallots;
    assert p.msg.body.AuthRequest?;
    InFlight(b, p);
    var s := b.procs[p.dst];
    var o := Receive(s, p.msg, env);
    GrantNet(b, ApplyDeliver(b, p, env), p, o.sends);
  }

  lemma GrantNet(b: Bus, b': Bus, p: Envelope, sends: multiset<Envelope>)
    requires ProcsOk(b) && p in b.net && p.dst in b.procs && p.msg.body.AuthRequest?
    requires b'.net == b.net - multiset{p} + sends
    requires Ballot(b.procs[p.dst], p.msg, sends)
    ensures forall q | q in b'.net ::
      FromBefore(b, b', q) || NewAck(q, p.dst, p.msg.sender, p.msg.currentEpoch) || IsQuiet(q)
    ensures forall q | q in b'.net && NewAck(q, p.dst, p.msg.sender, p.msg.currentEpoch) :: b'.net[q] <= b.net[q] + 1
    ensures forall q, r | q in b'.net && r in b'.net && q !in b.net && r !in b.net
      && NewAck(q, p.dst, p.msg.sender, p.msg.currentEpoch) && NewAck(r, p.dst, p.msg.sender, p.msg.currentEpoch) :: q == r
  {
    hide StateInv;
  }

  /** The voter had not voted in this epoch, and the replica it votes for stood in it. */
  lemma GrantKeepsElection(b: Bus, b': Bus, v: Name, c: Name, e: nat)
    requires ElectionInv(b) && GrantEffect(b, b', v, c, e)
    ensures ElectionInv(b')
  {
    hide StateInv, MsgInv, PacketsOk, VotesOk, RequestsOk, AcksOk, CountOk, WinOk, FromBefore, NewAck, IsQuiet;
    GrantKeepsVotes(b, b', v, c, e);
    GrantKeepsAcks(b, b', v, c, e);
    forall d | d in b'.procs
      ensures CountOk(b', d)
    {
      GrantKeepsCount(b, b', v, c, e, d);
    }
  }

  lemma GrantKeepsVotes(b: Bus, b': Bus, v: Name, c: Name, e: nat)
    requires VotesOk(b) && RequestsOk(b) && GrantEffect(b, b', v, c, e)
    ensures VotesOk(b') && RequestsOk(b')
    ensures forall w | w in b.wins && WinOk(b, w) :: WinOk(b', w)
  {
    hide StateInv, MsgInv, PacketsOk;
    assert (v, e) !in b.votes;
  }

  lemma GrantKeepsAcks(b: Bus, b': Bus, v: Name, c: Name, e: nat)
    requires VotesOk(b) && AcksOk(b) && GrantEffect(b, b', v, c, e)
    ensures AcksOk(b')
  {
    hide StateInv, MsgInv, ProcsOk, PacketsOk;
    assert (v, e) !in b.votes;
    assert forall q | IsAck(b, q, v, e) :: false;
    forall p, q | p in b'.net && q in b'.net && p.msg.body.AuthAck? && q.msg.body.AuthAck?
                  && p.msg.sender == q.msg.sender && p.msg.currentEpoch == q.msg.currentEpoch
      ensures p == q
    {
      assert FromBefore(b, b', p) || NewAck(p, v, c, e);
      assert FromBefore(b, b', q) || NewAck(q, v, c, e);
    }
  }

  lemma GrantKeepsCount(b: Bus, b': Bus, v: Name, c: Name, e: nat, d: Name)
    requires ProcsOk(b) && VotesOk(b) && d in b.procs && CountOk(b, d) && GrantEffect(b, b', v, c, e)
    ensures CountOk(b', d)
  {
    hide StateInv, MsgInv, PacketsOk;
    assert (v, e) !in b.votes;
    var a := b.procs[d].authEpoch;
    forall u, p | u in b'.counted[d] && p in b'.net
      ensures !IsAck(b', p, u, a)
    {
      assert !IsAck(b, p, u, a);
      assert FromBefore(b, b', p) || NewAck(p, v, c, e) || IsQuiet(p);
    }
  }

  // The acknowledgement p leaves the network and is counted by its destination.
  ghost predicate CountEffect(b: Bus, b': Bus, p: Envelope) {
    && Sound(b) && Sound(b') && b'.procs.Keys == b.procs.Keys && p in b.net && p.dst in b.procs
    && p.msg.body.AuthAck? && p.msg.currentEpoch == b.procs[p.dst].authEpoch
    && b'.votes == b.votes && b'.wins == b.wins
    && (forall n | n in b.procs && n != p.dst :: b'.procs[n] == b.procs[n])
    && SameElection(b.procs[p.dst].(authCount := b.procs[p.dst].authCount + 1), b'.procs[p.dst])
    && b'.counted == (if b.procs[p.dst].authSent
                      then b.counted[p.dst := b.counted[p.dst] + {p.msg.sender}] else b.counted)
    && b'.late == (if b.procs[p.dst].authSent then b.late else b.late[p.dst := b.late[p.dst] + 1])
    && (forall q | q in b'.net :: FromBefore(b, b', q) || IsQuiet(q))
    && b'.net[p] == b.net[p] - 1
  }

  lemma CountShape(b: Bus, p: Envelope, env: Env)
    requires Sound(b) && p in b.net && p.dst in b.procs
    requires Counted(b.procs[p.dst], p.msg) && !Granted(b.procs[p.dst], p.msg, env)
    requires p.msg.currentEpoch == b.procs[p.dst].authEpoch
    requires Sound(ApplyDeliver(b, p, env))
    requires ReceiveEffect(b.procs[p.dst], p.msg, env, Receive(b.procs[p.dst], p.msg, env))
    ensures CountEffect(b, ApplyDeliver(b, p, env), p)
  {
    hide StateInv, MsgInv, PacketsOk, Receive, Granted, FromBefore, IsQuiet, Ballot, NoBallots, CountsAck;
    InFlight(b, p);
    CountNet(b, ApplyDeliver(b, p, env), p, Receive(b.procs[p.dst], p.msg, env).sends);
  }

  lemma CountNet(b: Bus, b': Bus, p: Envelope, sends: multiset<Envelope>)
    requires p in b.net && p.msg.body.AuthAck? && NoBallots(sends)
    requires b'.net == b.net - multiset{p} + sends
    ensures forall q | q in b'.net :: FromBefore(b, b', q) || IsQuiet(q)
    ensures b'.net[p] == b.net[p] - 1
  {
    assert p !in sends;
  }

  /** The counted vote was not counted before. */
  lemma CountKeepsElection(b: Bus, b': Bus, p: Envelope)
    requires ElectionInv(b) && CountEffect(b, b', p)
    ensures ElectionInv(b')
  {
    hide StateInv, MsgInv, PacketsOk, CountOk, VotesOk, RequestsOk, AcksOk, WinOk, FromBefore, IsQuiet, SameElection;
    CountKeepsVotes(b, b', p);
    forall d | d in b'.procs
      ensures CountOk(b', d)
    {
      CountKeepsCount(b, b', p, d);
    }
  }

  lemma CountKeepsVotes(b: Bus, b': Bus, p: Envelope)
    requires VotesOk(b) && RequestsOk(b) && AcksOk(b) && CountEffect(b, b', p)
    ensures VotesOk(b') && RequestsOk(b') && AcksOk(b')
    ensures forall w | w in b.wins && WinOk(b, w) :: WinOk(b', w)
  {
    hide StateInv, MsgInv, PacketsOk, AcksOk;
    CountKeepsAcks(b, b', p);
  }

  lemma CountKeepsAcks(b: Bus, b': Bus, p: Envelope)
    requires AcksOk(b) && CountEffect(b, b', p)
    ensures AcksOk(b')
  {
    hide StateInv, MsgInv, ProcsOk, PacketsOk, SameElection;
  }

  lemma CountKeepsCount(b: Bus, b': Bus, p: Envelope, d: Name)
    requires ElectionInv(b) && CountEffect(b, b', p) && d in b.procs
    ensures CountOk(b', d)
  {
    hide ProcsOk, PacketsOk, WinOk, RequestsOk, VotesOk, AcksOk, IsAck, CountEffect;
    CountFields(b, b', p, d);
    assert CountOk(b, d);
    NoOtherAck(b, b', p, d);
    if d == p.dst { NewVoter(b, p); }
  }

  // What becomes of the count of one process.
  lemma CountFields(b: Bus, b': Bus, p: Envelope, d: Name)
    requires CountEffect(b, b', p) && d in b.procs
    ensures ProcsOk(b') && d in b'.procs && b'.votes == b.votes && p in b.net && p.dst in b.procs
    ensures p.msg.body.AuthAck? && p.msg.currentEpoch == b.procs[p.dst].authEpoch
    ensures d in b.counted && d in b'.counted && d in b.late && d in b'.late
    ensures
      var s, t, counts := b.procs[d], b'.procs[d], d == p.dst;
      && t.authEpoch == s.authEpoch && t.authSent == s.authSent
      && t.authCount == s.authCount + (if counts then 1 else 0)
      && b'.counted[d] == b.counted[d] + (if counts && s.authSent then {p.msg.sender} else {})
      && b'.late[d] == b.late[d] + (if counts && !s.authSent then 1 else 0)
  {
    hide StateInv, PacketsOk, FromBefore, IsQuiet;
  }

  // Who is counted now was counted before or is the one just counted; neither has an
  // acknowledgement in flight any more.
  lemma NoOtherAck(b: Bus, b': Bus, p: Envelope, d: Name)
    requires AcksOk(b) && CountEffect(b, b', p) && d in b.procs && CountOk(b, d)
    ensures forall u, q | u in b'.counted[d] && q in b'.net :: !IsAck(b', q, u, b.procs[d].authEpoch)
  {
    hide StateInv, MsgInv, PacketsOk, SameElection;
    var a := b.procs[d].authEpoch;
    assert p !in b'.net;
    forall u, q | u in b'.counted[d] && q in b'.net
      ensures !IsAck(b', q, u, a)
    {
      assert FromBefore(b, b', q) || IsQuiet(q);
      if u in b.counted[d] { assert !IsAck(b, q, u, a); }
    }
  }

  lemma NewVoter(b: Bus, p: Envelope)
    requires ProcsOk(b) && AcksOk(b) && p in b.net && p.dst in b.procs && CountOk(b, p.dst)
    requires p.msg.body.AuthAck? && p.msg.currentEpoch == b.procs[p.dst].authEpoch
    ensures p.msg.sender !in b.counted[p.dst]
    ensures (p.msg.sender, p.msg.currentEpoch) in b.votes && b.votes[(p.msg.sender, p.msg.currentEpoch)] == p.dst
  {
    hide StateInv;
    assert IsAck(b, p, p.msg.sender, p.msg.currentEpoch);
  }

  lemma InFlight(b: Bus, p: Envelope)
    requires PacketsOk(b) && p in b.net
    ensures MsgInv(p.msg) && p.msg.sender in b.procs && p.msg.sender != p.dst
  {
  }

  lemma CountedIsCurrent(b: Bus, p: Envelope)
    requires ElectionInv(b) && p in b.net && p.dst in b.procs
    requires Counted(b.procs[p.dst], p.msg)
    ensures p.msg.currentEpoch == b.procs[p.dst].authEpoch
  {
    hide StateInv, MsgInv, CountOk, WinOk;
  }

  lemma CronKeepsElection(b: Bus, n: Name, t: Timing)
    requires ElectionInv(b) && n in b.procs
    ensures ElectionInv(ApplyCron(b, n, t))
  {
    hide StateInv, MsgInv, HandleSlaveFailover, NextFailoverStep, CountOk, WinOk, VotesOk, AcksOk;
    var b' := ApplyCron(b, n, t);
    FailoverFrame(b.procs[n], t);
    CronKeepsSound(b, n, t);
    CronKeepsBallots(b, n, t);
    forall c | c in b'.procs
      ensures CountOk(b', c)
    {
      CronKeepsCount(b, n, t, c);
    }
    forall w | w in b'.wins
      ensures WinOk(b', w)
    {
      CronKeepsWin(b, n, t, w);
    }
  }

  lemma CronKeepsBallots(b: Bus, n: Name, t: Timing)
    requires ElectionInv(b) && n in b.procs && Sound(ApplyCron(b, n, t))
    ensures VotesOk(ApplyCron(b, n, t)) && RequestsOk(ApplyCron(b, n, t)) && AcksOk(ApplyCron(b, n, t))
  {
    hide StateInv, MsgInv, HandleSlaveFailover, NextFailoverStep, CountOk, WinOk, VotesOk, AcksOk;
    var b' := ApplyCron(b, n, t);
    FailoverFrame(b.procs[n], t);
    FailoverKeepsInv(b.procs[n], t);
    BoundsOf(b.procs[n]);
    CronKeepsVotes(b, n, t);
    CronKeepsAcks(b, n, t);
    assert RequestsOk(b');
  }

  lemma CronKeepsVotes(b: Bus, n: Name, t: Timing)
    requires ElectionInv(b) && n in b.procs && Sound(ApplyCron(b, n, t))
    ensures VotesOk(ApplyCron(b, n, t))
  {
    hide StateInv, MsgInv, HandleSlaveFailover, NextFailoverStep, CountOk, WinOk, RequestsOk, AcksOk;
    FailoverFrame(b.procs[n], t);
    BoundsOf(b.procs[n]);
  }

  lemma CronKeepsAcks(b: Bus, n: Name, t: Timing)
    requires ElectionInv(b) && n in b.procs
    ensures AcksOk(ApplyCron(b, n, t))
  {
    hide StateInv, MsgInv, HandleSlaveFailover, NextFailoverStep, CountOk, WinOk, RequestsOk, VotesOk;
    FailoverFrame(b.procs[n], t);
  }

  lemma BoundsOf(s: State)
    requires StateInv(s)
    ensures s.authEpoch <= s.currentEpoch
  {
  }

  lemma CronKeepsCount(b: Bus, n: Name, t: Timing, c: Name)
    requires ElectionInv(b) && n in b.procs && Sound(ApplyCron(b, n, t)) && c in b.procs
    ensures CountOk(ApplyCron(b, n, t), c)
  {
    hide StateInv, MsgInv, HandleSlaveFailover, NextFailoverStep, WinOk, VotesOk, AcksOk, RequestsOk;
    FailoverFrame(b.procs[n], t);
    assert CountOk(b, c);
  }

  lemma CronKeepsWin(b: Bus, n: Name, t: Timing, w: Win)
    requires ElectionInv(b) && n in b.procs && w in ApplyCron(b, n, t).wins
    ensures WinOk(ApplyCron(b, n, t), w)
  {
    hide StateInv, MsgInv, HandleSlaveFailover, NextFailoverStep, VotesOk, AcksOk, RequestsOk;
    FailoverFrame(b.procs[n], t);
    assert CountOk(b, n);
  }

  lemma StepKeepsElection(b: Bus, ev: Event, b': Bus)
    requires ElectionInv(b) && Step(b, ev, b')
    ensures ElectionInv(b')
  {
    hide StateInv, MsgInv, ApplyDeliver, ApplyCron, ElectionInv;
    match ev
    case Deliver(p, env) => DeliverKeepsElection(b, p, env);
    case Cron(n, t) => CronKeepsElection(b, n, t);
    case _ =>
      QuietShape(b, ev);
      QuietKeepsElection(b, b');
  }

  lemma QuietShape(b: Bus, ev: Event)
    requires Sound(b) && Enabled(b, ev) && !ev.Deliver? && !ev.Cron?
    ensures Quiet(b, Apply(b, ev))
  {
    hide StateInv, MsgInv, BuildMsg, Local, ProcsOk, PacketsOk;
    StepKeepsSound(b, ev, Apply(b, ev));
    match ev
    case Lose(p) =>
    case Emit(n, dst, body) => EmitShape(b, n, dst, body);
    case _ => LocalShape(b, ev);
  }

  lemma EmitShape(b: Bus, n: Name, dst: Name, body: Body)
    requires Sound(b) && Enabled(b, Emit(n, dst, body)) && Sound(Apply(b, Emit(n, dst, body)))
    ensures Quiet(b, Apply(b, Emit(n, dst, body)))
  {
    hide StateInv, MsgInv, BuildMsg;
    BuildMsgInv(b.procs[n], body);
  }

  lemma LocalShape(b: Bus, ev: Event)
    requires Sound(b) && Enabled(b, ev) && Sound(Apply(b, ev))
    requires ev.RecomputeSize? || ev.Handshake? || ev.Judge? || ev.Admin?
    ensures Quiet(b, Apply(b, ev))
  {
    hide StateInv, MsgInv, Local;
    LocalFrame(b.procs[ev.who], ev);
  }

  lemma {:induction false} RunKeepsElection(trace: seq<Bus>, evs: seq<Event>, i: nat)
    requires IsRun(trace, evs) && i < |trace|
    ensures ElectionInv(trace[i])
  {
    hide Init, Step, ElectionInv;
    RunsAreSound(trace, evs, i);
    if i == 0 {
      InitElection(trace[0]);
    } else {
      RunKeepsElection(trace, evs, i - 1);
      StepKeepsElection(trace[i - 1], evs[i - 1], trace[i]);
    }
  }

  // ------------------------------------------------------------------ main results

  ghost predicate CountsAt(b: Bus, ev: Event) {
    ev.Deliver? && ev.packet.dst in b.procs && Counted(b.procs[ev.packet.dst], ev.packet.msg)
  }

  ghost predicate WinsAt(b: Bus, ev: Event) {
    ev.Cron? && Sound(b) && ev.who in b.procs && NextFailoverStep(b.procs[ev.who], ev.timing).Won?
  }

  /** The replicas that stand in epoch e agree on the masters serving slots: an
      acknowledgement is counted only from one of them, and the quorum is theirs. */
  ghost predicate AgreedMasters(trace: seq<Bus>, evs: seq<Event>, masters: nat -> set<Name>)
    requires |trace| == |evs| + 1
  {
    forall i | 0 <= i < |evs| ::
      && (CountsAt(trace[i], evs[i]) ==>
            evs[i].packet.msg.sender in masters(trace[i].procs[evs[i].packet.dst].authEpoch))
      && (WinsAt(trace[i], evs[i]) ==>
            trace[i].procs[evs[i].who].size == |masters(trace[i].procs[evs[i].who].authEpoch)|)
  }

  /** No acknowledgement is counted between the scheduling of an election, which
      resets the count, and its start, which changes the epoch. */
  ghost predicate NoLateAck(trace: seq<Bus>, evs: seq<Event>)
    requires |trace| == |evs| + 1
  {
    forall i | 0 <= i < |evs| && CountsAt(trace[i], evs[i]) ::
      trace[i].procs[evs[i].packet.dst].authSent
  }

  lemma SameVoterSameWinner(b: Bus, w: Win, x: Win, v: Name)
    requires ElectionInv(b) && w in b.wins && x in b.wins && w.epoch == x.epoch
    requires v in w.voters && v in x.voters
    ensures w.winner == x.winner
  {
    hide StateInv, MsgInv, VotesOk, AcksOk, RequestsOk, CountOk;
    assert WinOk(b, w) && WinOk(b, x);
  }

  lemma QuorumsMeet(a: set<Name>, b: set<Name>, all: set<Name>)
    requires a <= all && b <= all
    requires |a| >= |all| / 2 + 1 && |b| >= |all| / 2 + 1
    ensures a * b != {}
  {
    if a * b == {} {
      assert |a + b| == |a| + |b|;
      SubsetSize(a + b, all);
    }
  }

  lemma {:induction false} SubsetSize(a: set<Name>, b: set<Name>)
    requires a <= b
    ensures |a| <= |b|
  {
    if a != {} {
      var x :| x in a;
      SubsetSize(a - {x}, b - {x});
    }
  }

  /** Whatever acknowledgements arrived late, two replicas that won the same epoch
      without any late acknowledgement in their count are the same replica. */
  lemma PunctualWinsAgree(trace: seq<Bus>, evs: seq<Event>, i: nat, w: Win, x: Win, masters: set<Name>)
    requires IsRun(trace, evs) && i < |trace|
    requires w in trace[i].wins && x in trace[i].wins && w.epoch == x.epoch
    requires w.late == 0 && x.late == 0
    requires w.voters <= masters && x.voters <= masters && w.size == x.size == |masters|
    ensures w.winner == x.winner
  {
    hide IsRun, StateInv, MsgInv, VotesOk, AcksOk, RequestsOk, CountOk;
    RunKeepsElection(trace, evs, i);
    assert WinOk(trace[i], w) && WinOk(trace[i], x);
    QuorumsMeet(w.voters, x.voters, masters);
    var v :| v in w.voters * x.voters;
    SameVoterSameWinner(trace[i], w, x, v);
  }

  // What a run with agreed masters and no late acknowledgement keeps about the records.
  ghost predicate Records(b: Bus, masters: nat -> set<Name>)
    requires ProcsOk(b)
  {
    && (forall c | c in b.procs :: b.late[c] == 0 && b.counted[c] <= masters(b.procs[c].authEpoch))
    && (forall w | w in b.wins ::
          w.late == 0 && w.voters <= masters(w.epoch) && w.size == |masters(w.epoch)|)
  }

  lemma StepKeepsRecords(b: Bus, ev: Event, b': Bus, masters: nat -> set<Name>)
    requires ElectionInv(b) && Step(b, ev, b') && Sound(b') && Records(b, masters)
    requires CountsAt(b, ev) ==>
      && b.procs[ev.packet.dst].authSent
      && ev.packet.msg.sender in masters(b.procs[ev.packet.dst].authEpoch)
    requires WinsAt(b, ev) ==> b.procs[ev.who].size == |masters(b.procs[ev.who].authEpoch)|
    ensures Records(b', masters)
  {
    hide StateInv, MsgInv, VotesOk, RequestsOk, AcksOk, CountOk, WinOk, Quiet, Records, Counted, NextFailoverStep, ApplyCron, ApplyDeliver;
    match ev
    case Deliver(p, env) => DeliverKeepsRecords(b, p, env, masters);
    case Cron(n, t) => CronKeepsRecords(b, n, t, masters);
    case _ =>
      QuietShape(b, ev);
      QuietKeepsRecords(b, b', masters);
  }

  lemma QuietKeepsRecords(b: Bus, b': Bus, masters: nat -> set<Name>)
    requires Sound(b) && Records(b, masters) && Quiet(b, b')
    ensures Records(b', masters)
  {
    hide StateInv, PacketsOk;
  }

  lemma DeliverKeepsRecords(b: Bus, p: Envelope, env: Env, masters: nat -> set<Name>)
    requires Sound(b) && p in b.net && p.dst in b.procs && Records(b, masters)
    requires Sound(ApplyDeliver(b, p, env))
    requires Counted(b.procs[p.dst], p.msg) ==>
      b.procs[p.dst].authSent && p.msg.sender in masters(b.procs[p.dst].authEpoch)
    ensures Records(ApplyDeliver(b, p, env), masters)
  {
    hide StateInv, MsgInv, Receive, Counted, Granted;
    ReceiveFrame(b.procs[p.dst], p.msg, env);
  }

  // What becomes of the counts and the wins.
  lemma CronFields(b: Bus, n: Name, t: Timing)
    requires ProcsOk(b) && n in b.procs && CountOk(b, n)
    ensures
      var b', s := ApplyCron(b, n, t), b.procs[n];
      && b'.procs.Keys == b.procs.Keys && b'.counted.Keys == b'.late.Keys == b.procs.Keys
      && (forall c | c in b.procs && c != n ::
            b'.procs[c] == b.procs[c] && b'.counted[c] == b.counted[c] && b'.late[c] == b.late[c])
      && (b'.late[n] == 0 || b'.late[n] == b.late[n])
      && (b'.counted[n] == {} || (b'.counted[n] == b.counted[n] && b'.procs[n].authEpoch == s.authEpoch))
      && (forall w | w in b'.wins :: w in b.wins ||
            (NextFailoverStep(s, t).Won? && w == Win(s.authEpoch, n, s.size, b.counted[n], b.late[n])))
  {
    hide StateInv, HandleSlaveFailover, NextFailoverStep, IsAck;
    FailoverFrame(b.procs[n], t);
  }

  lemma CronKeepsRecords(b: Bus, n: Name, t: Timing, masters: nat -> set<Name>)
    requires ElectionInv(b) && n in b.procs && Records(b, masters)
    requires Sound(ApplyCron(b, n, t))
    requires NextFailoverStep(b.procs[n], t).Won? ==> b.procs[n].size == |masters(b.procs[n].authEpoch)|
    ensures Records(ApplyCron(b, n, t), masters)
  {
    hide StateInv, MsgInv, PacketsOk, VotesOk, AcksOk, RequestsOk, WinOk, CountOk, ApplyCron, NextFailoverStep;
    assert CountOk(b, n);
    CronFields(b, n, t);
  }

  lemma {:induction false} RunKeepsRecords(trace: seq<Bus>, evs: seq<Event>, masters: nat -> set<Name>, i: nat)
    requires IsRun(trace, evs) && AgreedMasters(trace, evs, masters) && NoLateAck(trace, evs)
    requires i < |trace|
    ensures Sound(trace[i]) && Records(trace[i], masters)
  {
    hide StateInv, MsgInv, Apply, Enabled, CountsAt, WinsAt;
    RunsAreSound(trace, evs, i);
    if i > 0 {
      RunKeepsRecords(trace, evs, masters, i - 1);
      RunKeepsElection(trace, evs, i - 1);
      StepKeepsRecords(trace[i - 1], evs[i - 1], trace[i], masters);
    }
  }

  /** Election safety. In every run in which the replicas standing in an epoch agree on
      the masters serving slots, and no acknowledgement is counted between scheduling
      and starting an election, no epoch is won by two different replicas. */
  lemma ElectionSafety(trace: seq<Bus>, evs: seq<Event>, masters: nat -> set<Name>, i: nat, w: Win, x: Win)
    requires IsRun(trace, evs) && AgreedMasters(trace, evs, masters) && NoLateAck(trace, evs)
    requires i < |trace| && w in trace[i].wins && x in trace[i].wins
    ensures w.epoch == x.epoch ==> w.winner == x.winner
  {
    if w.epoch == x.epoch {
      RunKeepsRecords(trace, evs, masters, i);
      PunctualWinsAgree(trace, evs, i, w, x, masters(w.epoch));
    }
  }

  /** The count used by the quorum test is the number of distinct masters that voted
      for this replica in the epoch of its running election. */
  ghost predicate CountIsExact(b: Bus, c: Name) {
    && c in b.procs && c in b.counted
    && b.procs[c].authCount == |b.counted[c]|
    && forall v | v in b.counted[c] ::
         (v, b.procs[c].authEpoch) in b.votes && b.votes[(v, b.procs[c].authEpoch)] == c
  }

  /** Exactly when the count stays exact: counting one more acknowledgement keeps it
      the number of distinct voters if and only if failover_auth_sent is set. */
  lemma CountStaysExactIff(trace: seq<Bus>, evs: seq<Event>, i: nat)
    requires IsRun(trace, evs) && i < |evs| && CountsAt(trace[i], evs[i])
    requires CountIsExact(trace[i], evs[i].packet.dst)
    ensures CountIsExact(trace[i + 1], evs[i].packet.dst) <==> trace[i].procs[evs[i].packet.dst].authSent
  {
    hide Init, StateInv, MsgInv, Receive, Granted, VotesOk, RequestsOk, AcksOk, WinOk;
    RunKeepsElection(trace, evs, i);
    RunKeepsElection(trace, evs, i + 1);
    var p, env := evs[i].packet, evs[i].env;
    assert Step(trace[i], evs[i], trace[i + 1]);
    ReceiveFrame(trace[i].procs[p.dst], p.msg, env);
    assert CountOk(trace[i], p.dst) && CountOk(trace[i + 1], p.dst);
  }
}
