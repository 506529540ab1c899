/** Elections over a whole cluster: nodes, the packets between them, and every run of their steps. */
module ClusterVotes {
  import opened ClusterElection

  datatype Election = Election(winner: NodeId, epoch: nat)

  /** `sent` is the log of all packets, each delivered at most once; `elected` records the quorums reached. */
  datatype System = System(nodes: map<NodeId, Voter>, sent: seq<Packet>, delivered: set<nat>, elected: set<Election>)

  datatype Event =
    | Deliver(i: nat, view: View)
    | Cron(view: View)
    | SendPing(src: NodeId, dst: NodeId)
    | NewEpoch(node: NodeId) // a configuration epoch collision

  predicate Arrives(s: System, i: nat, v: View)
  {
    i < |s.sent| && i !in s.delivered && v.me == s.sent[i].dst && v.me in s.nodes && s.sent[i].src in s.nodes
  }

  function Delivered(s: System, i: nat, v: View): System
    requires Arrives(s, i, v)
  {
    var (n, reply) := Received(s.nodes[v.me], v, s.sent[i]);
    s.(nodes := s.nodes[v.me := n], sent := s.sent + reply, delivered := s.delivered + {i})
  }

  function Ticked(s: System, v: View): System
    requires v.me in s.nodes
  {
    var (n, action) := HandledFailover(s.nodes[v.me], v);
    s.(nodes := s.nodes[v.me := n],
       sent := s.sent + if action == AskForVotes then Requests(n.currentEpoch, v) else [],
       elected := s.elected + if action == Win then {Election(v.me, n.authEpoch)} else {})
  }

  function Raised(n: Voter): Voter { n.(currentEpoch := n.currentEpoch + 1, configEpoch := n.currentEpoch + 1) }

  /** One step; an event that is not possible changes nothing. */
  function Step(s: System, e: Event): System
  {
    match e
    case Deliver(i, v) => if Arrives(s, i, v) then Delivered(s, i, v) else s
    case Cron(v) => if v.me in s.nodes then Ticked(s, v) else s
    case SendPing(src, dst) =>
      if src in s.nodes then s.(sent := s.sent + [Packet(src, dst, s.nodes[src].currentEpoch, Ping)]) else s
    case NewEpoch(n) => if n in s.nodes then s.(nodes := s.nodes[n := Raised(s.nodes[n])]) else s
  }

  function Run(s: System, events: seq<Event>): System
    decreases |events|
  {
    if events == [] then s else Step(Run(s, events[..|events| - 1]), events[|events| - 1])
  }

  function Start(ids: set<NodeId>): System
  {
    System(map id | id in ids :: FRESH_VOTER, [], {}, {})
  }

  predicate IsAck(s: System, i: nat)
  {
    i < |s.sent| && s.sent[i].body.AuthAck?
  }

  /** On every node the last vote and the last election are no newer than the current epoch. */
  ghost predicate EpochsOrdered(s: System)
  {
    forall m | m in s.nodes ::
      s.nodes[m].lastVoteEpoch <= s.nodes[m].currentEpoch && s.nodes[m].authEpoch <= s.nodes[m].currentEpoch
  }

  ghost predicate PacketDated(s: System, p: Packet)
  {
    && p.src in s.nodes
    && (p.body.AuthRequest? ==> p.epoch <= s.nodes[p.src].authEpoch)
    && (p.body.AuthAck? ==>
          p.epoch <= s.nodes[p.src].lastVoteEpoch && p.dst in s.nodes && p.epoch <= s.nodes[p.dst].authEpoch)
  }

  ghost predicate PacketsDated(s: System)
  {
    && (forall i | 0 <= i < |s.sent| :: PacketDated(s, s.sent[i]))
    && (forall i | i in s.delivered :: i < |s.sent|)
  }

  /** The votes of one master are for rising epochs. */
  ghost predicate VotesRise(s: System)
  {
    forall i, j | 0 <= i < j < |s.sent| && IsAck(s, i) && IsAck(s, j) && s.sent[i].src == s.sent[j].src ::
      s.sent[i].epoch < s.sent[j].epoch
  }

  ghost predicate Sane(s: System)
  {
    EpochsOrdered(s) && PacketsDated(s) && VotesRise(s)
  }

  /** Epochs never go back, and a new vote is for a later epoch than the last. */
  ghost predicate Advances(m: Voter, n: Voter)
  {
    && m.currentEpoch <= n.currentEpoch && m.lastVoteEpoch <= n.lastVoteEpoch && m.authEpoch <= n.authEpoch
    && n.lastVoteEpoch <= n.currentEpoch && n.authEpoch <= n.currentEpoch
  }

  lemma ReceivedAdvances(n: Voter, v: View, p: Packet)
    requires n.lastVoteEpoch <= n.currentEpoch && n.authEpoch <= n.currentEpoch
    ensures Advances(n, Received(n, v, p).0) && Received(n, v, p).0.authEpoch == n.authEpoch
    ensures var (m, reply) := Received(n, v, p);
            |reply| > 0 ==>
              && reply == [Packet(v.me, p.src, p.epoch, AuthAck)] && p.body.AuthRequest?
              && n.lastVoteEpoch < p.epoch == m.lastVoteEpoch
  {
  }

  lemma FailoverAdvances(n: Voter, v: View)
    requires n.lastVoteEpoch <= n.currentEpoch && n.authEpoch <= n.currentEpoch
    ensures var (m, action) := HandledFailover(n, v);
            && Advances(n, m) && m.lastVoteEpoch == n.lastVoteEpoch
            && (action == AskForVotes ==> n.authEpoch < m.authEpoch == m.currentEpoch)
            && (action != AskForVotes ==> m.authEpoch == n.authEpoch)
  {
  }

  /** Packets already sent stay dated when nodes advance. */
  lemma StaysDated(s: System, t: System, p: Packet)
    requires PacketDated(s, p) && s.nodes.Keys == t.nodes.Keys
    requires forall m | m in s.nodes :: Advances(s.nodes[m], t.nodes[m])
    ensures PacketDated(t, p)
  {
  }

  lemma StepAdvances(s: System, e: Event)
    requires Sane(s)
    ensures Step(s, e).nodes.Keys == s.nodes.Keys
    ensures forall m | m in s.nodes :: Advances(s.nodes[m], Step(s, e).nodes[m])
    ensures s.sent <= Step(s, e).sent && s.delivered <= Step(s, e).delivered && s.elected <= Step(s, e).elected
  {
    match e
    case Deliver(i, v) => if Arrives(s, i, v) { ReceivedAdvances(s.nodes[v.me], v, s.sent[i]); }
    case Cron(v) => if v.me in s.nodes { FailoverAdvances(s.nodes[v.me], v); }
    case SendPing(_, _) =>
    case NewEpoch(_) =>
  }

  lemma NewPacketsAreDated(s: System, e: Event, k: nat)
    requires Sane(s) && |s.sent| <= k < |Step(s, e).sent|
    ensures PacketDated(Step(s, e), Step(s, e).sent[k])
    ensures IsAck(Step(s, e), k) ==> k == |s.sent| && Step(s, e).sent[k].src in s.nodes
                                     && s.nodes[Step(s, e).sent[k].src].lastVoteEpoch < Step(s, e).sent[k].epoch
  {
    match e
    case Deliver(i, v) =>
      ReceivedAdvances(s.nodes[v.me], v, s.sent[i]);
      assert PacketDated(s, s.sent[i]);
    case Cron(v) => FailoverAdvances(s.nodes[v.me], v);
    case SendPing(_, _) =>
    case NewEpoch(_) =>
  }

  lemma StepIsSane(s: System, e: Event)
    requires Sane(s)
    ensures Sane(Step(s, e))
  {
    var t := Step(s, e);
    StepAdvances(s, e);
    forall i | 0 <= i < |t.sent| ensures PacketDated(t, t.sent[i]) {
      if i < |s.sent| { StaysDated(s, t, s.sent[i]); } else { NewPacketsAreDated(s, e, i); }
    }
    forall i, j | 0 <= i < j < |t.sent| && IsAck(t, i) && IsAck(t, j) && t.sent[i].src == t.sent[j].src
      ensures t.sent[i].epoch < t.sent[j].epoch
    {
      if j < |s.sent| {
        assert IsAck(s, i) && IsAck(s, j);
      } else {
        NewPacketsAreDated(s, e, j);
        assert PacketDated(s, s.sent[i]);
      }
    }
  }

  lemma {:induction false} RunIsSane(ids: set<NodeId>, events: seq<Event>)
    ensures Sane(Run(Start(ids), events))
    decreases |events|
  {
    if events != [] {
      RunIsSane(ids, events[..|events| - 1]);
      StepIsSane(Run(Start(ids), events[..|events| - 1]), events[|events| - 1]);
    }
  }

  /** In every run a master votes at most once per epoch, and never for an epoch it has not reached. */
  lemma OneVotePerEpoch(ids: set<NodeId>, events: seq<Event>, i: nat, j: nat)
    requires var s := Run(Start(ids), events);
             IsAck(s, i) && IsAck(s, j) && s.sent[i].src == s.sent[j].src && s.sent[i].epoch == s.sent[j].epoch
    ensures i == j
    ensures var s := Run(Start(ids), events);
            var m := s.sent[i].src;
            m in s.nodes && s.sent[i].epoch <= s.nodes[m].lastVoteEpoch <= s.nodes[m].currentEpoch
  {
    RunIsSane(ids, events);
    assert PacketDated(Run(Start(ids), events), Run(Start(ids), events).sent[i]);
  }

  // The electorate: for each epoch, the slot-serving masters all candidates of that epoch agree on.

  type Electorate = nat -> set<NodeId>

  /** An acknowledgement arrives that its receiver will count. */
  predicate CountsOn(s: System, e: Event)
  {
    && e.Deliver? && Arrives(s, e.i, e.view) && s.sent[e.i].body.AuthAck?
    && s.sent[e.i].epoch >= s.nodes[e.view.me].authEpoch
  }

  /** The acknowledgement is for an election that its receiver has already rescheduled. */
  predicate Late(s: System, e: Event)
  {
    CountsOn(s, e) && s.sent[e.i].src in e.view.serving && !s.nodes[e.view.me].authSent
  }

  /** The node finds that it has a quorum. */
  predicate WinsOn(s: System, e: Event)
  {
    e.Cron? && e.view.me in s.nodes && HandledFailover(s.nodes[e.view.me], e.view).1 == Win
  }

  /** Whoever counts votes, or wins by them, sees the electorate of its election. */
  predicate Agrees(s: System, e: Event, w: Electorate)
  {
    && (CountsOn(s, e) ==> e.view.serving == w(s.nodes[e.view.me].authEpoch))
    && (WinsOn(s, e) ==> e.view.size == |w(s.nodes[e.view.me].authEpoch)|)
  }

  ghost predicate AgreedRun(s: System, events: seq<Event>, w: Electorate)
  {
    forall k | 0 <= k < |events| :: Agrees(Run(s, events[..k]), events[k], w)
  }

  ghost predicate TimelyRun(s: System, events: seq<Event>)
  {
    forall k | 0 <= k < |events| :: !Late(Run(s, events[..k]), events[k])
  }

  predicate IsBallot(s: System, w: Electorate, c: NodeId, epoch: nat, i: nat)
  {
    IsAck(s, i) && s.sent[i].dst == c && s.sent[i].epoch == epoch && s.sent[i].src in w(epoch)
  }

  /** The votes a candidate has received for an epoch. */
  function Ballots(s: System, w: Electorate, c: NodeId, epoch: nat): set<nat>
  {
    set i | i in s.delivered && IsBallot(s, w, c, epoch, i)
  }

  /** A candidate's counter is the number of votes it has received in its election. */
  ghost predicate Tallied(s: System, w: Electorate, c: NodeId)
    requires c in s.nodes
  {
    var n := s.nodes[c];
    n.authCount == if n.authSent then |Ballots(s, w, c, n.authEpoch)| else 0
  }

  ghost predicate Elected(s: System, w: Electorate, e: Election)
  {
    |Ballots(s, w, e.winner, e.epoch)| >= |w(e.epoch)| / 2 + 1
  }

  ghost predicate Honest(s: System, w: Electorate)
  {
    && (forall c | c in s.nodes :: Tallied(s, w, c))
    && (forall e | e in s.elected :: Elected(s, w, e))
  }

  /** Sending leaves the votes received as they are. */
  lemma BallotsAfterSending(s: System, t: System, w: Electorate, c: NodeId, epoch: nat)
    requires PacketsDated(s) && s.sent <= t.sent
    requires s.delivered == t.delivered
    ensures Ballots(t, w, c, epoch) == Ballots(s, w, c, epoch)
  {
  }

  lemma BallotsAfterDelivery(s: System, t: System, w: Electorate, c: NodeId, epoch: nat, i: nat)
    requires PacketsDated(s) && s.sent <= t.sent && i < |s.sent| && i !in s.delivered
    requires t.delivered == s.delivered + {i}
    ensures Ballots(t, w, c, epoch) == Ballots(s, w, c, epoch) + if IsBallot(s, w, c, epoch, i) then {i} else {}
    ensures |Ballots(t, w, c, epoch)| == |Ballots(s, w, c, epoch)| + if IsBallot(s, w, c, epoch, i) then 1 else 0
  {
    assert Ballots(t, w, c, epoch) == Ballots(s, w, c, epoch) + if IsBallot(s, w, c, epoch, i) then {i} else {};
  }

  /** Counting an arriving vote keeps the counter right exactly when the vote is not late. */
  lemma DeliveryKeepsTally(s: System, w: Electorate, i: nat, v: View, c: NodeId)
    requires Sane(s) && Honest(s, w) && Arrives(s, i, v) && c in s.nodes
    requires Agrees(s, Deliver(i, v), w)
    ensures Tallied(Step(s, Deliver(i, v)), w, c) <==> c != v.me || !Late(s, Deliver(i, v))
  {
    var t, p := Step(s, Deliver(i, v)), s.sent[i];
    var n := s.nodes[c];
    assert Tallied(s, w, c) && PacketDated(s, p);
    BallotsAfterDelivery(s, t, w, c, n.authEpoch, i);
    if c == v.me {
      ReceivedAdvances(n, v, p);
      assert IsBallot(s, w, c, n.authEpoch, i)
        <==> p.body.AuthAck? && p.epoch == n.authEpoch && p.src in w(n.authEpoch);
    }
  }

  /** A new election starts with no votes. */
  lemma NoBallotsYet(s: System, w: Electorate, c: NodeId, epoch: nat)
    requires PacketsDated(s) && c in s.nodes && s.nodes[c].authEpoch < epoch
    ensures Ballots(s, w, c, epoch) == {}
  {
    forall i | i in s.delivered ensures !IsBallot(s, w, c, epoch, i) {
      assert PacketDated(s, s.sent[i]);
    }
  }

  lemma CronKeepsTally(s: System, w: Electorate, v: View, c: NodeId)
    requires Sane(s) && Honest(s, w) && v.me in s.nodes && c in s.nodes
    ensures Tallied(Step(s, Cron(v)), w, c)
  {
    var t := Step(s, Cron(v));
    FailoverAdvances(s.nodes[v.me], v);
    assert Tallied(s, w, c);
    BallotsAfterSending(s, t, w, c, t.nodes[c].authEpoch);
    if t.nodes[c].authEpoch != s.nodes[c].authEpoch {
      NoBallotsYet(s, w, c, t.nodes[c].authEpoch);
    }
  }

  lemma StepKeepsTally(s: System, e: Event, w: Electorate, c: NodeId)
    requires Sane(s) && Honest(s, w) && c in s.nodes
    requires Agrees(s, e, w) && !Late(s, e)
    ensures c in Step(s, e).nodes && Tallied(Step(s, e), w, c)
  {
    match e
    case Deliver(i, v) => if Arrives(s, i, v) { DeliveryKeepsTally(s, w, i, v, c); }
    case Cron(v) => if v.me in s.nodes { CronKeepsTally(s, w, v, c); }
    case SendPing(_, _) => BallotsAfterSending(s, Step(s, e), w, c, s.nodes[c].authEpoch);
    case NewEpoch(_) => BallotsAfterSending(s, Step(s, e), w, c, s.nodes[c].authEpoch);
  }

  lemma BallotsOnlyGrow(s: System, e: Event, w: Electorate, c: NodeId, epoch: nat)
    requires Sane(s)
    ensures |Ballots(s, w, c, epoch)| <= |Ballots(Step(s, e), w, c, epoch)|
  {
    StepAdvances(s, e);
    if e.Deliver? && Arrives(s, e.i, e.view) {
      BallotsAfterDelivery(s, Step(s, e), w, c, epoch, e.i);
    } else {
      BallotsAfterSending(s, Step(s, e), w, c, epoch);
    }
  }

  /** Whoever wins has the votes. */
  lemma WinnersAreElected(s: System, v: View, w: Electorate)
    requires Sane(s) && Honest(s, w) && v.me in s.nodes && Agrees(s, Cron(v), w)
    requires HandledFailover(s.nodes[v.me], v).1 == Win
    ensures Elected(s, w, Election(v.me, HandledFailover(s.nodes[v.me], v).0.authEpoch))
  {
    assert Tallied(s, w, v.me);
  }

  lemma StepIsHonest(s: System, e: Event, w: Electorate)
    requires Sane(s) && Honest(s, w) && Agrees(s, e, w) && !Late(s, e)
    ensures Honest(Step(s, e), w)
  {
    var t := Step(s, e);
    StepAdvances(s, e);
    forall c | c in t.nodes { StepKeepsTally(s, e, w, c); }
    forall x | x in t.elected ensures Elected(t, w, x) {
      BallotsOnlyGrow(s, e, w, x.winner, x.epoch);
      if x !in s.elected { WinnersAreElected(s, e.view, w); }
    }
  }

  lemma {:induction false} FairRunIsHonest(ids: set<NodeId>, events: seq<Event>, w: Electorate)
    requires AgreedRun(Start(ids), events, w) && TimelyRun(Start(ids), events)
    ensures Honest(Run(Start(ids), events), w)
    decreases |events|
  {
    if events != [] {
      var before := events[..|events| - 1];
      assert forall k | 0 <= k < |before| :: before[..k] == events[..k];
      FairRunIsHonest(ids, before, w);
      RunIsSane(ids, before);
      StepIsHonest(Run(Start(ids), before), events[|events| - 1], w);
    }
  }

  function Senders(s: System, ballots: set<nat>): set<NodeId>
    requires forall i | i in ballots :: i < |s.sent|
  {
    set i | i in ballots :: s.sent[i].src
  }

  /** Votes for one epoch all come from different masters. */
  lemma {:induction false} VotersAreDistinct(s: System, ballots: set<nat>, epoch: nat)
    requires VotesRise(s) && forall i | i in ballots :: i < |s.sent| && IsAck(s, i) && s.sent[i].epoch == epoch
    ensures |Senders(s, ballots)| == |ballots|
    decreases |ballots|
  {
    if ballots != {} {
      var i :| i in ballots;
      var rest := ballots - {i};
      VotersAreDistinct(s, rest, epoch);
      forall j | j in rest ensures s.sent[j].src != s.sent[i].src {
        assert IsAck(s, i) && IsAck(s, j);
      }
      assert Senders(s, ballots) == Senders(s, rest) + {s.sent[i].src};
    }
  }

  /** Two majorities of one electorate share a voter. */
  lemma MajoritiesMeet(w: set<NodeId>, a: set<NodeId>, b: set<NodeId>) returns (m: NodeId)
    requires a <= w && b <= w && |a| >= |w| / 2 + 1 && |b| >= |w| / 2 + 1
    ensures m in a && m in b
  {
    assert |a + b| + |a * b| == |a| + |b|;
    if a * b == {} {
      Contained(a + b, w);
    }
    m :| m in a * b;
  }

  lemma Contained(a: set<NodeId>, b: set<NodeId>)
    requires a <= b
    ensures |a| <= |b|
  {
    assert b == a + (b - a);
  }

  lemma SameVotesSameWinner(s: System, w: Electorate, a: Election, b: Election)
    requires Sane(s) && Elected(s, w, a) && Elected(s, w, b) && a.epoch == b.epoch
    ensures a == b
  {
    var x, y := Ballots(s, w, a.winner, a.epoch), Ballots(s, w, b.winner, b.epoch);
    VotersAreDistinct(s, x, a.epoch);
    VotersAreDistinct(s, y, b.epoch);
    var m := MajoritiesMeet(w(a.epoch), Senders(s, x), Senders(s, y));
    var i :| i in x && s.sent[i].src == m;
    var j :| j in y && s.sent[j].src == m;
    assert IsAck(s, i) && IsAck(s, j);
  }

  /**
     In a run in which candidates agree on who votes in their epoch and no vote arrives after its
     candidate has rescheduled its election, no epoch has two winners.
   */
  lemma OneWinnerPerEpoch(ids: set<NodeId>, events: seq<Event>, w: Electorate, a: Election, b: Election)
    requires AgreedRun(Start(ids), events, w) && TimelyRun(Start(ids), events)
    requires a in Run(Start(ids), events).elected && b in Run(Start(ids), events).elected && a.epoch == b.epoch
    ensures a.winner == b.winner
  {
    RunIsSane(ids, events);
    FairRunIsHonest(ids, events, w);
    SameVotesSameWinner(Run(Start(ids), events), w, a, b);
  }
}
