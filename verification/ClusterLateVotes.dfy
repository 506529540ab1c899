/** The run in which votes that arrive too late elect two masters for one epoch. */
module ClusterLateVotes {
  import opened Wrappers
  import opened ClusterBitmap
  import opened ClusterElection
  import opened ClusterVotes

  const MASTERS: set<NodeId> := {"f", "m", "n"}
  const NODES: set<NodeId> := {"f", "m", "n", "a", "b"}

  const ALL_MASTERS: Electorate := (_: nat) => MASTERS

  /** Every slot has an owner, with configuration epoch 0. */
  function AllKnown(): (r: seq<Option<nat>>)
    ensures |r| == CLUSTER_SLOTS && forall j: Slot :: r[j] == Some(0)
  {
    seq(CLUSTER_SLOTS, _ => Some(0))
  }

  function Claims(): Bitmap { seq(BITMAP_BYTES, _ => 1) }

  /** Replicas "a" and "b" of the failed master "f" reach one other master each. */
  function At(me: NodeId, link: NodeId, now: int): View
  {
    View(me, MASTERS, MASTERS, 3, map["a" := "f", "b" := "f"], {"f"}, MASTERS, AllKnown(), [link],
         now, 1000, false, 0, 0, false, false, 0, Claims())
  }

  /** The events of the run. */
  function Happens(k: nat): Event
  {
    match k
    case 0 => Cron(At("a", "m", 10000))
    case 1 => Cron(At("b", "n", 10000))
    case 2 => Cron(At("a", "m", 11000))
    case 3 => Cron(At("b", "n", 11000))
    case 4 => Deliver(0, At("m", "a", 11000))
    case 5 => Deliver(1, At("n", "b", 11000))
    case 6 => Cron(At("a", "m", 15000))
    case 7 => Cron(At("b", "n", 15000))
    case 8 => Deliver(2, At("a", "m", 15100))
    case 9 => Deliver(3, At("b", "n", 15100))
    case 10 => Cron(At("a", "m", 16000))
    case 11 => Cron(At("b", "n", 16000))
    case 12 => Deliver(4, At("m", "a", 16000))
    case 13 => Deliver(5, At("n", "b", 16000))
    case 14 => Deliver(6, At("a", "m", 16100))
    case 15 => Deliver(7, At("b", "n", 16100))
    case 16 => Cron(At("a", "m", 16500))
    case _ => Cron(At("b", "n", 16500))
  }

  function LateRun(): seq<Event> { seq(18, k requires 0 <= k < 18 => Happens(k)) }

  function Replica(epoch: nat, time: int, count: nat, sent: bool, configEpoch: nat): Voter
  {
    Voter(epoch, 0, configEpoch, map[], time, count, sent, epoch, 0)
  }

  function Master(epoch: nat, now: int): Voter
  {
    Voter(epoch, epoch, 0, if epoch == 0 then map[] else map["f" := now], 0, 0, false, 0, 0)
  }

  predicate IsPacket(i: nat) { i < |Packets()| }

  /** The positions of the first `k` packets. */
  function Upto(k: nat): set<nat> { set i: nat | i < k && IsPacket(i) }

  lemma OneMore(k: nat)
    requires IsPacket(k)
    ensures Upto(k) + {k} == Upto(k + 1) && k !in Upto(k)
  {
  }

  /** The first packets are sent, and fewer of them delivered. */
  function Snapshot(a: Voter, b: Voter, m: Voter, n: Voter, sent: nat, delivered: nat, elected: set<Election>): System
    requires sent <= |Packets()|
  {
    System(Nodes(a, b, m, n), Packets()[..sent], Upto(delivered), elected)
  }

  function Nodes(a: Voter, b: Voter, m: Voter, n: Voter): map<NodeId, Voter>
  {
    map["f" := FRESH_VOTER, "a" := a, "b" := b, "m" := m, "n" := n]
  }

  lemma ReplicasChange(r: Voter, r': Voter, m: Voter)
    ensures Nodes(r, r, m, m)["a" := r'] == Nodes(r', r, m, m)
    ensures Nodes(r', r, m, m)["b" := r'] == Nodes(r', r', m, m)
  {
  }

  lemma MastersChange(r: Voter, m: Voter, m': Voter)
    ensures Nodes(r, r, m, m)["m" := m'] == Nodes(r, r, m', m)
    ensures Nodes(r, r, m', m)["n" := m'] == Nodes(r, r, m', m')
  {
  }

  function Ask(src: NodeId, dst: NodeId, epoch: nat): Packet
  {
    Packet(src, dst, epoch, AuthRequest(0, Claims(), false))
  }

  function Ack(src: NodeId, dst: NodeId, epoch: nat): Packet { Packet(src, dst, epoch, AuthAck) }

  /** All packets of the run, in the order in which they are sent. */
  function Sends(i: nat): Packet
  {
    match i
    case 0 => Ask("a", "m", 1)
    case 1 => Ask("b", "n", 1)
    case 2 => Ack("m", "a", 1)
    case 3 => Ack("n", "b", 1)
    case 4 => Ask("a", "m", 2)
    case 5 => Ask("b", "n", 2)
    case 6 => Ack("m", "a", 2)
    case _ => Ack("n", "b", 2)
  }

  function Packets(): seq<Packet> { seq(8, i requires 0 <= i < 8 => Sends(i)) }

  lemma OneMorePacket(k: nat)
    requires k < |Packets()|
    ensures Packets()[..k + 1] == Packets()[..k] + [Packets()[k]]
  {
  }

  /** Both sides of the cluster in step. */
  function Both(replica: Voter, master: Voter, sent: nat, delivered: nat, elected: set<Election>): System
    requires sent <= |Packets()|
  {
    Snapshot(replica, replica, master, master, sent, delivered, elected)
  }

  // The replicas, one after the other: rescheduled, started, late, counted, started again, counted again, elected.
  const SCHEDULED := Replica(0, 10500, 0, false, 0)
  const STARTED := Replica(1, 10500, 0, true, 0)
  const LATE := Replica(1, 15500, 0, false, 0)
  const COUNTED := Replica(1, 15500, 1, false, 0)
  const RESTARTED := Replica(2, 15500, 1, true, 0)
  const ENOUGH := Replica(2, 15500, 2, true, 0)
  const ELECTED := Replica(2, 15500, 2, true, 2)

  // The masters: not asked yet, and after each of their two votes.
  const VOTED_ONCE := Master(1, 11000)
  const VOTED_TWICE := Master(2, 16000)

  lemma CronStep(n: Voter, me: NodeId, link: NodeId, now: int)
    requires me in {"a", "b"}
    ensures HandledFailover(n, At(me, link, now)) ==
      var v, age := At(me, link, now), now - n.authTime;
      if age > 4000 then (n.(authTime := v.now + 500, authCount := 0, authSent := false, authRank := 0), Nothing)
      else if age < 0 || age > 2000 then (n, Nothing)
      else if !n.authSent then (Started(n), AskForVotes)
      else if n.authCount >= 2 then (Won(n), Win)
      else (n, Nothing)
  {
  }

  lemma RequestStep(n: Voter, me: NodeId, link: NodeId, now: int, epoch: nat)
    requires me in MASTERS && link in {"a", "b"} && n.currentEpoch <= epoch && n.lastVoteEpoch != epoch
    requires now - VotedTime(n, "f") >= 2000
    ensures Received(n, At(me, link, now), Ask(link, me, epoch)) ==
              (Voted(n.(currentEpoch := epoch), At(me, link, now), link), [Ack(me, link, epoch)])
  {
  }

  lemma AckStep(n: Voter, me: NodeId, link: NodeId, now: int, epoch: nat)
    requires link in MASTERS && n.currentEpoch == n.authEpoch == epoch
    ensures Received(n, At(me, link, now), Ack(link, me, epoch)) == (n.(authCount := n.authCount + 1), [])
  {
  }

  /** The event leads from one state to the next, and its candidate agrees on the electorate. */
  predicate Moves(s: System, e: Event, s': System)
  {
    Agrees(s, e, ALL_MASTERS) && Step(s, e) == s'
  }

  /** The first `k` events lead to `s`, and all candidates agreed so far. */
  ghost predicate Reached(k: nat, s: System)
    requires k <= |LateRun()|
  {
    && Run(Start(NODES), LateRun()[..k]) == s
    && forall j | 0 <= j < k :: Agrees(Run(Start(NODES), LateRun()[..j]), LateRun()[j], ALL_MASTERS)
  }

  lemma ReachedStart(k: nat)
    requires k == 0
    ensures Reached(k, Both(FRESH_VOTER, FRESH_VOTER, 0, 0, {}))
  {
    assert LateRun()[..k] == [];
    assert Start(NODES).nodes == Nodes(FRESH_VOTER, FRESH_VOTER, FRESH_VOTER, FRESH_VOTER);
  }

  /** A property of steps and states that the events of the run keep. */
  ghost predicate Closed(p: (nat, System) -> bool)
  {
    forall k: nat, s, s' | k < |LateRun()| && p(k, s) && Moves(s, Happens(k), s') :: p(k + 1, s')
  }

  lemma TwoOn(p: (nat, System) -> bool, k: nat, s0: System, s1: System, s2: System)
    requires Closed(p) && k + 1 < |LateRun()| && p(k, s0)
    requires Moves(s0, Happens(k), s1) && Moves(s1, Happens(k + 1), s2)
    ensures p(k + 2, s2)
  {
    assert p(k + 1, s1);
  }

  ghost function Reaches(): (nat, System) -> bool
  {
    (k: nat, s: System) => k <= |LateRun()| && Reached(k, s)
  }

  lemma OneOn(k: nat, s: System, s': System)
    requires k < |LateRun()| && Reached(k, s) && Moves(s, Happens(k), s')
    ensures Reached(k + 1, s')
  {
    assert LateRun()[..k + 1][..k] == LateRun()[..k];
  }

  lemma ReachesIsClosed()
    ensures Closed(Reaches())
  {
    forall k: nat, s, s' | k < |LateRun()| && Reaches()(k, s) && Moves(s, Happens(k), s')
      ensures Reaches()(k + 1, s')
    {
      OneOn(k, s, s');
    }
  }

  // Pairs of events, one on each side of the cluster.

  lemma QuietPair(p: (nat, System) -> bool, k: nat, r: Voter, r': Voter, m: Voter, sent: nat, delivered: nat, now: int)
    requires sent <= |Packets()| && Closed(p) && k + 1 < |LateRun()| && p(k, Both(r, m, sent, delivered, {}))
    requires Happens(k) == Cron(At("a", "m", now)) && Happens(k + 1) == Cron(At("b", "n", now))
    requires HandledFailover(r, At("a", "m", now)) == HandledFailover(r, At("b", "n", now)) == (r', Nothing)
    ensures p(k + 2, Both(r', m, sent, delivered, {}))
  {
    ReplicasChange(r, r', m);
    TwoOn(p, k, Both(r, m, sent, delivered, {}), Snapshot(r', r, m, m, sent, delivered, {}),
          Both(r', m, sent, delivered, {}));
  }

  lemma AskPair(p: (nat, System) -> bool, k: nat, r: Voter, r': Voter, m: Voter, sent: nat, delivered: nat, now: int)
    requires sent + 2 <= |Packets()| && Closed(p) && k + 1 < |LateRun()| && p(k, Both(r, m, sent, delivered, {}))
    requires Happens(k) == Cron(At("a", "m", now)) && Happens(k + 1) == Cron(At("b", "n", now))
    requires Sends(sent) == Ask("a", "m", r'.currentEpoch) && Sends(sent + 1) == Ask("b", "n", r'.currentEpoch)
    requires HandledFailover(r, At("a", "m", now)) == HandledFailover(r, At("b", "n", now)) == (r', AskForVotes)
    ensures p(k + 2, Both(r', m, sent + 2, delivered, {}))
  {
    ReplicasChange(r, r', m);
    OneMorePacket(sent);
    OneMorePacket(sent + 1);
    TwoOn(p, k, Both(r, m, sent, delivered, {}), Snapshot(r', r, m, m, sent + 1, delivered, {}),
          Both(r', m, sent + 2, delivered, {}));
  }

  lemma VotePair(p: (nat, System) -> bool, k: nat, r: Voter, m: Voter, m': Voter, sent: nat, delivered: nat,
                 now: int, epoch: nat)
    requires delivered + 2 <= sent <= |Packets()| - 2
    requires Closed(p) && k + 1 < |LateRun()| && p(k, Both(r, m, sent, delivered, {}))
    requires Happens(k) == Deliver(delivered, At("m", "a", now))
    requires Happens(k + 1) == Deliver(delivered + 1, At("n", "b", now))
    requires Sends(delivered) == Ask("a", "m", epoch) && Sends(delivered + 1) == Ask("b", "n", epoch)
    requires Sends(sent) == Ack("m", "a", epoch) && Sends(sent + 1) == Ack("n", "b", epoch)
    requires m.currentEpoch <= epoch && m.lastVoteEpoch != epoch && now - VotedTime(m, "f") >= 2000
    requires m' == m.(currentEpoch := epoch, lastVoteEpoch := epoch, votedTime := m.votedTime["f" := now])
    ensures p(k + 2, Both(r, m', sent + 2, delivered + 2, {}))
  {
    RequestStep(m, "m", "a", now, epoch);
    RequestStep(m, "n", "b", now, epoch);
    MastersChange(r, m, m');
    OneMorePacket(sent);
    OneMorePacket(sent + 1);
    OneMore(delivered);
    OneMore(delivered + 1);
    TwoOn(p, k, Both(r, m, sent, delivered, {}), Snapshot(r, r, m', m, sent + 1, delivered + 1, {}),
          Both(r, m', sent + 2, delivered + 2, {}));
  }

  lemma CountPair(p: (nat, System) -> bool, k: nat, r: Voter, r': Voter, m: Voter, sent: nat, delivered: nat,
                  now: int, epoch: nat)
    requires delivered + 2 <= sent <= |Packets()|
    requires Closed(p) && k + 1 < |LateRun()| && p(k, Both(r, m, sent, delivered, {}))
    requires Happens(k) == Deliver(delivered, At("a", "m", now))
    requires Happens(k + 1) == Deliver(delivered + 1, At("b", "n", now))
    requires Sends(delivered) == Ack("m", "a", epoch) && Sends(delivered + 1) == Ack("n", "b", epoch)
    requires r.currentEpoch == r.authEpoch == epoch && r' == r.(authCount := r.authCount + 1)
    ensures p(k + 2, Both(r', m, sent, delivered + 2, {}))
  {
    AckStep(r, "a", "m", now, epoch);
    AckStep(r, "b", "n", now, epoch);
    ReplicasChange(r, r', m);
    OneMore(delivered);
    OneMore(delivered + 1);
    TwoOn(p, k, Both(r, m, sent, delivered, {}), Snapshot(r', r, m, m, sent, delivered + 1, {}),
          Both(r', m, sent, delivered + 2, {}));
  }

  lemma WinPair(p: (nat, System) -> bool, k: nat, r: Voter, r': Voter, m: Voter, sent: nat, delivered: nat, now: int)
    requires sent <= |Packets()| && Closed(p) && k + 1 < |LateRun()| && p(k, Both(r, m, sent, delivered, {}))
    requires Happens(k) == Cron(At("a", "m", now)) && Happens(k + 1) == Cron(At("b", "n", now))
    requires HandledFailover(r, At("a", "m", now)) == HandledFailover(r, At("b", "n", now)) == (r', Win)
    ensures p(k + 2, Both(r', m, sent, delivered, {Election("a", r'.authEpoch)} + {Election("b", r'.authEpoch)}))
  {
    ReplicasChange(r, r', m);
    var won := {Election("a", r'.authEpoch)};
    assert {} + won == won;
    TwoOn(p, k, Both(r, m, sent, delivered, {}), Snapshot(r', r, m, m, sent, delivered, won),
          Both(r', m, sent, delivered, won + {Election("b", r'.authEpoch)}));
  }

  // The nine pairs.

  lemma CronSteps(n: Voter, now: int)
    ensures HandledFailover(n, At("a", "m", now)) == HandledFailover(n, At("b", "n", now))
  {
    CronStep(n, "a", "m", now);
    CronStep(n, "b", "n", now);
  }

  lemma Schedules(p: (nat, System) -> bool, k: nat)
    requires Closed(p) && k == 0 && p(k, Both(FRESH_VOTER, FRESH_VOTER, 0, 0, {}))
    ensures p(k + 2, Both(SCHEDULED, FRESH_VOTER, 0, 0, {}))
  {
    CronSteps(FRESH_VOTER, 10000);
    CronStep(FRESH_VOTER, "a", "m", 10000);
    QuietPair(p, k, FRESH_VOTER, SCHEDULED, FRESH_VOTER, 0, 0, 10000);
  }

  lemma Asks(p: (nat, System) -> bool, k: nat)
    requires Closed(p) && k == 2 && p(k, Both(SCHEDULED, FRESH_VOTER, 0, 0, {}))
    ensures p(k + 2, Both(STARTED, FRESH_VOTER, 2, 0, {}))
  {
    CronSteps(SCHEDULED, 11000);
    CronStep(SCHEDULED, "a", "m", 11000);
    AskPair(p, k, SCHEDULED, STARTED, FRESH_VOTER, 0, 0, 11000);
  }

  lemma Votes(p: (nat, System) -> bool, k: nat)
    requires Closed(p) && k == 4 && p(k, Both(STARTED, FRESH_VOTER, 2, 0, {}))
    ensures p(k + 2, Both(STARTED, VOTED_ONCE, 4, 2, {}))
  {
    VotePair(p, k, STARTED, FRESH_VOTER, VOTED_ONCE, 2, 0, 11000, 1);
  }

  lemma Reschedules(p: (nat, System) -> bool, k: nat)
    requires Closed(p) && k == 6 && p(k, Both(STARTED, VOTED_ONCE, 4, 2, {}))
    ensures p(k + 2, Both(LATE, VOTED_ONCE, 4, 2, {}))
  {
    CronSteps(STARTED, 15000);
    CronStep(STARTED, "a", "m", 15000);
    QuietPair(p, k, STARTED, LATE, VOTED_ONCE, 4, 2, 15000);
  }

  /** The late votes are counted. */
  lemma CountsLate(p: (nat, System) -> bool, k: nat)
    requires Closed(p) && k == 8 && p(k, Both(LATE, VOTED_ONCE, 4, 2, {}))
    ensures p(k + 2, Both(COUNTED, VOTED_ONCE, 4, 4, {}))
  {
    CountPair(p, k, LATE, COUNTED, VOTED_ONCE, 4, 2, 15100, 1);
  }

  lemma AsksAgain(p: (nat, System) -> bool, k: nat)
    requires Closed(p) && k == 10 && p(k, Both(COUNTED, VOTED_ONCE, 4, 4, {}))
    ensures p(k + 2, Both(RESTARTED, VOTED_ONCE, 6, 4, {}))
  {
    CronSteps(COUNTED, 16000);
    CronStep(COUNTED, "a", "m", 16000);
    AskPair(p, k, COUNTED, RESTARTED, VOTED_ONCE, 4, 4, 16000);
  }

  /** The masters' only records of their votes are overwritten. */
  lemma VotesAgain(p: (nat, System) -> bool, k: nat)
    requires Closed(p) && k == 12 && p(k, Both(RESTARTED, VOTED_ONCE, 6, 4, {}))
    ensures p(k + 2, Both(RESTARTED, VOTED_TWICE, 8, 6, {}))
  {
    assert map["f" := 11000]["f" := 16000] == map["f" := 16000];
    VotePair(p, k, RESTARTED, VOTED_ONCE, VOTED_TWICE, 6, 4, 16000, 2);
  }

  lemma Counts(p: (nat, System) -> bool, k: nat)
    requires Closed(p) && k == 14 && p(k, Both(RESTARTED, VOTED_TWICE, 8, 6, {}))
    ensures p(k + 2, Both(ENOUGH, VOTED_TWICE, 8, 8, {}))
  {
    CountPair(p, k, RESTARTED, ENOUGH, VOTED_TWICE, 8, 6, 16100, 2);
  }

  lemma Wins(p: (nat, System) -> bool, k: nat)
    requires Closed(p) && k == 16 && p(k, Both(ENOUGH, VOTED_TWICE, 8, 8, {}))
    ensures p(k + 2, Both(ELECTED, VOTED_TWICE, 8, 8, {Election("a", 2)} + {Election("b", 2)}))
  {
    CronSteps(ENOUGH, 16500);
    CronStep(ENOUGH, "a", "m", 16500);
    WinPair(p, k, ENOUGH, ELECTED, VOTED_TWICE, 8, 8, 16500);
  }

  lemma WholeRun(p: (nat, System) -> bool, k: nat)
    requires Closed(p) && k == 0 && p(k, Both(FRESH_VOTER, FRESH_VOTER, 0, 0, {}))
    ensures p(k + 18, Both(ELECTED, VOTED_TWICE, 8, 8, {Election("a", 2)} + {Election("b", 2)}))
  {
    Schedules(p, k);
    Asks(p, k + 2);
    Votes(p, k + 4);
    Reschedules(p, k + 6);
    CountsLate(p, k + 8);
    AsksAgain(p, k + 10);
    VotesAgain(p, k + 12);
    Counts(p, k + 14);
    Wins(p, k + 16);
  }

  /**
     The counter is cleared when an election is rescheduled, but the election's epoch changes only when the
     next one starts: votes arriving in between count twice, and two replicas win one epoch although all
     candidates agree on the electorate throughout.
   */
  lemma LateVotesElectTwo()
    ensures AgreedRun(Start(NODES), LateRun(), ALL_MASTERS)
    ensures {Election("a", 2), Election("b", 2)} <= Run(Start(NODES), LateRun()).elected
    ensures !TimelyRun(Start(NODES), LateRun())
  {
    var k: nat :| k == 0;
    ReachedStart(k);
    ReachesIsClosed();
    WholeRun(Reaches(), k);
    assert Reached(k + 18, Both(ELECTED, VOTED_TWICE, 8, 8, {Election("a", 2)} + {Election("b", 2)}));
    assert LateRun()[..k + 18] == LateRun();
    if TimelyRun(Start(NODES), LateRun()) {
      OneWinnerPerEpoch(NODES, LateRun(), ALL_MASTERS, Election("a", 2), Election("b", 2));
    }
  }
}
