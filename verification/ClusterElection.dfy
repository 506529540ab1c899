/** One node's part in a failover election: how it votes, counts votes, and runs for election. */
module ClusterElection {
  import opened Wrappers
  import opened ClusterBitmap

  type NodeId = string
  type OwnerEpochs = s: seq<Option<nat>> | |s| == CLUSTER_SLOTS witness seq(CLUSTER_SLOTS, _ => None)

  datatype Body =
    | Ping
    | AuthRequest(configEpoch: nat, claimed: Bitmap, forceAck: bool)
    | AuthAck

  /** `epoch` is the currentEpoch of the header. */
  datatype Packet = Packet(src: NodeId, dst: NodeId, epoch: nat, body: Body)

  /** The election's variables on one node. */
  datatype Voter = Voter(
    currentEpoch: nat, lastVoteEpoch: nat, configEpoch: nat, votedTime: map<NodeId, int>,
    authTime: int, authCount: nat, authSent: bool, authEpoch: nat, authRank: nat)

  /** What the node knows of the others, and of the time, when it takes a step. */
  datatype View = View(
    me: NodeId, masters: set<NodeId>, serving: set<NodeId>, size: nat, slaveof: map<NodeId, NodeId>,
    failed: set<NodeId>,
    withSlots: set<NodeId>, ownerEpochs: OwnerEpochs, links: seq<NodeId>,
    now: int, timeout: int, staleData: bool, rank: nat, randomDelay: nat, mfEnd: bool, mfCanStart: bool,
    masterConfigEpoch: nat, masterSlots: Bitmap)

  datatype Action = Nothing | AskForVotes | Win

  const FRESH_VOTER := Voter(0, 0, 0, map[], 0, 0, false, 0, 0)

  function Heard(n: Voter, epoch: nat): Voter
  {
    if epoch > n.currentEpoch then n.(currentEpoch := epoch) else n
  }

  function VotedTime(n: Voter, master: NodeId): int
  {
    if master in n.votedTime then n.votedTime[master] else 0
  }

  /** No claimed slot has an owner with a newer configuration than the request's. */
  predicate Current(v: View, claimed: Bitmap, configEpoch: nat)
  {
    forall j: Slot :: Bit(claimed, j) ==> OwnerNotNewer(v, j, configEpoch)
  }

  predicate OwnerNotNewer(v: View, j: Slot, configEpoch: nat)
  {
    v.ownerEpochs[j].None? || v.ownerEpochs[j].value <= configEpoch
  }

  predicate MayRun(v: View, candidate: NodeId, forceAck: bool)
  {
    candidate !in v.masters && candidate in v.slaveof && (v.slaveof[candidate] in v.failed || forceAck)
  }

  /** The vote is granted. */
  predicate Grants(n: Voter, v: View, p: Packet)
    requires p.body.AuthRequest?
  {
    && v.me in v.serving
    && p.epoch >= n.currentEpoch
    && n.lastVoteEpoch != n.currentEpoch
    && MayRun(v, p.src, p.body.forceAck)
    && v.now - VotedTime(n, v.slaveof[p.src]) >= v.timeout * 2
    && Current(v, p.body.claimed, p.body.configEpoch)
  }

  function Voted(n: Voter, v: View, candidate: NodeId): Voter
    requires candidate in v.slaveof
  {
    n.(lastVoteEpoch := n.currentEpoch, votedTime := n.votedTime[v.slaveof[candidate] := v.now])
  }

  /** An acknowledgement counts if a slot-serving master sent it no earlier than this node's election. */
  predicate Counts(n: Voter, v: View, p: Packet)
  {
    p.body.AuthAck? && p.src in v.serving && p.epoch >= n.authEpoch
  }

  /** A packet from a known node. */
  function Received(n: Voter, v: View, p: Packet): (Voter, seq<Packet>)
  {
    var h := Heard(n, p.epoch);
    match p.body
    case Ping => (h, [])
    case AuthAck => (if Counts(h, v, p) then h.(authCount := h.authCount + 1) else h, [])
    case AuthRequest(_, _, _) =>
      if !Grants(h, v, p) then (h, [])
      else (Voted(h, v, p.src), if p.src in v.links then [Packet(v.me, p.src, h.currentEpoch, AuthAck)] else [])
  }

  function AuthTimeout(v: View): int { if v.timeout * 2 < 2000 then 2000 else v.timeout * 2 }

  predicate MayFailOver(v: View)
  {
    && v.me !in v.masters && v.me in v.slaveof
    && (v.slaveof[v.me] in v.failed || (v.mfEnd && v.mfCanStart))
    && v.slaveof[v.me] in v.withSlots
    && (v.staleData ==> v.mfEnd && v.mfCanStart)
  }

  function Rescheduled(n: Voter, v: View): Voter
  {
    n.(authTime := if v.mfEnd then v.now else v.now + 500 + v.randomDelay % 500 + v.rank * 1000,
       authCount := 0, authSent := false, authRank := if v.mfEnd then 0 else v.rank)
  }

  function Delayed(n: Voter, v: View): Voter
  {
    if !n.authSent && !v.mfEnd && v.rank > n.authRank
    then n.(authTime := n.authTime + (v.rank - n.authRank) * 1000, authRank := v.rank) else n
  }

  function Started(n: Voter): Voter
  {
    n.(currentEpoch := n.currentEpoch + 1, authEpoch := n.currentEpoch + 1, authSent := true)
  }

  function Won(n: Voter): Voter
  {
    if n.configEpoch < n.authEpoch then n.(configEpoch := n.authEpoch) else n
  }

  /** The periodic step of a replica. */
  function HandledFailover(n: Voter, v: View): (Voter, Action)
  {
    var age := v.now - n.authTime;
    var d := Delayed(n, v);
    if !MayFailOver(v) then (n, Nothing)
    else if age > AuthTimeout(v) * 2 then (Rescheduled(n, v), Nothing)
    else if v.now < d.authTime || age > AuthTimeout(v) then (d, Nothing)
    else if !d.authSent then (Started(d), AskForVotes)
    else if d.authCount >= v.size / 2 + 1 then (Won(d), Win)
    else (d, Nothing)
  }

  function Requests(epoch: nat, v: View): (r: seq<Packet>)
    ensures |r| == |v.links|
  {
    seq(|v.links|, k requires 0 <= k < |v.links| =>
      Packet(v.me, v.links[k], epoch, AuthRequest(v.masterConfigEpoch, v.masterSlots, v.mfEnd)))
  }

  class ElectionState {
    var currentEpoch: nat
    var lastVoteEpoch: nat
    var configEpoch: nat
    var votedTime: map<NodeId, int>
    var authTime: int
    var authCount: nat
    var authSent: bool
    var authEpoch: nat
    var authRank: nat

    constructor ()
      ensures State() == FRESH_VOTER
    {
      currentEpoch, lastVoteEpoch, configEpoch, votedTime := 0, 0, 0, map[];
      authTime, authCount, authSent, authEpoch, authRank := 0, 0, false, 0, 0;
    }

    ghost function State(): Voter
      reads this
    {
      Voter(currentEpoch, lastVoteEpoch, configEpoch, votedTime, authTime, authCount, authSent, authEpoch, authRank)
    }

    /** Votes for the sender of a request if every condition is met. */
    method SendFailoverAuthIfNeeded(v: View, p: Packet) returns (reply: seq<Packet>)
      requires p.body.AuthRequest?
      modifies this`lastVoteEpoch, this`votedTime
      ensures if old(Grants(State(), v, p))
              then State() == old(Voted(State(), v, p.src)) &&
                   reply == (if p.src in v.links then [Packet(v.me, p.src, currentEpoch, AuthAck)] else [])
              else State() == old(State()) && reply == []
    {
      reply := [];
      if v.me !in v.serving { return; }
      if p.epoch < currentEpoch { return; }
      if lastVoteEpoch == currentEpoch { return; }
      if p.src in v.masters || p.src !in v.slaveof || (v.slaveof[p.src] !in v.failed && !p.body.forceAck) { return; }
      var master := v.slaveof[p.src];
      var voted := if master in votedTime then votedTime[master] else 0;
      if v.now - voted < v.timeout * 2 { return; }
      for j := 0 to CLUSTER_SLOTS
        invariant forall k: Slot :: k < j && Bit(p.body.claimed, k) ==> OwnerNotNewer(v, k, p.body.configEpoch)
      {
        var bit := TestIn(p.body.claimed[j / 8], j % 8);
        if !bit { continue; }
        if v.ownerEpochs[j].None? || v.ownerEpochs[j].value <= p.body.configEpoch { continue; }
        assert !OwnerNotNewer(v, j, p.body.configEpoch);
        return;
      }
      if p.src in v.links { reply := [Packet(v.me, p.src, currentEpoch, AuthAck)]; }
      lastVoteEpoch := currentEpoch;
      votedTime := votedTime[master := v.now];
    }

    method ProcessPacket(v: View, p: Packet) returns (reply: seq<Packet>)
      modifies this
      ensures (State(), reply) == old(Received(State(), v, p))
    {
      reply := [];
      if p.epoch > currentEpoch { currentEpoch := p.epoch; }
      match p.body
      case Ping =>
      case AuthAck =>
        if p.src in v.serving && p.epoch >= authEpoch { authCount := authCount + 1; }
      case AuthRequest(_, _, _) =>
        reply := SendFailoverAuthIfNeeded(v, p);
    }

    method HandleSlaveFailover(v: View) returns (action: Action, requests: seq<Packet>)
      modifies this
      ensures (State(), action) == old(HandledFailover(State(), v))
      ensures requests == if action == AskForVotes then Requests(currentEpoch, v) else []
    {
      action, requests := Nothing, [];
      var authAge := v.now - authTime;
      var manual := v.mfEnd && v.mfCanStart;
      var authTimeout := v.timeout * 2;
      if authTimeout < 2000 { authTimeout := 2000; }
      if v.me in v.masters || v.me !in v.slaveof { return; }
      if v.slaveof[v.me] !in v.failed && !manual { return; }
      if v.slaveof[v.me] !in v.withSlots { return; }
      if v.staleData && !manual { return; }
      if authAge > authTimeout * 2 {
        authTime := v.now + 500 + v.randomDelay % 500;
        authCount, authSent, authRank := 0, false, v.rank;
        authTime := authTime + authRank * 1000;
        if v.mfEnd { authTime, authRank := v.now, 0; }
        return;
      }
      if !authSent && !v.mfEnd && v.rank > authRank {
        authTime := authTime + (v.rank - authRank) * 1000;
        authRank := v.rank;
      }
      if v.now < authTime { return; }
      if authAge > authTimeout { return; }
      if !authSent {
        currentEpoch := currentEpoch + 1;
        authEpoch := currentEpoch;
        action, requests := AskForVotes, Requests(currentEpoch, v);
        authSent := true;
        return;
      }
      if authCount >= v.size / 2 + 1 {
        action := Win;
        if configEpoch < authEpoch { configEpoch := authEpoch; }
      }
    }
  }
}
