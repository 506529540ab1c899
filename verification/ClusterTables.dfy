/** Nodes with their slot bitmaps, slot tables as values, and what packets make of them. */
module ClusterTables {
  import opened ClusterBitmap
  import Order = SourceOrder

  class ClusterNode {
    const name: string
    var isMaster: bool
    var slaveof: ClusterNode?
    var configEpoch: nat
    const slots: array<bv8>
    var numslots: int

    constructor (name: string, isMaster: bool)
      ensures this.name == name
      ensures fresh(slots) && slots.Length == BITMAP_BYTES && (forall j: Slot :: !Bit(slots[..], j))
      ensures this.isMaster == isMaster && slaveof == null && configEpoch == 0 && numslots == 0
    {
      this.name := name;
      this.isMaster, slaveof, configEpoch, numslots := isMaster, null, 0, 0;
      slots := new bv8[BITMAP_BYTES](_ => 0);
    }

    method SetSlotBit(slot: Slot) returns (was: bool)
      requires slots.Length == BITMAP_BYTES
      modifies slots, this`numslots
      ensures was == old(Bit(slots[..], slot)) && numslots == old(numslots) + (if was then 0 else 1)
      ensures forall j: Slot :: Bit(slots[..], j) <==> j == slot || old(Bit(slots[..], j))
    {
      was := BitmapTestBit(slots, slot);
      ghost var before := slots[..];
      BitmapSetBit(slots, slot);
      forall j: Slot { OneBitChanges(before, slot, j); }
      if !was { numslots := numslots + 1; }
    }

    method ClearSlotBit(slot: Slot) returns (was: bool)
      requires slots.Length == BITMAP_BYTES
      modifies slots, this`numslots
      ensures was == old(Bit(slots[..], slot)) && numslots == old(numslots) - (if was then 1 else 0)
      ensures forall j: Slot :: Bit(slots[..], j) <==> j != slot && old(Bit(slots[..], j))
    {
      was := BitmapTestBit(slots, slot);
      ghost var before := slots[..];
      BitmapClearBit(slots, slot);
      forall j: Slot { OneBitChanges(before, slot, j); }
      if was { numslots := numslots - 1; }
    }
  }

  type Table = t: seq<ClusterNode?> | |t| == CLUSTER_SLOTS witness seq(CLUSTER_SLOTS, _ => null)
  /** No slot is being imported. */
  function NoImports(): Table { seq(CLUSTER_SLOTS, _ => null) }

  type EpochMap = map<ClusterNode, nat>

  datatype Role = Role(isMaster: bool, slaveof: ClusterNode?)

  /** What one node knows: slot owners, imports, configuration epochs, and its own role. */
  datatype Picture = Picture(table: Table, importing: Table, epochs: EpochMap, me: ClusterNode, role: Role)

  /** Slots claimed by a node under a configuration epoch. */
  datatype Claim = Claim(sender: ClusterNode, epoch: nat, slots: Bitmap)

  function Max(a: nat, b: nat): nat { if a > b then a else b }

  // Ownership.

  ghost function Owned(table: Table, n: ClusterNode): set<int>
  {
    set j | 0 <= j < |table| && table[j] == n
  }

  lemma OwnedNone(table: Table, n: ClusterNode)
    ensures |Owned(table, n)| == 0 <==> n !in table
  {
    if n in table {
      var j :| 0 <= j < |table| && table[j] == n;
      assert j in Owned(table, n);
    } else {
      assert Owned(table, n) == {};
    }
  }

  lemma OwnedAfterClear(table: Table, j: Slot, n: ClusterNode)
    requires table[j] != null
    ensures |Owned(table[j := null], n)| == |Owned(table, n)| - if n == table[j] then 1 else 0
  {
    assert Owned(table[j := null], n) == Owned(table, n) - {j};
  }

  lemma OwnedAfterBind(table: Table, j: Slot, owner: ClusterNode, n: ClusterNode)
    requires table[j] == null
    ensures |Owned(table[j := owner], n)| == |Owned(table, n)| + if n == owner then 1 else 0
  {
    assert Owned(table[j := owner], n) == if n == owner then Owned(table, n) + {j} else Owned(table, n);
  }

  // Claims.

  /** The slot is claimed under a newer configuration than its owner's, and this node is not importing it. */
  ghost predicate Loses(p: Picture, c: Claim, j: Slot)
  {
    && Bit(c.slots, j) && p.table[j] != c.sender && p.importing[j] == null
    && (p.table[j] == null || (p.table[j] in p.epochs && p.epochs[p.table[j]] < c.epoch))
  }

  /** The slot table after a claim. */
  ghost function Claimed(p: Picture, c: Claim): Table
  {
    if c.sender == p.me then p.table
    else seq(CLUSTER_SLOTS, j requires 0 <= j < CLUSTER_SLOTS => if Loses(p, c, j) then c.sender else p.table[j])
  }

  function Without(table: Table, n: ClusterNode): Table
  {
    seq(CLUSTER_SLOTS, j requires 0 <= j < CLUSTER_SLOTS => if table[j] == n then null else table[j])
  }

  /** What a node knows once it has forgotten another. */
  function Forgotten(p: Picture, n: ClusterNode): Picture
  {
    Picture(Without(p.table, n), Without(p.importing, n), p.epochs - {n}, p.me,
            p.role.(slaveof := if p.role.slaveof == n then null else p.role.slaveof))
  }

  /** The table after a node announced its role and its slots. */
  ghost function Announced(p: Picture, c: Claim, wasMaster: bool, isReplica: bool): Table
  {
    if !isReplica then Claimed(p, c)
    else if !wasMaster then p.table
    else Without(p.table, c.sender)
  }

  /** Whom a claim goes past does not depend on the epoch known for the claiming node itself, nor on roles. */
  lemma ClaimIgnoresSender(p: Picture, q: Picture, c: Claim)
    requires p.table == q.table && p.importing == q.importing && p.me == q.me && p.epochs.Keys == q.epochs.Keys
    requires forall n | n in p.epochs && n != c.sender :: p.epochs[n] == q.epochs[n]
    ensures Claimed(p, c) == Claimed(q, c)
  {
  }

  /** So a claim may as well be heard with the claimed epoch already known. */
  lemma ClaimWithItsEpoch(p: Picture, c: Claim, keyed: set<int>)
    requires c.sender in p.epochs
    ensures var q := p.(epochs := p.epochs[c.sender := c.epoch]);
            && After(q, c) == After(p, c).(epochs := q.epochs)
            && EndOf(q, c) == EndOf(p, c) && Dropped(q, c, keyed) == Dropped(p, c, keyed)
  {
    ClaimIgnoresSender(p, p.(epochs := p.epochs[c.sender := c.epoch]), c);
  }

  /** A claim that repeats the node's own bitmap changes nothing. */
  lemma RepeatedClaim(p: Picture, c: Claim)
    requires forall j: Slot :: p.table[j] == c.sender <==> Bit(c.slots, j)
    ensures Claimed(p, c) == p.table && !ClaimsUnbound(p, c)
  {
  }

  /** Some claimed slot is bound to nobody and not being imported. */
  ghost predicate ClaimsUnbound(p: Picture, c: Claim)
  {
    exists j: Slot :: Bit(c.slots, j) && p.table[j] == null && p.importing[j] == null
  }

  /** The node whose slots this node serves, or stands by for. */
  function CurMaster(p: Picture): ClusterNode?
  {
    if p.role.isMaster then p.me else p.role.slaveof
  }

  /** Every slot of the node this one serves or stands by for went away, at least one of them to the claim. */
  ghost predicate Demoted(p: Picture, c: Claim)
  {
    && CurMaster(p) != null
    && TakenFrom(p.table, Claimed(p, c), CurMaster(p)) && CurMaster(p) !in Claimed(p, c)
  }

  lemma DemotedIff(p: Picture, c: Claim)
    requires CurMaster(p) != null
    ensures Demoted(p, c)
            <==> TakenFrom(p.table, Claimed(p, c), CurMaster(p)) && |Owned(Claimed(p, c), CurMaster(p))| == 0
  {
    OwnedNone(Claimed(p, c), CurMaster(p));
  }

  /** A claim that moves nothing changes nothing. */
  lemma NothingTaken(p: Picture, c: Claim, keyed: set<int>)
    requires Claimed(p, c) == p.table && (c.sender == p.me || !ClaimsUnbound(p, c))
    ensures After(p, c) == p && Dropped(p, c, keyed) == {} && EndOf(p, c) == Returns
  {
  }

  /** How the source's function ends: it may read through a null pointer, or fail an assertion. */
  datatype Ending = Returns | ReadsNull | Asserts

  /** The slot count of a master that is not there is read. */
  ghost predicate LacksMaster(p: Picture, c: Claim)
  {
    c.sender != p.me && CurMaster(p) == null && ClaimsUnbound(p, c)
  }

  /** A node that still serves slots is to follow another. */
  ghost predicate StillServes(p: Picture, c: Claim)
  {
    Demoted(p, c) && p.me in Claimed(p, c)
  }

  ghost function EndOf(p: Picture, c: Claim): Ending
  {
    if LacksMaster(p, c) then ReadsNull else if StillServes(p, c) then Asserts else Returns
  }

  /**
   The assertion fails exactly at a replica that serves a slot the claim does not take, while the claim
   takes slots of its master, and all that it has.
   */
  lemma StillServesIff(p: Picture, c: Claim)
    ensures StillServes(p, c) <==>
              && !p.role.isMaster && p.role.slaveof != null && p.role.slaveof in p.table
              && (forall j: Slot | p.table[j] == p.role.slaveof :: Loses(p, c, j))
              && (exists j: Slot :: p.table[j] == p.me && !Loses(p, c, j)) && c.sender != p.me
  {
    if c.sender != p.me {
      assert forall j: Slot :: Claimed(p, c)[j] == if Loses(p, c, j) then c.sender else p.table[j];
    }
  }

  /** What a node knows after a claim, or when the source fails on it. */
  ghost function After(p: Picture, c: Claim): Picture
  {
    if EndOf(p, c) == Returns && Demoted(p, c)
    then Picture(Claimed(p, c), if p.role.isMaster then NoImports() else p.importing, p.epochs, p.me,
                 Role(false, c.sender))
    else p.(table := Claimed(p, c))
  }

  /** The slots whose keys are deleted: those lost by a node that stays what it was. */
  ghost function Dropped(p: Picture, c: Claim, keyed: set<int>): set<int>
  {
    if EndOf(p, c) == Returns && !Demoted(p, c) then Dirty(p.table, Claimed(p, c), p.me, keyed) else {}
  }

  /** An announcement makes its sender a master, also when that is the node itself. */
  function AsMaster(p: Picture, sender: ClusterNode): Picture
  {
    if sender == p.me && !p.role.isMaster then p.(role := Role(true, null)) else p
  }

  /** What a node knows after another announced its role and its slots. */
  ghost function Heard(p: Picture, c: Claim, wasMaster: bool, isReplica: bool, master: ClusterNode?): Picture
  {
    if !isReplica then After(AsMaster(p, c.sender), c)
    else p.(table := Announced(p, c, wasMaster, isReplica),
            role := if c.sender == p.me then Role(false, if master == null then p.role.slaveof else master) else p.role)
  }

  /** What a node knows after a third node reported a configuration. */
  ghost function Updated(p: Picture, c: Claim): Picture
    requires c.sender in p.epochs
  {
    if p.epochs[c.sender] >= c.epoch then p
    else After(AsMaster(p, c.sender), c).(epochs := p.epochs[c.sender := c.epoch])
  }

  /** Both are masters of one configuration epoch, and this node has the smaller name. */
  predicate Clashes(p: Picture, sender: ClusterNode, senderIsMaster: bool, epoch: nat)
  {
    && p.role.isMaster && senderIsMaster && p.me in p.epochs && sender in p.epochs
    && epoch == p.epochs[p.me] == p.epochs[sender] && Order.Before(p.me.name, sender.name)
  }

  /** A node that changes its role follows a node with slots, and its old master has none. */
  lemma DemotedFollowsAnOwner(p: Picture, c: Claim)
    requires After(p, c).role != p.role
    ensures !After(p, c).role.isMaster && c.sender != p.me
    ensures After(p, c).role.slaveof == c.sender && c.sender in After(p, c).table && CurMaster(p) !in After(p, c).table
  {
    var k :| 0 <= k < CLUSTER_SLOTS && p.table[k] == CurMaster(p) && Claimed(p, c)[k] != CurMaster(p);
    assert Loses(p, c, k) && Claimed(p, c)[k] == c.sender;
  }

  /** A claim binds no slot to this node, and a node that changes its role owns nothing, whatever it owned before. */
  lemma FollowersOwnNothing(p: Picture, c: Claim)
    ensures forall j: Slot | After(p, c).table[j] == p.me :: p.table[j] == p.me
    ensures After(p, c).role != p.role <==> Demoted(p, c) && p.me !in Claimed(p, c)
    ensures After(p, c).role != p.role ==> p.me !in After(p, c).table
  {
    if Demoted(p, c) {
      var k :| 0 <= k < CLUSTER_SLOTS && p.table[k] == CurMaster(p) && Claimed(p, c)[k] != CurMaster(p);
      assert Loses(p, c, k) && c.sender != p.me;
    }
  }

  /** A master that keeps keys only for slots it owns still does so once the keys of lost slots are deleted. */
  lemma KeysFollowSlots(p: Picture, c: Claim, keyed: set<int>)
    requires p.role.isMaster && forall k | k in keyed :: 0 <= k < CLUSTER_SLOTS && p.table[k] == p.me
    ensures After(p, c).role.isMaster ==> forall k | k in keyed - Dropped(p, c, keyed) :: After(p, c).table[k] == p.me
    ensures forall k | k in Dropped(p, c, keyed) :: 0 <= k < CLUSTER_SLOTS && After(p, c).table[k] == c.sender
  {
    forall k | k in Dropped(p, c, keyed)
      ensures 0 <= k < CLUSTER_SLOTS && After(p, c).table[k] == c.sender
    {
      assert p.table[k] == p.me && Claimed(p, c)[k] != p.me;
    }
  }

  // One slot at a time.

  /** The slots below `j` have moved, the others have not. */
  ghost predicate Progress(now: Table, table: Table, goal: Table, j: nat)
  {
    forall k | 0 <= k < |now| :: now[k] == if k < j then goal[k] else table[k]
  }

  lemma ClaimStep(now: Table, p: Picture, c: Claim, goal: Table, j: Slot)
    requires c.sender != p.me && goal == Claimed(p, c) && Progress(now, p.table, goal, j)
    ensures Loses(p.(table := now), c, j) <==> p.table[j] != goal[j]
    ensures p.table[j] != goal[j] ==> goal[j] == c.sender
    ensures now[j] == p.table[j] && Progress(now[j := goal[j]], p.table, goal, j + 1)
  {
  }

  ghost predicate TakenBefore(before: Table, after: Table, j: nat, owner: ClusterNode?)
    requires j <= CLUSTER_SLOTS
  {
    exists k | 0 <= k < j :: before[k] == owner && after[k] != owner
  }

  /** Some slot of `owner` changed hands. */
  ghost predicate TakenFrom(before: Table, after: Table, owner: ClusterNode?)
  {
    TakenBefore(before, after, CLUSTER_SLOTS, owner)
  }

  /** Slots with keys that this node owned and lost, below `j`. */
  ghost function DirtyBefore(before: Table, after: Table, j: nat, me: ClusterNode, keyed: set<int>): set<int>
    requires j <= CLUSTER_SLOTS
  {
    set k | k in keyed && 0 <= k < j && before[k] == me && after[k] != me
  }

  ghost function Dirty(before: Table, after: Table, me: ClusterNode, keyed: set<int>): set<int>
  {
    DirtyBefore(before, after, CLUSTER_SLOTS, me, keyed)
  }

  lemma TakenNext(table: Table, goal: Table, j: Slot, owner: ClusterNode?)
    ensures TakenBefore(table, goal, j + 1, owner)
            <==> TakenBefore(table, goal, j, owner) || (table[j] == owner && goal[j] != owner)
  {
  }

  lemma DirtyNext(table: Table, goal: Table, j: Slot, me: ClusterNode, keyed: set<int>)
    ensures if j in keyed && table[j] == me && goal[j] != me
            then DirtyBefore(table, goal, j + 1, me, keyed) == DirtyBefore(table, goal, j, me, keyed) + {j}
            else DirtyBefore(table, goal, j + 1, me, keyed) == DirtyBefore(table, goal, j, me, keyed)
  {
  }

  /** What the loop over the slots has found below `j`: the new master, and the lost slots with keys. */
  ghost predicate Found(before: Table, after: Table, j: nat, me: ClusterNode, owner: ClusterNode?, sender: ClusterNode,
                        keyed: set<int>, newmaster: ClusterNode?, dirty: set<int>)
    requires j <= CLUSTER_SLOTS
  {
    && newmaster == (if TakenBefore(before, after, j, owner) then sender else null)
    && dirty == DirtyBefore(before, after, j, me, keyed)
  }

  lemma FoundNext(before: Table, after: Table, j: Slot, me: ClusterNode, owner: ClusterNode?, sender: ClusterNode,
                  keyed: set<int>, newmaster: ClusterNode?, dirty: set<int>)
    requires Found(before, after, j, me, owner, sender, keyed, newmaster, dirty)
    ensures var lost := after[j] != before[j];
            Found(before, after, j + 1, me, owner, sender, keyed,
                  if lost && before[j] == owner then sender else newmaster,
                  if lost && before[j] == me && j in keyed then dirty + {j} else dirty)
  {
    TakenNext(before, after, j, owner);
    DirtyNext(before, after, j, me, keyed);
  }

  /** A claim takes slots from nobody exactly when it claims slots that are bound to nobody. */
  lemma TakenFromNobody(p: Picture, c: Claim)
    requires c.sender != p.me
    ensures TakenFrom(p.table, Claimed(p, c), null) <==> ClaimsUnbound(p, c)
  {
    if ClaimsUnbound(p, c) {
      var j: Slot :| Bit(c.slots, j) && p.table[j] == null && p.importing[j] == null;
      assert Loses(p, c, j) && Claimed(p, c)[j] == c.sender;
    }
  }

  // Configuration epochs.

  /** What is known of a sender's configuration never goes back. */
  function Headed(e: EpochMap, sender: ClusterNode, epoch: nat): EpochMap
    requires sender in e
  {
    e[sender := Max(epoch, e[sender])]
  }

  ghost predicate Bounded(e: EpochMap, current: nat)
  {
    forall n | n in e :: e[n] <= current
  }

  lemma HeaderKeepsBound(e: EpochMap, current: nat, sender: ClusterNode, msgEpoch: nat, msgConfigEpoch: nat)
    requires sender in e && msgConfigEpoch <= msgEpoch && Bounded(e, current)
    ensures Bounded(Headed(e, sender, msgConfigEpoch), Max(msgEpoch, current))
  {
  }

  /** A bound slot that changes hands goes to a node whose configuration is strictly newer than its owner's was. */
  ghost predicate MovesUp(t0: Table, e0: EpochMap, t: Table, e: EpochMap)
  {
    forall j | 0 <= j < |t| && t0[j] != null && t[j] != null && t[j] != t0[j] ::
      t0[j] in e0 && t[j] in e && e0[t0[j]] < e[t[j]]
  }

  /** The configuration a slot stays bound under never gets older. */
  ghost predicate NoOlder(t0: Table, e0: EpochMap, t: Table, e: EpochMap)
  {
    forall j | 0 <= j < |t| && t0[j] != null && t[j] != null ::
      t0[j] in e0 && t[j] in e && e0[t0[j]] <= e[t[j]]
  }

  ghost predicate Ages(e0: EpochMap, e: EpochMap)
  {
    forall n | n in e0 :: n in e && e0[n] <= e[n]
  }

  /** Slots are kept, unbound, or rebound to a node that claims them under a newer configuration. */
  ghost predicate Rebinds(t0: Table, e: EpochMap, t: Table, sender: ClusterNode, epoch: nat, me: ClusterNode)
  {
    forall j | 0 <= j < |t| ::
      || t[j] == t0[j] || t[j] == null
      || (t[j] == sender && sender != me && (t0[j] == null || (t0[j] in e && e[t0[j]] < epoch)))
  }

  lemma ClaimRebinds(p: Picture, c: Claim)
    ensures Rebinds(p.table, p.epochs, Claimed(p, c), c.sender, c.epoch, p.me)
  {
  }

  lemma AnnouncementRebinds(p: Picture, c: Claim, wasMaster: bool, isReplica: bool)
    ensures Rebinds(p.table, p.epochs, Announced(p, c, wasMaster, isReplica), c.sender, c.epoch, p.me)
  {
    ClaimRebinds(p, c);
  }

  lemma SlotsMoveUp(t0: Table, e0: EpochMap, e1: EpochMap, t: Table, e: EpochMap, sender: ClusterNode, epoch: nat,
                    me: ClusterNode)
    requires e0.Keys == e1.Keys == e.Keys && sender in e0
    requires forall j | 0 <= j < |t0| :: t0[j] == null || t0[j] in e0
    requires Ages(e0, e1)
    requires forall n | n in e && n != me && n != sender :: e[n] == e1[n]
    requires sender != me ==> e[sender] >= e1[sender] && e[sender] >= epoch
    requires Rebinds(t0, e1, t, sender, epoch, me)
    ensures MovesUp(t0, e0, t, e)
    ensures me in e && e[me] >= e1[me] ==> Ages(e0, e) && NoOlder(t0, e0, t, e)
  {
  }

  /** `p` before the header of the announcement, `q` after it, `e` the epochs in the end. */
  lemma AnnouncementMovesUp(p: Picture, c: Claim, wasMaster: bool, isReplica: bool, master: ClusterNode?, q: Picture,
                            e: EpochMap)
    requires c.sender in p.epochs && p.me in p.epochs
    requires forall j | 0 <= j < |p.table| :: p.table[j] == null || p.table[j] in p.epochs
    requires q == Heard(p.(epochs := Headed(p.epochs, c.sender, c.epoch)), c, wasMaster, isReplica, master)
    requires e == q.epochs || (p.me in e && e == q.epochs[p.me := e[p.me]])
    ensures MovesUp(p.table, p.epochs, q.table, e)
    ensures p.me in e && e[p.me] >= q.epochs[p.me] ==> Ages(p.epochs, e) && NoOlder(p.table, p.epochs, q.table, e)
  {
    var e1 := Headed(p.epochs, c.sender, c.epoch);
    assert q.epochs == e1;
    assert q.table == Announced(p.(epochs := e1), c, wasMaster, isReplica);
    AnnouncementRebinds(p.(epochs := e1), c, wasMaster, isReplica);
    SlotsMoveUp(p.table, p.epochs, e1, q.table, e, c.sender, c.epoch, p.me);
  }

  /** `p` before the header of the packet that reports the claim. */
  lemma UpdateMovesUp(p: Picture, sender: ClusterNode, msgConfigEpoch: nat, c: Claim)
    requires sender in p.epochs && c.sender in p.epochs
    requires forall j | 0 <= j < |p.table| :: p.table[j] == null || p.table[j] in p.epochs
    ensures var q := Updated(p.(epochs := Headed(p.epochs, sender, msgConfigEpoch)), c);
            && Ages(p.epochs, q.epochs)
            && MovesUp(p.table, p.epochs, q.table, q.epochs) && NoOlder(p.table, p.epochs, q.table, q.epochs)
  {
    var known := Headed(p.epochs, sender, msgConfigEpoch);
    var h := p.(epochs := known);
    if known[c.sender] < c.epoch {
      var q := Updated(h, c);
      ClaimRebinds(h, c);
      assert q.table == Claimed(h, c) && q.epochs == known[c.sender := c.epoch];
      SlotsMoveUp(p.table, p.epochs, known, q.table, q.epochs, c.sender, c.epoch, p.me);
    }
  }
}
