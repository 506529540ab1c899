/** Three things the slot bookkeeping of a node does not promise, on concrete packets. */
module ClusterFailures {
  import opened ClusterBitmap
  import opened ClusterSlots
  import opened ClusterTables
  import Order = SourceOrder

  const NO_SLOTS: Bitmap := seq(BITMAP_BYTES, _ => 0)

  /** Slot 0 alone. */
  const FIRST_SLOT: Bitmap := seq(BITMAP_BYTES, i => if i == 0 then 1 else 0)

  /** A node that only knows itself. */
  method Start(name: string) returns (a: Cluster)
    ensures fresh(a) && fresh(a.slots) && fresh(a.importingSlotsFrom) && fresh(a.nodes) && fresh(a.bitmaps)
    ensures a.Valid() && a.nodes == {a.myself} && a.currentEpoch == 0 && a.myself.numslots == 0
    ensures a.Seen() == Picture(NoImports(), NoImports(), map[a.myself := 0], a.myself, Role(true, null))
    ensures a.myself.name == name
  {
    a := new Cluster(name, true);
    assert a.slots[..] == NoImports() && a.importingSlotsFrom[..] == NoImports();
    a.SameEpochs(map[a.myself := 0]);
  }

  /** A node learns of another. */
  method Meet(a: Cluster, name: string, isMaster: bool) returns (n: ClusterNode)
    requires a.Valid() && forall m | m in a.nodes :: m.name != name
    modifies a`nodes, a`bitmaps
    ensures a.Valid() && fresh(n) && fresh(n.slots)
    ensures a.nodes == old(a.nodes) + {n} && a.bitmaps == old(a.bitmaps) + {n.slots}
    ensures n.name == name && n.isMaster == isMaster
    ensures a.Seen() == old(a.Seen()).(epochs := old(a.Epochs())[n := 0])
  {
    ghost var p := a.Seen();
    n := new ClusterNode(name, isMaster);
    assert a.slots[..] == p.table && a.importingSlotsFrom[..] == p.importing;
    var known := a.AddNode(n);
    a.SameEpochs(p.epochs[n := 0]);
  }

  lemma NoSlotsClaimed(p: Picture, sender: ClusterNode, epoch: nat)
    ensures After(p, Claim(sender, epoch, NO_SLOTS)) == p && !ClaimsUnbound(p, Claim(sender, epoch, NO_SLOTS))
  {
    var c := Claim(sender, epoch, NO_SLOTS);
    assert Claimed(p, c) == p.table;
    NothingTaken(p, c, {});
  }

  /**
   How a replica comes to have no master: "a", empty, is told to replicate "h" while "h" is still in
   handshake, which is neither master nor replica; then the handshake times out and "h" is forgotten.
   */
  method Orphan() returns (a: Cluster)
    ensures fresh(a) && fresh(a.slots) && fresh(a.importingSlotsFrom) && fresh(a.nodes) && fresh(a.bitmaps)
    ensures a.Valid() && a.nodes == {a.myself} && a.myself.name == "a"
    ensures a.Seen() == Picture(NoImports(), NoImports(), map[a.myself := 0], a.myself, Role(false, null))
  {
    var h;
    a, h := FollowerOf("h");
    ForgetMaster(a.myself, h);
    a.DelNode(h);
  }

  /** "a", without slots, is told to follow a node in handshake. */
  method FollowerOf(name: string) returns (a: Cluster, h: ClusterNode)
    requires name != "a"
    ensures fresh(a) && fresh(a.slots) && fresh(a.importingSlotsFrom) && fresh(a.nodes) && fresh(a.bitmaps)
    ensures a.Valid() && a.nodes == {a.myself, h} && h != a.myself && a.myself.name == "a"
    ensures a.Seen() == Picture(NoImports(), NoImports(), map[a.myself := 0][h := 0], a.myself, Role(false, h))
  {
    a := Start("a");
    h := Meet(a, name, false);
    a.SetMaster(h);
  }

  lemma ForgetMaster(me: ClusterNode, h: ClusterNode)
    requires me != h
    ensures Forgotten(Picture(NoImports(), NoImports(), map[me := 0][h := 0], me, Role(false, h)), h)
         == Picture(NoImports(), NoImports(), map[me := 0], me, Role(false, null))
  {
    assert Without(NoImports(), h) == NoImports();
    assert map[me := 0][h := 0] - {h} == map[me := 0];
  }

  /** If "b" now claims a slot nobody has, the source reads the slot count of a master that is not there. */
  method ClaimWithoutMaster() returns (ghost p: Picture, c: Claim, end: Ending)
    ensures !p.role.isMaster && p.role.slaveof == null && c.sender != p.me && c.sender in p.epochs
    ensures ClaimsUnbound(p, c) && LacksMaster(p, c) && end == ReadsNull
  {
    var a := Orphan();
    var b := Meet(a, "b", true);
    p, c := a.Seen(), Claim(b, 1, FIRST_SLOT);
    assert ClaimsUnbound(p, c) by { assert Bit(c.slots, 0) && p.table[0] == null && p.importing[0] == null; }
    ghost var h := p.(epochs := Headed(p.epochs, b, 1));
    assert ClaimsUnbound(h, c) && AsMaster(h, b) == h && LacksMaster(h, c);
    var deleted;
    end, deleted := a.ReceivePing(c, 1, false, null, {});
  }

  /** The table of a cluster whose slots 0 and 5 have these owners. */
  ghost function TwoSlots(first: ClusterNode?, fifth: ClusterNode?): Table
  {
    NoImports()[0 := first][5 := fifth]
  }

  lemma FirstSlotOnly()
    ensures forall j: Slot :: Bit(FIRST_SLOT, j) <==> j == 0
  {
  }

  /** The first claim of slot 0, heard by a master without slots. */
  lemma FirstClaim(p: Picture, m: ClusterNode)
    requires p.table == NoImports() == p.importing && p.role == Role(true, null) && m != p.me
    requires p.epochs == map[p.me := 0][m := 0]
    ensures var c, h := Claim(m, 1, FIRST_SLOT), p.(epochs := Headed(p.epochs, m, 1));
            && Heard(h, c, true, false, null) == h.(table := TwoSlots(m, null)) && EndOf(h, c) == Returns
            && h.epochs == map[p.me := 0][m := 1] && AsMaster(h, m) == h
  {
    var c, h := Claim(m, 1, FIRST_SLOT), p.(epochs := Headed(p.epochs, m, 1));
    FirstSlotOnly();
    assert Claimed(h, c) == TwoSlots(m, null);
    assert !Demoted(h, c);
  }

  /** "a" hears that "m" serves slot 0. */
  method HearFirst(a: Cluster, m: ClusterNode)
    requires a.Valid() && m in a.nodes && m != a.myself && m.isMaster && a.currentEpoch == 0
    requires a.Seen() == Picture(NoImports(), NoImports(), map[a.myself := 0][m := 0], a.myself, Role(true, null))
    modifies a`currentEpoch, a.slots, a.importingSlotsFrom, a.nodes`numslots, a.bitmaps
    modifies m`isMaster, m`slaveof, m`configEpoch, a.myself`isMaster, a.myself`slaveof, a.myself`configEpoch
    ensures a.Valid()
    ensures a.Seen() ==
              Picture(TwoSlots(m, null), NoImports(), map[a.myself := 0][m := 1], a.myself, Role(true, null))
  {
    FirstClaim(a.Seen(), m);
    var end, deleted := a.ReceivePing(Claim(m, 1, FIRST_SLOT), 1, false, null, {});
    assert end == Returns;
  }

  /** "a" is told to follow "m", and then to serve slot 5. */
  method FollowAndServe(a: Cluster, m: ClusterNode)
    requires a.Valid() && m in a.nodes && m != a.myself
    requires a.Seen() ==
               Picture(TwoSlots(m, null), NoImports(), map[a.myself := 0][m := 1], a.myself, Role(true, null))
    modifies a.slots, a.importingSlotsFrom, a.myself`numslots, a.myself.slots, a.myself`isMaster, a.myself`slaveof
    ensures a.Valid()
    ensures a.Seen() ==
              Picture(TwoSlots(m, a.myself), NoImports(), map[a.myself := 0][m := 1], a.myself, Role(false, m))
  {
    OwnedNone(a.slots[..], a.myself);
    a.SetMaster(m);
    ghost var p := a.Seen();
    var ok := a.AddSlot(a.myself, 5);
    assert a.importingSlotsFrom[..] == p.importing;
    a.SameEpochs(p.epochs);
  }

  method Neighbours() returns (a: Cluster, m: ClusterNode)
    ensures fresh(a) && fresh(a.slots) && fresh(a.importingSlotsFrom) && fresh(a.nodes) && fresh(a.bitmaps)
    ensures a.Valid() && a.nodes == {a.myself, m} && m != a.myself && a.myself.name == "a" && m.name == "m"
    ensures m.isMaster && a.currentEpoch == 0
    ensures a.Seen() == Picture(NoImports(), NoImports(), map[a.myself := 0][m := 0], a.myself, Role(true, null))
  {
    a := Start("a");
    m := Meet(a, "m", true);
  }

  /** How a replica comes to serve a slot: "a" follows "m", which serves slot 0, and is then given slot 5. */
  method ServingReplica() returns (a: Cluster, m: ClusterNode)
    ensures fresh(a) && fresh(a.slots) && fresh(a.importingSlotsFrom) && fresh(a.nodes) && fresh(a.bitmaps)
    ensures a.Valid() && a.nodes == {a.myself, m} && m != a.myself && a.myself.name == "a" && m.name == "m"
    ensures a.Seen() ==
              Picture(TwoSlots(m, a.myself), NoImports(), map[a.myself := 0][m := 1], a.myself, Role(false, m))
  {
    a, m := Neighbours();
    HearFirst(a, m);
    FollowAndServe(a, m);
  }

  lemma TakenFromMaster(p: Picture, c: Claim, m: ClusterNode)
    requires p.table == TwoSlots(m, p.me) && p.importing == NoImports() && p.role == Role(false, m)
    requires c == Claim(c.sender, 2, FIRST_SLOT) && c.sender != p.me && c.sender != m && m != p.me
    requires p.epochs == map[p.me := 0][m := 1][c.sender := 0]
    ensures var h := p.(epochs := Headed(p.epochs, c.sender, 2));
            StillServes(h, c) && EndOf(h, c) == Asserts && AsMaster(h, c.sender) == h
  {
    var h := p.(epochs := Headed(p.epochs, c.sender, 2));
    FirstSlotOnly();
    assert Loses(h, c, 0) && !Loses(h, c, 5);
    assert h.table[0] == m && h.table[5] == h.me;
    StillServesIff(h, c);
  }

  /** If "b" now takes slot 0 from "m", the source asserts that "a" serves nothing before it makes it follow "b". */
  method ClaimAtServingReplica() returns (ghost p: Picture, c: Claim, end: Ending)
    ensures !p.role.isMaster && p.me in p.table && c.sender != p.me && c.sender in p.epochs
    ensures StillServes(p.(epochs := Headed(p.epochs, c.sender, c.epoch)), c) && end == Asserts
  {
    var a, m := ServingReplica();
    var b := Meet(a, "b", true);
    p, c := a.Seen(), Claim(b, 2, FIRST_SLOT);
    assert p.table[5] == p.me;
    TakenFromMaster(p, c, m);
    end := HearTaken(a, c);
  }

  method HearTaken(a: Cluster, c: Claim) returns (end: Ending)
    requires a.Valid() && c.sender in a.nodes
    requires var h := a.Seen().(epochs := Headed(a.Epochs(), c.sender, c.epoch));
             EndOf(h, c) == Asserts && AsMaster(h, c.sender) == h
    modifies a`currentEpoch, a.slots, a.importingSlotsFrom, a.nodes`numslots, a.bitmaps
    modifies c.sender`isMaster, c.sender`slaveof, c.sender`configEpoch
    modifies a.myself`isMaster, a.myself`slaveof, a.myself`configEpoch
    ensures end == Asserts
  {
    var deleted;
    end, deleted := a.ReceivePing(c, 2, false, null, {});
  }

  /** "a", which knows "b", is told in a packet of epoch 1 that its own configuration epoch is 100. */
  method Overtake(a: Cluster, b: ClusterNode)
    requires a.Valid() && b in a.nodes && b != a.myself && a.currentEpoch == 0
    requires a.Epochs() == map[a.myself := 0][b := 0] && a.myself.isMaster
    modifies a`currentEpoch, a.slots, a.importingSlotsFrom, a.nodes`numslots, a.bitmaps, b`configEpoch
    modifies a.myself`isMaster, a.myself`slaveof, a.myself`configEpoch
    ensures a.Valid() && a.currentEpoch == 1
    ensures a.Seen() == old(a.Seen()).(epochs := map[a.myself := 100, b := 0])
  {
    OwnEpochReported(a.Seen(), b);
    var end, deleted := a.ReceiveUpdate(b, 1, 0, Claim(a.myself, 100, NO_SLOTS), {});
  }

  lemma OwnEpochReported(p: Picture, b: ClusterNode)
    requires p.epochs == map[p.me := 0][b := 0] && p.me != b && p.role.isMaster
    ensures var h := p.(epochs := Headed(p.epochs, b, 0));
            Updated(h, Claim(p.me, 100, NO_SLOTS)) == p.(epochs := map[p.me := 100, b := 0])
  {
    assert Headed(p.epochs, b, 0) == p.epochs;
    NoSlotsClaimed(p, p.me, 100);
    assert p.epochs[p.me := 100] == map[p.me := 100, b := 0];
  }

  lemma SameEpochAnnounced(p: Picture, b: ClusterNode)
    requires p.epochs == map[p.me := 100, b := 0] && p.me != b && p.role.isMaster && p.me.name == "a" && b.name == "b"
    ensures var h := p.(epochs := Headed(p.epochs, b, 100));
            Heard(h, Claim(b, 100, NO_SLOTS), true, false, null) == h && Clashes(h, b, true, 100)
  {
    NoSlotsClaimed(p.(epochs := Headed(p.epochs, b, 100)), b, 100);
    assert Order.Before("a", "b");
  }

  /** Now "b" announces 100 too; "a" has the smaller name and moves to the epoch after the current one, 2. */
  method EpochFalls() returns (before: nat, after: nat)
    ensures before == 100 && after == 2
  {
    var a := Start("a");
    var b := Meet(a, "b", true);
    Overtake(a, b);
    before := a.myself.configEpoch;
    SameEpochAnnounced(a.Seen(), b);
    var end, deleted := a.ReceivePing(Claim(b, 100, NO_SLOTS), 1, false, null, {});
    after := a.myself.configEpoch;
  }
}
