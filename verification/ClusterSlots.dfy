/** One node's view of the cluster: who owns which slot, in the slot table and in each node's bitmap. */
module ClusterSlots {
  import opened ClusterBitmap
  import opened ClusterTables
  import Order = SourceOrder

  class Cluster {
    const slots: array<ClusterNode?>
    const importingSlotsFrom: array<ClusterNode?>
    const myself: ClusterNode
    var nodes: set<ClusterNode>
    ghost var bitmaps: set<array<bv8>>
    var currentEpoch: nat

    constructor (name: string, isMaster: bool)
      ensures Valid() && EpochsBounded() && currentEpoch == 0
      ensures fresh(slots) && fresh(importingSlotsFrom) && fresh(nodes) && fresh(bitmaps)
      ensures nodes == {myself} && myself.name == name && myself.isMaster == isMaster
      ensures myself.slaveof == null && myself.configEpoch == 0 && myself.numslots == 0
      ensures forall j: Slot :: slots[j] == null && importingSlotsFrom[j] == null
    {
      var me := new ClusterNode(name, isMaster);
      myself := me;
      nodes, bitmaps, currentEpoch := {me}, {me.slots}, 0;
      slots := new ClusterNode?[CLUSTER_SLOTS](_ => null);
      importingSlotsFrom := new ClusterNode?[CLUSTER_SLOTS](_ => null);
      new;
      assert Owned(slots[..], myself) == {};
    }

    /** The sizes and the separation of the arrays, which no operation changes. */
    ghost predicate Shaped()
      reads this
    {
      && slots.Length == CLUSTER_SLOTS && importingSlotsFrom.Length == CLUSTER_SLOTS && slots != importingSlotsFrom
      && myself in nodes
      && (forall n | n in nodes :: n.slots in bitmaps && n.slots.Length == BITMAP_BYTES)
      && (forall m, n | m in nodes && n in nodes && m != n :: m.slots != n.slots)
      && (forall b | b in bitmaps :: b as object != importingSlotsFrom)
    }

    /** A slot is bound to a node exactly when its bit is set in the node's bitmap, and numslots counts the bits. */
    ghost predicate Valid()
      reads this, slots, nodes, bitmaps
    {
      && Shaped()
      && (forall j: Slot :: slots[j] == null || slots[j] in nodes)
      && (forall n, j: Slot | n in nodes :: slots[j] == n <==> Bit(n.slots[..], j))
      && (forall n | n in nodes :: n.numslots == |Owned(slots[..], n)|)
      && (forall n | n in nodes :: n.slaveof == null || n.slaveof in nodes)
    }

    /** No node's configuration is newer than the epoch this node is in. */
    ghost predicate EpochsBounded()
      reads this, nodes
    {
      forall n | n in nodes :: n.configEpoch <= currentEpoch
    }

    /** The configuration epoch of every known node. */
    ghost function Epochs(): (e: EpochMap)
      reads this`nodes, nodes`configEpoch
      ensures e.Keys == nodes
    {
      map n | n in nodes :: n.configEpoch
    }

    lemma SameEpochs(before: EpochMap)
      requires before.Keys == nodes && forall n | n in nodes :: n.configEpoch == before[n]
      ensures Epochs() == before
    {
    }

    lemma BoundedIsSeen()
      ensures EpochsBounded() <==> Bounded(Epochs(), currentEpoch)
    {
      assert forall n | n in nodes :: Epochs()[n] == n.configEpoch;
    }

    /** What this node knows, as a value. */
    ghost function Seen(): Picture
      requires Shaped()
      reads this, slots, importingSlotsFrom, nodes`configEpoch, myself
    {
      Picture(slots[..], importingSlotsFrom[..], Epochs(), myself, Role(myself.isMaster, myself.slaveof))
    }

    method SetConfigEpoch(n: ClusterNode, epoch: nat)
      requires Valid() && n in nodes
      modifies n`configEpoch
      ensures Valid() && n.configEpoch == epoch
      ensures Seen() == old(Seen()).(epochs := old(Epochs())[n := epoch])
    {
      ghost var table, importing, epochs := slots[..], importingSlotsFrom[..], Epochs();
      n.configEpoch := epoch;
      assert slots[..] == table && importingSlotsFrom[..] == importing;
      assert Epochs() == epochs[n := epoch];
    }

    /** Enters a node without slots, unless its name is taken. */
    method AddNode(node: ClusterNode) returns (ok: bool)
      requires Valid() && node !in nodes
      requires node.slots.Length == BITMAP_BYTES && node.slots !in bitmaps && forall j: Slot :: !Bit(node.slots[..], j)
      requires node.numslots == 0 && node.slaveof == null
      modifies this`nodes, this`bitmaps
      ensures Valid()
      ensures ok <==> forall n | n in old(nodes) :: n.name != node.name
      ensures nodes == if ok then old(nodes) + {node} else old(nodes)
      ensures bitmaps == if ok then old(bitmaps) + {node.slots} else old(bitmaps)
    {
      if n :| n in nodes && n.name == node.name { return false; }
      OwnedNone(slots[..], node);
      nodes, bitmaps := nodes + {node}, bitmaps + {node.slots};
      return true;
    }

    /** Binds an unbound slot. */
    method AddSlot(n: ClusterNode, slot: Slot) returns (ok: bool)
      requires Valid() && n in nodes
      modifies slots, n`numslots, n.slots
      ensures Valid()
      ensures ok <==> old(slots[slot]) == null
      ensures slots[..] == if ok then old(slots[..])[slot := n] else old(slots[..])
    {
      if slots[slot] != null { return false; }
      ghost var table := slots[..];
      var _ := n.SetSlotBit(slot);
      slots[slot] := n;
      forall m | m in nodes { OwnedAfterBind(table, slot, n, m); }
      assert slots[..] == table[slot := n];
      return true;
    }

    /** Unbinds a slot. The bit of its owner was set, as the source asserts. */
    method DelSlot(slot: Slot) returns (ok: bool)
      requires Valid()
      modifies slots, nodes`numslots, bitmaps
      ensures Valid()
      ensures ok <==> old(slots[slot]) != null
      ensures slots[..] == old(slots[..])[slot := null]
    {
      var n := slots[slot];
      if n == null { return false; }
      ghost var table := slots[..];
      var was := n.ClearSlotBit(slot);
      assert was;
      slots[slot] := null;
      forall m | m in nodes { OwnedAfterClear(table, slot, m); }
      assert slots[..] == table[slot := null];
      return true;
    }

    /** Unbinds every slot of a node. */
    method DelNodeSlots(node: ClusterNode)
      requires Valid() && node in nodes
      modifies slots, nodes`numslots, bitmaps
      ensures Valid()
      ensures forall j: Slot :: slots[j] == if old(slots[j]) == node then null else old(slots[j])
    {
      for j := 0 to CLUSTER_SLOTS
        invariant Valid()
        invariant forall k: Slot :: slots[k] == if k < j && old(slots[k]) == node then null else old(slots[k])
      {
        var bit := BitmapTestBit(node.slots, j);
        if bit { var _ := DelSlot(j); }
      }
    }

    method SetNodeAsMaster(n: ClusterNode)
      requires Valid() && n in nodes
      modifies n`isMaster, n`slaveof
      ensures Valid() && n.isMaster
      ensures n.slaveof == if old(n.isMaster) then old(n.slaveof) else null
      ensures Seen() == AsMaster(old(Seen()), n)
    {
      ghost var table, importing := slots[..], importingSlotsFrom[..];
      if n.isMaster { return; }
      n.isMaster := true;
      n.slaveof := null;
      assert slots[..] == table && importingSlotsFrom[..] == importing;
    }

    /** Turns this node into a replica of another; the source asserts both preconditions. */
    method SetMaster(n: ClusterNode)
      requires Valid() && n in nodes
      requires n != myself && myself.numslots == 0
      modifies myself`isMaster, myself`slaveof, importingSlotsFrom
      ensures Valid() && !myself.isMaster && myself.slaveof == n
      ensures var closed := if old(myself.isMaster) then NoImports() else old(importingSlotsFrom[..]);
              Seen() == old(Seen()).(importing := closed, role := Role(false, n))
    {
      if myself.isMaster {
        myself.isMaster := false;
        CloseAllSlots();
      }
      myself.slaveof := n;
    }

    method CloseAllSlots()
      requires Shaped()
      modifies importingSlotsFrom
      ensures importingSlotsFrom[..] == NoImports() && slots[..] == old(slots[..])
    {
      for j := 0 to CLUSTER_SLOTS
        invariant slots[..] == old(slots[..]) && forall k: Slot | k < j :: importingSlotsFrom[k] == null
      {
        importingSlotsFrom[j] := null;
      }
    }

    /** Moves a slot to another node, whoever had it. */
    method Rebind(slot: Slot, n: ClusterNode)
      requires Valid() && n in nodes
      modifies slots, nodes`numslots, bitmaps
      ensures Valid()
      ensures slots[..] == old(slots[..])[slot := n]
    {
      var _ := DelSlot(slot);
      var _ := AddSlot(n, slot);
    }

    /** Rebinds one slot if it is claimed under a newer configuration, and says whose it was. */
    method ClaimSlot(j: Slot, c: Claim) returns (lost: bool, owner: ClusterNode?)
      requires Valid() && c.sender in nodes && c.sender != myself
      modifies slots, nodes`numslots, bitmaps
      ensures Valid() && owner == old(slots[j])
      ensures lost <==> Loses(old(Seen()), c, j)
      ensures Seen() == old(Seen()).(table := if lost then old(slots[..])[j := c.sender] else old(slots[..]))
    {
      ghost var p := Seen();
      owner := slots[j];
      var bit := TestIn(c.slots[j / 8], j % 8);
      lost := bit && owner != c.sender && importingSlotsFrom[j] == null
              && (owner == null || owner.configEpoch < c.epoch);
      assert lost <==> Loses(p, c, j);
      if lost { Rebind(j, c.sender); }
      assert importingSlotsFrom[..] == p.importing;
      SameEpochs(p.epochs);
    }

    /** One round of the loop over the slots. */
    method ClaimNext(j: Slot, c: Claim, ghost p: Picture, ghost goal: Table) returns (lost: bool, owner: ClusterNode?)
      requires Valid() && c.sender in nodes && c.sender != myself
      requires goal == Claimed(p, c) && Seen() == p.(table := slots[..]) && Progress(slots[..], p.table, goal, j)
      modifies slots, nodes`numslots, bitmaps
      ensures Valid()
      ensures Seen() == p.(table := slots[..]) && Progress(slots[..], p.table, goal, j + 1)
      ensures owner == p.table[j] && (lost <==> goal[j] != owner)
    {
      ghost var now := slots[..];
      ClaimStep(now, p, c, goal, j);
      lost, owner := ClaimSlot(j, c);
      assert slots[..] == now[j := goal[j]];
    }

    /** The loop over the claimed slots: did a slot of `curmaster` change hands, and which lost slots have keys? */
    method ClaimSlots(c: Claim, curmaster: ClusterNode?, keyed: set<int>)
      returns (newmaster: ClusterNode?, dirty: set<int>)
      requires Valid() && c.sender in nodes && c.sender != myself
      modifies slots, nodes`numslots, bitmaps
      ensures Valid()
      ensures Seen() == old(Seen()).(table := Claimed(old(Seen()), c))
      ensures newmaster == if TakenFrom(old(slots[..]), slots[..], curmaster) then c.sender else null
      ensures dirty == Dirty(old(slots[..]), slots[..], myself, keyed)
    {
      newmaster, dirty := null, {};
      ghost var p := Seen();
      ghost var goal := Claimed(p, c);
      for j := 0 to CLUSTER_SLOTS
        invariant Valid()
        invariant Seen() == p.(table := slots[..]) && Progress(slots[..], p.table, goal, j)
        invariant Found(p.table, goal, j, myself, curmaster, c.sender, keyed, newmaster, dirty)
      {
        FoundNext(p.table, goal, j, myself, curmaster, c.sender, keyed, newmaster, dirty);
        var lost, owner := ClaimNext(j, c, p, goal);
        if lost && owner == myself && j in keyed { dirty := dirty + {j}; }
        if lost && owner == curmaster { newmaster := c.sender; }
      }
      assert slots[..] == goal;
    }

    /**
     Takes over the slots a node claims under an epoch. Whoever served, or stood by for, a node that
     lost its last slot this way follows the new owner; whoever keeps its role deletes the keys of the
     slots it lost. `end` says whether the source gets that far: it may read the slot count of a master
     that is not there, or assert that a node serves no slots that still does.
     */
    method UpdateSlotsConfigWith(c: Claim, keyed: set<int>) returns (end: Ending, deleted: set<int>)
      requires Valid() && c.sender in nodes
      modifies slots, nodes`numslots, bitmaps, myself`isMaster, myself`slaveof, importingSlotsFrom
      ensures Valid()
      ensures Seen() == After(old(Seen()), c)
      ensures end == EndOf(old(Seen()), c)
      ensures deleted == Dropped(old(Seen()), c, keyed)
    {
      ghost var p := Seen();
      var curmaster := if myself.isMaster then myself else myself.slaveof;
      if c.sender == myself {
        NothingTaken(p, c, keyed);
        return Returns, {};
      }
      TakenFromNobody(p, c);
      if curmaster != null { DemotedIff(p, c); }
      var newmaster, dirty := ClaimSlots(c, curmaster, keyed);
      if newmaster != null && curmaster == null { return ReadsNull, {}; }
      if newmaster != null && curmaster.numslots == 0 {
        OwnedNone(slots[..], myself);
        if myself.numslots != 0 { return Asserts, {}; }
        SetMaster(c.sender);
        return Returns, {};
      }
      end, deleted := Returns, dirty;
    }

    /** A replica that won its election becomes a master with exactly its old master's slots. */
    method FailoverReplaceYourMaster()
      requires Valid()
      modifies slots, nodes`numslots, bitmaps, myself`isMaster, myself`slaveof
      ensures Valid()
      ensures var oldmaster := old(myself.slaveof);
              if old(myself.isMaster) || oldmaster == null
              then slots[..] == old(slots[..]) && myself.isMaster == old(myself.isMaster)
              else myself.isMaster && myself.slaveof == null && forall j: Slot ::
                     slots[j] == if old(slots[j]) == oldmaster then myself else old(slots[j])
    {
      var oldmaster := myself.slaveof;
      if myself.isMaster || oldmaster == null { return; }
      SetNodeAsMaster(myself);
      TakeSlotsOf(oldmaster);
    }

    method TakeSlotsOf(oldmaster: ClusterNode)
      requires Valid() && myself.isMaster && oldmaster in nodes
      modifies slots, nodes`numslots, bitmaps
      ensures Valid()
      ensures forall j: Slot :: slots[j] == if old(slots[j]) == oldmaster then myself else old(slots[j])
    {
      for j := 0 to CLUSTER_SLOTS
        invariant Valid()
        invariant forall k: Slot :: slots[k] == if k < j && old(slots[k]) == oldmaster then myself else old(slots[k])
      {
        var bit := BitmapTestBit(oldmaster.slots, j);
        if bit { Rebind(j, myself); }
      }
    }

    /** Forgets a node: its slots become unbound and no node replicates it any more. */
    method DelNode(node: ClusterNode)
      requires Valid() && node in nodes && node != myself
      modifies this`nodes, slots, importingSlotsFrom, nodes`numslots, nodes`slaveof, bitmaps
      ensures Valid()
      ensures nodes == old(nodes) - {node} && Seen() == Forgotten(old(Seen()), node)
      ensures forall n | n in nodes :: n.slaveof == if old(n.slaveof) == node then null else old(n.slaveof)
    {
      ReleaseNode(node);
      DetachReplicas(node);
      DropNode(node);
    }

    method DropNode(node: ClusterNode)
      requires Valid() && node in nodes && node != myself && node !in slots[..]
      requires forall n | n in nodes :: n.slaveof != node
      modifies this`nodes
      ensures Valid()
      ensures nodes == old(nodes) - {node} && Seen() == old(Seen()).(epochs := old(Epochs()) - {node})
    {
      ghost var epochs := Epochs();
      nodes := nodes - {node};
      SameEpochs(epochs - {node});
    }

    method DetachReplicas(node: ClusterNode)
      requires Valid()
      modifies nodes`slaveof
      ensures Valid()
      ensures forall n | n in nodes :: n.slaveof == if old(n.slaveof) == node then null else old(n.slaveof)
      ensures Seen() == old(Seen()).(role := Role(myself.isMaster, myself.slaveof))
    {
      ghost var p := Seen();
      forall n | n in nodes && n.slaveof == node { n.slaveof := null; }
      assert slots[..] == p.table && importingSlotsFrom[..] == p.importing;
      SameEpochs(p.epochs);
    }

    method ReleaseSlot(node: ClusterNode, j: Slot)
      requires Valid()
      modifies slots, importingSlotsFrom, nodes`numslots, bitmaps
      ensures Valid()
      ensures slots[..] == old(slots[..])[j := if old(slots[j]) == node then null else old(slots[j])]
      ensures var was := old(importingSlotsFrom[j]);
              importingSlotsFrom[..] == old(importingSlotsFrom[..])[j := if was == node then null else was]
    {
      ghost var table := slots[..];
      if importingSlotsFrom[j] == node { importingSlotsFrom[j] := null; }
      assert slots[..] == table;
      if slots[j] == node { var _ := DelSlot(j); }
    }

    method ReleaseNode(node: ClusterNode)
      requires Valid() && node in nodes && node != myself
      modifies slots, importingSlotsFrom, nodes`numslots, bitmaps
      ensures Valid()
      ensures var p := old(Seen());
              Seen() == p.(table := Without(p.table, node), importing := Without(p.importing, node))
    {
      ghost var table, importing, epochs := slots[..], importingSlotsFrom[..], Epochs();
      ghost var table1, importing1 := Without(table, node), Without(importing, node);
      for j := 0 to CLUSTER_SLOTS
        invariant Valid()
        invariant Progress(slots[..], table, table1, j) && Progress(importingSlotsFrom[..], importing, importing1, j)
      {
        ReleaseSlot(node, j);
      }
      assert slots[..] == table1 && importingSlotsFrom[..] == importing1;
      SameEpochs(epochs);
    }

    /** Of two masters with one configuration epoch, the one with the smaller name takes a new epoch. */
    method HandleConfigEpochCollision(sender: ClusterNode)
      requires Valid() && sender in nodes
      modifies this`currentEpoch, myself`configEpoch
      ensures Valid()
      ensures var moves := old(sender.configEpoch == myself.configEpoch) && sender.isMaster && myself.isMaster
                           && Order.Before(myself.name, sender.name);
              && currentEpoch == old(currentEpoch) + (if moves then 1 else 0)
              && Seen() == if moves then old(Seen()).(epochs := old(Epochs())[myself := currentEpoch]) else old(Seen())
    {
      if sender.configEpoch != myself.configEpoch || !sender.isMaster || !myself.isMaster { return; }
      if !Order.Before(myself.name, sender.name) { return; }
      currentEpoch := currentEpoch + 1;
      SetConfigEpoch(myself, currentEpoch);
    }

    /** The sender announces itself as a replica: it loses its slots and follows its master. */
    method SwitchToReplica(sender: ClusterNode, master: ClusterNode?)
      requires Valid() && sender in nodes && (master != null ==> master in nodes)
      modifies slots, nodes`numslots, bitmaps, sender`isMaster, sender`slaveof
      ensures Valid() && !sender.isMaster
      ensures sender.slaveof == if master == null then old(sender.slaveof) else master
      ensures forall j: Slot ::
                slots[j] == if old(sender.isMaster) && old(slots[j]) == sender then null else old(slots[j])
    {
      if sender.isMaster {
        DelNodeSlots(sender);
        assert Owned(slots[..], sender) == {};
        sender.isMaster := false;
      }
      if master != null && sender.slaveof != master { sender.slaveof := master; }
    }

    /** What every packet's header brings: the sender's epochs. */
    method SeeHeader(sender: ClusterNode, msgEpoch: nat, msgConfigEpoch: nat)
      requires Valid() && sender in nodes
      modifies this`currentEpoch, sender`configEpoch
      ensures Valid()
      ensures currentEpoch == Max(msgEpoch, old(currentEpoch))
      ensures Seen() == old(Seen()).(epochs := Headed(old(Epochs()), sender, msgConfigEpoch))
      ensures old(EpochsBounded()) && msgConfigEpoch <= msgEpoch ==> EpochsBounded()
    {
      if EpochsBounded() && msgConfigEpoch <= msgEpoch {
        HeaderKeepsBound(Epochs(), currentEpoch, sender, msgEpoch, msgConfigEpoch);
      }
      RaiseEpochs(sender, msgEpoch, msgConfigEpoch);
      BoundedIsSeen();
    }

    method RaiseEpochs(sender: ClusterNode, msgEpoch: nat, msgConfigEpoch: nat)
      requires Valid() && sender in nodes
      modifies this`currentEpoch, sender`configEpoch
      ensures Valid()
      ensures currentEpoch == Max(msgEpoch, old(currentEpoch))
      ensures Seen() == old(Seen()).(epochs := Headed(old(Epochs()), sender, msgConfigEpoch))
    {
      if msgEpoch > currentEpoch { currentEpoch := msgEpoch; }
      if msgConfigEpoch > sender.configEpoch { SetConfigEpoch(sender, msgConfigEpoch); }
    }

    /** Role and slots as the sender announces them. */
    method TakeOver(c: Claim, isReplica: bool, master: ClusterNode?, keyed: set<int>)
      returns (end: Ending, deleted: set<int>)
      requires Valid() && c.sender in nodes && (master != null ==> master in nodes)
      modifies slots, importingSlotsFrom, nodes`numslots, bitmaps
      modifies c.sender`isMaster, c.sender`slaveof, myself`isMaster, myself`slaveof
      ensures Valid()
      ensures Seen() == Heard(old(Seen()), c, old(c.sender.isMaster), isReplica, master)
      ensures end == if isReplica then Returns else EndOf(AsMaster(old(Seen()), c.sender), c)
      ensures deleted == if isReplica then {} else Dropped(AsMaster(old(Seen()), c.sender), c, keyed)
      ensures c.sender != myself ==> c.sender.isMaster == !isReplica
    {
      if isReplica {
        AnnounceReplica(c, master);
        end, deleted := Returns, {};
      } else {
        end, deleted := AnnounceMaster(c, keyed);
      }
    }

    method AnnounceReplica(c: Claim, master: ClusterNode?)
      requires Valid() && c.sender in nodes && (master != null ==> master in nodes)
      modifies slots, nodes`numslots, bitmaps, c.sender`isMaster, c.sender`slaveof
      ensures Valid() && !c.sender.isMaster
      ensures Seen() == Heard(old(Seen()), c, old(c.sender.isMaster), true, master)
    {
      ghost var p, wasMaster := Seen(), c.sender.isMaster;
      SwitchToReplica(c.sender, master);
      assert slots[..] == Announced(p, c, wasMaster, true);
      assert importingSlotsFrom[..] == p.importing;
      SameEpochs(p.epochs);
    }

    method AnnounceMaster(c: Claim, keyed: set<int>) returns (end: Ending, deleted: set<int>)
      requires Valid() && c.sender in nodes
      modifies slots, importingSlotsFrom, nodes`numslots, bitmaps
      modifies c.sender`isMaster, c.sender`slaveof, myself`isMaster, myself`slaveof
      ensures Valid()
      ensures Seen() == After(AsMaster(old(Seen()), c.sender), c)
      ensures end == EndOf(AsMaster(old(Seen()), c.sender), c)
      ensures deleted == Dropped(AsMaster(old(Seen()), c.sender), c, keyed)
      ensures c.sender != myself ==> c.sender.isMaster
    {
      ghost var p := AsMaster(Seen(), c.sender);
      SetNodeAsMaster(c.sender);
      assert Seen() == p;
      if c.sender.slots[..] == c.slots {
        RepeatedClaim(p, c);
        NothingTaken(p, c, keyed);
        return Returns, {};
      }
      end, deleted := UpdateSlotsConfigWith(c, keyed);
    }

    /** Header, role and slots of an announcement. */
    method Hear(c: Claim, msgEpoch: nat, isReplica: bool, master: ClusterNode?, keyed: set<int>)
      returns (end: Ending, deleted: set<int>)
      requires Valid() && c.sender in nodes && (master != null ==> master in nodes)
      modifies this`currentEpoch, slots, importingSlotsFrom, nodes`numslots, bitmaps
      modifies c.sender`isMaster, c.sender`slaveof, c.sender`configEpoch, myself`isMaster, myself`slaveof
      ensures Valid() && currentEpoch == Max(msgEpoch, old(currentEpoch))
      ensures var p := old(Seen()).(epochs := Headed(old(Epochs()), c.sender, c.epoch));
              && Seen() == Heard(p, c, old(c.sender.isMaster), isReplica, master)
              && end == (if isReplica then Returns else EndOf(AsMaster(p, c.sender), c))
              && deleted == if isReplica then {} else Dropped(AsMaster(p, c.sender), c, keyed)
      ensures c.sender != myself ==> c.sender.isMaster == !isReplica
      ensures old(EpochsBounded()) && c.epoch <= msgEpoch ==> EpochsBounded()
    {
      SeeHeader(c.sender, msgEpoch, c.epoch);
      ghost var epochs := Epochs();
      end, deleted := TakeOver(c, isReplica, master, keyed);
      assert Epochs() == epochs;
      BoundedIsSeen();
    }

    /** A packet that carries this node's own configuration epoch may move it to a new one. */
    method SettleClash(sender: ClusterNode, msgConfigEpoch: nat)
      requires Valid() && sender in nodes
      modifies this`currentEpoch, myself`configEpoch
      ensures Valid()
      ensures var clash := Clashes(old(Seen()), sender, sender.isMaster, msgConfigEpoch);
              && currentEpoch == old(currentEpoch) + (if clash then 1 else 0)
              && Seen() == if clash then old(Seen()).(epochs := old(Epochs())[myself := currentEpoch]) else old(Seen())
      ensures myself.configEpoch < old(myself.configEpoch) <==>
                && Clashes(old(Seen()), sender, sender.isMaster, msgConfigEpoch)
                && old(currentEpoch) + 1 < old(myself.configEpoch)
      ensures old(EpochsBounded()) ==> EpochsBounded()
    {
      if myself.isMaster && sender.isMaster && msgConfigEpoch == myself.configEpoch {
        HandleConfigEpochCollision(sender);
      }
    }

    /** An announcement, and the clash of configuration epochs it may bring. */
    method HearOut(c: Claim, msgEpoch: nat, isReplica: bool, master: ClusterNode?, keyed: set<int>)
      returns (end: Ending, deleted: set<int>)
      requires Valid() && c.sender in nodes && (master != null ==> master in nodes)
      modifies this`currentEpoch, slots, importingSlotsFrom, nodes`numslots, bitmaps
      modifies c.sender`isMaster, c.sender`slaveof, c.sender`configEpoch
      modifies myself`isMaster, myself`slaveof, myself`configEpoch
      ensures Valid()
      ensures var p := old(Seen()).(epochs := Headed(old(Epochs()), c.sender, c.epoch));
              && end == (if isReplica then Returns else EndOf(AsMaster(p, c.sender), c))
              && deleted == (if isReplica then {} else Dropped(AsMaster(p, c.sender), c, keyed))
              && Announces(p, old(currentEpoch), c, msgEpoch, old(c.sender.isMaster), isReplica, master, end)
      ensures c.sender != myself ==> c.sender.isMaster == !isReplica
      ensures old(EpochsBounded()) && c.epoch <= msgEpoch ==> EpochsBounded()
    {
      end, deleted := Hear(c, msgEpoch, isReplica, master, keyed);
      if end == Returns { SettleClash(c.sender, c.epoch); }
    }

    /** What is known and which epoch it is after an announcement, `p` being what was known after its header. */
    ghost predicate Announces(p: Picture, current: nat, c: Claim, msgEpoch: nat, wasMaster: bool, isReplica: bool,
                              master: ClusterNode?, end: Ending)
      requires Shaped()
      reads this, slots, importingSlotsFrom, nodes`configEpoch, myself, c.sender
    {
      var q := Heard(p, c, wasMaster, isReplica, master);
      var clash := end == Returns && Clashes(q, c.sender, c.sender.isMaster, c.epoch);
      && currentEpoch == Max(msgEpoch, current) + (if clash then 1 else 0)
      && Seen() == if clash then q.(epochs := q.epochs[myself := currentEpoch]) else q
    }

    /**
     A PING, PONG or MEET from a known node: its epochs, its role, its slots, and a clash of
     configuration epochs. Bound slots only ever move to a newer configuration, and when the packet's
     configuration epoch does not exceed its current epoch, no bound slot's configuration gets older.
     */
    method ReceivePing(c: Claim, msgEpoch: nat, isReplica: bool, master: ClusterNode?, keyed: set<int>)
      returns (end: Ending, deleted: set<int>)
      requires Valid() && c.sender in nodes && (master != null ==> master in nodes)
      modifies this`currentEpoch, slots, importingSlotsFrom, nodes`numslots, bitmaps
      modifies c.sender`isMaster, c.sender`slaveof, c.sender`configEpoch
      modifies myself`isMaster, myself`slaveof, myself`configEpoch
      ensures Valid()
      ensures var p := old(Seen()).(epochs := Headed(old(Epochs()), c.sender, c.epoch));
              && end == (if isReplica then Returns else EndOf(AsMaster(p, c.sender), c))
              && deleted == (if isReplica then {} else Dropped(AsMaster(p, c.sender), c, keyed))
              && Announces(p, old(currentEpoch), c, msgEpoch, old(c.sender.isMaster), isReplica, master, end)
      ensures c.sender != myself ==> c.sender.isMaster == !isReplica
      ensures MovesUp(old(slots[..]), old(Epochs()), slots[..], Epochs())
      ensures old(EpochsBounded()) && c.epoch <= msgEpoch ==>
                && EpochsBounded() && Ages(old(Epochs()), Epochs())
                && NoOlder(old(slots[..]), old(Epochs()), slots[..], Epochs())
    {
      ghost var p, wasMaster, bounded := Seen(), c.sender.isMaster, EpochsBounded();
      assert bounded ==> Bounded(p.epochs, currentEpoch);
      end, deleted := HearOut(c, msgEpoch, isReplica, master, keyed);
      ghost var h := p.(epochs := Headed(p.epochs, c.sender, c.epoch));
      AnnouncementMovesUp(p, c, wasMaster, isReplica, master, Heard(h, c, wasMaster, isReplica, master), Epochs());
    }

    /** A node reported with a configuration is a master with that configuration. */
    method Promote(n: ClusterNode, epoch: nat)
      requires Valid() && n in nodes
      modifies n`isMaster, n`slaveof, n`configEpoch
      ensures Valid() && n.isMaster
      ensures Seen() == AsMaster(old(Seen()), n).(epochs := old(Epochs())[n := epoch])
    {
      if !n.isMaster { SetNodeAsMaster(n); }
      SetConfigEpoch(n, epoch);
    }

    /** Takes over a reported configuration of a node if it is newer than the known one. */
    method Adopt(c: Claim, keyed: set<int>) returns (end: Ending, deleted: set<int>)
      requires Valid() && c.sender in nodes
      modifies slots, importingSlotsFrom, nodes`numslots, bitmaps
      modifies c.sender`isMaster, c.sender`slaveof, c.sender`configEpoch, myself`isMaster, myself`slaveof
      ensures Valid() && Seen() == Updated(old(Seen()), c)
      ensures var newer := old(c.sender.configEpoch) < c.epoch;
              var p := AsMaster(old(Seen()), c.sender);
              && (newer && c.sender != myself ==> c.sender.isMaster)
              && end == (if newer then EndOf(p, c) else Returns)
              && deleted == if newer then Dropped(p, c, keyed) else {}
    {
      if c.sender.configEpoch >= c.epoch { return Returns, {}; }
      ghost var p := AsMaster(Seen(), c.sender);
      Promote(c.sender, c.epoch);
      ClaimWithItsEpoch(p, c, keyed);
      end, deleted := UpdateSlotsConfigWith(c, keyed);
    }

    method HearUpdate(sender: ClusterNode, msgEpoch: nat, msgConfigEpoch: nat, c: Claim, keyed: set<int>)
      returns (end: Ending, deleted: set<int>)
      requires Valid() && sender in nodes && c.sender in nodes
      modifies this`currentEpoch, slots, importingSlotsFrom, nodes`numslots, bitmaps, sender`configEpoch
      modifies c.sender`isMaster, c.sender`slaveof, c.sender`configEpoch, myself`isMaster, myself`slaveof
      ensures Valid() && currentEpoch == Max(msgEpoch, old(currentEpoch))
      ensures var p := old(Seen()).(epochs := Headed(old(Epochs()), sender, msgConfigEpoch));
              UpdateTaken(p, c, keyed, end, deleted)
    {
      SeeHeader(sender, msgEpoch, msgConfigEpoch);
      assert c.sender.configEpoch == Epochs()[c.sender];
      end, deleted := Adopt(c, keyed);
    }

    /** What is known after an UPDATE, `p` being what was known after its header. */
    ghost predicate UpdateTaken(p: Picture, c: Claim, keyed: set<int>, end: Ending, deleted: set<int>)
      requires Shaped() && c.sender in p.epochs
      reads this, slots, importingSlotsFrom, nodes`configEpoch, myself, c.sender
    {
      var newer := p.epochs[c.sender] < c.epoch;
      && Seen() == Updated(p, c)
      && (newer && c.sender != myself ==> c.sender.isMaster)
      && end == (if newer then EndOf(AsMaster(p, c.sender), c) else Returns)
      && deleted == if newer then Dropped(AsMaster(p, c.sender), c, keyed) else {}
    }

    /** An UPDATE about a known node: newer configurations are taken over, others ignored. */
    method ReceiveUpdate(sender: ClusterNode, msgEpoch: nat, msgConfigEpoch: nat, c: Claim, keyed: set<int>)
      returns (end: Ending, deleted: set<int>)
      requires Valid() && sender in nodes && c.sender in nodes
      modifies this`currentEpoch, slots, importingSlotsFrom, nodes`numslots, bitmaps, sender`configEpoch
      modifies c.sender`isMaster, c.sender`slaveof, c.sender`configEpoch, myself`isMaster, myself`slaveof
      ensures Valid() && currentEpoch == Max(msgEpoch, old(currentEpoch))
      ensures var p := old(Seen()).(epochs := Headed(old(Epochs()), sender, msgConfigEpoch));
              UpdateTaken(p, c, keyed, end, deleted)
      ensures MovesUp(old(slots[..]), old(Epochs()), slots[..], Epochs())
      ensures Ages(old(Epochs()), Epochs()) && NoOlder(old(slots[..]), old(Epochs()), slots[..], Epochs())
      ensures old(EpochsBounded()) && msgConfigEpoch <= msgEpoch && c.epoch <= msgEpoch ==> EpochsBounded()
    {
      UpdateMovesUp(Seen(), sender, msgConfigEpoch, c);
      BoundedIsSeen();
      end, deleted := HearUpdate(sender, msgEpoch, msgConfigEpoch, c, keyed);
      BoundedIsSeen();
    }
  }
}
