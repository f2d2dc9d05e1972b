/**
 The session object that stores stack network ids: five storages and a counter,
 updated in place. Every method is proved against the ledger value of
 StackLedger (bedrock/listener.go).
 */
module StackSession {
  import opened Options
  import opened PlayerSlots
  import opened StackLedger
  import opened StackReports

  /** One slot packet: window slot, container, stack and id. */
  datatype SlotPacket = SlotPacket(slot: int, container: Container, stack: ItemStack, id: int)

  datatype SlotUpdate = SlotUpdate(slot: int, container: Container, canonical: int)

  /** The ten or five crafting slots of the open grid, inputs first. */
  function CraftingSlotUpdates(p: Player): seq<SlotUpdate> {
    if p.screen.CraftingTable? then
      seq(9, i => SlotUpdate(32 + i, CraftingInput, CRAFTING_TABLE_START + i))
      + [SlotUpdate(50, CreatedOutput, CRAFTING_TABLE_OUTPUT)]
    else
      seq(4, i => SlotUpdate(28 + i, CraftingInput, 1 + i)) + [SlotUpdate(50, CreatedOutput, 0)]
  }

  /** Every crafting packet names the slot it shows, the result's exactly when no workstation took
      over its name; the packets cover the open grid and its result, each once. */
  lemma CraftingPacketsNameTheirSlots(p: Player, k: nat)
    requires k < |CraftingSlotUpdates(p)|
    ensures var u := CraftingSlotUpdates(p)[k];
            && (CanonicalSlot(Some(p), SlotRef(u.container, None, u.slot)) == Some(u.canonical) <==>
                  u.container == CraftingInput || StationSlot(p, SlotRef(u.container, None, u.slot)).None?)
            && (u.container == CraftingInput ==> GridCell(p, u.canonical))
            && (u.container != CraftingInput ==>
                  u.canonical == if p.screen.CraftingTable? then CRAFTING_TABLE_OUTPUT else 0)
    ensures |CraftingSlotUpdates(p)| == if p.screen.CraftingTable? then 10 else 5
    ensures forall j :: 0 <= j < |CraftingSlotUpdates(p)| && j != k ==>
              CraftingSlotUpdates(p)[j].canonical != CraftingSlotUpdates(p)[k].canonical
  {
  }

  function UpdateSightings(p: Player, updates: seq<SlotUpdate>): seq<Sighting> {
    seq(|updates|, i requires 0 <= i < |updates| =>
      Sighting(updates[i].canonical, StackAt(p, updates[i].canonical).IsEmpty(), false))
  }

  /** The packet shows the simulation's stack under the stored id, positive when occupied. */
  predicate PacketFor(p: Player, l: Ledger, update: SlotUpdate, packet: SlotPacket) {
    && packet.slot == update.slot
    && packet.container == update.container
    && packet.stack == StackAt(p, update.canonical)
    && packet.id == IdAt(l, update.canonical)
    && (packet.id != 0 <==> !packet.stack.IsEmpty())
  }

  predicate PacketsFor(p: Player, l: Ledger, updates: seq<SlotUpdate>, packets: seq<SlotPacket>) {
    |packets| == |updates| && forall k :: 0 <= k < |packets| ==> PacketFor(p, l, updates[k], packets[k])
  }

  /** Settling one more slot leaves the earlier packets right. */
  lemma PacketsExtend(p: Player, l: Ledger, updates: seq<SlotUpdate>, packets: seq<SlotPacket>, update: SlotUpdate,
                      packet: SlotPacket)
    requires PacketsFor(p, l, updates, packets)
    requires forall k :: 0 <= k < |updates| ==> updates[k].canonical != update.canonical
    requires PacketFor(p, Settle(l, update.canonical, StackAt(p, update.canonical).IsEmpty()), update, packet)
    ensures PacketsFor(p, Settle(l, update.canonical, StackAt(p, update.canonical).IsEmpty()),
                       updates + [update], packets + [packet])
  {
    var empty := StackAt(p, update.canonical).IsEmpty();
    forall k | 0 <= k < |updates| ensures PacketFor(p, Settle(l, update.canonical, empty), updates[k], packets[k]) {
      SettleElsewhere(l, update.canonical, empty, updates[k].canonical);
    }
  }

  /** The slots updated so far were sent, from one ledger to another. */
  predicate SlotsSent(p: Player, before: Ledger, updates: seq<SlotUpdate>, after: Ledger, packets: seq<SlotPacket>) {
    && after == RefreshAll(before, UpdateSightings(p, updates))
    && PacketsFor(p, after, updates, packets)
  }

  lemma SlotsSentStep(p: Player, base: Ledger, updates: seq<SlotUpdate>, now: Ledger, packets: seq<SlotPacket>,
                      update: SlotUpdate, packet: SlotPacket)
    requires SlotsSent(p, base, updates, now, packets)
    requires forall k :: 0 <= k < |updates| ==> updates[k].canonical != update.canonical
    requires PacketFor(p, Settle(now, update.canonical, StackAt(p, update.canonical).IsEmpty()), update, packet)
    ensures SlotsSent(p, base, updates + [update], Settle(now, update.canonical, StackAt(p, update.canonical).IsEmpty()),
                      packets + [packet])
  {
    var see := Sighting(update.canonical, StackAt(p, update.canonical).IsEmpty(), false);
    assert UpdateSightings(p, updates + [update]) == UpdateSightings(p, updates) + [see];
    RefreshAppend(base, UpdateSightings(p, updates), see);
    PacketsExtend(p, now, updates, packets, update, packet);
  }

  /** The stored slot a Bedrock storage slot (0-35) stands for. */
  function InventoryCanonicalSlot(slot: int): int {
    if slot < 0 || slot >= 36 then -1 else if slot < 9 then HOTBAR_START + slot else slot
  }

  /** The container a storage slot is shown in. */
  function StorageContainer(slot: int): Container {
    if slot < 9 then HotBar else MainInventory
  }

  /** A storage packet names the slot it shows. */
  lemma StoragePacketsNameTheirSlots(p: Player, slot: int)
    ensures 0 <= slot < 36 ==>
              CanonicalSlot(Some(p), SlotRef(StorageContainer(slot), None, slot)) == Some(InventoryCanonicalSlot(slot))
    ensures InventoryCanonicalSlot(slot) >= 0 <==> 0 <= slot < 36
  {
  }

  function StorageSighting(p: Player, slot: int): Sighting
    requires InventoryCanonicalSlot(slot) >= 0
  {
    var canonical := InventoryCanonicalSlot(slot);
    Sighting(canonical, p.inventory[canonical].IsEmpty(), false)
  }

  ghost predicate SameMembers(seen: set<int>, slots: seq<int>) {
    forall s :: s in seen <==> s in slots
  }

  function StorageSightings(p: Player, slots: seq<int>): seq<Sighting> {
    if slots == [] then []
    else
      var n := |slots| - 1;
      StorageSightings(p, slots[..n]) +
      if slots[n] in slots[..n] || InventoryCanonicalSlot(slots[n]) < 0 then []
      else [StorageSighting(p, slots[n])]
  }

  /** One packet per sighting, showing the simulation's stack under the stored id,
      positive when occupied. */
  predicate DropPackets(p: Player, l: Ledger, packets: seq<SlotPacket>, sightings: seq<Sighting>) {
    && |packets| == |sightings|
    && forall k :: 0 <= k < |packets| ==>
         && InventoryCanonicalSlot(packets[k].slot) == sightings[k].slot
         && packets[k].container == StorageContainer(packets[k].slot)
         && packets[k].stack == StackAt(p, sightings[k].slot)
         && packets[k].id == IdAt(l, sightings[k].slot)
         && (packets[k].id > 0 <==> !packets[k].stack.IsEmpty())
  }

  /** The slots seen so far were sent, from one ledger to another. */
  ghost predicate DropsSent(p: Player, before: Ledger, slots: seq<int>, seen: set<int>, after: Ledger,
                            packets: seq<SlotPacket>) {
    && SameMembers(seen, slots)
    && after == RefreshAll(before, StorageSightings(p, slots))
    && DropPackets(p, after, packets, StorageSightings(p, slots))
  }

  lemma DropPacketsExtend(p: Player, l: Ledger, packets: seq<SlotPacket>, sightings: seq<Sighting>,
                          see: Sighting, packet: SlotPacket)
    requires DropPackets(p, l, packets, sightings)
    requires forall k :: 0 <= k < |sightings| ==> sightings[k].slot != see.slot
    requires see.slot == InventoryCanonicalSlot(packet.slot) && packet.stack == StackAt(p, see.slot)
    requires packet.container == StorageContainer(packet.slot)
    requires packet.id == IdAt(Settle(l, see.slot, see.empty), see.slot)
    requires packet.id > 0 <==> !packet.stack.IsEmpty()
    ensures DropPackets(p, Settle(l, see.slot, see.empty), packets + [packet], sightings + [see])
  {
    forall k | 0 <= k < |packets|
      ensures packets[k].id == IdAt(Settle(l, see.slot, see.empty), sightings[k].slot)
    {
      SettleElsewhere(l, see.slot, see.empty, sightings[k].slot);
    }
  }

  /** Different storage slots are different canonical slots, so a new slot adds a sighting
      of a slot not sighted before. */
  lemma StorageSightingsStep(p: Player, slots: seq<int>, slot: int)
    ensures var canonical := InventoryCanonicalSlot(slot);
            if slot in slots || canonical < 0 then
              StorageSightings(p, slots + [slot]) == StorageSightings(p, slots)
            else
              && StorageSightings(p, slots + [slot]) ==
                 StorageSightings(p, slots) + [StorageSighting(p, slot)]
              && forall k :: 0 <= k < |StorageSightings(p, slots)| ==>
                   StorageSightings(p, slots)[k].slot != canonical
  {
    assert (slots + [slot])[..|slots|] == slots;
    if slot !in slots && InventoryCanonicalSlot(slot) >= 0 {
      NotYetSighted(p, slots, slot);
    }
  }

  lemma {:induction false} NotYetSighted(p: Player, slots: seq<int>, slot: int)
    requires slot !in slots && InventoryCanonicalSlot(slot) >= 0
    ensures forall k :: 0 <= k < |StorageSightings(p, slots)| ==>
              StorageSightings(p, slots)[k].slot != InventoryCanonicalSlot(slot)
  {
    if slots != [] {
      var front := slots[..|slots| - 1];
      assert forall s :: s in front ==> s in slots;
      assert slots[|slots| - 1] in slots;
      NotYetSighted(p, front, slot);
    }
  }

  /** The slots settled so far, what was reported for them, and the groups it makes. */
  ghost predicate ReportedTo(p: Player, base: Ledger, refs: seq<SlotRef>, now: Ledger, entries: seq<Entry>,
                             groups: seq<Group>, indices: Indices) {
    && AllResolve(p, refs) && now == SettleRefs(base, p, refs) && entries == Entries(base, p, refs)
    && GroupsIndexed(groups, indices, entries)
  }

  lemma NothingReported(p: Player, base: Ledger)
    ensures ReportedTo(p, base, [], base, [], [], map[])
  {
  }

  lemma SettledStep(p: Player, base: Ledger, refs: seq<SlotRef>, now: Ledger, entries: seq<Entry>, at: SlotRef)
    requires AllResolve(p, refs) && now == SettleRefs(base, p, refs) && entries == Entries(base, p, refs)
    requires CanonicalSlot(Some(p), at).Some?
    ensures var all := refs + [at];
            && AllResolve(p, all) && Settle(now, Canonical(p, at), Vacant(p, at)) == SettleRefs(base, p, all)
            && entries + [Report(now, p, at)] == Entries(base, p, all)
  {
    assert (refs + [at])[..|refs|] == refs;
  }

  class Session {
    var cursorStackId: int
    const stackNetworkIds: array<int>
    const craftingNetworkIds: array<int>
    const furnaceNetworkIds: array<int>
    const containerNetworkIds: array<int>
    var nextStackNetworkId: int
    ghost var ledger: Ledger

    ghost function Repr(): set<object> {
      {this, stackNetworkIds, craftingNetworkIds, furnaceNetworkIds, containerNetworkIds}
    }

    ghost predicate Shape() {
      && stackNetworkIds.Length == INVENTORY_SIZE
      && craftingNetworkIds.Length == 10
      && furnaceNetworkIds.Length == 3
      && containerNetworkIds.Length == CONTAINER_CELLS
      && stackNetworkIds != craftingNetworkIds && stackNetworkIds != furnaceNetworkIds
      && stackNetworkIds != containerNetworkIds && craftingNetworkIds != furnaceNetworkIds
      && craftingNetworkIds != containerNetworkIds && furnaceNetworkIds != containerNetworkIds
    }

    /** The storages hold exactly the ledger's cells, and no id is negative. */
    ghost predicate Valid()
      reads Repr()
    {
      && Shape()
      && nextStackNetworkId == ledger.next
      && cursorStackId == ledger.cells[0]
      && (forall i :: 0 <= i < 46 ==> stackNetworkIds[i] == ledger.cells[i + 1])
      && (forall i :: 0 <= i < 10 ==> craftingNetworkIds[i] == ledger.cells[i + 47])
      && (forall i :: 0 <= i < 3 ==> furnaceNetworkIds[i] == ledger.cells[i + 57])
      && (forall i :: 0 <= i < 54 ==> containerNetworkIds[i] == ledger.cells[i + 60])
      && NoNegativeId(ledger)
    }

    constructor ()
      ensures Valid() && fresh(Repr())
      ensures ledger == EMPTY_LEDGER
    {
      cursorStackId := 0;
      stackNetworkIds := new int[46](i => 0);
      craftingNetworkIds := new int[10](i => 0);
      furnaceNetworkIds := new int[3](i => 0);
      containerNetworkIds := new int[54](i => 0);
      nextStackNetworkId := 1;
      ledger := EMPTY_LEDGER;
    }

    method AllocateStackNetworkId() returns (id: int)
      requires Valid()
      modifies this
      ensures Valid()
      ensures ledger == Mint(old(ledger)) && id == Fresh(old(ledger))
    {
      if nextStackNetworkId <= 0 {
        nextStackNetworkId := 1;
      }
      id := nextStackNetworkId;
      nextStackNetworkId := Wrap32(nextStackNetworkId + 1);
      if nextStackNetworkId <= 0 {
        nextStackNetworkId := 1;
      }
      ledger := Mint(ledger);
    }

    method StackNetworkIdAt(slot: int) returns (id: int)
      requires Valid()
      ensures id == IdAt(ledger, slot)
    {
      if slot == CURSOR_SLOT {
        return cursorStackId;
      }
      if CRAFTING_TABLE_START <= slot <= CRAFTING_TABLE_OUTPUT {
        return craftingNetworkIds[slot - CRAFTING_TABLE_START];
      }
      if FURNACE_INPUT <= slot <= FURNACE_OUTPUT {
        return furnaceNetworkIds[slot - FURNACE_INPUT];
      }
      if CONTAINER_START <= slot < CONTAINER_START + containerNetworkIds.Length {
        return containerNetworkIds[slot - CONTAINER_START];
      }
      if slot < 0 || slot >= stackNetworkIds.Length {
        return 0;
      }
      return stackNetworkIds[slot];
    }

    method SetStackNetworkId(slot: int, id: int)
      requires Valid() && id >= 0
      modifies Repr()
      ensures Valid()
      ensures ledger == Put(old(ledger), slot, id)
    {
      ledger := Put(ledger, slot, id);
      if slot == CURSOR_SLOT {
        cursorStackId := id;
        return;
      }
      if CRAFTING_TABLE_START <= slot <= CRAFTING_TABLE_OUTPUT {
        craftingNetworkIds[slot - CRAFTING_TABLE_START] := id;
        return;
      }
      if FURNACE_INPUT <= slot <= FURNACE_OUTPUT {
        furnaceNetworkIds[slot - FURNACE_INPUT] := id;
        return;
      }
      if CONTAINER_START <= slot < CONTAINER_START + containerNetworkIds.Length {
        containerNetworkIds[slot - CONTAINER_START] := id;
        return;
      }
      if slot < 0 || slot >= stackNetworkIds.Length {
        return;
      }
      stackNetworkIds[slot] := id;
    }

    method PlaceStackNetworkId(d: int, sourceId: int, destinationId: int, sEmpty: bool, dEmpty: bool)
      requires Valid()
      modifies Repr()
      ensures Valid()
      ensures ledger == PlaceId(old(ledger), d, sourceId, destinationId, sEmpty, dEmpty)
    {
      if dEmpty {
        SetStackNetworkId(d, 0);
      } else if destinationId > 0 {
        SetStackNetworkId(d, destinationId);
      } else if sourceId > 0 && sEmpty {
        SetStackNetworkId(d, sourceId);
      } else {
        var id := AllocateStackNetworkId();
        SetStackNetworkId(d, id);
      }
    }

    method TransferStackNetworkId(p: Player, source: SlotInfo, destination: SlotInfo)
      requires Valid()
      modifies Repr()
      ensures Valid()
      ensures ledger == Transfer(old(ledger), p, source, destination)
    {
      var s := CanonicalSlot(Some(p), source.at);
      var d := CanonicalSlot(Some(p), destination.at);
      if s.None? || d.None? {
        return;
      }
      var sourceId := StackNetworkIdAt(s.value);
      var destinationId := StackNetworkIdAt(d.value);
      if sourceId == 0 && source.stackNetworkId > 0 {
        sourceId := source.stackNetworkId;
      }
      if destinationId == 0 && destination.stackNetworkId > 0 {
        destinationId := destination.stackNetworkId;
      }
      var sourceStack := StackAt(p, s.value);
      var destinationStack := StackAt(p, d.value);

      PlaceStackNetworkId(d.value, sourceId, destinationId, sourceStack.IsEmpty(), destinationStack.IsEmpty());
      if sourceStack.IsEmpty() {
        SetStackNetworkId(s.value, 0);
      } else if sourceId > 0 {
        SetStackNetworkId(s.value, sourceId);
      } else {
        var id := AllocateStackNetworkId();
        SetStackNetworkId(s.value, id);
      }
    }

    method ClearEmptied(p: Player, source: SlotInfo)
      requires Valid()
      modifies Repr()
      ensures Valid()
      ensures ledger == ClearIfEmpty(old(ledger), p, source)
    {
      var s := CanonicalSlot(Some(p), source.at);
      if s.Some? && StackAt(p, s.value).IsEmpty() {
        SetStackNetworkId(s.value, 0);
      }
    }

    method SwapStackNetworkIds(p: Player, source: SlotInfo, destination: SlotInfo)
      requires Valid()
      modifies Repr()
      ensures Valid()
      ensures ledger == ApplyAction(old(ledger), p, Swap(source, destination))
    {
      var s := CanonicalSlot(Some(p), source.at);
      var d := CanonicalSlot(Some(p), destination.at);
      if s.None? || d.None? {
        return;
      }
      var sourceId := StackNetworkIdAt(s.value);
      var destinationId := StackNetworkIdAt(d.value);
      if sourceId == 0 && source.stackNetworkId > 0 {
        sourceId := source.stackNetworkId;
      }
      if destinationId == 0 && destination.stackNetworkId > 0 {
        destinationId := destination.stackNetworkId;
      }
      SetStackNetworkId(s.value, destinationId);
      SetStackNetworkId(d.value, sourceId);
    }

    method ApplyStackNetworkIdChange(p: Player, action: Action)
      requires Valid()
      modifies Repr()
      ensures Valid()
      ensures ledger == ApplyAction(old(ledger), p, action)
    {
      match action {
        case CraftCreative(_) =>
          var id := AllocateStackNetworkId();
          SetStackNetworkId(CURSOR_SLOT, id);
        case Take(source, destination, _) => TransferStackNetworkId(p, source, destination);
        case Place(source, destination, _) => TransferStackNetworkId(p, source, destination);
        case Swap(source, destination) => SwapStackNetworkIds(p, source, destination);
        case Drop(source, _) => ClearEmptied(p, source);
        case Destroy(source, _) => ClearEmptied(p, source);
        case Consume(source, _) => ClearEmptied(p, source);
        case _ =>
      }
    }

    method ApplyStackNetworkIdChanges(p: Player, actions: seq<Action>)
      requires Valid()
      modifies Repr()
      ensures Valid()
      ensures ledger == ApplyActions(old(ledger), p, actions)
    {
      for i := 0 to |actions|
        invariant Valid()
        invariant ledger == ApplyActions(old(ledger), p, actions[..i])
      {
        assert actions[..i + 1][..i] == actions[..i];
        ApplyStackNetworkIdChange(p, actions[i]);
      }
      assert actions[..|actions|] == actions;
    }

    /** Gives an occupied slot an id and takes it from an empty one. */
    method SettleSlot(slot: int, stack: ItemStack) returns (id: int)
      requires Valid()
      modifies Repr()
      ensures Valid()
      ensures ledger == Settle(old(ledger), slot, stack.IsEmpty())
      ensures id == SettledId(old(ledger), slot, stack.IsEmpty())
    {
      id := StackNetworkIdAt(slot);
      if stack.IsEmpty() {
        id := 0;
        SetStackNetworkId(slot, 0);
      } else if id == 0 {
        id := AllocateStackNetworkId();
        SetStackNetworkId(slot, id);
      }
    }

    /** Settles one slot and describes it. */
    method ReportSlot(p: Player, at: SlotRef) returns (entry: Entry)
      requires Valid() && CanonicalSlot(Some(p), at).Some?
      modifies Repr()
      ensures Valid()
      ensures ledger == Settle(old(ledger), Canonical(p, at), Vacant(p, at))
      ensures entry == Report(old(ledger), p, at)
    {
      var canonical := CanonicalSlot(Some(p), at).value;
      var stack := StackAt(p, canonical);
      var id := SettleSlot(canonical, stack);
      entry := Entry(at, Clamp(stack.count, 0, 255), id, if stack.damage < 0 then 0 else stack.damage);
    }

    method ReportNext(p: Player, at: SlotRef, groups: seq<Group>, indices: Indices,
                      ghost base: Ledger, ghost refs: seq<SlotRef>, ghost entries: seq<Entry>)
      returns (groups': seq<Group>, indices': Indices, ghost entries': seq<Entry>)
      requires Valid() && CanonicalSlot(Some(p), at).Some?
      requires ReportedTo(p, base, refs, ledger, entries, groups, indices)
      modifies Repr()
      ensures Valid()
      ensures ReportedTo(p, base, refs + [at], ledger, entries', groups', indices')
    {
      SettledStep(p, base, refs, ledger, entries, at);
      var entry := ReportSlot(p, at);
      groups', indices' := AddEntry(groups, indices, entries, entry);
      entries' := entries + [entry];
    }

    /** Settles slots one after another and groups what is reported for them. */
    method ReportSlots(p: Player, refs: seq<SlotRef>) returns (groups: seq<Group>)
      requires Valid() && AllResolve(p, refs)
      modifies Repr()
      ensures Valid()
      ensures ledger == SettleRefs(old(ledger), p, refs)
      ensures GroupsExactly(groups, Entries(old(ledger), p, refs))
    {
      groups := [];
      var indices: Indices := map[];
      ghost var base, entries := ledger, [];
      NothingReported(p, base);
      assert refs[..0] == [];
      for k := 0 to |refs|
        invariant Valid() && ReportedTo(p, base, refs[..k], ledger, entries, groups, indices)
      {
        groups, indices, entries := ReportNext(p, refs[k], groups, indices, base, refs[..k], entries);
        assert refs[..k] + [refs[k]] == refs[..k + 1];
      }
      assert refs[..|refs|] == refs;
    }

    method StackResponseContainerInfo(p: Player, actions: seq<Action>) returns (groups: seq<Group>)
      requires Valid()
      modifies Repr()
      ensures Valid()
      ensures var refs := ChangedSlots(p, IsCreative(actions), actions);
              && AllResolve(p, refs)
              && ledger == SettleRefs(old(ledger), p, refs)
              && GroupsExactly(groups, Entries(old(ledger), p, refs))
    {
      var refs := CollectChangedSlots(p, actions);
      groups := ReportSlots(p, refs);
    }

    /** Adds the named slots that exist and were not seen before. */
    method AddChangedSlots(p: Player, named: seq<SlotRef>, changed: seq<SlotRef>, earlier: set<SlotRef>)
      returns (refs: seq<SlotRef>, seen: set<SlotRef>)
      requires forall at :: at in earlier <==> at in changed
      ensures refs == AddRefs(p, changed, named)
      ensures forall at :: at in seen <==> at in refs
    {
      refs, seen := changed, earlier;
      for j := 0 to |named|
        invariant refs == AddRefs(p, changed, named[..j])
        invariant forall at :: at in seen <==> at in refs
      {
        assert named[..j + 1][..j] == named[..j];
        if CanonicalSlot(Some(p), named[j]).Some? && named[j] !in seen {
          seen := seen + {named[j]};
          refs := refs + [named[j]];
        }
      }
      assert named[..|named|] == named;
    }

    method CollectChangedSlots(p: Player, actions: seq<Action>) returns (refs: seq<SlotRef>)
      ensures refs == ChangedSlots(p, IsCreative(actions), actions) && AllResolve(p, refs)
    {
      var creative := IsCreative(actions);
      refs := [];
      var seen: set<SlotRef> := {};
      for i := 0 to |actions|
        invariant refs == ChangedSlots(p, creative, actions[..i])
        invariant forall at :: at in seen <==> at in refs
      {
        assert actions[..i + 1][..i] == actions[..i];
        refs, seen := AddChangedSlots(p, Mentions(p, creative, actions[i]), refs, seen);
      }
      assert actions[..|actions|] == actions;
      ChangedSlotsExactly(p, creative, actions);
    }

    /** Settles one more slot and builds its packet. */
    method SlotPacketFor(p: Player, update: SlotUpdate, packets: seq<SlotPacket>,
                         ghost base: Ledger, ghost earlier: seq<SlotUpdate>)
      returns (sent: seq<SlotPacket>)
      requires Valid() && Stored(update.canonical)
      requires forall k :: 0 <= k < |earlier| ==> earlier[k].canonical != update.canonical
      requires SlotsSent(p, base, earlier, ledger, packets)
      modifies Repr()
      ensures Valid() && SlotsSent(p, base, earlier + [update], ledger, sent)
    {
      ghost var before := ledger;
      var stack := StackAt(p, update.canonical);
      var id := SettleSlot(update.canonical, stack);
      var packet := SlotPacket(update.slot, update.container, stack, id);
      SlotsSentStep(p, base, earlier, before, packets, update, packet);
      sent := packets + [packet];
    }

    /** Settles different stored slots one after another and builds a packet for each. */
    method SlotPackets(p: Player, updates: seq<SlotUpdate>) returns (packets: seq<SlotPacket>)
      requires Valid()
      requires forall i, j :: 0 <= i < j < |updates| ==> updates[i].canonical != updates[j].canonical
      requires forall i :: 0 <= i < |updates| ==> Stored(updates[i].canonical)
      modifies Repr()
      ensures Valid()
      ensures ledger == RefreshAll(old(ledger), UpdateSightings(p, updates))
      ensures PacketsFor(p, ledger, updates, packets)
    {
      packets := [];
      ghost var base := ledger;
      for k := 0 to |updates|
        invariant Valid() && SlotsSent(p, base, updates[..k], ledger, packets)
      {
        packets := SlotPacketFor(p, updates[k], packets, base, updates[..k]);
        assert updates[..k] + [updates[k]] == updates[..k + 1];
      }
      assert updates[..|updates|] == updates;
    }

    method PersonalCraftingSlotPackets(p: Player) returns (packets: seq<SlotPacket>)
      requires Valid()
      modifies Repr()
      ensures Valid()
      ensures ledger == RefreshAll(old(ledger), UpdateSightings(p, CraftingSlotUpdates(p)))
      ensures PacketsFor(p, ledger, CraftingSlotUpdates(p), packets)
    {
      packets := SlotPackets(p, CraftingSlotUpdates(p));
    }

    /** Settles an inventory slot directly in its storage. */
    method SettleInventorySlot(canonical: int, stack: ItemStack) returns (stackId: int)
      requires Valid() && 0 <= canonical < INVENTORY_SIZE
      modifies Repr()
      ensures Valid()
      ensures ledger == Settle(old(ledger), canonical, stack.IsEmpty())
      ensures stackId > 0 <==> !stack.IsEmpty()
      ensures stackId == IdAt(ledger, canonical)
    {
      stackId := stackNetworkIds[canonical];
      assert stackId == IdAt(ledger, canonical) >= 0;
      if stack.IsEmpty() {
        stackId := 0;
        stackNetworkIds[canonical] := 0;
        ledger := Put(ledger, canonical, 0);
      } else if stackId <= 0 {
        stackId := AllocateStackNetworkId();
        stackNetworkIds[canonical] := stackId;
        ledger := Put(ledger, canonical, stackId);
      }
    }

    method SendDropSlot(p: Player, slot: int, packets: seq<SlotPacket>, ghost earlier: seq<int>)
      returns (sent: seq<SlotPacket>)
      requires Valid() && InventoryCanonicalSlot(slot) >= 0 && slot !in earlier
      requires DropPackets(p, ledger, packets, StorageSightings(p, earlier))
      modifies Repr()
      ensures Valid()
      ensures ledger == Refresh(old(ledger), StorageSighting(p, slot))
      ensures StorageSightings(p, earlier + [slot]) == StorageSightings(p, earlier) + [StorageSighting(p, slot)]
      ensures DropPackets(p, ledger, sent, StorageSightings(p, earlier + [slot]))
    {
      var canonical := InventoryCanonicalSlot(slot);
      var stack := p.inventory[canonical];
      var stackId := SettleInventorySlot(canonical, stack);
      var packet := SlotPacket(slot, if slot < 9 then HotBar else MainInventory, stack, stackId);
      StorageSightingsStep(p, earlier, slot);
      DropPacketsExtend(p, old(ledger), packets, StorageSightings(p, earlier), StorageSighting(p, slot), packet);
      sent := packets + [packet];
    }

    /** Sends a slot unless it was sent before or does not exist. */
    method SendDropSlotOnce(p: Player, slot: int, packets: seq<SlotPacket>, seen: set<int>,
                            ghost earlier: seq<int>, ghost base: Ledger)
      returns (sent: seq<SlotPacket>, seen': set<int>)
      requires Valid() && DropsSent(p, base, earlier, seen, ledger, packets)
      modifies Repr()
      ensures Valid() && DropsSent(p, base, earlier + [slot], seen', ledger, sent)
    {
      sent, seen' := packets, seen + {slot};
      if slot in seen || InventoryCanonicalSlot(slot) < 0 {
        StorageSightingsStep(p, earlier, slot);
      } else {
        sent := SendDropSlot(p, slot, packets, earlier);
        RefreshAppend(base, StorageSightings(p, earlier), StorageSighting(p, slot));
      }
    }

    /** The authoritative slots sent after a drop; repeated slots are sent once. */
    method SendNormalDropSlots(p: Player, slots: seq<int>) returns (packets: seq<SlotPacket>)
      requires Valid()
      modifies Repr()
      ensures Valid()
      ensures ledger == RefreshAll(old(ledger), StorageSightings(p, slots))
      ensures DropPackets(p, ledger, packets, StorageSightings(p, slots))
    {
      packets := [];
      var seen: set<int> := {};
      ghost var base := ledger;
      for i := 0 to |slots|
        invariant Valid() && DropsSent(p, base, slots[..i], seen, ledger, packets)
      {
        packets, seen := SendDropSlotOnce(p, slots[i], packets, seen, slots[..i], base);
        assert slots[..i] + [slots[i]] == slots[..i + 1];
      }
      assert slots[..|slots|] == slots;
    }

    /** Opening a container forgets the ids of the previous one. */
    method OpenContainer()
      requires Valid()
      modifies Repr()
      ensures Valid()
      ensures ledger == ForgetContainer(old(ledger))
    {
      forall i | 0 <= i < containerNetworkIds.Length {
        containerNetworkIds[i] := 0;
      }
      ledger := ForgetContainer(ledger);
    }
  }

  type Indices = map<GroupKey, nat>

  /** The groups built so far and where each container's group is. */
  predicate GroupsIndexed(groups: seq<Group>, indices: Indices, entries: seq<Entry>) {
    && GroupsExactly(groups, entries)
    && (forall key :: key in indices ==> indices[key] < |groups| && key == FirstSeen(entries)[indices[key]])
    && (forall i :: 0 <= i < |groups| ==> FirstSeen(entries)[i] in indices)
  }

  method AddEntry(groups: seq<Group>, indices: Indices, ghost entries: seq<Entry>, e: Entry)
    returns (groups': seq<Group>, indices': Indices)
    requires GroupsIndexed(groups, indices, entries)
    ensures GroupsIndexed(groups', indices', entries + [e])
  {
    groups', indices' := groups, indices;
    var key := (e.at.container, e.at.dynamic);
    assert (entries + [e])[..|entries|] == entries;
    if key !in indices {
      AddsGroup(groups, entries, e);
      indices' := indices[key := |groups|];
      groups' := groups + [Group(e.at.container, e.at.dynamic, [e])];
    } else {
      var index := indices[key];
      ExtendsGroup(groups, entries, e, index);
      groups' := groups[index := groups[index].(slots := groups[index].slots + [e])];
    }
  }

  lemma AddsGroup(groups: seq<Group>, entries: seq<Entry>, e: Entry)
    requires GroupsExactly(groups, entries) && KeyOf(e) !in FirstSeen(entries)
    ensures GroupsExactly(groups + [Group(e.at.container, e.at.dynamic, [e])], entries + [e])
    ensures FirstSeen(entries + [e]) == FirstSeen(entries) + [KeyOf(e)]
  {
    assert (entries + [e])[..|entries|] == entries;
    FirstSeenExactly(entries);
    SelectNothing(entries, KeyOf(e));
  }

  lemma {:induction false} SelectNothing(entries: seq<Entry>, key: GroupKey)
    requires forall e :: e in entries ==> KeyOf(e) != key
    ensures Select(entries, key) == []
  {
    if entries != [] { SelectNothing(entries[..|entries| - 1], key); }
  }

  lemma ExtendsGroup(groups: seq<Group>, entries: seq<Entry>, e: Entry, index: nat)
    requires GroupsExactly(groups, entries)
    requires index < |groups| && KeyOf(e) == FirstSeen(entries)[index]
    ensures GroupsExactly(groups[index := groups[index].(slots := groups[index].slots + [e])], entries + [e])
    ensures FirstSeen(entries + [e]) == FirstSeen(entries)
  {
    assert (entries + [e])[..|entries|] == entries;
    FirstSeenExactly(entries);
  }
}
