/**
 Dropping items through the legacy transaction path (bedrock/listener.go): the
 client's claim is translated into drops of what is really in the slots.
 */
module NormalDrops {
  import opened Options
  import opened PlayerSlots
  import opened StackSession

  /** An item stack as the client writes it. */
  datatype NetworkItem = NetworkItem(networkId: int, metadata: int, blockRuntimeId: int, count: nat)

  predicate NetworkItemEmpty(s: NetworkItem) {
    s.networkId == 0 && s.count == 0
  }

  predicate SameNetworkItem(a: NetworkItem, b: NetworkItem) {
    a.networkId == b.networkId && a.metadata == b.metadata && a.blockRuntimeId == b.blockRuntimeId
  }

  /** Where an action takes items from: a container window, the world, or anything else. */
  datatype Source = FromContainer(window: Option<int>) | FromWorld | FromElsewhere

  datatype DropAction = DropAction(source: Source, slot: nat, oldItem: NetworkItem, newItem: NetworkItem)

  datatype LegacySlots = LegacySlots(container: Container, slots: seq<int>)

  datatype Transaction = Transaction(actions: seq<DropAction>, legacyRequestId: int, legacySlots: seq<LegacySlots>)

  const INVENTORY_WINDOW := 0

  /** A drop of `count` items out of a canonical slot. */
  datatype Drop = Drop(source: int, count: int)

  datatype Translation = Rejected | Accepted(drops: seq<Drop>, slots: seq<int>)

  // ----- the two-action form

  predicate InventorySide(a: DropAction) {
    a.source.FromContainer? && a.source.window == Some(INVENTORY_WINDOW) && a.slot <= 35
  }

  predicate WorldSide(a: DropAction) {
    a.source.FromWorld? && a.slot == 0
  }

  /** The inventory side loses what the world side gains, of one item, and it is really there. */
  predicate Balanced(p: Player, inventory: DropAction, world: DropAction) {
    && InventorySide(inventory) && WorldSide(world)
    && NetworkItemEmpty(world.oldItem) && !NetworkItemEmpty(world.newItem)
    && !NetworkItemEmpty(inventory.oldItem)
    && var held := p.inventory[InventoryCanonicalSlot(inventory.slot)];
    && !held.IsEmpty()
    && inventory.oldItem.count == held.count
    && 1 <= world.newItem.count <= held.count
    && SameNetworkItem(inventory.oldItem, world.newItem)
    && (if world.newItem.count == held.count then NetworkItemEmpty(inventory.newItem)
        else !NetworkItemEmpty(inventory.newItem)
             && world.newItem.count + inventory.newItem.count == held.count
             && SameNetworkItem(inventory.oldItem, inventory.newItem))
  }

  function BalancedDrop(inventory: DropAction, world: DropAction): Translation {
    Accepted([Drop(InventoryCanonicalSlot(inventory.slot), world.newItem.count)], [inventory.slot])
  }

  /** The specification of the two-action form: one of the two is the inventory side. */
  function TwoActions(p: Player, a: DropAction, b: DropAction): Translation {
    if Balanced(p, a, b) then BalancedDrop(a, b)
    else if Balanced(p, b, a) then BalancedDrop(b, a)
    else Rejected
  }

  /** The order of the two actions does not matter. */
  lemma OrderDoesNotMatter(p: Player, a: DropAction, b: DropAction)
    ensures TwoActions(p, a, b) == TwoActions(p, b, a)
    ensures !(Balanced(p, a, b) && Balanced(p, b, a))
  {
  }

  // ----- the legacy form

  predicate LegacyContainer(c: Container) {
    c.HotBar? || c.MainInventory? || c.HotBarAndInventory?
  }

  predicate LegacyShape(t: Transaction) {
    && t.legacyRequestId != 0
    && 1 <= |t.legacySlots| <= 2
    && forall i :: 0 <= i < |t.legacySlots| ==>
         LegacyContainer(t.legacySlots[i].container) && 1 <= |t.legacySlots[i].slots| <= 2
  }

  function Flatten(list: seq<LegacySlots>): seq<int> {
    if list == [] then [] else Flatten(list[..|list| - 1]) + list[|list| - 1].slots
  }

  /** The slots in order, each at its first occurrence. */
  function Distinct(slots: seq<int>): seq<int> {
    if slots == [] then []
    else
      var before := Distinct(slots[..|slots| - 1]);
      if slots[|slots| - 1] in before then before else before + [slots[|slots| - 1]]
  }

  predicate Occupied(p: Player, slot: int) {
    InventoryCanonicalSlot(slot) >= 0 && !p.inventory[InventoryCanonicalSlot(slot)].IsEmpty()
  }

  predicate AllOccupied(p: Player, slots: seq<int>) {
    forall s :: s in slots ==> Occupied(p, s)
  }

  function WholeStacks(p: Player, slots: seq<int>): seq<Drop>
    requires AllOccupied(p, slots)
  {
    seq(|slots|, i requires 0 <= i < |slots| =>
      assert slots[i] in slots;
      Drop(InventoryCanonicalSlot(slots[i]), p.inventory[InventoryCanonicalSlot(slots[i])].count))
  }

  function Legacy(p: Player, t: Transaction): Translation {
    if LegacyShape(t) && AllOccupied(p, Flatten(t.legacySlots)) then
      DistinctContains(Flatten(t.legacySlots));
      Accepted(WholeStacks(p, Distinct(Flatten(t.legacySlots))), Distinct(Flatten(t.legacySlots)))
    else Rejected
  }

  lemma {:induction false} DistinctContains(slots: seq<int>)
    ensures forall s :: s in Distinct(slots) <==> s in slots
    ensures forall i, j :: 0 <= i < j < |Distinct(slots)| ==> Distinct(slots)[i] != Distinct(slots)[j]
  {
    if slots != [] {
      DistinctContains(slots[..|slots| - 1]);
      assert slots == slots[..|slots| - 1] + [slots[|slots| - 1]];
    }
  }

  /** What a transaction means; none without a player. */
  function Meaning(p: Option<Player>, t: Transaction): Translation {
    if p.None? then Rejected
    else if t.actions == [] then Legacy(p.value, t)
    else if |t.actions| == 2 then TwoActions(p.value, t.actions[0], t.actions[1])
    else Rejected
  }

  // ----- conservation

  /** Each drop takes between one and all of what its slot holds, from slots that differ. */
  predicate Conserves(p: Player, drops: seq<Drop>) {
    && drops != []
    && (forall i :: 0 <= i < |drops| ==>
          0 <= drops[i].source < INVENTORY_SIZE && 1 <= drops[i].count <= p.inventory[drops[i].source].count)
    && (forall i, j :: 0 <= i < j < |drops| ==> drops[i].source != drops[j].source)
  }

  lemma SlotsStayDifferent(a: int, b: int)
    requires a != b && InventoryCanonicalSlot(a) >= 0 && InventoryCanonicalSlot(b) >= 0
    ensures InventoryCanonicalSlot(a) != InventoryCanonicalSlot(b)
  {
  }

  /** Every accepted transaction conserves items: it drops only what is there, never twice from
      one slot; the two-action form leaves the claimed remainder of the same item. */
  lemma AcceptedDropsConserve(p: Player, t: Transaction)
    requires Meaning(Some(p), t).Accepted?
    ensures Conserves(p, Meaning(Some(p), t).drops)
    ensures |t.actions| == 2 ==>
              exists inventory, world ::
                && ((inventory, world) == (t.actions[0], t.actions[1]) || (inventory, world) == (t.actions[1], t.actions[0]))
                && Meaning(Some(p), t).drops == [Drop(InventoryCanonicalSlot(inventory.slot), world.newItem.count)]
                && inventory.oldItem.count == world.newItem.count + inventory.newItem.count
                && SameNetworkItem(inventory.oldItem, world.newItem)
                && (inventory.newItem.count > 0 ==> SameNetworkItem(inventory.oldItem, inventory.newItem))
  {
    if t.actions == [] {
      var slots := Distinct(Flatten(t.legacySlots));
      DistinctContains(Flatten(t.legacySlots));
      forall i, j | 0 <= i < j < |slots| ensures InventoryCanonicalSlot(slots[i]) != InventoryCanonicalSlot(slots[j]) {
        assert slots[i] in slots && slots[j] in slots;
        SlotsStayDifferent(slots[i], slots[j]);
      }
      forall i | 0 <= i < |slots| ensures Occupied(p, slots[i]) {
        assert slots[i] in slots;
      }
      LegacyNamesASlot(t.legacySlots);
      assert Flatten(t.legacySlots)[0] in Flatten(t.legacySlots);
    } else {
      var a, b := t.actions[0], t.actions[1];
      if Balanced(p, a, b) {
        BalancedAddsUp(p, a, b);
      } else {
        BalancedAddsUp(p, b, a);
      }
    }
  }

  lemma BalancedAddsUp(p: Player, inventory: DropAction, world: DropAction)
    requires Balanced(p, inventory, world)
    ensures inventory.oldItem.count == world.newItem.count + inventory.newItem.count
    ensures inventory.newItem.count > 0 ==> SameNetworkItem(inventory.oldItem, inventory.newItem)
    ensures Conserves(p, BalancedDrop(inventory, world).drops)
  {
  }

  lemma LegacyNamesASlot(list: seq<LegacySlots>)
    requires list != [] && |list[|list| - 1].slots| >= 1
    ensures Flatten(list) != []
  {
  }

  // ----- which transactions are accepted

  /** The slot of the inventory that a client's storage slot is: the hotbar lies behind the rest. */
  function Storage(slot: nat): nat {
    if slot < 9 then slot + 36 else slot
  }

  /** n items leave a storage slot, and one action says so of the slot and the other of the world: the
      slot had what the player has there, keeps the rest of it, and the world gets n of the same. */
  predicate Leaves(p: Player, slotSide: DropAction, worldSide: DropAction, n: nat) {
    && slotSide.source == FromContainer(Some(0)) && slotSide.slot <= 35
    && worldSide.source == FromWorld && worldSide.slot == 0
    && worldSide.oldItem.networkId == 0 && worldSide.oldItem.count == 0
    && var held := p.inventory[Storage(slotSide.slot)];
    && held.itemId != "" && 1 <= n <= held.count
    && slotSide.oldItem.count == held.count && worldSide.newItem.count == n
    && slotSide.newItem.count == held.count - n
    && worldSide.newItem.networkId == slotSide.oldItem.networkId && worldSide.newItem.metadata == slotSide.oldItem.metadata
    && worldSide.newItem.blockRuntimeId == slotSide.oldItem.blockRuntimeId
    && if n == held.count then slotSide.newItem.networkId == 0
       else slotSide.newItem.networkId == slotSide.oldItem.networkId
            && slotSide.newItem.metadata == slotSide.oldItem.metadata
            && slotSide.newItem.blockRuntimeId == slotSide.oldItem.blockRuntimeId
  }

  lemma LeavesExactly(p: Player, slotSide: DropAction, worldSide: DropAction)
    ensures Balanced(p, slotSide, worldSide) <==> Leaves(p, slotSide, worldSide, worldSide.newItem.count)
    ensures Balanced(p, slotSide, worldSide) ==>
              BalancedDrop(slotSide, worldSide)
              == Accepted([Drop(Storage(slotSide.slot), worldSide.newItem.count)], [slotSide.slot])
  {
  }

  /** Two actions are accepted exactly when, one way round, they make some number of items leave a slot;
      that many are dropped from it, and it is the slot reported. */
  lemma TwoActionsExactly(p: Player, t: Transaction, drop: Drop, slot: nat)
    requires |t.actions| == 2
    ensures Meaning(Some(p), t) == Accepted([drop], [slot]) <==>
              && drop.source == Storage(slot) && drop.count >= 0
              && ((t.actions[0].slot == slot && Leaves(p, t.actions[0], t.actions[1], drop.count))
                  || (t.actions[1].slot == slot && Leaves(p, t.actions[1], t.actions[0], drop.count)))
    ensures Meaning(Some(p), t).Accepted? ==> |Meaning(Some(p), t).drops| == 1 && |Meaning(Some(p), t).slots| == 1
  {
    LeavesExactly(p, t.actions[0], t.actions[1]);
    LeavesExactly(p, t.actions[1], t.actions[0]);
  }

  /** The list names slots of the player's storage that hold something. */
  predicate NamesHeld(p: Player, list: LegacySlots) {
    && (list.container == HotBar || list.container == MainInventory || list.container == HotBarAndInventory)
    && 1 <= |list.slots| <= 2
    && forall k :: 0 <= k < |list.slots| ==>
         0 <= list.slots[k] < 36 && p.inventory[Storage(list.slots[k])].itemId != ""
         && p.inventory[Storage(list.slots[k])].count > 0
  }

  /** Somewhere in the lists the slot is named. */
  predicate NamedIn(lists: seq<LegacySlots>, slot: int) {
    exists i :: 0 <= i < |lists| && slot in lists[i].slots
  }

  lemma {:induction false} FlattenNames(lists: seq<LegacySlots>, slot: int)
    ensures slot in Flatten(lists) <==> NamedIn(lists, slot)
  {
    if lists != [] {
      var n := |lists| - 1;
      FlattenNames(lists[..n], slot);
      assert forall i :: 0 <= i < n ==> lists[..n][i] == lists[i];
    }
  }

  lemma HeldEverywhere(p: Player, t: Transaction)
    ensures LegacyShape(t) && AllOccupied(p, Flatten(t.legacySlots)) <==>
              && t.legacyRequestId != 0 && 1 <= |t.legacySlots| <= 2
              && forall i :: 0 <= i < |t.legacySlots| ==> NamesHeld(p, t.legacySlots[i])
  {
    var all := Flatten(t.legacySlots);
    if LegacyShape(t) && AllOccupied(p, all) {
      forall i, k | 0 <= i < |t.legacySlots| && 0 <= k < |t.legacySlots[i].slots|
        ensures Occupied(p, t.legacySlots[i].slots[k])
      {
        assert t.legacySlots[i].slots[k] in t.legacySlots[i].slots;
        FlattenNames(t.legacySlots, t.legacySlots[i].slots[k]);
      }
    }
    if forall i :: 0 <= i < |t.legacySlots| ==> NamesHeld(p, t.legacySlots[i]) {
      forall s | s in all ensures Occupied(p, s) {
        FlattenNames(t.legacySlots, s);
        var i :| 0 <= i < |t.legacySlots| && s in t.legacySlots[i].slots;
        var k :| 0 <= k < |t.legacySlots[i].slots| && t.legacySlots[i].slots[k] == s;
        assert NamesHeld(p, t.legacySlots[i]);
      }
    }
  }

  /** The slot is mentioned first at position i. */
  predicate FirstAt(slots: seq<int>, s: int, i: nat) {
    i < |slots| && slots[i] == s && s !in slots[..i]
  }

  /** Mentioned earlier is reported earlier. */
  lemma {:induction false} ReportedInOrder(slots: seq<int>, j: nat, k: nat, a: nat, b: nat)
    requires j < k < |Distinct(slots)| && FirstAt(slots, Distinct(slots)[j], a) && FirstAt(slots, Distinct(slots)[k], b)
    ensures a < b
  {
    var n := |slots| - 1;
    var front := slots[..n];
    var before := Distinct(front);
    DistinctContains(front);
    assert Distinct(slots)[j] == before[j];
    assert before[j] in front;
    assert a < n;
    assert b < n ==> front[b] == slots[b] && front[b] in front;
    if b < n {
      assert k < |before|;
      assert front[..a] == slots[..a] && front[..b] == slots[..b];
      ReportedInOrder(front, j, k, a, b);
    }
  }

  /** Slots first mentioned earlier come first. */
  ghost predicate MentionOrder(named: seq<int>, slots: seq<int>) {
    forall j, k, a: nat, b: nat ::
      0 <= j < k < |slots| && FirstAt(named, slots[j], a) && FirstAt(named, slots[k], b) ==> a < b
  }

  /** Without actions a transaction is accepted exactly when all its lists name held slots; every slot
      named is reported once, in the order of first mention, and loses its whole stack. */
  lemma LegacyExactly(p: Player, t: Transaction)
    requires t.actions == []
    ensures Meaning(Some(p), t).Accepted? <==>
              && t.legacyRequestId != 0 && 1 <= |t.legacySlots| <= 2
              && forall i :: 0 <= i < |t.legacySlots| ==> NamesHeld(p, t.legacySlots[i])
    ensures Meaning(Some(p), t).Accepted? ==>
              var r := Meaning(Some(p), t);
              && (forall s :: s in r.slots <==> NamedIn(t.legacySlots, s))
              && (forall j, k :: 0 <= j < k < |r.slots| ==> r.slots[j] != r.slots[k])
              && MentionOrder(Flatten(t.legacySlots), r.slots)
              && |r.drops| == |r.slots|
              && forall k :: 0 <= k < |r.slots| ==>
                   && 0 <= r.slots[k] < 36 && r.drops[k].source == Storage(r.slots[k])
                   && r.drops[k].count == p.inventory[Storage(r.slots[k])].count
  {
    HeldEverywhere(p, t);
    var all := Flatten(t.legacySlots);
    DistinctContains(all);
    if Meaning(Some(p), t).Accepted? {
      var slots := Distinct(all);
      forall s ensures s in slots <==> NamedIn(t.legacySlots, s) {
        FlattenNames(t.legacySlots, s);
      }
      forall k | 0 <= k < |slots| ensures Occupied(p, slots[k]) {
        assert slots[k] in slots && slots[k] in all;
      }
      forall j, k, a: nat, b: nat
        | 0 <= j < k < |slots| && FirstAt(all, slots[j], a) && FirstAt(all, slots[k], b)
        ensures a < b
      {
        ReportedInOrder(all, j, k, a, b);
      }
    }
  }

  /** Without a player, and with any other number of actions, nothing is accepted. */
  lemma NothingElseIsAccepted(p: Option<Player>, t: Transaction)
    requires p.None? || (t.actions != [] && |t.actions| != 2)
    ensures Meaning(p, t) == Rejected
  {
  }

  // ----- the translation

  method CanonicalNormalDropActions(p: Option<Player>, t: Transaction) returns (r: Translation)
    ensures r == Meaning(p, t)
  {
    if p.None? {
      return Rejected;
    }
    if |t.actions| == 0 {
      r := LegacyDropActions(p.value, t);
      return;
    }
    if |t.actions| != 2 {
      return Rejected;
    }
    var container, world: Option<DropAction> := None, None;
    for index := 0 to 2
      invariant container.Some? ==> InventorySide(container.value)
      invariant world.Some? ==> WorldSide(world.value)
      invariant index == 0 ==> container.None? && world.None?
      invariant index == 1 ==>
        || (container == Some(t.actions[0]) && world.None? && InventorySide(t.actions[0]))
        || (world == Some(t.actions[0]) && container.None? && WorldSide(t.actions[0]))
      invariant index == 2 ==>
        || (container == Some(t.actions[0]) && world == Some(t.actions[1]))
        || (container == Some(t.actions[1]) && world == Some(t.actions[0]))
    {
      var action := t.actions[index];
      match action.source {
        case FromContainer(window) =>
          if container.Some? || window != Some(INVENTORY_WINDOW) || action.slot > 35 {
            return Rejected;
          }
          container := Some(action);
        case FromWorld =>
          if world.Some? || action.slot != 0 {
            return Rejected;
          }
          world := Some(action);
        case FromElsewhere =>
          return Rejected;
      }
    }
    OrderDoesNotMatter(p.value, t.actions[0], t.actions[1]);
    r := CheckBalance(p.value, container.value, world.value);
  }

  method CheckBalance(p: Player, containerAction: DropAction, worldAction: DropAction) returns (r: Translation)
    requires InventorySide(containerAction) && WorldSide(worldAction)
    ensures r == if Balanced(p, containerAction, worldAction) then BalancedDrop(containerAction, worldAction) else Rejected
  {
    if !NetworkItemEmpty(worldAction.oldItem) || NetworkItemEmpty(worldAction.newItem)
       || NetworkItemEmpty(containerAction.oldItem) {
      return Rejected;
    }
    var slot := containerAction.slot;
    var canonical := InventoryCanonicalSlot(slot);
    if p.inventory[canonical].IsEmpty() {
      return Rejected;
    }
    var dropped: int := worldAction.newItem.count;
    var oldCount: int := containerAction.oldItem.count;
    var remaining := oldCount - dropped;
    if dropped <= 0 || oldCount != p.inventory[canonical].count || remaining < 0
       || !SameNetworkItem(containerAction.oldItem, worldAction.newItem) {
      return Rejected;
    }
    if remaining == 0 {
      if !NetworkItemEmpty(containerAction.newItem) {
        return Rejected;
      }
    } else if NetworkItemEmpty(containerAction.newItem) || containerAction.newItem.count != remaining
              || !SameNetworkItem(containerAction.oldItem, containerAction.newItem) {
      return Rejected;
    }
    return Accepted([Drop(canonical, dropped)], [slot]);
  }

  method LegacyDropActions(p: Player, t: Transaction) returns (r: Translation)
    ensures r == Legacy(p, t)
  {
    if t.legacyRequestId == 0 || |t.legacySlots| == 0 || |t.legacySlots| > 2 {
      return Rejected;
    }
    var drops: seq<Drop> := [];
    var slots: seq<int> := [];
    var seen: set<int> := {};
    for i := 0 to |t.legacySlots|
      invariant WellShaped(t.legacySlots[..i])
      invariant Gathered(p, Flatten(t.legacySlots[..i]), drops, slots, seen)
    {
      var legacy := t.legacySlots[i];
      FlattenMore(t.legacySlots, i);
      if !legacy.container.HotBar? && !legacy.container.MainInventory? && !legacy.container.HotBarAndInventory? {
        return Rejected;
      }
      if |legacy.slots| == 0 || |legacy.slots| > 2 {
        return Rejected;
      }
      var ok;
      ghost var vacant;
      drops, slots, seen, ok, vacant := GatherSlots(p, legacy.slots, drops, slots, seen, Flatten(t.legacySlots[..i]));
      if !ok {
        NamedInAll(t.legacySlots, i, vacant);
        return Rejected;
      }
    }
    assert t.legacySlots[..|t.legacySlots|] == t.legacySlots;
    r := Accepted(drops, slots);
  }

  /** Adds one list of slots; stops at a slot with nothing in it. */
  method GatherSlots(p: Player, list: seq<int>, drops: seq<Drop>, slots: seq<int>, seen: set<int>,
                     ghost named: seq<int>)
    returns (drops': seq<Drop>, slots': seq<int>, seen': set<int>, ok: bool, ghost vacant: nat)
    requires Gathered(p, named, drops, slots, seen)
    ensures ok ==> Gathered(p, named + list, drops', slots', seen')
    ensures !ok ==> vacant < |list| && !Occupied(p, list[vacant])
  {
    drops', slots', seen', vacant := drops, slots, seen, 0;
    assert named + list[..0] == named;
    for j := 0 to |list|
      invariant Gathered(p, named + list[..j], drops', slots', seen')
    {
      var slot := list[j];
      assert named + list[..j + 1] == named + list[..j] + [slot];
      GatherOne(p, named + list[..j], drops', slots', seen', slot);
      if slot in seen' {
        continue;
      }
      var canonical := InventoryCanonicalSlot(slot);
      if canonical < 0 || p.inventory[canonical].IsEmpty() {
        return drops', slots', seen', false, j;
      }
      seen' := seen' + {slot};
      drops' := drops' + [Drop(canonical, p.inventory[canonical].count)];
      slots' := slots' + [slot];
    }
    assert list[..|list|] == list;
    ok := true;
  }

  /** The drops, slots and seen slots gathered from the slots named so far. */
  ghost predicate Gathered(p: Player, named: seq<int>, drops: seq<Drop>, slots: seq<int>, seen: set<int>) {
    && AllOccupied(p, named)
    && slots == Distinct(named)
    && AllOccupied(p, slots)
    && drops == WholeStacks(p, slots)
    && forall s :: s in seen <==> s in named
  }

  lemma GatherOne(p: Player, named: seq<int>, drops: seq<Drop>, slots: seq<int>, seen: set<int>, slot: int)
    requires Gathered(p, named, drops, slots, seen)
    ensures slot in seen ==> Gathered(p, named + [slot], drops, slots, seen)
    ensures slot !in seen && Occupied(p, slot) ==>
              var canonical := InventoryCanonicalSlot(slot);
              Gathered(p, named + [slot], drops + [Drop(canonical, p.inventory[canonical].count)],
                       slots + [slot], seen + {slot})
  {
    assert (named + [slot])[..|named|] == named;
    DistinctContains(named);
  }

  predicate WellShaped(list: seq<LegacySlots>) {
    forall k :: 0 <= k < |list| ==> LegacyContainer(list[k].container) && 1 <= |list[k].slots| <= 2
  }

  lemma FlattenMore(list: seq<LegacySlots>, i: nat)
    requires i < |list|
    ensures Flatten(list[..i + 1]) == Flatten(list[..i]) + list[i].slots
    ensures WellShaped(list[..i + 1]) <==>
              WellShaped(list[..i]) && LegacyContainer(list[i].container) && 1 <= |list[i].slots| <= 2
  {
    assert list[..i + 1] == list[..i] + [list[i]];
    assert list[..i + 1][..i] == list[..i];
  }

  lemma {:induction false} NamedInAll(list: seq<LegacySlots>, i: nat, j: nat)
    requires i < |list| && j < |list[i].slots|
    ensures list[i].slots[j] in Flatten(list)
  {
    if i < |list| - 1 {
      NamedInAll(list[..|list| - 1], i, j);
    }
  }
}
