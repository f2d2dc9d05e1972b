/**
 Where the ids go (bedrock/listener.go): what every action of a request and every
 refresh does to the id of every slot, said by the ids alone.
 */
module StackIds {
  import opened Options
  import opened PlayerSlots
  import opened StackLedger
  import opened StackReports

  /** The id a slot is taken to have: the stored one, or else one that the client claims. */
  function Believed(l: Ledger, slot: int, info: SlotInfo): int {
    if IdAt(l, slot) != 0 then IdAt(l, slot)
    else if info.stackNetworkId > 0 then info.stackNetworkId else 0
  }

  /** Every slot but these keeps its id. */
  ghost predicate OthersKeep(before: Ledger, after: Ledger, slots: set<int>) {
    forall slot: int :: slot !in slots ==> IdAt(after, slot) == IdAt(before, slot)
  }

  /** After a swap each slot holds the other's former id. */
  lemma SwapExchangesIds(l: Ledger, p: Player, a: SlotInfo, b: SlotInfo, s: int, d: int)
    requires Slot(p, a) == Some(s) && Slot(p, b) == Some(d) && s != d
    ensures var after := ApplyAction(l, p, Swap(a, b));
            && IdAt(after, s) == Believed(l, d, b) && IdAt(after, d) == Believed(l, s, a)
            && OthersKeep(l, after, {s, d}) && after.next == l.next
    ensures IdAt(l, s) != 0 && IdAt(l, d) != 0 ==>
              var after := ApplyAction(l, p, Swap(a, b));
              IdAt(after, s) == IdAt(l, d) && IdAt(after, d) == IdAt(l, s)
  {
    EverySlotIsStored(p, a.at);
    EverySlotIsStored(p, b.at);
  }

  /** Swapping twice puts every stored id back. */
  lemma SwapTwiceRestores(l: Ledger, p: Player, a: SlotInfo, b: SlotInfo, s: int, d: int, slot: int)
    requires Slot(p, a) == Some(s) && Slot(p, b) == Some(d) && s != d
    requires IdAt(l, s) != 0 && IdAt(l, d) != 0
    ensures IdAt(ApplyAction(ApplyAction(l, p, Swap(a, b)), p, Swap(a, b)), slot) == IdAt(l, slot)
  {
    SwapExchangesIds(l, p, a, b, s, d);
    SwapExchangesIds(ApplyAction(l, p, Swap(a, b)), p, a, b, s, d);
  }

  /** A take or place of items from slot s to another slot d. */
  predicate Moves(p: Player, a: Action, s: int, d: int) {
    && (a.Take? || a.Place?) && s != d
    && Slot(p, a.source) == Some(s) && Slot(p, a.destination) == Some(d)
  }

  /** A whole stack moved into a slot without an id carries its id along. */
  lemma WholeStackCarriesItsId(l: Ledger, p: Player, a: Action, s: int, d: int)
    requires Moves(p, a, s, d) && StackAt(p, s).IsEmpty() && !StackAt(p, d).IsEmpty()
    requires Believed(l, s, a.source) > 0 && Believed(l, d, a.destination) <= 0
    ensures var after := ApplyAction(l, p, a);
            && IdAt(after, d) == Believed(l, s, a.source) && IdAt(after, s) == 0
            && OthersKeep(l, after, {s, d}) && after.next == l.next
  {
    EverySlotIsStored(p, a.source.at);
    EverySlotIsStored(p, a.destination.at);
  }

  /** The remainder of a split keeps its id, and the new part gets the next one. */
  lemma SplitMintsForTheNewPart(l: Ledger, p: Player, a: Action, s: int, d: int)
    requires NonNegative(l) && Moves(p, a, s, d) && !StackAt(p, s).IsEmpty() && !StackAt(p, d).IsEmpty()
    requires Believed(l, s, a.source) > 0 && Believed(l, d, a.destination) == 0
    ensures var after := ApplyAction(l, p, a);
            && IdAt(after, s) == Believed(l, s, a.source) && IdAt(after, d) == l.next
            && OthersKeep(l, after, {s, d}) && after.issued == l.issued + 1
  {
    EverySlotIsStored(p, a.source.at);
    EverySlotIsStored(p, a.destination.at);
  }

  /** A merge keeps the destination's id; the source keeps its own unless it is used up. */
  lemma MergeKeepsTheDestination(l: Ledger, p: Player, a: Action, s: int, d: int)
    requires NonNegative(l) && Moves(p, a, s, d) && !StackAt(p, d).IsEmpty()
    requires Believed(l, d, a.destination) > 0
    ensures var after := ApplyAction(l, p, a);
            && IdAt(after, d) == Believed(l, d, a.destination)
            && (StackAt(p, s).IsEmpty() ==> IdAt(after, s) == 0 && after.next == l.next)
            && (!StackAt(p, s).IsEmpty() && Believed(l, s, a.source) > 0 ==>
                  IdAt(after, s) == Believed(l, s, a.source) && after.next == l.next)
  {
    EverySlotIsStored(p, a.source.at);
    EverySlotIsStored(p, a.destination.at);
  }

  /** Whatever else a take or place meets: an empty slot ends without an id, and an occupied slot
      that had none ends with a new one. */
  lemma MoveSettlesBoth(l: Ledger, p: Player, a: Action, s: int, d: int)
    requires NonNegative(l) && Moves(p, a, s, d)
    ensures var after := ApplyAction(l, p, a);
            && (StackAt(p, s).IsEmpty() ==> IdAt(after, s) == 0)
            && (StackAt(p, d).IsEmpty() ==> IdAt(after, d) == 0)
            && (!StackAt(p, s).IsEmpty() && Believed(l, s, a.source) > 0 ==> IdAt(after, s) == Believed(l, s, a.source))
            && (!StackAt(p, s).IsEmpty() && Believed(l, s, a.source) == 0 && StackAt(p, d).IsEmpty() ==>
                  IdAt(after, s) == l.next)
            && (Believed(l, s, a.source) == 0 && !StackAt(p, d).IsEmpty() && Believed(l, d, a.destination) == 0 ==>
                  IdAt(after, d) == l.next)
            && OthersKeep(l, after, {s, d})
  {
    EverySlotIsStored(p, a.source.at);
    EverySlotIsStored(p, a.destination.at);
  }

  /** Dropping, destroying or consuming takes the id of a slot that is left empty, and no other. */
  lemma EmptiedSlotsLoseTheirIds(l: Ledger, p: Player, a: Action, s: int)
    requires (a.Drop? || a.Destroy? || a.Consume?) && Slot(p, a.source) == Some(s)
    ensures var after := ApplyAction(l, p, a);
            && IdAt(after, s) == (if StackAt(p, s).IsEmpty() then 0 else IdAt(l, s))
            && OthersKeep(l, after, {s}) && after.next == l.next
  {
    EverySlotIsStored(p, a.source.at);
  }

  /** A creative craft puts the next id on the cursor. */
  lemma CreativeIdGoesToTheCursor(l: Ledger, p: Player, a: Action)
    requires NonNegative(l) && a.CraftCreative?
    ensures var after := ApplyAction(l, p, a);
            IdAt(after, CURSOR_SLOT) == l.next && OthersKeep(l, after, {CURSOR_SLOT}) && after.issued == l.issued + 1
  {
  }

  /** Every other action, and every action that names a slot that does not exist, leaves all ids alone. */
  lemma OtherActionsMoveNoId(l: Ledger, p: Player, a: Action)
    requires a.CraftResults? || a.Create? || a.CraftRecipe? || a.AutoCraftRecipe? || a.CraftOptional?
             || a.CraftPrediction? || a.Unsupported?
             || ((a.Drop? || a.Destroy? || a.Consume?) && Slot(p, a.source).None?)
             || ((a.Take? || a.Place? || a.Swap?) && (Slot(p, a.source).None? || Slot(p, a.destination).None?))
    ensures ApplyAction(l, p, a) == l
  {
  }

  /** A refresh clears an empty slot, gives a replaced or id-less stack the next id, and lets every
      other stack keep its own. */
  lemma RefreshIds(l: Ledger, see: Sighting)
    requires NonNegative(l) && Stored(see.slot)
    ensures var after := Refresh(l, see);
            && IdAt(after, see.slot) == (if see.empty then 0
                                         else if see.replaced || IdAt(l, see.slot) == 0 then l.next
                                         else IdAt(l, see.slot))
            && OthersKeep(l, after, {see.slot})
  {
  }

  /** Opening a container clears the container's ids and no others. */
  lemma OpeningForgetsContainerIds(l: Ledger, slot: int)
    ensures IdAt(ForgetContainer(l), slot) == if slot >= CONTAINER_START then 0 else IdAt(l, slot)
    ensures ForgetContainer(l).next == l.next
  {
  }
}
