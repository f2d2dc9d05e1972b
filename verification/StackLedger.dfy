/**
 The stack-network-id ledger as a value: one id per canonical slot, the counter,
 and the effect of every operation that writes an id
 (bedrock/listener.go, bedrock/sync.go).
 */
module StackLedger {
  import opened Options
  import opened PlayerSlots

  const MAX_INT32 := 0x7fff_ffff

  /** One cell for the cursor, then 46 inventory, 10 crafting, 3 furnace and 54 container cells. */
  const CELLS := 114

  /** `issued` counts the ids handed out so far; it is an observation, not a stored field. */
  datatype LedgerState = LedgerState(cells: seq<int>, next: int, issued: nat)

  type Ledger = l: LedgerState | |l.cells| == CELLS
    witness LedgerState(seq(CELLS, i => 0), 1, 0)

  const EMPTY_LEDGER: Ledger := LedgerState(seq(CELLS, i => 0), 1, 0)

  /** The slots for which the session stores an id: cell k belongs to slot k - 1. */
  predicate Stored(slot: int) {
    CURSOR_SLOT <= slot < CELLS - 1
  }

  /** Every slot a client can name has a cell. */
  lemma EverySlotIsStored(p: Player, at: SlotRef)
    ensures CanonicalSlot(Some(p), at).Some? ==> Stored(CanonicalSlot(Some(p), at).value)
  {
  }

  function IdAt(l: Ledger, slot: int): int {
    if Stored(slot) then l.cells[slot + 1] else 0
  }

  function Put(l: Ledger, slot: int, id: int): Ledger {
    if Stored(slot) then l.(cells := l.cells[slot + 1 := id]) else l
  }

  /** A signed 32-bit counter wraps to the most negative value. */
  function Wrap32(n: int): int {
    (n + 0x8000_0000) % 0x1_0000_0000 - 0x8000_0000
  }

  /** The id the next allocation returns. */
  function Fresh(l: Ledger): int {
    if l.next <= 0 then 1 else l.next
  }

  function Mint(l: Ledger): Ledger {
    var bumped := Wrap32(Fresh(l) + 1);
    l.(next := if bumped <= 0 then 1 else bumped, issued := l.issued + 1)
  }

  /** The stored id, or the id the client claims when none is stored. */
  function Known(stored: int, hint: int): int {
    if stored == 0 && hint > 0 then hint else stored
  }

  // ----- one id moving between two slots

  /** The destination of a take or place, given the ids known for both slots. */
  function PlaceId(l: Ledger, d: int, sId: int, dId: int, sEmpty: bool, dEmpty: bool): Ledger {
    if dEmpty then Put(l, d, 0)
    else if dId > 0 then Put(l, d, dId)
    else if sId > 0 && sEmpty then Put(l, d, sId)
    else Put(Mint(l), d, Fresh(l))
  }

  /** Take and place: `sEmpty` and `dEmpty` say whether the slots are empty after the request. */
  function MoveId(l: Ledger, s: int, d: int, sHint: int, dHint: int, sEmpty: bool, dEmpty: bool): Ledger {
    var sId := Known(IdAt(l, s), sHint);
    var placed := PlaceId(l, d, sId, Known(IdAt(l, d), dHint), sEmpty, dEmpty);
    if sEmpty then Put(placed, s, 0)
    else if sId > 0 then Put(placed, s, sId)
    else Put(Mint(placed), s, Fresh(placed))
  }

  function SwapIds(l: Ledger, s: int, d: int, sHint: int, dHint: int): Ledger {
    Put(Put(l, s, Known(IdAt(l, d), dHint)), d, Known(IdAt(l, s), sHint))
  }

  // ----- the actions of a request

  /** The client actions of a stack request. `Other` covers the kinds that touch no slot. */
  datatype Action =
    | CraftCreative(creativeId: nat)
    | CraftResults(previewCount: Option<nat>)
    | Create
    | Take(source: SlotInfo, destination: SlotInfo, count: nat)
    | Place(source: SlotInfo, destination: SlotInfo, count: nat)
    | Swap(source: SlotInfo, destination: SlotInfo)
    | Drop(source: SlotInfo, count: nat)
    | Destroy(source: SlotInfo, count: nat)
    | Consume(source: SlotInfo, count: nat)
    | CraftRecipe(crafts: int)
    | AutoCraftRecipe(crafts: int)
    | CraftOptional
    | CraftPrediction
    | Unsupported

  function Slot(p: Player, info: SlotInfo): Option<int> {
    CanonicalSlot(Some(p), info.at)
  }

  function Transfer(l: Ledger, p: Player, source: SlotInfo, destination: SlotInfo): Ledger {
    match (Slot(p, source), Slot(p, destination))
    case (Some(s), Some(d)) =>
      MoveId(l, s, d, source.stackNetworkId, destination.stackNetworkId,
             StackAt(p, s).IsEmpty(), StackAt(p, d).IsEmpty())
    case _ => l
  }

  function ClearIfEmpty(l: Ledger, p: Player, source: SlotInfo): Ledger {
    var s := Slot(p, source);
    if s.Some? && StackAt(p, s.value).IsEmpty() then Put(l, s.value, 0) else l
  }

  function ApplyAction(l: Ledger, p: Player, a: Action): Ledger {
    match a
    case CraftCreative(_) => Put(Mint(l), CURSOR_SLOT, Fresh(l))
    case Take(source, destination, _) => Transfer(l, p, source, destination)
    case Place(source, destination, _) => Transfer(l, p, source, destination)
    case Swap(source, destination) =>
      (match (Slot(p, source), Slot(p, destination))
       case (Some(s), Some(d)) => SwapIds(l, s, d, source.stackNetworkId, destination.stackNetworkId)
       case _ => l)
    case Drop(source, _) => ClearIfEmpty(l, p, source)
    case Destroy(source, _) => ClearIfEmpty(l, p, source)
    case Consume(source, _) => ClearIfEmpty(l, p, source)
    case _ => l
  }

  function ApplyActions(l: Ledger, p: Player, actions: seq<Action>): Ledger {
    if actions == [] then l
    else ApplyAction(ApplyActions(l, p, actions[..|actions| - 1]), p, actions[|actions| - 1])
  }

  // ----- reporting and refreshing: an occupied slot gets an id, an empty one loses it

  function Settle(l: Ledger, slot: int, empty: bool): Ledger {
    if empty then Put(l, slot, 0)
    else if IdAt(l, slot) == 0 then Put(Mint(l), slot, Fresh(l))
    else l
  }

  function SettledId(l: Ledger, slot: int, empty: bool): int {
    if empty then 0 else if IdAt(l, slot) == 0 then Fresh(l) else IdAt(l, slot)
  }

  /** A slot as a refresh pass sees it; `replaced` asks for a new id although one is stored. */
  datatype Sighting = Sighting(slot: int, empty: bool, replaced: bool)

  function Refresh(l: Ledger, see: Sighting): Ledger {
    if !see.empty && see.replaced then Put(Mint(l), see.slot, Fresh(l))
    else Settle(l, see.slot, see.empty)
  }

  function RefreshAll(l: Ledger, sightings: seq<Sighting>): Ledger {
    if sightings == [] then l
    else Refresh(RefreshAll(l, sightings[..|sightings| - 1]), sightings[|sightings| - 1])
  }

  lemma RefreshAppend(l: Ledger, sightings: seq<Sighting>, see: Sighting)
    ensures RefreshAll(l, sightings + [see]) == Refresh(RefreshAll(l, sightings), see)
  {
    assert (sightings + [see])[..|sightings|] == sightings;
  }

  lemma SettleElsewhere(l: Ledger, slot: int, empty: bool, other: int)
    requires other != slot
    ensures IdAt(Settle(l, slot, empty), other) == IdAt(l, other)
  {
  }

  /** Opening a container forgets every container id. */
  function ForgetContainer(l: Ledger): Ledger {
    l.(cells := seq(CELLS, i requires 0 <= i < CELLS =>
         if i > CONTAINER_START then 0 else l.cells[i]))
  }

  // ----- invariants

  predicate Distinct(cells: seq<int>) {
    forall i, j :: 0 <= i < j < |cells| && cells[i] != 0 ==> cells[i] != cells[j]
  }

  predicate NoNegativeId(l: Ledger) {
    forall i :: 0 <= i < CELLS ==> 0 <= l.cells[i]
  }

  /** Holds in every run, wrapped counter or not. */
  predicate NonNegative(l: Ledger) {
    1 <= l.next <= MAX_INT32 && NoNegativeId(l)
  }

  /** Ids are pairwise distinct and below the counter, which has not wrapped. */
  predicate Sound(l: Ledger) {
    && l.next == l.issued + 1
    && l.next <= MAX_INT32
    && Distinct(l.cells)
    && forall i :: 0 <= i < CELLS ==> 0 <= l.cells[i] < l.next
  }

  /** The counter has handed out every 32-bit id once, or the ledger is sound. */
  predicate SoundUntilWrap(l: Ledger) {
    NonNegative(l) && (l.issued < MAX_INT32 ==> Sound(l))
  }

  // ----- single writes

  lemma MintKeeps(l: Ledger)
    requires NonNegative(l)
    ensures NonNegative(Mint(l)) && 1 <= Fresh(l) <= MAX_INT32
    ensures Mint(l).cells == l.cells && Mint(l).issued == l.issued + 1
    ensures SoundUntilWrap(l) ==> SoundUntilWrap(Mint(l))
  {
  }

  lemma PutFreshKeeps(l: Ledger, slot: int)
    requires SoundUntilWrap(l)
    ensures SoundUntilWrap(Put(Mint(l), slot, Fresh(l)))
  {
    MintKeeps(l);
  }

  lemma PutZeroKeeps(l: Ledger, slot: int)
    requires SoundUntilWrap(l)
    ensures SoundUntilWrap(Put(l, slot, 0))
  {
  }
}
