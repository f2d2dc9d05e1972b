/**
 Canonical inventory slots: the player state the adapter reads, the slots a
 Bedrock client names, and the translation from one to the other
 (bedrock/listener.go, core/intent/intent.go, core/player/item.go).
 */
module PlayerSlots {
  import opened Options

  const INVENTORY_SIZE := 46
  const HOTBAR_START := 36
  const OFFHAND_SLOT := 45
  const CURSOR_SLOT := -1
  const CRAFTING_TABLE_START := 46
  const CRAFTING_TABLE_OUTPUT := 55
  const FURNACE_INPUT := 56
  const FURNACE_FUEL := 57
  const FURNACE_OUTPUT := 58
  const CONTAINER_START := 59
  const CONTAINER_CELLS := 54

  datatype ItemStack = ItemStack(itemId: string, count: int, damage: int) {
    predicate IsEmpty() {
      count <= 0 || itemId == ""
    }
  }

  const NO_STACK := ItemStack("", 0, 0)

  /** The container ids a stack request can carry. `Station` stands for the
      ids that only workstation screens use, `Unknown` for every other id. */
  datatype Container =
    | CraftingInput | CreatedOutput | CraftingOutputPreview
    | FurnaceIngredient | BlastFurnaceIngredient | SmokerIngredient | FurnaceFuel | FurnaceResult
    | LevelEntity | CrafterLevelEntity
    | Station(id: nat)
    | HotBar | MainInventory | HotBarAndInventory | Armor | Offhand | Cursor
    | Unknown(id: nat)

  /** No screen has more than 54 slots, a double chest. */
  type Cell = n: nat | n < CONTAINER_CELLS

  /** The open screen. A workstation carries its own slot table, so every
      statement below holds for every table. */
  datatype Screen =
    | Other | CraftingTable | Furnace | Crafter
    | Workstation(table: map<(Container, int), Cell>)

  datatype PlayerState = PlayerState(
    inventory: seq<ItemStack>,
    craftingGrid: seq<ItemStack>,
    craftingResult: ItemStack,
    carried: ItemStack,
    screen: Screen,
    containerSlots: seq<ItemStack>)

  type Player = p: PlayerState |
    |p.inventory| == INVENTORY_SIZE && |p.craftingGrid| == 9 && |p.containerSlots| <= CONTAINER_CELLS
    witness PlayerState(seq(46, i => NO_STACK), seq(9, i => NO_STACK), NO_STACK, NO_STACK, Other, [])

  /** A slot as the client names it; `dynamic` is the optional dynamic container id. */
  datatype SlotRef = SlotRef(container: Container, dynamic: Option<nat>, slot: int)

  /** A slot in a request: the name and the stack id the client believes is there. */
  datatype SlotInfo = SlotInfo(at: SlotRef, stackNetworkId: int)

  function StationSlot(p: Player, at: SlotRef): Option<Cell> {
    if p.screen.Workstation? && (at.container, at.slot) in p.screen.table
    then Some(p.screen.table[(at.container, at.slot)])
    else None
  }

  /** The canonical slot a client slot stands for, or none when the name is invalid. */
  function CanonicalSlot(p: Option<Player>, at: SlotRef): Option<int> {
    match at.container
    case CraftingInput =>
      if p.Some? && p.value.screen.CraftingTable? then
        if 0 <= at.slot < 9 then Some(CRAFTING_TABLE_START + at.slot)
        else if 32 <= at.slot <= 40 then Some(CRAFTING_TABLE_START + at.slot - 32)
        else None
      else if 0 <= at.slot < 4 then Some(1 + at.slot)
      else if 28 <= at.slot <= 31 then Some(1 + at.slot - 28)
      else None
    case CreatedOutput => OutputSlot(p, at)
    case CraftingOutputPreview => OutputSlot(p, at)
    case FurnaceIngredient => FurnaceSlot(p, at, 0, FURNACE_INPUT)
    case BlastFurnaceIngredient => FurnaceSlot(p, at, 0, FURNACE_INPUT)
    case SmokerIngredient => FurnaceSlot(p, at, 0, FURNACE_INPUT)
    case FurnaceFuel => FurnaceSlot(p, at, 1, FURNACE_FUEL)
    case FurnaceResult => FurnaceSlot(p, at, 2, FURNACE_OUTPUT)
    case LevelEntity =>
      if p.None? then None
      else if p.value.screen.Furnace? then
        if 0 <= at.slot <= 2 then Some(FURNACE_INPUT + at.slot) else None
      else if 0 <= at.slot < |p.value.containerSlots| then Some(CONTAINER_START + at.slot)
      else None
    case CrafterLevelEntity =>
      if p.Some? && p.value.screen.Crafter? && 0 <= at.slot < |p.value.containerSlots|
      then Some(CONTAINER_START + at.slot)
      else None
    case Station(_) =>
      if p.None? then None
      else
        var index := StationSlot(p.value, at);
        if index.Some? && index.value < |p.value.containerSlots|
        then Some(CONTAINER_START + index.value)
        else None
    case HotBar => StorageSlot(at)
    case MainInventory => StorageSlot(at)
    case HotBarAndInventory => StorageSlot(at)
    case Armor => if 0 <= at.slot <= 3 then Some(5 + at.slot) else None
    case Offhand => if at.slot == 0 then Some(OFFHAND_SLOT) else None
    case Cursor => Some(CURSOR_SLOT)
    case Unknown(_) => None
  }

  lemma CanonicalRange(p: Option<Player>, at: SlotRef)
    ensures CanonicalSlot(p, at).Some? ==> CanonicalSlot(p, at).value >= CURSOR_SLOT
  {
  }

  /** A name for the player's own crafting output that the open workstation leaves alone. */
  predicate OutputNameFree(p: Player, at: SlotRef) {
    && (at.container == CreatedOutput || at.container == CraftingOutputPreview)
    && (at.slot == 0 || at.slot == 50)
    && StationSlot(p, at).None?
  }

  /** Which of the player's own slots a client can name under the open screen: armour, storage and
      off-hand always, the crafting cells unless a crafting table takes over their names, and the
      crafting output if a name for it is left. */
  ghost predicate Nameable(p: Player, slot: nat) {
    if slot == 0 then !p.screen.CraftingTable? && exists at: SlotRef :: OutputNameFree(p, at)
    else slot < 5 ==> !p.screen.CraftingTable?
  }

  function NameOf(slot: nat): SlotRef
    requires 0 < slot < INVENTORY_SIZE
  {
    if slot < 5 then SlotRef(CraftingInput, None, slot - 1)
    else if slot < 9 then SlotRef(Armor, None, slot - 5)
    else if slot < HOTBAR_START then SlotRef(MainInventory, None, slot)
    else if slot < OFFHAND_SLOT then SlotRef(HotBar, None, slot - HOTBAR_START)
    else SlotRef(Offhand, None, 0)
  }

  /** A client name stands for a slot of the player's inventory exactly when the slot is nameable. */
  lemma OwnSlotsNameableExactly(p: Player, slot: nat)
    requires slot < INVENTORY_SIZE
    ensures (exists at :: CanonicalSlot(Some(p), at) == Some(slot)) <==> Nameable(p, slot)
  {
    if Nameable(p, slot) {
      if slot == 0 {
        var at :| OutputNameFree(p, at);
        assert CanonicalSlot(Some(p), at) == Some(slot);
      } else {
        assert CanonicalSlot(Some(p), NameOf(slot)) == Some(slot);
      }
    }
    if at :| CanonicalSlot(Some(p), at) == Some(slot) {
      if slot == 0 { assert OutputNameFree(p, at); }
    }
  }

  function OutputSlot(p: Option<Player>, at: SlotRef): Option<int> {
    if at.slot != 0 && at.slot != 50 then None
    else if p.Some? && p.value.screen.CraftingTable? then Some(CRAFTING_TABLE_OUTPUT)
    else if p.Some? && StationSlot(p.value, at).Some? then
      Some(CONTAINER_START + StationSlot(p.value, at).value)
    else Some(0)
  }

  function FurnaceSlot(p: Option<Player>, at: SlotRef, local: int, canonical: int): Option<int> {
    if p.Some? && p.value.screen.Furnace? && (at.slot == 0 || at.slot == local)
    then Some(canonical)
    else None
  }

  function StorageSlot(at: SlotRef): Option<int> {
    if at.slot < 0 || at.slot > 35 then None
    else if at.slot < 9 then Some(HOTBAR_START + at.slot)
    else Some(at.slot)
  }

  /** The stack the simulation holds in a canonical slot; empty for slots it does not have. */
  function StackAt(p: Player, slot: int): ItemStack {
    if slot == CURSOR_SLOT then p.carried
    else if CRAFTING_TABLE_START <= slot < CRAFTING_TABLE_OUTPUT then
      p.craftingGrid[slot - CRAFTING_TABLE_START]
    else if slot == CRAFTING_TABLE_OUTPUT then p.craftingResult
    else if FURNACE_INPUT <= slot <= FURNACE_OUTPUT then
      ContainerStack(p, slot - FURNACE_INPUT)
    else if slot >= CONTAINER_START then ContainerStack(p, slot - CONTAINER_START)
    else if slot < 0 then NO_STACK
    else p.inventory[slot]
  }

  function ContainerStack(p: Player, index: nat): ItemStack {
    if index < |p.containerSlots| then p.containerSlots[index] else NO_STACK
  }

  /** The stack a client means by a name, read from the player's own fields. */
  function StackNamed(p: Player, at: SlotRef): Option<ItemStack> {
    match at.container
    case Cursor => Some(p.carried)
    case Armor => if 0 <= at.slot < 4 then Some(p.inventory[5 + at.slot]) else None
    case Offhand => if at.slot == 0 then Some(p.inventory[45]) else None
    case HotBar => StorageNamed(p, at.slot)
    case MainInventory => StorageNamed(p, at.slot)
    case HotBarAndInventory => StorageNamed(p, at.slot)
    case CraftingInput =>
      if p.screen.CraftingTable? then
        if 0 <= at.slot < 9 then Some(p.craftingGrid[at.slot])
        else if 32 <= at.slot < 41 then Some(p.craftingGrid[at.slot - 32]) else None
      else if 0 <= at.slot < 4 then Some(p.inventory[1 + at.slot])
      else if 28 <= at.slot < 32 then Some(p.inventory[at.slot - 27]) else None
    case CreatedOutput => OutputNamed(p, at)
    case CraftingOutputPreview => OutputNamed(p, at)
    case FurnaceIngredient => FurnaceNamed(p, at.slot, 0)
    case BlastFurnaceIngredient => FurnaceNamed(p, at.slot, 0)
    case SmokerIngredient => FurnaceNamed(p, at.slot, 0)
    case FurnaceFuel => FurnaceNamed(p, at.slot, 1)
    case FurnaceResult => FurnaceNamed(p, at.slot, 2)
    case LevelEntity =>
      if p.screen.Furnace? then if 0 <= at.slot < 3 then Some(ContainerStack(p, at.slot)) else None
      else if 0 <= at.slot < |p.containerSlots| then Some(p.containerSlots[at.slot]) else None
    case CrafterLevelEntity =>
      if p.screen.Crafter? && 0 <= at.slot < |p.containerSlots| then Some(p.containerSlots[at.slot]) else None
    case Station(_) =>
      if StationSlot(p, at).Some? && StationSlot(p, at).value < |p.containerSlots|
      then Some(p.containerSlots[StationSlot(p, at).value]) else None
    case Unknown(_) => None
  }

  /** The hotbar comes last in the inventory and first in the client's numbering. */
  function StorageNamed(p: Player, slot: int): Option<ItemStack> {
    if 0 <= slot < 9 then Some(p.inventory[36 + slot])
    else if 9 <= slot < 36 then Some(p.inventory[slot]) else None
  }

  function OutputNamed(p: Player, at: SlotRef): Option<ItemStack> {
    if at.slot != 0 && at.slot != 50 then None
    else if p.screen.CraftingTable? then Some(p.craftingResult)
    else if StationSlot(p, at).Some? then Some(ContainerStack(p, StationSlot(p, at).value))
    else Some(p.inventory[0])
  }

  function FurnaceNamed(p: Player, slot: int, own: nat): Option<ItemStack> {
    if p.screen.Furnace? && (slot == 0 || slot == own) then Some(ContainerStack(p, own)) else None
  }

  /** The name is valid exactly when the player has the stack it means, and leads to that stack. */
  predicate ShowsNamed(p: Player, slot: Option<int>, stack: Option<ItemStack>) {
    && (slot.Some? <==> stack.Some?)
    && (slot.Some? ==> slot.value >= CURSOR_SLOT && stack == Some(StackAt(p, slot.value)))
  }

  lemma OutputShown(p: Player, at: SlotRef)
    ensures ShowsNamed(p, OutputSlot(Some(p), at), OutputNamed(p, at))
  {
  }

  lemma FurnaceShown(p: Player, at: SlotRef, own: nat)
    requires own <= 2
    ensures ShowsNamed(p, FurnaceSlot(Some(p), at, own, FURNACE_INPUT + own), FurnaceNamed(p, at.slot, own))
  {
  }

  lemma StorageShown(p: Player, at: SlotRef)
    ensures ShowsNamed(p, StorageSlot(at), StorageNamed(p, at.slot))
  {
  }

  lemma ScreenShown(p: Player, at: SlotRef)
    requires at.container.LevelEntity? || at.container.CrafterLevelEntity? || at.container.Station?
    ensures ShowsNamed(p, CanonicalSlot(Some(p), at), StackNamed(p, at))
  {
  }

  /** A name is valid exactly when the player has the stack it means, and its canonical slot holds
      that stack. */
  lemma NamesShowTheirStacks(p: Player, at: SlotRef)
    ensures ShowsNamed(p, CanonicalSlot(Some(p), at), StackNamed(p, at))
  {
    match at.container
    case CreatedOutput => OutputShown(p, at);
    case CraftingOutputPreview => OutputShown(p, at);
    case FurnaceIngredient => FurnaceShown(p, at, 0);
    case BlastFurnaceIngredient => FurnaceShown(p, at, 0);
    case SmokerIngredient => FurnaceShown(p, at, 0);
    case FurnaceFuel => FurnaceShown(p, at, 1);
    case FurnaceResult => FurnaceShown(p, at, 2);
    case HotBar => StorageShown(p, at);
    case MainInventory => StorageShown(p, at);
    case HotBarAndInventory => StorageShown(p, at);
    case LevelEntity => ScreenShown(p, at);
    case CrafterLevelEntity => ScreenShown(p, at);
    case Station(_) => ScreenShown(p, at);
    case _ =>
  }

  /** The server's own name for a slot of the inventory leads back to it, the crafting cells away
      from a crafting table. */
  lemma NameLeadsBack(p: Player, slot: nat)
    requires 0 < slot < INVENTORY_SIZE
    ensures CanonicalSlot(Some(p), NameOf(slot)) == Some(slot) <==> slot >= 5 || !p.screen.CraftingTable?
  {
  }
}
