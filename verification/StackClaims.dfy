/**
 Ids a client claims. When the session stores no id for a slot it takes over the
 positive id the client sent (bedrock/listener.go). This module says exactly when
 that does no harm: for every action, and why an id that is not yet issued does.
 */
module StackClaims {
  import opened Options
  import opened PlayerSlots
  import opened StackLedger

  /** The client's claimed id would be taken over for this slot. */
  predicate AdoptsHint(l: Ledger, slot: int, hint: int) {
    IdAt(l, slot) == 0 && hint > 0
  }

  /** No cell other than i and j holds the id. */
  predicate Absent(cells: seq<int>, i: nat, j: nat, id: int) {
    forall k :: 0 <= k < |cells| && k != i && k != j ==> cells[k] != id
  }

  /** The claimed id was issued before and no third slot holds it. */
  predicate Claimable(l: Ledger, s: int, d: int, hint: int)
    requires Stored(s) && Stored(d)
  {
    hint < l.next && Absent(l.cells, s + 1, d + 1, hint)
  }

  /** A check possible before a take or place: every claimed id that stays is claimable, and the
      two slots do not keep one id. Within one slot only the source's claim stays, and the
      allocation it overwrites makes room for one more. */
  predicate TransferHarmless(l: Ledger, s: int, d: int, sHint: int, dHint: int, sEmpty: bool, dEmpty: bool)
    requires Stored(s) && Stored(d)
  {
    var sId, dId := Known(IdAt(l, s), sHint), Known(IdAt(l, d), dHint);
    if s == d then
      !sEmpty && AdoptsHint(l, s, sHint) ==>
        Absent(l.cells, s + 1, s + 1, sHint) && sHint < if dHint > 0 then l.next else l.next + 1
    else
      && (AdoptsHint(l, s, sHint) && (!sEmpty || (!dEmpty && dId <= 0)) ==> Claimable(l, s, d, sHint))
      && (AdoptsHint(l, d, dHint) && !dEmpty ==> Claimable(l, s, d, dHint))
      && (!sEmpty && !dEmpty && sId > 0 && dId > 0 ==> sId != dId)
  }

  /** The same for a swap, where both claims stay. */
  predicate SwapHarmless(l: Ledger, s: int, d: int, sHint: int, dHint: int)
    requires Stored(s) && Stored(d)
  {
    var sId, dId := Known(IdAt(l, s), sHint), Known(IdAt(l, d), dHint);
    if s == d then AdoptsHint(l, s, sHint) ==> Claimable(l, s, s, sHint)
    else
      && (AdoptsHint(l, s, sHint) ==> Claimable(l, s, d, sHint))
      && (AdoptsHint(l, d, dHint) ==> Claimable(l, s, d, dHint))
      && (sId > 0 && dId > 0 ==> sId != dId)
  }

  predicate HarmlessTransfer(l: Ledger, p: Player, source: SlotInfo, destination: SlotInfo) {
    EverySlotIsStored(p, source.at);
    EverySlotIsStored(p, destination.at);
    match (Slot(p, source), Slot(p, destination))
    case (Some(s), Some(d)) =>
      TransferHarmless(l, s, d, source.stackNetworkId, destination.stackNetworkId,
                       StackAt(p, s).IsEmpty(), StackAt(p, d).IsEmpty())
    case _ => true
  }

  predicate HarmlessSwap(l: Ledger, p: Player, source: SlotInfo, destination: SlotInfo) {
    EverySlotIsStored(p, source.at);
    EverySlotIsStored(p, destination.at);
    match (Slot(p, source), Slot(p, destination))
    case (Some(s), Some(d)) => SwapHarmless(l, s, d, source.stackNetworkId, destination.stackNetworkId)
    case _ => true
  }

  /** The client ids the action would take over, if any, do no harm. */
  predicate Harmless(l: Ledger, p: Player, a: Action) {
    match a
    case Take(source, destination, _) => HarmlessTransfer(l, p, source, destination)
    case Place(source, destination, _) => HarmlessTransfer(l, p, source, destination)
    case Swap(source, destination) => HarmlessSwap(l, p, source, destination)
    case _ => true
  }

  predicate AdoptsFor(l: Ledger, p: Player, info: SlotInfo) {
    var slot := Slot(p, info);
    slot.Some? && AdoptsHint(l, slot.value, info.stackNetworkId)
  }

  /** The action relies on no client-supplied id. */
  predicate Unhinted(l: Ledger, p: Player, a: Action) {
    match a
    case Take(source, destination, _) => !AdoptsFor(l, p, source) && !AdoptsFor(l, p, destination)
    case Place(source, destination, _) => !AdoptsFor(l, p, source) && !AdoptsFor(l, p, destination)
    case Swap(source, destination) => !AdoptsFor(l, p, source) && !AdoptsFor(l, p, destination)
    case _ => true
  }

  /** An action that takes over no client id is harmless. */
  lemma UnhintedIsHarmless(l: Ledger, p: Player, a: Action)
    requires Sound(l) && Unhinted(l, p, a)
    ensures Harmless(l, p, a)
  {
    if a.Take? || a.Place? || a.Swap? {
      EverySlotIsStored(p, a.source.at);
      EverySlotIsStored(p, a.destination.at);
      if Slot(p, a.source).Some? && Slot(p, a.destination).Some? {
        var s, d := Slot(p, a.source).value, Slot(p, a.destination).value;
        if s != d { StoredIdsDiffer(l, s, d); }
      }
    }
  }

  lemma StoredIdsDiffer(l: Ledger, s: int, d: int)
    requires Sound(l) && Stored(s) && Stored(d) && s != d
    ensures IdAt(l, s) != 0 ==> IdAt(l, s) != IdAt(l, d)
  {
    if s < d { assert l.cells[s + 1] != 0 ==> l.cells[s + 1] != l.cells[d + 1]; }
    if d < s { assert l.cells[d + 1] != 0 ==> l.cells[d + 1] != l.cells[s + 1]; }
  }

  // ----- two cells are written

  /** What two new ids must satisfy for the ledger to stay sound. */
  predicate Fit(l: Ledger, i: nat, a: int, j: nat, b: int, next: int) {
    && 0 <= a < next && 0 <= b < next
    && (a != 0 ==> Absent(l.cells, i, j, a) && (i != j ==> a != b))
    && (b != 0 ==> Absent(l.cells, i, j, b))
  }

  lemma TwoWritesSoundExactly(l: Ledger, i: nat, a: int, j: nat, b: int, after: Ledger)
    requires Sound(l) && i < CELLS && j < CELLS && (i == j ==> a == b)
    requires after.cells == l.cells[j := b][i := a]
    requires after.next == after.issued + 1 && l.next <= after.next <= MAX_INT32
    ensures Sound(after) <==> Fit(l, i, a, j, b, after.next)
  {
    assert after.cells[i] == a && after.cells[j] == b;
    assert forall k :: 0 <= k < CELLS && k != i && k != j ==> after.cells[k] == l.cells[k];
    if Sound(after) {
      forall k | 0 <= k < CELLS && k != i && k != j
        ensures (a != 0 ==> l.cells[k] != a) && (b != 0 ==> l.cells[k] != b)
      {
        assert after.cells[k] == l.cells[k];
      }
    }
  }

  /** An id that is not yet issued, or that one of the two slots holds, is in no third slot. */
  lemma AbsentElsewhere(l: Ledger, s: int, d: int, id: int)
    requires Sound(l) && Stored(s) && Stored(d) && id != 0
    requires id >= l.next || id == IdAt(l, s) || id == IdAt(l, d)
    ensures Absent(l.cells, s + 1, d + 1, id)
  {
    forall k | 0 <= k < CELLS && k != s + 1 && k != d + 1 ensures l.cells[k] != id {
      assert l.cells[k] < l.next;
      StoredIdsDiffer(l, k - 1, s);
      StoredIdsDiffer(l, k - 1, d);
    }
  }

  lemma AbsentStored(l: Ledger, s: int, d: int)
    requires Sound(l) && Stored(s) && Stored(d)
    ensures IdAt(l, s) != 0 ==> Absent(l.cells, s + 1, d + 1, IdAt(l, s))
    ensures IdAt(l, d) != 0 ==> Absent(l.cells, s + 1, d + 1, IdAt(l, d))
    ensures Absent(l.cells, s + 1, d + 1, l.next) && Absent(l.cells, s + 1, d + 1, l.next + 1)
  {
    if IdAt(l, s) != 0 { AbsentElsewhere(l, s, d, IdAt(l, s)); }
    if IdAt(l, d) != 0 { AbsentElsewhere(l, s, d, IdAt(l, d)); }
    AbsentElsewhere(l, s, d, l.next);
    AbsentElsewhere(l, s, d, l.next + 1);
  }

  // ----- exactly when a client-supplied id is harmless

  /** The ids a transfer leaves in source and destination, and how many it allocates. */
  function FinalIds(l: Ledger, s: int, d: int, sHint: int, dHint: int, sEmpty: bool, dEmpty: bool): (int, int, nat) {
    var sId, dId := Known(IdAt(l, s), sHint), Known(IdAt(l, d), dHint);
    var first: nat := if !dEmpty && dId <= 0 && (sId <= 0 || !sEmpty) then 1 else 0;
    var second: nat := if !sEmpty && sId <= 0 then 1 else 0;
    var a := if sEmpty then 0 else if sId > 0 then sId else l.next + first;
    var b := if s == d then a
             else if dEmpty then 0 else if dId > 0 then dId else if first == 1 then l.next else sId;
    (a, b, first + second)
  }

  lemma MoveIdWrites(l: Ledger, s: int, d: int, sHint: int, dHint: int, sEmpty: bool, dEmpty: bool)
    requires Sound(l) && Stored(s) && Stored(d) && (s == d ==> sEmpty == dEmpty)
    requires MoveId(l, s, d, sHint, dHint, sEmpty, dEmpty).issued < MAX_INT32
    ensures var (a, b, minted) := FinalIds(l, s, d, sHint, dHint, sEmpty, dEmpty);
            var after := MoveId(l, s, d, sHint, dHint, sEmpty, dEmpty);
            && after.cells == l.cells[d + 1 := b][s + 1 := a]
            && after.issued == l.issued + minted && after.next == after.issued + 1
  {
    if sEmpty || Known(IdAt(l, s), sHint) > 0 {
      WritesTwo(l, d, s);
    } else {
      WritesTwo(Mint(l), d, s);
    }
  }

  lemma WritesTwo(l: Ledger, d: int, s: int)
    requires Stored(s) && Stored(d)
    ensures forall a, b :: Put(Put(l, d, b), s, a) == l.(cells := l.cells[d + 1 := b][s + 1 := a])
  {
  }

  /** A take or place keeps the ledger sound if and only if its claims are harmless. */
  lemma TransferSoundExactly(l: Ledger, s: int, d: int, sHint: int, dHint: int, sEmpty: bool, dEmpty: bool)
    requires Sound(l) && Stored(s) && Stored(d) && (s == d ==> sEmpty == dEmpty)
    requires MoveId(l, s, d, sHint, dHint, sEmpty, dEmpty).issued < MAX_INT32
    ensures Sound(MoveId(l, s, d, sHint, dHint, sEmpty, dEmpty))
            <==> TransferHarmless(l, s, d, sHint, dHint, sEmpty, dEmpty)
  {
    var after := MoveId(l, s, d, sHint, dHint, sEmpty, dEmpty);
    var (a, b, minted) := FinalIds(l, s, d, sHint, dHint, sEmpty, dEmpty);
    MoveIdWrites(l, s, d, sHint, dHint, sEmpty, dEmpty);
    TwoWritesSoundExactly(l, s + 1, a, d + 1, b, after);
    FinalIdsFit(l, s, d, sHint, dHint, sEmpty, dEmpty);
  }

  lemma FinalIdsFit(l: Ledger, s: int, d: int, sHint: int, dHint: int, sEmpty: bool, dEmpty: bool)
    requires Sound(l) && Stored(s) && Stored(d) && (s == d ==> sEmpty == dEmpty)
    ensures var (a, b, minted) := FinalIds(l, s, d, sHint, dHint, sEmpty, dEmpty);
            Fit(l, s + 1, a, d + 1, b, l.next + minted)
            <==> TransferHarmless(l, s, d, sHint, dHint, sEmpty, dEmpty)
  {
    AbsentStored(l, s, d);
    if s != d { StoredIdsDiffer(l, s, d); }
  }

  /** A swap keeps the ledger sound if and only if its claims are harmless. */
  lemma SwapSoundExactly(l: Ledger, s: int, d: int, sHint: int, dHint: int)
    requires Sound(l) && Stored(s) && Stored(d)
    ensures Sound(SwapIds(l, s, d, sHint, dHint)) <==> SwapHarmless(l, s, d, sHint, dHint)
  {
    var sId, dId := Known(IdAt(l, s), sHint), Known(IdAt(l, d), dHint);
    TwoWritesSoundExactly(l, s + 1, if s == d then sId else dId, d + 1, sId, SwapIds(l, s, d, sHint, dHint));
    AbsentStored(l, s, d);
    if s != d { StoredIdsDiffer(l, s, d); }
  }

  /** One accepted action keeps the ledger sound if and only if it is harmless. */
  lemma ActionSoundExactly(l: Ledger, p: Player, a: Action)
    requires Sound(l) && ApplyAction(l, p, a).issued < MAX_INT32
    ensures Sound(ApplyAction(l, p, a)) <==> Harmless(l, p, a)
  {
    match a
    case Take(source, destination, _) => TransferActionExactly(l, p, source, destination);
    case Place(source, destination, _) => TransferActionExactly(l, p, source, destination);
    case Swap(source, destination) =>
      EverySlotIsStored(p, source.at);
      EverySlotIsStored(p, destination.at);
      match (Slot(p, source), Slot(p, destination)) {
        case (Some(s), Some(d)) => SwapSoundExactly(l, s, d, source.stackNetworkId, destination.stackNetworkId);
        case _ =>
      }
    case Drop(source, _) => ClearKeepsSound(l, p, source);
    case Destroy(source, _) => ClearKeepsSound(l, p, source);
    case Consume(source, _) => ClearKeepsSound(l, p, source);
    case _ =>
  }

  lemma TransferActionExactly(l: Ledger, p: Player, source: SlotInfo, destination: SlotInfo)
    requires Sound(l) && Transfer(l, p, source, destination).issued < MAX_INT32
    ensures Sound(Transfer(l, p, source, destination)) <==> HarmlessTransfer(l, p, source, destination)
  {
    EverySlotIsStored(p, source.at);
    EverySlotIsStored(p, destination.at);
    match (Slot(p, source), Slot(p, destination))
    case (Some(s), Some(d)) =>
      TransferSoundExactly(l, s, d, source.stackNetworkId, destination.stackNetworkId,
                           StackAt(p, s).IsEmpty(), StackAt(p, d).IsEmpty());
    case _ =>
  }

  lemma ClearKeepsSound(l: Ledger, p: Player, source: SlotInfo)
    requires Sound(l)
    ensures Sound(ClearIfEmpty(l, p, source))
  {
  }

  // ----- failing inputs

  /** A claimed id that another slot already holds ends up in two slots. */
  lemma ClientIdCanDuplicate()
    ensures exists l: Ledger, p: Player, a: Action ::
              Sound(l) && !Unhinted(l, p, a) && !Distinct(ApplyAction(l, p, a).cells)
  {
    var l: Ledger := Put(Mint(EMPTY_LEDGER), 9, 1);
    var stone := ItemStack("minecraft:stone", 1, 0);
    var p: Player := PlayerState(seq(46, i => stone), seq(9, i => NO_STACK), NO_STACK, stone, Other, []);
    var from := SlotInfo(SlotRef(MainInventory, None, 10), 1);
    var to := SlotInfo(SlotRef(MainInventory, None, 11), 0);
    var a := Take(from, to, 1);
    var after := ApplyAction(l, p, a);
    assert Slot(p, from) == Some(10) && Slot(p, to) == Some(11);
    assert !StackAt(p, 10).IsEmpty() && !StackAt(p, 11).IsEmpty();
    assert after.cells[10] == 1 && after.cells[11] == 1;
    assert !Distinct(after.cells);
  }

  /** So does one that a swap takes over. */
  lemma SwapCanDuplicate()
    ensures exists l: Ledger :: Sound(l) && !Distinct(SwapIds(l, 10, 11, 1, 0).cells)
  {
    var l: Ledger := Put(Mint(EMPTY_LEDGER), 9, 1);
    var after := SwapIds(l, 10, 11, 1, 0);
    assert after.cells[10] == 1 && after.cells[12] == 1;
  }

  /** A pass that gives one occupied slot n new ids in a row. */
  function Replacements(slot: int, n: nat): seq<Sighting> {
    seq(n, i => Sighting(slot, false, true))
  }

  /** A stored id that is not yet issued collides later with no further claim: when its turn
      comes, any other slot receives it, too. */
  lemma {:induction false} FutureIdCollides(l: Ledger, slot: int, other: int, n: nat)
    requires l.next >= 1 && Stored(slot) && Stored(other) && slot != other
    requires IdAt(l, slot) == l.next + n <= MAX_INT32
    ensures !Distinct(RefreshAll(l, Replacements(other, n + 1)).cells)
  {
    ReplacementsCount(l, slot, other, n);
    var before := RefreshAll(l, Replacements(other, n));
    assert Replacements(other, n + 1)[..n] == Replacements(other, n);
    var after := RefreshAll(l, Replacements(other, n + 1));
    assert after == Refresh(before, Sighting(other, false, true));
    assert after.cells[other + 1] == IdAt(l, slot) == after.cells[slot + 1];
    if slot < other {
      assert after.cells[slot + 1] != 0;
    } else {
      assert after.cells[other + 1] != 0;
    }
  }

  lemma {:induction false} ReplacementsCount(l: Ledger, slot: int, other: int, n: nat)
    requires 1 <= l.next && l.next + n <= MAX_INT32 && slot != other
    ensures var after := RefreshAll(l, Replacements(other, n));
            after.next == l.next + n && IdAt(after, slot) == IdAt(l, slot)
  {
    if n > 0 {
      assert Replacements(other, n)[..n - 1] == Replacements(other, n - 1);
      ReplacementsCount(l, slot, other, n - 1);
    }
  }

  /** The shortest such run: the claim of the very next id leaves all ids distinct, and the next
      creative craft hands that id out again. */
  lemma FutureClaimBreaksLater()
    ensures var moved := MoveId(EMPTY_LEDGER, 10, 11, 1, 0, true, false);
            && Distinct(moved.cells) && !Sound(moved)
            && !Distinct(Put(Mint(moved), CURSOR_SLOT, Fresh(moved)).cells)
  {
    var moved := MoveId(EMPTY_LEDGER, 10, 11, 1, 0, true, false);
    var crafted := Put(Mint(moved), CURSOR_SLOT, Fresh(moved));
    assert moved.cells[12] == 1 && crafted.cells[0] == 1 && crafted.cells[12] == 1;
  }
}
