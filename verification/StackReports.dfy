/**
 What a stack response reports: which client slots, grouped by container, with
 which ids (bedrock/listener.go). The main results say that a reported id is
 positive exactly for an occupied slot, equals the stored id, and that no id
 changes without being reported.
 */
module StackReports {
  import opened Options
  import opened PlayerSlots
  import opened StackLedger
  import opened Sublists

  // ----- which slots are reported

  predicate IsCreative(actions: seq<Action>) {
    exists i :: 0 <= i < |actions| && actions[i].CraftCreative?
  }

  predicate TakesCreatedOutput(a: Action) {
    a.Take? && a.source.at.container == CreatedOutput && a.destination.at.container == Cursor
  }

  const CURSOR_REF := SlotRef(Cursor, None, 0)

  /** Crafting consumes from every input of the open grid. */
  function CraftingInputs(p: Player): seq<SlotRef> {
    if p.screen.CraftingTable?
    then seq(9, i => SlotRef(CraftingInput, None, 32 + i))
    else seq(4, i => SlotRef(CraftingInput, None, 28 + i))
  }

  function Mentions(p: Player, creative: bool, a: Action): seq<SlotRef> {
    match a
    case CraftCreative(_) => [CURSOR_REF]
    case Take(source, destination, _) =>
      if creative && TakesCreatedOutput(a) then [destination.at]
      else [source.at, destination.at] +
           (if source.at.container == CreatedOutput then CraftingInputs(p) else [])
    case Place(source, destination, _) => [source.at, destination.at]
    case Swap(source, destination) => [source.at, destination.at]
    case Drop(source, _) => [source.at]
    case Destroy(source, _) => [source.at]
    case Consume(source, _) => [source.at]
    case _ => []
  }

  function AddRef(p: Player, changed: seq<SlotRef>, at: SlotRef): seq<SlotRef> {
    if CanonicalSlot(Some(p), at).None? || at in changed then changed else changed + [at]
  }

  function AddRefs(p: Player, changed: seq<SlotRef>, refs: seq<SlotRef>): seq<SlotRef> {
    if refs == [] then changed
    else AddRef(p, AddRefs(p, changed, refs[..|refs| - 1]), refs[|refs| - 1])
  }

  function ChangedSlots(p: Player, creative: bool, actions: seq<Action>): seq<SlotRef> {
    if actions == [] then []
    else AddRefs(p, ChangedSlots(p, creative, actions[..|actions| - 1]),
                 Mentions(p, creative, actions[|actions| - 1]))
  }

  predicate Unrepeated(refs: seq<SlotRef>) {
    forall i, j :: 0 <= i < j < |refs| ==> refs[i] != refs[j]
  }

  predicate AllResolve(p: Player, refs: seq<SlotRef>) {
    forall i :: 0 <= i < |refs| ==> CanonicalSlot(Some(p), refs[i]).Some?
  }

  lemma {:induction false} AddRefsExactly(p: Player, changed: seq<SlotRef>, refs: seq<SlotRef>)
    requires Unrepeated(changed) && AllResolve(p, changed)
    ensures var all := AddRefs(p, changed, refs);
            && Unrepeated(all) && AllResolve(p, all)
            && changed <= all
            && forall at :: at in all <==> at in changed || (at in refs && CanonicalSlot(Some(p), at).Some?)
  {
    if refs != [] {
      var front := refs[..|refs| - 1];
      AddRefsExactly(p, changed, front);
      assert refs == front + [refs[|refs| - 1]];
    }
  }

  predicate Mentioned(p: Player, creative: bool, actions: seq<Action>, at: SlotRef) {
    exists i :: 0 <= i < |actions| && at in Mentions(p, creative, actions[i])
  }

  lemma MentionedStep(p: Player, creative: bool, front: seq<Action>, a: Action, at: SlotRef)
    ensures Mentioned(p, creative, front + [a], at) <==>
            Mentioned(p, creative, front, at) || at in Mentions(p, creative, a)
  {
    var all := front + [a];
    if i :| 0 <= i < |front| && at in Mentions(p, creative, front[i]) {
      assert all[i] == front[i];
    }
    if at in Mentions(p, creative, a) {
      assert all[|front|] == a;
    }
  }

  /** Every named slot that exists is reported, once, and nothing else is. */
  lemma {:induction false} ChangedSlotsExactly(p: Player, creative: bool, actions: seq<Action>)
    ensures var all := ChangedSlots(p, creative, actions);
            && Unrepeated(all) && AllResolve(p, all)
            && forall at :: (at in all <==>
                               CanonicalSlot(Some(p), at).Some? && Mentioned(p, creative, actions, at))
  {
    if actions != [] {
      var n := |actions| - 1;
      var front := actions[..n];
      ChangedSlotsExactly(p, creative, front);
      AddRefsExactly(p, ChangedSlots(p, creative, front), Mentions(p, creative, actions[n]));
      assert actions == front + [actions[n]];
      forall at ensures Mentioned(p, creative, actions, at) <==>
                        Mentioned(p, creative, front, at) || at in Mentions(p, creative, actions[n]) {
        MentionedStep(p, creative, front, actions[n], at);
      }
    }
  }

  // ----- what is reported for them

  datatype Entry = Entry(at: SlotRef, count: int, stackNetworkId: int, durability: int)

  datatype Group = Group(container: Container, dynamic: Option<nat>, slots: seq<Entry>)

  function Canonical(p: Player, at: SlotRef): int
    requires CanonicalSlot(Some(p), at).Some?
  {
    CanonicalSlot(Some(p), at).value
  }

  function Vacant(p: Player, at: SlotRef): bool
    requires CanonicalSlot(Some(p), at).Some?
  {
    StackAt(p, Canonical(p, at)).IsEmpty()
  }

  function Clamp(n: int, low: int, high: int): int {
    if n < low then low else if n > high then high else n
  }

  function Report(l: Ledger, p: Player, at: SlotRef): Entry
    requires CanonicalSlot(Some(p), at).Some?
  {
    var stack := StackAt(p, Canonical(p, at));
    Entry(at, Clamp(stack.count, 0, 255), SettledId(l, Canonical(p, at), Vacant(p, at)),
          if stack.damage < 0 then 0 else stack.damage)
  }

  function SettleRefs(l: Ledger, p: Player, refs: seq<SlotRef>): Ledger
    requires AllResolve(p, refs)
  {
    if refs == [] then l
    else
      var last := refs[|refs| - 1];
      Settle(SettleRefs(l, p, refs[..|refs| - 1]), Canonical(p, last), Vacant(p, last))
  }

  function Entries(l: Ledger, p: Player, refs: seq<SlotRef>): seq<Entry>
    requires AllResolve(p, refs)
    ensures |Entries(l, p, refs)| == |refs|
  {
    if refs == [] then []
    else Entries(l, p, refs[..|refs| - 1])
         + [Report(SettleRefs(l, p, refs[..|refs| - 1]), p, refs[|refs| - 1])]
  }

  /** Settling is one of the refresh passes a ledger run is made of. */
  lemma {:induction false} SettlingIsRefreshing(l: Ledger, p: Player, refs: seq<SlotRef>)
    requires AllResolve(p, refs)
    ensures SettleRefs(l, p, refs) ==
            RefreshAll(l, seq(|refs|, i requires 0 <= i < |refs| =>
                         Sighting(Canonical(p, refs[i]), Vacant(p, refs[i]), false)))
  {
    var all := seq(|refs|, i requires 0 <= i < |refs| => Sighting(Canonical(p, refs[i]), Vacant(p, refs[i]), false));
    if refs != [] {
      var front := refs[..|refs| - 1];
      SettlingIsRefreshing(l, p, front);
      assert all[..|all| - 1] ==
             seq(|front|, i requires 0 <= i < |front| => Sighting(Canonical(p, front[i]), Vacant(p, front[i]), false));
    }
  }

  // ----- reports agree with the inventory and with the ledger

  lemma {:induction false} SettlingKeepsNonNegative(l: Ledger, p: Player, refs: seq<SlotRef>)
    requires NonNegative(l) && AllResolve(p, refs)
    ensures NonNegative(SettleRefs(l, p, refs))
  {
    if refs != [] {
      SettlingKeepsNonNegative(l, p, refs[..|refs| - 1]);
      MintKeeps(SettleRefs(l, p, refs[..|refs| - 1]));
    }
  }

  /** The reported id of one slot agrees with its emptiness and with its cell. */
  predicate Agrees(l: Ledger, slot: int, empty: bool, id: int) {
    && (id > 0 <==> !empty)
    && (empty ==> id == 0)
    && IdAt(l, slot) == id
  }

  lemma SettleAgrees(l: Ledger, slot: int, empty: bool)
    requires NonNegative(l) && Stored(slot)
    ensures Agrees(Settle(l, slot, empty), slot, empty, SettledId(l, slot, empty))
  {
    MintKeeps(l);
  }

  /** Settling any slot, the same one included, leaves an agreeing slot alone. */
  lemma SettleKeepsAgreement(l: Ledger, slot: int, empty: bool, id: int, other: int, otherEmpty: bool)
    requires NonNegative(l) && Agrees(l, slot, empty, id)
    requires other == slot ==> otherEmpty == empty
    ensures Agrees(Settle(l, other, otherEmpty), slot, empty, id)
  {
    if other != slot {
      SettleElsewhere(l, other, otherEmpty, slot);
    }
  }

  /** The ledger right after the k-th slot was settled. */
  lemma SettledAt(l: Ledger, p: Player, refs: seq<SlotRef>, k: nat)
    requires NonNegative(l) && AllResolve(p, refs) && k < |refs|
    ensures NonNegative(SettleRefs(l, p, refs[..k + 1]))
    ensures Agrees(SettleRefs(l, p, refs[..k + 1]), Canonical(p, refs[k]), Vacant(p, refs[k]),
                   SettledId(SettleRefs(l, p, refs[..k]), Canonical(p, refs[k]), Vacant(p, refs[k])))
  {
    assert refs[..k + 1][..k] == refs[..k];
    SettlingKeepsNonNegative(l, p, refs[..k]);
    SettlingKeepsNonNegative(l, p, refs[..k + 1]);
    EverySlotIsStored(p, refs[k]);
    SettleAgrees(SettleRefs(l, p, refs[..k]), Canonical(p, refs[k]), Vacant(p, refs[k]));
  }

  /** Settling more slots does not disturb a slot settled before, alias or not. */
  lemma {:induction false} SettledStays(l: Ledger, p: Player, refs: seq<SlotRef>, n: nat, slot: int, id: int)
    requires NonNegative(l) && AllResolve(p, refs) && n <= |refs|
    requires Agrees(SettleRefs(l, p, refs[..n]), slot, StackAt(p, slot).IsEmpty(), id)
    ensures Agrees(SettleRefs(l, p, refs), slot, StackAt(p, slot).IsEmpty(), id)
    decreases |refs| - n
  {
    if n == |refs| {
      assert refs[..n] == refs;
    } else {
      assert refs[..n + 1][..n] == refs[..n];
      SettlingKeepsNonNegative(l, p, refs[..n]);
      SettleKeepsAgreement(SettleRefs(l, p, refs[..n]), slot, StackAt(p, slot).IsEmpty(), id,
                           Canonical(p, refs[n]), Vacant(p, refs[n]));
      SettledStays(l, p, refs, n + 1, slot, id);
    }
  }

  lemma EntriesStart(l: Ledger, p: Player, refs: seq<SlotRef>, k: nat)
    requires AllResolve(p, refs) && k < |refs| - 1
    ensures Entries(l, p, refs)[k] == Entries(l, p, refs[..|refs| - 1])[k]
  {
  }

  lemma {:induction false} EntryAt(l: Ledger, p: Player, refs: seq<SlotRef>, k: nat)
    requires AllResolve(p, refs) && k < |refs|
    ensures Entries(l, p, refs)[k] == Report(SettleRefs(l, p, refs[..k]), p, refs[k])
  {
    var n := |refs| - 1;
    if k < n {
      EntryAt(l, p, refs[..n], k);
      assert refs[..n][..k] == refs[..k];
      EntriesStart(l, p, refs, k);
    } else {
      var front := Entries(l, p, refs[..n]);
      assert Entries(l, p, refs) == front + [Report(SettleRefs(l, p, refs[..n]), p, refs[n])];
    }
  }

  /** The id reported for the k-th slot agrees with its emptiness and the final ledger. */
  lemma EntryAgrees(l: Ledger, p: Player, refs: seq<SlotRef>, k: nat)
    requires NonNegative(l) && AllResolve(p, refs) && k < |refs|
    ensures Agrees(SettleRefs(l, p, refs), Canonical(p, refs[k]), Vacant(p, refs[k]),
                   Entries(l, p, refs)[k].stackNetworkId)
  {
    EntryAt(l, p, refs, k);
    SettledAt(l, p, refs, k);
    SettledStays(l, p, refs, k + 1, Canonical(p, refs[k]), Entries(l, p, refs)[k].stackNetworkId);
  }

  /** The count, cut to one byte, and the wear of a stack, neither of them negative. */
  predicate ShowsStack(e: Entry, stack: ItemStack) {
    && 0 <= e.count <= 255 && (0 <= stack.count <= 255 ==> e.count == stack.count)
    && (stack.count > 255 ==> e.count == 255) && (stack.count < 0 ==> e.count == 0)
    && 0 <= e.durability && (stack.damage >= 0 ==> e.durability == stack.damage)
    && (stack.damage < 0 ==> e.durability == 0)
  }

  /** In every state a run can reach: the reported id is positive exactly when the slot is
      occupied, and it is the stored id. Two client slots that stand for one canonical slot
      report one id. Count and wear are those of the stack in the slot, a count of at most 255. */
  lemma ReportsAgree(l: Ledger, p: Player, refs: seq<SlotRef>, k: nat, other: nat)
    requires NonNegative(l) && AllResolve(p, refs) && k < |refs| && other < |refs|
    ensures var e := Entries(l, p, refs)[k];
            var slot := Canonical(p, refs[k]);
            && e.at == refs[k] && ShowsStack(e, StackAt(p, slot))
            && (e.stackNetworkId > 0 <==> !StackAt(p, slot).IsEmpty())
            && e.stackNetworkId == IdAt(SettleRefs(l, p, refs), slot)
            && (Canonical(p, refs[other]) == slot ==>
                  Entries(l, p, refs)[other].stackNetworkId == e.stackNetworkId)
  {
    EntryAt(l, p, refs, k);
    EntryAgrees(l, p, refs, k);
    EntryAgrees(l, p, refs, other);
  }

  // ----- which canonical slots are reported

  /** The cells of the open crafting grid: the table's nine, or the player's own four. */
  predicate GridCell(p: Player, slot: int) {
    if p.screen.CraftingTable? then CRAFTING_TABLE_START <= slot < CRAFTING_TABLE_OUTPUT else 1 <= slot <= 4
  }

  /** What an action concerns: its slots; with a result taken, every cell it may have used up; and
      for a creative item only the cursor. */
  predicate ConcernsSlot(p: Player, creative: bool, a: Action, slot: int) {
    match a
    case CraftCreative(_) => slot == CURSOR_SLOT
    case Take(source, destination, _) =>
      || Slot(p, destination) == Some(slot)
      || (!(creative && source.at.container == CreatedOutput && destination.at.container == Cursor)
          && (Slot(p, source) == Some(slot) || (source.at.container == CreatedOutput && GridCell(p, slot))))
    case Place(source, destination, _) => Slot(p, source) == Some(slot) || Slot(p, destination) == Some(slot)
    case Swap(source, destination) => Slot(p, source) == Some(slot) || Slot(p, destination) == Some(slot)
    case Drop(source, _) => Slot(p, source) == Some(slot)
    case Destroy(source, _) => Slot(p, source) == Some(slot)
    case Consume(source, _) => Slot(p, source) == Some(slot)
    case _ => false
  }

  /** Some name stands for the slot. */
  predicate NamesSlot(p: Player, names: seq<SlotRef>, slot: int) {
    exists at :: at in names && CanonicalSlot(Some(p), at) == Some(slot)
  }

  lemma InputsNameTheGrid(p: Player, slot: int)
    ensures NamesSlot(p, CraftingInputs(p), slot) <==> GridCell(p, slot)
  {
    var inputs := CraftingInputs(p);
    if GridCell(p, slot) {
      var k := if p.screen.CraftingTable? then slot - CRAFTING_TABLE_START else slot - 1;
      assert inputs[k] in inputs && CanonicalSlot(Some(p), inputs[k]) == Some(slot);
    }
  }

  lemma MentionsConcern(p: Player, creative: bool, a: Action, slot: int)
    ensures NamesSlot(p, Mentions(p, creative, a), slot) <==> ConcernsSlot(p, creative, a, slot)
  {
    var names := Mentions(p, creative, a);
    InputsNameTheGrid(p, slot);
    if a.CraftCreative? {
      assert CURSOR_REF in names;
    } else if a.Take? || a.Place? || a.Swap? {
      assert a.destination.at in names;
      if !(creative && TakesCreatedOutput(a)) { assert names[0] == a.source.at && a.source.at in names; }
    } else if a.Drop? || a.Destroy? || a.Consume? {
      assert a.source.at in names;
    }
  }

  /** A canonical slot is reported exactly when some action concerns it. */
  lemma ReportedExactly(p: Player, actions: seq<Action>, slot: int)
    ensures Reported(p, ChangedSlots(p, IsCreative(actions), actions), slot) <==>
            exists i :: 0 <= i < |actions| && ConcernsSlot(p, IsCreative(actions), actions[i], slot)
  {
    var creative := IsCreative(actions);
    var all := ChangedSlots(p, creative, actions);
    ChangedSlotsExactly(p, creative, actions);
    if k :| 0 <= k < |all| && CanonicalSlot(Some(p), all[k]) == Some(slot) {
      assert all[k] in all;
      var i :| 0 <= i < |actions| && all[k] in Mentions(p, creative, actions[i]);
      MentionsConcern(p, creative, actions[i], slot);
    }
    if i :| 0 <= i < |actions| && ConcernsSlot(p, creative, actions[i], slot) {
      MentionsConcern(p, creative, actions[i], slot);
      var at :| at in Mentions(p, creative, actions[i]) && CanonicalSlot(Some(p), at) == Some(slot);
      assert Mentioned(p, creative, actions, at) && at in all;
      var k :| 0 <= k < |all| && all[k] == at;
    }
  }

  // ----- nothing changes silently

  /** A creative take from the created output moves an id out of a slot it does not report. */
  predicate TakenSilently(p: Player, actions: seq<Action>, slot: int) {
    && IsCreative(actions)
    && exists i :: 0 <= i < |actions| && TakesCreatedOutput(actions[i]) && Slot(p, actions[i].source) == Some(slot)
  }

  predicate Reported(p: Player, refs: seq<SlotRef>, slot: int) {
    exists k :: 0 <= k < |refs| && CanonicalSlot(Some(p), refs[k]) == Some(slot)
  }

  predicate Touches(p: Player, a: Action, slot: int) {
    match a
    case CraftCreative(_) => slot == CURSOR_SLOT
    case Take(source, destination, _) => Slot(p, source) == Some(slot) || Slot(p, destination) == Some(slot)
    case Place(source, destination, _) => Slot(p, source) == Some(slot) || Slot(p, destination) == Some(slot)
    case Swap(source, destination) => Slot(p, source) == Some(slot) || Slot(p, destination) == Some(slot)
    case Drop(source, _) => Slot(p, source) == Some(slot)
    case Destroy(source, _) => Slot(p, source) == Some(slot)
    case Consume(source, _) => Slot(p, source) == Some(slot)
    case _ => false
  }

  lemma UntouchedKeepsId(l: Ledger, p: Player, a: Action, slot: int)
    requires !Touches(p, a, slot)
    ensures IdAt(ApplyAction(l, p, a), slot) == IdAt(l, slot)
  {
    match a
    case Take(source, destination, _) => UntouchedByTransfer(l, p, source, destination, slot);
    case Place(source, destination, _) => UntouchedByTransfer(l, p, source, destination, slot);
    case _ =>
  }

  lemma UntouchedByTransfer(l: Ledger, p: Player, source: SlotInfo, destination: SlotInfo, slot: int)
    requires Slot(p, source) != Some(slot) && Slot(p, destination) != Some(slot)
    ensures IdAt(Transfer(l, p, source, destination), slot) == IdAt(l, slot)
  {
    if Slot(p, source).Some? && Slot(p, destination).Some? {
      var s, d := Slot(p, source).value, Slot(p, destination).value;
      UntouchedByMove(l, s, d, source.stackNetworkId, destination.stackNetworkId,
                      StackAt(p, s).IsEmpty(), StackAt(p, d).IsEmpty(), slot);
    }
  }

  lemma UntouchedByMove(l: Ledger, s: int, d: int, sHint: int, dHint: int, sEmpty: bool, dEmpty: bool, slot: int)
    requires slot != s && slot != d
    ensures IdAt(MoveId(l, s, d, sHint, dHint, sEmpty, dEmpty), slot) == IdAt(l, slot)
  {
  }

  lemma {:induction false} ChangedIsTouched(l: Ledger, p: Player, actions: seq<Action>, slot: int)
    requires IdAt(ApplyActions(l, p, actions), slot) != IdAt(l, slot)
    ensures exists i :: 0 <= i < |actions| && Touches(p, actions[i], slot)
  {
    var n := |actions| - 1;
    if Touches(p, actions[n], slot) {
    } else {
      UntouchedKeepsId(ApplyActions(l, p, actions[..n]), p, actions[n], slot);
      ChangedIsTouched(l, p, actions[..n], slot);
      var i :| 0 <= i < n && Touches(p, actions[..n][i], slot);
      assert Touches(p, actions[i], slot);
    }
  }

  lemma {:induction false} UnreportedKeepsId(l: Ledger, p: Player, refs: seq<SlotRef>, slot: int)
    requires AllResolve(p, refs) && !Reported(p, refs, slot)
    ensures IdAt(SettleRefs(l, p, refs), slot) == IdAt(l, slot)
  {
    if refs != [] {
      var front := refs[..|refs| - 1];
      assert !Reported(p, front, slot) by {
        forall k | 0 <= k < |front| ensures CanonicalSlot(Some(p), front[k]) != Some(slot) {
          assert front[k] == refs[k];
        }
      }
      UnreportedKeepsId(l, p, front, slot);
      assert Canonical(p, refs[|refs| - 1]) != slot;
    }
  }

  /** The slots the response to a request reports. */
  function Changed(p: Player, actions: seq<Action>): seq<SlotRef>
    ensures AllResolve(p, Changed(p, actions))
  {
    ChangedSlotsExactly(p, IsCreative(actions), actions);
    ChangedSlots(p, IsCreative(actions), actions)
  }

  /** The request changes the slot's id, and the response does not say so. */
  predicate ChangesSilently(l: Ledger, p: Player, actions: seq<Action>, slot: int) {
    && IdAt(SettleRefs(ApplyActions(l, p, actions), p, Changed(p, actions)), slot) != IdAt(l, slot)
    && !Reported(p, Changed(p, actions), slot)
  }

  /** Only the created output that a creative take moves out of changes silently. */
  lemma NoSilentChange(l: Ledger, p: Player, actions: seq<Action>, slot: int)
    requires ChangesSilently(l, p, actions, slot)
    ensures TakenSilently(p, actions, slot)
  {
    UnreportedKeepsId(ApplyActions(l, p, actions), p, Changed(p, actions), slot);
    ChangedIsTouched(l, p, actions, slot);
    var i :| 0 <= i < |actions| && Touches(p, actions[i], slot);
    TouchedIsMentioned(p, IsCreative(actions), actions, i, slot);
  }

  predicate SilentTake(p: Player, a: Action, slot: int) {
    TakesCreatedOutput(a) && Slot(p, a.source) == Some(slot)
  }

  predicate TakenFrom(p: Player, actions: seq<Action>, slot: int, n: nat)
    requires n <= |actions|
  {
    n > 0 && (SilentTake(p, actions[n - 1], slot) || TakenFrom(p, actions, slot, n - 1))
  }

  /** A take to the cursor leaves no id in an empty slot and some id in an occupied one. */
  lemma SilentTakeLeaves(l: Ledger, p: Player, a: Action, slot: int)
    requires SilentTake(p, a, slot)
    ensures var id := IdAt(ApplyAction(l, p, a), slot);
            if StackAt(p, slot).IsEmpty() then id == 0 else id > 0
  {
    EverySlotIsStored(p, a.source.at);
    OutputIsNotCursor(p, a.source.at);
    assert Slot(p, a.destination) == Some(CURSOR_SLOT);
  }

  /** What silent takes leave in a slot nothing else touches. */
  lemma {:induction false} SilentTakesLeave(l: Ledger, p: Player, actions: seq<Action>, slot: int, n: nat)
    requires n <= |actions| && !Reported(p, Changed(p, actions), slot)
    ensures var id := IdAt(ApplyActions(l, p, actions[..n]), slot);
            if !TakenFrom(p, actions, slot, n) then id == IdAt(l, slot)
            else if StackAt(p, slot).IsEmpty() then id == 0 else id > 0
  {
    if n > 0 {
      var a := actions[n - 1];
      var before := ApplyActions(l, p, actions[..n - 1]);
      assert actions[..n][..n - 1] == actions[..n - 1];
      SilentTakesLeave(l, p, actions, slot, n - 1);
      if SilentTake(p, a, slot) {
        SilentTakeLeaves(before, p, a, slot);
      } else {
        OthersDoNotTouch(p, actions, slot, n - 1);
        UntouchedKeepsId(before, p, a, slot);
      }
    }
  }

  lemma OthersDoNotTouch(p: Player, actions: seq<Action>, slot: int, i: nat)
    requires i < |actions| && !Reported(p, Changed(p, actions), slot) && !SilentTake(p, actions[i], slot)
    ensures !Touches(p, actions[i], slot)
  {
    if Touches(p, actions[i], slot) { TouchedIsMentioned(p, IsCreative(actions), actions, i, slot); }
  }

  lemma {:induction false} TakenFromEarlier(p: Player, actions: seq<Action>, slot: int, i: nat, n: nat)
    requires i < n <= |actions| && SilentTake(p, actions[i], slot)
    ensures TakenFrom(p, actions, slot, n)
  {
    if i < n - 1 { TakenFromEarlier(p, actions, slot, i, n - 1); }
  }

  lemma OutputIsNotCursor(p: Player, at: SlotRef)
    requires at.container == CreatedOutput
    ensures CanonicalSlot(Some(p), at) != Some(CURSOR_SLOT)
  {
  }

  /** Every creative take from the created output names a slot that is reported all the same. */
  predicate TakesAreReported(p: Player, actions: seq<Action>) {
    IsCreative(actions) ==>
      forall i :: 0 <= i < |actions| && TakesCreatedOutput(actions[i]) && Slot(p, actions[i].source).Some? ==>
        Reported(p, Changed(p, actions), Slot(p, actions[i].source).value)
  }

  /** No ledger a session can have changes silently at this request. */
  ghost predicate NeverSilent(p: Player, actions: seq<Action>) {
    forall l: Ledger, slot: int :: Sound(l) ==> !ChangesSilently(l, p, actions, slot)
  }

  /** A request never changes an id silently if and only if its creative takes are reported. */
  lemma NeverSilentExactly(p: Player, actions: seq<Action>)
    ensures NeverSilent(p, actions) <==> TakesAreReported(p, actions)
  {
    if TakesAreReported(p, actions) {
      forall l: Ledger, slot: int | Sound(l) ensures !ChangesSilently(l, p, actions, slot) {
        if ChangesSilently(l, p, actions, slot) { NoSilentChange(l, p, actions, slot); }
      }
    } else {
      var i :| 0 <= i < |actions| && TakesCreatedOutput(actions[i]) && Slot(p, actions[i].source).Some?
               && !Reported(p, Changed(p, actions), Slot(p, actions[i].source).value);
      var l := SilentWitness(p, actions, i);
    }
  }

  /** A sound ledger that stores an id in the slot, or none. */
  lemma OneIdOr(slot: int, filled: bool) returns (l: Ledger)
    requires Stored(slot)
    ensures Sound(l) && IdAt(l, slot) == if filled then 1 else 0
  {
    l := if filled then Put(Mint(EMPTY_LEDGER), slot, 1) else EMPTY_LEDGER;
  }

  /** A ledger that an unreported creative take changes. */
  lemma SilentWitness(p: Player, actions: seq<Action>, i: nat) returns (l: Ledger)
    requires i < |actions| && TakesCreatedOutput(actions[i]) && Slot(p, actions[i].source).Some?
    requires !Reported(p, Changed(p, actions), Slot(p, actions[i].source).value)
    ensures Sound(l) && ChangesSilently(l, p, actions, Slot(p, actions[i].source).value)
  {
    var slot := Slot(p, actions[i].source).value;
    EverySlotIsStored(p, actions[i].source.at);
    l := OneIdOr(slot, StackAt(p, slot).IsEmpty());
    TakenFromEarlier(p, actions, slot, i, |actions|);
    SilentTakesLeave(l, p, actions, slot, |actions|);
    assert actions[..|actions|] == actions;
    UnreportedKeepsId(ApplyActions(l, p, actions), p, Changed(p, actions), slot);
  }

  /** A creative craft and a take to the cursor report the cursor only. */
  lemma CursorIsAllReported(p: Player, actions: seq<Action>, slot: int)
    requires |actions| == 2 && actions[0].CraftCreative? && TakesCreatedOutput(actions[1])
    requires actions[1].destination.at == CURSOR_REF && slot != CURSOR_SLOT
    ensures IsCreative(actions) && !Reported(p, Changed(p, actions), slot)
  {
    ChangedSlotsExactly(p, true, actions);
    forall k | 0 <= k < |Changed(p, actions)| ensures CanonicalSlot(Some(p), Changed(p, actions)[k]) != Some(slot) {
      assert Changed(p, actions)[k] in Changed(p, actions);
      var j :| 0 <= j < |actions| && Changed(p, actions)[k] in Mentions(p, true, actions[j]);
      assert Mentions(p, true, actions[j]) == [CURSOR_REF];
    }
  }

  lemma UnreportedTakeIsSilent(p: Player, actions: seq<Action>, slot: int)
    requires |actions| == 2 && actions[0].CraftCreative? && TakesCreatedOutput(actions[1])
    requires actions[1].destination.at == CURSOR_REF && slot != CURSOR_SLOT
    requires Slot(p, actions[1].source) == Some(slot)
    ensures !NeverSilent(p, actions)
  {
    CursorIsAllReported(p, actions, slot);
    assert !TakesAreReported(p, actions);
    NeverSilentExactly(p, actions);
  }

  /** Such a request: a creative item is taken to the cursor while the player's own crafting
      output is occupied. */
  lemma CreativeTakeIsSilent()
    ensures exists p: Player, actions: seq<Action> :: !NeverSilent(p, actions)
  {
    var stone := ItemStack("minecraft:stone", 1, 0);
    var p: Player := PlayerState(seq(46, i => stone), seq(9, i => NO_STACK), NO_STACK, stone, Other, []);
    var take := Take(SlotInfo(SlotRef(CreatedOutput, None, 50), 0), SlotInfo(CURSOR_REF, 0), 1);
    var actions := [CraftCreative(1), take];
    UnreportedTakeIsSilent(p, actions, 0);
  }

  /** The name under which a touched slot is reported. */
  lemma TouchedName(p: Player, creative: bool, a: Action, slot: int) returns (at: SlotRef)
    requires Touches(p, a, slot)
    requires !(creative && TakesCreatedOutput(a) && Slot(p, a.source) == Some(slot))
    ensures at in Mentions(p, creative, a) && CanonicalSlot(Some(p), at) == Some(slot)
  {
    var named := Mentions(p, creative, a);
    if a.CraftCreative? || (creative && TakesCreatedOutput(a)) {
      at := named[0];
    } else if Slot(p, a.source) == Some(slot) {
      at := named[0];
    } else {
      at := named[1];
    }
  }

  lemma TouchedIsMentioned(p: Player, creative: bool, actions: seq<Action>, i: nat, slot: int)
    requires i < |actions| && Touches(p, actions[i], slot)
    ensures Reported(p, ChangedSlots(p, creative, actions), slot)
            || (creative && TakesCreatedOutput(actions[i]) && Slot(p, actions[i].source) == Some(slot))
  {
    if !(creative && TakesCreatedOutput(actions[i]) && Slot(p, actions[i].source) == Some(slot)) {
      var at := TouchedName(p, creative, actions[i], slot);
      ChangedSlotsExactly(p, creative, actions);
      var refs := ChangedSlots(p, creative, actions);
      assert Mentioned(p, creative, actions, at);
      assert at in refs;
      var k :| 0 <= k < |refs| && refs[k] == at;
    }
  }

  // ----- grouping by container

  type GroupKey = (Container, Option<nat>)

  function KeyOf(e: Entry): GroupKey {
    (e.at.container, e.at.dynamic)
  }

  /** The entries of one container, in order. */
  function Select(entries: seq<Entry>, key: GroupKey): seq<Entry> {
    if entries == [] then []
    else
      var last := entries[|entries| - 1];
      Select(entries[..|entries| - 1], key) + (if KeyOf(last) == key then [last] else [])
  }

  /** The containers that occur, in the order of their first entry. */
  function FirstSeen(entries: seq<Entry>): seq<GroupKey> {
    if entries == [] then []
    else
      var before, key := FirstSeen(entries[..|entries| - 1]), KeyOf(entries[|entries| - 1]);
      if key in before then before else before + [key]
  }

  /** Each container that occurs is named once. */
  lemma {:induction false} FirstSeenExactly(entries: seq<Entry>)
    ensures forall key :: key in FirstSeen(entries) <==> exists e :: e in entries && KeyOf(e) == key
    ensures forall i, j :: 0 <= i < j < |FirstSeen(entries)| ==> FirstSeen(entries)[i] != FirstSeen(entries)[j]
  {
    if entries != [] {
      var n := |entries| - 1;
      FirstSeenExactly(entries[..n]);
      assert entries == entries[..n] + [entries[n]];
    }
  }

  /** A container stands before another exactly when its first entry does. */
  predicate OpensBefore(entries: seq<Entry>, first: GroupKey, second: GroupKey) {
    exists a :: 0 <= a < |entries| && KeyOf(entries[a]) == first
                && forall b :: 0 <= b <= a ==> KeyOf(entries[b]) != second
  }

  lemma {:induction false} FirstSeenInOrder(entries: seq<Entry>)
    ensures forall i, j :: 0 <= i < j < |FirstSeen(entries)| ==>
              OpensBefore(entries, FirstSeen(entries)[i], FirstSeen(entries)[j])
  {
    if entries != [] {
      var n := |entries| - 1;
      var front := entries[..n];
      FirstSeenInOrder(front);
      FirstSeenExactly(front);
      FirstSeenExactly(entries);
      var keys, before := FirstSeen(entries), FirstSeen(front);
      forall i, j | 0 <= i < j < |keys| ensures OpensBefore(entries, keys[i], keys[j]) {
        if j < |before| {
          assert OpensBefore(front, keys[i], keys[j]);
          var a :| 0 <= a < |front| && KeyOf(front[a]) == keys[i]
                   && forall b :: 0 <= b <= a ==> KeyOf(front[b]) != keys[j];
          assert forall b :: 0 <= b <= a ==> entries[b] == front[b];
        } else {
          assert keys[i] in before;
          var e :| e in front && KeyOf(e) == keys[i];
          var a :| 0 <= a < n && front[a] == e;
          forall b | 0 <= b <= a ensures KeyOf(entries[b]) != keys[j] {
            assert entries[b] == front[b] && front[b] in front;
          }
          assert KeyOf(entries[a]) == keys[i];
        }
      }
    }
  }

  /** A container's group holds exactly its entries, in order. */
  lemma {:induction false} SelectExactly(entries: seq<Entry>, key: GroupKey) returns (positions: seq<nat>)
    ensures Sublist(entries, Select(entries, key), positions)
    ensures forall i: nat :: i in positions <==> i < |entries| && KeyOf(entries[i]) == key
  {
    if entries == [] {
      positions := [];
    } else {
      var n := |entries| - 1;
      var before := SelectExactly(entries[..n], key);
      SublistMore(entries, n, Select(entries[..n], key), before);
      positions := if KeyOf(entries[n]) == key then before + [n] else before;
      forall i: nat ensures i in positions <==> i < |entries| && KeyOf(entries[i]) == key {
        if i < n { assert entries[..n][i] == entries[i]; }
      }
    }
  }

  function GroupFor(entries: seq<Entry>, key: GroupKey): Group {
    Group(key.0, key.1, Select(entries, key))
  }

  /** One group per container that occurs, first seen first, each holding all its entries in order. */
  predicate GroupsExactly(groups: seq<Group>, entries: seq<Entry>) {
    && |groups| == |FirstSeen(entries)|
    && forall i :: 0 <= i < |groups| ==> groups[i] == GroupFor(entries, FirstSeen(entries)[i])
  }
}
