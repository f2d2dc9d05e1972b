/**
 What the stack-network-id ledger keeps over every run: distinct ids below the
 counter for exactly as long as the ids clients claim are harmless, and reports
 that agree with emptiness and with the stored ids.
 */
module StackLedgerRuns {
  import opened Options
  import opened PlayerSlots
  import opened StackLedger
  import opened StackClaims
  import opened StackReports

  // ----- runs

  /** What can happen to a session's ledger. `Request` is an accepted request with the
      inventory it left behind; `Refreshed` is any pass that settles a list of slots
      (response, crafting grid, drop, container and furnace synchronisation). */
  datatype Event =
    | Request(after: Player, actions: seq<Action>)
    | Refreshed(sightings: seq<Sighting>)
    | ContainerOpened

  function Advance(l: Ledger, e: Event): Ledger {
    match e
    case Request(p, actions) => ApplyActions(l, p, actions)
    case Refreshed(sightings) => RefreshAll(l, sightings)
    case ContainerOpened => ForgetContainer(l)
  }

  function Run(l: Ledger, events: seq<Event>): Ledger {
    if events == [] then l
    else Advance(Run(l, events[..|events| - 1]), events[|events| - 1])
  }

  /** Every claim of the request is harmless when its turn comes. */
  predicate HarmlessActions(l: Ledger, p: Player, actions: seq<Action>) {
    actions != [] ==>
      var n := |actions| - 1;
      HarmlessActions(l, p, actions[..n]) && Harmless(ApplyActions(l, p, actions[..n]), p, actions[n])
  }

  predicate HarmlessRun(l: Ledger, events: seq<Event>) {
    events != [] ==>
      var n := |events| - 1;
      && HarmlessRun(l, events[..n])
      && (events[n].Request? ==> HarmlessActions(Run(l, events[..n]), events[n].after, events[n].actions))
  }

  /** No request in the run relies on a client-supplied id. */
  predicate UnhintedActions(l: Ledger, p: Player, actions: seq<Action>) {
    actions != [] ==>
      var n := |actions| - 1;
      UnhintedActions(l, p, actions[..n]) && Unhinted(ApplyActions(l, p, actions[..n]), p, actions[n])
  }

  predicate UnhintedRun(l: Ledger, events: seq<Event>) {
    events != [] ==>
      var n := |events| - 1;
      && UnhintedRun(l, events[..n])
      && (events[n].Request? ==> UnhintedActions(Run(l, events[..n]), events[n].after, events[n].actions))
  }

  /** The ledger is sound before, between and after the actions. */
  predicate SoundThrough(l: Ledger, p: Player, actions: seq<Action>) {
    && Sound(ApplyActions(l, p, actions))
    && (actions != [] ==> SoundThrough(l, p, actions[..|actions| - 1]))
  }

  /** The ledger is sound at every point of the run. */
  predicate AlwaysSound(l: Ledger, events: seq<Event>) {
    && Sound(Run(l, events))
    && (events != [] ==>
          var n := |events| - 1;
          && AlwaysSound(l, events[..n])
          && (events[n].Request? ==> SoundThrough(Run(l, events[..n]), events[n].after, events[n].actions)))
  }

  // ----- nothing takes an allocation back

  lemma ApplyIssues(l: Ledger, p: Player, a: Action)
    ensures l.issued <= ApplyAction(l, p, a).issued
  {
    if (a.Take? || a.Place?) && Slot(p, a.source).Some? && Slot(p, a.destination).Some? {
      var s, d := Slot(p, a.source).value, Slot(p, a.destination).value;
      MoveIssues(l, s, d, a.source.stackNetworkId, a.destination.stackNetworkId,
                 StackAt(p, s).IsEmpty(), StackAt(p, d).IsEmpty());
    }
  }

  lemma MoveIssues(l: Ledger, s: int, d: int, sHint: int, dHint: int, sEmpty: bool, dEmpty: bool)
    ensures l.issued <= MoveId(l, s, d, sHint, dHint, sEmpty, dEmpty).issued
  {
  }

  lemma {:induction false} ActionsIssue(l: Ledger, p: Player, actions: seq<Action>)
    ensures ApplyActions(l, p, actions).issued >= l.issued
  {
    if actions != [] {
      var n := |actions| - 1;
      ActionsIssue(l, p, actions[..n]);
      ApplyIssues(ApplyActions(l, p, actions[..n]), p, actions[n]);
    }
  }

  lemma {:induction false} RefreshIssues(l: Ledger, sightings: seq<Sighting>)
    ensures RefreshAll(l, sightings).issued >= l.issued
  {
    if sightings != [] {
      RefreshIssues(l, sightings[..|sightings| - 1]);
    }
  }

  lemma AdvanceIssues(l: Ledger, e: Event)
    ensures Advance(l, e).issued >= l.issued
  {
    match e
    case Request(p, actions) => ActionsIssue(l, p, actions);
    case Refreshed(sightings) => RefreshIssues(l, sightings);
    case ContainerOpened =>
  }

  // ----- the ledger is sound exactly as long as claims are harmless

  lemma {:induction false} RefreshAllKeeps(l: Ledger, sightings: seq<Sighting>)
    requires SoundUntilWrap(l)
    ensures SoundUntilWrap(RefreshAll(l, sightings))
  {
    if sightings != [] {
      var see := sightings[|sightings| - 1];
      var before := RefreshAll(l, sightings[..|sightings| - 1]);
      RefreshAllKeeps(l, sightings[..|sightings| - 1]);
      PutZeroKeeps(before, see.slot);
      PutFreshKeeps(before, see.slot);
    }
  }

  lemma ForgetContainerKeeps(l: Ledger)
    requires SoundUntilWrap(l)
    ensures SoundUntilWrap(ForgetContainer(l))
  {
    var after := ForgetContainer(l);
    assert forall i :: 0 <= i < CELLS ==> after.cells[i] == 0 || after.cells[i] == l.cells[i];
  }

  lemma {:induction false} ActionsSoundExactly(l: Ledger, p: Player, actions: seq<Action>)
    requires ApplyActions(l, p, actions).issued < MAX_INT32
    ensures SoundThrough(l, p, actions) <==> Sound(l) && HarmlessActions(l, p, actions)
  {
    if actions != [] {
      var n := |actions| - 1;
      var before := ApplyActions(l, p, actions[..n]);
      ApplyIssues(before, p, actions[n]);
      ActionsSoundExactly(l, p, actions[..n]);
      if Sound(before) { ActionSoundExactly(before, p, actions[n]); }
    }
  }

  /** Until the counter wraps, the ledger is sound at every point of a run if and only if every
      client-supplied id taken over in it is harmless at its turn. */
  lemma {:induction false} RunSoundExactly(l: Ledger, events: seq<Event>)
    requires Sound(l) && Run(l, events).issued < MAX_INT32
    ensures AlwaysSound(l, events) <==> HarmlessRun(l, events)
  {
    if events != [] {
      var n := |events| - 1;
      var before := Run(l, events[..n]);
      AdvanceIssues(before, events[n]);
      RunSoundExactly(l, events[..n]);
      match events[n]
      case Request(p, actions) => ActionsSoundExactly(before, p, actions);
      case Refreshed(sightings) => if Sound(before) { RefreshAllKeeps(before, sightings); }
      case ContainerOpened => if Sound(before) { ForgetContainerKeeps(before); }
    }
  }

  lemma HarmlessStaySound(l: Ledger, p: Player, actions: seq<Action>)
    requires Sound(l) && HarmlessActions(l, p, actions) && ApplyActions(l, p, actions).issued < MAX_INT32
    ensures Sound(ApplyActions(l, p, actions))
  {
    ActionsSoundExactly(l, p, actions);
  }

  lemma {:induction false} UnhintedActionsAreHarmless(l: Ledger, p: Player, actions: seq<Action>)
    requires Sound(l) && UnhintedActions(l, p, actions) && ApplyActions(l, p, actions).issued < MAX_INT32
    ensures HarmlessActions(l, p, actions)
  {
    if actions != [] {
      var n := |actions| - 1;
      var before := ApplyActions(l, p, actions[..n]);
      ApplyIssues(before, p, actions[n]);
      UnhintedActionsAreHarmless(l, p, actions[..n]);
      HarmlessStaySound(l, p, actions[..n]);
      UnhintedIsHarmless(before, p, actions[n]);
    }
  }

  /** A run that takes over no client id is harmless throughout. */
  lemma {:induction false} UnhintedRunIsHarmless(l: Ledger, events: seq<Event>)
    requires Sound(l) && UnhintedRun(l, events) && Run(l, events).issued < MAX_INT32
    ensures HarmlessRun(l, events)
  {
    if events != [] {
      var n := |events| - 1;
      var before := Run(l, events[..n]);
      AdvanceIssues(before, events[n]);
      UnhintedRunIsHarmless(l, events[..n]);
      RunSoundExactly(l, events[..n]);
      if events[n].Request? { UnhintedActionsAreHarmless(before, events[n].after, events[n].actions); }
    }
  }

  /** From a fresh session, until the counter wraps, and as long as claims are harmless, no two
      slots ever share an id and every id handed out next is new. */
  lemma {:induction false} IdsStayDistinct(events: seq<Event>, i: int, j: int)
    requires HarmlessRun(EMPTY_LEDGER, events)
    requires Run(EMPTY_LEDGER, events).issued < MAX_INT32
    ensures var l := Run(EMPTY_LEDGER, events);
            && (i != j && IdAt(l, i) != 0 ==> IdAt(l, i) != IdAt(l, j))
            && 0 <= IdAt(l, i) < l.next
            && Fresh(l) == l.next
  {
    RunSoundExactly(EMPTY_LEDGER, events);
    var l := Run(EMPTY_LEDGER, events);
    if Stored(i) && Stored(j) && i < j { assert l.cells[i + 1] != 0 ==> l.cells[i + 1] != l.cells[j + 1]; }
    if Stored(i) && Stored(j) && j < i { assert l.cells[j + 1] != 0 ==> l.cells[j + 1] != l.cells[i + 1]; }
  }

  // ----- ids never go negative, whatever the client claims

  lemma ApplyActionNonNegative(l: Ledger, p: Player, a: Action)
    requires NonNegative(l)
    ensures NonNegative(ApplyAction(l, p, a))
  {
    MintKeeps(l);
    match a
    case Take(source, destination, _) => TransferNonNegative(l, p, source, destination);
    case Place(source, destination, _) => TransferNonNegative(l, p, source, destination);
    case Swap(source, destination) =>
      match (Slot(p, source), Slot(p, destination)) {
        case (Some(s), Some(d)) =>
          PutNonNegative(l, s, Known(IdAt(l, d), destination.stackNetworkId));
        case _ =>
      }
    case _ =>
  }

  lemma PutNonNegative(l: Ledger, slot: int, id: int)
    requires NonNegative(l) && id >= 0
    ensures NonNegative(Put(l, slot, id))
  {
  }

  lemma TransferNonNegative(l: Ledger, p: Player, source: SlotInfo, destination: SlotInfo)
    requires NonNegative(l)
    ensures NonNegative(Transfer(l, p, source, destination))
  {
    match (Slot(p, source), Slot(p, destination))
    case (Some(s), Some(d)) =>
      var sId := Known(IdAt(l, s), source.stackNetworkId);
      var dId := Known(IdAt(l, d), destination.stackNetworkId);
      MintKeeps(l);
      var placed :=
        if StackAt(p, d).IsEmpty() then Put(l, d, 0)
        else if dId > 0 then Put(l, d, dId)
        else if sId > 0 && StackAt(p, s).IsEmpty() then Put(l, d, sId)
        else Put(Mint(l), d, Fresh(l));
      assert NonNegative(placed);
      MintKeeps(placed);
    case _ =>
  }

  lemma {:induction false} ApplyActionsNonNegative(l: Ledger, p: Player, actions: seq<Action>)
    requires NonNegative(l)
    ensures NonNegative(ApplyActions(l, p, actions))
  {
    if actions != [] {
      var front := actions[..|actions| - 1];
      ApplyActionsNonNegative(l, p, front);
      ApplyActionNonNegative(ApplyActions(l, p, front), p, actions[|actions| - 1]);
    }
  }

  lemma {:induction false} RefreshAllNonNegative(l: Ledger, sightings: seq<Sighting>)
    requires NonNegative(l)
    ensures NonNegative(RefreshAll(l, sightings))
  {
    if sightings != [] {
      var before := RefreshAll(l, sightings[..|sightings| - 1]);
      RefreshAllNonNegative(l, sightings[..|sightings| - 1]);
      MintKeeps(before);
    }
  }

  lemma {:induction false} RunNonNegative(l: Ledger, events: seq<Event>)
    requires NonNegative(l)
    ensures NonNegative(Run(l, events))
  {
    if events != [] {
      var n := |events| - 1;
      RunNonNegative(l, events[..n]);
      match events[n]
      case Request(p, actions) => ApplyActionsNonNegative(Run(l, events[..n]), p, actions);
      case Refreshed(sightings) => RefreshAllNonNegative(Run(l, events[..n]), sightings);
      case ContainerOpened =>
    }
  }

  /** After any run and one more accepted request, hinted or not, wrapped or not: a reported id
      is positive exactly for an occupied slot, and it is the stored id; client slots that alias
      one canonical slot report the same id. */
  lemma {:induction false} ResponseAgrees(events: seq<Event>, p: Player, actions: seq<Action>, k: nat, other: nat)
    requires var refs := ChangedSlots(p, IsCreative(actions), actions);
             AllResolve(p, refs) && k < |refs| && other < |refs|
    ensures var refs := ChangedSlots(p, IsCreative(actions), actions);
            var l := ApplyActions(Run(EMPTY_LEDGER, events), p, actions);
            var slot := Canonical(p, refs[k]);
            var id := Entries(l, p, refs)[k].stackNetworkId;
            && ShowsStack(Entries(l, p, refs)[k], StackAt(p, slot))
            && (id > 0 <==> !StackAt(p, slot).IsEmpty())
            && id == IdAt(SettleRefs(l, p, refs), slot)
            && (Canonical(p, refs[other]) == slot ==>
                  Entries(l, p, refs)[other].stackNetworkId == id)
  {
    RunNonNegative(EMPTY_LEDGER, events);
    ApplyActionsNonNegative(Run(EMPTY_LEDGER, events), p, actions);
    ReportsAgree(ApplyActions(Run(EMPTY_LEDGER, events), p, actions), p,
                 ChangedSlots(p, IsCreative(actions), actions), k, other);
  }

  lemma {:induction false} RunAppend(l: Ledger, first: seq<Event>, second: seq<Event>)
    ensures Run(l, first + second) == Run(Run(l, first), second)
  {
    if second == [] {
      assert first + second == first;
    } else {
      var n := |second| - 1;
      assert (first + second)[..|first + second| - 1] == first + second[..n];
      RunAppend(l, first, second[..n]);
    }
  }

  /** Answering an accepted request is a run of two events. */
  lemma AnsweringIsARun(l: Ledger, p: Player, actions: seq<Action>) returns (sightings: seq<Sighting>)
    requires AllResolve(p, ChangedSlots(p, IsCreative(actions), actions))
    ensures SettleRefs(ApplyActions(l, p, actions), p, ChangedSlots(p, IsCreative(actions), actions))
            == Run(l, [Request(p, actions), Refreshed(sightings)])
  {
    var refs := ChangedSlots(p, IsCreative(actions), actions);
    sightings := seq(|refs|, i requires 0 <= i < |refs| =>
                       Sighting(Canonical(p, refs[i]), Vacant(p, refs[i]), false));
    SettlingIsRefreshing(ApplyActions(l, p, actions), p, refs);
    var events := [Request(p, actions), Refreshed(sightings)];
    assert events[..1] == [Request(p, actions)] && events[..1][..0] == [];
    assert Run(l, events[..1]) == Advance(Run(l, []), events[0]);
    assert Run(l, events) == Advance(Run(l, events[..1]), events[1]);
  }
}
