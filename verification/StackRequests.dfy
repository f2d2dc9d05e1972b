/**
 A stack-request packet: translating each request into canonical actions,
 handing them to the simulation and answering every request in order
 (bedrock/listener.go).
 */
module StackRequests {
  import opened Options
  import opened PlayerSlots
  import opened StackLedger
  import opened StackReports
  import opened StackSession
  import opened StackLedgerRuns

  /** What the simulation is asked to do. */
  datatype CanonicalAction =
    | CreativeGive(itemId: string, count: int)
    | Move(source: int, destination: int, count: int, crafts: int)
    | Exchange(source: int, destination: int)
    | DropItems(source: int, count: int)
    | DestroyItems(source: int, count: int)
    | ConsumeItems(source: int, count: int)

  /** The creative catalogue and the stack limits of known items; others stack to 64. */
  datatype Catalogue = Catalogue(creative: map<nat, string>, stackLimits: map<string, int>) {
    function MaxStackSize(itemId: string): int {
      if itemId in stackLimits then stackLimits[itemId] else 64
    }
  }

  function CreativeRequestCount(actions: seq<Action>): int {
    if actions == [] then 1
    else if TakesCreatedOutput(actions[0]) && actions[0].count > 0 then actions[0].count
    else if actions[0].CraftResults? && actions[0].previewCount.Some? && actions[0].previewCount.value > 0 then
      actions[0].previewCount.value
    else CreativeRequestCount(actions[1..])
  }

  function GiveCount(env: Catalogue, itemId: string, requested: int): int {
    var count := if requested < 1 then 1 else requested;
    if 0 < env.MaxStackSize(itemId) < count then env.MaxStackSize(itemId) else count
  }

  // ----- what a request means, action by action

  predicate Recognised(a: Action) {
    !a.Unsupported?
  }

  predicate RequestsCraft(actions: seq<Action>) {
    exists i :: 0 <= i < |actions| &&
                (actions[i].CraftRecipe? || actions[i].AutoCraftRecipe? || actions[i].CraftOptional?)
  }

  /** A creative item was selected before action i. */
  predicate CreativeBefore(actions: seq<Action>, i: nat)
    requires i <= |actions|
  {
    exists j :: 0 <= j < i && actions[j].CraftCreative?
  }

  /** The repetitions announced so far, after one more action. */
  function CraftsAfter(a: Action, before: int): int {
    match a
    case CraftRecipe(crafts) => if crafts > 1 then crafts else 1
    case AutoCraftRecipe(crafts) => if crafts > 1 then crafts else 1
    case _ => before
  }

  /** The repetitions announced by the last craft action before action i. */
  function CraftsBefore(actions: seq<Action>, i: nat): int
    requires i <= |actions|
  {
    if i == 0 then 1 else CraftsAfter(actions[i - 1], CraftsBefore(actions, i - 1))
  }

  /** The virtual take of a creative stack that is already on the cursor. */
  predicate Virtual(actions: seq<Action>, i: nat)
    requires i < |actions|
  {
    CreativeBefore(actions, i) && TakesCreatedOutput(actions[i])
  }

  function Named(p: Option<Player>, info: SlotInfo): Option<int> {
    CanonicalSlot(p, info.at)
  }

  /** Action i makes the whole request invalid. */
  predicate Rejected(p: Option<Player>, env: Catalogue, actions: seq<Action>, i: nat)
    requires i < |actions|
  {
    match actions[i]
    case CraftCreative(id) => id !in env.creative
    case Take(source, destination, count) =>
      !Virtual(actions, i) && (Named(p, source).None? || Named(p, destination).None? || count == 0)
    case Place(source, destination, count) =>
      Named(p, source).None? || Named(p, destination).None? || count == 0
    case Swap(source, destination) =>
      Named(p, source).None? || Named(p, destination).None? || Named(p, source) == Named(p, destination)
    case Drop(source, count) => Named(p, source).None? || count == 0
    case Destroy(source, count) => Named(p, source).None? || count == 0
    case Consume(source, count) => !RequestsCraft(actions) && (Named(p, source).None? || count == 0)
    case _ => false
  }

  function Meaning(p: Option<Player>, env: Catalogue, actions: seq<Action>, i: nat): seq<CanonicalAction>
    requires i < |actions| && !Rejected(p, env, actions, i)
  {
    match actions[i]
    case CraftCreative(id) =>
      [CreativeGive(env.creative[id], GiveCount(env, env.creative[id], CreativeRequestCount(actions)))]
    case Take(source, destination, count) =>
      if Virtual(actions, i) then []
      else [Move(Named(p, source).value, Named(p, destination).value, count, CraftsBefore(actions, i))]
    case Place(source, destination, count) =>
      [Move(Named(p, source).value, Named(p, destination).value, count, 0)]
    case Swap(source, destination) => [Exchange(Named(p, source).value, Named(p, destination).value)]
    case Drop(source, count) => [DropItems(Named(p, source).value, count)]
    case Destroy(source, count) => [DestroyItems(Named(p, source).value, count)]
    case Consume(source, count) =>
      if RequestsCraft(actions) then [] else [ConsumeItems(Named(p, source).value, count)]
    case _ => []
  }

  predicate NoneRejected(p: Option<Player>, env: Catalogue, actions: seq<Action>, n: nat)
    requires n <= |actions|
  {
    forall i :: 0 <= i < n ==> !Rejected(p, env, actions, i)
  }

  function Meanings(p: Option<Player>, env: Catalogue, actions: seq<Action>, n: nat): seq<CanonicalAction>
    requires n <= |actions| && NoneRejected(p, env, actions, n)
  {
    if n == 0 then [] else Meanings(p, env, actions, n - 1) + Meaning(p, env, actions, n - 1)
  }

  /** A request is valid when some action is recognised and none is rejected. */
  predicate ValidRequest(p: Option<Player>, env: Catalogue, actions: seq<Action>) {
    && (exists i :: 0 <= i < |actions| && Recognised(actions[i]))
    && NoneRejected(p, env, actions, |actions|)
  }

  /** What every canonical action guarantees the simulation, whatever the client sent. */
  predicate WellFormed(a: CanonicalAction) {
    match a
    case CreativeGive(_, count) => count >= 1
    case Move(source, destination, count, crafts) => source >= -1 && destination >= -1 && count >= 1 && crafts >= 0
    case Exchange(source, destination) => source >= -1 && destination >= -1 && source != destination
    case DropItems(source, count) => source >= -1 && count >= 1
    case DestroyItems(source, count) => source >= -1 && count >= 1
    case ConsumeItems(source, count) => source >= -1 && count >= 1
  }

  lemma CraftsArePositive(actions: seq<Action>, i: nat)
    requires i <= |actions|
    ensures CraftsBefore(actions, i) >= 1
  {
  }

  lemma MeaningIsWellFormed(p: Option<Player>, env: Catalogue, actions: seq<Action>, i: nat)
    requires i < |actions| && !Rejected(p, env, actions, i)
    ensures forall a :: a in Meaning(p, env, actions, i) ==> WellFormed(a)
  {
    CraftsArePositive(actions, i);
    match actions[i]
    case Take(source, destination, _) => CanonicalRange(p, source.at); CanonicalRange(p, destination.at);
    case Place(source, destination, _) => CanonicalRange(p, source.at); CanonicalRange(p, destination.at);
    case Swap(source, destination) => CanonicalRange(p, source.at); CanonicalRange(p, destination.at);
    case Drop(source, _) => CanonicalRange(p, source.at);
    case Destroy(source, _) => CanonicalRange(p, source.at);
    case Consume(source, _) => CanonicalRange(p, source.at);
    case _ =>
  }

  lemma {:induction false} MeaningsAreWellFormed(p: Option<Player>, env: Catalogue, actions: seq<Action>, n: nat)
    requires n <= |actions| && NoneRejected(p, env, actions, n)
    ensures forall a :: a in Meanings(p, env, actions, n) ==> WellFormed(a)
  {
    if n > 0 {
      MeaningsAreWellFormed(p, env, actions, n - 1);
      MeaningIsWellFormed(p, env, actions, n - 1);
    }
  }

  method CreativeGiveCount(env: Catalogue, itemId: string, requested: int) returns (count: int)
    ensures count == GiveCount(env, itemId, requested)
  {
    count := requested;
    if count < 1 {
      count := 1;
    }
    var maximum := env.MaxStackSize(itemId);
    if maximum > 0 && count > maximum {
      count := maximum;
    }
  }

  method SourceSlot(p: Option<Player>, source: SlotInfo, count: nat) returns (slot: int, valid: bool)
    ensures valid <==> Named(p, source).Some? && count != 0
    ensures valid ==> Some(slot) == Named(p, source)
  {
    var s := CanonicalSlot(p, source.at);
    if s.None? || count == 0 {
      return 0, false;
    }
    return s.value, true;
  }

  method TranslateMove(p: Option<Player>, source: SlotInfo, destination: SlotInfo, count: nat, crafts: int)
    returns (out: seq<CanonicalAction>, valid: bool)
    ensures valid <==> Named(p, source).Some? && Named(p, destination).Some? && count != 0
    ensures valid ==> out == [Move(Named(p, source).value, Named(p, destination).value, count, crafts)]
  {
    var s, d := CanonicalSlot(p, source.at), CanonicalSlot(p, destination.at);
    if s.None? || d.None? || count == 0 {
      return [], false;
    }
    return [Move(s.value, d.value, count, crafts)], true;
  }

  method TranslateAction(p: Option<Player>, env: Catalogue, actions: seq<Action>, i: nat,
                         creativeSelected: bool, creativeCount: int, craftCount: int, craftRequest: bool)
    returns (out: seq<CanonicalAction>, valid: bool)
    requires i < |actions|
    requires creativeSelected <==> CreativeBefore(actions, i)
    requires creativeCount == CreativeRequestCount(actions)
    requires craftCount == CraftsBefore(actions, i)
    requires craftRequest <==> RequestsCraft(actions)
    ensures valid <==> !Rejected(p, env, actions, i)
    ensures valid ==> out == Meaning(p, env, actions, i)
  {
    out, valid := [], true;
    match actions[i] {
      case CraftCreative(id) =>
        if id !in env.creative {
          return [], false;
        }
        var itemId := env.creative[id];
        var count := CreativeGiveCount(env, itemId, creativeCount);
        out := [CreativeGive(itemId, count)];
      case Take(source, destination, count) =>
        if !(creativeSelected && TakesCreatedOutput(actions[i])) {
          out, valid := TranslateMove(p, source, destination, count, craftCount);
        }
      case Place(source, destination, count) =>
        out, valid := TranslateMove(p, source, destination, count, 0);
      case Swap(source, destination) =>
        var s, d := CanonicalSlot(p, source.at), CanonicalSlot(p, destination.at);
        if s.None? || d.None? || s == d {
          return [], false;
        }
        out := [Exchange(s.value, d.value)];
      case Drop(source, count) =>
        var slot;
        slot, valid := SourceSlot(p, source, count);
        out := [DropItems(slot, count)];
      case Destroy(source, count) =>
        var slot;
        slot, valid := SourceSlot(p, source, count);
        out := [DestroyItems(slot, count)];
      case Consume(source, count) =>
        if !craftRequest {
          var slot;
          slot, valid := SourceSlot(p, source, count);
          out := [ConsumeItems(slot, count)];
        }
      case _ =>
    }
  }

  /** What the translation of the first i actions leaves, flags included. */
  predicate TranslatedTo(p: Option<Player>, env: Catalogue, actions: seq<Action>, i: nat,
                         out: seq<CanonicalAction>, valid: bool, creativeSelected: bool, craftCount: int)
    requires i <= |actions|
  {
    && NoneRejected(p, env, actions, i)
    && out == Meanings(p, env, actions, i)
    && (valid <==> exists j :: 0 <= j < i && Recognised(actions[j]))
    && (creativeSelected <==> CreativeBefore(actions, i))
    && craftCount == CraftsBefore(actions, i)
  }

  lemma TranslatedStep(p: Option<Player>, env: Catalogue, actions: seq<Action>, i: nat,
                       out: seq<CanonicalAction>, valid: bool, creativeSelected: bool, craftCount: int)
    requires i < |actions| && TranslatedTo(p, env, actions, i, out, valid, creativeSelected, craftCount)
    requires !Rejected(p, env, actions, i)
    ensures TranslatedTo(p, env, actions, i + 1, out + Meaning(p, env, actions, i), valid || Recognised(actions[i]),
                         creativeSelected || actions[i].CraftCreative?, CraftsAfter(actions[i], craftCount))
  {
  }

  // ----- where the canonical actions come from

  /** The take of a creative stack that an earlier action of the request already put on the cursor. */
  predicate TakesCreativeStack(actions: seq<Action>, i: nat)
    requires i < |actions|
  {
    && actions[i].Take? && actions[i].source.at.container == CreatedOutput && actions[i].destination.at.container == Cursor
    && exists j :: 0 <= j < i && actions[j].CraftCreative?
  }

  predicate IsCraft(a: Action) {
    a.CraftRecipe? || a.AutoCraftRecipe? || a.CraftOptional?
  }

  /** The actions that ask the simulation for something: consuming only away from crafting. */
  predicate Effective(actions: seq<Action>, i: nat)
    requires i < |actions|
  {
    var a := actions[i];
    || a.CraftCreative? || a.Place? || a.Swap? || a.Drop? || a.Destroy?
    || (a.Take? && !TakesCreativeStack(actions, i))
    || (a.Consume? && forall j :: 0 <= j < |actions| ==> !IsCraft(actions[j]))
  }

  predicate Repeats(a: Action) {
    a.CraftRecipe? || a.AutoCraftRecipe?
  }

  /** The repetitions that the nearest recipe before action i announced, at least one. */
  predicate Announced(actions: seq<Action>, i: nat, crafts: int)
    requires i <= |actions|
  {
    || (crafts == 1 && forall j :: 0 <= j < i ==> !Repeats(actions[j]))
    || exists j :: 0 <= j < i && Repeats(actions[j]) && (forall k :: j < k < i ==> !Repeats(actions[k]))
                   && crafts == if actions[j].crafts < 1 then 1 else actions[j].crafts
  }

  /** The action says how many creative items are meant: a take of the created stack, or a preview. */
  predicate SaysHowMany(a: Action) {
    || (a.Take? && a.source.at.container == CreatedOutput && a.destination.at.container == Cursor && a.count > 0)
    || (a.CraftResults? && a.previewCount.Some? && a.previewCount.value > 0)
  }

  function HowMany(a: Action): nat
    requires SaysHowMany(a)
  {
    if a.Take? then a.count else a.previewCount.value
  }

  /** The count of the first action that says one, and one when none does. */
  predicate Requested(actions: seq<Action>, n: int) {
    || (n == 1 && forall j :: 0 <= j < |actions| ==> !SaysHowMany(actions[j]))
    || exists j :: 0 <= j < |actions| && SaysHowMany(actions[j]) && n == HowMany(actions[j])
                   && forall i :: 0 <= i < j ==> !SaysHowMany(actions[i])
  }

  /** The requested count, cut to what one stack of the item holds. */
  ghost predicate Gives(env: Catalogue, actions: seq<Action>, itemId: string, count: int) {
    exists n :: Requested(actions, n) &&
                count == if 0 < env.MaxStackSize(itemId) < n then env.MaxStackSize(itemId) else n
  }

  /** The canonical action of the kind of action i, with its slots and its count. */
  ghost predicate AsksFor(p: Option<Player>, env: Catalogue, actions: seq<Action>, i: nat, c: CanonicalAction)
    requires i < |actions|
  {
    match actions[i]
    case CraftCreative(id) =>
      c.CreativeGive? && id in env.creative && c.itemId == env.creative[id] && Gives(env, actions, c.itemId, c.count)
    case Take(source, destination, count) =>
      && c.Move? && CanonicalSlot(p, source.at) == Some(c.source)
      && CanonicalSlot(p, destination.at) == Some(c.destination)
      && c.count == count && Announced(actions, i, c.crafts)
    case Place(source, destination, count) =>
      && c.Move? && CanonicalSlot(p, source.at) == Some(c.source)
      && CanonicalSlot(p, destination.at) == Some(c.destination)
      && c.count == count && c.crafts == 0
    case Swap(source, destination) =>
      && c.Exchange? && CanonicalSlot(p, source.at) == Some(c.source)
      && CanonicalSlot(p, destination.at) == Some(c.destination)
    case Drop(source, count) => c.DropItems? && CanonicalSlot(p, source.at) == Some(c.source) && c.count == count
    case Destroy(source, count) => c.DestroyItems? && CanonicalSlot(p, source.at) == Some(c.source) && c.count == count
    case Consume(source, count) => c.ConsumeItems? && CanonicalSlot(p, source.at) == Some(c.source) && c.count == count
    case _ => false
  }

  /** Each canonical action comes from the action at its position, in order, and exactly the effective
      ones among the first n have one. */
  ghost predicate TracedBy(p: Option<Player>, env: Catalogue, actions: seq<Action>, n: nat, out: seq<CanonicalAction>,
                     positions: seq<nat>)
    requires n <= |actions|
  {
    && |positions| == |out|
    && (forall k :: 0 <= k < |positions| ==> positions[k] < n && AsksFor(p, env, actions, positions[k], out[k]))
    && (forall j, k :: 0 <= j < k < |positions| ==> positions[j] < positions[k])
    && (forall i: nat :: i < n ==> (i in positions <==> Effective(actions, i)))
  }

  ghost predicate Traces(p: Option<Player>, env: Catalogue, actions: seq<Action>, out: seq<CanonicalAction>) {
    exists positions :: TracedBy(p, env, actions, |actions|, out, positions)
  }

  /** Some action is recognised, and every effective one asks for something well-formed. */
  ghost predicate Acceptable(p: Option<Player>, env: Catalogue, actions: seq<Action>) {
    && (exists i :: 0 <= i < |actions| && !actions[i].Unsupported?)
    && forall i :: 0 <= i < |actions| && Effective(actions, i) ==>
         exists c :: AsksFor(p, env, actions, i, c) && WellFormed(c)
  }

  lemma {:induction false} CraftsAreAnnounced(actions: seq<Action>, i: nat)
    requires i <= |actions|
    ensures Announced(actions, i, CraftsBefore(actions, i))
  {
    if i > 0 {
      CraftsAreAnnounced(actions, i - 1);
      AnnouncedStep(actions, i, CraftsBefore(actions, i - 1));
    }
  }

  lemma AnnouncedStep(actions: seq<Action>, i: nat, before: int)
    requires 0 < i <= |actions| && Announced(actions, i - 1, before)
    ensures Announced(actions, i, CraftsAfter(actions[i - 1], before))
  {
    if !Repeats(actions[i - 1]) {
      if j :| 0 <= j < i - 1 && Repeats(actions[j]) && (forall k :: j < k < i - 1 ==> !Repeats(actions[k]))
              && before == if actions[j].crafts < 1 then 1 else actions[j].crafts {
        assert forall k :: j < k < i ==> !Repeats(actions[k]);
      }
    }
  }

  lemma {:induction false} CountIsRequested(actions: seq<Action>)
    ensures Requested(actions, CreativeRequestCount(actions))
  {
    if actions != [] && !SaysHowMany(actions[0]) {
      var rest := actions[1..];
      CountIsRequested(rest);
      assert forall j :: 0 < j < |actions| ==> rest[j - 1] == actions[j];
      if exists j :: 0 <= j < |rest| && SaysHowMany(rest[j]) {
        var j :| 0 <= j < |rest| && SaysHowMany(rest[j]) && CreativeRequestCount(rest) == HowMany(rest[j])
                 && forall i :: 0 <= i < j ==> !SaysHowMany(rest[i]);
        assert actions[j + 1] == rest[j];
        assert forall i :: 0 < i < j + 1 ==> actions[i] == rest[i - 1];
      }
    }
  }

  /** An action means the one canonical action it asks for when it is effective, and nothing otherwise. */
  lemma MeaningIsAskedFor(p: Option<Player>, env: Catalogue, actions: seq<Action>, i: nat)
    requires i < |actions| && !Rejected(p, env, actions, i)
    ensures var meaning := Meaning(p, env, actions, i);
            if Effective(actions, i) then |meaning| == 1 && AsksFor(p, env, actions, i, meaning[0]) else meaning == []
  {
    CraftsAreAnnounced(actions, i);
    CountIsRequested(actions);
    assert RequestsCraft(actions) <==> exists j :: 0 <= j < |actions| && IsCraft(actions[j]);
  }

  /** An effective action is rejected exactly when it asks for nothing well-formed; no other is. */
  lemma RejectedExactly(p: Option<Player>, env: Catalogue, actions: seq<Action>, i: nat)
    requires i < |actions|
    ensures Rejected(p, env, actions, i) <==>
            Effective(actions, i) && !exists c :: AsksFor(p, env, actions, i, c) && WellFormed(c)
  {
    if !Rejected(p, env, actions, i) {
      MeaningIsAskedFor(p, env, actions, i);
      MeaningIsWellFormed(p, env, actions, i);
      if Effective(actions, i) {
        var c := Meaning(p, env, actions, i)[0];
        assert c in Meaning(p, env, actions, i) && AsksFor(p, env, actions, i, c) && WellFormed(c);
      }
    } else {
      assert RequestsCraft(actions) <==> exists j :: 0 <= j < |actions| && IsCraft(actions[j]);
    }
  }

  /** A request is valid exactly when it is acceptable. */
  lemma ValidExactly(p: Option<Player>, env: Catalogue, actions: seq<Action>)
    ensures ValidRequest(p, env, actions) <==> Acceptable(p, env, actions)
  {
    forall i: nat | i < |actions|
      ensures Rejected(p, env, actions, i) <==>
              Effective(actions, i) && !exists c :: AsksFor(p, env, actions, i, c) && WellFormed(c)
    {
      RejectedExactly(p, env, actions, i);
    }
  }

  lemma {:induction false} MeaningsAreTraced(p: Option<Player>, env: Catalogue, actions: seq<Action>, n: nat)
    returns (positions: seq<nat>)
    requires n <= |actions| && NoneRejected(p, env, actions, n)
    ensures TracedBy(p, env, actions, n, Meanings(p, env, actions, n), positions)
  {
    if n == 0 {
      positions := [];
    } else {
      var before := MeaningsAreTraced(p, env, actions, n - 1);
      positions := MeaningIsTraced(p, env, actions, n - 1, n, before);
    }
  }

  lemma MeaningIsTraced(p: Option<Player>, env: Catalogue, actions: seq<Action>, i: nat, n: nat, before: seq<nat>)
    returns (positions: seq<nat>)
    requires n == i + 1 <= |actions| && NoneRejected(p, env, actions, n)
    requires TracedBy(p, env, actions, i, Meanings(p, env, actions, i), before)
    ensures TracedBy(p, env, actions, n, Meanings(p, env, actions, n), positions)
  {
    MeaningIsAskedFor(p, env, actions, i);
    positions := if Effective(actions, i) then before + [i] else before;
    TraceOneMore(p, env, actions, i, Meanings(p, env, actions, i), before, Meaning(p, env, actions, i),
                 n, Meanings(p, env, actions, n), positions);
  }

  lemma TraceOneMore(p: Option<Player>, env: Catalogue, actions: seq<Action>, n: nat, out: seq<CanonicalAction>,
                     positions: seq<nat>, one: seq<CanonicalAction>,
                     next: nat, more: seq<CanonicalAction>, all: seq<nat>)
    requires n < |actions| && TracedBy(p, env, actions, n, out, positions)
    requires if Effective(actions, n) then |one| == 1 && AsksFor(p, env, actions, n, one[0]) else one == []
    requires next == n + 1 && more == out + one && all == if Effective(actions, n) then positions + [n] else positions
    ensures TracedBy(p, env, actions, next, more, all)
  {
    if Effective(actions, n) {
      forall k | 0 <= k < |all| ensures all[k] < next && AsksFor(p, env, actions, all[k], more[k]) {
        assert if k < |out| then all[k] == positions[k] && more[k] == out[k] else all[k] == n && more[k] == one[0];
      }
      forall i: nat | i < n + 1 ensures i in all <==> Effective(actions, i) {
        assert i in all <==> i in positions || i == n;
      }
    } else {
      assert more == out;
    }
  }

  /** What the whole translation of a valid request guarantees. */
  lemma TranslationIsSound(p: Option<Player>, env: Catalogue, actions: seq<Action>)
    requires NoneRejected(p, env, actions, |actions|)
    ensures var out := Meanings(p, env, actions, |actions|);
            Traces(p, env, actions, out) && forall a :: a in out ==> WellFormed(a)
  {
    MeaningsAreWellFormed(p, env, actions, |actions|);
    var positions := MeaningsAreTraced(p, env, actions, |actions|);
  }

  /** A request without a destroy action destroys nothing, and likewise for every other kind. */
  lemma NothingUnasked(p: Option<Player>, env: Catalogue, actions: seq<Action>, out: seq<CanonicalAction>,
                       c: CanonicalAction)
    requires Traces(p, env, actions, out) && c in out
    ensures c.DestroyItems? ==> exists a :: a in actions && a.Destroy?
    ensures c.DropItems? ==> exists a :: a in actions && a.Drop?
    ensures c.ConsumeItems? ==> exists a :: a in actions && a.Consume?
    ensures c.Exchange? ==> exists a :: a in actions && a.Swap?
    ensures c.CreativeGive? ==> exists a :: a in actions && a.CraftCreative?
    ensures c.Move? ==> exists a :: a in actions && (a.Take? || a.Place?)
  {
    var positions :| TracedBy(p, env, actions, |actions|, out, positions);
    var k :| 0 <= k < |out| && out[k] == c;
    assert AsksFor(p, env, actions, positions[k], c);
    assert actions[positions[k]] in actions;
  }

  /** Translates actions until one is rejected. */
  method TranslateActions(p: Option<Player>, env: Catalogue, actions: seq<Action>)
    returns (out: seq<CanonicalAction>, valid: bool)
    ensures valid <==> ValidRequest(p, env, actions)
    ensures if NoneRejected(p, env, actions, |actions|) then out == Meanings(p, env, actions, |actions|) else out == []
  {
    out, valid := [], false;
    var creativeSelected := false;
    var creativeCount := CreativeRequestCount(actions);
    var craftCount := 1;
    var craftRequest := RequestsCraft(actions);
    for i := 0 to |actions|
      invariant TranslatedTo(p, env, actions, i, out, valid, creativeSelected, craftCount)
    {
      var meaning, accepted := TranslateAction(p, env, actions, i, creativeSelected, creativeCount,
                                               craftCount, craftRequest);
      if !accepted {
        return [], false;
      }
      TranslatedStep(p, env, actions, i, out, valid, creativeSelected, craftCount);
      out := out + meaning;
      valid := valid || Recognised(actions[i]);
      match actions[i] {
        case CraftCreative(_) => creativeSelected := true;
        case CraftRecipe(crafts) => craftCount := if crafts > 1 then crafts else 1;
        case AutoCraftRecipe(crafts) => craftCount := if crafts > 1 then crafts else 1;
        case _ =>
      }
    }
  }

  method CanonicalInventoryActions(p: Option<Player>, env: Catalogue, actions: seq<Action>)
    returns (out: seq<CanonicalAction>, valid: bool)
    ensures valid <==> ValidRequest(p, env, actions)
    ensures valid <==> Acceptable(p, env, actions)
    ensures valid ==> out == Meanings(p, env, actions, |actions|) && Traces(p, env, actions, out)
    ensures forall a :: a in out ==> WellFormed(a)
  {
    out, valid := TranslateActions(p, env, actions);
    ValidExactly(p, env, actions);
    if NoneRejected(p, env, actions, |actions|) { TranslationIsSound(p, env, actions); }
  }

  // ----- the packet

  datatype StackRequest = StackRequest(requestId: int, actions: seq<Action>)

  /** What the world answers while one request is handled: the player before, whether the
      intent could be queued and was accepted in time, and the player and session afterwards. */
  datatype Outcome = Outcome(before: Option<Player>, posted: bool, accepted: bool,
                             after: Option<Player>, hasSession: bool)

  datatype Response = Response(ok: bool, requestId: int, groups: seq<Group>)

  predicate Committed(o: Outcome) {
    o.posted && o.accepted && o.after.Some? && o.hasSession
  }

  /** The translated request has something for the simulation to do. */
  predicate Asks(env: Catalogue, request: StackRequest, o: Outcome) {
    && ValidRequest(o.before, env, request.actions)
    && Meanings(o.before, env, request.actions, |request.actions|) != []
  }

  predicate Succeeds(env: Catalogue, request: StackRequest, o: Outcome) {
    ValidRequest(o.before, env, request.actions) && (Asks(env, request, o) ==> Committed(o))
  }

  /** The answer to one request and the ledger around it. */
  predicate Answers(env: Catalogue, request: StackRequest, o: Outcome, response: Response,
                    before: Ledger, after: Ledger) {
    && response.requestId == request.requestId
    && (response.ok <==> Succeeds(env, request, o))
    && (if response.ok && Asks(env, request, o) then
          var p := o.after.value;
          var refs := ChangedSlots(p, IsCreative(request.actions), request.actions);
          var applied := ApplyActions(before, p, request.actions);
          && AllResolve(p, refs)
          && after == SettleRefs(applied, p, refs)
          && GroupsExactly(response.groups, Entries(applied, p, refs))
        else
          after == before && response.groups == [])
  }

  /** The first |responses| requests are answered, each from the ledger the one before left. */
  /** Some action of the request is effective. */
  predicate HasEffect(actions: seq<Action>) {
    exists i :: 0 <= i < |actions| && Effective(actions, i)
  }

  lemma AsksExactly(env: Catalogue, request: StackRequest, o: Outcome)
    ensures Asks(env, request, o) <==> Acceptable(o.before, env, request.actions) && HasEffect(request.actions)
  {
    ValidExactly(o.before, env, request.actions);
    if ValidRequest(o.before, env, request.actions) {
      var positions := MeaningsAreTraced(o.before, env, request.actions, |request.actions|);
      if HasEffect(request.actions) {
        var i: nat :| i < |request.actions| && Effective(request.actions, i);
        assert i in positions;
      }
      if positions != [] { assert positions[0] in positions; }
    }
  }

  /** A request succeeds exactly when it is acceptable and, if it asks for anything, was queued and
      accepted with player and session still there. Otherwise, and when it asks for nothing, no id
      changes and nothing is reported. */
  lemma AnsweredExactly(env: Catalogue, request: StackRequest, o: Outcome, response: Response,
                        before: Ledger, after: Ledger)
    requires Answers(env, request, o, response, before, after)
    ensures response.requestId == request.requestId
    ensures response.ok <==>
              && Acceptable(o.before, env, request.actions)
              && (HasEffect(request.actions) ==> o.posted && o.accepted && o.after.Some? && o.hasSession)
    ensures !response.ok || !HasEffect(request.actions) ==> after == before && response.groups == []
  {
    AsksExactly(env, request, o);
    ValidExactly(o.before, env, request.actions);
  }

  ghost predicate AnswersAll(env: Catalogue, requests: seq<StackRequest>, outcomes: seq<Outcome>,
                             responses: seq<Response>, ledgers: seq<Ledger>) {
    && |responses| <= |requests| && |responses| <= |outcomes|
    && |ledgers| == |responses| + 1
    && forall k :: 0 <= k < |responses| ==>
         Answers(env, requests[k], outcomes[k], responses[k], ledgers[k], ledgers[k + 1])
  }

  lemma AnswersAllStep(env: Catalogue, requests: seq<StackRequest>, outcomes: seq<Outcome>,
                       responses: seq<Response>, ledgers: seq<Ledger>, r: Response, after: Ledger)
    requires AnswersAll(env, requests, outcomes, responses, ledgers)
    requires |responses| < |requests| && |responses| < |outcomes|
    requires Answers(env, requests[|responses|], outcomes[|responses|], r, ledgers[|responses|], after)
    ensures AnswersAll(env, requests, outcomes, responses + [r], ledgers + [after])
  {
    var responses', ledgers' := responses + [r], ledgers + [after];
    forall k | 0 <= k < |responses'|
      ensures Answers(env, requests[k], outcomes[k], responses'[k], ledgers'[k], ledgers'[k + 1])
    {
      if k < |responses| {
        assert responses'[k] == responses[k] && ledgers'[k] == ledgers[k] && ledgers'[k + 1] == ledgers[k + 1];
      } else {
        assert responses'[k] == r && ledgers'[k] == ledgers[k] && ledgers'[k + 1] == after;
      }
    }
  }

  /** The event is one of the packet's requests that the simulation accepted. */
  predicate IsAccepted(env: Catalogue, requests: seq<StackRequest>, outcomes: seq<Outcome>,
                       responses: seq<Response>, e: Event)
    requires e.Request? && |responses| <= |requests| && |responses| <= |outcomes|
  {
    exists k :: 0 <= k < |responses| && responses[k].ok && Asks(env, requests[k], outcomes[k])
                && outcomes[k].after == Some(e.after) && requests[k].actions == e.actions
  }

  predicate AllAccepted(env: Catalogue, requests: seq<StackRequest>, outcomes: seq<Outcome>,
                        responses: seq<Response>, events: seq<Event>)
    requires |responses| <= |requests| && |responses| <= |outcomes|
  {
    forall e :: e in events && e.Request? ==> IsAccepted(env, requests, outcomes, responses, e)
  }

  lemma AcceptedStays(env: Catalogue, requests: seq<StackRequest>, outcomes: seq<Outcome>,
                      responses: seq<Response>, n: nat, events: seq<Event>)
    requires n <= |responses| && |responses| <= |requests| && |responses| <= |outcomes|
    requires AllAccepted(env, requests, outcomes, responses[..n], events)
    ensures AllAccepted(env, requests, outcomes, responses, events)
  {
    forall e | e in events && e.Request? ensures IsAccepted(env, requests, outcomes, responses, e) {
      assert IsAccepted(env, requests, outcomes, responses[..n], e);
    }
  }

  /** The two events of the last request, when the simulation accepted it. */
  lemma AnswerIsARun(env: Catalogue, requests: seq<StackRequest>, outcomes: seq<Outcome>, responses: seq<Response>,
                     n: nat, before: Ledger, after: Ledger)
    returns (both: seq<Event>)
    requires n < |responses| && |responses| <= |requests| && |responses| <= |outcomes|
    requires Answers(env, requests[n], outcomes[n], responses[n], before, after)
    requires responses[n].ok && Asks(env, requests[n], outcomes[n])
    ensures after == Run(before, both) && AllAccepted(env, requests, outcomes, responses, both)
  {
    var p := outcomes[n].after.value;
    var sightings := AnsweringIsARun(before, p, requests[n].actions);
    both := [Request(p, requests[n].actions), Refreshed(sightings)];
  }

  /** The ledger a packet leaves is a run of the ledger it found: two events for each request
      that the simulation accepted, none for any other. */
  lemma {:induction false} PacketIsARun(env: Catalogue, requests: seq<StackRequest>, outcomes: seq<Outcome>,
                                        responses: seq<Response>, ledgers: seq<Ledger>)
    returns (events: seq<Event>)
    requires AnswersAll(env, requests, outcomes, responses, ledgers)
    ensures ledgers[|responses|] == Run(ledgers[0], events)
    ensures AllAccepted(env, requests, outcomes, responses, events)
    ensures (forall k :: 0 <= k < |responses| ==> !responses[k].ok || !Asks(env, requests[k], outcomes[k]))
              ==> events == []
  {
    events := [];
    if responses != [] {
      var n := |responses| - 1;
      var before := PacketIsARun(env, requests, outcomes, responses[..n], ledgers[..n + 1]);
      AcceptedStays(env, requests, outcomes, responses, n, before);
      assert Answers(env, requests[n], outcomes[n], responses[n], ledgers[n], ledgers[n + 1]);
      events := before;
      if responses[n].ok && Asks(env, requests[n], outcomes[n]) {
        var both := AnswerIsARun(env, requests, outcomes, responses, n, ledgers[n], ledgers[n + 1]);
        RunAppend(ledgers[0], before, both);
        events := before + both;
      }
    }
  }

  predicate CraftingContainer(c: Container) {
    c.CraftingInput? || c.CraftingOutputPreview? || c.CreatedOutput?
  }

  predicate TouchesCrafting(responses: seq<Response>) {
    exists k, i :: 0 <= k < |responses| && 0 <= i < |responses[k].groups|
                   && CraftingContainer(responses[k].groups[i].container)
  }

  lemma GroupOfEntry(groups: seq<Group>, entries: seq<Entry>, k: nat)
    returns (i: nat)
    requires GroupsExactly(groups, entries) && k < |entries|
    ensures i < |groups| && groups[i].container == entries[k].at.container
  {
    FirstSeenExactly(entries);
    assert KeyOf(entries[k]) in FirstSeen(entries);
    i :| 0 <= i < |FirstSeen(entries)| && FirstSeen(entries)[i] == KeyOf(entries[k]);
  }

  lemma EntryOfGroup(groups: seq<Group>, entries: seq<Entry>, i: nat)
    returns (k: nat)
    requires GroupsExactly(groups, entries) && i < |groups|
    ensures k < |entries| && groups[i].container == entries[k].at.container
  {
    FirstSeenExactly(entries);
    assert FirstSeen(entries)[i] in FirstSeen(entries);
    var e :| e in entries && KeyOf(e) == FirstSeen(entries)[i];
    k :| 0 <= k < |entries| && entries[k] == e;
  }

  /** The groups of a response name a crafting container exactly when a reported slot does. */
  lemma CraftingIsTouchedExactly(l: Ledger, p: Player, refs: seq<SlotRef>, groups: seq<Group>)
    requires AllResolve(p, refs) && GroupsExactly(groups, Entries(l, p, refs))
    ensures (exists i :: 0 <= i < |groups| && CraftingContainer(groups[i].container)) <==>
            exists k :: 0 <= k < |refs| && refs[k].container in {CraftingInput, CraftingOutputPreview, CreatedOutput}
  {
    if i :| 0 <= i < |groups| && CraftingContainer(groups[i].container) {
      var k := EntryOfGroup(groups, Entries(l, p, refs), i);
      EntryAt(l, p, refs, k);
    }
    if k :| 0 <= k < |refs| && refs[k].container in {CraftingInput, CraftingOutputPreview, CreatedOutput} {
      EntryAt(l, p, refs, k);
      var i := GroupOfEntry(groups, Entries(l, p, refs), k);
    }
  }

  method AnswerRequest(session: Session, env: Catalogue, request: StackRequest, o: Outcome)
    returns (response: Response)
    requires session.Valid()
    modifies session.Repr()
    ensures session.Valid()
    ensures Answers(env, request, o, response, old(session.ledger), session.ledger)
  {
    response := Response(false, request.requestId, []);
    var actions, valid := CanonicalInventoryActions(o.before, env, request.actions);
    if !valid {
      return;
    }
    if actions == [] {
      response := response.(ok := true);
      return;
    }
    if !o.posted {
      return;
    }
    if !o.accepted {
      return;
    }
    if o.after.None? {
      return;
    }
    if !o.hasSession {
      return;
    }
    session.ApplyStackNetworkIdChanges(o.after.value, request.actions);
    var groups := session.StackResponseContainerInfo(o.after.value, request.actions);
    response := Response(true, request.requestId, groups);
  }

  /** One response per request, in order, under the request's own id. `ledgers` records the
      ledger after each answer: an error leaves it as it was. Crafting slots are sent again
      at the end when a response touched them. */
  method HandleStackRequests(session: Session, env: Catalogue, requests: seq<StackRequest>,
                             outcomes: seq<Outcome>, last: Option<Player>)
    returns (responses: seq<Response>, crafting: seq<SlotPacket>, ghost ledgers: seq<Ledger>)
    requires session.Valid() && |outcomes| == |requests|
    modifies session.Repr()
    ensures session.Valid()
    ensures |responses| == |requests|
    ensures AnswersAll(env, requests, outcomes, responses, ledgers)
    ensures ledgers[0] == old(session.ledger)
    ensures if TouchesCrafting(responses) && last.Some?
            then session.ledger == RefreshAll(ledgers[|requests|],
                   UpdateSightings(last.value, CraftingSlotUpdates(last.value)))
                 && PacketsFor(last.value, session.ledger, CraftingSlotUpdates(last.value), crafting)
            else session.ledger == ledgers[|requests|] && crafting == []
  {
    responses, crafting, ledgers := [], [], [session.ledger];
    var craftingTouched := false;
    for i := 0 to |requests|
      invariant session.Valid()
      invariant |responses| == i
      invariant AnswersAll(env, requests, outcomes, responses, ledgers)
      invariant ledgers[0] == old(session.ledger) && ledgers[i] == session.ledger
      invariant craftingTouched <==> TouchesCrafting(responses)
    {
      var response := AnswerRequest(session, env, requests[i], outcomes[i]);
      var touched := exists j :: 0 <= j < |response.groups| && CraftingContainer(response.groups[j].container);
      TouchesCraftingStep(responses, response);
      AnswersAllStep(env, requests, outcomes, responses, ledgers, response, session.ledger);
      craftingTouched := craftingTouched || touched;
      responses := responses + [response];
      ledgers := ledgers + [session.ledger];
    }
    if craftingTouched && last.Some? {
      crafting := session.PersonalCraftingSlotPackets(last.value);
    }
  }

  lemma TouchesCraftingStep(responses: seq<Response>, r: Response)
    ensures TouchesCrafting(responses + [r]) <==>
            TouchesCrafting(responses)
            || exists j :: 0 <= j < |r.groups| && CraftingContainer(r.groups[j].container)
  {
    var all := responses + [r];
    if k, i :| 0 <= k < |responses| && 0 <= i < |responses[k].groups|
               && CraftingContainer(responses[k].groups[i].container) {
      assert all[k] == responses[k];
    }
    if j :| 0 <= j < |r.groups| && CraftingContainer(r.groups[j].container) {
      assert all[|responses|] == r;
    }
  }
}
