# The Bedrock adapter's ledgers and translations

GoCraft's Bedrock adapter keeps several server-side records in step with a remote
client, and turns several tables and trees into the forms that client expects. This
project models those parts in Dafny and proves what they keep over every run, and
that what they produce means the same as what they started from.

- **Stack network ids** (`PlayerSlots`, `StackLedger`, `StackIds`, `StackClaims`, `StackLedgerRuns`,
  `StackReports`, `StackSession`, `StackRequests`): one id per canonical slot in five storages,
  updated in place by the class `Session`; every method is proved against the value `Ledger`,
  and the theorems are about all runs of that value. `RunSoundExactly`, `IdsStayDistinct`,
  `ResponseAgrees`, `NeverSilentExactly`, `CanonicalInventoryActions` and `HandleStackRequests` are
  the main results; `StackIds` says of every action which id ends up in which slot.
- **Chunk streaming** (`Position`, `ChunkStream`): the ring-ordered square, the window
  difference and the cursor that follows a player. The client is the set of columns it holds;
  it drops what lies outside a published window and forgets all at a change of dimension. Packets
  from elsewhere may reach it between updates. Main results: `InStepExactly`,
  `ClientHoldsTheWindow`, `FailedUpdateIsPrefix`.
- **Joining and leaving** (`Lifecycle`, `Leaving`): connection goroutines, the lifecycle queue and
  the tick as interleaved steps. Main results: `JoinIsMatchedByOneDisconnect`, `EveryoneLeaves`,
  `RosterLiveExactlyForDistinctPlayers`, `RejectedPostsNothing`, `OwnOrTimedOutExactly`.
- **Command tree** (`Text`, `Commands`, `CommandPaths`): the capped pre-order walk together with the
  append-only interning tables. Main results: `RenderCommands`, `RendersExactlyIff`,
  `ListsRunnableExactly`, `SignaturesArePreOrder`.
- **Recipes** (`Odometer`, `RecipeVariants`, `RecipeCatalogue`, `RecipeListing`): the odometer over
  groups of alternatives, dense network ids, packets, and the stonecutter lookup. Main results:
  `SweepIsComplete`, `ExpansionIsUnique`, `VariantsAreThePicks`, `CraftingCatalogue`,
  `CatalogueListsExactly`, `CraftingData`.
- **Status effects** (`StatusEffects`): a difference protocol against a client that counts
  down by itself, also while the player is missing, and that other server code sends effects,
  too. Main results: `AlwaysShownExactly`, `NeverMissingExactly`.
- **Creative table** (`Creative`): a fold over a map in arbitrary order. Main results:
  `ReverseIsUnique`, `IdentityLeadsBack`.
- **Fireworks** (`Firework`): a lossy codec. Main results: `IdentityExactlyOnSimple`,
  `DecodedIsStable`.
- **Smaller parts**: legacy drops (`NormalDrops`), block cracking (`BlockBreaking`), and the
  sub-chunk height map (`HeightMap`). `Sublists` and `Options` are shared helpers.

Choices that matter when reading the contracts:

- The inventory is given as it is after the whole request, because the code reads only that.
- The canonical slot constants are those of `core/intent/intent.go:233-243` and
  `core/player/item.go:19-28`. The workstation slot table, the generated item tables, the
  effect numbers, the creative catalogue and the stack limits are arbitrary maps.
- The stack id counter is a signed 32-bit counter that wraps to 1. `issued` counts the ids
  handed out; it is an observation, and distinctness holds while `issued < 2^31 - 1`.
- Sending is returning (or recording) a list of packets. In `ChunkStream` a write may fail
  after any number of packets; elsewhere the code ignores write errors.
- What the simulation answers to a request (queued or not, accepted in time or not, player and
  session present or not) is an input, `Outcome`. Timeouts in `Lifecycle` may strike at any time.
- An open screen has at most 54 slots, the size of a double chest (`java/handler/chest.go:15-16`,
  `server/bedrock_container.go:22-31`), so every slot a client can name has a stored id.
- Positions are reals, and block coordinates must fit 32 bits as Go's conversion needs.
- `EffectiveFireworks` turns an unknown shape into shape 0 (`core/player/item.go:137-139`),
  so an encoded firework never carries a shape above 4; decoding clamps to 4.
- The final truncation of a command's overloads (`bedrock/commands.go:93-95`) never applies,
  because the walk does not exceed the cap; the model has no such branch.

Properties that do not hold without a condition, with a failing input and the exact condition:

- Ids stay distinct and below the counter throughout a run if and only if every client-supplied
  id that is taken over is harmless at its turn: issued before, held by no third slot, and not
  kept by both slots of the action (`ActionSoundExactly`, `RunSoundExactly`). An id another slot
  holds is duplicated at once (`ClientIdCanDuplicate`, `SwapCanDuplicate`), one that is not yet
  issued when its turn comes (`FutureIdCollides`, `FutureClaimBreaksLater`).
- A request never changes an id without reporting it if and only if every slot its creative takes
  move out of is reported for another reason (`NeverSilentExactly`, `CreativeTakeIsSilent`).
- The roster lists only online players in every run if and only if no two connections share a
  player (`RosterLiveExactlyForDistinctPlayers`, `SharedPlayerIsRemoved`). That everyone leaves
  in the end holds for all connections.
- A playing session's player goes offline, in every run, only by its own disconnect or by that of a
  login that timed out if and only if no three connections share a player (`OwnOrTimedOutExactly`).
  With three, a timed-out login lets another connection in beside the session, and that one's
  ordinary disconnect takes the player away (`AnotherLeavesFirst`). A login that was told it is
  rejected never does (`RejectedPostsNothing`, `OnlyAcceptedOrTimedOutTakeOffline`), and without
  timeouts a playing session's player is online however many connections share it
  (`PlayingIsOnline`).
- The packet for a crafting result names the slot it shows if and only if no open workstation has
  taken over that name (`CraftingPacketsNameTheirSlots`).
- The client shows an effect rightly (or with the exact time) after every sync of a run if and only
  if each sync renews or removes the effect, or the effect packets pushed since the last sync agree
  with it, or without such a push the client has not counted below (or, for the exact time, past or
  short of) the time left (`AlwaysShownExactly`). The time counts on while the player is missing,
  when nothing is synced (`MissingSyncLosesTime`). While the player is never missing, only pushes
  spoil what is shown, and besides them only an effect that silently loses more than one tick spoils
  the exact time (`NeverMissingExactly`, `ShortenedEffectStays`). A push that announces an effect
  the player's list took over is always repaired when the effect is not removed and does not run out
  in between (`TakenOverIsRepaired`, `ReaddedPushStays`); a pufferfish's sting is not
  (`PushWithoutEffectStays`, `WeakerPushStays`).
- Every emitted enum has the interning key of the node it was made from. All parameters of a packet
  mean exactly what their nodes meant if and only if every enum on an emitted path agrees with the
  first one the walk asked for under its key (`RendersExactlyIff`, `NulTreeResolvesWrongly`), which
  names and options without NULs guarantee (`NulFreeTreeTellsApart`).
- An ingredient is offered its own alternatives if and only if no two different lists of
  alternatives share a key, which names without NULs guarantee (`OffersOwnExactly`,
  `NulFreeKeysTellApart`, `NulAlternativesCollide`).
- Only the block being broken shows cracks throughout a run if and only if no action turns away
  from another block without stopping it (`AlwaysTidyExactly`, `StartingElsewhereLeavesCracks`).
- Entity ids come back from runtime ids if and only if they are not zero (`RuntimeIdsRoundTrip`).
- After any run of updates, whatever else was sent to the client in between, it has exactly the
  window around the stored centre if and only if it is in the stored dimension and the other packets
  agree with the stream about every column (`InStepExactly`). Columns alone never cost it a column
  of the window, and it has exactly the window if and only if those that strayed in since the cursor
  last moved lie inside (`ClientHoldsTheWindow`, `StrayBreaksStep`). An update that runs ahead of the
  client's own change of dimension, whose dimension is stored before the packet is written, is lost
  on it (`UpdateAheadOfChangeIsLost`) until the square that belongs to that change has arrived
  (`ChangeOfDimensionStartsInStep`).

## Model

| member | source | states |
|---|---|---|
| StackLedger.EverySlotIsStored | bedrock/listener.go:2062-2079 | every canonical slot a client can name, under any screen, is one of the slots that have a cell |
| PlayerSlots.OwnSlotsNameableExactly | bedrock/listener.go:1855-1963 | which slots of the player's own inventory have a client name under the open screen: armour, storage and off-hand always, the crafting cells exactly away from a crafting table, the output exactly when a name for it is left |
| PlayerSlots.NamesShowTheirStacks | bedrock/listener.go:1855-2048 | a client slot name resolves exactly when the player has the stack it means, and the canonical slot it resolves to holds that stack |
| PlayerSlots.NameLeadsBack | bedrock/listener.go:1855-1963 | the server's own name for a slot of the inventory resolves to it again, for crafting cells exactly away from a crafting table |
| StackLedger.MintKeeps | bedrock/listener.go:2050-2060 | an allocation returns a positive 32-bit id, never touches a stored id, counts up by one, and keeps the ledger sound until the counter has wrapped |
| StackIds.SwapExchangesIds | bedrock/listener.go:2133-2148 | after a swap of two different slots each holds the id the other had, stored or claimed; no other slot's id and no counter changes |
| StackIds.SwapTwiceRestores | bedrock/listener.go:2133-2148 | swapping two stored ids twice puts every id back |
| StackIds.WholeStackCarriesItsId | bedrock/listener.go:2171-2207 | a whole stack taken or placed into a slot without an id carries its id along and leaves none behind |
| StackIds.SplitMintsForTheNewPart | bedrock/listener.go:2171-2207 | the remainder of a split keeps its id, and the part split off gets the next one |
| StackIds.MergeKeepsTheDestination | bedrock/listener.go:2171-2207 | a merge keeps the destination's id, and the source's unless it is used up |
| StackIds.MoveSettlesBoth | bedrock/listener.go:2190-2206 | in every other case of a take or place an emptied slot ends without an id, and an occupied one without an id gets the next |
| StackIds.EmptiedSlotsLoseTheirIds | bedrock/listener.go:2150-2166 | dropping, destroying or consuming clears the id of the named slot exactly when it is left empty, and no other |
| StackIds.CreativeIdGoesToTheCursor | bedrock/listener.go:2121-2122 | a creative craft puts the next id on the cursor and nowhere else |
| StackIds.OtherActionsMoveNoId | bedrock/listener.go:2119-2176 | every other kind of action, and every action naming a slot that does not resolve, leaves all ids alone |
| StackIds.RefreshIds | bedrock/sync.go:952-968 | a refresh clears an empty slot, gives a replaced or id-less stack the next id, and changes no other |
| StackIds.OpeningForgetsContainerIds | bedrock/sync.go:1409-1411 | opening a container clears the ids of the container slots and keeps all others |
| StackClaims.TransferSoundExactly | bedrock/listener.go:2171-2207 | a take or place between any two slots, one slot included, keeps ids distinct and below the counter if and only if the ids it takes over and keeps were issued before, are in no third slot, and do not meet in both slots |
| StackClaims.SwapSoundExactly | bedrock/listener.go:2133-2148 | the same for a swap, where both claimed ids stay |
| StackClaims.ActionSoundExactly | bedrock/listener.go:2119-2168 | every kind of accepted action keeps the ledger sound if and only if its claims are harmless, a condition on ledger, player and action before it |
| StackClaims.UnhintedIsHarmless | bedrock/listener.go:2180-2185 | an action that takes over no client id is harmless |
| StackClaims.ClientIdCanDuplicate | bedrock/listener.go:2180-2185 | a concrete take whose claimed id is already stored elsewhere leaves one id in two slots |
| StackClaims.SwapCanDuplicate | bedrock/listener.go:2139-2146 | so does a concrete swap |
| StackClaims.FutureIdCollides | bedrock/listener.go:2050-2060 | a stored id that is not yet issued ends up in a second slot as soon as it is, with no further claim |
| StackClaims.FutureClaimBreaksLater | bedrock/listener.go:2119-2207 | a concrete claim of the next id leaves all ids distinct, and the next creative craft duplicates it |
| StackLedgerRuns.RefreshAllKeeps | bedrock/sync.go:952-968 | any pass that clears empty slots and gives occupied or replaced ones fresh ids keeps ids distinct |
| StackLedgerRuns.ForgetContainerKeeps | bedrock/sync.go:1409-1411 | clearing all container ids keeps the remaining ids distinct |
| StackLedgerRuns.RunSoundExactly | bedrock/listener.go:2111-2322 | until the counter wraps, the ledger is sound at every point of a run of requests, refresh passes and container openings if and only if every claim is harmless at its turn |
| StackLedgerRuns.UnhintedRunIsHarmless | bedrock/listener.go:2111-2322 | a run that takes over no client id is harmless throughout |
| StackLedgerRuns.IdsStayDistinct | bedrock/listener.go:2050-2322 | from a fresh session, until the counter wraps and with every claim harmless, any two slots of the five storages hold different ids, all below the next one to be handed out |
| StackLedgerRuns.RunNonNegative | bedrock/listener.go:2050-2322 | no run, hinted or wrapped, ever stores a negative id |
| StackLedgerRuns.ResponseAgrees | bedrock/listener.go:2290-2320 | after any run and one more accepted request, hinted or not, a reported id is positive exactly for an occupied slot, is the stored id, and is the same for aliases of one slot; count and durability are those of the slot's stack |
| StackLedgerRuns.AnsweringIsARun | bedrock/listener.go:1271-1277 | applying an accepted request and reporting it is a run of the events the theorems quantify over |
| StackReports.ChangedSlotsExactly | bedrock/listener.go:2222-2284 | the reported slots are exactly the named slots that resolve, each once |
| StackReports.ReportedExactly | bedrock/listener.go:2222-2284 | a canonical slot is reported exactly when an action of the request concerns it: names it, takes a crafting result from its grid, or puts a creative item on it |
| StackReports.FirstSeenInOrder | bedrock/listener.go:2306-2319 | of two containers in a response the one with the earlier first entry stands first |
| StackReports.SelectExactly | bedrock/listener.go:2306-2319 | a container's group holds exactly the entries of that container, in order |
| StackReports.ReportsAgree | bedrock/listener.go:2296-2304 | a reported slot shows the inventory's count and durability, its id is positive exactly when it is occupied and is the stored one; settling one slot never disturbs another report, aliases included |
| StackReports.NoSilentChange | bedrock/listener.go:2111-2322 | a slot whose id differs after an accepted request and that is not reported is one a creative take moved out of |
| StackReports.NeverSilentExactly | bedrock/listener.go:2244-2254 | for a request and the inventory it leaves, no ledger changes silently if and only if every slot its creative takes move out of is reported all the same |
| StackReports.CreativeTakeIsSilent | bedrock/listener.go:2249-2252 | a concrete request that does change an id silently: a creative take while the own crafting output is occupied |
| StackSession.Session.constructor | bedrock/listener.go:474-487 | a new session stores no id and will hand out 1 first |
| StackSession.Session.AllocateStackNetworkId | bedrock/listener.go:2050-2060 | returns the counter and advances it with the 32-bit wrap back to 1 |
| StackSession.Session.StackNetworkIdAt | bedrock/listener.go:2062-2079 | reads the one cell of the five storages that belongs to a slot, zero for slots without one |
| StackSession.Session.SetStackNetworkId | bedrock/listener.go:2081-2102 | writes exactly that cell and nothing else |
| StackSession.Session.TransferStackNetworkId | bedrock/listener.go:2171-2207 | the in-place transfer has the effect the ledger theorems are about |
| StackSession.Session.SwapStackNetworkIds | bedrock/listener.go:2133-2148 | the in-place swap has the effect the ledger theorems are about |
| StackSession.Session.ClearEmptied | bedrock/listener.go:2150-2166 | a dropped, destroyed or consumed stack loses its id exactly when its slot is empty afterwards |
| StackSession.Session.ApplyStackNetworkIdChanges | bedrock/listener.go:2111-2169 | all actions of a request are applied in order |
| StackSession.Session.CollectChangedSlots | bedrock/listener.go:2222-2284 | collects the changed slots through a seen-set, each once and only when it resolves |
| StackSession.Session.StackResponseContainerInfo | bedrock/listener.go:2209-2322 | settles and reports every changed slot, one group per container, first seen first, holding all its entries in order |
| StackSession.Session.PersonalCraftingSlotPackets | bedrock/listener.go:1558-1587 | one packet per crafting slot showing the simulation's stack under the stored id, nonzero exactly when occupied |
| StackSession.Session.SendNormalDropSlots | bedrock/listener.go:1503-1543 | one packet per different storage slot, in its container, with the stored id, positive exactly when occupied |
| StackSession.CraftingPacketsNameTheirSlots | bedrock/listener.go:1596-1621 | the crafting packets cover the open grid and its result once each, and each names the slot it shows, the result's exactly when no workstation has taken over its name |
| StackSession.StoragePacketsNameTheirSlots | bedrock/listener.go:1503-1543 | the packet of each of the 36 storage slots names the canonical slot it shows |
| StackSession.Session.OpenContainer | bedrock/sync.go:1409-1411 | forgets the ids of the container storage and of nothing else |
| StackReports.FirstSeenExactly | bedrock/listener.go:2306-2319 | the containers listed in the order of their first entry are exactly those that occur, each once |
| StackSession.AddEntry | bedrock/listener.go:2306-2319 | an entry joins its container's group or opens the next one; the grouping stays exact |
| StackRequests.MeaningsAreWellFormed | bedrock/listener.go:1623-1831 | whatever the client sends, every canonical action has resolved slots and positive counts, and a swap two different slots |
| StackRequests.MeaningIsWellFormed | bedrock/listener.go:1644-1827 | whatever a single accepted client action means, its slots resolve, its counts and repetitions are positive, and a swap names two different slots |
| StackRequests.ValidExactly | bedrock/listener.go:1623-1831 | a request is valid if and only if some action is recognised and every action that has an effect asks for something well-formed: slots that resolve, a positive count, two different slots for a swap, an item that exists |
| StackRequests.NothingUnasked | bedrock/listener.go:1644-1827 | a canonical action of any kind appears only in a request with a client action of that kind: without a destroy action nothing is destroyed |
| StackRequests.CanonicalInventoryActions | bedrock/listener.go:1623-1831 | a request is valid exactly when it is acceptable; its translation is then traced action by action: one canonical action for every client action with an effect, in order, of the matching kind with that action's resolved slots and count, and nothing else |
| StackRequests.AnswerRequest | bedrock/listener.go:1132-1301 | success exactly when the translation is valid and empty, or valid and accepted with player and session present; otherwise the ledger is unchanged and nothing is reported |
| StackRequests.AnsweredExactly | bedrock/listener.go:1132-1301 | a request succeeds exactly when it is acceptable and, if it asks for anything, was queued and accepted with player and session present; otherwise no id changes and nothing is reported |
| StackRequests.PacketIsARun | bedrock/listener.go:1132-1301 | a packet changes the ledger by two events for each request the simulation accepted and by none for any other |
| StackRequests.HandleStackRequests | bedrock/listener.go:1118-1327 | one response per request, in order, under its own id, each from the ledger the previous one left; afterwards one packet per crafting slot shows stack and stored id, exactly when a response touched them |
| StackRequests.CraftingIsTouchedExactly | bedrock/listener.go:1278-1285 | a response touches the crafting slots exactly when it reports a slot named by one of the three crafting containers |
| NormalDrops.OrderDoesNotMatter | bedrock/listener.go:1441-1461 | the two actions of a drop may come in either order, and at most one reading of them is balanced |
| NormalDrops.AcceptedDropsConserve | bedrock/listener.go:1396-1491 | an accepted transaction drops between one and all of what each slot holds, from different slots, and in the two-action form old count equals dropped plus remaining of one item |
| NormalDrops.TwoActionsExactly | bedrock/listener.go:1438-1491 | two actions are accepted exactly when, one way round, they make some number of items leave a storage slot; that many are dropped from it, and it alone is reported |
| NormalDrops.LegacyExactly | bedrock/listener.go:1401-1436 | without actions a transaction is accepted exactly when its one or two lists name occupied storage slots; every slot named is reported once, in the order of first mention, and loses its whole stack |
| NormalDrops.NothingElseIsAccepted | bedrock/listener.go:1397-1440 | without a player, and with any other number of actions, nothing is accepted |
| NormalDrops.CheckBalance | bedrock/listener.go:1462-1490 | accepts exactly balanced pairs of an inventory and a world action |
| NormalDrops.LegacyDropActions | bedrock/listener.go:1401-1436 | accepts exactly well-shaped requests naming occupied slots, dropping each whole stack once |
| NormalDrops.CanonicalNormalDropActions | bedrock/listener.go:1396-1491 | every transaction is translated as specified, in all error cases too |
| Position.ChunkCoordinateIsFloorDivision | bedrock/position.go:60-62 | the chunk coordinate is floor division by 16, negative positions included, and its column contains the position |
| Position.RuntimeIdsRoundTrip | bedrock/position.go:22-31 | runtime ids and entity ids invert each other except for entity 0, which collides with the player's own id |
| ChunkStream.SendRow | bedrock/listener.go:755-759 | a row of a ring emits the wanted columns of that row once, after all nearer rings |
| ChunkStream.SendChunkSquare | bedrock/listener.go:750-788 | emits every column of the square exactly once, minus only a skipped centre, in loop order and so nearest rings first; a failing write leaves the beginning of it |
| ChunkStream.SendEnteredChunks | bedrock/listener.go:797-824 | emits exactly the columns of the new window outside the old one, each once, row by row; a failing write leaves the beginning of it |
| ChunkStream.LoopOrderIsNearestFirst | bedrock/listener.go:753-756 | the order of the three loops never steps back to a nearer ring and repeats no column |
| ChunkStream.SquareSize | bedrock/listener.go:750-788 | a complete square has (2r+1)^2 columns, one fewer without its centre |
| ChunkStream.EnteredSize | bedrock/listener.go:797-824 | a moved window sends its whole area less the overlap of the two windows |
| ChunkStream.Stream.UpdateChunkStream | bedrock/listener.go:826-846 | nothing is sent for an unchanged centre and dimension; otherwise the publisher and then every due column once, in order; a failed write leaves the cursor alone, after the beginning of that |
| ChunkStream.PublisherMatchesCenter | bedrock/position.go:49-58 | the published block window is the chunk window around the server's centre |
| ChunkStream.WindowIsPublishedFirst | bedrock/listener.go:826-846 | what an update sends, complete or cut short, starts with the window around the player's block, and every column after it lies inside that window and is of the new dimension |
| ChunkStream.FailedUpdateIsPrefix | bedrock/listener.go:826-846 | what a failed update sent is the beginning, packet for packet, of what a successful one sends |
| ChunkStream.UpdateRestores | bedrock/listener.go:826-846 | an update that moves the cursor leaves a client of its dimension with exactly the new window, whatever else it held, when it had all of the old one or the cursor changes dimension; it resends nothing to one in step or empty |
| ChunkStream.InStepExactly | bedrock/listener.go:826-846 | after every run of updates, with any columns, publishers and changes of dimension from elsewhere between them, the client has exactly the window around the stored centre in the stored dimension if and only if it was switched to that dimension and, column by column, the last thing that happened to it was an update's own doing or agrees with the window |
| ChunkStream.ClientHoldsTheWindow | bedrock/listener.go:797-846 | while only columns come from elsewhere, and changes of dimension before their update, the client has the whole window, and exactly the window if and only if every column that strayed in since the cursor last moved lies in it; then, until more come, it is never sent a column it holds |
| ChunkStream.StrayBreaksStep | bedrock/sync.go:1816-1823 | one column sent from elsewhere just beside the window of a cursor that stays leaves the client out of step |
| ChunkStream.UpdateAheadOfChangeIsLost | bedrock/sync.go:1795-1804 | an update into a new dimension that precedes the client's own change leaves the client with nothing while the cursor counts the whole square as sent |
| ChunkStream.ChangeOfDimensionStartsInStep | bedrock/sync.go:1799-1823 | the change of dimension, its publisher and all columns of its square put any client in step with a cursor at that place |
| ChunkStream.LoginStartsInStep | bedrock/listener.go:629-645 | publisher and complete square put an empty client in step |
| Lifecycle.NextInOrder | core/intent/intent.go:446-461 | the queue hands a connection's intents to the simulation in the order they were posted, a join before its disconnect |
| Leaving.QueueFits | core/intent/intent.go:324-376 | the lifecycle queue never holds more than its capacity |
| Leaving.IntentsAreAnswered | server/server.go:1293-1401 | a join is accepted exactly when it is admitted and its player offline, and only its own player comes or goes |
| Lifecycle.ApplyWitnessed | server/server.go:1293-1401 | handling a join or a disconnect keeps every online player witnessed by a connection that was accepted and has not left |
| Lifecycle.StepKeepsOrder | bedrock/listener.go:412-492 | every step of every connection, of the queue and of the tick keeps postings, handling, results and presence in order, whoever the connections are |
| Lifecycle.StepKeeps | bedrock/listener.go:412-492 | and, when connections are distinct players, the roster and the presence of every accepted one |
| Lifecycle.RunKeeps | bedrock/listener.go:412-492 | the invariant holds in every interleaving when connections are distinct players |
| Lifecycle.JoinIsMatchedByOneDisconnect | bedrock/listener.go:412-466 | no connection queues more than a join and one later disconnect; a finished one whose join was queued and not rejected has queued exactly that, also when connections share a player |
| Leaving.RejectedPostsNothing | bedrock/listener.go:451-456 | a login that hears in time that it is rejected queues its join and nothing else, in every run |
| Leaving.OnlyAcceptedOrTimedOutTakeOffline | bedrock/listener.go:436-466 | in every run a player goes offline only by the disconnect of a connection of its own that was accepted or missed its result |
| Leaving.PlayingIsOnline | bedrock/listener.go:412-492 | while no connection of a player misses its result, a playing session's player is online and it is the only one playing, also when connections share the player |
| Leaving.AnotherLeavesFirst | bedrock/listener.go:436-466 | a concrete run of three connections in which an ordinary disconnect takes away the player of another, playing session |
| Leaving.OwnOrTimedOutExactly | bedrock/listener.go:412-492 | in every run a playing session's player goes offline only by its own disconnect or that of a login that timed out, if and only if no three connections share a player |
| Lifecycle.NobodyIsLeftBehind | bedrock/listener.go:436-448 | a player all of whose connections have finished with nothing left to handle is offline, timeouts and shared players included |
| Lifecycle.EveryoneLeaves | bedrock/listener.go:458-466 | when all connections have ended and the queue has drained, nobody is online, also when connections share a player |
| Lifecycle.RosterIsLive | bedrock/listener.go:489-492 | a session in the roster has an accepted join, no posted disconnect, and its player online |
| Lifecycle.SharedPlayerIsRemoved | bedrock/listener.go:436-448 | a duplicate login that times out removes the player of the session still playing |
| Lifecycle.RosterLiveExactlyForDistinctPlayers | bedrock/listener.go:412-492 | every rostered player is online in every run if and only if no two connections share a player |
| BlockBreaking.Session.HandlePlayerBlockAction | bedrock/listener.go:2357-2395 | keeps every update behind an unstopped start and announces exactly this: starting starts, continuing updates the current block or stops it and starts the new one, aborting and finishing stop; only finishing posts a break: of the block last started, or of the named one when none is being broken |
| BlockBreaking.ActionKeepsConsistent | bedrock/listener.go:2357-2395 | every action keeps each update behind an unstopped start of its block |
| BlockBreaking.CracksAreConsistent | bedrock/listener.go:2357-2395 | in every run each update follows a start of its block with no stop in between, and finishing while breaking stops and posts exactly the block last started |
| BlockBreaking.TidyExactlyWithoutAbandoning | bedrock/listener.go:2359-2380 | an action keeps cracks on the current block only if and only if it does not abandon another one |
| BlockBreaking.AlwaysTidyExactly | bedrock/listener.go:2357-2395 | and a run does throughout if and only if none of its actions abandons a block |
| BlockBreaking.StartingElsewhereLeavesCracks | bedrock/listener.go:2359-2361 | starting on a second block leaves the first one cracked |
| Text.LessIsTotal | bedrock/creative.go:112 | byte order on names is total and irreflexive |
| Text.LessIsTransitive | bedrock/creative.go:112 | byte order on names is transitive |
| Text.FirstDifferenceDecides | bedrock/creative.go:112 | of two names the one with the lower character at the first difference comes first, and a beginning before the whole |
| Text.SortedSorts | bedrock/commands.go:199-200 | sorting orders the options and loses or invents none |
| Text.OrderedIsUnique | bedrock/commands.go:199-200 | two ordered lists with the same options are equal, so the sorted form does not depend on the given order |
| Text.TerminatedIsInjective | bedrock/commands.go:201-205 | a NUL after each option lets the list be read back when no option contains a NUL |
| Text.SeparatedIsInjective | bedrock/recipes.go:183 | the same for a NUL between alternatives |
| Text.DecimalIsInjective | bedrock/recipes.go:221 | different variant numbers print differently |
| Commands.KeyIdentifiesEnum | bedrock/commands.go:167 | NUL-free enums share a key exactly when they have one name and the same options in some order |
| Commands.SameOptionsSameKey | bedrock/commands.go:198-206 | the key does not depend on the order of the options, NULs or not |
| Commands.NulOptionsCollide | bedrock/commands.go:198-206 | the two enums of that tree have one key and different options |
| Commands.CommandBuilder.Value | bedrock/commands.go:181-192 | the value is in the table at the returned index, the table only grows and never holds a value twice |
| Commands.CommandBuilder.Enum | bedrock/commands.go:165-179 | the enum at the returned index has the key asked for, tables only grow, no two stored enums share a key, and each is the first one asked for under its key |
| Commands.CommandBuilder.ParameterFor | bedrock/commands.go:119-163 | the parameter denotes its node in the tables after the call |
| Commands.CommandBuilder.Walk | bedrock/commands.go:99-117 | appends, to the overloads so far, exactly the first paths in pre-order until there are 32, asking for exactly the enums of the nodes met until then; earlier overloads keep their meaning |
| Commands.CommandBuilder.WalkNode | bedrock/commands.go:104-112 | one node contributes its own path when executable and then those below it, cut at 32 |
| Commands.CommandBuilder.Overloads | bedrock/commands.go:85-97 | the overloads denote exactly the first 32 of the uncapped pre-order signatures, the empty one first when the command runs by itself |
| Commands.CommandBuilder.Build | bedrock/commands.go:194-196 | the final tables hold no value twice and no enum twice, every value index is in bounds, and each enum is the first one asked for under its key |
| Commands.RenderCommands | bedrock/commands.go:43-70 | exactly the runnable top-level literals appear, in order, each with the first 32 of its signatures resolved through the final tables, whose enums are determined by the tree; no packet exactly when none is runnable |
| CommandPaths.SignaturesArePreOrder | bedrock/commands.go:85-117 | a command's signatures are the empty one exactly when it runs by itself, and one for every executable node below it, in pre-order, with the tokens of the nodes on the way |
| CommandPaths.SignedExactly | bedrock/commands.go:54-57 | a command has a signature exactly when it, or a node below it, is executable |
| CommandPaths.ListsRunnableExactly | bedrock/commands.go:43-70 | the packet lists exactly the top-level literals that are or lead to something executable, each once and in order under its own name; no packet is sent exactly when there is none |
| CommandPaths.TokensMean | bedrock/commands.go:119-163 | a literal is shown as an enum of itself, an argument that lists its options as an enum of those, and every other argument as the basic type of its kind |
| Commands.DenotesExactlyIff | bedrock/commands.go:165-179 | an emitted enum has the name and, up to reordering, the options of its node if and only if the node agrees with the first one of its key |
| Commands.EveryEnumExactly | bedrock/commands.go:165-179 | every enum asked for stands for itself if and only if no two of them share a key while they differ |
| Commands.RendersExactlyIff | bedrock/commands.go:43-206 | all parameters of a packet resolve in the final tables to exactly their nodes' names and options if and only if the tree's keys tell its enums apart |
| Commands.NulFreeTreeTellsApart | bedrock/commands.go:198-206 | keys tell apart the enums of every tree without NULs |
| Commands.NulTreeResolvesWrongly | bedrock/commands.go:165-179 | a concrete tree with two sibling arguments whose packet gives the second one the first one's options |
| Commands.SmallCommandsAreComplete | bedrock/commands.go:31 | a command with at most 32 signatures keeps them all, in order; a larger one keeps exactly 32 |
| Commands.TypeWordRoundTrip | bedrock/commands.go:127 | an enum index is read back from the bits below the flags of the type word if and only if it is below 2^20 |
| Commands.TypeWordsLeadBack | bedrock/commands.go:119-163 | the type word of every enum parameter of a packet leads back to the parameter's enum exactly when its index is below 2^20, so all do when there are at most 2^20 enums |
| Odometer.NextAddsOne | bedrock/recipes.go:226-237 | one advance adds one to the mixed-radix value, and fails exactly at the last selection |
| Odometer.LexLessIsValueLess | bedrock/recipes.go:226-237 | the value order is the lexicographic order of the selections |
| Odometer.SweepIsComplete | bedrock/recipes.go:195-238 | a full sweep visits every selection exactly once, in lexicographic order |
| Odometer.ValueBelowProduct | bedrock/recipes.go:195-238 | the value stays below the product of the group sizes, which is why the loop ends |
| Odometer.Advance | bedrock/recipes.go:227-237 | the in-place counter moves to the next selection, and reports the end exactly after the last one |
| RecipeVariants.GroupIngredients | bedrock/recipes.go:173-191 | ingredients share a group exactly when they offer a choice under one key; groups are numbered by, and offer the alternatives of, their first ingredient |
| RecipeVariants.OffersOwnExactly | bedrock/recipes.go:178-191 | every ingredient is offered its own alternatives if and only if no two different lists share a key |
| RecipeVariants.NulFreeKeysTellApart | bedrock/recipes.go:183 | names without NULs never let two different lists share a key |
| RecipeVariants.NulAlternativesCollide | bedrock/recipes.go:183 | two concrete lists that do share one |
| RecipeVariants.SameAlternativesSameChoice | bedrock/recipes.go:203-206 | ingredients with equal alternatives always get the same choice, one of their own when keys tell lists apart |
| RecipeVariants.BuildInputs | bedrock/recipes.go:196-216 | the inputs are built exactly when every chosen name resolves, one cell per ingredient |
| RecipeVariants.VariantIdsDiffer | bedrock/recipes.go:218-222 | different variant numbers of one recipe give different ids, whatever the recipe's name |
| RecipeVariants.VariantIdsAreDistinct | bedrock/recipes.go:217-224 | no two variants of a recipe share an id |
| RecipeVariants.VariantsAreResolvedSelections | bedrock/recipes.go:195-224 | something is a variant exactly when it is a resolvable selection under that selection's number |
| RecipeVariants.EveryResolvableChoiceAppears | bedrock/recipes.go:195-239 | every selection whose names all resolve gives a variant |
| RecipeVariants.VariantsAreThePicks | bedrock/recipes.go:163-240 | when keys tell lists apart, the inputs of the variants are exactly the ways to take one known alternative of every ingredient, equal lists alike, with an empty cell where there is none |
| RecipeVariants.JavaIngredientVariants | bedrock/recipes.go:163-240 | the loop ends and returns the recipe's expansion: the variants of all resolvable selections of its grouping, in counting order |
| RecipeVariants.GroupingIsUnique | bedrock/recipes.go:173-191 | the grouping contract leaves no freedom: numbers and groups are decided by the ingredients |
| RecipeVariants.ExpansionIsUnique | bedrock/recipes.go:163-240 | so a recipe has exactly one expansion |
| RecipeVariants.ExpansionHasDistinctIds | bedrock/recipes.go:217-224 | no two variants of an expansion share a recipe id |
| RecipeCatalogue.CraftingCatalogue | bedrock/recipes.go:28-98 | publishes the fitting variants of every publishable recipe with a usable output, in catalogue order; the network ids of both lists together are exactly 1 to N, each known to the lookup table under a recipe of its kind and result |
| RecipeListing.CatalogueListsExactly | bedrock/recipes.go:42-96 | every resolvable choice of ingredients of every shaped recipe that fills its grid, and of every shapeless, furnace and stonecutter recipe, has one entry, in catalogue order and under its own network id: shaped ones on the shaped list with their grid, the others on the shapeless list under the block of their station; nothing else is listed |
| RecipeCatalogue.CatalogueIsUnique | bedrock/recipes.go:28-98 | recipes and names determine both lists and the lookup table |
| RecipeCatalogue.HeldIdsAreDense | bedrock/recipes.go:40-96 | the lookup table knows exactly the ids on the lists |
| RecipeCatalogue.PublishVariants | bedrock/recipes.go:55-92 | each variant of a recipe that fits its grid takes the next network id, on the list of its kind |
| RecipeCatalogue.NetworkIdsAreDense | bedrock/recipes.go:40-96 | both lists are strictly increasing in network id, every entry was made from the emission its id names, and together they are as many as the emissions |
| RecipeCatalogue.EveryIdIsUsed | bedrock/recipes.go:40-96 | every id from 1 to N is on exactly one of the two lists |
| RecipeCatalogue.NetworkFindsRecipe | bedrock/recipes.go:90-96 | the lookup table knows exactly the ids 1 to N and leads from each to its source recipe |
| RecipeCatalogue.SlicesRejoin | bedrock/recipes.go:141-154 | consecutive slices rejoin to the list they were cut from |
| RecipeCatalogue.CraftingData | bedrock/recipes.go:132-156 | packets rejoin to both lists, the k-th from position 1024k on; they hold at most 1024 of each kind, and none is empty when any recipe exists; with none there is one empty packet |
| RecipeCatalogue.StonecutterSelection | bedrock/recipes.go:100-128 | the position, among the single-ingredient stonecutter recipes accepting the input, of the first with the looked-up name; none exactly when the id is unknown, not a stonecutter recipe, or not among them |
| RecipeCatalogue.CuttingExactly | bedrock/recipes.go:108-121 | the recipes it counts are exactly the catalogue's stonecutter recipes with one ingredient, which accepts the input, in catalogue order |
| StatusEffects.Viewer.SyncLocalStatusEffects | bedrock/status_effect_sync.go:8-44 | sends exactly the differences to the last sync and remembers the current effects; nothing happens while the player is missing |
| StatusEffects.SendUpserts | bedrock/status_effect_sync.go:18-33 | one packet per supported effect that is new, changed or lasts longer than a tick ago |
| StatusEffects.SendRemovals | bedrock/status_effect_sync.go:34-42 | one removal per supported effect that is gone |
| StatusEffects.ChangesExactly | bedrock/status_effect_sync.go:18-55 | a packet is sent exactly when it adds a supported effect that was missing, modifies one that was there and changed or lasts longer, or removes one that is gone |
| StatusEffects.UpsertsDo | bedrock/status_effect_sync.go:18-33 | on any client copy the upserts set exactly the effects they concern and leave all others alone |
| StatusEffects.RemovalsDo | bedrock/status_effect_sync.go:34-42 | on any client copy the removals clear exactly the effects that are gone |
| StatusEffects.SyncRepairsExactly | bedrock/status_effect_sync.go:8-55 | whatever the client shows, a sync leaves an effect number right, or exact, if and only if it renews the effect, removes it, or found it so already |
| StatusEffects.SyncKeepsOne | bedrock/status_effect_sync.go:8-55 | without a push, one tick and one sync keep an effect rightly shown, and its time exact if and only if it did not silently lose more than a tick |
| StatusEffects.AlwaysShownExactly | bedrock/status_effect_sync.go:8-55 | in every run of syncs, missing players and pushed effect packets, an effect is shown rightly, or exactly, after every sync if and only if each sync renews or removes it, or the pushes since the last sync agree with it, or the client has not counted down too far |
| StatusEffects.NeverMissingExactly | bedrock/sync.go:1745-1783 | while the player is never missing that comes down to the pushes being repaired by their sync and, for the exact time, to no other sync silently shortening the effect by more than a tick |
| StatusEffects.MissingSyncLosesTime | bedrock/status_effect_sync.go:9-12 | a concrete player who is missing for one sync and returns with the time saved before is shown less time than is left |
| StatusEffects.MirrorStaysInStep | bedrock/status_effect_sync.go:8-55 | after every sync of a run whose syncs all repair, the client shows exactly the supported effects with equal amplifier and flags and at least the remaining time |
| StatusEffects.TakenOverIsRepaired | core/player/status_effect_state.go:11-25 | when the list took an addition over since the last sync, one tick passed at most, and the effect was not removed and did not run out, the sync repairs whatever was pushed |
| StatusEffects.AdditionsKeepTheBest | core/player/status_effect_state.go:11-20 | of the effect held and those added the list keeps the best, by amplifier and then by time, and the earliest of equals |
| StatusEffects.ReaddedPushStays | core/player/status_effect_state.go:30-49 | a concrete effect removed and added again between two syncs is shown with the particles of the push |
| StatusEffects.PushWithoutEffectStays | server/server.go:2779-2797 | a push with no effect behind it is shown after every later sync, until the client drops it by itself |
| StatusEffects.WeakerPushStays | server/server.go:2779-2797 | a concrete weaker push over a stronger effect leaves the wrong amplifier and time |
| StatusEffects.ShortenedEffectStays | bedrock/status_effect_sync.go:46-55 | a concrete effect replaced by a shorter equal one between two syncs leaves too much time shown |
| StatusEffects.NaturalTickIsSilent | bedrock/status_effect_sync.go:46-55 | nothing is sent when every effect merely ran on for a tick |
| Creative.PreferenceIsStrictTotalOrder | bedrock/creative.go:101-113 | for a fixed Bedrock name the preference is irreflexive, total and transitive |
| Creative.ReverseTable | bedrock/creative.go:44-72 | whatever the order of the walk, each key holds the most preferred of the Java names mapping to it |
| Creative.WinnerExactly | bedrock/creative.go:101-113 | of the Java names mapping to a key a known one wins if there is any, among those the one equal to the Bedrock name, and otherwise the alphabetically first |
| Creative.ReverseIsUnique | bedrock/creative.go:44-72 | hence any two walks build the same table |
| Creative.IdentityLeadsBack | bedrock/creative.go:224-250 | an entry resolves to a Java item exactly when one maps to its Bedrock name; that item's own mapping leads back to the name, and to the metadata when any has both, it is the preferred one, and it is undamaged; without one the name stands for itself, undamaged if it wears out and with the metadata as damage otherwise |
| Creative.LightLevelsReadBack | bedrock/creative.go:225-233 | a light block stands for light of the level in its name, from 0 to 15 and no other; the plain one carries its level as metadata |
| Creative.SignedLightLevels | bedrock/creative.go:227-229 | a plus sign before the level changes nothing, and behind a minus sign only level 0 counts |
| Creative.IdentityIsDeterministic | bedrock/creative.go:44-72 | the resolved item does not depend on the order in which either table was built |
| Firework.NearestDye | bedrock/firework.go:80-91 | the dye at the least squared distance, the first on ties |
| Firework.NearestFireworkDye | bedrock/firework.go:80-91 | the scan over all dyes finds the nearest one |
| Firework.DyeIsNearestToItself | bedrock/firework.go:11-16 | every dye is its own nearest dye |
| Firework.EncodeColours | bedrock/firework.go:72-78 | one byte per colour below the count, in order |
| Firework.EncodeFirework | bedrock/firework.go:40-56 | the compound that the round trips below start from |
| Firework.ExplosionsOnTheWire | bedrock/firework.go:40-56 | each explosion in use is sent in its place, with shape, flags and the inverted index of the nearest dye of each of its colours, under the client's tags |
| Firework.DecodeColours | bedrock/firework.go:58-70 | skips entries that name no dye and keeps the first eight colours, the rest stays black |
| Firework.ColoursReadExactly | bedrock/firework.go:58-70 | the colours kept are those of the first eight entries whose low byte is below 16, each the dye of the inverted index |
| Firework.DecodeExplosion | bedrock/firework.go:29-34 | whatever entry was sent, the shape is the known one nearest to the number sent, the flags are those of nonzero numbers, and the colours only dyes with blank unused places, so the codec keeps the explosion unchanged |
| Firework.DecodeFirework | bedrock/firework.go:18-38 | nothing exactly without a fireworks compound; otherwise the flight is the byte nearest to the number sent, entries that are no compounds are skipped and the first seven kept, and the result passes through the codec unchanged |
| Firework.ExplosionsReadExactly | bedrock/firework.go:24-36 | the explosions kept are those of the first seven entries that are compounds, in order |
| Firework.Xor15IsExclusiveOr | bedrock/firework.go:63-75 | the arithmetic form used here is the bitwise one |
| Firework.ColoursRoundTrip | bedrock/firework.go:58-78 | decoding encoded colours gives each colour's nearest dye, in order |
| Firework.EncodeThenDecode | bedrock/firework.go:18-91 | decoding what was encoded gives the firework with nearest dyes, known shapes and nothing beyond its counts |
| Firework.IdentityExactlyOnSimple | bedrock/firework.go:18-91 | the codec is the identity if and only if colours are dyes, shapes are at most 4, and unused places are blank |
| Firework.DecodedIsStable | bedrock/firework.go:18-91 | whatever a client sends, the decoded firework passes through the codec unchanged |
| Firework.CodecIsIdempotent | bedrock/firework.go:18-91 | passing through twice is passing through once |
| HeightMap.SubChunkHeightMap | bedrock/chunk_heightmap.go:11-43 | type and data determine every column's class, the entry of column (x, z) stands at 16z + x and is its class, and the data is omitted exactly when all columns lie above, or all below |
| HeightMap.ExactlyOneSubChunkHoldsTheHeight | bedrock/chunk_heightmap.go:19-31 | over all sub-chunks exactly one reads a column within itself, locating the height; lower ones read above, higher ones below |

## Left out

- ChunkStream.Stream.UpdateChunkStream: a column that cannot be encoded ends the update like a failed write; the two errors are not told apart.
- The slot table of workstation screens (`bedrock/listener.go:1965-2048`) is an arbitrary map, so every statement holds for every table.
- Lifecycle.StepKeeps: server shutdown (the cancelled context in `bedrock/listener.go:448-449`) is not a step; a full queue blocks posting, as it does without shutdown.
- BlockBreaking.Session.HandlePlayerBlockAction: an announced crack is one handed to `broadcastBlockCrack`; its suppression for unbreakable or instantly broken blocks, hit sounds and the unrelated player actions are not modelled.
- Firework.EncodeFirework: `EffectiveFireworks` is modelled for rockets that carry fireworks, the only ones this function passes to it.
- ChunkStream.InStepExactly: packets from elsewhere arrive between updates, not amid the packets of one; a column arriving amid an update's own columns has the effect of one arriving after them.
- The stonecutter selection that is written to the player while a request is still being translated (`bedrock/listener.go:1779-1783`); a later rejection does not undo it.
- The item payload of a creative give (fireworks, components, damage) beyond item and count.
- Truncation of network ids and value indices to 32 bits and of container slots to 16 bits; the tables are far smaller.
- RakNet, packet writing, NBT and gzip decoding, logging, the resource pack server and embedded assets: sends are lists of packets.
- The contents of the generated tables, block and item registries, and the finite lookup tables for effects, enchantments, potions, stews and beds.
- Command descriptions and permission levels, recipe priorities, symmetry and unlock fields, cooking times, effect tick numbers and entity ids of packets: constants copied through.
- Floating point: break durations, crack speeds and eye height; positions are exact reals, and conversions that overflow 32 bits are excluded by `InRange`.
- How a chunk finds its highest block, and how the player's effect list is maintained beyond what taking an effect over means: both are inputs.
- Mutexes: each locked region is one atomic step.
