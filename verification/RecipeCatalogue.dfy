/**
 Publishing recipes (bedrock/recipes.go): dense network ids over two lists,
 splitting the lists into packets, and resolving a stonecutter choice.
 */
module RecipeCatalogue {
  import opened Options
  import opened RecipeVariants
  import opened Sublists
  import opened Odometer

  datatype ShapedRecipe = ShapedRecipe(recipeId: string, width: int, height: int, inputs: seq<Input>,
                                       output: string, networkId: nat)

  datatype ShapelessRecipe = ShapelessRecipe(recipeId: string, inputs: seq<Input>, output: string,
                                             block: string, networkId: nat)

  /** A variant that is published, with the recipe it comes from. */
  datatype Emission = Emission(recipe: Recipe, variant: Variant)

  function Int32(n: int): int {
    (n + 0x8000_0000) % 0x1_0000_0000 - 0x8000_0000
  }

  predicate Published(kind: Kind) {
    kind != OtherKind
  }

  /** A shaped variant is published only when its inputs fill the grid. */
  predicate FitsGrid(recipe: Recipe, variant: Variant) {
    recipe.kind == ShapedKind ==>
      recipe.width > 0 && recipe.height > 0 && Int32(recipe.width * recipe.height) == |variant.inputs|
  }

  function BlockOf(recipe: Recipe): string {
    match recipe.kind
    case FurnaceKind => TrimPrefix(recipe.station, MINECRAFT)
    case StonecutterKind => "stonecutter"
    case _ => "crafting_table"
  }

  function Emitted(recipe: Recipe, variants: seq<Variant>): seq<Emission> {
    if variants == [] then []
    else
      var last := variants[|variants| - 1];
      Emitted(recipe, variants[..|variants| - 1]) +
      if FitsGrid(recipe, last) then [Emission(recipe, last)] else []
  }

  /** The published variants of all recipes, in catalogue order. */
  function AllEmitted(recipes: seq<Recipe>, expansions: seq<seq<Variant>>): seq<Emission>
    requires |expansions| == |recipes|
  {
    if recipes == [] then []
    else
      var n := |recipes| - 1;
      AllEmitted(recipes[..n], expansions[..n]) +
      if Published(recipes[n].kind) && recipes[n].result.Some? then Emitted(recipes[n], expansions[n]) else []
  }

  ghost predicate ExpandsAll(recipes: seq<Recipe>, names: Names, expansions: seq<seq<Variant>>) {
    && |expansions| == |recipes|
    && forall i :: 0 <= i < |recipes| && Published(recipes[i].kind) ==> Expands(recipes[i], names, expansions[i])
  }

  predicate Usable(emitted: seq<Emission>) {
    forall k :: 0 <= k < |emitted| ==> emitted[k].recipe.result.Some?
  }

  function ShapedEntry(e: Emission, id: nat): ShapedRecipe
    requires e.recipe.result.Some?
  {
    ShapedRecipe(e.variant.recipeId, e.recipe.width, e.recipe.height, e.variant.inputs, e.recipe.result.value, id)
  }

  function ShapelessEntry(e: Emission, id: nat): ShapelessRecipe
    requires e.recipe.result.Some?
  {
    ShapelessRecipe(e.variant.recipeId, e.variant.inputs, e.recipe.result.value, BlockOf(e.recipe), id)
  }

  /** The shaped emissions, each under its position among all emissions. */
  function ShapedOf(emitted: seq<Emission>): seq<ShapedRecipe>
    requires Usable(emitted)
  {
    if emitted == [] then []
    else
      var n := |emitted| - 1;
      ShapedOf(emitted[..n]) +
      if emitted[n].recipe.kind == ShapedKind then [ShapedEntry(emitted[n], n + 1)] else []
  }

  function ShapelessOf(emitted: seq<Emission>): seq<ShapelessRecipe>
    requires Usable(emitted)
  {
    if emitted == [] then []
    else
      var n := |emitted| - 1;
      ShapelessOf(emitted[..n]) +
      if emitted[n].recipe.kind != ShapedKind then [ShapelessEntry(emitted[n], n + 1)] else []
  }

  /** What the catalogue holds after publishing these emissions. */
  predicate Holds(emitted: seq<Emission>, shaped: seq<ShapedRecipe>, shapeless: seq<ShapelessRecipe>,
                  network: map<nat, Recipe>) {
    Usable(emitted) && shaped == ShapedOf(emitted) && shapeless == ShapelessOf(emitted)
    && network == NetworkOf(emitted)
  }

  lemma HoldsOneMore(emitted: seq<Emission>, shaped: seq<ShapedRecipe>, shapeless: seq<ShapelessRecipe>,
                     network: map<nat, Recipe>, e: Emission)
    requires Holds(emitted, shaped, shapeless, network) && e.recipe.result.Some?
    ensures var id := |emitted| + 1;
            if e.recipe.kind == ShapedKind
            then Holds(emitted + [e], shaped + [ShapedEntry(e, id)], shapeless, network[id := e.recipe])
            else Holds(emitted + [e], shaped, shapeless + [ShapelessEntry(e, id)], network[id := e.recipe])
  {
    assert (emitted + [e])[..|emitted|] == emitted;
  }

  function NetworkOf(emitted: seq<Emission>): map<nat, Recipe> {
    if emitted == [] then map[]
    else
      var n := |emitted| - 1;
      NetworkOf(emitted[..n])[n + 1 := emitted[n].recipe]
  }

  /** The lookup table knows exactly the ids 1..N and leads to the recipe of each. */
  lemma {:induction false} NetworkFindsRecipe(emitted: seq<Emission>, id: nat)
    ensures id in NetworkOf(emitted) <==> 1 <= id <= |emitted|
    ensures id in NetworkOf(emitted) ==> NetworkOf(emitted)[id] == emitted[id - 1].recipe
  {
    if emitted != [] {
      NetworkFindsRecipe(emitted[..|emitted| - 1], id);
    }
  }

  predicate IncreasingShaped(list: seq<ShapedRecipe>) {
    forall i, j :: 0 <= i < j < |list| ==> list[i].networkId < list[j].networkId
  }

  predicate IncreasingShapeless(list: seq<ShapelessRecipe>) {
    forall i, j :: 0 <= i < j < |list| ==> list[i].networkId < list[j].networkId
  }

  lemma ShapedOneMore(list: seq<ShapedRecipe>, last: ShapedRecipe)
    requires IncreasingShaped(list) && forall e :: e in list ==> e.networkId < last.networkId
    ensures IncreasingShaped(list + [last])
  {
    forall i | 0 <= i < |list| ensures list[i].networkId < last.networkId {
      assert list[i] in list;
    }
  }

  lemma ShapedStays(emitted: seq<Emission>, n: nat, e: ShapedRecipe)
    requires Usable(emitted) && n <= |emitted| && OfShaped(emitted[..n], e)
    ensures OfShaped(emitted, e)
  {
  }

  lemma {:induction false} ShapedAreEmitted(emitted: seq<Emission>)
    requires Usable(emitted)
    ensures IncreasingShaped(ShapedOf(emitted))
    ensures forall e :: e in ShapedOf(emitted) ==> OfShaped(emitted, e)
  {
    if emitted != [] {
      var n := |emitted| - 1;
      var front := emitted[..n];
      ShapedAreEmitted(front);
      forall e | e in ShapedOf(front) ensures OfShaped(emitted, e) && e.networkId <= n {
        assert OfShaped(front, e);
        ShapedStays(emitted, n, e);
      }
      if emitted[n].recipe.kind == ShapedKind {
        ShapedOneMore(ShapedOf(front), ShapedEntry(emitted[n], n + 1));
      }
    }
  }

  lemma ShapelessOneMore(list: seq<ShapelessRecipe>, last: ShapelessRecipe)
    requires IncreasingShapeless(list) && forall e :: e in list ==> e.networkId < last.networkId
    ensures IncreasingShapeless(list + [last])
  {
    forall i | 0 <= i < |list| ensures list[i].networkId < last.networkId {
      assert list[i] in list;
    }
  }

  lemma ShapelessStays(emitted: seq<Emission>, n: nat, e: ShapelessRecipe)
    requires Usable(emitted) && n <= |emitted| && OfShapeless(emitted[..n], e)
    ensures OfShapeless(emitted, e)
  {
  }

  lemma {:induction false} ShapelessAreEmitted(emitted: seq<Emission>)
    requires Usable(emitted)
    ensures IncreasingShapeless(ShapelessOf(emitted))
    ensures forall e :: e in ShapelessOf(emitted) ==> OfShapeless(emitted, e)
  {
    if emitted != [] {
      var n := |emitted| - 1;
      var front := emitted[..n];
      ShapelessAreEmitted(front);
      forall e | e in ShapelessOf(front) ensures OfShapeless(emitted, e) && e.networkId <= n {
        assert OfShapeless(front, e);
        ShapelessStays(emitted, n, e);
      }
      if emitted[n].recipe.kind != ShapedKind {
        ShapelessOneMore(ShapelessOf(front), ShapelessEntry(emitted[n], n + 1));
      }
    }
  }

  lemma {:induction false} EverythingIsListed(emitted: seq<Emission>)
    requires Usable(emitted)
    ensures |ShapedOf(emitted)| + |ShapelessOf(emitted)| == |emitted|
  {
    if emitted != [] { EverythingIsListed(emitted[..|emitted| - 1]); }
  }

  /** The two lists together carry the ids 1..N, each once: each list is strictly increasing,
      every entry was made from the emission its id names, and every emission is listed. */
  lemma NetworkIdsAreDense(emitted: seq<Emission>)
    requires Usable(emitted)
    ensures |ShapedOf(emitted)| + |ShapelessOf(emitted)| == |emitted|
    ensures IncreasingShaped(ShapedOf(emitted)) && IncreasingShapeless(ShapelessOf(emitted))
    ensures forall e :: e in ShapedOf(emitted) ==> OfShaped(emitted, e)
    ensures forall e :: e in ShapelessOf(emitted) ==> OfShapeless(emitted, e)
  {
    EverythingIsListed(emitted);
    ShapedAreEmitted(emitted);
    ShapelessAreEmitted(emitted);
  }

  predicate OfShaped(emitted: seq<Emission>, entry: ShapedRecipe)
    requires Usable(emitted)
  {
    && 1 <= entry.networkId <= |emitted|
    && emitted[entry.networkId - 1].recipe.kind == ShapedKind
    && entry == ShapedEntry(emitted[entry.networkId - 1], entry.networkId)
  }

  predicate OfShapeless(emitted: seq<Emission>, entry: ShapelessRecipe)
    requires Usable(emitted)
  {
    && 1 <= entry.networkId <= |emitted|
    && emitted[entry.networkId - 1].recipe.kind != ShapedKind
    && entry == ShapelessEntry(emitted[entry.networkId - 1], entry.networkId)
  }

  /** Every id from 1 to N is on exactly one of the two lists. */
  lemma {:induction false} EveryIdIsUsed(emitted: seq<Emission>, id: nat)
    requires Usable(emitted) && 1 <= id <= |emitted|
    ensures if emitted[id - 1].recipe.kind == ShapedKind
            then ShapedEntry(emitted[id - 1], id) in ShapedOf(emitted)
                 && forall e :: e in ShapelessOf(emitted) ==> e.networkId != id
            else ShapelessEntry(emitted[id - 1], id) in ShapelessOf(emitted)
                 && forall e :: e in ShapedOf(emitted) ==> e.networkId != id
  {
    NetworkIdsAreDense(emitted);
    IdIsListed(emitted, id);
  }

  lemma {:induction false} IdIsListed(emitted: seq<Emission>, id: nat)
    requires Usable(emitted) && 1 <= id <= |emitted|
    ensures if emitted[id - 1].recipe.kind == ShapedKind
            then ShapedEntry(emitted[id - 1], id) in ShapedOf(emitted)
            else ShapelessEntry(emitted[id - 1], id) in ShapelessOf(emitted)
  {
    var n := |emitted| - 1;
    if id <= n {
      IdIsListed(emitted[..n], id);
      assert emitted[..n][id - 1] == emitted[id - 1];
    }
  }

  lemma ExpandsOneMore(recipes: seq<Recipe>, names: Names, expansions: seq<seq<Variant>>, i: nat,
                       variants: seq<Variant>)
    requires i < |recipes| && ExpandsAll(recipes[..i], names, expansions)
    requires Published(recipes[i].kind) ==> Expands(recipes[i], names, variants)
    ensures ExpandsAll(recipes[..i + 1], names, expansions + [variants])
    ensures AllEmitted(recipes[..i + 1], expansions + [variants]) ==
            AllEmitted(recipes[..i], expansions) +
            if Published(recipes[i].kind) && recipes[i].result.Some? then Emitted(recipes[i], variants) else []
  {
    assert recipes[..i + 1][..i] == recipes[..i];
    assert (expansions + [variants])[..i] == expansions;
    forall j | 0 <= j <= i && Published(recipes[..i + 1][j].kind)
      ensures Expands(recipes[..i + 1][j], names, (expansions + [variants])[j])
    {
      if j < i { assert recipes[..i][j] == recipes[..i + 1][j]; }
    }
  }

  /** The catalogue holds the published variants of all recipes. */
  ghost predicate Publishes(recipes: seq<Recipe>, names: Names, shaped: seq<ShapedRecipe>,
                            shapeless: seq<ShapelessRecipe>, network: map<nat, Recipe>) {
    exists expansions ::
      ExpandsAll(recipes, names, expansions) && Holds(AllEmitted(recipes, expansions), shaped, shapeless, network)
  }

  /** There is one such catalogue. */
  lemma CatalogueIsUnique(recipes: seq<Recipe>, names: Names,
                          shaped: seq<ShapedRecipe>, shapeless: seq<ShapelessRecipe>, network: map<nat, Recipe>,
                          shaped': seq<ShapedRecipe>, shapeless': seq<ShapelessRecipe>, network': map<nat, Recipe>)
    requires Publishes(recipes, names, shaped, shapeless, network)
    requires Publishes(recipes, names, shaped', shapeless', network')
    ensures shaped == shaped' && shapeless == shapeless' && network == network'
  {
    var a :| ExpandsAll(recipes, names, a) && Holds(AllEmitted(recipes, a), shaped, shapeless, network);
    var b :| ExpandsAll(recipes, names, b) && Holds(AllEmitted(recipes, b), shaped', shapeless', network');
    SameEmissions(recipes, names, a, b);
  }

  lemma {:induction false} SameEmissions(recipes: seq<Recipe>, names: Names, a: seq<seq<Variant>>, b: seq<seq<Variant>>)
    requires ExpandsAll(recipes, names, a) && ExpandsAll(recipes, names, b)
    ensures AllEmitted(recipes, a) == AllEmitted(recipes, b)
  {
    if recipes != [] {
      var n := |recipes| - 1;
      SameEmissions(recipes[..n], names, a[..n], b[..n]);
      if Published(recipes[n].kind) { ExpansionIsUnique(recipes[n], names, a[n], b[n]); }
    }
  }

  /** The ids of both lists together are exactly those of the lookup table, 1 to N. */
  ghost predicate DenseIds(shaped: seq<ShapedRecipe>, shapeless: seq<ShapelessRecipe>, network: map<nat, Recipe>) {
    && IncreasingShaped(shaped) && IncreasingShapeless(shapeless)
    && (forall id: nat :: id in network <==> 1 <= id <= |shaped| + |shapeless|)
    && (forall e :: e in shaped ==> e.networkId in network && network[e.networkId].kind == ShapedKind
                                    && network[e.networkId].result == Some(e.output))
    && (forall e :: e in shapeless ==> e.networkId in network && network[e.networkId].kind != ShapedKind
                                       && network[e.networkId].result == Some(e.output))
  }

  lemma HeldIdsAreDense(emitted: seq<Emission>, shaped: seq<ShapedRecipe>, shapeless: seq<ShapelessRecipe>,
                        network: map<nat, Recipe>)
    requires Holds(emitted, shaped, shapeless, network)
    ensures DenseIds(shaped, shapeless, network)
  {
    NetworkIdsAreDense(emitted);
    forall id: nat ensures id in network <==> 1 <= id <= |emitted| {
      NetworkFindsRecipe(emitted, id);
    }
    forall e | e in shaped
      ensures e.networkId in network && network[e.networkId].kind == ShapedKind
              && network[e.networkId].result == Some(e.output)
    {
      assert OfShaped(emitted, e);
      NetworkFindsRecipe(emitted, e.networkId);
    }
    forall e | e in shapeless
      ensures e.networkId in network && network[e.networkId].kind != ShapedKind
              && network[e.networkId].result == Some(e.output)
    {
      assert OfShapeless(emitted, e);
      NetworkFindsRecipe(emitted, e.networkId);
    }
  }

  /** Publishes the catalogue. */
  method CraftingCatalogue(recipes: seq<Recipe>, names: Names)
    returns (shaped: seq<ShapedRecipe>, shapeless: seq<ShapelessRecipe>, network: map<nat, Recipe>)
    ensures Publishes(recipes, names, shaped, shapeless, network)
    ensures DenseIds(shaped, shapeless, network)
  {
    shaped, shapeless, network := [], [], map[];
    var networkId := 1;
    ghost var expansions: seq<seq<Variant>> := [];
    ghost var emitted: seq<Emission> := [];
    for i := 0 to |recipes|
      invariant ExpandsAll(recipes[..i], names, expansions) && emitted == AllEmitted(recipes[..i], expansions)
      invariant Holds(emitted, shaped, shapeless, network) && networkId == |emitted| + 1
    {
      var recipe := recipes[i];
      var variants: seq<Variant> := [];
      if Published(recipe.kind) {
        variants := JavaIngredientVariants(recipe, names);
      }
      ExpandsOneMore(recipes, names, expansions, i, variants);
      if Published(recipe.kind) && recipe.result.Some? {
        shaped, shapeless, network, networkId := PublishVariants(recipe, variants, shaped, shapeless, network,
                                                                 networkId, emitted);
        emitted := emitted + Emitted(recipe, variants);
      }
      expansions := expansions + [variants];
    }
    assert recipes[..|recipes|] == recipes;
    HeldIdsAreDense(emitted, shaped, shapeless, network);
  }

  method PublishVariants(recipe: Recipe, variants: seq<Variant>, shaped: seq<ShapedRecipe>,
                         shapeless: seq<ShapelessRecipe>, network: map<nat, Recipe>, networkId: nat,
                         ghost emitted: seq<Emission>)
    returns (shaped': seq<ShapedRecipe>, shapeless': seq<ShapelessRecipe>, network': map<nat, Recipe>,
             networkId': nat)
    requires Published(recipe.kind) && recipe.result.Some?
    requires Holds(emitted, shaped, shapeless, network) && networkId == |emitted| + 1
    ensures Holds(emitted + Emitted(recipe, variants), shaped', shapeless', network')
    ensures networkId' == |emitted + Emitted(recipe, variants)| + 1
  {
    shaped', shapeless', network', networkId' := shaped, shapeless, network, networkId;
    ghost var emitted' := emitted;
    for k := 0 to |variants|
      invariant emitted' == emitted + Emitted(recipe, variants[..k])
      invariant Holds(emitted', shaped', shapeless', network') && networkId' == |emitted'| + 1
    {
      var variant := variants[k];
      EmittedOneMore(recipe, variants, k);
      if recipe.kind == ShapedKind &&
         (recipe.width <= 0 || recipe.height <= 0 || Int32(recipe.width * recipe.height) != |variant.inputs|) {
        continue;
      }
      shaped', shapeless' := PublishVariant(recipe, variant, shaped', shapeless', network', networkId', emitted');
      emitted' := emitted' + [Emission(recipe, variant)];
      network' := network'[networkId' := recipe];
      networkId' := networkId' + 1;
    }
    assert variants[..|variants|] == variants;
  }

  /** Adds one entry to the list of the recipe's kind. */
  method PublishVariant(recipe: Recipe, variant: Variant, shaped: seq<ShapedRecipe>, shapeless: seq<ShapelessRecipe>,
                        ghost network: map<nat, Recipe>, networkId: nat, ghost emitted: seq<Emission>)
    returns (shaped': seq<ShapedRecipe>, shapeless': seq<ShapelessRecipe>)
    requires recipe.result.Some? && Published(recipe.kind)
    requires Holds(emitted, shaped, shapeless, network) && networkId == |emitted| + 1
    ensures Holds(emitted + [Emission(recipe, variant)], shaped', shapeless', network[networkId := recipe])
  {
    shaped', shapeless' := shaped, shapeless;
    HoldsOneMore(emitted, shaped, shapeless, network, Emission(recipe, variant));
    if recipe.kind == ShapedKind {
      shaped' := shaped + [ShapedRecipe(variant.recipeId, recipe.width, recipe.height, variant.inputs,
                                        recipe.result.value, networkId)];
    } else {
      var block := "crafting_table";
      if recipe.kind == FurnaceKind {
        block := TrimPrefix(recipe.station, MINECRAFT);
      } else if recipe.kind == StonecutterKind {
        block := "stonecutter";
      }
      shapeless' := shapeless + [ShapelessRecipe(variant.recipeId, variant.inputs, recipe.result.value,
                                                 block, networkId)];
    }
  }

  lemma EmittedOneMore(recipe: Recipe, variants: seq<Variant>, k: nat)
    requires k < |variants|
    ensures Emitted(recipe, variants[..k + 1]) ==
            Emitted(recipe, variants[..k]) +
            if FitsGrid(recipe, variants[k]) then [Emission(recipe, variants[k])] else []
  {
    assert variants[..k + 1][..k] == variants[..k];
  }

  // ----- packets of at most 1024

  const MAX_PER_PACKET: nat := 1024

  datatype CraftingPacket = CraftingPacket(shaped: seq<ShapedRecipe>, shapeless: seq<ShapelessRecipe>)

  /** The k-th slice of a list. */
  function Slice<T>(list: seq<T>, k: nat): seq<T> {
    var start, end := MAX_PER_PACKET * k, MAX_PER_PACKET * (k + 1);
    if start >= |list| then [] else if end >= |list| then list[start..] else list[start..end]
  }

  function AllShaped(packets: seq<CraftingPacket>): seq<ShapedRecipe> {
    if packets == [] then []
    else AllShaped(packets[..|packets| - 1]) + packets[|packets| - 1].shaped
  }

  function AllShapeless(packets: seq<CraftingPacket>): seq<ShapelessRecipe> {
    if packets == [] then []
    else AllShapeless(packets[..|packets| - 1]) + packets[|packets| - 1].shapeless
  }

  /** The part consists of the recipes of the list from this position on. */
  predicate InPlace<T(==)>(list: seq<T>, part: seq<T>, start: nat) {
    forall i :: 0 <= i < |part| ==> start + i < |list| && part[i] == list[start + i]
  }

  function UpTo<T>(list: seq<T>, n: nat): seq<T> {
    if n < |list| then list[..n] else list
  }

  lemma SliceInPlace<T>(list: seq<T>, k: nat)
    ensures InPlace(list, Slice(list, k), 1024 * k)
  {
  }

  lemma SliceExtends<T>(list: seq<T>, k: nat)
    ensures UpTo(list, MAX_PER_PACKET * k) + Slice(list, k) == UpTo(list, MAX_PER_PACKET * (k + 1))
    ensures |Slice(list, k)| <= MAX_PER_PACKET
    ensures Slice(list, k) != [] <==> MAX_PER_PACKET * k < |list|
  {
  }

  lemma {:induction false} SlicesRejoin(shaped: seq<ShapedRecipe>, shapeless: seq<ShapelessRecipe>,
                                        packets: seq<CraftingPacket>)
    requires forall k :: 0 <= k < |packets| ==>
               packets[k] == CraftingPacket(Slice(shaped, k), Slice(shapeless, k))
    ensures AllShaped(packets) == UpTo(shaped, MAX_PER_PACKET * |packets|)
    ensures AllShapeless(packets) == UpTo(shapeless, MAX_PER_PACKET * |packets|)
  {
    if packets == [] {
    } else {
      var n := |packets| - 1;
      SlicesRejoin(shaped, shapeless, packets[..n]);
      SliceExtends(shaped, n);
      SliceExtends(shapeless, n);
    }
  }

  function PacketsFor(count: nat): nat {
    (count + MAX_PER_PACKET - 1) / MAX_PER_PACKET
  }

  /** The recipes of one packet. */
  method CraftingPacketAt(shaped: seq<ShapedRecipe>, shapeless: seq<ShapelessRecipe>, index: nat)
    returns (packet: CraftingPacket)
    ensures packet == CraftingPacket(Slice(shaped, index), Slice(shapeless, index))
  {
    packet := CraftingPacket([], []);
    var start := index * MAX_PER_PACKET;
    if start < |shaped| {
      var end := if start + MAX_PER_PACKET < |shaped| then start + MAX_PER_PACKET else |shaped|;
      packet := packet.(shaped := shaped[start..end]);
    }
    if start < |shapeless| {
      var end := if start + MAX_PER_PACKET < |shapeless| then start + MAX_PER_PACKET else |shapeless|;
      packet := packet.(shapeless := shapeless[start..end]);
    }
  }

  /** Splits both lists: nothing is lost, reordered or duplicated, no packet is too large, and
      none is empty unless there is no recipe at all. */
  method CraftingData(shaped: seq<ShapedRecipe>, shapeless: seq<ShapelessRecipe>)
    returns (packets: seq<CraftingPacket>)
    ensures AllShaped(packets) == shaped && AllShapeless(packets) == shapeless
    ensures forall k :: 0 <= k < |packets| ==>
              InPlace(shaped, packets[k].shaped, 1024 * k) && InPlace(shapeless, packets[k].shapeless, 1024 * k)
    ensures forall k :: 0 <= k < |packets| ==>
              |packets[k].shaped| <= 1024 && |packets[k].shapeless| <= 1024
    ensures shaped != [] || shapeless != [] ==>
              forall k :: 0 <= k < |packets| ==> packets[k].shaped != [] || packets[k].shapeless != []
    ensures shaped == [] && shapeless == [] ==> packets == [CraftingPacket([], [])]
  {
    var a, b := PacketsFor(|shaped|), PacketsFor(|shapeless|);
    var packetCount := if a < b then b else a;
    if packetCount == 0 {
      packets := [CraftingPacket([], [])];
      assert packets[..0] == [];
      return;
    }
    var filled := new CraftingPacket[packetCount](i => CraftingPacket([], []));
    for index := 0 to packetCount
      invariant forall k :: 0 <= k < index ==>
        filled[k] == CraftingPacket(Slice(shaped, k), Slice(shapeless, k))
    {
      filled[index] := CraftingPacketAt(shaped, shapeless, index);
    }
    packets := filled[..];
    SlicesRejoin(shaped, shapeless, packets);
    forall k | 0 <= k < |packets|
      ensures |packets[k].shaped| <= MAX_PER_PACKET && |packets[k].shapeless| <= MAX_PER_PACKET
      ensures packets[k].shaped != [] || packets[k].shapeless != []
      ensures InPlace(shaped, packets[k].shaped, 1024 * k) && InPlace(shapeless, packets[k].shapeless, 1024 * k)
    {
      SliceInPlace(shaped, k);
      SliceInPlace(shapeless, k);
      SliceExtends(shaped, k);
      SliceExtends(shapeless, k);
    }
  }

  // ----- the stonecutter

  predicate Cuts(recipe: Recipe, input: string) {
    recipe.kind == StonecutterKind && |recipe.ingredients| == 1 && input in recipe.ingredients[0]
  }

  /** The stonecutter recipes that accept the input, in catalogue order. */
  function Cutting(catalog: seq<Recipe>, input: string): seq<Recipe> {
    if catalog == [] then []
    else
      var last := catalog[|catalog| - 1];
      Cutting(catalog[..|catalog| - 1], input) + if Cuts(last, input) then [last] else []
  }

  /** The recipes at these increasing positions, which are those of all stonecutter recipes with one
      ingredient that accepts the input. */
  ghost predicate CutAt(catalog: seq<Recipe>, input: string, cut: seq<Recipe>, positions: seq<nat>) {
    && Sublist(catalog, cut, positions)
    && forall i: nat :: i in positions <==>
         && i < |catalog| && catalog[i].kind == StonecutterKind
         && |catalog[i].ingredients| == 1 && input in catalog[i].ingredients[0]
  }

  lemma CutOneMore(catalog: seq<Recipe>, n: nat, input: string, cut: seq<Recipe>, positions: seq<nat>)
    requires n == |catalog| - 1 && CutAt(catalog[..n], input, cut, positions)
    ensures if Cuts(catalog[n], input) then CutAt(catalog, input, cut + [catalog[n]], positions + [n])
            else CutAt(catalog, input, cut, positions)
  {
    SublistMore(catalog, n, cut, positions);
    forall i: nat | i < n ensures i in positions <==> Cuts(catalog[i], input) {
      assert catalog[..n][i] == catalog[i];
    }
  }

  /** They are listed in catalogue order. */
  lemma {:induction false} CuttingExactly(catalog: seq<Recipe>, input: string) returns (positions: seq<nat>)
    ensures CutAt(catalog, input, Cutting(catalog, input), positions)
  {
    if catalog == [] {
      positions := [];
    } else {
      var n := |catalog| - 1;
      positions := CuttingExactly(catalog[..n], input);
      CutOneMore(catalog, n, input, Cutting(catalog[..n], input), positions);
      if Cuts(catalog[n], input) { positions := positions + [n]; }
    }
  }

  lemma {:induction false} CuttingPrefix(catalog: seq<Recipe>, input: string, i: nat)
    requires i <= |catalog|
    ensures Cutting(catalog[..i], input) <= Cutting(catalog, input)
  {
    if i == |catalog| {
      assert catalog[..i] == catalog;
    } else {
      var front := catalog[..|catalog| - 1];
      CuttingPrefix(front, input, i);
      assert front[..i] == catalog[..i];
    }
  }

  /** The position of the first recipe with the chosen recipe's name among those that accept the
      input; none exactly when the id is unknown, not a stonecutter recipe, or not among them. */
  method StonecutterSelection(network: map<nat, Recipe>, catalog: seq<Recipe>, networkId: nat, input: string)
    returns (selection: Option<nat>)
    ensures selection.Some? ==>
              && networkId in network
              && selection.value < |Cutting(catalog, input)|
              && Cutting(catalog, input)[selection.value].name == network[networkId].name
              && forall j :: 0 <= j < selection.value ==>
                   Cutting(catalog, input)[j].name != network[networkId].name
    ensures selection.None? <==>
              || networkId !in network
              || network[networkId].kind != StonecutterKind
              || forall r :: r in Cutting(catalog, input) ==> r.name != network[networkId].name
  {
    if networkId !in network || network[networkId].kind != StonecutterKind {
      return None;
    }
    var recipe := network[networkId];
    var count := 0;
    for i := 0 to |catalog|
      invariant count == |Cutting(catalog[..i], input)|
      invariant forall j :: 0 <= j < count ==> Cutting(catalog[..i], input)[j].name != recipe.name
    {
      var candidate := catalog[i];
      assert catalog[..i + 1][..i] == catalog[..i];
      if candidate.kind != StonecutterKind || |candidate.ingredients| != 1 {
        continue;
      }
      var matches := false;
      for a := 0 to |candidate.ingredients[0]|
        invariant !matches && input !in candidate.ingredients[0][..a]
      {
        if candidate.ingredients[0][a] == input {
          matches := true;
          break;
        }
      }
      if !matches {
        assert candidate.ingredients[0][..|candidate.ingredients[0]|] == candidate.ingredients[0];
        continue;
      }
      if candidate.name == recipe.name {
        CuttingPrefix(catalog, input, i + 1);
        assert Cutting(catalog[..i + 1], input)[count] == candidate;
        assert candidate in Cutting(catalog, input);
        return Some(count);
      }
      count := count + 1;
    }
    assert catalog[..|catalog|] == catalog;
    return None;
  }
}
