/**
 Which recipes the catalogue lists, and as what (bedrock/recipes.go): one entry for
 every choice of ingredients of every recipe of the four kinds, on the list of its
 kind, in catalogue order.
 */
module RecipeListing {
  import opened Options
  import opened Odometer
  import opened RecipeVariants
  import opened RecipeCatalogue

  /** A selection of alternatives under a recipe's grouping. */
  datatype Choice = Choice(groups: seq<seq<string>>, group: seq<int>, selection: seq<nat>)

  /** The choice is one the recipe offers, and all its names are known. */
  predicate Offered(recipe: Recipe, names: Names, c: Choice) {
    && Grouped(recipe.ingredients, c.groups, c.group) && ValidDigits(Sizes(c.groups), c.selection)
    && Resolves(recipe.ingredients, c.groups, c.group, names, c.selection)
  }

  function NumberOf(c: Choice): nat
    requires ValidDigits(Sizes(c.groups), c.selection)
  {
    Value(Sizes(c.groups), c.selection)
  }

  function InputsFor(recipe: Recipe, names: Names, c: Choice): seq<Input>
    requires Offered(recipe, names, c)
  {
    InputsOf(recipe.ingredients, c.groups, c.group, names, c.selection)
  }

  /** A shaped recipe needs a grid that its inputs fill; of the other kinds three are published. */
  predicate Publishable(recipe: Recipe, names: Names, c: Choice) {
    && recipe.result.Some? && Offered(recipe, names, c)
    && match recipe.kind
       case ShapedKind =>
         recipe.width > 0 && recipe.height > 0
         && Int32(recipe.width * recipe.height) == |InputsFor(recipe, names, c)|
       case ShapelessKind => true
       case FurnaceKind => true
       case StonecutterKind => true
       case OtherKind => false
  }

  /** Where an entry comes from: the recipe's position and the number of the choice. */
  datatype Origin = Origin(recipe: nat, number: nat)

  predicate Before(a: Origin, b: Origin) {
    a.recipe < b.recipe || (a.recipe == b.recipe && a.number < b.number)
  }

  predicate Ordered(origins: seq<Origin>) {
    forall j, k :: 0 <= j < k < |origins| ==> Before(origins[j], origins[k])
  }

  /** The variant is that of a publishable choice with this number. */
  ghost predicate OfChoice(recipe: Recipe, names: Names, number: nat, v: Variant, c: Choice) {
    && Publishable(recipe, names, c) && NumberOf(c) == number
    && v.recipeId == VariantId(recipe.name, number) && v.inputs == InputsFor(recipe, names, c)
  }

  ghost predicate OfNumber(recipe: Recipe, names: Names, number: nat, v: Variant) {
    exists c :: OfChoice(recipe, names, number, v, c)
  }

  predicate Increasing(numbers: seq<nat>) {
    forall j, k :: 0 <= j < k < |numbers| ==> numbers[j] < numbers[k]
  }

  // ----- the variants of one recipe

  /** The numbers of the variants among the visited selections. */
  ghost predicate Numbered(recipe: Recipe, groups: seq<seq<string>>, group: seq<int>, names: Names,
                           visited: seq<seq<nat>>, numbers: seq<nat>, variants: seq<Variant>)
    requires Grouped(recipe.ingredients, groups, group) && Counted(Sizes(groups), visited)
  {
    && |numbers| == |variants| && Increasing(numbers)
    && (forall k :: 0 <= k < |numbers| ==> IsVariant(recipe, groups, group, names, visited, numbers[k], variants[k]))
    && forall n: nat :: n < |visited| && Resolves(recipe.ingredients, groups, group, names, visited[n]) ==> n in numbers
  }

  lemma NumberedMore(recipe: Recipe, groups: seq<seq<string>>, group: seq<int>, names: Names, visited: seq<seq<nat>>,
                     n: nat, before: seq<nat>, front: seq<Variant>, numbers: seq<nat>, variants: seq<Variant>)
    requires Grouped(recipe.ingredients, groups, group) && Counted(Sizes(groups), visited) && n == |visited| - 1
    requires Numbered(recipe, groups, group, names, visited[..n], before, front)
    requires if Resolves(recipe.ingredients, groups, group, names, visited[n])
             then numbers == before + [n]
                  && variants == front + [Variant(VariantId(recipe.name, n),
                                                  InputsOf(recipe.ingredients, groups, group, names, visited[n]))]
             else numbers == before && variants == front
    ensures Numbered(recipe, groups, group, names, visited, numbers, variants)
  {
    forall k | 0 <= k < |before| ensures IsVariant(recipe, groups, group, names, visited, before[k], front[k]) {
      assert IsVariant(recipe, groups, group, names, visited[..n], before[k], front[k]);
      assert visited[..n][before[k]] == visited[before[k]];
    }
    forall i: nat | i < |visited| && Resolves(recipe.ingredients, groups, group, names, visited[i]) ensures i in numbers {
      if i < n { assert visited[..n][i] == visited[i]; }
    }
  }

  lemma {:induction false} VariantNumbers(recipe: Recipe, groups: seq<seq<string>>, group: seq<int>, names: Names,
                                          visited: seq<seq<nat>>)
    returns (numbers: seq<nat>)
    requires Grouped(recipe.ingredients, groups, group) && Counted(Sizes(groups), visited)
    ensures Numbered(recipe, groups, group, names, visited, numbers, VariantsOf(recipe, groups, group, names, visited))
  {
    if visited == [] {
      numbers := [];
    } else {
      var n := |visited| - 1;
      var before := VariantNumbers(recipe, groups, group, names, visited[..n]);
      numbers := if Resolves(recipe.ingredients, groups, group, names, visited[n]) then before + [n] else before;
      NumberedMore(recipe, groups, group, names, visited, n, before, VariantsOf(recipe, groups, group, names, visited[..n]),
                   numbers, VariantsOf(recipe, groups, group, names, visited));
    }
  }

  /** The numbers of the variants that fit the recipe's grid. */
  predicate Fitting(recipe: Recipe, variants: seq<Variant>, numbers: seq<nat>, kept: seq<nat>, emitted: seq<Emission>)
    requires |numbers| == |variants|
  {
    && |kept| == |emitted| && Increasing(kept)
    && (forall k :: 0 <= k < |kept| ==> Keeps(recipe, variants, numbers, kept[k], emitted[k]))
    && forall j :: 0 <= j < |numbers| && FitsGrid(recipe, variants[j]) ==> numbers[j] in kept
  }

  lemma FittingMore(recipe: Recipe, variants: seq<Variant>, numbers: seq<nat>, n: nat,
                    before: seq<nat>, front: seq<Emission>, kept: seq<nat>, emitted: seq<Emission>)
    requires |numbers| == |variants| == n + 1 && Increasing(numbers)
    requires Fitting(recipe, variants[..n], numbers[..n], before, front)
    requires if FitsGrid(recipe, variants[n])
             then kept == before + [numbers[n]] && emitted == front + [Emission(recipe, variants[n])]
             else kept == before && emitted == front
    ensures Fitting(recipe, variants, numbers, kept, emitted)
  {
    forall k | 0 <= k < |before| ensures Keeps(recipe, variants, numbers, before[k], front[k]) && before[k] < numbers[n] {
      KeepsMore(recipe, variants, numbers, n, before[k], front[k]);
    }
    forall j | 0 <= j < |numbers| && FitsGrid(recipe, variants[j]) ensures numbers[j] in kept {
      if j < n { assert variants[..n][j] == variants[j] && numbers[..n][j] in before; }
    }
  }

  lemma {:induction false} FittingNumbers(recipe: Recipe, variants: seq<Variant>, numbers: seq<nat>)
    returns (kept: seq<nat>)
    requires |numbers| == |variants| && Increasing(numbers)
    ensures Fitting(recipe, variants, numbers, kept, Emitted(recipe, variants))
  {
    if variants == [] {
      kept := [];
    } else {
      var n := |variants| - 1;
      var before := FittingNumbers(recipe, variants[..n], numbers[..n]);
      kept := if FitsGrid(recipe, variants[n]) then before + [numbers[n]] else before;
      FittingMore(recipe, variants, numbers, n, before, Emitted(recipe, variants[..n]), kept, Emitted(recipe, variants));
    }
  }

  /** The emission is that of a fitting variant with this number. */
  predicate Keeps(recipe: Recipe, variants: seq<Variant>, numbers: seq<nat>, number: nat, e: Emission)
    requires |numbers| == |variants|
  {
    exists j :: 0 <= j < |numbers| && numbers[j] == number && FitsGrid(recipe, variants[j])
                && e == Emission(recipe, variants[j])
  }

  lemma KeepsMore(recipe: Recipe, variants: seq<Variant>, numbers: seq<nat>, n: nat, number: nat, e: Emission)
    requires |numbers| == |variants| == n + 1 && Increasing(numbers)
    requires Keeps(recipe, variants[..n], numbers[..n], number, e)
    ensures Keeps(recipe, variants, numbers, number, e) && number < numbers[n]
  {
    var j :| 0 <= j < n && numbers[..n][j] == number && FitsGrid(recipe, variants[..n][j])
             && e == Emission(recipe, variants[..n][j]);
    assert numbers[j] == number && variants[j] == variants[..n][j];
  }

  /** A published recipe emits one variant for each publishable choice, in the order of their numbers. */
  lemma EmittedExactly(recipe: Recipe, names: Names, variants: seq<Variant>) returns (numbers: seq<nat>)
    requires Expands(recipe, names, variants) && Published(recipe.kind) && recipe.result.Some?
    ensures |numbers| == |Emitted(recipe, variants)| && Increasing(numbers)
    ensures forall k :: 0 <= k < |numbers| ==>
              Emitted(recipe, variants)[k].recipe == recipe
              && OfNumber(recipe, names, numbers[k], Emitted(recipe, variants)[k].variant)
    ensures forall c :: Publishable(recipe, names, c) ==> NumberOf(c) in numbers
  {
    var groups, group, visited :| ExpandsBy(recipe, names, variants, groups, group, visited);
    var all := VariantNumbers(recipe, groups, group, names, visited);
    numbers := FittingNumbers(recipe, variants, all);
    forall k | 0 <= k < |numbers|
      ensures Emitted(recipe, variants)[k].recipe == recipe
              && OfNumber(recipe, names, numbers[k], Emitted(recipe, variants)[k].variant)
    {
      assert Keeps(recipe, variants, all, numbers[k], Emitted(recipe, variants)[k]);
      var j :| 0 <= j < |all| && all[j] == numbers[k] && FitsGrid(recipe, variants[j])
               && Emitted(recipe, variants)[k] == Emission(recipe, variants[j]);
      VariantOfChoice(recipe, names, groups, group, visited, all[j], variants[j]);
    }
    forall c | Publishable(recipe, names, c) ensures NumberOf(c) in numbers {
      ChoiceIsVisited(recipe, names, variants, groups, group, visited, c);
      var n := NumberOf(c);
      assert n in all;
      var j :| 0 <= j < |all| && all[j] == n;
      assert IsVariant(recipe, groups, group, names, visited, n, variants[j]);
      assert FitsGrid(recipe, variants[j]);
    }
  }

  lemma VariantOfChoice(recipe: Recipe, names: Names, groups: seq<seq<string>>, group: seq<int>,
                        visited: seq<seq<nat>>, n: nat, v: Variant)
    requires Grouped(recipe.ingredients, groups, group) && Counted(Sizes(groups), visited)
    requires IsVariant(recipe, groups, group, names, visited, n, v)
    requires Published(recipe.kind) && recipe.result.Some? && FitsGrid(recipe, v)
    ensures OfNumber(recipe, names, n, v)
  {
    var c := Choice(groups, group, visited[n]);
    assert Offered(recipe, names, c) && NumberOf(c) == n;
    assert OfChoice(recipe, names, n, v, c);
  }

  lemma ChoiceIsVisited(recipe: Recipe, names: Names, variants: seq<Variant>, groups: seq<seq<string>>,
                        group: seq<int>, visited: seq<seq<nat>>, c: Choice)
    requires ExpandsBy(recipe, names, variants, groups, group, visited) && Offered(recipe, names, c)
    ensures c.groups == groups && c.group == group
    ensures NumberOf(c) < |visited| && visited[NumberOf(c)] == c.selection
  {
    GroupingIsUnique(recipe.ingredients, groups, group, c.groups, c.group);
    SweepIsComplete(Sizes(groups), visited, c.selection);
  }

  // ----- all recipes

  /** The emission comes from there. */
  ghost predicate From(recipes: seq<Recipe>, names: Names, o: Origin, e: Emission) {
    o.recipe < |recipes| && e.recipe == recipes[o.recipe] && OfNumber(e.recipe, names, o.number, e.variant)
  }

  /** One origin for each emission, in order, and every publishable choice is one. */
  ghost predicate Originate(recipes: seq<Recipe>, names: Names, origins: seq<Origin>, emitted: seq<Emission>) {
    && |origins| == |emitted| && Ordered(origins)
    && (forall k :: 0 <= k < |origins| ==> From(recipes, names, origins[k], emitted[k]))
    && forall i: nat, c :: i < |recipes| && Publishable(recipes[i], names, c) ==> Origin(i, NumberOf(c)) in origins
  }

  function At(i: nat, numbers: seq<nat>): seq<Origin> {
    seq(|numbers|, k requires 0 <= k < |numbers| => Origin(i, numbers[k]))
  }

  lemma OriginateMore(recipes: seq<Recipe>, names: Names, n: nat, before: seq<Origin>, emitted: seq<Emission>,
                      numbers: seq<nat>, more: seq<Emission>)
    requires n == |recipes| - 1 && Originate(recipes[..n], names, before, emitted)
    requires |numbers| == |more| && Increasing(numbers)
    requires forall k :: 0 <= k < |numbers| ==>
               more[k].recipe == recipes[n] && OfNumber(recipes[n], names, numbers[k], more[k].variant)
    requires forall c :: Publishable(recipes[n], names, c) ==> NumberOf(c) in numbers
    ensures Originate(recipes, names, before + At(n, numbers), emitted + more)
  {
    var origins, all := before + At(n, numbers), emitted + more;
    FromMore(recipes, names, n, before, emitted, numbers, more);
    assert Ordered(origins) by { OrderedMore(n, before, numbers); }
    forall i: nat, c | i < |recipes| && Publishable(recipes[i], names, c) ensures Origin(i, NumberOf(c)) in origins {
      if i < n {
        assert recipes[..n][i] == recipes[i] && Origin(i, NumberOf(c)) in before;
      } else {
        IsAt(n, numbers, NumberOf(c));
      }
    }
  }

  lemma IsAt(n: nat, numbers: seq<nat>, number: nat)
    requires number in numbers
    ensures Origin(n, number) in At(n, numbers)
  {
    var k :| 0 <= k < |numbers| && numbers[k] == number;
    assert At(n, numbers)[k] == Origin(n, number);
  }

  lemma OrderedMore(n: nat, before: seq<Origin>, numbers: seq<nat>)
    requires Ordered(before) && Increasing(numbers) && forall k :: 0 <= k < |before| ==> before[k].recipe < n
    ensures Ordered(before + At(n, numbers))
  {
  }

  lemma FromMore(recipes: seq<Recipe>, names: Names, n: nat, before: seq<Origin>, emitted: seq<Emission>,
                 numbers: seq<nat>, more: seq<Emission>)
    requires n == |recipes| - 1 && |before| == |emitted| && |numbers| == |more|
    requires forall k :: 0 <= k < |before| ==> From(recipes[..n], names, before[k], emitted[k])
    requires forall k :: 0 <= k < |numbers| ==>
               more[k].recipe == recipes[n] && OfNumber(recipes[n], names, numbers[k], more[k].variant)
    ensures forall k :: 0 <= k < |before + At(n, numbers)| ==>
              From(recipes, names, (before + At(n, numbers))[k], (emitted + more)[k])
    ensures forall k :: 0 <= k < |before| ==> before[k].recipe < n
  {
    var origins, all := before + At(n, numbers), emitted + more;
    forall k | 0 <= k < |origins| ensures From(recipes, names, origins[k], all[k]) {
      if k < |before| {
        assert From(recipes[..n], names, before[k], emitted[k]);
      } else {
        assert origins[k] == Origin(n, numbers[k - |before|]) && all[k] == more[k - |before|];
      }
    }
    forall k | 0 <= k < |before| ensures before[k].recipe < n {
      assert From(recipes[..n], names, before[k], emitted[k]);
    }
  }

  lemma {:induction false} EmissionsOriginate(recipes: seq<Recipe>, names: Names, expansions: seq<seq<Variant>>)
    returns (origins: seq<Origin>)
    requires ExpandsAll(recipes, names, expansions)
    ensures Originate(recipes, names, origins, AllEmitted(recipes, expansions))
  {
    if recipes == [] {
      origins := [];
    } else {
      var n := |recipes| - 1;
      var before := EmissionsOriginate(recipes[..n], names, expansions[..n]);
      var numbers, more := [], [];
      if Published(recipes[n].kind) && recipes[n].result.Some? {
        numbers := EmittedExactly(recipes[n], names, expansions[n]);
        more := Emitted(recipes[n], expansions[n]);
      }
      origins := before + At(n, numbers);
      OriginateMore(recipes, names, n, before, AllEmitted(recipes[..n], expansions[..n]), numbers, more);
    }
  }

  // ----- the two lists

  /** A shaped entry: its own grid, and the inputs and result of the choice. */
  ghost predicate ShapedFrom(recipes: seq<Recipe>, names: Names, o: Origin, e: ShapedRecipe) {
    && o.recipe < |recipes| && recipes[o.recipe].kind == ShapedKind
    && var r := recipes[o.recipe];
    exists c ::
      && Publishable(r, names, c) && NumberOf(c) == o.number
      && e.recipeId == VariantId(r.name, o.number) && e.inputs == InputsFor(r, names, c)
      && e.width == r.width && e.height == r.height && Some(e.output) == r.result
  }

  /** A shapeless entry stands under the block of its station. */
  ghost predicate ShapelessFrom(recipes: seq<Recipe>, names: Names, o: Origin, e: ShapelessRecipe) {
    && o.recipe < |recipes|
    && var r := recipes[o.recipe];
    && (r.kind == ShapelessKind ==> e.block == "crafting_table")
    && (r.kind == StonecutterKind ==> e.block == "stonecutter")
    && (r.kind == FurnaceKind ==>
          e.block == if "minecraft:" <= r.station then r.station[|"minecraft:"|..] else r.station)
    && (r.kind == ShapelessKind || r.kind == StonecutterKind || r.kind == FurnaceKind)
    && exists c ::
         && Publishable(r, names, c) && NumberOf(c) == o.number
         && e.recipeId == VariantId(r.name, o.number) && e.inputs == InputsFor(r, names, c)
         && Some(e.output) == r.result
  }

  /** Network id k + 1 is listed, on the list of its recipe's kind, and leads to the recipe. */
  ghost predicate ListedUnder(recipes: seq<Recipe>, o: Origin, k: nat, shaped: seq<ShapedRecipe>,
                              shapeless: seq<ShapelessRecipe>, network: map<nat, Recipe>) {
    && o.recipe < |recipes| && k + 1 in network && network[k + 1] == recipes[o.recipe]
    && if recipes[o.recipe].kind == ShapedKind then exists e :: e in shaped && e.networkId == k + 1
       else exists e :: e in shapeless && e.networkId == k + 1
  }

  /** Origin k belongs to network id k + 1: every entry comes from the origin of its id, every id is
      listed, and every publishable choice is an origin. */
  ghost predicate Lists(recipes: seq<Recipe>, names: Names, origins: seq<Origin>, shaped: seq<ShapedRecipe>,
                        shapeless: seq<ShapelessRecipe>, network: map<nat, Recipe>) {
    && |origins| == |shaped| + |shapeless| && Ordered(origins)
    && (forall e :: e in shaped ==>
          1 <= e.networkId <= |origins| && ShapedFrom(recipes, names, origins[e.networkId - 1], e))
    && (forall e :: e in shapeless ==>
          1 <= e.networkId <= |origins| && ShapelessFrom(recipes, names, origins[e.networkId - 1], e))
    && (forall k :: 0 <= k < |origins| ==> ListedUnder(recipes, origins[k], k, shaped, shapeless, network))
    && forall i: nat, c :: i < |recipes| && Publishable(recipes[i], names, c) ==> Origin(i, NumberOf(c)) in origins
  }

  lemma {:induction false} IdIsListedUnder(recipes: seq<Recipe>, names: Names, origins: seq<Origin>,
                                           emitted: seq<Emission>, k: nat)
    requires Usable(emitted) && |origins| == |emitted| && k < |origins| && From(recipes, names, origins[k], emitted[k])
    ensures ListedUnder(recipes, origins[k], k, ShapedOf(emitted), ShapelessOf(emitted), NetworkOf(emitted))
  {
    NetworkFindsRecipe(emitted, k + 1);
    IdIsListed(emitted, k + 1);
  }

  lemma ShapedComesFrom(recipes: seq<Recipe>, names: Names, origins: seq<Origin>, emitted: seq<Emission>, e: ShapedRecipe)
    requires Originate(recipes, names, origins, emitted) && Usable(emitted) && OfShaped(emitted, e)
    ensures ShapedFrom(recipes, names, origins[e.networkId - 1], e)
  {
    var k := e.networkId - 1;
    assert From(recipes, names, origins[k], emitted[k]);
    var c :| OfChoice(emitted[k].recipe, names, origins[k].number, emitted[k].variant, c);
  }

  lemma ShapelessComesFrom(recipes: seq<Recipe>, names: Names, origins: seq<Origin>, emitted: seq<Emission>,
                           e: ShapelessRecipe)
    requires Originate(recipes, names, origins, emitted) && Usable(emitted) && OfShapeless(emitted, e)
    ensures ShapelessFrom(recipes, names, origins[e.networkId - 1], e)
  {
    var k := e.networkId - 1;
    assert From(recipes, names, origins[k], emitted[k]);
    var c :| OfChoice(emitted[k].recipe, names, origins[k].number, emitted[k].variant, c);
  }

  /** The catalogue has one entry for every publishable choice of every recipe and no other, in
      catalogue order, each on the list of its kind under its own network id. */
  lemma CatalogueListsExactly(recipes: seq<Recipe>, names: Names, shaped: seq<ShapedRecipe>,
                              shapeless: seq<ShapelessRecipe>, network: map<nat, Recipe>)
    returns (origins: seq<Origin>)
    requires Publishes(recipes, names, shaped, shapeless, network)
    ensures Lists(recipes, names, origins, shaped, shapeless, network)
  {
    var expansions :|
      ExpandsAll(recipes, names, expansions) && Holds(AllEmitted(recipes, expansions), shaped, shapeless, network);
    var emitted := AllEmitted(recipes, expansions);
    origins := EmissionsOriginate(recipes, names, expansions);
    NetworkIdsAreDense(emitted);
    forall e | e in shaped
      ensures 1 <= e.networkId <= |origins| && ShapedFrom(recipes, names, origins[e.networkId - 1], e)
    {
      ShapedComesFrom(recipes, names, origins, emitted, e);
    }
    forall e | e in shapeless
      ensures 1 <= e.networkId <= |origins| && ShapelessFrom(recipes, names, origins[e.networkId - 1], e)
    {
      ShapelessComesFrom(recipes, names, origins, emitted, e);
    }
    forall k | 0 <= k < |origins| ensures ListedUnder(recipes, origins[k], k, shaped, shapeless, network) {
      IdIsListedUnder(recipes, names, origins, emitted, k);
    }
  }
}
