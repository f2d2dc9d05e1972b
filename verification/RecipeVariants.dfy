/**
 Expanding a Java recipe into concrete Bedrock variants (bedrock/recipes.go):
 every distinct list of alternatives is one group with one choice, and the
 odometer runs through all choices.
 */
module RecipeVariants {
  import opened Options
  import opened Text
  import opened Odometer

  /** A recipe as the Java catalogue describes it; `result` is empty for an unusable output. */
  datatype Kind = ShapedKind | ShapelessKind | FurnaceKind | StonecutterKind | OtherKind

  datatype Recipe = Recipe(name: string, kind: Kind, station: string, width: int, height: int,
                           ingredients: seq<seq<string>>, result: Option<string>)

  datatype Identity = Identity(name: string, metadata: int)

  /** One input cell: empty, or one item. */
  datatype Input = EmptyCell | Item(identity: Identity)

  datatype Variant = Variant(recipeId: string, inputs: seq<Input>)

  /** How Java item names resolve; any table. */
  type Names = map<string, Identity>

  // ----- grouping

  /** How many groups are open: one more than the highest number given so far. */
  function Opened(group: seq<int>): nat {
    if group == [] then 0
    else
      var before, last := Opened(group[..|group| - 1]), group[|group| - 1];
      if last >= before then last + 1 else before
  }

  /** Where ingredient i belongs: nowhere (-1) when it offers no choice, otherwise the group with
      the same key. A group takes the next free number and the alternatives of its first
      ingredient. */
  predicate Placed(ingredients: seq<seq<string>>, groups: seq<seq<string>>, group: seq<int>, i: nat)
    requires i < |ingredients| == |group|
  {
    var alternatives, g := ingredients[i], group[i];
    if |alternatives| <= 1 then g == -1
    else
      && 0 <= g <= Opened(group[..i]) && g < |groups|
      && Separated(groups[g]) == Separated(alternatives)
      && (g == Opened(group[..i]) ==> groups[g] == alternatives)
  }

  predicate KeysDiffer(groups: seq<seq<string>>, g: nat, h: nat)
    requires g < |groups| && h < |groups|
  {
    Separated(groups[g]) != Separated(groups[h])
  }

  predicate AllPlaced(ingredients: seq<seq<string>>, groups: seq<seq<string>>, group: seq<int>) {
    |group| == |ingredients| && forall i :: 0 <= i < |ingredients| ==> Placed(ingredients, groups, group, i)
  }

  predicate AllKeysDiffer(groups: seq<seq<string>>) {
    forall g, h :: 0 <= g < h < |groups| ==> KeysDiffer(groups, g, h)
  }

  /** `group[i]` is the group of ingredient i. */
  predicate Grouped(ingredients: seq<seq<string>>, groups: seq<seq<string>>, group: seq<int>) {
    && AllPlaced(ingredients, groups, group) && AllKeysDiffer(groups)
    && Opened(group) == |groups|
    && (forall i :: 0 <= i < |group| ==> group[i] < |groups|)
    && (forall g :: 0 <= g < |groups| ==> |groups[g]| >= 2)
  }

  predicate NulFreeIngredients(ingredients: seq<seq<string>>) {
    forall i :: 0 <= i < |ingredients| ==> AllNulFree(ingredients[i])
  }

  lemma PlacedMore(ingredients: seq<seq<string>>, groups: seq<seq<string>>, group: seq<int>,
                   alternatives: seq<string>, g: int, groups': seq<seq<string>>, i: nat)
    requires |group| == |ingredients| && i < |ingredients| && Placed(ingredients, groups, group, i)
    requires groups <= groups'
    ensures Placed(ingredients + [alternatives], groups', group + [g], i)
  {
    assert (group + [g])[..i] == group[..i];
  }

  lemma PlacedLast(ingredients: seq<seq<string>>, groups: seq<seq<string>>, group: seq<int>,
                   alternatives: seq<string>, g: int)
    requires |group| == |ingredients|
    requires if |alternatives| <= 1 then g == -1
             else && 0 <= g <= Opened(group) && g < |groups| && Separated(groups[g]) == Separated(alternatives)
                  && (g == Opened(group) ==> groups[g] == alternatives)
    ensures Placed(ingredients + [alternatives], groups, group + [g], |ingredients|)
  {
    assert (group + [g])[..|ingredients|] == group;
  }

  lemma OpenedMore(group: seq<int>, g: int)
    ensures Opened(group + [g]) == if g >= Opened(group) then g + 1 else Opened(group)
  {
    assert (group + [g])[..|group|] == group;
  }

  lemma AllPlacedMore(ingredients: seq<seq<string>>, groups: seq<seq<string>>, group: seq<int>,
                      alternatives: seq<string>, g: int, groups': seq<seq<string>>)
    requires AllPlaced(ingredients, groups, group) && groups <= groups'
    requires Placed(ingredients + [alternatives], groups', group + [g], |ingredients|)
    ensures AllPlaced(ingredients + [alternatives], groups', group + [g])
  {
    forall i | 0 <= i <= |ingredients| ensures Placed(ingredients + [alternatives], groups', group + [g], i) {
      if i < |ingredients| { PlacedMore(ingredients, groups, group, alternatives, g, groups', i); }
    }
  }

  /** One more ingredient that joins no group or an existing one. */
  lemma GroupedJoins(ingredients: seq<seq<string>>, groups: seq<seq<string>>, group: seq<int>,
                     alternatives: seq<string>, g: int)
    requires Grouped(ingredients, groups, group)
    requires if |alternatives| <= 1 then g == -1
             else 0 <= g < |groups| && Separated(groups[g]) == Separated(alternatives)
    ensures Grouped(ingredients + [alternatives], groups, group + [g])
  {
    JoinedPlaced(ingredients, groups, group, alternatives, g);
    OpenedMore(group, g);
  }

  lemma JoinedPlaced(ingredients: seq<seq<string>>, groups: seq<seq<string>>, group: seq<int>,
                     alternatives: seq<string>, g: int)
    requires AllPlaced(ingredients, groups, group) && Opened(group) == |groups|
    requires if |alternatives| <= 1 then g == -1
             else 0 <= g < |groups| && Separated(groups[g]) == Separated(alternatives)
    ensures AllPlaced(ingredients + [alternatives], groups, group + [g])
  {
    PlacedLast(ingredients, groups, group, alternatives, g);
    AllPlacedMore(ingredients, groups, group, alternatives, g, groups);
  }

  /** One more ingredient that opens a new group. */
  lemma GroupedOpens(ingredients: seq<seq<string>>, groups: seq<seq<string>>, group: seq<int>,
                     alternatives: seq<string>)
    requires Grouped(ingredients, groups, group)
    requires |alternatives| >= 2 && AllKeysDiffer(groups + [alternatives])
    ensures Grouped(ingredients + [alternatives], groups + [alternatives], group + [|groups|])
  {
    NewGroupPlaced(ingredients, groups, group, alternatives);
    OpenedMore(group, |groups|);
  }

  lemma NewGroupPlaced(ingredients: seq<seq<string>>, groups: seq<seq<string>>, group: seq<int>,
                       alternatives: seq<string>)
    requires AllPlaced(ingredients, groups, group) && Opened(group) == |groups| && |alternatives| >= 2
    ensures AllPlaced(ingredients + [alternatives], groups + [alternatives], group + [|groups|])
  {
    PlacedLast(ingredients, groups + [alternatives], group, alternatives, |groups|);
    AllPlacedMore(ingredients, groups, group, alternatives, |groups|, groups + [alternatives]);
  }

  lemma KeysDifferMore(groups: seq<seq<string>>, alternatives: seq<string>)
    requires AllKeysDiffer(groups)
    requires forall h :: 0 <= h < |groups| ==> Separated(groups[h]) != Separated(alternatives)
    ensures AllKeysDiffer(groups + [alternatives])
  {
    var groups' := groups + [alternatives];
    forall g, h | 0 <= g < h < |groups'| ensures KeysDiffer(groups', g, h) {
      if h < |groups| { assert KeysDiffer(groups, g, h); }
    }
  }

  method GroupIngredients(ingredients: seq<seq<string>>) returns (groups: seq<seq<string>>, group: seq<int>)
    ensures Grouped(ingredients, groups, group)
  {
    groups, group := [], [];
    var byKey: map<string, nat> := map[];
    for i := 0 to |ingredients|
      invariant Grouped(ingredients[..i], groups, group)
      invariant forall g :: 0 <= g < |groups| ==>
        Separated(groups[g]) in byKey && byKey[Separated(groups[g])] == g
      invariant forall k :: k in byKey ==> byKey[k] < |groups| && Separated(groups[byKey[k]]) == k
    {
      var alternatives := ingredients[i];
      assert ingredients[..i + 1] == ingredients[..i] + [alternatives];
      if |alternatives| <= 1 {
        GroupedJoins(ingredients[..i], groups, group, alternatives, -1);
        group := group + [-1];
        continue;
      }
      var key := Separated(alternatives);
      if key in byKey {
        GroupedJoins(ingredients[..i], groups, group, alternatives, byKey[key]);
        group := group + [byKey[key]];
      } else {
        KeysDifferMore(groups, alternatives);
        GroupedOpens(ingredients[..i], groups, group, alternatives);
        byKey := byKey[key := |groups|];
        group := group + [|groups|];
        groups := groups + [alternatives];
      }
    }
    assert ingredients[..|ingredients|] == ingredients;
  }

  /** Different lists of alternatives never share a key. */
  predicate KeysTellApart(ingredients: seq<seq<string>>) {
    forall i, j :: 0 <= i < |ingredients| && 0 <= j < |ingredients| && ShareKey(ingredients[i], ingredients[j]) ==>
      ingredients[i] == ingredients[j]
  }

  /** Both lists offer a choice, and they have one key. */
  predicate ShareKey(a: seq<string>, b: seq<string>) {
    |a| >= 2 && |b| >= 2 && Separated(a) == Separated(b)
  }

  /** Every group offers each of its ingredients that ingredient's own alternatives. */
  predicate OffersOwn(ingredients: seq<seq<string>>, groups: seq<seq<string>>, group: seq<int>)
    requires Grouped(ingredients, groups, group)
  {
    forall i :: 0 <= i < |ingredients| && group[i] >= 0 ==> groups[group[i]] == ingredients[i]
  }

  lemma {:induction false} FirstOfGroup(ingredients: seq<seq<string>>, groups: seq<seq<string>>, group: seq<int>,
                                        g: nat, n: nat) returns (first: nat)
    requires Grouped(ingredients, groups, group) && n <= |group| && g < Opened(group[..n])
    ensures first < n && group[first] == g < |groups| && ingredients[first] == groups[g]
    ensures g == Opened(group[..first])
  {
    assert group[..n][..n - 1] == group[..n - 1];
    assert Placed(ingredients, groups, group, n - 1);
    if g < Opened(group[..n - 1]) {
      first := FirstOfGroup(ingredients, groups, group, g, n - 1);
    } else {
      first := n - 1;
    }
  }

  /** Grouping by key is grouping by alternatives if and only if the keys tell the lists apart. */
  lemma OffersOwnExactly(ingredients: seq<seq<string>>, groups: seq<seq<string>>, group: seq<int>)
    requires Grouped(ingredients, groups, group)
    ensures OffersOwn(ingredients, groups, group) <==> KeysTellApart(ingredients)
  {
    if KeysTellApart(ingredients) {
      forall i | 0 <= i < |ingredients| && group[i] >= 0 ensures groups[group[i]] == ingredients[i] {
        assert group[..|group|] == group && Placed(ingredients, groups, group, i);
        var first := FirstOfGroup(ingredients, groups, group, group[i], |group|);
        assert Placed(ingredients, groups, group, first);
      }
    }
    if OffersOwn(ingredients, groups, group) {
      forall i, j | 0 <= i < |ingredients| && 0 <= j < |ingredients| && ShareKey(ingredients[i], ingredients[j])
        ensures ingredients[i] == ingredients[j]
      {
        assert Placed(ingredients, groups, group, i);
        assert Placed(ingredients, groups, group, j);
        SameKeySameGroup(ingredients, groups, group, i, j);
      }
    }
  }

  lemma SameKeySameGroup(ingredients: seq<seq<string>>, groups: seq<seq<string>>, group: seq<int>, i: nat, j: nat)
    requires Grouped(ingredients, groups, group) && i < |ingredients| && j < |ingredients|
    requires ShareKey(ingredients[i], ingredients[j])
    ensures group[i] == group[j] >= 0
  {
    assert Placed(ingredients, groups, group, i) && Placed(ingredients, groups, group, j);
    OneGroupPerKey(groups, group[i], group[j]);
  }

  lemma OneGroupPerKey(groups: seq<seq<string>>, g: nat, h: nat)
    requires AllKeysDiffer(groups) && g < |groups| && h < |groups|
    ensures Separated(groups[g]) == Separated(groups[h]) ==> g == h
  {
    if g < h {
      assert KeysDiffer(groups, g, h);
    } else if h < g {
      assert KeysDiffer(groups, h, g);
    }
  }

  /** The grouping of a list of ingredients is unique. */
  lemma GroupingIsUnique(ingredients: seq<seq<string>>, groups: seq<seq<string>>, group: seq<int>,
                         groups': seq<seq<string>>, group': seq<int>)
    requires Grouped(ingredients, groups, group) && Grouped(ingredients, groups', group')
    ensures groups == groups' && group == group'
  {
    SameNumbers(ingredients, groups, group, groups', group', |ingredients|);
    assert group[..|ingredients|] == group && group'[..|ingredients|] == group';
    forall g | 0 <= g < |groups| ensures groups[g] == groups'[g] {
      var first := FirstOfGroup(ingredients, groups, group, g, |group|);
      assert Placed(ingredients, groups, group, first) && Placed(ingredients, groups', group', first);
    }
  }

  lemma {:induction false} SameNumbers(ingredients: seq<seq<string>>, groups: seq<seq<string>>, group: seq<int>,
                                       groups': seq<seq<string>>, group': seq<int>, n: nat)
    requires Grouped(ingredients, groups, group) && Grouped(ingredients, groups', group') && n <= |ingredients|
    ensures group[..n] == group'[..n]
  {
    if n > 0 {
      SameNumbers(ingredients, groups, group, groups', group', n - 1);
      NumberIsDecided(ingredients, groups, group, groups', group', n - 1);
      assert group[..n] == group[..n - 1] + [group[n - 1]] && group'[..n] == group'[..n - 1] + [group'[n - 1]];
    }
  }

  /** The group of an ingredient is decided by the groups of the earlier ones. */
  lemma NumberIsDecided(ingredients: seq<seq<string>>, groups: seq<seq<string>>, group: seq<int>,
                        groups': seq<seq<string>>, group': seq<int>, i: nat)
    requires Grouped(ingredients, groups, group) && Grouped(ingredients, groups', group') && i < |ingredients|
    requires group[..i] == group'[..i]
    ensures group[i] == group'[i]
  {
    JoinsSameGroup(ingredients, groups, group, groups', group', i);
    JoinsSameGroup(ingredients, groups', group', groups, group, i);
    assert Placed(ingredients, groups, group, i) && Placed(ingredients, groups', group', i);
  }

  lemma JoinsSameGroup(ingredients: seq<seq<string>>, groups: seq<seq<string>>, group: seq<int>,
                       groups': seq<seq<string>>, group': seq<int>, i: nat)
    requires Grouped(ingredients, groups, group) && Grouped(ingredients, groups', group') && i < |ingredients|
    requires group[..i] == group'[..i]
    ensures 0 <= group[i] < Opened(group[..i]) ==> group'[i] == group[i]
  {
    if 0 <= group[i] < Opened(group[..i]) {
      var first := FirstOfGroup(ingredients, groups, group, group[i], i);
      assert Placed(ingredients, groups, group, i) && Placed(ingredients, groups, group, first);
      SameKeySameGroup(ingredients, groups', group', first, i);
      assert group[first] == group[..i][first] == group'[first];
    }
  }

  lemma NulFreeKeysTellApart(ingredients: seq<seq<string>>)
    requires NulFreeIngredients(ingredients)
    ensures KeysTellApart(ingredients)
  {
    forall i, j | 0 <= i < |ingredients| && 0 <= j < |ingredients| && ShareKey(ingredients[i], ingredients[j])
      ensures ingredients[i] == ingredients[j]
    {
      SeparatedIsInjective(ingredients[i], ingredients[j]);
    }
  }

  /** With a NUL inside a name two different lists share one group key. */
  lemma NulAlternativesCollide()
    ensures !KeysTellApart([["a\0b", "c"], ["a", "b\0c"]])
  {
    var x, y := ["a\0b", "c"], ["a", "b\0c"];
    assert x[1..] == ["c"] && y[1..] == ["b\0c"];
    assert Separated(["c"]) == "c" && Separated(["b\0c"]) == "b\0c";
    assert Separated(x) == Separated(y) == "a\0b\0c";
    assert |x[0]| != |y[0]|;
    var both := [x, y];
    assert Separated(both[0]) == Separated(both[1]) && both[0] != both[1];
  }

  function Sizes(groups: seq<seq<string>>): seq<nat> {
    seq(|groups|, g requires 0 <= g < |groups| => |groups[g]|)
  }

  // ----- one selection

  /** The item an ingredient stands for under a selection. */
  function Chosen(ingredients: seq<seq<string>>, groups: seq<seq<string>>, group: seq<int>,
                  selection: seq<nat>, i: nat): string
    requires Grouped(ingredients, groups, group) && ValidDigits(Sizes(groups), selection)
    requires i < |ingredients| && ingredients[i] != []
  {
    if group[i] >= 0 then groups[group[i]][selection[group[i]]] else ingredients[i][0]
  }

  /** Equal alternative lists always get the same choice; it is one of the alternatives when the
      keys tell the lists apart. */
  lemma SameAlternativesSameChoice(ingredients: seq<seq<string>>, groups: seq<seq<string>>, group: seq<int>,
                                   selection: seq<nat>, i: nat, j: nat)
    requires Grouped(ingredients, groups, group) && ValidDigits(Sizes(groups), selection)
    requires i < |ingredients| && j < |ingredients|
    requires ingredients[i] != [] && ingredients[i] == ingredients[j]
    ensures Chosen(ingredients, groups, group, selection, i) == Chosen(ingredients, groups, group, selection, j)
    ensures KeysTellApart(ingredients) ==> Chosen(ingredients, groups, group, selection, i) in ingredients[i]
  {
    OffersOwnExactly(ingredients, groups, group);
    assert Placed(ingredients, groups, group, i) && Placed(ingredients, groups, group, j);
    if |ingredients[i]| >= 2 { SameKeySameGroup(ingredients, groups, group, i, j); }
    if group[i] >= 0 {
      assert selection[group[i]] < Sizes(groups)[group[i]];
    }
  }

  /** The selection resolves: every chosen name is known. */
  predicate Resolves(ingredients: seq<seq<string>>, groups: seq<seq<string>>, group: seq<int>,
                     names: Names, selection: seq<nat>)
    requires Grouped(ingredients, groups, group) && ValidDigits(Sizes(groups), selection)
  {
    forall i :: 0 <= i < |ingredients| && ingredients[i] != [] ==>
      Chosen(ingredients, groups, group, selection, i) in names
  }

  function InputsOf(ingredients: seq<seq<string>>, groups: seq<seq<string>>, group: seq<int>,
                    names: Names, selection: seq<nat>): seq<Input>
    requires Grouped(ingredients, groups, group) && ValidDigits(Sizes(groups), selection)
    requires Resolves(ingredients, groups, group, names, selection)
  {
    seq(|ingredients|, i requires 0 <= i < |ingredients| =>
      if ingredients[i] == [] then EmptyCell
      else Item(names[Chosen(ingredients, groups, group, selection, i)]))
  }

  method BuildInputs(ingredients: seq<seq<string>>, groups: seq<seq<string>>, group: seq<int>,
                     names: Names, selection: seq<nat>) returns (inputs: seq<Input>, valid: bool)
    requires Grouped(ingredients, groups, group) && ValidDigits(Sizes(groups), selection)
    ensures valid <==> Resolves(ingredients, groups, group, names, selection)
    ensures valid ==> inputs == InputsOf(ingredients, groups, group, names, selection)
  {
    inputs := [];
    for i := 0 to |ingredients|
      invariant |inputs| == i
      invariant forall j :: 0 <= j < i && ingredients[j] != [] ==>
        Chosen(ingredients, groups, group, selection, j) in names
        && inputs[j] == Item(names[Chosen(ingredients, groups, group, selection, j)])
      invariant forall j :: 0 <= j < i && ingredients[j] == [] ==> inputs[j] == EmptyCell
    {
      if ingredients[i] == [] {
        inputs := inputs + [EmptyCell];
        continue;
      }
      var alternative := ingredients[i][0];
      if group[i] >= 0 {
        alternative := groups[group[i]][selection[group[i]]];
      }
      if alternative !in names {
        return inputs, false;
      }
      inputs := inputs + [Item(names[alternative])];
    }
    valid := true;
  }

  // ----- recipe ids

  const MINECRAFT := "minecraft:"
  const VARIANT_PREFIX := "gocraft:java_1_21_4/"

  function TrimPrefix(s: string, prefix: string): string {
    if prefix <= s then s[|prefix|..] else s
  }

  function VariantId(name: string, n: nat): string {
    if n == 0 then name else VARIANT_PREFIX + TrimPrefix(name, MINECRAFT) + "/" + Decimal(n)
  }

  /** Within one recipe, whatever its name, no two variant numbers give one id. */
  lemma VariantIdsDiffer(name: string, m: nat, n: nat)
    requires VariantId(name, m) == VariantId(name, n)
    ensures m == n
  {
    var path := TrimPrefix(name, MINECRAFT);
    if m == 0 && n != 0 { NumberedIdIsNotTheName(name, n); }
    if n == 0 && m != 0 { NumberedIdIsNotTheName(name, m); }
    if m != 0 && n != 0 {
      var start := VARIANT_PREFIX + path + "/";
      assert VariantId(name, m)[|start|..] == Decimal(m);
      assert VariantId(name, n)[|start|..] == Decimal(n);
      DecimalIsInjective(m, n);
    }
  }

  lemma NumberedIdIsNotTheName(name: string, n: nat)
    requires n > 0
    ensures VariantId(name, n) != name
  {
    if MINECRAFT <= name {
      assert name[0] == 'm';
      assert VariantId(name, n)[0] == 'g';
    } else {
      assert |VariantId(name, n)| > |name|;
    }
  }

  // ----- all variants

  /** The variants of the selections visited so far, in order; unresolvable ones are left out
      but keep their number. */
  function VariantsOf(recipe: Recipe, groups: seq<seq<string>>, group: seq<int>, names: Names,
                      visited: seq<seq<nat>>): seq<Variant>
    requires Grouped(recipe.ingredients, groups, group) && Counted(Sizes(groups), visited)
  {
    if visited == [] then []
    else
      var n := |visited| - 1;
      VariantsOf(recipe, groups, group, names, visited[..n]) +
      if Resolves(recipe.ingredients, groups, group, names, visited[n])
      then [Variant(VariantId(recipe.name, n), InputsOf(recipe.ingredients, groups, group, names, visited[n]))]
      else []
  }

  /** v is the variant of the k-th visited selection. */
  predicate IsVariant(recipe: Recipe, groups: seq<seq<string>>, group: seq<int>, names: Names,
                      visited: seq<seq<nat>>, k: nat, v: Variant)
    requires Grouped(recipe.ingredients, groups, group) && Counted(Sizes(groups), visited)
  {
    && k < |visited|
    && Resolves(recipe.ingredients, groups, group, names, visited[k])
    && v.recipeId == VariantId(recipe.name, k)
    && v.inputs == InputsOf(recipe.ingredients, groups, group, names, visited[k])
  }

  /** A variant is a resolvable selection, under that selection's number, and conversely. */
  lemma {:induction false} VariantsAreResolvedSelections(
      recipe: Recipe, groups: seq<seq<string>>, group: seq<int>, names: Names, visited: seq<seq<nat>>, v: Variant)
    requires Grouped(recipe.ingredients, groups, group) && Counted(Sizes(groups), visited)
    ensures v in VariantsOf(recipe, groups, group, names, visited) <==>
            exists k :: IsVariant(recipe, groups, group, names, visited, k, v)
  {
    if visited != [] {
      var n := |visited| - 1;
      var front := visited[..n];
      VariantsAreResolvedSelections(recipe, groups, group, names, front, v);
      forall k: nat ensures IsVariant(recipe, groups, group, names, visited, k, v) <==>
                       IsVariant(recipe, groups, group, names, front, k, v)
                       || (k == n && IsVariant(recipe, groups, group, names, visited, n, v)) {
        if k < n { assert front[k] == visited[k]; }
      }
      assert IsVariant(recipe, groups, group, names, visited, n, v) <==>
             Resolves(recipe.ingredients, groups, group, names, visited[n])
             && v in [Variant(VariantId(recipe.name, n), InputsOf(recipe.ingredients, groups, group, names, visited[n]))];
    }
  }

  predicate DistinctIds(variants: seq<Variant>) {
    forall i, j :: 0 <= i < j < |variants| ==> variants[i].recipeId != variants[j].recipeId
  }

  /** No two variants of a recipe share an id. */
  lemma {:induction false} VariantIdsAreDistinct(
      recipe: Recipe, groups: seq<seq<string>>, group: seq<int>, names: Names, visited: seq<seq<nat>>)
    requires Grouped(recipe.ingredients, groups, group) && Counted(Sizes(groups), visited)
    ensures DistinctIds(VariantsOf(recipe, groups, group, names, visited))
  {
    if visited != [] {
      var n := |visited| - 1;
      var front := VariantsOf(recipe, groups, group, names, visited[..n]);
      VariantIdsAreDistinct(recipe, groups, group, names, visited[..n]);
      forall i | 0 <= i < |front| ensures front[i].recipeId != VariantId(recipe.name, n) {
        VariantsAreResolvedSelections(recipe, groups, group, names, visited[..n], front[i]);
        assert front[i] in front;
        var k: nat :| IsVariant(recipe, groups, group, names, visited[..n], k, front[i]);
        if VariantId(recipe.name, k) == VariantId(recipe.name, n) { VariantIdsDiffer(recipe.name, k, n); }
      }
      if Resolves(recipe.ingredients, groups, group, names, visited[n]) {
        var last := Variant(VariantId(recipe.name, n), InputsOf(recipe.ingredients, groups, group, names, visited[n]));
        assert VariantsOf(recipe, groups, group, names, visited) == front + [last];
      } else {
        assert VariantsOf(recipe, groups, group, names, visited) == front;
      }
    }
  }

  /** Every selection whose names all resolve gives a variant, under the selection's number. */
  lemma {:induction false} EveryResolvableChoiceAppears(
      recipe: Recipe, groups: seq<seq<string>>, group: seq<int>, names: Names, visited: seq<seq<nat>>,
      selection: seq<nat>)
    requires Grouped(recipe.ingredients, groups, group)
    requires Counted(Sizes(groups), visited) && |visited| == Product(Sizes(groups))
    requires ValidDigits(Sizes(groups), selection)
    requires Resolves(recipe.ingredients, groups, group, names, selection)
    ensures Variant(VariantId(recipe.name, Value(Sizes(groups), selection)),
                    InputsOf(recipe.ingredients, groups, group, names, selection))
            in VariantsOf(recipe, groups, group, names, visited)
  {
    SweepIsComplete(Sizes(groups), visited, selection);
    var k := Value(Sizes(groups), selection);
    var v := Variant(VariantId(recipe.name, k), InputsOf(recipe.ingredients, groups, group, names, selection));
    VariantsAreResolvedSelections(recipe, groups, group, names, visited, v);
    assert IsVariant(recipe, groups, group, names, visited, k, v);
  }

  /** The variants are those of all selections of the recipe's grouping. */
  ghost predicate Expands(recipe: Recipe, names: Names, variants: seq<Variant>) {
    exists groups, group, visited :: ExpandsBy(recipe, names, variants, groups, group, visited)
  }

  ghost predicate ExpandsBy(recipe: Recipe, names: Names, variants: seq<Variant>, groups: seq<seq<string>>,
                            group: seq<int>, visited: seq<seq<nat>>) {
    && Grouped(recipe.ingredients, groups, group)
    && Counted(Sizes(groups), visited) && |visited| == Product(Sizes(groups))
    && variants == VariantsOf(recipe, groups, group, names, visited)
  }

  // ----- variants as picks of alternatives

  /** One alternative of every ingredient that has any, the same one for equal lists. */
  predicate IsPick(ingredients: seq<seq<string>>, pick: seq<string>) {
    && |pick| == |ingredients|
    && (forall i :: 0 <= i < |pick| && ingredients[i] != [] ==> pick[i] in ingredients[i])
    && forall i, j :: 0 <= i < |pick| && 0 <= j < |pick| && ingredients[i] == ingredients[j] ==> pick[i] == pick[j]
  }

  /** The picked items as input cells, where an ingredient without alternatives leaves its cell empty. */
  predicate Filled(ingredients: seq<seq<string>>, names: Names, pick: seq<string>, inputs: seq<Input>) {
    && |inputs| == |pick| == |ingredients|
    && forall i :: 0 <= i < |inputs| ==>
         if ingredients[i] == [] then inputs[i] == EmptyCell
         else pick[i] in names && inputs[i] == Item(names[pick[i]])
  }

  ghost predicate Picked(recipe: Recipe, names: Names, inputs: seq<Input>) {
    exists pick :: IsPick(recipe.ingredients, pick) && Filled(recipe.ingredients, names, pick, inputs)
  }

  lemma SelectionIsPick(recipe: Recipe, names: Names, groups: seq<seq<string>>, group: seq<int>, selection: seq<nat>)
    requires Grouped(recipe.ingredients, groups, group) && ValidDigits(Sizes(groups), selection)
    requires Resolves(recipe.ingredients, groups, group, names, selection) && KeysTellApart(recipe.ingredients)
    ensures Picked(recipe, names, InputsOf(recipe.ingredients, groups, group, names, selection))
  {
    var ingredients := recipe.ingredients;
    var pick := seq(|ingredients|, i requires 0 <= i < |ingredients| =>
      if ingredients[i] == [] then "" else Chosen(ingredients, groups, group, selection, i));
    forall i, j | 0 <= i < |pick| && 0 <= j < |pick| && ingredients[i] == ingredients[j]
      ensures pick[i] == pick[j] && (ingredients[i] != [] ==> pick[i] in ingredients[i])
    {
      if ingredients[i] != [] { SameAlternativesSameChoice(ingredients, groups, group, selection, i, j); }
    }
    assert IsPick(ingredients, pick);
    assert Filled(ingredients, names, pick, InputsOf(ingredients, groups, group, names, selection));
  }

  /** The first n digits choose what was picked. */
  predicate Selects(groups: seq<seq<string>>, group: seq<int>, pick: seq<string>, selection: seq<nat>, n: nat)
    requires n <= |groups| && |pick| == |group|
  {
    && |selection| == n
    && (forall g :: 0 <= g < n ==> selection[g] < |groups[g]|)
    && forall i :: 0 <= i < |group| && 0 <= group[i] < n ==> groups[group[i]][selection[group[i]]] == pick[i]
  }

  lemma {:induction false} PickIsSelection(ingredients: seq<seq<string>>, groups: seq<seq<string>>, group: seq<int>,
                                           pick: seq<string>, n: nat)
    returns (selection: seq<nat>)
    requires Grouped(ingredients, groups, group) && OffersOwn(ingredients, groups, group)
    requires IsPick(ingredients, pick) && n <= |groups|
    ensures Selects(groups, group, pick, selection, n)
  {
    if n == 0 {
      selection := [];
    } else {
      var before := PickIsSelection(ingredients, groups, group, pick, n - 1);
      assert group[..|group|] == group;
      var first := FirstOfGroup(ingredients, groups, group, n - 1, |group|);
      var d :| 0 <= d < |ingredients[first]| && ingredients[first][d] == pick[first];
      selection := before + [d];
      forall i | 0 <= i < |group| && 0 <= group[i] < n ensures groups[group[i]][selection[group[i]]] == pick[i] {
        if group[i] == n - 1 { assert ingredients[i] == ingredients[first]; }
      }
    }
  }

  lemma SelectedIsPicked(recipe: Recipe, names: Names, groups: seq<seq<string>>, group: seq<int>, pick: seq<string>,
                         selection: seq<nat>, inputs: seq<Input>)
    requires Grouped(recipe.ingredients, groups, group) && IsPick(recipe.ingredients, pick)
    requires Selects(groups, group, pick, selection, |groups|) && Filled(recipe.ingredients, names, pick, inputs)
    ensures ValidDigits(Sizes(groups), selection) && Resolves(recipe.ingredients, groups, group, names, selection)
    ensures inputs == InputsOf(recipe.ingredients, groups, group, names, selection)
  {
    forall i | 0 <= i < |recipe.ingredients| && recipe.ingredients[i] != []
      ensures Chosen(recipe.ingredients, groups, group, selection, i) == pick[i]
    {
      assert Placed(recipe.ingredients, groups, group, i);
    }
  }

  /** When keys tell lists of alternatives apart, the variants are exactly the picks: every way to
      take one known alternative per ingredient, equal lists alike, and nothing else. */
  lemma VariantsAreThePicks(recipe: Recipe, names: Names, variants: seq<Variant>, inputs: seq<Input>)
    requires Expands(recipe, names, variants) && KeysTellApart(recipe.ingredients)
    ensures (exists v :: v in variants && v.inputs == inputs) <==> Picked(recipe, names, inputs)
  {
    var groups, group, visited :| ExpandsBy(recipe, names, variants, groups, group, visited);
    if v :| v in variants && v.inputs == inputs {
      VariantsAreResolvedSelections(recipe, groups, group, names, visited, v);
      var k :| IsVariant(recipe, groups, group, names, visited, k, v);
      SelectionIsPick(recipe, names, groups, group, visited[k]);
    }
    if Picked(recipe, names, inputs) {
      var pick :| IsPick(recipe.ingredients, pick) && Filled(recipe.ingredients, names, pick, inputs);
      OffersOwnExactly(recipe.ingredients, groups, group);
      var selection := PickIsSelection(recipe.ingredients, groups, group, pick, |groups|);
      SelectedIsPicked(recipe, names, groups, group, pick, selection, inputs);
      EveryResolvableChoiceAppears(recipe, groups, group, names, visited, selection);
    }
  }

  /** A recipe has one expansion. */
  lemma ExpansionIsUnique(recipe: Recipe, names: Names, a: seq<Variant>, b: seq<Variant>)
    requires Expands(recipe, names, a) && Expands(recipe, names, b)
    ensures a == b
  {
    var groups, group, visited :| ExpandsBy(recipe, names, a, groups, group, visited);
    var groups', group', visited' :| ExpandsBy(recipe, names, b, groups', group', visited');
    GroupingIsUnique(recipe.ingredients, groups, group, groups', group');
    forall k | 0 <= k < |visited| ensures visited[k] == visited'[k] {
      SameValueSameDigits(Sizes(groups), visited[k], visited'[k]);
    }
    assert visited == visited';
  }

  /** No two variants of an expansion share an id. */
  lemma ExpansionHasDistinctIds(recipe: Recipe, names: Names, variants: seq<Variant>)
    requires Expands(recipe, names, variants)
    ensures DistinctIds(variants)
  {
    var groups, group, visited :| ExpandsBy(recipe, names, variants, groups, group, visited);
    VariantIdsAreDistinct(recipe, groups, group, names, visited);
  }

  /** The sweep has visited `number` selections and stands at the next one, or has ended. */
  ghost predicate SweptTo(sizes: seq<nat>, digits: seq<nat>, visited: seq<seq<nat>>, number: nat, done: bool) {
    && |digits| == |sizes| && Counted(sizes, visited) && |visited| == number
    && if done then number == Product(sizes)
       else ValidDigits(sizes, digits) && Value(sizes, digits) == number < Product(sizes)
  }

  lemma SweepStarts(sizes: seq<nat>)
    requires ValidDigits(sizes, Zeros(|sizes|))
    ensures SweptTo(sizes, Zeros(|sizes|), [], 0, false)
  {
    ZerosAreFirst(sizes);
    ValueBelowProduct(sizes, Zeros(|sizes|));
  }

  lemma SweepStep(sizes: seq<nat>, selection: seq<nat>, visited: seq<seq<nat>>, number: nat, next: seq<nat>, done: bool)
    requires SweptTo(sizes, selection, visited, number, false) && |next| == |sizes|
    requires done <==> Next(sizes, selection).None?
    requires !done ==> Some(next) == Next(sizes, selection)
    ensures SweptTo(sizes, next, visited + [selection], number + 1, done)
  {
    NextAddsOne(sizes, selection);
    if !done { ValueBelowProduct(sizes, next); }
  }

  /** Runs through every selection once, in lexicographic order, and keeps the resolvable ones. */
  method JavaIngredientVariants(recipe: Recipe, names: Names)
    returns (variants: seq<Variant>)
    ensures Expands(recipe, names, variants)
  {
    var alternatives, ingredientGroup := GroupIngredients(recipe.ingredients);
    var sizes := Sizes(alternatives);
    var selected := new nat[|alternatives|](i => 0);
    variants := [];
    ghost var visited: seq<seq<nat>> := [];
    var variantNumber := 0;
    var done := false;
    assert selected[..] == Zeros(|sizes|);
    SweepStarts(sizes);
    while !done
      invariant SweptTo(sizes, selected[..], visited, variantNumber, done)
      invariant variants == VariantsOf(recipe, alternatives, ingredientGroup, names, visited)
      decreases Product(sizes) - variantNumber, !done
    {
      var selection := selected[..];
      var inputs, valid := BuildInputs(recipe.ingredients, alternatives, ingredientGroup, names, selection);
      assert (visited + [selection])[..variantNumber] == visited;
      if valid {
        variants := variants + [Variant(VariantId(recipe.name, variantNumber), inputs)];
      }
      variantNumber := variantNumber + 1;
      done := Advance(selected, sizes);
      SweepStep(sizes, selection, visited, variantNumber - 1, selected[..], done);
      visited := visited + [selection];
    }
    assert ExpandsBy(recipe, names, variants, alternatives, ingredientGroup, visited);
  }
}
