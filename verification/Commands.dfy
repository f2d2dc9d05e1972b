/**
 Flattening a command tree into Bedrock's flat signatures (bedrock/commands.go).
 Every path to something runnable is one overload, at most 32 per command, and
 enums and their values are interned in two append-only tables.
 */
module Commands {
  import opened Options
  import opened Text

  const MAXIMUM_OVERLOADS := 32

  // ----- the tree and what it means

  datatype ArgType = ArgInteger | ArgDecimal | ArgPlayer | ArgBlockPos | ArgGreedy | ArgEnum | ArgOther

  /** `Foreign` is a node that is neither a literal nor an argument. */
  datatype Node =
    | Literal(name: string, executable: bool, children: seq<Node>)
    | Argument(name: string, argType: ArgType, options: seq<string>, executable: bool, children: seq<Node>)
    | Foreign

  datatype BasicType = IntType | FloatType | TargetType | BlockPositionType | MessageType | StringType

  /** What a parameter offers: a basic type, or one of an enum's options. */
  datatype Meaning = Plain(basic: BasicType) | OneOf(enumName: string, options: seq<string>)

  datatype Token = Token(name: string, meaning: Meaning)

  function BasicOf(t: ArgType): BasicType {
    match t
    case ArgInteger => IntType
    case ArgDecimal => FloatType
    case ArgPlayer => TargetType
    case ArgBlockPos => BlockPositionType
    case ArgGreedy => MessageType
    case ArgEnum => StringType
    case ArgOther => StringType
  }

  function TokenOf(node: Node): Token
    requires !node.Foreign?
  {
    match node
    case Literal(name, _, _) => Token(name, OneOf(name, [name]))
    case Argument(name, argType, options, _, _) =>
      if argType == ArgEnum && options != [] then Token(name, OneOf(name, options))
      else Token(name, Plain(BasicOf(argType)))
  }

  type Path = seq<Token>

  /** The paths to executable nodes, in pre-order, each behind a prefix. */
  function Paths(nodes: seq<Node>, prefix: Path): seq<Path>
    decreases nodes, 0
  {
    if nodes == [] then []
    else Paths(nodes[..|nodes| - 1], prefix) + PathsThrough(nodes[|nodes| - 1], prefix)
  }

  function PathsThrough(node: Node, prefix: Path): seq<Path>
    decreases node, 1
  {
    if node.Foreign? then []
    else
      var path := prefix + [TokenOf(node)];
      (if node.executable then [path] else []) + Paths(node.children, path)
  }

  /** All signatures of a command: the empty one when it runs on its own, then every path. */
  function Signatures(command: Node): seq<Path>
    requires command.Literal?
  {
    (if command.executable then [[]] else []) + Paths(command.children, [])
  }

  function First(paths: seq<Path>, n: int): seq<Path> {
    if n <= 0 then [] else if n < |paths| then paths[..n] else paths
  }

  lemma {:induction false} PathsPrefix(nodes: seq<Node>, prefix: Path, i: nat)
    requires i <= |nodes|
    ensures Paths(nodes[..i], prefix) <= Paths(nodes, prefix)
  {
    if i == |nodes| {
      assert nodes[..i] == nodes;
    } else {
      var front := nodes[..|nodes| - 1];
      PathsPrefix(front, prefix, i);
      assert front[..i] == nodes[..i];
    }
  }

  lemma {:induction false} PathsStep(nodes: seq<Node>, prefix: Path, earlier: seq<Path>, i: nat)
    requires i < |nodes|
    ensures earlier + Paths(nodes[..i + 1], prefix)
            == earlier + Paths(nodes[..i], prefix) + PathsThrough(nodes[i], prefix)
  {
    assert nodes[..i + 1][..i] == nodes[..i];
  }

  lemma {:induction false} ThroughNode(node: Node, prefix: Path, earlier: seq<Path>)
    requires !node.Foreign?
    ensures var path := prefix + [TokenOf(node)];
            earlier + PathsThrough(node, prefix)
            == (if node.executable then earlier + [path] else earlier) + Paths(node.children, path)
  {
    var path := prefix + [TokenOf(node)];
    var below := Paths(node.children, path);
    if node.executable {
      assert earlier + ([path] + below) == earlier + [path] + below;
    } else {
      assert [] + below == below;
    }
  }

  /** Once the cap is reached the remaining nodes do not matter. */
  lemma CutEarly(nodes: seq<Node>, prefix: Path, earlier: seq<Path>, i: nat, n: nat)
    requires i <= |nodes|
    requires |First(earlier + Paths(nodes[..i], prefix), n)| >= n
    ensures First(earlier + Paths(nodes, prefix), n) == First(earlier + Paths(nodes[..i], prefix), n)
  {
    PathsPrefix(nodes, prefix, i);
  }

  /** No name or option in the tree contains a NUL. */
  predicate NulFreeTree(nodes: seq<Node>)
    decreases nodes, 0
  {
    forall i :: 0 <= i < |nodes| ==> NulFreeNode(nodes[i])
  }

  predicate NulFreeNode(node: Node)
    decreases node, 1
  {
    match node
    case Literal(name, _, children) => NulFree(name) && NulFreeTree(children)
    case Argument(name, _, options, _, children) => NulFree(name) && AllNulFree(options) && NulFreeTree(children)
    case Foreign => true
  }

  // ----- the emitted form

  datatype ParameterType = Basic(basic: BasicType) | EnumIndex(index: nat)

  datatype Parameter = Parameter(name: string, parameterType: ParameterType)

  type Overload = seq<Parameter>

  datatype CommandEnum = CommandEnum(name: string, valueIndices: seq<nat>)

  datatype Tables = Tables(values: seq<string>, enums: seq<CommandEnum>)

  /** The options an enum resolves to. */
  function Resolved(indices: seq<nat>, values: seq<string>): seq<string>
    requires forall i :: 0 <= i < |indices| ==> indices[i] < |values|
  {
    seq(|indices|, i requires 0 <= i < |indices| => values[indices[i]])
  }

  predicate InBounds(e: CommandEnum, values: seq<string>) {
    forall i :: 0 <= i < |e.valueIndices| ==> e.valueIndices[i] < |values|
  }

  /** The key of an emitted enum, read back from the tables. */
  function EnumKey(e: CommandEnum, values: seq<string>): string
    requires InBounds(e, values)
  {
    Key(e.name, Resolved(e.valueIndices, values))
  }

  predicate HasKey(e: CommandEnum, key: string, values: seq<string>) {
    InBounds(e, values) && EnumKey(e, values) == key
  }

  /** What the client reads from a parameter is what the node meant, enums up to their key. */
  predicate Denotes(p: Parameter, token: Token, tables: Tables) {
    && p.name == token.name
    && match (p.parameterType, token.meaning)
       case (Basic(b), Plain(c)) => b == c
       case (EnumIndex(index), OneOf(name, options)) =>
         index < |tables.enums| && HasKey(tables.enums[index], Key(name, options), tables.values)
       case _ => false
  }

  predicate DenotesPath(overload: Overload, path: Path, tables: Tables) {
    |overload| == |path| && forall i :: 0 <= i < |path| ==> Denotes(overload[i], path[i], tables)
  }

  predicate DenotesAll(overloads: seq<Overload>, paths: seq<Path>, tables: Tables) {
    |overloads| == |paths| && forall i :: 0 <= i < |paths| ==> DenotesPath(overloads[i], paths[i], tables)
  }

  predicate Grows(before: Tables, after: Tables) {
    before.values <= after.values && before.enums <= after.enums
  }

  lemma KeyStays(e: CommandEnum, before: seq<string>, after: seq<string>)
    requires InBounds(e, before) && before <= after
    ensures InBounds(e, after) && EnumKey(e, after) == EnumKey(e, before)
  {
    assert Resolved(e.valueIndices, before) == Resolved(e.valueIndices, after);
  }

  lemma DenotesStays(p: Parameter, token: Token, before: Tables, after: Tables)
    requires Denotes(p, token, before) && Grows(before, after)
    ensures Denotes(p, token, after)
  {
    match (p.parameterType, token.meaning)
    case (EnumIndex(index), OneOf(name, options)) =>
      KeyStays(before.enums[index], before.values, after.values);
    case _ =>
  }

  /** Tables only grow, so what was emitted keeps its meaning. */
  lemma DenotesPathStays(overload: Overload, path: Path, before: Tables, after: Tables)
    requires DenotesPath(overload, path, before) && Grows(before, after)
    ensures DenotesPath(overload, path, after)
  {
    forall i | 0 <= i < |path| ensures Denotes(overload[i], path[i], after) {
      DenotesStays(overload[i], path[i], before, after);
    }
  }

  lemma DenotesAllStays(overloads: seq<Overload>, paths: seq<Path>, before: Tables, after: Tables)
    requires DenotesAll(overloads, paths, before) && Grows(before, after)
    ensures DenotesAll(overloads, paths, after)
  {
    forall i | 0 <= i < |paths| ensures DenotesPath(overloads[i], paths[i], after) {
      DenotesPathStays(overloads[i], paths[i], before, after);
    }
  }

  lemma DenotesLongerPath(overload: Overload, path: Path, p: Parameter, token: Token, tables: Tables)
    requires DenotesPath(overload, path, tables) && Denotes(p, token, tables)
    ensures DenotesPath(overload + [p], path + [token], tables)
  {
  }

  lemma DenotesOneMore(overloads: seq<Overload>, paths: seq<Path>, overload: Overload, path: Path, tables: Tables)
    requires DenotesAll(overloads, paths, tables) && DenotesPath(overload, path, tables)
    ensures DenotesAll(overloads + [overload], paths + [path], tables)
  {
  }

  // ----- interning keys

  function JoinOptions(options: seq<string>): string {
    Terminated(Sorted(options))
  }

  function Key(name: string, options: seq<string>): string {
    name + [NUL] + JoinOptions(options)
  }

  /** Two enums share a key exactly when they have one name and the same options in some order. */
  lemma KeyIdentifiesEnum(name: string, options: seq<string>, name': string, options': seq<string>)
    requires NulFree(name) && AllNulFree(options) && NulFree(name') && AllNulFree(options')
    ensures Key(name, options) == Key(name', options')
            <==> name == name' && multiset(options) == multiset(options')
  {
    SortedSorts(options);
    SortedSorts(options');
    SortedNulFree(options);
    SortedNulFree(options');
    if Key(name, options) == Key(name', options') {
      FirstPartIsUnique(name, JoinOptions(options), name', JoinOptions(options'));
      TerminatedIsInjective(Sorted(options), Sorted(options'));
    }
    if multiset(options) == multiset(options') { SameOptionsSameKey(options, options'); }
  }

  /** The key does not depend on the order of the options. */
  lemma SameOptionsSameKey(options: seq<string>, options': seq<string>)
    requires multiset(options) == multiset(options')
    ensures JoinOptions(options) == JoinOptions(options')
  {
    SortedSorts(options);
    SortedSorts(options');
    OrderedIsUnique(Sorted(options), Sorted(options'));
  }

  lemma SortedNulFree(options: seq<string>)
    requires AllNulFree(options)
    ensures AllNulFree(Sorted(options))
  {
    SortedSorts(options);
    forall i | 0 <= i < |Sorted(options)| ensures NulFree(Sorted(options)[i]) {
      assert Sorted(options)[i] in multiset(options);
      var k :| 0 <= k < |options| && options[k] == Sorted(options)[i];
    }
  }

  /** With a NUL inside an option two different enums share one key. */
  lemma NulOptionsCollide()
    ensures Key("e", ["a\0b"]) == Key("e", ["a", "b"]) && multiset(["a\0b"]) != multiset(["a", "b"])
  {
    assert Sorted(["a\0b"]) == ["a\0b"] by {
      assert ["a\0b"][1..] == [];
    }
    assert Sorted(["a", "b"]) == ["a", "b"] by {
      assert ["a", "b"][1..] == ["b"] && ["b"][1..] == [];
      assert Sorted(["b"]) == ["b"];
      assert Less("a", "b");
    }
    assert ["a", "b"][1..] == ["b"] && ["b"][1..] == [] && ["a\0b"][1..] == [];
    assert Terminated(["b"]) == "b\0";
    assert Terminated(["a", "b"]) == "a\0b\0";
    assert Terminated(["a\0b"]) == "a\0b\0";
    assert |multiset(["a\0b"])| == 1 && |multiset(["a", "b"])| == 2;
  }

  // ----- what the walk asks for

  /** An enum as a node asks for it. */
  datatype Spec = Spec(name: string, options: seq<string>)

  function SpecsOf(node: Node): seq<Spec> {
    match node
    case Literal(name, _, _) => [Spec(name, [name])]
    case Argument(name, argType, options, _, _) =>
      if argType == ArgEnum && options != [] then [Spec(name, options)] else []
    case Foreign => []
  }

  /** How many paths lead to executable nodes. */
  function PathCount(nodes: seq<Node>): nat
    decreases nodes, 0
  {
    if nodes == [] then 0 else PathCount(nodes[..|nodes| - 1]) + PathCountThrough(nodes[|nodes| - 1])
  }

  function PathCountThrough(node: Node): nat
    decreases node, 1
  {
    if node.Foreign? then 0 else (if node.executable then 1 else 0) + PathCount(node.children)
  }

  /** The enums the capped walk asks for when there are `count` overloads already, in order. */
  function Asked(nodes: seq<Node>, count: nat): seq<Spec>
    decreases nodes, 0
  {
    if nodes == [] then []
    else
      var n := |nodes| - 1;
      var front := nodes[..n];
      Asked(front, count) + AskedThrough(nodes[n], count + PathCount(front))
  }

  function AskedThrough(node: Node, count: nat): seq<Spec>
    decreases node, 1
  {
    if node.Foreign? || count >= MAXIMUM_OVERLOADS then []
    else SpecsOf(node) + Asked(node.children, if node.executable then count + 1 else count)
  }

  function AskedFor(command: Node): seq<Spec>
    requires command.Literal?
  {
    Asked(command.children, if command.executable then 1 else 0)
  }

  /** The enums asked for while all commands are rendered. */
  function AskedByAll(nodes: seq<Node>): seq<Spec> {
    if nodes == [] then []
    else
      var last := nodes[|nodes| - 1];
      AskedByAll(nodes[..|nodes| - 1]) + if last.Literal? then AskedFor(last) else []
  }

  lemma {:induction false} PathsAreCounted(nodes: seq<Node>, prefix: Path)
    ensures |Paths(nodes, prefix)| == PathCount(nodes)
    decreases nodes, 0
  {
    if nodes != [] {
      var n := |nodes| - 1;
      PathsAreCounted(nodes[..n], prefix);
      PathsThroughAreCounted(nodes[n], prefix);
    }
  }

  lemma {:induction false} PathsThroughAreCounted(node: Node, prefix: Path)
    ensures |PathsThrough(node, prefix)| == PathCountThrough(node)
    decreases node, 1
  {
    if !node.Foreign? { PathsAreCounted(node.children, prefix + [TokenOf(node)]); }
  }

  /** One more node: its own count and, behind what was asked before, its own enums. */
  lemma {:induction false} AskedStep(nodes: seq<Node>, i: nat, count: nat, prefix: Path, before: seq<Spec>)
    requires i < |nodes| && count + |Paths(nodes[..i], prefix)| < MAXIMUM_OVERLOADS
    ensures before + Asked(nodes[..i + 1], count) ==
            before + Asked(nodes[..i], count) + AskedThrough(nodes[i], count + |Paths(nodes[..i], prefix)|)
  {
    PathsAreCounted(nodes[..i], prefix);
    var all := nodes[..i + 1];
    assert all[..i] == nodes[..i] && all[i] == nodes[i];
    AskedUnfolds(all, i, count);
    Regroup(before, Asked(nodes[..i], count), AskedThrough(nodes[i], count + |Paths(nodes[..i], prefix)|));
  }

  lemma {:induction false} AskedUnfolds(all: seq<Node>, n: nat, count: nat)
    requires n == |all| - 1
    ensures Asked(all, count) == Asked(all[..n], count) + AskedThrough(all[n], count + PathCount(all[..n]))
  {
  }

  lemma Regroup(a: seq<Spec>, b: seq<Spec>, c: seq<Spec>)
    ensures a + (b + c) == a + b + c
  {
  }

  lemma {:induction false} AskedThroughNode(node: Node, count: nat, before: seq<Spec>)
    requires !node.Foreign? && count < MAXIMUM_OVERLOADS
    ensures before + AskedThrough(node, count) ==
            before + SpecsOf(node) + Asked(node.children, if node.executable then count + 1 else count)
  {
  }

  /** How far the walk has come: the paths met and the enums asked for under the first i nodes. */
  ghost predicate Walked(nodes: seq<Node>, i: nat, prefix: Path, earlier: seq<Path>, done: seq<Path>,
                         before: seq<Spec>, asked: seq<Spec>) {
    && i <= |nodes|
    && done == earlier + Paths(nodes[..i], prefix)
    && asked == before + Asked(nodes[..i], |earlier|)
  }

  /** The walk is over, with or without reaching the cap. */
  ghost predicate Finished(nodes: seq<Node>, prefix: Path, earlier: seq<Path>, done: seq<Path>,
                           before: seq<Spec>, asked: seq<Spec>) {
    && done == First(earlier + Paths(nodes, prefix), MAXIMUM_OVERLOADS)
    && asked == before + Asked(nodes, |earlier|)
  }

  /** When the walk below a node is over, so is that of the node. */
  lemma {:induction false} NodeFinished(node: Node, prefix: Path, earlier: seq<Path>, through: seq<Path>, done: seq<Path>,
                                        before: seq<Spec>, known: seq<Spec>, asked: seq<Spec>)
    requires !node.Foreign? && |earlier| < MAXIMUM_OVERLOADS
    requires through == if node.executable then earlier + [prefix + [TokenOf(node)]] else earlier
    requires known == before + SpecsOf(node)
    requires Finished(node.children, prefix + [TokenOf(node)], through, done, known, asked)
    ensures done == First(earlier + PathsThrough(node, prefix), MAXIMUM_OVERLOADS)
    ensures asked == before + AskedThrough(node, |earlier|)
  {
    ThroughNode(node, prefix, earlier);
    AskedThroughNode(node, |earlier|, before);
  }

  /** Starting with 32 overloads, the walk is over at once. */
  lemma FinishedAtOnce(nodes: seq<Node>, prefix: Path, earlier: seq<Path>, before: seq<Spec>)
    requires |earlier| == MAXIMUM_OVERLOADS
    ensures Finished(nodes, prefix, earlier, earlier, before, before)
  {
    assert nodes[..0] == [];
    AskedCut(nodes, 0, |earlier|);
  }

  lemma FinishedAtEnd(nodes: seq<Node>, prefix: Path, earlier: seq<Path>, done: seq<Path>,
                      before: seq<Spec>, asked: seq<Spec>)
    requires Walked(nodes, |nodes|, prefix, earlier, done, before, asked) && |done| < MAXIMUM_OVERLOADS
    ensures Finished(nodes, prefix, earlier, done, before, asked)
  {
    assert nodes[..|nodes|] == nodes;
  }

  /** One more node: the walk goes on, or the cap is reached and the rest does not matter. */
  lemma WalkedOn(nodes: seq<Node>, i: nat, prefix: Path, earlier: seq<Path>, done: seq<Path>, done': seq<Path>,
                 before: seq<Spec>, asked: seq<Spec>, asked': seq<Spec>)
    requires i < |nodes| && Walked(nodes, i, prefix, earlier, done, before, asked) && |done| < MAXIMUM_OVERLOADS
    requires done' == First(done + PathsThrough(nodes[i], prefix), MAXIMUM_OVERLOADS)
    requires asked' == asked + AskedThrough(nodes[i], |done|)
    ensures if |done'| < MAXIMUM_OVERLOADS then Walked(nodes, i + 1, prefix, earlier, done', before, asked')
            else Finished(nodes, prefix, earlier, done', before, asked')
  {
    PathsStep(nodes, prefix, earlier, i);
    AskedStep(nodes, i, |earlier|, prefix, before);
    if |done'| >= MAXIMUM_OVERLOADS {
      WalkedToCap(nodes, i + 1, prefix, earlier, done', before, asked');
    }
  }

  lemma {:induction false} WalkedToCap(nodes: seq<Node>, i: nat, prefix: Path, earlier: seq<Path>, done: seq<Path>,
                    before: seq<Spec>, asked: seq<Spec>)
    requires i <= |nodes| && |done| >= MAXIMUM_OVERLOADS
    requires done == First(earlier + Paths(nodes[..i], prefix), MAXIMUM_OVERLOADS)
    requires asked == before + Asked(nodes[..i], |earlier|)
    ensures Finished(nodes, prefix, earlier, done, before, asked)
  {
    CutEarly(nodes, prefix, earlier, i, MAXIMUM_OVERLOADS);
    PathsAreCounted(nodes[..i], prefix);
    AskedCut(nodes, i, |earlier|);
  }

  /** Nothing more is asked for once there are 32 overloads. */
  lemma {:induction false} AskedCut(nodes: seq<Node>, i: nat, count: nat)
    requires i <= |nodes| && count + PathCount(nodes[..i]) >= MAXIMUM_OVERLOADS
    ensures Asked(nodes, count) == Asked(nodes[..i], count)
  {
    if i == |nodes| {
      assert nodes[..i] == nodes;
    } else {
      var front := nodes[..|nodes| - 1];
      assert front[..i] == nodes[..i];
      CountGrows(front, i);
      assert count + PathCount(front) >= MAXIMUM_OVERLOADS;
      assert Asked(nodes, count) == Asked(front, count);
      AskedCut(front, i, count);
    }
  }

  lemma {:induction false} CountGrows(nodes: seq<Node>, i: nat)
    requires i <= |nodes|
    ensures PathCount(nodes[..i]) <= PathCount(nodes)
  {
    if i == |nodes| {
      assert nodes[..i] == nodes;
    } else {
      var n := |nodes| - 1;
      assert nodes[..n][..i] == nodes[..i];
      CountGrows(nodes[..n], i);
    }
  }

  // ----- which enum a key stands for

  function SpecKey(spec: Spec): string {
    Key(spec.name, spec.options)
  }

  predicate HasSpecKey(specs: seq<Spec>, key: string) {
    exists i :: 0 <= i < |specs| && SpecKey(specs[i]) == key
  }

  /** The first enum of each key. */
  function Firsts(asked: seq<Spec>): seq<Spec> {
    if asked == [] then []
    else
      var before, last := Firsts(asked[..|asked| - 1]), asked[|asked| - 1];
      if HasSpecKey(before, SpecKey(last)) then before else before + [last]
  }

  /** The enum has this name and, up to reordering, these options. */
  predicate Represents(e: CommandEnum, spec: Spec, values: seq<string>) {
    && e.name == spec.name && InBounds(e, values)
    && multiset(Resolved(e.valueIndices, values)) == multiset(spec.options)
  }

  /** The table holds the first enum asked for under each key, in that order. */
  predicate Interns(enums: seq<CommandEnum>, values: seq<string>, asked: seq<Spec>) {
    && |enums| == |Firsts(asked)|
    && forall i :: 0 <= i < |enums| ==> Represents(enums[i], Firsts(asked)[i], values)
  }

  lemma RepresentsMeansKey(e: CommandEnum, spec: Spec, values: seq<string>)
    requires Represents(e, spec, values)
    ensures HasKey(e, SpecKey(spec), values)
  {
    SameOptionsSameKey(Resolved(e.valueIndices, values), spec.options);
  }

  lemma InternsStays(enums: seq<CommandEnum>, before: seq<string>, after: seq<string>, asked: seq<Spec>)
    requires Interns(enums, before, asked) && before <= after
    ensures Interns(enums, after, asked)
  {
    forall i | 0 <= i < |enums| ensures Represents(enums[i], Firsts(asked)[i], after) {
      assert Resolved(enums[i].valueIndices, before) == Resolved(enums[i].valueIndices, after);
    }
  }

  lemma AskedAgain(ordered: seq<CommandEnum>, enums: map<string, nat>, values: seq<string>, asked: seq<Spec>, spec: Spec)
    requires EnumsIndexed(ordered, enums, values) && Interns(ordered, values, asked) && SpecKey(spec) in enums
    ensures Interns(ordered, values, asked + [spec])
    ensures enums[SpecKey(spec)] < |ordered| && HasKey(ordered[enums[SpecKey(spec)]], SpecKey(spec), values)
  {
    assert (asked + [spec])[..|asked|] == asked;
    var i := enums[SpecKey(spec)];
    RepresentsMeansKey(ordered[i], Firsts(asked)[i], values);
    assert HasSpecKey(Firsts(asked), SpecKey(spec));
  }

  lemma AskedFirst(ordered: seq<CommandEnum>, enums: map<string, nat>, values: seq<string>, asked: seq<Spec>, spec: Spec,
                   indices: seq<nat>)
    requires EnumsIndexed(ordered, enums, values) && Interns(ordered, values, asked) && SpecKey(spec) !in enums
    requires InBounds(CommandEnum(spec.name, indices), values) && Resolved(indices, values) == spec.options
    ensures Interns(ordered + [CommandEnum(spec.name, indices)], values, asked + [spec])
  {
    assert (asked + [spec])[..|asked|] == asked;
    forall i | 0 <= i < |ordered| ensures SpecKey(Firsts(asked)[i]) != SpecKey(spec) {
      RepresentsMeansKey(ordered[i], Firsts(asked)[i], values);
    }
    assert !HasSpecKey(Firsts(asked), SpecKey(spec));
  }

  // ----- the builder

  /** The index inverts the keys of the stored enums. */
  predicate EnumsIndexed(ordered: seq<CommandEnum>, enums: map<string, nat>, values: seq<string>) {
    && (forall i :: 0 <= i < |ordered| ==>
          && InBounds(ordered[i], values)
          && EnumKey(ordered[i], values) in enums && enums[EnumKey(ordered[i], values)] == i)
    && (forall k :: k in enums ==> enums[k] < |ordered| && HasKey(ordered[enums[k]], k, values))
  }

  lemma IndexStays(ordered: seq<CommandEnum>, enums: map<string, nat>, before: seq<string>, after: seq<string>)
    requires EnumsIndexed(ordered, enums, before) && before <= after
    ensures EnumsIndexed(ordered, enums, after)
  {
    forall i | 0 <= i < |ordered|
      ensures InBounds(ordered[i], after) && EnumKey(ordered[i], after) == EnumKey(ordered[i], before)
    {
      KeyStays(ordered[i], before, after);
    }
  }

  lemma IndexOneMore(ordered: seq<CommandEnum>, enums: map<string, nat>, values: seq<string>, e: CommandEnum)
    requires EnumsIndexed(ordered, enums, values) && InBounds(e, values) && EnumKey(e, values) !in enums
    ensures EnumsIndexed(ordered + [e], enums[EnumKey(e, values) := |ordered|], values)
  {
  }

  /** A new enum over a grown value table. */
  lemma InternsOneMore(ordered: seq<CommandEnum>, enums: map<string, nat>, earlier: seq<string>, values: seq<string>,
                       asked: seq<Spec>, spec: Spec, indices: seq<nat>)
    requires EnumsIndexed(ordered, enums, earlier) && Interns(ordered, earlier, asked) && earlier <= values
    requires SpecKey(spec) !in enums
    requires InBounds(CommandEnum(spec.name, indices), values) && Resolved(indices, values) == spec.options
    ensures var e := CommandEnum(spec.name, indices);
            && EnumsIndexed(ordered + [e], enums[SpecKey(spec) := |ordered|], values)
            && Interns(ordered + [e], values, asked + [spec])
            && HasKey(e, SpecKey(spec), values)
  {
    IndexStays(ordered, enums, earlier, values);
    IndexOneMore(ordered, enums, values, CommandEnum(spec.name, indices));
    InternsStays(ordered, earlier, values, asked);
    AskedFirst(ordered, enums, values, asked, spec, indices);
  }

  class CommandBuilder {
    var values: seq<string>
    var valueIndex: map<string, nat>
    var enums: map<string, nat>
    var ordered: seq<CommandEnum>
    ghost var asked: seq<Spec>

    ghost function Now(): Tables
      reads this
    {
      Tables(values, ordered)
    }

    /** The value index inverts the value table, which therefore holds nothing twice. */
    ghost predicate ValuesValid()
      reads this
    {
      && (forall s :: s in valueIndex ==> valueIndex[s] < |values| && values[valueIndex[s]] == s)
      && (forall i :: 0 <= i < |values| ==> values[i] in valueIndex && valueIndex[values[i]] == i)
    }

    ghost predicate Valid()
      reads this
    {
      ValuesValid() && EnumsIndexed(ordered, enums, values) && Interns(ordered, values, asked)
    }

    constructor ()
      ensures Valid() && Now() == Tables([], []) && asked == []
    {
      values, valueIndex, enums, ordered, asked := [], map[], map[], [], [];
    }

    method Value(option: string) returns (index: nat)
      requires ValuesValid()
      modifies this`values, this`valueIndex
      ensures ValuesValid() && old(values) <= values
      ensures index < |values| && values[index] == option
    {
      if option in valueIndex {
        return valueIndex[option];
      }
      index := |values|;
      values := values + [option];
      valueIndex := valueIndex[option := index];
    }

    method ValueIndices(options: seq<string>) returns (indices: seq<nat>)
      requires ValuesValid()
      modifies this`values, this`valueIndex
      ensures ValuesValid() && old(values) <= values
      ensures forall j :: 0 <= j < |indices| ==> indices[j] < |values|
      ensures Resolved(indices, values) == options
    {
      indices := [];
      for i := 0 to |options|
        invariant ValuesValid() && old(values) <= values
        invariant |indices| == i
        invariant forall j :: 0 <= j < i ==> indices[j] < |values| && values[indices[j]] == options[j]
      {
        var v := Value(options[i]);
        indices := indices + [v];
      }
    }

    method Enum(name: string, options: seq<string>) returns (index: nat)
      requires Valid()
      modifies this
      ensures Valid() && Grows(old(Now()), Now())
      ensures index < |ordered| && HasKey(ordered[index], Key(name, options), values)
      ensures asked == old(asked) + [Spec(name, options)]
    {
      var key := Key(name, options);
      ghost var spec := Spec(name, options);
      ghost var before := asked;
      asked := asked + [spec];
      if key in enums {
        AskedAgain(ordered, enums, values, before, spec);
        return enums[key];
      }
      var indices := ValueIndices(options);
      index := |ordered|;
      InternsOneMore(ordered, enums, old(values), values, before, spec, indices);
      ghost var tables := Now();
      ordered := ordered + [CommandEnum(name, indices)];
      enums := enums[key := index];
      assert Grows(tables, Now()) && ValuesValid();
    }

    method ParameterFor(node: Node) returns (p: Parameter)
      requires Valid() && !node.Foreign?
      modifies this
      ensures Valid() && Grows(old(Now()), Now())
      ensures Denotes(p, TokenOf(node), Now())
      ensures asked == old(asked) + SpecsOf(node)
    {
      match node {
        case Literal(name, _, _) =>
          var index := Enum(name, [name]);
          p := Parameter(name, EnumIndex(index));
        case Argument(name, argType, options, _, _) =>
          if argType == ArgEnum && options != [] {
            var index := Enum(name, options);
            p := Parameter(name, EnumIndex(index));
          } else {
            p := Parameter(name, Basic(BasicOf(argType)));
          }
      }
    }

    /** Appends overloads for the paths under `nodes` until there are 32. `meant` is what the
        prefix means and `earlier` what the overloads so far mean. */
    method Walk(nodes: seq<Node>, prefix: Overload, out: seq<Overload>,
                ghost meant: Path, ghost earlier: seq<Path>)
      returns (result: seq<Overload>)
      requires Valid()
      requires DenotesPath(prefix, meant, Now())
      requires DenotesAll(out, earlier, Now()) && |out| <= MAXIMUM_OVERLOADS
      modifies this
      ensures Valid() && Grows(old(Now()), Now())
      ensures Finished(nodes, meant, earlier, First(earlier + Paths(nodes, meant), MAXIMUM_OVERLOADS),
                       old(asked), asked)
      ensures DenotesAll(result, First(earlier + Paths(nodes, meant), MAXIMUM_OVERLOADS), Now())
      decreases nodes
    {
      result := out;
      if |out| >= MAXIMUM_OVERLOADS {
        FinishedAtOnce(nodes, meant, earlier, asked);
        return;
      }
      ghost var done := earlier;
      for i := 0 to |nodes|
        invariant Valid() && Grows(old(Now()), Now())
        invariant DenotesPath(prefix, meant, Now())
        invariant Walked(nodes, i, meant, earlier, done, old(asked), asked)
        invariant DenotesAll(result, done, Now()) && |result| < MAXIMUM_OVERLOADS
      {
        ghost var before, met, known := Now(), done, asked;
        if nodes[i].Foreign? {
          WalkedOn(nodes, i, meant, earlier, met, met, old(asked), known, known);
          continue;
        }
        result, done := WalkNode(nodes[i], prefix, result, meant, done);
        DenotesPathStays(prefix, meant, before, Now());
        WalkedOn(nodes, i, meant, earlier, met, done, old(asked), known, asked);
        if |result| >= MAXIMUM_OVERLOADS {
          return;
        }
      }
      FinishedAtEnd(nodes, meant, earlier, done, old(asked), asked);
    }

    method WalkNode(node: Node, prefix: Overload, out: seq<Overload>, ghost meant: Path, ghost earlier: seq<Path>)
      returns (result: seq<Overload>, ghost done: seq<Path>)
      requires Valid() && !node.Foreign?
      requires DenotesPath(prefix, meant, Now())
      requires DenotesAll(out, earlier, Now()) && |out| < MAXIMUM_OVERLOADS
      modifies this
      ensures Valid() && Grows(old(Now()), Now())
      ensures done == First(earlier + PathsThrough(node, meant), MAXIMUM_OVERLOADS)
      ensures DenotesAll(result, done, Now())
      ensures asked == old(asked) + AskedThrough(node, |out|)
      decreases node
    {
      var parameter := ParameterFor(node);
      DenotesPathStays(prefix, meant, old(Now()), Now());
      DenotesAllStays(out, earlier, old(Now()), Now());
      var path := prefix + [parameter];
      ghost var meaning := meant + [TokenOf(node)];
      DenotesLongerPath(prefix, meant, parameter, TokenOf(node), Now());
      result := out;
      ghost var through := earlier;
      if node.executable {
        DenotesOneMore(out, earlier, path, meaning, Now());
        result := result + [path];
        through := through + [meaning];
      }
      ghost var known := asked;
      result := Walk(node.children, path, result, meaning, through);
      done := First(through + Paths(node.children, meaning), MAXIMUM_OVERLOADS);
      NodeFinished(node, meant, earlier, through, done, old(asked), known, asked);
    }

    method Overloads(command: Node) returns (overloads: seq<Overload>)
      requires Valid() && command.Literal?
      modifies this
      ensures Valid() && Grows(old(Now()), Now())
      ensures |overloads| <= MAXIMUM_OVERLOADS
      ensures DenotesAll(overloads, First(Signatures(command), MAXIMUM_OVERLOADS), Now())
      ensures asked == old(asked) + AskedFor(command)
    {
      overloads := [];
      ghost var earlier: seq<Path> := [];
      if command.executable {
        overloads := [[]];
        earlier := [[]];
      }
      // Walk never exceeds the maximum, so there is nothing to truncate afterwards.
      overloads := Walk(command.children, [], overloads, [], earlier);
    }

    /** Finished tables hold no value twice and no enum twice. */
    method Build() returns (tables: Tables)
      requires Valid()
      ensures tables == Now() && NothingTwice(tables) && Interns(tables.enums, tables.values, asked)
    {
      tables := Tables(values, ordered);
      forall i, j | 0 <= i < j < |ordered|
        ensures !SameEnum(ordered[i], ordered[j], values)
      {
        if SameEnum(ordered[i], ordered[j], values) {
          SameOptionsSameKey(Resolved(ordered[i].valueIndices, values), Resolved(ordered[j].valueIndices, values));
        }
      }
    }
  }

  predicate SameEnum(e: CommandEnum, f: CommandEnum, values: seq<string>)
    requires InBounds(e, values) && InBounds(f, values)
  {
    e.name == f.name && multiset(Resolved(e.valueIndices, values)) == multiset(Resolved(f.valueIndices, values))
  }

  predicate NothingTwice(tables: Tables) {
    && (forall i :: 0 <= i < |tables.enums| ==> InBounds(tables.enums[i], tables.values))
    && (forall i, j :: 0 <= i < j < |tables.values| ==> tables.values[i] != tables.values[j])
    && (forall i, j :: 0 <= i < j < |tables.enums| ==> !SameEnum(tables.enums[i], tables.enums[j], tables.values))
  }

  // ----- when the meaning is exact

  predicate SameSpec(a: Spec, b: Spec) {
    a.name == b.name && multiset(a.options) == multiset(b.options)
  }

  /** The enum agrees with the first one asked for under its key. */
  predicate FirstOfKey(asked: seq<Spec>, spec: Spec) {
    forall i :: 0 <= i < |Firsts(asked)| && SpecKey(Firsts(asked)[i]) == SpecKey(spec) ==> SameSpec(Firsts(asked)[i], spec)
  }

  predicate DenotesExactly(p: Parameter, token: Token, tables: Tables) {
    && Denotes(p, token, tables)
    && (token.meaning.OneOf? ==>
          Represents(tables.enums[p.parameterType.index], Spec(token.meaning.enumName, token.meaning.options),
                     tables.values))
  }

  /** A parameter means exactly what its node meant if and only if the node's enum agrees with the
      first one of its key. */
  lemma DenotesExactlyIff(p: Parameter, token: Token, tables: Tables, asked: seq<Spec>)
    requires Denotes(p, token, tables) && Interns(tables.enums, tables.values, asked)
    ensures DenotesExactly(p, token, tables) <==>
            (token.meaning.OneOf? ==> FirstOfKey(asked, Spec(token.meaning.enumName, token.meaning.options)))
  {
    if token.meaning.OneOf? {
      var index, spec := p.parameterType.index, Spec(token.meaning.enumName, token.meaning.options);
      RepresentsMeansKey(tables.enums[index], Firsts(asked)[index], tables.values);
      FirstOfKeyIs(asked, spec, index);
      RepresentsBoth(tables.enums[index], Firsts(asked)[index], spec, tables.values);
    }
  }

  lemma RepresentsBoth(e: CommandEnum, first: Spec, spec: Spec, values: seq<string>)
    requires Represents(e, first, values)
    ensures Represents(e, spec, values) <==> SameSpec(first, spec)
  {
  }

  lemma FirstOfKeyIs(asked: seq<Spec>, spec: Spec, index: nat)
    requires index < |Firsts(asked)| && SpecKey(Firsts(asked)[index]) == SpecKey(spec)
    ensures FirstOfKey(asked, spec) <==> SameSpec(Firsts(asked)[index], spec)
  {
    FirstsDiffer(asked);
  }

  lemma {:induction false} FirstsDiffer(asked: seq<Spec>)
    ensures forall i, j :: 0 <= i < j < |Firsts(asked)| ==> SpecKey(Firsts(asked)[i]) != SpecKey(Firsts(asked)[j])
  {
    if asked != [] {
      FirstsDiffer(asked[..|asked| - 1]);
    }
  }

  lemma {:induction false} FirstsWereAsked(asked: seq<Spec>)
    ensures forall i :: 0 <= i < |Firsts(asked)| ==> Firsts(asked)[i] in asked
  {
    if asked != [] {
      FirstsWereAsked(asked[..|asked| - 1]);
    }
  }

  lemma {:induction false} AskedHasFirst(asked: seq<Spec>, k: nat)
    requires k < |asked|
    ensures HasSpecKey(Firsts(asked), SpecKey(asked[k]))
  {
    var n := |asked| - 1;
    var before := Firsts(asked[..n]);
    if k < n {
      AskedHasFirst(asked[..n], k);
      var i :| 0 <= i < |before| && SpecKey(before[i]) == SpecKey(asked[k]);
      assert Firsts(asked)[i] == before[i];
    } else if !HasSpecKey(before, SpecKey(asked[n])) {
      assert Firsts(asked)[|before|] == asked[n];
    }
  }

  /** No two enums asked for share a key while they differ. */
  predicate KeysTellApart(asked: seq<Spec>) {
    forall a, b :: a in asked && b in asked && SpecKey(a) == SpecKey(b) ==> SameSpec(a, b)
  }

  /** Every enum asked for stands for itself if and only if keys tell different enums apart. */
  lemma EveryEnumExactly(asked: seq<Spec>)
    ensures (forall spec :: spec in asked ==> FirstOfKey(asked, spec)) <==> KeysTellApart(asked)
  {
    FirstsWereAsked(asked);
    if forall spec :: spec in asked ==> FirstOfKey(asked, spec) {
      forall a, b | a in asked && b in asked && SpecKey(a) == SpecKey(b) ensures SameSpec(a, b) {
        var k :| 0 <= k < |asked| && asked[k] == a;
        AskedHasFirst(asked, k);
        var i :| 0 <= i < |Firsts(asked)| && SpecKey(Firsts(asked)[i]) == SpecKey(a);
        assert SameSpec(Firsts(asked)[i], a) && SameSpec(Firsts(asked)[i], b);
      }
    }
  }

  predicate NulFreeToken(token: Token) {
    match token.meaning
    case Plain(_) => true
    case OneOf(name, options) => NulFree(name) && AllNulFree(options)
  }

  predicate NulFreePaths(paths: seq<Path>) {
    forall i, j :: 0 <= i < |paths| && 0 <= j < |paths[i]| ==> NulFreeToken(paths[i][j])
  }

  predicate NulFreeSpecs(specs: seq<Spec>) {
    forall i :: 0 <= i < |specs| ==> NulFree(specs[i].name) && AllNulFree(specs[i].options)
  }

  lemma {:induction false} AskedAreNulFree(nodes: seq<Node>, count: nat)
    requires NulFreeTree(nodes)
    ensures NulFreeSpecs(Asked(nodes, count))
    decreases nodes, 0
  {
    if nodes != [] {
      var n := |nodes| - 1;
      AskedAreNulFree(nodes[..n], count);
      assert NulFreeNode(nodes[n]);
      if !nodes[n].Foreign? {
        var c := count + PathCount(nodes[..n]);
        AskedAreNulFree(nodes[n].children, if nodes[n].executable then c + 1 else c);
      }
    }
  }

  lemma {:induction false} AllAskedAreNulFree(nodes: seq<Node>)
    requires NulFreeTree(nodes)
    ensures NulFreeSpecs(AskedByAll(nodes))
  {
    if nodes != [] {
      var n := |nodes| - 1;
      AllAskedAreNulFree(nodes[..n]);
      assert NulFreeNode(nodes[n]);
      if nodes[n].Literal? { AskedAreNulFree(nodes[n].children, if nodes[n].executable then 1 else 0); }
    }
  }

  /** NUL-free enums are told apart by their keys. */
  lemma NulFreeIsFirstOfKey(asked: seq<Spec>, spec: Spec)
    requires NulFreeSpecs(asked) && NulFree(spec.name) && AllNulFree(spec.options)
    ensures FirstOfKey(asked, spec)
  {
    FirstsWereAsked(asked);
    forall i | 0 <= i < |Firsts(asked)| && SpecKey(Firsts(asked)[i]) == SpecKey(spec)
      ensures SameSpec(Firsts(asked)[i], spec)
    {
      assert Firsts(asked)[i] in asked;
      KeyIdentifiesEnum(Firsts(asked)[i].name, Firsts(asked)[i].options, spec.name, spec.options);
    }
  }

  lemma {:induction false} PathsAreNulFree(nodes: seq<Node>, prefix: Path)
    requires NulFreeTree(nodes) && NulFreePaths([prefix])
    ensures NulFreePaths(Paths(nodes, prefix))
    decreases nodes, 0
  {
    if nodes != [] {
      var n := |nodes| - 1;
      PathsAreNulFree(nodes[..n], prefix);
      assert NulFreeNode(nodes[n]);
      ThroughIsNulFree(nodes[n], prefix);
    }
  }

  lemma {:induction false} ThroughIsNulFree(node: Node, prefix: Path)
    requires NulFreeNode(node) && NulFreePaths([prefix])
    ensures NulFreePaths(PathsThrough(node, prefix))
    decreases node, 1
  {
    if !node.Foreign? {
      var path := prefix + [TokenOf(node)];
      assert NulFreePaths([path]) by {
        forall j | 0 <= j < |path| ensures NulFreeToken(path[j]) {
          if j < |prefix| { assert path[j] == [prefix][0][j]; }
        }
      }
      PathsAreNulFree(node.children, path);
    }
  }

  // ----- the packet

  datatype Command = Command(name: string, overloads: seq<Overload>)

  datatype AvailableCommands = AvailableCommands(commands: seq<Command>, tables: Tables)

  /** The top-level literals that can be run in some way. */
  function Runnable(nodes: seq<Node>): seq<Node>
    ensures forall i :: 0 <= i < |Runnable(nodes)| ==> Runnable(nodes)[i].Literal? && Runnable(nodes)[i] in nodes
  {
    if nodes == [] then []
    else
      var last := nodes[|nodes| - 1];
      Runnable(nodes[..|nodes| - 1]) + (if last.Literal? && Signatures(last) != [] then [last] else [])
  }

  predicate Renders(commands: seq<Command>, runnable: seq<Node>, tables: Tables)
    requires forall i :: 0 <= i < |runnable| ==> runnable[i].Literal?
  {
    && |commands| == |runnable|
    && forall k :: 0 <= k < |commands| ==>
         && commands[k].name == runnable[k].name
         && DenotesAll(commands[k].overloads, First(Signatures(runnable[k]), MAXIMUM_OVERLOADS), tables)
  }

  /** The packet lists exactly the runnable commands, each with the first 32 of its signatures,
      resolved through the final tables; with none there is no packet. */
  method RenderCommands(children: seq<Node>) returns (packet: Option<AvailableCommands>)
    ensures packet.None? <==> Runnable(children) == []
    ensures packet.Some? ==>
              && Renders(packet.value.commands, Runnable(children), packet.value.tables)
              && NothingTwice(packet.value.tables)
              && Interns(packet.value.tables.enums, packet.value.tables.values, AskedByAll(children))
  {
    if children == [] {
      return None;
    }
    var builder := new CommandBuilder();
    var commands: seq<Command> := [];
    for i := 0 to |children|
      invariant builder.Valid() && fresh(builder)
      invariant Renders(commands, Runnable(children[..i]), builder.Now())
      invariant builder.asked == AskedByAll(children[..i])
    {
      ghost var before := builder.Now();
      assert children[..i + 1][..i] == children[..i];
      var node := children[i];
      if node.Literal? {
        var overloads := builder.Overloads(node);
        RendersStays(commands, Runnable(children[..i]), before, builder.Now());
        RendersMore(commands, Runnable(children[..i]), node, overloads, builder.Now());
        if overloads != [] {
          commands := commands + [Command(node.name, overloads)];
        }
      }
    }
    assert children[..|children|] == children;
    if commands == [] {
      return None;
    }
    var tables := builder.Build();
    packet := Some(AvailableCommands(commands, tables));
  }

  /** A command is added exactly when it has a signature. */
  lemma RendersMore(commands: seq<Command>, runnable: seq<Node>, node: Node, overloads: seq<Overload>, tables: Tables)
    requires forall i :: 0 <= i < |runnable| ==> runnable[i].Literal?
    requires node.Literal? && Renders(commands, runnable, tables)
    requires DenotesAll(overloads, First(Signatures(node), MAXIMUM_OVERLOADS), tables)
    ensures overloads != [] <==> Signatures(node) != []
    ensures Renders(commands + [Command(node.name, overloads)], runnable + [node], tables)
  {
  }

  lemma RendersStays(commands: seq<Command>, runnable: seq<Node>, before: Tables, after: Tables)
    requires forall i :: 0 <= i < |runnable| ==> runnable[i].Literal?
    requires Renders(commands, runnable, before) && Grows(before, after)
    ensures Renders(commands, runnable, after)
  {
    forall k | 0 <= k < |commands|
      ensures DenotesAll(commands[k].overloads, First(Signatures(runnable[k]), MAXIMUM_OVERLOADS), after)
    {
      DenotesAllStays(commands[k].overloads, First(Signatures(runnable[k]), MAXIMUM_OVERLOADS), before, after);
    }
  }

  /** A command with at most 32 signatures keeps them all, in order; no command has more. */
  lemma SmallCommandsAreComplete(command: Node, overloads: seq<Overload>, tables: Tables)
    requires command.Literal?
    requires DenotesAll(overloads, First(Signatures(command), MAXIMUM_OVERLOADS), tables)
    ensures |overloads| <= 32
    ensures |Signatures(command)| <= 32 ==> DenotesAll(overloads, Signatures(command), tables)
    ensures |Signatures(command)| > 32 ==> |overloads| == 32
  {
  }

  /** Every parameter of the packet resolves in the final tables to exactly the name and, up to
      reordering, the options of its node. */
  predicate AllExact(commands: seq<Command>, runnable: seq<Node>, tables: Tables)
    requires forall i :: 0 <= i < |runnable| ==> runnable[i].Literal?
    requires Renders(commands, runnable, tables)
  {
    forall k, o, i :: 0 <= k < |commands| && 0 <= o < |commands[k].overloads| && 0 <= i < |commands[k].overloads[o]| ==>
      ExactAt(commands, runnable, tables, k, o, i)
  }

  predicate ExactAt(commands: seq<Command>, runnable: seq<Node>, tables: Tables, k: nat, o: nat, i: nat)
    requires forall i :: 0 <= i < |runnable| ==> runnable[i].Literal?
    requires Renders(commands, runnable, tables)
    requires k < |commands| && o < |commands[k].overloads| && i < |commands[k].overloads[o]|
  {
    TokenIsThere(commands, runnable, tables, k, o, i);
    DenotesExactly(commands[k].overloads[o][i], First(Signatures(runnable[k]), MAXIMUM_OVERLOADS)[o][i], tables)
  }

  lemma TokenIsThere(commands: seq<Command>, runnable: seq<Node>, tables: Tables, k: nat, o: nat, i: nat)
    requires forall i :: 0 <= i < |runnable| ==> runnable[i].Literal?
    requires Renders(commands, runnable, tables)
    requires k < |commands| && o < |commands[k].overloads| && i < |commands[k].overloads[o]|
    ensures var paths := First(Signatures(runnable[k]), MAXIMUM_OVERLOADS);
            o < |paths| && i < |paths[o]| && Denotes(commands[k].overloads[o][i], paths[o][i], tables)
  {
    var paths := First(Signatures(runnable[k]), MAXIMUM_OVERLOADS);
    assert DenotesPath(commands[k].overloads[o], paths[o], tables);
  }

  /** Every enum on an emitted signature agrees with the first one the walk asked for under its
      key: a condition on the tree alone. */
  predicate TreeTellsApart(children: seq<Node>) {
    var runnable := Runnable(children);
    forall k, o, i :: 0 <= k < |runnable| && 0 <= o < |First(Signatures(runnable[k]), MAXIMUM_OVERLOADS)|
                      && 0 <= i < |First(Signatures(runnable[k]), MAXIMUM_OVERLOADS)[o]| ==>
      TokenTellsApart(AskedByAll(children), First(Signatures(runnable[k]), MAXIMUM_OVERLOADS)[o][i])
  }

  predicate TokenTellsApart(asked: seq<Spec>, token: Token) {
    token.meaning.OneOf? ==> FirstOfKey(asked, Spec(token.meaning.enumName, token.meaning.options))
  }

  /** A packet means exactly what its tree meant if and only if the tree's keys tell its enums apart. */
  lemma RendersExactlyIff(children: seq<Node>, commands: seq<Command>, tables: Tables)
    requires Renders(commands, Runnable(children), tables)
    requires Interns(tables.enums, tables.values, AskedByAll(children))
    ensures AllExact(commands, Runnable(children), tables) <==> TreeTellsApart(children)
  {
    var runnable, asked := Runnable(children), AskedByAll(children);
    forall k, o, i | 0 <= k < |commands| && 0 <= o < |commands[k].overloads| && 0 <= i < |commands[k].overloads[o]|
      ensures var paths := First(Signatures(runnable[k]), MAXIMUM_OVERLOADS);
              && o < |paths| && i < |paths[o]|
              && (ExactAt(commands, runnable, tables, k, o, i) <==> TokenTellsApart(asked, paths[o][i]))
    {
      TokenIsThere(commands, runnable, tables, k, o, i);
      DenotesExactlyIff(commands[k].overloads[o][i], First(Signatures(runnable[k]), MAXIMUM_OVERLOADS)[o][i], tables, asked);
    }
    forall k, o | 0 <= k < |runnable| && 0 <= o < |First(Signatures(runnable[k]), MAXIMUM_OVERLOADS)|
      ensures |commands[k].overloads| == |First(Signatures(runnable[k]), MAXIMUM_OVERLOADS)|
      ensures |commands[k].overloads[o]| == |First(Signatures(runnable[k]), MAXIMUM_OVERLOADS)[o]|
    {
      assert DenotesPath(commands[k].overloads[o], First(Signatures(runnable[k]), MAXIMUM_OVERLOADS)[o], tables);
    }
  }

  /** Names and options without NULs are always told apart. */
  lemma NulFreeTreeTellsApart(children: seq<Node>)
    requires NulFreeTree(children)
    ensures TreeTellsApart(children)
  {
    var runnable, asked := Runnable(children), AskedByAll(children);
    AllAskedAreNulFree(children);
    forall k, o, i | 0 <= k < |runnable| && 0 <= o < |First(Signatures(runnable[k]), MAXIMUM_OVERLOADS)|
                     && 0 <= i < |First(Signatures(runnable[k]), MAXIMUM_OVERLOADS)[o]|
      ensures TokenTellsApart(asked, First(Signatures(runnable[k]), MAXIMUM_OVERLOADS)[o][i])
    {
      assert runnable[k] in children;
      assert NulFreeNode(runnable[k]);
      PathsAreNulFree(runnable[k].children, []);
      var token := First(Signatures(runnable[k]), MAXIMUM_OVERLOADS)[o][i];
      assert NulFreeToken(token);
      if token.meaning.OneOf? { NulFreeIsFirstOfKey(asked, Spec(token.meaning.enumName, token.meaning.options)); }
    }
  }

  function EnumArgument(options: seq<string>): Node {
    Argument("e", ArgEnum, options, true, [])
  }

  /** Two sibling arguments whose packet resolves wrongly: the second one's enum is the first's. */
  const NUL_TREE: seq<Node> := [Literal("c", false, [EnumArgument(["a\0b"]), EnumArgument(["a", "b"])])]

  predicate Leaf(node: Node) {
    !node.Foreign? && node.executable && node.children == []
  }

  lemma LeafPath(node: Node)
    requires Leaf(node)
    ensures PathsThrough(node, []) == [[TokenOf(node)]] && PathCountThrough(node) == 1
    ensures forall count: nat :: count < MAXIMUM_OVERLOADS ==> AskedThrough(node, count) == SpecsOf(node)
  {
    assert [] + [TokenOf(node)] == [TokenOf(node)];
  }

  lemma TwoLeaves(a: Node, b: Node)
    requires Leaf(a) && Leaf(b)
    ensures Paths([a, b], []) == [[TokenOf(a)], [TokenOf(b)]]
    ensures Asked([a, b], 0) == SpecsOf(a) + SpecsOf(b)
  {
    OneLeaf(a);
    LeafPath(b);
    assert [a, b][..1] == [a];
    assert Paths([a, b], []) == Paths([a], []) + PathsThrough(b, []);
    assert Asked([a, b], 0) == Asked([a], 0) + AskedThrough(b, PathCount([a]));
  }

  lemma OneLeaf(a: Node)
    requires Leaf(a)
    ensures Paths([a], []) == [[TokenOf(a)]] && PathCount([a]) == 1 && Asked([a], 0) == SpecsOf(a)
  {
    LeafPath(a);
    assert [a][..0] == [];
    assert PathCount([a]) == PathCount([]) + PathCountThrough(a);
    assert Paths([a], []) == Paths([], []) + PathsThrough(a, []);
    assert Asked([a], 0) == Asked([], 0) + AskedThrough(a, 0);
  }

  lemma NulTreeResolvesWrongly(commands: seq<Command>, tables: Tables)
    requires Renders(commands, Runnable(NUL_TREE), tables)
    requires Interns(tables.enums, tables.values, AskedByAll(NUL_TREE))
    ensures !AllExact(commands, Runnable(NUL_TREE), tables)
  {
    NulTreeAsks();
    SecondIsNotToldApart(NUL_TREE, NUL_TREE[0], Token("e", OneOf("e", ["a\0b"])), Token("e", OneOf("e", ["a", "b"])));
    RendersExactlyIff(NUL_TREE, commands, tables);
  }

  /** One command with two signatures of one token each, the second of which is not the first of its key. */
  lemma SecondIsNotToldApart(children: seq<Node>, command: Node, right: Token, wrong: Token)
    requires command.Literal? && Runnable(children) == [command] && Signatures(command) == [[right], [wrong]]
    requires !TokenTellsApart(AskedByAll(children), wrong)
    ensures !TreeTellsApart(children)
  {
    var runnable := Runnable(children);
    assert runnable[0] == command && First(Signatures(runnable[0]), MAXIMUM_OVERLOADS)[1][0] == wrong;
  }

  lemma NulTreeAsks()
    ensures var right, wrong := Spec("e", ["a\0b"]), Spec("e", ["a", "b"]);
            && AskedByAll(NUL_TREE) == [right, wrong] && !FirstOfKey([right, wrong], wrong)
            && Signatures(NUL_TREE[0]) == [[Token("e", OneOf("e", ["a\0b"]))], [Token("e", OneOf("e", ["a", "b"]))]]
            && Runnable(NUL_TREE) == [NUL_TREE[0]]
  {
    var c := NUL_TREE[0];
    TwoLeaves(c.children[0], c.children[1]);
    assert c.children == [c.children[0], c.children[1]];
    assert NUL_TREE == [c] && [c][..0] == [];
    WrongIsNotFirst(Spec("e", ["a\0b"]), Spec("e", ["a", "b"]));
  }

  lemma WrongIsNotFirst(right: Spec, wrong: Spec)
    requires right == Spec("e", ["a\0b"]) && wrong == Spec("e", ["a", "b"])
    ensures !FirstOfKey([right, wrong], wrong)
  {
    NulOptionsCollide();
    var asked := [right, wrong];
    assert asked[..1] == [right] && [right][..0] == [];
    assert Firsts([right]) == [right];
    assert HasSpecKey([right], SpecKey(wrong)) by { assert SpecKey([right][0]) == SpecKey(wrong); }
    assert Firsts(asked) == [right];
  }

  // ----- the type word on the wire

  /** Bitwise or. */
  function Or(a: nat, b: nat): nat
    decreases a + b
  {
    if a == 0 && b == 0 then 0 else 2 * Or(a / 2, b / 2) + if a % 2 == 1 || b % 2 == 1 then 1 else 0
  }

  /** The lowest k bits. */
  function Low(n: nat, k: nat): nat {
    if k == 0 then 0 else 2 * Low(n / 2, k - 1) + n % 2
  }

  function Shifted(n: nat, k: nat): nat {
    if k == 0 then n else 2 * Shifted(n, k - 1)
  }

  /** The flags 0x100000 and 0x200000 of a parameter type. */
  const ARG_VALID: nat := Shifted(1, 20)
  const ARG_ENUM: nat := Shifted(2, 20)

  /** An enum parameter's type: both flags, and the index as an unsigned 32-bit number. */
  function TypeWord(index: nat): nat {
    Or(Or(ARG_VALID, ARG_ENUM), Low(index, 32))
  }

  /** The index a client reads: the bits below the flags. */
  function IndexIn(word: nat): nat {
    Low(word, 20)
  }

  lemma OrEven(a: nat, b: nat)
    ensures Or(2 * a, b) == 2 * Or(a, b / 2) + b % 2
  {
  }

  lemma {:induction false} OrShifted(a: nat, b: nat, k: nat)
    ensures Or(Shifted(a, k), Shifted(b, k)) == Shifted(Or(a, b), k)
  {
    if k > 0 {
      OrShifted(a, b, k - 1);
      OrEven(Shifted(a, k - 1), Shifted(b, k));
    }
  }

  /** Bits above the lowest k do not change those. */
  lemma {:induction false} OrAboveKeepsLow(a: nat, b: nat, k: nat)
    ensures Low(Or(Shifted(a, k), b), k) == Low(b, k)
  {
    if k > 0 {
      OrAboveKeepsLow(a, b / 2, k - 1);
      OrEven(Shifted(a, k - 1), b);
    }
  }

  lemma LowPushed(high: nat, bit: nat, k: nat)
    requires bit < 2 && k > 0
    ensures Low(2 * high + bit, k) == 2 * Low(high, k - 1) + bit
  {
    assert (2 * high + bit) / 2 == high && (2 * high + bit) % 2 == bit;
  }

  lemma {:induction false} LowOfLow(n: nat, j: nat, k: nat)
    requires k <= j
    ensures Low(Low(n, j), k) == Low(n, k)
  {
    if k > 0 {
      var high := Low(n / 2, j - 1);
      assert Low(n, j) == 2 * high + n % 2;
      LowPushed(high, n % 2, k);
      LowOfLow(n / 2, j - 1, k - 1);
    }
  }

  lemma {:induction false} LowExactly(n: nat, k: nat)
    ensures Low(n, k) == n <==> n < Shifted(1, k)
  {
    if k > 0 { LowExactly(n / 2, k - 1); }
  }

  lemma ShiftedByFour(n: nat, k: nat)
    requires k >= 4
    ensures Shifted(n, k) == 16 * Shifted(n, k - 4)
  {
    assert Shifted(n, k) == 4 * Shifted(n, k - 2) && Shifted(n, k - 2) == 4 * Shifted(n, k - 4);
  }

  lemma {:induction false} ShiftedAdds(n: nat, j: nat, k: nat)
    ensures Shifted(Shifted(n, j), k) == Shifted(n, j + k)
  {
    if k > 0 { ShiftedAdds(n, j, k - 1); }
  }

  lemma FlagValues()
    ensures ARG_VALID == 0x10_0000 && ARG_ENUM == 0x20_0000
  {
    ShiftedByFour(1, 20);
    ShiftedByFour(1, 16);
    ShiftedByFour(1, 12);
    ShiftedByFour(1, 8);
    ShiftedByFour(1, 4);
    ShiftedAdds(1, 1, 20);
    assert Shifted(1, 1) == 2 && Shifted(1, 21) == 2 * Shifted(1, 20);
  }

  lemma TypeWordRoundTrip(index: nat)
    ensures IndexIn(TypeWord(index)) == index <==> index < 0x10_0000
  {
    OrShifted(1, 2, 20);
    OrAboveKeepsLow(Or(1, 2), Low(index, 32), 20);
    LowOfLow(index, 32, 20);
    LowExactly(index, 20);
    FlagValues();
  }

  /** The type word of every enum parameter of a packet leads back to the parameter's enum exactly
      when its index lies below the flags; all do when there are at most 2^20 enums. */
  lemma TypeWordsLeadBack(commands: seq<Command>, runnable: seq<Node>, tables: Tables, k: nat, o: nat, i: nat)
    requires forall i :: 0 <= i < |runnable| ==> runnable[i].Literal?
    requires Renders(commands, runnable, tables)
    requires k < |commands| && o < |commands[k].overloads| && i < |commands[k].overloads[o]|
    requires commands[k].overloads[o][i].parameterType.EnumIndex?
    ensures var index := commands[k].overloads[o][i].parameterType.index;
            && index < |tables.enums|
            && (IndexIn(TypeWord(index)) == index <==> index < 0x10_0000)
            && (|tables.enums| <= 0x10_0000 ==> IndexIn(TypeWord(index)) == index)
  {
    TokenIsThere(commands, runnable, tables, k, o, i);
    TypeWordRoundTrip(commands[k].overloads[o][i].parameterType.index);
  }
}
