/**
 What the signatures of a command are, said by the tree alone (bedrock/commands.go):
 one for every executable node that a chain of literals and arguments leads to, in
 pre-order.
 */
module CommandPaths {
  import opened Options
  import opened Commands

  // ----- addresses in a tree

  /** A chain of positions, one per level, that meets no foreign node. */
  predicate Leads(nodes: seq<Node>, address: seq<nat>)
    decreases |address|
  {
    && address != [] && address[0] < |nodes| && !nodes[address[0]].Foreign?
    && (|address| > 1 ==> Leads(nodes[address[0]].children, address[1..]))
  }

  function NodeAt(nodes: seq<Node>, address: seq<nat>): Node
    requires Leads(nodes, address)
    ensures !NodeAt(nodes, address).Foreign?
    decreases |address|
  {
    if |address| == 1 then nodes[address[0]] else NodeAt(nodes[address[0]].children, address[1..])
  }

  /** What the nodes of a chain mean, from the top down. */
  function TokensTo(nodes: seq<Node>, address: seq<nat>): Path
    requires Leads(nodes, address)
    decreases |address|
  {
    [TokenOf(nodes[address[0]])]
    + if |address| == 1 then [] else TokensTo(nodes[address[0]].children, address[1..])
  }

  predicate RunsAt(nodes: seq<Node>, address: seq<nat>) {
    Leads(nodes, address) && NodeAt(nodes, address).executable
  }

  /** Pre-order: a node comes before those below it, and both before its later siblings. */
  predicate Precedes(a: seq<nat>, b: seq<nat>)
    decreases |a|
  {
    b != [] && (a == [] || a[0] < b[0] || (a[0] == b[0] && Precedes(a[1..], b[1..])))
  }

  predicate InPreOrder(addresses: seq<seq<nat>>) {
    forall i, j :: 0 <= i < j < |addresses| ==> Precedes(addresses[i], addresses[j])
  }

  /** One path for each address, the prefix before the chain's tokens. */
  predicate PathsAt(nodes: seq<Node>, prefix: Path, addresses: seq<seq<nat>>, paths: seq<Path>) {
    && |addresses| == |paths|
    && forall k :: 0 <= k < |paths| ==>
         RunsAt(nodes, addresses[k]) && paths[k] == prefix + TokensTo(nodes, addresses[k])
  }

  /** The addresses are those of all executable nodes, in pre-order, with their paths. */
  ghost predicate ListsAll(nodes: seq<Node>, prefix: Path, addresses: seq<seq<nat>>, paths: seq<Path>) {
    && PathsAt(nodes, prefix, addresses, paths) && InPreOrder(addresses)
    && forall a: seq<nat> :: RunsAt(nodes, a) ==> a in addresses
  }

  // ----- more nodes, deeper nodes

  /** Further siblings change nothing for the chains that start before them. */
  lemma SameInFront(nodes: seq<Node>, n: nat, a: seq<nat>)
    requires n <= |nodes| && a != [] && a[0] < n
    ensures Leads(nodes, a) <==> Leads(nodes[..n], a)
    ensures Leads(nodes, a) ==>
              NodeAt(nodes, a) == NodeAt(nodes[..n], a) && TokensTo(nodes, a) == TokensTo(nodes[..n], a)
  {
  }

  function Below(n: nat, addresses: seq<seq<nat>>): seq<seq<nat>> {
    seq(|addresses|, i requires 0 <= i < |addresses| => [n] + addresses[i])
  }

  /** A chain through node n. */
  lemma ThroughNode(nodes: seq<Node>, n: nat, a: seq<nat>)
    requires n < |nodes| && !nodes[n].Foreign? && a != []
    ensures Leads(nodes, [n] + a) <==> Leads(nodes[n].children, a)
    ensures Leads(nodes, [n] + a) ==>
              && NodeAt(nodes, [n] + a) == NodeAt(nodes[n].children, a)
              && TokensTo(nodes, [n] + a) == [TokenOf(nodes[n])] + TokensTo(nodes[n].children, a)
  {
    assert ([n] + a)[1..] == a;
  }

  lemma ItselfLeads(nodes: seq<Node>, n: nat)
    requires n < |nodes| && !nodes[n].Foreign?
    ensures Leads(nodes, [n]) && NodeAt(nodes, [n]) == nodes[n] && TokensTo(nodes, [n]) == [TokenOf(nodes[n])]
  {
  }

  lemma BelowInOrder(n: nat, addresses: seq<seq<nat>>)
    requires InPreOrder(addresses)
    ensures InPreOrder(Below(n, addresses))
  {
    var all := Below(n, addresses);
    forall i, j | 0 <= i < j < |all| ensures Precedes(all[i], all[j]) {
      assert all[i][1..] == addresses[i] && all[j][1..] == addresses[j];
    }
  }

  /** The addresses of one node: its own when it runs, then those below it. */
  function OfNode(n: nat, runs: bool, below: seq<seq<nat>>): seq<seq<nat>> {
    (if runs then [[n]] else []) + Below(n, below)
  }

  lemma FirstInOrder(first: seq<nat>, rest: seq<seq<nat>>)
    requires InPreOrder(rest) && forall k :: 0 <= k < |rest| ==> Precedes(first, rest[k])
    ensures InPreOrder([first] + rest)
  {
    var all := [first] + rest;
    forall i, j | 0 <= i < j < |all| ensures Precedes(all[i], all[j]) {
      assert all[j] == rest[j - 1];
      if i > 0 { assert all[i] == rest[i - 1]; }
    }
  }

  lemma BelowItsNode(n: nat, below: seq<seq<nat>>, k: nat)
    requires k < |below| && below[k] != []
    ensures Precedes([n], Below(n, below)[k])
  {
    assert Below(n, below)[k][1..] == below[k] && [n][1..] == [];
  }

  lemma OfNodeInOrder(n: nat, runs: bool, below: seq<seq<nat>>)
    requires InPreOrder(below) && forall k :: 0 <= k < |below| ==> below[k] != []
    ensures InPreOrder(OfNode(n, runs, below))
  {
    BelowInOrder(n, below);
    if runs {
      forall k | 0 <= k < |below| ensures Precedes([n], Below(n, below)[k]) {
        BelowItsNode(n, below, k);
      }
      FirstInOrder([n], Below(n, below));
    } else {
      assert OfNode(n, runs, below) == Below(n, below);
    }
  }

  lemma OfNodeStartsThere(n: nat, runs: bool, below: seq<seq<nat>>)
    ensures forall k :: 0 <= k < |OfNode(n, runs, below)| ==>
              OfNode(n, runs, below)[k] != [] && OfNode(n, runs, below)[k][0] == n
  {
  }

  lemma NodePaths(nodes: seq<Node>, n: nat, prefix: Path, below: seq<seq<nat>>)
    requires n < |nodes| && !nodes[n].Foreign?
    requires PathsAt(nodes[n].children, prefix + [TokenOf(nodes[n])], below,
                     Paths(nodes[n].children, prefix + [TokenOf(nodes[n])]))
    ensures PathsAt(nodes, prefix, OfNode(n, nodes[n].executable, below), PathsThrough(nodes[n], prefix))
  {
    var node := nodes[n];
    var path := prefix + [TokenOf(node)];
    var deeper := Paths(node.children, path);
    var all, paths := OfNode(n, node.executable, below), PathsThrough(node, prefix);
    var own := if node.executable then 1 else 0;
    assert paths == (if node.executable then [path] else []) + deeper;
    forall k | 0 <= k < |paths| ensures RunsAt(nodes, all[k]) && paths[k] == prefix + TokensTo(nodes, all[k]) {
      if k < own {
        ItselfLeads(nodes, n);
      } else {
        var a := below[k - own];
        assert all[k] == [n] + a && paths[k] == deeper[k - own];
        ThroughNode(nodes, n, a);
        assert path + TokensTo(node.children, a) == prefix + ([TokenOf(node)] + TokensTo(node.children, a));
      }
    }
  }

  lemma NodeComplete(nodes: seq<Node>, n: nat, below: seq<seq<nat>>, a: seq<nat>)
    requires n < |nodes| && RunsAt(nodes, a) && a[0] == n
    requires forall b: seq<nat> :: RunsAt(nodes[n].children, b) ==> b in below
    ensures a in OfNode(n, nodes[n].executable, below)
  {
    if |a| == 1 {
      assert a == [n];
    } else {
      assert a == [n] + a[1..];
      ThroughNode(nodes, n, a[1..]);
      assert a[1..] in below;
      var k :| 0 <= k < |below| && below[k] == a[1..];
      assert Below(n, below)[k] == a;
    }
  }

  lemma JoinInOrder(front: seq<seq<nat>>, last: seq<seq<nat>>, n: nat)
    requires InPreOrder(front) && InPreOrder(last)
    requires forall k :: 0 <= k < |front| ==> front[k] != [] && front[k][0] < n
    requires forall k :: 0 <= k < |last| ==> last[k] != [] && last[k][0] == n
    ensures InPreOrder(front + last)
  {
  }

  lemma JoinPaths(nodes: seq<Node>, n: nat, prefix: Path, front: seq<seq<nat>>, last: seq<seq<nat>>,
                  frontPaths: seq<Path>, lastPaths: seq<Path>)
    requires n == |nodes| - 1
    requires PathsAt(nodes[..n], prefix, front, frontPaths) && PathsAt(nodes, prefix, last, lastPaths)
    ensures PathsAt(nodes, prefix, front + last, frontPaths + lastPaths)
  {
    forall k | 0 <= k < |front|
      ensures RunsAt(nodes, front[k]) && frontPaths[k] == prefix + TokensTo(nodes, front[k])
    {
      assert RunsAt(nodes[..n], front[k]);
      SameInFront(nodes, n, front[k]);
    }
  }

  /** The paths of a tree are those of all its executable nodes, in pre-order. */
  lemma {:induction false} PathsAreAll(nodes: seq<Node>, prefix: Path) returns (addresses: seq<seq<nat>>)
    ensures ListsAll(nodes, prefix, addresses, Paths(nodes, prefix))
    decreases nodes, 0
  {
    if nodes == [] {
      addresses := [];
    } else {
      var n := |nodes| - 1;
      var front := PathsAreAll(nodes[..n], prefix);
      var last := NodePathsAreAll(nodes, n, prefix);
      addresses := front + last;
      JoinPaths(nodes, n, prefix, front, last, Paths(nodes[..n], prefix), PathsThrough(nodes[n], prefix));
      assert forall k :: 0 <= k < |front| ==> RunsAt(nodes[..n], front[k]);
      JoinInOrder(front, last, n);
      forall a: seq<nat> | RunsAt(nodes, a) ensures a in addresses {
        if a[0] < n { SameInFront(nodes, n, a); }
      }
    }
  }

  lemma {:induction false} NodePathsAreAll(nodes: seq<Node>, n: nat, prefix: Path) returns (addresses: seq<seq<nat>>)
    requires n < |nodes|
    ensures PathsAt(nodes, prefix, addresses, PathsThrough(nodes[n], prefix)) && InPreOrder(addresses)
    ensures forall k :: 0 <= k < |addresses| ==> addresses[k] != [] && addresses[k][0] == n
    ensures forall a: seq<nat> :: RunsAt(nodes, a) && a[0] == n ==> a in addresses
    decreases nodes[n], 1
  {
    if nodes[n].Foreign? {
      addresses := [];
    } else {
      var below := PathsAreAll(nodes[n].children, prefix + [TokenOf(nodes[n])]);
      addresses := OfNode(n, nodes[n].executable, below);
      NodePaths(nodes, n, prefix, below);
      assert forall k :: 0 <= k < |below| ==> RunsAt(nodes[n].children, below[k]);
      OfNodeInOrder(n, nodes[n].executable, below);
      OfNodeStartsThere(n, nodes[n].executable, below);
      forall a: seq<nat> | RunsAt(nodes, a) && a[0] == n ensures a in addresses {
        NodeComplete(nodes, n, below, a);
      }
    }
  }

  // ----- what is listed

  /** The node is a literal that runs by itself, or leads to a node that does. */
  ghost predicate CanRun(node: Node) {
    node.Literal? && (node.executable || exists a: seq<nat> :: RunsAt(node.children, a))
  }

  /** A command has a signature exactly when it can be run. */
  lemma SignedExactly(node: Node)
    requires node.Literal?
    ensures Signatures(node) != [] <==> CanRun(node)
  {
    var addresses := PathsAreAll(node.children, []);
    if Paths(node.children, []) != [] { assert RunsAt(node.children, addresses[0]); }
  }

  lemma NothingBefore(nodes: seq<Node>, addresses: seq<seq<nat>>, paths: seq<Path>, k: nat)
    requires PathsAt(nodes, [], addresses, paths) && k < |paths|
    ensures RunsAt(nodes, addresses[k]) && paths[k] == TokensTo(nodes, addresses[k])
  {
    assert [] + TokensTo(nodes, addresses[k]) == TokensTo(nodes, addresses[k]);
  }

  /** The empty signature when the command runs by itself, then the tokens on the way to each address. */
  predicate SignaturesAt(node: Node, addresses: seq<seq<nat>>, signatures: seq<Path>)
    requires node.Literal?
  {
    var own := if node.executable then 1 else 0;
    && |signatures| == own + |addresses|
    && (node.executable ==> signatures[0] == [])
    && forall k :: 0 <= k < |addresses| ==>
         RunsAt(node.children, addresses[k]) && signatures[own + k] == TokensTo(node.children, addresses[k])
  }

  lemma PathsAreSignatures(node: Node, addresses: seq<seq<nat>>, paths: seq<Path>, signatures: seq<Path>)
    requires node.Literal? && PathsAt(node.children, [], addresses, paths)
    requires signatures == (if node.executable then [[]] else []) + paths
    ensures SignaturesAt(node, addresses, signatures)
  {
    var own := if node.executable then 1 else 0;
    forall k | 0 <= k < |addresses|
      ensures RunsAt(node.children, addresses[k]) && signatures[own + k] == TokensTo(node.children, addresses[k])
    {
      NothingBefore(node.children, addresses, paths, k);
      assert signatures[own + k] == paths[k];
    }
  }

  /** The signatures of a command: the empty one when it runs by itself, then one for every executable
      node below it, in pre-order, with the tokens on the way to it. */
  lemma SignaturesArePreOrder(node: Node) returns (addresses: seq<seq<nat>>)
    requires node.Literal?
    ensures SignaturesAt(node, addresses, Signatures(node))
    ensures InPreOrder(addresses) && forall a: seq<nat> :: RunsAt(node.children, a) ==> a in addresses
  {
    addresses := PathsAreAll(node.children, []);
    PathsAreSignatures(node, addresses, Paths(node.children, []), Signatures(node));
  }

  /** What a node's token says: a literal is an enum of itself, a listing argument an enum of its
      options, and every other argument a basic type. */
  lemma TokensMean(node: Node)
    requires !node.Foreign?
    ensures TokenOf(node).name == node.name
    ensures node.Literal? ==> TokenOf(node).meaning == OneOf(node.name, [node.name])
    ensures node.Argument? ==>
              var listing := node.argType == ArgEnum && node.options != [];
              && (listing ==> TokenOf(node).meaning == OneOf(node.name, node.options))
              && (!listing ==> TokenOf(node).meaning.Plain?
                               && (TokenOf(node).meaning.basic == IntType <==> node.argType == ArgInteger)
                               && (TokenOf(node).meaning.basic == FloatType <==> node.argType == ArgDecimal)
                               && (TokenOf(node).meaning.basic == TargetType <==> node.argType == ArgPlayer)
                               && (TokenOf(node).meaning.basic == BlockPositionType <==> node.argType == ArgBlockPos)
                               && (TokenOf(node).meaning.basic == MessageType <==> node.argType == ArgGreedy))
  {
  }

  /** The commands are the top-level literals at these positions, and those are all that can be run. */
  ghost predicate ListedAt(nodes: seq<Node>, runnable: seq<Node>, positions: seq<nat>) {
    && |positions| == |runnable|
    && (forall k :: 0 <= k < |positions| ==> positions[k] < |nodes| && runnable[k] == nodes[positions[k]])
    && (forall j, k :: 0 <= j < k < |positions| ==> positions[j] < positions[k])
    && (forall i: nat :: i < |nodes| ==> (i in positions <==> CanRun(nodes[i])))
  }

  lemma {:induction false} RunnableExactly(nodes: seq<Node>) returns (positions: seq<nat>)
    ensures ListedAt(nodes, Runnable(nodes), positions)
  {
    if nodes == [] {
      positions := [];
    } else {
      var n := |nodes| - 1;
      var before := RunnableExactly(nodes[..n]);
      if nodes[n].Literal? { SignedExactly(nodes[n]); }
      positions := if CanRun(nodes[n]) then before + [n] else before;
      ListedOneMore(nodes, n, Runnable(nodes[..n]), before, Runnable(nodes), positions);
    }
  }

  lemma ListedOneMore(nodes: seq<Node>, n: nat, runnable: seq<Node>, before: seq<nat>, more: seq<Node>,
                      positions: seq<nat>)
    requires n == |nodes| - 1 && ListedAt(nodes[..n], runnable, before)
    requires more == if CanRun(nodes[n]) then runnable + [nodes[n]] else runnable
    requires positions == if CanRun(nodes[n]) then before + [n] else before
    ensures ListedAt(nodes, more, positions)
  {
    assert forall i: nat :: i < n ==> nodes[..n][i] == nodes[i];
    forall i: nat | i < |nodes| ensures i in positions <==> CanRun(nodes[i]) {
      assert i < n ==> (i in before <==> CanRun(nodes[..n][i]));
    }
  }

  /** The packet's commands are the top-level literals that can be run, each once and in order, and no
      packet is sent exactly when there is none. */
  lemma ListsRunnableExactly(nodes: seq<Node>, commands: seq<Command>, tables: Tables) returns (positions: seq<nat>)
    requires Renders(commands, Runnable(nodes), tables)
    ensures |positions| == |commands| && ListedAt(nodes, Runnable(nodes), positions)
    ensures forall k :: 0 <= k < |commands| ==>
              nodes[positions[k]].Literal? && commands[k].name == nodes[positions[k]].name
    ensures commands == [] <==> forall i :: 0 <= i < |nodes| ==> !CanRun(nodes[i])
  {
    positions := RunnableExactly(nodes);
    if commands != [] { assert positions[0] in positions; }
  }
}
