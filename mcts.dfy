/**
 * The bookkeeping of the Monte-Carlo tree search of ai_mcts.py. The nodes
 * live in an arena indexed by position: a node's parent comes before it, and
 * every node holds the position reached by its move. A round of
 * simulate_once selects a node, adds at most one child, plays a random game
 * with a move budget from there and backpropagates the result to the root. The UCB1 score of
 * best_child is not modelled: selection may take any child.
 */
module Mcts {
  import opened GoGrid
  import opened Rules
  import opened Choice
  import opened RandomPlay
  import GoBoard

  /** An MCTSNode: the position, the parent link, the move that led here, the children and the counters. */
  datatype Node = Node(state: State, parent: Option<nat>, move: Option<Pos>, children: seq<nat>, visits: nat, wins: nat)

  /** Parents come before their children, the root (node 0) has none, and children point back at their parent. */
  ghost predicate Linked(nodes: seq<Node>)
  {
    && |nodes| > 0 && nodes[0].parent == None
    && (forall i | 0 < i < |nodes| :: nodes[i].parent.Some? && nodes[i].parent.value < i)
    && (forall i, k | 0 <= i < |nodes| && 0 <= k < |nodes[i].children| ::
          i < nodes[i].children[k] < |nodes| && nodes[nodes[i].children[k]].parent == Some(i))
  }

  /** Every position in the tree is a well-formed board state. */
  ghost predicate Formed(nodes: seq<Node>)
  {
    forall i | 0 <= i < |nodes| :: WellFormed(nodes[i].state)
  }

  /** Node i holds a legal move of its parent's position and the position after that move. */
  ghost predicate MadeFrom(nodes: seq<Node>, i: nat)
    requires Linked(nodes) && Formed(nodes) && 0 < i < |nodes|
  {
    var p := nodes[nodes[i].parent.value].state;
    nodes[i].move.Some? && nodes[i].move.value in LegalMoves(p) && nodes[i].state == Place(p, nodes[i].move.value).1
  }

  /** Every node below the root was made from its parent by a legal move. */
  ghost predicate Expanded(nodes: seq<Node>)
    requires Linked(nodes) && Formed(nodes)
  {
    forall i | 0 < i < |nodes| :: MadeFrom(nodes, i)
  }

  /** No node has more wins than visits. */
  ghost predicate Tallied(nodes: seq<Node>)
  {
    forall i | 0 <= i < |nodes| :: nodes[i].wins <= nodes[i].visits
  }

  /**
   * From `before` to `after` the tree only grew: every old node keeps its
   * position, parent and move, and its child list is only extended.
   */
  ghost predicate Grows(before: seq<Node>, after: seq<Node>)
  {
    |before| <= |after|
    && forall i | 0 <= i < |before| ::
         after[i].state == before[i].state && after[i].parent == before[i].parent
         && after[i].move == before[i].move && before[i].children <= after[i].children
  }

  /** The chain of parent links from node i up to the root, i included. */
  ghost function Ancestors(nodes: seq<Node>, i: nat): set<nat>
    requires i < |nodes|
    decreases i
  {
    match nodes[i].parent
    case Some(p) => if p < i then {i} + Ancestors(nodes, p) else {i}
    case None => {i}
  }

  /** Every node on the chain from i is at or before i. */
  lemma {:induction false} AncestorsBelow(nodes: seq<Node>, i: nat)
    requires i < |nodes|
    ensures forall a :: a in Ancestors(nodes, i) ==> a <= i
    decreases i
  {
    match nodes[i].parent
    case Some(p) =>
      if p < i {
        AncestorsBelow(nodes, p);
      }
    case None =>
  }

  /** The root is on every node's chain, so each backpropagation reaches it. */
  lemma {:induction false} RootIsAncestor(nodes: seq<Node>, i: nat)
    requires Linked(nodes) && i < |nodes|
    ensures 0 in Ancestors(nodes, i)
    decreases i
  {
    if i > 0 {
      RootIsAncestor(nodes, nodes[i].parent.value);
    }
  }

  /** The nodes after crediting one visit and `result` wins to each node of `chain`; the rest is as it was. */
  ghost function Bump(nodes: seq<Node>, chain: set<nat>, result: nat): (r: seq<Node>)
    ensures |r| == |nodes|
  {
    seq(|nodes|, j requires 0 <= j < |nodes| =>
      if j in chain then nodes[j].(visits := nodes[j].visits + 1, wins := nodes[j].wins + result) else nodes[j])
  }

  /** Crediting one more node of the chain. */
  lemma BumpOne(nodes: seq<Node>, done: set<nat>, k: nat, result: nat)
    requires k < |nodes| && k !in done
    ensures Bump(nodes, done + {k}, result)
            == Bump(nodes, done, result)[k := nodes[k].(visits := nodes[k].visits + 1, wins := nodes[k].wins + result)]
  {
    var a := Bump(nodes, done + {k}, result);
    var b := Bump(nodes, done, result)[k := nodes[k].(visits := nodes[k].visits + 1, wins := nodes[k].wins + result)];
    forall j | 0 <= j < |a|
      ensures a[j] == b[j]
    {
    }
  }

  /** Two arenas with the same links, positions, moves and child lists. */
  ghost predicate SameShape(a: seq<Node>, b: seq<Node>)
  {
    |a| == |b|
    && forall i | 0 <= i < |a| ::
         b[i].state == a[i].state && b[i].parent == a[i].parent
         && b[i].move == a[i].move && b[i].children == a[i].children
  }

  /**
   * The state of backpropagate's walk: the nodes of `done` are credited,
   * and they and the chain still ahead from `cur` make up the whole chain.
   */
  ghost predicate Crediting(n0: seq<Node>, chain: set<nat>, result: nat, nodes: seq<Node>, done: set<nat>, cur: Option<nat>)
  {
    nodes == Bump(n0, done, result)
    && match cur
       case Some(k) => k < |n0| && done !! Ancestors(n0, k) && done + Ancestors(n0, k) == chain
       case None => done == chain
  }

  /** One step of the walk: credit node k and move to its parent, which comes before it. */
  lemma CreditStep(n0: seq<Node>, chain: set<nat>, result: nat, nodes: seq<Node>, done: set<nat>, k: nat)
    requires Linked(n0) && Crediting(n0, chain, result, nodes, done, Some(k))
    ensures nodes[k] == n0[k]
    ensures n0[k].parent.Some? ==> n0[k].parent.value < k
    ensures Crediting(n0, chain, result, nodes[k := nodes[k].(visits := nodes[k].visits + 1, wins := nodes[k].wins + result)],
                      done + {k}, n0[k].parent)
  {
    AncestorsBelow(n0, k);
    BumpOne(n0, done, k, result);
    match n0[k].parent
    case Some(p) =>
      AncestorsBelow(n0, p);
    case None =>
  }

  /** Changing only counters keeps the tree linked, formed and expanded. */
  lemma ShapeKeeps(a: seq<Node>, b: seq<Node>)
    requires Linked(a) && Formed(a) && Expanded(a) && SameShape(a, b)
    ensures Linked(b) && Formed(b) && Expanded(b) && Grows(a, b)
  {
    forall i | 0 < i < |b|
      ensures MadeFrom(b, i)
    {
      assert MadeFrom(a, i);
    }
  }

  /** Crediting a chain changes no link, position or move, and with a result of at most one keeps wins within visits. */
  lemma BumpKeeps(nodes: seq<Node>, chain: set<nat>, result: nat)
    requires Linked(nodes) && Formed(nodes) && Expanded(nodes) && Tallied(nodes) && result <= 1
    ensures var r := Bump(nodes, chain, result);
            Linked(r) && Formed(r) && Expanded(r) && Tallied(r) && Grows(nodes, r)
  {
    ShapeKeeps(nodes, Bump(nodes, chain, result));
  }

  /** is_fully_expanded: at least as many children as the position has legal moves. */
  predicate FullyExpanded(n: Node)
    requires WellFormed(n.state)
  {
    |n.children| >= |LegalMoves(n.state)|
  }

  /** A finished game has no legal move, so a node on it counts as fully expanded from the start. */
  lemma FinishedIsExpanded(n: Node)
    requires WellFormed(n.state) && n.state.gameOver
    ensures FullyExpanded(n)
  {
    LegalMovesSpec(n.state);
  }

  /** The result simulate reports: 1 when the side that is not to move has the higher score, else 0. */
  function SimResult(s: State): (r: nat)
    ensures r <= 1
  {
    var (b, w) := Score(s);
    if (s.player == WHITE && b > w) || (s.player == BLACK && w > b) then 1 else 0
  }

  /** On a finished game the result is 1 exactly when the side that moved last has won. */
  lemma SimResultWinner(s: State)
    requires s.gameOver
    ensures SimResult(s) == 1 <==> (s.player == WHITE && Winner(s).BlackWins?) || (s.player == BLACK && Winner(s).WhiteWins?)
  {
  }

  /** The visit counts of the listed children, in order. */
  function ChildVisits(nodes: seq<Node>, children: seq<nat>): (r: seq<int>)
    requires forall k | 0 <= k < |children| :: children[k] < |nodes|
    ensures |r| == |children|
  {
    seq(|children|, k requires 0 <= k < |children| => nodes[children[k]].visits)
  }

  /** search's final choice: the move of the first root child with the most visits; None where the source's max fails on no children. */
  function RootChoice(nodes: seq<Node>): Option<Pos>
    requires Linked(nodes)
  {
    var kids := nodes[0].children;
    if kids == [] then None
    else nodes[kids[FirstMax(ChildVisits(nodes, kids))]].move
  }

  /**
   * The choice is made exactly when the root has a child; it is then the
   * move of a root child that has at least the visits of every root child
   * and strictly more than every child before it, and a legal move of the
   * root's position.
   */
  lemma RootChoiceSpec(nodes: seq<Node>)
    requires Linked(nodes) && Formed(nodes) && Expanded(nodes)
    ensures RootChoice(nodes).Some? <==> nodes[0].children != []
    ensures RootChoice(nodes).Some? ==>
              RootChoice(nodes).value in LegalMoves(nodes[0].state)
              && exists i :: 0 <= i < |nodes[0].children| && RootChoice(nodes) == nodes[nodes[0].children[i]].move
                   && (forall j :: 0 <= j < |nodes[0].children| ==> nodes[nodes[0].children[j]].visits <= nodes[nodes[0].children[i]].visits)
                   && (forall j :: 0 <= j < i ==> nodes[nodes[0].children[j]].visits < nodes[nodes[0].children[i]].visits)
  {
    var kids := nodes[0].children;
    if kids != [] {
      var xs := ChildVisits(nodes, kids);
      var i := FirstMax(xs);
      FirstMaxSpec(xs);
      assert forall j :: 0 <= j < |kids| ==> xs[j] == nodes[kids[j]].visits;
      assert kids[i] > 0 && nodes[kids[i]].parent == Some(0);
      assert MadeFrom(nodes, kids[i]);
    }
  }

  /**
   * simulate with a move budget: random legal moves, or a pass when there is
   * none, on its own copy, until the game is over or fuel turns are played.
   */
  method Rollout(s: State, fuel: nat) returns (result: nat, ghost final: State)
    requires WellFormed(s)
    ensures PlayedOut(s, final, fuel) && WellFormed(final) && final.variant == s.variant
    ensures result == SimResult(final) && result <= 1
  {
    var sim := s;
    var steps := fuel;
    ghost var trace := [s];
    while !sim.gameOver && steps > 0
      invariant Playout(trace) && trace[0] == s && trace[|trace| - 1] == sim
      invariant |trace| + steps == fuel + 1 && sim.variant == s.variant
    {
      var legal := LegalMoves(sim);
      if legal == [] {
        sim := Pass(sim);
      } else {
        assert legal[0] in legal;
        var move :| move in legal;
        sim := Place(sim, move).1;
      }
      PlayoutSnoc(trace, sim);
      trace := trace + [sim];
      steps := steps - 1;
    }
    result := SimResult(sim);
    final := sim;
  }

  /** The search tree of one call of search. */
  class Tree {
    var nodes: seq<Node>

    ghost predicate Valid()
      reads this
    {
      Linked(nodes) && Formed(nodes) && Expanded(nodes) && Tallied(nodes)
    }

    /** The root: a copy of the position, no children, no visits. */
    constructor (s: State)
      requires WellFormed(s)
      ensures Valid() && nodes == [Node(s, None, None, [], 0, 0)]
    {
      nodes := [Node(s, None, None, [], 0, 0)];
    }

    /** backpropagate: one more visit and `result` more wins on the node and on each of its ancestors, and nowhere else. */
    method Backpropagate(node: nat, result: nat)
      requires Valid() && node < |nodes| && result <= 1
      modifies this
      ensures Valid() && Grows(old(nodes), nodes)
      ensures nodes == Bump(old(nodes), Ancestors(old(nodes), node), result)
    {
      ghost var n0 := nodes;
      var ns := nodes;
      ghost var chain := Ancestors(n0, node);
      ghost var done: set<nat> := {};
      var cur: Option<nat> := Some(node);
      assert Bump(n0, done, result) == ns;
      while cur.Some?
        invariant Crediting(n0, chain, result, ns, done, cur)
        decreases match cur case None => 0 case Some(k) => k + 1
      {
        var k := cur.value;
        CreditStep(n0, chain, result, ns, done, k);
        var next := ns[k].parent;
        ns := ns[k := ns[k].(visits := ns[k].visits + 1, wins := ns[k].wins + result)];
        done := done + {k};
        cur := next;
      }
      BumpKeeps(n0, chain, result);
      nodes := ns;
    }

    /**
     * The selection loop of simulate_once: from the root, go down while the
     * node has children and is fully expanded. best_child's UCB1 score is not
     * modelled, so any child may be taken.
     */
    method Select() returns (node: nat)
      requires Valid()
      ensures node < |nodes|
      ensures nodes[node].children == [] || !FullyExpanded(nodes[node])
      ensures nodes[0].children == [] ==> node == 0
    {
      node := 0;
      while |nodes[node].children| > 0 && FullyExpanded(nodes[node])
        invariant node < |nodes|
        invariant nodes[0].children == [] ==> node == 0
        decreases |nodes| - node
      {
        var k :| 0 <= k < |nodes[node].children|;
        node := nodes[node].children[k];
      }
    }

    /**
     * The expansion step of simulate_once: when the node's position has a
     * legal move, some legal move (not necessarily an untried one) is
     * played on a copy and the new node is appended as its last child.
     */
    method Expand(node: nat) returns (leaf: nat)
      requires Valid() && node < |nodes|
      modifies this
      ensures Valid() && Grows(old(nodes), nodes) && leaf < |nodes|
      ensures nodes[0].visits == old(nodes[0].visits)
      ensures LegalMoves(old(nodes)[node].state) == [] ==> nodes == old(nodes) && leaf == node
      ensures LegalMoves(old(nodes)[node].state) != [] ==>
                && |nodes| == |old(nodes)| + 1 && leaf == |old(nodes)|
                && nodes[leaf].parent == Some(node)
                && nodes[node].children == old(nodes)[node].children + [leaf]
    {
      var s := nodes[node].state;
      var legal := LegalMoves(s);
      if legal == [] {
        return node;
      }
      assert legal[0] in legal;
      var move :| move in legal;
      leaf := |nodes|;
      AppendKeeps(nodes, node, move);
      nodes := nodes[node := nodes[node].(children := nodes[node].children + [leaf])]
               + [Node(Place(s, move).1, Some(node), Some(move), [], 0, 0)];
    }

    /**
     * simulate_once: select a node, expand it into `grown`, play out from
     * the leaf, and credit the leaf and each of its ancestors with one visit
     * and the playout's result.
     */
    method SimulateOnce(fuel: nat) returns (ghost selected: nat, ghost grown: seq<Node>, ghost leaf: nat, ghost final: State)
      requires Valid()
      modifies this
      ensures Valid() && Grows(old(nodes), nodes) && |nodes| <= |old(nodes)| + 1
      ensures selected < |old(nodes)| && (old(nodes)[selected].children == [] || !FullyExpanded(old(nodes)[selected]))
      ensures LegalMoves(old(nodes)[selected].state) == [] ==> grown == old(nodes) && leaf == selected
      ensures LegalMoves(old(nodes)[selected].state) != [] ==>
                && Grows(old(nodes), grown) && |grown| == |old(nodes)| + 1 && leaf == |old(nodes)|
                && grown[leaf].parent == Some(selected)
                && grown[selected].children == old(nodes)[selected].children + [leaf]
      ensures leaf < |grown| && PlayedOut(grown[leaf].state, final, fuel)
      ensures nodes == Bump(grown, Ancestors(grown, leaf), SimResult(final))
      ensures nodes[0].visits == old(nodes[0].visits) + 1
      ensures old(nodes)[0].children == [] ==> (nodes[0].children != [] <==> LegalMoves(nodes[0].state) != [])
    {
      var node := Select();
      var newNode := Expand(node);
      selected, grown, leaf := node, nodes, newNode;
      var result;
      result, final := Rollout(nodes[newNode].state, fuel);
      RootIsAncestor(nodes, newNode);
      Backpropagate(newNode, result);
    }
  }

  /** The arena after appending, as a child of `node`, the position after `move`. */
  ghost function Append(n0: seq<Node>, node: nat, move: Pos): (r: seq<Node>)
    requires node < |n0| && WellFormed(n0[node].state)
  {
    n0[node := n0[node].(children := n0[node].children + [|n0|])]
    + [Node(Place(n0[node].state, move).1, Some(node), Some(move), [], 0, 0)]
  }

  /** Appending a child keeps the links and only extends the tree. */
  lemma AppendLinks(n0: seq<Node>, node: nat, move: Pos)
    requires Linked(n0) && Formed(n0) && node < |n0|
    ensures Linked(Append(n0, node, move)) && Grows(n0, Append(n0, node, move))
  {
    var nodes := Append(n0, node, move);
    assert forall i | 0 <= i < |n0| ::
      nodes[i].state == n0[i].state && nodes[i].parent == n0[i].parent && nodes[i].move == n0[i].move;
    forall i, k | 0 <= i < |nodes| && 0 <= k < |nodes[i].children|
      ensures i < nodes[i].children[k] < |nodes| && nodes[nodes[i].children[k]].parent == Some(i)
    {
      if i != node {
        assert nodes[i].children == n0[i].children;
      } else if k < |n0[node].children| {
        assert nodes[i].children[k] == n0[i].children[k];
      }
    }
  }

  /** Appending a child for a legal move keeps every position well formed, every node made from its parent, and the tallies. */
  lemma AppendKeeps(n0: seq<Node>, node: nat, move: Pos)
    requires Linked(n0) && Formed(n0) && Expanded(n0) && Tallied(n0) && node < |n0|
    requires move in LegalMoves(n0[node].state)
    ensures var nodes := Append(n0, node, move);
            Linked(nodes) && Formed(nodes) && Expanded(nodes) && Tallied(nodes) && Grows(n0, nodes)
  {
    AppendLinks(n0, node, move);
    var nodes := Append(n0, node, move);
    assert forall i | 0 <= i < |n0| :: nodes[i].state == n0[i].state;
    forall i | 0 < i < |nodes|
      ensures MadeFrom(nodes, i)
    {
      if i < |n0| {
        assert MadeFrom(n0, i);
      }
    }
  }

  /**
   * search: a fresh tree on a copy of the board's position,
   * num_simulations rounds of simulate_once, then the move of the first most
   * visited root child. None stands where the source fails on an empty
   * child list: no rounds, or no legal move at the root.
   */
  method Search(b: GoBoard.Board, numSimulations: nat, fuel: nat) returns (move: Option<Pos>, tree: Tree)
    requires b.Valid()
    ensures tree.Valid() && tree.nodes[0].state == b.Snapshot() && tree.nodes[0].visits == numSimulations
    ensures move == RootChoice(tree.nodes)
    ensures move.Some? <==> numSimulations > 0 && LegalMoves(b.Snapshot()) != []
    ensures move.Some? ==> move.value in LegalMoves(b.Snapshot())
  {
    var s := b.Snapshot();
    tree := new Tree(s);
    for k := 0 to numSimulations
      invariant tree.Valid() && tree.nodes[0].state == s && tree.nodes[0].visits == k
      invariant tree.nodes[0].children != [] <==> k > 0 && LegalMoves(s) != []
    {
      ghost var selected, grown, leaf, final;
      selected, grown, leaf, final := tree.SimulateOnce(fuel);
    }
    move := RootChoice(tree.nodes);
    RootChoiceSpec(tree.nodes);
  }
}
