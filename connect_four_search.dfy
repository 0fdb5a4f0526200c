/**
 * The Monte Carlo tree search that plays Connect-Four. A node counts its
 * visits and its wins for the player who moved into it; roll-outs play
 * random legal moves to the end of the game.
 *
 * Every node is tied to the position its moves lead to, a ghost record the
 * source does not keep, so that each move the search replays is known to
 * be legal.
 */
module ConnectFourSearch {
  import opened Wrappers
  import opened ConnectFourState
  import opened SearchTree

  /** A node's statistics are its wins. */
  type TreeNode = Node<int, int>

  /** `EXPLORATION`, the double nearest the square root of two. */
  const Exploration: real := 1.4142135623730951

  /**
   * `Node.value`: an unvisited node is worth 0 without exploration and
   * infinity with it; a visited node gets the UCT score of its wins.
   */
  function Value(n: TreeNode, parentVisits: nat, explore: real, uct: (int, nat, nat, real) -> real): Score {
    if n.visits == 0 then
      (if explore == 0.0 then Fin(0.0) else Inf)
    else
      Fin(uct(n.stats, n.visits, parentVisits, explore))
  }

  /** An unvisited node is worth infinity exactly when exploring; a visited node is never worth infinity. */
  lemma ValueInfinite(n: TreeNode, parentVisits: nat, explore: real, uct: (int, nat, nat, real) -> real)
    ensures Value(n, parentVisits, explore, uct) == Inf <==> n.visits == 0 && explore != 0.0
    ensures n.visits == 0 && explore == 0.0 ==> Value(n, parentVisits, explore, uct) == Fin(0.0)
  {
  }

  /**
   * The reward `back_propagate` adds at `d` links above the leaf, for the
   * player `turn` to move when the roll-out ended: at the leaf 0 when the
   * outcome is `turn`'s and 1 otherwise; above it 0 after a draw, and
   * otherwise the opposite of the reward one link below.
   */
  function Reward(cfg: Config, turn: int, outcome: int, d: nat): int {
    if d == 0 then (if outcome == turn then 0 else 1)
    else if outcome == cfg.draw then 0
    else 1 - Reward(cfg, turn, outcome, d - 1)
  }

  /** Without a draw the rewards alternate between 0 and 1, starting with 0 exactly when `turn` won. */
  lemma {:induction false} RewardAlternates(cfg: Config, turn: int, outcome: int, d: nat)
    requires outcome != cfg.draw
    ensures Reward(cfg, turn, outcome, d) == (if outcome == turn then d % 2 else 1 - d % 2)
  {
    if d > 0 {
      RewardAlternates(cfg, turn, outcome, d - 1);
    }
  }

  /**
   * After a draw only the leaf is rewarded, and it is, unless the draw
   * outcome equals the number of the player to move.
   */
  lemma RewardDraw(cfg: Config, turn: int, d: nat)
    ensures Reward(cfg, turn, cfg.draw, d) == (if d == 0 && cfg.draw != turn then 1 else 0)
  {
  }

  /** The update `back_propagate` makes to a node's wins. */
  function Credit(cfg: Config, turn: int, outcome: int): (int, nat) -> int {
    (w: int, d: nat) => w + Reward(cfg, turn, outcome, d)
  }

  /**
   * What `back_propagate` does to each node: a node on the way up from the
   * leaf gains one visit and the reward for its distance; every other node
   * is unchanged.
   */
  lemma BackPropagated(cfg: Config, nodes: seq<TreeNode>, leaf: nat, turn: int, outcome: int, i: nat)
    requires ParentsBefore(nodes) && leaf < |nodes| && i < |nodes|
    ensures var r := Propagate(nodes, Some(leaf), 0, Credit(cfg, turn, outcome));
      && |r| == |nodes|
      && r[i].key == nodes[i].key && r[i].parent == nodes[i].parent && r[i].children == nodes[i].children
      && (Dist(nodes, Some(leaf), i).Some? ==>
            r[i].visits == nodes[i].visits + 1
            && r[i].stats == nodes[i].stats + Reward(cfg, turn, outcome, Dist(nodes, Some(leaf), i).value))
      && (Dist(nodes, Some(leaf), i).None? ==> r[i] == nodes[i])
  {
    PropagateAt(nodes, Some(leaf), 0, Credit(cfg, turn, outcome), i);
  }

  /**
   * Three nodes in a line, back-propagated from the deepest with a win for
   * the player to move: every node has one visit, and only the middle one a win.
   */
  lemma ThreeNodeChain()
    ensures var nodes := [Fresh(None, None, 0), Fresh(Some(1), Some(0), 0), Fresh(Some(4), Some(1), 0)];
      var r := Propagate(nodes, Some(2), 0, Credit(Standard, Standard.one, Standard.outcomeOne));
      && |r| == 3
      && r[2].visits == 1 && r[2].stats == 0
      && r[1].visits == 1 && r[1].stats == 1
      && r[0].visits == 1 && r[0].stats == 0
  {
    var nodes := [Fresh(None, None, 0), Fresh(Some(1), Some(0), 0), Fresh(Some(4), Some(1), 0)];
    assert Dist(nodes, Some(2), 2) == Some(0);
    assert Dist(nodes, Some(2), 1) == Some(1);
    assert Dist(nodes, Some(2), 0) == Some(2);
    BackPropagated(Standard, nodes, 2, Standard.one, Standard.outcomeOne, 2);
    BackPropagated(Standard, nodes, 2, Standard.one, Standard.outcomeOne, 1);
    BackPropagated(Standard, nodes, 2, Standard.one, Standard.outcomeOne, 0);
  }

  /**
   * `roll_out`: random legal moves until the game is over, then its outcome.
   * The finished position is the starting one played on, and a finished
   * game is left as it is.
   */
  method RollOut(state: ConnectState) returns (outcome: int)
    requires state.Valid()
    modifies state
    ensures state.Valid() && IsOver(state.cfg, state.View())
    ensures outcome == OutcomeOf(state.cfg, state.View())
    ensures Extends(state.cfg, old(state.View()), state.View())
    ensures EmptyCells(state.cfg, state.View()) <= EmptyCells(state.cfg, old(state.View()))
    ensures IsOver(state.cfg, old(state.View())) ==> state.View() == old(state.View())
  {
    ghost var start := state.View();
    var over := state.GameOver();
    while !over
      invariant state.Valid() && over == IsOver(state.cfg, state.View())
      invariant Extends(state.cfg, start, state.View())
      invariant EmptyCells(state.cfg, state.View()) <= EmptyCells(state.cfg, start)
      invariant IsOver(state.cfg, start) ==> state.View() == start
      decreases EmptyCells(state.cfg, state.View())
    {
      var moves := state.GetLegalMoves();
      LegalMovesSpec(state.cfg, state.View());
      assert moves[0] in moves;
      var move :| move in moves;
      ghost var before := state.View();
      PlayFillsCell(state.cfg, before, move);
      PlayExtends(state.cfg, before, move);
      state.Move(move);
      ExtendsTransitive(state.cfg, start, before, state.View());
      over := state.GameOver();
    }
    outcome := state.GetOutcome();
  }

  /** `after` is the position a legal `move` leads to from the valid position `before`. */
  ghost predicate Reached(cfg: Config, before: Position, move: int, after: Position) {
    PosValid(cfg, before) && Legal(cfg, before, move) && after == Play(cfg, before, move)
  }

  /**
   * A tree whose every node has a valid position, every child's position
   * being its parent's after the child's move.
   */
  ghost predicate TreeValid(cfg: Config, nodes: seq<TreeNode>, positions: seq<Position>) {
    && WellFormed(nodes) && VisitsBounded(nodes) && |positions| == |nodes|
    && (forall i :: 0 <= i < |nodes| ==> PosValid(cfg, positions[i]))
    && (forall i :: 0 <= i < |nodes| && nodes[i].parent.Some? && nodes[i].key.Some? ==>
          Reached(cfg, positions[nodes[i].parent.value], nodes[i].key.value, positions[i]))
  }

  /** The position a child's move leads to from its parent's. */
  lemma ChildPosition(cfg: Config, nodes: seq<TreeNode>, positions: seq<Position>, p: nat, k: int)
    requires TreeValid(cfg, nodes, positions) && p < |nodes| && k in nodes[p].children
    ensures Legal(cfg, positions[p], k) && positions[nodes[p].children[k]] == Play(cfg, positions[p], k)
  {
    var c := nodes[p].children[k];
    assert nodes[c].parent == Some(p) && nodes[c].key == Some(k);
  }

  /** Adding a child for a legal move, with the position that move leads to, keeps the tree valid. */
  lemma AddChildValid(cfg: Config, nodes: seq<TreeNode>, positions: seq<Position>, p: nat, k: int)
    requires TreeValid(cfg, nodes, positions) && p < |nodes| && Legal(cfg, positions[p], k)
    ensures TreeValid(cfg, AddChild(nodes, p, k, 0), positions + [Play(cfg, positions[p], k)])
  {
    var r := AddChild(nodes, p, k, 0);
    var ps := positions + [Play(cfg, positions[p], k)];
    assert AddChildren(nodes, p, [k], 0) == r;
    AddChildrenKeepsTree(nodes, p, [k], 0);
    AddChildrenSpec(nodes, p, [k], 0);
    PlayKeepsValid(cfg, positions[p], k);
    forall i | 0 <= i < |r| && r[i].parent.Some? && r[i].key.Some?
      ensures Reached(cfg, ps[r[i].parent.value], r[i].key.value, ps[i])
    {
      if i < |nodes| {
        assert r[i].parent == nodes[i].parent && r[i].key == nodes[i].key;
      } else {
        assert r[|nodes| + 0] == Fresh(Some(k), Some(p), 0);
      }
    }
  }

  /** Back-propagation changes no move, parent or child link, so it keeps the tree valid. */
  lemma PropagateValid(cfg: Config, nodes: seq<TreeNode>, positions: seq<Position>, leaf: nat, credit: (int, nat) -> int)
    requires TreeValid(cfg, nodes, positions) && leaf < |nodes|
    ensures TreeValid(cfg, Propagate(nodes, Some(leaf), 0, credit), positions)
  {
    PropagateKeepsTree(nodes, Some(leaf), credit);
  }

  /** A fresh top node for a valid position keeps the tree valid. */
  lemma AddTopValid(cfg: Config, nodes: seq<TreeNode>, positions: seq<Position>, pos: Position)
    requires TreeValid(cfg, nodes, positions) && PosValid(cfg, pos)
    ensures TreeValid(cfg, nodes + [Fresh(None, None, 0)], positions + [pos])
  {
    AddTopKeepsTree(nodes, Fresh(None, None, 0));
  }

  /** The search tree with the state at its root. */
  class MCTS {
    const cfg: Config
    var nodes: seq<TreeNode>
    var root: nat
    const rootState: ConnectState
    /** The position of each node: the root's is the root state, a child's is its parent's after its move. */
    ghost var positions: seq<Position>
    /** The UCT score of a visited node: wins, visits, parent visits, exploration. */
    const uct: (int, nat, nat, real) -> real

    ghost predicate Valid()
      reads this, rootState
    {
      && TreeValid(cfg, nodes, positions) && root < |nodes|
      && rootState.cfg == cfg && positions[root] == rootState.View()
    }

    /** What `select_node` compares a child by: its value with exploration, from its parent's visits. */
    function ChildValue(): (TreeNode, nat) -> Score {
      (n: TreeNode, parentVisits: nat) => Value(n, parentVisits, Exploration, uct)
    }

    /** A child's value reads its visits and wins and not its children. */
    lemma ChildValueOfCounts(a: TreeNode, b: TreeNode)
      requires a.visits == b.visits && a.stats == b.stats
      ensures forall v :: ChildValue()(a, v) == ChildValue()(b, v)
    {
    }

    /** `MCTS(state)`: a single fresh node over a copy of the state. */
    constructor (state: ConnectState, uct: (int, nat, nat, real) -> real)
      requires state.Valid()
      ensures Valid() && cfg == state.cfg && this.uct == uct
      ensures nodes == [Fresh(None, None, 0)] && root == 0 && rootState.View() == state.View()
      ensures fresh(rootState)
    {
      cfg := state.cfg;
      rootState := new ConnectState.Copy(state);
      nodes := [Fresh(None, None, 0)];
      root := 0;
      positions := [state.View()];
      this.uct := uct;
      new;
      SingleNodeTree<int, int>(Fresh(None, None, 0));
    }

    /** `back_propagate`, walking the parent links from `leaf` until there is none. */
    method BackPropagate(leaf: nat, turn: int, outcome: int)
      requires Valid() && leaf < |nodes|
      modifies this
      ensures Valid() && root == old(root) && positions == old(positions)
      ensures nodes == Propagate(old(nodes), Some(leaf), 0, Credit(cfg, turn, outcome))
    {
      ghost var start := nodes;
      var credit := Credit(cfg, turn, outcome);
      PropagateValid(cfg, start, positions, leaf, credit);
      var ns := nodes;
      var cur: Option<nat> := Some(leaf);
      ghost var d: nat := 0;
      var reward := if outcome == turn then 0 else 1;
      while cur.Some?
        invariant unchanged(this)
        invariant ParentsBefore(ns) && |ns| == |start|
        invariant cur.Some? ==> cur.value < |ns|
        invariant reward == Reward(cfg, turn, outcome, d)
        invariant Propagate(ns, cur, d, credit) == Propagate(start, Some(leaf), 0, credit)
        decreases if cur.Some? then cur.value + 1 else 0
      {
        var i := cur.value;
        var n := ns[i];
        PropagateStep(ns, i, d, credit);
        assert n.(visits := n.visits + 1, stats := n.stats + reward) == Bump(n, credit, d);
        ns := ns[i := n.(visits := n.visits + 1, stats := n.stats + reward)];
        cur := n.parent;
        reward := if outcome == cfg.draw then 0 else 1 - reward;
        d := d + 1;
      }
      nodes := ns;
    }

    /** `add_children` for the nodes of `moves`, each reached from `p` by its move. */
    method AddChildNodes(p: nat, moves: seq<int>)
      requires Valid() && p < |nodes|
      requires forall i :: 0 <= i < |moves| ==> Legal(cfg, positions[p], moves[i])
      modifies this
      ensures Valid() && root == old(root)
      ensures nodes == AddChildren(old(nodes), p, moves, 0)
      ensures |positions| >= |old(positions)| && positions[..|old(positions)|] == old(positions)
    {
      ghost var start := nodes;
      ghost var startPos := positions;
      for i := 0 to |moves|
        invariant TreeValid(cfg, nodes, positions) && p < |nodes| && root == old(root)
        invariant AddChildren(nodes, p, moves[i..], 0) == AddChildren(start, p, moves, 0)
        invariant |positions| >= |startPos| && positions[..|startPos|] == startPos
      {
        assert moves[i..][1..] == moves[i + 1..];
        assert positions[p] == startPos[p];
        AddChildValid(cfg, nodes, positions, p, moves[i]);
        positions := positions + [Play(cfg, positions[p], moves[i])];
        nodes := AddChild(nodes, p, moves[i], 0);
      }
      assert moves[|moves|..] == [];
      assert positions[root] == startPos[root];
    }

    /**
     * `expand`: unless the game is over in `state`, the position of the
     * childless node `p`, one fresh child per legal move, in the order of
     * the legal moves.
     */
    method Expand(p: nat, state: ConnectState) returns (expanded: bool)
      requires Valid() && p < |nodes| && nodes[p].children == map[]
      requires state.Valid() && state.cfg == cfg && state.View() == positions[p]
      modifies this
      ensures Valid() && root == old(root)
      ensures expanded == !IsOver(cfg, state.View())
      ensures expanded ==> |LegalMoves(cfg, state.View())| > 0
      ensures expanded ==> nodes == AddChildren(old(nodes), p, LegalMoves(cfg, state.View()), 0)
      ensures !expanded ==> nodes == old(nodes) && positions == old(positions)
      ensures |positions| >= |old(positions)| && positions[..|old(positions)|] == old(positions)
    {
      var over := state.GameOver();
      if over {
        return false;
      }
      var moves := state.GetLegalMoves();
      LegalMovesSpec(cfg, state.View());
      NotOverHasMoves(cfg, state.View());
      AddChildNodes(p, moves);
      expanded := true;
    }

    /** One step down: the child of `node` by `move`, with the move played on `state`. */
    method Step(node: nat, move: int, state: ConnectState) returns (child: nat)
      requires Valid() && node < |nodes| && move in nodes[node].children
      requires state != rootState && state.cfg == cfg && state.View() == positions[node]
      modifies state
      ensures child == nodes[node].children[move] && child < |nodes|
      ensures state.Valid() && state.View() == positions[child]
    {
      child := nodes[node].children[move];
      ChildPosition(cfg, nodes, positions, node, move);
      state.Move(move);
    }

    /**
     * The descent of `select_node`: from the root through children of
     * maximal value, playing each child's move on a copy of the root state,
     * until the picked child is unvisited (`stopped`) or the node has no
     * children.
     */
    method Descend() returns (node: nat, state: ConnectState, stopped: bool)
      requires Valid()
      ensures fresh(state) && state.cfg == cfg
      ensures node < |nodes| && state.View() == positions[node] && Dist(nodes, Some(node), root).Some?
      ensures BestAlong(nodes, ChildValue(), root, node)
      ensures stopped ==> nodes[node].visits == 0
      ensures !stopped ==> nodes[node].children == map[]
    {
      node := root;
      state := new ConnectState.Copy(rootState);
      while nodes[node].children != map[]
        invariant fresh(state) && state.cfg == cfg
        invariant node < |nodes| && state.View() == positions[node] && Dist(nodes, Some(node), root).Some?
        invariant BestAlong(nodes, ChildValue(), root, node)
        decreases |nodes| - node
      {
        var move := BestChild(nodes, node, ChildValue());
        ChildDescends(nodes, node, move, root);
        BestAlongChild(nodes, ChildValue(), root, node, move);
        node := Step(node, move, state);
        if nodes[node].visits == 0 {
          return node, state, true;
        }
      }
      stopped := false;
    }

    /** Any one child of `node` (it has the one of `some`), whose move is played on `state`. */
    method AnyChild(node: nat, state: ConnectState, ghost some: int) returns (child: nat)
      requires Valid() && node < |nodes| && some in nodes[node].children
      requires state != rootState && state.cfg == cfg && state.View() == positions[node]
      requires Dist(nodes, Some(node), root).Some?
      modifies state
      ensures child < |nodes| && nodes[child].parent == Some(node) && Dist(nodes, Some(child), root).Some?
      ensures state.Valid() && state.View() == positions[child]
    {
      var move :| move in nodes[node].children;
      ChildDescends(nodes, node, move, root);
      child := Step(node, move, state);
    }

    /**
     * The second half of `select_node`, at the childless node `node` where
     * the descent ended: an expansion and any one of the new children, whose
     * move is played; with no expansion, `node` itself. Only the children of
     * `node` change.
     */
    method Grow(node: nat, state: ConnectState) returns (leaf: nat)
      requires Valid() && node < |nodes| && nodes[node].children == map[]
      requires state != rootState && state.Valid() && state.cfg == cfg && state.View() == positions[node]
      requires Dist(nodes, Some(node), root).Some?
      modifies this, state
      ensures Valid() && root == old(root) && state.cfg == cfg
      ensures leaf < |nodes| && state.View() == positions[leaf] && Dist(nodes, Some(leaf), root).Some?
      ensures leaf == node || nodes[leaf].parent == Some(node)
      ensures |nodes| >= |old(nodes)|
      ensures forall i :: 0 <= i < |old(nodes)| ==>
                nodes[i].visits == old(nodes)[i].visits && nodes[i].stats == old(nodes)[i].stats
                && nodes[i].parent == old(nodes)[i].parent
      ensures forall i :: 0 <= i < |old(nodes)| && i != node ==> nodes[i] == old(nodes)[i]
      ensures nodes[node] == old(nodes)[node].(children := nodes[node].children)
    {
      ghost var before := nodes;
      ghost var moves := LegalMoves(cfg, state.View());
      var expanded := Expand(node, state);
      if !expanded {
        assert nodes == before;
        return node;
      }
      assert nodes == AddChildren(before, node, moves, 0);
      ChildrenAdded(before, node, moves, 0, root);
      leaf := AnyChild(node, state, moves[0]);
      KeptButChildren(before, nodes, node);
    }

    /**
     * `select_node`: the descent, then, at a node without children, its
     * growth. The node returned, or else its parent, is reached from the
     * root through children of maximal value.
     */
    method SelectNode() returns (node: nat, state: ConnectState)
      requires Valid()
      modifies this
      ensures Valid() && root == old(root)
      ensures fresh(state) && state.cfg == cfg
      ensures node < |nodes| && state.View() == positions[node] && Dist(nodes, Some(node), root).Some?
      ensures || BestAlong(nodes, ChildValue(), root, node)
              || (nodes[node].parent.Some? && BestAlong(nodes, ChildValue(), root, nodes[node].parent.value))
      ensures |nodes| >= |old(nodes)|
      ensures forall i :: 0 <= i < |old(nodes)| ==>
                nodes[i].visits == old(nodes)[i].visits && nodes[i].stats == old(nodes)[i].stats
                && nodes[i].parent == old(nodes)[i].parent
    {
      var stopped;
      node, state, stopped := Descend();
      if stopped {
        return;
      }
      ghost var before := nodes;
      var leaf := Grow(node, state);
      ChildValueOfCounts(nodes[node], before[node]);
      BestAlongKept(before, nodes, ChildValue(), root, node, node);
      node := leaf;
    }

    /**
     * `search` with the time budget replaced by a number of rounds: each
     * round selects a node, rolls out from its position and back-propagates
     * the outcome for the player to move at the end of the roll-out. Every
     * round adds one visit to the root.
     */
    method Search(rounds: nat)
      requires Valid()
      modifies this
      ensures Valid() && root == old(root)
      ensures nodes[root].visits == old(nodes[root].visits) + rounds
    {
      for i := 0 to rounds
        invariant Valid() && root == old(root)
        invariant nodes[root].visits == old(nodes[root].visits) + i
      {
        var leaf, state := SelectNode();
        var outcome := RollOut(state);
        PropagateReachesTop(nodes, leaf, root, Credit(cfg, state.toPlay, outcome));
        BackPropagate(leaf, state.toPlay, outcome);
      }
    }

    /**
     * `best_move`: -1 when the game is over; otherwise a move of a root
     * child with the most visits, and an error when the root has no children.
     */
    method BestMove() returns (r: Result<int, string>)
      requires Valid()
      ensures IsOver(cfg, rootState.View()) ==> r == Ok(-1)
      ensures !IsOver(cfg, rootState.View()) ==> (r.Ok? <==> nodes[root].children != map[])
      ensures !IsOver(cfg, rootState.View()) && r.Ok? ==>
                && r.value in nodes[root].children
                && forall k :: k in nodes[root].children ==>
                     nodes[nodes[root].children[k]].visits <= nodes[nodes[root].children[r.value]].visits
    {
      var over := rootState.GameOver();
      if over {
        return Ok(-1);
      }
      if nodes[root].children == map[] {
        return Err("max() arg is an empty sequence");
      }
      var visits := ChildVisits(nodes, root);
      ghost var best := MaxVisitsAmong(visits, visits.Keys);
      assert best in visits && forall j :: j in visits ==> visits[j] <= visits[best];
      var move :| move in visits && forall j :: j in visits ==> visits[j] <= visits[move];
      return Ok(move);
    }

    /**
     * `move`: plays a legal move on the root state and moves the root to the
     * move's child, or to a fresh node when there is none. The new root
     * keeps its parent link, and the nodes left above it stay in the arena.
     */
    method Move(move: int)
      requires Valid() && Legal(cfg, rootState.View(), move)
      modifies this, rootState
      ensures Valid()
      ensures rootState.View() == Play(cfg, old(rootState.View()), move)
      ensures move in old(nodes[root].children) ==>
                nodes == old(nodes) && root == old(nodes[root].children[move]) && nodes[root].parent == Some(old(root))
      ensures move !in old(nodes[root].children) ==>
                nodes == old(nodes) + [Fresh(None, None, 0)] && root == |old(nodes)|
    {
      if move in nodes[root].children {
        ChildPosition(cfg, nodes, positions, root, move);
        rootState.Move(move);
        root := nodes[root].children[move];
        return;
      }
      rootState.Move(move);
      AddTopValid(cfg, nodes, positions, rootState.View());
      nodes := nodes + [Fresh(None, None, 0)];
      positions := positions + [rootState.View()];
      root := |nodes| - 1;
    }
  }
}
