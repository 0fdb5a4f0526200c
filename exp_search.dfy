/**
 * The experimental Monte Carlo tree search over the experimental
 * Connect-Four states. Nodes count visits and wins; states are values,
 * so each step down the tree builds a new state.
 *
 * Every node is tied to its state, a ghost record the source does not
 * keep, so that each move the search replays is known to succeed.
 */
module ExpSearch {
  import opened Wrappers
  import opened FourInARow
  import opened ExpConnectFour
  import opened SearchTree

  /** A node's statistics are its wins. */
  type TreeNode = Node<int, int>

  /** `UCB_CONSTANT`. */
  const UcbConstant: real := 1.41

  /** `get_ucb`: infinite for an unvisited node, else the UCB score of its wins. */
  function Ucb(n: TreeNode, parentVisits: nat, ucb: (int, nat, nat, real) -> real): Score {
    if n.visits == 0 then Inf else Fin(ucb(n.stats, n.visits, parentVisits, UcbConstant))
  }

  /** A node's score is infinite exactly when it has no visits. */
  lemma UcbInfinite(n: TreeNode, parentVisits: nat, ucb: (int, nat, nat, real) -> real)
    ensures Ucb(n, parentVisits, ucb) == Inf <==> n.visits == 0
  {
  }

  /** The player `backpropogate` compares the outcome with at `d` links above the leaf, as written: `1 - whose_turn` at each step. */
  function TurnAsWritten(turn: int, d: nat): int {
    if d == 0 then turn else 1 - TurnAsWritten(turn, d - 1)
  }

  lemma {:induction false} TurnAsWrittenValues(turn: int, d: nat)
    ensures TurnAsWritten(turn, d) == if d % 2 == 0 then turn else 1 - turn
  {
    if d > 0 {
      TurnAsWrittenValues(turn, d - 1);
    }
  }

  /**
   * With players numbered 1 and 2, the written turn is 0 or -1 at every
   * odd distance, so no outcome is ever credited there.
   */
  lemma AsWrittenOddLevelsNeverWin(turn: int, outcome: int, d: nat)
    requires turn == PlayerOne || turn == PlayerTwo
    requires outcome == PlayerOne || outcome == PlayerTwo || outcome == OutcomeDraw
    requires d % 2 == 1
    ensures outcome != TurnAsWritten(turn, d)
  {
    TurnAsWrittenValues(turn, d);
  }

  /** The player to move at `d` links above the leaf, the turn passing at each link. */
  function TurnAt(turn: int, d: nat): int {
    if d == 0 then turn else NextPlayer(TurnAt(turn, d - 1))
  }

  /** The turn alternates between the two players, starting with `turn`. */
  lemma {:induction false} TurnAtAlternates(turn: int, d: nat)
    requires turn == PlayerOne || turn == PlayerTwo
    ensures TurnAt(turn, d) == if d % 2 == 0 then turn else NextPlayer(turn)
  {
    if d > 0 {
      TurnAtAlternates(turn, d - 1);
    }
  }

  /** The wins `backpropogate` adds at `d` links above the leaf. */
  function Won(turn: int, outcome: int, d: nat): int {
    if outcome == TurnAt(turn, d) then 1 else 0
  }

  /** After a player's win, exactly one of any two neighbouring levels is credited; after a draw, none. */
  lemma WonAlternates(turn: int, outcome: int, d: nat)
    requires turn == PlayerOne || turn == PlayerTwo
    ensures outcome == PlayerOne || outcome == PlayerTwo ==> Won(turn, outcome, d) + Won(turn, outcome, d + 1) == 1
    ensures outcome == OutcomeDraw ==> Won(turn, outcome, d) == 0
  {
    TurnAtAlternates(turn, d);
    TurnAtAlternates(turn, d + 1);
  }

  /** The update `backpropogate` makes to a node's wins. */
  function Credit(turn: int, outcome: int): (int, nat) -> int {
    (w: int, d: nat) => w + Won(turn, outcome, d)
  }

  /**
   * What `backpropogate` does to each node: a node on the way up from the
   * leaf gains one visit, and one win when the outcome is the player to move
   * there; every other node is unchanged.
   */
  lemma BackPropagated(nodes: seq<TreeNode>, leaf: nat, turn: int, outcome: int, i: nat)
    requires ParentsBefore(nodes) && leaf < |nodes| && i < |nodes|
    ensures var r := Propagate(nodes, Some(leaf), 0, Credit(turn, outcome));
      && |r| == |nodes|
      && r[i].key == nodes[i].key && r[i].parent == nodes[i].parent && r[i].children == nodes[i].children
      && (Dist(nodes, Some(leaf), i).Some? ==>
            r[i].visits == nodes[i].visits + 1
            && r[i].stats == nodes[i].stats + Won(turn, outcome, Dist(nodes, Some(leaf), i).value))
      && (Dist(nodes, Some(leaf), i).None? ==> r[i] == nodes[i])
  {
    PropagateAt(nodes, Some(leaf), 0, Credit(turn, outcome), i);
  }

  /**
   * `rollout`: random legal moves until the game is over, then its winner.
   * The final state is returned beside the outcome for the contract: it is
   * the starting board played on, and a finished game is left as it is.
   */
  method Rollout(state: State) returns (outcome: int, ghost final: State)
    requires IsBoard(state.board)
    ensures IsBoard(final.board) && IsOver(final) && Winner(final) == Some(outcome)
    ensures outcome == PlayerOne || outcome == PlayerTwo || outcome == OutcomeDraw
    ensures Extends(state.board, final.board, Blank) && Blanks(final.board, Blank) <= Blanks(state.board, Blank)
    ensures IsOver(state) ==> final == state
  {
    var s := state;
    var over := CheckOver(s);
    while !over
      invariant IsBoard(s.board) && over == IsOver(s)
      invariant Extends(state.board, s.board, Blank) && Blanks(s.board, Blank) <= Blanks(state.board, Blank)
      invariant IsOver(state) ==> s == state
      decreases Blanks(s.board, Blank)
    {
      var moves := LegalMoves(s);
      NotOverHasMoves(s);
      LegalMovesSpec(s);
      assert moves[0] in moves;
      var move :| move in moves;
      var next := MakeMove(move, s);
      MovedSpec(move, s);
      s := next.value;
      over := CheckOver(s);
    }
    WinnerSpec(s);
    var w := GetWinner(s);
    outcome := w.value;
    final := s;
  }

  /** `after` is the state a successful move `move` makes from `before`. */
  ghost predicate Reached(before: State, move: int, after: State) {
    IsBoard(before.board) && Moved(move, before) == Ok(after)
  }

  /** A tree whose every node has a state, every child's being its parent's after the child's move. */
  ghost predicate TreeValid(nodes: seq<TreeNode>, states: seq<State>) {
    && WellFormed(nodes) && VisitsBounded(nodes) && |states| == |nodes|
    && (forall i :: 0 <= i < |nodes| ==> IsBoard(states[i].board))
    && (forall i :: 0 <= i < |nodes| && nodes[i].parent.Some? && nodes[i].key.Some? ==>
          Reached(states[nodes[i].parent.value], nodes[i].key.value, states[i]))
  }

  /** The state a child's move makes from its parent's. */
  lemma ChildState(nodes: seq<TreeNode>, states: seq<State>, p: nat, k: int)
    requires TreeValid(nodes, states) && p < |nodes| && k in nodes[p].children
    ensures Moved(k, states[p]) == Ok(states[nodes[p].children[k]])
  {
    var c := nodes[p].children[k];
    assert nodes[c].parent == Some(p) && nodes[c].key == Some(k);
  }

  /** Adding a child for a successful move, with the state it makes, keeps the tree valid. */
  lemma AddChildValid(nodes: seq<TreeNode>, states: seq<State>, p: nat, k: int)
    requires TreeValid(nodes, states) && p < |nodes| && Moved(k, states[p]).Ok?
    ensures TreeValid(AddChild(nodes, p, k, 0), states + [Moved(k, states[p]).value])
  {
    var r := AddChild(nodes, p, k, 0);
    var ss := states + [Moved(k, states[p]).value];
    assert AddChildren(nodes, p, [k], 0) == r;
    AddChildrenKeepsTree(nodes, p, [k], 0);
    AddChildrenSpec(nodes, p, [k], 0);
    MovedSpec(k, states[p]);
    forall i | 0 <= i < |r| && r[i].parent.Some? && r[i].key.Some?
      ensures Reached(ss[r[i].parent.value], r[i].key.value, ss[i])
    {
      if i < |nodes| {
        assert r[i].parent == nodes[i].parent && r[i].key == nodes[i].key;
      } else {
        assert r[|nodes| + 0] == Fresh(Some(k), Some(p), 0);
      }
    }
  }

  /** Back-propagation changes no move, parent or child link, so it keeps the tree valid. */
  lemma PropagateValid(nodes: seq<TreeNode>, states: seq<State>, leaf: nat, credit: (int, nat) -> int)
    requires TreeValid(nodes, states) && leaf < |nodes|
    ensures TreeValid(Propagate(nodes, Some(leaf), 0, credit), states)
  {
    PropagateKeepsTree(nodes, Some(leaf), credit);
  }

  /** A fresh top node for any state keeps the tree valid. */
  lemma AddTopValid(nodes: seq<TreeNode>, states: seq<State>, s: State)
    requires TreeValid(nodes, states) && IsBoard(s.board)
    ensures TreeValid(nodes + [Fresh(None, None, 0)], states + [s])
  {
    AddTopKeepsTree(nodes, Fresh(None, None, 0));
  }

  /**
   * Expanding a node whose game is not over gives it a child, and keeps the
   * way from it to `r` and every old node but for its own children.
   */
  lemma SomeChild(before: seq<TreeNode>, p: nat, s: State, r: nat) returns (move: int)
    requires ParentsBefore(before) && p < |before| && Dist(before, Some(p), r).Some?
    requires IsBoard(s.board) && !IsOver(s)
    ensures var after := AddChildren(before, p, LegalMoves(s), 0);
      && |after| >= |before| && ParentsBefore(after) && Dist(after, Some(p), r).Some?
      && move in after[p].children
      && (forall i :: 0 <= i < |before| ==>
            after[i].visits == before[i].visits && after[i].stats == before[i].stats
            && after[i].parent == before[i].parent)
      && (forall i :: 0 <= i < |before| && i != p ==> after[i] == before[i])
      && after[p] == before[p].(children := after[p].children)
  {
    var moves := LegalMoves(s);
    ChildrenAdded(before, p, moves, 0, r);
    NotOverHasMoves(s);
    move := moves[0];
  }

  /** `MonteCarloSearchTree`: the tree and the state at its root. */
  class MonteCarloSearchTree {
    var rootState: State
    var nodes: seq<TreeNode>
    var root: nat
    /** The state of each node: the root's is the root state, a child's is its parent's after its move. */
    ghost var states: seq<State>
    /** The UCB score of a visited node: wins, visits, parent visits, constant. */
    const ucb: (int, nat, nat, real) -> real

    ghost predicate Valid()
      reads this
    {
      TreeValid(nodes, states) && root < |nodes| && states[root] == rootState
    }

    /** What `select_node` compares a child by: its UCB score, from its parent's visits. */
    function ChildValue(): (TreeNode, nat) -> Score {
      (n: TreeNode, parentVisits: nat) => Ucb(n, parentVisits, ucb)
    }

    /** A child's score reads its visits and wins and not its children. */
    lemma ChildValueOfCounts(a: TreeNode, b: TreeNode)
      requires a.visits == b.visits && a.stats == b.stats
      ensures forall v :: ChildValue()(a, v) == ChildValue()(b, v)
    {
    }

    /** `MonteCarloSearchTree(state)`: a single fresh node over the state. */
    constructor (state: State, ucb: (int, nat, nat, real) -> real)
      requires IsBoard(state.board)
      ensures Valid() && this.ucb == ucb
      ensures rootState == state && nodes == [Fresh(None, None, 0)] && root == 0
    {
      rootState := state;
      nodes := [Fresh(None, None, 0)];
      root := 0;
      states := [state];
      this.ucb := ucb;
      new;
      SingleNodeTree<int, int>(Fresh(None, None, 0));
    }

    /** `backpropogate`, walking the parent links from `leaf` and passing the turn at each. */
    method BackPropagate(leaf: nat, whoseTurn: int, outcome: int)
      requires Valid() && leaf < |nodes|
      modifies this
      ensures Valid() && root == old(root) && rootState == old(rootState) && states == old(states)
      ensures nodes == Propagate(old(nodes), Some(leaf), 0, Credit(whoseTurn, outcome))
    {
      ghost var start := nodes;
      var credit := Credit(whoseTurn, outcome);
      PropagateValid(start, states, leaf, credit);
      var ns := nodes;
      var cur: Option<nat> := Some(leaf);
      ghost var d: nat := 0;
      var turn := whoseTurn;
      while cur.Some?
        invariant unchanged(this)
        invariant ParentsBefore(ns) && |ns| == |start|
        invariant cur.Some? ==> cur.value < |ns|
        invariant turn == TurnAt(whoseTurn, d)
        invariant Propagate(ns, cur, d, credit) == Propagate(start, Some(leaf), 0, credit)
        decreases if cur.Some? then cur.value + 1 else 0
      {
        var i := cur.value;
        var n := ns[i];
        var wins := if outcome == turn then n.stats + 1 else n.stats;
        PropagateStep(ns, i, d, credit);
        assert n.(visits := n.visits + 1, stats := wins) == Bump(n, credit, d);
        ns := ns[i := n.(visits := n.visits + 1, stats := wins)];
        cur := n.parent;
        turn := NextPlayer(turn);
        d := d + 1;
      }
      nodes := ns;
    }

    /** `add_children` for the nodes of `moves`, each a successful move from `p`. */
    method AddChildNodes(p: nat, moves: seq<int>)
      requires Valid() && p < |nodes|
      requires forall i :: 0 <= i < |moves| ==> Moved(moves[i], states[p]).Ok?
      modifies this
      ensures Valid() && root == old(root) && rootState == old(rootState)
      ensures nodes == AddChildren(old(nodes), p, moves, 0)
      ensures |states| >= |old(states)| && states[..|old(states)|] == old(states)
    {
      ghost var start := nodes;
      ghost var startStates := states;
      for i := 0 to |moves|
        invariant TreeValid(nodes, states) && p < |nodes| && root == old(root) && rootState == old(rootState)
        invariant AddChildren(nodes, p, moves[i..], 0) == AddChildren(start, p, moves, 0)
        invariant |states| >= |startStates| && states[..|startStates|] == startStates
      {
        assert moves[i..][1..] == moves[i + 1..];
        assert states[p] == startStates[p];
        AddChildValid(nodes, states, p, moves[i]);
        states := states + [Moved(moves[i], states[p]).value];
        nodes := AddChild(nodes, p, moves[i], 0);
      }
      assert moves[|moves|..] == [];
      assert states[root] == startStates[root];
    }

    /**
     * `expand`: unless a player has won or the board is a draw in `state`,
     * the state of the childless node `p`, one fresh child per legal move.
     */
    method Expand(p: nat, state: State) returns (expanded: bool)
      requires Valid() && p < |nodes| && nodes[p].children == map[] && state == states[p]
      modifies this
      ensures Valid() && root == old(root) && rootState == old(rootState)
      ensures expanded == !IsOver(state)
      ensures expanded ==> nodes == AddChildren(old(nodes), p, LegalMoves(state), 0)
      ensures !expanded ==> nodes == old(nodes) && states == old(states)
      ensures |states| >= |old(states)| && states[..|old(states)|] == old(states)
    {
      var over := CheckOver(state);
      if over {
        return false;
      }
      var moves := LegalMoves(state);
      LegalMovesSpec(state);
      AddChildNodes(p, moves);
      expanded := true;
    }

    /** One step down: the child of `node` by `move`, and the state its move makes. */
    method Step(node: nat, move: int, state: State) returns (child: nat, next: State)
      requires Valid() && node < |nodes| && move in nodes[node].children && state == states[node]
      ensures child == nodes[node].children[move] && child < |nodes| && next == states[child]
    {
      child := nodes[node].children[move];
      ChildState(nodes, states, node, move);
      var r := MakeMove(move, state);
      next := r.value;
    }

    /**
     * The descent of `select_node`: from the root through children of
     * maximal score, making each child's move, until the picked child is
     * unvisited (`stopped`) or the node has no children.
     */
    method Descend() returns (node: nat, state: State, stopped: bool)
      requires Valid()
      ensures node < |nodes| && state == states[node] && Dist(nodes, Some(node), root).Some?
      ensures BestAlong(nodes, ChildValue(), root, node)
      ensures stopped ==> nodes[node].visits == 0
      ensures !stopped ==> nodes[node].children == map[]
    {
      node := root;
      state := rootState;
      while nodes[node].children != map[]
        invariant node < |nodes| && state == states[node] && Dist(nodes, Some(node), root).Some?
        invariant BestAlong(nodes, ChildValue(), root, node)
        decreases |nodes| - node
      {
        var move := BestChild(nodes, node, ChildValue());
        ChildDescends(nodes, node, move, root);
        BestAlongChild(nodes, ChildValue(), root, node, move);
        node, state := Step(node, move, state);
        if nodes[node].visits == 0 {
          return node, state, true;
        }
      }
      stopped := false;
    }

    /**
     * The end of `select_node` at the childless node `node`: an expansion
     * and then any one of the new children, whose move is made; without an
     * expansion, `node` itself. Only the children of `node` change.
     */
    method Grow(node: nat, state: State) returns (leaf: nat, leafState: State)
      requires Valid() && node < |nodes| && nodes[node].children == map[] && state == states[node]
      requires Dist(nodes, Some(node), root).Some?
      modifies this
      ensures Valid() && root == old(root) && rootState == old(rootState)
      ensures leaf < |nodes| && leafState == states[leaf] && Dist(nodes, Some(leaf), root).Some?
      ensures leaf == node || nodes[leaf].parent == Some(node)
      ensures |nodes| >= |old(nodes)|
      ensures forall i :: 0 <= i < |old(nodes)| ==>
                nodes[i].visits == old(nodes)[i].visits && nodes[i].stats == old(nodes)[i].stats
                && nodes[i].parent == old(nodes)[i].parent
      ensures forall i :: 0 <= i < |old(nodes)| && i != node ==> nodes[i] == old(nodes)[i]
      ensures nodes[node] == old(nodes)[node].(children := nodes[node].children)
    {
      ghost var before := nodes;
      var expanded := Expand(node, state);
      if !expanded {
        return node, state;
      }
      ghost var some := SomeChild(before, node, state, root);
      var move :| move in nodes[node].children;
      ChildDescends(nodes, node, move, root);
      leaf, leafState := Step(node, move, state);
    }

    /**
     * `select_node`: the descent, then the growth of a childless node. The
     * node returned, or else its parent, is reached from the root through
     * children of maximal score.
     */
    method SelectNode() returns (node: nat, state: State)
      requires Valid()
      modifies this
      ensures Valid() && root == old(root) && rootState == old(rootState)
      ensures node < |nodes| && state == states[node] && Dist(nodes, Some(node), root).Some?
      ensures || BestAlong(nodes, ChildValue(), root, node)
              || (nodes[node].parent.Some? && BestAlong(nodes, ChildValue(), root, nodes[node].parent.value))
      ensures |nodes| >= |old(nodes)|
      ensures forall i :: 0 <= i < |old(nodes)| ==>
                nodes[i].visits == old(nodes)[i].visits && nodes[i].stats == old(nodes)[i].stats
                && nodes[i].parent == old(nodes)[i].parent
    {
      var stopped;
      node, state, stopped := Descend();
      if !stopped {
        ghost var before := nodes;
        var leaf, leafState := Grow(node, state);
        ChildValueOfCounts(nodes[node], before[node]);
        BestAlongKept(before, nodes, ChildValue(), root, node, node);
        node, state := leaf, leafState;
      }
    }

    /**
     * `search`: each of the `iterations` rounds selects a node, rolls out
     * from its state and back-propagates the outcome for the player to move
     * at the selected node. Every round adds one visit to the root.
     */
    method Search(iterations: nat)
      requires Valid()
      modifies this
      ensures Valid() && root == old(root) && rootState == old(rootState)
      ensures nodes[root].visits == old(nodes[root].visits) + iterations
    {
      for i := 0 to iterations
        invariant Valid() && root == old(root) && rootState == old(rootState)
        invariant nodes[root].visits == old(nodes[root].visits) + i
      {
        var leaf, state := SelectNode();
        var outcome, _ := Rollout(state);
        PropagateReachesTop(nodes, leaf, root, Credit(state.toPlay, outcome));
        BackPropagate(leaf, state.toPlay, outcome);
      }
    }

    /**
     * `best_move`: -1 when the game is over; otherwise a move of a root
     * child with the most visits, and an error when the root has no children.
     */
    method BestMove() returns (r: Result<int, string>)
      requires Valid()
      ensures IsOver(rootState) ==> r == Ok(-1)
      ensures !IsOver(rootState) ==> (r.Ok? <==> nodes[root].children != map[])
      ensures !IsOver(rootState) && r.Ok? ==>
                && r.value in nodes[root].children
                && forall k :: k in nodes[root].children ==>
                     nodes[nodes[root].children[k]].visits <= nodes[nodes[root].children[r.value]].visits
    {
      var over := CheckOver(rootState);
      if over {
        return Ok(-1);
      }
      if nodes[root].children == map[] {
        return Err("max() arg is an empty sequence");
      }
      var visits := ChildVisits(nodes, root);
      ghost var best := MaxVisitsAmong(visits, visits.Keys);
      assert best in visits && forall j :: j in visits ==> visits[j] <= visits[best];
      var move :| move in visits && forall j :: j in visits ==> visits[j] <= visits[move];
      return Ok(move);
    }

    /**
     * `move`: makes the move on the root state and moves the root to the
     * move's child, or to a fresh node when there is none. A move that fails
     * raises its error and changes nothing.
     */
    method Move(move: int) returns (r: Result<(), Error>)
      requires Valid()
      modifies this
      ensures Valid()
      ensures Moved(move, old(rootState)).Err? ==>
                r == Err(Moved(move, old(rootState)).error)
                && rootState == old(rootState) && nodes == old(nodes) && root == old(root)
      ensures Moved(move, old(rootState)).Ok? ==> r.Ok? && rootState == Moved(move, old(rootState)).value
      ensures Moved(move, old(rootState)).Ok? && move in old(nodes[root].children) ==>
                nodes == old(nodes) && root == old(nodes[root].children[move])
      ensures Moved(move, old(rootState)).Ok? && move !in old(nodes[root].children) ==>
                nodes == old(nodes) + [Fresh(None, None, 0)] && root == |old(nodes)|
    {
      var next := MakeMove(move, rootState);
      if next.Err? {
        return Err(next.error);
      }
      MovedSpec(move, rootState);
      if move in nodes[root].children {
        ChildState(nodes, states, root, move);
        rootState := next.value;
        root := nodes[root].children[move];
        return Ok(());
      }
      rootState := next.value;
      AddTopValid(nodes, states, rootState);
      nodes := nodes + [Fresh(None, None, 0)];
      states := states + [rootState];
      root := |nodes| - 1;
      return Ok(());
    }
  }
}
