/**
 * The Monte Carlo tree search that plays Ninety-Nine. Each node counts, for
 * each of the three players, the roll-outs below it in which that player
 * made the bid; a node's value reads player 0's count only.
 *
 * The UCT formula (a square root and a logarithm on floats) is a parameter
 * `uct` of the search; only its zero-visit branch is spelled out.
 */
module NinetyNineSearch {
  import opened Wrappers
  import opened Cards
  import opened NinetyNineState
  import opened SearchTree

  /** A node's statistics: the made-bid counts of players 0, 1 and 2. */
  type Totals = seq<int>

  type TreeNode = Node<Card, Totals>

  /** The player whose made-bid count a node's value reads. */
  const AiPlayerNum: nat := 0

  /** `EXPLORATION`, the double nearest the square root of two. */
  const Exploration: real := 1.4142135623730951

  const ZeroTotals: Totals := [0, 0, 0]

  /** `Node(card_played, parent)`. */
  function NewNode(card: Option<Card>, parent: Option<nat>): (n: TreeNode)
    ensures n.visits == 0 && n.children == map[] && n.key == card && n.parent == parent
    ensures |n.stats| == 3 && forall p :: 0 <= p < 3 ==> n.stats[p] == 0
  {
    Fresh(card, parent, ZeroTotals)
  }

  /**
   * `Node.value`: an unvisited node is worth 0 without exploration and
   * infinity with it; a visited node gets the UCT score of player 0's count.
   */
  function Value(n: TreeNode, parentVisits: nat, explore: real, uct: (int, nat, nat, real) -> real): Score
    requires |n.stats| == 3
  {
    if n.visits == 0 then
      (if explore == 0.0 then Fin(0.0) else Inf)
    else
      Fin(uct(n.stats[AiPlayerNum], n.visits, parentVisits, explore))
  }

  /** An unvisited node is worth infinity exactly when exploring; a visited node is never worth infinity. */
  lemma ValueInfinite(n: TreeNode, parentVisits: nat, explore: real, uct: (int, nat, nat, real) -> real)
    requires |n.stats| == 3
    ensures Value(n, parentVisits, explore, uct) == Inf <==> n.visits == 0 && explore != 0.0
    ensures n.visits == 0 && explore == 0.0 ==> Value(n, parentVisits, explore, uct) == Fin(0.0)
  {
  }

  /** Only player 0's count matters: nodes that differ in players 1 and 2 only are worth the same. */
  lemma ValueReadsPlayerZero(a: TreeNode, b: TreeNode, parentVisits: nat, explore: real, uct: (int, nat, nat, real) -> real)
    requires |a.stats| == 3 && |b.stats| == 3
    requires a.visits == b.visits && a.stats[0] == b.stats[0]
    ensures Value(a, parentVisits, explore, uct) == Value(b, parentVisits, explore, uct)
  {
  }

  /** `players_making_bid` added to a node's counts: one for each player who scored more than 9. */
  function Credit(scores: seq<int>): (Totals, nat) -> Totals {
    (t: Totals, d: nat) =>
      seq(3, p requires 0 <= p < 3 =>
        (if p < |t| then t[p] else 0) + (if p < |scores| && scores[p] > 9 then 1 else 0))
  }

  lemma CreditAt(scores: seq<int>, t: Totals, d: nat, p: nat)
    requires |scores| == 3 && |t| == 3 && p < 3
    ensures |Credit(scores)(t, d)| == 3
    ensures Credit(scores)(t, d)[p] == t[p] + (if scores[p] > 9 then 1 else 0)
  {
  }

  /**
   * What `back_propagate` does to each node: a node on the way up from the
   * leaf gains one visit and one count for each player who scored more than
   * 9; every other node is unchanged.
   */
  lemma BackPropagated(nodes: seq<TreeNode>, leaf: nat, scores: seq<int>, i: nat, p: nat)
    requires ParentsBefore(nodes) && leaf < |nodes| && i < |nodes| && |scores| == 3 && p < 3
    requires |nodes[i].stats| == 3
    ensures var r := Propagate(nodes, Some(leaf), 0, Credit(scores));
      && |r| == |nodes|
      && r[i].key == nodes[i].key && r[i].parent == nodes[i].parent && r[i].children == nodes[i].children
      && (Dist(nodes, Some(leaf), i).Some? ==>
            r[i].visits == nodes[i].visits + 1 && |r[i].stats| == 3
            && r[i].stats[p] == nodes[i].stats[p] + (if scores[p] > 9 then 1 else 0))
      && (Dist(nodes, Some(leaf), i).None? ==> r[i] == nodes[i])
  {
    PropagateAt(nodes, Some(leaf), 0, Credit(scores), i);
    if Dist(nodes, Some(leaf), i).Some? {
      CreditAt(scores, nodes[i].stats, Dist(nodes, Some(leaf), i).value, p);
    }
  }

  /** The state `s` is `g` with a full trick finished, or `g` itself when its trick is not full. */
  ghost predicate Settles(g: GameState, s: GameState) {
    if IsFull(g.trick) then
      exists w :: 0 <= w < |g.players| && IsTrickWinner(g.trick, g.trump, w) && s == FinishedWith(g, w)
    else
      s == g
  }

  /**
   * Finishing the trick of `g` cannot fail: it is not full, or its leader
   * has played and every card in it comes from a player at the table.
   */
  predicate Settleable(g: GameState) {
    !IsFull(g.trick)
    || (&& g.trick.leadPlayer.Some? && g.trick.leadPlayer.value in g.trick.cards
        && forall q :: q in g.trick.cards ==> 0 <= q < |g.players|)
  }

  /** Finishing the trick when it is full, as every step of the search does before a card is played. */
  method Settle(g: GameState) returns (r: Result<GameState, Error>)
    ensures !IsFull(g.trick) ==> r == Ok(g)
    ensures Settleable(g) ==> r.Ok?
    ensures r.Ok? ==> Settles(g, r.value)
  {
    if IsFull(g.trick) {
      r := FinishTrick(g);
    } else {
      r := Ok(g);
    }
  }

  /** `s` is `g` with a full trick finished, and `card` can be played on it by the player to move. */
  ghost predicate TriedOn(g: GameState, card: Card, s: GameState) {
    Settles(g, s) && CardPlay(s, s.nextToPlay, card).Ok?
  }

  /**
   * The last step of `select_node`: a full trick is finished, and the card
   * is played on the result only for the errors it may raise; the state
   * returned is the one before the card.
   */
  method SettleAndTry(g: GameState, card: Card) returns (r: Result<GameState, Error>)
    ensures r.Ok? ==> TriedOn(g, card, r.value)
  {
    var s :- Settle(g);
    var discarded :- CardPlay(s, s.nextToPlay, card);
    r := Ok(s);
  }

  /** The number of cards left in the players' hands. */
  function CardsLeft(ps: seq<PlayerData>): nat {
    if ps == [] then 0 else CardsLeft(ps[..|ps| - 1]) + |ps[|ps| - 1].hand|
  }

  /** Replacing one player changes the count by the difference in hand sizes. */
  lemma {:induction false} CardsLeftUpdate(ps: seq<PlayerData>, q: nat, x: PlayerData)
    requires q < |ps|
    ensures CardsLeft(ps[q := x]) + |ps[q].hand| == CardsLeft(ps) + |x.hand|
  {
    var n := |ps| - 1;
    if q < n {
      assert ps[q := x][..n] == ps[..n][q := x];
      CardsLeftUpdate(ps[..n], q, x);
    } else {
      assert ps[q := x][..n] == ps[..n];
    }
  }

  /** Players with the same hands hold the same number of cards. */
  lemma {:induction false} CardsLeftSameHands(a: seq<PlayerData>, b: seq<PlayerData>)
    requires |a| == |b| && forall i :: 0 <= i < |a| ==> a[i].hand == b[i].hand
    ensures CardsLeft(a) == CardsLeft(b)
  {
    if a != [] {
      CardsLeftSameHands(a[..|a| - 1], b[..|b| - 1]);
    }
  }

  /**
   * `s` continues the hand of `g`: the same trump and players, the history
   * of `g` followed by more tricks, and every player with the same bid, no
   * new card in hand and no trick lost.
   */
  ghost predicate Continues(g: GameState, s: GameState) {
    && s.trump == g.trump && |s.players| == |g.players|
    && |g.history| <= |s.history| && s.history[..|g.history|] == g.history
    && forall i :: 0 <= i < |g.players| ==>
         && s.players[i].hand <= g.players[i].hand && s.players[i].bid == g.players[i].bid
         && s.players[i].tricksWon >= g.players[i].tricksWon
  }

  /** A card play continues the hand and takes one card out of it. */
  lemma ContinuesByPlay(g: GameState, s: GameState, p: Option<int>, c: Card)
    requires Continues(g, s) && CardPlay(s, p, c).Ok?
    ensures Continues(g, CardPlay(s, p, c).value)
    ensures CardsLeft(CardPlay(s, p, c).value.players) + 1 == CardsLeft(s.players)
  {
    var t := CardPlay(s, p, c).value;
    var q := p.value;
    assert t.players == s.players[q := t.players[q]];
    CardsLeftUpdate(s.players, q, t.players[q]);
  }

  /** Finishing a trick continues the hand and keeps every card in hand. */
  lemma ContinuesByFinish(g: GameState, s: GameState, w: int)
    requires Continues(g, s) && 0 <= w < |s.players|
    ensures Continues(g, FinishedWith(s, w))
    ensures CardsLeft(FinishedWith(s, w).players) == CardsLeft(s.players)
  {
    var t := FinishedWith(s, w);
    FinishedWithState(s, w);
    assert t.history[..|g.history|] == (s.history + [s.trick.(winner := Some(w))])[..|g.history|];
    CardsLeftSameHands(t.players, s.players);
  }

  /**
   * `roll_out`: from `state`, finish every full trick and let the player to
   * move play any legal card, until the hand is over; then its scores. A
   * trick that cannot be finished, a player who may not play, an empty
   * choice and the scores of a hand that is not over are the errors the
   * source raises. The final state is returned beside the result for the
   * contract.
   */
  method RollOut(state: GameState) returns (r: Result<seq<int>, Error>, ghost final: GameState)
    ensures Continues(state, final)
    ensures r.Ok? ==> GameIsOver(final) && r == Scores(final)
    ensures GameIsOver(state) ==> final == state && r == Scores(state)
  {
    var s := state;
    final := s;
    while !GameIsOver(s)
      invariant Continues(state, s) && final == s
      invariant GameIsOver(state) ==> s == state
      decreases CardsLeft(s.players)
    {
      var current := s.nextToPlay;
      if current.None? {
        var finished := FinishTrick(s);
        if finished.Err? {
          return Err(finished.error), final;
        }
        ghost var w :| 0 <= w < |s.players| && IsTrickWinner(s.trick, s.trump, w) && finished.value == FinishedWith(s, w);
        ContinuesByFinish(state, s, w);
        s := finished.value;
        final := s;
        current := s.nextToPlay;
      }
      if s.nextToPlay.None? {
        break;
      }
      var legal := LegalCardPlays(s, current);
      if legal.Err? {
        return Err(legal.error), final;
      }
      if legal.value == {} {
        return Err(IndexError), final;
      }
      var card :| card in legal.value;
      var played := CardPlay(s, current, card);
      if played.Err? {
        return Err(played.error), final;
      }
      ContinuesByPlay(state, s, current, card);
      s := played.value;
      final := s;
    }
    r := Scores(s);
  }

  /** `s` is `g` after finishing a full trick and then `card` played by the player to move. */
  ghost predicate PlayedFrom(g: GameState, card: Card, s: GameState) {
    exists t :: Settles(g, t) && CardPlay(t, t.nextToPlay, card) == Ok(s)
  }

  /**
   * `s` is `g`, the state at the top `r`, with the cards of the nodes on the
   * way down from `r` to `n` played in turn, each after finishing a full
   * trick: the state `select_node` carries down to `n`.
   */
  ghost predicate ReachedAlong(nodes: seq<TreeNode>, r: nat, n: nat, g: GameState, s: GameState)
    requires ParentsBefore(nodes) && n < |nodes|
    decreases n
  {
    if n == r then
      s == g
    else
      && nodes[n].parent.Some? && nodes[n].key.Some?
      && exists m :: ReachedAlong(nodes, r, nodes[n].parent.value, g, m) && PlayedFrom(m, nodes[n].key.value, s)
  }

  /** Finishing a full trick of `g`, then playing `card` for the player to move, as each step of the descent does. */
  method SettleAndPlay(g: GameState, card: Card) returns (r: Result<GameState, Error>)
    ensures r.Ok? ==> PlayedFrom(g, card, r.value)
  {
    var s :- Settle(g);
    r := CardPlay(s, s.nextToPlay, card);
  }

  /** One step down: the child by `card` is reached with the state its card makes from its parent's. */
  lemma ReachedChild(nodes: seq<TreeNode>, r: nat, n: nat, card: Card, g: GameState, m: GameState, s: GameState)
    requires WellFormed(nodes) && n < |nodes| && card in nodes[n].children
    requires Dist(nodes, Some(n), r).Some?
    requires ReachedAlong(nodes, r, n, g, m) && PlayedFrom(m, card, s)
    ensures ReachedAlong(nodes, r, nodes[n].children[card], g, s)
  {
    DistBelow(nodes, Some(n), r);
    var c := nodes[n].children[card];
    assert c != r && nodes[c].parent == Some(n) && nodes[c].key == Some(card);
    assert ReachedAlong(nodes, r, nodes[c].parent.value, g, m) && PlayedFrom(m, nodes[c].key.value, s);
  }

  /**
   * `n`'s parent is reached with some state `m`, and `s` is `m` with a full
   * trick finished, on which `n`'s card can be played: the state the source
   * returns with a freshly expanded child.
   */
  ghost predicate TriedBelow(nodes: seq<TreeNode>, r: nat, n: nat, g: GameState, s: GameState)
    requires ParentsBefore(nodes) && n < |nodes|
  {
    && nodes[n].parent.Some? && nodes[n].key.Some?
    && exists m :: ReachedAlong(nodes, r, nodes[n].parent.value, g, m) && TriedOn(m, nodes[n].key.value, s)
  }

  /** The states along a way down depend only on the parents and cards of the nodes on it. */
  lemma {:induction false} ReachedAlongSame(a: seq<TreeNode>, b: seq<TreeNode>, r: nat, n: nat, g: GameState, s: GameState)
    requires ParentsBefore(a) && ParentsBefore(b) && n < |a| && n < |b|
    requires forall j :: 0 <= j <= n ==> a[j].parent == b[j].parent && a[j].key == b[j].key
    ensures ReachedAlong(a, r, n, g, s) == ReachedAlong(b, r, n, g, s)
    decreases n
  {
    if n != r && a[n].parent.Some? {
      var p := a[n].parent.value;
      forall m
        ensures ReachedAlong(a, r, p, g, m) == ReachedAlong(b, r, p, g, m)
      {
        ReachedAlongSame(a, b, r, p, g, m);
      }
    }
  }

  /**
   * Expanding the childless node `p`, reached from the top `r`, keeps every
   * old node but for the children of `p`, and each new child is unvisited
   * and reached from `r`.
   */
  lemma ExpandedChildren(before: seq<TreeNode>, after: seq<TreeNode>, p: nat, cards: set<Card>, r: nat)
    requires WellFormed(before) && Expanded(before, after, p, cards, ZeroTotals)
    requires before[p].children == map[] && Dist(before, Some(p), r).Some?
    ensures |after| >= |before| && WellFormed(after)
    ensures forall i :: 0 <= i < |before| ==>
              after[i].visits == before[i].visits && after[i].stats == before[i].stats
              && after[i].parent == before[i].parent && after[i].key == before[i].key
    ensures forall i :: 0 <= i < |before| && i != p ==> after[i] == before[i]
    ensures after[p] == before[p].(children := after[p].children)
    ensures forall k :: k in after[p].children ==>
              after[after[p].children[k]].visits == 0 && Dist(after, Some(after[p].children[k]), r).Some?
  {
    ExpandedSpec(before, after, p, cards, ZeroTotals);
    ExpandedKeepsPath(before, after, p, cards, ZeroTotals, p, r);
    forall k | k in after[p].children
      ensures Dist(after, Some(after[p].children[k]), r).Some?
    {
      ChildDescends(after, p, k, r);
    }
  }

  /** The search tree with the state at its root. */
  class NinetyNineMCST {
    var nodes: seq<TreeNode>
    var root: nat
    var rootState: GameState
    /** The UCT score of a visited node: player 0's count, visits, parent visits, exploration. */
    const uct: (int, nat, nat, real) -> real

    predicate Valid()
      reads this
    {
      && WellFormed(nodes) && VisitsBounded(nodes) && root < |nodes|
      && forall i :: 0 <= i < |nodes| ==> |nodes[i].stats| == 3
    }

    /**
     * What `select_node` compares a child by: its value with exploration,
     * from its parent's visits. Every node of a valid tree holds three
     * counts, so the guard always holds there.
     */
    function ChildValue(): (TreeNode, nat) -> Score {
      (n: TreeNode, parentVisits: nat) => if |n.stats| == 3 then Value(n, parentVisits, Exploration, uct) else Fin(0.0)
    }

    /** A child's value reads its visits and counts and not its children. */
    lemma ChildValueOfCounts(a: TreeNode, b: TreeNode)
      requires a.visits == b.visits && a.stats == b.stats
      ensures forall v :: ChildValue()(a, v) == ChildValue()(b, v)
    {
    }

    constructor (state: GameState, uct: (int, nat, nat, real) -> real)
      ensures Valid()
      ensures nodes == [NewNode(None, None)] && root == 0 && rootState == state && this.uct == uct
    {
      nodes := [NewNode(None, None)];
      root := 0;
      rootState := state;
      this.uct := uct;
    }

    /** A child of maximal value is unvisited whenever some child of `p` is unvisited. */
    lemma UnvisitedChildFirst(p: nat, best: Card, other: Card)
      requires Valid() && p < |nodes|
      requires IsBestChild(nodes, p, best, ChildValue()) && other in nodes[p].children
      requires nodes[nodes[p].children[other]].visits == 0
      ensures nodes[nodes[p].children[best]].visits == 0
    {
      var m := ChildScores(nodes, p, ChildValue());
      UnvisitedPreferred(m, best, other);
      ValueInfinite(nodes[nodes[p].children[best]], nodes[p].visits, Exploration, uct);
    }

    /** `back_propagate`, walking the parent links from `leaf` until there is none. */
    method BackPropagate(leaf: nat, scores: seq<int>)
      requires Valid() && leaf < |nodes| && |scores| == 3
      modifies this
      ensures Valid()
      ensures nodes == Propagate(old(nodes), Some(leaf), 0, Credit(scores))
      ensures root == old(root) && rootState == old(rootState)
    {
      ghost var start := nodes;
      var credit := Credit(scores);
      var ns := nodes;
      var cur: Option<nat> := Some(leaf);
      var d: nat := 0;
      while cur.Some?
        invariant unchanged(this)
        invariant ParentsBefore(ns) && |ns| == |start|
        invariant cur.Some? ==> cur.value < |ns|
        invariant Propagate(ns, cur, d, credit) == Propagate(start, Some(leaf), 0, credit)
        decreases if cur.Some? then cur.value + 1 else 0
      {
        var i := cur.value;
        var n := ns[i];
        PropagateStep(ns, i, d, credit);
        ns := ns[i := n.(visits := n.visits + 1, stats := credit(n.stats, d))];
        cur := n.parent;
        d := d + 1;
      }
      nodes := ns;
      PropagateKeepsTree(start, Some(leaf), credit);
      forall i | 0 <= i < |nodes| ensures |nodes[i].stats| == 3 {
        BackPropagated(start, leaf, scores, i, 0);
      }
    }

    /** `add_children`: the children are entered one after another. */
    method AddChildNodes(p: nat, cards: seq<Card>)
      requires Valid() && p < |nodes|
      modifies this
      ensures Valid()
      ensures nodes == AddChildren(old(nodes), p, cards, ZeroTotals)
      ensures root == old(root) && rootState == old(rootState)
    {
      ghost var start := nodes;
      AddChildrenKeepsTree(start, p, cards, ZeroTotals);
      AddChildrenSpec(start, p, cards, ZeroTotals);
      for i := 0 to |cards|
        invariant p < |nodes| && root == old(root) && rootState == old(rootState)
        invariant AddChildren(nodes, p, cards[i..], ZeroTotals) == AddChildren(start, p, cards, ZeroTotals)
      {
        assert cards[i..][1..] == cards[i + 1..];
        nodes := AddChild(nodes, p, cards[i], ZeroTotals);
      }
      assert cards[|cards|..] == [];
      forall i | 0 <= i < |nodes| ensures |nodes[i].stats| == 3 {
        if i >= |start| {
          assert nodes[|start| + (i - |start|)] == Fresh(Some(cards[i - |start|]), Some(p), ZeroTotals);
        }
      }
    }

    /**
     * `expand`: finishes a full trick, then adds one fresh child per legal
     * card of the player to move unless the game is over. The legal cards
     * are entered in the set's iteration order, which the model leaves open.
     */
    method Expand(p: nat, state: GameState) returns (r: Result<bool, Error>, ghost settled: GameState)
      requires Valid() && p < |nodes|
      modifies this
      ensures Valid() && root == old(root) && rootState == old(rootState)
      ensures Settleable(state) ==> Settles(state, settled)
      ensures r.Err? ==> !Settleable(state) || (!GameIsOver(settled) && LegalCardPlays(settled, settled.nextToPlay).Err?)
      ensures r.Ok? ==> Settles(state, settled) && (r.value <==> !GameIsOver(settled))
      ensures r.Ok? && r.value ==>
                LegalCardPlays(settled, settled.nextToPlay).Ok?
                && Expanded(old(nodes), nodes, p, LegalCardPlays(settled, settled.nextToPlay).value, ZeroTotals)
      ensures !(r.Ok? && r.value) ==> nodes == old(nodes)
    {
      settled := state;
      var s :- Settle(state);
      settled := s;
      if GameIsOver(s) {
        return Ok(false), settled;
      }
      var legal :- LegalCardPlays(s, s.nextToPlay);
      var cards := ListOf(legal);
      ghost var before := nodes;
      AddChildNodes(p, cards);
      assert ExpandedBy(before, nodes, p, legal, ZeroTotals, cards);
      r := Ok(true);
    }

    /**
     * The descent of `select_node`: from the root through children of
     * maximal value, playing each child's card on a copy of the root state
     * (finishing a full trick first), until the picked child is unvisited
     * (`stopped`) or the node has no children.
     */
    method Descend() returns (r: Result<(nat, GameState, bool), Error>)
      requires Valid()
      ensures r.Ok? ==> r.value.0 < |nodes| && Dist(nodes, Some(r.value.0), root).Some?
      ensures r.Ok? ==> ReachedAlong(nodes, root, r.value.0, rootState, r.value.1)
      ensures r.Ok? ==> BestAlong(nodes, ChildValue(), root, r.value.0)
      ensures r.Ok? && r.value.2 ==> nodes[r.value.0].visits == 0
      ensures r.Ok? && !r.value.2 ==> nodes[r.value.0].children == map[]
    {
      var node: nat := root;
      var state := rootState;
      while nodes[node].children != map[]
        invariant node < |nodes| && Dist(nodes, Some(node), root).Some?
        invariant ReachedAlong(nodes, root, node, rootState, state)
        invariant BestAlong(nodes, ChildValue(), root, node)
        decreases |nodes| - node
      {
        var card := BestChild(nodes, node, ChildValue());
        var child := nodes[node].children[card];
        BestAlongChild(nodes, ChildValue(), root, node, card);
        ChildDescends(nodes, node, card, root);
        var next :- SettleAndPlay(state, card);
        ReachedChild(nodes, root, node, card, rootState, state, next);
        node, state := child, next;
        if nodes[node].visits == 0 {
          return Ok((node, state, true));
        }
      }
      return Ok((node, state, false));
    }

    /**
     * The end of `select_node` at the childless node `node`: an expansion
     * and then any one of the new children, whose card is tried on the
     * state with a full trick finished, which is returned; without an
     * expansion, `node` itself with `state`.
     */
    method Grow(node: nat, state: GameState) returns (r: Result<(nat, GameState), Error>)
      requires Valid() && node < |nodes| && nodes[node].children == map[]
      requires Dist(nodes, Some(node), root).Some?
      modifies this
      ensures Valid() && root == old(root) && rootState == old(rootState)
      ensures |nodes| >= |old(nodes)|
      ensures forall i :: 0 <= i < |old(nodes)| ==>
                nodes[i].visits == old(nodes)[i].visits && nodes[i].stats == old(nodes)[i].stats
                && nodes[i].parent == old(nodes)[i].parent && nodes[i].key == old(nodes)[i].key
      ensures forall i :: 0 <= i < |old(nodes)| && i != node ==> nodes[i] == old(nodes)[i]
      ensures nodes[node] == old(nodes)[node].(children := nodes[node].children)
      ensures r.Ok? ==> r.value.0 < |nodes| && Dist(nodes, Some(r.value.0), root).Some?
      ensures r.Ok? ==> nodes[r.value.0].visits == 0 || nodes[r.value.0].children == map[]
      ensures r.Ok? ==>
                || r.value == (node, state)
                || (&& nodes[r.value.0].parent == Some(node) && nodes[r.value.0].key.Some?
                    && TriedOn(state, nodes[r.value.0].key.value, r.value.1))
    {
      ghost var before := nodes;
      var expanded, settled :- Expand(node, state);
      if !expanded {
        return Ok((node, state));
      }
      ExpandedChildren(before, nodes, node, LegalCardPlays(settled, settled.nextToPlay).value, root);
      if nodes[node].children == map[] {
        return Err(IndexError);
      }
      var card :| card in nodes[node].children;
      var child := nodes[node].children[card];
      assert nodes[child].parent == Some(node) && nodes[child].key == Some(card);
      var settledState :- SettleAndTry(state, card);
      return Ok((child, settledState));
    }

    /**
     * Changing only the children of `node`, and none of the visits or
     * counts, keeps it reached from the root through children of maximal
     * value.
     */
    lemma GrownKeepsBest(a: seq<TreeNode>, b: seq<TreeNode>, node: nat)
      requires WellFormed(a) && WellFormed(b) && node < |a| <= |b|
      requires forall i :: 0 <= i < |a| && i != node ==> b[i] == a[i]
      requires b[node].visits == a[node].visits && b[node].stats == a[node].stats
      requires b[node].parent == a[node].parent && b[node].key == a[node].key
      requires BestAlong(a, ChildValue(), root, node)
      ensures BestAlong(b, ChildValue(), root, node)
    {
      ChildValueOfCounts(b[node], a[node]);
      BestAlongKept(a, b, ChildValue(), root, node, node);
    }

    /**
     * `select_node`: the descent, then, at a node without children, an
     * expansion and any one of the new children. The state returned is the
     * root state with the cards down to the node played; for a freshly
     * expanded child, the card of the child is played only to raise its
     * errors, and the state returned is its parent's with a full trick
     * finished.
     */
    method SelectNode() returns (r: Result<(nat, GameState), Error>)
      requires Valid()
      modifies this
      ensures Valid() && root == old(root) && rootState == old(rootState)
      ensures |nodes| >= |old(nodes)|
      ensures forall i :: 0 <= i < |old(nodes)| ==>
                nodes[i].visits == old(nodes)[i].visits && nodes[i].stats == old(nodes)[i].stats
                && nodes[i].parent == old(nodes)[i].parent
      ensures r.Ok? ==> r.value.0 < |nodes| && Dist(nodes, Some(r.value.0), root).Some?
      ensures r.Ok? ==> nodes[r.value.0].visits == 0 || nodes[r.value.0].children == map[]
      ensures r.Ok? ==>
                || ReachedAlong(nodes, root, r.value.0, rootState, r.value.1)
                || TriedBelow(nodes, root, r.value.0, rootState, r.value.1)
      ensures r.Ok? ==>
                || BestAlong(nodes, ChildValue(), root, r.value.0)
                || (nodes[r.value.0].parent.Some? && BestAlong(nodes, ChildValue(), root, nodes[r.value.0].parent.value))
    {
      var descent :- Descend();
      var node, state, stopped := descent.0, descent.1, descent.2;
      if stopped {
        return Ok((node, state));
      }
      ghost var before := nodes;
      r := Grow(node, state);
      ReachedAlongSame(before, nodes, root, node, rootState, state);
      GrownKeepsBest(before, nodes, node);
      if r.Ok? && r.value != (node, state) {
        assert TriedBelow(nodes, root, r.value.0, rootState, r.value.1);
      }
    }

    /**
     * `best_move`: a card of a root child with the most visits; an error
     * when the game is over, or when the root has no children.
     */
    method BestMove() returns (r: Result<Card, Error>)
      requires Valid()
      ensures GameIsOver(rootState) ==> r.Err?
      ensures !GameIsOver(rootState) && nodes[root].children != map[] ==> r.Ok?
      ensures r.Ok? ==> r.value in nodes[root].children
      ensures r.Ok? ==> forall k :: k in nodes[root].children ==>
                nodes[nodes[root].children[k]].visits <= nodes[nodes[root].children[r.value]].visits
    {
      if GameIsOver(rootState) {
        return Err(KeyError("The game has ended"));
      }
      if nodes[root].children == map[] {
        return Err(ValueError("max() arg is an empty sequence"));
      }
      var visits := ChildVisits(nodes, root);
      MaxVisitsExists(visits);
      var card :| card in visits && forall j :: j in visits ==> visits[j] <= visits[card];
      return Ok(card);
    }

    /**
     * `play_card`: advances the root state by the card, finishing a full
     * trick first, and moves the root to the card's child, or to a fresh
     * node when there is none. The new root keeps its parent link, and the
     * nodes left above it stay in the arena. An error leaves the tree as it
     * was, and the root state as far as it got.
     */
    method PlayCard(card: Card) returns (r: Result<(), Error>)
      requires Valid()
      modifies this
      ensures Valid()
      ensures r.Ok? ==> exists s :: Settles(old(rootState), s) && CardPlay(s, s.nextToPlay, card) == Ok(rootState)
      ensures r.Ok? && card in old(nodes[root].children) ==>
                nodes == old(nodes) && root == old(nodes[root].children[card]) && nodes[root].parent == Some(old(root))
      ensures r.Ok? && card !in old(nodes[root].children) ==>
                nodes == old(nodes) + [NewNode(None, None)] && root == |old(nodes)|
      ensures r.Err? ==> nodes == old(nodes) && root == old(root)
      ensures r.Err? ==> rootState == old(rootState) || Settles(old(rootState), rootState)
      ensures !IsFull(old(rootState).trick) ==> (r.Ok? <==> CardPlay(old(rootState), old(rootState).nextToPlay, card).Ok?)
      ensures r.Err? ==> !Settleable(old(rootState))
                         || (Settles(old(rootState), rootState) && CardPlay(rootState, rootState.nextToPlay, card).Err?)
    {
      var settled :- Settle(rootState);
      rootState := settled;
      var next :- CardPlay(rootState, rootState.nextToPlay, card);
      rootState := next;
      Reroot(card);
      r := Ok(());
    }

    /** The root moves to the child of `card`, or to a fresh node when there is none. */
    method Reroot(card: Card)
      requires Valid()
      modifies this
      ensures Valid() && rootState == old(rootState)
      ensures card in old(nodes[root].children) ==>
                nodes == old(nodes) && root == old(nodes[root].children[card]) && nodes[root].parent == Some(old(root))
      ensures card !in old(nodes[root].children) ==>
                nodes == old(nodes) + [NewNode(None, None)] && root == |old(nodes)|
    {
      if card in nodes[root].children {
        root := nodes[root].children[card];
      } else {
        AddTopKeepsTree(nodes, NewNode(None, None));
        nodes := nodes + [NewNode(None, None)];
        root := |nodes| - 1;
      }
    }

    /**
     * `search` with the time budget replaced by a number of rounds: each
     * round selects a node, rolls out from its state and back-propagates the
     * scores of the roll-out. Every round adds one visit to the root; an
     * error, which the source raises out of `search`, ends the rounds early.
     */
    method Search(rounds: nat) returns (r: Result<(), Error>)
      requires Valid()
      modifies this
      ensures Valid() && root == old(root) && rootState == old(rootState)
      ensures r.Ok? ==> nodes[root].visits == old(nodes[root].visits) + rounds
      ensures r.Err? ==> old(nodes[root].visits) <= nodes[root].visits < old(nodes[root].visits) + rounds
    {
      for i := 0 to rounds
        invariant Valid() && root == old(root) && rootState == old(rootState)
        invariant nodes[root].visits == old(nodes[root].visits) + i
      {
        var selected :- SelectNode();
        var leaf := selected.0;
        var rolled;
        ghost var final;
        rolled, final := RollOut(selected.1);
        if rolled.Err? {
          return Err(rolled.error);
        }
        if |rolled.value| < 3 {
          return Err(KeyError("the scores lack a player"));
        }
        var scores := rolled.value[..3];
        PropagateReachesTop(nodes, leaf, root, Credit(scores));
        BackPropagate(leaf, scores);
      }
      r := Ok(());
    }
  }
}
