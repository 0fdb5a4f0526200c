/**
 * The bookkeeping shared by the three Monte Carlo tree searches: a tree of
 * nodes with visit counts, statistics, a children map keyed by move and a
 * parent link.
 *
 * The tree is kept as an arena: a sequence of node records in which every
 * parent link and every child link is an index into the sequence. Nodes
 * are only ever appended, a parent always comes before its children, and
 * a node dropped by rerooting stays in the arena, so parent links into a
 * discarded part of the tree remain valid, as they do in the source.
 */
module SearchTree {
  import opened Wrappers

  /** A node: the move that reached it, its parent, visits, statistics `S` and children by move. */
  datatype Node<K, S> = Node(key: Option<K>, parent: Option<nat>, visits: nat, stats: S, children: map<K, nat>)

  /** A node as the source creates it: no visits, zero statistics, no children. */
  function Fresh<K, S>(key: Option<K>, parent: Option<nat>, zero: S): (n: Node<K, S>)
    ensures n.visits == 0 && n.children == map[] && n.stats == zero
    ensures n.key == key && n.parent == parent
  {
    Node(key, parent, 0, zero, map[])
  }

  /** Every parent link points to an earlier node. */
  predicate ParentsBefore<K, S>(nodes: seq<Node<K, S>>) {
    forall i :: 0 <= i < |nodes| && nodes[i].parent.Some? ==> nodes[i].parent.value < i
  }

  /**
   * Parent links point backwards, and every child link points to a later
   * node whose parent is this node and whose move is the child's key.
   */
  predicate WellFormed<K, S>(nodes: seq<Node<K, S>>) {
    && ParentsBefore(nodes)
    && forall i, k :: 0 <= i < |nodes| && k in nodes[i].children ==>
         && i < nodes[i].children[k] < |nodes|
         && nodes[nodes[i].children[k]].parent == Some(i)
         && nodes[nodes[i].children[k]].key == Some(k)
  }

  /** No node has been visited more often than its parent. */
  predicate VisitsBounded<K, S>(nodes: seq<Node<K, S>>)
    requires ParentsBefore(nodes)
  {
    forall i :: 0 <= i < |nodes| && nodes[i].parent.Some? ==>
      nodes[i].visits <= nodes[nodes[i].parent.value].visits
  }

  /**
   * The number of parent links from `cur` up to node `i`, or None when `i`
   * is not on the way from `cur` to the top of the tree.
   */
  function Dist<K, S>(nodes: seq<Node<K, S>>, cur: Option<nat>, i: nat): Option<nat>
    requires ParentsBefore(nodes)
    requires cur.Some? ==> cur.value < |nodes|
    decreases if cur.Some? then cur.value + 1 else 0
  {
    if cur.None? then None
    else if cur.value == i then Some(0)
    else match Dist(nodes, nodes[cur.value].parent, i)
      case None => None
      case Some(e) => Some(e + 1)
  }

  /** Only `cur` and nodes before it lie above `cur`. */
  lemma {:induction false} DistBelow<K, S>(nodes: seq<Node<K, S>>, cur: Option<nat>, i: nat)
    requires ParentsBefore(nodes)
    requires cur.Some? ==> cur.value < |nodes|
    ensures Dist(nodes, cur, i).Some? ==> cur.Some? && i <= cur.value
    decreases if cur.Some? then cur.value + 1 else 0
  {
    if cur.Some? && cur.value != i {
      DistBelow(nodes, nodes[cur.value].parent, i);
    }
  }

  /** The way up depends on the parent links alone. */
  lemma {:induction false} DistSameParents<K, S>(a: seq<Node<K, S>>, b: seq<Node<K, S>>, cur: Option<nat>, i: nat)
    requires ParentsBefore(a) && ParentsBefore(b)
    requires cur.Some? ==> cur.value < |a| && cur.value < |b|
    requires cur.Some? ==> forall j :: 0 <= j <= cur.value ==> a[j].parent == b[j].parent
    ensures Dist(a, cur, i) == Dist(b, cur, i)
    decreases if cur.Some? then cur.value + 1 else 0
  {
    if cur.Some? && cur.value != i {
      DistSameParents(a, b, a[cur.value].parent, i);
    }
  }

  /** The parent of a node on the way up is on the way up, one link further. */
  lemma {:induction false} DistParent<K, S>(nodes: seq<Node<K, S>>, cur: Option<nat>, i: nat, e: nat)
    requires ParentsBefore(nodes)
    requires cur.Some? ==> cur.value < |nodes|
    requires i < |nodes| && nodes[i].parent.Some?
    requires Dist(nodes, cur, i) == Some(e)
    ensures Dist(nodes, cur, nodes[i].parent.value) == Some(e + 1)
    decreases if cur.Some? then cur.value + 1 else 0
  {
    var p := nodes[i].parent.value;
    if cur.value == i {
      assert Dist(nodes, nodes[i].parent, p) == Some(0);
    } else {
      DistBelow(nodes, cur, i);
      DistParent(nodes, nodes[cur.value].parent, i, e - 1);
    }
  }

  /** The child of a node reached from the top `r` is reached from `r` too, one link further down. */
  lemma ChildDescends<K, S>(nodes: seq<Node<K, S>>, p: nat, k: K, r: nat)
    requires WellFormed(nodes) && p < |nodes|
    requires k in nodes[p].children
    requires Dist(nodes, Some(p), r).Some?
    ensures Dist(nodes, Some(nodes[p].children[k]), r).Some?
  {
  }

  /** One visit and one update of the statistics, at `d` links above the start. */
  function Bump<K, S>(n: Node<K, S>, credit: (S, nat) -> S, d: nat): Node<K, S> {
    n.(visits := n.visits + 1, stats := credit(n.stats, d))
  }

  /**
   * Back-propagation: every node from `cur` up along the parent links gains
   * one visit and has its statistics updated by `credit`, which is told how
   * many links above the starting node it is.
   */
  function Propagate<K, S>(nodes: seq<Node<K, S>>, cur: Option<nat>, d: nat, credit: (S, nat) -> S): (r: seq<Node<K, S>>)
    requires ParentsBefore(nodes)
    requires cur.Some? ==> cur.value < |nodes|
    ensures |r| == |nodes|
    decreases if cur.Some? then cur.value + 1 else 0
  {
    if cur.None? then
      nodes
    else
      var i := cur.value;
      var next := nodes[i := Bump(nodes[i], credit, d)];
      assert ParentsBefore(next);
      Propagate(next, nodes[i].parent, d + 1, credit)
  }

  /** One step of back-propagation: bump the current node, then go on from its parent. */
  lemma PropagateStep<K, S>(nodes: seq<Node<K, S>>, i: nat, d: nat, credit: (S, nat) -> S)
    requires ParentsBefore(nodes) && i < |nodes|
    ensures ParentsBefore(nodes[i := Bump(nodes[i], credit, d)])
    ensures nodes[i].parent.Some? ==> nodes[i].parent.value < |nodes|
    ensures Propagate(nodes[i := Bump(nodes[i], credit, d)], nodes[i].parent, d + 1, credit)
            == Propagate(nodes, Some(i), d, credit)
  {
  }

  /**
   * What back-propagation does to each node: a node on the way up from the
   * start gains exactly one visit and the credit for its distance; every
   * other node is unchanged.
   */
  lemma {:induction false} PropagateAt<K, S>(nodes: seq<Node<K, S>>, cur: Option<nat>, d: nat, credit: (S, nat) -> S, i: nat)
    requires ParentsBefore(nodes)
    requires cur.Some? ==> cur.value < |nodes|
    requires i < |nodes|
    ensures |Propagate(nodes, cur, d, credit)| == |nodes|
    ensures Propagate(nodes, cur, d, credit)[i] ==
              match Dist(nodes, cur, i)
              case None => nodes[i]
              case Some(e) => Bump(nodes[i], credit, d + e)
    decreases if cur.Some? then cur.value + 1 else 0
  {
    if cur.Some? {
      var c := cur.value;
      var next := nodes[c := Bump(nodes[c], credit, d)];
      var p := nodes[c].parent;
      PropagateAt(next, p, d + 1, credit, i);
      DistSameParents(next, nodes, p, i);
      DistBelow(nodes, p, i);
      if i == c {
        DistBelow(nodes, p, c);
      }
    }
  }

  /** Back-propagation keeps the tree's shape and that no node has more visits than its parent. */
  lemma PropagateKeepsTree<K, S>(nodes: seq<Node<K, S>>, cur: Option<nat>, credit: (S, nat) -> S)
    requires WellFormed(nodes) && VisitsBounded(nodes)
    requires cur.Some? ==> cur.value < |nodes|
    ensures var r := Propagate(nodes, cur, 0, credit);
      && |r| == |nodes|
      && (forall i :: 0 <= i < |nodes| ==>
            r[i].parent == nodes[i].parent && r[i].key == nodes[i].key && r[i].children == nodes[i].children)
      && WellFormed(r) && VisitsBounded(r)
  {
    var r := Propagate(nodes, cur, 0, credit);
    forall i | 0 <= i < |nodes|
      ensures r[i].parent == nodes[i].parent && r[i].key == nodes[i].key && r[i].children == nodes[i].children
      ensures r[i].visits == nodes[i].visits + (if Dist(nodes, cur, i).Some? then 1 else 0)
    {
      PropagateAt(nodes, cur, 0, credit, i);
    }
    forall i | 0 <= i < |nodes| && r[i].parent.Some?
      ensures r[i].visits <= r[r[i].parent.value].visits
    {
      var p := nodes[i].parent.value;
      if Dist(nodes, cur, i).Some? {
        DistParent(nodes, cur, i, Dist(nodes, cur, i).value);
      }
    }
  }

  /** A node reached from the top `r` passes its visit on to `r`. */
  lemma PropagateReachesTop<K, S>(nodes: seq<Node<K, S>>, leaf: nat, r: nat, credit: (S, nat) -> S)
    requires ParentsBefore(nodes) && leaf < |nodes| && r < |nodes|
    requires Dist(nodes, Some(leaf), r).Some?
    ensures Propagate(nodes, Some(leaf), 0, credit)[r].visits == nodes[r].visits + 1
  {
    PropagateAt(nodes, Some(leaf), 0, credit, r);
  }

  /** `add_children` for one child: a fresh node appended and entered under its move. */
  function AddChild<K, S>(nodes: seq<Node<K, S>>, p: nat, k: K, zero: S): seq<Node<K, S>>
    requires p < |nodes|
  {
    nodes[p := nodes[p].(children := nodes[p].children[k := |nodes|])] + [Fresh(Some(k), Some(p), zero)]
  }

  /** `add_children`: one fresh child per move, in order; a later child with the same move replaces an earlier one. */
  function AddChildren<K, S>(nodes: seq<Node<K, S>>, p: nat, keys: seq<K>, zero: S): seq<Node<K, S>>
    requires p < |nodes|
    decreases |keys|
  {
    if keys == [] then nodes else AddChildren(AddChild(nodes, p, keys[0], zero), p, keys[1..], zero)
  }

  /**
   * What adding children does: one zero-visit node per move is appended with
   * `p` as its parent; `p`'s children map gains every move, each naming the
   * node of the last child with that move; nothing else changes.
   */
  lemma {:induction false} AddChildrenSpec<K, S>(nodes: seq<Node<K, S>>, p: nat, keys: seq<K>, zero: S)
    requires p < |nodes|
    ensures var r := AddChildren(nodes, p, keys, zero);
      && |r| == |nodes| + |keys|
      && (forall i :: 0 <= i < |nodes| && i != p ==> r[i] == nodes[i])
      && r[p] == nodes[p].(children := r[p].children)
      && (forall j :: 0 <= j < |keys| ==> r[|nodes| + j] == Fresh(Some(keys[j]), Some(p), zero))
      && (forall k :: k in r[p].children ==> k in nodes[p].children || k in keys)
      && (forall k :: k in nodes[p].children ==> k in r[p].children)
      && (forall k :: k in keys ==> k in r[p].children)
      && (forall k :: k in nodes[p].children && k !in keys ==> r[p].children[k] == nodes[p].children[k])
      && (forall k :: k in keys ==>
            && |nodes| <= r[p].children[k] < |r|
            && keys[r[p].children[k] - |nodes|] == k
            && forall j :: r[p].children[k] - |nodes| < j < |keys| ==> keys[j] != k)
    decreases |keys|
  {
    if keys != [] {
      var next := AddChild(nodes, p, keys[0], zero);
      AddChildrenSpec(next, p, keys[1..], zero);
      var r := AddChildren(nodes, p, keys, zero);
      forall j | 0 <= j < |keys|
        ensures r[|nodes| + j] == Fresh(Some(keys[j]), Some(p), zero)
      {
        if j > 0 {
          assert r[|next| + (j - 1)] == Fresh(Some(keys[1..][j - 1]), Some(p), zero);
        }
      }
      forall k | k in keys
        ensures |nodes| <= r[p].children[k] < |r|
        ensures keys[r[p].children[k] - |nodes|] == k
        ensures forall j :: r[p].children[k] - |nodes| < j < |keys| ==> keys[j] != k
      {
        if k in keys[1..] {
          var c := r[p].children[k];
          assert keys[1..][c - |next|] == k;
          forall j | c - |nodes| < j < |keys| ensures keys[j] != k {
            assert keys[j] == keys[1..][j - 1];
          }
        } else {
          assert k == keys[0];
          forall j | 0 < j < |keys| ensures keys[j] != k {
            assert keys[j] == keys[1..][j - 1];
          }
        }
      }
      forall k ensures k in keys <==> k == keys[0] || k in keys[1..] {
        if k in keys && k != keys[0] {
          var j :| 0 <= j < |keys| && keys[j] == k;
          assert keys[1..][j - 1] == k;
        }
      }
    }
  }

  /** Adding children keeps a well-formed tree well formed, with no node visited more than its parent. */
  lemma AddChildrenKeepsTree<K, S>(nodes: seq<Node<K, S>>, p: nat, keys: seq<K>, zero: S)
    requires WellFormed(nodes) && p < |nodes|
    ensures WellFormed(AddChildren(nodes, p, keys, zero))
    ensures VisitsBounded(nodes) ==> VisitsBounded(AddChildren(nodes, p, keys, zero))
  {
    AddChildrenSpec(nodes, p, keys, zero);
    var r := AddChildren(nodes, p, keys, zero);
    forall i | 0 <= i < |r| && r[i].parent.Some?
      ensures r[i].parent.value < i
      ensures VisitsBounded(nodes) ==> r[i].visits <= r[r[i].parent.value].visits
    {
      if i >= |nodes| {
        assert r[|nodes| + (i - |nodes|)] == Fresh(Some(keys[i - |nodes|]), Some(p), zero);
      }
    }
    forall i | |nodes| <= i < |r| ensures r[i].children == map[] {
      assert r[|nodes| + (i - |nodes|)] == Fresh(Some(keys[i - |nodes|]), Some(p), zero);
    }
    forall i, k | 0 <= i < |r| && k in r[i].children
      ensures i < r[i].children[k] < |r|
      ensures r[r[i].children[k]].parent == Some(i)
      ensures r[r[i].children[k]].key == Some(k)
    {
      if i == p && k in keys {
        var c := r[p].children[k];
        assert r[|nodes| + (c - |nodes|)] == Fresh(Some(keys[c - |nodes|]), Some(p), zero);
      } else {
        if i == p {
        } else {
          assert r[i] == nodes[i];
        }
        assert k in nodes[i].children;
        var c := nodes[i].children[k];
        assert r[i].children[k] == c;
        assert i < c < |nodes|;
        assert r[c].parent == nodes[c].parent && r[c].key == nodes[c].key;
      }
    }
  }

  /** A tree of one fresh node. */
  lemma SingleNodeTree<K, S>(n: Node<K, S>)
    requires n.parent.None? && n.children == map[]
    ensures WellFormed([n]) && VisitsBounded([n])
  {
  }

  /** A parentless, childless node added at the end keeps a tree a tree. */
  lemma AddTopKeepsTree<K, S>(nodes: seq<Node<K, S>>, n: Node<K, S>)
    requires WellFormed(nodes) && VisitsBounded(nodes)
    requires n.parent.None? && n.children == map[]
    ensures WellFormed(nodes + [n]) && VisitsBounded(nodes + [n])
  {
    var r := nodes + [n];
    forall i, k | 0 <= i < |r| && k in r[i].children
      ensures i < r[i].children[k] < |r| && r[r[i].children[k]].parent == Some(i) && r[r[i].children[k]].key == Some(k)
    {
      assert i < |nodes|;
    }
  }

  /** A leaf score: a finite number, or infinity for an unvisited node. */
  datatype Score = Inf | Fin(x: real)

  predicate ScoreLe(a: Score, b: Score) {
    b.Inf? || (a.Fin? && a.x <= b.x)
  }

  /** Every non-empty map of scores has a key whose score no other beats. */
  lemma {:induction false} MaxScoreExists<K>(m: map<K, Score>)
    requires |m| > 0
    ensures exists k :: k in m && forall j :: j in m ==> ScoreLe(m[j], m[k])
  {
    var k := MaxScoreAmong(m, m.Keys);
  }

  lemma {:induction false} MaxScoreAmong<K>(m: map<K, Score>, keys: set<K>) returns (best: K)
    requires keys <= m.Keys && |keys| > 0
    ensures best in keys && forall j :: j in keys ==> ScoreLe(m[j], m[best])
    decreases |keys|
  {
    var k :| k in keys;
    if keys == {k} {
      best := k;
    } else {
      var b := MaxScoreAmong(m, keys - {k});
      if ScoreLe(m[k], m[b]) {
        best := b;
      } else {
        best := k;
        forall j | j in keys ensures ScoreLe(m[j], m[k]) {
          if j != k {
            assert ScoreLe(m[j], m[b]);
          }
        }
      }
    }
  }

  /** Every non-empty map of visit counts has a key with the most visits. */
  lemma {:induction false} MaxVisitsExists<K>(m: map<K, nat>)
    requires |m| > 0
    ensures exists k :: k in m && forall j :: j in m ==> m[j] <= m[k]
  {
    var k := MaxVisitsAmong(m, m.Keys);
  }

  lemma {:induction false} MaxVisitsAmong<K>(m: map<K, nat>, keys: set<K>) returns (best: K)
    requires keys <= m.Keys && |keys| > 0
    ensures best in keys && forall j :: j in keys ==> m[j] <= m[best]
    decreases |keys|
  {
    var k :| k in keys;
    if keys == {k} {
      best := k;
    } else {
      var b := MaxVisitsAmong(m, keys - {k});
      best := if m[k] <= m[b] then b else k;
    }
  }

  /** The visit count of each child of `p`, by move. */
  function ChildVisits<K, S>(nodes: seq<Node<K, S>>, p: nat): (m: map<K, nat>)
    requires WellFormed(nodes) && p < |nodes|
    ensures m.Keys == nodes[p].children.Keys
  {
    map k | k in nodes[p].children :: nodes[nodes[p].children[k]].visits
  }

  /** A score that is infinite for every unvisited node wins only with an unvisited node when there is one. */
  lemma UnvisitedPreferred<K>(m: map<K, Score>, best: K, unvisited: K)
    requires best in m && unvisited in m && m[unvisited] == Inf
    requires forall j :: j in m ==> ScoreLe(m[j], m[best])
    ensures m[best] == Inf
  {
    assert ScoreLe(m[unvisited], m[best]);
  }

  /**
   * The score of every child of `p` by its move, as `select_node` compares
   * them: `value` gives what a child is worth from its parent's visits.
   */
  function ChildScores<K, S>(nodes: seq<Node<K, S>>, p: nat, value: (Node<K, S>, nat) -> Score): (m: map<K, Score>)
    requires WellFormed(nodes) && p < |nodes|
    ensures m.Keys == nodes[p].children.Keys
  {
    map k | k in nodes[p].children :: value(nodes[nodes[p].children[k]], nodes[p].visits)
  }

  /** `k` names a child of `p` whose score no other child of `p` beats. */
  ghost predicate IsBestChild<K, S>(nodes: seq<Node<K, S>>, p: nat, k: K, value: (Node<K, S>, nat) -> Score)
    requires WellFormed(nodes) && p < |nodes|
  {
    && k in nodes[p].children
    && forall j {:trigger ChildScores(nodes, p, value)[j]} :: j in nodes[p].children ==>
         ScoreLe(ChildScores(nodes, p, value)[j], ChildScores(nodes, p, value)[k])
  }

  /**
   * Every node on the way down from the top `r` to `n` is a best child of
   * its parent: the way `select_node` descends.
   */
  ghost predicate BestAlong<K, S>(nodes: seq<Node<K, S>>, value: (Node<K, S>, nat) -> Score, r: nat, n: nat)
    requires WellFormed(nodes) && n < |nodes|
    decreases n
  {
    || n == r
    || (&& nodes[n].parent.Some? && nodes[n].key.Some?
        && IsBestChild(nodes, nodes[n].parent.value, nodes[n].key.value, value)
        && BestAlong(nodes, value, r, nodes[n].parent.value))
  }

  /** A move of a best child of `p`, as `select_node` picks among them at random. */
  method BestChild<K, S>(nodes: seq<Node<K, S>>, p: nat, value: (Node<K, S>, nat) -> Score) returns (k: K)
    requires WellFormed(nodes) && p < |nodes| && nodes[p].children != map[]
    ensures IsBestChild(nodes, p, k, value)
  {
    var scores := ChildScores(nodes, p, value);
    ghost var best := MaxScoreAmong(scores, scores.Keys);
    assert best in scores && forall j :: j in scores ==> ScoreLe(scores[j], scores[best]);
    k :| k in scores && forall j :: j in scores ==> ScoreLe(scores[j], scores[k]);
  }

  /** A best child below a node reached through best children is reached through best children. */
  lemma BestAlongChild<K, S>(nodes: seq<Node<K, S>>, value: (Node<K, S>, nat) -> Score, r: nat, n: nat, k: K)
    requires WellFormed(nodes) && n < |nodes| && Dist(nodes, Some(n), r).Some?
    requires BestAlong(nodes, value, r, n) && IsBestChild(nodes, n, k, value)
    ensures nodes[n].children[k] < |nodes| && BestAlong(nodes, value, r, nodes[n].children[k])
  {
    DistBelow(nodes, Some(n), r);
    var c := nodes[n].children[k];
    assert c != r && nodes[c].parent == Some(n) && nodes[c].key == Some(k);
  }

  /** Changing only the children of `p`, and nothing `value` reads, changes none of the scores of another node's children. */
  lemma ScoresKept<K, S>(a: seq<Node<K, S>>, b: seq<Node<K, S>>, value: (Node<K, S>, nat) -> Score, q: nat, p: nat)
    requires WellFormed(a) && WellFormed(b) && q < |a| <= |b| && p < |a| && q != p
    requires forall i :: 0 <= i < |a| && i != p ==> b[i] == a[i]
    requires forall v :: value(b[p], v) == value(a[p], v)
    ensures ChildScores(b, q, value) == ChildScores(a, q, value)
  {
    assert b[q] == a[q];
    forall k | k in a[q].children
      ensures ChildScores(b, q, value)[k] == ChildScores(a, q, value)[k]
    {
      var c := a[q].children[k];
      assert c < |a|;
      if c == p {
        assert value(b[c], a[q].visits) == value(a[c], a[q].visits);
      } else {
        assert b[c] == a[c];
      }
    }
  }

  /** Changing only the children of `p` keeps every node's visits, statistics and parent. */
  lemma KeptButChildren<K, S>(a: seq<Node<K, S>>, b: seq<Node<K, S>>, p: nat)
    requires p < |a| <= |b|
    requires forall i :: 0 <= i < |a| && i != p ==> b[i] == a[i]
    requires b[p] == a[p].(children := b[p].children)
    ensures forall i :: 0 <= i < |a| ==>
              b[i].visits == a[i].visits && b[i].stats == a[i].stats && b[i].parent == a[i].parent
  {
  }

  /**
   * Changing only the children of `p`, and nothing `value` reads, keeps a
   * way down to `n` at or above `p` a way through best children.
   */
  lemma {:induction false} BestAlongKept<K, S>(a: seq<Node<K, S>>, b: seq<Node<K, S>>, value: (Node<K, S>, nat) -> Score, r: nat, n: nat, p: nat)
    requires WellFormed(a) && WellFormed(b) && n <= p < |a| <= |b|
    requires forall i :: 0 <= i < |a| && i != p ==> b[i] == a[i]
    requires b[p].parent == a[p].parent && b[p].key == a[p].key
    requires forall v :: value(b[p], v) == value(a[p], v)
    requires BestAlong(a, value, r, n)
    ensures BestAlong(b, value, r, n)
    decreases n
  {
    if n != r {
      var q := a[n].parent.value;
      assert b[n].parent == a[n].parent && b[n].key == a[n].key;
      ScoresKept(a, b, value, q, p);
      assert b[q].children == a[q].children;
      BestAlongKept(a, b, value, r, q, p);
    }
  }

  /**
   * Adding children to `p` keeps every node on the way from `p` to `r`, and
   * every old node but for the children of `p`; each move gets a child.
   */
  lemma ChildrenAdded<K, S>(before: seq<Node<K, S>>, p: nat, moves: seq<K>, zero: S, r: nat)
    requires ParentsBefore(before) && p < |before| && Dist(before, Some(p), r).Some?
    ensures var after := AddChildren(before, p, moves, zero);
      && |after| >= |before| && ParentsBefore(after) && Dist(after, Some(p), r).Some?
      && (forall k :: k in moves ==> k in after[p].children)
      && (forall i :: 0 <= i < |before| ==>
            after[i].visits == before[i].visits && after[i].stats == before[i].stats
            && after[i].parent == before[i].parent)
      && (forall i :: 0 <= i < |before| && i != p ==> after[i] == before[i])
      && after[p] == before[p].(children := after[p].children)
  {
    var after := AddChildren(before, p, moves, zero);
    AddChildrenSpec(before, p, moves, zero);
    AddChildrenParents(before, p, moves, zero);
    DistSameParents(after, before, Some(p), r);
  }

  /** `after` is `before` with one fresh child of `p` for each move, entered in the order `keys`. */
  ghost predicate ExpandedBy<K(!new), S>(before: seq<Node<K, S>>, after: seq<Node<K, S>>, p: nat, moves: set<K>, zero: S, keys: seq<K>) {
    && p < |before| && |keys| == |moves|
    && (forall k :: k in keys ==> k in moves)
    && (forall k :: k in moves ==> k in keys)
    && after == AddChildren(before, p, keys, zero)
  }

  /** `after` is `before` with one fresh child of `p` for each move, in some order. */
  ghost predicate Expanded<K(!new), S>(before: seq<Node<K, S>>, after: seq<Node<K, S>>, p: nat, moves: set<K>, zero: S) {
    exists keys :: ExpandedBy(before, after, p, moves, zero, keys)
  }

  /**
   * Expanding a node without children gives it exactly one child per move,
   * each unvisited, with that move and with the node as parent, and leaves
   * every other old node, and the node's own visits, statistics and links,
   * alone.
   */
  lemma ExpandedSpec<K(!new), S>(before: seq<Node<K, S>>, after: seq<Node<K, S>>, p: nat, moves: set<K>, zero: S)
    requires WellFormed(before) && Expanded(before, after, p, moves, zero)
    requires before[p].children == map[]
    ensures |after| == |before| + |moves| && WellFormed(after)
    ensures after[p].children.Keys == moves
    ensures forall k :: k in moves ==>
              after[after[p].children[k]] == Fresh(Some(k), Some(p), zero)
    ensures forall i :: 0 <= i < |before| ==>
              && after[i].visits == before[i].visits && after[i].stats == before[i].stats
              && after[i].parent == before[i].parent && after[i].key == before[i].key
    ensures forall i :: 0 <= i < |before| && i != p ==> after[i] == before[i]
    ensures after[p] == before[p].(children := after[p].children)
  {
    var keys :| ExpandedBy(before, after, p, moves, zero, keys);
    AddChildrenSpec(before, p, keys, zero);
    AddChildrenKeepsTree(before, p, keys, zero);
    forall k | k in moves
      ensures after[after[p].children[k]] == Fresh(Some(k), Some(p), zero)
    {
      var c := after[p].children[k];
      assert after[|before| + (c - |before|)] == Fresh(Some(keys[c - |before|]), Some(p), zero);
    }
  }

  /** Adding children changes no parent link of an old node. */
  lemma {:induction false} AddChildrenParents<K, S>(nodes: seq<Node<K, S>>, p: nat, keys: seq<K>, zero: S)
    requires ParentsBefore(nodes) && p < |nodes|
    ensures |AddChildren(nodes, p, keys, zero)| >= |nodes| && ParentsBefore(AddChildren(nodes, p, keys, zero))
    ensures forall i :: 0 <= i < |nodes| ==> AddChildren(nodes, p, keys, zero)[i].parent == nodes[i].parent
    decreases |keys|
  {
    if keys != [] {
      AddChildrenParents(AddChild(nodes, p, keys[0], zero), p, keys[1..], zero);
    }
  }

  /** Expanding keeps every node reached from the top `r` reached from it. */
  lemma ExpandedKeepsPath<K(!new), S>(before: seq<Node<K, S>>, after: seq<Node<K, S>>, p: nat, moves: set<K>, zero: S, n: nat, r: nat)
    requires ParentsBefore(before) && Expanded(before, after, p, moves, zero)
    requires n < |before| && Dist(before, Some(n), r).Some?
    ensures |after| >= |before| && ParentsBefore(after) && Dist(after, Some(n), r).Some?
  {
    var keys :| ExpandedBy(before, after, p, moves, zero, keys);
    AddChildrenParents(before, p, keys, zero);
    DistSameParents(after, before, Some(n), r);
  }
}
