/** The order in which the route search finishes nodes (track-control/src/routing.c:192-235), told by prices: going on
    from a finished node costs its distance and the length of the edge, 15 times that when the lock server says that the
    node's segment is in use.  Prices do not add up along a path: only the last edge is penalised. */
module RoutePrices {
  import opened Track

  const UNREACHED: int := 0x7FFF_FFFF

  /** The price of going on from the finished node x by its edge i. */
  ghost function Offer(g: Graph, answers: nat -> bool, dist: seq<int>, x: nat, i: nat): int
    requires WellFormed(g) && x < |g| == |dist| && i < NbhdSize(g[x].kind)
  {
    dist[x] + (if answers(g[x].segment) then 15 else 1) * EdgeLength(g, x, i)
  }

  /** Edge i of the finished node x leads out of the finished nodes. */
  ghost predicate LeadsOut(g: Graph, order: seq<nat>, x: nat, i: nat)
    requires WellFormed(g)
  {
    x in order && x < |g| && i < NbhdSize(g[x].kind) && EdgeAt(g, x, i).dest !in order
  }

  /** Node w is reached by edge i of x, which is finished: its path and its distance are those of x and the edge. */
  ghost predicate ReachedBy(g: Graph, dist: seq<int>, tree: map<nat, Path>, w: nat, x: nat, i: nat)
    requires WellFormed(g) && |dist| == |g|
  {
    x < |g| && w < |g| && Leads(g, x, i, w) && x in tree && w in tree && tree[w] == Extend(tree[x], i, w) &&
    dist[w] == dist[x] + EdgeLength(g, x, i)
  }

  /** Of all edges out of the nodes before, one that leads to w has the lowest price, and w is reached by it. */
  ghost predicate Cheapest(g: Graph, answers: nat -> bool, before: seq<nat>, w: nat, dist: seq<int>,
                           tree: map<nat, Path>)
    requires WellFormed(g) && |dist| == |g|
  {
    w !in before &&
    exists x: nat, i: nat ::
      x in before && ReachedBy(g, dist, tree, w, x, i) &&
      forall y: nat, j: nat :: LeadsOut(g, before, y, j) ==>
        Offer(g, answers, dist, x, i) <= Offer(g, answers, dist, y, j)
  }

  /** The search finishes the start and then, again and again, a node at the end of an edge with the lowest price. */
  ghost predicate Greedy(g: Graph, answers: nat -> bool, start: nat, order: seq<nat>, dist: seq<int>,
                         tree: map<nat, Path>)
    requires WellFormed(g) && |dist| == |g|
  {
    order != [] && order[0] == start && start < |g| && dist[start] == 0 &&
    forall p :: 0 < p < |order| ==> Cheapest(g, answers, order[..p], order[p], dist, tree)
  }

  /** What the loops keep; the first k edges of the node u, finished last, have been looked at (u == |g| between two
      expansions). */
  ghost predicate Priced(g: Graph, answers: nat -> bool, start: nat, done: set<nat>, order: seq<nat>, dist: seq<int>,
                         weight: seq<int>, tree: map<nat, Path>, u: nat, k: nat)
    requires WellFormed(g)
  {
    |dist| == |g| == |weight| && start < |g| && (forall v: nat :: v in done <==> v in order) &&
    (forall v :: v in order ==> v < |g|) && (order != [] ==> Greedy(g, answers, start, order, dist, tree)) &&
    (forall x: nat, i: nat :: LeadsOut(g, order, x, i) && (x == u ==> i < k) ==>
      weight[EdgeAt(g, x, i).dest] <= Offer(g, answers, dist, x, i)) &&
    forall y: nat :: y < |g| && y !in order && weight[y] != UNREACHED ==>
      (order == [] && y == start && dist[start] == 0) || Bid(g, answers, order, dist, weight, tree, u, k, y)
  }

  /** The weight of the waiting node y is the price of an edge that leads to it. */
  ghost predicate Bid(g: Graph, answers: nat -> bool, order: seq<nat>, dist: seq<int>, weight: seq<int>,
                      tree: map<nat, Path>, u: nat, k: nat, y: nat)
    requires WellFormed(g) && |dist| == |g| == |weight| && y < |g|
  {
    exists x: nat, i: nat :: x in order && ReachedBy(g, dist, tree, y, x, i) && (x == u ==> i < k) &&
      weight[y] == Offer(g, answers, dist, x, i)
  }

  lemma PricedStart(g: Graph, answers: nat -> bool, start: nat, dist: seq<int>, weight: seq<int>, tree: map<nat, Path>)
    requires WellFormed(g) && start < |g| == |dist| && weight == dist
    requires forall v: nat :: v < |g| ==> dist[v] == if v == start then 0 else UNREACHED
    ensures Priced(g, answers, start, {}, [], dist, weight, tree, |g|, 0)
  {
  }

  /** A waiting node of least weight is at the end of an edge with the lowest price. */
  lemma {:induction false} LeastIsCheapest(g: Graph, answers: nat -> bool, start: nat, done: set<nat>, order: seq<nat>,
                                           dist: seq<int>, weight: seq<int>, tree: map<nat, Path>, u: nat)
    requires WellFormed(g) && Priced(g, answers, start, done, order, dist, weight, tree, |g|, 0)
    requires order != [] && u < |g| && u !in done && weight[u] != UNREACHED
    requires forall y: nat :: y < |g| && y !in done ==> weight[u] <= weight[y]
    ensures Cheapest(g, answers, order, u, dist, tree)
  {
    hide Greedy, Offer;
    assert Bid(g, answers, order, dist, weight, tree, |g|, 0, u);
    var x: nat, i: nat :| x in order && ReachedBy(g, dist, tree, u, x, i) &&
      weight[u] == Offer(g, answers, dist, x, i);
    forall y: nat, j: nat | LeadsOut(g, order, y, j)
      ensures Offer(g, answers, dist, x, i) <= Offer(g, answers, dist, y, j)
    {
      assert weight[EdgeAt(g, y, j).dest] <= Offer(g, answers, dist, y, j);
    }
  }

  lemma {:induction false} GreedyMore(g: Graph, answers: nat -> bool, start: nat, order: seq<nat>, dist: seq<int>,
                                      tree: map<nat, Path>, u: nat)
    requires WellFormed(g) && |dist| == |g| && start < |g| && dist[start] == 0
    requires if order == [] then u == start
             else Greedy(g, answers, start, order, dist, tree) && Cheapest(g, answers, order, u, dist, tree)
    ensures Greedy(g, answers, start, order + [u], dist, tree)
  {
    hide Cheapest;
    var order' := order + [u];
    forall p | 0 < p < |order'| ensures Cheapest(g, answers, order'[..p], order'[p], dist, tree) {
      if p < |order| { assert order'[..p] == order[..p]; } else { assert order'[..p] == order; }
    }
  }

  /** Finishing a waiting node of least weight. */
  lemma {:induction false} PricedPop(g: Graph, answers: nat -> bool, start: nat, done: set<nat>, order: seq<nat>,
                                     dist: seq<int>, weight: seq<int>, tree: map<nat, Path>, u: nat)
    requires WellFormed(g) && Priced(g, answers, start, done, order, dist, weight, tree, |g|, 0)
    requires u < |g| && u !in done && weight[u] != UNREACHED
    requires forall y: nat :: y < |g| && y !in done ==> weight[u] <= weight[y]
    ensures Priced(g, answers, start, done + {u}, order + [u], dist, weight, tree, u, 0)
    ensures Greedy(g, answers, start, order + [u], dist, tree)
  {
    hide Greedy, Cheapest, Bid, Offer;
    var order' := order + [u];
    if order != [] {
      LeastIsCheapest(g, answers, start, done, order, dist, weight, tree, u);
      GreedyStarts(g, answers, start, order, dist, tree);
    } else {
      NoBid(g, answers, dist, weight, tree, |g|, 0, u);
    }
    GreedyMore(g, answers, start, order, dist, tree, u);
    forall y: nat | y < |g| && y !in order' && weight[y] != UNREACHED
      ensures Bid(g, answers, order', dist, weight, tree, u, 0, y)
    {
      if order == [] { NoBid(g, answers, dist, weight, tree, |g|, 0, y); }
      BidStays(g, answers, order, dist, weight, tree, u, y);
    }
  }

  lemma GreedyStarts(g: Graph, answers: nat -> bool, start: nat, order: seq<nat>, dist: seq<int>, tree: map<nat, Path>)
    requires WellFormed(g) && |dist| == |g| && Greedy(g, answers, start, order, dist, tree)
    ensures start < |g| && dist[start] == 0
  {
  }

  lemma NoBid(g: Graph, answers: nat -> bool, dist: seq<int>, weight: seq<int>, tree: map<nat, Path>, u: nat, k: nat,
              y: nat)
    requires WellFormed(g) && |dist| == |g| == |weight| && y < |g|
    ensures !Bid(g, answers, [], dist, weight, tree, u, k, y)
  {
  }

  lemma {:induction false} BidStays(g: Graph, answers: nat -> bool, order: seq<nat>, dist: seq<int>, weight: seq<int>,
                                    tree: map<nat, Path>, u: nat, y: nat)
    requires WellFormed(g) && |dist| == |g| == |weight| && y < |g| && u !in order
    requires Bid(g, answers, order, dist, weight, tree, |g|, 0, y)
    ensures Bid(g, answers, order + [u], dist, weight, tree, u, 0, y)
  {
    hide Offer;
  }

  /** An edge that brings no gain, or leads to a finished node. */
  lemma {:induction false} PricedSkip(g: Graph, answers: nat -> bool, start: nat, done: set<nat>, order: seq<nat>,
                                      dist: seq<int>, weight: seq<int>, tree: map<nat, Path>, u: nat, k: nat)
    requires WellFormed(g) && Priced(g, answers, start, done, order, dist, weight, tree, u, k)
    requires u in done && u < |g| && k < NbhdSize(g[u].kind)
    requires EdgeAt(g, u, k).dest in done || weight[EdgeAt(g, u, k).dest] <= Offer(g, answers, dist, u, k)
    ensures Priced(g, answers, start, done, order, dist, weight, tree, u, k + 1)
  {
    hide Greedy, Offer, ReachedBy;
    forall y: nat | y < |g| && y !in order && weight[y] != UNREACHED
      ensures Bid(g, answers, order, dist, weight, tree, u, k + 1, y)
    {
      assert Bid(g, answers, order, dist, weight, tree, u, k, y);
    }
  }

  /** What does not touch the nodes before and w keeps w the cheapest. */
  lemma {:induction false} CheapestFrame(g: Graph, answers: nat -> bool, before: seq<nat>, w: nat, dist: seq<int>,
                                         dist': seq<int>, tree: map<nat, Path>, tree': map<nat, Path>)
    requires WellFormed(g) && |dist| == |g| == |dist'| && Cheapest(g, answers, before, w, dist, tree)
    requires forall v :: v in before + [w] && v < |g| ==>
      dist'[v] == dist[v] && (v in tree ==> v in tree' && tree'[v] == tree[v])
    ensures Cheapest(g, answers, before, w, dist', tree')
  {
    var x: nat, i: nat :| x in before && ReachedBy(g, dist, tree, w, x, i) &&
      forall y: nat, j: nat :: LeadsOut(g, before, y, j) ==>
        Offer(g, answers, dist, x, i) <= Offer(g, answers, dist, y, j);
    assert ReachedBy(g, dist', tree', w, x, i);
    forall y: nat, j: nat | LeadsOut(g, before, y, j)
      ensures Offer(g, answers, dist', x, i) <= Offer(g, answers, dist', y, j)
    {
      assert Offer(g, answers, dist, x, i) <= Offer(g, answers, dist, y, j);
    }
  }

  lemma {:induction false} GreedyFrame(g: Graph, answers: nat -> bool, start: nat, order: seq<nat>, dist: seq<int>,
                                       dist': seq<int>, tree: map<nat, Path>, tree': map<nat, Path>)
    requires WellFormed(g) && |dist| == |g| == |dist'| && Greedy(g, answers, start, order, dist, tree)
    requires forall v :: v in order && v < |g| ==>
      dist'[v] == dist[v] && (v in tree ==> v in tree' && tree'[v] == tree[v])
    ensures Greedy(g, answers, start, order, dist', tree')
  {
    hide Cheapest;
    assert start in order;
    forall p | 0 < p < |order| ensures Cheapest(g, answers, order[..p], order[p], dist', tree') {
      CheapestFrame(g, answers, order[..p], order[p], dist, dist', tree, tree');
    }
  }

  /** A better price for the waiting node w. */
  lemma {:induction false} PricedRelax(g: Graph, answers: nat -> bool, start: nat, done: set<nat>, order: seq<nat>,
                                       dist: seq<int>, weight: seq<int>, tree: map<nat, Path>, u: nat, k: nat, w: nat,
                                       d: int, alt: int)
    requires WellFormed(g) && Priced(g, answers, start, done, order, dist, weight, tree, u, k)
    requires u in done && u in tree && w !in done && w < |g| && Leads(g, u, k, w)
    requires d == dist[u] + EdgeLength(g, u, k) && alt == Offer(g, answers, dist, u, k) && alt < weight[w]
    ensures Priced(g, answers, start, done, order, dist[w := d], weight[w := alt], tree[w := Extend(tree[u], k, w)],
                   u, k + 1)
  {
    hide Greedy;
    var dist', weight', tree' := dist[w := d], weight[w := alt], tree[w := Extend(tree[u], k, w)];
    GreedyFrame(g, answers, start, order, dist, dist', tree, tree');
    forall y: nat | y < |g| && y !in order && weight'[y] != UNREACHED
      ensures Bid(g, answers, order, dist', weight', tree', u, k + 1, y)
    {
      if y == w {
        assert ReachedBy(g, dist', tree', w, u, k);
      } else {
        assert Bid(g, answers, order, dist, weight, tree, u, k, y);
        var x: nat, i: nat :| x in order && ReachedBy(g, dist, tree, y, x, i) && (x == u ==> i < k) &&
          weight[y] == Offer(g, answers, dist, x, i);
        assert ReachedBy(g, dist', tree', y, x, i);
      }
    }
  }

  /** All edges of u have been looked at. */
  lemma {:induction false} PricedNext(g: Graph, answers: nat -> bool, start: nat, done: set<nat>, order: seq<nat>,
                                      dist: seq<int>, weight: seq<int>, tree: map<nat, Path>, u: nat, k: nat)
    requires WellFormed(g) && Priced(g, answers, start, done, order, dist, weight, tree, u, k)
    requires u < |g| && u in done && NbhdSize(g[u].kind) <= k
    ensures Priced(g, answers, start, done, order, dist, weight, tree, |g|, 0)
  {
    hide Greedy, Offer;
    forall y: nat | y < |g| && y !in order && weight[y] != UNREACHED
      ensures Bid(g, answers, order, dist, weight, tree, |g|, 0, y)
    {
      assert Bid(g, answers, order, dist, weight, tree, u, k, y);
    }
  }
}
