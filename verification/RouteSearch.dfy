/** The search of plan_direct_route (track-control/src/routing.c:162-235): Dijkstra over a heap with
    decrease-key, with a length penalty on edges that leave a locked segment. */
module RouteSearch {
  import opened Track
  import opened RoutePrices
  import Heap

  const INT32_MAX: int := 0x7FFF_FFFF
  const IN_USE_PENALTY := 15
  const NONE: int := -1

  /** A priority is a 16-bit field: storing a 32-bit weight keeps its low half. */
  function Key(weight: int): nat {
    weight % 0x1_0000
  }

  ghost predicate IsTarget(g: Graph, end: nat, v: nat) {
    v < |g| && (v == end || g[v].reverse == end)
  }

  ghost predicate NoLocks(answers: nat -> bool) {
    forall segment: nat :: !answers(segment)
  }

  ghost predicate Shortest(g: Graph, p: Path)
    requires WellFormed(g) && IsPath(g, p)
  {
    forall q: Path :: IsPathFrom(g, q, p.nodes[0]) && Last(q) == Last(p) ==> Length(g, p) <= Length(g, q)
  }

  /** Distances stay inside the 16-bit keys: for every simple path from the start, followed by one more edge
      with its penalty.  Without locks only shortest paths matter. */
  ghost predicate FitsKeys(g: Graph, start: nat, answers: nat -> bool)
    requires WellFormed(g)
  {
    forall p: Path, i: nat :: IsPathFrom(g, p, start) && Simple(p) && i < NbhdSize(g[Last(p)].kind) ==>
      (NoLocks(answers) && Shortest(g, p) ==> Length(g, p) + EdgeLength(g, Last(p), i) < 65535) &&
      (!NoLocks(answers) ==> Length(g, p) + IN_USE_PENALTY * EdgeLength(g, Last(p), i) < 65535)
  }

  // ----- the search tree -----

  /** Node v's entry in the tree: a simple path from the start through finished nodes, of length dist[v]. */
  ghost predicate Rooted(g: Graph, start: nat, done: set<nat>, v: nat, d: int, p: Path)
    requires WellFormed(g)
  {
    IsPathFrom(g, p, start) && Last(p) == v && Simple(p) && Length(g, p) == d &&
    forall k :: 0 <= k < |p.dirs| ==> p.nodes[k] in done
  }

  /** prev leads from v one hop back along its path, to a node whose own path is the rest. */
  ghost predicate Linked(start: nat, v: nat, prev: int, tree: map<nat, Path>)
    requires v in tree
  {
    var p := tree[v];
    if v == start then p == Path([start], []) && prev == NONE
    else
      |p.dirs| > 0 && |p.nodes| == |p.dirs| + 1 && prev >= 0 && prev in tree && tree[prev as nat] == Init(p)
  }

  ghost predicate Tree(g: Graph, start: nat, done: set<nat>, dist: seq<int>, prev: seq<int>, tree: map<nat, Path>)
    requires WellFormed(g)
  {
    |dist| == |g| && |prev| == |g| && start < |g| && start in tree && done <= tree.Keys &&
    (forall v: nat :: v in tree <==> v < |g| && dist[v] != INT32_MAX) &&
    (forall v: nat :: v < |g| && v !in tree ==> prev[v] == NONE) &&
    (forall v: nat :: v in tree ==> Rooted(g, start, done, v, dist[v], tree[v])) &&
    (forall v: nat :: v in tree ==> Linked(start, v, prev[v], tree))
  }

  /** Every finished node has all its neighbours in the tree; node u only the first k of them. */
  ghost predicate Closed(g: Graph, done: set<nat>, reached: set<nat>, u: nat, k: nat)
    requires WellFormed(g)
  {
    forall x: nat, i: nat :: x in done && x < |g| && i < NbhdSize(g[x].kind) && (x == u ==> i < k) ==>
      EdgeAt(g, x, i).dest in reached
  }

  /** Weights: those of the tree fit a key; without locks they are the distances, and finished nodes are
      no farther than waiting ones and have relaxed their edges. */
  ghost predicate Weights(g: Graph, done: set<nat>, dist: seq<int>, weight: seq<int>, plain: bool, u: nat, k: nat)
    requires WellFormed(g)
  {
    |dist| == |g| && |weight| == |g| &&
    (forall v: nat :: v < |g| ==> if dist[v] == INT32_MAX then weight[v] == INT32_MAX else 0 <= weight[v] < 65535) &&
    (plain ==>
      (forall v: nat :: v < |g| ==> weight[v] == dist[v]) &&
      (u < |g| ==> forall x: nat :: x in done && x < |g| ==> dist[x] <= dist[u]) &&
      (forall x: nat, y: nat :: x in done && x < |g| && y < |g| && y !in done ==> dist[x] <= dist[y]) &&
      (forall x: nat, i: nat :: x in done && x < |g| && i < NbhdSize(g[x].kind) && (x == u ==> i < k) ==>
        dist[EdgeAt(g, x, i).dest] <= dist[x] + EdgeLength(g, x, i)))
  }

  /** The heap holds each unfinished node once, under the key of its weight. */
  ghost predicate Queued(entries: multiset<Heap.Node>, n: nat, done: set<nat>, weight: seq<int>)
    requires |weight| == n
  {
    (forall e :: e in entries ==>
      0 <= e.value < n && e.value !in done && e.priority == Key(weight[e.value])) &&
    (forall v: nat :: v < n && v !in done ==> entries[Heap.Node(Key(weight[v]), v)] == 1)
  }

  // ----- lemmas about one step -----

  lemma TreeStarts(g: Graph, start: nat, dist: seq<int>, prev: seq<int>)
    requires WellFormed(g) && start < |g| == |dist| == |prev|
    requires forall v: nat :: v < |g| ==> dist[v] == (if v == start then 0 else INT32_MAX) && prev[v] == NONE
    ensures Tree(g, start, {}, dist, prev, map[start := Path([start], [])])
  {
    var p := Path([start], []);
    assert IsPathFrom(g, p, start) && Length(g, p) == 0 && Simple(p);
  }

  lemma TreeAt(g: Graph, start: nat, done: set<nat>, dist: seq<int>, prev: seq<int>, tree: map<nat, Path>, v: nat)
    requires WellFormed(g) && Tree(g, start, done, dist, prev, tree) && v in tree
    ensures |dist| == |prev| == |g| && start < |g| && start in tree && done <= tree.Keys
    ensures v < |g| && dist[v] != INT32_MAX
    ensures Rooted(g, start, done, v, dist[v], tree[v]) && Linked(start, v, prev[v], tree)
  {
  }

  /** The path of a node other than the start: its last hop leaves a finished node. */
  lemma LastHop(g: Graph, start: nat, done: set<nat>, v: nat, d: int, p: Path)
    requires WellFormed(g) && Rooted(g, start, done, v, d, p) && |p.dirs| > 0
    ensures |p.nodes| == |p.dirs| + 1
    ensures Last(Init(p)) in done && p.nodes == Init(p).nodes + [v]
  {
  }

  lemma RootedEnds(g: Graph, start: nat, done: set<nat>, v: nat, d: int, p: Path)
    requires WellFormed(g) && Rooted(g, start, done, v, d, p)
    ensures |p.nodes| == |p.dirs| + 1 && Last(p) == v && IsPath(g, p) && Length(g, p) == d && Simple(p)
    ensures v in done ==> forall k :: 0 <= k < |p.nodes| ==> p.nodes[k] in done
  {
  }

  /** The predecessor of a node in the tree is a finished node. */
  lemma LinkIsDone(g: Graph, start: nat, done: set<nat>, dist: seq<int>, prev: seq<int>, tree: map<nat, Path>, v: nat)
    requires WellFormed(g) && Tree(g, start, done, dist, prev, tree) && v in tree && v != start
    ensures |prev| == |g| && v < |g|
    ensures prev[v] >= 0 && prev[v] in done && prev[v] in tree
    ensures |tree[v].dirs| > 0 && |tree[v].nodes| == |tree[v].dirs| + 1
    ensures tree[prev[v] as nat] == Init(tree[v]) && tree[v].nodes == tree[prev[v] as nat].nodes + [v]
  {
    hide Tree, Rooted, IsPath, Simple, WellFormed;
    TreeAt(g, start, done, dist, prev, tree, v);
    LastHop(g, start, done, v, dist[v], tree[v]);
    var u: nat := prev[v];
    TreeAt(g, start, done, dist, prev, tree, u);
    RootedEnds(g, start, done, u, dist[u], tree[u]);
  }

  /** Each node's distance is the length of the path up to it. */
  ghost predicate DistancesAlong(g: Graph, p: Path, dist: seq<int>)
    requires WellFormed(g)
  {
    |p.nodes| == |p.dirs| + 1 && forall k: nat :: k <= |p.dirs| ==>
      IsPath(g, Prefix(p, k)) && p.nodes[k] < |dist| && dist[p.nodes[k]] == Length(g, Prefix(p, k))
  }

  lemma AlongMore(g: Graph, p: Path, dist: seq<int>)
    requires WellFormed(g) && IsPath(g, p) && Last(p) < |dist| && dist[Last(p)] == Length(g, p)
    requires |p.dirs| > 0 ==> DistancesAlong(g, Init(p), dist)
    ensures DistancesAlong(g, p, dist)
  {
    hide IsPath, Length, WellFormed;
    PathNodes(g, p);
    assert Prefix(p, |p.dirs|) == p;
    forall k: nat | k < |p.dirs|
      ensures IsPath(g, Prefix(p, k)) && p.nodes[k] < |dist| && dist[p.nodes[k]] == Length(g, Prefix(p, k))
    {
      assert Prefix(Init(p), k) == Prefix(p, k) && Init(p).nodes[k] == p.nodes[k];
    }
  }

  /** The tree holds the distance of every node on its paths, not of the last alone. */
  lemma {:induction false} TreeDistances(g: Graph, start: nat, done: set<nat>, dist: seq<int>, prev: seq<int>,
                                         tree: map<nat, Path>, v: nat)
    requires WellFormed(g) && Tree(g, start, done, dist, prev, tree) && v in tree
    ensures DistancesAlong(g, tree[v], dist)
    decreases |tree[v].dirs|
  {
    hide Tree, Rooted, Linked, IsPath, Length, WellFormed, DistancesAlong, Simple;
    TreeAt(g, start, done, dist, prev, tree, v);
    RootedEnds(g, start, done, v, dist[v], tree[v]);
    if v != start {
      LinkIsDone(g, start, done, dist, prev, tree, v);
      TreeDistances(g, start, done, dist, prev, tree, prev[v]);
    } else {
      StartIsRoot(start, prev[v], tree);
    }
    AlongMore(g, tree[v], dist);
  }

  lemma StartIsRoot(start: nat, prev: int, tree: map<nat, Path>)
    requires start in tree && Linked(start, start, prev, tree)
    ensures tree[start] == Path([start], [])
  {
  }

  lemma ExtendSimple(p: Path, i: nat, w: nat, done: set<nat>)
    requires forall k :: 0 <= k < |p.nodes| ==> p.nodes[k] in done
    requires w !in done && Simple(p)
    ensures Simple(Extend(p, i, w))
  {
  }

  lemma RootedExtends(g: Graph, start: nat, done: set<nat>, u: nat, d: int, p: Path, i: nat, w: nat)
    requires WellFormed(g) && Rooted(g, start, done, u, d, p)
    requires u in done && w !in done && Leads(g, u, i, w)
    ensures Rooted(g, start, done, w, d + EdgeLength(g, u, i), Extend(p, i, w))
  {
    ExtendIsPath(g, p, i, w);
    ExtendSimple(p, i, w, done);
  }

  lemma InitOfExtend(p: Path, i: nat, w: nat)
    requires |p.nodes| == |p.dirs| + 1
    ensures Init(Extend(p, i, w)) == p
  {
  }

  lemma TreeFrom(g: Graph, start: nat, done: set<nat>, dist: seq<int>, prev: seq<int>, tree: map<nat, Path>)
    requires WellFormed(g) && |dist| == |g| && |prev| == |g| && start < |g| && start in tree && done <= tree.Keys
    requires forall v: nat :: v in tree <==> v < |g| && dist[v] != INT32_MAX
    requires forall v: nat :: v in tree ==> Rooted(g, start, done, v, dist[v], tree[v])
    requires forall v: nat :: v in tree ==> Linked(start, v, prev[v], tree)
    requires forall v: nat :: v < |g| && v !in tree ==> prev[v] == NONE
    ensures Tree(g, start, done, dist, prev, tree)
  {
    hide WellFormed, Rooted, Linked;
  }

  lemma NotInTree(g: Graph, start: nat, done: set<nat>, dist: seq<int>, prev: seq<int>, tree: map<nat, Path>, v: nat)
    requires WellFormed(g) && Tree(g, start, done, dist, prev, tree) && v < |g|
    ensures |dist| == |prev| == |g| && (v !in tree <==> dist[v] == INT32_MAX) && (v !in tree ==> prev[v] == NONE)
  {
  }

  lemma LinkedStays(start: nat, v: nat, prev: int, tree: map<nat, Path>, w: nat, p: Path)
    requires v in tree && Linked(start, v, prev, tree) && v != w && (v != start ==> prev != w)
    ensures Linked(start, v, prev, tree[w := p])
  {
  }

  lemma LinkedNew(start: nat, w: nat, u: nat, tree: map<nat, Path>, i: nat)
    requires u in tree && u != w && w != start && |tree[u].nodes| == |tree[u].dirs| + 1
    ensures Linked(start, w, u, tree[w := Extend(tree[u], i, w)])
  {
    InitOfExtend(tree[u], i, w);
  }

  /** Reaching w from the finished node u by edge i: its path is u's path and one more hop. */
  lemma TreeGrows(g: Graph, start: nat, done: set<nat>, dist: seq<int>, prev: seq<int>, tree: map<nat, Path>,
                  u: nat, i: nat, w: nat, d: int)
    requires WellFormed(g) && Tree(g, start, done, dist, prev, tree)
    requires u in done && w !in done && start in done && u < |g| && Leads(g, u, i, w) && w < |g|
    requires d == dist[u] + EdgeLength(g, u, i) && d != INT32_MAX
    ensures u in tree && Tree(g, start, done, dist[w := d], prev[w := u], tree[w := Extend(tree[u], i, w)])
  {
    hide *;
    InTree(g, start, done, dist, prev, tree, u);
    TreeAt(g, start, done, dist, prev, tree, u);
    RootedExtends(g, start, done, u, dist[u], tree[u], i, w);
    RootedEnds(g, start, done, u, dist[u], tree[u]);
    LinkedNew(start, w, u, tree, i);
    var p := Extend(tree[u], i, w);
    var tree' := tree[w := p];
    forall v: nat ensures v in tree' <==> v < |g| && dist[w := d][v] != INT32_MAX {
      if v < |g| { InTree(g, start, done, dist, prev, tree, v); }
      if v in tree { TreeAt(g, start, done, dist, prev, tree, v); }
    }
    forall v: nat | v in tree'
      ensures Rooted(g, start, done, v, dist[w := d][v], tree'[v]) && Linked(start, v, prev[w := u][v], tree')
    {
      if v != w {
        TreeAt(g, start, done, dist, prev, tree, v);
        if v != start { LinkIsDone(g, start, done, dist, prev, tree, v); }
        LinkedStays(start, v, prev[v], tree, w, p);
      }
    }
    forall v: nat | v < |g| && v !in tree'
      ensures prev[w := u][v] == NONE
    {
      NotInTree(g, start, done, dist, prev, tree, v);
    }
    TreeFrom(g, start, done, dist[w := d], prev[w := u], tree');
  }

  lemma RootedGrows(g: Graph, start: nat, done: set<nat>, done': set<nat>, v: nat, d: int, p: Path)
    requires WellFormed(g) && Rooted(g, start, done, v, d, p) && done <= done'
    ensures Rooted(g, start, done', v, d, p)
  {
  }

  /** Finishing the node u keeps the tree. */
  lemma TreeFinishes(g: Graph, start: nat, done: set<nat>, dist: seq<int>, prev: seq<int>, tree: map<nat, Path>, u: nat)
    requires WellFormed(g) && Tree(g, start, done, dist, prev, tree) && u in tree
    ensures Tree(g, start, done + {u}, dist, prev, tree)
  {
    hide Rooted, Linked, WellFormed;
    forall v: nat | v in tree ensures Rooted(g, start, done + {u}, v, dist[v], tree[v]) {
      RootedGrows(g, start, done, done + {u}, v, dist[v], tree[v]);
    }
  }

  // ----- shortest paths, without locks -----

  /** Along a path through finished nodes the tree is never behind the path. */
  lemma {:induction false} NeverBehind(g: Graph, start: nat, done: set<nat>, dist: seq<int>, weight: seq<int>,
                                       p: Path, k: nat)
    requires WellFormed(g) && Weights(g, done, dist, weight, true, |g|, 0)
    requires start < |g| && dist[start] == 0
    requires IsPathFrom(g, p, start) && k <= |p.dirs|
    requires forall j :: 0 <= j < k ==> p.nodes[j] in done
    ensures IsPath(g, Prefix(p, k)) && dist[p.nodes[k]] <= Length(g, Prefix(p, k))
  {
    PrefixIsPath(g, p, k);
    if k > 0 {
      NeverBehind(g, start, done, dist, weight, p, k - 1);
      PrefixStep(g, p, k - 1);
      Relaxed(g, done, dist, weight, p.nodes[k - 1], p.dirs[k - 1]);
    }
  }

  lemma Relaxed(g: Graph, done: set<nat>, dist: seq<int>, weight: seq<int>, x: nat, i: nat)
    requires WellFormed(g) && Weights(g, done, dist, weight, true, |g|, 0)
    requires x in done && x < |g| && i < NbhdSize(g[x].kind)
    ensures dist[EdgeAt(g, x, i).dest] <= dist[x] + EdgeLength(g, x, i)
  {
  }

  /** A waiting node at least as near as all others is no farther than any path to any waiting node. */
  lemma NearestWaiting(g: Graph, start: nat, done: set<nat>, dist: seq<int>, weight: seq<int>, u: nat, p: Path)
    requires WellFormed(g) && Weights(g, done, dist, weight, true, |g|, 0)
    requires start < |g| && dist[start] == 0
    requires u < |g| && forall y: nat :: y < |g| && y !in done ==> dist[u] <= dist[y]
    requires IsPathFrom(g, p, start) && Last(p) !in done
    ensures dist[u] <= Length(g, p)
  {
    if start in done {
      var m := LeavesSomewhere(g, p, done, 0);
      NeverBehind(g, start, done, dist, weight, p, m + 1);
      PrefixShorter(g, p, m + 1);
    }
  }

  /** When the nearest waiting node was never reached, no path leaves the finished nodes. */
  lemma NoWayOut(g: Graph, start: nat, done: set<nat>, dist: seq<int>, reached: set<nat>, p: Path)
    requires WellFormed(g) && Closed(g, done, reached, |g|, 0) && start in done
    requires forall y: nat :: y < |g| && y !in done ==> y !in reached
    requires IsPathFrom(g, p, start)
    ensures Last(p) in done
  {
    if Last(p) !in done {
      var m := LeavesSomewhere(g, p, done, 0);
      ClosedAt(g, done, reached, p, m);
    }
  }

  lemma ClosedAt(g: Graph, done: set<nat>, reached: set<nat>, p: Path, m: nat)
    requires WellFormed(g) && Closed(g, done, reached, |g|, 0)
    requires IsPath(g, p) && m < |p.dirs| && p.nodes[m] in done
    ensures p.nodes[m + 1] in reached && p.nodes[m + 1] < |g|
  {
    assert Leads(g, p.nodes[m], p.dirs[m], p.nodes[m + 1]);
  }

  // ----- the invariant of the search -----

  /** Everything the loops keep; node u is being expanded and its first k edges have been looked at
      (u == |g| between two expansions). */
  ghost predicate Inv(g: Graph, start: nat, plain: bool, done: set<nat>, dist: seq<int>, weight: seq<int>,
                      prev: seq<int>, tree: map<nat, Path>, entries: multiset<Heap.Node>, u: nat, k: nat)
    requires WellFormed(g)
  {
    Tree(g, start, done, dist, prev, tree) && Weights(g, done, dist, weight, plain, u, k) &&
    Closed(g, done, tree.Keys, u, k) && Queued(entries, |g|, done, weight) &&
    (u < |g| ==> u in done && start in done)
  }

  lemma InvStart(g: Graph, start: nat, plain: bool, dist: seq<int>, weight: seq<int>, prev: seq<int>,
                 entries: multiset<Heap.Node>)
    requires WellFormed(g) && start < |g| == |dist| == |prev| && weight == dist
    requires forall v: nat :: v < |g| ==> dist[v] == (if v == start then 0 else INT32_MAX) && prev[v] == NONE
    requires Queued(entries, |g|, {}, weight)
    ensures Inv(g, start, plain, {}, dist, weight, prev, map[start := Path([start], [])], entries, |g|, 0)
  {
    TreeStarts(g, start, dist, prev);
  }

  /** Popping the least key: it is the least among the waiting nodes' keys. */
  lemma PoppedIsLeast(g: Graph, start: nat, plain: bool, done: set<nat>, dist: seq<int>, weight: seq<int>,
                      prev: seq<int>, tree: map<nat, Path>, entries: multiset<Heap.Node>, top: Heap.Node)
    requires WellFormed(g) && Inv(g, start, plain, done, dist, weight, prev, tree, entries, |g|, 0)
    requires top in entries && forall e :: e in entries ==> top.priority <= e.priority
    ensures |dist| == |weight| == |g|
    ensures 0 <= top.value < |g| && top.value !in done && top.priority == Key(weight[top.value])
    ensures forall y: nat :: y < |g| && y !in done ==> Key(weight[top.value]) <= Key(weight[y])
    ensures start < |g| && dist[start] == 0
  {
    hide Tree, Weights, Closed;
    WeightsSized(g, done, dist, weight, plain, |g|, 0);
    forall y: nat | y < |g| && y !in done ensures Key(weight[top.value]) <= Key(weight[y]) {
      assert entries[Heap.Node(Key(weight[y]), y)] == 1;
    }
    StartIsZero(g, start, done, dist, prev, tree);
  }

  lemma WeightsSized(g: Graph, done: set<nat>, dist: seq<int>, weight: seq<int>, plain: bool, u: nat, k: nat)
    requires WellFormed(g) && Weights(g, done, dist, weight, plain, u, k)
    ensures |dist| == |weight| == |g|
    ensures forall v: nat :: v < |g| ==> if dist[v] == INT32_MAX then weight[v] == INT32_MAX else 0 <= weight[v] < 65535
    ensures plain ==> forall v: nat :: v < |g| ==> weight[v] == dist[v]
  {
  }

  lemma StartIsZero(g: Graph, start: nat, done: set<nat>, dist: seq<int>, prev: seq<int>, tree: map<nat, Path>)
    requires WellFormed(g) && Tree(g, start, done, dist, prev, tree)
    ensures start < |g| == |dist| && dist[start] == 0
  {
    TreeAt(g, start, done, dist, prev, tree, start);
  }

  lemma QueuedPop(n: nat, done: set<nat>, weight: seq<int>, entries: multiset<Heap.Node>, top: Heap.Node)
    requires |weight| == n && Queued(entries, n, done, weight) && top in entries
    ensures Queued(entries - multiset{top}, n, done + {top.value as nat}, weight)
  {
  }

  lemma QueuedDecrease(n: nat, done: set<nat>, weight: seq<int>, entries: multiset<Heap.Node>, before: Heap.Node,
                       w: nat, new_weight: int)
    requires |weight| == n && Queued(entries, n, done, weight) && before in entries && before.value == w < n
    ensures Queued(entries - multiset{before} + multiset{Heap.Node(Key(new_weight), w)}, n, done,
      weight[w := new_weight])
  {
  }

  /** Weights once the nearest waiting node u is finished. */
  lemma WeightsPop(g: Graph, done: set<nat>, dist: seq<int>, weight: seq<int>, plain: bool, u: nat)
    requires WellFormed(g) && Weights(g, done, dist, weight, plain, |g|, 0)
    requires u < |g| && u !in done && dist[u] != INT32_MAX
    requires forall y: nat :: y < |g| && y !in done ==> Key(weight[u]) <= Key(weight[y])
    ensures Weights(g, done + {u}, dist, weight, plain, u, 0)
  {
    forall y: nat | y < |g| && y !in done ensures weight[u] <= weight[y] {
      assert weight[y] == INT32_MAX || Key(weight[y]) == weight[y];
    }
  }

  lemma InvPop(g: Graph, start: nat, plain: bool, done: set<nat>, dist: seq<int>, weight: seq<int>,
               prev: seq<int>, tree: map<nat, Path>, entries: multiset<Heap.Node>, top: Heap.Node)
    requires WellFormed(g) && Inv(g, start, plain, done, dist, weight, prev, tree, entries, |g|, 0)
    requires top in entries && forall e :: e in entries ==> top.priority <= e.priority
    requires |dist| == |g| && 0 <= top.value < |g| && dist[top.value] != INT32_MAX
    ensures Inv(g, start, plain, done + {top.value as nat}, dist, weight, prev, tree, entries - multiset{top},
      top.value, 0)
  {
    hide Tree, Weights, Queued;
    PoppedIsLeast(g, start, plain, done, dist, weight, prev, tree, entries, top);
    var u: nat := top.value;
    QueuedPop(|g|, done, weight, entries, top);
    WeightsPop(g, done, dist, weight, plain, u);
    InTree(g, start, done, dist, prev, tree, u);
    TreeFinishes(g, start, done, dist, prev, tree, u);
    StartFirst(g, start, plain, done, dist, weight, prev, tree, u);
  }

  lemma InTree(g: Graph, start: nat, done: set<nat>, dist: seq<int>, prev: seq<int>, tree: map<nat, Path>, v: nat)
    requires WellFormed(g) && Tree(g, start, done, dist, prev, tree) && v < |g|
    ensures |dist| == |g| && (v in tree <==> dist[v] != INT32_MAX)
    ensures v in done ==> v in tree
  {
  }

  /** The start is the first node to be finished. */
  lemma StartFirst(g: Graph, start: nat, plain: bool, done: set<nat>, dist: seq<int>, weight: seq<int>,
                   prev: seq<int>, tree: map<nat, Path>, u: nat)
    requires WellFormed(g) && Tree(g, start, done, dist, prev, tree) && u in tree
    requires u !in done
    ensures start in done + {u}
  {
    hide Rooted, Linked, WellFormed;
    TreeAt(g, start, done, dist, prev, tree, u);
    StartOrDone(g, start, done, u, dist[u], tree[u]);
  }

  lemma StartOrDone(g: Graph, start: nat, done: set<nat>, v: nat, d: int, p: Path)
    requires WellFormed(g) && Rooted(g, start, done, v, d, p)
    ensures v == start || start in done
  {
    if |p.dirs| > 0 { assert p.nodes[0] in done; }
  }

  /** An edge that brings no gain, or leads to a finished node, changes nothing. */
  lemma InvSkip(g: Graph, start: nat, plain: bool, done: set<nat>, dist: seq<int>, weight: seq<int>,
                prev: seq<int>, tree: map<nat, Path>, entries: multiset<Heap.Node>, u: nat, k: nat, w: nat, alt: int)
    requires WellFormed(g) && Inv(g, start, plain, done, dist, weight, prev, tree, entries, u, k)
    requires u < |g| && w < |g| && Leads(g, u, k, w) && |dist| == |weight| == |g|
    requires plain ==> alt == dist[u] + EdgeLength(g, u, k)
    requires alt < 65535 && (alt >= weight[w] || w in done)
    ensures Inv(g, start, plain, done, dist, weight, prev, tree, entries, u, k + 1)
  {
    hide Tree, Queued;
    InTree(g, start, done, dist, prev, tree, w);
  }

  lemma WeightsRelax(g: Graph, done: set<nat>, dist: seq<int>, weight: seq<int>, plain: bool, u: nat, k: nat,
                     w: nat, d: int, alt: int)
    requires WellFormed(g) && Weights(g, done, dist, weight, plain, u, k)
    requires u < |g| && u in done && w < |g| && Leads(g, u, k, w) && w !in done
    requires d == dist[u] + EdgeLength(g, u, k) && d != INT32_MAX && 0 <= alt < 65535 && alt < weight[w]
    requires plain ==> alt == d
    ensures Weights(g, done, dist[w := d], weight[w := alt], plain, u, k + 1)
  {
  }

  lemma ClosedRelax(g: Graph, done: set<nat>, reached: set<nat>, u: nat, k: nat, w: nat)
    requires WellFormed(g) && Closed(g, done, reached, u, k) && Leads(g, u, k, w)
    ensures Closed(g, done, reached + {w}, u, k + 1)
  {
  }

  lemma InvRelax(g: Graph, start: nat, plain: bool, done: set<nat>, dist: seq<int>, weight: seq<int>, prev: seq<int>,
                 tree: map<nat, Path>, entries: multiset<Heap.Node>, u: nat, k: nat, w: nat, d: int, alt: int,
                 before: Heap.Node)
    requires WellFormed(g) && Inv(g, start, plain, done, dist, weight, prev, tree, entries, u, k)
    requires |dist| == |weight| == |prev| == |g| && u < |g| && w < |g| && Leads(g, u, k, w) && w !in done
    requires d == dist[u] + EdgeLength(g, u, k) && d != INT32_MAX && 0 <= alt < 65535 && alt < weight[w]
    requires plain ==> alt == d
    requires before in entries && before.value == w
    ensures u in tree
    ensures Inv(g, start, plain, done, dist[w := d], weight[w := alt], prev[w := u],
                tree[w := Extend(tree[u], k, w)],
                entries - multiset{before} + multiset{Heap.Node(Key(alt), w)}, u, k + 1)
  {
    hide Tree, Queued, Weights, Closed;
    TreeGrows(g, start, done, dist, prev, tree, u, k, w, d);
    WeightsRelax(g, done, dist, weight, plain, u, k, w, d, alt);
    ClosedRelax(g, done, tree.Keys, u, k, w);
    assert tree[w := Extend(tree[u], k, w)].Keys == tree.Keys + {w};
    QueuedDecrease(|g|, done, weight, entries, before, w, alt);
  }

  /** All edges of u have been looked at. */
  lemma InvNext(g: Graph, start: nat, plain: bool, done: set<nat>, dist: seq<int>, weight: seq<int>,
                prev: seq<int>, tree: map<nat, Path>, entries: multiset<Heap.Node>, u: nat, k: nat)
    requires WellFormed(g) && Inv(g, start, plain, done, dist, weight, prev, tree, entries, u, k)
    requires u < |g| && NbhdSize(g[u].kind) <= k
    ensures Inv(g, start, plain, done, dist, weight, prev, tree, entries, |g|, 0)
  {
    hide Tree, Queued;
  }

  // ----- reading the result -----

  /** Expanding u never computes a length outside the 16-bit keys. */
  ghost predicate EdgesFit(g: Graph, u: nat, d: int, answers: nat -> bool)
    requires WellFormed(g) && u < |g|
  {
    0 <= d && forall i: nat :: i < NbhdSize(g[u].kind) ==>
      (NoLocks(answers) ==> d + EdgeLength(g, u, i) < 65535) &&
      (!NoLocks(answers) ==> d + IN_USE_PENALTY * EdgeLength(g, u, i) < 65535)
  }

  /** A node popped with a least key is reached by a shortest path when nothing is locked; in either case its
      edges fit. */
  lemma PoppedFits(g: Graph, start: nat, answers: nat -> bool, done: set<nat>, dist: seq<int>, weight: seq<int>,
                   prev: seq<int>, tree: map<nat, Path>, entries: multiset<Heap.Node>, top: Heap.Node)
    requires WellFormed(g) && FitsKeys(g, start, answers)
    requires Inv(g, start, NoLocks(answers), done, dist, weight, prev, tree, entries, |g|, 0)
    requires top in entries && forall e :: e in entries ==> top.priority <= e.priority
    requires |dist| == |g| && 0 <= top.value < |g| && dist[top.value] != INT32_MAX
    ensures EdgesFit(g, top.value, dist[top.value], answers)
    ensures NoLocks(answers) ==>
      forall q: Path :: IsPathFrom(g, q, start) && Last(q) !in done ==> dist[top.value] <= Length(g, q)
  {
    hide Tree, Weights, Queued, Closed, WellFormed, IsPath, NoLocks, FitsKeys, EdgesFit;
    PoppedIsLeast(g, start, NoLocks(answers), done, dist, weight, prev, tree, entries, top);
    var u: nat := top.value;
    InTree(g, start, done, dist, prev, tree, u);
    TreeAt(g, start, done, dist, prev, tree, u);
    RootedEnds(g, start, done, u, dist[u], tree[u]);
    if NoLocks(answers) {
      forall q: Path | IsPathFrom(g, q, start) && Last(q) !in done ensures dist[u] <= Length(g, q) {
        LeastDistance(g, done, dist, weight, u);
        NearestWaiting(g, start, done, dist, weight, u, q);
      }
    }
    PathFits(g, start, answers, done, u, dist[u], tree[u]);
  }

  lemma LeastDistance(g: Graph, done: set<nat>, dist: seq<int>, weight: seq<int>, u: nat)
    requires WellFormed(g) && Weights(g, done, dist, weight, true, |g|, 0)
    requires u < |g| && dist[u] != INT32_MAX
    requires forall y: nat :: y < |g| && y !in done ==> Key(weight[u]) <= Key(weight[y])
    ensures forall y: nat :: y < |g| && y !in done ==> dist[u] <= dist[y]
  {
    forall y: nat | y < |g| && y !in done ensures dist[u] <= dist[y] {
      assert weight[y] == INT32_MAX || Key(weight[y]) == weight[y];
    }
  }

  lemma PathFits(g: Graph, start: nat, answers: nat -> bool, done: set<nat>, u: nat, d: int, p: Path)
    requires WellFormed(g) && FitsKeys(g, start, answers) && u < |g| && u !in done
    requires Rooted(g, start, done, u, d, p)
    requires NoLocks(answers) ==> forall q: Path :: IsPathFrom(g, q, start) && Last(q) !in done ==> d <= Length(g, q)
    ensures EdgesFit(g, u, d, answers)
  {
    hide NoLocks;
    if NoLocks(answers) { assert Shortest(g, p); }
    forall i: nat | i < NbhdSize(g[u].kind)
      ensures (NoLocks(answers) ==> d + EdgeLength(g, u, i) < 65535) &&
        (!NoLocks(answers) ==> d + IN_USE_PENALTY * EdgeLength(g, u, i) < 65535)
    {
      assert IsPathFrom(g, p, start) && Simple(p) && i < NbhdSize(g[Last(p)].kind);
    }
  }

  /** t is a target on the search tree, at least distance without locks. */
  ghost predicate Found(g: Graph, start: nat, end: nat, plain: bool, dist: seq<int>, prev: seq<int>,
                        tree: map<nat, Path>, done: set<nat>, t: nat)
    requires WellFormed(g)
  {
    Tree(g, start, done, dist, prev, tree) && IsTarget(g, end, t) && t in tree &&
    IsPathFrom(g, tree[t], start) && Last(tree[t]) == t && Simple(tree[t]) && Length(g, tree[t]) == dist[t] &&
    (plain ==> forall q: Path :: IsPathFrom(g, q, start) && IsTarget(g, end, Last(q)) ==> dist[t] <= Length(g, q))
  }

  /** What stopping at t means.  The program leaves the loop at a target before it looks at the distance, so a
      target that was never reached can be reported too; its distance gives it away. */
  ghost predicate Reported(g: Graph, start: nat, end: nat, plain: bool, dist: seq<int>, prev: seq<int>,
                           tree: map<nat, Path>, done: set<nat>, t: nat)
    requires WellFormed(g)
  {
    |dist| == |g| == |prev| && IsTarget(g, end, t) &&
    (dist[t] != INT32_MAX <==> !NoRoute(g, start, end)) && (dist[t] == INT32_MAX ==> prev[t] == NONE) &&
    (dist[t] != INT32_MAX ==> Found(g, start, end, plain, dist, prev, tree, done, t))
  }

  ghost predicate Unreachable(g: Graph, start: nat, v: nat)
    requires WellFormed(g)
  {
    forall q: Path :: IsPathFrom(g, q, start) ==> Last(q) != v
  }

  ghost predicate SomeOtherUnreachable(g: Graph, start: nat, end: nat)
    requires WellFormed(g)
  {
    exists v: nat :: v < |g| && !IsTarget(g, end, v) && Unreachable(g, start, v)
  }

  ghost predicate NoRoute(g: Graph, start: nat, end: nat)
    requires WellFormed(g)
  {
    forall q: Path :: IsPathFrom(g, q, start) ==> !IsTarget(g, end, Last(q))
  }

  lemma FoundTarget(g: Graph, start: nat, end: nat, plain: bool, done: set<nat>, dist: seq<int>, weight: seq<int>,
                    prev: seq<int>, tree: map<nat, Path>, entries: multiset<Heap.Node>, t: nat)
    requires WellFormed(g) && Inv(g, start, plain, done, dist, weight, prev, tree, entries, |g|, 0)
    requires |dist| == |g| && t < |g| && dist[t] != INT32_MAX && IsTarget(g, end, t)
    requires forall v: nat :: v in done ==> !IsTarget(g, end, v)
    requires plain ==> forall q: Path :: IsPathFrom(g, q, start) && Last(q) !in done ==> dist[t] <= Length(g, q)
    ensures Found(g, start, end, plain, dist, prev, tree, done, t) && !NoRoute(g, start, end) && |prev| == |g|
  {
    hide Tree, Weights, Queued, Closed, WellFormed, IsPath, IsTarget;
    InTree(g, start, done, dist, prev, tree, t);
    TreeAt(g, start, done, dist, prev, tree, t);
    RootedEnds(g, start, done, t, dist[t], tree[t]);
    assert IsPathFrom(g, tree[t], start);
  }

  /** Popping a node that was never reached: nothing else can be reached either. */
  lemma NothingLeft(g: Graph, start: nat, end: nat, plain: bool, done: set<nat>, dist: seq<int>, weight: seq<int>,
                    prev: seq<int>, tree: map<nat, Path>, entries: multiset<Heap.Node>, top: Heap.Node)
    requires WellFormed(g) && Inv(g, start, plain, done, dist, weight, prev, tree, entries, |g|, 0)
    requires top in entries && forall e :: e in entries ==> top.priority <= e.priority
    requires |dist| == |g| && 0 <= top.value < |g| && dist[top.value] == INT32_MAX
    requires forall v: nat :: v in done ==> !IsTarget(g, end, v)
    ensures NoRoute(g, start, end) && Unreachable(g, start, top.value) && |prev| == |g| && prev[top.value] == NONE
  {
    hide Tree, Weights, Queued, Closed, WellFormed, IsPath, IsTarget;
    NotInTree(g, start, done, dist, prev, tree, top.value);
    PoppedIsLeast(g, start, plain, done, dist, weight, prev, tree, entries, top);
    AllUnreached(g, start, plain, done, dist, weight, prev, tree, top.value);
    forall q: Path | IsPathFrom(g, q, start) ensures Last(q) in done {
      NoWayOut(g, start, done, dist, tree.Keys, q);
    }
  }

  lemma AllUnreached(g: Graph, start: nat, plain: bool, done: set<nat>, dist: seq<int>, weight: seq<int>,
                     prev: seq<int>, tree: map<nat, Path>, u: nat)
    requires WellFormed(g) && Tree(g, start, done, dist, prev, tree) && Weights(g, done, dist, weight, plain, |g|, 0)
    requires u < |g| && dist[u] == INT32_MAX && start < |g| && dist[start] == 0
    requires forall y: nat :: y < |g| && y !in done ==> Key(weight[u]) <= Key(weight[y])
    ensures start in done
    ensures forall y: nat :: y < |g| && y !in done ==> y !in tree.Keys
  {
    hide Tree, Weights;
    WeightsSized(g, done, dist, weight, plain, |g|, 0);
    forall y: nat | y < |g| ensures dist[y] != INT32_MAX ==> y in done { }
    forall y: nat | y < |g| && y !in done ensures y !in tree.Keys { InTree(g, start, done, dist, prev, tree, y); }
  }

  // ----- the program -----

  const CACHE_NONE := 0
  const CACHE_UNLOCKED := 1
  const CACHE_LOCKED := 2

  /** The query cache agrees with the answers, and each segment was asked about at most once. */
  ghost predicate Cached(cache: seq<int>, answers: nat -> bool, asked: seq<nat>) {
    |cache| == N_SEGMENTS &&
    (forall j, k :: 0 <= j < k < |asked| ==> asked[j] != asked[k]) &&
    (forall c: nat :: c < N_SEGMENTS ==> (c in asked <==> cache[c] != CACHE_NONE)) &&
    (forall c: nat :: c < N_SEGMENTS && cache[c] != CACHE_NONE ==>
      cache[c] == if answers(c) then CACHE_LOCKED else CACHE_UNLOCKED)
  }

  /** Asks the lock server about a segment unless the answer is cached. */
  method Penalty(segment: nat, answers: nat -> bool, cache: array<int>, asked: seq<nat>) returns (mult: nat,
                 asked': seq<nat>)
    requires segment < N_SEGMENTS && Cached(cache[..], answers, asked)
    modifies cache
    ensures Cached(cache[..], answers, asked')
    ensures mult == if answers(segment) then IN_USE_PENALTY else 1
  {
    asked' := asked;
    if cache[segment] == CACHE_NONE {
      cache[segment] := if answers(segment) then CACHE_LOCKED else CACHE_UNLOCKED;
      asked' := asked + [segment];
    }
    mult := if cache[segment] == CACHE_LOCKED then IN_USE_PENALTY else 1;
  }

  /** The distinct nodes of the freshly filled heap, each once. */
  lemma {:induction false} EachOnce(a: seq<Heap.Node>, n: nat)
    requires n <= |a| && forall i :: 0 <= i < |a| ==> a[i].value == i
    ensures forall e :: e in multiset(a[..n]) ==> 0 <= e.value < n && e == a[e.value] && multiset(a[..n])[e] == 1
    ensures forall i :: 0 <= i < n ==> a[i] in multiset(a[..n])
  {
    if n > 0 {
      EachOnce(a, n - 1);
      assert a[..n] == a[..n - 1] + [a[n - 1]];
    }
  }

  lemma FilledIsQueued(a: seq<Heap.Node>, weight: seq<int>)
    requires |a| == |weight|
    requires forall i :: 0 <= i < |a| ==> a[i] == Heap.Node(Key(weight[i]), i)
    ensures Queued(multiset(a), |weight|, {}, weight)
  {
    EachOnce(a, |a|);
    assert a[..|a|] == a;
    forall v: nat | v < |weight| ensures multiset(a)[Heap.Node(Key(weight[v]), v)] == 1 {
      assert a[v] in multiset(a);
    }
  }

  method FillHeap(weight: array<int>) returns (pq: Heap.PriorityQueue, ghost filled: seq<Heap.Node>)
    requires 0 < weight.Length <= Heap.MAX_PQ_ELEMENTS
    ensures fresh(pq) && fresh(pq.heap) && pq.Valid()
    ensures Queued(pq.Entries(), weight.Length, {}, weight[..]) && pq.size == weight.Length <= |filled|
    ensures forall j :: 0 <= j < weight.Length ==> filled[j] == Heap.Node(Key(weight[j]), j)
    ensures pq.heap[..] == Heap.Heapified(filled, weight.Length, 0)
  {
    hide Queued, Heap.Ordered, Heap.Heapified;
    pq := new Heap.PriorityQueue();
    for i := 0 to weight.Length
      invariant pq.Shaped() && fresh(pq.heap) && fresh(pq)
      invariant forall j :: 0 <= j < i ==> pq.heap[j] == Heap.Node(Key(weight[j]), j)
    {
      pq.heap[i] := Heap.Node(Key(weight[i]), i);
    }
    FilledIsQueued(pq.heap[..weight.Length], weight[..]);
    filled := pq.heap[..];
    pq.Init(weight.Length);
  }

  lemma NodeFacts(g: Graph, u: nat, k: nat)
    requires WellFormed(g) && u < |g|
    ensures 0 < |g| <= 256 && |g[u].edge| == 2 && g[u].segment < N_SEGMENTS
    ensures g[u].reverse < |g|
    ensures k < NbhdSize(g[u].kind) ==>
      g[u].edge[k].dest < |g| && Leads(g, u, k, g[u].edge[k].dest) && EdgeLength(g, u, k) == g[u].edge[k].dist
  {
    assert WellFormedNode(g, u);
  }

  lemma EdgeFits(g: Graph, u: nat, d: int, answers: nat -> bool, k: nat, mult: nat)
    requires WellFormed(g) && u < |g| && k < NbhdSize(g[u].kind) && EdgesFit(g, u, d, answers)
    requires mult == if answers(g[u].segment) then IN_USE_PENALTY else 1
    ensures 0 <= d + EdgeLength(g, u, k) <= d + mult * EdgeLength(g, u, k) < 65535
    ensures NoLocks(answers) ==> mult == 1
  {
  }

  /** A waiting node is in the heap, under its key, and a finished one is not. */
  lemma QueuedExactly(g: Graph, start: nat, plain: bool, done: set<nat>, dist: seq<int>, weight: seq<int>,
                      prev: seq<int>, tree: map<nat, Path>, entries: multiset<Heap.Node>, u: nat, k: nat, w: nat)
    requires WellFormed(g) && Inv(g, start, plain, done, dist, weight, prev, tree, entries, u, k) && w < |g|
    ensures |weight| == |g|
    ensures (exists e :: e in entries && e.value == w) <==> w !in done
    ensures forall e :: e in entries && e.value == w ==>
      forall alt: nat :: alt < 65535 && alt < weight[w] ==> Key(alt) <= e.priority
  {
    hide Tree, Closed, Weights;
    WeightsSized(g, done, dist, weight, plain, u, k);
    if w !in done { assert entries[Heap.Node(Key(weight[w]), w)] == 1; }
  }

  method SetNode(dist: array<int>, weight: array<int>, prev: array<int>, w: nat, d: int, alt: int, u: nat)
    requires dist != weight && dist != prev && weight != prev
    requires dist.Length == weight.Length == prev.Length && w < dist.Length
    modifies dist, weight, prev
    ensures dist[..] == old(dist[..])[w := d]
    ensures weight[..] == old(weight[..])[w := alt]
    ensures prev[..] == old(prev[..])[w := u]
  {
    weight[w] := alt;
    dist[w] := d;
    prev[w] := u;
  }

  lemma LedTo(g: Graph, u: nat, k: nat, w: nat)
    requires WellFormed(g) && Leads(g, u, k, w)
    ensures u < |g| && k < NbhdSize(g[u].kind) && EdgeAt(g, u, k).dest == w
  {
  }

  /** The branch taken when the way through u is better: w changes its key, unless it has left the heap. */
  method Improve(g: Graph, ghost start: nat, ghost answers: nat -> bool, pq: Heap.PriorityQueue, dist: array<int>,
                 weight: array<int>, prev: array<int>, u: nat, ghost k: nat, w: nat, altDist: nat, altWeight: nat,
                 ghost done: set<nat>, ghost order: seq<nat>, ghost tree: map<nat, Path>)
    returns (ghost tree': map<nat, Path>)
    requires WellFormed(g) && u < |g| && w < |g| && pq.Valid()
    requires dist != weight && dist != prev && weight != prev && dist.Length == weight.Length == prev.Length == |g|
    requires Inv(g, start, NoLocks(answers), done, dist[..], weight[..], prev[..], tree, pq.Entries(), u, k)
    requires u in done && Leads(g, u, k, w) && altDist == dist[u] + EdgeLength(g, u, k)
    requires altDist <= altWeight < 65535 && altWeight < weight[w] && (NoLocks(answers) ==> altWeight == altDist)
    requires Priced(g, answers, start, done, order, dist[..], weight[..], tree, u, k)
    requires altWeight == Offer(g, answers, dist[..], u, k)
    modifies dist, weight, prev, pq.heap
    ensures pq.Valid()
    ensures Inv(g, start, NoLocks(answers), done, dist[..], weight[..], prev[..], tree', pq.Entries(), u, k + 1)
    ensures Priced(g, answers, start, done, order, dist[..], weight[..], tree', u, k + 1)
    ensures dist[u] == old(dist[u])
  {
    hide Inv, WellFormed, Heap.Ordered, Extend, Leads, Queued, EdgeLength, EdgeAt, Priced, Offer, NoLocks;
    tree' := tree;
    ghost var entries := pq.Entries();
    QueuedExactly(g, start, NoLocks(answers), done, dist[..], weight[..], prev[..], tree, entries, u, k, w);
    var found, _, before := pq.Decrease(w, Key(altWeight));
    if found {
      InvRelax(g, start, NoLocks(answers), done, dist[..], weight[..], prev[..], tree, entries, u, k, w,
               altDist, altWeight, before);
      PricedRelax(g, answers, start, done, order, dist[..], weight[..], tree, u, k, w, altDist, altWeight);
      tree' := tree[w := Extend(tree[u], k, w)];
      SetNode(dist, weight, prev, w, altDist, altWeight, u);
    } else {
      InvSkip(g, start, NoLocks(answers), done, dist[..], weight[..], prev[..], tree, entries, u, k, w, altWeight);
      LedTo(g, u, k, w);
      PricedSkip(g, answers, start, done, order, dist[..], weight[..], tree, u, k);
    }
  }

  /** The body of the loop over u's edges, for edge number k. */
  method RelaxEdge(g: Graph, ghost start: nat, answers: nat -> bool, pq: Heap.PriorityQueue, dist: array<int>,
                   weight: array<int>, prev: array<int>, cache: array<int>, asked: seq<nat>, u: nat, k: nat,
                   ghost done: set<nat>, ghost order: seq<nat>, ghost tree: map<nat, Path>)
    returns (asked': seq<nat>, ghost tree': map<nat, Path>)
    requires WellFormed(g) && u < |g| && k < NbhdSize(g[u].kind) && pq.Valid() && Cached(cache[..], answers, asked)
    requires dist != weight && dist != prev && weight != prev && cache != dist && cache != weight && cache != prev
    requires dist.Length == weight.Length == prev.Length == |g| && cache.Length == N_SEGMENTS
    requires Inv(g, start, NoLocks(answers), done, dist[..], weight[..], prev[..], tree, pq.Entries(), u, k)
    requires Priced(g, answers, start, done, order, dist[..], weight[..], tree, u, k)
    requires u in done && EdgesFit(g, u, dist[u], answers)
    modifies dist, weight, prev, cache, pq.heap
    ensures pq.Valid() && Cached(cache[..], answers, asked')
    ensures Inv(g, start, NoLocks(answers), done, dist[..], weight[..], prev[..], tree', pq.Entries(), u, k + 1)
    ensures Priced(g, answers, start, done, order, dist[..], weight[..], tree', u, k + 1)
    ensures dist[u] == old(dist[u])
  {
    hide Inv, Cached, WellFormed, Heap.Ordered, NoLocks, EdgesFit, Leads, EdgeLength, EdgeAt, Priced, Offer;
    NodeFacts(g, u, k);
    var w := g[u].edge[k].dest;
    var mult;
    mult, asked' := Penalty(g[u].segment, answers, cache, asked);
    EdgeFits(g, u, dist[u], answers, k, mult);
    OfferIs(g, answers, dist[..], u, k, mult);
    LedTo(g, u, k, w);
    var altDist := dist[u] + g[u].edge[k].dist;
    var altWeight := dist[u] + mult * g[u].edge[k].dist;
    if altWeight < weight[w] {
      tree' := Improve(g, start, answers, pq, dist, weight, prev, u, k, w, altDist, altWeight, done, order, tree);
    } else {
      tree' := tree;
      InvSkip(g, start, NoLocks(answers), done, dist[..], weight[..], prev[..], tree, pq.Entries(), u, k, w, altWeight);
      PricedSkip(g, answers, start, done, order, dist[..], weight[..], tree, u, k);
    }
  }

  /** The penalty is 15. */
  lemma OfferIs(g: Graph, answers: nat -> bool, dist: seq<int>, u: nat, k: nat, mult: nat)
    requires WellFormed(g) && u < |g| == |dist| && k < NbhdSize(g[u].kind)
    requires mult == if answers(g[u].segment) then IN_USE_PENALTY else 1
    ensures Offer(g, answers, dist, u, k) == dist[u] + mult * EdgeLength(g, u, k)
  {
  }

  /** The loop over the edges of the node u that was just popped. */
  method Expand(g: Graph, ghost start: nat, answers: nat -> bool, pq: Heap.PriorityQueue, dist: array<int>,
                weight: array<int>, prev: array<int>, cache: array<int>, asked: seq<nat>, u: nat,
                ghost done: set<nat>, ghost order: seq<nat>, ghost tree: map<nat, Path>)
    returns (asked': seq<nat>, ghost tree': map<nat, Path>)
    requires WellFormed(g) && u < |g| && pq.Valid() && Cached(cache[..], answers, asked)
    requires dist != weight && dist != prev && weight != prev && cache != dist && cache != weight && cache != prev
    requires dist.Length == weight.Length == prev.Length == |g| && cache.Length == N_SEGMENTS
    requires Inv(g, start, NoLocks(answers), done, dist[..], weight[..], prev[..], tree, pq.Entries(), u, 0)
    requires Priced(g, answers, start, done, order, dist[..], weight[..], tree, u, 0)
    requires u in done && EdgesFit(g, u, dist[u], answers)
    modifies dist, weight, prev, cache, pq.heap
    ensures pq.Valid() && Cached(cache[..], answers, asked')
    ensures Inv(g, start, NoLocks(answers), done, dist[..], weight[..], prev[..], tree', pq.Entries(), |g|, 0)
    ensures Priced(g, answers, start, done, order, dist[..], weight[..], tree', |g|, 0)
    ensures NbhdSize(g[u].kind) == 0 ==> dist[..] == old(dist[..]) && pq.heap[..] == old(pq.heap[..])
  {
    hide Inv, Cached, WellFormed, Heap.Ordered, NoLocks, EdgesFit, Priced;
    asked', tree' := asked, tree;
    var nbhdSize := NbhdSize(g[u].kind);
    for i := 0 to nbhdSize
      invariant pq.Valid() && Cached(cache[..], answers, asked')
      invariant Inv(g, start, NoLocks(answers), done, dist[..], weight[..], prev[..], tree', pq.Entries(), u, i)
      invariant Priced(g, answers, start, done, order, dist[..], weight[..], tree', u, i)
      invariant dist[u] == old(dist[u])
      invariant i == 0 ==> dist[..] == old(dist[..]) && pq.heap[..] == old(pq.heap[..])
    {
      asked', tree' := RelaxEdge(g, start, answers, pq, dist, weight, prev, cache, asked', u, i, done, order,
                                 tree');
    }
    InvNext(g, start, NoLocks(answers), done, dist[..], weight[..], prev[..], tree', pq.Entries(), u, nbhdSize);
    PricedNext(g, answers, start, done, order, dist[..], weight[..], tree', u, nbhdSize);
  }

  datatype Outcome = Running | Arrived(node: nat) | Stuck

  ghost predicate NoTargetDone(g: Graph, end: nat, done: set<nat>) {
    forall v: nat :: v in done ==> !IsTarget(g, end, v)
  }

  /** While the end is not finished it waits in the heap. */
  lemma EndIsWaiting(g: Graph, start: nat, end: nat, plain: bool, done: set<nat>, dist: seq<int>, weight: seq<int>,
                     prev: seq<int>, tree: map<nat, Path>, entries: multiset<Heap.Node>)
    requires WellFormed(g) && Inv(g, start, plain, done, dist, weight, prev, tree, entries, |g|, 0)
    requires end < |g| && NoTargetDone(g, end, done)
    ensures entries != multiset{}
  {
    QueuedExactly(g, start, plain, done, dist, weight, prev, tree, entries, |g|, 0, end);
    assert IsTarget(g, end, end);
  }

  /** Popping a target: it is reported as it stands. */
  lemma StopHere(g: Graph, start: nat, end: nat, answers: nat -> bool, done: set<nat>, dist: seq<int>,
                 weight: seq<int>, prev: seq<int>, tree: map<nat, Path>, entries: multiset<Heap.Node>, top: Heap.Node)
    requires WellFormed(g) && FitsKeys(g, start, answers) && NoTargetDone(g, end, done)
    requires Inv(g, start, NoLocks(answers), done, dist, weight, prev, tree, entries, |g|, 0)
    requires top in entries && forall e :: e in entries ==> top.priority <= e.priority
    requires |dist| == |g| && 0 <= top.value < |g| && IsTarget(g, end, top.value)
    ensures Reported(g, start, end, NoLocks(answers), dist, prev, tree, done, top.value)
  {
    hide Inv, Cached, WellFormed, NoLocks, EdgesFit, FitsKeys, Found, NoRoute, IsPath, Length, IsTarget;
    if dist[top.value] == INT32_MAX {
      NothingLeft(g, start, end, NoLocks(answers), done, dist, weight, prev, tree, entries, top);
    } else {
      PoppedFits(g, start, answers, done, dist, weight, prev, tree, entries, top);
      FoundTarget(g, start, end, NoLocks(answers), done, dist, weight, prev, tree, entries, top.value);
    }
  }

  /** What a round does with the first node of the heap; and one without edges is all that leaves it. */
  ghost predicate Popped(g: Graph, end: nat, outcome: Outcome, heap: seq<Heap.Node>, size: nat, dist: seq<int>,
                         heap': seq<Heap.Node>, size': nat, dist': seq<int>) {
    0 < size <= |heap| &&
    var v := heap[0].value;
    0 <= v < |g| == |dist| &&
    outcome == (if IsTarget(g, end, v) then Arrived(v) else if dist[v] == INT32_MAX then Stuck else Running) &&
    (outcome == Running && NbhdSize(g[v].kind) == 0 ==>
      dist' == dist && size' == size - 1 && heap' == Heap.AfterPop(heap, size))
  }

  lemma PoppedLast(g: Graph, end: nat, outcome: Outcome, heap: seq<Heap.Node>, size: nat, dist: seq<int>,
                   heap': seq<Heap.Node>, size': nat, dist': seq<int>, v: nat)
    requires 0 < size <= |heap| && v < |g| == |dist| && heap[0].value == v && outcome != Running
    requires outcome == if IsTarget(g, end, v) then Arrived(v) else if dist[v] == INT32_MAX then Stuck else Running
    ensures Popped(g, end, outcome, heap, size, dist, heap', size', dist')
  {
  }

  lemma PoppedMore(g: Graph, end: nat, heap: seq<Heap.Node>, size: nat, dist: seq<int>, heap': seq<Heap.Node>,
                   size': nat, dist': seq<int>, v: nat)
    requires 0 < size <= |heap| && v < |g| == |dist| && heap[0].value == v
    requires !IsTarget(g, end, v) && dist[v] != INT32_MAX
    requires NbhdSize(g[v].kind) == 0 ==> dist' == dist && size' == size - 1 && heap' == Heap.AfterPop(heap, size)
    ensures Popped(g, end, Running, heap, size, dist, heap', size', dist')
  {
  }

  /** The node that leaves the heap after a start without edges: the last one, or when this is the start itself, the
      one that came into its place. */
  function NextOut(n: nat, start: nat): nat
    requires start < n
  {
    if start == n - 1 then Heap.Parent(start) else n - 1
  }

  /** The search from a start without edges, after r rounds. */
  ghost predicate TwoRounds(g: Graph, start: nat, end: nat, r: nat, outcome: Outcome, heap: seq<Heap.Node>, size: nat,
                            dist: seq<int>)
    requires start < |g|
  {
    var next := NextOut(|g|, start);
    NbhdSize(g[start].kind) == 0 && !IsTarget(g, end, start) ==>
      if r < 2 then
        outcome == Running && 1 - r < size && size <= |heap| && next < |g| == |dist| && dist[start] == 0 &&
        dist[next] == INT32_MAX && heap[0].value == (if r == 0 then start else next) &&
        (r == 0 ==> Heap.AfterPop(heap, size)[0].value == next)
      else outcome == if IsTarget(g, end, next) then Arrived(next) else Stuck
  }

  lemma {:induction false} FirstRound(g: Graph, start: nat, end: nat, filled: seq<Heap.Node>, dist: seq<int>)
    requires start < |g| == |dist| <= |filled| && end < |g| && |g| <= 256
    requires forall v: nat :: v < |g| ==> dist[v] == if v == start then 0 else INT32_MAX
    requires forall j :: 0 <= j < |g| ==> filled[j] == Heap.Node(Key(dist[j]), j)
    ensures TwoRounds(g, start, end, 0, Running, Heap.Heapified(filled, |g|, 0), |g|, dist)
  {
    hide Heap.Heapified, Heap.AfterPop;
    if !IsTarget(g, end, start) { Heap.SecondOut(filled, |g|, start, Key(INT32_MAX)); }
  }

  lemma NextRound(g: Graph, start: nat, end: nat, r: nat, outcome: Outcome, heap: seq<Heap.Node>, size: nat,
                  dist: seq<int>, heap': seq<Heap.Node>, size': nat, dist': seq<int>)
    requires start < |g| && TwoRounds(g, start, end, r, Running, heap, size, dist)
    requires Popped(g, end, outcome, heap, size, dist, heap', size', dist')
    ensures outcome != Running || r == 0 || NbhdSize(g[start].kind) != 0 || IsTarget(g, end, start)
    ensures TwoRounds(g, start, end, r + 1, outcome, heap', size', dist')
  {
    hide Heap.AfterPop;
  }

  lemma TwoRoundsSuffice(g: Graph, start: nat, end: nat, r: nat, outcome: Outcome, heap: seq<Heap.Node>, size: nat,
                         dist: seq<int>)
    requires start < |g| && TwoRounds(g, start, end, r, outcome, heap, size, dist) && (outcome == Running ==> size == 0)
    ensures NbhdSize(g[start].kind) == 0 && !IsTarget(g, end, start) ==>
      outcome == if IsTarget(g, end, NextOut(|g|, start)) then Arrived(NextOut(|g|, start)) else Stuck
  {
    hide Heap.AfterPop;
  }

  /** How the search came to the target t, if it was reached: as the first target among the nodes at the end of an
      edge with the lowest price. */
  ghost predicate Chosen(g: Graph, answers: nat -> bool, start: nat, end: nat, order: seq<nat>, dist: seq<int>,
                         tree: map<nat, Path>, t: nat)
    requires WellFormed(g)
  {
    t < |g| == |dist| && (dist[t] != INT32_MAX ==>
      Greedy(g, answers, start, order, dist, tree) && order[|order| - 1] == t &&
      forall p :: 0 <= p < |order| - 1 ==> !IsTarget(g, end, order[p]))
  }

  lemma ChosenWhen(g: Graph, answers: nat -> bool, start: nat, end: nat, done: set<nat>, order: seq<nat>,
                   dist: seq<int>, weight: seq<int>, tree: map<nat, Path>, u: nat)
    requires WellFormed(g) && u < |g| == |dist| && NoTargetDone(g, end, done)
    requires Priced(g, answers, start, done, order, dist, weight, tree, |g|, 0)
    ensures dist[u] == INT32_MAX || Greedy(g, answers, start, order + [u], dist, tree) ==>
      Chosen(g, answers, start, end, if dist[u] == INT32_MAX then order else order + [u], dist, tree, u)
  {
    hide Greedy, IsTarget;
  }

  /** A reached node popped with a least key is one of least weight. */
  lemma TakesLeast(g: Graph, start: nat, plain: bool, done: set<nat>, dist: seq<int>, weight: seq<int>, prev: seq<int>,
                   tree: map<nat, Path>, entries: multiset<Heap.Node>, top: Heap.Node)
    requires WellFormed(g) && Inv(g, start, plain, done, dist, weight, prev, tree, entries, |g|, 0)
    requires top in entries && forall e :: e in entries ==> top.priority <= e.priority
    requires |dist| == |g| && 0 <= top.value < |g| && dist[top.value] != INT32_MAX
    ensures |weight| == |g| && top.value !in done && weight[top.value] != UNREACHED
    ensures forall y: nat :: y < |g| && y !in done ==> weight[top.value] <= weight[y]
  {
    hide Tree, Closed, Queued;
    PoppedIsLeast(g, start, plain, done, dist, weight, prev, tree, entries, top);
    forall y: nat | y < |g| && y !in done ensures weight[top.value] <= weight[y] {
      assert weight[y] == INT32_MAX || Key(weight[y]) == weight[y];
    }
  }

  /** Popping a target: how the search came to it. */
  lemma ChosenHere(g: Graph, start: nat, end: nat, answers: nat -> bool, done: set<nat>, order: seq<nat>,
                   dist: seq<int>, weight: seq<int>, prev: seq<int>, tree: map<nat, Path>,
                   entries: multiset<Heap.Node>, top: Heap.Node)
    requires WellFormed(g) && NoTargetDone(g, end, done)
    requires Inv(g, start, NoLocks(answers), done, dist, weight, prev, tree, entries, |g|, 0)
    requires Priced(g, answers, start, done, order, dist, weight, tree, |g|, 0)
    requires top in entries && forall e :: e in entries ==> top.priority <= e.priority
    requires |dist| == |g| && 0 <= top.value < |g|
    ensures Chosen(g, answers, start, end, if dist[top.value] == INT32_MAX then order else order + [top.value as nat],
                   dist, tree, top.value)
  {
    hide *;
    if dist[top.value] != INT32_MAX {
      TakesLeast(g, start, NoLocks(answers), done, dist, weight, prev, tree, entries, top);
      PricedPop(g, answers, start, done, order, dist, weight, tree, top.value);
    }
    ChosenWhen(g, answers, start, end, done, order, dist, weight, tree, top.value);
  }

  /** Popping another reached node: it is finished, and its edges can be looked at. */
  lemma OnWith(g: Graph, start: nat, answers: nat -> bool, done: set<nat>, order: seq<nat>, dist: seq<int>,
               weight: seq<int>, prev: seq<int>, tree: map<nat, Path>, entries: multiset<Heap.Node>, top: Heap.Node)
    requires WellFormed(g) && FitsKeys(g, start, answers)
    requires Inv(g, start, NoLocks(answers), done, dist, weight, prev, tree, entries, |g|, 0)
    requires Priced(g, answers, start, done, order, dist, weight, tree, |g|, 0)
    requires top in entries && forall e :: e in entries ==> top.priority <= e.priority
    requires |dist| == |g| && 0 <= top.value < |g| && dist[top.value] != INT32_MAX
    ensures EdgesFit(g, top.value, dist[top.value], answers)
    ensures Inv(g, start, NoLocks(answers), done + {top.value as nat}, dist, weight, prev, tree,
                entries - multiset{top}, top.value, 0)
    ensures Priced(g, answers, start, done + {top.value as nat}, order + [top.value as nat], dist, weight, tree,
                   top.value, 0)
  {
    hide *;
    PoppedFits(g, start, answers, done, dist, weight, prev, tree, entries, top);
    InvPop(g, start, NoLocks(answers), done, dist, weight, prev, tree, entries, top);
    TakesLeast(g, start, NoLocks(answers), done, dist, weight, prev, tree, entries, top);
    PricedPop(g, answers, start, done, order, dist, weight, tree, top.value);
  }

  /** One round of the main loop. */
  method Iterate(g: Graph, ghost start: nat, end: nat, answers: nat -> bool, pq: Heap.PriorityQueue, dist: array<int>,
                 weight: array<int>, prev: array<int>, cache: array<int>, asked: seq<nat>,
                 ghost done: set<nat>, ghost order: seq<nat>, ghost tree: map<nat, Path>)
    returns (outcome: Outcome, asked': seq<nat>, ghost done': set<nat>, ghost order': seq<nat>,
             ghost tree': map<nat, Path>)
    requires WellFormed(g) && end < |g| && pq.Valid() && pq.size > 0 && Cached(cache[..], answers, asked)
    requires FitsKeys(g, start, answers) && NoTargetDone(g, end, done)
    requires dist != weight && dist != prev && weight != prev && cache != dist && cache != weight && cache != prev
    requires dist.Length == weight.Length == prev.Length == |g| && cache.Length == N_SEGMENTS
    requires Inv(g, start, NoLocks(answers), done, dist[..], weight[..], prev[..], tree, pq.Entries(), |g|, 0)
    requires Priced(g, answers, start, done, order, dist[..], weight[..], tree, |g|, 0)
    modifies dist, weight, prev, cache, pq, pq.heap
    ensures pq.Valid() && Cached(cache[..], answers, asked')
    ensures outcome == Running ==> pq.size < old(pq.size) && NoTargetDone(g, end, done')
    ensures outcome == Running ==>
      Inv(g, start, NoLocks(answers), done', dist[..], weight[..], prev[..], tree', pq.Entries(), |g|, 0)
    ensures outcome == Running ==>
      Priced(g, answers, start, done', order', dist[..], weight[..], tree', |g|, 0)
    ensures outcome.Arrived? ==> Chosen(g, answers, start, end, order', dist[..], tree', outcome.node)
    ensures outcome.Arrived? ==>
      Reported(g, start, end, NoLocks(answers), dist[..], prev[..], tree', done', outcome.node)
    ensures outcome == Stuck ==> NoRoute(g, start, end) && SomeOtherUnreachable(g, start, end)
    ensures Popped(g, end, outcome, old(pq.heap[..]), old(pq.size), old(dist[..]), pq.heap[..], pq.size, dist[..])
  {
    hide Inv, Cached, WellFormed, Heap.Ordered, NoLocks, EdgesFit, FitsKeys, Found, NoRoute, IsPath, Length,
      Heap.AfterPop, Popped, Priced, Chosen, Greedy;
    ghost var entries := pq.Entries();
    ghost var top, heap0, size0, dist0 := pq.heap[0], pq.heap[..], pq.size, dist[..];
    asked', done', order', tree' := asked, done, order, tree;
    var popped := pq.PopMin();
    PoppedIsLeast(g, start, NoLocks(answers), done, dist[..], weight[..], prev[..], tree, entries, top);
    var node: nat := popped.get;
    NodeFacts(g, node, 0);
    if node == end || g[node].reverse == end {
      StopHere(g, start, end, answers, done, dist[..], weight[..], prev[..], tree, entries, top);
      order' := if dist[node] == INT32_MAX then order else order + [node];
      ChosenHere(g, start, end, answers, done, order, dist[..], weight[..], prev[..], tree, entries, top);
      PoppedLast(g, end, Arrived(node), heap0, size0, dist0, pq.heap[..], pq.size, dist[..], node);
      return Arrived(node), asked', done', order', tree';
    }
    if dist[node] == INT32_MAX {
      NothingLeft(g, start, end, NoLocks(answers), done, dist[..], weight[..], prev[..], tree, entries, top);
      PoppedLast(g, end, Stuck, heap0, size0, dist0, pq.heap[..], pq.size, dist[..], node);
      return Stuck, asked', done', order', tree';
    }
    OnWith(g, start, answers, done, order, dist[..], weight[..], prev[..], tree, entries, top);
    done', order' := done + {node}, order + [node];
    asked', tree' := Expand(g, start, answers, pq, dist, weight, prev, cache, asked, node, done', order', tree);
    outcome := Running;
    PoppedMore(g, end, heap0, size0, dist0, pq.heap[..], pq.size, dist[..], node);
  }

  lemma CacheStarts(cache: seq<int>, answers: nat -> bool)
    requires |cache| == N_SEGMENTS && forall c :: 0 <= c < N_SEGMENTS ==> cache[c] == CACHE_NONE
    ensures Cached(cache, answers, [])
  {
  }

  /** What the main loop starts from. */
  method Begin(g: Graph, start: nat, ghost end: nat, ghost answers: nat -> bool)
    returns (dist: array<int>, weight: array<int>, prev: array<int>, cache: array<int>, pq: Heap.PriorityQueue)
    requires WellFormed(g) && start < |g| && end < |g|
    ensures fresh(dist) && fresh(weight) && fresh(prev) && fresh(cache) && fresh(pq) && fresh(pq.heap)
    ensures dist != weight && dist != prev && weight != prev && cache != dist && cache != weight && cache != prev
    ensures dist.Length == weight.Length == prev.Length == |g| && cache.Length == N_SEGMENTS
    ensures pq.Valid() && Cached(cache[..], answers, [])
    ensures Inv(g, start, NoLocks(answers), {}, dist[..], weight[..], prev[..], map[start := Path([start], [])],
                pq.Entries(), |g|, 0)
    ensures Priced(g, answers, start, {}, [], dist[..], weight[..], map[start := Path([start], [])], |g|, 0)
    ensures TwoRounds(g, start, end, 0, Running, pq.heap[..], pq.size, dist[..])
  {
    hide Inv, Cached, WellFormed, Heap.Ordered, NoLocks, IsTarget, Queued, Heap.AfterPop, Heap.Heapified, TwoRounds,
      Priced;
    NodeFacts(g, start, 0);
    dist := new int[|g|](_ => INT32_MAX);
    weight := new int[|g|](_ => INT32_MAX);
    prev := new int[|g|](_ => NONE);
    dist[start] := 0;
    weight[start] := 0;
    cache := new int[N_SEGMENTS](_ => CACHE_NONE);
    CacheStarts(cache[..], answers);
    ghost var filled;
    pq, filled := FillHeap(weight);
    assert weight[..] == dist[..];
    FirstRound(g, start, end, filled, dist[..]);
    InvStart(g, start, NoLocks(answers), dist[..], weight[..], prev[..], pq.Entries());
    PricedStart(g, answers, start, dist[..], weight[..], map[start := Path([start], [])]);
  }

  /** The result: the node the search stopped at (NONE for ERR_NO_ROUTE), the arrays it leaves behind, and the
      segments the lock server was asked about. */
  method Search(g: Graph, start: nat, end: nat, answers: nat -> bool)
    returns (stop: int, dist: array<int>, prev: array<int>, asked: seq<nat>,
             ghost done: set<nat>, ghost order: seq<nat>, ghost tree: map<nat, Path>)
    requires WellFormed(g) && start < |g| && end < |g| && FitsKeys(g, start, answers)
    ensures fresh(dist) && fresh(prev) && dist != prev
    ensures stop == NONE || 0 <= stop
    ensures stop == NONE ==> NoRoute(g, start, end) && SomeOtherUnreachable(g, start, end)
    ensures stop != NONE ==> Reported(g, start, end, NoLocks(answers), dist[..], prev[..], tree, done, stop)
    ensures dist.Length == |g| && (stop != NONE ==> Chosen(g, answers, start, end, order, dist[..], tree, stop))
    ensures forall j, k :: 0 <= j < k < |asked| ==> asked[j] != asked[k]
    ensures NbhdSize(g[start].kind) == 0 && !IsTarget(g, end, start) ==>
      stop == if IsTarget(g, end, NextOut(|g|, start)) then NextOut(|g|, start) else NONE
  {
    hide Inv, Cached, WellFormed, Heap.Ordered, NoLocks, EdgesFit, FitsKeys, Reported, NoRoute, IsTarget, Queued;
    hide SomeOtherUnreachable, Heap.AfterPop, Heap.Heapified, TwoRounds, Popped, NextOut, Priced, Chosen;
    var weight, cache, pq;
    dist, weight, prev, cache, pq := Begin(g, start, end, answers);
    asked := [];
    done, order, tree := {}, [], map[start := Path([start], [])];
    ghost var r: nat := 0;
    var outcome := Running;
    while !pq.Empty() && outcome == Running
      invariant fresh(pq) && fresh(pq.heap) && pq.Valid() && Cached(cache[..], answers, asked)
      invariant outcome == Running ==> NoTargetDone(g, end, done)
      invariant outcome == Running ==>
        Inv(g, start, NoLocks(answers), done, dist[..], weight[..], prev[..], tree, pq.Entries(), |g|, 0)
      invariant outcome.Arrived? ==>
        Reported(g, start, end, NoLocks(answers), dist[..], prev[..], tree, done, outcome.node)
      invariant outcome == Stuck ==> NoRoute(g, start, end) && SomeOtherUnreachable(g, start, end)
      invariant outcome == Running ==>
        Priced(g, answers, start, done, order, dist[..], weight[..], tree, |g|, 0)
      invariant outcome.Arrived? ==> Chosen(g, answers, start, end, order, dist[..], tree, outcome.node)
      invariant TwoRounds(g, start, end, r, outcome, pq.heap[..], pq.size, dist[..])
      decreases if outcome == Running then 1 else 0, pq.size
    {
      ghost var heap0, size0, dist0 := pq.heap[..], pq.size, dist[..];
      outcome, asked, done, order, tree :=
        Iterate(g, start, end, answers, pq, dist, weight, prev, cache, asked, done, order, tree);
      NextRound(g, start, end, r, outcome, heap0, size0, dist0, pq.heap[..], pq.size, dist[..]);
      r := r + 1;
    }
    TwoRoundsSuffice(g, start, end, r, outcome, pq.heap[..], pq.size, dist[..]);
    if outcome == Running {
      EndIsWaiting(g, start, end, NoLocks(answers), done, dist[..], weight[..], prev[..], tree, pq.Entries());
    }
    CachedDistinct(cache[..], answers, asked);
    stop := if outcome.Arrived? then outcome.node else NONE;
  }

  lemma CachedDistinct(cache: seq<int>, answers: nat -> bool, asked: seq<nat>)
    requires Cached(cache, answers, asked)
    ensures forall j, k :: 0 <= j < k < |asked| ==> asked[j] != asked[k]
  {
  }

  /** Two nodes without edges: the search for node 1 from node 0 pops node 1 next and reports it. */
  method MissingRouteGoesUnreported() returns (g: Graph, stop: int)
    ensures WellFormed(g) && |g| == 2 && NoRoute(g, 0, 1) && stop == 1
  {
    var nowhere := Edge(0, 0);
    g := [TrackNode(Exit, 0, 0, [nowhere, nowhere], 0), TrackNode(Exit, 1, 1, [nowhere, nowhere], 0)];
    assert WellFormedNode(g, 0) && WellFormedNode(g, 1);
    forall q: Path | IsPathFrom(g, q, 0) ensures Last(q) == 0 {
      assert |q.dirs| > 0 ==> Leads(g, q.nodes[0], q.dirs[0], q.nodes[1]);
    }
    var q0 := Path([0], []);
    assert IsPathFrom(g, q0, 0) && Last(q0) == 0;
    var dist, prev, asked;
    ghost var done, order, tree;
    stop, dist, prev, asked, done, order, tree := Search(g, 0, 1, _ => false);
  }
}
