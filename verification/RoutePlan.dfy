/** From the search tree to the actions of one segment (track-control/src/routing.c:237-312, 467-491, 543-567):
    walking prev backwards, cutting the path at a segment change, and throwing the switches. */
module RoutePlan {
  import opened Track
  import opened RingBuffer
  import opened ActionQueue
  import RouteSearch

  const STRT := 33
  const CRV := 34
  const BR_NODE := -1
  const SW_ANCHOR := -2
  const MM_TO_UM := 1000
  const BRANCH_CAPACITY := 128

  /** Sensors are numbered by their index, and the numbers of branches tell them apart and fit a byte. */
  ghost predicate Numbered(g: Graph) {
    (forall v: nat :: v < |g| && g[v].kind == Sensor ==> g[v].num == v) &&
    (forall v: nat :: v < |g| && g[v].kind == Branch ==> 0 <= g[v].num < 256) &&
    (forall v: nat, w: nat :: v < |g| && w < |g| && g[v].kind == Branch && g[w].kind == Branch && g[v].num == g[w].num
      ==> v == w)
  }

  ghost predicate Nodes(g: Graph, q: seq<nat>) {
    forall k :: 0 <= k < |q| ==> q[k] < |g| && |g[q[k]].edge| == 2
  }

  /** The direction stored for branch v when the path goes on with rest. */
  function BranchDir(g: Graph, v: nat, rest: seq<nat>): nat
    requires v < |g| && |g[v].edge| == 2
  {
    if rest != [] && g[v].edge[DIR_CURVED].dest == rest[0] then DIR_CURVED else DIR_STRAIGHT
  }

  /** What backtracking leaves on the branch stack for node v. */
  function Mark(g: Graph, v: nat, rest: seq<nat>): seq<int>
    requires v < |g| && |g[v].edge| == 2
  {
    match g[v].kind
    case Branch => [BranchDir(g, v, rest), v, BR_NODE]
    case Sensor => [v, SW_ANCHOR]
    case _ => []
  }

  /** The whole stack for the nodes q in path order: the first node ends up on top. */
  ghost function Marks(g: Graph, q: seq<nat>): seq<int>
    requires Nodes(g, q)
  {
    if q == [] then [] else Marks(g, q[1..]) + Mark(g, q[0], q[1..])
  }

  function SwitchAction(num: nat, dir: nat): Action {
    Action(SENSOR_NONE, SWITCH, num + 256 * (if dir == DIR_CURVED then CRV else STRT), 0)
  }

  /** The switch actions of the first i nodes of the path q, in path order. */
  ghost function SwitchesTo(g: Graph, q: seq<nat>, i: nat): seq<Action>
    requires Nodes(g, q) && i <= |q|
  {
    if i == 0 then [] else SwitchesTo(g, q, i - 1) + SwitchOf(g, q, i - 1)
  }

  ghost function SwitchOf(g: Graph, q: seq<nat>, j: nat): seq<Action>
    requires Nodes(g, q) && j < |q|
  {
    if g[q[j]].kind == Branch && g[q[j]].num >= 0
    then [SwitchAction(g[q[j]].num, BranchDir(g, q[j], q[j + 1..]))] else []
  }

  ghost function Rev(s: seq<Action>): seq<Action> {
    if s == [] then [] else Rev(s[1..]) + [s[0]]
  }

  /** The sensors of a path, in order. */
  ghost function Sensors(g: Graph, q: seq<nat>): seq<nat>
    requires Nodes(g, q)
  {
    if q == [] then []
    else (if g[q[0]].kind == Sensor then [q[0]] else []) + Sensors(g, q[1..])
  }

  /** The action of one sensor: its distance to the next one, or 0 for the last. */
  ghost function SensorAction(s: nat, rest: seq<nat>, dist: seq<int>): Action {
    Action(s, SENSOR, 0, if rest == [] then 0 else At(dist, rest[0]) - At(dist, s))
  }

  ghost function At(dist: seq<int>, v: nat): int {
    if v < |dist| then dist[v] else 0
  }

  ghost function SensorActions(s: seq<nat>, dist: seq<int>): seq<Action> {
    if s == [] then [] else [SensorAction(s[0], s[1..], dist)] + SensorActions(s[1..], dist)
  }

  // ----- small facts about these lists -----

  lemma HeadFirst(v: nat, rest: seq<nat>)
    ensures ([v] + rest)[0] == v && ([v] + rest)[1..] == rest && [v] + rest != []
  {
  }

  lemma MarksCons(g: Graph, v: nat, rest: seq<nat>)
    requires Nodes(g, [v] + rest)
    ensures v < |g| && |g[v].edge| == 2 && Nodes(g, rest)
    ensures Marks(g, [v] + rest) == Marks(g, rest) + Mark(g, v, rest)
    ensures g[v].kind == Sensor ==> Sensors(g, [v] + rest) == [v] + Sensors(g, rest)
    ensures g[v].kind != Sensor ==> Sensors(g, [v] + rest) == Sensors(g, rest)
  {
    var q := [v] + rest;
    HeadFirst(v, rest);
    assert q[0] < |g|;
    assert forall k :: 0 <= k < |rest| ==> rest[k] == q[k + 1];
  }

  lemma {:induction false} MarksGrow(g: Graph, q: seq<nat>, k: nat)
    requires Nodes(g, q) && k <= |q|
    ensures Nodes(g, q[k..]) && |Marks(g, q[k..])| <= |Marks(g, q)| && |Sensors(g, q[k..])| <= |q| - k
    decreases |q| - k
  {
    if k < |q| {
      MarksGrow(g, q, k + 1);
      assert q[k..] == [q[k]] + q[k + 1..];
      MarksCons(g, q[k], q[k + 1..]);
    }
    MarksShrink(g, q, k);
  }

  lemma {:induction false} MarksShrink(g: Graph, q: seq<nat>, k: nat)
    requires Nodes(g, q) && k <= |q|
    ensures Nodes(g, q[k..]) && |Marks(g, q[k..])| <= |Marks(g, q)|
  {
    if k > 0 {
      MarksShrink(g, q, k - 1);
      assert q[k - 1..] == [q[k - 1]] + q[k..];
      MarksCons(g, q[k - 1], q[k..]);
    } else {
      assert q[0..] == q;
    }
  }

  // ----- walking back -----

  /** Pushes what node leaves on the branch stack; next is the node after it on the path. */
  method PushMark(g: Graph, branches: Deque, node: nat, next: int, ghost rest: seq<nat>)
    requires node < |g| && |g[node].edge| == 2 && branches.Valid()
    requires next == if rest == [] then RouteSearch.NONE else rest[0]
    requires branches.size + |Mark(g, node, rest)| <= branches.maxSize
    modifies branches, branches.buf
    ensures branches.Valid() && branches.maxSize == old(branches.maxSize)
    ensures branches.Contents() == old(branches.Contents()) + Mark(g, node, rest)
  {
    hide Deque.Contents;
    ghost var before := branches.Contents();
    if g[node].kind == Branch {
      var branchDir := DIR_STRAIGHT;
      if next != RouteSearch.NONE {
        branchDir := if g[node].edge[DIR_CURVED].dest == next then DIR_CURVED else DIR_STRAIGHT;
      }
      branches.PushBack(branchDir);
      branches.PushBack(node);
      branches.PushBack(BR_NODE);
      assert branches.Contents() == before + [branchDir, node, BR_NODE];
    } else if g[node].kind == Sensor {
      branches.PushBack(node);
      branches.PushBack(SW_ANCHOR);
      assert branches.Contents() == before + [node, SW_ANCHOR];
    }
  }

  /** DIST_TRAVELLED, in micrometres, divided back into millimetres. */
  function Gap(d: int): int {
    d * MM_TO_UM / MM_TO_UM
  }

  lemma GapIs(d: int)
    ensures Gap(d) == d
  {
  }

  /** Prepends the action of a sensor; nextSensor is the sensor after it on the path. */
  method PushSensor(g: Graph, dist: array<int>, sensorPath: RoutingActionQueue, node: nat, nextSensor: int,
                    ghost sensors: seq<nat>)
    requires node < |g| == dist.Length && |g| <= 256 && g[node].num == node && sensorPath.Valid()
    requires nextSensor == if sensors == [] then RouteSearch.NONE else sensors[0]
    requires sensors != [] ==> sensors[0] < |g|
    requires sensorPath.actions == SensorActions(sensors, dist[..]) && |sensors| < MAX_RECORDS
    modifies sensorPath`actions, sensorPath.q, sensorPath.q.buf
    ensures sensorPath.Valid() && sensorPath.actions == SensorActions([node] + sensors, dist[..])
  {
    hide RoutingActionQueue.Valid, SensorActions, Gap;
    BufferSize(sensorPath);
    SensorActionsSized(sensors, dist[..]);
    var gap := 0;
    if nextSensor != RouteSearch.NONE {
      GapIs(dist[nextSensor] - dist[node]);
      gap := Gap(dist[nextSensor] - dist[node]);
    }
    var action := Action(g[node].num, SENSOR, 0, gap);
    SensorActionsCons(node, sensors, dist[..]);
    sensorPath.PushFront(action);
  }

  lemma BufferSize(q: RoutingActionQueue)
    requires q.Valid()
    ensures q.q.buf.Length > 256
  {
    hide EncodeAll, Deque.Contents;
  }

  lemma SensorActionsCons(s: nat, rest: seq<nat>, dist: seq<int>)
    ensures SensorActions([s] + rest, dist) == [SensorAction(s, rest, dist)] + SensorActions(rest, dist)
  {
    HeadFirst(s, rest);
  }

  lemma {:induction false} SensorActionsSized(s: seq<nat>, dist: seq<int>)
    ensures |SensorActions(s, dist)| == |s|
  {
    if s != [] { SensorActionsSized(s[1..], dist); }
  }

  /** Distinct node numbers below n are at most n many. */
  lemma {:induction false} DistinctShort(q: seq<nat>, n: nat)
    requires forall j, k :: 0 <= j < k < |q| ==> q[j] != q[k]
    requires forall k :: 0 <= k < |q| ==> q[k] < n
    ensures |q| <= n
  {
    if q == [] {
      return;
    }
    var first := q[0];
    if n - 1 in q {
      var k :| 0 <= k < |q| && q[k] == n - 1;
      var r := q[..k] + q[k + 1..];
      assert forall i :: 0 <= i < |r| ==> r[i] == if i < k then q[i] else q[i + 1];
      DistinctShort(r, n - 1);
    } else {
      assert forall k :: 0 <= k < |q| ==> q[k] in q;
      DistinctShort(q, n - 1);
    }
  }

  /** prev leads back along the path of the tree: the node before position k is the k-prefix's own predecessor. */
  lemma StepBack(g: Graph, start: nat, done: set<nat>, dist: seq<int>, prev: seq<int>, tree: map<nat, Path>,
                 p: seq<nat>, k: nat)
    requires WellFormed(g) && RouteSearch.Tree(g, start, done, dist, prev, tree)
    requires 1 <= k <= |p| && p[k - 1] in tree && tree[p[k - 1]].nodes == p[..k]
    ensures p[k - 1] < |g| == |prev| == |dist|
    ensures k == 1 ==> p[0] == start && prev[p[0]] == RouteSearch.NONE
    ensures k > 1 ==> prev[p[k - 1]] == p[k - 2] && p[k - 2] in tree && tree[p[k - 2]].nodes == p[..k - 1]
    ensures p[k - 1] == start ==> k == 1
  {
    hide RouteSearch.Tree, RouteSearch.Rooted, WellFormed, RouteSearch.Linked;
    var v := p[k - 1];
    RouteSearch.TreeAt(g, start, done, dist, prev, tree, v);
    StartIsAlone(start, v, prev[v], tree);
    RouteSearch.RootedEnds(g, start, done, v, dist[v], tree[v]);
    FirstIsStart(g, start, done, v, dist[v], tree[v]);
    if v != start {
      RouteSearch.LinkIsDone(g, start, done, dist, prev, tree, v);
      var u: nat := prev[v];
      assert p[..k] == tree[u].nodes + [v];
      assert p[..k][..k - 1] == p[..k - 1] == tree[u].nodes;
      RouteSearch.TreeAt(g, start, done, dist, prev, tree, u);
      RouteSearch.RootedEnds(g, start, done, u, dist[u], tree[u]);
      assert p[..k - 1][k - 2] == p[k - 2];
    }
  }

  lemma StartIsAlone(start: nat, v: nat, prev: int, tree: map<nat, Path>)
    requires v in tree && RouteSearch.Linked(start, v, prev, tree)
    ensures v == start ==> tree[v].nodes == [start] && prev == RouteSearch.NONE
  {
  }

  lemma FirstIsStart(g: Graph, start: nat, done: set<nat>, v: nat, d: int, p: Path)
    requires WellFormed(g) && RouteSearch.Rooted(g, start, done, v, d, p)
    ensures p.nodes != [] && p.nodes[0] == start
    ensures forall k :: 0 <= k < |p.nodes| ==> p.nodes[k] < |g|
    ensures |p.nodes| <= |g|
  {
    DistinctShort(p.nodes, |g|);
  }

  lemma NodesOfPath(g: Graph, q: seq<nat>)
    requires WellFormed(g) && forall k :: 0 <= k < |q| ==> q[k] < |g|
    ensures Nodes(g, q)
  {
    forall k | 0 <= k < |q| ensures |g[q[k]].edge| == 2 { assert WellFormedNode(g, q[k]); }
  }

  lemma {:induction false} SensorsAreSensors(g: Graph, q: seq<nat>)
    requires Nodes(g, q)
    ensures forall s :: s in Sensors(g, q) ==> s < |g| && g[s].kind == Sensor && s in q
    ensures |Sensors(g, q)| <= |q|
  {
    if q != [] {
      assert q[0] in q;
      SensorsAreSensors(g, q[1..]);
    }
  }

  /** One round of the backward walk. */
  method PassNode(g: Graph, dist: array<int>, branches: Deque, sensorPath: RoutingActionQueue, node: nat, next: int,
                  nextSensor: int, ghost rest: seq<nat>)
    returns (nextSensor': int)
    requires Numbered(g) && dist.Length == |g| <= 256 && Nodes(g, [node] + rest) && Nodes(g, rest) && |rest| < 256
    requires branches.Valid() && sensorPath.Valid() && branches !in sensorPath.Repr && branches.buf !in sensorPath.Repr
    requires next == if rest == [] then RouteSearch.NONE else rest[0]
    requires nextSensor == if Sensors(g, rest) == [] then RouteSearch.NONE else Sensors(g, rest)[0]
    requires branches.Contents() == Marks(g, rest) && |Marks(g, [node] + rest)| <= branches.maxSize
    requires sensorPath.actions == SensorActions(Sensors(g, rest), dist[..])
    requires dist !in sensorPath.Repr && dist != branches.buf
    modifies branches, branches.buf, sensorPath`actions, sensorPath.q, sensorPath.q.buf
    ensures branches.Valid() && sensorPath.Valid() && branches.maxSize == old(branches.maxSize)
    ensures branches.Contents() == Marks(g, [node] + rest)
    ensures sensorPath.actions == SensorActions(Sensors(g, [node] + rest), dist[..])
    ensures nextSensor' == if Sensors(g, [node] + rest) == [] then RouteSearch.NONE else Sensors(g, [node] + rest)[0]
  {
    hide Deque.Contents, Deque.Valid, RoutingActionQueue.Valid, Marks, SensorActions, Mark, Numbered, Nodes, Sensors;
    ghost var d := dist[..];
    MarksCons(g, node, rest);
    NumberOf(g, node);
    SensorsAreSensors(g, rest);
    if Sensors(g, rest) != [] { assert Sensors(g, rest)[0] in Sensors(g, rest); }
    PushMark(g, branches, node, next, rest);
    nextSensor' := nextSensor;
    assert dist[..] == d;
    if g[node].kind == Sensor {
      PushSensor(g, dist, sensorPath, node, nextSensor, Sensors(g, rest));
      nextSensor' := node;
      assert dist[..] == d;
    }
  }

  lemma NumberOf(g: Graph, v: nat)
    requires Numbered(g) && v < |g|
    ensures g[v].kind == Sensor ==> g[v].num == v
    ensures g[v].kind == Branch ==> 0 <= g[v].num < 256
  {
  }

  /** The nodes the backward walk covers: the path of the tree, without the start when end says so. */
  ghost function Covered(p: seq<nat>, end: int): seq<nat> {
    if end == RouteSearch.NONE || p == [] then p else p[1..]
  }

  /** prev leads back through exactly the nodes p, from the last one, and then to NONE. */
  ghost predicate LeadsBack(prev: seq<int>, p: seq<nat>) {
    0 < |p| <= 256 && (forall k :: 0 <= k < |p| ==> p[k] < |prev|) && prev[p[0]] == RouteSearch.NONE &&
    (forall k :: 1 <= k < |p| ==> prev[p[k]] == p[k - 1]) && (forall k :: 1 <= k < |p| ==> p[k] != p[0])
  }

  /** Walks prev back from stop until end (NONE, or the start node when it is left out).  From an end that was not
      reached the walk does not come by the start: the program then goes on at NULL, here it fails. */
  method Backtrack(g: Graph, dist: array<int>, prev: array<int>, stop: nat, end: int, ghost p: seq<nat>)
    returns (ok: bool, branches: Deque, sensorPath: RoutingActionQueue)
    requires Numbered(g) && dist.Length == |g| == prev.Length <= 256 && Nodes(g, p) && LeadsBack(prev[..], p)
    requires p[|p| - 1] == stop && (end == RouteSearch.NONE || forall k :: 1 <= k < |p| ==> p[k] != end)
    requires |Marks(g, p)| <= BRANCH_CAPACITY
    ensures fresh(branches) && fresh(branches.buf) && fresh(sensorPath.Repr)
    ensures branches !in sensorPath.Repr && branches.buf !in sensorPath.Repr
    ensures ok <==> end == RouteSearch.NONE || end == p[0]
    ensures Nodes(g, Covered(p, end)) && branches.Valid() && sensorPath.Valid()
    ensures ok ==> branches.Contents() == Marks(g, Covered(p, end))
    ensures ok ==> sensorPath.actions == SensorActions(Sensors(g, Covered(p, end)), dist[..])
  {
    hide Deque.Contents, RoutingActionQueue.Valid, Marks, SensorActions, Mark, Numbered, Nodes, Sensors, LeadsBack,
      Covered;
    BackIsFinite(prev[..], p);
    CoveredIs(g, p, end);
    branches, sensorPath := EmptyStacks(g, dist[..]);
    var node: int := stop;
    var next, nextSensor := RouteSearch.NONE, RouteSearch.NONE;
    ghost var k, d := |p|, dist[..];
    assert p[k..] == [];
    while node != end
      invariant 0 <= k <= |p| && Nodes(g, p[k..]) && dist[..] == d
      invariant fresh(branches) && fresh(branches.buf) && fresh(sensorPath.Repr) && branches !in sensorPath.Repr
      invariant branches.buf !in sensorPath.Repr && branches.Valid() && sensorPath.Valid() && branches.maxSize == 128
      invariant branches.Contents() == Marks(g, p[k..])
      invariant sensorPath.actions == SensorActions(Sensors(g, p[k..]), d)
      invariant next == if p[k..] == [] then RouteSearch.NONE else p[k..][0]
      invariant nextSensor == if Sensors(g, p[k..]) == [] then RouteSearch.NONE else Sensors(g, p[k..])[0]
      invariant node == if k > 0 then p[k - 1] else RouteSearch.NONE
      invariant k == 0 ==> end == RouteSearch.NONE || end != p[0]
      decreases k
    {
      if node == RouteSearch.NONE { return false, branches, sensorPath; }
      BackFrom(prev[..], p, k);
      nextSensor := BackOne(g, dist, branches, sensorPath, node, next, nextSensor, p, k);
      next := node;
      node := prev[next];
      k := k - 1;
    }
    assert p[k..] == Covered(p, end);
    return true, branches, sensorPath;
  }

  /** One round, at the node of the path before position k. */
  method BackOne(g: Graph, dist: array<int>, branches: Deque, sensorPath: RoutingActionQueue, node: nat, next: int,
                 nextSensor: int, ghost p: seq<nat>, ghost k: nat)
    returns (nextSensor': int)
    requires Numbered(g) && dist.Length == |g| <= 256 && 1 <= k <= |p| <= 256 && node == p[k - 1] && Nodes(g, p)
    requires branches.Valid() && sensorPath.Valid() && branches !in sensorPath.Repr && branches.buf !in sensorPath.Repr
    requires Nodes(g, p[k..]) && next == if p[k..] == [] then RouteSearch.NONE else p[k..][0]
    requires nextSensor == if Sensors(g, p[k..]) == [] then RouteSearch.NONE else Sensors(g, p[k..])[0]
    requires branches.Contents() == Marks(g, p[k..]) && |Marks(g, p)| <= branches.maxSize
    requires sensorPath.actions == SensorActions(Sensors(g, p[k..]), dist[..])
    requires dist !in sensorPath.Repr && dist != branches.buf
    modifies branches, branches.buf, sensorPath`actions, sensorPath.q, sensorPath.q.buf
    ensures branches.Valid() && sensorPath.Valid() && branches.maxSize == old(branches.maxSize)
    ensures Nodes(g, p[k - 1..]) && p[k - 1..] != [] && p[k - 1..][0] == node
    ensures branches.Contents() == Marks(g, p[k - 1..])
    ensures sensorPath.actions == SensorActions(Sensors(g, p[k - 1..]), dist[..])
    ensures nextSensor' == if Sensors(g, p[k - 1..]) == [] then RouteSearch.NONE else Sensors(g, p[k - 1..])[0]
  {
    hide Deque.Contents, Deque.Valid, RoutingActionQueue.Valid, Marks, SensorActions, Mark, Numbered, Nodes, Sensors;
    SliceBack(p, k);
    MarksGrow(g, p, k - 1);
    nextSensor' := PassNode(g, dist, branches, sensorPath, node, next, nextSensor, p[k..]);
  }

  lemma SliceBack(p: seq<nat>, k: nat)
    requires 1 <= k <= |p|
    ensures p[k - 1..] == [p[k - 1]] + p[k..] && p[k - 1..] != [] && p[k - 1..][0] == p[k - 1] && |p[k..]| < |p|
  {
  }

  lemma BackFrom(prev: seq<int>, p: seq<nat>, k: nat)
    requires LeadsBack(prev, p) && 1 <= k <= |p|
    ensures p[k - 1] < |prev| && prev[p[k - 1]] == if k > 1 then p[k - 2] else RouteSearch.NONE
    ensures |p| <= 256
  {
  }

  lemma BackIsFinite(prev: seq<int>, p: seq<nat>)
    requires LeadsBack(prev, p)
    ensures 0 < |p| <= 256
  {
  }

  lemma CoveredIs(g: Graph, p: seq<nat>, end: int)
    requires p != [] && Nodes(g, p)
    ensures Covered(p, end) == if end == RouteSearch.NONE then p[0..] else p[1..]
    ensures Nodes(g, Covered(p, end))
  {
    assert p[0..] == p;
  }

  /** The stack of branches and the queue of sensors, empty. */
  method EmptyStacks(g: Graph, ghost dist: seq<int>) returns (branches: Deque, sensorPath: RoutingActionQueue)
    ensures fresh(branches) && fresh(branches.buf) && fresh(sensorPath.Repr)
    ensures branches !in sensorPath.Repr && branches.buf !in sensorPath.Repr
    ensures branches.Valid() && sensorPath.Valid() && branches.maxSize == 128 && Nodes(g, []) && Sensors(g, []) == []
    ensures branches.Contents() == Marks(g, []) && sensorPath.actions == SensorActions(Sensors(g, []), dist)
  {
    hide Marks, SensorActions, Sensors;
    EmptyLists(g, dist);
    branches := new Deque();
    var status := branches.Init(7);
    Pow2Of7();
    sensorPath := new RoutingActionQueue();
  }

  /** The tree's paths are what prev leads back through. */
  lemma TreeLeadsBack(g: Graph, start: nat, done: set<nat>, dist: seq<int>, prev: seq<int>, tree: map<nat, Path>,
                      stop: nat)
    requires WellFormed(g) && RouteSearch.Tree(g, start, done, dist, prev, tree) && stop in tree
    ensures |dist| == |prev| == |g| <= 256 && LeadsBack(prev, tree[stop].nodes)
    ensures var p := tree[stop].nodes; p[|p| - 1] == stop && p[0] == start
  {
    hide RouteSearch.Tree, WellFormed;
    var p := tree[stop].nodes;
    BacktrackStarts(g, start, done, dist, prev, tree, stop);
    TreeWalk(g, start, done, dist, prev, tree, p, |p|);
  }

  lemma {:induction false} TreeWalk(g: Graph, start: nat, done: set<nat>, dist: seq<int>, prev: seq<int>,
                                    tree: map<nat, Path>, p: seq<nat>, k: nat)
    requires WellFormed(g) && RouteSearch.Tree(g, start, done, dist, prev, tree)
    requires 1 <= k <= |p| && p[k - 1] in tree && tree[p[k - 1]].nodes == p[..k] && p[0] == start
    ensures forall j :: 0 <= j < k ==> p[j] < |g| == |prev|
    ensures prev[p[0]] == RouteSearch.NONE && forall j :: 1 <= j < k ==> prev[p[j]] == p[j - 1] && p[j] != p[0]
    decreases k
  {
    hide RouteSearch.Tree, WellFormed;
    StepBack(g, start, done, dist, prev, tree, p, k);
    if k > 1 { TreeWalk(g, start, done, dist, prev, tree, p, k - 1); }
  }

  lemma BacktrackStarts(g: Graph, start: nat, done: set<nat>, dist: seq<int>, prev: seq<int>, tree: map<nat, Path>,
                        stop: nat)
    requires WellFormed(g) && RouteSearch.Tree(g, start, done, dist, prev, tree) && stop in tree
    ensures |dist| == |prev| == |g| <= 256
    ensures var p := tree[stop].nodes; 0 < |p| <= 256 && p[|p| - 1] == stop && p[..|p|] == p && p[0] == start
  {
    hide RouteSearch.Tree, RouteSearch.Rooted, IsPath, Simple;
    AtMost256(g);
    hide WellFormed;
    RouteSearch.TreeAt(g, start, done, dist, prev, tree, stop);
    FirstIsStart(g, start, done, stop, dist[stop], tree[stop]);
    RouteSearch.RootedEnds(g, start, done, stop, dist[stop], tree[stop]);
  }

  lemma AtMost256(g: Graph)
    requires WellFormed(g)
    ensures |g| <= 256
  {
  }

  lemma Pow2Of7()
    ensures Pow2(7) == 128
  {
    assert Pow2(4) == 16;
  }

  lemma EmptyLists(g: Graph, dist: seq<int>)
    ensures Nodes(g, []) && Marks(g, []) == [] && Sensors(g, []) == [] && SensorActions([], dist) == []
  {
  }

  // ----- throwing the switches up to a sensor -----

  lemma {:induction false} RevAppend(s: seq<Action>, a: Action)
    ensures Rev(s + [a]) == [a] + Rev(s)
  {
    if s == [] {
      assert [] + [a] == [a];
      assert [a][1..] == [];
    } else {
      RevAppend(s[1..], a);
      assert (s + [a])[1..] == s[1..] + [a] && (s + [a])[0] == s[0];
    }
  }

  lemma {:induction false} SwitchesToGrow(g: Graph, q: seq<nat>, i: nat, j: nat)
    requires Nodes(g, q) && i <= j <= |q|
    ensures |SwitchesTo(g, q, i)| <= |SwitchesTo(g, q, j)|
    decreases j
  {
    if i < j { SwitchesToGrow(g, q, i, j - 1); }
  }

  ghost predicate Marked(g: Graph, v: nat) {
    v < |g| && (g[v].kind == Branch || g[v].kind == Sensor)
  }

  lemma UnmarkedStep(g: Graph, q: seq<nat>, i: nat)
    requires Nodes(g, q) && i < |q| && !Marked(g, q[i])
    ensures Nodes(g, q[i..]) && Nodes(g, q[i + 1..]) && Marks(g, q[i..]) == Marks(g, q[i + 1..])
    ensures SwitchesTo(g, q, i + 1) == SwitchesTo(g, q, i) && q[i] < |g| && g[q[i]].kind != Sensor
  {
    hide Marks, Mark, SwitchesTo, SwitchOf, Sensors, Nodes;
    SuffixNodes(g, q, i);
    assert q[i..] == [q[i]] + q[i + 1..];
    MarksCons(g, q[i], q[i + 1..]);
    NothingLeftBehind(g, q, i);
    assert Marks(g, q[i + 1..]) + [] == Marks(g, q[i + 1..]);
    assert SwitchesTo(g, q, i) + [] == SwitchesTo(g, q, i);
  }

  lemma SuffixNodes(g: Graph, q: seq<nat>, i: nat)
    requires Nodes(g, q) && i < |q|
    ensures Nodes(g, q[i..]) && Nodes(g, q[i + 1..]) && q[i] < |g| && |g[q[i]].edge| == 2
  {
  }

  lemma NothingLeftBehind(g: Graph, q: seq<nat>, i: nat)
    requires Nodes(g, q) && i < |q| && !Marked(g, q[i])
    ensures q[i] < |g| && g[q[i]].kind != Sensor && |g[q[i]].edge| == 2
    ensures Mark(g, q[i], q[i + 1..]) == [] && SwitchesTo(g, q, i + 1) == SwitchesTo(g, q, i) + []
  {
    hide Marks;
  }

  lemma NoMarks(g: Graph, q: seq<nat>)
    requires Nodes(g, q)
    ensures Nodes(g, q[|q|..]) && Marks(g, q[|q|..]) == []
  {
  }

  /** The top of the stack belongs to the next branch or sensor of the path. */
  lemma {:induction false} NextMarked(g: Graph, q: seq<nat>, i: nat) returns (j: nat)
    requires Nodes(g, q) && i <= |q|
    ensures i <= j <= |q| && Nodes(g, q[i..]) && Nodes(g, q[j..]) && Marks(g, q[j..]) == Marks(g, q[i..])
    ensures SwitchesTo(g, q, j) == SwitchesTo(g, q, i)
    ensures forall k :: i <= k < j ==> q[k] < |g| && g[q[k]].kind != Sensor
    ensures if j < |q| then Marked(g, q[j]) else Marks(g, q[i..]) == []
    decreases |q| - i
  {
    hide Marks, SwitchesTo;
    NoMarks(g, q);
    if i == |q| || Marked(g, q[i]) {
      j := i;
    } else {
      UnmarkedStep(g, q, i);
      j := NextMarked(g, q, i + 1);
    }
  }

  lemma SplitLast(a: seq<int>, x: int, b: seq<int>, y: int)
    requires a + [x] == b + [y]
    ensures a == b && x == y
  {
    assert (a + [x])[|a|] == x && (b + [y])[|b|] == y;
    assert (a + [x])[..|a|] == a && (b + [y])[..|b|] == b;
  }

  /** What the top of the stack says about a sensor q[j], and what is left below it. */
  lemma SensorOnTop(g: Graph, q: seq<nat>, j: nat, below: seq<int>)
    requires Nodes(g, q) && j < |q| && q[j] < |g| && g[q[j]].kind == Sensor
    requires Nodes(g, q[j + 1..]) && below == Marks(g, q[j + 1..])
    ensures Nodes(g, q[j..]) && Marks(g, q[j..]) == (below + [q[j]]) + [SW_ANCHOR]
    ensures SwitchesTo(g, q, j + 1) == SwitchesTo(g, q, j)
  {
    hide Marks, SwitchesTo, Nodes;
    NodesSuffix(g, q, j);
    assert q[j..] == [q[j]] + q[j + 1..];
    MarksCons(g, q[j], q[j + 1..]);
    assert below + [q[j], SW_ANCHOR] == (below + [q[j]]) + [SW_ANCHOR];
    NoSwitch(g, q, j);
  }

  lemma NoSwitch(g: Graph, q: seq<nat>, j: nat)
    requires Nodes(g, q) && j < |q| && q[j] < |g| && g[q[j]].kind != Branch
    ensures SwitchesTo(g, q, j + 1) == SwitchesTo(g, q, j)
  {
    hide Nodes;
  }

  /** The same for a branch. */
  lemma BranchOnTop(g: Graph, q: seq<nat>, j: nat, below: seq<int>, dir: nat, action: Action)
    requires Numbered(g) && Nodes(g, q) && j < |q| && q[j] < |g| && g[q[j]].kind == Branch
    requires Nodes(g, q[j + 1..]) && below == Marks(g, q[j + 1..]) && |g[q[j]].edge| == 2
    requires dir == BranchDir(g, q[j], q[j + 1..]) && 0 <= g[q[j]].num && action == SwitchAction(g[q[j]].num, dir)
    ensures Nodes(g, q[j..]) && Marks(g, q[j..]) == ((below + [dir]) + [q[j]]) + [BR_NODE] && Typed(action)
    ensures Rev(SwitchesTo(g, q, j + 1)) == [action] + Rev(SwitchesTo(g, q, j))
    ensures |SwitchesTo(g, q, j + 1)| == |SwitchesTo(g, q, j)| + 1
  {
    hide Rev, SwitchesTo, Marks;
    BranchMarks(g, q, j, below, dir);
    BranchSwitch(g, q, j, dir, action);
    NumberOf(g, q[j]);
  }

  lemma BranchMarks(g: Graph, q: seq<nat>, j: nat, below: seq<int>, dir: nat)
    requires Nodes(g, q) && j < |q| && q[j] < |g| && g[q[j]].kind == Branch && |g[q[j]].edge| == 2
    requires Nodes(g, q[j + 1..]) && below == Marks(g, q[j + 1..]) && dir == BranchDir(g, q[j], q[j + 1..])
    ensures Nodes(g, q[j..]) && Marks(g, q[j..]) == ((below + [dir]) + [q[j]]) + [BR_NODE]
  {
    assert q[j..] == [q[j]] + q[j + 1..];
    MarksCons(g, q[j], q[j + 1..]);
    assert below + [dir, q[j], BR_NODE] == ((below + [dir]) + [q[j]]) + [BR_NODE];
  }

  lemma BranchSwitch(g: Graph, q: seq<nat>, j: nat, dir: nat, action: Action)
    requires Nodes(g, q) && j < |q| && q[j] < |g| && g[q[j]].kind == Branch && |g[q[j]].edge| == 2
    requires dir == BranchDir(g, q[j], q[j + 1..]) && 0 <= g[q[j]].num && action == SwitchAction(g[q[j]].num, dir)
    ensures SwitchesTo(g, q, j + 1) == SwitchesTo(g, q, j) + [action]
    ensures Rev(SwitchesTo(g, q, j + 1)) == [action] + Rev(SwitchesTo(g, q, j))
  {
    hide Rev, BranchDir, SwitchAction;
    RevAppend(SwitchesTo(g, q, j), action);
  }

  /** The kind popped from the stack tells sensors and branches apart. */
  lemma KindOnTop(g: Graph, q: seq<nat>, j: nat, below: seq<int>, c: seq<int>, kind: int)
    requires Numbered(g) && Nodes(g, q) && j < |q| && Marked(g, q[j])
    requires Nodes(g, q[j + 1..]) && below == Marks(g, q[j + 1..]) && Nodes(g, q[j..])
    requires Marks(g, q[j..]) == c + [kind]
    ensures |g[q[j]].edge| == 2 && 0 <= g[q[j]].num
    ensures if kind == SW_ANCHOR then g[q[j]].kind == Sensor && c == below + [q[j]]
      else g[q[j]].kind == Branch && c == (below + [BranchDir(g, q[j], q[j + 1..])]) + [q[j]]
  {
    hide Marks, SwitchesTo, Rev, Mark, BranchDir, SwitchAction;
    NumberOf(g, q[j]);
    if g[q[j]].kind == Sensor {
      SensorOnTop(g, q, j, below);
      SplitLast(below + [q[j]], SW_ANCHOR, c, kind);
    } else {
      var dir := BranchDir(g, q[j], q[j + 1..]);
      BranchOnTop(g, q, j, below, dir, SwitchAction(g[q[j]].num, dir));
      SplitLast((below + [dir]) + [q[j]], BR_NODE, c, kind);
    }
  }

  ghost predicate NotAnchor(g: Graph, v: nat, node: nat) {
    v < |g| && (v != node || g[v].kind != Sensor)
  }

  lemma {:induction false} RevSized(s: seq<Action>)
    ensures |Rev(s)| == |s|
  {
    if s != [] { RevSized(s[1..]); }
  }

  /** The rest of a branch's record, once its kind is off the stack: its switch goes to the front of the route. */
  method ThrowOne(g: Graph, path: RoutingActionQueue, branches: Deque, ghost q: seq<nat>, ghost m: nat,
                  ghost below: seq<int>)
    requires Numbered(g) && Nodes(g, q) && path.Valid() && branches.Valid()
    requires branches !in path.Repr && branches.buf !in path.Repr
    requires m < |q| && q[m] < |g| && g[q[m]].kind == Branch && |g[q[m]].edge| == 2 && 0 <= g[q[m]].num
    requires Nodes(g, q[m + 1..]) && below == Marks(g, q[m + 1..])
    requires branches.Contents() == (below + [BranchDir(g, q[m], q[m + 1..])]) + [q[m]]
    requires |path.actions| < MAX_RECORDS
    modifies path`actions, path.q, path.q.buf, branches
    ensures path.Valid() && branches.Valid() && branches.Contents() == below
    ensures path.actions == [SwitchAction(g[q[m]].num, BranchDir(g, q[m], q[m + 1..]))] + old(path.actions)
  {
    hide Deque.Contents, Deque.Valid, RoutingActionQueue.Valid, Marks, Nodes, SwitchesTo, Rev, BranchDir, SwitchAction;
    ghost var dir0 := BranchDir(g, q[m], q[m + 1..]);
    BranchOnTop(g, q, m, below, dir0, SwitchAction(g[q[m]].num, dir0));
    var branchNode := branches.PopBack();
    SplitLast(below + [dir0], q[m], branches.Contents(), branchNode);
    var dir := branches.PopBack();
    SplitLast(below, dir0, branches.Contents(), dir);
    var action := SwitchAction(g[branchNode].num, dir);
    path.PushFront(action);
  }

  /** gather_branches: moves the switches before the sensor node from the stack to the front of the route. */
  method GatherBranches(g: Graph, path: RoutingActionQueue, branches: Deque, node: nat, ghost q: seq<nat>)
    returns (ghost m: nat)
    requires Numbered(g) && Nodes(g, q) && path.Valid() && branches.Valid()
    requires branches !in path.Repr && branches.buf !in path.Repr
    requires branches.Contents() == Marks(g, q) && |path.actions| + |SwitchesTo(g, q, |q|)| <= MAX_RECORDS
    modifies path`actions, path.q, path.q.buf, branches
    ensures path.Valid() && branches.Valid()
    ensures m <= |q| && forall k :: 0 <= k < m ==> NotAnchor(g, q[k], node)
    ensures m < |q| ==> q[m] == node && g[node].kind == Sensor
    ensures path.actions == Rev(SwitchesTo(g, q, m)) + old(path.actions)
    ensures m < |q| ==> Nodes(g, q[m + 1..]) && branches.Contents() == Marks(g, q[m + 1..])
  {
    hide Deque.Contents, Deque.Valid, RoutingActionQueue.Valid, Marks, Numbered, Nodes, SwitchesTo, Rev, BranchDir,
      SwitchAction;
    m := 0;
    assert q[0..] == q;
    GatherStarts(g, q, path.actions);
    while !branches.Empty()
      invariant m <= |q| && Nodes(g, q[m..]) && path.Valid() && branches.Valid()
      invariant branches.Contents() == Marks(g, q[m..])
      invariant path.actions == Rev(SwitchesTo(g, q, m)) + old(path.actions)
      invariant forall k :: 0 <= k < m ==> NotAnchor(g, q[k], node)
      decreases |q| - m
    {
      m := NextMarked(g, q, m);
      NodesSuffix(g, q, m + 1);
      ghost var below := Marks(g, q[m + 1..]);
      var kind := branches.PopBack();
      KindOnTop(g, q, m, below, branches.Contents(), kind);
      if kind == SW_ANCHOR {
        SensorOnTop(g, q, m, below);
        var anchor := branches.PopBack();
        SplitLast(below, q[m], branches.Contents(), anchor);
        if anchor == node {
          return;
        }
      } else {
        ghost var dir0 := BranchDir(g, q[m], q[m + 1..]);
        BranchOnTop(g, q, m, below, dir0, SwitchAction(g[q[m]].num, dir0));
        SwitchesToGrow(g, q, m + 1, |q|);
        RevSized(SwitchesTo(g, q, m));
        ThrowOne(g, path, branches, q, m, below);
      }
      m := m + 1;
    }
    m := NextMarked(g, q, m);
    if m < |q| {
      NodesSuffix(g, q, m + 1);
      MarkedIsNotEmpty(g, q, m);
    }
  }

  lemma MarkedIsNotEmpty(g: Graph, q: seq<nat>, j: nat)
    requires Nodes(g, q) && j < |q| && Marked(g, q[j]) && Nodes(g, q[j..])
    ensures Marks(g, q[j..]) != []
  {
  }

  lemma NodesSuffix(g: Graph, q: seq<nat>, k: nat)
    requires Nodes(g, q) && k <= |q|
    ensures Nodes(g, q[k..])
  {
  }

  lemma GatherStarts(g: Graph, q: seq<nat>, actions: seq<Action>)
    requires Nodes(g, q)
    ensures Rev(SwitchesTo(g, q, 0)) + actions == actions
  {
  }

  // ----- driving along the thrown switches -----

  /** Switch positions, 33 for straight and 34 for curved, by number after throwing the actions in order. */
  ghost function Settings(actions: seq<Action>, sw: map<int, int>): map<int, int> {
    if actions == [] then sw
    else
      var a := actions[0];
      Settings(actions[1..], if a.kind == SWITCH then sw[a.total % 256 := a.total / 256] else sw)
  }

  /** The number of the edge by which a train leaves node v. */
  ghost function Leaving(g: Graph, sw: map<int, int>, v: nat): nat
    requires v < |g|
  {
    if g[v].kind == Branch && g[v].num in sw && sw[g[v].num] == 34 then DIR_CURVED else DIR_STRAIGHT
  }

  /** The node a train drives to from node v. */
  ghost function Drive(g: Graph, sw: map<int, int>, v: nat): nat
    requires v < |g| && |g[v].edge| == 2
  {
    g[v].edge[Leaving(g, sw, v)].dest
  }

  /** Every action that throws switch n throws it to d. */
  ghost predicate Agree(actions: seq<Action>, n: int, d: int) {
    forall i :: 0 <= i < |actions| && actions[i].kind == SWITCH && actions[i].total % 256 == n
      ==> actions[i].total / 256 == d
  }

  ghost predicate Throws(actions: seq<Action>, n: int) {
    exists i :: 0 <= i < |actions| && actions[i].kind == SWITCH && actions[i].total % 256 == n
  }

  lemma ThrowsHeadOrRest(actions: seq<Action>, n: int)
    requires actions != []
    ensures Throws(actions, n) ==>
      (actions[0].kind == SWITCH && actions[0].total % 256 == n) || Throws(actions[1..], n)
  {
    if Throws(actions, n) {
      var i :| 0 <= i < |actions| && actions[i].kind == SWITCH && actions[i].total % 256 == n;
      if i > 0 { assert actions[1..][i - 1] == actions[i]; }
    }
  }

  lemma {:induction false} AgreedSetting(actions: seq<Action>, sw: map<int, int>, n: int, d: int)
    requires Agree(actions, n, d)
    requires Throws(actions, n) || (n in sw && sw[n] == d)
    ensures n in Settings(actions, sw) && Settings(actions, sw)[n] == d
  {
    if actions != [] {
      var a, rest := actions[0], actions[1..];
      var sw' := if a.kind == SWITCH then sw[a.total % 256 := a.total / 256] else sw;
      assert Agree(rest, n, d) by {
        forall i | 0 <= i < |rest| && rest[i].kind == SWITCH && rest[i].total % 256 == n
          ensures rest[i].total / 256 == d
        {
          assert rest[i] == actions[i + 1];
        }
      }
      ThrowsHeadOrRest(actions, n);
      AgreedSetting(rest, sw', n, d);
    }
  }

  lemma SwitchActionReads(num: nat, dir: nat)
    requires num < 256
    ensures var a := SwitchAction(num, dir);
      a.kind == SWITCH && a.sensorNum == -1 && a.info == 0 && a.total % 256 == num &&
      a.total / 256 == if dir == DIR_CURVED then 34 else 33
  {
  }

  /** The position the path wants for the branch at position j. */
  ghost function Wanted(g: Graph, q: seq<nat>, j: nat): int
    requires Nodes(g, q) && j < |q|
  {
    if BranchDir(g, q[j], q[j + 1..]) == DIR_CURVED then 34 else 33
  }

  /** The switch list of a simple path throws every branch of the path, and only to the wanted position. */
  lemma {:induction false} SwitchListSound(g: Graph, q: seq<nat>, m: nat, j: nat)
    requires Numbered(g) && Nodes(g, q) && m <= |q| && j < |q| && g[q[j]].kind == Branch
    requires forall a, b :: 0 <= a < b < |q| ==> q[a] != q[b]
    ensures Agree(SwitchesTo(g, q, m), g[q[j]].num, Wanted(g, q, j))
    ensures j < m ==> Throws(SwitchesTo(g, q, m), g[q[j]].num)
    ensures forall i :: 0 <= i < |SwitchesTo(g, q, m)| ==> SwitchesTo(g, q, m)[i].kind == SWITCH
  {
    hide Numbered, BranchDir, SwitchAction;
    if m > 0 {
      SwitchListSound(g, q, m - 1, j);
      var i := m - 1;
      var s, t := SwitchesTo(g, q, i), SwitchOf(g, q, i);
      NumberOf(g, q[j]);
      NumberOf(g, q[i]);
      SameNumberSameNode(g, q, i, j);
      if g[q[i]].kind == Branch {
        SwitchActionReads(g[q[i]].num, BranchDir(g, q[i], q[i + 1..]));
      }
      AgreeAppend(s, t, g[q[j]].num, Wanted(g, q, j));
      if j < m && j != i { ThrowsAppend(s, t, g[q[j]].num); }
      if j == i { assert (s + t)[|s|] == t[0]; }
    }
  }

  lemma SameNumberSameNode(g: Graph, q: seq<nat>, i: nat, j: nat)
    requires Numbered(g) && Nodes(g, q) && i < |q| && j < |q|
    requires forall a, b :: 0 <= a < b < |q| ==> q[a] != q[b]
    ensures g[q[i]].kind == Branch && g[q[j]].kind == Branch && g[q[i]].num == g[q[j]].num ==> i == j
  {
    if i < j { assert q[i] != q[j]; }
    if j < i { assert q[j] != q[i]; }
  }

  lemma AgreeAppend(s: seq<Action>, t: seq<Action>, n: int, d: int)
    requires Agree(s, n, d) && Agree(t, n, d)
    ensures Agree(s + t, n, d)
  {
  }

  lemma ThrowsAppend(s: seq<Action>, t: seq<Action>, n: int)
    requires Throws(s, n) || Throws(t, n)
    ensures Throws(s + t, n)
  {
    if Throws(s, n) {
      var i :| 0 <= i < |s| && s[i].kind == SWITCH && s[i].total % 256 == n;
      assert (s + t)[i] == s[i];
    } else {
      var i :| 0 <= i < |t| && t[i].kind == SWITCH && t[i].total % 256 == n;
      assert (s + t)[|s| + i] == t[i];
    }
  }

  lemma {:induction false} RevKeeps(s: seq<Action>, n: int, d: int)
    ensures Agree(s, n, d) ==> Agree(Rev(s), n, d)
    ensures Throws(s, n) ==> Throws(Rev(s), n)
  {
    if s != [] {
      RevKeeps(s[1..], n, d);
      assert s == [s[0]] + s[1..];
      if Agree(s, n, d) {
        assert Agree([s[0]], n, d) && Agree(s[1..], n, d) by {
          assert forall i :: 0 <= i < |s[1..]| ==> s[1..][i] == s[i + 1];
        }
        AgreeAppend(Rev(s[1..]), [s[0]], n, d);
      }
      if Throws(s, n) {
        var i :| 0 <= i < |s| && s[i].kind == SWITCH && s[i].total % 256 == n;
        if i == 0 { assert [s[0]][0] == s[i]; } else { assert s[1..][i - 1] == s[i]; }
        ThrowsAppend(Rev(s[1..]), [s[0]], n);
      }
    }
  }

  /** The route's switches put every branch before position m where the path wants it. */
  lemma BranchIsSet(g: Graph, q: seq<nat>, m: nat, tail: seq<Action>, sw: map<int, int>, k: nat)
    requires Numbered(g) && Nodes(g, q) && k < m <= |q| && g[q[k]].kind == Branch
    requires forall a, b :: 0 <= a < b < |q| ==> q[a] != q[b]
    requires forall i :: 0 <= i < |tail| ==> tail[i].kind != SWITCH
    ensures var sw' := Settings(Rev(SwitchesTo(g, q, m)) + tail, sw);
      g[q[k]].num in sw' && sw'[g[q[k]].num] == Wanted(g, q, k)
  {
    hide SwitchesTo, Rev, Settings, Wanted, Numbered;
    var s := SwitchesTo(g, q, m);
    var n, d := g[q[k]].num, Wanted(g, q, k);
    SwitchListSound(g, q, m, k);
    RevKeeps(s, n, d);
    AgreeAppend(Rev(s), tail, n, d);
    ThrowsAppend(Rev(s), tail, n);
    AgreedSetting(Rev(s) + tail, sw, n, d);
  }

  /** A branch set as wanted sends the train to the next node of the path. */
  lemma WantedLeadsOn(g: Graph, p: Path, sw: map<int, int>, k: nat)
    requires WellFormed(g) && IsPath(g, p) && Nodes(g, p.nodes) && k < |p.dirs|
    requires g[p.nodes[k]].kind == Branch ==>
      g[p.nodes[k]].num in sw && sw[g[p.nodes[k]].num] == Wanted(g, p.nodes, k)
    ensures Drive(g, sw, p.nodes[k]) == p.nodes[k + 1]
  {
    assert Leads(g, p.nodes[k], p.dirs[k], p.nodes[k + 1]);
    assert p.nodes[k + 1..][0] == p.nodes[k + 1];
  }

  /** After throwing a route's switches, followed by actions that throw none, a train at any node of the path
      before position m goes on to the next node of the path. */
  lemma DriveStep(g: Graph, p: Path, m: nat, tail: seq<Action>, sw: map<int, int>, k: nat)
    requires WellFormed(g) && Numbered(g) && IsPath(g, p) && Simple(p) && Nodes(g, p.nodes)
    requires k < m < |p.nodes|
    requires forall i :: 0 <= i < |tail| ==> tail[i].kind != SWITCH
    ensures Drive(g, Settings(Rev(SwitchesTo(g, p.nodes, m)) + tail, sw), p.nodes[k]) == p.nodes[k + 1]
  {
    hide SwitchesTo, Rev, Settings, Wanted, Numbered, Drive, Leads, WellFormed;
    if g[p.nodes[k]].kind == Branch { BranchIsSet(g, p.nodes, m, tail, sw, k); }
    WantedLeadsOn(g, p, Settings(Rev(SwitchesTo(g, p.nodes, m)) + tail, sw), k);
  }

  ghost function DriveN(g: Graph, sw: map<int, int>, v: nat, n: nat): nat
    requires WellFormed(g) && v < |g|
    ensures DriveN(g, sw, v, n) < |g|
    decreases n
  {
    if n == 0 then v
    else
      var u := DriveN(g, sw, v, n - 1);
      assert WellFormedNode(g, u);
      if Drive(g, sw, u) < |g| then Drive(g, sw, u) else u
  }

  /** ... and so drives along the path from any of its nodes up to position m. */
  lemma {:induction false} SwitchesRealisePath(g: Graph, p: Path, m: nat, tail: seq<Action>, sw: map<int, int>,
                                               j: nat, k: nat)
    requires WellFormed(g) && Numbered(g) && IsPath(g, p) && Simple(p) && Nodes(g, p.nodes)
    requires j <= k <= m < |p.nodes|
    requires forall i :: 0 <= i < |tail| ==> tail[i].kind != SWITCH
    ensures DriveN(g, Settings(Rev(SwitchesTo(g, p.nodes, m)) + tail, sw), p.nodes[j], k - j) == p.nodes[k]
    decreases k
  {
    hide SwitchesTo, Rev, Settings, Numbered, Drive, Simple, IsPath;
    PathNodes(g, p);
    if j < k {
      SwitchesRealisePath(g, p, m, tail, sw, j, k - 1);
      DriveStep(g, p, m, tail, sw, k - 1);
    }
  }

  // ----- cutting the path at a segment change (the constant-speed case) -----

  ghost predicate ChangesAt(g: Graph, s: seq<nat>, c: nat) {
    1 <= c < |s| && s[c] < |g| && s[c - 1] < |g| && g[s[c]].segment != g[s[c - 1]].segment
  }

  ghost predicate AllSensors(g: Graph, s: seq<nat>) {
    forall k :: 0 <= k < |s| ==> s[k] < |g| && g[s[k]].kind == Sensor && g[s[k]].num == s[k] && s[k] < 0x8000
  }

  lemma {:induction false} SensorActionAt(s: seq<nat>, dist: seq<int>, k: nat)
    requires k < |s|
    ensures |SensorActions(s, dist)| == |s| && SensorActions(s, dist)[k] == SensorAction(s[k], s[k + 1..], dist)
  {
    SensorActionsSized(s, dist);
    if k > 0 {
      SensorActionAt(s[1..], dist, k - 1);
      assert s[1..][k - 1 + 1..] == s[k + 1..];
    }
  }

  lemma SensorActionTyped(g: Graph, s: seq<nat>, dist: seq<int>, k: nat)
    requires AllSensors(g, s) && k < |s|
    ensures |SensorActions(s, dist)| == |s| && Typed(SensorActions(s, dist)[k]) &&
            SensorActions(s, dist)[k].sensorNum == s[k]
  {
    SensorActionAt(s, dist, k);
  }

  /** Moves the next sensor from sensorPath to the route. */
  method MoveOne(sensorPath: RoutingActionQueue, path: RoutingActionQueue, ghost all: seq<Action>, ghost c: nat)
    returns (action: Action)
    requires sensorPath.Valid() && path.Valid() && sensorPath.Repr !! path.Repr
    requires c < |all| < MAX_RECORDS && Typed(all[c])
    requires sensorPath.actions == all[c..] && path.actions == all[..c]
    modifies sensorPath`actions, sensorPath.q, path`actions, path.q, path.q.buf
    ensures sensorPath.Valid() && path.Valid() && action == all[c]
    ensures sensorPath.actions == all[c + 1..] && path.actions == all[..c + 1]
  {
    hide RoutingActionQueue.Valid, Typed;
    action := sensorPath.PopFront();
    HeadOfQueue(all[c..], action, sensorPath.actions);
    path.PushBack(action);
    assert all[c..][1..] == all[c + 1..] && all[..c + 1] == all[..c] + [all[c]];
  }

  /** Some sensor lies in another segment than the one before it. */
  ghost predicate Crosses(g: Graph, s: seq<nat>) {
    exists k: nat :: ChangesAt(g, s, k)
  }

  /** The source's loop after the first sensor: it moves sensors from sensorPath to the route until the segment
      changes.  c is the position of the sensor it stops at.  The loop ends if and only if some sensor lies in another
      segment than the one before it: otherwise it goes on to read from the empty queue, here it fails. */
  method FollowToSegmentChange(g: Graph, sensorPath: RoutingActionQueue, path: RoutingActionQueue, segments: Deque,
                               first: nat, ghost s: seq<nat>, ghost dist: seq<int>)
    returns (ok: bool, node: nat, ghost c: nat)
    requires AllSensors(g, s) && s != [] && first == s[0] && |s| < MAX_RECORDS
    requires sensorPath.Valid() && path.Valid() && segments.Valid() && segments.Contents() == []
    requires sensorPath.Repr !! path.Repr
    requires segments !in sensorPath.Repr + path.Repr && segments.buf !in sensorPath.Repr + path.Repr
    requires |SensorActions(s, dist)| == |s|
    requires sensorPath.actions == SensorActions(s, dist)[1..] && path.actions == SensorActions(s, dist)[..1]
    modifies sensorPath`actions, sensorPath.q, path`actions, path.q, path.q.buf, segments, segments.buf
    ensures sensorPath.Valid() && path.Valid() && segments.Valid()
    ensures ok <==> Crosses(g, s)
    ensures ok ==> ChangesAt(g, s, c) && node == s[c] && forall k: nat :: k < c ==> !ChangesAt(g, s, k)
    ensures ok ==> path.actions == SensorActions(s, dist)[..c + 1]
    ensures ok ==> sensorPath.actions == SensorActions(s, dist)[c + 1..]
    ensures ok ==> segments.Contents() == [g[s[c - 1]].segment]
    ensures !ok ==> path.actions == SensorActions(s, dist) && sensorPath.actions == [] && segments.Contents() == []
  {
    hide Deque.Contents, Deque.Valid, RoutingActionQueue.Valid, SensorActions, SensorAction, Typed;
    ghost var all := SensorActions(s, dist);
    node := first;
    c := 0;
    while true
      invariant c < |s| && node == s[c]
      invariant sensorPath.Valid() && path.Valid() && segments.Valid() && segments.Contents() == []
      invariant sensorPath.actions == all[c + 1..] && path.actions == all[..c + 1]
      invariant forall k: nat :: k <= c ==> !ChangesAt(g, s, k)
      decreases |s| - c
    {
      var empty := NoSensorLeft(sensorPath);
      if empty {
        assert c + 1 == |s| && all[..c + 1] == all;
        return false, node, c;
      }
      SensorActionTyped(g, s, dist, c + 1);
      var action := MoveOne(sensorPath, path, all, c + 1);
      c := c + 1;
      var nextSensor: nat := action.sensorNum;
      if g[node].segment != g[nextSensor].segment {
        segments.PushBack(g[node].segment);
        node := nextSensor;
        assert ChangesAt(g, s, c);
        return true, node, c;
      }
      node := nextSensor;
    }
  }

  /** Whether the next record would be read from an empty queue. */
  method NoSensorLeft(sensorPath: RoutingActionQueue) returns (empty: bool)
    requires sensorPath.Valid()
    ensures empty <==> sensorPath.actions == []
  {
    hide EncodeAll;
    empty := sensorPath.Empty();
  }

  lemma HeadOfQueue(rest: seq<Action>, action: Action, tail: seq<Action>)
    requires rest == [action] + tail
    ensures rest[0] == action && rest[1..] == tail
  {
  }

  // ----- the whole plan -----

  lemma MarkSize(g: Graph, v: nat, rest: seq<nat>)
    requires v < |g| && |g[v].edge| == 2
    ensures |Mark(g, v, rest)| == if g[v].kind == Branch then 3 else if g[v].kind == Sensor then 2 else 0
  {
  }

  lemma OneMoreSwitch(g: Graph, q: seq<nat>, i: nat)
    requires Nodes(g, q) && i < |q| && q[i] < |g| && (g[q[i]].kind == Branch ==> g[q[i]].num >= 0)
    ensures |SwitchesTo(g, q, i + 1)| == |SwitchesTo(g, q, i)| + if g[q[i]].kind == Branch then 1 else 0
  {
    hide Nodes;
  }

  /** Every branch takes three cells of the stack and every sensor two. */
  lemma {:induction false} MarksCount(g: Graph, q: seq<nat>, i: nat)
    requires Numbered(g) && Nodes(g, q) && i <= |q|
    ensures Nodes(g, q[i..])
    ensures |Marks(g, q)| ==
      |Marks(g, q[i..])| + 3 * |SwitchesTo(g, q, i)| + 2 * (|Sensors(g, q)| - |Sensors(g, q[i..])|)
  {
    if i == 0 {
      assert q[0..] == q;
    } else {
      hide Marks, Mark, SwitchesTo, Sensors, Nodes, Numbered;
      MarksCount(g, q, i - 1);
      SuffixNodes(g, q, i - 1);
      SliceBack(q, i);
      MarksCons(g, q[i - 1], q[i..]);
      MarkSize(g, q[i - 1], q[i..]);
      NumberOf(g, q[i - 1]);
      OneMoreSwitch(g, q, i - 1);
    }
  }

  /** The branch stack holds the marks of every simple path from the start to the end or its reverse. */
  ghost predicate FitsStack(g: Graph, start: nat, end: nat)
    requires WellFormed(g)
  {
    forall p: Path ::
      IsPathFrom(g, p, start) && Simple(p) && RouteSearch.IsTarget(g, end, Last(p)) && Nodes(g, p.nodes) ==>
      |Marks(g, p.nodes)| <= BRANCH_CAPACITY
  }

  lemma CoveredFits(g: Graph, p: Path, end: int)
    requires WellFormed(g) && Numbered(g) && IsPath(g, p) && Simple(p) && Nodes(g, p.nodes)
    requires |Marks(g, p.nodes)| <= BRANCH_CAPACITY
    ensures var q := Covered(p.nodes, end);
      Nodes(g, q) && AllSensors(g, Sensors(g, q)) &&
      3 * |SwitchesTo(g, q, |q|)| + 2 * |Sensors(g, q)| <= BRANCH_CAPACITY
    ensures var q := Covered(p.nodes, end);
      forall a, b :: 0 <= a < b < |q| ==> q[a] != q[b]
  {
    var q := Covered(p.nodes, end);
    if q == p.nodes { MarksGrow(g, p.nodes, 0); assert p.nodes[0..] == p.nodes; } else { MarksGrow(g, p.nodes, 1); }
    MarksCount(g, q, |q|);
    assert q[|q|..] == [];
    SensorsAreSensors(g, q);
    forall k | 0 <= k < |Sensors(g, q)|
      ensures var s := Sensors(g, q)[k]; s < |g| && g[s].kind == Sensor && g[s].num == s && s < 0x8000
    {
      assert Sensors(g, q)[k] in Sensors(g, q);
      NumberOf(g, Sensors(g, q)[k]);
    }
  }

  /** Leaving out the first node of a path leaves a path. */
  lemma TailIsPath(g: Graph, p: Path)
    requires WellFormed(g) && IsPath(g, p) && Simple(p) && |p.dirs| > 0
    ensures var r := Path(p.nodes[1..], p.dirs[1..]); IsPath(g, r) && Simple(r)
  {
    var r := Path(p.nodes[1..], p.dirs[1..]);
    forall k | 0 <= k < |r.dirs| ensures Leads(g, r.nodes[k], r.dirs[k], r.nodes[k + 1]) {
      assert Leads(g, p.nodes[k + 1], p.dirs[k + 1], p.nodes[k + 2]);
    }
  }

  /** What the actions of a route up to the sensor node promise: whatever the switches were before, once the
      route's switches are thrown a train anywhere on the covered path before node runs along it to node. */
  ghost predicate Realises(g: Graph, actions: seq<Action>, q: seq<nat>, m: nat)
    requires WellFormed(g) && forall k :: 0 <= k < |q| ==> q[k] < |g|
  {
    m < |q| && forall sw: map<int, int>, j: nat, k: nat :: j <= k <= m ==>
      DriveN(g, Settings(actions, sw), q[j], k - j) == q[k]
  }

  lemma RouteRealises(g: Graph, p: Path, end: int, m: nat, tail: seq<Action>)
    requires WellFormed(g) && Numbered(g) && IsPath(g, p) && Simple(p)
    requires forall i :: 0 <= i < |tail| ==> tail[i].kind != SWITCH
    requires var q := Covered(p.nodes, end); Nodes(g, q) && m < |q|
    ensures var q := Covered(p.nodes, end);
      (forall k :: 0 <= k < |q| ==> q[k] < |g|) && Realises(g, Rev(SwitchesTo(g, q, m)) + tail, q, m)
  {
    hide Settings, DriveN, SwitchesTo, Rev, Numbered;
    var q := Covered(p.nodes, end);
    var r := if q == p.nodes then p else Path(p.nodes[1..], p.dirs[1..]);
    if q != p.nodes { TailIsPath(g, p); }
    forall sw: map<int, int>, j: nat, k: nat | j <= k <= m
      ensures DriveN(g, Settings(Rev(SwitchesTo(g, q, m)) + tail, sw), q[j], k - j) == q[k]
    {
      SwitchesRealisePath(g, r, m, tail, sw, j, k);
    }
  }

  lemma {:induction false} SensorActionsThrowNothing(s: seq<nat>, dist: seq<int>)
    ensures forall i :: 0 <= i < |SensorActions(s, dist)| ==> SensorActions(s, dist)[i].kind == SENSOR
  {
    if s != [] { SensorActionsThrowNothing(s[1..], dist); }
  }

  /** The part of plan_direct_route after the walk back, in the constant-speed case. */
  method PlanSegment(g: Graph, branches: Deque, sensorPath: RoutingActionQueue, path: RoutingActionQueue,
                     segments: Deque, ghost p: Path, ghost end: int, ghost dist: seq<int>)
    returns (ok: bool, node: nat, ghost c: nat, ghost m: nat)
    requires WellFormed(g) && Numbered(g) && IsPath(g, p) && Simple(p) && Nodes(g, p.nodes)
    requires |Marks(g, p.nodes)| <= BRANCH_CAPACITY && Nodes(g, Covered(p.nodes, end))
    requires branches.Valid() && sensorPath.Valid() && path.Valid() && segments.Valid()
    requires path.actions == [] && segments.Contents() == []
    requires sensorPath.Repr !! path.Repr && branches !in path.Repr + sensorPath.Repr
    requires branches.buf !in path.Repr + sensorPath.Repr && branches != segments && branches.buf != segments.buf
    requires segments !in sensorPath.Repr + path.Repr && segments.buf !in sensorPath.Repr + path.Repr
    requires branches.Contents() == Marks(g, Covered(p.nodes, end))
    requires sensorPath.actions == SensorActions(Sensors(g, Covered(p.nodes, end)), dist)
    modifies branches, sensorPath`actions, sensorPath.q, path`actions, path.q, path.q.buf, segments, segments.buf
    ensures path.Valid() && segments.Valid()
    ensures ok <==> Crosses(g, Sensors(g, Covered(p.nodes, end)))
    ensures ok ==> Cut(g, Covered(p.nodes, end), dist, path.actions, segments.Contents(), node, c, m)
  {
    hide Deque.Contents, Deque.Valid, RoutingActionQueue.Valid, SensorActions, Marks, SwitchesTo, Rev, Realises, Simple;
    hide IsPath, WellFormed, Numbered, Covered, Nodes, Sensors;
    ghost var q := Covered(p.nodes, end);
    ghost var s := Sensors(g, q);
    node, c, m := 0, 0, 0;
    CoveredFits(g, p, end);
    SensorActionsSized(s, dist);
    var empty := NoSensorLeft(sensorPath);
    if empty { return false, node, c, m; }
    SensorActionAt(s, dist, 0);
    SensorsAreSensors(g, q);
    ghost var all := sensorPath.actions;
    assert all[0..] == all && all[..0] == [];
    var action := MoveOne(sensorPath, path, all, 0);
    ok, node, c := FollowToSegmentChange(g, sensorPath, path, segments, action.sensorNum, s, dist);
    if ok {
      SwitchesToGrow(g, q, |q|, |q|);
      assert s[c] in s && s[c] in q;
      m := GatherBranches(g, path, branches, node, q);
      SensorActionsThrowNothing(s, dist);
      RouteRealises(g, p, end, m, all[..c + 1]);
    }
  }

  /** What is handed over of a path through q: the switches up to the first sensor in another segment, at position m,
      then the sensors up to it; the train will leave the segment recorded. */
  ghost predicate Cut(g: Graph, q: seq<nat>, dist: seq<int>, actions: seq<Action>, segments: seq<int>, node: nat,
                      c: nat, m: nat)
    requires WellFormed(g)
  {
    Nodes(g, q) && m < |q| && q[m] == node && (forall k :: 0 <= k < |q| ==> q[k] < |g|) &&
    var s := Sensors(g, q);
    ChangesAt(g, s, c) && (forall k: nat :: k < c ==> !ChangesAt(g, s, k)) && node == s[c] &&
    segments == [g[s[c - 1]].segment] && |SensorActions(s, dist)| == |s| &&
    actions == Rev(SwitchesTo(g, q, m)) + SensorActions(s, dist)[..c + 1] && Realises(g, actions, q, m)
  }

  /** How the planner ends: with ERR_NO_ROUTE, with the first segment of a route, or astray: walking back from an end
      it had not reached it comes to NULL, or it reads sensors from an empty queue. */
  datatype Plan = ErrNoRoute | Segment(stop: nat, node: nat) | NullNode | RunsOff

  /** A route to the reported target, with the distance of each of its nodes; without locks a shortest one. */
  ghost predicate Route(g: Graph, start: nat, end: nat, plain: bool, p: Path, dist: seq<int>, stop: nat)
    requires WellFormed(g)
  {
    IsPathFrom(g, p, start) && Simple(p) && Last(p) == stop && RouteSearch.IsTarget(g, end, stop) &&
    |dist| == |g| && stop < |g| && Length(g, p) == dist[stop] && RouteSearch.DistancesAlong(g, p, dist) &&
    (plain ==> forall r: Path :: IsPathFrom(g, r, start) && RouteSearch.IsTarget(g, end, Last(r)) ==>
      dist[stop] <= Length(g, r))
  }

  /** plan_direct_route for a train that runs at constant speed and is not about to stop.  Without a route the program
      reports it or goes astray; with one, it goes astray exactly when the path found stays in one segment. */
  method PlanConstantRoute(g: Graph, start: nat, end: nat, includeFirst: bool, answers: nat -> bool)
    returns (plan: Plan, path: RoutingActionQueue, segments: Deque, ghost p: Path, ghost dist: seq<int>,
             ghost order: seq<nat>, ghost tree: map<nat, Path>, ghost c: nat, ghost m: nat)
    requires WellFormed(g) && Numbered(g) && start < |g| && end < |g|
    requires RouteSearch.FitsKeys(g, start, answers) && FitsStack(g, start, end)
    ensures path.Valid() && segments.Valid()
    ensures RouteSearch.NoRoute(g, start, end) ==>
      plan == ErrNoRoute || plan == if includeFirst then RunsOff else NullNode
    ensures !RouteSearch.NoRoute(g, start, end) ==>
      |dist| == |g| && RouteSearch.Chosen(g, answers, start, end, order, dist, tree, Last(p)) && Last(p) in tree &&
      p == tree[Last(p)]
    ensures var q := Covered(p.nodes, if includeFirst then RouteSearch.NONE else start);
      !RouteSearch.NoRoute(g, start, end) ==>
        IsPathFrom(g, p, start) && Route(g, start, end, RouteSearch.NoLocks(answers), p, dist, Last(p)) &&
        Nodes(g, q) &&
        if Crosses(g, Sensors(g, q))
        then plan.Segment? && plan.stop == Last(p) &&
        Cut(g, q, dist, path.actions, segments.Contents(), plan.node, c, m)
        else plan == RunsOff
  {
    hide Deque.Contents, Deque.Valid, RoutingActionQueue.Valid, SensorActions, Marks, SwitchesTo, Rev, Realises,
      LeadsBack;
    hide IsPath, WellFormed, Numbered, Covered, Nodes, Sensors, Simple, RouteSearch.Tree, RouteSearch.NoRoute;
    hide RouteSearch.FitsKeys, RouteSearch.NoLocks, Length, FitsStack, Crosses, Cut, RouteSearch.Chosen;
    path := new RoutingActionQueue();
    segments := new Deque();
    p, dist, c, m := Path([], []), [], 0, 0;
    var stop, distances, prev, asked;
    ghost var done;
    order, tree := [], map[];
    stop, distances, prev, asked, done, order, tree := RouteSearch.Search(g, start, end, answers);
    if stop == RouteSearch.NONE {
      return ErrNoRoute, path, segments, p, dist, order, tree, c, m;
    }
    dist := distances[..];
    p := if dist[stop] == RouteSearch.INT32_MAX then Path([stop], []) else tree[stop];
    var until := if includeFirst then RouteSearch.NONE else start;
    Walkable(g, start, end, RouteSearch.NoLocks(answers), dist, prev[..], tree, done, stop, p);
    var ok, branches, sensorPath := Backtrack(g, distances, prev, stop, until, p.nodes);
    assert distances[..] == dist;
    if !ok {
      return NullNode, path, segments, p, dist, order, tree, c, m;
    }
    if dist[stop] == RouteSearch.INT32_MAX { OneNodeStays(g, stop, until); }
    var node;
    ok, node, c, m := PlanSegment(g, branches, sensorPath, path, segments, p, until, dist);
    plan := if ok then Segment(stop, node) else RunsOff;
  }

  /** What the walk back goes through: the path of the tree, or the end alone when it was not reached. */
  lemma Walkable(g: Graph, start: nat, end: nat, plain: bool, dist: seq<int>, prev: seq<int>, tree: map<nat, Path>,
                 done: set<nat>, stop: nat, p: Path)
    requires WellFormed(g) && start < |g| && FitsStack(g, start, end)
    requires RouteSearch.Reported(g, start, end, plain, dist, prev, tree, done, stop)
    requires stop < |dist| && p == if dist[stop] == RouteSearch.INT32_MAX then Path([stop], []) else tree[stop]
    ensures |dist| == |g| == |prev| <= 256 && IsPath(g, p) && Simple(p) && Nodes(g, p.nodes) && LeadsBack(prev, p.nodes)
    ensures |Marks(g, p.nodes)| <= BRANCH_CAPACITY && p.nodes[|p.nodes| - 1] == stop
    ensures forall k :: 1 <= k < |p.nodes| ==> p.nodes[k] != start
    ensures dist[stop] == RouteSearch.INT32_MAX <==> RouteSearch.NoRoute(g, start, end)
    ensures dist[stop] == RouteSearch.INT32_MAX ==> stop != start
    ensures dist[stop] != RouteSearch.INT32_MAX ==> p.nodes[0] == start && Route(g, start, end, plain, p, dist, stop)
  {
    hide RouteSearch.Tree, FitsStack, Length, LeadsBack, RouteSearch.DistancesAlong;
    if dist[stop] == RouteSearch.INT32_MAX {
      hide RouteSearch.Found;
      Alone(g, start, end, prev, stop);
    } else {
      TreeLeadsBack(g, start, done, dist, prev, tree, stop);
      RouteSearch.TreeDistances(g, start, done, dist, prev, tree, stop);
      PathFitsStack(g, start, end, p);
      NeverBackAtStart(prev, p.nodes);
    }
  }

  lemma NeverBackAtStart(prev: seq<int>, p: seq<nat>)
    requires LeadsBack(prev, p)
    ensures 0 < |p| && forall k :: 1 <= k < |p| ==> p[k] != p[0]
  {
  }

  /** An end that was not reached, on its own. */
  lemma Alone(g: Graph, start: nat, end: nat, prev: seq<int>, stop: nat)
    requires WellFormed(g) && start < |g| == |prev| && stop < |g| && prev[stop] == RouteSearch.NONE
    requires RouteSearch.NoRoute(g, start, end) && RouteSearch.IsTarget(g, end, stop)
    ensures |g| <= 256 && IsPath(g, Path([stop], [])) && Simple(Path([stop], [])) && LeadsBack(prev, [stop])
    ensures Nodes(g, [stop]) && |Marks(g, [stop])| <= 3 && stop != start
  {
    NodesOfPath(g, [stop]);
    EmptyLists(g, []);
    assert [stop] == [stop] + [];
    MarksCons(g, stop, []);
    assert IsPathFrom(g, Path([start], []), start) && Last(Path([start], [])) == start;
  }

  /** A single node crosses no segment. */
  lemma OneNodeStays(g: Graph, stop: nat, until: int)
    requires WellFormed(g) && stop < |g| && Nodes(g, Covered([stop], until))
    ensures !Crosses(g, Sensors(g, Covered([stop], until)))
  {
    SensorsAreSensors(g, Covered([stop], until));
  }

  lemma PathFitsStack(g: Graph, start: nat, end: nat, p: Path)
    requires WellFormed(g) && IsPathFrom(g, p, start) && Simple(p) && RouteSearch.IsTarget(g, end, Last(p)) &&
             FitsStack(g, start, end)
    ensures Nodes(g, p.nodes) && |Marks(g, p.nodes)| <= BRANCH_CAPACITY
  {
    NodesOfPath(g, p.nodes);
  }
}
