/** The distances in a route's sensor actions (track-control/src/routing.c:288-293): what they measure, on the path
    found and on the way a train takes once the route's switches are thrown. */
module RouteGaps {
  import opened Track
  import opened ActionQueue
  import opened RoutePlan
  import RouteSearch

  // ----- where the sensors are -----

  /** The positions of the sensors of q, counted from the given number. */
  ghost function Spots(g: Graph, q: seq<nat>, from: nat): seq<nat>
    requires Nodes(g, q)
  {
    if q == [] then []
    else if g[q[0]].kind == Sensor then [from] + Spots(g, q[1..], from + 1)
    else Spots(g, q[1..], from + 1)
  }

  /** The positions at, counted from the given number, are those of the sensors s of q, in order, and of no others. */
  ghost predicate AtSpots(g: Graph, q: seq<nat>, from: nat, at: seq<nat>, s: seq<nat>)
    requires Nodes(g, q)
  {
    |at| == |s| && (forall k :: 0 <= k < |at| ==> from <= at[k] < from + |q| && q[at[k] - from] == s[k]) &&
    (forall j, k :: 0 <= j < k < |at| ==> at[j] < at[k]) &&
    forall i :: 0 <= i < |q| && g[q[i]].kind == Sensor ==> from + i in at
  }

  /** One more node before the others, a sensor or not. */
  lemma AtSpotsSensor(g: Graph, q: seq<nat>, from: nat, at: seq<nat>, s: seq<nat>)
    requires Nodes(g, q) && q != [] && Nodes(g, q[1..]) && AtSpots(g, q[1..], from + 1, at, s)
    ensures AtSpots(g, q, from, [from] + at, [q[0]] + s)
  {
    var at', s' := [from] + at, [q[0]] + s;
    forall k | 0 <= k < |at'| ensures from <= at'[k] < from + |q| && q[at'[k] - from] == s'[k] {
      if k > 0 { assert at'[k] == at[k - 1] && q[1..][at[k - 1] - from - 1] == s[k - 1]; }
    }
    forall i | 0 <= i < |q| && g[q[i]].kind == Sensor ensures from + i in at' {
      if i > 0 { assert q[1..][i - 1] == q[i]; } else { assert at'[0] == from; }
    }
  }

  lemma AtSpotsOther(g: Graph, q: seq<nat>, from: nat, at: seq<nat>, s: seq<nat>)
    requires Nodes(g, q) && q != [] && Nodes(g, q[1..]) && AtSpots(g, q[1..], from + 1, at, s)
    requires g[q[0]].kind != Sensor
    ensures AtSpots(g, q, from, at, s)
  {
    forall k | 0 <= k < |at| ensures from <= at[k] < from + |q| && q[at[k] - from] == s[k] {
      assert q[1..][at[k] - from - 1] == s[k];
    }
    forall i | 0 <= i < |q| && g[q[i]].kind == Sensor ensures from + i in at {
      assert i > 0 && q[1..][i - 1] == q[i];
    }
  }

  lemma {:induction false} SpotsAre(g: Graph, q: seq<nat>, from: nat)
    requires Nodes(g, q)
    ensures AtSpots(g, q, from, Spots(g, q, from), Sensors(g, q))
  {
    if q != [] {
      hide AtSpots, Sensors;
      SpotsAre(g, q[1..], from + 1);
      assert [q[0]] + q[1..] == q;
      MarksCons(g, q[0], q[1..]);
      if g[q[0]].kind == Sensor {
        AtSpotsSensor(g, q, from, Spots(g, q[1..], from + 1), Sensors(g, q[1..]));
      } else {
        AtSpotsOther(g, q, from, Spots(g, q[1..], from + 1), Sensors(g, q[1..]));
      }
    }
  }

  /** Two neighbours in the list of sensors: nothing between them on the way is a sensor. */
  lemma NextSpot(g: Graph, q: seq<nat>, k: nat) returns (i: nat, j: nat)
    requires Nodes(g, q) && k + 1 < |Sensors(g, q)|
    ensures i < j < |q| && q[i] == Sensors(g, q)[k] && q[j] == Sensors(g, q)[k + 1]
    ensures forall x :: i < x < j ==> q[x] < |g| && g[q[x]].kind != Sensor
  {
    SpotsAre(g, q, 0);
    var at := Spots(g, q, 0);
    i, j := at[k], at[k + 1];
    forall x | i < x < j ensures g[q[x]].kind != Sensor { NoSpot(at, k, x); }
  }

  lemma NoSpot(at: seq<nat>, k: nat, x: int)
    requires forall a, b :: 0 <= a < b < |at| ==> at[a] < at[b]
    requires k + 1 < |at| && at[k] < x < at[k + 1]
    ensures x !in at
  {
    forall y | 0 <= y < |at| ensures at[y] != x {
      if y < k { assert at[y] < at[k]; }
      if k + 1 < y { assert at[k + 1] < at[y]; }
    }
  }

  /** Earlier in the list of sensors is earlier on the way. */
  lemma SpotsInOrder(g: Graph, q: seq<nat>, a: nat, b: nat) returns (i: nat, j: nat)
    requires Nodes(g, q) && a <= b < |Sensors(g, q)|
    ensures i <= j < |q| && q[i] == Sensors(g, q)[a] && q[j] == Sensors(g, q)[b]
  {
    SpotsAre(g, q, 0);
    i, j := Spots(g, q, 0)[a], Spots(g, q, 0)[b];
  }

  // ----- the distances are lengths of the path -----

  lemma DistanceIs(g: Graph, p: Path, dist: seq<int>, i: nat, j: nat)
    requires WellFormed(g) && IsPath(g, p) && RouteSearch.DistancesAlong(g, p, dist) && i <= j < |p.nodes|
    ensures |p.nodes| == |p.dirs| + 1 && IsPath(g, Between(p, i, j))
    ensures At(dist, p.nodes[j]) - At(dist, p.nodes[i]) == Length(g, Between(p, i, j))
  {
    hide IsPath, Length;
    BetweenLength(g, p, i, j);
  }

  /** The covered path, which leaves out the first node or not, in positions of the whole one. */
  ghost function Skipped(p: seq<nat>, end: int): nat {
    if end == RouteSearch.NONE || p == [] then 0 else 1
  }

  lemma CoveredAt(p: seq<nat>, end: int, k: nat)
    requires k < |Covered(p, end)|
    ensures Skipped(p, end) + k < |p| && Covered(p, end)[k] == p[Skipped(p, end) + k]
  {
  }

  /** The action of a sensor carries the length of the path to the next sensor, that of the last one 0. */
  lemma GapIsLength(g: Graph, p: Path, end: int, dist: seq<int>, k: nat) returns (i: nat, j: nat)
    requires WellFormed(g) && IsPath(g, p) && RouteSearch.DistancesAlong(g, p, dist) && Nodes(g, Covered(p.nodes, end))
    requires k < |Sensors(g, Covered(p.nodes, end))|
    ensures |p.nodes| == |p.dirs| + 1 && Skipped(p.nodes, end) <= i <= j < |p.nodes| && IsPath(g, Between(p, i, j))
    ensures var s := Sensors(g, Covered(p.nodes, end));
      |SensorActions(s, dist)| == |s| && p.nodes[i] == s[k] &&
      SensorActions(s, dist)[k] == Action(s[k], SENSOR, 0, Length(g, Between(p, i, j))) &&
      if k + 1 < |s| then i < j && p.nodes[j] == s[k + 1] else i == j
    ensures forall x :: i < x < j ==> p.nodes[x] < |g| && g[p.nodes[x]].kind != Sensor
  {
    hide IsPath, Length, Covered, SensorActions, Sensors, RouteSearch.DistancesAlong, Between;
    var q, o := Covered(p.nodes, end), Skipped(p.nodes, end);
    var s := Sensors(g, q);
    SensorActionAt(s, dist, k);
    if k + 1 < |s| {
      i, j := NextSpot(g, q, k);
      forall x | i <= x <= j ensures o + x < |p.nodes| && q[x] == p.nodes[o + x] { CoveredAt(p.nodes, end, x); }
      assert s[k + 1..][0] == s[k + 1];
      i, j := o + i, o + j;
      forall x | i < x < j ensures p.nodes[x] < |g| && g[p.nodes[x]].kind != Sensor { assert q[x - o] == p.nodes[x]; }
    } else {
      i, j := SpotsInOrder(g, q, k, k);
      CoveredAt(p.nodes, end, j);
      i, j := o + j, o + j;
    }
    DistanceIs(g, p, dist, i, j);
  }

  ghost function GapSum(actions: seq<Action>): int {
    if actions == [] then 0 else GapSum(actions[..|actions| - 1]) + actions[|actions| - 1].info
  }

  lemma {:induction false} GapsTelescope(s: seq<nat>, dist: seq<int>, c: nat)
    requires c < |s|
    ensures |SensorActions(s, dist)| == |s| && GapSum(SensorActions(s, dist)[..c]) == At(dist, s[c]) - At(dist, s[0])
  {
    SensorActionAt(s, dist, c);
    if c > 0 {
      GapsTelescope(s, dist, c - 1);
      SensorActionAt(s, dist, c - 1);
      assert SensorActions(s, dist)[..c][..c - 1] == SensorActions(s, dist)[..c - 1];
      assert s[c - 1 + 1..][0] == s[c];
    }
  }

  // ----- and what a train drives -----

  /** How far a train drives from node v past n nodes. */
  ghost function DrivenLength(g: Graph, sw: map<int, int>, v: nat, n: nat): nat
    requires WellFormed(g) && v < |g|
  {
    if n == 0 then 0
    else
      var u := DriveN(g, sw, v, n - 1);
      assert WellFormedNode(g, u);
      DrivenLength(g, sw, v, n - 1) + g[u].edge[Leaving(g, sw, u)].dist
  }

  /** The switch picks the edge of the path by where it leads: at a branch that the path leaves straight, the curved
      edge must not lead to the same node over another distance. */
  ghost predicate ClearHop(g: Graph, p: Path, k: nat)
    requires WellFormed(g) && IsPath(g, p) && k < |p.dirs|
  {
    var v := p.nodes[k];
    assert WellFormedNode(g, v);
    g[v].kind == Branch && p.dirs[k] == DIR_STRAIGHT && g[v].edge[DIR_CURVED].dest == p.nodes[k + 1] ==>
      g[v].edge[DIR_CURVED].dist == g[v].edge[DIR_STRAIGHT].dist
  }

  ghost predicate Clear(g: Graph, p: Path, m: nat)
    requires WellFormed(g) && IsPath(g, p) && m <= |p.dirs|
  {
    forall k: nat :: k < m ==> ClearHop(g, p, k)
  }

  /** A branch that is set as wanted is left by an edge of the hop's length exactly at a clear hop. */
  lemma HopIsClearIff(g: Graph, p: Path, sw: map<int, int>, k: nat)
    requires WellFormed(g) && IsPath(g, p) && Nodes(g, p.nodes) && k < |p.dirs|
    requires g[p.nodes[k]].kind == Branch ==>
      g[p.nodes[k]].num in sw && sw[g[p.nodes[k]].num] == Wanted(g, p.nodes, k)
    ensures Leads(g, p.nodes[k], p.dirs[k], p.nodes[k + 1])
    ensures g[p.nodes[k]].edge[Leaving(g, sw, p.nodes[k])].dist == EdgeLength(g, p.nodes[k], p.dirs[k]) <==>
      ClearHop(g, p, k)
  {
    assert Leads(g, p.nodes[k], p.dirs[k], p.nodes[k + 1]);
    assert p.nodes[k + 1..][0] == p.nodes[k + 1];
  }

  lemma HopDrivenIff(g: Graph, p: Path, m: nat, tail: seq<Action>, sw: map<int, int>, k: nat)
    requires WellFormed(g) && Numbered(g) && IsPath(g, p) && Simple(p) && Nodes(g, p.nodes)
    requires k < m < |p.nodes|
    requires forall i :: 0 <= i < |tail| ==> tail[i].kind != SWITCH
    ensures p.nodes[k] < |g| && |g[p.nodes[k]].edge| == 2 && k < |p.dirs|
    ensures Leads(g, p.nodes[k], p.dirs[k], p.nodes[k + 1])
    ensures var sw' := Settings(Rev(SwitchesTo(g, p.nodes, m)) + tail, sw);
      g[p.nodes[k]].edge[Leaving(g, sw', p.nodes[k])].dist == EdgeLength(g, p.nodes[k], p.dirs[k]) <==>
        ClearHop(g, p, k)
  {
    hide SwitchesTo, Rev, Settings, Wanted, Numbered, Leaving, Leads, WellFormed, ClearHop;
    if g[p.nodes[k]].kind == Branch { BranchIsSet(g, p.nodes, m, tail, sw, k); }
    HopIsClearIff(g, p, Settings(Rev(SwitchesTo(g, p.nodes, m)) + tail, sw), k);
  }

  /** With the switches thrown, one node further along the path. */
  lemma DrivenStep(g: Graph, p: Path, m: nat, tail: seq<Action>, sw: map<int, int>, j: nat, k: nat)
    requires WellFormed(g) && Numbered(g) && IsPath(g, p) && Simple(p) && Nodes(g, p.nodes)
    requires j <= k < m < |p.nodes|
    requires forall i :: 0 <= i < |tail| ==> tail[i].kind != SWITCH
    ensures |p.nodes| == |p.dirs| + 1 && IsPath(g, Between(p, j, k)) && IsPath(g, Between(p, j, k + 1))
    ensures p.nodes[j] < |g|
    ensures var sw' := Settings(Rev(SwitchesTo(g, p.nodes, m)) + tail, sw);
      ClearHop(g, p, k) <==>
        DrivenLength(g, sw', p.nodes[j], k + 1 - j) - DrivenLength(g, sw', p.nodes[j], k - j) ==
        Length(g, Between(p, j, k + 1)) - Length(g, Between(p, j, k))
  {
    hide SwitchesTo, Rev, Settings, Numbered, Leaving, Leads, WellFormed, ClearHop, IsPath, Length, Simple, Between;
    PathNodes(g, p);
    BetweenStep(g, p, j, k);
    HopDrivenIff(g, p, m, tail, sw, k);
    SwitchesRealisePath(g, p, m, tail, sw, j, k);
  }

  lemma {:induction false} PartDriven(g: Graph, p: Path, m: nat, tail: seq<Action>, sw: map<int, int>, j: nat, k: nat)
    requires WellFormed(g) && Numbered(g) && IsPath(g, p) && Simple(p) && Nodes(g, p.nodes)
    requires j <= k <= m < |p.nodes|
    requires forall i :: 0 <= i < |tail| ==> tail[i].kind != SWITCH
    requires forall i: nat :: j <= i < k ==> ClearHop(g, p, i)
    ensures |p.nodes| == |p.dirs| + 1 && IsPath(g, Between(p, j, k)) && p.nodes[j] < |g|
    ensures DrivenLength(g, Settings(Rev(SwitchesTo(g, p.nodes, m)) + tail, sw), p.nodes[j], k - j) ==
      Length(g, Between(p, j, k))
    decreases k
  {
    hide SwitchesTo, Rev, Settings, Numbered, Leaving, Leads, WellFormed, ClearHop, IsPath, Length, Simple;
    PathNodes(g, p);
    BetweenIsPath(g, p, j, k);
    if j < k {
      PartDriven(g, p, m, tail, sw, j, k - 1);
      DrivenStep(g, p, m, tail, sw, j, k - 1);
    } else {
      assert Between(p, j, j) == Path([p.nodes[j]], []);
      NowhereLength(g, p.nodes[j]);
    }
  }

  /** What is driven along each part of the path is its length if and only if every hop is clear. */
  lemma DrivenIff(g: Graph, p: Path, m: nat, tail: seq<Action>, sw: map<int, int>)
    requires WellFormed(g) && Numbered(g) && IsPath(g, p) && Simple(p) && Nodes(g, p.nodes)
    requires m < |p.nodes| && forall i :: 0 <= i < |tail| ==> tail[i].kind != SWITCH
    ensures |p.nodes| == |p.dirs| + 1 && forall k :: 0 <= k < |p.nodes| ==> p.nodes[k] < |g|
    ensures Clear(g, p, m) <==> forall j: nat, k: nat :: j <= k <= m ==>
      IsPath(g, Between(p, j, k)) &&
      DrivenLength(g, Settings(Rev(SwitchesTo(g, p.nodes, m)) + tail, sw), p.nodes[j], k - j) ==
        Length(g, Between(p, j, k))
  {
    hide SwitchesTo, Rev, Settings, Numbered, Leaving, Leads, WellFormed, ClearHop, IsPath, Length, Simple,
      DrivenLength, Nodes;
    PathNodes(g, p);
    var sw' := Settings(Rev(SwitchesTo(g, p.nodes, m)) + tail, sw);
    if Clear(g, p, m) {
      forall j: nat, k: nat | j <= k <= m
        ensures IsPath(g, Between(p, j, k)) &&
          DrivenLength(g, sw', p.nodes[j], k - j) == Length(g, Between(p, j, k))
      {
        PartDriven(g, p, m, tail, sw, j, k);
      }
    } else {
      var k: nat :| k < m && !ClearHop(g, p, k);
      DrivenStep(g, p, m, tail, sw, k, k);
      assert k <= k + 1 <= m;
    }
  }

  // ----- the route handed over -----

  /** The path from position o on. */
  ghost function From(p: Path, o: nat): Path
    requires |p.nodes| == |p.dirs| + 1 && o <= |p.dirs|
  {
    Path(p.nodes[o..], p.dirs[o..])
  }

  lemma FromIsPath(g: Graph, p: Path, o: nat)
    requires WellFormed(g) && IsPath(g, p) && Simple(p) && o <= |p.dirs|
    ensures IsPath(g, From(p, o)) && Simple(From(p, o))
  {
    var r := From(p, o);
    forall k | 0 <= k < |r.dirs| ensures Leads(g, r.nodes[k], r.dirs[k], r.nodes[k + 1]) {
      assert Leads(g, p.nodes[o + k], p.dirs[o + k], p.nodes[o + k + 1]);
    }
  }

  lemma ClearFrom(g: Graph, p: Path, o: nat, m: nat)
    requires WellFormed(g) && IsPath(g, p) && o + m <= |p.dirs| && IsPath(g, From(p, o))
    requires Clear(g, p, o + m)
    ensures Clear(g, From(p, o), m)
  {
    hide WellFormed, IsPath;
    PathNodes(g, p);
    PathNodes(g, From(p, o));
    var r := From(p, o);
    forall x: nat | x < m ensures ClearHop(g, r, x) {
      assert ClearHop(g, p, o + x);
      assert r.nodes[x] == p.nodes[o + x] && r.nodes[x + 1] == p.nodes[o + x + 1] && r.dirs[x] == p.dirs[o + x];
    }
  }

  lemma BetweenFrom(p: Path, o: nat, i: nat, j: nat)
    requires |p.nodes| == |p.dirs| + 1 && o <= i <= j <= |p.dirs|
    ensures Between(From(p, o), i - o, j - o) == Between(p, i, j)
    ensures From(p, o).nodes[i - o] == p.nodes[i] && From(p, o).nodes[j - o] == p.nodes[j]
  {
    assert p.nodes[o..][i - o..j - o + 1] == p.nodes[i..j + 1];
    assert p.dirs[o..][i - o..j - o] == p.dirs[i..j];
  }

  lemma CoveredIsFrom(p: Path, end: int)
    requires |p.nodes| == |p.dirs| + 1 && Covered(p.nodes, end) != []
    ensures Skipped(p.nodes, end) <= |p.dirs| && From(p, Skipped(p.nodes, end)).nodes == Covered(p.nodes, end)
    ensures |Covered(p.nodes, end)| + Skipped(p.nodes, end) == |p.nodes|
  {
  }

  /** The same along the whole path, when its first node is left out or not. */
  lemma CoveredDriven(g: Graph, p: Path, end: int, m: nat, tail: seq<Action>, sw: map<int, int>, i: nat, j: nat)
    requires WellFormed(g) && Numbered(g) && IsPath(g, p) && Simple(p)
    requires Nodes(g, Covered(p.nodes, end)) && m < |Covered(p.nodes, end)|
    requires Skipped(p.nodes, end) <= i <= j <= Skipped(p.nodes, end) + m
    requires forall x :: 0 <= x < |tail| ==> tail[x].kind != SWITCH
    ensures |p.nodes| == |p.dirs| + 1 && j < |p.nodes| && p.nodes[i] < |g| && IsPath(g, Between(p, i, j))
    ensures Skipped(p.nodes, end) + m <= |p.dirs|
    ensures var sw' := Settings(Rev(SwitchesTo(g, Covered(p.nodes, end), m)) + tail, sw);
      DriveN(g, sw', p.nodes[i], j - i) == p.nodes[j] &&
      (Clear(g, p, Skipped(p.nodes, end) + m) ==>
        DrivenLength(g, sw', p.nodes[i], j - i) == Length(g, Between(p, i, j)))
  {
    hide *;
    PathNodes(g, p);
    CoveredIsFrom(p, end);
    BetweenIsPath(g, p, i, j);
    var o := Skipped(p.nodes, end);
    FromIsPath(g, p, o);
    BetweenFrom(p, o, i, j);
    var r := From(p, o);
    SwitchesRealisePath(g, r, m, tail, sw, i - o, j - o);
    if Clear(g, p, o + m) {
      ClearFrom(g, p, o, m);
      ClearHops(g, r, m);
      PartDriven(g, r, m, tail, sw, i - o, j - o);
    }
  }

  lemma ClearHops(g: Graph, p: Path, m: nat)
    requires WellFormed(g) && IsPath(g, p) && m <= |p.dirs| && Clear(g, p, m)
    ensures forall k: nat :: k < m ==> ClearHop(g, p, k)
  {
  }

  /** Up to the cut: the sensor a is not behind the sensor b <= c, and both lie before position m. */
  lemma BeforeCut(g: Graph, p: Path, end: int, c: nat, m: nat, a: nat, i: nat)
    requires IsCoveredSimple(g, p, end) && m < |Covered(p.nodes, end)|
    requires a <= c < |Sensors(g, Covered(p.nodes, end))|
    requires Covered(p.nodes, end)[m] == Sensors(g, Covered(p.nodes, end))[c]
    requires i < |p.nodes| && p.nodes[i] == Sensors(g, Covered(p.nodes, end))[a] && Skipped(p.nodes, end) <= i
    ensures i <= Skipped(p.nodes, end) + m
  {
    var q, o := Covered(p.nodes, end), Skipped(p.nodes, end);
    var x, y := SpotsInOrder(g, q, a, c);
    CoveredAt(p.nodes, end, x);
    CoveredAt(p.nodes, end, y);
    CoveredAt(p.nodes, end, m);
    assert i == o + x && m == y;
  }

  ghost predicate IsCoveredSimple(g: Graph, p: Path, end: int) {
    Simple(p) && Nodes(g, Covered(p.nodes, end))
  }

  /** What a route is: its switches, then its sensors up to the cut. */
  lemma CutParts(g: Graph, q: seq<nat>, dist: seq<int>, actions: seq<Action>, segments: seq<int>, node: nat, c: nat,
                 m: nat)
    requires WellFormed(g) && Cut(g, q, dist, actions, segments, node, c, m)
    ensures Nodes(g, q) && m < |q| && 1 <= c < |Sensors(g, q)| && q[m] == Sensors(g, q)[c] == node
    ensures |SensorActions(Sensors(g, q), dist)| == |Sensors(g, q)|
    ensures c < |actions|
    ensures var tail := SensorActions(Sensors(g, q), dist)[..c + 1];
      actions == Rev(SwitchesTo(g, q, m)) + tail && actions[|actions| - c - 1..] == tail &&
      forall x :: 0 <= x < |tail| ==> tail[x].kind != SWITCH
  {
    hide SensorActions, Realises, Crosses, Rev, SwitchesTo;
    SensorActionsThrowNothing(Sensors(g, q), dist);
  }

  /** With the route's switches thrown, a train that comes by one of its sensors meets the next one of the route before
      any other, and has then driven the distance in the action of the first, if the hops are clear. */
  lemma GapIsDriven(g: Graph, p: Path, end: int, dist: seq<int>, actions: seq<Action>, segments: seq<int>, node: nat,
                    c: nat, m: nat, sw: map<int, int>, k: nat)
    returns (n: nat)
    requires WellFormed(g) && Numbered(g) && IsPath(g, p) && Simple(p) && RouteSearch.DistancesAlong(g, p, dist)
    requires Cut(g, Covered(p.nodes, end), dist, actions, segments, node, c, m) && k < c
    ensures c < |actions| && Skipped(p.nodes, end) + m <= |p.dirs| && n > 0
    ensures var here, next, sw' := actions[|actions| - c - 1 + k], actions[|actions| - c + k], Settings(actions, sw);
      here.kind == SENSOR && next.kind == SENSOR && 0 <= here.sensorNum < |g| &&
      DriveN(g, sw', here.sensorNum, n) == next.sensorNum &&
      (forall x: nat :: 0 < x < n ==> g[DriveN(g, sw', here.sensorNum, x)].kind != Sensor) &&
      (Clear(g, p, Skipped(p.nodes, end) + m) ==> DrivenLength(g, sw', here.sensorNum, n) == here.info)
  {
    hide SwitchesTo, Rev, Settings, Numbered, WellFormed, ClearHop, IsPath, Length, DrivenLength, Nodes, Sensors, Clear;
    hide SensorActions, RouteSearch.DistancesAlong, Between, Covered, Skipped, Cut, Simple, DriveN;
    PathNodes(g, p);
    var q := Covered(p.nodes, end);
    CutParts(g, q, dist, actions, segments, node, c, m);
    var s := Sensors(g, q);
    var tail := SensorActions(s, dist)[..c + 1];
    var i, j := GapIsLength(g, p, end, dist, k);
    var next, next' := GapIsLength(g, p, end, dist, k + 1);
    assert actions[|actions| - c - 1..][k] == tail[k] && actions[|actions| - c - 1..][k + 1] == tail[k + 1];
    BeforeCut(g, p, end, c, m, k + 1, j);
    n := j - i;
    CoveredDriven(g, p, end, m, tail, sw, i, j);
    forall x: nat | 0 < x < n ensures g[DriveN(g, Settings(actions, sw), p.nodes[i], x)].kind != Sensor {
      CoveredDriven(g, p, end, m, tail, sw, i, i + x);
    }
  }

  /** The gaps before the last sensor of the route add up to what the train drives from its first sensor to there. */
  lemma GapsAreDriven(g: Graph, p: Path, end: int, dist: seq<int>, actions: seq<Action>, segments: seq<int>, node: nat,
                      c: nat, m: nat, sw: map<int, int>)
    returns (n: nat)
    requires WellFormed(g) && Numbered(g) && IsPath(g, p) && Simple(p) && RouteSearch.DistancesAlong(g, p, dist)
    requires Cut(g, Covered(p.nodes, end), dist, actions, segments, node, c, m)
    ensures c < |actions| && Skipped(p.nodes, end) + m <= |p.dirs|
    ensures var first, sw' := actions[|actions| - c - 1], Settings(actions, sw);
      0 <= first.sensorNum < |g| && DriveN(g, sw', first.sensorNum, n) == node &&
      (Clear(g, p, Skipped(p.nodes, end) + m) ==>
        DrivenLength(g, sw', first.sensorNum, n) == GapSum(actions[|actions| - c - 1..|actions| - 1]))
  {
    hide SwitchesTo, Rev, Settings, Numbered, WellFormed, ClearHop, IsPath, Length, DrivenLength, Nodes, Sensors, Clear;
    hide SensorActions, RouteSearch.DistancesAlong, Between, Covered, Skipped, Cut, DriveN;
    PathNodes(g, p);
    var q, o := Covered(p.nodes, end), Skipped(p.nodes, end);
    CutParts(g, q, dist, actions, segments, node, c, m);
    var s := Sensors(g, q);
    var tail := SensorActions(s, dist)[..c + 1];
    var i, i' := GapIsLength(g, p, end, dist, 0);
    BeforeCut(g, p, end, c, m, 0, i);
    CoveredAt(p.nodes, end, m);
    assert actions[|actions| - c - 1..][0] == tail[0];
    n := o + m - i;
    CoveredDriven(g, p, end, m, tail, sw, i, o + m);
    DistanceIs(g, p, dist, i, o + m);
    GapsTelescope(s, dist, c);
    assert actions[|actions| - c - 1..|actions| - 1] == SensorActions(s, dist)[..c];
  }

  // ----- a branch with both edges to one node -----

  lemma {:induction false} LengthAtMost(g: Graph, p: Path, d: nat)
    requires WellFormed(g) && IsPath(g, p)
    requires forall v: nat, i: nat :: v < |g| && i < NbhdSize(g[v].kind) ==> EdgeLength(g, v, i) <= d
    ensures Length(g, p) <= d * |p.dirs|
    decreases |p.dirs|
  {
    if |p.dirs| > 0 {
      var k := |p.dirs| - 1;
      PrefixStep(g, p, k);
      LengthAtMost(g, Prefix(p, k), d);
      assert Prefix(p, k + 1) == p;
    }
  }

  lemma {:induction false} MarksAtMost(g: Graph, q: seq<nat>)
    requires Nodes(g, q)
    ensures |Marks(g, q)| <= 3 * |q|
  {
    if q != [] { MarksAtMost(g, q[1..]); }
  }

  /** A small graph of short edges fits the keys and the stack. */
  lemma SmallFits(g: Graph, start: nat, end: nat, answers: nat -> bool)
    requires WellFormed(g) && |g| <= 40
    requires forall v: nat, i: nat :: v < |g| && i < NbhdSize(g[v].kind) ==> EdgeLength(g, v, i) <= 100
    ensures RouteSearch.FitsKeys(g, start, answers) && FitsStack(g, start, end)
  {
    forall p: Path, i: nat | IsPathFrom(g, p, start) && Simple(p) && i < NbhdSize(g[Last(p)].kind)
      ensures Length(g, p) + RouteSearch.IN_USE_PENALTY * EdgeLength(g, Last(p), i) < 65535
    {
      DistinctShort(p.nodes, |g|);
      LengthAtMost(g, p, 100);
    }
    forall p: Path | IsPathFrom(g, p, start) && Simple(p) && Nodes(g, p.nodes)
      ensures |Marks(g, p.nodes)| <= BRANCH_CAPACITY
    {
      DistinctShort(p.nodes, |g|);
      MarksAtMost(g, p.nodes);
    }
  }

  /** A sensor, a branch whose edges both lead to the next sensor, over 5 and over 7. */
  function Twins(): Graph {
    [TrackNode(Sensor, 0, 0, [Edge(1, 10), Edge(0, 0)], 0), TrackNode(Branch, 0, 1, [Edge(2, 5), Edge(2, 7)], 0),
     TrackNode(Sensor, 2, 2, [Edge(2, 1), Edge(0, 0)], 1)]
  }

  lemma TwinsFit()
    ensures WellFormed(Twins()) && Numbered(Twins()) && |Twins()| == 3
    ensures RouteSearch.FitsKeys(Twins(), 0, _ => false) && FitsStack(Twins(), 0, 2)
    ensures RouteSearch.NoLocks(_ => false)
  {
    var g := Twins();
    assert WellFormedNode(g, 0) && WellFormedNode(g, 1) && WellFormedNode(g, 2);
    SmallFits(g, 0, 2, _ => false);
  }

  /** The way from the first sensor to the second: straight or curved. */
  ghost function Way(d: nat): Path {
    Path([0, 1, 2], [0, d])
  }

  lemma TwinWay(d: nat)
    requires WellFormed(Twins()) && d < 2
    ensures IsPathFrom(Twins(), Way(d), 0) && Last(Way(d)) == 2 && Simple(Way(d))
    ensures Between(Way(d), 0, 2) == Way(d)
  {
    var g, p := Twins(), Way(d);
    forall k | 0 <= k < |p.dirs| ensures Leads(g, p.nodes[k], p.dirs[k], p.nodes[k + 1]) { }
  }

  lemma TwinLengths(d: nat)
    requires WellFormed(Twins()) && d < 2 && IsPath(Twins(), Way(d))
    ensures IsPath(Twins(), Between(Way(d), 0, 1)) && IsPath(Twins(), Between(Way(d), 0, 0))
    ensures Length(Twins(), Way(d)) == if d == 0 then 15 else 17
    ensures Length(Twins(), Between(Way(d), 0, 0)) == 0 && Length(Twins(), Between(Way(d), 0, 1)) == 10
  {
    hide WellFormed, IsPath, Length;
    var g, p := Twins(), Way(d);
    BetweenStep(g, p, 0, 0);
    BetweenStep(g, p, 0, 1);
    NowhereLength(g, 0);
    assert Between(p, 0, 0) == Path([0], []) && Between(p, 0, 2) == p;
  }

  /** There is no other way. */
  lemma OnlyTwinWays(p: Path)
    requires WellFormed(Twins()) && IsPathFrom(Twins(), p, 0) && Simple(p) && Last(p) == 2
    ensures p == Way(0) || p == Way(1)
  {
    var g := Twins();
    DistinctShort(p.nodes, 3);
    assert Leads(g, p.nodes[0], p.dirs[0], p.nodes[1]);
    assert Leads(g, p.nodes[1], p.dirs[1], p.nodes[2]);
    assert p.nodes == [0, 1, 2] && p.dirs == [0, p.dirs[1]];
  }

  lemma TwinHops()
    requires WellFormed(Twins()) && IsPath(Twins(), Way(0))
    ensures ClearHop(Twins(), Way(0), 0) && !ClearHop(Twins(), Way(0), 1)
    ensures Nodes(Twins(), [0, 1, 2]) && Sensors(Twins(), [0, 1, 2]) == [0, 2] && Crosses(Twins(), [0, 2])
    ensures Covered([0, 1, 2], RouteSearch.NONE) == [0, 1, 2]
  {
    var g := Twins();
    assert ChangesAt(g, [0, 2], 1);
    assert Sensors(g, [2]) == [2] + Sensors(g, []);
    assert [0, 1, 2][1..] == [1, 2] && [1, 2][1..] == [2];
    assert Sensors(g, [1, 2]) == Sensors(g, [2]);
    assert Sensors(g, [0, 1, 2]) == [0] + Sensors(g, [1, 2]);
  }

  /** The route found is the straight one. */
  lemma TwinShortest(p: Path, dist: seq<int>, stop: nat)
    requires WellFormed(Twins()) && Route(Twins(), 0, 2, true, p, dist, stop)
    ensures p == Way(0) && p.nodes == [0, 1, 2] && stop == 2 && RouteSearch.DistancesAlong(Twins(), p, dist)
  {
    hide RouteSearch.DistancesAlong, WellFormed, IsPath, Simple, Length;
    TwinWay(0);
    TwinWay(1);
    TwinLengths(0);
    TwinLengths(1);
    OnlyTwinWays(p);
    assert RouteSearch.IsTarget(Twins(), 2, Last(Way(0)));
  }

  lemma TwinLast(sw: map<int, int>)
    requires WellFormed(Twins()) && DriveN(Twins(), sw, 0, 1) == 1
    ensures var last := DrivenLength(Twins(), sw, 0, 2) - DrivenLength(Twins(), sw, 0, 1); last == 5 || last == 7
  {
  }

  lemma ARouteThere(p: Path)
    requires WellFormed(Twins()) && IsPathFrom(Twins(), p, 0) && Last(p) == 2
    ensures !RouteSearch.NoRoute(Twins(), 0, 2)
  {
    assert RouteSearch.IsTarget(Twins(), 2, Last(p));
  }

  /** The distance in its first action, and the one driven. */
  lemma TwinDriven(dist: seq<int>, actions: seq<Action>, segments: seq<int>, node: nat, c: nat, m: nat,
                   sw: map<int, int>)
    requires WellFormed(Twins()) && Numbered(Twins()) && IsPath(Twins(), Way(0))
    requires RouteSearch.DistancesAlong(Twins(), Way(0), dist)
    requires Cut(Twins(), [0, 1, 2], dist, actions, segments, node, c, m)
    ensures |actions| >= 2 && var here, next := actions[|actions| - 2], actions[|actions| - 1];
      here == Action(0, SENSOR, 0, 15) && next.kind == SENSOR && next.sensorNum == 2 &&
      DriveN(Twins(), Settings(actions, sw), 0, 2) == 2 && DrivenLength(Twins(), Settings(actions, sw), 0, 2) == 17
  {
    hide RouteSearch.DistancesAlong, WellFormed, IsPath, Length, Settings, Rev, SwitchesTo, DriveN, Numbered, ClearHop,
      Sensors, Nodes, SensorActions, Cut, Covered, Leaving, Twins, Simple, Between;
    var g, p := Twins(), Way(0);
    TwinWay(0);
    TwinLengths(0);
    TwinHops();
    CutParts(g, p.nodes, dist, actions, segments, node, c, m);
    assert c == 1 && p.nodes[0] == 0 && p.nodes[1] == 1 && p.nodes[2] == 2;
    var tail := SensorActions([0, 2], dist)[..2];
    var i, j := GapIsLength(g, p, RouteSearch.NONE, dist, 0);
    assert i == 0 && j == 2;
    var i', j' := GapIsLength(g, p, RouteSearch.NONE, dist, 1);
    assert actions[|actions| - 2..][0] == tail[0] && actions[|actions| - 2..][1] == tail[1];
    DrivenStep(g, p, 2, tail, sw, 0, 0);
    DrivenStep(g, p, 2, tail, sw, 0, 1);
    SwitchesRealisePath(g, p, 2, tail, sw, 0, 1);
    SwitchesRealisePath(g, p, 2, tail, sw, 0, 2);
    TwinLast(Settings(actions, sw));
  }

  /** The planner takes the straight edge, and the switch list the curved one: the train drives 17, not 15. */
  method TwinEdgesMislead() returns (path: RoutingActionQueue)
    ensures WellFormed(Twins()) && path.Valid() && |path.actions| >= 2
    ensures var here, next := path.actions[|path.actions| - 2], path.actions[|path.actions| - 1];
      here == Action(0, SENSOR, 0, 15) && next.kind == SENSOR && next.sensorNum == 2
    ensures forall sw: map<int, int> :: var sw' := Settings(path.actions, sw);
      DriveN(Twins(), sw', 0, 2) == 2 && DrivenLength(Twins(), sw', 0, 2) == 17
  {
    hide *;
    TwinsFit();
    TwinWay(0);
    TwinHops();
    ARouteThere(Way(0));
    var plan, segments;
    ghost var p, dist, order, tree, c, m;
    plan, path, segments, p, dist, order, tree, c, m := PlanConstantRoute(Twins(), 0, 2, true, _ => false);
    TwinShortest(p, dist, Last(p));
    TwinDriven(dist, path.actions, segments.Contents(), plan.node, c, m, map[]);
    forall sw: map<int, int>
      ensures var sw' := Settings(path.actions, sw);
        DriveN(Twins(), sw', 0, 2) == 2 && DrivenLength(Twins(), sw', 0, 2) == 17
    {
      TwinDriven(dist, path.actions, segments.Contents(), plan.node, c, m, sw);
    }
  }
}
