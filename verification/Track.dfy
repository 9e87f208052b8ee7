/** Track graphs (track-control/include/track-node.h) and paths in them. */
module Track {

  datatype NodeKind = NodeNone | Sensor | Branch | Merge | Enter | Exit

  /** An edge to the node with index dest, dist millimetres long. */
  datatype Edge = Edge(dest: nat, dist: nat)

  datatype TrackNode = TrackNode(kind: NodeKind, num: int, reverse: nat, edge: seq<Edge>, segment: nat)

  type Graph = seq<TrackNode>

  const N_SEGMENTS := 31
  const DIR_STRAIGHT := 0
  const DIR_CURVED := 1

  /** How many of a node's two edge slots lead somewhere. */
  function NbhdSize(kind: NodeKind): nat {
    match kind
    case Branch => 2
    case Exit => 0
    case _ => 1
  }

  ghost predicate WellFormedNode(g: Graph, v: nat)
    requires v < |g|
  {
    |g[v].edge| == 2 && g[v].reverse < |g| && g[v].segment < N_SEGMENTS &&
    (forall i :: 0 <= i < NbhdSize(g[v].kind) ==> g[v].edge[i].dest < |g|)
  }

  ghost predicate WellFormed(g: Graph) {
    0 < |g| <= 256 && forall v: nat :: v < |g| ==> WellFormedNode(g, v)
  }

  ghost function EdgeAt(g: Graph, u: nat, i: nat): (e: Edge)
    requires WellFormed(g) && u < |g| && i < NbhdSize(g[u].kind)
    ensures e.dest < |g|
  {
    assert WellFormedNode(g, u);
    g[u].edge[i]
  }

  /** Leaving u by its edge number i leads to w. */
  ghost predicate Leads(g: Graph, u: nat, i: nat, w: nat)
    requires WellFormed(g)
  {
    u < |g| && i < NbhdSize(g[u].kind) && EdgeAt(g, u, i).dest == w
  }

  /** A path: the nodes passed, and the edge number chosen at all but the last of them. */
  datatype Path = Path(nodes: seq<nat>, dirs: seq<nat>)

  ghost predicate IsPath(g: Graph, p: Path)
    requires WellFormed(g)
  {
    |p.nodes| == |p.dirs| + 1 &&
    (forall k :: 0 <= k < |p.nodes| ==> p.nodes[k] < |g|) &&
    (forall k :: 0 <= k < |p.dirs| ==> Leads(g, p.nodes[k], p.dirs[k], p.nodes[k + 1]))
  }

  ghost predicate IsPathFrom(g: Graph, p: Path, s: nat)
    requires WellFormed(g)
  {
    IsPath(g, p) && p.nodes[0] == s
  }

  ghost function Last(p: Path): nat {
    if p.nodes == [] then 0 else p.nodes[|p.nodes| - 1]
  }

  ghost predicate Simple(p: Path) {
    forall j, k :: 0 <= j < k < |p.nodes| ==> p.nodes[j] != p.nodes[k]
  }

  ghost function EdgeLength(g: Graph, u: nat, i: nat): nat
    requires WellFormed(g) && u < |g| && i < NbhdSize(g[u].kind)
  {
    EdgeAt(g, u, i).dist
  }

  /** The path without its last hop. */
  ghost function Init(p: Path): Path
    requires |p.nodes| == |p.dirs| + 1 && |p.dirs| > 0
  {
    Path(p.nodes[..|p.dirs|], p.dirs[..|p.dirs| - 1])
  }

  ghost function Prefix(p: Path, k: nat): Path
    requires |p.nodes| == |p.dirs| + 1 && k <= |p.dirs|
  {
    Path(p.nodes[..k + 1], p.dirs[..k])
  }

  ghost function Length(g: Graph, p: Path): nat
    requires WellFormed(g) && IsPath(g, p)
    decreases |p.dirs|
  {
    if |p.dirs| == 0 then 0
    else
      var k := |p.dirs| - 1;
      PrefixIsPath(g, p, k);
      assert Leads(g, p.nodes[k], p.dirs[k], p.nodes[k + 1]);
      Length(g, Prefix(p, k)) + EdgeLength(g, p.nodes[k], p.dirs[k])
  }

  lemma PrefixIsPath(g: Graph, p: Path, k: nat)
    requires WellFormed(g) && IsPath(g, p) && k <= |p.dirs|
    ensures IsPath(g, Prefix(p, k))
  {
  }

  ghost function Extend(p: Path, i: nat, w: nat): Path {
    Path(p.nodes + [w], p.dirs + [i])
  }

  lemma ExtendIsPath(g: Graph, p: Path, i: nat, w: nat)
    requires WellFormed(g) && IsPath(g, p) && Leads(g, Last(p), i, w)
    ensures IsPath(g, Extend(p, i, w))
    ensures Length(g, Extend(p, i, w)) == Length(g, p) + EdgeLength(g, Last(p), i)
  {
    var q := Extend(p, i, w);
    assert WellFormedNode(g, Last(p));
    forall k | 0 <= k < |q.dirs| ensures Leads(g, q.nodes[k], q.dirs[k], q.nodes[k + 1]) {
      if k < |p.dirs| { assert Leads(g, p.nodes[k], p.dirs[k], p.nodes[k + 1]); }
    }
    assert Prefix(q, |p.dirs|) == p;
  }

  /** A longer prefix is at least as long. */
  lemma {:induction false} PrefixShorter(g: Graph, p: Path, k: nat)
    requires WellFormed(g) && IsPath(g, p) && k <= |p.dirs|
    ensures IsPath(g, Prefix(p, k)) && Length(g, Prefix(p, k)) <= Length(g, p)
    decreases |p.dirs| - k
  {
    PrefixIsPath(g, p, k);
    if k < |p.dirs| {
      PrefixStep(g, p, k);
      PrefixShorter(g, p, k + 1);
    } else {
      assert Prefix(p, k) == p;
    }
  }

  lemma PrefixStep(g: Graph, p: Path, k: nat)
    requires WellFormed(g) && IsPath(g, p) && k < |p.dirs|
    ensures IsPath(g, Prefix(p, k)) && IsPath(g, Prefix(p, k + 1))
    ensures Leads(g, p.nodes[k], p.dirs[k], p.nodes[k + 1])
    ensures Length(g, Prefix(p, k + 1)) == Length(g, Prefix(p, k)) + EdgeLength(g, p.nodes[k], p.dirs[k])
  {
    PrefixIsPath(g, p, k);
    PrefixIsPath(g, p, k + 1);
    assert Prefix(Prefix(p, k + 1), k) == Prefix(p, k);
  }

  lemma PathNodes(g: Graph, p: Path)
    requires WellFormed(g) && IsPath(g, p)
    ensures |p.nodes| == |p.dirs| + 1 && forall k :: 0 <= k < |p.nodes| ==> p.nodes[k] < |g|
  {
  }

  lemma NowhereLength(g: Graph, v: nat)
    requires WellFormed(g) && v < |g|
    ensures IsPath(g, Path([v], [])) && Length(g, Path([v], [])) == 0
  {
  }

  /** The part of a path between two of its positions. */
  ghost function Between(p: Path, i: nat, j: nat): Path
    requires |p.nodes| == |p.dirs| + 1 && i <= j <= |p.dirs|
  {
    Path(p.nodes[i..j + 1], p.dirs[i..j])
  }

  lemma BetweenIsPath(g: Graph, p: Path, i: nat, j: nat)
    requires WellFormed(g) && IsPath(g, p) && i <= j <= |p.dirs|
    ensures IsPath(g, Between(p, i, j))
  {
    var r := Between(p, i, j);
    forall k | 0 <= k < |r.dirs| ensures Leads(g, r.nodes[k], r.dirs[k], r.nodes[k + 1]) {
      assert Leads(g, p.nodes[i + k], p.dirs[i + k], p.nodes[i + k + 1]);
    }
  }

  /** One more hop. */
  lemma BetweenStep(g: Graph, p: Path, i: nat, j: nat)
    requires WellFormed(g) && IsPath(g, p) && i <= j < |p.dirs|
    ensures IsPath(g, Between(p, i, j)) && IsPath(g, Between(p, i, j + 1))
    ensures Leads(g, p.nodes[j], p.dirs[j], p.nodes[j + 1])
    ensures Length(g, Between(p, i, j + 1)) == Length(g, Between(p, i, j)) + EdgeLength(g, p.nodes[j], p.dirs[j])
  {
    BetweenIsPath(g, p, i, j);
    BetweenIsPath(g, p, i, j + 1);
    var r := Between(p, i, j + 1);
    assert Prefix(r, j - i) == Between(p, i, j);
    assert r.nodes[j - i] == p.nodes[j] && r.dirs[j - i] == p.dirs[j];
  }

  /** The length of a part is what the longer prefix has more. */
  lemma {:induction false} BetweenLength(g: Graph, p: Path, i: nat, j: nat)
    requires WellFormed(g) && IsPath(g, p) && i <= j <= |p.dirs|
    ensures IsPath(g, Between(p, i, j)) && IsPath(g, Prefix(p, i)) && IsPath(g, Prefix(p, j))
    ensures Length(g, Prefix(p, j)) == Length(g, Prefix(p, i)) + Length(g, Between(p, i, j))
    decreases j
  {
    hide IsPath, WellFormed, EdgeLength, Length, Leads;
    PathNodes(g, p);
    BetweenIsPath(g, p, i, j);
    PrefixIsPath(g, p, i);
    PrefixIsPath(g, p, j);
    if i < j {
      BetweenLength(g, p, i, j - 1);
      BetweenStep(g, p, i, j - 1);
      PrefixStep(g, p, j - 1);
    } else {
      assert Between(p, i, i) == Path([p.nodes[i]], []);
      NowhereLength(g, p.nodes[i]);
    }
  }

  /** A path from inside a set to outside it has a first edge that leaves the set. */
  lemma {:induction false} LeavesSomewhere(g: Graph, p: Path, inside: set<nat>, k: nat) returns (m: nat)
    requires WellFormed(g) && IsPath(g, p) && k < |p.nodes|
    requires forall j :: 0 <= j <= k ==> p.nodes[j] in inside
    requires Last(p) !in inside
    ensures k <= m < |p.dirs| && p.nodes[m + 1] !in inside
    ensures forall j :: 0 <= j <= m ==> p.nodes[j] in inside
    decreases |p.nodes| - k
  {
    if p.nodes[k + 1] in inside {
      m := LeavesSomewhere(g, p, inside, k + 1);
    } else {
      m := k;
    }
  }
}
