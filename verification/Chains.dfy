/** Intrusive singly linked lists: a column of links, indexed by element, and a head (NULL ends a list). */
module Chains {

  const NULL: int := -1

  ghost function HeadOf(s: seq<nat>): int {
    if s == [] then NULL else s[0]
  }

  ghost function LastOf(s: seq<nat>): int {
    if s == [] then NULL else s[|s| - 1]
  }

  /** The links lead from head through exactly the elements of s, each once, and end. */
  ghost predicate Chain(link: seq<int>, head: int, s: seq<nat>)
    decreases |s|
  {
    if s == [] then head == NULL
    else head == s[0] && s[0] < |link| && s[0] !in s[1..] && Chain(link, link[s[0]], s[1..])
  }

  lemma {:induction false} ChainMembers(link: seq<int>, head: int, s: seq<nat>)
    requires Chain(link, head, s)
    ensures head == HeadOf(s)
    ensures forall x :: x in s ==> x < |link|
    decreases |s|
  {
    if s != [] {
      ChainMembers(link, link[s[0]], s[1..]);
      assert s == [s[0]] + s[1..];
    }
  }

  lemma {:induction false} ChainDistinct(link: seq<int>, head: int, s: seq<nat>, j: nat, k: nat)
    requires Chain(link, head, s) && j < k < |s|
    ensures s[j] != s[k]
    decreases |s|
  {
    if j == 0 {
      assert s[k] == s[1..][k - 1];
    } else {
      ChainDistinct(link, link[s[0]], s[1..], j - 1, k - 1);
    }
  }

  ghost predicate NoRepeats(s: seq<nat>) {
    s == [] || (s[0] !in s[1..] && NoRepeats(s[1..]))
  }

  lemma {:induction false} ChainNoRepeats(link: seq<int>, head: int, s: seq<nat>)
    requires Chain(link, head, s)
    ensures NoRepeats(s)
    decreases |s|
  {
    if s != [] { ChainNoRepeats(link, link[s[0]], s[1..]); }
  }

  /** A list only depends on the links of its own elements. */
  lemma {:induction false} ChainFrame(link: seq<int>, link': seq<int>, head: int, s: seq<nat>)
    requires Chain(link, head, s) && |link'| == |link|
    requires forall x :: x in s && x < |link| ==> link'[x] == link[x]
    ensures Chain(link', head, s)
    decreases |s|
  {
    if s != [] {
      assert s[0] in s;
      forall x | x in s[1..] && x < |link| ensures link'[x] == link[x] { assert x in s; }
      ChainFrame(link, link', link[s[0]], s[1..]);
    }
  }

  lemma ChainOther(link: seq<int>, head: int, s: seq<nat>, x: nat, v: int)
    requires Chain(link, head, s) && x !in s && x < |link|
    ensures Chain(link[x := v], head, s)
  {
    ChainFrame(link, link[x := v], head, s);
  }

  lemma ChainTail(link: seq<int>, head: int, s: seq<nat>)
    requires Chain(link, head, s) && s != []
    ensures 0 <= head < |link| && Chain(link, link[head], s[1..]) && head !in s[1..]
  {
  }

  lemma {:induction false} ChainsAgree(link: seq<int>, head: int, s: seq<nat>, q: seq<nat>)
    requires Chain(link, head, s) && Chain(link, head, q)
    ensures s == q
    decreases |s|
  {
    if s != [] { ChainsAgree(link, link[s[0]], s[1..], q[1..]); }
  }

  /** What the links lead through behind the element at position k. */
  lemma {:induction false} ChainSuffix(link: seq<int>, head: int, s: seq<nat>, k: nat)
    requires Chain(link, head, s) && k < |s|
    ensures s[k] < |link| && Chain(link, link[s[k]], s[k + 1..])
    decreases |s|
  {
    if k > 0 {
      ChainSuffix(link, link[s[0]], s[1..], k - 1);
      assert s[1..][k..] == s[k + 1..];
    }
  }

  /** Redirecting the last link of one list to x, which heads another, joins them. */
  lemma {:induction false} ChainJoin(link: seq<int>, head: int, s: seq<nat>, x: nat, q: seq<nat>)
    requires Chain(link, head, s) && s != [] && x < |link| && x !in s && x !in q && Chain(link, link[x], q)
    requires forall y :: y in s ==> y !in q
    ensures s[|s| - 1] < |link| && Chain(link[s[|s| - 1] := x], head, s + [x] + q)
    decreases |s|
  {
    var y, z := s[0], s[|s| - 1];
    assert (s + [x] + q)[1..] == s[1..] + [x] + q && y !in s[1..] + [x] + q;
    if |s| == 1 {
      assert s[1..] + [x] + q == [x] + q && ([x] + q)[1..] == q;
      ChainOther(link, link[x], q, z, x);
    } else {
      ChainJoin(link, link[y], s[1..], x, q);
    }
  }

  /** From inside a set of elements whose links stay in it, the links never end. */
  lemma {:induction false} ClosedNeverEnds(link: seq<int>, head: int, q: seq<nat>, inside: set<nat>)
    requires forall x :: x in inside ==> x < |link| && 0 <= link[x] && link[x] in inside
    requires 0 <= head && head in inside
    ensures !Chain(link, head, q)
    decreases |q|
  {
    if q != [] && q[0] == head { ClosedNeverEnds(link, link[head], q[1..], inside); }
  }

  /** The last element's link is NULL. */
  lemma {:induction false} ChainEnds(link: seq<int>, head: int, s: seq<nat>)
    requires Chain(link, head, s) && s != []
    ensures s[|s| - 1] < |link| && link[s[|s| - 1]] == NULL
    decreases |s|
  {
    if |s| > 1 { ChainEnds(link, link[s[0]], s[1..]); }
  }

  /** Every other element's link is its successor. */
  lemma {:induction false} ChainSucc(link: seq<int>, head: int, s: seq<nat>, k: nat)
    requires Chain(link, head, s) && k + 1 < |s|
    ensures s[k] < |link| && link[s[k]] == s[k + 1]
    decreases |s|
  {
    if k > 0 { ChainSucc(link, link[s[0]], s[1..], k - 1); }
  }

  lemma ChainStep(link: seq<int>, head: int, s: seq<nat>, k: nat)
    requires Chain(link, head, s) && k < |s|
    ensures s[k] < |link| && s[k] in s && HeadOf(s[k..]) == s[k] && link[s[k]] == HeadOf(s[k + 1..])
  {
    ChainMembers(link, head, s);
    if k + 1 < |s| { ChainSucc(link, head, s, k); } else { ChainEnds(link, head, s); }
  }

  lemma ChainPrepend(link: seq<int>, head: int, s: seq<nat>, x: nat)
    requires Chain(link, head, s) && x < |link| && x !in s
    ensures Chain(link[x := head], x, [x] + s)
  {
    ChainOther(link, head, s, x, head);
    assert ([x] + s)[1..] == s;
  }

  lemma {:induction false} ChainAppend(link: seq<int>, head: int, s: seq<nat>, x: nat)
    requires Chain(link, head, s) && x < |link| && x !in s
    ensures s == [] ==> Chain(link[x := NULL], x, s + [x])
    ensures s != [] ==> s[|s| - 1] < |link| && Chain(link[x := NULL][s[|s| - 1] := x], head, s + [x])
    decreases |s|
  {
    if s == [] {
      assert [x][1..] == [];
    } else {
      var y := s[0];
      assert (s + [x])[1..] == s[1..] + [x];
      ChainAppend(link, link[y], s[1..], x);
      if |s| == 1 {
        assert link[x := NULL][y := x][y] == x;
        ChainOther(link[x := NULL], x, s[1..] + [x], y, x);
      } else {
        assert s[1..][|s| - 2] == s[|s| - 1] && s[|s| - 1] in s[1..];
      }
    }
  }

  ghost function Without(s: seq<nat>, k: nat): seq<nat>
    requires k < |s|
  {
    s[..k] + s[k + 1..]
  }

  /** Unlinking the first element; its own link no longer matters. */
  lemma ChainRemoveHead(link: seq<int>, head: int, s: seq<nat>, v: int)
    requires Chain(link, head, s) && s != []
    ensures 0 <= head < |link| && Chain(link[head := v], link[head], Without(s, 0))
  {
    ChainTail(link, head, s);
    assert Without(s, 0) == s[1..];
    ChainOther(link, link[head], s[1..], head, v);
  }

  /** Unlinking the element at position k > 0 through its predecessor. */
  lemma {:induction false} ChainRemove(link: seq<int>, head: int, s: seq<nat>, k: nat)
    requires Chain(link, head, s) && 1 <= k < |s|
    ensures s[k - 1] < |link| && s[k] < |link| && Chain(link[s[k - 1] := link[s[k]]], head, Without(s, k))
    decreases |s|
  {
    var y := s[0];
    assert Without(s, k)[0] == y && Without(s, k)[1..] == s[1..][..k - 1] + s[1..][k..];
    WithoutMember(s[1..], k - 1, y);
    if k == 1 {
      ChainTail(link, link[y], s[1..]);
      assert s[1..][..0] + s[1..][1..] == s[1..][1..];
      ChainOther(link, link[s[1]], s[1..][1..], y, link[s[1]]);
    } else {
      ChainRemove(link, link[y], s[1..], k - 1);
      assert s[1..][k - 2] == s[k - 1] && s[1..][k - 1] == s[k] && s[k - 1] in s[1..];
    }
  }

  lemma WithoutMember(s: seq<nat>, k: nat, x: nat)
    requires k < |s| && x !in s
    ensures x !in Without(s, k)
  {
  }

  /** Linking x in after position k - 1. */
  lemma {:induction false} ChainInsert(link: seq<int>, head: int, s: seq<nat>, k: nat, x: nat)
    requires Chain(link, head, s) && 1 <= k <= |s| && x < |link| && x !in s
    ensures s[k - 1] < |link|
    ensures Chain(link[s[k - 1] := x][x := HeadOf(s[k..])], head, s[..k] + [x] + s[k..])
    decreases |s|
  {
    var y := s[0];
    var t := s[..k] + [x] + s[k..];
    assert t[0] == y && t[1..] == s[1..k] + [x] + s[k..];
    if k == 1 {
      ChainMembers(link, link[y], s[1..]);
      ChainPrepend(link, link[y], s[1..], x);
      assert t[1..] == [x] + s[1..];
      ChainOther(link[x := link[y]], x, [x] + s[1..], y, x);
      assert link[x := link[y]][y := x] == link[y := x][x := link[y]];
    } else {
      ChainInsert(link, link[y], s[1..], k - 1, x);
      assert s[1..][..k - 1] == s[1..k] && s[1..][k - 1..] == s[k..] && s[1..][k - 2] == s[k - 1];
      assert s[k - 1] in s[1..];
      assert y !in t[1..] by { InsertMembers(s[1..], k - 1, x, y); }
    }
  }

  lemma InsertMembers(s: seq<nat>, k: nat, x: nat, y: nat)
    requires k <= |s|
    ensures y in s[..k] + [x] + s[k..] <==> y == x || y in s
  {
    assert s == s[..k] + s[k..];
  }

  lemma {:induction false} WithoutMembers(link: seq<int>, head: int, s: seq<nat>, k: nat, x: nat)
    requires Chain(link, head, s) && k < |s|
    ensures x in Without(s, k) <==> x in s && x != s[k]
  {
    assert s == s[..k] + [s[k]] + s[k + 1..];
    if s[k] in Without(s, k) {
      var i :| 0 <= i < |Without(s, k)| && Without(s, k)[i] == s[k];
      var j := if i < k then i else i + 1;
      assert s[j] == s[k];
      if j < k { ChainDistinct(link, head, s, j, k); } else { ChainDistinct(link, head, s, k, j); }
    }
  }
}
