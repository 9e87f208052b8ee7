/** The binary min-heap of src/priority-queue.c, in place on an array of 256 nodes. */
module Heap {

  const MAX_PQ_ELEMENTS := 256

  datatype Node = Node(priority: nat, value: int)

  datatype Option<T> = None | Some(get: T)

  /** PARENT(i) is (i - 1) / 2 in C, which truncates toward zero: index 0 is its own parent. */
  function Parent(i: nat): nat {
    if i == 0 then 0 else (i - 1) / 2
  }

  /** Heap order on every edge of the first n nodes whose upper end is at lo or later. */
  ghost predicate OrderedFrom(a: seq<Node>, n: nat, lo: nat)
    requires n <= |a|
  {
    forall j :: 1 <= j < n && lo <= Parent(j) ==> a[Parent(j)].priority <= a[j].priority
  }

  ghost predicate Ordered(a: seq<Node>, n: nat)
    requires n <= |a|
  {
    OrderedFrom(a, n, 0)
  }

  /** Order everywhere except below node i, and the children of i respect the parent of i. */
  ghost predicate OrderedButDown(a: seq<Node>, n: nat, lo: nat, i: nat)
    requires n <= |a|
  {
    (forall j :: 1 <= j < n && lo <= Parent(j) && Parent(j) != i ==> a[Parent(j)].priority <= a[j].priority) &&
    (forall j :: 1 <= j < n && Parent(j) == i && 1 <= i && lo <= Parent(i) ==> a[Parent(i)].priority <= a[j].priority)
  }

  /** Order everywhere except above node i, and the children of i respect the parent of i. */
  ghost predicate OrderedButUp(a: seq<Node>, n: nat, i: nat)
    requires n <= |a|
  {
    (forall j :: 1 <= j < n && j != i ==> a[Parent(j)].priority <= a[j].priority) &&
    (forall j :: 1 <= j < n && Parent(j) == i && 1 <= i ==> a[Parent(i)].priority <= a[j].priority)
  }

  /** No child of node i has a key below the given one. */
  ghost predicate RespectsChildren(a: seq<Node>, n: nat, i: nat, key: nat)
    requires n <= |a|
  {
    forall c :: 1 <= c < n && Parent(c) == i ==> key <= a[c].priority
  }

  function Swapped(a: seq<Node>, i: nat, j: nat): (b: seq<Node>)
    requires i < |a| && j < |a|
    ensures |b| == |a|
  {
    a[i := a[j]][j := a[i]]
  }

  /** Where the least of node i and its children is: i when no child is less, the left one when both are alike. */
  function LeastOf(a: seq<Node>, n: nat, i: nat): (m: nat)
    requires i < |a| && n <= |a|
    ensures m == i || (i < m < n && (m == 2 * i + 1 || m == 2 * i + 2))
  {
    var left, right := 2 * i + 1, 2 * i + 2;
    var m := if left < n && a[left].priority < a[i].priority then left else i;
    if right < n && a[right].priority < a[m].priority then right else m
  }

  /** The nodes after node i has sunk. */
  ghost function Sifted(a: seq<Node>, n: nat, i: nat): (b: seq<Node>)
    requires i < |a| && n <= |a|
    ensures |b| == |a|
    decreases n - i
  {
    var m := LeastOf(a, n, i);
    if m == i then a else Sifted(Swapped(a, i, m), n, m)
  }

  /** The nodes after those from n / 2 - 1 down to k have sunk. */
  ghost function Heapified(a: seq<Node>, n: nat, k: nat): (b: seq<Node>)
    requires n <= |a|
    ensures |b| == |a|
    decreases n - k
  {
    if k < n / 2 then Sifted(Heapified(a, n, k + 1), n, k) else a
  }

  /** The nodes after the root has left: the last one takes its place and sinks. */
  ghost function AfterPop(a: seq<Node>, n: nat): (b: seq<Node>)
    requires 0 < n <= |a|
    ensures |b| == |a|
  {
    Sifted(a[0 := a[n - 1]], n - 1, 0)
  }

  /** b holds the same nodes as a among the first n, and the same beyond. */
  ghost predicate Permuted(a: seq<Node>, b: seq<Node>, n: nat)
    requires n <= |a|
  {
    |b| == |a| && multiset(b[..n]) == multiset(a[..n]) && b[n..] == a[n..]
  }

  lemma SwapPermutes(a: seq<Node>, i: nat, j: nat, n: nat)
    requires i < n <= |a| && j < n
    ensures Permuted(a, Swapped(a, i, j), n)
  {
    var p := a[..n];
    assert Swapped(a, i, j)[..n] == p[i := a[j]][j := a[i]];
    assert Swapped(a, i, j)[n..] == a[n..];
    if i != j {
      assert multiset(p[i := a[j]]) == multiset(p) - multiset{a[i]} + multiset{a[j]};
      assert p[i := a[j]][j] == a[j];
    } else {
      assert p[i := a[j]][j := a[i]] == p;
    }
  }

  lemma PermutedSelf(a: seq<Node>, n: nat)
    requires n <= |a|
    ensures Permuted(a, a, n)
  {
  }

  lemma PermutedTrans(a: seq<Node>, b: seq<Node>, c: seq<Node>, n: nat)
    requires n <= |a| && Permuted(a, b, n) && Permuted(b, c, n)
    ensures Permuted(a, c, n)
  {
  }

  /** The nodes of the second half have no children. */
  lemma LeavesOrdered(a: seq<Node>, n: nat)
    requires n <= |a|
    ensures OrderedFrom(a, n, n / 2)
  {
  }

  lemma OneMoreDefect(a: seq<Node>, n: nat, i: nat)
    requires n <= |a| && OrderedFrom(a, n, i + 1)
    ensures OrderedButDown(a, n, i, i)
  {
  }

  lemma PermutedEntries(a: seq<Node>, b: seq<Node>, n: nat)
    requires n <= |a| && Permuted(a, b, n)
    ensures |b| == |a| && multiset(b[..n]) == multiset(a[..n])
  {
  }

  lemma HeapifiedIs(a: seq<Node>, n: nat, k: nat)
    requires n <= |a|
    ensures Heapified(a, n, k) == if k < n / 2 then Sifted(Heapified(a, n, k + 1), n, k) else a
  {
  }

  /** Moving a too large node below its smaller child pushes the defect one level down. */
  lemma SwapDown(a: seq<Node>, n: nat, lo: nat, i: nat, m: nat)
    requires n <= |a| && i < n && 1 <= m < n && Parent(m) == i && lo <= i
    requires OrderedButDown(a, n, lo, i)
    requires a[m].priority < a[i].priority
    requires forall c :: 1 <= c < n && Parent(c) == i ==> a[m].priority <= a[c].priority
    ensures OrderedButDown(Swapped(a, i, m), n, lo, m)
  {
    var b := Swapped(a, i, m);
    forall j | 1 <= j < n && lo <= Parent(j) && Parent(j) != m
      ensures b[Parent(j)].priority <= b[j].priority
    {
    }
  }

  lemma DownDone(a: seq<Node>, n: nat, lo: nat, i: nat)
    requires n <= |a| && i < |a|
    requires OrderedButDown(a, n, lo, i)
    requires forall c :: 1 <= c < n && Parent(c) == i ==> a[i].priority <= a[c].priority
    ensures OrderedFrom(a, n, lo)
  {
  }

  /** Moving a too small node above its parent pushes the defect one level up. */
  lemma SwapUp(a: seq<Node>, n: nat, i: nat)
    requires n <= |a| && 1 <= i < n
    requires OrderedButUp(a, n, i)
    requires a[i].priority < a[Parent(i)].priority
    ensures OrderedButUp(Swapped(a, Parent(i), i), n, Parent(i))
  {
    var p := Parent(i);
    var b := Swapped(a, p, i);
    forall j | 1 <= j < n && j != p
      ensures b[Parent(j)].priority <= b[j].priority
    {
    }
    forall j | 1 <= j < n && Parent(j) == p && 1 <= p
      ensures b[Parent(p)].priority <= b[j].priority
    {
    }
  }

  lemma BubbleDone(a: seq<Node>, n: nat, i: nat)
    requires i < n <= |a| && a[Parent(i)].priority <= a[i].priority
    ensures OrderedButUp(a, n, i) ==> Ordered(a, n)
  {
  }

  /** Every node is at least the root. */
  lemma {:induction false} RootIsLeast(a: seq<Node>, n: nat, j: nat)
    requires j < n <= |a| && Ordered(a, n)
    ensures a[0].priority <= a[j].priority
  {
    if j > 0 { RootIsLeast(a, n, Parent(j)); }
  }

  lemma RootIsLeastEntry(a: seq<Node>, n: nat)
    requires 0 < n <= |a| && Ordered(a, n)
    ensures a[0] in multiset(a[..n])
    ensures forall e :: e in multiset(a[..n]) ==> a[0].priority <= e.priority
  {
    assert a[..n][0] == a[0];
    forall e | e in multiset(a[..n]) ensures a[0].priority <= e.priority {
      var j :| 0 <= j < n && a[..n][j] == e;
      RootIsLeast(a, n, j);
    }
  }

  lemma ReplaceEntry(a: seq<Node>, i: nat, e: Node, n: nat)
    requires i < n <= |a|
    ensures multiset(a[i := e][..n]) == multiset(a[..n]) - multiset{a[i]} + multiset{e}
  {
    assert a[i := e][..n] == a[..n][i := e];
  }

  /** Overwriting the root with the last node and shrinking removes exactly the root. */
  lemma DropRoot(a: seq<Node>, n: nat)
    requires 0 < n <= |a|
    ensures multiset(a[0 := a[n - 1]][..n - 1]) == multiset(a[..n]) - multiset{a[0]}
  {
    assert a[..n] == a[..n - 1] + [a[n - 1]];
    if n > 1 {
      assert a[0 := a[n - 1]][..n - 1] == a[..n - 1][0 := a[n - 1]];
    } else {
      assert a[0 := a[n - 1]][..n - 1] == [];
    }
  }

  lemma PopSummary(a: seq<Node>, n: nat, b: seq<Node>)
    requires 0 < n <= |a| && Ordered(a, n) && Permuted(a[0 := a[n - 1]], b, n - 1)
    ensures |b| == |a| && a[0] in multiset(a[..n])
    ensures multiset(b[..n - 1]) == multiset(a[..n]) - multiset{a[0]}
    ensures forall e :: e in multiset(a[..n]) ==> a[0].priority <= e.priority
  {
    RootIsLeastEntry(a, n);
    DropRoot(a, n);
  }

  lemma DropRootKeepsOrder(a: seq<Node>, n: nat)
    requires 0 < n <= |a| && Ordered(a, n)
    ensures OrderedButDown(a[0 := a[n - 1]], n - 1, 0, 0)
  {
  }

  lemma LowerRespects(a: seq<Node>, n: nat, i: nat, key: nat)
    requires i < n <= |a| && Ordered(a, n) && key <= a[i].priority
    ensures RespectsChildren(a, n, i, key)
  {
  }

  /** Lowering (or keeping) the key of node i can only break the edge above it. */
  lemma LowerKey(a: seq<Node>, n: nat, i: nat, key: nat)
    requires i < n <= |a| && Ordered(a, n)
    requires RespectsChildren(a, n, i, key)
    ensures OrderedButUp(a[i := Node(key, a[i].value)], n, i)
  {
  }

  class PriorityQueue {
    const heap: array<Node>
    var size: nat

    ghost predicate Shaped()
      reads this
    {
      heap.Length == MAX_PQ_ELEMENTS && size <= MAX_PQ_ELEMENTS
    }

    ghost predicate Valid()
      reads this, heap
    {
      Shaped() && Ordered(heap[..], size)
    }

    ghost function Entries(): multiset<Node>
      reads this, heap
      requires Shaped()
    {
      multiset(heap[..size])
    }

    constructor ()
      ensures Valid() && size == 0 && fresh(heap)
    {
      heap := new Node[MAX_PQ_ELEMENTS](_ => Node(0, 0));
      size := 0;
    }

    /** The least of node i and its children among the first size nodes. */
    method LeastOfFamily(i: nat) returns (min: nat)
      requires Shaped() && i < MAX_PQ_ELEMENTS
      ensures min == i || (1 <= min < size && Parent(min) == i && heap[min].priority < heap[i].priority)
      ensures forall c :: 1 <= c < size && Parent(c) == i ==> heap[min].priority <= heap[c].priority
      ensures min == LeastOf(heap[..], size, i)
    {
      var left := 2 * i + 1;
      var right := 2 * i + 2;
      ChildrenOf(size, i);
      min := i;
      if left < size && heap[left].priority < heap[i].priority {
        min := left;
      }
      if right < size && heap[right].priority < heap[min].priority {
        min := right;
      }
    }

    /** Sifts node i down; the defect may sit anywhere at lo or below. */
    method Heapify(i: nat, ghost lo: nat)
      requires Shaped() && lo <= i < MAX_PQ_ELEMENTS
      requires OrderedButDown(heap[..], size, lo, i)
      modifies heap
      ensures OrderedFrom(heap[..], size, lo)
      ensures Permuted(old(heap[..]), heap[..], size)
      ensures heap[..] == Sifted(old(heap[..]), size, i)
      decreases size - i
    {
      hide OrderedFrom, OrderedButDown, Permuted;
      ghost var a := heap[..];
      var min := LeastOfFamily(i);
      if min != i {
        heap[min], heap[i] := heap[i], heap[min];
        assert heap[..] == Swapped(a, i, min);
        SwapDown(a, size, lo, i, min);
        SwapPermutes(a, i, min, size);
        ghost var b := heap[..];
        Heapify(min, lo);
        PermutedTrans(a, b, heap[..], size);
      } else {
        DownDone(a, size, lo, i);
        PermutedSelf(a, size);
      }
    }

    /** priority_queue_init: the first n cells already hold the nodes, in any order. */
    method Init(n: nat)
      requires Shaped() && n <= MAX_PQ_ELEMENTS
      modifies this`size, heap
      ensures Valid() && size == n
      ensures Entries() == multiset(old(heap[..n]))
      ensures heap[..] == Heapified(old(heap[..]), n, 0)
    {
      hide Permuted, Sifted, Heapified, OrderedFrom, OrderedButDown;
      size := n;
      var i := size / 2 - 1;
      PermutedSelf(heap[..], n);
      HeapifiedIs(heap[..], n, i + 1);
      LeavesOrdered(heap[..], size);
      while i >= 0
        invariant -1 <= i < size && size == n
        invariant OrderedFrom(heap[..], size, i + 1)
        invariant Permuted(old(heap[..]), heap[..], size)
        invariant heap[..] == Heapified(old(heap[..]), n, i + 1)
      {
        ghost var b := heap[..];
        OneMoreDefect(b, size, i);
        Heapify(i, i);
        PermutedTrans(old(heap[..]), b, heap[..], size);
        HeapifiedIs(old(heap[..]), n, i);
        i := i - 1;
      }
      PermutedEntries(old(heap[..]), heap[..], n);
      assert heap[..][..n] == heap[..n];
      assert old(heap[..])[..n] == old(heap[..n]);
    }

    /** Sifts node i up among the first n nodes; index 0 compares with itself and stops. */
    method BubbleUp(i: nat, ghost n: nat)
      requires heap.Length == MAX_PQ_ELEMENTS && i < n <= MAX_PQ_ELEMENTS
      modifies heap
      ensures Permuted(old(heap[..]), heap[..], n)
      ensures OrderedButUp(old(heap[..]), n, i) ==> Ordered(heap[..], n)
      ensures old(heap[Parent(i)].priority <= heap[i].priority) ==> heap[..] == old(heap[..])
    {
      hide OrderedButUp, Permuted;
      var parent := Parent(i);
      if heap[parent].priority > heap[i].priority {
        ghost var a := heap[..];
        heap[parent], heap[i] := heap[i], heap[parent];
        assert heap[..] == Swapped(a, parent, i);
        SwapPermutes(a, parent, i, n);
        if OrderedButUp(a, n, i) { SwapUp(a, n, i); }
        ghost var b := heap[..];
        BubbleUp(parent, n);
        PermutedTrans(a, b, heap[..], n);
      } else {
        BubbleDone(heap[..], n, i);
        PermutedSelf(heap[..], n);
      }
    }

    /** Adds a node, unless the heap is full. */
    method Add(value: int, priority: nat)
      requires Valid()
      modifies this`size, heap
      ensures Valid()
      ensures old(size) == MAX_PQ_ELEMENTS ==> size == old(size) && heap[..] == old(heap[..])
      ensures old(size) < MAX_PQ_ELEMENTS ==>
        size == old(size) + 1 && Entries() == old(Entries()) + multiset{Node(priority, value)}
    {
      if size < MAX_PQ_ELEMENTS {
        heap[size] := Node(priority, value);
        ghost var b := heap[..];
        assert b[..size + 1] == old(heap[..size]) + [Node(priority, value)];
        assert OrderedButUp(b, size + 1, size);
        BubbleUp(size, size + 1);
        size := size + 1;
      }
    }

    /** Removes the root, a node of least priority. */
    method PopMin() returns (value: Option<int>)
      requires Valid()
      modifies this`size, heap
      ensures Valid()
      ensures old(size) == 0 ==> value == None && size == 0
      ensures old(size) > 0 ==>
        var top := old(heap[0]);
        size == old(size) - 1 && value == Some(top.value) &&
        top in old(Entries()) && Entries() == old(Entries()) - multiset{top} &&
        forall e :: e in old(Entries()) ==> top.priority <= e.priority
      ensures old(size) > 0 ==> heap[..] == AfterPop(old(heap[..]), old(size))
    {
      hide OrderedFrom, OrderedButDown, Permuted;
      if size == 0 {
        return None;
      }
      ghost var a, n := heap[..], size;
      value := Some(heap[0].value);
      heap[0] := heap[size - 1];
      size := size - 1;
      assert heap[..] == a[0 := a[n - 1]];
      DropRootKeepsOrder(a, n);
      Heapify(0, 0);
      PopSummary(a, n, heap[..]);
      assert heap[..size] == heap[..][..size] && old(heap[..size]) == a[..n];
    }

    /** Changes the priority of the first node holding value, reported as ghost index at.  The nodes are kept
        in every case; heap order survives exactly when the new priority exceeds no child of the node. */
    method Decrease(value: int, priority: nat) returns (found: bool, ghost at: nat, ghost before: Node)
      requires Valid()
      modifies heap
      ensures Shaped()
      ensures found <==> exists e :: e in old(Entries()) && e.value == value
      ensures !found ==> heap[..] == old(heap[..]) && Entries() == old(Entries())
      ensures found ==> at < size && before == old(heap[at]) && before in old(Entries()) && before.value == value
      ensures found ==> Entries() == old(Entries()) - multiset{before} + multiset{Node(priority, value)}
      ensures found ==> (Valid() <==> RespectsChildren(old(heap[..]), size, at, priority))
      ensures found && priority <= before.priority ==> Valid()
    {
      hide OrderedFrom, RespectsChildren;
      before := Node(0, 0);
      var i := 0;
      while i < size && heap[i].value != value
        invariant 0 <= i <= size
        invariant forall j :: 0 <= j < i ==> heap[..size][j].value != value
      {
        i := i + 1;
      }
      at := i;
      found := i < size;
      assert heap[..size] == heap[..][..size];
      if found {
        before := heap[i];
        assert before == heap[..size][i];
        if priority <= before.priority { LowerRespects(heap[..], size, i, priority); }
        Rekey(i, priority);
      }
    }

    method Rekey(i: nat, priority: nat)
      requires Valid() && i < size
      modifies heap
      ensures Entries() == old(Entries()) - multiset{old(heap[i])} + multiset{Node(priority, old(heap[i].value))}
      ensures Ordered(heap[..], size) <==> RespectsChildren(old(heap[..]), size, i, priority)
    {
      ghost var a := heap[..];
      heap[i] := Node(priority, heap[i].value);
      ghost var b := heap[..];
      assert b == a[i := Node(priority, a[i].value)];
      ReplaceEntry(a, i, b[i], size);
      if RespectsChildren(a, size, i, priority) {
        LowerKey(a, size, i, priority);
      } else {
        AboveTooLargeKey(a, size, i, priority);
      }
      assert a[..size] == old(heap[..size]);
      assert b[..size] == heap[..size];
      BubbleUp(i, size);
      assert heap[..][..size] == heap[..size];
    }

    predicate Empty()
      reads this
    {
      size == 0
    }
  }

  lemma ChildrenOf(n: nat, i: nat)
    ensures forall c :: 1 <= c < n && Parent(c) == i ==> c == 2 * i + 1 || c == 2 * i + 2
    ensures Parent(2 * i + 1) == i && Parent(2 * i + 2) == i
  {
  }

  /** A key larger than a child's is no smaller than the parent's, so nothing moves and the order is broken. */
  lemma AboveTooLargeKey(a: seq<Node>, n: nat, i: nat, key: nat)
    requires i < n <= |a| && Ordered(a, n)
    requires !RespectsChildren(a, n, i, key)
    ensures var b := a[i := Node(key, a[i].value)];
      b[Parent(i)].priority <= b[i].priority && !Ordered(b, n)
  {
    var c :| 1 <= c < n && Parent(c) == i && a[c].priority < key;
    var b := a[i := Node(key, a[i].value)];
    assert b[Parent(c)].priority > b[c].priority;
    if i > 0 { assert a[Parent(i)].priority <= a[i].priority <= a[c].priority; }
  }

  // ----- a heap whose keys are all alike but one -----

  /** All of the first n keys are key, except that node s has a smaller one. */
  ghost predicate OneLess(a: seq<Node>, n: nat, s: nat, key: nat) {
    s < n <= |a| && a[s].priority < key && forall j :: 0 <= j < n && j != s ==> a[j].priority == key
  }

  /** Where node s has got to when those down to k have sunk. */
  ghost function Risen(s: nat, k: nat): nat {
    if s > 0 && k <= Parent(s) then Risen(Parent(s), k) else s
  }

  lemma {:induction false} RisenIs(s: nat, k: nat)
    ensures Risen(s, k) <= s && (Risen(s, k) > 0 ==> Parent(Risen(s, k)) < k)
    ensures Risen(s, k) == if Risen(s, k + 1) > 0 && Parent(Risen(s, k + 1)) == k then k else Risen(s, k + 1)
    ensures k <= s ==> k <= Risen(s, k)
    ensures s < k ==> Risen(s, k) == s
    ensures s > 0 && k <= Parent(s) ==> Risen(s, k) <= Parent(s)
  {
    if s > 0 && k <= Parent(s) { RisenIs(Parent(s), k); }
  }

  /** What is alike all over does not move. */
  lemma FlatStays(a: seq<Node>, n: nat, i: nat, key: nat)
    requires i < n <= |a| && forall j :: i <= j < n ==> a[j].priority == key
    ensures Sifted(a, n, i) == a
  {
  }

  /** When node k sinks, the lesser node is its child and they change places, or nothing moves. */
  lemma OneSinks(b: seq<Node>, n: nat, p: nat, key: nat, k: nat)
    requires OneLess(b, n, p, key) && k < n && (p > 0 ==> Parent(p) <= k)
    ensures Sifted(b, n, k) == if p > 0 && Parent(p) == k then Swapped(b, k, p) else b
  {
    hide Sifted;
    if p > 0 && Parent(p) == k {
      assert LeastOf(b, n, k) == p;
      FlatStays(Swapped(b, k, p), n, p, key);
      SiftedIs(b, n, k);
    } else {
      assert LeastOf(b, n, k) == k;
      SiftedIs(b, n, k);
    }
  }

  lemma SiftedIs(a: seq<Node>, n: nat, i: nat)
    requires i < |a| && n <= |a|
    ensures var m := LeastOf(a, n, i); Sifted(a, n, i) == if m == i then a else Sifted(Swapped(a, i, m), n, m)
  {
  }

  /** The lesser node of a has risen in b, and its ancestors from k on have moved down its way; no other has moved. */
  ghost predicate HasRisen(a: seq<Node>, b: seq<Node>, n: nat, s: nat, key: nat, k: nat)
    requires s < n <= |a| == |b|
  {
    Risen(s, k) < n && OneLess(b, n, Risen(s, k), key) && b[Risen(s, k)] == a[s] &&
    (forall j :: 0 <= j < k && j < n && j != s ==> b[j] == a[j]) &&
    (n > 1 ==> b[n - 1] == if s == n - 1 && k <= Parent(s) then a[Parent(s)] else a[n - 1])
  }

  lemma RisesOn(a: seq<Node>, b: seq<Node>, n: nat, s: nat, key: nat, k: nat)
    requires s < n <= |a| && OneLess(a, n, s, key) && |b| == |a| && k < n / 2 && HasRisen(a, b, n, s, key, k + 1)
    ensures HasRisen(a, Sifted(b, n, k), n, s, key, k)
  {
    hide Sifted, Risen, OneLess, Swapped, Parent;
    RisenIs(s, k);
    RisenIs(s, k + 1);
    var p := Risen(s, k + 1);
    OneSinks(b, n, p, key, k);
    if p > 0 && Parent(p) == k {
      OneSwapped(b, n, p, key);
      assert p == n - 1 ==> s == n - 1;
      assert s == n - 1 && k + 1 <= Parent(s) ==> p < n - 1 by { ParentBefore(s); }
      assert s == n - 1 && p < s ==> k + 1 <= Parent(s);
    } else {
      assert s == n - 1 ==> (k <= Parent(s) <==> k + 1 <= Parent(s));
    }
  }

  lemma ParentBefore(s: nat)
    ensures s > 0 ==> Parent(s) < s
    ensures Parent(0) == 0
  {
  }

  /** The lesser node in its parent's place. */
  lemma OneSwapped(b: seq<Node>, n: nat, p: nat, key: nat)
    requires OneLess(b, n, p, key) && p > 0
    ensures var c := Swapped(b, Parent(p), p);
      Parent(p) < p && OneLess(c, n, Parent(p), key) &&
      c[Parent(p)] == b[p] && c[p] == b[Parent(p)] &&
      forall j :: 0 <= j < n && j != p && j != Parent(p) ==> c[j] == b[j]
  {
  }

  lemma {:induction false} OneRises(a: seq<Node>, n: nat, s: nat, key: nat, k: nat)
    requires OneLess(a, n, s, key)
    ensures HasRisen(a, Heapified(a, n, k), n, s, key, k)
    decreases n - k
  {
    hide Sifted, Risen, HasRisen;
    if k < n / 2 {
      OneRises(a, n, s, key, k + 1);
      RisesOn(a, Heapified(a, n, k + 1), n, s, key, k);
    } else {
      HasNotRisen(a, n, s, key, k);
    }
  }

  lemma HasNotRisen(a: seq<Node>, n: nat, s: nat, key: nat, k: nat)
    requires OneLess(a, n, s, key) && n / 2 <= k
    ensures HasRisen(a, a, n, s, key, k)
  {
  }

  /** The first two to leave such a heap: the lesser node, and then the last one. */
  lemma SecondOut(a: seq<Node>, n: nat, s: nat, key: nat)
    requires OneLess(a, n, s, key) && n > 1
    ensures var b := Heapified(a, n, 0);
      b[0] == a[s] && AfterPop(b, n)[0] == a[if s == n - 1 then Parent(s) else n - 1]
  {
    hide Sifted, Heapified, Risen;
    OneRises(a, n, s, key, 0);
    RisenIs(s, 0);
    var b := Heapified(a, n, 0);
    FlatStays(b[0 := b[n - 1]], n - 1, 0, key);
  }
}
