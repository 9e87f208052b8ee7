/** The slab allocator for task descriptors (kernel/src/task-alloc.c): an intrusive free list kept in slab order. */
module TaskAlloc {
  import opened Chains
  import opened Facts
  import opened TaskTable

  // ----- the free list as a sequence -----

  /** Where a task of slab s goes: before the first task of slab s or later. */
  ghost function Pos(free: seq<nat>, s: nat): (k: nat)
    ensures k <= |free|
  {
    if free == [] || SlabOf(free[0]) >= s then 0 else 1 + Pos(free[1..], s)
  }

  ghost function Inserted(free: seq<nat>, x: nat): seq<nat> {
    var k := Pos(free, SlabOf(x));
    free[..k] + [x] + free[k..]
  }

  ghost predicate Sorted(free: seq<nat>) {
    forall j, k :: 0 <= j < k < |free| ==> SlabOf(free[j]) <= SlabOf(free[k])
  }

  /** How many tasks of slab s are in the list. */
  ghost function CountIn(free: seq<nat>, s: nat): nat {
    if free == [] then 0 else (if SlabOf(free[0]) == s then 1 else 0) + CountIn(free[1..], s)
  }

  /** The list without the tasks of slab s. */
  ghost function Others(free: seq<nat>, s: nat): seq<nat> {
    if free == [] then []
    else (if SlabOf(free[0]) == s then [] else [free[0]]) + Others(free[1..], s)
  }

  lemma {:induction false} PosSplits(free: seq<nat>, s: nat, k: nat)
    requires k < |free|
    ensures k < Pos(free, s) ==> SlabOf(free[k]) < s
    ensures k == Pos(free, s) ==> SlabOf(free[k]) >= s
  {
    hide SlabOf;
    if k > 0 && !(SlabOf(free[0]) >= s) { PosSplits(free[1..], s, k - 1); }
  }

  lemma InsertedSorted(free: seq<nat>, x: nat)
    requires Sorted(free)
    ensures Sorted(Inserted(free, x))
  {
    hide SlabOf;
    var s, p := SlabOf(x), Pos(free, SlabOf(x));
    var t := Inserted(free, x);
    forall i | 0 <= i < |free| ensures i < p ==> SlabOf(free[i]) < s ensures i >= p ==> SlabOf(free[i]) >= s {
      PosSplits(free, s, i);
      if p < |free| { PosSplits(free, s, p); }
    }
    forall i | 0 <= i < |t| ensures t[i] == if i < p then free[i] else if i == p then x else free[i - 1] { }
  }

  lemma {:induction false} CountAppend(a: seq<nat>, b: seq<nat>, s: nat)
    ensures CountIn(a + b, s) == CountIn(a, s) + CountIn(b, s)
  {
    hide SlabOf;
    if a == [] {
      assert a + b == b;
    } else {
      CountAppend(a[1..], b, s);
      assert (a + b)[0] == a[0] && (a + b)[1..] == a[1..] + b;
    }
  }

  lemma CountInserted(free: seq<nat>, x: nat, s: nat)
    ensures CountIn(Inserted(free, x), s) == CountIn(free, s) + if SlabOf(x) == s then 1 else 0
  {
    hide SlabOf;
    var k := Pos(free, SlabOf(x));
    CountAppend(free[..k] + [x], free[k..], s);
    CountAppend(free[..k], [x], s);
    CountAppend(free[..k], free[k..], s);
    assert free == free[..k] + free[k..];
    assert [x][1..] == [];
  }

  lemma InsertedMembers(free: seq<nat>, x: nat, y: nat)
    ensures y in Inserted(free, x) <==> y == x || y in free
  {
    InsertMembers(free, Pos(free, SlabOf(x)), x, y);
  }

  lemma {:induction false} OthersMembers(free: seq<nat>, s: nat, y: nat)
    ensures y in Others(free, s) <==> y in free && SlabOf(y) != s
  {
    hide SlabOf;
    if free != [] {
      OthersMembers(free[1..], s, y);
      assert free == [free[0]] + free[1..];
    }
  }

  lemma {:induction false} OthersCount(free: seq<nat>, s: nat, r: nat)
    ensures CountIn(Others(free, s), r) == if r == s then 0 else CountIn(free, r)
  {
    hide SlabOf;
    if free != [] {
      OthersCount(free[1..], s, r);
      var head := if SlabOf(free[0]) == s then [] else [free[0]];
      CountAppend(head, Others(free[1..], s), r);
      if head != [] { assert head[1..] == []; }
    }
  }

  lemma {:induction false} OthersSorted(free: seq<nat>, s: nat)
    requires Sorted(free)
    ensures Sorted(Others(free, s))
  {
    hide SlabOf;
    if free != [] {
      assert Sorted(free[1..]) by {
        forall j, k | 0 <= j < k < |free[1..]| ensures SlabOf(free[1..][j]) <= SlabOf(free[1..][k]) {
          assert free[1..][j] == free[j + 1] && free[1..][k] == free[k + 1];
        }
      }
      OthersSorted(free[1..], s);
      var rest := Others(free[1..], s);
      forall k | 0 <= k < |rest| ensures SlabOf(free[0]) <= SlabOf(rest[k]) {
        OthersMembers(free[1..], s, rest[k]);
        var i :| 0 <= i < |free[1..]| && free[1..][i] == rest[k];
        assert free[i + 1] == rest[k];
      }
    }
  }

  /** The books of the slabs: free tasks belong to active slabs; an active slab has at least one live task, and
      its live and free tasks are 8 together; tasks of active slabs know their slab.  Slab s0, just activated,
      may have no live task yet. */
  ghost predicate Accounted(active: seq<int>, count: seq<int>, free: seq<nat>, slabIndex: seq<int>, s0: nat) {
    |active| == N_SLABS && |count| == N_SLABS && |slabIndex| == N_TASKS &&
    (forall x :: x in free ==> x < N_TASKS && active[SlabOf(x)] == 1) &&
    (forall s: nat :: s < N_SLABS ==> active[s] == 0 || SlabBalanced(active, count, free, s, s0)) &&
    (forall x: nat :: x < N_TASKS && active[SlabOf(x)] == 1 ==> slabIndex[x] == SlabOf(x)) &&
    (s0 < N_SLABS ==> active[s0] == 1)
  }

  ghost predicate SlabBalanced(active: seq<int>, count: seq<int>, free: seq<nat>, s: nat, s0: nat)
    requires s < |active| && s < |count|
  {
    active[s] == 1 && (if s == s0 then 0 else 1) <= count[s] && count[s] + CountIn(free, s) == N_TASK_T
  }

  /** Taking the first free task, with its slab's counter raised, settles the books. */
  lemma TakeSettles(active: seq<int>, count: seq<int>, free: seq<nat>, slabIndex: seq<int>, s0: nat)
    requires free != [] && Accounted(active, count, free, slabIndex, s0)
    requires s0 == N_SLABS || SlabOf(free[0]) == s0
    ensures var s := SlabOf(free[0]);
      |active| == N_SLABS && |count| == N_SLABS && |slabIndex| == N_TASKS && free[0] < N_TASKS &&
      s < N_SLABS && active[s] == 1 && slabIndex[free[0]] == s &&
      Accounted(active, count[s := count[s] + 1], free[1..], slabIndex, N_SLABS)
  {
    hide CountIn;
    assert free[0] in free;
    forall s: nat
      ensures CountIn(free, s) == CountIn(free[1..], s) + if SlabOf(free[0]) == s then 1 else 0
    {
      CountHead(free, s);
    }
    forall x | x in free[1..] ensures x in free { }
  }

  lemma CountHead(free: seq<nat>, s: nat)
    requires free != []
    ensures CountIn(free, s) == CountIn(free[1..], s) + if SlabOf(free[0]) == s then 1 else 0
  {
  }

  /** The tasks of active slabs that are not free. */
  ghost function LiveIn(active: seq<int>, free: seq<nat>): set<nat> {
    set x: nat | x < N_TASKS && SlabOf(x) < |active| && active[SlabOf(x)] == 1 && x !in free
  }

  lemma LiveTaken(active: seq<int>, free: seq<nat>)
    requires free != [] && free[0] !in free[1..] && free[0] < N_TASKS
    requires SlabOf(free[0]) < |active| && active[SlabOf(free[0])] == 1
    ensures LiveIn(active, free[1..]) == LiveIn(active, free) + {free[0]}
    ensures free[0] !in LiveIn(active, free)
  {
    hide SlabOf;
    assert free == [free[0]] + free[1..];
  }

  lemma OthersHead(kept: seq<nat>, rest: seq<nat>, s: nat)
    requires rest != []
    ensures kept + Others(rest, s) == (if SlabOf(rest[0]) == s then kept else kept + [rest[0]]) + Others(rest[1..], s)
  {
    hide SlabOf;
    var t := Others(rest[1..], s);
    assert Others(rest, s) == (if SlabOf(rest[0]) == s then [] else [rest[0]]) + t;
    hide Others;
    assert [] + t == t;
    Associative(kept, [rest[0]], t);
  }

  lemma OthersNil(s: nat)
    ensures Others([], s) == []
  {
  }

  /** The list kept + rest loses the head of rest, or the head of rest joins the kept part. */
  lemma UnlinkStep(link: seq<int>, head: int, kept: seq<nat>, rest: seq<nat>)
    requires Chain(link, head, kept + rest) && rest != []
    ensures rest[0] < |link| && link[rest[0]] == HeadOf(rest[1..]) && kept + rest == (kept + [rest[0]]) + rest[1..]
    ensures kept == [] ==> head == rest[0] && Chain(link[head := NULL], link[head], kept + rest[1..])
    ensures kept != [] ==> kept[|kept| - 1] < |link| && kept[|kept| - 1] != rest[0]
    ensures kept != [] ==> Chain(link[kept[|kept| - 1] := link[rest[0]]][rest[0] := NULL], head, kept + rest[1..])
  {
    hide Chain;
    var all, k := kept + rest, |kept|;
    assert all[k] == rest[0] && all[k + 1..] == rest[1..] && Without(all, k) == kept + rest[1..];
    ChainStep(link, head, all, k);
    ChainMembers(link, head, all);
    if k == 0 {
      ChainRemoveHead(link, head, all, NULL);
    } else {
      ChainRemove(link, head, all, k);
      ChainDistinct(link, head, all, k - 1, k);
      WithoutMembers(link, head, all, k, all[k]);
      ChainOther(link[all[k - 1] := link[all[k]]], head, Without(all, k), all[k], NULL);
    }
  }

  /** Giving a task back, with its slab's counter lowered, leaves the slab balanced if a task of it is live. */
  lemma FreeSettles(active: seq<int>, count: seq<int>, free: seq<nat>, slabIndex: seq<int>, task: nat)
    requires Accounted(active, count, free, slabIndex, N_SLABS)
    requires task in LiveIn(active, free)
    ensures var s := SlabOf(task);
      |active| == N_SLABS && |count| == N_SLABS && |slabIndex| == N_TASKS && s < N_SLABS && slabIndex[task] == s &&
      (count[s] - 1 >= 0) && Accounted(active, count[s := count[s] - 1], Inserted(free, task), slabIndex, s)
  {
    hide CountIn, Inserted;
    forall s: nat ensures CountIn(Inserted(free, task), s) == CountIn(free, s) + if SlabOf(task) == s then 1 else 0 {
      CountInserted(free, task, s);
    }
    forall x ensures x in Inserted(free, task) <==> x == task || x in free { InsertedMembers(free, task, x); }
  }

  lemma LiveFreed(active: seq<int>, free: seq<nat>, free': seq<nat>, task: nat)
    requires free' == Inserted(free, task)
    ensures LiveIn(active, free') == LiveIn(active, free) - {task}
  {
    hide Inserted, SlabOf;
    forall x ensures x in free' <==> x == task || x in free { InsertedMembers(free, task, x); }
  }

  /** A slab with no live task is taken out of use. */
  lemma DeactivateSettles(active: seq<int>, count: seq<int>, free: seq<nat>, slabIndex: seq<int>, s: nat)
    requires Accounted(active, count, free, slabIndex, s) && s < N_SLABS && count[s] == 0 && NoRepeats(free)
    ensures Accounted(active[s := 0], count, Others(free, s), slabIndex, N_SLABS)
    ensures LiveIn(active[s := 0], Others(free, s)) == LiveIn(active, free)
  {
    hide CountIn, Others, SlabOf;
    forall r: nat
      ensures CountIn(Others(free, s), r) == if r == s then 0 else CountIn(free, r)
    {
      OthersCount(free, s, r);
    }
    forall x ensures x in Others(free, s) <==> x in free && SlabOf(x) != s { OthersMembers(free, s, x); }
    FullSlab(free, s);
    SlabBounds();
  }

  /** The tasks of one slab. */
  ghost function SlabTasks(s: nat): (r: set<nat>)
    ensures |r| == N_TASK_T && forall x :: x in r <==> SlabOf(x) == s
  {
    var b := s * N_TASK_T;
    {b, b + 1, b + 2, b + 3, b + 4, b + 5, b + 6, b + 7}
  }

  ghost function InSlab(free: seq<nat>, s: nat): set<nat> {
    set x | x in free && SlabOf(x) == s
  }

  lemma {:induction false} CountIsSize(free: seq<nat>, s: nat)
    requires NoRepeats(free)
    ensures |InSlab(free, s)| == CountIn(free, s)
  {
    hide SlabOf;
    if free != [] {
      CountIsSize(free[1..], s);
      assert free == [free[0]] + free[1..];
      var head := if SlabOf(free[0]) == s then {free[0]} else {};
      assert InSlab(free, s) == head + InSlab(free[1..], s);
    } else {
      assert InSlab(free, s) == {};
    }
  }

  /** Eight free tasks of one slab are all of its tasks. */
  lemma FullSlab(free: seq<nat>, s: nat)
    requires NoRepeats(free) && CountIn(free, s) == N_TASK_T
    ensures forall x: nat :: SlabOf(x) == s ==> x in free
  {
    hide SlabOf;
    CountIsSize(free, s);
    SubsetSize(InSlab(free, s), SlabTasks(s));
  }

  lemma SubsetSize(a: set<nat>, b: set<nat>)
    requires a <= b && |a| == |b|
    ensures a == b
  {
    assert b == a + (b - a);
  }

  /** The counter of an active slab is the number of its live tasks. */
  lemma CounterCountsLive(active: seq<int>, count: seq<int>, free: seq<nat>, slabIndex: seq<int>, s: nat)
    requires Accounted(active, count, free, slabIndex, N_SLABS) && NoRepeats(free) && s < N_SLABS && active[s] == 1
    ensures count[s] == |LiveIn(active, free) * SlabTasks(s)|
    ensures count[s] + |InSlab(free, s)| == N_TASK_T
  {
    hide CountIn;
    CountIsSize(free, s);
    SlabBounds();
    assert SlabTasks(s) == (LiveIn(active, free) * SlabTasks(s)) + InSlab(free, s);
    assert (LiveIn(active, free) * SlabTasks(s)) * InSlab(free, s) == {};
  }

  lemma SlabBounds()
    ensures forall x: nat :: SlabOf(x) < N_SLABS <==> x < N_TASKS
  {
  }

  /** The allocator's invariant over values. */
  ghost predicate AllocOk(next: seq<int>, slabIndex: seq<int>, freeList: int, free: seq<nat>, active: seq<int>,
                          count: seq<int>) {
    Chain(next, freeList, free) && Sorted(free) && |slabIndex| == N_TASKS &&
    (forall x :: x in free ==> x < N_TASKS && slabIndex[x] == SlabOf(x)) &&
    Accounted(active, count, free, slabIndex, N_SLABS)
  }

  lemma AllocFrame(next: seq<int>, next': seq<int>, slabIndex: seq<int>, freeList: int, free: seq<nat>,
                   active: seq<int>, count: seq<int>)
    requires AllocOk(next, slabIndex, freeList, free, active, count) && |next'| == |next|
    requires forall x :: x in free && x < |next| ==> next'[x] == next[x]
    ensures AllocOk(next', slabIndex, freeList, free, active, count)
  {
    hide Chain, Sorted, Accounted;
    ChainFrame(next, next', freeList, free);
  }

  // ----- the allocator -----

  class TaskAllocator {
    const t: Tasks
    var freeList: int
    var activeSlabs: seq<int>
    var taskCountInSlab: seq<int>
    ghost var free: seq<nat>

    /** The free list as the program walks it: its tasks belong to the slabs recorded in them. */
    ghost predicate Listed()
      reads this, t
    {
      t.Sized() && Chain(t.next, freeList, free) && Sorted(free) &&
      forall x :: x in free ==> x < N_TASKS && t.slabIndex[x] == SlabOf(x)
    }

    ghost predicate Valid()
      reads this, t
    {
      Listed() && Accounted(activeSlabs, taskCountInSlab, free, t.slabIndex, N_SLABS)
    }

    lemma ValidIsOk()
      ensures Valid() <==> t.Sized() && AllocOk(t.next, t.slabIndex, freeList, free, activeSlabs, taskCountInSlab)
    {
      hide Chain, Sorted, Accounted;
    }

    /** The descriptors handed out and not given back. */
    ghost function Live(): set<nat>
      reads this
    {
      LiveIn(activeSlabs, free)
    }

    constructor (tasks: Tasks)
      requires tasks.Sized()
      ensures Valid() && t == tasks && Live() == {}
    {
      t := tasks;
      freeList := NULL;
      activeSlabs := seq(N_SLABS, i => 0);
      taskCountInSlab := seq(N_SLABS, i => 0);
      free := [];
    }

    /** The walk to the first free task of the same slab or a later one. */
    method FindPlace(task: nat) returns (last: int, current: int, ghost k: nat)
      requires Listed() && task < N_TASKS && t.slabIndex[task] == SlabOf(task)
      ensures k == Pos(free, SlabOf(task)) && current == HeadOf(free[k..])
      ensures last == if k == 0 then NULL else free[k - 1]
    {
      hide Chain, Sorted;
      last, current, k := NULL, freeList, 0;
      ChainMembers(t.next, freeList, free);
      assert free[0..] == free;
      while current != NULL && t.slabIndex[current] < t.slabIndex[task]
        invariant 0 <= k <= Pos(free, SlabOf(task))
        invariant last == if k == 0 then NULL else free[k - 1]
        invariant current == HeadOf(free[k..])
        invariant current != NULL ==> k < |free| && current == free[k] && current in free
        decreases |free| - k
      {
        PosSplits(free, SlabOf(task), k);
        ChainStep(t.next, freeList, free, k);
        last := current;
        current := t.next[current];
        k := k + 1;
      }
      if k < |free| { PosSplits(free, SlabOf(task), k); }
    }

    /** task_alloc_add_to_free_list. */
    method AddToFreeList(task: nat)
      requires Listed() && task < N_TASKS && task !in free && t.slabIndex[task] == SlabOf(task)
      modifies this`freeList, this`free, t`next
      ensures Listed() && free == Inserted(old(free), task)
      ensures forall y :: 0 <= y < N_TASKS && y !in free ==> t.next[y] == old(t.next[y])
    {
      hide Chain, Sorted;
      ghost var link0 := t.next;
      t.next := t.next[task := NULL];
      ChainOther(link0, freeList, free, task, NULL);
      ChainMembers(t.next, freeList, free);
      InsertedSorted(free, task);
      forall y ensures y in Inserted(free, task) <==> y == task || y in free { InsertedMembers(free, task, y); }
      if freeList == NULL {
        freeList := task;
        ChainPrepend(t.next, NULL, [], task);
        assert t.next[task := NULL] == t.next && [task] + [] == Inserted(free, task);
      } else {
        var last, current, k := FindPlace(task);
        InsertAt(t.next, freeList, free, k, task);
        if current == freeList {
          freeList := task;
          t.next := t.next[task := current];
        } else {
          assert free[k - 1] in free;
          t.next := t.next[last := task];
          t.next := t.next[task := current];
        }
      }
      free := Inserted(free, task);
    }

    /** Everything but the counter of slab s0, which may still be one short of a live task. */
    ghost predicate ValidBut(s0: nat)
      reads this, t
    {
      Listed() && s0 < N_SLABS && Accounted(activeSlabs, taskCountInSlab, free, t.slabIndex, s0)
    }

    /** Puts the 8 tasks of an unused slab on the empty free list. */
    method ActivateSlab(i: nat)
      requires Valid() && free == [] && i < N_SLABS && activeSlabs[i] == 0
      modifies this, t`next, t`waitingSendersNext, t`eventWaitNext, t`tid, t`slabIndex
      ensures ValidBut(i) && activeSlabs == old(activeSlabs)[i := 1]
      ensures forall x: nat :: x < N_TASKS ==> (x in free <==> SlabOf(x) == i)
      ensures free != []
      ensures SameOutside(old(t.next), t.next, i) && SameOutside(old(t.waitingSendersNext), t.waitingSendersNext, i) &&
        SameOutside(old(t.eventWaitNext), t.eventWaitNext, i) && SameOutside(old(t.tid), t.tid, i)
    {
      hide Chain, Sorted;
      for j := 0 to N_TASK_T
        invariant Listed() && activeSlabs == old(activeSlabs) && taskCountInSlab == old(taskCountInSlab)
        invariant forall x :: x in free <==> i * N_TASK_T <= x < i * N_TASK_T + j
        invariant CountIn(free, i) == j && (forall s: nat :: s != i ==> CountIn(free, s) == 0)
        invariant SameOutside(old(t.next), t.next, i) &&
                  SameOutside(old(t.waitingSendersNext), t.waitingSendersNext, i) &&
        SameOutside(old(t.eventWaitNext), t.eventWaitNext, i) && SameOutside(old(t.tid), t.tid, i)
        invariant SameOutside(old(t.slabIndex), t.slabIndex, i)
      {
        InitSlot(i, j);
      }
      activeSlabs := activeSlabs[i := 1];
      taskCountInSlab := taskCountInSlab[i := 0];
      assert i * N_TASK_T in free;
    }

    /** The body of the loop over the places of the slab. */
    method InitSlot(i: nat, j: nat)
      requires Listed() && i < N_SLABS && j < N_TASK_T
      requires forall x :: x in free <==> i * N_TASK_T <= x < i * N_TASK_T + j
      requires CountIn(free, i) == j && forall s: nat :: s != i ==> CountIn(free, s) == 0
      modifies this`freeList, this`free, t`next, t`waitingSendersNext, t`eventWaitNext, t`tid, t`slabIndex
      ensures Listed()
      ensures forall x :: x in free <==> i * N_TASK_T <= x < i * N_TASK_T + j + 1
      ensures CountIn(free, i) == j + 1 && forall s: nat :: s != i ==> CountIn(free, s) == 0
      ensures SameOutside(old(t.next), t.next, i) && SameOutside(old(t.waitingSendersNext), t.waitingSendersNext, i) &&
        SameOutside(old(t.eventWaitNext), t.eventWaitNext, i) && SameOutside(old(t.tid), t.tid, i)
      ensures SameOutside(old(t.slabIndex), t.slabIndex, i)
      ensures var task := i * N_TASK_T + j;
        t.waitingSendersNext == old(t.waitingSendersNext)[task := NULL] &&
        t.eventWaitNext == old(t.eventWaitNext)[task := NULL] &&
        t.tid == old(t.tid)[task := 0] && t.slabIndex == old(t.slabIndex)[task := i]
    {
      hide Chain, Sorted;
      var task := i * N_TASK_T + j;
      assert SlabOf(task) == i;
      ghost var link, before := t.next, free;
      t.Clear(task);
      t.slabIndex := t.slabIndex[task := i];
      ChainOther(link, freeList, free, task, NULL);
      AddToFreeList(task);
      forall x ensures x in free <==> x == task || x in before { InsertedMembers(before, task, x); }
      forall s: nat
        ensures CountIn(free, s) == CountIn(before, s) + if i == s then 1 else 0
      {
        CountInserted(before, task, s);
      }
    }

    /** Hands out the first task of the free list. */
    method TakeFirst(ghost s0: nat) returns (task: nat)
      requires free != [] && Listed() && Accounted(activeSlabs, taskCountInSlab, free, t.slabIndex, s0)
      requires s0 == N_SLABS || SlabOf(free[0]) == s0
      modifies this`freeList, this`free, this`taskCountInSlab, t`next, t`waitingSendersNext, t`eventWaitNext, t`tid
      ensures Valid() && activeSlabs == old(activeSlabs)
      ensures task == old(free[0]) < N_TASKS && Live() == old(Live()) + {task} && task !in old(Live())
      ensures t.next == old(t.next)[task := NULL] && t.waitingSendersNext == old(t.waitingSendersNext)[task := NULL]
      ensures t.eventWaitNext == old(t.eventWaitNext)[task := NULL] && t.tid == old(t.tid)[task := 0]
    {
      hide Chain, Sorted, Accounted, SlabOf, LiveIn, Without;
      TakeSettles(activeSlabs, taskCountInSlab, free, t.slabIndex, s0);
      ChainMembers(t.next, freeList, free);
      ChainRemoveHead(t.next, freeList, free, NULL);
      WithoutHead(free);
      SortedTail(free);
      HeadOnce(t.next, freeList, free);
      LiveTaken(activeSlabs, free);
      assert forall x :: x in free[1..] ==> x in free;
      task := freeList;
      freeList := t.next[task];
      free := free[1..];
      taskCountInSlab := taskCountInSlab[t.slabIndex[task] := taskCountInSlab[t.slabIndex[task]] + 1];
      t.Clear(task);
    }

    /** The lowest slab not in use; without one, and with nothing free, every task is live. */
    method FindUnusedSlab() returns (i: nat)
      requires Valid() && free == []
      ensures i <= N_SLABS && (i < N_SLABS ==> activeSlabs[i] == 0 && !AllLive(Live()))
      ensures forall s :: 0 <= s < i ==> activeSlabs[s] == 1
      ensures i == N_SLABS ==> AllLive(Live())
    {
      hide Chain, Sorted;
      i := 0;
      while i < N_SLABS && activeSlabs[i] != 0
        invariant 0 <= i <= N_SLABS && forall s :: 0 <= s < i ==> activeSlabs[s] == 1
      {
        i := i + 1;
      }
      if i < N_SLABS { assert i * N_TASK_T !in Live() && i * N_TASK_T < N_TASKS; }
    }

    /** task_alloc_new: a task that was not live, or NULL when every task is. */
    method New() returns (task: int)
      requires Valid()
      modifies this, t`next, t`waitingSendersNext, t`eventWaitNext, t`tid, t`slabIndex
      ensures Valid()
      ensures task == NULL <==> AllLive(old(Live()))
      ensures task == NULL ==> Live() == old(Live())
      ensures task != NULL ==> 0 <= task < N_TASKS && task !in old(Live()) && Live() == old(Live()) + {task as nat}
      ensures task != NULL ==> t.next[task] == NULL && t.waitingSendersNext[task] == NULL &&
                               t.eventWaitNext[task] == NULL && t.tid[task] == 0
      ensures SameOn(old(t.next), t.next, old(Live()))
      ensures SameOn(old(t.waitingSendersNext), t.waitingSendersNext, old(Live()))
      ensures SameOn(old(t.eventWaitNext), t.eventWaitNext, old(Live())) && SameOn(old(t.tid), t.tid, old(Live()))
    {
      hide Chain, Sorted;
      ghost var live, s0 := Live(), N_SLABS as nat;
      ChainMembers(t.next, freeList, free);
      if freeList == NULL {
        var i := FindUnusedSlab();
        if i == N_SLABS { return NULL; }
        ActivateSlab(i);
        s0 := i;
        assert Live() == live;
        assert free[0] in free;
      } else {
        assert free[0] in free && free[0] !in live;
      }
      task := TakeFirst(s0);
    }

    /** Unlinks every task of slab s from the free list. */
    method RemoveSlab(s: nat)
      requires Listed()
      modifies this`freeList, this`free, t`next
      ensures Listed() && free == Others(old(free), s)
      ensures forall y :: 0 <= y < N_TASKS && y !in old(free) ==> t.next[y] == old(t.next[y])
    {
      hide Chain, Sorted, Others;
      ghost var kept: seq<nat>, rest: seq<nat> := [], free;
      var prev, current := NULL, freeList;
      ChainMembers(t.next, freeList, free);
      assert [] + rest == rest && [] + Others(rest, s) == Others(rest, s);
      while current != NULL
        invariant |t.next| == N_TASKS && Chain(t.next, freeList, kept + rest)
        invariant prev == LastOf(kept) && current == HeadOf(rest)
        invariant forall x :: x in kept || x in rest ==> x in free
        invariant Others(free, s) == kept + Others(rest, s)
        invariant forall y :: 0 <= y < N_TASKS && y !in free ==> t.next[y] == old(t.next[y])
        invariant free == old(free)
        decreases |rest|
      {
        UnlinkStep(t.next, freeList, kept, rest);
        OthersHead(kept, rest, s);
        assert current in rest && forall x :: x in rest[1..] ==> x in rest;
        if t.slabIndex[current] == s {
          if prev == NULL {
            freeList := t.next[current];
          } else {
            assert prev in kept;
            t.next := t.next[prev := t.next[current]];
          }
          var temp := current;
          current := t.next[current];
          t.next := t.next[temp := NULL];
        } else {
          prev := current;
          current := t.next[current];
          kept := kept + [rest[0]];
        }
        rest := rest[1..];
      }
      OthersNil(s);
      assert kept + [] == kept;
      OthersSorted(free, s);
      forall x ensures x in kept ==> x in free { }
      free := kept;
    }

    /** task_alloc_free: exactly this task is live no more. */
    method Free(task: nat)
      requires Valid() && task in Live()
      modifies this, t`next, t`state
      ensures Valid() && Live() == old(Live()) - {task}
      ensures t.state == old(t.state)[task := Killed]
      ensures SameOn(old(t.next), t.next, Live())
    {
      hide Chain, Sorted;
      ghost var free0, s := free, SlabOf(task);
      t.state := t.state[task := Killed];
      AddToFreeList(task);
      ghost var free1, link1, head1 := free, t.next, freeList;
      FreeSettles(activeSlabs, taskCountInSlab, free0, t.slabIndex, task);
      LiveFreed(activeSlabs, free0, free1, task);
      taskCountInSlab := taskCountInSlab[t.slabIndex[task] := taskCountInSlab[t.slabIndex[task]] - 1];
      if taskCountInSlab[t.slabIndex[task]] == 0 {
        var slabIndex := t.slabIndex[task];
        RemoveSlab(slabIndex);
        ChainNoRepeats(link1, head1, free1);
        DeactivateSettles(activeSlabs, taskCountInSlab, free1, t.slabIndex, s);
        activeSlabs := activeSlabs[t.slabIndex[task] := 0];
      }
    }
  }

  /** A column is the same outside slab i. */
  ghost predicate SameOutside(a: seq<int>, b: seq<int>, i: nat) {
    |a| == |b| && forall x: nat :: x < |a| && SlabOf(x) != i ==> a[x] == b[x]
  }

  /** A column is the same for the tasks in s. */
  ghost predicate SameOn(a: seq<int>, b: seq<int>, s: set<nat>) {
    |a| == |b| && forall x: nat :: x in s && x < |a| ==> a[x] == b[x]
  }

  /** Relinking for an insertion at position k, at the head or behind an element. */
  lemma InsertAt(link: seq<int>, head: int, s: seq<nat>, k: nat, x: nat)
    requires Chain(link, head, s) && s != [] && k <= |s| && x < |link| && x !in s
    ensures head == HeadOf(s[k..]) <==> k == 0
    ensures k == 0 ==> Chain(link[x := head], x, s[..k] + [x] + s[k..])
    ensures k > 0 ==> s[k - 1] < |link| && Chain(link[s[k - 1] := x][x := HeadOf(s[k..])], head, s[..k] + [x] + s[k..])
  {
    if k == 0 {
      ChainPrepend(link, head, s, x);
      assert s[..0] + [x] + s[0..] == [x] + s;
    } else {
      ChainInsert(link, head, s, k, x);
      if k < |s| { ChainDistinct(link, head, s, 0, k); }
    }
  }

  ghost predicate AllLive(live: set<nat>) {
    forall x: nat :: x < N_TASKS ==> x in live
  }

  lemma WithoutHead(s: seq<nat>)
    requires s != []
    ensures Without(s, 0) == s[1..]
  {
  }

  lemma SortedTail(s: seq<nat>)
    requires Sorted(s) && s != []
    ensures Sorted(s[1..])
  {
    hide SlabOf;
    forall j, k | 0 <= j < k < |s[1..]| ensures SlabOf(s[1..][j]) <= SlabOf(s[1..][k]) {
      assert s[1..][j] == s[j + 1] && s[1..][k] == s[k + 1];
    }
  }

  lemma HeadOnce(link: seq<int>, head: nat, s: seq<nat>)
    requires Chain(link, head, s) && s != []
    ensures s[0] == head && head !in s[1..]
  {
  }
}
