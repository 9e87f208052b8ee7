/** The scheduler's queues and task identifiers (kernel/src/task-queue.c). */
module TaskQueue {
  import opened Chains
  import opened TaskTable

  const MAX_TID := 65535
  const WRAP_AROUND_TID := 300
  const FIRST_TID := 50
  const N_SERVER_PRIORITY := 4

  /** One list per priority; a task is only ever in the list of its own priority. */
  ghost predicate Linked(next: seq<int>, priority: seq<int>, front: seq<int>, back: seq<int>, queues: seq<seq<nat>>) {
    |next| == N_TASKS && |priority| == N_TASKS && |front| == N_PRIORITY && |back| == N_PRIORITY &&
    |queues| == N_PRIORITY &&
    (forall p: nat :: p < N_PRIORITY ==> Chain(next, front[p], queues[p]) && back[p] == LastOf(queues[p])) &&
    (forall p: nat :: p < N_PRIORITY ==> AllOfPriority(priority, queues[p], p))
  }

  ghost predicate AllOfPriority(priority: seq<int>, q: seq<nat>, p: nat) {
    forall x :: x in q ==> x < |priority| && priority[x] == p
  }

  ghost predicate InSome(queues: seq<seq<nat>>, x: nat) {
    exists p: nat :: p < |queues| && x in queues[p]
  }

  lemma ListedOnce(next: seq<int>, priority: seq<int>, front: seq<int>, back: seq<int>, queues: seq<seq<nat>>, x: nat)
    requires Linked(next, priority, front, back, queues) && x < N_TASKS && 0 <= priority[x] < N_PRIORITY
    ensures InSome(queues, x) <==> x in queues[priority[x]]
    ensures forall q: nat :: q < N_PRIORITY && q != priority[x] ==> x !in queues[q]
  {
  }

  /** Linking a task behind the last one of its priority. */
  lemma PushLinks(next: seq<int>, priority: seq<int>, front: seq<int>, back: seq<int>, queues: seq<seq<nat>>, x: nat)
    requires Linked(next, priority, front, back, queues)
    requires x < N_TASKS && 0 <= priority[x] < N_PRIORITY && x !in queues[priority[x]]
    ensures var p, one := priority[x], next[x := NULL];
      var queues' := queues[p := queues[p] + [x]];
      (back[p] == NULL ==> Linked(one, priority, front[p := x], back[p := x], queues')) &&
      (back[p] != NULL ==> 0 <= back[p] < N_TASKS && back[p] in queues[p] &&
                           Linked(one[back[p] := x], priority, front, back[p := x], queues'))
  {
    hide Chain;
    var p := priority[x];
    ChainMembers(next, front[p], queues[p]);
    ChainAppend(next, front[p], queues[p], x);
    forall q: nat | q < N_PRIORITY && q != p
      ensures Chain(next[x := NULL], front[q], queues[q])
      ensures back[p] != NULL ==> Chain(next[x := NULL][back[p] := x], front[q], queues[q])
    {
      ChainOther(next, front[q], queues[q], x, NULL);
      if back[p] != NULL { ChainOther(next[x := NULL], front[q], queues[q], back[p], x); }
    }
  }

  /** Unlinking the task at position k of list p. */
  lemma RemoveLinks(next: seq<int>, priority: seq<int>, front: seq<int>, back: seq<int>, queues: seq<seq<nat>>, p: nat,
                    k: nat)
    requires Linked(next, priority, front, back, queues) && p < N_PRIORITY && k < |queues[p]|
    ensures var q := queues[p];
      q[k] < N_TASKS && (k > 0 ==> q[k - 1] < N_TASKS && q[k] != q[k - 1]) && (q[k] == back[p] <==> k == |q| - 1) &&
      (q[k] == front[p] <==> k == 0)
    ensures var q := queues[p];
      var back' := if q[k] == back[p] then back[p := if k == 0 then NULL else q[k - 1]] else back;
      Linked((if k == 0 then next else next[q[k - 1] := next[q[k]]])[q[k] := NULL], priority,
             if k == 0 then front[p := next[q[k]]] else front, back', queues[p := Without(q, k)])
  {
    hide Chain, Without, InSome;
    var q := queues[p];
    var x := q[k];
    ChainMembers(next, front[p], q);
    WithoutMembers(next, front[p], q, k, x);
    WithoutInfo(q, k);
    assert x in q;
    if k > 0 { ChainDistinct(next, front[p], q, 0, k); ChainDistinct(next, front[p], q, k - 1, k); }
    if k < |q| - 1 { ChainDistinct(next, front[p], q, k, |q| - 1); }
    ChainUnlinked(next, front[p], q, k);
    forall r: nat | r < N_PRIORITY && r != p
      ensures Chain((if k == 0 then next else next[q[k - 1] := next[x]])[x := NULL], front[r], queues[r])
    {
      if k > 0 { ChainOther(next, front[r], queues[r], q[k - 1], next[x]); }
      ChainOther(if k == 0 then next else next[q[k - 1] := next[x]], front[r], queues[r], x, NULL);
    }
  }

  lemma ChainUnlinked(next: seq<int>, head: int, q: seq<nat>, k: nat)
    requires Chain(next, head, q) && k < |q|
    ensures q[k] < |next| && (k > 0 ==> q[k - 1] < |next|)
    ensures Chain((if k == 0 then next else next[q[k - 1] := next[q[k]]])[q[k] := NULL],
                  if k == 0 then next[q[k]] else head, Without(q, k))
  {
    hide Chain, Without;
    ChainMembers(next, head, q);
    if k == 0 {
      ChainRemoveHead(next, head, q, NULL);
    } else {
      ChainRemove(next, head, q, k);
      WithoutMembers(next, head, q, k, q[k]);
      ChainOther(next[q[k - 1] := next[q[k]]], head, Without(q, k), q[k], NULL);
    }
  }

  lemma UnlinkedMembers(next: seq<int>, priority: seq<int>, front: seq<int>, back: seq<int>, queues: seq<seq<nat>>,
                        p: nat, k: nat)
    requires Linked(next, priority, front, back, queues) && p < N_PRIORITY && k < |queues[p]|
    ensures InSome(queues, queues[p][k])
    ensures forall y: nat :: InSome(queues[p := Without(queues[p], k)], y) <==> InSome(queues, y) && y != queues[p][k]
  {
    hide Chain, Without;
    var q, queues' := queues[p], queues[p := Without(queues[p], k)];
    assert q[k] in q;
    forall y: nat ensures InSome(queues', y) <==> InSome(queues, y) && y != q[k] {
      WithoutMembers(next, front[p], q, k, y);
      if InSome(queues, y) && y != q[k] {
        var r: nat :| r < |queues| && y in queues[r];
        assert y in queues'[r];
      }
      if InSome(queues', y) {
        var r: nat :| r < |queues'| && y in queues'[r];
        assert y in queues[r] && AllOfPriority(priority, queues[r], r) && AllOfPriority(priority, q, p);
      }
    }
  }

  lemma WithoutInfo(q: seq<nat>, k: nat)
    requires k < |q|
    ensures LastOf(Without(q, k)) == if k < |q| - 1 then LastOf(q) else if k == 0 then NULL else q[k - 1]
    ensures forall x :: x in Without(q, k) ==> x in q
    ensures |q| == 1 ==> Without(q, k) == []
  {
  }

  ghost predicate Runnable(state: seq<TaskState>, x: nat) {
    x < |state| && (state[x] == Ready || state[x] == TaskState.Killed)
  }

  ghost predicate NoneRunnable(state: seq<TaskState>, q: seq<nat>) {
    forall x :: x in q ==> !Runnable(state, x)
  }

  /** No queued task has this identifier. */
  ghost predicate Unused(tid: seq<int>, queues: seq<seq<nat>>, v: int)
    requires |tid| == N_TASKS
  {
    forall x: nat :: x < N_TASKS && InSome(queues, x) ==> tid[x] != v
  }

  /** Where the search for an identifier starts after g was handed out. */
  function FirstTid(g: int): (r: int)
    ensures g == 65535 ==> r == 300
    ensures g != 65535 ==> r == g + 1
  {
    if g == MAX_TID then WRAP_AROUND_TID else g + 1
  }

  /** Every identifier from lo up to and without hi is in use. */
  ghost predicate AllUsed(tid: seq<int>, queues: seq<seq<nat>>, lo: int, hi: int)
    requires |tid| == N_TASKS
  {
    forall v :: lo <= v < hi ==> !Unused(tid, queues, v)
  }

  ghost predicate ChildOf(tid: seq<int>, parent: int, v: int)
    requires |tid| == N_TASKS
  {
    0 <= parent < N_TASKS && tid[parent] == v
  }

  ghost predicate ParentsInRange(parent: seq<int>, queues: seq<seq<nat>>) {
    forall x: nat :: x < |parent| && InSome(queues, x) ==> NULL <= parent[x] < N_TASKS
  }

  /** Conversion to int16_t. */
  function Narrow16(v: int): (r: int)
    ensures -32768 <= r < 32768 && (r - v) % 65536 == 0
    ensures -32768 <= v < 32768 ==> r == v
  {
    if v % 65536 < 32768 then v % 65536 else v % 65536 - 65536
  }

  class Queue {
    const t: Tasks
    var front: seq<int>
    var back: seq<int>
    var globalTid: int
    ghost var queues: seq<seq<nat>>

    ghost predicate Valid()
      reads this, t
    {
      t.Sized() && Linked(t.next, t.priority, front, back, queues) && 0 <= globalTid <= MAX_TID
    }

    constructor (tasks: Tasks)
      requires tasks.Sized()
      ensures Valid() && t == tasks && globalTid == FIRST_TID && forall x: nat :: !InSome(queues, x)
    {
      t := tasks;
      front, back := seq(N_PRIORITY, i => NULL), seq(N_PRIORITY, i => NULL);
      globalTid := FIRST_TID;
      queues := seq(N_PRIORITY, i => []);
    }

    /** task_queue_push. */
    method Push(task: nat)
      requires Valid() && task < N_TASKS && 0 <= t.priority[task] < N_PRIORITY && task !in queues[t.priority[task]]
      modifies this`front, this`back, this`queues, t`next
      ensures Valid()
      ensures var p := t.priority[task]; queues == old(queues)[p := old(queues)[p] + [task]]
      ensures forall y: nat :: InSome(queues, y) <==> y == task || InSome(old(queues), y)
      ensures forall y: nat :: y < N_TASKS && !InSome(queues, y) ==> t.next[y] == old(t.next[y])
    {
      hide Chain, Linked, InSome;
      var p := t.priority[task];
      PushLinks(t.next, t.priority, front, back, queues, task);
      LinkedSizes(t.next, t.priority, front, back, queues);
      PushedMembers(queues, p, task);
      InSomeIntro(queues, p);
      ghost var queues' := queues[p := queues[p] + [task]];
      assert forall y: nat :: InSome(queues', y) <==> y == task || InSome(queues, y);
      t.next := t.next[task := NULL];
      if back[p] == NULL {
        front, back := front[p := task], back[p := task];
      } else {
        t.next := t.next[back[p] := task];
        back := back[p := task];
      }
      queues := queues';
    }

    /** The walk to the first runnable task of list p. */
    method FindRunnable(p: nat) returns (last: int, current: int, ghost k: nat)
      requires Valid() && p < N_PRIORITY
      ensures k <= |queues[p]| && current == HeadOf(queues[p][k..]) && last == if k == 0 then NULL else queues[p][k - 1]
      ensures NoneRunnable(t.state, queues[p][..k])
      ensures current == NULL ==> NoneRunnable(t.state, queues[p])
      ensures current != NULL ==> k < |queues[p]| && current == queues[p][k] && Runnable(t.state, current)
    {
      hide Chain;
      ghost var q := queues[p];
      last, current, k := NULL, front[p], 0;
      assert q[0..] == q && q[..0] == [];
      ChainMembers(t.next, front[p], q);
      while current != NULL
        invariant k <= |q| && current == HeadOf(q[k..]) && last == if k == 0 then NULL else q[k - 1]
        invariant NoneRunnable(t.state, q[..k])
        decreases |q| - k
      {
        assert current == q[k] && current in q;
        if t.state[current] == Ready || t.state[current] == TaskState.Killed { return; }
        ChainStep(t.next, front[p], q, k);
        assert q[..k + 1] == q[..k] + [q[k]];
        last := current;
        current := t.next[current];
        k := k + 1;
      }
      assert q[..k] == q;
    }

    /** Unlinks the task at position k of list p, last being the one before it. */
    method Unlink(p: nat, last: int, current: int, ghost k: nat)
      requires Valid() && p < N_PRIORITY && k < |queues[p]| && current == queues[p][k]
      requires last == if k == 0 then NULL else queues[p][k - 1]
      modifies this`front, this`back, this`queues, t`next
      ensures Valid() && 0 <= current < N_TASKS && t.next[current] == NULL
      ensures queues == old(queues)[p := Without(old(queues)[p], k)]
      ensures InSome(old(queues), current) && forall y: nat :: InSome(queues, y) <==>
        InSome(old(queues), y) && y != current
      ensures forall y: nat :: y < N_TASKS && !InSome(old(queues), y) ==> t.next[y] == old(t.next[y])
    {
      hide Chain, Without, InSome, Linked;
      RemoveLinks(t.next, t.priority, front, back, queues, p, k);
      LinkedSizes(t.next, t.priority, front, back, queues);
      InSomeIntro(queues, p);
      UnlinkedMembers(t.next, t.priority, front, back, queues, p, k);
      assert current in queues[p] && (k > 0 ==> last in queues[p]);
      if current == front[p] {
        front := front[p := t.next[current]];
      } else {
        t.next := t.next[last := t.next[current]];
      }
      if current == back[p] {
        back := back[p := last];
      }
      t.next := t.next[current := NULL];
      queues := queues[p := Without(queues[p], k)];
    }

    /** task_queue_schedule: the first runnable task of the highest priority that has one; all other order stays. */
    method Schedule() returns (task: int, ghost p: nat, ghost k: nat)
      requires Valid()
      modifies this`front, this`back, this`queues, t`next
      ensures Valid()
      ensures task == NULL <==> forall r: nat :: r < N_PRIORITY ==> NoneRunnable(t.state, old(queues)[r])
      ensures task == NULL ==> queues == old(queues)
      ensures task != NULL ==>
        Picked(t.state, old(queues), p, k) && task == old(queues)[p][k] && t.next[task] == NULL &&
                               queues == old(queues)[p := Without(old(queues)[p], k)]
      ensures task != NULL ==> 0 <= task < N_TASKS && InSome(old(queues), task)
      ensures task != NULL ==> forall y: nat :: InSome(queues, y) <==> InSome(old(queues), y) && y != task
      ensures forall y: nat :: y < N_TASKS && !InSome(old(queues), y) ==> t.next[y] == old(t.next[y])
    {
      hide Chain, Without, InSome, NoneRunnable, Runnable, AllOfPriority;
      var i := N_PRIORITY;
      while i > 0
        invariant 0 <= i <= N_PRIORITY && Valid() && queues == old(queues)
        invariant forall r: nat :: i <= r < N_PRIORITY ==> NoneRunnable(t.state, queues[r])
        invariant forall y: nat :: y < N_TASKS && !InSome(queues, y) ==> t.next[y] == old(t.next[y])
      {
        i := i - 1;
        if front[i] == NULL && back[i] == NULL {
          ChainMembers(t.next, front[i], queues[i]);
          NothingRunnable(t.state, queues[i]);
          continue;
        }
        var last, current, j := FindRunnable(i);
        if current != NULL {
          RunnableThere(t.state, queues[i], j);
          Unlink(i, last, current, j);
          return current, i, j;
        }
      }
      return NULL, 0, 0;
    }

    /** The inner loop of task_queue_get: the task of list p with this identifier, or NULL. */
    method FindIn(p: nat, v: int) returns (task: int)
      requires Valid() && p < N_PRIORITY
      ensures task == NULL <==> forall x :: x in queues[p] ==> t.tid[x] != v
      ensures task != NULL ==> task in queues[p] && t.tid[task] == v
    {
      hide Chain, InSome;
      ghost var q, k: nat := queues[p], 0;
      task := front[p];
      assert q[0..] == q && q[..0] == [];
      ChainMembers(t.next, front[p], q);
      while task != NULL
        invariant k <= |q| && task == HeadOf(q[k..])
        invariant forall j :: 0 <= j < k ==> q[j] < N_TASKS && t.tid[q[j]] != v
        decreases |q| - k
      {
        assert task == q[k] && task in q;
        if t.tid[task] == v { return; }
        ChainStep(t.next, front[p], q, k);
        task := t.next[task];
        k := k + 1;
      }
    }

    /** task_queue_get. */
    method Get(v: int) returns (task: int)
      requires Valid()
      ensures task == NULL <==> Unused(t.tid, queues, v)
      ensures task != NULL ==> 0 <= task < N_TASKS && InSome(queues, task) && t.tid[task] == v
    {
      hide Chain, InSome;
      var i := N_PRIORITY;
      while i > 0
        invariant 0 <= i <= N_PRIORITY
        invariant forall r: nat, x :: i <= r < N_PRIORITY && x in queues[r] ==> t.tid[x] != v
      {
        i := i - 1;
        task := FindIn(i, v);
        if task != NULL {
          InSomeIntro(queues, i);
          return task;
        }
      }
      NoneSomewhere(t.tid, queues, v);
      return NULL;
    }

    /** task_queue_get_tid: the next identifier no queued task has, from the last one handed out. */
    method GetTid() returns (v: int)
      requires Valid()
      modifies this`globalTid
      ensures Valid()
      ensures var start := FirstTid(old(globalTid));
        if v == -1 then globalTid == old(globalTid) && AllUsed(t.tid, queues, start, MAX_TID + 1)
        else start <= v == globalTid && Unused(t.tid, queues, v) && AllUsed(t.tid, queues, start, v)
    {
      hide Unused, Linked;
      var tid := if globalTid == MAX_TID then WRAP_AROUND_TID else globalTid + 1;
      ghost var start := tid;
      while tid <= MAX_TID
        invariant start <= tid <= MAX_TID + 1 && AllUsed(t.tid, queues, start, tid) && globalTid == old(globalTid)
      {
        var dup := Get(tid);
        if dup == NULL {
          globalTid := tid;
          return globalTid;
        } else {
          tid := tid + 1;
        }
      }
      return -1;
    }

    /** task_queue_add: a new task gets its identifier; the task goes behind the others of its priority. */
    method Add(task: nat) returns (r: int)
      requires Valid() && task < N_TASKS && 0 <= t.priority[task] < N_PRIORITY && !InSome(queues, task)
      modifies this, t`state, t`tid, t`next
      ensures Valid()
      ensures t.state == old(t.state)[task := if old(t.state[task]) == Running then Ready else old(t.state[task])]
      ensures old(t.tid[task]) != 0 ==> r == old(t.tid[task]) && globalTid == old(globalTid) && t.tid == old(t.tid)
      ensures old(t.tid[task]) == 0 && r < 0 ==> queues == old(queues) && t.next == old(t.next) && t.tid == old(t.tid)
      ensures old(t.tid[task]) == 0 && r >= 0 ==>
        Unused(old(t.tid), old(queues), r) && r == globalTid && t.tid == old(t.tid)[task := r]
      ensures old(t.tid[task]) != 0 || r >= 0 ==>
                queues == old(queues)[t.priority[task] := old(queues)[t.priority[task]] + [task]] &&
                forall y: nat :: InSome(queues, y) <==> y == task || InSome(old(queues), y)
      ensures old(t.tid[task] == 0 && globalTid < 32767 && Unused(t.tid, queues, globalTid + 1)) ==>
        r == old(globalTid) + 1
      ensures old(t.tid[task]) == 0 ==> (r < 0 <==> AllUsed(old(t.tid), old(queues), FirstTid(old(globalTid)), 0x8000))
      ensures old(t.tid[task]) == 0 && r >= 0 ==>
        FirstTid(old(globalTid)) <= r < 0x8000 && AllUsed(old(t.tid), old(queues), FirstTid(old(globalTid)), r)
      ensures forall y: nat :: y < N_TASKS && !InSome(queues, y) ==> t.next[y] == old(t.next[y])
    {
      hide Unused, Linked, InSome;
      NowhereListed(queues, t.priority[task], task);
      LinkedSizes(t.next, t.priority, front, back, queues);
      if t.state[task] == Running { t.state := t.state[task := Ready]; }
      if t.tid[task] == 0 {
        var tid := GetTid();
        tid := Narrow16(tid);
        if tid < 0 { return tid; }
        t.tid := t.tid[task := tid];
      }
      Push(task);
      return t.tid[task];
    }

    /** task_queue_empty: no task is left between the idle priority and the server priorities. */
    method Empty() returns (r: bool)
      requires Valid()
      ensures r <==> forall p: nat :: 1 <= p < N_PRIORITY - N_SERVER_PRIORITY ==> queues[p] == []
    {
      hide Chain;
      for p := 1 to N_PRIORITY - N_SERVER_PRIORITY
        invariant forall q: nat :: 1 <= q < p ==> queues[q] == []
      {
        ChainMembers(t.next, front[p], queues[p]);
        if !(front[p] == NULL && back[p] == NULL) { return false; }
      }
      return true;
    }

    /** The inner loop of task_queue_free_tid, with a task that has no parent left alone. */
    method FreeTidIn(p: nat, v: int)
      requires Valid() && p < N_PRIORITY && ParentsInRange(t.parent, queues)
      modifies t`parent
      ensures Valid() && ParentsInRange(t.parent, queues)
      ensures forall x: nat :: x < N_TASKS ==>
                t.parent[x] == if x in queues[p] && ChildOf(t.tid, old(t.parent[x]), v) then NULL else old(t.parent[x])
    {
      hide Chain, InSome, Linked;
      ListInfo(t.next, t.priority, front, back, queues, p);
      ghost var q, k: nat := queues[p], 0;
      assert q[0..] == q;
      var current := front[p];
      while current != NULL
        invariant t.Sized() && k <= |q| && current == HeadOf(q[k..])
        invariant forall x: nat :: x < N_TASKS ==>
          t.parent[x] == if x in q[..k] && ChildOf(t.tid, old(t.parent[x]), v) then NULL else old(t.parent[x])
        decreases |q| - k
      {
        ChainStep(t.next, front[p], q, k);
        assert q[..k + 1] == q[..k] + [q[k]] && current in q && InSome(queues, current);
        if t.parent[current] != NULL && t.tid[t.parent[current]] == v {
          t.parent := t.parent[current := NULL];
        }
        current := t.next[current];
        k := k + 1;
      }
      assert q[..k] == q;
    }

    /** task_queue_free_tid. */
    method FreeTid(v: int)
      requires Valid() && ParentsInRange(t.parent, queues)
      modifies t`parent
      ensures Valid()
      ensures forall x: nat :: x < N_TASKS ==>
                t.parent[x] == if InSome(queues, x) &&
                ChildOf(t.tid, old(t.parent[x]), v) then NULL else old(t.parent[x])
    {
      hide Chain, Linked, ChildOf;
      var i := N_PRIORITY;
      LinkedSizes(t.next, t.priority, front, back, queues);
      while i > 0
        invariant 0 <= i <= N_PRIORITY && Valid() && ParentsInRange(t.parent, queues)
        invariant forall x: nat :: x < N_TASKS ==>
          t.parent[x] == if InSome(queues[i..], x) &&
          ChildOf(t.tid, old(t.parent[x]), v) then NULL else old(t.parent[x])
      {
        i := i - 1;
        FreeTidIn(i, v);
        InSomeStep(queues, i);
      }
      assert queues[0..] == queues;
    }
  }

  /** Position k of list p is runnable; nothing ahead of it in the list and nothing of higher priority is. */
  ghost predicate Picked(state: seq<TaskState>, queues: seq<seq<nat>>, p: nat, k: nat) {
    p < |queues| && k < |queues[p]| && Runnable(state, queues[p][k]) && NoneRunnable(state, queues[p][..k]) &&
    forall r: nat :: p < r < |queues| ==> NoneRunnable(state, queues[r])
  }

  lemma RunnableThere(state: seq<TaskState>, q: seq<nat>, k: nat)
    requires k < |q| && Runnable(state, q[k])
    ensures !NoneRunnable(state, q)
  {
  }

  lemma NothingRunnable(state: seq<TaskState>, q: seq<nat>)
    ensures q == [] ==> NoneRunnable(state, q)
  {
  }

  lemma InSomeIntro(queues: seq<seq<nat>>, p: nat)
    requires p < |queues|
    ensures forall x :: x in queues[p] ==> InSome(queues, x)
  {
  }

  lemma InSomeStep(queues: seq<seq<nat>>, i: nat)
    requires i < |queues|
    ensures forall x: nat :: InSome(queues[i..], x) <==> x in queues[i] || InSome(queues[i + 1..], x)
  {
    forall x: nat ensures InSome(queues[i..], x) <==> x in queues[i] || InSome(queues[i + 1..], x) {
      if x in queues[i] { assert x in queues[i..][0]; }
      if InSome(queues[i + 1..], x) {
        var p: nat :| p < |queues[i + 1..]| && x in queues[i + 1..][p];
        assert queues[i + 1..][p] == queues[i..][p + 1];
      }
      if InSome(queues[i..], x) {
        var p: nat :| p < |queues[i..]| && x in queues[i..][p];
        assert p > 0 ==> queues[i..][p] == queues[i + 1..][p - 1];
      }
    }
  }

  lemma NowhereListed(queues: seq<seq<nat>>, p: int, x: nat)
    requires !InSome(queues, x)
    ensures 0 <= p < |queues| ==> x !in queues[p]
  {
  }

  lemma ListInfo(next: seq<int>, priority: seq<int>, front: seq<int>, back: seq<int>, queues: seq<seq<nat>>, p: nat)
    requires Linked(next, priority, front, back, queues) && p < N_PRIORITY
    ensures |front| == N_PRIORITY && |queues| == N_PRIORITY
    ensures Chain(next, front[p], queues[p]) && front[p] == HeadOf(queues[p])
    ensures forall x :: x in queues[p] ==> x < N_TASKS && InSome(queues, x)
  {
    hide Chain;
    ChainMembers(next, front[p], queues[p]);
  }

  lemma NoneSomewhere(tid: seq<int>, queues: seq<seq<nat>>, v: int)
    requires |tid| == N_TASKS && forall r: nat, x :: r < |queues| && x in queues[r] && x < N_TASKS ==> tid[x] != v
    ensures Unused(tid, queues, v)
  {
  }

  lemma LinkedSizes(next: seq<int>, priority: seq<int>, front: seq<int>, back: seq<int>, queues: seq<seq<nat>>)
    requires Linked(next, priority, front, back, queues)
    ensures |front| == N_PRIORITY && |back| == N_PRIORITY && |queues| == N_PRIORITY
  {
  }

  lemma PushedMembers(queues: seq<seq<nat>>, p: nat, x: nat)
    requires p < |queues|
    ensures var queues' := queues[p := queues[p] + [x]]; forall y: nat :: InSome(queues', y) <==>
      y == x || InSome(queues, y)
  {
    var queues' := queues[p := queues[p] + [x]];
    assert x in queues'[p];
    forall y: nat ensures InSome(queues', y) <==> y == x || InSome(queues, y) {
      if InSome(queues, y) {
        var q: nat :| q < |queues| && y in queues[q];
        assert y in queues'[q];
      }
      if InSome(queues', y) {
        var q: nat :| q < |queues'| && y in queues'[q];
        assert y == x || y in queues[q];
      }
    }
  }

  // ----- how long a ready task waits -----

  ghost function FirstRunnable(state: seq<TaskState>, q: seq<nat>): nat {
    if q == [] || Runnable(state, q[0]) then 0 else 1 + FirstRunnable(state, q[1..])
  }

  lemma {:induction false} FirstRunnableIs(state: seq<TaskState>, q: seq<nat>, k: nat)
    requires k < |q| && Runnable(state, q[k])
    ensures FirstRunnable(state, q) <= k
    ensures NoneRunnable(state, q[..k]) ==> FirstRunnable(state, q) == k
  {
    if k > 0 {
      FirstRunnableIs(state, q[1..], k - 1);
      assert q[..k][0] == q[0] && q[..k][1..] == q[1..][..k - 1];
      assert forall x :: x in q[1..][..k - 1] ==> x in q[..k];
      assert q[0] in q[..k];
    }
  }

  /** With nothing runnable above priority p and something runnable in its list, the first runnable of list p is
      picked. */
  lemma PickedHere(state: seq<TaskState>, queues: seq<seq<nat>>, p: nat, x: nat, picked: nat, k: nat)
    requires Picked(state, queues, picked, k) && p < |queues| && x in queues[p] && Runnable(state, x)
    requires forall r: nat :: p < r < |queues| ==> NoneRunnable(state, queues[r])
    ensures picked == p && k == FirstRunnable(state, queues[p])
  {
    assert queues[picked][k] in queues[picked];
    FirstRunnableIs(state, queues[picked], k);
  }

  /** Every list keeps what it had, at its front. */
  ghost predicate Grown(queues: seq<seq<nat>>, queues': seq<seq<nat>>) {
    |queues'| == |queues| && forall p: nat :: p < |queues| ==> queues[p] <= queues'[p]
  }

  /** What the scheduler sees at the head of the loop. */
  datatype Shot = Shot(state: seq<TaskState>, queues: seq<seq<nat>>)

  /** A run: ran[i] is the task picked in round i, and each round is a step of the lists. */
  ghost predicate Rounds(shots: seq<Shot>, ran: seq<nat>) {
    |shots| == |ran| + 1 && forall i :: 0 <= i < |ran| ==> OneRound(shots[i], ran[i], shots[i + 1])
  }

  /** The task picked leaves its list, and the others stay where they are; a task that is ready and does not run
      stays ready. */
  ghost predicate OneRound(s: Shot, x: nat, s': Shot) {
    (exists p: nat, k: nat :: Picked(s.state, s.queues, p, k) && x == s.queues[p][k] &&
      Grown(s.queues[p := Without(s.queues[p], k)], s'.queues)) &&
    forall y: nat :: InSome(s.queues, y) && y != x && Runnable(s.state, y) ==> Runnable(s'.state, y)
  }

  lemma RoundsMore(shots: seq<Shot>, ran: seq<nat>, x: nat, s: Shot)
    requires Rounds(shots, ran) && OneRound(shots[|ran|], x, s)
    ensures Rounds(shots + [s], ran + [x])
  {
    hide OneRound;
  }

  /** Nothing above priority p is ready. */
  ghost predicate QuietAbove(s: Shot, p: nat) {
    forall r: nat :: p < r < |s.queues| ==> NoneRunnable(s.state, s.queues[r])
  }

  /** Task x is ready, with k tasks ahead of it in list p. */
  ghost predicate Waits(s: Shot, p: nat, x: nat, k: nat) {
    p < |s.queues| && k < |s.queues[p]| && s.queues[p][k] == x && Runnable(s.state, x)
  }

  /** In one round with nothing ready above, a ready task runs, or one ahead of it leaves its list. */
  lemma RoundAdvances(s: Shot, ran: nat, s': Shot, p: nat, x: nat, k: nat)
    requires OneRound(s, ran, s') && QuietAbove(s, p) && Waits(s, p, x, k)
    ensures ran == x || (k > 0 && Waits(s', p, x, k - 1))
  {
    var picked: nat, f: nat :| Picked(s.state, s.queues, picked, f) && ran == s.queues[picked][f] &&
                               Grown(s.queues[picked := Without(s.queues[picked], f)], s'.queues);
    PickedHere(s.state, s.queues, p, x, picked, f);
    FirstRunnableIs(s.state, s.queues[p], k);
    if ran != x {
      assert InSome(s.queues, x);
      assert Without(s.queues[p], f)[k - 1] == x;
    }
  }

  lemma RoundsLater(shots: seq<Shot>, ran: seq<nat>, n: nat)
    requires Rounds(shots, ran) && n <= |ran|
    ensures Rounds(shots[n..], ran[n..])
  {
    hide OneRound;
    forall j | 0 <= j < |ran[n..]| ensures OneRound(shots[n..][j], ran[n..][j], shots[n..][j + 1]) {
      assert OneRound(shots[n + j], ran[n + j], shots[n + j + 1]);
    }
  }

  /** In any run, a task that is ready with k tasks ahead of it in its list runs within k + 1 rounds, if until then
      nothing above its priority is ready. */
  lemma {:induction false} RunsWithin(shots: seq<Shot>, ran: seq<nat>, p: nat, x: nat, k: nat) returns (i: nat)
    requires Rounds(shots, ran) && k < |ran| && Waits(shots[0], p, x, k)
    requires forall j :: 0 <= j <= k && x !in ran[..j] ==> QuietAbove(shots[j], p)
    ensures i <= k && ran[i] == x
  {
    hide OneRound, QuietAbove, Waits;
    assert ran[..0] == [];
    RoundAdvances(shots[0], ran[0], shots[1], p, x, k);
    if ran[0] == x {
      i := 0;
    } else {
      RoundsLater(shots, ran, 1);
      forall j | 0 <= j <= k - 1 && x !in ran[1..][..j] ensures QuietAbove(shots[1..][j], p) {
        assert ran[..j + 1] == [ran[0]] + ran[1..][..j];
      }
      i := RunsWithin(shots[1..], ran[1..], p, x, k - 1);
      i := i + 1;
    }
  }

  /** Nobody starves: from any round on, a ready task with k tasks ahead of it is among those of the next k + 1 rounds,
      if in these nothing above its priority is ready. */
  ghost predicate Fair(shots: seq<Shot>, ran: seq<nat>)
    requires |shots| == |ran| + 1
  {
    forall n: nat, p: nat, x: nat, k: nat ::
      n + k < |ran| && Waits(shots[n], p, x, k) && (forall j: nat :: n <= j <= n + k ==> QuietAbove(shots[j], p)) ==>
      x in ran[n..n + k + 1]
  }

  lemma RoundsAreFair(shots: seq<Shot>, ran: seq<nat>)
    requires Rounds(shots, ran)
    ensures Fair(shots, ran)
  {
    hide OneRound, QuietAbove, Waits;
    forall n: nat, p: nat, x: nat, k: nat | n + k < |ran| && Waits(shots[n], p, x, k) &&
                                            forall j: nat :: n <= j <= n + k ==> QuietAbove(shots[j], p)
      ensures x in ran[n..n + k + 1]
    {
      RoundsLater(shots, ran, n);
      var i := RunsWithin(shots[n..], ran[n..], p, x, k);
      assert ran[n..][i] == ran[n + i] == ran[n..n + k + 1][i];
    }
  }
}
