/** What the kernel conserves between its steps (kernel/src/kernel.c:82-121), over values: which task is in which
    list, who owns which stack slot, identifiers, parents and event waits. */
module Conservation {
  import opened Chains
  import opened TaskTable
  import opened TaskQueue
  import opened StackAlloc
  import opened EventQueue
  import opened Messages

  /** Every task but the one out of the queues is in exactly one priority list, at its own priority. */
  ghost predicate Queued(tasks: set<nat>, priority: seq<int>, queues: seq<seq<nat>>, current: int) {
    |priority| == N_TASKS && |queues| == N_PRIORITY && NULL <= current < N_TASKS &&
    (forall x :: x in tasks ==> x < N_TASKS && 0 <= priority[x] < N_PRIORITY) &&
    (forall x: nat :: InSome(queues, x) <==> x in tasks && x != current) &&
    (current != NULL ==> current in tasks)
  }

  /** Every task owns the slot its stack starts in, and every slot in use is owned by a task. */
  ghost predicate StacksOwned(tasks: set<nat>, base: int, isAllocd: seq<int>, stackBase: seq<int>, owner: seq<int>) {
    |isAllocd| == N_TASKS && |stackBase| == N_TASKS && |owner| == N_TASKS &&
    (forall x :: x in tasks ==> OwnsSlot(base, isAllocd, stackBase, owner, x)) &&
    (forall i: nat :: i < N_TASKS && isAllocd[i] == 1 ==>
      0 <= owner[i] && owner[i] in tasks && SlotOwnedBy(base, stackBase, owner[i], i))
  }

  ghost predicate OwnsSlot(base: int, isAllocd: seq<int>, stackBase: seq<int>, owner: seq<int>, x: nat)
    requires |isAllocd| == N_TASKS && |owner| == N_TASKS
  {
    x < |stackBase| && var i := SlotOf(base, stackBase[x]);
    0 <= i < N_TASKS && isAllocd[i] == 1 && owner[i] == x && stackBase[x] == base + i * STACK_SIZE
  }

  ghost predicate SlotOwnedBy(base: int, stackBase: seq<int>, x: int, i: nat) {
    0 <= x < |stackBase| && SlotOf(base, stackBase[x]) == i
  }

  /** No two tasks' stacks overlap. */
  lemma StacksDisjoint(tasks: set<nat>, base: int, isAllocd: seq<int>, stackBase: seq<int>, owner: seq<int>, x: nat,
                       y: nat)
    requires StacksOwned(tasks, base, isAllocd, stackBase, owner) && x in tasks && y in tasks && x != y
    ensures x < |stackBase| && y < |stackBase|
    ensures stackBase[x] + STACK_SIZE <= stackBase[y] || stackBase[y] + STACK_SIZE <= stackBase[x]
  {
    hide SlotOf;
    assert OwnsSlot(base, isAllocd, stackBase, owner, x) && OwnsSlot(base, isAllocd, stackBase, owner, y);
    SlotStarts(base, SlotOf(base, stackBase[x]), SlotOf(base, stackBase[y]));
  }

  /** Owners of a run of slots in use, as a set of as many tasks. */
  lemma {:induction false} OwnersOf(tasks: set<nat>, base: int, isAllocd: seq<int>, stackBase: seq<int>,
                                    owner: seq<int>, n: nat)
      returns (who: set<nat>)
    requires StacksOwned(tasks, base, isAllocd, stackBase, owner) && n <= N_TASKS
    requires forall i :: 0 <= i < n ==> isAllocd[i] == 1
    ensures |who| == n && who <= tasks
    ensures forall x :: x in who ==> 0 <= SlotOf(base, stackBase[x]) < n
  {
    hide SlotOf;
    if n == 0 {
      who := {};
    } else {
      who := OwnersOf(tasks, base, isAllocd, stackBase, owner, n - 1);
      assert SlotOwnedBy(base, stackBase, owner[n - 1], n - 1);
      who := who + {owner[n - 1] as nat};
    }
  }

  /** While a descriptor is not in use, a stack slot is free: the assertion in stack_alloc_new holds. */
  lemma SlotLeft(tasks: set<nat>, base: int, isAllocd: seq<int>, stackBase: seq<int>, owner: seq<int>, x: nat)
    requires StacksOwned(tasks, base, isAllocd, stackBase, owner) && x < N_TASKS && x !in tasks
    requires forall i :: 0 <= i < N_TASKS ==> isAllocd[i] == 0 || isAllocd[i] == 1
    ensures SomeFree(isAllocd)
  {
    hide SlotOf, OwnsSlot, SlotOwnedBy;
    if !SomeFree(isAllocd) {
      var who := OwnersOf(tasks, base, isAllocd, stackBase, owner, N_TASKS);
      InTable(tasks, base, isAllocd, stackBase, owner);
      Fits(who + {x}, N_TASKS);
    }
  }

  lemma InTable(tasks: set<nat>, base: int, isAllocd: seq<int>, stackBase: seq<int>, owner: seq<int>)
    requires StacksOwned(tasks, base, isAllocd, stackBase, owner)
    ensures forall x :: x in tasks ==> x < N_TASKS
  {
    forall x | x in tasks ensures x < N_TASKS { assert OwnsSlot(base, isAllocd, stackBase, owner, x); }
  }

  lemma {:induction false} Fits(s: set<nat>, n: nat)
    requires forall x :: x in s ==> x < n
    ensures |s| <= n
  {
    if n > 0 { Fits(s - {n - 1}, n - 1); }
  }

  lemma StackTaken(tasks: set<nat>, base: int, isAllocd: seq<int>, stackBase: seq<int>, owner: seq<int>, x: nat,
                   sp: int)
    requires StacksOwned(tasks, base, isAllocd, stackBase, owner) && x < N_TASKS && x !in tasks
    requires 0 <= SlotOf(base, sp) < N_TASKS && sp == base + SlotOf(base, sp) * STACK_SIZE &&
             isAllocd[SlotOf(base, sp)] == 0
    ensures |owner| == N_TASKS
    ensures StacksOwned(tasks + {x}, base, isAllocd[SlotOf(base, sp) := 1], stackBase[x := sp],
      owner[SlotOf(base, sp) := x])
  {
    hide SlotOf;
    var i := SlotOf(base, sp);
    forall y | y in tasks ensures OwnsSlot(base, isAllocd[i := 1], stackBase[x := sp], owner[i := x], y) {
      assert OwnsSlot(base, isAllocd, stackBase, owner, y);
    }
    var marks, owner' := isAllocd[i := 1], owner[i := x];
    forall j: nat | j < N_TASKS && marks[j] == 1
      ensures 0 <= owner'[j] && owner'[j] in tasks + {x} && SlotOwnedBy(base, stackBase[x := sp], owner'[j], j)
    {
      assert j != i ==> SlotOwnedBy(base, stackBase, owner[j], j);
    }
  }

  lemma StackGivenBack(tasks: set<nat>, base: int, isAllocd: seq<int>, stackBase: seq<int>, owner: seq<int>, x: nat)
    requires StacksOwned(tasks, base, isAllocd, stackBase, owner) && x in tasks
    ensures x < N_TASKS && 0 <= SlotOf(base, stackBase[x]) < N_TASKS
    ensures StacksOwned(tasks - {x}, base, isAllocd[SlotOf(base, stackBase[x]) := 0], stackBase, owner)
  {
    hide SlotOf;
    assert OwnsSlot(base, isAllocd, stackBase, owner, x);
    var i := SlotOf(base, stackBase[x]);
    forall y | y in tasks - {x} ensures OwnsSlot(base, isAllocd[i := 0], stackBase, owner, y) {
      assert OwnsSlot(base, isAllocd, stackBase, owner, y);
    }
    var marks := isAllocd[i := 0];
    forall j: nat | j < N_TASKS && marks[j] == 1
      ensures 0 <= owner[j] && owner[j] in tasks - {x} && SlotOwnedBy(base, stackBase, owner[j], j)
    {
      assert SlotOwnedBy(base, stackBase, owner[j], j);
    }
  }

  /** A parent is a task or gone; it is never a descriptor that was given back. */
  ghost predicate ParentsOk(tasks: set<nat>, parent: seq<int>) {
    |parent| == N_TASKS &&
    forall x: nat {:trigger parent[x]} :: x in tasks && x < N_TASKS ==>
      parent[x] == NULL || (0 <= parent[x] < N_TASKS && parent[x] in tasks)
  }

  /** When a task's identifier is freed, its children lose their parent and nobody else does. */
  lemma ChildrenOrphaned(tasks: set<nat>, parent: seq<int>, parent': seq<int>, tid: seq<int>, g: int,
                         queues: seq<seq<nat>>,
                         priority: seq<int>, x: nat)
    requires ParentsOk(tasks, parent) && TidsOk(tasks, tid, g) && Queued(tasks, priority, queues, x) && x in tasks &&
             |parent'| == N_TASKS
    requires forall y: nat :: y < N_TASKS ==>
               parent'[y] == if InSome(queues, y) && ChildOf(tid, parent[y], tid[x]) then NULL else parent[y]
    ensures ParentsOk(tasks, parent') && ParentsOk(tasks - {x}, parent')
    ensures forall y :: y in tasks && y != x ==> parent'[y] == if parent[y] == x then NULL else parent[y]
  {
    hide InSome;
  }

  /** A task waits for an event exactly while it is on the list of the event it named; its event link is clear
      otherwise. */
  ghost predicate WaitsOk(tasks: set<nat>, state: seq<TaskState>, x1: seq<int>, link: seq<int>,
                          waiting: seq<seq<nat>>) {
    |state| == N_TASKS && |x1| == N_TASKS && |link| == N_TASKS && |waiting| == N_EVENTS &&
    (forall x :: x in tasks ==> x < N_TASKS && WaitOk(state, x1, link, waiting, x)) &&
    (forall e: nat :: e < N_EVENTS ==> AllIn(waiting[e], tasks))
  }

  ghost predicate AllIn(q: seq<nat>, tasks: set<nat>) {
    forall x :: x in q ==> x in tasks
  }

  ghost predicate WaitOk(state: seq<TaskState>, x1: seq<int>, link: seq<int>, waiting: seq<seq<nat>>, x: nat)
    requires x < |state| && x < |x1| && x < |link| && |waiting| == N_EVENTS
  {
    if state[x] == EventWait then 0 <= Narrow32(x1[x]) < N_EVENTS && x in waiting[Narrow32(x1[x])] else link[x] == NULL
  }

  /** Blocked tasks stay in their priority list; only the task out of the queues can be running or exiting. */
  ghost predicate StatesOk(tasks: set<nat>, state: seq<TaskState>, current: int) {
    |state| == N_TASKS && forall x :: x in tasks && x != current ==>
      x < N_TASKS && state[x] != Running && state[x] != TaskState.Killed
  }

  /** The idle task never blocks. */
  ghost predicate IdleOk(tasks: set<nat>, state: seq<TaskState>, priority: seq<int>, idle: nat, current: int) {
    |state| == N_TASKS && |priority| == N_TASKS && idle < N_TASKS && idle in tasks && priority[idle] == P_IDLE &&
    (state[idle] == Ready || (idle == current && state[idle] == Running))
  }

  const P_IDLE := 0

  lemma NewTaskTids(tasks: set<nat>, tid: seq<int>, state: seq<TaskState>, senders: seq<seq<nat>>, trace: seq<Act>,
                    g: int, x: nat, v: int, g': int)
    requires TraceOk(tasks, tid, state, senders, trace, g) && x < N_TASKS && x !in tasks && g <= g'
    requires 0 < v <= g' && (forall y :: y in tasks ==> tid[y] != v) && PhaseOf(state[x]) == AtRest && senders[x] == []
    requires v > g || trace == []
    requires forall r: nat, s :: r < N_TASKS && s in senders[r] ==> s in tasks
    ensures TraceOk(tasks + {x}, tid[x := v], state, senders, trace, g')
  {
    hide SentTo, ReceivedBy, PhaseAfter, TidsOf;
    if v > g { NoHistory(trace, g, v); } else { NoHistory(trace, 0, v); }
    TidsNil(tid[x := v]);
    forall y | y in tasks ensures InOrder(tid[x := v], state, senders, trace, y) {
      assert InOrder(tid, state, senders, trace, y);
      TidsFrame(tid, tid[x := v], senders[y]);
    }
    assert [] + TidsOf(tid[x := v], []) == [];
    forall a | a in trace ensures Mentions(a, g') { assert Mentions(a, g); }
  }

  lemma TidsNil(tid: seq<int>)
    ensures TidsOf(tid, []) == []
  {
  }

  lemma {:induction false} TidsFrame(tid: seq<int>, tid': seq<int>, q: seq<nat>)
    requires |tid'| == |tid| && forall s :: s in q && s < |tid| ==> tid'[s] == tid[s]
    ensures TidsOf(tid', q) == TidsOf(tid, q)
  {
    if q != [] {
      assert q[0] in q;
      forall s | s in q[1..] && s < |tid| ensures tid'[s] == tid[s] { assert s in q; }
      TidsFrame(tid, tid', q[1..]);
    }
  }

  // ----- columns that change outside the tasks, and tasks that join or leave -----

  lemma LinkedFrame(next: seq<int>, next': seq<int>, priority: seq<int>, priority': seq<int>, front: seq<int>,
                    back: seq<int>, queues: seq<seq<nat>>)
    requires Linked(next, priority, front, back, queues) && |next'| == N_TASKS && |priority'| == N_TASKS
    requires forall x: nat :: x < N_TASKS && InSome(queues, x) ==> next'[x] == next[x] && priority'[x] == priority[x]
    ensures Linked(next', priority', front, back, queues)
  {
    hide Chain;
    forall p: nat | p < N_PRIORITY ensures Chain(next', front[p], queues[p]) {
      ChainMembers(next, front[p], queues[p]);
      forall x | x in queues[p] && x < |next| ensures next'[x] == next[x] { assert InSome(queues, x); }
      ChainFrame(next, next', front[p], queues[p]);
    }
    forall p: nat | p < N_PRIORITY ensures AllOfPriority(priority', queues[p], p) {
      assert AllOfPriority(priority, queues[p], p);
      forall x | x in queues[p] ensures x < N_TASKS && priority'[x] == p { assert InSome(queues, x); }
    }
  }

  lemma EventsFrame(tasks: set<nat>, link: seq<int>, link': seq<int>, state: seq<TaskState>, state': seq<TaskState>,
                    x1: seq<int>, x1': seq<int>,
                    front: seq<int>, back: seq<int>, waiting: seq<seq<nat>>)
    requires EventsLinked(link, state, x1, front, back, waiting) && WaitsOk(tasks, state, x1, link, waiting)
    requires |link'| == N_TASKS && |state'| == N_TASKS && |x1'| == N_TASKS
    requires forall x :: x in tasks && x < N_TASKS ==> link'[x] == link[x]
    requires forall x :: x in tasks && x < N_TASKS ==>
      state'[x] == state[x] && (state[x] == EventWait ==> x1'[x] == x1[x])
    ensures EventsLinked(link', state', x1', front, back, waiting) && WaitsOk(tasks, state', x1', link', waiting)
  {
    hide Chain, Narrow32;
    forall e: nat | e < N_EVENTS ensures Chain(link', front[e], waiting[e]) && AllAwait(state', x1', waiting[e], e) {
      assert AllIn(waiting[e], tasks) && AllAwait(state, x1, waiting[e], e);
      ChainFrame(link, link', front[e], waiting[e]);
    }
    forall x | x in tasks
      ensures x < N_TASKS && WaitOk(state', x1', link', waiting, x)
    {
      assert WaitOk(state, x1, link, waiting, x);
    }
  }

  lemma WaitsJoin(tasks: set<nat>, state: seq<TaskState>, x1: seq<int>, link: seq<int>, waiting: seq<seq<nat>>, x: nat)
    requires WaitsOk(tasks, state, x1, link, waiting) && x < N_TASKS && state[x] != EventWait && link[x] == NULL
    ensures WaitsOk(tasks + {x}, state, x1, link, waiting)
  {
  }

  lemma WaitsLeave(tasks: set<nat>, state: seq<TaskState>, x1: seq<int>, link: seq<int>, front: seq<int>,
                   back: seq<int>, waiting: seq<seq<nat>>, x: nat)
    requires WaitsOk(tasks, state, x1, link, waiting) && EventsLinked(link, state, x1, front, back, waiting)
    requires x < N_TASKS && state[x] != EventWait
    ensures WaitsOk(tasks - {x}, state, x1, link, waiting)
  {
    hide Chain, Narrow32;
    forall e: nat | e < N_EVENTS
      ensures AllIn(waiting[e], tasks - {x})
    {
      assert AllIn(waiting[e], tasks) && AllAwait(state, x1, waiting[e], e);
    }
  }

  /** The first tasks waiting for event e were released. */
  lemma WaitsWoken(tasks: set<nat>, state: seq<TaskState>, state': seq<TaskState>, x1: seq<int>, link: seq<int>,
                   link': seq<int>,
                   waiting: seq<seq<nat>>, e: nat, woken: seq<nat>, rest: seq<nat>)
    requires WaitsOk(tasks, state, x1, link, waiting) && e < N_EVENTS && waiting[e] == woken + rest &&
             |state'| == N_TASKS && |link'| == N_TASKS
    requires forall x: nat :: x < N_TASKS ==>
               state'[x] == (if x in woken then Ready else state[x]) && link'[x] == if x in woken then NULL else link[x]
    ensures WaitsOk(tasks, state', x1, link', waiting[e := rest])
  {
    hide Narrow32;
    forall x | x in tasks
      ensures x < N_TASKS && WaitOk(state', x1, link', waiting[e := rest], x)
    {
      assert WaitOk(state, x1, link, waiting, x);
    }
    forall x | x in rest ensures x in waiting[e] { }
  }

  ghost predicate Woken(state: seq<TaskState>, state': seq<TaskState>) {
    |state| == N_TASKS && |state'| == N_TASKS &&
    forall x: nat :: x < N_TASKS ==> state'[x] == state[x] || (state[x] == EventWait && state'[x] == Ready)
  }

  lemma NoneWoken(state: seq<TaskState>)
    requires |state| == N_TASKS
    ensures Woken(state, state)
  {
  }

  lemma WokenTwice(a: seq<TaskState>, b: seq<TaskState>, c: seq<TaskState>)
    requires Woken(a, b) && Woken(b, c)
    ensures Woken(a, c)
  {
  }

  lemma OthersKept(tasks: set<nat>, state: seq<TaskState>, state': seq<TaskState>, link: seq<int>,
                   senders: seq<seq<nat>>, target: seq<int>,
                   tid: seq<int>, trace: seq<Act>, g: int, priority: seq<int>, idle: nat, current: int)
    requires Woken(state, state') && SendersOk(tasks, state, link, senders, target) &&
             TraceOk(tasks, tid, state, senders, trace, g)
    requires StatesOk(tasks, state, current) && IdleOk(tasks, state, priority, idle, current)
    ensures SendersOk(tasks, state', link, senders, target) && TraceOk(tasks, tid, state', senders, trace, g)
    ensures StatesOk(tasks, state', current) && IdleOk(tasks, state', priority, idle, current)
  {
    hide Chain, SentTo, ReceivedBy, PhaseAfter, TidsOf;
    forall r: nat | r < N_TASKS
      ensures HeadsList(tasks, state', link, senders, r) && AllSendTo(tasks, state', target, senders[r], r)
    {
      assert HeadsList(tasks, state, link, senders, r) && AllSendTo(tasks, state, target, senders[r], r);
    }
    forall y | y in tasks
      ensures InOrder(tid, state', senders, trace, y)
    {
      assert InOrder(tid, state, senders, trace, y);
    }
  }

  lemma TraceLeaves(tasks: set<nat>, tid: seq<int>, state: seq<TaskState>, senders: seq<seq<nat>>, trace: seq<Act>,
                    g: int, x: nat)
    requires TraceOk(tasks, tid, state, senders, trace, g)
    ensures TraceOk(tasks - {x}, tid, state, senders, trace, g)
  {
    hide InOrder, PhaseAfter;
  }

  /** The history only depends on the identifiers and states of the tasks. */
  lemma TraceFrame(tasks: set<nat>, tid: seq<int>, tid': seq<int>, state: seq<TaskState>, senders: seq<seq<nat>>,
                   trace: seq<Act>, g: int)
    requires TraceOk(tasks, tid, state, senders, trace, g) && |tid'| == N_TASKS
    requires forall x :: x in tasks && x < N_TASKS ==> tid'[x] == tid[x]
    requires forall r: nat, s :: r < N_TASKS && s in senders[r] ==> s in tasks
    ensures TraceOk(tasks, tid', state, senders, trace, g)
  {
    hide SentTo, ReceivedBy, PhaseAfter, TidsOf;
    forall y | y in tasks ensures InOrder(tid', state, senders, trace, y) {
      assert InOrder(tid, state, senders, trace, y);
      TidsFrame(tid, tid', senders[y]);
    }
  }

  lemma SendersAreTasks(tasks: set<nat>, state: seq<TaskState>, link: seq<int>, senders: seq<seq<nat>>,
                        target: seq<int>)
    requires SendersOk(tasks, state, link, senders, target)
    ensures |senders| == N_TASKS && forall r: nat, s :: r < N_TASKS && s in senders[r] ==> s in tasks
  {
    hide Chain;
  }
}
