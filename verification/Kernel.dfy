/** The kernel (kernel/src/kernel.c:52-121, kernel/src/task-state.c): its step is to schedule a task, let it run until
    a call or an interrupt, handle that, and queue the task again or give it back. */
module Kernel {
  import opened Chains
  import opened TaskTable
  import opened TaskAlloc
  import opened TaskQueue
  import opened StackAlloc
  import opened EventQueue
  import opened Messages
  import opened Conservation

  const NAMESERVER_TID := 1
  const P_LOW := 1
  const P_SERVER_LO := 7
  /** Past this identifier, task_queue_add would narrow to a negative number. */
  const LAST_TID := 32767

  const SYS_CREAT := 1
  const SYS_TID := 2
  const SYS_PTID := 3
  const SYS_YIELD := 4
  const SYS_EXIT := 5
  const SYS_MSG_SEND := 9
  const SYS_MSG_RCV := 10
  const SYS_MSG_RPLY := 11
  const SYS_AWAIT := 12
  const TIMER_TICK := 0
  const CONSOLE_RX := 1
  const MARKLIN_RX := 2
  const MARKLIN_CTS := 3

  /** What the interrupt controller reports: the timer, or the serial lines with the status and byte then read. */
  datatype Interrupt = Timer | Serial(cts: bool, ctsStatus: int, rx: bool, byte: int, rtim: bool)

  /** How a task's turn ends: an interrupt, or a call with these registers. */
  datatype Trap = Irq(irq: Interrupt) | Svc(x0: int, x1: int, args: Args)

  /** What the kernel stores into the memory of tasks: copied bytes, with the lengths the two tasks gave, and
      identifiers. */
  datatype Write = Bytes(dst: int, dstLen: int, src: int, srcLen: int, len: int) | SenderTid(addr: int, tid: int)

  /** What is remembered of the messages besides the registers: who is blocked on whom, and what happened. */
  datatype Mail = Mail(senders: seq<seq<nat>>, target: seq<int>, trace: seq<Act>, writes: seq<Write>)

  /** The smaller of two lengths, compared as signed numbers. */
  function CopyLength(a: int, b: int): (r: int)
    ensures r <= a && r <= b && (r == a || r == b)
  {
    if a < b then a else b
  }

  /** Conversion to size_t. */
  function ToSize(v: int): (r: int)
    ensures 0 <= r < 0x1_0000_0000_0000_0000 && (r - v) % 0x1_0000_0000_0000_0000 == 0
    ensures 0 <= v < 0x1_0000_0000_0000_0000 ==> r == v
  {
    v % 0x1_0000_0000_0000_0000
  }

  predicate IsWord(v: int) {
    -0x8000_0000_0000_0000 <= v < 0x8000_0000_0000_0000
  }

  /** A copy stays inside both buffers exactly when neither length is negative. */
  lemma CopyFitsIff(a: int, b: int)
    requires IsWord(a) && IsWord(b)
    ensures ToSize(CopyLength(a, b)) <= a && ToSize(CopyLength(a, b)) <= b <==> 0 <= a && 0 <= b
  {
  }

  /** Every copy was as long as the smaller of the two lengths given. */
  ghost predicate WritesOk(writes: seq<Write>) {
    forall w :: w in writes && w.Bytes? ==>
      IsWord(w.dstLen) && IsWord(w.srcLen) && w.len == ToSize(CopyLength(w.dstLen, w.srcLen))
  }

  /** A copy into the buffer of dst, from that of src. */
  ghost function Copied(dst: int, dstLen: Word, src: int, srcLen: Word): Write {
    Bytes(dst, dstLen, src, srcLen, ToSize(CopyLength(dstLen, srcLen)))
  }

  lemma CopyMore(writes: seq<Write>, dst: int, dstLen: Word, src: int, srcLen: Word, tid: Write)
    requires WritesOk(writes) && tid.SenderTid?
    ensures WritesOk(writes + [Copied(dst, dstLen, src, srcLen)])
    ensures WritesOk(writes + [Copied(dst, dstLen, src, srcLen), tid])
  {
    hide ToSize, CopyLength;
  }

  /** A column with one entry replaced. */
  ghost function With<T>(s: seq<T>, i: int, v: T): seq<T> {
    if 0 <= i < |s| then s[i := v] else s
  }

  ghost function At(s: seq<int>, i: int): int {
    if 0 <= i < |s| then s[i] else 0
  }

  ghost function ArgsAt(s: seq<Args>, i: int): Args {
    if 0 <= i < |s| then s[i] else Args(0, 0, 0, 0)
  }

  ghost function ListAt(s: seq<seq<nat>>, i: int): seq<nat> {
    if 0 <= i < |s| then s[i] else []
  }

  ghost function Plus(q: seq<nat>, x: int): seq<nat> {
    if 0 <= x then q + [x] else q
  }

  /** The first waiter of event e gone, if the event happened. */
  ghost function Popped(waiting: seq<seq<nat>>, e: int, happened: bool): seq<seq<nat>> {
    if happened && ListAt(waiting, e) != [] then With(waiting, e, ListAt(waiting, e)[1..]) else waiting
  }

  /** The value given to the first waiter of event e, if the event happened. */
  ghost function Given<T>(s: seq<T>, waiting: seq<seq<nat>>, e: int, happened: bool, v: T): seq<T> {
    if happened && ListAt(waiting, e) != [] then With(s, ListAt(waiting, e)[0], v) else s
  }

  /** What a serial interrupt leaves of the waiters, the states and the registers. */
  ghost function Served(w: seq<seq<nat>>, state: seq<TaskState>, x0: seq<int>, irq: Interrupt): (seq<seq<nat>>,
                        seq<TaskState>, seq<int>)
    requires irq.Serial?
  {
    var w1 := Popped(w, MARKLIN_CTS, irq.cts);
    var w2 := Popped(w1, MARKLIN_RX, irq.rx);
    (Popped(w2, CONSOLE_RX, irq.rtim),
     Given(Given(Given(state, w, MARKLIN_CTS, irq.cts, Ready), w1, MARKLIN_RX, irq.rx, Ready),
           w2, CONSOLE_RX, irq.rtim, Ready),
     Given(Given(Given(x0, w, MARKLIN_CTS, irq.cts, irq.ctsStatus), w1, MARKLIN_RX, irq.rx, irq.byte),
           w2, CONSOLE_RX, irq.rtim, 0))
  }

  /** Whether task y is the one waiting longest for event e, and the event happened. */
  ghost predicate IsNext(w: seq<seq<nat>>, e: int, happened: bool, y: nat) {
    happened && 0 <= e < |w| && w[e] != [] && w[e][0] == y
  }

  /** On a serial interrupt, the task waiting longest for a change of CTS is told its level, the one waiting longest for
      a byte from the train controller that byte, and the one waiting longest for the console 0; these, which wait for
      different events, are ready and wait no more, and nothing else changes. */
  lemma SerialTells(w: seq<seq<nat>>, state: seq<TaskState>, x0: seq<int>, irq: Interrupt, y: nat, e: nat)
    requires irq.Serial? && |w| == N_EVENTS && y < |state| == |x0| && e < N_EVENTS
    requires forall f: nat, h: nat :: f < h < N_EVENTS && w[f] != [] && w[h] != [] ==> w[f][0] != w[h][0]
    requires forall f: nat :: f < N_EVENTS && w[f] != [] ==> w[f][0] < |state|
    ensures var r := Served(w, state, x0, irq);
      var cts, byte, console := IsNext(w, MARKLIN_CTS, irq.cts, y), IsNext(w, MARKLIN_RX, irq.rx, y),
                                IsNext(w, CONSOLE_RX, irq.rtim, y);
      |r.0| == |w| && |r.1| == |state| && |r.2| == |x0| &&
      r.1[y] == (if cts || byte || console then Ready else state[y]) &&
      r.2[y] == (if cts then irq.ctsStatus else if byte then irq.byte else if console then 0 else x0[y]) &&
      r.0[e] == if w[e] != [] && IsNext(w, e, (e == MARKLIN_CTS && irq.cts) || (e == MARKLIN_RX && irq.rx) ||
                                              (e == CONSOLE_RX && irq.rtim), w[e][0])
                then w[e][1..] else w[e]
  {
  }

  ghost function StateAt(s: seq<TaskState>, i: int): TaskState {
    if 0 <= i < |s| then s[i] else TaskState.Killed
  }

  // What Send, Receive and Reply do for their caller c, with the registers x1 and args of the tasks: x0 and the mail
  // before are x and m, afterwards x' and m'.

  /** Send to task r that waits in Receive: the message and c's identifier go to r. */
  ghost predicate Delivered(c: nat, r: int, x1: seq<int>, args: seq<Args>, tid: seq<int>, x: seq<int>, x': seq<int>,
                            m: Mail, m': Mail) {
    var mine, theirs := ArgsAt(args, c), ArgsAt(args, r);
    x' == With(x, r, CopyLength(mine.x3, theirs.x3)) &&
    m' == m.(trace := m.trace + [Sent(At(tid, c), At(tid, r)), Received(At(tid, c), At(tid, r))],
             writes := m.writes + [Copied(theirs.x2, theirs.x3, mine.x2, mine.x3), SenderTid(At(x1, r), At(tid, c))])
  }

  /** Send to task r that does not: c is last on its list. */
  ghost predicate BlockedOn(c: nat, r: int, tid: seq<int>, m: Mail, m': Mail) {
    m' == m.(senders := With(m.senders, r, Plus(ListAt(m.senders, r), c)), target := With(m.target, c, r),
             trace := m.trace + [Sent(At(tid, c), At(tid, r))])
  }

  /** Receive with task s first on the list: its message and identifier go to c. */
  ghost predicate TakenFrom(c: nat, s: int, x1: seq<int>, args: seq<Args>, tid: seq<int>, x: seq<int>, x': seq<int>,
                            m: Mail, m': Mail) {
    var mine, theirs, q := ArgsAt(args, c), ArgsAt(args, s), ListAt(m.senders, c);
    q != [] && s == q[0] && x' == With(x, c, CopyLength(mine.x3, theirs.x3)) &&
    m' == m.(senders := With(m.senders, c, q[1..]),
             trace := m.trace + [Received(At(tid, s), At(tid, c))],
             writes := m.writes + [Copied(mine.x2, mine.x3, theirs.x2, theirs.x3), SenderTid(At(x1, c), At(tid, s))])
  }

  /** Reply to task s that waits for one. */
  ghost predicate Answered(c: nat, s: int, args: seq<Args>, tid: seq<int>, x: seq<int>, x': seq<int>, m: Mail,
                           m': Mail) {
    var mine, theirs := ArgsAt(args, c), ArgsAt(args, s);
    var len := CopyLength(theirs.x5, mine.x3);
    x' == With(With(x, c, len), s, len) &&
    m' == m.(trace := m.trace + [Act.Replied(At(tid, s))],
             writes := m.writes + [Copied(theirs.x4, theirs.x5, mine.x2, mine.x3)])
  }

  /** What a call reads and leaves: its caller c, the tasks there are, and their columns. */
  datatype Call = Call(c: nat, tasks: set<nat>, tid: seq<int>, parent: seq<int>, x1: seq<int>, args: seq<Args>)

  /** The call task c makes by this trap. */
  ghost function CallOf(trap: Trap, c: nat, tasks: set<nat>, tid: seq<int>, parent: seq<int>, x1: seq<int>,
                        args: seq<Args>): Call {
    if trap.Svc? then Call(c, tasks, tid, parent, With(x1, c, trap.x1), With(args, c, trap.args))
    else Call(c, tasks, tid, parent, x1, args)
  }

  /** Task r is another one than the caller, with the identifier in its x1. */
  ghost predicate Named(k: Call, r: nat) {
    r in k.tasks && r != k.c && At(k.tid, r) == ToTid(At(k.x1, k.c))
  }

  /** A call that fails with the value v: nothing else changes. */
  ghost predicate Failed(k: Call, v: int, x: seq<int>, x': seq<int>, state: seq<TaskState>, state': seq<TaskState>,
                         m: Mail, m': Mail) {
    x' == With(x, k.c, v) && state' == state && m' == m
  }

  /** What a copy carries: from one buffer into the other as much as fits both, told to task x as v. */
  ghost predicate Carries(w: Write, dst: int, dstLen: int, src: int, srcLen: int, v: int) {
    w == Bytes(dst, dstLen, src, srcLen, v) && v <= dstLen && v <= srcLen && v in {dstLen, srcLen}
  }

  /** A message sent to task r that waits: into the buffer at its x2 and x3 go the bytes at the sender's, its x0 tells
      how many, and the sender's identifier goes where its x1 points. */
  lemma DeliveredCarries(c: nat, r: nat, x1: seq<int>, args: seq<Args>, tid: seq<int>, x: seq<int>, x': seq<int>,
                         m: Mail, m': Mail)
    requires Delivered(c, r, x1, args, tid, x, x', m, m') && r < |x| && c < |args| && r < |args|
    requires 0 <= args[c].x3 && 0 <= args[r].x3
    ensures x' == x[r := x'[r]] && |m'.writes| == |m.writes| + 2 && m.writes <= m'.writes
    ensures Carries(m'.writes[|m.writes|], args[r].x2, args[r].x3, args[c].x2, args[c].x3, x'[r])
    ensures m'.writes[|m.writes| + 1] == SenderTid(At(x1, r), At(tid, c))
  {
  }

  /** The same for a message received from task s that was blocked. */
  lemma TakenCarries(c: nat, s: nat, x1: seq<int>, args: seq<Args>, tid: seq<int>, x: seq<int>, x': seq<int>,
                     m: Mail, m': Mail)
    requires TakenFrom(c, s, x1, args, tid, x, x', m, m') && c < |x| && c < |args| && s < |args|
    requires 0 <= args[c].x3 && 0 <= args[s].x3
    ensures x' == x[c := x'[c]] && |m'.writes| == |m.writes| + 2 && m.writes <= m'.writes
    ensures Carries(m'.writes[|m.writes|], args[c].x2, args[c].x3, args[s].x2, args[s].x3, x'[c])
    ensures m'.writes[|m.writes| + 1] == SenderTid(At(x1, c), At(tid, s))
  {
  }

  /** A reply goes into the buffer at x4 and x5 of the task that waits for it; both tasks are told how long it was. */
  lemma AnsweredCarries(c: nat, s: nat, args: seq<Args>, tid: seq<int>, x: seq<int>, x': seq<int>, m: Mail, m': Mail)
    requires Answered(c, s, args, tid, x, x', m, m') && c < |x| && s < |x| && c < |args| && s < |args|
    requires 0 <= args[c].x3 && 0 <= args[s].x5
    ensures x'[c] == x'[s] && x' == x[c := x'[c]][s := x'[c]] && |m'.writes| == |m.writes| + 1 && m.writes <= m'.writes
    ensures Carries(m'.writes[|m.writes|], args[s].x4, args[s].x5, args[c].x2, args[c].x3, x'[c])
  {
  }

  ghost predicate SendServed(k: Call, x: seq<int>, x': seq<int>, state: seq<TaskState>, state': seq<TaskState>,
                             m: Mail, m': Mail) {
    if forall r: nat :: !Named(k, r) then Failed(k, -1, x, x', state, state', m, m')
    else
      exists r: nat :: Named(k, r) &&
        if StateAt(state, r) == RcvWait then
          state' == With(With(state, k.c, ReplyWait), r, Ready) && Delivered(k.c, r, k.x1, k.args, k.tid, x, x', m, m')
        else state' == With(state, k.c, SendWait) && x' == x && BlockedOn(k.c, r, k.tid, m, m')
  }

  ghost predicate ReceiveServed(k: Call, x: seq<int>, x': seq<int>, state: seq<TaskState>, state': seq<TaskState>,
                                m: Mail, m': Mail) {
    if ListAt(m.senders, k.c) == [] then state' == With(state, k.c, RcvWait) && x' == x && m' == m
    else
      var s := ListAt(m.senders, k.c)[0];
      StateAt(state, s) == SendWait && state' == With(state, s, ReplyWait) &&
      TakenFrom(k.c, s, k.x1, k.args, k.tid, x, x', m, m')
  }

  ghost predicate ReplyServed(k: Call, x: seq<int>, x': seq<int>, state: seq<TaskState>, state': seq<TaskState>,
                              m: Mail, m': Mail) {
    if forall r: nat :: !Named(k, r) then Failed(k, -1, x, x', state, state', m, m')
    else
      exists r: nat :: Named(k, r) &&
        if StateAt(state, r) != ReplyWait then Failed(k, -2, x, x', state, state', m, m')
        else state' == With(state, r, Ready) && Answered(k.c, r, k.args, k.tid, x, x', m, m')
  }

  ghost predicate AwaitServed(k: Call, x: seq<int>, x': seq<int>, state: seq<TaskState>, state': seq<TaskState>,
                              m: Mail, m': Mail) {
    if 0 <= Narrow32(At(k.x1, k.c)) < N_EVENTS
    then x' == With(x, k.c, 0) && state' == With(state, k.c, EventWait) && m' == m
    else Failed(k, -1, x, x', state, state', m, m')
  }

  /** What a call with number n means for x0, for the states of all tasks and for the messages. */
  ghost predicate CallServed(n: int, k: Call, x: seq<int>, x': seq<int>, state: seq<TaskState>, state': seq<TaskState>,
                             m: Mail, m': Mail) {
    if n == SYS_MSG_SEND then SendServed(k, x, x', state, state', m, m')
    else if n == SYS_MSG_RCV then ReceiveServed(k, x, x', state, state', m, m')
    else if n == SYS_MSG_RPLY then ReplyServed(k, x, x', state, state', m, m')
    else if n == SYS_AWAIT then AwaitServed(k, x, x', state, state', m, m')
    else
      m' == m && (n == SYS_EXIT ==> state' == With(state, k.c, TaskState.Killed) && x' == x) &&
      (n == SYS_YIELD ==> state' == state && x' == x) &&
      (n == SYS_TID ==> state' == state && x' == With(x, k.c, At(k.tid, k.c))) &&
      (n == SYS_PTID ==> state' == state && x' == With(x, k.c, ParentTid(k)))
  }

  /** 0 for a task whose parent is gone or was the kernel. */
  ghost function ParentTid(k: Call): int {
    if At(k.parent, k.c) == NULL then 0 else At(k.tid, At(k.parent, k.c))
  }

  /** What the end of the turn makes of the states: the task that did not block is ready again. */
  ghost function Turned(state: seq<TaskState>, c: int): seq<TaskState> {
    With(state, c, if StateAt(state, c) == Running then Ready else StateAt(state, c))
  }

  /** The history goes on from m to m'. */
  ghost predicate Continues(m: Mail, m': Mail) {
    m.trace <= m'.trace && m.writes <= m'.writes
  }

  /** What Send demands of its caller c: unless the receiver is waiting for it, that nobody is blocked on c and
      that the receiver is not itself blocked in Send (see SendMisplacesSenders). */
  ghost predicate SendFits(a: int, c: int, tid: seq<int>, state: seq<TaskState>, link: seq<int>,
                           queues: seq<seq<nat>>) {
    forall r: nat :: r < N_TASKS && InSome(queues, r) && At(tid, r) == ToTid(a) && StateAt(state, r) != RcvWait ==>
      At(link, c) == NULL && StateAt(state, r) != SendWait
  }

  /** The calls that are always fine. */
  predicate Plain(n: int) {
    n in {SYS_TID, SYS_PTID, SYS_YIELD, SYS_MSG_RCV, SYS_MSG_RPLY, SYS_AWAIT}
  }

  /** Whether call n of task c, with first argument a, is one this model covers. */
  ghost predicate Covered(n: int, a: int, c: int, idle: nat, tid: seq<int>, state: seq<TaskState>, link: seq<int>,
                          queues: seq<seq<nat>>, g: int) {
    c != idle &&
    (Plain(n) || (n == SYS_CREAT && g < LAST_TID) || (n == SYS_EXIT && At(link, c) == NULL) ||
     (n == SYS_MSG_SEND && SendFits(a, c, tid, state, link, queues)))
  }

  /** What Create does: -1 for a wrong priority, -2 without a free descriptor, otherwise a new task with the identifier
      after g, a child of the caller. */
  ghost predicate Created(k: Call, g: int, x: seq<int>, x': seq<int>, state: seq<TaskState>, state': seq<TaskState>,
                          tasks': set<nat>, tid': seq<int>, parent': seq<int>, priority': seq<int>) {
    var p := At(k.x1, k.c);
    if !(0 <= p < N_PRIORITY) || AllLive(k.tasks)
    then x' == With(x, k.c, if 0 <= p < N_PRIORITY then -2 else -1) && state' == state && tasks' == k.tasks
    else
      exists y: nat :: y < N_TASKS && y !in k.tasks && tasks' == k.tasks + {y} && state' == With(state, y, Ready) &&
        x' == With(With(x, y, ArgsAt(k.args, k.c).x2), k.c, g + 1) && At(tid', y) == g + 1 &&
        At(parent', y) == k.c && At(priority', y) == p
  }

  /** A task of these other than c that is ready stays ready. */
  ghost predicate StaysReady(tasks: set<nat>, c: int, state: seq<TaskState>, state': seq<TaskState>) {
    forall y: nat :: y in tasks && y != c && StateAt(state, y) == Ready ==> StateAt(state', y) == Ready
  }

  /** What an interrupt does to the states and to x0, when these tasks wait for events. */
  ghost predicate Interrupted(irq: Interrupt, waiting: seq<seq<nat>>, x: seq<int>, x': seq<int>,
                              state: seq<TaskState>, state': seq<TaskState>) {
    match irq
    case Timer =>
      var q := ListAt(waiting, TIMER_TICK);
      forall y: nat :: y < N_TASKS ==>
        StateAt(state', y) == (if y in q then Ready else StateAt(state, y)) &&
        At(x', y) == if y in q then 0 else At(x, y)
    case Serial(cts, ctsStatus, rx, byte, rtim) =>
      state' == Served(waiting, state, x, irq).1 && x' == Served(waiting, state, x, irq).2
  }

  /** Whether a call waits for an event, by its number and first argument. */
  predicate Awaits(n: int, a: int) {
    n == SYS_AWAIT && 0 <= Narrow32(a) < N_EVENTS
  }

  /** The tasks blocked on events after a call of c with number n and first argument a. */
  ghost function WaitersAfter(n: int, a: int, c: nat, waiting: seq<seq<nat>>): seq<seq<nat>> {
    if Awaits(n, a) then With(waiting, Narrow32(a), Plus(ListAt(waiting, Narrow32(a)), c)) else waiting
  }

  /** The tasks blocked on events after an interrupt. */
  ghost function WaitersLeft(irq: Interrupt, waiting: seq<seq<nat>>): seq<seq<nat>> {
    match irq
    case Timer => With(waiting, TIMER_TICK, [])
    case Serial(cts, ctsStatus, rx, byte, rtim) => Served(waiting, [], [], irq).0
  }

  class Kernel {
    const t: Tasks
    const talloc: TaskAllocator
    const salloc: StackAllocator
    const tq: TaskQueue.Queue
    const eq: EventQueue.Queue
    var current: int
    var idle: nat
    ghost var tasks: set<nat>
    ghost var owner: seq<int>
    ghost var mail: Mail

    /** The singletons, before there are tasks. */
    constructor (kernelStackPtr: int)
      ensures fresh(t) && fresh(talloc) && fresh(salloc) && fresh(tq) && fresh(eq)
      ensures tasks == {} == talloc.Live() && mail.trace == [] && tq.globalTid == FIRST_TID
      ensures Tables() && History()
    {
      var table := new Tasks();
      t := table;
      talloc := new TaskAllocator(table);
      salloc := new StackAllocator(kernelStackPtr);
      tq := new TaskQueue.Queue(table);
      eq := new EventQueue.Queue(table);
      current := NULL;
      idle := 0;
      tasks := {};
      owner := seq(N_TASKS, i => 0);
      mail := Mail(seq(N_TASKS, i => []), seq(N_TASKS, i => 0), [], []);
      new;
      talloc.ValidIsOk();
      NoTasks(tq.queues, t.priority, salloc.base, salloc.isAllocd, t.stackBase, owner, t.state, t.x1, t.eventWaitNext,
              eq.waiting, t.waitingSendersNext, mail.senders, mail.target, t.tid, tq.globalTid);
    }

    ghost predicate Parts()
      reads t, talloc, salloc, tq, eq
    {
      talloc.t == t && tq.t == t && eq.t == t && t.Sized() && salloc.Valid() &&
      AllocOk(t.next, t.slabIndex, talloc.freeList, talloc.free, talloc.activeSlabs, talloc.taskCountInSlab) &&
      Linked(t.next, t.priority, tq.front, tq.back, tq.queues) && 0 <= tq.globalTid <= LAST_TID &&
      EventsLinked(t.eventWaitNext, t.state, t.x1, eq.front, eq.back, eq.waiting)
    }

    /** The lists, the stacks, the waits: what is kept apart from the history. */
    ghost predicate Tables()
      reads this`tasks, this`owner, this`mail, this`current, t, talloc, salloc, tq, eq
    {
      Parts() && tasks <= talloc.Live() &&
      Queued(tasks, t.priority, tq.queues, current) &&
      StacksOwned(tasks, salloc.base, salloc.isAllocd, t.stackBase, owner) &&
      ParentsOk(tasks, t.parent) &&
      WaitsOk(tasks, t.state, t.x1, t.eventWaitNext, eq.waiting) &&
      StatesOk(tasks, t.state, current) &&
      SendersOk(tasks, t.state, t.waitingSendersNext, mail.senders, mail.target)
    }

    ghost predicate History()
      reads this`tasks, this`mail, t, tq
    {
      TraceOk(tasks, t.tid, t.state, mail.senders, mail.trace, tq.globalTid) && WritesOk(mail.writes)
    }

    /** The invariant between two iterations of the loop: every descriptor in use is a task in one queue. */
    ghost predicate Valid()
      reads this, t, talloc, salloc, tq, eq
    {
      Tables() && History() && tasks == talloc.Live() && current == NULL &&
      IdleOk(tasks, t.state, t.priority, idle, NULL)
    }

    /** What the contracts below index. */
    ghost predicate Sizes()
      reads this, t
    {
      t.Sized() && |mail.senders| == N_TASKS && 0 <= current < N_TASKS
    }

    /** While a task is out of the queues: as above, and if it exited, nobody is blocked on it. */
    ghost predicate Out()
      reads this, t, talloc, salloc, tq, eq
    {
      Tables() && History() && tasks == talloc.Live() && 0 <= current < N_TASKS &&
      IdleOk(tasks, t.state, t.priority, idle, current) &&
      |mail.senders| == N_TASKS &&
      (t.state[current] == TaskState.Killed ==> current != idle && mail.senders[current] == [])
    }

    /** While task current runs. */
    ghost predicate Runs()
      reads this, t, talloc, salloc, tq, eq
    {
      Out() && t.state[current] == Running
    }

    /** The call of the running task. */
    ghost function This(): Call
      requires 0 <= current
      reads this`current, this`tasks, t
    {
      Call(current, tasks, t.tid, t.parent, t.x1, t.args)
    }

    /** Who has an identifier: another task than the one out of the queues. */
    lemma NamedIsQueued(r: int)
      requires t.Sized() && 0 <= current < N_TASKS && Queued(tasks, t.priority, tq.queues, current)
      ensures Unused(t.tid, tq.queues, ToTid(t.x1[current])) <==> forall y: nat :: !Named(This(), y)
      ensures 0 <= r && InSome(tq.queues, r) && At(t.tid, r) == ToTid(t.x1[current]) ==> Named(This(), r)
    {
      hide InSome;
      if y: nat :| Named(This(), y) { assert InSome(tq.queues, y); }
      forall x: nat | x < N_TASKS && InSome(tq.queues, x) && t.tid[x] == ToTid(t.x1[current])
        ensures Named(This(), x)
      {
      }
    }

    /** The head of the loop: a task always runs, since the idle task never blocks. */
    method Dispatch()
      requires Valid()
      modifies this`current, tq, t`next, t`state
      ensures Runs()
      ensures t.state == With(old(t.state), current, Running) && tq.globalTid == old(tq.globalTid)
      ensures exists p: nat, k: nat :: Picked(old(t.state), old(tq.queues), p, k) && current == old(tq.queues)[p][k] &&
                                       tq.queues == old(tq.queues)[p := Without(old(tq.queues)[p], k)]
    {
      hide Grown, AllocOk, StackAllocator.Valid, Linked, EventsLinked, Queued, StacksOwned, ParentsOk, WaitsOk,
        StatesOk, SendersOk, TraceOk,
        InSome, LiveIn, Picked, IdleOk, NoneRunnable;
      IdleRunnable(tasks, t.state, t.priority, tq.queues, idle);
      ghost var next0, queues0 := t.next, tq.queues;
      FreeAreNotTasks(talloc.activeSlabs, talloc.free, tasks, t.priority, tq.queues, current);
      var task, p, k := tq.Schedule();
      assert task != NULL;
      LinkedSizes(t.next, t.priority, tq.front, tq.back, tq.queues);
      AllocFrame(next0, t.next, t.slabIndex, talloc.freeList, talloc.free, talloc.activeSlabs, talloc.taskCountInSlab);
      Leaves(tasks, t.priority, queues0, tq.queues, task);
      PickedIsReady(tasks, t.state, task, queues0, p, k);
      StartsRunning(tasks, t.state, t.priority, idle, task);
      StateMoves(tasks, t.state, task, Running, t.x1, t.eventWaitNext, eq.front, eq.back, eq.waiting);
      StateChanges(tasks, t.state, t.waitingSendersNext, mail.senders, mail.target, task, Running);
      TraceStays(tasks, t.tid, t.state, mail.senders, mail.trace, tq.globalTid, task, Running);
      current := task;
      t.state := t.state[current := Running];
      SendersSized(tasks, t.state, t.waitingSendersNext, mail.senders, mail.target);
    }

    /** A task changes to a state without an event or a Send; the history is the caller's business. */
    method SetState(x: nat, st: TaskState)
      requires Tables() && IdleOk(tasks, t.state, t.priority, idle, current)
      requires x in tasks && x < N_TASKS && (x == current || (st != Running && st != TaskState.Killed)) &&
               (x == idle ==> st == Ready)
      requires t.state[x] != EventWait && t.state[x] != SendWait && st != EventWait && st != SendWait
      requires |mail.senders| == N_TASKS && (st == RcvWait ==> mail.senders[x] == [])
      modifies t`state
      ensures Tables() && IdleOk(tasks, t.state, t.priority, idle, current) && t.state == old(t.state)[x := st]
    {
      hide Grown, AllocOk, StackAllocator.Valid, Linked, EventsLinked, Queued, StacksOwned, ParentsOk, WaitsOk,
        StatesOk, IdleOk, SendersOk, InSome, LiveIn;
      StateFits(tasks, t.state, t.priority, idle, current, x, st);
      StateMoves(tasks, t.state, x, st, t.x1, t.eventWaitNext, eq.front, eq.back, eq.waiting);
      StateChanges(tasks, t.state, t.waitingSendersNext, mail.senders, mail.target, x, st);
      t.state := t.state[x := st];
    }

    /** SYS_EXIT, by a task nobody is blocked on. */
    method Exit()
      requires Sizes() && current != idle && t.waitingSendersNext[current] == NULL
      requires Runs()
      modifies t`state
      ensures t.state == With(old(t.state), current, TaskState.Killed)
      ensures Out()
    {
      hide Grown, AllocOk, StackAllocator.Valid, Linked, EventsLinked, Queued, StacksOwned, ParentsOk, WaitsOk,
        StatesOk, IdleOk, SendersOk, TraceOk, InSome, LiveIn;
      CurrentIsTask(tasks, t.priority, tq.queues, current);
      NoSenders(tasks, t.state, t.waitingSendersNext, mail.senders, mail.target, current);
      TraceStays(tasks, t.tid, t.state, mail.senders, mail.trace, tq.globalTid, current, TaskState.Killed);
      SetState(current, TaskState.Killed);
    }

    /** Links the caller in behind the last blocked sender of r, found as the design document describes it. */
    method LinkSender(r: nat, ghost q: seq<nat>)
      requires t.Sized() && r < N_TASKS && 0 <= current < N_TASKS &&
               Chain(t.waitingSendersNext, t.waitingSendersNext[r], q)
      modifies t`waitingSendersNext
      ensures t.Sized() && TailOf(r, q) < N_TASKS &&
              t.waitingSendersNext == old(t.waitingSendersNext)[TailOf(r, q) := current]
    {
      hide Chain;
      ghost var k: nat := 0;
      ChainMembers(t.waitingSendersNext, t.waitingSendersNext[r], q);
      assert q[0..] == q;
      var prev := NULL;
      var cur := t.waitingSendersNext[r];
      while cur != NULL
        invariant k <= |q| && cur == HeadOf(q[k..]) && prev == if k == 0 then NULL else q[k - 1]
        invariant t.waitingSendersNext == old(t.waitingSendersNext)
        decreases |q| - k
      {
        ChainStep(t.waitingSendersNext, t.waitingSendersNext[r], q, k);
        prev := cur;
        cur := t.waitingSendersNext[prev];
        k := k + 1;
      }
      if prev == NULL {
        t.waitingSendersNext := t.waitingSendersNext[r := current];
      } else {
        assert prev in q;
        t.waitingSendersNext := t.waitingSendersNext[prev := current];
      }
    }

    /** Send to a task that waits in Receive: the message is handed over at once. */
    method Deliver(r: nat)
      requires Sizes() && current != idle && r in tasks && r < N_TASKS && r != current && t.state[r] == RcvWait
      requires Runs()
      modifies this`mail, t`state, t`x0
      ensures t.state == With(With(old(t.state), current, ReplyWait), r, Ready)
      ensures Delivered(current, r, t.x1, t.args, t.tid, old(t.x0), t.x0, old(mail), mail)
      ensures Out()
    {
      hide Grown, AllocOk, StackAllocator.Valid, Linked, EventsLinked, Queued, StacksOwned, ParentsOk, WaitsOk,
        StatesOk, IdleOk, SendersOk, TraceOk, InSome, LiveIn;
      CurrentIsTask(tasks, t.priority, tq.queues, current);
      IdleNotBlocked(tasks, t.state, t.priority, idle, current);
      NoSendersInReceive(tasks, t.state, t.waitingSendersNext, mail.senders, mail.target, r);
      TraceSentAndReceived(tasks, t.tid, t.state, mail.senders, mail.trace, tq.globalTid, current, r);
      SetState(current, ReplyWait);
      ghost var mine, theirs := t.args[current], t.args[r];
      CopyMore(mail.writes, theirs.x2, theirs.x3, mine.x2, mine.x3, SenderTid(t.x1[r], t.tid[current]));
      t.x0 := t.x0[r := CopyLength(t.args[current].x3, t.args[r].x3)];
      mail := mail.(trace := mail.trace + [Sent(t.tid[current], t.tid[r]), Received(t.tid[current], t.tid[r])],
                    writes := mail.writes +
                      [Copied(theirs.x2, theirs.x3, mine.x2, mine.x3), SenderTid(t.x1[r], t.tid[current])]);
      TraceStays(tasks, t.tid, t.state, mail.senders, mail.trace, tq.globalTid, r, Ready);
      SetState(r, Ready);
    }

    /** Send to a task that is not waiting in Receive: the caller blocks behind the senders before it. */
    method BlockOn(r: nat)
      requires Sizes() && current != idle && r in tasks && r < N_TASKS && r != current && t.state[r] != RcvWait
      requires t.state[r] != SendWait && t.waitingSendersNext[current] == NULL
      requires Runs()
      modifies this`mail, t`state, t`waitingSendersNext
      ensures t.state == With(old(t.state), current, SendWait)
      ensures BlockedOn(current, r, t.tid, old(mail), mail)
      ensures Out()
    {
      hide Grown, AllocOk, StackAllocator.Valid, Linked, EventsLinked, Queued, StacksOwned, ParentsOk, WaitsOk,
        StatesOk, IdleOk, SendersOk, TraceOk, InSome, LiveIn;
      CurrentIsTask(tasks, t.priority, tq.queues, current);
      NoSenders(tasks, t.state, t.waitingSendersNext, mail.senders, mail.target, current);
      SendersSized(tasks, t.state, t.waitingSendersNext, mail.senders, mail.target);
      TraceSent(tasks, t.tid, t.state, mail.senders, mail.trace, tq.globalTid, current, r);
      StateFits(tasks, t.state, t.priority, idle, current, current, SendWait);
      SendBlocks(tasks, t.state, t.waitingSendersNext, mail.senders, mail.target, current, r);
      StateMoves(tasks, t.state, current, SendWait, t.x1, t.eventWaitNext, eq.front, eq.back, eq.waiting);
      SendersListed(tasks, t.state, t.waitingSendersNext, mail.senders, mail.target, r);
      t.state := t.state[current := SendWait];
      LinkSender(r, mail.senders[r]);
      mail := mail.(senders := mail.senders[r := mail.senders[r] + [current]], target := mail.target[current := r],
                    trace := mail.trace + [Sent(t.tid[current], t.tid[r])]);
    }

    /** SYS_MSG_SEND. */
    method Send() returns (r: int)
      requires Sizes() && current != idle &&
               SendFits(At(t.x1, current), current, t.tid, t.state, t.waitingSendersNext, tq.queues)
      requires Runs()
      modifies this`mail, t`state, t`x0, t`waitingSendersNext
      ensures r == NULL <==> Unused(t.tid, tq.queues, ToTid(t.x1[current]))
      ensures r == NULL ==> t.x0 == With(old(t.x0), current, -1) && t.state == old(t.state) && mail == old(mail)
      ensures r != NULL ==> At(t.tid, r) == ToTid(t.x1[current])
      ensures r != NULL && StateAt(old(t.state), r) == RcvWait ==>
        r != current && t.state == With(With(old(t.state), current, ReplyWait), r, Ready) &&
        Delivered(current, r, t.x1, t.args, t.tid, old(t.x0), t.x0, old(mail), mail)
      ensures r != NULL && StateAt(old(t.state), r) != RcvWait ==>
        t.x0 == old(t.x0) && t.state == With(old(t.state), current, SendWait) &&
        BlockedOn(current, r, t.tid, old(mail), mail)
      ensures SendServed(This(), old(t.x0), t.x0, old(t.state), t.state, old(mail), mail)
      ensures Out()
    {
      hide Grown, AllocOk, StackAllocator.Valid, Linked, EventsLinked, StacksOwned, ParentsOk, WaitsOk, StatesOk,
        SendersOk, TraceOk, InSome, LiveIn, IdleOk;
      r := tq.Get(ToTid(t.x1[current]));
      NamedIsQueued(r);
      if r == NULL {
        t.x0 := t.x0[current := -1];
      } else if t.state[r] == RcvWait {
        Deliver(r);
      } else {
        BlockOn(r);
      }
    }

    /** Takes the first sender off the caller's list; the history is the caller's business. */
    method PopSender() returns (s: nat)
      requires Sizes() && current != idle && t.waitingSendersNext[current] != NULL
      requires Runs()
      modifies this`mail, t`state, t`waitingSendersNext
      ensures var q := ListAt(old(mail).senders, current);
        q != [] && s == q[0] < N_TASKS && t.state == With(old(t.state), s, ReplyWait) &&
        StateAt(old(t.state), s) == SendWait &&
        mail == old(mail).(senders := With(old(mail).senders, current, q[1..]))
      ensures Tables() && s in tasks && s != current && IdleOk(tasks, t.state, t.priority, idle, current)
    {
      hide Grown, AllocOk, StackAllocator.Valid, Linked, EventsLinked, Queued, StacksOwned, ParentsOk, WaitsOk,
        StatesOk, IdleOk, SendersOk, TraceOk, InSome, LiveIn;
      CurrentIsTask(tasks, t.priority, tq.queues, current);
      NoSenders(tasks, t.state, t.waitingSendersNext, mail.senders, mail.target, current);
      SendersSized(tasks, t.state, t.waitingSendersNext, mail.senders, mail.target);
      ReceiveUnblocks(tasks, t.state, t.waitingSendersNext, mail.senders, mail.target, current);
      s := t.waitingSendersNext[current];
      IdleNotBlocked(tasks, t.state, t.priority, idle, current);
      StateFits(tasks, t.state, t.priority, idle, current, s, ReplyWait);
      StateMoves(tasks, t.state, s, ReplyWait, t.x1, t.eventWaitNext, eq.front, eq.back, eq.waiting);
      t.waitingSendersNext := t.waitingSendersNext[current := t.waitingSendersNext[s]][s := NULL];
      t.state := t.state[s := ReplyWait];
      mail := mail.(senders := mail.senders[current := mail.senders[current][1..]]);
    }

    /** Receive with a sender blocked: the first one's message is taken. */
    method TakeSender()
      requires Sizes() && current != idle && t.waitingSendersNext[current] != NULL
      requires Runs()
      modifies this`mail, t`state, t`x0, t`waitingSendersNext
      ensures var q := ListAt(old(mail.senders), current);
        q != [] && t.state == With(old(t.state), q[0], ReplyWait) && StateAt(old(t.state), q[0]) == SendWait &&
        TakenFrom(current, q[0], t.x1, t.args, t.tid, old(t.x0), t.x0, old(mail), mail)
      ensures StateAt(t.state, current) == Running
      ensures Out()
    {
      hide Grown, AllocOk, StackAllocator.Valid, Linked, EventsLinked, Queued, StacksOwned, ParentsOk, WaitsOk,
        StatesOk, IdleOk, SendersOk, TraceOk, InSome, LiveIn;
      CurrentIsTask(tasks, t.priority, tq.queues, current);
      ghost var state0, mail0 := t.state, mail;
      var s := PopSender();
      TraceReceived(tasks, t.tid, state0, mail0.senders, mail0.trace, tq.globalTid, s, current);
      ghost var mine, theirs := t.args[current], t.args[s];
      CopyMore(mail.writes, mine.x2, mine.x3, theirs.x2, theirs.x3, SenderTid(t.x1[current], t.tid[s]));
      t.x0 := t.x0[current := CopyLength(t.args[current].x3, t.args[s].x3)];
      mail := mail.(trace := mail.trace + [Received(t.tid[s], t.tid[current])],
                    writes := mail.writes +
                      [Copied(mine.x2, mine.x3, theirs.x2, theirs.x3), SenderTid(t.x1[current], t.tid[s])]);
    }

    /** SYS_MSG_RCV. */
    method Receive()
      requires Sizes() && current != idle
      requires Runs()
      modifies this`mail, t`state, t`x0, t`waitingSendersNext
      ensures ReceiveServed(This(), old(t.x0), t.x0, old(t.state), t.state, old(mail), mail)
      ensures ListAt(old(mail.senders), current) != [] ==> StateAt(t.state, current) == Running
      ensures Out()
    {
      hide Grown, AllocOk, StackAllocator.Valid, Linked, EventsLinked, Queued, StacksOwned, ParentsOk, WaitsOk,
        StatesOk, IdleOk, SendersOk, TraceOk, InSome, LiveIn;
      CurrentIsTask(tasks, t.priority, tq.queues, current);
      NoSenders(tasks, t.state, t.waitingSendersNext, mail.senders, mail.target, current);
      SendersSized(tasks, t.state, t.waitingSendersNext, mail.senders, mail.target);
      if t.waitingSendersNext[current] != NULL {
        TakeSender();
      } else {
        TraceStays(tasks, t.tid, t.state, mail.senders, mail.trace, tq.globalTid, current, RcvWait);
        SetState(current, RcvWait);
      }
    }

    /** The reply to task s, which waits for it. */
    method Answer(s: nat)
      requires Sizes() && current != idle && s in tasks && s < N_TASKS && s != current && t.state[s] == ReplyWait
      requires Runs()
      modifies this`mail, t`state, t`x0
      ensures t.state == With(old(t.state), s, Ready) &&
              Answered(current, s, t.args, t.tid, old(t.x0), t.x0, old(mail), mail)
      ensures Out()
    {
      hide Grown, AllocOk, StackAllocator.Valid, Linked, EventsLinked, Queued, StacksOwned, ParentsOk, WaitsOk,
        StatesOk, IdleOk, SendersOk, TraceOk, InSome, LiveIn;
      TraceReplied(tasks, t.tid, t.state, mail.senders, mail.trace, tq.globalTid, s);
      ghost var mine, theirs := t.args[current], t.args[s];
      CopyMore(mail.writes, theirs.x4, theirs.x5, mine.x2, mine.x3, SenderTid(0, 0));
      var len := CopyLength(t.args[s].x5, t.args[current].x3);
      t.x0 := t.x0[current := len][s := len];
      SetState(s, Ready);
      mail := mail.(trace := mail.trace + [Act.Replied(t.tid[s])],
                    writes := mail.writes + [Copied(theirs.x4, theirs.x5, mine.x2, mine.x3)]);
    }

    /** SYS_MSG_RPLY: only a task that waits for a reply is answered. */
    method Reply() returns (s: int)
      requires Sizes() && current != idle
      requires Runs()
      modifies this`mail, t`state, t`x0
      ensures s == NULL <==> Unused(t.tid, tq.queues, ToTid(t.x1[current]))
      ensures s == NULL ==> t.x0 == With(old(t.x0), current, -1) && t.state == old(t.state) && mail == old(mail)
      ensures s != NULL ==> At(t.tid, s) == ToTid(t.x1[current])
      ensures s != NULL && StateAt(old(t.state), s) != ReplyWait ==>
                t.x0 == With(old(t.x0), current, -2) && t.state == old(t.state) && mail == old(mail)
      ensures s != NULL && StateAt(old(t.state), s) == ReplyWait ==>
        t.state == With(old(t.state), s, Ready) && Answered(current, s, t.args, t.tid, old(t.x0), t.x0, old(mail), mail)
      ensures ReplyServed(This(), old(t.x0), t.x0, old(t.state), t.state, old(mail), mail)
      ensures Out()
    {
      hide Grown, AllocOk, StackAllocator.Valid, Linked, EventsLinked, StacksOwned, ParentsOk, WaitsOk, StatesOk,
        SendersOk, TraceOk, InSome, LiveIn, IdleOk;
      s := tq.Get(ToTid(t.x1[current]));
      NamedIsQueued(s);
      if s == NULL {
        t.x0 := t.x0[current := -1];
      } else if t.state[s] != ReplyWait {
        t.x0 := t.x0[current := -2];
      } else {
        Answer(s);
      }
    }

    /** SYS_AWAIT. */
    method Await()
      requires Sizes() && current != idle
      requires Runs()
      modifies t`state, t`x0, t`eventWaitNext, eq
      ensures var e := Narrow32(At(t.x1, current));
        if 0 <= e < N_EVENTS then
          t.state == With(old(t.state), current, EventWait) && t.x0 == With(old(t.x0), current, 0) &&
          eq.waiting == With(old(eq.waiting), e, Plus(ListAt(old(eq.waiting), e), current))
        else t.state == old(t.state) && t.x0 == With(old(t.x0), current, -1) && eq.waiting == old(eq.waiting)
      ensures Out()
    {
      hide Grown, AllocOk, StackAllocator.Valid, Linked, EventsLinked, Queued, StacksOwned, ParentsOk, WaitsOk,
        StatesOk, IdleOk, SendersOk, TraceOk, InSome, LiveIn;
      CurrentIsTask(tasks, t.priority, tq.queues, current);
      WaitsFacts(tasks, t.state, t.x1, t.eventWaitNext, eq.waiting, current);
      ghost var state0, link0, waiting0 := t.state, t.eventWaitNext, eq.waiting;
      var ok := eq.Block(current, Narrow32(t.x1[current]));
      if ok {
        StateFits(tasks, state0, t.priority, idle, current, current, EventWait);
        StateChanges(tasks, state0, t.waitingSendersNext, mail.senders, mail.target, current, EventWait);
        TraceStays(tasks, t.tid, state0, mail.senders, mail.trace, tq.globalTid, current, EventWait);
        WaitsBlocked(tasks, state0, t.x1, link0, t.eventWaitNext, waiting0, current);
        t.x0 := t.x0[current := 0];
      } else {
        t.x0 := t.x0[current := -1];
      }
    }

    // ----- the end of the loop body -----

    /** The task that ran goes back behind the others of its priority, ready if it did not block. */
    method Requeue()
      requires Sizes() && t.state[current] != TaskState.Killed
      requires Out()
      modifies this`current, tq, t`state, t`tid, t`next
      ensures tq.queues ==
        With(old(tq.queues), At(t.priority, old(current)),
          Plus(ListAt(old(tq.queues), At(t.priority, old(current))), old(current)))
      ensures t.state ==
        With(old(t.state), old(current),
          if StateAt(old(t.state), old(current)) == Running then Ready else StateAt(old(t.state), old(current)))
      ensures t.tid == old(t.tid)
      ensures Valid()
    {
      hide Grown, AllocOk, StackAllocator.Valid, Linked, EventsLinked, Queued, StacksOwned, ParentsOk, WaitsOk,
        StatesOk, IdleOk, SendersOk, TraceOk, InSome, LiveIn;
      CurrentIsTask(tasks, t.priority, tq.queues, current);
      CurrentFacts(tasks, t.priority, t.tid, t.state, mail.senders, mail.trace, tq.globalTid, current);
      FreeAreNotTasks(talloc.activeSlabs, talloc.free, tasks, t.priority, tq.queues, current);
      if t.state[current] == Running {
        StateMoves(tasks, t.state, current, Ready, t.x1, t.eventWaitNext, eq.front, eq.back, eq.waiting);
        StateChanges(tasks, t.state, t.waitingSendersNext, mail.senders, mail.target, current, Ready);
        TraceStays(tasks, t.tid, t.state, mail.senders, mail.trace, tq.globalTid, current, Ready);
      }
      ghost var st := if t.state[current] == Running then Ready else t.state[current];
      assert t.state[current := t.state[current]] == t.state;
      NobodyOut(tasks, t.state, t.priority, idle, current, st);
      LinkedSizes(t.next, t.priority, tq.front, tq.back, tq.queues);
      ghost var next0, queues0, state0 := t.next, tq.queues, t.state;
      var tid := tq.Add(current);
      assert t.state == state0[current := st];
      LinkedSizes(t.next, t.priority, tq.front, tq.back, tq.queues);
      Returns(tasks, t.priority, queues0, tq.queues, current);
      AllocFrame(next0, t.next, t.slabIndex, talloc.freeList, talloc.free, talloc.activeSlabs, talloc.taskCountInSlab);
      current := NULL;
    }

    /** The children of the task out of the queues lose their parent. */
    method OrphanChildren()
      requires Sizes()
      requires Out()
      modifies t`parent
      ensures forall x :: x in tasks && x != current ==>
        At(t.parent, x) == if At(old(t.parent), x) == current then NULL else At(old(t.parent), x)
      ensures Sizes() && ParentsOk(tasks - {current as nat}, t.parent)
      ensures Out()
    {
      hide Grown, AllocOk, TaskAllocator.Valid, StackAllocator.Valid, Linked, EventsLinked, Queued, StacksOwned,
        ParentsOk, WaitsOk, StatesOk, IdleOk, SendersOk, TraceOk, InSome, LiveIn;
      CurrentIsTask(tasks, t.priority, tq.queues, current);
      SameTid(tasks, t.tid, t.state, mail.senders, mail.trace, tq.globalTid);
      ParentsRange(tasks, t.parent, t.priority, tq.queues, current);
      ghost var parent0 := t.parent;
      tq.FreeTid(t.tid[current]);
      ChildrenOrphaned(tasks, parent0, t.parent, t.tid, tq.globalTid, tq.queues, t.priority, current);
    }

    /** The stack slot and the descriptor of the exited task, which has no children any more, are free. */
    method Release()
      requires Sizes() && t.state[current] == TaskState.Killed && ParentsOk(tasks - {current as nat}, t.parent)
      requires Out()
      modifies this`current, this`tasks, t`next, t`state, salloc`isAllocd, talloc
      ensures tasks == old(tasks) - {old(current) as nat} && t.state == old(t.state)
      ensures Valid()
    {
      hide Grown, AllocOk, TaskAllocator.Valid, StackAllocator.Valid, Linked, EventsLinked, Queued, StacksOwned,
        ParentsOk,
        WaitsOk, StatesOk, IdleOk, SendersOk, TraceOk, InSome, LiveIn;
      ghost var x: nat := current;
      CurrentIsTask(tasks, t.priority, tq.queues, x);
      StackGivenBack(tasks, salloc.base, salloc.isAllocd, t.stackBase, owner, x);
      TaskLeavesIff(tasks, t.state, t.waitingSendersNext, mail.senders, mail.target, x);
      WaitsLeave(tasks, t.state, t.x1, t.eventWaitNext, eq.front, eq.back, eq.waiting, x);
      TraceLeaves(tasks, t.tid, t.state, mail.senders, mail.trace, tq.globalTid, x);
      LeavesForGood(tasks, t.state, t.priority, tq.queues, idle, x);
      ghost var next0 := t.next;
      salloc.Free(t.stackBase[current]);
      assert t.state[x := TaskState.Killed] == t.state;
      talloc.ValidIsOk();
      talloc.Free(current);
      talloc.ValidIsOk();
      LinkedFrame(next0, t.next, t.priority, t.priority, tq.front, tq.back, tq.queues);
      tasks := tasks - {x};
      current := NULL;
    }

    /** task_dealloc, when current has exited: its children lose their parent, its stack slot and descriptor are
        free. */
    method Dealloc()
      requires Sizes() && t.state[current] == TaskState.Killed
      requires Out()
      modifies this`current, this`tasks, t`parent, t`next, t`state, salloc`isAllocd, talloc
      ensures tasks == old(tasks) - {old(current) as nat} && t.state == old(t.state)
      ensures forall x :: x in tasks ==>
        At(t.parent, x) == if At(old(t.parent), x) == old(current) then NULL else At(old(t.parent), x)
      ensures Valid()
    {
      hide Out, Valid, ParentsOk;
      OrphanChildren();
      Release();
    }

    // ----- new tasks -----

    /** What holds of a descriptor handed out but not yet a task. */
    ghost predicate Fresh(x: nat)
      requires x < N_TASKS && t.Sized()
      reads this, t, talloc
    {
      x in talloc.Live() && x !in tasks && t.waitingSendersNext[x] == NULL && t.eventWaitNext[x] == NULL &&
        t.tid[x] == 0
    }

    /** task_init: a stack slot is always left for a new descriptor. */
    method Equip(x: nat, code: int, parent: int, priority: int)
      requires t.Sized() && x < N_TASKS && Fresh(x) && (parent == NULL || (0 <= parent < N_TASKS && parent in tasks))
      requires 0 <= priority < N_PRIORITY
      requires Tables() && History()
      modifies this`owner, salloc`isAllocd, t`x0, t`x1, t`args, t`parent, t`priority, t`state, t`stackBase
      ensures Parts() && t.state == With(old(t.state), x, Ready) && t.priority == With(old(t.priority), x, priority)
      ensures StateAt(t.state, x) == Ready && At(t.priority, x) == priority &&
              t.parent == With(old(t.parent), x, parent) && t.x0 == With(old(t.x0), x, code)
      ensures Queued(tasks, t.priority, tq.queues, current)
      ensures StacksOwned(tasks + {x}, salloc.base, salloc.isAllocd, t.stackBase, owner) &&
              ParentsOk(tasks + {x}, t.parent)
      ensures WaitsOk(tasks + {x}, t.state, t.x1, t.eventWaitNext, eq.waiting) &&
              StatesOk(tasks + {x}, t.state, current)
      ensures SendersOk(tasks + {x}, t.state, t.waitingSendersNext, mail.senders, mail.target)
      ensures t.Sized() && Fresh(x) && History()
    {
      hide Grown, AllocOk, TaskAllocator.Valid, Linked, EventsLinked, Queued, StacksOwned, ParentsOk, WaitsOk, StatesOk,
        IdleOk, SendersOk, TraceOk, InSome, LiveIn;
      NotQueued(tasks, t.priority, tq.queues, current, x, priority);
      SlotLeft(tasks, salloc.base, salloc.isAllocd, t.stackBase, owner, x);
      ghost var isAllocd0 := salloc.isAllocd;
      var sp := salloc.New();
      StackTaken(tasks, salloc.base, isAllocd0, t.stackBase, owner, x, sp);
      TraceStays(tasks, t.tid, t.state, mail.senders, mail.trace, tq.globalTid, x, Ready);
      StateChanges(tasks, t.state, t.waitingSendersNext, mail.senders, mail.target, x, Ready);
      TaskJoins(tasks, t.state[x := Ready], t.waitingSendersNext, mail.senders, mail.target, x);
      LinkedFrame(t.next, t.next, t.priority, t.priority[x := priority], tq.front, tq.back, tq.queues);
      EventsFrame(tasks, t.eventWaitNext, t.eventWaitNext, t.state, t.state[x := Ready], t.x1, t.x1[x := 0], eq.front,
                  eq.back, eq.waiting);
      WaitsJoin(tasks, t.state[x := Ready], t.x1[x := 0], t.eventWaitNext, eq.waiting, x);
      JoinsQuietly(tasks, t.parent, t.state, current, x, parent);
      owner := owner[SlotOf(salloc.base, sp) := x];
      t.Init(x, code, parent, priority, sp);
    }
    /** task_alloc_new in the kernel: the tasks are as before. */
    method NewDescriptor() returns (x: int)
      requires Tables() && History()
      modifies talloc, t`next, t`waitingSendersNext, t`eventWaitNext, t`tid, t`slabIndex
      ensures Tables() && History()
      ensures x == NULL <==> AllLive(old(talloc.Live()))
      ensures x == NULL ==> talloc.Live() == old(talloc.Live())
      ensures x != NULL ==>
        0 <= x < N_TASKS && x !in old(talloc.Live()) && talloc.Live() == old(talloc.Live()) + {x as nat} && Fresh(x)
      ensures SameOn(old(t.waitingSendersNext), t.waitingSendersNext, old(talloc.Live()))
      ensures SameOn(old(t.eventWaitNext), t.eventWaitNext, old(talloc.Live())) &&
              SameOn(old(t.tid), t.tid, old(talloc.Live()))
    {
      hide Grown, AllocOk, TaskAllocator.Valid, StackAllocator.Valid, Linked, EventsLinked, Queued, StacksOwned,
        ParentsOk, WaitsOk, StatesOk, IdleOk, SendersOk, TraceOk, InSome, LiveIn, TaskAllocator.Live;
      ghost var next0, wsn0, ewn0, tid0, live0 := t.next, t.waitingSendersNext, t.eventWaitNext, t.tid, talloc.Live();
      SendersAreTasks(tasks, t.state, t.waitingSendersNext, mail.senders, mail.target);
      QueuedAreTasks(tasks, t.priority, tq.queues, current);
      talloc.ValidIsOk();
      x := talloc.New();
      talloc.ValidIsOk();
      LinkedFrame(next0, t.next, t.priority, t.priority, tq.front, tq.back, tq.queues);
      EventsFrame(tasks, ewn0, t.eventWaitNext, t.state, t.state, t.x1, t.x1, eq.front, eq.back, eq.waiting);
      SendersFrame(tasks, t.state, wsn0, t.waitingSendersNext, mail.senders, mail.target);
      TraceFrame(tasks, tid0, t.tid, t.state, mail.senders, mail.trace, tq.globalTid);
    }

    /** task_queue_add of a new task: it gets the next identifier, unless it has the one given. */
    method Enroll(x: nat, tid: int) returns (r: int)
      requires t.Sized() && x in talloc.Live() && x !in tasks && x < N_TASKS && t.tid[x] == 0 &&
               StateAt(t.state, x) == Ready && 0 <= At(t.priority, x) < N_PRIORITY
      requires tid == 0 ==> tq.globalTid < LAST_TID
      requires tid != 0 ==> 0 < tid <= tq.globalTid && mail.trace == [] && forall y :: y in tasks ==>
        At(t.tid, y) != tid
      requires forall r: nat, s :: r < |mail.senders| && s in mail.senders[r] ==> s in tasks
      requires Parts() && tasks <= talloc.Live() && Queued(tasks, t.priority, tq.queues, current) &&
               |mail.senders| == N_TASKS && mail.senders[x] == [] && History()
      modifies tq, t`tid, t`next, t`state
      ensures Parts() && Queued(tasks + {x}, t.priority, tq.queues, current) && t.state == old(t.state)
      ensures TraceOk(tasks + {x}, t.tid, t.state, mail.senders, mail.trace, tq.globalTid) && WritesOk(mail.writes)
      ensures t.tid == With(old(t.tid), x, r) && r == if tid != 0 then tid else old(tq.globalTid) + 1
      ensures tq.globalTid == if tid != 0 then old(tq.globalTid) else r
      ensures Grown(old(tq.queues), tq.queues)
    {
      hide Grown, AllocOk, TaskAllocator.Valid, StackAllocator.Valid, Linked, EventsLinked, Queued, StacksOwned,
        ParentsOk, WaitsOk, StatesOk, IdleOk, SendersOk, TraceOk, InSome, LiveIn;
      CurrentIsNotNew(tasks, t.priority, tq.queues, current, x);
      FreeAreNotTasks(talloc.activeSlabs, talloc.free, tasks, t.priority, tq.queues, current);
      NotFree(talloc.activeSlabs, talloc.free, x);
      NextTidUnused(tasks, t.tid, t.state, mail.senders, mail.trace, tq.globalTid, t.priority, tq.queues, current);
      LinkedSizes(t.next, t.priority, tq.front, tq.back, tq.queues);
      ghost var tid0, next0, queues0, g0 := t.tid, t.next, tq.queues, tq.globalTid;
      if tid != 0 { t.tid := t.tid[x := tid]; }
      assert t.state[x := t.state[x]] == t.state;
      r := tq.Add(x);
      AppendGrows(queues0, t.priority[x], x);
      LinkedSizes(t.next, t.priority, tq.front, tq.back, tq.queues);
      AllocFrame(next0, t.next, t.slabIndex, talloc.freeList, talloc.free, talloc.activeSlabs, talloc.taskCountInSlab);
      Enters(tasks, t.priority, queues0, tq.queues, current, x);
      assert t.tid == tid0[x := r];
      NewTaskTids(tasks, tid0, t.state, mail.senders, mail.trace, g0, x, r, tq.globalTid);
    }

    lemma FreshIs(x: nat)
      requires x < N_TASKS && t.Sized() && Fresh(x)
      ensures x in talloc.Live() && x !in tasks && t.waitingSendersNext[x] == NULL && t.tid[x] == 0
    {
    }

    lemma SendersKnown()
      requires Tables()
      ensures tasks <= talloc.Live() && |mail.senders| == N_TASKS
      ensures forall r: nat, s :: r < |mail.senders| && s in mail.senders[r] ==> s in tasks
    {
      SendersAreTasks(tasks, t.state, t.waitingSendersNext, mail.senders, mail.target);
    }

    lemma AreTables()
      requires Parts() && tasks <= talloc.Live() && Queued(tasks, t.priority, tq.queues, current)
      requires StacksOwned(tasks, salloc.base, salloc.isAllocd, t.stackBase, owner) && ParentsOk(tasks, t.parent)
      requires WaitsOk(tasks, t.state, t.x1, t.eventWaitNext, eq.waiting) && StatesOk(tasks, t.state, current)
      requires SendersOk(tasks, t.state, t.waitingSendersNext, mail.senders, mail.target)
      ensures Tables()
    {
    }

    lemma IsHistory()
      requires TraceOk(tasks, t.tid, t.state, mail.senders, mail.trace, tq.globalTid) && WritesOk(mail.writes)
      ensures History()
    {
    }

    /** The descriptor becomes a task. */
    method Launch(x: nat, code: int, parent: int, priority: int, tid: int) returns (r: int)
      requires t.Sized() && x < N_TASKS && Fresh(x) && (parent == NULL || (0 <= parent < N_TASKS && parent in tasks))
      requires 0 <= priority < N_PRIORITY
      requires tid == 0 ==> tq.globalTid < LAST_TID
      requires tid != 0 ==> 0 < tid <= tq.globalTid && mail.trace == [] && forall y :: y in tasks ==>
        At(t.tid, y) != tid
      requires Tables() && History()
      modifies this`tasks, this`owner, salloc`isAllocd, t`x0, t`x1, t`args, t`parent, t`priority, t`state, t`stackBase,
        tq, t`tid, t`next
      ensures tasks == old(tasks) + {x} && t.state == With(old(t.state), x, Ready)
      ensures t.priority == With(old(t.priority), x, priority) && t.parent == With(old(t.parent), x, parent) &&
              t.tid == With(old(t.tid), x, r)
      ensures t.x0 == With(old(t.x0), x, code)
      ensures r == if tid != 0 then tid else old(tq.globalTid) + 1
      ensures tq.globalTid == if tid != 0 then old(tq.globalTid) else r
      ensures Grown(old(tq.queues), tq.queues)
      ensures Tables() && History()
    {
      hide *;
      SendersKnown();
      Equip(x, code, parent, priority);
      FreshIs(x);
      NewHasNoSenders(tasks + {x}, t.state, t.waitingSendersNext, mail.senders, mail.target, x);
      r := Enroll(x, tid);
      tasks := tasks + {x};
      AreTables();
      IsHistory();
    }

    /** SYS_CREAT with a priority there is: a new task unless every descriptor is in use. */
    method CreateTask(code: int, priority: int) returns (x: int)
      requires Sizes() && current != idle && tq.globalTid < LAST_TID && 0 <= priority < N_PRIORITY
      requires Runs()
      modifies this`tasks, this`owner, salloc`isAllocd, talloc, t`x0, t`x1, t`args, t`parent, t`priority, t`state,
        t`stackBase,
        tq, t`tid, t`next, t`waitingSendersNext, t`eventWaitNext, t`slabIndex
      ensures x == NULL <==> AllLive(old(tasks))
      ensures x == NULL ==> tasks == old(tasks) && t.state == old(t.state) && t.x0 == old(t.x0)
      ensures x != NULL ==> 0 <= x < N_TASKS && x !in old(tasks) && tasks == old(tasks) + {x as nat}
      ensures x != NULL ==> t.state == With(old(t.state), x, Ready) && t.x0 == With(old(t.x0), x, code)
      ensures x != NULL ==>
        At(t.tid, x) == old(tq.globalTid) + 1 && At(t.priority, x) == priority && At(t.parent, x) == current
      ensures Grown(old(tq.queues), tq.queues)
      ensures Sizes() && Runs()
    {
      hide Grown, AllocOk, TaskAllocator.Valid, StackAllocator.Valid, Linked, EventsLinked, Queued, StacksOwned,
        ParentsOk, WaitsOk, StatesOk, IdleOk, SendersOk, TraceOk, InSome, LiveIn;
      CurrentIsTask(tasks, t.priority, tq.queues, current);
      GrowsNot(tq.queues);
      x := NewDescriptor();
      if x != NULL {
        NewIdle(tasks, t.state, t.priority, idle, current, x, priority);
        var tid := Launch(x, code, current, priority, 0);
      }
      SendersSized(tasks, t.state, t.waitingSendersNext, mail.senders, mail.target);
    }

    /** SYS_CREAT. */
    method Create() returns (x: int)
      requires Sizes() && current != idle && tq.globalTid < LAST_TID
      requires Runs()
      modifies this`tasks, this`owner, salloc`isAllocd, talloc, t`x0, t`x1, t`args, t`parent, t`priority, t`state,
        t`stackBase,
        tq, t`tid, t`next, t`waitingSendersNext, t`eventWaitNext, t`slabIndex
      ensures Created(old(This()), old(tq.globalTid), old(t.x0), t.x0, old(t.state), t.state, tasks, t.tid, t.parent,
                      t.priority)
      ensures StateAt(t.state, current) == StateAt(old(t.state), current)
      ensures Grown(old(tq.queues), tq.queues)
      ensures Out()
    {
      hide Grown, AllocOk, TaskAllocator.Valid, StackAllocator.Valid, Linked, EventsLinked, Queued, StacksOwned,
        ParentsOk, WaitsOk, StatesOk, IdleOk, SendersOk, TraceOk, InSome, LiveIn;
      GrowsNot(tq.queues);
      if 0 <= t.x1[current] < N_PRIORITY {
        x := CreateTask(t.args[current].x2, t.x1[current]);
        t.x0 := t.x0[current := if x == NULL then -2 else t.tid[x]];
      } else {
        x := NULL;
        t.x0 := t.x0[current := -1];
      }
    }

    // ----- interrupts -----

    /** An event releases the task that waited longest for it, with the event's value. */
    method WakeOne(e: nat, retval: int)
      requires e < N_EVENTS && Sizes()
      requires Out()
      modifies eq, t`eventWaitNext, t`state, t`x0
      ensures var q := ListAt(old(eq.waiting), e);
        if q == [] then t.state == old(t.state) && t.x0 == old(t.x0) && eq.waiting == old(eq.waiting)
        else t.state == With(old(t.state), q[0], Ready) && t.x0 == With(old(t.x0), q[0], retval) &&
             eq.waiting == With(old(eq.waiting), e, q[1..])
      ensures Woken(old(t.state), t.state) && Sizes() && Out()
    {
      hide Grown, AllocOk, TaskAllocator.Valid, StackAllocator.Valid, Linked, EventsLinked, Queued, StacksOwned,
        ParentsOk, WaitsOk, StatesOk, IdleOk, SendersOk, TraceOk, InSome, LiveIn;
      CurrentIsTask(tasks, t.priority, tq.queues, current);
      FrontIsHead(t.eventWaitNext, t.state, t.x1, eq.front, eq.back, eq.waiting, e);
      ghost var state0, link0, waiting0 := t.state, t.eventWaitNext, eq.waiting;
      WaitersWait(t.eventWaitNext, t.state, t.x1, eq.front, eq.back, eq.waiting, e);
      var ok := eq.UnblockOne(e, retval);
      if ok {
        assert waiting0[e] == [waiting0[e][0]] + waiting0[e][1..];
        WaitsWoken(tasks, state0, t.state, t.x1, link0, t.eventWaitNext, waiting0, e, [waiting0[e][0]],
                   waiting0[e][1..]);
        OthersKept(tasks, state0, t.state, t.waitingSendersNext, mail.senders, mail.target, t.tid, mail.trace,
                   tq.globalTid, t.priority, idle, current);
      }
    }

    /** A timer tick releases every task waiting for it. */
    method WakeAll(e: nat, retval: int)
      requires e < N_EVENTS && Sizes()
      requires Out()
      modifies eq, t`eventWaitNext, t`state, t`x0
      ensures var q := ListAt(old(eq.waiting), e);
        eq.waiting == With(old(eq.waiting), e, []) &&
        forall x: nat :: x < N_TASKS ==> StateAt(t.state, x) == (if x in q then Ready else StateAt(old(t.state), x)) &&
                                         At(t.x0, x) == if x in q then retval else At(old(t.x0), x)
      ensures Woken(old(t.state), t.state) && Sizes() && Out()
    {
      hide Grown, AllocOk, TaskAllocator.Valid, StackAllocator.Valid, Linked, EventsLinked, Queued, StacksOwned,
        ParentsOk, WaitsOk, StatesOk, IdleOk, SendersOk, TraceOk, InSome, LiveIn;
      CurrentIsTask(tasks, t.priority, tq.queues, current);
      FrontIsHead(t.eventWaitNext, t.state, t.x1, eq.front, eq.back, eq.waiting, e);
      ghost var state0, link0, waiting0 := t.state, t.eventWaitNext, eq.waiting;
      WaitersWait(t.eventWaitNext, t.state, t.x1, eq.front, eq.back, eq.waiting, e);
      var ok := eq.UnblockAll(e, retval);
      assert waiting0[e] == waiting0[e] + [];
      WaitsWoken(tasks, state0, t.state, t.x1, link0, t.eventWaitNext, waiting0, e, waiting0[e], []);
      OthersKept(tasks, state0, t.state, t.waitingSendersNext, mail.senders, mail.target, t.tid, mail.trace,
                 tq.globalTid, t.priority, idle, current);
    }

    /** handle_interrupt: the timer, or whatever the serial lines report, in the order they are looked at. */
    method Interrupt(irq: Interrupt)
      requires Sizes()
      requires Out()
      modifies eq, t`eventWaitNext, t`state, t`x0
      ensures eq.waiting == WaitersLeft(irq, old(eq.waiting))
      ensures Interrupted(irq, old(eq.waiting), old(t.x0), t.x0, old(t.state), t.state)
      ensures Woken(old(t.state), t.state)
      ensures Sizes() && Out()
    {
      hide Grown, AllocOk, TaskAllocator.Valid, StackAllocator.Valid, Linked, EventsLinked, Queued, StacksOwned,
        ParentsOk, WaitsOk, StatesOk, IdleOk, SendersOk, TraceOk, InSome, LiveIn;
      match irq
      case Timer => WakeAll(TIMER_TICK, 0);
      case Serial(cts, ctsStatus, rx, byte, rtim) => SerialInterrupt(irq);
    }

    /** The serial lines are looked at one after the other. */
    method SerialInterrupt(irq: Interrupt)
      requires irq.Serial? && Sizes()
      requires Out()
      modifies eq, t`eventWaitNext, t`state, t`x0
      ensures (eq.waiting, t.state, t.x0) == Served(old(eq.waiting), old(t.state), old(t.x0), irq)
      ensures Woken(old(t.state), t.state)
      ensures Sizes() && Out()
    {
      ghost var was := t.state;
      NoneWoken(was);
      hide Out, Sizes, ListAt, With, Woken;
      if irq.cts { WakeOne(MARKLIN_CTS, irq.ctsStatus); }
      ghost var between := t.state;
      if irq.rx {
        WakeOne(MARKLIN_RX, irq.byte);
        WokenTwice(was, between, t.state);
      }
      between := t.state;
      if irq.rtim {
        WakeOne(CONSOLE_RX, 0);
        WokenTwice(was, between, t.state);
      }
      OutSizes();
    }

    // ----- whole steps -----

    /** A descriptor when no task exists but those given; there is always one left then. */
    method FirstDescriptor() returns (x: nat)
      requires Tables() && History() && |talloc.Live()| <= 3
      modifies talloc, t`next, t`waitingSendersNext, t`eventWaitNext, t`tid, t`slabIndex
      ensures t.Sized() && x < N_TASKS && Fresh(x) && x !in old(talloc.Live()) &&
              talloc.Live() == old(talloc.Live()) + {x}
      ensures SameOn(old(t.waitingSendersNext), t.waitingSendersNext, old(talloc.Live()))
      ensures SameOn(old(t.eventWaitNext), t.eventWaitNext, old(talloc.Live())) &&
              SameOn(old(t.tid), t.tid, old(talloc.Live()))
      ensures Tables() && History()
    {
      hide Tables, History, SameOn, TaskAllocator.Live, Fresh;
      SmallNotAll(talloc.Live());
      x := NewDescriptor();
      TablesSized();
    }

    lemma TablesSized()
      requires Tables()
      ensures t.Sized()
    {
    }

    /** A descriptor handed out stays as it is when another one is. */
    lemma StaysFresh(x: nat, live: set<nat>, wsn: seq<int>, ewn: seq<int>, tid: seq<int>)
      requires x < N_TASKS && t.Sized() && x in live && x in talloc.Live() && x !in tasks
      requires |wsn| == N_TASKS == |ewn| && |tid| == N_TASKS && wsn[x] == NULL && ewn[x] == NULL && tid[x] == 0
      requires SameOn(wsn, t.waitingSendersNext, live) && SameOn(ewn, t.eventWaitNext, live) && SameOn(tid, t.tid, live)
      ensures Fresh(x)
    {
    }

    /** The name server is task 1; the descriptor of the first user task has been taken before. */
    method StartNameserver(user: nat, nameserverMain: int) returns (nameserver: nat)
      requires t.Sized() && user < N_TASKS && Fresh(user) && talloc.Live() == {user} && tasks == {}
      requires mail.trace == [] && tq.globalTid == FIRST_TID
      requires Tables() && History()
      modifies this`tasks, this`owner, salloc`isAllocd, talloc, t`x0, t`x1, t`args, t`parent, t`priority, t`state,
        t`stackBase, tq, t`tid, t`next, t`waitingSendersNext, t`eventWaitNext, t`slabIndex
      ensures t.Sized() && Fresh(user) && talloc.Live() == tasks + {user} && tasks == {nameserver} &&
              tq.globalTid == FIRST_TID
      ensures At(t.tid, nameserver) == NAMESERVER_TID && At(t.priority, nameserver) == P_SERVER_LO
      ensures Tables() && History()
    {
      hide Tables, History, SameOn, TaskAllocator.Live, Grown;
      ghost var wsn0, ewn0, tid0 := t.waitingSendersNext, t.eventWaitNext, t.tid;
      nameserver := FirstDescriptor();
      StaysFresh(user, {user}, wsn0, ewn0, tid0);
      var tid := Launch(nameserver, nameserverMain, NULL, P_SERVER_LO, NAMESERVER_TID);
      TablesSized();
    }

    /** The idle task is the last one. */
    method StartIdle(idleMain: int)
      requires current == NULL && talloc.Live() == tasks && |tasks| <= 3 && tq.globalTid < LAST_TID
      requires Tables() && History()
      modifies this`tasks, this`owner, this`idle, salloc`isAllocd, talloc, t`x0, t`x1, t`args, t`parent, t`priority,
        t`state,
        t`stackBase, tq, t`tid, t`next, t`waitingSendersNext, t`eventWaitNext, t`slabIndex
      ensures idle !in old(tasks) && tasks == old(tasks) + {idle} && tq.globalTid == old(tq.globalTid) + 1
      ensures At(t.tid, idle) == tq.globalTid && At(t.priority, idle) == P_IDLE
      ensures forall x :: x in old(tasks) && x < N_TASKS ==>
        At(t.tid, x) == At(old(t.tid), x) && At(t.priority, x) == At(old(t.priority), x)
      ensures Valid()
    {
      hide Tables, History, TaskAllocator.Live, Grown, IdleOk, Fresh;
      TablesSized();
      var task := FirstDescriptor();
      FreshIs(task);
      var tid := Launch(task, idleMain, NULL, P_IDLE, 0);
      TablesSized();
      idle := task;
      IdleBoots(tasks, t.state, t.priority, idle);
    }

    /** kernel_init: the first user task, the name server and the idle task. */
    method Boot(userMain: int, nameserverMain: int, idleMain: int) returns (nameserver: nat, user: nat)
      requires current == NULL && tasks == {} == talloc.Live() && mail.trace == [] && tq.globalTid == FIRST_TID
      requires Tables() && History()
      modifies this`tasks, this`owner, this`idle, salloc`isAllocd, talloc, t`x0, t`x1, t`args, t`parent, t`priority,
        t`state,
        t`stackBase, tq, t`tid, t`next, t`waitingSendersNext, t`eventWaitNext, t`slabIndex
      ensures |tasks| == 3 && tasks == {nameserver, user, idle} && tq.globalTid == 52
      ensures At(t.tid, nameserver) == 1 && At(t.tid, user) == 51 && At(t.tid, idle) == 52
      ensures At(t.priority, nameserver) == 7 && At(t.priority, user) == 1 && At(t.priority, idle) == 0
      ensures Valid()
    {
      hide Tables, History, Valid, TaskAllocator.Live, Grown, Fresh, SameOn;
      user := FirstDescriptor();
      nameserver := StartNameserver(user, nameserverMain);
      FreshIs(user);
      var tid := Launch(user, userMain, NULL, P_LOW, 0);
      StartIdle(idleMain);
    }

    /** A task traps with these registers. */
    method Enter(r0: int, r1: int, rest: Args)
      requires Sizes()
      requires Runs()
      modifies t`x0, t`x1, t`args
      ensures t.x0 == With(old(t.x0), current, r0) && t.x1 == With(old(t.x1), current, r1) &&
              t.args == With(old(t.args), current, rest)
      ensures Sizes() && At(t.x0, current) == r0 && At(t.x1, current) == r1
      ensures Runs()
    {
      hide Grown, AllocOk, TaskAllocator.Valid, StackAllocator.Valid, Linked, EventsLinked, Queued, StacksOwned,
        ParentsOk, WaitsOk, StatesOk, IdleOk, SendersOk, TraceOk, InSome, LiveIn;
      EventsFrame(tasks, t.eventWaitNext, t.eventWaitNext, t.state, t.state, t.x1, t.x1[current := r1], eq.front,
                  eq.back, eq.waiting);
      t.SetRegisters(current, r0, r1, rest);
    }

    /** Whether the running task's call is one this model covers. */
    method MayCall() returns (ok: bool)
      requires Sizes()
      requires Runs()
      ensures ok <==>
        Covered(At(t.x0, current), At(t.x1, current), current, idle, t.tid, t.state, t.waitingSendersNext, tq.queues,
          tq.globalTid)
    {
      hide Grown, AllocOk, TaskAllocator.Valid, StackAllocator.Valid, Linked, EventsLinked, Queued, StacksOwned,
        ParentsOk, WaitsOk, StatesOk, IdleOk, SendersOk, TraceOk, InSome, LiveIn;
      var n := t.x0[current];
      if current == idle { return false; }
      if n == SYS_CREAT { return tq.globalTid < LAST_TID; }
      if n == SYS_EXIT { return t.waitingSendersNext[current] == NULL; }
      if n == SYS_MSG_SEND {
        SameTid(tasks, t.tid, t.state, mail.senders, mail.trace, tq.globalTid);
        QueuedAreTasks(tasks, t.priority, tq.queues, current);
        var r := tq.Get(ToTid(t.x1[current]));
        return r == NULL || t.state[r] == RcvWait || (t.waitingSendersNext[current] == NULL && t.state[r] != SendWait);
      }
      return Plain(n);
    }

    /** task_svc_handle, by call number; Kill, KillAllChildren and IdleStatus are not part of this model. */
    method Handle()
      requires Sizes() &&
        Covered(At(t.x0, current), At(t.x1, current), current, idle, t.tid, t.state, t.waitingSendersNext, tq.queues,
          tq.globalTid)
      requires Runs()
      modifies this`tasks, this`owner, this`mail, salloc`isAllocd, talloc, t`x0, t`x1, t`args, t`parent, t`priority,
        t`state, t`stackBase,
        tq, t`tid, t`next, t`waitingSendersNext, t`eventWaitNext, t`slabIndex, eq
      ensures Grown(old(tq.queues), tq.queues)
      ensures CallServed(At(old(t.x0), current), old(This()), old(t.x0), t.x0, old(t.state), t.state, old(mail), mail)
      ensures At(old(t.x0), current) == SYS_CREAT ==>
        Created(old(This()), old(tq.globalTid), old(t.x0), t.x0, old(t.state), t.state, tasks, t.tid, t.parent,
                t.priority)
      ensures At(old(t.x0), current) != SYS_CREAT ==>
        t.x1 == old(t.x1) && t.args == old(t.args) && tasks == old(tasks) && t.tid == old(t.tid) &&
        t.parent == old(t.parent) && t.priority == old(t.priority)
      ensures eq.waiting == WaitersAfter(At(old(t.x0), current), At(old(t.x1), current), current, old(eq.waiting))
      ensures StateAt(t.state, current) == TaskState.Killed <==> At(old(t.x0), current) == SYS_EXIT
      ensures StaysReady(old(tasks), current, old(t.state), t.state)
      ensures Sizes() && Out()
    {
      hide Grown, AllocOk, TaskAllocator.Valid, StackAllocator.Valid, Linked, EventsLinked, Queued, StacksOwned,
        ParentsOk, WaitsOk, StatesOk, IdleOk, SendersOk, TraceOk, InSome, LiveIn;
      hide Out, Runs, Tables, Parts, History;
      RunsIsOut();
      GrowsNot(tq.queues);
      var n := t.x0[current];
      ghost var call, x0, state0, mail0 := This(), t.x0, t.state, mail;
      if n == SYS_CREAT {
        ghost var g := tq.globalTid;
        var x := Create();
        CreatedKeepsReady(call, g, x0, t.x0, state0, t.state, tasks, t.tid, t.parent, t.priority);
      } else {
        if n in {SYS_TID, SYS_PTID, SYS_EXIT, SYS_AWAIT} {
          HandleOwn();
        } else {
          HandleMessage();
        }
        ServedKeepsReady(n, call, x0, t.x0, state0, t.state, mail0, mail);
      }
      OutSizes();
    }

    /** The calls that concern their caller alone. */
    method HandleOwn()
      requires Sizes() && current != idle && t.x0[current] in {SYS_TID, SYS_PTID, SYS_EXIT, SYS_AWAIT}
      requires t.x0[current] == SYS_EXIT ==> t.waitingSendersNext[current] == NULL
      requires Runs()
      modifies t`state, t`x0, t`eventWaitNext, eq
      ensures CallServed(At(old(t.x0), current), This(), old(t.x0), t.x0, old(t.state), t.state, mail, mail)
      ensures eq.waiting == WaitersAfter(At(old(t.x0), current), At(t.x1, current), current, old(eq.waiting))
      ensures StateAt(t.state, current) == TaskState.Killed <==> At(old(t.x0), current) == SYS_EXIT
      ensures Out()
    {
      hide Out, Runs;
      RunsIsOut();
      var n := t.x0[current];
      if n == SYS_TID {
        MyTid();
      } else if n == SYS_PTID {
        MyParentTid();
      } else if n == SYS_EXIT {
        Exit();
      } else {
        Await();
      }
    }

    /** The calls that pass messages. */
    method HandleMessage()
      requires Sizes() && current != idle && t.x0[current] in {SYS_YIELD, SYS_MSG_SEND, SYS_MSG_RCV, SYS_MSG_RPLY}
      requires t.x0[current] == SYS_MSG_SEND ==>
        SendFits(t.x1[current], current, t.tid, t.state, t.waitingSendersNext, tq.queues)
      requires Runs()
      modifies this`mail, t`state, t`x0, t`waitingSendersNext
      ensures CallServed(At(old(t.x0), current), This(), old(t.x0), t.x0, old(t.state), t.state, old(mail), mail)
      ensures StateAt(t.state, current) != TaskState.Killed
      ensures Out()
    {
      hide Out, Runs;
      RunsIsOut();
      var n := t.x0[current];
      if n == SYS_MSG_SEND {
        var r := Send();
      } else if n == SYS_MSG_RCV {
        Receive();
      } else if n == SYS_MSG_RPLY {
        var s := Reply();
      }
    }

    method MyTid()
      requires Sizes()
      requires Runs()
      modifies t`x0
      ensures t.x0 == With(old(t.x0), current, At(t.tid, current))
      ensures Out()
    {
      hide AllocOk, StackAllocator.Valid, Linked, EventsLinked, Queued, StacksOwned, ParentsOk, WaitsOk, StatesOk,
        IdleOk, SendersOk, TraceOk, InSome, LiveIn;
      t.x0 := t.x0[current := t.tid[current]];
    }

    /** 0 for a task whose parent is gone or was the kernel. */
    method MyParentTid()
      requires Sizes()
      requires Runs()
      modifies t`x0
      ensures t.x0 == With(old(t.x0), current, ParentTid(This()))
      ensures At(t.x0, current) == if At(t.parent, current) == NULL then 0 else At(t.tid, At(t.parent, current))
      ensures Out()
    {
      hide AllocOk, StackAllocator.Valid, Linked, EventsLinked, Queued, StacksOwned, ParentsOk, WaitsOk, StatesOk,
        IdleOk, SendersOk, TraceOk, InSome, LiveIn;
      CurrentIsTask(tasks, t.priority, tq.queues, current);
      ParentIsTask(tasks, t.parent, t.priority, tq.queues, current);
      t.x0 := t.x0[current := if t.parent[current] != NULL then t.tid[t.parent[current]] else 0];
    }

    lemma OutSizes()
      requires Out()
      ensures Sizes()
    {
    }

    lemma RunsIsOut()
      requires Runs()
      ensures StateAt(t.state, current) == Running && Out() && Sizes()
    {
    }

    /** The turn of the running task. */
    method Turn(trap: Trap) returns (ok: bool)
      requires Sizes()
      requires Runs()
      modifies this`tasks, this`owner, this`mail, salloc`isAllocd, talloc, t, tq, eq
      ensures ok <==>
        trap.Irq? || Covered(trap.x0, trap.x1, current, idle, old(t.tid), old(t.state), old(t.waitingSendersNext),
          old(tq.queues), old(tq.globalTid))
      ensures ok && trap.Svc? ==>
        CallServed(trap.x0, CallOf(trap, current, old(tasks), old(t.tid), old(t.parent), old(t.x1), old(t.args)),
                   With(old(t.x0), current, trap.x0), t.x0, old(t.state), t.state, old(mail), mail)
      ensures ok && trap.Svc? && trap.x0 == SYS_CREAT ==>
        Created(CallOf(trap, current, old(tasks), old(t.tid), old(t.parent), old(t.x1), old(t.args)),
                old(tq.globalTid), With(old(t.x0), current, trap.x0), t.x0, old(t.state), t.state, tasks, t.tid,
                t.parent, t.priority)
      ensures ok && trap.Svc? && trap.x0 != SYS_CREAT ==>
        t.x1 == With(old(t.x1), current, trap.x1) && t.args == With(old(t.args), current, trap.args)
      ensures ok && (trap.Irq? || trap.x0 != SYS_CREAT) ==>
        tasks == old(tasks) && t.tid == old(t.tid) && t.parent == old(t.parent) && t.priority == old(t.priority)
      ensures ok && trap.Svc? ==> eq.waiting == WaitersAfter(trap.x0, trap.x1, current, old(eq.waiting))
      ensures ok ==> (StateAt(t.state, current) == TaskState.Killed <==> trap.Svc? && trap.x0 == SYS_EXIT)
      ensures ok && trap.Irq? ==>
        Interrupted(trap.irq, old(eq.waiting), old(t.x0), t.x0, old(t.state), t.state) &&
        eq.waiting == WaitersLeft(trap.irq, old(eq.waiting)) && mail == old(mail)
      ensures ok ==> StaysReady(old(tasks), current, old(t.state), t.state)
      ensures ok ==> Grown(old(tq.queues), tq.queues) && Sizes() && Out()
    {
      hide *;
      RunsIsOut();
      match trap {
        case Irq(irq) =>
          ghost var state0 := t.state;
          Interrupt(irq);
          RunnerNotWoken(state0, t.state, tasks, current);
          GrowsNot(tq.queues);
          return true;
        case Svc(r0, r1, rest) =>
          ghost var x1, args := t.x1, t.args;
          Enter(r0, r1, rest);
          ThisIs(trap, x1, args);
          ok := MayCall();
          if ok { Handle(); }
      }
    }

    lemma ThisIs(trap: Trap, x1: seq<int>, args: seq<Args>)
      requires trap.Svc? && 0 <= current && t.x1 == With(x1, current, trap.x1) &&
               t.args == With(args, current, trap.args)
      ensures This() == CallOf(trap, current, tasks, t.tid, t.parent, x1, args)
    {
    }

    /** What becomes of the task after its turn. */
    method EndTurn()
      requires Sizes()
      requires Out()
      modifies this`current, this`tasks, t`parent, t`next, t`state, t`tid, salloc`isAllocd, talloc, tq
      ensures t.state == Turned(old(t.state), old(current))
      ensures StateAt(old(t.state), old(current)) == TaskState.Killed ==> forall x :: x in tasks ==>
        At(t.parent, x) == if At(old(t.parent), x) == old(current) then NULL else At(old(t.parent), x)
      ensures StateAt(old(t.state), old(current)) != TaskState.Killed ==> t.parent == old(t.parent)
      ensures tasks ==
        if StateAt(old(t.state), old(current)) == TaskState.Killed then old(tasks) - {old(current) as nat}
        else old(tasks)
      ensures t.tid == old(t.tid)
      ensures Grown(old(tq.queues), tq.queues)
      ensures Valid()
    {
      hide Out, Valid;
      if t.state[current] == TaskState.Killed {
        Dealloc();
      } else {
        Requeue();
      }
    }

    /** One iteration of the loop.  The trap decides what the scheduled task does; a call outside this model ends the
        run. */
    method Step(trap: Trap) returns (ok: bool, done: bool, ghost ran: nat, ghost after: seq<TaskState>)
      requires Valid()
      modifies this, salloc, talloc, tq, eq, t
      ensures exists p: nat, k: nat :: Picked(old(t.state), old(tq.queues), p, k) && ran == old(tq.queues)[p][k]
      ensures ok ==> Valid() && OneRound(Shot(old(t.state), old(tq.queues)), ran, Shot(t.state, tq.queues))
      ensures trap.Irq? || (ran != old(idle) && Plain(trap.x0)) ==> ok
      ensures ok ==> (done <==> OnlyServers()) && Continues(old(mail), mail)
      ensures ok ==> t.state == Turned(after, ran) && StaysReady(old(tasks), ran, old(t.state), t.state)
      ensures ok && trap.Svc? ==>
        CallServed(trap.x0, CallOf(trap, ran, old(tasks), old(t.tid), old(t.parent), old(t.x1), old(t.args)),
                   With(old(t.x0), ran, trap.x0), t.x0, With(old(t.state), ran, Running), after, old(mail), mail)
      ensures ok && trap.Svc? && trap.x0 == SYS_CREAT ==>
        Created(CallOf(trap, ran, old(tasks), old(t.tid), old(t.parent), old(t.x1), old(t.args)), old(tq.globalTid),
                With(old(t.x0), ran, trap.x0), t.x0, With(old(t.state), ran, Running), after, tasks, t.tid, t.parent,
                t.priority)
      ensures ok && trap.Svc? && trap.x0 != SYS_CREAT ==>
        t.x1 == With(old(t.x1), ran, trap.x1) && t.args == With(old(t.args), ran, trap.args)
      ensures ok && (trap.Irq? || trap.x0 != SYS_CREAT) ==> t.tid == old(t.tid) && t.priority == old(t.priority)
      ensures ok && trap.Svc? && trap.x0 == SYS_EXIT ==>
        tasks == old(tasks) - {ran} && forall x :: x in tasks ==>
          At(t.parent, x) == if At(old(t.parent), x) == ran then NULL else At(old(t.parent), x)
      ensures ok && (trap.Irq? || trap.x0 !in {SYS_CREAT, SYS_EXIT}) ==>
        tasks == old(tasks) && t.parent == old(t.parent)
      ensures ok && trap.Svc? ==> eq.waiting == WaitersAfter(trap.x0, trap.x1, ran, old(eq.waiting))
      ensures ok && trap.Irq? ==>
        Interrupted(trap.irq, old(eq.waiting), old(t.x0), t.x0, With(old(t.state), ran, Running), after) &&
        eq.waiting == WaitersLeft(trap.irq, old(eq.waiting)) && mail == old(mail)
    {
      hide *;
      ghost var shot, tasks0, x0 := Shot(t.state, tq.queues), tasks, t.x0;
      ReadyAreTasks();
      after := [];
      Dispatch();
      RunsIsOut();
      ran := current;
      RunBegins(Shot(t.state, tq.queues), mail);
      ghost var queues1, state1 := tq.queues, t.state;
      ghost var call := CallOf(trap, ran, tasks, t.tid, t.parent, t.x1, t.args);
      if trap.Svc? {
        PlainIsCovered(trap.x0, trap.x1, current, idle, t.tid, t.state, t.waitingSendersNext, tq.queues, tq.globalTid);
      }
      done := true;
      ok := Turn(trap);
      ghost var queues2 := tq.queues;
      after := t.state;
      if ok {
        EndTurn();
        ExitIsNotCreate();
        if trap.Svc? {
          ServedGrows(trap.x0, call, With(x0, ran, trap.x0), t.x0, state1, after, old(mail), mail);
        }
        GrowsOn(queues1, queues2, tq.queues);
        OthersStayReady(tasks0, ran, shot.state, state1, after, t.state);
        RoundIs(shot, ran, queues1, Shot(t.state, tq.queues), tasks0);
        QueueValid();
        done := tq.Empty();
      }
    }

    /** What the scheduler may pick are tasks, and ready. */
    lemma ReadyAreTasks()
      requires Valid()
      ensures forall y: nat :: InSome(tq.queues, y) && Runnable(t.state, y) ==>
        y in tasks && StateAt(t.state, y) == Ready
    {
      hide Grown, AllocOk, TaskAllocator.Valid, StackAllocator.Valid, Linked, EventsLinked, StacksOwned,
        ParentsOk, WaitsOk, IdleOk, SendersOk, TraceOk, InSome, LiveIn;
    }

    /** No task is left but the idle task and those of the server priorities. */
    ghost predicate OnlyServers()
      reads this, t
    {
      forall x :: x in tasks ==> !(1 <= At(t.priority, x) < N_PRIORITY - N_SERVER_PRIORITY)
    }

    lemma QueueValid()
      requires Valid()
      ensures tq.Valid() && |tq.queues| == N_PRIORITY
      ensures (forall p: nat :: 1 <= p < N_PRIORITY - N_SERVER_PRIORITY ==> tq.queues[p] == []) <==> OnlyServers()
    {
      hide Grown, AllocOk, TaskAllocator.Valid, StackAllocator.Valid, Linked, EventsLinked, Queued, StacksOwned,
        ParentsOk, WaitsOk, StatesOk, IdleOk, SendersOk, TraceOk, InSome, LiveIn;
      EmptyMeansServers(t.next, t.priority, tq.front, tq.back, tq.queues, tasks);
    }

    /** Any run from any state between iterations: the invariant holds as long as the run goes on, each iteration is a
        round of the scheduler, and the history only grows. */
    method Run(traps: seq<Trap>) returns (n: nat, ok: bool, ghost shots: seq<Shot>, ghost ran: seq<nat>)
      requires Valid()
      modifies this, salloc, talloc, tq, eq, t
      ensures n <= |traps| && (ok ==> n == |traps| || OnlyServers())
      ensures ok ==> Valid() && Continues(old(mail), mail)
      ensures ok ==>
        |ran| == n && Rounds(shots, ran) && Fair(shots, ran) && shots[0] == Shot(old(t.state), old(tq.queues)) &&
          shots[n] == Shot(t.state, tq.queues)
    {
      hide *;
      n, ok, shots, ran := 0, true, [Shot(t.state, tq.queues)], [];
      RunBegins(shots[0], mail);
      RoundsAreFair(shots, ran);
      while n < |traps|
        invariant n <= |traps| && ok && Valid() && Continues(old(mail), mail)
        invariant |ran| == n && |shots| == n + 1 && Rounds(shots, ran) && Fair(shots, ran)
        invariant shots[0] == Shot(old(t.state), old(tq.queues)) && shots[n] == Shot(t.state, tq.queues)
      {
        var done;
        ghost var x, mail0 := 0, mail;
        ghost var after;
        ok, done, x, after := Step(traps[n]);
        n := n + 1;
        if !ok { return; }
        RoundsMore(shots, ran, x, Shot(t.state, tq.queues));
        RoundsAreFair(shots + [Shot(t.state, tq.queues)], ran + [x]);
        ContinuesOn(old(mail), mail0, mail);
        shots, ran := shots + [Shot(t.state, tq.queues)], ran + [x];
        if done { return; }
      }
    }

    // ----- what the invariant says, between any two steps of any run -----

    /** A descriptor in use is in exactly one priority list, at its own priority; its identifier is its own; its
        parent, if any, is in use. */
    lemma TaskIsQueuedOnce(x: nat, y: nat)
      requires Valid() && x in talloc.Live() && y in talloc.Live()
      ensures x < N_TASKS && 0 <= At(t.priority, x) < N_PRIORITY && x in ListAt(tq.queues, At(t.priority, x))
      ensures forall p: nat :: p != At(t.priority, x) ==> x !in ListAt(tq.queues, p)
      ensures At(t.tid, x) == At(t.tid, y) <==> x == y
      ensures At(t.parent, x) != NULL ==> 0 <= At(t.parent, x) && At(t.parent, x) in talloc.Live()
    {
      hide AllocOk, StackAllocator.Valid, EventsLinked, StacksOwned, WaitsOk, StatesOk, IdleOk, SendersOk, LiveIn,
        InOrder, PhaseAfter, Chain;
      ListedOnce(t.next, t.priority, tq.front, tq.back, tq.queues, x);
    }

    /** Two tasks' stacks do not overlap, and a new descriptor will find a slot. */
    lemma StacksApart(x: nat, y: nat)
      requires Valid() && x in talloc.Live() && y in talloc.Live() && x != y
      ensures At(t.stackBase, x) + STACK_SIZE <= At(t.stackBase, y) ||
              At(t.stackBase, y) + STACK_SIZE <= At(t.stackBase, x)
      ensures !AllLive(talloc.Live()) ==> SomeFree(salloc.isAllocd)
    {
      hide AllocOk, EventsLinked, StacksOwned, WaitsOk, StatesOk, IdleOk, SendersOk, LiveIn, TraceOk, Linked, Queued,
        ParentsOk, SomeFree;
      StacksDisjoint(tasks, salloc.base, salloc.isAllocd, t.stackBase, owner, x, y);
      if !AllLive(talloc.Live()) {
        var z: nat :| z < N_TASKS && z !in talloc.Live();
        SlotLeft(tasks, salloc.base, salloc.isAllocd, t.stackBase, owner, z);
      }
    }

    /** A task is blocked in Send exactly when it is on a receiver's list, which is then the list of its one target;
        a task waiting in Receive has nobody on its list; the list is what the links spell. */
    lemma BlockedSenders(s: nat, r: nat)
      requires Valid() && s in talloc.Live() && r in talloc.Live()
      ensures StateAt(t.state, s) == SendWait ==> s in ListAt(mail.senders, At(mail.target, s))
      ensures s in ListAt(mail.senders, r) ==> StateAt(t.state, s) == SendWait && At(mail.target, s) == r
      ensures StateAt(t.state, r) == RcvWait ==> ListAt(mail.senders, r) == []
      ensures StateAt(t.state, r) != SendWait ==>
        Chain(t.waitingSendersNext, At(t.waitingSendersNext, r), ListAt(mail.senders, r))
    {
      hide AllocOk, EventsLinked, StacksOwned, WaitsOk, StatesOk, IdleOk, LiveIn, TraceOk, Linked, Queued, ParentsOk,
        Chain, StackAllocator.Valid;
      OnOneList(tasks, t.state, t.waitingSendersNext, mail.senders, mail.target, s, r);
      assert HeadsList(tasks, t.state, t.waitingSendersNext, mail.senders, r);
    }

    /** What was sent to a task is what it received, in the same order, and then its blocked senders in theirs. */
    lemma FirstInFirstReceived(r: nat)
      requires Valid() && r in talloc.Live()
      ensures SentTo(mail.trace, At(t.tid, r)) ==
        ReceivedBy(mail.trace, At(t.tid, r)) + TidsOf(t.tid, ListAt(mail.senders, r))
    {
      hide AllocOk, EventsLinked, StacksOwned, WaitsOk, StatesOk, IdleOk, LiveIn, SendersOk, Linked, Queued, ParentsOk,
        StackAllocator.Valid,
        SentTo, ReceivedBy, TidsOf, PhaseAfter;
      assert InOrder(t.tid, t.state, mail.senders, mail.trace, r);
    }

    /** Every identifier ever used, of a task in use or gone: its sends were each received once and answered once, but
        for one still under way, which shows in the state of the task. */
    lemma SendsAnswered(v: int, s: nat)
      requires Valid() && s in talloc.Live()
      ensures PhaseAfter(mail.trace, v) != Broken &&
              PhaseAfter(mail.trace, At(t.tid, s)) == PhaseOf(StateAt(t.state, s))
      ensures Receives(mail.trace, v) <= Sends(mail.trace, v) &&
              Replies(mail.trace, v) <= Receives(mail.trace, v) <= Replies(mail.trace, v) + 1
    {
      hide AllocOk, EventsLinked, StacksOwned, WaitsOk, StatesOk, IdleOk, LiveIn, SendersOk, Linked, Queued, ParentsOk,
        StackAllocator.Valid,
        SentTo, ReceivedBy, TidsOf, PhaseAfter, Sends, Receives, Replies;
      assert InOrder(t.tid, t.state, mail.senders, mail.trace, s);
      EachSendIsAnsweredOnce(mail.trace, v);
    }

    /** Every copy made in the run stayed inside both buffers exactly when neither length given was negative. */
    lemma CopiesFitIff(i: nat)
      requires Valid() && i < |mail.writes| && mail.writes[i].Bytes?
      ensures var w := mail.writes[i];
        (w.len <= w.dstLen && w.len <= w.srcLen) <==> (0 <= w.dstLen && 0 <= w.srcLen)
    {
      hide Tables, TraceOk, IdleOk, ToSize, CopyLength, IsWord;
      var w := mail.writes[i];
      assert w in mail.writes;
      CopyFitsIff(w.dstLen, w.srcLen);
    }

    /** Every copy made in the run between lengths that are not negative is as long as the shorter of the two. */
    lemma CopiesCarry(i: nat)
      requires Valid() && i < |mail.writes| && mail.writes[i].Bytes?
      ensures var w := mail.writes[i];
        0 <= w.dstLen && 0 <= w.srcLen ==> w.len <= w.dstLen && w.len <= w.srcLen && w.len in {w.dstLen, w.srcLen}
    {
      hide Tables, TraceOk, IdleOk;
      assert mail.writes[i] in mail.writes;
    }

    /** A task is on the list of an event exactly while it waits for that event. */
    lemma EventWaiters(x: nat, e: nat)
      requires Valid() && x in talloc.Live() && e < N_EVENTS
      ensures x in ListAt(eq.waiting, e) <==> StateAt(t.state, x) == EventWait && Narrow32(At(t.x1, x)) == e
    {
      hide AllocOk, StacksOwned, StatesOk, IdleOk, LiveIn, SendersOk, TraceOk, Linked, Queued, ParentsOk,
        StackAllocator.Valid, Chain, Narrow32;
      assert WaitOk(t.state, t.x1, t.eventWaitNext, eq.waiting, x) && AllAwait(t.state, t.x1, eq.waiting[e], e);
    }
  }

  /** A change of state of a task that the idle task is not, by the task that is out of the queues or not to Running or
      Killed. */
  lemma StateFits(tasks: set<nat>, state: seq<TaskState>, priority: seq<int>, idle: nat, current: int, x: nat,
                  st: TaskState)
    requires StatesOk(tasks, state, current) && IdleOk(tasks, state, priority, idle, current) && x < N_TASKS
    requires (x == current || (st != Running && st != TaskState.Killed)) && (x == idle ==> st == Ready)
    ensures StatesOk(tasks, state[x := st], current) && IdleOk(tasks, state[x := st], priority, idle, current)
  {
  }

  lemma CurrentFacts(tasks: set<nat>, priority: seq<int>, tid: seq<int>, state: seq<TaskState>, senders: seq<seq<nat>>,
                     trace: seq<Act>, g: int, x: nat)
    requires TraceOk(tasks, tid, state, senders, trace, g) && x in tasks
    ensures x < N_TASKS && tid[x] > 0
  {
  }

  lemma EmptyMeansServers(next: seq<int>, priority: seq<int>, front: seq<int>, back: seq<int>, queues: seq<seq<nat>>,
                          tasks: set<nat>)
    requires Linked(next, priority, front, back, queues) && Queued(tasks, priority, queues, NULL)
    ensures |queues| == N_PRIORITY
    ensures (forall p: nat :: 1 <= p < N_PRIORITY - N_SERVER_PRIORITY ==> queues[p] == []) <==>
            forall x :: x in tasks ==> !(1 <= At(priority, x) < N_PRIORITY - N_SERVER_PRIORITY)
  {
    hide Chain;
    forall x | x in tasks ensures x in queues[priority[x]] {
      assert InSome(queues, x);
      ListedOnce(next, priority, front, back, queues, x);
    }
    forall p: nat | 1 <= p < N_PRIORITY - N_SERVER_PRIORITY && queues[p] != []
      ensures exists x :: x in tasks && At(priority, x) == p
    {
      assert queues[p][0] in queues[p] && AllOfPriority(priority, queues[p], p) && InSome(queues, queues[p][0]);
    }
  }

  lemma PlainIsCovered(n: int, a: int, c: int, idle: nat, tid: seq<int>, state: seq<TaskState>, link: seq<int>,
                       queues: seq<seq<nat>>, g: int)
    ensures c != idle && Plain(n) ==> Covered(n, a, c, idle, tid, state, link, queues, g)
  {
  }

  lemma ExitIsNotCreate()
    ensures SYS_EXIT != SYS_CREAT
  {
  }

  /** No call takes anything out of the history. */
  lemma ServedGrows(n: int, k: Call, x: seq<int>, x': seq<int>, state: seq<TaskState>, state': seq<TaskState>, m: Mail,
                    m': Mail)
    requires CallServed(n, k, x, x', state, state', m, m')
    ensures Continues(m, m')
  {
  }

  /** Nor does it stop another task that is ready. */
  lemma ServedKeepsReady(n: int, k: Call, x: seq<int>, x': seq<int>, state: seq<TaskState>, state': seq<TaskState>,
                         m: Mail, m': Mail)
    requires CallServed(n, k, x, x', state, state', m, m')
    requires n in {SYS_TID, SYS_PTID, SYS_YIELD, SYS_EXIT, SYS_MSG_SEND, SYS_MSG_RCV, SYS_MSG_RPLY, SYS_AWAIT}
    ensures StaysReady(k.tasks, k.c, state, state')
  {
    hide Delivered, BlockedOn, TakenFrom, Answered, Named;
  }

  lemma CreatedKeepsReady(k: Call, g: int, x: seq<int>, x': seq<int>, state: seq<TaskState>, state': seq<TaskState>,
                          tasks': set<nat>, tid': seq<int>, parent': seq<int>, priority': seq<int>)
    requires Created(k, g, x, x', state, state', tasks', tid', parent', priority')
    ensures StaysReady(k.tasks, k.c, state, state') && k.tasks <= tasks'
  {
  }

  /** Neither does the rest of the iteration. */
  lemma OthersStayReady(tasks: set<nat>, ran: nat, state: seq<TaskState>, running: seq<TaskState>,
                        after: seq<TaskState>, state': seq<TaskState>)
    requires running == With(state, ran, Running) && state' == Turned(after, ran)
    requires StaysReady(tasks, ran, running, after)
    ensures StaysReady(tasks, ran, state, state')
  {
  }

  lemma ContinuesOn(a: Mail, b: Mail, c: Mail)
    requires Continues(a, b) && Continues(b, c)
    ensures Continues(a, c)
  {
  }

  lemma RunBegins(s: Shot, m: Mail)
    ensures Rounds([s], []) && Continues(m, m)
  {
  }

  lemma RunnerNotWoken(state: seq<TaskState>, state': seq<TaskState>, tasks: set<nat>, x: nat)
    requires Woken(state, state') && StateAt(state, x) == Running
    ensures StateAt(state', x) == Running && StaysReady(tasks, x, state, state')
  {
  }

  /** The task that was out of the queues is ready or blocked. */
  lemma NobodyOut(tasks: set<nat>, state: seq<TaskState>, priority: seq<int>, idle: nat, current: nat, st: TaskState)
    requires StatesOk(tasks, state, current) && IdleOk(tasks, state, priority, idle, current) && current < N_TASKS
    requires st == if state[current] == Running then Ready else state[current]
    requires state[current] != TaskState.Killed
    ensures StatesOk(tasks, state[current := st], NULL) && IdleOk(tasks, state[current := st], priority, idle, NULL)
  {
  }

  lemma Returns(tasks: set<nat>, priority: seq<int>, queues: seq<seq<nat>>, queues': seq<seq<nat>>, x: nat)
    requires Queued(tasks, priority, queues, x) && |queues'| == N_PRIORITY
    requires forall y: nat :: InSome(queues', y) <==> y == x || InSome(queues, y)
    ensures Queued(tasks, priority, queues', NULL)
  {
    hide InSome;
  }

  lemma ParentsRange(tasks: set<nat>, parent: seq<int>, priority: seq<int>, queues: seq<seq<nat>>, current: int)
    requires ParentsOk(tasks, parent) && Queued(tasks, priority, queues, current)
    ensures ParentsInRange(parent, queues)
  {
    hide InSome;
  }

  lemma LeavesForGood(tasks: set<nat>, state: seq<TaskState>, priority: seq<int>, queues: seq<seq<nat>>, idle: nat,
                      x: nat)
    requires Queued(tasks, priority, queues, x) && StatesOk(tasks, state, x) &&
             IdleOk(tasks, state, priority, idle, x) && x != idle
    ensures Queued(tasks - {x}, priority, queues, NULL) && StatesOk(tasks - {x}, state, NULL) &&
            IdleOk(tasks - {x}, state, priority, idle, NULL)
    ensures forall y: nat :: InSome(queues, y) ==> y in tasks && y != x
  {
    hide InSome;
  }

  lemma WaitersWait(link: seq<int>, state: seq<TaskState>, x1: seq<int>, front: seq<int>, back: seq<int>,
                    waiting: seq<seq<nat>>, e: nat)
    requires EventsLinked(link, state, x1, front, back, waiting) && e < N_EVENTS
    ensures forall x :: x in waiting[e] ==> x < N_TASKS && state[x] == EventWait
  {
    assert AllAwait(state, x1, waiting[e], e);
  }

  lemma NotQueued(tasks: set<nat>, priority: seq<int>, queues: seq<seq<nat>>, current: int, x: nat, p: int)
    requires Queued(tasks, priority, queues, current) && x < N_TASKS && x !in tasks
    ensures !InSome(queues, x) && x != current && Queued(tasks, priority[x := p], queues, current)
  {
    hide InSome;
  }

  lemma JoinsQuietly(tasks: set<nat>, parent: seq<int>, state: seq<TaskState>, current: int, x: nat, p: int)
    requires ParentsOk(tasks, parent) && StatesOk(tasks, state, current) && x < N_TASKS && x !in tasks
    requires p == NULL || (0 <= p < N_TASKS && p in tasks)
    ensures ParentsOk(tasks + {x}, parent[x := p]) && StatesOk(tasks + {x}, state[x := Ready], current)
  {
    forall y: nat | y in tasks + {x} && y < N_TASKS
      ensures var q := parent[x := p][y]; q == NULL || (0 <= q < N_TASKS && q in tasks + {x})
    {
      assert y != x ==> parent[x := p][y] == parent[y];
    }
  }

  lemma QueuedAreTasks(tasks: set<nat>, priority: seq<int>, queues: seq<seq<nat>>, current: int)
    requires Queued(tasks, priority, queues, current)
    ensures forall x: nat :: InSome(queues, x) ==> x in tasks
  {
    hide InSome;
  }

  lemma CurrentIsNotNew(tasks: set<nat>, priority: seq<int>, queues: seq<seq<nat>>, current: int, x: nat)
    requires Queued(tasks, priority, queues, current) && x !in tasks
    ensures current != x && !InSome(queues, x)
  {
    hide InSome;
  }

  lemma NotFree(active: seq<int>, free: seq<nat>, x: nat)
    requires x in LiveIn(active, free)
    ensures x !in free
  {
  }

  lemma NextTidUnused(tasks: set<nat>, tid: seq<int>, state: seq<TaskState>, senders: seq<seq<nat>>, trace: seq<Act>,
                      g: int,
                      priority: seq<int>, queues: seq<seq<nat>>, current: int)
    requires TraceOk(tasks, tid, state, senders, trace, g) && Queued(tasks, priority, queues, current)
    ensures Unused(tid, queues, g + 1) && forall y :: y in tasks ==> y < N_TASKS && tid[y] != g + 1
  {
    hide InSome;
  }

  lemma NewHasNoSenders(live: set<nat>, state: seq<TaskState>, link: seq<int>, senders: seq<seq<nat>>, target: seq<int>,
                        x: nat)
    requires SendersOk(live, state, link, senders, target) && x in live && link[x] == NULL
    ensures senders[x] == []
  {
    assert HeadsList(live, state, link, senders, x);
    ChainMembers(link, link[x], senders[x]);
  }

  lemma Enters(tasks: set<nat>, priority: seq<int>, queues: seq<seq<nat>>, queues': seq<seq<nat>>, current: int, x: nat)
    requires Queued(tasks, priority, queues, current) && |queues'| == N_PRIORITY && x !in tasks && x < N_TASKS &&
             0 <= priority[x] < N_PRIORITY
    requires forall y: nat :: InSome(queues', y) <==> y == x || InSome(queues, y)
    ensures Queued(tasks + {x}, priority, queues', current)
  {
    hide InSome;
  }

  lemma NewIdle(tasks: set<nat>, state: seq<TaskState>, priority: seq<int>, idle: nat, current: int, x: nat, p: int)
    requires IdleOk(tasks, state, priority, idle, current) && x < N_TASKS && x !in tasks
    ensures IdleOk(tasks + {x}, state[x := Ready], priority[x := p], idle, current)
  {
  }

  lemma NoTasks(queues: seq<seq<nat>>, priority: seq<int>, base: int, isAllocd: seq<int>, stackBase: seq<int>,
                owner: seq<int>,
                state: seq<TaskState>, x1: seq<int>, ewn: seq<int>, waiting: seq<seq<nat>>, wsn: seq<int>,
                senders: seq<seq<nat>>,
                target: seq<int>, tid: seq<int>, g: int)
    requires |priority| == N_TASKS && |queues| == N_PRIORITY && |isAllocd| == N_TASKS && |stackBase| == N_TASKS &&
             |owner| == N_TASKS
    requires |state| == N_TASKS && |x1| == N_TASKS && |ewn| == N_TASKS && |waiting| == N_EVENTS && |wsn| == N_TASKS &&
             |senders| == N_TASKS
    requires |target| == N_TASKS && |tid| == N_TASKS
    requires (forall x: nat :: !InSome(queues, x)) && (forall i: nat :: i < N_TASKS ==> isAllocd[i] == 0)
    requires (forall e: nat :: e < N_EVENTS ==> waiting[e] == []) && (forall r: nat :: r < N_TASKS ==> senders[r] == [])
    ensures Queued({}, priority, queues, NULL) && StacksOwned({}, base, isAllocd, stackBase, owner)
    ensures WaitsOk({}, state, x1, ewn, waiting) && StatesOk({}, state, NULL)
    ensures SendersOk({}, state, wsn, senders, target) && TraceOk({}, tid, state, senders, [], g)
  {
    hide InSome;
  }

  lemma IdleBoots(tasks: set<nat>, state: seq<TaskState>, priority: seq<int>, idle: nat)
    requires idle < N_TASKS && idle in tasks && |state| == N_TASKS && |priority| == N_TASKS && state[idle] == Ready &&
             priority[idle] == P_IDLE
    ensures IdleOk(tasks, state, priority, idle, NULL)
  {
  }

  lemma ParentIsTask(tasks: set<nat>, parent: seq<int>, priority: seq<int>, queues: seq<seq<nat>>, x: nat)
    requires ParentsOk(tasks, parent) && Queued(tasks, priority, queues, x)
    ensures x < N_TASKS && NULL <= parent[x] < N_TASKS
  {
  }

  lemma NoLarger(a: set<nat>, b: set<nat>)
    ensures a <= b ==> |a| <= |b|
  {
    if a <= b { assert b == a + (b - a); }
  }

  lemma SmallNotAll(s: set<nat>)
    requires |s| <= 3
    ensures !AllLive(s)
  {
    var four: set<nat> := {0, 1, 2, 3};
    NoLarger(four, s);
    assert AllLive(s) ==> four <= s;
  }

  lemma AppendGrows(queues: seq<seq<nat>>, p: int, x: nat)
    ensures 0 <= p < |queues| ==> Grown(queues, queues[p := queues[p] + [x]])
  {
  }

  lemma GrowsNot(queues: seq<seq<nat>>)
    ensures Grown(queues, queues)
  {
  }

  lemma GrowsOn(a: seq<seq<nat>>, b: seq<seq<nat>>, c: seq<seq<nat>>)
    requires Grown(a, b) && Grown(b, c)
    ensures Grown(a, c)
  {
  }

  lemma RoundIs(s: Shot, ran: nat, queues1: seq<seq<nat>>, s': Shot, tasks: set<nat>)
    requires exists p: nat, k: nat ::
               Picked(s.state, s.queues, p, k) && ran == s.queues[p][k] &&
               queues1 == s.queues[p := Without(s.queues[p], k)]
    requires Grown(queues1, s'.queues) && StaysReady(tasks, ran, s.state, s'.state)
    requires forall y: nat :: InSome(s.queues, y) && Runnable(s.state, y) ==> y in tasks && StateAt(s.state, y) == Ready
    ensures OneRound(s, ran, s')
  {
    hide Picked, Grown, InSome;
  }

  lemma IdleNotBlocked(tasks: set<nat>, state: seq<TaskState>, priority: seq<int>, idle: nat, current: int)
    requires IdleOk(tasks, state, priority, idle, current)
    ensures idle < N_TASKS && |state| == N_TASKS && (state[idle] == Ready || state[idle] == Running)
  {
  }

  lemma SendersSized(live: set<nat>, state: seq<TaskState>, link: seq<int>, senders: seq<seq<nat>>, target: seq<int>)
    requires SendersOk(live, state, link, senders, target)
    ensures |senders| == N_TASKS && |target| == N_TASKS
  {
  }

  lemma CurrentIsTask(tasks: set<nat>, priority: seq<int>, queues: seq<seq<nat>>, current: nat)
    requires Queued(tasks, priority, queues, current)
    ensures current in tasks && current < N_TASKS && !InSome(queues, current) && |priority| == N_TASKS &&
            0 <= priority[current] < N_PRIORITY
  {
  }

  /** For a task that is not blocked in Send, an empty link means no senders. */
  lemma NoSenders(live: set<nat>, state: seq<TaskState>, link: seq<int>, senders: seq<seq<nat>>, target: seq<int>,
                  x: nat)
    requires SendersOk(live, state, link, senders, target) && x in live && state[x] != SendWait
    ensures link[x] == HeadOf(senders[x])
  {
    assert HeadsList(live, state, link, senders, x);
    ChainMembers(link, link[x], senders[x]);
  }

  lemma IdleRunnable(tasks: set<nat>, state: seq<TaskState>, priority: seq<int>, queues: seq<seq<nat>>, idle: nat)
    requires IdleOk(tasks, state, priority, idle, NULL) && Queued(tasks, priority, queues, NULL)
    ensures exists r: nat :: r < N_PRIORITY && !NoneRunnable(state, queues[r])
  {
    assert InSome(queues, idle);
  }

  lemma FreeAreNotTasks(active: seq<int>, free: seq<nat>, tasks: set<nat>, priority: seq<int>, queues: seq<seq<nat>>,
                        current: int)
    requires tasks <= LiveIn(active, free) && Queued(tasks, priority, queues, current)
    ensures forall x: nat :: x in free ==> x !in tasks && x != current && !InSome(queues, x)
  {
  }

  lemma Leaves(tasks: set<nat>, priority: seq<int>, queues: seq<seq<nat>>, queues': seq<seq<nat>>, x: nat)
    requires Queued(tasks, priority, queues, NULL) && |queues'| == N_PRIORITY && InSome(queues, x)
    requires forall y: nat :: InSome(queues', y) <==> InSome(queues, y) && y != x
    ensures x in tasks && x < N_TASKS && Queued(tasks, priority, queues', x)
  {
    hide InSome;
  }

  /** Queued tasks are never Killed, so what is picked is Ready. */
  lemma PickedIsReady(tasks: set<nat>, state: seq<TaskState>, x: nat, queues: seq<seq<nat>>, p: nat, k: nat)
    requires StatesOk(tasks, state, NULL) && Picked(state, queues, p, k) && x in tasks && queues[p][k] == x
    ensures x < N_TASKS && state[x] == Ready && StatesOk(tasks, state[x := TaskState.Running], x)
  {
  }

  lemma StartsRunning(tasks: set<nat>, state: seq<TaskState>, priority: seq<int>, idle: nat, x: nat)
    requires IdleOk(tasks, state, priority, idle, NULL) && x < N_TASKS
    ensures IdleOk(tasks, state[x := TaskState.Running], priority, idle, x)
  {
  }

  /** Conversion to uint16_t, the type of identifiers. */
  function ToTid(v: int): (r: int)
    ensures 0 <= r < 65536 && (r - v) % 65536 == 0
    ensures 0 <= v < 65536 ==> r == v
  {
    v % 0x1_0000
  }

  lemma SendersListed(live: set<nat>, state: seq<TaskState>, link: seq<int>, senders: seq<seq<nat>>, target: seq<int>,
                      r: nat)
    requires SendersOk(live, state, link, senders, target) && r in live && state[r] != SendWait
    ensures Chain(link, link[r], senders[r])
  {
    assert HeadsList(live, state, link, senders, r);
  }

  lemma NoSendersInReceive(live: set<nat>, state: seq<TaskState>, link: seq<int>, senders: seq<seq<nat>>,
                           target: seq<int>, r: nat)
    requires SendersOk(live, state, link, senders, target) && r in live && state[r] == RcvWait
    ensures |senders| == N_TASKS && senders[r] == []
  {
    assert HeadsList(live, state, link, senders, r);
  }

  lemma SameTid(tasks: set<nat>, tid: seq<int>, state: seq<TaskState>, senders: seq<seq<nat>>, trace: seq<Act>, g: int)
    requires TraceOk(tasks, tid, state, senders, trace, g)
    ensures TidsOk(tasks, tid, g)
  {
  }

  lemma WaitsFacts(tasks: set<nat>, state: seq<TaskState>, x1: seq<int>, link: seq<int>, waiting: seq<seq<nat>>, x: nat)
    requires WaitsOk(tasks, state, x1, link, waiting) && x in tasks && state[x] != EventWait
    ensures |waiting| == N_EVENTS && link[x] == NULL
  {
    assert WaitOk(state, x1, link, waiting, x);
  }

  /** x blocks on the event it named. */
  lemma WaitsBlocked(tasks: set<nat>, state: seq<TaskState>, x1: seq<int>, link: seq<int>, link': seq<int>,
                     waiting: seq<seq<nat>>, x: nat)
    requires WaitsOk(tasks, state, x1, link, waiting) && x in tasks && 0 <= Narrow32(x1[x]) < N_EVENTS &&
             |link'| == N_TASKS
    requires forall y: nat :: y < N_TASKS && state[y] != EventWait ==> link'[y] == link[y]
    ensures var e := Narrow32(x1[x]); WaitsOk(tasks, state[x := EventWait], x1, link', waiting[e := waiting[e] + [x]])
  {
    hide Narrow32;
    var e := Narrow32(x1[x]);
    forall y | y in tasks
      ensures y < N_TASKS && WaitOk(state[x := EventWait], x1, link', waiting[e := waiting[e] + [x]], y)
    {
      assert WaitOk(state, x1, link, waiting, y);
    }
  }

  /** A change of state that has nothing to do with events. */
  lemma StateMoves(tasks: set<nat>, state: seq<TaskState>, x: nat, st: TaskState, x1: seq<int>, link: seq<int>,
                   front: seq<int>,
                   back: seq<int>, waiting: seq<seq<nat>>)
    requires WaitsOk(tasks, state, x1, link, waiting) && EventsLinked(link, state, x1, front, back, waiting)
    requires x < N_TASKS && state[x] != EventWait && st != EventWait
    ensures WaitsOk(tasks, state[x := st], x1, link, waiting) &&
            EventsLinked(link, state[x := st], x1, front, back, waiting)
  {
    hide Chain, Narrow32;
    var state' := state[x := st];
    forall y | y in tasks
      ensures y < N_TASKS && WaitOk(state', x1, link, waiting, y)
    {
      assert WaitOk(state, x1, link, waiting, y);
    }
    forall e: nat | e < N_EVENTS
      ensures AllAwait(state', x1, waiting[e], e)
    {
      assert AllAwait(state, x1, waiting[e], e);
    }
  }
}
