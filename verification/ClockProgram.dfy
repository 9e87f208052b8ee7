/** The queue of src/clock-queue.c, in place on its 256 linked entries, and the loop of clockserver_main
    (src/clock-server.c:30-103) on it.  An entry is named by its place in the storage; each field is one column.
    Every method does what the step functions of Clock say. */
module ClockProgram {
  import opened Chains
  import opened Clock

  /** The entries at these places, in order. */
  ghost function EntriesAt(tid: seq<int>, tick: seq<int>, places: seq<nat>): (q: seq<Entry>)
    requires |tid| == MAX_WAITING_TASKS && |tick| == MAX_WAITING_TASKS && InTable(places)
    ensures |q| == |places| && forall i :: 0 <= i < |q| ==> q[i] == Entry(tid[places[i]], tick[places[i]])
  {
    seq(|places|, i requires 0 <= i < |places| => Entry(tid[places[i]], tick[places[i]]))
  }

  ghost predicate InTable(places: seq<nat>) {
    forall i :: 0 <= i < |places| ==> places[i] < MAX_WAITING_TASKS
  }

  ghost predicate Partition(free: seq<nat>, waiting: seq<nat>) {
    |free| + |waiting| == MAX_WAITING_TASKS && forall x: nat :: x < MAX_WAITING_TASKS ==> (x in free <==> x !in waiting)
  }

  class ClockQueue {
    var tid: seq<int>
    var tick: seq<int>
    var next: seq<int>
    var freelist: int
    var head: int
    ghost var free: seq<nat>
    ghost var waiting: seq<nat>

    ghost predicate Listed()
      reads this
    {
      |tid| == MAX_WAITING_TASKS && |tick| == MAX_WAITING_TASKS && |next| == MAX_WAITING_TASKS &&
      Chain(next, head, waiting) && InTable(waiting)
    }

    /** Every entry is on exactly one of the two lists. */
    ghost predicate Valid()
      reads this
    {
      Listed() && Chain(next, freelist, free) && Partition(free, waiting)
    }

    ghost function Contents(): seq<Entry>
      requires Listed()
      reads this
    {
      EntriesAt(tid, tick, waiting)
    }

    /** clock_queue_init. */
    constructor ()
      ensures Valid() && Contents() == []
    {
      tid, tick, next := seq(MAX_WAITING_TASKS, i => 0), seq(MAX_WAITING_TASKS, i => 0), seq(MAX_WAITING_TASKS, i => 0);
      freelist, head := NULL, NULL;
      free, waiting := [], [];
      new;
      for i := 0 to MAX_WAITING_TASKS
        invariant |tid| == MAX_WAITING_TASKS && |tick| == MAX_WAITING_TASKS && |next| == MAX_WAITING_TASKS &&
                  head == NULL && waiting == []
        invariant Chain(next, freelist, free) && |free| == i && forall x: nat :: x in free <==> x < i
      {
        ChainPrepend(next, freelist, free, i);
        next := next[i := freelist];
        freelist := i;
        free := [i] + free;
      }
    }

    /** clock_queue_ready. */
    method Ready(now: int) returns (r: bool)
      requires Valid()
      ensures r <==> Contents() != [] && Contents()[0].tick < now
    {
      ChainMembers(next, head, waiting);
      if head == NULL { return false; }
      return tick[head] < now;
    }

    /** clock_queue_get: the first entry goes back to the free list, unless the queue is empty or not due. */
    method Get(now: int) returns (r: int)
      requires Valid()
      modifies this
      ensures Valid()
      ensures var q := old(Contents());
        if q == [] || q[0].tick > now then r == 0 && Contents() == q else r == q[0].tid && Contents() == q[1..]
    {
      hide Chain;
      ghost var q := Contents();
      ChainMembers(next, head, waiting);
      if head == NULL || tick[head] > now { return 0; }
      assert InTable(waiting[1..]);
      var elem := head;
      MovesToFree(next, freelist, head, free, waiting);
      r := tid[elem];
      head := next[head];
      next := next[elem := freelist];
      freelist := elem;
      free, waiting := [elem] + free, waiting[1..];
      assert EntriesAt(tid, tick, waiting) == q[1..];
    }

    /** The walk from the head to the last entry the new one goes behind. */
    method FindPlace(deadline: int) returns (current: int, ghost j: nat)
      requires Listed() && waiting != [] && Contents()[0].tick <= deadline
      ensures j < |waiting| && current == waiting[j] && j + 1 == Place(Contents(), deadline)
    {
      hide Chain, Earlier, Place;
      ghost var q := Contents();
      ChainMembers(next, head, waiting);
      ChainStep(next, head, waiting, 0);
      current, j := head, 0;
      ChainBounds(next, head, waiting);
      PlaceBehindHead(q, deadline);
      assert q[1..][0..] == q[1..];
      while next[current] != NULL && tick[next[current]] < deadline
        invariant j < |waiting| && current == waiting[j] && next[current] == HeadOf(waiting[j + 1..])
        invariant Earlier(q[1..], deadline) == j + Earlier(q[j + 1..], deadline)
        decreases |waiting| - j
      {
        EarlierHead(q[j + 1..], deadline);
        assert q[j + 1..][1..] == q[j + 2..] && q[j + 1..][0] == q[j + 1] && waiting[j + 1..][0] == waiting[j + 1];
        ChainStep(next, head, waiting, j + 1);
        current := next[current];
        j := j + 1;
      }
      EarlierHead(q[j + 1..], deadline);
      if j + 1 < |waiting| { assert q[j + 1..][0] == q[j + 1] && waiting[j + 1..][0] == waiting[j + 1]; }
    }

    /** clock_queue_add: with no free entry left, nothing. */
    method Insert(task: int, deadline: int)
      requires Valid()
      modifies this
      ensures Valid() && Contents() == Add(old(Contents()), Entry(task, deadline))
    {
      hide Chain, Place, Partition;
      ghost var q := Contents();
      FullOrNot(next, freelist, free, waiting);
      if freelist == NULL { return; }
      var elem := freelist;
      TakesFree(next, freelist, head, free, waiting);
      freelist := next[freelist];
      tick := tick[elem := deadline];
      tid := tid[elem := task];
      next := next[elem := NULL];
      free := free[1..];
      assert EntriesAt(tid, tick, waiting) == q;
      LinkIn(elem, deadline);
      assert EntriesAt(tid, tick, waiting) ==
        q[..Place(q, deadline)] + [Entry(task, deadline)] + q[Place(q, deadline)..];
    }

    /** Links an entry that is on neither list in among the waiting ones. */
    method LinkIn(elem: nat, deadline: int)
      requires Listed() && elem < MAX_WAITING_TASKS && elem !in waiting && elem !in free && next[elem] == NULL
      requires Chain(next, freelist, free) && Partition([elem] + free, waiting)
      modifies this`next, this`head, this`waiting
      ensures var k := Place(old(Contents()), deadline); waiting == old(waiting)[..k] + [elem] + old(waiting)[k..]
      ensures Valid()
    {
      hide Chain, Partition, Place, Earlier;
      ghost var q, k := Contents(), Place(Contents(), deadline);
      ChainMembers(next, head, waiting);
      PlaceZero(q, deadline);
      LinksIn(next, freelist, head, free, waiting, k, elem);
      if head == NULL || tick[head] > deadline {
        next := next[elem := head];
        head := elem;
      } else {
        var current, j := FindPlace(deadline);
        next := next[elem := next[current]];
        next := next[current := elem];
      }
      waiting := waiting[..k] + [elem] + waiting[k..];
    }
  }

  lemma ChainBounds(next: seq<int>, head: int, s: seq<nat>)
    requires Chain(next, head, s)
    ensures forall i :: 0 <= i < |s| ==> s[i] < |next| && s[i] in s && next[s[i]] == HeadOf(s[i + 1..])
  {
    forall i | 0 <= i < |s|
      ensures s[i] < |next| && s[i] in s && next[s[i]] == HeadOf(s[i + 1..])
    {
      ChainStep(next, head, s, i);
    }
  }

  lemma PlaceBehindHead(q: seq<Entry>, tick: int)
    requires q != [] && q[0].tick <= tick
    ensures Place(q, tick) == 1 + Earlier(q[1..], tick)
  {
  }

  lemma EarlierHead(q: seq<Entry>, tick: int)
    ensures Earlier(q, tick) == if q == [] || q[0].tick >= tick then 0 else 1 + Earlier(q[1..], tick)
  {
  }

  lemma PlaceZero(q: seq<Entry>, tick: int)
    ensures Place(q, tick) == 0 <==> q == [] || q[0].tick > tick
  {
  }

  /** The head of the waiting list becomes the head of the free list. */
  lemma MovesToFree(next: seq<int>, freelist: int, head: int, free: seq<nat>, waiting: seq<nat>)
    requires Chain(next, freelist, free) && Chain(next, head, waiting) && Partition(free, waiting) && waiting != [] &&
             |next| == MAX_WAITING_TASKS
    ensures 0 <= head < MAX_WAITING_TASKS && head == waiting[0]
    ensures Chain(next[head := freelist], head, [head as nat] + free) &&
            Chain(next[head := freelist], next[head], waiting[1..])
    ensures Partition([head as nat] + free, waiting[1..])
  {
    ChainTail(next, head, waiting);
    assert waiting == [waiting[0]] + waiting[1..];
    ChainPrepend(next, freelist, free, head);
    ChainOther(next, next[head], waiting[1..], head, freelist);
  }

  /** No entry is free exactly when the queue is full. */
  lemma FullOrNot(next: seq<int>, freelist: int, free: seq<nat>, waiting: seq<nat>)
    requires Chain(next, freelist, free) && Partition(free, waiting)
    ensures freelist == NULL <==> |waiting| == MAX_WAITING_TASKS
  {
    ChainMembers(next, freelist, free);
  }

  /** The head of the free list leaves it, its own link cleared. */
  lemma TakesFree(next: seq<int>, freelist: int, head: int, free: seq<nat>, waiting: seq<nat>)
    requires Chain(next, freelist, free) && Chain(next, head, waiting) && Partition(free, waiting) &&
             freelist != NULL && |next| == MAX_WAITING_TASKS
    ensures free != [] && 0 <= freelist < MAX_WAITING_TASKS && freelist == free[0] && freelist !in waiting &&
            freelist !in free[1..]
    ensures Chain(next[freelist := NULL], next[freelist], free[1..]) && Chain(next[freelist := NULL], head, waiting)
    ensures Partition([freelist as nat] + free[1..], waiting)
  {
    ChainMembers(next, freelist, free);
    ChainTail(next, freelist, free);
    assert free == [free[0]] + free[1..];
    ChainOther(next, next[freelist], free[1..], freelist, NULL);
    assert free[0] in free;
    ChainOther(next, head, waiting, freelist, NULL);
  }

  /** What linking an entry in at position k does to both lists. */
  lemma LinksIn(next: seq<int>, freelist: int, head: int, free: seq<nat>, waiting: seq<nat>, k: nat, x: nat)
    requires Chain(next, freelist, free) && Chain(next, head, waiting) && Partition([x] + free, waiting) &&
             |next| == MAX_WAITING_TASKS
    requires x < MAX_WAITING_TASKS && x !in waiting && x !in free && k <= |waiting|
    ensures Partition(free, waiting[..k] + [x] + waiting[k..])
    ensures forall y :: y in waiting[..k] + [x] + waiting[k..] <==> y == x || y in waiting
    ensures k == 0 ==>
      Chain(next[x := head], x, waiting[..k] + [x] + waiting[k..]) && Chain(next[x := head], freelist, free)
    ensures k > 0 ==> waiting[k - 1] < MAX_WAITING_TASKS &&
                      (var link := next[x := next[waiting[k - 1]]][waiting[k - 1] := x];
                       Chain(link, head, waiting[..k] + [x] + waiting[k..]) && Chain(link, freelist, free))
  {
    hide Chain;
    forall y: nat
      ensures y in waiting[..k] + [x] + waiting[k..] <==> y == x || y in waiting
    {
      InsertMembers(waiting, k, x, y);
    }
    forall y ensures y in [x] + free <==> y == x || y in free { }
    if k == 0 {
      ChainPrepend(next, head, waiting, x);
      assert waiting[..0] + [x] + waiting[0..] == [x] + waiting;
      ChainOther(next, freelist, free, x, head);
    } else {
      var p := waiting[k - 1];
      assert p in waiting;
      ChainMembers(next, head, waiting);
      ChainStep(next, head, waiting, k - 1);
      ChainInsert(next, head, waiting, k, x);
      assert next[p := x][x := HeadOf(waiting[k..])] == next[x := next[p]][p := x];
      assert p in free ==> p in [x] + free;
      ChainOther(next, freelist, free, x, next[p]);
      ChainOther(next[x := next[p]], freelist, free, p, x);
    }
  }

  /** The clock server: the waiting tasks and the replies. */
  class Server {
    const queue: ClockQueue
    ghost var log: seq<Event>

    ghost predicate Valid()
      reads this, queue
    {
      queue.Valid()
    }

    ghost function View(): State
      requires Valid()
      reads this, queue
    {
      State(queue.Contents(), log)
    }

    constructor ()
      ensures Valid() && View() == START && fresh(queue)
    {
      queue := new ClockQueue();
      log := [];
    }

    /** dequeueAllReady. */
    method DequeueAllReady(now: int)
      requires Valid()
      modifies this`log, queue
      ensures Valid()
      ensures var q := old(queue.Contents());
        queue.Contents() == q[Due(q, now)..] && log == old(log) + Answers(q[..Due(q, now)], now)
    {
      hide ClockQueue.Listed, ClockQueue.Contents, Due, Answers;
      ghost var q, n: nat := queue.Contents(), 0;
      assert q[0..] == q && q[..0] == [];
      NothingAnswered(now);
      assert log + [] == log;
      var ready := queue.Ready(now);
      while ready
        invariant Valid() && n <= |q| && queue.Contents() == q[n..] && (ready <==> q[n..] != [] && q[n..][0].tick < now)
        invariant log == old(log) + Answers(q[..n], now) && Due(q, now) == n + Due(q[n..], now)
        decreases |q| - n
      {
        DueHead(q[n..], now);
        AnswersSnoc(q, now, n);
        assert q[n..][1..] == q[n + 1..] && q[n..][0] == q[n];
        assert old(log) + (Answers(q[..n], now) + [Answer(q[n], now)]) == log + [Answer(q[n], now)];
        var readyTid := queue.Get(now);
        log := log + [Answer(q[n], now)];
        n := n + 1;
        if readyTid == 0 { return; }
        ready := queue.Ready(now);
      }
      DueHead(q[n..], now);
    }

    /** One message, with the ticks the clock shows while it is handled. */
    method Serve(m: Message)
      requires Valid()
      modifies this`log, queue
      ensures Valid() && View() == Step(old(View()), m)
    {
      hide ClockQueue.Valid, ClockQueue.Listed, ClockQueue.Contents, Due, Answers, Add;
      match m
      case Time(requester, now) => log := log + [TimeIs(requester, now)];
      case Delay(requester, ticks, now) => queue.Insert(requester, Wrap64(now + ticks));
      case DelayUntil(requester, tick) => queue.Insert(requester, tick);
      case Notify(sender, now, later) =>
        DequeueAllReady(now);
        log := log + [Notified(sender, later)];
      case Unknown(sender) => log := log + [Error(sender)];
    }
  }

  lemma NothingAnswered(now: int)
    ensures Answers([], now) == []
  {
  }

  lemma DueHead(q: seq<Entry>, now: int)
    ensures Due(q, now) == if q == [] || q[0].tick >= now then 0 else if q[0].tid == 0 then 1 else 1 + Due(q[1..], now)
  {
  }

  lemma {:induction false} AnswersSnoc(q: seq<Entry>, now: int, n: nat)
    requires n < |q|
    ensures Answers(q[..n + 1], now) == Answers(q[..n], now) + [Answer(q[n], now)]
  {
    if n > 0 {
      AnswersSnoc(q[1..], now, n - 1);
      assert q[..n + 1][1..] == q[1..][..n] && q[..n][1..] == q[1..][..n - 1];
    }
  }
}
