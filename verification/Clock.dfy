/** The clock server (src/clock-server.c, src/clock-queue.c): tasks waiting for a tick, kept in the order of their
    deadlines; its step on one message, as a function, and what holds over every run. */
module Clock {

  const MAX_WAITING_TASKS := 256

  /** A waiting task and the tick it waits for to pass. */
  datatype Entry = Entry(tid: int, tick: int)

  datatype Message =
    | Time(requester: int, now: int)
    | Delay(requester: int, ticks: int, now: int)
    | DelayUntil(requester: int, tick: int)
    | Notify(sender: int, now: int, later: int)
    | Unknown(sender: int)

  /** Replies; a task that is woken is named with what it had asked for. */
  datatype Event = TimeIs(tid: int, now: int) | Awake(e: Entry, now: int) | Failed(e: Entry)
      | Notified(tid: int, now: int) | Error(tid: int)

  datatype State = State(waiting: seq<Entry>, log: seq<Event>)

  const START := State([], [])

  /** Additions of ticks are done in 64 bits. */
  function Wrap64(v: int): int {
    v % 0x1_0000_0000_0000_0000
  }

  /** Where an entry goes: at the head if that is later, else behind the head and all the earlier ones after it. */
  function Place(q: seq<Entry>, tick: int): (k: nat)
    ensures k <= |q|
  {
    if q == [] || q[0].tick > tick then 0 else 1 + Earlier(q[1..], tick)
  }

  function Earlier(q: seq<Entry>, tick: int): (k: nat)
    ensures k <= |q|
  {
    if q == [] || q[0].tick >= tick then 0 else 1 + Earlier(q[1..], tick)
  }

  /** clock_queue_add: without a free entry the request is dropped. */
  function Add(q: seq<Entry>, e: Entry): seq<Entry> {
    if |q| == MAX_WAITING_TASKS then q
    else
      var k := Place(q, e.tick);
      q[..k] + [e] + q[k..]
  }

  /** How many tasks one notification takes from the queue: those whose deadline has passed, up to one with
      identifier 0. */
  function Due(q: seq<Entry>, now: int): (n: nat)
    ensures n <= |q|
  {
    if q == [] || q[0].tick >= now then 0
    else if q[0].tid == 0 then 1
    else 1 + Due(q[1..], now)
  }

  function Answer(e: Entry, now: int): Event {
    if e.tid == 0 then Failed(e) else Awake(e, now)
  }

  function Answers(q: seq<Entry>, now: int): seq<Event> {
    if q == [] then [] else [Answer(q[0], now)] + Answers(q[1..], now)
  }

  /** One pass of the server's loop. */
  function Step(s: State, m: Message): State {
    match m
    case Time(requester, now) => s.(log := s.log + [TimeIs(requester, now)])
    case Delay(requester, ticks, now) => s.(waiting := Add(s.waiting, Entry(requester, Wrap64(now + ticks))))
    case DelayUntil(requester, tick) => s.(waiting := Add(s.waiting, Entry(requester, tick)))
    case Notify(sender, now, later) =>
      var n := Due(s.waiting, now);
      State(s.waiting[n..], s.log + Answers(s.waiting[..n], now) + [Notified(sender, later)])
    case Unknown(sender) => s.(log := s.log + [Error(sender)])
  }

  function Run(s: State, ms: seq<Message>): State
    decreases |ms|
  {
    if ms == [] then s else Step(Run(s, ms[..|ms| - 1]), ms[|ms| - 1])
  }

  // ----- the order of deadlines -----

  predicate Sorted(q: seq<Entry>) {
    forall i, j :: 0 <= i < j < |q| ==> q[i].tick <= q[j].tick
  }

  lemma {:induction false} EarlierSplits(q: seq<Entry>, tick: int, k: nat)
    requires k < |q|
    ensures k < Earlier(q, tick) ==> q[k].tick < tick
    ensures k == Earlier(q, tick) ==> q[k].tick >= tick
  {
    if k > 0 && q[0].tick < tick { EarlierSplits(q[1..], tick, k - 1); }
  }

  lemma AddSorted(q: seq<Entry>, e: Entry)
    requires Sorted(q)
    ensures Sorted(Add(q, e))
  {
    var k := Place(q, e.tick);
    forall i | 0 <= i < |q| ensures i < k ==> q[i].tick <= e.tick ensures i >= k ==> q[i].tick >= e.tick {
      if 0 < k {
        if 0 < i { EarlierSplits(q[1..], e.tick, i - 1); }
        if k < |q| { EarlierSplits(q[1..], e.tick, k - 1); assert q[1..][k - 1] == q[k]; }
      }
    }
    var r := q[..k] + [e] + q[k..];
    forall i | 0 <= i < |q| + 1 ensures r[i] == if i < k then q[i] else if i == k then e else q[i - 1] { }
  }

  lemma StepSorted(s: State, m: Message)
    requires Sorted(s.waiting) && |s.waiting| <= MAX_WAITING_TASKS
    ensures Sorted(Step(s, m).waiting) && |Step(s, m).waiting| <= MAX_WAITING_TASKS
  {
    hide Place, Answers;
    match m
    case Delay(requester, ticks, now) => AddSorted(s.waiting, Entry(requester, Wrap64(now + ticks)));
    case DelayUntil(requester, tick) => AddSorted(s.waiting, Entry(requester, tick));
    case _ =>
  }

  lemma {:induction false} RunSorted(ms: seq<Message>)
    ensures Sorted(Run(START, ms).waiting) && |Run(START, ms).waiting| <= MAX_WAITING_TASKS
    decreases |ms|
  {
    if ms != [] {
      RunSorted(ms[..|ms| - 1]);
      StepSorted(Run(START, ms[..|ms| - 1]), ms[|ms| - 1]);
    }
  }

  // ----- one notification -----

  lemma {:induction false} DueSplits(q: seq<Entry>, now: int, k: nat)
    requires k < |q|
    ensures k < Due(q, now) ==> q[k].tick < now
    ensures k == Due(q, now) ==> q[k].tick >= now || (k > 0 && q[k - 1].tid == 0)
    ensures k + 1 < Due(q, now) ==> q[k].tid != 0
  {
    if k > 0 && q[0].tick < now && q[0].tid != 0 {
      DueSplits(q[1..], now, k - 1);
    }
  }

  lemma {:induction false} AnswersAt(q: seq<Entry>, now: int, k: nat)
    requires k < |q|
    ensures |Answers(q, now)| == |q| && Answers(q, now)[k] == Answer(q[k], now)
  {
    if k > 0 { AnswersAt(q[1..], now, k - 1); } else if |q| > 1 { AnswersAt(q[1..], now, 0); }
  }

  /** No overdue entry stands behind one with identifier 0. */
  predicate Unobstructed(q: seq<Entry>, now: int) {
    forall i {:trigger q[i]} :: 0 < i < |q| && q[i].tick < now ==> q[i - 1].tid != 0
  }

  /** In a queue in order, all that is overdue is taken exactly when none of it stands behind an identifier 0. */
  lemma AllOverdueIff(q: seq<Entry>, now: int)
    requires Sorted(q)
    ensures forall i :: 0 <= i < Due(q, now) ==> q[i].tick < now
    ensures (forall i :: Due(q, now) <= i < |q| ==> q[i].tick >= now) <==> Unobstructed(q, now)
  {
    hide Due, Sorted, Unobstructed;
    var n := Due(q, now);
    forall i | 0 <= i < |q|
      ensures i < n ==> q[i].tick < now
      ensures i + 1 < n ==> q[i].tid != 0
      ensures n < |q| ==> q[n].tick >= now || (n > 0 && q[n - 1].tid == 0)
    {
      DueSplits(q, now, i);
      if n < |q| { DueSplits(q, now, n); }
    }
    if n < |q| && q[n].tick >= now {
      forall i | n <= i < |q| ensures q[i].tick >= now { InOrder(q, n, i); }
      forall i | 0 < i < |q| && q[i].tick < now ensures q[i - 1].tid != 0 { assert i - 1 + 1 < n; }
      IsUnobstructed(q, now);
    } else if n < |q| {
      IsObstructed(q, now, n);
    } else {
      forall i | 0 < i < |q| && q[i].tick < now ensures q[i - 1].tid != 0 { assert i - 1 + 1 < n; }
      IsUnobstructed(q, now);
    }
  }

  lemma InOrder(q: seq<Entry>, i: nat, j: nat)
    requires Sorted(q) && i <= j < |q|
    ensures q[i].tick <= q[j].tick
  {
  }

  lemma IsUnobstructed(q: seq<Entry>, now: int)
    requires forall i :: 0 < i < |q| && q[i].tick < now ==> q[i - 1].tid != 0
    ensures Unobstructed(q, now)
  {
  }

  lemma IsObstructed(q: seq<Entry>, now: int, n: nat)
    requires 0 < n < |q| && q[n].tick < now && q[n - 1].tid == 0
    ensures !Unobstructed(q, now)
  {
  }

  /** In any run, a notification answers tasks whose deadline has passed, in the order of their deadlines, and nobody
      else; and it answers every one of them exactly when none stands behind an entry with identifier 0. */
  lemma NotifyWakesExactlyTheOverdue(ms: seq<Message>, sender: int, now: int, later: int) returns (n: nat)
    ensures var before := Run(START, ms);
      var after := Step(before, Notify(sender, now, later));
      n <= |before.waiting| && after.waiting == before.waiting[n..] &&
      after.log == before.log + Answers(before.waiting[..n], now) + [Notified(sender, later)] &&
      (forall i :: 0 <= i < n ==> before.waiting[i].tick < now) &&
      ((forall i :: n <= i < |before.waiting| ==> before.waiting[i].tick >= now) <==>
        Unobstructed(before.waiting, now)) &&
      (forall i, j :: 0 <= i < j < n ==> before.waiting[i].tick <= before.waiting[j].tick) &&
      |Answers(before.waiting[..n], now)| == n &&
      (forall i :: 0 <= i < n ==> Answers(before.waiting[..n], now)[i] == Answer(before.waiting[i], now))
  {
    hide Due, Answers, Unobstructed;
    RunSorted(ms);
    var q := Run(START, ms).waiting;
    n := Due(q, now);
    AllOverdueIff(q, now);
    AnswersHead(q[..n], now);
    forall i | 0 <= i < n
      ensures |Answers(q[..n], now)| == n && Answers(q[..n], now)[i] == Answer(q[i], now)
    {
      AnswersAt(q[..n], now, i);
    }
  }

  /** Every request names a task, as the kernel's identifiers, which start at 1, make it do. */
  predicate Named(ms: seq<Message>) {
    forall i :: 0 <= i < |ms| && (ms[i].Delay? || ms[i].DelayUntil?) ==> ms[i].requester != 0
  }

  lemma {:induction false} WaitersAreNamed(ms: seq<Message>)
    requires Named(ms)
    ensures forall e :: e in Run(START, ms).waiting ==> e.tid != 0
    decreases |ms|
  {
    hide Place, Due, Answers;
    if ms != [] {
      WaitersAreNamed(ms[..|ms| - 1]);
      assert ms[|ms| - 1].Delay? || ms[|ms| - 1].DelayUntil? ==> ms[|ms| - 1].requester != 0;
    }
  }

  /** So in every run of named requests, each notification wakes all the tasks whose deadline has passed. */
  lemma EveryOverdueTaskWakes(ms: seq<Message>, sender: int, now: int, later: int) returns (n: nat)
    requires Named(ms)
    ensures var before := Run(START, ms);
      n <= |before.waiting| && Step(before, Notify(sender, now, later)).waiting == before.waiting[n..] &&
      (forall i :: 0 <= i < |before.waiting| ==> (i < n <==> before.waiting[i].tick < now)) &&
      |Answers(before.waiting[..n], now)| == n &&
      Step(before, Notify(sender, now, later)).log ==
        before.log + Answers(before.waiting[..n], now) + [Notified(sender, later)] &&
      forall i :: 0 <= i < n ==> Answers(before.waiting[..n], now)[i] == Awake(before.waiting[i], now)
  {
    hide Step, Answers;
    n := NotifyWakesExactlyTheOverdue(ms, sender, now, later);
    WaitersAreNamed(ms);
    var q := Run(START, ms).waiting;
    assert forall i :: 0 <= i < |q| ==> q[i] in q;
  }

  /** A run in which a request with identifier 0 holds up an overdue task until the next notification. */
  lemma ZeroHoldsUpOthers()
    ensures var ms := [DelayUntil(0, 1), DelayUntil(7, 2), Notify(9, 5, 5)];
      Run(START, ms) == State([Entry(7, 2)], [Failed(Entry(0, 1)), Notified(9, 5)])
  {
    var ms := [DelayUntil(0, 1), DelayUntil(7, 2), Notify(9, 5, 5)];
    assert ms[..2][..1] == [DelayUntil(0, 1)] && ms[..2][1] == DelayUntil(7, 2) && ms[..1][..0] == [];
    assert Run(START, ms[..1]).waiting == [Entry(0, 1)];
    assert Run(START, ms[..2]).waiting == [Entry(0, 1), Entry(7, 2)];
    assert [Entry(0, 1), Entry(7, 2)][..1] == [Entry(0, 1)] && [Entry(0, 1)][1..] == [];
    assert Answers([Entry(0, 1)], 5) == [Failed(Entry(0, 1))];
  }

  // ----- conservation -----

  /** The requests that found a free entry. */
  ghost function Requested(s: State, m: Message): multiset<Entry> {
    if |s.waiting| == MAX_WAITING_TASKS then multiset{}
    else match m
      case Delay(requester, ticks, now) => multiset{Entry(requester, Wrap64(now + ticks))}
      case DelayUntil(requester, tick) => multiset{Entry(requester, tick)}
      case _ => multiset{}
  }

  ghost function RequestedIn(ms: seq<Message>): multiset<Entry>
    decreases |ms|
  {
    if ms == [] then multiset{} else RequestedIn(ms[..|ms| - 1]) + Requested(Run(START, ms[..|ms| - 1]), ms[|ms| - 1])
  }

  /** The requests answered. */
  ghost function Answered(log: seq<Event>): multiset<Entry> {
    if log == [] then multiset{}
    else
      var e := log[|log| - 1];
      Answered(log[..|log| - 1]) + if e.Awake? || e.Failed? then multiset{e.e} else multiset{}
  }

  lemma AnsweredMore(log: seq<Event>, e: Event)
    ensures Answered(log + [e]) == Answered(log) + if e.Awake? || e.Failed? then multiset{e.e} else multiset{}
  {
    assert (log + [e])[..|log|] == log;
  }

  lemma AnswersHead(q: seq<Entry>, now: int)
    ensures q == [] ==> Answers(q, now) == []
    ensures q != [] ==> Answers(q, now) == [Answer(q[0], now)] + Answers(q[1..], now)
  {
  }

  lemma {:induction false} AnsweredAll(log: seq<Event>, q: seq<Entry>, now: int)
    ensures Answered(log + Answers(q, now)) == Answered(log) + multiset(q)
    decreases |q|
  {
    hide Answered, Answers;
    AnswersHead(q, now);
    if q == [] {
      assert log + [] == log;
    } else {
      AnsweredMore(log, Answer(q[0], now));
      AnsweredAll(log + [Answer(q[0], now)], q[1..], now);
      assert log + ([Answer(q[0], now)] + Answers(q[1..], now)) == (log + [Answer(q[0], now)]) + Answers(q[1..], now);
      assert q == [q[0]] + q[1..];
    }
  }

  lemma AddKeeps(q: seq<Entry>, e: Entry)
    ensures multiset(Add(q, e)) == multiset(q) + if |q| == MAX_WAITING_TASKS then multiset{} else multiset{e}
  {
    var k := Place(q, e.tick);
    assert q == q[..k] + q[k..];
  }

  /** In any run, every request that found room was answered once or is still waiting, and nothing else was answered. */
  lemma {:induction false} RunConserves(ms: seq<Message>)
    ensures RequestedIn(ms) == Answered(Run(START, ms).log) + multiset(Run(START, ms).waiting)
    decreases |ms|
  {
    if ms != [] {
      var m, s := ms[|ms| - 1], Run(START, ms[..|ms| - 1]);
      RunConserves(ms[..|ms| - 1]);
      StepConserves(s, m);
    }
  }

  lemma StepConserves(s: State, m: Message)
    ensures Answered(s.log) + multiset(s.waiting) + Requested(s, m) ==
      Answered(Step(s, m).log) + multiset(Step(s, m).waiting)
  {
    hide Answered, Place, Due, Answers, Add;
    match m
    case Time(requester, now) => AnsweredMore(s.log, TimeIs(requester, now));
    case Delay(requester, ticks, now) => AddKeeps(s.waiting, Entry(requester, Wrap64(now + ticks)));
    case DelayUntil(requester, tick) => AddKeeps(s.waiting, Entry(requester, tick));
    case Notify(sender, now, later) => NotifyConserves(s, sender, now, later);
    case Unknown(sender) => AnsweredMore(s.log, Error(sender));
  }

  lemma NotifyConserves(s: State, sender: int, now: int, later: int)
    ensures var s' := Step(s, Notify(sender, now, later));
      Answered(s.log) + multiset(s.waiting) == Answered(s'.log) + multiset(s'.waiting)
  {
    hide Answered, Due, Answers;
    var n := Due(s.waiting, now);
    assert s.waiting == s.waiting[..n] + s.waiting[n..];
    assert multiset(s.waiting) == multiset(s.waiting[..n]) + multiset(s.waiting[n..]);
    AnsweredAll(s.log, s.waiting[..n], now);
    AnsweredMore(s.log + Answers(s.waiting[..n], now), Notified(sender, later));
  }

  /** In any run, no task was woken at or before its deadline. */
  lemma {:induction false} NobodyWakesEarly(ms: seq<Message>, i: nat)
    requires i < |Run(START, ms).log| && Run(START, ms).log[i].Awake?
    ensures Run(START, ms).log[i].e.tick < Run(START, ms).log[i].now
    decreases |ms|
  {
    var m, s := ms[|ms| - 1], Run(START, ms[..|ms| - 1]);
    if i < |s.log| {
      assert Run(START, ms).log[i] == s.log[i];
      NobodyWakesEarly(ms[..|ms| - 1], i);
    } else {
      var n := Due(s.waiting, m.now);
      if i - |s.log| < n {
        AnswersAt(s.waiting[..n], m.now, i - |s.log|);
        DueSplits(s.waiting, m.now, i - |s.log|);
      } else if n > 0 {
        AnswersAt(s.waiting[..n], m.now, 0);
      }
    }
  }

  // ----- what a request gets -----

  /** The request m asks for entry e: in the words of the client, the tick it named, or so many ticks from now. */
  predicate Asks(m: Message, e: Entry) {
    match m
    case Delay(requester, ticks, now) =>
      e.tid == requester && (0 <= now + ticks < 0x1_0000_0000_0000_0000 ==> e.tick == now + ticks) &&
      0 <= e.tick < 0x1_0000_0000_0000_0000 && (e.tick - now - ticks) % 0x1_0000_0000_0000_0000 == 0
    case DelayUntil(requester, tick) => e.tid == requester && e.tick == tick
    case _ => false
  }

  /** The queue q' is q with e put in: at the head if that is later; otherwise behind the head and the earlier ones
      after it, so before all others of its own tick. */
  predicate PutIn(q: seq<Entry>, q': seq<Entry>, e: Entry, k: nat) {
    k <= |q| && q' == q[..k] + [e] + q[k..] && (k == 0 <==> q == [] || q[0].tick > e.tick) &&
    (forall i :: 1 <= i < k ==> q[i].tick < e.tick) && (0 < k < |q| ==> q[k].tick >= e.tick)
  }

  lemma AddPutsIn(q: seq<Entry>, e: Entry)
    requires |q| < 256
    ensures PutIn(q, Add(q, e), e, Place(q, e.tick))
  {
    var k := Place(q, e.tick);
    if k > 0 {
      forall i | 1 <= i < k ensures q[i].tick < e.tick { EarlierSplits(q[1..], e.tick, i - 1); }
      if k < |q| { EarlierSplits(q[1..], e.tick, k - 1); }
    }
  }

  /** In any run, a request that finds room waits for just what it asked for; without room, and for any other message,
      nobody new waits. */
  lemma RequestsWait(ms: seq<Message>, m: Message) returns (e: Entry, k: nat)
    ensures var before, after := Run(START, ms), Step(Run(START, ms), m);
      if (m.Delay? || m.DelayUntil?) && |before.waiting| < 256 then
        Asks(m, e) && PutIn(before.waiting, after.waiting, e, k) && after.log == before.log
      else k <= |before.waiting| && after.waiting == before.waiting[k..] && (!m.Notify? ==> k == 0)
  {
    hide Due, Answers, Place, Add, PutIn;
    var s := Run(START, ms);
    RunSorted(ms);
    k := 0;
    e := Entry(0, 0);
    match m
    case Delay(requester, ticks, now) =>
      e := Entry(requester, Wrap64(now + ticks));
      if |s.waiting| < 256 { AddPutsIn(s.waiting, e); k := Place(s.waiting, e.tick); } else { FullStays(s.waiting, e); }
    case DelayUntil(requester, tick) =>
      e := Entry(requester, tick);
      if |s.waiting| < 256 { AddPutsIn(s.waiting, e); k := Place(s.waiting, e.tick); } else { FullStays(s.waiting, e); }
    case Notify(sender, now, later) => k := Due(s.waiting, now);
    case _ =>
  }

  lemma FullStays(q: seq<Entry>, e: Entry)
    requires |q| == 256
    ensures Add(q, e) == q
  {
  }

  lemma {:induction false} RequestedHaveAsked(ms: seq<Message>, e: Entry) returns (k: nat)
    requires e in RequestedIn(ms)
    ensures k < |ms| && Asks(ms[k], e)
    decreases |ms|
  {
    hide Asks, Requested, Run;
    var before := ms[..|ms| - 1];
    if e in RequestedIn(before) {
      k := RequestedHaveAsked(before, e);
    } else {
      RequestedAsks(Run(START, before), ms[|ms| - 1], e);
      k := |ms| - 1;
    }
  }

  /** In any run, who waits, is woken or fails had asked for it in an earlier message. */
  lemma WaitersHaveAsked(ms: seq<Message>, e: Entry) returns (k: nat)
    requires e in Run(START, ms).waiting || e in Answered(Run(START, ms).log)
    ensures k < |ms| && Asks(ms[k], e)
  {
    hide Asks, Answered, Run, RequestedIn;
    RunConserves(ms);
    k := RequestedHaveAsked(ms, e);
  }

  lemma RequestedAsks(s: State, m: Message, e: Entry)
    requires e in Requested(s, m)
    ensures Asks(m, e)
  {
  }

  lemma {:induction false} AwakeIsAnswered(log: seq<Event>, i: nat)
    requires i < |log| && (log[i].Awake? || log[i].Failed?)
    ensures log[i].e in Answered(log)
  {
    if i < |log| - 1 { AwakeIsAnswered(log[..|log| - 1], i); }
  }

  /** In any run, a task that is woken had asked to sleep until an earlier time than it is woken at: the tick it named,
      or the time of its request and the ticks it asked for. */
  lemma WokenAfterAsked(ms: seq<Message>, i: nat) returns (k: nat)
    requires i < |Run(START, ms).log| && Run(START, ms).log[i].Awake?
    ensures k < |ms|
    ensures var woken := Run(START, ms).log[i];
      match ms[k]
      case Delay(requester, ticks, now) =>
        requester == woken.e.tid && (0 <= now + ticks < 0x1_0000_0000_0000_0000 ==> woken.now > now + ticks)
      case DelayUntil(requester, tick) => requester == woken.e.tid && woken.now > tick
      case _ => false
  {
    hide Answered, Step, Run;
    AwakeIsAnswered(Run(START, ms).log, i);
    k := WaitersHaveAsked(ms, Run(START, ms).log[i].e);
    NobodyWakesEarly(ms, i);
  }

  /** The other requests are answered at once, with the time or an error, and nothing else happens. */
  lemma OthersAnswered(s: State, m: Message)
    ensures m.Time? ==> Step(s, m) == s.(log := s.log + [TimeIs(m.requester, m.now)])
    ensures m.Unknown? ==> Step(s, m) == s.(log := s.log + [Error(m.sender)])
  {
  }
}
