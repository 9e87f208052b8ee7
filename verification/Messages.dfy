/** The invariants of Send, Receive and Reply (kernel/src/task-state.c:137-223) over values: the columns of the
    descriptors, the list of blocked senders of each task, the receiver each blocked sender waits for, and the
    history of the calls. */
module Messages {
  import opened Chains
  import opened TaskTable

  // ----- the lists of blocked senders -----

  /** A task that is not blocked in Send heads the list of its senders; a task is blocked in Send exactly when it
      is on the list of one task; a task waiting in Receive has no blocked senders. */
  ghost predicate SendersOk(live: set<nat>, state: seq<TaskState>, link: seq<int>, senders: seq<seq<nat>>,
                            target: seq<int>) {
    |state| == N_TASKS && |link| == N_TASKS && |senders| == N_TASKS && |target| == N_TASKS &&
    (forall x :: x in live ==> x < N_TASKS) &&
    (forall r: nat :: r < N_TASKS ==> HeadsList(live, state, link, senders, r)) &&
    (forall r: nat :: r < N_TASKS ==> AllSendTo(live, state, target, senders[r], r)) &&
    (forall s: nat :: s in live && state[s] == SendWait ==> 0 <= target[s] < N_TASKS && s in senders[target[s]])
  }

  ghost predicate HeadsList(live: set<nat>, state: seq<TaskState>, link: seq<int>, senders: seq<seq<nat>>, r: nat)
    requires r < |state| && r < |link| && r < |senders|
  {
    if r !in live || state[r] == SendWait then senders[r] == []
    else Chain(link, link[r], senders[r]) && (state[r] == RcvWait ==> senders[r] == [])
  }

  ghost predicate AllSendTo(live: set<nat>, state: seq<TaskState>, target: seq<int>, q: seq<nat>, r: nat) {
    forall s :: s in q ==> s in live && s < |state| && s < |target| && state[s] == SendWait && target[s] == r
  }

  /** A blocked sender is on exactly one list. */
  lemma OnOneList(live: set<nat>, state: seq<TaskState>, link: seq<int>, senders: seq<seq<nat>>, target: seq<int>,
                  s: nat, r: nat)
    requires SendersOk(live, state, link, senders, target) && s in live && r < N_TASKS
    ensures s in senders[r] <==> state[s] == SendWait && target[s] == r
  {
  }

  /** The last of the list headed by r, or r itself: where the next sender is linked in. */
  ghost function TailOf(r: nat, q: seq<nat>): nat {
    if q == [] then r else q[|q| - 1]
  }

  /** Linking t behind the tail of the list headed by r. */
  lemma TailLinks(link: seq<int>, r: nat, q: seq<nat>, t: nat)
    requires r < |link| && t < |link| && t != r && Chain(link, link[r], q) && r !in q && t !in q && link[t] == NULL
    ensures var z := TailOf(r, q);
      z < |link| && Chain(link[z := t], link[z := t][r], q + [t])
  {
    assert link[t := NULL] == link;
    ChainMembers(link, link[r], q);
    ChainAppend(link, link[r], q, t);
    if q == [] {
      assert [] + [t] == [t] && [t][1..] == [];
    } else {
      assert q[|q| - 1] in q;
    }
  }

  /** t blocks in Send behind the other senders of r. */
  lemma SendBlocks(live: set<nat>, state: seq<TaskState>, link: seq<int>, senders: seq<seq<nat>>, target: seq<int>,
                   t: nat, r: nat)
    requires SendersOk(live, state, link, senders, target) && t in live && r in live && t != r
    requires state[t] == Running && senders[t] == [] && state[r] != SendWait && state[r] != RcvWait
    ensures TailOf(r, senders[r]) < N_TASKS
    ensures SendersOk(live, state[t := SendWait], link[TailOf(r, senders[r]) := t], senders[r := senders[r] + [t]],
      target[t := r])
  {
    hide Chain;
    var q, z := senders[r], TailOf(r, senders[r]);
    assert HeadsList(live, state, link, senders, r) && HeadsList(live, state, link, senders, t) &&
           AllSendTo(live, state, target, q, r);
    ChainMembers(link, link[t], []);
    ChainMembers(link, link[r], q);
    assert t !in q && r !in q && (q != [] ==> z in q);
    TailLinks(link, r, q, t);
    var link' := link[z := t];
    var senders', state', target' := senders[r := q + [t]], state[t := SendWait], target[t := r];
    forall x: nat | x < N_TASKS ensures HeadsList(live, state', link', senders', x) {
      assert HeadsList(live, state, link, senders, x) && AllSendTo(live, state, target, senders[x], x);
      if x != r && x != t && x in live && state[x] != SendWait {
        assert x != z && z !in senders[x];
        ChainOther(link, link[x], senders[x], z, t);
      }
    }
    forall x: nat | x < N_TASKS ensures AllSendTo(live, state', target', senders'[x], x) {
      assert AllSendTo(live, state, target, senders[x], x);
    }
  }

  /** r takes its first blocked sender. */
  lemma ReceiveUnblocks(live: set<nat>, state: seq<TaskState>, link: seq<int>, senders: seq<seq<nat>>, target: seq<int>,
                        r: nat)
    requires SendersOk(live, state, link, senders, target) && r in live && state[r] != SendWait && senders[r] != []
    ensures 0 <= link[r] < N_TASKS && link[r] == senders[r][0] && link[r] in live && state[link[r]] == SendWait &&
            link[r] != r
    ensures var s := link[r];
      SendersOk(live, state[s := ReplyWait], link[r := link[s]][s := NULL], senders[r := senders[r][1..]], target)
  {
    hide Chain;
    var q := senders[r];
    assert HeadsList(live, state, link, senders, r) && AllSendTo(live, state, target, q, r) && q[0] in q;
    ChainTail(link, link[r], q);
    ChainMembers(link, link[r], q);
    var s: nat := q[0];
    var link', state', senders' := link[r := link[s]][s := NULL], state[s := ReplyWait], senders[r := q[1..]];
    forall x | x in q[1..] ensures x in q && x != r && x != s { assert x in q; }
    ChainOther(link, link[s], q[1..], r, link[s]);
    ChainOther(link[r := link[s]], link[s], q[1..], s, NULL);
    assert HeadsList(live, state, link, senders, s);
    assert Chain(link', NULL, []) by { ChainNil(link'); }
    forall x: nat | x < N_TASKS ensures HeadsList(live, state', link', senders', x) {
      assert HeadsList(live, state, link, senders, x) && AllSendTo(live, state, target, senders[x], x);
      if x != r && x != s && x in live && state[x] != SendWait {
        assert s !in senders[x] && r !in senders[x];
        ChainOther(link, link[x], senders[x], r, link[s]);
        ChainOther(link[r := link[s]], link[x], senders[x], s, NULL);
      }
    }
    forall x: nat | x < N_TASKS ensures AllSendTo(live, state', target, senders'[x], x) {
      assert AllSendTo(live, state, target, senders[x], x);
    }
    forall y: nat | y in live && state'[y] == SendWait ensures 0 <= target[y] < N_TASKS && y in senders'[target[y]] {
      assert q == [s] + q[1..];
    }
  }

  lemma ChainNil(link: seq<int>)
    ensures Chain(link, NULL, [])
  {
  }

  /** A change of state that neither starts nor ends a wait in Send, nor a wait in Receive with senders blocked. */
  lemma StateChanges(live: set<nat>, state: seq<TaskState>, link: seq<int>, senders: seq<seq<nat>>, target: seq<int>,
                     x: nat, st: TaskState)
    requires SendersOk(live, state, link, senders, target) && x < N_TASKS
    requires x in live ==> state[x] != SendWait && st != SendWait
    requires st == RcvWait ==> senders[x] == []
    ensures SendersOk(live, state[x := st], link, senders, target)
  {
    hide Chain;
    var state' := state[x := st];
    forall r: nat | r < N_TASKS
      ensures HeadsList(live, state', link, senders, r) && AllSendTo(live, state', target, senders[r], r)
    {
      assert HeadsList(live, state, link, senders, r) && AllSendTo(live, state, target, senders[r], r);
    }
  }

  /** A task joins, with no senders. */
  lemma TaskJoins(live: set<nat>, state: seq<TaskState>, link: seq<int>, senders: seq<seq<nat>>, target: seq<int>,
                  x: nat)
    requires SendersOk(live, state, link, senders, target) && x < N_TASKS && x !in live
    requires link[x] == NULL && state[x] != SendWait
    ensures SendersOk(live + {x}, state, link, senders, target)
  {
    hide Chain;
    ChainNil(link);
    forall r: nat | r < N_TASKS
      ensures HeadsList(live + {x}, state, link, senders, r) && AllSendTo(live + {x}, state, target, senders[r], r)
    {
      assert HeadsList(live, state, link, senders, r) && AllSendTo(live, state, target, senders[r], r);
    }
  }

  /** A task may leave exactly when no sender is blocked on it: otherwise a task stays blocked on nobody's list. */
  lemma TaskLeavesIff(live: set<nat>, state: seq<TaskState>, link: seq<int>, senders: seq<seq<nat>>, target: seq<int>,
                      x: nat)
    requires SendersOk(live, state, link, senders, target) && x in live && state[x] != SendWait
    ensures SendersOk(live - {x}, state, link, senders, target) <==> senders[x] == []
  {
    hide Chain;
    forall r: nat | r < N_TASKS && senders[x] == []
      ensures HeadsList(live - {x}, state, link, senders, r) && AllSendTo(live - {x}, state, target, senders[r], r)
    {
      assert HeadsList(live, state, link, senders, r) && AllSendTo(live, state, target, senders[r], r);
    }
    assert SendersOk(live - {x}, state, link, senders, target) ==> HeadsList(live - {x}, state, link, senders, x);
  }

  /** Only the links of live tasks matter. */
  lemma SendersFrame(live: set<nat>, state: seq<TaskState>, link: seq<int>, link': seq<int>, senders: seq<seq<nat>>,
                     target: seq<int>)
    requires SendersOk(live, state, link, senders, target) && |link'| == N_TASKS
    requires forall x: nat :: x in live && x < N_TASKS ==> link'[x] == link[x]
    ensures SendersOk(live, state, link', senders, target)
  {
    hide Chain;
    forall r: nat | r < N_TASKS ensures HeadsList(live, state, link', senders, r) {
      assert HeadsList(live, state, link, senders, r) && AllSendTo(live, state, target, senders[r], r);
      if r in live && state[r] != SendWait { ChainFrame(link, link', link[r], senders[r]); }
    }
  }

  /** The task whose list the link of r leads into: its own, or while it is blocked in Send that of its receiver. */
  ghost function ListHead(state: seq<TaskState>, target: seq<int>, r: nat): int
    requires r < |state| && r < |target|
  {
    if state[r] == SendWait then target[r] else r
  }

  /** What the loop of Send walks over behind r, and where it links the caller in. */
  lemma Behind(live: set<nat>, state: seq<TaskState>, link: seq<int>, senders: seq<seq<nat>>, target: seq<int>,
               r: nat) returns (b: seq<nat>)
    requires SendersOk(live, state, link, senders, target) && r in live
    ensures Chain(link, link[r], b)
    ensures var h := ListHead(state, target, r);
      0 <= h < N_TASKS && h in live && state[h] != SendWait && Chain(link, link[h], senders[h]) &&
      TailOf(r, b) == TailOf(h, senders[h])
  {
    hide Chain;
    var h: nat := ListHead(state, target, r);
    assert HeadsList(live, state, link, senders, h) && AllSendTo(live, state, target, senders[h], h);
    if state[r] == SendWait {
      var k :| 0 <= k < |senders[h]| && senders[h][k] == r;
      ChainSuffix(link, link[h], senders[h], k);
      b := senders[h][k + 1..];
    } else {
      b := senders[r];
    }
  }

  /** What Send of t writes: it ends up on the list its receiver's link leads into, followed by the tasks that were
      blocked on t.  So with tasks blocked on t, the receiver takes their messages for its own; with the receiver r
      blocked in Send, t lands on the list of r's receiver; and if that is t itself, its list never ends. */
  lemma SendMisplacesSenders(live: set<nat>, state: seq<TaskState>, link: seq<int>, senders: seq<seq<nat>>,
                             target: seq<int>,
                             t: nat, r: nat) returns (b: seq<nat>)
    requires SendersOk(live, state, link, senders, target) && t in live && r in live && t != r && state[t] == Running
    ensures Chain(link, link[r], b) && TailOf(r, b) < N_TASKS && 0 <= ListHead(state, target, r) < N_TASKS
    ensures var h, link' := ListHead(state, target, r), link[TailOf(r, b) := t];
      if h == t then forall q :: !Chain(link', link'[t], q) else Chain(link', link'[h], senders[h] + [t] + senders[t])
  {
    hide Chain;
    b := Behind(live, state, link, senders, target, r);
    var h: nat := ListHead(state, target, r);
    var q, z := senders[h], TailOf(h, senders[h]);
    assert HeadsList(live, state, link, senders, t);
    assert AllSendTo(live, state, target, q, h) && AllSendTo(live, state, target, senders[t], t);
    ChainMembers(link, link[h], q);
    ChainMembers(link, link[t], senders[t]);
    assert z < N_TASKS by { assert q != [] ==> z in q; }
    if h == t {
      var link' := link[z := t];
      forall p ensures !Chain(link', link'[t], p) { OwnListCircles(link, q, t, p); }
    } else if q == [] {
      ChainOther(link, link[t], senders[t], h, t);
      ChainOther(link[h := t], link[t], senders[t], t, link[t]);
      ChainPrepend(link[h := t], link[t], senders[t], t);
      assert link[h := t][t := link[t]] == link[h := t] && [] + [t] + senders[t] == [t] + senders[t];
    } else {
      assert q[|q| - 1] in q;
      ChainJoin(link, link[h], q, t, senders[t]);
    }
  }

  /** A list linked back to its head. */
  lemma OwnListCircles(link: seq<int>, q: seq<nat>, t: nat, p: seq<nat>)
    requires t < |link| && Chain(link, link[t], q) && q != [] && t !in q
    ensures q[|q| - 1] < |link| && !Chain(link[q[|q| - 1] := t], link[q[|q| - 1] := t][t], p)
  {
    hide Chain;
    ChainMembers(link, link[t], q);
    var z := q[|q| - 1];
    assert z in q;
    var link', inside := link[z := t], (set x | x in q) + {t};
    forall x | x in inside ensures x < |link'| && 0 <= link'[x] && link'[x] in inside {
      if x != t && x != z {
        var k :| 0 <= k < |q| && q[k] == x;
        ChainSucc(link, link[t], q, k);
      }
    }
    assert link'[t] in inside;
    ClosedNeverEnds(link', link'[t], p, inside);
  }

  /** With those links, Send keeps the lists exactly when nobody is blocked on its caller and its receiver is not
      blocked in Send. */
  lemma SendKeepsListsIff(live: set<nat>, state: seq<TaskState>, link: seq<int>, senders: seq<seq<nat>>,
                          target: seq<int>,
                          t: nat, r: nat) returns (b: seq<nat>)
    requires SendersOk(live, state, link, senders, target) && t in live && r in live && t != r
    requires state[t] == Running && state[r] != RcvWait
    ensures Chain(link, link[r], b) && TailOf(r, b) < N_TASKS
    ensures SendersOk(live, state[t := SendWait], link[TailOf(r, b) := t], senders[r := senders[r] + [t]],
      target[t := r]) <==>
      senders[t] == [] && state[r] != SendWait
  {
    hide Chain;
    b := SendMisplacesSenders(live, state, link, senders, target, t, r);
    var state', senders', link' := state[t := SendWait], senders[r := senders[r] + [t]], link[TailOf(r, b) := t];
    if senders[t] == [] && state[r] != SendWait {
      var b' := Behind(live, state, link, senders, target, r);
      ChainsAgree(link, link[r], b, b');
      SendBlocks(live, state, link, senders, target, t, r);
    } else {
      assert !HeadsList(live, state', link', senders', if senders[t] != [] then t else r);
    }
  }

  /** The cursor of the loop at kernel/src/task-state.c:164-167 after n passes, as it is written there: each pass
      reads the head of the list again. */
  ghost function CursorAfter(link: seq<int>, r: nat, n: nat): int
    requires r < |link|
  {
    var (prev, cur) := CursorsAfter(link, r, n);
    cur
  }

  ghost function CursorsAfter(link: seq<int>, r: nat, n: nat): (int, int)
    requires r < |link|
  {
    if n == 0 then (NULL, link[r])
    else var (prev, cur) := CursorsAfter(link, r, n - 1); (cur, link[r])
  }

  /** As written, the loop ends exactly when no sender is waiting. */
  lemma {:induction false} WrittenLoopEndsIff(link: seq<int>, r: nat)
    requires r < |link|
    ensures (exists n: nat :: CursorAfter(link, r, n) == NULL) <==> link[r] == NULL
  {
    assert CursorAfter(link, r, 0) == link[r];
    forall n: nat ensures CursorAfter(link, r, n) == link[r] { CursorStuck(link, r, n); }
  }

  lemma {:induction false} CursorStuck(link: seq<int>, r: nat, n: nat)
    requires r < |link|
    ensures CursorsAfter(link, r, n).1 == link[r]
  {
    if n > 0 { CursorStuck(link, r, n - 1); }
  }

  // ----- the history -----

  /** What the calls did, tasks being named by their identifiers. */
  datatype Act = Sent(from: int, to: int) | Received(from: int, taker: int) | Replied(from: int)

  ghost function SentTo(trace: seq<Act>, v: int): seq<int> {
    if trace == [] then []
    else
      var a := trace[|trace| - 1];
      SentTo(trace[..|trace| - 1], v) + if a.Sent? && a.to == v then [a.from] else []
  }

  ghost function ReceivedBy(trace: seq<Act>, v: int): seq<int> {
    if trace == [] then []
    else
      var a := trace[|trace| - 1];
      ReceivedBy(trace[..|trace| - 1], v) + if a.Received? && a.taker == v then [a.from] else []
  }

  datatype Phase = AtRest | Sending | AwaitingReply | Broken

  function NextPhase(p: Phase, a: Act): Phase {
    match (p, a)
    case (AtRest, Sent(_, _)) => Sending
    case (Sending, Received(_, _)) => AwaitingReply
    case (AwaitingReply, Replied(_)) => AtRest
    case _ => Broken
  }

  /** Where a sender stands: its own acts must follow one another as Send, Receive, Reply. */
  ghost function PhaseAfter(trace: seq<Act>, v: int): Phase {
    if trace == [] then AtRest
    else
      var a := trace[|trace| - 1];
      var p := PhaseAfter(trace[..|trace| - 1], v);
      if a.from == v then NextPhase(p, a) else p
  }

  function PhaseOf(st: TaskState): Phase {
    if st == SendWait then Sending else if st == ReplyWait then AwaitingReply else AtRest
  }

  ghost function TidsOf(tid: seq<int>, q: seq<nat>): seq<int> {
    if q == [] then [] else [if q[0] < |tid| then tid[q[0]] else 0] + TidsOf(tid, q[1..])
  }

  ghost predicate TidsOk(live: set<nat>, tid: seq<int>, globalTid: int) {
    |tid| == N_TASKS && (forall x :: x in live ==> x < N_TASKS && 0 < tid[x] <= globalTid) &&
    (forall x, y :: x in live && y in live && tid[x] == tid[y] ==> x == y)
  }

  ghost predicate Mentions(a: Act, globalTid: int) {
    a.from <= globalTid && (a.Sent? ==> a.to <= globalTid) && (a.Received? ==> a.taker <= globalTid)
  }

  /** What was sent to a task is what it received, in order, and then those still blocked on it; every sender's
      acts are in order and its state says how far it is. */
  ghost predicate TraceOk(live: set<nat>, tid: seq<int>, state: seq<TaskState>, senders: seq<seq<nat>>, trace: seq<Act>,
                          globalTid: int) {
    TidsOk(live, tid, globalTid) && |state| == N_TASKS && |senders| == N_TASKS &&
    (forall x :: x in live ==> InOrder(tid, state, senders, trace, x)) &&
    (forall v :: PhaseAfter(trace, v) != Broken) &&
    (forall a :: a in trace ==> Mentions(a, globalTid))
  }

  ghost predicate InOrder(tid: seq<int>, state: seq<TaskState>, senders: seq<seq<nat>>, trace: seq<Act>, x: nat)
    requires x < |tid| && x < |state| && x < |senders|
  {
    SentTo(trace, tid[x]) == ReceivedBy(trace, tid[x]) + TidsOf(tid, senders[x]) &&
    PhaseAfter(trace, tid[x]) == PhaseOf(state[x])
  }

  lemma Appended(trace: seq<Act>, a: Act, v: int)
    ensures SentTo(trace + [a], v) == SentTo(trace, v) + if a.Sent? && a.to == v then [a.from] else []
    ensures ReceivedBy(trace + [a], v) == ReceivedBy(trace, v) + if a.Received? && a.taker == v then [a.from] else []
    ensures PhaseAfter(trace + [a], v) ==
      if a.from == v then NextPhase(PhaseAfter(trace, v), a) else PhaseAfter(trace, v)
  {
    assert (trace + [a])[..|trace|] == trace;
  }

  lemma {:induction false} TidsAppend(tid: seq<int>, q: seq<nat>, x: nat)
    requires x < |tid|
    ensures TidsOf(tid, q + [x]) == TidsOf(tid, q) + [tid[x]]
  {
    if q == [] {
      assert [] + [x] == [x] && [x][1..] == [];
    } else {
      TidsAppend(tid, q[1..], x);
      assert (q + [x])[0] == q[0] && (q + [x])[1..] == q[1..] + [x];
    }
  }

  lemma TraceSent(live: set<nat>, tid: seq<int>, state: seq<TaskState>, senders: seq<seq<nat>>, trace: seq<Act>, g: int,
                  t: nat, r: nat)
    requires TraceOk(live, tid, state, senders, trace, g) && t in live && r in live && PhaseOf(state[t]) == AtRest
    ensures TraceOk(live, tid, state[t := SendWait], senders[r := senders[r] + [t]], trace + [Sent(tid[t], tid[r])], g)
  {
    hide SentTo, ReceivedBy, PhaseAfter, TidsOf;
    var a := Sent(tid[t], tid[r]);
    forall v ensures PhaseAfter(trace + [a], v) != Broken { Appended(trace, a, v); }
    TidsAppend(tid, senders[r], t);
    forall x | x in live ensures InOrder(tid, state[t := SendWait], senders[r := senders[r] + [t]], trace + [a], x) {
      assert InOrder(tid, state, senders, trace, x);
      Appended(trace, a, tid[x]);
    }
  }

  lemma TraceReceived(live: set<nat>, tid: seq<int>, state: seq<TaskState>, senders: seq<seq<nat>>, trace: seq<Act>,
                      g: int, s: nat, r: nat)
    requires TraceOk(live, tid, state, senders, trace, g) && s in live && r in live && state[s] == SendWait
    requires senders[r] != [] && senders[r][0] == s
    ensures TraceOk(live, tid, state[s := ReplyWait], senders[r := senders[r][1..]], trace + [Received(tid[s], tid[r])],
      g)
  {
    hide SentTo, ReceivedBy, PhaseAfter, TidsOf;
    var a := Received(tid[s], tid[r]);
    forall v: int
      ensures PhaseAfter(trace + [a], v) != Broken
    {
      Appended(trace, a, v);
      assert InOrder(tid, state, senders, trace, s);
    }
    TidsHead(tid, senders[r]);
    forall x | x in live ensures InOrder(tid, state[s := ReplyWait], senders[r := senders[r][1..]], trace + [a], x) {
      assert InOrder(tid, state, senders, trace, x);
      Appended(trace, a, tid[x]);
      if x == r { Regroup(ReceivedBy(trace, tid[r]), [tid[s]], TidsOf(tid, senders[r][1..])); }
    }
  }

  /** A Send to a task waiting in Receive is received at once. */
  lemma TraceSentAndReceived(live: set<nat>, tid: seq<int>, state: seq<TaskState>, senders: seq<seq<nat>>,
                             trace: seq<Act>, g: int, t: nat, r: nat)
    requires TraceOk(live, tid, state, senders, trace, g) && t in live && r in live && PhaseOf(state[t]) == AtRest &&
             senders[r] == []
    ensures TraceOk(live, tid, state[t := ReplyWait], senders, trace + [Sent(tid[t], tid[r]), Received(tid[t], tid[r])],
      g)
  {
    hide InOrder, PhaseAfter;
    TraceSent(live, tid, state, senders, trace, g, t, r);
    assert [] + [t] == [t] && [t][1..] == [];
    TraceReceived(live, tid, state[t := SendWait], senders[r := [] + [t]], trace + [Sent(tid[t], tid[r])], g, t, r);
    assert state[t := SendWait][t := ReplyWait] == state[t := ReplyWait];
    assert senders[r := [] + [t]][r := []] == senders;
    assert trace + [Sent(tid[t], tid[r])] + [Received(tid[t], tid[r])] ==
      trace + [Sent(tid[t], tid[r]), Received(tid[t], tid[r])];
  }

  lemma TidsHead(tid: seq<int>, q: seq<nat>)
    requires q != [] && q[0] < |tid|
    ensures TidsOf(tid, q) == [tid[q[0]]] + TidsOf(tid, q[1..])
  {
  }

  lemma Regroup(a: seq<int>, b: seq<int>, c: seq<int>)
    ensures a + (b + c) == (a + b) + c
  {
  }

  lemma TraceReplied(live: set<nat>, tid: seq<int>, state: seq<TaskState>, senders: seq<seq<nat>>, trace: seq<Act>,
                     g: int, s: nat)
    requires TraceOk(live, tid, state, senders, trace, g) && s in live && state[s] == ReplyWait
    ensures TraceOk(live, tid, state[s := Ready], senders, trace + [Replied(tid[s])], g)
  {
    hide SentTo, ReceivedBy, PhaseAfter, TidsOf;
    var a := Replied(tid[s]);
    forall v: int
      ensures PhaseAfter(trace + [a], v) != Broken
    {
      Appended(trace, a, v);
      assert InOrder(tid, state, senders, trace, s);
    }
    forall x | x in live ensures InOrder(tid, state[s := Ready], senders, trace + [a], x) {
      assert InOrder(tid, state, senders, trace, x);
      Appended(trace, a, tid[x]);
    }
  }

  lemma TraceStays(live: set<nat>, tid: seq<int>, state: seq<TaskState>, senders: seq<seq<nat>>, trace: seq<Act>,
                   g: int, x: nat, st: TaskState)
    requires TraceOk(live, tid, state, senders, trace, g) && x < N_TASKS
    requires x in live ==> PhaseOf(state[x]) == PhaseOf(st)
    ensures TraceOk(live, tid, state[x := st], senders, trace, g)
  {
    hide SentTo, ReceivedBy, PhaseAfter, TidsOf;
    forall y | y in live
      ensures InOrder(tid, state[x := st], senders, trace, y)
    {
      assert InOrder(tid, state, senders, trace, y);
    }
  }

  /** An identifier beyond those handed out has no history. */
  lemma {:induction false} NoHistory(trace: seq<Act>, g: int, v: int)
    requires v > g && forall a :: a in trace ==> Mentions(a, g)
    ensures SentTo(trace, v) == [] && ReceivedBy(trace, v) == [] && PhaseAfter(trace, v) == AtRest
  {
    if trace != [] {
      var init := trace[..|trace| - 1];
      assert trace[|trace| - 1] in trace && forall a :: a in init ==> a in trace;
      NoHistory(init, g, v);
    }
  }

  ghost function Sends(trace: seq<Act>, v: int): nat {
    if trace == [] then 0
    else var a := trace[|trace| - 1]; Sends(trace[..|trace| - 1], v) + if a.Sent? && a.from == v then 1 else 0
  }

  ghost function Receives(trace: seq<Act>, v: int): nat {
    if trace == [] then 0
    else var a := trace[|trace| - 1]; Receives(trace[..|trace| - 1], v) + if a.Received? && a.from == v then 1 else 0
  }

  ghost function Replies(trace: seq<Act>, v: int): nat {
    if trace == [] then 0
    else var a := trace[|trace| - 1]; Replies(trace[..|trace| - 1], v) + if a.Replied? && a.from == v then 1 else 0
  }

  /** Acts in order: every Send was received once and answered once, but for the one still under way. */
  lemma {:induction false} EachSendIsAnsweredOnce(trace: seq<Act>, v: int)
    requires PhaseAfter(trace, v) != Broken
    ensures Sends(trace, v) == Receives(trace, v) + if PhaseAfter(trace, v) == Sending then 1 else 0
    ensures Receives(trace, v) == Replies(trace, v) + if PhaseAfter(trace, v) == AwaitingReply then 1 else 0
  {
    if trace != [] { EachSendIsAnsweredOnce(trace[..|trace| - 1], v); }
  }
}
