/** Tasks blocked on an event (kernel/src/event-queue.c): one first-in first-out list per event. */
module EventQueue {
  import opened Chains
  import opened TaskTable

  const N_EVENTS := 4

  /** Conversion of a register to int. */
  function Narrow32(v: int): (r: int)
    ensures -0x8000_0000 <= r < 0x8000_0000 && (r - v) % 0x1_0000_0000 == 0
    ensures -0x8000_0000 <= v < 0x8000_0000 ==> r == v
  {
    if v % 0x1_0000_0000 < 0x8000_0000 then v % 0x1_0000_0000 else v % 0x1_0000_0000 - 0x1_0000_0000
  }

  /** One list per event, of tasks blocked on that event. */
  ghost predicate EventsLinked(link: seq<int>, state: seq<TaskState>, x1: seq<int>, front: seq<int>, back: seq<int>,
                               waiting: seq<seq<nat>>) {
    |link| == N_TASKS && |state| == N_TASKS && |x1| == N_TASKS && |front| == N_EVENTS && |back| == N_EVENTS &&
    |waiting| == N_EVENTS &&
    (forall e: nat :: e < N_EVENTS ==> Chain(link, front[e], waiting[e]) && back[e] == LastOf(waiting[e])) &&
    (forall e: nat :: e < N_EVENTS ==> AllAwait(state, x1, waiting[e], e))
  }

  ghost predicate AllAwait(state: seq<TaskState>, x1: seq<int>, q: seq<nat>, e: nat) {
    forall x :: x in q ==> x < |state| && x < |x1| && state[x] == EventWait && Narrow32(x1[x]) == e
  }

  /** A task blocks on event e, which its call names. */
  lemma BlockLinks(link: seq<int>, state: seq<TaskState>, x1: seq<int>, front: seq<int>, back: seq<int>,
                   waiting: seq<seq<nat>>, x: nat, e: nat)
    requires EventsLinked(link, state, x1, front, back, waiting)
    requires x < N_TASKS && e < N_EVENTS && state[x] != EventWait && link[x] == NULL && Narrow32(x1[x]) == e
    ensures back[e] != NULL ==> 0 <= back[e] < N_TASKS
    ensures EventsLinked(if back[e] == NULL then link else link[back[e] := x], state[x := EventWait], x1,
                         if back[e] == NULL then front[e := x] else front, back[e := x], waiting[e := waiting[e] + [x]])
  {
    hide Chain, Narrow32, AllAwait;
    NotAwaiting(state, x1, waiting, x);
    ChainMembers(link, front[e], waiting[e]);
    assert waiting[e] != [] ==> LastOf(waiting[e]) in waiting[e];
    var link' := if back[e] == NULL then link else link[back[e] := x];
    ChainAppend(link, front[e], waiting[e], x);
    assert link[x := NULL] == link;
    forall r: nat | r < N_EVENTS && r != e ensures Chain(link', front[r], waiting[r]) {
      if back[e] != NULL {
        DifferentLists(state, x1, waiting, e, r);
        ChainOther(link, front[r], waiting[r], back[e], x);
      }
    }
    var waiting' := waiting[e := waiting[e] + [x]];
    forall r: nat | r < N_EVENTS ensures AllAwait(state[x := EventWait], x1, waiting'[r], r) {
      AwaitMore(state, x1, waiting[r], r, x);
    }
  }

  lemma NotAwaiting(state: seq<TaskState>, x1: seq<int>, waiting: seq<seq<nat>>, x: nat)
    requires forall e: nat :: e < |waiting| ==> AllAwait(state, x1, waiting[e], e)
    requires x < |state| && state[x] != EventWait
    ensures forall e: nat :: e < |waiting| ==> x !in waiting[e]
  {
    hide Narrow32;
  }

  /** The last task of one list is in no other. */
  lemma DifferentLists(state: seq<TaskState>, x1: seq<int>, waiting: seq<seq<nat>>, e: nat, r: nat)
    requires forall e: nat :: e < |waiting| ==> AllAwait(state, x1, waiting[e], e)
    requires e < |waiting| && r < |waiting| && e != r
    ensures waiting[e] != [] ==> 0 <= LastOf(waiting[e]) < |state| && LastOf(waiting[e]) !in waiting[r]
  {
    hide Narrow32;
    assert waiting[e] != [] ==> LastOf(waiting[e]) in waiting[e];
    assert AllAwait(state, x1, waiting[e], e) && AllAwait(state, x1, waiting[r], r);
  }

  lemma AwaitMore(state: seq<TaskState>, x1: seq<int>, q: seq<nat>, e: nat, x: nat)
    requires AllAwait(state, x1, q, e) && x < |state| && x < |x1|
    ensures AllAwait(state[x := EventWait], x1, q, e)
    ensures Narrow32(x1[x]) == e ==> AllAwait(state[x := EventWait], x1, q + [x], e)
  {
    hide Narrow32;
  }

  /** The first task blocked on event e is released. */
  lemma UnblockLinks(link: seq<int>, state: seq<TaskState>, x1: seq<int>, front: seq<int>, back: seq<int>,
                     waiting: seq<seq<nat>>, e: nat)
    requires EventsLinked(link, state, x1, front, back, waiting) && e < N_EVENTS && front[e] != NULL
    ensures 0 <= front[e] < N_TASKS && waiting[e] != [] && front[e] == waiting[e][0]
    ensures var h := front[e];
      EventsLinked(link[h := NULL], state[h := Ready], x1, front[e := link[h]],
                   if link[h] == NULL then back[e := NULL] else back, waiting[e := waiting[e][1..]])
  {
    hide Chain, Narrow32;
    var q := waiting[e];
    ChainMembers(link, front[e], q);
    var h: nat := front[e];
    ChainTail(link, h, q);
    ChainMembers(link, link[h], q[1..]);
    ChainOther(link, link[h], q[1..], h, NULL);
    assert q == [h] + q[1..];
    assert AllAwait(state[h := Ready], x1, q[1..], e) by { forall x | x in q[1..] ensures x in q && x != h { } }
    forall r: nat | r < N_EVENTS && r != e ensures Chain(link[h := NULL], front[r], waiting[r]) && h !in waiting[r] {
      assert h in q;
      ChainOther(link, front[r], waiting[r], h, NULL);
    }
  }

  class Queue {
    const t: Tasks
    var front: seq<int>
    var back: seq<int>
    ghost var waiting: seq<seq<nat>>

    ghost predicate Valid()
      reads this, t
    {
      t.Sized() && EventsLinked(t.eventWaitNext, t.state, t.x1, front, back, waiting)
    }

    constructor (tasks: Tasks)
      requires tasks.Sized()
      ensures Valid() && t == tasks && forall e: nat :: e < N_EVENTS ==> waiting[e] == []
    {
      t := tasks;
      front, back := seq(N_EVENTS, i => NULL), seq(N_EVENTS, i => NULL);
      waiting := seq(N_EVENTS, i => []);
    }

    /** event_queue_block. */
    method Block(task: nat, e: int) returns (ok: bool)
      requires Valid() && task < N_TASKS && t.state[task] != EventWait && t.eventWaitNext[task] == NULL
      requires e == Narrow32(t.x1[task])
      modifies this, t`eventWaitNext, t`state
      ensures Valid() && (ok <==> 0 <= e < N_EVENTS)
      ensures !ok ==> waiting == old(waiting) && t.state == old(t.state) && t.eventWaitNext == old(t.eventWaitNext)
      ensures ok ==>
        waiting == old(waiting)[e := old(waiting)[e] + [task]] && t.state == old(t.state)[task := EventWait]
      ensures ok ==> forall y: nat :: y < N_TASKS && old(t.state[y]) != EventWait ==>
        t.eventWaitNext[y] == old(t.eventWaitNext[y])
    {
      hide Chain, Narrow32, EventsLinked;
      if 0 <= e < N_EVENTS {
        FrontIsHead(t.eventWaitNext, t.state, t.x1, front, back, waiting, e);
        BlockLinks(t.eventWaitNext, t.state, t.x1, front, back, waiting, task, e);
        if back[e] == NULL {
          front := front[e := task];
        } else {
          t.eventWaitNext := t.eventWaitNext[back[e] := task];
        }
        back := back[e := task];
        waiting := waiting[e := waiting[e] + [task]];
        t.state := t.state[task := EventWait];
        return true;
      }
      return false;
    }

    /** event_queue_unblock_one. */
    method UnblockOne(e: nat, retval: int) returns (ok: bool)
      requires Valid() && e < N_EVENTS
      modifies this, t`eventWaitNext, t`state, t`x0
      ensures Valid() && (ok <==> old(waiting)[e] != [])
      ensures !ok ==>
        waiting == old(waiting) && t.state == old(t.state) && t.eventWaitNext == old(t.eventWaitNext) &&
          t.x0 == old(t.x0)
      ensures ok ==> old(waiting)[e][0] < N_TASKS && waiting == old(waiting)[e := old(waiting)[e][1..]]
      ensures ok ==>
        t.state == old(t.state)[old(waiting)[e][0] := Ready] && t.x0 == old(t.x0)[old(waiting)[e][0] := retval]
      ensures ok ==> t.eventWaitNext == old(t.eventWaitNext)[old(waiting)[e][0] := NULL]
    {
      hide Chain, Narrow32, EventsLinked;
      FrontIsHead(t.eventWaitNext, t.state, t.x1, front, back, waiting, e);
      var head := front[e];
      if head == NULL { return false; }
      UnblockLinks(t.eventWaitNext, t.state, t.x1, front, back, waiting, e);
      front := front[e := t.eventWaitNext[head]];
      if t.eventWaitNext[head] == NULL {
        back := back[e := NULL];
        assert t.eventWaitNext[head := NULL] == t.eventWaitNext;
      } else {
        t.eventWaitNext := t.eventWaitNext[head := NULL];
      }
      waiting := waiting[e := waiting[e][1..]];
      t.x0 := t.x0[head := retval];
      t.state := t.state[head := Ready];
      return true;
    }

    /** event_queue_unblock_all. */
    method UnblockAll(e: nat, retval: int) returns (ok: bool)
      requires Valid() && e < N_EVENTS
      modifies this, t`eventWaitNext, t`state, t`x0
      ensures Valid() && (ok <==> old(waiting)[e] != [])
      ensures waiting == old(waiting)[e := []]
      ensures forall x: nat :: x < N_TASKS ==>
                t.state[x] == (if x in old(waiting)[e] then Ready else old(t.state[x])) &&
                t.x0[x] == (if x in old(waiting)[e] then retval else old(t.x0[x])) &&
                t.eventWaitNext[x] == if x in old(waiting)[e] then NULL else old(t.eventWaitNext[x])
    {
      hide Chain, Narrow32, EventsLinked;
      FrontIsHead(t.eventWaitNext, t.state, t.x1, front, back, waiting, e);
      if front[e] == NULL { assert waiting[e := []] == waiting; return false; }
      ghost var q, k: nat := waiting[e], 0;
      assert q[0..] == q && q[..0] == [];
      var more := true;
      while more
        invariant Valid() && k <= |q| && waiting == old(waiting)[e := q[k..]] && (more || k == |q|)
        invariant forall x: nat :: x < N_TASKS ==>
          t.state[x] == (if x in q[..k] then Ready else old(t.state[x])) &&
          t.x0[x] == (if x in q[..k] then retval else old(t.x0[x])) &&
          t.eventWaitNext[x] == if x in q[..k] then NULL else old(t.eventWaitNext[x])
        decreases |q| - k, more
      {
        FrontIsHead(t.eventWaitNext, t.state, t.x1, front, back, waiting, e);
        more := UnblockOne(e, retval);
        if more {
          assert q[..k + 1] == q[..k] + [q[k]] && q[k..][1..] == q[k + 1..];
          k := k + 1;
        }
      }
      assert q[..k] == q && q[k..] == [];
      return true;
    }
  }

  lemma FrontIsHead(link: seq<int>, state: seq<TaskState>, x1: seq<int>, front: seq<int>, back: seq<int>,
                    waiting: seq<seq<nat>>, e: nat)
    requires EventsLinked(link, state, x1, front, back, waiting) && e < N_EVENTS
    ensures |front| == N_EVENTS && |back| == N_EVENTS && |waiting| == N_EVENTS && front[e] == HeadOf(waiting[e])
    ensures back[e] != NULL ==> 0 <= back[e] < N_TASKS && state[back[e]] == EventWait
  {
    hide Chain, Narrow32;
    ChainMembers(link, front[e], waiting[e]);
  }
}
