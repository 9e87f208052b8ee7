/** The queue of routing actions (track-control/src/routing.c:16-95): four integers a record on a ring buffer. */
module ActionQueue {
  import opened RingBuffer

  const SENSOR_NONE: int := -1
  const SWITCH := 0
  const SPD_CHANGE := 1
  const SPD_REACHED := 2
  const SENSOR := 3
  const MAX_RECORDS := 256

  /** A routing action.  total is the 16-bit view of the speed or of the switch number and direction; info is
      the 32-bit delay or distance. */
  datatype Action = Action(sensorNum: int, kind: int, total: nat, info: int)

  function ToInt16(x: int): (r: int)
    ensures -0x8000 <= r < 0x8000 && (r - x) % 0x1_0000 == 0
    ensures -0x8000 <= x < 0x8000 ==> r == x
  {
    (x + 0x8000) % 0x1_0000 - 0x8000
  }

  function ToUint16(x: int): (r: nat)
    ensures r < 0x1_0000 && (r - x) % 0x1_0000 == 0
    ensures 0 <= x < 0x1_0000 ==> r == x
  {
    x % 0x1_0000
  }

  ghost predicate Typed(a: Action) {
    -0x8000 <= a.sensorNum < 0x8000 && a.total < 0x1_0000
  }

  ghost function Encode(a: Action): (s: seq<int>)
    ensures |s| == 4
  {
    [a.sensorNum, a.kind, a.total, a.info]
  }

  ghost function EncodeAll(actions: seq<Action>): (s: seq<int>)
    ensures |s| == 4 * |actions|
  {
    if actions == [] then [] else Encode(actions[0]) + EncodeAll(actions[1..])
  }

  lemma {:induction false} EncodeAppend(xs: seq<Action>, ys: seq<Action>)
    ensures EncodeAll(xs + ys) == EncodeAll(xs) + EncodeAll(ys)
  {
    hide Encode;
    if xs == [] {
      assert xs + ys == ys;
    } else {
      EncodeAppend(xs[1..], ys);
      assert (xs + ys)[0] == xs[0] && (xs + ys)[1..] == xs[1..] + ys;
      var e, f := EncodeAll(xs[1..]), EncodeAll(ys);
      assert Encode(xs[0]) + (e + f) == (Encode(xs[0]) + e) + f;
    }
  }

  lemma EncodeOne(a: Action)
    ensures EncodeAll([a]) == Encode(a)
  {
    assert [a][1..] == [];
  }

  /** Reading four consecutive integers back gives the record that was written. */
  lemma CastsAreExact(a: Action)
    requires Typed(a)
    ensures Action(ToInt16(a.sensorNum), a.kind, ToUint16(a.total), a.info) == a
  {
  }

  lemma MinusOneReadsBack()
    ensures ToInt16(-1) == -1 && ToUint16(-1) == 0xFFFF && EncodeAll([]) == []
  {
  }

  /** The first four integers are the first record. */
  lemma DecodeFirst(actions: seq<Action>, a: int, b: int, c: int, d: int, rest: seq<int>)
    requires actions != [] && Typed(actions[0]) && EncodeAll(actions) == [a, b, c, d] + rest
    ensures Action(ToInt16(a), b, ToUint16(c), d) == actions[0] && rest == EncodeAll(actions[1..])
  {
    var all := EncodeAll(actions);
    assert all[..4] == Encode(actions[0]) && all[4..] == EncodeAll(actions[1..]);
    assert all[..4] == [a, b, c, d] && all[4..] == rest;
    assert all[..4][0] == a && all[..4][1] == b && all[..4][2] == c && all[..4][3] == d;
    CastsAreExact(actions[0]);
  }

  class RoutingActionQueue {
    const q: Deque
    ghost var actions: seq<Action>
    ghost const Repr: set<object> := {this, q, q.buf}

    ghost predicate Valid()
      reads this, q, q.buf
    {
      q.Valid() && q.maxSize == 1024 && q.Contents() == EncodeAll(actions) &&
      forall i :: 0 <= i < |actions| ==> Typed(actions[i])
    }

    constructor ()
      ensures Valid() && actions == [] && fresh(q) && fresh(q.buf)
    {
      q := new Deque();
      actions := [];
      new;
      assert Pow2(10) == 1024 by { assert Pow2(5) == 32; assert Pow2(7) == 128; }
      var status := q.Init(10);
    }

    predicate Empty()
      reads this, q
    {
      q.Empty()
    }

    /** Appends a record, or drops it whole when the queue is full. */
    method PushBack(action: Action)
      requires Valid() && Typed(action)
      modifies this`actions, q, q.buf
      ensures Valid()
      ensures actions == if |old(actions)| == MAX_RECORDS then old(actions) else old(actions) + [action]
    {
      hide EncodeAll, Deque.Contents;
      ghost var before := q.Contents();
      q.PushBack(action.sensorNum);
      q.PushBack(action.kind);
      q.PushBack(action.total);
      q.PushBack(action.info);
      if |actions| < MAX_RECORDS {
        assert q.Contents() == before + Encode(action);
        EncodeAppend(actions, [action]);
        EncodeOne(action);
        actions := actions + [action];
      }
    }

    /** Prepends a record, or drops it whole when the queue is full. */
    method PushFront(action: Action)
      requires Valid() && Typed(action)
      modifies this`actions, q, q.buf
      ensures Valid()
      ensures actions == if |old(actions)| == MAX_RECORDS then old(actions) else [action] + old(actions)
    {
      hide EncodeAll, Deque.Contents;
      ghost var before := q.Contents();
      q.PushFront(action.info);
      q.PushFront(action.total);
      q.PushFront(action.kind);
      q.PushFront(action.sensorNum);
      if |actions| < MAX_RECORDS {
        assert q.Contents() == Encode(action) + before;
        EncodeAppend([action], actions);
        EncodeOne(action);
        actions := [action] + actions;
      }
    }

    /** Removes the first record; from an empty queue it reads -1 in every field. */
    method PopFront() returns (action: Action)
      requires Valid()
      modifies this`actions, q
      ensures Valid()
      ensures old(actions) == [] ==> actions == [] && action == Action(-1, -1, 0xFFFF, -1)
      ensures old(actions) != [] ==> old(actions) == [action] + actions
    {
      hide EncodeAll, ToInt16, ToUint16;
      ghost var before := q.Contents();
      var a := q.PopFront();
      var b := q.PopFront();
      var c := q.PopFront();
      var d := q.PopFront();
      action := Action(ToInt16(a), b, ToUint16(c), d);
      if actions != [] {
        assert before == [a, b, c, d] + q.Contents();
        DecodeFirst(actions, a, b, c, d, q.Contents());
        actions := actions[1..];
      } else {
        MinusOneReadsBack();
      }
    }

    /** Reads the first record without removing it. */
    method Front() returns (action: Action)
      requires Valid() && actions != []
      ensures action == actions[0]
    {
      var a := q.Get(0);
      var b := q.Get(1);
      var c := q.Get(2);
      var d := q.Get(3);
      action := Action(ToInt16(a), b, ToUint16(c), d);
      CastsAreExact(actions[0]);
      assert q.Contents()[..4] == Encode(actions[0]);
      assert a == q.Contents()[..4][0] && b == q.Contents()[..4][1] && c == q.Contents()[..4][2] &&
             d == q.Contents()[..4][3];
    }
  }
}
