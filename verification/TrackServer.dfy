/** The track reservation server (track-control/src/track-server.c): a table of segment owners and one request
    record per train. */
module TrackServer {

  const N_SEGMENTS := 31
  const N_TRNS := 3

  datatype TrainState = Idle | Blocked | BlockedTimeout | BlockedTwo | BlockedTimeoutTwo

  datatype TrainData = TrainData(state: TrainState, trainNo: nat, requesterTid: int, segments: seq<nat>,
                                 second: seq<nat>, allRequired: bool, notifierTid: int, timeout: nat)

  datatype Kind =
    | AskFree | AllTimeout | AllNoTimeout | OneTimeout | OneNoTimeout | AndOrTimeout | AndOrNoTimeout
    | FreeSegments | FreeAll | Register | Notif | Other

  datatype Msg = Msg(kind: Kind, trainNo: nat, segments: seq<nat>, second: seq<nat>, timeout: nat)

  /** What the server does to the outside: a segment's owner is shown, or a task gets its reply. */
  datatype Event =
    | Update(segment: nat, owner: nat)
    | Success(tid: int) | Fail(tid: int) | Granted(tid: int, segment: nat)
    | StartTimer(tid: int, trainNo: nat, timeout: nat) | Error(tid: int) | Empty(tid: int)

  type Table = seq<nat>

  datatype State = State(table: Table, trains: seq<TrainData>)
  datatype Outcome = Outcome(state: State, out: seq<Event>)

  function TrnHash(trainNo: nat): int {
    if trainNo == 24 then 0 else if trainNo == 58 then 1 else if trainNo == 77 then 2 else -1
  }

  predicate ValidSegments(segments: seq<nat>) {
    forall i :: 0 <= i < |segments| ==> segments[i] < N_SEGMENTS
  }

  predicate Shaped(s: State) {
    |s.table| == N_SEGMENTS && |s.trains| == N_TRNS &&
    forall i :: 0 <= i < N_TRNS ==> ValidSegments(s.trains[i].segments) && ValidSegments(s.trains[i].second)
  }

  /** What the server takes for granted about a message: segment numbers in range, a segment where one is read,
      and a known train where the train's record is used. */
  predicate WellFormedMsg(m: Msg) {
    ValidSegments(m.segments) && ValidSegments(m.second) &&
    (m.kind == AskFree || m.kind == Register ==> m.segments != []) &&
    (UsesRecord(m) ==> TrnHash(m.trainNo) >= 0)
  }

  predicate UsesRecord(m: Msg) {
    match m.kind
    case AskFree => false
    case FreeSegments => false
    case Register => false
    case Other => false
    case Notif => m.trainNo != 0
    case _ => true
  }

  // ----- the table operations -----

  predicate Available(table: Table, segment: nat, t: nat)
    requires segment < |table|
  {
    table[segment] == 0 || table[segment] == t
  }

  ghost predicate AllAvailable(table: Table, segments: seq<nat>, t: nat)
    requires |table| == N_SEGMENTS && ValidSegments(segments)
  {
    forall i :: 0 <= i < |segments| ==> Available(table, segments[i], t)
  }

  ghost predicate Owns(table: Table, segments: seq<nat>, t: nat)
    requires |table| == N_SEGMENTS && ValidSegments(segments)
  {
    forall i :: 0 <= i < |segments| ==> table[segments[i]] == t
  }

  ghost function LockAll(table: Table, segments: seq<nat>, t: nat): (r: Table)
    requires |table| == N_SEGMENTS && ValidSegments(segments)
    ensures |r| == N_SEGMENTS
  {
    seq(N_SEGMENTS, i requires 0 <= i < N_SEGMENTS => if i in segments then t else table[i])
  }

  ghost function FreeOwned(table: Table, segments: seq<nat>, t: nat): (r: Table)
    requires |table| == N_SEGMENTS && ValidSegments(segments)
    ensures |r| == N_SEGMENTS
  {
    seq(N_SEGMENTS, i requires 0 <= i < N_SEGMENTS => if i in segments && table[i] == t then 0 else table[i])
  }

  /** First available segment of the list from position i on, or -1. */
  ghost function FirstAvailable(table: Table, segments: seq<nat>, t: nat, i: nat): (r: int)
    requires |table| == N_SEGMENTS && ValidSegments(segments) && i <= |segments|
    ensures r == -1 || (0 <= r < N_SEGMENTS && r in segments && Available(table, r, t))
    ensures r == -1 <==> forall k :: i <= k < |segments| ==> !Available(table, segments[k], t)
    decreases |segments| - i
  {
    if i == |segments| then -1
    else if Available(table, segments[i], t) then segments[i]
    else FirstAvailable(table, segments, t, i + 1)
  }

  /** Could the table grant the stored request now? */
  ghost predicate Grantable(table: Table, d: TrainData)
    requires |table| == N_SEGMENTS && ValidSegments(d.segments)
  {
    if d.allRequired then AllAvailable(table, d.segments, d.trainNo)
    else exists k :: 0 <= k < |d.segments| && Available(table, d.segments[k], d.trainNo)
  }

  // ----- one message -----

  ghost function LockEvents(segments: seq<nat>, t: nat): (out: seq<Event>)
    ensures |out| == |segments|
  {
    seq(|segments|, i requires 0 <= i < |segments| => Update(segments[i], t))
  }

  /** The segments that FREE_SEGMENTS clears, in list order; a repeated segment is cleared once. */
  ghost function FreeEvents(table: Table, segments: seq<nat>, t: nat, n: nat): seq<Event>
    requires |table| == N_SEGMENTS && ValidSegments(segments) && n <= |segments|
  {
    if n == 0 then []
    else
      FreeEvents(table, segments, t, n - 1) +
      (if FreeOwned(table, segments[..n - 1], t)[segments[n - 1]] == t then [Update(segments[n - 1], 0)] else [])
  }

  function Stored(d: TrainData, sender: int, m: Msg, state: TrainState, all: bool): TrainData {
    d.(state := state, trainNo := m.trainNo, requesterTid := sender, segments := m.segments, second := m.second,
       allRequired := all, timeout := m.timeout % 0x1_0000)
  }

  /** A refused request is remembered; with a timeout its notifier is started. */
  ghost function Refused(s: State, h: nat, sender: int, m: Msg, state: TrainState, all: bool): (o: Outcome)
    requires Shaped(s) && h < N_TRNS
    ensures ValidSegments(m.segments) && ValidSegments(m.second) ==> Shaped(o.state)
  {
    var d := Stored(s.trains[h], sender, m, state, all);
    Outcome(s.(trains := s.trains[h := d]),
            if state == BlockedTimeout || state == BlockedTimeoutTwo
            then [StartTimer(d.notifierTid, d.trainNo, d.timeout)] else [])
  }

  /** The segments are taken for t, train record h becomes idle and the given reply is sent. */
  ghost function Taken(s: State, h: nat, segments: seq<nat>, t: nat, reply: Event): (o: Outcome)
    requires Shaped(s) && h < N_TRNS && ValidSegments(segments)
    ensures Shaped(o.state)
  {
    Outcome(State(LockAll(s.table, segments, t), s.trains[h := s.trains[h].(state := Idle)]),
            LockEvents(segments, t) + [reply])
  }

  ghost function StepAll(s: State, sender: int, m: Msg): (o: Outcome)
    requires Shaped(s) && ValidSegments(m.segments) && ValidSegments(m.second) && TrnHash(m.trainNo) >= 0
    ensures Shaped(o.state)
  {
    var h := TrnHash(m.trainNo);
    if AllAvailable(s.table, m.segments, m.trainNo)
    then Taken(s, h, m.segments, m.trainNo, Success(sender))
    else Refused(s, h, sender, m, if m.kind == AllTimeout then BlockedTimeout else Blocked, true)
  }

  ghost function StepOne(s: State, sender: int, m: Msg): (o: Outcome)
    requires Shaped(s) && ValidSegments(m.segments) && ValidSegments(m.second) && TrnHash(m.trainNo) >= 0
    ensures Shaped(o.state)
  {
    var h := TrnHash(m.trainNo);
    var x := FirstAvailable(s.table, m.segments, m.trainNo, 0);
    if x != -1
    then Taken(s, h, [x], m.trainNo, Granted(sender, x))
    else Refused(s, h, sender, m, if m.kind == OneTimeout then BlockedTimeout else Blocked, false)
  }

  ghost function StepAndOr(s: State, sender: int, m: Msg): (o: Outcome)
    requires Shaped(s) && ValidSegments(m.segments) && ValidSegments(m.second) && TrnHash(m.trainNo) >= 0
    ensures Shaped(o.state)
  {
    var h := TrnHash(m.trainNo);
    if AllAvailable(s.table, m.segments, m.trainNo) then Taken(s, h, m.segments, m.trainNo, Granted(sender, 0))
    else if AllAvailable(s.table, m.second, m.trainNo) then Taken(s, h, m.second, m.trainNo, Granted(sender, 1))
    else Refused(s, h, sender, m, if m.kind == AndOrTimeout then BlockedTimeoutTwo else BlockedTwo, true)
  }

  /** The scan's look at train record i after train m.trainNo freed segments.  A two-set request is retried with
      the lists and the train of the incoming message, not with its own. */
  ghost function ScanOne(s: State, m: Msg, i: nat): (o: Outcome)
    requires Shaped(s) && ValidSegments(m.segments) && ValidSegments(m.second) && i < N_TRNS
    ensures Shaped(o.state)
  {
    var d := s.trains[i];
    if d.trainNo == m.trainNo then Outcome(s, [])
    else if d.state == Blocked && d.allRequired then
      if AllAvailable(s.table, d.segments, d.trainNo)
      then Taken(s, i, d.segments, d.trainNo, Success(d.requesterTid)) else Outcome(s, [])
    else if d.state == Blocked then
      var x := FirstAvailable(s.table, d.segments, d.trainNo, 0);
      if x != -1 then Taken(s, i, [x], d.trainNo, Granted(d.requesterTid, x)) else Outcome(s, [])
    else if d.state == BlockedTwo then
      if AllAvailable(s.table, m.segments, m.trainNo)
      then Taken(s, i, m.segments, m.trainNo, Granted(d.requesterTid, 0))
      else if AllAvailable(s.table, m.second, m.trainNo)
      then Taken(s, i, m.second, m.trainNo, Granted(d.requesterTid, 1))
      else Outcome(s, [])
    else Outcome(s, [])
  }

  ghost function ScanTo(s: State, m: Msg, n: nat): (o: Outcome)
    requires Shaped(s) && ValidSegments(m.segments) && ValidSegments(m.second) && n <= N_TRNS
    ensures Shaped(o.state)
  {
    if n == 0 then Outcome(s, [])
    else
      var before := ScanTo(s, m, n - 1);
      var last := ScanOne(before.state, m, n - 1);
      Outcome(last.state, before.out + last.out)
  }

  ghost function AfterFree(s: State, m: Msg): (r: State)
    requires Shaped(s) && ValidSegments(m.segments)
    ensures Shaped(r)
  {
    s.(table := FreeOwned(s.table, m.segments, m.trainNo))
  }

  ghost function StepFree(s: State, sender: int, m: Msg): (o: Outcome)
    requires Shaped(s) && ValidSegments(m.segments) && ValidSegments(m.second)
    ensures Shaped(o.state)
  {
    var scanned := ScanTo(AfterFree(s, m), m, N_TRNS);
    Outcome(scanned.state,
            FreeEvents(s.table, m.segments, m.trainNo, |m.segments|) + [Success(sender)] + scanned.out)
  }

  /** A request's timer fired: one last try, answered in every case.  Again a two-set request is retried with
      the message's lists. */
  ghost function StepNotif(s: State, m: Msg): (o: Outcome)
    requires Shaped(s) && ValidSegments(m.segments) && ValidSegments(m.second) && TrnHash(m.trainNo) >= 0
    ensures Shaped(o.state)
  {
    var h := TrnHash(m.trainNo);
    var d := s.trains[h];
    if d.state == Idle then Outcome(s, [])
    else if d.state == BlockedTimeoutTwo then
      if AllAvailable(s.table, m.segments, m.trainNo)
      then Taken(s, h, m.segments, m.trainNo, Granted(d.requesterTid, 0))
      else if AllAvailable(s.table, m.second, m.trainNo)
      then Taken(s, h, m.second, m.trainNo, Granted(d.requesterTid, 1))
      else GivenUp(s, h)
    else if d.allRequired then
      if AllAvailable(s.table, d.segments, d.trainNo)
      then Taken(s, h, d.segments, d.trainNo, Success(d.requesterTid)) else GivenUp(s, h)
    else
      var x := FirstAvailable(s.table, d.segments, d.trainNo, 0);
      if x != -1 then Taken(s, h, [x], d.trainNo, Granted(d.requesterTid, x)) else GivenUp(s, h)
  }

  ghost function GivenUp(s: State, h: nat): (o: Outcome)
    requires Shaped(s) && h < N_TRNS
    ensures Shaped(o.state)
  {
    Outcome(s.(trains := s.trains[h := s.trains[h].(state := Idle)]), [Fail(s.trains[h].requesterTid)])
  }

  /** FREE_ALL clears the first n segments that t holds, except one it may keep. */
  ghost function Cleared(table: Table, t: nat, keep: int, n: nat): (r: Table)
    requires |table| == N_SEGMENTS && n <= N_SEGMENTS
    ensures |r| == N_SEGMENTS
  {
    seq(N_SEGMENTS, i requires 0 <= i < N_SEGMENTS => if i < n && table[i] == t && i != keep then 0 else table[i])
  }

  ghost function ClearEvents(table: Table, t: nat, keep: int, n: nat): seq<Event>
    requires |table| == N_SEGMENTS && n <= N_SEGMENTS
  {
    if n == 0 then []
    else ClearEvents(table, t, keep, n - 1) + (if table[n - 1] == t && n - 1 != keep then [Update(n - 1, 0)] else [])
  }

  function Kept(m: Msg): int {
    if |m.segments| == 1 then m.segments[0] else -1
  }

  ghost function StepFreeAll(s: State, sender: int, m: Msg): (o: Outcome)
    requires Shaped(s) && TrnHash(m.trainNo) >= 0
    ensures Shaped(o.state)
  {
    var h := TrnHash(m.trainNo);
    Outcome(State(Cleared(s.table, m.trainNo, Kept(m), N_SEGMENTS), s.trains[h := s.trains[h].(state := Idle)]),
            ClearEvents(s.table, m.trainNo, Kept(m), N_SEGMENTS) + [Empty(sender)])
  }

  ghost function Step(s: State, sender: int, m: Msg): (o: Outcome)
    requires Shaped(s) && WellFormedMsg(m)
    ensures Shaped(o.state)
  {
    match m.kind
    case AskFree => Outcome(s, [if s.table[m.segments[0]] == 0 then Success(sender) else Fail(sender)])
    case AllTimeout => StepAll(s, sender, m)
    case AllNoTimeout => StepAll(s, sender, m)
    case OneTimeout => StepOne(s, sender, m)
    case OneNoTimeout => StepOne(s, sender, m)
    case AndOrTimeout => StepAndOr(s, sender, m)
    case AndOrNoTimeout => StepAndOr(s, sender, m)
    case FreeSegments => StepFree(s, sender, m)
    case FreeAll => StepFreeAll(s, sender, m)
    case Register =>
      Outcome(s.(table := s.table[m.segments[0] := m.trainNo]), [Update(m.segments[0], m.trainNo), Empty(sender)])
    case Notif => if m.trainNo == 0 then Outcome(s, []) else StepNotif(s, m)
    case Other => Outcome(s, [Error(sender)])
  }

  // ----- replaying what was shown -----

  /** Owners as shown after a list of events. */
  ghost function Replay(table: Table, out: seq<Event>): (r: Table)
    requires |table| == N_SEGMENTS
    ensures |r| == N_SEGMENTS
    decreases |out|
  {
    if out == [] then table
    else
      var before := Replay(table, out[..|out| - 1]);
      match out[|out| - 1]
      case Update(segment, owner) => if segment < N_SEGMENTS then before[segment := owner] else before
      case _ => before
  }

  /** Every change shown is lawful at its time: a segment is taken only when it is free or already its taker's,
      and cleared only for the train t whose message frees it. */
  ghost predicate Lawful(table: Table, out: seq<Event>, freeing: bool, t: nat)
    requires |table| == N_SEGMENTS
  {
    forall i :: 0 <= i < |out| && out[i].Update? ==>
      out[i].segment < N_SEGMENTS &&
      var owner := Replay(table, out[..i])[out[i].segment];
      if out[i].owner == 0 then freeing && owner == t else owner == 0 || owner == out[i].owner
  }

  /** An outcome whose table is what its events show, each lawfully. */
  ghost predicate Sound(table: Table, o: Outcome, freeing: bool, t: nat)
    requires |table| == N_SEGMENTS
  {
    Replay(table, o.out) == o.state.table && Lawful(table, o.out, freeing, t)
  }

  lemma {:induction false} ReplayAppend(table: Table, a: seq<Event>, b: seq<Event>)
    requires |table| == N_SEGMENTS
    ensures Replay(table, a + b) == Replay(Replay(table, a), b)
    decreases |b|
  {
    if b == [] {
      assert a + b == a;
    } else {
      ReplayAppend(table, a, b[..|b| - 1]);
      assert (a + b)[..|a + b| - 1] == a + b[..|b| - 1];
      assert (a + b)[|a + b| - 1] == b[|b| - 1];
    }
  }

  lemma LawfulAppend(table: Table, a: seq<Event>, b: seq<Event>, freeing: bool, t: nat)
    requires |table| == N_SEGMENTS && Lawful(table, a, freeing, t) && Lawful(Replay(table, a), b, freeing, t)
    ensures Lawful(table, a + b, freeing, t)
  {
    var c := a + b;
    forall i | 0 <= i < |c| && c[i].Update?
      ensures c[i].segment < N_SEGMENTS &&
        var owner := Replay(table, c[..i])[c[i].segment];
        if c[i].owner == 0 then freeing && owner == t else owner == 0 || owner == c[i].owner
    {
      if i < |a| {
        assert c[..i] == a[..i] && c[i] == a[i];
      } else {
        var j := i - |a|;
        assert c[..i] == a + b[..j] && c[i] == b[j];
        ReplayAppend(table, a, b[..j]);
      }
    }
  }

  /** Replies show nothing. */
  lemma RepliesShowNothing(table: Table, e: Event, freeing: bool, t: nat)
    requires |table| == N_SEGMENTS && !e.Update?
    ensures Replay(table, [e]) == table && Lawful(table, [e], freeing, t)
    ensures Replay(table, []) == table && Lawful(table, [], freeing, t)
  {
    assert [e][..0] == [];
  }

  lemma LockAllSnoc(table: Table, segments: seq<nat>, t: nat, n: nat)
    requires |table| == N_SEGMENTS && ValidSegments(segments) && n < |segments|
    ensures LockAll(table, segments[..n + 1], t) == LockAll(table, segments[..n], t)[segments[n] := t]
  {
    assert segments[..n + 1] == segments[..n] + [segments[n]];
  }

  /** Taking available segments one after the other is lawful and leads to LockAll. */
  lemma {:induction false} LockEventsSound(table: Table, segments: seq<nat>, t: nat, n: nat, freeing: bool, u: nat)
    requires |table| == N_SEGMENTS && ValidSegments(segments) && AllAvailable(table, segments, t) && n <= |segments|
    requires t == 0 ==> freeing && u == 0
    ensures Replay(table, LockEvents(segments, t)[..n]) == LockAll(table, segments[..n], t)
    ensures Lawful(table, LockEvents(segments, t)[..n], freeing, u)
  {
    var out := LockEvents(segments, t);
    if n == 0 {
      assert out[..0] == [] && segments[..0] == [];
      assert LockAll(table, [], t) == table;
    } else {
      LockEventsSound(table, segments, t, n - 1, freeing, u);
      assert out[..n] == out[..n - 1] + [out[n - 1]];
      assert out[..n][..n - 1] == out[..n - 1];
      LockAllSnoc(table, segments, t, n - 1);
      assert Available(table, segments[n - 1], t);
      OneUpdate(LockAll(table, segments[..n - 1], t), out[n - 1], freeing, u);
      LawfulAppend(table, out[..n - 1], [out[n - 1]], freeing, u);
    }
  }

  lemma OneUpdate(table: Table, e: Event, freeing: bool, u: nat)
    requires |table| == N_SEGMENTS && e.Update? && e.segment < N_SEGMENTS
    requires if e.owner == 0 then freeing &&
             table[e.segment] == u else table[e.segment] == 0 || table[e.segment] == e.owner
    ensures Lawful(table, [e], freeing, u) && Replay(table, [e]) == table[e.segment := e.owner]
  {
    assert [e][..0] == [];
  }

  lemma FreeOwnedSnoc(table: Table, segments: seq<nat>, t: nat, n: nat)
    requires |table| == N_SEGMENTS && ValidSegments(segments) && n < |segments|
    ensures var before := FreeOwned(table, segments[..n], t);
      FreeOwned(table, segments[..n + 1], t) ==
        if before[segments[n]] == t then before[segments[n] := 0] else before
  {
    assert segments[..n + 1] == segments[..n] + [segments[n]];
  }

  lemma FreeNothing(table: Table, t: nat)
    requires |table| == N_SEGMENTS
    ensures FreeOwned(table, [], t) == table
  {
  }

  lemma {:induction false} FreeEventsSound(table: Table, segments: seq<nat>, t: nat, n: nat)
    requires |table| == N_SEGMENTS && ValidSegments(segments) && n <= |segments|
    ensures Replay(table, FreeEvents(table, segments, t, n)) == FreeOwned(table, segments[..n], t)
    ensures Lawful(table, FreeEvents(table, segments, t, n), true, t)
  {
    hide Replay, Lawful, FreeOwned;
    RepliesShowNothing(table, Empty(0), true, t);
    if n == 0 {
      assert segments[..0] == [];
      FreeNothing(table, t);
    } else {
      FreeEventsSound(table, segments, t, n - 1);
      FreeOwnedSnoc(table, segments, t, n - 1);
      var before := FreeOwned(table, segments[..n - 1], t);
      var a := FreeEvents(table, segments, t, n - 1);
      if before[segments[n - 1]] == t {
        var e := Update(segments[n - 1], 0);
        OneUpdate(before, e, true, t);
        ReplayAppend(table, a, [e]);
        LawfulAppend(table, a, [e], true, t);
      } else {
        assert a + [] == a;
      }
    }
  }

  lemma ClearedSnoc(table: Table, t: nat, keep: int, n: nat)
    requires |table| == N_SEGMENTS && n < N_SEGMENTS
    ensures Cleared(table, t, keep, n + 1) ==
      if table[n] == t && n != keep then Cleared(table, t, keep, n)[n := 0] else Cleared(table, t, keep, n)
    ensures Cleared(table, t, keep, n)[n] == table[n]
  {
  }

  lemma {:induction false} ClearEventsSound(table: Table, t: nat, keep: int, n: nat)
    requires |table| == N_SEGMENTS && n <= N_SEGMENTS
    ensures Replay(table, ClearEvents(table, t, keep, n)) == Cleared(table, t, keep, n)
    ensures Lawful(table, ClearEvents(table, t, keep, n), true, t)
  {
    if n == 0 {
      assert Cleared(table, t, keep, 0) == table;
    } else {
      ClearEventsSound(table, t, keep, n - 1);
      ClearedSnoc(table, t, keep, n - 1);
      var a := ClearEvents(table, t, keep, n - 1);
      if table[n - 1] == t && n - 1 != keep {
        var e := Update(n - 1, 0);
        OneUpdate(Cleared(table, t, keep, n - 1), e, true, t);
        ReplayAppend(table, a, [e]);
        LawfulAppend(table, a, [e], true, t);
      } else {
        assert a + [] == a;
      }
    }
  }

  lemma TakenSound(s: State, h: nat, segments: seq<nat>, t: nat, reply: Event, freeing: bool, u: nat)
    requires Shaped(s) && h < N_TRNS && ValidSegments(segments) && AllAvailable(s.table, segments, t)
    requires !reply.Update? && (t == 0 ==> freeing && u == 0)
    ensures Sound(s.table, Taken(s, h, segments, t, reply), freeing, u)
  {
    hide LockAll, Lawful, Replay;
    var out := LockEvents(segments, t);
    LockEventsSound(s.table, segments, t, |segments|, freeing, u);
    assert out[..|out|] == out && segments[..|segments|] == segments;
    RepliesShowNothing(LockAll(s.table, segments, t), reply, freeing, u);
    ReplayAppend(s.table, out, [reply]);
    LawfulAppend(s.table, out, [reply], freeing, u);
  }

  lemma OneReplySound(s: State, o: Outcome, freeing: bool, u: nat)
    requires |s.table| == N_SEGMENTS && o.state.table == s.table
    requires o.out == [] || (|o.out| == 1 && !o.out[0].Update?)
    ensures Sound(s.table, o, freeing, u)
  {
    if o.out != [] { RepliesShowNothing(s.table, o.out[0], freeing, u); assert o.out == [o.out[0]]; }
    else { RepliesShowNothing(s.table, Empty(0), freeing, u); }
  }

  lemma SoundSeq(table: Table, a: Outcome, b: Outcome, c: Outcome, freeing: bool, u: nat)
    requires |table| == N_SEGMENTS && Sound(table, a, freeing, u)
    requires |a.state.table| == N_SEGMENTS && Sound(a.state.table, b, freeing, u)
    requires c.out == a.out + b.out && c.state.table == b.state.table
    ensures Sound(table, c, freeing, u)
  {
    ReplayAppend(table, a.out, b.out);
    LawfulAppend(table, a.out, b.out, freeing, u);
  }

  // ----- the records of the trains -----

  /** Record i is unused or belongs to the train that hashes to it; a waiting record does belong to one. */
  ghost predicate Known(d: TrainData, i: nat) {
    (d.trainNo == 0 || TrnHash(d.trainNo) == i) && (d.state != Idle ==> d.trainNo != 0)
  }

  ghost predicate Inv(s: State) {
    Shaped(s) && forall i :: 0 <= i < N_TRNS ==> Known(s.trains[i], i)
  }

  ghost predicate NoLostWakeUp(s: State)
    requires Shaped(s)
  {
    forall i :: 0 <= i < N_TRNS && s.trains[i].state == Blocked ==> !Grantable(s.table, s.trains[i])
  }

  lemma ScanOneSound(s: State, m: Msg, i: nat)
    requires Inv(s) && ValidSegments(m.segments) && ValidSegments(m.second) && i < N_TRNS
    ensures Sound(s.table, ScanOne(s, m, i), true, m.trainNo)
    ensures Inv(ScanOne(s, m, i).state)
  {
    hide AllAvailable, Sound, Taken, LockAll;
    var d := s.trains[i];
    OneReplySound(s, Outcome(s, []), true, m.trainNo);
    assert Known(d, i);
    if d.trainNo != m.trainNo && d.state == Blocked && d.allRequired && AllAvailable(s.table, d.segments, d.trainNo) {
      TakenSound(s, i, d.segments, d.trainNo, Success(d.requesterTid), true, m.trainNo);
      TakenKeeps(s, i, d.segments, d.trainNo, Success(d.requesterTid));
    }
    if d.trainNo != m.trainNo && d.state == Blocked && !d.allRequired {
      var x := FirstAvailable(s.table, d.segments, d.trainNo, 0);
      if x != -1 {
        OneAvailable(s.table, x, d.trainNo);
        TakenSound(s, i, [x], d.trainNo, Granted(d.requesterTid, x), true, m.trainNo);
        TakenKeeps(s, i, [x], d.trainNo, Granted(d.requesterTid, x));
      }
    }
    if d.trainNo != m.trainNo && d.state == BlockedTwo {
      if AllAvailable(s.table, m.segments, m.trainNo) {
        TakenSound(s, i, m.segments, m.trainNo, Granted(d.requesterTid, 0), true, m.trainNo);
        TakenKeeps(s, i, m.segments, m.trainNo, Granted(d.requesterTid, 0));
      } else if AllAvailable(s.table, m.second, m.trainNo) {
        TakenSound(s, i, m.second, m.trainNo, Granted(d.requesterTid, 1), true, m.trainNo);
        TakenKeeps(s, i, m.second, m.trainNo, Granted(d.requesterTid, 1));
      }
    }
  }

  lemma OneAvailable(table: Table, x: nat, t: nat)
    requires |table| == N_SEGMENTS && x < N_SEGMENTS && Available(table, x, t)
    ensures ValidSegments([x]) && AllAvailable(table, [x], t)
  {
  }

  /** Taking segments changes nothing about the other records. */
  lemma TakenKeeps(s: State, h: nat, segments: seq<nat>, t: nat, reply: Event)
    requires Inv(s) && h < N_TRNS && ValidSegments(segments)
    ensures Inv(Taken(s, h, segments, t, reply).state)
  {
  }

  lemma {:induction false} ScanSound(s: State, m: Msg, n: nat)
    requires Inv(s) && ValidSegments(m.segments) && ValidSegments(m.second) && n <= N_TRNS
    ensures Sound(s.table, ScanTo(s, m, n), true, m.trainNo)
    ensures Inv(ScanTo(s, m, n).state)
  {
    hide Sound, ScanOne;
    if n == 0 {
      OneReplySound(s, Outcome(s, []), true, m.trainNo);
    } else {
      ScanSound(s, m, n - 1);
      var before := ScanTo(s, m, n - 1);
      ScanOneSound(before.state, m, n - 1);
      SoundSeq(s.table, before, ScanOne(before.state, m, n - 1), ScanTo(s, m, n), true, m.trainNo);
    }
  }

  ghost predicate Frees(m: Msg) {
    m.kind == FreeSegments || m.kind == FreeAll
  }

  /** Lock safety: outside TRAIN_REGISTER, every change of owner a message causes takes a segment that is free
      or already its taker's, or clears one that the freeing train owns; and what is shown is the table. */
  lemma LockSafety(s: State, sender: int, m: Msg)
    requires Inv(s) && WellFormedMsg(m) && m.kind != Register
    ensures Sound(s.table, Step(s, sender, m), Frees(m), m.trainNo)
  {
    hide Sound, AllAvailable, StepAll, StepOne, StepAndOr, StepFree, StepFreeAll, StepNotif;
    match m.kind
    case AllTimeout => AllSound(s, sender, m);
    case AllNoTimeout => AllSound(s, sender, m);
    case OneTimeout => OneSound(s, sender, m);
    case OneNoTimeout => OneSound(s, sender, m);
    case AndOrTimeout => AndOrSound(s, sender, m);
    case AndOrNoTimeout => AndOrSound(s, sender, m);
    case FreeSegments => FreeSound(s, sender, m);
    case FreeAll => FreeAllSound(s, sender, m);
    case Notif => if m.trainNo != 0 { NotifSound(s, m); } else { OneReplySound(s, Outcome(s, []), false, m.trainNo); }
    case AskFree => OneReplySound(s, Step(s, sender, m), false, m.trainNo);
    case Other => OneReplySound(s, Step(s, sender, m), false, m.trainNo);
    case Register =>
  }

  lemma AllSound(s: State, sender: int, m: Msg)
    requires Shaped(s) && ValidSegments(m.segments) && ValidSegments(m.second) && TrnHash(m.trainNo) >= 0
    ensures Sound(s.table, StepAll(s, sender, m), false, m.trainNo)
  {
    hide Sound, AllAvailable, Taken, LockAll;
    if AllAvailable(s.table, m.segments, m.trainNo) {
      TakenSound(s, TrnHash(m.trainNo), m.segments, m.trainNo, Success(sender), false, m.trainNo);
    } else {
      OneReplySound(s, StepAll(s, sender, m), false, m.trainNo);
    }
  }

  lemma OneSound(s: State, sender: int, m: Msg)
    requires Shaped(s) && ValidSegments(m.segments) && ValidSegments(m.second) && TrnHash(m.trainNo) >= 0
    ensures Sound(s.table, StepOne(s, sender, m), false, m.trainNo)
  {
    hide Sound, AllAvailable, Taken, LockAll;
    var x := FirstAvailable(s.table, m.segments, m.trainNo, 0);
    if x != -1 {
      OneAvailable(s.table, x, m.trainNo);
      TakenSound(s, TrnHash(m.trainNo), [x], m.trainNo, Granted(sender, x), false, m.trainNo);
    } else {
      OneReplySound(s, StepOne(s, sender, m), false, m.trainNo);
    }
  }

  lemma AndOrSound(s: State, sender: int, m: Msg)
    requires Shaped(s) && ValidSegments(m.segments) && ValidSegments(m.second) && TrnHash(m.trainNo) >= 0
    ensures Sound(s.table, StepAndOr(s, sender, m), false, m.trainNo)
  {
    hide Sound, AllAvailable, Taken, LockAll;
    if AllAvailable(s.table, m.segments, m.trainNo) {
      TakenSound(s, TrnHash(m.trainNo), m.segments, m.trainNo, Granted(sender, 0), false, m.trainNo);
    } else if AllAvailable(s.table, m.second, m.trainNo) {
      TakenSound(s, TrnHash(m.trainNo), m.second, m.trainNo, Granted(sender, 1), false, m.trainNo);
    } else {
      OneReplySound(s, StepAndOr(s, sender, m), false, m.trainNo);
    }
  }

  lemma FreeSound(s: State, sender: int, m: Msg)
    requires Inv(s) && ValidSegments(m.segments) && ValidSegments(m.second)
    ensures Sound(s.table, StepFree(s, sender, m), true, m.trainNo)
    ensures Inv(StepFree(s, sender, m).state)
  {
    hide Sound, ScanTo, FreeOwned, FreeEvents;
    var n := |m.segments|;
    var a := AfterFree(s, m);
    FreeEventsSound(s.table, m.segments, m.trainNo, n);
    assert m.segments[..n] == m.segments;
    var freed := Outcome(a, FreeEvents(s.table, m.segments, m.trainNo, n));
    EventsAreSound(s.table, freed, m.trainNo);
    OneReplySound(a, Outcome(a, [Success(sender)]), true, m.trainNo);
    var replied := Outcome(a, freed.out + [Success(sender)]);
    SoundSeq(s.table, freed, Outcome(a, [Success(sender)]), replied, true, m.trainNo);
    ScanSound(a, m, N_TRNS);
    SoundSeq(s.table, replied, ScanTo(a, m, N_TRNS), StepFree(s, sender, m), true, m.trainNo);
  }

  lemma EventsAreSound(table: Table, o: Outcome, t: nat)
    requires |table| == N_SEGMENTS && Replay(table, o.out) == o.state.table && Lawful(table, o.out, true, t)
    ensures Sound(table, o, true, t)
  {
  }

  lemma FreeAllSound(s: State, sender: int, m: Msg)
    requires Shaped(s) && TrnHash(m.trainNo) >= 0
    ensures Sound(s.table, StepFreeAll(s, sender, m), true, m.trainNo)
  {
    hide Sound, Cleared, ClearEvents;
    var o := StepFreeAll(s, sender, m);
    ClearEventsSound(s.table, m.trainNo, Kept(m), N_SEGMENTS);
    var cleared := Outcome(o.state, ClearEvents(s.table, m.trainNo, Kept(m), N_SEGMENTS));
    EventsAreSound(s.table, cleared, m.trainNo);
    OneReplySound(o.state, Outcome(o.state, [Empty(sender)]), true, m.trainNo);
    SoundSeq(s.table, cleared, Outcome(o.state, [Empty(sender)]), o, true, m.trainNo);
  }

  lemma NotifSound(s: State, m: Msg)
    requires Inv(s) && ValidSegments(m.segments) && ValidSegments(m.second) && TrnHash(m.trainNo) >= 0
    ensures Sound(s.table, StepNotif(s, m), false, m.trainNo)
  {
    hide Sound, AllAvailable, Taken, LockAll;
    var h := TrnHash(m.trainNo);
    var d := s.trains[h];
    assert Known(d, h);
    if d.state == BlockedTimeoutTwo {
      if AllAvailable(s.table, m.segments, m.trainNo) {
        TakenSound(s, h, m.segments, m.trainNo, Granted(d.requesterTid, 0), false, m.trainNo);
        return;
      } else if AllAvailable(s.table, m.second, m.trainNo) {
        TakenSound(s, h, m.second, m.trainNo, Granted(d.requesterTid, 1), false, m.trainNo);
        return;
      }
    } else if d.state != Idle && d.allRequired && AllAvailable(s.table, d.segments, d.trainNo) {
      TakenSound(s, h, d.segments, d.trainNo, Success(d.requesterTid), false, m.trainNo);
      return;
    } else if d.state != Idle && !d.allRequired {
      var x := FirstAvailable(s.table, d.segments, d.trainNo, 0);
      if x != -1 {
        OneAvailable(s.table, x, d.trainNo);
        TakenSound(s, h, [x], d.trainNo, Granted(d.requesterTid, x), false, m.trainNo);
        return;
      }
    }
    OneReplySound(s, StepNotif(s, m), false, m.trainNo);
  }

  // ----- no lost wake-up -----

  /** Taking available segments never makes a stored request grantable that was not. */
  lemma LockKeepsRefusal(table: Table, segments: seq<nat>, t: nat, d: TrainData)
    requires |table| == N_SEGMENTS && ValidSegments(segments) && ValidSegments(d.segments)
    requires AllAvailable(table, segments, t) && !Grantable(table, d)
    ensures !Grantable(LockAll(table, segments, t), d)
  {
    var after := LockAll(table, segments, t);
    forall x: nat | x < N_SEGMENTS && Available(after, x, d.trainNo) ensures Available(table, x, d.trainNo) {
      if x in segments {
        var i :| 0 <= i < |segments| && segments[i] == x;
        assert Available(table, segments[i], t);
      }
    }
  }

  /** Freeing its own segments never makes a train's own request grantable that was not. */
  lemma FreeKeepsOwnRefusal(table: Table, segments: seq<nat>, t: nat, d: TrainData)
    requires |table| == N_SEGMENTS && ValidSegments(segments) && ValidSegments(d.segments)
    requires d.trainNo == t && !Grantable(table, d)
    ensures !Grantable(FreeOwned(table, segments, t), d)
  {
    var after := FreeOwned(table, segments, t);
    forall x: nat | x < N_SEGMENTS && Available(after, x, t) ensures Available(table, x, t) { }
  }

  /** Waiting records other than h keep waiting in vain when h takes available segments. */
  lemma TakenKeepsRefusals(s: State, h: nat, segments: seq<nat>, t: nat, reply: Event, i: nat)
    requires Shaped(s) && h < N_TRNS && i < N_TRNS && ValidSegments(segments) && AllAvailable(s.table, segments, t)
    requires s.trains[i].state == Blocked ==> !Grantable(s.table, s.trains[i]) || i == h
    ensures var r := Taken(s, h, segments, t, reply).state;
      r.trains[i].state == Blocked ==> !Grantable(r.table, r.trains[i])
  {
    hide Grantable, LockAll;
    if i != h && s.trains[i].state == Blocked { LockKeepsRefusal(s.table, segments, t, s.trains[i]); }
  }

  /** A look at record i leaves it idle or in vain; the other records stay in vain. */
  lemma ScanOneKeeps(s: State, m: Msg, i: nat, j: nat)
    requires Shaped(s) && ValidSegments(m.segments) && ValidSegments(m.second) && i < N_TRNS && j < N_TRNS
    requires s.trains[j].state == Blocked && (j != i || s.trains[j].trainNo == m.trainNo) ==>
      !Grantable(s.table, s.trains[j])
    ensures var r := ScanOne(s, m, i).state;
      r.trains[j].state == Blocked ==> !Grantable(r.table, r.trains[j])
  {
    hide AllAvailable, Taken, LockAll, Shaped;
    RecordsShaped(s, i);
    var d := s.trains[i];
    RecordsShaped(s, j);
    if d.trainNo == m.trainNo || d.state !in {Blocked, BlockedTwo} {
      return;
    }
    if d.state == Blocked && d.allRequired {
      if AllAvailable(s.table, d.segments, d.trainNo) {
        TakenKeepsRefusals(s, i, d.segments, d.trainNo, Success(d.requesterTid), j);
      }
    } else if d.state == Blocked {
      var x := FirstAvailable(s.table, d.segments, d.trainNo, 0);
      if x != -1 {
        OneAvailable(s.table, x, d.trainNo);
        TakenKeepsRefusals(s, i, [x], d.trainNo, Granted(d.requesterTid, x), j);
      }
    } else if AllAvailable(s.table, m.segments, m.trainNo) {
      TakenKeepsRefusals(s, i, m.segments, m.trainNo, Granted(d.requesterTid, 0), j);
    } else if AllAvailable(s.table, m.second, m.trainNo) {
      TakenKeepsRefusals(s, i, m.second, m.trainNo, Granted(d.requesterTid, 1), j);
    }
  }

  lemma RecordsShaped(s: State, i: nat)
    requires Shaped(s) && i < N_TRNS
    ensures |s.table| == N_SEGMENTS && |s.trains| == N_TRNS
    ensures ValidSegments(s.trains[i].segments) && ValidSegments(s.trains[i].second)
  {
  }

  /** A waiting record whose train does not free anything is looked at once; from then on it is idle or in vain. */
  lemma {:induction false} ScanKeeps(s: State, m: Msg, n: nat, j: nat)
    requires Shaped(s) && ValidSegments(m.segments) && ValidSegments(m.second) && n <= N_TRNS && j < N_TRNS
    requires s.trains[j].state == Blocked && s.trains[j].trainNo == m.trainNo ==> !Grantable(s.table, s.trains[j])
    ensures var r := ScanTo(s, m, n).state;
      r.trains[j].trainNo == s.trains[j].trainNo &&
      (r.trains[j].state == Blocked && (j < n || r.trains[j].trainNo == m.trainNo) ==> !Grantable(r.table, r.trains[j]))
  {
    hide Grantable, ScanOne;
    if n > 0 {
      ScanKeeps(s, m, n - 1, j);
      var before := ScanTo(s, m, n - 1).state;
      ScanOneTrain(before, m, n - 1, j);
      if j != n - 1 || before.trains[j].trainNo == m.trainNo {
        if before.trains[j].state == Blocked && (j < n || before.trains[j].trainNo == m.trainNo) {
          ScanOneKeeps(before, m, n - 1, j);
        }
      } else {
        ScanOneKeeps(before, m, n - 1, j);
      }
    }
  }

  lemma ScanOneTrain(s: State, m: Msg, i: nat, j: nat)
    requires Shaped(s) && ValidSegments(m.segments) && ValidSegments(m.second) && i < N_TRNS && j < N_TRNS
    ensures var r := ScanOne(s, m, i).state.trains[j];
      r.trainNo == s.trains[j].trainNo && (r.state == s.trains[j].state || r.state == Idle)
  {
  }

  lemma FreeNoLostWakeUp(s: State, sender: int, m: Msg)
    requires Shaped(s) && ValidSegments(m.segments) && ValidSegments(m.second) && NoLostWakeUp(s)
    ensures NoLostWakeUp(StepFree(s, sender, m).state)
  {
    hide Grantable, ScanTo, FreeOwned;
    var a := AfterFree(s, m);
    forall j | 0 <= j < N_TRNS && StepFree(s, sender, m).state.trains[j].state == Blocked
      ensures !Grantable(StepFree(s, sender, m).state.table, StepFree(s, sender, m).state.trains[j])
    {
      if s.trains[j].state == Blocked && s.trains[j].trainNo == m.trainNo {
        FreeKeepsOwnRefusal(s.table, m.segments, m.trainNo, s.trains[j]);
      }
      ScanKeeps(a, m, N_TRNS, j);
    }
  }

  lemma TakenNoLostWakeUp(s: State, h: nat, segments: seq<nat>, t: nat, reply: Event)
    requires Shaped(s) && h < N_TRNS && ValidSegments(segments) && AllAvailable(s.table, segments, t) && NoLostWakeUp(s)
    ensures NoLostWakeUp(Taken(s, h, segments, t, reply).state)
  {
    hide Grantable, Taken, AllAvailable;
    var r := Taken(s, h, segments, t, reply).state;
    forall i | 0 <= i < N_TRNS && r.trains[i].state == Blocked ensures !Grantable(r.table, r.trains[i]) {
      TakenKeepsRefusals(s, h, segments, t, reply, i);
    }
  }

  lemma RefusedNoLostWakeUp(s: State, h: nat, sender: int, m: Msg, state: TrainState, all: bool)
    requires Shaped(s) && h < N_TRNS && NoLostWakeUp(s) && ValidSegments(m.segments) && ValidSegments(m.second)
    requires state == Blocked ==> !Grantable(s.table, Stored(s.trains[h], sender, m, state, all))
    ensures NoLostWakeUp(Refused(s, h, sender, m, state, all).state)
  {
    hide Grantable;
  }

  lemma RequestNoLostWakeUp(s: State, sender: int, m: Msg)
    requires Shaped(s) && ValidSegments(m.segments) && ValidSegments(m.second) && TrnHash(m.trainNo) >= 0
    requires NoLostWakeUp(s)
    ensures NoLostWakeUp(StepAll(s, sender, m).state) && NoLostWakeUp(StepOne(s, sender, m).state)
    ensures NoLostWakeUp(StepAndOr(s, sender, m).state)
  {
    hide NoLostWakeUp, AllAvailable, Taken, Refused, Shaped;
    var h := TrnHash(m.trainNo);
    RecordsShaped(s, h);
    if AllAvailable(s.table, m.segments, m.trainNo) {
      TakenNoLostWakeUp(s, h, m.segments, m.trainNo, Success(sender));
      TakenNoLostWakeUp(s, h, m.segments, m.trainNo, Granted(sender, 0));
    } else {
      RefusedNoLostWakeUp(s, h, sender, m, BlockedTimeout, true);
      RefusedNoLostWakeUp(s, h, sender, m, Blocked, true);
      RefusedNoLostWakeUp(s, h, sender, m, BlockedTimeoutTwo, true);
      RefusedNoLostWakeUp(s, h, sender, m, BlockedTwo, true);
    }
    if AllAvailable(s.table, m.second, m.trainNo) {
      TakenNoLostWakeUp(s, h, m.second, m.trainNo, Granted(sender, 1));
    }
    var x := FirstAvailable(s.table, m.segments, m.trainNo, 0);
    if x != -1 {
      OneAvailable(s.table, x, m.trainNo);
      TakenNoLostWakeUp(s, h, [x], m.trainNo, Granted(sender, x));
    } else {
      RefusedNoLostWakeUp(s, h, sender, m, BlockedTimeout, false);
      RefusedNoLostWakeUp(s, h, sender, m, Blocked, false);
    }
  }

  lemma GivenUpNoLostWakeUp(s: State, h: nat)
    requires Shaped(s) && h < N_TRNS && NoLostWakeUp(s)
    ensures NoLostWakeUp(GivenUp(s, h).state)
  {
    hide Grantable;
  }

  lemma NotifNoLostWakeUp(s: State, m: Msg)
    requires Shaped(s) && ValidSegments(m.segments) && ValidSegments(m.second) && TrnHash(m.trainNo) >= 0
    requires NoLostWakeUp(s)
    ensures NoLostWakeUp(StepNotif(s, m).state)
  {
    hide NoLostWakeUp, AllAvailable, Taken, GivenUp, Shaped;
    var h := TrnHash(m.trainNo);
    RecordsShaped(s, h);
    var d := s.trains[h];
    GivenUpNoLostWakeUp(s, h);
    if AllAvailable(s.table, m.segments, m.trainNo) {
      TakenNoLostWakeUp(s, h, m.segments, m.trainNo, Granted(d.requesterTid, 0));
    }
    if AllAvailable(s.table, m.second, m.trainNo) {
      TakenNoLostWakeUp(s, h, m.second, m.trainNo, Granted(d.requesterTid, 1));
    }
    if AllAvailable(s.table, d.segments, d.trainNo) {
      TakenNoLostWakeUp(s, h, d.segments, d.trainNo, Success(d.requesterTid));
    }
    var x := FirstAvailable(s.table, d.segments, d.trainNo, 0);
    if x != -1 {
      OneAvailable(s.table, x, d.trainNo);
      TakenNoLostWakeUp(s, h, [x], d.trainNo, Granted(d.requesterTid, x));
    }
  }

  /** No message other than FREE_ALL and TRAIN_REGISTER leaves a train waiting for what it could have. */
  lemma StepNoLostWakeUp(s: State, sender: int, m: Msg)
    requires Shaped(s) && WellFormedMsg(m) && NoLostWakeUp(s) && m.kind != FreeAll && m.kind != Register
    ensures NoLostWakeUp(Step(s, sender, m).state)
  {
    hide NoLostWakeUp, StepAll, StepOne, StepAndOr, StepFree, StepFreeAll, StepNotif;
    if m.kind == FreeSegments { FreeNoLostWakeUp(s, sender, m); }
    else if m.kind == Notif && m.trainNo != 0 { NotifNoLostWakeUp(s, m); }
    else if UsesRecord(m) { RequestNoLostWakeUp(s, sender, m); }
  }

  // ----- truthful replies -----

  lemma TakenOwns(s: State, h: nat, segments: seq<nat>, t: nat, reply: Event)
    requires Shaped(s) && h < N_TRNS && ValidSegments(segments)
    ensures Owns(Taken(s, h, segments, t, reply).state.table, segments, t)
    ensures forall x :: 0 <= x < |segments| ==> Taken(s, h, segments, t, reply).state.table[segments[x]] == t
  {
  }

  /** An ALL request is answered at once exactly when all its segments are available, and then the train owns
      them; otherwise nothing is answered and the table stays. */
  lemma AllIsTruthful(s: State, sender: int, m: Msg)
    requires Shaped(s) && ValidSegments(m.segments) && ValidSegments(m.second) && TrnHash(m.trainNo) >= 0
    ensures var o := StepAll(s, sender, m);
      Shaped(o.state) &&
      (Success(sender) in o.out <==> AllAvailable(s.table, m.segments, m.trainNo)) &&
      (Success(sender) in o.out ==> Owns(o.state.table, m.segments, m.trainNo)) &&
      (Success(sender) !in o.out ==> o.state.table == s.table && o.state.trains[TrnHash(m.trainNo)].state != Idle)
  {
    var h := TrnHash(m.trainNo);
    var o := StepAll(s, sender, m);
    if AllAvailable(s.table, m.segments, m.trainNo) {
      TakenOwns(s, h, m.segments, m.trainNo, Success(sender));
      assert o.out[|o.out| - 1] == Success(sender);
    }
  }

  /** A ONE request is granted a segment exactly when one of its list is available, and then that one, which the train
      then owns, alone; when there is none the table stays. */
  lemma OneIsTruthful(s: State, sender: int, m: Msg, x: nat)
    requires Shaped(s) && ValidSegments(m.segments) && ValidSegments(m.second) && TrnHash(m.trainNo) >= 0
    ensures var o := StepOne(s, sender, m);
      Shaped(o.state) &&
      ((exists k :: 0 <= k < |m.segments| && Available(s.table, m.segments[k], m.trainNo)) <==>
        exists y: nat :: Granted(sender, y) in o.out) &&
      (Granted(sender, x) in o.out ==>
        (x in m.segments && x < N_SEGMENTS && o.state.table[x] == m.trainNo && Available(s.table, x, m.trainNo) &&
         forall y: nat :: y < N_SEGMENTS && y != x ==> o.state.table[y] == s.table[y])) &&
      ((forall k :: 0 <= k < |m.segments| ==> !Available(s.table, m.segments[k], m.trainNo)) <==>
        o.state.trains[TrnHash(m.trainNo)].state != Idle) &&
      (o.state.trains[TrnHash(m.trainNo)].state != Idle ==> o.state.table == s.table)
  {
    var first := FirstAvailable(s.table, m.segments, m.trainNo, 0);
    if first != -1 {
      var o := StepOne(s, sender, m);
      TakenOwns(s, TrnHash(m.trainNo), [first], m.trainNo, Granted(sender, first));
      assert o.out[|o.out| - 1] == Granted(sender, first);
    }
  }

  /** A timed-out ALL or ONE request is answered; a success means the train owns what it asked for, a failure
      that the table stays.  The record is idle in the end. */
  lemma NotifIsTruthful(s: State, m: Msg)
    requires Inv(s) && ValidSegments(m.segments) && ValidSegments(m.second) && TrnHash(m.trainNo) >= 0
    requires s.trains[TrnHash(m.trainNo)].state in {Blocked, BlockedTimeout, BlockedTwo}
    ensures var d := s.trains[TrnHash(m.trainNo)];
      var o := StepNotif(s, m);
      Shaped(o.state) && o.out != [] && o.state.trains[TrnHash(m.trainNo)] == d.(state := Idle) &&
      var reply := o.out[|o.out| - 1];
      (reply == Fail(d.requesterTid) && o.state.table == s.table && !Grantable(s.table, d)) ||
      (d.allRequired && reply == Success(d.requesterTid) && Owns(o.state.table, d.segments, d.trainNo)) ||
      (!d.allRequired && reply.Granted? && reply.tid == d.requesterTid && reply.segment in d.segments &&
       reply.segment < N_SEGMENTS && o.state.table[reply.segment] == d.trainNo)
  {
    var h := TrnHash(m.trainNo);
    var d := s.trains[h];
    if d.allRequired {
      TakenOwns(s, h, d.segments, d.trainNo, Success(d.requesterTid));
    } else {
      var x := FirstAvailable(s.table, d.segments, d.trainNo, 0);
      if x != -1 { TakenOwns(s, h, [x], d.trainNo, Granted(d.requesterTid, x)); }
    }
  }

  /** The reply of a scan that wakes record i and what the train owns by then. */
  ghost predicate Woken(d: TrainData, o: Outcome)
    requires Shaped(o.state) && ValidSegments(d.segments)
  {
    if d.allRequired then Success(d.requesterTid) in o.out && Owns(o.state.table, d.segments, d.trainNo)
    else exists x: nat :: x < N_SEGMENTS &&
           (x in d.segments && Granted(d.requesterTid, x) in o.out && o.state.table[x] == d.trainNo)
  }

  /** Taking available segments takes none from a train that is not the taker. */
  lemma TakenLeavesOwners(s: State, h: nat, segments: seq<nat>, t: nat, reply: Event, x: nat)
    requires Shaped(s) && h < N_TRNS && ValidSegments(segments) && AllAvailable(s.table, segments, t) && x < N_SEGMENTS
    requires s.table[x] != 0
    ensures Taken(s, h, segments, t, reply).state.table[x] == s.table[x]
  {
    if x in segments {
      var i :| 0 <= i < |segments| && segments[i] == x;
      assert Available(s.table, segments[i], t);
    }
  }

  lemma ScanOneLeavesOwners(s: State, m: Msg, i: nat, x: nat)
    requires Shaped(s) && ValidSegments(m.segments) && ValidSegments(m.second) && i < N_TRNS && x < N_SEGMENTS
    requires s.table[x] != 0
    ensures ScanOne(s, m, i).state.table[x] == s.table[x]
  {
    hide AllAvailable, Taken;
    var d := s.trains[i];
    var y := FirstAvailable(s.table, d.segments, d.trainNo, 0);
    if y != -1 {
      OneAvailable(s.table, y, d.trainNo);
      TakenLeavesOwners(s, i, [y], d.trainNo, Granted(d.requesterTid, y), x);
    }
    if AllAvailable(s.table, d.segments, d.trainNo) {
      TakenLeavesOwners(s, i, d.segments, d.trainNo, Success(d.requesterTid), x);
    }
    if AllAvailable(s.table, m.segments, m.trainNo) {
      TakenLeavesOwners(s, i, m.segments, m.trainNo, Granted(d.requesterTid, 0), x);
    }
    if AllAvailable(s.table, m.second, m.trainNo) {
      TakenLeavesOwners(s, i, m.second, m.trainNo, Granted(d.requesterTid, 1), x);
    }
  }

  lemma ScanOneWakes(s: State, m: Msg, i: nat)
    requires Shaped(s) && ValidSegments(m.segments) && ValidSegments(m.second) && i < N_TRNS
    requires s.trains[i].state == Blocked && ScanOne(s, m, i).state.trains[i].state == Idle
    ensures Woken(s.trains[i], ScanOne(s, m, i))
  {
    hide AllAvailable, LockAll;
    var d := s.trains[i];
    var o := ScanOne(s, m, i);
    if d.allRequired {
      TakenOwns(s, i, d.segments, d.trainNo, Success(d.requesterTid));
      assert o.out[|o.out| - 1] == Success(d.requesterTid);
    } else {
      var x := FirstAvailable(s.table, d.segments, d.trainNo, 0);
      TakenOwns(s, i, [x], d.trainNo, Granted(d.requesterTid, x));
      assert o.out[|o.out| - 1] == Granted(d.requesterTid, x);
      assert [x][0] == x && o.state.table[[x][0]] == d.trainNo;
    }
  }

  lemma WokenStays(d: TrainData, a: Outcome, b: Outcome)
    requires Shaped(a.state) && Shaped(b.state) && ValidSegments(d.segments) && d.trainNo != 0 && Woken(d, a)
    requires forall e :: e in a.out ==> e in b.out
    requires forall x: nat :: x < N_SEGMENTS && a.state.table[x] != 0 ==> b.state.table[x] == a.state.table[x]
    ensures Woken(d, b)
  {
  }

  lemma {:induction false} ScanWakes(s: State, m: Msg, n: nat, i: nat)
    requires Inv(s) && ValidSegments(m.segments) && ValidSegments(m.second) && n <= N_TRNS && i < N_TRNS
    requires s.trains[i].state == Blocked
    ensures var o := ScanTo(s, m, n);
      Shaped(o.state) && o.state.trains[i] in {s.trains[i], s.trains[i].(state := Idle)} &&
      (o.state.trains[i].state == Idle ==> Woken(s.trains[i], o))
  {
    hide Woken, ScanOne;
    if n > 0 {
      ScanWakes(s, m, n - 1, i);
      var before := ScanTo(s, m, n - 1);
      var last := ScanOne(before.state, m, n - 1);
      ScanOneRecord(before.state, m, n - 1, i);
      assert Known(s.trains[i], i);
      if before.state.trains[i].state == Idle {
        forall x: nat | x < N_SEGMENTS && before.state.table[x] != 0
          ensures last.state.table[x] == before.state.table[x]
        {
          ScanOneLeavesOwners(before.state, m, n - 1, x);
        }
        WokenStays(s.trains[i], before, ScanTo(s, m, n));
      } else if last.state.trains[i].state == Idle {
        ScanOneWakes(before.state, m, n - 1);
        WokenStays(s.trains[i], last, ScanTo(s, m, n));
      }
    }
  }

  lemma ScanOneRecord(s: State, m: Msg, i: nat, j: nat)
    requires Shaped(s) && ValidSegments(m.segments) && ValidSegments(m.second) && i < N_TRNS && j < N_TRNS
    ensures var r := ScanOne(s, m, i).state.trains[j];
      r == s.trains[j] || (j == i && r == s.trains[j].(state := Idle))
  {
  }

  /** FREE_SEGMENTS: a waiting ALL or ONE record either stays as it is, or is answered with what its train owns
      when the message has been handled. */
  lemma FreeIsTruthful(s: State, sender: int, m: Msg, i: nat)
    requires Inv(s) && ValidSegments(m.segments) && ValidSegments(m.second) && i < N_TRNS
    requires s.trains[i].state == Blocked
    ensures var o := StepFree(s, sender, m);
      Shaped(o.state) && o.state.trains[i] in {s.trains[i], s.trains[i].(state := Idle)} &&
      (o.state.trains[i].state == Idle ==> Woken(s.trains[i], o))
  {
    hide Woken, ScanTo, FreeOwned;
    var a := AfterFree(s, m);
    assert Known(s.trains[i], i);
    ScanWakes(a, m, N_TRNS, i);
    if ScanTo(a, m, N_TRNS).state.trains[i].state == Idle {
      WokenStays(s.trains[i], ScanTo(a, m, N_TRNS), StepFree(s, sender, m));
    }
  }

  // ----- where the promises end -----

  lemma RegisterShows(s: State, sender: int, m: Msg)
    requires Shaped(s) && WellFormedMsg(m) && m.kind == Register
    ensures Replay(s.table, Step(s, sender, m).out) == Step(s, sender, m).state.table
  {
    var e := Update(m.segments[0], m.trainNo);
    assert [e, Empty(sender)] == [e] + [Empty(sender)];
    ReplayAppend(s.table, [e], [Empty(sender)]);
    assert [e][..0] == [] && [Empty(sender)][..0] == [];
  }

  /** TRAIN_REGISTER is lawful exactly when the segment was available to the train it is given to. */
  lemma RegisterIsLawfulIff(s: State, sender: int, m: Msg)
    requires Shaped(s) && WellFormedMsg(m) && m.kind == Register && m.trainNo != 0
    ensures Sound(s.table, Step(s, sender, m), false, m.trainNo) <==> Available(s.table, m.segments[0], m.trainNo)
  {
    hide Replay;
    var e := Update(m.segments[0], m.trainNo);
    var out := [e, Empty(sender)];
    assert out == [e] + [Empty(sender)];
    assert out[0] == e && out[..0] == [];
    RepliesShowNothing(s.table, Empty(sender), false, m.trainNo);
    if Available(s.table, m.segments[0], m.trainNo) {
      OneUpdate(s.table, e, false, m.trainNo);
      RepliesShowNothing(s.table[e.segment := e.owner], Empty(sender), false, m.trainNo);
      ReplayAppend(s.table, [e], [Empty(sender)]);
      LawfulAppend(s.table, [e], [Empty(sender)], false, m.trainNo);
    }
  }

  /** x stays out of reach of train t when the segments of train u, except keep, are cleared. */
  ghost predicate HeldThroughClear(table: Table, x: nat, t: nat, u: nat, keep: int)
    requires |table| == N_SEGMENTS && x < N_SEGMENTS
  {
    !Available(table, x, t) && !(table[x] == u && x != keep)
  }

  /** The stored request stays refused when the segments of train u, except keep, are cleared. */
  ghost predicate RefusedThroughClear(table: Table, d: TrainData, u: nat, keep: int)
    requires |table| == N_SEGMENTS && ValidSegments(d.segments)
  {
    if d.allRequired then
      exists k :: 0 <= k < |d.segments| && HeldThroughClear(table, d.segments[k], d.trainNo, u, keep)
    else forall k :: 0 <= k < |d.segments| ==> HeldThroughClear(table, d.segments[k], d.trainNo, u, keep)
  }

  lemma ClearedGrantable(table: Table, d: TrainData, u: nat, keep: int)
    requires |table| == N_SEGMENTS && ValidSegments(d.segments)
    ensures Grantable(Cleared(table, u, keep, N_SEGMENTS), d) <==> !RefusedThroughClear(table, d, u, keep)
  {
    var after := Cleared(table, u, keep, N_SEGMENTS);
    forall x: nat | x < N_SEGMENTS
      ensures Available(after, x, d.trainNo) <==> !HeldThroughClear(table, x, d.trainNo, u, keep) { }
  }

  /** FREE_ALL frees without looking at the waiting records.  No wake-up is lost exactly when each of them, other
      than the freeing train's own, also waits for segments that this message does not clear. */
  lemma FreeAllNoLostWakeUpIff(s: State, sender: int, m: Msg)
    requires Shaped(s) && TrnHash(m.trainNo) >= 0
    ensures NoLostWakeUp(StepFreeAll(s, sender, m).state) <==>
      forall i: nat :: i < N_TRNS && i != TrnHash(m.trainNo) && s.trains[i].state == Blocked ==>
        RefusedThroughClear(s.table, s.trains[i], m.trainNo, Kept(m))
  {
    hide Grantable, RefusedThroughClear, Cleared;
    var r := StepFreeAll(s, sender, m).state;
    forall i: nat | i < N_TRNS && i != TrnHash(m.trainNo)
      ensures r.trains[i] == s.trains[i]
      ensures Grantable(r.table, r.trains[i]) <==> !RefusedThroughClear(s.table, s.trains[i], m.trainNo, Kept(m))
    {
      ClearedGrantable(s.table, s.trains[i], m.trainNo, Kept(m));
    }
  }

  /** Giving segment x to train u makes the stored request grantable: it asks for x, and x was all it waited for. */
  ghost predicate ServedByRegister(table: Table, d: TrainData, x: nat, u: nat)
    requires |table| == N_SEGMENTS && ValidSegments(d.segments)
  {
    (u == 0 || u == d.trainNo) && x in d.segments &&
    (d.allRequired ==> forall k :: 0 <= k < |d.segments| && d.segments[k] != x ==>
      Available(table, d.segments[k], d.trainNo))
  }

  lemma RegisteredGrantable(table: Table, d: TrainData, x: nat, u: nat)
    requires |table| == N_SEGMENTS && ValidSegments(d.segments) && x < N_SEGMENTS && !Grantable(table, d)
    ensures Grantable(table[x := u], d) <==> ServedByRegister(table, d, x, u)
  {
    var after := table[x := u];
    forall y: nat | y < N_SEGMENTS
      ensures Available(after, y, d.trainNo) <==>
        if y == x then u == 0 || u == d.trainNo else Available(table, y, d.trainNo) { }
  }

  /** TRAIN_REGISTER does not look at the waiting records either.  It loses no wake-up exactly when it gives none of
      them the last segment it waited for. */
  lemma RegisterNoLostWakeUpIff(s: State, sender: int, m: Msg)
    requires Shaped(s) && WellFormedMsg(m) && m.kind == Register && NoLostWakeUp(s)
    ensures NoLostWakeUp(Step(s, sender, m).state) <==>
      forall i: nat :: i < N_TRNS && s.trains[i].state == Blocked ==>
        !ServedByRegister(s.table, s.trains[i], m.segments[0], m.trainNo)
  {
    hide Grantable, ServedByRegister;
    forall i: nat | i < N_TRNS && s.trains[i].state == Blocked
      ensures Grantable(s.table[m.segments[0] := m.trainNo], s.trains[i]) <==>
        ServedByRegister(s.table, s.trains[i], m.segments[0], m.trainNo)
    {
      RegisteredGrantable(s.table, s.trains[i], m.segments[0], m.trainNo);
    }
  }

  /** The scan looks at record i once, as the records before it left the table. */
  lemma {:induction false} ScanReaches(s: State, m: Msg, n: nat, i: nat)
    requires Shaped(s) && ValidSegments(m.segments) && ValidSegments(m.second) && n <= N_TRNS && i < N_TRNS
    ensures n <= i ==> ScanTo(s, m, n).state.trains[i] == s.trains[i]
    ensures i < n ==> var one := ScanOne(ScanTo(s, m, i).state, m, i);
      ScanTo(s, m, n).state.trains[i] == one.state.trains[i] && forall e :: e in one.out ==> e in ScanTo(s, m, n).out
  {
    hide ScanOne;
    if n > 0 {
      ScanReaches(s, m, n - 1, i);
      ScanOneRecord(ScanTo(s, m, n - 1).state, m, n - 1, i);
    }
  }

  /** Waking other trains gives nothing to train t and takes nothing from it. */
  lemma ScanOneOwner(s: State, m: Msg, j: nat, t: nat, x: nat)
    requires Shaped(s) && ValidSegments(m.segments) && ValidSegments(m.second) && j < N_TRNS && x < N_SEGMENTS
    requires t != 0 && t != m.trainNo && (s.trains[j].trainNo == t ==> s.trains[j].state != Blocked)
    ensures ScanOne(s, m, j).state.table[x] == t <==> s.table[x] == t
  {
    if s.table[x] != 0 { ScanOneLeavesOwners(s, m, j, x); }
  }

  lemma {:induction false} ScanOwner(s: State, m: Msg, n: nat, i: nat, x: nat)
    requires Inv(s) && ValidSegments(m.segments) && ValidSegments(m.second) && n <= N_TRNS && i < N_TRNS &&
             x < N_SEGMENTS
    requires s.trains[i].trainNo != 0 && s.trains[i].trainNo != m.trainNo && s.trains[i].state != Blocked
    ensures var r := ScanTo(s, m, n).state;
      (r.table[x] == s.trains[i].trainNo <==> s.table[x] == s.trains[i].trainNo) &&
      r.trains[i].trainNo == s.trains[i].trainNo && r.trains[i].state != Blocked
  {
    hide ScanOne;
    if n > 0 {
      ScanOwner(s, m, n - 1, i, x);
      ScanSound(s, m, n - 1);
      var before := ScanTo(s, m, n - 1).state;
      assert Known(before.trains[i], i) && Known(before.trains[n - 1], n - 1);
      ScanOneOwner(before, m, n - 1, s.trains[i].trainNo, x);
      ScanOneTrain(before, m, n - 1, i);
    }
  }

  /** Handling FREE_SEGMENTS changes nothing about what the train of a waiting two-set request owns. */
  lemma FreeOwner(s: State, sender: int, m: Msg, i: nat, segments: seq<nat>)
    requires Inv(s) && ValidSegments(m.segments) && ValidSegments(m.second) && ValidSegments(segments) && i < N_TRNS
    requires s.trains[i].state == BlockedTwo && s.trains[i].trainNo != m.trainNo
    ensures Owns(StepFree(s, sender, m).state.table, segments, s.trains[i].trainNo) <==>
      Owns(s.table, segments, s.trains[i].trainNo)
  {
    hide ScanTo;
    var a, t := AfterFree(s, m), s.trains[i].trainNo;
    assert Known(s.trains[i], i);
    forall x: nat | x < N_SEGMENTS ensures StepFree(s, sender, m).state.table[x] == t <==> s.table[x] == t {
      ScanOwner(a, m, N_TRNS, i, x);
    }
  }

  /** A waiting two-set request is retried by FREE_SEGMENTS with the lists and the train of the message.  It is
      answered exactly when one of those lists is then available to the freeing train, and the answer is true exactly
      when the waiting train owned the set it is told to have already. */
  lemma FreeAnswersTwoSetIff(s: State, sender: int, m: Msg, i: nat)
    requires Inv(s) && ValidSegments(m.segments) && ValidSegments(m.second) && i < N_TRNS
    requires s.trains[i].state == BlockedTwo && s.trains[i].trainNo != m.trainNo
    ensures var d, o, at := s.trains[i], StepFree(s, sender, m), ScanTo(AfterFree(s, m), m, i).state.table;
      if AllAvailable(at, m.segments, m.trainNo) then
        o.state.trains[i] == d.(state := Idle) && Granted(d.requesterTid, 0) in o.out &&
        (Owns(o.state.table, d.segments, d.trainNo) <==> Owns(s.table, d.segments, d.trainNo))
      else if AllAvailable(at, m.second, m.trainNo) then
        o.state.trains[i] == d.(state := Idle) && Granted(d.requesterTid, 1) in o.out &&
        (Owns(o.state.table, d.second, d.trainNo) <==> Owns(s.table, d.second, d.trainNo))
      else o.state.trains[i] == d
  {
    hide AllAvailable, Owns, ScanTo, FreeOwned, LockAll;
    var d, a := s.trains[i], AfterFree(s, m);
    FreeOwner(s, sender, m, i, d.segments);
    FreeOwner(s, sender, m, i, d.second);
    ScanReaches(a, m, i, i);
    ScanReaches(a, m, N_TRNS, i);
    var one := ScanOne(ScanTo(a, m, i).state, m, i);
    assert one.out != [] ==> one.out[|one.out| - 1] in one.out;
  }

  lemma ScanOneAvailable(s: State, m: Msg, j: nat, x: nat)
    requires Shaped(s) && ValidSegments(m.segments) && ValidSegments(m.second) && j < N_TRNS && x < N_SEGMENTS
    requires s.trains[j].state != Blocked
    ensures Available(ScanOne(s, m, j).state.table, x, m.trainNo) <==> Available(s.table, x, m.trainNo)
  {
    if s.table[x] != 0 { ScanOneLeavesOwners(s, m, j, x); }
  }

  lemma SameAvailable(a: Table, b: Table, t: nat, segments: seq<nat>)
    requires |a| == N_SEGMENTS == |b| && ValidSegments(segments)
    requires forall x: nat :: x < N_SEGMENTS ==> (Available(a, x, t) <==> Available(b, x, t))
    ensures AllAvailable(a, segments, t) <==> AllAvailable(b, segments, t)
  {
    if AllAvailable(a, segments, t) {
      forall i | 0 <= i < |segments| ensures Available(b, segments[i], t) { assert Available(a, segments[i], t); }
    }
    if AllAvailable(b, segments, t) {
      forall i | 0 <= i < |segments| ensures Available(a, segments[i], t) { assert Available(b, segments[i], t); }
    }
  }

  /** As long as the scan meets no request for all or one of a list before, those lists are available then exactly when
      they are before the message. */
  lemma {:induction false} ScanKeepsAvailable(s: State, m: Msg, i: nat, segments: seq<nat>)
    requires Shaped(s) && ValidSegments(m.segments) && ValidSegments(m.second) && ValidSegments(segments) && i <= N_TRNS
    requires forall j :: 0 <= j < i ==> s.trains[j].state != Blocked
    ensures AllAvailable(ScanTo(AfterFree(s, m), m, i).state.table, segments, m.trainNo) <==>
      AllAvailable(s.table, segments, m.trainNo)
  {
    hide AllAvailable, ScanOne;
    var a := AfterFree(s, m);
    if i == 0 {
      SameAvailable(a.table, s.table, m.trainNo, segments);
    } else {
      hide FreeOwned, Available;
      ScanKeepsAvailable(s, m, i - 1, segments);
      var before := ScanTo(a, m, i - 1).state;
      ScanReaches(a, m, i - 1, i - 1);
      var one := ScanOne(before, m, i - 1).state;
      forall x: nat | x < N_SEGMENTS
        ensures Available(one.table, x, m.trainNo) <==> Available(before.table, x, m.trainNo)
      {
        ScanOneAvailable(before, m, i - 1, x);
      }
      SameAvailable(one.table, before.table, m.trainNo, segments);
    }
  }

  /** Every segment of the list is the train's or among those taken for it. */
  ghost predicate OwnedWith(table: Table, segments: seq<nat>, t: nat, taken: seq<nat>)
    requires |table| == N_SEGMENTS && ValidSegments(segments)
  {
    forall k :: 0 <= k < |segments| ==> table[segments[k]] == t || segments[k] in taken
  }

  /** Whether the answer to a timed-out two-set request is true: the set named is owned, or neither could be. */
  ghost predicate TwoSetTruth(d: TrainData, before: Table, after: Table, reply: Event)
    requires |before| == N_SEGMENTS && |after| == N_SEGMENTS && ValidSegments(d.segments) && ValidSegments(d.second)
  {
    if reply == Granted(d.requesterTid, 0) then Owns(after, d.segments, d.trainNo)
    else if reply == Granted(d.requesterTid, 1) then Owns(after, d.second, d.trainNo)
    else
      reply == Fail(d.requesterTid) && !AllAvailable(before, d.segments, d.trainNo) &&
      !AllAvailable(before, d.second, d.trainNo)
  }

  /** At its timeout, too, a two-set request is retried with the lists of the message, which the notifier never
      received.  The answer is true exactly when those cover what the train lacks of the set it is told to have, or,
      with neither list available, neither stored set is. */
  lemma TimeoutAnswersTwoSetIff(s: State, m: Msg)
    requires Inv(s) && ValidSegments(m.segments) && ValidSegments(m.second) && TrnHash(m.trainNo) >= 0
    requires s.trains[TrnHash(m.trainNo)].state == BlockedTimeoutTwo
    ensures var d, o, t := s.trains[TrnHash(m.trainNo)], StepNotif(s, m), m.trainNo;
      Shaped(o.state) && o.out != [] && o.state.trains[TrnHash(t)] == d.(state := Idle) && d.trainNo == t &&
      (TwoSetTruth(d, s.table, o.state.table, o.out[|o.out| - 1]) <==>
        if AllAvailable(s.table, m.segments, t) then OwnedWith(s.table, d.segments, t, m.segments)
        else if AllAvailable(s.table, m.second, t) then OwnedWith(s.table, d.second, t, m.second)
        else !AllAvailable(s.table, d.segments, t) && !AllAvailable(s.table, d.second, t))
  {
    hide AllAvailable;
    var h := TrnHash(m.trainNo);
    assert Known(s.trains[h], h);
  }

  /** Retried with its own lists, as intended, it would always be answered truly. */
  lemma OwnListsAreTrue(s: State, m: Msg)
    requires Inv(s) && TrnHash(m.trainNo) >= 0 && s.trains[TrnHash(m.trainNo)].state == BlockedTimeoutTwo
    requires m.segments == s.trains[TrnHash(m.trainNo)].segments && m.second == s.trains[TrnHash(m.trainNo)].second
    ensures var d, o := s.trains[TrnHash(m.trainNo)], StepNotif(s, m);
      o.out != [] && TwoSetTruth(d, s.table, o.state.table, o.out[|o.out| - 1])
  {
    TimeoutAnswersTwoSetIff(s, m);
  }

  // ----- whole runs -----

  lemma StepInv(s: State, sender: int, m: Msg)
    requires Inv(s) && WellFormedMsg(m)
    ensures Inv(Step(s, sender, m).state)
  {
    hide StepAll, StepOne, StepAndOr, StepFree, StepFreeAll, StepNotif, Inv;
    RegisterInv(s, m);
    if m.kind == FreeSegments {
      FreeSound(s, sender, m);
    } else if UsesRecord(m) {
      RecordInv(s, sender, m);
    }
  }

  lemma RegisterInv(s: State, m: Msg)
    requires Inv(s) && WellFormedMsg(m)
    ensures Shaped(s) && (m.kind == Register ==> Inv(s.(table := s.table[m.segments[0] := m.trainNo])))
  {
  }

  /** The messages that write the record of their train. */
  lemma RecordInv(s: State, sender: int, m: Msg)
    requires Inv(s) && ValidSegments(m.segments) && ValidSegments(m.second) && TrnHash(m.trainNo) >= 0
    ensures Inv(StepAll(s, sender, m).state) && Inv(StepOne(s, sender, m).state) && Inv(StepAndOr(s, sender, m).state)
    ensures Inv(StepFreeAll(s, sender, m).state) && Inv(StepNotif(s, m).state)
  {
    hide AllAvailable, LockAll, Cleared;
    HashIsNotZero(m.trainNo);
  }

  lemma HashIsNotZero(t: nat)
    ensures TrnHash(t) >= 0 ==> t != 0
  {
  }

  datatype Call = Call(sender: int, msg: Msg)

  ghost function Start(): State {
    var unused := TrainData(Idle, 0, 0, [], [], false, 0, 0);
    State(seq(N_SEGMENTS, i => 0), [unused, unused, unused])
  }

  ghost predicate Calls(run: seq<Call>) {
    forall i :: 0 <= i < |run| ==> WellFormedMsg(run[i].msg)
  }

  ghost function After(run: seq<Call>): (o: Outcome)
    requires Calls(run)
    ensures Shaped(o.state)
  {
    if run == [] then Outcome(Start(), [])
    else
      var before := After(run[..|run| - 1]);
      var last := Step(before.state, run[|run| - 1].sender, run[|run| - 1].msg);
      Outcome(last.state, before.out + last.out)
  }

  /** In every run of requests, timeouts and frees from the start, no train is left waiting for what the table
      could grant. */
  lemma {:induction false} RunNoLostWakeUp(run: seq<Call>)
    requires Calls(run)
    requires forall i :: 0 <= i < |run| ==> run[i].msg.kind != FreeAll && run[i].msg.kind != Register
    ensures Inv(After(run).state) && NoLostWakeUp(After(run).state)
  {
    hide Step, NoLostWakeUp, Inv;
    if run == [] {
      StartIsFine();
    } else {
      var before := run[..|run| - 1];
      RunNoLostWakeUp(before);
      StepInv(After(before).state, run[|run| - 1].sender, run[|run| - 1].msg);
      StepNoLostWakeUp(After(before).state, run[|run| - 1].sender, run[|run| - 1].msg);
    }
  }

  lemma AfterOne(run: seq<Call>, c: Call)
    requires Calls(run) && WellFormedMsg(c.msg)
    ensures Calls(run + [c]) && var last := Step(After(run).state, c.sender, c.msg);
      After(run + [c]) == Outcome(last.state, After(run).out + last.out)
  {
    assert (run + [c])[..|run|] == run;
  }

  /** The state in the runs below before the last message. */
  ghost predicate Asked(s: State, state: TrainState) {
    Inv(s) && s.table[5] == 77 && s.trains[0] == TrainData(state, 24, 12, [3], [3], true, 0, 20) &&
    s.trains[1].state == Idle == s.trains[2].state
  }

  lemma TakesThreeAndFive(s: State)
    requires s == Start()
    ensures var m := Msg(AllNoTimeout, 77, [3, 5], [], 0);
      WellFormedMsg(m) && var r := Step(s, 11, m).state;
      Inv(r) && r.table[3] == 77 == r.table[5] && r.trains[0] == s.trains[0] &&
        r.trains[1].state == Idle == r.trains[2].state
  {
    var m := Msg(AllNoTimeout, 77, [3, 5], [], 0);
    StartIsFine();
    StepInv(s, 11, m);
    assert AllAvailable(s.table, m.segments, 77) && m.segments[0] == 3 && m.segments[1] == 5;
  }

  lemma AsksForThree(s: State, kind: Kind)
    requires Inv(s) && s.table[3] == 77 == s.table[5] && s.trains[0] == Start().trains[0] &&
             s.trains[1].state == Idle == s.trains[2].state
    requires kind in {AndOrTimeout, AndOrNoTimeout}
    ensures var m := Msg(kind, 24, [3], [3], 20);
      WellFormedMsg(m) && var r := Step(s, 12, m).state;
      r.table == s.table && Asked(r, if kind == AndOrTimeout then BlockedTimeoutTwo else BlockedTwo)
  {
    var m := Msg(kind, 24, [3], [3], 20);
    StepInv(s, 12, m);
    assert !Available(s.table, m.segments[0], 24);
  }

  /** The opening of the runs below: train 77 takes segments 3 and 5, train 24 asks for 3, or else 3. */
  lemma Opening(kind: Kind) returns (run: seq<Call>)
    requires kind in {AndOrTimeout, AndOrNoTimeout}
    ensures run == [Call(11, Msg(AllNoTimeout, 77, [3, 5], [], 0)), Call(12, Msg(kind, 24, [3], [3], 20))] && Calls(run)
    ensures Asked(After(run).state, if kind == AndOrTimeout then BlockedTimeoutTwo else BlockedTwo) &&
            After(run).state.table[3] == 77
  {
    hide Step, Asked, Inv, Shaped;
    var first, second := Call(11, Msg(AllNoTimeout, 77, [3, 5], [], 0)), Call(12, Msg(kind, 24, [3], [3], 20));
    TakesThreeAndFive(Start());
    AfterOne([], first);
    assert [] + [first] == [first];
    AsksForThree(After([first]).state, kind);
    AfterOne([first], second);
    run := [first] + [second];
  }

  lemma TimeoutWith(s: State, lists: seq<nat>)
    requires Asked(s, BlockedTimeoutTwo) && lists in {[], [5]}
    ensures var m := Msg(Notif, 24, lists, lists, 20);
      WellFormedMsg(m) && var o := Step(s, 13, m);
      o.state.table == s.table && o.out != [] && o.out[|o.out| - 1] == if lists == [] then Granted(12, 0) else Fail(12)
  {
    var m := Msg(Notif, 24, lists, lists, 20);
    if lists == [] {
      assert AllAvailable(s.table, m.segments, 24) && LockAll(s.table, [], 24) == s.table;
    } else {
      assert !Available(s.table, m.segments[0], 24);
    }
  }

  lemma FreesThree(s: State, state: TrainState)
    requires Asked(s, state) && s.table[3] == 77 && state in {BlockedTimeoutTwo, BlockedTwo}
    ensures var m := Msg(FreeSegments, 77, [3], [], 0);
      WellFormedMsg(m) && var o := Step(s, 11, m);
      if state == BlockedTwo then Granted(12, 0) in o.out && o.state.table[3] == 77
      else Asked(o.state, BlockedTimeoutTwo) && o.state.table[3] == 0
  {
    var m := Msg(FreeSegments, 77, [3], [], 0);
    var a := AfterFree(s, m);
    assert m.segments[0] == 3 && a.table[3] == 0;
    assert ScanTo(a, m, 0) == Outcome(a, []);
    if state == BlockedTwo {
      FreeAnswersTwoSetIff(s, 11, m, 0);
      var one := ScanTo(a, m, 1).state;
      assert one.table[3] == 77 by { assert AllAvailable(a.table, m.segments, 77); }
      ScanOneLeavesOwners(one, m, 1, 3);
      ScanOneLeavesOwners(ScanTo(a, m, 2).state, m, 2, 3);
    } else {
      assert ScanTo(a, m, 1).state == a && ScanTo(a, m, 2).state == a && ScanTo(a, m, 3).state == a;
    }
  }

  /** A run of messages the clients send, and the notifier's with empty lists: train 24 is told at its timeout that it
      has its first set, which train 77 owns. */
  lemma TimeoutGrantIsUntrue() returns (run: seq<Call>)
    ensures run == [Call(11, Msg(AllNoTimeout, 77, [3, 5], [], 0)), Call(12, Msg(AndOrTimeout, 24, [3], [3], 20)),
                    Call(13, Msg(Notif, 24, [], [], 20))]
    ensures Calls(run) && var o := After(run);
      o.out != [] && o.out[|o.out| - 1] == Granted(12, 0) && o.state.table[3] == 77
  {
    hide Step;
    var asked := Opening(AndOrTimeout);
    TimeoutWith(After(asked).state, []);
    var last := Call(13, Msg(Notif, 24, [], [], 20));
    AfterOne(asked, last);
    run := asked + [last];
  }

  /** And with other lists: train 24 is told that it can have neither set, although both are free. */
  lemma TimeoutRefusalIsUntrue() returns (run: seq<Call>)
    ensures run == [Call(11, Msg(AllNoTimeout, 77, [3, 5], [], 0)), Call(12, Msg(AndOrTimeout, 24, [3], [3], 20)),
                    Call(11, Msg(FreeSegments, 77, [3], [], 0)), Call(13, Msg(Notif, 24, [5], [5], 20))]
    ensures Calls(run) && var o := After(run);
      o.out != [] && o.out[|o.out| - 1] == Fail(12) && o.state.table[3] == 0
  {
    hide Step;
    var asked := Opening(AndOrTimeout);
    var free := Call(11, Msg(FreeSegments, 77, [3], [], 0));
    FreesThree(After(asked).state, BlockedTimeoutTwo);
    AfterOne(asked, free);
    var freed := asked + [free];
    TimeoutWith(After(freed).state, [5]);
    var last := Call(13, Msg(Notif, 24, [5], [5], 20));
    AfterOne(freed, last);
    run := freed + [last];
  }

  /** A run with the request without timeout, which no client sends: train 77 frees and takes back its segment, and
      train 24 is told that it has it. */
  lemma FreeGrantIsUntrue() returns (run: seq<Call>)
    ensures run == [Call(11, Msg(AllNoTimeout, 77, [3, 5], [], 0)), Call(12, Msg(AndOrNoTimeout, 24, [3], [3], 20)),
                    Call(11, Msg(FreeSegments, 77, [3], [], 0))]
    ensures Calls(run) && Granted(12, 0) in After(run).out && After(run).state.table[3] == 77
  {
    hide Step;
    var asked := Opening(AndOrNoTimeout);
    FreesThree(After(asked).state, BlockedTwo);
    var free := Call(11, Msg(FreeSegments, 77, [3], [], 0));
    AfterOne(asked, free);
    run := asked + [free];
  }

  lemma StartIsFine()
    ensures Inv(Start()) && NoLostWakeUp(Start())
  {
  }

  /** In every run, the owners shown are the owners in the table. */
  lemma {:induction false} RunShowsTheTable(run: seq<Call>)
    requires Calls(run)
    ensures Inv(After(run).state) && Replay(Start().table, After(run).out) == After(run).state.table
  {
    hide Step, Inv, Replay;
    if run == [] {
      StartIsFine();
      RepliesShowNothing(Start().table, Empty(0), false, 0);
    } else {
      var before := run[..|run| - 1];
      var call := run[|run| - 1];
      RunShowsTheTable(before);
      var s := After(before).state;
      StepInv(s, call.sender, call.msg);
      StepShows(s, call.sender, call.msg);
      ReplayAppend(Start().table, After(before).out, Step(s, call.sender, call.msg).out);
    }
  }

  lemma StepShows(s: State, sender: int, m: Msg)
    requires Inv(s) && WellFormedMsg(m)
    ensures Replay(s.table, Step(s, sender, m).out) == Step(s, sender, m).state.table
  {
    if m.kind == Register {
      RegisterShows(s, sender, m);
    } else {
      hide Step, Lawful;
      LockSafety(s, sender, m);
    }
  }
}
