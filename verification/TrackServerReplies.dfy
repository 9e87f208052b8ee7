/** What the track reservation server answers (track-control/src/track-server.c:139-422), in terms of the owners in the
    table and the lists of the messages alone: for every kind of message exactly the replies it brings, to whom, and
    what becomes of the table and the records. */
module TrackServerReplies {
  import opened TrackServer

  /** What was said to tasks, without what was shown, in order. */
  ghost function Replies(out: seq<Event>): seq<Event> {
    if out == [] then [] else Replies(out[..|out| - 1]) + if out[|out| - 1].Update? then [] else [out[|out| - 1]]
  }

  /** The segment is free or the train's own. */
  predicate CanHave(table: Table, x: nat, t: nat) {
    x < |table| && (table[x] == 0 || table[x] == t)
  }

  predicate CanHaveAll(table: Table, segments: seq<nat>, t: nat) {
    forall k :: 0 <= k < |segments| ==> CanHave(table, segments[k], t)
  }

  /** Position k is that of the first segment of the list the train can have. */
  predicate FirstOf(table: Table, segments: seq<nat>, t: nat, k: nat) {
    k < |segments| && CanHave(table, segments[k], t) && forall j :: 0 <= j < k ==> !CanHave(table, segments[j], t)
  }

  /** Train t owns these segments now; the others have the owners they had. */
  ghost predicate Gave(table: Table, table': Table, segments: seq<nat>, t: nat) {
    |table'| == |table| && forall x :: 0 <= x < |table| ==> table'[x] == if x in segments then t else table[x]
  }

  /** Record h waits no more; nothing else changed in the records. */
  predicate Released(s: State, s': State, h: nat) {
    h < |s.trains| && s'.trains == s.trains[h := s.trains[h].(state := Idle)]
  }

  /** The request is in the record of its train as it came; the table is as it was.  With a timeout, and only then, the
      notifier of the train is started. */
  ghost predicate Remembered(s: State, o: Outcome, h: nat, sender: int, m: Msg, state: TrainState, all: bool) {
    h < |s.trains| && o.state.table == s.table &&
    o.state.trains == s.trains[h := TrainData(state, m.trainNo, sender, m.segments, m.second, all,
                                              s.trains[h].notifierTid, m.timeout % 65536)] &&
    Replies(o.out) == if state in {BlockedTimeout, BlockedTimeoutTwo}
      then [StartTimer(s.trains[h].notifierTid, m.trainNo, m.timeout % 65536)] else []
  }

  lemma RepliesMore(out: seq<Event>, e: Event)
    ensures Replies(out + [e]) == Replies(out) + if e.Update? then [] else [e]
  {
    assert (out + [e])[..|out|] == out;
  }

  lemma {:induction false} RepliesAppend(a: seq<Event>, b: seq<Event>)
    ensures Replies(a + b) == Replies(a) + Replies(b)
  {
    if b == [] {
      assert a + b == a;
    } else {
      var c, e := b[..|b| - 1], b[|b| - 1];
      RepliesAppend(a, c);
      RepliesMore(a + c, e);
      assert a + b == (a + c) + [e];
    }
  }

  lemma {:induction false} OnlyShown(out: seq<Event>)
    requires forall e :: e in out ==> e.Update?
    ensures Replies(out) == []
  {
    if out != [] {
      assert out[|out| - 1] in out;
      OnlyShown(out[..|out| - 1]);
    }
  }

  lemma OneReply(e: Event)
    ensures Replies([e]) == if e.Update? then [] else [e]
    ensures Replies([]) == []
  {
    assert [] + [e] == [e];
    RepliesMore([], e);
  }

  /** The two notions of what a train can have, over whole lists. */
  lemma AvailableIs(table: Table, segments: seq<nat>, t: nat)
    requires |table| == N_SEGMENTS && ValidSegments(segments)
    ensures AllAvailable(table, segments, t) <==> CanHaveAll(table, segments, t)
  {
    forall k | 0 <= k < |segments| ensures Available(table, segments[k], t) <==> CanHave(table, segments[k], t) { }
  }

  lemma {:induction false} FirstIs(table: Table, segments: seq<nat>, t: nat, i: nat)
    requires |table| == N_SEGMENTS && ValidSegments(segments) && i <= |segments|
    requires forall j :: 0 <= j < i ==> !CanHave(table, segments[j], t)
    ensures var x := FirstAvailable(table, segments, t, i);
      if x == -1 then forall k :: 0 <= k < |segments| ==> !CanHave(table, segments[k], t)
      else exists k: nat :: FirstOf(table, segments, t, k) && segments[k] == x
    decreases |segments| - i
  {
    if i < |segments| && !CanHave(table, segments[i], t) {
      FirstIs(table, segments, t, i + 1);
    } else if i < |segments| {
      assert FirstOf(table, segments, t, i);
    }
  }

  /** Segments taken and the reply sent. */
  lemma TakenGave(s: State, h: nat, segments: seq<nat>, t: nat, reply: Event)
    requires Shaped(s) && h < N_TRNS && ValidSegments(segments) && !reply.Update?
    ensures var o := Taken(s, h, segments, t, reply);
      Gave(s.table, o.state.table, segments, t) && Released(s, o.state, h) && Replies(o.out) == [reply]
  {
    OnlyShown(LockEvents(segments, t));
    RepliesMore(LockEvents(segments, t), reply);
    assert [] + [reply] == [reply];
  }

  lemma RefusedRemembers(s: State, h: nat, sender: int, m: Msg, state: TrainState, all: bool)
    requires Shaped(s) && h < N_TRNS
    ensures Remembered(s, Refused(s, h, sender, m, state, all), h, sender, m, state, all)
  {
    OneReply(StartTimer(s.trains[h].notifierTid, m.trainNo, m.timeout % 65536));
  }

  /** Each of the trains 24, 58 and 77, and no other, has a record, and its own. */
  lemma OwnRecord(t: nat, u: nat)
    ensures TrnHash(t) in {-1, 0, 1, 2} && (TrnHash(t) >= 0 <==> t in {24, 58, 77})
    ensures TrnHash(t) == TrnHash(u) >= 0 ==> t == u
  {
  }

  // ----- requests -----

  /** ASK_FREE: yes exactly when nobody owns the segment, and nothing changes. */
  lemma AskFreeAnswered(s: State, sender: int, m: Msg)
    requires Shaped(s) && WellFormedMsg(m) && m.kind == AskFree
    ensures var o := Step(s, sender, m);
      o.state == s && Replies(o.out) == [if s.table[m.segments[0]] == 0 then Success(sender) else Fail(sender)]
  {
    OneReply(Success(sender));
    OneReply(Fail(sender));
  }

  /** A request for all of a list: granted exactly when the train can have them all, otherwise remembered. */
  lemma AllAnswered(s: State, sender: int, m: Msg)
    requires Shaped(s) && WellFormedMsg(m) && m.kind in {AllTimeout, AllNoTimeout}
    ensures var o, h := Step(s, sender, m), TrnHash(m.trainNo);
      0 <= h < N_TRNS &&
      if CanHaveAll(s.table, m.segments, m.trainNo) then
        Replies(o.out) == [Success(sender)] && Gave(s.table, o.state.table, m.segments, m.trainNo) &&
        Released(s, o.state, h)
      else Remembered(s, o, h, sender, m, if m.kind == AllTimeout then BlockedTimeout else Blocked, true)
  {
    hide AllAvailable, CanHaveAll, Taken, Refused, Gave, Released, Remembered, Replies;
    var h := TrnHash(m.trainNo);
    AvailableIs(s.table, m.segments, m.trainNo);
    TakenGave(s, h, m.segments, m.trainNo, Success(sender));
    RefusedRemembers(s, h, sender, m, if m.kind == AllTimeout then BlockedTimeout else Blocked, true);
  }

  /** A request for one of a list: granted exactly when the train can have one of them, and then the first of these, by
      name; otherwise remembered. */
  lemma OneAnswered(s: State, sender: int, m: Msg)
    requires Shaped(s) && WellFormedMsg(m) && m.kind in {OneTimeout, OneNoTimeout}
    ensures var o, h, t := Step(s, sender, m), TrnHash(m.trainNo), m.trainNo;
      0 <= h < N_TRNS &&
      if exists k :: 0 <= k < |m.segments| && CanHave(s.table, m.segments[k], t) then
        exists k: nat :: FirstOf(s.table, m.segments, t, k) && Replies(o.out) == [Granted(sender, m.segments[k])] &&
          Gave(s.table, o.state.table, [m.segments[k]], t) && Released(s, o.state, h)
      else Remembered(s, o, h, sender, m, if m.kind == OneTimeout then BlockedTimeout else Blocked, false)
  {
    hide CanHave, Taken, Refused, Gave, Released, Remembered, Replies;
    var h := TrnHash(m.trainNo);
    var x := FirstAvailable(s.table, m.segments, m.trainNo, 0);
    FirstIs(s.table, m.segments, m.trainNo, 0);
    if x != -1 { TakenGave(s, h, [x], m.trainNo, Granted(sender, x)); }
    RefusedRemembers(s, h, sender, m, if m.kind == OneTimeout then BlockedTimeout else Blocked, false);
  }

  /** A request for one of two lists: the first, if the train can have it all, else the second; the answer tells which.
      Otherwise it is remembered. */
  lemma TwoAnswered(s: State, sender: int, m: Msg)
    requires Shaped(s) && WellFormedMsg(m) && m.kind in {AndOrTimeout, AndOrNoTimeout}
    ensures var o, h, t := Step(s, sender, m), TrnHash(m.trainNo), m.trainNo;
      0 <= h < N_TRNS &&
      if CanHaveAll(s.table, m.segments, t) then
        Replies(o.out) == [Granted(sender, 0)] && Gave(s.table, o.state.table, m.segments, t) && Released(s, o.state, h)
      else if CanHaveAll(s.table, m.second, t) then
        Replies(o.out) == [Granted(sender, 1)] && Gave(s.table, o.state.table, m.second, t) && Released(s, o.state, h)
      else Remembered(s, o, h, sender, m, if m.kind == AndOrTimeout then BlockedTimeoutTwo else BlockedTwo, true)
  {
    hide AllAvailable, CanHaveAll, Taken, Refused, Gave, Released, Remembered, Replies;
    var h := TrnHash(m.trainNo);
    AvailableIs(s.table, m.segments, m.trainNo);
    AvailableIs(s.table, m.second, m.trainNo);
    TakenGave(s, h, m.segments, m.trainNo, Granted(sender, 0));
    TakenGave(s, h, m.second, m.trainNo, Granted(sender, 1));
    RefusedRemembers(s, h, sender, m, if m.kind == AndOrTimeout then BlockedTimeoutTwo else BlockedTwo, true);
  }

  // ----- frees -----

  /** A waiting record looked at after a train freed segments with message m: s and s' are before and after, and
      said is what was said. */
  ghost predicate LookedAt(s: State, s': State, said: seq<Event>, m: Msg, i: nat) {
    i < |s.trains| &&
    var d := s.trains[i];
    if d.trainNo != m.trainNo && d.state == Blocked && d.allRequired && CanHaveAll(s.table, d.segments, d.trainNo) then
      said == [Success(d.requesterTid)] && Gave(s.table, s'.table, d.segments, d.trainNo) && Released(s, s', i)
    else if d.trainNo != m.trainNo && d.state == Blocked && !d.allRequired &&
         exists k :: 0 <= k < |d.segments| && CanHave(s.table, d.segments[k], d.trainNo) then
      exists k: nat :: FirstOf(s.table, d.segments, d.trainNo, k) && said == [Granted(d.requesterTid, d.segments[k])] &&
        Gave(s.table, s'.table, [d.segments[k]], d.trainNo) && Released(s, s', i)
    else if d.trainNo != m.trainNo && d.state == BlockedTwo && CanHaveAll(s.table, m.segments, m.trainNo) then
      said == [Granted(d.requesterTid, 0)] && Gave(s.table, s'.table, m.segments, m.trainNo) && Released(s, s', i)
    else if d.trainNo != m.trainNo && d.state == BlockedTwo && CanHaveAll(s.table, m.second, m.trainNo) then
      said == [Granted(d.requesterTid, 1)] && Gave(s.table, s'.table, m.second, m.trainNo) && Released(s, s', i)
    else said == [] && s' == s
  }

  lemma ScanLooks(s: State, m: Msg, i: nat)
    requires Shaped(s) && ValidSegments(m.segments) && ValidSegments(m.second) && i < N_TRNS
    ensures LookedAt(s, ScanOne(s, m, i).state, Replies(ScanOne(s, m, i).out), m, i)
  {
    hide AllAvailable, CanHaveAll, CanHave, Taken, Gave, Released, Replies, FirstAvailable;
    var d := s.trains[i];
    OneReply(Success(0));
    AvailableIs(s.table, d.segments, d.trainNo);
    AvailableIs(s.table, m.segments, m.trainNo);
    AvailableIs(s.table, m.second, m.trainNo);
    FirstIs(s.table, d.segments, d.trainNo, 0);
    TakenGave(s, i, d.segments, d.trainNo, Success(d.requesterTid));
    TakenGave(s, i, m.segments, m.trainNo, Granted(d.requesterTid, 0));
    TakenGave(s, i, m.second, m.trainNo, Granted(d.requesterTid, 1));
    var x := FirstAvailable(s.table, d.segments, d.trainNo, 0);
    if x != -1 { TakenGave(s, i, [x], d.trainNo, Granted(d.requesterTid, x)); }
  }

  /** The listed segments that the train owns are free now, and no others. */
  ghost predicate Freed(table: Table, table': Table, segments: seq<nat>, t: nat) {
    |table'| == |table| &&
    forall x :: 0 <= x < |table| ==> table'[x] == if x in segments && table[x] == t then 0 else table[x]
  }

  lemma {:induction false} FreeEventsShow(table: Table, segments: seq<nat>, t: nat, n: nat)
    requires |table| == N_SEGMENTS && ValidSegments(segments) && n <= |segments|
    ensures forall e :: e in FreeEvents(table, segments, t, n) ==> e.Update?
  {
    if n > 0 { FreeEventsShow(table, segments, t, n - 1); }
  }

  /** FREE_SEGMENTS: the sender is told so, and then each record is looked at once, in order. */
  lemma FreeAnswered(s: State, sender: int, m: Msg) returns (a: State, b: State, c: State, said: seq<seq<Event>>)
    requires Shaped(s) && WellFormedMsg(m) && m.kind == FreeSegments
    ensures var o := Step(s, sender, m);
      Freed(s.table, a.table, m.segments, m.trainNo) && a.trains == s.trains && |said| == 3 &&
      LookedAt(a, b, said[0], m, 0) && LookedAt(b, c, said[1], m, 1) && LookedAt(c, o.state, said[2], m, 2) &&
      Replies(o.out) == [Success(sender)] + said[0] + said[1] + said[2]
  {
    hide ScanOne, Replies, LookedAt, FreeEvents;
    a := AfterFree(s, m);
    var one, two, three := ScanTo(a, m, 1), ScanTo(a, m, 2), ScanTo(a, m, 3);
    assert ScanTo(a, m, 0) == Outcome(a, []);
    b, c := one.state, two.state;
    ScanLooks(a, m, 0);
    ScanLooks(b, m, 1);
    ScanLooks(c, m, 2);
    said := [Replies(ScanOne(a, m, 0).out), Replies(ScanOne(b, m, 1).out), Replies(ScanOne(c, m, 2).out)];
    var shown := FreeEvents(s.table, m.segments, m.trainNo, |m.segments|);
    FreeEventsShow(s.table, m.segments, m.trainNo, |m.segments|);
    OnlyShown(shown);
    RepliesMore(shown, Success(sender));
    RepliesAppend(shown + [Success(sender)], three.out);
    RepliesAppend(two.out, ScanOne(c, m, 2).out);
    RepliesAppend(one.out, ScanOne(b, m, 1).out);
    assert one.out == ScanOne(a, m, 0).out;
    assert [] + [Success(sender)] == [Success(sender)];
    var p, q, r := said[0], said[1], said[2];
    assert [Success(sender)] + (p + q + r) == [Success(sender)] + p + q + r;
  }

  lemma {:induction false} ClearEventsShow(table: Table, t: nat, keep: int, n: nat)
    requires |table| == N_SEGMENTS && n <= N_SEGMENTS
    ensures forall e :: e in ClearEvents(table, t, keep, n) ==> e.Update?
  {
    if n > 0 { ClearEventsShow(table, t, keep, n - 1); }
  }

  /** FREE_ALL: all the train owns is free now, except the segment in a list of just one; its record waits no more, and
      the sender gets an empty reply. */
  lemma FreeAllAnswered(s: State, sender: int, m: Msg)
    requires Shaped(s) && WellFormedMsg(m) && m.kind == FreeAll
    ensures var o, h := Step(s, sender, m), TrnHash(m.trainNo);
      0 <= h < N_TRNS && Released(s, o.state, h) && Replies(o.out) == [Empty(sender)] && |o.state.table| == |s.table| &&
      forall x :: 0 <= x < |s.table| ==>
        o.state.table[x] ==
          if s.table[x] == m.trainNo && m.segments != [x] then 0 else s.table[x]
  {
    hide ClearEvents, Replies;
    var shown := ClearEvents(s.table, m.trainNo, Kept(m), N_SEGMENTS);
    ClearEventsShow(s.table, m.trainNo, Kept(m), N_SEGMENTS);
    OnlyShown(shown);
    RepliesMore(shown, Empty(sender));
    assert [] + [Empty(sender)] == [Empty(sender)];
  }

  /** TRAIN_REGISTER: the segment is the train's now, and the sender gets an empty reply. */
  lemma RegisterAnswered(s: State, sender: int, m: Msg)
    requires Shaped(s) && WellFormedMsg(m) && m.kind == Register
    ensures var o := Step(s, sender, m);
      Gave(s.table, o.state.table, m.segments[..1], m.trainNo) && o.state.trains == s.trains &&
      Replies(o.out) == [Empty(sender)]
  {
    var e := Update(m.segments[0], m.trainNo);
    OneReply(e);
    RepliesMore([e], Empty(sender));
    assert [e, Empty(sender)] == [e] + [Empty(sender)];
    assert m.segments[..1] == [m.segments[0]];
  }

  lemma OtherAnswered(s: State, sender: int, m: Msg)
    requires Shaped(s) && WellFormedMsg(m) && m.kind == Other
    ensures Step(s, sender, m).state == s && Replies(Step(s, sender, m).out) == [Error(sender)]
  {
    OneReply(Error(sender));
  }

  // ----- timeouts -----

  /** What the record of train h gets at its timeout with message m. */
  ghost predicate TimedOut(s: State, s': State, said: seq<Event>, m: Msg, h: nat) {
    h < |s.trains| &&
    var d := s.trains[h];
    if d.state == Idle then s' == s && said == []
    else
      Released(s, s', h) &&
      if d.state == BlockedTimeoutTwo then
        if CanHaveAll(s.table, m.segments, m.trainNo) then
          said == [Granted(d.requesterTid, 0)] && Gave(s.table, s'.table, m.segments, m.trainNo)
        else if CanHaveAll(s.table, m.second, m.trainNo) then
          said == [Granted(d.requesterTid, 1)] && Gave(s.table, s'.table, m.second, m.trainNo)
        else said == [Fail(d.requesterTid)] && s'.table == s.table
      else if d.allRequired then
        if CanHaveAll(s.table, d.segments, d.trainNo) then
          said == [Success(d.requesterTid)] && Gave(s.table, s'.table, d.segments, d.trainNo)
        else said == [Fail(d.requesterTid)] && s'.table == s.table
      else if exists k :: 0 <= k < |d.segments| && CanHave(s.table, d.segments[k], d.trainNo) then
        exists k: nat :: FirstOf(s.table, d.segments, d.trainNo, k) &&
          said == [Granted(d.requesterTid, d.segments[k])] &&
          Gave(s.table, s'.table, [d.segments[k]], d.trainNo)
      else said == [Fail(d.requesterTid)] && s'.table == s.table
  }

  lemma GivenUpFails(s: State, h: nat)
    requires Shaped(s) && h < N_TRNS
    ensures var o := GivenUp(s, h);
      Released(s, o.state, h) && o.state.table == s.table && Replies(o.out) == [Fail(s.trains[h].requesterTid)]
  {
    OneReply(Fail(s.trains[h].requesterTid));
  }

  /** A timeout is answered in every case, unless nobody waits any more; the first message of a notifier is ignored. */
  lemma TimeoutAnswered(s: State, sender: int, m: Msg)
    requires Shaped(s) && WellFormedMsg(m) && m.kind == Notif
    ensures var o, h := Step(s, sender, m), TrnHash(m.trainNo);
      if m.trainNo == 0 then o.state == s && o.out == []
      else 0 <= h < N_TRNS && TimedOut(s, o.state, Replies(o.out), m, h)
  {
    hide AllAvailable, CanHaveAll, CanHave, Taken, Gave, Released, Replies, FirstAvailable, GivenUp;
    OneReply(Success(0));
    if m.trainNo != 0 {
      var h := TrnHash(m.trainNo);
      var d := s.trains[h];
      AvailableIs(s.table, d.segments, d.trainNo);
      AvailableIs(s.table, m.segments, m.trainNo);
      AvailableIs(s.table, m.second, m.trainNo);
      FirstIs(s.table, d.segments, d.trainNo, 0);
      TakenGave(s, h, d.segments, d.trainNo, Success(d.requesterTid));
      TakenGave(s, h, m.segments, m.trainNo, Granted(d.requesterTid, 0));
      TakenGave(s, h, m.second, m.trainNo, Granted(d.requesterTid, 1));
      var x := FirstAvailable(s.table, d.segments, d.trainNo, 0);
      if x != -1 { TakenGave(s, h, [x], d.trainNo, Granted(d.requesterTid, x)); }
      GivenUpFails(s, h);
    }
  }

  // ----- whom a record waits for -----

  predicate IsRequest(m: Msg) {
    m.kind in {AllTimeout, AllNoTimeout, OneTimeout, OneNoTimeout, AndOrTimeout, AndOrNoTimeout}
  }

  /** The record holds this request: who sent it, its train, lists and timeout, and by its kind how it waits. */
  predicate Holds(d: TrainData, c: Call) {
    d.requesterTid == c.sender && d.trainNo == c.msg.trainNo && d.segments == c.msg.segments &&
    d.second == c.msg.second && d.timeout == c.msg.timeout % 65536 &&
    match c.msg.kind
    case AllTimeout => d.state == BlockedTimeout && d.allRequired
    case AllNoTimeout => d.state == Blocked && d.allRequired
    case OneTimeout => d.state == BlockedTimeout && !d.allRequired
    case OneNoTimeout => d.state == Blocked && !d.allRequired
    case AndOrTimeout => d.state == BlockedTimeoutTwo
    case AndOrNoTimeout => d.state == BlockedTwo
    case _ => false
  }

  /** A message changes the record of its train when it is a request; otherwise records only stop waiting. */
  lemma StepRecord(s: State, sender: int, m: Msg, i: nat)
    requires Shaped(s) && WellFormedMsg(m) && i < N_TRNS
    ensures var d, d' := s.trains[i], Step(s, sender, m).state.trains[i];
      if IsRequest(m) && TrnHash(m.trainNo) == i then d'.state == Idle || Holds(d', Call(sender, m))
      else d' == d || d'.state == Idle
  {
    hide Step, CanHaveAll, CanHave, Gave, Replies, FirstOf;
    match m.kind
    case AskFree => AskFreeAnswered(s, sender, m);
    case AllTimeout => AllAnswered(s, sender, m);
    case AllNoTimeout => AllAnswered(s, sender, m);
    case OneTimeout => OneAnswered(s, sender, m);
    case OneNoTimeout => OneAnswered(s, sender, m);
    case AndOrTimeout => TwoAnswered(s, sender, m);
    case AndOrNoTimeout => TwoAnswered(s, sender, m);
    case FreeSegments =>
      var a, b, c, said := FreeAnswered(s, sender, m);
      LookedAtRecord(a, b, said[0], m, 0, i);
      LookedAtRecord(b, c, said[1], m, 1, i);
      LookedAtRecord(c, Step(s, sender, m).state, said[2], m, 2, i);
    case FreeAll => FreeAllAnswered(s, sender, m);
    case Register => RegisterAnswered(s, sender, m);
    case Notif => TimeoutAnswered(s, sender, m);
    case Other => OtherAnswered(s, sender, m);
  }

  lemma LookedAtRecord(s: State, s': State, said: seq<Event>, m: Msg, j: nat, i: nat)
    requires LookedAt(s, s', said, m, j) && i < |s.trains|
    ensures |s'.trains| == |s.trains| && (s'.trains[i] == s.trains[i] || s'.trains[i].state == Idle)
  {
  }

  /** In any run, a record that waits holds the last request of its train, as it was sent. */
  lemma {:induction false} WaitsForTheLastRequest(run: seq<Call>, i: nat) returns (k: nat)
    requires Calls(run) && i < N_TRNS && After(run).state.trains[i].state != Idle
    ensures k < |run| && IsRequest(run[k].msg) && Holds(After(run).state.trains[i], run[k]) &&
      TrnHash(run[k].msg.trainNo) == i
    ensures forall j :: k < j < |run| ==> !(IsRequest(run[j].msg) && TrnHash(run[j].msg.trainNo) == i)
  {
    hide Step, Holds;
    if run == [] {
      assert false;
    } else {
      var before, c := run[..|run| - 1], run[|run| - 1];
      StepRecord(After(before).state, c.sender, c.msg, i);
      if IsRequest(c.msg) && TrnHash(c.msg.trainNo) == i {
        k := |run| - 1;
      } else {
        k := WaitsForTheLastRequest(before, i);
      }
    }
  }
}
