/** The message handling of track_server_main (track-control/src/track-server.c:46-108, 134-423), in place on the
    lock table and the train records.  Every method does what the step functions of TrackServer say. */
module TrackServerProgram {
  import opened TrackServer

  class Server {
    const lockSectors: array<nat>
    const trainData: array<TrainData>
    ghost var out: seq<Event>

    ghost predicate Valid()
      reads this, lockSectors, trainData
    {
      lockSectors.Length == N_SEGMENTS && trainData.Length == N_TRNS && Shaped(View())
    }

    ghost function View(): State
      reads this, lockSectors, trainData
    {
      State(lockSectors[..], trainData[..])
    }

    constructor ()
      ensures Valid() && View() == Start() && out == []
      ensures fresh(lockSectors) && fresh(trainData)
    {
      lockSectors := new nat[N_SEGMENTS](_ => 0);
      trainData := new TrainData[N_TRNS](_ => TrainData(Idle, 0, 0, [], [], false, 0, 0));
      out := [];
    }

    method CheckAllFree(segments: seq<nat>, t: nat) returns (free: bool)
      requires Valid() && ValidSegments(segments)
      ensures free <==> AllAvailable(lockSectors[..], segments, t)
    {
      for i := 0 to |segments|
        invariant forall k :: 0 <= k < i ==> Available(lockSectors[..], segments[k], t)
      {
        var segment := segments[i];
        if lockSectors[segment] != 0 && lockSectors[segment] != t {
          assert !Available(lockSectors[..], segments[i], t);
          return false;
        }
      }
      free := true;
    }

    method LockAllUnsafe(segments: seq<nat>, t: nat)
      requires Valid() && ValidSegments(segments)
      modifies lockSectors, this`out
      ensures Valid() && trainData[..] == old(trainData[..])
      ensures lockSectors[..] == LockAll(old(lockSectors[..]), segments, t)
      ensures out == old(out) + LockEvents(segments, t)
    {
      ghost var table := lockSectors[..];
      assert LockAll(table, segments[..0], t) == table;
      for i := 0 to |segments|
        invariant lockSectors[..] == LockAll(table, segments[..i], t)
        invariant out == old(out) + LockEvents(segments, t)[..i]
      {
        LockAllSnoc(table, segments, t, i);
        var segment := segments[i];
        lockSectors[segment] := t;
        out := out + [Update(segment, t)];
        assert LockEvents(segments, t)[..i + 1] == LockEvents(segments, t)[..i] + [Update(segment, t)];
      }
      assert segments[..|segments|] == segments;
    }

    method LockOneSafe(segments: seq<nat>, t: nat) returns (id: int)
      requires Valid() && ValidSegments(segments)
      modifies lockSectors, this`out
      ensures Valid() && trainData[..] == old(trainData[..])
      ensures id == FirstAvailable(old(lockSectors[..]), segments, t, 0)
      ensures id == -1 ==> lockSectors[..] == old(lockSectors[..]) && out == old(out)
      ensures id != -1 ==> 0 <= id && ValidSegments([id as nat]) &&
                           lockSectors[..] == LockAll(old(lockSectors[..]), [id as nat], t) &&
                           out == old(out) + LockEvents([id as nat], t)
    {
      ghost var table := lockSectors[..];
      for i := 0 to |segments|
        invariant lockSectors[..] == table && out == old(out)
        invariant FirstAvailable(table, segments, t, 0) == FirstAvailable(table, segments, t, i)
      {
        var requested := segments[i];
        if lockSectors[requested] == 0 || lockSectors[requested] == t {
          assert Available(table, segments[i], t);
          lockSectors[requested] := t;
          out := out + [Update(requested, t)];
          assert LockEvents([requested], t) == [Update(requested, t)];
          assert lockSectors[..] == LockAll(table, [requested], t);
          return requested;
        }
      }
      id := -1;
    }

    method LockAllSafe(segments: seq<nat>, t: nat) returns (success: bool)
      requires Valid() && ValidSegments(segments)
      modifies lockSectors, this`out
      ensures Valid() && trainData[..] == old(trainData[..])
      ensures success <==> AllAvailable(old(lockSectors[..]), segments, t)
      ensures !success ==> lockSectors[..] == old(lockSectors[..]) && out == old(out)
      ensures success ==> lockSectors[..] == LockAll(old(lockSectors[..]), segments, t) &&
                          out == old(out) + LockEvents(segments, t)
    {
      success := CheckAllFree(segments, t);
      if success {
        LockAllUnsafe(segments, t);
      }
    }

    method Reply(e: Event)
      modifies this`out
      ensures out == old(out) + [e]
    {
      out := out + [e];
    }

    method SetRecord(h: nat, d: TrainData)
      requires Valid() && h < N_TRNS && ValidSegments(d.segments) && ValidSegments(d.second)
      modifies trainData
      ensures Valid() && lockSectors[..] == old(lockSectors[..])
      ensures trainData[..] == old(trainData[..])[h := d]
    {
      trainData[h] := d;
    }

    method SetIdle(h: nat)
      requires Valid() && h < N_TRNS
      modifies trainData
      ensures Valid() && lockSectors[..] == old(lockSectors[..])
      ensures trainData[..] == old(trainData[..])[h := old(trainData[..])[h].(state := Idle)]
    {
      SetRecord(h, trainData[h].(state := Idle));
    }

    /** The branch of a refused request: the record is filled and a timer started if there is a timeout. */
    method Block(h: nat, sender: int, m: Msg, state: TrainState, all: bool)
      requires Valid() && h < N_TRNS && ValidSegments(m.segments) && ValidSegments(m.second)
      modifies trainData, this`out
      ensures Valid() && View() == Refused(old(View()), h, sender, m, state, all).state
      ensures out == old(out) + Refused(old(View()), h, sender, m, state, all).out
    {
      SetRecord(h, Stored(trainData[h], sender, m, state, all));
      if state == BlockedTimeout || state == BlockedTimeoutTwo {
        var d := trainData[h];
        Reply(StartTimer(d.notifierTid, d.trainNo, d.timeout));
      }
    }

    method RequestAll(sender: int, m: Msg)
      requires Valid() && ValidSegments(m.segments) && ValidSegments(m.second) && TrnHash(m.trainNo) >= 0
      modifies this`out, lockSectors, trainData
      ensures Valid() && View() == StepAll(old(View()), sender, m).state
      ensures out == old(out) + StepAll(old(View()), sender, m).out
    {
      hide AllAvailable, LockAll, LockEvents, Shaped, Refused;
      var success := LockAllSafe(m.segments, m.trainNo);
      var h: nat := TrnHash(m.trainNo);
      if success {
        SetIdle(h);
        Reply(Success(sender));
      } else {
        Block(h, sender, m, if m.kind == AllTimeout then BlockedTimeout else Blocked, true);
      }
    }

    method RequestOne(sender: int, m: Msg)
      requires Valid() && ValidSegments(m.segments) && ValidSegments(m.second) && TrnHash(m.trainNo) >= 0
      modifies this`out, lockSectors, trainData
      ensures Valid() && View() == StepOne(old(View()), sender, m).state
      ensures out == old(out) + StepOne(old(View()), sender, m).out
    {
      hide LockAll, LockEvents, Shaped, Refused, FirstAvailable;
      var id := LockOneSafe(m.segments, m.trainNo);
      var h: nat := TrnHash(m.trainNo);
      if id != -1 {
        SetIdle(h);
        Reply(Granted(sender, id));
      } else {
        Block(h, sender, m, if m.kind == OneTimeout then BlockedTimeout else Blocked, false);
      }
    }

    method RequestAndOr(sender: int, m: Msg)
      requires Valid() && ValidSegments(m.segments) && ValidSegments(m.second) && TrnHash(m.trainNo) >= 0
      modifies this`out, lockSectors, trainData
      ensures Valid() && View() == StepAndOr(old(View()), sender, m).state
      ensures out == old(out) + StepAndOr(old(View()), sender, m).out
    {
      hide AllAvailable, LockAll, LockEvents, Shaped, Refused;
      var h: nat := TrnHash(m.trainNo);
      var success := LockAllSafe(m.segments, m.trainNo);
      if success {
        SetIdle(h);
        Reply(Granted(sender, 0));
      } else {
        success := LockAllSafe(m.second, m.trainNo);
        if success {
          SetIdle(h);
          Reply(Granted(sender, 1));
        } else {
          Block(h, sender, m, if m.kind == AndOrTimeout then BlockedTimeoutTwo else BlockedTwo, true);
        }
      }
    }

    /** The loop that frees the segments of the message's train. */
    method FreeLoop(m: Msg)
      requires Valid() && ValidSegments(m.segments)
      modifies this`out, lockSectors
      ensures Valid() && View() == AfterFree(old(View()), m)
      ensures out == old(out) + FreeEvents(old(lockSectors[..]), m.segments, m.trainNo, |m.segments|)
    {
      ghost var table, segments, t := lockSectors[..], m.segments, m.trainNo;
      assert segments[..0] == [];
      FreeNothing(table, t);
      for i := 0 to |m.segments|
        invariant Valid() && trainData[..] == old(trainData[..])
        invariant lockSectors[..] == FreeOwned(table, segments[..i], t)
        invariant out == old(out) + FreeEvents(table, segments, t, i)
      {
        hide FreeOwned;
        FreeOwnedSnoc(table, segments, t, i);
        var index := m.segments[i];
        assert lockSectors[index] == lockSectors[..][index];
        if lockSectors[index] == m.trainNo {
          lockSectors[index] := 0;
          out := out + [Update(index, 0)];
        }
      }
      assert segments[..|segments|] == segments;
    }

    /** One round of the scan for waiting trains. */
    method ScanRecord(m: Msg, i: nat)
      requires Valid() && ValidSegments(m.segments) && ValidSegments(m.second) && i < N_TRNS
      modifies this`out, lockSectors, trainData
      ensures Valid() && View() == ScanOne(old(View()), m, i).state
      ensures out == old(out) + ScanOne(old(View()), m, i).out
    {
      hide AllAvailable, LockAll, LockEvents, FirstAvailable, Shaped;
      RecordsShaped(View(), i);
      var d := trainData[i];
      if d.trainNo != m.trainNo && d.state == Blocked {
        if d.allRequired {
          var success := LockAllSafe(d.segments, d.trainNo);
          if success {
            SetIdle(i);
            Reply(Success(d.requesterTid));
          }
        } else {
          var id := LockOneSafe(d.segments, d.trainNo);
          if id != -1 {
            SetIdle(i);
            Reply(Granted(d.requesterTid, id));
          }
        }
      } else if d.trainNo != m.trainNo && d.state == BlockedTwo {
        var success := LockAllSafe(m.segments, m.trainNo);
        if success {
          SetIdle(i);
          Reply(Granted(d.requesterTid, 0));
        } else {
          success := LockAllSafe(m.second, m.trainNo);
          if success {
            SetIdle(i);
            Reply(Granted(d.requesterTid, 1));
          }
        }
      }
    }

    method FreeSegmentsOf(sender: int, m: Msg)
      requires Valid() && ValidSegments(m.segments) && ValidSegments(m.second)
      modifies this`out, lockSectors, trainData
      ensures Valid() && View() == StepFree(old(View()), sender, m).state
      ensures out == old(out) + StepFree(old(View()), sender, m).out
    {
      hide ScanOne, Shaped, AfterFree, FreeEvents;
      FreeLoop(m);
      Reply(Success(sender));
      ghost var a := View();
      ghost var told := out;
      for i := 0 to N_TRNS
        invariant Valid() && View() == ScanTo(a, m, i).state && out == told + ScanTo(a, m, i).out
      {
        ScanRecord(m, i);
      }
    }

    method Timeout(m: Msg)
      requires Valid() && ValidSegments(m.segments) && ValidSegments(m.second) && TrnHash(m.trainNo) >= 0
      modifies this`out, lockSectors, trainData
      ensures Valid() && View() == StepNotif(old(View()), m).state
      ensures out == old(out) + StepNotif(old(View()), m).out
    {
      hide AllAvailable, LockAll, LockEvents, FirstAvailable, Shaped;
      var h: nat := TrnHash(m.trainNo);
      RecordsShaped(View(), h);
      var d := trainData[h];
      if d.state == Idle {
        return;
      }
      var answer := Fail(d.requesterTid);
      if d.state == BlockedTimeoutTwo {
        var success := LockAllSafe(m.segments, m.trainNo);
        if success {
          answer := Granted(d.requesterTid, 0);
        } else {
          success := LockAllSafe(m.second, m.trainNo);
          if success {
            answer := Granted(d.requesterTid, 1);
          }
        }
      } else if d.allRequired {
        var success := LockAllSafe(d.segments, d.trainNo);
        if success {
          answer := Success(d.requesterTid);
        }
      } else {
        var id := LockOneSafe(d.segments, d.trainNo);
        if id != -1 {
          answer := Granted(d.requesterTid, id);
        }
      }
      Reply(answer);
      SetIdle(h);
    }

    method FreeAllOf(sender: int, m: Msg)
      requires Valid() && TrnHash(m.trainNo) >= 0
      modifies this`out, lockSectors, trainData
      ensures Valid() && View() == StepFreeAll(old(View()), sender, m).state
      ensures out == old(out) + StepFreeAll(old(View()), sender, m).out
    {
      ghost var table, t := lockSectors[..], m.trainNo;
      var current: int := -1;
      if |m.segments| == 1 {
        current := m.segments[0];
      }
      assert Cleared(table, t, current, 0) == table;
      for i := 0 to N_SEGMENTS
        invariant Valid() && trainData[..] == old(trainData[..])
        invariant lockSectors[..] == Cleared(table, t, current, i)
        invariant out == old(out) + ClearEvents(table, t, current, i)
      {
        hide Cleared, Shaped;
        ClearedSnoc(table, t, current, i);
        assert lockSectors[i] == lockSectors[..][i];
        if lockSectors[i] == m.trainNo && i != current {
          lockSectors[i] := 0;
          out := out + [Update(i, 0)];
        }
      }
      SetIdle(TrnHash(m.trainNo));
      Reply(Empty(sender));
    }

    method Assign(segment: nat, t: nat)
      requires Valid() && segment < N_SEGMENTS
      modifies this`out, lockSectors
      ensures Valid() && trainData[..] == old(trainData[..])
      ensures lockSectors[..] == old(lockSectors[..])[segment := t] && out == old(out) + [Update(segment, t)]
    {
      lockSectors[segment] := t;
      out := out + [Update(segment, t)];
    }

    /** One turn of the server's loop. */
    method Handle(sender: int, m: Msg)
      requires Valid() && WellFormedMsg(m)
      modifies this`out, lockSectors, trainData
      ensures Valid() && View() == Step(old(View()), sender, m).state
      ensures out == old(out) + Step(old(View()), sender, m).out
    {
      hide StepAll, StepOne, StepAndOr, StepFree, StepFreeAll, StepNotif, Shaped;
      match m.kind
      case AskFree =>
        Reply(if lockSectors[m.segments[0]] == 0 then Success(sender) else Fail(sender));
      case AllTimeout => RequestAll(sender, m);
      case AllNoTimeout => RequestAll(sender, m);
      case OneTimeout => RequestOne(sender, m);
      case OneNoTimeout => RequestOne(sender, m);
      case AndOrTimeout => RequestAndOr(sender, m);
      case AndOrNoTimeout => RequestAndOr(sender, m);
      case FreeSegments => FreeSegmentsOf(sender, m);
      case Notif =>
        if m.trainNo != 0 {
          Timeout(m);
        }
      case FreeAll => FreeAllOf(sender, m);
      case Register =>
        Assign(m.segments[0], m.trainNo);
        Reply(Empty(sender));
      case Other => Reply(Error(sender));
    }

    /** The server's whole life: the messages of a run, one after the other. */
    method Serve(run: seq<Call>)
      requires Valid() && View() == Start() && out == [] && Calls(run)
      modifies this`out, lockSectors, trainData
      ensures Valid() && View() == After(run).state && out == After(run).out
    {
      hide Step, Shaped;
      for i := 0 to |run|
        invariant Valid() && View() == After(run[..i]).state && out == After(run[..i]).out
      {
        assert run[..i + 1][..i] == run[..i] && run[..i + 1][i] == run[i];
        Handle(run[i].sender, run[i].msg);
      }
      assert run[..|run|] == run;
    }
  }
}
