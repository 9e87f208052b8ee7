/** The controller of a row of trains (final-project/src/snake.c): speed changes are queued for each train, made when
    the train reaches a sensor, and spaced by a grace period; one timer serves all the grace periods. */
module Snake {

  const N_TRNS := 3
  const SPD_STP := 0
  const SPD_VLO := 7
  const SPD_MED := 9
  const SPD_VHI := 11
  const TIME_NONE := -1
  const NO_TIMER := -1
  const MAX_GRACE_PERIOD := 300
  const INT64_MAX := 0x7FFF_FFFF_FFFF_FFFF
  const FOLLOWING_DIST := 210_000
  const FOLLOWING_DIST_MARGIN := 70_000
  const LARGE_TREND := 100_000
  const LARGE_FOLLOWING_DIST := 630_000
  const SMALL_FOLLOWING_DIST := 50_000
  const REVERSE_OFFSET := 120_000
  const TRN_LEN := 229_000
  const MM_TO_UM := 1000

  const SPD_UP := 1
  const NONE := 0
  const SLOW_DOWN := -1

  /** A train of the row; trn is its place in the speed table. */
  datatype TrainData = TrainData(trn: nat, queued: int, reverse: bool, grace: int, last: int, curr: int)

  const UNUSED := TrainData(0, NONE, false, TIME_NONE, -1, -1)

  /** The speed changes of the train at a position, on its start and as an adjustment, and its grace period over. */
  datatype Act = Started(i: nat, to: int) | Commanded(i: nat, from: int, to: int) | Fired(i: nat)

  /** speed_is_supported, with its argument converted to uint8_t. */
  predicate Supported(spd: int) {
    var s := spd % 256;
    s == SPD_STP || SPD_VLO <= s <= SPD_VHI
  }

  /** The speeds a train is ever set to. */
  predicate InTable(v: int) {
    v == SPD_STP || SPD_VLO <= v <= SPD_VHI
  }

  function Abs(v: int): int {
    if v < 0 then -v else v
  }

  // ----- the invariant, over values -----

  predicate Adjustment(a: int) {
    a == SPD_UP || a == SLOW_DOWN
  }

  /** A queued adjustment leads to a supported speed, whatever the checks were when it was queued. */
  ghost predicate QueueOk(trns: seq<TrainData>, head: nat, spd: seq<int>) {
    |trns| == N_TRNS && |spd| == N_TRNS && head < N_TRNS &&
    (forall i :: 0 <= i < N_TRNS ==> trns[i].trn < N_TRNS) && (forall t :: 0 <= t < N_TRNS ==> InTable(Abs(spd[t]))) &&
    (forall i, j :: 0 <= i < j <= head ==> trns[i].trn != trns[j].trn) &&
    (forall i :: 0 <= i < N_TRNS ==> QueuedOk(trns, head, spd, i))
  }

  ghost predicate QueuedOk(trns: seq<TrainData>, head: nat, spd: seq<int>, i: nat)
    requires i < |trns| && |spd| == N_TRNS && trns[i].trn < N_TRNS
  {
    trns[i].queued == NONE ||
      (i <= head && Adjustment(trns[i].queued) && Supported(Abs(spd[trns[i].trn]) + trns[i].queued))
  }

  ghost predicate Pending(trns: seq<TrainData>, i: nat) {
    i < |trns| && trns[i].grace != TIME_NONE
  }

  ghost predicate GracesOk(trns: seq<TrainData>, head: nat) {
    forall i: nat :: Pending(trns, i) ==> i <= head && 0 <= trns[i].grace < INT64_MAX
  }

  /** Grace periods are of trains in the row; while one is pending the timer runs, for a train whose period is
      pending. */
  ghost predicate TimerOk(trns: seq<TrainData>, head: nat, waiting: bool, timer: int) {
    |trns| == N_TRNS && head < N_TRNS && (waiting <==> timer != NO_TIMER) &&
    GracesOk(trns, head) && (forall i: nat :: Pending(trns, i) ==> waiting) &&
    (timer != NO_TIMER ==> 0 <= timer && Pending(trns, timer))
  }

  datatype Phase = Free | Held | Broken

  function NextPhase(p: Phase, a: Act): Phase {
    match (p, a)
    case (Free, Started(_, _)) => Free
    case (Free, Commanded(_, _, _)) => Held
    case (Held, Fired(_)) => Free
    case _ => Broken
  }

  ghost function PhaseAfter(log: seq<Act>, i: nat): Phase {
    if log == [] then Free
    else
      var p, a := PhaseAfter(log[..|log| - 1], i), log[|log| - 1];
      if a.i == i then NextPhase(p, a) else p
  }

  /** A train's adjustments and grace periods alternate, and every adjustment is to a supported speed one step away;
      starts, which take no grace period, are at medium speed. */
  ghost predicate LogOk(trns: seq<TrainData>, log: seq<Act>) {
    |trns| == N_TRNS &&
    (forall i: nat :: PhaseAfter(log, i) == if Pending(trns, i) then Held else Free) &&
    (forall a :: a in log && a.Commanded? ==> Supported(a.to) && Adjustment(a.to - a.from)) &&
    (forall a :: a in log && a.Started? ==> a.to == SPD_MED)
  }

  lemma PhaseMore(log: seq<Act>, a: Act, i: nat)
    ensures PhaseAfter(log + [a], i) == if a.i == i then NextPhase(PhaseAfter(log, i), a) else PhaseAfter(log, i)
  {
    assert (log + [a])[..|log|] == log;
  }

  lemma LogMore(trns: seq<TrainData>, trns': seq<TrainData>, log: seq<Act>, a: Act)
    requires LogOk(trns, log) && |trns'| == N_TRNS && a.i < N_TRNS
    requires forall i: nat :: i < N_TRNS && i != a.i ==> trns'[i].grace == trns[i].grace
    requires a.Commanded? ==> !Pending(trns, a.i) && Pending(trns', a.i) && Supported(a.to) && Adjustment(a.to - a.from)
    requires a.Fired? ==> Pending(trns, a.i) && !Pending(trns', a.i)
    requires a.Started? ==> !Pending(trns, a.i) && !Pending(trns', a.i) && a.to == SPD_MED
    ensures LogOk(trns', log + [a])
  {
    hide PhaseAfter, Supported;
    forall i: nat ensures PhaseAfter(log + [a], i) == if Pending(trns', i) then Held else Free {
      PhaseMore(log, a, i);
      assert i < N_TRNS && i != a.i ==> Pending(trns', i) == Pending(trns, i);
    }
  }

  /** Nothing but the grace periods matters to the log. */
  lemma LogFrame(trns: seq<TrainData>, trns': seq<TrainData>, log: seq<Act>)
    requires LogOk(trns, log) && |trns'| == N_TRNS && forall i: nat :: i < N_TRNS ==> trns'[i].grace == trns[i].grace
    ensures LogOk(trns', log)
  {
    hide PhaseAfter, Supported;
    forall i: nat ensures Pending(trns', i) == Pending(trns, i) { }
  }

  // ----- the controller -----

  class Controller {
    var trns: seq<TrainData>
    var head: nat
    /** Signed speeds, negative for a reversed train. */
    var spd: seq<int>
    var waitingTimer: bool
    /** What the timer task was last asked for and has not answered: a train's position, or NO_TIMER. */
    var timer: int
    ghost var log: seq<Act>

    ghost predicate Valid()
      reads this
    {
      QueueOk(trns, head, spd) && TimerOk(trns, head, waitingTimer, timer) && LogOk(trns, log)
    }

    /** snake_init, then the first train is started. */
    constructor (trn: nat)
      requires trn < N_TRNS
      ensures Valid() && head == 0 && log == [Started(0, SPD_MED)] && trns == [UNUSED.(trn := trn), UNUSED, UNUSED] &&
              spd == [0, 0, 0][trn := SPD_MED]
    {
      trns := [UNUSED.(trn := trn), UNUSED, UNUSED];
      head := 0;
      spd := [0, 0, 0][trn := SPD_MED];
      waitingTimer, timer, log := false, NO_TIMER, [Started(0, SPD_MED)];
      assert [Started(0, SPD_MED)][..0] == [];
    }

    /** speed_display_get of the train at a position; no light bit is ever set here. */
    function Speed(i: nat): int
      requires i < |trns| && trns[i].trn < |spd|
      reads this
    {
      Abs(spd[trns[i].trn])
    }

    /** snake_try_wait_timer: for the earliest grace period, unless the timer already runs. */
    method TryWaitTimer()
      requires |trns| == N_TRNS && head < N_TRNS && GracesOk(trns, head)
      requires (waitingTimer <==> timer != NO_TIMER) && (timer != NO_TIMER ==> 0 <= timer && Pending(trns, timer))
      modifies this`waitingTimer, this`timer
      ensures TimerOk(trns, head, waitingTimer, timer)
      ensures old(waitingTimer) ==> timer == old(timer)
      ensures !old(waitingTimer) && waitingTimer ==> forall i: nat :: Pending(trns, i) ==>
        trns[timer].grace <= trns[i].grace
    {
      if waitingTimer { return; }
      var minTime, minIdx := INT64_MAX, -1;
      var i := 0;
      while i <= head
        invariant 0 <= i <= head + 1
        invariant minIdx == -1 ==> minTime == INT64_MAX && forall j: nat :: j < i ==> !Pending(trns, j)
        invariant minIdx != -1 ==> 0 <= minIdx <= head && Pending(trns, minIdx) && trns[minIdx].grace == minTime
        invariant forall j: nat :: j < i && Pending(trns, j) ==> minTime <= trns[j].grace
      {
        if trns[i].grace != TIME_NONE && trns[i].grace < minTime {
          minTime, minIdx := trns[i].grace, i;
        }
        i := i + 1;
      }
      if minIdx == -1 { return; }
      waitingTimer := true;
      timer := minIdx;
    }

    /** The queued adjustment is made and its grace period starts, for the timer to be set afterwards. */
    method MakeAdjustment(i: nat, time: int)
      requires Valid() && i <= head && 0 <= time < INT64_MAX && trns[i].queued != NONE && trns[i].grace == TIME_NONE
      modifies this`trns, this`spd, this`log
      ensures QueueOk(trns, head, spd) && LogOk(trns, log) && GracesOk(trns, head) &&
              (timer != NO_TIMER ==> Pending(trns, timer))
      ensures Adjusted(old(trns)[i], old(spd), spd) &&
              trns == old(trns)[i := old(trns)[i].(queued := NONE, grace := time)]
      ensures log == old(log) + [Commanded(i, SpeedOf(old(spd), old(trns)[i]), SpeedOf(spd, old(trns)[i]))]
    {
      hide LogOk, Supported;
      ghost var trns0, spd0 := trns, spd;
      assert QueuedOk(trns, head, spd, i);
      var d := trns[i];
      var initial := Speed(i);
      var desired := initial + d.queued;
      DesiredInTable(initial, d.queued);
      spd := spd[d.trn := if spd[d.trn] < 0 then -desired else desired];
      trns := trns[i := d.(queued := NONE, grace := time)];
      OneQueuedMade(trns0, trns, head, spd0, spd, i);
      LogMore(trns0, trns, log, Commanded(i, initial, desired));
      log := log + [Commanded(i, initial, desired)];
      assert forall j: nat :: Pending(trns, j) ==> j == i || Pending(trns0, j);
    }

    /** snake_try_make_queued_speed_adjustment: now and estimate are the clock and the estimated time to gain
        distance. */
    method TryMakeQueued(i: nat, now: int, estimate: nat)
      requires Valid() && i <= head && 0 <= now < INT64_MAX - MAX_GRACE_PERIOD
      modifies this
      ensures Made(old(trns), old(spd), old(log), trns, spd, log, i, now, estimate)
      ensures Valid() && head == old(head)
    {
      hide LogOk, QueueOk, Supported, Adjusted;
      QueueSizes(trns, head, spd);
      if trns[i].queued != NONE && trns[i].grace == TIME_NONE {
        MakeAdjustment(i, now + if estimate > MAX_GRACE_PERIOD then MAX_GRACE_PERIOD else estimate);
        TryWaitTimer();
      }
    }

    /** snake_change_speed_fwd: the adjustment is queued for the train in front of the gap and all ahead of it. */
    method ChangeFwd(front: nat, a: int)
      requires Valid() && Adjustment(a)
      modifies this`trns
      ensures Valid() && trns == Requeued(old(trns), spd, front, head + 1, a)
    {
      hide LogOk, QueueOk, Wants, Requeued;
      RequeueNone(trns, spd, front, a);
      QueueSizes(trns, head, spd);
      ghost var before := trns;
      var i := front;
      while i <= head
        invariant |trns| == N_TRNS && front <= i && (i <= head + 1 || i == front)
        invariant trns == Requeued(before, spd, front, if i <= head then i else head + 1, a)
        decreases head + 1 - i
      {
        RequeueAt(before, spd, front, i, a);
        WantsIs(trns[i], spd, a);
        if Supported(Speed(i) + a) && !(a > NONE && trns[i].curr >= FOLLOWING_DIST + FOLLOWING_DIST_MARGIN) {
          trns := trns[i := trns[i].(queued := a)];
        }
        i := i + 1;
      }
      RequeueKeeps(before, head, spd, front, head + 1, a, waitingTimer, timer, log);
    }

    /** snake_change_speed_behind: queued for the train behind the gap and all behind it, and made at once for the
        first. */
    method ChangeBehind(front: nat, a: int, now: int, estimate: nat)
      requires Valid() && Adjustment(a) && 1 <= front <= head && 0 <= now < INT64_MAX - MAX_GRACE_PERIOD
      modifies this
      ensures Made(Requeued(old(trns), old(spd), 0, front, a), old(spd), old(log), trns, spd, log, front - 1, now,
        estimate)
      ensures Valid() && head == old(head)
    {
      hide LogOk, QueueOk, Wants, Requeued;
      QueueSizes(trns, head, spd);
      ghost var before := trns;
      var i := front - 1;
      RequeueNone(before, spd, front, a);
      while i >= 0
        invariant |trns| == N_TRNS && -1 <= i < front && trns == Requeued(before, spd, i + 1, front, a)
        invariant spd == old(spd) && head == old(head) && log == old(log) && waitingTimer == old(waitingTimer) &&
                  timer == old(timer)
        decreases i + 1
      {
        RequeueBelow(before, spd, i, front, a);
        WantsIs(trns[i], spd, a);
        if Supported(Speed(i) + a) && !(a > NONE && trns[i].curr >= FOLLOWING_DIST + FOLLOWING_DIST_MARGIN) {
          trns := trns[i := trns[i].(queued := a)];
        }
        i := i - 1;
      }
      RequeueKeeps(before, head, spd, 0, front, a, waitingTimer, timer, log);
      TryMakeQueued(front - 1, now, estimate);
    }

    /** snake_check_change_speed_fwd. */
    method CheckFwd(front: nat, a: int) returns (ok: bool)
      requires |trns| == N_TRNS && |spd| == N_TRNS && head < N_TRNS && forall i :: 0 <= i < N_TRNS ==>
        trns[i].trn < N_TRNS
      ensures ok <==> AllSupport(trns, spd, front, head + 1, a)
    {
      hide Supported;
      var i := front;
      while i <= head
        invariant front <= i && AllSupport(trns, spd, front, if i <= head then i else head + 1, a)
        decreases head + 1 - i
      {
        if !Supported(Speed(i) + a) { return false; }
        i := i + 1;
      }
      return true;
    }

    /** snake_check_change_speed_behind. */
    method CheckBehind(front: nat, a: int) returns (ok: bool)
      requires |trns| == N_TRNS && |spd| == N_TRNS && front <= head < N_TRNS && forall i :: 0 <= i < N_TRNS ==>
        trns[i].trn < N_TRNS
      ensures ok <==> AllSupport(trns, spd, 0, front, a)
    {
      hide Supported;
      var i := front - 1;
      while i >= 0
        invariant -1 <= i < front && AllSupport(trns, spd, i + 1, front, a)
      {
        if !Supported(Speed(i) + a) { return false; }
        i := i - 1;
      }
      return true;
    }

    /** The test of snake_try_adjust_bunched_trains. */
    method AllBunched() returns (yes: bool)
      requires |trns| == N_TRNS && head < N_TRNS
      ensures yes <==> Bunched(trns, head)
    {
      if head < 2 { return false; }
      for i := 1 to head + 1
        invariant forall j :: 1 <= j < i ==> trns[j].curr <= SMALL_FOLLOWING_DIST
      {
        if trns[i].curr > SMALL_FOLLOWING_DIST { return false; }
      }
      return true;
    }

    /** Carries a plan out: the trains in front first, then those behind. */
    method Apply(gap: nat, fwd: int, behind: int, now: int, estimate: nat)
      requires Valid() && 1 <= gap <= head && 0 <= now < INT64_MAX - MAX_GRACE_PERIOD
      requires (fwd == NONE || Adjustment(fwd)) && (behind == NONE || Adjustment(behind))
      modifies this
      ensures Applied(Plan(gap, fwd, behind), old(head), old(trns), old(spd), old(log), trns, spd, log, now, estimate)
      ensures Valid() && head == old(head)
    {
      hide LogOk, QueueOk, TimerOk, Made, Requeued;
      if fwd != NONE { ChangeFwd(gap, fwd); }
      if behind != NONE { ChangeBehind(gap, behind, now, estimate); }
    }

    /** snake_adjust_trains, margin being half the train's velocity: does what Decide says. */
    method AdjustTrains(front: nat, margin: int, now: int, estimate: nat)
      requires Valid() && 1 <= front <= head && 0 <= now < INT64_MAX - MAX_GRACE_PERIOD
      modifies this
      ensures front < |old(trns)| &&
        Applied(Decide(old(trns), old(head), old(spd), front, margin), old(head), old(trns), old(spd), old(log), trns,
          spd, log, now, estimate)
      ensures Valid() && head == old(head)
    {
      hide LogOk, QueueOk, TimerOk, Applied, AllSupport, Bunched;
      QueueSizes(trns, head, spd);
      var dist, trend := trns[front].curr, trns[front].curr - trns[front].last;
      var bunched := AllBunched();
      if bunched {
        BunchedRow(trns, head);
        Apply(head / 2 + 1, SPD_UP, SLOW_DOWN, now, estimate);
      } else if trend <= -LARGE_TREND {
        Apply(front, SPD_UP, SLOW_DOWN, now, estimate);
      } else if dist >= LARGE_FOLLOWING_DIST {
        if Matching(trns[front], margin, SLOW_DOWN) {
          Apply(front, NONE, NONE, now, estimate);
        } else {
          Apply(front, SLOW_DOWN, SPD_UP, now, estimate);
        }
      } else if dist > FOLLOWING_DIST + FOLLOWING_DIST_MARGIN {
        if Matching(trns[front], margin, SLOW_DOWN) {
          Apply(front, NONE, NONE, now, estimate);
        } else {
          FavourBehind(front, SLOW_DOWN, SPD_UP, now, estimate);
        }
      } else if dist < FOLLOWING_DIST - FOLLOWING_DIST_MARGIN {
        if dist > SMALL_FOLLOWING_DIST && Matching(trns[front], margin, SPD_UP) {
          Apply(front, NONE, NONE, now, estimate);
        } else {
          FavourBehind(front, SPD_UP, SLOW_DOWN, now, estimate);
        }
      } else {
        Apply(front, NONE, NONE, now, estimate);
      }
    }

    /** The trains behind, unless only those in front can all take the change. */
    method FavourBehind(front: nat, fwd: int, behind: int, now: int, estimate: nat)
      requires Valid() && 1 <= front <= head && 0 <= now < INT64_MAX - MAX_GRACE_PERIOD && Adjustment(fwd) &&
               Adjustment(behind)
      modifies this
      ensures Applied(Favour(old(trns), old(head), old(spd), front, fwd, behind), old(head), old(trns), old(spd),
        old(log), trns, spd, log, now, estimate)
      ensures Valid() && head == old(head)
    {
      hide LogOk, QueueOk, TimerOk, Applied, AllSupport;
      QueueSizes(trns, head, spd);
      var behindOk := CheckBehind(front, behind);
      if behindOk {
        Apply(front, NONE, behind, now, estimate);
      } else {
        var fwdOk := CheckFwd(front, fwd);
        if fwdOk {
          Apply(front, fwd, NONE, now, estimate);
        } else {
          Apply(front, NONE, behind, now, estimate);
        }
      }
    }

    // ----- messages -----

    /** A train of the row is the first over its sensor: its queued adjustment is made; the next train may join, at
        medium speed, reversed if need be. */
    method FirstActivation(i: nat, now: int, estimate: nat, next: Pickup)
      returns (ghost trns1: seq<TrainData>, ghost spd1: seq<int>, ghost log1: seq<Act>)
      requires Valid() && i <= head && 0 <= now < INT64_MAX - MAX_GRACE_PERIOD
      requires next.Joins? ==> head + 1 < N_TRNS && next.trn < N_TRNS && forall j :: 0 <= j <= head ==>
        trns[j].trn != next.trn
      modifies this
      ensures Made(old(trns), old(spd), old(log), trns1, spd1, log1, i, now, estimate)
      ensures PickedUp(next, old(head), trns1, spd1, log1, head, trns, spd, log)
      ensures Valid()
    {
      hide LogOk, QueueOk, TimerOk;
      TryMakeQueued(i, now, estimate);
      QueueSizes(trns, head, spd);
      trns1, spd1, log1 := trns, spd, log;
      if next.Joins? {
        head := head + 1;
        trns := trns[head := trns[head].(trn := next.trn, reverse := next.reverse)];
        SetSpeed(next.trn, SPD_MED);
        if next.reverse {
          spd := spd[next.trn := -spd[next.trn]];
          SetSpeed(next.trn, SPD_MED);
        }
        Joined(trns1, trns, head - 1, spd1, spd, next, waitingTimer, timer, log);
        log := log + Starts(head, next);
      }
    }

    /** speed_set: the sign stays. */
    method SetSpeed(t: nat, s: int)
      requires t < |spd| && s >= 0
      modifies this`spd
      ensures spd == old(spd)[t := if old(spd)[t] < 0 then -s else s]
    {
      spd := spd[t := if spd[t] < 0 then -s else s];
    }

    /** The next train of the row is over the sensor too: the gap is measured and adjusted. */
    method SecondActivation(i: nat, heads: int, margin: int, now: int, estimate: nat)
      requires Valid() && 1 <= i <= head && 0 <= now < INT64_MAX - MAX_GRACE_PERIOD
      modifies this
      ensures i < |old(trns)|
      ensures var trns1 := With(old(trns), i, heads);
        Applied(Decide(trns1, head, old(spd), i, margin), head, trns1, old(spd), old(log), trns, spd, log, now,
          estimate)
      ensures head == old(head) && old(log) <= log
      ensures Valid()
    {
      hide LogOk, QueueOk, TimerOk, Decide, Applied;
      QueueSizes(trns, head, spd);
      ghost var trns0, spd0, log0 := trns, spd, log;
      trns := trns[i := trns[i].(last := trns[i].curr, curr := Between(heads, trns[i].reverse))];
      Measured(trns0, trns, head, spd, i, waitingTimer, timer, log);
      ghost var trns1 := trns;
      AdjustTrains(i, margin, now, estimate);
      AppliedGrows(Decide(trns1, head, spd0, i, margin), head, trns1, spd0, log0, trns, spd, log, now, estimate);
    }

    /** The timer fired, for the train it was set for. */
    method TimerEnd(i: nat)
      requires Valid() && waitingTimer && i == timer
      modifies this`trns, this`waitingTimer, this`timer, this`log
      ensures i < |old(trns)| && trns == old(trns)[i := old(trns)[i].(grace := TIME_NONE)]
      ensures Valid() && log == old(log) + [Fired(i)] && !Pending(trns, i)
    {
      hide LogOk, QueueOk;
      QueueSizes(trns, head, spd);
      ghost var trns0 := trns;
      waitingTimer, timer := false, NO_TIMER;
      trns := trns[i := trns[i].(grace := TIME_NONE)];
      LogMore(trns0, trns, log, Fired(i));
      Unheld(trns0, trns, head, spd, i);
      log := log + [Fired(i)];
      TryWaitTimer();
    }

    /** Whether the environment can bring this event about. */
    predicate Possible(e: Event)
      reads this
    {
      match e
      case First(i, now, estimate, next) =>
        i <= head && 0 <= now < INT64_MAX - MAX_GRACE_PERIOD &&
        (next.Joins? ==> head + 1 < N_TRNS && |trns| == N_TRNS && next.trn < N_TRNS && forall j :: 0 <= j <= head ==>
          trns[j].trn != next.trn)
      case Second(i, heads, margin, now, estimate) => 1 <= i <= head && 0 <= now < INT64_MAX - MAX_GRACE_PERIOD
      case TimerFires => waitingTimer
      case Ignored => true
    }

    /** The messages of the server. */
    method Handle(e: Event)
      requires Valid() && Possible(e)
      modifies this
      ensures e.First? ==>
        exists trns1, spd1, log1 :: Made(old(trns), old(spd), old(log), trns1, spd1, log1, e.i, e.now, e.estimate) &&
                                                       PickedUp(e.next, old(head), trns1, spd1, log1, head, trns, spd,
                                                         log)
      ensures e.Second? ==> e.i < |old(trns)|
      ensures e.Second? ==> var trns1 := With(old(trns), e.i, e.heads);
        Applied(Decide(trns1, head, old(spd), e.i, e.margin), head, trns1, old(spd), old(log), trns, spd, log, e.now,
          e.estimate)
      ensures e.TimerFires? ==> 0 <= old(timer) < |old(trns)| && log == old(log) + [Fired(old(timer))]
      ensures e.TimerFires? ==>
        trns == old(trns)[old(timer) := old(trns)[old(timer)].(grace := TIME_NONE)] && spd == old(spd)
      ensures !e.TimerFires? ==> Quiet(old(log), log)
      ensures Valid() && old(log) <= log
    {
      hide LogOk, QueueOk, TimerOk, Pending, Applied, Decide, Made;
      QueueSizes(trns, head, spd);
      ghost var trns0, spd0, log0 := trns, spd, log;
      match e {
        case First(i, now, estimate, next) =>
          ghost var head0 := head;
          ghost var trns1, spd1, log1 := FirstActivation(i, now, estimate, next);
          MadeQuietly(trns0, spd0, log0, trns1, spd1, log1, i, now, estimate);
          PickedUpQuietly(next, head0, trns1, spd1, log1, head, trns, spd, log);
        case Second(i, heads, margin, now, estimate) =>
          SecondActivation(i, heads, margin, now, estimate);
          ghost var trns1 := With(trns0, i, heads);
          AppliedGrows(Decide(trns1, head, spd0, i, margin), head, trns1, spd0, log0, trns, spd, log, now, estimate);
        case TimerFires =>
          TimerRuns(trns, head, waitingTimer, timer);
          TimerEnd(timer);
        case Ignored =>
      }
    }

    /** A run: events one after the other, as long as they are ones the environment can bring about. */
    method Run(events: seq<Event>) returns (n: nat)
      requires Valid()
      modifies this
      ensures n <= |events| && (n < |events| ==> !Possible(events[n]))
      ensures TimesFired(log) == TimesFired(old(log)) + TimerEvents(events[..n]) && old(log) <= log
      ensures Valid()
    {
      hide *;
      n := 0;
      NoEvents(events);
      while n < |events| && Possible(events[n])
        invariant n <= |events| && old(log) <= log && Valid()
        invariant TimesFired(log) == TimesFired(old(log)) + TimerEvents(events[..n])
      {
        ghost var log0 := log;
        Handle(events[n]);
        OneEvent(events, n, log0, log);
        n := n + 1;
      }
    }
  }

  /** The gap behind train i measured again. */
  function With(trns: seq<TrainData>, i: nat, heads: int): seq<TrainData>
    requires i < |trns|
  {
    trns[i := trns[i].(last := trns[i].curr, curr := Between(heads, trns[i].reverse))]
  }

  /** No grace period ended. */
  ghost predicate Quiet(log: seq<Act>, log': seq<Act>) {
    log <= log' && forall k :: |log| <= k < |log'| ==> !log'[k].Fired?
  }

  ghost function TimesFired(log: seq<Act>): nat {
    if log == [] then 0 else TimesFired(log[..|log| - 1]) + if log[|log| - 1].Fired? then 1 else 0
  }

  ghost function TimerEvents(events: seq<Event>): nat {
    if events == [] then 0 else TimerEvents(events[..|events| - 1]) + if events[|events| - 1].TimerFires? then 1 else 0
  }

  lemma NoEvents(events: seq<Event>)
    ensures TimerEvents(events[..0]) == 0
  {
  }

  /** An event moves the history on as it should. */
  lemma OneEvent(events: seq<Event>, n: nat, log: seq<Act>, log': seq<Act>)
    requires n < |events|
    requires events[n].TimerFires? ==> log <= log' && |log'| == |log| + 1 && log'[|log|].Fired?
    requires !events[n].TimerFires? ==> Quiet(log, log')
    ensures TimesFired(log') - TimesFired(log) == TimerEvents(events[..n + 1]) - TimerEvents(events[..n])
  {
    assert events[..n + 1][..n] == events[..n];
    if events[n].TimerFires? {
      assert log'[..|log|] == log;
    } else {
      QuietFires(log, log');
    }
  }

  lemma {:induction false} QuietFires(log: seq<Act>, log': seq<Act>)
    requires Quiet(log, log')
    ensures TimesFired(log') == TimesFired(log)
    decreases |log'|
  {
    if |log'| > |log| {
      QuietFires(log, log'[..|log'| - 1]);
    } else {
      assert log' == log;
    }
  }

  /** The speed commands with which a train joins: a second one after it was reversed. */
  function Starts(i: nat, next: Pickup): seq<Act> {
    if next == Nobody then []
    else if next.reverse then [Started(i, SPD_MED), Started(i, SPD_MED)] else [Started(i, SPD_MED)]
  }

  /** What the answer of the user server does: nothing, or the train joins behind and is started. */
  ghost predicate PickedUp(next: Pickup, head: nat, trns: seq<TrainData>, spd: seq<int>, log: seq<Act>,
                           head': nat, trns': seq<TrainData>, spd': seq<int>, log': seq<Act>) {
    if next == Nobody then head' == head && trns' == trns && spd' == spd && log' == log
    else
      head' == head + 1 && head' < |trns| && next.trn < |spd| && log' == log + Starts(head', next) &&
      trns' == trns[head' := trns[head'].(trn := next.trn, reverse := next.reverse)] &&
      spd' == spd[next.trn := if (spd[next.trn] < 0) != next.reverse then -SPD_MED else SPD_MED]
  }

  lemma PickedUpQuietly(next: Pickup, head: nat, trns: seq<TrainData>, spd: seq<int>, log: seq<Act>,
                        head': nat, trns': seq<TrainData>, spd': seq<int>, log': seq<Act>)
    requires PickedUp(next, head, trns, spd, log, head', trns', spd', log')
    ensures Quiet(log, log')
  {
  }

  lemma MadeQuietly(trns: seq<TrainData>, spd: seq<int>, log: seq<Act>, trns': seq<TrainData>, spd': seq<int>,
                    log': seq<Act>,
                    i: nat, now: int, estimate: nat)
    requires Made(trns, spd, log, trns', spd', log', i, now, estimate)
    ensures Quiet(log, log')
  {
    hide Adjusted;
  }

  /** Whether the user server adds a train to the row. */
  datatype Pickup = Nobody | Joins(trn: nat, reverse: bool)

  datatype Event =
    | First(i: nat, now: int, estimate: nat, next: Pickup)
    | Second(i: nat, heads: int, margin: int, now: int, estimate: nat)
    | TimerFires
    | Ignored

  /** The gap between trains, from the distance between their heads. */
  function Between(heads: int, reverse: bool): int {
    var d := if reverse then if heads < REVERSE_OFFSET then 0 else heads - REVERSE_OFFSET else heads;
    if d < TRN_LEN then 0 else d - TRN_LEN
  }

  lemma Joined(trns: seq<TrainData>, trns': seq<TrainData>, head: nat, spd: seq<int>, spd': seq<int>, next: Pickup,
               waiting: bool, timer: int, log: seq<Act>)
    requires QueueOk(trns, head, spd) && TimerOk(trns, head, waiting, timer) && LogOk(trns, log) && head + 1 < N_TRNS &&
             next.Joins? && next.trn < N_TRNS
    requires forall j :: 0 <= j <= head ==> trns[j].trn != next.trn
    requires trns' == trns[head + 1 := trns[head + 1].(trn := next.trn, reverse := next.reverse)]
    requires |spd'| == N_TRNS && Abs(spd'[next.trn]) == SPD_MED && forall u :: 0 <= u < N_TRNS && u != next.trn ==>
      spd'[u] == spd[u]
    ensures QueueOk(trns', head + 1, spd') && TimerOk(trns', head + 1, waiting, timer) &&
            LogOk(trns', log + Starts(head + 1, next))
  {
    hide LogOk, Supported;
    var head' := head + 1;
    forall i | 0 <= i < N_TRNS ensures QueuedOk(trns', head', spd', i) { assert QueuedOk(trns, head, spd, i); }
    forall i: nat ensures Pending(trns', i) == Pending(trns, i) { }
    var started := Started(head', SPD_MED);
    LogMore(trns, trns', log, started);
    if next.reverse {
      LogMore(trns', trns', log + [started], started);
      assert log + [started] + [started] == log + Starts(head', next);
    }
  }

  lemma Measured(trns: seq<TrainData>, trns': seq<TrainData>, head: nat, spd: seq<int>, i: nat, waiting: bool,
                 timer: int, log: seq<Act>)
    requires QueueOk(trns, head, spd) && TimerOk(trns, head, waiting, timer) && LogOk(trns, log) && i < N_TRNS &&
             |trns'| == N_TRNS
    requires trns' == trns[i := trns[i].(last := trns'[i].last, curr := trns'[i].curr)]
    ensures QueueOk(trns', head, spd) && TimerOk(trns', head, waiting, timer) && LogOk(trns', log)
  {
    hide LogOk, Supported;
    forall j | 0 <= j < N_TRNS ensures QueuedOk(trns', head, spd, j) { assert QueuedOk(trns, head, spd, j); }
    forall j: nat ensures Pending(trns', j) == Pending(trns, j) { }
    LogFrame(trns, trns', log);
  }

  lemma Unheld(trns: seq<TrainData>, trns': seq<TrainData>, head: nat, spd: seq<int>, i: nat)
    requires QueueOk(trns, head, spd) && i < N_TRNS && trns' == trns[i := trns[i].(grace := TIME_NONE)]
    ensures QueueOk(trns', head, spd)
  {
    hide Supported;
    forall j | 0 <= j < N_TRNS ensures QueuedOk(trns', head, spd, j) { assert QueuedOk(trns, head, spd, j); }
  }

  lemma TimerRuns(trns: seq<TrainData>, head: nat, waiting: bool, timer: int)
    requires TimerOk(trns, head, waiting, timer) && waiting
    ensures 0 <= timer < N_TRNS
  {
  }

  lemma BunchedRow(trns: seq<TrainData>, head: nat)
    requires Bunched(trns, head)
    ensures head >= 2
  {
  }

  // ----- what is decided about a gap -----

  /** The gap in front of position gap - 1, what the trains from gap on do and what those behind do; NONE is nothing. */
  datatype Plan = Plan(gap: nat, fwd: int, behind: int)

  /** snake_check_matching_trend. */
  predicate Matching(d: TrainData, margin: int, a: int) {
    var diff := (d.curr - d.last) * MM_TO_UM;
    if -margin <= diff <= margin then true else if diff > margin then a > NONE else a < NONE
  }

  ghost predicate AllSupport(trns: seq<TrainData>, spd: seq<int>, lo: nat, hi: nat, a: int) {
    forall i :: lo <= i < hi && i < |trns| ==> Supported(SpeedOf(spd, trns[i]) + a)
  }

  predicate Bunched(trns: seq<TrainData>, head: nat) {
    2 <= head < |trns| && forall j :: 1 <= j <= head ==> trns[j].curr <= SMALL_FOLLOWING_DIST
  }

  ghost function Favour(trns: seq<TrainData>, head: nat, spd: seq<int>, front: nat, fwd: int, behind: int): Plan {
    if AllSupport(trns, spd, 0, front, behind) then Plan(front, NONE, behind)
    else if AllSupport(trns, spd, front, head + 1, fwd) then Plan(front, fwd, NONE)
    else Plan(front, NONE, behind)
  }

  ghost function Decide(trns: seq<TrainData>, head: nat, spd: seq<int>, front: nat, margin: int): Plan
    requires front < |trns|
  {
    var d := trns[front];
    if Bunched(trns, head) then Plan(head / 2 + 1, SPD_UP, SLOW_DOWN)
    else if d.curr - d.last <= -LARGE_TREND then Plan(front, SPD_UP, SLOW_DOWN)
    else if d.curr >= LARGE_FOLLOWING_DIST then
      if Matching(d, margin, SLOW_DOWN) then Plan(front, NONE, NONE) else Plan(front, SLOW_DOWN, SPD_UP)
    else if d.curr > FOLLOWING_DIST + FOLLOWING_DIST_MARGIN then
      if Matching(d, margin, SLOW_DOWN) then Plan(front, NONE, NONE)
      else Favour(trns, head, spd, front, SLOW_DOWN, SPD_UP)
    else if d.curr < FOLLOWING_DIST - FOLLOWING_DIST_MARGIN then
      if d.curr > SMALL_FOLLOWING_DIST && Matching(d, margin, SPD_UP) then Plan(front, NONE, NONE)
      else Favour(trns, head, spd, front, SPD_UP, SLOW_DOWN)
    else Plan(front, NONE, NONE)
  }

  /** What the plan queues. */
  ghost function Planned(trns: seq<TrainData>, head: nat, spd: seq<int>, p: Plan): seq<TrainData> {
    var t := if p.fwd == NONE then trns else Requeued(trns, spd, p.gap, head + 1, p.fwd);
    if p.behind == NONE then t else Requeued(t, spd, 0, p.gap, p.behind)
  }

  /** The plan queued, and the first train behind the gap adjusted if it was told to be. */
  ghost predicate Applied(p: Plan, head: nat, trns: seq<TrainData>, spd: seq<int>, log: seq<Act>,
                          trns': seq<TrainData>, spd': seq<int>, log': seq<Act>, now: int, estimate: nat)
  {
    var queued := Planned(trns, head, spd, p);
    if p.behind == NONE then trns' == queued && spd' == spd && log' == log
    else p.gap > 0 && Made(queued, spd, log, trns', spd', log', p.gap - 1, now, estimate)
  }

  lemma AppliedGrows(p: Plan, head: nat, trns: seq<TrainData>, spd: seq<int>, log: seq<Act>,
                     trns': seq<TrainData>, spd': seq<int>, log': seq<Act>, now: int, estimate: nat)
    requires Applied(p, head, trns, spd, log, trns', spd', log', now, estimate)
    ensures log <= log' && Quiet(log, log')
  {
    hide Planned;
  }

  // The wanted distance is 210 mm, give or take 70, in micrometres.

  predicate TooNear(dist: int) {
    dist < 140_000
  }

  predicate TooFar(dist: int) {
    dist > 280_000
  }

  /** Trains in front speed up, or those behind slow down. */
  predicate Widens(p: Plan) {
    p.fwd == 1 || p.behind == -1
  }

  predicate Narrows(p: Plan) {
    p.fwd == -1 || p.behind == 1
  }

  /** The gap shrank by 100 mm since it was last measured. */
  predicate ClosingFast(d: TrainData) {
    d.last - d.curr >= 100_000
  }

  predicate Growing(d: TrainData, margin: int) {
    (d.curr - d.last) * 1000 > margin
  }

  predicate Shrinking(d: TrainData, margin: int) {
    (d.curr - d.last) * 1000 <= margin && (d.curr - d.last) * 1000 < -margin
  }

  /** Three trains with no gap over 50 mm. */
  predicate Crowded(trns: seq<TrainData>, head: nat) {
    2 <= head < |trns| && forall j :: 1 <= j <= head ==> trns[j].curr <= 50_000
  }

  /** A decision is about the gap measured, or the middle one of a crowded row.  It moves the gap towards the wanted
      distance, or leaves it, exactly when it is not taken because a gap closes fast that is not too near: a gap within
      its margins is then widened, and one too far, too.  A gap is widened exactly when it closes fast, when the row is
      crowded, or when it is too near and very small or shrinking; it is narrowed exactly when none of this holds and it
      is too far and growing. */
  lemma DecisionTowardsIff(trns: seq<TrainData>, head: nat, spd: seq<int>, front: nat, margin: int)
    requires 1 <= front <= head < |trns|
    ensures var p, d := Decide(trns, head, spd, front, margin), trns[front];
      p.gap == (if Crowded(trns, head) then head / 2 + 1 else front) && 1 <= p.gap <= head &&
      !(Widens(p) && Narrows(p)) &&
      ((Widens(p) ==> TooNear(trns[p.gap].curr)) && (Narrows(p) ==> TooFar(trns[p.gap].curr)) <==>
        Crowded(trns, head) || !ClosingFast(d) || TooNear(d.curr)) &&
      (Widens(p) <==>
        Crowded(trns, head) || ClosingFast(d) ||
        (TooNear(d.curr) && (d.curr <= 50_000 || Shrinking(d, margin)))) &&
      (Narrows(p) <==>
        !Crowded(trns, head) && !ClosingFast(d) && TooFar(d.curr) && Growing(d, margin)) &&
      p.fwd in {-1, 0, 1} && p.behind in {-1, 0, 1}
  {
    hide AllSupport;
    assert Bunched(trns, head) <==> Crowded(trns, head);
  }

  /** The train at position i can take the change: it gets to speed 0 or one from 7 to 11. */
  ghost predicate CanTake(trns: seq<TrainData>, spd: seq<int>, i: nat, a: int) {
    i < |trns| && var v := SpeedOf(spd, trns[i]) + a; v == 0 || 7 <= v <= 11
  }

  /** Both sides of the gap act in an emergency: in a crowded row, at a gap that closes fast, or at one of 630 mm and
      more.  Otherwise one side does: those behind, unless only those in front can all take the change. */
  lemma WhoActs(trns: seq<TrainData>, head: nat, spd: seq<int>, front: nat, margin: int)
    requires QueueOk(trns, head, spd) && 1 <= front <= head
    ensures var p, d := Decide(trns, head, spd, front, margin), trns[front];
      if !Widens(p) && !Narrows(p) then p.fwd == 0 == p.behind
      else if Crowded(trns, head) || ClosingFast(d) || d.curr >= 630_000 then p.fwd != 0 && p.behind == -p.fwd
      else
        var a := if TooNear(d.curr) then -1 else 1;
        var behind := AllTake(trns, spd, 0, front, a) || !AllTake(trns, spd, front, head + 1, -a);
        if behind then p.behind == a && p.fwd == 0 else p.fwd == -a && p.behind == 0
  {
    hide QueueOk, AllTake, AllSupport;
    QueueSizes(trns, head, spd);
    assert Bunched(trns, head) <==> Crowded(trns, head);
    AllTakeIs(trns, head, spd, 0, front, 1);
    AllTakeIs(trns, head, spd, 0, front, -1);
    AllTakeIs(trns, head, spd, front, head + 1, 1);
    AllTakeIs(trns, head, spd, front, head + 1, -1);
  }

  ghost predicate AllTake(trns: seq<TrainData>, spd: seq<int>, lo: nat, hi: nat, a: int) {
    forall i: nat :: lo <= i < hi ==> CanTake(trns, spd, i, a)
  }

  lemma AllTakeIs(trns: seq<TrainData>, head: nat, spd: seq<int>, lo: nat, hi: nat, a: int)
    requires QueueOk(trns, head, spd) && hi <= head + 1 && Adjustment(a)
    ensures AllTake(trns, spd, lo, hi, a) <==> AllSupport(trns, spd, lo, hi, a)
  {
    hide QueueOk, CanTake, Supported;
    QueueSizes(trns, head, spd);
    forall i: nat | i < hi ensures CanTake(trns, spd, i, a) <==> Supported(SpeedOf(spd, trns[i]) + a) {
      TakesIs(trns, head, spd, i, a);
    }
  }

  lemma TakesIs(trns: seq<TrainData>, head: nat, spd: seq<int>, i: nat, a: int)
    requires QueueOk(trns, head, spd) && i <= head && Adjustment(a)
    ensures CanTake(trns, spd, i, a) <==> Supported(SpeedOf(spd, trns[i]) + a)
  {
    hide QueuedOk;
    assert InTable(Abs(spd[trns[i].trn]));
  }

  /** What is queued when a decision is carried out: in front of the gap and behind it, for the trains that can take the
      change, but no speeding up of one with more than 280 mm before it; for the others what was queued before.  Only
      the train right behind the gap may have its change made at once. */
  lemma PlanQueues(p: Plan, head: nat, trns: seq<TrainData>, spd: seq<int>, log: seq<Act>, trns': seq<TrainData>,
                   spd': seq<int>, log': seq<Act>, now: int, estimate: nat, i: nat)
    requires QueueOk(trns, head, spd) && Applied(p, head, trns, spd, log, trns', spd', log', now, estimate)
    requires i <= head && p.gap <= head && p.fwd in {-1, 0, 1} && p.behind in {-1, 0, 1}
    ensures |trns'| == |trns|
    ensures var a := if p.gap <= i then p.fwd else p.behind;
      var takes := a != 0 && CanTake(trns, spd, i, a) && !(a == 1 && trns[i].curr >= 280_000);
      var queued := trns[i].(queued := if takes then a else trns[i].queued);
      if p.behind != 0 && i + 1 == p.gap && queued.queued != 0 && queued.grace == -1 then
        trns'[i] == queued.(queued := 0, grace := trns'[i].grace)
      else trns'[i] == queued
  {
    hide CanTake, QueueOk, LogOk, Planned, Made;
    QueueSizes(trns, head, spd);
    PlannedFor(p, head, trns, spd, i);
    if p.behind != 0 { MadeElse(Planned(trns, head, spd, p), spd, log, trns', spd', log', p.gap - 1, now, estimate); }
  }

  /** What a decision queues for train i, before the first one behind the gap changes. */
  lemma PlannedFor(p: Plan, head: nat, trns: seq<TrainData>, spd: seq<int>, i: nat)
    requires QueueOk(trns, head, spd) && i <= head && p.gap <= head && p.fwd in {-1, 0, 1} && p.behind in {-1, 0, 1}
    ensures |Planned(trns, head, spd, p)| == |trns| == N_TRNS
    ensures var a := if p.gap <= i then p.fwd else p.behind;
      var takes := a != 0 && CanTake(trns, spd, i, a) && !(a == 1 && trns[i].curr >= 280_000);
      Planned(trns, head, spd, p)[i] == trns[i].(queued := if takes then a else trns[i].queued)
  {
    hide Supported, CanTake, QueueOk, SpeedOf;
    QueueSizes(trns, head, spd);
    if p.fwd != 0 { TakesIs(trns, head, spd, i, p.fwd); }
    if p.behind != 0 { TakesIs(trns, head, spd, i, p.behind); }
  }

  lemma MadeElse(trns: seq<TrainData>, spd: seq<int>, log: seq<Act>, trns': seq<TrainData>, spd': seq<int>,
                 log': seq<Act>, b: nat, now: int, estimate: nat)
    requires Made(trns, spd, log, trns', spd', log', b, now, estimate)
    ensures |trns'| == |trns| && b < |trns|
    ensures forall i :: 0 <= i < |trns| && i != b ==> trns'[i] == trns[i]
    ensures trns'[b] == if trns[b].queued != 0 && trns[b].grace == -1
      then trns[b].(queued := 0, grace := trns'[b].grace) else trns[b]
  {
    hide Adjusted, SpeedOf;
  }

  /** A change is made of a train that has one queued and no grace period pending: its speed changes by what was queued,
      in the same direction, no other speed does, and its grace period ends when the time estimated is over, but within
      300 ticks. */
  lemma ChangeMade(trns: seq<TrainData>, spd: seq<int>, log: seq<Act>, trns': seq<TrainData>, spd': seq<int>,
                   log': seq<Act>, i: nat, now: int, estimate: nat)
    requires Made(trns, spd, log, trns', spd', log', i, now, estimate) && i < |trns| && trns[i].trn < |spd|
    ensures var d, v := trns[i], spd[trns[i].trn];
      if d.queued == 0 || d.grace != -1 then trns' == trns && spd' == spd && log' == log
      else
        spd' == spd[d.trn := if v < 0 then v - d.queued else v + d.queued] &&
        trns' == trns[i := d.(queued := 0, grace := trns'[i].grace)] && |log'| == |log| + 1 && log <= log' &&
        log'[|log|].Commanded? && log'[|log|].i == i &&
        log'[|log|].to == log'[|log|].from + d.queued &&
        trns'[i].grace == if estimate <= 300 then now + estimate else now + 300
  {
    hide Supported;
  }

  /** The gap between two trains: the distance driven between their heads less the length of a train, 229 mm, and less
      120 mm for one that runs backwards, but not below 0. */
  lemma GapMeasured(heads: int, reverse: bool)
    ensures var length := if reverse then 349_000 else 229_000;
      Between(heads, reverse) == if heads <= length then 0 else heads - length
  {
  }

  /** A train that joins is the last of the row, at speed 9, and turned around if need be. */
  lemma JoinsAtMedium(next: Pickup, head: nat, trns: seq<TrainData>, spd: seq<int>, log: seq<Act>, head': nat,
                      trns': seq<TrainData>, spd': seq<int>, log': seq<Act>)
    requires PickedUp(next, head, trns, spd, log, head', trns', spd', log') && next.Joins?
    ensures head' == head + 1 < |trns'| && trns'[head'].trn == next.trn && trns'[head'].reverse == next.reverse
    ensures next.trn < |spd'| == |spd| && Abs(spd'[next.trn]) == 9
    ensures spd'[next.trn] < 0 <==> ((spd[next.trn] < 0) != next.reverse)
    ensures forall j :: 0 <= j < |spd| && j != next.trn ==> spd'[j] == spd[j]
    ensures log <= log' && forall k :: |log| <= k < |log'| ==> log'[k] == Started(head', 9)
  {
  }

  /** Two gaps that close fast, one within its margins and one too far, both widened. */
  lemma WidenedAlthoughWide(trns: seq<TrainData>, spd: seq<int>, last: int, curr: int)
    requires |trns| == N_TRNS && trns[1].last == last && trns[1].curr == curr &&
             (curr, last) in {(210000, 320000), (400000, 500000)}
    ensures Decide(trns, 1, spd, 1, 0) == Plan(1, SPD_UP, SLOW_DOWN) && !TooNear(curr)
  {
  }

  /** What the train right behind the gap does at once: the decision, if it can be queued for it; otherwise what was
      queued for it before, and nothing while its grace period is pending. */
  lemma ChangeAtOnce(p: Plan, head: nat, trns: seq<TrainData>, spd: seq<int>, log: seq<Act>,
                     trns': seq<TrainData>, spd': seq<int>, log': seq<Act>, now: int, estimate: nat)
    requires Applied(p, head, trns, spd, log, trns', spd', log', now, estimate) && Adjustment(p.behind) &&
             p.gap <= |trns|
    ensures p.gap > 0 && var d := trns[p.gap - 1];
      SpeedOf(spd', d) - SpeedOf(spd, d) ==
        if d.grace != TIME_NONE then 0 else if Wants(d, spd, p.behind) then p.behind else d.queued
    ensures var d := trns[p.gap - 1];
      (SpeedOf(spd', d) - SpeedOf(spd, d) == -p.behind <==>
        d.grace == TIME_NONE && !Wants(d, spd, p.behind) && d.queued == -p.behind)
  {
    hide Supported, Wants;
    var b := p.gap - 1;
    var queued := Planned(trns, head, spd, p);
    assert queued[b] == if Wants(trns[b], spd, p.behind) then trns[b].(queued := p.behind) else trns[b];
  }

  /** Whether an adjustment can be queued for a train: supported, and no speeding up of one too far behind already. */
  ghost predicate Wants(d: TrainData, spd: seq<int>, a: int) {
    Supported(SpeedOf(spd, d) + a) && !(a > NONE && d.curr >= FOLLOWING_DIST + FOLLOWING_DIST_MARGIN)
  }

  /** The adjustment queued for the trains from lo up to and without hi, where it can be. */
  ghost function Requeued(trns: seq<TrainData>, spd: seq<int>, lo: nat, hi: nat, a: int): (r: seq<TrainData>)
    ensures |r| == |trns|
    ensures forall i :: 0 <= i < |trns| ==>
      r[i] == if lo <= i < hi && Wants(trns[i], spd, a) then trns[i].(queued := a) else trns[i]
  {
    seq(|trns|, i requires 0 <= i < |trns| =>
      if lo <= i < hi && Wants(trns[i], spd, a) then trns[i].(queued := a) else trns[i])
  }

  lemma WantsIs(d: TrainData, spd: seq<int>, a: int)
    requires d.trn < |spd|
    ensures Wants(d, spd, a) <==>
      Supported(Abs(spd[d.trn]) + a) && !(a > NONE && d.curr >= FOLLOWING_DIST + FOLLOWING_DIST_MARGIN)
  {
  }

  lemma RequeueAt(trns: seq<TrainData>, spd: seq<int>, lo: nat, i: nat, a: int)
    requires lo <= i < |trns|
    ensures var r := Requeued(trns, spd, lo, i, a);
      r[i] == trns[i] &&
        Requeued(trns, spd, lo, i + 1, a) == if Wants(trns[i], spd, a) then r[i := trns[i].(queued := a)] else r
  {
  }

  lemma RequeueBelow(trns: seq<TrainData>, spd: seq<int>, i: nat, hi: nat, a: int)
    requires i < hi && i < |trns|
    ensures var r := Requeued(trns, spd, i + 1, hi, a);
      r[i] == trns[i] &&
        Requeued(trns, spd, i, hi, a) == if Wants(trns[i], spd, a) then r[i := trns[i].(queued := a)] else r
  {
  }

  lemma RequeueNone(trns: seq<TrainData>, spd: seq<int>, i: nat, a: int)
    ensures forall hi: nat :: hi <= i ==> Requeued(trns, spd, i, hi, a) == trns
  {
  }

  /** Queueing where it can be done keeps the invariant: what is queued is supported now, and the speeds stay. */
  lemma RequeueKeeps(trns: seq<TrainData>, head: nat, spd: seq<int>, lo: nat, hi: nat, a: int, waiting: bool,
                     timer: int, log: seq<Act>)
    requires QueueOk(trns, head, spd) && TimerOk(trns, head, waiting, timer) && LogOk(trns, log) && Adjustment(a) &&
             hi <= head + 1
    ensures var r := Requeued(trns, spd, lo, hi, a);
      QueueOk(r, head, spd) && TimerOk(r, head, waiting, timer) && LogOk(r, log)
  {
    hide Supported, LogOk, Requeued;
    var r := Requeued(trns, spd, lo, hi, a);
    forall i | 0 <= i < N_TRNS ensures QueuedOk(r, head, spd, i) { assert QueuedOk(trns, head, spd, i); }
    forall i: nat ensures Pending(r, i) == Pending(trns, i) { }
    LogFrame(trns, r, log);
  }

  /** What making the queued adjustment of train i does. */
  ghost predicate Made(trns: seq<TrainData>, spd: seq<int>, log: seq<Act>, trns': seq<TrainData>, spd': seq<int>,
                       log': seq<Act>,
                       i: nat, now: int, estimate: nat)
  {
    i < |trns| &&
    var d, time := trns[i], now + if estimate > MAX_GRACE_PERIOD then MAX_GRACE_PERIOD else estimate;
    if d.queued != NONE && d.grace == TIME_NONE then
      Adjusted(d, spd, spd') && trns' == trns[i := d.(queued := NONE, grace := time)] &&
      log' == log + [Commanded(i, SpeedOf(spd, d), SpeedOf(spd', d))]
    else trns' == trns && spd' == spd && log' == log
  }

  ghost function SpeedOf(spd: seq<int>, d: TrainData): int {
    if d.trn < |spd| then Abs(spd[d.trn]) else 0
  }

  /** Only the train's speed changed, by what was queued, to a supported one in the same direction. */
  ghost predicate Adjusted(d: TrainData, spd: seq<int>, spd': seq<int>) {
    d.trn < |spd| && SpeedOf(spd', d) == SpeedOf(spd, d) + d.queued && Supported(SpeedOf(spd', d)) &&
    spd' == spd[d.trn := if spd[d.trn] < 0 then -SpeedOf(spd', d) else SpeedOf(spd', d)]
  }

  lemma QueueSizes(trns: seq<TrainData>, head: nat, spd: seq<int>)
    requires QueueOk(trns, head, spd)
    ensures |trns| == N_TRNS && |spd| == N_TRNS && head < N_TRNS && forall i :: 0 <= i < N_TRNS ==> trns[i].trn < N_TRNS
  {
  }

  /** A supported step from a speed of the table stays within the table: the conversion to uint8_t hides nothing. */
  lemma DesiredInTable(initial: int, a: int)
    requires InTable(initial) && Adjustment(a) && Supported(initial + a)
    ensures InTable(initial + a)
  {
  }

  lemma OneQueuedMade(trns: seq<TrainData>, trns': seq<TrainData>, head: nat, spd: seq<int>, spd': seq<int>, i: nat)
    requires QueueOk(trns, head, spd) && i <= head && |spd'| == N_TRNS
    requires forall t :: 0 <= t < N_TRNS && t != trns[i].trn ==> spd'[t] == spd[t]
    requires |trns'| == N_TRNS && trns' == trns[i := trns[i].(queued := NONE, grace := trns'[i].grace)] &&
             InTable(Abs(spd'[trns[i].trn]))
    ensures QueueOk(trns', head, spd')
  {
    hide Supported, Abs, InTable;
    forall j | 0 <= j < N_TRNS ensures QueuedOk(trns', head, spd', j) { assert QueuedOk(trns, head, spd, j); }
  }

  // ----- what the invariant says, in any run -----

  lemma {:induction false} HeldUntilFired(log: seq<Act>, i: nat, a: nat, b: nat) returns (k: nat)
    requires a <= b <= |log| && PhaseAfter(log[..a], i) == Held && PhaseAfter(log[..b], i) == Free
    ensures a <= k < b && log[k] == Fired(i)
    decreases b
  {
    assert log[..b][..b - 1] == log[..b - 1];
    if PhaseAfter(log[..b - 1], i) == Free {
      k := HeldUntilFired(log, i, a, b - 1);
    } else {
      k := b - 1;
    }
  }

  lemma {:induction false} NeverBroken(log: seq<Act>, i: nat, n: nat)
    requires n <= |log| && PhaseAfter(log, i) != Broken
    ensures PhaseAfter(log[..n], i) != Broken
    decreases |log|
  {
    if n < |log| {
      NeverBroken(log[..|log| - 1], i, n);
      assert log[..|log| - 1][..n] == log[..n];
    } else {
      assert log[..n] == log;
    }
  }

  /** A speed change of the train at position i. */
  predicate Changes(a: Act, i: nat) {
    !a.Fired? && a.i == i
  }

  lemma PhaseAt(log: seq<Act>, i: nat, n: nat)
    requires n < |log|
    ensures PhaseAfter(log[..n + 1], i) ==
      if log[n].i == i then NextPhase(PhaseAfter(log[..n], i), log[n]) else PhaseAfter(log[..n], i)
  {
    assert log[..n + 1][..n] == log[..n];
  }

  /** Between two adjustments of the same train its timer fired. */
  lemma AdjustmentsAreSpaced(trns: seq<TrainData>, log: seq<Act>, i: nat, a: nat, b: nat) returns (k: nat)
    requires LogOk(trns, log) && a < b < |log| && log[a].Commanded? && Changes(log[b], i) && log[a].i == i
    ensures a < k < b && log[k] == Fired(i)
  {
    NeverBroken(log, i, a + 1);
    NeverBroken(log, i, b + 1);
    PhaseAt(log, i, a);
    PhaseAt(log, i, b);
    k := HeldUntilFired(log, i, a + 1, b);
  }

  /** After a start nothing fires before the next change. */
  lemma {:induction false} FreeUntilChanged(trns: seq<TrainData>, log: seq<Act>, i: nat, a: nat, k: nat)
    requires LogOk(trns, log) && a < k < |log| && log[a].Started? && log[a].i == i
    requires forall j :: a < j < k ==> !Changes(log[j], i)
    ensures PhaseAfter(log[..k], i) == Free && log[k] != Fired(i)
    decreases k
  {
    NeverBroken(log, i, k + 1);
    PhaseAt(log, i, k - 1);
    PhaseAt(log, i, k);
    if a + 1 < k {
      FreeUntilChanged(trns, log, i, a, k - 1);
    } else {
      NeverBroken(log, i, k);
    }
  }

  /** Between a speed change of a train and its next one the timer fired exactly when the first was an adjustment: the
      start of a train takes no grace period. */
  lemma ChangesAreSpacedIff(trns: seq<TrainData>, log: seq<Act>, i: nat, a: nat, b: nat)
    requires LogOk(trns, log) && a < b < |log| && Changes(log[a], i) && Changes(log[b], i)
    requires forall j :: a < j < b ==> !Changes(log[j], i)
    ensures (exists k :: a < k < b && log[k] == Fired(i)) <==> log[a].Commanded?
  {
    if log[a].Commanded? {
      var k := AdjustmentsAreSpaced(trns, log, i, a, b);
    } else {
      forall k | a < k < b ensures log[k] != Fired(i) { FreeUntilChanged(trns, log, i, a, k); }
    }
  }

  /** Two trains, the second close behind: the first is to be slowed down. */
  lemma CloseBehind(trns: seq<TrainData>, spd: seq<int>)
    requires |trns| == N_TRNS && trns[0] == UNUSED && trns[1] == UNUSED.(trn := 1) && spd == [9, 9, 0]
    ensures var t := With(trns, 1, 0);
      Decide(t, 1, spd, 1, 0) == Plan(1, NONE, SLOW_DOWN) &&
      Planned(t, 1, spd, Plan(1, NONE, SLOW_DOWN))[0] == UNUSED.(queued := SLOW_DOWN)
  {
    var t := With(trns, 1, 0);
    assert t[1].curr == 0 && AllSupport(t, spd, 0, 1, SLOW_DOWN);
  }

  /** A run in which a train's speed changes again right after its start: the second train joins and is close behind, so
      the first is slowed down before any timer was set. */
  method SlowedAfterStart() returns (c: Controller)
    ensures fresh(c) && c.Valid() && c.log == [Started(0, 9), Started(1, 9), Commanded(0, 9, 8)] && c.spd == [8, 9, 0]
  {
    hide Controller.Valid, Decide, Planned;
    c := new Controller(0);
    ghost var trns1, spd1, log1 := c.FirstActivation(0, 0, 0, Joins(1, false));
    CloseBehind(c.trns, c.spd);
    c.SecondActivation(1, 0, 0, 0, 0);
  }

  /** Every speed a train was set to is supported, and every adjustment was one step. */
  lemma ChangesSupported(trns: seq<TrainData>, log: seq<Act>, i: nat, a: nat)
    requires LogOk(trns, log) && a < |log| && Changes(log[a], i)
    ensures Supported(log[a].to)
    ensures log[a].Commanded? ==> log[a].to == log[a].from + 1 || log[a].to == log[a].from - 1
    ensures log[a].Started? ==> log[a].to == 9
  {
    assert log[a] in log;
  }
}
