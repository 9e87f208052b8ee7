/** The server that sends bytes to the train controller, one per round of the CTS line (src/marklin-server.c):
    its step on one message, as a function, and what holds over every run. */
module Marklin {
  import opened Facts

  const ZERO_BYTE := 0xFF
  const S88_BASE := 128
  const S88_RESET := 192
  const N_S88 := 5
  const FIFO := 256
  const WAITERS := 32

  datatype Line = Ready | CmdSent | Busy

  datatype Message =
    | Getc(requester: int)
    | Puts(sender: int, text: seq<int>)
    | NotifyCts(sender: int, level: int)
    | NotifyRead(sender: int, c: int)
    | BlockForEmpty(sender: int)
    | Unknown(sender: int)

  /** What the server sees on the CTS line and what it does: a byte on the wire, or a reply. */
  datatype Event = Cts(level: int) | Byte(c: int) | Success(tid: int) | Error(tid: int) | Char(tid: int, c: int)
      | Drained(tid: int)

  datatype State = State(line: Line, outstanding: int, read: seq<int>, write: seq<int>, readers: seq<int>,
    empties: seq<int>, log: seq<Event>)

  const START := State(Ready, 0, [], [], [], [], [])

  /** 0xFF in the queue stands for the byte 0, which ends a string. */
  function Wire(c: int): int {
    if c == ZERO_BYTE then 0 else c
  }

  function Put(q: seq<int>, x: int, max: nat): seq<int> {
    if |q| == max then q else q + [x]
  }

  function PutAll(q: seq<int>, xs: seq<int>, max: nat): seq<int>
    decreases |xs|
  {
    if xs == [] then q else PutAll(Put(q, xs[0], max), xs[1..], max)
  }

  function DrainedAll(tids: seq<int>): seq<Event>
    decreases |tids|
  {
    if tids == [] then [] else [Drained(tids[0])] + DrainedAll(tids[1..])
  }

  function Outstanding(c: int, before: int): int {
    if S88_BASE <= c <= S88_BASE + N_S88 then c - S88_BASE else if S88_RESET <= c <= S88_RESET + N_S88 then 2
    else before
  }

  /** How many bytes a sensor query announces: 128 + n announces n, 192 + n two. */
  lemma QueriesAnnounce(c: int, before: int)
    ensures 128 <= c <= 133 ==> Outstanding(c, before) == c - 128
    ensures 192 <= c <= 197 ==> Outstanding(c, before) == 2
    ensures !(128 <= c <= 133) && !(192 <= c <= 197) ==> Outstanding(c, before) == before
  {
  }

  /** handleSending. */
  function HandleSending(s: State): State {
    if s.line == Ready && s.write != [] then
      var c, rest := s.write[0], s.write[1..];
      s.(line := CmdSent, write := rest, outstanding := Outstanding(c, s.outstanding),
         empties := if rest == [] then [] else s.empties,
         log := s.log + [Byte(Wire(c))] + if rest == [] then DrainedAll(s.empties) else [])
    else s
  }

  /** advanceState. */
  function Advance(line: Line, level: int): Line {
    match line
    case Ready => Ready
    case CmdSent => if level == 0 then Busy else CmdSent
    case Busy => if level == 1 then Ready else Busy
  }

  function SendIfReady(s: State): State {
    if s.line == Ready then HandleSending(s) else s
  }

  /** One pass of the server's loop. */
  function Step(s: State, m: Message): State {
    match m
    case Getc(requester) =>
      if s.read == [] then s.(readers := Put(s.readers, requester, WAITERS))
      else s.(read := s.read[1..], log := s.log + [Char(requester, s.read[0])])
    case Puts(sender, text) =>
      SendIfReady(s.(write := PutAll(s.write, text, FIFO), log := s.log + [Success(sender)]))
    case NotifyCts(sender, level) =>
      SendIfReady(s.(line := Advance(s.line, level), log := s.log + [Success(sender), Cts(level)]))
    case NotifyRead(sender, c) =>
      var s1 := if s.readers == [] then s.(read := Put(s.read, c, FIFO), log := s.log + [Success(sender)])
                else s.(readers := s.readers[1..], log := s.log + [Success(sender), Char(s.readers[0], c)]);
      var s2 := s1.(outstanding := s1.outstanding - 1);
      if s2.outstanding == 0 then HandleSending(s2) else s2
    case BlockForEmpty(sender) =>
      if s.write == [] then s.(log := s.log + [Success(sender)]) else s.(empties := Put(s.empties, sender, WAITERS))
    case Unknown(sender) =>
      s.(log := s.log + [Error(sender)])
  }

  function Run(s: State, ms: seq<Message>): State
    decreases |ms|
  {
    if ms == [] then s else Step(Run(s, ms[..|ms| - 1]), ms[|ms| - 1])
  }

  // ----- what holds after every message -----

  /** Between messages: the line is free only with nothing to send; tasks wait for an empty queue only while it is
      not; tasks wait for a byte only while none is buffered. */
  predicate Settled(s: State) {
    (s.line == Ready ==> s.write == []) && (s.empties != [] ==> s.write != []) && (s.readers != [] ==> s.read == []) &&
    |s.write| <= FIFO && |s.read| <= FIFO
  }

  lemma {:induction false} PutAllSize(q: seq<int>, xs: seq<int>, max: nat)
    requires |q| <= max
    ensures PutAll(q, xs, max) == q + xs[..if |xs| <= max - |q| then |xs| else max - |q|]
    decreases |xs|
  {
    if xs != [] {
      PutAllSize(Put(q, xs[0], max), xs[1..], max);
      assert |q| < max ==>
        [xs[0]] + xs[1..][..if |xs| <= max - |q| then |xs| - 1 else max - |q| - 1] ==
          xs[..if |xs| <= max - |q| then |xs| else max - |q|];
    }
  }

  lemma SettledStep(s: State, m: Message)
    requires Settled(s)
    ensures Settled(Step(s, m))
  {
    if m.Puts? { PutAllSize(s.write, m.text, FIFO); }
  }

  lemma {:induction false} SettledRun(ms: seq<Message>)
    ensures Settled(Run(START, ms))
    decreases |ms|
  {
    if ms != [] {
      SettledRun(ms[..|ms| - 1]);
      SettledStep(Run(START, ms[..|ms| - 1]), ms[|ms| - 1]);
    }
  }

  // ----- nothing lost, nothing reordered -----

  /** Four flows through the server: bytes to the wire, bytes read, the tasks that read them, and the tasks that
      wait for an empty queue. */
  datatype Flow = ToWire | FromWire | Readers | Waiters

  function Out(e: Event, f: Flow): seq<int> {
    match (e, f)
    case (Byte(c), ToWire) => [c]
    case (Char(_, c), FromWire) => [c]
    case (Char(tid, _), Readers) => [tid]
    case (Drained(tid), Waiters) => [tid]
    case _ => []
  }

  /** What left by this flow, in order. */
  ghost function Left(log: seq<Event>, f: Flow): seq<int> {
    if log == [] then [] else Out(log[0], f) + Left(log[1..], f)
  }

  ghost function WireOf(q: seq<int>): seq<int> {
    if q == [] then [] else [Wire(q[0])] + WireOf(q[1..])
  }

  /** What is inside. */
  ghost function Held(s: State, f: Flow): seq<int> {
    match f
    case ToWire => WireOf(s.write)
    case FromWire => s.read
    case Readers => s.readers
    case Waiters => s.empties
  }

  /** What a message brings in: the bytes, or the task, that find room. */
  ghost function Entering(s: State, m: Message, f: Flow): seq<int> {
    match (m, f)
    case (Puts(_, text), ToWire) =>
      WireOf(text[..if |text| + |s.write| <= FIFO then |text| else if |s.write| <= FIFO then FIFO - |s.write| else 0])
    case (NotifyRead(_, c), FromWire) => if s.readers != [] || |s.read| < FIFO then [c] else []
    case (Getc(requester), Readers) => if s.read != [] || |s.readers| != WAITERS then [requester] else []
    case (BlockForEmpty(sender), Waiters) => if s.write != [] && |s.empties| != WAITERS then [sender] else []
    case _ => []
  }

  ghost function Entered(ms: seq<Message>, f: Flow): seq<int>
    decreases |ms|
  {
    if ms == [] then [] else Entered(ms[..|ms| - 1], f) + Entering(Run(START, ms[..|ms| - 1]), ms[|ms| - 1], f)
  }

  ghost predicate Balanced(s: State, f: Flow, entered: seq<int>) {
    Left(s.log, f) + Held(s, f) == entered
  }

  lemma {:induction false} LeftAppend(a: seq<Event>, b: seq<Event>, f: Flow)
    ensures Left(a + b, f) == Left(a, f) + Left(b, f)
  {
    hide Out;
    if a == [] {
      assert a + b == b;
    } else {
      LeftAppend(a[1..], b, f);
      assert (a + b)[0] == a[0] && (a + b)[1..] == a[1..] + b;
      Associative(Out(a[0], f), Left(a[1..], f), Left(b, f));
    }
  }

  /** Up to two more events. */
  lemma LeftMore(log: seq<Event>, d: Event, e: Event, f: Flow)
    ensures Left(log + [d], f) == Left(log, f) + Out(d, f) &&
            Left(log + [d, e], f) == Left(log, f) + (Out(d, f) + Out(e, f))
  {
    hide Out;
    LeftAppend(log, [d], f);
    LeftAppend(log, [d, e], f);
    assert [d][1..] == [] && [d, e][1..] == [e] && [e][1..] == [];
    assert Left([e], f) == Out(e, f) + Left([], f) && Left([d], f) == Out(d, f) + Left([], f);
    assert Left([d, e], f) == Out(d, f) + Left([e], f);
  }

  lemma {:induction false} WireAppend(a: seq<int>, b: seq<int>)
    ensures WireOf(a + b) == WireOf(a) + WireOf(b)
  {
    hide Wire;
    if a == [] {
      assert a + b == b;
    } else {
      WireAppend(a[1..], b);
      assert (a + b)[0] == a[0] && (a + b)[1..] == a[1..] + b;
      Associative([Wire(a[0])], WireOf(a[1..]), WireOf(b));
    }
  }

  lemma {:induction false} DrainedLeaves(tids: seq<int>, f: Flow)
    ensures Left(DrainedAll(tids), f) == if f == Waiters then tids else []
  {
    if tids != [] {
      DrainedLeaves(tids[1..], f);
      assert DrainedAll(tids)[1..] == DrainedAll(tids[1..]);
      assert tids == [tids[0]] + tids[1..];
    }
  }

  lemma SentOut(c: int, f: Flow)
    ensures Out(Byte(c), f) == if f == ToWire then [c] else []
  {
  }

  lemma WireHead(q: seq<int>)
    requires q != []
    ensures WireOf(q) == [Wire(q[0])] + WireOf(q[1..])
  {
  }

  lemma SentState(s: State)
    ensures s.line != Ready || s.write == [] ==> HandleSending(s) == s
    ensures s.line == Ready && s.write != [] ==>
      var c, rest, r := s.write[0], s.write[1..], HandleSending(s);
      r.log == (s.log + [Byte(Wire(c))]) + (if rest == [] then DrainedAll(s.empties) else []) &&
      r.write == rest && r.read == s.read && r.readers == s.readers && r.empties == if rest == [] then [] else s.empties
  {
  }

  /** Sending moves the first queued byte onto the wire and nothing else. */
  lemma SendingBalances(s: State, f: Flow, entered: seq<int>)
    requires Balanced(s, f, entered)
    ensures Balanced(HandleSending(s), f, entered)
  {
    hide Left, DrainedAll, WireOf, Wire, Out, HandleSending;
    SentState(s);
    if s.line == Ready && s.write != [] {
      var c, rest, l := s.write[0], s.write[1..], Left(s.log, f);
      LeftTail(s.log + [Byte(Wire(c))], s.empties, rest == [], f);
      LeftMore(s.log, Byte(Wire(c)), Byte(0), f);
      SentOut(Wire(c), f);
      assert l + [] == l;
      match f
      case ToWire =>
        WireHead(s.write);
        Associative(l, [Wire(c)], WireOf(rest));
        assert l + [Wire(c)] + [] == l + [Wire(c)];
      case Waiters =>
        assert l + s.empties + [] == l + s.empties;
      case _ =>
    }
  }

  lemma LeftTail(log: seq<Event>, tids: seq<int>, drained: bool, f: Flow)
    ensures Left(log + (if drained then DrainedAll(tids) else []), f) == Left(log, f) + if drained &&
            f == Waiters then tids else []
  {
    DrainedLeaves(tids, f);
    if drained { LeftAppend(log, DrainedAll(tids), f); } else { assert log + [] == log; }
    assert Left(log, f) + [] == Left(log, f);
  }

  lemma StepBalances(s: State, m: Message, f: Flow, entered: seq<int>)
    requires Settled(s) && Balanced(s, f, entered)
    ensures Balanced(Step(s, m), f, entered + Entering(s, m, f))
  {
    hide *;
    match m
    case Puts(sender, text) => PutsBalances(s, sender, text, f, entered);
    case NotifyCts(sender, level) => CtsBalances(s, sender, level, f, entered);
    case NotifyRead(sender, c) => ReadBalances(s, sender, c, f, entered);
    case Getc(requester) => GetcBalances(s, requester, f, entered);
    case BlockForEmpty(sender) => AnswerBalances(s, m, f, entered);
    case Unknown(sender) => AnswerBalances(s, m, f, entered);
  }

  lemma CtsBalances(s: State, sender: int, level: int, f: Flow, entered: seq<int>)
    requires Balanced(s, f, entered)
    ensures Balanced(Step(s, NotifyCts(sender, level)), f, entered + Entering(s, NotifyCts(sender, level), f))
  {
    hide Left, WireOf, HandleSending;
    LeftMore(s.log, Success(sender), Cts(level), f);
    assert entered + [] == entered && Left(s.log, f) + [] == Left(s.log, f);
    var s1 := s.(line := Advance(s.line, level), log := s.log + [Success(sender), Cts(level)]);
    SendingBalances(s1, f, entered);
  }

  lemma ReadBalances(s: State, sender: int, c: int, f: Flow, entered: seq<int>)
    requires Settled(s) && Balanced(s, f, entered)
    ensures Balanced(Step(s, NotifyRead(sender, c)), f, entered + Entering(s, NotifyRead(sender, c), f))
  {
    hide Left, WireOf, Out, Step;
    ReadStep(s, sender, c);
    var l := Left(s.log, f);
    assert entered + [] == entered && l + [] == l;
    ReadOut(sender, c, f);
    if s.readers != [] {
      var x := s.readers[0];
      LeftMore(s.log, Success(sender), Char(x, c), f);
      ReadOut(x, c, f);
      match f
      case Readers =>
        Associative(l, [x], s.readers[1..]);
        assert s.readers == [x] + s.readers[1..] && [] + [x] == [x];
      case FromWire =>
        assert [] + [c] == [c] && l + [c] + [] == l + [c];
      case _ =>
    } else {
      LeftMore(s.log, Success(sender), Success(sender), f);
      Associative(l, s.read, [c]);
    }
  }

  /** With nothing to send while the line is free, a byte read only goes to a reader or into the buffer: the count of
      bytes a sensor query announced never makes the server send. */
  lemma ReadStep(s: State, sender: int, c: int)
    requires Settled(s)
    ensures Step(s, NotifyRead(sender, c)) ==
      if s.readers == []
      then s.(read := Put(s.read, c, FIFO), log := s.log + [Success(sender)], outstanding := s.outstanding - 1)
      else s.(readers := s.readers[1..], log := s.log + [Success(sender), Char(s.readers[0], c)],
        outstanding := s.outstanding - 1)
  {
  }

  lemma GetcBalances(s: State, requester: int, f: Flow, entered: seq<int>)
    requires Settled(s) && Balanced(s, f, entered)
    ensures Balanced(Step(s, Getc(requester)), f, entered + Entering(s, Getc(requester), f))
  {
    hide Left, WireOf, Out;
    var l := Left(s.log, f);
    assert entered + [] == entered && l + [] == l;
    if s.read != [] {
      var x := s.read[0];
      LeftMore(s.log, Char(requester, x), Error(0), f);
      ReadOut(requester, x, f);
      match f
      case FromWire =>
        Associative(l, [x], s.read[1..]);
        assert s.read == [x] + s.read[1..];
      case Readers =>
        assert l + [requester] + [] == l + [requester] && l + s.readers == l;
      case _ =>
    } else {
      Associative(l, s.readers, [requester]);
    }
  }

  lemma ReadOut(tid: int, c: int, f: Flow)
    ensures Out(Char(tid, c), f) == if f == FromWire then [c] else if f == Readers then [tid] else []
    ensures Out(Success(tid), f) == []
  {
  }

  lemma AnswerBalances(s: State, m: Message, f: Flow, entered: seq<int>)
    requires (m.BlockForEmpty? || m.Unknown?) && Balanced(s, f, entered)
    ensures Balanced(Step(s, m), f, entered + Entering(s, m, f))
  {
    hide Left, WireOf;
    LeftMore(s.log, Success(m.sender), Error(0), f);
    LeftMore(s.log, Error(m.sender), Error(0), f);
    Associative(Left(s.log, f), s.empties, [m.sender]);
    assert entered + [] == entered && Left(s.log, f) + [] == Left(s.log, f);
  }

  lemma PutsBalances(s: State, sender: int, text: seq<int>, f: Flow, entered: seq<int>)
    requires Settled(s) && Balanced(s, f, entered)
    ensures Balanced(Step(s, Puts(sender, text)), f, entered + Entering(s, Puts(sender, text), f))
  {
    hide Left, WireOf, DrainedAll, PutAll;
    var s1 := s.(write := PutAll(s.write, text, FIFO), log := s.log + [Success(sender)]);
    PutAllSize(s.write, text, FIFO);
    LeftMore(s.log, Success(sender), Error(0), f);
    WireAppend(s.write, text[..if |text| + |s.write| <= FIFO then |text| else FIFO - |s.write|]);
    Associative(Left(s.log, f), Held(s, f), Entering(s, Puts(sender, text), f));
    SendingBalances(s1, f, entered + Entering(s, Puts(sender, text), f));
  }

  /** In any run and by each flow: what left, then what is held, is what came in, in order. */
  lemma {:induction false} RunBalances(ms: seq<Message>, f: Flow)
    ensures Balanced(Run(START, ms), f, Entered(ms, f))
    decreases |ms|
  {
    if ms != [] {
      RunBalances(ms[..|ms| - 1], f);
      SettledRun(ms[..|ms| - 1]);
      StepBalances(Run(START, ms[..|ms| - 1]), ms[|ms| - 1], f, Entered(ms[..|ms| - 1], f));
    }
  }

  // ----- which bytes go out -----

  /** Character c of a command goes out as byte b: 0xFF, which cannot stand in a string for itself, as 0, and any other
      character unchanged. */
  predicate SentAs(c: int, b: int) {
    (c == 255 && b == 0) || (c != 255 && b == c)
  }

  /** The characters of the commands that found room among 256, in order. */
  ghost function Accepted(ms: seq<Message>): seq<int>
    decreases |ms|
  {
    if ms == [] then []
    else
      var before := ms[..|ms| - 1];
      Accepted(before) + match ms[|ms| - 1]
        case Puts(_, text) => Room(text, |Run(START, before).write|)
        case _ => []
  }

  /** As much of the text as 256 characters leave room for. */
  ghost function Room(text: seq<int>, held: nat): seq<int> {
    if |text| + held <= 256 then text else if held <= 256 then text[..256 - held] else []
  }

  /** The bytes put on the wire, in order. */
  ghost function Bytes(log: seq<Event>): seq<int> {
    if log == [] then []
    else Bytes(log[..|log| - 1]) + if log[|log| - 1].Byte? then [log[|log| - 1].c] else []
  }

  /** The bytes out and then the queue correspond, one to one and in order, to the characters all: those out as the
      bytes they are sent as, those in the queue as they came. */
  ghost predicate Orderly(s: State, all: seq<int>) {
    var n := |Bytes(s.log)|;
    n <= |all| && s.write == all[n..] && forall k :: 0 <= k < n ==> SentAs(all[k], Bytes(s.log)[k])
  }

  lemma BytesMore(log: seq<Event>, e: Event)
    ensures Bytes(log + [e]) == Bytes(log) + if e.Byte? then [e.c] else []
  {
    assert (log + [e])[..|log|] == log;
  }

  lemma {:induction false} BytesDrained(log: seq<Event>, tids: seq<int>)
    ensures Bytes(log + DrainedAll(tids)) == Bytes(log)
    decreases |tids|
  {
    hide Bytes, DrainedAll;
    DrainedHead(tids);
    if tids == [] {
      assert log + [] == log;
    } else {
      BytesMore(log, Drained(tids[0]));
      BytesDrained(log + [Drained(tids[0])], tids[1..]);
      assert log + DrainedAll(tids) == (log + [Drained(tids[0])]) + DrainedAll(tids[1..]);
    }
  }

  lemma SendingOrderly(s: State, all: seq<int>)
    requires Orderly(s, all)
    ensures Orderly(HandleSending(s), all)
  {
    hide Bytes, DrainedAll;
    if s.line == Ready && s.write != [] {
      var e, n := Byte(Wire(s.write[0])), |Bytes(s.log)|;
      BytesMore(s.log, e);
      BytesDrained(s.log + [e], s.empties);
      assert s.log + [e] + [] == s.log + [e];
      assert all[n] == s.write[0] && all[n..][1..] == all[n + 1..];
    }
  }

  /** Events that put nothing on the wire. */
  lemma QuietOrderly(s: State, s': State, all: seq<int>, d: Event, e: Event)
    requires Orderly(s, all) && s'.write == s.write && !d.Byte? && !e.Byte?
    requires s'.log in {s.log, s.log + [d], s.log + [d, e]}
    ensures Orderly(s', all)
  {
    hide Bytes;
    BytesMore(s.log, d);
    BytesMore(s.log + [d], e);
    assert s.log + [d, e] == s.log + [d] + [e];
  }

  lemma PutOrderly(s: State, sender: int, text: seq<int>, all: seq<int>)
    requires Orderly(s, all) && |s.write| <= FIFO
    ensures Orderly(s.(write := PutAll(s.write, text, FIFO), log := s.log + [Success(sender)]),
                    all + Room(text, |s.write|))
  {
    hide Bytes, PutAll;
    BytesMore(s.log, Success(sender));
    PutAllSize(s.write, text, FIFO);
    var n := |Bytes(s.log)|;
    assert text[..|text|] == text;
    assert (all + Room(text, |s.write|))[n..] == all[n..] + Room(text, |s.write|);
  }

  lemma StepOrderly(s: State, m: Message, all: seq<int>)
    requires Settled(s) && Orderly(s, all)
    ensures Orderly(Step(s, m), if m.Puts? then all + Room(m.text, |s.write|) else all)
  {
    hide Orderly, HandleSending, PutAll, Put, Room;
    match m
    case Puts(sender, text) =>
      PutOrderly(s, sender, text, all);
      var s1 := s.(write := PutAll(s.write, text, FIFO), log := s.log + [Success(sender)]);
      SendingOrderly(s1, all + Room(text, |s.write|));
    case NotifyCts(sender, level) =>
      var s1 := s.(line := Advance(s.line, level), log := s.log + [Success(sender), Cts(level)]);
      QuietOrderly(s, s1, all, Success(sender), Cts(level));
      SendingOrderly(s1, all);
    case NotifyRead(sender, c) =>
      ReadStep(s, sender, c);
      QuietOrderly(s, Step(s, m), all, Success(sender), if s.readers == [] then Error(0) else Char(s.readers[0], c));
    case Getc(requester) =>
      QuietOrderly(s, Step(s, m), all, if s.read == [] then Error(0) else Char(requester, s.read[0]), Error(0));
    case BlockForEmpty(sender) => QuietOrderly(s, Step(s, m), all, Success(sender), Error(0));
    case Unknown(sender) => QuietOrderly(s, Step(s, m), all, Error(sender), Error(0));
  }

  /** In any run, the bytes put on the wire and after them the queue correspond, one to one and in order, to the
      characters of the commands that found room. */
  lemma {:induction false} BytesAreTheCommands(ms: seq<Message>)
    ensures Orderly(Run(START, ms), Accepted(ms))
    decreases |ms|
  {
    hide Orderly, Step, Room;
    if ms == [] {
      NothingOut();
    } else {
      BytesAreTheCommands(ms[..|ms| - 1]);
      SettledRun(ms[..|ms| - 1]);
      StepOrderly(Run(START, ms[..|ms| - 1]), ms[|ms| - 1], Accepted(ms[..|ms| - 1]));
      assert Accepted(ms[..|ms| - 1]) + [] == Accepted(ms[..|ms| - 1]);
    }
  }

  lemma NothingOut()
    ensures Orderly(START, [])
  {
  }

  // ----- one byte per round of the line -----

  datatype Round = At(line: Line) | Broken

  /** The line as the events tell it: a byte may only go out while it is free, then CTS must fall and rise. */
  function NextRound(r: Round, e: Event): Round {
    match (r, e)
    case (At(line), Byte(_)) => if line == Ready then At(CmdSent) else Broken
    case (At(line), Cts(level)) => At(Advance(line, level))
    case _ => r
  }

  ghost function RoundAfter(log: seq<Event>): Round
    decreases |log|
  {
    if log == [] then At(Ready) else NextRound(RoundAfter(log[..|log| - 1]), log[|log| - 1])
  }

  lemma RoundMore(log: seq<Event>, e: Event)
    ensures RoundAfter(log + [e]) == NextRound(RoundAfter(log), e)
  {
    assert (log + [e])[..|log|] == log;
  }

  lemma DrainedHead(tids: seq<int>)
    ensures tids == [] ==> DrainedAll(tids) == []
    ensures tids != [] ==> DrainedAll(tids) == [Drained(tids[0])] + DrainedAll(tids[1..])
  {
  }

  lemma {:induction false} RoundDrained(log: seq<Event>, tids: seq<int>)
    ensures RoundAfter(log + DrainedAll(tids)) == RoundAfter(log)
    decreases |tids|
  {
    hide DrainedAll, RoundAfter;
    DrainedHead(tids);
    if tids == [] {
      assert log + [] == log;
    } else {
      RoundMore(log, Drained(tids[0]));
      RoundDrained(log + [Drained(tids[0])], tids[1..]);
      assert log + DrainedAll(tids) == (log + [Drained(tids[0])]) + DrainedAll(tids[1..]);
    }
  }

  lemma RoundSending(s: State)
    requires RoundAfter(s.log) == At(s.line)
    ensures RoundAfter(HandleSending(s).log) == At(HandleSending(s).line)
  {
    if s.line == Ready && s.write != [] {
      var e := Byte(Wire(s.write[0]));
      RoundMore(s.log, e);
      RoundDrained(s.log + [e], s.empties);
      assert s.log + [e] + [] == s.log + [e];
    }
  }

  lemma RoundTwo(log: seq<Event>, d: Event, e: Event)
    ensures RoundAfter(log + [d, e]) == NextRound(NextRound(RoundAfter(log), d), e)
  {
    hide RoundAfter;
    RoundMore(log, d);
    RoundMore(log + [d], e);
    assert log + [d, e] == log + [d] + [e];
  }

  lemma RoundStep(s: State, m: Message)
    requires Settled(s) && RoundAfter(s.log) == At(s.line)
    ensures RoundAfter(Step(s, m).log) == At(Step(s, m).line)
  {
    hide RoundAfter, DrainedAll, PutAll;
    match m
    case Puts(sender, text) =>
      RoundMore(s.log, Success(sender));
      RoundSending(s.(write := PutAll(s.write, text, FIFO), log := s.log + [Success(sender)]));
    case NotifyCts(sender, level) =>
      RoundTwo(s.log, Success(sender), Cts(level));
      RoundSending(s.(line := Advance(s.line, level), log := s.log + [Success(sender), Cts(level)]));
    case NotifyRead(sender, c) =>
      RoundMore(s.log, Success(sender));
      if s.readers != [] { RoundTwo(s.log, Success(sender), Char(s.readers[0], c)); }
      var s1 := if s.readers == [] then s.(read := Put(s.read, c, FIFO), log := s.log + [Success(sender)])
                else s.(readers := s.readers[1..], log := s.log + [Success(sender), Char(s.readers[0], c)]);
      RoundSending(s1.(outstanding := s1.outstanding - 1));
    case Getc(requester) =>
      if s.read != [] { RoundMore(s.log, Char(requester, s.read[0])); }
    case BlockForEmpty(sender) =>
      RoundMore(s.log, Success(sender));
    case Unknown(sender) =>
      RoundMore(s.log, Error(sender));
  }

  lemma {:induction false} RoundRun(ms: seq<Message>)
    ensures RoundAfter(Run(START, ms).log) == At(Run(START, ms).line)
    decreases |ms|
  {
    if ms != [] {
      RoundRun(ms[..|ms| - 1]);
      SettledRun(ms[..|ms| - 1]);
      RoundStep(Run(START, ms[..|ms| - 1]), ms[|ms| - 1]);
    }
  }

  lemma {:induction false} PrefixUnbroken(log: seq<Event>, i: nat)
    requires i <= |log| && !RoundAfter(log).Broken?
    ensures !RoundAfter(log[..i]).Broken?
    decreases |log|
  {
    if i < |log| {
      PrefixUnbroken(log[..|log| - 1], i);
      assert log[..|log| - 1][..i] == log[..i];
    } else {
      assert log[..i] == log;
    }
  }

  /** How a line that was not free after i events came to be free after j: CTS rose. */
  lemma {:induction false} RoseBetween(log: seq<Event>, i: nat, j: nat) returns (k: nat)
    requires i <= j <= |log| && !RoundAfter(log[..j]).Broken? && !RoundAfter(log[..i]).Broken?
    requires RoundAfter(log[..i]) != At(Ready) && RoundAfter(log[..j]) == At(Ready)
    ensures i <= k < j && log[k] == Cts(1) && RoundAfter(log[..k]) == At(Busy)
    decreases j
  {
    assert log[..j][..j - 1] == log[..j - 1];
    if RoundAfter(log[..j - 1]) == At(Ready) {
      k := RoseBetween(log, i, j - 1);
    } else {
      k := j - 1;
    }
  }

  lemma {:induction false} FellBetween(log: seq<Event>, i: nat, j: nat) returns (k: nat)
    requires i <= j <= |log| && RoundAfter(log[..i]) == At(CmdSent) && RoundAfter(log[..j]) == At(Busy)
    ensures i <= k < j && log[k] == Cts(0)
    decreases j
  {
    assert log[..j][..j - 1] == log[..j - 1];
    if RoundAfter(log[..j - 1]) == At(Busy) {
      k := FellBetween(log, i, j - 1);
    } else {
      k := j - 1;
    }
  }

  lemma RoundAt(log: seq<Event>, i: nat)
    requires i < |log|
    ensures RoundAfter(log[..i + 1]) == NextRound(RoundAfter(log[..i]), log[i])
  {
    assert log[..i + 1][..i] == log[..i];
  }

  /** Between two bytes on the wire, in any run, CTS fell and then rose. */
  lemma WritesAreSeparated(ms: seq<Message>, i: nat, j: nat) returns (low: nat, high: nat)
    requires i < j < |Run(START, ms).log| && Run(START, ms).log[i].Byte? && Run(START, ms).log[j].Byte?
    ensures i < low < high < j && Run(START, ms).log[low] == Cts(0) && Run(START, ms).log[high] == Cts(1)
  {
    hide RoundAfter, Step;
    var log := Run(START, ms).log;
    RoundRun(ms);
    hide Run;
    RoundAt(log, i);
    RoundAt(log, j);
    assert log[..|log|] == log;
    PrefixUnbroken(log, i + 1);
    PrefixUnbroken(log, j + 1);
    PrefixUnbroken(log, i);
    PrefixUnbroken(log, j);
    high := RoseBetween(log, i + 1, j);
    low := FellBetween(log, i + 1, high);
  }

  /** How far the line has got since its last byte. */
  function Rank(r: Round): nat {
    match r
    case At(CmdSent) => 1
    case At(Busy) => 2
    case At(Ready) => 3
    case Broken => 0
  }

  /** Without a byte the line only gets freer. */
  lemma {:induction false} OnlyFreer(log: seq<Event>, i: nat, j: nat)
    requires i <= j <= |log| && forall k :: i <= k < j ==> !log[k].Byte?
    ensures Rank(RoundAfter(log[..i])) <= Rank(RoundAfter(log[..j]))
    decreases j
  {
    hide RoundAfter;
    if i < j {
      OnlyFreer(log, i, j - 1);
      RoundAt(log, j - 1);
    }
  }

  /** Every byte has been followed by a fall of CTS and then by a rise. */
  ghost predicate AllRoundsOver(log: seq<Event>) {
    forall i: nat :: i < |log| && log[i].Byte? ==> RoundOver(log, i)
  }

  ghost predicate RoundOver(log: seq<Event>, i: nat) {
    exists low, high :: i < low < high < |log| && log[low] == Cts(0) && log[high] == Cts(1)
  }

  lemma {:induction false} LastByte(log: seq<Event>, n: nat) returns (i: int)
    requires n <= |log|
    ensures -1 <= i < n && (i >= 0 ==> log[i].Byte?) && forall k :: i < k < n ==> !log[k].Byte?
  {
    if n == 0 || log[n - 1].Byte? { i := n - 1; } else { i := LastByte(log, n - 1); }
  }

  /** In any run, the server holds the line for free, and then has nothing left to send, exactly when CTS fell and then
      rose after every byte. */
  lemma FreeIff(ms: seq<Message>)
    ensures Run(START, ms).line == Ready <==> AllRoundsOver(Run(START, ms).log)
    ensures AllRoundsOver(Run(START, ms).log) ==> Run(START, ms).write == []
  {
    hide RoundAfter, Step;
    var log := Run(START, ms).log;
    RoundRun(ms);
    SettledRun(ms);
    var line := Run(START, ms).line;
    hide Run;
    assert log[..|log|] == log;
    if line == Ready {
      forall i: nat | i < |log| && log[i].Byte? ensures RoundOver(log, i) {
        RoundAt(log, i);
        PrefixUnbroken(log, i);
        PrefixUnbroken(log, i + 1);
        var high := RoseBetween(log, i + 1, |log|);
        var low := FellBetween(log, i + 1, high);
      }
    } else if AllRoundsOver(log) {
      var i := LastByte(log, |log|);
      NoByteYet(log);
      if i >= 0 {
        assert RoundOver(log, i);
        var low, high :| i < low < high < |log| && log[low] == Cts(0) && log[high] == Cts(1);
        RoundAt(log, i);
        PrefixUnbroken(log, i + 1);
        OnlyFreer(log, i + 1, low);
        RoundAt(log, low);
        OnlyFreer(log, low + 1, high);
        RoundAt(log, high);
        OnlyFreer(log, high + 1, |log|);
      } else {
        OnlyFreer(log, 0, |log|);
      }
    }
  }

  lemma NoByteYet(log: seq<Event>)
    ensures RoundAfter(log[..0]) == At(Ready)
  {
  }

  // ----- replies -----

  /** What a message is answered: a command, a level or a byte at once, a reader with the first byte buffered, and who
      waits for an empty queue when it is empty; a reader without a byte and who waits for a queue that is not empty are
      answered later.  Only readers and those who waited hear anything besides. */
  lemma EachIsAnswered(s: State, m: Message)
    requires Settled(s)
    ensures s.log <= Step(s, m).log
    ensures forall k :: |s.log| < k < |Step(s, m).log| ==>
      var e := Step(s, m).log[k];
      e.Byte? || e.Cts? || (e.Drained? && e.tid in s.empties) || (e.Char? && s.readers != [] && e.tid == s.readers[0])
    ensures m.Puts? || m.NotifyCts? || m.NotifyRead? ==>
      |s.log| < |Step(s, m).log| && Step(s, m).log[|s.log|] == Success(m.sender)
    ensures m.Getc? ==>
      Step(s, m).log == if s.read == [] then s.log else s.log + [Char(m.requester, s.read[0])]
    ensures m.BlockForEmpty? ==> Step(s, m).log == if s.write == [] then s.log + [Success(m.sender)] else s.log
    ensures m.Unknown? ==> Step(s, m).log == s.log + [Error(m.sender)]
  {
    hide PutAll;
    DrainedNames(s.empties);
  }

  lemma {:induction false} DrainedNames(tids: seq<int>)
    ensures forall e :: e in DrainedAll(tids) ==> e.Drained? && e.tid in tids
  {
    if tids != [] { DrainedNames(tids[1..]); }
  }
}
