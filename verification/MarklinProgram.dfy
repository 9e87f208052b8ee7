/** The loop of marklin_server_main (src/marklin-server.c:48-223), in place on its four queues.  Every method does
    what the step functions of Marklin say. */
module MarklinProgram {
  import opened RingBuffer
  import opened Marklin

  class Server {
    var line: Line
    var outstanding: int
    const fifoRead: Deque
    const fifoWrite: Deque
    const waitingReaders: Deque
    const waitingForEmpty: Deque
    ghost var log: seq<Event>

    ghost function Queues(): set<object>
    {
      {fifoRead, fifoRead.buf, fifoWrite, fifoWrite.buf, waitingReaders, waitingReaders.buf, waitingForEmpty,
        waitingForEmpty.buf}
    }

    /** The queues are four different ones. */
    ghost predicate Apart() {
      fifoRead != fifoWrite && fifoRead != waitingReaders && fifoRead != waitingForEmpty &&
      fifoWrite != waitingReaders &&
      fifoWrite != waitingForEmpty && waitingReaders != waitingForEmpty && fifoRead.buf != fifoWrite.buf &&
      fifoRead.buf != waitingReaders.buf && fifoRead.buf != waitingForEmpty.buf &&
      fifoWrite.buf != waitingReaders.buf &&
      fifoWrite.buf != waitingForEmpty.buf && waitingReaders.buf != waitingForEmpty.buf
    }

    ghost predicate Valid()
      reads this, Queues()
    {
      Apart() && fifoRead.Valid() && fifoWrite.Valid() && waitingReaders.Valid() && waitingForEmpty.Valid() &&
      fifoRead.maxSize == FIFO && fifoWrite.maxSize == FIFO && waitingReaders.maxSize == WAITERS &&
        waitingForEmpty.maxSize == WAITERS
    }

    ghost function View(): State
      requires Valid()
      reads this, Queues()
    {
      State(line, outstanding, fifoRead.Contents(), fifoWrite.Contents(), waitingReaders.Contents(),
        waitingForEmpty.Contents(), log)
    }

    constructor ()
      ensures Valid() && View() == START && fresh(Queues())
    {
      hide Deque.Valid, Deque.Contents;
      var read := NewQueue(8, FIFO);
      var write := NewQueue(8, FIFO);
      var readers := NewQueue(5, WAITERS);
      var empties := NewQueue(5, WAITERS);
      fifoRead, fifoWrite, waitingReaders, waitingForEmpty := read, write, readers, empties;
      line, outstanding, log := Ready, 0, [];
    }

    /** replyWaitingForEmtpy. */
    method ReplyWaiting()
      requires Valid()
      modifies this`log, waitingForEmpty
      ensures Valid() &&
              View() == old(View()).(empties := [], log := old(log) + DrainedAll(old(waitingForEmpty.Contents())))
    {
      hide DrainedAll, Deque.Contents;
      ghost var all, n: nat := waitingForEmpty.Contents(), 0;
      assert all[0..] == all;
      while !waitingForEmpty.Empty()
        invariant Valid() && line == old(line) && outstanding == old(outstanding)
        invariant n <= |all| && waitingForEmpty.Contents() == all[n..]
        invariant log + DrainedAll(all[n..]) == old(log) + DrainedAll(all)
        decreases |all| - n
      {
        DrainedHead(all[n..]);
        var tid := waitingForEmpty.PopFront();
        assert all[n..] == [tid] + all[n + 1..] && waitingForEmpty.Contents() == all[n + 1..];
        assert log + ([Drained(tid)] + DrainedAll(all[n + 1..])) == (log + [Drained(tid)]) + DrainedAll(all[n + 1..]);
        log := log + [Drained(tid)];
        n := n + 1;
      }
      DrainedHead(all[n..]);
      assert log + [] == log;
    }

    /** handleSending. */
    method SendByte()
      requires Valid()
      modifies this, fifoWrite, waitingForEmpty
      ensures Valid() && View() == HandleSending(old(View()))
    {
      hide DrainedAll, Deque.Contents;
      if line == Ready && !fifoWrite.Empty() {
        ghost var before := fifoWrite.Contents();
        var c := fifoWrite.PopFront();
        assert before == [c] + fifoWrite.Contents() && c == before[0] && before[1..] == fifoWrite.Contents();
        log := log + [Byte(if c == ZERO_BYTE then 0 else c)];
        line := CmdSent;
        if S88_BASE <= c <= S88_BASE + N_S88 {
          outstanding := c - S88_BASE;
        } else if S88_RESET <= c <= S88_RESET + N_S88 {
          outstanding := 2;
        }
        if fifoWrite.Empty() {
          ReplyWaiting();
        } else {
          assert log + [] == log;
        }
      }
    }

    /** The bytes of the message's string, one after the other. */
    method Enqueue(text: seq<int>)
      requires Valid()
      modifies fifoWrite, fifoWrite.buf
      ensures Valid() && View() == old(View()).(write := PutAll(old(View()).write, text, FIFO))
    {
      hide Deque.Contents;
      for i := 0 to |text|
        invariant Valid() && View() == old(View()).(write := fifoWrite.Contents())
        invariant PutAll(fifoWrite.Contents(), text[i..], FIFO) == PutAll(old(View()).write, text, FIFO)
      {
        assert text[i..][1..] == text[i + 1..];
        fifoWrite.PushBack(text[i]);
      }
    }

    /** One message. */
    method Serve(m: Message)
      requires Valid()
      modifies this, Queues()
      ensures Valid() && View() == Step(old(View()), m)
    {
      hide DrainedAll, PutAll, HandleSending, Deque.Contents;
      match m
      case Getc(requester) =>
        Read(requester);
      case Puts(sender, text) =>
        Enqueue(text);
        log := log + [Success(sender)];
        if line == Ready { SendByte(); }
      case NotifyCts(sender, level) =>
        log := log + [Success(sender)];
        AdvanceLine(level);
        assert log == old(log) + [Success(sender), Cts(level)];
        if line == Ready { SendByte(); }
      case NotifyRead(sender, c) =>
        GiveByte(sender, c);
        outstanding := outstanding - 1;
        if outstanding == 0 { SendByte(); }
      case BlockForEmpty(sender) =>
        if fifoWrite.Empty() {
          log := log + [Success(sender)];
        } else {
          waitingForEmpty.PushBack(sender);
        }
      case Unknown(sender) =>
        log := log + [Error(sender)];
    }

    /** A task reads: it gets the first byte, or waits for one. */
    method Read(requester: int)
      requires Valid()
      modifies this`log, fifoRead, waitingReaders, waitingReaders.buf
      ensures Valid() && View() == Step(old(View()), Getc(requester))
    {
      hide DrainedAll, PutAll, HandleSending, Deque.Contents;
      if fifoRead.Empty() {
        waitingReaders.PushBack(requester);
      } else {
        ghost var before := fifoRead.Contents();
        var c := fifoRead.PopFront();
        assert before[1..] == fifoRead.Contents() && before[0] == c;
        log := log + [Char(requester, c)];
      }
    }

    /** advanceState; that the level was seen is recorded. */
    method AdvanceLine(level: int)
      modifies this`line, this`log
      ensures line == Advance(old(line), level) && log == old(log) + [Cts(level)]
    {
      log := log + [Cts(level)];
      match line
      case Ready =>
      case CmdSent => if level == 0 { line := Busy; }
      case Busy => if level == 1 { line := Ready; }
    }

    /** A byte read goes to the first task waiting for one, or into the buffer. */
    method GiveByte(sender: int, c: int)
      requires Valid()
      modifies this`log, fifoRead, fifoRead.buf, waitingReaders
      ensures Valid()
      ensures var s := old(View());
        View() == if s.readers == [] then s.(read := Put(s.read, c, FIFO), log := s.log + [Success(sender)])
                  else s.(readers := s.readers[1..], log := s.log + [Success(sender), Char(s.readers[0], c)])
    {
      hide Deque.Contents;
      log := log + [Success(sender)];
      if waitingReaders.Empty() {
        fifoRead.PushBack(c);
      } else {
        ghost var before := waitingReaders.Contents();
        var tid := waitingReaders.PopFront();
        assert before[1..] == waitingReaders.Contents() && before[0] == tid;
        log := log + [Char(tid, c)];
      }
    }
  }

  method NewQueue(e: nat, size: nat) returns (q: Deque)
    requires (e == 8 && size == FIFO) || (e == 5 && size == WAITERS)
    ensures fresh(q) && fresh(q.buf) && q.Valid() && q.Contents() == [] && q.maxSize == size
  {
    q := new Deque();
    PowersOfTwo();
    var status := q.Init(e);
  }

  lemma PowersOfTwo()
    ensures Pow2(8) == FIFO && Pow2(5) == WAITERS
  {
    assert Pow2(4) == 16 && Pow2(3) == 8;
  }
}
