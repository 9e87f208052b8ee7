/** The task descriptors (kernel/include/task-state.h).  A descriptor is named by its place in the slabs, slab
    number times 8 plus the place inside; each field of the descriptors is one column. */
module TaskTable {
  import opened Chains

  const N_TASK_T := 8
  const N_SLABS := 128
  const N_TASKS := 1024
  const N_PRIORITY := 11

  datatype TaskState = Running | Ready | SendWait | ReplyWait | RcvWait | EventWait | Killed

  /** A 64-bit register, read as a signed number. */
  type Word = v: int | -0x8000_0000_0000_0000 <= v < 0x8000_0000_0000_0000

  /** The registers a call passes behind its first two: addresses and lengths. */
  datatype Args = Args(x2: int, x3: Word, x4: int, x5: Word)

  function SlabOf(x: nat): nat {
    x / N_TASK_T
  }

  class Tasks {
    var next: seq<int>
    var waitingSendersNext: seq<int>
    var eventWaitNext: seq<int>
    var tid: seq<int>
    var parent: seq<int>
    var state: seq<TaskState>
    var priority: seq<int>
    var slabIndex: seq<int>
    var stackBase: seq<int>
    var x0: seq<int>
    var x1: seq<int>
    var args: seq<Args>

    ghost predicate Sized()
      reads this
    {
      |next| == N_TASKS && |waitingSendersNext| == N_TASKS && |eventWaitNext| == N_TASKS && |tid| == N_TASKS &&
      |parent| == N_TASKS && |state| == N_TASKS && |priority| == N_TASKS && |slabIndex| == N_TASKS &&
      |stackBase| == N_TASKS && |x0| == N_TASKS && |x1| == N_TASKS && |args| == N_TASKS
    }

    constructor ()
      ensures Sized()
    {
      var zeros := seq(N_TASKS, i => 0);
      var nulls := seq(N_TASKS, i => NULL);
      next, waitingSendersNext, eventWaitNext, parent := nulls, nulls, nulls, nulls;
      tid, priority, slabIndex, stackBase := zeros, zeros, zeros, zeros;
      state := seq(N_TASKS, i => Killed);
      x0, x1, args := zeros, zeros, seq(N_TASKS, i => Args(0, 0, 0, 0));
    }

    /** task_init, the stack having been found: the registers, the parent, the priority, a ready task. */
    method Init(x: nat, code: int, parentTask: int, p: int, sp: int)
      requires Sized() && x < N_TASKS
      modifies this`x0, this`x1, this`args, this`parent, this`priority, this`state, this`stackBase
      ensures Sized()
      ensures x0 == old(x0)[x := code] && x1 == old(x1)[x := 0] && args == old(args)[x := Args(0, 0, 0, 0)]
      ensures parent == old(parent)[x := parentTask] && priority == old(priority)[x := p]
      ensures state == old(state)[x := Ready] && stackBase == old(stackBase)[x := sp]
    {
      SetRegisters(x, code, 0, Args(0, 0, 0, 0));
      parent, priority := parent[x := parentTask], priority[x := p];
      state, stackBase := state[x := Ready], stackBase[x := sp];
    }

    /** A task leaves its registers to the kernel. */
    method SetRegisters(x: nat, r0: int, r1: int, rest: Args)
      requires Sized() && x < N_TASKS
      modifies this`x0, this`x1, this`args
      ensures Sized()
      ensures x0 == old(x0)[x := r0] && x1 == old(x1)[x := r1] && args == old(args)[x := rest]
    {
      x0, x1, args := x0[x := r0], x1[x := r1], args[x := rest];
    }

    /** task_clear. */
    method Clear(x: nat)
      requires Sized() && x < N_TASKS
      modifies this`next, this`waitingSendersNext, this`eventWaitNext, this`tid
      ensures Sized()
      ensures next == old(next)[x := NULL] && waitingSendersNext == old(waitingSendersNext)[x := NULL]
      ensures eventWaitNext == old(eventWaitNext)[x := NULL] && tid == old(tid)[x := 0]
    {
      next, waitingSendersNext, eventWaitNext, tid :=
        next[x := NULL], waitingSendersNext[x := NULL], eventWaitNext[x := NULL], tid[x := 0];
    }
  }
}
