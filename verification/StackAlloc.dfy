/** Stack slots (kernel/src/stack-alloc.c): a table of 0/1 marks and the address arithmetic around it. */
module StackAlloc {
  import opened TaskTable

  const STACK_SIZE := 0x80000

  /** The slot a stack address lies in, stacks being laid out upwards from base. */
  function SlotOf(base: int, address: int): int {
    (address - base) / STACK_SIZE
  }

  /** The stack with this slot number starts in that slot, and two of them are a whole stack apart. */
  lemma SlotStarts(base: int, slot: nat, other: nat)
    ensures SlotOf(base, base + slot * STACK_SIZE) == slot
    ensures slot != other ==> base + slot * STACK_SIZE + STACK_SIZE <= base + other * STACK_SIZE ||
                              base + other * STACK_SIZE + STACK_SIZE <= base + slot * STACK_SIZE
  {
  }

  ghost predicate SomeFree(isAllocd: seq<int>) {
    exists i: nat :: i < |isAllocd| && isAllocd[i] == 0
  }

  class StackAllocator {
    const base: int
    var isAllocd: seq<int>

    ghost predicate Valid()
      reads this
    {
      |isAllocd| == N_TASKS && forall i :: 0 <= i < N_TASKS ==> isAllocd[i] == 0 || isAllocd[i] == 1
    }

    constructor (kernelStackPtr: int)
      ensures Valid() && base == kernelStackPtr + STACK_SIZE && forall i :: 0 <= i < N_TASKS ==> isAllocd[i] == 0
    {
      base := kernelStackPtr + STACK_SIZE;
      isAllocd := seq(N_TASKS, i => 0);
    }

    /** stack_alloc_new: the first free slot; its assertion that there is one never fails. */
    method New() returns (stack: int)
      requires Valid() && SomeFree(isAllocd)
      modifies this`isAllocd
      ensures Valid() && 0 <= SlotOf(base, stack) < N_TASKS && stack == base + SlotOf(base, stack) * STACK_SIZE
      ensures old(isAllocd)[SlotOf(base, stack)] == 0 && isAllocd == old(isAllocd)[SlotOf(base, stack) := 1]
      ensures forall i :: 0 <= i < SlotOf(base, stack) ==> isAllocd[i] == 1
    {
      var offset := 0;
      while offset < N_TASKS && isAllocd[offset] != 0
        invariant 0 <= offset <= N_TASKS && forall i :: 0 <= i < offset ==> isAllocd[i] == 1
      {
        offset := offset + 1;
      }
      assert offset < N_TASKS;
      SlotStarts(base, offset, offset);
      isAllocd := isAllocd[offset := 1];
      return base + offset * STACK_SIZE;
    }

    /** stack_alloc_free. */
    method Free(stackBase: int)
      requires Valid() && 0 <= SlotOf(base, stackBase) < N_TASKS
      modifies this`isAllocd
      ensures Valid() && isAllocd == old(isAllocd)[SlotOf(base, stackBase) := 0]
    {
      var offset := SlotOf(base, stackBase) % 0x10000;
      assert offset < N_TASKS;
      isAllocd := isAllocd[offset := 0];
    }
  }
}
