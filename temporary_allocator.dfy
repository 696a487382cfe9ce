/** platform/temporay_allocator.cc: GPU temporary allocations are not freed
  * at once but queued; the queue is handed over to a delete queue, which a
  * later Release frees. The condition-variable wait becomes a precondition. */
module TemporaryAllocation {
  import opened Wrappers

  /** What the allocator reads of an allocation: an identity, its size, its
    * place, and whether it is a TemporayAllocation at all. */
  datatype Allocation = Allocation(id: nat, size: nat, onGpu: bool, isTemporary: bool)

  /** The combined size of queued allocations. */
  function QueuedBytes(q: seq<Allocation>): nat
  {
    if q == [] then 0 else QueuedBytes(q[..|q| - 1]) + q[|q| - 1].size
  }

  class TemporaryAllocator {
    var tempMemQueue: seq<Allocation>
    var waitToDeleteMemQueue: Option<seq<Allocation>>
    var waitDeleteMem: int
    /** The allocations deleted so far, in order. */
    var deleted: seq<Allocation>
    /** Every temporary allocation handed to Free so far. */
    ghost var freed: seq<Allocation>

    /** wait_delete_mem_ is the size of the current queue, and every freed
      * allocation is in exactly one of the queue, the delete queue or the
      * deleted ones. */
    ghost predicate Valid()
      reads this
    {
      waitDeleteMem == QueuedBytes(tempMemQueue) &&
      multiset(freed) == multiset(tempMemQueue) + multiset(Pending()) + multiset(deleted)
    }

    function Pending(): seq<Allocation>
      reads this
    {
      if waitToDeleteMemQueue.Some? then waitToDeleteMemQueue.value else []
    }

    constructor()
      ensures Valid()
      ensures tempMemQueue == [] && waitToDeleteMemQueue == None && waitDeleteMem == 0
      ensures deleted == [] && freed == []
    {
      tempMemQueue := [];
      waitToDeleteMemQueue := None;
      waitDeleteMem := 0;
      deleted := [];
      freed := [];
    }

    /** Free: only a TemporayAllocation may be freed; one on a GPU place is
      * queued and its size added to wait_delete_mem_, any other is deleted
      * at once. */
    method Free(a: Allocation) returns (r: Outcome)
      requires Valid()
      modifies this
      ensures Valid()
      ensures r.Pass? <==> a.isTemporary
      ensures r.Fail? ==> tempMemQueue == old(tempMemQueue) && deleted == old(deleted) && freed == old(freed)
      ensures r.Pass? && a.onGpu ==>
        tempMemQueue == old(tempMemQueue) + [a] && waitDeleteMem == old(waitDeleteMem) + a.size &&
        deleted == old(deleted)
      ensures r.Pass? && !a.onGpu ==> tempMemQueue == old(tempMemQueue) && deleted == old(deleted) + [a]
      ensures r.Pass? ==> freed == old(freed) + [a]
      ensures waitToDeleteMemQueue == old(waitToDeleteMemQueue)
    {
      if !a.isTemporary {
        return Fail("temp_allocation should not be null");
      }
      if a.onGpu {
        Enqueue(a);
      } else {
        DeleteNow(a);
      }
      return Pass;
    }

    /** The GPU branch of Free. */
    method Enqueue(a: Allocation)
      requires Valid()
      modifies this
      ensures Valid()
      ensures tempMemQueue == old(tempMemQueue) + [a] && waitDeleteMem == old(waitDeleteMem) + a.size
      ensures deleted == old(deleted) && freed == old(freed) + [a]
      ensures waitToDeleteMemQueue == old(waitToDeleteMemQueue)
    {
      assert (tempMemQueue + [a])[..|tempMemQueue|] == tempMemQueue;
      assert QueuedBytes(tempMemQueue + [a]) == QueuedBytes(tempMemQueue) + a.size;
      assert multiset(freed + [a]) == multiset(freed) + multiset{a};
      assert multiset(tempMemQueue + [a]) == multiset(tempMemQueue) + multiset{a};
      freed := freed + [a];
      tempMemQueue := tempMemQueue + [a];
      waitDeleteMem := waitDeleteMem + a.size;
    }

    /** The other branch of Free. */
    method DeleteNow(a: Allocation)
      requires Valid()
      modifies this
      ensures Valid()
      ensures deleted == old(deleted) + [a] && freed == old(freed) + [a]
      ensures tempMemQueue == old(tempMemQueue) && waitDeleteMem == old(waitDeleteMem)
      ensures waitToDeleteMemQueue == old(waitToDeleteMemQueue)
    {
      assert multiset(freed + [a]) == multiset(freed) + multiset{a};
      assert multiset(deleted + [a]) == multiset(deleted) + multiset{a};
      freed := freed + [a];
      deleted := deleted + [a];
    }

    /** MoveToDeleteQueue: once no delete queue is pending, the current
      * queue becomes the delete queue and a fresh empty queue starts. */
    method MoveToDeleteQueue()
      requires Valid() && waitToDeleteMemQueue.None?
      modifies this
      ensures Valid()
      ensures waitToDeleteMemQueue == Some(old(tempMemQueue))
      ensures tempMemQueue == [] && waitDeleteMem == 0
      ensures deleted == old(deleted) && freed == old(freed)
    {
      waitToDeleteMemQueue := Some(tempMemQueue);
      tempMemQueue := [];
      waitDeleteMem := 0;
    }

    /** Release: the delete queue is taken, none is left pending, and every
      * allocation in it is deleted in order. */
    method Release()
      requires Valid() && waitToDeleteMemQueue.Some?
      modifies this
      ensures Valid()
      ensures waitToDeleteMemQueue == None
      ensures deleted == old(deleted) + old(waitToDeleteMemQueue.value)
      ensures tempMemQueue == old(tempMemQueue) && waitDeleteMem == old(waitDeleteMem) && freed == old(freed)
    {
      var tAllocations := waitToDeleteMemQueue.value;
      waitToDeleteMemQueue := None;
      var i := 0;
      while i < |tAllocations|
        invariant 0 <= i <= |tAllocations|
        invariant deleted == old(deleted) + tAllocations[..i]
        invariant tempMemQueue == old(tempMemQueue) && waitDeleteMem == old(waitDeleteMem) && freed == old(freed)
        invariant waitToDeleteMemQueue == None
      {
        assert tAllocations[..i + 1] == tAllocations[..i] + [tAllocations[i]];
        deleted := deleted + [tAllocations[i]];
        i := i + 1;
      }
      assert tAllocations[..i] == tAllocations;
    }

    method WaitDeleteQueueSize() returns (n: nat)
      ensures n == |Pending()|
      ensures waitToDeleteMemQueue.None? ==> n == 0
    {
      n := if waitToDeleteMemQueue.Some? then |waitToDeleteMemQueue.value| else 0;
    }

    method TemporaryAllocationQueueSize() returns (n: nat)
      ensures n == |tempMemQueue|
    {
      n := |tempMemQueue|;
    }
  }

  /** The three Free calls of Cycle on a new allocator. */
  method FreeThree(allocator: TemporaryAllocator, a: Allocation, b: Allocation, c: Allocation)
    requires allocator.Valid() && allocator.waitToDeleteMemQueue == None
    requires allocator.tempMemQueue == [] && allocator.deleted == [] && allocator.waitDeleteMem == 0
    requires a.isTemporary && a.onGpu && b.isTemporary && b.onGpu && c.isTemporary && !c.onGpu
    modifies allocator
    ensures allocator.Valid() && allocator.waitToDeleteMemQueue == None
    ensures allocator.tempMemQueue == [a, b] && allocator.deleted == [c] && allocator.waitDeleteMem == a.size + b.size
  {
    var r := allocator.Free(a);
    r := allocator.Free(b);
    r := allocator.Free(c);
  }

  /** A whole cycle: two GPU allocations are queued with their sizes counted,
    * handed to the delete queue, and released in the order they were freed;
    * an allocation on another place is deleted at once. */
  method Cycle(a: Allocation, b: Allocation, c: Allocation) returns (queuedBytes: int, deleted: seq<Allocation>)
    requires a.isTemporary && a.onGpu && b.isTemporary && b.onGpu && c.isTemporary && !c.onGpu
    ensures queuedBytes == a.size + b.size
    ensures deleted == [c, a, b]
  {
    var allocator := new TemporaryAllocator();
    FreeThree(allocator, a, b, c);
    queuedBytes := allocator.waitDeleteMem;
    allocator.MoveToDeleteQueue();
    allocator.Release();
    deleted := allocator.deleted;
  }
}
