/** operators/detail/buffer.h: the bounded staging area, a FIFO of tensor
  * tuples with a byte counter. The condition-variable waits become
  * preconditions: a call that would wait is one the caller may not make. */
module StagingBuffer {
  import opened Wrappers

  /** A BufferElement, as the memory sizes of its tensors. */
  type Element = seq<nat>

  /** GetElementBytes: the combined memory size of a tuple. */
  function ElementBytes(e: Element): nat
  {
    if e == [] then 0 else ElementBytes(e[..|e| - 1]) + e[|e| - 1]
  }

  /** The combined size of the buffered elements, front first. */
  function TotalBytes(buf: seq<Element>): nat
  {
    if buf == [] then 0 else ElementBytes(buf[0]) + TotalBytes(buf[1..])
  }

  lemma {:induction false} TotalBytesAppend(buf: seq<Element>, e: Element)
    ensures TotalBytes(buf + [e]) == TotalBytes(buf) + ElementBytes(e)
    decreases |buf|
  {
    if buf == [] {
      assert [e][1..] == [];
    } else {
      assert (buf + [e])[1..] == buf[1..] + [e];
      TotalBytesAppend(buf[1..], e);
    }
  }

  /** A bounded buffer admits `bytes` more when neither its element count
    * nor its byte count would pass a positive limit (the wait predicate of
    * Put). */
  predicate Admits(capacity: nat, bytesLimit: nat, size: nat, currentBytes: int, bytes: nat)
  {
    (capacity > 0 ==> size < capacity) && (bytesLimit > 0 ==> bytes + currentBytes <= bytesLimit)
  }

  /** The size check of Put as written: it passes only for an element larger
    * than a positive byte limit. */
  predicate EnforceAsWritten(bytesLimit: nat, bytes: nat)
  {
    bytesLimit > 0 && bytes > bytesLimit
  }

  /** The size check Put's message describes: an element larger than a
    * positive byte limit is refused. */
  predicate Enforce(bytesLimit: nat, bytes: nat)
  {
    !(bytesLimit > 0 && bytes > bytesLimit)
  }

  /** Whenever the size check as written lets an element through, the buffer
    * is bounded and no state admits it: the wait never ends. */
  lemma AsWrittenPutNeverProceeds(capacity: nat, bytesLimit: nat, size: nat, currentBytes: nat, bytes: nat)
    requires EnforceAsWritten(bytesLimit, bytes)
    ensures capacity > 0 || bytesLimit > 0
    ensures !Admits(capacity, bytesLimit, size, currentBytes, bytes)
  {
  }

  /** With the intended check, an element that passes fits an empty buffer. */
  lemma PassingElementFitsEmptyBuffer(capacity: nat, bytesLimit: nat, bytes: nat)
    requires Enforce(bytesLimit, bytes)
    ensures Admits(capacity, bytesLimit, 0, 0, bytes)
  {
  }

  class Buffer {
    const capacity: nat
    const bytesLimit: nat
    var currentBytes: int
    var buf: seq<Element>

    /** current_bytes_ is the combined size of the buffered elements, and
      * neither limit is passed. */
    predicate Valid()
      reads this
    {
      currentBytes == TotalBytes(buf) &&
      (capacity > 0 ==> |buf| <= capacity) &&
      (bytesLimit > 0 ==> currentBytes <= bytesLimit)
    }

    constructor(capacity: nat, bytesLimit: nat)
      ensures Valid()
      ensures this.capacity == capacity && this.bytesLimit == bytesLimit
      ensures buf == [] && currentBytes == 0
    {
      this.capacity := capacity;
      this.bytesLimit := bytesLimit;
      currentBytes := 0;
      buf := [];
    }

    predicate IsBounded()
      reads this
    {
      capacity > 0 || bytesLimit > 0
    }

    predicate IsCapacityFull()
      reads this
    {
      |buf| >= capacity
    }

    predicate WouldExceedMemoryLimit(bytes: nat)
      reads this
    {
      bytes + currentBytes > bytesLimit
    }

    /** The wait predicate of Put, stated with the member predicates. */
    predicate CanInsert(bytes: nat)
      reads this
    {
      (bytesLimit > 0 ==> !WouldExceedMemoryLimit(bytes)) && (capacity > 0 ==> !IsCapacityFull())
    }

    /** Put with its size check as written: every call either fails the
      * check or, being bounded, waits for room it can never get. */
    method PutAsWritten(e: Element) returns (r: Outcome)
      requires Valid()
      requires EnforceAsWritten(bytesLimit, ElementBytes(e)) && IsBounded() ==> CanInsert(ElementBytes(e))
      modifies this
      ensures r.Fail? && buf == old(buf) && currentBytes == old(currentBytes)
    {
      var elementBytes := ElementBytes(e);
      if !EnforceAsWritten(bytesLimit, elementBytes) {
        return Fail("Attempted to insert tensors into Staging Area beyond its memory limit");
      }
      assert false;
    }

    /** Put: an element larger than the byte limit is refused; otherwise,
      * once there is room, it is appended at the back and counted. */
    method Put(e: Element) returns (r: Outcome)
      requires Valid()
      requires Enforce(bytesLimit, ElementBytes(e)) && IsBounded() ==> CanInsert(ElementBytes(e))
      modifies this
      ensures Valid()
      ensures r.Pass? <==> Enforce(bytesLimit, ElementBytes(e))
      ensures r.Pass? ==> buf == old(buf) + [e] && currentBytes == old(currentBytes) + ElementBytes(e)
      ensures r.Fail? ==> buf == old(buf) && currentBytes == old(currentBytes)
    {
      var elementBytes := ElementBytes(e);
      if !Enforce(bytesLimit, elementBytes) {
        return Fail("Attempted to insert tensors into Staging Area beyond its memory limit");
      }
      TotalBytesAppend(buf, e);
      currentBytes := currentBytes + elementBytes;
      buf := buf + [e];
      return Pass;
    }

    /** Get: once the buffer is not empty, the front element is taken out and
      * its size uncounted. */
    method Get() returns (e: Element)
      requires Valid() && |buf| > 0
      modifies this
      ensures Valid()
      ensures e == old(buf[0]) && buf == old(buf[1..])
      ensures currentBytes == old(currentBytes) - ElementBytes(e)
    {
      e := buf[0];
      buf := buf[1..];
      currentBytes := currentBytes - ElementBytes(e);
    }

    method Size() returns (n: nat)
      ensures n == |buf|
    {
      n := |buf|;
    }

    /** Clear: no element and no byte is left. */
    method Clear()
      requires Valid()
      modifies this
      ensures Valid()
      ensures buf == [] && currentBytes == 0
    {
      buf := [];
      currentBytes := 0;
    }
  }

  /** What comes out of a buffer comes out in the order it went in. */
  method FirstInFirstOut(a: Element, b: Element) returns (x: Element, y: Element)
    ensures x == a && y == b
  {
    var buffer := new Buffer(0, 0);
    var r := buffer.Put(a);
    r := buffer.Put(b);
    x := buffer.Get();
    y := buffer.Get();
  }

  /** The process-wide map from place to buffer that GetBuffer keeps. */
  class Registry {
    var buffering: map<int, Buffer?>

    constructor()
      ensures buffering == map[]
    {
      buffering := map[];
    }

    /** GetBuffer as written: a buffer is made only for a place that already
      * has an entry, replacing it; a new place gets a null entry. */
    method GetBufferAsWritten(place: int, capacity: nat, bytesLimit: nat) returns (b: Buffer?)
      modifies this
      ensures place in buffering && b == buffering[place]
      ensures place !in old(buffering) ==> b == null
      ensures place in old(buffering) ==> b != null && fresh(b) && b.buf == []
    {
      if place in buffering {
        var created := new Buffer(capacity, bytesLimit);
        buffering := buffering[place := created];
      } else {
        buffering := buffering[place := null];
      }
      b := buffering[place];
    }

    /** GetBuffer as intended: a buffer is made the first time a place is
      * asked for, and the same one is handed out afterwards. */
    method GetBuffer(place: int, capacity: nat, bytesLimit: nat) returns (b: Buffer)
      modifies this
      ensures place in buffering && b == buffering[place]
      ensures place in old(buffering) && old(buffering[place]) != null ==> b == old(buffering[place])
      ensures place !in old(buffering) || old(buffering[place]) == null ==> fresh(b) && b.Valid() && b.buf == []
    {
      if place in buffering && buffering[place] != null {
        b := buffering[place];
      } else {
        b := new Buffer(capacity, bytesLimit);
        buffering := buffering[place := b];
      }
    }
  }

  /** The first request for a place gets no buffer from GetBuffer as
    * written, and a buffer from the intended GetBuffer. */
  method FirstRequestGetsNoBuffer() returns (asWritten: Buffer?, intended: Buffer)
    ensures asWritten == null
    ensures intended.buf == []
  {
    var registry := new Registry();
    asWritten := registry.GetBufferAsWritten(0, 4, 0);
    var other := new Registry();
    intended := other.GetBuffer(0, 4, 0);
  }
}
