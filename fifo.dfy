/**
 * The single producer / single consumer FIFO, in its sequential
 * behaviour: a bounded queue of elements with a fixed capacity and the two
 * flags that keep the producer and the consumer from waiting. A call
 * that would wait for the other thread reports that it would block.
 */
module FIFOs {
  import opened Wrappers

  /** How a blocking push ends: the element went in, it was dropped, or the producer waits. */
  datatype PushOutcome = Inserted | Dropped | Blocked

  /** How a blocking wait ends: with a count, or with the consumer waiting. */
  datatype WaitOutcome = Available(count: nat) | WouldWait

  class FIFO<T> {
    /** The queued elements, oldest first. */
    var elements: seq<T>
    const cap: nat
    var unblockProducer: bool
    var unblockConsumer: bool

    ghost predicate Valid()
      reads this
    {
      |elements| <= cap
    }

    constructor (capacity: nat)
      ensures Valid() && elements == [] && cap == capacity
      ensures !unblockProducer && !unblockConsumer
    {
      elements := [];
      cap := capacity;
      unblockProducer := false;
      unblockConsumer := false;
    }

    /** Appends x unless the queue is full; reports whether it did. */
    method TryPush(x: T) returns (ok: bool)
      requires Valid()
      modifies this`elements
      ensures Valid()
      ensures ok <==> |old(elements)| < cap
      ensures elements == if ok then old(elements) + [x] else old(elements)
    {
      if |elements| < cap {
        elements := elements + [x];
        ok := true;
      } else {
        ok := false;
      }
    }

    /**
     * Appends x; on a full queue the producer waits for the consumer,
     * unless it is unblocked, in which case x is dropped.
     */
    method Push(x: T) returns (outcome: PushOutcome)
      requires Valid()
      modifies this`elements
      ensures Valid()
      ensures |old(elements)| < cap ==> outcome == Inserted && elements == old(elements) + [x]
      ensures |old(elements)| >= cap ==> elements == old(elements)
      ensures |old(elements)| >= cap ==> outcome == if unblockProducer then Dropped else Blocked
    {
      var ok := TryPush(x);
      if ok {
        outcome := Inserted;
      } else if unblockProducer {
        outcome := Dropped;
      } else {
        outcome := Blocked;
      }
    }

    /** The oldest element; the queue must not be empty. */
    function Front(): (x: T)
      reads this
      requires elements != []
      ensures x in elements && [x] + elements[1..] == elements
    {
      elements[0]
    }

    /** Removes the oldest element; an empty queue is left as it is. */
    method Pop()
      requires Valid()
      modifies this`elements
      ensures Valid()
      ensures old(elements) == [] ==> elements == []
      ensures old(elements) != [] ==> old(elements) == [old(Front())] + elements
    {
      if elements != [] {
        elements := elements[1..];
      }
    }

    /** The number of elements that can be pushed before the queue is full. */
    function WriteAvailable(): (n: nat)
      reads this
      requires Valid()
      ensures n + |elements| == cap
    {
      cap - |elements|
    }

    /** The number of elements that can be popped. */
    function ReadAvailable(): (n: nat)
      reads this
      requires Valid()
      ensures n + WriteAvailable() == cap
    {
      |elements|
    }

    /** The number of elements available; on an empty queue the consumer waits unless it is unblocked. */
    method WaitReadAvailable() returns (r: WaitOutcome)
      requires Valid()
      ensures elements != [] ==> r == Available(ReadAvailable())
      ensures elements == [] ==> r == if unblockConsumer then Available(0) else WouldWait
    {
      var popAvailable := |elements|;
      if popAvailable > 0 {
        r := Available(popAvailable);
      } else if unblockConsumer {
        r := Available(0);
      } else {
        r := WouldWait;
      }
    }

    /** The fixed capacity. */
    function Capacity(): (n: nat)
      reads this
      requires Valid()
      ensures n >= ReadAvailable()
    {
      cap
    }

    method UnblockProducer(unblock: bool)
      modifies this`unblockProducer
      ensures unblockProducer == unblock
    {
      unblockProducer := unblock;
    }

    method UnblockConsumer(unblock: bool)
      modifies this`unblockConsumer
      ensures unblockConsumer == unblock
    {
      unblockConsumer := unblock;
    }

    /** Empties the queue and turns both unblocking flags off. */
    method Clear()
      modifies this`elements, this`unblockProducer, this`unblockConsumer
      ensures Valid() && elements == [] && !unblockProducer && !unblockConsumer
    {
      unblockConsumer := false;
      unblockProducer := false;
      elements := [];
    }
  }

  /**
   * Pushing `capacity` elements into an empty FIFO never fails, and
   * popping them back returns them in push order.
   */
  method FillAndDrain<T>(f: FIFO<T>, xs: seq<T>) returns (out: seq<T>)
    requires f.Valid() && f.elements == [] && |xs| == f.cap
    modifies f`elements
    ensures f.Valid() && f.elements == [] && out == xs
  {
    var i := 0;
    while i < |xs|
      invariant 0 <= i <= |xs| && f.elements == xs[..i]
    {
      var ok := f.TryPush(xs[i]);
      assert ok;
      assert xs[..i + 1] == xs[..i] + [xs[i]];
      i := i + 1;
    }
    out := [];
    while f.elements != []
      invariant f.Valid() && out + f.elements == xs
      decreases |f.elements|
    {
      var x := f.Front();
      f.Pop();
      out := out + [x];
    }
  }
}
