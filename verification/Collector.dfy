/** The per-thread event buffer and the bounded queue of batches behind it
    (dial9-tokio-telemetry/src/telemetry/buffer.rs and collector.rs). */
module Collector {
  import opened Wrappers
  import T = Telemetry

  const BUFFER_CAPACITY: nat := 1024

  /** `force_push`: the oldest element makes room when the queue is full. */
  function ForcePush<B>(capacity: nat, queue: seq<B>, b: B): (r: (seq<B>, Option<B>))
    requires 0 < capacity && |queue| <= capacity
    ensures |r.0| <= capacity && r.0 != [] && r.0[|r.0| - 1] == b
    ensures AsSeq(r.1) + r.0 == queue + [b]
    ensures r.1.Some? <==> |queue| == capacity
  {
    if |queue| == capacity then
      assert queue == [queue[0]] + queue[1..];
      (queue[1..] + [b], Some(queue[0]))
    else (queue + [b], None)
  }

  function AsSeq<B>(b: Option<B>): seq<B> {
    if b.Some? then [b.value] else []
  }

  /** Recording into a buffer: what stays in it, and the batch to send on, if it is full. */
  function RecordInto<E>(buffer: seq<E>, ev: E): (r: (seq<E>, seq<E>))
    ensures r.1 + r.0 == buffer + [ev]
    ensures r.1 == [] <==> |buffer| + 1 < BUFFER_CAPACITY
    ensures r.1 != [] ==> r.0 == []
    ensures |buffer| < BUFFER_CAPACITY ==> |r.0| < BUFFER_CAPACITY && |r.1| <= BUFFER_CAPACITY
  {
    if |buffer| + 1 >= BUFFER_CAPACITY then ([], buffer + [ev]) else (buffer + [ev], [])
  }

  class CentralCollector {
    const capacity: nat
    var queue: seq<seq<T.RawEvent>>
    var droppedBatches: nat

    ghost predicate Valid()
      reads this
    {
      0 < capacity && |queue| <= capacity
    }

    constructor (capacity: nat)
      requires 0 < capacity
      ensures Valid() && queue == [] && droppedBatches == 0 && this.capacity == capacity
    {
      this.capacity := capacity;
      queue, droppedBatches := [], 0;
    }

    /** Nothing is lost without being counted: what is pushed out is the oldest batch. */
    method AcceptFlush(batch: seq<T.RawEvent>)
      requires Valid()
      modifies this
      ensures Valid()
      ensures queue == ForcePush(capacity, old(queue), batch).0
      ensures droppedBatches == old(droppedBatches) + |AsSeq(ForcePush(capacity, old(queue), batch).1)|
    {
      if |queue| == capacity {
        queue := queue[1..] + [batch];
        droppedBatches := droppedBatches + 1;
      } else {
        queue := queue + [batch];
      }
    }

    method Next() returns (batch: Option<seq<T.RawEvent>>)
      requires Valid()
      modifies this`queue
      ensures Valid() && AsSeq(batch) + queue == old(queue)
      ensures batch.None? <==> old(queue) == []
    {
      if queue == [] {
        return None;
      }
      batch := Some(queue[0]);
      queue := queue[1..];
    }

    /** The number of batches dropped since the last call. */
    method TakeDroppedBatches() returns (n: nat)
      modifies this`droppedBatches
      ensures n == old(droppedBatches) && droppedBatches == 0
    {
      n := droppedBatches;
      droppedBatches := 0;
    }
  }

  class ThreadLocalBuffer {
    var events: seq<T.RawEvent>
    /** Set by the first event and kept. */
    var collector: CentralCollector?

    /** An event in the buffer has a collector to go to, so dropping the buffer loses nothing. */
    ghost predicate Valid()
      reads this
    {
      |events| < BUFFER_CAPACITY && (events != [] ==> collector != null)
    }

    constructor ()
      ensures Valid() && events == [] && collector == null
    {
      events, collector := [], null;
    }

    method SetCollector(c: CentralCollector)
      modifies this`collector
      ensures collector == if old(collector) == null then c else old(collector)
    {
      if collector == null {
        collector := c;
      }
    }

    method Flush() returns (batch: seq<T.RawEvent>)
      modifies this`events
      ensures batch == old(events) && events == []
    {
      batch := events;
      events := [];
    }

    /** `record_event`: a full buffer goes, as one batch, to the collector at hand; what is left
        when the thread exits goes to the first one. */
    method RecordEvent(event: T.RawEvent, c: CentralCollector)
      requires Valid() && c.Valid()
      modifies this, c
      ensures Valid() && c.Valid() && collector == if old(collector) == null then c else old(collector)
      ensures events == RecordInto(old(events), event).0
      ensures var batch := RecordInto(old(events), event).1;
              if batch == [] then c.queue == old(c.queue) && c.droppedBatches == old(c.droppedBatches)
              else && c.queue == ForcePush(c.capacity, old(c.queue), batch).0
                   && c.droppedBatches == old(c.droppedBatches) + |AsSeq(ForcePush(c.capacity, old(c.queue), batch).1)|
    {
      SetCollector(c);
      events := events + [event];
      if |events| >= BUFFER_CAPACITY {
        var batch := Flush();
        c.AcceptFlush(batch);
      }
    }

    /** `drain_to_collector`: nothing is sent for an empty buffer. */
    method DrainToCollector(c: CentralCollector)
      requires Valid() && c.Valid()
      modifies this`events, c
      ensures Valid() && c.Valid() && events == []
      ensures if old(events) == [] then c.queue == old(c.queue) && c.droppedBatches == old(c.droppedBatches)
              else && c.queue == ForcePush(c.capacity, old(c.queue), old(events)).0
                   && c.droppedBatches
                      == old(c.droppedBatches) + |AsSeq(ForcePush(c.capacity, old(c.queue), old(events)).1)|
    {
      var batch := Flush();
      if batch != [] {
        c.AcceptFlush(batch);
      }
    }

    /** `drop`: the thread exits. */
    method Drop()
      requires Valid() && (collector != null ==> collector.Valid())
      modifies this, collector
      ensures Valid() && events == []
      ensures old(events) != [] ==>
                && old(collector) != null && old(collector.Valid())
                && old(collector).queue
                   == ForcePush(old(collector).capacity, old(collector.queue), old(events)).0
    {
      if events != [] {
        var c := collector;
        collector := null;
        var batch := Flush();
        c.AcceptFlush(batch);
      }
    }
  }
}
