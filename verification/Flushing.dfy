/** One flush cycle on its own: `flush_once` with nobody else pushing meanwhile
    (dial9-tokio-telemetry/src/telemetry/recorder/mod.rs). The clock is a function of how many
    events have been written. */
module Flushing {
  import opened Wire
  import opened Wrappers
  import opened Collector
  import opened Rotation
  import opened RotatingWriter
  import T = Telemetry

  function Concat(batches: seq<seq<T.RawEvent>>): seq<T.RawEvent> {
    if batches == [] then [] else batches[0] + Concat(batches[1..])
  }

  /** `write_raw_event` for each event in turn, the first being number `k`. */
  function Writes(events: seq<T.RawEvent>, clock: nat -> u64, k: nat): seq<WriterCall> {
    if events == [] then [] else [WriteOne(events[0], clock(k))] + Writes(events[1..], clock, k + 1)
  }

  lemma {:induction false} ConcatAppend(a: seq<seq<T.RawEvent>>, batch: seq<T.RawEvent>)
    ensures Concat([]) == [] && Concat(a + [batch]) == Concat(a) + batch
  {
    if a == [] {
      assert (a + [batch])[1..] == [] && batch + [] == batch;
    } else {
      assert (a + [batch])[1..] == a[1..] + [batch];
      ConcatAppend(a[1..], batch);
    }
  }

  /** Every event is written once, in order, and each with the time at its turn. */
  lemma {:induction false} WritesEach(events: seq<T.RawEvent>, clock: nat -> u64, k: nat)
    ensures |Writes(events, clock, k)| == |events|
    ensures forall i :: 0 <= i < |events| ==> Writes(events, clock, k)[i] == WriteOne(events[i], clock(k + i))
  {
    if events != [] {
      WritesEach(events[1..], clock, k + 1);
    }
  }

  /** Writing the rest is possible and ends where it has to. */
  ghost predicate Remaining(w: Writer, events: seq<T.RawEvent>, clock: nat -> u64, k: nat, end: Writer) {
    w.Valid() && RunWritable(w, Writes(events, clock, k)) && DoAll(w, Writes(events, clock, k)) == end
  }

  lemma RemainingStep(w: Writer, ev: T.RawEvent, rest: seq<T.RawEvent>, clock: nat -> u64, k: nat, end: Writer)
    requires Remaining(w, [ev] + rest, clock, k, end)
    ensures CallWritable(w, WriteOne(ev, clock(k)))
    ensures Remaining(Do(w, WriteOne(ev, clock(k))), rest, clock, k + 1, end)
  {
    hide Do, CallWritable;
    DoValid(w, WriteOne(ev, clock(k)));
    assert ([ev] + rest)[1..] == rest;
    assert Writes([ev] + rest, clock, k)[1..] == Writes(rest, clock, k + 1);
  }

  lemma RemainingNone(w: Writer, clock: nat -> u64, k: nat, end: Writer)
    requires Remaining(w, [], clock, k, end)
    ensures w == end
  {
  }

  /** The inner loop: the events of one batch. `behind` is still queued. */
  method WriteEvents(w: RotatingWriter, events: seq<T.RawEvent>, clock: nat -> u64, start: nat,
                     ghost behind: seq<T.RawEvent>, ghost end: Writer)
    returns (written: nat)
    requires w.Valid() && Remaining(w.model, events + behind, clock, start, end)
    modifies w, w.Rep()
    ensures w.Valid() && fresh(w.Rep() - old(w.Rep()))
    ensures written == start + |events| && Remaining(w.model, behind, clock, written, end)
  {
    hide Do, CallWritable, RotatingWriter.Valid, Remaining;
    written := start;
    assert events[0..] == events;
    for i := 0 to |events|
      invariant w.Valid() && fresh(w.Rep() - old(w.Rep())) && written == start + i
      invariant Remaining(w.model, events[i..] + behind, clock, written, end)
    {
      assert events[i..] + behind == [events[i]] + (events[i + 1..] + behind);
      RemainingStep(w.model, events[i], events[i + 1..] + behind, clock, written, end);
      w.WriteEvent(events[i], clock(written));
      written := written + 1;
    }
    assert [] + behind == behind;
  }

  /** The outer loop: batch after batch until the queue is empty. */
  method DrainQueue(c: CentralCollector, w: RotatingWriter, clock: nat -> u64, ghost end: Writer) returns (written: nat)
    requires c.Valid() && w.Valid() && c !in w.Rep()
    requires Remaining(w.model, Concat(c.queue), clock, 0, end)
    modifies c`queue, w, w.Rep()
    ensures c.queue == [] && w.Valid() && fresh(w.Rep() - old(w.Rep()))
    ensures written == |Concat(old(c.queue))| && w.model == end
  {
    hide RotatingWriter.Valid, Remaining, Writes, RunWritable, CallWritable, Do, DoAll, ForcePush;
    written := 0;
    ghost var total := |Concat(c.queue)|;
    var batch := c.Next();
    while batch.Some?
      invariant w.Valid() && fresh(w.Rep() - old(w.Rep())) && c !in w.Rep()
      invariant Remaining(w.model, Concat(AsSeq(batch) + c.queue), clock, written, end)
      invariant written + |Concat(AsSeq(batch) + c.queue)| == total && c.Valid()
      invariant batch.None? ==> c.queue == []
      decreases |AsSeq(batch)| + |c.queue|
    {
      assert (AsSeq(batch) + c.queue)[1..] == c.queue;
      written := WriteEvents(w, batch.value, clock, written, Concat(c.queue), end);
      batch := c.Next();
    }
    RemainingNone(w.model, clock, written, end);
  }

  /** The thread's own buffer goes to the collector first; then every batch is written, event by
      event. Returns the number of batches dropped since the last cycle and the number of events
      written. */
  method FlushOnce(own: ThreadLocalBuffer, c: CentralCollector, w: RotatingWriter, clock: nat -> u64)
    returns (dropped: nat, written: nat)
    requires own.Valid() && c.Valid() && w.Valid() && own !in w.Rep() && c !in w.Rep()
    requires var queue := if own.events == [] then c.queue else ForcePush(c.capacity, c.queue, own.events).0;
             w.model.Valid() && RunWritable(w.model, Writes(Concat(queue), clock, 0))
    modifies own`events, c, w, w.Rep()
    ensures own.events == [] && c.queue == [] && w.Valid() && fresh(w.Rep() - old(w.Rep()))
    ensures var queue := if old(own.events) == [] then old(c.queue)
                         else ForcePush(c.capacity, old(c.queue), old(own.events)).0;
            && written == |Concat(queue)|
            && w.model == DoAll(old(w.model), Writes(Concat(queue), clock, 0))
    ensures c.droppedBatches == 0
    ensures dropped == old(c.droppedBatches)
                       + if old(own.events) == [] then 0
                         else |AsSeq(ForcePush(c.capacity, old(c.queue), old(own.events)).1)|
  {
    hide DoAll, RunWritable, RotatingWriter.Valid, ForcePush, Remaining;
    own.DrainToCollector(c);
    dropped := c.TakeDroppedBatches();
    ghost var all := Concat(c.queue);
    ghost var end := DoAll(w.model, Writes(all, clock, 0));
    RemainingAll(w.model, all, clock, end);
    written := DrainQueue(c, w, clock, end);
  }

  lemma RemainingAll(w: Writer, all: seq<T.RawEvent>, clock: nat -> u64, end: Writer)
    requires w.Valid() && RunWritable(w, Writes(all, clock, 0)) && end == DoAll(w, Writes(all, clock, 0))
    ensures Remaining(w, all, clock, 0, end)
  {
  }
}
