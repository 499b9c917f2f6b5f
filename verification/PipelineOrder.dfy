/** What holds in every state of the pipeline: each thread's events are in order, dropped batches
    are counted, and what is popped is written. */
module PipelineOrder {
  import opened Wrappers
  import opened Collector
  import opened Pipeline
  import Rotation
  import T = Telemetry

  // ----- sizes -----

  predicate BatchSized(batch: seq<T.RawEvent>) {
    1 <= |batch| <= BUFFER_CAPACITY
  }

  predicate ThreadSized(thread: Thread) {
    && |thread.buffer| < BUFFER_CAPACITY
    && match thread.pc
       case Pushing(batch, next) => BatchSized(batch) && next.Plain()
       case Counting(next) => next.Plain()
       case Writing(rest, _) => rest != []
       case _ => true
  }

  ghost predicate ThreadsSized(s: Pipe) {
    forall t :: t in s.threads ==> ThreadSized(s.threads[t])
  }

  lemma DrainSized(s: Pipe, t: Tid, next: Pc)
    requires ThreadsSized(s) && t in s.threads && next.Plain()
    ensures ThreadsSized(Drain(s, t, next))
  {
  }

  lemma RecordSized(s: Pipe, t: Tid, ev: T.RawEvent, next: Pc)
    requires ThreadsSized(s) && t in s.threads && next.Plain()
    ensures ThreadsSized(RecordStep(s, t, ev, next))
  {
    hide RecordInto;
  }

  // ----- full and short batches -----

  /** The step empties a buffer that need not be full: a thread exits, a stop begins, or the flush
      thread drains its own buffer. */
  predicate Drains(step: Step, t: Tid) {
    match step
    case ByThread(u, what) => u == t && what.Exit?
    case ByStopper(u, how) => u == t && how.StopBegin?
    case ByFlusher(does) => t == FLUSHER && does.DrainOwn?
  }

  predicate Records(step: Step, t: Tid) {
    match step
    case ByThread(u, what) => u == t && what.Record?
    case ByStopper(_, _) => false
    case ByFlusher(does) => t == FLUSHER && does.Sample? && does.depth.Some?
  }

  /** A batch comes about when an event fills the buffer, and is then 1024 events long, or when the
      buffer is drained. An event that does not fill the buffer stays in it. */
  lemma BatchesFull(s: Pipe, step: Step, t: Tid)
    requires Bounded(s) && Enabled(s, step) && ThreadsSized(s)
    requires t in s.threads && t in Take(s, step).threads && !PcOf(s, t).Pushing?
    ensures var pc, buffer := PcOf(Take(s, step), t), s.threads[t].buffer;
            && (pc.Pushing? ==> Drains(step, t) || (Records(step, t) && |pc.batch| == BUFFER_CAPACITY))
            && (Records(step, t) && s.enabled ==>
                  (pc.Pushing? <==> |buffer| + 1 == BUFFER_CAPACITY)
                  && (!pc.Pushing? ==> |Take(s, step).threads[t].buffer| == |buffer| + 1))
  {
    hide PopStep, OfferStep, TakeStop, TakeFlush, Drain, PushStep, RecordStep;
    match step
    case ByThread(u, what) => ThreadBatch(s, u, what, t);
    case ByStopper(u, how) => StopBatch(s, u, how, t);
    case ByFlusher(does) => FlushBatch(s, does, t);
  }

  lemma ThreadBatch(s: Pipe, u: Tid, what: ThreadStep, t: Tid)
    requires Bounded(s) && ThreadEnabled(s, u, what) && ThreadsSized(s)
    requires t in s.threads && !PcOf(s, t).Pushing? && t in TakeThread(s, u, what).threads
    ensures var s1 := TakeThread(s, u, what);
            && (PcOf(s1, t).Pushing? ==>
                  u == t && (what.Exit? || (what.Record? && |PcOf(s1, t).batch| == BUFFER_CAPACITY)))
            && (u == t && what.Record? && s.enabled ==>
                  (PcOf(s1, t).Pushing? <==> |s.threads[t].buffer| + 1 == BUFFER_CAPACITY)
                  && (!PcOf(s1, t).Pushing? ==> |s1.threads[t].buffer| == |s.threads[t].buffer| + 1))
  {
    hide RecordStep, PushStep;
    match what
    case Record(ev) => RecordBatch(s, u, ev, Running);
    case Push => PushMoves(s, u);
    case _ =>
  }

  /** Sending a batch moves this thread on and no other. */
  lemma PushMoves(s: Pipe, t: Tid)
    requires Bounded(s) && PcOf(s, t).Pushing? && PcOf(s, t).next.Plain()
    ensures var s1 := PushStep(s, t);
            && t in s1.threads && s1.threads == s.threads[t := s1.threads[t]]
            && s1.threads[t].pc.Base() == PcOf(s, t).Base() && s1.threads[t].buffer == s.threads[t].buffer
            && s1.commandSent == s.commandSent && s1.past.stop == s.past.stop && s1.past.recorded == s.past.recorded
  {
    hide ForcePush;
  }

  lemma StopBatch(s: Pipe, u: Tid, how: StopStep, t: Tid)
    requires StopEnabled(s, u, how) && t in s.threads && !PcOf(s, t).Pushing?
    ensures PcOf(TakeStop(s, u, how), t).Pushing? ==> u == t && how.StopBegin?
  {
  }

  lemma FlushBatch(s: Pipe, does: FlushStep, t: Tid)
    requires FlushEnabled(PcOf(s, FLUSHER), does) && ThreadsSized(s) && t in s.threads && !PcOf(s, t).Pushing?
    ensures var s1 := TakeFlush(s, does);
            && (PcOf(s1, t).Pushing? ==>
                  t == FLUSHER
                  && (does.DrainOwn? || (does.Sample? && does.depth.Some? && |PcOf(s1, t).batch| == BUFFER_CAPACITY)))
            && (t == FLUSHER && does.Sample? && does.depth.Some? && s.enabled ==>
                  (PcOf(s1, t).Pushing? <==> |s.threads[t].buffer| + 1 == BUFFER_CAPACITY)
                  && (!PcOf(s1, t).Pushing? ==> |s1.threads[t].buffer| == |s.threads[t].buffer| + 1))
  {
    hide RecordStep;
    match does
    case Sample(depth) =>
      if depth.Some? {
        RecordBatch(s, FLUSHER, depth.value, Profiling(PcOf(s, FLUSHER).exit));
      }
    case _ =>
  }

  lemma RecordBatch(s: Pipe, t: Tid, ev: T.RawEvent, next: Pc)
    requires t in s.threads && next.Plain() && ThreadsSized(s)
    ensures var s1 := RecordStep(s, t, ev, next);
            && s1.threads == s.threads[t := s1.threads[t]]
            && (PcOf(s1, t).Pushing? ==> s.enabled && |PcOf(s1, t).batch| == BUFFER_CAPACITY)
            && (s.enabled ==>
                  (PcOf(s1, t).Pushing? <==> |s.threads[t].buffer| + 1 == BUFFER_CAPACITY)
                  && (!PcOf(s1, t).Pushing? ==> |s1.threads[t].buffer| == |s.threads[t].buffer| + 1))
  {
    hide RecordInto;
  }

  // ----- every thread's events, in order -----

  function EventsOf(batches: seq<Batch>, t: Tid): seq<T.RawEvent> {
    if batches == [] then []
    else (if batches[0].owner == t then batches[0].events else []) + EventsOf(batches[1..], t)
  }

  function LeftBatches(left: seq<Left>): (batches: seq<Batch>)
    ensures |batches| == |left|
  {
    seq(|left|, i requires 0 <= i < |left| => left[i].batch)
  }

  /** All batches ever pushed, in the order they were. */
  function Pushed(s: Pipe): seq<Batch> {
    LeftBatches(s.past.left) + s.queue
  }

  function InHand(pc: Pc): seq<T.RawEvent> {
    if pc.Pushing? then pc.batch else []
  }

  function Unsent(s: Pipe, t: Tid): seq<T.RawEvent> {
    if t in s.threads then InHand(s.threads[t].pc) + s.threads[t].buffer else []
  }

  /** What a thread recorded is what its batches hold, then the batch it is about to push, then
      its buffer. */
  ghost predicate Ordered(s: Pipe) {
    forall t :: OrderedFor(s, t)
  }

  ghost predicate OrderedFor(s: Pipe, t: Tid) {
    RecordedBy(s, t) == EventsOf(Pushed(s), t) + Unsent(s, t)
  }

  ghost predicate BatchesSized(s: Pipe) {
    forall b :: b in Pushed(s) ==> BatchSized(b.events)
  }

  lemma TakeThreadsSized(s: Pipe, step: Step)
    requires Bounded(s) && Enabled(s, step) && ThreadsSized(s)
    ensures ThreadsSized(Take(s, step))
  {
    hide Drain, RecordStep, ThreadsSized, At;
    match step
    case ByStopper(t, how) =>
      StopSized(s, t, how);
    case ByThread(t, what) =>
      ThreadStepSized(s, t, what);
    case ByFlusher(does) =>
      FlushSized(s, does);
  }

  lemma ThreadStepSized(s: Pipe, t: Tid, what: ThreadStep)
    requires Bounded(s) && ThreadEnabled(s, t, what) && ThreadsSized(s)
    ensures ThreadsSized(TakeThread(s, t, what))
  {
    hide Drain, RecordStep;
    match what
    case Record(ev) => RecordSized(s, t, ev, Running);
    case Exit => DrainSized(s, t, Pc.Gone);
    case _ =>
  }

  lemma StopSized(s: Pipe, t: Tid, how: StopStep)
    requires StopEnabled(s, t, how) && ThreadsSized(s)
    ensures ThreadsSized(TakeStop(s, t, how))
  {
    hide Drain;
    if how.StopBegin? {
      DrainSized(s.(past := s.past.(stop := Stop(t, PushCount(s), 0))), t, StopSend);
    }
  }

  lemma FlushSized(s: Pipe, does: FlushStep)
    requires FlushEnabled(PcOf(s, FLUSHER), does) && ThreadsSized(s)
    ensures ThreadsSized(TakeFlush(s, does))
  {
    hide Drain, RecordStep;
    match does
    case Sample(depth) => if depth.Some? { RecordSized(s, FLUSHER, depth.value, Profiling(PcOf(s, FLUSHER).exit)); }
    case DrainOwn => DrainSized(s, FLUSHER, TakingDrops(PcOf(s, FLUSHER).exit));
    case _ =>
  }

  // ----- batches enter at one end and leave at the other -----

  /** Only a push changes the list of pushed batches, and it adds one at the end. */
  function NewBatch(s: Pipe, step: Step): seq<Batch> {
    if step.ByThread? && step.what.Push? && PcOf(s, step.t).Pushing? then [Batch(step.t, PcOf(s, step.t).batch)] else []
  }

  lemma TakePushed(s: Pipe, step: Step)
    requires Bounded(s) && Enabled(s, step)
    ensures Pushed(Take(s, step)) == Pushed(s) + NewBatch(s, step)
  {
    hide RecordInto, ForcePush;
    assert Pushed(s) + [] == Pushed(s);
    match step
    case ByThread(t, what) =>
      if what.Push? {
        PushPushed(s, t);
      }
    case ByStopper(_, _) =>
    case ByFlusher(does) =>
      if does.Pop? && s.queue != [] {
        PopPushed(s);
      }
  }

  lemma LeftAppend(left: seq<Left>, l: Left)
    ensures LeftBatches(left + [l]) == LeftBatches(left) + [l.batch]
  {
  }

  lemma PushPushed(s: Pipe, t: Tid)
    requires Bounded(s) && PcOf(s, t).Pushing?
    ensures Pushed(PushStep(s, t)) == Pushed(s) + [Batch(t, PcOf(s, t).batch)]
  {
    hide ForcePush;
    var b := Batch(t, PcOf(s, t).batch);
    var (queue, evicted) := ForcePush(s.capacity, s.queue, b);
    assert LeftBatches(s.past.left) + (AsSeq(evicted) + queue) == Pushed(s) + [b];
    if evicted.Some? {
      LeftAppend(s.past.left, Left(evicted.value, true));
    } else {
      assert s.past.left + [] == s.past.left;
    }
  }

  lemma PopPushed(s: Pipe)
    requires PcOf(s, FLUSHER).Popping? && s.queue != []
    ensures Pushed(PopStep(s)) == Pushed(s)
  {
    LeftAppend(s.past.left, Left(s.queue[0], false));
    assert LeftBatches(s.past.left) + ([s.queue[0]] + s.queue[1..]) == Pushed(s);
  }

  lemma {:induction false} EventsOfAppend(a: seq<Batch>, b: seq<Batch>, t: Tid)
    ensures EventsOf(a + b, t) == EventsOf(a, t) + EventsOf(b, t)
  {
    if a == [] {
      assert a + b == b;
    } else {
      assert (a + b)[1..] == a[1..] + b;
      EventsOfAppend(a[1..], b, t);
    }
  }

  // ----- what a step does to one thread's events -----

  /** The event a step records for this thread, if any. */
  function NewEvent(s: Pipe, step: Step, t: Tid): seq<T.RawEvent> {
    if !s.enabled then []
    else if step.ByThread? && step.t == t && step.what.Record? then [step.what.event]
    else if step.ByFlusher? && step.does.Sample? && t == FLUSHER then AsSeq(step.does.depth)
    else []
  }

  /** Nothing happens to the thread's events. */
  ghost predicate Untouched(s: Pipe, s1: Pipe, t: Tid) {
    RecordedBy(s1, t) == RecordedBy(s, t) && Unsent(s1, t) == Unsent(s, t)
  }

  ghost predicate Grew(s: Pipe, s1: Pipe, t: Tid, x: seq<T.RawEvent>) {
    RecordedBy(s1, t) == RecordedBy(s, t) + x && Unsent(s1, t) == Unsent(s, t) + x
  }

  lemma RecordUnsent(s: Pipe, u: Tid, ev: T.RawEvent, next: Pc, t: Tid)
    requires u in s.threads && s.threads[u].pc.Plain() && next.Plain()
    ensures Grew(s, RecordStep(s, u, ev, next), t, if s.enabled && u == t then [ev] else [])
  {
    hide RecordInto;
    if s.enabled && u == t {
      var (kept, batch) := RecordInto(s.threads[u].buffer, ev);
      assert InHand(s.threads[u].pc) + s.threads[u].buffer == s.threads[u].buffer;
      assert Unsent(RecordStep(s, u, ev, next), t) == batch + kept;
    } else {
      assert Unsent(s, t) + [] == Unsent(s, t) && RecordedBy(s, t) + [] == RecordedBy(s, t);
    }
  }

  lemma DrainUnsent(s: Pipe, u: Tid, next: Pc, t: Tid)
    requires u in s.threads && s.threads[u].pc.Plain() && next.Plain()
    ensures Untouched(s, Drain(s, u, next), t)
  {
    assert s.threads[u].buffer + [] == s.threads[u].buffer;
  }

  lemma MoveUntouched(s: Pipe, s1: Pipe, u: Tid, pc: Pc, t: Tid)
    requires u in s.threads && InHand(s.threads[u].pc) == [] && InHand(pc) == []
    requires s1.threads == s.threads[u := s.threads[u].(pc := pc)] && s1.past.recorded == s.past.recorded
    ensures Untouched(s, s1, t)
  {
  }

  lemma PushUnsent(s: Pipe, u: Tid, t: Tid)
    requires Bounded(s) && PcOf(s, u).Pushing? && PcOf(s, u).next.Plain()
    ensures u == t ==>
              && RecordedBy(PushStep(s, u), t) == RecordedBy(s, t)
              && Unsent(s, t) == PcOf(s, t).batch + Unsent(PushStep(s, u), t)
    ensures u != t ==> Untouched(s, PushStep(s, u), t)
  {
    hide ForcePush;
    assert [] + s.threads[u].buffer == s.threads[u].buffer;
  }

  lemma ThreadUnsent(s: Pipe, u: Tid, what: ThreadStep, t: Tid)
    requires Bounded(s) && ThreadEnabled(s, u, what) && ThreadsSized(s)
    ensures what.Push? && u == t ==>
              && RecordedBy(TakeThread(s, u, what), t) == RecordedBy(s, t)
              && Unsent(s, t) == PcOf(s, t).batch + Unsent(TakeThread(s, u, what), t)
    ensures what.Record? ==> Grew(s, TakeThread(s, u, what), t, NewEvent(s, ByThread(u, what), t))
    ensures !(what.Push? && u == t) && !what.Record? ==> Untouched(s, TakeThread(s, u, what), t)
  {
    hide RecordStep, Drain, PushStep;
    match what
    case Record(ev) => RecordUnsent(s, u, ev, Running, t);
    case Exit => DrainUnsent(s, u, Pc.Gone, t);
    case Push => PushUnsent(s, u, t);
    case Count => MoveUntouched(s, TakeThread(s, u, what), u, PcOf(s, u).next, t);
    case _ =>
  }

  lemma StopUnsent(s: Pipe, u: Tid, how: StopStep, t: Tid)
    requires StopEnabled(s, u, how)
    ensures Untouched(s, TakeStop(s, u, how), t)
  {
    hide Drain;
    if how.StopBegin? {
      DrainUnsent(s.(past := s.past.(stop := Stop(u, PushCount(s), 0))), u, StopSend, t);
    }
  }

  lemma FlushUnsent(s: Pipe, does: FlushStep, t: Tid)
    requires FlushEnabled(PcOf(s, FLUSHER), does)
    ensures does.Sample? ==> Grew(s, TakeFlush(s, does), t, NewEvent(s, ByFlusher(does), t))
    ensures !does.Sample? ==> Untouched(s, TakeFlush(s, does), t)
  {
    hide RecordStep, Drain;
    match does
    case Sample(depth) =>
      assert Unsent(s, t) + [] == Unsent(s, t) && RecordedBy(s, t) + [] == RecordedBy(s, t);
      if depth.Some? {
        RecordUnsent(s, FLUSHER, depth.value, Profiling(PcOf(s, FLUSHER).exit), t);
      }
    case DrainOwn => DrainUnsent(s, FLUSHER, TakingDrops(PcOf(s, FLUSHER).exit), t);
    case _ =>
      var s1 := TakeFlush(s, does);
      assert s1.past.recorded == s.past.recorded;
      MoveUntouched(s, s1, FLUSHER, PcOf(s1, FLUSHER), t);
  }

  /** Every event offered while recording is on is recorded, and nothing else is. */
  lemma TakeRecords(s: Pipe, step: Step, t: Tid)
    requires Bounded(s) && Enabled(s, step) && ThreadsSized(s)
    ensures RecordedBy(Take(s, step), t)
            == RecordedBy(s, t)
               + match step
                 case ByThread(u, what) => if what.Record? && s.enabled && u == t then [what.event] else []
                 case ByStopper(_, _) => []
                 case ByFlusher(does) =>
                   if does.Sample? && does.depth.Some? && s.enabled && t == FLUSHER then [does.depth.value] else []
  {
    hide TakeThread, TakeStop, TakeFlush, Unsent, RecordedBy, StopEnabled, FlushEnabled;
    assert RecordedBy(s, t) + [] == RecordedBy(s, t);
    match step
    case ByThread(u, what) => ThreadUnsent(s, u, what, t);
    case ByStopper(u, how) => StopUnsent(s, u, how, t);
    case ByFlusher(does) => FlushUnsent(s, does, t);
  }

  lemma TakeOrdered(s: Pipe, step: Step)
    requires Bounded(s) && Enabled(s, step) && ThreadsSized(s) && Ordered(s)
    ensures Ordered(Take(s, step))
  {
    hide Take, OrderedFor, Bounded, ThreadsSized, Enabled;
    forall t
      ensures OrderedFor(Take(s, step), t)
    {
      TakeOrderedFor(s, step, t);
    }
  }

  lemma TakeOrderedFor(s: Pipe, step: Step, t: Tid)
    requires Bounded(s) && Enabled(s, step) && ThreadsSized(s) && OrderedFor(s, t)
    ensures OrderedFor(Take(s, step), t)
  {
    hide ThreadsSized, TakeThread, TakeStop, TakeFlush, Unsent, RecordedBy, Pushed, StopEnabled, FlushEnabled;
    var s1 := Take(s, step);
    PushedEvents(s, step, t);
    hide EventsOf;
    assert EventsOf(Pushed(s), t) + [] == EventsOf(Pushed(s), t);
    var x := NewEvent(s, step, t);
    assert (EventsOf(Pushed(s), t) + Unsent(s, t)) + x == EventsOf(Pushed(s), t) + (Unsent(s, t) + x);
    match step
    case ByThread(u, what) =>
      ThreadUnsent(s, u, what, t);
      if what.Push? && u == t {
        assert EventsOf(Pushed(s), t) + (PcOf(s, t).batch + Unsent(s1, t))
               == (EventsOf(Pushed(s), t) + PcOf(s, t).batch) + Unsent(s1, t);
      }
    case ByStopper(u, how) =>
      StopUnsent(s, u, how, t);
    case ByFlusher(does) =>
      FlushUnsent(s, does, t);
  }

  lemma PushedEvents(s: Pipe, step: Step, t: Tid)
    requires Bounded(s) && Enabled(s, step)
    ensures EventsOf(Pushed(Take(s, step)), t)
            == EventsOf(Pushed(s), t)
               + if step.ByThread? && step.what.Push? && step.t == t then PcOf(s, t).batch else []
  {
    hide Take, Pushed;
    TakePushed(s, step);
    var added := NewBatch(s, step);
    EventsOfAppend(Pushed(s), added, t);
    assert added != [] ==> added[1..] == [];
  }

  // ----- dropped batches are counted -----

  function Evictions(left: seq<Left>): nat {
    if left == [] then 0 else Evictions(left[..|left| - 1]) + if left[|left| - 1].evicted then 1 else 0
  }

  /** The threads that have pushed a batch out and not counted it yet. */
  function Counters(threads: map<Tid, Thread>): set<Tid> {
    set t | t in threads && threads[t].pc.Counting?
  }

  ghost predicate Counted(s: Pipe) {
    s.past.taken + s.drops + |Counters(s.threads)| == Evictions(s.past.left)
  }

  lemma CountersMove(threads: map<Tid, Thread>, u: Tid, thread: Thread)
    ensures Counters(threads[u := thread])
            == if thread.pc.Counting? then Counters(threads) + {u} else Counters(threads) - {u}
    ensures u in Counters(threads) <==> u in threads && threads[u].pc.Counting?
  {
  }

  lemma EvictionsAppend(left: seq<Left>, l: Left)
    ensures Evictions(left + [l]) == Evictions(left) + if l.evicted then 1 else 0
  {
    assert (left + [l])[..|left|] == left;
  }

  /** A move of a thread that is not counting before or after. */
  lemma MoveCounted(s: Pipe, s1: Pipe, u: Tid)
    requires Counted(s) && u in s1.threads && s1.threads == s.threads[u := s1.threads[u]]
    requires !s1.threads[u].pc.Counting? && !PcOf(s, u).Counting?
    requires s1.past.taken + s1.drops == s.past.taken + s.drops && Evictions(s1.past.left) == Evictions(s.past.left)
    ensures Counted(s1)
  {
    hide Counters, Evictions;
    CountersMove(s.threads, u, s1.threads[u]);
  }

  lemma PushCounted(s: Pipe, t: Tid)
    requires Bounded(s) && Counted(s) && PcOf(s, t).Pushing? && PcOf(s, t).next.Plain()
    ensures Counted(PushStep(s, t))
  {
    hide Counters, ForcePush, Evictions;
    var s1 := PushStep(s, t);
    CountersMove(s.threads, t, s1.threads[t]);
    var (queue, evicted) := ForcePush(s.capacity, s.queue, Batch(t, PcOf(s, t).batch));
    if evicted.Some? {
      EvictionsAppend(s.past.left, Left(evicted.value, true));
    } else {
      assert s.past.left + [] == s.past.left;
    }
  }

  lemma ThreadCounted(s: Pipe, t: Tid, what: ThreadStep)
    requires Bounded(s) && ThreadEnabled(s, t, what) && ThreadsSized(s) && Counted(s)
    ensures Counted(TakeThread(s, t, what))
  {
    hide Counters, Evictions, PushStep, Counted, RecordInto;
    match what
    case Push => PushCounted(s, t);
    case Enable(_) => EnableCounted(s, what.on);
    case Count => CountCounted(s, t);
    case _ => MoveCounted(s, TakeThread(s, t, what), t);
  }

  lemma EnableCounted(s: Pipe, on: bool)
    requires Counted(s)
    ensures Counted(s.(enabled := on))
  {
  }

  lemma CountCounted(s: Pipe, t: Tid)
    requires Counted(s) && PcOf(s, t).Counting? && PcOf(s, t).next.Plain()
    ensures Counted(At(s.(drops := s.drops + 1), t, PcOf(s, t).next))
  {
    hide Counters, Evictions;
    CountersMove(s.threads, t, s.threads[t].(pc := PcOf(s, t).next));
  }

  lemma StopCounted(s: Pipe, t: Tid, how: StopStep)
    requires StopEnabled(s, t, how) && Counted(s)
    ensures Counted(TakeStop(s, t, how))
  {
    hide Counters, Evictions, Counted;
    if how.Ack? {
      MoveCounted(s, At(s, t, StopJoin), t);
      MoveCounted(At(s, t, StopJoin), TakeStop(s, t, how), FLUSHER);
    } else {
      MoveCounted(s, TakeStop(s, t, how), t);
    }
  }

  lemma FlushCounted(s: Pipe, does: FlushStep)
    requires FlushEnabled(PcOf(s, FLUSHER), does) && Counted(s)
    ensures Counted(TakeFlush(s, does))
  {
    hide Counters, Evictions, Counted, RecordInto;
    if does.Pop? && s.queue != [] {
      EvictionsAppend(s.past.left, Left(s.queue[0], false));
    }
    MoveCounted(s, TakeFlush(s, does), FLUSHER);
  }

  lemma TakeCounted(s: Pipe, step: Step)
    requires Bounded(s) && Enabled(s, step) && ThreadsSized(s) && Counted(s)
    ensures Counted(Take(s, step))
  {
    hide Counted, TakeThread, TakeStop, TakeFlush;
    match step
    case ByThread(t, what) => ThreadCounted(s, t, what);
    case ByStopper(t, how) => StopCounted(s, t, how);
    case ByFlusher(does) => FlushCounted(s, does);
  }

  // ----- what is popped is written -----

  function Popped(left: seq<Left>): seq<T.RawEvent> {
    if left == [] then []
    else Popped(left[..|left| - 1]) + if left[|left| - 1].evicted then [] else left[|left| - 1].batch.events
  }

  function FromQueue(offers: seq<Offer>): seq<T.RawEvent> {
    if offers == [] then []
    else FromQueue(offers[..|offers| - 1])
         + if offers[|offers| - 1].fromQueue then [offers[|offers| - 1].event] else []
  }

  function Unwritten(s: Pipe): seq<T.RawEvent> {
    if PcOf(s, FLUSHER).Writing? then PcOf(s, FLUSHER).rest else []
  }

  /** The batches popped, event by event, are what was offered to the writer from the queue and
      then the rest of the batch in hand. */
  ghost predicate PoppedWritten(s: Pipe) {
    FromQueue(s.past.offers) + Unwritten(s) == Popped(s.past.left)
  }

  lemma PoppedAppend(left: seq<Left>, l: Left)
    ensures Popped(left + [l]) == Popped(left) + if l.evicted then [] else l.batch.events
  {
    assert (left + [l])[..|left|] == left;
  }

  lemma FromQueueAppend(offers: seq<Offer>, o: Offer)
    ensures FromQueue(offers + [o]) == FromQueue(offers) + if o.fromQueue then [o.event] else []
  {
    assert (offers + [o])[..|offers|] == offers;
  }

  lemma ThreadWritten(s: Pipe, t: Tid, what: ThreadStep)
    requires Bounded(s) && ThreadEnabled(s, t, what) && ThreadsSized(s) && PoppedWritten(s)
    ensures PoppedWritten(TakeThread(s, t, what))
  {
    hide Popped, FromQueue, ForcePush, RecordInto;
    if what.Push? {
      var (queue, evicted) := ForcePush(s.capacity, s.queue, Batch(t, PcOf(s, t).batch));
      if evicted.Some? {
        PoppedAppend(s.past.left, Left(evicted.value, true));
      } else {
        assert s.past.left + [] == s.past.left;
      }
    }
  }

  lemma StopWritten(s: Pipe, t: Tid, how: StopStep)
    requires StopEnabled(s, t, how) && PoppedWritten(s)
    ensures PoppedWritten(TakeStop(s, t, how))
  {
    hide Popped, FromQueue;
  }

  lemma FlushWritten(s: Pipe, does: FlushStep)
    requires FlushEnabled(PcOf(s, FLUSHER), does) && PoppedWritten(s)
    ensures PoppedWritten(TakeFlush(s, does))
  {
    hide Popped, FromQueue, RecordInto;
    if does.Pop? && s.queue != [] {
      PoppedAppend(s.past.left, Left(s.queue[0], false));
      assert FromQueue(s.past.offers) + [] == FromQueue(s.past.offers);
    } else if does.Write? {
      var rest := PcOf(s, FLUSHER).rest;
      FromQueueAppend(s.past.offers, Offer(rest[0], true));
      assert FromQueue(s.past.offers) + rest == (FromQueue(s.past.offers) + [rest[0]]) + rest[1..];
    } else if does.Profile? && does.sample.Some? {
      FromQueueAppend(s.past.offers, Offer(does.sample.value, false));
    }
  }

  lemma TakeWritten(s: Pipe, step: Step)
    requires Bounded(s) && Enabled(s, step) && ThreadsSized(s) && PoppedWritten(s)
    ensures PoppedWritten(Take(s, step))
  {
    hide PoppedWritten, TakeThread, TakeStop, TakeFlush;
    match step
    case ByThread(t, what) => ThreadWritten(s, t, what);
    case ByStopper(t, how) => StopWritten(s, t, how);
    case ByFlusher(does) => FlushWritten(s, does);
  }

  // ----- the writer has been called with exactly the offers -----

  function OfferedEvents(offers: seq<Offer>): seq<T.RawEvent> {
    seq(|offers|, i requires 0 <= i < |offers| => offers[i].event)
  }

  ghost predicate Driven(s: Pipe) {
    Rotation.Offered(s.past.calls) == OfferedEvents(s.past.offers)
  }

  lemma TakeDriven(s: Pipe, step: Step)
    requires Bounded(s) && Enabled(s, step) && Driven(s)
    ensures Driven(Take(s, step))
  {
    hide Rotation.Offered, RecordInto, ForcePush;
    if step.ByFlusher? {
      match step.does
      case Profile(sample, when) =>
        if sample.Some? {
          Rotation.OfferedAppend(s.past.calls, Rotation.WriteOne(sample.value, when));
        }
      case Write(now) => Rotation.OfferedAppend(s.past.calls, Rotation.WriteOne(PcOf(s, FLUSHER).rest[0], now));
      case Finish =>
        Rotation.OfferedAppend(s.past.calls, Rotation.FinalizeCall);
        assert Rotation.Offered(s.past.calls) + [] == Rotation.Offered(s.past.calls);
      case _ =>
    }
  }
}
