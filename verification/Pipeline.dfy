/** The recording pipeline as interleaved steps of its threads: ordinary threads that record
    events, the flush thread, and a thread that stops it
    (dial9-tokio-telemetry/src/telemetry/buffer.rs, collector.rs and recorder/mod.rs).
    Each step is one access to shared state or one write of the flush thread. */
module Pipeline {
  import opened Wire
  import opened Wrappers
  import opened Collector
  import Rotation
  import T = Telemetry

  type Tid = nat

  const FLUSHER: Tid := 0

  /** A batch, with the thread that recorded it. */
  datatype Batch = Batch(owner: Tid, events: seq<T.RawEvent>)

  /** Where a thread is in the code. `next` is where it goes on afterwards. */
  datatype Pc =
    | Running
    | Pushing(batch: seq<T.RawEvent>, next: Pc)   // about to `force_push`
    | Counting(next: Pc)                          // a batch was pushed out, about to count it
    | Gone
    // stop_flush_thread
    | StopSend | StopWait | StopJoin
    // the flush thread; `exit` once the stop command has been received
    | Waiting | Sampling(exit: bool) | Profiling(exit: bool) | Draining(exit: bool) | TakingDrops(exit: bool)
    | Popping(exit: bool) | Writing(rest: seq<T.RawEvent>, exit: bool) | Finishing(exit: bool) | Acking | Ending
  {
    /** Not in the middle of sending or writing a batch. */
    predicate Plain() {
      !Pushing? && !Counting? && !Writing?
    }

    /** Where the thread is, apart from sending a batch. */
    function Base(): Pc {
      if Pushing? || Counting? then next else this
    }
  }

  datatype Thread = Thread(buffer: seq<T.RawEvent>, pc: Pc)

  /** A batch that is no longer queued: pushed out by a newer one, or popped by the flush thread. */
  datatype Left = Left(batch: Batch, evicted: bool)

  /** An event handed to the writer, from a batch or from a profiler. */
  datatype Offer = Offer(event: T.RawEvent, fromQueue: bool)

  /** The last stop: who called it, and how many batches had been pushed when it began and when
      its command was sent. */
  datatype Stop = Stop(caller: Tid, begun: nat, owed: nat)

  /** What happened so far. */
  datatype History = History(recorded: map<Tid, seq<T.RawEvent>>, left: seq<Left>, taken: nat,
                             offers: seq<Offer>, calls: seq<Rotation.WriterCall>, stop: Stop)

  datatype Pipe = Pipe(enabled: bool, capacity: nat, threads: map<Tid, Thread>, queue: seq<Batch>, drops: nat,
                       commandSent: bool, past: History)

  function Begin(capacity: nat): Pipe {
    Pipe(false, capacity, map[FLUSHER := Thread([], Waiting)], [], 0, false,
         History(map[], [], 0, [], [], Stop(FLUSHER, 0, 0)))
  }

  datatype ThreadStep = Start | Enable(on: bool) | Record(event: T.RawEvent) | Push | Count | Exit
  datatype StopStep = StopBegin | Send | Ack | Join
  datatype FlushStep =
    | Receive | Sample(depth: Option<T.RawEvent>) | Profile(sample: Option<T.RawEvent>, when: u64)
    | DrainOwn | TakeDrops | Pop | Write(now: u64) | Finish

  datatype Step =
    | ByThread(t: Tid, what: ThreadStep)
    | ByStopper(t: Tid, how: StopStep)
    | ByFlusher(does: FlushStep)

  function PcOf(s: Pipe, t: Tid): Pc {
    if t in s.threads then s.threads[t].pc else Gone
  }

  predicate Stopping(pc: Pc) {
    pc.Base().StopSend? || pc.Base().StopWait? || pc.Base().StopJoin?
  }

  /** The flush thread has acknowledged and is returning, or has returned. */
  predicate Ended(pc: Pc) {
    pc.Base().Ending? || pc.Base().Gone?
  }

  /** The guard is borrowed for the whole of a stop, so only one thread can be stopping. */
  predicate Enabled(s: Pipe, step: Step) {
    match step
    case ByThread(t, what) => ThreadEnabled(s, t, what)
    case ByStopper(t, how) => StopEnabled(s, t, how)
    case ByFlusher(does) => FlushEnabled(PcOf(s, FLUSHER), does)
  }

  predicate ThreadEnabled(s: Pipe, t: Tid, what: ThreadStep) {
    match what
    case Start => t !in s.threads
    case Enable(_) => true
    case Record(_) => PcOf(s, t) == Running
    case Push => PcOf(s, t).Pushing?
    case Count => PcOf(s, t).Counting?
    case Exit => t in s.threads && (PcOf(s, t) == Running || PcOf(s, t) == Ending)
  }

  predicate StopEnabled(s: Pipe, t: Tid, how: StopStep) {
    match how
    case StopBegin => PcOf(s, t) == Running && forall u :: u in s.threads ==> !Stopping(s.threads[u].pc)
    case Send => PcOf(s, t) == StopSend && (Ended(PcOf(s, FLUSHER)) || !s.commandSent)
    case Ack => PcOf(s, t) == StopWait && PcOf(s, FLUSHER) == Acking
    case Join => PcOf(s, t) == StopJoin && PcOf(s, FLUSHER) == Gone
  }

  predicate FlushEnabled(f: Pc, does: FlushStep) {
    match does
    case Receive => f == Waiting
    case Sample(_) => f.Sampling?
    case Profile(_, _) => f.Profiling?
    case DrainOwn => f.Draining?
    case TakeDrops => f.TakingDrops?
    case Pop => f.Popping?
    case Write(_) => f.Writing? && f.rest != []
    case Finish => f.Finishing?
  }

  function At(s: Pipe, t: Tid, pc: Pc): Pipe
    requires t in s.threads
  {
    s.(threads := s.threads[t := s.threads[t].(pc := pc)])
  }

  /** Empty the thread's buffer: a batch that is not empty is pushed before going on. */
  function Drain(s: Pipe, t: Tid, next: Pc): Pipe
    requires t in s.threads
  {
    var buffer := s.threads[t].buffer;
    s.(threads := s.threads[t := Thread([], if buffer == [] then next else Pushing(buffer, next))])
  }

  function RecordedBy(s: Pipe, t: Tid): seq<T.RawEvent> {
    if t in s.past.recorded then s.past.recorded[t] else []
  }

  /** `record_event`, skipped while recording is switched off. */
  function RecordStep(s: Pipe, t: Tid, ev: T.RawEvent, next: Pc): Pipe
    requires t in s.threads
  {
    if !s.enabled then At(s, t, next)
    else
      var (kept, batch) := RecordInto(s.threads[t].buffer, ev);
      s.(threads := s.threads[t := Thread(kept, if batch == [] then next else Pushing(batch, next))],
         past := s.past.(recorded := s.past.recorded[t := RecordedBy(s, t) + [ev]]))
  }

  function PushStep(s: Pipe, t: Tid): Pipe
    requires PcOf(s, t).Pushing? && 0 < s.capacity && |s.queue| <= s.capacity
  {
    var pc := PcOf(s, t);
    var (queue, evicted) := ForcePush(s.capacity, s.queue, Batch(t, pc.batch));
    At(s.(queue := queue,
          past := s.past.(left := s.past.left + if evicted.Some? then [Left(evicted.value, true)] else [])),
       t, if evicted.Some? then Counting(pc.next) else pc.next)
  }

  function TakeThread(s: Pipe, t: Tid, what: ThreadStep): Pipe
    requires Bounded(s) && ThreadEnabled(s, t, what)
  {
    match what
    case Start => s.(threads := s.threads[t := Thread([], Running)])
    case Enable(on) => s.(enabled := on)
    case Record(ev) => RecordStep(s, t, ev, Running)
    case Push => PushStep(s, t)
    case Count => At(s.(drops := s.drops + 1), t, PcOf(s, t).next)
    case Exit => Drain(s, t, Gone)
  }

  function PushCount(s: Pipe): nat {
    |s.past.left| + |s.queue|
  }

  /** `stop_flush_thread`: drain the caller's buffer, send the command, wait for the ack, join.
      Sending fails when the flush thread has returned, and then there is no ack to wait for. */
  function TakeStop(s: Pipe, t: Tid, how: StopStep): Pipe
    requires StopEnabled(s, t, how)
  {
    match how
    case StopBegin => Drain(s.(past := s.past.(stop := Stop(t, PushCount(s), 0))), t, StopSend)
    case Send =>
      if Ended(PcOf(s, FLUSHER)) then At(s, t, StopJoin)
      else At(s.(commandSent := true, past := s.past.(stop := s.past.stop.(owed := PushCount(s)))), t, StopWait)
    case Ack => At(At(s, t, StopJoin), FLUSHER, Ending)
    case Join => At(s, t, Running)
  }

  function PopStep(s: Pipe): Pipe
    requires PcOf(s, FLUSHER).Popping?
  {
    var exit := PcOf(s, FLUSHER).exit;
    if s.queue == [] then At(s, FLUSHER, Finishing(exit))
    else
      At(s.(queue := s.queue[1..], past := s.past.(left := s.past.left + [Left(s.queue[0], false)])),
         FLUSHER, Rest(s.queue[0].events, exit))
  }

  function Rest(rest: seq<T.RawEvent>, exit: bool): Pc {
    if rest == [] then Popping(exit) else Writing(rest, exit)
  }

  function CallWriter(s: Pipe, c: Rotation.WriterCall): Pipe {
    s.(past := s.past.(calls := s.past.calls + [c]))
  }

  function OfferStep(s: Pipe, ev: T.RawEvent, now: u64, fromQueue: bool): Pipe {
    var s1 := CallWriter(s, Rotation.WriteOne(ev, now));
    s1.(past := s1.past.(offers := s1.past.offers + [Offer(ev, fromQueue)]))
  }

  /** The loop of the flush thread with `flush_once` in it: profilers, its own buffer, the drop
      counter, then batches until the queue is empty; on the stop command also finalize and ack. */
  function TakeFlush(s: Pipe, does: FlushStep): Pipe
    requires FlushEnabled(PcOf(s, FLUSHER), does)
  {
    var f := PcOf(s, FLUSHER);
    match does
    case Receive => At(s.(commandSent := false), FLUSHER, Sampling(s.commandSent))
    case Sample(depth) =>
      if depth.None? then At(s, FLUSHER, Profiling(f.exit)) else RecordStep(s, FLUSHER, depth.value, Profiling(f.exit))
    case Profile(sample, when) =>
      if sample.None? then At(s, FLUSHER, Draining(f.exit)) else OfferStep(s, sample.value, when, false)
    case DrainOwn => Drain(s, FLUSHER, TakingDrops(f.exit))
    case TakeDrops => At(s.(drops := 0, past := s.past.(taken := s.past.taken + s.drops)), FLUSHER, Popping(f.exit))
    case Pop => PopStep(s)
    case Write(now) => At(OfferStep(s, f.rest[0], now, true), FLUSHER, Rest(f.rest[1..], f.exit))
    case Finish => if f.exit then At(CallWriter(s, Rotation.FinalizeCall), FLUSHER, Acking) else At(s, FLUSHER, Waiting)
  }

  ghost predicate Bounded(s: Pipe) {
    0 < s.capacity && |s.queue| <= s.capacity
  }

  function Take(s: Pipe, step: Step): Pipe
    requires Bounded(s) && Enabled(s, step)
  {
    match step
    case ByThread(t, what) => TakeThread(s, t, what)
    case ByStopper(t, how) => TakeStop(s, t, how)
    case ByFlusher(does) => TakeFlush(s, does)
  }

  lemma TakeBounded(s: Pipe, step: Step)
    requires Bounded(s) && Enabled(s, step)
    ensures Bounded(Take(s, step)) && Take(s, step).capacity == s.capacity
  {
    hide RecordInto;
  }

  // ----- runs -----

  ghost predicate IsRun(s: Pipe, steps: seq<Step>)
    requires Bounded(s)
    decreases |steps|
  {
    steps == [] ||
    (Enabled(s, steps[0]) && (TakeBounded(s, steps[0]); IsRun(Take(s, steps[0]), steps[1..])))
  }

  ghost function RunTo(s: Pipe, steps: seq<Step>): Pipe
    requires Bounded(s) && IsRun(s, steps)
    decreases |steps|
  {
    if steps == [] then s else (TakeBounded(s, steps[0]); RunTo(Take(s, steps[0]), steps[1..]))
  }

  lemma {:induction false} RunKeepsCapacity(s: Pipe, steps: seq<Step>)
    requires Bounded(s) && IsRun(s, steps)
    ensures RunTo(s, steps).capacity == s.capacity
    decreases |steps|
  {
    hide Take, Enabled;
    if steps != [] {
      TakeBounded(s, steps[0]);
      RunKeepsCapacity(Take(s, steps[0]), steps[1..]);
    }
  }
}
