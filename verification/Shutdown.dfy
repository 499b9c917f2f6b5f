/** Stopping the pipeline: what has left the queue when the flush thread acknowledges, and that
    nothing changes afterwards (dial9-tokio-telemetry/src/telemetry/recorder/mod.rs). */
module Shutdown {
  import opened Wrappers
  import opened Collector
  import opened Pipeline
  import opened PipelineOrder
  import Rotation
  import T = Telemetry

  // ----- stopping -----

  /** The flush thread has received the stop command and not acknowledged it. */
  predicate Exiting(pc: Pc) {
    match pc.Base()
    case Sampling(exit) => exit
    case Profiling(exit) => exit
    case Draining(exit) => exit
    case TakingDrops(exit) => exit
    case Popping(exit) => exit
    case Writing(_, exit) => exit
    case Finishing(exit) => exit
    case Acking => true
    case _ => false
  }

  predicate Outside(pc: Pc) {
    pc.Base().Running? || pc.Base().Gone? || Stopping(pc)
  }

  /** Who is where: one stopping thread at most, and the flush thread is on its way out only
      while that thread waits. */
  ghost predicate Roles(s: Pipe) {
    && FLUSHER in s.threads && (Ended(PcOf(s, FLUSHER)) || !Outside(PcOf(s, FLUSHER)))
    && (forall t :: t in s.threads && t != FLUSHER ==> Outside(s.threads[t].pc))
    && (forall t :: t in s.threads && Stopping(s.threads[t].pc) ==> t == s.past.stop.caller)
    && (s.commandSent ==> !Exiting(PcOf(s, FLUSHER)) && !Ended(PcOf(s, FLUSHER)))
    && (s.commandSent || Exiting(PcOf(s, FLUSHER)) <==> PcOf(s, s.past.stop.caller).Base() == StopWait)
    && (PcOf(s, FLUSHER).Base() == Ending ==> PcOf(s, s.past.stop.caller).Base() == StopJoin)
  }

  /** A move that does not change where the thread is. */
  lemma SameRoles(s: Pipe, s1: Pipe, u: Tid)
    requires Roles(s) && u in s.threads && u in s1.threads && s1.threads == s.threads[u := s1.threads[u]]
    requires s1.threads[u].pc.Base() == s.threads[u].pc.Base()
    requires s1.commandSent == s.commandSent && s1.past.stop == s.past.stop
    ensures Roles(s1)
  {
  }

  /** The flush thread moves on within its loop. */
  lemma LoopRoles(s: Pipe, s1: Pipe)
    requires Roles(s) && FLUSHER in s1.threads && s1.threads == s.threads[FLUSHER := s1.threads[FLUSHER]]
    requires !Outside(PcOf(s, FLUSHER)) && !Outside(PcOf(s1, FLUSHER))
    requires !Ended(PcOf(s, FLUSHER)) && !Ended(PcOf(s1, FLUSHER))
    requires Exiting(PcOf(s1, FLUSHER)) == Exiting(PcOf(s, FLUSHER))
    requires s1.commandSent == s.commandSent && s1.past.stop == s.past.stop
    ensures Roles(s1)
  {
  }

  lemma RecordKeepsBase(s: Pipe, t: Tid, ev: T.RawEvent)
    requires PcOf(s, t) == Running
    ensures var s1 := RecordStep(s, t, ev, Running);
            && t in s1.threads && s1.threads == s.threads[t := s1.threads[t]]
            && s1.threads[t].pc.Base() == Running
            && s1.commandSent == s.commandSent && s1.past.stop == s.past.stop
            && (forall u :: u != t ==> RecordedBy(s1, u) == RecordedBy(s, u))
  {
    hide RecordInto;
  }

  lemma StartRoles(s: Pipe, t: Tid)
    requires Roles(s) && t !in s.threads
    ensures Roles(s.(threads := s.threads[t := Thread([], Running)]))
  {
    hide Exiting;
  }

  lemma EnableRoles(s: Pipe, on: bool)
    requires Roles(s)
    ensures Roles(s.(enabled := on))
  {
    hide Exiting;
  }

  lemma ExitRoles(s: Pipe, t: Tid)
    requires Roles(s) && t in s.threads && (s.threads[t].pc == Running || s.threads[t].pc == Ending)
    ensures Roles(Drain(s, t, Gone))
  {
  }

  lemma ThreadRoles(s: Pipe, t: Tid, what: ThreadStep)
    requires Bounded(s) && ThreadEnabled(s, t, what) && ThreadsSized(s) && Roles(s)
    ensures Roles(TakeThread(s, t, what))
  {
    hide PushStep, RecordStep, Drain, Roles;
    match what
    case Start => StartRoles(s, t);
    case Enable(on) => EnableRoles(s, on);
    case Exit => ExitRoles(s, t);
    case Push =>
      PushMoves(s, t);
      SameRoles(s, PushStep(s, t), t);
    case Count =>
      SameRoles(s, TakeThread(s, t, what), t);
    case Record(ev) =>
      RecordKeepsBase(s, t, ev);
      SameRoles(s, RecordStep(s, t, ev, Running), t);
  }

  lemma StopRoles(s: Pipe, t: Tid, how: StopStep)
    requires StopEnabled(s, t, how) && Roles(s)
    ensures Roles(TakeStop(s, t, how))
  {
    match how
    case StopBegin => BeginRoles(s, t);
    case Send =>
    case Ack => AckRoles(s, t);
    case Join =>
  }

  lemma BeginRoles(s: Pipe, t: Tid)
    requires StopEnabled(s, t, StopBegin) && Roles(s)
    ensures Roles(TakeStop(s, t, StopBegin))
  {
    hide PushCount;
  }

  lemma AckRoles(s: Pipe, t: Tid)
    requires StopEnabled(s, t, Ack) && Roles(s)
    ensures Roles(TakeStop(s, t, Ack))
  {
  }

  /** The flush thread moves on within its loop, and no other thread with it. */
  ghost predicate LoopMove(s: Pipe, s1: Pipe) {
    && FLUSHER in s1.threads && s1.threads == s.threads[FLUSHER := s1.threads[FLUSHER]]
    && s1.past.stop == s.past.stop && s1.commandSent == s.commandSent
    && !Outside(PcOf(s1, FLUSHER)) && !Ended(PcOf(s1, FLUSHER))
    && Exiting(PcOf(s1, FLUSHER)) == Exiting(PcOf(s, FLUSHER))
    && (PcOf(s1, FLUSHER).Base().Acking? ==> PcOf(s, FLUSHER).Finishing?)
    && (PcOf(s1, FLUSHER).Base().Finishing? ==> PcOf(s, FLUSHER).Popping?)
  }

  lemma PopMoves(s: Pipe)
    requires PcOf(s, FLUSHER).Popping?
    ensures LoopMove(s, PopStep(s))
  {
  }

  lemma DrainMoves(s: Pipe, exit: bool)
    requires PcOf(s, FLUSHER) == Draining(exit)
    ensures LoopMove(s, Drain(s, FLUSHER, TakingDrops(exit)))
  {
  }

  lemma RecordMoves(s: Pipe, ev: T.RawEvent, exit: bool)
    requires PcOf(s, FLUSHER) == Sampling(exit)
    ensures LoopMove(s, RecordStep(s, FLUSHER, ev, Profiling(exit)))
  {
    hide RecordInto;
  }

  lemma FlushMoves(s: Pipe, does: FlushStep)
    requires FlushEnabled(PcOf(s, FLUSHER), does) && !does.Receive?
    ensures LoopMove(s, TakeFlush(s, does))
  {
    hide PopStep, Drain, RecordStep, OfferStep, LoopMove;
    var exit := PcOf(s, FLUSHER).exit;
    match does
    case Sample(depth) =>
      if depth.Some? { RecordMoves(s, depth.value, exit); } else { GoesTo(s, s, Profiling(exit)); }
    case DrainOwn => DrainMoves(s, exit);
    case Pop => PopMoves(s);
    case _ => OtherMoves(s, does);
  }

  lemma OtherMoves(s: Pipe, does: FlushStep)
    requires FlushEnabled(PcOf(s, FLUSHER), does)
    requires does.Profile? || does.TakeDrops? || does.Write? || does.Finish?
    ensures LoopMove(s, TakeFlush(s, does))
  {
    hide LoopMove;
    var f := PcOf(s, FLUSHER);
    match does
    case Profile(sample, when) =>
      if sample.None? {
        GoesTo(s, s, Draining(f.exit));
      } else {
        GoesTo(s, OfferStep(s, sample.value, when, false), f);
      }
    case TakeDrops =>
      GoesTo(s, s.(drops := 0, past := s.past.(taken := s.past.taken + s.drops)), Popping(f.exit));
    case Write(now) =>
      GoesTo(s, OfferStep(s, f.rest[0], now, true), Rest(f.rest[1..], f.exit));
    case Finish =>
      if f.exit { GoesTo(s, CallWriter(s, Rotation.FinalizeCall), Acking); } else { GoesTo(s, s, Waiting); }
  }

  /** The flush thread goes to `pc`; the books other than the stop's may have changed. */
  lemma GoesTo(s: Pipe, s0: Pipe, pc: Pc)
    requires FLUSHER in s.threads && s0.threads == s.threads && s0.past.stop == s.past.stop
    requires s0.commandSent == s.commandSent && !Outside(pc) && !Ended(pc)
    requires Exiting(pc) == Exiting(PcOf(s, FLUSHER))
    requires pc.Base().Acking? ==> PcOf(s, FLUSHER).Finishing?
    requires pc.Base().Finishing? ==> PcOf(s, FLUSHER).Popping?
    ensures LoopMove(s, At(s0, FLUSHER, pc))
    ensures pc == PcOf(s, FLUSHER) ==> LoopMove(s, s0)
  {
  }

  lemma FlushRoles(s: Pipe, does: FlushStep)
    requires FlushEnabled(PcOf(s, FLUSHER), does) && Roles(s)
    ensures Roles(TakeFlush(s, does))
  {
    hide RecordInto;
    if !does.Receive? {
      hide TakeFlush, Roles, Exiting;
      FlushMoves(s, does);
      LoopRoles(s, TakeFlush(s, does));
    }
  }

  lemma TakeRoles(s: Pipe, step: Step)
    requires Bounded(s) && Enabled(s, step) && ThreadsSized(s) && Roles(s)
    ensures Roles(Take(s, step))
  {
    hide Roles, TakeThread, TakeStop, TakeFlush;
    match step
    case ByThread(t, what) => ThreadRoles(s, t, what);
    case ByStopper(t, how) => StopRoles(s, t, how);
    case ByFlusher(does) => FlushRoles(s, does);
  }

  // ----- what a stop waits for -----

  /** A thread waiting for the ack has nothing left of its own but what was pushed before it
      sent the command. */
  ghost predicate CallerDrained(s: Pipe) {
    var stop := s.past.stop;
    && (stop.caller in s.threads && Stopping(s.threads[stop.caller].pc) ==>
          stop.begun <= PushCount(s) && s.threads[stop.caller].buffer == [])
    && (PcOf(s, stop.caller).Base() == StopWait ==>
          && InHand(PcOf(s, stop.caller)) == [] && stop.begun <= stop.owed <= PushCount(s)
          && EventsOf(Pushed(s)[..stop.owed], stop.caller) == RecordedBy(s, stop.caller))
  }

  /** When the flush thread is about to finalize, or has, everything pushed before the command
      has left the queue. */
  ghost predicate OwedLeft(s: Pipe) {
    PcOf(s, FLUSHER).Base() == Finishing(true) || PcOf(s, FLUSHER).Base() == Acking ==>
      s.past.stop.owed <= |s.past.left|
  }

  predicate LastIsFinalize(calls: seq<Rotation.WriterCall>) {
    calls != [] && calls[|calls| - 1] == Rotation.FinalizeCall
  }

  /** The flush thread acknowledges and returns only after it has finalized the writer. */
  ghost predicate FinalizedFirst(s: Pipe) {
    PcOf(s, FLUSHER).Base() == Acking || Ended(PcOf(s, FLUSHER)) ==> LastIsFinalize(s.past.calls)
  }

  /** Other threads' steps, and the flush thread's own sends, leave it where it is. */
  lemma ThreadKeepsFlusher(s: Pipe, t: Tid, what: ThreadStep)
    requires Bounded(s) && ThreadEnabled(s, t, what) && ThreadsSized(s) && Roles(s)
    ensures var s1 := TakeThread(s, t, what);
            && (PcOf(s1, FLUSHER).Base() == PcOf(s, FLUSHER).Base()
                || (Ended(PcOf(s1, FLUSHER)) && Ended(PcOf(s, FLUSHER))))
            && s1.past.calls == s.past.calls && s1.past.stop == s.past.stop && s.past.left <= s1.past.left
  {
    hide RecordInto, ForcePush;
  }

  lemma FlushFinalized(s: Pipe, does: FlushStep)
    requires FlushEnabled(PcOf(s, FLUSHER), does)
    ensures FinalizedFirst(TakeFlush(s, does))
  {
    if does.Finish? {
      hide RecordInto;
    } else if !does.Receive? {
      FlushMoves(s, does);
      hide TakeFlush;
    } else {
      hide RecordInto;
    }
  }

  lemma TakeFinalized(s: Pipe, step: Step)
    requires Bounded(s) && Enabled(s, step) && ThreadsSized(s) && Roles(s) && FinalizedFirst(s)
    ensures FinalizedFirst(Take(s, step))
  {
    match step
    case ByThread(t, what) =>
      hide TakeThread;
      ThreadKeepsFlusher(s, t, what);
    case ByStopper(t, how) =>
      hide TakeThread, TakeFlush;
    case ByFlusher(does) =>
      hide FinalizedFirst, TakeFlush;
      FlushFinalized(s, does);
  }

  lemma FlushOwed(s: Pipe, does: FlushStep)
    requires FlushEnabled(PcOf(s, FLUSHER), does)
    requires Roles(s) && CallerDrained(s) && OwedLeft(s)
    ensures OwedLeft(TakeFlush(s, does))
  {
    hide RecordInto, EventsOf;
    if does.Pop? {
      hide TakeFlush;
      PopOwed(s);
    } else if !does.Finish? && !does.Receive? {
      FlushMoves(s, does);
      hide TakeFlush;
    }
  }

  /** The queue is empty when the flush thread stops popping, so everything pushed has left. */
  lemma PopOwed(s: Pipe)
    requires PcOf(s, FLUSHER).Popping? && Roles(s) && CallerDrained(s)
    ensures OwedLeft(PopStep(s)) && TakeFlush(s, Pop) == PopStep(s)
  {
    hide EventsOf;
  }

  lemma ThreadOwed(s: Pipe, t: Tid, what: ThreadStep)
    requires Bounded(s) && ThreadEnabled(s, t, what) && ThreadsSized(s) && Roles(s) && OwedLeft(s)
    ensures OwedLeft(TakeThread(s, t, what))
  {
    ThreadKeepsFlusher(s, t, what);
    hide TakeThread, Roles, ThreadsSized;
  }

  lemma StopOwed(s: Pipe, t: Tid, how: StopStep)
    requires StopEnabled(s, t, how) && Roles(s) && OwedLeft(s)
    ensures OwedLeft(TakeStop(s, t, how))
  {
  }

  lemma TakeOwed(s: Pipe, step: Step)
    requires Bounded(s) && Enabled(s, step) && ThreadsSized(s) && Roles(s) && OwedLeft(s)
    requires CallerDrained(s)
    ensures OwedLeft(Take(s, step))
  {
    hide OwedLeft, TakeThread, TakeStop, TakeFlush, Roles, CallerDrained;
    match step
    case ByThread(t, what) => ThreadOwed(s, t, what);
    case ByStopper(t, how) => StopOwed(s, t, how);
    case ByFlusher(does) => FlushOwed(s, does);
  }

  /** The stopping thread goes on stopping, and nothing of its own changes. */
  lemma CallerKept(s: Pipe, s1: Pipe)
    requires CallerDrained(s) && s1.past.stop == s.past.stop && Pushed(s) <= Pushed(s1)
    requires var c := s.past.stop.caller;
             && (c in s1.threads && Stopping(s1.threads[c].pc) ==>
                   c in s.threads && Stopping(s.threads[c].pc) && s1.threads[c].buffer == s.threads[c].buffer)
             && (PcOf(s1, c).Base() == StopWait ==>
                   && PcOf(s, c).Base() == StopWait && InHand(PcOf(s1, c)) == []
                   && RecordedBy(s1, c) == RecordedBy(s, c))
    ensures CallerDrained(s1)
  {
    hide EventsOf;
    var stop := s.past.stop;
    assert |Pushed(s)| == PushCount(s) && |Pushed(s1)| == PushCount(s1);
    if stop.owed <= |Pushed(s)| {
      assert Pushed(s1)[..stop.owed] == Pushed(s)[..stop.owed];
    }
  }

  lemma ThreadCaller(s: Pipe, t: Tid, what: ThreadStep)
    requires Bounded(s) && ThreadEnabled(s, t, what) && ThreadsSized(s) && Roles(s) && CallerDrained(s)
    ensures CallerDrained(TakeThread(s, t, what))
  {
    hide RecordStep, PushStep, EventsOf, CallerDrained, LeftBatches, Pushed;
    TakePushed(s, ByThread(t, what));
    CallerWaits(s);
    match what {
      case Push => PushMoves(s, t);
      case Record(ev) => RecordKeepsBase(s, t, ev);
      case _ =>
    }
    CallerKept(s, TakeThread(s, t, what));
  }

  lemma CallerWaits(s: Pipe)
    requires CallerDrained(s)
    ensures PcOf(s, s.past.stop.caller).Base() == StopWait ==> InHand(PcOf(s, s.past.stop.caller)) == []
  {
  }

  lemma FlushCaller(s: Pipe, does: FlushStep)
    requires Bounded(s) && FlushEnabled(PcOf(s, FLUSHER), does) && Roles(s) && CallerDrained(s)
    ensures CallerDrained(TakeFlush(s, does))
  {
    hide RecordInto, EventsOf, CallerDrained, LeftBatches;
    TakePushed(s, ByFlusher(does));
    CallerWaits(s);
    if !does.Receive? {
      FlushMoves(s, does);
    }
    FlushUnsent(s, does, s.past.stop.caller);
    hide TakeFlush, Pushed;
    CallerKept(s, TakeFlush(s, does));
  }

  lemma StopCaller(s: Pipe, t: Tid, how: StopStep)
    requires StopEnabled(s, t, how) && Roles(s) && CallerDrained(s) && Ordered(s)
    ensures CallerDrained(TakeStop(s, t, how))
  {
    hide EventsOf, LeftBatches;
    var s1 := TakeStop(s, t, how);
    assert Pushed(s1) == Pushed(s);
    if how.Send? && !Ended(PcOf(s, FLUSHER)) {
      assert OrderedFor(s, t) && Unsent(s, t) == [];
      assert EventsOf(Pushed(s), t) + [] == EventsOf(Pushed(s), t);
      assert Pushed(s)[..PushCount(s)] == Pushed(s);
    }
  }

  lemma TakeCaller(s: Pipe, step: Step)
    requires Bounded(s) && Enabled(s, step) && ThreadsSized(s) && Roles(s) && CallerDrained(s) && Ordered(s)
    ensures CallerDrained(Take(s, step))
  {
    hide CallerDrained, TakeThread, TakeStop, TakeFlush;
    match step
    case ByThread(t, what) => ThreadCaller(s, t, what);
    case ByStopper(t, how) => StopCaller(s, t, how);
    case ByFlusher(does) => FlushCaller(s, does);
  }

  // ----- the flush thread's own events -----

  predicate PastDrain(pc: Pc) {
    pc.TakingDrops? || pc.Popping? || pc.Writing? || pc.Finishing? || pc.Acking?
  }

  /** Once it has drained its own buffer the flush thread records nothing until the next cycle,
      and when it is done popping its own events have left the queue like all others. */
  ghost predicate OwnDrained(s: Pipe) {
    var pc := PcOf(s, FLUSHER);
    && (PastDrain(pc.Base()) ==> FLUSHER in s.threads && s.threads[FLUSHER].buffer == [])
    && (pc.Base().Finishing? || pc.Base().Acking? ==>
          pc.Plain() && EventsOf(LeftBatches(s.past.left), FLUSHER) == RecordedBy(s, FLUSHER))
  }

  /** More batches may leave, but none of the flush thread's are among them. */
  lemma OwnKept(s: Pipe, s1: Pipe)
    requires OwnDrained(s) && Ordered(s1) && s.past.left <= s1.past.left
    requires PcOf(s1, FLUSHER) == PcOf(s, FLUSHER) && RecordedBy(s1, FLUSHER) == RecordedBy(s, FLUSHER)
    requires FLUSHER in s.threads && FLUSHER in s1.threads && s1.threads[FLUSHER].buffer == s.threads[FLUSHER].buffer
    ensures OwnDrained(s1)
  {
    hide Ordered;
    var left, left1 := LeftBatches(s.past.left), LeftBatches(s1.past.left);
    OrderedAt(s1, FLUSHER);
    assert left1 == left + left1[|left|..];
    hide LeftBatches;
    EventsOfAppend(left, left1[|left|..], FLUSHER);
    EventsOfAppend(left1, s1.queue, FLUSHER);
    hide EventsOf;
    assert |RecordedBy(s1, FLUSHER)|
           == |EventsOf(left1, FLUSHER)| + |EventsOf(s1.queue, FLUSHER)| + |Unsent(s1, FLUSHER)|;
  }

  lemma ThreadOwn(s: Pipe, t: Tid, what: ThreadStep)
    requires Bounded(s) && ThreadEnabled(s, t, what) && ThreadsSized(s) && Roles(s) && OwnDrained(s)
    requires Ordered(TakeThread(s, t, what))
    ensures OwnDrained(TakeThread(s, t, what))
  {
    hide PushStep, RecordStep, EventsOf, Ordered, LeftBatches;
    var s1 := TakeThread(s, t, what);
    ThreadKeepsFlusher(s, t, what);
    match what {
      case Push => PushMoves(s, t);
      case Record(ev) => RecordKeepsBase(s, t, ev);
      case _ =>
    }
    if t != FLUSHER && !Ended(PcOf(s, FLUSHER)) {
      hide TakeThread, OwnDrained;
      OwnKept(s, s1);
    }
  }

  lemma FlushOwn(s: Pipe, does: FlushStep)
    requires Bounded(s) && FlushEnabled(PcOf(s, FLUSHER), does) && OwnDrained(s) && Ordered(s)
    ensures OwnDrained(TakeFlush(s, does))
  {
    hide RecordInto, EventsOf, LeftBatches, Ordered;
    if does.Pop? && s.queue == [] {
      OrderedAt(s, FLUSHER);
      assert Pushed(s) == LeftBatches(s.past.left) && Unsent(s, FLUSHER) == [];
      assert EventsOf(Pushed(s), FLUSHER) + [] == EventsOf(Pushed(s), FLUSHER);
    }
  }

  lemma StopOwn(s: Pipe, t: Tid, how: StopStep)
    requires StopEnabled(s, t, how) && Roles(s) && OwnDrained(s)
    ensures OwnDrained(TakeStop(s, t, how))
  {
    hide EventsOf, LeftBatches;
  }

  lemma TakeOwn(s: Pipe, step: Step)
    requires Bounded(s) && Enabled(s, step) && ThreadsSized(s) && Roles(s) && Ordered(s) && OwnDrained(s)
    ensures OwnDrained(Take(s, step))
  {
    hide TakeThread, TakeStop, TakeFlush, Ordered, OwnDrained, Roles, ThreadsSized;
    TakeOrdered(s, step);
    match step
    case ByThread(t, what) => ThreadOwn(s, t, what);
    case ByStopper(t, how) => StopOwn(s, t, how);
    case ByFlusher(does) => FlushOwn(s, does);
  }

  // ----- runs -----

  ghost predicate Inv(s: Pipe) {
    && Bounded(s) && ThreadsSized(s) && BatchesSized(s) && Ordered(s) && Counted(s) && PoppedWritten(s) && Driven(s)
    && Roles(s) && CallerDrained(s) && OwedLeft(s) && FinalizedFirst(s) && OwnDrained(s)
  }

  lemma TakeBatches(s: Pipe, step: Step)
    requires Bounded(s) && Enabled(s, step) && ThreadsSized(s) && BatchesSized(s)
    ensures BatchesSized(Take(s, step))
  {
    hide Take, Pushed;
    TakePushed(s, step);
  }

  lemma InvStep(s: Pipe, step: Step)
    requires Inv(s) && Enabled(s, step)
    ensures Inv(Take(s, step))
  {
    hide Enabled, Take, Bounded, ThreadsSized, BatchesSized, Ordered, Counted, PoppedWritten, Driven;
    hide Roles, CallerDrained, OwedLeft, FinalizedFirst, OwnDrained;
    TakeBounded(s, step);
    TakeThreadsSized(s, step);
    TakeBatches(s, step);
    TakeOrdered(s, step);
    TakeCounted(s, step);
    TakeWritten(s, step);
    TakeDriven(s, step);
    TakeRoles(s, step);
    TakeCaller(s, step);
    TakeOwed(s, step);
    TakeFinalized(s, step);
    TakeOwn(s, step);
  }

  lemma InvBegin(capacity: nat)
    requires 0 < capacity
    ensures Inv(Begin(capacity))
  {
    assert Counters(map[FLUSHER := Thread([], Waiting)]) == {};
  }

  lemma {:induction false} InvRun(s: Pipe, steps: seq<Step>)
    requires Inv(s) && IsRun(s, steps)
    ensures Inv(RunTo(s, steps))
    decreases |steps|
  {
    hide Take, Enabled, ThreadsSized, BatchesSized, Ordered, Counted, PoppedWritten, Driven;
    hide Roles, CallerDrained, OwedLeft, FinalizedFirst, OwnDrained;
    if steps != [] {
      InvStep(s, steps[0]);
      InvRun(Take(s, steps[0]), steps[1..]);
    }
  }

  // ----- what holds in every reachable state -----

  /** Over every interleaving: each thread's events are, in the order it recorded them, in its
      batches already popped or pushed out, its batches queued, the batch it is sending, and its
      buffer; batches hold 1 to 1024 events; the queue never exceeds its capacity; and every
      batch pushed out has been counted, or its thread is about to count it. */
  lemma EventsInOrder(capacity: nat, steps: seq<Step>, t: Tid)
    requires 0 < capacity && IsRun(Begin(capacity), steps)
    ensures var s := RunTo(Begin(capacity), steps);
            && RecordedBy(s, t) == EventsOf(LeftBatches(s.past.left), t) + EventsOf(s.queue, t) + Unsent(s, t)
            && (forall b :: b in s.queue || b in LeftBatches(s.past.left) ==> 1 <= |b.events| <= 1024)
            && |s.queue| <= capacity
            && s.past.taken + s.drops + |Counters(s.threads)| == Evictions(s.past.left)
  {
    InvBegin(capacity);
    InvRun(Begin(capacity), steps);
    RunKeepsCapacity(Begin(capacity), steps);
    var s := RunTo(Begin(capacity), steps);
    hide RunTo, IsRun, Driven, Roles, CallerDrained, OwedLeft, PoppedWritten;
    assert OrderedFor(s, t);
    EventsOfAppend(LeftBatches(s.past.left), s.queue, t);
    forall b | b in s.queue || b in LeftBatches(s.past.left)
      ensures BatchSized(b.events)
    {
      assert b in Pushed(s);
    }
  }

  /** Over every interleaving the writer has been given the popped batches, event after event in
      queue order, up to the batch in hand, and nothing else but profiler samples. */
  lemma WriterFollows(capacity: nat, steps: seq<Step>)
    requires 0 < capacity && IsRun(Begin(capacity), steps)
    ensures var s := RunTo(Begin(capacity), steps);
            && Rotation.Offered(s.past.calls) == OfferedEvents(s.past.offers)
            && FromQueue(s.past.offers) + Unwritten(s) == Popped(s.past.left)
  {
    InvBegin(capacity);
    InvRun(Begin(capacity), steps);
    hide RunTo, IsRun, Roles, CallerDrained, OwedLeft, Ordered, Counted, BatchesSized;
  }

  /** When the flush thread is about to acknowledge a stop, some thread waits for it; every batch
      queued when that thread began to stop, and every event that it or the flush thread ever
      recorded, has left the queue; what was popped has been given to the writer completely; and the
      writer is finalized. */
  lemma StopIsSafe(capacity: nat, steps: seq<Step>)
    requires 0 < capacity && IsRun(Begin(capacity), steps)
    requires PcOf(RunTo(Begin(capacity), steps), FLUSHER) == Acking
    ensures var s := RunTo(Begin(capacity), steps);
            var caller := s.past.stop.caller;
            && PcOf(s, caller).Base() == StopWait
            && s.past.stop.begun <= |s.past.left|
            && EventsOf(LeftBatches(s.past.left), caller) == RecordedBy(s, caller)
            && EventsOf(LeftBatches(s.past.left), FLUSHER) == RecordedBy(s, FLUSHER)
            && FromQueue(s.past.offers) == Popped(s.past.left)
            && LastIsFinalize(s.past.calls)
  {
    InvBegin(capacity);
    InvRun(Begin(capacity), steps);
    var s := RunTo(Begin(capacity), steps);
    hide RunTo, IsRun, Driven, Counted, BatchesSized;
    AckState(s);
    assert FromQueue(s.past.offers) + [] == FromQueue(s.past.offers);
  }

  lemma AckState(s: Pipe)
    requires Ordered(s) && Roles(s) && CallerDrained(s) && OwedLeft(s) && PcOf(s, FLUSHER) == Acking
    ensures var caller := s.past.stop.caller;
            && PcOf(s, caller).Base() == StopWait && s.past.stop.begun <= |s.past.left|
            && EventsOf(LeftBatches(s.past.left), caller) == RecordedBy(s, caller)
  {
    hide LeftBatches, Ordered;
    var stop, left := s.past.stop, LeftBatches(s.past.left);
    var c := stop.caller;
    assert OrderedFor(s, c) by {
      assert Ordered(s);
      OrderedAt(s, c);
    }
    var owed := Pushed(s)[..stop.owed];
    assert Pushed(s)[..stop.owed] == left[..stop.owed] && left == left[..stop.owed] + left[stop.owed..];
    EventsOfAppend(left[..stop.owed], left[stop.owed..], c);
    EventsOfAppend(left, s.queue, c);
    assert |RecordedBy(s, c)| == |EventsOf(left, c)| + |EventsOf(s.queue, c)| + |Unsent(s, c)|;
    assert EventsOf(left[stop.owed..], c) == [];
  }

  lemma OrderedAt(s: Pipe, t: Tid)
    requires Ordered(s)
    ensures OrderedFor(s, t)
  {
    hide OrderedFor;
  }

  // ----- from the start of a stop to its ack, and after -----

  /** The stop that thread `t` began is still going on, or the flush thread has ended. */
  ghost predicate StopGoesOn(s: Pipe, t: Tid, begun: nat) {
    || Ended(PcOf(s, FLUSHER))
    || (s.past.stop.caller == t && s.past.stop.begun == begun && t in s.threads && Stopping(s.threads[t].pc))
  }

  lemma ThreadGoesOn(s: Pipe, u: Tid, what: ThreadStep, t: Tid, begun: nat)
    requires Bounded(s) && ThreadEnabled(s, u, what) && ThreadsSized(s) && Roles(s) && StopGoesOn(s, t, begun)
    ensures StopGoesOn(TakeThread(s, u, what), t, begun)
  {
    hide PushStep, RecordStep;
    ThreadKeepsFlusher(s, u, what);
    match what
    case Push => PushMoves(s, u);
    case Record(ev) => RecordKeepsBase(s, u, ev);
    case _ =>
  }

  lemma TakeGoesOn(s: Pipe, step: Step, t: Tid, begun: nat)
    requires Bounded(s) && Enabled(s, step) && ThreadsSized(s) && Roles(s) && StopGoesOn(s, t, begun)
    ensures StopGoesOn(Take(s, step), t, begun)
  {
    hide TakeThread, TakeFlush, TakeStop, StopGoesOn, LoopMove;
    match step
    case ByThread(u, what) => ThreadGoesOn(s, u, what, t, begun);
    case ByStopper(u, how) => StopperGoesOn(s, u, how, t, begun);
    case ByFlusher(does) => FlusherGoesOn(s, does, t, begun);
  }

  lemma StopperGoesOn(s: Pipe, u: Tid, how: StopStep, t: Tid, begun: nat)
    requires StopEnabled(s, u, how) && Roles(s) && StopGoesOn(s, t, begun)
    ensures StopGoesOn(TakeStop(s, u, how), t, begun)
  {
  }

  lemma FlusherGoesOn(s: Pipe, does: FlushStep, t: Tid, begun: nat)
    requires FlushEnabled(PcOf(s, FLUSHER), does) && Roles(s) && StopGoesOn(s, t, begun)
    ensures StopGoesOn(TakeFlush(s, does), t, begun)
  {
    hide TakeFlush, Drain, PushCount;
    if !does.Receive? {
      FlushMoves(s, does);
    } else {
      ReceiveMoves(s);
    }
  }

  lemma ReceiveMoves(s: Pipe)
    requires PcOf(s, FLUSHER) == Waiting
    ensures var s1 := TakeFlush(s, Receive);
            && s1.threads.Keys == s.threads.Keys
            && (forall u :: u in s.threads && u != FLUSHER ==> s1.threads[u] == s.threads[u])
            && s1.past == s.past && s1.threads[FLUSHER].pc.Sampling?
  {
  }

  /** Pushed batches and recorded events are only added to. */
  lemma TakeGrows(s: Pipe, step: Step, t: Tid)
    requires Bounded(s) && Enabled(s, step) && ThreadsSized(s)
    ensures Pushed(s) <= Pushed(Take(s, step)) && RecordedBy(s, t) <= RecordedBy(Take(s, step), t)
  {
    hide TakeThread, TakeFlush, TakeStop, Pushed, RecordedBy, Unsent;
    TakePushed(s, step);
    match step
    case ByThread(u, what) => ThreadUnsent(s, u, what, t);
    case ByStopper(u, how) => StopUnsent(s, u, how, t);
    case ByFlusher(does) => FlushUnsent(s, does, t);
  }

  lemma {:induction false} RunGrows(s: Pipe, steps: seq<Step>, t: Tid, begun: nat)
    requires Inv(s) && IsRun(s, steps) && StopGoesOn(s, t, begun)
    ensures var s1 := RunTo(s, steps);
            Inv(s1) && Pushed(s) <= Pushed(s1) && RecordedBy(s, t) <= RecordedBy(s1, t) && StopGoesOn(s1, t, begun)
    decreases |steps|
  {
    hide Take, Enabled, BatchesSized, Ordered, Counted, PoppedWritten, Driven, Pushed, RecordedBy, StopGoesOn,
         ThreadsSized;
    hide Roles, CallerDrained, OwedLeft, FinalizedFirst, OwnDrained;
    if steps != [] {
      InvStep(s, steps[0]);
      TakeGrows(s, steps[0], t);
      TakeGoesOn(s, steps[0], t, begun);
      RunGrows(Take(s, steps[0]), steps[1..], t, begun);
    }
  }

  /** Thread `t` begins to stop the pipeline in a reachable state `s`, anything may happen, and
      the flush thread is about to acknowledge: every batch queued in `s` and every event `t`
      had recorded has been pushed out or given to the writer. */
  lemma NothingLeftBehind(s: Pipe, t: Tid, steps: seq<Step>)
    requires Inv(s) && StopEnabled(s, t, StopBegin)
    requires Bounded(TakeStop(s, t, StopBegin)) && IsRun(TakeStop(s, t, StopBegin), steps)
    requires PcOf(RunTo(TakeStop(s, t, StopBegin), steps), FLUSHER) == Acking
    ensures var s1 := RunTo(TakeStop(s, t, StopBegin), steps);
            && Pushed(s) <= LeftBatches(s1.past.left)
            && RecordedBy(s, t) <= EventsOf(LeftBatches(s1.past.left), t)
            && FromQueue(s1.past.offers) == Popped(s1.past.left)
  {
    hide ThreadsSized, BatchesSized, Counted, Driven, IsRun, RunTo, EventsOf, Roles, OwedLeft, FinalizedFirst, Ordered,
         Popped, FromQueue, OwnDrained;
    var s0 := TakeStop(s, t, StopBegin);
    InvStep(s, ByStopper(t, StopBegin));
    assert Pushed(s0) == Pushed(s) && RecordedBy(s0, t) == RecordedBy(s, t);
    RunGrows(s0, steps, t, PushCount(s));
    var s1 := RunTo(s0, steps);
    AckState(s1);
    assert FromQueue(s1.past.offers) + [] == FromQueue(s1.past.offers);
    assert Pushed(s1)[..PushCount(s)] == LeftBatches(s1.past.left)[..PushCount(s)];
  }

  /** From the ack on the flush thread takes no more steps of its own. */
  ghost predicate Settled(s: Pipe) {
    PcOf(s, FLUSHER).Base() == Acking || Ended(PcOf(s, FLUSHER))
  }

  lemma TakeSettled(s: Pipe, step: Step)
    requires Bounded(s) && Enabled(s, step) && ThreadsSized(s) && Roles(s) && Settled(s)
    ensures Settled(Take(s, step)) && Take(s, step).past.calls == s.past.calls
  {
    hide TakeThread, TakeFlush;
    match step
    case ByThread(u, what) => ThreadKeepsFlusher(s, u, what);
    case ByStopper(u, how) =>
    case ByFlusher(does) =>
  }

  /** After the ack the writer is never called again, whatever the threads go on doing. */
  lemma {:induction false} WriterSettled(s: Pipe, steps: seq<Step>)
    requires Inv(s) && IsRun(s, steps) && Settled(s)
    ensures RunTo(s, steps).past.calls == s.past.calls
    decreases |steps|
  {
    hide Take, Enabled, ThreadsSized, BatchesSized, Ordered, Counted, PoppedWritten, Driven, Settled;
    hide Roles, CallerDrained, OwedLeft, FinalizedFirst, OwnDrained;
    if steps != [] {
      InvStep(s, steps[0]);
      TakeSettled(s, steps[0]);
      WriterSettled(Take(s, steps[0]), steps[1..]);
    }
  }

  // ----- the trace files -----

  lemma FinalizeCloses(w: Rotation.Writer, calls: seq<Rotation.WriterCall>)
    requires w.Valid() && LastIsFinalize(calls)
    ensures Rotation.DoAll(w, calls).phase == Rotation.Closed || Rotation.DoAll(w, calls).phase == Rotation.Removed
  {
    var front := calls[..|calls| - 1];
    assert calls == front + [Rotation.FinalizeCall];
    Rotation.DoAllAppend(w, front, Rotation.FinalizeCall);
    hide Rotation.DoAll;
  }

  /** A whole life: a run in which the pipeline is stopped and the flush thread is about to
      acknowledge, on a writer that starts with `w`. The files are closed; what the segments hold
      is what they held and then the popped batches' events and the profilers' samples in the order
      they were offered, cut only where the writer itself stopped, and the rest is counted. */
  lemma TraceComplete(capacity: nat, w: Rotation.Writer, steps: seq<Step>)
    requires 0 < capacity && w.Valid() && w.dropped == 0 && IsRun(Begin(capacity), steps)
    requires PcOf(RunTo(Begin(capacity), steps), FLUSHER) == Acking
    ensures var s := RunTo(Begin(capacity), steps);
            var w1, offered := Rotation.DoAll(w, s.past.calls), OfferedEvents(s.past.offers);
            && FromQueue(s.past.offers) == Popped(s.past.left)
            && w1.dropped <= |offered|
            && Rotation.Events(w1.segs) == Rotation.Events(w.segs) + offered[..|offered| - w1.dropped]
            && (w1.phase == Rotation.Closed || w1.phase == Rotation.Removed)
  {
    hide Rotation.DoAll, Rotation.Events, Rotation.Offered, IsRun, RunTo, FromQueue, Popped;
    StopIsSafe(capacity, steps);
    WriterFollows(capacity, steps);
    var s := RunTo(Begin(capacity), steps);
    Rotation.RotationConserves(w, s.past.calls);
    FinalizeCloses(w, s.past.calls);
  }

  /** And from then on no trace file changes. */
  lemma FilesSettled(w: Rotation.Writer, s: Pipe, steps: seq<Step>)
    requires w.Valid() && Inv(s) && IsRun(s, steps) && Settled(s)
    ensures var before, after := Rotation.DoAll(w, s.past.calls), Rotation.DoAll(w, RunTo(s, steps).past.calls);
            && before.segs != [] && after.segs != [] && Rotation.Disk(after) == Rotation.Disk(before)
            && Rotation.ActiveFile(|before.segs| - 1) !in Rotation.Disk(before)
  {
    hide Rotation.DoAll, RunTo, IsRun, Rotation.Content;
    WriterSettled(s, steps);
    FinalizeCloses(w, s.past.calls);
    Rotation.DoAllValid(w, s.past.calls);
  }

  // ----- a stop is never stuck -----

  /** A step of the stopping thread itself or of the flush thread that takes the stop further. */
  predicate Helps(step: Step, t: Tid) {
    match step
    case ByThread(u, what) => ((what.Push? || what.Count?) && (u == t || u == FLUSHER)) || (what.Exit? && u == FLUSHER)
    case ByStopper(u, how) => u == t && !how.StopBegin?
    case ByFlusher(_) => true
  }

  /** The flush thread can go on from wherever it is, until it acknowledges. */
  lemma FlusherGoesOnFrom(s: Pipe) returns (step: Step)
    requires ThreadsSized(s) && Roles(s) && !Ended(PcOf(s, FLUSHER)) && PcOf(s, FLUSHER) != Acking
    ensures Enabled(s, step) && forall t :: Helps(step, t)
  {
    match PcOf(s, FLUSHER)
    case Pushing(_, _) => step := ByThread(FLUSHER, Push);
    case Counting(_) => step := ByThread(FLUSHER, Count);
    case Waiting => step := ByFlusher(Receive);
    case Sampling(_) => step := ByFlusher(Sample(None));
    case Profiling(_) => step := ByFlusher(Profile(None, 0));
    case Draining(_) => step := ByFlusher(DrainOwn);
    case TakingDrops(_) => step := ByFlusher(TakeDrops);
    case Popping(_) => step := ByFlusher(Pop);
    case Writing(_, _) => step := ByFlusher(Write(0));
    case Finishing(_) => step := ByFlusher(Finish);
  }

  /** Whatever the other threads do, the stopping thread or the flush thread can always take a step
      that takes the stop further: no wait is for something that cannot happen. */
  lemma NeverStuck(s: Pipe, t: Tid) returns (step: Step)
    requires ThreadsSized(s) && Roles(s) && t in s.threads && Stopping(PcOf(s, t))
    ensures Enabled(s, step) && Helps(step, t)
  {
    var f := PcOf(s, FLUSHER);
    match PcOf(s, t)
    case Pushing(_, _) => step := ByThread(t, Push);
    case Counting(_) => step := ByThread(t, Count);
    case StopSend => step := ByStopper(t, Send);
    case StopWait =>
      if f == Acking {
        step := ByStopper(t, Ack);
      } else {
        step := FlusherGoesOnFrom(s);
      }
    case StopJoin =>
      if f == Pc.Gone {
        step := ByStopper(t, Join);
      } else if f == Ending {
        step := ByThread(FLUSHER, Exit);
      } else if f.Pushing? {
        step := ByThread(FLUSHER, Push);
      } else if f.Counting? {
        step := ByThread(FLUSHER, Count);
      } else {
        step := FlusherGoesOnFrom(s);
      }
  }
}
