/** Reading one segment on its own: the runtime events it holds and the timestamp it starts with
    (dial9-tokio-telemetry/src/telemetry/format.rs and background_task/sealed.rs). */
module SegmentReading {
  import opened Wire
  import opened Wrappers
  import opened Utf8
  import opened Types
  import opened ZeroCopy
  import opened Schema
  import opened Codec
  import opened Decoding
  import opened Visitor
  import opened Encoding
  import opened RoundTrip
  import opened Segments
  import opened TraceDecoder
  import T = Telemetry

  // ----- `decode_events_ref` -----

  function DecodeOne(e: RawEvent): Option<T.TelemetryEvent> {
    T.DecodeNamed(e.name, e.timestamp, ContentsOf(e.fields))
  }

  /** Events that are not understood are left out. */
  function Understood(events: seq<RawEvent>): seq<T.TelemetryEvent> {
    if events == [] then []
    else
      var first := DecodeOne(events[0]);
      (if first.Some? then [first.value] else []) + Understood(events[1..])
  }

  /** All or nothing: a stream that does not decode to its end is an error. */
  function DecodeEvents(data: Bytes): Option<seq<T.TelemetryEvent>> {
    var v := ForEachEvent(data);
    if v.Some? && v.value.end == AllConsumed then Some(Understood(v.value.events)) else None
  }

  method DecodeEventsRef(data: Bytes) returns (r: Option<seq<T.TelemetryEvent>>)
    ensures r == DecodeEvents(data)
  {
    hide VisitAll, DecodeOne, DecodeHeader;
    if DecodeHeader(data).None? {
      return None;
    }
    var dec := new Decoder(data);
    var events, end := dec.TryForEachEvent(AcceptAll());
    if end != AllConsumed {
      return None;
    }
    var out := [];
    assert events[0..] == events;
    for i := 0 to |events|
      invariant out + Understood(events[i..]) == Understood(events)
    {
      assert events[i..][1..] == events[i + 1..];
      var one := DecodeOne(events[i]);
      if one.Some? {
        assert out + ([one.value] + Understood(events[i + 1..])) == (out + [one.value]) + Understood(events[i + 1..]);
        out := out + [one.value];
      } else {
        assert [] + Understood(events[i + 1..]) == Understood(events[i + 1..]);
      }
    }
    assert out + [] == out;
    return Some(out);
  }

  // ----- what a segment decodes to -----

  lemma {:induction false} ReadableKept(log: seq<Decoded<FieldValue>>)
    ensures KeepEvents(ReadableAll(log)) == ReadableAll(KeepEvents(log))
  {
    hide ReadableValues;
    if log == [] {
      assert ReadableAll([]) == [];
    } else {
      ReadableKept(log[1..]);
      assert log == [log[0]] + log[1..];
      ReadableCons(log[0], log[1..]);
      if log[0].EventSeen? {
        ReadableCons(log[0], KeepEvents(log[1..]));
        assert ([ReadableDecoded(log[0])] + ReadableAll(log[1..]))[1..] == ReadableAll(log[1..]);
      } else {
        assert ([ReadableDecoded(log[0])] + ReadableAll(log[1..]))[1..] == ReadableAll(log[1..]);
      }
    }
  }

  lemma ReadableCons(f: Decoded<FieldValue>, fs: seq<Decoded<FieldValue>>)
    ensures ReadableAll([f] + fs) == [ReadableDecoded(f)] + ReadableAll(fs)
  {
    hide ReadableDecoded;
  }

  lemma {:induction false} ShownEach(events: seq<RawEvent>)
    ensures |ShownAll(events)| == |events|
    ensures forall i :: 0 <= i < |events| ==> ShownAll(events)[i] == Shown(events[i])
  {
    hide Shown;
    if events != [] {
      ShownEach(events[1..]);
    }
  }

  lemma {:induction false} UnderstoodEach(events: seq<RawEvent>)
    requires forall e :: e in events ==> DecodeOne(e).Some?
    ensures |Understood(events)| == |events|
    ensures forall i :: 0 <= i < |events| ==> DecodeOne(events[i]) == Some(Understood(events)[i])
  {
    hide DecodeOne;
    if events != [] {
      UnderstoodEach(events[1..]);
    }
  }

  function AsSeq<E>(x: Option<E>): seq<E> {
    match x
    case None => []
    case Some(e) => [e]
  }

  lemma UnderstoodFirst(events: seq<RawEvent>)
    requires events != []
    ensures Understood(events) == AsSeq(DecodeOne(events[0])) + Understood(events[1..])
  {
    hide DecodeOne;
  }

  /** Each event adds what it decodes to, or nothing, whatever came before it: one that is not
      understood takes no other with it. */
  lemma {:induction false} UnderstoodLast(events: seq<RawEvent>, e: RawEvent)
    ensures Understood([]) == []
    ensures Understood(events + [e]) == Understood(events) + AsSeq(DecodeOne(e))
  {
    NothingUnderstood();
    hide DecodeOne, AsSeq, Understood;
    var more := events + [e];
    UnderstoodFirst(more);
    if events == [] {
      assert more[1..] == [] && more[0] == e;
    } else {
      assert more[1..] == events[1..] + [e] && more[0] == events[0];
      UnderstoodFirst(events);
      UnderstoodLast(events[1..], e);
    }
  }

  lemma NothingUnderstood()
    ensures Understood([]) == []
  {
  }

  /** No runtime event carries a string map, so all of its values are shown. */
  lemma RawReadable(ev: T.RawEvent, id: u32)
    ensures ReadableValues(T.ValuesOf(ev, id)) == T.ValuesOf(ev, id)
  {
    hide T.KindOfRaw;
    match ev
    case PollStart(_, _, _, _, _) => case PollEnd(_, _) => case WorkerPark(_, _, _, _) =>
    case WorkerUnpark(_, _, _, _, _) => case QueueSample(_, _) => case TaskSpawn(_, _, _) =>
    case TaskTerminate(_, _) => case WakeEvent(_, _, _, _) => case CpuSample(_, _, _, _, _, _) =>
  }

  lemma RawDecodes(e: EncState, f: Decoded<FieldValue>, ev: T.RawEvent, seen: RawEvent)
    requires FrameOf(e, f, ev) && Shown(seen) == ReadableDecoded(f)
    requires e.registry[f.typeId].name == seen.name
    ensures DecodeOne(seen) == Some(T.Expected(ev, IdFor(e, ev)))
  {
    hide T.ValuesOf, T.KindFields, T.EventName, ContentsOf, ReadableValues;
    RawReadable(ev, IdFor(e, ev));
    T.EventRoundTrip(ev, IdFor(e, ev));
  }

  lemma MetaDecodes(e: EncState, f: Decoded<FieldValue>, meta: Meta, seen: RawEvent)
    requires MetaFrameOf(e, f, meta) && MetaOk(meta) && Shown(seen) == ReadableDecoded(f)
    requires e.registry[f.typeId].name == seen.name
    ensures DecodeOne(seen) == Some(T.SegmentMetadata(meta.timestamp, meta.entries))
  {
    hide T.KindFields, T.EventName, ContentsOf, ValidUtf8, T.KindOfName, TextPairs;
    AllTextReadable(meta.entries);
    T.KindByName(T.MetadataKind);
    assert ReadableValues([MapValue(meta.entries)]) == [MapValue(meta.entries)];
  }

  /** The reader's events are the writer's: the metadata first, then every event in order with
      its depth modulo 256, and its string found under its id in the segment's own pool. */
  ghost predicate DecodesTo(data: Bytes, meta: Meta, events: seq<T.RawEvent>) {
    && DecodeEvents(data).Some? && DecodeAll(data).Some?
    && var out, pool := DecodeEvents(data).value, DecodeAll(data).value.state.pool;
    && |out| == 1 + |events|
    && out[0] == T.SegmentMetadata(meta.timestamp, meta.entries)
    && forall i :: 0 <= i < |events| ==> Resolves(pool, events[i], out[1 + i])
  }

  predicate Names(pool: map<u32, Text>, id: u32, s: Text) {
    id in pool && pool[id] == s
  }

  /** What the reader is to get for each event, field by field. */
  predicate Resolves(pool: map<u32, Text>, ev: T.RawEvent, got: T.TelemetryEvent) {
    match ev
    case PollStart(ts, worker, depth, task, location) =>
      got.PollStarted? && got == T.PollStarted(ts, worker, depth % 256, task, got.spawnLoc)
      && Names(pool, got.spawnLoc, location.shown)
    case PollEnd(ts, worker) => got == T.PollEnded(ts, worker)
    case WorkerPark(ts, worker, depth, cpuTime) => got == T.WorkerParked(ts, worker, depth % 256, cpuTime)
    case WorkerUnpark(ts, worker, depth, cpuTime, schedWait) =>
      got == T.WorkerUnparked(ts, worker, depth % 256, cpuTime, schedWait)
    case QueueSample(ts, depth) => got == T.QueueSampled(ts, depth % 256)
    case TaskSpawn(ts, task, location) =>
      got.TaskSpawned? && got == T.TaskSpawned(ts, task, got.spawnLoc) && Names(pool, got.spawnLoc, location.shown)
    case TaskTerminate(ts, task) => got == T.TaskTerminated(ts, task)
    case WakeEvent(ts, waker, woken, target) => got == T.Woken(ts, waker, woken, target)
    case CpuSample(ts, worker, tid, source, threadName, callchain) =>
      got.CpuSampled? && got == T.CpuSampled(ts, worker, tid, source, got.threadName, callchain)
      && Names(pool, got.threadName, if threadName.Some? then threadName.value else Ascii("<no thread name>"))
  }

  lemma ExpectedResolves(pool: map<u32, Text>, ev: T.RawEvent, id: u32)
    requires T.Interned(ev).Some? ==> Names(pool, id, T.Interned(ev).value)
    ensures Resolves(pool, ev, T.Expected(ev, id))
  {
    hide Ascii;
    match ev
    case PollStart(_, _, _, _, _) => case PollEnd(_, _) => case WorkerPark(_, _, _, _) =>
    case WorkerUnpark(_, _, _, _, _) => case QueueSample(_, _) => case TaskSpawn(_, _, _) =>
    case TaskTerminate(_, _) => case WakeEvent(_, _, _, _) => case CpuSample(_, _, _, _, _, _) =>
  }

  lemma OkDecodes(s: Session, meta: Meta, events: seq<T.RawEvent>)
    requires SegmentOk(s, meta, events) && MetaOk(meta)
    ensures DecodesTo(s.current.bytes, meta, events)
  {
    hide DecodeOne, Run, VisitAll, RunRef, T.Interned, T.Expected, Resolves, MetaFrameOf, FrameOf, KnownTypes,
         IdFor, Shown, ReadableDecoded, MetaOk, SessionPlain, SessionOk, Exact;
    var data := s.current.bytes;
    SegmentReads(s);
    var v := ForEachEvent(data).value;
    var log := KeepEvents(s.current.log);
    ReadableKept(s.current.log);
    ShownEach(v.events);
    assert |v.events| == |log|;
    forall i | 0 <= i < |v.events|
      ensures Shown(v.events[i]) == ReadableDecoded(log[i])
    {
    }
    FramesDecode(s.enc, log, meta, events, v.events);
    UnderstoodEach(v.events);
    forall i | 0 <= i < |events|
      ensures Resolves(DecodeAll(data).value.state.pool, events[i], Understood(v.events)[1 + i])
    {
      assert DecodeOne(v.events[1 + i]) == Some(T.Expected(events[i], IdFor(s.enc, events[i])));
      StringResolves(s, log[1 + i], events[i]);
      ExpectedResolves(DecodeAll(data).value.state.pool, events[i], IdFor(s.enc, events[i]));
    }
  }

  lemma SegmentReads(s: Session)
    requires SessionOk(s) && SessionPlain(s)
    ensures ReadsBackBorrowed(s.current)
    ensures DecodeAll(s.current.bytes).value.state.registry == s.enc.registry
  {
    hide Plain, Run, RunRef, VisitAll, DecodeAll;
    SessionOkReads(s);
    PlainReadsBorrowed(s.current);
  }

  lemma SessionOkReads(s: Session)
    requires SessionOk(s)
    ensures ReadsBack(s.current)
    ensures DecodeAll(s.current.bytes).value.state.registry == s.enc.registry
    ensures forall t :: t in s.enc.pool ==>
              s.enc.pool[t] in DecodeAll(s.current.bytes).value.state.pool
              && DecodeAll(s.current.bytes).value.state.pool[s.enc.pool[t]] == t
  {
    hide Run;
  }

  lemma StringResolves(s: Session, f: Decoded<FieldValue>, ev: T.RawEvent)
    requires SessionOk(s) && FrameOf(s.enc, f, ev) && DecodeAll(s.current.bytes).Some?
    ensures T.Interned(ev).Some? ==>
              var pool := DecodeAll(s.current.bytes).value.state.pool;
              IdFor(s.enc, ev) in pool && pool[IdFor(s.enc, ev)] == T.Interned(ev).value
  {
    hide T.ValuesOf, T.KindDef, T.Interned, SessionOk, DecodeAll;
    SessionOkReads(s);
  }

  lemma FramesDecode(e: EncState, log: seq<Decoded<FieldValue>>, meta: Meta, events: seq<T.RawEvent>,
                     seen: seq<RawEvent>)
    requires LogOf(e, log, meta, events) && MetaOk(meta) && |seen| == |log|
    requires forall i :: 0 <= i < |seen| ==> Shown(seen[i]) == ReadableDecoded(log[i])
    requires NamedBy(seen, e.registry)
    ensures DecodeOne(seen[0]) == Some(T.SegmentMetadata(meta.timestamp, meta.entries))
    ensures forall i :: 0 <= i < |events| ==>
              DecodeOne(seen[1 + i]) == Some(T.Expected(events[i], IdFor(e, events[i])))
    ensures forall x :: x in seen ==> DecodeOne(x).Some?
  {
    hide DecodeOne, T.Expected, MetaFrameOf, FrameOf, MetaOk, ContentsOf, ReadableValues, IdFor;
    TypeIds(log[0], seen[0]);
    assert seen[0] in seen;
    MetaDecodes(e, log[0], meta, seen[0]);
    forall i | 0 <= i < |events|
      ensures DecodeOne(seen[1 + i]) == Some(T.Expected(events[i], IdFor(e, events[i])))
    {
      assert seen[1 + i] in seen && FrameOf(e, log[1 + i], events[i]);
      TypeIds(log[1 + i], seen[1 + i]);
      RawDecodes(e, log[1 + i], events[i], seen[1 + i]);
    }
    forall x | x in seen
      ensures DecodeOne(x).Some?
    {
      var j :| 0 <= j < |seen| && seen[j] == x;
      if j > 0 {
        var i := j - 1;
        assert seen[1 + i] == x && 0 <= i < |events|;
        assert DecodeOne(seen[1 + i]) == Some(T.Expected(events[i], IdFor(e, events[i])));
      }
    }
  }

  lemma TypeIds(f: Decoded<FieldValue>, seen: RawEvent)
    requires Shown(seen) == ReadableDecoded(f)
    ensures f.EventSeen? && f.typeId == seen.typeId
  {
    hide ContentsOf, ReadableValues;
  }

  /** A segment decodes on its own, from its first byte, to exactly the events written to it. */
  lemma SegmentDecodesAlone(meta: Meta, events: seq<T.RawEvent>)
    requires SegmentWritable(meta, events)
    ensures DecodesTo(Segment(meta, events).current.bytes, meta, events)
  {
    hide SegmentOk, DecodesTo, Segment;
    SegmentHolds(meta, events);
    WritableMeta(meta, events);
    OkDecodes(Segment(meta, events), meta, events);
  }

  lemma {:induction false} WritableMeta(meta: Meta, events: seq<T.RawEvent>)
    requires SegmentWritable(meta, events)
    ensures MetaOk(meta)
    decreases |events|
  {
    hide MetaOk, Writable, Segment;
    if events != [] {
      WritableMeta(meta, events[..|events| - 1]);
    }
  }

  // ----- `parse_segment_timestamp` -----

  datatype TimestampError =
    | InvalidHeader
    | UnknownTypeId(id: u16)
    | MissingTimestamp
    | NotFoundInFirst10Events
    | EndOfStream(eventsSeen: nat)
    | DecodeFailure
    | ReaderPanic

  function ParseFrom(st: DecState, d: Bytes, seen: nat): Result<u64, TimestampError>
    decreases |d|
  {
    match NextRef(st, d)
    case NoMore(_, _) => Err(EndOfStream(seen))
    case Broken(_, _) => Err(DecodeFailure)
    case Crash(_, _) => Err(ReaderPanic)
    case Found(frame, st1, rest) =>
      match frame
      case SchemaSeen(_) => ParseFrom(st1, rest, seen)
      case PoolSeen(_) => ParseFrom(st1, rest, seen)
      case EventSeen(id, ts, _) =>
        if id !in st1.registry then Err(UnknownTypeId(id))
        else if st1.registry[id].name == T.EventName(T.MetadataKind) then
          if ts.Some? then Ok(ts.value) else Err(MissingTimestamp)
        else if seen + 1 >= 10 then Err(NotFoundInFirst10Events)
        else ParseFrom(st1, rest, seen + 1)
  }

  function ParseSegmentTimestamp(data: Bytes): Result<u64, TimestampError> {
    if DecodeHeader(data).None? then Err(InvalidHeader) else ParseFrom(Fresh, data[HEADER_SIZE..], 0)
  }

  method ParseTimestamp(data: Bytes) returns (r: Result<u64, TimestampError>)
    ensures r == ParseSegmentTimestamp(data)
  {
    hide NextRef, T.EventName, DecodeHeader, CacheMap;
    if DecodeHeader(data).None? {
      return Err(InvalidHeader);
    }
    var dec := new Decoder(data);
    var seen := 0;
    while true
      invariant dec.Valid() && fresh(dec) && fresh(dec.registry)
      invariant ParseFrom(dec.State(), dec.Remaining(), seen) == ParseSegmentTimestamp(data)
      decreases |dec.data| - dec.pos
    {
      var next, crashed := dec.NextFrameRef();
      if crashed {
        return Err(ReaderPanic);
      }
      if next.Err? {
        return Err(DecodeFailure);
      }
      if next.value.None? {
        return Err(EndOfStream(seen));
      }
      var frame := next.value.value;
      if frame.EventSeen? {
        var schema := dec.registry.Get(frame.typeId);
        if schema.None? {
          return Err(UnknownTypeId(frame.typeId));
        }
        if schema.value.name == T.EventName(T.MetadataKind) {
          return if frame.timestamp.Some? then Ok(frame.timestamp.value) else Err(MissingTimestamp);
        }
        seen := seen + 1;
        if seen >= 10 {
          return Err(NotFoundInFirst10Events);
        }
      }
    }
  }

  predicate IsMetadata(registry: map<u16, SchemaEntry>, e: Decoded<FieldValue>) {
    e.EventSeen? && e.typeId in registry && registry[e.typeId].name == Ascii("SegmentMetadataEvent")
  }

  predicate NoneIsMetadata(registry: map<u16, SchemaEntry>, events: seq<Decoded<FieldValue>>) {
    forall i :: 0 <= i < |events| ==> !IsMetadata(registry, events[i])
  }

  /** What the search answers for a stream with these events, `seen` of the first ten being behind
      it: the timestamp of the first metadata event among those left of the ten; otherwise whether
      there were ten at all. */
  ghost predicate SearchGives(r: Result<u64, TimestampError>, registry: map<u16, SchemaEntry>,
                              events: seq<Decoded<FieldValue>>, seen: nat)
    requires seen < 10
  {
    && (forall k: nat ::
          k < |events| && seen + k < 10 && IsMetadata(registry, events[k]) && NoneIsMetadata(registry, events[..k]) ==>
            r == if events[k].timestamp.Some? then Ok(events[k].timestamp.value) else Err(MissingTimestamp))
    && (seen + |events| >= 10 && NoneIsMetadata(registry, events[..10 - seen]) ==> r == Err(NotFoundInFirst10Events))
    && (seen + |events| < 10 && NoneIsMetadata(registry, events) ==> r == Err(EndOfStream(seen + |events|)))
  }

  lemma SearchFirst(r: Result<u64, TimestampError>, registry: map<u16, SchemaEntry>,
                    events: seq<Decoded<FieldValue>>, seen: nat)
    requires seen < 10 && events != [] && events[0].EventSeen?
    requires if IsMetadata(registry, events[0]) then
               r == if events[0].timestamp.Some? then Ok(events[0].timestamp.value) else Err(MissingTimestamp)
             else if seen + 1 >= 10 then r == Err(NotFoundInFirst10Events)
             else SearchGives(r, registry, events[1..], seen + 1)
    ensures SearchGives(r, registry, events, seen)
  {
    hide IsMetadata;
    var rest := events[1..];
    forall k: nat | 0 < k < |events| && NoneIsMetadata(registry, events[..k])
      ensures !IsMetadata(registry, events[0]) && NoneIsMetadata(registry, rest[..k - 1]) && rest[k - 1] == events[k]
    {
      assert events[..k][0] == events[0];
      assert rest[..k - 1] == events[..k][1..];
    }
    if seen + |events| >= 10 && NoneIsMetadata(registry, events[..10 - seen]) {
      assert events[..10 - seen][0] == events[0];
      if seen + 1 < 10 {
        assert rest[..9 - seen] == events[..10 - seen][1..];
      }
    }
    if NoneIsMetadata(registry, events) {
      assert forall i :: 0 <= i < |rest| ==> rest[i] == events[i + 1];
    }
  }

  /** One frame of the search. */
  lemma ParseTurn(st: DecState, d: Bytes, seen: nat)
    ensures match RefStep(st, d)
            case End => ParseFrom(st, d, seen) == Err(EndOfStream(seen))
            case Silent(st1, rest) => ParseFrom(st, d, seen) == ParseFrom(st1, rest, seen)
            case Emit(f, st1, rest) =>
              ParseFrom(st, d, seen)
              == if !f.EventSeen? then ParseFrom(st1, rest, seen)
                 else if f.typeId !in st1.registry then Err(UnknownTypeId(f.typeId))
                 else if st1.registry[f.typeId].name == T.EventName(T.MetadataKind) then
                   if f.timestamp.Some? then Ok(f.timestamp.value) else Err(MissingTimestamp)
                 else if seen + 1 >= 10 then Err(NotFoundInFirst10Events)
                 else ParseFrom(st1, rest, seen + 1)
            case _ => true
  {
    hide RefStep, Ascii;
  }

  /** On any plain stream the search answers by the first ten events. */
  lemma {:induction false} ParseExactly(st: DecState, d: Bytes, seen: nat)
    requires PlainRun(st, d) && Run(st, d).ending == Stopped && CacheAgrees(st) && seen < 10
    ensures SearchGives(ParseFrom(st, d, seen), Run(st, d).state.registry, KeepEvents(Run(st, d).frames), seen)
    decreases |d|
  {
    hide DecodeFrame, DecodeFrameRef, FrameAlike, BorrowableFrame, DecodeHeader, Ascii, ContentsOf, ReadableValues,
         SearchGives, ParseFrom, PlainRun;
    SearchEnds(st.registry, seen);
    ParseTurn(st, d, seen);
    if d == [] {
      EmptyStep(st, d);
    } else {
      PlainStep(st, d);
      StepsAgree(st, d);
      StepKeepsCache(st, d);
      EventTypeKnown(st, d);
      hide OwnedStep, RefStep, CacheAgrees, Run, KeepEvents;
      RunTurn(st, d);
      match OwnedStep(st, d)
      case Silent(st1, rest) =>
        ParseExactly(st1, rest, seen);
      case Emit(g, st1, rest) =>
        var later := Run(st1, rest);
        if seen + 1 < 10 || !g.EventSeen? {
          ParseExactly(st1, rest, if g.EventSeen? then seen + 1 else seen);
        }
        KeepFirst(g, later.frames);
        if g.EventSeen? {
          RegistryGrows(st1, rest, g.typeId);
          ParseEvent(st, d, seen, g, later);
        }
      case _ =>
    }
  }

  lemma PlainStep(st: DecState, d: Bytes)
    requires PlainRun(st, d) && d != []
    ensures DecodeHeader(d).None? && BorrowableFrame(d, st.cache, st.base)
    ensures OwnedStep(st, d).Silent? || OwnedStep(st, d).Emit? ==>
              PlainRun(OwnedStep(st, d).state, OwnedStep(st, d).rest)
  {
    hide OwnedStep, BorrowableFrame, DecodeHeader;
  }

  lemma RunTurn(st: DecState, d: Bytes)
    ensures match OwnedStep(st, d)
            case Silent(st1, rest) => Run(st, d) == Run(st1, rest)
            case Emit(f, st1, rest) => Run(st, d) == (var later := Run(st1, rest); later.(frames := [f] + later.frames))
            case End => Run(st, d) == Trace([], st, d, Stopped)
            case _ => Run(st, d).ending != Stopped
  {
    hide OwnedStep;
  }

  lemma KeepFirst(f: Decoded<FieldValue>, frames: seq<Decoded<FieldValue>>)
    ensures KeepEvents([]) == []
    ensures KeepEvents([f] + frames) == if f.EventSeen? then [f] + KeepEvents(frames) else KeepEvents(frames)
  {
    assert ([f] + frames)[1..] == frames;
  }

  /** One event of the search. */
  lemma ParseEvent(st: DecState, d: Bytes, seen: nat, f: Decoded<FieldValue>, later: Trace<FieldValue>)
    requires RefStep(st, d).Emit? && RefStep(st, d).frame.EventSeen? && f.EventSeen? && seen < 10
    requires var r, registry := RefStep(st, d).frame, RefStep(st, d).state.registry;
             && r.typeId == f.typeId && r.timestamp == f.timestamp && f.typeId in registry
             && f.typeId in later.state.registry && later.state.registry[f.typeId] == registry[f.typeId]
    requires seen + 1 < 10 ==>
               SearchGives(ParseFrom(RefStep(st, d).state, RefStep(st, d).rest, seen + 1), later.state.registry,
                           KeepEvents(later.frames), seen + 1)
    ensures SearchGives(ParseFrom(st, d, seen), later.state.registry, [f] + KeepEvents(later.frames), seen)
  {
    hide RefStep, ParseFrom, SearchGives, KeepEvents, Ascii;
    ParseTurn(st, d, seen);
    assert ([f] + KeepEvents(later.frames))[1..] == KeepEvents(later.frames);
    SearchFirst(ParseFrom(st, d, seen), later.state.registry, [f] + KeepEvents(later.frames), seen);
  }

  /** In a plain stream an event's type is registered, and the two decoders show it alike. */
  lemma EventTypeKnown(st: DecState, d: Bytes)
    requires d != [] && DecodeHeader(d).None? && CacheAgrees(st) && SameSteps(OwnedStep(st, d), RefStep(st, d))
    ensures OwnedStep(st, d).Emit? ==>
              var f, r := OwnedStep(st, d).frame, RefStep(st, d).frame;
              && RefStep(st, d).Emit? && (f.EventSeen? <==> r.EventSeen?)
              && (f.EventSeen? ==>
                    f.typeId == r.typeId && f.timestamp == r.timestamp
                    && f.typeId in OwnedStep(st, d).state.registry)
  {
    hide DecodeFrame, DecodeFrameRef, DecodeHeader, ContentsOf, ReadableValues;
    StepKeepsCache(st, d);
    if OwnedStep(st, d).Emit? && OwnedStep(st, d).frame.EventSeen? {
      EventIsKnown(st, d);
    }
  }

  lemma SearchEnds(registry: map<u16, SchemaEntry>, seen: nat)
    requires seen < 10
    ensures SearchGives(Err(EndOfStream(seen)), registry, [], seen)
  {
  }

  /** The timestamp a segment announces is the one its metadata event was written with. */
  lemma SegmentTimestampFound(meta: Meta, events: seq<T.RawEvent>)
    requires SegmentWritable(meta, events)
    ensures ParseSegmentTimestamp(Segment(meta, events).current.bytes) == Ok(meta.timestamp)
  {
    hide SegmentOk, Segment;
    SegmentHolds(meta, events);
    OkTimestamp(Segment(meta, events), meta, events);
  }

  lemma OkTimestamp(s: Session, meta: Meta, events: seq<T.RawEvent>)
    requires SegmentOk(s, meta, events)
    ensures ParseSegmentTimestamp(s.current.bytes) == Ok(meta.timestamp)
  {
    hide Run, PlainRun, SessionOk, KnownTypes, T.KindFields, FrameOf, ParseFrom, Ascii;
    SessionOkReads(s);
    ParseExactly(Fresh, s.current.bytes[HEADER_SIZE..], 0);
    var log := KeepEvents(s.current.log);
    assert IsMetadata(s.enc.registry, log[0]) && NoneIsMetadata(s.enc.registry, log[..0]);
  }
}
