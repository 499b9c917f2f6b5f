/** The visitor (`try_for_each_event`): an inlined fast path over the zero-copy decoder, proved
    against iterating `next_frame_ref` and keeping the events
    (dial9-trace-format/src/decoder.rs:379-496 against 291-344). */
module Visitor {
  import opened Wire
  import opened Wrappers
  import opened Utf8
  import opened Types
  import opened ZeroCopy
  import opened Schema
  import opened Codec
  import opened Decoding

  /** What the callback is shown: the event, its schema's name, and the pool at that point. */
  datatype RawEvent = RawEvent(typeId: u16, name: Text, timestamp: Option<u64>,
                               fields: seq<FieldValueRef>, pool: map<u32, Text>)

  /** The callback: false stands for an error of the caller's own. */
  type Callback = RawEvent -> bool

  datatype VisitEnd = AllConsumed | DecodeFailed | SchemaConflict | CallbackStopped | VisitPanicked

  datatype Visit = Visit(events: seq<RawEvent>, state: DecState, rest: Bytes, end: VisitEnd)

  // ----- the reference: frames, one by one -----

  function Iterate(st: DecState, d: Bytes, f: Callback): Visit
    decreases |d|
  {
    match RefStep(st, d)
    case End => Visit([], st, d, if d == [] then AllConsumed else DecodeFailed)
    case Panic => Visit([], st, d, VisitPanicked)
    case Silent(st1, rest) => Iterate(st1, rest, f)
    case Conflict(st1, rest) => Visit([], st1, rest, SchemaConflict)
    case Emit(frame, st1, rest) =>
      if !frame.EventSeen? then Iterate(st1, rest, f)
      else
        EventIsKnown(st, d);
        var event := EventOf(frame, st1);
        if !f(event) then Visit([event], st1, rest, CallbackStopped)
        else var v := Iterate(st1, rest, f); v.(events := [event] + v.events)
  }

  lemma EventIsKnown(st: DecState, d: Bytes)
    requires RefStep(st, d).Emit? && RefStep(st, d).frame.EventSeen?
    ensures RefStep(st, d).frame.typeId in RefStep(st, d).state.cache
  {
    hide TakeValuesRef, TakeSchema, TakePool, TakeU64, AddEntries, InfoOf, DecodeHeader;
  }

  function EventOf(frame: Decoded<FieldValueRef>, st: DecState): RawEvent
    requires frame.EventSeen? && frame.typeId in st.cache
  {
    RawEvent(frame.typeId, st.cache[frame.typeId].name, frame.timestamp, frame.values, st.pool)
  }

  // ----- the fast path -----

  datatype FastEvent =
    | Truncated
    | FastPanic
    | Fast(event: RawEvent, base: u64, rest: Bytes)

  /** The inlined event frame. The sum of base and delta is not checked: it wraps. */
  function TakeFast(st: DecState, d: Bytes): (e: FastEvent)
    requires d != []
    ensures e.Fast? ==> |e.rest| < |d|
  {
    var id := TakeU16(d[1..]);
    if id.NoParse? || id.value !in st.cache then Truncated else
    var info := st.cache[id.value];
    var delta := TakeU24(id.rest);
    if info.hasTimestamp && delta.NoParse? then Truncated else
    var ts := if info.hasTimestamp then Some((st.base + delta.value) % TWO_64) else None;
    var body := if info.hasTimestamp then delta.rest else id.rest;
    ValuesRefNoLonger(info.fieldTypes, body);
    match TakeValuesRef(info.fieldTypes, body)
    case Missing => Truncated
    case Panicked => FastPanic
    case Borrowed(values, rest) =>
      Fast(RawEvent(id.value, info.name, ts, values, st.pool), if ts.Some? then ts.value else st.base, rest)
  }

  lemma {:induction false} ValuesRefNoLonger(types: seq<FieldType>, d: Bytes)
    ensures TakeValuesRef(types, d).Borrowed? ==> |TakeValuesRef(types, d).rest| <= |d|
  {
    hide Borrowable, DecodeRef, TakeValuesRef;
    ValuesAgree(types, d);
  }

  function VisitAll(st: DecState, d: Bytes, f: Callback): Visit
    decreases |d|
  {
    if d == [] then Visit([], st, d, AllConsumed)
    else if d[0] == TAG_EVENT then
      (match TakeFast(st, d)
       case Truncated => Visit([], st, d, DecodeFailed)
       case FastPanic => Visit([], st, d, VisitPanicked)
       case Fast(event, base, rest) =>
         var st1 := st.(base := base);
         if !f(event) then Visit([event], st1, rest, CallbackStopped)
         else var v := VisitAll(st1, rest, f); v.(events := [event] + v.events))
    else if d[0] == TAG_TIMESTAMP_RESET then
      var ts := TakeU64(d[1..]);
      if ts.NoParse? then Visit([], st, d, DecodeFailed)
      else VisitAll(st.(base := ts.value), ts.rest, f)
    else
      match RefStep(st, d)
      case End => Visit([], st, d, DecodeFailed)
      case Panic => Visit([], st, d, VisitPanicked)
      case Silent(st1, rest) => VisitAll(st1, rest, f)
      case Conflict(st1, rest) => Visit([], st1, rest, SchemaConflict)
      case Emit(_, st1, rest) => VisitAll(st1, rest, f)
  }

  /** The next frame is an event whose timestamp sum does not fit a u64 and whose values are
      there to be decoded: the frame decoder's `checked_add` refuses it. */
  predicate OverflowsAt(st: DecState, d: Bytes) {
    d != [] && d[0] == TAG_EVENT &&
    var id := TakeU16(d[1..]);
    id.Parsed? && id.value in st.cache && st.cache[id.value].hasTimestamp &&
    var delta := TakeU24(id.rest);
    delta.Parsed? && st.base + delta.value >= TWO_64 &&
    !TakeValuesRef(st.cache[id.value].fieldTypes, delta.rest).Missing?
  }

  /** On an event frame the fast path does what one zero-copy step does, or meets an overflow
      where that step ends. */
  lemma FastStep(st: DecState, d: Bytes)
    requires d != [] && d[0] == TAG_EVENT
    ensures OverflowsAt(st, d) ==> RefStep(st, d).End? && !TakeFast(st, d).Truncated?
    ensures !OverflowsAt(st, d) ==>
              match TakeFast(st, d)
              case Truncated => RefStep(st, d).End?
              case FastPanic => RefStep(st, d).Panic?
              case Fast(event, base, rest) =>
                && RefStep(st, d).Emit? && RefStep(st, d).frame.EventSeen?
                && RefStep(st, d).state == st.(base := base) && RefStep(st, d).rest == rest
                && RefStep(st, d).frame.typeId in st.cache
                && EventOf(RefStep(st, d).frame, RefStep(st, d).state) == event
  {
    hide TakeU16, TakeU24, TakeValuesRef, TakeOther, AddEntries;
    NoHeader(d);
    if TakeU16(d[1..]).Parsed? {
      SmallSum(st.base, TakeU24(TakeU16(d[1..]).rest));
    }
  }

  /** An event one past the last moment a u64 can tell: the visitor delivers it with timestamp 0,
      the iteration fails. */
  lemma OverflowDiffers()
    ensures var st :=
              DecState(map[7 := SchemaEntry([], true, [])], map[7 := SchemaInfo([], [], true)], map[], TWO_64 - 1);
            var d := [TAG_EVENT, 7, 0, 1, 0, 0];
            && OverflowsAt(st, d) && Iterate(st, d, AcceptAll()).end == DecodeFailed
            && VisitAll(st, d, AcceptAll())
               == Visit([RawEvent(7, [], Some(0), [], map[])], st.(base := 0), [], AllConsumed)
  {
    hide FromLE;
    var st := DecState(map[7 := SchemaEntry([], true, [])], map[7 := SchemaInfo([], [], true)], map[], TWO_64 - 1);
    var d: Bytes := [TAG_EVENT, 7, 0, 1, 0, 0];
    SmallLE2(d[1..]);
    assert TakeU16(d[1..]) == Parsed(7, d[1..][2..]);
    SmallLE3(d[1..][2..]);
    assert TakeU24(d[1..][2..]) == Parsed(1, []);
    ModUnique(TWO_64, TWO_64, 1, 0);
    assert TakeFast(st, d) == Fast(RawEvent(7, [], Some(0), [], map[]), 0, []);
    FastStep(st, d);
    hide TakeFast, RefStep, OverflowsAt;
    assert VisitAll(st.(base := 0), [], AcceptAll()).events == [];
  }

  lemma SmallSum(base: u64, delta: Parsed<nat>)
    ensures delta.Parsed? && base + delta.value < TWO_64 ==> (base + delta.value) % TWO_64 == base + delta.value
  {
    if delta.Parsed? && base + delta.value < TWO_64 {
      ModUnique(base + delta.value, TWO_64, 0, base + delta.value);
    }
  }

  lemma ResetStep(st: DecState, d: Bytes)
    requires d != [] && d[0] == TAG_TIMESTAMP_RESET
    ensures RefStep(st, d)
            == (var ts := TakeU64(d[1..]); if ts.NoParse? then End else Silent(st.(base := ts.value), ts.rest))
  {
    hide TakeU64;
    NoHeader(d);
  }

  /** Frames of other kinds are not events. */
  lemma OtherStep(st: DecState, d: Bytes)
    requires d != [] && d[0] != TAG_EVENT
    ensures !RefStep(st, d).Panic? && !(RefStep(st, d).Emit? && RefStep(st, d).frame.EventSeen?)
    ensures !OverflowsAt(st, d)
  {
    hide TakeSchema, TakePool, TakeU64, AddEntries, InfoOf;
  }

  /** The iteration stopped at an overflowing event. */
  predicate OverflowMet(it: Visit) {
    it.end == DecodeFailed && OverflowsAt(it.state, it.rest)
  }

  /** Unless the frame decoder stops at an overflowing event, the visitor calls back on exactly
      the same events, stops at the same place for the same reason, and leaves the same state. */
  lemma {:induction false} VisitRefinesIterate(st: DecState, d: Bytes, f: Callback)
    ensures var it := Iterate(st, d, f);
            VisitAll(st, d, f) == it <==> !OverflowMet(it)
    decreases |d|
  {
    hide RefStep, TakeFast, OverflowsAt, EventOf;
    if d == [] {
      EmptyStep(st, d);
    } else if d[0] == TAG_EVENT {
      VisitEventCase(st, d, f);
    } else if d[0] == TAG_TIMESTAMP_RESET {
      ResetStep(st, d);
      OtherStep(st, d);
      var ts := TakeU64(d[1..]);
      if ts.Parsed? {
        VisitRefinesIterate(st.(base := ts.value), ts.rest, f);
      }
    } else {
      OtherStep(st, d);
      match RefStep(st, d)
      case Silent(st1, rest) => VisitRefinesIterate(st1, rest, f);
      case Emit(_, st1, rest) => VisitRefinesIterate(st1, rest, f);
      case _ =>
    }
  }

  lemma EmptyStep(st: DecState, d: Bytes)
    requires d == []
    ensures RefStep(st, d).End? && !OverflowsAt(st, d)
  {
  }

  lemma VisitEventCase(st: DecState, d: Bytes, f: Callback)
    requires d != [] && d[0] == TAG_EVENT
    ensures var it := Iterate(st, d, f);
            VisitAll(st, d, f) == it <==> !OverflowMet(it)
    decreases |d|, 0
  {
    hide RefStep, TakeFast, OverflowsAt, EventOf;
    FastStep(st, d);
    if !OverflowsAt(st, d) && TakeFast(st, d).Fast? {
      var fast := TakeFast(st, d);
      var st1 := st.(base := fast.base);
      if f(fast.event) {
        VisitRefinesIterate(st1, fast.rest, f);
        var v, it := VisitAll(st1, fast.rest, f), Iterate(st1, fast.rest, f);
        assert ([fast.event] + v.events)[1..] == v.events;
        assert ([fast.event] + it.events)[1..] == it.events;
      }
    }
  }

  /** The visitor reports success only when every byte was used. */
  lemma {:induction false} OkMeansConsumed(st: DecState, d: Bytes, f: Callback)
    ensures VisitAll(st, d, f).end == AllConsumed ==> VisitAll(st, d, f).rest == []
    decreases |d|
  {
    hide RefStep, TakeFast;
    if d != [] {
      if d[0] == TAG_EVENT {
        var fast := TakeFast(st, d);
        if fast.Fast? && f(fast.event) {
          OkMeansConsumed(st.(base := fast.base), fast.rest, f);
        }
      } else if d[0] == TAG_TIMESTAMP_RESET {
        var ts := TakeU64(d[1..]);
        if ts.Parsed? {
          OkMeansConsumed(st.(base := ts.value), ts.rest, f);
        }
      } else {
        match RefStep(st, d)
        case Silent(st1, rest) => OkMeansConsumed(st1, rest, f);
        case Emit(_, st1, rest) => OkMeansConsumed(st1, rest, f);
        case _ =>
      }
    }
  }

  // ----- the visitor on a whole stream -----

  function AcceptAll(): Callback { (_: RawEvent) => true }

  function KeepEvents(frames: seq<Decoded<FieldValue>>): seq<Decoded<FieldValue>> {
    if frames == [] then []
    else if frames[0].EventSeen? then [frames[0]] + KeepEvents(frames[1..])
    else KeepEvents(frames[1..])
  }

  /** A delivered event as the owned decoder would show it. */
  function Shown(e: RawEvent): Decoded<FieldValue> {
    EventSeen(e.typeId, e.timestamp, ContentsOf(e.fields))
  }

  function ShownAll(events: seq<RawEvent>): seq<Decoded<FieldValue>> {
    if events == [] then [] else [Shown(events[0])] + ShownAll(events[1..])
  }

  /** Each event came with the name its type has in `registry`. */
  ghost predicate NamedBy(events: seq<RawEvent>, registry: map<u16, SchemaEntry>) {
    forall e :: e in events ==> e.typeId in registry && registry[e.typeId].name == e.name
  }

  lemma {:induction false} IteratePlain(st: DecState, d: Bytes)
    requires PlainRun(st, d) && Run(st, d).Clean() && CacheAgrees(st)
    ensures var v := Iterate(st, d, AcceptAll());
            && v.end == AllConsumed && v.rest == [] && v.state == Run(st, d).state
            && ShownAll(v.events) == KeepEvents(ReadableAll(Run(st, d).frames))
            && NamedBy(v.events, Run(st, d).state.registry)
    decreases |d|
  {
    hide DecodeFrame, DecodeFrameRef, BorrowableFrame, DecodeHeader, InfoOf, AddEntries, ReadableDecoded, OwnedDecoded;
    if d == [] {
      assert ReadableAll([]) == [];
    } else {
      StepsAgree(st, d);
      StepKeepsCache(st, d);
      hide OwnedStep, RefStep;
      match OwnedStep(st, d)
      case Silent(st1, rest) => IteratePlain(st1, rest);
      case Emit(f, st1, rest) =>
        IteratePlain(st1, rest);
        ConsFrames(RefStep(st, d).frame, [], f, Run(st1, rest).frames);
        IterateEmit(st, d, f, Run(st1, rest).frames);
      case _ =>
    }
  }

  /** The frame at the front, seen by the iteration and by the owned run. */
  lemma IterateEmit(st: DecState, d: Bytes, f: Decoded<FieldValue>, later: seq<Decoded<FieldValue>>)
    requires RefStep(st, d).Emit? && OwnedDecoded(RefStep(st, d).frame) == ReadableDecoded(f)
    requires CacheAgrees(RefStep(st, d).state)
    requires PlainRun(RefStep(st, d).state, RefStep(st, d).rest)
    requires ReadableAll([f] + later) == [ReadableDecoded(f)] + ReadableAll(later)
    requires var v := Iterate(RefStep(st, d).state, RefStep(st, d).rest, AcceptAll());
             && ShownAll(v.events) == KeepEvents(ReadableAll(later))
             && NamedBy(v.events, Run(RefStep(st, d).state, RefStep(st, d).rest).state.registry)
    ensures var v := Iterate(st, d, AcceptAll());
            && ShownAll(v.events) == KeepEvents(ReadableAll([f] + later))
            && NamedBy(v.events, Run(RefStep(st, d).state, RefStep(st, d).rest).state.registry)
  {
    hide RefStep, Run, PlainRun, ReadableAll, ContentsOf, ReadableValues;
    var frame, st1, rest := RefStep(st, d).frame, RefStep(st, d).state, RefStep(st, d).rest;
    var v := Iterate(st1, rest, AcceptAll());
    if frame.EventSeen? {
      EventIsKnown(st, d);
      var event := EventOf(frame, st1);
      assert Shown(event) == ReadableDecoded(f);
      assert ([event] + v.events)[1..] == v.events;
      RegistryGrows(st1, rest, frame.typeId);
    }
  }

  /** On a stream that decodes to its end and that both decoders read alike, the visitor
      delivers exactly the stream's events, in order, each with its schema's name. */
  lemma VisitPlain(st: DecState, d: Bytes)
    requires PlainRun(st, d) && Run(st, d).Clean() && CacheAgrees(st)
    ensures var v := VisitAll(st, d, AcceptAll());
            && v.end == AllConsumed && v.rest == [] && v.state == Run(st, d).state
            && ShownAll(v.events) == KeepEvents(ReadableAll(Run(st, d).frames))
            && NamedBy(v.events, Run(st, d).state.registry)
  {
    hide PlainRun, Run, VisitAll, Iterate, OverflowsAt;
    IteratePlain(st, d);
    VisitRefinesIterate(st, d, AcceptAll());
  }

  // ----- the visitor and the owned decoder -----

  lemma OverflowEnds(st: DecState, d: Bytes)
    requires OverflowsAt(st, d)
    ensures OwnedStep(st, d).End? && d != []
  {
    hide TakeU16, TakeU24, TakeValuesRef, TakeValues, TakeOther, AddEntries;
    NoHeader(d);
  }

  /** An iteration that uses up its input saw what the owned decoder sees, and one that stops at an
      overflowing event stops where the owned decoder does. */
  lemma {:induction false} IterateIsRun(st: DecState, d: Bytes)
    ensures var it, run := Iterate(st, d, AcceptAll()), Run(st, d);
            && (it.end == AllConsumed ==>
                  run.Clean() && it.state == run.state && ShownAll(it.events) == KeepEvents(ReadableAll(run.frames)))
            && (OverflowMet(it) ==> !run.Clean())
    decreases |d|
  {
    hide DecodeFrame, DecodeFrameRef, FrameAlike, BorrowableFrame, DecodeHeader, OverflowsAt, ReadableDecoded,
         OwnedDecoded;
    if d == [] {
      assert ReadableAll([]) == [];
      EmptyStep(st, d);
    } else {
      StepsAgree(st, d);
      hide OwnedStep, RefStep;
      if OverflowsAt(st, d) {
        OverflowEnds(st, d);
      }
      match RefStep(st, d)
      case Silent(st1, rest) => IterateIsRun(st1, rest);
      case Emit(frame, st1, rest) =>
        IterateIsRun(st1, rest);
        var f, later := OwnedStep(st, d).frame, Run(st1, rest).frames;
        ConsFrames(frame, [], f, later);
        EmittedIsRun(st, d, f, later);
      case _ =>
    }
  }

  lemma EmittedIsRun(st: DecState, d: Bytes, f: Decoded<FieldValue>, later: seq<Decoded<FieldValue>>)
    requires RefStep(st, d).Emit? && OwnedDecoded(RefStep(st, d).frame) == ReadableDecoded(f)
    requires ReadableAll([f] + later) == [ReadableDecoded(f)] + ReadableAll(later)
    ensures var it := Iterate(st, d, AcceptAll());
            var rest := Iterate(RefStep(st, d).state, RefStep(st, d).rest, AcceptAll());
            && it.end == rest.end && it.state == rest.state && it.rest == rest.rest
            && (ShownAll(rest.events) == KeepEvents(ReadableAll(later)) ==>
                  ShownAll(it.events) == KeepEvents(ReadableAll([f] + later)))
  {
    hide RefStep, ReadableAll, ContentsOf, ReadableValues;
    var frame, st1 := RefStep(st, d).frame, RefStep(st, d).state;
    if frame.EventSeen? {
      EventIsKnown(st, d);
      var event := EventOf(frame, st1);
      assert Shown(event) == ReadableDecoded(f);
      var v := Iterate(st1, RefStep(st, d).rest, AcceptAll());
      assert ([event] + v.events)[1..] == v.events;
    }
  }

  /** A visit that uses up its input, whatever the input: unless it passed over an overflowing
      event, the owned decoder decodes to the end as well, to the same events and the same state. */
  lemma VisitedIsDecoded(st: DecState, d: Bytes)
    requires VisitAll(st, d, AcceptAll()).end == AllConsumed
    ensures var v, run := VisitAll(st, d, AcceptAll()), Run(st, d);
            && (run.Clean() <==> !OverflowMet(Iterate(st, d, AcceptAll())))
            && (run.Clean() ==>
                  v.state == run.state && ShownAll(v.events) == KeepEvents(ReadableAll(run.frames)))
  {
    hide Run, VisitAll, Iterate, OverflowsAt, ReadableAll;
    IterateIsRun(st, d);
    VisitRefinesIterate(st, d, AcceptAll());
  }

  // ----- a callback that stops, and the pool it is shown -----

  /** The visit ends at the first event that the callback refuses, if there is one. */
  ghost predicate CutBy(all: Visit, v: Visit, f: Callback) {
    if forall e :: e in all.events ==> f(e) then v == all
    else
      && v.end == CallbackStopped && 0 < |v.events| <= |all.events| && v.events == all.events[..|v.events|]
      && !f(v.events[|v.events| - 1]) && forall i :: 0 <= i < |v.events| - 1 ==> f(v.events[i])
  }

  /** A callback is called on the events that any visit delivers, in order, up to the first it
      refuses; if it refuses none, the visit is the same as without it. */
  lemma {:induction false} CallbackStops(st: DecState, d: Bytes, f: Callback)
    ensures CutBy(VisitAll(st, d, AcceptAll()), VisitAll(st, d, f), f)
    decreases |d|
  {
    hide RefStep, TakeFast, CutBy;
    forall all: Visit | all.events == []
      ensures CutBy(all, all, f)
    {
      CutNothing(all, f);
    }
    if d != [] {
      if d[0] == TAG_EVENT {
        var fast := TakeFast(st, d);
        if fast.Fast? {
          var st1 := st.(base := fast.base);
          CallbackStops(st1, fast.rest, f);
          CutEvent(fast.event, VisitAll(st1, fast.rest, AcceptAll()), VisitAll(st1, fast.rest, f), f);
          CutFirst(fast.event, VisitAll(st1, fast.rest, AcceptAll()), st1, fast.rest, f);
        }
      } else if d[0] == TAG_TIMESTAMP_RESET {
        var ts := TakeU64(d[1..]);
        if ts.Parsed? {
          CallbackStops(st.(base := ts.value), ts.rest, f);
        }
      } else {
        match RefStep(st, d)
        case Silent(st1, rest) => CallbackStops(st1, rest, f);
        case Emit(_, st1, rest) => CallbackStops(st1, rest, f);
        case _ =>
      }
    }
  }

  lemma CutNothing(all: Visit, f: Callback)
    requires all.events == []
    ensures CutBy(all, all, f)
  {
  }

  lemma CutEvent(event: RawEvent, all: Visit, v: Visit, f: Callback)
    requires CutBy(all, v, f)
    ensures f(event) ==> CutBy(all.(events := [event] + all.events), v.(events := [event] + v.events), f)
  {
    assert forall e :: e in [event] + all.events <==> e == event || e in all.events;
  }

  lemma CutFirst(event: RawEvent, all: Visit, st: DecState, rest: Bytes, f: Callback)
    ensures !f(event) ==> CutBy(all.(events := [event] + all.events), Visit([event], st, rest, CallbackStopped), f)
  {
    assert event in [event] + all.events;
  }

  /** The pools in which the events of a run are to be understood: what the pool frames in front of
      each have given. */
  function PoolsAt(pool: map<u32, Text>, frames: seq<Decoded<FieldValue>>): seq<map<u32, Text>>
    decreases |frames|
  {
    if frames == [] then []
    else match frames[0]
      case SchemaSeen(_) => PoolsAt(pool, frames[1..])
      case PoolSeen(entries) => PoolsAt(AddEntries(pool, entries), frames[1..])
      case EventSeen(_, _, _) => [pool] + PoolsAt(pool, frames[1..])
  }

  function PoolsOf(events: seq<RawEvent>): seq<map<u32, Text>> {
    seq(|events|, i requires 0 <= i < |events| => events[i].pool)
  }

  lemma {:induction false} IteratePools(st: DecState, d: Bytes)
    requires PlainRun(st, d) && Run(st, d).Clean()
    ensures PoolsOf(Iterate(st, d, AcceptAll()).events) == PoolsAt(st.pool, Run(st, d).frames)
    decreases |d|
  {
    hide DecodeFrame, DecodeFrameRef, FrameAlike, BorrowableFrame, DecodeHeader, ReadableDecoded, OwnedDecoded;
    if d == [] {
      EmptyStep(st, d);
    } else {
      StepsAgree(st, d);
      StepPool(st, d);
      hide OwnedStep, RefStep, AddEntries;
      match OwnedStep(st, d)
      case Silent(st1, rest) => IteratePools(st1, rest);
      case Emit(f, st1, rest) =>
        IteratePools(st1, rest);
        var frame := RefStep(st, d).frame;
        SameKind(frame, f);
        var v := Iterate(st1, rest, AcceptAll());
        assert ([f] + Run(st1, rest).frames)[1..] == Run(st1, rest).frames;
        if frame.EventSeen? {
          EventIsKnown(st, d);
          PoolsCons(EventOf(frame, st1), v.events);
        }
      case _ =>
    }
  }

  lemma PoolsCons(e: RawEvent, events: seq<RawEvent>)
    ensures PoolsOf([e] + events) == [e.pool] + PoolsOf(events)
  {
  }

  lemma SameKind(r: Decoded<FieldValueRef>, f: Decoded<FieldValue>)
    requires OwnedDecoded(r) == ReadableDecoded(f)
    ensures r.EventSeen? <==> f.EventSeen?
  {
  }

  /** Only pool frames change the pool. */
  lemma StepPool(st: DecState, d: Bytes)
    requires d != [] && DecodeHeader(d).None?
    ensures match OwnedStep(st, d)
            case Silent(st1, _) => st1.pool == st.pool
            case Emit(f, st1, _) => st1.pool == if f.PoolSeen? then AddEntries(st.pool, f.entries) else st.pool
            case _ => true
  {
    hide DecodeFrame, InfoOf, AddEntries;
  }

  /** On a stream that both decoders read alike, each event is shown with the strings that the
      stream has defined up to it. */
  lemma VisitPools(st: DecState, d: Bytes)
    requires PlainRun(st, d) && Run(st, d).Clean() && CacheAgrees(st)
    ensures PoolsOf(VisitAll(st, d, AcceptAll()).events) == PoolsAt(st.pool, Run(st, d).frames)
  {
    hide PlainRun, Run, VisitAll, Iterate, OverflowsAt, PoolsOf, PoolsAt;
    IteratePools(st, d);
    IteratePlain(st, d);
    VisitRefinesIterate(st, d, AcceptAll());
  }
}
