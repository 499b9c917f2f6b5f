/** The decoder object (dial9-trace-format/src/decoder.rs): owned frames, zero-copy frames and
    the visitor, each method proved to take the steps of its specification. */
module TraceDecoder {
  import opened Wire
  import opened Wrappers
  import opened Utf8
  import opened Types
  import opened ZeroCopy
  import opened Schema
  import opened Codec
  import opened Decoding
  import opened Visitor
  import opened Encoding
  import opened RoundTrip
  import opened TraceEncoder
  import FrameIo

  /** The vector of cached schemas, seen as a map. */
  function CacheMap(cache: seq<Option<SchemaInfo>>): Lookup {
    map id: u16 | id < |cache| && cache[id].Some? :: cache[id].value
  }

  /** `resize_with` and assignment: room is made with empty slots. */
  function CacheSet(cache: seq<Option<SchemaInfo>>, id: u16, info: SchemaInfo): (r: seq<Option<SchemaInfo>>)
    requires |cache| <= TWO_16
    ensures |r| <= TWO_16 && CacheMap(r) == CacheMap(cache)[id := info]
  {
    var grown := if id >= |cache| then cache + seq(id + 1 - |cache|, _ => None) else cache;
    grown[id := Some(info)]
  }

  class Decoder {
    const data: Bytes
    var pos: nat
    var registry: SchemaRegistry
    var schemaCache: seq<Option<SchemaInfo>>
    var stringPool: map<u32, Text>
    var version: u8
    var timestampBase: u64

    ghost predicate Valid()
      reads this, registry
    {
      pos <= |data| && |schemaCache| <= TWO_16 && registry.nextId == 0
    }

    ghost function State(): DecState
      reads this, registry
    {
      DecState(registry.schemas, CacheMap(schemaCache), stringPool, timestampBase)
    }

    function Remaining(): Bytes
      requires pos <= |data|
      reads this
    {
      data[pos..]
    }

    /** `Decoder::new`; the caller has seen that the header is there. */
    constructor (input: Bytes)
      requires DecodeHeader(input).Some?
      ensures Valid() && fresh(registry) && data == input
      ensures State() == Fresh && Remaining() == input[HEADER_SIZE..] && version == input[4]
    {
      data, pos := input, HEADER_SIZE;
      registry := new SchemaRegistry();
      schemaCache, stringPool, timestampBase := [], map[], 0;
      version := DecodeHeader(input).value;
    }

    method ResetState()
      requires Valid()
      modifies this
      ensures Valid() && fresh(registry) && State() == Fresh && pos == old(pos)
    {
      registry := new SchemaRegistry();
      schemaCache, stringPool, timestampBase := [], map[], 0;
    }

    method TryConsumeResetHeader() returns (found: bool)
      requires Valid()
      modifies this
      ensures Valid() && (registry == old(registry) || fresh(registry))
      ensures found == DecodeHeader(old(Remaining())).Some?
      ensures found ==> State() == Fresh && Remaining() == old(Remaining())[HEADER_SIZE..] && pos > old(pos)
      ensures !found ==> State() == old(State()) && pos == old(pos) && registry == old(registry)
    {
      found := DecodeHeader(Remaining()).Some?;
      if found {
        ghost var before := Remaining();
        ResetState();
        pos := pos + HEADER_SIZE;
        assert before[HEADER_SIZE..] == data[pos..];
      }
    }

    /** The cache slot is written first; the registry may still refuse. */
    method RegisterSchema(typeId: u16, entry: SchemaEntry) returns (ok: bool)
      requires Valid()
      modifies this`schemaCache, registry
      ensures Valid()
      ensures ok <==> !(typeId in old(State()).registry && old(State()).registry[typeId] != entry)
      ensures State() == old(State()).(
                           cache := old(State()).cache[typeId := InfoOf(entry)],
                           registry := if ok then old(State()).registry[typeId := entry] else old(State()).registry)
    {
      schemaCache := CacheSet(schemaCache, typeId, InfoOf(entry));
      ok := registry.Register(typeId, entry);
    }

    method AddPoolEntries(entries: seq<PoolEntry>)
      requires Valid()
      modifies this`stringPool
      ensures stringPool == AddEntries(old(stringPool), entries)
    {
      hide ValidUtf8;
      assert entries[0..] == entries;
      for i := 0 to |entries|
        invariant AddEntries(stringPool, entries[i..]) == AddEntries(old(stringPool), entries)
      {
        assert entries[i..][1..] == entries[i + 1..];
        if ValidUtf8(entries[i].data) {
          stringPool := stringPool[entries[i].poolId := entries[i].data];
        }
      }
    }

    /** The match on a decoded frame, which both decoders share. `None` is a silent frame. */
    method TakeIn<V>(frame: Frame<V>) returns (r: Result<Option<Decoded<V>>, nat>)
      requires Valid()
      modifies this, registry
      ensures Valid() && pos == old(pos) && registry == old(registry)
      ensures match Absorb(old(State()), frame, old(Remaining()))
              case Silent(st, _) => r == Ok(None) && State() == st
              case Emit(f, st, _) => r == Ok(Some(f)) && State() == st
              case Conflict(st, _) => r == Err(pos) && State() == st
              case _ => false
    {
      hide InfoOf, CacheMap, AddEntries;
      match frame
      case SchemaFrame(typeId, entry) =>
        var ok := RegisterSchema(typeId, entry);
        return if ok then Ok(Some(SchemaSeen(entry))) else Err(pos);
      case EventFrame(typeId, ts, values) =>
        if ts.Some? {
          timestampBase := ts.value;
        }
        return Ok(Some(EventSeen(typeId, ts, values)));
      case PoolFrame(entries) =>
        AddPoolEntries(entries);
        return Ok(Some(PoolSeen(entries)));
      case ResetFrame(ts) =>
        timestampBase := ts;
        return Ok(None);
    }

    /** `next_frame`: an error carries the position after the refused schema frame. */
    method NextFrame() returns (r: Result<Option<Decoded<FieldValue>>, nat>)
      requires Valid()
      modifies this, registry
      ensures Valid() && (registry == old(registry) || fresh(registry)) && pos >= old(pos)
      ensures match NextOwned(old(State()), old(Remaining()))
              case NoMore(st, rest) => r == Ok(None) && State() == st && Remaining() == rest
              case Found(f, st, rest) => r == Ok(Some(f)) && State() == st && Remaining() == rest && pos > old(pos)
              case Broken(st, rest) => r == Err(pos) && State() == st && Remaining() == rest
              case Crash(_, _) => false
      decreases |data| - pos
    {
      hide Absorb, DecodeFrame, CacheMap, DecodeHeader;
      ghost var st, d := State(), Remaining();
      if pos >= |data| {
        return Ok(None);
      }
      var header := TryConsumeResetHeader();
      if header {
        r := NextFrame();
        return;
      }
      var frame := FrameIo.ReadFrame(data[pos..], CacheMap(schemaCache), timestampBase);
      if frame.None? {
        return Ok(None);
      }
      assert d[frame.value.1..] == data[pos + frame.value.1..];
      pos := pos + frame.value.1;
      var result := TakeIn(frame.value.0);
      AbsorbRest(st, frame.value.0, d, Remaining());
      if result == Ok(None) {
        r := NextFrame();
        return;
      }
      return result;
    }

    /** `decode_all`. */
    method DecodeAll() returns (frames: seq<Decoded<FieldValue>>)
      requires Valid()
      modifies this, registry
      ensures Valid() && (registry == old(registry) || fresh(registry))
      ensures var run := Run(old(State()), old(Remaining()));
              frames == run.frames && State() == run.state && Remaining() == run.rest
    {
      hide NextOwned, Run, CacheMap, SeenFirst;
      frames := [];
      SeenNothing(Run(State(), Remaining()));
      while true
        invariant Valid() && (registry == old(registry) || fresh(registry))
        invariant Run(old(State()), old(Remaining())) == SeenFirst(frames, Run(State(), Remaining()))
        decreases |data| - pos
      {
        RunByNext(State(), Remaining());
        ghost var before := Run(State(), Remaining());
        var next := NextFrame();
        if next.Err? || next.value.None? {
          SeenLast(frames, before);
          return;
        }
        SeenNext(frames, next.value.value, Run(State(), Remaining()));
        frames := frames + [next.value.value];
      }
    }

    // ----- zero-copy -----

    /** The value loop of `decode_event_frame_ref`. */
    static method BorrowValues(types: seq<FieldType>, d: Bytes) returns (b: Borrowed<seq<FieldValueRef>>)
      ensures b == TakeValuesRef(types, d)
    {
      hide DecodeRef;
      var rest, values := d, [];
      assert types[0..] == types;
      BorrowNothing(TakeValuesRef(types, d));
      for i := 0 to |types|
        invariant TakeValuesRef(types, d) == BorrowedAfter(values, TakeValuesRef(types[i..], rest))
      {
        BorrowTurn(types[i..], values, rest);
        var v := Borrow(types[i], rest);
        match v {
          case Missing => return Missing;
          case Panicked => return Panicked;
          case Borrowed(value, rest1) =>
            assert types[i..][1..] == types[i + 1..];
            values, rest := values + [value], rest1;
        }
      }
      assert values + [] == values && types[|types|..] == [];
      return Borrowed(values, rest);
    }

    /** `decode_frame_ref` on the remaining input. */
    static method BorrowFrame(d: Bytes, schemas: Lookup, base: u64) returns (b: Borrowed<Frame<FieldValueRef>>)
      ensures b == DecodeFrameRef(d, schemas, base)
    {
      hide TakeEventHead, TakeValuesRef, TakeOther;
      if d == [] || d[0] != TAG_EVENT {
        return DecodeFrameRef(d, schemas, base);
      }
      var head := TakeEventHead(d[1..], schemas, base);
      if head.NoParse? {
        return Missing;
      }
      var values := BorrowValues(head.value.fieldTypes, head.rest);
      match values {
        case Missing => return Missing;
        case Panicked => return Panicked;
        case Borrowed(vs, rest) =>
          return Borrowed(EventFrame(head.value.typeId, head.value.timestamp, vs), rest);
      }
    }

    /** `next_frame_ref`; `crashed` stands for the panic. */
    method NextFrameRef() returns (r: Result<Option<Decoded<FieldValueRef>>, nat>, crashed: bool)
      requires Valid()
      modifies this, registry
      ensures Valid() && (registry == old(registry) || fresh(registry)) && pos >= old(pos)
      ensures match NextRef(old(State()), old(Remaining()))
              case NoMore(st, rest) => !crashed && r == Ok(None) && State() == st && Remaining() == rest
              case Found(f, st, rest) =>
                !crashed && r == Ok(Some(f)) && State() == st && Remaining() == rest && pos > old(pos)
              case Broken(st, rest) => !crashed && r == Err(pos) && State() == st && Remaining() == rest
              case Crash(st, rest) => crashed && State() == st && Remaining() == rest
      decreases |data| - pos
    {
      hide Absorb, DecodeFrameRef, CacheMap, DecodeHeader;
      ghost var st, d := State(), Remaining();
      crashed := false;
      if pos >= |data| {
        return Ok(None), false;
      }
      var header := TryConsumeResetHeader();
      if header {
        r, crashed := NextFrameRef();
        return;
      }
      var frame := BorrowFrame(data[pos..], CacheMap(schemaCache), timestampBase);
      RefAdvances(d, CacheMap(schemaCache), timestampBase);
      if frame.Missing? {
        return Ok(None), false;
      }
      if frame.Panicked? {
        return Ok(None), true;
      }
      FrameRefSuffix(d, CacheMap(schemaCache), timestampBase);
      pos := |data| - |frame.rest|;
      assert Remaining() == frame.rest;
      var result := TakeIn(frame.value);
      AbsorbRest(st, frame.value, d, Remaining());
      if result == Ok(None) {
        r, crashed := NextFrameRef();
        return;
      }
      return result, false;
    }

    // ----- the visitor -----

    /** `try_for_each_event`: the events `f` was called on, and how the walk ended. */
    method TryForEachEvent(f: Callback) returns (events: seq<RawEvent>, end: VisitEnd)
      requires Valid()
      modifies this, registry
      ensures Valid() && (registry == old(registry) || fresh(registry))
      ensures VisitAll(old(State()), old(Remaining()), f) == Visit(events, State(), Remaining(), end)
    {
      hide TakeFast, RefStep, CacheMap, VisitAll, VisitedFirst;
      events := [];
      VisitedNothing(VisitAll(State(), Remaining(), f));
      while pos < |data|
        invariant Valid() && (registry == old(registry) || fresh(registry))
        invariant VisitAll(old(State()), old(Remaining()), f)
                  == VisitedFirst(events, VisitAll(State(), Remaining(), f))
        decreases |data| - pos
      {
        ghost var before := VisitAll(State(), Remaining(), f);
        VisitedLast(events, before);
        if data[pos] == TAG_EVENT {
          VisitEventTurn(State(), Remaining(), f);
          var fast := VisitEvent();
          match fast {
            case Truncated => return events, DecodeFailed;
            case FastPanic => return events, VisitPanicked;
            case Fast(event, _, _) =>
              if !f(event) {
                return events + [event], CallbackStopped;
              }
              VisitedNext(events, event, VisitAll(State(), Remaining(), f));
              events := events + [event];
          }
        } else {
          var stop := VisitOther(f);
          if stop.Some? {
            return events, stop.value;
          }
        }
      }
      VisitDone(State(), Remaining(), f);
      VisitedLast(events, VisitAll(State(), Remaining(), f));
      return events, AllConsumed;
    }

    /** The other tags: a reset, a header, or a frame for `next_frame_ref`. */
    method VisitOther(f: Callback) returns (stop: Option<VisitEnd>)
      requires Valid() && Remaining() != [] && Remaining()[0] != TAG_EVENT
      modifies this, registry
      ensures Valid() && (registry == old(registry) || fresh(registry))
      ensures stop.None? ==> VisitAll(old(State()), old(Remaining()), f) == VisitAll(State(), Remaining(), f)
      ensures stop.None? ==> pos > old(pos)
      ensures stop.Some? ==>
                VisitAll(old(State()), old(Remaining()), f) == Visit([], State(), Remaining(), stop.value)
    {
      hide VisitAll, RefStep, TakeU64, CacheMap, NextRef;
      ghost var st, d := State(), Remaining();
      VisitOtherTurn(st, d, f);
      if data[pos] == TAG_TIMESTAMP_RESET {
        assert d[1..] == data[pos + 1..];
        var ts := GetU64(data, pos + 1);
        if ts.None? {
          return Some(DecodeFailed);
        }
        timestampBase := ts.value;
        pos := pos + 9;
        return None;
      }
      OtherNext(st, d);
      if data[pos] == MAGIC[0] {
        var header := TryConsumeResetHeader();
        if header {
          return None;
        }
      }
      var next, crashed := NextFrameRef();
      if next.Err? {
        return Some(SchemaConflict);
      }
      return if next.value.None? then Some(DecodeFailed) else None;
    }

    /** The inlined event frame: on success the position and the base move past it. */
    method VisitEvent() returns (e: FastEvent)
      requires Valid() && Remaining() != [] && Remaining()[0] == TAG_EVENT
      modifies this`pos, this`timestampBase
      ensures Valid() && e == TakeFast(old(State()), old(Remaining()))
      ensures e.Fast? ==> State() == old(State()).(base := e.base) && Remaining() == e.rest && pos > old(pos)
      ensures !e.Fast? ==> State() == old(State()) && pos == old(pos)
    {
      hide TakeU16, TakeU24, TakeValuesRef, CacheMap;
      ghost var d := Remaining();
      var cache := CacheMap(schemaCache);
      var id := TakeU16(Remaining()[1..]);
      if id.NoParse? || id.value !in cache {
        return Truncated;
      }
      var info := cache[id.value];
      var body, ts := id.rest, None;
      if info.hasTimestamp {
        var delta := TakeU24(id.rest);
        if delta.NoParse? {
          return Truncated;
        }
        body, ts := delta.rest, Some((timestampBase + delta.value) % TWO_64);
      }
      var values := BorrowValues(info.fieldTypes, body);
      FastSuffix(State(), d);
      match values {
        case Missing => return Truncated;
        case Panicked => return FastPanic;
        case Borrowed(fields, rest) =>
          e := Fast(RawEvent(id.value, info.name, ts, fields, stringPool),
                    if ts.Some? then ts.value else timestampBase, rest);
          pos := |data| - |rest|;
          timestampBase := e.base;
      }
    }

    /** `into_encoder`: registry, pool and base go over to an encoder that appends. */
    method IntoEncoder(w: Bytes) returns (e: Encoder)
      requires Valid() && CanResume(State())
      modifies registry
      ensures fresh(e) && e.Valid() && e.writer == w && e.bytesWritten == 0 && e.registry == registry
      ensures IsResumed(e.State(), old(State()))
    {
      e := new Encoder.FromDecoder(registry, stringPool, timestampBase, w);
    }
  }

  /** A run whose first frames have been seen already. */
  function SeenFirst(frames: seq<Decoded<FieldValue>>, run: Trace<FieldValue>): Trace<FieldValue> {
    run.(frames := frames + run.frames)
  }

  lemma SeenNothing(run: Trace<FieldValue>)
    ensures SeenFirst([], run) == run
  {
    assert [] + run.frames == run.frames;
  }

  lemma SeenNext(frames: seq<Decoded<FieldValue>>, f: Decoded<FieldValue>, run: Trace<FieldValue>)
    ensures SeenFirst(frames, run.(frames := [f] + run.frames)) == SeenFirst(frames + [f], run)
  {
    assert frames + ([f] + run.frames) == (frames + [f]) + run.frames;
  }

  lemma SeenLast(frames: seq<Decoded<FieldValue>>, run: Trace<FieldValue>)
    requires run.frames == []
    ensures SeenFirst(frames, run) == run.(frames := frames)
  {
    assert frames + [] == frames;
  }

  /** A visit whose first events have been delivered already. */
  function VisitedFirst(events: seq<RawEvent>, v: Visit): Visit {
    v.(events := events + v.events)
  }

  lemma VisitedNothing(v: Visit)
    ensures VisitedFirst([], v) == v
  {
    assert [] + v.events == v.events;
  }

  lemma VisitedNext(events: seq<RawEvent>, event: RawEvent, v: Visit)
    ensures VisitedFirst(events, v.(events := [event] + v.events)) == VisitedFirst(events + [event], v)
  {
    assert events + ([event] + v.events) == (events + [event]) + v.events;
  }

  lemma VisitedLast(events: seq<RawEvent>, v: Visit)
    ensures v.events == [] ==> VisitedFirst(events, v) == v.(events := events)
    ensures |v.events| == 1 ==> VisitedFirst(events, v) == v.(events := events + [v.events[0]])
  {
    assert events + [] == events;
  }

  lemma AbsorbRest<V>(st: DecState, frame: Frame<V>, rest1: Bytes, rest2: Bytes)
    ensures match Absorb(st, frame, rest1)
            case Silent(st1, _) => Absorb(st, frame, rest2) == Silent(st1, rest2)
            case Emit(f, st1, _) => Absorb(st, frame, rest2) == Emit(f, st1, rest2)
            case Conflict(st1, _) => Absorb(st, frame, rest2) == Conflict(st1, rest2)
            case _ => false
  {
    hide InfoOf, AddEntries;
  }

  function BorrowedAfter(values: seq<FieldValueRef>, b: Borrowed<seq<FieldValueRef>>): Borrowed<seq<FieldValueRef>> {
    if b.Borrowed? then Borrowed(values + b.value, b.rest) else b
  }

  lemma BorrowNothing(b: Borrowed<seq<FieldValueRef>>)
    ensures BorrowedAfter([], b) == b
  {
    if b.Borrowed? {
      assert [] + b.value == b.value;
    }
  }

  lemma BorrowTurn(types: seq<FieldType>, values: seq<FieldValueRef>, d: Bytes)
    requires types != []
    ensures match DecodeRef(types[0], d)
            case Missing => BorrowedAfter(values, TakeValuesRef(types, d)) == Missing
            case Panicked => BorrowedAfter(values, TakeValuesRef(types, d)) == Panicked
            case Borrowed(v, rest) =>
              BorrowedAfter(values, TakeValuesRef(types, d))
              == BorrowedAfter(values + [v], TakeValuesRef(types[1..], rest))
  {
    hide DecodeRef;
    if DecodeRef(types[0], d).Borrowed? {
      var v, b := DecodeRef(types[0], d).value, TakeValuesRef(types[1..], DecodeRef(types[0], d).rest);
      if b.Borrowed? {
        assert values + ([v] + b.value) == values + [v] + b.value;
      }
    }
  }

  lemma VisitDone(st: DecState, d: Bytes, f: Callback)
    requires d == []
    ensures VisitAll(st, d, f) == Visit([], st, d, AllConsumed)
  {
  }

  /** One turn of the visitor's loop on an event frame. */
  lemma VisitEventTurn(st: DecState, d: Bytes, f: Callback)
    requires d != [] && d[0] == TAG_EVENT
    ensures TakeFast(st, d).Truncated? ==> VisitAll(st, d, f) == Visit([], st, d, DecodeFailed)
    ensures TakeFast(st, d).FastPanic? ==> VisitAll(st, d, f) == Visit([], st, d, VisitPanicked)
    ensures TakeFast(st, d).Fast? && !f(TakeFast(st, d).event) ==>
              VisitAll(st, d, f)
              == Visit([TakeFast(st, d).event], st.(base := TakeFast(st, d).base), TakeFast(st, d).rest,
                       CallbackStopped)
    ensures TakeFast(st, d).Fast? && f(TakeFast(st, d).event) ==>
              var v := VisitAll(st.(base := TakeFast(st, d).base), TakeFast(st, d).rest, f);
              VisitAll(st, d, f) == v.(events := [TakeFast(st, d).event] + v.events)
  {
    hide RefStep, TakeFast, TakeU64;
  }

  /** One turn of the visitor's loop on any other frame. */
  lemma VisitOtherTurn(st: DecState, d: Bytes, f: Callback)
    requires d != [] && d[0] != TAG_EVENT
    ensures d[0] == TAG_TIMESTAMP_RESET && TakeU64(d[1..]).NoParse? ==>
              VisitAll(st, d, f) == Visit([], st, d, DecodeFailed)
    ensures d[0] == TAG_TIMESTAMP_RESET && TakeU64(d[1..]).Parsed? ==>
              VisitAll(st, d, f) == VisitAll(st.(base := TakeU64(d[1..]).value), TakeU64(d[1..]).rest, f)
    ensures d[0] != TAG_TIMESTAMP_RESET ==>
              VisitAll(st, d, f)
              == match RefStep(st, d)
                 case End => Visit([], st, d, DecodeFailed)
                 case Panic => Visit([], st, d, VisitPanicked)
                 case Silent(st1, rest) => VisitAll(st1, rest, f)
                 case Conflict(st1, rest) => Visit([], st1, rest, SchemaConflict)
                 case Emit(_, st1, rest) => VisitAll(st1, rest, f)
  {
    hide RefStep, TakeFast, TakeU64;
  }

  /** For the other tags a step is a whole call of `next_frame_ref`, or a header. */
  lemma OtherNext(st: DecState, d: Bytes)
    requires d != [] && d[0] != TAG_EVENT && d[0] != TAG_TIMESTAMP_RESET
    ensures DecodeHeader(d).Some? ==> d[0] == MAGIC[0] && RefStep(st, d) == Silent(Fresh, d[HEADER_SIZE..])
    ensures DecodeHeader(d).None? ==> !RefStep(st, d).Silent? && !RefStep(st, d).Panic?
    ensures DecodeHeader(d).None? ==>
              NextRef(st, d) == match RefStep(st, d)
                                case End => NoMore(st, d)
                                case Emit(f, st1, rest) => Found(f, st1, rest)
                                case Conflict(st1, rest) => Broken(st1, rest)
                                case _ => NextRef(st, d)
  {
    hide TakeSchema, TakePool, TakeU64, AddEntries, InfoOf;
    if d[0] != MAGIC[0] {
      NoHeader(d);
    }
  }

  lemma FrameRefSuffix(d: Bytes, schemas: Lookup, base: u64)
    requires DecodeFrameRef(d, schemas, base).Borrowed?
    ensures SuffixOf(DecodeFrameRef(d, schemas, base).rest, d)
  {
    hide DecodeFrameRef, DecodeFrame, BorrowableFrame;
    FramesAgree(d, schemas, base);
    FrameSuffix(d, schemas, base);
  }

  lemma FrameSuffix(d: Bytes, schemas: Lookup, base: u64)
    requires DecodeFrame(d, schemas, base).Parsed?
    ensures SuffixOf(DecodeFrame(d, schemas, base).rest, d)
  {
    hide DecodeFrame;
    FrameIo.FrameSuffix(d, schemas, base);
  }

  lemma FastSuffix(st: DecState, d: Bytes)
    requires d != [] && d[0] == TAG_EVENT
    ensures TakeFast(st, d).Fast? ==> SuffixOf(TakeFast(st, d).rest, d)
  {
    hide TakeU16, TakeU24, TakeValuesRef;
    var id := TakeU16(d[1..]);
    if TakeFast(st, d).Fast? {
      var info := st.cache[id.value];
      var body := if info.hasTimestamp then TakeU24(id.rest).rest else id.rest;
      PrefixSuffix(d, info.hasTimestamp);
      ValuesRefSuffix(info.fieldTypes, body);
      SuffixTransitive(TakeFast(st, d).rest, body, d);
    }
  }

  lemma PrefixSuffix(d: Bytes, hasTimestamp: bool)
    requires d != [] && TakeU16(d[1..]).Parsed?
    ensures SuffixOf(TakeU16(d[1..]).rest, d)
    ensures TakeU24(TakeU16(d[1..]).rest).Parsed? ==> SuffixOf(TakeU24(TakeU16(d[1..]).rest).rest, d)
  {
  }

  lemma ValuesRefSuffix(types: seq<FieldType>, d: Bytes)
    requires TakeValuesRef(types, d).Borrowed?
    ensures SuffixOf(TakeValuesRef(types, d).rest, d)
  {
    hide TakeValuesRef, TakeValues, Borrowable;
    ValuesAgree(types, d);
    ValuesRead(types, d);
    FrameIo.ValuesSuffix(types, d);
  }

  lemma {:induction false} ValuesRead(types: seq<FieldType>, d: Bytes)
    requires TakeValuesRef(types, d).Borrowed?
    ensures TakeValues(types, d).Parsed?
  {
    hide DecodeRef, DecodeValue;
    if types != [] {
      ZeroCopyAgrees(types[0], d);
      ValuesRead(types[1..], DecodeRef(types[0], d).rest);
    }
  }
}
