/** `symbolize_trace_with_maps` from end to end (perf-self-profile/src/offline_symbolize.rs): the
    visitor reads the trace, the addresses of its stack frames are looked up, and the decoder,
    turned into an encoder, appends the answers. */
module SymbolizedTrace {
  import opened Wire
  import opened Wrappers
  import opened Utf8
  import opened Types
  import opened ZeroCopy
  import opened Schema
  import opened Codec
  import opened Decoding
  import opened Visitor
  import opened Encoding
  import opened RoundTrip
  import opened TraceEncoder
  import opened TraceDecoder
  import opened Symbolize

  // ----- the addresses of a trace -----

  /** The nonzero addresses in the stack frames of a trace's events. */
  ghost function TraceAddrs(frames: seq<Decoded<FieldValue>>): set<u64> {
    set f, v, a | f in frames && f.EventSeen? && v in f.values && v.FramesValue? && a in v.addrs && a != 0 :: a
  }

  function FrameAddrs(values: seq<FieldValue>): set<u64> {
    set v, a | v in values && v.FramesValue? && a in v.addrs && a != 0 :: a
  }

  /** The same, event by event. */
  function AddrsFrom(frames: seq<Decoded<FieldValue>>): set<u64> {
    if frames == [] then {}
    else (if frames[0].EventSeen? then FrameAddrs(frames[0].values) else {}) + AddrsFrom(frames[1..])
  }

  lemma {:induction false} AddrsAre(frames: seq<Decoded<FieldValue>>)
    ensures AddrsFrom(frames) == TraceAddrs(frames)
  {
    if frames != [] {
      AddrsAre(frames[1..]);
      assert frames == [frames[0]] + frames[1..];
      assert TraceAddrs(frames)
             == (if frames[0].EventSeen? then FrameAddrs(frames[0].values) else {}) + TraceAddrs(frames[1..]);
    }
  }

  function VisitedAddrs(events: seq<RawEvent>): set<u64> {
    if events == [] then {} else AddressesIn(events[0].fields) + VisitedAddrs(events[1..])
  }

  lemma ContentsAddrs(fields: seq<FieldValueRef>)
    ensures AddressesIn(fields) == FrameAddrs(ContentsOf(fields))
  {
    hide IterAddrs;
    forall a
      ensures a in AddressesIn(fields) <==> a in FrameAddrs(ContentsOf(fields))
    {
      if a in AddressesIn(fields) {
        var i :| 0 <= i < |fields| && fields[i].FramesRef? && a in IterAddrs(fields[i].data, fields[i].count) && a != 0;
        assert ContentsOf(fields)[i].addrs == IterAddrs(fields[i].data, fields[i].count);
      }
      if a in FrameAddrs(ContentsOf(fields)) {
        var i :| 0 <= i < |fields| && ContentsOf(fields)[i].FramesValue? && a in ContentsOf(fields)[i].addrs && a != 0;
        assert fields[i].FramesRef?;
      }
    }
  }

  lemma ReadableAddrs(values: seq<FieldValue>)
    ensures FrameAddrs(ReadableValues(values)) == FrameAddrs(values)
  {
    hide TextPairs;
    forall a
      ensures a in FrameAddrs(ReadableValues(values)) <==> a in FrameAddrs(values)
    {
      if a in FrameAddrs(values) {
        var i :| 0 <= i < |values| && values[i].FramesValue? && a in values[i].addrs && a != 0;
        assert ReadableValues(values)[i] == values[i];
      }
      if a in FrameAddrs(ReadableValues(values)) {
        var i :| 0 <= i < |values| && ReadableValues(values)[i].FramesValue? && a in ReadableValues(values)[i].addrs
                 && a != 0;
        assert ReadableValues(values)[i] == values[i];
      }
    }
  }

  lemma {:induction false} ShownAddrs(events: seq<RawEvent>)
    ensures VisitedAddrs(events) == AddrsFrom(ShownAll(events))
  {
    hide ContentsOf, FrameAddrs;
    if events != [] {
      ContentsAddrs(events[0].fields);
      ShownAddrs(events[1..]);
      assert ShownAll(events)[1..] == ShownAll(events[1..]);
    }
  }

  lemma {:induction false} KeptAddrs(frames: seq<Decoded<FieldValue>>)
    ensures AddrsFrom(KeepEvents(ReadableAll(frames))) == AddrsFrom(frames)
  {
    hide FrameAddrs, ReadableValues;
    if frames != [] {
      var f := frames[0];
      assert ReadableAll(frames)[1..] == ReadableAll(frames[1..]);
      KeptAddrs(frames[1..]);
      if f.EventSeen? {
        ReadableAddrs(f.values);
        assert KeepEvents(ReadableAll(frames))[1..] == KeepEvents(ReadableAll(frames[1..]));
      }
    } else {
      assert ReadableAll(frames) == [];
    }
  }

  /** The callback over all events. */
  method CollectAddresses(events: seq<RawEvent>) returns (addresses: set<u64>)
    ensures addresses == VisitedAddrs(events)
  {
    hide AddressesIn;
    addresses := {};
    assert events[0..] == events;
    for i := 0 to |events|
      invariant addresses + VisitedAddrs(events[i..]) == VisitedAddrs(events)
    {
      assert events[i..][1..] == events[i + 1..];
      addresses := CollectStackFrameAddresses(events[i].fields, addresses);
    }
    assert events[|events|..] == [];
  }

  // ----- what a reader finds -----

  /** The event is the entry's, under the entries' schema, its strings found in the reader's pool. */
  ghost predicate ReadsAs(st: DecState, f: Decoded<FieldValue>, entry: Entry) {
    && f.EventSeen? && f.timestamp == Some(0) && |f.values| == 6
    && f.typeId in st.registry && st.registry[f.typeId] == EntryOf(SymbolDef)
    && f.values[2].PooledValue? && f.values[2].id in st.pool && st.pool[f.values[2].id] == entry.name
    && f.values[4].PooledValue? && f.values[4].id in st.pool && st.pool[f.values[4].id] == entry.file
    && f.values == [VarintValue(entry.addr), VarintValue(0), f.values[2], VarintValue(entry.depth), f.values[4],
                    VarintValue(entry.line)]
  }

  /** The longer trace decodes to its end: the events there were, and then the entries. */
  ghost predicate Extended(before: Trace<FieldValue>, after: Trace<FieldValue>, entries: seq<Entry>) {
    var first, all := KeepEvents(before.frames), KeepEvents(after.frames);
    && after.Clean() && |all| == |first| + |entries| && first <= all
    && forall i :: 0 <= i < |entries| ==> ReadsAs(after.state, all[|first| + i], entries[i])
  }

  /** Every address of the trace has exactly the entries its lookup gives. */
  ghost predicate Symbolized(input: Bytes, output: Bytes, symbols: Symbols, maps: seq<MapsEntry>) {
    && DecodeAll(input).Some? && DecodeAll(input + output).Some?
    && exists entries ::
         && AllAnswered(entries, TraceAddrs(DecodeAll(input).value.frames), symbols, maps)
         && Extended(DecodeAll(input).value, DecodeAll(input + output).value, entries)
  }

  lemma AppendedReads(e: EncState, s: Stream, before: Trace<FieldValue>, entries: seq<Entry>)
    requires ReadsBack(s) && s.pool == e.pool && Appended(e, KeepEvents(before.frames), KeepEvents(s.log), entries)
    requires DecodeAll(s.bytes).value.state.registry == e.registry
    ensures Extended(before, DecodeAll(s.bytes).value, entries)
  {
    hide DecodeAll, Shows, ReadsAs;
    var first, all, st := KeepEvents(before.frames), KeepEvents(s.log), DecodeAll(s.bytes).value.state;
    forall i | 0 <= i < |entries|
      ensures ReadsAs(st, all[|first| + i], entries[i])
    {
      ShownReads(e, st, all[|first| + i], entries[i]);
    }
  }

  lemma ShownReads(e: EncState, st: DecState, f: Decoded<FieldValue>, entry: Entry)
    requires Shows(e, f, entry) && st.registry == e.registry
    requires forall t :: t in e.pool ==> e.pool[t] in st.pool && st.pool[e.pool[t]] == t
    ensures ReadsAs(st, f, entry)
  {
    hide SymbolName, SymbolFields, Ascii;
    var values := EntryValues(entry, e.pool[entry.name], e.pool[entry.file]);
    assert f.values[2] == values[2] && f.values[4] == values[4];
  }

  lemma OutputReads(input: Bytes, e: EncState, entries: seq<Entry>, symbols: Symbols, maps: seq<MapsEntry>)
    requires DecodeAll(input).Some? && DecodeAll(input).value.Clean()
    requires CanResume(DecodeAll(input).value.state) && IsResumed(e, DecodeAll(input).value.state) && SymbolsKnown(e)
    requires EntriesWritable(From(e), entries)
    requires Complete(entries, TraceAddrs(DecodeAll(input).value.frames), symbols, maps)
    ensures Symbolized(input, WriteEntries(From(e), entries).current.bytes, symbols, maps)
  {
    hide DecodeAll, EntriesWritable, Appended, IsResumed, CanResume, WriteEntries, SymbolsKnown, KeepEvents, Complete,
         TraceAddrs, Extended, AllAnswered;
    CompleteAnswers(entries, TraceAddrs(DecodeAll(input).value.frames), symbols, maps);
    SymbolsReadBack(input, e, entries);
    var output := WriteEntries(From(e), entries).current.bytes;
    var s: Session :|
      && s.current.bytes == input + output && ReadsBack(s.current) && s.current.pool == s.enc.pool
      && DecodeAll(s.current.bytes).value.state.registry == s.enc.registry
      && Appended(s.enc, KeepEvents(DecodeAll(input).value.frames), KeepEvents(s.current.log), entries);
    AppendedReads(s.enc, s.current, DecodeAll(input).value, entries);
  }

  /** Nothing to look up, nothing written. */
  lemma NothingAdded(input: Bytes, symbols: Symbols, maps: seq<MapsEntry>)
    requires DecodeAll(input).Some? && DecodeAll(input).value.Clean()
    requires TraceAddrs(DecodeAll(input).value.frames) == {}
    ensures Symbolized(input, [], symbols, maps)
  {
    hide DecodeAll, TraceAddrs, Complete, ReadsAs, KeepEvents, AllAnswered;
    CompleteNone(symbols, maps);
    CompleteAnswers([], {}, symbols, maps);
    assert input + [] == input;
    var trace := DecodeAll(input).value;
    assert Extended(trace, trace, []);
  }

  // ----- room for the entries -----

  predicate ShortTexts(entries: seq<Entry>) {
    forall i :: 0 <= i < |entries| ==> |entries[i].name| < TWO_32 && |entries[i].file| < TWO_32
  }

  predicate NameTaken(st: DecState, entry: SchemaEntry) {
    exists id :: id in st.registry && st.registry[id].name == entry.name
  }

  /** No other schema goes by the name, ids of each kind are left, and texts are not too long. */
  ghost predicate RoomFor(st: DecState, addresses: set<u64>, symbols: Symbols, maps: seq<MapsEntry>) {
    && CanResume(st)
    && (NameTaken(st, EntryOf(SymbolDef)) || TWO_16 - 2 !in st.registry)
    && (forall id :: id in st.registry && st.registry[id].name == SymbolDef.name ==>
          st.registry[id] == EntryOf(SymbolDef))
    && forall entries :: Complete(entries, addresses, symbols, maps) ==> EntriesFit(st, entries)
  }

  ghost predicate EntriesFit(st: DecState, entries: seq<Entry>) {
    && ShortTexts(entries) && 2 * |entries| < TWO_32
    && forall id :: id in st.pool ==> id + 1 + 2 * |entries| < TWO_32
  }

  lemma ResumedKnows(e: EncState, st: DecState)
    requires IsResumed(e, st) && CanResume(st) && (NameTaken(st, EntryOf(SymbolDef)) || TWO_16 - 2 !in st.registry)
    requires forall id :: id in st.registry && st.registry[id].name == SymbolDef.name ==>
               st.registry[id] == EntryOf(SymbolDef)
    ensures SymbolsKnown(e)
  {
    hide SymbolName, SymbolFields;
    if Name(SymbolDef.name) !in e.ids {
      assert !NameTaken(st, EntryOf(SymbolDef));
      assert e.nextId - 1 != TWO_16 - 2 && e.nextId - 1 != TWO_16 - 1;
    }
  }

  lemma TookOne(s: Session, t: Text)
    ensures Took(s, t).enc.nextPool <= s.enc.nextPool + 1
  {
    hide EncodePool;
  }

  lemma EntryTakesTwo(s: Session, entry: Entry)
    requires SymbolsKnown(s.enc)
    ensures WriteEntry(s, entry).enc.nextPool <= s.enc.nextPool + 2
  {
    hide SymbolsKnown, EntryValues, EncodePool;
    TookOne(s, entry.name);
    TookOne(Took(s, entry.name), entry.file);
    var e := Named(s, entry).enc;
    hide Took, SymbolName, SymbolFields, TypeIdEffect;
    TypeIdKeepsPool(e, SymbolDef);
    NoResetOp(e, entry);
  }

  /** Two strings at most for each entry. */
  lemma {:induction false} RoomSuffices(s: Session, entries: seq<Entry>)
    requires SymbolsKnown(s.enc) && ShortTexts(entries) && s.enc.nextPool + 2 * |entries| < TWO_32
    ensures EntriesWritable(s, entries) && SymbolsKnown(WriteEntries(s, entries).enc)
    ensures WriteEntries(s, entries).enc.nextPool <= s.enc.nextPool + 2 * |entries|
    decreases |entries|
  {
    hide SymbolsKnown, WriteEntry, Took;
    if entries != [] {
      var front, last := entries[..|entries| - 1], entries[|entries| - 1];
      RoomSuffices(s, front);
      var s1 := WriteEntries(s, front);
      TookOne(s1, last.name);
      SymbolsStay(s1, last);
      EntryTakesTwo(s1, last);
    }
  }

  lemma ResumedRoom(e: EncState, st: DecState, entries: seq<Entry>, addresses: set<u64>, symbols: Symbols,
                    maps: seq<MapsEntry>)
    requires IsResumed(e, st) && RoomFor(st, addresses, symbols, maps) && Complete(entries, addresses, symbols, maps)
    ensures SymbolsKnown(e) && EntriesWritable(From(e), entries)
  {
    hide Complete, SymbolsKnown, EntriesWritable, WriteEntries, SymbolName, SymbolFields, ShortTexts, IsNameIndex;
    ResumedKnows(e, st);
    RoomSuffices(From(e), entries);
  }

  // ----- an overflowing event in the way -----

  lemma OverflowStays(st: DecState, d: Bytes, t: Bytes)
    requires OverflowsAt(st, d)
    ensures OwnedStep(st, d + t).End?
  {
    hide TakeU16, TakeU24, TakeValuesRef, TakeValues, TakeOther, AddEntries;
    NoHeader(d + t);
    assert (d + t)[1..] == d[1..] + t;
    TakeIntExtends(d[1..], t);
    TakeU24Extends(TakeU16(d[1..]).rest, t);
  }

  /** The frame decoder never gets past the event, whatever is appended. */
  lemma {:induction false} OverflowStops(st: DecState, d: Bytes, t: Bytes)
    requires OverflowMet(Iterate(st, d, AcceptAll()))
    ensures Run(st, d + t).frames == Run(st, d).frames
    decreases |d|
  {
    hide OverflowsAt, FrameAlike, BorrowableFrame, DecodeFrame, DecodeFrameRef, DecodeHeader, EventOf;
    if OverflowsAt(st, d) {
      OverflowEnds(st, d);
      OverflowStays(st, d, t);
    } else if d == [] {
      EmptyStep(st, d);
    } else {
      StepsAgree(st, d);
      StepExtends(st, d, t);
      hide OwnedStep, RefStep;
      match RefStep(st, d)
      case Silent(st1, rest) => OverflowStops(st1, rest, t);
      case Emit(_, st1, rest) => OverflowStops(st1, rest, t);
      case _ =>
    }
  }

  // ----- the whole of it -----

  datatype Outcome = InvalidData | Aborted | Written(output: Bytes)

  function Visited(input: Bytes): Visit
    requires DecodeHeader(input).Some?
  {
    VisitAll(Fresh, input[HEADER_SIZE..], AcceptAll())
  }

  /** What is appended to a trace the visitor reads to its end. Unless the visitor passed over an
      event whose timestamp overflows, the longer trace decodes to the old events and then, for
      each address in their stack frames, its lookup's entries. If it did, a frame decoder stops
      at that event and finds nothing of what was appended. */
  method SymbolizeTraceWithMaps(input: Bytes, maps: seq<MapsEntry>, symbols: Symbols) returns (r: Outcome)
    requires DecodeHeader(input).Some? && Visited(input).end == AllConsumed
             && VisitedAddrs(Visited(input).events) != {} ==>
               RoomFor(Visited(input).state, VisitedAddrs(Visited(input).events), symbols, maps)
    ensures r.InvalidData? <==> DecodeHeader(input).None? || Visited(input).end !in {AllConsumed, VisitPanicked}
    ensures r.Aborted? <==> DecodeHeader(input).Some? && Visited(input).end == VisitPanicked
    ensures r.Written? ==>
              if OverflowMet(Iterate(Fresh, input[HEADER_SIZE..], AcceptAll())) then
                DecodeAll(input + r.output).Some?
                && DecodeAll(input + r.output).value.frames == DecodeAll(input).value.frames
              else Symbolized(input, r.output, symbols, maps)
  {
    hide VisitAll, Iterate, RoomFor, Symbolized, Run, OverflowMet, VisitedAddrs, SymbolsKnown, EntriesWritable,
         WriteEntries, IsResumed, Complete;
    if DecodeHeader(input).None? {
      return InvalidData;
    }
    var decoder := new Decoder(input);
    var events, end := decoder.TryForEachEvent(AcceptAll());
    if end != AllConsumed {
      return if end == VisitPanicked then Aborted else InvalidData;
    }
    var addresses := CollectAddresses(events);
    if addresses == {} {
      Nothing(input, symbols, maps);
      return Written([]);
    }
    RoomResumes(decoder.State(), addresses, symbols, maps);
    var encoder := decoder.IntoEncoder([]);
    ghost var e := encoder.State();
    var entries := PlanEntries(addresses, maps, symbols);
    ResumedRoom(e, Visited(input).state, entries, addresses, symbols, maps);
    WriteSymbols(encoder, entries);
    assert [] + WriteEntries(From(e), entries).current.bytes == WriteEntries(From(e), entries).current.bytes;
    Something(input, e, entries, symbols, maps);
    return Written(encoder.writer);
  }

  lemma RoomResumes(st: DecState, addresses: set<u64>, symbols: Symbols, maps: seq<MapsEntry>)
    requires RoomFor(st, addresses, symbols, maps)
    ensures CanResume(st)
  {
  }

  lemma Addresses(input: Bytes)
    requires DecodeHeader(input).Some? && Visited(input).end == AllConsumed
    ensures DecodeAll(input).Some?
    ensures DecodeAll(input).value.Clean() <==> !OverflowMet(Iterate(Fresh, input[HEADER_SIZE..], AcceptAll()))
    ensures DecodeAll(input).value.Clean() ==>
              && Visited(input).state == DecodeAll(input).value.state
              && VisitedAddrs(Visited(input).events) == TraceAddrs(DecodeAll(input).value.frames)
  {
    hide VisitAll, Iterate, Run, OverflowMet, VisitedAddrs, TraceAddrs, AddrsFrom, KeepEvents, ReadableAll;
    AddrsAre(DecodeAll(input).value.frames);
    VisitedIsDecoded(Fresh, input[HEADER_SIZE..]);
    ShownAddrs(Visited(input).events);
    KeptAddrs(DecodeAll(input).value.frames);
  }

  lemma AppendedBehind(input: Bytes, output: Bytes)
    requires DecodeHeader(input).Some? && OverflowMet(Iterate(Fresh, input[HEADER_SIZE..], AcceptAll()))
    ensures DecodeAll(input + output).Some?
    ensures DecodeAll(input + output).value.frames == DecodeAll(input).value.frames
  {
    hide Iterate, Run, OverflowMet;
    HeaderExtends(input, output);
    OverflowStops(Fresh, input[HEADER_SIZE..], output);
  }

  lemma Nothing(input: Bytes, symbols: Symbols, maps: seq<MapsEntry>)
    requires DecodeHeader(input).Some? && Visited(input).end == AllConsumed
    requires VisitedAddrs(Visited(input).events) == {}
    ensures if OverflowMet(Iterate(Fresh, input[HEADER_SIZE..], AcceptAll())) then
              DecodeAll(input + []).Some? && DecodeAll(input + []).value.frames == DecodeAll(input).value.frames
            else Symbolized(input, [], symbols, maps)
  {
    hide VisitAll, Iterate, Run, OverflowMet, VisitedAddrs, TraceAddrs, Symbolized;
    Addresses(input);
    if DecodeAll(input).value.Clean() {
      NothingAdded(input, symbols, maps);
    } else {
      AppendedBehind(input, []);
    }
  }

  lemma Something(input: Bytes, e: EncState, entries: seq<Entry>, symbols: Symbols, maps: seq<MapsEntry>)
    requires DecodeHeader(input).Some? && Visited(input).end == AllConsumed
    requires Complete(entries, VisitedAddrs(Visited(input).events), symbols, maps)
    requires IsResumed(e, Visited(input).state) && CanResume(Visited(input).state)
    requires SymbolsKnown(e) && EntriesWritable(From(e), entries)
    ensures var output := WriteEntries(From(e), entries).current.bytes;
            if OverflowMet(Iterate(Fresh, input[HEADER_SIZE..], AcceptAll())) then
              DecodeAll(input + output).Some?
              && DecodeAll(input + output).value.frames == DecodeAll(input).value.frames
            else Symbolized(input, output, symbols, maps)
  {
    hide VisitAll, Iterate, Run, OverflowMet, VisitedAddrs, TraceAddrs, Symbolized, Complete, SymbolsKnown,
         EntriesWritable, WriteEntries, IsResumed, CanResume;
    Addresses(input);
    if DecodeAll(input).value.Clean() {
      OutputReads(input, e, entries, symbols, maps);
    } else {
      AppendedBehind(input, WriteEntries(From(e), entries).current.bytes);
    }
  }
}
