/** Appending symbols to a trace (perf-self-profile/src/offline_symbolize.rs). Looking an address
    up is an input; what is modelled is which addresses are looked up, what is written for them,
    and that the longer trace reads back. */
module Symbolize {
  import opened Wire
  import opened Wrappers
  import opened Utf8
  import opened Types
  import opened ZeroCopy
  import opened Schema
  import opened Codec
  import opened Decoding
  import opened Visitor
  import opened Encoding
  import opened RoundTrip
  import opened TraceEncoder
  import Segments

  const USER_ADDR_LIMIT: u64 := 0x0000_8000_0000_0000

  datatype MapsEntry = MapsEntry(start: u64, end: u64, fileOffset: u64, path: Text)

  /** A function, with source file and line if they are known. */
  datatype Frame = Frame(name: Text, code: Option<(Text, u64)>)

  /** The outermost function at an address and the calls inlined into it. */
  datatype Symbol = Symbol(outer: Frame, inlined: seq<Frame>)

  /** What the symbolizer answers: whether a batch works at all, and then each address. The
      texts are those of the placeholders for a batch that failed. */
  datatype Symbols = Symbols(kernelWorks: bool, kernel: u64 -> Option<Symbol>, kernelText: u64 -> Text,
                             elfWorks: nat -> bool, elf: (nat, nat) -> Option<Symbol>, failedText: u64 -> Text)

  /** One `SymbolTableEntry`. */
  datatype Entry = Entry(addr: u64, name: Text, depth: u64, file: Text, line: u64)

  // ----- what is written for an address -----

  function FrameEntry(addr: u64, f: Frame, depth: u64): Entry {
    match f.code
    case Some((file, line)) => Entry(addr, f.name, depth, file, line)
    case None => Entry(addr, f.name, depth, [], 0)
  }

  function InlinedEntries(addr: u64, inlined: seq<Frame>): seq<Entry> {
    seq(|inlined|, i requires 0 <= i < |inlined| => FrameEntry(addr, inlined[i], (i + 1) % TWO_64))
  }

  function SymbolEntries(addr: u64, symbol: Option<Symbol>): seq<Entry> {
    match symbol
    case None => []
    case Some(s) => [FrameEntry(addr, s.outer, 0)] + InlinedEntries(addr, s.inlined)
  }

  /** The first mapping that holds the address. */
  function MappingOf(maps: seq<MapsEntry>, addr: u64): (r: Option<nat>)
    ensures r.Some? ==> r.value < |maps| && maps[r.value].start <= addr < maps[r.value].end
    ensures forall i :: 0 <= i < (if r.Some? then r.value else |maps|) ==> !(maps[i].start <= addr < maps[i].end)
  {
    FirstMapping(maps, addr, 0)
  }

  function FirstMapping(maps: seq<MapsEntry>, addr: u64, from: nat): (r: Option<nat>)
    requires from <= |maps|
    ensures r.Some? ==> from <= r.value < |maps| && maps[r.value].start <= addr < maps[r.value].end
    ensures forall i :: from <= i < (if r.Some? then r.value else |maps|) ==> !(maps[i].start <= addr < maps[i].end)
    decreases |maps| - from
  {
    if from == |maps| then None
    else if maps[from].start <= addr < maps[from].end then Some(from)
    else FirstMapping(maps, addr, from + 1)
  }

  function EntriesFor(symbols: Symbols, maps: seq<MapsEntry>, addr: u64): seq<Entry> {
    if addr >= USER_ADDR_LIMIT then
      if symbols.kernelWorks then SymbolEntries(addr, symbols.kernel(addr))
      else [Entry(addr, symbols.kernelText(addr), 0, Ascii("kernel"), 0)]
    else
      match MappingOf(maps, addr)
      case None => []
      case Some(i) =>
        if symbols.elfWorks(i) then SymbolEntries(addr, symbols.elf(i, addr - maps[i].start + maps[i].fileOffset))
        else [Entry(addr, symbols.failedText(addr), 0, maps[i].path, 0)]
  }

  // ----- what an address's entries must be -----

  /** The entry tells the frame's name, and its file and line if they are known. */
  predicate ShowsFrame(entry: Entry, addr: u64, f: Frame, depth: nat) {
    && entry.addr == addr && entry.name == f.name && entry.depth == depth
    && match f.code
       case Some((file, line)) => entry.file == file && entry.line == line
       case None => entry.file == [] && entry.line == 0
  }

  /** The outermost function first, and then the calls inlined into it, one below the other. */
  ghost predicate ShowsSymbol(entries: seq<Entry>, addr: u64, symbol: Option<Symbol>) {
    match symbol
    case None => entries == []
    case Some(s) =>
      && |entries| == 1 + |s.inlined| && ShowsFrame(entries[0], addr, s.outer, 0)
      && forall k :: 0 <= k < |s.inlined| ==> ShowsFrame(entries[k + 1], addr, s.inlined[k], (k + 1) % TWO_64)
  }

  /** The mapping is the first to hold the address. */
  predicate Holder(maps: seq<MapsEntry>, addr: u64, i: nat) {
    && i < |maps| && maps[i].start <= addr < maps[i].end
    && forall j :: 0 <= j < i ==> !(maps[j].start <= addr < maps[j].end)
  }

  /** Kernel addresses are answered by the kernel, others by the file of their mapping, by the
      offset in it; each address of a batch that failed gets a placeholder. */
  ghost predicate Answered(entries: seq<Entry>, symbols: Symbols, maps: seq<MapsEntry>, addr: u64) {
    if addr >= 0x0000_8000_0000_0000 then
      if symbols.kernelWorks then ShowsSymbol(entries, addr, symbols.kernel(addr))
      else entries == [Entry(addr, symbols.kernelText(addr), 0, Ascii("kernel"), 0)]
    else
      && ((forall i: nat :: !Holder(maps, addr, i)) ==> entries == [])
      && forall i: nat :: Holder(maps, addr, i) ==>
           if symbols.elfWorks(i) then
             ShowsSymbol(entries, addr, symbols.elf(i, addr - maps[i].start + maps[i].fileOffset))
           else entries == [Entry(addr, symbols.failedText(addr), 0, maps[i].path, 0)]
  }

  lemma SymbolShown(addr: u64, symbol: Option<Symbol>)
    ensures ShowsSymbol(SymbolEntries(addr, symbol), addr, symbol)
  {
    hide ShowsFrame, FrameEntry;
    if symbol.Some? {
      var s, entries := symbol.value, SymbolEntries(addr, symbol);
      FrameShown(addr, s.outer, 0);
      forall k | 0 <= k < |s.inlined|
        ensures ShowsFrame(entries[k + 1], addr, s.inlined[k], (k + 1) % TWO_64)
      {
        assert entries[k + 1] == InlinedEntries(addr, s.inlined)[k];
        FrameShown(addr, s.inlined[k], (k + 1) % TWO_64);
      }
    }
  }

  lemma FrameShown(addr: u64, f: Frame, depth: u64)
    ensures ShowsFrame(FrameEntry(addr, f, depth), addr, f, depth)
  {
  }

  lemma EntriesAnswer(symbols: Symbols, maps: seq<MapsEntry>, addr: u64)
    ensures Answered(EntriesFor(symbols, maps, addr), symbols, maps, addr)
  {
    hide SymbolEntries, ShowsSymbol, Ascii;
    SymbolShown(addr, symbols.kernel(addr));
    var holder := MappingOf(maps, addr);
    if holder.Some? {
      assert Holder(maps, addr, holder.value);
      SymbolShown(addr, symbols.elf(holder.value, addr - maps[holder.value].start + maps[holder.value].fileOffset));
    }
  }

  /** Each of the addresses has its entries, in their order, and no other address has any. */
  ghost predicate AllAnswered(entries: seq<Entry>, addresses: set<u64>, symbols: Symbols, maps: seq<MapsEntry>) {
    forall a: u64 ::
      if a in addresses then Answered(OfAddr(entries, a), symbols, maps, a) else OfAddr(entries, a) == []
  }

  lemma CompleteAnswers(entries: seq<Entry>, addresses: set<u64>, symbols: Symbols, maps: seq<MapsEntry>)
    requires Complete(entries, addresses, symbols, maps)
    ensures AllAnswered(entries, addresses, symbols, maps)
  {
    hide OfAddr, Answered, EntriesFor;
    forall a: u64
      ensures if a in addresses then Answered(OfAddr(entries, a), symbols, maps, a) else OfAddr(entries, a) == []
    {
      assert OfAddr(entries, a) == if a in addresses then EntriesFor(symbols, maps, a) else [];
      EntriesAnswer(symbols, maps, a);
    }
  }

  // ----- collecting addresses -----

  function AddressesIn(values: seq<FieldValueRef>): set<u64> {
    set v, a | v in values && v.FramesRef? && a in IterAddrs(v.data, v.count) && a != 0 :: a
  }

  /** One field of frames. */
  method CollectFrames(data: Wire.Bytes, count: u32, addresses: set<u64>) returns (more: set<u64>)
    ensures more == addresses + set a | a in IterAddrs(data, count) && a != 0
  {
    hide IterAddrs;
    more := addresses;
    var iter := new StackFrameIter(data, count);
    ghost var found := iter.Left();
    var next := iter.Next();
    ghost var seen: seq<u64> := [];
    while next.Some?
      invariant iter.Valid() && fresh(iter)
      invariant found == seen + (if next.Some? then [next.value] else []) + iter.Left()
      invariant next.None? ==> iter.Left() == []
      invariant more == addresses + set a | a in seen && a != 0
      decreases |iter.Left()|, if next.Some? then 1 else 0
    {
      if next.value != 0 {
        more := more + {next.value};
      }
      seen := seen + [next.value];
      next := iter.Next();
    }
    assert found == seen;
  }

  method CollectStackFrameAddresses(values: seq<FieldValueRef>, addresses: set<u64>) returns (more: set<u64>)
    ensures more == addresses + AddressesIn(values)
  {
    hide IterAddrs;
    more := addresses;
    for i := 0 to |values|
      invariant more == addresses + AddressesIn(values[..i])
    {
      var v := values[i];
      assert values[..i + 1] == values[..i] + [v];
      if v.FramesRef? {
        more := CollectFrames(v.data, v.count, more);
      }
    }
    assert values[..|values|] == values;
  }

  // ----- writing an entry -----

  const SymbolTypes: seq<FieldType> := [Varint, Varint, PooledString, Varint, PooledString, Varint]

  function SymbolFieldNames(): (names: seq<string>)
    ensures |names| == 6 && forall i :: 0 <= i < 6 ==> |names[i]| < 20
  {
    ["addr", "size", "symbol_name", "inline_depth", "source_file", "source_line"]
  }

  function SymbolFields(): (fields: seq<FieldDef>)
    ensures |fields| == 6
    ensures forall i :: 0 <= i < 6 ==> fields[i].fieldType == SymbolTypes[i] && |fields[i].name| < 20
  {
    seq(6, i requires 0 <= i < 6 => FieldDef(Ascii(SymbolFieldNames()[i]), SymbolTypes[i]))
  }

  function SymbolName(): (name: Text)
    ensures |name| < 20
  {
    Ascii("SymbolTableEntry")
  }

  const SymbolDef: TypeDef := TypeDef(1, SymbolName(), SymbolFields())

  function EntryValues(entry: Entry, name: u32, file: u32): (v: seq<FieldValue>)
    ensures |v| == 6 == |SymbolDef.fields|
  {
    [VarintValue(entry.addr), VarintValue(0), PooledValue(name), VarintValue(entry.depth), PooledValue(file),
     VarintValue(entry.line)]
  }

  function PoolId(pool: map<Text, u32>, s: Text): u32 {
    if s in pool then pool[s] else 0
  }

  /** A string is interned. */
  function Took(s: Session, t: Text): Session {
    Exec(s, InternString(t))
  }

  predicate CanTake(s: Session, t: Text) {
    Allowed(s.enc, InternString(t))
  }

  /** Both strings are interned, and then the entry is written with their ids. */
  function Named(s: Session, entry: Entry): Session {
    Took(Took(s, entry.name), entry.file)
  }

  function EntryOp(e: EncState, entry: Entry): Op {
    WriteTyped(SymbolDef, 0, EntryValues(entry, PoolId(e.pool, entry.name), PoolId(e.pool, entry.file)))
  }

  function WriteEntry(s: Session, entry: Entry): Session {
    Exec(Named(s, entry), EntryOp(Named(s, entry).enc, entry))
  }

  function WriteEntries(s: Session, entries: seq<Entry>): Session
    decreases |entries|
  {
    if entries == [] then s
    else WriteEntry(WriteEntries(s, entries[..|entries| - 1]), entries[|entries| - 1])
  }

  /** The type is known already, or its name is free or has the same schema. */
  predicate SymbolsKnown(e: EncState) {
    || RustType(SymbolDef) in e.ids
    || (Name(SymbolDef.name) !in e.ids && e.nextId < TWO_16 - 1)
    || (Name(SymbolDef.name) in e.ids && e.ids[Name(SymbolDef.name)] in e.registry
        && e.registry[e.ids[Name(SymbolDef.name)]] == EntryOf(SymbolDef))
  }

  /** Lengths fit, and the pool has ids left. */
  predicate EntryWritable(s: Session, entry: Entry) {
    CanTake(s, entry.name) && CanTake(Took(s, entry.name), entry.file)
  }

  predicate EntriesWritable(s: Session, entries: seq<Entry>)
    decreases |entries|
  {
    entries == [] ||
    (EntriesWritable(s, entries[..|entries| - 1])
     && EntryWritable(WriteEntries(s, entries[..|entries| - 1]), entries[|entries| - 1]))
  }

  // ----- the entries in the longer trace -----

  /** The frame shows the entry, its strings by their ids, under the entries' schema. */
  ghost predicate Shows(e: EncState, f: Decoded<FieldValue>, entry: Entry) {
    && entry.name in e.pool && entry.file in e.pool
    && f.EventSeen? && f.timestamp == Some(0)
    && f.typeId in e.registry && e.registry[f.typeId] == EntryOf(SymbolDef)
    && f.values == EntryValues(entry, e.pool[entry.name], e.pool[entry.file])
  }

  /** After the events that were there, one event for each entry. */
  ghost predicate Appended(e: EncState, before: seq<Decoded<FieldValue>>, after: seq<Decoded<FieldValue>>,
                           entries: seq<Entry>) {
    && |after| == |before| + |entries| && before <= after
    && forall i :: 0 <= i < |entries| ==> Shows(e, after[|before| + i], entries[i])
  }

  lemma SameSymbols(e: EncState, e1: EncState)
    requires SymbolsKnown(e) && e1.ids == e.ids && e1.registry == e.registry && e1.nextId == e.nextId
    ensures SymbolsKnown(e1)
  {
    hide SymbolName, SymbolFields;
  }

  /** The type always gets its id. */
  lemma SymbolType(e: EncState)
    requires SymbolsKnown(e)
    ensures TypeIdEffect(e, SymbolDef).result.Id? && SymbolsKnown(TypeIdEffect(e, SymbolDef).state)
  {
    hide SymbolName, SymbolFields, EncodeSchema;
  }

  /** The string is in the pool, and no event has been written. */
  ghost predicate TookString(s: Session, s1: Session, t: Text) {
    && SessionOk(s1) && SymbolsKnown(s1.enc) && s1.done == s.done
    && Segments.Grows(s.enc, s1.enc) && t in s1.enc.pool
    && KeepEvents(s1.current.log) == KeepEvents(s.current.log)
  }

  lemma InternEntry(s: Session, t: Text)
    requires SessionOk(s) && SymbolsKnown(s.enc) && CanTake(s, t)
    ensures TookString(s, Took(s, t), t)
  {
    hide EncodePool, SymbolsKnown, SessionOk;
    ExecOk(s, InternString(t));
    var r := InternEffect(s.enc, t);
    SameSymbols(s.enc, r.state);
    Segments.KeepAppend(s.current.log, r.log);
    assert r.log == [] || r.log[1..] == [];
  }

  lemma SymbolsSized()
    ensures SizedSchema(EntryOf(SymbolDef))
  {
    hide SymbolName, SymbolFields;
  }

  lemma SymbolFits(entry: Entry, name: u32, file: u32)
    ensures TypedFit(SymbolDef.fields, EntryValues(entry, name, file))
  {
    hide SymbolName, SymbolFields;
  }

  lemma SymbolAllowed(e: EncState, entry: Entry)
    requires SymbolsKnown(e)
    ensures Allowed(e, EntryOp(e, entry))
  {
    SymbolsSized();
    hide SizedSchema, SymbolName, SymbolFields, PoolId, TypedFit;
    SymbolFits(entry, PoolId(e.pool, entry.name), PoolId(e.pool, entry.file));
  }

  lemma TypeEntry(s: Session, entry: Entry)
    requires SessionOk(s) && SymbolsKnown(s.enc) && entry.name in s.enc.pool && entry.file in s.enc.pool
    ensures var s1 := Exec(s, EntryOp(s.enc, entry));
            && SessionOk(s1) && SymbolsKnown(s1.enc) && s1.done == s.done && Segments.Grows(s.enc, s1.enc)
            && Appended(s1.enc, KeepEvents(s.current.log), KeepEvents(s1.current.log), [entry])
  {
    hide SymbolsKnown, SessionOk, SymbolName, SymbolFields, Allowed, WriteTypedEffect, EntryOp, Apply, TypeIdEffect,
         Segments.Grows;
    SymbolAllowed(s.enc, entry);
    ExecOk(s, EntryOp(s.enc, entry));
    EntryLogged(s.enc, entry);
    EntryTyped(s, entry);
    var reg := TypeIdEffect(s.enc, SymbolDef);
    var f := EventSeen(reg.result.id, Some(0), EntryValues(entry, s.enc.pool[entry.name], s.enc.pool[entry.file]));
    Segments.KeepLast(s.current.log, reg.log, f);
  }

  /** The id the event is written under stands for the entries' schema. */
  lemma EntryTyped(s: Session, entry: Entry)
    requires SessionOk(s) && SymbolsKnown(s.enc)
    ensures var id, e1 := TypeIdEffect(s.enc, SymbolDef).result, Apply(s.enc, EntryOp(s.enc, entry)).state;
            && id.Id? && id.id in e1.registry && e1.registry[id.id] == EntryOf(SymbolDef)
            && Segments.Grows(s.enc, e1)
  {
    hide SymbolName, SymbolFields, EncodeSchema, EventBytes, EncodeFields, EntryValues, Consistent, ReadsBack;
    Segments.SessionFacts(s);
    Segments.TypeIdGrows(s.enc, SymbolDef);
    SymbolType(s.enc);
    hide SessionOk;
  }

  lemma EntryLogged(e: EncState, entry: Entry)
    requires SymbolsKnown(e) && entry.name in e.pool && entry.file in e.pool
    ensures var reg, r := TypeIdEffect(e, SymbolDef), Apply(e, EntryOp(e, entry));
            && reg.result.Id? && KeepEvents(reg.log) == [] && !EntryOp(e, entry).ResetTo?
            && r.log == reg.log + [EventSeen(reg.result.id, Some(0),
                                             EntryValues(entry, e.pool[entry.name], e.pool[entry.file]))]
            && r.state.pool == e.pool && SymbolsKnown(r.state)
  {
    hide SymbolsKnown, SymbolName, SymbolFields, TypeIdEffect, EventBytes, EncodeFields, EntryValues;
    SymbolType(e);
    TypeIdKeepsPool(e, SymbolDef);
    Segments.TypeIdLog(e, SymbolDef);
    var reg := TypeIdEffect(e, SymbolDef);
    SameSymbols(reg.state, reg.state.(base := 0));
  }

  lemma AppendedMore(e: EncState, e1: EncState, before: seq<Decoded<FieldValue>>, log: seq<Decoded<FieldValue>>,
                     after: seq<Decoded<FieldValue>>, entries: seq<Entry>, entry: Entry)
    requires Appended(e, before, log, entries) && Segments.Grows(e, e1) && Appended(e1, log, after, [entry])
    ensures Appended(e1, before, after, entries + [entry])
  {
    hide Shows;
    forall i | 0 <= i < |entries| + 1
      ensures Shows(e1, after[|before| + i], (entries + [entry])[i])
    {
      if i < |entries| {
        assert after[|before| + i] == log[|before| + i];
        ShowsStill(e, e1, log[|before| + i], entries[i]);
      } else {
        assert Shows(e1, after[|log| + 0], [entry][0]);
      }
    }
  }

  lemma ShowsStill(e: EncState, e1: EncState, f: Decoded<FieldValue>, entry: Entry)
    requires Shows(e, f, entry) && Segments.Grows(e, e1)
    ensures Shows(e1, f, entry)
  {
    hide EntryValues;
  }

  lemma EntryStep(s: Session, entry: Entry)
    requires SessionOk(s) && SymbolsKnown(s.enc) && EntryWritable(s, entry)
    ensures var s1 := WriteEntry(s, entry);
            && SessionOk(s1) && SymbolsKnown(s1.enc) && s1.done == s.done && Segments.Grows(s.enc, s1.enc)
            && Appended(s1.enc, KeepEvents(s.current.log), KeepEvents(s1.current.log), [entry])
  {
    hide SessionOk, SymbolsKnown, Took, CanTake, Exec, Appended, EntryOp;
    InternEntry(s, entry.name);
    InternEntry(Took(s, entry.name), entry.file);
    TypeEntry(Named(s, entry), entry);
  }

  /** Whatever is written, the log gains one event for each entry, in order. */
  lemma {:induction false} EntriesLogged(s: Session, entries: seq<Entry>)
    requires SessionOk(s) && SymbolsKnown(s.enc) && EntriesWritable(s, entries)
    ensures var s1 := WriteEntries(s, entries);
            && SessionOk(s1) && SymbolsKnown(s1.enc) && s1.done == s.done && Segments.Grows(s.enc, s1.enc)
            && Appended(s1.enc, KeepEvents(s.current.log), KeepEvents(s1.current.log), entries)
    decreases |entries|
  {
    hide SessionOk, SymbolsKnown, WriteEntry, Shows, EntryWritable;
    if entries != [] {
      var front, last := entries[..|entries| - 1], entries[|entries| - 1];
      EntriesLogged(s, front);
      var s1 := WriteEntries(s, front);
      EntryStep(s1, last);
      var s2 := WriteEntry(s1, last);
      AppendedMore(s1.enc, s2.enc, KeepEvents(s.current.log), KeepEvents(s1.current.log), KeepEvents(s2.current.log),
                   front, last);
      assert front + [last] == entries;
    }
  }

  // ----- which entries are written -----

  function OfAddr(entries: seq<Entry>, addr: u64): seq<Entry> {
    if entries == [] then []
    else OfAddr(entries[..|entries| - 1], addr)
         + if entries[|entries| - 1].addr == addr then [entries[|entries| - 1]] else []
  }

  lemma {:induction false} OfAddrAppend(a: seq<Entry>, b: seq<Entry>, addr: u64)
    ensures OfAddr(a + b, addr) == OfAddr(a, addr) + OfAddr(b, addr)
    decreases |b|
  {
    if b == [] {
      assert a + b == a;
    } else {
      assert (a + b)[..|a + b| - 1] == a + b[..|b| - 1];
      OfAddrAppend(a, b[..|b| - 1], addr);
    }
  }

  lemma {:induction false} OfOwnAddr(entries: seq<Entry>, addr: u64, other: u64)
    requires forall i :: 0 <= i < |entries| ==> entries[i].addr == addr
    ensures OfAddr(entries, other) == if other == addr then entries else []
  {
    if entries != [] {
      OfOwnAddr(entries[..|entries| - 1], addr, other);
    }
  }

  /** For the addresses done so far the entries are there, in their order; for others none. */
  ghost predicate Complete(entries: seq<Entry>, done: set<u64>, symbols: Symbols, maps: seq<MapsEntry>) {
    forall a: u64 :: OfAddr(entries, a) == if a in done then EntriesFor(symbols, maps, a) else []
  }

  lemma CompleteMore(entries: seq<Entry>, done: set<u64>, symbols: Symbols, maps: seq<MapsEntry>, addr: u64)
    requires Complete(entries, done, symbols, maps) && addr !in done
    ensures Complete(entries + EntriesFor(symbols, maps, addr), done + {addr}, symbols, maps)
  {
    hide OfAddr;
    var more := EntriesFor(symbols, maps, addr);
    assert forall i :: 0 <= i < |more| ==> more[i].addr == addr;
    hide EntriesFor;
    forall a: u64
      ensures OfAddr(entries + more, a) == if a in done + {addr} then EntriesFor(symbols, maps, a) else []
    {
      OfAddrAppend(entries, more, a);
      OfOwnAddr(more, addr, a);
      assert OfAddr(entries, a) == if a in done then EntriesFor(symbols, maps, a) else [];
    }
  }

  /** `write_symbolized_batch`, or the placeholders if the batch failed. */
  method BatchEntries(entries: seq<Entry>, addrs: set<u64>, works: bool, lookup: u64 -> Option<Symbol>,
                      text: u64 -> Text, file: Text,
                      ghost done: set<u64>, ghost symbols: Symbols, ghost maps: seq<MapsEntry>)
    returns (more: seq<Entry>)
    requires Complete(entries, done, symbols, maps) && addrs !! done
    requires forall a :: a in addrs ==>
               EntriesFor(symbols, maps, a)
               == if works then SymbolEntries(a, lookup(a)) else [Entry(a, text(a), 0, file, 0)]
    ensures Complete(more, done + addrs, symbols, maps)
  {
    hide EntriesFor, SymbolEntries, Complete;
    more := entries;
    var todo := addrs;
    assert done + (addrs - todo) == done;
    while todo != {}
      invariant todo <= addrs && Complete(more, done + (addrs - todo), symbols, maps)
      decreases todo
    {
      var addr: u64 :| addr in todo;
      CompleteMore(more, done + (addrs - todo), symbols, maps, addr);
      assert done + (addrs - todo) + {addr} == done + (addrs - (todo - {addr}));
      more := more + if works then SymbolEntries(addr, lookup(addr)) else [Entry(addr, text(addr), 0, file, 0)];
      todo := todo - {addr};
    }
    assert done + (addrs - todo) == done + addrs;
  }

  lemma CompleteNone(symbols: Symbols, maps: seq<MapsEntry>)
    ensures Complete([], {}, symbols, maps)
  {
  }

  /** Addresses with nothing to write are done as well. */
  lemma CompleteUnmapped(entries: seq<Entry>, done: set<u64>, all: set<u64>, symbols: Symbols, maps: seq<MapsEntry>)
    requires Complete(entries, done, symbols, maps) && done <= all
    requires forall a :: a in all - done ==> a < USER_ADDR_LIMIT && MappingOf(maps, a).None?
    ensures Complete(entries, all, symbols, maps)
  {
    hide OfAddr, MappingOf;
    forall a: u64
      ensures OfAddr(entries, a) == if a in all then EntriesFor(symbols, maps, a) else []
    {
      assert OfAddr(entries, a) == if a in done then EntriesFor(symbols, maps, a) else [];
      if a in all && a !in done {
        assert a in all - done;
        assert EntriesFor(symbols, maps, a) == [];
      }
    }
  }

  /** The addresses of one mapping. */
  ghost function InMapping(addresses: set<u64>, maps: seq<MapsEntry>, i: nat): set<u64> {
    set a | a in addresses && a < USER_ADDR_LIMIT && MappingOf(maps, a) == Some(i)
  }

  /** Kernel addresses, and the others by mapping; an address that no mapping holds is passed
      over. */
  method GroupAddresses(addresses: set<u64>, maps: seq<MapsEntry>)
    returns (kernelAddrs: set<u64>, groups: map<nat, set<u64>>)
    ensures kernelAddrs == set a | a in addresses && a >= USER_ADDR_LIMIT
    ensures forall i :: i in groups ==> groups[i] == InMapping(addresses, maps, i)
    ensures forall a :: a in addresses && a < USER_ADDR_LIMIT && MappingOf(maps, a).Some? ==>
              MappingOf(maps, a).value in groups
  {
    hide MappingOf;
    kernelAddrs, groups := {}, map[];
    var todo := addresses;
    while todo != {}
      invariant todo <= addresses
      invariant kernelAddrs == set a | a in addresses - todo && a >= USER_ADDR_LIMIT
      invariant forall i :: i in groups ==> groups[i] == InMapping(addresses - todo, maps, i)
      invariant forall a :: a in addresses - todo && a < USER_ADDR_LIMIT && MappingOf(maps, a).Some? ==>
                  MappingOf(maps, a).value in groups
      decreases todo
    {
      var addr: u64 :| addr in todo;
      if addr >= USER_ADDR_LIMIT {
        kernelAddrs := kernelAddrs + {addr};
      } else {
        var i := MappingOf(maps, addr);
        if i.Some? {
          groups := groups[i.value := (if i.value in groups then groups[i.value] else {}) + {addr}];
        }
      }
      todo := todo - {addr};
    }
    assert addresses - todo == addresses;
  }

  /** What has been written once some of the groups are left. */
  ghost function DoneBut(addresses: set<u64>, maps: seq<MapsEntry>, left: set<nat>): set<u64> {
    set a | a in addresses && (a >= USER_ADDR_LIMIT || (MappingOf(maps, a).Some? && MappingOf(maps, a).value !in left))
  }

  /** Kernel addresses first, then those of each mapping, the mappings in any order. */
  method PlanEntries(addresses: set<u64>, maps: seq<MapsEntry>, symbols: Symbols) returns (entries: seq<Entry>)
    ensures Complete(entries, addresses, symbols, maps) && AllAnswered(entries, addresses, symbols, maps)
  {
    hide EntriesFor, Complete, MappingOf, SymbolEntries, AllAnswered;
    var kernelAddrs, groups := GroupAddresses(addresses, maps);
    CompleteNone(symbols, maps);
    KernelEntries(symbols, maps);
    entries := BatchEntries([], kernelAddrs, symbols.kernelWorks, symbols.kernel, symbols.kernelText, Ascii("kernel"),
                            {}, symbols, maps);
    var left := groups.Keys;
    assert {} + kernelAddrs == DoneBut(addresses, maps, left);
    while left != {}
      invariant left <= groups.Keys && Complete(entries, DoneBut(addresses, maps, left), symbols, maps)
      decreases left
    {
      var i: nat :| i in left;
      assert DoneBut(addresses, maps, left - {i}) == DoneBut(addresses, maps, left) + groups[i];
      entries := MappingEntries(entries, groups[i], i, DoneBut(addresses, maps, left), symbols, maps);
      left := left - {i};
    }
    CompleteUnmapped(entries, DoneBut(addresses, maps, {}), addresses, symbols, maps);
    CompleteAnswers(entries, addresses, symbols, maps);
  }

  /** One mapping's batch. */
  method MappingEntries(entries: seq<Entry>, addrs: set<u64>, i: nat, ghost done: set<u64>, symbols: Symbols,
                        maps: seq<MapsEntry>)
    returns (more: seq<Entry>)
    requires Complete(entries, done, symbols, maps) && addrs !! done
    requires forall a :: a in addrs ==> a < USER_ADDR_LIMIT && MappingOf(maps, a) == Some(i)
    ensures Complete(more, done + addrs, symbols, maps)
  {
    hide EntriesFor, Complete, SymbolEntries, FirstMapping, Ascii;
    if addrs == {} {
      assert done + addrs == done;
      return entries;
    }
    GroupEntries(symbols, maps, i);
    var some: u64 :| some in addrs;
    assert MappingOf(maps, some).Some?;
    var entry := maps[i];
    more := BatchEntries(entries, addrs, symbols.elfWorks(i),
                         (a: u64) => symbols.elf(i, if a >= entry.start then a - entry.start + entry.fileOffset else 0),
                         symbols.failedText, entry.path, done, symbols, maps);
  }

  lemma KernelEntries(symbols: Symbols, maps: seq<MapsEntry>)
    ensures forall a: u64 :: a >= USER_ADDR_LIMIT ==>
              EntriesFor(symbols, maps, a)
              == if symbols.kernelWorks then SymbolEntries(a, symbols.kernel(a))
                 else [Entry(a, symbols.kernelText(a), 0, Ascii("kernel"), 0)]
  {
    hide SymbolEntries, Ascii;
  }

  lemma GroupEntries(symbols: Symbols, maps: seq<MapsEntry>, i: nat)
    ensures forall a: u64 :: a < USER_ADDR_LIMIT && MappingOf(maps, a) == Some(i) ==>
              EntriesFor(symbols, maps, a)
              == if symbols.elfWorks(i) then SymbolEntries(a, symbols.elf(i, a - maps[i].start + maps[i].fileOffset))
                 else [Entry(a, symbols.failedText(a), 0, maps[i].path, 0)]
  {
    hide SymbolEntries, Ascii;
  }

  // ----- writing them -----

  /** The same calls append the same bytes, whatever was written before. */
  lemma SameAppend(s: Session, p: Session, pre: Bytes, op: Op)
    requires s.enc == p.enc && s.current.bytes == pre + p.current.bytes && !op.ResetTo?
    ensures Exec(s, op).enc == Exec(p, op).enc && Exec(s, op).current.bytes == pre + Exec(p, op).current.bytes
  {
    hide Apply;
    assert pre + p.current.bytes + Apply(p.enc, op).bytes == pre + (p.current.bytes + Apply(p.enc, op).bytes);
  }

  lemma {:induction false} EntriesAppend(s: Session, p: Session, pre: Bytes, entries: seq<Entry>)
    requires s.enc == p.enc && s.current.bytes == pre + p.current.bytes
    ensures WriteEntries(s, entries).enc == WriteEntries(p, entries).enc
    ensures WriteEntries(s, entries).current.bytes == pre + WriteEntries(p, entries).current.bytes
    decreases |entries|
  {
    hide Exec, EntryOp, EntryValues;
    if entries != [] {
      var front, entry := entries[..|entries| - 1], entries[|entries| - 1];
      var s0, p0 := WriteEntries(s, front), WriteEntries(p, front);
      EntriesAppend(s, p, pre, front);
      SameAppend(s0, p0, pre, InternString(entry.name));
      SameAppend(Took(s0, entry.name), Took(p0, entry.name), pre, InternString(entry.file));
      NoResetOp(Named(s0, entry).enc, entry);
      SameAppend(Named(s0, entry), Named(p0, entry), pre, EntryOp(Named(s0, entry).enc, entry));
    }
  }

  lemma NoResetOp(e: EncState, entry: Entry)
    ensures !EntryOp(e, entry).ResetTo?
  {
    hide EntryValues;
  }

  lemma SymbolsStay(s: Session, entry: Entry)
    requires SymbolsKnown(s.enc)
    ensures SymbolsKnown(Named(s, entry).enc) && SymbolsKnown(WriteEntry(s, entry).enc)
  {
    hide SymbolsKnown, WriteTypedEffect, EncodePool, EntryValues;
    var e1 := InternEffect(s.enc, entry.name).state;
    SameSymbols(s.enc, e1);
    SameSymbols(e1, InternEffect(e1, entry.file).state);
    EntryLogged(Named(s, entry).enc, entry);
  }

  lemma SymbolRegistrable(e: EncState)
    requires SymbolsKnown(e)
    ensures RustType(SymbolDef) in e.ids || CanRegister(e, EntryOf(SymbolDef))
  {
    SymbolsSized();
    hide SizedSchema, SymbolName, SymbolFields;
  }

  /** Two strings and an event. `s` is the encoder's state with the bytes behind `pre`. */
  method WriteOneEntry(encoder: Encoder, entry: Entry, ghost s: Session, ghost pre: Bytes)
    requires encoder.Valid() && encoder.State() == s.enc && encoder.writer == pre + s.current.bytes
    requires SymbolsKnown(s.enc) && EntryWritable(s, entry)
    modifies encoder, encoder.registry
    ensures encoder.Valid()
    ensures var s1 := WriteEntry(s, entry); encoder.State() == s1.enc && encoder.writer == pre + s1.current.bytes
  {
    hide SymbolsKnown, InternEffect, WriteTypedEffect, EntryValues, CanRegister, EnsureRegistered, WriteEventEffect,
         SymbolName, SymbolFields;
    SymbolsStay(s, entry);
    var symbolName := encoder.InternString(entry.name);
    var sourceFile := encoder.InternString(entry.file);
    SymbolRegistrable(encoder.State());
    IdsOf(s, entry);
    var r := encoder.Write(SymbolDef, 0, EntryValues(entry, symbolName.id, sourceFile.id));
    assert pre + (s.current.bytes + InternEffect(s.enc, entry.name).bytes)
           == pre + s.current.bytes + InternEffect(s.enc, entry.name).bytes;
  }

  /** The ids the two calls return are those the pool has. */
  lemma IdsOf(s: Session, entry: Entry)
    ensures var r1 := InternEffect(s.enc, entry.name);
            var r2 := InternEffect(r1.state, entry.file);
            && r1.result == Id(PoolId(r2.state.pool, entry.name)) && r2.result == Id(PoolId(r2.state.pool, entry.file))
  {
    hide EncodePool;
  }

  lemma {:induction false} SameWritable(s: Session, p: Session, pre: Bytes, entries: seq<Entry>)
    requires s.enc == p.enc && s.current.bytes == pre + p.current.bytes && EntriesWritable(p, entries)
    ensures EntriesWritable(s, entries)
    decreases |entries|
  {
    hide Apply, WriteEntry, Allowed;
    if entries != [] {
      SameWritable(s, p, pre, entries[..|entries| - 1]);
      EntriesAppend(s, p, pre, entries[..|entries| - 1]);
    }
  }

  /** Every entry in turn, through the resumed encoder. */
  method WriteSymbols(encoder: Encoder, entries: seq<Entry>)
    requires encoder.Valid() && SymbolsKnown(encoder.State()) && EntriesWritable(From(encoder.State()), entries)
    modifies encoder, encoder.registry
    ensures encoder.Valid()
    ensures encoder.State() == WriteEntries(From(old(encoder.State())), entries).enc
    ensures encoder.writer == old(encoder.writer) + WriteEntries(From(old(encoder.State())), entries).current.bytes
  {
    hide SymbolsKnown, WriteEntry, EntryWritable;
    ghost var start, pre := From(encoder.State()), encoder.writer;
    assert pre + [] == pre;
    for i := 0 to |entries|
      invariant encoder.Valid() && SymbolsKnown(encoder.State())
      invariant encoder.State() == WriteEntries(start, entries[..i]).enc
      invariant encoder.writer == pre + WriteEntries(start, entries[..i]).current.bytes
    {
      assert entries[..i + 1][..i] == entries[..i];
      WritableAt(start, entries, i);
      SymbolsStay(WriteEntries(start, entries[..i]), entries[i]);
      WriteOneEntry(encoder, entries[i], WriteEntries(start, entries[..i]), pre);
    }
    assert entries[..|entries|] == entries;
  }

  lemma {:induction false} WritableAt(s: Session, entries: seq<Entry>, i: nat)
    requires EntriesWritable(s, entries) && i < |entries|
    ensures EntryWritable(WriteEntries(s, entries[..i]), entries[i])
    decreases |entries|
  {
    hide EntryWritable, WriteEntry;
    if i < |entries| - 1 {
      assert entries[..|entries| - 1][..i] == entries[..i];
      WritableAt(s, entries[..|entries| - 1], i);
    }
  }

  /** The trace with the encoder's output behind it decodes to its end; its events are those that
      were there and then one for each entry, whose strings resolve to the entry's. */
  lemma SymbolsReadBack(data: Bytes, e: EncState, entries: seq<Entry>)
    requires DecodeAll(data).Some? && DecodeAll(data).value.Clean()
    requires CanResume(DecodeAll(data).value.state) && IsResumed(e, DecodeAll(data).value.state) && SymbolsKnown(e)
    requires EntriesWritable(From(e), entries)
    ensures var output := WriteEntries(From(e), entries).current.bytes;
            exists s: Session ::
              && s.current.bytes == data + output && ReadsBack(s.current) && s.current.pool == s.enc.pool
              && DecodeAll(s.current.bytes).value.state.registry == s.enc.registry
              && Appended(s.enc, KeepEvents(DecodeAll(data).value.frames), KeepEvents(s.current.log), entries)
  {
    hide DecodeAll, EntriesWritable, Appended, IsResumed, CanResume, WriteEntries, SymbolsKnown, KeepEvents, ReadsBack;
    var s := Session(e, [], Stream(data, DecodeAll(data).value.frames, e.pool), []);
    assert data + [] == data;
    SameWritable(s, From(e), data, entries);
    EntriesAppend(s, From(e), data, entries);
    ResumedSession(data, e);
    EntriesLogged(s, entries);
    hide Segments.Grows;
    var s1 := WriteEntries(s, entries);
    assert SessionOk(s1) && ReadsBack(s1.current) && s1.current.pool == s1.enc.pool;
    SameSchemas(s1);
  }

  lemma SameSchemas(s: Session)
    requires SessionOk(s)
    ensures DecodeAll(s.current.bytes).Some? && DecodeAll(s.current.bytes).value.state.registry == s.enc.registry
  {
    hide DecodeAll, CacheAgrees;
  }
}
