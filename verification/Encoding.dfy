/** What the encoder writes: each call as a transition of the encoder's state that appends
    bytes, together with the frames a reader should find in them
    (dial9-trace-format/src/encoder.rs). */
module Encoding {
  import opened Wire
  import opened Wrappers
  import opened Utf8
  import opened Types
  import opened ZeroCopy
  import opened Schema
  import opened Codec
  import opened Decoding

  /** A Rust type that derives `TraceEvent`: its identity fixes its schema. */
  datatype TypeDef = TypeDef(uid: nat, name: Text, fields: seq<FieldDef>)

  datatype SchemaKey = Name(name: Text) | RustType(def: TypeDef)

  datatype EncState = EncState(registry: map<u16, SchemaEntry>, nextId: nat,
                               pool: map<Text, u32>, nextPool: nat,
                               ids: map<SchemaKey, u16>, base: u64)

  const FreshEncoder := EncState(map[], 0, map[], 0, map[], 0)

  /** `Schema::new`: a handle always asks for timestamps. */
  function Handle(name: Text, fields: seq<FieldDef>): SchemaEntry {
    SchemaEntry(name, true, fields)
  }

  function EntryOf(def: TypeDef): SchemaEntry {
    Handle(def.name, def.fields)
  }

  datatype Call =
    | RegisterSchema(schema: SchemaEntry)
    | WriteEvent(schema: SchemaEntry, values: seq<FieldValue>)
    | WriteTyped(def: TypeDef, timestamp: u64, fields: seq<FieldValue>)
    | InternString(s: Text)
    | ResetTo

  /** A typed event has one value for each field of its type. */
  type Op = c: Call | c.WriteTyped? ==> |c.fields| == |c.def.fields| witness ResetTo

  datatype Refusal = SchemaDiffers | SchemaLost | NoTimestamp | WrongCount

  datatype OpResult = Done | Id(id: u32) | Refused(why: Refusal)

  /** A call's effect: the new state, the bytes appended, and the frames those bytes stand for. */
  datatype Effect = Effect(state: EncState, bytes: Bytes, log: seq<Decoded<FieldValue>>, result: OpResult)

  /** `ensure_registered`. */
  function EnsureRegistered(e: EncState, entry: SchemaEntry): (r: Effect)
    ensures r.result != Done
    ensures r.result.Id? ==> r.result.id < TWO_16
  {
    var key := Name(entry.name);
    if key in e.ids then
      var id := e.ids[key];
      if id !in e.registry then Effect(e, [], [], Refused(SchemaLost))
      else if e.registry[id] == entry then Effect(e, [], [], Id(id))
      else Effect(e, [], [], Refused(SchemaDiffers))
    else
      var id := e.nextId % TWO_16;
      Effect(e.(nextId := e.nextId + 1, registry := e.registry[id := entry], ids := e.ids[key := id]),
             EncodeSchema(id, entry), [SchemaSeen(entry)], Id(id))
  }

  /** `encode_timestamp_delta`: a reset frame when the delta is negative or too large. */
  function DeltaOf(base: u64, ts: u64): (r: (Bytes, nat))
    ensures r.1 <= MAX_TIMESTAMP_DELTA
  {
    if ts < base || ts - base > MAX_TIMESTAMP_DELTA then (EncodeReset(ts), 0) else ([], ts - base)
  }

  function EventBytes(base: u64, typeId: u16, ts: u64, fields: Bytes): Bytes {
    DeltaOf(base, ts).0 + EncodeEvent(typeId, DeltaOf(base, ts).1, fields)
  }

  /** The schema frame, if any, is written before the values are looked at. */
  function WriteEventEffect(e: EncState, schema: SchemaEntry, values: seq<FieldValue>): Effect {
    var reg := EnsureRegistered(e, schema);
    if reg.result.Refused? then reg
    else if values == [] || !values[0].VarintValue? then reg.(result := Refused(NoTimestamp))
    else if |values| - 1 != |schema.fields| then reg.(result := Refused(WrongCount))
    else
      var ts := values[0].n;
      Effect(reg.state.(base := ts),
             reg.bytes + EventBytes(reg.state.base, reg.result.id, ts, Flat(EncodeValue, values[1..])),
             reg.log + [EventSeen(reg.result.id, Some(ts), values[1..])],
             Done)
  }

  /** A type's id is looked up by type first, by schema name only the first time. */
  function TypeIdEffect(e: EncState, def: TypeDef): (r: Effect)
    ensures r.result != Done
    ensures r.result.Id? ==> r.result.id < TWO_16
  {
    if RustType(def) in e.ids then Effect(e, [], [], Id(e.ids[RustType(def)]))
    else
      var reg := EnsureRegistered(e, EntryOf(def));
      if reg.result.Refused? then reg
      else reg.(state := reg.state.(ids := reg.state.ids[RustType(def) := reg.result.id]))
  }

  function WriteTypedEffect(e: EncState, def: TypeDef, ts: u64, fields: seq<FieldValue>): Effect
    requires |fields| == |def.fields|
  {
    var reg := TypeIdEffect(e, def);
    if reg.result.Refused? then reg
    else
      Effect(reg.state.(base := ts),
             reg.bytes + EventBytes(reg.state.base, reg.result.id, ts, EncodeFields(FieldTypes(def.fields), fields)),
             reg.log + [EventSeen(reg.result.id, Some(ts), fields)],
             Done)
  }

  function InternEffect(e: EncState, s: Text): (r: Effect)
    ensures r.result.Id?
  {
    if s in e.pool then Effect(e, [], [], Id(e.pool[s]))
    else
      var id := e.nextPool % TWO_32;
      Effect(e.(pool := e.pool[s := id], nextPool := e.nextPool + 1),
             EncodePool([PoolEntry(id, s)]), [PoolSeen([PoolEntry(id, s)])], Id(id))
  }

  /** One call that stays on the same stream. */
  function Apply(e: EncState, op: Op): Effect
    requires !op.ResetTo?
  {
    match op
    case RegisterSchema(schema) => EnsureRegistered(e, schema)
    case WriteEvent(schema, values) => WriteEventEffect(e, schema, values)
    case WriteTyped(def, ts, fields) => WriteTypedEffect(e, def, ts, fields)
    case InternString(s) => InternEffect(e, s)
  }

  // ----- what a caller must see to -----

  /** A schema that would be written has lengths that fit and an id left for it. */
  predicate CanRegister(e: EncState, entry: SchemaEntry) {
    Name(entry.name) !in e.ids ==> e.nextId < TWO_16 - 1 && SizedSchema(entry)
  }

  predicate UntypedFit(fields: seq<FieldDef>, values: seq<FieldValue>)
    requires |fields| == |values|
  {
    forall i :: 0 <= i < |fields| ==> Sized(values[i]) && FitsUntyped(fields[i].fieldType, values[i])
  }

  predicate TypedFit(fields: seq<FieldDef>, values: seq<FieldValue>)
    requires |fields| == |values|
  {
    forall i :: 0 <= i < |fields| ==> Sized(values[i]) && Fits(fields[i].fieldType, values[i])
  }

  /** Lengths fit their prefixes, ids are left, schemas come from `Schema::new`, and the values
      that get written read back under the schema's types. Calls that end in an error are allowed. */
  predicate Allowed(e: EncState, op: Op) {
    match op
    case RegisterSchema(schema) =>
      schema.hasTimestamp && CanRegister(e, schema)
    case WriteEvent(schema, values) =>
      schema.hasTimestamp && CanRegister(e, schema) &&
      (|values| == 1 + |schema.fields| ==> UntypedFit(schema.fields, values[1..]))
    case WriteTyped(def, ts, fields) =>
      (RustType(def) in e.ids || CanRegister(e, EntryOf(def))) && TypedFit(def.fields, fields)
    case InternString(s) =>
      |s| < TWO_32 && (s !in e.pool ==> e.nextPool < TWO_32 - 1)
    case ResetTo => true
  }

  // ----- encoder and decoder side by side -----

  /** The decoder that has read exactly what the encoder has written. */
  ghost predicate Consistent(e: EncState, d: DecState) {
    && e.registry == d.registry && CacheAgrees(d) && e.base == d.base
    && (forall k :: k in e.ids ==> e.ids[k] in e.registry)
    && (forall def :: RustType(def) in e.ids ==> e.registry[e.ids[RustType(def)]] == EntryOf(def))
    && AllBelow(e.registry.Keys, e.nextId) && e.nextId < TWO_16
    && (forall s :: s in e.pool ==> e.pool[s] in d.pool && d.pool[e.pool[s]] == s)
    && (forall id :: id in d.pool ==> id < e.nextPool) && e.nextPool < TWO_32
  }

  /** The encoder's own books are complete: every schema is found under its name, every string
      under its id, and no id was skipped. */
  ghost predicate Exact(e: EncState, d: DecState) {
    Consistent(e, d) && NamesExact(e) && PoolExact(e, d)
  }

  ghost predicate NamesExact(e: EncState) {
    && AllBelow(e.registry.Keys, e.nextId)
    && (forall id :: id in e.registry ==> Name(e.registry[id].name) in e.ids && e.ids[Name(e.registry[id].name)] == id)
    && (forall k :: k in e.ids && k.Name? ==> e.ids[k] in e.registry && e.registry[e.ids[k]].name == k.name)
    && (e.nextId > 0 ==> e.nextId - 1 in e.registry)
  }

  ghost predicate PoolExact(e: EncState, d: DecState) {
    && (forall id :: id in d.pool ==> d.pool[id] in e.pool && e.pool[d.pool[id]] == id)
    && (e.nextPool > 0 ==> e.nextPool - 1 in d.pool)
  }

  /** Reading `bytes` from state `d`, owned or borrowed, gives exactly `log` and ends in state
      `d1`, all used up. */
  ghost predicate Reads(d: DecState, bytes: Bytes, log: seq<Decoded<FieldValue>>, d1: DecState) {
    Run(d, bytes) == Trace(log, d1, [], Stopped) && PlainRun(d, bytes)
  }

  lemma ReadsNothing(d: DecState)
    ensures Reads(d, [], [], d)
  {
  }

  lemma ReadsAppend(d: DecState, b1: Bytes, l1: seq<Decoded<FieldValue>>, d1: DecState,
                    b2: Bytes, l2: seq<Decoded<FieldValue>>, d2: DecState)
    requires Reads(d, b1, l1, d1) && Reads(d1, b2, l2, d2)
    ensures Reads(d, b1 + b2, l1 + l2, d2)
  {
    hide Run, PlainRun;
    RunAppend(d, b1, b2);
    PlainAppend(d, b1, b2);
  }

  lemma ReadsOneFrame(d: DecState, bytes: Bytes)
    requires DecodeHeader(bytes).None? && bytes != []
    requires DecodeFrame(bytes, d.cache, d.base).Parsed? && DecodeFrame(bytes, d.cache, d.base).rest == []
    requires BorrowableFrame(bytes, d.cache, d.base)
    ensures var step := Absorb(d, DecodeFrame(bytes, d.cache, d.base).value, []);
            && (step.Emit? ==> Reads(d, bytes, [step.frame], step.state))
            && (step.Silent? ==> Reads(d, bytes, [], step.state))
  {
    hide DecodeFrame, DecodeHeader, BorrowableFrame;
    var step := OwnedStep(d, bytes);
    if step.Emit? || step.Silent? {
      assert Run(step.state, []) == Trace([], step.state, [], Stopped) && PlainRun(step.state, []);
    }
    if step.Emit? {
      assert [step.frame] + [] == [step.frame];
    }
  }

  lemma ReadsSchema(d: DecState, id: u16, entry: SchemaEntry)
    requires SizedSchema(entry) && (id in d.registry ==> d.registry[id] == entry)
    ensures Reads(d, EncodeSchema(id, entry), [SchemaSeen(entry)],
                  d.(cache := d.cache[id := InfoOf(entry)], registry := d.registry[id := entry]))
  {
    hide DecodeFrame, InfoOf, Run, PlainRun, SchemaBytes;
    var bytes := EncodeSchema(id, entry);
    SchemaRoundTrip(id, entry, [], d.cache, d.base);
    assert bytes + [] == bytes;
    HeaderExtends(bytes, []);
    ReadsOneFrame(d, bytes);
  }

  lemma ReadsReset(d: DecState, ts: u64)
    ensures Reads(d, EncodeReset(ts), [], d.(base := ts))
  {
    hide DecodeFrame, Run, PlainRun, ToLE;
    var bytes := EncodeReset(ts);
    ResetRoundTrip(ts, [], d.cache, d.base);
    assert bytes + [] == bytes;
    HeaderExtends(bytes, []);
    ReadsOneFrame(d, bytes);
  }

  lemma ReadsPool(d: DecState, id: u32, s: Text)
    requires |s| < TWO_32
    ensures Reads(d, EncodePool([PoolEntry(id, s)]), [PoolSeen([PoolEntry(id, s)])], d.(pool := d.pool[id := s]))
  {
    hide DecodeFrame, Run, PlainRun, ToLE, Flat, ValidUtf8;
    var entries := [PoolEntry(id, s)];
    var bytes := EncodePool(entries);
    PoolRoundTrip(entries, [], d.cache, d.base);
    assert bytes + [] == bytes;
    HeaderExtends(bytes, []);
    ReadsOneFrame(d, bytes);
    assert AddEntries(d.pool, entries) == AddEntries(d.pool[id := s], entries[1..]);
    assert entries[1..] == [];
  }

  /** Whatever the gap to the previous timestamp, the reader recovers the timestamp exactly. */
  lemma ReadsEvent(d: DecState, id: u16, ts: u64, fields: Bytes, values: seq<FieldValue>)
    requires id in d.cache && d.cache[id].hasTimestamp
    requires TakeValues(d.cache[id].fieldTypes, fields) == Parsed(values, [])
    requires Borrowable(d.cache[id].fieldTypes, fields)
    ensures Reads(d, EventBytes(d.base, id, ts, fields), [EventSeen(id, Some(ts), values)], d.(base := ts))
  {
    hide DecodeFrame, Run, PlainRun, ToLE, EncodeReset, TakeValues, Borrowable, BorrowableFrame, TakeEventHead;
    var (reset, delta) := DeltaOf(d.base, ts);
    var d0 := if reset == [] then d else d.(base := ts);
    ResetNotEmpty(ts);
    if reset == [] { ReadsNothing(d); } else { ReadsReset(d, ts); }
    var bytes := EncodeEvent(id, delta, fields);
    assert bytes + [] == bytes && fields + [] == fields;
    EventRoundTrip(id, delta, fields, values, [], d0.cache, d0.base);
    EventBorrowable(id, delta, fields, d0.cache, d0.base);
    HeaderExtends(bytes, []);
    ReadsOneFrame(d0, bytes);
    ReadsAppend(d, reset, [], d0, bytes, [EventSeen(id, Some(ts), values)], d.(base := ts));
    assert [] + [EventSeen(id, Some(ts), values)] == [EventSeen(id, Some(ts), values)];
  }

  lemma EventBorrowable(id: u16, delta: nat, fields: Bytes, schemas: Lookup, base: u64)
    requires id in schemas && schemas[id].hasTimestamp
    requires delta <= MAX_TIMESTAMP_DELTA && base + delta < TWO_64
    requires Borrowable(schemas[id].fieldTypes, fields)
    ensures BorrowableFrame(EncodeEvent(id, delta, fields), schemas, base)
  {
    hide TakeU16, ToLE, Borrowable;
    var d := ToLE(id, 2) + (ToLE(delta, 3) + fields);
    assert EncodeEvent(id, delta, fields)[1..] == d;
    TakeEncodedInts(id, ToLE(delta, 3) + fields);
    Pow256Values();
    TakeEncoded(3, delta, fields);
    assert TakeU24(ToLE(delta, 3) + fields) == Parsed(delta, fields);
  }

  lemma ResetNotEmpty(ts: u64)
    ensures EncodeReset(ts) != []
  {
  }

  // ----- every call keeps the two in step -----

  lemma RegisterInStep(e: EncState, d: DecState, entry: SchemaEntry) returns (d1: DecState)
    requires Consistent(e, d) && entry.hasTimestamp && CanRegister(e, entry)
    ensures var r := EnsureRegistered(e, entry);
            && Reads(d, r.bytes, r.log, d1) && Consistent(r.state, d1)
            && (r.result.Id? ==> r.result.id in d1.cache && d1.cache[r.result.id] == InfoOf(entry)
                                 && r.state.registry[r.result.id] == entry)
            && d1.pool == d.pool
  {
    hide Run, PlainRun, EncodeSchema, InfoOf, SizedSchema;
    var r := EnsureRegistered(e, entry);
    if Name(entry.name) in e.ids {
      ReadsNothing(d);
      d1 := d;
    } else {
      var id := e.nextId;
      assert e.nextId % TWO_16 == id;
      assert id !in e.registry.Keys;
      ReadsSchema(d, id, entry);
      d1 := d.(cache := d.cache[id := InfoOf(entry)], registry := d.registry[id := entry]);
      RegisterConsistent(e, d, entry, id);
      hide Consistent;
    }
  }

  lemma RegisterConsistent(e: EncState, d: DecState, entry: SchemaEntry, id: u16)
    requires Consistent(e, d) && id == e.nextId < TWO_16 - 1 && Name(entry.name) !in e.ids
    ensures Consistent(e.(nextId := id + 1, registry := e.registry[id := entry], ids := e.ids[Name(entry.name) := id]),
                       d.(cache := d.cache[id := InfoOf(entry)], registry := d.registry[id := entry]))
  {
    hide InfoOf;
    assert id !in e.registry.Keys;
    assert e.registry[id := entry].Keys == e.registry.Keys + {id};
  }

  lemma TypeIdInStep(e: EncState, d: DecState, def: TypeDef) returns (d1: DecState)
    requires Consistent(e, d) && (RustType(def) in e.ids || CanRegister(e, EntryOf(def)))
    ensures var r := TypeIdEffect(e, def);
            && Reads(d, r.bytes, r.log, d1) && Consistent(r.state, d1)
            && (r.result.Id? ==> r.result.id in d1.cache && d1.cache[r.result.id] == InfoOf(EntryOf(def)))
            && d1.pool == d.pool
  {
    hide Run, PlainRun, EncodeSchema, InfoOf, SizedSchema, EnsureRegistered;
    if RustType(def) in e.ids {
      ReadsNothing(d);
      d1 := d;
    } else {
      d1 := RegisterInStep(e, d, EntryOf(def));
    }
  }

  lemma EventInStep(e: EncState, d: DecState, id: u16, ts: u64, fields: Bytes, values: seq<FieldValue>)
    requires Consistent(e, d) && id in d.cache && d.cache[id].hasTimestamp
    requires TakeValues(d.cache[id].fieldTypes, fields) == Parsed(values, [])
    requires Borrowable(d.cache[id].fieldTypes, fields)
    ensures Reads(d, EventBytes(e.base, id, ts, fields), [EventSeen(id, Some(ts), values)], d.(base := ts))
    ensures e.base == d.base
    ensures Consistent(e.(base := ts), d.(base := ts))
  {
    hide Run, PlainRun, TakeValues, EventBytes, Borrowable;
    ReadsEvent(d, id, ts, fields, values);
  }

  lemma {:induction false} UntypedFieldsRead(fields: seq<FieldDef>, values: seq<FieldValue>)
    requires |fields| == |values| && UntypedFit(fields, values)
    ensures TakeValues(FieldTypes(fields), Flat(EncodeValue, values)) == Parsed(values, [])
    ensures Borrowable(FieldTypes(fields), Flat(EncodeValue, values))
  {
    hide DecodeValue, EncodeValue, FitsUntyped, Sized, LastValueOverruns, TakeCounted, ValidUtf8;
    if fields != [] {
      var tail := Flat(EncodeValue, values[1..]);
      UntypedRoundTripAt(fields[0].fieldType, values[0], tail);
      ValueBorrowable(fields[0].fieldType, values[0], EncodeValue(values[0]), tail);
      UntypedFieldsRead(fields[1..], values[1..]);
      assert FieldTypes(fields)[1..] == FieldTypes(fields[1..]);
      assert [values[0]] + values[1..] == values;
    }
  }

  /** A value that reads back can be borrowed too: its strings are UTF-8 to begin with. */
  lemma ValueBorrowable(ft: FieldType, v: FieldValue, b: Bytes, t: Bytes)
    requires DecodeValue(ft, b + t) == Parsed(v, t)
    requires Sized(v) && (ft == String ==> b == EncodeValue(v))
    ensures ft == StringMap ==> !LastValueOverruns(b + t)
    ensures ft == String ==> TakeCounted(b + t).Parsed? && ValidUtf8(TakeCounted(b + t).value)
  {
    hide DecodeRef, LastValueOverruns, TakeCounted, Counted;
    ZeroCopyAgrees(ft, b + t);
    if ft == String {
      CountedRoundTrip(v.s, t);
    }
  }

  lemma {:induction false} TypedBorrowable(types: seq<FieldType>, values: seq<FieldValue>)
    requires |types| == |values|
    requires forall i :: 0 <= i < |types| ==> Fits(types[i], values[i]) && Sized(values[i])
    ensures Borrowable(types, EncodeFields(types, values))
  {
    hide DecodeValue, EncodeField, Fits, Sized, LastValueOverruns, TakeCounted, ValidUtf8;
    if types != [] {
      var tail := EncodeFields(types[1..], values[1..]);
      FieldRoundTrip(types[0], values[0], tail);
      StringWritesItself(types[0], values[0]);
      ValueBorrowable(types[0], values[0], EncodeField(types[0], values[0]), tail);
      TypedBorrowable(types[1..], values[1..]);
    }
  }

  lemma StringWritesItself(ft: FieldType, v: FieldValue)
    ensures ft == String ==> EncodeField(ft, v) == EncodeValue(v)
  {
  }

  lemma TypedFieldsRead(fields: seq<FieldDef>, values: seq<FieldValue>)
    requires |fields| == |values| && TypedFit(fields, values)
    ensures TakeValues(FieldTypes(fields), EncodeFields(FieldTypes(fields), values)) == Parsed(values, [])
    ensures Borrowable(FieldTypes(fields), EncodeFields(FieldTypes(fields), values))
  {
    hide TakeValues, EncodeFields, Fits, Sized, Borrowable;
    TypedBorrowable(FieldTypes(fields), values);
    FieldsRoundTrip(FieldTypes(fields), values, []);
    var b := EncodeFields(FieldTypes(fields), values);
    assert b + [] == b;
  }

  /** The lock-step: whatever the call, and whether or not it ends in an error, the decoder
      reads the new bytes as the logged frames and is again in the encoder's state. */
  lemma OpInStep(e: EncState, d: DecState, op: Op) returns (d1: DecState)
    requires Consistent(e, d) && Allowed(e, op) && !op.ResetTo?
    ensures var r := Apply(e, op); Reads(d, r.bytes, r.log, d1) && Consistent(r.state, d1)
    ensures d1.pool == PoolAfter(e, d, op)
  {
    hide Run, PlainRun, EnsureRegistered, TypeIdEffect, CanRegister, EventBytes, TakeValues, Borrowable, UntypedFit,
         TypedFit, Consistent;
    match op
    case RegisterSchema(schema) =>
      d1 := RegisterInStep(e, d, schema);
    case WriteEvent(schema, values) =>
      var reg := EnsureRegistered(e, schema);
      var d0 := RegisterInStep(e, d, schema);
      d1 := d0;
      if reg.result.Id? && values != [] && values[0].VarintValue? && |values| - 1 == |schema.fields| {
        var fields := Flat(EncodeValue, values[1..]);
        UntypedFieldsRead(schema.fields, values[1..]);
        EventInStep(reg.state, d0, reg.result.id, values[0].n, fields, values[1..]);
        d1 := d0.(base := values[0].n);
        ReadsAppend(d, reg.bytes, reg.log, d0, EventBytes(reg.state.base, reg.result.id, values[0].n, fields),
                    [EventSeen(reg.result.id, Some(values[0].n), values[1..])], d1);
      }
    case WriteTyped(def, ts, values) =>
      var reg := TypeIdEffect(e, def);
      var d0 := TypeIdInStep(e, d, def);
      d1 := d0;
      if reg.result.Id? {
        var fields := EncodeFields(FieldTypes(def.fields), values);
        TypedFieldsRead(def.fields, values);
        EventInStep(reg.state, d0, reg.result.id, ts, fields, values);
        d1 := d0.(base := ts);
        ReadsAppend(d, reg.bytes, reg.log, d0, EventBytes(reg.state.base, reg.result.id, ts, fields),
                    [EventSeen(reg.result.id, Some(ts), values)], d1);
      }
    case InternString(s) =>
      d1 := InternInStep(e, d, s);
  }

  lemma InternInStep(e: EncState, d: DecState, s: Text) returns (d1: DecState)
    requires Consistent(e, d) && Allowed(e, InternString(s))
    ensures var r := InternEffect(e, s); Reads(d, r.bytes, r.log, d1) && Consistent(r.state, d1)
    ensures d1.pool == PoolAfter(e, d, InternString(s))
  {
    hide Run, PlainRun, EncodePool;
    if s in e.pool {
      ReadsNothing(d);
      d1 := d;
    } else {
      assert e.nextPool % TWO_32 == e.nextPool;
      ReadsPool(d, e.nextPool, s);
      d1 := d.(pool := d.pool[e.nextPool := s]);
      assert e.nextPool !in d.pool;
    }
  }

  function PoolAfter(e: EncState, d: DecState, op: Op): map<u32, Text> {
    if op.InternString? && op.s !in e.pool then d.pool[e.nextPool % TWO_32 := op.s] else d.pool
  }

  lemma RegisterNames(e: EncState, entry: SchemaEntry)
    requires NamesExact(e) && CanRegister(e, entry)
    ensures NamesExact(EnsureRegistered(e, entry).state)
  {
    hide EncodeSchema, SizedSchema;
    if Name(entry.name) !in e.ids {
      var id, r := e.nextId, EnsureRegistered(e, entry).state;
      assert id % TWO_16 == id && id !in e.registry.Keys;
      assert r.registry.Keys == e.registry.Keys + {id};
      assert forall i :: i in e.registry ==> e.registry[i].name != entry.name;
    }
  }

  lemma TypeNames(e: EncState, def: TypeDef, id: u16, e1: EncState)
    requires NamesExact(e) && e1 == e.(ids := e1.ids)
    requires e1.ids == e.ids || e1.ids == e.ids[RustType(def) := id]
    ensures NamesExact(e1)
  {
  }

  lemma TypeIdNames(e: EncState, def: TypeDef)
    requires NamesExact(e) && (RustType(def) in e.ids || CanRegister(e, EntryOf(def)))
    ensures NamesExact(TypeIdEffect(e, def).state)
  {
    hide EnsureRegistered, SizedSchema, CanRegister;
    if RustType(def) !in e.ids {
      RegisterNames(e, EntryOf(def));
      var reg := EnsureRegistered(e, EntryOf(def));
      TypeNames(reg.state, def, if reg.result.Id? then reg.result.id else 0, TypeIdEffect(e, def).state);
    }
  }

  /** Calls keep the encoder's books complete. */
  lemma OpExact(e: EncState, d: DecState, op: Op, d1: DecState)
    requires Exact(e, d) && Allowed(e, op) && !op.ResetTo?
    requires Consistent(Apply(e, op).state, d1) && d1.pool == PoolAfter(e, d, op)
    ensures Exact(Apply(e, op).state, d1)
  {
    hide EnsureRegistered, TypeIdEffect, InternEffect, Consistent, NamesExact, CanRegister, EventBytes, UntypedFit,
         TypedFit;
    match op
    case RegisterSchema(schema) =>
      RegisterNames(e, schema);
      RegisterKeepsPool(e, schema);
    case WriteEvent(schema, values) =>
      RegisterNames(e, schema);
      RegisterKeepsPool(e, schema);
      RebasedNames(EnsureRegistered(e, schema).state, Apply(e, op).state);
    case WriteTyped(def, ts, values) =>
      TypeIdNames(e, def);
      TypeIdKeepsPool(e, def);
      RebasedNames(TypeIdEffect(e, def).state, Apply(e, op).state);
    case InternString(s) =>
      InternExact(e, d, s, d1);
  }

  lemma RebasedNames(e: EncState, e1: EncState)
    requires NamesExact(e) && e1 == e.(base := e1.base)
    ensures NamesExact(e1)
  {
  }

  lemma RegisterKeepsPool(e: EncState, entry: SchemaEntry)
    ensures EnsureRegistered(e, entry).state.pool == e.pool
    ensures EnsureRegistered(e, entry).state.nextPool == e.nextPool
  {
  }

  lemma TypeIdKeepsPool(e: EncState, def: TypeDef)
    ensures TypeIdEffect(e, def).state.pool == e.pool
    ensures TypeIdEffect(e, def).state.nextPool == e.nextPool
  {
  }

  lemma InternExact(e: EncState, d: DecState, s: Text, d1: DecState)
    requires Exact(e, d) && Allowed(e, InternString(s)) && d1.pool == PoolAfter(e, d, InternString(s))
    ensures PoolExact(InternEffect(e, s).state, d1) && NamesExact(InternEffect(e, s).state)
  {
    hide CacheAgrees, EncodePool;
    if s !in e.pool {
      assert e.nextPool % TWO_32 == e.nextPool;
    }
  }

  lemma PoolsResolve(e: EncState, d: DecState)
    requires Consistent(e, d)
    ensures forall s :: s in e.pool ==> e.pool[s] in d.pool && d.pool[e.pool[s]] == s
  {
  }
}
