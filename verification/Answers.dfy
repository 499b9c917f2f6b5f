/** What each call of the encoder answers, and what it adds to the log
    (dial9-trace-format/src/encoder.rs). */
module Answers {
  import opened Wire
  import opened Wrappers
  import opened Utf8
  import opened Types
  import opened Schema
  import opened Codec
  import opened Decoding
  import opened Encoding

  /** The name is free, or stands for this very schema. */
  predicate Accepts(e: EncState, entry: SchemaEntry) {
    Name(entry.name) in e.ids ==>
      e.ids[Name(entry.name)] in e.registry && e.registry[e.ids[Name(entry.name)]] == entry
  }

  /** In an encoder that did not come from a decoder: no other schema has the name. */
  lemma AcceptsExactly(e: EncState, d: DecState, entry: SchemaEntry)
    requires Exact(e, d)
    ensures Accepts(e, entry) <==>
            forall id :: id in e.registry && e.registry[id].name == entry.name ==> e.registry[id] == entry
  {
  }

  /** What a schema's first use adds. */
  function SchemaLog(e: EncState, entry: SchemaEntry): seq<Decoded<FieldValue>> {
    if Name(entry.name) in e.ids then [] else [SchemaSeen(entry)]
  }

  /** The schema is registered under `id`; it got the next id if its name was free, and nothing
      happened if it was not. */
  ghost predicate RegisteredAs(e: EncState, entry: SchemaEntry, e1: EncState, id: u32) {
    && id < TWO_16 && id in e1.registry && e1.registry[id] == entry && Name(entry.name) in e1.ids
    && e1.pool == e.pool && e1.nextPool == e.nextPool
    && if Name(entry.name) in e.ids then
         e1.registry == e.registry && e1.nextId == e.nextId && id == e.ids[Name(entry.name)]
       else
         e1.registry == e.registry[id := entry] && e1.nextId == e.nextId + 1 && id == e.nextId
  }

  lemma RegisterAnswers(e: EncState, d: DecState, entry: SchemaEntry)
    requires Consistent(e, d) && CanRegister(e, entry)
    ensures var r := EnsureRegistered(e, entry);
            if Accepts(e, entry) then
              && r.result.Id? && RegisteredAs(e, entry, r.state, r.result.id)
              && r.state.base == e.base && r.log == SchemaLog(e, entry)
              && (r.log == [] ==> r.bytes == [] && r.state == e)
            else r == Effect(e, [], [], Refused(SchemaDiffers))
  {
    hide EncodeSchema, SizedSchema;
  }

  /** `write_event` writes the event exactly if no other schema has the name, the first value is a
      number, and the values after it are as many as the schema's fields. Otherwise it says which
      of these failed and writes no event, though perhaps the schema. */
  lemma WriteEventAnswers(e: EncState, d: DecState, schema: SchemaEntry, values: seq<FieldValue>)
    requires Consistent(e, d) && CanRegister(e, schema)
    ensures var r := Apply(e, Call.WriteEvent(schema, values));
            if !Accepts(e, schema) then r == Effect(e, [], [], Refused(SchemaDiffers))
            else if values == [] || !values[0].VarintValue? then
              r.result == Refused(NoTimestamp) && r.log == SchemaLog(e, schema) && r.state.base == e.base
            else if |values| != 1 + |schema.fields| then
              r.result == Refused(WrongCount) && r.log == SchemaLog(e, schema) && r.state.base == e.base
            else
              && r.result == Done && r.state.base == values[0].n
              && exists id: u16 ::
                   && RegisteredAs(e, schema, r.state, id)
                   && r.log == SchemaLog(e, schema) + [EventSeen(id, Some(values[0].n), values[1..])]
  {
    hide EventBytes, CanRegister, RegisteredAs;
    RegisterAnswers(e, d, schema);
    hide EnsureRegistered;
    var reg := EnsureRegistered(e, schema);
    if Accepts(e, schema) && values != [] && values[0].VarintValue? {
      Rebase(e, schema, reg.state, values[0].n, reg.result.id);
    }
  }

  lemma WrittenWhen(e: EncState, schema: SchemaEntry, values: seq<FieldValue>)
    ensures Apply(e, Call.WriteEvent(schema, values)).result == Done <==>
            Accepts(e, schema) && values != [] && values[0].VarintValue? && |values| == 1 + |schema.fields|
  {
    hide EventBytes, EncodeSchema;
  }

  lemma Rebase(e: EncState, entry: SchemaEntry, e1: EncState, base: u64, id: u32)
    requires RegisteredAs(e, entry, e1, id)
    ensures id < TWO_16 && RegisteredAs(e, entry, e1.(base := base), id)
  {
  }

  /** `write` of a typed event is refused exactly if another schema has the name the first time. */
  lemma WriteTypedAnswers(e: EncState, d: DecState, def: TypeDef, ts: u64, fields: seq<FieldValue>)
    requires Consistent(e, d) && |fields| == |def.fields|
    requires RustType(def) in e.ids || CanRegister(e, EntryOf(def))
    ensures var r := Apply(e, WriteTyped(def, ts, fields));
            if RustType(def) !in e.ids && !Accepts(e, EntryOf(def)) then
              r == Effect(e, [], [], Refused(SchemaDiffers))
            else
              && r.result == Done && r.state.base == ts && RustType(def) in r.state.ids
              && var id := r.state.ids[RustType(def)];
              && id in r.state.registry && r.state.registry[id] == EntryOf(def)
              && r.log == (if RustType(def) in e.ids then [] else SchemaLog(e, EntryOf(def)))
                          + [EventSeen(id, Some(ts), fields)]
  {
    hide EventBytes, CanRegister, EncodeFields;
    if RustType(def) !in e.ids {
      RegisterAnswers(e, d, EntryOf(def));
      hide EnsureRegistered;
    }
  }

  /** A string that is known keeps its id and costs nothing; a new one gets the next id. */
  lemma InternAnswers(e: EncState, d: DecState, s: Text)
    requires Consistent(e, d)
    ensures var r := Apply(e, Call.InternString(s));
            if s in e.pool then r == Effect(e, [], [], Id(e.pool[s]))
            else
              && r.result == Id(e.nextPool) && r.log == [PoolSeen([PoolEntry(e.nextPool, s)])]
              && r.state == e.(pool := e.pool[s := e.nextPool], nextPool := e.nextPool + 1)
  {
    hide EncodePool;
  }

  /** An event takes six bytes and its values, and nine more exactly when its timestamp lies
      before the last one or more than a u24 behind it. */
  lemma EventLength(base: u64, id: u16, ts: u64, fields: Bytes)
    ensures |EventBytes(base, id, ts, fields)|
            == 6 + |fields| + if 0 <= ts - base <= MAX_TIMESTAMP_DELTA then 0 else 9
  {
    hide ToLE;
  }
}
