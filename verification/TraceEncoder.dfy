/** The encoder object (dial9-trace-format/src/encoder.rs). The `EncodeState` and the
    `CountingWriter` inside it are its first three fields. */
module TraceEncoder {
  import opened Wire
  import opened Wrappers
  import opened Utf8
  import opened Types
  import opened Schema
  import opened Codec
  import opened Decoding
  import opened Encoding
  import opened RoundTrip
  import opened Answers
  import FrameIo

  class Encoder {
    var writer: Bytes
    /** Counted from the moment the writer is wrapped, which is after the header is written. */
    var bytesWritten: nat
    var timestampBase: u64
    const registry: SchemaRegistry
    var stringPool: map<Text, u32>
    var nextPoolId: nat
    var schemaIds: map<SchemaKey, u16>

    ghost function State(): EncState
      reads this, registry
    {
      EncState(registry.schemas, registry.nextId, stringPool, nextPoolId, schemaIds, timestampBase)
    }

    ghost predicate Valid()
      reads this, registry
    {
      AllBelow(registry.schemas.Keys, registry.nextId) && registry.nextId < TWO_16 && nextPoolId < TWO_32
    }

    /** `new_to`: the header goes straight to the writer and is not counted. */
    constructor (w: Bytes)
      ensures Valid() && fresh(registry)
      ensures State() == FreshEncoder && writer == w + Header && bytesWritten == 0
    {
      writer, bytesWritten, timestampBase := w + Header, 0, 0;
      registry := new SchemaRegistry();
      stringPool, nextPoolId, schemaIds := map[], 0, map[];
    }

    /** `from_decoder`: takes over the decoder's registry and walks its hash maps in some order. */
    constructor FromDecoder(registry: SchemaRegistry, strings: map<u32, Text>, base: u64, w: Bytes)
      requires registry.nextId == 0
      requires TWO_16 - 1 !in registry.schemas && TWO_32 - 1 !in strings
      modifies registry`nextId
      ensures Valid() && this.registry == registry && writer == w && bytesWritten == 0
      ensures registry.schemas == old(registry.schemas)
      ensures forall cache: Lookup :: IsResumed(State(), DecState(registry.schemas, cache, strings, base))
    {
      var pool, next := InvertPool(strings);
      var names := IndexNames(registry.schemas);
      this.registry := registry;
      writer, bytesWritten, timestampBase := w, 0, base;
      stringPool, nextPoolId, schemaIds := pool, next, names;
      new;
      registry.SyncNextId();
    }

    /** `write_all` through the counting writer. */
    method WriteAll(b: Bytes)
      modifies this`writer, this`bytesWritten
      ensures writer == old(writer) + b && bytesWritten == old(bytesWritten) + |b|
    {
      writer := writer + b;
      bytesWritten := bytesWritten + |b|;
    }

    /** The call appended `b` and nothing else, and the counter followed. */
    twostate predicate Wrote(b: Bytes)
      reads this
    {
      writer == old(writer) + b && bytesWritten == old(bytesWritten) + |b|
    }

    /** The registration cannot fail: a new id is above every registered one. */
    method EnsureRegistered(schema: SchemaEntry) returns (r: OpResult)
      requires Valid() && CanRegister(State(), schema)
      modifies this, registry
      ensures Valid()
      ensures var effect := Encoding.EnsureRegistered(old(State()), schema);
              State() == effect.state && Wrote(effect.bytes) && r == effect.result
    {
      hide EncodeSchema, SizedSchema;
      var key := Name(schema.name);
      if key in schemaIds {
        var existing := registry.Get(schemaIds[key]);
        if existing.None? {
          return Refused(SchemaLost);
        }
        return if existing.value == schema then Id(schemaIds[key]) else Refused(SchemaDiffers);
      }
      var id := registry.NextTypeId();
      var frame := FrameIo.WriteSchema(id, schema);
      WriteAll(frame);
      assert id !in registry.schemas.Keys;
      var ok := registry.Register(id, schema);
      assert ok;
      schemaIds := schemaIds[key := id];
      return Id(id);
    }

    method RegisterSchema(schema: SchemaEntry) returns (r: OpResult)
      requires Valid() && Allowed(State(), Call.RegisterSchema(schema))
      modifies this, registry
      ensures Valid()
      ensures var effect := Apply(old(State()), Call.RegisterSchema(schema));
              State() == effect.state && Wrote(effect.bytes) && r == effect.result
    {
      r := EnsureRegistered(schema);
    }

    /** `encode_timestamp_delta`. */
    method EncodeTimestampDelta(ts: u64) returns (delta: nat)
      modifies this`writer, this`bytesWritten, this`timestampBase
      ensures delta == DeltaOf(old(timestampBase), ts).1 && timestampBase == ts
      ensures Wrote(DeltaOf(old(timestampBase), ts).0)
    {
      if ts < timestampBase || ts - timestampBase > MAX_TIMESTAMP_DELTA {
        WriteAll([TAG_TIMESTAMP_RESET]);
        WriteAll(ToLE(ts, 8));
        delta := 0;
      } else {
        delta := ts - timestampBase;
      }
      timestampBase := ts;
    }

    /** Timestamp reset if needed, tag, type id, delta. */
    method BeginEvent(typeId: u16, ts: u64, ghost fields: Bytes)
      modifies this`writer, this`bytesWritten, this`timestampBase
      ensures timestampBase == ts
      ensures writer + fields == old(writer) + EventBytes(old(timestampBase), typeId, ts, fields)
      ensures bytesWritten + |fields| == old(bytesWritten) + |EventBytes(old(timestampBase), typeId, ts, fields)|
    {
      hide ToLE, EncodeReset;
      var delta := EncodeTimestampDelta(ts);
      WriteAll([TAG_EVENT]);
      WriteAll(ToLE(typeId, 2));
      WriteAll(ToLE(delta, 3));
    }

    method WriteEvent(schema: SchemaEntry, values: seq<FieldValue>) returns (r: OpResult)
      requires Valid() && CanRegister(State(), schema)
      modifies this, registry
      ensures Valid()
      ensures var effect := Apply(old(State()), Call.WriteEvent(schema, values));
              State() == effect.state && Wrote(effect.bytes) && r == effect.result
      ensures r == Done <==>
              Accepts(old(State()), schema) && values != [] && values[0].VarintValue? && |values| == 1 + |schema.fields|
    {
      hide EventBytes, CanRegister;
      WrittenWhen(State(), schema, values);
      hide Encoding.EnsureRegistered;
      r := EnsureRegistered(schema);
      if r.Refused? {
        return;
      }
      if values == [] || !values[0].VarintValue? {
        return Refused(NoTimestamp);
      }
      if |values| - 1 != |schema.fields| {
        return Refused(WrongCount);
      }
      var fields := FrameIo.WriteValues(values[1..]);
      BeginEvent(r.id, values[0].n, fields);
      WriteAll(fields);
      return Done;
    }

    /** The id of an event type: cached by type, found or registered by name the first time. */
    method TypeIdFor(def: TypeDef) returns (r: OpResult)
      requires Valid() && (RustType(def) in schemaIds || CanRegister(State(), EntryOf(def)))
      modifies this, registry
      ensures Valid()
      ensures var effect := TypeIdEffect(old(State()), def);
              State() == effect.state && Wrote(effect.bytes) && r == effect.result
    {
      hide Encoding.EnsureRegistered, CanRegister;
      var key := RustType(def);
      if key in schemaIds {
        return Id(schemaIds[key]);
      }
      r := EnsureRegistered(EntryOf(def));
      if r.Id? {
        schemaIds := schemaIds[key := r.id];
      }
    }

    /** `write`, for an event type `def` with field values `fields`. */
    method Write(def: TypeDef, ts: u64, fields: seq<FieldValue>) returns (r: OpResult)
      requires Valid() && |fields| == |def.fields|
      requires RustType(def) in schemaIds || CanRegister(State(), EntryOf(def))
      modifies this, registry
      ensures Valid()
      ensures var effect := Apply(old(State()), WriteTyped(def, ts, fields));
              State() == effect.state && Wrote(effect.bytes) && r == effect.result
    {
      hide TypeIdEffect, EventBytes, CanRegister, EncodeFields;
      r := TypeIdFor(def);
      if r.Refused? {
        return;
      }
      var body := EncodeTyped(FieldTypes(def.fields), fields);
      BeginEvent(r.id, ts, body);
      WriteAll(body);
      return Done;
    }

    /** What the derived `encode_fields` writes, field after field. */
    static method EncodeTyped(types: seq<FieldType>, fields: seq<FieldValue>) returns (w: Bytes)
      requires |types| == |fields|
      ensures w == EncodeFields(types, fields)
    {
      hide EncodeField;
      w := [];
      assert types[0..] == types && fields[0..] == fields;
      for i := 0 to |types|
        invariant w + EncodeFields(types[i..], fields[i..]) == EncodeFields(types, fields)
      {
        assert types[i..][1..] == types[i + 1..] && fields[i..][1..] == fields[i + 1..];
        assert w + (EncodeField(types[i], fields[i]) + EncodeFields(types[i + 1..], fields[i + 1..]))
               == w + EncodeField(types[i], fields[i]) + EncodeFields(types[i + 1..], fields[i + 1..]);
        w := w + EncodeField(types[i], fields[i]);
      }
      assert w + [] == w;
    }

    method InternString(s: Text) returns (r: OpResult)
      requires Valid() && (s !in stringPool ==> nextPoolId < TWO_32 - 1)
      modifies this
      ensures Valid()
      ensures var effect := Apply(old(State()), Call.InternString(s));
              State() == effect.state && Wrote(effect.bytes) && r == effect.result
    {
      hide EncodePool;
      if s in stringPool {
        return Id(stringPool[s]);
      }
      var id := nextPoolId;
      nextPoolId := nextPoolId + 1;
      stringPool := stringPool[s := id];
      var frame := FrameIo.WriteStringPool([PoolEntry(id, s)]);
      WriteAll(frame);
      return Id(id);
    }

    /** `reset_registry_and_pools`: the timestamp base is left as it was. */
    method ResetRegistryAndPools()
      modifies this, registry
      ensures Valid()
      ensures State() == FreshEncoder.(base := old(timestampBase))
      ensures writer == old(writer) && bytesWritten == old(bytesWritten)
    {
      stringPool, nextPoolId, schemaIds := map[], 0, map[];
      registry.Clear();
    }

    /** `reset_to`: a new stream on a new writer; here the base is reset too. */
    method ResetTo(newWriter: Bytes) returns (finished: Bytes)
      modifies this, registry
      ensures Valid() && State() == FreshEncoder
      ensures finished == old(writer) && writer == newWriter + Header && bytesWritten == 0
    {
      ResetRegistryAndPools();
      finished := writer;
      writer, bytesWritten, timestampBase := newWriter + Header, 0, 0;
    }
  }

  /** The first loop of `from_decoder`: a string for each id, the id after the last one. */
  method InvertPool(strings: map<u32, Text>) returns (pool: map<Text, u32>, next: nat)
    ensures IsPoolInverse(pool, next, strings)
  {
    pool, next := map[], 0;
    var todo := strings.Keys;
    assert strings.Keys - todo == {};
    while todo != {}
      invariant todo <= strings.Keys
      invariant IsPoolInverse(pool, next, Restrict(strings, strings.Keys - todo))
      decreases todo
    {
      var id: u32 :| id in todo;
      InverseGrows(pool, next, strings, strings.Keys - todo, id);
      assert strings.Keys - todo + {id} == strings.Keys - (todo - {id});
      pool := pool[strings[id] := id];
      if id >= next {
        next := id + 1;
      }
      todo := todo - {id};
    }
    assert Restrict(strings, strings.Keys - todo) == strings;
  }

  /** The second loop: an id for each schema name. */
  method IndexNames(schemas: map<u16, SchemaEntry>) returns (names: map<SchemaKey, u16>)
    ensures IsNameIndex(names, schemas)
  {
    names := map[];
    var ids := schemas.Keys;
    assert Restrict(schemas, schemas.Keys - ids) == map[];
    while ids != {}
      invariant ids <= schemas.Keys
      invariant IsNameIndex(names, Restrict(schemas, schemas.Keys - ids))
      decreases ids
    {
      var id: u16 :| id in ids;
      assert Restrict(schemas, schemas.Keys - (ids - {id})) == Restrict(schemas, schemas.Keys - ids)[id := schemas[id]];
      names := names[Name(schemas[id].name) := id];
      ids := ids - {id};
    }
    assert Restrict(schemas, schemas.Keys - ids) == schemas;
  }

  function Restrict<K, V>(m: map<K, V>, keys: set<K>): map<K, V> {
    map k | k in m && k in keys :: m[k]
  }

  lemma InverseGrows(pool: map<Text, u32>, next: nat, strings: map<u32, Text>, seen: set<u32>, id: u32)
    requires id in strings && id !in seen
    requires IsPoolInverse(pool, next, Restrict(strings, seen))
    ensures IsPoolInverse(pool[strings[id] := id], if id >= next then id + 1 else next,
                          Restrict(strings, seen + {id}))
  {
  }
}
