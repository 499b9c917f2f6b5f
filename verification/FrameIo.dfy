/** The loops that write and read frames (dial9-trace-format/src/codec.rs and types.rs), each
    proved against the function that says what it computes. */
module FrameIo {
  import opened Wire
  import opened Wrappers
  import opened Utf8
  import opened Types
  import opened ZeroCopy
  import opened Schema
  import opened Codec
  import Leb128

  // ----- writing -----

  method WriteFrames(addrs: seq<u64>) returns (w: Bytes)
    ensures w == Flat(EncodeAddr, addrs)
  {
    hide ToLE;
    w := [];
    for i := 0 to |addrs|
      invariant w == Flat(EncodeAddr, addrs[..i])
    {
      FlatAppend(EncodeAddr, addrs[..i], addrs[i]);
      assert addrs[..i] + [addrs[i]] == addrs[..i + 1];
      w := w + ToLE(addrs[i], 8);
    }
    assert addrs[..|addrs|] == addrs;
  }

  method WritePairs(pairs: seq<Pair>) returns (w: Bytes)
    ensures w == Flat(EncodePair, pairs)
  {
    hide ToLE;
    w := [];
    for i := 0 to |pairs|
      invariant w == Flat(EncodePair, pairs[..i])
    {
      FlatAppend(EncodePair, pairs[..i], pairs[i]);
      assert pairs[..i] + [pairs[i]] == pairs[..i + 1];
      var (k, v) := pairs[i];
      w := w + ((ToLE(|k|, 4) + k) + (ToLE(|v|, 4) + v));
    }
    assert pairs[..|pairs|] == pairs;
  }

  /** `FieldValue::encode`. */
  method WriteValue(v: FieldValue) returns (w: Bytes)
    ensures w == EncodeValue(v)
  {
    hide ToLE, Flat;
    match v
    case VarintValue(n) =>
      w := Leb128.Encode(n);
    case FramesValue(addrs) =>
      var body := WriteFrames(addrs);
      w := ToLE(|addrs|, 4) + body;
    case MapValue(pairs) =>
      var body := WritePairs(pairs);
      w := ToLE(|pairs|, 4) + body;
    case _ =>
      w := EncodeValue(v);
  }

  /** `encode_schema`. */
  method WriteSchema(typeId: u16, entry: SchemaEntry) returns (w: Bytes)
    ensures w == EncodeSchema(typeId, entry)
  {
    hide ToLE, Flat, EncodeFieldDef;
    w := [TAG_SCHEMA];
    w := w + ToLE(typeId, 2);
    w := w + Counted16(entry.name);
    w := w + [if entry.hasTimestamp then 1 else 0];
    w := w + ToLE(|entry.fields|, 2);
    ghost var start := w;
    var fields := WriteFieldDefs(entry.fields);
    w := w + fields;
    assert w == EncodeSchema(typeId, entry);
  }

  method WriteFieldDefs(fields: seq<FieldDef>) returns (w: Bytes)
    ensures w == Flat(EncodeFieldDef, fields)
  {
    w := [];
    for i := 0 to |fields|
      invariant w == Flat(EncodeFieldDef, fields[..i])
    {
      FlatAppend(EncodeFieldDef, fields[..i], fields[i]);
      assert fields[..i] + [fields[i]] == fields[..i + 1];
      var f := fields[i];
      w := w + (ToLE(|f.name|, 2) + f.name + [Tag(f.fieldType)]);
    }
    assert fields[..|fields|] == fields;
  }

  /** `encode_string_pool`. */
  method WriteStringPool(entries: seq<PoolEntry>) returns (w: Bytes)
    ensures w == EncodePool(entries)
  {
    hide ToLE;
    w := [TAG_STRING_POOL] + ToLE(|entries|, 4);
    ghost var start := w;
    for i := 0 to |entries|
      invariant w == start + Flat(EncodePoolEntry, entries[..i])
    {
      FlatAppend(EncodePoolEntry, entries[..i], entries[i]);
      assert entries[..i] + [entries[i]] == entries[..i + 1];
      var e := entries[i];
      w := w + ToLE(e.poolId, 4);
      w := w + ToLE(|e.data|, 4);
      w := w + e.data;
    }
    assert entries[..|entries|] == entries;
  }

  /** The loop over the values in `write_event`. */
  method WriteValues(values: seq<FieldValue>) returns (w: Bytes)
    ensures w == Flat(EncodeValue, values)
  {
    hide EncodeValue;
    w := [];
    for i := 0 to |values|
      invariant w == Flat(EncodeValue, values[..i])
    {
      FlatAppend(EncodeValue, values[..i], values[i]);
      assert values[..i] + [values[i]] == values[..i + 1];
      var b := WriteValue(values[i]);
      w := w + b;
    }
    assert values[..|values|] == values;
  }

  // ----- reading -----

  /** A reader's answer is the parser's: the value, and how many bytes it took. */
  ghost predicate Answers<T>(r: Option<(T, nat)>, data: Bytes, p: Parsed<T>) {
    match r
    case None => p.NoParse?
    case Some((v, n)) => n <= |data| && p == Parsed(v, data[n..])
  }

  method ReadText16(data: Bytes, pos: nat) returns (r: Option<(Text, nat)>)
    requires pos <= |data|
    ensures r.None? ==> TakeText16(data[pos..]).NoParse?
    ensures r.Some? ==> pos <= r.value.1 <= |data|
                        && TakeText16(data[pos..]) == Parsed(r.value.0, data[r.value.1..])
  {
    hide TakeU16, Take, ValidUtf8;
    var len := GetU16(data, pos);
    if len.None? { return None; }
    var s := GetBytes(data, pos + 2, len.value);
    if s.None? || !ValidUtf8(s.value) { return None; }
    return Some((s.value, pos + 2 + len.value));
  }

  /** `decode_schema_frame`, after the tag. */
  method ReadSchema(data: Bytes) returns (r: Option<((u16, SchemaEntry), nat)>)
    ensures Answers(r, data, TakeSchema(data))
  {
    hide TakeU16, TakeText16, TakeFieldDefs;
    var typeId := GetU16(data, 0);
    assert data[0..] == data;
    if typeId.None? { return None; }
    var name := ReadText16(data, 2);
    if name.None? { return None; }
    var pos := name.value.1;
    if pos >= |data| { return None; }
    var hasTimestamp := data[pos] != 0;
    assert data[pos..][1..] == data[pos + 1..];
    var fields := ReadFieldDefs(data, pos + 1);
    if fields.None? { return None; }
    return Some(((typeId.value, SchemaEntry(name.value.0, hasTimestamp, fields.value.0)), fields.value.1));
  }

  method ReadFieldDefs(data: Bytes, start: nat) returns (r: Option<(seq<FieldDef>, nat)>)
    requires start <= |data|
    ensures r.None? ==> TakeFieldDefs(data[start..]).NoParse?
    ensures r.Some? ==> start <= r.value.1 <= |data|
                        && TakeFieldDefs(data[start..]) == Parsed(r.value.0, data[r.value.1..])
  {
    hide TakeU16, TakeText16, Many, Prepend, FromTag;
    var count := GetU16(data, start);
    if count.None? { return None; }
    var pos, fields := start + 2, [];
    PrependNothing(Many(TakeFieldDef, count.value, data[pos..]));
    for i := 0 to count.value
      invariant start <= pos <= |data|
      invariant Many(TakeFieldDef, count.value, data[start + 2..])
                == Prepend(fields, Many(TakeFieldDef, count.value - i, data[pos..]))
    {
      ManyTurn(TakeFieldDef, count.value - i, fields, data[pos..]);
      ghost var before := pos;
      var name := ReadText16(data, pos);
      if name.None? { return None; }
      pos := name.value.1;
      if pos >= |data| { return None; }
      assert data[pos..][1..] == data[pos + 1..];
      var ft := FromTag(data[pos]);
      if ft.None? { return None; }
      pos := pos + 1;
      assert TakeFieldDef(data[before..]) == Parsed(FieldDef(name.value.0, ft.value), data[pos..]);
      fields := fields + [FieldDef(name.value.0, ft.value)];
    }
    PrependLast(TakeFieldDef, fields, data[pos..]);
    return Some((fields, pos));
  }

  /** `decode_string_pool_frame`, after the tag. */
  method ReadStringPool(data: Bytes) returns (r: Option<(seq<PoolEntry>, nat)>)
    ensures Answers(r, data, TakePool(data))
  {
    hide TakeU32, Take, Many, Prepend;
    var count := GetU32(data, 0);
    assert data[0..] == data;
    if count.None? { return None; }
    var pos, entries := 4, [];
    PrependNothing(Many(TakePoolEntry, count.value, data[pos..]));
    for i := 0 to count.value
      invariant 4 <= pos <= |data|
      invariant Many(TakePoolEntry, count.value, data[4..])
                == Prepend(entries, Many(TakePoolEntry, count.value - i, data[pos..]))
    {
      ManyTurn(TakePoolEntry, count.value - i, entries, data[pos..]);
      ghost var before := pos;
      var poolId := GetU32(data, pos);
      if poolId.None? { return None; }
      pos := pos + 4;
      var len := GetU32(data, pos);
      if len.None? { return None; }
      pos := pos + 4;
      var d := GetBytes(data, pos, len.value);
      if d.None? { return None; }
      pos := pos + len.value;
      assert TakePoolEntry(data[before..]) == Parsed(PoolEntry(poolId.value, d.value), data[pos..]);
      entries := entries + [PoolEntry(poolId.value, d.value)];
    }
    PrependLast(TakePoolEntry, entries, data[pos..]);
    return Some((entries, pos));
  }

  lemma ValuesTurn(types: seq<FieldType>, values: seq<FieldValue>, d: Bytes)
    requires types != []
    ensures DecodeValue(types[0], d).NoParse? ==> Prepend(values, TakeValues(types, d)).NoParse?
    ensures DecodeValue(types[0], d).Parsed? ==>
              Prepend(values, TakeValues(types, d))
              == Prepend(values + [DecodeValue(types[0], d).value],
                         TakeValues(types[1..], DecodeValue(types[0], d).rest))
  {
    hide DecodeValue;
    if DecodeValue(types[0], d).Parsed? {
      var v, m := DecodeValue(types[0], d).value, TakeValues(types[1..], DecodeValue(types[0], d).rest);
      if m.Parsed? {
        assert values + ([v] + m.value) == values + [v] + m.value;
      }
    }
  }

  /** The value loop of `decode_event_frame`, over the remaining slice. */
  method ReadValues(types: seq<FieldType>, data: Bytes) returns (p: Parsed<seq<FieldValue>>)
    ensures p == TakeValues(types, data)
  {
    hide DecodeValue;
    var remaining, values := data, [];
    assert types[0..] == types;
    PrependNothing(TakeValues(types, data));
    for i := 0 to |types|
      invariant TakeValues(types, data) == Prepend(values, TakeValues(types[i..], remaining))
    {
      ValuesTurn(types[i..], values, remaining);
      var v := Types.Decode(types[i], remaining);
      if v.NoParse? {
        return NoParse;
      }
      assert types[i..][1..] == types[i + 1..];
      values, remaining := values + [v.value], v.rest;
    }
    assert types[|types|..] == [];
    assert values + [] == values;
    return Parsed(values, remaining);
  }

  /** `decode_event_frame`, after the tag. */
  method ReadEvent(data: Bytes, schemas: Lookup, base: u64) returns (p: Parsed<Frame<FieldValue>>)
    ensures p == TakeEvent(data, schemas, base)
  {
    hide TakeEventHead, TakeValues;
    var head := TakeEventHead(data, schemas, base);
    if head.NoParse? {
      return NoParse;
    }
    var values := ReadValues(head.value.fieldTypes, head.rest);
    if values.NoParse? {
      return NoParse;
    }
    return Parsed(EventFrame(head.value.typeId, head.value.timestamp, values.value), values.rest);
  }

  /** `decode_frame`. */
  method ReadFrame(data: Bytes, schemas: Lookup, base: u64) returns (r: Option<(Frame<FieldValue>, nat)>)
    ensures Answers(r, data, DecodeFrame(data, schemas, base))
    ensures r.Some? ==> r.value.1 > 0
  {
    hide TakeSchema, TakePool, TakeU64, TakeEvent;
    if data == [] {
      return None;
    }
    var body := data[1..];
    assert forall n: nat :: n <= |body| ==> body[n..] == data[n + 1..];
    if data[0] == TAG_SCHEMA {
      var s := ReadSchema(body);
      return if s.None? then None else Some((SchemaFrame(s.value.0.0, s.value.0.1), s.value.1 + 1));
    } else if data[0] == TAG_EVENT {
      var e := ReadEvent(body, schemas, base);
      if e.NoParse? {
        return None;
      }
      EventSuffix(body, schemas, base);
      return Some((e.value, |data| - |e.rest|));
    } else if data[0] == TAG_STRING_POOL {
      var p := ReadStringPool(body);
      return if p.None? then None else Some((PoolFrame(p.value.0), p.value.1 + 1));
    } else if data[0] == TAG_TIMESTAMP_RESET {
      var ts := GetU64(data, 1);
      return if ts.None? then None else Some((ResetFrame(ts.value), 9));
    }
    return None;
  }

  lemma EventSuffix(d: Bytes, schemas: Lookup, base: u64)
    requires TakeEvent(d, schemas, base).Parsed?
    ensures SuffixOf(TakeEvent(d, schemas, base).rest, d)
  {
    hide TakeEventHead, TakeValues;
    var head := TakeEventHead(d, schemas, base);
    HeadSuffix(d, schemas, base);
    ValuesSuffix(head.value.fieldTypes, head.rest);
    SuffixTransitive(TakeEvent(d, schemas, base).rest, head.rest, d);
  }

  lemma FrameSuffix(d: Bytes, schemas: Lookup, base: u64)
    requires DecodeFrame(d, schemas, base).Parsed?
    ensures SuffixOf(DecodeFrame(d, schemas, base).rest, d)
  {
    hide TakeEvent, TakeOther;
    if d[0] == TAG_EVENT {
      EventSuffix(d[1..], schemas, base);
      SuffixTransitive(DecodeFrame(d, schemas, base).rest, d[1..], d);
    } else {
      OtherSuffix(d);
    }
  }

  lemma OtherSuffix(d: Bytes)
    requires d != [] && TakeOther<FieldValue>(d).Parsed?
    ensures SuffixOf(TakeOther<FieldValue>(d).rest, d)
  {
    hide TakeSchema, TakePool;
    var body := d[1..];
    if d[0] == TAG_SCHEMA {
      SchemaSuffix(body);
    } else if d[0] == TAG_STRING_POOL {
      PoolSuffix(body);
    }
    SuffixTransitive(TakeOther<FieldValue>(d).rest, body, d);
  }

  lemma PoolSuffix(d: Bytes)
    requires TakePool(d).Parsed?
    ensures SuffixOf(TakePool(d).rest, d)
  {
    hide TakeU32, TakeCounted;
    LengthSuffix(d);
    forall e | TakePoolEntry(e).Parsed?
      ensures SuffixOf(TakePoolEntry(e).rest, e)
    {
      LengthSuffix(e);
      CountedSuffix(TakeU32(e).rest);
      SuffixTransitive(TakePoolEntry(e).rest, TakeU32(e).rest, e);
    }
    ManySuffix(TakePoolEntry, TakeU32(d).value, TakeU32(d).rest);
    SuffixTransitive(TakePool(d).rest, TakeU32(d).rest, d);
  }

  lemma Text16Suffix(d: Bytes)
    requires TakeText16(d).Parsed?
    ensures SuffixOf(TakeText16(d).rest, d)
  {
    hide ValidUtf8;
    SuffixTransitive(TakeText16(d).rest, TakeU16(d).rest, d);
  }

  lemma SchemaSuffix(d: Bytes)
    requires TakeSchema(d).Parsed?
    ensures SuffixOf(TakeSchema(d).rest, d)
  {
    hide TakeText16, TakeFieldDefs;
    var d1 := TakeU16(d).rest;
    var d2 := TakeText16(d1).rest;
    var d3 := TakeU8(d2).rest;
    Text16Suffix(d1);
    FieldDefsSuffix(d3);
    SuffixTransitive(TakeSchema(d).rest, d3, d2);
    SuffixTransitive(TakeSchema(d).rest, d2, d1);
    SuffixTransitive(TakeSchema(d).rest, d1, d);
  }

  lemma FieldDefsSuffix(d: Bytes)
    requires TakeFieldDefs(d).Parsed?
    ensures SuffixOf(TakeFieldDefs(d).rest, d)
  {
    hide TakeText16, Many, FromTag;
    forall e | TakeFieldDef(e).Parsed?
      ensures SuffixOf(TakeFieldDef(e).rest, e)
    {
      Text16Suffix(e);
      SuffixTransitive(TakeFieldDef(e).rest, TakeText16(e).rest, e);
    }
    ManySuffix(TakeFieldDef, TakeU16(d).value, TakeU16(d).rest);
    SuffixTransitive(TakeFieldDefs(d).rest, TakeU16(d).rest, d);
  }

  lemma HeadSuffix(d: Bytes, schemas: Lookup, base: u64)
    requires TakeEventHead(d, schemas, base).Parsed?
    ensures SuffixOf(TakeEventHead(d, schemas, base).rest, d)
  {
  }

  lemma {:induction false} ValuesSuffix(types: seq<FieldType>, d: Bytes)
    requires TakeValues(types, d).Parsed?
    ensures SuffixOf(TakeValues(types, d).rest, d)
  {
    hide DecodeValue;
    if types != [] {
      var v := DecodeValue(types[0], d);
      ValueSuffix(types[0], d);
      ValuesSuffix(types[1..], v.rest);
      SuffixTransitive(TakeValues(types, d).rest, v.rest, d);
    }
  }

  /** A parser that ends where it ends leaves a suffix of its input. */
  lemma ValueSuffix(ft: FieldType, d: Bytes)
    requires DecodeValue(ft, d).Parsed?
    ensures SuffixOf(DecodeValue(ft, d).rest, d)
  {
    match ft
    case Varint => DigitsSuffix(d, Leb128.MAX_LEN);
    case StackFrames =>
      hide TakeU32;
      LengthSuffix(d);
      ManySuffix(TakeU64, TakeU32(d).value, TakeU32(d).rest);
      SuffixTransitive(TakeAddrs(d).rest, TakeU32(d).rest, d);
    case StringMap =>
      hide TakeU32;
      LengthSuffix(d);
      PairsSuffix();
      ManySuffix(TakePair, TakeU32(d).value, TakeU32(d).rest);
      SuffixTransitive(TakePairs(d).rest, TakeU32(d).rest, d);
    case String => CountedSuffix(d);
    case Bytes => CountedSuffix(d);
    case _ =>
  }

  lemma PairsSuffix()
    ensures forall d :: TakePair(d).Parsed? ==> SuffixOf(TakePair(d).rest, d)
  {
    hide TakeCounted;
    forall d | TakePair(d).Parsed?
      ensures SuffixOf(TakePair(d).rest, d)
    {
      CountedSuffix(d);
      CountedSuffix(TakeCounted(d).rest);
      SuffixTransitive(TakePair(d).rest, TakeCounted(d).rest, d);
    }
  }

  lemma {:induction false} ManySuffix<T(!new)>(p: Bytes -> Parsed<T>, n: nat, d: Bytes)
    requires forall d :: p(d).Parsed? ==> SuffixOf(p(d).rest, d)
    requires Many(p, n, d).Parsed?
    ensures SuffixOf(Many(p, n, d).rest, d)
  {
    if n > 0 {
      ManySuffix(p, n - 1, p(d).rest);
      SuffixTransitive(Many(p, n, d).rest, p(d).rest, d);
    }
  }

  lemma {:induction false} DigitsSuffix(d: Bytes, budget: nat)
    requires Leb128.Digits(d, budget).Parsed?
    ensures SuffixOf(Leb128.Digits(d, budget).rest, d)
  {
    if d[0] >= 0x80 {
      DigitsSuffix(d[1..], budget - 1);
      SuffixTransitive(Leb128.Digits(d, budget).rest, d[1..], d);
    }
  }
}
