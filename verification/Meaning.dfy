/** What bytes stand for, type by type, and that the owned decoder reads exactly that
    (dial9-trace-format/src/types.rs and codec.rs). */
module Meaning {
  import opened Wire
  import opened Wrappers
  import opened Utf8
  import opened Types
  import opened Schema
  import opened Codec
  import Leb128

  // ----- integers and lists -----

  lemma TakenInts(d: Wire.Bytes)
    ensures TakeU16(d).Parsed? ==> d == ToLE(TakeU16(d).value, 2) + TakeU16(d).rest
    ensures TakeU32(d).Parsed? ==> d == ToLE(TakeU32(d).value, 4) + TakeU32(d).rest
    ensures TakeU64(d).Parsed? ==> d == ToLE(TakeU64(d).value, 8) + TakeU64(d).rest
  {
    hide ToLE, FromLE;
    if 2 <= |d| { ToFromLE(d[..2]); assert d == d[..2] + d[2..]; }
    if 4 <= |d| { ToFromLE(d[..4]); assert d == d[..4] + d[4..]; }
    if 8 <= |d| { ToFromLE(d[..8]); assert d == d[..8] + d[8..]; }
  }

  lemma TakenCounted(d: Wire.Bytes)
    requires TakeCounted(d).Parsed?
    ensures d == Counted(TakeCounted(d).value) + TakeCounted(d).rest && |TakeCounted(d).value| < TWO_32
  {
    hide ToLE, TakeU32;
    TakenInts(d);
    var len, d1 := TakeU32(d).value, TakeU32(d).rest;
    assert d1 == d1[..len] + d1[len..];
    assert ToLE(len, 4) + (d1[..len] + d1[len..]) == (ToLE(len, 4) + d1[..len]) + d1[len..];
  }

  lemma TakenPair(d: Wire.Bytes)
    requires TakePair(d).Parsed?
    ensures d == EncodePair(TakePair(d).value) + TakePair(d).rest
    ensures |TakePair(d).value.0| < TWO_32 && |TakePair(d).value.1| < TWO_32
  {
    hide TakeCounted, Counted;
    TakenCounted(d);
    TakenCounted(TakeCounted(d).rest);
    var k, v, rest := TakeCounted(d).value, TakeCounted(TakeCounted(d).rest).value, TakePair(d).rest;
    assert Counted(k) + (Counted(v) + rest) == (Counted(k) + Counted(v)) + rest;
  }

  lemma {:induction false} TakenMany<T(!new)>(p: Wire.Bytes -> Parsed<T>, enc: T -> Wire.Bytes, ok: T -> bool, n: nat,
                                              d: Wire.Bytes)
    requires forall e :: p(e).Parsed? ==> e == enc(p(e).value) + p(e).rest && ok(p(e).value)
    requires Many(p, n, d).Parsed?
    ensures |Many(p, n, d).value| == n && d == Flat(enc, Many(p, n, d).value) + Many(p, n, d).rest
    ensures forall x :: x in Many(p, n, d).value ==> ok(x)
  {
    if n == 0 {
      assert [] + d == d;
    } else {
      var x, d1 := p(d).value, p(d).rest;
      TakenMany(p, enc, ok, n - 1, d1);
      var xs, rest := Many(p, n - 1, d1).value, Many(p, n - 1, d1).rest;
      assert ([x] + xs)[1..] == xs;
      assert enc(x) + (Flat(enc, xs) + rest) == (enc(x) + Flat(enc, xs)) + rest;
    }
  }

  // ----- values -----

  /** The bytes stand for the value as a field of type `ft`. Any byte but zero is true, a string
      that is not UTF-8 stands for its patched form, and a number may be longer than it need be. */
  ghost predicate Stands(ft: FieldType, b: Wire.Bytes, v: FieldValue) {
    match ft
    case I64 => v.I64Value? && b == ToLE(if v.i < 0 then v.i + TWO_64 else v.i, 8)
    case F64 => v.F64Value? && b == ToLE(v.bits, 8)
    case Bool => v.BoolValue? && |b| == 1 && (v.b <==> b[0] != 0)
    case String => v.StringValue? && exists s: Wire.Bytes :: |s| < TWO_32 && b == ToLE(|s|, 4) + s && v.s == Lossy(s)
    case Bytes => v.BytesValue? && |v.bytes| < TWO_32 && b == ToLE(|v.bytes|, 4) + v.bytes
    case PooledString => v.PooledValue? && b == ToLE(v.id, 4)
    case StackFrames => v.FramesValue? && |v.addrs| < TWO_32 && b == ToLE(|v.addrs|, 4) + Flat(EncodeAddr, v.addrs)
    case Varint => v.VarintValue? && |b| <= 10 && exists n: nat :: Leb128.IsNumber(b, n) && v.n == n % TWO_64
    case StringMap => v.MapValue? && Sized(v) && b == ToLE(|v.pairs|, 4) + Flat(EncodePair, v.pairs)
    case U8 => v.VarintValue? && b == [v.n]
    case U16 => v.VarintValue? && v.n < TWO_16 && b == ToLE(v.n, 2)
    case U32 => v.VarintValue? && v.n < TWO_32 && b == ToLE(v.n, 4)
  }

  lemma TakenAddrs(d: Wire.Bytes)
    requires TakeAddrs(d).Parsed?
    ensures var addrs := TakeAddrs(d).value;
            |addrs| < TWO_32 && d == (ToLE(|addrs|, 4) + Flat(EncodeAddr, addrs)) + TakeAddrs(d).rest
  {
    hide TakeU32, ToLE, Many, Flat, TakeU64;
    TakenInts(d);
    var n, d1 := TakeU32(d).value, TakeU32(d).rest;
    forall e
      ensures TakeU64(e).Parsed? ==> e == EncodeAddr(TakeU64(e).value) + TakeU64(e).rest
    {
      TakenInts(e);
    }
    TakenMany(TakeU64, EncodeAddr, _ => true, n, d1);
    var m := Many(TakeU64, n, d1);
    assert ToLE(n, 4) + (Flat(EncodeAddr, m.value) + m.rest) == (ToLE(n, 4) + Flat(EncodeAddr, m.value)) + m.rest;
  }

  lemma TakenPairs(d: Wire.Bytes)
    requires TakePairs(d).Parsed?
    ensures var pairs := TakePairs(d).value;
            Sized(MapValue(pairs)) && d == (ToLE(|pairs|, 4) + Flat(EncodePair, pairs)) + TakePairs(d).rest
  {
    hide TakeU32, ToLE, Many, Flat, TakePair, EncodePair;
    TakenInts(d);
    var n, d1 := TakeU32(d).value, TakeU32(d).rest;
    var ok := (kv: Pair) => |kv.0| < TWO_32 && |kv.1| < TWO_32;
    forall e
      ensures TakePair(e).Parsed? ==> e == EncodePair(TakePair(e).value) + TakePair(e).rest && ok(TakePair(e).value)
    {
      if TakePair(e).Parsed? { TakenPair(e); }
    }
    TakenMany(TakePair, EncodePair, ok, n, d1);
    var m := Many(TakePair, n, d1);
    assert forall kv :: kv in m.value ==> ok(kv);
    assert ToLE(n, 4) + (Flat(EncodePair, m.value) + m.rest) == (ToLE(n, 4) + Flat(EncodePair, m.value)) + m.rest;
  }

  /** What is read is what the bytes in front stand for. */
  lemma ReadStands(ft: FieldType, d: Wire.Bytes) returns (b: Wire.Bytes)
    requires DecodeValue(ft, d).Parsed?
    ensures d == b + DecodeValue(ft, d).rest && Stands(ft, b, DecodeValue(ft, d).value)
  {
    hide TakeU16, TakeU32, TakeU64, TakeCounted, TakeAddrs, TakePairs, ToLE, Flat, Lossy, ValidUtf8, FromLE,
         Leb128.IsNumber, Leb128.DecodeUnsigned;
    var v, rest := DecodeValue(ft, d).value, DecodeValue(ft, d).rest;
    TakenInts(d);
    match ft
    case I64 => b := ToLE(I64Bits(v.i), 8);
    case F64 => b := ToLE(v.bits, 8);
    case Bool => b := [d[0]];
    case String =>
      TakenCounted(d);
      var s := TakeCounted(d).value;
      b := Counted(s);
      if ValidUtf8(s) { LossyOfValid(s); }
    case Bytes =>
      TakenCounted(d);
      b := Counted(v.bytes);
    case PooledString => b := ToLE(v.id, 4);
    case StackFrames =>
      TakenAddrs(d);
      b := ToLE(|v.addrs|, 4) + Flat(EncodeAddr, v.addrs);
    case Varint =>
      Leb128.ReadsNumber(d, v.n, rest);
      var b1, n: nat :| Leb128.IsNumber(b1, n) && |b1| <= 10 && v.n == n % TWO_64 && d == b1 + rest;
      b := b1;
    case StringMap =>
      TakenPairs(d);
      b := ToLE(|v.pairs|, 4) + Flat(EncodePair, v.pairs);
    case U8 => b := [d[0]];
    case U16 => b := ToLE(v.n, 2);
    case U32 => b := ToLE(v.n, 4);
  }

  /** And bytes that stand for a value are read as it, whatever follows. */
  lemma StandsRead(ft: FieldType, b: Wire.Bytes, v: FieldValue, t: Wire.Bytes)
    requires Stands(ft, b, v)
    ensures DecodeValue(ft, b + t) == Parsed(v, t)
  {
    hide TakeU16, TakeU32, TakeU64, TakeCounted, TakeAddrs, TakePairs, ToLE, Flat, Lossy, ValidUtf8, FromLE,
         Leb128.IsNumber, Leb128.DecodeUnsigned;
    match ft
    case Bool =>
      assert (b + t)[1..] == t;
    case String =>
      var s: Wire.Bytes :| |s| < TWO_32 && b == ToLE(|s|, 4) + s && v.s == Lossy(s);
      CountedRoundTrip(s, t);
      if ValidUtf8(s) { LossyOfValid(s); }
    case Varint =>
      var n: nat :| Leb128.IsNumber(b, n) && v.n == n % TWO_64;
      Leb128.ReadsNumber(b + t, v.n, t);
      assert Leb128.IsNumber(b, n);
    case U8 =>
      assert (b + t)[1..] == t;
    case _ =>
      hide DecodeValue;
      FieldRoundTrip(ft, v, t);
  }

  /** The owned decoder reads a value exactly where bytes stand for it. */
  lemma ReadsExactly(ft: FieldType, d: Wire.Bytes, v: FieldValue, rest: Wire.Bytes)
    ensures DecodeValue(ft, d) == Parsed(v, rest) <==> exists b :: Stands(ft, b, v) && d == b + rest
  {
    hide DecodeValue, Stands;
    if DecodeValue(ft, d) == Parsed(v, rest) {
      var b := ReadStands(ft, d);
    }
    if b :| Stands(ft, b, v) && d == b + rest {
      StandsRead(ft, b, v, rest);
    }
  }

  // ----- frames -----

  /** A stream begins with the four magic bytes and a version. */
  lemma HeaderReadExactly(d: Wire.Bytes, version: u8)
    ensures DecodeHeader(d) == Some(version) <==>
            5 <= |d| && d[0] == 0x54 && d[1] == 0x52 && d[2] == 0x43 && d[3] == 0x00 && d[4] == version
  {
    if 5 <= |d| {
      assert d[..4] == [d[0], d[1], d[2], d[3]];
    }
  }

  /** One after the other, the values of the types. */
  ghost predicate ValuesStand(types: seq<FieldType>, b: Wire.Bytes, values: seq<FieldValue>) {
    if types == [] then b == [] && values == []
    else
      && values != []
      && exists first, later :: b == first + later && Stands(types[0], first, values[0])
                                && ValuesStand(types[1..], later, values[1..])
  }

  /** A schema as it is written, with any byte for the timestamp flag. */
  function Flagged(typeId: u16, entry: SchemaEntry, flag: u8): Wire.Bytes {
    ToLE(typeId, 2) + (Counted16(entry.name) + ([flag]
      + (ToLE(|entry.fields|, 2) + Flat(EncodeFieldDef, entry.fields))))
  }

  /** The bytes stand for the frame, its values by the known schemas and its time from `base`. */
  ghost predicate FrameStands(b: Wire.Bytes, schemas: Lookup, base: u64, f: Frame<FieldValue>) {
    match f
    case SchemaFrame(typeId, entry) =>
      SizedSchema(entry)
      && exists flag: u8 :: (flag != 0 <==> entry.hasTimestamp) && b == [1] + Flagged(typeId, entry, flag)
    case PoolFrame(entries) =>
      && |entries| < TWO_32 && (forall e :: e in entries ==> |e.data| < TWO_32)
      && b == [3] + (ToLE(|entries|, 4) + Flat(EncodePoolEntry, entries))
    case ResetFrame(ts) => b == [5] + ToLE(ts, 8)
    case EventFrame(typeId, ts, values) =>
      && typeId in schemas && (ts.Some? <==> schemas[typeId].hasTimestamp)
      && (ts.Some? ==> base <= ts.value <= base + 0xFF_FFFF)
      && exists body ::
           && ValuesStand(schemas[typeId].fieldTypes, body, values)
           && b == [2] + (ToLE(typeId, 2) + ((if ts.Some? then ToLE(ts.value - base, 3) else []) + body))
  }

  lemma {:induction false} TakenValues(types: seq<FieldType>, d: Wire.Bytes) returns (b: Wire.Bytes)
    requires TakeValues(types, d).Parsed?
    ensures d == b + TakeValues(types, d).rest && ValuesStand(types, b, TakeValues(types, d).value)
  {
    hide DecodeValue, Stands;
    if types == [] {
      b := [];
    } else {
      var first := ReadStands(types[0], d);
      var later := TakenValues(types[1..], DecodeValue(types[0], d).rest);
      b := first + later;
      var v, vs := DecodeValue(types[0], d).value, TakeValues(types[1..], DecodeValue(types[0], d).rest).value;
      assert ([v] + vs)[1..] == vs;
      assert first + (later + TakeValues(types, d).rest) == b + TakeValues(types, d).rest;
    }
  }

  lemma {:induction false} ValuesTaken(types: seq<FieldType>, b: Wire.Bytes, values: seq<FieldValue>, t: Wire.Bytes)
    requires ValuesStand(types, b, values)
    ensures TakeValues(types, b + t) == Parsed(values, t)
    decreases |types|
  {
    hide DecodeValue, Stands;
    if types == [] {
      assert b + t == t;
    } else {
      var first, later :| b == first + later && Stands(types[0], first, values[0])
                          && ValuesStand(types[1..], later, values[1..]);
      assert b + t == first + (later + t);
      StandsRead(types[0], first, values[0], later + t);
      ValuesTaken(types[1..], later, values[1..], t);
      assert [values[0]] + values[1..] == values;
    }
  }

  lemma TakenText16(d: Wire.Bytes)
    requires TakeText16(d).Parsed?
    ensures d == Counted16(TakeText16(d).value) + TakeText16(d).rest && |TakeText16(d).value| < TWO_16
  {
    hide ToLE, TakeU16, ValidUtf8;
    TakenInts(d);
    var len, d1 := TakeU16(d).value, TakeU16(d).rest;
    assert d1 == d1[..len] + d1[len..];
    assert ToLE(len, 2) + (d1[..len] + d1[len..]) == (ToLE(len, 2) + d1[..len]) + d1[len..];
  }

  lemma TakenFieldDef(d: Wire.Bytes)
    requires TakeFieldDef(d).Parsed?
    ensures d == EncodeFieldDef(TakeFieldDef(d).value) + TakeFieldDef(d).rest && |TakeFieldDef(d).value.name| < TWO_16
  {
    hide TakeText16, Counted16, Tag, FromTag;
    TakenText16(d);
    var name, d1, f := TakeText16(d).value, TakeText16(d).rest, TakeFieldDef(d).value;
    TagRoundTrip(f.fieldType, d1[0]);
    assert d1 == [d1[0]] + d1[1..];
    assert Counted16(name) + ([d1[0]] + d1[1..]) == (Counted16(name) + [d1[0]]) + d1[1..];
  }

  lemma TakenFieldDefs(d: Wire.Bytes)
    requires TakeFieldDefs(d).Parsed?
    ensures var fields := TakeFieldDefs(d).value;
            && |fields| < TWO_16 && (forall f :: f in fields ==> |f.name| < TWO_16)
            && d == (ToLE(|fields|, 2) + Flat(EncodeFieldDef, fields)) + TakeFieldDefs(d).rest
  {
    hide TakeU16, ToLE, Many, Flat, TakeFieldDef, EncodeFieldDef;
    TakenInts(d);
    var n, d1 := TakeU16(d).value, TakeU16(d).rest;
    var ok := (f: FieldDef) => |f.name| < TWO_16;
    forall e
      ensures TakeFieldDef(e).Parsed? ==>
                e == EncodeFieldDef(TakeFieldDef(e).value) + TakeFieldDef(e).rest && ok(TakeFieldDef(e).value)
    {
      if TakeFieldDef(e).Parsed? { TakenFieldDef(e); }
    }
    TakenMany(TakeFieldDef, EncodeFieldDef, ok, n, d1);
    var m := Many(TakeFieldDef, n, d1);
    assert forall f :: f in m.value ==> ok(f);
    assert ToLE(n, 2) + (Flat(EncodeFieldDef, m.value) + m.rest)
           == (ToLE(n, 2) + Flat(EncodeFieldDef, m.value)) + m.rest;
  }

  lemma TakenSchema(d: Wire.Bytes) returns (flag: u8)
    requires TakeSchema(d).Parsed?
    ensures var (id, entry) := TakeSchema(d).value;
            && SizedSchema(entry) && (flag != 0 <==> entry.hasTimestamp)
            && d == Flagged(id, entry, flag) + TakeSchema(d).rest
  {
    hide TakeU16, TakeText16, TakeFieldDefs, Counted16, ToLE, Flat;
    TakenInts(d);
    var d1 := TakeU16(d).rest;
    TakenText16(d1);
    var d2 := TakeText16(d1).rest;
    flag := d2[0];
    TakenFieldDefs(d2[1..]);
    var (id, entry) := TakeSchema(d).value;
    var a, b, c, e, rest := ToLE(id, 2), Counted16(entry.name), [flag],
                            ToLE(|entry.fields|, 2) + Flat(EncodeFieldDef, entry.fields), TakeSchema(d).rest;
    assert d2 == c + (e + rest);
    assert a + (b + (c + (e + rest))) == (a + (b + (c + e))) + rest;
  }

  lemma SchemaTaken(id: u16, entry: SchemaEntry, flag: u8, t: Wire.Bytes)
    requires SizedSchema(entry) && (flag != 0 <==> entry.hasTimestamp)
    ensures TakeSchema(Flagged(id, entry, flag) + t) == Parsed((id, entry), t)
  {
    hide TakeU16, TakeText16, TakeFieldDefs, ToLE, Flat, Counted16;
    var fields := ToLE(|entry.fields|, 2) + Flat(EncodeFieldDef, entry.fields);
    assert Flagged(id, entry, flag) + t == ToLE(id, 2) + (Counted16(entry.name) + ([flag] + (fields + t)));
    TakeEncodedInts(id, Counted16(entry.name) + ([flag] + (fields + t)));
    Text16RoundTrip(entry.name, [flag] + (fields + t));
    assert ([flag] + (fields + t))[1..] == fields + t;
    FieldDefsRoundTrip(entry.fields, t);
  }

  lemma TakenPoolEntry(d: Wire.Bytes)
    requires TakePoolEntry(d).Parsed?
    ensures d == EncodePoolEntry(TakePoolEntry(d).value) + TakePoolEntry(d).rest
    ensures |TakePoolEntry(d).value.data| < TWO_32
  {
    hide TakeU32, TakeCounted, Counted, ToLE;
    TakenInts(d);
    var id, d1 := TakeU32(d).value, TakeU32(d).rest;
    TakenCounted(d1);
    var s, rest := TakeCounted(d1).value, TakeCounted(d1).rest;
    assert ToLE(id, 4) + (Counted(s) + rest) == (ToLE(id, 4) + Counted(s)) + rest;
  }

  lemma TakenPool(d: Wire.Bytes)
    requires TakePool(d).Parsed?
    ensures var entries := TakePool(d).value;
            && |entries| < TWO_32 && (forall e :: e in entries ==> |e.data| < TWO_32)
            && d == (ToLE(|entries|, 4) + Flat(EncodePoolEntry, entries)) + TakePool(d).rest
  {
    hide TakeU32, ToLE, Many, Flat, TakePoolEntry, EncodePoolEntry;
    TakenInts(d);
    var n, d1 := TakeU32(d).value, TakeU32(d).rest;
    var ok := (e: PoolEntry) => |e.data| < TWO_32;
    forall e
      ensures TakePoolEntry(e).Parsed? ==>
                e == EncodePoolEntry(TakePoolEntry(e).value) + TakePoolEntry(e).rest && ok(TakePoolEntry(e).value)
    {
      if TakePoolEntry(e).Parsed? { TakenPoolEntry(e); }
    }
    TakenMany(TakePoolEntry, EncodePoolEntry, ok, n, d1);
    var m := Many(TakePoolEntry, n, d1);
    assert forall e :: e in m.value ==> ok(e);
    assert ToLE(n, 4) + (Flat(EncodePoolEntry, m.value) + m.rest)
           == (ToLE(n, 4) + Flat(EncodePoolEntry, m.value)) + m.rest;
  }

  lemma TakenHead(d: Wire.Bytes, schemas: Lookup, base: u64)
    requires TakeEventHead(d, schemas, base).Parsed?
    ensures var head := TakeEventHead(d, schemas, base).value;
            && head.typeId in schemas && head.fieldTypes == schemas[head.typeId].fieldTypes
            && (head.timestamp.Some? <==> schemas[head.typeId].hasTimestamp)
            && (head.timestamp.Some? ==> base <= head.timestamp.value <= base + 0xFF_FFFF)
            && d == ToLE(head.typeId, 2)
                    + ((if head.timestamp.Some? then ToLE(head.timestamp.value - base, 3) else [])
                       + TakeEventHead(d, schemas, base).rest)
  {
    hide TakeU16, ToLE, FromLE;
    TakenInts(d);
    var d1 := TakeU16(d).rest;
    if TakeU24(d1).Parsed? {
      ToFromLE(d1[..3]);
      assert d1 == d1[..3] + d1[3..];
    }
    assert [] + d1 == d1;
  }

  lemma HeadTaken(id: u16, ts: Option<u64>, body: Wire.Bytes, schemas: Lookup, base: u64)
    requires id in schemas && (ts.Some? <==> schemas[id].hasTimestamp)
    requires ts.Some? ==> base <= ts.value <= base + 0xFF_FFFF
    ensures TakeEventHead(ToLE(id, 2) + ((if ts.Some? then ToLE(ts.value - base, 3) else []) + body), schemas, base)
            == Parsed(EventHead(id, ts, schemas[id].fieldTypes), body)
  {
    hide TakeU16, ToLE, FromLE;
    var delta := if ts.Some? then ToLE(ts.value - base, 3) else [];
    TakeEncodedInts(id, delta + body);
    if ts.Some? {
      Pow256Values();
      TakeEncoded(3, ts.value - base, body);
      assert TakeU24(delta + body) == Parsed(ts.value - base, body);
    } else {
      assert delta + body == body;
    }
  }

  lemma TakenEvent(d: Wire.Bytes, schemas: Lookup, base: u64) returns (b: Wire.Bytes)
    requires TakeEvent(d, schemas, base).Parsed?
    ensures d == b + TakeEvent(d, schemas, base).rest
    ensures FrameStands([2] + b, schemas, base, TakeEvent(d, schemas, base).value)
  {
    hide TakeEventHead, TakeValues, ToLE, ValuesStand;
    TakenHead(d, schemas, base);
    var head, d1 := TakeEventHead(d, schemas, base).value, TakeEventHead(d, schemas, base).rest;
    var body := TakenValues(head.fieldTypes, d1);
    var delta := if head.timestamp.Some? then ToLE(head.timestamp.value - base, 3) else [];
    b := ToLE(head.typeId, 2) + (delta + body);
    var rest := TakeEvent(d, schemas, base).rest;
    assert ToLE(head.typeId, 2) + (delta + (body + rest)) == b + rest;
  }

  lemma EventTaken(b: Wire.Bytes, schemas: Lookup, base: u64, f: Frame<FieldValue>, t: Wire.Bytes)
    requires f.EventFrame? && FrameStands(b, schemas, base, f)
    ensures b != [] && b[0] == 2 && TakeEvent(b[1..] + t, schemas, base) == Parsed(f, t)
  {
    hide TakeEventHead, TakeValues, ToLE, ValuesStand;
    var id, ts, delta := f.typeId, f.timestamp, if f.timestamp.Some? then ToLE(f.timestamp.value - base, 3) else [];
    var body :| ValuesStand(schemas[id].fieldTypes, body, f.values) && b == [2] + (ToLE(id, 2) + (delta + body));
    assert b[1..] == ToLE(id, 2) + (delta + body);
    assert b[1..] + t == ToLE(id, 2) + (delta + (body + t));
    HeadTaken(id, ts, body + t, schemas, base);
    ValuesTaken(schemas[id].fieldTypes, body, f.values, t);
  }

  /** What the owned decoder reads is what the bytes in front stand for. */
  lemma FrameRead(d: Wire.Bytes, schemas: Lookup, base: u64) returns (b: Wire.Bytes)
    requires DecodeFrame(d, schemas, base).Parsed?
    ensures d == b + DecodeFrame(d, schemas, base).rest
    ensures FrameStands(b, schemas, base, DecodeFrame(d, schemas, base).value)
  {
    hide TakeEvent, TakeSchema, TakePool, TakeU64, ToLE, Flat, Flagged;
    assert d == [d[0]] + d[1..];
    if d[0] == TAG_EVENT {
      hide FrameStands;
      var event := TakenEvent(d[1..], schemas, base);
      b := [2] + event;
    } else if d[0] == TAG_SCHEMA {
      var flag := TakenSchema(d[1..]);
      var (id, entry) := TakeSchema(d[1..]).value;
      b := [1] + Flagged(id, entry, flag);
    } else if d[0] == TAG_STRING_POOL {
      TakenPool(d[1..]);
      var entries := TakePool(d[1..]).value;
      b := [3] + (ToLE(|entries|, 4) + Flat(EncodePoolEntry, entries));
    } else {
      TakenInts(d[1..]);
      b := [5] + ToLE(TakeU64(d[1..]).value, 8);
    }
  }

  /** And bytes that stand for a frame are read as it, whatever follows. */
  lemma FrameIsRead(b: Wire.Bytes, schemas: Lookup, base: u64, f: Frame<FieldValue>, t: Wire.Bytes)
    requires FrameStands(b, schemas, base, f)
    ensures DecodeFrame(b + t, schemas, base) == Parsed(f, t)
  {
    hide TakeEvent, TakeSchema, TakePool, TakeU64, ToLE, Flat, Flagged;
    match f
    case SchemaFrame(id, entry) =>
      var flag: u8 :| (flag != 0 <==> entry.hasTimestamp) && b == [1] + Flagged(id, entry, flag);
      assert (b + t)[1..] == Flagged(id, entry, flag) + t;
      SchemaTaken(id, entry, flag, t);
    case PoolFrame(entries) =>
      hide DecodeFrame;
      PoolRoundTrip(entries, t, schemas, base);
    case ResetFrame(ts) =>
      hide DecodeFrame;
      ResetRoundTrip(ts, t, schemas, base);
    case EventFrame(_, _, _) =>
      EventTaken(b, schemas, base, f, t);
      assert (b + t)[1..] == b[1..] + t;
  }

  /** The owned decoder reads a frame exactly where bytes stand for it: nothing else is accepted. */
  lemma FramesReadExactly(d: Wire.Bytes, schemas: Lookup, base: u64, f: Frame<FieldValue>, rest: Wire.Bytes)
    ensures DecodeFrame(d, schemas, base) == Parsed(f, rest) <==>
            exists b :: FrameStands(b, schemas, base, f) && d == b + rest
  {
    hide DecodeFrame, FrameStands;
    if DecodeFrame(d, schemas, base) == Parsed(f, rest) {
      var b := FrameRead(d, schemas, base);
    }
    if b :| FrameStands(b, schemas, base, f) && d == b + rest {
      FrameIsRead(b, schemas, base, f, rest);
    }
  }
}
