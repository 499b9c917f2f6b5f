/** Frames: how each kind is written, and how the owned and the zero-copy decoders read the
    one at the front of a byte string (dial9-trace-format/src/codec.rs). */
module Codec {
  import opened Wire
  import opened Wrappers
  import opened Utf8
  import opened Types
  import opened ZeroCopy
  import opened Schema

  const MAGIC: Bytes := [0x54, 0x52, 0x43, 0x00]
  const VERSION: u8 := 1
  const HEADER_SIZE := 5

  const TAG_SCHEMA: u8 := 1
  const TAG_EVENT: u8 := 2
  const TAG_STRING_POOL: u8 := 3
  const TAG_TIMESTAMP_RESET: u8 := 5

  const MAX_TIMESTAMP_DELTA: nat := 0xFF_FFFF

  datatype PoolEntry = PoolEntry(poolId: u32, data: Bytes)

  datatype Frame<+V> =
    | SchemaFrame(typeId: u16, entry: SchemaEntry)
    | EventFrame(typeId: u16, timestamp: Option<u64>, values: seq<V>)
    | PoolFrame(entries: seq<PoolEntry>)
    | ResetFrame(newBase: u64)

  /** What the decoder keeps of a schema to read events with. */
  datatype SchemaInfo = SchemaInfo(name: Text, fieldTypes: seq<FieldType>, hasTimestamp: bool)

  function InfoOf(entry: SchemaEntry): SchemaInfo {
    SchemaInfo(entry.name, FieldTypes(entry.fields), entry.hasTimestamp)
  }

  type Lookup = map<u16, SchemaInfo>

  // ----- writing -----

  const Header: Bytes := MAGIC + [VERSION]

  function Counted16(s: Bytes): Bytes {
    ToLE(|s|, 2) + s
  }

  function EncodeFieldDef(f: FieldDef): Bytes {
    Counted16(f.name) + [Tag(f.fieldType)]
  }

  function SchemaBytes(typeId: u16, entry: SchemaEntry): Bytes {
    ToLE(typeId, 2) + (Counted16(entry.name) + ([if entry.hasTimestamp then 1 else 0]
      + (ToLE(|entry.fields|, 2) + Flat(EncodeFieldDef, entry.fields))))
  }

  function EncodeSchema(typeId: u16, entry: SchemaEntry): Bytes {
    [TAG_SCHEMA] + SchemaBytes(typeId, entry)
  }

  function EncodePoolEntry(e: PoolEntry): Bytes {
    ToLE(e.poolId, 4) + Counted(e.data)
  }

  function EncodePool(entries: seq<PoolEntry>): Bytes {
    [TAG_STRING_POOL] + (ToLE(|entries|, 4) + Flat(EncodePoolEntry, entries))
  }

  function EncodeReset(ts: u64): Bytes {
    [TAG_TIMESTAMP_RESET] + ToLE(ts, 8)
  }

  /** An event's values, each written in the form of the type beside it. */
  function EncodeFields(types: seq<FieldType>, values: seq<FieldValue>): Bytes
    requires |types| == |values|
  {
    if values == [] then []
    else EncodeField(types[0], values[0]) + EncodeFields(types[1..], values[1..])
  }

  function EncodeEvent(typeId: u16, delta: nat, fields: Bytes): Bytes {
    [TAG_EVENT] + (ToLE(typeId, 2) + (ToLE(delta, 3) + fields))
  }

  /** Every length fits the integer it is cast to. */
  predicate SizedSchema(entry: SchemaEntry) {
    |entry.name| < TWO_16 && |entry.fields| < TWO_16 &&
    forall f :: f in entry.fields ==> |f.name| < TWO_16
  }

  // ----- reading -----

  function DecodeHeader(d: Bytes): Option<u8> {
    if |d| >= HEADER_SIZE && d[..4] == MAGIC then Some(d[4]) else None
  }

  function TakeText16(d: Bytes): (p: Parsed<Text>)
    ensures NoLonger(p, d)
  {
    var (len, d1) :- TakeU16(d);
    var (s, d2) :- Take(len, d1);
    if ValidUtf8(s) then Parsed(s, d2) else NoParse
  }

  function TakeFieldDef(d: Bytes): (p: Parsed<FieldDef>)
    ensures NoLonger(p, d)
  {
    var (name, d1) :- TakeText16(d);
    var (tag, d2) :- TakeU8(d1);
    match FromTag(tag)
    case None => NoParse
    case Some(ft) => Parsed(FieldDef(name, ft), d2)
  }

  function TakeFieldDefs(d: Bytes): (p: Parsed<seq<FieldDef>>)
    ensures NoLonger(p, d)
  {
    var (count, rest) :- TakeU16(d);
    RepeatedNoLonger(count, rest);
    Many(TakeFieldDef, count, rest)
  }

  function TakeFlagAndFields(d: Bytes): (p: Parsed<(bool, seq<FieldDef>)>)
    ensures NoLonger(p, d)
  {
    var (hasTimestamp, d1) :- TakeU8(d);
    var (fields, d2) :- TakeFieldDefs(d1);
    Parsed((hasTimestamp != 0, fields), d2)
  }

  function TakeSchema(d: Bytes): (p: Parsed<(u16, SchemaEntry)>)
    ensures NoLonger(p, d)
  {
    var (typeId, d1) :- TakeU16(d);
    var (name, d2) :- TakeText16(d1);
    var (body, d3) :- TakeFlagAndFields(d2);
    Parsed((typeId, SchemaEntry(name, body.0, body.1)), d3)
  }

  function TakePoolEntry(d: Bytes): (p: Parsed<PoolEntry>)
    ensures NoLonger(p, d)
  {
    var (poolId, d1) :- TakeU32(d);
    var (data, d2) :- TakeCounted(d1);
    Parsed(PoolEntry(poolId, data), d2)
  }

  function TakePool(d: Bytes): (p: Parsed<seq<PoolEntry>>)
    ensures NoLonger(p, d)
  {
    var (count, rest) :- TakeU32(d);
    RepeatedNoLonger(count, rest);
    Many(TakePoolEntry, count, rest)
  }

  function TakeU24(d: Bytes): (p: Parsed<nat>)
    ensures NoLonger(p, d) && (p.Parsed? ==> p.value <= MAX_TIMESTAMP_DELTA)
  {
    if 3 <= |d| then FromLEBound(d[..3]); Pow256Values(); Parsed(FromLE(d[..3]), d[3..]) else NoParse
  }

  datatype EventHead = EventHead(typeId: u16, timestamp: Option<u64>, fieldTypes: seq<FieldType>)

  /** Type id and timestamp. A sum past u64 fails: `checked_add`. */
  function TakeEventHead(d: Bytes, schemas: Lookup, base: u64): (p: Parsed<EventHead>)
    ensures NoLonger(p, d)
  {
    var (typeId, d1) :- TakeU16(d);
    if typeId !in schemas then NoParse
    else if !schemas[typeId].hasTimestamp then
      Parsed(EventHead(typeId, None, schemas[typeId].fieldTypes), d1)
    else
      var (delta, d2) :- TakeU24(d1);
      if base + delta >= TWO_64 then NoParse
      else Parsed(EventHead(typeId, Some(base + delta), schemas[typeId].fieldTypes), d2)
  }

  function TakeValues(types: seq<FieldType>, d: Bytes): (p: Parsed<seq<FieldValue>>)
    ensures NoLonger(p, d)
  {
    if types == [] then Parsed([], d) else
      var (v, d1) :- DecodeValue(types[0], d);
      var (vs, d2) :- TakeValues(types[1..], d1);
      Parsed([v] + vs, d2)
  }

  function TakeEvent(d: Bytes, schemas: Lookup, base: u64): (p: Parsed<Frame<FieldValue>>)
    ensures NoLonger(p, d)
  {
    var (head, d1) :- TakeEventHead(d, schemas, base);
    var (values, d2) :- TakeValues(head.fieldTypes, d1);
    Parsed(EventFrame(head.typeId, head.timestamp, values), d2)
  }

  /** The frames that carry no field values read the same in both decoders. */
  function TakeOther<V>(d: Bytes): (p: Parsed<Frame<V>>)
    requires d != []
    ensures p.Parsed? ==> |p.rest| < |d|
  {
    if d[0] == TAG_SCHEMA then
      var (s, rest) :- TakeSchema(d[1..]);
      Parsed(SchemaFrame(s.0, s.1), rest)
    else if d[0] == TAG_STRING_POOL then
      var (entries, rest) :- TakePool(d[1..]);
      Parsed(PoolFrame(entries), rest)
    else if d[0] == TAG_TIMESTAMP_RESET then
      var (ts, rest) :- TakeU64(d[1..]);
      Parsed(ResetFrame(ts), rest)
    else NoParse
  }

  /** `decode_frame`. */
  function DecodeFrame(d: Bytes, schemas: Lookup, base: u64): (p: Parsed<Frame<FieldValue>>)
    ensures p.Parsed? ==> |p.rest| < |d|
  {
    if d == [] then NoParse
    else if d[0] == TAG_EVENT then TakeEvent(d[1..], schemas, base)
    else TakeOther(d)
  }

  function TakeValuesRef(types: seq<FieldType>, d: Bytes): Borrowed<seq<FieldValueRef>> {
    if types == [] then Borrowed([], d) else
      match DecodeRef(types[0], d)
      case Missing => Missing
      case Panicked => Panicked
      case Borrowed(v, d1) =>
        match TakeValuesRef(types[1..], d1)
        case Missing => Missing
        case Panicked => Panicked
        case Borrowed(vs, d2) => Borrowed([v] + vs, d2)
  }

  function TakeEventRef(d: Bytes, schemas: Lookup, base: u64): Borrowed<Frame<FieldValueRef>> {
    match TakeEventHead(d, schemas, base)
    case NoParse => Missing
    case Parsed(head, d1) =>
      match TakeValuesRef(head.fieldTypes, d1)
      case Missing => Missing
      case Panicked => Panicked
      case Borrowed(values, d2) => Borrowed(EventFrame(head.typeId, head.timestamp, values), d2)
  }

  function AsBorrowed<T>(p: Parsed<T>): Borrowed<T> {
    match p
    case NoParse => Missing
    case Parsed(v, rest) => Borrowed(v, rest)
  }

  /** `decode_frame_ref`. */
  function DecodeFrameRef(d: Bytes, schemas: Lookup, base: u64): Borrowed<Frame<FieldValueRef>> {
    if d == [] then Missing
    else if d[0] == TAG_EVENT then TakeEventRef(d[1..], schemas, base)
    else AsBorrowed(TakeOther(d))
  }

  // ----- frames end where they end -----

  lemma U16Extends(d: Bytes, t: Bytes)
    ensures Extends(TakeU16(d), TakeU16(d + t), t)
  {
    TakeIntExtends(d, t);
  }

  lemma TakeText16Extends(d: Bytes, t: Bytes)
    ensures Extends(TakeText16(d), TakeText16(d + t), t)
  {
    hide TakeU16, Take, ValidUtf8;
    U16Extends(d, t);
    if TakeU16(d).Parsed? {
      var len, d1 := TakeU16(d).value, TakeU16(d).rest;
      TakeExtends(len, d1, t);
      assert TakeU16(d + t) == Parsed(len, d1 + t);
    } else if TakeU16(d + t).Parsed? {
      assert |TakeU16(d + t).rest| < |t|;
    }
  }

  lemma TakeFieldDefExtends(d: Bytes, t: Bytes)
    ensures Extends(TakeFieldDef(d), TakeFieldDef(d + t), t)
  {
    hide TakeText16, TakeU8, FromTag;
    TakeText16Extends(d, t);
    if TakeText16(d).Parsed? {
      TakeIntExtends(TakeText16(d).rest, t);
    }
  }

  lemma TakePoolEntryExtends(d: Bytes, t: Bytes)
    ensures Extends(TakePoolEntry(d), TakePoolEntry(d + t), t)
  {
    hide TakeU32, TakeCounted;
    TakeIntExtends(d, t);
    if TakeU32(d).Parsed? {
      TakeCountedExtends(TakeU32(d).rest, t);
    }
  }

  lemma RepeatedDelimited()
    ensures Delimited(TakeFieldDef) && Delimited(TakePoolEntry)
  {
    hide TakeFieldDef, TakePoolEntry;
    forall d, t
      ensures Extends(TakeFieldDef(d), TakeFieldDef(d + t), t)
      ensures Extends(TakePoolEntry(d), TakePoolEntry(d + t), t)
    {
      TakeFieldDefExtends(d, t);
      TakePoolEntryExtends(d, t);
    }
  }

  lemma RepeatedNoLonger(n: nat, d: Bytes)
    ensures NoLonger(Many(TakeFieldDef, n, d), d) && NoLonger(Many(TakePoolEntry, n, d), d)
  {
    hide TakeFieldDef, TakePoolEntry, Many;
    RepeatedDelimited();
    ManyExtends(TakeFieldDef, n, d, []);
    ManyExtends(TakePoolEntry, n, d, []);
  }

  lemma ListsExtend(d: Bytes, t: Bytes)
    ensures Extends(TakeFieldDefs(d), TakeFieldDefs(d + t), t)
    ensures Extends(TakePool(d), TakePool(d + t), t)
  {
    hide TakeU16, TakeU32, Many;
    TakeIntExtends(d, t);
    RepeatedDelimited();
    if TakeU16(d).Parsed? {
      ManyExtends(TakeFieldDef, TakeU16(d).value, TakeU16(d).rest, t);
    } else if TakeU16(d + t).Parsed? {
      RepeatedNoLonger(TakeU16(d + t).value, TakeU16(d + t).rest);
    }
    if TakeU32(d).Parsed? {
      ManyExtends(TakePoolEntry, TakeU32(d).value, TakeU32(d).rest, t);
    } else if TakeU32(d + t).Parsed? {
      RepeatedNoLonger(TakeU32(d + t).value, TakeU32(d + t).rest);
    }
  }

  lemma TakeSchemaExtends(d: Bytes, t: Bytes)
    ensures Extends(TakeSchema(d), TakeSchema(d + t), t)
  {
    hide TakeU16, TakeText16, TakeFlagAndFields;
    TakeIntExtends(d, t);
    if TakeU16(d).Parsed? {
      var d1 := TakeU16(d).rest;
      TakeText16Extends(d1, t);
      if TakeText16(d1).Parsed? {
        TakeFlagAndFieldsExtends(TakeText16(d1).rest, t);
      }
    }
  }

  lemma TakeFlagAndFieldsExtends(d: Bytes, t: Bytes)
    ensures Extends(TakeFlagAndFields(d), TakeFlagAndFields(d + t), t)
  {
    hide TakeU8, TakeFieldDefs;
    TakeIntExtends(d, t);
    if TakeU8(d).Parsed? {
      ListsExtend(TakeU8(d).rest, t);
    }
  }

  lemma TakeEventHeadExtends(d: Bytes, schemas: Lookup, base: u64, t: Bytes)
    ensures Extends(TakeEventHead(d, schemas, base), TakeEventHead(d + t, schemas, base), t)
  {
    hide TakeU16, TakeU24;
    TakeIntExtends(d, t);
    if TakeU16(d).Parsed? {
      TakeU24Extends(TakeU16(d).rest, t);
    }
  }

  lemma TakeU24Extends(d: Bytes, t: Bytes)
    ensures Extends(TakeU24(d), TakeU24(d + t), t)
  {
    hide FromLE;
    TakeExtends(3, d, t);
  }

  lemma {:induction false} TakeValuesExtends(types: seq<FieldType>, d: Bytes, t: Bytes)
    ensures Extends(TakeValues(types, d), TakeValues(types, d + t), t)
  {
    hide DecodeValue;
    if types != [] {
      DecodeValueExtends(types[0], d, t);
      if DecodeValue(types[0], d).Parsed? {
        TakeValuesExtends(types[1..], DecodeValue(types[0], d).rest, t);
      }
    }
  }

  lemma TakeEventExtends(d: Bytes, schemas: Lookup, base: u64, t: Bytes)
    ensures Extends(TakeEvent(d, schemas, base), TakeEvent(d + t, schemas, base), t)
  {
    hide TakeEventHead, TakeValues;
    TakeEventHeadExtends(d, schemas, base, t);
    var head := TakeEventHead(d, schemas, base);
    if head.Parsed? {
      TakeValuesExtends(head.value.fieldTypes, head.rest, t);
    }
  }

  lemma TakeOtherExtends(d: Bytes, t: Bytes)
    requires d != []
    ensures Extends(TakeOther<FieldValue>(d), TakeOther(d + t), t)
  {
    hide TakeSchema, TakePool, TakeU64, TakeFieldDefs, TakeU8, TakeU16, TakeU32;
    assert (d + t)[1..] == d[1..] + t;
    if d[0] == TAG_SCHEMA {
      TakeSchemaExtends(d[1..], t);
    } else {
      ListsExtend(d[1..], t);
      TakeIntExtends(d[1..], t);
    }
  }

  /** The decoder succeeds on a string exactly when it succeeds, with the same frame, on every
      longer one without using the extra bytes. */
  lemma DecodeFrameExtends(d: Bytes, schemas: Lookup, base: u64, t: Bytes)
    ensures Extends(DecodeFrame(d, schemas, base), DecodeFrame(d + t, schemas, base), t)
  {
    hide TakeEvent, TakeOther;
    if d == [] {
      assert d + t == t;
    } else {
      assert (d + t)[1..] == d[1..] + t;
      TakeEventExtends(d[1..], schemas, base, t);
      TakeOtherExtends(d, t);
    }
  }

  // ----- owned and zero-copy frames -----

  function ReadableValues(values: seq<FieldValue>): seq<FieldValue> {
    seq(|values|, i requires 0 <= i < |values| => Readable(values[i]))
  }

  function ContentsOf(values: seq<FieldValueRef>): seq<FieldValue> {
    seq(|values|, i requires 0 <= i < |values| => Contents(values[i]))
  }

  function OwnedFrame(f: Frame<FieldValueRef>): Frame<FieldValue> {
    match f
    case EventFrame(typeId, ts, values) => EventFrame(typeId, ts, ContentsOf(values))
    case SchemaFrame(typeId, entry) => SchemaFrame(typeId, entry)
    case PoolFrame(entries) => PoolFrame(entries)
    case ResetFrame(ts) => ResetFrame(ts)
  }

  function ReadableFrame(f: Frame<FieldValue>): Frame<FieldValue> {
    if f.EventFrame? then f.(values := ReadableValues(f.values)) else f
  }

  /** A string that is there but is not UTF-8: the owned decoder patches it, the zero-copy decoder
      refuses it. */
  predicate BrokenText(ft: FieldType, d: Bytes) {
    ft == String && TakeCounted(d).Parsed? && !ValidUtf8(TakeCounted(d).value)
  }

  /** Among the values that are there no string is broken, and no string map's last value runs
      past the end. */
  predicate Borrowable(types: seq<FieldType>, d: Bytes) {
    types == [] ||
    (&& !BrokenText(types[0], d)
     && !(types[0] == StringMap && LastValueOverruns(d))
     && (DecodeValue(types[0], d).Parsed? ==> Borrowable(types[1..], DecodeValue(types[0], d).rest)))
  }

  /** Behind values both decoders read, the last value of a string map runs past the end. */
  predicate Overruns(types: seq<FieldType>, d: Bytes) {
    types != [] &&
    (|| (types[0] == StringMap && LastValueOverruns(d))
     || (&& DecodeValue(types[0], d).Parsed? && !BrokenText(types[0], d)
         && Overruns(types[1..], DecodeValue(types[0], d).rest)))
  }

  /** When all values are there, none may be broken; when they are not, none may overrun before
      the zero-copy decoder gives up. */
  predicate ValuesAlike(types: seq<FieldType>, d: Bytes) {
    if TakeValues(types, d).Parsed? then Borrowable(types, d) else !Overruns(types, d)
  }

  /** Both fail, or both end at the same byte with the same contents. */
  predicate SameValues(p: Parsed<seq<FieldValue>>, b: Borrowed<seq<FieldValueRef>>) {
    match p
    case NoParse => b.Missing?
    case Parsed(vs, rest) => b.Borrowed? && b.rest == rest && ContentsOf(b.value) == ReadableValues(vs)
  }

  /** The two value loops agree exactly on the inputs that are alike to them, and the zero-copy
      one panics exactly at an overrun. */
  lemma {:induction false} ValuesAgree(types: seq<FieldType>, d: Bytes)
    ensures SameValues(TakeValues(types, d), TakeValuesRef(types, d)) <==> ValuesAlike(types, d)
    ensures TakeValuesRef(types, d).Panicked? <==> Overruns(types, d)
    ensures TakeValuesRef(types, d).Borrowed? ==> Borrowable(types, d) && TakeValues(types, d).Parsed?
    ensures Borrowable(types, d) ==> !Overruns(types, d)
  {
    hide DecodeValue, DecodeRef, TakeCounted, ValidUtf8, LastValueOverruns, Contents, Readable;
    if types != [] {
      ZeroCopyAgrees(types[0], d);
      StringParses(types[0], d);
      if DecodeValue(types[0], d).Parsed? {
        ValuesAgree(types[1..], DecodeValue(types[0], d).rest);
        if TakeValuesRef(types, d).Borrowed? && TakeValues(types, d).Parsed? {
          ConsContents(DecodeRef(types[0], d).value, TakeValuesRef(types[1..], DecodeRef(types[0], d).rest).value);
          ConsReadable(DecodeValue(types[0], d).value, TakeValues(types[1..], DecodeValue(types[0], d).rest).value);
        }
      }
    }
  }

  /** A string of one byte that is not UTF-8 is read by one decoder and refused by the other. */
  lemma BrokenTextDiffers()
    ensures TakeValues([String], [1, 0, 0, 0, 0xFF]).Parsed?
    ensures TakeValuesRef([String], [1, 0, 0, 0, 0xFF]).Missing?
  {
    hide Lossy, FromLE;
    var d: Bytes := [1, 0, 0, 0, 0xFF];
    SmallLE4(d);
    assert TakeU32(d) == Parsed(1, d[4..]);
    assert TakeCounted(d).value[0] == 0xFF;
  }

  lemma ConsContents(r: FieldValueRef, rs: seq<FieldValueRef>)
    ensures ContentsOf([r] + rs) == [Contents(r)] + ContentsOf(rs)
  {
  }

  lemma ConsReadable(v: FieldValue, vs: seq<FieldValue>)
    ensures ReadableValues([v] + vs) == [Readable(v)] + ReadableValues(vs)
  {
  }

  lemma StringParses(ft: FieldType, d: Bytes)
    ensures ft == String ==> (DecodeValue(ft, d).Parsed? <==> TakeCounted(d).Parsed?)
  {
  }

  /** A frame whose values, if they are there, are borrowable. */
  predicate BorrowableFrame(d: Bytes, schemas: Lookup, base: u64) {
    d != [] && d[0] == TAG_EVENT && TakeEventHead(d[1..], schemas, base).Parsed? ==>
      Borrowable(TakeEventHead(d[1..], schemas, base).value.fieldTypes,
                 TakeEventHead(d[1..], schemas, base).rest)
  }

  predicate FrameAlike(d: Bytes, schemas: Lookup, base: u64) {
    d != [] && d[0] == TAG_EVENT && TakeEventHead(d[1..], schemas, base).Parsed? ==>
      ValuesAlike(TakeEventHead(d[1..], schemas, base).value.fieldTypes,
                  TakeEventHead(d[1..], schemas, base).rest)
  }

  predicate SameFrames(p: Parsed<Frame<FieldValue>>, b: Borrowed<Frame<FieldValueRef>>) {
    match p
    case NoParse => b.Missing?
    case Parsed(f, rest) => b.Borrowed? && b.rest == rest && OwnedFrame(b.value) == ReadableFrame(f)
  }

  /** Only on event frames can the decoders disagree, and there exactly when their values do:
      one reads a frame the other refuses or panics on, or one fails where the other panics. */
  lemma FramesAgree(d: Bytes, schemas: Lookup, base: u64)
    ensures var p, b := DecodeFrame(d, schemas, base), DecodeFrameRef(d, schemas, base);
            && (SameFrames(p, b) <==> FrameAlike(d, schemas, base))
            && (!SameFrames(p, b) ==> !b.Borrowed? && (p.Parsed? ==> p.value.EventFrame?))
    ensures BorrowableFrame(d, schemas, base) ==> FrameAlike(d, schemas, base)
    ensures DecodeFrameRef(d, schemas, base).Borrowed? ==> BorrowableFrame(d, schemas, base)
    ensures DecodeFrameRef(d, schemas, base).Panicked? ==> !BorrowableFrame(d, schemas, base)
  {
    hide TakeSchema, TakePool, TakeU64, TakeEventHead, TakeValues, TakeValuesRef, Borrowable, Overruns;
    if d != [] && d[0] == TAG_EVENT && TakeEventHead(d[1..], schemas, base).Parsed? {
      var head := TakeEventHead(d[1..], schemas, base);
      ValuesAgree(head.value.fieldTypes, head.rest);
    }
  }

  // ----- round trips -----

  lemma Text16RoundTrip(s: Text, t: Bytes)
    requires |s| < TWO_16
    ensures TakeText16(Counted16(s) + t) == Parsed(s, t)
  {
    hide TakeU16, Take, ValidUtf8, ToLE;
    assert Counted16(s) + t == ToLE(|s|, 2) + (s + t);
    TakeEncodedInts(|s|, s + t);
    TakeWhole(s, t);
  }

  lemma FieldDefRoundTrip(f: FieldDef, t: Bytes)
    requires |f.name| < TWO_16
    ensures TakeFieldDef(EncodeFieldDef(f) + t) == Parsed(f, t)
  {
    hide TakeText16, Counted16, FromTag, Tag;
    var tag := [Tag(f.fieldType)];
    assert EncodeFieldDef(f) + t == Counted16(f.name) + (tag + t);
    Text16RoundTrip(f.name, tag + t);
    assert (tag + t)[1..] == t;
    TagRoundTrip(f.fieldType, tag[0]);
  }

  lemma CountRoundTrip16(count: nat, body: Bytes, t: Bytes)
    requires count < TWO_16
    ensures TakeU16(ToLE(count, 2) + body + t) == Parsed(count, body + t)
  {
    assert ToLE(count, 2) + body + t == ToLE(count, 2) + (body + t);
    TakeEncodedInts(count, body + t);
  }

  lemma FieldDefsRoundTrip(fields: seq<FieldDef>, t: Bytes)
    requires |fields| < TWO_16 && forall f :: f in fields ==> |f.name| < TWO_16
    ensures TakeFieldDefs(ToLE(|fields|, 2) + Flat(EncodeFieldDef, fields) + t) == Parsed(fields, t)
  {
    hide TakeU16, Many, ToLE, Flat, TakeFieldDef, EncodeFieldDef;
    CountRoundTrip16(|fields|, Flat(EncodeFieldDef, fields), t);
    forall f, r: Bytes | f in fields
      ensures TakeFieldDef(EncodeFieldDef(f) + r) == Parsed(f, r)
    {
      FieldDefRoundTrip(f, r);
    }
    ManyRoundTrip(TakeFieldDef, EncodeFieldDef, fields, t);
  }

  lemma SchemaRoundTrip(typeId: u16, entry: SchemaEntry, t: Bytes, schemas: Lookup, base: u64)
    requires SizedSchema(entry)
    ensures DecodeFrame(EncodeSchema(typeId, entry) + t, schemas, base)
            == Parsed(SchemaFrame(typeId, entry), t)
  {
    hide TakeU16, TakeText16, TakeFieldDefs, ToLE, Flat, Counted16;
    var fields := ToLE(|entry.fields|, 2) + Flat(EncodeFieldDef, entry.fields);
    var flag := [if entry.hasTimestamp then 1 else 0];
    var d := SchemaBytes(typeId, entry) + t;
    assert (EncodeSchema(typeId, entry) + t)[1..] == d;
    assert d == ToLE(typeId, 2) + (Counted16(entry.name) + (flag + (fields + t)));
    TakeEncodedInts(typeId, Counted16(entry.name) + (flag + (fields + t)));
    Text16RoundTrip(entry.name, flag + (fields + t));
    assert (flag + (fields + t))[1..] == fields + t;
    FieldDefsRoundTrip(entry.fields, t);
  }

  lemma PoolEntryRoundTrip(e: PoolEntry, t: Bytes)
    requires |e.data| < TWO_32
    ensures TakePoolEntry(EncodePoolEntry(e) + t) == Parsed(e, t)
  {
    hide TakeU32, TakeCounted, Counted, ToLE;
    assert EncodePoolEntry(e) + t == ToLE(e.poolId, 4) + (Counted(e.data) + t);
    TakeEncodedInts(e.poolId, Counted(e.data) + t);
    CountedRoundTrip(e.data, t);
  }

  lemma PoolRoundTrip(entries: seq<PoolEntry>, t: Bytes, schemas: Lookup, base: u64)
    requires |entries| < TWO_32 && forall e :: e in entries ==> |e.data| < TWO_32
    ensures DecodeFrame(EncodePool(entries) + t, schemas, base) == Parsed(PoolFrame(entries), t)
  {
    hide TakeU32, Many, ToLE, Flat, TakePoolEntry, EncodePoolEntry;
    var body := Flat(EncodePoolEntry, entries);
    assert (EncodePool(entries) + t)[1..] == ToLE(|entries|, 4) + (body + t);
    TakeEncodedInts(|entries|, body + t);
    forall e, r: Bytes | e in entries
      ensures TakePoolEntry(EncodePoolEntry(e) + r) == Parsed(e, r)
    {
      PoolEntryRoundTrip(e, r);
    }
    ManyRoundTrip(TakePoolEntry, EncodePoolEntry, entries, t);
  }

  lemma ResetRoundTrip(ts: u64, t: Bytes, schemas: Lookup, base: u64)
    ensures DecodeFrame(EncodeReset(ts) + t, schemas, base) == Parsed(ResetFrame(ts), t)
  {
    hide TakeU64, ToLE;
    assert (EncodeReset(ts) + t)[1..] == ToLE(ts, 8) + t;
    TakeEncodedInts(ts, t);
  }

  lemma {:induction false} FieldsRoundTrip(types: seq<FieldType>, values: seq<FieldValue>, t: Bytes)
    requires |types| == |values|
    requires forall i :: 0 <= i < |types| ==> Fits(types[i], values[i]) && Sized(values[i])
    ensures TakeValues(types, EncodeFields(types, values) + t) == Parsed(values, t)
  {
    hide DecodeValue, EncodeField, Fits, Sized;
    if types == [] {
      assert EncodeFields(types, values) + t == t;
    } else {
      var tail := EncodeFields(types[1..], values[1..]) + t;
      assert EncodeFields(types, values) + t == EncodeField(types[0], values[0]) + tail;
      FieldRoundTrip(types[0], values[0], tail);
      FieldsRoundTrip(types[1..], values[1..], t);
      assert [values[0]] + values[1..] == values;
    }
  }

  /** An event whose delta was taken from `base` reads back with its exact timestamp. */
  lemma EventRoundTrip(typeId: u16, delta: nat, fields: Bytes, values: seq<FieldValue>, t: Bytes,
                       schemas: Lookup, base: u64)
    requires typeId in schemas && schemas[typeId].hasTimestamp
    requires delta <= MAX_TIMESTAMP_DELTA && base + delta < TWO_64
    requires TakeValues(schemas[typeId].fieldTypes, fields + t) == Parsed(values, t)
    ensures DecodeFrame(EncodeEvent(typeId, delta, fields) + t, schemas, base)
            == Parsed(EventFrame(typeId, Some(base + delta), values), t)
  {
    hide TakeU16, ToLE, TakeValues;
    var d := ToLE(typeId, 2) + (ToLE(delta, 3) + (fields + t));
    assert (EncodeEvent(typeId, delta, fields) + t)[1..] == d;
    TakeEncodedInts(typeId, ToLE(delta, 3) + (fields + t));
    Pow256Values();
    TakeEncoded(3, delta, fields + t);
    assert TakeU24(ToLE(delta, 3) + (fields + t)) == Parsed(delta, fields + t);
  }
}
