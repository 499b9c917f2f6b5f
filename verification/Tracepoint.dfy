/** Kernel tracepoints as trace events: field values taken from a raw record, and the schema and
    values they are written with (perf-self-profile/src/tracepoint.rs). */
module Tracepoint {
  import opened Wire
  import opened Wrappers
  import opened Utf8
  import opened Types
  import opened Schema
  import opened Codec
  import opened Decoding
  import opened Encoding
  import opened Answers
  import opened TraceEncoder

  datatype TracepointField =
    TracepointField(name: Text, fieldType: string, offset: nat, size: nat, signed: bool, isDynamic: bool)

  datatype TracepointDef = TracepointDef(name: Text, id: u32, fields: seq<TracepointField>)

  /** A number keeps its width in bytes: 1, 2, 4 or 8. */
  datatype RawFieldValue =
    | Unsigned(width: nat, n: u64)
    | Signed(width: nat, i: i64)
    | Str(s: Text)
    | Opaque(bytes: Wire.Bytes)

  /** What becomes of a record: its values, or an error, or a slice out of bounds. */
  datatype Extraction = Values(values: seq<RawFieldValue>) | TooShort | BeyondData | Panics

  // ----- extraction -----

  predicate IsCharArray(fieldType: string) {
    "char[" <= fieldType || "__kernel_char[" <= fieldType
  }

  predicate IsWidth(size: nat) {
    size == 1 || size == 2 || size == 4 || size == 8
  }

  /** Up to the first zero byte. */
  function UntilNul(bytes: Wire.Bytes): (r: Wire.Bytes)
    ensures r <= bytes && 0 !in r
    ensures |r| < |bytes| ==> bytes[|r|] == 0
  {
    if bytes == [] || bytes[0] == 0 then [] else [bytes[0]] + UntilNul(bytes[1..])
  }

  function NulTerminated(bytes: Wire.Bytes): Text {
    Lossy(UntilNul(bytes))
  }

  /** Two's complement in `width` bytes. */
  function AsSigned(n: nat, width: nat): int
    requires width > 0
  {
    if n < Pow256(width) / 2 then n else n - Pow256(width)
  }

  lemma NumberFits(bytes: Wire.Bytes)
    requires IsWidth(|bytes|)
    ensures FromLE(bytes) < TWO_64
    ensures -0x8000_0000_0000_0000 <= AsSigned(FromLE(bytes), |bytes|) < 0x8000_0000_0000_0000
  {
    FromLEBound(bytes);
    Pow256Values();
  }

  /** `extract_field_value`. */
  function ExtractValue(bytes: Wire.Bytes, signed: bool, fieldType: string): RawFieldValue {
    if IsCharArray(fieldType) then Str(NulTerminated(bytes))
    else if IsWidth(|bytes|) then
      NumberFits(bytes);
      if signed then Signed(|bytes|, AsSigned(FromLE(bytes), |bytes|)) else Unsigned(|bytes|, FromLE(bytes))
    else Opaque(bytes)
  }

  /** One field of a raw record. A dynamic field holds an offset and a length in four bytes. */
  function ExtractField(f: TracepointField, raw: Wire.Bytes): Extraction {
    if f.offset + f.size > |raw| then TooShort
    else if f.isDynamic then
      if f.offset + 4 > |raw| then Panics
      else
        var loc := FromLE(raw[f.offset..f.offset + 4]);
        var start, len := loc / TWO_16, loc % TWO_16;
        if start + len > |raw| then BeyondData else Values([Str(NulTerminated(raw[start..start + len]))])
    else Values([ExtractValue(raw[f.offset..f.offset + f.size], f.signed, f.fieldType)])
  }

  /** `extract_fields`: the first field that fails decides. */
  function Extract(fields: seq<TracepointField>, raw: Wire.Bytes): (r: Extraction)
    ensures r.Values? ==> |r.values| == |fields|
  {
    if fields == [] then Values([])
    else
      var before := Extract(fields[..|fields| - 1], raw);
      var last := ExtractField(fields[|fields| - 1], raw);
      if !before.Values? then before
      else if !last.Values? then last
      else Values(before.values + last.values)
  }

  // ----- as trace fields -----

  function FieldTypeOf(f: TracepointField): FieldType {
    if f.isDynamic || IsCharArray(f.fieldType) then String
    else if 1 <= f.size <= 8 then if f.signed then I64 else Varint
    else Types.Bytes
  }

  function TraceFields(fields: seq<TracepointField>): (r: seq<FieldDef>)
    ensures |r| == |fields|
    ensures forall i :: 0 <= i < |fields| ==> r[i] == FieldDef(fields[i].name, FieldTypeOf(fields[i]))
  {
    seq(|fields|, i requires 0 <= i < |fields| => FieldDef(fields[i].name, FieldTypeOf(fields[i])))
  }

  function SchemaOf(def: TracepointDef): SchemaEntry {
    Handle(def.name, TraceFields(def.fields))
  }

  function ToFieldValue(v: RawFieldValue): FieldValue {
    match v
    case Unsigned(_, n) => VarintValue(n)
    case Signed(_, i) => I64Value(i)
    case Str(s) => StringValue(s)
    case Opaque(bytes) => BytesValue(bytes)
  }

  function ToFieldValues(values: seq<RawFieldValue>): (r: seq<FieldValue>)
    ensures |r| == |values|
    ensures forall i :: 0 <= i < |values| ==> r[i] == ToFieldValue(values[i])
  {
    seq(|values|, i requires 0 <= i < |values| => ToFieldValue(values[i]))
  }

  // ----- the values are what the record says -----

  /** The bytes before the first zero byte, or all of them, as text. */
  ghost predicate IsTextOf(bytes: Wire.Bytes, s: Text) {
    exists n: nat ::
      && n <= |bytes| && 0 !in bytes[..n] && (n < |bytes| ==> bytes[n] == 0)
      && s == Lossy(bytes[..n])
  }

  lemma NulTerminatedIs(bytes: Wire.Bytes)
    ensures IsTextOf(bytes, NulTerminated(bytes))
  {
    hide Lossy;
    var r := UntilNul(bytes);
    assert bytes[..|r|] == r;
  }

  /** The number these bytes hold, in two's complement if it is signed. */
  ghost predicate Represents(bytes: Wire.Bytes, v: RawFieldValue) {
    match v
    case Unsigned(width, n) => width == |bytes| && n < Pow256(width) && ToLE(n, width) == bytes
    case Signed(width, i) =>
      && width == |bytes| && -(Pow256(width) as int) <= 2 * i < Pow256(width)
      && ToLE(if i < 0 then Pow256(width) + i else i, width) == bytes
    case Str(s) => IsTextOf(bytes, s)
    case Opaque(b) => b == bytes
  }

  lemma EvenPower(width: nat)
    requires width > 0
    ensures 2 * (Pow256(width) / 2) == Pow256(width)
  {
    assert Pow256(width) == 256 * Pow256(width - 1);
    assert 256 * Pow256(width - 1) == 2 * (128 * Pow256(width - 1));
  }

  /** A field's bytes can be recovered from what was taken from them, sign and width included. */
  lemma ExtractedRepresents(bytes: Wire.Bytes, signed: bool, fieldType: string)
    ensures Represents(bytes, ExtractValue(bytes, signed, fieldType))
    ensures var v := ExtractValue(bytes, signed, fieldType);
            !IsCharArray(fieldType) && IsWidth(|bytes|) ==> if signed then v.Signed? else v.Unsigned?
  {
    hide Pow256, ToLE, FromLE, NulTerminated, IsTextOf, IsCharArray;
    NulTerminatedIs(bytes);
    if !IsCharArray(fieldType) && IsWidth(|bytes|) {
      FromLEBound(bytes);
      ToFromLE(bytes);
      EvenPower(|bytes|);
      NumberFits(bytes);
    }
  }

  // ----- which bytes of the record -----

  /** Four bytes at `offset` say: `len` bytes from `off` on. */
  ghost predicate Located(raw: Wire.Bytes, offset: nat, off: nat, len: nat) {
    off < TWO_16 && len < TWO_16 && offset + 4 <= |raw| && ToLE(off * TWO_16 + len, 4) == raw[offset..offset + 4]
  }

  lemma LocatedOnce(raw: Wire.Bytes, offset: nat, off: nat, len: nat)
    requires offset + 4 <= |raw|
    ensures Located(raw, offset, off, len) <==>
            var loc := FromLE(raw[offset..offset + 4]); off == loc / TWO_16 && len == loc % TWO_16
  {
    hide ToLE, FromLE;
    var bytes := raw[offset..offset + 4];
    var loc := FromLE(bytes);
    FromLEBound(bytes);
    ToFromLE(bytes);
    Pow256Values();
    if off < TWO_16 && len < TWO_16 {
      FromToLE(off * TWO_16 + len, 4);
      ModUnique(off * TWO_16 + len, TWO_32, 0, off * TWO_16 + len);
      ModUnique(off * TWO_16 + len, TWO_16, off, len);
    }
  }

  /** The field lies in the record, and so does the text it points at. */
  ghost predicate Extractable(f: TracepointField, raw: Wire.Bytes) {
    && f.offset + f.size <= |raw|
    && (f.isDynamic ==>
          f.offset + 4 <= |raw| && forall off: nat, len: nat :: Located(raw, f.offset, off, len) ==> off + len <= |raw|)
  }

  /** What the record says of a field: the text a dynamic field points at, the text of a character
      array, a number of 1, 2, 4 or 8 bytes, or bytes. */
  ghost predicate Tells(f: TracepointField, raw: Wire.Bytes, v: RawFieldValue)
    requires Extractable(f, raw)
  {
    if f.isDynamic then
      v.Str? && forall off: nat, len: nat :: Located(raw, f.offset, off, len) ==> IsTextOf(raw[off..off + len], v.s)
    else
      && Represents(raw[f.offset..f.offset + f.size], v)
      && if "char[" <= f.fieldType || "__kernel_char[" <= f.fieldType then v.Str?
         else if f.size in {1, 2, 4, 8} then if f.signed then v.Signed? else v.Unsigned?
         else v.Opaque?
  }

  /** Why a field cannot be extracted. */
  ghost predicate Fails(f: TracepointField, raw: Wire.Bytes, why: Extraction) {
    match why
    case Values(_) => false
    case TooShort => f.offset + f.size > |raw|
    case Panics => f.isDynamic && f.offset + f.size <= |raw| < f.offset + 4
    case BeyondData =>
      f.isDynamic && f.offset + f.size <= |raw|
      && exists off: nat, len: nat :: Located(raw, f.offset, off, len) && off + len > |raw|
  }

  lemma ExtractsField(f: TracepointField, raw: Wire.Bytes)
    ensures match ExtractField(f, raw)
            case Values(vs) => |vs| == 1 && Extractable(f, raw) && Tells(f, raw, vs[0])
            case why => !Extractable(f, raw) && Fails(f, raw, why)
  {
    hide Represents, IsTextOf, NulTerminated, ExtractValue, Located;
    if f.offset + f.size <= |raw| {
      if !f.isDynamic {
        ExtractedRepresents(raw[f.offset..f.offset + f.size], f.signed, f.fieldType);
        ExtractedKind(raw[f.offset..f.offset + f.size], f.signed, f.fieldType);
      } else if f.offset + 4 <= |raw| {
        var loc := FromLE(raw[f.offset..f.offset + 4]);
        forall off: nat, len: nat
          ensures Located(raw, f.offset, off, len) <==> off == loc / TWO_16 && len == loc % TWO_16
        {
          LocatedOnce(raw, f.offset, off, len);
        }
        assert Located(raw, f.offset, loc / TWO_16, loc % TWO_16);
        if loc / TWO_16 + loc % TWO_16 <= |raw| {
          NulTerminatedIs(raw[loc / TWO_16..loc / TWO_16 + loc % TWO_16]);
        }
      }
    }
  }

  lemma ExtractedKind(bytes: Wire.Bytes, signed: bool, fieldType: string)
    ensures var v := ExtractValue(bytes, signed, fieldType);
            if "char[" <= fieldType || "__kernel_char[" <= fieldType then v.Str?
            else if |bytes| in {1, 2, 4, 8} then if signed then v.Signed? else v.Unsigned?
            else v.Opaque?
  {
    hide FromLE, AsSigned, NulTerminated;
  }

  /** Extraction gives every field what the record says of it, or stops at the first field that
      does not lie in the record and says why. */
  lemma {:induction false} ExtractsExactly(fields: seq<TracepointField>, raw: Wire.Bytes)
    ensures match Extract(fields, raw)
            case Values(vs) =>
              forall i :: 0 <= i < |fields| ==> Extractable(fields[i], raw) && Tells(fields[i], raw, vs[i])
            case why =>
              exists k ::
                && 0 <= k < |fields| && !Extractable(fields[k], raw) && Fails(fields[k], raw, why)
                && forall i :: 0 <= i < k ==> Extractable(fields[i], raw)
    decreases |fields|
  {
    hide ExtractField, Extractable, Tells, Fails;
    if fields != [] {
      var front, last := fields[..|fields| - 1], fields[|fields| - 1];
      ExtractsExactly(front, raw);
      ExtractsField(last, raw);
      var before := Extract(front, raw);
      if before.Values? {
        forall i | 0 <= i < |front|
          ensures Extractable(fields[i], raw) && Tells(fields[i], raw, before.values[i])
        {
          assert fields[i] == front[i];
        }
        if !ExtractField(last, raw).Values? {
          assert !Extractable(fields[|front|], raw) && Fails(fields[|front|], raw, ExtractField(last, raw));
        }
      } else {
        var k :| 0 <= k < |front| && !Extractable(front[k], raw) && Fails(front[k], raw, before)
                 && forall i :: 0 <= i < k ==> Extractable(front[i], raw);
        assert fields[k] == front[k];
        assert forall i :: 0 <= i < k ==> fields[i] == front[i];
      }
    }
  }

  // ----- the values fit the schema -----

  /** Between three and seven bytes only four make a number; the schema thinks otherwise. */
  predicate FitsSchema(f: TracepointField) {
    f.isDynamic || IsCharArray(f.fieldType) || !(f.size == 3 || 5 <= f.size <= 7)
  }

  /** Exactly then the value reads back under the type the schema gives the field. */
  lemma FieldFitsExactly(f: TracepointField, raw: Wire.Bytes)
    requires ExtractField(f, raw).Values?
    ensures FitsUntyped(FieldTypeOf(f), ToFieldValue(ExtractField(f, raw).values[0])) <==> FitsSchema(f)
  {
    hide NulTerminated, IsCharArray, FromLE, AsSigned;
  }

  /** A three-byte field of a record is misread by every reader of the trace. */
  lemma OddSizeMisread(f: TracepointField, raw: Wire.Bytes)
    requires ExtractField(f, raw).Values? && !FitsSchema(f)
    ensures var v := ToFieldValue(ExtractField(f, raw).values[0]);
            DecodeValue(FieldTypeOf(f), EncodeValue(v)) != Parsed(v, [])
  {
    FieldFitsExactly(f, raw);
    hide ExtractField, FieldTypeOf, DecodeValue, EncodeValue, FitsUntyped;
    var v := ToFieldValue(ExtractField(f, raw).values[0]);
    UntypedMisread(FieldTypeOf(f), v);
    assert EncodeValue(v) + [] == EncodeValue(v);
  }

  /** The trace holds the field's value as it is, a number in the width of the field. */
  predicate Carries(f: TracepointField, v: RawFieldValue, got: FieldValue) {
    match v
    case Unsigned(width, n) => width == f.size && got == VarintValue(n)
    case Signed(width, i) => width == f.size && got == I64Value(i)
    case Str(s) => got == StringValue(s)
    case Opaque(bytes) => got == BytesValue(bytes)
  }

  lemma FieldCarried(f: TracepointField, raw: Wire.Bytes)
    requires ExtractField(f, raw).Values?
    ensures |ExtractField(f, raw).values| == 1
    ensures Carries(f, ExtractField(f, raw).values[0], ToFieldValue(ExtractField(f, raw).values[0]))
  {
    hide NulTerminated, IsCharArray, FromLE, AsSigned;
  }

  lemma {:induction false} EachField(fields: seq<TracepointField>, raw: Wire.Bytes, i: nat)
    requires Extract(fields, raw).Values? && i < |fields|
    ensures ExtractField(fields[i], raw) == Values([Extract(fields, raw).values[i]])
    decreases |fields|
  {
    hide ExtractField;
    FieldCarried(fields[|fields| - 1], raw);
    if i < |fields| - 1 {
      EachField(fields[..|fields| - 1], raw, i);
    }
  }

  lemma FieldSized(f: TracepointField, raw: Wire.Bytes)
    requires ExtractField(f, raw).Values? && 3 * |raw| < TWO_32
    ensures Types.Sized(ToFieldValue(ExtractField(f, raw).values[0]))
  {
    hide IsCharArray, FromLE, AsSigned, Lossy, UntilNul;
    if f.isDynamic {
      var loc := FromLE(raw[f.offset..f.offset + 4]);
      LossyGrowth(UntilNul(raw[loc / TWO_16..loc / TWO_16 + loc % TWO_16]));
    } else {
      LossyGrowth(UntilNul(raw[f.offset..f.offset + f.size]));
    }
  }

  /** The call `encode_raw` makes once the fields are extracted. */
  function RawOp(def: TracepointDef, ts: u64, values: seq<RawFieldValue>): Op {
    Call.WriteEvent(SchemaOf(def), [VarintValue(ts)] + ToFieldValues(values))
  }

  lemma RawAllowed(e: EncState, def: TracepointDef, ts: u64, raw: Wire.Bytes)
    requires Extract(def.fields, raw).Values? && 3 * |raw| < TWO_32 && CanRegister(e, SchemaOf(def))
    requires forall f :: f in def.fields ==> FitsSchema(f)
    ensures Allowed(e, RawOp(def, ts, Extract(def.fields, raw).values))
  {
    hide Extract, ExtractField, FieldTypeOf, FitsSchema, ToFieldValue, CanRegister, FitsUntyped, Types.Sized;
    var values, schema := Extract(def.fields, raw).values, SchemaOf(def);
    var written := [VarintValue(ts)] + ToFieldValues(values);
    assert written[1..] == ToFieldValues(values);
    forall i | 0 <= i < |def.fields|
      ensures Types.Sized(written[1..][i]) && FitsUntyped(schema.fields[i].fieldType, written[1..][i])
    {
      EachField(def.fields, raw, i);
      FieldSized(def.fields[i], raw);
      FieldFitsExactly(def.fields[i], raw);
      assert def.fields[i] in def.fields;
    }
  }

  /** The event carries the extracted values, signs and widths included. */
  ghost predicate CarriesValues(def: TracepointDef, ts: u64, values: seq<RawFieldValue>, event: Decoded<FieldValue>) {
    && event.EventSeen? && event.timestamp == Some(ts) && |event.values| == |def.fields| == |values|
    && forall i :: 0 <= i < |def.fields| ==> Carries(def.fields[i], values[i], event.values[i])
  }

  /** Registered for a tracepoint: its name, and a field for each of its fields, text for text and
      numbers for what is one to eight bytes long. */
  ghost predicate SchemaShows(entry: SchemaEntry, def: TracepointDef) {
    && entry.name == def.name && entry.hasTimestamp && |entry.fields| == |def.fields|
    && forall i :: 0 <= i < |def.fields| ==>
         var f := def.fields[i];
         && entry.fields[i].name == f.name
         && entry.fields[i].fieldType
            == if f.isDynamic || "char[" <= f.fieldType || "__kernel_char[" <= f.fieldType then String
               else if f.size == 0 || f.size > 8 then Types.Bytes
               else if f.signed then I64 else Varint
  }

  /** A tracepoint record, end to end: unless another schema has the tracepoint's name, the event
      is written, and a decoder that has read the stream so far reads what was added, the event
      last and under the tracepoint's schema. */
  lemma EncodeRawRoundTrip(e: EncState, d: DecState, def: TracepointDef, ts: u64, raw: Wire.Bytes)
    returns (d1: DecState)
    requires Consistent(e, d) && CanRegister(e, SchemaOf(def)) && Accepts(e, SchemaOf(def))
    requires Extract(def.fields, raw).Values? && 3 * |raw| < TWO_32
    requires forall f :: f in def.fields ==> FitsSchema(f)
    ensures var values := Extract(def.fields, raw).values;
            var r := Apply(e, RawOp(def, ts, values));
            && r.result == Done && Reads(d, r.bytes, r.log, d1) && Consistent(r.state, d1)
            && r.log != [] && var event := r.log[|r.log| - 1];
            && CarriesValues(def, ts, values, event)
            && event.typeId in d1.registry && SchemaShows(d1.registry[event.typeId], def)
  {
    hide Extract, ExtractField, FieldTypeOf, FitsSchema, ToFieldValue, CanRegister, Reads, EnsureRegistered, Accepts,
         EventBytes, Carries, SchemaShows;
    SchemaIs(def);
    var values := Extract(def.fields, raw).values;
    var op := RawOp(def, ts, values);
    RawAllowed(e, def, ts, raw);
    d1 := OpInStep(e, d, op);
    var written := [VarintValue(ts)] + ToFieldValues(values);
    assert written[1..] == ToFieldValues(values);
    WriteEventAnswers(e, d, SchemaOf(def), written);
    hide Apply, Consistent;
    forall i | 0 <= i < |def.fields|
      ensures Carries(def.fields[i], values[i], ToFieldValues(values)[i])
    {
      EachField(def.fields, raw, i);
      FieldCarried(def.fields[i], raw);
    }
    SameRegistry(Apply(e, op).state, d1);
  }

  lemma SchemaIs(def: TracepointDef)
    ensures SchemaShows(SchemaOf(def), def)
  {
  }

  lemma SameRegistry(e: EncState, d: DecState)
    requires Consistent(e, d)
    ensures e.registry == d.registry
  {
  }

  // ----- the loops -----

  method ExtractFields(def: TracepointDef, raw: Wire.Bytes) returns (r: Extraction)
    ensures r == Extract(def.fields, raw)
  {
    hide NulTerminated, ExtractValue;
    var values: seq<RawFieldValue> := [];
    for k := 0 to |def.fields|
      invariant Extract(def.fields[..k], raw) == Values(values)
    {
      var f := def.fields[k];
      assert def.fields[..k + 1][..k] == def.fields[..k];
      var end := f.offset + f.size;
      if end > |raw| {
        ExtractStops(def.fields, raw, k);
        return TooShort;
      }
      if f.isDynamic {
        if f.offset + 4 > |raw| {
          ExtractStops(def.fields, raw, k);
          return Panics;
        }
        var loc := FromLE(raw[f.offset..f.offset + 4]);
        var dataOff, dataLen := loc / TWO_16, loc % TWO_16;
        if dataOff + dataLen > |raw| {
          ExtractStops(def.fields, raw, k);
          return BeyondData;
        }
        values := values + [Str(NulTerminated(raw[dataOff..dataOff + dataLen]))];
      } else {
        values := values + [ExtractValue(raw[f.offset..end], f.signed, f.fieldType)];
      }
    }
    assert def.fields[..|def.fields|] == def.fields;
    r := Values(values);
  }

  lemma {:induction false} ExtractStops(fields: seq<TracepointField>, raw: Wire.Bytes, k: nat)
    requires k < |fields| && Extract(fields[..k], raw).Values? && !ExtractField(fields[k], raw).Values?
    ensures Extract(fields, raw) == ExtractField(fields[k], raw)
    decreases |fields|
  {
    hide ExtractField;
    if k == |fields| - 1 {
    } else {
      var front := fields[..|fields| - 1];
      assert front[..k] == fields[..k];
      ExtractStops(front, raw, k);
    }
  }

  /** `encode_raw`, as far as an encoder is called: a record that does not extract writes nothing. */
  method EncodeRaw(def: TracepointDef, encoder: Encoder, ts: u64, raw: Wire.Bytes)
    returns (extracted: bool, r: OpResult)
    requires encoder.Valid() && CanRegister(encoder.State(), SchemaOf(def))
    modifies encoder, encoder.registry
    ensures encoder.Valid() && extracted == Extract(def.fields, raw).Values?
    ensures !extracted ==> encoder.State() == old(encoder.State()) && encoder.writer == old(encoder.writer)
    ensures extracted ==>
              var effect := Apply(old(encoder.State()), RawOp(def, ts, Extract(def.fields, raw).values));
              && encoder.State() == effect.state && encoder.writer == old(encoder.writer) + effect.bytes
              && r == effect.result
    ensures extracted ==> (r == Done <==> Accepts(old(encoder.State()), SchemaOf(def)))
  {
    hide Apply, CanRegister, Extract, Accepts;
    var extraction := ExtractFields(def, raw);
    extracted := extraction.Values?;
    r := Done;
    if extracted {
      r := encoder.WriteEvent(SchemaOf(def), [VarintValue(ts)] + ToFieldValues(extraction.values));
    }
  }
}
