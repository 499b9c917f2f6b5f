/** Field types and field values: how one value is written, read back by the owned decoder,
    and read back by the zero-copy decoder (dial9-trace-format/src/types.rs). */
module Types {
  import opened Wire
  import opened Wrappers
  import opened Utf8
  import Leb128

  datatype FieldType =
    I64 | F64 | Bool | String | Bytes | PooledString | StackFrames | Varint | StringMap | U8 | U16 | U32

  type Pair = (Wire.Bytes, Wire.Bytes)

  /** An owned value. An f64 is kept as its 64 bits. */
  datatype FieldValue =
    | I64Value(i: i64)
    | F64Value(bits: u64)
    | BoolValue(b: bool)
    | StringValue(s: Text)
    | BytesValue(bytes: Wire.Bytes)
    | PooledValue(id: u32)
    | FramesValue(addrs: seq<u64>)
    | VarintValue(n: u64)
    | MapValue(pairs: seq<Pair>)

  // ----- type tags -----

  function Tag(ft: FieldType): u8 {
    match ft
    case I64 => 1
    case F64 => 2
    case Bool => 3
    case String => 4
    case Bytes => 5
    case PooledString => 7
    case StackFrames => 8
    case Varint => 9
    case StringMap => 10
    case U8 => 11
    case U16 => 12
    case U32 => 13
  }

  function FromTag(tag: u8): Option<FieldType> {
    match tag
    case 1 => Some(I64)
    case 2 => Some(F64)
    case 3 => Some(Bool)
    case 4 => Some(String)
    case 5 => Some(Bytes)
    case 7 => Some(PooledString)
    case 8 => Some(StackFrames)
    case 9 => Some(Varint)
    case 10 => Some(StringMap)
    case 11 => Some(U8)
    case 12 => Some(U16)
    case 13 => Some(U32)
    case _ => None
  }

  lemma TagRoundTrip(ft: FieldType, tag: u8)
    ensures FromTag(tag) == Some(ft) <==> tag == Tag(ft)
  {
    match ft
    case I64 => case F64 => case Bool => case String => case Bytes => case PooledString =>
    case StackFrames => case Varint => case StringMap => case U8 => case U16 => case U32 =>
  }

  // ----- writing -----

  function I64Bits(i: i64): u64 {
    if i < 0 then i + TWO_64 else i
  }

  function BitsI64(bits: u64): i64 {
    if bits < 0x8000_0000_0000_0000 then bits else bits - TWO_64
  }

  function Counted(s: Wire.Bytes): Wire.Bytes {
    ToLE(|s|, 4) + s
  }

  function EncodeAddr(a: u64): Wire.Bytes {
    ToLE(a, 8)
  }

  function EncodePair(kv: Pair): Wire.Bytes {
    Counted(kv.0) + Counted(kv.1)
  }

  /** `FieldValue::encode`: the value decides the form, whatever the schema says. */
  function EncodeValue(v: FieldValue): Wire.Bytes {
    match v
    case I64Value(i) => ToLE(I64Bits(i), 8)
    case F64Value(bits) => ToLE(bits, 8)
    case BoolValue(b) => [if b then 1 else 0]
    case StringValue(s) => Counted(s)
    case BytesValue(s) => Counted(s)
    case PooledValue(id) => ToLE(id, 4)
    case VarintValue(n) => Leb128.EncodeUnsigned(n)
    case FramesValue(addrs) => ToLE(|addrs|, 4) + Flat(EncodeAddr, addrs)
    case MapValue(pairs) => ToLE(|pairs|, 4) + Flat(EncodePair, pairs)
  }

  /** What a typed event's field of type `ft` writes: `write_u8`, `write_u16` and `write_u32`
      are the only forms a `FieldValue` does not have. */
  function EncodeField(ft: FieldType, v: FieldValue): Wire.Bytes {
    if v.VarintValue? && ft == U8 then ToLE(v.n, 1)
    else if v.VarintValue? && ft == U16 then ToLE(v.n, 2)
    else if v.VarintValue? && ft == U32 then ToLE(v.n, 4)
    else EncodeValue(v)
  }

  /** The type under which a `FieldValue` writes itself. */
  function OwnType(v: FieldValue): FieldType {
    match v
    case I64Value(_) => I64
    case F64Value(_) => F64
    case BoolValue(_) => Bool
    case StringValue(_) => String
    case BytesValue(_) => Bytes
    case PooledValue(_) => PooledString
    case FramesValue(_) => StackFrames
    case VarintValue(_) => Varint
    case MapValue(_) => StringMap
  }

  /** A Rust field whose `TraceField::field_type` is `ft` can hold this value. */
  predicate Fits(ft: FieldType, v: FieldValue) {
    match ft
    case U8 => v.VarintValue? && v.n < 0x100
    case U16 => v.VarintValue? && v.n < TWO_16
    case U32 => v.VarintValue? && v.n < TWO_32
    case _ => OwnType(v) == ft
  }

  /** Every length fits the u32 it is cast to. */
  predicate Sized(v: FieldValue) {
    match v
    case StringValue(s) => |s| < TWO_32
    case BytesValue(s) => |s| < TWO_32
    case FramesValue(addrs) => |addrs| < TWO_32
    case MapValue(pairs) =>
      |pairs| < TWO_32 && forall kv :: kv in pairs ==> |kv.0| < TWO_32 && |kv.1| < TWO_32
    case _ => true
  }

  // ----- the owned decoder -----

  function TakeCounted(d: Wire.Bytes): (p: Parsed<Wire.Bytes>)
    ensures NoLonger(p, d)
  {
    var (len, rest) :- TakeU32(d);
    Take(len, rest)
  }

  function TakePair(d: Wire.Bytes): (p: Parsed<Pair>)
    ensures NoLonger(p, d)
  {
    var (k, d1) :- TakeCounted(d);
    var (v, d2) :- TakeCounted(d1);
    Parsed((k, v), d2)
  }

  lemma TakePairExtends(d: Wire.Bytes, t: Wire.Bytes)
    ensures Extends(TakePair(d), TakePair(d + t), t)
  {
    hide TakeCounted;
    TakeCountedExtends(d, t);
    if TakeCounted(d).Parsed? {
      TakeCountedExtends(TakeCounted(d).rest, t);
    }
  }

  lemma TakeCountedExtends(d: Wire.Bytes, t: Wire.Bytes)
    ensures Extends(TakeCounted(d), TakeCounted(d + t), t)
  {
    hide TakeU32, Take;
    TakeIntExtends(d, t);
    if TakeU32(d).Parsed? {
      TakeExtends(TakeU32(d).value, TakeU32(d).rest, t);
    }
  }

  lemma ElementsDelimited()
    ensures Delimited(TakeU64) && Delimited(TakePair)
  {
    hide TakeU64, TakePair;
    forall d, t
      ensures Extends(TakeU64(d), TakeU64(d + t), t) && Extends(TakePair(d), TakePair(d + t), t)
    {
      TakeIntExtends(d, t);
      TakePairExtends(d, t);
    }
  }

  lemma ListNoLonger(n: nat, d: Wire.Bytes)
    ensures NoLonger(Many(TakeU64, n, d), d) && NoLonger(Many(TakePair, n, d), d)
  {
    hide TakeU64, TakePair, Many;
    ElementsDelimited();
    ManyExtends(TakeU64, n, d, []);
    ManyExtends(TakePair, n, d, []);
  }

  function TakeAddrs(d: Wire.Bytes): (p: Parsed<seq<u64>>)
    ensures NoLonger(p, d)
  {
    var (count, rest) :- TakeU32(d);
    ListNoLonger(count, rest);
    Many(TakeU64, count, rest)
  }

  function TakePairs(d: Wire.Bytes): (p: Parsed<seq<Pair>>)
    ensures NoLonger(p, d)
  {
    var (count, rest) :- TakeU32(d);
    ListNoLonger(count, rest);
    Many(TakePair, count, rest)
  }

  function TextOf(bytes: Wire.Bytes): Text {
    if ValidUtf8(bytes) then bytes else Lossy(bytes)
  }

  /** `FieldValue::decode`. */
  function DecodeValue(ft: FieldType, d: Wire.Bytes): (p: Parsed<FieldValue>)
    ensures NoLonger(p, d)
  {
    match ft
    case I64 => var (v, rest) :- TakeU64(d); Parsed(I64Value(BitsI64(v)), rest)
    case F64 => var (v, rest) :- TakeU64(d); Parsed(F64Value(v), rest)
    case Bool => var (v, rest) :- TakeU8(d); Parsed(BoolValue(v != 0), rest)
    case String => var (s, rest) :- TakeCounted(d); Parsed(StringValue(TextOf(s)), rest)
    case Bytes => var (s, rest) :- TakeCounted(d); Parsed(BytesValue(s), rest)
    case PooledString => var (id, rest) :- TakeU32(d); Parsed(PooledValue(id), rest)
    case Varint => var (v, rest) :- Leb128.DecodeUnsigned(d); Parsed(VarintValue(v), rest)
    case U8 => var (v, rest) :- TakeU8(d); Parsed(VarintValue(v), rest)
    case U16 => var (v, rest) :- TakeU16(d); Parsed(VarintValue(v), rest)
    case U32 => var (v, rest) :- TakeU32(d); Parsed(VarintValue(v), rest)
    case StackFrames => var (addrs, rest) :- TakeAddrs(d); Parsed(FramesValue(addrs), rest)
    case StringMap => var (pairs, rest) :- TakePairs(d); Parsed(MapValue(pairs), rest)
  }

  lemma ListsExtend(d: Wire.Bytes, t: Wire.Bytes)
    ensures Extends(TakeAddrs(d), TakeAddrs(d + t), t)
    ensures Extends(TakePairs(d), TakePairs(d + t), t)
  {
    hide TakeU32, Many;
    TakeIntExtends(d, t);
    ElementsDelimited();
    if TakeU32(d).Parsed? {
      ManyExtends(TakeU64, TakeU32(d).value, TakeU32(d).rest, t);
      ManyExtends(TakePair, TakeU32(d).value, TakeU32(d).rest, t);
    } else if TakeU32(d + t).Parsed? {
      ListNoLonger(TakeU32(d + t).value, TakeU32(d + t).rest);
    }
  }

  /** A field value ends where it ends, whatever follows it. */
  lemma DecodeValueExtends(ft: FieldType, d: Wire.Bytes, t: Wire.Bytes)
    ensures Extends(DecodeValue(ft, d), DecodeValue(ft, d + t), t)
  {
    hide TakeU8, TakeU16, TakeU32, TakeU64, TakeCounted, TakeAddrs, TakePairs, Leb128.DecodeUnsigned, TextOf;
    match ft
    case StackFrames => ListsExtend(d, t);
    case StringMap => ListsExtend(d, t);
    case Varint => Leb128.DecodeExtends(d, t);
    case String => TakeCountedExtends(d, t);
    case Bytes => TakeCountedExtends(d, t);
    case _ => TakeIntExtends(d, t);
  }

  // ----- round trip -----

  lemma CountedRoundTrip(s: Wire.Bytes, t: Wire.Bytes)
    requires |s| < TWO_32
    ensures TakeCounted(Counted(s) + t) == Parsed(s, t)
  {
    assert Counted(s) + t == ToLE(|s|, 4) + (s + t);
    TakeEncodedInts(|s|, s + t);
    TakeWhole(s, t);
  }

  lemma CountRoundTrip(count: nat, body: Wire.Bytes, t: Wire.Bytes)
    requires count < TWO_32
    ensures TakeU32(ToLE(count, 4) + body + t) == Parsed(count, body + t)
  {
    assert ToLE(count, 4) + body + t == ToLE(count, 4) + (body + t);
    TakeEncodedInts(count, body + t);
  }

  lemma PairRoundTrip(kv: Pair, t: Wire.Bytes)
    requires |kv.0| < TWO_32 && |kv.1| < TWO_32
    ensures TakePair(EncodePair(kv) + t) == Parsed(kv, t)
  {
    assert EncodePair(kv) + t == Counted(kv.0) + (Counted(kv.1) + t);
    CountedRoundTrip(kv.0, Counted(kv.1) + t);
    CountedRoundTrip(kv.1, t);
  }

  lemma AddrsRoundTrip(addrs: seq<u64>, t: Wire.Bytes)
    requires |addrs| < TWO_32
    ensures TakeAddrs(ToLE(|addrs|, 4) + Flat(EncodeAddr, addrs) + t) == Parsed(addrs, t)
  {
    CountRoundTrip(|addrs|, Flat(EncodeAddr, addrs), t);
    forall a: u64, r: Wire.Bytes
      ensures TakeU64(EncodeAddr(a) + r) == Parsed(a, r)
    {
      TakeEncodedInts(a, r);
    }
    ManyRoundTrip(TakeU64, EncodeAddr, addrs, t);
  }

  lemma PairsRoundTrip(pairs: seq<Pair>, t: Wire.Bytes)
    requires Sized(MapValue(pairs))
    ensures TakePairs(ToLE(|pairs|, 4) + Flat(EncodePair, pairs) + t) == Parsed(pairs, t)
  {
    CountRoundTrip(|pairs|, Flat(EncodePair, pairs), t);
    forall kv, r: Wire.Bytes | kv in pairs
      ensures TakePair(EncodePair(kv) + r) == Parsed(kv, r)
    {
      PairRoundTrip(kv, r);
    }
    ManyRoundTrip(TakePair, EncodePair, pairs, t);
  }

  lemma TakeSmall(v: u8, t: Wire.Bytes)
    ensures ToLE(v, 1) == [v] && TakeU8([v] + t) == Parsed(v, t)
  {
    assert ToLE(v, 1) == [v % 256] + ToLE(v / 256, 0);
    assert ([v] + t)[1..] == t;
  }

  /** A typed field reads back as written, with anything after it. */
  lemma FieldRoundTrip(ft: FieldType, v: FieldValue, t: Wire.Bytes)
    requires Fits(ft, v) && Sized(v)
    ensures DecodeValue(ft, EncodeField(ft, v) + t) == Parsed(v, t)
  {
    hide TakeU8, TakeU16, TakeU32, TakeU64, TakeCounted, TakeAddrs, TakePairs, Leb128.DecodeUnsigned,
         Leb128.EncodeUnsigned, Flat, Counted, ToLE, Lossy, ValidUtf8;
    match v
    case I64Value(i) => TakeEncodedInts(I64Bits(i), t);
    case F64Value(bits) => TakeEncodedInts(bits, t);
    case BoolValue(b) => TakeSmall(if b then 1 else 0, t);
    case StringValue(s) => CountedRoundTrip(s, t);
    case BytesValue(s) => CountedRoundTrip(s, t);
    case PooledValue(id) => TakeEncodedInts(id, t);
    case FramesValue(addrs) => AddrsRoundTrip(addrs, t);
    case MapValue(pairs) => PairsRoundTrip(pairs, t);
    case VarintValue(n) =>
      TakeEncodedInts(n, t);
      Leb128.RoundTrip(n, t);
      if n < 0x100 { TakeSmall(n, t); }
  }

  /** `write_event` only counts values. A value written through it reads back under the
      schema's type exactly when the type is the value's own, or the value is a number below
      128 in a U8 field, where the two forms are the same byte. */
  predicate FitsUntyped(ft: FieldType, v: FieldValue) {
    OwnType(v) == ft || (ft == U8 && v.VarintValue? && v.n < 0x80)
  }

  lemma UntypedRoundTrip(ft: FieldType, v: FieldValue)
    requires Sized(v)
    ensures FitsUntyped(ft, v) <==>
            forall t: Wire.Bytes :: DecodeValue(ft, EncodeValue(v) + t) == Parsed(v, t)
  {
    if FitsUntyped(ft, v) {
      forall t: Wire.Bytes
        ensures DecodeValue(ft, EncodeValue(v) + t) == Parsed(v, t)
      {
        UntypedRoundTripAt(ft, v, t);
      }
    } else {
      assert DecodeValue(ft, EncodeValue(v) + []) != Parsed(v, []) by {
        UntypedMisread(ft, v);
      }
    }
  }

  lemma UntypedRoundTripAt(ft: FieldType, v: FieldValue, t: Wire.Bytes)
    requires Sized(v) && FitsUntyped(ft, v)
    ensures DecodeValue(ft, EncodeValue(v) + t) == Parsed(v, t)
  {
    if OwnType(v) == ft {
      assert EncodeField(ft, v) == EncodeValue(v);
      FieldRoundTrip(ft, v, t);
    } else {
      TakeSmall(v.n, t);
    }
  }

  /** The schema's type fixes the kind of the decoded value. */
  lemma DecodedKind(ft: FieldType, d: Wire.Bytes)
    requires DecodeValue(ft, d).Parsed?
    ensures OwnType(DecodeValue(ft, d).value) == if ft in {U8, U16, U32} then Varint else ft
  {
    hide TakeU8, TakeU16, TakeU32, TakeU64, TakeCounted, TakeAddrs, TakePairs, Leb128.DecodeUnsigned, TextOf;
  }

  lemma UntypedMisread(ft: FieldType, v: FieldValue)
    requires !FitsUntyped(ft, v)
    ensures DecodeValue(ft, EncodeValue(v) + []) != Parsed(v, [])
  {
    var d := EncodeValue(v);
    assert d + [] == d;
    if ft in {U8, U16, U32} && v.VarintValue? {
      NumberMisread(ft, v.n);
    } else if DecodeValue(ft, d).Parsed? {
      hide DecodeValue, EncodeValue;
      DecodedKind(ft, d);
    }
  }

  lemma NumberMisread(ft: FieldType, n: u64)
    requires ft in {U8, U16, U32} && !FitsUntyped(ft, VarintValue(n))
    ensures DecodeValue(ft, Leb128.EncodeUnsigned(n)) != Parsed(VarintValue(n), [])
  {
    var d := Leb128.EncodeUnsigned(n);
    assert d[..|d|] == d;
    hide Leb128.EncodeUnsigned;
    Leb128.MoreAsFixed(n);
    Leb128.OneDigit(n);
  }

  // ----- the loops -----

  method DecodeStackFrames(data: Wire.Bytes) returns (r: Parsed<seq<u64>>)
    ensures r == TakeAddrs(data)
  {
    hide TakeU32, TakeU64, TakePair, Many, Prepend;
    var count := GetU32(data, 0);
    assert data[0..] == data;
    if count.None? {
      return NoParse;
    }
    var pos, addrs := 4, [];
    PrependNothing(Many(TakeU64, count.value, data[4..]));
    for i := 0 to count.value
      invariant 4 <= pos <= |data|
      invariant Many(TakeU64, count.value, data[4..])
                == Prepend(addrs, Many(TakeU64, count.value - i, data[pos..]))
    {
      ManyTurn(TakeU64, count.value - i, addrs, data[pos..]);
      var addr := GetU64(data, pos);
      if addr.None? {
        return NoParse;
      }
      addrs, pos := addrs + [addr.value], pos + 8;
    }
    PrependLast(TakeU64, addrs, data[pos..]);
    return Parsed(addrs, data[pos..]);
  }

  method ReadPair(data: Wire.Bytes, start: nat) returns (r: Option<(Pair, nat)>)
    requires start <= |data|
    ensures r.None? ==> TakePair(data[start..]).NoParse?
    ensures r.Some? ==> start <= r.value.1 <= |data|
                        && TakePair(data[start..]) == Parsed(r.value.0, data[r.value.1..])
  {
    hide TakeU32, Take;
    var klen := GetU32(data, start);
    if klen.None? { return None; }
    var pos := start + 4;
    var k := GetBytes(data, pos, klen.value);
    if k.None? { return None; }
    pos := pos + klen.value;
    var vlen := GetU32(data, pos);
    if vlen.None? { return None; }
    pos := pos + 4;
    var v := GetBytes(data, pos, vlen.value);
    if v.None? { return None; }
    pos := pos + vlen.value;
    return Some(((k.value, v.value), pos));
  }

  method DecodeStringMap(data: Wire.Bytes) returns (r: Parsed<seq<Pair>>)
    ensures r == TakePairs(data)
  {
    hide TakeU32, TakeU64, TakePair, Many, Prepend;
    var count := GetU32(data, 0);
    assert data[0..] == data;
    if count.None? {
      return NoParse;
    }
    var pos, pairs := 4, [];
    PrependNothing(Many(TakePair, count.value, data[4..]));
    for i := 0 to count.value
      invariant 4 <= pos <= |data|
      invariant Many(TakePair, count.value, data[4..])
                == Prepend(pairs, Many(TakePair, count.value - i, data[pos..]))
    {
      ManyTurn(TakePair, count.value - i, pairs, data[pos..]);
      var kv := ReadPair(data, pos);
      if kv.None? {
        return NoParse;
      }
      pairs, pos := pairs + [kv.value.0], kv.value.1;
    }
    PrependLast(TakePair, pairs, data[pos..]);
    return Parsed(pairs, data[pos..]);
  }

  /** `FieldValue::decode` as it runs: the three cases with a loop run theirs. */
  method Decode(ft: FieldType, data: Wire.Bytes) returns (r: Parsed<FieldValue>)
    ensures r == DecodeValue(ft, data)
  {
    match ft
    case Varint =>
      var n := Leb128.Decode(data);
      return if n.Parsed? then Parsed(VarintValue(n.value), n.rest) else NoParse;
    case StackFrames =>
      var addrs := DecodeStackFrames(data);
      return if addrs.Parsed? then Parsed(FramesValue(addrs.value), addrs.rest) else NoParse;
    case StringMap =>
      var pairs := DecodeStringMap(data);
      return if pairs.Parsed? then Parsed(MapValue(pairs.value), pairs.rest) else NoParse;
    case _ =>
      return DecodeValue(ft, data);
  }
}
