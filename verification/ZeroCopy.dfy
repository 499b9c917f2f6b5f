/** The zero-copy field decoder: values that borrow from the input, the scan that finds where
    they end, and the iterators that read them later (dial9-trace-format/src/types.rs). */
module ZeroCopy {
  import opened Wire
  import opened Wrappers
  import opened Utf8
  import opened Types
  import Leb128

  datatype FieldValueRef =
    | I64Ref(i: i64)
    | F64Ref(bits: u64)
    | BoolRef(b: bool)
    | StringRef(s: Text)
    | BytesRef(bytes: Wire.Bytes)
    | PooledRef(id: u32)
    | FramesRef(data: Wire.Bytes, count: u32)
    | VarintRef(n: u64)
    | MapRef(data: Wire.Bytes, count: u32)

  /** A slice past the end of the input makes the Rust code panic. */
  datatype Borrowed<+T> = Missing | Panicked | Borrowed(value: T, rest: Wire.Bytes)

  // ----- the scan over a string map -----

  datatype Scan = Short | Overrun | At(rest: Wire.Bytes)

  /** Skips `n` pairs. The end of a value is only noticed when something is read after it, so
      a last value that runs past the input is an overrun. */
  function SkipPairs(n: nat, d: Wire.Bytes): Scan {
    if n == 0 then At(d) else
      var key := TakeCounted(d);
      if key.NoParse? then Short else
      var len := TakeU32(key.rest);
      if len.NoParse? then Short
      else if len.value <= |len.rest| then SkipPairs(n - 1, len.rest[len.value..])
      else if n == 1 then Overrun
      else Short
  }

  /** The last value of the string map at the front of `d` claims more bytes than are left. */
  predicate LastValueOverruns(d: Wire.Bytes) {
    var count := TakeU32(d);
    count.Parsed? && count.value > 0 &&
    var before := Many(TakePair, count.value - 1, count.rest);
    before.Parsed? &&
    var key := TakeCounted(before.rest);
    key.Parsed? &&
    var len := TakeU32(key.rest);
    len.Parsed? && len.value > |len.rest|
  }

  /** `FieldValueRef::decode`. */
  function DecodeRef(ft: FieldType, d: Wire.Bytes): Borrowed<FieldValueRef> {
    match ft
    case String =>
      var s := TakeCounted(d);
      if s.Parsed? && ValidUtf8(s.value) then Borrowed(StringRef(s.value), s.rest) else Missing
    case StackFrames =>
      var count := TakeU32(d);
      if count.NoParse? then Missing else
      var data := Take(count.value * 8, count.rest);
      if data.NoParse? then Missing else Borrowed(FramesRef(data.value, count.value), data.rest)
    case StringMap =>
      var count := TakeU32(d);
      if count.NoParse? then Missing else
      (match SkipPairs(count.value, count.rest)
       case Short => Missing
       case Overrun => Panicked
       case At(rest) =>
         if |rest| <= |count.rest| then
           Borrowed(MapRef(count.rest[..|count.rest| - |rest|], count.value), rest)
         else Missing)
    case _ => AsRef(DecodeValue(ft, d))
  }

  /** The kinds whose borrowed and owned forms hold the same data. */
  function AsRef(p: Parsed<FieldValue>): Borrowed<FieldValueRef> {
    match p
    case NoParse => Missing
    case Parsed(v, rest) =>
      match v
      case I64Value(i) => Borrowed(I64Ref(i), rest)
      case F64Value(bits) => Borrowed(F64Ref(bits), rest)
      case BoolValue(b) => Borrowed(BoolRef(b), rest)
      case BytesValue(s) => Borrowed(BytesRef(s), rest)
      case PooledValue(id) => Borrowed(PooledRef(id), rest)
      case VarintValue(n) => Borrowed(VarintRef(n), rest)
      case _ => Missing
  }

  // ----- reading borrowed values -----

  /** What `StackFrameIter` yields. */
  function IterAddrs(data: Wire.Bytes, remaining: nat): seq<u64> {
    if remaining == 0 then [] else
      var a := TakeU64(data);
      if a.NoParse? then [] else [a.value] + IterAddrs(a.rest, remaining - 1)
  }

  /** What `StringMapIter` yields: it stops at the first key or value that is not UTF-8. */
  function IterPairs(data: Wire.Bytes, remaining: nat): seq<Pair> {
    if remaining == 0 then [] else
      var kv := TakePair(data);
      if kv.NoParse? || !IsText(kv.value) then [] else [kv.value] + IterPairs(kv.rest, remaining - 1)
  }

  predicate IsText(kv: Pair) {
    ValidUtf8(kv.0) && ValidUtf8(kv.1)
  }

  function TextPairs(pairs: seq<Pair>): seq<Pair> {
    if pairs == [] || !IsText(pairs[0]) then [] else [pairs[0]] + TextPairs(pairs[1..])
  }

  function Contents(r: FieldValueRef): FieldValue {
    match r
    case I64Ref(i) => I64Value(i)
    case F64Ref(bits) => F64Value(bits)
    case BoolRef(b) => BoolValue(b)
    case StringRef(s) => StringValue(s)
    case BytesRef(s) => BytesValue(s)
    case PooledRef(id) => PooledValue(id)
    case VarintRef(n) => VarintValue(n)
    case FramesRef(data, count) => FramesValue(IterAddrs(data, count))
    case MapRef(data, count) => MapValue(IterPairs(data, count))
  }

  /** The owned value with the pairs the borrowed form cannot show left off. */
  function Readable(v: FieldValue): FieldValue {
    if v.MapValue? then MapValue(TextPairs(v.pairs)) else v
  }

  lemma {:induction false} AllTextReadable(pairs: seq<Pair>)
    ensures TextPairs(pairs) == pairs <==> forall kv :: kv in pairs ==> IsText(kv)
  {
    if pairs != [] {
      AllTextReadable(pairs[1..]);
      assert pairs == [pairs[0]] + pairs[1..];
      assert TextPairs(pairs) == pairs ==> TextPairs(pairs[1..]) == pairs[1..] by {
        if TextPairs(pairs) == pairs {
          assert pairs[1..] == ([pairs[0]] + TextPairs(pairs[1..]))[1..];
        }
      }
    }
  }

  // ----- agreement -----

  lemma {:induction false} AddrsAgree(n: nat, d: Wire.Bytes)
    ensures Many(TakeU64, n, d).Parsed? <==> n * 8 <= |d|
    ensures n * 8 <= |d| ==>
              && Many(TakeU64, n, d).rest == d[n * 8..]
              && IterAddrs(d[..n * 8], n) == Many(TakeU64, n, d).value
  {
    if n > 0 && 8 <= |d| {
      AddrsAgree(n - 1, d[8..]);
      if n * 8 <= |d| {
        assert d[8..][(n - 1) * 8..] == d[n * 8..];
        assert d[..n * 8][8..] == d[8..][..(n - 1) * 8];
        assert d[..n * 8][..8] == d[..8];
      }
    }
  }

  /** The scan finds the end of the pairs exactly when they can be read, and overruns exactly
      when only the last value is cut off. */
  lemma {:induction false} SkipAgrees(n: nat, d: Wire.Bytes)
    ensures Many(TakePair, n, d).Parsed? <==> SkipPairs(n, d).At?
    ensures SkipPairs(n, d).At? ==>
              SkipPairs(n, d).rest == Many(TakePair, n, d).rest && |SkipPairs(n, d).rest| <= |d|
    ensures SkipPairs(n, d).Overrun? <==>
            && n > 0 && Many(TakePair, n - 1, d).Parsed?
            && var key := TakeCounted(Many(TakePair, n - 1, d).rest);
            && key.Parsed? && TakeU32(key.rest).Parsed?
            && TakeU32(key.rest).value > |TakeU32(key.rest).rest|
  {
    if n > 0 {
      var kv := TakePair(d);
      if kv.Parsed? {
        SkipAgrees(n - 1, kv.rest);
      }
    }
  }

  lemma {:induction false} PairsIterate(n: nat, d: Wire.Bytes, t: Wire.Bytes)
    requires Many(TakePair, n, d + t).Parsed? && Many(TakePair, n, d + t).rest == t
    ensures IterPairs(d, n) == TextPairs(Many(TakePair, n, d + t).value)
  {
    hide TakePair;
    if n > 0 {
      ManyStep(TakePair, n, d + t);
      TakePairExtends(d, t);
      ListNoLonger(n - 1, TakePair(d + t).rest);
      PairsIterate(n - 1, TakePair(d).rest, t);
    }
  }

  /** Owned and borrowed decoding agree on every input: they end at the same byte and show the
      same contents, except that borrowing refuses a string that is not UTF-8, and a string
      map whose last value is cut off makes it panic instead of failing. */
  lemma ZeroCopyAgrees(ft: FieldType, d: Wire.Bytes)
    ensures DecodeRef(ft, d).Panicked? <==> ft == StringMap && LastValueOverruns(d)
    ensures DecodeValue(ft, d).NoParse? ==> !DecodeRef(ft, d).Borrowed?
    ensures DecodeValue(ft, d).Parsed? ==>
              if ft == String && !ValidUtf8(TakeCounted(d).value) then DecodeRef(ft, d).Missing?
              else
                && DecodeRef(ft, d).Borrowed?
                && DecodeRef(ft, d).rest == DecodeValue(ft, d).rest
                && Contents(DecodeRef(ft, d).value) == Readable(DecodeValue(ft, d).value)
  {
    hide TakeU32, Many, SkipPairs, IterAddrs, IterPairs, ValidUtf8, Lossy;
    match ft
    case StackFrames =>
      if TakeU32(d).Parsed? {
        AddrsAgree(TakeU32(d).value, TakeU32(d).rest);
      }
    case StringMap =>
      if TakeU32(d).Parsed? {
        var n, body := TakeU32(d).value, TakeU32(d).rest;
        SkipAgrees(n, body);
        if SkipPairs(n, body).At? {
          MapContents(n, body);
        }
      }
    case _ =>
  }

  /** One pair with an empty key, whose value claims a byte that is not there. */
  lemma OverrunPanics()
    ensures var d := [1, 0, 0, 0, 0, 0, 0, 0, 1, 0, 0, 0];
            LastValueOverruns(d) && DecodeRef(StringMap, d).Panicked? && DecodeValue(StringMap, d).NoParse?
  {
    hide FromLE, DecodeValue, DecodeRef;
    var d: Wire.Bytes := [1, 0, 0, 0, 0, 0, 0, 0, 1, 0, 0, 0];
    SmallLE4(d);
    assert TakeU32(d) == Parsed(1, d[4..]);
    SmallLE4(d[4..]);
    assert TakeU32(d[4..]) == Parsed(0, d[4..][4..]);
    assert TakeCounted(d[4..]) == Parsed([], d[4..][4..]);
    SmallLE4(d[4..][4..]);
    ZeroCopyAgrees(StringMap, d);
  }

  lemma MapContents(n: nat, body: Wire.Bytes)
    requires SkipPairs(n, body).At?
    ensures Many(TakePair, n, body).Parsed?
    ensures var rest := SkipPairs(n, body).rest;
            && |rest| <= |body|
            && IterPairs(body[..|body| - |rest|], n) == TextPairs(Many(TakePair, n, body).value)
  {
    hide SkipPairs, Many, IterPairs;
    SkipAgrees(n, body);
    var rest := SkipPairs(n, body).rest;
    SkipIsSuffix(n, body);
    assert body == body[..|body| - |rest|] + rest;
    PairsIterate(n, body[..|body| - |rest|], rest);
  }

  lemma CountedSuffix(d: Wire.Bytes)
    ensures TakeCounted(d).Parsed? ==> SuffixOf(TakeCounted(d).rest, d)
  {
    if TakeCounted(d).Parsed? {
      SuffixTransitive(TakeCounted(d).rest, TakeU32(d).rest, d);
    }
  }

  lemma {:induction false} SkipIsSuffix(n: nat, d: Wire.Bytes)
    requires SkipPairs(n, d).At?
    ensures SuffixOf(SkipPairs(n, d).rest, d)
  {
    hide TakeU32, TakeCounted;
    if n > 0 {
      var key := TakeCounted(d);
      CountedSuffix(d);
      var len := TakeU32(key.rest);
      LengthSuffix(key.rest);
      var next := len.rest[len.value..];
      SkipIsSuffix(n - 1, next);
      SuffixTransitive(next, len.rest, key.rest);
      SuffixTransitive(SkipPairs(n, d).rest, next, key.rest);
      SuffixTransitive(SkipPairs(n, d).rest, key.rest, d);
    }
  }

  lemma LengthSuffix(d: Wire.Bytes)
    ensures TakeU32(d).Parsed? ==> SuffixOf(TakeU32(d).rest, d)
  {
  }

  // ----- the loops -----

  method ScanStringMap(d: Wire.Bytes, count: nat) returns (r: Scan)
    ensures r == SkipPairs(count, d)
  {
    hide TakeU32;
    var pos := 0;
    assert d[0..] == d;
    for i := 0 to count
      invariant 0 <= pos
      invariant pos <= |d| ==> SkipPairs(count, d) == SkipPairs(count - i, d[pos..])
      invariant pos > |d| ==> i > 0 && SkipPairs(count, d) == if i == count then Overrun else Short
    {
      if pos > |d| { return Short; }
      var klen := GetU32(d, pos);
      if klen.None? { return Short; }
      var afterKey := pos + 4 + klen.value;
      var key := GetBytes(d, pos + 4, klen.value);
      if afterKey > |d| { return Short; }
      var vlen := GetU32(d, afterKey);
      if vlen.None? { return Short; }
      var value := GetBytes(d, afterKey + 4, vlen.value);
      pos := afterKey + 4 + vlen.value;
    }
    return if pos <= |d| then At(d[pos..]) else Overrun;
  }

  /** `FieldValueRef::decode` as it runs. */
  method Borrow(ft: FieldType, d: Wire.Bytes) returns (b: Borrowed<FieldValueRef>)
    ensures b == DecodeRef(ft, d)
  {
    hide SkipPairs, TakeU32;
    match ft
    case Varint =>
      var n := Leb128.Decode(d);
      return if n.Parsed? then Borrowed(VarintRef(n.value), n.rest) else Missing;
    case StringMap =>
      var count := TakeU32(d);
      if count.NoParse? {
        return Missing;
      }
      var scan := ScanStringMap(count.rest, count.value);
      match scan {
        case Short => return Missing;
        case Overrun => return Panicked;
        case At(rest) =>
          SkipIsSuffix(count.value, count.rest);
          return Borrowed(MapRef(count.rest[..|count.rest| - |rest|], count.value), rest);
      }
    case _ =>
      return DecodeRef(ft, d);
  }

  class StackFrameIter {
    const data: Wire.Bytes
    var pos: nat
    var remaining: nat

    ghost predicate Valid() reads this { pos <= |data| }

    ghost function Left(): seq<u64>
      requires Valid()
      reads this
    {
      IterAddrs(data[pos..], remaining)
    }

    constructor (data: Wire.Bytes, count: u32)
      ensures Valid() && Left() == IterAddrs(data, count)
    {
      this.data := data;
      pos, remaining := 0, count;
      new;
      assert data[0..] == data;
    }

    method Next() returns (r: Option<u64>)
      requires Valid()
      modifies this
      ensures Valid()
      ensures old(Left()) == [] ==> r == None && Left() == []
      ensures old(Left()) != [] ==> r == Some(old(Left())[0]) && Left() == old(Left())[1..]
    {
      if remaining == 0 {
        return None;
      }
      var a := GetU64(data, pos);
      if a.None? { return None; }
      pos, remaining := pos + 8, remaining - 1;
      return Some(a.value);
    }
  }

  lemma IterTurn(d: Wire.Bytes, remaining: nat)
    ensures remaining == 0 || TakePair(d).NoParse? || !IsText(TakePair(d).value) ==> IterPairs(d, remaining) == []
    ensures remaining > 0 && TakePair(d).Parsed? && IsText(TakePair(d).value) ==>
              IterPairs(d, remaining) == [TakePair(d).value] + IterPairs(TakePair(d).rest, remaining - 1)
  {
    hide TakePair, IsText;
  }

  class StringMapIter {
    const data: Wire.Bytes
    var pos: nat
    var remaining: nat

    ghost predicate Valid() reads this { pos <= |data| }

    ghost function Left(): seq<Pair>
      requires Valid()
      reads this
    {
      IterPairs(data[pos..], remaining)
    }

    constructor (data: Wire.Bytes, count: u32)
      ensures Valid() && Left() == IterPairs(data, count)
    {
      this.data := data;
      pos, remaining := 0, count;
      new;
      assert data[0..] == data;
    }

    /** After `None` the position may sit inside a pair that could not be read. */
    method Next() returns (r: Option<Pair>)
      requires Valid()
      modifies this
      ensures Valid()
      ensures old(Left()) == [] ==> r == None
      ensures old(Left()) != [] ==> r == Some(old(Left())[0]) && Left() == old(Left())[1..]
    {
      hide TakeU32, Take, ValidUtf8, IterPairs;
      ghost var before := data[pos..];
      IterTurn(before, remaining);
      if remaining == 0 {
        return None;
      }
      var klen := GetU32(data, pos);
      if klen.None? { return None; }
      pos := pos + 4;
      var k := GetBytes(data, pos, klen.value);
      if k.None? || !ValidUtf8(k.value) { return None; }
      pos := pos + klen.value;
      var vlen := GetU32(data, pos);
      if vlen.None? { return None; }
      pos := pos + 4;
      var v := GetBytes(data, pos, vlen.value);
      if v.None? || !ValidUtf8(v.value) { return None; }
      pos, remaining := pos + vlen.value, remaining - 1;
      assert TakePair(before) == Parsed((k.value, v.value), data[pos..]);
      return Some((k.value, v.value));
    }
  }
}
