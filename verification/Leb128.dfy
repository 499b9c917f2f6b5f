/** Unsigned LEB128 over u64 (dial9-trace-format/src/leb128.rs). */
module Leb128 {
  import opened Wire

  const MAX_LEN := 10

  function Pow128(n: nat): (p: nat)
    ensures p > 0
  {
    if n == 0 then 1 else 128 * Pow128(n - 1)
  }

  function EncodeUnsigned(v: nat): (b: Bytes)
    ensures |b| > 0
  {
    if v < 0x80 then [v] else [v % 0x80 + 0x80] + EncodeUnsigned(v / 0x80)
  }

  /** The base-128 number at the front of `d`, at most `budget` digits long, before it is cut
      to 64 bits. */
  function Digits(d: Bytes, budget: nat): (p: Parsed<nat>)
    ensures p.Parsed? ==> |p.rest| < |d| && |d| <= |p.rest| + budget
  {
    if d == [] || budget == 0 then NoParse
    else if d[0] < 0x80 then Parsed(d[0], d[1..])
    else
      var (high, rest) :- Digits(d[1..], budget - 1);
      Parsed(d[0] % 0x80 + 0x80 * high, rest)
  }

  /** The tenth digit has one significant bit: the shift by 63 drops the others. */
  function DecodeUnsigned(d: Bytes): (p: Parsed<u64>)
    ensures p.Parsed? ==> |p.rest| < |d|
  {
    var (v, rest) :- Digits(d, MAX_LEN);
    Parsed(v % TWO_64, rest)
  }

  lemma {:induction false} DigitsExtends(d: Bytes, budget: nat, t: Bytes)
    ensures Extends(Digits(d, budget), Digits(d + t, budget), t)
  {
    if d == [] {
      assert d + t == t;
    } else if budget > 0 {
      assert (d + t)[1..] == d[1..] + t;
      DigitsExtends(d[1..], budget - 1, t);
    }
  }

  lemma DecodeExtends(d: Bytes, t: Bytes)
    ensures Extends(DecodeUnsigned(d), DecodeUnsigned(d + t), t)
  {
    DigitsExtends(d, MAX_LEN, t);
  }

  lemma {:induction false} DigitsRoundTrip(v: nat, budget: nat, t: Bytes)
    requires v < Pow128(budget) && budget > 0
    ensures |EncodeUnsigned(v)| <= budget
    ensures Digits(EncodeUnsigned(v) + t, budget) == Parsed(v, t)
  {
    if v < 0x80 {
      assert (EncodeUnsigned(v) + t)[1..] == t;
    } else {
      assert v / 0x80 < Pow128(budget - 1);
      DigitsRoundTrip(v / 0x80, budget - 1, t);
      assert EncodeUnsigned(v) == [v % 0x80 + 0x80] + EncodeUnsigned(v / 0x80);
      assert (EncodeUnsigned(v) + t)[1..] == EncodeUnsigned(v / 0x80) + t;
    }
  }

  lemma Pow128Covers()
    ensures Pow128(9) == 0x8000_0000_0000_0000 && Pow128(10) == 64 * TWO_64
  {
    assert Pow128(3) == 0x20_0000;
    assert Pow128(6) == 0x400_0000_0000;
    assert Pow128(9) == 0x8000_0000_0000_0000;
  }

  /** Round trip with any bytes after the number, in at most ten bytes. */
  lemma RoundTrip(v: u64, t: Bytes)
    ensures |EncodeUnsigned(v)| <= MAX_LEN
    ensures DecodeUnsigned(EncodeUnsigned(v) + t) == Parsed(v, t)
  {
    hide Digits, EncodeUnsigned, Pow128;
    Pow128Covers();
    DigitsRoundTrip(v, MAX_LEN, t);
    ModUnique(v, TWO_64, 0, v);
  }

  lemma {:induction false} EncodeShortest(v: nat, w: nat)
    requires v <= w
    ensures |EncodeUnsigned(v)| <= |EncodeUnsigned(w)|
    decreases w
  {
    if 0x80 <= v {
      EncodeShortest(v / 0x80, w / 0x80);
    }
  }

  lemma {:induction false} DigitsNoShorter(d: Bytes, budget: nat)
    requires Digits(d, budget).Parsed?
    ensures |EncodeUnsigned(Digits(d, budget).value)| <= |d| - |Digits(d, budget).rest|
  {
    if d[0] >= 0x80 {
      DigitsNoShorter(d[1..], budget - 1);
      var high := Digits(d[1..], budget - 1).value;
      if high > 0 {
        assert (d[0] % 0x80 + 0x80 * high) / 0x80 == high;
      }
    }
  }

  /** `EncodeUnsigned` writes the shortest form: nothing that decodes to `v` is shorter. */
  lemma Shortest(d: Bytes)
    requires DecodeUnsigned(d).Parsed?
    ensures |EncodeUnsigned(DecodeUnsigned(d).value)| <= |d| - |DecodeUnsigned(d).rest|
  {
    DigitsNoShorter(d, MAX_LEN);
    var v := Digits(d, MAX_LEN).value;
    assert v % TWO_64 <= v;
    EncodeShortest(v % TWO_64, v);
  }

  /** `n` without its low `7 * i` bits. */
  function ShiftBits(n: nat, i: nat): nat {
    if i == 0 then n else ShiftBits(n / 0x80, i - 1)
  }

  /** The bytes of a number: seven bits each, the low ones first, and the top bit set on all but the
      last (section 7.6 of DWARF Version 5). */
  ghost predicate IsNumber(b: Bytes, n: nat) {
    && b != [] && b[|b| - 1] < 0x80 && ShiftBits(n, |b|) == 0
    && (forall i :: 0 <= i < |b| - 1 ==> b[i] >= 0x80)
    && forall i: nat :: i < |b| ==> ShiftBits(n, i) % 0x80 == b[i] % 0x80
  }

  lemma NumberCons(b: Bytes, n: nat, first: u8, low: nat)
    requires low == first % 0x80
    ensures IsNumber(b, n) && first >= 0x80 ==> IsNumber([first] + b, low + 0x80 * n)
  {
    if IsNumber(b, n) && first >= 0x80 {
      var b1, n1 := [first] + b, low + 0x80 * n;
      ModUnique(n1, 0x80, n, low);
      assert forall i :: 0 < i < |b1| ==> b1[i] == b[i - 1];
    }
  }

  lemma NumberRest(b: Bytes, n: nat)
    requires IsNumber(b, n) && |b| > 1
    ensures IsNumber(b[1..], n / 0x80) && n % 0x80 == b[0] % 0x80
  {
    assert ShiftBits(n, 0) == n;
    forall i: nat | i < |b| - 1
      ensures ShiftBits(n / 0x80, i) % 0x80 == b[1..][i] % 0x80
    {
      assert ShiftBits(n, i + 1) == ShiftBits(n / 0x80, i);
    }
  }

  /** What is written is the number. */
  lemma {:induction false} WritesNumber(v: nat)
    ensures IsNumber(EncodeUnsigned(v), v)
  {
    if v >= 0x80 {
      WritesNumber(v / 0x80);
      NumberCons(EncodeUnsigned(v / 0x80), v / 0x80, v % 0x80 + 0x80, v % 0x80);
    } else {
      assert ShiftBits(v, 1) == ShiftBits(v / 0x80, 0) == 0;
    }
  }

  lemma {:induction false} DigitsMean(d: Bytes, budget: nat) returns (b: Bytes)
    requires Digits(d, budget).Parsed?
    ensures |b| <= budget && d == b + Digits(d, budget).rest && IsNumber(b, Digits(d, budget).value)
  {
    if d[0] < 0x80 {
      b := [d[0]];
      assert ShiftBits(d[0], 1) == ShiftBits(d[0] / 0x80, 0) == 0;
    } else {
      hide IsNumber;
      var rest := DigitsMean(d[1..], budget - 1);
      NumberCons(rest, Digits(d[1..], budget - 1).value, d[0], d[0] % 0x80);
      b := [d[0]] + rest;
    }
  }

  lemma {:induction false} MeansDigits(b: Bytes, n: nat, t: Bytes, budget: nat)
    requires IsNumber(b, n) && |b| <= budget
    ensures Digits(b + t, budget) == Parsed(n, t)
  {
    assert (b + t)[0] == b[0];
    if |b| == 1 {
      assert ShiftBits(n, 1) == ShiftBits(n / 0x80, 0) == 0;
      assert (b + t)[1..] == t;
    } else {
      NumberRest(b, n);
      MeansDigits(b[1..], n / 0x80, t, budget - 1);
      assert (b + t)[1..] == b[1..] + t;
    }
  }

  /** A number is read exactly where the bytes of one of at most ten bytes stand in front, and it
      is cut to 64 bits. */
  lemma ReadsNumber(d: Bytes, v: u64, rest: Bytes)
    ensures DecodeUnsigned(d) == Parsed(v, rest) <==>
            exists b, n: nat :: IsNumber(b, n) && |b| <= 10 && v == n % TWO_64 && d == b + rest
  {
    hide Digits, IsNumber;
    if DecodeUnsigned(d) == Parsed(v, rest) {
      var b := DigitsMean(d, MAX_LEN);
      assert IsNumber(b, Digits(d, MAX_LEN).value);
    }
    if b, n: nat :| IsNumber(b, n) && |b| <= 10 && v == n % TWO_64 && d == b + rest {
      MeansDigits(b, n, rest, MAX_LEN);
    }
  }

  lemma OneDigit(v: nat)
    ensures |EncodeUnsigned(v)| == 1 <==> v < 0x80
    ensures v < 0x80 ==> EncodeUnsigned(v) == [v]
  {
  }

  // ----- the loops -----

  method Encode(v: u64) returns (b: Bytes)
    ensures b == EncodeUnsigned(v)
  {
    var value: nat := v;
    b := [];
    while value >= 0x80
      invariant b + EncodeUnsigned(value) == EncodeUnsigned(v)
    {
      assert b + EncodeUnsigned(value)
             == b + [value % 0x80 + 0x80] + EncodeUnsigned(value / 0x80);
      b := b + [value % 0x80 + 0x80];
      value := value / 0x80;
    }
    b := b + [value];
  }

  /** The loop's `result |= (byte & 0x7f) << shift`: the bits from `shift` up are still clear,
      so the union is a sum, and the shift keeps the low 64 bits only. */
  method Decode(data: Bytes) returns (p: Parsed<u64>)
    ensures p == DecodeUnsigned(data)
  {
    hide Shifted, Digits, Pow128;
    var result: nat, shift: nat, pos: nat := 0, 1, 0;
    ShiftedZero(Digits(data, MAX_LEN));
    assert data[0..] == data;
    while true
      invariant pos < MAX_LEN && pos <= |data|
      invariant shift == Pow128(pos) && result < shift
      invariant Digits(data, MAX_LEN) == Shifted(result, shift, Digits(data[pos..], MAX_LEN - pos))
      decreases MAX_LEN - pos
    {
      DigitTurn(result, shift, data[pos..], MAX_LEN - pos);
      if pos >= |data| {
        return NoParse;
      }
      var b := data[pos];
      assert data[pos..][0] == b && data[pos..][1..] == data[pos + 1..];
      var sum := ShiftIn(result, shift, b % 0x80, pos);
      pos := pos + 1;
      if b < 0x80 {
        return Parsed(sum, data[pos..]);
      }
      if pos >= MAX_LEN {
        return NoParse;
      }
      result, shift := sum, shift * 0x80;
    }
  }

  /** One digit of a number whose earlier digits are worth `result`. */
  lemma DigitTurn(result: nat, shift: nat, d: Bytes, budget: nat)
    requires budget > 0
    ensures d == [] ==> Shifted(result, shift, Digits(d, budget)) == NoParse
    ensures d != [] && d[0] < 0x80 ==>
              Shifted(result, shift, Digits(d, budget)) == Parsed(result + shift * (d[0] % 0x80), d[1..])
    ensures d != [] && d[0] >= 0x80 ==>
              Shifted(result, shift, Digits(d, budget))
              == Shifted(result + shift * (d[0] % 0x80), shift * 0x80, Digits(d[1..], budget - 1))
    ensures d != [] && d[0] >= 0x80 && budget == 1 ==> Shifted(result, shift, Digits(d, budget)) == NoParse
  {
    if d != [] && d[0] >= 0x80 && Digits(d[1..], budget - 1).Parsed? {
      ShiftedTwice(result, shift, d[0], Digits(d[1..], budget - 1));
    }
  }

  /** The value of a number whose first digits, worth `result` and `shift` in all, are read. */
  function Shifted(result: nat, shift: nat, p: Parsed<nat>): Parsed<nat> {
    match p
    case NoParse => NoParse
    case Parsed(v, rest) => Parsed(result + shift * v, rest)
  }

  lemma ShiftedZero(p: Parsed<nat>)
    ensures Shifted(0, 1, p) == p && Pow128(0) == 1
  {
  }

  lemma ShiftedTwice(result: nat, shift: nat, b: u8, p: Parsed<nat>)
    requires p.Parsed?
    ensures Shifted(result, shift, Parsed(b % 0x80 + 0x80 * p.value, p.rest))
            == Shifted(result + shift * (b % 0x80), shift * 0x80, p)
  {
    var v := p.value;
    assert shift * (b % 0x80 + 0x80 * v) == shift * (b % 0x80) + shift * (0x80 * v);
    assert shift * (0x80 * v) == (shift * 0x80) * v;
  }

  method ShiftIn(result: nat, shift: nat, digit: nat, pos: nat) returns (sum: u64)
    requires pos < MAX_LEN && shift == Pow128(pos) && result < shift && digit < 0x80
    ensures sum == (result + shift * digit) % TWO_64
    ensures pos + 1 < MAX_LEN ==> sum == result + shift * digit < shift * 0x80 == Pow128(pos + 1)
  {
    if pos < 9 {
      LowDigit(result, shift, digit, pos);
    } else {
      TopDigit(result, shift, digit);
    }
    sum := result + (digit * shift) % TWO_64;
  }

  lemma LowDigit(result: nat, shift: nat, digit: nat, pos: nat)
    requires pos < 9 && shift == Pow128(pos) && result < shift && digit < 0x80
    ensures result + shift * digit < shift * 0x80 == Pow128(pos + 1) <= TWO_64
    ensures (digit * shift) % TWO_64 == digit * shift
    ensures (result + shift * digit) % TWO_64 == result + shift * digit
  {
    Pow128Covers();
    PowMonotone(pos + 1, 9);
    hide Pow128;
    assert digit * shift <= 0x7f * shift;
    ModUnique(digit * shift, TWO_64, 0, digit * shift);
    ModUnique(result + shift * digit, TWO_64, 0, result + shift * digit);
  }

  lemma TopDigit(result: nat, shift: nat, digit: nat)
    requires shift == Pow128(9) && result < shift && digit < 0x80
    ensures result + (digit * shift) % TWO_64 == (result + shift * digit) % TWO_64
  {
    Pow128Covers();
    hide Pow128;
    var q, r := digit / 2, digit % 2;
    ModUnique(digit * shift, TWO_64, q, r * shift);
    ModUnique(result + shift * digit, TWO_64, q, result + r * shift);
  }

  lemma {:induction false} PowMonotone(m: nat, n: nat)
    requires m <= n
    ensures Pow128(m) <= Pow128(n)
  {
    if m < n {
      PowMonotone(m, n - 1);
    }
  }

  /** Read as one little-endian number, the bytes of a LEB128 number are worth more, unless
      there is only one. */
  lemma {:induction false} MoreAsFixed(n: nat)
    ensures FromLE(EncodeUnsigned(n)) >= n
    ensures n >= 0x80 ==> FromLE(EncodeUnsigned(n)) > n
  {
    if n >= 0x80 {
      MoreAsFixed(n / 0x80);
      assert EncodeUnsigned(n)[1..] == EncodeUnsigned(n / 0x80);
    } else {
      assert EncodeUnsigned(n)[1..] == [];
    }
  }
}
