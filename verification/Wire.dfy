/** Bytes, fixed-width little-endian integers, and the parsers built from them.

    A parser looks at a byte string and either fails or returns a value and the bytes it did
    not use. Frames carry no length prefix, so everything the decoder promises rests on one
    property of each parser, `Extends`: it succeeds on a string exactly when it succeeds on
    every longer one without reaching into the extra bytes. */
module Wire {
  import opened Wrappers

  type u8 = x: int | 0 <= x < 0x100
  type u16 = x: int | 0 <= x < 0x1_0000
  type u32 = x: int | 0 <= x < 0x1_0000_0000
  type u64 = x: int | 0 <= x < 0x1_0000_0000_0000_0000
  type i64 = x: int | -0x8000_0000_0000_0000 <= x < 0x8000_0000_0000_0000

  type Bytes = seq<u8>

  const TWO_16 := 0x1_0000
  const TWO_32 := 0x1_0000_0000
  const TWO_64 := 0x1_0000_0000_0000_0000

  datatype Parsed<+T> = NoParse | Parsed(value: T, rest: Bytes) {
    predicate IsFailure() { NoParse? }

    function PropagateFailure<U>(): Parsed<U>
      requires NoParse?
    {
      NoParse
    }

    function Extract(): (T, Bytes)
      requires Parsed?
    {
      (value, rest)
    }
  }

  /** `short` is the parse of some string and `long` the parse of that string followed by `t`. */
  ghost predicate Extends<T>(short: Parsed<T>, long: Parsed<T>, t: Bytes) {
    && (short.Parsed? ==> long == Parsed(short.value, short.rest + t))
    && (long.Parsed? && |long.rest| >= |t| ==> short.Parsed?)
  }

  ghost predicate NoLonger<T>(p: Parsed<T>, d: Bytes) {
    p.Parsed? ==> |p.rest| <= |d|
  }

  ghost predicate SuffixOf(r: Bytes, d: Bytes) {
    |r| <= |d| && d[|d| - |r|..] == r
  }

  lemma SuffixTransitive(r: Bytes, s: Bytes, d: Bytes)
    requires SuffixOf(r, s) && SuffixOf(s, d)
    ensures SuffixOf(r, d)
  {
    assert d[|d| - |r|..] == s[|s| - |r|..];
  }

  // ----- little-endian integers -----

  function Pow256(n: nat): (p: nat)
    ensures p > 0
  {
    if n == 0 then 1 else 256 * Pow256(n - 1)
  }

  /** The low `n` bytes of `v`, least significant first: `(v as uN).to_le_bytes()`. */
  function ToLE(v: nat, n: nat): (b: Bytes)
    ensures |b| == n
  {
    if n == 0 then [] else [v % 256] + ToLE(v / 256, n - 1)
  }

  function FromLE(b: Bytes): nat {
    if b == [] then 0 else b[0] + 256 * FromLE(b[1..])
  }

  /** Small numbers, read back. */
  lemma SmallLE2(b: Bytes)
    requires 2 <= |b| && b[1] == 0
    ensures FromLE(b[..2]) == b[0]
  {
    assert FromLE(b[..2][1..]) == 0;
  }

  lemma SmallLE3(b: Bytes)
    requires 3 <= |b| && b[1] == b[2] == 0
    ensures FromLE(b[..3]) == b[0]
  {
    SmallLE2(b[1..]);
    assert b[..3][1..] == b[1..][..2];
  }

  lemma SmallLE4(b: Bytes)
    requires 4 <= |b| && b[1] == b[2] == b[3] == 0
    ensures FromLE(b[..4]) == b[0]
  {
    SmallLE3(b[1..]);
    assert b[..4][1..] == b[1..][..3];
  }

  lemma {:induction false} FromLEBound(b: Bytes)
    ensures FromLE(b) < Pow256(|b|)
  {
    if b != [] {
      FromLEBound(b[1..]);
    }
  }

  /** Writing `n` bytes keeps exactly the value modulo 256^n. */
  lemma {:induction false} FromToLE(v: nat, n: nat)
    ensures FromLE(ToLE(v, n)) == v % Pow256(n)
  {
    if n != 0 {
      FromToLE(v / 256, n - 1);
      assert ToLE(v, n)[1..] == ToLE(v / 256, n - 1);
      ModSplit(v, Pow256(n - 1));
    }
  }

  lemma ModSplit(v: nat, p: nat)
    requires p > 0
    ensures v % (256 * p) == v % 256 + 256 * ((v / 256) % p)
  {
    var q, r := v / 256, v % 256;
    var a, c := q / p, q % p;
    assert v == 256 * (a * p + c) + r;
    assert v == (256 * p) * a + (256 * c + r) by {
      assert 256 * (a * p) == (256 * p) * a;
    }
    assert 0 <= 256 * c + r < 256 * p;
    ModUnique(v, 256 * p, a, 256 * c + r);
  }

  lemma ModUnique(v: nat, m: nat, q: int, r: nat)
    requires m > 0 && r < m && v == m * q + r
    ensures v % m == r && v / m == q
  {
    var d := v / m - q;
    assert m * d == r - v % m;
    assert 0 < m * d + m < 2 * m;
  }

  /** `v` without its low `k` bytes. */
  function ShiftBytes(v: nat, k: nat): nat {
    if k == 0 then v else ShiftBytes(v / 256, k - 1)
  }

  /** The least significant byte comes first. */
  lemma {:induction false} ToLEAt(v: nat, n: nat, k: nat)
    requires k < n
    ensures ToLE(v, n)[k] == ShiftBytes(v, k) % 256
  {
    if k > 0 {
      ToLEAt(v / 256, n - 1, k - 1);
    }
  }

  lemma {:induction false} ToFromLE(b: Bytes)
    ensures ToLE(FromLE(b), |b|) == b
  {
    if b != [] {
      ToFromLE(b[1..]);
      assert FromLE(b) % 256 == b[0] && FromLE(b) / 256 == FromLE(b[1..]);
    }
  }

  lemma Pow256Values()
    ensures Pow256(1) == 0x100 && Pow256(2) == TWO_16 && Pow256(3) == 0x100_0000
    ensures Pow256(4) == TWO_32 && Pow256(8) == TWO_64
  {
    assert Pow256(1) == 0x100;
    assert Pow256(2) == TWO_16;
    assert Pow256(3) == 0x100_0000;
    assert Pow256(4) == TWO_32;
    assert Pow256(5) == 0x100_0000_0000;
    assert Pow256(6) == 0x1_0000_0000_0000;
    assert Pow256(7) == 0x100_0000_0000_0000;
  }

  // ----- elementary parsers -----

  function Take(n: nat, d: Bytes): (p: Parsed<Bytes>)
    ensures NoLonger(p, d)
  {
    if n <= |d| then Parsed(d[..n], d[n..]) else NoParse
  }

  function TakeLE(n: nat, d: Bytes): (p: Parsed<nat>)
    ensures NoLonger(p, d)
  {
    if n <= |d| then Parsed(FromLE(d[..n]), d[n..]) else NoParse
  }

  function TakeU8(d: Bytes): (p: Parsed<u8>)
    ensures NoLonger(p, d)
  {
    if |d| > 0 then Parsed(d[0], d[1..]) else NoParse
  }

  function TakeU16(d: Bytes): (p: Parsed<u16>)
    ensures NoLonger(p, d)
  {
    if 2 <= |d| then FromLEBound(d[..2]); Pow256Values(); Parsed(FromLE(d[..2]), d[2..]) else NoParse
  }

  function TakeU32(d: Bytes): (p: Parsed<u32>)
    ensures NoLonger(p, d)
  {
    if 4 <= |d| then FromLEBound(d[..4]); Pow256Values(); Parsed(FromLE(d[..4]), d[4..]) else NoParse
  }

  function TakeU64(d: Bytes): (p: Parsed<u64>)
    ensures NoLonger(p, d)
  {
    if 8 <= |d| then FromLEBound(d[..8]); Pow256Values(); Parsed(FromLE(d[..8]), d[8..]) else NoParse
  }

  lemma TakeExtends(n: nat, d: Bytes, t: Bytes)
    ensures Extends(Take(n, d), Take(n, d + t), t)
    ensures Extends(TakeLE(n, d), TakeLE(n, d + t), t)
  {
    if n <= |d| {
      assert (d + t)[..n] == d[..n];
      assert (d + t)[n..] == d[n..] + t;
    }
  }

  lemma TakeIntExtends(d: Bytes, t: Bytes)
    ensures Extends(TakeU8(d), TakeU8(d + t), t)
    ensures Extends(TakeU16(d), TakeU16(d + t), t)
    ensures Extends(TakeU32(d), TakeU32(d + t), t)
    ensures Extends(TakeU64(d), TakeU64(d + t), t)
  {
    TakeExtends(1, d, t);
    TakeExtends(2, d, t);
    TakeExtends(4, d, t);
    TakeExtends(8, d, t);
  }

  lemma TakeEncoded(n: nat, v: nat, t: Bytes)
    requires v < Pow256(n)
    ensures TakeLE(n, ToLE(v, n) + t) == Parsed(v, t)
  {
    FromToLE(v, n);
    ModUnique(v, Pow256(n), 0, v);
    assert (ToLE(v, n) + t)[..n] == ToLE(v, n);
    assert (ToLE(v, n) + t)[n..] == t;
  }

  lemma TakeEncodedInts(v: nat, t: Bytes)
    ensures v < TWO_16 ==> TakeU16(ToLE(v, 2) + t) == Parsed(v, t)
    ensures v < TWO_32 ==> TakeU32(ToLE(v, 4) + t) == Parsed(v, t)
    ensures v < TWO_64 ==> TakeU64(ToLE(v, 8) + t) == Parsed(v, t)
  {
    Pow256Values();
    if v < TWO_16 { TakeEncoded(2, v, t); }
    if v < TWO_32 { TakeEncoded(4, v, t); }
    if v < TWO_64 { TakeEncoded(8, v, t); }
  }

  lemma TakeWhole(s: Bytes, t: Bytes)
    ensures Take(|s|, s + t) == Parsed(s, t)
  {
    assert (s + t)[..|s|] == s;
    assert (s + t)[|s|..] == t;
  }

  // ----- repetition -----

  /** `p` applied `n` times, one value after the other. */
  function Many<T>(p: Bytes -> Parsed<T>, n: nat, d: Bytes): Parsed<seq<T>> {
    if n == 0 then Parsed([], d) else
      var (x, d1) :- p(d);
      var (xs, d2) :- Many(p, n - 1, d1);
      Parsed([x] + xs, d2)
  }

  /** A list parse with the values read earlier put back in front. */
  function Prepend<T>(xs: seq<T>, p: Parsed<seq<T>>): Parsed<seq<T>> {
    match p
    case NoParse => NoParse
    case Parsed(ys, rest) => Parsed(xs + ys, rest)
  }

  function Flat<T>(enc: T -> Bytes, xs: seq<T>): Bytes {
    if xs == [] then [] else enc(xs[0]) + Flat(enc, xs[1..])
  }

  ghost predicate Delimited<T(!new)>(p: Bytes -> Parsed<T>) {
    && (forall d :: NoLonger(p(d), d))
    && (forall d, t :: Extends(p(d), p(d + t), t))
  }

  lemma {:induction false} ManyExtends<T(!new)>(p: Bytes -> Parsed<T>, n: nat, d: Bytes, t: Bytes)
    requires Delimited(p)
    ensures NoLonger(Many(p, n, d), d)
    ensures Extends(Many(p, n, d), Many(p, n, d + t), t)
  {
    if n > 0 {
      assert Extends(p(d), p(d + t), t);
      assert NoLonger(p(d), d) && NoLonger(p(d + t), d + t);
      if p(d).Parsed? {
        ManyExtends(p, n - 1, p(d).rest, t);
      } else if p(d + t).Parsed? {
        ManyExtends(p, n - 1, p(d + t).rest, []);
      }
    }
  }

  lemma {:induction false} ManyRoundTrip<T(!new)>(p: Bytes -> Parsed<T>, enc: T -> Bytes, xs: seq<T>, t: Bytes)
    requires forall x, r: Bytes :: x in xs ==> p(enc(x) + r) == Parsed(x, r)
    ensures Many(p, |xs|, Flat(enc, xs) + t) == Parsed(xs, t)
  {
    if xs == [] {
      assert Flat(enc, xs) + t == t;
    } else {
      var r := Flat(enc, xs[1..]) + t;
      assert Flat(enc, xs) + t == enc(xs[0]) + r;
      assert p(enc(xs[0]) + r) == Parsed(xs[0], r);
      ManyRoundTrip(p, enc, xs[1..], t);
      assert [xs[0]] + xs[1..] == xs;
    }
  }

  /** One more turn of a reading loop: what is left to read shrinks by one value. */
  lemma ManyTurn<T>(p: Bytes -> Parsed<T>, n: nat, xs: seq<T>, d: Bytes)
    requires n > 0
    ensures p(d).NoParse? ==> Prepend(xs, Many(p, n, d)).NoParse?
    ensures p(d).Parsed? ==>
              Prepend(xs, Many(p, n, d)) == Prepend(xs + [p(d).value], Many(p, n - 1, p(d).rest))
  {
    if p(d).Parsed? {
      var m := Many(p, n - 1, p(d).rest);
      if m.Parsed? {
        assert xs + ([p(d).value] + m.value) == xs + [p(d).value] + m.value;
      }
    }
  }

  lemma PrependNothing<T>(p: Parsed<seq<T>>)
    ensures Prepend([], p) == p
  {
    if p.Parsed? {
      assert [] + p.value == p.value;
    }
  }

  lemma PrependLast<T>(p: Bytes -> Parsed<T>, xs: seq<T>, d: Bytes)
    ensures Prepend(xs, Many(p, 0, d)) == Parsed(xs, d)
  {
    assert xs + [] == xs;
  }

  lemma ManyStep<T>(p: Bytes -> Parsed<T>, n: nat, d: Bytes)
    requires n > 0 && Many(p, n, d).Parsed?
    ensures p(d).Parsed? && Many(p, n - 1, p(d).rest).Parsed?
    ensures Many(p, n, d).value == [p(d).value] + Many(p, n - 1, p(d).rest).value
    ensures Many(p, n, d).value[1..] == Many(p, n - 1, p(d).rest).value
    ensures Many(p, n, d).rest == Many(p, n - 1, p(d).rest).rest
  {
  }

  // ----- `data.get(pos..pos + n)` -----

  method GetU16(data: Bytes, pos: nat) returns (r: Option<u16>)
    requires pos <= |data|
    ensures r == None ==> TakeU16(data[pos..]) == NoParse
    ensures r.Some? ==> pos + 2 <= |data| && TakeU16(data[pos..]) == Parsed(r.value, data[pos + 2..])
  {
    var p := TakeU16(data[pos..]);
    if p.NoParse? {
      return None;
    }
    assert data[pos..][2..] == data[pos + 2..];
    return Some(p.value);
  }

  method GetU32(data: Bytes, pos: nat) returns (r: Option<u32>)
    requires pos <= |data|
    ensures r == None ==> TakeU32(data[pos..]) == NoParse
    ensures r.Some? ==> pos + 4 <= |data| && TakeU32(data[pos..]) == Parsed(r.value, data[pos + 4..])
  {
    var p := TakeU32(data[pos..]);
    if p.NoParse? {
      return None;
    }
    assert data[pos..][4..] == data[pos + 4..];
    return Some(p.value);
  }

  method GetU64(data: Bytes, pos: nat) returns (r: Option<u64>)
    requires pos <= |data|
    ensures r == None ==> TakeU64(data[pos..]) == NoParse
    ensures r.Some? ==> pos + 8 <= |data| && TakeU64(data[pos..]) == Parsed(r.value, data[pos + 8..])
  {
    var p := TakeU64(data[pos..]);
    if p.NoParse? {
      return None;
    }
    assert data[pos..][8..] == data[pos + 8..];
    return Some(p.value);
  }

  method GetBytes(data: Bytes, pos: nat, n: nat) returns (r: Option<Bytes>)
    requires pos <= |data|
    ensures r == None ==> Take(n, data[pos..]) == NoParse
    ensures r.Some? ==> pos + n <= |data| && Take(n, data[pos..]) == Parsed(r.value, data[pos + n..])
  {
    if pos + n > |data| {
      return None;
    }
    assert data[pos..][n..] == data[pos + n..];
    return Some(data[pos..][..n]);
  }

  lemma {:induction false} FlatAppend<T>(enc: T -> Bytes, xs: seq<T>, x: T)
    ensures Flat(enc, xs + [x]) == Flat(enc, xs) + enc(x)
  {
    if xs == [] {
      assert ([x])[1..] == [];
      assert xs + [x] == [x];
    } else {
      FlatAppend(enc, xs[1..], x);
      assert (xs + [x])[1..] == xs[1..] + [x];
    }
  }
}
