/** UTF-8 as Rust strings use it: well-formedness (section 4 of RFC 3629), and the lossy
    conversion that puts U+FFFD in place of each broken part. */
module Utf8 {
  import opened Wire

  /** A Rust `String`: its bytes are always well-formed UTF-8. */
  type Text = s: Bytes | ValidUtf8(s)

  predicate IsTail(b: u8) { 0x80 <= b <= 0xBF }

  /** Whether `b` may follow the lead byte `a` of a three- or four-byte sequence. */
  predicate IsSecond(a: u8, b: u8) {
    if a == 0xE0 then 0xA0 <= b <= 0xBF
    else if a == 0xED then 0x80 <= b <= 0x9F
    else if a == 0xF0 then 0x90 <= b <= 0xBF
    else if a == 0xF4 then 0x80 <= b <= 0x8F
    else IsTail(b)
  }

  /** The length of the character at the front of `s`; 0 when none starts there. */
  function CharLen(s: Bytes): (n: nat)
    ensures n <= |s|
  {
    if s == [] then 0
    else if s[0] < 0x80 then 1
    else if 0xC2 <= s[0] <= 0xDF then
      if |s| >= 2 && IsTail(s[1]) then 2 else 0
    else if 0xE0 <= s[0] <= 0xEF then
      if |s| >= 3 && IsSecond(s[0], s[1]) && IsTail(s[2]) then 3 else 0
    else if 0xF0 <= s[0] <= 0xF4 then
      if |s| >= 4 && IsSecond(s[0], s[1]) && IsTail(s[2]) && IsTail(s[3]) then 4 else 0
    else 0
  }

  predicate ValidUtf8(s: Bytes) {
    s == [] || (CharLen(s) > 0 && ValidUtf8(s[CharLen(s)..]))
  }

  /** The length of the broken part at the front of `s`: the longest start of a character
      that could still have been completed, or one byte. */
  function BrokenLen(s: Bytes): (n: nat)
    requires s != []
    ensures 1 <= n <= |s|
  {
    if 0xE0 <= s[0] <= 0xF4 && |s| >= 2 && IsSecond(s[0], s[1]) then
      if 0xF0 <= s[0] && |s| >= 3 && IsTail(s[2]) then 3 else 2
    else 1
  }

  const REPLACEMENT: Bytes := [0xEF, 0xBF, 0xBD]

  /** `String::from_utf8_lossy`. */
  function Lossy(s: Bytes): (r: Text)
    decreases |s|
  {
    if s == [] then []
    else if CharLen(s) > 0 then
      var n := CharLen(s);
      CharThenText(s[..n], Lossy(s[n..]));
      s[..n] + Lossy(s[n..])
    else
      CharThenText(REPLACEMENT, Lossy(s[BrokenLen(s)..]));
      REPLACEMENT + Lossy(s[BrokenLen(s)..])
  }

  lemma CharThenText(c: Bytes, t: Bytes)
    requires CharLen(c) == |c| > 0 && ValidUtf8(t)
    ensures ValidUtf8(c + t)
  {
    assert CharLen(c + t) == |c|;
    assert (c + t)[|c|..] == t;
  }

  /** Nothing is replaced in a well-formed string. */
  lemma {:induction false} LossyOfValid(s: Bytes)
    requires ValidUtf8(s)
    ensures Lossy(s) == s
    decreases |s|
  {
    if s != [] {
      LossyOfValid(s[CharLen(s)..]);
    }
  }

  /** A broken part takes at least one byte, its replacement three. */
  lemma {:induction false} LossyGrowth(s: Bytes)
    ensures |Lossy(s)| <= 3 * |s|
    decreases |s|
  {
    if s == [] {
    } else if CharLen(s) > 0 {
      LossyGrowth(s[CharLen(s)..]);
    } else {
      LossyGrowth(s[BrokenLen(s)..]);
    }
  }

  // ----- against the encoding of scalar values -----

  /** Unicode scalar values: code points that are not surrogates. */
  type Scalar = c: int | 0 <= c < 0xD800 || 0xE000 <= c < 0x11_0000

  /** Section 3 of RFC 3629. */
  function EncodeScalar(c: Scalar): (b: Bytes)
    ensures 1 <= |b| <= 4
  {
    if c < 0x80 then [c]
    else if c < 0x800 then [0xC0 + c / 64, 0x80 + c % 64]
    else if c < 0x1_0000 then [0xE0 + c / 4096, 0x80 + c / 64 % 64, 0x80 + c % 64]
    else [0xF0 + c / 262144, 0x80 + c / 4096 % 64, 0x80 + c / 64 % 64, 0x80 + c % 64]
  }

  function EncodeScalars(cs: seq<Scalar>): Bytes {
    if cs == [] then [] else EncodeScalar(cs[0]) + EncodeScalars(cs[1..])
  }

  /** What an encoded scalar starts with, and a character is the encoding of a scalar. */
  lemma ScalarIsChar(c: Scalar, t: Bytes)
    ensures CharLen(EncodeScalar(c) + t) == |EncodeScalar(c)|
  {
    if 0x80 <= c {
      SixBits(c);
    }
  }

  lemma SixBits(c: nat)
    ensures c == 64 * (c / 64) + c % 64
    ensures c / 64 == 64 * (c / 4096) + c / 64 % 64
    ensures c / 4096 == 64 * (c / 262144) + c / 4096 % 64
  {
    assert c / 4096 == (c / 64) / 64;
    assert c / 262144 == (c / 4096) / 64;
  }

  /** A number put together from groups of six bits. */
  function Joined(w: nat, x: nat, y: nat, z: nat): (c: nat)
    requires x < 64 && y < 64 && z < 64
    ensures c / 262144 == w && c / 4096 % 64 == x && c / 64 % 64 == y && c % 64 == z
    ensures c / 4096 == 64 * w + x && c / 64 == 4096 * w + 64 * x + y
  {
    var c := 262144 * w + 4096 * x + 64 * y + z;
    ModUnique(c, 64, 4096 * w + 64 * x + y, z);
    ModUnique(c / 64, 64, 64 * w + x, y);
    ModUnique(c / 64 / 64, 64, w, x);
    SixBits(c);
    c
  }

  function LowBits(b: u8): (bits: nat)
    requires IsTail(b)
    ensures bits < 64 && 0x80 + bits == b
  {
    b - 0x80
  }

  lemma CharIsScalar(s: Bytes) returns (c: Scalar)
    requires CharLen(s) > 0
    ensures EncodeScalar(c) == s[..CharLen(s)]
  {
    hide Joined;
    var lead: int := s[0];
    if lead < 0x80 {
      c := lead;
    } else if lead <= 0xDF {
      c := Joined(0, 0, lead - 0xC0, LowBits(s[1]));
    } else if lead <= 0xEF {
      c := Joined(0, lead - 0xE0, LowBits(s[1]), LowBits(s[2]));
    } else {
      c := Joined(lead - 0xF0, LowBits(s[1]), LowBits(s[2]), LowBits(s[3]));
    }
  }

  /** Well-formed is what the encodings of scalar values make up, and nothing else. */
  lemma {:induction false} ValidExactly(s: Bytes)
    ensures ValidUtf8(s) <==> exists cs: seq<Scalar> :: s == EncodeScalars(cs)
    decreases |s|
  {
    hide CharLen, EncodeScalar;
    if ValidUtf8(s) {
      if s == [] {
        assert s == EncodeScalars([]);
      } else {
        var c := CharIsScalar(s);
        ValidExactly(s[CharLen(s)..]);
        var cs: seq<Scalar> :| s[CharLen(s)..] == EncodeScalars(cs);
        assert ([c] + cs)[1..] == cs;
        assert s == s[..CharLen(s)] + s[CharLen(s)..] == EncodeScalars([c] + cs);
      }
    }
    if cs: seq<Scalar> :| s == EncodeScalars(cs) {
      ScalarsValid(cs);
    }
  }

  lemma {:induction false} ScalarsValid(cs: seq<Scalar>)
    ensures ValidUtf8(EncodeScalars(cs))
  {
    hide CharLen, EncodeScalar;
    if cs != [] {
      ScalarsValid(cs[1..]);
      ScalarIsChar(cs[0], EncodeScalars(cs[1..]));
      assert EncodeScalars(cs)[|EncodeScalar(cs[0])|..] == EncodeScalars(cs[1..]);
    }
  }

  // ----- what is replaced -----

  /** Some scalar's encoding starts with these bytes. */
  ghost predicate StartsScalar(b: Bytes) {
    exists c: Scalar :: b <= EncodeScalar(c)
  }

  /** The longest beginning of `s` that starts a scalar, or one byte if none does. */
  ghost predicate MaximalStart(s: Bytes, n: nat) {
    && 1 <= n <= |s|
    && (n > 1 ==> StartsScalar(s[..n]))
    && forall m :: n < m <= |s| ==> !StartsScalar(s[..m])
  }

  /** The second byte that a lead byte leaves room for. */
  lemma SecondStarts(a: u8, b: u8)
    requires 0xE0 <= a <= 0xF4
    ensures StartsScalar([a, b]) <==> IsSecond(a, b)
  {
    if IsSecond(a, b) {
      hide Joined;
      var lead: int := a;
      var c := if a < 0xF0 then Joined(0, lead - 0xE0, LowBits(b), 0) else Joined(lead - 0xF0, LowBits(b), 0, 0);
      assert [a, b] <= EncodeScalar(c);
    }
    if c: Scalar :| [a, b] <= EncodeScalar(c) {
      SecondOf(c, a, b);
    }
  }

  lemma SecondOf(c: Scalar, a: u8, b: u8)
    requires [a, b] <= EncodeScalar(c) && 0xE0 <= a
    ensures IsSecond(a, b)
  {
    SixBits(c);
    assert EncodeScalar(c)[0] == [a, b][0] && EncodeScalar(c)[1] == [a, b][1];
  }

  lemma ThirdStarts(a: u8, b: u8, d: u8)
    requires 0xF0 <= a <= 0xF4 && IsSecond(a, b)
    ensures StartsScalar([a, b, d]) <==> IsTail(d)
  {
    if IsTail(d) {
      hide Joined;
      var lead: int := a;
      var c := Joined(lead - 0xF0, LowBits(b), LowBits(d), 0);
      assert [a, b, d] <= EncodeScalar(c);
    }
    if c: Scalar :| [a, b, d] <= EncodeScalar(c) {
      SixBits(c);
      assert EncodeScalar(c)[0] == [a, b, d][0] && EncodeScalar(c)[2] == [a, b, d][2];
    }
  }

  /** A start that is as long as the encoding is the whole of it, and shorter starts are starts. */
  lemma StartsShorter(s: Bytes, m: nat, k: nat)
    requires k <= m <= |s| && StartsScalar(s[..m])
    ensures StartsScalar(s[..k])
  {
    var c: Scalar :| s[..m] <= EncodeScalar(c);
    assert s[..k] <= s[..m] && s[..k] <= EncodeScalar(c);
  }

  /** An encoding that `s` starts with is a character at its front. */
  lemma WholeScalar(s: Bytes, m: nat, c: Scalar)
    requires m <= |s|
    ensures s[..m] <= EncodeScalar(c) && |EncodeScalar(c)| == m ==> CharLen(s) == m
  {
    if s[..m] <= EncodeScalar(c) && |EncodeScalar(c)| == m {
      assert s == EncodeScalar(c) + s[m..];
      ScalarIsChar(c, s[m..]);
    }
  }

  lemma SameBytes(s: Bytes, m: nat, b: Bytes)
    requires m <= |s|
    ensures s[..m] <= b ==> forall i :: 0 <= i < m ==> b[i] == s[i]
  {
    if s[..m] <= b {
      assert forall i :: 0 <= i < m ==> b[i] == s[..m][i];
    }
  }

  /** Bytes that are replaced are a maximal start of a character that is not there. */
  lemma BrokenIsMaximal(s: Bytes)
    requires s != [] && CharLen(s) == 0
    ensures MaximalStart(s, BrokenLen(s))
  {
    var n := BrokenLen(s);
    hide EncodeScalar, StartsScalar;
    if n > 1 {
      assert s[..2] == [s[0], s[1]];
      SecondStarts(s[0], s[1]);
      if n == 3 {
        assert s[..3] == [s[0], s[1], s[2]];
        ThirdStarts(s[0], s[1], s[2]);
      }
    }
    forall m | n < m <= |s|
      ensures !StartsScalar(s[..m])
    {
      if StartsScalar(s[..m]) {
        StartsShorter(s, m, n + 1);
        NoLongerStart(s, n);
      }
    }
  }

  lemma NoLongerStart(s: Bytes, n: nat)
    requires s != [] && CharLen(s) == 0 && n == BrokenLen(s) && n < |s|
    ensures !StartsScalar(s[..n + 1])
  {
    forall c: Scalar
      ensures !(s[..n + 1] <= EncodeScalar(c))
    {
      SixBits(c);
      SameBytes(s, n + 1, EncodeScalar(c));
      WholeScalar(s, n + 1, c);
    }
  }

  lemma LossyStep(s: Bytes)
    requires s != []
    ensures CharLen(s) > 0 ==> Lossy(s) == s[..CharLen(s)] + Lossy(s[CharLen(s)..])
    ensures CharLen(s) == 0 ==> Lossy(s) == [0xEF, 0xBF, 0xBD] + Lossy(s[BrokenLen(s)..])
  {
  }

  lemma TextStep(s: Bytes)
    requires ValidUtf8(s) && s != []
    ensures CharLen(s) > 0 && ValidUtf8(s[CharLen(s)..])
  {
  }

  /** Text before the first broken part stays, and the broken part becomes U+FFFD. */
  lemma {:induction false} LossyReplaces(a: Text, b: Bytes)
    requires b != [] && CharLen(b) == 0
    ensures MaximalStart(b, BrokenLen(b))
    ensures Lossy(a + b) == a + [0xEF, 0xBF, 0xBD] + Lossy(b[BrokenLen(b)..])
    decreases |a|
  {
    hide MaximalStart, BrokenLen, CharLen, ValidUtf8, Lossy;
    BrokenIsMaximal(b);
    LossyStep(b);
    if a == [] {
      assert a + b == b;
    } else {
      TextStep(a);
      var n := CharLen(a);
      CharStays(a, b);
      LossyStep(a + b);
      assert (a + b)[..n] == a[..n] && (a + b)[n..] == a[n..] + b;
      LossyReplaces(a[n..], b);
      assert a[..n] + (a[n..] + [0xEF, 0xBF, 0xBD] + Lossy(b[BrokenLen(b)..]))
             == a + [0xEF, 0xBF, 0xBD] + Lossy(b[BrokenLen(b)..]);
    }
  }

  lemma CharStays(a: Bytes, b: Bytes)
    requires CharLen(a) > 0
    ensures CharLen(a + b) == CharLen(a)
  {
  }

  /** The bytes of an ASCII literal (a character outside ASCII would show as `?`). */
  function Ascii(s: string): (t: Text)
    ensures |t| == |s|
    ensures forall i :: 0 <= i < |s| && s[i] < 128 as char ==> t[i] == s[i] as int
  {
    if s == [] then [] else
      var c: u8 := if s[0] < 128 as char then s[0] as int else '?' as int;
      CharThenText([c], Ascii(s[1..]));
      [c] + Ascii(s[1..])
  }
}
