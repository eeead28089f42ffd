/** Label values: any byte string, written as UTF-8 with decimal escapes so that no two values look alike. */
module Utf8Labels {
  import opened Bytes

  const BACKSLASH: Byte := 92

  // ---------------------------------------------------------------------------------------------
  // UTF-8, as RFC 3629 encodes a scalar value
  // ---------------------------------------------------------------------------------------------

  predicate Scalar(c: nat) {
    c < 0xD800 || 0xE000 <= c < 0x11_0000
  }

  function EncodeScalar(c: nat): seq<Byte>
    requires Scalar(c)
  {
    if c < 0x80 then [c]
    else if c < 0x800 then [0xC0 + c / 64, 0x80 + c % 64]
    else if c < 0x1_0000 then [0xE0 + c / 4096, 0x80 + c / 64 % 64, 0x80 + c % 64]
    else [0xF0 + c / 262144, 0x80 + c / 4096 % 64, 0x80 + c / 64 % 64, 0x80 + c % 64]
  }

  function EncodeAll(cs: seq<nat>): seq<Byte>
    requires forall k | 0 <= k < |cs| :: Scalar(cs[k])
  {
    if cs == [] then [] else EncodeScalar(cs[0]) + EncodeAll(cs[1..])
  }

  // ---------------------------------------------------------------------------------------------
  // Well-formed sequences, by the byte ranges of Table 3-7 of the Unicode Standard
  // ---------------------------------------------------------------------------------------------

  /** The length its first byte announces; none for a byte that starts no sequence. */
  function Announced(lead: Byte): nat {
    if lead < 0x80 then 1
    else if 0xC2 <= lead <= 0xDF then 2
    else if 0xE0 <= lead <= 0xEF then 3
    else if 0xF0 <= lead <= 0xF4 then 4
    else 0
  }

  predicate SecondOk(lead: Byte, second: Byte) {
    && (if lead == 0xE0 then 0xA0 else if lead == 0xF0 then 0x90 else 0x80) <= second
    && second <= (if lead == 0xED then 0x9F else if lead == 0xF4 then 0x8F else 0xBF)
  }

  predicate Continues(b: Byte) {
    0x80 <= b <= 0xBF
  }

  /** Length of the well-formed sequence `v` starts with, or 0. */
  function SequenceLength(v: seq<Byte>): (n: nat)
    requires v != []
    ensures n <= |v|
  {
    var n := Announced(v[0]);
    if n <= 1 then n
    else if |v| < n || !SecondOk(v[0], v[1]) then 0
    else if (2 < n ==> Continues(v[2])) && (3 < n ==> Continues(v[3])) then n else 0
  }

  /** The value that a sequence of `n` bytes encodes. */
  function DecodeScalar(v: seq<int>): int {
    if |v| == 1 then v[0]
    else if |v| == 2 then (v[0] - 0xC0) * 64 + v[1] - 0x80
    else if |v| == 3 then (v[0] - 0xE0) * 4096 + (v[1] - 0x80) * 64 + v[2] - 0x80
    else if |v| == 4 then (v[0] - 0xF0) * 262144 + (v[1] - 0x80) * 4096 + (v[2] - 0x80) * 64 + v[3] - 0x80
    else 0
  }

  lemma TwoBytes(c: int, a: int, b: int)
    requires c == a * 64 + b && 0 <= b < 64
    ensures c / 64 == a && c % 64 == b
  {
  }

  lemma ThreeBytes(c: int, a: int, b: int, d: int)
    requires c == a * 4096 + b * 64 + d && 0 <= b < 64 && 0 <= d < 64
    ensures c / 4096 == a && c / 64 % 64 == b && c % 64 == d
  {
    TwoBytes(c, a * 64 + b, d);
    TwoBytes(a * 64 + b, a, b);
    assert c / 4096 == a;
  }

  lemma FourBytes(c: int, a: int, b: int, d: int, e: int)
    requires c == a * 262144 + b * 4096 + d * 64 + e && 0 <= b < 64 && 0 <= d < 64 && 0 <= e < 64
    ensures c / 262144 == a && c / 4096 % 64 == b && c / 64 % 64 == d && c % 64 == e
  {
    ThreeBytes(c, a * 64 + b, d, e);
    TwoBytes(a * 64 + b, a, b);
    assert c / 262144 == a;
  }

  /** A well-formed sequence encodes a scalar value. */
  lemma SequenceIsScalar(v: seq<Byte>)
    requires v != [] && SequenceLength(v) > 0
    ensures var c := DecodeScalar(v[..SequenceLength(v)]);
            0 <= c && Scalar(c) && EncodeScalar(c) == v[..SequenceLength(v)]
  {
    var n := SequenceLength(v);
    var s := v[..n];
    var c := DecodeScalar(s);
    if n == 2 {
      TwoBytes(c, s[0] - 0xC0, s[1] - 0x80);
    } else if n == 3 {
      ThreeBytes(c, s[0] - 0xE0, s[1] - 0x80, s[2] - 0x80);
    } else if n == 4 {
      FourBytes(c, s[0] - 0xF0, s[1] - 0x80, s[2] - 0x80, s[3] - 0x80);
    }
  }

  lemma ThreeByteRange(c: nat)
    requires Scalar(c) && 0x800 <= c < 0x1_0000
    ensures var a, b := c / 4096, c / 64 % 64; a < 16 && (a == 0 ==> 0x20 <= b) && (a == 0xD ==> b <= 0x1F)
  {
    assert c / 64 / 64 == c / 4096;
    TwoBytes(c / 64, c / 64 / 64, c / 64 % 64);
  }

  lemma FourByteRange(c: nat)
    requires Scalar(c) && 0x1_0000 <= c
    ensures var a, b := c / 262144, c / 4096 % 64; a <= 4 && (a == 0 ==> 0x10 <= b) && (a == 4 ==> b <= 0xF)
  {
    assert c / 4096 / 64 == c / 262144;
    TwoBytes(c / 4096, c / 4096 / 64, c / 4096 % 64);
  }

  /** Every scalar value's encoding is well-formed, whatever follows it. */
  lemma ScalarIsSequence(c: nat, rest: seq<Byte>)
    requires Scalar(c)
    ensures SequenceLength(EncodeScalar(c) + rest) == |EncodeScalar(c)|
  {
    if 0x800 <= c < 0x1_0000 {
      ThreeByteRange(c);
    } else if 0x1_0000 <= c {
      FourByteRange(c);
    }
  }

  /** A well-formed sequence stays one whatever follows it. */
  lemma SequenceStable(v: seq<Byte>, rest: seq<Byte>)
    requires v != [] && SequenceLength(v) > 0
    ensures SequenceLength(v[..SequenceLength(v)] + rest) == SequenceLength(v)
  {
  }

  // ---------------------------------------------------------------------------------------------
  // Whole values
  // ---------------------------------------------------------------------------------------------

  predicate IsUtf8(v: seq<Byte>) {
    v == [] || (SequenceLength(v) > 0 && IsUtf8(v[SequenceLength(v)..]))
  }

  ghost predicate Encodes(v: seq<Byte>, cs: seq<nat>) {
    (forall k | 0 <= k < |cs| :: Scalar(cs[k])) && EncodeAll(cs) == v
  }

  /** The scalar values a UTF-8 string encodes. */
  function DecodeAll(v: seq<Byte>): seq<nat>
    requires IsUtf8(v)
  {
    if v == [] then [] else
      SequenceIsScalar(v);
      [DecodeScalar(v[..SequenceLength(v)])] + DecodeAll(v[SequenceLength(v)..])
  }

  lemma NoneEncoded()
    ensures EncodeAll([]) == []
  {
  }

  lemma EncodesFirst(c: nat, cs: seq<nat>, v: seq<Byte>)
    requires Scalar(c) && Encodes(v, cs)
    ensures Encodes(EncodeScalar(c) + v, [c] + cs)
  {
    hide Scalar, EncodeScalar;
    assert ([c] + cs)[1..] == cs;
  }

  lemma {:induction false} DecodeAllEncodes(v: seq<Byte>)
    requires IsUtf8(v)
    ensures Encodes(v, DecodeAll(v))
  {
    hide SequenceLength, DecodeScalar, EncodeScalar, Scalar, EncodeAll;
    if v == [] {
      NoneEncoded();
    } else {
      var n := SequenceLength(v);
      SequenceIsScalar(v);
      DecodeAllEncodes(v[n..]);
      EncodesFirst(DecodeScalar(v[..n]), DecodeAll(v[n..]), v[n..]);
      assert v == v[..n] + v[n..];
    }
  }

  lemma {:induction false} EncodingIsUtf8(cs: seq<nat>)
    requires forall k | 0 <= k < |cs| :: Scalar(cs[k])
    ensures IsUtf8(EncodeAll(cs))
  {
    if cs != [] {
      var rest := EncodeAll(cs[1..]);
      ScalarIsSequence(cs[0], rest);
      assert (EncodeScalar(cs[0]) + rest)[|EncodeScalar(cs[0])|..] == rest;
      EncodingIsUtf8(cs[1..]);
    }
  }

  /** The byte-range test accepts exactly the encodings of sequences of scalar values. */
  lemma Utf8Iff(v: seq<Byte>)
    ensures IsUtf8(v) <==> exists cs: seq<nat> :: Encodes(v, cs)
  {
    if IsUtf8(v) {
      DecodeAllEncodes(v);
    }
    if cs: seq<nat> :| Encodes(v, cs) {
      EncodingIsUtf8(cs);
    }
  }

  lemma {:induction false} Utf8Append(a: seq<Byte>, b: seq<Byte>)
    requires IsUtf8(a) && IsUtf8(b)
    ensures IsUtf8(a + b)
  {
    if a == [] {
      assert a + b == b;
    } else {
      var n := SequenceLength(a);
      SequenceStable(a, a[n..] + b);
      assert a + b == a[..n] + (a[n..] + b);
      assert (a + b)[n..] == a[n..] + b;
      Utf8Append(a[n..], b);
    }
  }

  // ---------------------------------------------------------------------------------------------
  // Escaping
  // ---------------------------------------------------------------------------------------------

  predicate Digit(b: Byte) {
    48 <= b <= 57
  }

  /** A backslash and three digits: it would read as an escape. */
  predicate LooksEscaped(v: seq<Byte>) {
    |v| > 3 && v[0] == BACKSLASH && Digit(v[1]) && Digit(v[2]) && Digit(v[3])
  }

  function DecimalEscape(b: Byte): seq<Byte> {
    [BACKSLASH, 48 + b / 100, 48 + b / 10 % 10, 48 + b % 10]
  }

  /** Whether the first byte of `v` is written as an escape. */
  predicate EscapesFirst(v: seq<Byte>)
    requires v != []
  {
    SequenceLength(v) == 0 || LooksEscaped(v)
  }

  predicate NeedsEscape(v: seq<Byte>) {
    v != [] && (EscapesFirst(v) || NeedsEscape(v[SequenceLength(v)..]))
  }

  function Escape(v: seq<Byte>): seq<Byte> {
    if v == [] then []
    else if EscapesFirst(v) then DecimalEscape(v[0]) + Escape(v[1..])
    else v[..SequenceLength(v)] + Escape(v[SequenceLength(v)..])
  }

  /** How many bytes are written as escapes. */
  function Escapes(v: seq<Byte>): nat {
    if v == [] then 0
    else if EscapesFirst(v) then 1 + Escapes(v[1..])
    else Escapes(v[SequenceLength(v)..])
  }

  /** Reads a value back: every escape is a byte, and everything else is itself. */
  function Unescape(w: seq<Byte>): seq<int> {
    if w == [] then []
    else if LooksEscaped(w) then [(w[1] - 48) * 100 + (w[2] - 48) * 10 + w[3] - 48] + Unescape(w[4..])
    else [w[0]] + Unescape(w[1..])
  }

  lemma DecimalDigits(b: int)
    requires 0 <= b < 256
    ensures 0 <= b / 100 <= 9 && 0 <= b / 10 % 10 <= 9 && b / 100 * 100 + b / 10 % 10 * 10 + b % 10 == b
  {
  }

  /** An escape is read back whatever follows it. */
  lemma UnescapeEscape(b: Byte, rest: seq<Byte>)
    ensures Unescape(DecimalEscape(b) + rest) == [b] + Unescape(rest)
  {
    DecimalDigits(b);
    var w := DecimalEscape(b) + rest;
    assert LooksEscaped(w) && w[4..] == rest;
  }

  /** Digits at the front of an escaped value are there in the value itself. */
  lemma {:induction false} DigitsComeThrough(v: seq<Byte>, k: nat)
    requires k <= |Escape(v)| && forall i | 0 <= i < k :: Digit(Escape(v)[i])
    ensures k <= |v| && v[..k] == Escape(v)[..k]
  {
    if k > 0 {
      var w := Escape(v);
      assert w[0] != BACKSLASH;
      assert !EscapesFirst(v);
      var n := SequenceLength(v);
      assert w[0] == v[0];
      assert n == 1 && w == [v[0]] + Escape(v[1..]);
      assert w[1..] == Escape(v[1..]);
      forall i | 0 <= i < k - 1 ensures Digit(Escape(v[1..])[i]) {
        assert w[i + 1] == Escape(v[1..])[i];
      }
      DigitsComeThrough(v[1..], k - 1);
      assert w[..k] == [v[0]] + Escape(v[1..])[..k - 1];
      assert v[..k] == [v[0]] + v[1..][..k - 1];
    }
  }

  /** A byte that is no backslash is read back as itself. */
  lemma {:induction false} UnescapePlain(s: seq<Byte>, rest: seq<Byte>)
    requires forall i | 0 <= i < |s| :: s[i] != BACKSLASH
    ensures Unescape(s + rest) == s + Unescape(rest)
  {
    if s == [] {
      assert s + rest == rest;
    } else {
      assert (s + rest)[1..] == s[1..] + rest;
      UnescapePlain(s[1..], rest);
    }
  }

  /** The bytes of a sequence of two or more are no backslash. */
  lemma LongSequence(v: seq<Byte>)
    requires v != [] && SequenceLength(v) > 1
    ensures forall i | 0 <= i < SequenceLength(v) :: v[i] != BACKSLASH
  {
  }

  /** A backslash left alone is not read as an escape. */
  lemma BackslashAlone(v: seq<Byte>)
    requires v != [] && v[0] == BACKSLASH
    ensures LooksEscaped([BACKSLASH] + Escape(v[1..])) ==> LooksEscaped(v)
  {
    var w := [BACKSLASH] + Escape(v[1..]);
    if LooksEscaped(w) {
      var e := Escape(v[1..]);
      assert e[0] == w[1] && e[1] == w[2] && e[2] == w[3];
      DigitsComeThrough(v[1..], 3);
      assert v[1] == v[1..][..3][0] && v[2] == v[1..][..3][1] && v[3] == v[1..][..3][2];
    }
  }

  lemma UnescapeBackslash(v: seq<Byte>)
    requires v != [] && v[0] == BACKSLASH && !LooksEscaped(v)
    ensures SequenceLength(v) == 1 && Unescape([BACKSLASH] + Escape(v[1..])) == [BACKSLASH] + Unescape(Escape(v[1..]))
  {
    BackslashAlone(v);
    hide Escape;
    assert ([BACKSLASH] + Escape(v[1..]))[1..] == Escape(v[1..]);
  }

  /** A sequence that does not start with a backslash is read back. */
  lemma UnescapeSequence(v: seq<Byte>, rest: seq<Byte>)
    requires v != [] && SequenceLength(v) > 0 && v[0] != BACKSLASH
    ensures Unescape(v[..SequenceLength(v)] + rest) == v[..SequenceLength(v)] + Unescape(rest)
  {
    if SequenceLength(v) > 1 {
      LongSequence(v);
    }
    hide Unescape, SequenceLength;
    UnescapePlain(v[..SequenceLength(v)], rest);
  }

  /** Every value is recovered, so no two values are written alike. */
  lemma {:induction false} RoundTrip(v: seq<Byte>)
    ensures Unescape(Escape(v)) == v
  {
    hide SequenceLength, LooksEscaped, DecimalEscape;
    if v == [] {
    } else if EscapesFirst(v) {
      UnescapeEscape(v[0], Escape(v[1..]));
      RoundTrip(v[1..]);
    } else {
      var n := SequenceLength(v);
      RoundTrip(v[n..]);
      assert v == v[..n] + v[n..];
      if v[0] == BACKSLASH {
        UnescapeBackslash(v);
        assert v[..n] == [BACKSLASH];
      } else {
        UnescapeSequence(v, Escape(v[n..]));
      }
    }
  }

  lemma Injective(v: seq<Byte>, w: seq<Byte>)
    requires Escape(v) == Escape(w)
    ensures v == w
  {
    RoundTrip(v);
    RoundTrip(w);
  }

  lemma AsciiFirst(b: Byte, rest: seq<Byte>)
    requires b < 0x80
    ensures IsUtf8([b] + rest) <==> IsUtf8(rest)
  {
    assert ([b] + rest)[1..] == rest;
  }

  lemma AsciiIsUtf8(b: Byte)
    ensures IsUtf8(DecimalEscape(b))
  {
    DecimalDigits(b);
    AsciiFirst(48 + b % 10, []);
    AsciiFirst(48 + b / 10 % 10, [48 + b % 10]);
    AsciiFirst(48 + b / 100, [48 + b / 10 % 10, 48 + b % 10]);
    AsciiFirst(BACKSLASH, [48 + b / 100, 48 + b / 10 % 10, 48 + b % 10]);
    assert DecimalEscape(b) == [BACKSLASH] + [48 + b / 100, 48 + b / 10 % 10, 48 + b % 10];
    assert [48 + b / 100, 48 + b / 10 % 10, 48 + b % 10] == [48 + b / 100] + [48 + b / 10 % 10, 48 + b % 10];
    assert [48 + b / 10 % 10, 48 + b % 10] == [48 + b / 10 % 10] + [48 + b % 10];
    assert [48 + b % 10] == [48 + b % 10] + [];
  }

  /** What is written is always UTF-8. */
  lemma {:induction false} EscapeIsUtf8(v: seq<Byte>)
    ensures IsUtf8(Escape(v))
  {
    if v == [] {
    } else if EscapesFirst(v) {
      EscapeIsUtf8(v[1..]);
      AsciiIsUtf8(v[0]);
      Utf8Append(DecimalEscape(v[0]), Escape(v[1..]));
    } else {
      var n := SequenceLength(v);
      EscapeIsUtf8(v[n..]);
      SequenceStable(v, Escape(v[n..]));
      assert Escape(v)[n..] == Escape(v[n..]);
    }
  }

  /** Each escape adds three bytes, and there is one exactly if the value needs it. */
  lemma {:induction false} EscapeLength(v: seq<Byte>)
    ensures |Escape(v)| == |v| + 3 * Escapes(v) && (NeedsEscape(v) <==> Escapes(v) > 0)
  {
    if v == [] {
    } else if EscapesFirst(v) {
      EscapeLength(v[1..]);
    } else {
      EscapeLength(v[SequenceLength(v)..]);
    }
  }

  lemma {:induction false} UnchangedWithoutEscape(v: seq<Byte>)
    requires !NeedsEscape(v)
    ensures Escape(v) == v
  {
    if v != [] {
      UnchangedWithoutEscape(v[SequenceLength(v)..]);
      assert v == v[..SequenceLength(v)] + v[SequenceLength(v)..];
    }
  }

  /** A value is changed exactly if it needs an escape. */
  lemma ChangedIff(v: seq<Byte>)
    ensures Escape(v) != v <==> NeedsEscape(v)
  {
    EscapeLength(v);
    if !NeedsEscape(v) {
      UnchangedWithoutEscape(v);
    }
  }

  // ---------------------------------------------------------------------------------------------
  // Which bytes are escaped
  // ---------------------------------------------------------------------------------------------

  /** There is a backslash before three digits somewhere. */
  predicate HoldsLook(v: seq<Byte>) {
    exists k :: 0 <= k < |v| && LooksEscaped(v[k..])
  }

  /** After its first byte, a sequence holds no byte that is below 0x80 or that starts a sequence. */
  lemma Continuing(v: seq<Byte>, k: nat)
    requires v != [] && 0 < k < SequenceLength(v)
    ensures 0x80 <= v[k] && SequenceLength(v[k..]) == 0 && !LooksEscaped(v[k..])
  {
  }

  lemma HoldsLookAfter(v: seq<Byte>, n: nat)
    requires v != [] && n == SequenceLength(v) > 0 && !LooksEscaped(v)
    ensures HoldsLook(v) <==> HoldsLook(v[n..])
  {
    hide SequenceLength, LooksEscaped;
    assert v[0..] == v;
    if HoldsLook(v) {
      var k :| 0 <= k < |v| && LooksEscaped(v[k..]);
      if n <= k {
        assert v[n..][k - n..] == v[k..];
      } else {
        Continuing(v, k);
      }
    }
    if HoldsLook(v[n..]) {
      var k :| 0 <= k < |v[n..]| && LooksEscaped(v[n..][k..]);
      assert v[n..][k..] == v[n + k..];
    }
  }

  /** A value needs an escape exactly if it is not UTF-8 or holds a backslash before three digits. */
  lemma {:induction false} NeedsEscapeIff(v: seq<Byte>)
    ensures NeedsEscape(v) <==> !IsUtf8(v) || HoldsLook(v)
  {
    if v != [] {
      hide SequenceLength, LooksEscaped;
      assert v[0..] == v;
      if !EscapesFirst(v) {
        NeedsEscapeIff(v[SequenceLength(v)..]);
        HoldsLookAfter(v, SequenceLength(v));
      }
    }
  }

  /** Some well-formed sequence holds the byte. */
  predicate InSequence(v: seq<Byte>, k: nat)
    requires k < |v|
  {
    exists j :: 0 <= j <= k && k < j + SequenceLength(v[j..])
  }

  /** `v` from `k` on: each byte as it is, except that one in no well-formed sequence, and a backslash before three
      digits, is written by its number. */
  function Spelled(v: seq<Byte>, k: nat): seq<Byte>
    requires k <= |v|
    decreases |v| - k
  {
    if k == |v| then []
    else (if !InSequence(v, k) || LooksEscaped(v[k..]) then DecimalEscape(v[k]) else [v[k]]) + Spelled(v, k + 1)
  }

  /** No sequence that starts before `i` reaches beyond it. */
  predicate Between(v: seq<Byte>, i: nat) {
    forall j | 0 <= j < i && j < |v| :: j + SequenceLength(v[j..]) <= i
  }

  lemma BetweenNext(v: seq<Byte>, i: nat, n: nat)
    requires i < |v| && Between(v, i) && 0 < n && (n == 1 || n == SequenceLength(v[i..])) && SequenceLength(v[i..]) <= n
    ensures i + n <= |v| && Between(v, i + n)
  {
    hide SequenceLength;
    forall j | 0 <= j < i + n && j < |v| ensures j + SequenceLength(v[j..]) <= i + n {
      if i < j {
        Continuing(v[i..], j - i);
        assert v[i..][j - i..] == v[j..];
      }
    }
  }

  predicate Plain(v: seq<Byte>, k: nat)
    requires k < |v|
  {
    InSequence(v, k) && !LooksEscaped(v[k..])
  }

  /** The bytes of a sequence are plain. */
  lemma PlainInside(v: seq<Byte>, i: nat, k: nat)
    requires i <= k < |v| && k < i + SequenceLength(v[i..]) && !LooksEscaped(v[i..])
    ensures Plain(v, k)
  {
    hide SequenceLength, LooksEscaped;
    if i < k {
      Continuing(v[i..], k - i);
      assert v[i..][k - i..] == v[k..];
    }
  }

  lemma SpelledOne(v: seq<Byte>, k: nat)
    requires k < |v| && Plain(v, k)
    ensures Spelled(v, k) == [v[k]] + Spelled(v, k + 1)
  {
    hide InSequence, LooksEscaped;
  }

  lemma {:induction false} SpelledPlain(v: seq<Byte>, k: nat, e: nat)
    requires k <= e <= |v| && forall p | k <= p < e :: Plain(v, p)
    ensures Spelled(v, k) == v[k..e] + Spelled(v, e)
    decreases e - k
  {
    hide Spelled, Plain;
    if k == e {
      assert v[k..e] == [];
    } else {
      SpelledOne(v, k);
      SpelledPlain(v, k + 1, e);
      assert v[k..e] == [v[k]] + v[k + 1..e];
    }
  }

  /** What escaping writes, byte by byte. */
  lemma {:induction false} EscapeIsSpelled(v: seq<Byte>, i: nat)
    requires i <= |v| && Between(v, i)
    ensures Escape(v[i..]) == Spelled(v, i)
    decreases |v| - i
  {
    hide SequenceLength, LooksEscaped, DecimalEscape, Between, Plain, InSequence;
    if i < |v| {
      var rest := v[i..];
      var n := SequenceLength(rest);
      if EscapesFirst(rest) {
        OneByte(rest);
        BetweenNext(v, i, 1);
        EscapeIsSpelled(v, i + 1);
        assert rest[1..] == v[i + 1..];
        if n == 0 {
          NotInSequence(v, i);
        }
      } else {
        BetweenNext(v, i, n);
        EscapeIsSpelled(v, i + n);
        assert rest[n..] == v[i + n..] && rest[..n] == v[i..i + n];
        forall p | i <= p < i + n ensures Plain(v, p) {
          PlainInside(v, i, p);
        }
        SpelledPlain(v, i, i + n);
      }
    }
  }

  lemma OneByte(v: seq<Byte>)
    requires v != [] && EscapesFirst(v)
    ensures SequenceLength(v) <= 1
  {
  }

  lemma NotInSequence(v: seq<Byte>, i: nat)
    requires i < |v| && Between(v, i) && SequenceLength(v[i..]) == 0
    ensures !InSequence(v, i)
  {
    hide SequenceLength;
  }

  // ---------------------------------------------------------------------------------------------
  // The scans
  // ---------------------------------------------------------------------------------------------

  method Utf8SequenceLength(value: seq<Byte>, i: nat) returns (n: nat)
    requires i < |value|
    ensures n == SequenceLength(value[i..])
  {
    var lead := value[i];
    if lead < 0x80 {
      return 1;
    }
    var len: nat;
    var lo, hi := 0x80, 0xBF;
    if lead >= 0xC2 && lead <= 0xDF {
      len := 2;
    } else if lead >= 0xE0 && lead <= 0xEF {
      len := 3;
      lo := if lead == 0xE0 then 0xA0 else 0x80;
      hi := if lead == 0xED then 0x9F else 0xBF;
    } else if lead >= 0xF0 && lead <= 0xF4 {
      len := 4;
      lo := if lead == 0xF0 then 0x90 else 0x80;
      hi := if lead == 0xF4 then 0x8F else 0xBF;
    } else {
      return 0;
    }
    if |value| - i < len {
      return 0;
    }
    var second := value[i + 1];
    if second < lo || second > hi {
      return 0;
    }
    var k := 2;
    while k < len
      invariant 2 <= k <= len && forall j | i + 2 <= j < i + k :: Continues(value[j])
    {
      var next := value[i + k];
      if next < 0x80 || next > 0xBF {
        return 0;
      }
      k := k + 1;
    }
    return len;
  }

  method IsUtf8Value(value: seq<Byte>) returns (r: bool)
    ensures r <==> IsUtf8(value)
  {
    hide SequenceLength;
    var i := 0;
    while i < |value|
      invariant i <= |value| && (IsUtf8(value) <==> IsUtf8(value[i..]))
    {
      var n := Utf8SequenceLength(value, i);
      if n == 0 {
        return false;
      }
      assert value[i..][n..] == value[i + n..];
      i := i + n;
    }
    return true;
  }

  method LabelValueNeedsEscape(value: seq<Byte>) returns (r: bool)
    ensures r <==> NeedsEscape(value)
    ensures r <==> !IsUtf8(value) || HoldsLook(value)
  {
    hide SequenceLength, IsUtf8, HoldsLook;
    NeedsEscapeIff(value);
    var i := 0;
    while i < |value|
      invariant i <= |value| && (NeedsEscape(value) <==> NeedsEscape(value[i..]))
    {
      var n := Utf8SequenceLength(value, i);
      if n == 0 || LooksEscaped(value[i..]) {
        return true;
      }
      assert value[i..][n..] == value[i + n..];
      i := i + n;
    }
    return false;
  }

  /** One turn of the escaping loop: what is written for the `n` bytes at `i`. */
  method EscapeNext(value: seq<Byte>, i: nat) returns (piece: seq<Byte>, n: nat)
    requires i < |value|
    ensures 0 < n && i + n <= |value| && Escape(value[i..]) == piece + Escape(value[i + n..])
  {
    ghost var rest := value[i..];
    var len := Utf8SequenceLength(value, i);
    if LooksEscaped(value[i..]) {
      piece, n := [BACKSLASH, 48, 57, 50], 1;
      assert piece == DecimalEscape(BACKSLASH);
    } else if len > 0 {
      piece, n := value[i..i + len], len;
      assert rest[..n] == piece;
    } else {
      piece, n := DecimalEscape(value[i]), 1;
    }
    assert rest[n..] == value[i + n..];
  }

  lemma EscapeNothing()
    ensures Escape([]) == []
  {
  }

  method Utf8LabelValue(value: seq<Byte>) returns (out: seq<Byte>)
    ensures out == Escape(value) == Spelled(value, 0) && IsUtf8(out) && Unescape(out) == value
    ensures out != value <==> !IsUtf8(value) || HoldsLook(value)
  {
    hide Escape, Unescape, IsUtf8, NeedsEscape, Spelled, HoldsLook;
    EscapeIsSpelled(value, 0);
    NeedsEscapeIff(value);
    assert value[0..] == value;
    RoundTrip(value);
    EscapeIsUtf8(value);
    ChangedIff(value);
    var needs := LabelValueNeedsEscape(value);
    if !needs {
      return value;
    }
    out := [];
    var i := 0;
    EscapeNothing();
    while i < |value|
      invariant i <= |value| && out + Escape(value[i..]) == Escape(value)
    {
      var piece, n := EscapeNext(value, i);
      assert out + (piece + Escape(value[i + n..])) == out + piece + Escape(value[i + n..]);
      out := out + piece;
      i := i + n;
    }
    assert value[i..] == [] && out + [] == out;
  }
}
