/** Bytes and UTF-8, as Rust's `String`, `char::encode_utf8` and `String::from_utf8` use them
    (well-formedness is Table 3-7 of the Unicode Standard). */
module Utf8 {

  newtype byte = x: int | 0 <= x < 256

  /** A Rust `char`: a Unicode scalar value. */
  type Scalar = n: int | 0 <= n < 0xD800 || 0xE000 <= n < 0x11_0000

  predicate Tail(b: byte) {
    0x80 <= b < 0xC0
  }

  /** Length of the well-formed scalar that starts `s`, or 0 when none does. */
  function FirstLen(s: seq<byte>): (n: nat)
    ensures n <= 4 && n <= |s|
  {
    if |s| == 0 then 0
    else if s[0] < 0x80 then 1
    else if 0xC2 <= s[0] < 0xE0 then if |s| >= 2 && Tail(s[1]) then 2 else 0
    else if 0xE0 <= s[0] < 0xF0 then
      if && |s| >= 3 && Tail(s[1]) && Tail(s[2])
         && (s[0] == 0xE0 ==> s[1] >= 0xA0)
         && (s[0] == 0xED ==> s[1] < 0xA0)
      then 3 else 0
    else if 0xF0 <= s[0] < 0xF5 then
      if && |s| >= 4 && Tail(s[1]) && Tail(s[2]) && Tail(s[3])
         && (s[0] == 0xF0 ==> s[1] >= 0x90)
         && (s[0] == 0xF4 ==> s[1] < 0x90)
      then 4 else 0
    else 0
  }

  predicate ValidUtf8(s: seq<byte>)
    decreases |s|
  {
    s == [] || (FirstLen(s) > 0 && ValidUtf8(s[FirstLen(s)..]))
  }

  /** The scalar that starts `s`. */
  function FirstScalar(s: seq<byte>): Scalar
    requires FirstLen(s) > 0
  {
    var b0 := s[0] as int;
    match FirstLen(s)
    case 1 => b0
    case 2 => (b0 - 0xC0) * 64 + (s[1] as int - 0x80)
    case 3 => ((b0 - 0xE0) * 64 + (s[1] as int - 0x80)) * 64 + (s[2] as int - 0x80)
    case _ => (((b0 - 0xF0) * 64 + (s[1] as int - 0x80)) * 64 + (s[2] as int - 0x80)) * 64 + (s[3] as int - 0x80)
  }

  /** `char::encode_utf8`. */
  function EncodeScalar(c: Scalar): (s: seq<byte>)
    ensures 1 <= |s| <= 4
  {
    if c < 0x80 then [c as byte]
    else if c < 0x800 then [(0xC0 + c / 64) as byte, (0x80 + c % 64) as byte]
    else if c < 0x1_0000 then
      [(0xE0 + c / 64 / 64) as byte, (0x80 + c / 64 % 64) as byte, (0x80 + c % 64) as byte]
    else
      [(0xF0 + c / 64 / 64 / 64) as byte, (0x80 + c / 64 / 64 % 64) as byte, (0x80 + c / 64 % 64) as byte,
        (0x80 + c % 64) as byte]
  }

  /** Decoding undoes encoding, whatever follows the scalar. */
  lemma DecodeEncode(c: Scalar, rest: seq<byte>)
    ensures FirstLen(EncodeScalar(c) + rest) == |EncodeScalar(c)|
    ensures FirstScalar(EncodeScalar(c) + rest) == c
  {
    var e := EncodeScalar(c);
    var s := e + rest;
    assert forall i | 0 <= i < |e| :: s[i] == e[i];
    assert FirstLen(s) == |e| by { EncodeLen(c, s); }
    var q := c / 64;
    assert c == q * 64 + c % 64;
    var q2 := q / 64;
    assert q == q2 * 64 + q % 64;
    assert q2 == q2 / 64 * 64 + q2 % 64;
  }

  lemma EncodeLen(c: Scalar, s: seq<byte>)
    requires EncodeScalar(c) <= s
    ensures FirstLen(s) == |EncodeScalar(c)|
  {
    var e := EncodeScalar(c);
    assert forall i | 0 <= i < |e| :: s[i] == e[i];
    if c < 0x80 {
    } else if c < 0x800 {
      assert 2 <= c / 64 < 32;
    } else if c < 0x1_0000 {
      assert c / 64 / 64 == c / 4096;
    } else {
      assert c / 64 / 64 / 64 == c / 262144;
    }
  }

  lemma Horner(q: nat, r: nat)
    requires r < 64
    ensures (q * 64 + r) / 64 == q && (q * 64 + r) % 64 == r
  {
  }

  /** Encoding undoes decoding: no scalar has two well-formed spellings. */
  lemma EncodeDecode(s: seq<byte>)
    requires FirstLen(s) > 0
    ensures EncodeScalar(FirstScalar(s)) == s[..FirstLen(s)]
  {
    var n := FirstLen(s);
    var b0 := s[0] as int;
    if n == 2 {
      Horner(b0 - 0xC0, s[1] as int - 0x80);
    } else if n == 3 {
      EncodeDecode3(s);
    } else if n == 4 {
      EncodeDecode4(s);
    }
  }

  lemma EncodeDecode3(s: seq<byte>)
    requires FirstLen(s) == 3
    ensures EncodeScalar(FirstScalar(s)) == s[..3]
  {
    var q := (s[0] as int - 0xE0) * 64 + (s[1] as int - 0x80);
    Horner(s[0] as int - 0xE0, s[1] as int - 0x80);
    Horner(q, s[2] as int - 0x80);
  }

  lemma EncodeDecode4(s: seq<byte>)
    requires FirstLen(s) == 4
    ensures EncodeScalar(FirstScalar(s)) == s[..4]
  {
    var q := (s[0] as int - 0xF0) * 64 + (s[1] as int - 0x80);
    var q2 := q * 64 + (s[2] as int - 0x80);
    Horner(s[0] as int - 0xF0, s[1] as int - 0x80);
    Horner(q, s[2] as int - 0x80);
    Horner(q2, s[3] as int - 0x80);
  }

  lemma FirstLenPrefix(a: seq<byte>, b: seq<byte>)
    requires FirstLen(a) > 0
    ensures FirstLen(a + b) == FirstLen(a)
  {
    var s := a + b;
    assert forall i | 0 <= i < |a| :: s[i] == a[i];
  }

  /** Well-formedness composes: a well-formed prefix neither helps nor harms what follows it. */
  lemma {:induction false} ValidConcat(a: seq<byte>, b: seq<byte>)
    requires ValidUtf8(a)
    ensures ValidUtf8(a + b) <==> ValidUtf8(b)
    decreases |a|
  {
    if a == [] {
      assert a + b == b;
    } else {
      FirstLenPrefix(a, b);
      ValidConcat(a[FirstLen(a)..], b);
      assert (a + b)[FirstLen(a)..] == a[FirstLen(a)..] + b;
    }
  }

  lemma EncodeValid(c: Scalar)
    ensures ValidUtf8(EncodeScalar(c))
  {
    DecodeEncode(c, []);
    var s := EncodeScalar(c);
    assert s + [] == s;
    assert s[|s|..] == [];
  }

  lemma {:induction false} AsciiValid(s: seq<byte>)
    requires forall i | 0 <= i < |s| :: s[i] < 0x80
    ensures ValidUtf8(s)
    decreases |s|
  {
    if s != [] {
      AsciiValid(s[1..]);
    }
  }
}
