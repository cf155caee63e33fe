/** UTF-8 as in section 3 of RFC 3629: the strict encoder and decoder. */
module Utf8 {
  import opened PyValues

  type Byte = b: int | 0 <= b < 0x100

  type Bytes = seq<Byte>

  predicate Scalar(cp: int) {
    0 <= cp < 0xD800 || 0xE000 <= cp < 0x11_0000
  }

  function EncodeChar(c: char): (r: Bytes)
    ensures 1 <= |r| <= 4
    ensures !Continuation(r[0])
    ensures forall i :: 1 <= i < |r| ==> Continuation(r[i])
  {
    var cp := c as int;
    if cp < 0x80 then [cp]
    else if cp < 0x800 then [0xC0 + cp / 0x40, 0x80 + cp % 0x40]
    else if cp < 0x1_0000 then [0xE0 + cp / 0x1000, 0x80 + cp / 0x40 % 0x40, 0x80 + cp % 0x40]
    else [0xF0 + cp / 0x4_0000, 0x80 + cp / 0x1000 % 0x40, 0x80 + cp / 0x40 % 0x40, 0x80 + cp % 0x40]
  }

  predicate Continuation(b: Byte) {
    0x80 <= b < 0xC0
  }

  function Encode(s: string): Bytes {
    if s == "" then [] else EncodeChar(s[0]) + Encode(s[1..])
  }

  function ByteLen(s: string): nat {
    |Encode(s)|
  }

  /** How many bytes the sequence that starts with this byte takes; 0 when none does. */
  function LengthOf(lead: Byte): (n: nat)
    ensures n <= 4
  {
    if lead < 0x80 then 1
    else if 0xC2 <= lead <= 0xDF then 2
    else if 0xE0 <= lead <= 0xEF then 3
    else if 0xF0 <= lead <= 0xF4 then 4
    else 0
  }

  function CodePoint(bs: Bytes): int
    requires |bs| >= 1 && LengthOf(bs[0]) == |bs|
  {
    var b := (i: int) requires 0 <= i < |bs| => bs[i] as int;
    if |bs| == 1 then b(0)
    else if |bs| == 2 then (b(0) - 0xC0) * 0x40 + (b(1) - 0x80)
    else if |bs| == 3 then (b(0) - 0xE0) * 0x1000 + (b(1) - 0x80) * 0x40 + (b(2) - 0x80)
    else (b(0) - 0xF0) * 0x4_0000 + (b(1) - 0x80) * 0x1000 + (b(2) - 0x80) * 0x40 + (b(3) - 0x80)
  }

  /** Overlong forms and surrogates are refused. */
  predicate WellFormed(bs: Bytes) {
    && |bs| >= 1 && LengthOf(bs[0]) == |bs|
    && (forall i :: 1 <= i < |bs| ==> Continuation(bs[i]))
    && Scalar(CodePoint(bs))
    && (|bs| == 3 ==> CodePoint(bs) >= 0x800)
    && (|bs| == 4 ==> CodePoint(bs) >= 0x1_0000)
  }

  /** `bytes.decode("utf-8")`; None when it raises. */
  function Decode(bs: Bytes): Option<string> {
    if bs == [] then Some("")
    else
      var n := LengthOf(bs[0]);
      if n == 0 || n > |bs| || !WellFormed(bs[..n]) then None
      else match Decode(bs[n..])
        case None => None
        case Some(rest) => Some([CodePoint(bs[..n]) as char] + rest)
  }

  lemma EncodeCharIsWellFormed(c: char)
    ensures WellFormed(EncodeChar(c)) && CodePoint(EncodeChar(c)) == c as int
  {
    var cp := c as int;
    assert cp == cp / 0x40 * 0x40 + cp % 0x40;
    if cp >= 0x800 {
      assert cp / 0x40 == cp / 0x1000 * 0x40 + cp / 0x40 % 0x40;
      if cp >= 0x1_0000 {
        assert cp / 0x1000 == cp / 0x4_0000 * 0x40 + cp / 0x1000 % 0x40;
      }
    }
  }

  /** The six-bit digits of a number built from six-bit digits. */
  lemma Digits(a: nat, b: nat, c: nat, d: nat)
    requires b < 0x40 && c < 0x40 && d < 0x40
    ensures var n := a * 0x4_0000 + b * 0x1000 + c * 0x40 + d;
            n / 0x4_0000 == a && n / 0x1000 % 0x40 == b && n / 0x40 % 0x40 == c && n % 0x40 == d
            && n / 0x1000 == a * 0x40 + b && n / 0x40 == a * 0x1000 + b * 0x40 + c
  {
  }

  lemma TwoBytes(a: Byte, b: Byte)
    requires 0xC2 <= a <= 0xDF && Continuation(b)
    ensures EncodeChar(((a - 0xC0) * 0x40 + (b - 0x80)) as char) == [a, b]
  {
    Digits(0, 0, a - 0xC0, b - 0x80);
  }

  lemma ThreeBytes(a: Byte, b: Byte, c: Byte)
    requires 0xE0 <= a <= 0xEF && Continuation(b) && Continuation(c)
    requires var cp := (a - 0xE0) * 0x1000 + (b - 0x80) * 0x40 + (c - 0x80); cp >= 0x800 && Scalar(cp)
    ensures EncodeChar(((a - 0xE0) * 0x1000 + (b - 0x80) * 0x40 + (c - 0x80)) as char) == [a, b, c]
  {
    Digits(0, a - 0xE0, b - 0x80, c - 0x80);
  }

  lemma FourBytes(a: Byte, b: Byte, c: Byte, d: Byte)
    requires 0xF0 <= a <= 0xF4 && Continuation(b) && Continuation(c) && Continuation(d)
    requires var cp := (a - 0xF0) * 0x4_0000 + (b - 0x80) * 0x1000 + (c - 0x80) * 0x40 + (d - 0x80);
             cp >= 0x1_0000 && Scalar(cp)
    ensures EncodeChar(((a - 0xF0) * 0x4_0000 + (b - 0x80) * 0x1000 + (c - 0x80) * 0x40 + (d - 0x80)) as char)
            == [a, b, c, d]
  {
    Digits(a - 0xF0, b - 0x80, c - 0x80, d - 0x80);
  }

  lemma WellFormedIsEncoded(bs: Bytes)
    requires WellFormed(bs)
    ensures EncodeChar(CodePoint(bs) as char) == bs
  {
    assert forall i :: 1 <= i < |bs| ==> Continuation(bs[i]);
    if |bs| == 1 {
    } else {
      hide EncodeChar, Scalar;
      if |bs| == 2 {
        TwoBytes(bs[0], bs[1]);
      } else if |bs| == 3 {
        ThreeBytes(bs[0], bs[1], bs[2]);
      } else {
        FourBytes(bs[0], bs[1], bs[2], bs[3]);
      }
    }
  }

  /** Decoding undoes encoding. */
  lemma {:induction false} DecodeEncode(s: string)
    ensures Decode(Encode(s)) == Some(s)
  {
    hide CodePoint, Scalar;
    if s == "" {
    } else {
      var first := EncodeChar(s[0]);
      EncodeCharIsWellFormed(s[0]);
      DecodeEncode(s[1..]);
      assert Encode(s)[0] == first[0] && LengthOf(first[0]) == |first|;
      assert [CodePoint(first) as char] + s[1..] == s;
      assert Encode(s)[..|first|] == first;
      assert Encode(s)[|first|..] == Encode(s[1..]);
    }
  }

  /** Only encoded text decodes: the encoder and the strict decoder are inverse to each other. */
  lemma {:induction false} EncodeDecode(bs: Bytes)
    requires Decode(bs).Some?
    ensures Encode(Decode(bs).value) == bs
  {
    hide CodePoint, Scalar, EncodeChar, WellFormed;
    if bs == [] {
    } else {
      var n := LengthOf(bs[0]);
      EncodeDecode(bs[n..]);
      WellFormedIsEncoded(bs[..n]);
      assert bs == bs[..n] + bs[n..];
    }
  }

  lemma {:induction false} EncodeConcat(a: string, b: string)
    ensures Encode(a + b) == Encode(a) + Encode(b)
  {
    if a == "" {
      assert a + b == b;
    } else {
      assert (a + b)[1..] == a[1..] + b;
      EncodeConcat(a[1..], b);
    }
  }

  /** Cutting the text at characters is cutting its bytes at the prefix lengths. */
  lemma EncodeSlice(s: string, i: nat, j: nat)
    requires i <= j <= |s|
    ensures ByteLen(s[..i]) <= ByteLen(s[..j]) <= ByteLen(s)
    ensures ByteLen(s[..j]) == ByteLen(s[..i]) + ByteLen(s[i..j])
    ensures Encode(s)[ByteLen(s[..i])..ByteLen(s[..j])] == Encode(s[i..j])
  {
    EncodeConcat(s[..i], s[i..j]);
    EncodeConcat(s[..j], s[j..]);
    assert s[..i] + s[i..j] == s[..j];
    assert s[..j] + s[j..] == s;
  }

  lemma PrefixGrows(s: string, i: nat, j: nat)
    requires i < j <= |s|
    ensures ByteLen(s[..i]) < ByteLen(s[..j])
  {
    EncodeSlice(s, i, j);
    assert s[i..j] != "";
  }

  /** UTF-8 is a prefix code: encoded text inside encoded text, from its first byte, is text. */
  lemma {:induction false} PrefixCode(t: string, s: string)
    requires Encode(t) <= Encode(s)
    ensures t <= s
  {
    hide CodePoint, Scalar, EncodeChar, Continuation;
    if t == "" {
    } else {
      var et, es := EncodeChar(t[0]), EncodeChar(s[0]);
      EncodeCharIsWellFormed(t[0]);
      EncodeCharIsWellFormed(s[0]);
      assert et[0] == Encode(t)[0] == Encode(s)[0] == es[0];
      assert |et| == |es|;
      assert et == Encode(t)[..|et|] == Encode(s)[..|et|] == es;
      assert Encode(t)[|et|..] == Encode(t[1..]) && Encode(s)[|et|..] == Encode(s[1..]);
      PrefixCode(t[1..], s[1..]);
      assert t == [t[0]] + t[1..] && s == [s[0]] + s[1..];
    }
  }

  /** UTF-8 synchronises itself: a position whose byte is not a continuation is a prefix length. */
  lemma {:induction false} LeadBytePosition(s: string, a: nat) returns (i: nat)
    requires a < ByteLen(s) && !Continuation(Encode(s)[a])
    ensures i < |s| && ByteLen(s[..i]) == a
  {
    var first := EncodeChar(s[0]);
    if a == 0 {
      i := 0;
    } else {
      assert a >= |first|;
      assert Encode(s)[a] == Encode(s[1..])[a - |first|];
      var k := LeadBytePosition(s[1..], a - |first|);
      i := k + 1;
      assert s[..i][1..] == s[1..][..k];
    }
  }

  /** A slice of encoded text that decodes at all is a run of the text's characters. */
  lemma DecodedSliceIsText(s: string, a: nat, b: nat) returns (i: nat, j: nat)
    requires a < b <= ByteLen(s) && Decode(Encode(s)[a..b]).Some?
    ensures i < j <= |s| && ByteLen(s[..i]) == a && ByteLen(s[..j]) == b
    ensures Decode(Encode(s)[a..b]) == Some(s[i..j])
  {
    hide EncodeChar, WellFormed;
    var slice := Encode(s)[a..b];
    var t := Decode(slice).value;
    EncodeDecode(slice);
    assert slice[0] == EncodeChar(t[0])[0];
    i := LeadBytePosition(s, a);
    EncodeSlice(s, i, |s|);
    assert s[..|s|] == s;
    assert Encode(s)[a..] == Encode(s[i..]);
    assert Encode(t) == Encode(s[i..])[..b - a];
    PrefixCode(t, s[i..]);
    j := i + |t|;
    assert s[i..j] == t;
    EncodeSlice(s, i, j);
  }
}
