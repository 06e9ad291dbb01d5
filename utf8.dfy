/**
 * Byte buffers and the two decodings the scripts apply to them:
 * `bytes.decode('utf-8')` (strict, RFC 3629) and `bytes.decode('ascii')`.
 * Both are partial: a buffer that is not well formed decodes to `None`,
 * where Python raises `UnicodeDecodeError`.
 */
module Utf8 {
  import opened Wrappers

  /** One byte of a buffer, as Python's `bytes` indexing yields it. */
  type Byte = x: int | 0 <= x < 0x100

  /** The line-feed byte `\n` that delimits records in the media index. */
  const NewLine: Byte := 10

  /** A UTF-8 continuation byte `10xxxxxx`. */
  predicate IsCont(b: Byte) { 0x80 <= b < 0xC0 }

  /**
   * Decodes the scalar value at the head of `b`, returning it with the number
   * of bytes it occupies. Exactly the well-formed sequences of the table in
   * section 4 of RFC 3629 are accepted: no overlong forms, no surrogates,
   * nothing above U+10FFFF.
   */
  function DecodeFirst(b: seq<Byte>): (r: Option<(char, nat)>)
    ensures r.Some? ==> 1 <= r.value.1 <= 4 && r.value.1 <= |b|
  {
    if |b| == 0 then None
    else
      var b0 := b[0] as int;
      if b0 < 0x80 then Some((b0 as char, 1))
      else if 0xC2 <= b0 <= 0xDF then
        if |b| >= 2 && IsCont(b[1])
        then Some((((b0 - 0xC0) * 64 + (b[1] as int - 0x80)) as char, 2))
        else None
      else if 0xE0 <= b0 <= 0xEF then
        var lo := if b0 == 0xE0 then 0xA0 else 0x80;
        var hi := if b0 == 0xED then 0x9F else 0xBF;
        if |b| >= 3 && lo <= b[1] <= hi && IsCont(b[2])
        then Some(((Scalar3(b0, b[1], b[2])) as char, 3))
        else None
      else if 0xF0 <= b0 <= 0xF4 then
        var lo := if b0 == 0xF0 then 0x90 else 0x80;
        var hi := if b0 == 0xF4 then 0x8F else 0xBF;
        if |b| >= 4 && lo <= b[1] <= hi && IsCont(b[2]) && IsCont(b[3])
        then Some(((Scalar4(b0, b[1], b[2], b[3])) as char, 4))
        else None
      else None
  }

  /** The scalar value carried by a three-byte sequence. */
  function Scalar3(b0: int, b1: int, b2: int): int
  {
    (b0 - 0xE0) * 4096 + (b1 - 0x80) * 64 + (b2 - 0x80)
  }

  /** The scalar value carried by a four-byte sequence. */
  function Scalar4(b0: int, b1: int, b2: int, b3: int): int
  {
    (b0 - 0xF0) * 262144 + (b1 - 0x80) * 4096 + (b2 - 0x80) * 64 + (b3 - 0x80)
  }

  /** Strict UTF-8 decoding of a whole buffer: `None` where Python raises. */
  function Decode(b: seq<Byte>): (r: Option<string>)
    ensures r.Some? ==> |r.value| <= |b|
    decreases |b|
  {
    if |b| == 0 then Some("")
    else match DecodeFirst(b)
      case None => None
      case Some((c, k)) =>
        match Decode(b[k..])
        case None => None
        case Some(s) => Some([c] + s)
  }

  /** The UTF-8 form of one scalar value (RFC 3629 section 3). */
  function EncodeChar(c: char): (r: seq<Byte>)
    ensures 1 <= |r| <= 4
  {
    var v := c as int;
    if v < 0x80 then [v]
    else if v < 0x800 then [0xC0 + v / 64, 0x80 + v % 64]
    else if v < 0x10000 then [0xE0 + v / 4096, 0x80 + (v / 64) % 64, 0x80 + v % 64]
    else [0xF0 + v / 262144, 0x80 + (v / 4096) % 64, 0x80 + (v / 64) % 64, 0x80 + v % 64]
  }

  /** The UTF-8 form of a string: the partner of `Decode`. */
  function Encode(s: string): seq<Byte>
  {
    if s == [] then [] else EncodeChar(s[0]) + Encode(s[1..])
  }

  /** Strict ASCII decoding: every byte below 0x80, else `None`. */
  function AsciiDecode(b: seq<Byte>): (r: Option<string>)
    ensures r.Some? <==> forall i :: 0 <= i < |b| ==> b[i] < 0x80
    ensures r.Some? ==> |r.value| == |b| && forall i :: 0 <= i < |b| ==> r.value[i] as int == b[i]
  {
    if forall i :: 0 <= i < |b| ==> b[i] < 0x80
    then Some(seq(|b|, i requires 0 <= i < |b| => b[i] as char))
    else None
  }

  /** The first scalar value of an encoding decodes back, consuming exactly its bytes. */
  lemma DecodeFirstEncodeChar(c: char, rest: seq<Byte>)
    ensures DecodeFirst(EncodeChar(c) + rest) == Some((c, |EncodeChar(c)|))
  {
    var v := c as int;
    if v < 0x80 {
    } else if v < 0x800 {
      DecodeFirstEncode2(c, rest);
    } else if v < 0x10000 {
      DecodeFirstEncode3(c, rest);
    } else {
      DecodeFirstEncode4(c, rest);
    }
  }

  lemma DecodeFirstEncode2(c: char, rest: seq<Byte>)
    requires 0x80 <= c as int < 0x800
    ensures DecodeFirst(EncodeChar(c) + rest) == Some((c, 2))
  {
    var v := c as int;
    var e := EncodeChar(c) + rest;
    assert e[0] as int == 0xC0 + v / 64 && e[1] as int == 0x80 + v % 64;
    assert v == (v / 64) * 64 + v % 64;
  }

  lemma DecodeFirstEncode3(c: char, rest: seq<Byte>)
    requires 0x800 <= c as int < 0x10000
    ensures DecodeFirst(EncodeChar(c) + rest) == Some((c, 3))
  {
    var v := c as int;
    var e := EncodeChar(c) + rest;
    var q, r1, r0 := v / 4096, (v / 64) % 64, v % 64;
    assert v / 64 == q * 64 + r1;
    assert v == (v / 64) * 64 + r0;
    assert v == q * 4096 + r1 * 64 + r0;
    assert e[0] as int == 0xE0 + q && e[1] as int == 0x80 + r1 && e[2] as int == 0x80 + r0;
    assert Scalar3(e[0], e[1], e[2]) == v;
  }

  lemma DecodeFirstEncode4(c: char, rest: seq<Byte>)
    requires 0x10000 <= c as int
    ensures DecodeFirst(EncodeChar(c) + rest) == Some((c, 4))
  {
    var v := c as int;
    var e := EncodeChar(c) + rest;
    Digits4(v);
    assert e[0] as int == 0xF0 + v / 262144 && e[1] as int == 0x80 + (v / 4096) % 64;
    assert e[2] as int == 0x80 + (v / 64) % 64 && e[3] as int == 0x80 + v % 64;
  }

  /** A scalar value above the BMP in four base-64 digits, the lead one at most 4. */
  lemma Digits4(v: int)
    requires 0x10000 <= v < 0x110000
    ensures v / 262144 <= 4
    ensures v / 262144 == 0 ==> (v / 4096) % 64 >= 0x10
    ensures v / 262144 == 4 ==> (v / 4096) % 64 < 0x10
    ensures Scalar4(0xF0 + v / 262144, 0x80 + (v / 4096) % 64, 0x80 + (v / 64) % 64, 0x80 + v % 64) == v
  {
    var q, r2, r1, r0 := v / 262144, (v / 4096) % 64, (v / 64) % 64, v % 64;
    assert v / 4096 == q * 64 + r2;
    assert v / 64 == (v / 4096) * 64 + r1;
    assert v == (v / 64) * 64 + r0;
    assert v == q * 262144 + r2 * 4096 + r1 * 64 + r0;
  }

  /** Whatever `DecodeFirst` accepts is the encoding of the scalar value it returns. */
  lemma EncodeCharDecodeFirst(b: seq<Byte>)
    requires DecodeFirst(b).Some?
    ensures EncodeChar(DecodeFirst(b).value.0) == b[..DecodeFirst(b).value.1]
  {
    var b0 := b[0] as int;
    if b0 < 0x80 {
    } else if b0 <= 0xDF {
      EncodeChar2(b0, b[1]);
    } else if b0 <= 0xEF {
      EncodeChar3(b0, b[1], b[2]);
    } else {
      EncodeChar4(b0, b[1], b[2], b[3]);
    }
  }

  lemma EncodeChar2(b0: int, b1: int)
    requires 0xC2 <= b0 <= 0xDF && 0x80 <= b1 < 0xC0
    ensures var v := (b0 - 0xC0) * 64 + (b1 - 0x80);
      0x80 <= v < 0x800 && v / 64 == b0 - 0xC0 && v % 64 == b1 - 0x80
  {
  }

  lemma EncodeChar3(b0: int, b1: int, b2: int)
    requires 0xE0 <= b0 <= 0xEF && 0x80 <= b1 < 0xC0 && 0x80 <= b2 < 0xC0
    requires b0 == 0xE0 ==> b1 >= 0xA0
    ensures var v := Scalar3(b0, b1, b2);
      0x800 <= v < 0x10000 && v / 4096 == b0 - 0xE0 && (v / 64) % 64 == b1 - 0x80 && v % 64 == b2 - 0x80
  {
    var v := Scalar3(b0, b1, b2);
    assert v / 64 == (b0 - 0xE0) * 64 + (b1 - 0x80);
  }

  lemma EncodeChar4(b0: int, b1: int, b2: int, b3: int)
    requires 0xF0 <= b0 <= 0xF4 && 0x80 <= b1 < 0xC0 && 0x80 <= b2 < 0xC0 && 0x80 <= b3 < 0xC0
    requires b0 == 0xF0 ==> b1 >= 0x90
    ensures var v := Scalar4(b0, b1, b2, b3);
      0x10000 <= v && v / 262144 == b0 - 0xF0 && (v / 4096) % 64 == b1 - 0x80
      && (v / 64) % 64 == b2 - 0x80 && v % 64 == b3 - 0x80
  {
    var v := Scalar4(b0, b1, b2, b3);
    assert v / 64 == (b0 - 0xF0) * 4096 + (b1 - 0x80) * 64 + (b2 - 0x80);
    assert v / 4096 == (b0 - 0xF0) * 64 + (b1 - 0x80);
  }

  lemma {:induction false} EncodeAppend(s: string, t: string)
    ensures Encode(s + t) == Encode(s) + Encode(t)
  {
    if s != [] {
      assert s + t == [s[0]] + (s[1..] + t);
      EncodeCons(s[0], s[1..] + t);
      EncodeAppend(s[1..], t);
      assert Encode(s) == EncodeChar(s[0]) + Encode(s[1..]);
    } else {
      assert s + t == t;
    }
  }

  /** Round trip: every string decodes back from its encoding. */
  lemma {:induction false} DecodeEncode(s: string)
    ensures Decode(Encode(s)) == Some(s)
  {
    if s != [] {
      var e := EncodeChar(s[0]);
      DecodeFirstEncodeChar(s[0], Encode(s[1..]));
      assert (e + Encode(s[1..]))[|e|..] == Encode(s[1..]);
      DecodeEncode(s[1..]);
      assert [s[0]] + s[1..] == s;
    }
  }

  /** Round trip the other way: a buffer that decodes is the encoding of what it decodes to. */
  lemma {:induction false} EncodeDecode(b: seq<Byte>)
    requires Decode(b).Some?
    ensures Encode(Decode(b).value) == b
    decreases |b|
  {
    if |b| > 0 {
      var (c, k) := DecodeFirst(b).value;
      var rest := b[k..];
      EncodeCharDecodeFirst(b);
      DecodeCons(b);
      EncodeDecode(rest);
      var t := Decode(rest).value;
      EncodeCons(c, t);
      SplitJoin(b, k);
    }
  }

  /** A buffer is its prefix followed by its suffix. */
  lemma SplitJoin(b: seq<Byte>, k: nat)
    requires k <= |b|
    ensures b[..k] + b[k..] == b
  {
  }

  /** A non-empty buffer decodes to its first character followed by the decoding of the rest. */
  lemma DecodeCons(b: seq<Byte>)
    requires |b| > 0 && Decode(b).Some?
    ensures DecodeFirst(b).Some?
    ensures var k := DecodeFirst(b).value.1;
      Decode(b[k..]).Some? && Decode(b).value == [DecodeFirst(b).value.0] + Decode(b[k..]).value
  {
  }

  /** Encoding a character in front of a text. */
  lemma EncodeCons(c: char, s: string)
    ensures Encode([c] + s) == EncodeChar(c) + Encode(s)
  {
    assert ([c] + s)[1..] == s;
  }

  /** Decoding is injective: two buffers that decode to the same text are equal. */
  lemma DecodeInjective(a: seq<Byte>, b: seq<Byte>)
    requires Decode(a).Some? && Decode(a) == Decode(b)
    ensures a == b
  {
    EncodeDecode(a);
    EncodeDecode(b);
  }

  /** Decoding distributes over concatenation of well-formed buffers. */
  lemma DecodeAppend(a: seq<Byte>, b: seq<Byte>)
    requires Decode(a).Some? && Decode(b).Some?
    ensures Decode(a + b) == Some(Decode(a).value + Decode(b).value)
  {
    var s, t := Decode(a).value, Decode(b).value;
    EncodeDecode(a);
    EncodeDecode(b);
    EncodeAppend(s, t);
    DecodeEncode(s + t);
  }

  /** ASCII is a subset of UTF-8: what decodes as ASCII decodes the same way as UTF-8. */
  lemma {:induction false} AsciiIsUtf8(b: seq<Byte>)
    requires AsciiDecode(b).Some?
    ensures Decode(b) == AsciiDecode(b)
    decreases |b|
  {
    if |b| > 0 {
      AsciiIsUtf8(b[1..]);
      assert AsciiDecode(b).value == [b[0] as char] + AsciiDecode(b[1..]).value;
    }
  }

  /** A buffer without a line-feed byte decodes to a text without a line feed. */
  lemma {:induction false} DecodeNoNewLine(b: seq<Byte>)
    requires Decode(b).Some?
    requires forall i :: 0 <= i < |b| ==> b[i] != NewLine
    ensures forall i :: 0 <= i < |Decode(b).value| ==> Decode(b).value[i] != '\n'
    decreases |b|
  {
    if |b| > 0 {
      var (c, k) := DecodeFirst(b).value;
      DecodeNoNewLine(b[k..]);
      assert Decode(b).value == [c] + Decode(b[k..]).value;
    }
  }

  /** The bytes after the first one of a decoded sequence are all continuation bytes, none of them ASCII. */
  lemma DecodeFirstTail(b: seq<Byte>)
    requires DecodeFirst(b).Some?
    ensures forall i :: 1 <= i < DecodeFirst(b).value.1 ==> b[i] >= 0x80
  {
  }

  /** Decoding the first scalar value reads only the bytes it occupies. */
  lemma DecodeFirstPrefix(b: seq<Byte>, p: seq<Byte>)
    requires DecodeFirst(b).Some? && DecodeFirst(b).value.1 <= |p| <= |b| && p == b[..|p|]
    ensures DecodeFirst(p) == DecodeFirst(b)
  {
  }

  /**
   * An ASCII tail decodes on its own: if `a + b` is UTF-8 and `b` is ASCII,
   * no sequence of `a` runs into `b`, and the text ends with `b`'s characters.
   */
  lemma {:induction false} DecodeAsciiSuffix(a: seq<Byte>, b: seq<Byte>)
    requires Decode(a + b).Some? && AsciiDecode(b).Some?
    ensures Decode(a).Some? && Decode(a + b).value == Decode(a).value + AsciiDecode(b).value
    decreases |a|
  {
    if a == [] {
      assert a + b == b;
      AsciiIsUtf8(b);
    } else {
      AsciiSuffixStep(a, b);
      DecodeAsciiSuffix(a[DecodeFirst(a).value.1..], b);
    }
  }

  /** The inductive step of `DecodeAsciiSuffix`: the first scalar value of `a + b` is that of `a`, and the rest carries the claim. */
  lemma AsciiSuffixStep(a: seq<Byte>, b: seq<Byte>)
    requires |a| > 0 && Decode(a + b).Some? && AsciiDecode(b).Some?
    ensures DecodeFirst(a).Some? && DecodeFirst(a).value.1 <= |a|
    ensures var k := DecodeFirst(a).value.1;
      && |a[k..]| < |a|
      && Decode(a[k..] + b).Some?
      && (Decode(a[k..]).Some? && Decode(a[k..] + b).value == Decode(a[k..]).value + AsciiDecode(b).value
          ==> Decode(a).Some? && Decode(a + b).value == Decode(a).value + AsciiDecode(b).value)
  {
    var ab := a + b;
    DecodeCons(ab);
    var k := DecodeFirst(ab).value.1;
    FirstBeforeAscii(a, b);
    AppendSlices(a, b, k);
    DecodeFirstPrefix(ab, a);
    if Decode(a[k..]).Some? {
      DecodeUnfold(a);
    }
  }

  /** The first scalar value of `a + b` ends inside `a` when `b` is ASCII: continuation bytes are never ASCII. */
  lemma FirstBeforeAscii(a: seq<Byte>, b: seq<Byte>)
    requires |a| > 0 && DecodeFirst(a + b).Some? && AsciiDecode(b).Some?
    ensures DecodeFirst(a + b).value.1 <= |a|
  {
    DecodeFirstTail(a + b);
  }

  /** Slicing a concatenation inside its first part. */
  lemma AppendSlices(a: seq<Byte>, b: seq<Byte>, k: nat)
    requires k <= |a|
    ensures (a + b)[..|a|] == a && (a + b)[k..] == a[k..] + b
  {
  }

  /** A first scalar value followed by a tail that decodes: the buffer decodes to both. */
  lemma DecodeUnfold(b: seq<Byte>)
    requires DecodeFirst(b).Some? && Decode(b[DecodeFirst(b).value.1..]).Some?
    ensures Decode(b) == Some([DecodeFirst(b).value.0] + Decode(b[DecodeFirst(b).value.1..]).value)
  {
  }
}
