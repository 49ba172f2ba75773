/** Byte-level building blocks of the RMQ wire format: big-endian integers as
    written by Python's `int.to_bytes(size, 'big')` and `struct.pack('>I' / '>Q')`,
    the UTF-8 encoding of text, and the fixed-width `s` field of `struct`. */
module Wire {
  import opened Common

  type Byte = b: int | 0 <= b < 256

  function Pow256(n: nat): (r: nat)
    ensures r >= 1
  {
    if n == 0 then 1 else 256 * Pow256(n - 1)
  }

  /** The big-endian, `width`-byte representation of `v`. */
  function BigEndian(v: nat, width: nat): (r: seq<Byte>)
    requires v < Pow256(width)
    ensures |r| == width
  {
    if width == 0 then [] else BigEndian(v / 256, width - 1) + [v % 256]
  }

  /** The unsigned value of a big-endian byte string (`struct.unpack('>I')` and `'>Q'`). */
  function FromBigEndian(s: seq<Byte>): (r: nat)
    ensures r < Pow256(|s|)
  {
    if s == [] then 0 else FromBigEndian(s[..|s| - 1]) * 256 + s[|s| - 1]
  }

  lemma {:induction false} FromBigEndianOfBigEndian(v: nat, width: nat)
    requires v < Pow256(width)
    ensures FromBigEndian(BigEndian(v, width)) == v
  {
    if width > 0 {
      var r := BigEndian(v, width);
      FromBigEndianOfBigEndian(v / 256, width - 1);
      assert r[..|r| - 1] == BigEndian(v / 256, width - 1);
    }
  }

  lemma {:induction false} BigEndianOfFromBigEndian(s: seq<Byte>)
    ensures BigEndian(FromBigEndian(s), |s|) == s
  {
    if s != [] {
      var init := s[..|s| - 1];
      BigEndianOfFromBigEndian(init);
      assert FromBigEndian(s) / 256 == FromBigEndian(init);
      assert s == init + [s[|s| - 1]];
    }
  }

  /** `int.to_bytes(size, 'big')` and the packing of an unsigned `struct` field:
      `None` stands for the OverflowError (or struct.error) Python raises for a
      negative value or one that does not fit in `size` bytes. */
  function ToBytes(i: int, size: nat): (r: Option<seq<Byte>>)
    ensures r.Some? <==> 0 <= i < Pow256(size)
    ensures r.Some? ==> |r.value| == size && FromBigEndian(r.value) == i
  {
    if 0 <= i < Pow256(size) then
      FromBigEndianOfBigEndian(i, size);
      Some(BigEndian(i, size))
    else None
  }

  const U32Limit: nat := Pow256(4)
  const U64Limit: nat := Pow256(8)

  lemma U32LimitValue()
    ensures U32Limit == 0x1_0000_0000 && U64Limit == 0x1_0000_0000_0000_0000
  {
    assert Pow256(4) == 0x1_0000_0000 by {
      assert Pow256(2) == 0x1_0000;
    }
    assert Pow256(8) == 0x1_0000_0000_0000_0000 by {
      assert Pow256(6) == 0x1_0000_0000_0000;
    }
  }

  /** `struct.unpack('>q')`: a big-endian two's-complement signed 64-bit integer. */
  function SignedFromBigEndian64(s: seq<Byte>): (r: int)
    requires |s| == 8
    ensures -(U64Limit as int) / 2 <= r < U64Limit / 2
    ensures r >= 0 <==> s[0] < 128
  {
    var u := FromBigEndian(s);
    FromBigEndianHighByte(s);
    if u >= U64Limit / 2 then u - U64Limit else u
  }

  /** The leading byte decides the top of a big-endian value. */
  lemma FromBigEndianHighByte(s: seq<Byte>)
    requires |s| == 8
    ensures FromBigEndian(s) >= U64Limit / 2 <==> s[0] >= 128
  {
    var tail := s[1..];
    FromBigEndianSplit(s);
    assert FromBigEndian(s) == s[0] * Pow256(7) + FromBigEndian(tail);
    assert U64Limit == 256 * Pow256(7);
  }

  /** Splitting off the leading byte of a big-endian number. */
  lemma {:induction false} FromBigEndianSplit(s: seq<Byte>)
    requires |s| >= 1
    ensures FromBigEndian(s) == s[0] * Pow256(|s| - 1) + FromBigEndian(s[1..])
  {
    var n := |s|;
    if n == 1 {
      assert s[1..] == [];
      assert s[..0] == [];
    } else {
      var init := s[..n - 1];
      var tail := s[1..];
      FromBigEndianSplit(init);
      assert init[1..] == tail[..n - 2];
      var a, p, b := s[0], Pow256(n - 2), FromBigEndian(init[1..]);
      assert FromBigEndian(init) == a * p + b;
      assert FromBigEndian(tail) == b * 256 + s[n - 1];
      assert FromBigEndian(s) == FromBigEndian(init) * 256 + s[n - 1];
      assert Pow256(n - 1) == p * 256;
      ShiftByte(a, p, b);
    }
  }

  lemma ShiftByte(a: int, p: int, b: int)
    ensures (a * p + b) * 256 == a * (p * 256) + b * 256
  {
  }

  /** `struct.pack('>q')`: the two's-complement big-endian bytes of a signed 64-bit integer. */
  function SignedToBigEndian64(i: int): (r: seq<Byte>)
    requires -(U64Limit as int) / 2 <= i < U64Limit / 2
    ensures |r| == 8
  {
    BigEndian(if i < 0 then i + U64Limit else i, 8)
  }

  lemma SignedRoundTrip64(i: int)
    requires -(U64Limit as int) / 2 <= i < U64Limit / 2
    ensures SignedFromBigEndian64(SignedToBigEndian64(i)) == i
  {
    FromBigEndianOfBigEndian(if i < 0 then i + U64Limit else i, 8);
  }

  /** The UTF-8 encoding of one Unicode scalar value (`str.encode('utf-8')`):
      the value's bits in groups of six, the leading byte marking the length. */
  function EncodeChar(c: char): (r: seq<Byte>)
    ensures 1 <= |r| <= 4
    ensures |r| == 1 <==> c as int < 0x80
    ensures |r| == 1 ==> r[0] == c as int
  {
    var v := c as int;
    var q1 := v / 0x40;
    var q2 := q1 / 0x40;
    var q3 := q2 / 0x40;
    if v < 0x80 then [v]
    else if v < 0x800 then [0xC0 + q1, 0x80 + v % 0x40]
    else if v < 0x1_0000 then [0xE0 + q2, 0x80 + q1 % 0x40, 0x80 + v % 0x40]
    else [0xF0 + q3, 0x80 + q2 % 0x40, 0x80 + q1 % 0x40, 0x80 + v % 0x40]
  }

  function Utf8(s: string): (r: seq<Byte>)
  {
    if s == [] then [] else EncodeChar(s[0]) + Utf8(s[1..])
  }

  predicate IsAscii(s: string) {
    forall i :: 0 <= i < |s| ==> s[i] as int < 0x80
  }

  /** A string is never shorter in UTF-8 bytes than in characters, and the two
      lengths agree exactly for ASCII text. */
  lemma {:induction false} Utf8Length(s: string)
    ensures |Utf8(s)| >= |s|
    ensures |Utf8(s)| == |s| <==> IsAscii(s)
  {
    if s != [] {
      Utf8Length(s[1..]);
      assert IsAscii(s) <==> s[0] as int < 0x80 && IsAscii(s[1..]) by {
        if s[0] as int < 0x80 && IsAscii(s[1..]) {
          forall i | 0 <= i < |s| ensures s[i] as int < 0x80 {
            if i > 0 { assert s[i] == s[1..][i - 1]; }
          }
        }
      }
    }
  }

  /** For ASCII text the UTF-8 bytes are the character codes themselves. */
  lemma {:induction false} Utf8Ascii(s: string)
    requires IsAscii(s)
    ensures |Utf8(s)| == |s|
    ensures forall i :: 0 <= i < |s| ==> Utf8(s)[i] == s[i] as int
  {
    if s != [] {
      assert IsAscii(s[1..]) by {
        forall i | 0 <= i < |s| - 1 ensures s[1..][i] as int < 0x80 { assert s[1..][i] == s[i + 1]; }
      }
      Utf8Ascii(s[1..]);
    }
  }

  /** How many bytes the UTF-8 sequence led by `b` occupies, or 0 when `b` cannot
      start one (a continuation byte, 0xC0/0xC1, or 0xF5 and above). */
  function LeadLength(b: Byte): (n: nat)
    ensures n <= 4
  {
    if b < 0x80 then 1
    else if 0xC2 <= b < 0xE0 then 2
    else if 0xE0 <= b < 0xF0 then 3
    else if 0xF0 <= b < 0xF5 then 4
    else 0
  }

  predicate IsContinuation(b: Byte) {
    0x80 <= b < 0xC0
  }

  predicate IsScalar(v: int) {
    0 <= v < 0xD800 || 0xE000 <= v < 0x11_0000
  }

  /** The scalar value a well-formed sequence stands for; `None` for a bad
      continuation byte, an overlong form, a surrogate or a value above U+10FFFF. */
  function DecodeSequence(b: seq<Byte>): (r: Option<char>)
    requires 1 <= |b| <= 4 && LeadLength(b[0]) == |b|
  {
    if |b| == 1 then Some(b[0] as char)
    else if !IsContinuation(b[1]) then None
    else if |b| == 2 then Some(((b[0] as int - 0xC0) * 0x40 + (b[1] as int - 0x80)) as char)
    else if !IsContinuation(b[2]) then None
    else if |b| == 3 then
      var v := (b[0] as int - 0xE0) * 0x1000 + (b[1] as int - 0x80) * 0x40 + (b[2] as int - 0x80);
      if v < 0x800 || !IsScalar(v) then None else Some(v as char)
    else if !IsContinuation(b[3]) then None
    else
      var v := (b[0] as int - 0xF0) * 0x4_0000 + (b[1] as int - 0x80) * 0x1000 + (b[2] as int - 0x80) * 0x40 + (b[3] as int - 0x80);
      if v < 0x1_0000 || !IsScalar(v) then None else Some(v as char)
  }

  /** `bytes.decode('utf-8')` in strict mode: `None` stands for the UnicodeDecodeError. */
  function DecodeUtf8(b: seq<Byte>): (r: Option<string>)
    decreases |b|, 1
  {
    if |b| == 0 then Some([]) else DecodeLeading(b)
  }

  /** Decoding a non-empty byte string: its leading sequence, then the rest. */
  function DecodeLeading(b: seq<Byte>): (r: Option<string>)
    requires |b| > 0
    decreases |b|, 0
  {
    var n := LeadLength(b[0]);
    if n == 0 || |b| < n then None
    else match DecodeSequence(b[..n])
      case None => None
      case Some(c) =>
        match DecodeUtf8(b[n..])
        case None => None
        case Some(rest) => Some([c] + rest)
  }

  /** Division by 64 of a number given as quotient and remainder. */
  lemma DivMod64(x: int, q: int, r: int)
    requires 0 <= r < 0x40 && x == q * 0x40 + r
    ensures x / 0x40 == q && x % 0x40 == r
  {
  }

  lemma EncodeCharDecodes(c: char)
    ensures LeadLength(EncodeChar(c)[0]) == |EncodeChar(c)|
    ensures DecodeSequence(EncodeChar(c)) == Some(c)
  {
    var v := c as int;
    var r := EncodeChar(c);
    var q1 := v / 0x40;
    var q2 := q1 / 0x40;
    var q3 := q2 / 0x40;
    assert v == q1 * 0x40 + v % 0x40;
    assert q1 == q2 * 0x40 + q1 % 0x40;
    assert q2 == q3 * 0x40 + q2 % 0x40;
    if v < 0x80 {
    } else if v < 0x800 {
      assert (r[0] as int - 0xC0) * 0x40 + (r[1] as int - 0x80) == v;
    } else if v < 0x1_0000 {
      assert (r[0] as int - 0xE0) * 0x1000 + (r[1] as int - 0x80) * 0x40 + (r[2] as int - 0x80) == v;
    } else {
      assert (r[0] as int - 0xF0) * 0x4_0000 + (r[1] as int - 0x80) * 0x1000 + (r[2] as int - 0x80) * 0x40 + (r[3] as int - 0x80) == v;
    }
  }

  lemma DecodedSequenceEncodes(b: seq<Byte>)
    requires 1 <= |b| <= 4 && LeadLength(b[0]) == |b|
    requires DecodeSequence(b).Some?
    ensures EncodeChar(DecodeSequence(b).value) == b
  {
    var v := DecodeSequence(b).value as int;
    if |b| == 2 {
      DivMod64(v, b[0] as int - 0xC0, b[1] as int - 0x80);
    } else if |b| == 3 {
      var q1 := (b[0] as int - 0xE0) * 0x40 + (b[1] as int - 0x80);
      DivMod64(v, q1, b[2] as int - 0x80);
      DivMod64(q1, b[0] as int - 0xE0, b[1] as int - 0x80);
    } else if |b| == 4 {
      var q2 := (b[0] as int - 0xF0) * 0x40 + (b[1] as int - 0x80);
      var q1 := q2 * 0x40 + (b[2] as int - 0x80);
      DivMod64(v, q1, b[3] as int - 0x80);
      DivMod64(q1, q2, b[2] as int - 0x80);
      DivMod64(q2, b[0] as int - 0xF0, b[1] as int - 0x80);
    }
  }

  /** Decoding undoes encoding: every string of Unicode scalar values (what `char` holds) survives a
      UTF-8 round trip. */
  lemma {:induction false} DecodeUtf8OfUtf8(s: string)
    ensures DecodeUtf8(Utf8(s)) == Some(s)
  {
    if s != [] {
      var e := EncodeChar(s[0]);
      var b := Utf8(s);
      EncodeCharDecodes(s[0]);
      assert b[..|e|] == e && b[|e|..] == Utf8(s[1..]);
      DecodeUtf8OfUtf8(s[1..]);
      assert s == [s[0]] + s[1..];
    }
  }

  /** A decodable non-empty byte string is one well-formed sequence followed by
      a decodable rest. */
  lemma DecodeUtf8Head(b: seq<Byte>)
    requires b != [] && DecodeUtf8(b).Some?
    ensures 1 <= LeadLength(b[0]) <= |b|
    ensures DecodeSequence(b[..LeadLength(b[0])]).Some? && DecodeUtf8(b[LeadLength(b[0])..]).Some?
    ensures DecodeUtf8(b).value ==
      [DecodeSequence(b[..LeadLength(b[0])]).value] + DecodeUtf8(b[LeadLength(b[0])..]).value
  {
  }

  lemma Utf8Cons(c: char, rest: string)
    ensures Utf8([c] + rest) == EncodeChar(c) + Utf8(rest)
  {
    assert ([c] + rest)[0] == c && ([c] + rest)[1..] == rest;
  }

  /** Encoding undoes decoding: a byte string that decodes is exactly the
      encoding of what it decodes to, so UTF-8 is a bijection onto valid bytes. */
  lemma {:induction false} Utf8OfDecodeUtf8(b: seq<Byte>)
    requires DecodeUtf8(b).Some?
    ensures Utf8(DecodeUtf8(b).value) == b
    decreases |b|
  {
    if b != [] {
      DecodeUtf8Head(b);
      var n := LeadLength(b[0]);
      var head := b[..n];
      var c := DecodeSequence(head).value;
      var rest := DecodeUtf8(b[n..]).value;
      DecodedSequenceEncodes(head);
      Utf8OfDecodeUtf8(b[n..]);
      Utf8Cons(c, rest);
      assert b == head + b[n..];
    }
  }

  /** The `{n}s` field of `struct.pack`: the bytes cut to `n`, or padded with zero bytes up to `n`. */
  function FixedField(b: seq<Byte>, n: nat): (r: seq<Byte>)
    ensures |r| == n
    ensures n <= |b| ==> r == b[..n]
    ensures |b| < n ==> r[..|b|] == b && forall i :: |b| <= i < n ==> r[i] == 0
  {
    if n <= |b| then b[..n] else b + seq(n - |b|, _ => 0)
  }
}
