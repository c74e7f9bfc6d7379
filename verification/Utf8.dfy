/** The recognizer of UTF-8 text without NUL characters, against what it recognizes: the encodings of the nonzero
    Unicode scalar values (section 3.9 of the Unicode Standard; section 4 of RFC 3629). */
module Utf8 {
  /** A byte as a number. */
  type Octet = b: nat | b < 256

  predicate IsScalar(c: int) {
    0 < c <= 0x10FFFF && !(0xD800 <= c <= 0xDFFF)
  }

  /** The bytes of a scalar value. */
  function Encode(c: int): (r: seq<Octet>)
    requires IsScalar(c)
    ensures 1 <= |r| <= 4
  {
    if c < 0x80 then [c]
    else if c < 0x800 then [0xC0 + c / 64, 0x80 + c % 64]
    else if c < 0x10000 then [0xE0 + c / 4096, 0x80 + c / 64 % 64, 0x80 + c % 64]
    else [0xF0 + c / 262144, 0x80 + c / 4096 % 64, 0x80 + c / 64 % 64, 0x80 + c % 64]
  }

  predicate AreScalars(cs: seq<int>) {
    forall i :: 0 <= i < |cs| ==> IsScalar(cs[i])
  }

  function EncodeAll(cs: seq<int>): seq<Octet>
    requires AreScalars(cs)
    decreases |cs|
  {
    if cs == [] then [] else Encode(cs[0]) + EncodeAll(cs[1..])
  }

  ghost predicate IsText(bytes: seq<Octet>) {
    exists cs :: AreScalars(cs) && EncodeAll(cs) == bytes
  }

  // --------------------------------------------------------------------------------------------------- Recognizing

  /** How many bytes a character takes, from its first one; 0: none starts with it. */
  function SizeOf(lead: Octet): (n: nat)
    ensures n <= 4
  {
    if 0 < lead < 0x80 then 1
    else if 0xC2 <= lead <= 0xDF then 2
    else if 0xE0 <= lead <= 0xEF then 3
    else if 0xF0 <= lead <= 0xF4 then 4
    else 0
  }

  /** The range of the second byte: narrower where the encoding would be overlong, of a surrogate, or past the last
      character. */
  function SecondMin(lead: Octet): Octet {
    if lead == 0xE0 then 0xA0 else if lead == 0xF0 then 0x90 else 0x80
  }

  function SecondMax(lead: Octet): Octet {
    if lead == 0xED then 0x9F else if lead == 0xF4 then 0x8F else 0xBF
  }

  predicate IsContinuation(b: Octet) {
    0x80 <= b <= 0xBF
  }

  /** How many bytes the first character takes, if the bytes start with a well-formed one. */
  function First(bytes: seq<Octet>): (n: nat)
    requires bytes != []
    ensures n <= |bytes|
  {
    var size := SizeOf(bytes[0]);
    if size <= 1 then size
    else if size > |bytes| || !(SecondMin(bytes[0]) <= bytes[1] <= SecondMax(bytes[0])) then 0
    else if forall i :: 2 <= i < size ==> IsContinuation(bytes[i]) then size
    else 0
  }

  predicate Recognizes(bytes: seq<Octet>)
    decreases |bytes|
  {
    bytes == [] || (First(bytes) > 0 && Recognizes(bytes[First(bytes)..]))
  }

  /** is_valid_utf8: from one character to the next, without reading past the end. */
  method IsValidUtf8(bytes: seq<Octet>) returns (valid: bool)
    ensures valid <==> IsText(bytes)
  {
    RecognizesExactly(bytes);
    var offset := 0;
    assert bytes[0..] == bytes;
    while offset < |bytes|
      invariant 0 <= offset <= |bytes|
      invariant Recognizes(bytes) <==> Recognizes(bytes[offset..])
    {
      var lead := bytes[offset];
      ghost var rest := bytes[offset..];
      if lead < 0x80 {
        if lead == 0 {
          return false;
        }
        assert rest[1..] == bytes[offset + 1..];
        offset := offset + 1;
        continue;
      }
      var size, secondMin, secondMax := 0, 0x80, 0xBF;
      if lead >= 0xC2 && lead <= 0xDF {
        size := 2;
      } else if lead >= 0xE0 && lead <= 0xEF {
        size := 3;
        if lead == 0xE0 {
          secondMin := 0xA0;
        } else if lead == 0xED {
          secondMax := 0x9F;
        }
      } else if lead >= 0xF0 && lead <= 0xF4 {
        size := 4;
        if lead == 0xF0 {
          secondMin := 0x90;
        } else if lead == 0xF4 {
          secondMax := 0x8F;
        }
      } else {
        return false;
      }
      if size > |bytes| - offset || bytes[offset + 1] < secondMin || bytes[offset + 1] > secondMax {
        return false;
      }
      var continued := AreContinuations(bytes, offset + 2, offset + size);
      assert forall i :: 2 <= i < size ==> rest[i] == bytes[offset + i];
      if !continued {
        return false;
      }
      assert rest[size..] == bytes[offset + size..];
      offset := offset + size;
    }
    return true;
  }

  method AreContinuations(bytes: seq<Octet>, from: nat, to: nat) returns (all: bool)
    requires from <= to <= |bytes|
    ensures all <==> forall i :: from <= i < to ==> IsContinuation(bytes[i])
  {
    var i := from;
    while i < to
      invariant from <= i <= to && forall k :: from <= k < i ==> IsContinuation(bytes[k])
    {
      if bytes[i] < 0x80 || bytes[i] > 0xBF {
        return false;
      }
      i := i + 1;
    }
    return true;
  }

  // --------------------------------------------------------------------------------------------------------- Exact

  /** The bits that a byte of a character carries. */
  function Part(b: Octet, base: int): int {
    b as int - base
  }

  /** The character that well-formed bytes are of. */
  function Decode(bytes: seq<Octet>): int
    requires bytes != [] && First(bytes) > 0
  {
    match First(bytes)
    case 1 => Part(bytes[0], 0)
    case 2 => Join2(Part(bytes[0], 0xC0), Part(bytes[1], 0x80))
    case 3 => Join3(Part(bytes[0], 0xE0), Part(bytes[1], 0x80), Part(bytes[2], 0x80))
    case _ => Join4(Part(bytes[0], 0xF0), Part(bytes[1], 0x80), Part(bytes[2], 0x80), Part(bytes[3], 0x80))
  }

  function Join2(a: int, b: int): int { 64 * a + b }

  function Join3(a: int, b: int, c: int): int { 64 * Join2(a, b) + c }

  function Join4(a: int, b: int, c: int, d: int): int { 64 * Join3(a, b, c) + d }

  /** Six bits at a time, the parts of a number. */
  lemma Parts(a: int, b: int, c: int, d: int)
    requires 0 <= a && 0 <= b < 64 && 0 <= c < 64 && 0 <= d < 64
    ensures Join2(a, b) / 64 == a && Join2(a, b) % 64 == b
    ensures Join3(a, b, c) / 4096 == a && Join3(a, b, c) / 64 % 64 == b && Join3(a, b, c) % 64 == c
    ensures var n := Join4(a, b, c, d);
      n / 262144 == a && n / 4096 % 64 == b && n / 64 % 64 == c && n % 64 == d
  {
    var x, y := Join3(a, b, c), Join4(a, b, c, d);
    assert x / 64 == Join2(a, b) && y / 64 == x;
    assert y / 4096 == x / 64;
  }

  /** What is recognized first is the encoding of a character. */
  lemma DecodeEncodes(bytes: seq<Octet>)
    requires bytes != [] && First(bytes) > 0
    ensures IsScalar(Decode(bytes)) && Encode(Decode(bytes)) == bytes[..First(bytes)]
  {
    match First(bytes)
    case 1 =>
    case 2 => DecodeEncodes2(bytes);
    case 3 => DecodeEncodes3(bytes);
    case _ => DecodeEncodes4(bytes);
  }

  lemma DecodeEncodes2(bytes: seq<Octet>)
    requires bytes != [] && First(bytes) == 2
    ensures IsScalar(Decode(bytes)) && Encode(Decode(bytes)) == bytes[..2]
  {
    Parts(Part(bytes[0], 0xC0), Part(bytes[1], 0x80), 0, 0);
  }

  lemma DecodeEncodes3(bytes: seq<Octet>)
    requires bytes != [] && First(bytes) == 3
    ensures IsScalar(Decode(bytes)) && Encode(Decode(bytes)) == bytes[..3]
  {
    assert IsContinuation(bytes[2]);
    var a, b, c := Part(bytes[0], 0xE0), Part(bytes[1], 0x80), Part(bytes[2], 0x80);
    Join3IsEncoded(a, b, c);
    assert bytes[..3] == [0xE0 + a, 0x80 + b, 0x80 + c];
  }

  lemma Join3IsEncoded(a: int, b: int, c: int)
    requires 0 <= a < 16 && 0 <= b < 64 && 0 <= c < 64
    requires (a == 0 ==> b >= 0x20) && (a == 0xD ==> b < 0x20)
    ensures IsScalar(Join3(a, b, c)) && Encode(Join3(a, b, c)) == [0xE0 + a, 0x80 + b, 0x80 + c]
  {
    Parts(a, b, c, 0);
    assert 0x800 <= Join3(a, b, c) < 0x10000;
  }

  lemma DecodeEncodes4(bytes: seq<Octet>)
    requires bytes != [] && First(bytes) == 4
    ensures IsScalar(Decode(bytes)) && Encode(Decode(bytes)) == bytes[..4]
  {
    assert IsContinuation(bytes[2]) && IsContinuation(bytes[3]);
    var a, b, c, d := Part(bytes[0], 0xF0), Part(bytes[1], 0x80), Part(bytes[2], 0x80), Part(bytes[3], 0x80);
    Join4IsEncoded(a, b, c, d);
    assert bytes[..4] == [0xF0 + a, 0x80 + b, 0x80 + c, 0x80 + d];
  }

  lemma Join4IsEncoded(a: int, b: int, c: int, d: int)
    requires 0 <= a <= 4 && 0 <= b < 64 && 0 <= c < 64 && 0 <= d < 64
    requires (a == 0 ==> b >= 0x10) && (a == 4 ==> b < 0x10)
    ensures IsScalar(Join4(a, b, c, d)) && Encode(Join4(a, b, c, d)) == [0xF0 + a, 0x80 + b, 0x80 + c, 0x80 + d]
  {
    Parts(a, b, c, d);
    assert 0x10000 <= Join4(a, b, c, d) <= 0x10FFFF;
  }

  /** The encoding of a character, whatever follows, is recognized first. */
  lemma EncodeIsFirst(c: int, rest: seq<Octet>)
    requires IsScalar(c)
    ensures First(Encode(c) + rest) == |Encode(c)|
  {
    var bytes := Encode(c) + rest;
    assert forall i :: 0 <= i < |Encode(c)| ==> bytes[i] == Encode(c)[i];
  }

  lemma {:induction false} RecognizedIsText(bytes: seq<Octet>) returns (cs: seq<int>)
    requires Recognizes(bytes)
    ensures AreScalars(cs) && EncodeAll(cs) == bytes
    decreases |bytes|
  {
    if bytes == [] {
      cs := [];
    } else {
      DecodeEncodes(bytes);
      var rest := RecognizedIsText(bytes[First(bytes)..]);
      cs := [Decode(bytes)] + rest;
      EncodeCons(Decode(bytes), rest);
      assert bytes == bytes[..First(bytes)] + bytes[First(bytes)..];
    }
  }

  lemma EncodeCons(c: int, rest: seq<int>)
    requires IsScalar(c) && AreScalars(rest)
    ensures AreScalars([c] + rest) && EncodeAll([c] + rest) == Encode(c) + EncodeAll(rest)
  {
    assert ([c] + rest)[1..] == rest;
  }

  lemma {:induction false} TextIsRecognized(cs: seq<int>)
    requires AreScalars(cs)
    ensures Recognizes(EncodeAll(cs))
    decreases |cs|
  {
    if cs != [] {
      var rest := EncodeAll(cs[1..]);
      TextIsRecognized(cs[1..]);
      EncodeIsFirst(cs[0], rest);
      assert (Encode(cs[0]) + rest)[|Encode(cs[0])|..] == rest;
    }
  }

  /** The recognizer is exact: it takes a sequence of bytes if and only if it's the encoding of characters. */
  lemma RecognizesExactly(bytes: seq<Octet>)
    ensures Recognizes(bytes) <==> IsText(bytes)
  {
    if Recognizes(bytes) {
      var cs := RecognizedIsText(bytes);
    }
    if IsText(bytes) {
      var cs :| AreScalars(cs) && EncodeAll(cs) == bytes;
      TextIsRecognized(cs);
    }
  }

  /** A text is the encoding of one sequence of characters only. */
  lemma {:induction false} EncodingIsUnique(cs: seq<int>, ds: seq<int>)
    requires AreScalars(cs) && AreScalars(ds) && EncodeAll(cs) == EncodeAll(ds)
    ensures cs == ds
    decreases |cs|
  {
    if cs != [] && ds != [] {
      var bytes := EncodeAll(cs);
      EncodeIsFirst(cs[0], EncodeAll(cs[1..]));
      EncodeIsFirst(ds[0], EncodeAll(ds[1..]));
      assert Encode(cs[0]) == bytes[..First(bytes)] == Encode(ds[0]);
      EncodeIsInjective(cs[0], ds[0]);
      assert EncodeAll(cs[1..]) == bytes[First(bytes)..] == EncodeAll(ds[1..]);
      EncodingIsUnique(cs[1..], ds[1..]);
      assert cs == [cs[0]] + cs[1..] && ds == [ds[0]] + ds[1..];
    }
  }

  /** A character is what its encoding decodes to. */
  lemma EncodeDecodes(c: int)
    requires IsScalar(c)
    ensures First(Encode(c)) == |Encode(c)| && Decode(Encode(c)) == c
  {
    EncodeIsFirst(c, []);
    assert Encode(c) + [] == Encode(c);
    if c >= 0x80 { SixBits(c); }
  }

  lemma SixBits(c: int)
    requires c >= 0
    ensures Join2(c / 64, c % 64) == c && Join3(c / 4096, c / 64 % 64, c % 64) == c
    ensures Join4(c / 262144, c / 4096 % 64, c / 64 % 64, c % 64) == c
  {
    assert c / 4096 == c / 64 / 64 && c / 262144 == c / 4096 / 64;
  }

  lemma EncodeIsInjective(c: int, d: int)
    requires IsScalar(c) && IsScalar(d) && Encode(c) == Encode(d)
    ensures c == d
  {
    EncodeDecodes(c);
    EncodeDecodes(d);
  }
}
