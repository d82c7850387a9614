/** Base64url without padding (section 5 of RFC 4648), as `toString("base64url")` writes it and
    `Buffer.from(s, "base64url")` reads it. */
module Base64Url {
  import opened Unicode

  const DOT: CodeUnit := 0x2E

  type Sextet = n: nat | n < 0x40

  function Letter(v: Sextet): CodeUnit {
    if v < 26 then 0x41 + v
    else if v < 52 then 0x61 + (v - 26)
    else if v < 62 then 0x30 + (v - 52)
    else if v == 62 then 0x2D
    else 0x5F
  }

  /** The reader also takes the letters `+` and `/` of the plain alphabet. */
  predicate IsLetter(u: CodeUnit) {
    0x41 <= u <= 0x5A || 0x61 <= u <= 0x7A || 0x30 <= u <= 0x39 || u in {0x2D, 0x5F, 0x2B, 0x2F}
  }

  function LetterValue(u: CodeUnit): Sextet
    requires IsLetter(u)
  {
    if 0x41 <= u <= 0x5A then u - 0x41
    else if 0x61 <= u <= 0x7A then u - 0x61 + 26
    else if 0x30 <= u <= 0x39 then u - 0x30 + 52
    else if u == 0x2D || u == 0x2B then 62
    else 63
  }

  function FourSextets(a: Byte, b: Byte, c: Byte): (v: seq<Sextet>)
    ensures |v| == 4
  {
    [a / 4, a % 4 * 16 + b / 16, b % 16 * 4 + c / 64, c % 64]
  }

  function FourLetters(v: seq<Sextet>): Text
    requires |v| == 4
  {
    [Letter(v[0]), Letter(v[1]), Letter(v[2]), Letter(v[3])]
  }

  /** Three bytes become four letters; a last one or two bytes become two or three. */
  function Encode(b: seq<Byte>): Text {
    if |b| == 0 then []
    else if |b| == 1 then [Letter(b[0] / 4), Letter(b[0] % 4 * 16)]
    else if |b| == 2 then [Letter(b[0] / 4), Letter(b[0] % 4 * 16 + b[1] / 16), Letter(b[1] % 16 * 4)]
    else FourLetters(FourSextets(b[0], b[1], b[2])) + Encode(b[3..])
  }

  /** Letters only; the reader skips every other unit. */
  function Sextets(t: Text): seq<Sextet> {
    if t == [] then []
    else if IsLetter(t[0]) then [LetterValue(t[0])] + Sextets(t[1..])
    else Sextets(t[1..])
  }

  /** One byte from the low bits of a sextet, shifted up, and the high bits of the next. */
  function Splice(high: int, low: int): Byte
    requires 0 <= high < 0x100 && 0 <= low && high + low < 0x100
  {
    high + low
  }

  /** Spare bits and a single leftover letter are dropped. */
  function Bytes(s: seq<Sextet>): seq<Byte> {
    if |s| < 2 then []
    else
      var a: int, b: int := s[0], s[1];
      if |s| == 2 then [Splice(a * 4, b / 16)]
      else
        var c: int := s[2];
        if |s| == 3 then [Splice(a * 4, b / 16), Splice(b % 16 * 16, c / 4)]
        else [Splice(a * 4, b / 16), Splice(b % 16 * 16, c / 4), Splice(c % 4 * 64, s[3])] + Bytes(s[4..])
  }

  function Decode(t: Text): seq<Byte> {
    Bytes(Sextets(t))
  }

  lemma LetterRoundTrip(v: Sextet)
    ensures IsLetter(Letter(v)) && LetterValue(Letter(v)) == v && Letter(v) != DOT
  {
  }

  lemma {:induction false} SextetsOfLetters(v: seq<Sextet>, t: Text)
    requires |v| == |t| && forall i :: 0 <= i < |v| ==> t[i] == Letter(v[i])
    ensures Sextets(t) == v
  {
    if t == [] {
    } else {
      LetterRoundTrip(v[0]);
      SextetsOfLetters(v[1..], t[1..]);
    }
  }

  lemma {:induction false} SextetsConcat(a: Text, b: Text)
    ensures Sextets(a + b) == Sextets(a) + Sextets(b)
  {
    if a == [] {
      assert a + b == b;
    } else {
      assert (a + b)[1..] == a[1..] + b;
      SextetsConcat(a[1..], b);
    }
  }

  /** Decoding undoes encoding on every byte sequence. */
  lemma {:induction false} RoundTrip(b: seq<Byte>)
    ensures Decode(Encode(b)) == b
  {
    if |b| == 0 {
    } else if |b| == 1 {
      SextetsOfLetters([b[0] / 4, b[0] % 4 * 16], Encode(b));
    } else if |b| == 2 {
      SextetsOfLetters([b[0] / 4, b[0] % 4 * 16 + b[1] / 16, b[1] % 16 * 4], Encode(b));
    } else {
      RoundTrip(b[3..]);
      ThreeBytesOfFour(b[0], b[1], b[2]);
      RoundTripStep(b, FourSextets(b[0], b[1], b[2]), Encode(b[3..]));
    }
  }

  lemma RoundTripStep(b: seq<Byte>, v: seq<Sextet>, tail: Text)
    requires |b| >= 3 && Decode(tail) == b[3..]
    requires |v| == 4 && ThreeBytes(v) == [b[0], b[1], b[2]]
    ensures Decode(FourLetters(v) + tail) == b
  {
    DecodeStep(v, tail);
    assert b == [b[0], b[1], b[2]] + b[3..];
  }

  function ThreeBytes(v: seq<Sextet>): seq<Byte>
    requires |v| == 4
  {
    var a: int, b: int, c: int := v[0], v[1], v[2];
    [Splice(a * 4, b / 16), Splice(b % 16 * 16, c / 4), Splice(c % 4 * 64, v[3])]
  }

  lemma ThreeBytesOfFour(a: Byte, b: Byte, c: Byte)
    ensures ThreeBytes(FourSextets(a, b, c)) == [a, b, c]
  {
  }

  lemma BytesStep(v: seq<Sextet>, s: seq<Sextet>)
    requires |v| == 4
    ensures Bytes(v + s) == ThreeBytes(v) + Bytes(s)
  {
    assert (v + s)[4..] == s;
  }

  lemma DecodeStep(v: seq<Sextet>, tail: Text)
    requires |v| == 4
    ensures Decode(FourLetters(v) + tail) == ThreeBytes(v) + Decode(tail)
  {
    SextetsOfLetters(v, FourLetters(v));
    SextetsConcat(FourLetters(v), tail);
    BytesStep(v, Sextets(tail));
  }

  predicate AllLetters(t: Text) {
    forall i :: 0 <= i < |t| ==> IsLetter(t[i]) && t[i] != DOT && t[i] != 0x2B && t[i] != 0x2F
  }

  /** Every unit of an encoding is a letter, so it holds no dot and no white space. */
  lemma {:induction false} EncodeLetters(b: seq<Byte>)
    ensures AllLetters(Encode(b))
    ensures |b| > 0 ==> |Encode(b)| > 0
  {
    if |b| >= 3 {
      hide Letter;
      EncodeLetters(b[3..]);
      FourAreLetters(FourSextets(b[0], b[1], b[2]));
    }
  }

  lemma FourAreLetters(v: seq<Sextet>)
    requires |v| == 4
    ensures AllLetters(FourLetters(v))
  {
  }
}
