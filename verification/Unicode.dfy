/** JavaScript strings, UTF-16 and UTF-8 as Node's `Buffer` sees them.

    A string is a sequence of 16-bit code units and may hold lone surrogates.  `Buffer.from(s)`
    first replaces every lone surrogate by U+FFFD and then writes UTF-8 (section 3 of RFC 3629);
    `buffer.toString("utf8")` decodes any bytes, giving one U+FFFD for each maximal ill-formed part. */
module Unicode {

  type CodeUnit = n: nat | n < 0x10000

  type Text = seq<CodeUnit>

  type Byte = n: nat | n < 0x100

  predicate IsScalar(n: int) {
    0 <= n < 0xD800 || 0xE000 <= n < 0x110000
  }

  type Scalar = n: nat | n < 0xD800 || 0xE000 <= n < 0x110000

  const REPLACEMENT: Scalar := 0xFFFD

  predicate IsHigh(u: CodeUnit) {
    0xD800 <= u < 0xDC00
  }

  predicate IsLow(u: CodeUnit) {
    0xDC00 <= u < 0xE000
  }

  /** A high surrogate is followed by a low one and a low one follows a high one. */
  predicate PairedAt(t: Text, i: nat)
    requires i < |t|
  {
    && (IsHigh(t[i]) ==> i + 1 < |t| && IsLow(t[i + 1]))
    && (IsLow(t[i]) ==> 0 < i && IsHigh(t[i - 1]))
  }

  /** No lone surrogates. */
  predicate WellFormed(t: Text) {
    forall i: nat | i < |t| :: PairedAt(t, i)
  }

  // ---- UTF-16 ----------------------------------------------------------------------------------

  predicate StartsWithPair(t: Text) {
    |t| >= 2 && IsHigh(t[0]) && IsLow(t[1])
  }

  function PairScalar(high: CodeUnit, low: CodeUnit): Scalar
    requires IsHigh(high) && IsLow(low)
  {
    0x10000 + (high - 0xD800) * 0x400 + (low - 0xDC00)
  }

  function ToScalars(t: Text): seq<Scalar> {
    if t == [] then []
    else if StartsWithPair(t) then [PairScalar(t[0], t[1])] + ToScalars(t[2..])
    else if IsScalar(t[0]) then [t[0]] + ToScalars(t[1..])
    else [REPLACEMENT] + ToScalars(t[1..])
  }

  function ScalarUnits(c: Scalar): Text {
    if c < 0x10000 then [c]
    else
      var high: CodeUnit := 0xD800 + (c - 0x10000) / 0x400;
      var low: CodeUnit := 0xDC00 + (c - 0x10000) % 0x400;
      [high, low]
  }

  function ToText(s: seq<Scalar>): Text {
    if s == [] then [] else ScalarUnits(s[0]) + ToText(s[1..])
  }

  /** Scalars survive the trip through a string. */
  lemma {:induction false} ScalarsRoundTrip(s: seq<Scalar>)
    ensures ToScalars(ToText(s)) == s
  {
    if s == [] {
    } else {
      ScalarsRoundTrip(s[1..]);
      var t, u := ToText(s), ScalarUnits(s[0]);
      assert t[|u|..] == ToText(s[1..]);
      if |u| == 1 {
        assert t[0] == s[0];
        assert t[1..] == ToText(s[1..]);
        assert ToScalars(t) == [s[0]] + ToScalars(t[1..]);
      } else {
        assert t[0] == u[0] && t[1] == u[1];
        assert StartsWithPair(t) && t[2..] == ToText(s[1..]);
        assert PairScalar(t[0], t[1]) == s[0];
      }
    }
  }

  lemma {:induction false} ToTextWellFormed(s: seq<Scalar>)
    ensures WellFormed(ToText(s))
  {
    if s == [] {
    } else {
      ToTextWellFormed(s[1..]);
      assert WellFormed(ScalarUnits(s[0]));
      WellFormedConcat(ScalarUnits(s[0]), ToText(s[1..]));
    }
  }

  lemma WellFormedConcat(a: Text, b: Text)
    requires WellFormed(a) && WellFormed(b)
    ensures WellFormed(a + b)
  {
    var t := a + b;
    forall i: nat | i < |t|
      ensures PairedAt(t, i)
    {
      if i < |a| {
        assert PairedAt(a, i);
      } else {
        assert PairedAt(b, i - |a|);
      }
    }
  }

  lemma WellFormedTail(t: Text, k: nat)
    requires WellFormed(t) && k <= |t| && (k < |t| ==> !IsLow(t[k]))
    ensures WellFormed(t[k..])
  {
    forall i: nat | i < |t[k..]|
      ensures PairedAt(t[k..], i)
    {
      assert PairedAt(t, i + k);
    }
  }

  /** A string survives the trip through scalars exactly when it has no lone surrogate. */
  lemma {:induction false} TextRoundTrip(t: Text)
    ensures ToText(ToScalars(t)) == t <==> WellFormed(t)
  {
    if WellFormed(t) {
      TextOfWellFormed(t);
    } else {
      ToTextWellFormed(ToScalars(t));
    }
  }

  lemma {:induction false} TextOfWellFormed(t: Text)
    requires WellFormed(t)
    ensures ToText(ToScalars(t)) == t
  {
    if t == [] {
    } else {
      var k := if StartsWithPair(t) then 2 else 1;
      assert PairedAt(t, 0) && (k < |t| ==> PairedAt(t, k));
      WellFormedTail(t, k);
      TextOfWellFormed(t[k..]);
      assert t == t[..k] + t[k..];
      if k == 2 {
        assert ScalarUnits(PairScalar(t[0], t[1])) == [t[0], t[1]] == t[..2];
      } else {
        assert IsScalar(t[0]);
        assert ScalarUnits(t[0]) == [t[0]] == t[..1];
      }
    }
  }

  // ---- UTF-8 -----------------------------------------------------------------------------------

  function Trail(bits: nat): Byte {
    0x80 + bits % 0x40
  }

  function EncodeScalar(c: Scalar): (b: seq<Byte>)
    ensures 1 <= |b| <= 4
  {
    if c < 0x80 then [c]
    else if c < 0x800 then [0xC0 + c / 0x40, Trail(c)]
    else if c < 0x10000 then [0xE0 + c / 0x40 / 0x40, Trail(c / 0x40), Trail(c)]
    else [0xF0 + c / 0x40 / 0x40 / 0x40, Trail(c / 0x40 / 0x40), Trail(c / 0x40), Trail(c)]
  }

  function Encode(s: seq<Scalar>): seq<Byte> {
    if s == [] then [] else EncodeScalar(s[0]) + Encode(s[1..])
  }

  /** What a first byte announces: how many bytes follow, the bits it carries, and the range the
      next byte must lie in. */
  datatype Lead = Single | Invalid | Multi(need: nat, bits: nat, lo: Byte, hi: Byte)

  function Classify(b: Byte): Lead {
    if b < 0x80 then Single
    else if 0xC2 <= b < 0xE0 then Multi(1, b - 0xC0, 0x80, 0xBF)
    else if b == 0xE0 then Multi(2, 0, 0xA0, 0xBF)
    else if b == 0xED then Multi(2, 0xD, 0x80, 0x9F)
    else if 0xE1 <= b < 0xF0 then Multi(2, b - 0xE0, 0x80, 0xBF)
    else if b == 0xF0 then Multi(3, 0, 0x90, 0xBF)
    else if 0xF1 <= b < 0xF4 then Multi(3, b - 0xF0, 0x80, 0xBF)
    else if b == 0xF4 then Multi(3, 4, 0x80, 0x8F)
    else Invalid
  }

  /** Every completion of the bits read so far is a scalar value. */
  predicate Completes(need: nat, bits: nat, lo: Byte, hi: Byte) {
    && 0x80 <= lo <= hi <= 0xBF
    && match need
       case 1 => ScalarRange(bits * 0x40 + (lo - 0x80), bits * 0x40 + (hi - 0x80))
       case 2 => ScalarRange((bits * 0x40 + (lo - 0x80)) * 0x40, (bits * 0x40 + (hi - 0x80)) * 0x40 + 0x3F)
       case 3 => ScalarRange((bits * 0x40 + (lo - 0x80)) * 0x1000, (bits * 0x40 + (hi - 0x80)) * 0x1000 + 0xFFF)
       case _ => false
  }

  predicate ScalarRange(lo: int, hi: int) {
    0 <= lo <= hi && (hi < 0xD800 || (0xE000 <= lo && hi < 0x110000))
  }

  function Decode(b: seq<Byte>): seq<Scalar>
    decreases |b|, 0
  {
    if b == [] then []
    else match Classify(b[0])
      case Single => [b[0]] + Decode(b[1..])
      case Invalid => [REPLACEMENT] + Decode(b[1..])
      case Multi(need, bits, lo, hi) => DecodeRest(b[1..], need, bits, lo, hi)
  }

  /** Inside a multi-byte character.  A byte out of range ends it with U+FFFD and is read again. */
  function DecodeRest(b: seq<Byte>, need: nat, bits: nat, lo: Byte, hi: Byte): seq<Scalar>
    requires Completes(need, bits, lo, hi)
    decreases |b|, 1
  {
    if b == [] then [REPLACEMENT]
    else if b[0] < lo || hi < b[0] then [REPLACEMENT] + Decode(b)
    else
      var bits' := bits * 0x40 + (b[0] - 0x80);
      if need == 1 then [bits'] + Decode(b[1..])
      else DecodeRest(b[1..], need - 1, bits', 0x80, 0xBF)
  }

  predicate TrailsInRange(e: seq<Byte>, lo: Byte, hi: Byte) {
    e != [] ==> lo <= e[0] <= hi && forall i :: 1 <= i < |e| ==> 0x80 <= e[i] <= 0xBF
  }

  /** The bits carried on by trailing bytes. */
  function TrailBits(e: seq<Byte>, bits: int): int {
    if e == [] then bits else TrailBits(e[1..], bits * 0x40 - 0x80 + e[0])
  }

  lemma {:induction false} DecodeTrails(e: seq<Byte>, need: nat, bits: nat, lo: Byte, hi: Byte, rest: seq<Byte>)
    requires Completes(need, bits, lo, hi) && TrailsInRange(e, lo, hi) && |e| == need
    ensures IsScalar(TrailBits(e, bits))
    ensures DecodeRest(e + rest, need, bits, lo, hi) == [TrailBits(e, bits)] + Decode(rest)
  {
    assert (e + rest)[1..] == e[1..] + rest;
    var bits' := bits * 0x40 + (e[0] - 0x80);
    if need == 1 {
      assert e[1..] == [] && e[1..] + rest == rest;
    } else {
      DecodeTrails(e[1..], need - 1, bits', 0x80, 0xBF, rest);
    }
  }

  lemma {:induction false} DecodeCutTrails(e: seq<Byte>, need: nat, bits: nat, lo: Byte, hi: Byte)
    requires Completes(need, bits, lo, hi) && TrailsInRange(e, lo, hi) && |e| < need
    ensures DecodeRest(e, need, bits, lo, hi) == [REPLACEMENT]
  {
    if e != [] {
      DecodeCutTrails(e[1..], need - 1, bits * 0x40 + (e[0] - 0x80), 0x80, 0xBF);
    }
  }

  /** The first byte of a longer character announces exactly its trailing bytes. */
  lemma EncodeShape(c: Scalar)
    requires 0x80 <= c
    ensures var e := EncodeScalar(c); var lead := Classify(e[0]);
      && lead.Multi? && lead.need == |e| - 1
      && Completes(lead.need, lead.bits, lead.lo, lead.hi)
      && TrailsInRange(e[1..], lead.lo, lead.hi)
      && TrailBits(e[1..], lead.bits) == c
  {
    var e := EncodeScalar(c);
    var lead := Classify(e[0]);
    var bits1 := lead.bits * 0x40 + (e[1] - 0x80);
    assert TrailBits(e[1..], lead.bits) == TrailBits(e[1..][1..], bits1);
    if 0x800 <= c {
      var bits2 := bits1 * 0x40 + (e[2] - 0x80);
      assert TrailBits(e[1..][1..], bits1) == TrailBits(e[1..][1..][1..], bits2);
      if 0x10000 <= c {
        var bits3 := bits2 * 0x40 + (e[3] - 0x80);
        assert TrailBits(e[1..][1..][1..], bits2) == TrailBits(e[1..][1..][1..][1..], bits3);
      }
    }
  }

  /** Decoding reads back one encoded character, whatever bytes follow it. */
  lemma DecodeScalar(c: Scalar, rest: seq<Byte>)
    ensures Decode(EncodeScalar(c) + rest) == [c] + Decode(rest)
  {
    var e := EncodeScalar(c);
    assert (e + rest)[1..] == e[1..] + rest;
    if c < 0x80 {
      assert e[1..] + rest == rest;
    } else {
      EncodeShape(c);
      var lead := Classify(e[0]);
      DecodeTrails(e[1..], lead.need, lead.bits, lead.lo, lead.hi, rest);
    }
  }

  /** A character cut short decodes to a single U+FFFD. */
  lemma DecodeCutScalar(c: Scalar, n: nat)
    requires 0 < n < |EncodeScalar(c)|
    ensures Decode(EncodeScalar(c)[..n]) == [REPLACEMENT]
  {
    var e := EncodeScalar(c);
    EncodeShape(c);
    var lead := Classify(e[0]);
    assert e[..n][1..] == e[1..][..n - 1];
    DecodeCutTrails(e[1..][..n - 1], lead.need, lead.bits, lead.lo, lead.hi);
  }

  lemma {:induction false} DecodeEncode(s: seq<Scalar>)
    ensures Decode(Encode(s)) == s
  {
    if s == [] {
    } else {
      DecodeScalar(s[0], Encode(s[1..]));
      DecodeEncode(s[1..]);
    }
  }

  lemma {:induction false} EncodeConcat(s: seq<Scalar>, t: seq<Scalar>)
    ensures Encode(s + t) == Encode(s) + Encode(t)
  {
    hide Encode, EncodeScalar;
    if s == [] {
      EncodeNothing();
      assert s + t == t;
    } else {
      EncodeConcat(s[1..], t);
      EncodeCons(s[0], s[1..] + t);
      EncodeCons(s[0], s[1..]);
      assert s == [s[0]] + s[1..] && s + t == [s[0]] + (s[1..] + t);
    }
  }

  lemma EncodeNothing()
    ensures Encode([]) == []
  {
  }

  lemma EncodeCons(c: Scalar, s: seq<Scalar>)
    ensures Encode([c] + s) == EncodeScalar(c) + Encode(s)
  {
    assert ([c] + s)[1..] == s;
  }

  /** `Buffer.from(text, "utf8")` and `buffer.toString("utf8")`. */
  function ToUtf8(t: Text): seq<Byte> {
    Encode(ToScalars(t))
  }

  function FromUtf8(b: seq<Byte>): Text {
    ToText(Decode(b))
  }

  /** Text survives the trip through bytes exactly when it has no lone surrogate. */
  lemma Utf8RoundTrip(t: Text)
    ensures FromUtf8(ToUtf8(t)) == t <==> WellFormed(t)
  {
    DecodeEncode(ToScalars(t));
    TextRoundTrip(t);
  }
}
