/** `capOutput` of the remote sandbox bridge: cut captured output to a byte budget.

    The cut works on bytes, so it may fall inside a character; decoding then shows U+FFFD. */
module CapOutput {
  import opened Unicode

  /** The end index `subarray(0, end)` uses: a negative end counts back from the length. */
  function SubarrayEnd(length: nat, end: int): (n: nat)
    ensures n <= length
  {
    if end >= length then length
    else if end >= 0 then end
    else if length + end >= 0 then length + end
    else 0
  }

  /** A budget keeps that many bytes, or all there are; a negative one drops that many at the end, or all. */
  lemma CutEndExactly(length: nat, end: int)
    ensures 0 <= end <= length ==> SubarrayEnd(length, end) == end
    ensures length < end ==> SubarrayEnd(length, end) == length
    ensures end < 0 ==> length - SubarrayEnd(length, end) == if -end <= length then -end else length
  {
  }

  datatype Capped = Capped(stdout: Text, stderr: Text, outputTruncated: bool)

  function ByteLength(t: Text): nat {
    |ToUtf8(t)|
  }

  function CutStream(t: Text, maxBytes: int): Text {
    var b := ToUtf8(t);
    FromUtf8(b[..SubarrayEnd(|b|, maxBytes)])
  }

  function CapOutput(stdout: Text, stderr: Text, maxBytes: int): Capped {
    var truncated := ByteLength(stdout) > maxBytes || ByteLength(stderr) > maxBytes;
    Capped(CutStream(stdout, maxBytes), CutStream(stderr, maxBytes), truncated)
  }

  /** `k` characters of `s` fit in `n` bytes and no more do. */
  predicate LongestFit(s: seq<Scalar>, n: nat, k: nat) {
    && k <= |s|
    && |Encode(s[..k])| <= n
    && (k < |s| ==> n < |Encode(s[..k + 1])|)
  }

  function FitCount(s: seq<Scalar>, n: nat): (k: nat)
    ensures k <= |s|
  {
    if s == [] || n < |EncodeScalar(s[0])| then 0
    else 1 + FitCount(s[1..], n - |EncodeScalar(s[0])|)
  }

  lemma {:induction false} FitCountIsLongest(s: seq<Scalar>, n: nat)
    ensures LongestFit(s, n, FitCount(s, n))
  {
    if s == [] {
    } else if n < |EncodeScalar(s[0])| {
      assert s[..0] == [] && s[..1] == [s[0]] && s[..1][1..] == [];
    } else {
      var e := |EncodeScalar(s[0])|;
      FitCountIsLongest(s[1..], n - e);
      var k := FitCount(s[1..], n - e);
      assert s[..k + 1][1..] == s[1..][..k];
      if k < |s[1..]| {
        assert s[..k + 2][1..] == s[1..][..k + 1];
      }
    }
  }

  /** Decoding any cut of an encoding gives the whole characters that fit, and one U+FFFD more
      exactly when the cut fell inside a character. */
  lemma {:induction false} DecodeCut(s: seq<Scalar>, n: nat)
    requires n <= |Encode(s)|
    ensures var k := FitCount(s, n);
      && |Encode(s[..k])| <= n
      && Decode(Encode(s)[..n]) == s[..k] + (if |Encode(s[..k])| < n then [REPLACEMENT] else [])
  {
    if s == [] {
    } else {
      var e, rest := EncodeScalar(s[0]), Encode(s[1..]);
      if n < |e| {
        assert Encode(s)[..n] == e[..n];
        assert s[..0] == [];
        if n > 0 { DecodeCutScalar(s[0], n); }
      } else {
        DecodeCut(s[1..], n - |e|);
        assert Encode(s)[..n] == e + rest[..n - |e|];
        DecodeScalar(s[0], rest[..n - |e|]);
        EncodePrefix(s, FitCount(s[1..], n - |e|));
      }
    }
  }

  lemma EncodePrefix(s: seq<Scalar>, k: nat)
    requires k < |s|
    ensures s[..k + 1] == [s[0]] + s[1..][..k]
    ensures Encode(s[..k + 1]) == EncodeScalar(s[0]) + Encode(s[1..][..k])
  {
    assert s[..k + 1][1..] == s[1..][..k];
  }

  /** The exact result on every stream and every budget: the longest whole-character prefix within
      the cut, then U+FFFD exactly when the cut fell inside a character. */
  lemma CutStreamExact(t: Text, maxBytes: int) returns (k: nat)
    ensures var s, n := ToScalars(t), SubarrayEnd(ByteLength(t), maxBytes);
      && LongestFit(s, n, k)
      && ToScalars(CutStream(t, maxBytes)) == s[..k] + (if |Encode(s[..k])| < n then [REPLACEMENT] else [])
      && WellFormed(CutStream(t, maxBytes))
      && (forall m: nat :: LongestFit(s, n, m) ==> m == k)
  {
    var s, n := ToScalars(t), SubarrayEnd(ByteLength(t), maxBytes);
    k := FitCount(s, n);
    FitCountIsLongest(s, n);
    DecodeCut(s, n);
    ScalarsRoundTrip(Decode(Encode(s)[..n]));
    ToTextWellFormed(Decode(Encode(s)[..n]));
    forall m: nat | LongestFit(s, n, m)
      ensures m == k
    {
      LongestFitUnique(s, n, k, m);
    }
  }

  lemma LongestFitUnique(s: seq<Scalar>, n: nat, k: nat, m: nat)
    requires LongestFit(s, n, k) && LongestFit(s, n, m)
    ensures k == m
  {
    if k < m {
      EncodeMonotone(s, k + 1, m);
    } else if m < k {
      EncodeMonotone(s, m + 1, k);
    }
  }

  lemma EncodeMonotone(s: seq<Scalar>, i: nat, j: nat)
    requires i <= j <= |s|
    ensures |Encode(s[..i])| <= |Encode(s[..j])|
  {
    assert s[..j] == s[..i] + s[i..j];
    EncodeConcat(s[..i], s[i..j]);
  }

  /** The byte size of a cut stream: at most two bytes over a non-negative budget. */
  lemma CutStreamSize(t: Text, maxBytes: nat)
    ensures ByteLength(CutStream(t, maxBytes)) <= maxBytes + 2
  {
    var k := CutStreamExact(t, maxBytes);
    var s, n := ToScalars(t), SubarrayEnd(ByteLength(t), maxBytes);
    EncodeConcat(s[..k], [REPLACEMENT]);
    assert Encode([REPLACEMENT]) == EncodeScalar(REPLACEMENT);
    assert s[..k] + [] == s[..k];
  }

  /** The bound of `CutStreamSize` is reached: U+00E9 cut after its first byte. */
  lemma CutStreamSizeTight()
    ensures ByteLength(CutStream([0xE9], 1)) == 1 + 2
  {
    var t: Text := [0xE9];
    assert ToScalars(t) == [0xE9];
    assert Encode([0xE9]) == EncodeScalar(0xE9) == [0xC3, 0xA9];
    var k := CutStreamExact(t, 1);
    var s: seq<Scalar> := [0xE9];
    assert s[..1] == s && s[..0] == [];
    assert k == 0;
    assert Encode([REPLACEMENT]) == EncodeScalar(REPLACEMENT);
    assert ToScalars(CutStream(t, 1)) == [REPLACEMENT];
  }

  /** The cut loses nothing: the budget covers the stream, or all it cuts is the tail of a final
      U+FFFD, which decoding puts back. */
  predicate NothingLost(t: Text, maxBytes: int) {
    var s, n := ToScalars(t), SubarrayEnd(ByteLength(t), maxBytes);
    || n == ByteLength(t)
    || (s != [] && s[|s| - 1] == REPLACEMENT && ByteLength(t) - 3 < n)
  }

  /** The same question on the characters of the stream. */
  lemma CutScalarsUnchanged(s: seq<Scalar>, n: nat, k: nat)
    requires LongestFit(s, n, k) && n <= |Encode(s)|
    ensures s[..k] + (if |Encode(s[..k])| < n then [REPLACEMENT] else []) == s
       <==> n == |Encode(s)| || (s != [] && s[|s| - 1] == REPLACEMENT && |Encode(s)| - 3 < n)
  {
    if k == |s| {
      assert s[..k] == s;
    } else if k + 1 == |s| {
      assert s[..k + 1] == s;
      CutLast(s, n, k);
    } else {
      EncodeMonotone(s, k + 1, |s|);
      assert s[..|s|] == s;
      assert |s[..k] + [REPLACEMENT]| == k + 1 < |s|;
      if s[|s| - 1] == REPLACEMENT {
        CutBeforeLast(s, n, k);
      }
    }
  }

  lemma CutLast(s: seq<Scalar>, n: nat, k: nat)
    requires k + 1 == |s| && |Encode(s[..k])| <= n < |Encode(s)|
    ensures s[..k] + (if |Encode(s[..k])| < n then [REPLACEMENT] else []) == s
       <==> s[k] == REPLACEMENT && |Encode(s)| - 3 < n
  {
    assert s == s[..k] + [s[k]];
    EncodeConcat(s[..k], [s[k]]);
    assert Encode([s[k]]) == EncodeScalar(s[k]);
  }

  /** A stream comes back unchanged exactly when it has no lone surrogate and nothing is lost. */
  lemma CutStreamUnchanged(t: Text, maxBytes: int)
    ensures CutStream(t, maxBytes) == t <==> WellFormed(t) && NothingLost(t, maxBytes)
  {
    hide CutStream, Encode, ToScalars;
    var s, n, out := ToScalars(t), SubarrayEnd(ByteLength(t), maxBytes), CutStream(t, maxBytes);
    var k := CutStreamExact(t, maxBytes);
    CutScalarsUnchanged(s, n, k);
    if WellFormed(t) {
      TextRoundTrip(t);
      TextRoundTrip(out);
    }
  }

  lemma CutBeforeLast(s: seq<Scalar>, n: nat, k: nat)
    requires k + 1 < |s| && n < |Encode(s[..k + 1])|
    requires s[|s| - 1] == REPLACEMENT
    ensures n < |Encode(s)| - 3
  {
    var m := |s| - 1;
    EncodeMonotone(s, k + 1, m);
    assert s == s[..m] + [REPLACEMENT];
    EncodeConcat(s[..m], [REPLACEMENT]);
    assert Encode([REPLACEMENT]) == EncodeScalar(REPLACEMENT);
  }

  /** With the flag clear, both streams come back unchanged exactly when neither has a lone surrogate. */
  lemma FlagClear(stdout: Text, stderr: Text, maxBytes: int)
    ensures var r := CapOutput(stdout, stderr, maxBytes);
      !r.outputTruncated ==>
        (r.stdout == stdout && r.stderr == stderr <==> WellFormed(stdout) && WellFormed(stderr))
  {
    CutStreamUnchanged(stdout, maxBytes);
    CutStreamUnchanged(stderr, maxBytes);
  }

  predicate DropsBytes(t: Text, maxBytes: int) {
    SubarrayEnd(ByteLength(t), maxBytes) < ByteLength(t)
  }

  /** The flag tells whether some stream lost bytes; a negative budget sets it in any case. */
  lemma FlagTellsDroppedBytes(stdout: Text, stderr: Text, maxBytes: int)
    ensures CapOutput(stdout, stderr, maxBytes).outputTruncated
       <==> maxBytes < 0 || DropsBytes(stdout, maxBytes) || DropsBytes(stderr, maxBytes)
  {
    assert 0 <= maxBytes ==> (DropsBytes(stdout, maxBytes) <==> maxBytes < ByteLength(stdout));
  }

  /** A stream within budget that does not come back: one lone surrogate. */
  lemma LoneSurrogateChanges()
    ensures var t: Text := [0xD800];
      ByteLength(t) == 3 && CutStream(t, 3) == [0xFFFD] && !CapOutput(t, [], 3).outputTruncated
  {
    var t: Text := [0xD800];
    assert ToScalars(t) == [REPLACEMENT];
    assert ToUtf8(t) == EncodeScalar(REPLACEMENT) == [0xEF, 0xBF, 0xBD];
    DecodeEncode([REPLACEMENT]);
    assert ToUtf8(t)[..3] == ToUtf8(t);
  }
}
