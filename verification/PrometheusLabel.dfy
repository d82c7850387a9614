/** `prometheusEscape`: label values in the Prometheus text format 0.0.4. */
module PrometheusLabel {
  import opened Options
  import opened Unicode

  const QUOTE: CodeUnit := 0x22
  const BACKSLASH: CodeUnit := 0x5C
  const NEWLINE: CodeUnit := 0x0A
  const LETTER_N: CodeUnit := 0x6E

  /** `text.replace(/u/g, sub)`. */
  function ReplaceAll(t: Text, u: CodeUnit, sub: Text): Text {
    if t == [] then [] else (if t[0] == u then sub else [t[0]]) + ReplaceAll(t[1..], u, sub)
  }

  function Escape(t: Text): Text {
    var slashes := ReplaceAll(t, BACKSLASH, [BACKSLASH, BACKSLASH]);
    var quotes := ReplaceAll(slashes, QUOTE, [BACKSLASH, QUOTE]);
    ReplaceAll(quotes, NEWLINE, [BACKSLASH, LETTER_N])
  }

  /** What one unit of the value becomes. */
  function EscapeUnit(u: CodeUnit): Text {
    if u == BACKSLASH || u == QUOTE then [BACKSLASH, u]
    else if u == NEWLINE then [BACKSLASH, LETTER_N]
    else [u]
  }

  function EscapeEach(t: Text): Text {
    if t == [] then [] else EscapeUnit(t[0]) + EscapeEach(t[1..])
  }

  lemma {:induction false} ReplaceAllConcat(a: Text, b: Text, u: CodeUnit, sub: Text)
    ensures ReplaceAll(a + b, u, sub) == ReplaceAll(a, u, sub) + ReplaceAll(b, u, sub)
  {
    if a == [] {
      assert a + b == b;
    } else {
      assert (a + b)[1..] == a[1..] + b;
      ReplaceAllConcat(a[1..], b, u, sub);
    }
  }

  /** Three replacements in a row act on each unit of the value once, never on each other's output. */
  lemma {:induction false} SequenceIsOnePass(t: Text)
    ensures Escape(t) == EscapeEach(t)
  {
    if t == [] {
    } else {
      SequenceIsOnePass(t[1..]);
      var u := t[0];
      var s1 := if u == BACKSLASH then [BACKSLASH, BACKSLASH] else [u];
      var r1 := ReplaceAll(t[1..], BACKSLASH, [BACKSLASH, BACKSLASH]);
      ReplaceAllConcat(s1, r1, QUOTE, [BACKSLASH, QUOTE]);
      var s2 := ReplaceAll(s1, QUOTE, [BACKSLASH, QUOTE]);
      var r2 := ReplaceAll(r1, QUOTE, [BACKSLASH, QUOTE]);
      ReplaceAllConcat(s2, r2, NEWLINE, [BACKSLASH, LETTER_N]);
      OneUnit(u);
    }
  }

  lemma OneUnit(u: CodeUnit)
    ensures var s1 := if u == BACKSLASH then [BACKSLASH, BACKSLASH] else [u];
      ReplaceAll(ReplaceAll(s1, QUOTE, [BACKSLASH, QUOTE]), NEWLINE, [BACKSLASH, LETTER_N]) == EscapeUnit(u)
  {
    ReplaceShort(u, u, QUOTE, [BACKSLASH, QUOTE]);
    ReplaceShort(u, u, NEWLINE, [BACKSLASH, LETTER_N]);
    ReplaceShort(BACKSLASH, u, NEWLINE, [BACKSLASH, LETTER_N]);
  }

  lemma ReplaceShort(a: CodeUnit, b: CodeUnit, u: CodeUnit, sub: Text)
    ensures ReplaceAll([b], u, sub) == if b == u then sub else [b]
    ensures ReplaceAll([a, b], u, sub) == ReplaceAll([a], u, sub) + ReplaceAll([b], u, sub)
  {
    assert [b][1..] == [] && [a, b] == [a] + [b];
    ReplaceAllConcat([a], [b], u, sub);
  }

  /** A label-value lexer started after the opening quote: the value and the text after its closing
      quote.  A bare line feed and any other escape are errors. */
  function ReadLabel(s: Text): Option<(Text, Text)> {
    if s == [] || s[0] == NEWLINE then None
    else if s[0] == QUOTE then Some(([], s[1..]))
    else if s[0] != BACKSLASH then Prepend(s[0], ReadLabel(s[1..]))
    else if |s| < 2 then None
    else if s[1] == BACKSLASH || s[1] == QUOTE then Prepend(s[1], ReadLabel(s[2..]))
    else if s[1] == LETTER_N then Prepend(NEWLINE, ReadLabel(s[2..]))
    else None
  }

  function Prepend(u: CodeUnit, r: Option<(Text, Text)>): Option<(Text, Text)> {
    match r
    case Some((t, rest)) => Some(([u] + t, rest))
    case None => None
  }

  /** The lexer returns the original value and stops at the right closing quote, whatever follows. */
  lemma {:induction false} LabelRoundTrip(t: Text, rest: Text)
    ensures ReadLabel(Escape(t) + [QUOTE] + rest) == Some((t, rest))
  {
    hide Escape, EscapeEach, ReadLabel, ReplaceAll;
    SequenceIsOnePass(t);
    ReadEscapedEach(t, rest);
  }

  lemma {:induction false} ReadEscapedEach(t: Text, rest: Text)
    ensures ReadLabel(EscapeEach(t) + [QUOTE] + rest) == Some((t, rest))
  {
    if t == [] {
      assert [] + [QUOTE] + rest == [QUOTE] + rest && ([QUOTE] + rest)[1..] == rest;
    } else {
      var e, tail := EscapeUnit(t[0]), EscapeEach(t[1..]) + [QUOTE] + rest;
      assert EscapeEach(t) + [QUOTE] + rest == e + tail;
      ReadEscapedEach(t[1..], rest);
      ReadEscapedUnit(t[0], tail, t[1..], rest);
      assert [t[0]] + t[1..] == t;
    }
  }

  lemma ReadEscapedUnit(u: CodeUnit, tail: Text, t: Text, rest: Text)
    requires ReadLabel(tail) == Some((t, rest))
    ensures ReadLabel(EscapeUnit(u) + tail) == Some(([u] + t, rest))
  {
    var e := EscapeUnit(u);
    assert (e + tail)[|e|..] == tail;
  }

  /** So a rendered sample line shows which service it is about. */
  lemma EscapeInjective(t: Text, u: Text)
    requires Escape(t) == Escape(u)
    ensures t == u
  {
    LabelRoundTrip(t, []);
    LabelRoundTrip(u, []);
  }
}
