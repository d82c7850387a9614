/** JSON texts as `JSON.stringify` writes them, and a reader for compact JSON (RFC 8259 without
    insignificant whitespace). */
module JsonText {
  import opened Options
  import opened Unicode

  const QUOTE: CodeUnit := 0x22
  const BACKSLASH: CodeUnit := 0x5C
  const COMMA: CodeUnit := 0x2C
  const COLON: CodeUnit := 0x3A
  const OPEN_BRACKET: CodeUnit := 0x5B
  const CLOSE_BRACKET: CodeUnit := 0x5D
  const OPEN_BRACE: CodeUnit := 0x7B
  const CLOSE_BRACE: CodeUnit := 0x7D
  const LETTER_U: CodeUnit := 0x75

  const NULL_TEXT: Text := [0x6E, 0x75, 0x6C, 0x6C]
  const TRUE_TEXT: Text := [0x74, 0x72, 0x75, 0x65]
  const FALSE_TEXT: Text := [0x66, 0x61, 0x6C, 0x73, 0x65]

  // ---- Strings ---------------------------------------------------------------------------------

  function HexDigit(n: nat): CodeUnit
    requires n < 16
  {
    if n < 10 then 0x30 + n else 0x57 + n
  }

  function HexValue(u: CodeUnit): int {
    if 0x30 <= u <= 0x39 then u - 0x30
    else if 0x61 <= u <= 0x66 then u - 0x57
    else if 0x41 <= u <= 0x46 then u - 0x37
    else -1
  }

  function UnicodeEscape(u: CodeUnit): Text {
    [BACKSLASH, LETTER_U, HexDigit(u / 0x10 / 0x10 / 0x10), HexDigit(u / 0x10 / 0x10 % 0x10),
     HexDigit(u / 0x10 % 0x10), HexDigit(u % 0x10)]
  }

  /** The letter of a two-character escape, as `JSON.stringify` chooses it. */
  function ShortEscape(u: CodeUnit): Option<CodeUnit> {
    if u == QUOTE || u == BACKSLASH then Some(u)
    else if u == 0x08 then Some(0x62)
    else if u == 0x0C then Some(0x66)
    else if u == 0x0A then Some(0x6E)
    else if u == 0x0D then Some(0x72)
    else if u == 0x09 then Some(0x74)
    else None
  }

  /** One unit that is not half of a surrogate pair.  A lone surrogate is escaped. */
  function EscapeUnit(u: CodeUnit): Text {
    match ShortEscape(u)
    case Some(letter) => [BACKSLASH, letter]
    case None => if u < 0x20 || IsHigh(u) || IsLow(u) then UnicodeEscape(u) else [u]
  }

  function EscapeText(t: Text): Text {
    if t == [] then []
    else if StartsWithPair(t) then [t[0], t[1]] + EscapeText(t[2..])
    else EscapeUnit(t[0]) + EscapeText(t[1..])
  }

  function Quote(t: Text): Text {
    [QUOTE] + EscapeText(t) + [QUOTE]
  }

  function EscapedLetter(u: CodeUnit): Option<CodeUnit> {
    if u == QUOTE || u == BACKSLASH || u == 0x2F then Some(u)
    else if u == 0x62 then Some(0x08)
    else if u == 0x66 then Some(0x0C)
    else if u == 0x6E then Some(0x0A)
    else if u == 0x72 then Some(0x0D)
    else if u == 0x74 then Some(0x09)
    else None
  }

  function ReadHex(s: Text): Option<CodeUnit> {
    if |s| < 4 then None
    else
      var a, b, c, d := HexValue(s[0]), HexValue(s[1]), HexValue(s[2]), HexValue(s[3]);
      if a < 0 || b < 0 || c < 0 || d < 0 then None
      else Some(((a * 0x10 + b) * 0x10 + c) * 0x10 + d)
  }

  /** One unit of a string body and the text after it. */
  function ReadUnit(s: Text): (r: Option<(CodeUnit, Text)>)
    requires s != []
    ensures r.Some? ==> |r.value.1| < |s|
  {
    if s[0] != BACKSLASH then (if s[0] < 0x20 then None else Some((s[0], s[1..])))
    else if |s| < 2 then None
    else if s[1] == LETTER_U then
      match ReadHex(s[2..])
      case Some(u) => Some((u, s[6..]))
      case None => None
    else
      match EscapedLetter(s[1])
      case Some(u) => Some((u, s[2..]))
      case None => None
  }

  /** Reads a string body up to its closing quote: the string and the text after the quote. */
  function ReadString(s: Text): (r: Option<(Text, Text)>)
    ensures r.Some? ==> |r.value.1| < |s|
    decreases |s|
  {
    if s == [] then None
    else if s[0] == QUOTE then Some(([], s[1..]))
    else
      match ReadUnit(s)
      case None => None
      case Some((u, rest)) =>
        match ReadString(rest)
        case None => None
        case Some((t, rest')) => Some(([u] + t, rest'))
  }

  predicate IsPlainUnit(u: CodeUnit) {
    u >= 0x20 && u != QUOTE && u != BACKSLASH && !IsHigh(u) && !IsLow(u)
  }

  /** Only quotes, backslashes, control units and lone surrogates are escaped. */
  lemma {:induction false} PlainTextStays(t: Text)
    requires forall i :: 0 <= i < |t| ==> IsPlainUnit(t[i])
    ensures EscapeText(t) == t
  {
    if t != [] {
      assert forall i :: 0 <= i < |t[1..]| ==> t[1..][i] == t[i + 1];
      PlainTextStays(t[1..]);
    }
  }

  /** How one unit is escaped: by a letter of its own, or by four hexadecimal digits in lower case. */
  lemma EscapeExactly(u: CodeUnit)
    ensures u == QUOTE || u == BACKSLASH ==> EscapeText([u]) == [0x5C, u]
    ensures u == 0x08 ==> EscapeText([u]) == [0x5C, 0x62]
    ensures u == 0x09 ==> EscapeText([u]) == [0x5C, 0x74]
    ensures u == 0x0A ==> EscapeText([u]) == [0x5C, 0x6E]
    ensures u == 0x0C ==> EscapeText([u]) == [0x5C, 0x66]
    ensures u == 0x0D ==> EscapeText([u]) == [0x5C, 0x72]
    ensures u < 0x20 && u !in {0x08, 0x09, 0x0A, 0x0C, 0x0D} ==>
      EscapeText([u]) == [0x5C, 0x75, 0x30, 0x30, 0x30 + u / 16, if u % 16 < 10 then 0x30 + u % 16 else 0x57 + u % 16]
    ensures IsHigh(u) || IsLow(u) ==> |EscapeText([u])| == 6 && EscapeText([u])[..3] == [0x5C, 0x75, 0x64]
  {
    assert [u][1..] == [];
    assert EscapeText([u]) == EscapeUnit(u) + [];
    assert IsHigh(u) || IsLow(u) ==> u / 0x10 / 0x10 / 0x10 == 13;
  }

  lemma ReadEscapedUnit(u: CodeUnit, rest: Text)
    ensures var s := EscapeUnit(u) + rest;
      s[0] != QUOTE && ReadUnit(s) == Some((u, rest))
  {
    var e := EscapeUnit(u);
    var s := e + rest;
    if |e| == 6 {
      var h := s[2..];
      assert h[0] == e[2] && h[1] == e[3] && h[2] == e[4] && h[3] == e[5];
      assert ReadHex(h) == Some(u);
      assert s[6..] == rest;
    } else if |e| == 2 {
      assert s[1] == e[1] && s[2..] == rest;
    } else {
      assert s[1..] == rest;
    }
  }

  /** A quoted string reads back whole and the reader stops right after its closing quote. */
  lemma {:induction false} ReadQuoted(t: Text, rest: Text)
    ensures ReadString(EscapeText(t) + [QUOTE] + rest) == Some((t, rest))
  {
    if t == [] {
      assert [] + [QUOTE] + rest == [QUOTE] + rest && ([QUOTE] + rest)[1..] == rest;
    } else if StartsWithPair(t) {
      ReadQuoted(t[2..], rest);
      ReadPairThen(t, rest);
    } else {
      ReadQuoted(t[1..], rest);
      ReadUnitThen(t, rest);
    }
  }

  lemma ReadUnitThen(t: Text, rest: Text)
    requires t != [] && !StartsWithPair(t)
    requires ReadString(EscapeText(t[1..]) + [QUOTE] + rest) == Some((t[1..], rest))
    ensures ReadString(EscapeText(t) + [QUOTE] + rest) == Some((t, rest))
  {
    var e, tail := EscapeUnit(t[0]), EscapeText(t[1..]) + [QUOTE] + rest;
    assert EscapeText(t) + [QUOTE] + rest == e + tail;
    ReadEscapedUnit(t[0], tail);
    assert [t[0]] + t[1..] == t;
  }

  /** A unit that stands for itself. */
  lemma ReadRawUnit(u: CodeUnit, tail: Text, t: Text, rest: Text)
    requires u != QUOTE && u != BACKSLASH && 0x20 <= u && ReadString(tail) == Some((t, rest))
    ensures ReadString([u] + tail) == Some(([u] + t, rest))
  {
    assert ([u] + tail)[1..] == tail;
  }

  lemma ReadPairThen(t: Text, rest: Text)
    requires StartsWithPair(t)
    requires ReadString(EscapeText(t[2..]) + [QUOTE] + rest) == Some((t[2..], rest))
    ensures ReadString(EscapeText(t) + [QUOTE] + rest) == Some((t, rest))
  {
    var s, tail := EscapeText(t[2..]), EscapeText(t[2..]) + [QUOTE] + rest;
    ReadRawUnit(t[1], tail, t[2..], rest);
    ReadRawUnit(t[0], [t[1]] + tail, [t[1]] + t[2..], rest);
    EscapedPair(t);
    TwoThen(t[0], t[1], s, [QUOTE], rest);
    TwoFirst(t);
  }

  lemma EscapedPair(t: Text)
    requires StartsWithPair(t)
    ensures EscapeText(t) == [t[0], t[1]] + EscapeText(t[2..])
  {
  }

  lemma TwoFirst(t: Text)
    requires |t| >= 2
    ensures [t[0]] + ([t[1]] + t[2..]) == t
  {
  }

  lemma TwoThen(u: CodeUnit, v: CodeUnit, s: Text, q: Text, rest: Text)
    ensures [u] + ([v] + (s + q + rest)) == ([u, v] + s) + q + rest
  {
  }

  /** `JSON.stringify` never emits a lone surrogate, so its text survives UTF-8. */
  lemma {:induction false} EscapeTextWellFormed(t: Text)
    ensures WellFormed(EscapeText(t))
  {
    hide EscapeUnit, WellFormed;
    if t == [] {
      assert WellFormed([]) by { EmptyWellFormed(); }
    } else if StartsWithPair(t) {
      EscapeTextWellFormed(t[2..]);
      PairWellFormed(t[0], t[1]);
      WellFormedConcat([t[0], t[1]], EscapeText(t[2..]));
    } else {
      EscapeTextWellFormed(t[1..]);
      UnitWellFormed(t[0]);
      WellFormedConcat(EscapeUnit(t[0]), EscapeText(t[1..]));
    }
  }

  lemma EmptyWellFormed()
    ensures WellFormed([])
  {
  }

  lemma PairWellFormed(high: CodeUnit, low: CodeUnit)
    requires IsHigh(high) && IsLow(low)
    ensures WellFormed([high, low])
  {
  }

  lemma UnitWellFormed(u: CodeUnit)
    ensures WellFormed(EscapeUnit(u))
  {
  }

  lemma QuoteWellFormed(t: Text)
    ensures WellFormed(Quote(t))
  {
    EscapeTextWellFormed(t);
    WellFormedConcat([QUOTE], EscapeText(t));
    WellFormedConcat([QUOTE] + EscapeText(t), [QUOTE]);
  }

  // ---- Values ----------------------------------------------------------------------------------

  predicate IsNumberUnit(u: CodeUnit) {
    0x30 <= u <= 0x39 || u == 0x2B || u == 0x2D || u == 0x2E || u == 0x45 || u == 0x65
  }

  predicate StartsNumber(u: CodeUnit) {
    0x30 <= u <= 0x39 || u == 0x2D
  }

  predicate IsNumberToken(t: Text) {
    t != [] && StartsNumber(t[0]) && forall i :: 0 <= i < |t| ==> IsNumberUnit(t[i])
  }

  /** The decimal text of a finite number, as JavaScript prints it. */
  type NumberToken = t: Text | IsNumberToken(t) witness [0x30]

  datatype Json =
    | JNull
    | JBool(b: bool)
    | JNumber(token: NumberToken)
    | JString(t: Text)
    | JArray(items: seq<Json>)
    | JObject(members: map<Text, Json>)

  function ReadWord(s: Text, word: Text, value: Json): (r: Option<(Json, Text)>)
    requires word != []
    ensures r.Some? ==> |r.value.1| < |s|
  {
    if |word| <= |s| && s[..|word|] == word then Some((value, s[|word|..])) else None
  }

  lemma ReadWordText(word: Text, value: Json, rest: Text)
    requires word != []
    ensures ReadWord(word + rest, word, value) == Some((value, rest))
  {
    assert (word + rest)[..|word|] == word && (word + rest)[|word|..] == rest;
  }

  function NumberSpan(s: Text): (n: nat)
    ensures n <= |s|
  {
    if s == [] || !IsNumberUnit(s[0]) then 0 else 1 + NumberSpan(s[1..])
  }

  lemma {:induction false} NumberSpanUnits(s: Text)
    ensures forall i :: 0 <= i < NumberSpan(s) ==> IsNumberUnit(s[i])
  {
    if s == [] || !IsNumberUnit(s[0]) {
    } else {
      NumberSpanUnits(s[1..]);
      forall i | 0 <= i < NumberSpan(s)
        ensures IsNumberUnit(s[i])
      {
        if i > 0 { assert s[i] == s[1..][i - 1]; }
      }
    }
  }

  lemma {:induction false} NumberSpanExact(t: Text, rest: Text)
    requires forall i :: 0 <= i < |t| ==> IsNumberUnit(t[i])
    requires rest == [] || !IsNumberUnit(rest[0])
    ensures NumberSpan(t + rest) == |t|
  {
    if t == [] {
      assert t + rest == rest;
    } else {
      assert (t + rest)[1..] == t[1..] + rest;
      NumberSpanExact(t[1..], rest);
    }
  }

  function ReadNumber(s: Text): (r: Option<(Json, Text)>)
    ensures r.Some? ==> |r.value.1| < |s|
  {
    if s == [] || !StartsNumber(s[0]) then None
    else
      var n := NumberSpan(s);
      NumberSpanUnits(s);
      Some((JNumber(s[..n]), s[n..]))
  }

  function ReadValue(s: Text): (r: Option<(Json, Text)>)
    ensures r.Some? ==> |r.value.1| < |s|
    decreases |s|, 0
  {
    if s == [] then None
    else if s[0] == NULL_TEXT[0] then ReadWord(s, NULL_TEXT, JNull)
    else if s[0] == TRUE_TEXT[0] then ReadWord(s, TRUE_TEXT, JBool(true))
    else if s[0] == FALSE_TEXT[0] then ReadWord(s, FALSE_TEXT, JBool(false))
    else if s[0] == QUOTE then
      match ReadString(s[1..])
      case None => None
      case Some((t, rest)) => Some((JString(t), rest))
    else if s[0] == OPEN_BRACKET then
      if |s| > 1 && s[1] == CLOSE_BRACKET then Some((JArray([]), s[2..]))
      else
        match ReadItems(s[1..])
        case None => None
        case Some((items, rest)) => Some((JArray(items), rest))
    else if s[0] == OPEN_BRACE then
      if |s| > 1 && s[1] == CLOSE_BRACE then Some((JObject(map[]), s[2..]))
      else
        match ReadMembers(s[1..])
        case None => None
        case Some((members, rest)) => Some((JObject(members), rest))
    else ReadNumber(s)
  }

  /** One or more values up to the closing bracket. */
  function ReadItems(s: Text): (r: Option<(seq<Json>, Text)>)
    ensures r.Some? ==> |r.value.1| < |s|
    decreases |s|, 1
  {
    match ReadValue(s)
    case None => None
    case Some((item, rest)) =>
      if rest == [] then None
      else if rest[0] == CLOSE_BRACKET then Some(([item], rest[1..]))
      else if rest[0] != COMMA then None
      else
        match ReadItems(rest[1..])
        case None => None
        case Some((items, rest')) => Some(([item] + items, rest'))
  }

  /** One `"key":value` and the text after it. */
  function ReadMember(s: Text): (r: Option<(Text, Json, Text)>)
    ensures r.Some? ==> |r.value.2| < |s|
    decreases |s|, 0
  {
    if s == [] || s[0] != QUOTE then None
    else
      match ReadString(s[1..])
      case None => None
      case Some((key, rest)) =>
        if rest == [] || rest[0] != COLON then None
        else
          match ReadValue(rest[1..])
          case None => None
          case Some((value, rest')) => Some((key, value, rest'))
  }

  /** One or more members up to the closing brace; a later duplicate key wins. */
  function ReadMembers(s: Text): (r: Option<(map<Text, Json>, Text)>)
    ensures r.Some? ==> |r.value.1| < |s|
    decreases |s|, 1
  {
    match ReadMember(s)
    case None => None
    case Some((key, value, rest)) =>
      if rest == [] then None
      else if rest[0] == CLOSE_BRACE then Some((map[key := value], rest[1..]))
      else if rest[0] != COMMA then None
      else
        match ReadMembers(rest[1..])
        case None => None
        case Some((members, rest')) => Some((map[key := value] + members, rest'))
  }

  lemma ReadQuotedValue(t: Text, rest: Text)
    ensures ReadValue(Quote(t) + rest) == Some((JString(t), rest))
  {
    var s := Quote(t) + rest;
    assert s[1..] == EscapeText(t) + [QUOTE] + rest;
    ReadQuoted(t, rest);
  }

  function MemberText(key: Text, value: Text): Text {
    Quote(key) + [COLON] + value
  }

  lemma ReadMemberText(key: Text, text: Text, value: Json, rest: Text)
    requires ReadValue(text + rest) == Some((value, rest))
    ensures ReadMember(MemberText(key, text) + rest) == Some((key, value, rest))
  {
    var after := [COLON] + text + rest;
    MemberTextParts(key, text, rest);
    ReadQuoted(key, after);
    assert after[1..] == text + rest;
  }

  lemma MemberTextParts(key: Text, text: Text, rest: Text)
    ensures var s := MemberText(key, text) + rest;
      s[0] == QUOTE && s[1..] == EscapeText(key) + [QUOTE] + ([COLON] + text + rest)
  {
  }

  /** `parts.join(",")`. */
  function Join(parts: seq<Text>): Text {
    if parts == [] then []
    else if |parts| == 1 then parts[0]
    else parts[0] + [COMMA] + Join(parts[1..])
  }

  lemma JoinCons(parts: seq<Text>, close: Text)
    requires |parts| > 1
    ensures Join(parts) + close == parts[0] + ([COMMA] + (Join(parts[1..]) + close))
  {
  }

  // ---- One step of each list reader ------------------------------------------------------------

  lemma ReadLastItem(p: Text, v: Json, rest: Text)
    requires ReadValue(p + ([CLOSE_BRACKET] + rest)) == Some((v, [CLOSE_BRACKET] + rest))
    ensures ReadItems(p + ([CLOSE_BRACKET] + rest)) == Some(([v], rest))
  {
    assert ([CLOSE_BRACKET] + rest)[1..] == rest;
  }

  lemma ReadNextItem(p: Text, v: Json, tail: Text, items: seq<Json>, rest: Text)
    requires ReadValue(p + ([COMMA] + tail)) == Some((v, [COMMA] + tail))
    requires ReadItems(tail) == Some((items, rest))
    ensures ReadItems(p + ([COMMA] + tail)) == Some(([v] + items, rest))
  {
    assert ([COMMA] + tail)[1..] == tail;
  }

  lemma ReadLastMember(p: Text, key: Text, v: Json, rest: Text)
    requires ReadMember(p + ([CLOSE_BRACE] + rest)) == Some((key, v, [CLOSE_BRACE] + rest))
    ensures ReadMembers(p + ([CLOSE_BRACE] + rest)) == Some((map[key := v], rest))
  {
    assert ([CLOSE_BRACE] + rest)[1..] == rest;
  }

  lemma ReadNextMember(p: Text, key: Text, v: Json, tail: Text, members: map<Text, Json>, rest: Text)
    requires ReadMember(p + ([COMMA] + tail)) == Some((key, v, [COMMA] + tail))
    requires ReadMembers(tail) == Some((members, rest))
    ensures ReadMembers(p + ([COMMA] + tail)) == Some((map[key := v] + members, rest))
  {
    assert ([COMMA] + tail)[1..] == tail;
  }

  lemma ReadArrayText(body: Text, items: seq<Json>, rest: Text)
    requires body != [] && body[0] != CLOSE_BRACKET
    requires ReadItems(body + ([CLOSE_BRACKET] + rest)) == Some((items, rest))
    ensures ReadValue([OPEN_BRACKET] + body + [CLOSE_BRACKET] + rest) == Some((JArray(items), rest))
  {
    Bracketed(OPEN_BRACKET, body, CLOSE_BRACKET, rest);
    ReadArrayFrom([OPEN_BRACKET] + body + [CLOSE_BRACKET] + rest, items, rest);
  }

  lemma Bracketed(open: CodeUnit, body: Text, close: CodeUnit, rest: Text)
    ensures var s := [open] + body + [close] + rest;
      s != [] && s[0] == open && s[1..] == body + ([close] + rest) && |s| > 1 && s[1] == (body + [close])[0]
  {
  }

  lemma ReadArrayFrom(s: Text, items: seq<Json>, rest: Text)
    requires |s| > 1 && s[0] == OPEN_BRACKET && s[1] != CLOSE_BRACKET && ReadItems(s[1..]) == Some((items, rest))
    ensures ReadValue(s) == Some((JArray(items), rest))
  {
  }

  lemma ReadObjectFrom(s: Text, members: map<Text, Json>, rest: Text)
    requires |s| > 1 && s[0] == OPEN_BRACE && s[1] != CLOSE_BRACE && ReadMembers(s[1..]) == Some((members, rest))
    ensures ReadValue(s) == Some((JObject(members), rest))
  {
  }

  lemma ReadEmptyArray(rest: Text)
    ensures ReadValue([OPEN_BRACKET] + [] + [CLOSE_BRACKET] + rest) == Some((JArray([]), rest))
  {
    var s := [OPEN_BRACKET] + [] + [CLOSE_BRACKET] + rest;
    assert s[1] == CLOSE_BRACKET && s[2..] == rest;
  }

  lemma ReadObjectText(body: Text, members: map<Text, Json>, rest: Text)
    requires body != [] && body[0] == QUOTE
    requires ReadMembers(body + ([CLOSE_BRACE] + rest)) == Some((members, rest))
    ensures ReadValue([OPEN_BRACE] + body + [CLOSE_BRACE] + rest) == Some((JObject(members), rest))
  {
    Bracketed(OPEN_BRACE, body, CLOSE_BRACE, rest);
    ReadObjectFrom([OPEN_BRACE] + body + [CLOSE_BRACE] + rest, members, rest);
  }

  lemma ReadEmptyObject(rest: Text)
    ensures ReadValue([OPEN_BRACE] + [] + [CLOSE_BRACE] + rest) == Some((JObject(map[]), rest))
  {
    var s := [OPEN_BRACE] + [] + [CLOSE_BRACE] + rest;
    assert s[1] == CLOSE_BRACE && s[2..] == rest;
  }

  // ---- Objects of strings ----------------------------------------------------------------------

  datatype StringMember = StringMember(key: Text, value: Text)

  /** `JSON.stringify` of an object whose fields all hold strings, in insertion order. */
  function StringObjectText(ms: seq<StringMember>): Text {
    [OPEN_BRACE] + Join(StringMemberTexts(ms)) + [CLOSE_BRACE]
  }

  function StringMemberTexts(ms: seq<StringMember>): (r: seq<Text>)
    ensures |r| == |ms|
  {
    if ms == [] then [] else [MemberText(ms[0].key, Quote(ms[0].value))] + StringMemberTexts(ms[1..])
  }

  function StringMemberMap(ms: seq<StringMember>): map<Text, Json> {
    if ms == [] then map[] else map[ms[0].key := JString(ms[0].value)] + StringMemberMap(ms[1..])
  }

  lemma {:induction false} ReadStringMembers(ms: seq<StringMember>, rest: Text)
    requires ms != []
    ensures ReadMembers(Join(StringMemberTexts(ms)) + ([CLOSE_BRACE] + rest)) == Some((StringMemberMap(ms), rest))
  {
    var parts, close := StringMemberTexts(ms), [CLOSE_BRACE] + rest;
    var k, v := ms[0].key, ms[0].value;
    assert parts[1..] == StringMemberTexts(ms[1..]);
    if |ms| == 1 {
      ReadQuotedValue(v, close);
      ReadMemberText(k, Quote(v), JString(v), close);
      ReadLastMember(parts[0], k, JString(v), rest);
      assert StringMemberMap(ms) == map[k := JString(v)];
    } else {
      var tail := Join(parts[1..]) + close;
      ReadQuotedValue(v, [COMMA] + tail);
      ReadMemberText(k, Quote(v), JString(v), [COMMA] + tail);
      ReadStringMembers(ms[1..], rest);
      ReadNextMember(parts[0], k, JString(v), tail, StringMemberMap(ms[1..]), rest);
      JoinCons(parts, close);
    }
  }

  lemma ParseStringObject(ms: seq<StringMember>)
    requires ms != []
    ensures Parse(StringObjectText(ms)) == Some(JObject(StringMemberMap(ms)))
  {
    ReadStringMembers(ms, []);
    var body := Join(StringMemberTexts(ms));
    assert body[0] == StringMemberTexts(ms)[0][0] == QUOTE;
    ReadObjectText(body, StringMemberMap(ms), []);
    assert [OPEN_BRACE] + body + [CLOSE_BRACE] + [] == StringObjectText(ms);
  }

  lemma {:induction false} StringMembersWellFormed(ms: seq<StringMember>)
    ensures WellFormed(Join(StringMemberTexts(ms)))
  {
    if ms == [] {
    } else {
      var parts := StringMemberTexts(ms);
      var k, v := Quote(ms[0].key), Quote(ms[0].value);
      QuoteWellFormed(ms[0].key);
      QuoteWellFormed(ms[0].value);
      WellFormedConcat(k, [COLON]);
      WellFormedConcat(k + [COLON], v);
      assert parts[0] == k + [COLON] + v && parts[1..] == StringMemberTexts(ms[1..]);
      if |ms| > 1 {
        StringMembersWellFormed(ms[1..]);
        WellFormedConcat(parts[0], [COMMA]);
        WellFormedConcat(parts[0] + [COMMA], Join(parts[1..]));
      }
    }
  }

  /** The text has no lone surrogate even when the strings do. */
  lemma StringObjectWellFormed(ms: seq<StringMember>)
    ensures WellFormed(StringObjectText(ms))
  {
    StringMembersWellFormed(ms);
    WellFormedConcat([OPEN_BRACE], Join(StringMemberTexts(ms)));
    WellFormedConcat([OPEN_BRACE] + Join(StringMemberTexts(ms)), [CLOSE_BRACE]);
  }

  /** `JSON.parse` on a whole text. */
  function Parse(s: Text): Option<Json> {
    match ReadValue(s)
    case Some((v, rest)) => if rest == [] then Some(v) else None
    case None => None
  }
}
