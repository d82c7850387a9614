/** The signed session token of the http-gateway: `ost.<payload>.<signature>`.

    The payload is the base64url of the UTF-8 JSON of the claims; the signature is the base64url of a
    32-byte digest of the payload under the session secret. */
module OperatorToken {
  import opened Options
  import opened Unicode
  import opened JsonText
  import Base64Url

  datatype Claims = Claims(actor: Text, role: Text, issuedAt: Text, expiresAt: Text, sessionId: Text)

  /** What the gateway takes from its platform: the keyed digest, `toISOString` and `Date.parse`. */
  datatype Platform = Platform(digest: Text -> seq<Byte>, isoDate: int -> Text, parseDate: Text -> Option<int>)

  ghost predicate IsPlatform(pf: Platform) {
    && (forall p :: |pf.digest(p)| == 32)
    && (forall t :: pf.parseDate(pf.isoDate(t)) == Some(t))
  }

  const ACTOR: Text := [0x61, 0x63, 0x74, 0x6F, 0x72]
  const ROLE: Text := [0x72, 0x6F, 0x6C, 0x65]
  const ISSUED_AT: Text := [0x69, 0x73, 0x73, 0x75, 0x65, 0x64, 0x41, 0x74]
  const EXPIRES_AT: Text := [0x65, 0x78, 0x70, 0x69, 0x72, 0x65, 0x73, 0x41, 0x74]
  const SESSION_ID: Text := [0x73, 0x65, 0x73, 0x73, 0x69, 0x6F, 0x6E, 0x49, 0x64]

  /** The text "ost", which a dot follows. */
  const OST: Text := [0x6F, 0x73, 0x74]
  const DOT: CodeUnit := Base64Url.DOT

  function ClaimMembers(c: Claims): seq<StringMember> {
    [StringMember(ACTOR, c.actor), StringMember(ROLE, c.role), StringMember(ISSUED_AT, c.issuedAt),
     StringMember(EXPIRES_AT, c.expiresAt), StringMember(SESSION_ID, c.sessionId)]
  }

  function Payload(c: Claims): Text {
    Base64Url.Encode(ToUtf8(StringObjectText(ClaimMembers(c))))
  }

  function Signature(pf: Platform, payload: Text): Text {
    Base64Url.Encode(pf.digest(payload))
  }

  function CreateToken(pf: Platform, c: Claims): Text {
    OST + [DOT] + Payload(c) + [DOT] + Signature(pf, Payload(c))
  }

  /** The five claims stand in the payload in this order, whatever their texts. */
  lemma PayloadText(c: Claims)
    ensures StringObjectText(ClaimMembers(c)) == [OPEN_BRACE] + (
      MemberText(ACTOR, Quote(c.actor)) + [COMMA] + (
      MemberText(ROLE, Quote(c.role)) + [COMMA] + (
      MemberText(ISSUED_AT, Quote(c.issuedAt)) + [COMMA] + (
      MemberText(EXPIRES_AT, Quote(c.expiresAt)) + [COMMA] +
      MemberText(SESSION_ID, Quote(c.sessionId)))))) + [CLOSE_BRACE]
  {
    hide Quote, MemberText;
    var ms := ClaimMembers(c);
    assert ms[1..] == [ms[1], ms[2], ms[3], ms[4]] && ms[1..][1..] == [ms[2], ms[3], ms[4]];
    assert ms[1..][1..][1..] == [ms[3], ms[4]] && ms[1..][1..][1..][1..] == [ms[4]];
    JoinMembers(ms);
    JoinMembers(ms[1..]);
    JoinMembers(ms[1..][1..]);
    JoinMembers(ms[1..][1..][1..]);
    assert [ms[4]][1..] == [];
  }

  lemma JoinMembers(ms: seq<StringMember>)
    requires |ms| > 1
    ensures Join(StringMemberTexts(ms)) ==
      MemberText(ms[0].key, Quote(ms[0].value)) + [COMMA] + Join(StringMemberTexts(ms[1..]))
  {
    hide Quote, MemberText;
    var first, rest := MemberText(ms[0].key, Quote(ms[0].value)), StringMemberTexts(ms[1..]);
    assert ([first] + rest)[1..] == rest;
  }

  function StringField(m: map<Text, Json>, key: Text): Option<Text> {
    if key in m && m[key].JString? then Some(m[key].t) else None
  }

  function ClaimsOf(j: Json): Option<Claims> {
    match j
    case JObject(m) => (
      match (StringField(m, ACTOR), StringField(m, ROLE), StringField(m, ISSUED_AT),
             StringField(m, EXPIRES_AT), StringField(m, SESSION_ID))
      case (Some(a), Some(r), Some(i), Some(e), Some(s)) => Some(Claims(a, r, i, e, s))
      case _ => None)
    case _ => None
  }

  /** `text.split(".")`. */
  function SplitDots(t: Text): (parts: seq<Text>)
    ensures |parts| >= 1
  {
    if t == [] then [[]]
    else
      var rest := SplitDots(t[1..]);
      if t[0] == DOT then [[]] + rest else [[t[0]] + rest[0]] + rest[1..]
  }

  predicate HasPrefix(t: Text, p: Text) {
    |p| <= |t| && t[..|p|] == p
  }

  predicate HasSecret(secret: Option<Text>) {
    secret.Some? && secret.value != []
  }

  /** The payload and signature a token carries; further segments are ignored. */
  function TokenParts(token: Text): Option<(Text, Text)> {
    if !HasPrefix(token, OST + [DOT]) then None
    else
      var parts := SplitDots(token);
      if |parts| < 3 || parts[1] == [] || parts[2] == [] then None
      else Some((parts[1], parts[2]))
  }

  /** The signature check compares the UTF-8 bytes. */
  predicate SignatureMatches(pf: Platform, payload: Text, signature: Text) {
    ToUtf8(signature) == ToUtf8(Signature(pf, payload))
  }

  function ParseToken(pf: Platform, secret: Option<Text>, token: Text): Option<Claims> {
    if !HasSecret(secret) then None
    else
      match TokenParts(token)
      case None => None
      case Some((payload, signature)) =>
        if !SignatureMatches(pf, payload, signature) then None
        else
          match Parse(FromUtf8(Base64Url.Decode(payload)))
          case None => None
          case Some(j) => ClaimsOf(j)
  }

  // ---- Round trip ------------------------------------------------------------------------------

  predicate NoDot(t: Text) {
    forall i :: 0 <= i < |t| ==> t[i] != DOT
  }

  lemma {:induction false} SplitNoDot(t: Text)
    requires NoDot(t)
    ensures SplitDots(t) == [t]
  {
    if t == [] {
    } else {
      SplitNoDot(t[1..]);
      assert [t[0]] + t[1..] == t;
    }
  }

  lemma {:induction false} SplitAtDot(a: Text, b: Text)
    requires NoDot(a)
    ensures SplitDots(a + [DOT] + b) == [a] + SplitDots(b)
  {
    var t := a + [DOT] + b;
    if a == [] {
      assert t[1..] == b;
    } else {
      assert t[1..] == a[1..] + [DOT] + b;
      SplitAtDot(a[1..], b);
      assert [a[0]] + a[1..] == a;
      assert ([a[1..]] + SplitDots(b))[1..] == SplitDots(b);
    }
  }

  lemma PayloadShape(c: Claims)
    ensures NoDot(Payload(c)) && Payload(c) != []
  {
    var text := StringObjectText(ClaimMembers(c));
    Base64Url.EncodeLetters(ToUtf8(text));
    assert text != [] && ToScalars(text) != [];
  }

  lemma SignatureShape(pf: Platform, payload: Text)
    requires IsPlatform(pf)
    ensures NoDot(Signature(pf, payload)) && Signature(pf, payload) != []
  {
    Base64Url.EncodeLetters(pf.digest(payload));
  }

  /** `split(".")` on a created token yields exactly the prefix, the payload and the signature. */
  lemma CreatedTokenParts(pf: Platform, c: Claims)
    requires IsPlatform(pf)
    ensures SplitDots(CreateToken(pf, c)) == [OST, Payload(c), Signature(pf, Payload(c))]
    ensures TokenParts(CreateToken(pf, c)) == Some((Payload(c), Signature(pf, Payload(c))))
  {
    var p, s := Payload(c), Signature(pf, Payload(c));
    PayloadShape(c);
    SignatureShape(pf, p);
    assert CreateToken(pf, c) == OST + [DOT] + (p + [DOT] + s);
    SplitAtDot(OST, p + [DOT] + s);
    SplitAtDot(p, s);
    SplitNoDot(s);
    assert CreateToken(pf, c)[..4] == OST + [DOT];
  }

  lemma ClaimFields(c: Claims)
    ensures ClaimsOf(JObject(StringMemberMap(ClaimMembers(c)))) == Some(c)
  {
    hide StringMemberMap, StringField;
    var ms := ClaimMembers(c);
    KeysDiffer();
    FieldIs(ms, 0);
    FieldIs(ms, 1);
    FieldIs(ms, 2);
    FieldIs(ms, 3);
    FieldIs(ms, 4);
  }

  /** A field has the value of the last member of its key. */
  lemma {:induction false} FieldIs(ms: seq<StringMember>, i: nat)
    requires i < |ms| && forall j :: i < j < |ms| ==> ms[j].key != ms[i].key
    ensures StringField(StringMemberMap(ms), ms[i].key) == Some(ms[i].value)
  {
    if i == 0 {
      NoSuchMember(ms[1..], ms[0].key);
    } else {
      FieldIs(ms[1..], i - 1);
    }
  }

  lemma {:induction false} NoSuchMember(ms: seq<StringMember>, key: Text)
    requires forall j :: 0 <= j < |ms| ==> ms[j].key != key
    ensures key !in StringMemberMap(ms)
  {
    if ms != [] { NoSuchMember(ms[1..], key); }
  }

  lemma KeysDiffer()
    ensures ACTOR != ROLE && ACTOR != ISSUED_AT && ACTOR != EXPIRES_AT && ACTOR != SESSION_ID
    ensures ROLE != ISSUED_AT && ROLE != EXPIRES_AT && ROLE != SESSION_ID
    ensures ISSUED_AT != EXPIRES_AT && ISSUED_AT != SESSION_ID && EXPIRES_AT != SESSION_ID
  {
    assert ACTOR[0] == 0x61 && ROLE[0] == 0x72 && ISSUED_AT[0] == 0x69;
    assert EXPIRES_AT[0] == 0x65 && SESSION_ID[0] == 0x73;
  }

  /** A payload decodes to the claims it was made from. */
  lemma PayloadRoundTrip(c: Claims)
    ensures Parse(FromUtf8(Base64Url.Decode(Payload(c)))) == Some(JObject(StringMemberMap(ClaimMembers(c))))
    ensures ClaimsOf(JObject(StringMemberMap(ClaimMembers(c)))) == Some(c)
  {
    var text := StringObjectText(ClaimMembers(c));
    Base64Url.RoundTrip(ToUtf8(text));
    StringObjectWellFormed(ClaimMembers(c));
    Utf8RoundTrip(text);
    ParseStringObject(ClaimMembers(c));
    ClaimFields(c);
  }

  /** Parsing a created token returns the same claims, for every claims value, lone surrogates and
      all; without a configured secret nothing parses. */
  lemma TokenRoundTrip(pf: Platform, secret: Option<Text>, c: Claims)
    requires IsPlatform(pf)
    ensures ParseToken(pf, secret, CreateToken(pf, c)) == if HasSecret(secret) then Some(c) else None
  {
    CreatedTokenParts(pf, c);
    PayloadRoundTrip(c);
  }

  /** Created tokens determine their claims. */
  lemma TokenInjective(pf: Platform, c: Claims, d: Claims)
    requires IsPlatform(pf) && CreateToken(pf, c) == CreateToken(pf, d)
    ensures c == d
  {
    TokenRoundTrip(pf, Some([0x6B]), c);
    TokenRoundTrip(pf, Some([0x6B]), d);
  }

  /** A token that parses carries the true signature of its payload, unit for unit. */
  lemma ParsedTokenIsSigned(pf: Platform, secret: Option<Text>, token: Text)
    requires IsPlatform(pf) && ParseToken(pf, secret, token).Some?
    ensures TokenParts(token).Some?
    ensures var (payload, signature) := TokenParts(token).value; signature == Signature(pf, payload)
  {
    var (payload, signature) := TokenParts(token).value;
    SameBytesSameText(Signature(pf, payload), signature) by {
      Base64Url.EncodeLetters(pf.digest(payload));
    }
  }

  lemma SameBytesSameText(letters: Text, t: Text)
    requires forall i :: 0 <= i < |letters| ==> letters[i] < 0x80
    requires ToUtf8(t) == ToUtf8(letters)
    ensures t == letters
  {
    DecodeEncode(ToScalars(t));
    DecodeEncode(ToScalars(letters));
    AsciiScalars(letters);
    TextOfAscii(t);
  }

  lemma {:induction false} AsciiScalars(t: Text)
    requires forall i :: 0 <= i < |t| ==> t[i] < 0x80
    ensures ToScalars(t) == t
  {
    if t == [] {
    } else {
      AsciiScalars(t[1..]);
    }
  }

  lemma {:induction false} TextOfAscii(t: Text)
    requires forall i :: 0 <= i < |ToScalars(t)| ==> ToScalars(t)[i] < 0x80
    ensures ToScalars(t) == t
  {
    if t == [] {
    } else {
      var s := ToScalars(t);
      assert s[0] < 0x80;
      assert s == [t[0]] + ToScalars(t[1..]);
      forall i | 0 <= i < |ToScalars(t[1..])|
        ensures ToScalars(t[1..])[i] < 0x80
      {
        assert s[i + 1] == ToScalars(t[1..])[i];
      }
      TextOfAscii(t[1..]);
    }
  }

  /** Segments after the signature do not matter: such a token is not reported as malformed. */
  lemma ExtraSegmentsIgnored(pf: Platform, secret: Option<Text>, c: Claims, extra: Text)
    requires IsPlatform(pf)
    ensures ParseToken(pf, secret, CreateToken(pf, c) + [DOT] + extra) == ParseToken(pf, secret, CreateToken(pf, c))
  {
    PayloadShape(c);
    SignatureShape(pf, Payload(c));
    CreatedTokenParts(pf, c);
    ExtraTokenParts(Payload(c), Signature(pf, Payload(c)), extra);
  }

  lemma ExtraTokenParts(p: Text, s: Text, extra: Text)
    requires NoDot(p) && p != [] && NoDot(s) && s != []
    ensures TokenParts(OST + [DOT] + p + [DOT] + s + [DOT] + extra) == Some((p, s))
  {
    var token, signed := OST + [DOT] + p + [DOT] + s + [DOT] + extra, s + [DOT] + extra;
    assert token == OST + [DOT] + (p + [DOT] + signed);
    SplitAtDot(OST, p + [DOT] + signed);
    SplitAtDot(p, signed);
    SplitAtDot(s, extra);
    assert token[..4] == OST + [DOT];
  }

  // ---- The documented shape --------------------------------------------------------------------

  function JoinDots(parts: seq<Text>): Text
    requires parts != []
  {
    if |parts| == 1 then parts[0] else parts[0] + [DOT] + JoinDots(parts[1..])
  }

  lemma {:induction false} JoinOfSplit(t: Text)
    ensures JoinDots(SplitDots(t)) == t
    ensures forall p :: p in SplitDots(t) ==> NoDot(p)
  {
    if t == [] {
    } else {
      var rest := SplitDots(t[1..]);
      JoinOfSplit(t[1..]);
      assert t == [t[0]] + t[1..];
      if t[0] == DOT {
        assert ([[]] + rest)[1..] == rest && [] + [DOT] == [DOT];
      } else {
        JoinHead(t[0], rest);
        assert rest[0] in rest;
      }
    }
  }

  lemma JoinHead(u: CodeUnit, parts: seq<Text>)
    requires parts != []
    ensures JoinDots([[u] + parts[0]] + parts[1..]) == [u] + JoinDots(parts)
  {
    if |parts| > 1 {
      assert ([[u] + parts[0]] + parts[1..])[1..] == parts[1..];
      assert [u] + parts[0] + [DOT] + JoinDots(parts[1..]) == [u] + (parts[0] + [DOT] + JoinDots(parts[1..]));
    }
  }

  lemma SplitOfThree(a: Text, b: Text, c: Text)
    requires NoDot(a) && NoDot(b) && NoDot(c)
    ensures SplitDots(a + [DOT] + b + [DOT] + c) == [a, b, c]
  {
    assert a + [DOT] + b + [DOT] + c == a + [DOT] + (b + [DOT] + c);
    SplitAtDot(a, b + [DOT] + c);
    SplitAtDot(b, c);
    SplitNoDot(c);
  }

  lemma JoinOfThree(parts: seq<Text>)
    requires |parts| == 3
    ensures JoinDots(parts) == parts[0] + [DOT] + parts[1] + [DOT] + parts[2]
  {
    var tail := parts[1..];
    assert tail[1..] == [parts[2]] && tail[0] == parts[1];
    assert JoinDots([parts[2]]) == parts[2];
    assert JoinDots(tail) == parts[1] + [DOT] + parts[2];
    assert parts[0] + [DOT] + (parts[1] + [DOT] + parts[2]) == parts[0] + [DOT] + parts[1] + [DOT] + parts[2];
  }

  lemma FirstSegment(token: Text)
    requires HasPrefix(token, OST + [DOT])
    ensures SplitDots(token)[0] == OST
  {
    assert token == OST + [DOT] + token[4..];
    SplitAtDot(OST, token[4..]);
  }

  /** The documented shape `ost.<payload>.<signature>`: an accepted token has it exactly when it has three
      segments, so two dots.  Every other accepted token carries segments that nothing has signed. */
  lemma AcceptedShape(pf: Platform, secret: Option<Text>, token: Text)
    requires IsPlatform(pf) && ParseToken(pf, secret, token).Some?
    ensures TokenParts(token).Some?
    ensures var p := TokenParts(token).value.0;
      token == OST + [DOT] + p + [DOT] + Signature(pf, p) <==> |SplitDots(token)| == 3
  {
    var parts := SplitDots(token);
    var p, s := parts[1], Signature(pf, parts[1]);
    ParsedTokenIsSigned(pf, secret, token);
    assert parts[1] in parts && parts[2] == s;
    JoinOfSplit(token);
    FirstSegment(token);
    SignatureShape(pf, p);
    ShapeOfThree(token, p, s);
  }

  lemma ShapeOfThree(token: Text, p: Text, s: Text)
    requires NoDot(p) && NoDot(s) && JoinDots(SplitDots(token)) == token
    requires |SplitDots(token)| >= 3 && SplitDots(token)[..3] == [OST, p, s]
    ensures token == OST + [DOT] + p + [DOT] + s <==> |SplitDots(token)| == 3
  {
    var parts := SplitDots(token);
    SplitOfThree(OST, p, s);
    if |parts| == 3 {
      JoinOfThree(parts);
      assert parts[..3] == parts;
    }
  }
}
