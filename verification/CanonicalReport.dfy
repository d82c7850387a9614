/** `stableStringify` of the reviewer report: one text for each meaning.

    A JavaScript object lists its fields in insertion order.  The printer drops undefined fields and
    sorts the rest by key, so the text, and its hash, should depend on nothing else. */
module CanonicalReport {
  import opened Options
  import opened Unicode
  import opened JsonText

  /** A number prints as its decimal text, and as `null` when it is not finite.  Both zeros print `0`. */
  datatype NumberValue = NotFinite | Finite(token: NumberToken)

  datatype Value =
    | Undefined
    | Null
    | Bool(b: bool)
    | Number(n: NumberValue)
    | Str(t: Text)
    | Arr(items: seq<Value>)
    | Obj(fields: seq<Field>)

  datatype Field = Field(key: Text, value: Value)

  predicate DistinctKeys(fields: seq<Field>) {
    forall i, j :: 0 <= i < j < |fields| ==> fields[i].key != fields[j].key
  }

  /** An object holds each key once, at every level. */
  predicate IsValue(v: Value) {
    match v
    case Arr(items) => forall i :: 0 <= i < |items| ==> IsValue(items[i])
    case Obj(fields) => DistinctKeys(fields) && forall i :: 0 <= i < |fields| ==> IsValue(fields[i].value)
    case _ => true
  }

  // ---- What a value means ----------------------------------------------------------------------

  /** The value after forgetting key order, dropping undefined fields, and reading every other
      undefined and every number that is not finite as null. */
  function Meaning(v: Value): Json
    decreases v
  {
    match v
    case Undefined => JNull
    case Null => JNull
    case Bool(b) => JBool(b)
    case Number(NotFinite) => JNull
    case Number(Finite(token)) => JNumber(token)
    case Str(t) => JString(t)
    case Arr(items) => JArray(ItemMeanings(items))
    case Obj(fields) => JObject(FieldMeanings(fields))
  }

  function ItemMeanings(items: seq<Value>): (r: seq<Json>)
    ensures |r| == |items|
    decreases items
  {
    if items == [] then [] else [Meaning(items[0])] + ItemMeanings(items[1..])
  }

  function FieldMeanings(fields: seq<Field>): map<Text, Json>
    decreases fields
  {
    if fields == [] then map[]
    else if fields[0].value.Undefined? then FieldMeanings(fields[1..])
    else FieldMeanings(fields[1..])[fields[0].key := Meaning(fields[0].value)]
  }

  // ---- Key order -------------------------------------------------------------------------------

  /** `Array.prototype.sort` order on strings: by code units. */
  predicate KeyLess(a: Text, b: Text) {
    b != [] && (a == [] || a[0] < b[0] || (a[0] == b[0] && KeyLess(a[1..], b[1..])))
  }

  lemma {:induction false} KeyLessTotal(a: Text, b: Text)
    ensures a == b || KeyLess(a, b) || KeyLess(b, a)
    ensures !(KeyLess(a, b) && KeyLess(b, a))
    ensures !KeyLess(a, a)
  {
    if a != [] {
      KeyLessTotal(a[1..], a[1..]);
    }
    if a != [] && b != [] {
      KeyLessTotal(a[1..], b[1..]);
      assert a == [a[0]] + a[1..] && b == [b[0]] + b[1..];
    }
  }

  lemma {:induction false} KeyLessTransitive(a: Text, b: Text, c: Text)
    requires KeyLess(a, b) && KeyLess(b, c)
    ensures KeyLess(a, c)
  {
    if a != [] && a[0] == b[0] == c[0] {
      KeyLessTransitive(a[1..], b[1..], c[1..]);
    }
  }

  /** The two keys agree up to `n`; there the first one ends or holds the smaller unit. */
  predicate DifferAt(a: Text, b: Text, n: nat) {
    n <= |a| && n < |b| && a[..n] == b[..n] && (n == |a| || a[n] < b[n])
  }

  lemma {:induction false} DifferenceOf(a: Text, b: Text) returns (n: nat)
    requires KeyLess(a, b)
    ensures DifferAt(a, b, n)
  {
    if a == [] || a[0] < b[0] {
      n := 0;
    } else {
      var m := DifferenceOf(a[1..], b[1..]);
      n := m + 1;
      assert a[..n] == [a[0]] + a[1..][..m] && b[..n] == [b[0]] + b[1..][..m];
    }
  }

  lemma {:induction false} DifferenceDecides(a: Text, b: Text, n: nat)
    requires DifferAt(a, b, n)
    ensures KeyLess(a, b)
  {
    if n > 0 {
      assert a[0] == a[..n][0] == b[..n][0] == b[0];
      assert a[1..][..n - 1] == a[..n][1..] && b[1..][..n - 1] == b[..n][1..];
      DifferenceDecides(a[1..], b[1..], n - 1);
    }
  }

  /** The order is the one by code units: the first difference decides. */
  lemma KeyLessExactly(a: Text, b: Text)
    ensures KeyLess(a, b) <==> exists n: nat :: DifferAt(a, b, n)
  {
    if KeyLess(a, b) {
      var n := DifferenceOf(a, b);
    } else if n: nat :| DifferAt(a, b, n) {
      DifferenceDecides(a, b, n);
    }
  }

  predicate Ascending(ks: seq<Text>) {
    forall i, j :: 0 <= i < j < |ks| ==> KeyLess(ks[i], ks[j])
  }

  function InsertKey(k: Text, ks: seq<Text>): (r: seq<Text>)
    ensures forall x :: x in r <==> x == k || x in ks
  {
    if ks == [] || KeyLess(k, ks[0]) then [k] + ks else [ks[0]] + InsertKey(k, ks[1..])
  }

  function SortKeys(ks: seq<Text>): (r: seq<Text>)
    ensures forall x :: x in r <==> x in ks
  {
    if ks == [] then [] else InsertKey(ks[0], SortKeys(ks[1..]))
  }

  lemma {:induction false} InsertKeySorted(k: Text, ks: seq<Text>)
    requires Ascending(ks) && k !in ks
    ensures Ascending(InsertKey(k, ks))
  {
    if ks == [] {
    } else if KeyLess(k, ks[0]) {
      forall j | 0 <= j < |ks|
        ensures KeyLess(k, ks[j])
      {
        if j > 0 { KeyLessTransitive(k, ks[0], ks[j]); }
      }
    } else {
      KeyLessTotal(k, ks[0]);
      InsertKeySorted(k, ks[1..]);
      var rest := InsertKey(k, ks[1..]);
      forall j | 0 <= j < |rest|
        ensures KeyLess(ks[0], rest[j])
      {
        assert rest[j] in rest;
        if rest[j] != k {
          var m :| 0 <= m < |ks[1..]| && ks[1..][m] == rest[j];
          assert ks[m + 1] == rest[j];
        }
      }
    }
  }

  lemma {:induction false} SortKeysSorted(ks: seq<Text>)
    requires forall i, j :: 0 <= i < j < |ks| ==> ks[i] != ks[j]
    ensures Ascending(SortKeys(ks))
  {
    if ks == [] {
    } else {
      SortKeysSorted(ks[1..]);
      InsertKeySorted(ks[0], SortKeys(ks[1..]));
    }
  }

  /** Two ascending lists of the same keys are the same list. */
  lemma {:induction false} AscendingUnique(a: seq<Text>, b: seq<Text>)
    requires Ascending(a) && Ascending(b)
    requires forall x :: x in a <==> x in b
    ensures a == b
  {
    assert (a != [] ==> a[0] in a) && (b != [] ==> b[0] in b);
    if a == [] || b == [] {
    } else {
      KeyLessTotal(a[0], b[0]);
      assert a[0] == b[0];
      forall x
        ensures x in a[1..] <==> x in b[1..]
      {
        TailMember(a, x);
        TailMember(b, x);
      }
      AscendingUnique(a[1..], b[1..]);
      assert a == [a[0]] + a[1..] && b == [b[0]] + b[1..];
    }
  }

  lemma TailMember(a: seq<Text>, x: Text)
    requires a != [] && Ascending(a)
    ensures x in a[1..] <==> x in a && x != a[0]
  {
    KeyLessTotal(a[0], a[0]);
    if x in a && x != a[0] {
      var i :| 0 <= i < |a| && a[i] == x;
      assert a[1..][i - 1] == x;
    }
    if x in a[1..] {
      var i :| 0 <= i < |a[1..]| && a[1..][i] == x;
      assert KeyLess(a[0], a[i + 1]);
    }
  }

  // ---- The printer -----------------------------------------------------------------------------

  function DefinedKeys(fields: seq<Field>): seq<Text> {
    if fields == [] then []
    else if fields[0].value.Undefined? then DefinedKeys(fields[1..])
    else [fields[0].key] + DefinedKeys(fields[1..])
  }

  function StableStringify(v: Value): Text
    decreases v
  {
    match v
    case Undefined => NULL_TEXT
    case Null => NULL_TEXT
    case Bool(b) => if b then TRUE_TEXT else FALSE_TEXT
    case Number(NotFinite) => NULL_TEXT
    case Number(Finite(token)) => token
    case Str(t) => Quote(t)
    case Arr(items) => [OPEN_BRACKET] + Join(ItemTexts(items)) + [CLOSE_BRACKET]
    case Obj(fields) =>
      [OPEN_BRACE] + Join(MemberTexts(SortKeys(DefinedKeys(fields)), FieldTexts(fields))) + [CLOSE_BRACE]
  }

  function ItemTexts(items: seq<Value>): (r: seq<Text>)
    ensures |r| == |items|
    decreases items
  {
    if items == [] then [] else [StableStringify(items[0])] + ItemTexts(items[1..])
  }

  /** The printed value of each defined field, by key. */
  function FieldTexts(fields: seq<Field>): (m: map<Text, Text>)
    ensures forall k :: k in m <==> k in DefinedKeys(fields)
    decreases fields
  {
    if fields == [] then map[]
    else if fields[0].value.Undefined? then FieldTexts(fields[1..])
    else FieldTexts(fields[1..])[fields[0].key := StableStringify(fields[0].value)]
  }

  function MemberTexts(ks: seq<Text>, texts: map<Text, Text>): (r: seq<Text>)
    requires forall k :: k in ks ==> k in texts
    ensures |r| == |ks|
  {
    if ks == [] then []
    else [MemberText(ks[0], texts[ks[0]])] + MemberTexts(ks[1..], texts)
  }

  // ---- The order of the members ----------------------------------------------------------------

  predicate IsDefinedAt(fields: seq<Field>, k: Text, i: nat) {
    i < |fields| && fields[i].key == k && !fields[i].value.Undefined?
  }

  ghost predicate IsDefined(fields: seq<Field>, k: Text) {
    exists i: nat :: IsDefinedAt(fields, k, i)
  }

  lemma {:induction false} DefinedKeysExactly(fields: seq<Field>, k: Text)
    ensures k in DefinedKeys(fields) <==> IsDefined(fields, k)
  {
    if fields != [] {
      DefinedKeysExactly(fields[1..], k);
      if i: nat :| IsDefinedAt(fields[1..], k, i) {
        assert IsDefinedAt(fields, k, i + 1);
      }
      if i: nat :| i > 0 && IsDefinedAt(fields, k, i) {
        assert IsDefinedAt(fields[1..], k, i - 1);
      }
      assert IsDefinedAt(fields, k, 0) ==> fields[0].key == k;
    }
  }

  ghost predicate Precedes(a: Text, b: Text) {
    exists n: nat :: DifferAt(a, b, n)
  }

  /** A printed object lists exactly its defined keys, each once, and of two keys the one that has the
      smaller code unit at their first difference, or ends there, stands first. */
  lemma PrintedOrder(fields: seq<Field>) returns (ks: seq<Text>)
    requires IsValue(Obj(fields))
    ensures forall k :: k in ks <==> IsDefined(fields, k)
    ensures forall i, j :: 0 <= i < j < |ks| ==> Precedes(ks[i], ks[j])
    ensures forall k :: k in ks ==> k in FieldTexts(fields)
    ensures StableStringify(Obj(fields)) == [OPEN_BRACE] + Join(MemberTexts(ks, FieldTexts(fields))) + [CLOSE_BRACE]
  {
    ks := SortKeys(DefinedKeys(fields));
    DefinedKeysDistinct(fields);
    SortKeysSorted(DefinedKeys(fields));
    hide DefinedKeys, IsDefined, Join, KeyLess, MemberTexts, SortKeys;
    forall k
      ensures k in ks <==> IsDefined(fields, k)
    {
      DefinedKeysExactly(fields, k);
    }
    forall i, j | 0 <= i < j < |ks|
      ensures Precedes(ks[i], ks[j])
    {
      KeyLessExactly(ks[i], ks[j]);
    }
  }

  const LETTER_A: Text := [0x61]
  const LETTER_B: Text := [0x62]

  /** The number of one digit. */
  function Digit(d: CodeUnit): Value
    requires 0x30 <= d <= 0x39
  {
    Number(Finite([d]))
  }

  function SampleFields(): seq<Field> {
    [Field(LETTER_B, Digit(0x32)), Field(LETTER_A, Digit(0x31))]
  }

  lemma SampleKeys()
    ensures SortKeys(DefinedKeys(SampleFields())) == [LETTER_A, LETTER_B]
  {
    var fields := SampleFields();
    assert fields[1..] == [fields[1]] && fields[1..][1..] == [];
    assert DefinedKeys(fields[1..]) == [LETTER_A] && DefinedKeys(fields) == [LETTER_B, LETTER_A];
    assert [LETTER_B, LETTER_A][1..] == [LETTER_A] && [LETTER_A][1..] == [];
    assert SortKeys([LETTER_A]) == [LETTER_A];
  }

  lemma SampleTexts()
    ensures var texts := FieldTexts(SampleFields());
      LETTER_A in texts && LETTER_B in texts && texts[LETTER_A] == [0x31] && texts[LETTER_B] == [0x32]
  {
    var fields := SampleFields();
    assert fields[1..] == [fields[1]] && fields[1..][1..] == [];
    assert FieldTexts(fields[1..]) == FieldTexts([])[LETTER_A := [0x31]];
    assert LETTER_A[0] != LETTER_B[0];
  }

  lemma SampleMembers(texts: map<Text, Text>)
    requires LETTER_A in texts && LETTER_B in texts
    ensures Join(MemberTexts([LETTER_A, LETTER_B], texts)) ==
      [0x22, 0x61, 0x22, 0x3A] + texts[LETTER_A] + [0x2C] + ([0x22, 0x62, 0x22, 0x3A] + texts[LETTER_B])
  {
    var a, b := MemberText(LETTER_A, texts[LETTER_A]), MemberText(LETTER_B, texts[LETTER_B]);
    QuotedLetter(0x61);
    QuotedLetter(0x62);
    assert [LETTER_A, LETTER_B][1..] == [LETTER_B] && [LETTER_B][1..] == [];
    assert MemberTexts([LETTER_B], texts) == [b];
    assert MemberTexts([LETTER_A, LETTER_B], texts) == [a, b] && [a, b][1..] == [b];
    assert Join([b]) == b;
    assert Join([a, b]) == a + [COMMA] + b;
  }

  /** `{"b":2,"a":1}` prints as `{"a":1,"b":2}`. */
  lemma SampleReport()
    ensures StableStringify(Obj(SampleFields())) ==
      [0x7B, 0x22, 0x61, 0x22, 0x3A, 0x31, 0x2C, 0x22, 0x62, 0x22, 0x3A, 0x32, 0x7D]
  {
    hide SortKeys, DefinedKeys, FieldTexts, SampleFields, Join, MemberTexts;
    SampleKeys();
    SampleTexts();
    SampleMembers(FieldTexts(SampleFields()));
  }

  lemma QuotedLetter(u: CodeUnit)
    requires 0x61 <= u <= 0x7A
    ensures Quote([u]) == [0x22, u, 0x22]
  {
    assert [u][1..] == [];
    assert EscapeText([u]) == [u];
  }

  // ---- The printer is inverted by the reader ---------------------------------------------------

  predicate EndsNumber(rest: Text) {
    rest == [] || !IsNumberUnit(rest[0])
  }

  /** Where a defined key sits, and what is printed and meant there. */
  lemma {:induction false} FieldAt(fields: seq<Field>, k: Text) returns (i: nat)
    requires DistinctKeys(fields) && k in DefinedKeys(fields)
    ensures i < |fields| && fields[i].key == k && !fields[i].value.Undefined?
    ensures FieldTexts(fields)[k] == StableStringify(fields[i].value)
    ensures k in FieldMeanings(fields) && FieldMeanings(fields)[k] == Meaning(fields[i].value)
  {
    if !fields[0].value.Undefined? && fields[0].key == k {
      i := 0;
    } else {
      var j := FieldAt(fields[1..], k);
      i := j + 1;
    }
  }

  lemma {:induction false} FieldMeaningsKeys(fields: seq<Field>)
    ensures forall k :: k in FieldMeanings(fields) <==> k in DefinedKeys(fields)
  {
    if fields == [] {
    } else {
      FieldMeaningsKeys(fields[1..]);
    }
  }

  lemma {:induction false} DefinedKeysDistinct(fields: seq<Field>)
    requires DistinctKeys(fields)
    ensures forall i, j :: 0 <= i < j < |DefinedKeys(fields)| ==> DefinedKeys(fields)[i] != DefinedKeys(fields)[j]
    ensures forall k :: k in DefinedKeys(fields) ==> exists i :: 0 <= i < |fields| && fields[i].key == k
  {
    if fields == [] {
    } else {
      DefinedKeysDistinct(fields[1..]);
      assert fields[0].key !in DefinedKeys(fields[1..]);
    }
  }

  /** Reading a printed value gives its meaning and stops at its end, whatever follows. */
  lemma {:induction false} ReadPrinted(v: Value, rest: Text)
    requires IsValue(v) && EndsNumber(rest)
    ensures ReadValue(StableStringify(v) + rest) == Some((Meaning(v), rest))
    decreases v
  {
    match v {
      case Undefined => ReadNullText(rest);
      case Null => ReadNullText(rest);
      case Bool(b) => ReadBoolText(b, rest);
      case Number(NotFinite) => ReadNullText(rest);
      case Number(Finite(token)) => ReadNumberText(token, rest);
      case Str(t) => ReadQuotedValue(t, rest);
      case Arr(items) => ReadPrintedArray(items, rest);
      case Obj(fields) => ReadPrintedObject(fields, rest);
    }
  }

  lemma ReadNullText(rest: Text)
    ensures ReadValue(NULL_TEXT + rest) == Some((JNull, rest))
  {
    ReadWordText(NULL_TEXT, JNull, rest);
  }

  lemma ReadBoolText(b: bool, rest: Text)
    ensures ReadValue((if b then TRUE_TEXT else FALSE_TEXT) + rest) == Some((JBool(b), rest))
  {
    ReadWordText(if b then TRUE_TEXT else FALSE_TEXT, JBool(b), rest);
  }

  lemma ReadNumberText(token: NumberToken, rest: Text)
    requires EndsNumber(rest)
    ensures ReadValue(token + rest) == Some((JNumber(token), rest))
  {
    NumberSpanExact(token, rest);
    assert (token + rest)[..|token|] == token && (token + rest)[|token|..] == rest;
  }

  lemma {:induction false} ReadPrintedArray(items: seq<Value>, rest: Text)
    requires forall i :: 0 <= i < |items| ==> IsValue(items[i])
    ensures ReadValue(StableStringify(Arr(items)) + rest) == Some((JArray(ItemMeanings(items)), rest))
    decreases items, 1
  {
    if items == [] {
      ReadEmptyArray(rest);
    } else {
      ReadPrintedItems(items, rest);
      ItemTextsStart(items);
      ReadArrayText(Join(ItemTexts(items)), ItemMeanings(items), rest);
    }
  }

  /** A printed value starts with no closing bracket. */
  lemma PrintedStart(v: Value)
    ensures StableStringify(v) != [] && StableStringify(v)[0] != CLOSE_BRACKET
  {
    match v
    case Number(Finite(token)) => assert StartsNumber(token[0]);
    case _ =>
  }

  lemma ItemTextsStart(items: seq<Value>)
    requires items != []
    ensures var body := Join(ItemTexts(items)); body != [] && body[0] != CLOSE_BRACKET
  {
    PrintedStart(items[0]);
    assert ItemTexts(items)[0] == StableStringify(items[0]);
    assert Join(ItemTexts(items))[0] == ItemTexts(items)[0][0];
  }

  lemma {:induction false} ReadPrintedItems(items: seq<Value>, rest: Text)
    requires items != [] && forall i :: 0 <= i < |items| ==> IsValue(items[i])
    ensures ReadItems(Join(ItemTexts(items)) + ([CLOSE_BRACKET] + rest)) == Some((ItemMeanings(items), rest))
    decreases items, 0
  {
    var v, parts, close := Meaning(items[0]), ItemTexts(items), [CLOSE_BRACKET] + rest;
    if |items| == 1 {
      assert items[1..] == [] && ItemMeanings(items) == [v];
      ReadPrinted(items[0], close);
      ReadLastItem(parts[0], v, rest);
    } else {
      var tail := Join(parts[1..]) + close;
      JoinCons(parts, close);
      ReadPrinted(items[0], [COMMA] + tail);
      ReadPrintedItems(items[1..], rest);
      ReadNextItem(parts[0], v, tail, ItemMeanings(items[1..]), rest);
    }
  }

  lemma {:induction false} ReadPrintedObject(fields: seq<Field>, rest: Text)
    requires DistinctKeys(fields) && forall i :: 0 <= i < |fields| ==> IsValue(fields[i].value)
    ensures ReadValue(StableStringify(Obj(fields)) + rest) == Some((JObject(FieldMeanings(fields)), rest))
    decreases fields, 2
  {
    var ks := SortKeys(DefinedKeys(fields));
    FieldMeaningsKeys(fields);
    if ks == [] {
      assert FieldMeanings(fields) == map[] by {
        assert forall k :: k in DefinedKeys(fields) ==> k in ks;
      }
      ReadEmptyObject(rest);
    } else {
      ReadPrintedMembers(fields, ks, rest);
      assert Pick(FieldMeanings(fields), ks) == FieldMeanings(fields);
      var body := Join(MemberTexts(ks, FieldTexts(fields)));
      MemberTextsStart(ks, FieldTexts(fields));
      ReadObjectText(body, FieldMeanings(fields), rest);
    }
  }

  lemma MemberTextsStart(ks: seq<Text>, texts: map<Text, Text>)
    requires ks != [] && forall k :: k in ks ==> k in texts
    ensures var body := Join(MemberTexts(ks, texts)); body != [] && body[0] == QUOTE
  {
    var parts := MemberTexts(ks, texts);
    assert parts[0] == MemberText(ks[0], texts[ks[0]]);
    assert Join(parts)[0] == parts[0][0];
  }

  function Pick(m: map<Text, Json>, ks: seq<Text>): map<Text, Json> {
    map k | k in ks && k in m :: m[k]
  }

  lemma {:induction false} ReadPrintedMember(fields: seq<Field>, k: Text, rest: Text)
    requires DistinctKeys(fields) && forall i :: 0 <= i < |fields| ==> IsValue(fields[i].value)
    requires k in DefinedKeys(fields) && EndsNumber(rest)
    ensures k in FieldMeanings(fields)
    ensures ReadMember(MemberText(k, FieldTexts(fields)[k]) + rest) == Some((k, FieldMeanings(fields)[k], rest))
    decreases fields, 0
  {
    var i := FieldAt(fields, k);
    ReadPrinted(fields[i].value, rest);
    ReadMemberText(k, FieldTexts(fields)[k], FieldMeanings(fields)[k], rest);
  }

  lemma MemberTextsCons(ks: seq<Text>, texts: map<Text, Text>)
    requires ks != [] && forall k :: k in ks ==> k in texts
    ensures forall k :: k in ks[1..] ==> k in texts
    ensures MemberTexts(ks, texts)[0] == MemberText(ks[0], texts[ks[0]])
    ensures MemberTexts(ks, texts)[1..] == MemberTexts(ks[1..], texts)
  {
  }

  lemma PickCons(m: map<Text, Json>, ks: seq<Text>)
    requires ks != [] && ks[0] in m
    ensures Pick(m, ks) == map[ks[0] := m[ks[0]]] + Pick(m, ks[1..])
    ensures |ks| == 1 ==> Pick(m, ks) == map[ks[0] := m[ks[0]]]
  {
    assert ks == [ks[0]] + ks[1..];
  }

  lemma {:induction false} ReadPrintedMembers(fields: seq<Field>, ks: seq<Text>, rest: Text)
    requires DistinctKeys(fields) && forall i :: 0 <= i < |fields| ==> IsValue(fields[i].value)
    requires ks != [] && forall k :: k in ks ==> k in DefinedKeys(fields)
    ensures ReadMembers(Join(MemberTexts(ks, FieldTexts(fields))) + ([CLOSE_BRACE] + rest))
         == Some((Pick(FieldMeanings(fields), ks), rest))
    decreases fields, 1, |ks|
  {
    var texts, m, k := FieldTexts(fields), FieldMeanings(fields), ks[0];
    MemberTextsCons(ks, texts);
    var parts, close := MemberTexts(ks, texts), [CLOSE_BRACE] + rest;
    if |ks| == 1 {
      ReadPrintedMember(fields, k, close);
      ReadLastMember(parts[0], k, m[k], rest);
      PickCons(m, ks);
    } else {
      var tail := Join(parts[1..]) + close;
      ReadPrintedMember(fields, k, [COMMA] + tail);
      ReadPrintedMembers(fields, ks[1..], rest);
      ReadNextMember(parts[0], k, m[k], tail, Pick(m, ks[1..]), rest);
      PickCons(m, ks);
      JoinCons(parts, close);
    }
  }

  /** `JSON.parse` undoes the printer: the text of every value parses to its meaning. */
  lemma ParsePrinted(v: Value)
    requires IsValue(v)
    ensures Parse(StableStringify(v)) == Some(Meaning(v))
  {
    ReadPrinted(v, []);
    assert StableStringify(v) + [] == StableStringify(v);
  }

  // ---- Canonical form --------------------------------------------------------------------------

  lemma {:induction false} SameMeaningSameText(v: Value, w: Value)
    requires IsValue(v) && IsValue(w) && Meaning(v) == Meaning(w)
    ensures StableStringify(v) == StableStringify(w)
    decreases v
  {
    match v {
      case Arr(items) => SameItemsSameTexts(items, w.items);
      case Obj(fields) => SameFieldsSameText(fields, w.fields);
      case _ =>
    }
  }

  lemma {:induction false} SameItemsSameTexts(a: seq<Value>, b: seq<Value>)
    requires forall i :: 0 <= i < |a| ==> IsValue(a[i])
    requires forall i :: 0 <= i < |b| ==> IsValue(b[i])
    requires ItemMeanings(a) == ItemMeanings(b)
    ensures ItemTexts(a) == ItemTexts(b)
    decreases a
  {
    assert |a| == |ItemMeanings(a)| == |b|;
    if a == [] {
    } else {
      assert ItemMeanings(a)[0] == ItemMeanings(b)[0];
      assert ItemMeanings(a)[1..] == ItemMeanings(b)[1..];
      SameMeaningSameText(a[0], b[0]);
      SameItemsSameTexts(a[1..], b[1..]);
    }
  }

  lemma {:induction false} SameFieldsSameText(a: seq<Field>, b: seq<Field>)
    requires IsValue(Obj(a)) && IsValue(Obj(b)) && FieldMeanings(a) == FieldMeanings(b)
    ensures StableStringify(Obj(a)) == StableStringify(Obj(b))
    decreases a
  {
    FieldMeaningsKeys(a);
    FieldMeaningsKeys(b);
    DefinedKeysDistinct(a);
    DefinedKeysDistinct(b);
    SortKeysSorted(DefinedKeys(a));
    SortKeysSorted(DefinedKeys(b));
    AscendingUnique(SortKeys(DefinedKeys(a)), SortKeys(DefinedKeys(b)));
    forall k | k in DefinedKeys(a)
      ensures FieldTexts(a)[k] == FieldTexts(b)[k]
    {
      var i := FieldAt(a, k);
      var j := FieldAt(b, k);
      SameMeaningSameText(a[i].value, b[j].value);
    }
    assert FieldTexts(a) == FieldTexts(b);
  }

  /** The canonical-form theorem: two values print the same text exactly when they mean the same. */
  lemma CanonicalForm(v: Value, w: Value)
    requires IsValue(v) && IsValue(w)
    ensures StableStringify(v) == StableStringify(w) <==> Meaning(v) == Meaning(w)
  {
    ParsePrinted(v);
    ParsePrinted(w);
    if Meaning(v) == Meaning(w) {
      SameMeaningSameText(v, w);
    }
  }

  // ---- The hash --------------------------------------------------------------------------------

  lemma {:induction false} JoinWellFormed(parts: seq<Text>)
    requires forall p :: p in parts ==> WellFormed(p)
    ensures WellFormed(Join(parts))
  {
    if parts != [] {
      assert parts[0] in parts;
      if |parts| > 1 {
        JoinWellFormed(parts[1..]);
        WellFormedConcat(parts[0], [COMMA]);
        WellFormedConcat(parts[0] + [COMMA], Join(parts[1..]));
      }
    }
  }

  lemma BracketWellFormed(open: CodeUnit, body: Text, close: CodeUnit)
    requires WellFormed(body) && open < 0xD800 && close < 0xD800
    ensures WellFormed([open] + body + [close])
  {
    WellFormedConcat([open], body);
    WellFormedConcat([open] + body, [close]);
  }

  /** The printed text has no lone surrogate even when the strings do, so UTF-8 does not change it. */
  lemma {:induction false} PrintedWellFormed(v: Value)
    requires IsValue(v)
    ensures WellFormed(StableStringify(v))
    decreases v
  {
    match v {
      case Str(t) => QuoteWellFormed(t);
      case Arr(items) =>
        ItemsWellFormed(items);
        JoinWellFormed(ItemTexts(items));
        BracketWellFormed(OPEN_BRACKET, Join(ItemTexts(items)), CLOSE_BRACKET);
      case Obj(fields) => ObjectWellFormed(fields);
      case _ =>
    }
  }

  lemma {:induction false} ItemsWellFormed(items: seq<Value>)
    requires forall i :: 0 <= i < |items| ==> IsValue(items[i])
    ensures forall t :: t in ItemTexts(items) ==> WellFormed(t)
    decreases items
  {
    if items != [] {
      PrintedWellFormed(items[0]);
      ItemsWellFormed(items[1..]);
    }
  }

  lemma {:induction false} ObjectWellFormed(fields: seq<Field>)
    requires IsValue(Obj(fields))
    ensures WellFormed(StableStringify(Obj(fields)))
    decreases fields
  {
    var ks, texts := SortKeys(DefinedKeys(fields)), FieldTexts(fields);
    DefinedKeysDistinct(fields);
    SortKeysSorted(DefinedKeys(fields));
    forall k | k in ks
      ensures WellFormed(texts[k])
    {
      var i := FieldAt(fields, k);
      PrintedWellFormed(fields[i].value);
    }
    MembersWellFormed(ks, texts);
    JoinWellFormed(MemberTexts(ks, texts));
    BracketWellFormed(OPEN_BRACE, Join(MemberTexts(ks, texts)), CLOSE_BRACE);
  }

  lemma {:induction false} MembersWellFormed(ks: seq<Text>, texts: map<Text, Text>)
    requires forall k :: k in ks ==> k in texts && WellFormed(texts[k])
    ensures forall t :: t in MemberTexts(ks, texts) ==> WellFormed(t)
  {
    if ks != [] {
      assert ks[0] in ks;
      QuoteWellFormed(ks[0]);
      WellFormedConcat(Quote(ks[0]), [COLON]);
      WellFormedConcat(Quote(ks[0]) + [COLON], texts[ks[0]]);
      MembersWellFormed(ks[1..], texts);
    }
  }

  /** The hash is taken of the UTF-8 bytes of the text.  With a digest that is collision-free on bytes,
      equal report hashes mean equal reports and conversely. */
  lemma ReportHash<D>(digest: seq<Byte> -> D, v: Value, w: Value)
    requires IsValue(v) && IsValue(w)
    requires forall s, t | digest(s) == digest(t) :: s == t
    ensures digest(ToUtf8(StableStringify(v))) == digest(ToUtf8(StableStringify(w))) <==> Meaning(v) == Meaning(w)
  {
    PrintedWellFormed(v);
    PrintedWellFormed(w);
    Utf8RoundTrip(StableStringify(v));
    Utf8RoundTrip(StableStringify(w));
    CanonicalForm(v, w);
  }
}
