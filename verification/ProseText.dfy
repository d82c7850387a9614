/** String helpers shared by the two scripts that fold bullet lists into prose. */
module ProseText {
  import opened BookText

  const BULLET := '\U{2022}'

  /** The class `[•\\-–—]` of both scripts: its middle is the range from the backslash to the en dash. */
  predicate IsLead(c: char) {
    c == BULLET || '\\' <= c <= '\U{2013}' || c == '\U{2014}'
  }

  predicate EndsWith(t: string, p: string) {
    |p| <= |t| && t[|t| - |p|..] == p
  }

  /** `text.rstrip(".;:")`. */
  function DropMarks(t: string): (r: string)
    ensures |r| <= |t| && r == t[..|r|]
  {
    if t != [] && t[|t| - 1] in {'.', ';', ':'} then DropMarks(t[..|t| - 1]) else t
  }

  /** What is left is what stands before the longest row of closing marks at the end. */
  lemma {:induction false} DropMarksExactly(t: string, r: string)
    ensures DropMarks(t) == r <==>
      && StartsWith(t, r) && (forall i :: |r| <= i < |t| ==> t[i] == '.' || t[i] == ';' || t[i] == ':')
      && (r != "" ==> r[|r| - 1] != '.' && r[|r| - 1] != ';' && r[|r| - 1] != ':')
  {
    if t != [] && t[|t| - 1] in {'.', ';', ':'} {
      DropMarksExactly(t[..|t| - 1], r);
      assert |r| < |t| ==> t[..|t| - 1][..|r|] == t[..|r|];
    } else if |r| < |t| {
      assert t[|t| - 1] !in {'.', ';', ':'};
    }
  }

  lemma {:induction false} DropMarksSuffix(t: string, k: nat)
    requires k <= |t|
    ensures |DropMarks(t[k..])| <= |DropMarks(t)|
    ensures k == 1 && t[0] !in {'.', ';', ':'} ==> |DropMarks(t[1..])| < |DropMarks(t)|
  {
    if k < |t| && t[|t| - 1] in {'.', ';', ':'} {
      var u := t[..|t| - 1];
      assert t[k..][..|t[k..]| - 1] == u[k..];
      DropMarksSuffix(u, k);
    }
  }

  /** `", ".join(items)`. */
  function CommaJoin(items: seq<string>): string {
    if items == [] then "" else if |items| == 1 then items[0] else items[0] + ", " + CommaJoin(items[1..])
  }

  /** The tail of `join_items`, on the cleaned items that are not empty. */
  function JoinItems(items: seq<string>): string {
    if items == [] then ""
    else if |items| == 1 then items[0]
    else if |items| == 2 then items[0] + " and " + items[1]
    else CommaJoin(items[..|items| - 1]) + ", and " + items[|items| - 1]
  }

  /** The text of a paragraph after the items joined into `joined` are folded into it. */
  function FoldInto(prev: string, joined: string): string {
    if joined == "" then prev
    else if EndsWith(prev, ":") then prev[..|prev| - 1] + " " + joined + "."
    else if EndsWith(prev, ".") then prev + " The relevant elements are " + joined + "."
    else prev + " " + joined + "."
  }

  function ListSentence(joined: string): string {
    "The relevant elements are " + joined + "."
  }

  // ---- Every item reaches the text -------------------------------------------------------------

  predicate OccursAt(t: string, p: string, k: nat) {
    k + |p| <= |t| && t[k..k + |p|] == p
  }

  /** The items occur in the text one behind the other, without overlapping. */
  ghost predicate InOrder(t: string, items: seq<string>)
    decreases |items|
  {
    items == [] || exists k: nat :: OccursAt(t, items[0], k) && InOrder(t[k + |items[0]|..], items[1..])
  }

  lemma {:induction false} InOrderBehind(a: string, t: string, items: seq<string>)
    requires InOrder(t, items)
    ensures InOrder(a + t, items)
  {
    if items != [] {
      var k: nat :| OccursAt(t, items[0], k) && InOrder(t[k + |items[0]|..], items[1..]);
      var n := |items[0]|;
      assert (a + t)[|a| + k..|a| + k + n] == t[k..k + n];
      assert (a + t)[|a| + k + n..] == t[k + n..];
      assert OccursAt(a + t, items[0], |a| + k);
    }
  }

  lemma {:induction false} InOrderConcat(a: string, x: seq<string>, b: string, y: seq<string>)
    requires InOrder(a, x) && InOrder(b, y)
    ensures InOrder(a + b, x + y)
    decreases |x|
  {
    if x == [] {
      assert x + y == y;
      InOrderBehind(a, b, y);
    } else {
      var k: nat :| OccursAt(a, x[0], k) && InOrder(a[k + |x[0]|..], x[1..]);
      InOrderConcat(a[k + |x[0]|..], x[1..], b, y);
      OccursAhead(a, b, x[0], k);
      assert (x + y)[0] == x[0] && (x + y)[1..] == x[1..] + y;
    }
  }

  lemma OccursAhead(a: string, b: string, p: string, k: nat)
    requires OccursAt(a, p, k)
    ensures OccursAt(a + b, p, k) && (a + b)[k + |p|..] == a[k + |p|..] + b
  {
    assert (a + b)[k..k + |p|] == a[k..k + |p|];
  }

  lemma InOrderAlone(t: string)
    ensures InOrder(t, [t])
  {
    assert OccursAt(t, [t][0], 0) && [t][1..] == [];
    assert InOrder(t[0 + |t|..], [t][1..]);
  }

  lemma InOrderAhead(t: string, b: string, items: seq<string>)
    requires InOrder(t, items)
    ensures InOrder(t + b, items)
  {
    InOrderConcat(t, items, b, []);
    assert items + [] == items;
  }

  lemma InOrderTail(t: string, first: string, items: seq<string>)
    requires InOrder(t, [first] + items)
    ensures InOrder(t, items)
  {
    var all := [first] + items;
    assert all[0] == first && all[1..] == items;
    var k: nat :| OccursAt(t, all[0], k) && InOrder(t[k + |all[0]|..], all[1..]);
    var n := k + |first|;
    assert t == t[..n] + t[n..];
    InOrderBehind(t[..n], t[n..], items);
  }

  lemma {:induction false} CommaJoinHolds(items: seq<string>)
    ensures InOrder(CommaJoin(items), items)
  {
    if items == [] {
    } else if |items| == 1 {
      InOrderAlone(items[0]);
      assert items == [items[0]];
    } else {
      CommaJoinHolds(items[1..]);
      InOrderAlone(items[0]);
      InOrderAhead(items[0], ", ", [items[0]]);
      InOrderConcat(items[0] + ", ", [items[0]], CommaJoin(items[1..]), items[1..]);
      assert items == [items[0]] + items[1..];
    }
  }

  /** The joined text holds every item, in order. */
  lemma JoinItemsHolds(items: seq<string>)
    ensures InOrder(JoinItems(items), items)
  {
    if |items| == 1 {
      InOrderAlone(items[0]);
      assert items == [items[0]];
    } else if |items| == 2 {
      InOrderAlone(items[0]);
      InOrderAlone(items[1]);
      InOrderAhead(items[0], " and ", [items[0]]);
      InOrderConcat(items[0] + " and ", [items[0]], items[1], [items[1]]);
      assert items == [items[0]] + [items[1]];
    } else if |items| > 2 {
      var front, last := items[..|items| - 1], items[|items| - 1];
      CommaJoinHolds(front);
      InOrderAlone(last);
      InOrderAhead(CommaJoin(front), ", and ", front);
      InOrderConcat(CommaJoin(front) + ", and ", front, last, [last]);
      assert items == front + [last];
    }
  }

  function TotalLength(items: seq<string>): nat {
    if items == [] then 0 else |items[0]| + TotalLength(items[1..])
  }

  lemma {:induction false} CommaJoinLength(items: seq<string>)
    ensures |CommaJoin(items)| == TotalLength(items) + if |items| > 1 then 2 * (|items| - 1) else 0
  {
    if |items| > 1 { CommaJoinLength(items[1..]); }
  }

  lemma {:induction false} TotalLengthSnoc(items: seq<string>, x: string)
    ensures TotalLength(items + [x]) == TotalLength(items) + |x|
  {
    if items == [] {
      assert [x][1..] == [];
    } else {
      assert (items + [x])[1..] == items[1..] + [x];
      TotalLengthSnoc(items[1..], x);
    }
  }

  /** It holds nothing else than the commas, the blanks and one "and", so each item once. */
  lemma JoinItemsLength(items: seq<string>)
    ensures |JoinItems(items)| == TotalLength(items)
      + if |items| < 2 then 0 else if |items| == 2 then |" and "| else 2 * (|items| - 2) + |", and "|
  {
    hide CommaJoin, TotalLength;
    if |items| > 2 {
      var front, last := items[..|items| - 1], items[|items| - 1];
      CommaJoinLength(front);
      TotalLengthSnoc(front, last);
      assert items == front + [last];
    } else {
      TotalOfFew(items);
    }
  }

  lemma TotalOfFew(items: seq<string>)
    requires |items| <= 2
    ensures TotalLength(items) ==
      (if |items| > 0 then |items[0]| else 0) + (if |items| > 1 then |items[1]| else 0)
  {
    if |items| == 2 { assert items[1..][1..] == []; }
  }

  function LessColon(t: string): string {
    if EndsWith(t, ":") then t[..|t| - 1] else t
  }

  /** The fold of items keeps the text, less a final colon, and ends with the joined items and a stop;
      between them stands a blank, or after a full stop the words that open a list. */
  lemma FoldParts(prev: string, joined: string) returns (glue: string)
    requires joined != ""
    ensures FoldInto(prev, joined) == LessColon(prev) + glue + joined + "."
    ensures glue == if EndsWith(prev, ".") then " The relevant elements are " else " "
    ensures StartsWith(FoldInto(prev, joined), LessColon(prev)) && EndsWith(FoldInto(prev, joined), joined + ".")
  {
    glue := if EndsWith(prev, ".") then " The relevant elements are " else " ";
    if EndsWith(prev, ".") { EndsOnce(prev); }
    var front, t := LessColon(prev) + glue, FoldInto(prev, joined);
    assert t == front + (joined + ".");
    assert t[|front|..] == joined + "." && t[..|LessColon(prev)|] == LessColon(prev);
  }

  lemma EndsOnce(t: string)
    requires EndsWith(t, ".")
    ensures !EndsWith(t, ":")
  {
    assert t[|t| - 1..][0] == '.';
  }

  lemma FoldHolds(prev: string, items: seq<string>)
    requires JoinItems(items) != ""
    ensures InOrder(FoldInto(prev, JoinItems(items)), [LessColon(prev)] + items)
  {
    hide FoldInto, InOrder, JoinItems;
    var joined := JoinItems(items);
    var glue := FoldParts(prev, joined);
    JoinItemsHolds(items);
    hide LessColon;
    InOrderAlone(LessColon(prev));
    InOrderAhead(joined, ".", items);
    InOrderBehind(glue, joined + ".", items);
    InOrderConcat(LessColon(prev), [LessColon(prev)], glue + (joined + "."), items);
    assert LessColon(prev) + (glue + (joined + ".")) == FoldInto(prev, joined);
  }

  lemma SentenceHolds(items: seq<string>)
    ensures InOrder(ListSentence(JoinItems(items)), items)
  {
    JoinItemsHolds(items);
    InOrderBehind("The relevant elements are ", JoinItems(items), items);
    InOrderAhead("The relevant elements are " + JoinItems(items), ".", items);
  }

  lemma {:induction false} JoinedIsNothing(items: seq<string>)
    requires forall s :: s in items ==> s != ""
    ensures JoinItems(items) == "" <==> items == []
  {
    JoinItemsLength(items);
    if items != [] { assert items[0] in items; }
  }

  lemma JoinThree(a: string, b: string, c: string)
    ensures JoinItems([a, b, c]) == a + ", " + b + ", and " + c
  {
    assert [a, b, c][..2] == [a, b] && [a, b][1..] == [b];
    assert CommaJoin([b]) == b;
  }

  /** Three items behind a full stop: "It has parts." becomes "It has parts. The relevant elements are Gate,
      Warrant, and Ledger." */
  lemma ThreeBehindAStop(prev: string, a: string, b: string, c: string)
    requires EndsWith(prev, ".")
    ensures FoldInto(prev, JoinItems([a, b, c]))
         == prev + " The relevant elements are " + (a + ", " + b + ", and " + c) + "."
  {
    JoinThree(a, b, c);
    var joined := a + ", " + b + ", and " + c;
    assert joined[|a|] == ',';
    hide JoinItems, FoldInto;
    EndsOnce(prev);
    var glue := FoldParts(prev, joined);
  }

  // ---- Text without its white space ------------------------------------------------------------

  function Ink(t: string): string {
    if t == [] then [] else (if IsSpace(t[0]) then [] else [t[0]]) + Ink(t[1..])
  }

  function Inks(items: seq<string>): seq<string> {
    if items == [] then [] else [Ink(items[0])] + Inks(items[1..])
  }

  lemma {:induction false} InkConcat(a: string, b: string)
    ensures Ink(a + b) == Ink(a) + Ink(b)
  {
    if a == [] {
      assert a + b == b;
    } else {
      assert (a + b)[1..] == a[1..] + b;
      InkConcat(a[1..], b);
    }
  }

  lemma {:induction false} InkOfSkip(t: string)
    ensures Ink(SkipSpaces(t)) == Ink(t)
  {
    if t != [] && IsSpace(t[0]) { InkOfSkip(t[1..]); }
  }

  lemma {:induction false} InkOfDrop(t: string)
    ensures Ink(DropTrailing(t)) == Ink(t)
  {
    if t != [] && IsSpace(t[|t| - 1]) {
      var front, last := t[..|t| - 1], [t[|t| - 1]];
      assert t == front + last && last[1..] == [];
      InkConcat(front, last);
      InkOfDrop(front);
    }
  }

  lemma InkOfStrip(t: string)
    ensures Ink(Strip(t)) == Ink(t)
  {
    InkOfSkip(t);
    InkOfDrop(SkipSpaces(t));
  }

  lemma {:induction false} InkInOrder(t: string, items: seq<string>)
    requires InOrder(t, items)
    ensures InOrder(Ink(t), Inks(items))
    decreases |items|
  {
    hide Ink, IsSpace;
    if items != [] {
      var k: nat :| OccursAt(t, items[0], k) && InOrder(t[k + |items[0]|..], items[1..]);
      var before, after := t[..k], t[k + |items[0]|..];
      assert t == before + (items[0] + after);
      InkConcat(before, items[0] + after);
      InkConcat(items[0], after);
      InkInOrder(after, items[1..]);
      InOrderAlone(Ink(items[0]));
      InOrderConcat(Ink(items[0]), [Ink(items[0])], Ink(after), Inks(items[1..]));
      InOrderBehind(Ink(before), Ink(items[0]) + Ink(after), Inks(items));
    }
  }

  // ---- Text without bullets --------------------------------------------------------------------

  predicate NoBullet(t: string) {
    BULLET !in t
  }

  lemma {:induction false} SkipNoBullet(t: string)
    requires NoBullet(t)
    ensures NoBullet(SkipSpaces(t))
  {
    if t != [] && IsSpace(t[0]) {
      assert forall i :: 0 <= i < |t[1..]| ==> t[1..][i] == t[i + 1];
      SkipNoBullet(t[1..]);
    }
  }

  lemma StripNoBullet(t: string)
    requires NoBullet(t)
    ensures NoBullet(Strip(t))
  {
    SkipNoBullet(t);
  }

  lemma {:induction false} CollapseNoBullet(t: string)
    requires NoBullet(t)
    ensures NoBullet(Collapse(t))
    decreases |t|
  {
    if t == [] {
    } else {
      assert NoBullet(t[1..]);
      if IsSpace(t[0]) {
        SkipNoBullet(t[1..]);
        CollapseNoBullet(SkipSpaces(t[1..]));
      } else {
        assert t[0] in t;
        CollapseNoBullet(t[1..]);
      }
    }
  }

  lemma NormalizeNoBullet(t: string)
    requires NoBullet(t)
    ensures NoBullet(Normalize(t))
  {
    CollapseNoBullet(t);
    StripNoBullet(Collapse(t));
  }

  lemma {:induction false} CommaJoinNoBullet(items: seq<string>)
    requires forall s :: s in items ==> NoBullet(s)
    ensures NoBullet(CommaJoin(items))
  {
    if items == [] {
    } else {
      assert items[0] in items;
      CommaJoinNoBullet(items[1..]);
    }
  }

  lemma JoinItemsNoBullet(items: seq<string>)
    requires forall s :: s in items ==> NoBullet(s)
    ensures NoBullet(JoinItems(items))
  {
    if |items| > 0 {
      assert items[0] in items && items[|items| - 1] in items;
      CommaJoinNoBullet(items[..|items| - 1]);
    }
  }

  lemma FoldNoBullet(prev: string, joined: string)
    requires NoBullet(prev) && NoBullet(joined)
    ensures NoBullet(FoldInto(prev, joined))
  {
  }
}
