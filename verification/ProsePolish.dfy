/** The final prose polish: every run of compact paragraphs is folded into the paragraph before it, in
    place, and every other paragraph is cleaned. */
module ProsePolish {
  import opened Blocks
  import opened BodyNodes
  import opened BookText
  import opened Lists
  import opened ProseText

  // ---- Cleaning --------------------------------------------------------------------------------

  /** `re.sub(r"\s*•\s*", " ", text)`. */
  function BlankBullets(t: string): string
    decreases |t|
  {
    var s := SkipSpaces(t);
    if s != [] && s[0] == BULLET then " " + BlankBullets(SkipSpaces(s[1..]))
    else if t == [] then []
    else [t[0]] + BlankBullets(t[1..])
  }

  /** `re.sub(r"\s+([,.;:])", r"\1", text)`. */
  function TightenMarks(t: string): string
    decreases |t|
  {
    var s := SkipSpaces(t);
    if t == [] then []
    else if |s| < |t| && s != [] && s[0] in {',', '.', ';', ':'} then [s[0]] + TightenMarks(s[1..])
    else [t[0]] + TightenMarks(t[1..])
  }

  /** `text.replace(old, new)`. */
  function Replace(t: string, from: string, to: string): string
    requires from != []
    decreases |t|
  {
    if t == [] then []
    else if StartsWith(t, from) then to + Replace(t[|from|..], from, to)
    else [t[0]] + Replace(t[1..], from, to)
  }

  function CleanText(text: string): string {
    var t1 := TightenMarks(BlankBullets(Normalize(text)));
    var t2 := Replace(t1, "These systems matter.", "These systems remain necessary.");
    var t3 := Replace(t2, "These mechanisms matter.", "These mechanisms remain necessary.");
    var t4 := Replace(t3, "This phrase matters.", "This phrase carries weight.");
    var t5 := Replace(t4, "That phrase matters.", "That phrase carries weight.");
    var t6 := Replace(t5, " matter.", " are consequential.");
    var t7 := Replace(t6, " matter ", " carry consequence ");
    Normalize(t7)
  }

  function CleanItem(text: string): string {
    var t := CleanText(text);
    DropMarks(if t != [] && IsLead(t[0]) then SkipSpaces(t[1..]) else t)
  }

  function CleanItems(items: seq<string>): seq<string> {
    if items == [] then []
    else (if CleanItem(items[0]) != "" then [CleanItem(items[0])] else []) + CleanItems(items[1..])
  }

  function AppendItems(prev: string, items: seq<string>): string {
    FoldInto(CleanText(prev), JoinItems(CleanItems(items)))
  }

  // ---- The items reach the text ----------------------------------------------------------------

  lemma {:induction false} CleanItemsConcat(a: seq<string>, b: seq<string>)
    ensures CleanItems(a + b) == CleanItems(a) + CleanItems(b)
  {
    hide CleanItem;
    if a == [] {
      assert a + b == b;
    } else {
      assert (a + b)[1..] == a[1..] + b;
      CleanItemsConcat(a[1..], b);
    }
  }

  /** Each item is cleaned on its own and stays unless nothing of it is left. */
  lemma CleanItemsAlone(item: string)
    ensures CleanItems([item]) == if CleanItem(item) == "" then [] else [CleanItem(item)]
  {
    hide CleanItem;
    assert [item][1..] == [];
  }

  lemma {:induction false} CleanItemsNotEmpty(items: seq<string>)
    ensures forall s :: s in CleanItems(items) ==> s != ""
  {
    hide CleanItem;
    if items != [] { CleanItemsNotEmpty(items[1..]); }
  }

  /** The folded text holds the cleaned text it goes into, less a final colon, and behind it every cleaned
      item of the run, in order; without any item it is the cleaned text. */
  lemma AppendHolds(prev: string, items: seq<string>)
    ensures CleanItems(items) == [] ==> AppendItems(prev, items) == CleanText(prev)
    ensures CleanItems(items) != [] ==>
      InOrder(AppendItems(prev, items), [LessColon(CleanText(prev))] + CleanItems(items))
      && StartsWith(AppendItems(prev, items), LessColon(CleanText(prev)))
      && EndsWith(AppendItems(prev, items), JoinItems(CleanItems(items)) + ".")
  {
    hide CleanItem, CleanText, InOrder, JoinItems;
    CleanItemsNotEmpty(items);
    JoinedIsNothing(CleanItems(items));
    if CleanItems(items) != [] {
      FoldHolds(CleanText(prev), CleanItems(items));
      var glue := FoldParts(CleanText(prev), JoinItems(CleanItems(items)));
    } else {
      assert FoldInto(CleanText(prev), "") == CleanText(prev);
    }
  }

  // ---- No bullet survives ----------------------------------------------------------------------

  lemma {:induction false} BlankBulletsClears(t: string)
    ensures NoBullet(BlankBullets(t))
    decreases |t|
  {
    var s := SkipSpaces(t);
    if s != [] && s[0] == BULLET {
      BlankBulletsClears(SkipSpaces(s[1..]));
    } else if t == [] {
    } else {
      assert t[0] == BULLET ==> s == t;
      BlankBulletsClears(t[1..]);
    }
  }

  lemma {:induction false} TightenNoBullet(t: string)
    requires NoBullet(t)
    ensures NoBullet(TightenMarks(t))
    decreases |t|
  {
    var s := SkipSpaces(t);
    if t == [] {
    } else {
      SkipNoBullet(t);
      assert t[0] in t && NoBullet(t[1..]);
      if |s| < |t| && s != [] && s[0] in {',', '.', ';', ':'} {
        assert NoBullet(s[1..]);
        TightenNoBullet(s[1..]);
      } else {
        TightenNoBullet(t[1..]);
      }
    }
  }

  lemma {:induction false} ReplaceNoBullet(t: string, from: string, that: string)
    requires from != [] && NoBullet(t) && NoBullet(that)
    ensures NoBullet(Replace(t, from, that))
    decreases |t|
  {
    if t == [] {
    } else if StartsWith(t, from) {
      assert NoBullet(t[|from|..]);
      ReplaceNoBullet(t[|from|..], from, that);
    } else {
      assert t[0] in t && NoBullet(t[1..]);
      ReplaceNoBullet(t[1..], from, that);
    }
  }

  /** Cleaned text holds no bullet at all. */
  lemma CleanTextNoBullet(text: string)
    ensures NoBullet(CleanText(text))
  {
    hide BlankBullets, Normalize, Replace, TightenMarks;
    BlankBulletsClears(Normalize(text));
    TightenNoBullet(BlankBullets(Normalize(text)));
    var t1 := TightenMarks(BlankBullets(Normalize(text)));
    ReplaceNoBullet(t1, "These systems matter.", "These systems remain necessary.");
    var t2 := Replace(t1, "These systems matter.", "These systems remain necessary.");
    ReplaceNoBullet(t2, "These mechanisms matter.", "These mechanisms remain necessary.");
    var t3 := Replace(t2, "These mechanisms matter.", "These mechanisms remain necessary.");
    ReplaceNoBullet(t3, "This phrase matters.", "This phrase carries weight.");
    var t4 := Replace(t3, "This phrase matters.", "This phrase carries weight.");
    ReplaceNoBullet(t4, "That phrase matters.", "That phrase carries weight.");
    var t5 := Replace(t4, "That phrase matters.", "That phrase carries weight.");
    ReplaceNoBullet(t5, " matter.", " are consequential.");
    var t6 := Replace(t5, " matter.", " are consequential.");
    ReplaceNoBullet(t6, " matter ", " carry consequence ");
    NormalizeNoBullet(Replace(t6, " matter ", " carry consequence "));
  }

  lemma CleanItemNoBullet(text: string)
    ensures NoBullet(CleanItem(text))
  {
    CleanTextNoBullet(text);
    var t := CleanText(text);
    if t != [] && IsLead(t[0]) {
      assert NoBullet(t[1..]);
      SkipNoBullet(t[1..]);
    }
  }

  lemma {:induction false} CleanItemsNoBullet(items: seq<string>)
    ensures forall s :: s in CleanItems(items) ==> NoBullet(s)
  {
    if items == [] {
    } else {
      CleanItemNoBullet(items[0]);
      CleanItemsNoBullet(items[1..]);
    }
  }

  lemma AppendItemsNoBullet(prev: string, items: seq<string>)
    ensures NoBullet(AppendItems(prev, items))
    ensures NoBullet(ListSentence(JoinItems(CleanItems(items))))
  {
    CleanTextNoBullet(prev);
    CleanItemsNoBullet(items);
    JoinItemsNoBullet(CleanItems(items));
    FoldNoBullet(CleanText(prev), JoinItems(CleanItems(items)));
  }

  /** When `clean_item` keeps the start of an item.  The class of leading marks takes in every lower
      case ASCII letter, so an item that starts with one loses it. */
  lemma ItemKeepsItsStart(text: string)
    ensures CleanItem(text) == DropMarks(CleanText(text)) <==> CleanText(text) == "" || !IsLead(CleanText(text)[0])
    ensures CleanText(text) != "" && 'a' <= CleanText(text)[0] <= 'z' ==> CleanItem(text) != DropMarks(CleanText(text))
  {
    var t := CleanText(text);
    if t != "" && IsLead(t[0]) { LeadIsLost(t); }
  }

  predicate IsLowerCase(t: string) {
    forall i :: 0 <= i < |t| ==> 'a' <= t[i] <= 'z'
  }

  lemma LetterIsNoSpace(t: string)
    requires IsLowerCase(t)
    ensures SkipSpaces(t) == t && (t != [] ==> t == [t[0]] + t[1..] && IsLowerCase(t[1..]))
    ensures t != [] ==> !IsSpace(t[0]) && !IsSpace(t[|t| - 1]) && t[0] != BULLET
  {
  }

  lemma {:induction false} BulletsStay(t: string)
    requires IsLowerCase(t)
    ensures BlankBullets(t) == t
  {
    hide IsLowerCase, IsSpace, SkipSpaces;
    LetterIsNoSpace(t);
    if t != [] { BulletsStay(t[1..]); }
  }

  lemma {:induction false} MarksStay(t: string)
    requires IsLowerCase(t)
    ensures TightenMarks(t) == t
  {
    hide IsLowerCase, IsSpace, SkipSpaces;
    LetterIsNoSpace(t);
    if t != [] { MarksStay(t[1..]); }
  }

  lemma {:induction false} LettersStay(t: string)
    requires IsLowerCase(t)
    ensures Collapse(t) == t && Strip(t) == t
  {
    hide IsLowerCase, IsSpace, SkipSpaces;
    LetterIsNoSpace(t);
    if t != [] { LettersStay(t[1..]); }
  }

  lemma {:induction false} TooShortToReplace(t: string, from: string, to: string)
    requires |t| < |from|
    ensures Replace(t, from, to) == t
  {
    if t != [] {
      assert t == [t[0]] + t[1..];
      TooShortToReplace(t[1..], from, to);
    }
  }

  lemma ShortWordIsClean(t: string)
    requires IsLowerCase(t) && |t| < 8
    ensures CleanText(t) == t
  {
    hide BlankBullets, Collapse, IsLowerCase, Replace, Strip, TightenMarks;
    BulletsStay(t);
    MarksStay(t);
    LettersStay(t);
    TooShortToReplace(t, "These systems matter.", "These systems remain necessary.");
    TooShortToReplace(t, "These mechanisms matter.", "These mechanisms remain necessary.");
    TooShortToReplace(t, "This phrase matters.", "This phrase carries weight.");
    TooShortToReplace(t, "That phrase matters.", "That phrase carries weight.");
    TooShortToReplace(t, " matter.", " are consequential.");
    TooShortToReplace(t, " matter ", " carry consequence ");
  }

  /** Every short lower-case word, as an item, loses its first letter: "gate" becomes "ate". */
  lemma WordLosesItsStart(t: string)
    requires IsLowerCase(t) && 0 < |t| < 8
    ensures CleanItem(t) == t[1..]
  {
    hide CleanText;
    ShortWordIsClean(t);
    assert SkipSpaces(t[1..]) == t[1..];
  }

  lemma GateBecomesAte()
    ensures CleanItem("gate") == "ate"
  {
    hide CleanItem;
    WordLosesItsStart("gate");
    assert "gate"[1..] == "ate";
  }

  lemma LeadIsLost(t: string)
    requires t != "" && IsLead(t[0])
    ensures |DropMarks(SkipSpaces(t[1..]))| < |DropMarks(t)|
  {
    var u, s := t[1..], SkipSpaces(t[1..]);
    SkipIsSuffix(u);
    DropMarksSuffix(u, |u| - |s|);
    DropMarksSuffix(t, 1);
  }

  lemma {:induction false} SkipIsSuffix(t: string)
    ensures SkipSpaces(t) == t[|t| - |SkipSpaces(t)|..]
  {
    if t != [] && IsSpace(t[0]) { SkipIsSuffix(t[1..]); }
  }

  // ---- The pass on values ----------------------------------------------------------------------

  predicate NeedsCleaning(b: Block) {
    b.isParagraph && CleanText(Shown(b)) != Shown(b)
  }

  function Cleaned(b: Block): Block {
    if NeedsCleaning(b) then b.(text := CleanText(Shown(b))) else b
  }

  /** The run at `i` goes into the nearest paragraph with text before it, or else into its own first block. */
  function FoldText(bs: seq<Block>, i: nat, items: seq<string>): (r: seq<Block>)
    requires i < |bs|
    ensures |r| == |bs|
  {
    var k := PreviousIndex(bs, i);
    if k >= 0 then bs[k := bs[k].(text := AppendItems(Shown(bs[k]), items))]
    else bs[i := bs[i].(text := ListSentence(JoinItems(CleanItems(items))), style := "BodyText")]
  }

  function FoldRun(bs: seq<Block>, i: nat, j: nat): (r: seq<Block>)
    requires i < j <= |bs|
    ensures i <= |r|
  {
    Cut(FoldText(bs, i, Texts(bs[i..j])), FoldFrom(bs, i), j)
  }

  datatype Outcome = Outcome(blocks: seq<Block>, collapsedRuns: nat, cleaned: nat)

  /** The pass from `i` on.  Every fold leaves fewer compact blocks, so stepping back does no harm. */
  function PolishFrom(bs: seq<Block>, i: nat): Outcome
    requires i <= |bs|
    decreases CompactCount(bs), |bs| - i
  {
    if i == |bs| then Outcome(bs, 0, 0)
    else if !IsCompact(bs[i]) then
      CleanedCount(bs, i);
      var r := PolishFrom(bs[i := Cleaned(bs[i])], i + 1);
      if NeedsCleaning(bs[i]) then r.(cleaned := r.cleaned + 1) else r
    else
      FoldCount(bs, i, RunEnd(bs, i));
      var r := PolishFrom(FoldRun(bs, i, RunEnd(bs, i)), StepBack(i));
      r.(collapsedRuns := r.collapsedRuns + 1)
  }

  function Polished(bs: seq<Block>): Outcome {
    PolishFrom(bs, 0)
  }

  // ---- What a step may do to a block -----------------------------------------------------------

  /** Other nodes stay as they are, only a compact paragraph changes style, and none becomes compact. */
  predicate MayBecome(b: Block, c: Block) {
    && c.isParagraph == b.isParagraph
    && (!b.isParagraph ==> c == b)
    && (c.style == b.style || (IsCompact(b) && c.style == "BodyText"))
    && (IsCompact(c) ==> IsCompact(b))
  }

  /** Clean for good: not compact and free of bullets. */
  predicate IsDone(b: Block) {
    b.isParagraph ==> !StartsWith(b.style, "Compact") && NoBullet(Shown(b))
  }

  lemma NoBulletNotMarked(t: string)
    requires NoBullet(t)
    ensures !StartsWith(t, MARK)
  {
    assert |t| >= 2 ==> t[..2][0] == t[0];
  }

  lemma DoneIsNotCompact(b: Block)
    requires IsDone(b)
    ensures !IsCompact(b)
  {
    if b.isParagraph { NoBulletNotMarked(Shown(b)); }
  }

  lemma NewText(b: Block, text: string)
    requires b.isParagraph && NoBullet(text)
    ensures MayBecome(b, b.(text := text))
    ensures !StartsWith(b.style, "Compact") ==> IsDone(b.(text := text))
  {
    StripNoBullet(text);
    NoBulletNotMarked(Strip(text));
  }

  lemma CleanedBlock(b: Block)
    requires !IsCompact(b)
    ensures MayBecome(b, Cleaned(b)) && IsDone(Cleaned(b))
  {
    if b.isParagraph {
      CleanTextNoBullet(Shown(b));
      NewText(b, CleanText(Shown(b)));
    }
  }

  lemma ListBlock(b: Block, items: seq<string>)
    requires IsCompact(b)
    ensures var c := b.(text := ListSentence(JoinItems(CleanItems(items))), style := "BodyText");
      MayBecome(b, c) && IsDone(c)
  {
    AppendItemsNoBullet("", items);
    assert "BodyText"[..7][0] == 'B' && "Compact"[0] == 'C';
    NewText(b.(style := "BodyText"), ListSentence(JoinItems(CleanItems(items))));
  }

  /** A fold changes one block, and leaves it done unless it was a compact paragraph before the run. */
  lemma FoldedBlock(bs: seq<Block>, i: nat, items: seq<string>, m: nat)
    requires i < |bs| && m < |bs| && IsCompact(bs[i])
    ensures MayBecome(bs[m], FoldText(bs, i, items)[m])
    ensures IsDone(bs[m]) || (m == i && FoldFrom(bs, i) == i + 1) ==> IsDone(FoldText(bs, i, items)[m])
  {
    var k := PreviousIndex(bs, i);
    if k >= 0 {
      AppendItemsNoBullet(Shown(bs[k]), items);
      NewText(bs[k], AppendItems(Shown(bs[k]), items));
    } else {
      ListBlock(bs[i], items);
    }
  }

  /** One fold loses no item: every cleaned item of the run is, in order, in the block it goes into. */
  lemma FoldHoldsItems(bs: seq<Block>, i: nat, j: nat)
    requires i < j <= |bs|
    ensures var items, k := Texts(bs[i..j]), PreviousIndex(bs, i);
      if k >= 0 then
        FoldFrom(bs, i) == i && k < |FoldRun(bs, i, j)|
        && InOrder(FoldRun(bs, i, j)[k].text, CleanItems(items))
      else
        FoldFrom(bs, i) == i + 1 && i < |FoldRun(bs, i, j)|
        && InOrder(FoldRun(bs, i, j)[i].text, CleanItems(items))
  {
    var items, k := Texts(bs[i..j]), PreviousIndex(bs, i);
    hide CleanItems, CleanText, InOrder, JoinItems, Texts, AppendItems, ListSentence;
    if k >= 0 {
      ItemsInText(Shown(bs[k]), items);
      CutBefore(FoldText(bs, i, items), FoldFrom(bs, i), j, k);
    } else {
      SentenceHolds(CleanItems(items));
      CutBefore(FoldText(bs, i, items), FoldFrom(bs, i), j, i);
    }
  }

  lemma CutBefore(bs: seq<Block>, from: nat, j: nat, k: nat)
    requires k < from <= j <= |bs|
    ensures k < |Cut(bs, from, j)| && Cut(bs, from, j)[k] == bs[k]
  {
  }

  lemma ItemsInText(prev: string, items: seq<string>)
    ensures InOrder(AppendItems(prev, items), CleanItems(items))
  {
    hide AppendItems, CleanItems, CleanText;
    AppendHolds(prev, items);
    if CleanItems(items) != [] {
      InOrderTail(AppendItems(prev, items), LessColon(CleanText(prev)), CleanItems(items));
    }
  }

  lemma CleanedCount(bs: seq<Block>, i: nat)
    requires i < |bs| && !IsCompact(bs[i])
    ensures CompactCount(bs[i := Cleaned(bs[i])]) == CompactCount(bs)
  {
    CleanedBlock(bs[i]);
    CountUpdate(bs, i, Cleaned(bs[i]));
  }

  lemma FoldTextCount(bs: seq<Block>, i: nat, items: seq<string>)
    requires i < |bs| && IsCompact(bs[i])
    ensures var folded, from := FoldText(bs, i, items), FoldFrom(bs, i);
      && CompactCount(folded) + (from - i) <= CompactCount(bs)
      && folded[from..] == bs[from..]
  {
    var folded, from := FoldText(bs, i, items), FoldFrom(bs, i);
    var m := if from == i then PreviousIndex(bs, i) else i;
    FoldedBlock(bs, i, items, m);
    if from == i + 1 { DoneIsNotCompact(folded[i]); }
    assert folded == bs[m := folded[m]];
    CountUpdate(bs, m, folded[m]);
  }

  /** A fold leaves strictly fewer compact blocks. */
  lemma FoldCount(bs: seq<Block>, i: nat, j: nat)
    requires i < j <= |bs| && forall k :: i <= k < j ==> IsCompact(bs[k])
    ensures CompactCount(FoldRun(bs, i, j)) < CompactCount(bs)
  {
    var folded, from := FoldText(bs, i, Texts(bs[i..j])), FoldFrom(bs, i);
    FoldTextCount(bs, i, Texts(bs[i..j]));
    CutCompact(bs, folded, from, j);
  }

  lemma CutCompact(bs: seq<Block>, folded: seq<Block>, from: nat, j: nat)
    requires from <= j <= |bs| == |folded| && folded[from..] == bs[from..]
    requires forall k :: from <= k < j ==> IsCompact(bs[k])
    ensures CompactCount(Cut(folded, from, j)) == CompactCount(folded) - (j - from)
  {
    hide CompactCount, IsCompact;
    assert forall k :: from <= k < j ==> folded[k] == folded[from..][k - from] == bs[from..][k - from] == bs[k];
    CountAll(folded, from, j);
    CountCut(folded, from, j);
  }

  /** After the pass every block is done: nothing compact and no bullet is left. */
  lemma {:induction false} PolishedIsDone(bs: seq<Block>, i: nat)
    requires i <= |bs| && forall k :: 0 <= k < i ==> IsDone(bs[k])
    ensures forall b :: b in PolishFrom(bs, i).blocks ==> IsDone(b)
    decreases CompactCount(bs), |bs| - i
  {
    if i == |bs| {
    } else if !IsCompact(bs[i]) {
      CleanedCount(bs, i);
      CleanedBlock(bs[i]);
      PolishedIsDone(bs[i := Cleaned(bs[i])], i + 1);
    } else {
      var j := RunEnd(bs, i);
      FoldCount(bs, i, j);
      forall k | 0 <= k < i
        ensures IsDone(FoldRun(bs, i, j)[k])
      {
        FoldedBlock(bs, i, Texts(bs[i..j]), k);
      }
      PolishedIsDone(FoldRun(bs, i, j), StepBack(i));
    }
  }

  // ---- The document ----------------------------------------------------------------------------

  method CleanNode(list: seq<Node>, i: nat) returns (changed: bool)
    requires i < |list| && AreDistinct(list)
    modifies {list[i]}
    ensures Values(list) == old(Values(list))[i := Cleaned(old(list[i].Value()))]
    ensures changed == NeedsCleaning(old(list[i].Value()))
  {
    changed := false;
    var node := list[i];
    if node.isParagraph {
      var text := Shown(node.Value());
      var clean := CleanText(text);
      if clean != text {
        node.text := clean;
        changed := true;
      }
    }
  }

  /** Rewrites the text that the run at `i` folds into; `from` is the first node that is then to go. */
  method FoldTexts(list: seq<Node>, i: nat, items: seq<string>) returns (from: nat)
    requires i < |list| && AreDistinct(list)
    modifies NodesOf(list)
    ensures from == FoldFrom(old(Values(list)), i)
    ensures Values(list) == FoldText(old(Values(list)), i, items)
  {
    var k := FindPrevious(list, i);
    if k >= 0 {
      var prev := list[k];
      prev.text := AppendItems(Shown(prev.Value()), items);
      from := i;
    } else {
      list[i].text := ListSentence(JoinItems(CleanItems(items)));
      list[i].style := "BodyText";
      from := i + 1;
    }
  }

  // ---- The loop --------------------------------------------------------------------------------

  /** What the children held before the pass, and what they may hold now. */
  ghost predicate Untouched(start: seq<Node>, was: map<Node, Block>)
    reads start
  {
    forall n :: n in start ==> n in was && MayBecome(was[n], n.Value())
  }

  /** The working list is what is left of the children, and only compact ones went. */
  ghost predicate Midway(start: seq<Node>, was: map<Node, Block>, list: seq<Node>, gone: set<Node>) {
    IsLeft(start, list, gone) && forall n :: n in gone ==> n in was && IsCompact(was[n])
  }

  method CleanTurn(list: seq<Node>, i: nat, ghost start: seq<Node>, ghost was: map<Node, Block>)
    returns (changed: bool)
    requires i < |list| && AreDistinct(list) && list[i] in start && !IsCompact(list[i].Value())
    requires Untouched(start, was)
    modifies {list[i]}
    ensures Values(list) == old(Values(list))[i := Cleaned(old(list[i].Value()))]
    ensures changed == NeedsCleaning(old(list[i].Value()))
    ensures Untouched(start, was)
  {
    ghost var b := list[i].Value();
    CleanedBlock(b);
    changed := CleanNode(list, i);
    assert list[i].Value() == Values(list)[i];
  }

  method FoldTextsTurn(list: seq<Node>, i: nat, items: seq<string>, ghost start: seq<Node>, ghost was: map<Node, Block>)
    returns (from: nat)
    requires i < |list| && AreDistinct(list) && IsCompact(list[i].Value())
    requires Untouched(start, was)
    modifies NodesOf(list)
    ensures from == FoldFrom(old(Values(list)), i)
    ensures Values(list) == FoldText(old(Values(list)), i, items)
    ensures Untouched(start, was)
  {
    ghost var bs := Values(list);
    from := FoldTexts(list, i, items);
    forall n | n in start
      ensures n in was && MayBecome(was[n], n.Value())
    {
      if n in list {
        var m :| 0 <= m < |list| && list[m] == n;
        FoldedBlock(bs, i, items, m);
        assert MayBecome(was[n], bs[m]) && n.Value() == Values(list)[m];
      }
    }
  }

  lemma CutKeepsMidway(start: seq<Node>, was: map<Node, Block>, list: seq<Node>, gone: set<Node>, i: nat, j: nat)
    requires i <= j <= |list| && Midway(start, was, list, gone)
    requires forall k :: i <= k < j ==> list[k] in was && IsCompact(was[list[k]])
    ensures Midway(start, was, Cut(list, i, j), gone + Stretch(list, i, j))
  {
    CutIsLeft(start, list, gone, i, j);
  }

  /** The nodes of a run were compact before the pass. */
  lemma RunWasCompact(start: seq<Node>, was: map<Node, Block>, list: seq<Node>, i: nat, j: nat)
    requires i <= j <= |list| && Untouched(start, was) && NodesOf(list) <= NodesOf(start)
    requires forall k :: i <= k < j ==> IsCompact(Values(list)[k])
    ensures forall k :: i <= k < j ==> list[k] in was && IsCompact(was[list[k]])
  {
    forall k | i <= k < j
      ensures list[k] in was && IsCompact(was[list[k]])
    {
      assert IsCompact(Values(list)[k]) && list[k] in NodesOf(list);
    }
  }

  /** Folds the run at `i` into its text; the nodes from `from` to `j` are then to go. */
  method FoldAt(list: seq<Node>, i: nat, ghost start: seq<Node>, ghost was: map<Node, Block>, ghost gone: set<Node>)
    returns (from: nat, j: nat, ghost more: set<Node>)
    requires Midway(start, was, list, gone) && Untouched(start, was)
    requires i < |list| && IsCompact(list[i].Value())
    modifies NodesOf(list)
    ensures from <= j <= |list|
    ensures Values(Cut(list, from, j)) == FoldRun(old(Values(list)), i, RunEnd(old(Values(list)), i))
    ensures Midway(start, was, Cut(list, from, j), more) && Untouched(start, was)
  {
    hide FoldText, IsCompact, Keep, MayBecome, Strip, Texts;
    var items;
    j, items := ScanRun(list, i);
    RunWasCompact(start, was, list, i, j);
    from := FoldTextsTurn(list, i, items, start, was);
    ValuesCut(list, from, j);
    CutKeepsMidway(start, was, list, gone, from, j);
    more := gone + Stretch(list, from, j);
  }

  /** One turn of the loop at a compact node. */
  method FoldTurn(body: Body, list: seq<Node>, i: nat, ghost start: seq<Node>, ghost was: map<Node, Block>,
                  ghost gone: set<Node>)
    returns (rest: seq<Node>, removed: nat, ghost more: set<Node>)
    requires Midway(start, was, list, gone) && Untouched(start, was) && body.children == list
    requires i < |list| && IsCompact(list[i].Value())
    modifies body, NodesOf(list)
    ensures body.children == rest && removed + |rest| == |list| && NodesOf(rest) <= NodesOf(list)
    ensures Values(rest) == FoldRun(old(Values(list)), i, RunEnd(old(Values(list)), i))
    ensures Midway(start, was, rest, more) && Untouched(start, was)
  {
    hide FoldRun, IsCompact, Keep, MayBecome, RunEnd;
    var from, j;
    from, j, more := FoldAt(list, i, start, was, gone);
    rest := RemoveFolded(body, list, from, j, start, was);
    removed := j - from;
  }

  /** Removing nodes from the body leaves the texts as they are. */
  method RemoveFolded(body: Body, list: seq<Node>, from: nat, j: nat, ghost start: seq<Node>,
                      ghost was: map<Node, Block>)
    returns (rest: seq<Node>)
    requires from <= j <= |list| && AreDistinct(list) && body.children == list && Untouched(start, was)
    modifies body
    ensures rest == Cut(list, from, j) && body.children == rest
    ensures Values(rest) == old(Values(Cut(list, from, j))) && Untouched(start, was)
  {
    hide Keep, MayBecome, Stretch;
    rest := body.RemoveRun(list, from, j);
  }

  predicate PolishAgrees(total: Outcome, bs: seq<Block>, i: nat, collapsedRuns: nat, cleaned: nat)
    requires i <= |bs|
  {
    var rest := PolishFrom(bs, i);
    total == Outcome(rest.blocks, collapsedRuns + rest.collapsedRuns, cleaned + rest.cleaned)
  }

  lemma CleanAgrees(total: Outcome, bs: seq<Block>, i: nat, collapsedRuns: nat, cleaned: nat)
    requires i < |bs| && !IsCompact(bs[i]) && PolishAgrees(total, bs, i, collapsedRuns, cleaned)
    ensures CompactCount(bs[i := Cleaned(bs[i])]) == CompactCount(bs)
    ensures PolishAgrees(total, bs[i := Cleaned(bs[i])], i + 1, collapsedRuns,
                   if NeedsCleaning(bs[i]) then cleaned + 1 else cleaned)
  {
    CleanedCount(bs, i);
  }

  lemma FoldAgrees(total: Outcome, bs: seq<Block>, i: nat, collapsedRuns: nat, cleaned: nat)
    requires i < |bs| && IsCompact(bs[i]) && PolishAgrees(total, bs, i, collapsedRuns, cleaned)
    ensures var next := FoldRun(bs, i, RunEnd(bs, i));
      CompactCount(next) < CompactCount(bs) && PolishAgrees(total, next, StepBack(i), collapsedRuns + 1, cleaned)
  {
    hide FoldRun, IsCompact, RunEnd;
    FoldCount(bs, i, RunEnd(bs, i));
  }

  /** The loop of the script.  It computes `Polished`, removes only paragraphs that were compact, and
      keeps the other nodes, in order. */
  method PolishLoop(body: Body, ghost was: map<Node, Block>)
    returns (collapsedRuns: nat, removed: nat, cleaned: nat, ghost gone: set<Node>)
    requires AreDistinct(body.children) && Untouched(body.children, was)
    modifies body, NodesOf(body.children)
    ensures Polished(old(Values(body.children))) == Outcome(Values(body.children), collapsedRuns, cleaned)
    ensures removed + |body.children| == |old(body.children)|
    ensures Midway(old(body.children), was, body.children, gone) && Untouched(old(body.children), was)
  {
    hide Cleaned, CompactCount, FoldRun, IsCompact, Keep, MayBecome, NeedsCleaning, PolishFrom, RunEnd;
    var children := body.children;
    collapsedRuns, removed, cleaned, gone := 0, 0, 0, {};
    KeepAll(children, {});
    ghost var start, total := children, Polished(Values(children));
    var i := 0;
    while i < |children|
      invariant 0 <= i <= |children| && body.children == children
      invariant Midway(start, was, children, gone) && Untouched(start, was)
      invariant PolishAgrees(total, Values(children), i, collapsedRuns, cleaned)
      invariant removed + |children| == |start| && NodesOf(children) <= NodesOf(start)
      decreases CompactCount(Values(children)), |children| - i
    {
      ghost var bs := Values(children);
      if !IsCompact(children[i].Value()) {
        CleanAgrees(total, bs, i, collapsedRuns, cleaned);
        var changed := CleanTurn(children, i, start, was);
        cleaned := if changed then cleaned + 1 else cleaned;
        i := i + 1;
      } else {
        FoldAgrees(total, bs, i, collapsedRuns, cleaned);
        var k;
        children, k, gone := FoldTurn(body, children, i, start, was, gone);
        removed := removed + k;
        collapsedRuns := collapsedRuns + 1;
        i := if i - 1 > 0 then i - 1 else 0;
      }
    }
    PolishAtEnd(Values(children));
  }

  lemma PolishAtEnd(bs: seq<Block>)
    ensures PolishFrom(bs, |bs|) == Outcome(bs, 0, 0)
  {
  }

  /** The whole pass: it computes `Polished` and ends with no compact paragraph and no bullet; only
      compact paragraphs went, the rest kept their order; other nodes are as they were.  `gone` names the
      removed nodes. */
  method Polish(body: Body) returns (collapsedRuns: nat, removed: nat, cleaned: nat, ghost gone: set<Node>)
    requires AreDistinct(body.children)
    modifies body, NodesOf(body.children)
    ensures Polished(old(Values(body.children))) == Outcome(Values(body.children), collapsedRuns, cleaned)
    ensures forall b :: b in Values(body.children) ==> IsDone(b) && !IsCompact(b)
    ensures body.children == Keep(old(body.children), gone) && removed + |body.children| == |old(body.children)|
    ensures forall n :: n in old(body.children) && n in gone ==> old(IsCompact(n.Value()))
    ensures forall n :: n in old(body.children) ==> MayBecome(old(n.Value()), n.Value())
  {
    ghost var was := map n | n in body.children :: n.Value();
    PolishedIsDone(Values(body.children), 0);
    collapsedRuns, removed, cleaned, gone := PolishLoop(body, was);
    forall b | b in Values(body.children)
      ensures IsDone(b) && !IsCompact(b)
    {
      DoneIsNotCompact(b);
    }
  }
}
