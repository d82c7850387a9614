/** The bullet collapse keeps the text: what a block loses is read again, in its place, in the text it was
    folded into. */
module BulletText {
  import opened Blocks
  import opened BookText
  import opened BulletCollapse
  import opened BulletRuns
  import opened ProseText

  // ---- Items -----------------------------------------------------------------------------------

  lemma {:induction false} CleanItemsConcat(a: seq<string>, b: seq<string>)
    ensures CleanItems(a + b) == CleanItems(a) + CleanItems(b)
  {
    hide CleanItem;
    if a == [] {
      assert a + b == b;
    } else {
      assert (a + b)[1..] == a[1..] + b;
      CleanItemsConcat(a[1..], b);
    }
  }

  /** Each item is cleaned on its own and stays unless nothing of it is left. */
  lemma CleanItemsAlone(item: string)
    ensures CleanItems([item]) == if CleanItem(item) == "" then [] else [CleanItem(item)]
  {
    hide CleanItem;
    assert [item][1..] == [];
  }

  lemma {:induction false} CleanItemsNotEmpty(items: seq<string>)
    ensures forall s :: s in CleanItems(items) ==> s != ""
  {
    hide CleanItem;
    if items != [] { CleanItemsNotEmpty(items[1..]); }
  }

  // ---- The pieces of a document ----------------------------------------------------------------

  /** What a block that is not folded away has to say, less a final colon. */
  function PieceOf(b: Block): seq<string> {
    if HasText(b) then [Ink(LessColon(Shown(b)))] else []
  }

  function ItemsOf(run: seq<Block>): seq<string> {
    Inks(CleanItems(Texts(run)))
  }

  /** The pieces of the input: a run of three or more counts by its items, any other block by its text. */
  function Pieces(s: seq<Block>): seq<string> {
    var j := RunLength(s);
    if s == [] then []
    else if j >= 3 then ItemsOf(s[..j]) + Pieces(s[j..])
    else PieceOf(s[0]) + Pieces(s[1..])
  }

  /** The text of the block holds these pieces, in order. */
  ghost predicate Holds(b: Block, ps: seq<string>) {
    if HasText(b) then InOrder(Ink(LessColon(Shown(b))), ps) else ps == []
  }

  ghost predicate HoldAll(bs: seq<Block>, pss: seq<seq<string>>) {
    |bs| == |pss| && forall k :: 0 <= k < |bs| ==> Holds(bs[k], pss[k])
  }

  function Flat(pss: seq<seq<string>>): seq<string> {
    if pss == [] then [] else pss[0] + Flat(pss[1..])
  }

  lemma {:induction false} FlatSnoc(pss: seq<seq<string>>, ps: seq<string>)
    ensures Flat(pss + [ps]) == Flat(pss) + ps
  {
    if pss == [] {
      assert [ps][1..] == [] && Flat([ps]) == ps + Flat([]);
    } else {
      assert (pss + [ps])[1..] == pss[1..] + [ps];
      FlatSnoc(pss[1..], ps);
    }
  }

  lemma {:induction false} FlatOfNothing(pss: seq<seq<string>>)
    requires forall m :: 0 <= m < |pss| ==> pss[m] == []
    ensures Flat(pss) == []
  {
    if pss != [] {
      assert forall m :: 0 <= m < |pss[1..]| ==> pss[1..][m] == pss[m + 1];
      FlatOfNothing(pss[1..]);
    }
  }

  /** Pieces added behind the last ones come last. */
  lemma {:induction false} FlatUpdate(pss: seq<seq<string>>, k: nat, ps: seq<string>)
    requires k < |pss| && forall m :: k < m < |pss| ==> pss[m] == []
    ensures Flat(pss[k := pss[k] + ps]) == Flat(pss) + ps
  {
    var more, tail := pss[k := pss[k] + ps], pss[1..];
    assert forall m :: 0 <= m < |tail| ==> tail[m] == pss[m + 1];
    if k == 0 {
      assert more[1..] == tail;
      FlatOfNothing(tail);
    } else {
      assert more[1..] == tail[k - 1 := tail[k - 1] + ps];
      FlatUpdate(tail, k - 1, ps);
    }
  }

  // ---- One fold --------------------------------------------------------------------------------

  lemma PieceHolds(b: Block)
    ensures Holds(b, PieceOf(b))
  {
    if HasText(b) { InOrderAlone(Ink(LessColon(Shown(b)))); }
  }

  lemma JoinedHolds(run: seq<Block>)
    ensures InOrder(Ink(Joined(run)), ItemsOf(run))
  {
    JoinItemsHolds(CleanItems(Texts(run)));
    InkInOrder(Joined(run), CleanItems(Texts(run)));
  }

  /** A text that ends in a full stop keeps all its ink in print. */
  lemma InkInPrint(t: string)
    requires t != "" && t[|t| - 1] == '.'
    ensures Strip(t) != "" && Ink(LessColon(Strip(t))) == Ink(t)
  {
    SkipKeepsEnd(t);
    InkOfStrip(t);
    EndsWithChar(Strip(t), ':');
  }

  lemma AroundInk(front: string, joined: string, ps: seq<string>, qs: seq<string>)
    requires InOrder(Ink(front), ps) && InOrder(Ink(joined), qs)
    ensures InOrder(Ink(front + joined + "."), ps + qs)
  {
    hide Ink, InOrder, Strip, IsSpace;
    InkConcat(front, joined);
    InkConcat(front + joined, ".");
    InOrderConcat(Ink(front), ps, Ink(joined), qs);
    InOrderAhead(Ink(front) + Ink(joined), Ink("."), ps + qs);
  }

  lemma AheadInk(front: string, glue: string, ps: seq<string>)
    requires InOrder(Ink(front), ps)
    ensures InOrder(Ink(front + glue), ps)
  {
    hide Ink, InOrder;
    InkConcat(front, glue);
    InOrderAhead(Ink(front), Ink(glue), ps);
  }

  /** A block that a run is folded into holds the items of the run behind what it held. */
  lemma FoldedHolds(b: Block, run: seq<Block>, ps: seq<string>)
    requires HasText(b) && Holds(b, ps)
    ensures var f := b.(text := ProseFrom(Shown(b), Texts(run))); HasText(f) && Holds(f, ps + ItemsOf(run))
  {
    hide CleanItems, FoldInto, Ink, InOrder, JoinItems, LessColon, Strip, Texts;
    var p, joined := Shown(b), Joined(run);
    JoinedHolds(run);
    CleanItemsNotEmpty(Texts(run));
    JoinedIsNothing(CleanItems(Texts(run)));
    if joined == "" {
      FoldNothing(p);
      StripEnds(b.text);
      assert ps + ItemsOf(run) == ps;
    } else {
      var glue := FoldParts(p, joined);
      AheadInk(LessColon(p), glue, ps);
      AroundInk(LessColon(p) + glue, joined, ps, ItemsOf(run));
      InkInPrint(FoldInto(p, joined));
    }
  }

  lemma HoldsNothing(t: string)
    ensures InOrder(t, [])
  {
  }

  /** A run with no text before it becomes a sentence that holds its items. */
  lemma SentenceKeeps(b: Block, run: seq<Block>)
    requires b.isParagraph
    ensures var f := b.(text := ListSentence(JoinItems(CleanItems(Texts(run)))), style := "BodyText");
      HasText(f) && Holds(f, ItemsOf(run))
  {
    hide CleanItems, Ink, InOrder, JoinItems, LessColon, Strip, Texts;
    JoinedHolds(run);
    HoldsNothing(Ink("The relevant elements are "));
    AroundInk("The relevant elements are ", Joined(run), [], ItemsOf(run));
    assert [] + ItemsOf(run) == ItemsOf(run);
    InkInPrint(ListSentence(Joined(run)));
  }

  // ---- The pass --------------------------------------------------------------------------------

  lemma ShortPieces(bs: seq<Block>, i: nat)
    requires i < |bs| && RunEnd(bs, i) < i + 3
    ensures Pieces(bs[i..]) == PieceOf(bs[i]) + Pieces(bs[i + 1..])
  {
    RunLengthIs(bs, i);
    assert bs[i..][0] == bs[i] && bs[i..][1..] == bs[i + 1..];
  }

  lemma LongPieces(bs: seq<Block>, i: nat, j: nat)
    requires i < |bs| && RunEnd(bs, i) == j >= i + 3
    ensures Pieces(bs[i..]) == ItemsOf(bs[i..j]) + Pieces(bs[j..])
  {
    hide ItemsOf, RunEnd, RunLength;
    RunLengthIs(bs, i);
    SliceOfTail(bs, i, j);
  }

  lemma HoldOneMore(bs: seq<Block>, i: nat, pss: seq<seq<string>>, ps: seq<string>)
    requires i < |bs| && HoldAll(bs[..i], pss) && Holds(bs[i], ps)
    ensures HoldAll(bs[..i + 1], pss + [ps])
  {
    hide Holds;
    assert bs[..i + 1] == bs[..i] + [bs[i]];
  }

  lemma NothingBetween(bs: seq<Block>, i: nat, pss: seq<seq<string>>)
    requires i <= |bs| && HoldAll(bs[..i], pss)
    ensures forall m :: PreviousIndex(bs, i) < m < i ==> pss[m] == []
  {
    PreviousIsNearest(bs, i);
    forall m | PreviousIndex(bs, i) < m < i
      ensures pss[m] == []
    {
      assert bs[..i][m] == bs[m] && Holds(bs[..i][m], pss[m]);
    }
  }

  lemma HoldBefore(bs: seq<Block>, i: nat, j: nat, k: nat, n: seq<Block>, pss: seq<seq<string>>)
    requires i < |bs| && RunEnd(bs, i) == j >= i + 3 && PreviousIndex(bs, i) == k && n == FoldRun(bs, i, j)
    requires HoldAll(bs[..i], pss)
    ensures i <= |n| && n[i..] == bs[j..]
    ensures HoldAll(n[..i], pss[k := pss[k] + ItemsOf(bs[i..j])])
    ensures Flat(pss[k := pss[k] + ItemsOf(bs[i..j])]) == Flat(pss) + ItemsOf(bs[i..j])
  {
    hide FoldRun, Holds, IsCompact, ItemsOf, PreviousIndex, RunEnd, ProseFrom, Texts;
    var ps := ItemsOf(bs[i..j]);
    FoldBefore(bs, i, k, n);
    BeforeHolds(bs, i, j, k, pss[k]) by { assert bs[..i][k] == bs[k] && Holds(bs[..i][k], pss[k]); }
    NothingBetween(bs, i, pss);
    FlatUpdate(pss, k, ps);
    forall m | 0 <= m < i
      ensures Holds(n[..i][m], pss[k := pss[k] + ps][m])
    {
      assert n[..i][m] == n[m] && bs[..i][m] == bs[m] && Holds(bs[..i][m], pss[m]);
    }
  }

  lemma BeforeHolds(bs: seq<Block>, i: nat, j: nat, k: nat, ps: seq<string>)
    requires i < j <= |bs| && PreviousIndex(bs, i) == k && Holds(bs[k], ps)
    ensures k < |FoldRun(bs, i, j)| && Holds(FoldRun(bs, i, j)[k], ps + ItemsOf(bs[i..j]))
  {
    hide FoldRun, Holds, ItemsOf, ProseFrom, Shown, Texts;
    assert HasText(bs[k]) by { hide *; PreviousHasText(bs, i); }
    FoldedHolds(bs[k], bs[i..j], ps);
    FoldsBefore(bs, i, j, k);
    SpliceBefore(bs, i, j, k, bs[k].(text := ProseFrom(Shown(bs[k]), Texts(bs[i..j]))));
  }

  lemma PreviousHasText(bs: seq<Block>, i: nat)
    requires i <= |bs| && PreviousIndex(bs, i) >= 0
    ensures HasText(bs[PreviousIndex(bs, i)])
  {
  }

  lemma AloneHolds(bs: seq<Block>, i: nat, j: nat)
    requires i < |bs| && RunEnd(bs, i) == j >= i + 3 && PreviousIndex(bs, i) < 0
    ensures i < |FoldRun(bs, i, j)| && Holds(FoldRun(bs, i, j)[i], ItemsOf(bs[i..j]))
  {
    hide Holds, ItemsOf, ListSentence, RunEnd, IsCompact, CleanItems, JoinItems, Texts;
    var run := bs[i..j];
    assert bs[i].isParagraph by { hide *; CompactBlock(bs, i); }
    SentenceKeeps(bs[i], run);
    SpliceHead(bs, i, j, bs[i].(text := ListSentence(JoinItems(CleanItems(Texts(run)))), style := "BodyText"));
  }

  lemma CompactBlock(bs: seq<Block>, i: nat)
    requires i < |bs| && RunEnd(bs, i) > i
    ensures bs[i].isParagraph
  {
  }

  lemma HoldAlone(bs: seq<Block>, i: nat, j: nat, n: seq<Block>, pss: seq<seq<string>>)
    requires i < |bs| && RunEnd(bs, i) == j >= i + 3 && PreviousIndex(bs, i) < 0 && n == FoldRun(bs, i, j)
    requires HoldAll(bs[..i], pss)
    ensures i < |n| && n[i + 1..] == bs[j..]
    ensures HoldAll(n[..i + 1], pss + [ItemsOf(bs[i..j])])
    ensures Flat(pss + [ItemsOf(bs[i..j])]) == Flat(pss) + ItemsOf(bs[i..j])
  {
    hide FoldRun, HoldAll, ItemsOf, PreviousIndex, RunEnd;
    FoldAlone(bs, i, n);
    AloneHolds(bs, i, j);
    assert n[..i] == bs[..i];
    HoldOneMore(n, i, pss, ItemsOf(bs[i..j]));
    FlatSnoc(pss, ItemsOf(bs[i..j]));
  }

  /** A fold moves the pieces of its run to where the run's items now stand. */
  lemma FoldKeeps(bs: seq<Block>, i: nat, j: nat, pss: seq<seq<string>>)
    returns (n: seq<Block>, from: nat, more: seq<seq<string>>)
    requires i < |bs| && RunEnd(bs, i) == j >= i + 3 && AtStart(bs, i) && HoldAll(bs[..i], pss)
    ensures |n| < |bs| && from <= |n| && AtStart(n, from)
    ensures CollapseFrom(n, from) == CollapseFrom(bs, i)
    ensures HoldAll(n[..from], more) && Flat(more) + Pieces(n[from..]) == Flat(pss) + Pieces(bs[i..])
  {
    hide AtStart, CollapseFrom, Flat, FoldRun, Holds, ItemsOf, Pieces, RunEnd;
    var k, ps := PreviousIndex(bs, i), ItemsOf(bs[i..j]);
    n := FoldRun(bs, i, j);
    FoldShortens(bs, i, j);
    LongPieces(bs, i, j);
    if k >= 0 {
      TurnBefore(bs, i, j, k, n);
      HoldBefore(bs, i, j, k, n, pss);
      from, more := i, pss[k := pss[k] + ps];
    } else {
      TurnAlone(bs, i, j, n);
      HoldAlone(bs, i, j, n, pss);
      from, more := i + 1, pss + [ps];
    }
  }

  /** From any place of the loop: the blocks of the result hold the pieces held before it and behind them
      the pieces of the rest. */
  lemma {:induction false} KeepsTextFrom(bs: seq<Block>, i: nat, pss: seq<seq<string>>)
    returns (qss: seq<seq<string>>)
    requires i <= |bs| && AtStart(bs, i) && HoldAll(bs[..i], pss)
    ensures HoldAll(CollapseFrom(bs, i), qss) && Flat(qss) == Flat(pss) + Pieces(bs[i..])
    decreases |bs|, |bs| - i
  {
    hide *;
    if i == |bs| {
      qss := pss;
      KeptAtEnd(bs, pss);
    } else if RunEnd(bs, i) < i + 3 {
      ShortTurn(bs, i);
      PieceHolds(bs[i]);
      HoldOneMore(bs, i, pss, PieceOf(bs[i]));
      FlatSnoc(pss, PieceOf(bs[i]));
      ShortPieces(bs, i);
      qss := KeepsTextFrom(bs, i + 1, pss + [PieceOf(bs[i])]);
    } else {
      var n, from, more := FoldKeeps(bs, i, RunEnd(bs, i), pss);
      qss := KeepsTextFrom(n, from, more);
    }
  }

  lemma KeptAtEnd(bs: seq<Block>, pss: seq<seq<string>>)
    requires HoldAll(bs[..|bs|], pss)
    ensures HoldAll(CollapseFrom(bs, |bs|), pss) && Flat(pss) == Flat(pss) + Pieces(bs[|bs|..])
  {
    hide Holds;
    assert bs[..|bs|] == bs && bs[|bs|..] == [];
  }

  /** The whole pass loses no text.  Each block of the result holds, in order, the pieces allotted to it, and
      the pieces of the blocks in turn are the pieces of the document that came in, each once and in order. */
  lemma CollapseKeepsText(bs: seq<Block>) returns (pss: seq<seq<string>>)
    ensures HoldAll(Collapsed(bs), pss) && Flat(pss) == Pieces(bs)
  {
    pss := KeepsTextFrom(bs, 0, []);
    assert bs[0..] == bs;
  }
}
