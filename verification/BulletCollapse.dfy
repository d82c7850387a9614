/** The bullet collapse: runs of three or more compact paragraphs become prose; shorter runs stay. */
module BulletCollapse {
  import opened Blocks
  import opened BodyNodes
  import opened BookText
  import opened Lists
  import opened ProseText

  function DropLeading(t: string, c: char): string {
    if t != [] && t[0] == c then DropLeading(t[1..], c) else t
  }

  /** `re.sub(r"^[•\\-–—]\\s*", "", text.strip()).rstrip(".;:")`.  The doubled backslash asks for a real
      backslash after the mark and then for letters s, so an ordinary bullet stays. */
  function CleanItem(text: string): string {
    var t := Strip(text);
    DropMarks(if |t| >= 2 && IsLead(t[0]) && t[1] == '\\' then DropLeading(t[2..], 's') else t)
  }

  lemma {:induction false} DropLeadingIsSuffix(t: string, c: char)
    ensures |DropLeading(t, c)| <= |t| && DropLeading(t, c) == t[|t| - |DropLeading(t, c)|..]
  {
    if t != [] && t[0] == c { DropLeadingIsSuffix(t[1..], c); }
  }

  /** Behind a mark and a backslash, the letters s go with them, up to the first other one. */
  lemma {:induction false} DropLeadingExactly(t: string, c: char, k: nat)
    requires k <= |t| && (forall i :: 0 <= i < k ==> t[i] == c) && (k < |t| ==> t[k] != c)
    ensures DropLeading(t, c) == t[k..]
  {
    if k > 0 {
      assert forall i :: 0 <= i < k - 1 ==> t[1..][i] == t[i + 1];
      DropLeadingExactly(t[1..], c, k - 1);
    }
  }

  lemma BackslashItem(text: string, k: nat)
    requires var t := Strip(text); 2 <= k <= |t| && IsLead(t[0]) && t[1] == '\\'
    requires var t := Strip(text); (forall i :: 2 <= i < k ==> t[i] == 's') && (k < |t| ==> t[k] != 's')
    ensures CleanItem(text) == DropMarks(Strip(text)[k..])
  {
    var t := Strip(text);
    DropLeadingExactly(t[2..], 's', k - 2);
    assert t[2..][k - 2..] == t[k..];
  }

  /** An item whose stripped text starts with a mark keeps its start exactly when no backslash follows. */
  lemma ItemKeepsItsMark(text: string)
    requires Strip(text) != "" && IsLead(Strip(text)[0])
    ensures CleanItem(text) == DropMarks(Strip(text)) <==> |Strip(text)| == 1 || Strip(text)[1] != '\\'
  {
    var t := Strip(text);
    if |t| >= 2 && t[1] == '\\' {
      var u := DropLeading(t[2..], 's');
      DropLeadingIsSuffix(t[2..], 's');
      assert u == t[1..][|t| - 1 - |u|..];
      DropMarksSuffix(t[1..], |t| - 1 - |u|);
      DropMarksSuffix(t, 1);
    }
  }

  /** An ordinary bullet item keeps its bullet. */
  lemma BulletItemStays()
    ensures CleanItem([BULLET, ' ', 'x']) == [BULLET, ' ', 'x']
  {
    var t := [BULLET, ' ', 'x'];
    assert Strip(t) == t;
    ItemKeepsItsMark(t);
  }

  function CleanItems(items: seq<string>): seq<string> {
    if items == [] then []
    else (if CleanItem(items[0]) != "" then [CleanItem(items[0])] else []) + CleanItems(items[1..])
  }

  function ProseFrom(prev: string, items: seq<string>): string {
    FoldInto(prev, JoinItems(CleanItems(items)))
  }

  // ---- The pass --------------------------------------------------------------------------------

  /** The list with the run from `i` to `j` folded. */
  function FoldRun(bs: seq<Block>, i: nat, j: nat): seq<Block>
    requires i < j <= |bs|
  {
    var items := Texts(bs[i..j]);
    var k := PreviousIndex(bs, i);
    if k >= 0 then
      bs[..i][k := bs[k].(text := ProseFrom(Shown(bs[k]), items))] + bs[j..]
    else
      bs[..i] + [bs[i].(text := ListSentence(JoinItems(CleanItems(items))), style := "BodyText")] + bs[j..]
  }

  /** The pass from `i` on.  A fold shortens the list, so stepping back does no harm. */
  function CollapseFrom(bs: seq<Block>, i: nat): seq<Block>
    requires i <= |bs|
    decreases |bs|, |bs| - i
  {
    if i == |bs| then bs
    else if !IsCompact(bs[i]) then CollapseFrom(bs, i + 1)
    else
      var j := RunEnd(bs, i);
      if j - i >= 3 then CollapseFrom(FoldRun(bs, i, j), StepBack(i)) else CollapseFrom(bs, j)
  }

  function Collapsed(bs: seq<Block>): seq<Block> {
    CollapseFrom(bs, 0)
  }

  /** How many runs the pass folds from `i` on. */
  function FoldsFrom(bs: seq<Block>, i: nat): nat
    requires i <= |bs|
    decreases |bs|, |bs| - i
  {
    if i == |bs| then 0
    else if !IsCompact(bs[i]) then FoldsFrom(bs, i + 1)
    else
      var j := RunEnd(bs, i);
      if j - i >= 3 then FoldsFrom(FoldRun(bs, i, j), StepBack(i)) + 1 else FoldsFrom(bs, j)
  }

  lemma FoldsBefore(bs: seq<Block>, i: nat, j: nat, k: nat)
    requires i < j <= |bs| && PreviousIndex(bs, i) == k
    ensures FoldRun(bs, i, j) == bs[..i][k := bs[k].(text := ProseFrom(Shown(bs[k]), Texts(bs[i..j])))] + bs[j..]
  {
    hide PreviousIndex, ProseFrom, Shown, Texts;
  }

  lemma FoldsAlone(bs: seq<Block>, i: nat, j: nat)
    requires i < j <= |bs| && PreviousIndex(bs, i) < 0
    ensures FoldRun(bs, i, j) == bs[..i]
      + [bs[i].(text := ListSentence(JoinItems(CleanItems(Texts(bs[i..j])))), style := "BodyText")] + bs[j..]
  {
    hide CleanItems, JoinItems, ListSentence, PreviousIndex, Texts;
  }

  // ---- The loop --------------------------------------------------------------------------------

  /** Rewrites the text that a run at `i` folds into; `from` is the first node that is then to go. */
  method FoldTexts(list: seq<Node>, i: nat, j: nat, items: seq<string>) returns (from: nat)
    requires i < j <= |list| && AreDistinct(list) && items == Texts(Values(list)[i..j])
    modifies NodesOf(list)
    ensures i <= from <= i + 1
    ensures Cut(Values(list), from, j) == FoldRun(old(Values(list)), i, j)
  {
    hide CleanItems, Cut, FoldInto, FoldRun, JoinItems, ListSentence, PreviousIndex, ProseFrom, Shown, Strip, Texts;
    ghost var bs := Values(list);
    var k := FindPrevious(list, i);
    if k >= 0 {
      var prev := list[k];
      prev.text := ProseFrom(Shown(prev.Value()), items);
      from := i;
      assert Values(list) == bs[k := prev.Value()];
      CutOver(bs, i, j, k, prev.Value());
      FoldsBefore(bs, i, j, k);
    } else {
      var first := list[i];
      first.text := ListSentence(JoinItems(CleanItems(items)));
      first.style := "BodyText";
      from := i + 1;
      assert Values(list) == bs[i := first.Value()];
      CutAt(bs, i, j, first.Value());
      FoldsAlone(bs, i, j);
    }
  }

  lemma CutOver(bs: seq<Block>, i: nat, j: nat, k: nat, x: Block)
    requires k < i <= j <= |bs|
    ensures Cut(bs[k := x], i, j) == bs[..i][k := x] + bs[j..]
  {
    assert bs[k := x][..i] == bs[..i][k := x] && bs[k := x][j..] == bs[j..];
  }

  lemma CutAt(bs: seq<Block>, i: nat, j: nat, x: Block)
    requires i < j <= |bs|
    ensures Cut(bs[i := x], i + 1, j) == bs[..i] + [x] + bs[j..]
  {
    assert bs[i := x][..i + 1] == bs[..i] + [x] && bs[i := x][j..] == bs[j..];
  }

  /** Folds the run from `i` to `j` and removes what is left of it. */
  method FoldTurn(body: Body, list: seq<Node>, i: nat, j: nat, items: seq<string>, ghost start: seq<Node>,
                  ghost gone: set<Node>)
    returns (rest: seq<Node>, removed: nat, ghost more: set<Node>)
    requires i < j <= |list| && IsLeft(start, list, gone) && body.children == list
    requires items == Texts(Values(list)[i..j])
    modifies body, NodesOf(list)
    ensures body.children == rest && removed + |rest| == |list| && IsLeft(start, rest, more)
    ensures Values(rest) == FoldRun(old(Values(list)), i, j)
  {
    hide FoldRun, Texts, Keep, Strip;
    var from := FoldTexts(list, i, j, items);
    ValuesCut(list, from, j);
    CutIsLeft(start, list, gone, from, j);
    more := gone + Stretch(list, from, j);
    ghost var folded := Values(Cut(list, from, j));
    rest := body.RemoveRun(list, from, j);
    assert Values(rest) == folded;
    removed := j - from;
  }

  /** What is left of the pass gives the result of the whole. */
  predicate Agrees(before: seq<Block>, bs: seq<Block>, i: nat, folds: nat)
    requires i <= |bs|
  {
    CollapseFrom(bs, i) == Collapsed(before) && folds + FoldsFrom(bs, i) == FoldsFrom(before, 0)
  }

  lemma PlainAgrees(before: seq<Block>, bs: seq<Block>, i: nat, folds: nat)
    requires i < |bs| && !IsCompact(bs[i]) && Agrees(before, bs, i, folds)
    ensures Agrees(before, bs, i + 1, folds)
  {
  }

  lemma RunAgrees(before: seq<Block>, bs: seq<Block>, i: nat, folds: nat)
    requires i < |bs| && IsCompact(bs[i]) && Agrees(before, bs, i, folds)
    ensures var j := RunEnd(bs, i);
      if j < i + 3 then Agrees(before, bs, j, folds)
      else StepBack(i) <= |FoldRun(bs, i, j)| < |bs| && Agrees(before, FoldRun(bs, i, j), StepBack(i), folds + 1)
  {
  }

  /** The loop of the script.  It computes `Collapsed` and counts its folds; the nodes that stay keep
      their order, and `gone` names the others. */
  method Collapse(body: Body) returns (collapsedRuns: nat, removed: nat, ghost gone: set<Node>)
    requires AreDistinct(body.children)
    modifies body, NodesOf(body.children)
    ensures Values(body.children) == Collapsed(old(Values(body.children)))
    ensures collapsedRuns == FoldsFrom(old(Values(body.children)), 0)
    ensures body.children == Keep(old(body.children), gone) && removed + |body.children| == |old(body.children)|
  {
    hide CollapseFrom, FoldRun, FoldsFrom, IsCompact, Keep, RunEnd, Texts;
    var children := body.children;
    collapsedRuns, removed, gone := 0, 0, {};
    KeepAll(children, {});
    ghost var start, before := children, Values(children);
    var i := 0;
    while i < |children|
      invariant 0 <= i <= |children| && body.children == children && IsLeft(start, children, gone)
      invariant Agrees(before, Values(children), i, collapsedRuns)
      invariant removed + |children| == |start|
      decreases |children|, |children| - i
    {
      if !IsCompact(children[i].Value()) {
        PlainAgrees(before, Values(children), i, collapsedRuns);
        i := i + 1;
        continue;
      }
      RunAgrees(before, Values(children), i, collapsedRuns);
      var j, items := ScanRun(children, i);
      if j - i >= 3 {
        var k;
        children, k, gone := FoldTurn(body, children, i, j, items, start, gone);
        removed := removed + k;
        collapsedRuns := collapsedRuns + 1;
        i := if i - 1 > 0 then i - 1 else 0;
      } else {
        i := j;
      }
    }
    AtEnd(Values(children));
  }

  lemma AtEnd(bs: seq<Block>)
    ensures CollapseFrom(bs, |bs|) == bs && FoldsFrom(bs, |bs|) == 0
  {
  }

  // ---- When a fold makes a paragraph compact ---------------------------------------------------

  lemma StripKeeps(t: string)
    requires t != "" && !IsSpace(t[0]) && !IsSpace(t[|t| - 1])
    ensures Strip(t) == t
  {
  }

  lemma StripEnds(t: string)
    ensures Strip(t) != "" ==> !IsSpace(Strip(t)[0]) && !IsSpace(Strip(t)[|Strip(t)| - 1])
    ensures Strip(Strip(t)) == Strip(t)
  {
    var s := SkipSpaces(t);
    if Strip(t) != "" {
      assert Strip(t)[0] == s[0];
      StripKeeps(Strip(t));
    }
  }

  /** The three texts that folding may turn into a bullet paragraph. */
  predicate IsFragile(t: string) {
    t == [BULLET] || t == [BULLET, ':'] || t == ":"
  }

  predicate IsMarked(t: string) {
    |t| >= 2 && t[0] == BULLET && t[1] == ' '
  }

  lemma MarkedIsStart(t: string)
    ensures StartsWith(t, MARK) <==> IsMarked(t)
  {
    assert |t| >= 2 ==> t[..2] == [t[0], t[1]];
  }

  lemma EndsWithChar(t: string, c: char)
    ensures EndsWith(t, [c]) <==> t != "" && t[|t| - 1] == c
  {
    assert t != "" ==> t[|t| - 1..] == [t[|t| - 1]];
  }

  /** A folded text of at least one visible character starts as before, up to two units. */
  lemma FoldShape(p: string, joined: string)
    requires p != "" && p != ":" && joined != ""
    ensures var t := FoldInto(p, joined);
      && |t| >= 2 && t[0] == p[0] && t[|t| - 1] == '.'
      && t[1] == if |p| == 1 || (|p| == 2 && p[1] == ':') then ' ' else p[1]
  {
    EndsWithChar(p, ':');
    EndsWithChar(p, '.');
    assert |p| == 1 && p[0] == ':' ==> p == ":";
  }

  /** A fold makes a plain text start like a bullet exactly when the text is a lone bullet, with or
      without a colon, or a lone colon before an item that starts like a bullet. */
  lemma FoldStartsBullet(p: string, joined: string)
    requires p != "" && Strip(p) == p && !StartsWith(p, MARK) && joined != ""
    ensures StartsWith(Strip(FoldInto(p, joined)), MARK) <==>
      p == [BULLET] || p == [BULLET, ':'] || (p == ":" && StartsWith(Strip(joined + "."), MARK))
  {
    if p == ":" {
      FoldColon(joined);
    } else {
      FoldPlain(p, joined);
    }
  }

  lemma FoldColon(joined: string)
    requires joined != ""
    ensures Strip(FoldInto(":", joined)) == Strip(joined + ".")
  {
    var t := FoldInto(":", joined);
    EndsWithChar(":", ':');
    assert t == " " + (joined + ".");
    assert t[1..] == joined + "." && SkipSpaces(t) == SkipSpaces(joined + ".");
  }

  lemma FoldPlain(p: string, joined: string)
    requires p != "" && p != ":" && Strip(p) == p && !StartsWith(p, MARK) && joined != ""
    ensures StartsWith(Strip(FoldInto(p, joined)), MARK) <==> p == [BULLET] || p == [BULLET, ':']
  {
    var t := FoldInto(p, joined);
    FoldShape(p, joined);
    StripEnds(p);
    StripKeeps(t);
    MarkedIsStart(t);
    MarkedIsStart(p);
    assert |p| == 2 ==> p == [p[0], p[1]];
    assert |p| == 1 ==> p == [p[0]];
  }

  /** A text that a fold has rewritten is not fragile any more. */
  lemma FoldIsNotFragile(p: string, joined: string)
    requires joined != ""
    ensures !IsFragile(Strip(FoldInto(p, joined)))
  {
    var t := FoldInto(p, joined);
    assert t[|t| - 1] == '.';
    var s := SkipSpaces(t);
    SkipKeepsEnd(t);
    assert Strip(t) == s && s[|s| - 1] == '.';
  }

  lemma {:induction false} SkipKeepsEnd(t: string)
    requires t != "" && !IsSpace(t[|t| - 1])
    ensures SkipSpaces(t) != "" && SkipSpaces(t)[|SkipSpaces(t)| - 1] == t[|t| - 1]
  {
    if IsSpace(t[0]) {
      SkipKeepsEnd(t[1..]);
    }
  }
}
