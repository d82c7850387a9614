/** Which runs of three or more compact paragraphs the bullet collapse leaves. */
module BulletRuns {
  import opened Blocks
  import opened BookText
  import opened BulletCollapse
  import opened ProseText

  function Flags(bs: seq<Block>): (c: seq<bool>)
    ensures |c| == |bs| && forall i :: 0 <= i < |bs| ==> c[i] == IsCompact(bs[i])
  {
    seq(|bs|, i requires 0 <= i < |bs| => IsCompact(bs[i]))
  }

  predicate LongAt(c: seq<bool>, a: nat) {
    a + 3 <= |c| && c[a] && c[a + 1] && c[a + 2]
  }

  /** Three neighbouring compact paragraphs starting at `a`. */
  predicate LongRunAt(bs: seq<Block>, a: nat) {
    LongAt(Flags(bs), a)
  }

  ghost predicate NoThree(c: seq<bool>) {
    forall a: nat :: !LongAt(c, a)
  }

  ghost predicate NoLongRun(bs: seq<Block>) {
    NoThree(Flags(bs))
  }

  predicate IsSound(b: Block) {
    b.isParagraph && !IsCompact(b) ==> !IsFragile(Shown(b))
  }

  /** No paragraph that is not compact shows one of the three fragile texts. */
  ghost predicate NoFragile(bs: seq<Block>) {
    forall k: nat | k < |bs| :: IsSound(bs[k])
  }

  // ---- The result, read off the input ----------------------------------------------------------

  /** How many blocks at the start of `s` are compact. */
  function RunLength(s: seq<Block>): (n: nat)
    ensures n <= |s|
  {
    if s == [] || !IsCompact(s[0]) then 0 else 1 + RunLength(s[1..])
  }

  predicate HasText(b: Block) {
    b.isParagraph && Shown(b) != ""
  }

  function Joined(run: seq<Block>): string {
    JoinItems(CleanItems(Texts(run)))
  }

  /** Folding these items into the block makes it compact. */
  predicate Turns(b: Block, joined: string) {
    var p := Shown(b);
    && b.isParagraph && joined != ""
    && (p == [BULLET] || p == [BULLET, ':'] || (p == ":" && StartsWith(Strip(joined + "."), MARK)))
  }

  /** The items first folded into the nearest text before `s`, or "" if a text of `s` itself comes first. */
  function FoldedInto(s: seq<Block>): string {
    var j := RunLength(s);
    if s == [] then ""
    else if j >= 3 then
      if Joined(s[..j]) != "" then Joined(s[..j]) else FoldedInto(s[j..])
    else if HasText(s[0]) then ""
    else FoldedInto(s[1..])
  }

  /** A block that stays ends up compact: it was, or the items folded into it make it so. */
  predicate EndsCompact(b: Block, rest: seq<Block>) {
    IsCompact(b) || Turns(b, FoldedInto(rest))
  }

  /** One scan of the input, without rewriting: for each block that stays, whether it ends up compact.
      A run of three or more goes, except for its first block when no text is before it. */
  function FinalFlags(s: seq<Block>, headed: bool): seq<bool> {
    var j := RunLength(s);
    if s == [] then []
    else if j >= 3 then (if headed then [] else [false]) + FinalFlags(s[j..], true)
    else [EndsCompact(s[0], s[1..])] + FinalFlags(s[1..], headed || HasText(s[0]))
  }

  // ---- One fold --------------------------------------------------------------------------------

  lemma MarkedStaysMarked(p: string, joined: string)
    requires StartsWith(p, MARK) && joined != ""
    ensures StartsWith(Strip(FoldInto(p, joined)), MARK)
  {
    var t := FoldInto(p, joined);
    MarkedIsStart(p);
    FoldShape(p, joined);
    StripKeeps(t);
    MarkedIsStart(t);
  }

  /** What a fold makes of the block it goes into. */
  predicate FoldedFrom(b: Block, f: Block, joined: string) {
    && f.isParagraph == b.isParagraph && f.style == b.style && HasText(f)
    && (joined == "" ==> Shown(f) == Shown(b))
    && (joined != "" ==> !IsFragile(Shown(f)) && (IsCompact(f) <==> IsCompact(b) || Turns(b, joined)))
  }

  lemma FoldBlock(b: Block, items: seq<string>)
    requires HasText(b)
    ensures FoldedFrom(b, b.(text := ProseFrom(Shown(b), items)), JoinItems(CleanItems(items)))
  {
    hide CleanItems, FoldInto, IsFragile, JoinItems, StartsWith, Strip;
    var p, joined := Shown(b), JoinItems(CleanItems(items));
    StripEnds(b.text);
    if joined == "" {
      FoldNothing(p);
    } else {
      FoldIsNotFragile(p, joined);
      FoldShowsText(p, joined);
      if StartsWith(p, MARK) {
        MarkedStaysMarked(p, joined);
      } else {
        FoldStartsBullet(p, joined);
      }
    }
  }

  lemma FoldNothing(p: string)
    ensures FoldInto(p, "") == p
  {
  }

  lemma FoldShowsText(p: string, joined: string)
    requires joined != ""
    ensures Strip(FoldInto(p, joined)) != ""
  {
    var t := FoldInto(p, joined);
    assert t[|t| - 1] == '.';
    SkipKeepsEnd(t);
  }

  lemma UnfragileStays(b: Block, joined: string)
    requires !IsFragile(Shown(b))
    ensures !Turns(b, joined)
  {
  }

  lemma SentenceBlock(b: Block, items: seq<string>)
    ensures var f := b.(text := ListSentence(JoinItems(CleanItems(items))), style := "BodyText");
      HasText(f) == f.isParagraph && !IsFragile(Shown(f)) && !IsCompact(f)
  {
    var t := ListSentence(JoinItems(CleanItems(items)));
    assert t[0] == 'T' && t[|t| - 1] == '.';
    StripKeeps(t);
    assert "BodyText"[..7][0] == 'B' && "Compact"[0] == 'C';
    assert t[..2][0] == 'T';
  }

  // ---- The pass and the scan -------------------------------------------------------------------

  lemma {:induction false} RunLengthIs(bs: seq<Block>, i: nat)
    requires i <= |bs|
    ensures RunLength(bs[i..]) == RunEnd(bs, i) - i
    decreases |bs| - i
  {
    if i < |bs| && IsCompact(bs[i]) {
      RunLengthIs(bs, i + 1);
      assert bs[i..][1..] == bs[i + 1..];
    }
  }

  lemma PreviousIs(bs: seq<Block>, i: nat, k: nat)
    requires k < i <= |bs| && HasText(bs[k]) && forall m :: k < m < i ==> !HasText(bs[m])
    ensures PreviousIndex(bs, i) == k
    decreases i
  {
    if k < i - 1 { PreviousIs(bs, i - 1, k); }
  }

  /** Whether a block before `i` is compact at the end. */
  predicate FrontFlag(bs: seq<Block>, i: nat, m: nat)
    requires m < i <= |bs|
  {
    IsCompact(bs[m]) || (m == PreviousIndex(bs, i) && Turns(bs[m], FoldedInto(bs[i..])))
  }

  function Front(bs: seq<Block>, i: nat): (c: seq<bool>)
    requires i <= |bs|
    ensures |c| == i && forall m :: 0 <= m < i ==> c[m] == FrontFlag(bs, i, m)
  {
    seq(i, m requires 0 <= m < i => FrontFlag(bs, i, m))
  }

  /** The flags of the result, with the pass at `i`. */
  function FlagsFrom(bs: seq<Block>, i: nat): seq<bool>
    requires i <= |bs|
  {
    Front(bs, i) + FinalFlags(bs[i..], PreviousIndex(bs, i) >= 0)
  }

  /** The pass never stands inside a long run. */
  predicate AtStart(bs: seq<Block>, i: nat)
    requires i <= |bs|
  {
    i == 0 || RunEnd(bs, i) < i + 3 || !IsCompact(bs[i - 1])
  }

  lemma ShortScan(bs: seq<Block>, i: nat)
    requires i < |bs| && RunEnd(bs, i) < i + 3
    ensures FoldedInto(bs[i..]) == if HasText(bs[i]) then "" else FoldedInto(bs[i + 1..])
    ensures forall h :: FinalFlags(bs[i..], h)
                     == [EndsCompact(bs[i], bs[i + 1..])] + FinalFlags(bs[i + 1..], h || HasText(bs[i]))
  {
    RunLengthIs(bs, i);
    assert bs[i..][0] == bs[i] && bs[i..][1..] == bs[i + 1..];
  }

  /** The flag of a block before `i` stays when the pass walks over `bs[i]`, a block outside the long runs. */
  lemma FlagStays(bs: seq<Block>, i: nat, m: nat)
    requires m < i < |bs| && FoldedInto(bs[i..]) == if HasText(bs[i]) then "" else FoldedInto(bs[i + 1..])
    ensures FrontFlag(bs, i + 1, m) == FrontFlag(bs, i, m)
  {
  }

  lemma FlagJoins(bs: seq<Block>, i: nat)
    requires i < |bs|
    ensures FrontFlag(bs, i + 1, i) == EndsCompact(bs[i], bs[i + 1..])
    ensures PreviousIndex(bs, i + 1) >= 0 <==> PreviousIndex(bs, i) >= 0 || HasText(bs[i])
  {
  }

  lemma FrontGrows(bs: seq<Block>, i: nat)
    requires i < |bs| && RunEnd(bs, i) < i + 3
    ensures Front(bs, i + 1) == Front(bs, i) + [EndsCompact(bs[i], bs[i + 1..])]
  {
    ShortScan(bs, i);
    FlagJoins(bs, i);
    forall m | 0 <= m < i
      ensures Front(bs, i + 1)[m] == Front(bs, i)[m]
    {
      FlagStays(bs, i, m);
    }
  }

  lemma ShortStep(bs: seq<Block>, i: nat)
    requires i < |bs| && RunEnd(bs, i) < i + 3
    ensures FlagsFrom(bs, i) == FlagsFrom(bs, i + 1)
  {
    var h := PreviousIndex(bs, i) >= 0;
    ShortScan(bs, i);
    FlagJoins(bs, i);
    FrontGrows(bs, i);
    Regroup(Front(bs, i), [EndsCompact(bs[i], bs[i + 1..])], FinalFlags(bs[i + 1..], h || HasText(bs[i])));
  }

  lemma ShortTurn(bs: seq<Block>, i: nat)
    requires i < |bs| && RunEnd(bs, i) < i + 3
    ensures CollapseFrom(bs, i) == CollapseFrom(bs, i + 1) && AtStart(bs, i + 1)
  {
    if IsCompact(bs[i]) { assert RunEnd(bs, i) == RunEnd(bs, i + 1); }
  }

  lemma LongScan(bs: seq<Block>, i: nat, j: nat)
    requires i < |bs| && RunEnd(bs, i) == j >= i + 3
    ensures FoldedInto(bs[i..]) == if Joined(bs[i..j]) != "" then Joined(bs[i..j]) else FoldedInto(bs[j..])
  {
    hide FoldedInto, Joined, RunEnd, RunLength;
    RunLengthIs(bs, i);
    SliceOfTail(bs, i, j);
    LongFold(bs[i..], j - i, bs[i..j], bs[j..]);
  }

  lemma LongFold(s: seq<Block>, j: nat, run: seq<Block>, rest: seq<Block>)
    requires s != [] && RunLength(s) == j >= 3 && s[..j] == run && s[j..] == rest
    ensures FoldedInto(s) == if Joined(run) != "" then Joined(run) else FoldedInto(rest)
  {
  }

  lemma SliceOfTail<T>(s: seq<T>, i: nat, j: nat)
    requires i <= j <= |s|
    ensures s[i..][..j - i] == s[i..j] && s[i..][j - i..] == s[j..]
  {
  }

  lemma LongFlags(bs: seq<Block>, i: nat, j: nat, headed: bool)
    requires i < |bs| && RunEnd(bs, i) == j >= i + 3
    ensures FinalFlags(bs[i..], headed)
         == if headed then FinalFlags(bs[j..], true) else [false] + FinalFlags(bs[j..], true)
  {
    hide FinalFlags, RunEnd, RunLength;
    RunLengthIs(bs, i);
    SliceOfTail(bs, i, j);
    LongHead(bs[i..], j - i, headed);
  }

  /** A long run folded into a text before it: the block it goes into, and the blocks before it. */
  lemma FoldBefore(bs: seq<Block>, i: nat, k: nat, n: seq<Block>)
    requires i < |bs| && RunEnd(bs, i) >= i + 3 && PreviousIndex(bs, i) == k
    requires n == FoldRun(bs, i, RunEnd(bs, i))
    ensures i <= |n| && n[i..] == bs[RunEnd(bs, i)..] && PreviousIndex(n, i) == k
    ensures forall m :: 0 <= m < i && m != k ==> n[m] == bs[m]
    ensures FoldedFrom(bs[k], n[k], Joined(bs[i..RunEnd(bs, i)]))
  {
    var j := RunEnd(bs, i);
    var items := Texts(bs[i..j]);
    FoldBlock(bs[k], items);
    SpliceBefore(bs, i, j, k, bs[k].(text := ProseFrom(Shown(bs[k]), items)));
    PreviousIsNearest(bs, i);
    PreviousIs(n, i, k);
  }

  lemma BeforeFront(bs: seq<Block>, i: nat, j: nat, k: nat, n: seq<Block>)
    requires i < |bs| && RunEnd(bs, i) == j >= i + 3 && PreviousIndex(bs, i) == k && n == FoldRun(bs, i, j)
    ensures i <= |n| && Front(n, i) == Front(bs, i)
  {
    FoldBefore(bs, i, k, n);
    LongScan(bs, i, j);
    forall m | 0 <= m < i
      ensures Front(n, i)[m] == Front(bs, i)[m]
    {
      BeforeFlag(bs, i, j, k, n, m);
    }
  }

  lemma BeforeFlags(bs: seq<Block>, i: nat, j: nat, k: nat, n: seq<Block>)
    requires i < |bs| && RunEnd(bs, i) == j >= i + 3 && PreviousIndex(bs, i) == k && n == FoldRun(bs, i, j)
    ensures i <= |n| && FlagsFrom(n, i) == FlagsFrom(bs, i)
  {
    FoldBefore(bs, i, k, n);
    BeforeFront(bs, i, j, k, n);
    LongFlags(bs, i, j, true);
  }

  lemma BeforeFlag(bs: seq<Block>, i: nat, j: nat, k: nat, n: seq<Block>, m: nat)
    requires m < i <= j <= |bs| && i <= |n| && n[i..] == bs[j..]
    requires PreviousIndex(bs, i) == k == PreviousIndex(n, i) && (m != k ==> n[m] == bs[m])
    requires FoldedFrom(bs[k], n[k], Joined(bs[i..j]))
    requires FoldedInto(bs[i..]) == if Joined(bs[i..j]) != "" then Joined(bs[i..j]) else FoldedInto(bs[j..])
    ensures FrontFlag(n, i, m) == FrontFlag(bs, i, m)
  {
    if m == k { FoldedFlag(bs[k], n[k], Joined(bs[i..j]), FoldedInto(bs[j..])); }
  }

  lemma FoldedFlag(b: Block, f: Block, joined: string, later: string)
    requires FoldedFrom(b, f, joined)
    ensures IsCompact(f) || Turns(f, later) <==> IsCompact(b) || Turns(b, if joined != "" then joined else later)
  {
  }

  lemma SpliceBefore(bs: seq<Block>, i: nat, j: nat, k: nat, x: Block)
    requires k < i <= j <= |bs|
    ensures var n := bs[..i][k := x] + bs[j..];
      n[i..] == bs[j..] && n[k] == x && forall m :: 0 <= m < i && m != k ==> n[m] == bs[m]
  {
  }

  lemma SpliceHead(bs: seq<Block>, i: nat, j: nat, x: Block)
    requires i < j <= |bs|
    ensures var n := bs[..i] + [x] + bs[j..];
      n[i + 1..] == bs[j..] && n[i] == x && forall m :: 0 <= m < i ==> n[m] == bs[m]
  {
  }

  /** A long run with no text before it: its first block becomes a sentence. */
  lemma FoldAlone(bs: seq<Block>, i: nat, n: seq<Block>)
    requires i < |bs| && RunEnd(bs, i) >= i + 3 && PreviousIndex(bs, i) < 0
    requires n == FoldRun(bs, i, RunEnd(bs, i))
    ensures i < |n| && n[i + 1..] == bs[RunEnd(bs, i)..] && HasText(n[i]) && !IsFragile(Shown(n[i])) && !IsCompact(n[i])
    ensures forall m :: 0 <= m < i ==> n[m] == bs[m]
  {
    var j := RunEnd(bs, i);
    var items := Texts(bs[i..j]);
    SentenceBlock(bs[i], items);
    SpliceHead(bs, i, j, bs[i].(text := ListSentence(JoinItems(CleanItems(items))), style := "BodyText"));
  }

  lemma AloneFlags(bs: seq<Block>, i: nat, j: nat, n: seq<Block>)
    requires i < |bs| && RunEnd(bs, i) == j >= i + 3 && PreviousIndex(bs, i) < 0 && n == FoldRun(bs, i, j)
    ensures i < |n| && FlagsFrom(n, i + 1) == FlagsFrom(bs, i)
  {
    hide FinalFlags, FoldRun, FrontFlag, HasText, IsCompact, IsFragile, PreviousIndex, RunEnd;
    FoldAlone(bs, i, n);
    LongFlags(bs, i, j, false);
    forall m | 0 <= m <= i
      ensures Front(n, i + 1)[m] == (Front(bs, i) + [false])[m]
    {
      AloneFlag(bs, i, n, m);
    }
    assert Front(n, i + 1) == Front(bs, i) + [false];
    PreviousIs(n, i + 1, i);
    Regroup(Front(bs, i), [false], FinalFlags(n[i + 1..], true));
  }

  lemma AloneFlag(bs: seq<Block>, i: nat, n: seq<Block>, m: nat)
    requires m <= i < |bs| && i < |n| && PreviousIndex(bs, i) < 0 && (m < i ==> n[m] == bs[m])
    requires HasText(n[i]) && !IsFragile(Shown(n[i])) && !IsCompact(n[i])
    ensures FrontFlag(n, i + 1, m) == (m < i && FrontFlag(bs, i, m))
  {
    PreviousIs(n, i + 1, i);
    UnfragileStays(n[i], FoldedInto(n[i + 1..]));
  }

  /** Stepping back after a fold finds nothing to do. */
  lemma StepBackIdles(n: seq<Block>, i: nat, from: nat)
    requires i <= from <= i + 1 && from <= |n| && (from < |n| ==> !IsCompact(n[from]))
    requires from == i + 1 ==> !IsCompact(n[i]) && (i > 0 ==> !IsCompact(n[i - 1]))
    ensures CollapseFrom(n, StepBack(i)) == CollapseFrom(n, from) && AtStart(n, from)
  {
    if from == i && i > 0 && IsCompact(n[i - 1]) { RunEndIs(n, i - 1, i); }
  }

  lemma StartOfTail(n: seq<Block>, from: nat, bs: seq<Block>, j: nat)
    requires from <= |n| && j <= |bs| && n[from..] == bs[j..]
    ensures |n| - from == |bs| - j && (from < |n| ==> n[from] == bs[j])
  {
    assert from < |n| ==> n[from..][0] == n[from] && bs[j..][0] == bs[j];
  }

  lemma TurnBefore(bs: seq<Block>, i: nat, j: nat, k: nat, n: seq<Block>)
    requires i < |bs| && RunEnd(bs, i) == j >= i + 3 && PreviousIndex(bs, i) == k && n == FoldRun(bs, i, j)
    ensures i <= |n| && AtStart(n, i) && CollapseFrom(n, StepBack(i)) == CollapseFrom(n, i)
  {
    FoldBefore(bs, i, k, n);
    StartOfTail(n, i, bs, j);
    StepBackIdles(n, i, i);
  }

  lemma TurnAlone(bs: seq<Block>, i: nat, j: nat, n: seq<Block>)
    requires i < |bs| && RunEnd(bs, i) == j >= i + 3 && PreviousIndex(bs, i) < 0 && n == FoldRun(bs, i, j)
    requires AtStart(bs, i)
    ensures i < |n| && AtStart(n, i + 1) && CollapseFrom(n, StepBack(i)) == CollapseFrom(n, i + 1)
  {
    FoldAlone(bs, i, n);
    StartOfTail(n, i + 1, bs, j);
    StepBackIdles(n, i, i + 1);
  }

  lemma LongTurn(bs: seq<Block>, i: nat, j: nat, n: seq<Block>)
    requires i < |bs| && RunEnd(bs, i) == j >= i + 3 && AtStart(bs, i) && n == FoldRun(bs, i, j)
    ensures FoldFrom(bs, i) <= |n| && AtStart(n, FoldFrom(bs, i))
    ensures CollapseFrom(n, StepBack(i)) == CollapseFrom(n, FoldFrom(bs, i))
    ensures FlagsFrom(n, FoldFrom(bs, i)) == FlagsFrom(bs, i)
  {
    hide CollapseFrom, FlagsFrom, FoldRun, AtStart, RunEnd;
    var k := PreviousIndex(bs, i);
    if k >= 0 {
      BeforeFlags(bs, i, j, k, n);
      TurnBefore(bs, i, j, k, n);
    } else {
      AloneFlags(bs, i, j, n);
      TurnAlone(bs, i, j, n);
    }
  }

  lemma FlagsAtEnd(bs: seq<Block>)
    ensures Flags(CollapseFrom(bs, |bs|)) == FlagsFrom(bs, |bs|)
  {
    assert bs[|bs|..] == [];
    assert Front(bs, |bs|) == Flags(bs);
    assert Flags(bs) + [] == Flags(bs);
  }

  lemma FoldShortens(bs: seq<Block>, i: nat, j: nat)
    requires i < |bs| && RunEnd(bs, i) == j >= i + 3
    ensures |FoldRun(bs, i, j)| < |bs|
    ensures CollapseFrom(bs, i) == CollapseFrom(FoldRun(bs, i, j), StepBack(i))
  {
  }

  /** From any place of the loop: the scan foretells which blocks of the result are compact. */
  lemma {:induction false} FlagsForetold(bs: seq<Block>, i: nat)
    requires i <= |bs| && AtStart(bs, i)
    ensures Flags(CollapseFrom(bs, i)) == FlagsFrom(bs, i)
    decreases |bs|, |bs| - i
  {
    hide CollapseFrom, FlagsFrom, FoldRun, AtStart, RunEnd;
    if i == |bs| {
      FlagsAtEnd(bs);
    } else if RunEnd(bs, i) < i + 3 {
      ShortTurn(bs, i);
      ShortStep(bs, i);
      FlagsForetold(bs, i + 1);
    } else {
      var j := RunEnd(bs, i);
      FoldShortens(bs, i, j);
      LongTurn(bs, i, j, FoldRun(bs, i, j));
      FlagsForetold(FoldRun(bs, i, j), FoldFrom(bs, i));
    }
  }

  lemma CollapsedFlags(bs: seq<Block>)
    ensures Flags(Collapsed(bs)) == FinalFlags(bs, false)
  {
    FlagsForetold(bs, 0);
    assert bs[0..] == bs;
  }

  /** The exact condition, for every document: no run of three is left if and only if no three
      neighbours among the blocks that stay are compact or turned by a fold. */
  lemma NoLongRunExactly(bs: seq<Block>)
    ensures NoLongRun(Collapsed(bs)) <==> NoThree(FinalFlags(bs, false))
  {
    CollapsedFlags(bs);
    SameFlags(Collapsed(bs), FinalFlags(bs, false));
  }

  lemma SameFlags(bs: seq<Block>, c: seq<bool>)
    requires Flags(bs) == c
    ensures NoLongRun(bs) <==> NoThree(c)
  {
  }

  // ---- Documents without fragile texts ---------------------------------------------------------

  function LeadingTrues(c: seq<bool>): nat {
    if c != [] && c[0] then 1 + LeadingTrues(c[1..]) else 0
  }

  /** No three in a row, and the first row is the run at the start of the input, if that run stays. */
  ghost predicate Settles(c: seq<bool>, run: nat) {
    NoThree(c) && LeadingTrues(c) <= if run < 3 then run else 0
  }

  lemma LeadingTwo(c: seq<bool>)
    requires |c| >= 2 && c[0] && c[1]
    ensures LeadingTrues(c) >= 2
  {
    assert c[1..][0] == c[1];
  }

  lemma SettlesCons(f: bool, c: seq<bool>, run: nat)
    requires Settles(c, run) && (f ==> run < 2)
    ensures Settles([f] + c, if f then run + 1 else 0)
  {
    var d := [f] + c;
    assert d[1..] == c;
    forall a: nat
      ensures !LongAt(d, a)
    {
      if a > 0 {
        assert !LongAt(c, a - 1);
      } else if |c| >= 2 && c[0] && c[1] {
        LeadingTwo(c);
      }
    }
  }

  lemma SoundShort(b: Block, rest: seq<Block>, c: seq<bool>)
    requires IsSound(b) && RunLength([b] + rest) < 3 && Settles(c, RunLength(rest))
    ensures Settles([EndsCompact(b, rest)] + c, RunLength([b] + rest))
  {
    assert ([b] + rest)[1..] == rest;
    UnlessFragile(b, FoldedInto(rest));
    SettlesCons(IsCompact(b), c, RunLength(rest));
  }

  lemma UnlessFragile(b: Block, joined: string)
    requires IsSound(b)
    ensures IsCompact(b) || Turns(b, joined) <==> IsCompact(b)
  {
  }

  lemma ShortHead(b: Block, rest: seq<Block>, headed: bool, j: nat)
    requires RunLength([b] + rest) == j < 3
    ensures FinalFlags([b] + rest, headed) == [EndsCompact(b, rest)] + FinalFlags(rest, headed || HasText(b))
  {
    assert ([b] + rest)[1..] == rest;
  }

  lemma {:induction false} SoundSettles(s: seq<Block>, headed: bool)
    requires NoFragile(s)
    ensures Settles(FinalFlags(s, headed), RunLength(s))
  {
    var j := RunLength(s);
    if s == [] {
    } else if j >= 3 {
      SoundTail(s, j);
      RunStops(s);
      SoundSettles(s[j..], true);
      SettlesCons(false, FinalFlags(s[j..], true), 0);
      LongHead(s, j, headed);
    } else {
      SoundTail(s, 1);
      SoundSettles(s[1..], headed || HasText(s[0]));
      assert s == [s[0]] + s[1..];
      SoundShort(s[0], s[1..], FinalFlags(s[1..], headed || HasText(s[0])));
      ShortHead(s[0], s[1..], headed, j);
    }
  }

  lemma {:induction false} RunStops(s: seq<Block>)
    ensures RunLength(s[RunLength(s)..]) == 0
  {
    if s != [] && IsCompact(s[0]) {
      RunStops(s[1..]);
      assert s[1..][RunLength(s[1..])..] == s[RunLength(s)..];
    }
  }

  lemma SoundTail(s: seq<Block>, j: nat)
    requires NoFragile(s) && 0 < j <= |s|
    ensures IsSound(s[0]) && NoFragile(s[j..])
  {
    forall k: nat | k < |s[j..]|
      ensures IsSound(s[j..][k])
    {
      assert s[j..][k] == s[j + k] && IsSound(s[j + k]);
    }
  }

  lemma LongHead(s: seq<Block>, j: nat, headed: bool)
    requires s != [] && RunLength(s) == j >= 3
    ensures FinalFlags(s, headed) == if headed then FinalFlags(s[j..], true) else [false] + FinalFlags(s[j..], true)
  {
    assert [] + FinalFlags(s[j..], true) == FinalFlags(s[j..], true);
  }

  /** When no fragile text is there to begin with, no run of three or more is left. */
  lemma NoLongRunLeft(bs: seq<Block>)
    requires NoFragile(bs)
    ensures NoLongRun(Collapsed(bs))
  {
    SoundSettles(bs, false);
    NoLongRunExactly(bs);
  }

  // ---- Each fragile text fails -----------------------------------------------------------------

  function Bulleted(): Block {
    Block(true, "Compact", [BULLET, ' ', 'x'])
  }

  /** Two compact paragraphs, a plain one, and three compact ones to be folded into it. */
  function Sample(p: string): seq<Block> {
    [Bulleted(), Bulleted(), Block(true, "Normal", p), Bulleted(), Bulleted(), Bulleted()]
  }

  lemma SampleBlocks(p: string)
    ensures IsCompact(Bulleted())
    ensures IsFragile(Strip(p)) ==> !IsCompact(Block(true, "Normal", p))
  {
    assert "Compact"[..7] == "Compact";
    assert |"Normal"| < 7;
    MarkedIsStart(Strip(p));
  }

  lemma RunLengthCons(b: Block, rest: seq<Block>)
    ensures RunLength([b] + rest) == if IsCompact(b) then 1 + RunLength(rest) else 0
  {
    assert ([b] + rest)[1..] == rest;
  }

  lemma FlagsOfSample(b: Block, x: Block, run: seq<Block>)
    requires IsCompact(b) && !IsCompact(x) && HasText(x) && Turns(x, FoldedInto(run)) && FinalFlags(run, true) == []
    ensures FinalFlags([b] + ([b] + ([x] + run)), false) == [true, true, true]
  {
    hide FinalFlags, FoldedInto, IsCompact, RunLength;
    RunLengthCons(x, run);
    RunLengthCons(b, [x] + run);
    RunLengthCons(b, [b] + ([x] + run));
    ShortHead(x, run, true, 0);
    ShortHead(b, [x] + run, true, 1);
    ShortHead(b, [x] + run, false, 1);
    ShortHead(b, [b] + ([x] + run), false, 2);
    ShortHead(x, run, false, 0);
  }

  lemma SixBlocks<T>(b: T, x: T)
    ensures [b, b, x, b, b, b] == [b] + ([b] + ([x] + [b, b, b]))
  {
  }

  lemma SampleFlags(p: string)
    requires IsFragile(Strip(p))
    ensures FinalFlags(Sample(p), false) == [true, true, true]
  {
    var b, x := Bulleted(), Block(true, "Normal", p);
    var run := [b, b, b];
    SampleBlocks(p);
    RunFlags();
    FlagsOfSample(b, x, run);
    SixBlocks(b, x);
  }

  lemma RunFlags()
    ensures var run := [Bulleted(), Bulleted(), Bulleted()];
      && FinalFlags(run, true) == []
      && FoldedInto(run) != "" && StartsWith(Strip(FoldedInto(run) + "."), MARK)
  {
    var run := [Bulleted(), Bulleted(), Bulleted()];
    SampleBlocks("");
    assert run[1..][1..][1..] == [];
    assert RunLength(run) == 3;
    assert run[..3] == run && run[3..] == [];
    SampleItems(run, Texts(run));
  }

  /** For each of the three fragile texts there is a document on which a run of three is left. */
  lemma FragileTextsFail(p: string)
    requires IsFragile(Strip(p))
    ensures LongRunAt(Collapsed(Sample(p)), 0)
  {
    SampleFlags(p);
    CollapsedFlags(Sample(p));
  }

  /** The condition on the texts is exact: around any text at all, the pass leaves no long run if and
      only if the text is not one of the three fragile ones. */
  lemma SampleSettlesExactly(p: string)
    ensures NoLongRun(Collapsed(Sample(p))) <==> !IsFragile(Strip(p))
  {
    SampleBlocks(p);
    if IsFragile(Strip(p)) {
      FragileTextsFail(p);
    } else {
      NoLongRunLeft(Sample(p));
    }
  }

  lemma SampleItems(bs: seq<Block>, items: seq<string>)
    requires bs == [Bulleted(), Bulleted(), Bulleted()] && items == Texts(bs)
    ensures var joined := JoinItems(CleanItems(items)); joined != "" && StartsWith(Strip(joined + "."), MARK)
  {
    var x := [BULLET, ' ', 'x'];
    StripKeeps(x);
    assert Texts(bs[1..][1..]) == [x] by { assert bs[1..][1..] == [Bulleted()] && [Bulleted()][1..] == []; }
    assert Texts(bs[1..]) == [x, x];
    assert items == [x, x, x];
    assert CleanItem(x) == x;
    assert items[1..][1..] == [x] && [x][1..] == [];
    assert CleanItems([x]) == [x];
    assert CleanItems(items[1..]) == [x, x];
    assert CleanItems(items) == [x, x, x];
    var joined := JoinItems([x, x, x]);
    assert joined == CommaJoin([x, x, x][..2]) + ", and " + x;
    assert [x, x, x][..2] == [x, x] && [x, x][1..] == [x];
    assert joined[..3] == x;
    var t := joined + ".";
    assert t[0] == BULLET && t[1] == ' ' && t[|t| - 1] == '.';
    StripKeeps(t);
    assert t[..2] == MARK;
  }
}
