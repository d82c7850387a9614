/** Paragraphs and their neighbours as the two folding scripts see them. */
module Blocks {
  import opened BookText
  import opened ProseText

  /** A child of the body as the script sees it. */
  datatype Block = Block(isParagraph: bool, style: string, text: string)

  /** `paragraph_text`. */
  function Shown(b: Block): string {
    Strip(b.text)
  }

  const MARK: string := [BULLET, ' ']

  predicate IsCompact(b: Block) {
    b.isParagraph && (StartsWith(b.style, "Compact") || StartsWith(Shown(b), MARK))
  }

  function RunEnd(bs: seq<Block>, i: nat): (j: nat)
    requires i <= |bs|
    ensures i <= j <= |bs|
    ensures forall k :: i <= k < j ==> IsCompact(bs[k])
    ensures j < |bs| ==> !IsCompact(bs[j])
    decreases |bs| - i
  {
    if i == |bs| || !IsCompact(bs[i]) then i else RunEnd(bs, i + 1)
  }

  lemma RunEndIs(bs: seq<Block>, i: nat, j: nat)
    requires i <= j <= |bs| && forall k :: i <= k < j ==> IsCompact(bs[k])
    requires j < |bs| ==> !IsCompact(bs[j])
    ensures RunEnd(bs, i) == j
  {
    var e := RunEnd(bs, i);
  }

  function Texts(bs: seq<Block>): (r: seq<string>)
    ensures |r| == |bs|
  {
    if bs == [] then [] else [Shown(bs[0])] + Texts(bs[1..])
  }

  /** The nearest paragraph with text before `i`, or -1. */
  function PreviousIndex(bs: seq<Block>, i: nat): (k: int)
    requires i <= |bs|
    ensures -1 <= k < i
    ensures 0 <= k ==> bs[k].isParagraph && Shown(bs[k]) != ""
  {
    if i == 0 then -1
    else if bs[i - 1].isParagraph && Shown(bs[i - 1]) != "" then i - 1
    else PreviousIndex(bs, i - 1)
  }

  /** Between that paragraph and `i` no paragraph shows any text. */
  lemma {:induction false} PreviousIsNearest(bs: seq<Block>, i: nat)
    requires i <= |bs|
    ensures forall m :: PreviousIndex(bs, i) < m < i ==> !bs[m].isParagraph || Shown(bs[m]) == ""
  {
    if i == 0 || (bs[i - 1].isParagraph && Shown(bs[i - 1]) != "") {
    } else {
      PreviousIsNearest(bs, i - 1);
    }
  }

  /** A run at `i` is folded into the nearest paragraph with text before it, or else into its own first
      block.  This is the first block that is then to go. */
  function FoldFrom(bs: seq<Block>, i: nat): (from: nat)
    requires i <= |bs|
    ensures i <= from <= i + 1
  {
    if PreviousIndex(bs, i) >= 0 then i else i + 1
  }

  function StepBack(i: nat): nat {
    if i > 0 then i - 1 else 0
  }

  lemma {:induction false} TextsSnoc(bs: seq<Block>, b: Block)
    ensures Texts(bs + [b]) == Texts(bs) + [Shown(b)]
  {
    if bs == [] {
      assert [b][1..] == [];
    } else {
      assert (bs + [b])[1..] == bs[1..] + [b];
      TextsSnoc(bs[1..], b);
    }
  }

  lemma TextsSlice(bs: seq<Block>, i: nat, j: nat)
    requires i <= j < |bs|
    ensures Texts(bs[i..j + 1]) == Texts(bs[i..j]) + [Shown(bs[j])]
  {
    TextsSnoc(bs[i..j], bs[j]);
    SliceSnoc(bs, i, j);
  }

  lemma SliceSnoc<T>(s: seq<T>, i: nat, j: nat)
    requires i <= j < |s|
    ensures s[i..j + 1] == s[i..j] + [s[j]]
  {
  }

  // ---- Counting compact blocks -----------------------------------------------------------------

  function CompactCount(bs: seq<Block>): nat {
    if bs == [] then 0 else (if IsCompact(bs[0]) then 1 else 0) + CompactCount(bs[1..])
  }

  lemma {:induction false} CountConcat(a: seq<Block>, b: seq<Block>)
    ensures CompactCount(a + b) == CompactCount(a) + CompactCount(b)
  {
    if a == [] {
      assert a + b == b;
    } else {
      assert (a + b)[1..] == a[1..] + b;
      CountConcat(a[1..], b);
    }
  }

  /** A block that does not become compact leaves the count where it is or lower. */
  lemma CountUpdate(bs: seq<Block>, i: nat, b: Block)
    requires i < |bs|
    ensures CompactCount(bs[i := b])
         == CompactCount(bs) - (if IsCompact(bs[i]) then 1 else 0) + (if IsCompact(b) then 1 else 0)
  {
    CountOne(bs[..i], bs[i], bs[i + 1..]);
    CountOne(bs[..i], b, bs[i + 1..]);
    assert bs == bs[..i] + [bs[i]] + bs[i + 1..];
    assert bs[i := b] == bs[..i] + [b] + bs[i + 1..];
  }

  lemma CountOne(a: seq<Block>, b: Block, c: seq<Block>)
    ensures CompactCount(a + [b] + c) == CompactCount(a) + (if IsCompact(b) then 1 else 0) + CompactCount(c)
  {
    CountConcat(a + [b], c);
    CountConcat(a, [b]);
    assert [b][1..] == [];
  }

  lemma CountCut(bs: seq<Block>, i: nat, j: nat)
    requires i <= j <= |bs|
    ensures CompactCount(bs[..i] + bs[j..]) == CompactCount(bs) - CompactCount(bs[i..j])
  {
    hide CompactCount;
    CountConcat(bs[..i], bs[j..]);
    CountConcat(bs[..i], bs[i..j]);
    CountConcat(bs[..i] + bs[i..j], bs[j..]);
    assert bs == bs[..i] + bs[i..j] + bs[j..];
  }

  lemma CountAll(bs: seq<Block>, i: nat, j: nat)
    requires i <= j <= |bs| && forall k :: i <= k < j ==> IsCompact(bs[k])
    ensures CompactCount(bs[i..j]) == j - i
    decreases j - i
  {
    if i < j {
      CountAll(bs, i + 1, j);
      assert bs[i..j][1..] == bs[i + 1..j];
    }
  }
}
