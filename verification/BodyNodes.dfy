/** The body of a document as nodes that the folding scripts edit and remove in place. */
module BodyNodes {
  import opened Blocks
  import opened BookText
  import opened Lists

  /** A child of the body: a paragraph, or a table or another node that the script leaves alone. */
  class Node {
    const isParagraph: bool
    var style: string
    var text: string

    constructor (isParagraph: bool, style: string, text: string)
      ensures Value() == Block(isParagraph, style, text)
    {
      this.isParagraph, this.style, this.text := isParagraph, style, text;
    }

    function Value(): Block
      reads this
    {
      Block(isParagraph, style, text)
    }
  }

  function Values(nodes: seq<Node>): (bs: seq<Block>)
    reads nodes
    ensures |bs| == |nodes| && forall k :: 0 <= k < |nodes| ==> bs[k] == nodes[k].Value()
  {
    seq(|nodes|, k requires 0 <= k < |nodes| reads nodes => nodes[k].Value())
  }

  lemma ValuesCut(nodes: seq<Node>, i: nat, j: nat)
    requires i <= j <= |nodes|
    ensures Values(Cut(nodes, i, j)) == Cut(Values(nodes), i, j)
  {
  }

  class Body {
    var children: seq<Node>

    constructor (children: seq<Node>)
      ensures this.children == children
    {
      this.children := children;
    }

    /** Removes the nodes from `i` to `j` one by one, from the body and from the working list. */
    method RemoveRun(list: seq<Node>, i: nat, j: nat) returns (rest: seq<Node>)
      requires i <= j <= |list| && AreDistinct(list) && children == list
      modifies this
      ensures rest == Cut(list, i, j) && children == rest
    {
      rest := list;
      var k := i;
      while k < j
        invariant i <= k <= j
        invariant rest == Cut(list, i, k) && children == rest
      {
        CutDistinct(list, i, k);
        assert rest[i] == list[k];
        RemoveAt(rest, i);
        assert rest[..i] + rest[i + 1..] == Cut(list, i, k + 1);
        children := Remove(children, list[k]);
        rest := Remove(rest, list[k]);
        k := k + 1;
      }
    }
  }

  /** The end of the compact run that starts at `i`, and the texts of the run. */
  method ScanRun(list: seq<Node>, i: nat) returns (j: nat, items: seq<string>)
    requires i < |list| && IsCompact(list[i].Value())
    ensures j == RunEnd(Values(list), i) && i < j && items == Texts(Values(list)[i..j])
  {
    hide IsCompact, Strip, Texts;
    j, items := i, [];
    ghost var bs := Values(list);
    while j < |list| && IsCompact(list[j].Value())
      invariant i <= j <= |list| && forall k :: i <= k < j ==> IsCompact(bs[k])
      invariant items == Texts(bs[i..j])
    {
      TextsSlice(bs, i, j);
      items := items + [Shown(list[j].Value())];
      j := j + 1;
    }
    RunEndIs(bs, i, j);
  }

  method FindPrevious(list: seq<Node>, i: nat) returns (k: int)
    requires i <= |list|
    ensures k == PreviousIndex(Values(list), i)
  {
    k := i - 1;
    ghost var bs := Values(list);
    while k >= 0
      invariant -1 <= k < i && PreviousIndex(bs, i) == PreviousIndex(bs, k + 1)
    {
      if list[k].isParagraph && Shown(list[k].Value()) != "" {
        return;
      }
      k := k - 1;
    }
  }
}
