/** `replace_chapter`: a chapter's prose is replaced in the document tree; figures and captions move
    behind the second new paragraph, and whatever is neither figure nor prose stays. */
module ChapterRewrite {
  import opened BookText
  import opened Lists

  /** A child of the body: a paragraph, or a node such as a table that the script never touches. */
  class Node {
    const isParagraph: bool
    const style: string
    const text: string
    const hasImage: bool

    constructor (isParagraph: bool, style: string, text: string, hasImage: bool)
      ensures this.isParagraph == isParagraph && this.style == style
      ensures this.text == text && this.hasImage == hasImage
    {
      this.isParagraph, this.style, this.text, this.hasImage := isParagraph, style, text, hasImage;
    }
  }

  predicate IsChapterHeading(n: Node) {
    n.isParagraph && n.style == "Heading 1"
  }

  predicate IsFigure(n: Node) {
    n.isParagraph && (n.hasImage || StartsWith(Strip(n.text), "Figure 0."))
  }

  predicate IsProse(n: Node) {
    n.isParagraph && !IsFigure(n) && Strip(n.text) != ""
  }

  // ---- Finding the chapter ---------------------------------------------------------------------

  predicate IsTitle(n: Node, title: string) {
    IsChapterHeading(n) && Strip(n.text) == title
  }

  function CountTitles(nodes: seq<Node>, title: string): nat {
    if nodes == [] then 0 else (if IsTitle(nodes[0], title) then 1 else 0) + CountTitles(nodes[1..], title)
  }

  predicate NoHeading(nodes: seq<Node>) {
    forall n :: n in nodes ==> !IsChapterHeading(n)
  }

  /** `start` is the wanted occurrence of the title and `end` the next chapter heading, or the end. */
  predicate IsChapter(nodes: seq<Node>, title: string, occurrence: nat, start: nat, end: nat) {
    && start < end <= |nodes|
    && IsTitle(nodes[start], title) && CountTitles(nodes[..start], title) + 1 == occurrence
    && NoHeading(nodes[start + 1..end])
    && (end < |nodes| ==> IsChapterHeading(nodes[end]))
  }

  lemma {:induction false} CountConcat(a: seq<Node>, b: seq<Node>, title: string)
    ensures CountTitles(a + b, title) == CountTitles(a, title) + CountTitles(b, title)
  {
    if a == [] {
      assert a + b == b;
    } else {
      assert (a + b)[1..] == a[1..] + b;
      CountConcat(a[1..], b, title);
    }
  }

  lemma CountSnoc(nodes: seq<Node>, i: nat, title: string)
    requires i < |nodes|
    ensures CountTitles(nodes[..i + 1], title) ==
      CountTitles(nodes[..i], title) + if IsTitle(nodes[i], title) then 1 else 0
  {
    assert nodes[..i + 1] == nodes[..i] + [nodes[i]];
    CountConcat(nodes[..i], [nodes[i]], title);
    assert [nodes[i]][1..] == [];
  }

  method ChapterBounds(nodes: seq<Node>, title: string, occurrence: nat) returns (found: bool, start: nat, end: nat)
    ensures found ==> IsChapter(nodes, title, occurrence, start, end)
    ensures found <==> 0 < occurrence <= CountTitles(nodes, title)
  {
    var seen := 0;
    found, start, end := false, 0, 0;
    var i := 0;
    while i < |nodes|
      invariant 0 <= i <= |nodes| && seen == CountTitles(nodes[..i], title)
      invariant occurrence == 0 || seen < occurrence
    {
      CountSnoc(nodes, i, title);
      if IsTitle(nodes[i], title) {
        seen := seen + 1;
        if seen == occurrence {
          end := i + 1;
          while end < |nodes| && !IsChapterHeading(nodes[end])
            invariant i < end <= |nodes| && NoHeading(nodes[i + 1..end])
          {
            assert nodes[i + 1..end + 1] == nodes[i + 1..end] + [nodes[end]];
            end := end + 1;
          }
          found, start := true, i;
          assert nodes == nodes[..i + 1] + nodes[i + 1..];
          CountConcat(nodes[..i + 1], nodes[i + 1..], title);
          return;
        }
      }
      i := i + 1;
    }
    assert nodes[..i] == nodes;
  }

  // ---- Replacing it ----------------------------------------------------------------------------

  function Select(nodes: seq<Node>, pick: Node -> bool): seq<Node> {
    if nodes == [] then [] else (if pick(nodes[0]) then [nodes[0]] else []) + Select(nodes[1..], pick)
  }

  lemma {:induction false} SelectMember(nodes: seq<Node>, pick: Node -> bool, n: Node)
    ensures n in Select(nodes, pick) <==> n in nodes && pick(n)
  {
    if nodes != [] {
      SelectMember(nodes[1..], pick, n);
      assert nodes == [nodes[0]] + nodes[1..];
    }
  }

  lemma {:induction false} SelectSnoc(nodes: seq<Node>, n: Node, pick: Node -> bool)
    ensures Select(nodes + [n], pick) == Select(nodes, pick) + if pick(n) then [n] else []
  {
    if nodes == [] {
      SelectCons(n, [], pick);
      assert [] + [n] == [n] + [];
    } else {
      var x, tail := nodes[0], nodes[1..];
      SelectSnoc(tail, n, pick);
      SelectCons(x, tail + [n], pick);
      assert nodes + [n] == [x] + (tail + [n]);
    }
  }

  lemma SelectCons(x: Node, nodes: seq<Node>, pick: Node -> bool)
    ensures Select([x] + nodes, pick) == (if pick(x) then [x] else []) + Select(nodes, pick)
  {
    assert ([x] + nodes)[1..] == nodes;
  }

  lemma {:induction false} SelectDistinct(nodes: seq<Node>, pick: Node -> bool)
    requires AreDistinct(nodes)
    ensures AreDistinct(Select(nodes, pick))
  {
    if nodes != [] {
      SelectDistinct(nodes[1..], pick);
      SelectMember(nodes[1..], pick, nodes[0]);
    }
  }

  function Figures(section: seq<Node>): seq<Node> {
    Select(section, IsFigure)
  }

  function Prose(section: seq<Node>): seq<Node> {
    Select(section, IsProse)
  }

  predicate IsRest(n: Node) {
    !IsFigure(n) && !IsProse(n)
  }

  /** What is neither figure nor prose: empty paragraphs and nodes that are no paragraphs. */
  function Rest(section: seq<Node>): seq<Node> {
    Select(section, IsRest)
  }

  /** Dropping the figures and the prose leaves the rest, in order. */
  lemma {:induction false} KeepIsRest(nodes: seq<Node>, gone: set<Node>)
    requires forall n :: n in nodes ==> (n in gone <==> !IsRest(n))
    ensures Keep(nodes, gone) == Rest(nodes)
  {
    if nodes != [] {
      assert nodes[0] in nodes;
      KeepIsRest(nodes[1..], gone);
    }
  }

  /** How many new paragraphs go before the figures. */
  function Lead(count: nat): nat {
    if count < 2 then count else 2
  }

  predicate IsNew(n: Node, text: string, first: bool) {
    n.isParagraph && n.text == text && !n.hasImage && n.style == if first then "First Paragraph" else "Body Text"
  }

  predicate AreNew(inserted: seq<Node>, texts: seq<string>) {
    |inserted| == |texts| && forall i :: 0 <= i < |texts| ==> IsNew(inserted[i], texts[i], i == 0)
  }

  /** The document after the rewrite. */
  function Rewritten(before: seq<Node>, heading: Node, inserted: seq<Node>, section: seq<Node>, after: seq<Node>)
    : seq<Node>
  {
    var lead := Lead(|inserted|);
    before + [heading] + inserted[..lead] + Figures(section) + inserted[lead..] + Rest(section) + after
  }

  /** Where the new paragraphs stand: the first two of them before the figures, the others behind. */
  lemma FirstTwoLead(before: seq<Node>, heading: Node, inserted: seq<Node>, section: seq<Node>, after: seq<Node>)
    ensures var r := Rewritten(before, heading, inserted, section, after);
      var figures, rest := Figures(section), Rest(section);
      && (inserted == [] ==> r == before + [heading] + figures + rest + after)
      && (|inserted| == 1 ==> r == before + [heading, inserted[0]] + figures + rest + after)
      && (|inserted| >= 2 ==>
           r == before + [heading, inserted[0], inserted[1]] + figures + inserted[2..] + rest + after)
  {
    hide Figures, Rest;
    if |inserted| >= 2 {
      assert inserted[..2] == [inserted[0], inserted[1]];
    } else if |inserted| == 1 {
      assert inserted[..1] == [inserted[0]];
    }
  }

  // ---- Single steps ----------------------------------------------------------------------------

  lemma InsertAtEnd<T>(front: seq<T>, back: seq<T>, x: T)
    requires front != [] && AreDistinct(front)
    ensures InsertAfter(front + back, front[|front| - 1], x) == front + [x] + back
  {
    var k := |front| - 1;
    assert front == front[..k] + [front[k]];
    assert front + back == front[..k] + [front[k]] + back;
    InsertAfterAt(front[..k], front[k], back, x);
  }

  /** A figure leaves the section and lands behind what was moved before it. */
  lemma MoveStep<T>(front: seq<T>, moved: seq<T>, back: seq<T>, section: seq<T>, after: seq<T>, gone: set<T>, x: T)
    requires front + moved != [] && AreDistinct(front + moved) && AreDistinct(section)
    requires x in section && x !in gone && x !in front + moved && x !in back
    ensures var nodes := front + moved + back + Keep(section, gone) + after;
      InsertAfter(Remove(nodes, x), (front + moved)[|front + moved| - 1], x)
      == front + (moved + [x]) + back + Keep(section, gone + {x}) + after
  {
    var head, left := front + moved, Keep(section, gone + {x});
    RemoveFromSection(head + back, section, after, gone, x);
    RegroupBack(head, back, left, after);
    InsertAtEnd(head, back + left + after, x);
    RegroupMoved(front, moved, x, back, left, after);
  }

  lemma RegroupBack<T>(head: seq<T>, back: seq<T>, left: seq<T>, after: seq<T>)
    ensures head + back + left + after == head + (back + left + after)
  {
  }

  lemma RegroupMoved<T>(front: seq<T>, moved: seq<T>, x: T, back: seq<T>, left: seq<T>, after: seq<T>)
    ensures front + moved + [x] + (back + left + after) == front + (moved + [x]) + back + left + after
  {
  }

  lemma InsertTextStep<T>(front: seq<T>, inserted: seq<T>, back: seq<T>, n: T)
    requires front != [] && AreDistinct(front + inserted + back) && n !in front + inserted + back
    ensures InsertAfter(front + inserted + back, (front + inserted)[|front + inserted| - 1], n)
         == front + (inserted + [n]) + back
    ensures AreDistinct(front + (inserted + [n]) + back)
  {
    DistinctParts(front + inserted, back);
    InsertAtEnd(front + inserted, back, n);
    DistinctInsert(front + inserted, back, n);
    assert front + inserted + [n] + back == front + (inserted + [n]) + back;
  }

  lemma RemoveFromSection<T>(front: seq<T>, section: seq<T>, after: seq<T>, gone: set<T>, x: T)
    requires AreDistinct(section) && x in section && x !in gone && x !in front
    ensures Remove(front + Keep(section, gone) + after, x) == front + Keep(section, gone + {x}) + after
  {
    hide Keep, Remove;
    var kept := Keep(section, gone);
    RemoveKept(section, gone, x);
    RemoveWithin(kept, after, x);
    RemoveBeyond(front, kept + after, x);
    assert front + kept + after == front + (kept + after);
    assert front + Keep(section, gone + {x}) + after == front + (Keep(section, gone + {x}) + after);
  }

  method SplitSection(section: seq<Node>) returns (images: seq<Node>, body: seq<Node>)
    ensures images == Figures(section) && body == Prose(section)
  {
    images, body := [], [];
    var i := 0;
    while i < |section|
      invariant 0 <= i <= |section|
      invariant images == Figures(section[..i]) && body == Prose(section[..i])
    {
      var n := section[i];
      SelectSnoc(section[..i], n, IsFigure);
      SelectSnoc(section[..i], n, IsProse);
      assert section[..i + 1] == section[..i] + [n];
      if n.isParagraph {
        if n.hasImage || StartsWith(Strip(n.text), "Figure 0.") {
          images := images + [n];
        } else if Strip(n.text) != "" {
          body := body + [n];
        }
      }
      i := i + 1;
    }
    assert section[..i] == section;
  }

  datatype Outcome = NotFound | NoAnchor | Replaced

  class Document {
    var nodes: seq<Node>

    /** The new paragraphs, one after the other behind the heading. */
    method InsertTexts(texts: seq<string>, front: seq<Node>, back: seq<Node>) returns (inserted: seq<Node>)
      requires nodes == front + back && AreDistinct(nodes) && front != []
      modifies this
      ensures AreNew(inserted, texts) && forall n :: n in inserted ==> fresh(n)
      ensures nodes == front + inserted + back && AreDistinct(nodes)
    {
      inserted := [];
      var anchor := front[|front| - 1];
      var i := 0;
      while i < |texts|
        invariant 0 <= i <= |texts| && AreNew(inserted, texts[..i])
        invariant forall n :: n in inserted ==> fresh(n)
        invariant nodes == front + inserted + back && AreDistinct(nodes)
        invariant anchor == (front + inserted)[|front + inserted| - 1]
        invariant forall n :: n in nodes ==> allocated(n)
      {
        var n := new Node(true, if i == 0 then "First Paragraph" else "Body Text", texts[i], false);
        assert n !in nodes;
        InsertTextStep(front, inserted, back, n);
        nodes := InsertAfter(nodes, anchor, n);
        inserted := inserted + [n];
        anchor := n;
        i := i + 1;
      }
      assert texts[..i] == texts;
    }

    /** The figures move behind the leading new paragraphs, in order. */
    method MoveFigures(images: seq<Node>, ghost front: seq<Node>, ghost back: seq<Node>,
                       ghost section: seq<Node>, ghost after: seq<Node>, start: Node)
      requires nodes == front + back + section + after && AreDistinct(front + back + section + after)
      requires front != [] && start == front[|front| - 1] && images == Figures(section)
      modifies this
      ensures nodes == front + images + back + Keep(section, NodesOf(images)) + after
    {
      hide AreDistinct, InsertAfter, IsFigure, Keep, Remove, Select;
      DistinctFour(front, back, section, after);
      SelectDistinct(section, IsFigure);
      KeepAll(section, {});
      assert NodesOf(images[..0]) == {} && front + images[..0] == front;
      var anchor := start;
      var i := 0;
      while i < |images|
        invariant 0 <= i <= |images|
        invariant nodes == front + images[..i] + back + Keep(section, NodesOf(images[..i])) + after
        invariant anchor == (front + images[..i])[|front + images[..i]| - 1]
      {
        var x := images[i];
        FigureFacts(front, back, section, images, i);
        MoveStep(front, images[..i], back, section, after, NodesOf(images[..i]), x);
        nodes := InsertAfter(Remove(nodes, x), anchor, x);
        assert images[..i + 1] == images[..i] + [x];
        assert NodesOf(images[..i + 1]) == NodesOf(images[..i]) + {x};
        anchor := x;
        i := i + 1;
      }
      assert images[..i] == images;
    }

    method DeleteProse(body: seq<Node>, ghost front: seq<Node>, ghost section: seq<Node>, ghost after: seq<Node>,
                       ghost gone: set<Node>)
      requires nodes == front + Keep(section, gone) + after && AreDistinct(section) && AreDistinct(body)
      requires forall n :: n in body ==> n in section && n !in gone && n !in front
      modifies this
      ensures nodes == front + Keep(section, gone + NodesOf(body)) + after
    {
      hide Keep, Remove;
      var i := 0;
      assert gone + NodesOf(body[..0]) == gone;
      while i < |body|
        invariant 0 <= i <= |body|
        invariant nodes == front + Keep(section, gone + NodesOf(body[..i])) + after
      {
        var x := body[i];
        assert x in body;
        RemoveFromSection(front, section, after, gone + NodesOf(body[..i]), x);
        assert body[..i + 1] == body[..i] + [x];
        assert gone + NodesOf(body[..i + 1]) == gone + NodesOf(body[..i]) + {x};
        nodes := Remove(nodes, x);
        i := i + 1;
      }
      assert body[..i] == body;
    }

    /** The body of `replace_chapter`, once the chapter is found and there is a place for the figures. */
    method RewriteSection(before: seq<Node>, heading: Node, section: seq<Node>, after: seq<Node>, texts: seq<string>,
                          images: seq<Node>, body: seq<Node>) returns (inserted: seq<Node>)
      requires nodes == before + [heading] + section + after && AreDistinct(nodes)
      requires images == Figures(section) && body == Prose(section) && (texts == [] ==> images == [])
      modifies this
      ensures AreNew(inserted, texts) && forall n :: n in inserted ==> fresh(n)
      ensures nodes == Rewritten(before, heading, inserted, section, after)
    {
      var top := before + [heading];
      assert nodes == top + (section + after);
      inserted := InsertTexts(texts, top, section + after);
      var lead := Lead(|inserted|);
      ghost var front, back := top + inserted[..lead], inserted[lead..];
      SplitInserted(top, inserted, section, after, lead);
      DistinctFour(front, back, section, after);
      if images != [] {
        MoveFigures(images, front, back, section, after, inserted[lead - 1]);
      } else {
        KeepAll(section, {});
        assert NodesOf(images) == {} && front + images == front;
      }
      ProseFacts(front, back, section, images, body);
      DeleteProse(body, front + images + back, section, after, NodesOf(images));
      SectionLeft(section, images, body);
      assert front == before + [heading] + inserted[..lead];
    }

    /** With no new text there is no paragraph to anchor the figures to: the script stops with an index
        error before it changes anything. */
    method ReplaceChapter(title: string, texts: seq<string>, occurrence: nat)
      returns (outcome: Outcome, ghost inserted: seq<Node>, ghost start: nat, ghost end: nat)
      requires AreDistinct(nodes)
      modifies this
      ensures outcome == NotFound <==> !(0 < occurrence <= CountTitles(old(nodes), title))
      ensures outcome != NotFound ==> IsChapter(old(nodes), title, occurrence, start, end)
      ensures outcome == NoAnchor ==> texts == [] && Figures(old(nodes)[start + 1..end]) != []
      ensures outcome != Replaced ==> nodes == old(nodes)
      ensures outcome == Replaced ==>
        && (texts == [] ==> Figures(old(nodes)[start + 1..end]) == [])
        && AreNew(inserted, texts) && (forall n :: n in inserted ==> fresh(n))
        && nodes == Rewritten(old(nodes)[..start], old(nodes)[start], inserted, old(nodes)[start + 1..end],
                              old(nodes)[end..])
    {
      var found, s, e := ChapterBounds(nodes, title, occurrence);
      if !found {
        return NotFound, [], 0, 0;
      }
      var section := nodes[s + 1..e];
      var images, body := SplitSection(section);
      if texts == [] && images != [] {
        return NoAnchor, [], s, e;
      }
      var before, heading, after := nodes[..s], nodes[s], nodes[e..];
      FourParts(nodes, s, e);
      var written := RewriteSection(before, heading, section, after, texts, images, body);
      return Replaced, written, s, e;
    }
  }

  lemma FourParts<T>(nodes: seq<T>, s: nat, e: nat)
    requires s < e <= |nodes|
    ensures nodes == nodes[..s] + [nodes[s]] + nodes[s + 1..e] + nodes[e..]
  {
  }

  lemma SplitInserted<T>(top: seq<T>, inserted: seq<T>, section: seq<T>, after: seq<T>, lead: nat)
    requires lead <= |inserted|
    ensures top + inserted + (section + after) == top + inserted[..lead] + inserted[lead..] + section + after
  {
    assert inserted == inserted[..lead] + inserted[lead..];
  }

  lemma DistinctParts<T>(a: seq<T>, b: seq<T>)
    requires AreDistinct(a + b)
    ensures AreDistinct(a) && AreDistinct(b) && forall n :: n in a ==> n !in b
  {
    var c := a + b;
    assert forall i :: 0 <= i < |a| ==> c[i] == a[i];
    assert forall i :: 0 <= i < |b| ==> c[|a| + i] == b[i];
  }

  lemma DistinctFour<T>(a: seq<T>, b: seq<T>, c: seq<T>, d: seq<T>)
    requires AreDistinct(a + b + c + d)
    ensures AreDistinct(a) && AreDistinct(c)
    ensures forall n :: n in c ==> n !in a && n !in b
  {
    DistinctParts(a + b + c, d);
    DistinctParts(a + b, c);
    DistinctParts(a, b);
  }

  lemma DistinctInsert<T>(a: seq<T>, b: seq<T>, x: T)
    requires AreDistinct(a + b) && x !in a + b
    ensures AreDistinct(a + [x] + b)
  {
    var c, d := a + b, a + [x] + b;
    forall i, j | 0 <= i < j < |d|
      ensures d[i] != d[j]
    {
      var k, l := if i < |a| then i else i - 1, if j < |a| then j else j - 1;
      if i != |a| && j != |a| {
        assert d[i] == c[k] && d[j] == c[l];
      } else if i == |a| {
        assert d[j] == c[l];
      } else {
        assert d[i] == c[k];
      }
    }
  }

  lemma FigureFacts(front: seq<Node>, back: seq<Node>, section: seq<Node>, images: seq<Node>, i: nat)
    requires images == Figures(section) && AreDistinct(images) && i < |images| && AreDistinct(front)
    requires forall n :: n in section ==> n !in front && n !in back
    ensures images[i] in section && images[i] !in NodesOf(images[..i])
    ensures images[i] !in front + images[..i] && images[i] !in back
    ensures AreDistinct(front + images[..i])
  {
    forall k | 0 <= k < |images|
      ensures images[k] in section
    {
      assert images[k] in images;
      SelectMember(section, IsFigure, images[k]);
    }
  }

  lemma ProseFacts(front: seq<Node>, back: seq<Node>, section: seq<Node>, images: seq<Node>, body: seq<Node>)
    requires images == Figures(section) && body == Prose(section) && AreDistinct(section)
    requires forall n :: n in section ==> n !in front && n !in back
    ensures AreDistinct(body)
    ensures forall n :: n in body ==> n in section && n !in NodesOf(images) && n !in front + images + back
  {
    SelectDistinct(section, IsProse);
    forall n | n in body
      ensures n in section && n !in NodesOf(images) && n !in front + images + back
    {
      SelectMember(section, IsProse, n);
      SelectMember(section, IsFigure, n);
    }
  }

  lemma SectionLeft(section: seq<Node>, images: seq<Node>, body: seq<Node>)
    requires images == Figures(section) && body == Prose(section)
    ensures Keep(section, NodesOf(images) + NodesOf(body)) == Rest(section)
  {
    forall n | n in section
      ensures n in NodesOf(images) + NodesOf(body) <==> !IsRest(n)
    {
      SelectMember(section, IsFigure, n);
      SelectMember(section, IsProse, n);
    }
    KeepIsRest(section, NodesOf(images) + NodesOf(body));
  }

  // ---- What the result means -------------------------------------------------------------------

  lemma {:induction false} SelectCount(nodes: seq<Node>)
    ensures |Figures(nodes)| + |Prose(nodes)| + |Rest(nodes)| == |nodes|
  {
    if nodes != [] { SelectCount(nodes[1..]); }
  }

  /** Apart from the prose nothing is lost: every old node outside the prose is still there, once. */
  lemma RewriteConserves(before: seq<Node>, heading: Node, inserted: seq<Node>, section: seq<Node>, after: seq<Node>)
    ensures var oldNodes := before + [heading] + section + after;
      var newNodes := Rewritten(before, heading, inserted, section, after);
      && |newNodes| == |oldNodes| + |inserted| - |Prose(section)|
      && multiset(newNodes) + multiset(Prose(section)) == multiset(oldNodes) + multiset(inserted)
  {
    SelectCount(section);
    SelectSplits(section);
    var lead := Lead(|inserted|);
    assert inserted == inserted[..lead] + inserted[lead..];
    Shuffle(multiset(before), multiset([heading]), multiset(inserted[..lead]), multiset(Figures(section)),
            multiset(inserted[lead..]), multiset(Rest(section)), multiset(after), multiset(Prose(section)));
  }

  lemma Shuffle<T>(b: multiset<T>, h: multiset<T>, i: multiset<T>, f: multiset<T>, j: multiset<T>, r: multiset<T>,
                   a: multiset<T>, p: multiset<T>)
    ensures b + h + i + f + j + r + a + p == b + h + (f + p + r) + a + (i + j)
  {
  }

  lemma {:induction false} SelectSplits(nodes: seq<Node>)
    ensures multiset(nodes) == multiset(Figures(nodes)) + multiset(Prose(nodes)) + multiset(Rest(nodes))
  {
    if nodes != [] {
      SelectSplits(nodes[1..]);
      assert nodes == [nodes[0]] + nodes[1..];
    }
  }

  // ---- The reader map --------------------------------------------------------------------------

  const READER_TITLE := "How to Read This Architecture"
  const READER_ANCHOR := "Design Principles of the Governance Plane"

  datatype Entry = Entry(style: string, text: string)

  predicate ShowsTitle(n: Node) {
    n.isParagraph && Strip(n.text) == READER_TITLE
  }

  predicate IsEntry(n: Node, e: Entry) {
    n.isParagraph && n.style == e.style && n.text == e.text && !n.hasImage
  }

  function Reverse<T>(s: seq<T>): (r: seq<T>)
    ensures |r| == |s|
  {
    if s == [] then [] else Reverse(s[1..]) + [s[0]]
  }

  /** A document that takes the reader map: no paragraph shows its title, and the anchor is there. */
  predicate TakesMap(nodes: seq<Node>) {
    (forall n :: n in nodes ==> !ShowsTitle(n)) && exists n :: n in nodes && IsTitle(n, READER_ANCHOR)
  }

  /** The first chapter heading of that title. */
  method FindTitle(nodes: seq<Node>, title: string) returns (k: nat)
    ensures k <= |nodes| && forall m :: 0 <= m < k ==> !IsTitle(nodes[m], title)
    ensures k < |nodes| ==> IsTitle(nodes[k], title)
  {
    k := 0;
    while k < |nodes| && !IsTitle(nodes[k], title)
      invariant k <= |nodes| && forall m :: 0 <= m < k ==> !IsTitle(nodes[m], title)
    {
      k := k + 1;
    }
  }

  method HasTitle(nodes: seq<Node>) returns (found: bool)
    ensures found <==> exists n :: n in nodes && ShowsTitle(n)
  {
    var i := 0;
    while i < |nodes|
      invariant 0 <= i <= |nodes| && forall m :: 0 <= m < i ==> !ShowsTitle(nodes[m])
    {
      if ShowsTitle(nodes[i]) { return true; }
      i := i + 1;
    }
    return false;
  }

  class ReaderMap {
    var nodes: seq<Node>

    method InsertEntries(entries: seq<Entry>, anchor: Node, ghost before: seq<Node>, ghost after: seq<Node>)
      returns (ghost inserted: seq<Node>)
      requires nodes == before + after && after != [] && after[0] == anchor && anchor !in before
      modifies this
      ensures |inserted| == |entries| && forall m :: 0 <= m < |entries| ==> IsEntry(inserted[m], entries[m])
      ensures forall n :: n in inserted ==> fresh(n)
      ensures nodes == before + Reverse(inserted) + after
    {
      hide InsertBefore, Reverse;
      inserted := [];
      ReverseNothing<Node>();
      assert before + [] + after == before + after;
      var i := |entries|;
      while i > 0
        invariant 0 <= i <= |entries| && |inserted| == |entries| - i
        invariant forall m :: i <= m < |entries| ==> IsEntry(inserted[m - i], entries[m])
        invariant forall n :: n in inserted ==> fresh(n) && n != anchor
        invariant nodes == before + Reverse(inserted) + after
      {
        i := i - 1;
        var n := new Node(true, entries[i].style, entries[i].text, false);
        InsertReversed(before, inserted, after, n);
        nodes := InsertBefore(nodes, anchor, n);
        inserted := [n] + inserted;
      }
    }

    /** `insert_reader_map`: the entries are walked backwards and each is put right before the anchor. */
    method Insert(entries: seq<Entry>) returns (done: bool, ghost inserted: seq<Node>, k: nat)
      requires AreDistinct(nodes)
      modifies this
      ensures done <==> TakesMap(old(nodes))
      ensures !done ==> nodes == old(nodes)
      ensures done ==>
        && k < |old(nodes)| && IsTitle(old(nodes)[k], READER_ANCHOR)
        && (forall m :: 0 <= m < k ==> !IsTitle(old(nodes)[m], READER_ANCHOR))
        && |inserted| == |entries| && (forall m :: 0 <= m < |entries| ==> IsEntry(inserted[m], entries[m]))
        && (forall n :: n in inserted ==> fresh(n))
        && nodes == old(nodes)[..k] + Reverse(inserted) + old(nodes)[k..]
    {
      inserted, k := [], 0;
      var present := HasTitle(nodes);
      if present { return false, [], 0; }
      k := FindTitle(nodes, READER_ANCHOR);
      if k == |nodes| { return false, [], 0; }
      ghost var before, after := nodes[..k], nodes[k..];
      assert nodes == before + after && after[0] !in before;
      inserted := InsertEntries(entries, nodes[k], before, after);
      done := true;
    }
  }

  lemma ReverseNothing<T>()
    ensures Reverse<T>([]) == []
  {
  }

  lemma ReverseMembers<T>(s: seq<T>)
    ensures forall x :: x in Reverse(s) <==> x in s
  {
    if s != [] {
      ReverseMembers(s[1..]);
      assert s == [s[0]] + s[1..];
    }
  }

  lemma InsertReversed<T>(before: seq<T>, inserted: seq<T>, after: seq<T>, n: T)
    requires after != [] && after[0] !in before && after[0] !in inserted
    ensures InsertBefore(before + Reverse(inserted) + after, after[0], n) == before + Reverse([n] + inserted) + after
  {
    hide Reverse, InsertBefore;
    var r, anchor, back := Reverse(inserted), after[0], after[1..];
    ReverseMembers(inserted);
    ReverseCons(n, inserted);
    InsertBeforeAt(before + r, anchor, back, n);
    BeforeAnchor(before, r, n, anchor, back);
    assert after == [anchor] + back;
  }

  lemma ReverseCons<T>(x: T, s: seq<T>)
    ensures Reverse([x] + s) == Reverse(s) + [x]
  {
    assert ([x] + s)[1..] == s;
  }

  lemma BeforeAnchor<T>(before: seq<T>, r: seq<T>, n: T, anchor: T, back: seq<T>)
    ensures before + r + ([anchor] + back) == before + r + [anchor] + back
    ensures before + (r + [n]) + ([anchor] + back) == before + r + [n, anchor] + back
  {
  }

  lemma {:induction false} ReverseAt<T>(s: seq<T>, k: nat)
    requires k < |s|
    ensures Reverse(s)[k] == s[|s| - 1 - k]
  {
    if k < |s| - 1 { ReverseAt(s[1..], k); }
  }

  /** The map keeps its order in the document exactly when it reads the same backwards. */
  lemma ReaderMapKeepsOrder<T>(entries: seq<T>)
    ensures Reverse(entries) == entries <==>
      forall k :: 0 <= k < |entries| ==> entries[k] == entries[|entries| - 1 - k]
  {
    forall k | 0 <= k < |entries|
      ensures Reverse(entries)[k] == entries[|entries| - 1 - k]
    {
      ReverseAt(entries, k);
    }
  }

  /** So a map of different entries keeps it exactly when it has at most one. */
  lemma DistinctMapKeepsOrder<T>(entries: seq<T>)
    requires AreDistinct(entries)
    ensures Reverse(entries) == entries <==> |entries| <= 1
  {
    ReaderMapKeepsOrder(entries);
    if |entries| > 1 { assert entries[0] != entries[|entries| - 1]; }
  }

  lemma ReverseOfFive<T>(s: seq<T>)
    requires |s| == 5
    ensures Reverse(s) == [s[4], s[3], s[2], s[1], s[0]]
  {
    ReverseAt(s, 0);
    ReverseAt(s, 1);
    ReverseAt(s, 2);
    ReverseAt(s, 3);
    ReverseAt(s, 4);
  }

  /** The map of the script: its heading and four paragraphs. */
  predicate IsReaderMap(entries: seq<Entry>) {
    && |entries| == 5 && entries[0] == Entry("Heading 1", READER_TITLE)
    && forall k :: 1 <= k < 5 ==> entries[k].style != "Heading 1"
  }

  /** What inserting it leaves: its paragraphs come first, in reverse order, and its heading last, right
      before the anchor.  So the chapter it was to open is empty, and its paragraphs end the chapter before. */
  lemma ReaderMapStrandsItsHeading(nodes: seq<Node>, k: nat, inserted: seq<Node>, entries: seq<Entry>)
    requires TakesMap(nodes) && k < |nodes| && IsTitle(nodes[k], READER_ANCHOR)
    requires IsReaderMap(entries) && |inserted| == 5 && forall m :: 0 <= m < 5 ==> IsEntry(inserted[m], entries[m])
    ensures var doc := nodes[..k] + Reverse(inserted) + nodes[k..];
      && doc[k..k + 6] == [inserted[4], inserted[3], inserted[2], inserted[1], inserted[0], nodes[k]]
      && IsChapter(doc, READER_TITLE, 1, k + 4, k + 5)
  {
    hide *;
    var five, after := Reverse(inserted), nodes[k..];
    ReverseOfFive(inserted);
    FivePlaces(nodes[..k], five, after);
    NoTitleBefore(nodes, k, inserted, entries);
    assert five[..4] == [inserted[4], inserted[3], inserted[2], inserted[1]];
    EmptyChapter(nodes[..k] + five + after, k, inserted[0], nodes[k]);
    HeadingShowsTitle(inserted, entries);
  }

  lemma NoTitleBefore(nodes: seq<Node>, k: nat, inserted: seq<Node>, entries: seq<Entry>)
    requires TakesMap(nodes) && k < |nodes|
    requires IsReaderMap(entries) && |inserted| == 5 && forall m :: 0 <= m < 5 ==> IsEntry(inserted[m], entries[m])
    ensures CountTitles(nodes[..k] + [inserted[4], inserted[3], inserted[2], inserted[1]], READER_TITLE) == 0
  {
    hide Strip;
    var front := nodes[..k] + [inserted[4], inserted[3], inserted[2], inserted[1]];
    forall n | n in front
      ensures !IsTitle(n, READER_TITLE)
    {
      if n in nodes { assert !ShowsTitle(n); }
    }
    NoTitle(front, READER_TITLE);
  }

  lemma HeadingShowsTitle(inserted: seq<Node>, entries: seq<Entry>)
    requires IsReaderMap(entries) && |inserted| == 5 && forall m :: 0 <= m < 5 ==> IsEntry(inserted[m], entries[m])
    ensures IsTitle(inserted[0], READER_TITLE)
  {
    TitleIsStripped();
  }

  lemma EmptyChapter(doc: seq<Node>, k: nat, heading: Node, anchor: Node)
    requires k + 6 <= |doc| && doc[k + 4] == heading && doc[k + 5] == anchor
    requires CountTitles(doc[..k + 4], READER_TITLE) == 0
    requires IsTitle(anchor, READER_ANCHOR)
    ensures IsTitle(heading, READER_TITLE) ==> IsChapter(doc, READER_TITLE, 1, k + 4, k + 5)
  {
    assert doc[k + 5..k + 5] == [];
  }

  lemma FivePlaces<T>(before: seq<T>, five: seq<T>, after: seq<T>)
    requires |five| == 5 && after != []
    ensures var doc, k := before + five + after, |before|;
      && doc[..k + 4] == before + five[..4] && doc[k + 4] == five[4] && doc[k + 5] == after[0]
      && doc[k..k + 6] == five + [after[0]]
  {
  }

  lemma TitleIsStripped()
    ensures Strip(READER_TITLE) == READER_TITLE
  {
    assert !IsSpace(READER_TITLE[0]) && !IsSpace(READER_TITLE[|READER_TITLE| - 1]);
  }

  lemma {:induction false} NoTitle(nodes: seq<Node>, title: string)
    requires forall n :: n in nodes ==> !IsTitle(n, title)
    ensures CountTitles(nodes, title) == 0
  {
    if nodes != [] {
      assert nodes[0] in nodes;
      NoTitle(nodes[1..], title);
    }
  }
}
