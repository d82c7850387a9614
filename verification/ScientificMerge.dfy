/** The merge pass of the scientific edition: short neighbouring body paragraphs are joined in place. */
module ScientificMerge {
  import opened BookText

  datatype Paragraph = Paragraph(style: string, text: string)

  /** Python's tables for `\w` and `\d`; all the script needs of them is how they treat ASCII. */
  datatype CharClasses = CharClasses(isWordChar: char -> bool, isDigit: char -> bool)

  ghost predicate AreCharClasses(cc: CharClasses) {
    !cc.isWordChar(' ') && !cc.isDigit(' ')
  }

  predicate IsHeading(p: Paragraph) {
    StartsWith(p.style, "Heading")
  }

  predicate IsBodyStyle(p: Paragraph) {
    p.style == "Body Text" || p.style == "First Paragraph" || p.style == "Normal"
  }

  /** `\b` after a matched letter or digit. */
  predicate EndsWord(cc: CharClasses, t: string, n: nat)
    requires n <= |t|
  {
    n == |t| || !cc.isWordChar(t[n])
  }

  predicate IsLabel(cc: CharClasses, t: string, word: string) {
    StartsWith(t, word) && EndsWord(cc, t, |word|)
  }

  /** `^(Figure|Table|Appendix|G\.\d|[A-Z]\.\d)\b` on stripped text. */
  predicate IsFigureOrReference(cc: CharClasses, text: string) {
    var t := Strip(text);
    || IsLabel(cc, t, "Figure") || IsLabel(cc, t, "Table") || IsLabel(cc, t, "Appendix")
    || (|t| >= 3 && 'A' <= t[0] <= 'Z' && t[1] == '.' && cc.isDigit(t[2]) && EndsWord(cc, t, 3))
  }

  predicate Mergeable(cc: CharClasses, p: Paragraph, q: Paragraph) {
    var a, b := Normalize(p.text), Normalize(q.text);
    && !IsHeading(p) && !IsHeading(q)
    && IsBodyStyle(p) && IsBodyStyle(q)
    && a != "" && b != "" && !IsFigureOrReference(cc, a) && !IsFigureOrReference(cc, b)
    && |a| + |b| <= 1050 && (|a| < 360 || |b| < 360)
  }

  function Merge(p: Paragraph, q: Paragraph): Paragraph {
    p.(text := Normalize(Normalize(p.text) + " " + Normalize(q.text)))
  }

  /** The pass, read from the left: a paragraph swallows its right neighbours while it can. */
  function MergePass(cc: CharClasses, ps: seq<Paragraph>): seq<Paragraph>
    decreases |ps|
  {
    if |ps| <= 1 then ps
    else if Mergeable(cc, ps[0], ps[1]) then MergePass(cc, [Merge(ps[0], ps[1])] + ps[2..])
    else [ps[0]] + MergePass(cc, ps[1..])
  }

  /** The list with the i-th paragraph rewritten and the next one deleted. */
  function ReplacePair(ps: seq<Paragraph>, i: nat, joined: Paragraph): seq<Paragraph>
    requires i + 1 < |ps|
  {
    ps[..i] + [joined] + ps[i + 2..]
  }

  /** The outcome of the pass once everything before the i-th paragraph is done. */
  function Resumed(cc: CharClasses, ps: seq<Paragraph>, i: nat): seq<Paragraph>
    requires i <= |ps|
  {
    ps[..i] + MergePass(cc, ps[i..])
  }

  lemma ResumeAfterSkip(cc: CharClasses, ps: seq<Paragraph>, i: nat)
    requires i + 1 < |ps| && !Mergeable(cc, ps[i], ps[i + 1])
    ensures Resumed(cc, ps, i + 1) == Resumed(cc, ps, i)
  {
    hide Mergeable;
    var tail := ps[i..];
    assert tail[0] == ps[i] && tail[1] == ps[i + 1] && tail[1..] == ps[i + 1..];
    assert MergePass(cc, tail) == [ps[i]] + MergePass(cc, ps[i + 1..]);
    assert ps[..i + 1] == ps[..i] + [ps[i]];
  }

  lemma ResumeAfterMerge(cc: CharClasses, ps: seq<Paragraph>, i: nat)
    requires i + 1 < |ps| && Mergeable(cc, ps[i], ps[i + 1])
    ensures Resumed(cc, ReplacePair(ps, i, Merge(ps[i], ps[i + 1])), i) == Resumed(cc, ps, i)
  {
    var m := Merge(ps[i], ps[i + 1]);
    PassAtPair(cc, ps[i..]);
    assert ps[i..][2..] == ps[i + 2..];
    PairPlaces(ps, i, m);
  }

  lemma PassAtPair(cc: CharClasses, tail: seq<Paragraph>)
    requires |tail| > 1 && Mergeable(cc, tail[0], tail[1])
    ensures MergePass(cc, tail) == MergePass(cc, [Merge(tail[0], tail[1])] + tail[2..])
  {
  }

  lemma PairPlaces(ps: seq<Paragraph>, i: nat, joined: Paragraph)
    requires i + 1 < |ps|
    ensures ReplacePair(ps, i, joined)[..i] == ps[..i]
    ensures ReplacePair(ps, i, joined)[i..] == [joined] + ps[i + 2..]
  {
  }

  lemma ResumeAtEnd(cc: CharClasses, ps: seq<Paragraph>, i: nat)
    requires i <= |ps| <= i + 1
    ensures Resumed(cc, ps, i) == ps
  {
  }

  class Document {
    var paragraphs: seq<Paragraph>

    method MergeShortScientificParagraphs(cc: CharClasses) returns (merged: nat)
      modifies this
      ensures paragraphs == MergePass(cc, old(paragraphs))
      ensures merged + |paragraphs| == old(|paragraphs|)
    {
      merged := 0;
      var i := 0;
      while i < |paragraphs| - 1
        invariant 0 <= i <= |paragraphs|
        invariant Resumed(cc, paragraphs, i) == MergePass(cc, old(paragraphs))
        invariant merged + |paragraphs| == old(|paragraphs|)
        decreases |paragraphs| - i
      {
        var p, q := paragraphs[i], paragraphs[i + 1];
        if Mergeable(cc, p, q) {
          ResumeAfterMerge(cc, paragraphs, i);
        } else {
          ResumeAfterSkip(cc, paragraphs, i);
        }
        if IsHeading(p) || IsHeading(q) {
          i := i + 1;
          continue;
        }
        if !IsBodyStyle(p) {
          i := i + 1;
          continue;
        }
        if !IsBodyStyle(q) {
          i := i + 1;
          continue;
        }
        var a, b := Normalize(p.text), Normalize(q.text);
        if a == "" || b == "" || IsFigureOrReference(cc, a) || IsFigureOrReference(cc, b) {
          i := i + 1;
          continue;
        }
        if |a| + |b| <= 1050 && (|a| < 360 || |b| < 360) {
          paragraphs := ReplacePair(paragraphs, i, p.(text := Normalize(a + " " + b)));
          merged := merged + 1;
          continue;
        }
        i := i + 1;
      }
      ResumeAtEnd(cc, paragraphs, i);
    }

    /** The driver runs the pass twice; the second run finds nothing to do. */
    method MergeTwice(cc: CharClasses) returns (merged: nat)
      requires AreCharClasses(cc)
      modifies this
      ensures paragraphs == MergePass(cc, old(paragraphs))
      ensures merged + |paragraphs| == old(|paragraphs|)
    {
      merged := MergeShortScientificParagraphs(cc);
      SecondPassIdle(cc, old(paragraphs));
      var again := MergeShortScientificParagraphs(cc);
      assert again == 0;
      merged := merged + again;
    }
  }

  // ---- Fixed point -----------------------------------------------------------------------------

  predicate Settled(cc: CharClasses, ps: seq<Paragraph>) {
    forall i :: 0 <= i < |ps| - 1 ==> !Mergeable(cc, ps[i], ps[i + 1])
  }

  /** Normalized text starts and ends with a word. */
  lemma NormalizedIsStripped(t: string)
    ensures Strip(Normalize(t)) == Normalize(t)
  {
    NormalizeIsJoinedWords(t);
    WordsAreWords(t);
    if Words(t) != [] {
      JoinEnds(Words(t));
    }
  }

  lemma LabelStays(cc: CharClasses, a: string, b: string, word: string)
    requires AreCharClasses(cc) && forall i :: 0 <= i < |word| ==> word[i] != ' '
    ensures IsLabel(cc, a + " " + b, word) <==> IsLabel(cc, a, word)
  {
    var t := a + " " + b;
    if |word| <= |a| {
      assert t[..|word|] == a[..|word|];
      assert |word| == |a| ==> t[|word|] == ' ';
    } else {
      assert t[|a|] == ' ';
      assert |word| <= |t| ==> t[..|word|][|a|] == ' ';
    }
  }

  /** Appending text after a blank does not change whether a text is a figure or a reference. */
  lemma GrowingKeepsLabel(cc: CharClasses, a: string, b: string)
    requires AreCharClasses(cc) && Strip(a) == a && Strip(a + " " + b) == a + " " + b && a != ""
    ensures IsFigureOrReference(cc, a + " " + b) <==> IsFigureOrReference(cc, a)
  {
    var t := a + " " + b;
    LabelStays(cc, a, b, "Figure");
    LabelStays(cc, a, b, "Table");
    LabelStays(cc, a, b, "Appendix");
    assert forall i :: 0 <= i < |a| ==> t[i] == a[i];
    assert t[|a|] == ' ';
  }

  /** Growing the right neighbour never makes an unmergeable pair mergeable. */
  lemma GrowingIsAntitone(cc: CharClasses, x: Paragraph, p: Paragraph, q: Paragraph)
    requires AreCharClasses(cc) && Mergeable(cc, p, q) && !Mergeable(cc, x, p)
    ensures !Mergeable(cc, x, Merge(p, q))
  {
    var a, b := Normalize(p.text), Normalize(q.text);
    var m := Merge(p, q);
    NormalizePair(p.text, q.text);
    NormalizeIdempotent(a + " " + b);
    assert Normalize(m.text) == a + " " + b;
    NormalizedIsStripped(p.text);
    NormalizedIsStripped(a + " " + b);
    GrowingKeepsLabel(cc, a, b);
  }

  lemma {:induction false} HeadStaysUnmergeable(cc: CharClasses, x: Paragraph, ps: seq<Paragraph>)
    requires AreCharClasses(cc) && ps != [] && !Mergeable(cc, x, ps[0])
    ensures MergePass(cc, ps) != [] && !Mergeable(cc, x, MergePass(cc, ps)[0])
    decreases |ps|
  {
    if |ps| > 1 && Mergeable(cc, ps[0], ps[1]) {
      GrowingIsAntitone(cc, x, ps[0], ps[1]);
      HeadStaysUnmergeable(cc, x, [Merge(ps[0], ps[1])] + ps[2..]);
    }
  }

  /** One pass reaches the fixed point: no neighbours are mergeable after it. */
  lemma {:induction false} PassSettles(cc: CharClasses, ps: seq<Paragraph>)
    requires AreCharClasses(cc)
    ensures Settled(cc, MergePass(cc, ps))
    decreases |ps|
  {
    if |ps| <= 1 {
    } else if Mergeable(cc, ps[0], ps[1]) {
      PassSettles(cc, [Merge(ps[0], ps[1])] + ps[2..]);
    } else {
      PassSettles(cc, ps[1..]);
      HeadStaysUnmergeable(cc, ps[0], ps[1..]);
    }
  }

  /** The pass leaves a settled list alone, and only a settled list. */
  lemma {:induction false} IdleExactlyWhenSettled(cc: CharClasses, ps: seq<Paragraph>)
    requires AreCharClasses(cc)
    ensures MergePass(cc, ps) == ps <==> Settled(cc, ps)
    decreases |ps|
  {
    if Settled(cc, ps) {
      if |ps| > 1 {
        assert !Mergeable(cc, ps[0], ps[1]);
        assert Settled(cc, ps[1..]);
        IdleExactlyWhenSettled(cc, ps[1..]);
      }
    } else {
      PassSettles(cc, ps);
    }
  }

  /** So the second pass of the driver changes nothing. */
  lemma SecondPassIdle(cc: CharClasses, ps: seq<Paragraph>)
    requires AreCharClasses(cc)
    ensures MergePass(cc, MergePass(cc, ps)) == MergePass(cc, ps)
  {
    PassSettles(cc, ps);
    IdleExactlyWhenSettled(cc, MergePass(cc, ps));
  }

  // ---- The limits ------------------------------------------------------------------------------

  ghost predicate IsPlainBody(cc: CharClasses, p: Paragraph) {
    && p.style in {"Body Text", "First Paragraph", "Normal"}
    && Normalize(p.text) != "" && !IsFigureOrReference(cc, Normalize(p.text))
  }

  lemma BodyIsNoHeading(p: Paragraph)
    requires IsBodyStyle(p)
    ensures !IsHeading(p)
  {
    assert "Heading"[0] == 'H' && |"Normal"| < 7;
    assert p.style == "Body Text" ==> p.style[..7][0] == 'B';
    assert p.style == "First Paragraph" ==> p.style[..7][0] == 'F';
  }

  /** Which two neighbours are joined: body text on both sides, short enough together, and one of them short
      by itself. */
  lemma PairJoinsExactly(cc: CharClasses, p: Paragraph, q: Paragraph)
    ensures var a, b := Normalize(p.text), Normalize(q.text);
      |MergePass(cc, [p, q])| == 1 <==>
      IsPlainBody(cc, p) && IsPlainBody(cc, q) && |a| + |b| <= 1050 && (|a| < 360 || |b| < 360)
  {
    if IsBodyStyle(p) { BodyIsNoHeading(p); }
    if IsBodyStyle(q) { BodyIsNoHeading(q); }
    hide IsFigureOrReference, IsHeading, Normalize;
    if Mergeable(cc, p, q) {
      assert [p, q][2..] == [];
    } else {
      assert [p, q][1..] == [q];
    }
  }

  /** After the pass, neighbouring body paragraphs are too long together, or long enough each. */
  lemma NeighboursAreLong(cc: CharClasses, ps: seq<Paragraph>, i: nat)
    requires AreCharClasses(cc) && i + 1 < |MergePass(cc, ps)|
    requires IsPlainBody(cc, MergePass(cc, ps)[i]) && IsPlainBody(cc, MergePass(cc, ps)[i + 1])
    ensures var a, b := Normalize(MergePass(cc, ps)[i].text), Normalize(MergePass(cc, ps)[i + 1].text);
      |a| + |b| > 1050 || (|a| >= 360 && |b| >= 360)
  {
    var p, q := MergePass(cc, ps)[i], MergePass(cc, ps)[i + 1];
    PassSettles(cc, ps);
    assert !Mergeable(cc, p, q);
    BodyIsNoHeading(p);
    BodyIsNoHeading(q);
  }

  /** Which text opens with a label: a label counts as a whole word only. */
  lemma LabelExactly(cc: CharClasses, word: string, rest: string)
    ensures IsLabel(cc, word + rest, word) <==> rest == "" || !cc.isWordChar(rest[0])
  {
    var t := word + rest;
    assert t[..|word|] == word;
    if rest != "" { assert t[|word|] == rest[0]; }
  }

  lemma LabelIsReference(cc: CharClasses, word: string, rest: string)
    requires word in {"Figure", "Table", "Appendix"} && Strip(word + rest) == word + rest
    requires rest == "" || !cc.isWordChar(rest[0])
    ensures IsFigureOrReference(cc, word + rest)
  {
    LabelExactly(cc, word, rest);
  }

  /** A capital, a dot and a digit open a reference too, when the word ends there. */
  lemma SectionIsReference(cc: CharClasses, t: string)
    requires Strip(t) == t && |t| >= 2 && 'A' <= t[0] <= 'Z' && t[1] == '.'
    ensures IsFigureOrReference(cc, t) <==> |t| > 2 && cc.isDigit(t[2]) && (|t| == 3 || !cc.isWordChar(t[3]))
  {
    assert !StartsWith(t, "Figure") by { if |t| >= 6 { assert t[..6][1] == '.' && "Figure"[1] == 'i'; } }
    assert !StartsWith(t, "Table") by { if |t| >= 5 { assert t[..5][1] == '.' && "Table"[1] == 'a'; } }
    assert !StartsWith(t, "Appendix") by { if |t| >= 8 { assert t[..8][1] == '.' && "Appendix"[1] == 'p'; } }
  }

  /** Any other text is none: it starts with no label and is no section number. */
  lemma PlainIsNoReference(cc: CharClasses, t: string)
    requires Strip(t) == t && |t| >= 2 && t[1] != '.'
    requires !StartsWith(t, "Figure") && !StartsWith(t, "Table") && !StartsWith(t, "Appendix")
    ensures !IsFigureOrReference(cc, t)
  {
  }

  // ---- Conservation ----------------------------------------------------------------------------

  /** The texts of the document, one after the other, separated by blanks. */
  function FullText(ps: seq<Paragraph>): string {
    if ps == [] then "" else ps[0].text + " " + FullText(ps[1..])
  }

  /** The pass conserves the normalized text of the whole document. */
  lemma {:induction false} PassConservesText(cc: CharClasses, ps: seq<Paragraph>)
    ensures Normalize(FullText(MergePass(cc, ps))) == Normalize(FullText(ps))
  {
    PassConservesWords(cc, ps);
    NormalizeIsJoinedWords(FullText(ps));
    NormalizeIsJoinedWords(FullText(MergePass(cc, ps)));
  }

  lemma FullTextCons(p: Paragraph, ps: seq<Paragraph>)
    ensures Words(FullText([p] + ps)) == Words(p.text) + Words(FullText(ps))
  {
    assert ([p] + ps)[1..] == ps;
    WordsConcat(p.text, FullText(ps));
  }

  lemma JoinedWords(m: Paragraph, p: Paragraph, q: Paragraph, rest: seq<Paragraph>)
    requires Words(m.text) == Words(p.text) + Words(q.text)
    ensures Words(FullText([m] + rest)) == Words(p.text) + Words(FullText([q] + rest))
  {
    FullTextCons(m, rest);
    FullTextCons(q, rest);
    var a, b, c := Words(p.text), Words(q.text), Words(FullText(rest));
    Regroup(a, b, c);
  }

  lemma MergedWords(cc: CharClasses, p: Paragraph, q: Paragraph)
    requires Mergeable(cc, p, q)
    ensures Words(Merge(p, q).text) == Words(p.text) + Words(q.text)
  {
    NormalizePair(p.text, q.text);
  }

  lemma HeadAndTail<T>(s: seq<T>)
    requires s != []
    ensures s == [s[0]] + s[1..]
  {
  }

  lemma {:induction false} PassConservesWords(cc: CharClasses, ps: seq<Paragraph>)
    ensures Words(FullText(MergePass(cc, ps))) == Words(FullText(ps))
    decreases |ps|
  {
    if |ps| <= 1 {
    } else {
      var rest := ps[1..];
      HeadAndTail(ps);
      HeadAndTail(rest);
      assert rest[1..] == ps[2..];
      FullTextCons(ps[0], rest);
      if Mergeable(cc, ps[0], ps[1]) {
        PassConservesWords(cc, [Merge(ps[0], ps[1])] + ps[2..]);
        MergedWords(cc, ps[0], ps[1]);
        JoinedWords(Merge(ps[0], ps[1]), ps[0], ps[1], ps[2..]);
      } else {
        PassConservesWords(cc, rest);
        FullTextCons(ps[0], MergePass(cc, rest));
      }
    }
  }

  /** Headings and every other paragraph outside the body styles, in order. */
  function Fixed(ps: seq<Paragraph>): seq<Paragraph> {
    if ps == [] then [] else (if IsBodyStyle(ps[0]) then [] else [ps[0]]) + Fixed(ps[1..])
  }

  lemma {:induction false} PassKeepsFixed(cc: CharClasses, ps: seq<Paragraph>)
    ensures Fixed(MergePass(cc, ps)) == Fixed(ps)
    decreases |ps|
  {
    if |ps| <= 1 {
    } else if Mergeable(cc, ps[0], ps[1]) {
      var longer := [Merge(ps[0], ps[1])] + ps[2..];
      PassKeepsFixed(cc, longer);
      assert longer[1..] == ps[2..] && ps[1..][1..] == ps[2..];
    } else {
      PassKeepsFixed(cc, ps[1..]);
      assert ([ps[0]] + MergePass(cc, ps[1..]))[1..] == MergePass(cc, ps[1..]);
    }
  }
}
