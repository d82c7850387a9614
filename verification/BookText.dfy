/** Text helpers of the book scripts: Python's `strip`, and `re.sub(r"\s+", " ", text).strip()`. */
module BookText {

  /** What `\s` and `str.strip` take for white space. */
  predicate IsSpace(c: char) {
    || '\U{0009}' <= c <= '\U{000D}' || '\U{001C}' <= c <= '\U{0020}' || '\U{2000}' <= c <= '\U{200A}'
    || c in {'\U{0085}', '\U{00A0}', '\U{1680}', '\U{2028}', '\U{2029}', '\U{202F}', '\U{205F}', '\U{3000}'}
  }

  predicate StartsWith(t: string, p: string) {
    |p| <= |t| && t[..|p|] == p
  }

  function SkipSpaces(t: string): (r: string)
    ensures |r| <= |t|
    ensures r != [] ==> !IsSpace(r[0])
  {
    if t != [] && IsSpace(t[0]) then SkipSpaces(t[1..]) else t
  }

  function DropTrailing(t: string): (r: string)
    ensures |r| <= |t| && r == t[..|r|]
    ensures r != [] ==> !IsSpace(r[|r| - 1])
  {
    if t != [] && IsSpace(t[|t| - 1]) then DropTrailing(t[..|t| - 1]) else t
  }

  /** `text.strip()`. */
  function Strip(t: string): string {
    DropTrailing(SkipSpaces(t))
  }

  /** `re.sub(r"\s+", " ", text)`. */
  function Collapse(t: string): string
    decreases |t|
  {
    if t == [] then []
    else if IsSpace(t[0]) then " " + Collapse(SkipSpaces(t[1..]))
    else [t[0]] + Collapse(t[1..])
  }

  function Normalize(t: string): string {
    Strip(Collapse(t))
  }

  // ---- Words -----------------------------------------------------------------------------------

  predicate IsWord(w: string) {
    w != [] && forall i :: 0 <= i < |w| ==> !IsSpace(w[i])
  }

  function WordLength(t: string): (n: nat)
    ensures n <= |t|
    ensures forall i :: 0 <= i < n ==> !IsSpace(t[i])
    ensures n < |t| ==> IsSpace(t[n])
  {
    if t == [] || IsSpace(t[0]) then 0 else 1 + WordLength(t[1..])
  }

  /** `text.split()`. */
  function Words(t: string): seq<string>
    decreases |t|
  {
    var s := SkipSpaces(t);
    if s == [] then [] else [s[..WordLength(s)]] + Words(s[WordLength(s)..])
  }

  function JoinWords(ws: seq<string>): string {
    if ws == [] then [] else if |ws| == 1 then ws[0] else ws[0] + " " + JoinWords(ws[1..])
  }

  lemma {:induction false} WordsAreWords(t: string)
    ensures forall w :: w in Words(t) ==> IsWord(w)
    decreases |t|
  {
    var s := SkipSpaces(t);
    if s == [] {
    } else {
      assert WordLength(s) > 0;
      WordsAreWords(s[WordLength(s)..]);
    }
  }

  lemma {:induction false} WordLengthOf(w: string, t: string)
    requires (forall i :: 0 <= i < |w| ==> !IsSpace(w[i])) && (t == [] || IsSpace(t[0]))
    ensures WordLength(w + t) == |w|
  {
    if w == [] {
      assert w + t == t;
    } else {
      assert (w + t)[1..] == w[1..] + t;
      WordLengthOf(w[1..], t);
    }
  }

  lemma WordsCons(w: string, t: string)
    requires IsWord(w) && (t == [] || IsSpace(t[0]))
    ensures Words(w + t) == [w] + Words(t)
  {
    assert (w + t)[0] == w[0];
    assert SkipSpaces(w + t) == w + t;
    WordLengthOf(w, t);
    assert (w + t)[..|w|] == w && (w + t)[|w|..] == t;
  }

  lemma {:induction false} WordsOfJoin(ws: seq<string>)
    requires forall w :: w in ws ==> IsWord(w)
    ensures Words(JoinWords(ws)) == ws
  {
    if ws == [] {
    } else {
      var w, rest := ws[0], ws[1..];
      assert ws == [w] + rest && w in ws;
      JoinWordsCons(w, rest);
      WordsOfJoin(rest);
      if rest == [] { WordsOfOne(w); } else { WordsOfTwo(w, JoinWords(rest)); }
    }
  }

  lemma WordsOfOne(w: string)
    requires IsWord(w)
    ensures Words(w) == [w]
  {
    WordsCons(w, []);
    assert w + [] == w;
  }

  lemma WordsOfTwo(w: string, t: string)
    requires IsWord(w)
    ensures Words(w + " " + t) == [w] + Words(t)
  {
    hide Words, WordLength, SkipSpaces;
    WordsCons(w, " " + t);
    WordsSkip(t);
    assert w + " " + t == w + (" " + t);
  }

  lemma WordsSkip(t: string)
    ensures Words(" " + t) == Words(t)
  {
    assert (" " + t)[1..] == t;
    assert SkipSpaces(" " + t) == SkipSpaces(t);
  }

  /** The first word of a text that starts with one, and the rest. */
  lemma SplitWord(t: string) returns (w: string, tail: string)
    requires t != [] && !IsSpace(t[0])
    ensures t == w + tail && IsWord(w) && (tail == [] || IsSpace(tail[0]))
    ensures Words(t) == [w] + Words(tail)
  {
    var n := WordLength(t);
    w, tail := t[..n], t[n..];
    assert w[0] == t[0];
    WordsCons(w, tail);
  }

  /** Texts joined by a blank: the words of one, then the words of the other. */
  lemma {:induction false} WordsConcat(a: string, b: string)
    ensures Words(a + " " + b) == Words(a) + Words(b)
    decreases |a|
  {
    var s, blank := SkipSpaces(a), " " + b;
    SkipConcat(a, blank);
    assert a + " " + b == a + blank;
    WordsOfSkipped(a);
    WordsOfSkipped(a + blank);
    WordsOfSkipped(blank);
    WordsSkip(b);
    if s != [] {
      var w, tail := SplitWord(s);
      assert |tail| < |a|;
      WordsConcat(tail, b);
      Regroup(w, tail, blank);
      Regroup(tail, " ", b);
      WordsConcatStep(w, tail, b, tail + blank);
    }
  }

  lemma WordsConcatStep(w: string, tail: string, b: string, rest: string)
    requires IsWord(w) && rest != [] && IsSpace(rest[0])
    requires Words(rest) == Words(tail) + Words(b)
    ensures Words(w + rest) == [w] + Words(tail) + Words(b)
  {
    WordsCons(w, rest);
    Regroup([w], Words(tail), Words(b));
  }

  lemma Regroup<T>(a: seq<T>, b: seq<T>, c: seq<T>)
    ensures a + b + c == a + (b + c)
  {
  }

  lemma WordsOfSkipped(t: string)
    ensures Words(SkipSpaces(t)) == Words(t)
  {
    assert SkipSpaces(SkipSpaces(t)) == SkipSpaces(t);
  }

  lemma {:induction false} SkipConcat(a: string, b: string)
    ensures SkipSpaces(a + b) == if SkipSpaces(a) == [] then SkipSpaces(b) else SkipSpaces(a) + b
  {
    if a == [] {
      assert a + b == b;
    } else if IsSpace(a[0]) {
      assert (a + b)[1..] == a[1..] + b;
      SkipConcat(a[1..], b);
    } else {
      assert (a + b)[0] == a[0];
    }
  }

  // ---- Normalizing is joining the words --------------------------------------------------------

  lemma {:induction false} CollapseWord(w: string, t: string)
    requires forall i :: 0 <= i < |w| ==> !IsSpace(w[i])
    ensures Collapse(w + t) == w + Collapse(t)
  {
    if w == [] {
      assert w + t == t;
    } else {
      assert (w + t)[0] == w[0] && (w + t)[1..] == w[1..] + t;
      CollapseWord(w[1..], t);
    }
  }

  predicate EndsInSpace(t: string) {
    t != [] && IsSpace(t[|t| - 1])
  }

  lemma {:induction false} CollapseShape(t: string)
    requires t != [] ==> !IsSpace(t[0])
    ensures Collapse(t) == JoinWords(Words(t)) + if EndsInSpace(t) then " " else []
    decreases |t|
  {
    if t == [] {
    } else {
      var w, tail := SplitWord(t);
      CollapseWord(w, tail);
      if tail == [] {
        assert !EndsInSpace(t);
      } else {
        var rest := SkipSpaces(tail[1..]);
        assert |rest| < |t|;
        CollapseShape(rest);
        CollapseShapeStep(w, tail, rest);
      }
    }
  }

  lemma Glue(w: string, j: string, end: string)
    ensures w + (" " + (j + end)) == w + " " + j + end
  {
  }

  lemma CollapseShapeStep(w: string, tail: string, rest: string)
    requires IsWord(w) && tail != [] && IsSpace(tail[0]) && rest == SkipSpaces(tail[1..])
    requires Collapse(rest) == JoinWords(Words(rest)) + if EndsInSpace(rest) then " " else []
    ensures w + Collapse(tail) == JoinWords([w] + Words(tail)) + if EndsInSpace(w + tail) then " " else []
  {
    hide Collapse, IsSpace, SkipSpaces, Words;
    CollapseTail(tail, rest);
    TailWords(tail, rest);
    JoinWordsCons(w, Words(rest));
    assert EndsInSpace(w + tail) <==> EndsInSpace(tail);
    if rest != [] {
      Glue(w, JoinWords(Words(rest)), if EndsInSpace(rest) then " " else []);
    }
  }

  lemma CollapseTail(tail: string, rest: string)
    requires tail != [] && IsSpace(tail[0]) && rest == SkipSpaces(tail[1..])
    ensures Collapse(tail) == " " + Collapse(rest)
    ensures EndsInSpace(tail) <==> rest == [] || EndsInSpace(rest)
  {
    SkipEnd(tail[1..]);
  }

  lemma TailWords(tail: string, rest: string)
    requires tail != [] && IsSpace(tail[0]) && rest == SkipSpaces(tail[1..])
    ensures Words(tail) == Words(rest)
    ensures Words(rest) == [] <==> rest == []
  {
    WordsOfSkipped(tail);
    assert SkipSpaces(tail) == rest;
    SkipEnd(tail[1..]);
    if rest != [] {
      var w, more := SplitWord(rest);
    }
  }

  lemma JoinWordsCons(w: string, ws: seq<string>)
    ensures JoinWords([w] + ws) == if ws == [] then w else w + " " + JoinWords(ws)
  {
    assert ([w] + ws)[1..] == ws;
  }

  lemma {:induction false} SkipEnd(t: string)
    ensures SkipSpaces(t) == [] ==> t == [] || IsSpace(t[|t| - 1])
    ensures SkipSpaces(t) != [] ==> SkipSpaces(t)[|SkipSpaces(t)| - 1] == t[|t| - 1]
  {
    if t != [] && IsSpace(t[0]) {
      SkipEnd(t[1..]);
    }
  }

  lemma {:induction false} JoinEnds(ws: seq<string>)
    requires ws != [] && forall w :: w in ws ==> IsWord(w)
    ensures var j := JoinWords(ws); j != [] && !IsSpace(j[0]) && !IsSpace(j[|j| - 1])
  {
    assert IsWord(ws[0]);
    if |ws| == 1 {
    } else {
      JoinEnds(ws[1..]);
      var j, r := JoinWords(ws), JoinWords(ws[1..]);
      assert j[|j| - 1] == r[|r| - 1];
    }
  }

  /** `normalize(text)` is `" ".join(text.split())`. */
  lemma NormalizeIsJoinedWords(t: string)
    ensures Normalize(t) == JoinWords(Words(t))
  {
    var s := SkipSpaces(t);
    WordsOfSkipped(t);
    if s == [] {
      CollapseSkip(t);
      StripSpacesOnly(Collapse(t));
    } else {
      var w, tail := SplitWord(s);
      WordsAreWords(t);
      JoinEnds(Words(t));
      CollapsePadded(t);
      StripPadded(JoinWords(Words(t)), Collapse(t));
    }
  }

  /** The words with single blanks, and possibly a blank at either end. */
  lemma CollapsePadded(t: string)
    ensures var j, c := JoinWords(Words(t)), Collapse(t);
      c == j || c == j + " " || c == " " + j || c == " " + (j + " ")
  {
    CollapseShape(SkipSpaces(t));
    WordsOfSkipped(t);
    CollapseSkip(t);
  }

  /** Leading white space collapses to at most one blank in front. */
  lemma CollapseSkip(t: string)
    ensures Collapse(t) == (if t != [] && IsSpace(t[0]) then " " else []) + Collapse(SkipSpaces(t))
  {
  }

  lemma StripSpacesOnly(c: string)
    requires c == [] || c == " "
    ensures Strip(c) == []
  {
    assert c == " " ==> SkipSpaces(c) == SkipSpaces(c[1..]) == [];
  }

  lemma StripPadded(j: string, c: string)
    requires j != [] && !IsSpace(j[0]) && !IsSpace(j[|j| - 1])
    requires c == j || c == j + " " || c == " " + j || c == " " + (j + " ")
    ensures Strip(c) == j
  {
    var d := SkipSpaces(c);
    if c[0] == ' ' {
      assert c[1..] == j || c[1..] == j + " ";
      assert d == SkipSpaces(c[1..]) == c[1..];
    }
    assert d == j || d == j + " ";
    if d == j + " " {
      assert d[..|d| - 1] == j;
      assert DropTrailing(d) == DropTrailing(j) == j;
    }
  }

  lemma WordsOfNormalized(t: string)
    ensures Words(Normalize(t)) == Words(t)
  {
    NormalizeIsJoinedWords(t);
    WordsAreWords(t);
    WordsOfJoin(Words(t));
  }

  lemma NormalizeIdempotent(t: string)
    ensures Normalize(Normalize(t)) == Normalize(t)
  {
    WordsOfNormalized(t);
    NormalizeIsJoinedWords(t);
    NormalizeIsJoinedWords(Normalize(t));
  }

  lemma {:induction false} JoinConcat(a: seq<string>, b: seq<string>)
    requires a != [] && b != []
    ensures JoinWords(a + b) == JoinWords(a) + " " + JoinWords(b)
  {
    if |a| == 1 {
      assert (a + b)[1..] == b;
    } else {
      assert (a + b)[1..] == a[1..] + b;
      JoinConcat(a[1..], b);
    }
  }

  /** Two non-empty normalized texts stay as they are when joined and normalized again. */
  lemma NormalizePair(p: string, q: string)
    requires Normalize(p) != [] && Normalize(q) != []
    ensures Normalize(Normalize(p) + " " + Normalize(q)) == Normalize(p) + " " + Normalize(q)
    ensures Words(Normalize(Normalize(p) + " " + Normalize(q))) == Words(p) + Words(q)
  {
    var t := Normalize(p) + " " + Normalize(q);
    WordsConcat(Normalize(p), Normalize(q));
    WordsOfNormalized(p);
    WordsOfNormalized(q);
    WordsOfNormalized(t);
    NormalizeIsJoinedWords(p);
    NormalizeIsJoinedWords(q);
    NormalizeIsJoinedWords(t);
    JoinConcat(Words(p), Words(q));
  }
}
