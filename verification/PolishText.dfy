/** What the cleaning of a paragraph does to its text, step by step. */
module PolishText {
  import opened BookText
  import opened ProsePolish
  import opened ProseText

  // ---- White space -----------------------------------------------------------------------------

  lemma {:induction false} InkOfCollapse(t: string)
    ensures Ink(Collapse(t)) == Ink(t)
    decreases |t|
  {
    if t == [] {
    } else if IsSpace(t[0]) {
      InkOfSkip(t[1..]);
      InkOfCollapse(SkipSpaces(t[1..]));
      assert (" " + Collapse(SkipSpaces(t[1..])))[1..] == Collapse(SkipSpaces(t[1..]));
    } else {
      InkOfCollapse(t[1..]);
      assert ([t[0]] + Collapse(t[1..]))[1..] == Collapse(t[1..]);
    }
  }

  /** Normalizing keeps every visible character. */
  lemma InkOfNormalize(t: string)
    ensures Ink(Normalize(t)) == Ink(t)
  {
    InkOfCollapse(t);
    InkOfStrip(Collapse(t));
  }

  // ---- Bullets ---------------------------------------------------------------------------------

  function LessBullets(t: string): string {
    if t == [] then [] else (if t[0] == BULLET then [] else [t[0]]) + LessBullets(t[1..])
  }

  /** Of the visible characters only the bullets go. */
  lemma {:induction false} InkOfBlankBullets(t: string)
    ensures Ink(BlankBullets(t)) == LessBullets(Ink(t))
    decreases |t|
  {
    var s := SkipSpaces(t);
    InkOfSkip(t);
    if s != [] && s[0] == BULLET {
      var rest := SkipSpaces(s[1..]);
      InkOfBlankBullets(rest);
      InkOfSkip(s[1..]);
      BulletFirst(s);
      assert (" " + BlankBullets(rest))[1..] == BlankBullets(rest);
    } else if t == [] {
    } else {
      var rest := BlankBullets(t[1..]);
      InkOfBlankBullets(t[1..]);
      assert BlankBullets(t) == [t[0]] + rest && ([t[0]] + rest)[1..] == rest;
      if IsSpace(t[0]) {
        assert Ink(t) == Ink(t[1..]) && Ink([t[0]] + rest) == Ink(rest);
      } else {
        assert s == t;
        BulletFirst(t);
      }
    }
  }

  lemma BulletFirst(s: string)
    requires s != [] && !IsSpace(s[0])
    ensures LessBullets(Ink(s)) == (if s[0] == BULLET then [] else [s[0]]) + LessBullets(Ink(s[1..]))
  {
    assert Ink(s)[1..] == Ink(s[1..]);
  }

  /** A bullet leaves exactly one blank, whatever white space is around it. */
  lemma BulletBecomesBlank(t: string)
    requires SkipSpaces(t) != [] && SkipSpaces(t)[0] == BULLET
    ensures BlankBullets(t) == " " + BlankBullets(SkipSpaces(SkipSpaces(t)[1..]))
  {
  }

  // ---- Marks -----------------------------------------------------------------------------------

  predicate IsMark(c: char) {
    c == ',' || c == '.' || c == ';' || c == ':'
  }

  /** No white space stands before a mark. */
  predicate IsTight(t: string) {
    forall i :: 0 <= i < |t| - 1 ==> IsMark(t[i + 1]) ==> !IsSpace(t[i])
  }

  lemma TightCons(c: char, t: string)
    requires IsTight(t) && (t != [] && IsMark(t[0]) ==> !IsSpace(c))
    ensures IsTight([c] + t)
  {
    var u := [c] + t;
    assert forall i :: 1 <= i < |u| ==> u[i] == t[i - 1];
  }

  lemma {:induction false} TightenTightens(t: string)
    ensures IsTight(TightenMarks(t)) && Ink(TightenMarks(t)) == Ink(t)
    ensures t != [] && !IsSpace(t[0]) ==> TightenMarks(t) != [] && TightenMarks(t)[0] == t[0]
    ensures TightenMarks(t) != [] && IsMark(TightenMarks(t)[0]) ==> SkipSpaces(t) != [] && IsMark(SkipSpaces(t)[0])
    decreases |t|
  {
    var s := SkipSpaces(t);
    InkOfSkip(t);
    if t == [] {
    } else if |s| < |t| && s != [] && s[0] in {',', '.', ';', ':'} {
      TightenTightens(s[1..]);
      TightCons(s[0], TightenMarks(s[1..]));
      assert ([s[0]] + TightenMarks(s[1..]))[1..] == TightenMarks(s[1..]);
    } else {
      TightenTightens(t[1..]);
      TightCons(t[0], TightenMarks(t[1..]));
      assert ([t[0]] + TightenMarks(t[1..]))[1..] == TightenMarks(t[1..]);
    }
  }

  /** Text that is tight already stays as it is. */
  lemma {:induction false} TightStays(t: string)
    requires IsTight(t)
    ensures TightenMarks(t) == t
    decreases |t|
  {
    if t != [] {
      var s := SkipSpaces(t);
      assert forall i :: 0 <= i < |t[1..]| ==> t[1..][i] == t[i + 1];
      SkipIsSuffix(t);
      if |s| < |t| && s != [] {
        SkippedAreSpaces(t);
        var k := |t| - |s| - 1;
        assert s[0] == t[k + 1] && IsSpace(t[k]);
      }
      TightStays(t[1..]);
    }
  }

  lemma {:induction false} SkippedAreSpaces(t: string)
    ensures forall i :: 0 <= i < |t| - |SkipSpaces(t)| ==> IsSpace(t[i])
  {
    if t != [] && IsSpace(t[0]) {
      SkippedAreSpaces(t[1..]);
      assert forall i :: 1 <= i < |t| ==> t[i] == t[1..][i - 1];
    }
  }

  /** Without a bullet there is nothing to blank. */
  lemma {:induction false} NoBulletStays(t: string)
    requires NoBullet(t)
    ensures BlankBullets(t) == t
  {
    if t != [] {
      SkipNoBullet(t);
      assert NoBullet(t[1..]);
      NoBulletStays(t[1..]);
    }
  }

  // ---- Items -----------------------------------------------------------------------------------

  lemma {:induction false} SkipExactly(t: string, k: nat)
    requires k <= |t| && (forall i :: 0 <= i < k ==> IsSpace(t[i])) && (k < |t| ==> !IsSpace(t[k]))
    ensures SkipSpaces(t) == t[k..]
  {
    if k > 0 {
      assert forall i :: 0 <= i < |t[1..]| ==> t[1..][i] == t[i + 1];
      SkipExactly(t[1..], k - 1);
    }
  }

  /** A mark at the start of an item goes with the white space behind it. */
  lemma LeadGoesWithItsSpace(text: string, k: nat)
    requires var t := CleanText(text); 1 <= k <= |t| && IsLead(t[0])
    requires var t := CleanText(text); (forall i :: 1 <= i < k ==> IsSpace(t[i])) && (k < |t| ==> !IsSpace(t[k]))
    ensures CleanItem(text) == DropMarks(CleanText(text)[k..])
  {
    hide CleanText;
    var t := CleanText(text);
    SkipExactly(t[1..], k - 1);
    assert t[1..][k - 1..] == t[k..];
  }

  /** The marks that go: bullets, both dashes and the backslash, but neither the hyphen nor a capital. */
  lemma LeadsExactly()
    ensures IsLead('\U{2022}') && IsLead('\U{2013}') && IsLead('\U{2014}') && IsLead('\\')
    ensures !IsLead('-') && forall c :: 'A' <= c <= 'Z' || '0' <= c <= '9' ==> !IsLead(c)
  {
  }

  // ---- Phrases ---------------------------------------------------------------------------------

  /** `old in text`. */
  ghost predicate Occurs(t: string, p: string) {
    exists k: nat :: OccursAt(t, p, k)
  }

  /** Text without the phrase stays as it is. */
  lemma {:induction false} ReplaceNone(t: string, from: string, sub: string)
    requires from != [] && !Occurs(t, from)
    ensures Replace(t, from, sub) == t
  {
    if t != [] {
      assert !OccursAt(t, from, 0);
      forall k: nat
        ensures !OccursAt(t[1..], from, k)
      {
        OccursLater(t, from, k);
        assert !OccursAt(t, from, k + 1);
      }
      ReplaceNone(t[1..], from, sub);
    }
  }

  /** The first occurrence is replaced, and then the text behind it is treated alike. */
  lemma {:induction false} ReplaceFirst(t: string, from: string, sub: string, k: nat)
    requires from != [] && OccursAt(t, from, k) && forall m: nat :: m < k ==> !OccursAt(t, from, m)
    ensures Replace(t, from, sub) == t[..k] + sub + Replace(t[k + |from|..], from, sub)
  {
    hide OccursAt, Replace;
    OccursWithin(t, from, k);
    if k == 0 {
      ReplaceHere(t, from, sub);
    } else {
      assert !OccursAt(t, from, 0);
      ReplaceSkip(t, from, sub);
      forall m: nat | m < k
        ensures OccursAt(t[1..], from, m) == OccursAt(t, from, m + 1)
      {
        OccursLater(t, from, m);
      }
      ReplaceFirst(t[1..], from, sub, k - 1);
      FirstBehind(t, k, |from|);
      Regroup([t[0]], t[1..][..k - 1], sub, Replace(t[k + |from|..], from, sub));
    }
  }

  lemma ReplaceHere(t: string, from: string, sub: string)
    requires from != [] && OccursAt(t, from, 0)
    ensures Replace(t, from, sub) == t[..0] + sub + Replace(t[0 + |from|..], from, sub)
  {
    assert StartsWith(t, from) && t[..0] + sub == sub;
  }

  lemma Regroup(a: string, b: string, c: string, d: string)
    ensures a + (b + c + d) == (a + b) + c + d
  {
  }

  lemma ReplaceSkip(t: string, from: string, sub: string)
    requires t != [] && from != [] && !OccursAt(t, from, 0)
    ensures Replace(t, from, sub) == [t[0]] + Replace(t[1..], from, sub)
  {
  }

  lemma OccursWithin(t: string, p: string, k: nat)
    requires OccursAt(t, p, k)
    ensures k + |p| <= |t|
  {
  }

  lemma OccursLater(t: string, p: string, m: nat)
    requires t != []
    ensures OccursAt(t[1..], p, m) == OccursAt(t, p, m + 1)
  {
    if m + |p| < |t| { assert t[1..][m..m + |p|] == t[m + 1..m + 1 + |p|]; }
  }

  lemma FirstBehind(t: string, k: nat, n: nat)
    requires 0 < k && k + n <= |t|
    ensures t[1..][k - 1 + n..] == t[k + n..] && t[..k] == [t[0]] + t[1..][..k - 1]
  {
  }

  /** None of the six phrases that the script replaces. */
  ghost predicate IsPlain(t: string) {
    && !Occurs(t, "These systems matter.") && !Occurs(t, "These mechanisms matter.")
    && !Occurs(t, "This phrase matters.") && !Occurs(t, "That phrase matters.")
    && !Occurs(t, " matter.") && !Occurs(t, " matter ")
  }

  /** Cleaning touches only bullets, loose marks, white space and the six phrases. */
  lemma PlainTextStays(text: string)
    requires Normalize(text) == text && NoBullet(text) && IsTight(text) && IsPlain(text)
    ensures CleanText(text) == text
  {
    hide BlankBullets, IsTight, Normalize, Occurs, Replace, TightenMarks;
    NoBulletStays(text);
    TightStays(text);
    ReplaceNone(text, "These systems matter.", "These systems remain necessary.");
    ReplaceNone(text, "These mechanisms matter.", "These mechanisms remain necessary.");
    ReplaceNone(text, "This phrase matters.", "This phrase carries weight.");
    ReplaceNone(text, "That phrase matters.", "That phrase carries weight.");
    ReplaceNone(text, " matter.", " are consequential.");
    ReplaceNone(text, " matter ", " carry consequence ");
  }

  /** A text without the phrases keeps every visible character but the bullets, and gets no other. */
  lemma CleanTextKeepsInk(text: string)
    requires IsPlain(TightenMarks(BlankBullets(Normalize(text))))
    ensures Ink(CleanText(text)) == LessBullets(Ink(text))
  {
    hide BlankBullets, IsTight, Normalize, Occurs, Replace, TightenMarks;
    var t := TightenMarks(BlankBullets(Normalize(text)));
    InkOfNormalize(text);
    InkOfBlankBullets(Normalize(text));
    TightenTightens(BlankBullets(Normalize(text)));
    InkOfNormalize(t);
    ReplaceNone(t, "These systems matter.", "These systems remain necessary.");
    ReplaceNone(t, "These mechanisms matter.", "These mechanisms remain necessary.");
    ReplaceNone(t, "This phrase matters.", "This phrase carries weight.");
    ReplaceNone(t, "That phrase matters.", "That phrase carries weight.");
    ReplaceNone(t, " matter.", " are consequential.");
    ReplaceNone(t, " matter ", " carry consequence ");
  }
}
