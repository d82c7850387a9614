/** The repetition detector: cosine similarity of word counters, over exact reals. */
module Similarity {

  datatype Entry = Entry(word: string, count: nat)

  /** A `Counter` in its insertion order; each word occurs once. */
  predicate IsCounter(c: seq<Entry>) {
    forall i, j :: 0 <= i < j < |c| ==> c[i].word != c[j].word
  }

  /** `b.get(k, 0)`. */
  function Get(b: seq<Entry>, k: string): nat {
    if b == [] then 0 else if b[0].word == k then b[0].count else Get(b[1..], k)
  }

  /** `sum(v * b.get(k, 0) for k, v in a.items())`: a sum over the words of one counter only. */
  function Dot(a: seq<Entry>, b: seq<Entry>): nat {
    if a == [] then 0 else a[0].count * Get(b, a[0].word) + Dot(a[1..], b)
  }

  /** `sum(v * v for v in a.values())`. */
  function SquareSum(a: seq<Entry>): nat {
    if a == [] then 0 else a[0].count * a[0].count + SquareSum(a[1..])
  }

  /** `math.sqrt` without rounding. */
  ghost predicate IsSquareRoot(sqrt: real -> real) {
    forall x :: x >= 0.0 ==> sqrt(x) >= 0.0 && sqrt(x) * sqrt(x) == x
  }

  /** `dot / (na * nb)`, by the square sums of the two counters. */
  function Score(dot: nat, s: nat, t: nat, sqrt: real -> real): real
    requires IsSquareRoot(sqrt) && s > 0 && t > 0
  {
    var na, nb := sqrt(s as real), sqrt(t as real);
    RootPositive(s as real, sqrt);
    RootPositive(t as real, sqrt);
    ProductPositive(na, nb);
    dot as real / (na * nb)
  }

  function Cosine(a: seq<Entry>, b: seq<Entry>, sqrt: real -> real): real
    requires IsCounter(a) && IsCounter(b) && IsSquareRoot(sqrt)
  {
    var dot := Dot(a, b);
    if dot == 0 then 0.0
    else
      NormsArePositive(a, b);
      Score(dot, SquareSum(a), SquareSum(b), sqrt)
  }

  // ---- Symmetry --------------------------------------------------------------------------------

  predicate Has(b: seq<Entry>, k: string) {
    exists i :: 0 <= i < |b| && b[i].word == k
  }

  lemma {:induction false} GetAbsent(b: seq<Entry>, k: string)
    requires !Has(b, k)
    ensures Get(b, k) == 0
  {
    if b != [] {
      assert b[0].word != k;
      assert forall i :: 0 <= i < |b[1..]| ==> b[1..][i] == b[i + 1];
      GetAbsent(b[1..], k);
    }
  }

  lemma {:induction false} DotEmpty(a: seq<Entry>)
    ensures Dot(a, []) == 0
  {
    if a != [] { DotEmpty(a[1..]); }
  }

  /** One more word on the right adds its count times the left count. */
  lemma {:induction false} DotRight(a: seq<Entry>, x: Entry, b: seq<Entry>)
    requires IsCounter(a) && IsCounter([x] + b)
    ensures Dot(a, [x] + b) == Get(a, x.word) * x.count + Dot(a, b)
  {
    if a != [] {
      assert a == [a[0]] + a[1..];
      HeadIsAbsent(a[0], a[1..]);
      DotRight(a[1..], x, b);
      assert ([x] + b)[1..] == b;
      HeadIsAbsent(x, b);
      if a[0].word == x.word {
        GetAbsent(a[1..], x.word);
        GetAbsent(b, x.word);
      }
    }
  }

  lemma HeadIsAbsent(x: Entry, b: seq<Entry>)
    requires IsCounter([x] + b)
    ensures !Has(b, x.word) && IsCounter(b)
  {
    var a := [x] + b;
    assert a[0] == x && forall i :: 0 <= i < |b| ==> b[i] == a[i + 1];
  }

  /** The sum runs over one counter's words only, and yet the order does not matter. */
  lemma {:induction false} DotSymmetric(a: seq<Entry>, b: seq<Entry>)
    requires IsCounter(a) && IsCounter(b)
    ensures Dot(a, b) == Dot(b, a)
  {
    hide Get;
    if a == [] {
      DotEmpty(b);
    } else {
      hide Dot, IsCounter;
      DotFirst(a, b);
      DotRight(b, a[0], a[1..]);
      DotSymmetric(a[1..], b);
    }
  }

  lemma DotFirst(a: seq<Entry>, b: seq<Entry>)
    requires IsCounter(a) && a != []
    ensures a == [a[0]] + a[1..] && IsCounter(a[1..])
    ensures Dot(a, b) == a[0].count * Get(b, a[0].word) + Dot(a[1..], b)
  {
    HeadIsAbsent(a[0], a[1..]) by { assert a == [a[0]] + a[1..]; }
  }

  // ---- Cauchy-Schwarz --------------------------------------------------------------------------

  function Without(b: seq<Entry>, k: string): seq<Entry> {
    if b == [] then [] else if b[0].word == k then b[1..] else [b[0]] + Without(b[1..], k)
  }

  lemma {:induction false} WithoutHas(b: seq<Entry>, k: string, w: string)
    requires Has(Without(b, k), w)
    ensures Has(b, w)
  {
    var rest := Without(b, k);
    var i :| 0 <= i < |rest| && rest[i].word == w;
    if b[0].word == k {
      assert b[i + 1].word == w;
    } else if i == 0 {
      assert b[0].word == w;
    } else {
      assert Without(b[1..], k)[i - 1].word == w;
      WithoutHas(b[1..], k, w);
      var j :| 0 <= j < |b[1..]| && b[1..][j].word == w;
      assert b[j + 1].word == w;
    }
  }

  lemma {:induction false} WithoutIsCounter(b: seq<Entry>, k: string)
    requires IsCounter(b)
    ensures IsCounter(Without(b, k))
  {
    if b != [] && b[0].word != k {
      var rest := Without(b[1..], k);
      assert IsCounter(b[1..]);
      WithoutIsCounter(b[1..], k);
      forall i | 0 <= i < |rest|
        ensures rest[i].word != b[0].word
      {
        assert Has(rest, rest[i].word);
        WithoutHas(b[1..], k, rest[i].word);
        var j :| 0 <= j < |b[1..]| && b[1..][j].word == rest[i].word;
        assert b[j + 1].word != b[0].word;
      }
    }
  }

  lemma {:induction false} WithoutSquare(b: seq<Entry>, k: string)
    ensures SquareSum(b) == Get(b, k) * Get(b, k) + SquareSum(Without(b, k))
  {
    if b != [] && b[0].word != k {
      WithoutSquare(b[1..], k);
      assert ([b[0]] + Without(b[1..], k))[1..] == Without(b[1..], k);
    }
  }

  lemma {:induction false} GetWithout(b: seq<Entry>, k: string, w: string)
    requires w != k
    ensures Get(Without(b, k), w) == Get(b, w)
  {
    if b != [] && b[0].word != k {
      GetWithout(b[1..], k, w);
      assert ([b[0]] + Without(b[1..], k))[1..] == Without(b[1..], k);
    }
  }

  lemma {:induction false} DotWithout(a: seq<Entry>, b: seq<Entry>, k: string)
    requires !Has(a, k)
    ensures Dot(a, Without(b, k)) == Dot(a, b)
  {
    if a != [] {
      assert a[0].word != k;
      assert forall i :: 0 <= i < |a[1..]| ==> a[1..][i] == a[i + 1];
      GetWithout(b, k, a[0].word);
      DotWithout(a[1..], b, k);
    }
  }

  lemma SquareStrict(p: nat, q: nat)
    requires q < p
    ensures q * q < p * p
  {
    assert p * p == q * q + (p - q) * (p + q);
  }

  lemma SquareMonotone(p: nat, q: nat)
    requires p * p <= q * q
    ensures p <= q
  {
    if q < p { SquareStrict(p, q); }
  }

  lemma Regroup(p: nat, q: nat, r: nat, s: nat)
    ensures (p * q) * (r * s) == (p * r) * (q * s)
  {
  }

  lemma MultiplyBoth(c: nat, p: nat, q: nat)
    requires p <= q
    ensures c * p <= c * q
  {
  }

  lemma MeanOfTwo(u: nat, v: nat, w: nat)
    requires w * w <= u * v
    ensures 2 * w <= u + v
  {
    var difference := (u - v) * (u - v);
    assert difference >= 0;
    assert (u + v) * (u + v) == difference + 4 * (u * v);
    assert (2 * w) * (2 * w) == 4 * (w * w);
    SquareMonotone(2 * w, u + v);
  }

  /** Twice the product is at most the sum of squares, weighted. */
  lemma WeightedMean(x: nat, y: nat, d: nat, s: nat, t: nat)
    requires d * d <= s * t
    ensures 2 * (x * y * d) <= x * x * t + y * y * s
  {
    var xx, yy, w := x * x, y * y, x * y;
    Regroup(x, y, x, y);
    Regroup(w, d, w, d);
    Regroup(xx, t, yy, s);
    MultiplyBoth(xx * yy, d * d, s * t);
    MeanOfTwo(xx * t, yy * s, w * d);
  }

  lemma AddTerm(x: nat, y: nat, d: nat, s: nat, t: nat)
    requires d * d <= s * t
    ensures (x * y + d) * (x * y + d) <= (x * x + s) * (y * y + t)
  {
    WeightedMean(x, y, d, s, t);
    assert (x * y + d) * (x * y + d) == (x * y) * (x * y) + 2 * (x * y * d) + d * d;
    assert (x * x + s) * (y * y + t) == (x * y) * (x * y) + x * x * t + y * y * s + s * t;
  }

  /** The square of the dot product is at most the product of the square sums. */
  lemma {:induction false} CauchySchwarz(a: seq<Entry>, b: seq<Entry>)
    requires IsCounter(a) && IsCounter(b)
    ensures Dot(a, b) * Dot(a, b) <= SquareSum(a) * SquareSum(b)
  {
    if a == [] {
    } else {
      var x, k := a[0].count, a[0].word;
      var y, rest := Get(b, k), Without(b, k);
      assert a == [a[0]] + a[1..];
      HeadIsAbsent(a[0], a[1..]);
      WithoutIsCounter(b, k);
      WithoutSquare(b, k);
      DotWithout(a[1..], b, k);
      CauchySchwarz(a[1..], rest);
      AddTerm(x, y, Dot(a[1..], rest), SquareSum(a[1..]), SquareSum(rest));
    }
  }

  // ---- The score -------------------------------------------------------------------------------

  /** After the guard on the dot product, neither norm is zero. */
  lemma NormsArePositive(a: seq<Entry>, b: seq<Entry>)
    requires IsCounter(a) && IsCounter(b) && Dot(a, b) != 0
    ensures SquareSum(a) > 0 && SquareSum(b) > 0
  {
    CauchySchwarz(a, b);
    assert Dot(a, b) * Dot(a, b) > 0;
  }

  lemma RootPositive(x: real, sqrt: real -> real)
    requires IsSquareRoot(sqrt) && x > 0.0
    ensures sqrt(x) > 0.0
  {
    assert sqrt(x) * sqrt(x) == x;
  }

  lemma ProductPositive(x: real, y: real)
    requires x > 0.0 && y > 0.0
    ensures x * y > 0.0
  {
  }

  lemma RealSquareStrict(p: real, q: real)
    requires 0.0 <= q < p
    ensures q * q < p * p
  {
    assert p * p == q * q + (p - q) * (p + q);
    ProductPositive(p - q, p + q);
  }

  lemma RealSquareMonotone(p: real, q: real)
    requires p >= 0.0 && q >= 0.0 && p * p <= q * q
    ensures p <= q
  {
    if q < p { RealSquareStrict(p, q); }
  }

  lemma QuotientTimes(d: real, n: real)
    requires n != 0.0
    ensures d / n * n == d
  {
  }

  /** Times the product of the two norms, the score is the dot product. */
  lemma CosineExactly(a: seq<Entry>, b: seq<Entry>, sqrt: real -> real)
    requires IsCounter(a) && IsCounter(b) && IsSquareRoot(sqrt)
    ensures Cosine(a, b, sqrt) * (sqrt(SquareSum(a) as real) * sqrt(SquareSum(b) as real)) == Dot(a, b) as real
  {
    hide Dot, IsCounter, IsSquareRoot, Score, SquareSum;
    if Dot(a, b) != 0 {
      NormsArePositive(a, b);
      ScoreTimes(Dot(a, b), SquareSum(a), SquareSum(b), sqrt);
    }
  }

  lemma ScoreTimes(dot: nat, s: nat, t: nat, sqrt: real -> real)
    requires IsSquareRoot(sqrt) && s > 0 && t > 0
    ensures Score(dot, s, t, sqrt) * (sqrt(s as real) * sqrt(t as real)) == dot as real
  {
    RootPositive(s as real, sqrt);
    RootPositive(t as real, sqrt);
    ProductPositive(sqrt(s as real), sqrt(t as real));
    QuotientTimes(dot as real, sqrt(s as real) * sqrt(t as real));
  }

  /** The score lies between 0 and 1. */
  lemma CosineInUnitRange(a: seq<Entry>, b: seq<Entry>, sqrt: real -> real)
    requires IsCounter(a) && IsCounter(b) && IsSquareRoot(sqrt)
    ensures 0.0 <= Cosine(a, b, sqrt) <= 1.0
  {
    hide Dot, IsCounter, IsSquareRoot, Score, SquareSum;
    if Dot(a, b) != 0 {
      NormsArePositive(a, b);
      CauchySchwarz(a, b);
      ScoreInUnitRange(Dot(a, b), SquareSum(a), SquareSum(b), sqrt);
    }
  }

  lemma ScoreInUnitRange(d: nat, s: nat, t: nat, sqrt: real -> real)
    requires IsSquareRoot(sqrt) && s > 0 && t > 0 && d * d <= s * t
    ensures 0.0 <= Score(d, s, t, sqrt) <= 1.0
  {
    var p, q := sqrt(s as real), sqrt(t as real);
    assert p * p == s as real && q * q == t as real;
    RootPositive(s as real, sqrt);
    RootPositive(t as real, sqrt);
    CastSquare(d, s, t);
    QuotientOfRoots(d as real, p, q, s as real, t as real);
  }

  lemma QuotientOfRoots(d: real, p: real, q: real, s: real, t: real)
    requires p > 0.0 && q > 0.0 && p * p == s && q * q == t && d >= 0.0 && d * d <= s * t
    ensures p * q > 0.0 && 0.0 <= d / (p * q) <= 1.0
  {
    ProductPositive(p, q);
    ProductOfRoots(p, q, s, t);
    RealSquareMonotone(d, p * q);
    QuotientRange(d, p * q);
  }

  lemma CastSquare(d: nat, s: nat, t: nat)
    requires d * d <= s * t
    ensures d as real * d as real <= s as real * t as real
  {
    assert (d * d) as real == d as real * d as real;
    assert (s * t) as real == s as real * t as real;
  }

  lemma ProductOfRoots(p: real, q: real, s: real, t: real)
    requires p * p == s && q * q == t
    ensures (p * q) * (p * q) == s * t
  {
    assert (p * q) * (p * q) == (p * p) * (q * q);
  }

  lemma QuotientRange(d: real, n: real)
    requires 0.0 <= d <= n && n > 0.0
    ensures 0.0 <= d / n <= 1.0
  {
    var r := d / n;
    assert r * n == d;
    if r > 1.0 {
      ProductPositive(r - 1.0, n);
    } else if r < 0.0 {
      ProductPositive(0.0 - r, n);
    }
  }

  /** The score does not depend on the order of its arguments. */
  lemma CosineSymmetric(a: seq<Entry>, b: seq<Entry>, sqrt: real -> real)
    requires IsCounter(a) && IsCounter(b) && IsSquareRoot(sqrt)
    ensures Cosine(a, b, sqrt) == Cosine(b, a, sqrt)
  {
    DotSymmetric(a, b);
    if Dot(a, b) != 0 {
      NormsArePositive(a, b);
      ScoreSymmetric(Dot(a, b), SquareSum(a), SquareSum(b), sqrt);
    }
  }

  lemma ScoreSymmetric(dot: nat, s: nat, t: nat, sqrt: real -> real)
    requires IsSquareRoot(sqrt) && s > 0 && t > 0
    ensures Score(dot, s, t, sqrt) == Score(dot, t, s, sqrt)
  {
  }

  predicate IsPositive(c: seq<Entry>) {
    forall i :: 0 <= i < |c| ==> c[i].count > 0
  }

  lemma {:induction false} DotZero(a: seq<Entry>, b: seq<Entry>)
    requires IsPositive(a) && IsPositive(b)
    ensures Dot(a, b) == 0 <==> forall i :: 0 <= i < |a| ==> !Has(b, a[i].word)
  {
    if a != [] {
      DotZero(a[1..], b);
      assert forall i :: 0 <= i < |a[1..]| ==> a[1..][i] == a[i + 1];
      if Has(b, a[0].word) {
        GetPresent(b, a[0].word);
        assert a[0].count * Get(b, a[0].word) > 0;
      } else {
        GetAbsent(b, a[0].word);
        assert (forall i :: 0 <= i < |a| ==> !Has(b, a[i].word)) <==>
               (forall i :: 0 <= i < |a[1..]| ==> !Has(b, a[1..][i].word)) by {
          assert forall i :: 1 <= i < |a| ==> a[i] == a[1..][i - 1];
        }
      }
    }
  }

  lemma {:induction false} GetPresent(b: seq<Entry>, k: string)
    requires IsPositive(b) && Has(b, k)
    ensures Get(b, k) > 0
  {
    if b[0].word != k {
      var i :| 0 <= i < |b| && b[i].word == k;
      assert b[1..][i - 1].word == k;
      GetPresent(b[1..], k);
    }
  }

  lemma ScorePositive(dot: nat, s: nat, t: nat, sqrt: real -> real)
    requires IsSquareRoot(sqrt) && s > 0 && t > 0 && dot > 0
    ensures Score(dot, s, t, sqrt) > 0.0
  {
    RootPositive(s as real, sqrt);
    RootPositive(t as real, sqrt);
    ProductPositive(sqrt(s as real), sqrt(t as real));
  }

  /** The score of two counters of real words is zero exactly when they share no word. */
  lemma CosineZero(a: seq<Entry>, b: seq<Entry>, sqrt: real -> real)
    requires IsCounter(a) && IsCounter(b) && IsSquareRoot(sqrt) && IsPositive(a) && IsPositive(b)
    ensures Cosine(a, b, sqrt) == 0.0 <==> forall i :: 0 <= i < |a| ==> !Has(b, a[i].word)
  {
    DotZero(a, b);
    if Dot(a, b) != 0 {
      NormsArePositive(a, b);
      ScorePositive(Dot(a, b), SquareSum(a), SquareSum(b), sqrt);
    }
  }

  ghost predicate SameCounts(a: seq<Entry>, b: seq<Entry>) {
    forall k :: Get(a, k) == Get(b, k)
  }

  lemma {:induction false} DotSelf(a: seq<Entry>, b: seq<Entry>)
    requires IsCounter(a) && forall i :: 0 <= i < |a| ==> Get(b, a[i].word) == a[i].count
    ensures Dot(a, b) == SquareSum(a)
  {
    if a != [] {
      assert forall i :: 0 <= i < |a[1..]| ==> a[1..][i] == a[i + 1];
      DotSelf(a[1..], b);
    }
  }

  lemma {:induction false} GetOwn(a: seq<Entry>, i: nat)
    requires IsCounter(a) && i < |a|
    ensures Get(a, a[i].word) == a[i].count
  {
    if i > 0 {
      assert a[1..][i - 1] == a[i];
      GetOwn(a[1..], i - 1);
    }
  }

  lemma SelfScore(s: nat, sqrt: real -> real)
    requires IsSquareRoot(sqrt) && s > 0
    ensures Score(s, s, s, sqrt) == 1.0
  {
    var r := sqrt(s as real);
    RootPositive(s as real, sqrt);
    ProductPositive(r, r);
    QuotientOfEqual(s as real, r * r);
  }

  lemma QuotientOfEqual(d: real, n: real)
    requires n > 0.0 && d == n
    ensures d / n == 1.0
  {
    assert d / n * n == d;
  }

  lemma SameGets(a: seq<Entry>, b: seq<Entry>)
    requires IsCounter(a) && SameCounts(a, b)
    ensures Dot(a, b) == SquareSum(a)
  {
    forall i | 0 <= i < |a|
      ensures Get(b, a[i].word) == a[i].count
    {
      GetOwn(a, i);
    }
    DotSelf(a, b);
  }

  /** Equal counters, in any insertion order, score 1 unless they are empty of counts. */
  lemma CosineOfEqual(a: seq<Entry>, b: seq<Entry>, sqrt: real -> real)
    requires IsCounter(a) && IsCounter(b) && IsSquareRoot(sqrt) && SameCounts(a, b)
    ensures Cosine(a, b, sqrt) == if SquareSum(a) == 0 then 0.0 else 1.0
  {
    SameGets(a, b);
    SameGets(b, a);
    DotSymmetric(a, b);
    if SquareSum(a) != 0 {
      SelfScore(SquareSum(a), sqrt);
    }
  }

  // ---- The pair loop ---------------------------------------------------------------------------

  /** The dot product is not zero and reaches 0.47 times the product of the norms. */
  predicate Repeats(a: seq<Entry>, b: seq<Entry>, sqrt: real -> real) {
    && Dot(a, b) != 0
    && Dot(a, b) as real >= 0.47 * (sqrt(SquareSum(a) as real) * sqrt(SquareSum(b) as real))
  }

  /** The threshold on the score is one on the dot product. */
  lemma RepeatsExactly(a: seq<Entry>, b: seq<Entry>, sqrt: real -> real)
    requires IsCounter(a) && IsCounter(b) && IsSquareRoot(sqrt)
    ensures Cosine(a, b, sqrt) >= 0.47 <==> Repeats(a, b, sqrt)
  {
    hide Dot, IsCounter, IsSquareRoot, SquareSum;
    if Dot(a, b) != 0 {
      NormsArePositive(a, b);
      ScoreReaches(Dot(a, b), SquareSum(a), SquareSum(b), 0.47, sqrt);
    }
  }

  lemma ScoreReaches(dot: nat, s: nat, t: nat, limit: real, sqrt: real -> real)
    requires IsSquareRoot(sqrt) && s > 0 && t > 0
    ensures Score(dot, s, t, sqrt) >= limit <==> dot as real >= limit * (sqrt(s as real) * sqrt(t as real))
  {
    RootPositive(s as real, sqrt);
    RootPositive(t as real, sqrt);
    ProductPositive(sqrt(s as real), sqrt(t as real));
    QuotientReaches(dot as real, sqrt(s as real) * sqrt(t as real), limit);
  }

  lemma QuotientReaches(d: real, n: real, limit: real)
    requires n > 0.0
    ensures d / n >= limit <==> d >= limit * n
  {
    QuotientTimes(d, n);
    if d / n < limit { ProductPositive(limit - d / n, n); }
  }

  /** The pairs before (i, j) in the order of the loops. */
  predicate IsBefore(p: nat, q: nat, i: nat, j: nat) {
    p < i || (p == i && q < j)
  }

  /** The pairs reported so far are those that repeat, each once. */
  ghost predicate IsReport(cs: seq<seq<Entry>>, sqrt: real -> real, pairs: seq<(nat, nat)>, i: nat, j: nat) {
    && (forall p: nat, q: nat :: (p, q) in pairs <==>
          p < q < |cs| && IsBefore(p, q, i, j) && Repeats(cs[p], cs[q], sqrt))
    && (forall m, n :: 0 <= m < n < |pairs| ==> pairs[m] != pairs[n])
  }

  lemma ReportGrows(cs: seq<seq<Entry>>, sqrt: real -> real, pairs: seq<(nat, nat)>, i: nat, j: nat)
    requires i < j < |cs| && IsReport(cs, sqrt, pairs, i, j)
    ensures IsReport(cs, sqrt, if Repeats(cs[i], cs[j], sqrt) then pairs + [(i, j)] else pairs, i, j + 1)
  {
    hide Repeats;
    assert (i, j) !in pairs;
    var longer := pairs + [(i, j)];
    assert forall p: nat, q: nat :: (p, q) in longer <==> (p, q) in pairs || (p == i && q == j);
  }

  lemma RowIsDone(cs: seq<seq<Entry>>, sqrt: real -> real, pairs: seq<(nat, nat)>, i: nat)
    requires i < |cs| && IsReport(cs, sqrt, pairs, i, |cs|)
    ensures IsReport(cs, sqrt, pairs, i + 1, i + 2)
  {
    hide Repeats;
  }

  /** Every unordered pair is scored once; exactly the pairs whose score reaches the threshold are
      reported. */
  method RepeatedPairs(cs: seq<seq<Entry>>, sqrt: real -> real) returns (pairs: seq<(nat, nat)>)
    requires IsSquareRoot(sqrt) && forall k :: 0 <= k < |cs| ==> IsCounter(cs[k])
    ensures forall i, j :: (i, j) in pairs ==> i < j < |cs| && Repeats(cs[i], cs[j], sqrt)
    ensures forall i: nat, j: nat :: i < j < |cs| && Repeats(cs[i], cs[j], sqrt) ==> (i, j) in pairs
    ensures forall m, n :: 0 <= m < n < |pairs| ==> pairs[m] != pairs[n]
  {
    hide Cosine, IsCounter, IsReport, IsSquareRoot, Repeats;
    pairs := [];
    assert IsReport(cs, sqrt, pairs, 0, 1) by { NothingYet(cs, sqrt); }
    for i := 0 to |cs|
      invariant IsReport(cs, sqrt, pairs, i, i + 1)
    {
      for j := i + 1 to |cs|
        invariant IsReport(cs, sqrt, pairs, i, j)
      {
        var score := Cosine(cs[i], cs[j], sqrt);
        RepeatsExactly(cs[i], cs[j], sqrt);
        ReportGrows(cs, sqrt, pairs, i, j);
        if score >= 0.47 {
          pairs := pairs + [(i, j)];
        }
      }
      RowIsDone(cs, sqrt, pairs, i);
    }
    AllRowsDone(cs, sqrt, pairs);
  }

  lemma NothingYet(cs: seq<seq<Entry>>, sqrt: real -> real)
    ensures IsReport(cs, sqrt, [], 0, 1)
  {
  }

  lemma AllRowsDone(cs: seq<seq<Entry>>, sqrt: real -> real, pairs: seq<(nat, nat)>)
    requires IsReport(cs, sqrt, pairs, |cs|, |cs| + 1)
    ensures forall i, j :: (i, j) in pairs ==> i < j < |cs| && Repeats(cs[i], cs[j], sqrt)
    ensures forall i: nat, j: nat :: i < j < |cs| && Repeats(cs[i], cs[j], sqrt) ==> (i, j) in pairs
    ensures forall m, n :: 0 <= m < n < |pairs| ==> pairs[m] != pairs[n]
  {
    hide Repeats;
  }
}
