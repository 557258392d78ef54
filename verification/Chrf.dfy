/** Character n-gram F-score: count maps against multisets of windows. */
module Chrf {
  import opened Basics
  import opened Text
  import opened Normalize
  import opened Utf16

  // ----- What the count maps stand for -----

  /** The windows of length `n`, left to right. */
  function Windows<T>(text: seq<T>, n: nat): (ws: seq<seq<T>>)
    requires n >= 1
    ensures |ws| == if |text| < n then 0 else |text| - n + 1
  {
    if |text| < n then [] else seq(|text| - n + 1, i requires 0 <= i < |text| - n + 1 => text[i..i + n])
  }

  ghost function Grams<T>(text: seq<T>, n: nat): (g: multiset<seq<T>>)
    requires n >= 1
    ensures |g| == if |text| < n then 0 else |text| - n + 1
  {
    multiset(Windows(text, n))
  }

  /** A count map stands for the multiset with those multiplicities. */
  ghost predicate Counts<T>(m: map<seq<T>, nat>, g: multiset<seq<T>>) {
    && (forall k :: k in g ==> k in m)
    && (forall k :: k in m ==> m[k] == g[k] > 0)
  }

  lemma CountsAdd<T>(m: map<seq<T>, nat>, g: multiset<seq<T>>, k: seq<T>)
    requires Counts(m, g)
    ensures Counts(m[k := (if k in m then m[k] else 0) + 1], g + multiset{k})
  {
    assert k !in m ==> g[k] == 0;
  }

  lemma NoCounts<T>()
    ensures Counts<T>(map[], multiset{})
  {}

  method Ngrams<T(==)>(text: seq<T>, n: nat) returns (m: map<seq<T>, nat>)
    requires n >= 1
    ensures Counts(m, Grams(text, n))
  {
    hide Counts;
    m := map[];
    NoCounts<T>();
    ghost var ws := Windows(text, n);
    if |text| < n {
      assert multiset(ws) == multiset{};
      return;
    }
    assert multiset(ws[..0]) == multiset{};
    for i := 0 to |text| - n + 1
      invariant Counts(m, multiset(ws[..i]))
    {
      var g := text[i..i + n];
      assert ws[..i + 1] == ws[..i] + [g];
      CountsAdd(m, multiset(ws[..i]), g);
      m := m[g := (if g in m then m[g] else 0) + 1];
    }
    assert ws[..|ws|] == ws;
  }

  method TotalCount<T(==)>(m: map<seq<T>, nat>, ghost g: multiset<seq<T>>) returns (n: nat)
    requires Counts(m, g)
    ensures n == |g|
  {
    n := 0;
    var keys := m.Keys;
    ghost var rest := g;
    while keys != {}
      invariant keys <= m.Keys
      invariant forall k :: rest[k] == if k in keys then g[k] else 0
      invariant n + |rest| == |g|
    {
      var k :| k in keys;
      n := n + m[k];
      rest := rest[k := 0];
      keys := keys - {k};
    }
    assert rest == multiset{};
  }

  method IntersectCount<T(==)>(a: map<seq<T>, nat>, b: map<seq<T>, nat>, ghost ga: multiset<seq<T>>, ghost gb: multiset<seq<T>>)
      returns (n: nat)
    requires Counts(a, ga) && Counts(b, gb)
    ensures n == |ga * gb|
  {
    n := 0;
    var keys := a.Keys;
    ghost var rest := ga * gb;
    while keys != {}
      invariant keys <= a.Keys
      invariant forall k :: rest[k] == if k in keys then (ga * gb)[k] else 0
      invariant n + |rest| == |ga * gb|
    {
      var k :| k in keys;
      if k in b {
        n := n + if a[k] <= b[k] then a[k] else b[k];
      }
      rest := rest[k := 0];
      keys := keys - {k};
    }
    assert rest == multiset{};
  }

  // ----- The score -----

  ghost function Overlap<T>(x: seq<T>, y: seq<T>, k: nat): nat
    requires k >= 1
  {
    |Grams(x, k) * Grams(y, k)|
  }

  /** Overlap over the grams of `y`, zero when `y` has none of that order. */
  ghost function Share<T>(x: seq<T>, y: seq<T>, k: nat): real
    requires k >= 1
  {
    if |y| < k then 0.0 else Overlap(x, y, k) as real / (|y| - k + 1) as real
  }

  ghost function ShareSum<T>(x: seq<T>, y: seq<T>, n: nat): real {
    if n == 0 then 0.0 else ShareSum(x, y, n - 1) + Share(x, y, n)
  }

  /** The orders at which at least one of the two texts has a gram. */
  ghost function Used<T>(x: seq<T>, y: seq<T>, n: nat): nat {
    if n == 0 then 0 else Used(x, y, n - 1) + (if |x| < n && |y| < n then 0 else 1)
  }

  function Harmonic(p: real, r: real): real {
    if p + r == 0.0 then 0.0 else 2.0 * p * r / (p + r)
  }

  /** The two averages over the used orders, combined. */
  function Combine(precisionSum: real, recallSum: real, used: nat): real {
    if used == 0 then 0.0 else Harmonic(precisionSum / used as real, recallSum / used as real)
  }

  ghost function Score<T>(ref: seq<T>, hyp: seq<T>, n: nat): real {
    if ref == [] && hyp == [] then 1.0
    else if ref == [] || hyp == [] then 0.0
    else Combine(ShareSum(ref, hyp, n), ShareSum(hyp, ref, n), Used(ref, hyp, n))
  }

  lemma OverlapFacts<T>(x: seq<T>, y: seq<T>, k: nat)
    requires k >= 1
    ensures Overlap(x, y, k) == Overlap(y, x, k)
    ensures |y| < k ==> Overlap(x, y, k) == 0
    ensures |y| >= k ==> Overlap(x, y, k) <= |y| - k + 1
    ensures Overlap(x, x, k) == |Grams(x, k)|
  {
    var a, b := Grams(x, k), Grams(y, k);
    assert a * b == b * a && a * a == a;
    assert b == a * b + (b - a * b);
  }

  /** One round of the loop over the orders: the two ratios, and whether the order counts. */
  method OrderShares<T(==)>(ref: seq<T>, hyp: seq<T>, order: nat) returns (used: bool, precision: real, recall: real)
    requires order >= 1
    ensures used <==> |ref| >= order || |hyp| >= order
    ensures precision == Share(ref, hyp, order) && recall == Share(hyp, ref, order)
  {
    var refGrams := Ngrams(ref, order);
    var hypGrams := Ngrams(hyp, order);
    ghost var a, b := Grams(ref, order), Grams(hyp, order);
    EmptyMap(refGrams, a);
    EmptyMap(hypGrams, b);
    if |refGrams| == 0 && |hypGrams| == 0 {
      return false, 0.0, 0.0;
    }
    var overlap := IntersectCount(refGrams, hypGrams, a, b);
    OverlapFacts(ref, hyp, order);
    var hypTotal := TotalCount(hypGrams, b);
    var refTotal := TotalCount(refGrams, a);
    used := true;
    precision := if hypTotal == 0 then 0.0 else overlap as real / hypTotal as real;
    recall := if refTotal == 0 then 0.0 else overlap as real / refTotal as real;
  }

  method Sums<T(==)>(ref: seq<T>, hyp: seq<T>, n: nat) returns (precisionSum: real, recallSum: real, used: nat)
    ensures used == Used(ref, hyp, n)
    ensures precisionSum == ShareSum(ref, hyp, n) && recallSum == ShareSum(hyp, ref, n)
  {
    hide Share;
    precisionSum, recallSum, used := 0.0, 0.0, 0;
    for order := 1 to n + 1
      invariant used == Used(ref, hyp, order - 1)
      invariant precisionSum == ShareSum(ref, hyp, order - 1)
      invariant recallSum == ShareSum(hyp, ref, order - 1)
    {
      var counts, p, r := OrderShares(ref, hyp, order);
      used := used + if counts then 1 else 0;
      precisionSum := precisionSum + p;
      recallSum := recallSum + r;
    }
  }

  /** `chrF`: lengths, slices and map keys are in UTF-16 code units. */
  method Compute(lower: Lower, reference: string, hypothesis: string, n: nat) returns (score: real)
    ensures score == Score(Encode(Squeezed(lower, reference)), Encode(Squeezed(lower, hypothesis)), n)
  {
    var ref, hyp := Encode(Squeezed(lower, reference)), Encode(Squeezed(lower, hypothesis));
    if |ref| == 0 && |hyp| == 0 {
      return 1.0;
    }
    if |ref| == 0 || |hyp| == 0 {
      return 0.0;
    }
    var precisionSum, recallSum, used := Sums(ref, hyp, n);
    score := Combine(precisionSum, recallSum, used);
  }

  lemma EmptyMap<T>(m: map<seq<T>, nat>, g: multiset<seq<T>>)
    requires Counts(m, g)
    ensures |m| == 0 <==> |g| == 0
  {
    if |m| == 0 {
      assert g == multiset{};
    } else {
      var k :| k in m.Keys;
      assert k in g;
    }
  }

  // ----- Range, symmetry, the two ends -----

  lemma ShareRange<T>(x: seq<T>, y: seq<T>, k: nat)
    requires k >= 1
    ensures 0.0 <= Share(x, y, k) <= if |y| < k then 0.0 else 1.0
    ensures Share(x, y, k) == 0.0 <==> Overlap(x, y, k) == 0
  {
    hide Overlap;
    OverlapFacts(x, y, k);
    if |y| >= k {
      Fraction(Overlap(x, y, k), |y| - k + 1);
    }
  }

  lemma Fraction(a: nat, b: nat)
    requires a <= b && b > 0
    ensures 0.0 <= a as real / b as real <= 1.0
    ensures a as real / b as real == 0.0 <==> a == 0
  {}

  lemma {:induction false} UsedFacts<T>(x: seq<T>, y: seq<T>, n: nat)
    ensures x != [] && n >= 1 ==> Used(x, y, n) >= 1
    ensures Used(x, y, n) == Used(y, x, n)
  {
    if n > 0 {
      UsedFacts(x, y, n - 1);
    }
  }

  lemma {:induction false} SumRange<T>(x: seq<T>, y: seq<T>, n: nat)
    ensures 0.0 <= ShareSum(x, y, n) <= Used(x, y, n) as real
  {
    hide Share;
    if n > 0 {
      SumRange(x, y, n - 1);
      ShareRange(x, y, n);
    }
  }

  lemma HarmonicRange(p: real, r: real)
    requires 0.0 <= p <= 1.0 && 0.0 <= r <= 1.0
    ensures 0.0 <= Harmonic(p, r) <= 1.0
    ensures Harmonic(p, r) == Harmonic(r, p)
    ensures Harmonic(p, r) == 0.0 <==> p == 0.0 || r == 0.0
    ensures Harmonic(1.0, 1.0) == 1.0
  {
    if p + r != 0.0 {
      var pr := p * r;
      UnitProduct(p, r);
      assert p + r > 0.0 && 0.0 <= pr && pr <= p && pr <= r;
      assert 2.0 * p * r == 2.0 * pr && 2.0 * r * p == 2.0 * pr;
      RealQuotient(2.0 * pr, p + r);
    }
  }

  lemma UnitProduct(p: real, r: real)
    requires 0.0 <= p <= 1.0 && 0.0 <= r <= 1.0
    ensures 0.0 <= p * r <= p && p * r <= r
    ensures p * r == 0.0 <==> p == 0.0 || r == 0.0
  {
    Product(p, 1.0 - r);
    Product(r, 1.0 - p);
    Product(p, r);
    assert p * (1.0 - r) == p - p * r && r * (1.0 - p) == r - p * r;
  }

  lemma RealQuotient(a: real, b: real)
    requires 0.0 <= a <= b && b > 0.0
    ensures 0.0 <= a / b <= 1.0
    ensures a / b == 0.0 <==> a == 0.0
  {}

  lemma ScoreRange<T>(ref: seq<T>, hyp: seq<T>, n: nat)
    ensures 0.0 <= Score(ref, hyp, n) <= 1.0
    ensures Score(ref, hyp, n) == Score(hyp, ref, n)
  {
    SumRange(ref, hyp, n);
    SumRange(hyp, ref, n);
    UsedFacts(ref, hyp, n);
    var used := Used(ref, hyp, n) as real;
    if used > 0.0 {
      RealQuotient(ShareSum(ref, hyp, n), used);
      RealQuotient(ShareSum(hyp, ref, n), used);
      HarmonicRange(ShareSum(ref, hyp, n) / used, ShareSum(hyp, ref, n) / used);
    }
  }

  lemma FullOverlap<T>(x: seq<T>, k: nat)
    requires k >= 1
    ensures Share(x, x, k) == if |x| < k then 0.0 else 1.0
  {
    var a := Grams(x, k);
    assert a * a == a;
    if |x| >= k {
      SelfQuotient(|x| - k + 1);
    }
  }

  lemma SelfQuotient(a: nat)
    requires a > 0
    ensures a as real / a as real == 1.0
  {}

  lemma {:induction false} FullShare<T>(x: seq<T>, n: nat)
    ensures ShareSum(x, x, n) == Used(x, x, n) as real
  {
    hide Share;
    if n > 0 {
      FullShare(x, n - 1);
      FullOverlap(x, n);
    }
  }

  lemma ScoreOfEqual<T>(x: seq<T>, n: nat)
    requires n >= 1
    ensures Score(x, x, n) == 1.0
  {
    hide ShareSum, Used, Harmonic;
    if x != [] {
      UsedFacts(x, x, n);
      FullShare(x, n);
      var used := Used(x, x, n) as real;
      assert used / used == 1.0;
      HarmonicRange(1.0, 1.0);
    }
  }

  // ----- A zero score means that no unit is shared -----

  ghost predicate CommonUnit<T>(x: seq<T>, y: seq<T>) {
    exists c :: c in x && c in y
  }

  lemma SharedGram<T>(x: seq<T>, y: seq<T>, k: nat)
    requires k >= 1 && Overlap(x, y, k) > 0
    ensures CommonUnit(x, y)
  {
    var g :| g in Grams(x, k) * Grams(y, k);
    GramUnit(x, k, g);
    GramUnit(y, k, g);
  }

  lemma GramUnit<T>(x: seq<T>, k: nat, g: seq<T>)
    requires k >= 1 && g in Grams(x, k)
    ensures g != [] && g[0] in x
  {
    var i :| 0 <= i < |Windows(x, k)| && Windows(x, k)[i] == g;
    assert g[0] == x[i];
  }

  lemma UnitGram<T>(x: seq<T>, c: T)
    requires c in x
    ensures [c] in Grams(x, 1)
  {
    var i :| 0 <= i < |x| && x[i] == c;
    assert Windows(x, 1)[i] == [c];
  }

  lemma SharedUnit<T>(x: seq<T>, y: seq<T>)
    requires CommonUnit(x, y)
    ensures Overlap(x, y, 1) > 0
  {
    var c :| c in x && c in y;
    UnitGram(x, c);
    UnitGram(y, c);
    assert [c] in Grams(x, 1) * Grams(y, 1);
  }

  lemma {:induction false} SumZero<T>(x: seq<T>, y: seq<T>, n: nat)
    requires n >= 1
    ensures ShareSum(x, y, n) == 0.0 <==> !CommonUnit(x, y)
    decreases n
  {
    hide Share, Overlap, CommonUnit;
    ShareRange(x, y, n);
    if Overlap(x, y, n) > 0 {
      SharedGram(x, y, n);
    }
    SumRange(x, y, n - 1);
    if n > 1 {
      SumZero(x, y, n - 1);
    } else if CommonUnit(x, y) {
      SharedUnit(x, y);
    }
  }

  lemma ScoreZeroIffDisjoint<T>(ref: seq<T>, hyp: seq<T>, n: nat)
    requires n >= 1 && (ref != [] || hyp != [])
    ensures Score(ref, hyp, n) == 0.0 <==> !CommonUnit(ref, hyp)
  {
    if ref != [] && hyp != [] {
      SumRange(ref, hyp, n);
      SumRange(hyp, ref, n);
      UsedFacts(ref, hyp, n);
      SumZero(ref, hyp, n);
      SumZero(hyp, ref, n);
      var used := Used(ref, hyp, n) as real;
      RealQuotient(ShareSum(ref, hyp, n), used);
      RealQuotient(ShareSum(hyp, ref, n), used);
      HarmonicRange(ShareSum(ref, hyp, n) / used, ShareSum(hyp, ref, n) / used);
    }
  }

  // ----- The same in terms of characters -----

  /** Two texts have a code unit in common exactly when a character of the one shares one with a character of the other. */
  lemma CommonUnitIff(x: string, y: string)
    ensures CommonUnit(Encode(x), Encode(y)) <==> exists c, d :: c in x && d in y && ShareUnit(c, d)
  {
    hide ShareUnit, Encode, UnitsOf;
    if CommonUnit(Encode(x), Encode(y)) {
      var u: Unit :| u in Encode(x) && u in Encode(y);
      UnitIn(x, u);
      UnitIn(y, u);
      var c :| c in x && u in UnitsOf(c);
      var d :| d in y && u in UnitsOf(d);
      ShareUnitIff(c, d);
    }
    if c, d :| c in x && d in y && ShareUnit(c, d) {
      ShareUnitIff(c, d);
      var u: Unit :| u in UnitsOf(c) && u in UnitsOf(d);
      UnitIn(x, u);
      UnitIn(y, u);
    }
  }

  /** So the score of two squeezed texts is zero exactly when no two of their characters share a unit: no two characters
      of the lower-cased texts, white space apart. */
  lemma TextScoreZeroIff(lower: Lower, ref: string, hyp: string, n: nat)
    requires KeepsEnds(lower) && n >= 1 && (Visible(lower(ref)) != [] || Visible(lower(hyp)) != [])
    ensures Score(Encode(Squeezed(lower, ref)), Encode(Squeezed(lower, hyp)), n) == 0.0
       <==> forall c, d :: c in lower(ref) && d in lower(hyp) && !IsSpace(c) && !IsSpace(d) ==> !ShareUnit(c, d)
  {
    hide Score, ShareUnit, KeepsEnds, IsSpace;
    var x, y := Visible(lower(ref)), Visible(lower(hyp));
    SqueezedIsVisible(lower, ref);
    SqueezedIsVisible(lower, hyp);
    ScoreZeroIffDisjoint(Encode(x), Encode(y), n);
    CommonUnitIff(x, y);
    forall c ensures c in x <==> c in lower(ref) && !IsSpace(c) ensures c in y <==> c in lower(hyp) && !IsSpace(c) {
      VisibleIff(lower(ref), c);
      VisibleIff(lower(hyp), c);
    }
  }

  /** A character in common that is not white space is enough for a positive score, */
  lemma SharedCharacterScores(lower: Lower, ref: string, hyp: string, n: nat, c: char)
    requires KeepsEnds(lower) && n >= 1 && c in lower(ref) && c in lower(hyp) && !IsSpace(c)
    ensures Score(Encode(Squeezed(lower, ref)), Encode(Squeezed(lower, hyp)), n) > 0.0
  {
    hide Score, Encode, KeepsEnds;
    VisibleIff(lower(ref), c);
    TextScoreZeroIff(lower, ref, hyp, n);
    ScoreRange(Encode(Squeezed(lower, ref)), Encode(Squeezed(lower, hyp)), n);
    assert ShareUnit(c, c);
  }

  /** but not necessary: these two have no character in common. */
  lemma DisjointTextsScore()
    ensures Score(Encode("\U{1F600}"), Encode("\U{1F601}"), 6) == 0.25
  {
    var x, y: seq<Unit> := [0xD83D, 0xDE00], [0xD83D, 0xDE01];
    hide ShareSum, Used, Encode;
    EncodeOne('\U{1F600}');
    EncodeOne('\U{1F601}');
    assert Encode("\U{1F600}") == x && Encode("\U{1F601}") == y;
    PairShares(x, y);
    PairShares(y, x);
    assert Combine(0.5, 0.5, 2) == Harmonic(0.25, 0.25) == 0.25;
  }

  lemma EncodeOne(c: char)
    ensures Encode([c]) == UnitsOf(c)
  {
    assert [c][1..] == [] && UnitsOf(c) + [] == UnitsOf(c);
  }

  /** Two pairs that agree in the first unit only. */
  lemma PairShares(x: seq<Unit>, y: seq<Unit>)
    requires |x| == |y| == 2 && x[0] == y[0] && x[1] != y[1] && x[0] != x[1] && y[0] != y[1]
    requires x[0] != y[1] && x[1] != y[0]
    ensures ShareSum(x, y, 6) == 0.5 && Used(x, y, 6) == 2
  {
    PairWindows(x);
    PairWindows(y);
    assert Grams(x, 1) * Grams(y, 1) == multiset{[x[0]]};
    assert Grams(x, 2) * Grams(y, 2) == multiset{};
    assert Share(x, y, 1) == 0.5 && Share(x, y, 2) == 0.0;
    assert ShareSum(x, y, 1) == 0.0 + 0.5 && ShareSum(x, y, 2) == 0.5;
    assert Used(x, y, 1) == 1 && Used(x, y, 2) == 2;
    assert ShareSum(x, y, 3) == 0.5 && ShareSum(x, y, 4) == 0.5 && ShareSum(x, y, 5) == 0.5;
    assert Used(x, y, 3) == 2 && Used(x, y, 4) == 2 && Used(x, y, 5) == 2;
  }

  lemma PairWindows(x: seq<Unit>)
    requires |x| == 2
    ensures Windows(x, 1) == [[x[0]], [x[1]]] && Windows(x, 2) == [x]
  {
    assert x[0..1] == [x[0]] && x[1..2] == [x[1]] && x[0..2] == x;
  }

  // ----- The two ratios, combined -----

  /** The score is the harmonic mean of the two averages: its reciprocal is the mean of theirs. */
  lemma HarmonicMean(p: real, r: real)
    requires p > 0.0 && r > 0.0
    ensures Harmonic(p, r) > 0.0 && 1.0 / Harmonic(p, r) == (1.0 / p + 1.0 / r) / 2.0
  {
    var h := Harmonic(p, r);
    assert h * (p + r) == 2.0 * (p * r);
    Product(p, r);
    assert p * r > 0.0;
    assert h > 0.0;
    var x, y, z := 1.0 / p, 1.0 / r, 1.0 / h;
    assert x * p == 1.0 && y * r == 1.0 && z * h == 1.0;
    assert (x + y) * (p * r) == r * (x * p) + p * (y * r) == p + r;
    assert 2.0 * z * (p * r) == z * (h * (p + r)) == (z * h) * (p + r) == p + r;
    CancelFactor(x + y, 2.0 * z, p * r);
  }

  lemma CancelFactor(x: real, y: real, r: real)
    requires r > 0.0 && x * r == y * r
    ensures x == y
  {
    assert (x - y) * r == 0.0;
  }
}
