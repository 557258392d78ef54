/** Word error rate: the dynamic-programming edit distance against edit scripts. */
module EditDistance {
  import opened Basics
  import opened Text
  import opened Normalize

  type Token = string

  /** An edit script, read from its last step back to its first. A `Pair` keeps a token or substitutes it. */
  datatype Script =
    | Empty
    | Pair(before: Script, x: Token, y: Token)
    | Insertion(before: Script, y: Token)
    | Deletion(before: Script, x: Token)
  {
    /** What the script consumes. */
    function Source(): seq<Token> {
      match this
      case Empty => []
      case Pair(b, x, _) => b.Source() + [x]
      case Insertion(b, _) => b.Source()
      case Deletion(b, x) => b.Source() + [x]
    }

    /** What the script produces. */
    function Target(): seq<Token> {
      match this
      case Empty => []
      case Pair(b, _, y) => b.Target() + [y]
      case Insertion(b, y) => b.Target() + [y]
      case Deletion(b, _) => b.Target()
    }

    /** Keeping a token is free; an insertion, a deletion and a substitution cost one each. */
    function Cost(): nat {
      match this
      case Empty => 0
      case Pair(b, x, y) => b.Cost() + (if x == y then 0 else 1)
      case Insertion(b, _) => b.Cost() + 1
      case Deletion(b, _) => b.Cost() + 1
    }
  }

  ghost predicate Turns(s: Script, a: seq<Token>, b: seq<Token>) {
    s.Source() == a && s.Target() == b
  }

  /** The recurrence that the table satisfies. */
  function Distance(a: seq<Token>, b: seq<Token>): nat
    decreases |a| + |b|
  {
    if a == [] then |b|
    else if b == [] then |a|
    else
      var a', b' := a[..|a| - 1], b[..|b| - 1];
      Min(Distance(a', b) + 1,
          Min(Distance(a, b') + 1,
              Distance(a', b') + (if a[|a| - 1] == b[|b| - 1] then 0 else 1)))
  }

  /** The table's cell (k, l) is about the first `k` tokens of `a` and the first `l` of `b`. */
  ghost function Prefixes(a: seq<Token>, b: seq<Token>, k: nat, l: nat): nat
    requires k <= |a| && l <= |b|
  {
    Distance(a[..k], b[..l])
  }

  lemma BorderCell(a: seq<Token>, b: seq<Token>, k: nat)
    ensures k <= |a| ==> Prefixes(a, b, k, 0) == k
    ensures k <= |b| ==> Prefixes(a, b, 0, k) == k
  {}

  /** The recurrence, read at an inner cell of the table. */
  lemma InnerCell(a: seq<Token>, b: seq<Token>, i: nat, j: nat)
    requires 0 < i <= |a| && 0 < j <= |b|
    ensures Prefixes(a, b, i, j)
         == Min(Prefixes(a, b, i - 1, j) + 1,
                Min(Prefixes(a, b, i, j - 1) + 1,
                    Prefixes(a, b, i - 1, j - 1) + (if a[i - 1] == b[j - 1] then 0 else 1)))
  {
    assert a[..i][..i - 1] == a[..i - 1] && b[..j][..j - 1] == b[..j - 1];
  }

  lemma LastCell(a: seq<Token>, b: seq<Token>)
    ensures Prefixes(a, b, |a|, |b|) == Distance(a, b)
  {
    assert a[..|a|] == a && b[..|b|] == b;
  }

  /** The first `rows` rows, the left border, and the first `cells` cells of the next row hold their distances. */
  ghost predicate Filled(dp: array2<nat>, a: seq<Token>, b: seq<Token>, rows: nat, cells: nat)
    requires dp.Length0 == |a| + 1 && dp.Length1 == |b| + 1
    reads dp
  {
    forall k: nat, l: nat {:trigger dp[k, l]} :: k <= |a| && l <= |b| && (k < rows || l == 0 || (k == rows && l < cells)) ==>
      dp[k, l] == Prefixes(a, b, k, l)
  }

  /** `editDistance`: the table, filled row by row. */
  method Compute(a: seq<Token>, b: seq<Token>) returns (d: nat)
    ensures exists s :: Turns(s, a, b) && s.Cost() == d
    ensures forall s :: Turns(s, a, b) ==> d <= s.Cost()
    ensures d == Distance(a, b)
  {
    hide Prefixes, Distance, Turns, Script.Cost;
    var dp := new nat[|a| + 1, |b| + 1]((_, _) => 0);
    for i := 0 to |a| + 1
      invariant forall k :: 0 <= k < i ==> dp[k, 0] == k
    {
      dp[i, 0] := i;
    }
    for j := 0 to |b| + 1
      invariant forall k :: 0 <= k <= |a| ==> dp[k, 0] == k
      invariant forall l :: 0 <= l < j ==> dp[0, l] == l
    {
      dp[0, j] := j;
    }
    forall k: nat ensures k <= |a| ==> Prefixes(a, b, k, 0) == k ensures k <= |b| ==> Prefixes(a, b, 0, k) == k {
      BorderCell(a, b, k);
    }
    for i := 1 to |a| + 1
      invariant Filled(dp, a, b, i, 1)
    {
      for j := 1 to |b| + 1
        invariant Filled(dp, a, b, i, j)
      {
        var cost := if a[i - 1] == b[j - 1] then 0 else 1;
        InnerCell(a, b, i, j);
        dp[i, j] := Min(dp[i - 1, j] + 1, Min(dp[i, j - 1] + 1, dp[i - 1, j - 1] + cost));
      }
    }
    d := dp[|a|, |b|];
    LastCell(a, b);
    LeastCost(a, b);
  }

  // ----- The distance is the least cost of a script -----

  ghost function Deletions(a: seq<Token>): Script {
    if a == [] then Empty else Deletion(Deletions(a[..|a| - 1]), a[|a| - 1])
  }

  ghost function Insertions(b: seq<Token>): Script {
    if b == [] then Empty else Insertion(Insertions(b[..|b| - 1]), b[|b| - 1])
  }

  lemma {:induction false} EndCases(a: seq<Token>)
    ensures Turns(Deletions(a), a, []) && Deletions(a).Cost() == |a|
    ensures Turns(Insertions(a), [], a) && Insertions(a).Cost() == |a|
  {
    if a != [] {
      EndCases(a[..|a| - 1]);
    }
  }

  /** Some script costs exactly the distance. */
  lemma {:induction false} Optimal(a: seq<Token>, b: seq<Token>) returns (s: Script)
    ensures Turns(s, a, b) && s.Cost() == Distance(a, b)
    decreases |a| + |b|
  {
    if a == [] {
      EndCases(b);
      s := Insertions(b);
    } else if b == [] {
      EndCases(a);
      s := Deletions(a);
    } else {
      var m, n := |a| - 1, |b| - 1;
      assert a == a[..m] + [a[m]] && b == b[..n] + [b[n]];
      if Distance(a, b) == Distance(a[..m], b) + 1 {
        s := Optimal(a[..m], b);
        s := Deletion(s, a[m]);
      } else if Distance(a, b) == Distance(a, b[..n]) + 1 {
        s := Optimal(a, b[..n]);
        s := Insertion(s, b[n]);
      } else {
        s := Optimal(a[..m], b[..n]);
        s := Pair(s, a[m], b[n]);
      }
    }
  }

  /** No script costs less than the distance between its two ends. */
  lemma {:induction false} LowerBound(s: Script)
    ensures Distance(s.Source(), s.Target()) <= s.Cost()
  {
    var a, b := s.Source(), s.Target();
    match s
    case Empty =>
    case Pair(p, x, y) =>
      LowerBound(p);
      assert a[..|a| - 1] == p.Source() && b[..|b| - 1] == p.Target();
    case Insertion(p, y) =>
      LowerBound(p);
      assert b[..|b| - 1] == p.Target();
    case Deletion(p, x) =>
      LowerBound(p);
      assert a[..|a| - 1] == p.Source();
  }

  /** The recurrence computes the least cost of all scripts that turn `a` into `b`. */
  lemma LeastCost(a: seq<Token>, b: seq<Token>)
    ensures exists s :: Turns(s, a, b) && s.Cost() == Distance(a, b)
    ensures forall s :: Turns(s, a, b) ==> Distance(a, b) <= s.Cost()
  {
    var best := Optimal(a, b);
    forall s | Turns(s, a, b) ensures Distance(a, b) <= s.Cost() {
      LowerBound(s);
    }
  }

  // ----- The distance is a metric -----

  /** Reading a script backwards in effect: insertions and deletions swap. */
  ghost function Inverse(s: Script): Script {
    match s
    case Empty => Empty
    case Pair(b, x, y) => Pair(Inverse(b), y, x)
    case Insertion(b, y) => Deletion(Inverse(b), y)
    case Deletion(b, x) => Insertion(Inverse(b), x)
  }

  lemma {:induction false} InverseTurnsBack(s: Script)
    ensures Turns(Inverse(s), s.Target(), s.Source()) && Inverse(s).Cost() == s.Cost()
  {
    if !s.Empty? {
      InverseTurnsBack(s.before);
    }
  }

  lemma {:induction false} Symmetric(a: seq<Token>, b: seq<Token>)
    ensures Distance(a, b) == Distance(b, a)
  {
    var s := Optimal(a, b);
    var t := Optimal(b, a);
    InverseTurnsBack(s);
    InverseTurnsBack(t);
    LowerBound(Inverse(s));
    LowerBound(Inverse(t));
  }

  /** One script after another, as a single script that costs no more than the two together. */
  lemma {:induction false} Compose(s: Script, t: Script) returns (u: Script)
    requires s.Target() == t.Source()
    ensures Turns(u, s.Source(), t.Target()) && u.Cost() <= s.Cost() + t.Cost()
    decreases s, t
  {
    if t.Insertion? {
      u := Compose(s, t.before);
      u := Insertion(u, t.y);
    } else if s.Deletion? {
      u := Compose(s.before, t);
      u := Deletion(u, s.x);
    } else if s.Empty? {
      assert t.Empty?;
      u := Empty;
    } else {
      assert !t.Empty?;
      var mid := s.Target();
      assert s.y == mid[|mid| - 1] == t.x;
      assert s.before.Target() == mid[..|mid| - 1] == t.before.Source();
      u := Compose(s.before, t.before);
      if s.Pair? && t.Pair? {
        u := Pair(u, s.x, t.y);
      } else if s.Pair? {
        u := Deletion(u, s.x);
      } else if t.Pair? {
        u := Insertion(u, t.y);
      }
    }
  }

  lemma {:induction false} Triangle(a: seq<Token>, b: seq<Token>, c: seq<Token>)
    ensures Distance(a, c) <= Distance(a, b) + Distance(b, c)
  {
    var s := Optimal(a, b);
    var t := Optimal(b, c);
    var u := Compose(s, t);
    LowerBound(u);
  }

  lemma {:induction false} FreeScriptsChangeNothing(s: Script)
    requires s.Cost() == 0
    ensures s.Source() == s.Target()
  {
    if !s.Empty? {
      FreeScriptsChangeNothing(s.before);
    }
  }

  lemma {:induction false} SelfDistance(a: seq<Token>)
    ensures Distance(a, a) == 0
  {
    if a != [] {
      SelfDistance(a[..|a| - 1]);
    }
  }

  lemma {:induction false} ZeroIffEqual(a: seq<Token>, b: seq<Token>)
    ensures Distance(a, b) == 0 <==> a == b
  {
    SelfDistance(a);
    var s := Optimal(a, b);
    if s.Cost() == 0 {
      FreeScriptsChangeNothing(s);
    }
  }

  lemma {:induction false} Bounds(a: seq<Token>, b: seq<Token>)
    ensures Max(|a|, |b|) - Min(|a|, |b|) <= Distance(a, b) <= Max(|a|, |b|)
    decreases |a| + |b|
  {
    if a != [] && b != [] {
      Bounds(a[..|a| - 1], b);
      Bounds(a, b[..|b| - 1]);
      Bounds(a[..|a| - 1], b[..|b| - 1]);
    }
  }

  // ----- Word error rate -----

  /** The rate of two token lists, by the meaning of the distance. */
  function Rate(ref: seq<Token>, hyp: seq<Token>): real {
    if ref == [] then (if hyp == [] then 0.0 else 1.0) else Distance(ref, hyp) as real / |ref| as real
  }

  method WordErrorRate(lower: Lower, reference: string, hypothesis: string) returns (wer: real)
    ensures wer == Rate(TokenizeWords(lower, reference), TokenizeWords(lower, hypothesis))
  {
    var ref, hyp := TokenizeWords(lower, reference), TokenizeWords(lower, hypothesis);
    if |ref| == 0 {
      wer := if |hyp| == 0 then 0.0 else 1.0;
    } else {
      var d := Compute(ref, hyp);
      wer := d as real / |ref| as real;
    }
  }

  /** The rate is zero on equal lists and on no others, and at most the longer length over the reference's. */
  lemma RateMeaning(ref: seq<Token>, hyp: seq<Token>)
    ensures Rate(ref, hyp) >= 0.0
    ensures Rate(ref, hyp) == 0.0 <==> ref == hyp
    ensures ref != [] ==> Rate(ref, hyp) <= Max(|ref|, |hyp|) as real / |ref| as real
    ensures ref == [] && hyp != [] ==> Rate(ref, hyp) == 1.0
  {
    if ref != [] {
      ZeroIffEqual(ref, hyp);
      Bounds(ref, hyp);
      Quotient(Distance(ref, hyp), Max(|ref|, |hyp|), |ref|);
    }
  }

  /** So two texts have rate zero exactly when their lower-cased forms have the same words. */
  lemma TextRateZeroIff(lower: Lower, reference: string, hypothesis: string)
    requires KeepsEnds(lower)
    ensures Rate(TokenizeWords(lower, reference), TokenizeWords(lower, hypothesis)) == 0.0
       <==> Words(lower(reference)) == Words(lower(hypothesis))
  {
    TokensAreWords(lower, reference);
    TokensAreWords(lower, hypothesis);
    RateMeaning(TokenizeWords(lower, reference), TokenizeWords(lower, hypothesis));
  }

  /** On a non-empty reference the rate is the least cost of a script over the reference's length. */
  lemma RateOfCheapest(ref: seq<Token>, hyp: seq<Token>) returns (s: Script)
    requires ref != []
    ensures Turns(s, ref, hyp) && Rate(ref, hyp) * |ref| as real == s.Cost() as real
    ensures forall s' :: Turns(s', ref, hyp) ==> s.Cost() <= s'.Cost()
  {
    hide Turns, Script.Cost, Distance;
    s := Optimal(ref, hyp);
    LeastCost(ref, hyp);
    QuotientBack(Distance(ref, hyp), |ref|);
  }

  lemma QuotientBack(d: nat, n: nat)
    requires n > 0
    ensures d as real / n as real * n as real == d as real
  {}

  lemma Quotient(d: nat, m: nat, n: nat)
    requires n > 0 && d <= m
    ensures 0.0 <= d as real / n as real <= m as real / n as real
    ensures d as real / n as real == 0.0 <==> d == 0
  {
    var x, y, k := d as real / n as real, m as real / n as real, n as real;
    assert (y - x) * k == m as real - d as real;
  }
}
