/** A DOM tree of fixed shape, the walks over its text nodes, and the path strings of its nodes. */
module DomPath {
  import opened Text

  datatype Dom =
    | Element(tag: string, editable: bool, kids: seq<Dom>)
    | TextNode
    | OtherNode

  /** A page: `body` is child number `bodyIndex` of the document element. */
  datatype Doc = Doc(bodyIndex: nat, body: Dom)

  /** Where a node is below the body, as child indices. */
  type Loc = seq<nat>

  function TagOf(d: Dom): string {
    if d.Element? then d.tag else "#text"
  }

  // ----- Walks -----

  const SKIP_TAGS: set<string> := {"SCRIPT", "STYLE", "NOSCRIPT", "TEXTAREA", "INPUT", "SELECT", "OPTION",
                                   "CODE", "PRE", "SVG", "MATH", "IFRAME"}

  function ToUpper(s: string): string {
    seq(|s|, i requires 0 <= i < |s| => if 'a' <= s[i] <= 'z' then s[i] - 'a' + 'A' else s[i])
  }

  /** Elements that translation leaves out, with everything below them. */
  predicate Skipped(d: Dom) {
    d.Element? && (ToUpper(d.tag) in SKIP_TAGS || d.editable)
  }

  /** The text nodes in document order: all of them, or those outside skipped elements. */
  function Locs(d: Dom, skip: bool): seq<Loc>
    decreases d, 1
  {
    match d
    case TextNode => [[]]
    case OtherNode => []
    case Element(_, _, kids) => if skip && Skipped(d) then [] else KidLocs(kids, 0, skip)
  }

  function KidLocs(kids: seq<Dom>, i: nat, skip: bool): seq<Loc>
    decreases kids, 0
  {
    if kids == [] then [] else Prepend(i, Locs(kids[0], skip)) + KidLocs(kids[1..], i + 1, skip)
  }

  function Prepend(i: nat, locs: seq<Loc>): seq<Loc> {
    seq(|locs|, k requires 0 <= k < |locs| => [i] + locs[k])
  }

  predicate ValidLoc(d: Dom, loc: Loc)
    decreases |loc|
  {
    loc == [] || (d.Element? && loc[0] < |d.kids| && ValidLoc(d.kids[loc[0]], loc[1..]))
  }

  lemma {:induction false} LocsValid(d: Dom, skip: bool, loc: Loc)
    requires loc in Locs(d, skip)
    ensures ValidLoc(d, loc)
    decreases d, 1
  {
    if d.Element? {
      KidLocsValid(d.kids, 0, skip, loc);
    }
  }

  lemma {:induction false} KidLocsValid(kids: seq<Dom>, i: nat, skip: bool, loc: Loc)
    requires loc in KidLocs(kids, i, skip)
    ensures loc != [] && i <= loc[0] < i + |kids| && ValidLoc(kids[loc[0] - i], loc[1..])
    decreases kids, 0
  {
    var here := Locs(kids[0], skip);
    if loc in Prepend(i, here) {
      var k :| 0 <= k < |here| && loc == [i] + here[k];
      assert loc[1..] == here[k];
      LocsValid(kids[0], skip, loc[1..]);
    } else {
      KidLocsValid(kids[1..], i + 1, skip, loc);
    }
  }

  /** What is collected for translation is among what the tree walker visits. */
  lemma {:induction false} CollectedIsWalked(d: Dom, loc: Loc)
    requires loc in Locs(d, true)
    ensures loc in Locs(d, false)
    decreases d, 1
  {
    if d.Element? {
      KidsCollected(d.kids, 0, loc);
    }
  }

  lemma {:induction false} KidsCollected(kids: seq<Dom>, i: nat, loc: Loc)
    requires loc in KidLocs(kids, i, true)
    ensures loc in KidLocs(kids, i, false)
    decreases kids, 0
  {
    var here, all := Locs(kids[0], true), Locs(kids[0], false);
    if loc in Prepend(i, here) {
      var k :| 0 <= k < |here| && loc == [i] + here[k];
      CollectedIsWalked(kids[0], here[k]);
      var l :| 0 <= l < |all| && all[l] == here[k];
      assert Prepend(i, all)[l] == loc;
    } else {
      KidsCollected(kids[1..], i + 1, loc);
    }
  }

  /** The node at a location. */
  function NodeAt(d: Dom, loc: Loc): Dom
    requires ValidLoc(d, loc)
    decreases |loc|
  {
    if loc == [] then d else NodeAt(d.kids[loc[0]], loc[1..])
  }

  /** Translation leaves out what is below these tags, in any letter case, and below editable elements. */
  ghost predicate LeftOut(d: Dom) {
    d.Element? &&
    var tag := ToUpper(d.tag);
    || d.editable
    || tag == "SCRIPT" || tag == "STYLE" || tag == "NOSCRIPT" || tag == "TEXTAREA" || tag == "INPUT" || tag == "SELECT"
    || tag == "OPTION" || tag == "CODE" || tag == "PRE" || tag == "SVG" || tag == "MATH" || tag == "IFRAME"
  }

  /** The location is that of a text node, and for `skip` no node on the way down to it is left out. */
  ghost predicate Visited(d: Dom, loc: Loc, skip: bool)
    decreases |loc|
  {
    && ValidLoc(d, loc) && NodeAt(d, loc).TextNode?
    && (skip ==> forall n :: 0 <= n <= |loc| ==> OnTheWay(d, loc, n))
  }

  ghost predicate OnTheWay(d: Dom, loc: Loc, n: nat)
    requires ValidLoc(d, loc) && n <= |loc|
  {
    PrefixValid(d, loc, n);
    !LeftOut(NodeAt(d, loc[..n]))
  }

  lemma {:induction false} PrefixValid(d: Dom, loc: Loc, n: nat)
    requires ValidLoc(d, loc) && n <= |loc|
    ensures ValidLoc(d, loc[..n])
    decreases n
  {
    if n > 0 {
      PrefixValid(d.kids[loc[0]], loc[1..], n - 1);
      assert loc[..n][1..] == loc[1..][..n - 1];
    }
  }

  /** One step down. */
  lemma VisitedStep(d: Dom, loc: Loc, skip: bool)
    requires loc != []
    ensures Visited(d, loc, skip) <==>
              d.Element? && loc[0] < |d.kids| && !(skip && LeftOut(d)) && Visited(d.kids[loc[0]], loc[1..], skip)
  {
    hide LeftOut;
    if ValidLoc(d, loc) && skip {
      var kid := d.kids[loc[0]];
      forall n | 0 <= n <= |loc| ensures OnTheWay(d, loc, n) <==> if n == 0 then !LeftOut(d) else OnTheWay(kid, loc[1..], n - 1) {
        PrefixValid(d, loc, n);
        if n > 0 {
          PrefixValid(kid, loc[1..], n - 1);
          assert loc[..n][1..] == loc[1..][..n - 1] && loc[..n][0] == loc[0];
        } else {
          assert loc[..n] == [];
        }
      }
      if Visited(d, loc, skip) {
        forall n | 0 <= n <= |loc| - 1 ensures OnTheWay(kid, loc[1..], n) {
          assert OnTheWay(d, loc, n + 1);
        }
        assert OnTheWay(d, loc, 0);
      }
    }
  }

  /** The walks visit exactly the text nodes, or exactly those with nothing left out on the way down. */
  lemma {:induction false} LocsIff(d: Dom, skip: bool, loc: Loc)
    ensures loc in Locs(d, skip) <==> Visited(d, loc, skip)
    decreases d, 1
  {
    hide LeftOut, Visited;
    SkippedIff(d);
    if loc == [] {
      VisitedHere(d, skip);
      if d.Element? && loc in Locs(d, skip) {
        KidLocsValid(d.kids, 0, skip, loc);
      }
    } else {
      VisitedStep(d, loc, skip);
      if d.Element? {
        KidLocsIff(d.kids, 0, skip, loc);
      }
    }
  }

  lemma VisitedHere(d: Dom, skip: bool)
    ensures Visited(d, [], skip) <==> d.TextNode?
  {
    if d.TextNode? {
      assert forall n :: 0 <= n <= 0 ==> OnTheWay(d, [], n);
    }
  }

  lemma SkippedIff(d: Dom)
    ensures Skipped(d) <==> LeftOut(d)
  {}

  lemma {:induction false} KidLocsIff(kids: seq<Dom>, i: nat, skip: bool, loc: Loc)
    requires loc != []
    ensures loc in KidLocs(kids, i, skip) <==> i <= loc[0] < i + |kids| && Visited(kids[loc[0] - i], loc[1..], skip)
    decreases kids, 0
  {
    hide Visited;
    if kids != [] {
      var here := Locs(kids[0], skip);
      KidLocsIff(kids[1..], i + 1, skip, loc);
      LocsIff(kids[0], skip, loc[1..]);
      assert loc in Prepend(i, here) <==> loc[0] == i && loc[1..] in here by {
        PrependIff(i, here, loc);
      }
    }
  }

  lemma PrependIff(i: nat, locs: seq<Loc>, loc: Loc)
    requires loc != []
    ensures loc in Prepend(i, locs) <==> loc[0] == i && loc[1..] in locs
  {
    if loc in Prepend(i, locs) {
      var k :| 0 <= k < |locs| && loc == [i] + locs[k];
      assert loc[1..] == locs[k];
    }
    if loc[0] == i && loc[1..] in locs {
      var k :| 0 <= k < |locs| && locs[k] == loc[1..];
      assert Prepend(i, locs)[k] == [i] + loc[1..] == loc;
    }
  }

  /** No text node is visited twice. */
  lemma {:induction false} LocsDistinct(d: Dom, skip: bool, j: nat, k: nat)
    requires j < k < |Locs(d, skip)|
    ensures Locs(d, skip)[j] != Locs(d, skip)[k]
    decreases d, 1
  {
    if d.Element? {
      KidLocsDistinct(d.kids, 0, skip, j, k);
    }
  }

  lemma {:induction false} KidLocsDistinct(kids: seq<Dom>, i: nat, skip: bool, j: nat, k: nat)
    requires j < k < |KidLocs(kids, i, skip)|
    ensures KidLocs(kids, i, skip)[j] != KidLocs(kids, i, skip)[k]
    decreases kids, 0
  {
    var here, later := Locs(kids[0], skip), KidLocs(kids[1..], i + 1, skip);
    var n := |here|;
    assert KidLocs(kids, i, skip) == Prepend(i, here) + later;
    if k < n {
      LocsDistinct(kids[0], skip, j, k);
      assert Prepend(i, here)[j][1..] == here[j] && Prepend(i, here)[k][1..] == here[k];
    } else if j < n {
      KidLocsValid(kids[1..], i + 1, skip, later[k - n]);
      assert Prepend(i, here)[j][0] == i;
    } else {
      KidLocsDistinct(kids[1..], i + 1, skip, j - n, k - n);
    }
  }

  // ----- Path strings -----

  datatype Part = Part(tag: string, index: nat)

  function PartText(p: Part): string {
    Dec(p.index) + "." + p.tag
  }

  /** `buildNodePath`: the parts, joined by slashes. */
  function BuildNodePath(parts: seq<Part>): string {
    if parts == [] then ""
    else if |parts| == 1 then PartText(parts[0])
    else PartText(parts[0]) + "/" + BuildNodePath(parts[1..])
  }

  /** The parts of the nodes below `d` on the way to `loc`. */
  function Parts(d: Dom, loc: Loc): (ps: seq<Part>)
    requires ValidLoc(d, loc)
    ensures |ps| == |loc|
    decreases |loc|
  {
    if loc == [] then [] else
      var kid := d.kids[loc[0]];
      [Part(TagOf(kid), loc[0])] + Parts(kid, loc[1..])
  }

  /** `absoluteNodePath` of the node at `loc`. */
  function Path(doc: Doc, loc: Loc): string
    requires ValidLoc(doc.body, loc)
  {
    BuildNodePath([Part("ROOT", 0), Part(TagOf(doc.body), doc.bodyIndex)] + Parts(doc.body, loc))
  }

  /** Tag names hold no slash, as the HTML tokenizer guarantees. */
  predicate CleanTags(d: Dom) {
    d.Element? ==> '/' !in d.tag && forall i :: 0 <= i < |d.kids| ==> CleanTags(d.kids[i])
  }

  predicate CleanParts(parts: seq<Part>) {
    forall i :: 0 <= i < |parts| ==> '/' !in parts[i].tag
  }

  lemma {:induction false} PartsClean(d: Dom, loc: Loc)
    requires ValidLoc(d, loc) && CleanTags(d)
    ensures CleanParts(Parts(d, loc))
    decreases |loc|
  {
    if loc != [] {
      PartsClean(d.kids[loc[0]], loc[1..]);
    }
  }

  lemma {:induction false} DecInjective(m: nat, n: nat)
    requires Dec(m) == Dec(n)
    ensures m == n
  {
    DecValue(m);
    DecValue(n);
  }

  /** A part is read back from its text: digits up to the first dot, then the tag. */
  lemma PartTextInjective(p: Part, q: Part)
    requires PartText(p) == PartText(q)
    ensures p == q
  {
    var s, t := Dec(p.index), Dec(q.index);
    var whole := PartText(p);
    OnlyDigits(s, '.');
    OnlyDigits(t, '.');
    IndexOfFirst(whole, '.', |s|) by { assert whole[..|s|] == s; }
    IndexOfFirst(whole, '.', |t|) by { assert whole[..|t|] == t; }
    assert s == whole[..|s|] == t;
    DecInjective(p.index, q.index);
    assert p.tag == whole[|s| + 1..] == q.tag;
  }

  lemma PartTextClean(p: Part)
    requires '/' !in p.tag
    ensures '/' !in PartText(p)
  {
    OnlyDigits(Dec(p.index), '/');
  }

  lemma LongPathHasSlash(parts: seq<Part>)
    requires |parts| >= 2
    ensures '/' in BuildNodePath(parts)
  {
    assert BuildNodePath(parts)[|PartText(parts[0])|] == '/';
  }

  /** Cutting a path at its first slash. */
  lemma FirstSlash(a: string, x: string, b: string, y: string)
    requires '/' !in a && '/' !in b && a + "/" + x == b + "/" + y
    ensures a == b && x == y
  {
    var s := a + "/" + x;
    IndexOfFirst(s, '/', |a|) by { assert s[..|a|] == a; }
    IndexOfFirst(s, '/', |b|) by { assert s[..|b|] == b; }
    assert a == s[..|a|] == b && x == s[|a| + 1..] == y;
  }

  lemma {:induction false} BuildNodePathInjective(ps: seq<Part>, qs: seq<Part>)
    requires ps != [] && qs != [] && CleanParts(ps) && CleanParts(qs)
    requires BuildNodePath(ps) == BuildNodePath(qs)
    ensures ps == qs
    decreases |ps|
  {
    var a, b := PartText(ps[0]), PartText(qs[0]);
    PartTextClean(ps[0]);
    PartTextClean(qs[0]);
    if |ps| == 1 && |qs| == 1 {
      PartTextInjective(ps[0], qs[0]);
    } else if |ps| == 1 {
      LongPathHasSlash(qs);
      assert false;
    } else if |qs| == 1 {
      LongPathHasSlash(ps);
      assert false;
    } else {
      FirstSlash(a, BuildNodePath(ps[1..]), b, BuildNodePath(qs[1..]));
      PartTextInjective(ps[0], qs[0]);
      BuildNodePathInjective(ps[1..], qs[1..]);
      assert ps == [ps[0]] + ps[1..] && qs == [qs[0]] + qs[1..];
    }
  }

  lemma {:induction false} PartsInjective(d: Dom, loc: Loc, loc': Loc)
    requires ValidLoc(d, loc) && ValidLoc(d, loc') && Parts(d, loc) == Parts(d, loc')
    ensures loc == loc'
    decreases |loc|
  {
    assert |loc| == |Parts(d, loc)| == |loc'|;
    if loc != [] {
      var ps := Parts(d, loc);
      assert loc[0] == ps[0].index == loc'[0];
      assert Parts(d.kids[loc[0]], loc[1..]) == ps[1..];
      assert Parts(d.kids[loc[0]], loc'[1..]) == ps[1..];
      PartsInjective(d.kids[loc[0]], loc[1..], loc'[1..]);
      assert loc == [loc[0]] + loc[1..] && loc' == [loc'[0]] + loc'[1..];
    }
  }

  /** Distinct nodes have distinct path strings. */
  lemma PathInjective(doc: Doc, loc: Loc, loc': Loc)
    requires doc.body.Element? && CleanTags(doc.body)
    requires ValidLoc(doc.body, loc) && ValidLoc(doc.body, loc')
    requires Path(doc, loc) == Path(doc, loc')
    ensures loc == loc'
  {
    var head := [Part("ROOT", 0), Part(TagOf(doc.body), doc.bodyIndex)];
    var ps, qs := Parts(doc.body, loc), Parts(doc.body, loc');
    PartsClean(doc.body, loc);
    PartsClean(doc.body, loc');
    BuildNodePathInjective(head + ps, head + qs);
    assert ps == (head + ps)[2..] == (head + qs)[2..] == qs;
    PartsInjective(doc.body, loc, loc');
  }
}
