/** Merging cues whose gaps are small: the fold over sorted cues against the components of the "close" relation. */
module CueMerge {
  import opened Basics
  import opened Text
  import opened StableSort

  /** Times are milliseconds as real numbers. */
  datatype Cue = Cue(id: string, startMs: real, endMs: real, text: string, speaker: Option<string>, provenance: string)

  function StartKey(): (key: Cue -> real)
    ensures forall x :: key(x) == x.startMs
  {
    (c: Cue) => c.startMs
  }

  function Absorb(current: Cue, next: Cue): Cue {
    current.(endMs := MaxReal(current.endMs, next.endMs),
             text := Trim(Collapse(current.text + " " + next.text)),
             speaker := if current.speaker.Some? then current.speaker else next.speaker)
  }

  lemma AbsorbTimes(current: Cue, next: Cue)
    ensures Absorb(current, next).startMs == current.startMs
    ensures Absorb(current, next).endMs == MaxReal(current.endMs, next.endMs)
  {}

  ghost function Fold(current: Cue, rest: seq<Cue>, maxGap: real): seq<Cue>
    decreases |rest|
  {
    if rest == [] then [current]
    else if rest[0].startMs - current.endMs <= maxGap then Fold(Absorb(current, rest[0]), rest[1..], maxGap)
    else [current] + Fold(rest[0], rest[1..], maxGap)
  }

  ghost function Merged(cues: seq<Cue>, maxGap: real): seq<Cue> {
    var sorted := SortBy(cues, StartKey());
    if sorted == [] then [] else Fold(sorted[0], sorted[1..], maxGap)
  }

  /** `mergeAdjacentCues`. */
  method MergeAdjacentCues(cues: seq<Cue>, maxGap: real) returns (out: seq<Cue>)
    ensures out == Merged(cues, maxGap)
  {
    if |cues| == 0 {
      return [];
    }
    hide SortBy, Absorb;
    var sorted := SortBy(cues, StartKey());
    out := [];
    var current := sorted[0];
    for i := 1 to |sorted|
      invariant out + Fold(current, sorted[i..], maxGap) == Merged(cues, maxGap)
    {
      assert sorted[i..][1..] == sorted[i + 1..];
      var next := sorted[i];
      var gap := next.startMs - current.endMs;
      if gap <= maxGap {
        current := Absorb(current, next);
      } else {
        Assoc(out, [current], Fold(next, sorted[i + 1..], maxGap));
        out := out + [current];
        current := next;
      }
    }
    out := out + [current];
  }

  // ----- The groups that are merged -----

  /** The sorted cues, cut where the next start is more than the gap after every end so far. */
  ghost function Groups(group: seq<Cue>, end: real, rest: seq<Cue>, maxGap: real): (gs: seq<seq<Cue>>)
    ensures |gs| > 0
    decreases |rest|
  {
    if rest == [] then [group]
    else if rest[0].startMs - end <= maxGap then Groups(group + [rest[0]], MaxReal(end, rest[0].endMs), rest[1..], maxGap)
    else [group] + Groups([rest[0]], rest[0].endMs, rest[1..], maxGap)
  }

  ghost function GroupsOf(cues: seq<Cue>, maxGap: real): seq<seq<Cue>> {
    var sorted := SortBy(cues, StartKey());
    if sorted == [] then [] else Groups([sorted[0]], sorted[0].endMs, sorted[1..], maxGap)
  }

  ghost function Flatten(gs: seq<seq<Cue>>): seq<Cue> {
    if gs == [] then [] else gs[0] + Flatten(gs[1..])
  }

  ghost function WordsOf(cues: seq<Cue>): seq<string> {
    if cues == [] then [] else WordsOf(cues[..|cues| - 1]) + Words(cues[|cues| - 1].text)
  }

  ghost function FirstSpeaker(cues: seq<Cue>): Option<string> {
    if cues == [] then None
    else
      var s := FirstSpeaker(cues[..|cues| - 1]);
      if s.Some? then s else cues[|cues| - 1].speaker
  }

  /** `o` is the merge of the cues of `g`: it starts with the first, ends with the last to end, keeps the first id and
      provenance and the first speaker there is, and has all their words in order; a lone cue is kept as it is. */
  ghost predicate MergeOf(o: Cue, g: seq<Cue>) {
    && g != [] && o.startMs == g[0].startMs && o.id == g[0].id && o.provenance == g[0].provenance
    && (forall k :: 0 <= k < |g| ==> o.startMs <= g[k].startMs && g[k].endMs <= o.endMs)
    && (exists k :: 0 <= k < |g| && g[k].endMs == o.endMs)
    && Words(o.text) == WordsOf(g)
    && o.speaker == FirstSpeaker(g)
    && (|g| == 1 ==> o == g[0])
  }

  lemma MergeOfOne(c: Cue)
    ensures MergeOf(c, [c])
  {
    assert [c][..0] == [];
    assert [c][0].endMs == c.endMs;
  }

  lemma MergeOfMore(o: Cue, g: seq<Cue>, next: Cue)
    requires MergeOf(o, g) && o.startMs <= next.startMs
    ensures MergeOf(Absorb(o, next), g + [next])
  {
    hide Trim, Collapse, Words;
    var o', g' := Absorb(o, next), g + [next];
    assert g'[..|g'| - 1] == g && g'[|g|] == next;
    WordsOfJoin(o.text, next.text);
    var k :| 0 <= k < |g| && g[k].endMs == o.endMs;
    assert g'[k] == g[k];
    assert g'[if o.endMs <= next.endMs then |g| else k].endMs == o'.endMs;
  }

  /** Fold and groups go hand in hand: each merged cue is the merge of its group. */
  lemma {:induction false} FoldIsByGroups(current: Cue, group: seq<Cue>, rest: seq<Cue>, maxGap: real)
    requires MergeOf(current, group)
    requires Sorted(rest, StartKey()) && forall k :: 0 <= k < |rest| ==> current.startMs <= rest[k].startMs
    ensures var out, gs := Fold(current, rest, maxGap), Groups(group, current.endMs, rest, maxGap);
            && |out| == |gs| && forall k :: 0 <= k < |out| ==> MergeOf(out[k], gs[k])
    decreases |rest|
  {
    hide MergeOf;
    if rest != [] {
      var next := rest[0];
      if next.startMs - current.endMs <= maxGap {
        MergeOfMore(current, group, next);
        FoldIsByGroups(Absorb(current, next), group + [next], rest[1..], maxGap);
      } else {
        MergeOfOne(next);
        FoldIsByGroups(next, [next], rest[1..], maxGap);
      }
    }
  }

  lemma {:induction false} FlattenGroups(group: seq<Cue>, end: real, rest: seq<Cue>, maxGap: real)
    ensures Flatten(Groups(group, end, rest, maxGap)) == group + rest
    decreases |rest|
  {
    if rest == [] {
      assert Flatten([group]) == group + Flatten([group][1..]);
    } else if rest[0].startMs - end <= maxGap {
      FlattenGroups(group + [rest[0]], MaxReal(end, rest[0].endMs), rest[1..], maxGap);
      Assoc(group, [rest[0]], rest[1..]);
    } else {
      var gs := Groups([rest[0]], rest[0].endMs, rest[1..], maxGap);
      FlattenGroups([rest[0]], rest[0].endMs, rest[1..], maxGap);
      assert ([group] + gs)[1..] == gs;
    }
  }

  lemma SortedContents(cues: seq<Cue>)
    ensures Sorted(SortBy(cues, StartKey()), StartKey())
    ensures multiset(SortBy(cues, StartKey())) == multiset(cues)
    ensures forall c :: c in SortBy(cues, StartKey()) <==> c in cues
  {
    var sorted := SortBy(cues, StartKey());
    SortCorrect(cues, StartKey());
    forall c ensures c in sorted <==> c in cues {
      assert c in sorted <==> c in multiset(sorted);
      assert c in cues <==> c in multiset(cues);
    }
  }

  /** The output is one merged cue per group, and the groups make up the sorted input: no cue and no word is lost,
      invented or moved. */
  lemma MergedByGroups(cues: seq<Cue>, maxGap: real)
    ensures Flatten(GroupsOf(cues, maxGap)) == SortBy(cues, StartKey())
    ensures |Merged(cues, maxGap)| == |GroupsOf(cues, maxGap)|
    ensures forall k :: 0 <= k < |Merged(cues, maxGap)| ==> MergeOf(Merged(cues, maxGap)[k], GroupsOf(cues, maxGap)[k])
  {
    hide SortBy, MergeOf;
    var sorted := SortBy(cues, StartKey());
    if sorted != [] {
      SortedContents(cues);
      FlattenGroups([sorted[0]], sorted[0].endMs, sorted[1..], maxGap);
      MergeOfOne(sorted[0]);
      FoldIsByGroups(sorted[0], [sorted[0]], sorted[1..], maxGap);
    }
  }

  lemma {:induction false} WordsConcat(xs: seq<Cue>, ys: seq<Cue>)
    ensures WordsOf(xs + ys) == WordsOf(xs) + WordsOf(ys)
  {
    hide Words;
    if ys == [] {
      assert xs + ys == xs;
    } else {
      var n := |ys| - 1;
      WordsConcat(xs, ys[..n]);
      assert (xs + ys)[..|xs| + n] == xs + ys[..n] && (xs + ys)[|xs| + n] == ys[n];
      Assoc(WordsOf(xs), WordsOf(ys[..n]), Words(ys[n].text));
    }
  }

  lemma {:induction false} WordsByGroups(out: seq<Cue>, gs: seq<seq<Cue>>)
    requires |out| == |gs| && forall k :: 0 <= k < |out| ==> MergeOf(out[k], gs[k])
    ensures WordsOf(out) == WordsOf(Flatten(gs))
  {
    hide Words;
    if out == [] {
      assert WordsOf(Flatten(gs)) == [];
    } else {
      WordsByGroups(out[1..], gs[1..]);
      WordsConcat([out[0]], out[1..]);
      WordsConcat(gs[0], Flatten(gs[1..]));
      assert out == [out[0]] + out[1..];
      assert [out[0]][..0] == [];
      assert WordsOf([out[0]]) == Words(out[0].text);
    }
  }

  /** The words of the output are those of the input in sorted order. */
  lemma WordsConserved(cues: seq<Cue>, maxGap: real)
    ensures WordsOf(Merged(cues, maxGap)) == WordsOf(SortBy(cues, StartKey()))
  {
    MergedByGroups(cues, maxGap);
    WordsByGroups(Merged(cues, maxGap), GroupsOf(cues, maxGap));
  }

  // ----- Gaps and coverage -----

  ghost predicate Proper(cues: seq<Cue>) {
    forall c :: c in cues ==> c.startMs <= c.endMs
  }

  /** Sorted, and more than the gap apart. */
  ghost predicate Apart(cues: seq<Cue>, maxGap: real) {
    forall i, j :: 0 <= i < j < |cues| ==> cues[i].endMs + maxGap < cues[j].startMs
  }

  /** `x` is inside one of the cues or at most the gap after its end. */
  ghost predicate Near(x: real, cues: seq<Cue>, maxGap: real) {
    exists c :: c in cues && c.startMs <= x <= c.endMs + maxGap
  }

  lemma ApartCons(c: Cue, cues: seq<Cue>, maxGap: real)
    requires Apart(cues, maxGap) && Proper(cues) && c.startMs <= c.endMs
    requires forall k :: 0 <= k < |cues| ==> c.endMs + maxGap < cues[k].startMs
    ensures Apart([c] + cues, maxGap) && Proper([c] + cues)
  {}

  ghost predicate StartsFrom(cues: seq<Cue>, start: real) {
    forall k :: 0 <= k < |cues| ==> start <= cues[k].startMs
  }

  lemma {:induction false} FoldStarts(current: Cue, rest: seq<Cue>, maxGap: real)
    requires Sorted(rest, StartKey()) && StartsFrom(rest, current.startMs)
    ensures StartsFrom(Fold(current, rest, maxGap), current.startMs)
    decreases |rest|
  {
    hide Absorb;
    if rest != [] {
      if rest[0].startMs - current.endMs <= maxGap {
        AbsorbTimes(current, rest[0]);
        FoldStarts(Absorb(current, rest[0]), rest[1..], maxGap);
      } else {
        FoldStarts(rest[0], rest[1..], maxGap);
      }
    }
  }

  lemma {:induction false} FoldApart(current: Cue, rest: seq<Cue>, maxGap: real)
    requires current.startMs <= current.endMs && Proper(rest) && maxGap >= 0.0
    requires Sorted(rest, StartKey()) && StartsFrom(rest, current.startMs)
    ensures Apart(Fold(current, rest, maxGap), maxGap) && Proper(Fold(current, rest, maxGap))
    decreases |rest|
  {
    hide Absorb, Apart, Sorted;
    if rest == [] {
      ApartOne(current, maxGap);
    } else {
      OrderTail(rest);
      var next := rest[0];
      assert next in rest && forall c :: c in rest[1..] ==> c in rest;
      AbsorbTimes(current, next);
      if next.startMs - current.endMs <= maxGap {
        FoldApart(Absorb(current, next), rest[1..], maxGap);
      } else {
        FoldApart(next, rest[1..], maxGap);
        FoldStarts(next, rest[1..], maxGap);
        ApartCons(current, Fold(next, rest[1..], maxGap), maxGap);
      }
    }
  }

  lemma ApartOne(c: Cue, maxGap: real)
    ensures Apart([c], maxGap)
  {}

  lemma NearCons(x: real, c: Cue, cues: seq<Cue>, maxGap: real)
    ensures Near(x, [c] + cues, maxGap) <==> c.startMs <= x <= c.endMs + maxGap || Near(x, cues, maxGap)
  {
    assert c in [c] + cues;
    assert forall d :: d in [c] + cues <==> d == c || d in cues;
  }

  lemma {:induction false} FoldNear(current: Cue, rest: seq<Cue>, maxGap: real, x: real)
    requires current.startMs <= current.endMs && Proper(rest) && maxGap >= 0.0
    requires Sorted(rest, StartKey()) && forall k :: 0 <= k < |rest| ==> current.startMs <= rest[k].startMs
    ensures Near(x, Fold(current, rest, maxGap), maxGap) <==> Near(x, [current] + rest, maxGap)
    decreases |rest|
  {
    hide Near, Sorted;
    if rest == [] {
      assert [current] + rest == [current];
    } else {
      OrderTail(rest);
      var next := rest[0];
      assert rest == [next] + rest[1..];
      NearCons(x, current, rest, maxGap);
      NearCons(x, next, rest[1..], maxGap);
      if next.startMs - current.endMs <= maxGap {
        FoldNear(Absorb(current, next), rest[1..], maxGap, x);
        NearCons(x, Absorb(current, next), rest[1..], maxGap);
      } else {
        FoldNear(next, rest[1..], maxGap, x);
        NearCons(x, current, Fold(next, rest[1..], maxGap), maxGap);
      }
    }
  }

  lemma OrderTail(cues: seq<Cue>)
    requires Sorted(cues, StartKey()) && cues != []
    ensures Sorted(cues[1..], StartKey()) && forall k :: 0 <= k < |cues[1..]| ==> cues[0].startMs <= cues[1..][k].startMs
  {}

  /** The output is sorted with every gap above the limit, and covers the same instants as the input, gaps up to the
      limit filled in. */
  lemma MergedApartAndNear(cues: seq<Cue>, maxGap: real)
    requires Proper(cues) && maxGap >= 0.0
    ensures Apart(Merged(cues, maxGap), maxGap) && Proper(Merged(cues, maxGap))
    ensures forall x :: Near(x, Merged(cues, maxGap), maxGap) <==> Near(x, cues, maxGap)
  {
    hide SortBy, Fold, Near, Sorted;
    var sorted := SortBy(cues, StartKey());
    SortedContents(cues);
    if sorted != [] {
      OrderTail(sorted);
      assert sorted == [sorted[0]] + sorted[1..];
      FoldApart(sorted[0], sorted[1..], maxGap);
      forall x ensures Near(x, Merged(cues, maxGap), maxGap) <==> Near(x, cues, maxGap) {
        FoldNear(sorted[0], sorted[1..], maxGap, x);
        SameNear(x, sorted, cues, maxGap);
      }
    } else {
      forall x ensures Near(x, [], maxGap) <==> Near(x, cues, maxGap) {
        SameNear(x, sorted, cues, maxGap);
      }
    }
  }

  lemma SameNear(x: real, xs: seq<Cue>, ys: seq<Cue>, maxGap: real)
    requires forall c :: c in xs <==> c in ys
    ensures Near(x, xs, maxGap) <==> Near(x, ys, maxGap)
  {}

  /** Every input cue lies within some output cue. */
  lemma EveryCueCovered(cues: seq<Cue>, maxGap: real, c: Cue) returns (k: nat)
    requires c in cues
    ensures k < |Merged(cues, maxGap)|
    ensures Merged(cues, maxGap)[k].startMs <= c.startMs && c.endMs <= Merged(cues, maxGap)[k].endMs
  {
    k := GroupOf(cues, maxGap, c);
    MergedByGroups(cues, maxGap);
    assert MergeOf(Merged(cues, maxGap)[k], GroupsOf(cues, maxGap)[k]);
  }

  lemma {:induction false} InSomeGroup(gs: seq<seq<Cue>>, c: Cue) returns (k: nat)
    requires c in Flatten(gs)
    ensures k < |gs| && c in gs[k]
  {
    if c in gs[0] {
      k := 0;
    } else {
      k := InSomeGroup(gs[1..], c);
      k := k + 1;
    }
  }

  lemma GroupOf(cues: seq<Cue>, maxGap: real, c: Cue) returns (k: nat)
    requires c in cues
    ensures k < |GroupsOf(cues, maxGap)| && c in GroupsOf(cues, maxGap)[k]
  {
    hide SortBy;
    MergedByGroups(cues, maxGap);
    SortedContents(cues);
    k := InSomeGroup(GroupsOf(cues, maxGap), c);
  }

  // ----- The input order does not matter -----

  ghost predicate SameIntervals(xs: seq<Cue>, ys: seq<Cue>) {
    |xs| == |ys| && forall k :: 0 <= k < |xs| ==> xs[k].startMs == ys[k].startMs && xs[k].endMs == ys[k].endMs
  }

  ghost predicate SameCover(xs: seq<Cue>, ys: seq<Cue>, maxGap: real) {
    forall x :: Near(x, xs, maxGap) <==> Near(x, ys, maxGap)
  }

  lemma CoverStart(xs: seq<Cue>, ys: seq<Cue>, maxGap: real)
    requires Apart(xs, maxGap) && Apart(ys, maxGap) && Proper(xs) && Proper(ys) && maxGap >= 0.0
    requires SameCover(xs, ys, maxGap) && xs != []
    ensures ys != [] && ys[0].startMs <= xs[0].startMs
  {
    assert xs[0] in xs;
    assert Near(xs[0].startMs, xs, maxGap);
    var c :| c in ys && c.startMs <= xs[0].startMs <= c.endMs + maxGap;
    var k :| 0 <= k < |ys| && ys[k] == c;
    assert ys[0] in ys;
  }

  /** A point just after the first interval's reach, before the next cue. */
  lemma CoverEnd(xs: seq<Cue>, ys: seq<Cue>, maxGap: real)
    requires Apart(xs, maxGap) && Proper(xs) && Proper(ys) && maxGap >= 0.0
    requires SameCover(xs, ys, maxGap) && xs != [] && ys != [] && xs[0].startMs == ys[0].startMs
    ensures ys[0].endMs <= xs[0].endMs
  {
    if xs[0].endMs < ys[0].endMs {
      var bound := if |xs| > 1 && xs[1].startMs < ys[0].endMs + maxGap then xs[1].startMs else ys[0].endMs + maxGap;
      var x := (xs[0].endMs + maxGap + bound) / 2.0;
      assert xs[0] in xs && ys[0] in ys;
      assert xs[0].endMs + maxGap < x <= ys[0].endMs + maxGap;
      assert Near(x, ys, maxGap);
      NotNear(xs, maxGap, x);
    }
  }

  lemma NotNear(xs: seq<Cue>, maxGap: real, x: real)
    requires Apart(xs, maxGap) && Proper(xs) && maxGap >= 0.0
    requires xs != [] && xs[0].endMs + maxGap < x && (|xs| > 1 ==> x < xs[1].startMs)
    ensures !Near(x, xs, maxGap)
  {
    forall c | c in xs ensures !(c.startMs <= x <= c.endMs + maxGap) {
      var k :| 0 <= k < |xs| && xs[k] == c;
      if k > 1 {
        assert xs[1] in xs;
      }
    }
  }

  lemma NearTail(xs: seq<Cue>, maxGap: real, x: real)
    requires Apart(xs, maxGap) && xs != []
    ensures Near(x, xs[1..], maxGap) <==> Near(x, xs, maxGap) && x > xs[0].endMs + maxGap
  {
    if Near(x, xs[1..], maxGap) {
      var c :| c in xs[1..] && c.startMs <= x <= c.endMs + maxGap;
      var k :| 0 <= k < |xs[1..]| && xs[1..][k] == c;
      assert xs[k + 1] == c && c in xs;
    }
    if Near(x, xs, maxGap) && x > xs[0].endMs + maxGap {
      var c :| c in xs && c.startMs <= x <= c.endMs + maxGap;
      var k :| 0 <= k < |xs| && xs[k] == c;
      assert k > 0 && xs[1..][k - 1] == c;
    }
  }

  /** Two lists with all gaps above the limit that cover the same instants have the same intervals. */
  lemma {:induction false} CoverDetermines(xs: seq<Cue>, ys: seq<Cue>, maxGap: real)
    requires Apart(xs, maxGap) && Apart(ys, maxGap) && Proper(xs) && Proper(ys) && maxGap >= 0.0
    requires SameCover(xs, ys, maxGap)
    ensures SameIntervals(xs, ys)
    decreases |xs|
  {
    hide Near;
    if xs == [] {
      if ys != [] {
        CoverStart(ys, xs, maxGap);
      }
    } else {
      CoverStart(xs, ys, maxGap);
      CoverStart(ys, xs, maxGap);
      CoverEnd(xs, ys, maxGap);
      CoverEnd(ys, xs, maxGap);
      forall x ensures Near(x, xs[1..], maxGap) <==> Near(x, ys[1..], maxGap) {
        NearTail(xs, maxGap, x);
        NearTail(ys, maxGap, x);
      }
      CoverDetermines(xs[1..], ys[1..], maxGap);
      SameTail(xs, ys);
    }
  }

  lemma SameTail(xs: seq<Cue>, ys: seq<Cue>)
    requires xs != [] && ys != [] && SameIntervals(xs[1..], ys[1..])
    requires xs[0].startMs == ys[0].startMs && xs[0].endMs == ys[0].endMs
    ensures SameIntervals(xs, ys)
  {
    forall k | 0 < k < |xs| ensures xs[k].startMs == ys[k].startMs && xs[k].endMs == ys[k].endMs {
      assert xs[k] == xs[1..][k - 1] && ys[k] == ys[1..][k - 1];
    }
  }

  /** The intervals do not depend on the order, or on repetitions, of the input. */
  lemma OrderIrrelevant(cues: seq<Cue>, cues': seq<Cue>, maxGap: real)
    requires Proper(cues) && Proper(cues') && maxGap >= 0.0
    requires forall c :: c in cues <==> c in cues'
    ensures SameIntervals(Merged(cues, maxGap), Merged(cues', maxGap))
  {
    hide Near, Merged;
    MergedApartAndNear(cues, maxGap);
    MergedApartAndNear(cues', maxGap);
    forall x ensures Near(x, Merged(cues, maxGap), maxGap) <==> Near(x, Merged(cues', maxGap), maxGap) {
      SameNear(x, cues, cues', maxGap);
    }
    CoverDetermines(Merged(cues, maxGap), Merged(cues', maxGap), maxGap);
  }

  // ----- Merging twice -----

  lemma {:induction false} FoldOfApart(current: Cue, rest: seq<Cue>, maxGap: real)
    requires Apart([current] + rest, maxGap)
    ensures Fold(current, rest, maxGap) == [current] + rest
    decreases |rest|
  {
    if rest != [] {
      var all := [current] + rest;
      assert all[0] == current && all[1] == rest[0];
      assert all[1..] == rest == [rest[0]] + rest[1..];
      forall i, j | 0 <= i < j < |rest| ensures rest[i].endMs + maxGap < rest[j].startMs {
        assert rest[i] == all[i + 1] && rest[j] == all[j + 1];
      }
      FoldOfApart(rest[0], rest[1..], maxGap);
    }
  }

  /** A second merge changes nothing. */
  lemma MergeTwice(cues: seq<Cue>, maxGap: real)
    requires Proper(cues) && maxGap >= 0.0
    ensures Merged(Merged(cues, maxGap), maxGap) == Merged(cues, maxGap)
  {
    hide Near, Fold;
    var out := Merged(cues, maxGap);
    MergedApartAndNear(cues, maxGap);
    forall i, j | 0 <= i < j < |out| ensures StartKey()(out[i]) <= StartKey()(out[j]) {
      assert out[i] in out;
    }
    SortIdentity(out, StartKey());
    if out != [] {
      assert out == [out[0]] + out[1..];
      FoldOfApart(out[0], out[1..], maxGap);
    }
  }

  // ----- One output cue per connected component -----

  /** Neither cue starts more than the gap after the other's end. */
  ghost predicate Close(a: Cue, b: Cue, maxGap: real) {
    a.startMs - b.endMs <= maxGap && b.startMs - a.endMs <= maxGap
  }

  ghost predicate Chain(p: seq<Cue>, cues: seq<Cue>, maxGap: real) {
    && p != []
    && (forall k :: 0 <= k < |p| ==> p[k] in cues)
    && (forall k :: 0 <= k < |p| - 1 ==> Close(p[k], p[k + 1], maxGap))
  }

  ghost predicate Connected(a: Cue, b: Cue, cues: seq<Cue>, maxGap: real) {
    exists p :: Chain(p, cues, maxGap) && p[0] == a && p[|p| - 1] == b
  }

  lemma ConnectedStep(a: Cue, b: Cue, c: Cue, cues: seq<Cue>, maxGap: real)
    requires Connected(a, b, cues, maxGap) && c in cues && Close(b, c, maxGap)
    ensures Connected(a, c, cues, maxGap)
  {
    var p :| Chain(p, cues, maxGap) && p[0] == a && p[|p| - 1] == b;
    var q := p + [c];
    forall k | 0 <= k < |q| - 1 ensures Close(q[k], q[k + 1], maxGap) {
      if k < |p| - 1 {
        assert Close(p[k], p[k + 1], maxGap);
      }
    }
    assert Chain(q, cues, maxGap) && q[0] == a && q[|q| - 1] == c;
  }

  lemma ConnectedSelf(a: Cue, cues: seq<Cue>, maxGap: real)
    requires a in cues
    ensures Connected(a, a, cues, maxGap)
  {
    assert Chain([a], cues, maxGap);
  }

  lemma {:induction false} ConnectedBack(p: seq<Cue>, a: Cue, b: Cue, cues: seq<Cue>, maxGap: real)
    requires Chain(p, cues, maxGap) && p[|p| - 1] == b && Connected(a, b, cues, maxGap)
    ensures Connected(a, p[0], cues, maxGap)
    decreases |p|
  {
    hide Connected;
    if |p| > 1 {
      var n := |p| - 1;
      assert Close(p[n - 1], p[n - 1 + 1], maxGap);
      ConnectedStep(a, b, p[n - 1], cues, maxGap);
      assert Chain(p[..n], cues, maxGap) by {
        forall k | 0 <= k < n - 1 ensures Close(p[..n][k], p[..n][k + 1], maxGap) {
          assert Close(p[k], p[k + 1], maxGap);
        }
      }
      ConnectedBack(p[..n], a, p[n - 1], cues, maxGap);
    }
  }

  ghost predicate GroupConnected(g: seq<Cue>, cues: seq<Cue>, maxGap: real) {
    g != [] && forall c :: c in g ==> c in cues && Connected(g[0], c, cues, maxGap)
  }

  lemma {:induction false} GroupsConnected(group: seq<Cue>, end: real, rest: seq<Cue>, maxGap: real, cues: seq<Cue>, last: Cue)
    requires Proper(cues) && maxGap >= 0.0 && GroupConnected(group, cues, maxGap)
    requires last in group && last.endMs == end
    requires Sorted(rest, StartKey()) && (forall k :: 0 <= k < |rest| ==> rest[k] in cues)
    requires forall k, l :: 0 <= k < |group| && 0 <= l < |rest| ==> group[k].startMs <= rest[l].startMs
    ensures forall k :: 0 <= k < |Groups(group, end, rest, maxGap)| ==>
              GroupConnected(Groups(group, end, rest, maxGap)[k], cues, maxGap)
    decreases |rest|
  {
    hide Connected;
    if rest != [] {
      var next := rest[0];
      assert next in cues;
      if next.startMs - end <= maxGap {
        var k :| 0 <= k < |group| && group[k] == last;
        assert Close(last, next, maxGap);
        ConnectedStep(group[0], last, next, cues, maxGap);
        assert (group + [next])[|group|] == next;
        assert forall c :: c in group + [next] <==> c in group || c == next;
        GroupsConnected(group + [next], MaxReal(end, next.endMs), rest[1..], maxGap, cues,
                        if end <= next.endMs then next else last);
      } else {
        ConnectedSelf(next, cues, maxGap);
        GroupsConnected([next], next.endMs, rest[1..], maxGap, cues, next);
      }
    }
  }

  ghost predicate Inside(c: Cue, o: Cue) {
    o.startMs <= c.startMs && c.endMs <= o.endMs
  }

  /** A cue with a proper interval lies within one output cue only. */
  lemma InsideOne(out: seq<Cue>, maxGap: real, c: Cue, i: nat, j: nat)
    requires Apart(out, maxGap) && maxGap >= 0.0 && c.startMs <= c.endMs
    requires i < |out| && j < |out| && Inside(c, out[i]) && Inside(c, out[j])
    ensures i == j
  {}

  lemma {:induction false} ChainStaysInside(p: seq<Cue>, cues: seq<Cue>, maxGap: real, k: nat)
    requires Proper(cues) && maxGap >= 0.0 && Chain(p, cues, maxGap)
    requires k < |Merged(cues, maxGap)| && Inside(p[0], Merged(cues, maxGap)[k])
    ensures Inside(p[|p| - 1], Merged(cues, maxGap)[k])
    decreases |p|
  {
    hide Merged;
    if |p| > 1 {
      var n := |p| - 1;
      var out := Merged(cues, maxGap);
      assert Close(p[n - 1], p[n - 1 + 1], maxGap);
      assert Chain(p[..n], cues, maxGap) by {
        forall k | 0 <= k < n - 1 ensures Close(p[..n][k], p[..n][k + 1], maxGap) {
          assert Close(p[k], p[k + 1], maxGap);
        }
      }
      ChainStaysInside(p[..n], cues, maxGap, k);
      MergedApartAndNear(cues, maxGap);
      var l := EveryCueCovered(cues, maxGap, p[n]);
      assert p[n - 1] in cues && p[n] in cues;
    }
  }

  /** Two cues end up within the same output cue exactly when a chain of close input cues links them. */
  lemma OnePerComponent(cues: seq<Cue>, maxGap: real, a: Cue, b: Cue)
    requires Proper(cues) && maxGap >= 0.0 && a in cues && b in cues
    ensures Connected(a, b, cues, maxGap)
       <==> exists k :: 0 <= k < |Merged(cues, maxGap)| && Inside(a, Merged(cues, maxGap)[k]) && Inside(b, Merged(cues, maxGap)[k])
  {
    hide Merged, GroupsOf, Connected;
    var out := Merged(cues, maxGap);
    if Connected(a, b, cues, maxGap) {
      ConnectedInside(cues, maxGap, a, b);
    }
    if k :| 0 <= k < |out| && Inside(a, out[k]) && Inside(b, out[k]) {
      var i := GroupOf(cues, maxGap, a);
      var j := GroupOf(cues, maxGap, b);
      MergedByGroups(cues, maxGap);
      MergedApartAndNear(cues, maxGap);
      InGroupInside(out[i], GroupsOf(cues, maxGap)[i], a);
      InGroupInside(out[j], GroupsOf(cues, maxGap)[j], b);
      InsideOne(out, maxGap, a, i, k);
      InsideOne(out, maxGap, b, j, k);
      GroupsOfConnected(cues, maxGap, k);
      SameGroupConnected(GroupsOf(cues, maxGap)[k], cues, maxGap, a, b);
    }
  }

  lemma ConnectedInside(cues: seq<Cue>, maxGap: real, a: Cue, b: Cue)
    requires Proper(cues) && maxGap >= 0.0 && a in cues && Connected(a, b, cues, maxGap)
    ensures exists k :: 0 <= k < |Merged(cues, maxGap)| && Inside(a, Merged(cues, maxGap)[k]) && Inside(b, Merged(cues, maxGap)[k])
  {
    hide Merged;
    var p :| Chain(p, cues, maxGap) && p[0] == a && p[|p| - 1] == b;
    var k := EveryCueCovered(cues, maxGap, a);
    ChainStaysInside(p, cues, maxGap, k);
  }

  lemma InGroupInside(o: Cue, g: seq<Cue>, c: Cue)
    requires MergeOf(o, g) && c in g
    ensures Inside(c, o)
  {
    var k :| 0 <= k < |g| && g[k] == c;
  }

  lemma GroupsOfConnected(cues: seq<Cue>, maxGap: real, k: nat)
    requires Proper(cues) && maxGap >= 0.0 && k < |GroupsOf(cues, maxGap)|
    ensures GroupConnected(GroupsOf(cues, maxGap)[k], cues, maxGap)
  {
    hide SortBy, Connected, Sorted;
    var sorted := SortBy(cues, StartKey());
    SortedContents(cues);
    OrderTail(sorted);
    ConnectedSelf(sorted[0], cues, maxGap);
    GroupsConnected([sorted[0]], sorted[0].endMs, sorted[1..], maxGap, cues, sorted[0]);
  }

  lemma SameGroupConnected(g: seq<Cue>, cues: seq<Cue>, maxGap: real, a: Cue, b: Cue)
    requires GroupConnected(g, cues, maxGap) && a in g && b in g
    ensures Connected(a, b, cues, maxGap)
  {
    var p :| Chain(p, cues, maxGap) && p[0] == g[0] && p[|p| - 1] == a;
    var q :| Chain(q, cues, maxGap) && q[0] == g[0] && q[|q| - 1] == b;
    ConnectedSelf(a, cues, maxGap);
    ConnectedBack(p, a, a, cues, maxGap);
    ConnectedAlong(q, a, cues, maxGap);
  }

  lemma {:induction false} ConnectedAlong(q: seq<Cue>, a: Cue, cues: seq<Cue>, maxGap: real)
    requires Chain(q, cues, maxGap) && Connected(a, q[0], cues, maxGap)
    ensures Connected(a, q[|q| - 1], cues, maxGap)
    decreases |q|
  {
    hide Connected;
    if |q| > 1 {
      assert Close(q[0], q[0 + 1], maxGap);
      ConnectedStep(a, q[0], q[1], cues, maxGap);
      assert Chain(q[1..], cues, maxGap) by {
        forall k | 0 <= k < |q| - 2 ensures Close(q[1..][k], q[1..][k + 1], maxGap) {
          assert Close(q[k + 1], q[k + 1 + 1], maxGap);
        }
      }
      ConnectedAlong(q[1..], a, cues, maxGap);
    }
  }
}
