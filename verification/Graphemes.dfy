/** Finding surfaces in a text and splitting the text at them, in grapheme units; the segmentation is given. */
module Graphemes {
  import opened Basics
  import opened Text
  import opened StableSort

  type Grapheme = string

  /** From `start` up to `end`, in graphemes. */
  datatype Span = Span(start: nat, end: nat)

  datatype Slice = Slice(text: string, start: nat, end: nat)

  function Concat(gs: seq<Grapheme>): string {
    if gs == [] then "" else gs[0] + Concat(gs[1..])
  }

  /** `sliceGraphemes`, cut at the length as JavaScript's `slice` does. */
  function SliceGraphemes(text: seq<Grapheme>, start: nat, end: nat): string {
    var to := if end <= |text| then end else |text|;
    if start <= to then Concat(text[start..to]) else ""
  }

  // ----- Finding -----

  predicate OccursAt(text: seq<Grapheme>, needle: seq<Grapheme>, i: nat) {
    i + |needle| <= |text| && text[i..i + |needle|] == needle
  }

  ghost predicate IsLeftmost(text: seq<Grapheme>, needle: seq<Grapheme>, r: Option<Span>) {
    match r
    case Some(s) => needle != [] && s.end == s.start + |needle| && OccursAt(text, needle, s.start)
                    && forall i: nat :: i < s.start ==> !OccursAt(text, needle, i)
    case None => needle == [] || forall i: nat :: !OccursAt(text, needle, i)
  }

  /** The first occurrence at position `i` or later. */
  ghost function Search(text: seq<Grapheme>, needle: seq<Grapheme>, i: nat): (r: Option<Span>)
    ensures r.Some? ==> i <= r.value.start && r.value.end == r.value.start + |needle| && OccursAt(text, needle, r.value.start)
    ensures r.Some? ==> forall k: nat :: i <= k < r.value.start ==> !OccursAt(text, needle, k)
    ensures r.None? ==> forall k: nat :: i <= k ==> !OccursAt(text, needle, k)
    decreases |text| - i
  {
    if i + |needle| > |text| then None
    else if OccursAt(text, needle, i) then Some(Span(i, i + |needle|))
    else Search(text, needle, i + 1)
  }

  ghost function Leftmost(text: seq<Grapheme>, needle: seq<Grapheme>): (r: Option<Span>)
    ensures IsLeftmost(text, needle, r)
  {
    if needle == [] then None else Search(text, needle, 0)
  }

  /** `findGraphemeSpan`: the leftmost occurrence, or nothing exactly when there is none. */
  method FindGraphemeSpan(text: seq<Grapheme>, needle: seq<Grapheme>) returns (r: Option<Span>)
    ensures IsLeftmost(text, needle, r) && r == Leftmost(text, needle)
  {
    if |needle| == 0 {
      return None;
    }
    var i := 0;
    while i + |needle| <= |text|
      invariant Search(text, needle, 0) == Search(text, needle, i)
    {
      var j := 0;
      while j < |needle| && text[i + j] == needle[j]
        invariant j <= |needle| && text[i..i + j] == needle[..j]
      {
        assert text[i..i + j + 1] == text[i..i + j] + [text[i + j]];
        j := j + 1;
      }
      if j == |needle| {
        return Some(Span(i, i + |needle|));
      }
      assert text[i..i + |needle|][j] == text[i + j] != needle[j];
      i := i + 1;
    }
    r := None;
  }

  // ----- Splitting -----

  /** The pieces that the loop makes of the remaining spans, from `cursor` on. */
  ghost function Pieces(spans: seq<Span>, cursor: nat, n: nat): seq<Span> {
    if spans == [] then if cursor < n then [Span(cursor, n)] else []
    else
      var s := spans[0];
      if s.start < cursor then Pieces(spans[1..], cursor, n)
      else (if s.start > cursor then [Span(cursor, s.start)] else []) + ([s] + Pieces(spans[1..], s.end, n))
  }

  ghost function SlicesOf(text: seq<Grapheme>, pieces: seq<Span>): seq<Slice> {
    seq(|pieces|, k requires 0 <= k < |pieces| =>
      Slice(SliceGraphemes(text, pieces[k].start, pieces[k].end), pieces[k].start, pieces[k].end))
  }

  function StartKey(): (key: Span -> real)
    ensures forall x :: key(x) == x.start as real
  {
    (s: Span) => s.start as real
  }

  /** The leftmost spans of the surfaces that occur, in the order of the surfaces. */
  ghost function Found(text: seq<Grapheme>, surfaces: seq<seq<Grapheme>>): seq<Span> {
    if surfaces == [] then []
    else
      var r := Leftmost(text, surfaces[|surfaces| - 1]);
      Found(text, surfaces[..|surfaces| - 1]) + (if r.Some? then [r.value] else [])
  }

  method FindAll(text: seq<Grapheme>, surfaces: seq<seq<Grapheme>>) returns (found: seq<Span>)
    ensures found == Found(text, surfaces)
  {
    found := [];
    for i := 0 to |surfaces|
      invariant found == Found(text, surfaces[..i])
    {
      var r := FindGraphemeSpan(text, surfaces[i]);
      assert surfaces[..i + 1][..i] == surfaces[..i];
      if r.Some? {
        found := found + [r.value];
      }
    }
    assert surfaces[..|surfaces|] == surfaces;
  }

  lemma {:induction false} FoundSpans(text: seq<Grapheme>, surfaces: seq<seq<Grapheme>>, s: Span)
    ensures s in Found(text, surfaces) <==> exists i :: 0 <= i < |surfaces| && Leftmost(text, surfaces[i]) == Some(s)
  {
    hide Leftmost;
    if surfaces != [] {
      var n := |surfaces| - 1;
      FoundSpans(text, surfaces[..n], s);
      if i :| 0 <= i < |surfaces| && Leftmost(text, surfaces[i]) == Some(s) {
        assert i < n ==> surfaces[..n][i] == surfaces[i];
      }
      if s in Found(text, surfaces[..n]) {
        var i :| 0 <= i < n && Leftmost(text, surfaces[..n][i]) == Some(s);
        assert surfaces[i] == surfaces[..n][i];
      }
    }
  }

  /** The pieces of a text at the surfaces that occur in it. */
  ghost function SplitAt(text: seq<Grapheme>, surfaces: seq<seq<Grapheme>>): seq<Span> {
    Pieces(SortBy(Found(text, surfaces), StartKey()), 0, |text|)
  }

  /** `splitHighlightSurfaces`. */
  method SplitHighlightSurfaces(text: seq<Grapheme>, surfaces: seq<seq<Grapheme>>)
      returns (out: seq<Slice>)
    ensures out == SlicesOf(text, SplitAt(text, surfaces))
  {
    var matches := FindAll(text, surfaces);
    hide SliceGraphemes, SlicesOf, SortBy;
    var spans := SortBy(matches, StartKey());
    out := [];
    ghost var done: seq<Span> := [];
    ghost var all := Pieces(spans, 0, |text|);
    NoSlices(text);
    var cursor: nat := 0;
    for i := 0 to |spans|
      invariant out == SlicesOf(text, done)
      invariant all == done + Pieces(spans[i..], cursor, |text|)
    {
      var span := spans[i];
      assert spans[i..][1..] == spans[i + 1..];
      if span.start < cursor {
        continue;
      }
      ghost var rest := Pieces(spans[i + 1..], span.end, |text|);
      if span.start > cursor {
        AddSlice(text, done, Span(cursor, span.start));
        out := out + [Slice(SliceGraphemes(text, cursor, span.start), cursor, span.start)];
        Assoc(done, [Span(cursor, span.start)], [span] + rest);
        done := done + [Span(cursor, span.start)];
      }
      AddSlice(text, done, span);
      out := out + [Slice(SliceGraphemes(text, span.start, span.end), span.start, span.end)];
      Assoc(done, [span], rest);
      done := done + [span];
      cursor := span.end;
    }
    if cursor < |text| {
      AddSlice(text, done, Span(cursor, |text|));
      out := out + [Slice(SliceGraphemes(text, cursor, |text|), cursor, |text|)];
      done := done + [Span(cursor, |text|)];
    }
    assert done == all;
  }

  lemma NoSlices(text: seq<Grapheme>)
    ensures SlicesOf(text, []) == []
  {}

  lemma AddSlice(text: seq<Grapheme>, pieces: seq<Span>, p: Span)
    ensures SlicesOf(text, pieces + [p]) == SlicesOf(text, pieces) + [Slice(SliceGraphemes(text, p.start, p.end), p.start, p.end)]
  {}

  // ----- The pieces tile the text -----

  ghost predicate InText(spans: seq<Span>, n: nat) {
    forall k :: 0 <= k < |spans| ==> spans[k].start < spans[k].end <= n
  }

  /** Non-empty pieces, each starting where the one before ends, from `from` up to `n`. */
  ghost predicate Tiles(pieces: seq<Span>, from: nat, n: nat) {
    if pieces == [] then from == n
    else pieces[0].start == from < pieces[0].end && Tiles(pieces[1..], pieces[0].end, n)
  }

  lemma TilesCons(p: Span, pieces: seq<Span>, n: nat)
    requires p.start < p.end && Tiles(pieces, p.end, n)
    ensures Tiles([p] + pieces, p.start, n)
  {
    assert ([p] + pieces)[1..] == pieces;
  }

  lemma {:induction false} PiecesTile(spans: seq<Span>, cursor: nat, n: nat)
    requires InText(spans, n) && cursor <= n
    ensures Tiles(Pieces(spans, cursor, n), cursor, n)
  {
    hide Tiles;
    if spans == [] {
      TilesEnd(cursor, n);
    } else {
      var s := spans[0];
      if s.start < cursor {
        PiecesTile(spans[1..], cursor, n);
      } else {
        var rest := Pieces(spans[1..], s.end, n);
        PiecesTile(spans[1..], s.end, n);
        TilesCons(s, rest, n);
        if s.start > cursor {
          TilesCons(Span(cursor, s.start), [s] + rest, n);
        } else {
          assert [] + ([s] + rest) == [s] + rest;
        }
      }
    }
  }

  lemma TilesEnd(cursor: nat, n: nat)
    requires cursor <= n
    ensures Tiles(if cursor < n then [Span(cursor, n)] else [], cursor, n)
  {
    if cursor < n {
      TilesCons(Span(cursor, n), [], n);
      assert [Span(cursor, n)] + [] == [Span(cursor, n)];
    }
  }

  lemma {:induction false} ConcatTiles(text: seq<Grapheme>, a: nat, b: nat)
    requires a <= b <= |text|
    ensures Concat(text[a..]) == Concat(text[a..b]) + Concat(text[b..])
    decreases b - a
  {
    if a == b {
      assert text[a..b] == [];
    } else {
      ConcatTiles(text, a + 1, b);
      assert text[a..][1..] == text[a + 1..] && text[a..b][1..] == text[a + 1..b];
      Assoc(text[a], Concat(text[a + 1..b]), Concat(text[b..]));
    }
  }

  ghost function Texts(slices: seq<Slice>): string {
    if slices == [] then "" else slices[0].text + Texts(slices[1..])
  }

  lemma {:induction false} TilesConcat(text: seq<Grapheme>, pieces: seq<Span>, from: nat)
    requires Tiles(pieces, from, |text|) && from <= |text|
    ensures Texts(SlicesOf(text, pieces)) == Concat(text[from..])
  {
    if pieces != [] {
      var p := pieces[0];
      TilesBound(pieces[1..], p.end, |text|);
      TilesConcat(text, pieces[1..], p.end);
      ConcatTiles(text, from, p.end);
      assert SlicesOf(text, pieces)[1..] == SlicesOf(text, pieces[1..]);
    }
  }

  lemma {:induction false} TilesBound(pieces: seq<Span>, from: nat, n: nat)
    requires Tiles(pieces, from, n)
    ensures from <= n
  {
    if pieces != [] {
      TilesBound(pieces[1..], pieces[0].end, n);
    }
  }

  lemma SortedSpans(found: seq<Span>, n: nat)
    requires InText(found, n)
    ensures InText(SortBy(found, StartKey()), n)
    ensures forall s :: s in SortBy(found, StartKey()) <==> s in found
  {
    var spans := SortBy(found, StartKey());
    SortCorrect(found, StartKey());
    forall s ensures s in spans <==> s in found {
      assert s in spans <==> s in multiset(spans);
      assert s in found <==> s in multiset(found);
    }
    forall k | 0 <= k < |spans| ensures spans[k].start < spans[k].end <= n {
      assert spans[k] in spans;
      var j :| 0 <= j < |found| && found[j] == spans[k];
    }
  }

  lemma FoundInText(text: seq<Grapheme>, surfaces: seq<seq<Grapheme>>)
    ensures InText(Found(text, surfaces), |text|)
  {
    var found := Found(text, surfaces);
    forall k | 0 <= k < |found| ensures found[k].start < found[k].end <= |text| {
      FoundSpans(text, surfaces, found[k]);
      var i :| 0 <= i < |surfaces| && Leftmost(text, surfaces[i]) == Some(found[k]);
      assert IsLeftmost(text, surfaces[i], Some(found[k]));
    }
  }

  /** The pieces are non-empty, contiguous, cover the text, and concatenate to it. */
  lemma SplitTilesText(text: seq<Grapheme>, surfaces: seq<seq<Grapheme>>)
    ensures Tiles(SplitAt(text, surfaces), 0, |text|)
    ensures Texts(SlicesOf(text, SplitAt(text, surfaces))) == Concat(text)
  {
    var found := Found(text, surfaces);
    FoundInText(text, surfaces);
    SortedSpans(found, |text|);
    PiecesTile(SortBy(found, StartKey()), 0, |text|);
    TilesConcat(text, SplitAt(text, surfaces), 0);
    assert text[0..] == text;
  }

  // ----- Found surfaces are kept or overlapped -----

  ghost predicate Overlapped(s: Span, kept: Span) {
    kept.start <= s.start < kept.end
  }

  lemma {:induction false} KeptOrOverlapped(spans: seq<Span>, cursor: nat, n: nat, s: Span)
    requires Sorted(spans, StartKey()) && s in spans
    ensures || s in Pieces(spans, cursor, n)
            || s.start < cursor
            || exists t :: t in spans && t in Pieces(spans, cursor, n) && Overlapped(s, t)
  {
    var first := spans[0];
    var rest := spans[1..];
    if first.start < cursor {
      if s in rest {
        KeptOrOverlapped(rest, cursor, n, s);
      }
    } else {
      assert first in Pieces(spans, cursor, n);
      if s != first {
        assert s in rest;
        var k :| 0 <= k < |rest| && rest[k] == s;
        assert first.start <= spans[k + 1].start == s.start;
        KeptOrOverlapped(rest, first.end, n, s);
        assert forall t :: t in Pieces(rest, first.end, n) ==> t in Pieces(spans, cursor, n);
        if s.start < first.end {
          assert Overlapped(s, first);
        }
      }
    }
  }

  /** Every surface that occurs has its leftmost occurrence as a piece, or that occurrence starts inside the leftmost
      occurrence of another surface, which is one. */
  lemma SurfacesKeptOrOverlapped(text: seq<Grapheme>, surfaces: seq<seq<Grapheme>>, i: nat)
    requires i < |surfaces| && Leftmost(text, surfaces[i]).Some?
    ensures var s, pieces := Leftmost(text, surfaces[i]).value, SplitAt(text, surfaces);
            || s in pieces
            || exists j :: 0 <= j < |surfaces| && Leftmost(text, surfaces[j]).Some?
                 && Leftmost(text, surfaces[j]).value in pieces && Overlapped(s, Leftmost(text, surfaces[j]).value)
  {
    var found, s := Found(text, surfaces), Leftmost(text, surfaces[i]).value;
    hide Leftmost, Pieces, SortBy;
    var spans := SortBy(found, StartKey());
    FoundInText(text, surfaces);
    SortedSpans(found, |text|);
    SortCorrect(found, StartKey());
    FoundSpans(text, surfaces, s);
    KeptOrOverlapped(spans, 0, |text|, s);
    if s !in SplitAt(text, surfaces) {
      var t :| t in spans && t in SplitAt(text, surfaces) && Overlapped(s, t);
      FoundSpans(text, surfaces, t);
    }
  }
}
