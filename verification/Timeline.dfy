/** Lyric timelines and the karaoke clock. */
module Timeline {
  import opened Basics
  import opened Text
  import opened StableSort
  import opened Lrc

  /** `id` stands for the hash that the builder makes from the line and its position. */
  datatype TimedCue = TimedCue(id: string, startMs: int, endMs: int, text: string)

  // ----- Building a timeline -----

  /** `parsePlain`: trimmed non-blank rows, evenly spaced. */
  function ParsePlain(content: string, lineDurationMs: nat): seq<ParsedLine> {
    var rows := NonBlank(SplitLines(content));
    seq(|rows|, i requires 0 <= i < |rows| => ParsedLine(i * lineDurationMs, rows[i]))
  }

  function NonBlank(rows: seq<string>): seq<string> {
    if rows == [] then [] else (if Trim(rows[0]) != "" then [Trim(rows[0])] else []) + NonBlank(rows[1..])
  }

  function EndMs(lines: seq<ParsedLine>, i: nat, defaultDurationMs: nat): int
    requires i < |lines|
  {
    if i + 1 < |lines| then Max(lines[i + 1].startMs, lines[i].startMs + 200) else lines[i].startMs + defaultDurationMs
  }

  /** `linesToTimeline`; `idOf` is the hash of position, start and text. */
  function LinesToTimeline(lines: seq<ParsedLine>, defaultDurationMs: nat, idOf: (nat, ParsedLine) -> string): (cues: seq<TimedCue>)
    ensures |cues| == |lines|
  {
    seq(|lines|, i requires 0 <= i < |lines| =>
      TimedCue(idOf(i, lines[i]), lines[i].startMs, EndMs(lines, i, defaultDurationMs), lines[i].text))
  }

  lemma {:induction false} WithTextAscending(lines: seq<ParsedLine>)
    requires Sorted(lines, StartKey())
    ensures Sorted(WithText(lines), StartKey())
    ensures forall l :: l in WithText(lines) ==> l in lines
  {
    if lines != [] {
      WithTextAscending(lines[1..]);
      forall l | l in WithText(lines[1..]) ensures lines[0].startMs <= l.startMs {
        var k :| 0 <= k < |lines[1..]| && lines[1..][k] == l;
        assert lines[k + 1] == l;
      }
    }
  }

  /** `parseLrc` gives its lines in order of start. */
  lemma LrcAscending(content: string)
    ensures Sorted(ParsedLrc(content), StartKey())
  {
    var sorted := SortBy(AllEntries(SplitLines(content)), StartKey());
    SortCorrect(AllEntries(SplitLines(content)), StartKey());
    WithTextAscending(sorted);
  }

  /** So does `parsePlain`. */
  lemma {:induction false} PlainAscending(content: string, lineDurationMs: nat)
    ensures Sorted(ParsePlain(content, lineDurationMs), StartKey())
  {
    forall i: nat, j: nat | i < j ensures i * lineDurationMs <= j * lineDurationMs {
      Scale(i, j, lineDurationMs);
    }
  }

  /** In order, each cue lasting, ends in order, and no hole between neighbours. */
  ghost predicate Seamless(cues: seq<TimedCue>) {
    && (forall i :: 0 <= i < |cues| ==> cues[i].startMs < cues[i].endMs)
    && (forall i, j :: 0 <= i < j < |cues| ==> cues[i].startMs <= cues[j].startMs && cues[i].endMs <= cues[j].endMs)
    && (forall i :: 0 <= i < |cues| - 1 ==> cues[i + 1].startMs <= cues[i].endMs)
  }

  lemma {:induction false} EndsAscend(cues: seq<TimedCue>, i: nat, j: nat)
    requires i <= j < |cues|
    requires forall k :: 0 <= k < |cues| - 1 ==> cues[k].endMs <= cues[k + 1].endMs
    ensures cues[i].endMs <= cues[j].endMs
    decreases j - i
  {
    if i < j {
      EndsAscend(cues, i, j - 1);
      assert cues[j - 1].endMs <= cues[j - 1 + 1].endMs;
    }
  }

  /** Every timeline built from lines in order, with a last duration of at least 200 ms, is seamless. */
  lemma TimelineSeamless(lines: seq<ParsedLine>, defaultDurationMs: nat, idOf: (nat, ParsedLine) -> string)
    requires Sorted(lines, StartKey()) && defaultDurationMs >= 200
    ensures Seamless(LinesToTimeline(lines, defaultDurationMs, idOf))
  {
    var cues := LinesToTimeline(lines, defaultDurationMs, idOf);
    forall i | 0 <= i < |cues|
      ensures cues[i].startMs == lines[i].startMs && cues[i].endMs == EndMs(lines, i, defaultDurationMs)
    {}
    forall k | 0 <= k < |cues| - 1 ensures cues[k].endMs <= cues[k + 1].endMs && cues[k + 1].startMs <= cues[k].endMs {
      assert lines[k].startMs <= lines[k + 1].startMs;
    }
    forall i, j | 0 <= i < j < |cues| ensures cues[i].endMs <= cues[j].endMs {
      EndsAscend(cues, i, j);
    }
  }

  /** Every line becomes a cue with its start and text, in order; a cue ends where the next one starts, but lasts at least
      200 ms, and the last one lasts as long as asked for. */
  lemma TimelineExact(lines: seq<ParsedLine>, defaultDurationMs: nat, idOf: (nat, ParsedLine) -> string, i: nat)
    requires i < |lines|
    ensures var cues := LinesToTimeline(lines, defaultDurationMs, idOf);
            && |cues| == |lines| && cues[i].startMs == lines[i].startMs && cues[i].text == lines[i].text
            && (i + 1 == |lines| ==> cues[i].endMs - cues[i].startMs == defaultDurationMs)
            && (i + 1 < |lines| ==>
                  && cues[i].endMs - cues[i].startMs >= 200 && cues[i].endMs >= lines[i + 1].startMs
                  && (cues[i].endMs == lines[i + 1].startMs || cues[i].endMs - cues[i].startMs == 200))
  {
    var cues := LinesToTimeline(lines, defaultDurationMs, idOf);
    assert cues[i].startMs == lines[i].startMs && cues[i].endMs == EndMs(lines, i, defaultDurationMs);
  }

  ghost function AllWords(texts: seq<string>): seq<string> {
    if texts == [] then [] else Words(texts[0]) + AllWords(texts[1..])
  }

  /** The words of a text are those of its lines. */
  lemma {:induction false} WordsOfLines(s: string)
    ensures AllWords(SplitLines(s)) == Words(s)
    decreases |s|
  {
    hide Words, IsSpace, IndexOf, SplitLines, ChompCr;
    var k := IndexOf(s, '\n');
    IndexMeans(s, '\n');
    SplitLinesStep(s);
    if k == |s| {
      OneText(s);
    } else {
      var row, rest := s[..k], s[k + 1..];
      WordsOfLines(rest);
      WordsOfChomped(row);
      LineBreaks();
      WordsAcrossSpace(row, '\n', rest);
      assert s == row + ['\n'] + rest;
      assert ([ChompCr(row)] + SplitLines(rest))[1..] == SplitLines(rest);
    }
  }

  lemma OneText(s: string)
    ensures AllWords([s]) == Words(s)
  {
    assert [s][1..] == [] && Words(s) + [] == Words(s);
  }

  lemma WordsOfChomped(row: string)
    ensures Words(ChompCr(row)) == Words(row)
  {
    hide Words, IsSpace;
    if row != [] && row[|row| - 1] == '\r' {
      var init := row[..|row| - 1];
      LineBreaks();
      WordsAcrossSpace(init, '\r', "");
      assert row == init + ['\r'] + "";
      WordsNone("");
      assert Words(init) + [] == Words(init);
    }
  }

  lemma LineBreaks()
    ensures IsSpace('\n') && IsSpace('\r')
  {}

  lemma {:induction false} WordsOfNonBlank(rows: seq<string>)
    ensures AllWords(NonBlank(rows)) == AllWords(rows)
    ensures forall i :: 0 <= i < |NonBlank(rows)| ==> Trimmed(NonBlank(rows)[i])
  {
    hide Words, Trim, IsSpace;
    if rows != [] {
      WordsOfNonBlank(rows[1..]);
      WordsTrimmed(rows[0]);
      TrimTwice(rows[0]);
      if Trim(rows[0]) == "" {
        assert NonBlank(rows) == [] + NonBlank(rows[1..]) == NonBlank(rows[1..]);
      } else {
        assert NonBlank(rows) == [Trim(rows[0])] + NonBlank(rows[1..]);
        assert NonBlank(rows)[1..] == NonBlank(rows[1..]);
      }
    }
  }

  lemma WordsTrimmed(s: string)
    ensures Words(Trim(s)) == Words(s)
    ensures Trim(s) == "" ==> Words(s) == []
  {
    WordsTrimLeft(s);
    WordsTrimRight(TrimLeft(s));
  }

  ghost function TextsOf(lines: seq<ParsedLine>): seq<string> {
    seq(|lines|, i requires 0 <= i < |lines| => lines[i].text)
  }

  /** A plain text becomes trimmed, non-blank lines that together have exactly its words, in order, the first at 0 and each
      later one a fixed time after the one before. */
  lemma PlainExact(content: string, lineDurationMs: nat)
    ensures var lines := ParsePlain(content, lineDurationMs);
            && AllWords(TextsOf(lines)) == Words(content)
            && (forall i :: 0 <= i < |lines| ==> Trimmed(lines[i].text) && lines[i].startMs == i * lineDurationMs)
  {
    hide Words, Trimmed;
    WordsOfLines(content);
    WordsOfNonBlank(SplitLines(content));
    assert TextsOf(ParsePlain(content, lineDurationMs)) == NonBlank(SplitLines(content));
  }

  // ----- The clock -----

  predicate Covers(c: TimedCue, timeMs: real) {
    c.startMs as real <= timeMs < c.endMs as real
  }

  predicate Started(c: TimedCue, timeMs: real) {
    c.startMs as real <= timeMs
  }

  /** `k` is the first cue that covers the time; failing that, the last one that has started, or -1. */
  ghost predicate IsActive(cues: seq<TimedCue>, timeMs: real, k: int) {
    if exists i :: 0 <= i < |cues| && Covers(cues[i], timeMs) then
      0 <= k < |cues| && Covers(cues[k], timeMs) && forall i :: 0 <= i < k ==> !Covers(cues[i], timeMs)
    else
      && -1 <= k < |cues| && (k >= 0 ==> Started(cues[k], timeMs))
      && forall i :: k < i < |cues| ==> !Started(cues[i], timeMs)
  }

  datatype KaraokeState =
    KaraokeState(activeCueId: Option<string>, activeIndex: int, previousId: Option<string>, nextId: Option<string>)

  function IdAt(cues: seq<TimedCue>, k: int): Option<string> {
    if 0 <= k < |cues| then Some(cues[k].id) else None
  }

  /** `karaokeAt`. */
  method KaraokeAt(cues: seq<TimedCue>, timeMs: real) returns (s: KaraokeState)
    ensures IsActive(cues, timeMs, s.activeIndex)
    ensures s.activeCueId == IdAt(cues, s.activeIndex) && s.nextId == IdAt(cues, s.activeIndex + 1)
    ensures s.previousId == IdAt(cues, s.activeIndex - 1)
  {
    if |cues| == 0 {
      return KaraokeState(None, -1, None, None);
    }
    var activeIndex := -1;
    for i := 0 to |cues|
      invariant -1 <= activeIndex < i && (activeIndex >= 0 ==> Started(cues[activeIndex], timeMs))
      invariant forall k :: activeIndex < k < i ==> !Started(cues[k], timeMs)
      invariant forall k :: 0 <= k < i ==> !Covers(cues[k], timeMs)
    {
      var c := cues[i];
      if timeMs >= c.startMs as real && timeMs < c.endMs as real {
        assert Covers(cues[i], timeMs);
        return KaraokeState(IdAt(cues, i), i, IdAt(cues, i - 1), IdAt(cues, i + 1));
      }
      if timeMs >= c.startMs as real {
        activeIndex := i;
      }
    }
    if activeIndex < 0 {
      return KaraokeState(None, -1, None, IdAt(cues, 0));
    }
    s := KaraokeState(IdAt(cues, activeIndex), activeIndex, IdAt(cues, activeIndex - 1), IdAt(cues, activeIndex + 1));
  }

  /** `activeCueAt`, as an index. */
  function ActiveCueAt(cues: seq<TimedCue>, timeMs: real): (r: Option<nat>)
    ensures r.Some? ==> r.value < |cues| && Covers(cues[r.value], timeMs)
    ensures r.Some? ==> forall i :: 0 <= i < r.value ==> !Covers(cues[i], timeMs)
    ensures r.None? ==> forall i :: 0 <= i < |cues| ==> !Covers(cues[i], timeMs)
  {
    if cues == [] then None
    else if Covers(cues[0], timeMs) then Some(0)
    else
      var r := ActiveCueAt(cues[1..], timeMs);
      assert forall i :: 1 <= i < |cues| ==> cues[i] == cues[1..][i - 1];
      if r.None? then None else Some(r.value + 1)
  }

  lemma ActiveUnique(cues: seq<TimedCue>, timeMs: real, k: int, l: int)
    requires IsActive(cues, timeMs, k) && IsActive(cues, timeMs, l)
    ensures k == l
  {}

  /** Between two times, one at or after the start of cue `i` and one before the end of cue `j`, no gap opens. */
  lemma {:induction false} NoGap(cues: seq<TimedCue>, timeMs: real, i: nat, j: nat) returns (k: nat)
    requires Seamless(cues) && i <= j < |cues|
    requires Started(cues[i], timeMs) && timeMs < cues[j].endMs as real
    ensures i <= k <= j && Covers(cues[k], timeMs)
    decreases j - i
  {
    if timeMs < cues[i].endMs as real {
      k := i;
    } else {
      assert i < j;
      assert cues[i + 1].startMs <= cues[i].endMs;
      k := NoGap(cues, timeMs, i + 1, j);
    }
  }

  /** Inside a seamless timeline the karaoke clock and `activeCueAt` name the same cue. */
  lemma {:induction false} ClockAgreesInside(cues: seq<TimedCue>, timeMs: real, k: int)
    requires Seamless(cues) && cues != [] && IsActive(cues, timeMs, k)
    requires cues[0].startMs as real <= timeMs < cues[|cues| - 1].endMs as real
    ensures k >= 0 && ActiveCueAt(cues, timeMs) == Some(k)
  {
    var c := NoGap(cues, timeMs, 0, |cues| - 1);
  }

  /** Off the end of every cue, the active cue is the last one. */
  lemma AfterTheEnd(cues: seq<TimedCue>, timeMs: real, k: int)
    requires Seamless(cues) && IsActive(cues, timeMs, k) && k >= 0 && !Covers(cues[k], timeMs)
    ensures k == |cues| - 1 && forall i :: 0 <= i < |cues| ==> cues[i].endMs as real <= timeMs
  {
    var n := |cues| - 1;
    if timeMs < cues[n].endMs as real {
      var c := NoGap(cues, timeMs, k, n);
      assert false;
    }
    assert Started(cues[n], timeMs);
  }

  /** The active index never goes back as time goes on. */
  lemma {:induction false} ClockMonotone(cues: seq<TimedCue>, t: real, t': real, k: int, k': int)
    requires Seamless(cues) && t <= t' && IsActive(cues, t, k) && IsActive(cues, t', k')
    ensures k <= k'
  {
    if k >= 0 {
      if !Covers(cues[k], t) {
        AfterTheEnd(cues, t, k);
      } else if exists i :: 0 <= i < |cues| && Covers(cues[i], t') {
        if k' < k {
          assert Covers(cues[k'], t);
        }
      } else {
        assert Started(cues[k], t');
      }
    }
  }

  // ----- From a lyric file to the clock -----

  /** On the timeline of any lines in order, the clock never goes back, and inside the timeline it names the cue that
      `activeCueAt` names. */
  lemma ClockOfLines(lines: seq<ParsedLine>, defaultDurationMs: nat, idOf: (nat, ParsedLine) -> string,
                     t: real, t': real, k: int, k': int)
    requires Sorted(lines, StartKey()) && defaultDurationMs >= 200 && t <= t'
    requires IsActive(LinesToTimeline(lines, defaultDurationMs, idOf), t, k)
    requires IsActive(LinesToTimeline(lines, defaultDurationMs, idOf), t', k')
    ensures k <= k'
    ensures var cues := LinesToTimeline(lines, defaultDurationMs, idOf);
            cues != [] && cues[0].startMs as real <= t < cues[|cues| - 1].endMs as real ==> ActiveCueAt(cues, t) == Some(k)
  {
    hide IsActive, Seamless, LinesToTimeline;
    var cues := LinesToTimeline(lines, defaultDurationMs, idOf);
    TimelineSeamless(lines, defaultDurationMs, idOf);
    ClockMonotone(cues, t, t', k, k');
    if cues != [] && cues[0].startMs as real <= t < cues[|cues| - 1].endMs as real {
      ClockAgreesInside(cues, t, k);
    }
  }

  /** So it is for every LRC file, */
  lemma LrcClock(content: string, defaultDurationMs: nat, idOf: (nat, ParsedLine) -> string,
                 t: real, t': real, k: int, k': int)
    requires defaultDurationMs >= 200 && t <= t'
    requires IsActive(LinesToTimeline(ParsedLrc(content), defaultDurationMs, idOf), t, k)
    requires IsActive(LinesToTimeline(ParsedLrc(content), defaultDurationMs, idOf), t', k')
    ensures k <= k'
    ensures var cues := LinesToTimeline(ParsedLrc(content), defaultDurationMs, idOf);
            cues != [] && cues[0].startMs as real <= t < cues[|cues| - 1].endMs as real ==> ActiveCueAt(cues, t) == Some(k)
  {
    hide IsActive, LinesToTimeline;
    LrcAscending(content);
    ClockOfLines(ParsedLrc(content), defaultDurationMs, idOf, t, t', k, k');
  }

  /** and for every plain text. */
  lemma PlainClock(content: string, lineDurationMs: nat, defaultDurationMs: nat, idOf: (nat, ParsedLine) -> string,
                   t: real, t': real, k: int, k': int)
    requires defaultDurationMs >= 200 && t <= t'
    requires IsActive(LinesToTimeline(ParsePlain(content, lineDurationMs), defaultDurationMs, idOf), t, k)
    requires IsActive(LinesToTimeline(ParsePlain(content, lineDurationMs), defaultDurationMs, idOf), t', k')
    ensures k <= k'
    ensures var cues := LinesToTimeline(ParsePlain(content, lineDurationMs), defaultDurationMs, idOf);
            cues != [] && cues[0].startMs as real <= t < cues[|cues| - 1].endMs as real ==> ActiveCueAt(cues, t) == Some(k)
  {
    hide IsActive, LinesToTimeline;
    PlainAscending(content, lineDurationMs);
    ClockOfLines(ParsePlain(content, lineDurationMs), defaultDurationMs, idOf, t, t', k, k');
  }
}
