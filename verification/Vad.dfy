/** The energy-based voice activity splitter: its chunks are the maximal runs of loud frames. */
module Vad {
  import opened Basics

  datatype VadChunk = VadChunk(startMs: nat, endMs: nat, samples: seq<real>)
  datatype VadResult = Chunks(chunks: seq<VadChunk>) | EmptyPcm | ZeroSampleRate

  /** The input cut into frames: samples, frame length, threshold. */
  datatype Input = Input(samples: seq<real>, frameLen: nat, threshold: real)

  ghost predicate Proper(x: Input) {
    x.frameLen >= 1
  }

  /** The end of the frame that begins at sample `i`; the last frame may be short. */
  function FrameEnd(x: Input, i: nat): nat {
    Min(i + x.frameLen, |x.samples|)
  }

  function SumOfSquares(s: seq<real>): real {
    if s == [] then 0.0 else SumOfSquares(s[..|s| - 1]) + s[|s| - 1] * s[|s| - 1]
  }

  /** Whether the mean energy of the frame at `i` reaches the threshold. */
  predicate Loud(x: Input, i: nat)
    requires x.frameLen >= 1 && i < |x.samples|
  {
    var frame := x.samples[i..FrameEnd(x, i)];
    SumOfSquares(frame) / |frame| as real >= x.threshold
  }

  /** The spans of samples that become chunks, scanning from frame `i`. */
  ghost function Spans(x: Input, i: nat, start: nat, inSpeech: bool): seq<(nat, nat)>
    requires Proper(x)
    decreases |x.samples| - i
  {
    var n := |x.samples|;
    if i >= n then if inSpeech then [(start, n)] else []
    else
      var end := FrameEnd(x, i);
      if Loud(x, i) then Spans(x, end, if inSpeech then start else i, true)
      else if inSpeech then [(start, i)] + Spans(x, end, start, false)
      else Spans(x, end, start, false)
  }

  function SamplesToMs(rate: nat, index: nat): nat
    requires rate > 0
  {
    index * 1000 / rate
  }

  /** `chunk_from`. */
  function ChunkFrom(rate: nat, samples: seq<real>, start: nat, end: nat): VadChunk
    requires rate > 0 && start <= end <= |samples|
  {
    VadChunk(SamplesToMs(rate, start), SamplesToMs(rate, end), samples[start..end])
  }

  ghost predicate InRange(spans: seq<(nat, nat)>, n: nat) {
    forall k :: 0 <= k < |spans| ==> spans[k].0 <= spans[k].1 <= n
  }

  ghost function ChunksOf(rate: nat, samples: seq<real>, spans: seq<(nat, nat)>): seq<VadChunk>
    requires rate > 0 && InRange(spans, |samples|)
  {
    seq(|spans|, k requires 0 <= k < |spans| => ChunkFrom(rate, samples, spans[k].0, spans[k].1))
  }

  lemma NoChunks(rate: nat, samples: seq<real>)
    requires rate > 0
    ensures InRange([], |samples|) && ChunksOf(rate, samples, []) == []
  {}

  lemma ChunksSnoc(rate: nat, samples: seq<real>, spans: seq<(nat, nat)>, start: nat, end: nat)
    requires rate > 0 && InRange(spans, |samples|) && start <= end <= |samples|
    ensures InRange(spans + [(start, end)], |samples|)
    ensures ChunksOf(rate, samples, spans + [(start, end)])
         == ChunksOf(rate, samples, spans) + [ChunkFrom(rate, samples, start, end)]
  {}

  function FrameLength(rate: nat, frameMs: nat): nat {
    if rate * frameMs / 1000 < 1 then 1 else rate * frameMs / 1000
  }

  /** `energy_vad_chunks`. */
  method EnergyVadChunks(samples: seq<real>, rate: nat, frameMs: nat, threshold: real) returns (r: VadResult)
    ensures samples == [] ==> r == EmptyPcm
    ensures samples != [] && rate == 0 ==> r == ZeroSampleRate
    ensures samples != [] && rate > 0 ==>
              var spans := Spans(Input(samples, FrameLength(rate, frameMs), threshold), 0, 0, false);
              InRange(spans, |samples|) && r == Chunks(ChunksOf(rate, samples, spans))
  {
    if |samples| == 0 {
      return EmptyPcm;
    }
    if rate == 0 {
      return ZeroSampleRate;
    }
    hide Loud, ChunkFrom, ChunksOf, InRange;
    var x := Input(samples, FrameLength(rate, frameMs), threshold);
    var out, i: nat, chunkStart: nat, inSpeech := [], 0, 0, false;
    ghost var done: seq<(nat, nat)> := [];
    NoChunks(rate, samples);
    while i < |samples|
      invariant 0 <= i <= |samples| && chunkStart <= i
      invariant InRange(done, |samples|) && out == ChunksOf(rate, samples, done)
      invariant Spans(x, 0, 0, false) == done + Spans(x, i, chunkStart, inSpeech)
      decreases |samples| - i
    {
      var end := FrameEnd(x, i);
      if Loud(x, i) {
        if !inSpeech {
          chunkStart := i;
          inSpeech := true;
        }
      } else if inSpeech {
        out := out + [ChunkFrom(rate, samples, chunkStart, i)];
        ChunksSnoc(rate, samples, done, chunkStart, i);
        Assoc(done, [(chunkStart, i)], Spans(x, end, chunkStart, false));
        done := done + [(chunkStart, i)];
        inSpeech := false;
      }
      i := end;
    }
    if inSpeech {
      ChunksSnoc(rate, samples, done, chunkStart, |samples|);
      out := out + [ChunkFrom(rate, samples, chunkStart, |samples|)];
      done := done + [(chunkStart, |samples|)];
    }
    assert done == Spans(x, 0, 0, false);
    r := Chunks(out);
  }

  // ----- Maximal runs -----

  ghost predicate FrameStart(x: Input, j: nat)
    requires Proper(x)
  {
    j < |x.samples| && j % x.frameLen == 0
  }

  /** `[a, b)` is made of loud frames and cannot be extended by a frame on either side. */
  ghost predicate MaximalRun(x: Input, a: nat, b: nat)
    requires Proper(x)
  {
    && a < b <= |x.samples| && FrameStart(x, a) && (b == |x.samples| || FrameStart(x, b))
    && (forall j: nat :: a <= j < b && FrameStart(x, j) ==> Loud(x, j))
    && (a == 0 || (a >= x.frameLen && !Loud(x, a - x.frameLen)))
    && (b == |x.samples| || !Loud(x, b))
  }

  /** Where a scan can be: at a frame or at the end; in speech since a run's start, or after a silent frame. */
  ghost predicate At(x: Input, i: nat, start: nat, inSpeech: bool)
    requires Proper(x)
  {
    && (i == |x.samples| || FrameStart(x, i))
    && (if inSpeech then
          && start < i && FrameStart(x, start)
          && (forall j: nat :: start <= j < i && FrameStart(x, j) ==> Loud(x, j))
          && (start == 0 || (start >= x.frameLen && !Loud(x, start - x.frameLen)))
        else
          i == 0 || (exists j: nat :: j < i && FrameStart(x, j) && FrameEnd(x, j) == i && !Loud(x, j)))
  }

  lemma Multiples(a: nat, b: nat, l: nat)
    requires l >= 1 && a % l == 0 && b % l == 0
    ensures a < b ==> a + l <= b
    ensures (a + l) % l == 0
  {
    var p, q := a / l, b / l;
    assert a == p * l && b == q * l;
    if a < b {
      if q <= p {
        Scale(q, p, l);
        assert false;
      }
      Scale(p + 1, q, l);
      assert (p + 1) * l == a + l;
    }
    ModShift(a, l);
  }

  lemma ModShift(a: nat, l: nat)
    requires l >= 1
    ensures (a + l) % l == a % l
  {
    var q, r := a / l, a % l;
    assert a + l == (q + 1) * l + r;
    Remainder(a + l, q + 1, r, l);
  }

  lemma Remainder(m: nat, q: nat, r: nat, l: nat)
    requires l >= 1 && m == q * l + r && r < l
    ensures m % l == r
  {
    var q', r' := m / l, m % l;
    assert m == q' * l + r';
    assert (q - q') * l == r' - r;
    if q > q' {
      Scale(1, q - q', l);
    } else if q < q' {
      Scale(q - q', -1, l);
    }
  }

  /** The frames on either side of frame `j`. */
  lemma NextFrame(x: Input, j: nat)
    requires Proper(x) && FrameStart(x, j)
    ensures j < FrameEnd(x, j) <= |x.samples|
    ensures FrameEnd(x, j) == |x.samples| || FrameStart(x, FrameEnd(x, j))
    ensures forall k: nat :: FrameStart(x, k) && k > j ==> k >= FrameEnd(x, j) && k >= j + x.frameLen
  {
    ModShift(j, x.frameLen);
    forall k: nat | FrameStart(x, k) && k > j ensures k >= j + x.frameLen {
      Multiples(j, k, x.frameLen);
    }
  }

  /** The frame just before frame `i`, when the scan has passed it. */
  lemma PreviousFrame(x: Input, j: nat, i: nat)
    requires Proper(x) && FrameStart(x, j) && FrameEnd(x, j) == i && FrameStart(x, i)
    ensures i == j + x.frameLen
  {}

  ghost predicate From(x: Input, a: nat, i: nat, start: nat, inSpeech: bool) {
    a >= (if inSpeech then start else i)
  }

  lemma AtLoud(x: Input, i: nat, start: nat, inSpeech: bool)
    requires Proper(x) && At(x, i, start, inSpeech) && i < |x.samples| && Loud(x, i)
    ensures At(x, FrameEnd(x, i), if inSpeech then start else i, true)
  {
    hide Loud;
    NextFrame(x, i);
    var end, s := FrameEnd(x, i), if inSpeech then start else i;
    forall j: nat | s <= j < end && FrameStart(x, j) ensures Loud(x, j) {
      assert j <= i;
    }
    if !inSpeech && i != 0 {
      var j: nat :| j < i && FrameStart(x, j) && FrameEnd(x, j) == i && !Loud(x, j);
      PreviousFrame(x, j, i);
    }
  }

  lemma AtSilent(x: Input, i: nat, start: nat, inSpeech: bool)
    requires Proper(x) && At(x, i, start, inSpeech) && i < |x.samples| && !Loud(x, i)
    ensures At(x, FrameEnd(x, i), start, false)
  {
    hide Loud;
    NextFrame(x, i);
  }

  /** At the end of the input in speech, the run that is open is the one maximal run left. */
  lemma RunsAtEnd(x: Input, start: nat, a: nat, b: nat)
    requires Proper(x) && At(x, |x.samples|, start, true)
    ensures MaximalRun(x, a, b) && a >= start <==> (a, b) == (start, |x.samples|)
  {
    hide Loud;
    if MaximalRun(x, a, b) && a > start {
      Earlier(x, start, a);
      assert false;
    }
  }

  /** Before a frame after `start` there is a frame at or after `start`. */
  lemma Earlier(x: Input, start: nat, a: nat)
    requires Proper(x) && FrameStart(x, start) && FrameStart(x, a) && start < a
    ensures a >= x.frameLen && start <= a - x.frameLen && FrameStart(x, a - x.frameLen)
  {
    Multiples(start, a, x.frameLen);
    var l := x.frameLen;
    var p := a / l;
    assert a == p * l;
    assert a - l == (p - 1) * l + 0;
    assert p >= 1 by {
      if p == 0 {
        assert false;
      }
    }
    Remainder(a - l, p - 1, 0, l);
  }

  /** A silent frame closes the open run, which is the one maximal run between its start and the next frame. */
  lemma RunsAtSilence(x: Input, i: nat, start: nat, a: nat, b: nat)
    requires Proper(x) && At(x, i, start, true) && i < |x.samples| && !Loud(x, i)
    ensures MaximalRun(x, a, b) && a >= start <==> (a, b) == (start, i) || (MaximalRun(x, a, b) && a >= FrameEnd(x, i))
  {
    hide Loud;
    NextFrame(x, i);
    if MaximalRun(x, a, b) && start < a < FrameEnd(x, i) {
      assert a <= i;
      Earlier(x, start, a);
      assert false;
    }
  }

  lemma RunsBetween(x: Input, i: nat, a: nat, b: nat)
    requires Proper(x) && FrameStart(x, i) && !Loud(x, i)
    ensures MaximalRun(x, a, b) && a >= i ==> a >= FrameEnd(x, i)
  {
    hide Loud;
    NextFrame(x, i);
  }

  /** The scan emits exactly the maximal runs from where it is. */
  lemma {:induction false} SpansAreRuns(x: Input, i: nat, start: nat, inSpeech: bool, a: nat, b: nat)
    requires Proper(x) && At(x, i, start, inSpeech)
    ensures (a, b) in Spans(x, i, start, inSpeech) <==> MaximalRun(x, a, b) && From(x, a, i, start, inSpeech)
    decreases |x.samples| - i
  {
    hide Loud, MaximalRun, At;
    if i >= |x.samples| {
      AtInRange(x, i, start, inSpeech);
      if inSpeech {
        RunsAtEnd(x, start, a, b);
      } else {
        RunInRange(x, a, b);
      }
    } else {
      AtInRange(x, i, start, inSpeech);
      NextFrame(x, i);
      var end := FrameEnd(x, i);
      if Loud(x, i) {
        AtLoud(x, i, start, inSpeech);
        SpansAreRuns(x, end, if inSpeech then start else i, true, a, b);
      } else {
        AtSilent(x, i, start, inSpeech);
        SpansAreRuns(x, end, start, false, a, b);
        if inSpeech {
          RunsAtSilence(x, i, start, a, b);
        } else {
          RunsBetween(x, i, a, b);
        }
      }
    }
  }

  lemma AtInRange(x: Input, i: nat, start: nat, inSpeech: bool)
    requires Proper(x) && At(x, i, start, inSpeech)
    ensures i <= |x.samples| && (i < |x.samples| ==> FrameStart(x, i))
  {}

  lemma RunInRange(x: Input, a: nat, b: nat)
    requires Proper(x)
    ensures MaximalRun(x, a, b) ==> a < |x.samples|
  {}

  /** The chunks are exactly the maximal runs of loud frames, the short last frame included. */
  lemma ChunksAreMaximalRuns(x: Input, a: nat, b: nat)
    requires Proper(x)
    ensures (a, b) in Spans(x, 0, 0, false) <==> MaximalRun(x, a, b)
  {
    SpansAreRuns(x, 0, 0, false, a, b);
  }

  // ----- Order, separation, contents -----

  /** In order, each a non-empty range of samples, with at least one whole silent frame between neighbours. */
  ghost predicate Separated(x: Input, spans: seq<(nat, nat)>, from: nat) {
    && (forall k :: 0 <= k < |spans| ==> from <= spans[k].0 < spans[k].1 <= |x.samples|)
    && (forall k, l :: 0 <= k < l < |spans| ==> spans[k].1 + x.frameLen <= spans[l].0)
  }

  lemma SeparatedCons(x: Input, a: nat, b: nat, spans: seq<(nat, nat)>, from: nat)
    requires a < b <= |x.samples| && Separated(x, spans, from) && b + x.frameLen <= from
    ensures Separated(x, [(a, b)] + spans, a)
  {}

  lemma SeparatedNone(x: Input, from: nat)
    ensures Separated(x, [], from)
  {}

  lemma {:induction false} SpansSeparated(x: Input, i: nat, start: nat, inSpeech: bool)
    requires Proper(x) && i <= |x.samples| && (inSpeech ==> start < i)
    ensures Separated(x, Spans(x, i, start, inSpeech), if inSpeech then start else i)
    decreases |x.samples| - i
  {
    hide Loud, Separated;
    SeparatedNone(x, i);
    if i >= |x.samples| {
      if inSpeech {
        SeparatedNone(x, i + x.frameLen);
        SeparatedCons(x, start, i, [], i + x.frameLen);
        assert [(start, i)] + [] == [(start, i)];
      }
    } else {
      var end := FrameEnd(x, i);
      if Loud(x, i) {
        SpansSeparated(x, end, if inSpeech then start else i, true);
        if !inSpeech {
          return;
        }
      } else {
        SpansSeparated(x, end, start, false);
        SpansAfter(x, end, start, i);
        if inSpeech {
          SeparatedCons(x, start, i, Spans(x, end, start, false), i + x.frameLen);
        } else {
          SeparatedFrom(x, Spans(x, end, start, false), end, i);
        }
      }
    }
  }

  lemma SeparatedFrom(x: Input, spans: seq<(nat, nat)>, from: nat, lower: nat)
    requires Separated(x, spans, from) && lower <= from
    ensures Separated(x, spans, lower)
  {}

  /** After the frame at `i`, spans begin a whole frame later, or there are none. */
  lemma SpansAfter(x: Input, end: nat, start: nat, i: nat)
    requires Proper(x) && i < |x.samples| && end == FrameEnd(x, i) && Separated(x, Spans(x, end, start, false), end)
    ensures Separated(x, Spans(x, end, start, false), i + x.frameLen)
  {
    hide Loud;
  }

  ghost function SpanSamples(x: Input, spans: seq<(nat, nat)>): seq<real>
    requires InRange(spans, |x.samples|)
  {
    if spans == [] then [] else x.samples[spans[0].0..spans[0].1] + SpanSamples(x, spans[1..])
  }

  /** The samples of the loud frames from frame `i` on. */
  ghost function LoudSamples(x: Input, i: nat): seq<real>
    requires Proper(x)
    decreases |x.samples| - i
  {
    if i >= |x.samples| then []
    else (if Loud(x, i) then x.samples[i..FrameEnd(x, i)] else []) + LoudSamples(x, FrameEnd(x, i))
  }

  lemma SeparatedInRange(x: Input, spans: seq<(nat, nat)>, from: nat)
    requires Separated(x, spans, from)
    ensures InRange(spans, |x.samples|)
  {}

  lemma FrameEndRange(x: Input, i: nat)
    requires Proper(x)
    ensures i < |x.samples| ==> i < FrameEnd(x, i) <= |x.samples|
  {}

  /** The chunks' samples, put together, are the samples of the loud frames, put together. */
  lemma {:induction false} SamplesConserved(x: Input, i: nat, start: nat, inSpeech: bool)
    requires Proper(x) && i <= |x.samples| && (inSpeech ==> start < i)
    ensures InRange(Spans(x, i, start, inSpeech), |x.samples|)
    ensures SpanSamples(x, Spans(x, i, start, inSpeech))
         == (if inSpeech then x.samples[start..i] else []) + LoudSamples(x, i)
    decreases |x.samples| - i
  {
    hide Loud, Separated, FrameEnd, SpanSamples;
    FrameEndRange(x, i);
    SpansSeparated(x, i, start, inSpeech);
    SeparatedInRange(x, Spans(x, i, start, inSpeech), if inSpeech then start else i);
    NoSpans(x);
    if i >= |x.samples| {
      if inSpeech {
        SpanSamplesCons(x, start, i, []);
        assert [(start, i)] + [] == [(start, i)];
      }
    } else {
      var end := FrameEnd(x, i);
      if Loud(x, i) {
        SamplesConserved(x, end, if inSpeech then start else i, true);
        if inSpeech {
          assert x.samples[start..end] == x.samples[start..i] + x.samples[i..end];
          Assoc(x.samples[start..i], x.samples[i..end], LoudSamples(x, end));
        }
      } else {
        SamplesConserved(x, end, start, false);
        if inSpeech {
          SpanSamplesCons(x, start, i, Spans(x, end, start, false));
        }
      }
    }
  }

  lemma NoSpans(x: Input)
    ensures SpanSamples(x, []) == []
  {}

  lemma SpanSamplesCons(x: Input, a: nat, b: nat, spans: seq<(nat, nat)>)
    requires a <= b <= |x.samples| && InRange(spans, |x.samples|)
    ensures InRange([(a, b)] + spans, |x.samples|)
    ensures SpanSamples(x, [(a, b)] + spans) == x.samples[a..b] + SpanSamples(x, spans)
  {
    assert ([(a, b)] + spans)[1..] == spans;
  }

  lemma ChunkSamplesConserved(x: Input)
    requires Proper(x)
    ensures InRange(Spans(x, 0, 0, false), |x.samples|)
    ensures SpanSamples(x, Spans(x, 0, 0, false)) == LoudSamples(x, 0)
  {
    SamplesConserved(x, 0, 0, false);
    assert [] + LoudSamples(x, 0) == LoudSamples(x, 0);
  }

  lemma MsMonotone(rate: nat, i: nat, j: nat)
    requires rate > 0 && i <= j
    ensures SamplesToMs(rate, i) <= SamplesToMs(rate, j)
  {
    var p, q := i * 1000 / rate, j * 1000 / rate;
    assert q * rate + j * 1000 % rate == j * 1000 && p * rate + i * 1000 % rate == i * 1000;
    assert (q + 1) * rate == q * rate + rate;
    if q < p {
      Scale(q + 1, p, rate);
    }
  }

  /** The millisecond stamps of each chunk are in order, */
  lemma StampsOrdered(x: Input, rate: nat, k: nat)
    requires Proper(x) && rate > 0 && k < |Spans(x, 0, 0, false)|
    ensures InRange(Spans(x, 0, 0, false), |x.samples|)
    ensures var c := ChunksOf(rate, x.samples, Spans(x, 0, 0, false))[k];
            c.startMs <= c.endMs <= SamplesToMs(rate, |x.samples|)
  {
    var spans := Spans(x, 0, 0, false);
    SpansSeparated(x, 0, 0, false);
    MsMonotone(rate, spans[k].0, spans[k].1);
    MsMonotone(rate, spans[k].1, |x.samples|);
  }

  /** and so are those of any two. */
  lemma StampsApart(x: Input, rate: nat, k: nat, l: nat)
    requires Proper(x) && rate > 0 && k < l < |Spans(x, 0, 0, false)|
    ensures InRange(Spans(x, 0, 0, false), |x.samples|)
    ensures var chunks := ChunksOf(rate, x.samples, Spans(x, 0, 0, false)); chunks[k].endMs <= chunks[l].startMs
  {
    var spans := Spans(x, 0, 0, false);
    SpansSeparated(x, 0, 0, false);
    MsMonotone(rate, spans[k].1, spans[l].0);
  }

  // ----- Loudness, frames and milliseconds -----

  lemma {:induction false} SquareSumBounds(s: seq<real>, low: real, high: real)
    requires forall i :: 0 <= i < |s| ==> low <= s[i] * s[i] <= high
    ensures low * |s| as real <= SumOfSquares(s) <= high * |s| as real
  {
    if s != [] {
      var n := |s| - 1;
      SquareSumBounds(s[..n], low, high);
      OneMore(low, n);
      OneMore(high, n);
    }
  }

  lemma OneMore(x: real, n: nat)
    ensures x * (n + 1) as real == x * n as real + x
  {
    assert (n + 1) as real == n as real + 1.0;
  }

  /** A frame whose samples all have at least the threshold's energy is loud, and one whose samples all have less is not:
      so a frame of constant amplitude is loud exactly when that amplitude's square reaches the threshold, whatever the
      frame's length. */
  lemma LoudByAmplitude(x: Input, i: nat, energy: real)
    requires Proper(x) && i < |x.samples|
    requires forall k :: i <= k < i + x.frameLen && k < |x.samples| ==> x.samples[k] * x.samples[k] == energy
    ensures Loud(x, i) <==> energy >= x.threshold
  {
    var frame := x.samples[i..FrameEnd(x, i)];
    SquareSumBounds(frame, energy, energy);
    MeanOf(SumOfSquares(frame), energy, |frame|);
  }

  lemma MeanOf(sum: real, energy: real, n: nat)
    requires n > 0 && sum == energy * n as real
    ensures sum / n as real == energy
  {}

  /** Loudness is a mean: the samples of a frame can be put in two halves of which one is silent. */
  lemma LoudOfTwo(a: real, b: real, threshold: real)
    ensures Loud(Input([a, b], 2, threshold), 0) <==> a * a + b * b >= 2.0 * threshold
  {
    var frame := [a, b];
    assert Input(frame, 2, threshold).samples[0..2] == frame;
    assert frame[..1] == [a] && frame[..1][..0] == [];
    assert SumOfSquares([a]) == a * a;
    assert SumOfSquares(frame) == a * a + b * b;
  }

  /** A frame holds the samples of its milliseconds, rounded down, and at least one. */
  lemma FrameLengthBounds(rate: nat, frameMs: nat)
    ensures var n := FrameLength(rate, frameMs);
            n >= 1 && rate * frameMs < (n + 1) * 1000 && (n > 1 ==> n * 1000 <= rate * frameMs)
  {}

  /** A stamp is the last whole millisecond not after its sample. */
  lemma StampBounds(rate: nat, index: nat)
    requires rate > 0
    ensures SamplesToMs(rate, index) * rate <= index * 1000 < (SamplesToMs(rate, index) + 1) * rate
  {
    var q := index * 1000 / rate;
    assert q * rate + index * 1000 % rate == index * 1000;
    assert (q + 1) * rate == q * rate + rate;
  }

  /** Each chunk is what its run says: the samples of a maximal loud run, with the stamps of its two ends. */
  lemma ChunkExact(x: Input, rate: nat, k: nat)
    requires Proper(x) && rate > 0 && k < |Spans(x, 0, 0, false)|
    ensures InRange(Spans(x, 0, 0, false), |x.samples|)
    ensures var (a, b), c := Spans(x, 0, 0, false)[k], ChunksOf(rate, x.samples, Spans(x, 0, 0, false))[k];
            && MaximalRun(x, a, b) && c.samples == x.samples[a..b]
            && c.startMs * rate <= a * 1000 < (c.startMs + 1) * rate && c.endMs * rate <= b * 1000 < (c.endMs + 1) * rate
  {
    var spans := Spans(x, 0, 0, false);
    SpansSeparated(x, 0, 0, false);
    SeparatedInRange(x, spans, 0);
    assert spans[k] in spans;
    ChunksAreMaximalRuns(x, spans[k].0, spans[k].1);
    StampBounds(rate, spans[k].0);
    StampBounds(rate, spans[k].1);
  }
}
