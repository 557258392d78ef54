/** PCM decoding and linear resampling, in exact arithmetic. */
module Resample {
  import opened Basics

  type Byte = b: nat | b < 256

  /** A little-endian 16-bit two's complement sample, scaled to [-1, 1). */
  function Sample(lo: Byte, hi: Byte): (x: real)
    ensures -1.0 <= x < 1.0
  {
    var u := lo + 256 * hi;
    (if u < 32768 then u else u - 65536) as real / 32768.0
  }

  /** `pcm_i16_le_to_f32`: whole pairs of bytes; an odd byte at the end is dropped. */
  function PcmToSamples(bytes: seq<Byte>): (s: seq<real>)
    ensures |s| == |bytes| / 2
  {
    if |bytes| < 2 then [] else [Sample(bytes[0], bytes[1])] + PcmToSamples(bytes[2..])
  }

  /** The bytes of 16-bit samples, low byte first, in two's complement. */
  function Encoded(samples: seq<int>): seq<Byte> {
    if samples == [] then []
    else [samples[0] % 65536 % 256, samples[0] % 65536 / 256] + Encoded(samples[1..])
  }

  /** Decoding gives every 16-bit sample back, scaled, and drops an odd byte at the end. */
  lemma {:induction false} PcmDecodes(samples: seq<int>, odd: seq<Byte>)
    requires (forall i :: 0 <= i < |samples| ==> -32768 <= samples[i] < 32768) && |odd| <= 1
    ensures PcmToSamples(Encoded(samples) + odd)
         == seq(|samples|, i requires 0 <= i < |samples| => samples[i] as real / 32768.0)
  {
    hide Sample;
    if samples != [] {
      var lo, hi := samples[0] % 65536 % 256, samples[0] % 65536 / 256;
      var bytes := Encoded(samples) + odd;
      assert bytes[2..] == Encoded(samples[1..]) + odd && bytes[0] == lo && bytes[1] == hi;
      PcmDecodes(samples[1..], odd);
      SampleDecodes(samples[0]);
    }
  }

  lemma SampleDecodes(v: int)
    requires -32768 <= v < 32768
    ensures Sample(v % 65536 % 256, v % 65536 / 256) == v as real / 32768.0
  {
    assert v % 65536 % 256 + 256 * (v % 65536 / 256) == v % 65536;
  }

  function Ratio(sourceHz: nat, targetHz: nat): real
    requires sourceHz > 0
  {
    targetHz as real / sourceHz as real
  }

  function OutLength(n: nat, ratio: real): int {
    var r := Round(n as real * ratio);
    if r < 1 then 1 else r
  }

  /** Where output `i` falls among the input samples. */
  function Position(i: nat, ratio: real): real
    requires ratio > 0.0
  {
    i as real / ratio
  }

  function Neighbour(i0: int, n: int): int {
    if i0 + 1 <= n - 1 then i0 + 1 else n - 1
  }

  function Mix(a: real, b: real, t: real): real {
    a * (1.0 - t) + b * t
  }

  /** Every output position reads inside the input. */
  lemma ReadsInBounds(n: nat, ratio: real, i: nat)
    requires n > 0 && ratio > 0.0 && i < OutLength(n, ratio)
    ensures 0 <= Position(i, ratio).Floor < n
  {
    var src := i as real / ratio;
    NonNegative(i, ratio);
    if i > 0 {
      var scaled := n as real * ratio;
      assert i as real <= scaled + 0.5 - 1.0;
      QuotientBelow(i as real, ratio, n as real);
    } else {
      assert src == 0.0;
    }
  }

  lemma NonNegative(i: nat, ratio: real)
    requires ratio > 0.0
    ensures i as real / ratio >= 0.0
    ensures i == 0 ==> i as real / ratio == 0.0
  {}

  lemma QuotientBelow(x: real, ratio: real, n: real)
    requires ratio > 0.0 && x < n * ratio
    ensures x / ratio < n
  {
    var q := x / ratio;
    assert q * ratio == x;
    if q >= n {
      ScaleReal(n, q, ratio);
    }
  }

  ghost predicate Between(x: real, a: real, b: real) {
    (a <= x <= b) || (b <= x <= a)
  }

  lemma MixBetween(a: real, b: real, t: real)
    requires 0.0 <= t < 1.0
    ensures Between(Mix(a, b, t), a, b)
  {
    var x := a * (1.0 - t) + b * t;
    assert x == a + (b - a) * t && x == b - (b - a) * (1.0 - t);
    if a <= b {
      Product(b - a, t);
      Product(b - a, 1.0 - t);
    } else {
      Product(a - b, t);
      Product(a - b, 1.0 - t);
      assert (b - a) * t == -((a - b) * t) && (b - a) * (1.0 - t) == -((a - b) * (1.0 - t));
    }
  }

  /** The last two are no error values of the original: `Panic` stands for a panic of the running thread, `NotANumber` for
      a result of one sample that is not a number. */
  datatype MediaError = Empty | Cancelled | NotFound | NotResumable | Panic | NotANumber
  datatype Result<+T> = Ok(value: T) | Err(error: MediaError)

  /** `resample_linear`. A zero source rate makes the output length the largest machine number, and reserving room for
      that many samples panics; a zero target rate makes the only output position 0 / 0. */
  method ResampleLinear(input: seq<real>, sourceHz: nat, targetHz: nat) returns (r: Result<seq<real>>)
    ensures r == Resampled(input, sourceHz, targetHz)
  {
    if |input| == 0 {
      return Err(Empty);
    }
    if sourceHz == targetHz {
      return Ok(input);
    }
    if sourceHz == 0 {
      return Err(Panic);
    }
    if targetHz == 0 {
      return Err(NotANumber);
    }
    var ratio := Ratio(sourceHz, targetHz);
    RatioPositive(sourceHz, targetHz);
    hide Position, Mix, OutLength;
    var outLength := OutLength(|input|, ratio);
    var samples := [];
    for i := 0 to outLength
      invariant samples == MixedUpTo(input, ratio, i)
    {
      ReadsInBounds(|input|, ratio, i);
      var src := Position(i, ratio);
      var i0 := src.Floor;
      var i1 := Neighbour(i0, |input|);
      var t := src - i0 as real;
      samples := samples + [Mix(input[i0], input[i1], t)];
    }
    r := Ok(samples);
  }

  lemma RatioPositive(sourceHz: nat, targetHz: nat)
    requires sourceHz > 0 && targetHz > 0
    ensures Ratio(sourceHz, targetHz) > 0.0
  {}

  ghost function Mixed(input: seq<real>, ratio: real, i: nat): real
    requires ratio > 0.0 && input != [] && i < OutLength(|input|, ratio)
  {
    ReadsInBounds(|input|, ratio, i);
    var i0 := Position(i, ratio).Floor;
    Mix(input[i0], input[Neighbour(i0, |input|)], Position(i, ratio) - i0 as real)
  }

  ghost function MixedUpTo(input: seq<real>, ratio: real, k: nat): seq<real>
    requires ratio > 0.0 && input != [] && k <= OutLength(|input|, ratio)
  {
    if k == 0 then [] else MixedUpTo(input, ratio, k - 1) + [Mixed(input, ratio, k - 1)]
  }

  ghost function Resampled(input: seq<real>, sourceHz: nat, targetHz: nat): Result<seq<real>>
  {
    if input == [] then Err(Empty)
    else if sourceHz == targetHz then Ok(input)
    else if sourceHz == 0 then Err(Panic)
    else if targetHz == 0 then Err(NotANumber)
    else
      RatioPositive(sourceHz, targetHz);
      Ok(MixedUpTo(input, Ratio(sourceHz, targetHz), OutLength(|input|, Ratio(sourceHz, targetHz))))
  }

  lemma {:induction false} MixedUpToIs(input: seq<real>, ratio: real, k: nat, i: nat)
    requires ratio > 0.0 && input != [] && i < k <= OutLength(|input|, ratio)
    ensures |MixedUpTo(input, ratio, k)| == k
    ensures MixedUpTo(input, ratio, k)[i] == Mixed(input, ratio, i)
  {
    hide Mixed, OutLength;
    if k > 1 {
      MixedUpToIs(input, ratio, k - 1, if i < k - 1 then i else 0);
    }
  }

  /** The output at `i` mixes the samples on either side of its position. */
  lemma OutputAt(input: seq<real>, sourceHz: nat, targetHz: nat, i: nat)
    requires sourceHz > 0 && targetHz > 0 && sourceHz != targetHz && input != []
    requires i < OutLength(|input|, Ratio(sourceHz, targetHz))
    ensures Ratio(sourceHz, targetHz) > 0.0
    ensures |Resampled(input, sourceHz, targetHz).value| == OutLength(|input|, Ratio(sourceHz, targetHz))
    ensures Resampled(input, sourceHz, targetHz).value[i] == Mixed(input, Ratio(sourceHz, targetHz), i)
  {
    hide Mixed, OutLength, Ratio;
    RatioPositive(sourceHz, targetHz);
    MixedUpToIs(input, Ratio(sourceHz, targetHz), OutLength(|input|, Ratio(sourceHz, targetHz)), i);
  }

  /** Each output sample lies between the two neighbouring input samples on either side of its position. */
  lemma OutputsBetweenInputs(input: seq<real>, sourceHz: nat, targetHz: nat, i: nat) returns (i0: nat, i1: nat)
    requires sourceHz > 0 && targetHz > 0 && sourceHz != targetHz && input != []
    requires i < OutLength(|input|, Ratio(sourceHz, targetHz))
    ensures |Resampled(input, sourceHz, targetHz).value| == OutLength(|input|, Ratio(sourceHz, targetHz))
    ensures i0 <= i1 <= i0 + 1 && i1 < |input| && (i0 == i1 ==> i0 == |input| - 1)
    ensures Ratio(sourceHz, targetHz) > 0.0 && i0 as real <= Position(i, Ratio(sourceHz, targetHz)) < (i0 + 1) as real
    ensures Between(Resampled(input, sourceHz, targetHz).value[i], input[i0], input[i1])
  {
    hide OutLength, Ratio, Mix, Between, Position;
    var ratio := Ratio(sourceHz, targetHz);
    OutputAt(input, sourceHz, targetHz, i);
    ReadsInBounds(|input|, ratio, i);
    var src := Position(i, ratio);
    i0 := src.Floor;
    i1 := Neighbour(i0, |input|);
    MixBetween(input[i0], input[i1], src - i0 as real);
  }

  // ----- What the outputs are, in terms of the two rates -----

  lemma PositionInRates(i: nat, sourceHz: nat, targetHz: nat)
    requires sourceHz > 0 && targetHz > 0
    ensures Ratio(sourceHz, targetHz) > 0.0
    ensures Position(i, Ratio(sourceHz, targetHz)) * targetHz as real == (i * sourceHz) as real
  {
    RatioPositive(sourceHz, targetHz);
    var ratio := Ratio(sourceHz, targetHz);
    var p, s := Position(i, ratio), sourceHz as real;
    assert ratio * s == targetHz as real;
    assert p * ratio == i as real;
    assert p * (ratio * s) == (p * ratio) * s;
    IntProduct(i, sourceHz);
  }

  lemma IntProduct(m: nat, n: nat)
    ensures (m * n) as real == m as real * n as real
  {}

  /** Cancelling a positive factor on the right. */
  lemma CancelEqual(x: real, y: real, r: real)
    requires r > 0.0 && x * r == y * r
    ensures x == y
  {
    assert (x - y) * r == 0.0;
  }

  /** The output at `i`, whatever its neighbours, in terms of the position. */
  lemma OutputMixes(input: seq<real>, sourceHz: nat, targetHz: nat, i: nat, n: nat, p: real)
    requires sourceHz > 0 && targetHz > 0 && sourceHz != targetHz && input != []
    requires Resampled(input, sourceHz, targetHz).Ok? && i < |Resampled(input, sourceHz, targetHz).value|
    requires p * targetHz as real == (i * sourceHz) as real && n as real <= p < n as real + 1.0
    ensures n < |input|
    ensures Resampled(input, sourceHz, targetHz).value[i] == Mix(input[n], input[Neighbour(n, |input|)], p - n as real)
  {
    hide Mix, OutLength, Ratio, Position, MixedUpTo;
    var ratio := Ratio(sourceHz, targetHz);
    PositionInRates(i, sourceHz, targetHz);
    CancelEqual(Position(i, ratio), p, targetHz as real);
    LengthIs(input, sourceHz, targetHz);
    OutputAt(input, sourceHz, targetHz, i);
    ReadsInBounds(|input|, ratio, i);
    assert p.Floor == n;
  }

  lemma LengthIs(input: seq<real>, sourceHz: nat, targetHz: nat)
    requires sourceHz > 0 && targetHz > 0 && sourceHz != targetHz && input != []
    ensures Resampled(input, sourceHz, targetHz).Ok?
    ensures |Resampled(input, sourceHz, targetHz).value| == OutLength(|input|, Ratio(sourceHz, targetHz)) >= 1
  {
    OutputAt(input, sourceHz, targetHz, 0);
  }

  /** An output that falls exactly on an input sample is that sample. */
  lemma WholePositionCopies(input: seq<real>, sourceHz: nat, targetHz: nat, i: nat, n: nat)
    requires sourceHz > 0 && targetHz > 0 && sourceHz != targetHz && input != []
    requires Resampled(input, sourceHz, targetHz).Ok? && i < |Resampled(input, sourceHz, targetHz).value|
    requires i * sourceHz == n * targetHz
    ensures n < |input| && Resampled(input, sourceHz, targetHz).value[i] == input[n]
  {
    IntProduct(n, targetHz);
    OutputMixes(input, sourceHz, targetHz, i, n, n as real);
  }

  /** On a linear ramp, every output whose right neighbour exists is the ramp's value at its position `p`. */
  lemma RampStaysRamp(input: seq<real>, sourceHz: nat, targetHz: nat, i: nat, n: nat, p: real, a: real, b: real)
    requires sourceHz > 0 && targetHz > 0 && sourceHz != targetHz && input != []
    requires forall k :: 0 <= k < |input| ==> input[k] == a + b * k as real
    requires Resampled(input, sourceHz, targetHz).Ok? && i < |Resampled(input, sourceHz, targetHz).value|
    requires p * targetHz as real == (i * sourceHz) as real && n as real <= p < n as real + 1.0 && n + 1 < |input|
    ensures Resampled(input, sourceHz, targetHz).value[i] == a + b * p
  {
    hide Resampled, Mix;
    OutputMixes(input, sourceHz, targetHz, i, n, p);
    assert Neighbour(n, |input|) == n + 1 && (n + 1) as real == n as real + 1.0;
    RampMix(input[n], input[n + 1], a, b, n as real, (n + 1) as real, p);
  }

  lemma Distribute(x: real, y: real, r: real)
    ensures (x + y) * r == x * r + y * r
  {}

  lemma RampMix(x: real, y: real, a: real, b: real, n: real, next: real, p: real)
    requires next == n + 1.0 && x == a + b * n && y == a + b * next
    ensures Mix(x, y, p - n) == a + b * p
  {
    Distribute(n, 1.0, b);
    Distribute(n, p - n, b);
    MixStep(x, b, p - n);
  }

  lemma MixStep(x: real, b: real, t: real)
    ensures Mix(x, x + b, t) == x + b * t
  {}

  /** There are as many outputs as the input's duration `x` holds at the target rate, to the nearest, and at least one. */
  lemma LengthNearest(input: seq<real>, sourceHz: nat, targetHz: nat, x: real)
    requires sourceHz > 0 && targetHz > 0 && sourceHz != targetHz && input != []
    requires x * sourceHz as real == |input| as real * targetHz as real
    ensures Resampled(input, sourceHz, targetHz).Ok?
    ensures var m := |Resampled(input, sourceHz, targetHz).value|;
            m >= 1 && x < m as real + 0.5 && (m == 1 || m as real - 0.5 <= x)
  {
    hide Resampled, Ratio, Round;
    LengthIs(input, sourceHz, targetHz);
    RatioTimes(|input| as real, sourceHz, targetHz);
    CancelEqual(x, |input| as real * Ratio(sourceHz, targetHz), sourceHz as real);
    LengthBounds(|input|, Ratio(sourceHz, targetHz));
  }

  lemma RatioTimes(x: real, sourceHz: nat, targetHz: nat)
    requires sourceHz > 0
    ensures x * Ratio(sourceHz, targetHz) * sourceHz as real == x * targetHz as real
  {
    var r, s := Ratio(sourceHz, targetHz), sourceHz as real;
    assert r * s == targetHz as real;
    assert x * r * s == x * (r * s);
  }

  lemma LengthBounds(n: nat, ratio: real)
    ensures var m, x := OutLength(n, ratio), n as real * ratio;
            m >= 1 && x < m as real + 0.5 && (m > 1 ==> m as real - 0.5 <= x)
  {}
}
