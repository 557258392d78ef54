/** The FSRS-5 review scheduler, in real arithmetic. */
module Fsrs {
  import opened Basics
  import opened Text

  // ----- Exponential and power -----

  /** At least the 19 weights that the formulas read. */
  type Weights = w: seq<real> | |w| >= 19 witness DEFAULT_WEIGHTS

  /** The two library functions, of which only `Laws` is used, and the weights. */
  datatype Scheduler = Scheduler(exp: real -> real, pow: (real, real) -> real, w: Weights)

  ghost predicate Laws(m: Scheduler) {
    && (forall x: real :: m.exp(x) > 0.0)
    && (forall x: real :: x >= 0.0 ==> m.exp(x) >= 1.0)
    && (forall b: real, e: real :: b > 0.0 ==> m.pow(b, e) > 0.0)
    && (forall b: real, e: real :: b >= 1.0 && e <= 0.0 ==> m.pow(b, e) <= 1.0)
    && (forall b: real, e: real :: 0.0 < b <= 1.0 && e <= 0.0 ==> m.pow(b, e) >= 1.0)
    && (forall b: real :: b > 0.0 ==> m.pow(b, -0.5) * m.pow(b, -0.5) * b == 1.0)
    && (forall b: real :: b > 0.0 ==> m.pow(b, -2.0) * (b * b) == 1.0)
  }

  /** How the two functions grow. */
  ghost predicate Monotone(m: Scheduler) {
    && (forall x: real, y: real :: x <= y ==> m.exp(x) <= m.exp(y))
    && (forall b: real, c: real, e: real :: 0.0 < b <= c && e >= 0.0 ==> m.pow(b, e) <= m.pow(c, e))
    && (forall b: real, c: real, e: real :: 0.0 < b <= c && e <= 0.0 ==> m.pow(c, e) <= m.pow(b, e))
    && (forall b: real, e: real :: b >= 1.0 && e >= 0.0 ==> m.pow(b, e) >= 1.0)
  }

  // ----- State and weights -----

  datatype Phase = New | Learning | Review | Relearning
  datatype Rating = Again | Hard | Good | Easy

  /** Times are milliseconds, intervals days. */
  datatype FsrsState = FsrsState(due: real, stability: real, difficulty: real, elapsedDays: real, scheduledDays: int,
                                 reps: nat, lapses: nat, phase: Phase, lastReview: Option<real>)

  const DEFAULT_WEIGHTS: seq<real> :=
    [0.40255, 1.18385, 3.173, 15.69105, 7.1949, 0.5345, 1.4604, 0.0046, 1.54575, 0.1192, 1.01925, 1.9395, 0.11, 0.29605,
     2.2698, 0.2315, 2.9898, 0.51655, 0.6621]

  const DECAY := -0.5
  const FACTOR := 19.0 / 81.0
  const MS_PER_DAY := 86_400_000.0
  const AGAIN_DELAY_MS := 600_000.0

  function CreateInitial(now: real): FsrsState {
    FsrsState(now, 0.0, 0.0, 0.0, 0, 0, 0, New, None)
  }

  /** 1 to 4. */
  function Number(r: Rating): int {
    match r case Again => 1 case Hard => 2 case Good => 3 case Easy => 4
  }

  /** Fewer than 19 weights are replaced by the default ones. */
  function SchedulerFor(exp: real -> real, pow: (real, real) -> real, weights: seq<real>): Scheduler {
    Scheduler(exp, pow, if |weights| >= 19 then weights else DEFAULT_WEIGHTS)
  }

  /** Weights under which a success never lowers stability: it grows with forgetting, by positive factors. */
  predicate Gainful(w: Weights) {
    w[10] >= 0.0 && w[15] >= 0.0 && w[16] >= 0.0
  }

  /** Weights under which easier answers schedule further ahead: initial stabilities that ascend from Hard to Easy,
      difficulty that falls with the rating and does not overshoot its mean, a penalty for Hard and a bonus for Easy. */
  predicate Tame(w: Weights) {
    Gainful(w) && w[1] <= w[2] <= w[3] && w[6] >= 0.0 && w[7] <= 1.0 && w[15] <= 1.0 && w[16] >= 1.0
  }

  lemma DefaultIsTame()
    ensures Tame(DEFAULT_WEIGHTS)
  {}

  // ----- Formulas -----

  function ClampDifficulty(d: real): (r: real)
    ensures 1.0 <= r <= 10.0 && (1.0 <= d <= 10.0 ==> r == d)
  {
    var low := MaxReal(1.0, d);
    if low <= 10.0 then low else 10.0
  }

  function AtLeastTenth(s: real): real {
    MaxReal(0.1, s)
  }

  function InitStability(m: Scheduler, r: Rating): real {
    AtLeastTenth(m.w[Number(r) - 1])
  }

  function InitDifficulty(m: Scheduler, r: Rating): real {
    ClampDifficulty(m.w[4] - m.exp((Number(r) - 1) as real * m.w[5]) + 1.0)
  }

  function NextDifficulty(m: Scheduler, d: real, r: Rating): real {
    Reverted(m, d - m.w[6] * (Number(r) - 3) as real)
  }

  /** Difficulty drawn towards that of a first Good. */
  function Reverted(m: Scheduler, next: real): real {
    ClampDifficulty(Blend(m.w[7], InitDifficulty(m, Good), next))
  }

  function Blend(t: real, x: real, y: real): real {
    t * x + (1.0 - t) * y
  }

  /** The factor by which a success raises stability, less one. */
  function Gain(m: Scheduler, d: real, s: real, r: real, rating: Rating): real {
    var hardPenalty := if rating == Hard then m.w[15] else 1.0;
    var easyBonus := if rating == Easy then m.w[16] else 1.0;
    Six(m.exp(m.w[8]), 11.0 - d, m.pow(s, -m.w[9]), m.exp(Forgotten(r, m.w[10])) - 1.0, hardPenalty, easyBonus)
  }

  function Forgotten(r: real, weight: real): real {
    (1.0 - r) * weight
  }

  function Times(x: real, y: real): real {
    x * y
  }

  function Six(a: real, b: real, c: real, d: real, e: real, f: real): real {
    Times(Times(Times(Times(Times(a, b), c), d), e), f)
  }

  function NextStabilitySuccess(m: Scheduler, d: real, s: real, r: real, rating: Rating): real {
    Grown(s, Gain(m, d, s, r, rating))
  }

  function Grown(s: real, gain: real): real {
    AtLeastTenth(s * (gain + 1.0))
  }

  function NextStabilityFail(m: Scheduler, d: real, s: real, r: real): real {
    AtLeastTenth(Times(Times(Times(m.w[11], m.pow(d, -m.w[12])), m.pow(s + 1.0, m.w[13]) - 1.0),
                       m.exp(Forgotten(r, m.w[14]))))
  }

  function Retrievability(m: Scheduler, stability: real, elapsedDays: real): real {
    if stability <= 0.0 then 0.0 else m.pow(1.0 + FACTOR * elapsedDays / stability, DECAY)
  }

  function RawInterval(m: Scheduler, stability: real, retention: real): real {
    stability / FACTOR * (m.pow(retention, 1.0 / DECAY) - 1.0)
  }

  function NextIntervalDays(m: Scheduler, stability: real, retention: real): int {
    var days := Round(RawInterval(m, stability, retention));
    if days <= 1 then 1 else days
  }

  function ElapsedDays(s: FsrsState, now: real): real {
    if s.phase == New then 0.0 else MaxReal(0.0, (now - s.lastReview.GetOr(now)) / MS_PER_DAY)
  }

  /** The stability and difficulty after a review. */
  function NextMemory(m: Scheduler, s: FsrsState, rating: Rating, now: real): (real, real) {
    if s.phase == New then (InitStability(m, rating), InitDifficulty(m, rating))
    else
      var r := Retrievability(m, s.stability, ElapsedDays(s, now));
      var d := NextDifficulty(m, if s.difficulty == 0.0 then 5.0 else s.difficulty, rating);
      var base := MaxReal(0.1, s.stability);
      (if rating == Again then NextStabilityFail(m, d, base, r) else NextStabilitySuccess(m, d, base, r, rating), d)
  }

  /** What `reviewFsrs` returns. */
  function Reviewed(m: Scheduler, s: FsrsState, rating: Rating, now: real, retention: real): FsrsState {
    var (stability, difficulty) := NextMemory(m, s, rating, now);
    var days := if rating == Again then 0 else NextIntervalDays(m, stability, retention);
    FsrsState(now + (if rating == Again then AGAIN_DELAY_MS else days as real * MS_PER_DAY),
              stability, difficulty, ElapsedDays(s, now), days, s.reps + 1,
              if rating == Again then s.lapses + 1 else s.lapses,
              if rating == Again then Relearning else Review, Some(now))
  }

  /** `reviewFsrs`, which copies the record and assigns its fields. */
  method ReviewFsrs(exp: real -> real, pow: (real, real) -> real, state: FsrsState, rating: Rating, now: real,
                    weights: seq<real>, retention: real) returns (next: FsrsState)
    ensures next == Reviewed(SchedulerFor(exp, pow, weights), state, rating, now, retention)
  {
    hide InitDifficulty, NextDifficulty, NextStabilityFail, NextStabilitySuccess, NextIntervalDays, Retrievability, InitStability;
    var m := SchedulerFor(exp, pow, weights);
    var elapsedDays := ElapsedDays(state, now);
    next := state.(reps := state.reps + 1, lastReview := Some(now), elapsedDays := elapsedDays);
    if state.phase == New {
      next := next.(difficulty := InitDifficulty(m, rating), stability := InitStability(m, rating));
      if rating == Again {
        next := next.(lapses := next.lapses + 1, phase := Relearning, scheduledDays := 0, due := now + AGAIN_DELAY_MS);
        return;
      }
      next := next.(phase := Review, scheduledDays := NextIntervalDays(m, next.stability, retention));
      next := next.(due := now + next.scheduledDays as real * MS_PER_DAY);
      return;
    }
    var r := Retrievability(m, state.stability, elapsedDays);
    next := next.(difficulty := NextDifficulty(m, if state.difficulty == 0.0 then 5.0 else state.difficulty, rating));
    if rating == Again {
      next := next.(lapses := next.lapses + 1,
                    stability := NextStabilityFail(m, next.difficulty, MaxReal(0.1, state.stability), r),
                    phase := Relearning, scheduledDays := 0, due := now + AGAIN_DELAY_MS);
      return;
    }
    next := next.(stability := NextStabilitySuccess(m, next.difficulty, MaxReal(0.1, state.stability), r, rating), phase := Review);
    next := next.(scheduledDays := NextIntervalDays(m, next.stability, retention));
    next := next.(due := now + next.scheduledDays as real * MS_PER_DAY);
  }

  // ----- Invariants over review sequences -----

  datatype Answer = Answer(rating: Rating, now: real)

  function Reviews(m: Scheduler, s: FsrsState, answers: seq<Answer>, retention: real): FsrsState {
    if answers == [] then s
    else
      var a := answers[|answers| - 1];
      Reviewed(m, Reviews(m, s, answers[..|answers| - 1], retention), a.rating, a.now, retention)
  }

  ghost predicate Sound(m: Scheduler, s: FsrsState, retention: real) {
    && s.lapses <= s.reps
    && (s.phase != New ==> 1.0 <= s.difficulty <= 10.0 && s.stability >= 0.1 && s.lastReview.Some? && s.due > s.lastReview.value)
    && (s.phase == Review ==> s.scheduledDays == NextIntervalDays(m, s.stability, retention))
  }

  lemma ReviewSound(m: Scheduler, s: FsrsState, rating: Rating, now: real, retention: real)
    requires s.lapses <= s.reps
    ensures var next := Reviewed(m, s, rating, now, retention);
            Sound(m, next, retention) && next.phase != New && next.lastReview == Some(now)
  {
    hide NextIntervalDays, Gain;
    var next := Reviewed(m, s, rating, now, retention);
    if rating != Again {
      IntervalAtLeastOne(m, next.stability, retention);
      DaysPositive(next.scheduledDays);
    }
  }

  lemma IntervalAtLeastOne(m: Scheduler, stability: real, retention: real)
    ensures NextIntervalDays(m, stability, retention) >= 1
  {}

  lemma DaysPositive(days: int)
    requires days >= 1
    ensures days as real * MS_PER_DAY >= MS_PER_DAY
  {}

  /** After any sequence of reviews of a fresh card, at any times: difficulty is in [1, 10], stability at least 0.1,
      lapses do not exceed reps, and the card is due after its last review. */
  lemma {:induction false} ReviewsSound(m: Scheduler, created: real, answers: seq<Answer>, retention: real)
    ensures Sound(m, Reviews(m, CreateInitial(created), answers, retention), retention)
    ensures Reviews(m, CreateInitial(created), answers, retention).reps == |answers|
    ensures answers != [] ==> Reviews(m, CreateInitial(created), answers, retention).phase != New
  {
    hide Reviewed, NextIntervalDays;
    if answers != [] {
      var n := |answers| - 1;
      var before := Reviews(m, CreateInitial(created), answers[..n], retention);
      ReviewsSound(m, created, answers[..n], retention);
      ReviewSound(m, before, answers[n].rating, answers[n].now, retention);
      RepsStep(m, before, answers[n].rating, answers[n].now, retention);
    }
  }

  lemma RepsStep(m: Scheduler, s: FsrsState, rating: Rating, now: real, retention: real)
    ensures Reviewed(m, s, rating, now, retention).reps == s.reps + 1
  {}

  // ----- Success never lowers stability -----

  lemma ProductMonotone(a: real, b: real, c: real, d: real)
    requires 0.0 <= a <= b && 0.0 <= c <= d
    ensures 0.0 <= a * c <= b * d
  {
    Product(b - a, c);
    Product(b, d - c);
    Product(a, c);
    assert b * d - a * c == (b - a) * c + b * (d - c);
  }

  lemma RetrievabilityRange(m: Scheduler, s: FsrsState, now: real)
    requires Laws(m)
    ensures 0.0 <= Retrievability(m, s.stability, ElapsedDays(s, now)) <= 1.0
  {
    var e := ElapsedDays(s, now);
    if s.stability > 0.0 {
      Product(FACTOR, e);
      NonNegativeQuotient(FACTOR * e, s.stability);
    }
  }

  lemma NonNegativeQuotient(x: real, y: real)
    requires x >= 0.0 && y > 0.0
    ensures x / y >= 0.0
  {}

  /** The gain of a success is not negative, and grows from Hard to Good to Easy as difficulty falls. */
  lemma GainOrdered(m: Scheduler, d: real, d': real, s: real, r: real, rating: Rating, rating': Rating)
    requires Laws(m) && Gainful(m.w) && (rating == rating' || Tame(m.w))
    requires 1.0 <= d' <= d <= 10.0 && s > 0.0 && r <= 1.0
    requires rating != Again && rating' != Again && Number(rating) <= Number(rating')
    ensures 0.0 <= Gain(m, d, s, r, rating) <= Gain(m, d', s, r, rating')
  {
    hide Six, Laws;
    var e, p, x := m.exp(m.w[8]), m.pow(s, -m.w[9]), m.exp(Forgotten(r, m.w[10])) - 1.0;
    Product(1.0 - r, m.w[10]);
    PositivePower(m, m.w[8], s, -m.w[9]);
    PositivePower(m, Forgotten(r, m.w[10]), s, 0.0);
    SixMonotone(e, 11.0 - d, 11.0 - d', p, x,
                if rating == Hard then m.w[15] else 1.0, if rating' == Hard then m.w[15] else 1.0,
                if rating == Easy then m.w[16] else 1.0, if rating' == Easy then m.w[16] else 1.0);
  }

  lemma PositivePower(m: Scheduler, x: real, b: real, e: real)
    requires Laws(m) && b > 0.0
    ensures m.exp(x) > 0.0 && (x >= 0.0 ==> m.exp(x) >= 1.0) && m.pow(b, e) > 0.0
  {}

  lemma SixMonotone(a: real, b: real, b': real, c: real, d: real, e: real, e': real, f: real, f': real)
    requires 0.0 <= a && 0.0 <= b <= b' && 0.0 <= c && 0.0 <= d && 0.0 <= e <= e' && 0.0 <= f <= f'
    ensures 0.0 <= Six(a, b, c, d, e, f) <= Six(a, b', c, d, e', f')
  {
    hide Times;
    TimesMonotone(a, a, b, b');
    TimesMonotone(Times(a, b), Times(a, b'), c, c);
    TimesMonotone(Times(Times(a, b), c), Times(Times(a, b'), c), d, d);
    TimesMonotone(Times(Times(Times(a, b), c), d), Times(Times(Times(a, b'), c), d), e, e');
    TimesMonotone(Times(Times(Times(Times(a, b), c), d), e), Times(Times(Times(Times(a, b'), c), d), e'), f, f');
  }

  lemma TimesMonotone(a: real, b: real, c: real, d: real)
    requires 0.0 <= a <= b && 0.0 <= c <= d
    ensures 0.0 <= Times(a, c) <= Times(b, d)
  {
    ProductMonotone(a, b, c, d);
  }

  /** Stability after a success, ordered by rating and difficulty, and never below the stability before it. */
  lemma SuccessOrdered(m: Scheduler, d: real, d': real, s: real, r: real, rating: Rating, rating': Rating)
    requires Laws(m) && Gainful(m.w) && (rating == rating' || Tame(m.w))
    requires 1.0 <= d' <= d <= 10.0 && s > 0.0 && r <= 1.0
    requires rating != Again && rating' != Again && Number(rating) <= Number(rating')
    ensures s <= NextStabilitySuccess(m, d, s, r, rating) <= NextStabilitySuccess(m, d', s, r, rating')
  {
    hide Gain, Laws, Grown;
    GainOrdered(m, d, d', s, r, rating, rating');
    GrownMonotone(s, Gain(m, d, s, r, rating), Gain(m, d', s, r, rating'));
  }

  lemma GrownMonotone(s: real, g: real, g': real)
    requires s > 0.0 && 0.0 <= g <= g'
    ensures s <= Grown(s, g) <= Grown(s, g')
  {
    ProductMonotone(s, s, 1.0, g + 1.0);
    ProductMonotone(s, s, g + 1.0, g' + 1.0);
    var x, y := s * (g + 1.0), s * (g' + 1.0);
    assert s <= x <= y;
  }

  /** A successful review of a card that is not new never lowers its stability. */
  lemma SuccessKeepsStability(m: Scheduler, s: FsrsState, rating: Rating, now: real, retention: real)
    requires Laws(m) && Gainful(m.w) && s.phase != New && rating != Again
    ensures Reviewed(m, s, rating, now, retention).stability >= s.stability
  {
    hide NextStabilitySuccess, Laws, NextDifficulty, Retrievability, NextIntervalDays;
    var r := Retrievability(m, s.stability, ElapsedDays(s, now));
    var d := NextDifficulty(m, if s.difficulty == 0.0 then 5.0 else s.difficulty, rating);
    var base := MaxReal(0.1, s.stability);
    RetrievabilityRange(m, s, now);
    NextDifficultyRange(m, if s.difficulty == 0.0 then 5.0 else s.difficulty, rating);
    SuccessOrdered(m, d, d, base, r, rating, rating);
  }

  lemma NextDifficultyRange(m: Scheduler, d: real, rating: Rating)
    ensures 1.0 <= NextDifficulty(m, d, rating) <= 10.0
  {}

  lemma RetentionFactor(m: Scheduler, retention: real)
    requires Laws(m) && 0.0 < retention <= 1.0
    ensures m.pow(retention, 1.0 / DECAY) - 1.0 >= 0.0
  {
    assert 1.0 / DECAY == -2.0;
  }

  lemma RoundMonotone(x: real, y: real)
    requires x <= y
    ensures Round(x) <= Round(y)
  {}

  lemma IntervalMonotone(m: Scheduler, s: real, s': real, retention: real)
    requires Laws(m) && 0.0 < retention <= 1.0 && 0.0 <= s <= s'
    ensures NextIntervalDays(m, s, retention) <= NextIntervalDays(m, s', retention)
  {
    hide Laws;
    RetentionFactor(m, retention);
    var k := m.pow(retention, 1.0 / DECAY) - 1.0;
    assert 0.0 <= s / FACTOR <= s' / FACTOR;
    ProductMonotone(s / FACTOR, s' / FACTOR, k, k);
    RoundMonotone(RawInterval(m, s, retention), RawInterval(m, s', retention));
  }

  /** So the intervals of consecutive successes never shrink, whatever came before them. */
  lemma IntervalsNeverShrink(m: Scheduler, created: real, answers: seq<Answer>, rating: Rating, now: real, retention: real)
    requires Laws(m) && Gainful(m.w) && 0.0 < retention <= 1.0
    requires Reviews(m, CreateInitial(created), answers, retention).phase == Review && rating != Again
    ensures Reviewed(m, Reviews(m, CreateInitial(created), answers, retention), rating, now, retention).scheduledDays
         >= Reviews(m, CreateInitial(created), answers, retention).scheduledDays
  {
    hide Laws, NextIntervalDays, Reviewed;
    var s := Reviews(m, CreateInitial(created), answers, retention);
    ReviewsSound(m, created, answers, retention);
    ReviewSound(m, s, rating, now, retention);
    SuccessKeepsStability(m, s, rating, now, retention);
    SuccessPhase(m, s, rating, now, retention);
    IntervalMonotone(m, s.stability, Reviewed(m, s, rating, now, retention).stability, retention);
  }

  lemma SuccessPhase(m: Scheduler, s: FsrsState, rating: Rating, now: real, retention: real)
    requires rating != Again
    ensures Reviewed(m, s, rating, now, retention).phase == Review
  {}

  // ----- Easier answers schedule further ahead -----

  lemma ClampMonotone(x: real, y: real)
    requires x <= y
    ensures ClampDifficulty(x) <= ClampDifficulty(y)
  {}

  lemma RevertedMonotone(m: Scheduler, x: real, y: real)
    requires Tame(m.w) && x <= y
    ensures Reverted(m, x) <= Reverted(m, y)
  {
    hide InitDifficulty, ClampDifficulty;
    var c := InitDifficulty(m, Good);
    BlendMonotone(m.w[7], c, x, y);
    ClampMonotone(Blend(m.w[7], c, x), Blend(m.w[7], c, y));
  }

  lemma BlendMonotone(t: real, c: real, x: real, y: real)
    requires t <= 1.0 && x <= y
    ensures Blend(t, c, x) <= Blend(t, c, y)
  {
    Product(1.0 - t, y - x);
    assert (1.0 - t) * y - (1.0 - t) * x == (1.0 - t) * (y - x);
  }

  lemma DifficultyOrdered(m: Scheduler, d: real, rating: Rating, rating': Rating)
    requires Tame(m.w) && Number(rating) <= Number(rating')
    ensures NextDifficulty(m, d, rating') <= NextDifficulty(m, d, rating)
  {
    hide Reverted;
    var n, n' := (Number(rating) - 3) as real, (Number(rating') - 3) as real;
    Product(m.w[6], n' - n);
    assert m.w[6] * n' - m.w[6] * n == m.w[6] * (n' - n);
    RevertedMonotone(m, d - m.w[6] * n', d - m.w[6] * n);
  }

  /** From any one state, the next stability and interval are ordered Hard, Good, Easy. */
  lemma RatingsOrdered(m: Scheduler, s: FsrsState, rating: Rating, rating': Rating, now: real, retention: real)
    requires Laws(m) && Tame(m.w) && 0.0 < retention <= 1.0
    requires rating != Again && rating' != Again && Number(rating) <= Number(rating')
    ensures Reviewed(m, s, rating, now, retention).stability <= Reviewed(m, s, rating', now, retention).stability
    ensures Reviewed(m, s, rating, now, retention).scheduledDays <= Reviewed(m, s, rating', now, retention).scheduledDays
  {
    hide Laws, NextIntervalDays, NextMemory;
    var a, b := NextMemory(m, s, rating, now).0, NextMemory(m, s, rating', now).0;
    MemoryOrdered(m, s, rating, rating', now);
    IntervalMonotone(m, a, b, retention);
  }

  lemma MemoryOrdered(m: Scheduler, s: FsrsState, rating: Rating, rating': Rating, now: real)
    requires Laws(m) && Tame(m.w) && rating != Again && rating' != Again && Number(rating) <= Number(rating')
    ensures 0.1 <= NextMemory(m, s, rating, now).0 <= NextMemory(m, s, rating', now).0
  {
    hide NextStabilitySuccess, Laws, NextDifficulty, Retrievability;
    if s.phase != New {
      var r := Retrievability(m, s.stability, ElapsedDays(s, now));
      var d0 := if s.difficulty == 0.0 then 5.0 else s.difficulty;
      var d, d' := NextDifficulty(m, d0, rating), NextDifficulty(m, d0, rating');
      var base := MaxReal(0.1, s.stability);
      RetrievabilityRange(m, s, now);
      NextDifficultyRange(m, d0, rating);
      NextDifficultyRange(m, d0, rating');
      DifficultyOrdered(m, d0, rating, rating');
      SuccessOrdered(m, d, d', base, r, rating, rating');
    }
  }

  // ----- At 90 percent retention -----

  lemma SquareRoot(y: real)
    requires y > 0.0 && y * y == 0.81
    ensures y == 0.9
  {
    assert (y - 0.9) * (y + 0.9) == 0.0;
  }

  /** At retention 0.9 the interval is the stability, rounded, and at least a day; after `S` days the card is recalled
      with probability 0.9. */
  lemma StabilityIsTheNinetyPercentPoint(m: Scheduler, s: real)
    requires Laws(m) && s > 0.0
    ensures Retrievability(m, s, s) == 0.9
    ensures NextIntervalDays(m, s, 0.9) == if Round(s) <= 1 then 1 else Round(s)
  {
    var x := 1.0 + FACTOR * s / s;
    assert x == 100.0 / 81.0;
    var y := m.pow(x, -0.5);
    assert y * y * x == 1.0;
    assert y * y == 0.81;
    SquareRoot(y);
    var z := m.pow(0.9, -2.0);
    assert z * (0.9 * 0.9) == 1.0;
    assert z == 1.0 / 0.81;
    assert 1.0 / DECAY == -2.0;
    assert RawInterval(m, s, 0.9) == s;
  }

  // ----- Recall and intervals -----

  /** Recall is certain right after a review and only falls. */
  lemma RecallFalls(m: Scheduler, s: real, t: real, t': real)
    requires Laws(m) && Monotone(m) && s > 0.0 && 0.0 <= t <= t'
    ensures Retrievability(m, s, 0.0) == 1.0 && Retrievability(m, s, t') <= Retrievability(m, s, t)
  {
    var x, x' := 1.0 + FACTOR * t / s, 1.0 + FACTOR * t' / s;
    QuotientMonotone(FACTOR * t, FACTOR * t', s);
    PowerFalls(m, x, x');
    assert FACTOR * 0.0 / s == 0.0;
    OneToTheHalf(m);
  }

  lemma QuotientMonotone(x: real, y: real, s: real)
    requires 0.0 <= x <= y && s > 0.0
    ensures 0.0 <= x / s <= y / s
  {}

  lemma PowerFalls(m: Scheduler, b: real, c: real)
    requires Monotone(m) && 0.0 < b <= c
    ensures m.pow(c, DECAY) <= m.pow(b, DECAY)
  {}

  lemma OneToTheHalf(m: Scheduler)
    requires Laws(m)
    ensures m.pow(1.0, DECAY) == 1.0
  {
    var y := m.pow(1.0, -0.5);
    assert y > 0.0 && y * y * 1.0 == 1.0;
    assert (y - 1.0) * (y + 1.0) == 0.0;
  }

  lemma EqualSquares(x: real, y: real)
    requires x > 0.0 && y > 0.0 && x * x == y * y
    ensures x == y
  {
    assert (x - y) * (x + y) == 0.0;
  }

  lemma HalfOfMinusTwo(m: Scheduler, r: real)
    requires Laws(m) && r > 0.0
    ensures m.pow(r, -2.0) > 0.0 && m.pow(m.pow(r, -2.0), -0.5) == r
  {
    var z := m.pow(r, -2.0);
    var y := m.pow(z, -0.5);
    assert z > 0.0 && y > 0.0 && z * (r * r) == 1.0 && y * y * z == 1.0;
    assert (y * y - r * r) * z == 0.0;
    assert y * y == r * r;
    EqualSquares(y, r);
  }

  lemma FactorBack(s: real, k: real)
    requires s > 0.0
    ensures FACTOR * (s / FACTOR * k) / s == k
  {
    var x := s / FACTOR * k;
    assert FACTOR * x == s * k;
    assert s * k / s == k;
  }

  /** The interval is the time after which recall has fallen to the requested retention, rounded to days, and at least one. */
  lemma IntervalMeetsRetention(m: Scheduler, s: real, retention: real) returns (t: real)
    requires Laws(m) && s > 0.0 && 0.0 < retention <= 1.0
    ensures t >= 0.0 && Retrievability(m, s, t) == retention
    ensures var days := NextIntervalDays(m, s, retention);
            days >= 1 && t < days as real + 0.5 && (days > 1 ==> days as real - 0.5 <= t)
  {
    var k := m.pow(retention, -2.0) - 1.0;
    t := s / FACTOR * k;
    RetentionFactor(m, retention);
    Product(s / FACTOR, k);
    assert 1.0 / DECAY == -2.0;
    FactorBack(s, k);
    HalfOfMinusTwo(m, retention);
    hide Laws, Round;
    RecallAt(m, s, t, k);
    DaysNear(m, s, retention);
  }

  lemma RecallAt(m: Scheduler, s: real, t: real, k: real)
    requires s > 0.0 && FACTOR * t / s == k
    ensures Retrievability(m, s, t) == m.pow(k + 1.0, -0.5)
  {
    assert 1.0 + FACTOR * t / s == k + 1.0;
  }

  lemma DaysNear(m: Scheduler, s: real, retention: real)
    ensures var t, days := RawInterval(m, s, retention), NextIntervalDays(m, s, retention);
            days >= 1 && t < days as real + 0.5 && (days > 1 ==> days as real - 0.5 <= t)
  {
    hide RawInterval;
  }

  // ----- What makes stability and difficulty move -----

  /** A success raises stability by a larger factor, the easier the card, the less stable it was and the more of it was
      forgotten. */
  lemma GainShape(m: Scheduler, d: real, d': real, s: real, s': real, r: real, r': real, rating: Rating)
    requires Laws(m) && Monotone(m) && Gainful(m.w) && m.w[9] >= 0.0
    requires 1.0 <= d' <= d <= 10.0 && 0.0 < s' <= s && r' <= r <= 1.0 && rating != Again
    ensures 0.0 <= Gain(m, d, s, r, rating) <= Gain(m, d', s', r', rating)
  {
    hide Six, Laws, Monotone;
    PositivePower(m, m.w[8], s, -m.w[9]);
    PositivePower(m, Forgotten(r, m.w[10]), s, 0.0);
    ForgottenMore(r, r', m.w[10]);
    Growth(m, Forgotten(r, m.w[10]), Forgotten(r', m.w[10]), s', s, -m.w[9]);
    SixGrows(m.exp(m.w[8]), 11.0 - d, 11.0 - d', m.pow(s, -m.w[9]), m.pow(s', -m.w[9]),
             m.exp(Forgotten(r, m.w[10])) - 1.0, m.exp(Forgotten(r', m.w[10])) - 1.0,
             if rating == Hard then m.w[15] else 1.0, if rating == Easy then m.w[16] else 1.0);
  }

  lemma ForgottenMore(r: real, r': real, weight: real)
    requires r' <= r <= 1.0 && weight >= 0.0
    ensures 0.0 <= Forgotten(r, weight) <= Forgotten(r', weight)
  {
    ProductMonotone(1.0 - r, 1.0 - r', weight, weight);
  }

  lemma Growth(m: Scheduler, x: real, y: real, b: real, c: real, e: real)
    requires Monotone(m) && x <= y && 0.0 < b <= c
    ensures m.exp(x) <= m.exp(y)
    ensures e <= 0.0 ==> m.pow(c, e) <= m.pow(b, e)
    ensures e >= 0.0 ==> m.pow(b, e) <= m.pow(c, e)
    ensures e >= 0.0 && b >= 1.0 ==> m.pow(b, e) >= 1.0
  {}

  lemma SixGrows(a: real, b: real, b': real, c: real, c': real, d: real, d': real, e: real, f: real)
    requires 0.0 <= a && 0.0 <= b <= b' && 0.0 <= c <= c' && 0.0 <= d <= d' && 0.0 <= e && 0.0 <= f
    ensures 0.0 <= Six(a, b, c, d, e, f) <= Six(a, b', c', d', e, f)
  {
    hide Times;
    TimesMonotone(a, a, b, b');
    TimesMonotone(Times(a, b), Times(a, b'), c, c');
    TimesMonotone(Times(Times(a, b), c), Times(Times(a, b'), c'), d, d');
    TimesMonotone(Times(Times(Times(a, b), c), d), Times(Times(Times(a, b'), c'), d'), e, e);
    TimesMonotone(Times(Times(Times(Times(a, b), c), d), e), Times(Times(Times(Times(a, b'), c'), d'), e), f, f);
  }

  /** After a failure, stability is higher, the easier the card, the more stable it was and the more of it was forgotten. */
  lemma FailShape(m: Scheduler, d: real, d': real, s: real, s': real, r: real, r': real)
    requires Laws(m) && Monotone(m) && m.w[11] >= 0.0 && m.w[12] >= 0.0 && m.w[13] >= 0.0 && m.w[14] >= 0.0
    requires 1.0 <= d' <= d && 0.0 <= s <= s' && r' <= r <= 1.0
    ensures 0.1 <= NextStabilityFail(m, d, s, r) <= NextStabilityFail(m, d', s', r')
  {
    hide Laws, Monotone, Times;
    PositivePower(m, Forgotten(r, m.w[14]), d, -m.w[12]);
    ForgottenMore(r, r', m.w[14]);
    Growth(m, Forgotten(r, m.w[14]), Forgotten(r', m.w[14]), d', d, -m.w[12]);
    Growth(m, 0.0, 0.0, s + 1.0, s' + 1.0, m.w[13]);
    var p, p', q, q' := m.pow(d, -m.w[12]), m.pow(d', -m.w[12]), m.pow(s + 1.0, m.w[13]) - 1.0, m.pow(s' + 1.0, m.w[13]) - 1.0;
    var e, e' := m.exp(Forgotten(r, m.w[14])), m.exp(Forgotten(r', m.w[14]));
    TimesMonotone(m.w[11], m.w[11], p, p');
    TimesMonotone(Times(m.w[11], p), Times(m.w[11], p'), q, q');
    TimesMonotone(Times(Times(m.w[11], p), q), Times(Times(m.w[11], p'), q'), e, e');
  }

  /** A card begins the more difficult, the worse its first rating. */
  lemma InitDifficultyOrdered(m: Scheduler, rating: Rating, rating': Rating)
    requires Monotone(m) && m.w[5] >= 0.0 && Number(rating) <= Number(rating')
    ensures InitDifficulty(m, rating') <= InitDifficulty(m, rating)
  {
    var n, n' := (Number(rating) - 1) as real, (Number(rating') - 1) as real;
    ProductMonotone(n, n', m.w[5], m.w[5]);
    assert m.exp(n * m.w[5]) <= m.exp(n' * m.w[5]);
    ClampMonotone(m.w[4] - m.exp(n' * m.w[5]) + 1.0, m.w[4] - m.exp(n * m.w[5]) + 1.0);
  }

  /** A Good moves difficulty towards that of a first Good, and never past it. */
  lemma GoodReverts(m: Scheduler, d: real)
    requires 0.0 <= m.w[7] <= 1.0 && 1.0 <= d <= 10.0
    ensures var d0, next := InitDifficulty(m, Good), NextDifficulty(m, d, Good);
            if d <= d0 then d <= next <= d0 else d0 <= next <= d
  {
    hide InitDifficulty, Blend, NextDifficulty;
    var d0 := InitDifficulty(m, Good);
    InitDifficultyRange(m);
    GoodOnlyReverts(m, d);
    BlendBetween(m.w[7], d0, d);
  }

  lemma GoodOnlyReverts(m: Scheduler, d: real)
    ensures NextDifficulty(m, d, Good) == ClampDifficulty(Blend(m.w[7], InitDifficulty(m, Good), d))
  {
    hide InitDifficulty, ClampDifficulty, Blend;
    TimesNothing(m.w[6]);
    assert (Number(Good) - 3) as real == 0.0;
  }

  lemma TimesNothing(x: real)
    ensures x * 0.0 == 0.0
  {}

  lemma InitDifficultyRange(m: Scheduler)
    ensures 1.0 <= InitDifficulty(m, Good) <= 10.0
  {}

  lemma BlendBetween(t: real, x: real, y: real)
    requires 0.0 <= t <= 1.0
    ensures if y <= x then y <= Blend(t, x, y) <= x else x <= Blend(t, x, y) <= y
  {
    assert t * x + (1.0 - t) * y == y + t * (x - y) == x - (1.0 - t) * (x - y);
    if y <= x {
      Product(t, x - y);
      Product(1.0 - t, x - y);
    } else {
      Product(t, y - x);
      Product(1.0 - t, y - x);
    }
  }

  /** The first review of a card sets its stability to the rating's weight, unless that is below a tenth of a day. */
  lemma FirstStability(m: Scheduler, created: real, rating: Rating, now: real, retention: real)
    ensures var s := Reviewed(m, CreateInitial(created), rating, now, retention).stability;
            s >= 0.1 && (s == m.w[Number(rating) - 1] || (s == 0.1 && m.w[Number(rating) - 1] < 0.1))
  {}

  /** A success multiplies a stability of at least a tenth of a day by one more than the gain. */
  lemma SuccessMultiplies(m: Scheduler, s: FsrsState, rating: Rating, now: real, retention: real)
    requires Laws(m) && Gainful(m.w) && s.phase != New && rating != Again && s.stability >= 0.1
    ensures var gain := Gain(m, NextDifficulty(m, if s.difficulty == 0.0 then 5.0 else s.difficulty, rating), s.stability,
                             Retrievability(m, s.stability, ElapsedDays(s, now)), rating);
            gain >= 0.0 && Reviewed(m, s, rating, now, retention).stability == s.stability * (gain + 1.0)
  {
    hide Laws, NextDifficulty, Retrievability, NextIntervalDays, Gain;
    var r := Retrievability(m, s.stability, ElapsedDays(s, now));
    var d := NextDifficulty(m, if s.difficulty == 0.0 then 5.0 else s.difficulty, rating);
    RetrievabilityRange(m, s, now);
    NextDifficultyRange(m, if s.difficulty == 0.0 then 5.0 else s.difficulty, rating);
    GainOrdered(m, d, d, s.stability, r, rating, rating);
    ProductMonotone(s.stability, s.stability, 1.0, Gain(m, d, s.stability, r, rating) + 1.0);
  }

  /** For one and the same new difficulty, Hard and Easy scale the gain of Good by their weights. */
  lemma RatingFactors(m: Scheduler, d: real, s: real, r: real)
    ensures Gain(m, d, s, r, Hard) == Times(Gain(m, d, s, r, Good), m.w[15])
    ensures Gain(m, d, s, r, Easy) == Times(Gain(m, d, s, r, Good), m.w[16])
  {
    hide Forgotten;
    var x := Times(Times(Times(m.exp(m.w[8]), 11.0 - d), m.pow(s, -m.w[9])), m.exp(Forgotten(r, m.w[10])) - 1.0);
    assert Times(x, 1.0) == x && Times(Times(x, 1.0), 1.0) == x;
    assert Times(Times(x, 1.0), m.w[16]) == Times(x, m.w[16]) && Times(Times(x, m.w[15]), 1.0) == Times(x, m.w[15]);
  }

  /** The first memory by FSRS-5's published default weights, in figures; `g` is the rating's number. */
  lemma PublishedBeginning(exp: real -> real, pow: (real, real) -> real, rating: Rating)
    ensures var m, g := SchedulerFor(exp, pow, []), Number(rating) as real;
            && InitStability(m, rating) == (match rating case Again => 0.40255 case Hard => 1.18385
                                                         case Good => 3.173 case Easy => 15.69105)
            && InitDifficulty(m, rating) == ClampDifficulty(7.1949 - exp((g - 1.0) * 0.5345) + 1.0)
  {
    assert (Number(rating) - 1) as real == Number(rating) as real - 1.0;
  }

  lemma SixIsProduct(a: real, b: real, c: real, d: real, e: real, f: real)
    ensures Six(a, b, c, d, e, f) == a * b * c * d * e * f
  {}

  /** The later memory by the published weights: difficulty, the gain of a success, stability after a failure. */
  lemma PublishedFormulas(exp: real -> real, pow: (real, real) -> real, d: real, s: real, r: real, rating: Rating)
    ensures var m, g := SchedulerFor(exp, pow, []), Number(rating) as real;
            && NextDifficulty(m, d, rating)
                 == ClampDifficulty(Times(0.0046, InitDifficulty(m, Good)) + Times(0.9954, d - 1.4604 * (g - 3.0)))
            && Gain(m, d, s, r, rating)
                 == Six(exp(1.54575), 11.0 - d, pow(s, -0.1192), exp(Times(1.0 - r, 1.01925)) - 1.0,
                        if rating == Hard then 0.2315 else 1.0, if rating == Easy then 2.9898 else 1.0)
            && NextStabilityFail(m, d, s, r)
                 == MaxReal(0.1, Times(Times(Times(1.9395, pow(d, -0.11)), pow(s + 1.0, 0.29605) - 1.0),
                                       exp(Times(1.0 - r, 2.2698))))
  {
    var m := SchedulerFor(exp, pow, []);
    DifficultyBlend(m, d, rating);
    ForgottenIsTimes(r, 1.01925);
    ForgottenIsTimes(r, 2.2698);
    hide Six, Times, NextDifficulty, ClampDifficulty, Forgotten;
  }

  lemma ForgottenIsTimes(r: real, weight: real)
    ensures Forgotten(r, weight) == Times(1.0 - r, weight)
  {}

  lemma DifficultyBlend(m: Scheduler, d: real, rating: Rating)
    requires m.w == DEFAULT_WEIGHTS
    ensures NextDifficulty(m, d, rating)
         == ClampDifficulty(Times(0.0046, InitDifficulty(m, Good)) + Times(0.9954, d - 1.4604 * (Number(rating) as real - 3.0)))
  {
    hide InitDifficulty, ClampDifficulty;
    assert (Number(rating) - 3) as real == Number(rating) as real - 3.0;
  }

  // ----- What the record says about the answers -----

  function Failures(answers: seq<Answer>): nat {
    if answers == [] then 0
    else Failures(answers[..|answers| - 1]) + if answers[|answers| - 1].rating == Again then 1 else 0
  }

  lemma {:induction false} LapsesCounted(m: Scheduler, created: real, answers: seq<Answer>, retention: real)
    ensures Reviews(m, CreateInitial(created), answers, retention).lapses == Failures(answers)
  {
    hide NextMemory, NextIntervalDays;
    if answers != [] {
      LapsesCounted(m, created, answers[..|answers| - 1], retention);
    }
  }

  /** After any reviews of a fresh card the record shows how many there were and how many failed, when the last one was and
      how long after the one before; the card is due ten minutes after a failure, and its interval in days after a success. */
  lemma HistoryRecorded(m: Scheduler, created: real, answers: seq<Answer>, retention: real)
    requires answers != []
    ensures var s, last := Reviews(m, CreateInitial(created), answers, retention), answers[|answers| - 1];
            && s.reps == |answers| && s.lapses == Failures(answers) && s.lastReview == Some(last.now)
            && (last.rating == Again ==> s.phase == Relearning && s.scheduledDays == 0 && s.due == last.now + 600_000.0)
            && (last.rating != Again ==>
                  s.phase == Review && s.scheduledDays >= 1 && s.due == last.now + s.scheduledDays as real * 86_400_000.0)
            && (|answers| == 1 ==> s.elapsedDays == 0.0)
            && (|answers| > 1 ==> s.elapsedDays == MaxReal(0.0, (last.now - answers[|answers| - 2].now) / 86_400_000.0))
  {
    hide NextMemory, NextIntervalDays;
    var n := |answers| - 1;
    LapsesCounted(m, created, answers, retention);
    ReviewsSound(m, created, answers, retention);
    var before := Reviews(m, CreateInitial(created), answers[..n], retention);
    ReviewsSound(m, created, answers[..n], retention);
    IntervalAtLeastOne(m, NextMemory(m, before, answers[n].rating, answers[n].now).0, retention);
    if n > 0 {
      ReviewsSound(m, created, answers[..n][..n - 1], retention);
      ReviewSound(m, Reviews(m, CreateInitial(created), answers[..n][..n - 1], retention),
                  answers[n - 1].rating, answers[n - 1].now, retention);
    }
  }
}
