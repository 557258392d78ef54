/** Whole runs of the capture queue: what a snapshot holds, and how often recognition runs. */
module CaptureRuns {
  import opened Basics
  import opened Text
  import opened Ring
  import opened Resample
  import opened Capture

  datatype Event =
    | Start(id: string, videoId: string)
    | Control(id: string, command: Command)
    | Audio(id: string, chunk: Chunk)

  ghost function Step(s: Shared, e: Event): Shared {
    match e
    case Start(id, videoId) => if s.poisoned then s else s.(jobs := s.jobs[id := NewJob(videoId)])
    case Control(id, command) => ControlShared(s, id, command).0
    case Audio(id, chunk) => HandleShared(s, id, chunk).0
  }

  ghost function Run(events: seq<Event>): Shared {
    if events == [] then Shared(map[], false) else Step(Run(events[..|events| - 1]), events[|events| - 1])
  }

  // ----- What the history says about a job -----

  /** The job's state, read off the starts and commands alone. */
  ghost function StateAfter(events: seq<Event>, id: string): Option<JobState> {
    if events == [] then None
    else
      var e, before := events[|events| - 1], StateAfter(events[..|events| - 1], id);
      if e.id != id || e.Audio? then before
      else if e.Start? then Some(Running)
      else if before.None? then None
      else match e.command
        case Cancel => Some(CancelledState)
        case Pause => Some(if before.value == CancelledState then CancelledState else Paused)
        case Resume => Some(if before.value == Paused then Running else before.value)
  }

  predicate Listening(state: Option<JobState>) {
    state.Some? && state.value != Paused && state.value != CancelledState
  }

  /** Chunks are taken in while the job is neither paused nor cancelled, when they are at the target rate already, or hold
      at least one sample at some positive rate. */
  predicate Accepts(state: Option<JobState>, chunk: Chunk) {
    Listening(state) && (chunk.sampleRateHz == 16_000 || (chunk.sampleRateHz > 0 && |chunk.pcm| >= 2))
  }

  /** Chunks that make their handler panic: at rate zero, with at least one sample. */
  predicate Panics(state: Option<JobState>, chunk: Chunk) {
    Listening(state) && chunk.sampleRateHz == 0 && |chunk.pcm| >= 2
  }

  lemma ConversionFails(chunk: Chunk)
    ensures Converted(chunk).Ok? <==>
              chunk.sampleRateHz == TARGET_SAMPLE_RATE_HZ || (chunk.sampleRateHz > 0 && |chunk.pcm| >= 2)
    ensures Converted(chunk) == Err(Panic) <==> chunk.sampleRateHz == 0 && |chunk.pcm| >= 2
  {}

  /** The chunks taken in since the job's last start. */
  ghost function Accepted(events: seq<Event>, id: string): seq<Chunk> {
    if events == [] then []
    else
      var e, before := events[|events| - 1], Accepted(events[..|events| - 1], id);
      if e.id != id then before
      else match e
        case Start(_, _) => []
        case Control(_, _) => before
        case Audio(_, chunk) => if Accepts(StateAfter(events[..|events| - 1], id), chunk) then before + [chunk] else before
  }

  ghost function Samples(chunks: seq<Chunk>): seq<real> {
    if chunks == [] then []
    else
      var last := Converted(chunks[|chunks| - 1]);
      Samples(chunks[..|chunks| - 1]) + (if last.Ok? then last.value else [])
  }

  // ----- Snapshots -----

  ghost predicate Matches(v: JobView, state: JobState, chunks: seq<Chunk>) {
    && v.state == state
    && v.contents == Tail(Samples(chunks), 480_000)
    && v.chunksAccepted == |chunks|
    && v.nextSeq == if chunks == [] then 0 else Min(chunks[|chunks| - 1].sequence + 1, 0xFFFF_FFFF_FFFF_FFFF)
  }

  lemma HandledMatches(v: JobView, state: JobState, chunks: seq<Chunk>, chunk: Chunk)
    requires Matches(v, state, chunks)
    ensures Matches(Handled(v, chunk).0, state, if Accepts(Some(state), chunk) then chunks + [chunk] else chunks)
    ensures Handled(v, chunk).1 == Err(Panic) <==> Panics(Some(state), chunk)
  {
    hide Converted, Tail;
    ConversionFails(chunk);
    if Accepts(Some(state), chunk) {
      assert (chunks + [chunk])[..|chunks|] == chunks;
      TailOfTail(Samples(chunks), Converted(chunk).value, RING_CAPACITY);
    }
  }

  lemma NewMatches(videoId: string)
    ensures Matches(NewJob(videoId), Running, [])
  {}

  lemma CommandedMatches(v: JobView, state: JobState, chunks: seq<Chunk>, command: Command)
    requires Matches(v, state, chunks)
    ensures Matches(Commanded(v, command).0, Commanded(v, command).0.state, chunks)
  {}

  /** After any run in which no handler has panicked, a job's ring holds the last samples, up to the capacity, of all
      chunks taken in since its start, and its counter counts exactly those chunks. */
  lemma {:induction false} SnapshotIsTail(events: seq<Event>, id: string)
    requires !Run(events).poisoned
    ensures id in Run(events).jobs <==> StateAfter(events, id).Some?
    ensures id in Run(events).jobs ==> Matches(Run(events).jobs[id], StateAfter(events, id).value, Accepted(events, id))
  {
    hide Matches, Handled, Accepts, NewJob, Panics;
    if events != [] {
      var n := |events| - 1;
      var before, e := events[..n], events[n];
      SnapshotIsTail(before, id);
      if e.id == id {
        match e
        case Start(_, videoId) => NewMatches(videoId);
        case Control(_, command) =>
          if id in Run(before).jobs {
            StateOf(Run(before).jobs[id], StateAfter(before, id).value, Accepted(before, id));
            CommandedMatches(Run(before).jobs[id], StateAfter(before, id).value, Accepted(before, id), command);
          }
        case Audio(_, chunk) =>
          if id in Run(before).jobs {
            HandledMatches(Run(before).jobs[id], StateAfter(before, id).value, Accepted(before, id), chunk);
          } else {
            NoJobNoAccept(chunk);
          }
      }
    }
  }

  /** Step `i` of a run brings a chunk on which the handler of a listening job panics. */
  ghost predicate PanicsAt(events: seq<Event>, i: nat) {
    i < |events| && events[i].Audio? && Panics(StateAfter(events[..i], events[i].id), events[i].chunk)
  }

  lemma PanicStep(events: seq<Event>)
    requires events != [] && !Run(events[..|events| - 1]).poisoned
    ensures Run(events).poisoned <==> PanicsAt(events, |events| - 1)
  {
    var n := |events| - 1;
    var before, e := events[..n], events[n];
    if e.Audio? {
      hide Panics, Matches, Handled, StateAfter, Accepted;
      SnapshotIsTail(before, e.id);
      if e.id in Run(before).jobs {
        HandledMatches(Run(before).jobs[e.id], StateAfter(before, e.id).value, Accepted(before, e.id), e.chunk);
      } else {
        NoJobNoAccept(e.chunk);
      }
    }
  }

  /** The lock is poisoned after exactly those runs in which some chunk at rate zero, with a sample in it, reached a job that
      was neither paused nor cancelled. */
  lemma {:induction false} PoisonedIff(events: seq<Event>)
    ensures Run(events).poisoned <==> exists i :: 0 <= i < |events| && PanicsAt(events, i)
  {
    hide Panics, StateAfter, Handled;
    if events != [] {
      var n := |events| - 1;
      PoisonedIff(events[..n]);
      forall i | 0 <= i < n ensures PanicsAt(events, i) <==> PanicsAt(events[..n], i) {
        assert events[..n][..i] == events[..i];
      }
      if !Run(events[..n]).poisoned {
        PanicStep(events);
      }
    }
  }

  /** Two bytes at rate zero are enough. */
  lemma ZeroRatePoisons(id: string, videoId: string)
    ensures Run([Start(id, videoId), Audio(id, Chunk(0, [0, 0], 0))]).poisoned
  {
    var events := [Start(id, videoId), Audio(id, Chunk(0, [0, 0], 0))];
    assert events[..1] == [Start(id, videoId)] && events[..1][..0] == [];
    assert PanicsAt(events, 1);
    PoisonedIff(events);
  }

  lemma StateOf(v: JobView, state: JobState, chunks: seq<Chunk>)
    requires Matches(v, state, chunks)
    ensures v.state == state
  {}

  lemma NoJobNoAccept(chunk: Chunk)
    ensures !Accepts(None, chunk) && !Panics(None, chunk)
  {}

  // ----- The throttle -----

  /** The segments for which recognition ran since the job's last start. */
  ghost function Segments(events: seq<Event>, id: string): seq<nat> {
    if events == [] then []
    else
      var e, before := events[|events| - 1], Segments(events[..|events| - 1], id);
      var s := Run(events[..|events| - 1]);
      if e.id != id || s.poisoned then before
      else match e
        case Start(_, _) => []
        case Control(_, _) => before
        case Audio(_, chunk) =>
          var r := HandleShared(s, id, chunk).1;
          if r.Ok? && r.value.Some? then before + [r.value.value] else before
  }

  ghost predicate Increasing(segments: seq<nat>) {
    && (forall k :: 0 <= k < |segments| ==> 1 <= segments[k] <= 30)
    && (forall k, l :: 0 <= k < l < |segments| ==> segments[k] < segments[l])
  }

  ghost predicate Throttled(v: JobView, segments: seq<nat>) {
    && |v.contents| <= RING_CAPACITY
    && Increasing(segments)
    && v.lastAsrSegment == (if segments == [] then 0 else segments[|segments| - 1])
    && (if |v.contents| <= SEGMENT_SAMPLES then v.lastAsrSegment == 0 else v.lastAsrSegment == |v.contents| / SEGMENT_SAMPLES)
  }

  lemma IngestGrows(v: JobView, chunk: Chunk)
    requires |v.contents| <= RING_CAPACITY
    ensures |v.contents| <= |Ingested(v, chunk).0.contents| <= RING_CAPACITY
    ensures Ingested(v, chunk).0.lastAsrSegment == v.lastAsrSegment
    ensures Ingested(v, chunk).1.Err? ==> Ingested(v, chunk).0 == v
  {}

  lemma HandledThrottled(v: JobView, segments: seq<nat>, chunk: Chunk)
    requires Throttled(v, segments)
    ensures var (v', r) := Handled(v, chunk);
            Throttled(v', if r.Ok? && r.value.Some? then segments + [r.value.value] else segments)
  {
    hide Ingested;
    IngestGrows(v, chunk);
    var n, n' := |v.contents|, |Ingested(v, chunk).0.contents|;
    Quotients(n, n');
  }

  lemma Quotients(n: nat, n': nat)
    requires n <= n' <= RING_CAPACITY
    ensures n / SEGMENT_SAMPLES <= n' / SEGMENT_SAMPLES <= 30
    ensures n' >= SEGMENT_SAMPLES ==> n' / SEGMENT_SAMPLES >= 1
  {}

  lemma NewThrottled(videoId: string)
    ensures Throttled(NewJob(videoId), [])
  {}

  lemma CommandedThrottled(v: JobView, segments: seq<nat>, command: Command)
    requires Throttled(v, segments)
    ensures Throttled(Commanded(v, command).0, segments)
  {}

  lemma {:induction false} RunThrottled(events: seq<Event>, id: string)
    requires id in Run(events).jobs
    ensures Throttled(Run(events).jobs[id], Segments(events, id))
  {
    hide Throttled, Handled, NewJob, Commanded;
    var n := |events| - 1;
    var before, e := events[..n], events[n];
    if !Run(before).poisoned && e.Start? && e.id == id {
      NewThrottled(e.videoId);
    } else {
      RunThrottled(before, id);
      if !Run(before).poisoned && e.id == id {
        if e.Control? {
          CommandedThrottled(Run(before).jobs[id], Segments(before, id), e.command);
        } else {
          HandledThrottled(Run(before).jobs[id], Segments(before, id), e.chunk);
        }
      }
    }
  }

  lemma {:induction false} IncreasingLength(segments: seq<nat>)
    requires Increasing(segments)
    ensures segments != [] ==> segments[|segments| - 1] >= |segments|
    ensures |segments| <= 30
  {
    if |segments| > 1 {
      IncreasingLength(segments[..|segments| - 1]);
    }
  }

  /** Recognition runs for strictly increasing segments in 1..30, so at most 30 times per start of a job; after each
      event either at most 16000 samples are held or the last segment is the number of whole segments held. */
  lemma RecognitionBounded(events: seq<Event>, id: string)
    requires id in Run(events).jobs
    ensures Increasing(Segments(events, id)) && |Segments(events, id)| <= 30
    ensures var v := Run(events).jobs[id];
            |v.contents| <= SEGMENT_SAMPLES || v.lastAsrSegment == |v.contents| / SEGMENT_SAMPLES
  {
    RunThrottled(events, id);
    IncreasingLength(Segments(events, id));
  }

  /** A chunk that arrives while the job is paused or cancelled never runs recognition. */
  lemma StoppedJobsStaySilent(events: seq<Event>, id: string, chunk: Chunk)
    requires id in Run(events).jobs && (Run(events).jobs[id].state == Paused || Run(events).jobs[id].state == CancelledState)
    ensures Handled(Run(events).jobs[id], chunk) == (Run(events).jobs[id], Ok(None))
  {
    RunThrottled(events, id);
  }

  // ----- Commands -----

  /** A command is refused exactly when it asks a cancelled job to pause or resume, or a completed one to resume. */
  lemma RefusedIff(v: JobView, command: Command)
    ensures Commanded(v, command).1.Err? <==>
              (v.state == CancelledState && command != Cancel) || (v.state == Completed && command == Resume)
    ensures Commanded(v, command).1.Err? ==> Commanded(v, command).0 == v
    ensures Commanded(v, command).0.(state := v.state) == v
  {}

  /** A cancelled job takes in nothing and stays cancelled for the rest of a run, until it is started anew. */
  lemma {:induction false} CancelledForGood(before: seq<Event>, after: seq<Event>, id: string)
    requires StateAfter(before, id) == Some(CancelledState)
    requires forall e :: e in after ==> !(e.Start? && e.id == id)
    ensures StateAfter(before + after, id) == Some(CancelledState)
    ensures Accepted(before + after, id) == Accepted(before, id)
  {
    if after == [] {
      assert before + after == before;
    } else {
      var n := |after| - 1;
      CancelledForGood(before, after[..n], id);
      assert (before + after)[..|before| + n] == before + after[..n];
      assert (before + after)[|before| + n] == after[n];
    }
  }
}
