/** Capture jobs: their states, their sample rings, and the throttle on speech recognition. */
module Capture {
  import opened Text
  import opened Ring
  import opened Resample

  const TARGET_SAMPLE_RATE_HZ: nat := 16_000
  const RING_CAPACITY: nat := TARGET_SAMPLE_RATE_HZ * 30
  const SEGMENT_SAMPLES: nat := 16_000

  /** Rates are 32-bit; a larger number on the wire is truncated before the chunk is made. */
  type Rate = r: nat | r < 0x1_0000_0000

  datatype JobState = Running | Paused | CancelledState | Completed

  datatype Chunk = Chunk(sampleRateHz: Rate, pcm: seq<Byte>, sequence: nat)

  /** A capture job as a value: `contents` are the samples in its ring. */
  datatype JobView = JobView(videoId: string, state: JobState, contents: seq<real>, nextSeq: nat, chunksAccepted: nat,
                             lastAsrSegment: nat)

  function NewJob(videoId: string): JobView {
    JobView(videoId, Running, [], 0, 0, 0)
  }

  /** 64-bit saturating increment. */
  function SaturatingNext(n: nat): nat {
    if n + 1 < 0x1_0000_0000_0000_0000 then n + 1 else 0xFFFF_FFFF_FFFF_FFFF
  }

  /** The chunk's samples at the target rate. */
  ghost function Converted(chunk: Chunk): Result<seq<real>> {
    var samples := PcmToSamples(chunk.pcm);
    if chunk.sampleRateHz == TARGET_SAMPLE_RATE_HZ then Ok(samples)
    else Resampled(samples, chunk.sampleRateHz, TARGET_SAMPLE_RATE_HZ)
  }

  ghost function Ingested(v: JobView, chunk: Chunk): (JobView, Result<nat>) {
    if v.state == CancelledState then (v, Err(Cancelled))
    else if v.state == Paused then (v, Ok(v.chunksAccepted))
    else match Converted(chunk)
      case Err(e) => (v, Err(e))
      case Ok(samples) =>
        (v.(contents := Tail(v.contents + samples, RING_CAPACITY),
            nextSeq := SaturatingNext(chunk.sequence),
            chunksAccepted := v.chunksAccepted + 1), Ok(v.chunksAccepted + 1))
  }

  function Segment(samples: nat): nat {
    if samples / SEGMENT_SAMPLES < 1 then 1 else samples / SEGMENT_SAMPLES
  }

  /** The handling of one chunk: ingest it, and run recognition when a new segment is complete. Only a panic is passed on. */
  ghost function Handled(v: JobView, chunk: Chunk): (JobView, Result<Option<nat>>) {
    var (v', r) := Ingested(v, chunk);
    var n := |v'.contents|;
    if r == Err(Panic) then (v', Err(Panic))
    else if r.Err? || n <= SEGMENT_SAMPLES || Segment(n) <= v'.lastAsrSegment then (v', Ok(None))
    else (v'.(lastAsrSegment := Segment(n)), Ok(Some(Segment(n))))
  }

  // ----- The objects -----

  class CaptureJob {
    const videoId: string
    const ring: RingBuffer
    var state: JobState
    var nextSeq: nat
    var chunksAccepted: nat
    var lastAsrSegment: nat

    ghost predicate Valid()
      reads this, ring
    {
      ring.Valid() && ring.capacity == RING_CAPACITY
    }

    ghost function View(): JobView
      requires Valid()
      reads this, ring, ring.data
    {
      JobView(videoId, state, ring.Contents(), nextSeq, chunksAccepted, lastAsrSegment)
    }

    constructor (videoId: string)
      ensures Valid() && fresh(ring) && fresh(ring.data) && View() == NewJob(videoId)
    {
      this.videoId := videoId;
      ring := new RingBuffer(RING_CAPACITY);
      state, nextSeq, chunksAccepted, lastAsrSegment := Running, 0, 0, 0;
    }

    /** `cancel`, `pause` and `resume` on the job itself. */
    method Obey(command: Command) returns (r: Result<()>)
      requires Valid()
      modifies this
      ensures Valid() && (View(), r) == Commanded(old(View()), command)
    {
      r := Ok(());
      match command {
        case Cancel => state := CancelledState;
        case Pause =>
          if state == CancelledState {
            return Err(Cancelled);
          }
          state := Paused;
        case Resume =>
          match state {
            case Paused => state := Running;
            case CancelledState => r := Err(Cancelled);
            case Completed => r := Err(NotResumable);
            case Running =>
          }
      }
    }

    method Ingest(chunk: Chunk) returns (r: Result<nat>)
      requires Valid()
      modifies this, ring, ring.data
      ensures Valid() && (View(), r) == Ingested(old(View()), chunk)
    {
      hide Converted, Resampled, PcmToSamples, Tail;
      if state == CancelledState {
        return Err(Cancelled);
      }
      if state == Paused {
        return Ok(chunksAccepted);
      }
      var samples := Convert(chunk);
      if samples.Err? {
        return Err(samples.error);
      }
      ring.PushSlice(samples.value);
      nextSeq := SaturatingNext(chunk.sequence);
      chunksAccepted := chunksAccepted + 1;
      r := Ok(chunksAccepted);
    }

    static method Convert(chunk: Chunk) returns (r: Result<seq<real>>)
      ensures r == Converted(chunk)
    {
      var samples := PcmToSamples(chunk.pcm);
      if chunk.sampleRateHz == TARGET_SAMPLE_RATE_HZ {
        return Ok(samples);
      }
      r := ResampleLinear(samples, chunk.sampleRateHz, TARGET_SAMPLE_RATE_HZ);
    }

    /** The throttle of `handle_audio_chunk`; the result is the segment for which recognition runs, or a panic. */
    method HandleChunk(chunk: Chunk) returns (segment: Result<Option<nat>>)
      requires Valid()
      modifies this, ring, ring.data
      ensures Valid() && (View(), segment) == Handled(old(View()), chunk)
    {
      hide Ingested;
      var r := Ingest(chunk);
      if r == Err(Panic) {
        return Err(Panic);
      }
      if r.Err? {
        return Ok(None);
      }
      var sampleCount := ring.LenSamples();
      if sampleCount <= SEGMENT_SAMPLES || Segment(sampleCount) <= lastAsrSegment {
        return Ok(None);
      }
      var pcm := ring.Snapshot();
      lastAsrSegment := Segment(|pcm|);
      segment := Ok(Some(lastAsrSegment));
    }
  }

  type Views = map<string, JobView>

  /** The jobs, and whether the lock around them is poisoned. */
  datatype Shared = Shared(jobs: Views, poisoned: bool)

  ghost function ControlShared(s: Shared, id: string, command: Command): (Shared, Result<()>) {
    if s.poisoned then (s, Err(Panic))
    else if id !in s.jobs then (s, Err(NotFound))
    else
      var (v, r) := Commanded(s.jobs[id], command);
      (s.(jobs := s.jobs[id := v]), r)
  }

  ghost function HandleShared(s: Shared, id: string, chunk: Chunk): (Shared, Result<Option<nat>>) {
    if s.poisoned then (s, Err(Panic))
    else if id !in s.jobs then (s, Ok(None))
    else
      var (v, r) := Handled(s.jobs[id], chunk);
      (Shared(s.jobs[id := v], r == Err(Panic)), r)
  }

  /** The objects that make up a job. */
  ghost function Parts(job: CaptureJob): set<object> {
    {job, job.ring, job.ring.data}
  }

  /** The queue and the lock through which all handlers use it: a panic while the lock is held poisons it, and from then
      on every use panics. */
  class CaptureJobQueue {
    var jobs: map<string, CaptureJob>
    var poisoned: bool
    ghost var Repr: set<object>

    ghost predicate Valid()
      reads this, Repr
    {
      && this in Repr
      && (forall id :: id in jobs ==> Parts(jobs[id]) <= Repr)
      && (forall id :: id in jobs ==> jobs[id].Valid())
      && (forall i, j :: i in jobs && j in jobs && i != j ==> Parts(jobs[i]) !! Parts(jobs[j]))
    }

    ghost function Jobs(): Views
      requires Valid()
      reads this, Repr
    {
      map id | id in jobs :: jobs[id].View()
    }

    ghost function View(): Shared
      requires Valid()
      reads this, Repr
    {
      Shared(Jobs(), poisoned)
    }

    constructor ()
      ensures Valid() && fresh(Repr) && View() == Shared(map[], false)
    {
      jobs := map[];
      poisoned := false;
      Repr := {this};
    }

    method StartWithId(id: string, videoId: string) returns (r: Result<()>)
      requires Valid()
      modifies this
      ensures Valid() && fresh(Repr - old(Repr))
      ensures View() == if old(poisoned) then old(View()) else Shared(old(Jobs())[id := NewJob(videoId)], false)
      ensures r == if old(poisoned) then Err(Panic) else Ok(())
    {
      hide NewJob, CaptureJob.View, CaptureJob.Valid, RingBuffer.Contents, RingBuffer.Valid;
      if poisoned {
        return Err(Panic);
      }
      var job := new CaptureJob(videoId);
      Insert(id, job);
      r := Ok(());
    }

    method Insert(id: string, job: CaptureJob)
      requires Valid() && job.Valid() && Parts(job) !! Repr
      modifies this
      ensures Valid() && Repr == old(Repr) + Parts(job)
      ensures Jobs() == old(Jobs())[id := old(job.View())] && poisoned == old(poisoned)
    {
      hide CaptureJob.View, CaptureJob.Valid, RingBuffer.Contents, RingBuffer.Valid, Parts;
      ghost var was, views := jobs, Jobs();
      forall j | j in was ensures Parts(was[j]) !! Parts(job) {}
      jobs := jobs[id := job];
      Repr := Repr + Parts(job);
      assert job.Valid() && job.View() == old(job.View());
      assert forall j :: j in was ==> was[j].Valid() && was[j].View() == views[j];
    }

    /** `cancel`, `pause` and `resume`. */
    method Control(id: string, command: Command) returns (r: Result<()>)
      requires Valid()
      modifies Repr
      ensures Valid() && Repr == old(Repr)
      ensures (View(), r) == ControlShared(old(View()), id, command)
    {
      hide Commanded, CaptureJob.View, CaptureJob.Valid, RingBuffer.Contents, RingBuffer.Valid;
      if poisoned {
        return Err(Panic);
      }
      if id !in jobs {
        return Err(NotFound);
      }
      r := jobs[id].Obey(command);
      assert forall j :: j in jobs && j != id ==> jobs[j].View() == old(jobs[j].View());
      assert Jobs() == old(Jobs())[id := Commanded(old(Jobs())[id], command).0];
    }

    method HandleChunk(id: string, chunk: Chunk) returns (segment: Result<Option<nat>>)
      requires Valid()
      modifies Repr
      ensures Valid() && Repr == old(Repr)
      ensures (View(), segment) == HandleShared(old(View()), id, chunk)
    {
      hide Handled;
      if poisoned {
        return Err(Panic);
      }
      if id !in jobs {
        return Ok(None);
      }
      segment := HandleLocked(id, chunk);
      if segment == Err(Panic) {
        Poison();
      }
    }

    /** The part that runs while the lock is held. */
    method HandleLocked(id: string, chunk: Chunk) returns (segment: Result<Option<nat>>)
      requires Valid() && id in jobs
      modifies Repr
      ensures Valid() && Repr == old(Repr) && poisoned == old(poisoned)
      ensures id in old(Jobs()) && segment == Handled(old(Jobs())[id], chunk).1
      ensures Jobs() == old(Jobs())[id := Handled(old(Jobs())[id], chunk).0]
    {
      hide Handled, CaptureJob.View, CaptureJob.Valid, RingBuffer.Contents, RingBuffer.Valid;
      segment := jobs[id].HandleChunk(chunk);
      assert forall j :: j in jobs && j != id ==> jobs[j].View() == old(jobs[j].View());
    }

    method Poison()
      requires Valid()
      modifies this
      ensures Valid() && Repr == old(Repr)
      ensures View() == Shared(old(Jobs()), true)
    {
      hide CaptureJob.View, CaptureJob.Valid, RingBuffer.Contents, RingBuffer.Valid;
      poisoned := true;
      assert forall j :: j in jobs ==> jobs[j].View() == old(jobs[j].View());
    }

    method SnapshotPcm(id: string) returns (r: Result<seq<real>>)
      requires Valid()
      ensures r == if poisoned then Err(Panic) else if id !in Jobs() then Err(NotFound)
                   else if Jobs()[id].contents == [] then Err(Empty) else Ok(Jobs()[id].contents)
    {
      if poisoned {
        return Err(Panic);
      }
      if id !in jobs {
        return Err(NotFound);
      }
      var samples := jobs[id].ring.Snapshot();
      if |samples| == 0 {
        return Err(Empty);
      }
      r := Ok(samples);
    }
  }

  datatype Command = Cancel | Pause | Resume

  function Commanded(v: JobView, command: Command): (JobView, Result<()>) {
    match command
    case Cancel => (v.(state := CancelledState), Ok(()))
    case Pause => if v.state == CancelledState then (v, Err(Cancelled)) else (v.(state := Paused), Ok(()))
    case Resume =>
      match v.state
      case Paused => (v.(state := Running), Ok(()))
      case CancelledState => (v, Err(Cancelled))
      case Completed => (v, Err(NotResumable))
      case Running => (v, Ok(()))
  }
}
