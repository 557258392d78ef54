/** The companion client's mailbox: arriving messages, waits by message type, and their timers. */
module Mailbox {
  import opened Text

  /** A parsed message; `kind` is its `type` when it is an object whose `type` is a string. */
  datatype Message = Message(kind: Option<string>, payload: string)

  type WaiterId = nat

  datatype Outcome = Resolved(message: Message) | Rejected

  const FAN_IN_TYPES: set<string> :=
    {"timeline.source", "timeline.translation", "job.progress", "error", "lyrics.timeline", "job.result"}

  /** `timers` holds the armed timers with the type that each one's closure names; waiters are numbered by `issued`;
      `delivered` and `fanned` log what went to waiters and to the fan-in handlers. */
  datatype State = State(pending: map<string, WaiterId>, queue: seq<Message>, timers: map<WaiterId, string>,
                         settled: map<WaiterId, Outcome>, issued: nat,
                         delivered: seq<Message>, fanned: seq<Message>)

  datatype Event = Arrive(m: Message) | Wait(kind: string) | Timeout(w: WaiterId)

  const INITIAL := State(map[], [], map[], map[], 0, [], [])

  function KindOf(m: Message): string {
    m.kind.GetOr("")
  }

  /** The index of the first queued message of a type, or the length. */
  function FirstOf(queue: seq<Message>, kind: string): (i: nat)
    ensures i <= |queue| && (forall j :: 0 <= j < i ==> queue[j].kind != Some(kind))
    ensures i < |queue| ==> queue[i].kind == Some(kind)
  {
    if queue == [] || queue[0].kind == Some(kind) then 0 else 1 + FirstOf(queue[1..], kind)
  }

  predicate Enabled(s: State, e: Event) {
    e.Timeout? ==> e.w in s.timers
  }

  function Step(s: State, e: Event): State
    requires Enabled(s, e)
  {
    match e
    case Arrive(m) =>
      var kind := KindOf(m);
      if kind != "" && kind in s.pending then
        var w := s.pending[kind];
        s.(pending := s.pending - {kind}, timers := s.timers - {w}, settled := s.settled[w := Resolved(m)],
           delivered := s.delivered + [m])
      else
        s.(queue := s.queue + [m], fanned := if kind in FAN_IN_TYPES then s.fanned + [m] else s.fanned)
    case Wait(kind) =>
      var i := FirstOf(s.queue, kind);
      if i < |s.queue| then
        s.(queue := s.queue[..i] + s.queue[i + 1..], settled := s.settled[s.issued := Resolved(s.queue[i])],
           delivered := s.delivered + [s.queue[i]], issued := s.issued + 1)
      else
        s.(pending := s.pending[kind := s.issued], timers := s.timers[s.issued := kind], issued := s.issued + 1)
    case Timeout(w) =>
      s.(pending := s.pending - {s.timers[w]}, timers := s.timers - {w}, settled := s.settled[w := Rejected])
  }

  // ----- The object -----

  class Client {
    var pending: map<string, WaiterId>
    var queue: seq<Message>
    var timers: map<WaiterId, string>
    var settled: map<WaiterId, Outcome>
    var issued: nat
    var delivered: seq<Message>
    var fanned: seq<Message>

    function Abstract(): State
      reads this
    {
      State(pending, queue, timers, settled, issued, delivered, fanned)
    }

    constructor ()
      ensures Abstract() == INITIAL
    {
      pending, queue, timers, settled, issued, delivered, fanned := map[], [], map[], map[], 0, [], [];
    }

    /** The message listener. */
    method OnMessage(m: Message)
      modifies this
      ensures Abstract() == Step(old(Abstract()), Arrive(m))
    {
      var kind := KindOf(m);
      if kind != "" && kind in pending {
        var waiter := pending[kind];
        timers := timers - {waiter};
        pending := pending - {kind};
        Settle(waiter, Resolved(m));
        delivered := delivered + [m];
        return;
      }
      DispatchFanIn(m);
      queue := queue + [m];
    }

    method Settle(w: WaiterId, outcome: Outcome)
      modifies this`settled
      ensures settled == old(settled)[w := outcome]
    {
      settled := settled[w := outcome];
    }

    method DispatchFanIn(m: Message)
      modifies this`fanned
      ensures fanned == if m.kind.Some? && m.kind.value in FAN_IN_TYPES then old(fanned) + [m] else old(fanned)
    {
      if m.kind.None? || m.kind.value == "" || m.kind.value !in FAN_IN_TYPES {
        return;
      }
      fanned := fanned + [m];
    }

    /** The search that `findIndex` does, up to the length where it gives -1. */
    method FindIndex(kind: string) returns (idx: nat)
      ensures idx == FirstOf(queue, kind)
    {
      idx := 0;
      while idx < |queue| && queue[idx].kind != Some(kind)
        invariant idx <= |queue|
        invariant FirstOf(queue, kind) == idx + FirstOf(queue[idx..], kind)
      {
        assert queue[idx..][1..] == queue[idx + 1..];
        idx := idx + 1;
      }
    }

    /** `waitType`, as the number of the promise it returns. */
    method WaitType(kind: string) returns (w: WaiterId)
      modifies this
      ensures w == old(issued) && Abstract() == Step(old(Abstract()), Wait(kind))
    {
      w := issued;
      issued := issued + 1;
      var idx := FindIndex(kind);
      if idx < |queue| {
        delivered := delivered + [queue[idx]];
        Settle(w, Resolved(queue[idx]));
        queue := queue[..idx] + queue[idx + 1..];
        return;
      }
      timers := timers[w := kind];
      pending := pending[kind := w];
    }

    /** The callback of an armed timer. */
    method OnTimeout(w: WaiterId)
      requires w in timers
      modifies this
      ensures Abstract() == Step(old(Abstract()), Timeout(w))
    {
      pending := pending - {timers[w]};
      timers := timers - {w};
      Settle(w, Rejected);
    }
  }

  // ----- Runs -----

  /** The state after a run, if every event of it could happen. */
  ghost function Reached(events: seq<Event>): Option<State> {
    if events == [] then Some(INITIAL)
    else
      var e := events[|events| - 1];
      match Reached(events[..|events| - 1])
      case None => None
      case Some(s) => if Enabled(s, e) then Some(Step(s, e)) else None
  }

  ghost predicate ValidRun(events: seq<Event>) {
    Reached(events).Some?
  }

  ghost function Run(events: seq<Event>): State
    requires ValidRun(events)
  {
    Reached(events).value
  }

  lemma RunSnoc(events: seq<Event>, e: Event)
    requires ValidRun(events) && Enabled(Run(events), e)
    ensures ValidRun(events + [e]) && Run(events + [e]) == Step(Run(events), e)
  {
    assert (events + [e])[..|events|] == events;
  }

  ghost function Arrived(events: seq<Event>): seq<Message> {
    if events == [] then []
    else
      var e := events[|events| - 1];
      Arrived(events[..|events| - 1]) + (if e.Arrive? then [e.m] else [])
  }

  /** The type that waiter number `w` asked for. */
  ghost function Asked(events: seq<Event>): seq<string> {
    if events == [] then []
    else
      var e := events[|events| - 1];
      Asked(events[..|events| - 1]) + (if e.Wait? then [e.kind] else [])
  }

  // ----- The invariant -----

  /** Waiters are either armed or settled, and the pending ones are armed for their type. */
  ghost predicate Consistent(s: State) {
    && (forall w :: w in s.timers ==> w < s.issued && w !in s.settled)
    && (forall w :: w in s.settled ==> w < s.issued)
    && (forall w: nat :: w < s.issued ==> w in s.timers || w in s.settled)
    && (forall k :: k in s.pending ==> s.pending[k] in s.timers && s.timers[s.pending[k]] == k)
  }

  ghost predicate NoneQueued(s: State, kind: string) {
    forall i :: 0 <= i < |s.queue| ==> s.queue[i].kind != Some(kind)
  }

  /** A type that has a pending waiter has no message in the queue. */
  ghost predicate PendingMeansNoneQueued(s: State) {
    forall k :: k in s.pending && k != "" ==> NoneQueued(s, k)
  }

  /** Each waiter was resolved with a message of the type it asked for. */
  ghost predicate RightKinds(s: State, asked: seq<string>) {
    && |asked| == s.issued
    && (forall w :: w in s.timers ==> w < |asked| && s.timers[w] == asked[w])
    && (forall w :: w in s.settled && s.settled[w].Resolved? ==> w < |asked| && s.settled[w].message.kind == Some(asked[w]))
  }

  lemma StepConsistent(s: State, e: Event)
    requires Consistent(s) && Enabled(s, e)
    ensures Consistent(Step(s, e))
  {
    hide FirstOf;
    match e
    case Arrive(m) =>
      if KindOf(m) != "" && KindOf(m) in s.pending {
        SettleConsistent(s, s.pending[KindOf(m)], Resolved(m));
      }
    case Wait(kind) =>
    case Timeout(w) => SettleConsistent(s, w, Rejected);
  }

  /** Settling an armed waiter and dropping the entry of its type. */
  lemma SettleConsistent(s: State, w: WaiterId, outcome: Outcome)
    requires Consistent(s) && w in s.timers
    ensures Consistent(s.(pending := s.pending - {s.timers[w]}, timers := s.timers - {w}, settled := s.settled[w := outcome]))
  {}

  lemma StepNoneQueued(s: State, e: Event)
    requires PendingMeansNoneQueued(s) && Enabled(s, e)
    ensures PendingMeansNoneQueued(Step(s, e))
  {
    var s' := Step(s, e);
    forall k | k in s'.pending && k != "" ensures NoneQueued(s', k) {
      if k in s.pending {
        assert NoneQueued(s, k);
      }
    }
  }

  lemma StepRightKinds(s: State, e: Event, asked: seq<string>)
    requires Consistent(s) && RightKinds(s, asked) && Enabled(s, e)
    ensures RightKinds(Step(s, e), asked + (if e.Wait? then [e.kind] else []))
  {}

  lemma {:induction false} RunInvariant(events: seq<Event>)
    requires ValidRun(events)
    ensures Consistent(Run(events)) && PendingMeansNoneQueued(Run(events)) && RightKinds(Run(events), Asked(events))
  {
    hide Step, Consistent, PendingMeansNoneQueued, RightKinds;
    if events == [] {
      InitialInvariant();
    } else {
      var n := |events| - 1;
      RunInvariant(events[..n]);
      StepConsistent(Run(events[..n]), events[n]);
      StepNoneQueued(Run(events[..n]), events[n]);
      StepRightKinds(Run(events[..n]), events[n], Asked(events[..n]));
    }
  }

  lemma InitialInvariant()
    ensures Consistent(INITIAL) && PendingMeansNoneQueued(INITIAL) && RightKinds(INITIAL, [])
  {}

  // ----- Nothing is lost, and each type is first in, first out -----

  ghost function OneOf(m: Message, kind: Option<string>): seq<Message> {
    if m.kind == kind then [m] else []
  }

  ghost function OfKind(ms: seq<Message>, kind: Option<string>): seq<Message> {
    if ms == [] then [] else OfKind(ms[..|ms| - 1], kind) + OneOf(ms[|ms| - 1], kind)
  }

  lemma OfKindSnoc(ms: seq<Message>, m: Message, kind: Option<string>)
    ensures OfKind(ms + [m], kind) == OfKind(ms, kind) + OneOf(m, kind)
  {
    assert (ms + [m])[..|ms|] == ms;
  }

  lemma {:induction false} OfKindConcat(a: seq<Message>, b: seq<Message>, kind: Option<string>)
    ensures OfKind(a + b, kind) == OfKind(a, kind) + OfKind(b, kind)
  {
    hide OneOf;
    if b == [] {
      assert a + b == a;
    } else {
      var n := |b| - 1;
      OfKindConcat(a, b[..n], kind);
      OfKindSnoc(a + b[..n], b[n], kind);
      OfKindSnoc(b[..n], b[n], kind);
      assert a + b == a + b[..n] + [b[n]] && b == b[..n] + [b[n]];
    }
  }

  lemma {:induction false} OfKindNone(ms: seq<Message>, kind: Option<string>)
    requires forall i :: 0 <= i < |ms| ==> ms[i].kind != kind
    ensures OfKind(ms, kind) == []
  {
    if ms != [] {
      OfKindNone(ms[..|ms| - 1], kind);
    }
  }

  /** Taking the first queued message of a type takes the head of that type's messages, and no other type's. */
  lemma TakeFirst(queue: seq<Message>, taken: string, kind: Option<string>)
    requires FirstOf(queue, taken) < |queue|
    ensures var i := FirstOf(queue, taken);
            OfKind(queue, kind) == OneOf(queue[i], kind) + OfKind(queue[..i] + queue[i + 1..], kind)
  {
    hide OfKind, FirstOf;
    var i := FirstOf(queue, taken);
    var head, m, tail := queue[..i], queue[i], queue[i + 1..];
    assert queue == head + [m] + tail;
    OfKindConcat(head + [m], tail, kind);
    OfKindSnoc(head, m, kind);
    OfKindConcat(head, tail, kind);
    if kind == Some(taken) {
      OfKindNone(head, kind);
    }
  }

  /** The messages of a type: those delivered, then those still queued. */
  ghost function Flow(s: State, kind: Option<string>): seq<Message> {
    OfKind(s.delivered, kind) + OfKind(s.queue, kind)
  }

  lemma StepFlow(s: State, e: Event, kind: Option<string>)
    requires PendingMeansNoneQueued(s) && Enabled(s, e)
    ensures Flow(Step(s, e), kind) == Flow(s, kind) + (if e.Arrive? then OneOf(e.m, kind) else [])
  {
    hide OfKind;
    match e
    case Arrive(m) =>
      OfKindSnoc(s.delivered, m, kind);
      OfKindSnoc(s.queue, m, kind);
      if KindOf(m) != "" && KindOf(m) in s.pending && m.kind == kind {
        assert NoneQueued(s, KindOf(m));
        OfKindNone(s.queue, kind);
      }
    case Wait(k) =>
      var i := FirstOf(s.queue, k);
      if i < |s.queue| {
        OfKindSnoc(s.delivered, s.queue[i], kind);
        TakeFirst(s.queue, k, kind);
      }
    case Timeout(_) =>
  }

  /** For each type, what was delivered so far followed by what is still queued is what arrived, in order. */
  lemma {:induction false} DeliveredThenQueuedIsArrived(events: seq<Event>, kind: Option<string>)
    requires ValidRun(events)
    ensures Flow(Run(events), kind) == OfKind(Arrived(events), kind)
  {
    hide Step, Flow;
    if events == [] {
      EmptyFlow(kind);
    } else {
      var n := |events| - 1;
      DeliveredThenQueuedIsArrived(events[..n], kind);
      RunInvariant(events[..n]);
      StepFlow(Run(events[..n]), events[n], kind);
      if events[n].Arrive? {
        OfKindSnoc(Arrived(events[..n]), events[n].m, kind);
      } else {
        assert Arrived(events) == Arrived(events[..n]);
      }
    }
  }

  lemma EmptyFlow(kind: Option<string>)
    ensures Flow(INITIAL, kind) == []
  {}

  // ----- What the fan-in handlers see -----

  /** The six types that the background page and the side panel listen to. */
  predicate ForHandlers(m: Message) {
    || m.kind == Some("timeline.source") || m.kind == Some("timeline.translation") || m.kind == Some("lyrics.timeline")
    || m.kind == Some("job.progress") || m.kind == Some("job.result") || m.kind == Some("error")
  }

  /** The last event is an arrival that settles no waiter. */
  ghost predicate ArrivedUnclaimed(events: seq<Event>)
    requires ValidRun(events) && events != []
  {
    PrefixValid(events, |events| - 1);
    events[|events| - 1].Arrive? && Run(events).settled == Run(events[..|events| - 1]).settled
  }

  /** The messages for the handlers that arrived and settled no waiter on arrival, in order. */
  ghost function Unclaimed(events: seq<Event>): seq<Message>
    requires ValidRun(events)
  {
    if events == [] then [] else
      var n := |events| - 1;
      PrefixValid(events, n);
      Unclaimed(events[..n])
      + (if ArrivedUnclaimed(events) && ForHandlers(events[n].m) then [events[n].m] else [])
  }

  lemma ArrivalSettles(s: State, m: Message)
    requires Consistent(s)
    ensures Step(s, Arrive(m)).settled == s.settled <==> !(KindOf(m) != "" && KindOf(m) in s.pending)
  {}

  lemma ForHandlersIff(m: Message)
    ensures ForHandlers(m) <==> KindOf(m) in FAN_IN_TYPES
  {}

  /** In every run the handlers have seen, in order, exactly the messages of the six types that settled no waiter when
      they arrived. */
  lemma {:induction false} FannedIsUnclaimed(events: seq<Event>)
    requires ValidRun(events)
    ensures Run(events).fanned == Unclaimed(events)
  {
    if events != [] {
      var n := |events| - 1;
      PrefixValid(events, n);
      FannedIsUnclaimed(events[..n]);
      RunInvariant(events[..n]);
      var s, e := Run(events[..n]), events[n];
      hide Consistent, PendingMeansNoneQueued, RightKinds, FirstOf, ForHandlers;
      if e.Arrive? {
        ArrivalSettles(s, e.m);
        ForHandlersIff(e.m);
      }
    }
  }

  /** The messages that waits have taken from the queue, in order, read off the delivery log. */
  ghost function TakenLater(events: seq<Event>): seq<Message>
    requires ValidRun(events)
  {
    if events == [] then [] else
      var n := |events| - 1;
      PrefixValid(events, n);
      var log, before := Run(events).delivered, Run(events[..n]).delivered;
      TakenLater(events[..n])
      + (if events[n].Wait? && |log| > |before| then [log[|log| - 1]] else [])
  }

  lemma StepFanned(s: State, e: Event, kind: string, taken: seq<Message>)
    requires Enabled(s, e) && ForHandlers(Message(Some(kind), ""))
    requires OfKind(s.fanned, Some(kind)) == OfKind(taken, Some(kind)) + OfKind(s.queue, Some(kind))
    ensures var s' := Step(s, e);
            var taken' := taken + (if e.Wait? && |s'.delivered| > |s.delivered| then [s'.delivered[|s'.delivered| - 1]] else []);
            OfKind(s'.fanned, Some(kind)) == OfKind(taken', Some(kind)) + OfKind(s'.queue, Some(kind))
  {
    hide OfKind, ForHandlers;
    var k := Some(kind);
    assert taken + [] == taken;
    match e
    case Arrive(m) =>
      OfKindSnoc(s.queue, m, k);
      OfKindSnoc(s.fanned, m, k);
      ForHandlersIff(Message(k, ""));
      assert m.kind == k ==> KindOf(m) in FAN_IN_TYPES;
      assert OneOf(m, k) == if m.kind == k then [m] else [];
    case Wait(w) =>
      var i := FirstOf(s.queue, w);
      if i < |s.queue| {
        TakeFirst(s.queue, w, k);
        OfKindSnoc(taken, s.queue[i], k);
      }
    case Timeout(_) =>
  }

  /** For each of the six types, what the handlers have seen is what waits took from the queue later, followed by what is
      still queued: a message that a wait takes from the queue has been handed to the handlers exactly once. */
  lemma {:induction false} TakenWasFanned(events: seq<Event>, kind: string)
    requires ValidRun(events) && ForHandlers(Message(Some(kind), ""))
    ensures OfKind(Run(events).fanned, Some(kind))
         == OfKind(TakenLater(events), Some(kind)) + OfKind(Run(events).queue, Some(kind))
  {
    hide OfKind, ForHandlers, Step;
    if events == [] {
      NoneOfKind(Some(kind));
    } else {
      var n := |events| - 1;
      PrefixValid(events, n);
      TakenWasFanned(events[..n], kind);
      StepFanned(Run(events[..n]), events[n], kind, TakenLater(events[..n]));
    }
  }

  lemma NoneOfKind(kind: Option<string>)
    ensures OfKind([], kind) == []
  {}

  // ----- Each waiter settles once -----

  lemma StepSettles(s: State, e: Event, w: WaiterId)
    requires Consistent(s) && Enabled(s, e) && w in s.settled
    ensures w in Step(s, e).settled && Step(s, e).settled[w] == s.settled[w]
  {}

  lemma PrefixValid(events: seq<Event>, n: nat)
    requires ValidRun(events) && n <= |events|
    ensures ValidRun(events[..n])
    decreases |events|
  {
    if n == |events| {
      assert events[..n] == events;
    } else {
      PrefixValid(events[..|events| - 1], n);
      assert events[..|events| - 1][..n] == events[..n];
    }
  }

  /** A settled waiter keeps its outcome for the rest of the run; an unsettled one still has its timer. */
  lemma {:induction false} SettledOnce(events: seq<Event>, n: nat, w: WaiterId)
    requires ValidRun(events) && n <= |events|
    ensures ValidRun(events[..n])
    ensures w in Run(events[..n]).settled ==>
              w in Run(events).settled && Run(events).settled[w] == Run(events[..n]).settled[w]
    ensures w < Run(events).issued ==> (w in Run(events).settled <==> w !in Run(events).timers)
    decreases |events|
  {
    hide Step;
    PrefixValid(events, n);
    RunInvariant(events);
    if n == |events| {
      assert events[..n] == events;
    } else {
      var m := |events| - 1;
      SettledOnce(events[..m], n, w);
      assert events[..m][..n] == events[..n];
      RunInvariant(events[..m]);
      if w in Run(events[..m]).settled {
        StepSettles(Run(events[..m]), events[m], w);
      }
    }
  }

  /** An arriving message settles no waiter that has settled before: the pending waiter of its type is still armed. */
  lemma ArrivalReachesOnlyArmed(events: seq<Event>, m: Message)
    requires ValidRun(events)
    ensures var s := Run(events);
            && Enabled(s, Arrive(m))
            && (Step(s, Arrive(m)).settled == s.settled
                || exists w :: w in s.timers && w !in s.settled && s.timers[w] == KindOf(m)
                     && Step(s, Arrive(m)).settled == s.settled[w := Resolved(m)])
  {
    RunInvariant(events);
    var s, kind := Run(events), KindOf(m);
    if kind != "" && kind in s.pending {
      assert s.pending[kind] in s.timers;
    }
  }

  // ----- The empty type -----

  /** Whether a pending waiter and a queued message of one type can be there together. */
  ghost predicate Missed(s: State, kind: string) {
    kind in s.pending && !NoneQueued(s, kind)
  }

  lemma EmptyTypeRun() returns (events: seq<Event>)
    ensures ValidRun(events) && Missed(Run(events), "")
  {
    var m := Message(Some(""), "{}");
    events := [Wait(""), Arrive(m)];
    RunSnoc([], Wait(""));
    RunSnoc([Wait("")], Arrive(m));
    assert [] + [Wait("")] == [Wait("")] && [Wait("")] + [Arrive(m)] == events;
    assert Run(events).queue == [m];
    assert Run(events).queue[0].kind == Some("");
  }

  /** "A pending waiter of a type implies no queued message of that type" holds in all runs for exactly the
      non-empty types: the listener never looks a waiter up for the empty one. */
  lemma NeverMissedIff(kind: string)
    ensures (forall events :: ValidRun(events) ==> !Missed(Run(events), kind)) <==> kind != ""
  {
    if kind != "" {
      forall events | ValidRun(events) ensures !Missed(Run(events), kind) {
        RunInvariant(events);
      }
    } else {
      var events := EmptyTypeRun();
    }
  }

  // ----- Overlapping waits of one type -----

  /** If some waiter of a type is unsettled, one of them is pending, so that the next message of the type reaches it. */
  ghost predicate Served(s: State, kind: string) {
    (exists w :: w in s.timers && s.timers[w] == kind) ==> kind in s.pending
  }

  /** The event settles a waiter of the type while another one is unsettled. */
  ghost predicate SettlesOneOfTwo(s: State, e: Event, kind: string) {
    && (exists v, w :: v in s.timers && w in s.timers && v != w && s.timers[v] == s.timers[w] == kind)
    && (match e
        case Arrive(m) => KindOf(m) == kind && kind != ""
        case Wait(_) => false
        case Timeout(w) => w in s.timers && s.timers[w] == kind)
  }

  /** A type stays served, except exactly when an arrival or a timeout settles one of two unsettled waiters: the entry
      of the other is then overwritten or deleted. */
  lemma ServedIff(s: State, e: Event, kind: string)
    requires Consistent(s) && Enabled(s, e) && Served(s, kind)
    ensures Served(Step(s, e), kind) <==> !SettlesOneOfTwo(s, e, kind)
  {
    var s' := Step(s, e);
    match e
    case Arrive(m) =>
      if KindOf(m) == kind && kind != "" && kind in s.pending {
        var u := s.pending[kind];
        if SettlesOneOfTwo(s, e, kind) {
          var v, w :| v in s.timers && w in s.timers && v != w && s.timers[v] == s.timers[w] == kind;
          var other := if v == u then w else v;
          assert other in s'.timers && s'.timers[other] == kind;
        }
      }
    case Wait(k) =>
      if k == kind && FirstOf(s.queue, k) == |s.queue| {
        assert kind in s'.pending;
      }
    case Timeout(t) =>
      if s.timers[t] == kind && SettlesOneOfTwo(s, e, kind) {
        var v, w :| v in s.timers && w in s.timers && v != w && s.timers[v] == s.timers[w] == kind;
        var other := if v == t then w else v;
        assert other in s'.timers && s'.timers[other] == kind;
      }
  }

  ghost predicate Armed(s: State, w: WaiterId, kind: string) {
    w in s.timers && s.timers[w] == kind
  }

  ghost predicate AtMostOne(s: State, kind: string) {
    forall v, w :: Armed(s, v, kind) && Armed(s, w, kind) ==> v == w
  }

  /** Step `i` is a wait that finds no queued message while another wait of its type is unsettled. */
  ghost predicate Overlaps(events: seq<Event>, i: nat, kind: string)
    requires ValidRun(events) && i < |events|
  {
    PrefixValid(events, i);
    var s := Run(events[..i]);
    events[i] == Wait(kind) && NoneQueued(s, kind) && exists w :: Armed(s, w, kind)
  }

  /** The type is served after `n` steps, and stays so whichever of its timers goes off next. */
  ghost predicate Safe(s: State, kind: string) {
    Served(s, kind) && forall w :: Armed(s, w, kind) ==> Served(Step(s, Timeout(w)), kind)
  }

  lemma OneIsSafe(s: State, kind: string)
    requires Consistent(s) && Served(s, kind) && AtMostOne(s, kind)
    ensures Safe(s, kind)
  {
    forall w | Armed(s, w, kind) ensures Served(Step(s, Timeout(w)), kind) {
      assert forall v :: v in s.timers && s.timers[v] == kind ==> Armed(s, v, kind);
    }
  }

  lemma StepKeepsOne(s: State, e: Event, kind: string)
    requires Consistent(s) && Enabled(s, e) && Served(s, kind) && AtMostOne(s, kind)
    requires e == Wait(kind) ==> !NoneQueued(s, kind) || forall w :: !Armed(s, w, kind)
    ensures Served(Step(s, e), kind) && AtMostOne(Step(s, e), kind)
  {
    var s' := Step(s, e);
    assert forall v :: v in s.timers && s.timers[v] == kind ==> Armed(s, v, kind);
    ServedIff(s, e, kind);
    forall v, w | Armed(s', v, kind) && Armed(s', w, kind) ensures v == w {
      assert Armed(s, v, kind) || (e == Wait(kind) && v == s.issued);
      assert Armed(s, w, kind) || (e == Wait(kind) && w == s.issued);
    }
  }

  lemma {:induction false} SequentialWaitsServed(events: seq<Event>, kind: string)
    requires ValidRun(events)
    requires forall i :: 0 <= i < |events| ==> !Overlaps(events, i, kind)
    ensures Served(Run(events), kind) && AtMostOne(Run(events), kind)
  {
    hide Step, Consistent, NoneQueued, Served, AtMostOne;
    if events == [] {
      InitialServed(kind);
    } else {
      var n := |events| - 1;
      PrefixValid(events, n);
      forall i | 0 <= i < n ensures !Overlaps(events[..n], i, kind) {
        PrefixValid(events, i);
        assert events[..n][..i] == events[..i];
        assert !Overlaps(events, i, kind);
      }
      SequentialWaitsServed(events[..n], kind);
      RunInvariant(events[..n]);
      assert !Overlaps(events, n, kind);
      StepKeepsOne(Run(events[..n]), events[n], kind);
    }
  }

  lemma InitialServed(kind: string)
    ensures Served(INITIAL, kind) && AtMostOne(INITIAL, kind)
  {}

  lemma OverlapIsUnsafe(events: seq<Event>, i: nat, kind: string)
    requires ValidRun(events) && i < |events| && Overlaps(events, i, kind)
    ensures ValidRun(events[..i + 1]) && !Safe(Run(events[..i + 1]), kind)
  {
    PrefixValid(events, i);
    PrefixValid(events, i + 1);
    RunInvariant(events[..i]);
    var s, s' := Run(events[..i]), Run(events[..i + 1]);
    assert events[..i + 1][..i] == events[..i];
    var w :| Armed(s, w, kind);
    assert FirstOf(s.queue, kind) == |s.queue|;
    assert Armed(s', w, kind) && Armed(s', s.issued, kind);
    var s'' := Step(s', Timeout(w));
    assert s.issued in s''.timers && s''.timers[s.issued] == kind && kind !in s''.pending;
  }

  /** Through a whole run a type is served, and stays so whichever of its timers goes off next, if and only if no wait of
      the type is issued, for want of a queued message, while another one is unsettled. */
  lemma SafeIffSequential(events: seq<Event>, kind: string)
    requires ValidRun(events)
    ensures (forall n :: 0 <= n <= |events| ==> ValidRun(events[..n]) && Safe(Run(events[..n]), kind))
       <==> (forall i :: 0 <= i < |events| ==> !Overlaps(events, i, kind))
  {
    hide Step, Safe, Consistent, Served, AtMostOne;
    if forall i :: 0 <= i < |events| ==> !Overlaps(events, i, kind) {
      forall n | 0 <= n <= |events| ensures ValidRun(events[..n]) && Safe(Run(events[..n]), kind) {
        PrefixValid(events, n);
        forall i | 0 <= i < n ensures !Overlaps(events[..n], i, kind) {
          PrefixValid(events, i);
          assert events[..n][..i] == events[..i];
          assert !Overlaps(events, i, kind);
        }
        SequentialWaitsServed(events[..n], kind);
        RunInvariant(events[..n]);
        OneIsSafe(Run(events[..n]), kind);
      }
    } else {
      var i :| 0 <= i < |events| && Overlaps(events, i, kind);
      OverlapIsUnsafe(events, i, kind);
    }
  }

  /** So a client that waits for one message of a type at a time gets every one that arrives while it waits. */
  lemma SequentialWaiterReached(events: seq<Event>, w: WaiterId, m: Message)
    requires ValidRun(events) && m.kind.Some? && m.kind.value != ""
    requires forall i :: 0 <= i < |events| ==> !Overlaps(events, i, m.kind.value)
    requires Armed(Run(events), w, m.kind.value)
    ensures Step(Run(events), Arrive(m)).settled == Run(events).settled[w := Resolved(m)]
  {
    var s, kind := Run(events), m.kind.value;
    SequentialWaitsServed(events, kind);
    RunInvariant(events);
    assert kind in s.pending && Armed(s, s.pending[kind], kind);
  }

  /** Two waits of one type, of which the first times out: a message that arrives then stays queued although the second
      waiter is unsettled, and that waiter times out too. */
  lemma OverlapStarves(kind: string, m: Message) returns (events: seq<Event>)
    requires kind != "" && m.kind == Some(kind)
    ensures ValidRun(events)
    ensures Run(events).settled == map[0 := Rejected, 1 := Rejected] && Run(events).queue == [m]
  {
    var e1 := [Wait(kind)];
    var e2 := e1 + [Wait(kind)];
    var e3 := e2 + [Timeout(0)];
    var e4 := e3 + [Arrive(m)];
    events := e4 + [Timeout(1)];
    RunSnoc([], Wait(kind));
    assert [] + [Wait(kind)] == e1;
    assert Run(e1) == State(map[kind := 0], [], map[0 := kind], map[], 1, [], []);
    RunSnoc(e1, Wait(kind));
    assert Run(e2) == State(map[kind := 1], [], map[0 := kind, 1 := kind], map[], 2, [], []);
    RunSnoc(e2, Timeout(0));
    assert Run(e3) == State(map[], [], map[1 := kind], map[0 := Rejected], 2, [], []);
    RunSnoc(e3, Arrive(m));
    assert Run(e4).queue == [m];
    RunSnoc(e4, Timeout(1));
  }
}
