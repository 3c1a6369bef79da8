/** The event stream of the REST client: callbacks of the SSE connection push into a queue that an
    async generator reads (packages/client/src/rest.ts).  JavaScript runs each callback, and the
    reader between two suspension points, to completion, so these are the atomic steps. */
module EventPump {
  import opened Wrappers

  datatype Event<T> = Event(name: string, data: T, id: Option<string>, retry: Option<int>)

  /** An event as the connection delivers it; it may carry no name. */
  datatype RawEvent<T> = RawEvent(name: Option<string>, data: T, id: Option<string>, retry: Option<int>)

  type Error = string

  datatype Outcome = Returned | Threw(error: Error) | Stopped

  /** Where the reader is: about to run its loop, suspended in a `yield`, waiting for its wake
      callback, waiting in `finally` for the pump, or gone. */
  datatype Reader = Ready | Yielding | Parked | Closing(outcome: Outcome) | Finished(outcome: Outcome)

  /** `wake` says whether a wake callback is installed; `yielded` is what the consumer was given. */
  datatype State<T> = State(queue: seq<Event<T>>, done: bool, error: Option<Error>, wake: bool,
                            aborted: bool, reader: Reader, yielded: seq<Event<T>>)

  datatype Step<T> =
    | SseEvent(raw: RawEvent<T>)       // onSseEvent
    | SseError(error: Error)           // onSseError
    | PumpEnds(thrown: Option<Error>)  // the stream is exhausted, or throws
    | ReaderRuns                       // one turn of the reader's loop
    | ConsumerResumes                  // next() after a yielded event
    | ConsumerStops                    // return() after a yielded event
    | CallerAborts                     // the caller's signal fires
    | CleanupEnds                      // `await pump` in `finally`

  function Named<T>(raw: RawEvent<T>): Event<T> {
    Event(if raw.name.Some? then raw.name.value else "message", raw.data, raw.id, raw.retry)
  }

  // ---- The stream object ----

  class EventStream<T> {
    var queue: seq<Event<T>>
    var done: bool
    var pumpError: Option<Error>
    var wake: bool
    var aborted: bool
    var reader: Reader
    var yielded: seq<Event<T>>

    function Now(): State<T> reads this {
      State(queue, done, pumpError, wake, aborted, reader, yielded)
    }

    constructor ()
      ensures Now() == Initial()
    {
      queue, done, pumpError, wake := [], false, None, false;
      aborted, reader, yielded := false, Ready, [];
    }

    method WakeReader()
      modifies this`wake, this`reader
      ensures Now() == Woken(old(Now()))
    {
      if wake && reader == Parked { reader := Ready; }
      wake := false;
    }

    method OnSseError(error: Error)
      requires Enabled(Now(), SseError(error))
      modifies this
      ensures Now() == Apply(old(Now()), SseError(error))
    {
      if aborted { return; }
      if pumpError == None { pumpError := Some(error); }
      WakeReader();
    }

    method OnSseEvent(raw: RawEvent<T>)
      requires Enabled(Now(), SseEvent(raw))
      modifies this
      ensures Now() == Apply(old(Now()), SseEvent(raw))
    {
      queue := queue + [Named(raw)];
      WakeReader();
    }

    method FinishPump(thrown: Option<Error>)
      requires Enabled(Now(), PumpEnds(thrown))
      modifies this
      ensures Now() == Apply(old(Now()), PumpEnds(thrown))
    {
      if thrown.Some? && pumpError == None { pumpError := thrown; }
      done := true;
      WakeReader();
    }

    /** The reader from the head of its loop to the next suspension point. */
    method Read()
      requires Enabled(Now(), ReaderRuns)
      modifies this
      ensures Now() == Apply(old(Now()), ReaderRuns)
    {
      if !done || |queue| > 0 {
        if queue != [] {
          var event := queue[0];
          queue := queue[1..];
          yielded := yielded + [event];
          reader := Yielding;
        } else if pumpError.Some? {
          Close(Threw(pumpError.value));
        } else {
          wake := true;
          reader := Parked;
        }
      } else if pumpError.Some? {
        Close(Threw(pumpError.value));
      } else {
        Close(Returned);
      }
    }

    method Close(outcome: Outcome)
      modifies this`aborted, this`reader
      ensures aborted && reader == Closing(outcome)
    {
      aborted := true;
      reader := Closing(outcome);
    }
  }

  // ---- The steps as a transition relation ----

  function Initial<T>(): State<T> {
    State([], false, None, false, false, Ready, [])
  }

  function Woken<T>(s: State<T>): State<T> {
    s.(wake := false, reader := if s.wake && s.reader == Parked then Ready else s.reader)
  }

  /** Callbacks come from the pump and hence end with it. */
  predicate Enabled<T>(s: State<T>, step: Step<T>) {
    match step
    case SseEvent(_) => !s.done
    case SseError(_) => !s.done
    case PumpEnds(_) => !s.done
    case ReaderRuns => s.reader == Ready
    case ConsumerResumes => s.reader == Yielding
    case ConsumerStops => s.reader == Yielding
    case CallerAborts => true
    case CleanupEnds => s.reader.Closing? && s.done
  }

  function Closed<T>(s: State<T>, outcome: Outcome): State<T> {
    s.(aborted := true, reader := Closing(outcome))
  }

  function Apply<T>(s: State<T>, step: Step<T>): State<T>
    requires Enabled(s, step)
  {
    match step
    case SseEvent(raw) => Woken(s.(queue := s.queue + [Named(raw)]))
    case SseError(error) =>
      if s.aborted then s
      else Woken(s.(error := if s.error.None? then Some(error) else s.error))
    case PumpEnds(thrown) =>
      Woken(s.(error := if s.error.None? then thrown else s.error, done := true))
    case ReaderRuns =>
      if s.queue != [] then
        s.(queue := s.queue[1..], yielded := s.yielded + [s.queue[0]], reader := Yielding)
      else if s.error.Some? then Closed(s, Threw(s.error.value))
      else if s.done then Closed(s, Returned)
      else s.(wake := true, reader := Parked)
    case ConsumerResumes => s.(reader := Ready)
    case ConsumerStops => Closed(s, Stopped)
    case CallerAborts => s.(aborted := true)
    case CleanupEnds => s.(reader := Finished(s.reader.outcome))
  }

  /** A run is a sequence of enabled steps: any interleaving of callbacks, reader and consumer. */
  ghost predicate IsRun<T>(steps: seq<Step<T>>)
    decreases |steps|, 0
  {
    steps != [] ==> IsRun(steps[..|steps| - 1]) && Enabled(After(steps[..|steps| - 1]), steps[|steps| - 1])
  }

  ghost function After<T>(steps: seq<Step<T>>): State<T>
    requires IsRun(steps)
    decreases |steps|, 1
  {
    if steps == [] then Initial() else Apply(After(steps[..|steps| - 1]), steps[|steps| - 1])
  }

  // ---- What a run was fed ----

  function Pushed<T>(steps: seq<Step<T>>): seq<Event<T>> {
    if steps == [] then []
    else Pushed(steps[..|steps| - 1])
         + (if steps[|steps| - 1].SseEvent? then [Named(steps[|steps| - 1].raw)] else [])
  }

  /** The failures that count, in order: those reported before any abort, and the pump's own. */
  ghost function Failures<T>(steps: seq<Step<T>>): seq<Error>
    requires IsRun(steps)
    decreases |steps|
  {
    if steps == [] then []
    else Failures(steps[..|steps| - 1]) + FailureOf(After(steps[..|steps| - 1]), steps[|steps| - 1])
  }

  function FailureOf<T>(s: State<T>, step: Step<T>): seq<Error> {
    if step.SseError? && !s.aborted then [step.error]
    else if step.PumpEnds? && step.thrown.Some? then [step.thrown.value]
    else []
  }

  function First(errors: seq<Error>): Option<Error> {
    if errors == [] then None else Some(errors[0])
  }

  // ---- Safety over every run ----

  lemma StepConserves<T>(s: State<T>, step: Step<T>)
    requires Enabled(s, step)
    ensures var s' := Apply(s, step);
            s'.yielded + s'.queue
            == s.yielded + s.queue + if step.SseEvent? then [Named(step.raw)] else []
  {
    if step.SseEvent? {
      assert s.yielded + (s.queue + [Named(step.raw)]) == s.yielded + s.queue + [Named(step.raw)];
    } else if step.ReaderRuns? && s.queue != [] {
      assert s.queue == [s.queue[0]] + s.queue[1..];
      assert (s.yielded + [s.queue[0]]) + s.queue[1..] == s.yielded + ([s.queue[0]] + s.queue[1..]);
    } else {
      assert s.yielded + s.queue + [] == s.yielded + s.queue;
    }
  }

  /** Nothing is lost, doubled or reordered: what was yielded and what is still queued make up
      what was pushed. */
  lemma {:induction false} EventsAreConserved<T>(steps: seq<Step<T>>)
    requires IsRun(steps)
    ensures After(steps).yielded + After(steps).queue == Pushed(steps)
    ensures After(steps).yielded <= Pushed(steps)
    decreases |steps|
  {
    hide Apply, Enabled;
    if steps != [] {
      EventsAreConserved(steps[..|steps| - 1]);
      StepConserves(After(steps[..|steps| - 1]), steps[|steps| - 1]);
    }
  }

  /** What the connection delivered, in order. */
  function Delivered<T>(steps: seq<Step<T>>): seq<RawEvent<T>> {
    if steps == [] then []
    else Delivered(steps[..|steps| - 1])
         + (if steps[|steps| - 1].SseEvent? then [steps[|steps| - 1].raw] else [])
  }

  /** Every delivered event is pushed with its own data, id, retry time and name; only an event
      without a name is called "message". */
  lemma {:induction false} PushedAsDelivered<T>(steps: seq<Step<T>>)
    ensures |Pushed(steps)| == |Delivered(steps)|
    ensures forall i | 0 <= i < |Pushed(steps)| ::
              var event, raw := Pushed(steps)[i], Delivered(steps)[i];
              && event.data == raw.data && event.id == raw.id && event.retry == raw.retry
              && (raw.name.Some? ==> raw.name == Some(event.name))
              && (raw.name.None? ==> event.name == "message")
  {
    if steps != [] { PushedAsDelivered(steps[..|steps| - 1]); }
  }

  lemma {:induction false} DoneOnceEnded<T>(steps: seq<Step<T>>)
    requires IsRun(steps)
    ensures After(steps).done <==> exists i | 0 <= i < |steps| :: steps[i].PumpEnds?
    decreases |steps|
  {
    if steps != [] {
      var front, last := steps[..|steps| - 1], steps[|steps| - 1];
      DoneOnceEnded(front);
      LastOrBefore(front, last);
      assert steps == front + [last];
    }
  }

  lemma LastOrBefore<T>(front: seq<Step<T>>, last: Step<T>)
    ensures (exists i | 0 <= i < |front + [last]| :: (front + [last])[i].PumpEnds?)
            <==> last.PumpEnds? || exists i | 0 <= i < |front| :: front[i].PumpEnds?
  {
    var steps := front + [last];
    assert steps[|front|] == last && forall i | 0 <= i < |front| :: steps[i] == front[i];
  }

  /** Every callback may come at any time until the pump ends, and none behind that. */
  lemma CallbacksUntilTheEnd<T>(steps: seq<Step<T>>, step: Step<T>)
    requires IsRun(steps) && (step.SseEvent? || step.SseError? || step.PumpEnds?)
    ensures IsRun(steps + [step]) <==> forall i | 0 <= i < |steps| :: !steps[i].PumpEnds?
  {
    DoneOnceEnded(steps);
    assert (steps + [step])[..|steps|] == steps;
  }

  /** Callbacks and the caller's abort never move a reader that is not parked, neither one that waits
      for its consumer nor one that has left; an event or the end of the pump makes a parked one
      ready. */
  lemma CallbacksOnlyWake<T>(steps: seq<Step<T>>, step: Step<T>)
    requires IsRun(steps + [step]) && !IsReaderStep(step)
    ensures IsRun(steps)
    ensures var before, behind := After(steps).reader, After(steps + [step]).reader;
            if before == Parked then
              behind in {Parked, Ready} && (step.SseEvent? || step.PumpEnds? ==> behind == Ready)
            else behind == before
  {
    assert (steps + [step])[..|steps|] == steps;
    ParkedOnlyWhenIdle(steps);
  }

  /** No wake-up is lost: a callback is installed exactly while the reader is parked, and a parked
      reader has nothing to do: no event, no failure, no end of the pump is waiting for it. */
  lemma {:induction false} ParkedOnlyWhenIdle<T>(steps: seq<Step<T>>)
    requires IsRun(steps)
    ensures var s := After(steps);
            && (s.wake <==> s.reader == Parked)
            && (s.reader == Parked ==> s.queue == [] && !s.done && s.error.None?)
    decreases |steps|
  {
    if steps != [] { ParkedOnlyWhenIdle(steps[..|steps| - 1]); }
  }

  lemma StepKeepsFirstFailure<T>(s: State<T>, step: Step<T>)
    requires Enabled(s, step)
    ensures Apply(s, step).error == if s.error.Some? then s.error else First(FailureOf(s, step))
  {}

  /** The recorded failure is the first that counted. */
  lemma {:induction false} FirstFailureIsKept<T>(steps: seq<Step<T>>)
    requires IsRun(steps)
    ensures After(steps).error == First(Failures(steps))
    decreases |steps|
  {
    hide Apply, Enabled, FailureOf;
    if steps != [] {
      FirstFailureIsKept(steps[..|steps| - 1]);
      StepKeepsFirstFailure(After(steps[..|steps| - 1]), steps[|steps| - 1]);
    }
  }

  /** The caller may abort at any time, and errors are ignored once it has, or the reader has left. */
  lemma {:induction false} AbortedOnceAsked<T>(steps: seq<Step<T>>)
    requires IsRun(steps)
    ensures IsRun(steps + [CallerAborts])
    ensures var s := After(steps);
            s.aborted <==> CallerAborts in steps || s.reader.Closing? || s.reader.Finished?
    decreases |steps|
  {
    hide Apply, Enabled;
    assert (steps + [CallerAborts])[..|steps|] == steps;
    MayAlwaysAbort(After(steps));
    if steps != [] {
      var front, last := steps[..|steps| - 1], steps[|steps| - 1];
      AbortedOnceAsked(front);
      StepAborts(After(front), last);
      assert steps == front + [last];
    }
  }

  lemma MayAlwaysAbort<T>(s: State<T>)
    ensures Enabled(s, CallerAborts)
  {}

  lemma StepAborts<T>(s: State<T>, step: Step<T>)
    requires Enabled(s, step) && (Leaving(s.reader) ==> s.aborted)
    ensures Apply(s, step).aborted <==> s.aborted || step == CallerAborts || Leaving(Apply(s, step).reader)
    ensures Leaving(s.reader) ==> Leaving(Apply(s, step).reader)
  {}

  predicate Leaving(reader: Reader) { reader.Closing? || reader.Finished? }

  /** What makes the reader leave its loop. */
  lemma LeavingStep<T>(s: State<T>, step: Step<T>)
    requires Enabled(s, step) && Leaving(Apply(s, step).reader)
    ensures Apply(s, step).yielded == s.yielded
    ensures Leaving(s.reader) ==> Apply(s, step).reader.outcome == s.reader.outcome
    ensures !Leaving(s.reader) ==>
              && Apply(s, step).reader.Closing?
              && match Apply(s, step).reader.outcome
                 case Threw(error) => s.queue == [] && s.error == Some(error)
                 case Returned => s.queue == [] && s.error == None && s.done
                 case Stopped => step == ConsumerStops
  {}

  /** Once the pump is done nothing fills the queue again. */
  lemma LeftForGood<T>(s: State<T>, step: Step<T>)
    requires Enabled(s, step)
    ensures s.done ==> Apply(s, step).done
    ensures s.done && s.queue == [] ==> Apply(s, step).queue == []
  {}

  lemma {:induction false} ReturnIsFinal<T>(steps: seq<Step<T>>)
    requires IsRun(steps) && Leaving(After(steps).reader) && After(steps).reader.outcome == Returned
    ensures After(steps).done && After(steps).queue == []
    decreases |steps|
  {
    hide Apply, Enabled;
    var before := steps[..|steps| - 1];
    LeavingStep(After(before), steps[|steps| - 1]);
    LeftForGood(After(before), steps[|steps| - 1]);
    if Leaving(After(before).reader) { ReturnIsFinal(before); }
  }

  /** How a run can end: a failure is thrown, and it is the first that counted, only after every
      event pushed up to then was yielded; a plain return means that the pump was done, nothing
      failed, and everything was yielded.  `at` is the length of the run when the reader left. */
  lemma {:induction false} HowTheReaderLeaves<T>(steps: seq<Step<T>>) returns (at: nat)
    requires IsRun(steps) && Leaving(After(steps).reader)
    ensures 0 < at <= |steps| && IsRun(steps[..at]) && IsRun(steps[..at - 1])
    ensures !Leaving(After(steps[..at - 1]).reader)
    ensures After(steps[..at]).reader == Closing(After(steps).reader.outcome)
    ensures After(steps).yielded == After(steps[..at]).yielded
    ensures var before := steps[..at - 1];
            match After(steps).reader.outcome
            case Threw(error) => After(steps).yielded == Pushed(before) && First(Failures(before)) == Some(error)
            case Returned => After(steps).yielded == Pushed(steps) && First(Failures(before)) == None
                && After(before).done
            case Stopped => steps[at - 1] == ConsumerStops
    decreases |steps|
  {
    hide Failures, Pushed, First, Apply, Enabled;
    var before, last := steps[..|steps| - 1], steps[|steps| - 1];
    LeavingStep(After(before), last);
    EventsAreConserved(steps);
    if After(steps).reader.outcome == Returned { ReturnIsFinal(steps); }
    if Leaving(After(before).reader) {
      at := HowTheReaderLeaves(before);
      assert steps[..at] == before[..at] && steps[..at - 1] == before[..at - 1];
    } else {
      at := |steps|;
      assert steps[..at] == steps;
      EventsAreConserved(before);
      FirstFailureIsKept(before);
    }
  }

  // ---- Progress ----

  /** Steps the reader and its consumer still owe once the pump is done. */
  function Owed<T>(s: State<T>): nat {
    match s.reader
    case Ready => 2 * |s.queue| + 2
    case Yielding => 2 * |s.queue| + 3
    case Parked => 2 * |s.queue| + 3
    case Closing(_) => 1
    case Finished(_) => 0
  }

  predicate IsReaderStep<T>(step: Step<T>) {
    step.ReaderRuns? || step.ConsumerResumes? || step.ConsumerStops? || step.CleanupEnds?
  }

  /** While the reader is not parked it can always go on. */
  lemma ReaderCanMove<T>(steps: seq<Step<T>>) returns (step: Step<T>)
    requires IsRun(steps)
    requires After(steps).done || After(steps).queue != [] || After(steps).error.Some?
    requires !Leaving(After(steps).reader) || (After(steps).done && After(steps).reader.Closing?)
    ensures Enabled(After(steps), step) && IsReaderStep(step) && !step.ConsumerStops?
  {
    ParkedOnlyWhenIdle(steps);
    step := match After(steps).reader
      case Ready => ReaderRuns
      case Yielding => ConsumerResumes
      case Closing(_) => CleanupEnds
      case _ => CallerAborts;
  }

  /** Once the pump is done, every reader step brings the end nearer, whichever is taken, and no
      other step puts it off. */
  lemma StepsCountDown<T>(steps: seq<Step<T>>, step: Step<T>)
    requires IsRun(steps) && Enabled(After(steps), step) && After(steps).done
    ensures IsReaderStep(step) ==> Owed(Apply(After(steps), step)) < Owed(After(steps))
    ensures !IsReaderStep(step) ==> Owed(Apply(After(steps), step)) == Owed(After(steps))
  {
    ParkedOnlyWhenIdle(steps);
  }

  lemma RunGrows<T>(steps: seq<Step<T>>, step: Step<T>)
    requires IsRun(steps) && Enabled(After(steps), step)
    ensures IsRun(steps + [step]) && After(steps + [step]) == Apply(After(steps), step)
    ensures Pushed(steps + [step]) == Pushed(steps) + if step.SseEvent? then [Named(step.raw)] else []
  {
    assert (steps + [step])[..|steps|] == steps;
  }

  /** A finished pump implies a finished reader: from every run in which the pump is done and the
      reader has not left, the reader, with a consumer that keeps asking, ends by itself, and then
      it has yielded everything that was ever pushed and reports the first failure, if any. */
  lemma {:induction false} DonePumpDrains<T>(steps: seq<Step<T>>) returns (rest: seq<Step<T>>)
    requires IsRun(steps) && After(steps).done && !Leaving(After(steps).reader)
    ensures IsRun(steps + rest) && |rest| <= Owed(After(steps))
    ensures forall i | 0 <= i < |rest| :: IsReaderStep(rest[i]) && !rest[i].ConsumerStops?
    ensures var end := After(steps + rest);
            && end.yielded == Pushed(steps) == Pushed(steps + rest)
            && end.reader == Finished(match After(steps).error case None => Returned case Some(e) => Threw(e))
    decreases Owed(After(steps))
  {
    hide Pushed, IsRun, Enabled;
    var s := After(steps);
    EventsAreConserved(steps);
    var step := ReaderCanMove(steps);
    RunGrows(steps, step);
    StepsCountDown(steps, step);
    var longer := steps + [step];
    if Leaving(After(longer).reader) {
      RunGrows(longer, CleanupEnds);
      rest := [step, CleanupEnds];
      assert steps + rest == longer + [CleanupEnds];
    } else {
      var more := DonePumpDrains(longer);
      rest := [step] + more;
      assert steps + rest == longer + more;
    }
  }
}
