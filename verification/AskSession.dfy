/** `ask`: send one message over a session and wait for its reply on the event stream
    (packages/client/src/session.ts). */
module AskSession {
  import opened Wrappers
  import opened EventPump

  /** The fields of an event's payload that `ask` looks at. */
  datatype Payload = Payload(messageId: Option<string>, content: string, processed: seq<string>, error: string)

  type AgentEvent = Event<Payload>

  /** How the event stream came to its end, should `ask` reach it. */
  datatype StreamEnd = Ended | Failed(error: string)

  datatype Answer =
    | Reply(text: string, messageId: string)
    | AgentError(error: string, messageId: string)
    | SendFailed(error: string)
    | StreamFailed(error: string)
    | Aborted
    | TimedOut
    | EndedEarly

  /** What `ask` meets besides events: the result of `send`, the end of the stream, and whether
      the caller's signal or the timer fired. */
  datatype World = World(sendError: Option<string>, end: StreamEnd, aborted: bool, timedOut: bool)

  predicate IsConnected(event: AgentEvent) { event.name == "connected" }

  predicate IsDelta(event: AgentEvent, id: string) {
    event.name == "output" && event.data.messageId == Some(id)
  }

  predicate Completes(event: AgentEvent, id: string) {
    event.name == "complete" && (event.data.messageId == Some(id) || id in event.data.processed)
  }

  predicate Fails(event: AgentEvent, id: string) {
    (event.name == "error" || event.name == "agent-error") && event.data.messageId == Some(id)
  }

  predicate Settles(event: AgentEvent, id: string) {
    Completes(event, id) || Fails(event, id)
  }

  // ---- The answer, defined by positions in the stream ----

  /** Position of the first event that settles the message, or the length of the stream. */
  function SettledAt(events: seq<AgentEvent>, id: string): (n: nat)
    ensures n <= |events|
    ensures forall i | 0 <= i < n :: !Settles(events[i], id)
    ensures n < |events| ==> Settles(events[n], id)
  {
    if events == [] || Settles(events[0], id) then 0 else 1 + SettledAt(events[1..], id)
  }

  /** The output deltas of the message, concatenated in order. */
  function TextOf(events: seq<AgentEvent>, id: string): string {
    if events == [] then ""
    else
      TextOf(events[..|events| - 1], id)
      + if IsDelta(events[|events| - 1], id) then events[|events| - 1].data.content else ""
  }

  predicate ConnectsWithin(events: seq<AgentEvent>, n: nat)
    requires n <= |events|
  {
    exists i | 0 <= i < n :: IsConnected(events[i])
  }

  function AnswerTo(events: seq<AgentEvent>, id: string, world: World): Answer {
    var n := SettledAt(events, id);
    if ConnectsWithin(events, n) && world.sendError.Some? then SendFailed(world.sendError.value)
    else if n < |events| then
      if Completes(events[n], id) then Reply(TextOf(events[..n], id), id)
      else AgentError(events[n].data.error, id)
    else if world.end.Failed? then StreamFailed(world.end.error)
    else if world.aborted then Aborted
    else if world.timedOut then TimedOut
    else EndedEarly
  }

  lemma TextGrows(events: seq<AgentEvent>, id: string, n: nat)
    requires n <= |events|
    ensures TextOf(events[..n], id)
            == if n == 0 then ""
               else TextOf(events[..n - 1], id) + if IsDelta(events[n - 1], id) then events[n - 1].data.content else ""
  {
    if n > 0 { assert events[..n][..n - 1] == events[..n - 1]; }
  }

  /** `sends` are the positions of the events after which the message was sent. */
  method Ask(events: seq<AgentEvent>, id: string, world: World) returns (answer: Answer, sends: seq<nat>)
    ensures answer == AnswerTo(events, id, world)
    // The message is sent once, right behind the first handshake, unless it was settled before.
    ensures |sends| <= 1
    ensures sends != [] <==> exists i | 0 <= i < SettledAt(events, id) :: events[i].name == "connected"
    ensures sends != [] ==>
              && sends[0] < |events| && events[sends[0]].name == "connected"
              && forall i | 0 <= i < sends[0] :: events[i].name != "connected"
    // A send that fails is the answer.
    ensures answer.SendFailed? <==> sends != [] && world.sendError.Some?
    ensures answer.SendFailed? ==> answer.error == world.sendError.value
    // Otherwise the settling event is, according to its name.
    ensures var n := SettledAt(events, id);
            n < |events| && !answer.SendFailed? ==>
              && (answer == Reply(TextOf(events[..n], id), id) <==> events[n].name == "complete")
              && (answer == AgentError(events[n].data.error, id) <==> events[n].name in {"error", "agent-error"})
    // Without one, what ended the stream.
    ensures SettledAt(events, id) == |events| && !answer.SendFailed? ==>
              && (answer.StreamFailed? <==> world.end.Failed?)
              && (answer.StreamFailed? ==> answer.error == world.end.error)
              && (answer.Aborted? <==> world.end.Ended? && world.aborted)
              && (answer.TimedOut? <==> world.end.Ended? && !world.aborted && world.timedOut)
              && (answer.EndedEarly? <==> world.end.Ended? && !world.aborted && !world.timedOut)
  {
    hide SettledAt, TextOf;
    var text := "";
    var sent := false;
    TextGrows(events, id, 0);
    sends := [];
    var i := 0;
    while i < |events|
      invariant 0 <= i <= |events|
      invariant forall k | 0 <= k < i :: !Settles(events[k], id)
      invariant text == TextOf(events[..i], id)
      invariant sent <==> ConnectsWithin(events, i)
      invariant sent ==>
          |sends| == 1 && sends[0] < i && IsConnected(events[sends[0]]) && !ConnectsWithin(events, sends[0])
      invariant !sent ==> sends == []
      invariant sent ==> world.sendError.None?
    {
      var event := events[i];
      TextGrows(events, id, i + 1);
      if event.name == "connected" {
        if !sent {
          sent := true;
          sends := [i];
          if world.sendError.Some? {
            SettlesLater(events, id, i);
            answer := SendFailed(world.sendError.value);
            return;
          }
        }
      } else if event.name == "output" && event.data.messageId == Some(id) {
        text := text + event.data.content;
      } else if event.name == "complete" && (event.data.messageId == Some(id) || id in event.data.processed) {
        SettledHere(events, id, i);
        answer := Reply(text, id);
        return;
      } else if (event.name == "error" || event.name == "agent-error") && event.data.messageId == Some(id) {
        SettledHere(events, id, i);
        answer := AgentError(event.data.error, id);
        return;
      }
      i := i + 1;
    }
    answer := match world.end
      case Failed(error) => StreamFailed(error)
      case Ended => if world.aborted then Aborted else if world.timedOut then TimedOut else EndedEarly;
  }

  /** What settles a message, whoever asks: its completion, alone or in a batch, or an error of its
      own. */
  lemma SettlingEvents(event: AgentEvent, id: string)
    ensures Settles(event, id) <==>
              || (event.name in {"complete", "error", "agent-error"} && event.data.messageId == Some(id))
              || (event.name == "complete" && id in event.data.processed)
  {}

  lemma SettledHere(events: seq<AgentEvent>, id: string, n: nat)
    requires n < |events| && Settles(events[n], id)
    requires forall i | 0 <= i < n :: !Settles(events[i], id)
    ensures SettledAt(events, id) == n
  {}

  lemma SettlesLater(events: seq<AgentEvent>, id: string, n: nat)
    requires n < |events| && IsConnected(events[n])
    requires forall i | 0 <= i < n :: !Settles(events[i], id)
    ensures n < SettledAt(events, id) && ConnectsWithin(events, SettledAt(events, id))
  {}

  // ---- The answer depends on nothing behind the settling event ----

  lemma AnswerIsFixed(events: seq<AgentEvent>, more: seq<AgentEvent>, id: string, world: World, later: World)
    requires SettledAt(events, id) < |events| && later.sendError == world.sendError
    ensures SettledAt(events + more, id) == SettledAt(events, id)
    ensures AnswerTo(events + more, id, later) == AnswerTo(events, id, world)
  {
    var n := SettledAt(events, id);
    assert forall i | 0 <= i <= n :: (events + more)[i] == events[i];
    SettledHere(events + more, id, n);
    assert (events + more)[..n] == events[..n];
    assert ConnectsWithin(events + more, n) <==> ConnectsWithin(events, n);
  }

  /** Over every run of the event stream: what `ask` answers from the events it was given, once
      one of them settles the message, is what the whole sequence of pushed events determines, and
      the text of a reply is the concatenation of the deltas pushed before the settling event. */
  lemma AnswerFromAnyRun(steps: seq<Step<Payload>>, id: string, world: World, later: World)
    requires IsRun(steps) && later.sendError == world.sendError
    requires var given := After(steps).yielded; SettledAt(given, id) < |given|
    ensures var given, pushed := After(steps).yielded, Pushed(steps);
            && AnswerTo(given, id, world) == AnswerTo(pushed, id, later)
            && SettledAt(pushed, id) < |pushed|
            && (AnswerTo(given, id, world).Reply? ==>
                  AnswerTo(given, id, world).text == TextOf(pushed[..SettledAt(pushed, id)], id))
  {
    hide AnswerTo, TextOf;
    var given, pushed := After(steps).yielded, Pushed(steps);
    EventsAreConserved(steps);
    var more := After(steps).queue;
    AnswerIsFixed(given, more, id, world, later);
    ReplyText(pushed, id, later);
  }

  lemma ReplyText(events: seq<AgentEvent>, id: string, world: World)
    ensures AnswerTo(events, id, world).Reply? ==>
              AnswerTo(events, id, world).text == TextOf(events[..SettledAt(events, id)], id)
  {}

  /** A delta of the message that was pushed before the settling event is part of the reply, at
      its place: the text splits around it. */
  lemma {:induction false} TextSplits(events: seq<AgentEvent>, i: nat, id: string)
    requires i < |events|
    ensures TextOf([], id) == ""
    ensures TextOf(events, id)
            == TextOf(events[..i], id)
               + (if events[i].name == "output" && events[i].data.messageId == Some(id)
                  then events[i].data.content else "")
               + TextOf(events[i + 1..], id)
    decreases |events|
  {
    var last := |events| - 1;
    if i == last {
      assert events[i + 1..] == [];
    } else {
      var front, tail := events[..last], events[i + 1..];
      assert tail[..|tail| - 1] == front[i + 1..] && front[..i] == events[..i];
      TextSplits(front, i, id);
    }
  }
}
