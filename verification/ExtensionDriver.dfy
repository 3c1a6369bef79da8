/** The extension session driver: open a blank tab, intercept its network, navigate, scroll and
    drain, and clean up whatever happened (packages/connector-sdk/src/extension-network.ts).  The
    dispatcher is an arbitrary function of everything exchanged so far, so it may fail at any step. */
module ExtensionDriver {
  import opened Wrappers

  datatype Response = Response(url: string, body: string, base64Encoded: bool)

  datatype Action =
    | OpenBlank
    | StartIntercept(tabId: int)
    | Navigate(tabId: int, url: string)
    | Drain(sessionId: string)
    | ScrollDown(tabId: int)
    | CallTrigger(tabId: int)
    | StopIntercept(sessionId: string)
    | CloseTab(tabId: int)

  /** A thrown error, or an observation; an absent session id reads as the empty string, and an
      absent list of responses as the empty list. */
  datatype Reply =
    | Failed(error: string)
    | Observed(tabId: int, sessionId: string, currentUrl: string, responses: seq<Response>)

  datatype Exchange = Exchange(action: Action, reply: Reply)

  type Dispatcher = (seq<Exchange>, Action) -> Reply

  /** The options of the caller: the default of ten scrolls stands for an absent `maxScrolls`, and
      parsing, JSON and the caller's own parser alike, may throw. */
  datatype Options<!J, !T> = Options(
    url: string,
    maxScrolls: Option<int>,
    checkAuth: Option<string -> bool>,
    customTrigger: bool,
    parseJson: string -> Option<J>,
    parseResponse: (string, J) -> Result<seq<T>, string>)

  datatype Report<T> = Report(items: seq<T>, apiCallCount: nat)

  const AUTH_FAILED :=
    "extensionNetworkSync: auth check failed \U{2014} Chrome session is not logged in to this site"

  function MaxScrolls<J, T>(o: Options<J, T>): nat {
    match o.maxScrolls
    case None => 10
    case Some(n) => if n < 0 then 0 else n
  }

  // ---- What responses amount to ----

  /** The items of one response: none if its body is binary or no JSON. */
  function ItemsOf<J, T>(o: Options<J, T>, response: Response): Result<seq<T>, string> {
    if response.base64Encoded then Ok([])
    else
      match o.parseJson(response.body)
      case None => Ok([])
      case Some(json) => o.parseResponse(response.url, json)
  }

  /** The items of all responses in order, or the first error of the caller's parser. */
  function AllItems<J, T>(o: Options<J, T>, responses: seq<Response>): Result<seq<T>, string> {
    if responses == [] then Ok([])
    else
      match ItemsOf(o, responses[0])
      case Err(error) => Err(error)
      case Ok(items) =>
        match AllItems(o, responses[1..])
        case Err(error) => Err(error)
        case Ok(more) => Ok(items + more)
  }

  /** One response gives what the caller's parser makes of its JSON; a binary body, or one that is no
      JSON, gives nothing. */
  lemma OneResponse<J, T>(o: Options<J, T>, response: Response)
    ensures response.base64Encoded || o.parseJson(response.body) == None ==> AllItems(o, [response]) == Ok([])
    ensures !response.base64Encoded && o.parseJson(response.body).Some? ==>
              AllItems(o, [response]) == o.parseResponse(response.url, o.parseJson(response.body).value)
  {
    assert [response][1..] == [];
    match ItemsOf(o, response)
    case Ok(items) => assert items + [] == items;
    case Err(_) =>
  }

  /** And several responses give what each gives, in order, up to the first that fails. */
  lemma {:induction false} AllItemsConcat<J, T>(o: Options<J, T>, a: seq<Response>, b: seq<Response>)
    ensures AllItems(o, a + b) ==
      match AllItems(o, a)
      case Err(error) => Err(error)
      case Ok(items) =>
        match AllItems(o, b)
        case Err(error) => Err(error)
        case Ok(more) => Ok(items + more)
  {
    if a == [] {
      assert a + b == b;
      match AllItems(o, b)
      case Err(_) =>
      case Ok(more) => assert [] + more == more;
    } else {
      assert (a + b)[1..] == a[1..] + b;
      AllItemsConcat(o, a[1..], b);
      match (ItemsOf(o, a[0]), AllItems(o, a[1..]), AllItems(o, b))
      case (Ok(first), Ok(items), Ok(more)) => assert (first + items) + more == first + (items + more);
      case _ =>
    }
  }

  /** Every response that was drained, in drain order. */
  function Drained(log: seq<Exchange>): seq<Response> {
    if log == [] then []
    else
      var last := log[|log| - 1];
      Drained(log[..|log| - 1]) + if last.action.Drain? && last.reply.Observed? then last.reply.responses else []
  }

  lemma DrainedGrows(log: seq<Exchange>, last: Exchange)
    ensures Drained(log + [last]) ==
      Drained(log) + if last.action.Drain? && last.reply.Observed? then last.reply.responses else []
  {
    assert (log + [last])[..|log|] == log;
  }

  // ---- The protocol: a fixed script, cut off where it finishes ----

  function TabOf(log: seq<Exchange>): int
    requires log != []
  {
    if log[0].reply.Observed? then log[0].reply.tabId else 0
  }

  /** The id under which the intercept runs; empty when it does not. */
  function SessionOf(log: seq<Exchange>): string {
    if |log| > 1 && log[1].reply.Observed? then log[1].reply.sessionId else ""
  }

  /** Step `i`: open, start, navigate, drain, and then scroll and drain in turn. */
  function Scripted<J, T>(o: Options<J, T>, log: seq<Exchange>, i: nat): Action
    requires i == 0 || log != []
  {
    if i == 0 then OpenBlank
    else if i == 1 then StartIntercept(TabOf(log))
    else if i == 2 then Navigate(TabOf(log), o.url)
    else if i % 2 == 1 then Drain(SessionOf(log))
    else if o.customTrigger then CallTrigger(TabOf(log))
    else ScrollDown(TabOf(log))
  }

  ghost predicate FollowsScript<J, T>(o: Options<J, T>, dispatch: Dispatcher, log: seq<Exchange>) {
    forall i | 0 <= i < |log| ::
      log[i].action == Scripted(o, log, i) && log[i].reply == dispatch(log[..i], log[i].action)
  }

  /** Why the sync fails at step `i`, if it does. */
  function FailureAt<J, T>(o: Options<J, T>, log: seq<Exchange>, i: nat): Option<string>
    requires i < |log|
  {
    match log[i].reply
    case Failed(error) => Some(error)
    case Observed(_, _, currentUrl, responses) =>
      if i == 2 && o.checkAuth.Some? && !o.checkAuth.value(currentUrl) then Some(AUTH_FAILED)
      else if i >= 3 && i % 2 == 1 && AllItems(o, responses).Err? then Some(AllItems(o, responses).error)
      else None
  }

  /** The drain of step `i` ends the scrolling: it brought no items, or no scroll is left. */
  ghost predicate EndsScrolling<J, T>(o: Options<J, T>, log: seq<Exchange>, i: nat)
    requires i < |log|
  {
    && i >= 3 && i % 2 == 1 && log[i].reply.Observed?
    && ((i - 3) / 2 >= MaxScrolls(o) || (i >= 5 && AllItems(o, log[i].reply.responses) == Ok([])))
  }

  ghost predicate FinishesAt<J, T>(o: Options<J, T>, log: seq<Exchange>, i: nat)
    requires i < |log|
  {
    FailureAt(o, log, i).Some? || EndsScrolling(o, log, i)
  }

  /** The session's own steps: the script up to the first step that finishes it. */
  ghost predicate IsSession<J, T>(o: Options<J, T>, dispatch: Dispatcher, log: seq<Exchange>) {
    && log != []
    && FollowsScript(o, dispatch, log)
    && (forall i | 0 <= i < |log| - 1 :: !FinishesAt(o, log, i))
    && FinishesAt(o, log, |log| - 1)
  }

  /** The sync fails with the error of its last step, or reports everything that was drained. */
  ghost predicate IsOutcome<J, T>(o: Options<J, T>, log: seq<Exchange>, r: Result<Report<T>, string>)
    requires log != []
  {
    match FailureAt(o, log, |log| - 1)
    case Some(error) => r == Err(error)
    case None => r.Ok? && AllItems(o, Drained(log)) == Ok(r.value.items) && r.value.apiCallCount == |Drained(log)|
  }

  function Exchanged(dispatch: Dispatcher, log: seq<Exchange>, action: Action): seq<Exchange> {
    log + [Exchange(action, dispatch(log, action))]
  }

  /** The `finally` block; what the dispatcher answers here is ignored. */
  function CleanedUp(dispatch: Dispatcher, log: seq<Exchange>): seq<Exchange>
    requires log != []
  {
    var stopped := if SessionOf(log) == "" then log else Exchanged(dispatch, log, StopIntercept(SessionOf(log)));
    Exchanged(dispatch, stopped, CloseTab(TabOf(log)))
  }

  // ---- The driver ----

  /** A failed reply or parser is passed on; otherwise the sink grew by the items of all responses. */
  ghost predicate IsDrainResult<J, T>(o: Options<J, T>, reply: Reply, sink: seq<T>, calls: Result<nat, string>,
                                      items: seq<T>) {
    if reply.Failed? then calls == Err(reply.error)
    else if AllItems(o, reply.responses).Err? then calls == Err(AllItems(o, reply.responses).error)
    else calls == Ok(|reply.responses|) && items == sink + AllItems(o, reply.responses).value
  }

  /** `drainInto`: adds the items of the drained responses to the sink. */
  method DrainInto<J, T>(o: Options<J, T>, dispatch: Dispatcher, before: seq<Exchange>, sink: seq<T>, sessionId: string)
    returns (calls: Result<nat, string>, items: seq<T>, log: seq<Exchange>)
    ensures log == Exchanged(dispatch, before, Drain(sessionId))
    ensures IsDrainResult(o, log[|before|].reply, sink, calls, items)
  {
    items := sink;
    log := Exchanged(dispatch, before, Drain(sessionId));
    var reply := log[|before|].reply;
    if reply.Failed? {
      return Err(reply.error), items, log;
    }
    var responses := reply.responses;
    var count := 0;
    assert sink + [] == sink;
    while count < |responses|
      invariant 0 <= count <= |responses|
      invariant AllItems(o, responses[..count]).Ok? && items == sink + AllItems(o, responses[..count]).value
    {
      var response := responses[count];
      assert responses[..count + 1] == responses[..count] + [response];
      AllItemsConcat(o, responses[..count], [response]);
      assert [response][1..] == [];
      assert responses == responses[..count + 1] + responses[count + 1..];
      AllItemsConcat(o, responses[..count + 1], responses[count + 1..]);
      count := count + 1;
      if !response.base64Encoded {
        var json := o.parseJson(response.body);
        if json.Some? {
          var parsed := o.parseResponse(response.url, json.value);
          if parsed.Err? {
            return Err(parsed.error), items, log;
          }
          items := items + parsed.value;
        }
      }
    }
    assert responses[..count] == responses;
    calls := Ok(count);
  }

  /** On the script, with nothing that finishes the session yet. */
  ghost predicate Running<J, T>(o: Options<J, T>, dispatch: Dispatcher, log: seq<Exchange>) {
    && log != [] && FollowsScript(o, dispatch, log)
    && forall i | 0 <= i < |log| :: !FinishesAt(o, log, i)
  }

  lemma StaysOnScript<J, T>(o: Options<J, T>, dispatch: Dispatcher, log: seq<Exchange>, action: Action)
    requires log != [] && FollowsScript(o, dispatch, log) && action == Scripted(o, log, |log|)
    ensures
      var next := Exchanged(dispatch, log, action);
      && FollowsScript(o, dispatch, next)
      && (forall i | 0 <= i < |log| :: FinishesAt(o, next, i) == FinishesAt(o, log, i))
  {
    var next := Exchanged(dispatch, log, action);
    forall i | 0 <= i < |next|
      ensures next[i].action == Scripted(o, next, i) && next[i].reply == dispatch(next[..i], next[i].action)
    {
      if i < |log| {
        assert next[i] == log[i] && next[..i] == log[..i];
      } else {
        assert next[..i] == log;
      }
    }
  }

  /** The next scripted action either finishes the session or leaves it running. */
  lemma NextStep<J, T>(o: Options<J, T>, dispatch: Dispatcher, log: seq<Exchange>, action: Action)
    requires Running(o, dispatch, log) && action == Scripted(o, log, |log|)
    ensures
      var next := Exchanged(dispatch, log, action);
      && log <= next && TabOf(next) == TabOf(log) && (|log| > 1 ==> SessionOf(next) == SessionOf(log))
      && (if FinishesAt(o, next, |log|) then IsSession(o, dispatch, next) else Running(o, dispatch, next))
  {
    StaysOnScript(o, dispatch, log, action);
    hide FollowsScript, FinishesAt, Scripted;
  }

  ghost predicate Gathered<J, T>(o: Options<J, T>, log: seq<Exchange>, items: seq<T>, calls: nat) {
    AllItems(o, Drained(log)) == Ok(items) && calls == |Drained(log)|
  }

  lemma TriggerGathers<J, T>(o: Options<J, T>, dispatch: Dispatcher, log: seq<Exchange>, action: Action,
                             items: seq<T>, calls: nat)
    requires Gathered(o, log, items, calls) && !action.Drain?
    ensures Gathered(o, Exchanged(dispatch, log, action), items, calls)
  {
    DrainedGrows(log, Exchange(action, dispatch(log, action)));
    assert Drained(log) + [] == Drained(log);
  }

  lemma DrainGathers<J, T>(o: Options<J, T>, dispatch: Dispatcher, log: seq<Exchange>, sessionId: string,
                           items: seq<T>, calls: nat)
    requires Gathered(o, log, items, calls)
    ensures
      var reply := dispatch(log, Drain(sessionId));
      reply.Observed? && AllItems(o, reply.responses).Ok? ==>
        Gathered(o, Exchanged(dispatch, log, Drain(sessionId)), items + AllItems(o, reply.responses).value,
                 calls + |reply.responses|)
  {
    var reply := dispatch(log, Drain(sessionId));
    DrainedGrows(log, Exchange(Drain(sessionId), reply));
    if reply.Observed? {
      AllItemsConcat(o, Drained(log), reply.responses);
    }
    hide Drained, AllItems;
  }

  lemma NothingGathered<J, T>(o: Options<J, T>, dispatch: Dispatcher, log: seq<Exchange>)
    requires |log| <= 3 && Running(o, dispatch, log)
    ensures Gathered(o, log, [], 0)
  {
    NothingDrained(log);
  }

  lemma Reports<J, T>(o: Options<J, T>, log: seq<Exchange>, items: seq<T>, calls: nat)
    requires log != [] && Gathered(o, log, items, calls) && FailureAt(o, log, |log| - 1) == None
    ensures IsOutcome(o, log, Ok(Report(items, calls)))
  {}

  lemma NothingDrained(log: seq<Exchange>)
    requires forall i | 0 <= i < |log| :: !log[i].action.Drain?
    ensures Drained(log) == []
  {}

  /** The scroll loop, up to the report. */
  method ScrollPages<J, T>(o: Options<J, T>, dispatch: Dispatcher, before: seq<Exchange>, tabId: int, live: string,
                           first: seq<T>, firstCalls: nat)
    returns (r: Result<Report<T>, string>, log: seq<Exchange>)
    requires |before| == 4 && TabOf(before) == tabId && SessionOf(before) == live
    requires Gathered(o, before, first, firstCalls) && FailureAt(o, before, 3) == None
    requires if FinishesAt(o, before, 3) then IsSession(o, dispatch, before) else Running(o, dispatch, before)
    ensures before <= log && IsSession(o, dispatch, log) && IsOutcome(o, log, r) && SessionOf(log) == live
  {
    hide FollowsScript, Drained, AllItems, Running, Gathered, IsSession, IsOutcome;
    log := before;
    var items, apiCallCount := first, firstCalls;
    var prev := |items|;
    var n := 0;
    while n < MaxScrolls(o)
      invariant Gathered(o, log, items, apiCallCount) && |log| == 4 + 2 * n && prev == |items|
      invariant before <= log && TabOf(log) == tabId && SessionOf(log) == live
      invariant FailureAt(o, log, |log| - 1) == None
      invariant if n < MaxScrolls(o) then Running(o, dispatch, log) else IsSession(o, dispatch, log)
    {
      var trigger := if o.customTrigger then CallTrigger(tabId) else ScrollDown(tabId);
      NextStep(o, dispatch, log, trigger);
      TriggerGathers(o, dispatch, log, trigger, items, apiCallCount);
      log := Exchanged(dispatch, log, trigger);
      if log[|log| - 1].reply.Failed? {
        r := Err(log[|log| - 1].reply.error);
        Fails(o, log, log[|log| - 1].reply.error);
        return;
      }
      NextStep(o, dispatch, log, Drain(live));
      DrainGathers(o, dispatch, log, live, items, apiCallCount);
      var calls;
      calls, items, log := DrainInto(o, dispatch, log, items, live);
      if calls.Err? {
        r := Err(calls.error);
        Fails(o, log, calls.error);
        return;
      }
      apiCallCount := apiCallCount + calls.value;
      n := n + 1;
      if |items| == prev {
        break;
      }
      prev := |items|;
    }
    r := Ok(Report(items, apiCallCount));
    Reports(o, log, items, apiCallCount);
  }

  lemma Fails<J, T>(o: Options<J, T>, log: seq<Exchange>, error: string)
    requires log != [] && FailureAt(o, log, |log| - 1) == Some(error)
    ensures IsOutcome(o, log, Err(error))
  {}

  /** The `try` block, from starting the intercept to the report. */
  method DriveTab<J, T>(o: Options<J, T>, dispatch: Dispatcher, before: seq<Exchange>)
    returns (r: Result<Report<T>, string>, sessionId: Option<string>, log: seq<Exchange>)
    requires |before| == 1 && Running(o, dispatch, before)
    ensures before <= log && IsSession(o, dispatch, log) && IsOutcome(o, log, r)
    ensures SessionOf(log) == if sessionId.Some? then sessionId.value else ""
  {
    hide FollowsScript, Drained, AllItems, Running, Gathered, IsSession;
    var tabId := TabOf(before);
    sessionId := None;
    NextStep(o, dispatch, before, StartIntercept(tabId));
    log := Exchanged(dispatch, before, StartIntercept(tabId));
    if log[1].reply.Failed? {
      return Err(log[1].reply.error), None, log;
    }
    var live := log[1].reply.sessionId;
    sessionId := Some(live);
    NextStep(o, dispatch, log, Navigate(tabId, o.url));
    log := Exchanged(dispatch, log, Navigate(tabId, o.url));
    if log[2].reply.Failed? {
      return Err(log[2].reply.error), sessionId, log;
    }
    if o.checkAuth.Some? && !o.checkAuth.value(log[2].reply.currentUrl) {
      return Err(AUTH_FAILED), sessionId, log;
    }
    var items: seq<T>, apiCallCount: nat := [], 0;
    NothingGathered(o, dispatch, log);
    NextStep(o, dispatch, log, Drain(live));
    DrainGathers(o, dispatch, log, live, items, apiCallCount);
    var calls: Result<nat, string>;
    calls, items, log := DrainInto(o, dispatch, log, items, live);
    if calls.Err? {
      return Err(calls.error), sessionId, log;
    }
    apiCallCount := apiCallCount + calls.value;
    r, log := ScrollPages(o, dispatch, log, tabId, live, items, apiCallCount);
  }

  /** A whole run: the session's steps and, once the tab is open, the cleanup behind them. */
  ghost predicate IsRun<J, T>(o: Options<J, T>, dispatch: Dispatcher, session: seq<Exchange>, log: seq<Exchange>,
                              r: Result<Report<T>, string>) {
    && IsSession(o, dispatch, session) && IsOutcome(o, session, r)
    && log == if session[0].reply.Failed? then session else CleanedUp(dispatch, session)
  }

  /** `extensionNetworkSync`. */
  method ExtensionNetworkSync<J, T>(o: Options<J, T>, dispatch: Dispatcher)
    returns (r: Result<Report<T>, string>, log: seq<Exchange>)
    ensures exists session: seq<Exchange> :: IsRun(o, dispatch, session, log, r)
  {
    log := Exchanged(dispatch, [], OpenBlank);
    if log[0].reply.Failed? {
      r := Err(log[0].reply.error);
      assert IsRun(o, dispatch, log, log, r);
      return;
    }
    var tabId := log[0].reply.tabId;
    var sessionId;
    assert Running(o, dispatch, log);
    r, sessionId, log := DriveTab(o, dispatch, log);
    ghost var session := log;
    hide IsSession, IsOutcome;
    if sessionId.Some? && sessionId.value != "" {
      log := Exchanged(dispatch, log, StopIntercept(sessionId.value));
    }
    log := Exchanged(dispatch, log, CloseTab(tabId));
    assert IsRun(o, dispatch, session, log, r);
  }

  // ---- What every run keeps ----

  lemma ScriptedKinds<J, T>(o: Options<J, T>, log: seq<Exchange>, i: nat)
    requires i == 0 || log != []
    ensures var action := Scripted(o, log, i);
      && !action.CloseTab? && !action.StopIntercept?
      && (action.Drain? <==> i >= 3 && i % 2 == 1)
      && (action.Navigate? <==> i == 2)
  {}

  lemma SessionActions<J, T>(o: Options<J, T>, dispatch: Dispatcher, session: seq<Exchange>, i: nat)
    requires IsSession(o, dispatch, session) && i < |session|
    ensures session[i].action == Scripted(o, session, i)
        && session[i].reply == dispatch(session[..i], session[i].action)
    ensures !session[i].action.CloseTab? && !session[i].action.StopIntercept?
    ensures session[i].action.Drain? <==> i >= 3 && i % 2 == 1
    ensures session[i].action.Navigate? <==> i == 2
    ensures i < |session| - 1 ==> session[i].reply.Observed?
  {
    hide Scripted, EndsScrolling;
    ScriptedKinds(o, session, i);
    assert i < |session| - 1 ==> !FinishesAt(o, session, i);
  }

  /** An opened tab is closed exactly once, as the last step.  The intercept is stopped exactly
      once, right before that, if and only if starting it returned an id. */
  lemma CleansUp<J, T>(o: Options<J, T>, dispatch: Dispatcher, session: seq<Exchange>, log: seq<Exchange>,
                       r: Result<Report<T>, string>)
    requires IsRun(o, dispatch, session, log, r)
    ensures log != [] && (log[0].reply.Failed? ==> |log| == 1 && r == Err(log[0].reply.error))
    ensures log[0].reply.Observed? ==>
      && |log| >= 3
      && (forall i | 0 <= i < |log| :: log[i].action.CloseTab? <==> i == |log| - 1)
      && log[|log| - 1].action == CloseTab(log[0].reply.tabId)
      && var started := log[1].reply.Observed? && log[1].reply.sessionId != "";
         && (forall i | 0 <= i < |log| :: log[i].action.StopIntercept? <==> i == |log| - 2 && started)
         && (started ==> log[|log| - 2].action == StopIntercept(log[1].reply.sessionId))
  {
    hide IsSession, Scripted, Drained, AllItems;
    forall i | 0 <= i < |session|
      ensures !session[i].action.CloseTab? && !session[i].action.StopIntercept?
    {
      SessionActions(o, dispatch, session, i);
    }
    SessionStarts(o, dispatch, session);
    hide FailureAt;
    assert |session| > 1 ==> SessionOf(log) == SessionOf(session);
  }

  lemma SessionStarts<J, T>(o: Options<J, T>, dispatch: Dispatcher, session: seq<Exchange>)
    requires IsSession(o, dispatch, session)
    ensures session != [] && (|session| == 1 <==> session[0].reply.Failed?)
    ensures session[0].reply.Failed? ==> FailureAt(o, session, 0) == Some(session[0].reply.error)
  {
    assert |session| > 1 ==> !FinishesAt(o, session, 0);
    assert |session| == 1 ==> FinishesAt(o, session, 0);
  }

  /** The page is navigated at most once, in the opened tab, and only behind a successful start. */
  lemma StartPrecedesNavigation<J, T>(o: Options<J, T>, dispatch: Dispatcher, session: seq<Exchange>,
                                      log: seq<Exchange>, r: Result<Report<T>, string>, i: nat)
    requires IsRun(o, dispatch, session, log, r) && i < |log| && log[i].action.Navigate?
    ensures i == 2 && log[0].reply.Observed? && log[1].reply.Observed?
    ensures log[1].action == StartIntercept(log[0].reply.tabId) && log[2].action == Navigate(log[0].reply.tabId, o.url)
  {
    hide IsOutcome, IsSession;
    SessionActions(o, dispatch, session, if i < |session| then i else 0);
    SessionStarts(o, dispatch, session);
    if i < |session| {
      SessionActions(o, dispatch, session, 2);
      SessionActions(o, dispatch, session, 0);
      SessionActions(o, dispatch, session, 1);
    }
  }

  function DrainCount(log: seq<Exchange>): nat {
    if log == [] then 0
    else DrainCount(log[..|log| - 1]) + if log[|log| - 1].action.Drain? then 1 else 0
  }

  lemma DrainCountGrows(log: seq<Exchange>, last: Exchange)
    ensures DrainCount(log + [last]) == DrainCount(log) + if last.action.Drain? then 1 else 0
  {
    assert (log + [last])[..|log|] == log;
  }

  /** Drains among the first `n` scripted steps. */
  function DrainsWithin(n: nat): nat {
    if n <= 3 then 0 else (n - 2) / 2
  }

  lemma DrainsAlternate(n: nat)
    requires n > 0
    ensures DrainsWithin(n) == DrainsWithin(n - 1) + if n - 1 >= 3 && (n - 1) % 2 == 1 then 1 else 0
  {}

  predicate DrainsAlternating(log: seq<Exchange>) {
    forall i | 0 <= i < |log| :: log[i].action.Drain? <==> i >= 3 && i % 2 == 1
  }

  lemma {:induction false} AlternatingDrains(log: seq<Exchange>)
    requires DrainsAlternating(log)
    ensures DrainCount(log) == DrainsWithin(|log|)
  {
    if log != [] {
      var front, last := log[..|log| - 1], log[|log| - 1];
      assert DrainsAlternating(front);
      AlternatingDrains(front);
      DrainsAlternate(|log|);
      hide DrainsWithin;
    }
  }

  lemma ScriptedDrains<J, T>(o: Options<J, T>, dispatch: Dispatcher, session: seq<Exchange>, n: nat)
    requires IsSession(o, dispatch, session) && n <= |session|
    ensures DrainCount(session[..n]) == DrainsWithin(n)
  {
    forall i | 0 <= i < n
      ensures session[..n][i].action.Drain? <==> i >= 3 && i % 2 == 1
    {
      SessionActions(o, dispatch, session, i);
    }
    hide IsSession, DrainCount, DrainsWithin;
    AlternatingDrains(session[..n]);
  }

  lemma SessionLength<J, T>(o: Options<J, T>, dispatch: Dispatcher, session: seq<Exchange>)
    requires IsSession(o, dispatch, session)
    ensures |session| <= 4 + 2 * MaxScrolls(o)
  {
    var n := 3 + 2 * MaxScrolls(o);
    if n < |session| {
      assert n == |session| - 1 || !FinishesAt(o, session, n);
    }
  }

  /** The number of scrolls the caller allows: ten by default. */
  predicate IsScrollLimit(maxScrolls: Option<int>, limit: int) {
    || (maxScrolls == None && limit == 10)
    || (maxScrolls == Some(limit) && 0 <= limit)
    || (maxScrolls.Some? && maxScrolls.value <= 0 && limit == 0)
  }

  lemma ScrollLimitIs<J, T>(o: Options<J, T>, limit: int)
    ensures IsScrollLimit(o.maxScrolls, limit) <==> limit == MaxScrolls(o)
  {}

  /** At most one drain more than there are scrolls. */
  lemma DrainsAreBounded<J, T>(o: Options<J, T>, dispatch: Dispatcher, session: seq<Exchange>, log: seq<Exchange>,
                               r: Result<Report<T>, string>)
    requires IsRun(o, dispatch, session, log, r)
    ensures DrainCount(log) == DrainCount(session)
    ensures IsScrollLimit(o.maxScrolls, MaxScrolls(o))
    ensures forall limit | IsScrollLimit(o.maxScrolls, limit) :: DrainCount(log) <= limit + 1
  {
    hide MaxScrolls, IsScrollLimit;
    forall limit: int
      ensures IsScrollLimit(o.maxScrolls, limit) <==> limit == MaxScrolls(o)
    {
      ScrollLimitIs(o, limit);
    }
    ScriptedDrains(o, dispatch, session, |session|);
    assert session[..|session|] == session;
    SessionLength(o, dispatch, session);
    hide IsSession, IsOutcome;
    if session[0].reply.Observed? {
      var stop := StopIntercept(SessionOf(session));
      DrainCountGrows(session, Exchange(stop, dispatch(session, stop)));
      var stopped := if SessionOf(session) == "" then session else Exchanged(dispatch, session, stop);
      DrainCountGrows(stopped, Exchange(CloseTab(TabOf(session)), dispatch(stopped, CloseTab(TabOf(session)))));
    }
  }

  lemma CleanupDrainsNothing(dispatch: Dispatcher, session: seq<Exchange>)
    requires session != []
    ensures Drained(CleanedUp(dispatch, session)) == Drained(session)
  {
    var stop := StopIntercept(SessionOf(session));
    var stopped := if SessionOf(session) == "" then session else Exchanged(dispatch, session, stop);
    DrainedGrows(session, Exchange(stop, dispatch(session, stop)));
    DrainedGrows(stopped, Exchange(CloseTab(TabOf(session)), dispatch(stopped, CloseTab(TabOf(session)))));
    hide Drained;
    assert Drained(session) + [] == Drained(session);
  }

  function Readable<J, T>(o: Options<J, T>, responses: seq<Response>): seq<Response> {
    if responses == [] then []
    else
      (if responses[0].base64Encoded || o.parseJson(responses[0].body).None? then [] else [responses[0]])
      + Readable(o, responses[1..])
  }

  /** Responses that cannot be read change neither the items nor the failure. */
  lemma {:induction false} UnreadableAddNothing<J, T>(o: Options<J, T>, responses: seq<Response>)
    ensures AllItems(o, Readable(o, responses)) == AllItems(o, responses)
  {
    if responses != [] {
      UnreadableAddNothing(o, responses[1..]);
      var rest := Readable(o, responses[1..]);
      if responses[0].base64Encoded || o.parseJson(responses[0].body).None? {
        assert [] + rest == rest;
        match AllItems(o, responses[1..])
        case Ok(items) => assert [] + items == items;
        case Err(_) =>
      } else {
        assert ([responses[0]] + rest)[1..] == rest;
      }
    }
  }

  /** A reported run met no failure, and its items are those of all readable responses it drained,
      in drain order. */
  lemma ReportIsComplete<J, T>(o: Options<J, T>, dispatch: Dispatcher, session: seq<Exchange>, log: seq<Exchange>,
                               r: Result<Report<T>, string>)
    requires IsRun(o, dispatch, session, log, r) && r.Ok?
    ensures session <= log && forall i | 0 <= i < |session| :: session[i].reply.Observed?
    ensures AllItems(o, Readable(o, Drained(log))) == Ok(r.value.items) && r.value.apiCallCount == |Drained(log)|
  {
    CleanupDrainsNothing(dispatch, session);
    UnreadableAddNothing(o, Drained(log));
    SessionStarts(o, dispatch, session);
    forall i | 0 <= i < |session|
      ensures session[i].reply.Observed?
    {
      SessionActions(o, dispatch, session, i);
    }
    hide Drained, AllItems, Readable, IsSession;
  }

  /** The steps spelled out: all in the opened tab and under the id that starting returned, and each
      only behind success of all before it. */
  lemma StepsSpelledOut<J, T>(o: Options<J, T>, dispatch: Dispatcher, session: seq<Exchange>, i: nat)
    requires IsSession(o, dispatch, session) && i < |session|
    ensures forall k | 0 <= k < i :: session[k].reply.Observed?
    ensures var action := session[i].action;
            && (i == 0 ==> action == OpenBlank)
            && (i == 1 ==> action == StartIntercept(session[0].reply.tabId))
            && (i == 2 ==> action == Navigate(session[0].reply.tabId, o.url))
            && (i >= 3 && i % 2 == 1 ==> action == Drain(session[1].reply.sessionId))
            && (i >= 4 && i % 2 == 0 && o.customTrigger ==> action == CallTrigger(session[0].reply.tabId))
            && (i >= 4 && i % 2 == 0 && !o.customTrigger ==> action == ScrollDown(session[0].reply.tabId))
  {
    forall k | 0 <= k <= i
      ensures k < i ==> session[k].reply.Observed?
    {
      SessionActions(o, dispatch, session, k);
    }
    SessionActions(o, dispatch, session, i);
    hide IsSession;
  }

  /** The caller's check refuses the URL the real navigation arrived at. */
  ghost predicate Refused<J, T>(o: Options<J, T>, session: seq<Exchange>) {
    && |session| > 2 && session[2].reply.Observed?
    && o.checkAuth != None && !o.checkAuth.value(session[2].reply.currentUrl)
  }

  /** Why a run fails, and with which error: the dispatcher fails, the check refuses, or the caller's
      parser throws on a drained response; each of these ends the session at once. */
  lemma WhyItFails<J, T>(o: Options<J, T>, dispatch: Dispatcher, session: seq<Exchange>, log: seq<Exchange>,
                         r: Result<Report<T>, string>)
    requires IsRun(o, dispatch, session, log, r)
    ensures forall i | 0 <= i < |session| && session[i].reply.Failed? ::
              i == |session| - 1 && r == Err(session[i].reply.error)
    ensures Refused(o, session) ==> |session| == 3 && r == Err(AUTH_FAILED)
    ensures forall i | 0 <= i < |session| && session[i].action.Drain? && session[i].reply.Observed? ::
              AllItems(o, session[i].reply.responses).Err? ==>
                i == |session| - 1 && r == Err(AllItems(o, session[i].reply.responses).error)
    ensures r.Err? ==>
              var last := session[|session| - 1];
              || last.reply.Failed?
              || Refused(o, session)
              || (last.action.Drain? && AllItems(o, last.reply.responses).Err?)
  {
    hide AllItems, Drained, Scripted, FollowsScript, EndsScrolling;
    forall i | 0 <= i < |session|
      ensures session[i].action.Drain? <==> i >= 3 && i % 2 == 1
      ensures i < |session| - 1 ==> FailureAt(o, session, i) == None
    {
      SessionActions(o, dispatch, session, i);
      assert i < |session| - 1 ==> !FinishesAt(o, session, i);
    }
    hide IsSession, IsOutcome, FinishesAt;
    EndIsFailure(o, session, r);
  }

  /** The same for the last step, whose failure decides the outcome. */
  lemma EndIsFailure<J, T>(o: Options<J, T>, session: seq<Exchange>, r: Result<Report<T>, string>)
    requires session != [] && IsOutcome(o, session, r)
    ensures var last := |session| - 1;
            match FailureAt(o, session, last)
            case Some(error) => r == Err(error)
            case None => r.Ok?
  {
    hide FailureAt;
  }

  /** The caller's check, if there is one, is asked for the URL that the real navigation arrived at.
      Where it refuses, the session ends right there with the auth error and nothing was drained;
      where it accepts or is absent, the session goes on to the first drain.  So whatever is reported
      comes from a page that the check accepts. */
  lemma AuthDecides<J, T>(o: Options<J, T>, dispatch: Dispatcher, session: seq<Exchange>, log: seq<Exchange>,
                          r: Result<Report<T>, string>)
    requires IsRun(o, dispatch, session, log, r)
    ensures r.Ok? ==> |session| > 3 && session[2].reply.Observed?
    ensures |session| > 2 && session[2].reply.Observed? ==>
              var accepted := o.checkAuth == None || o.checkAuth.value(session[2].reply.currentUrl);
              && session[0].reply.Observed? && session[1].reply.Observed?
              && session[2].action == Navigate(session[0].reply.tabId, o.url)
              && (accepted ==> |session| > 3 && session[3].action == Drain(session[1].reply.sessionId))
              && (!accepted ==> |session| == 3 && r == Err(AUTH_FAILED) && Drained(log) == [] && DrainCount(log) == 0)
  {
    if r.Ok? {
      LastStepEnds(o, dispatch, session, r);
      SessionActions(o, dispatch, session, 2);
    }
    if |session| > 2 && session[2].reply.Observed? {
      NavigatedSession(o, dispatch, session, log, r);
      SessionActions(o, dispatch, session, 0);
      SessionActions(o, dispatch, session, 1);
    }
  }

  lemma NavigatedSession<J, T>(o: Options<J, T>, dispatch: Dispatcher, session: seq<Exchange>, log: seq<Exchange>,
                               r: Result<Report<T>, string>)
    requires IsRun(o, dispatch, session, log, r) && |session| > 2 && session[2].reply.Observed?
    ensures session[2].action == Navigate(TabOf(session), o.url)
    ensures var accepted := o.checkAuth == None || o.checkAuth.value(session[2].reply.currentUrl);
            && (accepted ==> |session| > 3 && session[3].action == Drain(SessionOf(session)))
            && (!accepted ==> |session| == 3 && r == Err(AUTH_FAILED) && Drained(log) == [] && DrainCount(log) == 0)
  {
    hide Drained, DrainCount, AllItems, FollowsScript;
    SessionActions(o, dispatch, session, 2);
    assert FinishesAt(o, session, |session| - 1);
    assert |session| > 3 ==> !FinishesAt(o, session, 2);
    if |session| > 3 {
      SessionActions(o, dispatch, session, 3);
    } else {
      SessionActions(o, dispatch, session, 0);
      SessionActions(o, dispatch, session, 1);
      NothingDrained(session);
      CleanupDrainsNothing(dispatch, session);
      ScriptedDrains(o, dispatch, session, 3);
      assert session[..3] == session;
      DrainsAreBounded(o, dispatch, session, log, r);
    }
  }

  /** No scroll follows a drain behind a scroll that brought nothing. */
  lemma EveryScrollBroughtItems<J, T>(o: Options<J, T>, dispatch: Dispatcher, session: seq<Exchange>, i: nat)
    requires IsSession(o, dispatch, session) && 5 <= i < |session| - 1 && i % 2 == 1
    ensures session[i].reply.Observed? && AllItems(o, session[i].reply.responses) != Ok([])
  {
    hide FollowsScript, AllItems;
    assert !FinishesAt(o, session, i);
  }

  lemma LastStepEnds<J, T>(o: Options<J, T>, dispatch: Dispatcher, session: seq<Exchange>, r: Result<Report<T>, string>)
    requires IsSession(o, dispatch, session) && IsOutcome(o, session, r) && r.Ok?
    ensures EndsScrolling(o, session, |session| - 1)
  {
    hide FollowsScript, AllItems, EndsScrolling, Drained;
    assert FinishesAt(o, session, |session| - 1);
  }

  /** Scrolling stops when a drain brought nothing or no scroll is left. */
  lemma ScrollingEnds<J, T>(o: Options<J, T>, dispatch: Dispatcher, session: seq<Exchange>, log: seq<Exchange>,
                            r: Result<Report<T>, string>)
    requires IsRun(o, dispatch, session, log, r) && r.Ok?
    ensures |session| == 2 + 2 * DrainCount(log) && session[|session| - 1].reply.Observed?
    ensures IsScrollLimit(o.maxScrolls, DrainCount(log) - 1)
      || (DrainCount(log) > 1 && AllItems(o, session[|session| - 1].reply.responses) == Ok([]))
  {
    hide IsScrollLimit;
    ScrollLimitIs(o, DrainCount(log) - 1);
    hide FollowsScript, AllItems, IsSession, FinishesAt, FailureAt, Drained, DrainCount, IsOutcome;
    LastStepEnds(o, dispatch, session, r);
    ScriptedDrains(o, dispatch, session, |session|);
    assert session[..|session|] == session;
    SessionLength(o, dispatch, session);
    DrainsAreBounded(o, dispatch, session, log, r);
  }

  // ---- The dispatcher decides everything, and cleanup nothing ----

  lemma ScriptsAgree<J, T>(o: Options<J, T>, a: seq<Exchange>, b: seq<Exchange>, i: nat)
    requires i > 0 ==> a != [] && b != [] && a[0] == b[0]
    requires i > 1 ==> |a| > 1 && |b| > 1 && a[1] == b[1]
    ensures Scripted(o, a, i) == Scripted(o, b, i)
  {}

  lemma {:induction false} SamePrefix<J, T>(o: Options<J, T>, dispatch: Dispatcher, a: seq<Exchange>,
                                            b: seq<Exchange>, n: nat)
    requires FollowsScript(o, dispatch, a) && FollowsScript(o, dispatch, b) && n <= |a| && n <= |b|
    ensures a[..n] == b[..n]
  {
    if n > 0 {
      SamePrefix(o, dispatch, a, b, n - 1);
      assert n > 1 ==> a[0] == a[..n - 1][0] && b[0] == b[..n - 1][0];
      assert n > 2 ==> a[1] == a[..n - 1][1] && b[1] == b[..n - 1][1];
      ScriptsAgree(o, a, b, n - 1);
      hide Scripted;
      assert a[n - 1] == b[n - 1];
      hide FollowsScript;
      assert a[..n] == a[..n - 1] + [a[n - 1]] && b[..n] == b[..n - 1] + [b[n - 1]];
    }
  }

  lemma ShorterSession<J, T>(o: Options<J, T>, dispatch: Dispatcher, a: seq<Exchange>, b: seq<Exchange>)
    requires IsSession(o, dispatch, a) && IsSession(o, dispatch, b)
    ensures |a| >= |b|
  {
    var last := |a| - 1;
    if last < |b| {
      SamePrefix(o, dispatch, a, b, |a|);
      assert a[last] == a[..|a|][last] == b[..|a|][last] == b[last];
      assert FinishesAt(o, a, last) == FinishesAt(o, b, last);
    }
  }

  /** The steps of the session are determined by the dispatcher. */
  lemma SessionIsDetermined<J, T>(o: Options<J, T>, dispatch: Dispatcher, a: seq<Exchange>, b: seq<Exchange>)
    requires IsSession(o, dispatch, a) && IsSession(o, dispatch, b)
    ensures a == b
  {
    ShorterSession(o, dispatch, a, b);
    ShorterSession(o, dispatch, b, a);
    SamePrefix(o, dispatch, a, b, |a|);
    assert a == a[..|a|] && b == b[..|b|];
  }

  /** Failures while cleaning up are swallowed: dispatchers that differ only in their answers to
      stopping and closing give the same outcome. */
  lemma CleanupCannotFail<J, T>(o: Options<J, T>, one: Dispatcher, other: Dispatcher,
                                session1: seq<Exchange>, log1: seq<Exchange>, r1: Result<Report<T>, string>,
                                session2: seq<Exchange>, log2: seq<Exchange>, r2: Result<Report<T>, string>)
    requires forall log: seq<Exchange>, action: Action ::
      !action.StopIntercept? && !action.CloseTab? ==> one(log, action) == other(log, action)
    requires IsRun(o, one, session1, log1, r1) && IsRun(o, other, session2, log2, r2)
    ensures session1 == session2 && r1 == r2
  {
    hide Scripted, FinishesAt, Drained, AllItems;
    forall i | 0 <= i < |session1|
      ensures session1[i].action == Scripted(o, session1, i)
      ensures session1[i].reply == other(session1[..i], session1[i].action)
    {
      SessionActions(o, one, session1, i);
    }
    assert FollowsScript(o, other, session1);
    hide FollowsScript;
    assert IsSession(o, other, session1);
    SessionIsDetermined(o, other, session1, session2);
  }
}
