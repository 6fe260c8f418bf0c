/**
  The whole system: a client and its pending calls, connections that carry bytes both ways and may
  stop anywhere, a server that executes what it reads, and responses that come late, twice or never.
  Nothing here keeps a request from being sent, executed or answered twice; `Composition` does.
 */
module Rpc {
  import opened Wrappers
  import opened Bytes
  import opened Msgpack
  import opened Messages
  import opened Framing
  import opened Methods
  import CallLists

  /** One run of the method processor: the request it was given, the methods there were, what it answered. */
  datatype Execution = Execution(link: nat, position: nat, request: Message, methods: MethodDict, result: CallResult)

  /** The messages written to a connection, in each direction; their bytes are what travels. */
  datatype Link = Link(up: seq<Message>, down: seq<Message>)

  datatype State = State(
    calls: CallLists.Calls, requests: map<nat, Message>, outbox: seq<Message>,
    links: seq<Link>, executed: seq<Execution>)

  datatype Event =
    | Draw
    | Call(g: nat, name: bytes, params: seq<Value>)
    | Notify(name: bytes, params: seq<Value>)
    | Connect
    | Transmit(link: nat, k: nat)
    | Execute(link: nat, arrived: nat, position: nat, request: Message, methods: MethodDict)
    | Reply(k: nat)
    | Receive(link: nat, arrived: nat, position: nat, response: Message)
    | Expire(id: nat)

  /** What the other end has understood when the first `arrived` bytes have come. */
  ghost function Understood(ms: seq<Message>, arrived: nat): seq<Message>
    requires AllValid(ms) && arrived <= |SerializeAll(ms)|
  {
    ReadStream(SerializeAll(ms)[..arrived]).messages
  }

  /** `m` is the message at `position` among those that have arrived. */
  ghost predicate Arrives(ms: seq<Message>, arrived: nat, position: nat, m: Message) {
    && AllValid(ms) && arrived <= |SerializeAll(ms)|
    && position < |Understood(ms, arrived)| && Understood(ms, arrived)[position] == m
  }

  ghost predicate Enabled(s: State, e: Event) {
    match e
    case Draw => true
    case Call(g, name, params) =>
      g in s.calls.drawn && |name| <= MAX_TEXT && |params| < U32 && AllPackable(params)
    case Notify(name, params) => |name| <= MAX_TEXT && |params| < U32 && AllPackable(params)
    case Connect => true
    case Transmit(c, k) => c < |s.links| && k < |s.outbox|
    case Execute(c, n, j, request, methods) =>
      && c < |s.links| && Arrives(s.links[c].up, n, j, request) && request.Request?
      && SaneMethods(methods)
    case Reply(k) => k < |s.executed| && s.executed[k].link < |s.links|
    case Receive(c, n, j, response) =>
      c < |s.links| && Arrives(s.links[c].down, n, j, response) && response.Response?
    case Expire(_) => true
  }

  function ReplyOf(x: Execution): Message
    requires x.request.Request?
  {
    Response(x.request.id, x.result)
  }

  /** What the event does to the list of calls. */
  function CallsAfter(calls: CallLists.Calls, e: Event): CallLists.Calls {
    match e
    case Draw => CallLists.After(calls, CallLists.Draw)
    case Call(g, _, _) => CallLists.After(calls, CallLists.Register(g))
    case Receive(_, _, _, Response(id, result)) => CallLists.After(calls, CallLists.Respond(id, result))
    case Expire(id) => CallLists.After(calls, CallLists.Expire(id))
    case _ => calls
  }

  /** A duplicate id throws before anything is sent. */
  predicate CallGoesOut(s: State, e: Event) {
    e.Call? && !CallLists.Duplicate(s.calls, e.g)
  }

  function RequestOf(s: State, e: Event): Message
    requires e.Call?
  {
    Request(CallLists.IdOf(s.calls, e.g), e.name, e.params)
  }

  function LinksAfter(s: State, e: Event): seq<Link> {
    match e
    case Connect => s.links + [Link([], [])]
    case Transmit(c, k) =>
      if c < |s.links| && k < |s.outbox| then s.links[c := s.links[c].(up := s.links[c].up + [s.outbox[k]])]
      else s.links
    case Reply(k) =>
      if k < |s.executed| && s.executed[k].link < |s.links| && s.executed[k].request.Request? then
        var c := s.executed[k].link;
        s.links[c := s.links[c].(down := s.links[c].down + [ReplyOf(s.executed[k])])]
      else s.links
    case _ => s.links
  }

  function After(s: State, e: Event): State {
    State(
      CallsAfter(s.calls, e),
      if CallGoesOut(s, e) then s.requests[e.g := RequestOf(s, e)] else s.requests,
      s.outbox + (
        if CallGoesOut(s, e) then [RequestOf(s, e)] else if e.Notify? then [Notification(e.name, e.params)] else []),
      LinksAfter(s, e),
      s.executed + (
        if e.Execute? && e.request.Request? then
          [Execution(e.link, e.position, e.request, e.methods, Answer(e.methods, e.request.name, e.request.params))]
        else []))
  }

  ghost predicate Initial(s: State) {
    CallLists.Initial(s.calls) && s == State(s.calls, map[], [], [], [])
  }

  ghost predicate Step(s: State, e: Event, s': State) {
    Enabled(s, e) && s' == After(s, e)
  }

  ghost predicate Next(s: State, s': State) {
    exists e :: Step(s, e, s')
  }

  ghost predicate StepAt(run: seq<State>, i: nat)
    requires i + 1 < |run|
  {
    Next(run[i], run[i + 1])
  }

  ghost predicate IsRun(run: seq<State>) {
    && run != [] && Initial(run[0])
    && forall i: nat :: i + 1 < |run| ==> StepAt(run, i)
  }

  // ----- The invariant -----

  ghost predicate Issued(s: State, m: Message) {
    exists g :: g in s.requests && s.requests[g] == m
  }

  ghost predicate Sent(s: State, m: Message) {
    ValidMessage(m) && !m.Response? && (m.Request? ==> Issued(s, m) && |m.name| <= MAX_TEXT)
  }

  ghost predicate Genuine(s: State, x: Execution) {
    && x.request.Request? && Sent(s, x.request) && SaneMethods(x.methods)
    && x.result == Answer(x.methods, x.request.name, x.request.params)
  }

  ghost predicate IsReply(s: State, m: Message) {
    exists k :: 0 <= k < |s.executed| && s.executed[k].request.Request? && m == ReplyOf(s.executed[k])
  }

  ghost predicate Explains(x: Execution, id: nat, r: CallResult) {
    x.request.Request? && AsReceived(ReplyOf(x)) == Response(id, r)
  }

  ghost predicate Explained(s: State, id: nat, r: CallResult) {
    exists k :: 0 <= k < |s.executed| && Explains(s.executed[k], id, r)
  }

  ghost predicate RequestsInv(s: State) {
    && s.requests.Keys == s.calls.futures.Keys
    && forall g :: g in s.requests ==> s.requests[g].Request? && s.requests[g].id == CallLists.IdOf(s.calls, g)
  }

  ghost predicate OutboxInv(s: State) {
    forall i :: 0 <= i < |s.outbox| ==> Sent(s, s.outbox[i])
  }

  ghost predicate UpInv(s: State) {
    forall c, i :: 0 <= c < |s.links| && 0 <= i < |s.links[c].up| ==> Sent(s, s.links[c].up[i])
  }

  ghost predicate DownInv(s: State) {
    forall c, i :: 0 <= c < |s.links| && 0 <= i < |s.links[c].down| ==>
      ValidMessage(s.links[c].down[i]) && IsReply(s, s.links[c].down[i])
  }

  ghost predicate ExecutedInv(s: State) {
    forall k :: 0 <= k < |s.executed| ==> Genuine(s, s.executed[k])
  }

  ghost predicate WireInv(s: State) {
    OutboxInv(s) && UpInv(s) && DownInv(s) && ExecutedInv(s)
  }

  ghost predicate OutcomesInv(s: State) {
    forall g, r :: HasResult(s.calls, g, r) ==> Explained(s, CallLists.IdOf(s.calls, g), r)
  }

  ghost predicate Inv(s: State) {
    CallLists.Inv(s.calls) && RequestsInv(s) && WireInv(s) && OutcomesInv(s)
  }

  /** However many bytes have arrived, what is understood is the beginning of what was written. */
  lemma ArrivesOnlyIfSent(ms: seq<Message>, arrived: nat, j: nat, m: Message)
    requires Arrives(ms, arrived, j, m)
    ensures j < |ms| && m == AsReceived(ms[j])
  {
    TruncatedStream(ms, arrived);
  }

  lemma SentStays(s: State, s': State, m: Message)
    requires Sent(s, m) && forall g :: g in s.requests ==> g in s'.requests && s'.requests[g] == s.requests[g]
    ensures Sent(s', m)
  {
    if m.Request? {
      assert Issued(s, m);
      var g :| g in s.requests && s.requests[g] == m;
      assert s'.requests[g] == m;
    }
  }

  ghost predicate Grows(s: State, s': State) {
    && (forall g :: g in s.requests ==> g in s'.requests && s'.requests[g] == s.requests[g])
    && s.executed <= s'.executed
    && s'.calls.firstId == s.calls.firstId
  }

  lemma ReplyStays(s: State, s': State, m: Message)
    requires Grows(s, s') && IsReply(s, m)
    ensures IsReply(s', m)
  {
    var k :| 0 <= k < |s.executed| && s.executed[k].request.Request? && m == ReplyOf(s.executed[k]);
    assert s'.executed[k] == s.executed[k];
  }

  lemma ExplainedStays(s: State, s': State, id: nat, r: CallResult)
    requires Grows(s, s') && Explained(s, id, r)
    ensures Explained(s', id, r)
  {
    var k :| 0 <= k < |s.executed| && Explains(s.executed[k], id, r);
    assert Explains(s'.executed[k], id, r);
  }

  lemma CallsStep(calls: CallLists.Calls, e: Event)
    requires CallLists.Inv(calls) && (e.Call? ==> e.g in calls.drawn)
    ensures CallLists.Inv(CallsAfter(calls, e)) && CallsAfter(calls, e).firstId == calls.firstId
    ensures CallsAfter(calls, e).futures.Keys ==
              calls.futures.Keys + if e.Call? && !CallLists.Duplicate(calls, e.g) then {e.g} else {}
    ensures e.Call? ==> e.g !in calls.futures
  {
    match e
    case Draw => CallLists.InvStep(calls, CallLists.Draw);
    case Call(g, _, _) =>
      CallLists.GenerationsBelow(calls, g);
      CallLists.InvStep(calls, CallLists.Register(g));
    case Receive(_, _, _, Response(id, result)) =>
      CallLists.InvStep(calls, CallLists.Respond(id, result));
      CallLists.ResolveChanges(calls, id, CallLists.Result(result), 0);
    case Expire(id) =>
      CallLists.InvStep(calls, CallLists.Expire(id));
      CallLists.ResolveChanges(calls, id, CallLists.TimedOut, 0);
    case _ =>
  }

  lemma RequestsStep(s: State, e: Event)
    requires CallLists.Inv(s.calls) && RequestsInv(s) && (e.Call? ==> e.g in s.calls.drawn)
    ensures CallLists.Inv(After(s, e).calls) && RequestsInv(After(s, e))
    ensures e.Call? ==> e.g !in s.requests
    ensures After(s, e).calls.firstId == s.calls.firstId
  {
    CallsStep(s.calls, e);
    var s' := After(s, e);
    assert forall g :: CallLists.IdOf(s'.calls, g) == CallLists.IdOf(s.calls, g);
    if CallGoesOut(s, e) {
      assert s'.requests == s.requests[e.g := RequestOf(s, e)];
    } else {
      assert s'.requests == s.requests;
    }
  }

  lemma GrowsStep(s: State, e: Event)
    requires e.Call? ==> e.g !in s.requests
    requires After(s, e).calls.firstId == s.calls.firstId
    ensures Grows(s, After(s, e))
  {
  }

  /** What was sent stays sent, and every reply stays one. */
  lemma WireFactsStay(s: State, s': State)
    requires Grows(s, s')
    ensures forall m :: Sent(s, m) ==> Sent(s', m)
    ensures forall m :: IsReply(s, m) ==> IsReply(s', m)
    ensures forall x :: Genuine(s, x) ==> Genuine(s', x)
  {
    forall m | Sent(s, m)
      ensures Sent(s', m)
    {
      SentStays(s, s', m);
    }
    forall m | IsReply(s, m)
      ensures IsReply(s', m)
    {
      ReplyStays(s, s', m);
    }
  }

  lemma OutboxStep(s: State, e: Event)
    requires RequestsInv(s) && OutboxInv(s) && Enabled(s, e) && Grows(s, After(s, e))
    ensures OutboxInv(After(s, e))
  {
    var s' := After(s, e);
    WireFactsStay(s, s');
    if CallGoesOut(s, e) {
      assert s'.requests[e.g] == RequestOf(s, e);
      assert Issued(s', RequestOf(s, e));
    }
  }

  lemma UpStep(s: State, e: Event)
    requires OutboxInv(s) && UpInv(s) && Grows(s, After(s, e))
    ensures UpInv(After(s, e))
  {
    WireFactsStay(s, After(s, e));
  }

  lemma DownStep(s: State, e: Event)
    requires ExecutedInv(s) && DownInv(s) && Enabled(s, e) && Grows(s, After(s, e))
    ensures DownInv(After(s, e))
  {
    WireFactsStay(s, After(s, e));
    if e.Reply? {
      ReplyIsValid(s, e.k);
    }
  }

  lemma ReplyIsValid(s: State, k: nat)
    requires ExecutedInv(s) && k < |s.executed|
    ensures s.executed[k].request.Request? && ValidMessage(ReplyOf(s.executed[k])) && IsReply(s, ReplyOf(s.executed[k]))
  {
    var x := s.executed[k];
    assert Genuine(s, x);
    AnswerIsReadBack(x.methods, x.request.id, x.request.name, x.request.params, []);
  }

  lemma ExecutedStep(s: State, e: Event)
    requires UpInv(s) && ExecutedInv(s) && Enabled(s, e) && Grows(s, After(s, e))
    ensures ExecutedInv(After(s, e))
  {
    WireFactsStay(s, After(s, e));
    if e.Execute? {
      ArrivesOnlyIfSent(s.links[e.link].up, e.arrived, e.position, e.request);
      assert Sent(s, s.links[e.link].up[e.position]);
    }
  }

  /** A response that arrives is the reply of an execution. */
  lemma ReceivedIsExplained(s: State, e: Event)
    requires DownInv(s) && Enabled(s, e) && e.Receive?
    ensures Explained(s, e.response.id, e.response.result)
  {
    var down := s.links[e.link].down;
    ArrivesOnlyIfSent(down, e.arrived, e.position, e.response);
    assert IsReply(s, down[e.position]);
    var k :| 0 <= k < |s.executed| && s.executed[k].request.Request? && down[e.position] == ReplyOf(s.executed[k]);
    assert Explains(s.executed[k], e.response.id, e.response.result);
  }

  ghost predicate HasResult(calls: CallLists.Calls, g: nat, r: CallResult) {
    g in calls.futures && calls.futures[g] == Some(CallLists.Result(r))
  }

  /** A result in a future was there before, or comes with the response received now. */
  lemma ResultOrigin(calls: CallLists.Calls, e: Event, g: nat, r: CallResult)
    requires CallLists.Inv(calls) && HasResult(CallsAfter(calls, e), g, r)
    ensures HasResult(calls, g, r)
         || (e.Receive? && e.response == Response(CallLists.IdOf(calls, g), r))
  {
    match e
    case Receive(_, _, _, Response(id, result)) => CallLists.ResolveChanges(calls, id, CallLists.Result(result), g);
    case Expire(id) => CallLists.ResolveChanges(calls, id, CallLists.TimedOut, g);
    case _ =>
  }

  lemma ResultIsExplained(s: State, e: Event, g: nat, r: CallResult)
    requires CallLists.Inv(s.calls) && DownInv(s) && OutcomesInv(s) && Enabled(s, e)
    requires HasResult(CallsAfter(s.calls, e), g, r)
    ensures Explained(s, CallLists.IdOf(s.calls, g), r)
  {
    ResultOrigin(s.calls, e, g, r);
    if !HasResult(s.calls, g, r) {
      ReceivedIsExplained(s, e);
    }
  }

  lemma FirstIdStays(calls: CallLists.Calls, e: Event, g: nat)
    requires CallsAfter(calls, e).firstId == calls.firstId
    ensures CallLists.IdOf(CallsAfter(calls, e), g) == CallLists.IdOf(calls, g)
  {
  }

  lemma OutcomeStep(s: State, e: Event, g: nat, r: CallResult)
    requires CallLists.Inv(s.calls) && DownInv(s) && OutcomesInv(s) && Enabled(s, e) && Grows(s, After(s, e))
    requires HasResult(CallsAfter(s.calls, e), g, r)
    ensures Explained(After(s, e), CallLists.IdOf(CallsAfter(s.calls, e), g), r)
  {
    ResultIsExplained(s, e, g, r);
    FirstIdStays(s.calls, e, g);
    ExplainedStays(s, After(s, e), CallLists.IdOf(s.calls, g), r);
  }

  lemma OutcomesStep(s: State, e: Event)
    requires CallLists.Inv(s.calls) && DownInv(s) && OutcomesInv(s) && Enabled(s, e) && Grows(s, After(s, e))
    ensures OutcomesInv(After(s, e))
  {
    var s' := After(s, e);
    forall g, r | HasResult(s'.calls, g, r)
      ensures Explained(s', CallLists.IdOf(s'.calls, g), r)
    {
      OutcomeStep(s, e, g, r);
    }
  }

  lemma InvStep(s: State, e: Event)
    requires Inv(s) && Enabled(s, e)
    ensures Inv(After(s, e))
  {
    RequestsStep(s, e);
    GrowsStep(s, e);
    OutboxStep(s, e);
    UpStep(s, e);
    DownStep(s, e);
    ExecutedStep(s, e);
    OutcomesStep(s, e);
  }

  lemma {:induction false} InvAlways(run: seq<State>, i: nat)
    requires IsRun(run) && i < |run|
    ensures Inv(run[i])
  {
    if i == 0 {
      CallLists.InvAlways([run[0].calls], 0);
    } else {
      InvAlways(run, i - 1);
      assert StepAt(run, i - 1);
      var e :| Step(run[i - 1], e, run[i]);
      InvStep(run[i - 1], e);
    }
  }

  // ----- What holds in every run -----

  /** The execution `x` was of the very request of call `g`, and its answer, as it reads after the wire, is `r`. */
  ghost predicate Answers(s: State, x: Execution, g: nat, r: CallResult) {
    && g in s.requests && x.request == s.requests[g] && x.request.Request?
    && x.result == Answer(x.methods, x.request.name, x.request.params)
    && AsReceived(Response(x.request.id, x.result)).result == r
  }

  /**
    A result always comes from the execution of a request that was issued under the same id,
    by the call itself or by one a multiple of 2^32 generations away.
   */
  lemma ResultsComeFromExecutions(run: seq<State>, i: nat, g: nat, r: CallResult) returns (x: Execution, h: nat)
    requires IsRun(run) && i < |run| && HasResult(run[i].calls, g, r)
    ensures x in run[i].executed && Answers(run[i], x, h, r)
    ensures (h - g) % U32 == 0 && g < run[i].calls.generation && h < run[i].calls.generation
  {
    InvAlways(run, i);
    x, h := ResultSource(run[i], g, r);
  }

  lemma ResultSource(s: State, g: nat, r: CallResult) returns (x: Execution, h: nat)
    requires Inv(s) && HasResult(s.calls, g, r)
    ensures x in s.executed && Answers(s, x, h, r)
    ensures (h - g) % U32 == 0 && g < s.calls.generation && h < s.calls.generation
  {
    x := Explanation(s, g, r);
    h := Issuer(s, x);
    CallLists.SameId(s.calls, g, h);
    CallLists.GenerationsBelow(s.calls, g);
    CallLists.GenerationsBelow(s.calls, h);
  }

  lemma Explanation(s: State, g: nat, r: CallResult) returns (x: Execution)
    requires OutcomesInv(s) && HasResult(s.calls, g, r)
    ensures x in s.executed && Explains(x, CallLists.IdOf(s.calls, g), r)
  {
    assert Explained(s, CallLists.IdOf(s.calls, g), r);
    var k :| 0 <= k < |s.executed| && Explains(s.executed[k], CallLists.IdOf(s.calls, g), r);
    x := s.executed[k];
  }

  lemma Issuer(s: State, x: Execution) returns (h: nat)
    requires RequestsInv(s) && ExecutedInv(s) && x in s.executed
    ensures h in s.requests && s.requests[h] == x.request && h in s.calls.futures
    ensures x.request.Request? && x.request.id == CallLists.IdOf(s.calls, h)
    ensures x.result == Answer(x.methods, x.request.name, x.request.params)
  {
    assert Genuine(s, x);
    assert Issued(s, x.request);
    h :| h in s.requests && s.requests[h] == x.request;
  }

  /**
    No cross-talk: while at most 2^32 ids have been drawn, a result is that of an execution of the call's own request.
   */
  lemma NoCrossTalk(run: seq<State>, i: nat, g: nat, r: CallResult) returns (x: Execution)
    requires IsRun(run) && i < |run| && run[i].calls.generation <= U32 && HasResult(run[i].calls, g, r)
    ensures x in run[i].executed && Answers(run[i], x, g, r)
  {
    InvAlways(run, i);
    x := OwnExecution(run[i], g, r);
  }

  lemma OwnExecution(s: State, g: nat, r: CallResult) returns (x: Execution)
    requires Inv(s) && s.calls.generation <= U32 && HasResult(s.calls, g, r)
    ensures x in s.executed && Answers(s, x, g, r)
  {
    var h;
    x, h := ResultSource(s, g, r);
    NearIsSame(g, h);
  }

  lemma NearIsSame(g: nat, h: nat)
    requires g < U32 && h < U32 && (h - g) % U32 == 0
    ensures g == h
  {
  }
}
