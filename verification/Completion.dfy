/**
  What the whole system has achieved when it comes to rest: every call whose request reached a live server has timed
  out or holds the answer to that request.
 */
module Completion {
  import opened Wrappers
  import opened Bytes
  import opened Msgpack
  import opened Messages
  import opened Methods
  import opened Links
  import opened Composition

  lemma RequestWasRun(f: Full, c: nat, p: nat)
    requires LinksOk(f) && c < |f.links| && f.links[c].up.coming == [] && f.links[c].waiting == {}
    requires var ix := SentOn(f.client.log, c); p < |ix| && ix[p] < |f.outbox| && f.outbox[ix[p]].Request?
    ensures WasRun(f.executed, c, p)
  {
    assert LinkAt(f, c);
    AllRequestsDelivered(f.links[c].up, Pick(f.outbox, SentOn(f.client.log, c)), p);
    assert IsRequestAt(f.links[c].up.stream.messages, p);
  }

  /** When a server has read everything and its executor is empty, every request transmitted to it was executed. */
  lemma AllExecutedWhenRead(run: seq<Full>, i: nat, c: nat, p: nat) returns (k: nat)
    requires IsRun(run) && i < |run| && c < |run[i].links|
    requires run[i].links[c].up.coming == [] && run[i].links[c].waiting == {}
    requires var ix := SentOn(run[i].client.log, c);
             p < |ix| && ix[p] < |run[i].outbox| && run[i].outbox[ix[p]].Request?
    ensures k < |run[i].executed|
    ensures var f, x := run[i], run[i].executed[k];
            x.link == c && x.position == p && x.request == f.outbox[SentOn(f.client.log, c)[p]]
  {
    var f := run[i];
    InvAlways(run, i);
    RequestWasRun(f, c, p);
    k :| 0 <= k < |f.executed| && f.executed[k].link == c && f.executed[k].position == p;
    ExecutedIsPushed(f, k);
  }

  // ----- Handled responses leave no entry -----

  /** No call is pending under the id of the `j`-th message read on a connection, if that is a response. */
  ghost predicate GoneAt(f: Full, c: nat, j: nat)
    requires c < |f.links| && j < |f.links[c].down.stream.messages|
  {
    var m := f.links[c].down.stream.messages[j];
    m.Response? ==> m.id !in f.calls.list
  }

  /** While ids are not reused, what was handled leaves no entry. */
  ghost predicate HandledGone(f: Full) {
    f.calls.generation <= U32 ==>
      forall c: nat, j: nat ::
        c < |f.links| && j < f.links[c].handled && j < |f.links[c].down.stream.messages| ==> GoneAt(f, c, j)
  }

  /** A response that was read answers a call that was made. */
  lemma ReadIdIssued(f: Full, c: nat, j: nat) returns (h: nat)
    requires Inv(f) && c < |f.links| && j < |f.links[c].down.stream.messages|
    requires f.links[c].down.stream.messages[j].Response?
    ensures h in f.requests && h in f.calls.futures
    ensures CallLists.IdOf(f.calls, h) == f.links[c].down.stream.messages[j].id
  {
    var s, m := Abs(f), f.links[c].down.stream.messages[j];
    UnderstoodHasArrived(f, c, j);
    Rpc.ReceivedIsExplained(s, Rpc.Receive(c, |f.links[c].down.read|, j, m));
    var k :| 0 <= k < |s.executed| && Rpc.Explains(s.executed[k], m.id, m.result);
    h := Rpc.Issuer(s, s.executed[k]);
  }

  lemma DifferentIds(calls: CallLists.Calls, g: nat, h: nat)
    requires CallLists.Inv(calls) && calls.generation <= U32 && g in calls.drawn && h in calls.futures
    ensures CallLists.IdOf(calls, g) != CallLists.IdOf(calls, h)
  {
    CallLists.GenerationsBelow(calls, g);
    CallLists.GenerationsBelow(calls, h);
    if CallLists.IdOf(calls, g) == CallLists.IdOf(calls, h) {
      CallLists.SameId(calls, g, h);
      Rpc.NearIsSame(g, h);
    }
  }

  /** Only registering adds an entry, and only under the id of its own call. */
  lemma EntriesAfter(f: Full, e: Event, id: nat)
    requires Enabled(f, e) && id in After(f, e).calls.list
    ensures id in f.calls.list || (e.Call? && id == CallLists.IdOf(f.calls, e.g))
    ensures f.calls.generation <= After(f, e).calls.generation
  {
  }

  /** What was read before, and stays read. */
  lemma GoneStays(f: Full, e: Event, c: nat, j: nat)
    requires Inv(f) && Enabled(f, e) && f.calls.generation <= U32
    requires c < |f.links| && j < |f.links[c].down.stream.messages| && GoneAt(f, c, j)
    requires c < |After(f, e).links| && j < |After(f, e).links[c].down.stream.messages|
    requires After(f, e).links[c].down.stream.messages[j] == f.links[c].down.stream.messages[j]
    ensures GoneAt(After(f, e), c, j)
  {
    var m := f.links[c].down.stream.messages[j];
    if m.Response? && m.id in After(f, e).calls.list {
      EntriesAfter(f, e, m.id);
      var h := ReadIdIssued(f, c, j);
      DifferentIds(f.calls, e.g, h);
    }
  }

  lemma HandledLeaves(f: Full, c: nat)
    requires CallLists.Inv(f.calls) && Enabled(f, Handle(c))
    ensures GoneAt(After(f, Handle(c)), c, f.links[c].handled)
  {
    var m := f.links[c].down.stream.messages[f.links[c].handled];
    if m.Response? && m.id in f.calls.list {
      CallLists.EntryIsUnset(f.calls, m.id);
    }
  }

  /**
    What a step does to what a client has read and handled: a new connection has nothing, `Handle` handles one more.
   */
  lemma HandledAfter(f: Full, e: Event, c: nat)
    requires Enabled(f, e) && c < |After(f, e).links|
    ensures var l' := After(f, e).links[c];
            if c < |f.links| then
              && f.links[c].down.stream.messages <= l'.down.stream.messages
              && l'.handled == f.links[c].handled + if e == Handle(c) then 1 else 0
            else l'.handled == 0
  {
    if e.ReadDown? {
      TakeDelivers(f.links[e.link].down, e.n);
    }
  }

  lemma HandledGoneStep(f: Full, e: Event)
    requires Inv(f) && Enabled(f, e) && HandledGone(f)
    ensures HandledGone(After(f, e))
  {
    var f' := After(f, e);
    if f'.calls.generation <= U32 {
      forall c: nat, j: nat | c < |f'.links| && j < f'.links[c].handled && j < |f'.links[c].down.stream.messages|
        ensures GoneAt(f', c, j)
      {
        HandledOneGone(f, e, c, j);
      }
    }
  }

  /** What was handled after a step was handled before, or is handled by it; and it had been read before. */
  lemma HandledBefore(f: Full, e: Event, c: nat, j: nat)
    requires LinksOk(f) && Enabled(f, e) && c < |After(f, e).links| && j < After(f, e).links[c].handled
    requires j < |After(f, e).links[c].down.stream.messages|
    ensures c < |f.links| && j < |f.links[c].down.stream.messages|
    ensures After(f, e).links[c].down.stream.messages[j] == f.links[c].down.stream.messages[j]
    ensures j < f.links[c].handled || (e == Handle(c) && j == f.links[c].handled)
  {
    HandledAfter(f, e, c);
    if c < |f.links| {
      HandledWasRead(f, c);
    }
  }

  lemma HandledWasRead(f: Full, c: nat)
    requires LinksOk(f) && c < |f.links|
    ensures f.links[c].handled <= |f.links[c].down.stream.messages|
  {
    assert LinkAt(f, c);
  }

  lemma HandledOneGone(f: Full, e: Event, c: nat, j: nat)
    requires Inv(f) && Enabled(f, e) && HandledGone(f) && After(f, e).calls.generation <= U32
    requires c < |After(f, e).links| && j < After(f, e).links[c].handled
    requires j < |After(f, e).links[c].down.stream.messages|
    ensures GoneAt(After(f, e), c, j)
  {
    HandledBefore(f, e, c, j);
    if j < f.links[c].handled {
      GenerationGrows(f, e);
      assert GoneAt(f, c, j);
      GoneStays(f, e, c, j);
    } else {
      HandledLeaves(f, c);
    }
  }

  lemma GenerationGrows(f: Full, e: Event)
    requires Enabled(f, e)
    ensures f.calls.generation <= After(f, e).calls.generation
  {
  }

  lemma {:induction false} HandledGoneAlways(run: seq<Full>, i: nat)
    requires IsRun(run) && i < |run|
    ensures HandledGone(run[i])
  {
    if i > 0 {
      HandledGoneAlways(run, i - 1);
      InvAlways(run, i - 1);
      assert StepAt(run, i - 1);
      var e :| Step(run[i - 1], e, run[i]);
      HandledGoneStep(run[i - 1], e);
    }
  }

  // ----- Everything at rest -----

  /** Nothing is on its way, posted or unhandled, and the connection is live. */
  ghost predicate LinkAtRest(l: Link) {
    && l.up.coming == [] && l.waiting == {} && SenderAtRest(l.server)
    && l.down.coming == [] && l.handled == |l.down.stream.messages|
  }

  /** The reply of an execution has been read, if everything has. */
  lemma ReplyWasRead(f: Full, c: nat, k: nat) returns (n: nat)
    requires Inv(f) && c < |f.links| && LinkAtRest(f.links[c])
    requires k < |f.executed| && f.executed[k].link == c && f.executed[k].request.Request?
    ensures n < |f.links[c].down.stream.messages|
    ensures f.links[c].down.stream.messages[n] == AsReceived(Rpc.ReplyOf(f.executed[k]))
  {
    var l, replies := f.links[c], RepliesOn(f.executed, c);
    n := ReplyIndex(f.executed, c, k);
    assert LinkAt(f, c);
    RepliesValid(Abs(f), c);
    AtRest(l.server, AllBytes(l.down), replies);
    ReaderUnderstands(l.down, replies);
  }

  // ----- What resolved a call -----

  ghost predicate Waiting(calls: CallLists.Calls, g: nat) {
    g in calls.futures && calls.futures[g] == None
  }

  ghost predicate HasTimedOut(calls: CallLists.Calls, g: nat) {
    g in calls.futures && calls.futures[g] == Some(CallLists.TimedOut)
  }

  /** The timeout under the id of the call runs out while the call is still waiting. */
  ghost predicate TimesOutAt(run: seq<Full>, k: nat, g: nat)
    requires k + 1 < |run|
  {
    Waiting(run[k].calls, g) && Step(run[k], Expire(CallLists.IdOf(run[k].calls, g)), run[k + 1])
  }

  ghost predicate TimedOutBefore(run: seq<Full>, i: nat, g: nat)
    requires i < |run|
  {
    exists k: nat :: k < i && TimesOutAt(run, k, g)
  }

  lemma ResolveTimesOut(calls: CallLists.Calls, id: nat, o: CallLists.Outcome, g: nat)
    requires CallLists.Inv(calls)
    ensures HasTimedOut(CallLists.Resolve(calls, id, o), g) <==>
            HasTimedOut(calls, g) || (o == CallLists.TimedOut && id == CallLists.IdOf(calls, g) && Waiting(calls, g))
  {
    if id in calls.list {
      CallLists.EntryIsUnset(calls, id);
    }
    if Waiting(calls, g) {
      assert CallLists.Pending(calls, g);
    }
  }

  lemma TimeoutStep(f: Full, e: Event, g: nat)
    requires Inv(f) && Enabled(f, e)
    ensures HasTimedOut(After(f, e).calls, g) <==>
            HasTimedOut(f.calls, g) || (e == Expire(CallLists.IdOf(f.calls, g)) && Waiting(f.calls, g))
  {
    match e
    case Draw =>
    case Call(h, _, _) => CallLists.GenerationsBelow(f.calls, h);
    case Handle(c) => HandleTimesNothingOut(f.calls, f.links[c].down.stream.messages[f.links[c].handled], g);
    case Expire(id) => ResolveTimesOut(f.calls, id, CallLists.TimedOut, g);
    case _ => OthersKeepCalls(f, e);
  }

  lemma HandleTimesNothingOut(calls: CallLists.Calls, m: Message, g: nat)
    requires CallLists.Inv(calls)
    ensures HasTimedOut(CallsAfterHandle(calls, m), g) <==> HasTimedOut(calls, g)
  {
    if m.Response? {
      ResolveTimesOut(calls, m.id, CallLists.Result(m.result), g);
    }
  }

  lemma OthersKeepCalls(f: Full, e: Event)
    requires Enabled(f, e) && !e.Draw? && !e.Call? && !e.Handle? && !e.Expire?
    ensures After(f, e).calls == f.calls
  {
  }

  lemma TimeoutBetween(f: Full, f': Full, g: nat)
    requires Inv(f) && Next(f, f')
    ensures HasTimedOut(f'.calls, g) <==>
            HasTimedOut(f.calls, g) || (Waiting(f.calls, g) && Step(f, Expire(CallLists.IdOf(f.calls, g)), f'))
  {
    var e :| Step(f, e, f');
    TimeoutStep(f, e, g);
    TimeoutStep(f, Expire(CallLists.IdOf(f.calls, g)), g);
  }

  lemma BeforeGrows(run: seq<Full>, i: nat, g: nat)
    requires i + 1 < |run|
    ensures TimedOutBefore(run, i + 1, g) <==> TimedOutBefore(run, i, g) || TimesOutAt(run, i, g)
  {
    if TimesOutAt(run, i, g) {
      assert TimedOutBefore(run, i + 1, g);
    }
  }

  /** A call has timed out if and only if the timeout under its id ran out while it was waiting. */
  lemma {:induction false} TimedOutIff(run: seq<Full>, i: nat, g: nat)
    requires IsRun(run) && i < |run|
    ensures HasTimedOut(run[i].calls, g) <==> TimedOutBefore(run, i, g)
  {
    if i > 0 {
      TimedOutIff(run, i - 1, g);
      InvAlways(run, i - 1);
      assert StepAt(run, i - 1);
      TimeoutBetween(run[i - 1], run[i], g);
      BeforeGrows(run, i - 1, g);
    }
  }

  /** The future of the call holds what its own request, when executed, was answered with. */
  ghost predicate HasOwnAnswer(f: Full, g: nat) {
    exists k: nat, r :: k < |f.executed| && Rpc.HasResult(f.calls, g, r) && Rpc.Answers(Abs(f), f.executed[k], g, r)
  }

  /**
    While ids are not reused: when a live connection has come to rest, every call whose request was transmitted on it
    has been resolved: by a timeout if that ran out before an answer was handled, and else by the answer to its own
    request.
   */
  lemma TransmittedCallsAreResolved(run: seq<Full>, i: nat, c: nat, p: nat, g: nat)
    requires IsRun(run) && i < |run| && run[i].calls.generation <= U32
    requires c < |run[i].links| && LinkAtRest(run[i].links[c])
    requires g in run[i].requests
    requires var ix := SentOn(run[i].client.log, c);
             p < |ix| && ix[p] < |run[i].outbox| && run[i].outbox[ix[p]] == run[i].requests[g]
    ensures if TimedOutBefore(run, i, g) then HasTimedOut(run[i].calls, g) else HasOwnAnswer(run[i], g)
  {
    TransmittedHasOutcome(run, i, c, p, g);
    TimedOutIff(run, i, g);
    if !TimedOutBefore(run, i, g) {
      OwnAnswer(run, i, g, run[i].calls.futures[g].value.result);
    }
  }

  lemma OwnAnswer(run: seq<Full>, i: nat, g: nat, r: CallResult)
    requires IsRun(run) && i < |run| && run[i].calls.generation <= U32 && Rpc.HasResult(run[i].calls, g, r)
    ensures HasOwnAnswer(run[i], g)
  {
    InvAlways(run, i);
    var x := Rpc.OwnExecution(Abs(run[i]), g, r);
    var k :| 0 <= k < |run[i].executed| && run[i].executed[k] == x;
    assert Rpc.Answers(Abs(run[i]), run[i].executed[k], g, r);
  }

  lemma TransmittedHasOutcome(run: seq<Full>, i: nat, c: nat, p: nat, g: nat)
    requires IsRun(run) && i < |run| && run[i].calls.generation <= U32
    requires c < |run[i].links| && LinkAtRest(run[i].links[c])
    requires g in run[i].requests
    requires var ix := SentOn(run[i].client.log, c);
             p < |ix| && ix[p] < |run[i].outbox| && run[i].outbox[ix[p]] == run[i].requests[g]
    ensures g in run[i].calls.futures && run[i].calls.futures[g].Some?
  {
    var f := run[i];
    InvAlways(run, i);
    HandledGoneAlways(run, i);
    RequestIsOfCall(f, g);
    var k := AllExecutedWhenRead(run, i, c, p);
    var n := ReplyWasRead(f, c, k);
    assert GoneAt(f, c, n);
    NoEntryMeansResolved(f.calls, g);
  }

  // ----- From the call to its answer -----

  lemma OutboxAfter(f: Full, f': Full, m: Message)
    requires Next(f, f') && m in f.outbox
    ensures m in f'.outbox
  {
    var e :| Step(f, e, f');
    assert f.outbox <= f'.outbox;
  }

  lemma {:induction false} PushedStays(run: seq<Full>, k: nat, i: nat, m: Message)
    requires IsRun(run) && k <= i < |run| && m in run[k].outbox
    ensures m in run[i].outbox
    decreases i
  {
    if k < i {
      PushedStays(run, k, i - 1, m);
      assert StepAt(run, i - 1);
      OutboxAfter(run[i - 1], run[i], m);
    }
  }

  /** A notification is given to the sender with its own name and parameters. */
  lemma NotificationsArePushed(run: seq<Full>, k: nat, i: nat, name: bytes, params: seq<Value>)
    requires IsRun(run) && k < i < |run| && Step(run[k], Notify(name, params), run[k + 1])
    ensures Notification(name, params) in run[i].outbox
  {
    PushedStays(run, k + 1, i, Notification(name, params));
  }

  /**
    A call, unless its id is taken, issues the request with its own id, name and parameters, which never changes, and
    gives it to the sender.
   */
  lemma {:induction false} CallsAreRequested(
    run: seq<Full>, k: nat, i: nat, g: nat, name: bytes, params: seq<Value>)
    requires IsRun(run) && k < i < |run| && Step(run[k], Call(g, name, params), run[k + 1])
    requires CallLists.IdOf(run[k].calls, g) !in run[k].calls.list
    ensures g in run[i].requests
    ensures run[i].requests[g] == Request((run[0].calls.firstId + g) % U32, name, params)
    ensures run[i].requests[g] in run[i].outbox
    decreases i
  {
    if k == i - 1 {
      FirstIdAlways(run, k);
      CallIsRequested(run[k], g, name, params);
    } else {
      CallsAreRequested(run, k, i - 1, g, name, params);
      RequestStaysAt(run, i - 1, g);
      PushedStays(run, i - 1, i, run[i].requests[g]);
    }
  }

  lemma CallIsRequested(f: Full, g: nat, name: bytes, params: seq<Value>)
    requires Enabled(f, Call(g, name, params)) && CallLists.IdOf(f.calls, g) !in f.calls.list
    ensures var f' := After(f, Call(g, name, params));
            && g in f'.requests && f'.requests[g] == Request((f.calls.firstId + g) % U32, name, params)
            && f'.requests[g] in f'.outbox
  {
  }

  lemma RequestStays(f: Full, f': Full, g: nat)
    requires Inv(f) && Next(f, f') && g in f.requests
    ensures g in f'.requests && f'.requests[g] == f.requests[g]
  {
    var e :| Step(f, e, f');
    if e.Call? {
      CallLists.GenerationsBelow(f.calls, e.g);
      assert Rpc.RequestsInv(Abs(f));
    }
  }

  lemma RequestStaysAt(run: seq<Full>, i: nat, g: nat)
    requires IsRun(run) && i + 1 < |run| && g in run[i].requests
    ensures g in run[i + 1].requests && run[i + 1].requests[g] == run[i].requests[g]
  {
    InvAlways(run, i);
    assert StepAt(run, i);
    RequestStays(run[i], run[i + 1], g);
  }

  lemma {:induction false} FirstIdAlways(run: seq<Full>, i: nat)
    requires IsRun(run) && i < |run|
    ensures run[i].calls.firstId == run[0].calls.firstId
  {
    if i > 0 {
      FirstIdAlways(run, i - 1);
      assert StepAt(run, i - 1);
      var e :| Step(run[i - 1], e, run[i]);
    }
  }

  lemma {:induction false} LoggedIsSent(log: seq<C.Transmission>, a: nat) returns (p: nat)
    requires a < |log|
    ensures p < |SentOn(log, log[a].connection)| && SentOn(log, log[a].connection)[p] == log[a].index
  {
    if a == |log| - 1 {
      p := |SentOn(log, log[a].connection)| - 1;
    } else {
      p := LoggedIsSent(log[..|log| - 1], a);
    }
  }

  /** What was pushed to a client that has sent everything was transmitted on one of its connections. */
  lemma PushedWasTransmitted(f: Full, n: nat) returns (c: nat, p: nat)
    requires C.Inv(f.client) && Coupled(f) && f.client.queue == [] && n < |f.outbox|
    ensures c < |f.links| && p < |SentOn(f.client.log, c)| && SentOn(f.client.log, c)[p] == n
  {
    var top := |f.client.log| - 1;
    var a := C.FindTransmission(f.client, n, top);
    if a < top {
      C.LogOrder(f.client, a, top);
    }
    c := f.client.log[a].connection;
    p := LoggedIsSent(f.client.log, a);
  }

  /** The execution was of a request with this id, name and parameters, and `r` is what the caller reads of it. */
  ghost predicate AnswersCall(x: Rpc.Execution, id: nat, name: bytes, params: seq<Value>, r: CallResult) {
    x.request == Request(id, name, params) && ReadsBack(r, x.methods, name, params)
  }

  ghost predicate CallAnswered(f: Full, g: nat, name: bytes, params: seq<Value>) {
    exists k: nat, r ::
      && k < |f.executed| && Rpc.HasResult(f.calls, g, r)
      && AnswersCall(f.executed[k], CallLists.IdOf(f.calls, g), name, params, r)
  }

  /**
    From one end to the other, while ids are not reused: when the client has sent everything and its connections are
    live and at rest, a call made with a name and parameters has timed out, if its timeout ran out while it was waiting,
    and else holds the answer of an execution of the method of that name on those parameters.
   */
  lemma CallsAreAnswered(run: seq<Full>, k: nat, i: nat, g: nat, name: bytes, params: seq<Value>)
    requires IsRun(run) && k < i < |run| && Step(run[k], Call(g, name, params), run[k + 1])
    requires CallLists.IdOf(run[k].calls, g) !in run[k].calls.list && run[i].calls.generation <= U32
    requires run[i].client.queue == [] && forall c: nat :: c < |run[i].links| ==> LinkAtRest(run[i].links[c])
    ensures if TimedOutBefore(run, i, g) then HasTimedOut(run[i].calls, g) else CallAnswered(run[i], g, name, params)
  {
    CallsAreRequested(run, k, i, g, name, params);
    var n: nat :| n < |run[i].outbox| && run[i].outbox[n] == run[i].requests[g];
    InvAlways(run, i);
    var c, p := PushedWasTransmitted(run[i], n);
    TransmittedCallsAreResolved(run, i, c, p, g);
    if !TimedOutBefore(run, i, g) {
      RequestIsOfCall(run[i], g);
      OwnAnswerIsCallAnswered(run[i], g, name, params);
    }
  }

  lemma OwnAnswerIsCallAnswered(f: Full, g: nat, name: bytes, params: seq<Value>)
    requires g in f.requests && f.requests[g] == Request(CallLists.IdOf(f.calls, g), name, params)
    requires Rpc.ExecutedInv(Abs(f)) && HasOwnAnswer(f, g)
    ensures CallAnswered(f, g, name, params)
  {
    var k: nat, r :|
      k < |f.executed| && Rpc.HasResult(f.calls, g, r) && Rpc.Answers(Abs(f), f.executed[k], g, r);
    assert Rpc.Genuine(Abs(f), f.executed[k]);
    AnswerIsReadBack(f.executed[k].methods, CallLists.IdOf(f.calls, g), name, params, []);
    assert AnswersCall(f.executed[k], CallLists.IdOf(f.calls, g), name, params, r);
  }

  lemma RequestIsOfCall(f: Full, g: nat)
    requires Rpc.Inv(Abs(f)) && g in f.requests
    ensures f.requests[g].Request? && f.requests[g].id == CallLists.IdOf(f.calls, g) && g in f.calls.futures
  {
    assert Rpc.RequestsInv(Abs(f));
  }

  lemma NoEntryMeansResolved(calls: CallLists.Calls, g: nat)
    requires CallLists.Inv(calls) && g in calls.futures && CallLists.IdOf(calls, g) !in calls.list
    ensures calls.futures[g].Some?
  {
    assert !CallLists.Pending(calls, g);
  }
}
