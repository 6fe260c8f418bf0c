/** The bound of 2^32 ids is exact: one more, and a late response can resolve a call it does not belong to. */
module RpcWrap {
  import opened Wrappers
  import opened Bytes
  import opened Msgpack
  import opened Messages
  import opened Framing
  import opened Methods
  import opened Rpc

  lemma Extend(run: seq<State>, e: Event) returns (longer: seq<State>)
    requires IsRun(run) && Enabled(run[|run| - 1], e)
    ensures IsRun(longer) && longer[|longer| - 1] == After(run[|run| - 1], e)
  {
    longer := run + [After(run[|run| - 1], e)];
    forall i: nat | i + 1 < |longer|
      ensures StepAt(longer, i)
    {
      if i + 1 < |run| {
        assert StepAt(run, i);
      } else {
        assert Step(longer[i], e, longer[i + 1]);
      }
    }
  }

  lemma ArrivesWhole(m: Message)
    requires ValidMessage(m)
    ensures AllValid([m]) && Arrives([m], |SerializeAll([m])|, 0, AsReceived(m))
  {
    var s := SerializeAll([m]);
    ReadSerialized([m], []);
    assert s + [] == s == s[..|s|];
  }

  /** Call 0, of method `a`, has been sent. */
  lemma FirstCall(a: bytes) returns (run: seq<State>)
    requires |a| <= MAX_TEXT
    ensures IsRun(run)
    ensures run[|run| - 1] == Around(a, PENDING, [], [])
  {
    run := [State(CallLists.Calls(0, 0, {}, map[], map[], []), map[], [], [], [])];
    run := Extend(run, Draw);
    run := Extend(run, Call(0, a, []));
    assert run[|run| - 1].outbox == [Request(0, a, [])];
    run := Extend(run, Connect);
    assert run[|run| - 1].links == [Link([], [])];
    run := Extend(run, Transmit(0, 0));
    assert [] + [Request(0, a, [])] == [Request(0, a, [])];
  }

  function Late(a: bytes): CallResult {
    Failed(Str(NotFoundText(a)))
  }

  /** The state after the first call was sent, with the given calls, replies and executions. */
  function Around(a: bytes, calls: CallLists.Calls, down: seq<Message>, executed: seq<Execution>): State {
    State(calls, map[0 := Request(0, a, [])], [Request(0, a, [])], [Link([Request(0, a, [])], down)], executed)
  }

  function FirstExecution(a: bytes): Execution {
    Execution(0, 0, Request(0, a, []), map[], Late(a))
  }

  const PENDING := CallLists.Calls(0, 1, {}, map[0 := 0], map[0 := None], [])
  const TIMED_OUT := CallLists.Calls(0, 1, {}, map[], map[0 := Some(CallLists.TimedOut)], [(0, CallLists.TimedOut)])

  /** A server without methods executes it. */
  lemma ExecuteIt(a: bytes) returns (e: Event)
    requires |a| <= MAX_TEXT
    ensures Enabled(Around(a, PENDING, [], []), e)
    ensures After(Around(a, PENDING, [], []), e) == Around(a, PENDING, [], [FirstExecution(a)])
  {
    var request := Request(0, a, []);
    ArrivesWhole(request);
    e := Execute(0, |SerializeAll([request])|, 0, request, map[]);
  }

  lemma ReplyToIt(a: bytes)
    ensures After(Around(a, PENDING, [], [FirstExecution(a)]), Reply(0))
            == Around(a, PENDING, [Response(0, Late(a))], [FirstExecution(a)])
  {
    var s := Around(a, PENDING, [], [FirstExecution(a)]);
    assert [] + [Response(0, Late(a))] == [Response(0, Late(a))];
    var l := Link([Request(0, a, [])], [Response(0, Late(a))]);
    assert s.links[0 := l] == [l];
  }

  lemma FirstCallExpires(a: bytes, down: seq<Message>, executed: seq<Execution>)
    ensures After(Around(a, PENDING, down, executed), Expire(0)) == Around(a, TIMED_OUT, down, executed)
  {
    assert CallLists.After(PENDING, CallLists.Expire(0)) == TIMED_OUT;
    assert executed + [] == executed;
  }

  /** It times out with the response on the way. */
  lemma FirstCallTimesOut(a: bytes) returns (run: seq<State>)
    requires |a| <= MAX_TEXT
    ensures IsRun(run)
    ensures run[|run| - 1] == Around(a, TIMED_OUT, [Response(0, Late(a))], [FirstExecution(a)])
  {
    run := FirstCall(a);
    var e := ExecuteIt(a);
    run := Extend(run, e);
    ReplyToIt(a);
    run := Extend(run, Reply(0));
    FirstCallExpires(a, [Response(0, Late(a))], [FirstExecution(a)]);
    run := Extend(run, Expire(0));
  }

  /** No call is pending, and the response to the first call is still on its way. */
  ghost predicate LateOnTheWay(s: State, a: bytes) {
    && s.calls.firstId == 0 && s.calls.list == map[] && s.calls.drawn == {}
    && s.executed == [FirstExecution(a)]
    && |s.links| == 1 && s.links[0].down == [Response(0, Late(a))]
  }

  /** A call is drawn and registered. */
  lemma CallIt(run: seq<State>, b: bytes, a: bytes) returns (longer: seq<State>)
    requires IsRun(run) && LateOnTheWay(run[|run| - 1], a) && |b| <= MAX_TEXT
    ensures IsRun(longer)
    ensures var s, s' := run[|run| - 1], longer[|longer| - 1];
            var g := s.calls.generation;
            && s'.calls.firstId == 0 && s'.calls.generation == g + 1 && s'.calls.drawn == {}
            && s'.calls.list == map[g % U32 := g] && g in s'.calls.futures && s'.calls.futures[g] == None
            && g in s'.requests && s'.requests[g] == Request(g % U32, b, [])
            && s'.executed == s.executed && s'.links == s.links
  {
    var g := run[|run| - 1].calls.generation;
    longer := Extend(run, Draw);
    var s := longer[|longer| - 1];
    assert s.calls.drawn == {g} && s.calls.list == map[];
    longer := Extend(longer, Call(g, b, []));
    assert s.executed + [] == s.executed;
  }

  /** It times out. */
  lemma CallTimesOut(run: seq<State>, b: bytes, a: bytes) returns (longer: seq<State>)
    requires IsRun(run) && LateOnTheWay(run[|run| - 1], a) && |b| <= MAX_TEXT
    ensures IsRun(longer) && LateOnTheWay(longer[|longer| - 1], a)
    ensures longer[|longer| - 1].calls.generation == run[|run| - 1].calls.generation + 1
  {
    var g := run[|run| - 1].calls.generation;
    longer := CallIt(run, b, a);
    var s := longer[|longer| - 1];
    assert s.calls.list - {g % U32} == map[];
    longer := Extend(longer, Expire(g % U32));
    assert s.executed + [] == s.executed;
  }

  lemma {:induction false} ManyCallsTimeOut(run: seq<State>, n: nat, b: bytes, a: bytes) returns (longer: seq<State>)
    requires IsRun(run) && LateOnTheWay(run[|run| - 1], a) && |b| <= MAX_TEXT
    ensures IsRun(longer) && LateOnTheWay(longer[|longer| - 1], a)
    ensures longer[|longer| - 1].calls.generation == run[|run| - 1].calls.generation + n
  {
    if n == 0 {
      return run;
    }
    longer := ManyCallsTimeOut(run, n - 1, b, a);
    longer := CallTimesOut(longer, b, a);
  }

  /** All ids have been used, and no call is pending. */
  lemma AllIdsUsed(a: bytes, b: bytes) returns (run: seq<State>)
    requires |a| <= MAX_TEXT && |b| <= MAX_TEXT
    ensures IsRun(run) && LateOnTheWay(run[|run| - 1], a) && run[|run| - 1].calls.generation == U32
  {
    run := FirstCallTimesOut(a);
    run := ManyCallsTimeOut(run, U32 - 1, b, a);
  }

  /** One more call is pending, under the id of the first one. */
  lemma WrappedCall(a: bytes, b: bytes) returns (run: seq<State>)
    requires |a| <= MAX_TEXT && |b| <= MAX_TEXT
    ensures IsRun(run)
    ensures var s := run[|run| - 1];
            && s.calls.generation == U32 + 1 && s.calls.list == map[0 := U32]
            && U32 in s.calls.futures && s.calls.futures[U32] == None
            && U32 in s.requests && s.requests[U32] == Request(0, b, [])
            && s.executed == [FirstExecution(a)]
            && |s.links| == 1 && s.links[0].down == [Response(0, Late(a))]
  {
    run := AllIdsUsed(a, b);
    run := CallIt(run, b, a);
    assert U32 % U32 == 0;
  }

  lemma LateResponseArrives(s: State, a: bytes) returns (e: Event)
    requires |a| <= MAX_TEXT && |s.links| == 1 && s.links[0].down == [Response(0, Late(a))]
    ensures Enabled(s, e) && e.Receive? && e.response == Response(0, Late(a))
  {
    var response := Response(0, Late(a));
    AnswerIsReadBack(map[], 0, a, [], []);
    ArrivesWhole(response);
    e := Receive(0, |SerializeAll([response])|, 0, response);
  }

  lemma LateResponseResolves(c: CallLists.Calls, e: Event, r: CallResult)
    requires c.list == map[0 := U32] && U32 in c.futures && c.futures[U32] == None
    requires e.Receive? && e.response == Response(0, r)
    ensures HasResult(CallsAfter(c, e), U32, r) && CallsAfter(c, e).generation == c.generation
  {
  }

  /**
    A call is executed and times out, as do 2^32 - 1 others after it; then its response, still on the way, resolves
    the next one.
   */
  lemma CrossTalkAfterWrap(a: bytes, b: bytes) returns (run: seq<State>)
    requires |a| <= MAX_TEXT && |b| <= MAX_TEXT && a != b
    ensures IsRun(run)
    ensures var s := run[|run| - 1];
            && s.calls.generation == U32 + 1
            && U32 in s.requests && s.requests[U32] == Request(0, b, [])
            && HasResult(s.calls, U32, Late(a))
            && (forall x :: x in s.executed ==> x.request == Request(0, a, []))
  {
    run := WrappedCall(a, b);
    var s := run[|run| - 1];
    var e := LateResponseArrives(s, a);
    LateResponseResolves(s.calls, e, Late(a));
    run := Extend(run, e);
  }

  /** The result is the answer of an execution of the call's own request. */
  ghost predicate Own(s: State, g: nat, r: CallResult) {
    exists x :: x in s.executed && Answers(s, x, g, r)
  }

  ghost predicate CrossTalkFree(run: seq<State>, n: nat) {
    forall i: nat, g: nat, r: CallResult ::
      i < |run| && run[i].calls.generation <= n && HasResult(run[i].calls, g, r) ==> Own(run[i], g, r)
  }

  /** With `n` ids drawn no run has cross-talk, exactly as long as `n` is at most 2^32. */
  lemma CrossTalkFreeIff(n: nat)
    ensures (forall run :: IsRun(run) ==> CrossTalkFree(run, n)) <==> n <= U32
  {
    if n <= U32 {
      forall run | IsRun(run)
        ensures CrossTalkFree(run, n)
      {
        FewIdsNoCrossTalk(run, n);
      }
    } else {
      var run := CrossTalkAfterWrap([], [0]);
      NotOwn(run[|run| - 1]);
      assert !CrossTalkFree(run, n);
    }
  }

  lemma FewIdsNoCrossTalk(run: seq<State>, n: nat)
    requires IsRun(run) && n <= U32
    ensures CrossTalkFree(run, n)
  {
    forall i: nat, g: nat, r: CallResult | i < |run| && run[i].calls.generation <= n && HasResult(run[i].calls, g, r)
      ensures Own(run[i], g, r)
    {
      var x := NoCrossTalk(run, i, g, r);
    }
  }

  lemma NotOwn(s: State)
    requires U32 in s.requests && s.requests[U32] == Request(0, [0], [])
    requires forall x :: x in s.executed ==> x.request == Request(0, [], [])
    ensures !Own(s, U32, Late([]))
  {
  }
}
