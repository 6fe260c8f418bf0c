/**
  Completions that come late. A connection whose peer closed has reported its closing and still has its socket, so a
  write that was outstanding may succeed afterwards; its handler does not look at the state, and pops and clears for
  whatever the client is doing by then. The callbacks of different connections may run on different threads.
 */
module ClientSenderLate {
  import opened Wrappers
  import opened Bytes
  import opened ClientSender

  /**
    `unfinished`: writes outstanding at the closing of their connection, by connection, and the index of the message;
    `clearing`: late callbacks that have popped and not cleared the flag yet; `underflow`: an empty queue was popped.
   */
  datatype Lagging = Lagging(s: State, unfinished: map<nat, nat>, clearing: nat, underflow: bool)

  datatype LateEvent =
    | Coarse(e: Event)
    | Abort(c: nat)      // the write fails without a callback
    | LatePop(c: nat)    // the write succeeds after all: the callback pops
    | LateClear          // and clears the flag

  const LATE_INITIAL := Lagging(INITIAL, map[], 0, false)

  predicate LateEnabled(l: Lagging, e: LateEvent) {
    match e
    case Coarse(c) => Enabled(l.s, c)
    case Abort(c) => c in l.unfinished
    case LatePop(c) => c in l.unfinished
    case LateClear => l.clearing > 0
  }

  function PopFront(s: State): State {
    if s.queue == [] then s else s.(queue := s.queue[1..], completed := s.completed + [s.queue[0]])
  }

  function LateAfter(l: Lagging, e: LateEvent): Lagging
    requires LateEnabled(l, e)
  {
    match e
    case Coarse(c) =>
      l.(s := After(l.s, c),
         unfinished :=
           if c == Close && l.s.writing != [] then l.unfinished[l.s.open.value := |l.s.completed|] else l.unfinished)
    case Abort(c) => l.(unfinished := l.unfinished - {c})
    case LatePop(c) =>
      Lagging(PopFront(l.s), l.unfinished - {c}, l.clearing + 1, l.underflow || l.s.queue == [])
    case LateClear => l.(s := l.s.(sending := false, callers := l.s.callers + 1), clearing := l.clearing - 1)
  }

  ghost predicate LateStepAt(run: seq<Lagging>, events: seq<LateEvent>, i: nat)
    requires i < |events| && i + 1 < |run|
  {
    LateEnabled(run[i], events[i]) && run[i + 1] == LateAfter(run[i], events[i])
  }

  ghost predicate IsLateRun(run: seq<Lagging>, events: seq<LateEvent>) {
    && |run| == |events| + 1 && run[0] == LATE_INITIAL
    && forall i: nat :: i < |events| ==> LateStepAt(run, events, i)
  }

  /** The view of the sender without late completions: a callback that has popped has cleared the flag as well. */
  function Abs(l: Lagging): State {
    if l.clearing == 0 then l.s else l.s.(sending := false, callers := l.s.callers + l.clearing)
  }

  predicate Sound(l: Lagging) {
    Inv(Abs(l)) && !l.underflow
  }

  /** The front was the last message to be transmitted, and is not being written now. */
  predicate FrontWasLast(s: State) {
    !InFlight(s) && s.queue != [] && s.log != [] && s.log[|s.log| - 1].index == |s.completed|
  }

  /**
    What a late completion must find when it pops: the front was the last message transmitted, and that not on a
    connection that is still writing it. And until it has cleared the flag, nobody may transmit.
   */
  predicate SafeStep(l: Lagging, e: LateEvent) {
    && (e.LatePop? ==> FrontWasLast(l.s))
    && (e == Coarse(SendNext) && l.clearing > 0 ==> !(WillTransmit(l.s) && l.s.processing))
  }

  // ----- Which steps keep the invariant -----

  lemma PoppedFlow(s: State)
    requires s.queue != [] && s.completed + s.queue == s.pushed
    ensures PopFront(s).completed + PopFront(s).queue == s.pushed
  {
    assert s.completed + s.queue == (s.completed + [s.queue[0]]) + s.queue[1..];
  }

  /** Popping and clearing at once. */
  lemma PopKeepsInvIff(s: State, callers: nat)
    requires Inv(s) && s.queue != [] && callers > s.callers
    ensures Inv(PopFront(s).(sending := false, callers := callers)) <==> FrontWasLast(s)
  {
    PoppedFlow(s);
  }

  lemma LatePopAbs(l: Lagging, c: nat)
    requires LateEnabled(l, LatePop(c)) && l.s.queue != []
    ensures Abs(LateAfter(l, LatePop(c)))
            == PopFront(Abs(l)).(sending := false, callers := l.s.callers + l.clearing + 1)
  {
  }

  lemma LatePopSoundIff(l: Lagging, c: nat)
    requires Sound(l) && LateEnabled(l, LatePop(c))
    ensures Sound(LateAfter(l, LatePop(c))) <==> FrontWasLast(l.s)
  {
    assert FrontWasLast(l.s) <==> FrontWasLast(Abs(l));
    if l.s.queue != [] {
      LatePopAbs(l, c);
      PopKeepsInvIff(Abs(l), l.s.callers + l.clearing + 1);
    }
  }

  /** While the flag is still to be cleared, a step leaves the rest as it would be with the flag clear. */
  lemma ClearingApart(s: State, n: nat, c: Event)
    requires Enabled(s, c) && c != SendNext && Inv(s.(sending := false, callers := s.callers + n)) && n > 0
    ensures var clear := s.(sending := false, callers := s.callers + n);
            Enabled(clear, c)
            && After(clear, c) == After(s, c).(sending := false, callers := After(s, c).callers + n)
  {
  }

  lemma SendNextSoundIff(l: Lagging)
    requires Sound(l) && LateEnabled(l, Coarse(SendNext)) && l.clearing > 0
    ensures Sound(LateAfter(l, Coarse(SendNext))) <==> !(WillTransmit(l.s) && l.s.processing)
  {
    var l' := LateAfter(l, Coarse(SendNext));
    if WillTransmit(l.s) && l.s.processing {
      assert Abs(l').writing != [] && !Abs(l').sending;
    } else {
      assert Abs(l') == Abs(l).(callers := Abs(l).callers - 1);
    }
  }

  lemma CoarseAbs(l: Lagging, c: Event)
    requires Sound(l) && LateEnabled(l, Coarse(c)) && (l.clearing > 0 ==> c != SendNext)
    ensures Enabled(Abs(l), c) && Abs(LateAfter(l, Coarse(c))) == After(Abs(l), c)
  {
    if l.clearing > 0 {
      ClearingApart(l.s, l.clearing, c);
    }
  }

  lemma CoarseSound(l: Lagging, c: Event)
    requires Sound(l) && LateEnabled(l, Coarse(c)) && (l.clearing > 0 ==> c != SendNext)
    ensures Sound(LateAfter(l, Coarse(c)))
  {
    CoarseAbs(l, c);
    InvStep(Abs(l), c);
  }

  /** For every state and every step: the invariant is kept if and only if the step is safe. */
  lemma StepSoundIff(l: Lagging, e: LateEvent)
    requires Sound(l) && LateEnabled(l, e)
    ensures Sound(LateAfter(l, e)) <==> SafeStep(l, e)
  {
    match e
    case Coarse(c) =>
      if c == SendNext && l.clearing > 0 {
        SendNextSoundIff(l);
      } else {
        CoarseSound(l, c);
      }
    case Abort(_) => assert Abs(LateAfter(l, e)) == Abs(l);
    case LatePop(c) => LatePopSoundIff(l, c);
    case LateClear => ClearSound(l);
  }

  lemma ClearSound(l: Lagging)
    requires Sound(l) && l.clearing > 0
    ensures Abs(LateAfter(l, LateClear)) == Abs(l)
  {
  }

  ghost predicate SafeAt(run: seq<Lagging>, events: seq<LateEvent>, i: nat)
    requires i < |events| && i < |run|
  {
    SafeStep(run[i], events[i])
  }

  lemma StepKeepsIff(run: seq<Lagging>, events: seq<LateEvent>, i: nat)
    requires IsLateRun(run, events) && i < |events| && Sound(run[i])
    ensures Sound(run[i + 1]) <==> SafeAt(run, events, i)
  {
    assert LateStepAt(run, events, i);
    StepSoundIff(run[i], events[i]);
  }

  lemma {:induction false} SafeRunsStaySound(run: seq<Lagging>, events: seq<LateEvent>, i: nat)
    requires IsLateRun(run, events) && i < |run|
    requires forall j: nat :: j < i ==> SafeAt(run, events, j)
    ensures Sound(run[i])
  {
    if i > 0 {
      SafeRunsStaySound(run, events, i - 1);
      StepKeepsIff(run, events, i - 1);
    }
  }

  /** A run keeps the invariant throughout and pops no empty queue if and only if each of its steps is safe. */
  lemma RunStaysSoundIff(run: seq<Lagging>, events: seq<LateEvent>)
    requires IsLateRun(run, events)
    ensures (forall i :: 0 <= i < |run| ==> Sound(run[i]))
            <==> (forall i: nat :: i < |events| ==> SafeAt(run, events, i))
  {
    if forall i :: 0 <= i < |run| ==> Sound(run[i]) {
      forall i: nat | i < |events|
        ensures SafeAt(run, events, i)
      {
        StepKeepsIff(run, events, i);
      }
    }
    if forall i: nat :: i < |events| ==> SafeAt(run, events, i) {
      forall i | 0 <= i < |run|
        ensures Sound(run[i])
      {
        SafeRunsStaySound(run, events, i);
      }
    }
  }

  // ----- Whose message a late completion completes -----

  predicate Transmitted(s: State, c: nat, k: nat) {
    exists a :: 0 <= a < |s.log| && s.log[a] == Transmission(c, k)
  }

  /** An unfinished write is of a message that was transmitted and has at most been completed since. */
  ghost predicate UnfinishedOk(l: Lagging) {
    forall c :: c in l.unfinished ==>
      var k := l.unfinished[c];
      k <= |l.s.completed| && k < |l.s.pushed| && Transmitted(l.s, c, k)
  }

  predicate HistoryGrows(s: State, s': State) {
    s.pushed <= s'.pushed && |s.completed| <= |s'.completed| && s.log <= s'.log
  }

  lemma TransmittedStays(s: State, s': State, c: nat, k: nat)
    requires s.log <= s'.log && Transmitted(s, c, k)
    ensures Transmitted(s', c, k)
  {
    var a :| 0 <= a < |s.log| && s.log[a] == Transmission(c, k);
    assert s'.log[a] == s.log[a];
  }

  lemma HistoryStep(l: Lagging, e: LateEvent)
    requires LateEnabled(l, e)
    ensures HistoryGrows(l.s, LateAfter(l, e).s)
  {
  }

  lemma ClosingWrite(l: Lagging)
    requires Sound(l) && LateEnabled(l, Coarse(Close)) && l.s.writing != []
    ensures |l.s.completed| < |l.s.pushed| && Transmitted(l.s, l.s.open.value, |l.s.completed|)
  {
    assert Abs(l).completed + Abs(l).queue == Abs(l).pushed;
    assert l.s.log[|l.s.log| - 1] == Transmission(l.s.open.value, |l.s.completed|);
  }

  lemma UnfinishedStep(l: Lagging, e: LateEvent)
    requires Sound(l) && UnfinishedOk(l) && LateEnabled(l, e)
    ensures UnfinishedOk(LateAfter(l, e))
  {
    var l' := LateAfter(l, e);
    HistoryStep(l, e);
    forall c | c in l'.unfinished
      ensures var k := l'.unfinished[c]; k <= |l'.s.completed| && k < |l'.s.pushed| && Transmitted(l'.s, c, k)
    {
      if e == Coarse(Close) && l.s.writing != [] && Some(c) == l.s.open {
        ClosingWrite(l);
      }
      TransmittedStays(l.s, l'.s, c, l'.unfinished[c]);
    }
  }

  lemma {:induction false} UnfinishedAlways(run: seq<Lagging>, events: seq<LateEvent>, i: nat)
    requires IsLateRun(run, events) && i < |run| && forall j :: 0 <= j <= i ==> Sound(run[j])
    ensures UnfinishedOk(run[i])
  {
    if i > 0 {
      UnfinishedAlways(run, events, i - 1);
      assert LateStepAt(run, events, i - 1);
      UnfinishedStep(run[i - 1], events[i - 1]);
    }
  }

  /** No transmission is of a later message than the last one. */
  lemma TransmittedAtMostLast(s: State, c: nat, k: nat)
    requires Logged(s) && Transmitted(s, c, k)
    ensures k <= s.log[|s.log| - 1].index
  {
    var a :| 0 <= a < |s.log| && s.log[a] == Transmission(c, k);
    if a < |s.log| - 1 {
      LogOrder(s, a, |s.log| - 1);
    }
  }

  /**
    A late completion keeps the invariant and completes the very message that was written, if and only if that message
    is still the front of the queue and is not in flight again.
   */
  lemma CompletesItsOwnIff(run: seq<Lagging>, events: seq<LateEvent>, i: nat, c: nat)
    requires IsLateRun(run, events) && i < |run| && forall j :: 0 <= j <= i ==> Sound(run[j])
    requires LateEnabled(run[i], LatePop(c))
    ensures var l, k := run[i], run[i].unfinished[c];
            var l' := LateAfter(l, LatePop(c));
            Sound(l') && |l'.s.completed| == k + 1 <==> k == |l.s.completed| && !InFlight(l.s)
  {
    var l := run[i];
    UnfinishedAlways(run, events, i);
    LatePopSoundIff(l, c);
    assert Transmitted(Abs(l), c, l.unfinished[c]);
    TransmittedAtMostLast(Abs(l), c, l.unfinished[c]);
    assert Abs(l).completed + Abs(l).queue == Abs(l).pushed;
  }

  // ----- The harm -----

  /**
    What any other late completion does: it pops an empty queue; or it completes the front while that is in flight, and
    then clears the flag under it; or it completes a message that was never transmitted at all.
   */
  lemma UnsafePopHarms(l: Lagging, c: nat)
    requires Sound(l) && LateEnabled(l, LatePop(c)) && !FrontWasLast(l.s)
    ensures var l' := LateAfter(l, LatePop(c));
            if l.s.queue == [] then l'.underflow
            else
              && l'.s.completed == l.s.completed + [l.s.queue[0]]
              && if InFlight(l.s) then var s'' := LateAfter(l', LateClear).s; InFlight(s'') && !s''.sending
                 else forall a :: 0 <= a < |l.s.log| ==> l.s.log[a].index < |l.s.completed|
  {
    if l.s.queue != [] && !InFlight(l.s) {
      forall a | 0 <= a < |l.s.log|
        ensures l.s.log[a].index < |l.s.completed|
      {
        assert Transmitted(Abs(l), l.s.log[a].connection, l.s.log[a].index);
        TransmittedAtMostLast(Abs(l), l.s.log[a].connection, l.s.log[a].index);
      }
    }
  }

  lemma Extend(run: seq<Lagging>, events: seq<LateEvent>, e: LateEvent, next: Lagging)
    returns (longer: seq<Lagging>, more: seq<LateEvent>)
    requires IsLateRun(run, events) && LateEnabled(run[|events|], e) && next == LateAfter(run[|events|], e)
    ensures IsLateRun(longer, more) && longer[|more|] == next
  {
    longer, more := run + [next], events + [e];
    forall i: nat | i < |more|
      ensures LateStepAt(longer, more, i)
    {
      if i < |events| {
        assert LateStepAt(run, events, i);
      }
    }
  }

  /** `a` is being written, and `b` waits behind it. */
  lemma Writing(a: bytes, b: bytes) returns (run: seq<Lagging>, events: seq<LateEvent>)
    ensures IsLateRun(run, events)
    ensures run[|events|] ==
              Lagging(State([a, b], true, Some(0), Some(0), true, false, [a], 2, Idle, 1, [a, b], [],
                            [Transmission(0, 0)]),
                      map[], 0, false)
  {
    var s := State([a], false, None, None, false, false, [], 1, Idle, 0, [a], [], []);
    run, events := [LATE_INITIAL], [];
    run, events := Extend(run, events, Coarse(Push(a)), Lagging(s, map[], 0, false));
    s := s.(queue := [a, b], pushed := [a, b], callers := 2);
    run, events := Extend(run, events, Coarse(Push(b)), Lagging(s, map[], 0, false));
    s := s.(connection := Some(0), open := Some(0), processing := true, nextConnection := 1, callers := 3);
    run, events := Extend(run, events, Coarse(Connect), Lagging(s, map[], 0, false));
    s := s.(sending := true, writing := [a], log := [Transmission(0, 0)], callers := 2);
    run, events := Extend(run, events, Coarse(SendNext), Lagging(s, map[], 0, false));
  }

  /** The connection closes, with its write outstanding. */
  lemma ClosedWhileWriting(a: bytes, b: bytes) returns (run: seq<Lagging>, events: seq<LateEvent>)
    ensures IsLateRun(run, events)
    ensures run[|events|] ==
              Lagging(State([a, b], true, None, None, false, false, [], 2, Disconnected, 1, [a, b], [],
                            [Transmission(0, 0)]),
                      map[0 := 0], 0, false)
  {
    run, events := Writing(a, b);
    var s := run[|events|].s.(processing := false);
    run, events := Extend(run, events, Coarse(StopProcessing), Lagging(s, map[], 0, false));
    s := s.(connection := None, open := None, writing := [], handler := Disconnected);
    run, events := Extend(run, events, Coarse(Close), Lagging(s, map[0 := 0], 0, false));
  }

  /** The client connects again and writes `a` a second time. */
  lemma WritingAgain(a: bytes, b: bytes) returns (run: seq<Lagging>, events: seq<LateEvent>)
    ensures IsLateRun(run, events)
    ensures run[|events|] ==
              Lagging(State([a, b], true, Some(1), Some(1), true, false, [a], 2, Idle, 2, [a, b], [],
                            [Transmission(0, 0), Transmission(1, 0)]),
                      map[0 := 0], 0, false)
  {
    run, events := ClosedWhileWriting(a, b);
    var s := run[|events|].s.(sending := false, handler := Idle);
    run, events := Extend(run, events, Coarse(ClearAfterClose), Lagging(s, map[0 := 0], 0, false));
    s := s.(connection := Some(1), open := Some(1), processing := true, nextConnection := 2, callers := 3);
    run, events := Extend(run, events, Coarse(Connect), Lagging(s, map[0 := 0], 0, false));
    s := s.(sending := true, writing := [a], log := [Transmission(0, 0), Transmission(1, 0)], callers := 2);
    run, events := Extend(run, events, Coarse(SendNext), Lagging(s, map[0 := 0], 0, false));
  }

  /** The first write of `a` succeeds after all: `a` is completed while it is written, and `b` is written beside it. */
  lemma TwoUnderWay(a: bytes, b: bytes) returns (run: seq<Lagging>, events: seq<LateEvent>)
    ensures IsLateRun(run, events)
    ensures run[|events|] ==
              Lagging(State([b], true, Some(1), Some(1), true, false, [a, b], 2, Idle, 2, [a, b], [a],
                            [Transmission(0, 0), Transmission(1, 0), Transmission(1, 1)]),
                      map[], 0, false)
  {
    run, events := WritingAgain(a, b);
    var s := run[|events|].s.(queue := [b], completed := [a]);
    run, events := Extend(run, events, LatePop(0), Lagging(s, map[], 1, false));
    s := s.(sending := false, callers := 3);
    run, events := Extend(run, events, LateClear, Lagging(s, map[], 0, false));
    s := s.(sending := true, writing := [a, b], log := s.log + [Transmission(1, 1)], callers := 2);
    run, events := Extend(run, events, Coarse(SendNext), Lagging(s, map[], 0, false));
  }

  /** Then the second completion of `a` completes `b`, which is still being written. */
  lemma LateCompletion(a: bytes, b: bytes) returns (run: seq<Lagging>, events: seq<LateEvent>)
    ensures IsLateRun(run, events)
    ensures var s := run[|events|].s; s.completed == [a, b] && s.queue == [] && s.writing == [b]
  {
    run, events := TwoUnderWay(a, b);
    var s := run[|events|].s.(writing := [b], handler := Sent);
    run, events := Extend(run, events, Coarse(WriteDone), Lagging(s, map[], 0, false));
    s := s.(queue := [], completed := [a, b], handler := Popped);
    run, events := Extend(run, events, Coarse(Pop), Lagging(s, map[], 0, false));
  }
}
