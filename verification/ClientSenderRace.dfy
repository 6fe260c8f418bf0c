/**
  `send_next` as the code has it: a thread loads the flag, gets the connection, looks at the front of the queue and
  claims the flag, and any number of threads may be anywhere between these accesses. Up to the claim nothing can go
  wrong; a claim goes well exactly when what the thread saw meets a condition on the state it then finds.
 */
module ClientSenderRace {
  import opened Wrappers
  import opened Bytes
  import opened ClientSender

  /** What a thread inside `send_next` has seen: the flag clear, then a connection, then the `index`-th message. */
  datatype Look =
    | FlagClear
    | Connected(connection: nat)
    | Ready(connection: nat, message: bytes, index: nat)

  datatype Fine = Fine(s: State, looks: map<nat, Look>)

  /** `Coarse(SendNext)` is a call that nothing interrupts. */
  datatype FineEvent =
    | Coarse(e: Event)
    | LoadFlag(t: nat)
    | GetConnection(t: nat)
    | Peek(t: nat)
    | Claim(t: nat)

  const FINE_INITIAL := Fine(INITIAL, map[])

  predicate FineEnabled(f: Fine, e: FineEvent) {
    match e
    case Coarse(c) => Enabled(f.s, c)
    case LoadFlag(t) => t !in f.looks && f.s.callers > 0
    case GetConnection(t) => t in f.looks && f.looks[t].FlagClear?
    case Peek(t) => t in f.looks && f.looks[t].Connected?
    case Claim(t) => t in f.looks && f.looks[t].Ready?
  }

  /**
    The claim: an exchange of the flag and, if it was clear, `async_send`, which drops what a stopped connection gets.
   */
  function Claimed(s: State, p: Look): State
    requires p.Ready?
  {
    if s.sending then s
    else if s.open != Some(p.connection) || !s.processing then s.(sending := true)
    else s.(sending := true, writing := s.writing + [p.message], log := s.log + [Transmission(p.connection, p.index)])
  }

  function FineAfter(f: Fine, e: FineEvent): Fine
    requires FineEnabled(f, e)
  {
    match e
    case Coarse(c) => f.(s := After(f.s, c))
    case LoadFlag(t) =>
      Fine(f.s.(callers := f.s.callers - 1), if f.s.sending then f.looks else f.looks[t := FlagClear])
    case GetConnection(t) =>
      f.(looks := if f.s.connection == None then f.looks - {t} else f.looks[t := Connected(f.s.connection.value)])
    case Peek(t) =>
      f.(looks := if f.s.queue == [] then f.looks - {t}
                  else f.looks[t := Ready(f.looks[t].connection, f.s.queue[0], |f.s.completed|)])
    case Claim(t) => Fine(Claimed(f.s, f.looks[t]), f.looks - {t})
  }

  ghost predicate FineStepAt(run: seq<Fine>, events: seq<FineEvent>, i: nat)
    requires i < |events| && i + 1 < |run|
  {
    FineEnabled(run[i], events[i]) && run[i + 1] == FineAfter(run[i], events[i])
  }

  ghost predicate IsFineRun(run: seq<Fine>, events: seq<FineEvent>) {
    && |run| == |events| + 1 && run[0] == FINE_INITIAL
    && forall i: nat :: i < |events| ==> FineStepAt(run, events, i)
  }

  /** The atomic view: a thread that has not claimed has not begun. */
  function Abs(f: Fine): State {
    f.s.(callers := f.s.callers + |f.looks|)
  }

  predicate LookOk(s: State, p: Look) {
    && (p.Connected? || p.Ready? ==> p.connection < s.nextConnection)
    && (p.Ready? ==> p.index <= |s.completed| && p.index < |s.pushed| && s.pushed[p.index] == p.message)
  }

  ghost predicate LooksOk(f: Fine) {
    forall t :: t in f.looks ==> LookOk(f.s, f.looks[t])
  }

  predicate TakesFlag(f: Fine, e: FineEvent) {
    e.Claim? && FineEnabled(f, e) && !f.s.sending
  }

  /**
    What a claim that takes the flag must find. On a live connection: that of the look, with the message of the look not
    completed since. Otherwise: something still to come that clears the flag, or a client that was stopped.
   */
  predicate ClaimSafe(s: State, p: Look)
    requires p.Ready?
  {
    if s.open == Some(p.connection) then s.processing ==> p.index == |s.completed|
    else s.stopped || s.handler == Disconnected || (s.open.Some? && !s.processing)
  }

  predicate HistoryGrows(s: State, s': State) {
    s.nextConnection <= s'.nextConnection && s.pushed <= s'.pushed && |s.completed| <= |s'.completed|
  }

  lemma CoarseHistory(s: State, c: Event)
    requires Enabled(s, c)
    ensures HistoryGrows(s, After(s, c))
  {
  }

  lemma LooksStay(s: State, s': State, looks: map<nat, Look>)
    requires HistoryGrows(s, s') && LooksOk(Fine(s, looks))
    ensures LooksOk(Fine(s', looks))
  {
  }

  lemma FrontLook(s: State, connection: nat)
    requires s.completed + s.queue == s.pushed && s.queue != [] && connection < s.nextConnection
    ensures LookOk(s, Ready(connection, s.queue[0], |s.completed|))
  {
    assert s.pushed[|s.completed|] == s.queue[0];
  }

  lemma LooksStep(f: Fine, e: FineEvent)
    requires Inv(Abs(f)) && LooksOk(f) && FineEnabled(f, e)
    ensures LooksOk(FineAfter(f, e))
  {
    match e
    case Coarse(c) =>
      CoarseHistory(f.s, c);
      LooksStay(f.s, After(f.s, c), f.looks);
    case Peek(t) =>
      assert LookOk(f.s, f.looks[t]);
      if f.s.queue != [] {
        FrontLook(f.s, f.looks[t].connection);
      }
    case _ =>
  }

  lemma LeavingCounts(looks: map<nat, Look>, t: nat)
    requires t in looks
    ensures |looks - {t}| == |looks| - 1
  {
    assert (looks - {t}).Keys == looks.Keys - {t};
  }

  lemma MovingCounts(looks: map<nat, Look>, t: nat, p: Look)
    ensures |looks[t := p]| == |looks| + if t in looks then 0 else 1
  {
    assert looks[t := p].Keys == looks.Keys + {t};
  }

  /** The step of the atomic system that a step is; it is none where a look only goes on. */
  function AtomicStep(f: Fine, e: FineEvent): Option<Event> {
    match e
    case Coarse(c) => Some(c)
    case LoadFlag(_) => if f.s.sending then Some(SendNext) else None
    case GetConnection(_) => if f.s.connection == None then Some(SendNext) else None
    case Peek(_) => if f.s.queue == [] then Some(SendNext) else None
    case Claim(_) => Some(SendNext)
  }

  ghost predicate ActsAtomically(f: Fine, e: FineEvent)
    requires FineEnabled(f, e)
  {
    match AtomicStep(f, e)
    case None => Abs(FineAfter(f, e)) == Abs(f)
    case Some(c) => Enabled(Abs(f), c) && Abs(FineAfter(f, e)) == After(Abs(f), c)
  }

  /** Callers elsewhere make no difference to a step. */
  lemma CallersApart(s: State, n: nat, c: Event)
    requires Enabled(s, c)
    ensures var more := s.(callers := s.callers + n);
            Enabled(more, c) && After(more, c) == After(s, c).(callers := After(s, c).callers + n)
  {
    match c
    case SendNext => assert WillTransmit(s.(callers := s.callers + n)) == WillTransmit(s);
    case _ =>
  }

  lemma CoarseActsAtomically(f: Fine, c: Event)
    requires Enabled(f.s, c)
    ensures Enabled(Abs(f), c) && Abs(FineAfter(f, Coarse(c))) == After(Abs(f), c)
  {
    CallersApart(f.s, |f.looks|, c);
  }

  /** A thread that leaves without the flag does what the atomic `send_next` does when there is nothing to send. */
  lemma LeavingIsSendNext(f: Fine, t: nat)
    requires t in f.looks && !WillTransmit(f.s)
    ensures var s := Abs(f); Enabled(s, SendNext) && After(s, SendNext) == Abs(f.(looks := f.looks - {t}))
  {
    LeavingCounts(f.looks, t);
  }

  lemma LookActsAtomically(f: Fine, e: FineEvent)
    requires FineEnabled(f, e) && !e.Coarse? && !e.Claim?
    ensures ActsAtomically(f, e)
  {
    var t := e.t;
    if AtomicStep(f, e) == None {
      MovingCounts(f.looks, t, FineAfter(f, e).looks[t]);
    } else if !e.LoadFlag? {
      LeavingIsSendNext(f, t);
    }
  }

  /**
    Every step but a claim that takes the flag is a step of the atomic system, or none, whatever the other threads do.
   */
  lemma OthersActAtomically(f: Fine, e: FineEvent)
    requires FineEnabled(f, e) && !TakesFlag(f, e)
    ensures ActsAtomically(f, e)
  {
    match e
    case Coarse(c) => CoarseActsAtomically(f, c);
    case Claim(t) => LeavingIsSendNext(f, t);
    case _ => LookActsAtomically(f, e);
  }

  /** A claim that finds the connection and the front of the queue as the thread saw them is the atomic `send_next`. */
  lemma FreshClaimIsSendNext(f: Fine, t: nat)
    requires Inv(Abs(f)) && LooksOk(f) && TakesFlag(f, Claim(t))
    requires f.s.connection == Some(f.looks[t].connection) && f.looks[t].index == |f.s.completed|
    ensures ActsAtomically(f, Claim(t)) && WillTransmit(Abs(f)) && ClaimSafe(f.s, f.looks[t])
  {
    LeavingCounts(f.looks, t);
    IndexIsFront(f, t);
  }

  lemma IndexIsFront(f: Fine, t: nat)
    requires Inv(Abs(f)) && LooksOk(f) && t in f.looks && f.looks[t].Ready? && f.looks[t].index == |f.s.completed|
    ensures f.s.queue != [] && f.s.queue[0] == f.looks[t].message
  {
    assert LookOk(f.s, f.looks[t]);
    assert (f.s.completed + f.s.queue)[|f.s.completed|] == f.looks[t].message;
  }

  lemma SafeClaimKeepsInv(f: Fine, t: nat)
    requires Inv(Abs(f)) && LooksOk(f) && TakesFlag(f, Claim(t)) && ClaimSafe(f.s, f.looks[t])
    ensures Inv(Abs(FineAfter(f, Claim(t))))
  {
    var s, s' := Abs(f), Abs(FineAfter(f, Claim(t)));
    if f.s.open == Some(f.looks[t].connection) && f.s.processing {
      IndexIsFront(f, t);
      assert s'.writing == [s'.queue[0]];
      assert s.log != [] ==> Follows(s.log[|s.log| - 1], s'.log[|s.log|]);
    }
  }

  /**
    What an unsafe claim does: it gives a message that was already completed to the connection once more, or it sets the
    flag with nothing in flight and nothing to come that clears it.
   */
  lemma UnsafeClaimHarms(f: Fine, t: nat)
    requires Inv(Abs(f)) && LooksOk(f) && TakesFlag(f, Claim(t)) && !ClaimSafe(f.s, f.looks[t])
    ensures var s, s', p := f.s, FineAfter(f, Claim(t)).s, f.looks[t];
            if s.open == Some(p.connection) then
              p.index < |s.completed| && s'.log == s.log + [Transmission(p.connection, p.index)]
            else Hung(s')
    ensures !Inv(Abs(FineAfter(f, Claim(t))))
  {
    assert LookOk(f.s, f.looks[t]);
  }

  /** What follows such a claim on a live connection: the write finishes, and its completion pops. */
  function Completed(s: State, p: Look): State
    requires p.Ready? && TakesOver(s, p)
  {
    After(After(Claimed(s, p), WriteDone), Pop)
  }

  /** The claim gives the message to a live connection that is doing nothing else. */
  predicate TakesOver(s: State, p: Look)
    requires p.Ready?
  {
    !s.sending && s.open == Some(p.connection) && s.processing && s.handler == Idle && s.writing == []
  }

  /**
    The worst of it: when a stale claim goes out and completes, the pop takes the message behind the completed ones,
    which this connection never transmitted; only a connection that closed before can have. Without one the queue is
    empty.
   */
  lemma StaleClaimLosesMessage(f: Fine, t: nat)
    requires Inv(Abs(f)) && LooksOk(f) && TakesFlag(f, Claim(t)) && !ClaimSafe(f.s, f.looks[t])
    requires f.s.open == Some(f.looks[t].connection)
    ensures TakesOver(f.s, f.looks[t])
    ensures var s, s' := f.s, Completed(f.s, f.looks[t]);
            if s.queue == [] then s' == After(Claimed(s, f.looks[t]), WriteDone)
            else
              && s'.completed == s.completed + [s.queue[0]] && s'.queue == s.queue[1..]
              && forall a :: 0 <= a < |s'.log| && s'.log[a].index == |s.completed| ==>
                   s'.log[a].connection < f.looks[t].connection
  {
    var s, p := f.s, f.looks[t];
    assert LookOk(s, p);
    forall a | 0 <= a < |s.log| && s.log[a].index == |s.completed|
      ensures s.log[a].connection < p.connection
    {
      if a < |s.log| - 1 {
        LogOrder(Abs(f), a, |s.log| - 1);
      }
    }
  }

  /** For every state and every claim that takes the flag: the invariant is kept if and only if the claim is safe. */
  lemma ClaimKeepsInvIff(f: Fine, t: nat)
    requires Inv(Abs(f)) && LooksOk(f) && TakesFlag(f, Claim(t))
    ensures Inv(Abs(FineAfter(f, Claim(t)))) <==> ClaimSafe(f.s, f.looks[t])
  {
    if ClaimSafe(f.s, f.looks[t]) {
      SafeClaimKeepsInv(f, t);
    } else {
      UnsafeClaimHarms(f, t);
    }
  }

  predicate SafeStep(f: Fine, e: FineEvent) {
    TakesFlag(f, e) ==> ClaimSafe(f.s, f.looks[e.t])
  }

  lemma FineStepKeepsInvIff(f: Fine, e: FineEvent)
    requires Inv(Abs(f)) && LooksOk(f) && FineEnabled(f, e)
    ensures LooksOk(FineAfter(f, e)) && (Inv(Abs(FineAfter(f, e))) <==> SafeStep(f, e))
  {
    LooksStep(f, e);
    if TakesFlag(f, e) {
      ClaimKeepsInvIff(f, e.t);
    } else {
      OthersActAtomically(f, e);
      if AtomicStep(f, e).Some? {
        InvStep(Abs(f), AtomicStep(f, e).value);
      }
    }
  }

  ghost predicate FineInv(f: Fine) {
    Inv(Abs(f)) && LooksOk(f)
  }

  ghost predicate SafeAt(run: seq<Fine>, events: seq<FineEvent>, i: nat)
    requires i < |events| && i < |run|
  {
    SafeStep(run[i], events[i])
  }

  lemma StepKeepsIff(run: seq<Fine>, events: seq<FineEvent>, i: nat)
    requires IsFineRun(run, events) && i < |events| && FineInv(run[i])
    ensures LooksOk(run[i + 1]) && (FineInv(run[i + 1]) <==> SafeAt(run, events, i))
  {
    assert FineStepAt(run, events, i);
    FineStepKeepsInvIff(run[i], events[i]);
  }

  lemma {:induction false} SafeRunsKeepInv(run: seq<Fine>, events: seq<FineEvent>, i: nat)
    requires IsFineRun(run, events) && i < |run|
    requires forall j: nat :: j < i ==> SafeAt(run, events, j)
    ensures FineInv(run[i])
  {
    if i > 0 {
      SafeRunsKeepInv(run, events, i - 1);
      StepKeepsIff(run, events, i - 1);
    }
  }

  lemma {:induction false} KeptInvMeansLooksOk(run: seq<Fine>, events: seq<FineEvent>, i: nat)
    requires IsFineRun(run, events) && i < |run|
    requires forall j :: 0 <= j <= i ==> Inv(Abs(run[j]))
    ensures FineInv(run[i])
  {
    if i > 0 {
      KeptInvMeansLooksOk(run, events, i - 1);
      StepKeepsIff(run, events, i - 1);
    }
  }

  /** A run has the invariant of the atomic system throughout if and only if each claim that takes the flag is safe. */
  lemma RunKeepsInvIff(run: seq<Fine>, events: seq<FineEvent>)
    requires IsFineRun(run, events)
    ensures (forall i :: 0 <= i < |run| ==> Inv(Abs(run[i])))
            <==> (forall i: nat :: i < |events| ==> SafeAt(run, events, i))
  {
    if forall i :: 0 <= i < |run| ==> Inv(Abs(run[i])) {
      forall i: nat | i < |events|
        ensures SafeAt(run, events, i)
      {
        KeptInvMeansLooksOk(run, events, i);
        KeptInvMeansLooksOk(run, events, i + 1);
        StepKeepsIff(run, events, i);
      }
    }
    if forall i: nat :: i < |events| ==> SafeAt(run, events, i) {
      forall i | 0 <= i < |run|
        ensures Inv(Abs(run[i]))
      {
        SafeRunsKeepInv(run, events, i);
      }
    }
  }

  // ----- The two kinds of harm -----

  /** Not stopped, the flag is set, nothing is in flight, and the connection, if any, is live. */
  predicate Hung(s: State) {
    s.sending && !InFlight(s) && s.handler == Idle && !s.stopped && (s.open.Some? ==> s.processing)
  }

  /** Then nothing is sent any more until the connection breaks or the client is stopped, whoever calls. */
  lemma HungStaysHung(f: Fine, e: FineEvent)
    requires Hung(f.s) && FineEnabled(f, e) && e != Coarse(StopProcessing) && e != Coarse(StopClient)
    ensures Hung(FineAfter(f, e).s) && FineAfter(f, e).s.log == f.s.log
  {
  }

  lemma Extend(run: seq<Fine>, events: seq<FineEvent>, e: FineEvent, next: Fine)
    returns (longer: seq<Fine>, more: seq<FineEvent>)
    requires IsFineRun(run, events) && FineEnabled(run[|events|], e) && next == FineAfter(run[|events|], e)
    ensures IsFineRun(longer, more) && longer[|more|] == next
  {
    longer, more := run + [next], events + [e];
    forall i: nat | i < |more|
      ensures FineStepAt(longer, more, i)
    {
      if i < |events| {
        assert FineStepAt(run, events, i);
      }
    }
  }

  /** Connected to 0 with `a` in the queue; thread 0 is ready to claim, and `callers` others are to come. */
  function AtClaim(a: bytes, callers: nat): Fine {
    Fine(State([a], false, Some(0), Some(0), true, false, [], callers, Idle, 1, [a], [], []), map[0 := Ready(0, a, 0)])
  }

  lemma ReachClaim(a: bytes) returns (run: seq<Fine>, events: seq<FineEvent>)
    ensures IsFineRun(run, events) && run[|events|] == AtClaim(a, 1)
  {
    var s := State([a], false, None, None, false, false, [], 1, Idle, 0, [a], [], []);
    run, events := [FINE_INITIAL], [];
    run, events := Extend(run, events, Coarse(Push(a)), Fine(s, map[]));
    s := s.(connection := Some(0), open := Some(0), processing := true, nextConnection := 1, callers := 2);
    run, events := Extend(run, events, Coarse(Connect), Fine(s, map[]));
    s := s.(callers := 1);
    run, events := Extend(run, events, LoadFlag(0), Fine(s, map[0 := FlagClear]));
    run, events := Extend(run, events, GetConnection(0), Fine(s, map[0 := Connected(0)]));
    run, events := Extend(run, events, Peek(0), AtClaim(a, 1));
  }

  /** The other caller sends `a` and its completion is handled. */
  lemma SentMeanwhile(a: bytes) returns (run: seq<Fine>, events: seq<FineEvent>)
    ensures IsFineRun(run, events)
    ensures run[|events|] ==
              Fine(State([], false, Some(0), Some(0), true, false, [], 1, Idle, 1, [a], [a], [Transmission(0, 0)]),
                   map[0 := Ready(0, a, 0)])
  {
    run, events := ReachClaim(a);
    var looks := AtClaim(a, 0).looks;
    var s := AtClaim(a, 0).s.(sending := true, writing := [a], log := [Transmission(0, 0)]);
    run, events := Extend(run, events, Coarse(SendNext), Fine(s, looks));
    s := s.(writing := [], handler := Sent);
    run, events := Extend(run, events, Coarse(WriteDone), Fine(s, looks));
    s := s.(queue := [], completed := [a], handler := Popped);
    run, events := Extend(run, events, Coarse(Pop), Fine(s, looks));
    s := s.(sending := false, handler := Idle, callers := 1);
    run, events := Extend(run, events, Coarse(ClearAfterSent), Fine(s, looks));
  }

  /**
    With two callers, the first looks at `a`, which is then sent and popped for the second; the first claims and sends
    `a` again. The completion of that finds an empty queue to pop.
   */
  lemma ClaimAfterPop(a: bytes) returns (run: seq<Fine>, events: seq<FineEvent>)
    ensures IsFineRun(run, events)
    ensures var s := run[|events|].s;
            s.handler == Sent && s.queue == [] && s.log == [Transmission(0, 0), Transmission(0, 0)]
  {
    run, events := SentMeanwhile(a);
    var s := run[|events|].s.(sending := true, writing := [a], log := [Transmission(0, 0), Transmission(0, 0)]);
    run, events := Extend(run, events, Claim(0), Fine(s, map[]));
    run, events := Extend(run, events, Coarse(WriteDone), Fine(s.(writing := [], handler := Sent), map[]));
  }

  /** The same with `b` pushed behind `a` before the claim: the completion completes `b`, which nobody transmitted. */
  lemma ClaimLosesMessage(a: bytes, b: bytes) returns (run: seq<Fine>, events: seq<FineEvent>)
    ensures IsFineRun(run, events)
    ensures var s := run[|events|].s;
            s.pushed == s.completed == [a, b] && s.queue == [] && forall t :: t in s.log ==> t.index != 1
  {
    run, events := SentMeanwhile(a);
    var s := run[|events|].s.(queue := [b], pushed := [a, b], callers := 2);
    run, events := Extend(run, events, Coarse(Push(b)), Fine(s, run[|events|].looks));
    s := s.(sending := true, writing := [a], log := [Transmission(0, 0), Transmission(0, 0)]);
    run, events := Extend(run, events, Claim(0), Fine(s, map[]));
    s := s.(writing := [], handler := Sent);
    run, events := Extend(run, events, Coarse(WriteDone), Fine(s, map[]));
    s := s.(queue := [], completed := [a, b], handler := Popped);
    run, events := Extend(run, events, Coarse(Pop), Fine(s, map[]));
  }

  /** The connection closes and the client connects again. */
  lemma ReconnectedMeanwhile(a: bytes) returns (run: seq<Fine>, events: seq<FineEvent>)
    ensures IsFineRun(run, events)
    ensures run[|events|] == Fine(State([a], false, Some(1), Some(1), true, false, [], 2, Idle, 2, [a], [], []),
                                  map[0 := Ready(0, a, 0)])
  {
    run, events := ReachClaim(a);
    var s, looks := AtClaim(a, 1).s.(processing := false), AtClaim(a, 1).looks;
    run, events := Extend(run, events, Coarse(StopProcessing), Fine(s, looks));
    s := s.(connection := None, open := None, handler := Disconnected);
    run, events := Extend(run, events, Coarse(Close), Fine(s, looks));
    s := s.(handler := Idle);
    run, events := Extend(run, events, Coarse(ClearAfterClose), Fine(s, looks));
    s := s.(connection := Some(1), open := Some(1), processing := true, nextConnection := 2, callers := 2);
    run, events := Extend(run, events, Coarse(Connect), Fine(s, looks));
  }

  /** A claim for the connection that has gone: connected again, with `a` waiting, and nobody sends it any more. */
  lemma ClaimAfterClose(a: bytes) returns (run: seq<Fine>, events: seq<FineEvent>)
    ensures IsFineRun(run, events)
    ensures var f := run[|events|];
            && Hung(f.s) && f.s.connection == Some(1) && f.s.queue == [a]
            && f.s.callers == 0 && f.looks == map[] && f.s.log == []
  {
    run, events := ReconnectedMeanwhile(a);
    var s := run[|events|].s.(sending := true);
    run, events := Extend(run, events, Claim(0), Fine(s, map[]));
    run, events := Extend(run, events, Coarse(SendNext), Fine(s.(callers := 1), map[]));
    run, events := Extend(run, events, Coarse(SendNext), Fine(s.(callers := 0), map[]));
  }

  // ----- The code -----

  /** `send_next`, access by access. Nothing is assumed of what other threads do in between. */
  class MessageSender {
    var sentMessages: seq<bytes>
    var isSending: bool
    /** The whole system this object is part of. */
    ghost var system: Fine

    ghost predicate Valid()
      reads this
    {
      system.s.queue == sentMessages && system.s.sending == isSending
    }

    constructor ()
      ensures Valid() && system == FINE_INITIAL
    {
      sentMessages, isSending, system := [], false, FINE_INITIAL;
    }

    /** Goes on if the flag is clear. */
    method LoadFlag(ghost t: nat) returns (clear: bool)
      requires Valid() && FineEnabled(system, FineEvent.LoadFlag(t))
      modifies this`system
      ensures Valid() && system == FineAfter(old(system), FineEvent.LoadFlag(t))
      ensures clear == !isSending && (clear <==> t in system.looks)
    {
      clear := !isSending;
      system := FineAfter(system, FineEvent.LoadFlag(t));
    }

    /** Goes on if the connector, which holds `held`, has a connection. */
    method GetConnection(ghost t: nat, held: Option<nat>) returns (connection: Option<nat>)
      requires Valid() && FineEnabled(system, FineEvent.GetConnection(t)) && held == system.s.connection
      modifies this`system
      ensures Valid() && system == FineAfter(old(system), FineEvent.GetConnection(t))
      ensures connection == held && (connection.Some? <==> t in system.looks)
      ensures connection.Some? ==> system.looks[t] == Connected(connection.value)
    {
      connection := held;
      system := FineAfter(system, FineEvent.GetConnection(t));
    }

    /** Goes on if there is a front; it stays in the queue. */
    method Peek(ghost t: nat) returns (message: Option<bytes>)
      requires Valid() && FineEnabled(system, FineEvent.Peek(t))
      modifies this`system
      ensures Valid() && system == FineAfter(old(system), FineEvent.Peek(t))
      ensures message == if sentMessages == [] then None else Some(sentMessages[0])
      ensures message.Some? <==> t in system.looks
      ensures message.Some? ==>
                system.looks[t] == Ready(old(system).looks[t].connection, message.value, |system.s.completed|)
    {
      message := if sentMessages == [] then None else Some(sentMessages[0]);
      system := FineAfter(system, FineEvent.Peek(t));
    }

    /** Exchanges the flag. Whether taking it keeps the invariant is decided by what is found now. */
    method Claim(ghost t: nat) returns (taken: bool)
      requires Valid() && FineEnabled(system, FineEvent.Claim(t))
      modifies this
      ensures Valid() && system == FineAfter(old(system), FineEvent.Claim(t))
      ensures taken == !old(isSending) && isSending && sentMessages == old(sentMessages)
      ensures taken && FineInv(old(system)) ==>
                (Inv(Abs(system)) <==> ClaimSafe(old(system).s, old(system).looks[t]))
    {
      if !isSending && FineInv(system) {
        ClaimKeepsInvIff(system, t);
      }
      taken := !isSending;
      isSending := true;
      system := FineAfter(system, FineEvent.Claim(t));
    }
  }
}
