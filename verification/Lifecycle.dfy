/** The four-state lifecycle of a connection, and how often its closing is reported. */
module Lifecycle {
  datatype TaskState = Init | Starting | Processing | Stopped

  /** The atomic accesses to the state: the two halves of `start`, `close_in_thread`, and a read or write error. */
  datatype Event = StartRequest | ProcessingStarted | StopRequest | PeerClosed

  function StateAfter(state: TaskState, e: Event): TaskState {
    match e
    case StartRequest => if state == Init then Starting else state
    case ProcessingStarted => Processing
    case StopRequest => Stopped
    case PeerClosed => Stopped
  }

  class BackgroundTaskStateMachine {
    var state: TaskState

    constructor ()
      ensures state == Init
    {
      state := Init;
    }

    /** False stands for the exception "Already started.". */
    method HandleStartRequest() returns (ok: bool)
      modifies this
      ensures ok <==> old(state) == Init
      ensures state == StateAfter(old(state), StartRequest) == if ok then Starting else old(state)
    {
      ok := state == Init;
      if ok {
        state := Starting;
      }
    }

    method HandleProcessingStarted()
      modifies this
      ensures state == StateAfter(old(state), ProcessingStarted) == Processing
    {
      state := Processing;
    }

    method HandleStopRequested() returns (required: bool)
      modifies this
      ensures state == StateAfter(old(state), StopRequest) == Stopped
      ensures required <==> old(state) != Stopped
    {
      required := state != Stopped;
      state := Stopped;
    }

    method HandleProcessingStopped()
      modifies this
      ensures state == StateAfter(old(state), PeerClosed) == Stopped
    {
      state := Stopped;
    }
  }

  /** `starting`: a thread is between the halves of `start`. `running`: reads and writes have begun. */
  datatype Life = Life(state: TaskState, starting: bool, running: bool, starts: nat, closedReports: nat)

  const NEW_LIFE := Life(Init, false, false, 0, 0)

  predicate Enabled(l: Life, e: Event) {
    (e == ProcessingStarted ==> l.starting) && (e == PeerClosed ==> l.running)
  }

  function After(l: Life, e: Event): Life {
    var l' := l.(state := StateAfter(l.state, e));
    match e
    case StartRequest => if l.state == Init then l'.(starting := true, starts := l.starts + 1) else l'
    case ProcessingStarted => l'.(starting := false, running := true)
    case StopRequest => l'.(closedReports := l.closedReports + if l.state != Stopped then 1 else 0)
    case PeerClosed => l'.(closedReports := l.closedReports + 1)
  }

  function Reach(events: seq<Event>): Life {
    if events == [] then NEW_LIFE
    else After(Reach(events[..|events| - 1]), events[|events| - 1])
  }

  predicate EnabledAt(events: seq<Event>, i: nat)
    requires i < |events|
  {
    Enabled(Reach(events[..i]), events[i])
  }

  ghost predicate IsRun(events: seq<Event>) {
    forall i: nat :: i < |events| ==> EnabledAt(events, i)
  }

  lemma PrefixOfPrefix<T>(s: seq<T>, i: nat, j: nat)
    requires i <= j <= |s|
    ensures s[..j][..i] == s[..i]
  {
  }

  lemma Step(events: seq<Event>, i: nat)
    requires IsRun(events) && i < |events|
    ensures Reach(events[..i + 1]) == After(Reach(events[..i]), events[i])
    ensures Enabled(Reach(events[..i]), events[i])
  {
    PrefixOfPrefix(events, i, i + 1);
    assert EnabledAt(events, i);
  }

  /** A request to stop between the two halves of `start`. */
  ghost predicate StopWhileStarting(events: seq<Event>, i: nat)
    requires i < |events|
  {
    events[i] == StopRequest && Reach(events[..i]).starting
  }

  ghost predicate StoppedForGood(events: seq<Event>) {
    forall i, j ::
      0 <= i <= j <= |events| && Reach(events[..i]).state == Stopped ==> Reach(events[..j]).state == Stopped
  }

  ghost predicate Consistent(l: Life) {
    && (l.state == Init ==> !l.starting && !l.running && l.starts == 0)
    && (l.state == Starting ==> l.starting)
    && (l.starting ==> !l.running && l.state != Processing)
    && l.starts <= 1
    && (l.starting || l.running ==> l.starts == 1)
    && (l.state == Processing ==> l.running)
  }

  lemma {:induction false} LifeInvariant(events: seq<Event>, i: nat)
    requires IsRun(events) && i <= |events|
    ensures Consistent(Reach(events[..i]))
  {
    if i > 0 {
      LifeInvariant(events, i - 1);
      Step(events, i - 1);
    }
  }

  /** At most one `start` ever gets past its first half. */
  lemma StartsAtMostOnce(events: seq<Event>)
    requires IsRun(events)
    ensures Reach(events).starts <= 1
  {
    LifeInvariant(events, |events|);
    assert events[..|events|] == events;
  }

  predicate Over(l: Life) {
    l.state == Stopped && !l.starting
  }

  lemma StaysOver(l: Life, e: Event)
    requires Over(l) && Enabled(l, e)
    ensures Over(After(l, e))
  {
  }

  lemma {:induction false} NoRevival(events: seq<Event>, i: nat, j: nat)
    requires IsRun(events) && i <= j <= |events|
    requires Over(Reach(events[..i]))
    ensures Over(Reach(events[..j]))
    decreases j
  {
    if i < j {
      NoRevival(events, i, j - 1);
      Step(events, j - 1);
      StaysOver(Reach(events[..j - 1]), events[j - 1]);
    }
  }

  /** Stopped while nobody is starting, unless some stop landed between the halves of `start`. */
  lemma {:induction false} StoppedMeansStarted(events: seq<Event>, i: nat)
    requires IsRun(events) && i <= |events|
    requires forall k :: 0 <= k < i ==> !StopWhileStarting(events, k)
    ensures Reach(events[..i]).state == Stopped ==> !Reach(events[..i]).starting
  {
    if i > 0 {
      StoppedMeansStarted(events, i - 1);
      LifeInvariant(events, i - 1);
      Step(events, i - 1);
      assert !StopWhileStarting(events, i - 1);
    }
  }

  lemma {:induction false} StartEnds(events: seq<Event>, i: nat, j: nat)
    requires IsRun(events) && i <= j <= |events|
    requires Reach(events[..i]).starting && !Reach(events[..j]).starting
    ensures exists k :: i < k <= j && Reach(events[..k]).state == Processing
    decreases j
  {
    assert i < j;
    Step(events, j - 1);
    if Reach(events[..j - 1]).starting {
      assert Reach(events[..j]).state == Processing;
    } else {
      StartEnds(events, i, j - 1);
    }
  }

  lemma Revived(events: seq<Event>, i: nat)
    requires IsRun(events) && !Reach(events).starting
    requires i < |events| && StopWhileStarting(events, i)
    ensures !StoppedForGood(events)
  {
    Step(events, i);
    assert events[..|events|] == events;
    StartEnds(events, i + 1, |events|);
  }

  /**
    "Stopped is final" fails when a stop lands between the two halves of `start`, whose second half
    stores `PROCESSING` unconditionally; in every other run that is not in the middle of `start` it holds.
   */
  lemma StopIsFinalIff(events: seq<Event>)
    requires IsRun(events) && !Reach(events).starting
    ensures StoppedForGood(events) <==> forall i :: 0 <= i < |events| ==> !StopWhileStarting(events, i)
  {
    if forall i :: 0 <= i < |events| ==> !StopWhileStarting(events, i) {
      forall i, j | 0 <= i <= j <= |events| && Reach(events[..i]).state == Stopped
        ensures Reach(events[..j]).state == Stopped
      {
        StoppedMeansStarted(events, i);
        NoRevival(events, i, j);
      }
    } else {
      var i :| 0 <= i < |events| && StopWhileStarting(events, i);
      Revived(events, i);
    }
  }

  /** The shortest run in which a stopped connection comes back to life. */
  lemma RevivedConnection()
    ensures var events := [StartRequest, StopRequest, ProcessingStarted];
            IsRun(events) && !StoppedForGood(events)
  {
    var events := [StartRequest, StopRequest, ProcessingStarted];
    assert events[..0] == [] && events[..1] == [StartRequest];
    assert events[..2] == [StartRequest, StopRequest] && events[..3] == events;
    assert [StartRequest, StopRequest][..1] == [StartRequest] && [StartRequest][..0] == [];
    assert Reach([StartRequest]) == Life(Starting, true, false, 1, 0);
    assert Reach([StartRequest, StopRequest]).state == Stopped;
    assert Reach(events).state == Processing;
  }

  /** A report by the peer that arrives after the connection has already stopped. */
  ghost predicate LatePeerClose(events: seq<Event>, i: nat)
    requires i < |events|
  {
    events[i] == PeerClosed && Reach(events[..i]).state == Stopped
  }

  ghost predicate NoLatePeerClose(events: seq<Event>, n: nat)
    requires n <= |events|
  {
    forall i :: 0 <= i < n ==> !LatePeerClose(events, i)
  }

  lemma ReportStep(l: Life, e: Event)
    requires Consistent(l) && Enabled(l, e) && !(e == StopRequest && l.starting)
    requires l.state == Stopped ==> !l.starting
    requires l.state == Stopped <==> l.closedReports >= 1
    ensures After(l, e).state == Stopped <==> After(l, e).closedReports >= 1
    ensures After(l, e).closedReports <= 1 <==> l.closedReports <= 1 && !(e == PeerClosed && l.state == Stopped)
  {
  }

  lemma {:induction false} ClosedReports(events: seq<Event>, n: nat)
    requires IsRun(events) && n <= |events|
    requires forall i :: 0 <= i < n ==> !StopWhileStarting(events, i)
    ensures Reach(events[..n]).state == Stopped <==> Reach(events[..n]).closedReports >= 1
    ensures Reach(events[..n]).closedReports <= 1 <==> NoLatePeerClose(events, n)
  {
    if n > 0 {
      ClosedReports(events, n - 1);
      StoppedMeansStarted(events, n - 1);
      LifeInvariant(events, n - 1);
      Step(events, n - 1);
      assert !StopWhileStarting(events, n - 1);
      ReportStep(Reach(events[..n - 1]), events[n - 1]);
      assert NoLatePeerClose(events, n) <==> NoLatePeerClose(events, n - 1) && !LatePeerClose(events, n - 1);
    }
  }

  /**
    The closing callback fires at most once exactly when no peer report comes after the stop,
    and it fires in every run that ends stopped.
   */
  lemma ClosedOnceIff(events: seq<Event>)
    requires IsRun(events)
    requires forall i :: 0 <= i < |events| ==> !StopWhileStarting(events, i)
    ensures Reach(events).closedReports <= 1 <==> NoLatePeerClose(events, |events|)
    ensures Reach(events).state == Stopped <==> Reach(events).closedReports >= 1
  {
    ClosedReports(events, |events|);
    assert events[..|events|] == events;
  }
}
