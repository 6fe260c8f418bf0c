/**
  The client's send queue across reconnections.

  Two assumptions: `send_next` is one atomic step, and a connection that has reported its closing makes no further
  callback. The code keeps to neither by itself: `ClientSenderRace` and `ClientSenderLate` say when no harm comes of it.
  Every other access is a step of its own.
 */
module ClientSender {
  import opened Wrappers
  import opened Bytes

  /** Where the transport thread is inside the callback it is running. */
  datatype Handler =
    | Idle
    | Sent          // on_sent was called, before the queue is popped
    | Popped        // popped, before is_sending_ is cleared
    | Disconnected  // connection_ was reset, before is_sending_ is cleared

  /** The `index`-th message pushed was given to connection number `connection`. */
  datatype Transmission = Transmission(connection: nat, index: nat)

  /**
    `connection`: what the connector holds; `open`: the connection that has not reported its closing;
    `processing`: whether that one still accepts messages; `callers`: threads about to run `send_next`.
    The last line is history.
   */
  datatype State = State(
    queue: seq<bytes>, sending: bool, connection: Option<nat>, open: Option<nat>, processing: bool, stopped: bool,
    writing: seq<bytes>, callers: nat, handler: Handler, nextConnection: nat,
    pushed: seq<bytes>, completed: seq<bytes>, log: seq<Transmission>)

  datatype Event =
    | Push(message: bytes)
    | SendNext
    | WriteDone
    | Pop
    | ClearAfterSent
    | StopProcessing
    | Close
    | ClearAfterClose
    | Connect
    | StopClient

  const INITIAL := State([], false, None, None, false, false, [], 0, Idle, 0, [], [], [])

  predicate Enabled(s: State, e: Event) {
    match e
    case Push(_) => true
    case SendNext => s.callers > 0
    case WriteDone => s.open.Some? && s.writing != [] && s.handler == Idle
    case Pop => s.handler == Sent
    case ClearAfterSent => s.handler == Popped
    case StopProcessing => s.open.Some?
    case Close => s.open.Some? && !s.processing && s.handler == Idle
    case ClearAfterClose => s.handler == Disconnected
    case Connect => s.open == None && !s.stopped && s.handler == Idle
    case StopClient => true
  }

  predicate WillTransmit(s: State) {
    !s.sending && s.connection.Some? && s.queue != []
  }

  function After(s: State, e: Event): State
    requires Enabled(s, e)
  {
    match e
    case Push(m) => s.(queue := s.queue + [m], pushed := s.pushed + [m], callers := s.callers + 1)
    case SendNext =>
      var s' := s.(callers := s.callers - 1);
      if !WillTransmit(s) then s'
      else if !s.processing then s'.(sending := true)
      else s'.(sending := true, writing := s.writing + [s.queue[0]],
               log := s.log + [Transmission(s.connection.value, |s.completed|)])
    case WriteDone => s.(writing := s.writing[1..], handler := Sent)
    case Pop =>
      if s.queue == [] then s else
        s.(queue := s.queue[1..], completed := s.completed + [s.queue[0]], handler := Popped)
    case ClearAfterSent => s.(sending := false, handler := Idle, callers := s.callers + 1)
    case StopProcessing => s.(processing := false)
    case Close =>
      if s.stopped then s.(open := None, writing := [])
      else s.(open := None, connection := None, writing := [], handler := Disconnected)
    case ClearAfterClose => s.(sending := false, handler := Idle)
    case Connect =>
      s.(open := Some(s.nextConnection), connection := Some(s.nextConnection), processing := true,
         nextConnection := s.nextConnection + 1, callers := s.callers + 1)
    case StopClient => s.(stopped := true, connection := None)
  }

  ghost predicate StepAt(run: seq<State>, i: nat)
    requires i + 1 < |run|
  {
    exists e :: Enabled(run[i], e) && run[i + 1] == After(run[i], e)
  }

  ghost predicate IsRun(run: seq<State>) {
    && run != [] && run[0] == INITIAL
    && forall i: nat :: i + 1 < |run| ==> StepAt(run, i)
  }

  // ----- The invariant -----

  predicate Last(s: State, connection: Option<nat>, index: int) {
    s.log != [] && Some(s.log[|s.log| - 1].connection) == connection && s.log[|s.log| - 1].index == index
  }

  predicate Flow(s: State) {
    && s.completed + s.queue == s.pushed
    && (s.connection.Some? ==> s.open == s.connection && !s.stopped)
    && (s.handler == Sent || s.handler == Popped ==> s.sending && s.open.Some? && s.writing == [])
    && (s.handler == Sent ==> s.queue != [] && Last(s, s.open, |s.completed|))
    && (s.handler == Disconnected ==> s.open == None)
    && (s.open.Some? && !s.stopped ==> s.connection == s.open)
    && (s.writing != [] ==>
          && s.sending && s.open.Some? && s.handler == Idle && s.queue != []
          && s.writing == [s.queue[0]] && Last(s, s.open, |s.completed|))
  }

  /** The bytes of a message are with the transport, or its completion is being handled. */
  predicate InFlight(s: State) {
    s.writing != [] || s.handler == Sent || s.handler == Popped
  }

  /** The flag is set only while something will clear it. */
  predicate Held(s: State) {
    && (s.sending && s.connection.Some? && s.processing ==> InFlight(s))
    && (s.sending && !s.stopped ==> s.open.Some? || s.handler == Disconnected)
  }

  predicate Woken(s: State) {
    WillTransmit(s) ==> s.callers > 0
  }

  predicate Follows(a: Transmission, b: Transmission) {
    || (a.connection == b.connection && b.index == a.index + 1)
    || (a.connection < b.connection && a.index <= b.index <= a.index + 1)
  }

  predicate Logged(s: State) {
    && (forall i :: 0 < i < |s.log| ==> Follows(s.log[i - 1], s.log[i]))
    && (s.log != [] ==>
          var last := s.log[|s.log| - 1];
          && s.log[0].index == 0
          && last.connection < s.nextConnection
          && |s.completed| - 1 <= last.index <= |s.completed|
          && (s.open.Some? ==> last.connection <= s.open.value)
          && (Last(s, s.open, |s.completed|) ==> s.sending))
    && (s.log == [] ==> s.completed == [])
    && (s.open.Some? ==> s.open.value < s.nextConnection)
    && (s.handler == Popped ==> Last(s, s.open, |s.completed| - 1))
  }

  predicate Inv(s: State) {
    Flow(s) && Held(s) && Woken(s) && Logged(s)
  }

  lemma FlowStep(s: State, e: Event)
    requires Inv(s) && Enabled(s, e)
    ensures Flow(After(s, e))
  {
    if e == Pop {
      assert s.completed + s.queue == (s.completed + [s.queue[0]]) + s.queue[1..];
    } else if e.Push? {
      assert s.completed + s.queue + [e.message] == s.completed + (s.queue + [e.message]);
    }
  }

  lemma LoggedStep(s: State, e: Event)
    requires Inv(s) && Enabled(s, e)
    ensures Logged(After(s, e))
  {
    var s' := After(s, e);
    if e == SendNext && WillTransmit(s) && s.processing {
      var last := s'.log[|s.log|];
      assert s.log != [] ==> Follows(s.log[|s.log| - 1], last);
    }
  }

  lemma InvStep(s: State, e: Event)
    requires Inv(s) && Enabled(s, e)
    ensures Inv(After(s, e))
  {
    FlowStep(s, e);
    LoggedStep(s, e);
  }

  lemma {:induction false} InvAlways(run: seq<State>, i: nat)
    requires IsRun(run) && i < |run|
    ensures Inv(run[i])
  {
    if i > 0 {
      InvAlways(run, i - 1);
      assert StepAt(run, i - 1);
      var e :| Enabled(run[i - 1], e) && run[i] == After(run[i - 1], e);
      InvStep(run[i - 1], e);
    }
  }

  // ----- What holds in every run -----

  /** Completed messages, then the queue: exactly what was pushed, in that order. The queue is never popped empty. */
  lemma NothingLostOrReordered(run: seq<State>, i: nat)
    requires IsRun(run) && i < |run|
    ensures run[i].completed + run[i].queue == run[i].pushed
    ensures run[i].handler == Sent ==> run[i].queue != []
  {
    InvAlways(run, i);
  }

  /** What is being written is the front of the queue, and nothing else is. */
  lemma InFlightIsFront(run: seq<State>, i: nat)
    requires IsRun(run) && i < |run| && run[i].writing != []
    ensures run[i].queue != [] && run[i].writing == [run[i].queue[0]] && run[i].sending
  {
    InvAlways(run, i);
  }

  /** The steps the client and its transport take by themselves; no caller has to ask for them. */
  predicate Own(e: Event) {
    !e.Push? && e != StopProcessing && e != StopClient
  }

  /**
    A message in the queue of a connected client is in flight or about to be looked at, or the connection no longer
    accepts anything. In each case the client has a step of its own to take; also while it is not connected.
   */
  lemma NeverStuck(run: seq<State>, i: nat)
    requires IsRun(run) && i < |run| && run[i].queue != [] && !run[i].stopped
    ensures run[i].connection.Some? && run[i].processing ==> InFlight(run[i]) || run[i].callers > 0
    ensures exists e :: Own(e) && Enabled(run[i], e)
  {
    InvAlways(run, i);
    var s := run[i];
    var e :=
      match s.handler {
        case Sent => Pop
        case Popped => ClearAfterSent
        case Disconnected => ClearAfterClose
        case Idle =>
          if s.open == None then Connect
          else if s.writing != [] then WriteDone
          else if !s.processing then Close
          else SendNext
      };
    assert Own(e) && Enabled(s, e);
  }

  /** When nobody is about to send and nothing is in flight, a client whose connection is live has sent everything. */
  lemma QuiescentMeansAllSent(run: seq<State>, i: nat)
    requires IsRun(run) && i < |run| && run[i].connection.Some? && run[i].processing
    requires run[i].callers == 0 && run[i].writing == [] && run[i].handler == Idle
    ensures run[i].queue == [] && run[i].completed == run[i].pushed && !run[i].sending
  {
    InvAlways(run, i);
  }

  /** What is left to do, counted in steps at most. */
  function Remaining(s: State): nat {
    4 * |s.queue| + s.callers + match s.handler { case Popped => 3 case Sent => 0 case _ => 1 }
  }

  /**
    On a live connection every step the client takes by itself brings it closer to rest, and at rest all is sent.
    So when nobody pushes and the connection stays, everything is sent after at most `Remaining` steps.
   */
  lemma LiveConnectionDrains(run: seq<State>, i: nat)
    requires IsRun(run) && i < |run| && run[i].connection.Some? && run[i].processing
    ensures forall e :: Own(e) && Enabled(run[i], e) ==>
              var s' := After(run[i], e);
              s'.connection == run[i].connection && s'.processing && Remaining(s') < Remaining(run[i])
    ensures (forall e :: Own(e) ==> !Enabled(run[i], e)) ==> run[i].queue == [] && run[i].completed == run[i].pushed
  {
    InvAlways(run, i);
    if forall e :: Own(e) ==> !Enabled(run[i], e) {
      assert Own(SendNext) && Own(WriteDone) && Own(Pop) && Own(ClearAfterSent) && Own(ClearAfterClose);
      QuiescentMeansAllSent(run, i);
    }
  }

  /** Transmissions follow the order of pushing; only a later connection may repeat, and only the last one. */
  lemma TransmissionOrder(run: seq<State>, i: nat, a: nat, b: nat)
    requires IsRun(run) && i < |run| && a < b < |run[i].log|
    ensures var x, y := run[i].log[a], run[i].log[b];
            && x.connection <= y.connection && x.index <= y.index <= x.index + (b - a)
            && (x.connection == y.connection ==> y.index == x.index + (b - a))
            && (x.index == y.index ==> x.connection < y.connection)
  {
    InvAlways(run, i);
    LogOrder(run[i], a, b);
  }

  lemma {:induction false} LogOrder(s: State, a: nat, b: nat)
    requires Logged(s) && a < b < |s.log|
    ensures var x, y := s.log[a], s.log[b];
            && x.connection <= y.connection && x.index <= y.index <= x.index + (b - a)
            && (x.connection == y.connection ==> y.index == x.index + (b - a))
            && (x.index == y.index ==> x.connection < y.connection)
    decreases b
  {
    assert Follows(s.log[b - 1], s.log[b]);
    if a < b - 1 {
      LogOrder(s, a, b - 1);
    }
  }

  /** No message is skipped: every completed one was transmitted. */
  lemma CompletedWereTransmitted(run: seq<State>, i: nat, k: nat) returns (a: nat)
    requires IsRun(run) && i < |run| && k < |run[i].completed|
    ensures a < |run[i].log| && run[i].log[a].index == k
  {
    InvAlways(run, i);
    a := FindTransmission(run[i], k, |run[i].log| - 1);
  }

  lemma {:induction false} FindTransmission(s: State, k: nat, top: nat) returns (a: nat)
    requires Logged(s) && top < |s.log| && k <= s.log[top].index
    ensures a < |s.log| && s.log[a].index == k
    decreases top
  {
    if s.log[top].index == k {
      a := top;
    } else {
      assert top > 0 ==> Follows(s.log[top - 1], s.log[top]);
      a := FindTransmission(s, k, top - 1);
    }
  }

  // ----- The code of the steps -----

  class MessageSender {
    var sentMessages: seq<bytes>
    var isSending: bool
    /** The whole system this object is part of. */
    ghost var system: State

    ghost predicate Valid()
      reads this
    {
      Inv(system) && system.queue == sentMessages && system.sending == isSending
    }

    constructor ()
      ensures Valid() && system == INITIAL
    {
      sentMessages, isSending, system := [], false, INITIAL;
    }

    /** `send`, up to its call of `send_next`. */
    method PushMessage(message: bytes)
      requires Valid()
      modifies this
      ensures Valid() && system == After(old(system), Push(message))
      ensures sentMessages == old(sentMessages) + [message] && isSending == old(isSending)
    {
      sentMessages := sentMessages + [message];
      InvStep(system, Push(message));
      system := After(system, Push(message));
    }

    /** `handle_sent_message`, first half. The front exists. */
    method PopSent()
      requires Valid() && Enabled(system, Pop)
      modifies this
      ensures Valid() && system == After(old(system), Pop) && system.completed != []
      ensures old(sentMessages) == [system.completed[|system.completed| - 1]] + sentMessages
      ensures isSending == old(isSending)
    {
      sentMessages := sentMessages[1..];
      InvStep(system, Pop);
      system := After(system, Pop);
    }

    /** `handle_sent_message`, second half. */
    method ClearSending()
      requires Valid() && Enabled(system, ClearAfterSent)
      modifies this
      ensures Valid() && system == After(old(system), ClearAfterSent)
      ensures !isSending && sentMessages == old(sentMessages)
    {
      isSending := false;
      InvStep(system, ClearAfterSent);
      system := After(system, ClearAfterSent);
    }

    method HandleDisconnection()
      requires Valid() && Enabled(system, ClearAfterClose)
      modifies this
      ensures Valid() && system == After(old(system), ClearAfterClose)
      ensures !isSending && sentMessages == old(sentMessages)
    {
      isSending := false;
      InvStep(system, ClearAfterClose);
      system := After(system, ClearAfterClose);
    }
  }
}
