/**
  The response queue of a server connection under every interleaving of its threads.

  The mutex covers loading the flag, looking at the queue, popping and claiming; the flag is
  cleared, and the claimed response handed to the transport, outside of it.
 */
module ServerSender {
  import opened Wrappers
  import opened Bytes

  /** Where a thread is with respect to this connection. */
  datatype Place =
    | Elsewhere
    | BeforeSendNext              // about to run send_next_if_exists
    | InsideLock(loaded: bool)    // holds the mutex and has loaded is_sending_
    | Claimed(response: bytes)    // has released the mutex, before async_send loads the state of the connection
    | Passed(response: bytes)     // async_send found the connection processing, before it posts the write
    | BeforeClear                 // on_sent was called, before it stores false

  /**
    `posted`: writes handed to the transport and not finished. The second line is history: responses pushed,
    accepted by `async_send`, handed to the transport, sent, and lost.
   */
  datatype State = State(
    queue: seq<bytes>, sending: bool, lock: Option<nat>, threads: seq<Place>, posted: seq<bytes>, processing: bool,
    pushed: seq<bytes>, accepted: seq<bytes>, handed: seq<bytes>, sent: seq<bytes>, lost: seq<bytes>)

  datatype Event =
    | Push(t: nat, response: bytes)
    | Enter(t: nat)
    | Leave(t: nat)
    | Claim(t: nat)
    | LoadState(t: nat)
    | Post(t: nat)
    | WriteDone(t: nat)
    | WriteFails
    | ClearFlag(t: nat)
    | StopProcessing

  predicate At(s: State, t: nat, p: Place) {
    t < |s.threads| && s.threads[t] == p
  }

  predicate Enabled(s: State, e: Event) {
    match e
    case Push(t, _) => At(s, t, Elsewhere) && s.lock == None
    case Enter(t) => At(s, t, BeforeSendNext) && s.lock == None
    case Leave(t) => At(s, t, InsideLock(true)) || (At(s, t, InsideLock(false)) && s.queue == [])
    case Claim(t) => At(s, t, InsideLock(false)) && s.queue != []
    case LoadState(t) => t < |s.threads| && s.threads[t].Claimed?
    case Post(t) => t < |s.threads| && s.threads[t].Passed?
    case WriteDone(t) => At(s, t, Elsewhere) && s.posted != []
    case WriteFails => s.posted != []
    case ClearFlag(t) => At(s, t, BeforeClear)
    case StopProcessing => true
  }

  function Move(s: State, t: nat, p: Place): State
    requires t < |s.threads|
  {
    s.(threads := s.threads[t := p])
  }

  function After(s: State, e: Event): State
    requires Enabled(s, e)
  {
    match e
    case Push(t, m) => Move(s, t, BeforeSendNext).(queue := s.queue + [m], pushed := s.pushed + [m])
    case Enter(t) => Move(s, t, InsideLock(s.sending)).(lock := Some(t))
    case Leave(t) => Move(s, t, Elsewhere).(lock := None)
    case Claim(t) => Move(s, t, Claimed(s.queue[0])).(queue := s.queue[1..], sending := true, lock := None)
    case LoadState(t) =>
      var m := s.threads[t].response;
      if s.processing then Move(s, t, Passed(m)).(accepted := s.accepted + [m])
      else Move(s, t, Elsewhere).(lost := s.lost + [m])
    case Post(t) =>
      var m := s.threads[t].response;
      Move(s, t, Elsewhere).(posted := s.posted + [m], handed := s.handed + [m])
    case WriteDone(t) => Move(s, t, BeforeClear).(posted := s.posted[1..], sent := s.sent + [s.posted[0]])
    // An aborted write follows a local close; a broken one stops the connection.
    case WriteFails => s.(posted := s.posted[1..], lost := s.lost + [s.posted[0]], processing := false)
    case ClearFlag(t) => Move(s, t, BeforeSendNext).(sending := false)
    case StopProcessing => s.(processing := false)
  }

  predicate Initial(s: State) {
    && s.queue == [] && !s.sending && s.lock == None && s.posted == [] && s.processing
    && s.pushed == [] && s.accepted == [] && s.handed == [] && s.sent == [] && s.lost == []
    && forall t :: 0 <= t < |s.threads| ==> s.threads[t] == Elsewhere
  }

  ghost predicate Next(s: State, s': State) {
    exists e :: Enabled(s, e) && s' == After(s, e)
  }

  ghost predicate StepAt(run: seq<State>, i: nat)
    requires i + 1 < |run|
  {
    Next(run[i], run[i + 1])
  }

  ghost predicate IsRun(run: seq<State>) {
    && run != [] && Initial(run[0])
    && forall i: nat :: i + 1 < |run| ==> StepAt(run, i)
  }

  // ----- The invariant -----

  /** Who is responsible for the flag being set. */
  datatype Hand =
    | Nobody
    | Thread(t: nat, response: bytes)
    | Checked(t: nat, response: bytes)
    | Transport(response: bytes)
    | Finisher(t: nat)
    | Dropped(response: bytes)

  function InHand(h: Hand): seq<bytes> {
    if h.Nobody? || h.Finisher? then [] else [h.response]
  }

  predicate PlaceFits(p: Place, h: Hand, t: nat) {
    && (p.Claimed? <==> h.Thread? && h.t == t)
    && (p.Claimed? ==> p == Claimed(h.response))
    && (p.Passed? <==> h.Checked? && h.t == t)
    && (p.Passed? ==> p == Passed(h.response))
    && (p == BeforeClear <==> h == Finisher(t))
  }

  ghost predicate HandPlaces(threads: seq<Place>, h: Hand) {
    && (forall t :: 0 <= t < |threads| ==> PlaceFits(threads[t], h, t))
    && (h.Thread? || h.Checked? || h.Finisher? ==> h.t < |threads|)
    && (h.Transport? ==> threads != [])
  }

  ghost predicate Conserved(s: State, h: Hand) {
    s.pushed == s.sent + InHand(h) + s.queue
  }

  /** Accepted and handed over, in the order of pushing. */
  ghost predicate Progress(s: State, h: Hand) {
    && (s.accepted == s.sent || s.accepted == s.sent + InHand(h))
    && (s.handed == s.sent || s.handed == s.sent + InHand(h))
    && (h.Nobody? || h.Thread? || h.Finisher? ==> s.accepted == s.handed == s.sent)
    && (h.Checked? ==> s.accepted == s.sent + InHand(h) && s.handed == s.sent)
    && (h.Transport? ==> s.accepted == s.handed == s.sent + InHand(h))
    && (h.Dropped? ==> s.accepted == s.handed)
  }

  ghost predicate HandOf(s: State, h: Hand) {
    && HandPlaces(s.threads, h)
    && (s.sending <==> h != Nobody)
    && s.posted == (if h.Transport? then [h.response] else [])
    && s.lost == (if h.Dropped? then [h.response] else [])
    && (h.Dropped? ==> !s.processing)
    && Conserved(s, h) && Progress(s, h)
  }

  predicate LockFits(p: Place, lock: Option<nat>, t: nat, sending: bool) {
    (p.InsideLock? <==> lock == Some(t)) && (p == InsideLock(false) ==> !sending)
  }

  /** The thread that holds the mutex is the one inside, and what it loaded clear is still clear. */
  ghost predicate LockHeld(s: State) {
    && (forall t :: 0 <= t < |s.threads| ==> LockFits(s.threads[t], s.lock, t, s.sending))
    && (s.lock.Some? ==> s.lock.value < |s.threads|)
  }

  predicate WillLook(p: Place) {
    p == BeforeSendNext || p == InsideLock(false)
  }

  ghost predicate Attended(s: State) {
    s.queue != [] && !s.sending ==> exists t :: 0 <= t < |s.threads| && WillLook(s.threads[t])
  }

  ghost predicate Inv(s: State) {
    (exists h :: HandOf(s, h)) && LockHeld(s) && Attended(s)
  }

  /** How each step passes the responsibility on. */
  function NextHand(s: State, h: Hand, e: Event): Hand
    requires Enabled(s, e)
  {
    match e
    case Claim(t) => Thread(t, s.queue[0])
    case LoadState(t) => if s.processing then Checked(t, s.threads[t].response) else Dropped(s.threads[t].response)
    case Post(t) => Transport(s.threads[t].response)
    case WriteDone(t) => Finisher(t)
    case WriteFails => Dropped(s.posted[0])
    case ClearFlag(_) => Nobody
    case _ => h
  }

  lemma HandIsSomewhere(s: State, h: Hand)
    requires HandOf(s, h)
    ensures h.Thread? ==> At(s, h.t, Claimed(h.response))
    ensures h.Checked? ==> At(s, h.t, Passed(h.response))
    ensures h.Finisher? ==> At(s, h.t, BeforeClear)
  {
    assert h.Thread? || h.Checked? || h.Finisher? ==> PlaceFits(s.threads[h.t], h, h.t);
  }

  /** Which responsibility each step finds. */
  lemma HandBefore(s: State, h: Hand, e: Event)
    requires HandOf(s, h) && LockHeld(s) && Enabled(s, e)
    ensures e.Claim? ==> h == Nobody
    ensures e.LoadState? ==> h == Thread(e.t, s.threads[e.t].response)
    ensures e.Post? ==> h == Checked(e.t, s.threads[e.t].response)
    ensures e.WriteDone? || e.WriteFails? ==> h == Transport(s.posted[0]) && s.posted == [s.posted[0]]
    ensures e.ClearFlag? ==> h == Finisher(e.t)
  {
  }

  lemma PlacesStep(s: State, h: Hand, e: Event)
    requires HandOf(s, h) && LockHeld(s) && Enabled(s, e)
    ensures HandPlaces(After(s, e).threads, NextHand(s, h, e))
  {
    HandBefore(s, h, e);
    var s', h' := After(s, e), NextHand(s, h, e);
    forall t | 0 <= t < |s'.threads|
      ensures PlaceFits(s'.threads[t], h', t)
    {
      assert PlaceFits(s.threads[t], h, t);
    }
  }

  lemma AppendLast(a: seq<bytes>, b: seq<bytes>, m: bytes)
    ensures a + b + [m] == a + (b + [m])
  {
  }

  lemma TakeFirst(a: seq<bytes>, b: seq<bytes>)
    requires b != []
    ensures a + [] + b == a + [b[0]] + b[1..]
  {
  }

  lemma ConservedStep(s: State, h: Hand, e: Event)
    requires HandOf(s, h) && LockHeld(s) && Enabled(s, e)
    ensures Conserved(After(s, e), NextHand(s, h, e))
  {
    HandBefore(s, h, e);
    match e
    case Push(t, m) => AppendLast(s.sent + InHand(h), s.queue, m);
    case Claim(t) => TakeFirst(s.sent, s.queue);
    case _ =>
  }

  lemma ProgressStep(s: State, h: Hand, e: Event)
    requires HandOf(s, h) && LockHeld(s) && Enabled(s, e)
    ensures Progress(After(s, e), NextHand(s, h, e))
  {
    HandBefore(s, h, e);
  }

  lemma HandStep(s: State, h: Hand, e: Event)
    requires HandOf(s, h) && LockHeld(s) && Enabled(s, e)
    ensures HandOf(After(s, e), NextHand(s, h, e))
  {
    PlacesStep(s, h, e);
    HandBefore(s, h, e);
    ConservedStep(s, h, e);
    ProgressStep(s, h, e);
  }

  lemma LockStep(s: State, h: Hand, e: Event)
    requires HandOf(s, h) && LockHeld(s) && Enabled(s, e)
    ensures LockHeld(After(s, e))
  {
    var s' := After(s, e);
    HandBefore(s, h, e);
    forall t | 0 <= t < |s'.threads|
      ensures LockFits(s'.threads[t], s'.lock, t, s'.sending)
    {
      assert LockFits(s.threads[t], s.lock, t, s.sending) && PlaceFits(s.threads[t], h, t);
    }
  }

  lemma AttendedStep(s: State, h: Hand, e: Event)
    requires HandOf(s, h) && LockHeld(s) && Attended(s) && Enabled(s, e)
    ensures Attended(After(s, e))
  {
    var s' := After(s, e);
    match e
    case Push(t, _) => assert WillLook(s'.threads[t]);
    case ClearFlag(t) => assert WillLook(s'.threads[t]);
    case Enter(t) => assert !s.sending ==> WillLook(s'.threads[t]);
    case Leave(_) =>
      if s.queue != [] && !s.sending {
        var t :| 0 <= t < |s.threads| && WillLook(s.threads[t]);
        assert WillLook(s'.threads[t]);
      }
    case _ =>
  }

  lemma InvStep(s: State, e: Event)
    requires Inv(s) && Enabled(s, e)
    ensures Inv(After(s, e))
  {
    var h :| HandOf(s, h);
    HandStep(s, h, e);
    LockStep(s, h, e);
    AttendedStep(s, h, e);
  }

  lemma {:induction false} InvAlways(run: seq<State>, i: nat)
    requires IsRun(run) && i < |run|
    ensures Inv(run[i])
  {
    if i == 0 {
      assert HandOf(run[0], Nobody);
    } else {
      InvAlways(run, i - 1);
      assert StepAt(run, i - 1);
      var e :| Enabled(run[i - 1], e) && run[i] == After(run[i - 1], e);
      InvStep(run[i - 1], e);
    }
  }

  // ----- What holds in every run -----

  predicate Busy(p: Place) { p.Claimed? || p.Passed? || p == BeforeClear }

  /** At most one response is claimed, being written, or just written and not yet acknowledged. */
  lemma AtMostOneInFlight(run: seq<State>, i: nat)
    requires IsRun(run) && i < |run|
    ensures var s := run[i];
            && |s.posted| <= 1
            && (forall t :: 0 <= t < |s.threads| && Busy(s.threads[t]) ==> s.sending && s.posted == [])
            && (forall t, u :: 0 <= t < |s.threads| && 0 <= u < |s.threads| ==>
                  Busy(s.threads[t]) && Busy(s.threads[u]) ==> t == u)
  {
    InvAlways(run, i);
    var h :| HandOf(run[i], h);
    HandIsSomewhere(run[i], h);
  }

  /** A waiting response with the flag clear is never forgotten: some thread has yet to look at the queue. */
  lemma NoLostWakeup(run: seq<State>, i: nat)
    requires IsRun(run) && i < |run| && run[i].queue != [] && !run[i].sending
    ensures exists t :: 0 <= t < |run[i].threads| && WillLook(run[i].threads[t])
  {
    InvAlways(run, i);
  }

  /** Sent, then at most one in hand, then queued: exactly what was pushed, in that order. */
  lemma Conservation(run: seq<State>, i: nat) returns (hand: seq<bytes>)
    requires IsRun(run) && i < |run|
    ensures var s := run[i];
            && s.pushed == s.sent + hand + s.queue && |hand| <= 1
            && (forall t :: 0 <= t < |s.threads| && (s.threads[t].Claimed? || s.threads[t].Passed?) ==>
                  hand == [s.threads[t].response])
            && (s.posted != [] ==> hand == s.posted)
            && (s.lost != [] ==> hand == s.lost && !s.processing)
            && (hand != [] ==>
                  || s.posted == hand || s.lost == hand
                  || exists t :: 0 <= t < |s.threads| && s.threads[t] in {Claimed(hand[0]), Passed(hand[0])})
  {
    InvAlways(run, i);
    var h :| HandOf(run[i], h);
    HandIsSomewhere(run[i], h);
    hand := InHand(h);
  }

  /** When every thread has gone and nothing is being written, a live connection has sent everything. */
  lemma QuiescentMeansAllSent(run: seq<State>, i: nat)
    requires IsRun(run) && i < |run| && run[i].processing && run[i].posted == []
    requires forall t :: 0 <= t < |run[i].threads| ==> run[i].threads[t] == Elsewhere
    ensures run[i].queue == [] && run[i].sent == run[i].pushed
  {
    InvAlways(run, i);
    var h :| HandOf(run[i], h);
    HandIsSomewhere(run[i], h);
  }

  /** What the connection's threads and the transport do by themselves. */
  predicate Own(e: Event) {
    !e.Push? && !e.WriteFails? && !e.StopProcessing?
  }

  function Weight(p: Place): nat {
    match p
    case Elsewhere => 0
    case InsideLock(_) => 1
    case BeforeSendNext => 2
    case BeforeClear => 3
    case Passed(_) => 5
    case Claimed(_) => 6
  }

  function Weights(threads: seq<Place>): nat {
    if threads == [] then 0 else Weight(threads[0]) + Weights(threads[1..])
  }

  lemma {:induction false} WeightsMove(threads: seq<Place>, t: nat, p: Place)
    requires t < |threads|
    ensures Weights(threads[t := p]) == Weights(threads) - Weight(threads[t]) + Weight(p)
  {
    if t == 0 {
      assert threads[t := p][1..] == threads[1..];
    } else {
      WeightsMove(threads[1..], t - 1, p);
      assert threads[t := p][1..] == threads[1..][t - 1 := p];
    }
  }

  /** What is left to do, counted in steps at most. */
  function Remaining(s: State): nat {
    6 * |s.queue| + 4 * |s.posted| + Weights(s.threads)
  }

  lemma OwnStep(s: State, e: Event)
    requires s.processing && Own(e) && Enabled(s, e)
    ensures var s' := After(s, e); s'.processing && s'.pushed == s.pushed && Remaining(s') < Remaining(s)
  {
    match e
    case Enter(t) => WeightsMove(s.threads, t, InsideLock(s.sending));
    case Leave(t) => WeightsMove(s.threads, t, Elsewhere);
    case Claim(t) => WeightsMove(s.threads, t, Claimed(s.queue[0]));
    case LoadState(t) => WeightsMove(s.threads, t, Passed(s.threads[t].response));
    case Post(t) => WeightsMove(s.threads, t, Elsewhere);
    case WriteDone(t) => WeightsMove(s.threads, t, BeforeClear);
    case ClearFlag(t) => WeightsMove(s.threads, t, BeforeSendNext);
  }

  /** A thread that is anywhere can go on, or waits for one that holds the mutex and can go on. */
  lemma SomeoneMoves(s: State, t: nat) returns (e: Event)
    requires LockHeld(s) && t < |s.threads| && s.threads[t] != Elsewhere
    ensures Own(e) && Enabled(s, e)
  {
    var u := if s.threads[t] == BeforeSendNext && s.lock.Some? then s.lock.value else t;
    assert LockFits(s.threads[u], s.lock, u, s.sending);
    match s.threads[u]
    case BeforeSendNext => e := Enter(u);
    case InsideLock(loaded) => e := if loaded || s.queue == [] then Leave(u) else Claim(u);
    case Claimed(_) => e := LoadState(u);
    case Passed(_) => e := Post(u);
    case BeforeClear => e := ClearFlag(u);
  }

  /** When no own step is enabled, no thread is on this connection and nothing is being written. */
  lemma NoStepMeansQuiet(s: State)
    requires Inv(s) && forall e :: Own(e) ==> !Enabled(s, e)
    ensures s.posted == [] && forall t :: 0 <= t < |s.threads| ==> s.threads[t] == Elsewhere
  {
    forall t | 0 <= t < |s.threads|
      ensures s.threads[t] == Elsewhere
    {
      if s.threads[t] != Elsewhere {
        var e := SomeoneMoves(s, t);
        assert false;
      }
    }
    assert Own(WriteDone(0));
    assert s.threads != [] ==> At(s, 0, Elsewhere);
  }

  /**
    On a live connection every step that the threads and the transport take by themselves keeps it live and brings it
    closer to rest, and at rest all that was pushed is sent. So when nobody pushes and the connection stays,
    everything is sent after at most `Remaining` steps.
   */
  lemma LiveConnectionDrains(run: seq<State>, i: nat)
    requires IsRun(run) && i < |run| && run[i].processing
    ensures forall e :: Own(e) && Enabled(run[i], e) ==>
              var s' := After(run[i], e);
              s'.processing && s'.pushed == run[i].pushed && Remaining(s') < Remaining(run[i])
    ensures (forall e :: Own(e) ==> !Enabled(run[i], e)) ==> run[i].queue == [] && run[i].sent == run[i].pushed
  {
    InvAlways(run, i);
    forall e | Own(e) && Enabled(run[i], e)
      ensures var s' := After(run[i], e);
              s'.processing && s'.pushed == run[i].pushed && Remaining(s') < Remaining(run[i])
    {
      OwnStep(run[i], e);
    }
    if forall e :: Own(e) ==> !Enabled(run[i], e) {
      NoStepMeansQuiet(run[i]);
      QuiescentMeansAllSent(run, i);
    }
  }

  /** Only a connection that is processing accepts. */
  lemma StoppedStep(s: State, s': State)
    requires Next(s, s') && !s.processing
    ensures !s'.processing && s'.accepted == s.accepted
  {
  }

  /**
    What is being written or has been sent was handed over, and what was handed over was accepted, in the order of
    pushing.
   */
  lemma InOrderOfPushing(run: seq<State>, i: nat)
    requires IsRun(run) && i < |run|
    ensures var s := run[i];
            && s.sent + s.posted <= s.handed <= s.accepted <= s.pushed
            && |s.accepted| <= |s.sent| + 1
            && (s.lost == [] ==> s.handed == s.sent + s.posted)
  {
    InvAlways(run, i);
    HandedInOrder(run[i]);
  }

  lemma HandedInOrder(s: State)
    requires Inv(s)
    ensures s.sent + s.posted <= s.handed <= s.accepted <= s.pushed
    ensures |s.accepted| <= |s.sent| + 1
    ensures s.lost == [] ==> s.handed == s.sent + s.posted
  {
    var h :| HandOf(s, h);
    assert s.pushed == s.sent + (InHand(h) + s.queue);
  }

  /**
    Once the connection has stopped, no further response is accepted: at most one, which had passed the check
    before, is still handed to the transport.
   */
  lemma {:induction false} NothingAcceptedAfterStop(run: seq<State>, i: nat, j: nat)
    requires IsRun(run) && i <= j < |run| && !run[i].processing
    ensures !run[j].processing && run[j].accepted == run[i].accepted
    ensures run[j].sent + run[j].posted <= run[j].handed <= run[i].accepted && |run[i].accepted| <= |run[i].sent| + 1
    decreases j
  {
    InOrderOfPushing(run, i);
    InOrderOfPushing(run, j);
    if i < j {
      NothingAcceptedAfterStop(run, i, j - 1);
      assert StepAt(run, j - 1);
      StoppedStep(run[j - 1], run[j]);
    }
  }

  // ----- The code of the critical sections -----

  class ServerConnection {
    var messageQueue: seq<bytes>
    var isSending: bool
    /** The whole system this object is part of. */
    ghost var system: State

    ghost predicate Valid()
      reads this
    {
      Inv(system) && system.queue == messageQueue && system.sending == isSending
    }

    constructor (ghost threads: nat)
      ensures Valid() && Initial(system) && |system.threads| == threads
    {
      messageQueue, isSending := [], false;
      system := State([], false, None, seq(threads, _ => Elsewhere), [], true, [], [], [], [], []);
      new;
      assert HandOf(system, Nobody);
    }

    /** The locked block of `on_request`. */
    method PushResponse(ghost t: nat, response: bytes)
      requires Valid() && Enabled(system, Push(t, response))
      modifies this
      ensures Valid() && system == After(old(system), Push(t, response))
      ensures messageQueue == old(messageQueue) + [response] && isSending == old(isSending)
    {
      messageQueue := messageQueue + [response];
      InvStep(system, Push(t, response));
      system := After(system, Push(t, response));
    }

    /** `send_next_if_exists`, first half: take the mutex and load the flag. */
    method LockAndLoad(ghost t: nat) returns (loaded: bool)
      requires Valid() && Enabled(system, Enter(t))
      modifies this`system
      ensures Valid() && system == After(old(system), Enter(t)) && loaded == old(isSending)
    {
      loaded := isSending;
      InvStep(system, Enter(t));
      system := After(system, Enter(t));
    }

    /** `send_next_if_exists`, second half: give up, or pop and claim the front; release the mutex. */
    method ClaimFront(ghost t: nat, loaded: bool) returns (claimed: Option<bytes>)
      requires Valid() && At(system, t, InsideLock(loaded))
      modifies this
      ensures Valid()
      ensures claimed == None <==> loaded || old(messageQueue) == []
      ensures claimed == None ==> system == After(old(system), Leave(t))
      ensures claimed.Some? ==> system == After(old(system), Claim(t)) && At(system, t, Claimed(claimed.value))
      ensures claimed == None ==> messageQueue == old(messageQueue) && isSending == old(isSending)
      ensures claimed.Some? ==> old(messageQueue) == [claimed.value] + messageQueue && isSending
    {
      if loaded || messageQueue == [] {
        InvStep(system, Leave(t));
        system := After(system, Leave(t));
        return None;
      }
      claimed := Some(messageQueue[0]);
      messageQueue := messageQueue[1..];
      isSending := true;
      InvStep(system, Claim(t));
      system := After(system, Claim(t));
    }

    /** `async_send`, first half: whether the connection accepts the claimed response. */
    method LoadConnectionState(ghost t: nat, processing: bool) returns (accepted: bool)
      requires Valid() && Enabled(system, LoadState(t)) && processing == system.processing
      modifies this`system
      ensures Valid() && system == After(old(system), LoadState(t))
      ensures accepted == processing && (accepted ==> At(system, t, Passed(old(system).threads[t].response)))
    {
      accepted := processing;
      InvStep(system, LoadState(t));
      system := After(system, LoadState(t));
    }

    /** `on_sent` before it calls `send_next_if_exists`. */
    method OnSentClear(ghost t: nat)
      requires Valid() && Enabled(system, ClearFlag(t))
      modifies this
      ensures Valid() && system == After(old(system), ClearFlag(t))
      ensures !isSending && messageQueue == old(messageQueue)
    {
      isSending := false;
      InvStep(system, ClearFlag(t));
      system := After(system, ClearFlag(t));
    }
  }
}
