/** Establishing a connection: one attempt for each address in turn, and the waits between the rounds. */
module Connecting {
  import opened Wrappers
  import opened Powers

  // ----- Failover -----

  /** What becomes of the attempt at one address. With an unregistered scheme there is no backend to ask. */
  datatype Attempt = ThrowsError | FailsLater | Connects(connection: nat) | Unregistered

  datatype Callback = Connected(connection: nat) | ConnectionFailure

  predicate Fails(a: Attempt) { a == ThrowsError || a == FailsLater }

  /** The first address that does not simply fail, from `i` on. */
  function Decisive(attempts: seq<Attempt>, i: nat): (k: nat)
    requires i <= |attempts|
    ensures i <= k <= |attempts|
    ensures forall j :: i <= j < k ==> Fails(attempts[j])
    ensures k < |attempts| ==> !Fails(attempts[k])
    decreases |attempts| - i
  {
    if i == |attempts| || !Fails(attempts[i]) then i else Decisive(attempts, i + 1)
  }

  class MultiBackendConnector {
    const attempts: seq<Attempt>
    var currentUri: nat
    /** The addresses tried, and the calls of the callback. */
    ghost var tried: seq<nat>
    ghost var callbacks: seq<Callback>

    constructor (attempts: seq<Attempt>)
      requires attempts != []
      ensures this.attempts == attempts && currentUri == 0 && tried == [] && callbacks == []
    {
      this.attempts := attempts;
      currentUri, tried, callbacks := 0, [], [];
    }

    /** All addresses from `i` to the decisive one were tried, in order, and the callback told the outcome, once. */
    ghost predicate Decided(i: nat, triedBefore: seq<nat>, callbacksBefore: seq<Callback>, escaped: bool)
      requires i <= |attempts|
      reads this
    {
      var k, n := Decisive(attempts, i), |attempts|;
      && tried == triedBefore + seq((if k < n then k + 1 else n) - i, j requires j >= 0 => i + j)
      && callbacks == callbacksBefore + (
           if k == n then [ConnectionFailure]
           else if attempts[k].Connects? then [Connected(attempts[k].connection)]
           else [])
      && (escaped <==> k < n && attempts[k] == Unregistered)
    }

    method Start() returns (escaped: bool)
      requires currentUri == 0 && |attempts| > 0 && tried == [] && callbacks == []
      modifies this
      ensures Decided(0, [], [], escaped)
      ensures !escaped ==> |callbacks| == 1
      ensures forall k, c ::
                && 0 <= k < |attempts| && attempts[k] == Connects(c)
                && (forall j :: 0 <= j < k ==> attempts[j] == ThrowsError || attempts[j] == FailsLater)
                ==> callbacks == [Connected(c)]
      ensures (forall j :: 0 <= j < |attempts| ==> attempts[j] == ThrowsError || attempts[j] == FailsLater) ==>
                callbacks == [ConnectionFailure]
    {
      escaped := AsyncConnect();
    }

    /** The result of an attempt: a connection, or an error status. */
    method HandleResult(connection: Option<nat>) returns (escaped: bool)
      requires currentUri < |attempts|
      modifies this
      ensures connection.Some? ==>
                !escaped && tried == old(tried) && callbacks == old(callbacks) + [Connected(connection.value)]
      ensures connection == None && old(currentUri) + 1 == |attempts| ==>
                !escaped && tried == old(tried) && callbacks == old(callbacks) + [ConnectionFailure]
      ensures connection == None && old(currentUri) + 1 < |attempts| ==>
                Decided(old(currentUri) + 1, old(tried), old(callbacks), escaped)
      decreases |attempts| - currentUri, 0
    {
      if connection.Some? {
        callbacks := callbacks + [Connected(connection.value)];
        return false;
      }
      currentUri := currentUri + 1;
      if currentUri == |attempts| {
        callbacks := callbacks + [ConnectionFailure];
        return false;
      }
      escaped := AsyncConnect();
    }

    /** True: the exception of the search for a backend escapes, and there is no callback. */
    method AsyncConnect() returns (escaped: bool)
      requires currentUri < |attempts|
      modifies this
      ensures Decided(old(currentUri), old(tried), old(callbacks), escaped)
      decreases |attempts| - currentUri, 1
    {
      tried := tried + [currentUri];
      match attempts[currentUri]
      case Unregistered => escaped := true;
      case Connects(connection) => escaped := HandleResult(Some(connection));
      case ThrowsError => escaped := HandleResult(None);
      case FailsLater => escaped := HandleResult(None);
    }
  }

  // ----- Backoff -----

  /** Times in nanoseconds, counted by a signed 64-bit integer. */
  const NANOSECONDS_LIMIT: int := 0x8000_0000_0000_0000
  const HALF_LIMIT: int := 0x4000_0000_0000_0000

  function Min(a: int, b: int): int {
    if a <= b then a else b
  }

  /** What is stored after `k` failures since the last reset. */
  function Stored(initial: nat, max: nat, k: nat): int {
    Min(initial * Pow2(k), max)
  }

  function DoubleCapped(wait: int, max: int): int {
    if 2 * wait > max then max else 2 * wait
  }

  datatype Event = Failed | Succeeded

  /** The stored wait after a run, step by step as the timer computes it. */
  function NextWait(initial: nat, max: nat, events: seq<Event>): int {
    if events == [] then initial
    else if events[|events| - 1] == Succeeded then initial
    else DoubleCapped(NextWait(initial, max, events[..|events| - 1]), max)
  }

  function FailuresSinceReset(events: seq<Event>): nat {
    if events == [] || events[|events| - 1] == Succeeded then 0
    else 1 + FailuresSinceReset(events[..|events| - 1])
  }

  lemma StoredDoubles(initial: nat, max: nat, k: nat)
    requires 0 < initial <= max
    ensures Stored(initial, max, k + 1) == DoubleCapped(Stored(initial, max, k), max)
    ensures initial <= Stored(initial, max, k) <= max
  {
    assert Pow2(k + 1) == 2 * Pow2(k);
    assert initial * Pow2(k + 1) == 2 * (initial * Pow2(k));
    assert initial * Pow2(k) >= initial * 1;
  }

  /** In every run the stored wait is the initial one doubled for each failure since the last reset, up to the cap. */
  lemma {:induction false} NextWaitIsStored(initial: nat, max: nat, events: seq<Event>)
    requires 0 < initial <= max
    ensures NextWait(initial, max, events) == Stored(initial, max, FailuresSinceReset(events))
    ensures initial <= NextWait(initial, max, events) <= max
  {
    var k := FailuresSinceReset(events);
    StoredDoubles(initial, max, k);
    if k == 0 {
      assert Pow2(0) == 1;
    } else {
      NextWaitIsStored(initial, max, events[..|events| - 1]);
      StoredDoubles(initial, max, k - 1);
    }
  }

  /** Neither the sum nor the doubling of the next failure leaves 64 bits. Beyond that C++ defines nothing. */
  predicate Fits(wait: int, jitter: nat) {
    wait + jitter < NANOSECONDS_LIMIT && 2 * wait < NANOSECONDS_LIMIT
  }

  /** No failure of any run overflows exactly when the cap is below 2^62 and cap and jitter together below 2^63. */
  lemma NeverOverflowsIff(initial: nat, max: nat, maxJitter: nat)
    requires 0 < initial <= max
    ensures (forall events :: Fits(NextWait(initial, max, events), maxJitter))
            <==> max < HALF_LIMIT && max + maxJitter < NANOSECONDS_LIMIT
  {
    if max < HALF_LIMIT && max + maxJitter < NANOSECONDS_LIMIT {
      forall events
        ensures Fits(NextWait(initial, max, events), maxJitter)
      {
        NextWaitIsStored(initial, max, events);
      }
    } else {
      var events := seq(62, _ => Failed);
      NextWaitIsStored(initial, max, events);
      ManyFailures(62);
      Pow2Values();
      assert initial * Pow2(62) >= 1 * Pow2(62);
      assert !Fits(NextWait(initial, max, events), maxJitter);
    }
  }

  lemma {:induction false} ManyFailures(n: nat)
    ensures FailuresSinceReset(seq(n, _ => Failed)) == n
  {
    if n > 0 {
      ManyFailures(n - 1);
      assert seq(n, _ => Failed)[..n - 1] == seq(n - 1, _ => Failed);
    }
  }

  class ReconnectionTimer {
    const initialWaitingTime: nat
    const maxWaitingTime: nat
    const maxJitter: nat
    var nextWaitTimeWithoutJitter: int
    /** The run so far. */
    ghost var events: seq<Event>

    ghost predicate Valid()
      reads this
    {
      && 0 < initialWaitingTime <= maxWaitingTime
      && nextWaitTimeWithoutJitter == NextWait(initialWaitingTime, maxWaitingTime, events)
    }

    constructor (initial: nat, max: nat, jitter: nat)
      requires 0 < initial <= max
      ensures Valid() && events == []
      ensures initialWaitingTime == initial && maxWaitingTime == max && maxJitter == jitter
    {
      initialWaitingTime, maxWaitingTime, maxJitter := initial, max, jitter;
      nextWaitTimeWithoutJitter, events := initial, [];
    }

    /**
      The constructor's check; `None` is its exception. The configuration has already refused times that are not
      positive.
     */
    static method Make(initial: nat, max: nat, jitter: nat) returns (timer: Option<ReconnectionTimer>)
      requires 0 < initial
      ensures timer == None <==> max < initial
      ensures timer.Some? ==> fresh(timer.value) && timer.value.Valid() && timer.value.events == []
      ensures timer.Some? ==> var t := timer.value;
                t.initialWaitingTime == initial && t.maxWaitingTime == max && t.maxJitter == jitter
    {
      if max < initial {
        return None;
      }
      var t := new ReconnectionTimer(initial, max, jitter);
      return Some(t);
    }

    method Reset()
      requires Valid()
      modifies this
      ensures Valid() && events == old(events) + [Succeeded]
      ensures nextWaitTimeWithoutJitter == initialWaitingTime
    {
      nextWaitTimeWithoutJitter := initialWaitingTime;
      events := events + [Succeeded];
    }

    /**
      The wait of the failure after `k` others lies between the `k`-th stored wait and that plus the jitter.
      `NeverOverflowsIff` says for which configurations its demand is always met.
     */
    method ComputeWaitingTime(jitter: nat) returns (waitTime: int)
      requires Valid() && jitter <= maxJitter && Fits(nextWaitTimeWithoutJitter, jitter)
      modifies this
      ensures Valid() && events == old(events) + [Failed]
      ensures var k := FailuresSinceReset(old(events));
              var base := Stored(initialWaitingTime, maxWaitingTime, k);
              && base <= waitTime <= base + maxJitter
              && waitTime == base + jitter < NANOSECONDS_LIMIT
      ensures waitTime == old(nextWaitTimeWithoutJitter) + jitter
      ensures 2 * old(nextWaitTimeWithoutJitter) <= maxWaitingTime ==>
                nextWaitTimeWithoutJitter == 2 * old(nextWaitTimeWithoutJitter)
      ensures 2 * old(nextWaitTimeWithoutJitter) > maxWaitingTime ==> nextWaitTimeWithoutJitter == maxWaitingTime
      ensures initialWaitingTime <= nextWaitTimeWithoutJitter <= maxWaitingTime
    {
      NextWaitIsStored(initialWaitingTime, maxWaitingTime, events);
      waitTime := nextWaitTimeWithoutJitter;
      waitTime := waitTime + jitter;
      nextWaitTimeWithoutJitter := nextWaitTimeWithoutJitter * 2;
      assert nextWaitTimeWithoutJitter < NANOSECONDS_LIMIT;
      if nextWaitTimeWithoutJitter > maxWaitingTime {
        nextWaitTimeWithoutJitter := maxWaitingTime;
      }
      assert (events + [Failed])[..|events|] == events;
      events := events + [Failed];
    }
  }
}
