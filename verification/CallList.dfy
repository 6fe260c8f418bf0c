/** The client's pending calls: wrapping request ids, responses, timeouts, and the futures they resolve. */
module CallLists {
  import opened Wrappers
  import opened Msgpack
  import opened Messages

  datatype Outcome = Result(result: CallResult) | TimedOut

  // ----- The protocol of the list -----

  /**
    A call is known by its generation, the number of ids drawn before its own. `drawn`: ids taken from the
    generator and not registered yet. `futures`: the futures returned to callers. `sets`: every call of `set`.
   */
  datatype Calls = Calls(
    firstId: nat, generation: nat, drawn: set<nat>, list: map<nat, nat>,
    futures: map<nat, Option<Outcome>>, sets: seq<(nat, Outcome)>)

  function IdOf(c: Calls, g: nat): (id: nat)
    ensures id < U32
  {
    (c.firstId + g) % U32
  }

  /** Drawing and registering are apart, so that threads may register in any order. */
  datatype Event =
    | Draw
    | Register(g: nat)
    | Respond(id: nat, result: CallResult)
    | Expire(id: nat)

  predicate Enabled(c: Calls, e: Event) {
    e.Register? ==> e.g in c.drawn
  }

  /** A future keeps the first outcome it is given. */
  function SetFuture(f: Option<Outcome>, o: Outcome): Option<Outcome> {
    if f.Some? then f else Some(o)
  }

  function Resolve(c: Calls, id: nat, o: Outcome): Calls {
    if id !in c.list || c.list[id] !in c.futures then c else
      var g := c.list[id];
      c.(list := c.list - {id}, futures := c.futures[g := SetFuture(c.futures[g], o)], sets := c.sets + [(g, o)])
  }

  predicate Duplicate(c: Calls, g: nat) {
    IdOf(c, g) in c.list
  }

  function After(c: Calls, e: Event): Calls {
    match e
    case Draw => c.(generation := c.generation + 1, drawn := c.drawn + {c.generation})
    case Register(g) =>
      if Duplicate(c, g) then c.(drawn := c.drawn - {g})
      else c.(drawn := c.drawn - {g}, list := c.list[IdOf(c, g) := g], futures := c.futures[g := None])
    case Respond(id, result) => Resolve(c, id, Result(result))
    case Expire(id) => Resolve(c, id, TimedOut)
  }

  predicate Initial(c: Calls) {
    c.firstId < U32 && c == Calls(c.firstId, 0, {}, map[], map[], [])
  }

  ghost predicate StepAt(run: seq<Calls>, i: nat)
    requires i + 1 < |run|
  {
    exists e :: Enabled(run[i], e) && run[i + 1] == After(run[i], e)
  }

  ghost predicate IsRun(run: seq<Calls>) {
    && run != [] && Initial(run[0])
    && forall i: nat :: i + 1 < |run| ==> StepAt(run, i)
  }

  ghost predicate Pending(c: Calls, g: nat) {
    IdOf(c, g) in c.list && c.list[IdOf(c, g)] == g
  }

  ghost predicate ListInv(c: Calls) {
    && (forall g :: g in c.drawn ==> g < c.generation && g !in c.futures)
    && (forall g :: g in c.futures ==> g < c.generation && (c.futures[g] == None <==> Pending(c, g)))
    && (forall id :: id in c.list ==> IdOf(c, c.list[id]) == id && c.list[id] in c.futures)
  }

  ghost predicate WasSet(c: Calls, g: nat) {
    exists i :: 0 <= i < |c.sets| && c.sets[i].0 == g
  }

  ghost predicate SetsInv(c: Calls) {
    && (forall i :: 0 <= i < |c.sets| ==> c.sets[i].0 in c.futures && c.futures[c.sets[i].0] == Some(c.sets[i].1))
    && (forall i, j :: 0 <= i < j < |c.sets| ==> c.sets[i].0 != c.sets[j].0)
    && (forall g :: g in c.futures && c.futures[g].Some? ==> WasSet(c, g))
  }

  ghost predicate Inv(c: Calls) {
    ListInv(c) && SetsInv(c)
  }

  /** The call an entry stands for exists and is unset. */
  lemma EntryIsUnset(c: Calls, id: nat)
    requires ListInv(c) && id in c.list
    ensures c.list[id] in c.futures && c.futures[c.list[id]] == None
  {
    assert Pending(c, c.list[id]);
  }

  lemma ResolveKeepsList(c: Calls, id: nat, o: Outcome)
    requires ListInv(c) && id in c.list
    ensures ListInv(Resolve(c, id, o))
  {
    var g, c' := c.list[id], Resolve(c, id, o);
    EntryIsUnset(c, id);
    forall h | h in c'.futures
      ensures h < c'.generation && (c'.futures[h] == None <==> Pending(c', h))
    {
      assert IdOf(c, h) == IdOf(c', h);
      assert c.futures[h] == None <==> Pending(c, h);
    }
  }

  lemma ResolveKeepsSets(c: Calls, id: nat, o: Outcome)
    requires ListInv(c) && SetsInv(c) && id in c.list
    ensures SetsInv(Resolve(c, id, o))
  {
    var g, c' := c.list[id], Resolve(c, id, o);
    EntryIsUnset(c, id);
    assert c'.sets[|c.sets|] == (g, o);
    forall h | h in c'.futures && c'.futures[h].Some?
      ensures WasSet(c', h)
    {
      if h != g {
        assert WasSet(c, h);
        var i :| 0 <= i < |c.sets| && c.sets[i].0 == h;
        assert c'.sets[i].0 == h;
      }
    }
  }

  lemma ResolveKeepsInv(c: Calls, id: nat, o: Outcome)
    requires Inv(c)
    ensures Inv(Resolve(c, id, o))
  {
    if id in c.list {
      ResolveKeepsList(c, id, o);
      ResolveKeepsSets(c, id, o);
    }
  }

  lemma RegisterKeepsList(c: Calls, g: nat)
    requires ListInv(c) && g in c.drawn
    ensures ListInv(After(c, Register(g)))
  {
    var c' := After(c, Register(g));
    forall h | h in c'.futures
      ensures h < c'.generation && (c'.futures[h] == None <==> Pending(c', h))
    {
      assert IdOf(c, h) == IdOf(c', h);
      assert h != g ==> (c.futures[h] == None <==> Pending(c, h));
    }
  }

  lemma RegisterKeepsSets(c: Calls, g: nat)
    requires ListInv(c) && SetsInv(c) && g in c.drawn
    ensures SetsInv(After(c, Register(g)))
  {
    var c' := After(c, Register(g));
    forall h | h in c'.futures && c'.futures[h].Some?
      ensures WasSet(c', h)
    {
      assert WasSet(c, h);
    }
  }

  lemma InvStep(c: Calls, e: Event)
    requires Inv(c) && Enabled(c, e)
    ensures Inv(After(c, e)) && After(c, e).firstId == c.firstId
  {
    match e
    case Draw =>
      var c' := After(c, e);
      assert forall h :: Pending(c', h) == Pending(c, h);
      assert forall h :: WasSet(c', h) == WasSet(c, h);
    case Register(g) =>
      RegisterKeepsList(c, g);
      RegisterKeepsSets(c, g);
    case Respond(id, result) => ResolveKeepsInv(c, id, Result(result));
    case Expire(id) => ResolveKeepsInv(c, id, TimedOut);
  }

  lemma {:induction false} InvAlways(run: seq<Calls>, i: nat)
    requires IsRun(run) && i < |run|
    ensures Inv(run[i]) && run[i].firstId == run[0].firstId
  {
    if i == 0 {
      assert forall g :: !Pending(run[0], g);
    } else {
      InvAlways(run, i - 1);
      assert StepAt(run, i - 1);
      var e :| Enabled(run[i - 1], e) && run[i] == After(run[i - 1], e);
      InvStep(run[i - 1], e);
    }
  }

  /** What resolving an entry does to the futures: only one under that id changes, from unset. */
  lemma ResolveChanges(c: Calls, id: nat, o: Outcome, g: nat)
    requires Inv(c)
    ensures var c' := Resolve(c, id, o);
            && c'.futures.Keys == c.futures.Keys && c'.firstId == c.firstId && c'.generation == c.generation
            && (g in c.futures ==> c'.futures[g] == c.futures[g] || (IdOf(c, g) == id && c'.futures[g] == Some(o)))
  {
    if id in c.list {
      EntryIsUnset(c, id);
    }
  }

  lemma GenerationsBelow(c: Calls, g: nat)
    requires Inv(c)
    ensures g in c.futures || g in c.drawn ==> g < c.generation
    ensures g in c.drawn ==> g !in c.futures
  {
  }

  // ----- What holds in every run -----

  ghost predicate SetOnce(c: Calls, g: nat, o: Outcome) {
    exists i :: 0 <= i < |c.sets| && c.sets[i] == (g, o) && forall j :: 0 <= j < |c.sets| && c.sets[j].0 == g ==> j == i
  }

  /**
    A returned future is either unset, with one entry under its id and under no other, and `set` was never called on it;
    or `set` was called on it exactly once, with the outcome it holds, and it has no entry.
   */
  lemma EachFutureResolvedOnce(run: seq<Calls>, i: nat, g: nat)
    requires IsRun(run) && i < |run| && g in run[i].futures
    ensures var c := run[i];
            match c.futures[g]
            case None =>
              && (forall id :: id in c.list && c.list[id] == g <==> id == IdOf(c, g))
              && (forall j :: 0 <= j < |c.sets| ==> c.sets[j].0 != g)
            case Some(o) =>
              && (forall id :: id in c.list ==> c.list[id] != g)
              && SetOnce(c, g, o)
  {
    InvAlways(run, i);
    var c := run[i];
    if c.futures[g].Some? {
      assert WasSet(c, g);
      var k :| 0 <= k < |c.sets| && c.sets[k].0 == g;
      assert c.sets[k] == (g, c.futures[g].value);
      assert forall j :: 0 <= j < |c.sets| && c.sets[j].0 == g ==> j == k;
      assert SetOnce(c, g, c.futures[g].value);
    }
  }

  /** An outcome, once there, is there for good. */
  lemma {:induction false} OutcomesAreFinal(run: seq<Calls>, i: nat, j: nat, g: nat)
    requires IsRun(run) && i <= j < |run| && g in run[i].futures && run[i].futures[g].Some?
    ensures g in run[j].futures && run[j].futures[g] == run[i].futures[g]
    decreases j
  {
    if i < j {
      OutcomesAreFinal(run, i, j - 1, g);
      assert StepAt(run, j - 1);
      InvAlways(run, j - 1);
    }
  }

  /**
    Registering fails exactly when a call a nonzero multiple of 2^32 generations away is still pending;
    in particular it succeeds while every pending call is fewer than 2^32 generations away.
   */
  lemma DuplicateIffWrapped(run: seq<Calls>, i: nat, g: nat)
    requires IsRun(run) && i < |run| && g in run[i].drawn
    ensures var c := run[i];
            Duplicate(c, g) <==>
            exists h :: h in c.futures && c.futures[h] == None && h != g && (h - g) % U32 == 0
    ensures var c := run[i];
            (forall h :: h in c.futures && c.futures[h] == None ==> h < g + U32 && g < h + U32) ==> !Duplicate(c, g)
  {
    InvAlways(run, i);
    var c := run[i];
    if Duplicate(c, g) {
      var h := c.list[IdOf(c, g)];
      SameId(c, g, h);
      assert Pending(c, h);
    }
    forall h | h in c.futures && c.futures[h] == None && h != g && (h - g) % U32 == 0
      ensures Duplicate(c, g)
    {
      SameId(c, g, h);
      assert Pending(c, h);
    }
  }

  lemma SameId(c: Calls, g: nat, h: nat)
    ensures IdOf(c, g) == IdOf(c, h) <==> (h - g) % U32 == 0
  {
  }

  // ----- `create` after it has released the mutex -----

  ghost predicate EventAt(run: seq<Calls>, events: seq<Event>, i: nat)
    requires i < |events| && i + 1 < |run|
  {
    Enabled(run[i], events[i]) && run[i + 1] == After(run[i], events[i])
  }

  ghost predicate IsEventRun(run: seq<Calls>, events: seq<Event>) {
    && |run| == |events| + 1 && Initial(run[0])
    && forall i: nat :: i < |events| ==> EventAt(run, events, i)
  }

  predicate Resolves(e: Event, id: nat) {
    (e.Respond? || e.Expire?) && e.id == id
  }

  /** A registered call stays in the list until a response or a timeout under its id, and does not come back. */
  lemma PendingStep(c: Calls, e: Event, g: nat)
    requires Inv(c) && Enabled(c, e) && g in c.futures
    ensures g in After(c, e).futures && IdOf(After(c, e), g) == IdOf(c, g)
    ensures Pending(After(c, e), g) <==> Pending(c, g) && !Resolves(e, IdOf(c, g))
    ensures !(Pending(c, g) && Resolves(e, IdOf(c, g))) ==> After(c, e).futures[g] == c.futures[g]
  {
    if Resolves(e, IdOf(c, g)) && e.id in c.list {
      EntryIsUnset(c, e.id);
    }
  }

  lemma {:induction false} EventRunInv(run: seq<Calls>, events: seq<Event>, i: nat)
    requires IsEventRun(run, events) && i < |run|
    ensures Inv(run[i])
  {
    if i == 0 {
      InvAlways([run[0]], 0);
    } else {
      EventRunInv(run, events, i - 1);
      assert EventAt(run, events, i - 1);
      InvStep(run[i - 1], events[i - 1]);
    }
  }

  /**
    `create` goes on with a reference to the entry after it has released the mutex. For every run: whenever it touches
    the entry, that is alive if and only if no response was handled and no timeout ran out under the id in between.
   */
  lemma {:induction false} TouchesLiveEntryIff(run: seq<Calls>, events: seq<Event>, i: nat, j: nat, g: nat)
    requires IsEventRun(run, events) && i < j < |run| && events[i] == Register(g) && !Duplicate(run[i], g)
    ensures g in run[j].futures && IdOf(run[j], g) == IdOf(run[i], g)
    ensures Pending(run[j], g) <==> forall k :: i < k < j ==> !Resolves(events[k], IdOf(run[i], g))
    decreases j
  {
    assert EventAt(run, events, j - 1);
    if i == j - 1 {
      assert Pending(run[j], g);
    } else {
      TouchesLiveEntryIff(run, events, i, j - 1, g);
      EventRunInv(run, events, j - 1);
      PendingStep(run[j - 1], events[j - 1], g);
    }
  }

  lemma {:induction false} SetStays(run: seq<Calls>, events: seq<Event>, i: nat, j: nat, g: nat)
    requires IsEventRun(run, events) && i <= j < |run| && g in run[i].futures && run[i].futures[g].Some?
    ensures g in run[j].futures && run[j].futures[g] == run[i].futures[g]
    decreases j
  {
    if i < j {
      SetStays(run, events, i, j - 1, g);
      assert EventAt(run, events, j - 1);
      EventRunInv(run, events, j - 1);
      PendingStep(run[j - 1], events[j - 1], g);
    }
  }

  /** A pending call gets the result of the first response under its id, or a timeout if that comes first, for good. */
  lemma FirstEventDecides(run: seq<Calls>, events: seq<Event>, k: nat, j: nat, g: nat)
    requires IsEventRun(run, events) && k < j < |run| && Pending(run[k], g)
    ensures forall r :: events[k] == Respond(IdOf(run[k], g), r) ==>
              g in run[j].futures && run[j].futures[g] == Some(Result(r))
    ensures events[k] == Expire(IdOf(run[k], g)) ==> g in run[j].futures && run[j].futures[g] == Some(TimedOut)
  {
    assert EventAt(run, events, k);
    EventRunInv(run, events, k);
    EntryIsUnset(run[k], IdOf(run[k], g));
    if Resolves(events[k], IdOf(run[k], g)) {
      SetStays(run, events, k + 1, j, g);
    }
  }

  // ----- The code -----

  /** `CallFutureImpl`: `status_` is only set by `set(const Status&)`, here always a timeout. */
  class CallFuture {
    var isSet: bool
    var result: Option<CallResult>

    predicate Valid()
      reads this
    {
      !isSet ==> result == None
    }

    constructor ()
      ensures Valid() && Outcome() == None
    {
      isSet, result := false, None;
    }

    function Outcome(): Option<Outcome>
      reads this
    {
      if !isSet then None else if result.Some? then Some(Result(result.value)) else Some(TimedOut)
    }

    method SetResult(r: CallResult)
      requires Valid()
      modifies this
      ensures Valid() && Outcome() == SetFuture(old(Outcome()), Result(r))
      ensures Outcome() == if old(Outcome()) == None then Some(Result(r)) else old(Outcome())
    {
      if isSet {
        return;
      }
      result := Some(r);
      isSet := true;
    }

    method SetTimeout()
      requires Valid()
      modifies this
      ensures Valid() && Outcome() == SetFuture(old(Outcome()), TimedOut)
      ensures Outcome() == if old(Outcome()) == None then Some(TimedOut) else old(Outcome())
    {
      if isSet {
        return;
      }
      isSet := true;
    }

    /**
      `Failure` stands for the exception of a wait that ran out, or for the one that reports the timeout of the call.
     */
    method GetResult() returns (r: Wrappers.Result<CallResult, Outcome>)
      ensures match Outcome()
              case Some(Result(result)) => r == Success(result)
              case _ => r == Failure(TimedOut)
    {
      if isSet && result.Some? {
        return Success(result.value);
      }
      return Failure(TimedOut);
    }
  }

  class CallList {
    var nextId: nat
    var list: map<nat, CallFuture>
    ghost var calls: Calls
    /** The futures handed out, by generation. */
    ghost var returned: map<nat, CallFuture>
    /** The generation of each future handed out. */
    ghost var owners: map<CallFuture, nat>

    /** Entries are the returned futures of their calls, and each future holds the outcome of its call. */
    ghost predicate Mirrors(entries: map<nat, nat>, futures: map<nat, Option<Outcome>>)
      reads this, returned.Values
    {
      && list.Keys == entries.Keys && returned.Keys == futures.Keys
      && (forall id :: id in list ==> entries[id] in returned && list[id] == returned[entries[id]])
      && (forall g :: g in returned ==> returned[g].Valid() && returned[g].Outcome() == futures[g])
      && (forall g :: g in returned ==> returned[g] in owners && owners[returned[g]] == g)
    }

    ghost predicate Valid()
      reads this, returned.Values
    {
      nextId == (calls.firstId + calls.generation) % U32 && Mirrors(calls.list, calls.futures)
    }

    constructor (firstId: nat)
      requires firstId < U32
      ensures Valid() && calls == Calls(firstId, 0, {}, map[], map[], [])
    {
      nextId, list, returned, owners := firstId, map[], map[], map[];
      calls := Calls(firstId, 0, {}, map[], map[], []);
    }

    /** `RequestIDGenerator::generate`, a post-increment modulo 2^32. */
    method GenerateId() returns (id: nat)
      requires Valid()
      modifies this`nextId, this`calls
      ensures Valid() && calls == After(old(calls), Draw)
      ensures id == IdOf(calls, old(calls.generation)) == old(nextId) && nextId == (id + 1) % U32
    {
      id := nextId;
      nextId := (nextId + 1) % U32;
      NextIdWraps(calls.firstId + calls.generation);
      calls := After(calls, Draw);
    }

    /** The locked block of `create`; false is the exception "Duplicate request ID.". */
    method RegisterCall(id: nat, ghost g: nat) returns (ok: bool)
      requires Valid() && g in calls.drawn && g !in calls.futures && id == IdOf(calls, g)
      modifies this`list, this`calls, this`returned, this`owners
      ensures Valid() && calls == After(old(calls), Register(g))
      ensures ok <==> id !in old(list)
      ensures ok ==> g in returned && fresh(returned[g]) && returned == old(returned)[g := returned[g]]
      ensures ok ==> list == old(list)[id := returned[g]] && returned[g].Outcome() == None
      ensures !ok ==> returned == old(returned) && list == old(list)
    {
      if id in list {
        calls := After(calls, Register(g));
        return false;
      }
      var call := new CallFuture();
      list := list[id := call];
      calls := After(calls, Register(g));
      returned, owners := returned[g := call], owners[call := g];
      return true;
    }

    /** What `create` does next, without the mutex: it reads the future from the entry, which must be alive. */
    method FutureOf(id: nat, ghost g: nat) returns (future: CallFuture)
      requires Valid() && id == IdOf(calls, g) && Pending(calls, g)
      ensures g in returned && future == returned[g] && future.Outcome() == calls.futures[g]
    {
      future := list[id];
    }

    /** No other future is the one of an entry. */
    lemma OthersApart(id: nat, g: nat)
      requires Valid() && id in list && g == calls.list[id]
      ensures forall h :: h in returned && h != g ==> returned[h] != list[id]
    {
      forall h | h in returned && h != g
        ensures returned[h] != list[id]
      {
        assert owners[returned[h]] == h;
      }
    }

    /**
      The future under the id, if any, gets the result, and its entry goes; nothing else changes. An entry is always
      unset, by `EntryIsUnset`.
     */
    method Handle(id: nat, result: CallResult)
      requires Valid()
      modifies this`list, this`calls, if id in list then {list[id]} else {}
      ensures Valid() && calls == After(old(calls), Respond(id, result))
      ensures list == old(list) - {id}
      ensures id in old(list) && old(list[id].Outcome()) == None ==> old(list)[id].Outcome() == Some(Result(result))
      ensures id in old(list) && old(list[id].Outcome()).Some? ==> old(list)[id].Outcome() == old(list[id].Outcome())
    {
      if id !in list {
        return;
      }
      ghost var g := calls.list[id];
      OthersApart(id, g);
      list[id].SetResult(result);
      assert forall h :: h in returned && h != g ==> returned[h].Valid() && returned[h].Outcome() == calls.futures[h];
      list := list - {id};
      calls := After(calls, Respond(id, result));
    }

    /** The future under the id, if any, times out, and its entry goes; nothing else changes. */
    method OnTimeout(id: nat)
      requires Valid()
      modifies this`list, this`calls, if id in list then {list[id]} else {}
      ensures Valid() && calls == After(old(calls), Expire(id))
      ensures list == old(list) - {id}
      ensures id in old(list) && old(list[id].Outcome()) == None ==> old(list)[id].Outcome() == Some(TimedOut)
      ensures id in old(list) && old(list[id].Outcome()).Some? ==> old(list)[id].Outcome() == old(list[id].Outcome())
    {
      if id !in list {
        return;
      }
      ghost var g := calls.list[id];
      OthersApart(id, g);
      list[id].SetTimeout();
      assert forall h :: h in returned && h != g ==> returned[h].Valid() && returned[h].Outcome() == calls.futures[h];
      list := list - {id};
      calls := After(calls, Expire(id));
    }
  }

  lemma NextIdWraps(n: nat)
    ensures (n % U32 + 1) % U32 == (n + 1) % U32
  {
  }
}
