/** The pool of reference-counted buffers: its counts under concurrency, and its cyclic search. */
module Pools {
  // ----- The count of one buffer, every atomic access a step -----

  /**
    `engaged`: the optional holds an object. `handles`: the shared objects alive. `constructing`: threads
    that have claimed the buffer and not constructed yet. `destroying` and `emptying`: threads that took the
    count to zero, before and after the object is destroyed. Then the objects made and destroyed so far.
   */
  datatype Buffer = Buffer(
    count: int, engaged: bool, handles: nat, constructing: nat, destroying: nat, emptying: nat,
    made: nat, destroyed: nat)

  const EMPTY: int := -1
  const UNUSED := Buffer(EMPTY, false, 0, 0, 0, 0, 0, 0)

  datatype Event =
    | TryStartUse
    | Emplace
    | ConstructorThrows
    | AddReference
    | Release
    | ResetObject
    | StoreEmpty

  /** Only a live handle can be copied or released. */
  predicate Enabled(b: Buffer, e: Event) {
    match e
    case TryStartUse => true
    case Emplace => b.constructing > 0
    case ConstructorThrows => b.constructing > 0
    case AddReference => b.handles > 0
    case Release => b.handles > 0
    case ResetObject => b.destroying > 0
    case StoreEmpty => b.emptying > 0
  }

  /** `fetch_sub`; whoever saw 1 goes on to destroy. */
  function Decrement(b: Buffer): Buffer {
    b.(count := b.count - 1, destroying := b.destroying + if b.count == 1 then 1 else 0)
  }

  function After(b: Buffer, e: Event): Buffer
    requires Enabled(b, e)
  {
    match e
    case TryStartUse => if b.count == EMPTY then b.(count := 1, constructing := b.constructing + 1) else b
    case Emplace =>
      b.(engaged := true, made := b.made + 1, constructing := b.constructing - 1, handles := b.handles + 1)
    case ConstructorThrows => Decrement(b.(constructing := b.constructing - 1))
    case AddReference => b.(count := b.count + 1, handles := b.handles + 1)
    case Release => Decrement(b.(handles := b.handles - 1))
    case ResetObject =>
      b.(engaged := false, destroyed := b.destroyed + (if b.engaged then 1 else 0),
         destroying := b.destroying - 1, emptying := b.emptying + 1)
    case StoreEmpty => b.(count := EMPTY, emptying := b.emptying - 1)
  }

  predicate Inv(b: Buffer) {
    && b.count >= EMPTY
    && b.made == b.destroyed + (if b.engaged then 1 else 0)
    && (b.count == EMPTY ==> b.handles == b.constructing == b.destroying == b.emptying == 0 && !b.engaged)
    && (b.count == 0 ==>
          && b.handles == b.constructing == 0 && b.destroying + b.emptying == 1
          && (b.emptying == 1 ==> !b.engaged))
    && (b.count > 0 ==>
          && b.count == b.handles + b.constructing && b.destroying == b.emptying == 0
          && (b.constructing > 0 ==> b.constructing == 1 && b.handles == 0 && !b.engaged)
          && (b.constructing == 0 ==> b.engaged))
  }

  /** The pool's buffers are independent; a step happens at one of them. */
  ghost predicate Next(pool: seq<Buffer>, pool': seq<Buffer>) {
    exists i, e :: 0 <= i < |pool| && Enabled(pool[i], e) && pool' == pool[i := After(pool[i], e)]
  }

  ghost predicate StepAt(run: seq<seq<Buffer>>, n: nat)
    requires n + 1 < |run|
  {
    Next(run[n], run[n + 1])
  }

  ghost predicate IsRun(run: seq<seq<Buffer>>) {
    && run != [] && (forall i :: 0 <= i < |run[0]| ==> run[0][i] == UNUSED)
    && forall n: nat :: n + 1 < |run| ==> StepAt(run, n)
  }

  lemma {:induction false} InvAlways(run: seq<seq<Buffer>>, n: nat, i: nat)
    requires IsRun(run) && n < |run| && i < |run[n]|
    ensures Inv(run[n][i])
  {
    if n > 0 {
      assert StepAt(run, n - 1);
      var pool := run[n - 1];
      var j, e :| 0 <= j < |pool| && Enabled(pool[j], e) && run[n] == pool[j := After(pool[j], e)];
      InvAlways(run, n - 1, i);
    }
  }

  /**
    In every run, a positive count is the number of live handles, plus one during construction;
    zero means exactly one thread is destroying; -1 means nobody has the buffer.
   */
  lemma CountMeans(run: seq<seq<Buffer>>, n: nat, i: nat)
    requires IsRun(run) && n < |run| && i < |run[n]|
    ensures var b := run[n][i];
            && (b.count > 0 <==> b.handles + b.constructing > 0)
            && (b.count > 0 ==> b.count == b.handles + b.constructing && b.constructing <= 1)
            && (b.count == 0 <==> b.destroying + b.emptying == 1) && b.destroying + b.emptying <= 1
            && (b.count == EMPTY <==> b.handles + b.constructing + b.destroying + b.emptying == 0)
  {
    InvAlways(run, n, i);
  }

  /**
    No object is constructed over another, or before the destruction of the last one is over; each is destroyed once.
   */
  lemma NoOverlappingObjects(run: seq<seq<Buffer>>, n: nat, i: nat)
    requires IsRun(run) && n < |run| && i < |run[n]|
    ensures var b := run[n][i];
            && (b.constructing > 0 ==>
                  !b.engaged && b.constructing == 1 && b.handles == b.destroying == b.emptying == 0)
            && (b.handles > 0 ==> b.engaged)
            && b.made - b.destroyed == if b.engaged then 1 else 0
  {
    InvAlways(run, n, i);
  }

  // ----- The search -----

  datatype Created = Created(index: nat) | BadAlloc | Rethrown

  function Cyclic(start: nat, k: nat, n: nat): nat
    requires start < n && k <= n
  {
    if start + k < n then start + k else start + k - n
  }

  /** How many steps from `start` the search reaches buffer `i`. */
  function StepsTo(start: nat, i: nat, n: nat): (k: nat)
    requires start < n && i < n
    ensures k < n && Cyclic(start, k, n) == i
  {
    if i >= start then i - start else i + n - start
  }

  /** The search has looked at these buffers, in cyclic order from `start`. */
  ghost predicate Visits(n: nat, start: nat, visited: seq<nat>) {
    start < n && |visited| <= n && forall k :: 0 <= k < |visited| ==> visited[k] == Cyclic(start, k, n)
  }

  ghost predicate InUse(buffers: seq<Buffer>, which: seq<nat>) {
    forall k :: 0 <= k < |which| ==> which[k] < |buffers| && buffers[which[k]].count != EMPTY
  }

  /** It looks at no buffer twice. */
  lemma VisitsOnce(n: nat, start: nat, visited: seq<nat>)
    requires Visits(n, start, visited)
    ensures forall j, k :: 0 <= j < k < |visited| ==> visited[j] != visited[k]
  {
  }

  /**
    One more look, at the next buffer; the index then stands at the start again exactly when all have been looked at.
   */
  lemma VisitNext(n: nat, start: nat, visited: seq<nat>)
    requires Visits(n, start, visited) && |visited| < n
    ensures var i := Cyclic(start, |visited|, n);
            Visits(n, start, visited + [i]) && Successor(i, n) == Cyclic(start, |visited| + 1, n)
    ensures Cyclic(start, |visited| + 1, n) == start <==> |visited| + 1 == n
  {
  }

  function Successor(i: nat, n: nat): nat {
    if i + 1 == n then 0 else i + 1
  }

  lemma AllVisited(buffers: seq<Buffer>, start: nat, visited: seq<nat>)
    requires Visits(|buffers|, start, visited) && |visited| == |buffers| && InUse(buffers, visited)
    ensures forall i :: 0 <= i < |buffers| ==> buffers[i].count != EMPTY
  {
    forall i | 0 <= i < |buffers|
      ensures buffers[i].count != EMPTY
    {
      assert visited[StepsTo(start, i, |buffers|)] == i;
    }
  }

  /** A free buffer that was claimed and got its object. */
  function Constructed(b: Buffer): Buffer
    requires b.count == EMPTY
  {
    After(After(b, TryStartUse), Emplace)
  }

  lemma BusyStays(buffers: seq<Buffer>, i: nat)
    requires i < |buffers| && buffers[i].count != EMPTY
    ensures buffers[i := After(buffers[i], TryStartUse)] == buffers
  {
  }

  class SharedObjectMemoryPool {
    var counts: array<int>
    var nextBufferIndex: nat
    /** The buffers that the counts are part of. */
    ghost var buffers: seq<Buffer>

    ghost predicate Valid()
      reads this, counts
    {
      && nextBufferIndex < counts.Length == |buffers|
      && forall i :: 0 <= i < counts.Length ==> Inv(buffers[i]) && counts[i] == buffers[i].count
    }

    constructor (numBuffers: nat)
      requires numBuffers > 0
      ensures Valid() && fresh(counts) && nextBufferIndex == 0
      ensures |buffers| == numBuffers && forall i :: 0 <= i < numBuffers ==> buffers[i] == UNUSED
    {
      counts := new int[numBuffers](_ => EMPTY);
      nextBufferIndex := 0;
      buffers := seq(numBuffers, _ => UNUSED);
    }

    /** `try_start_use`. */
    method TryStartUse(i: nat) returns (ok: bool)
      requires Valid() && i < |buffers|
      modifies this`buffers, counts
      ensures Valid() && counts == old(counts)
      ensures buffers == old(buffers)[i := After(old(buffers)[i], Event.TryStartUse)]
      ensures ok <==> old(buffers)[i].count == EMPTY
      ensures counts[i] == if ok then 1 else old(counts[i])
      ensures forall j :: 0 <= j < counts.Length && j != i ==> counts[j] == old(counts[j])
    {
      ok := counts[i] == EMPTY;
      buffers := buffers[i := After(buffers[i], Event.TryStartUse)];
      if ok {
        counts[i] := 1;
      }
    }

    /** `emplace`. */
    method Emplace(i: nat)
      requires Valid() && i < |buffers| && buffers[i].constructing > 0
      modifies this`buffers
      ensures Valid()
      ensures buffers == old(buffers)[i := After(old(buffers)[i], Event.Emplace)]
    {
      buffers := buffers[i := After(buffers[i], Event.Emplace)];
    }

    /** `release` after the constructor threw: three accesses, and the buffer is free again. */
    method ReleaseUnconstructed(i: nat)
      requires Valid() && i < |buffers| && buffers[i].constructing > 0
      modifies this`buffers, counts
      ensures Valid() && counts == old(counts)
      ensures buffers == old(buffers)[i := old(buffers)[i].(count := EMPTY, constructing := 0)]
    {
      var referenceCount := counts[i];
      counts[i] := referenceCount - 1;
      buffers := buffers[i := After(buffers[i], ConstructorThrows)];
      if referenceCount == 1 {
        buffers := buffers[i := After(buffers[i], ResetObject)];
        counts[i] := EMPTY;
        buffers := buffers[i := After(buffers[i], StoreEmpty)];
      }
    }

    /** `next_buffer_index_++` and the remainder by the number of buffers. */
    method NextIndex() returns (bufferIndex: nat)
      requires Valid()
      modifies this`nextBufferIndex
      ensures Valid() && bufferIndex == old(nextBufferIndex) && nextBufferIndex == Successor(bufferIndex, |buffers|)
    {
      bufferIndex := nextBufferIndex;
      nextBufferIndex := nextBufferIndex + 1;
      nextBufferIndex := nextBufferIndex % counts.Length;
    }

    /** The loop of `create` while nothing is released: claims the first free buffer in cyclic order. */
    method ClaimFree() returns (claimed: bool, bufferIndex: nat, ghost visited: seq<nat>)
      requires Valid()
      modifies this, counts
      ensures Valid() && counts == old(counts) && |buffers| == |old(buffers)|
      ensures var n := |buffers|;
              && visited != [] && Visits(n, old(nextBufferIndex), visited) && bufferIndex == visited[|visited| - 1] < n
              && nextBufferIndex == Cyclic(old(nextBufferIndex), |visited|, n)
      ensures InUse(old(buffers), visited[..|visited| - 1])
      ensures claimed ==> old(buffers)[bufferIndex].count == EMPTY
      ensures claimed ==> buffers == old(buffers)[bufferIndex := After(old(buffers)[bufferIndex], Event.TryStartUse)]
      ensures !claimed ==> |visited| == |buffers| && InUse(old(buffers), visited) && buffers == old(buffers)
    {
      var initialBufferIndex := nextBufferIndex;
      visited := [];
      while true
        invariant Valid() && counts == old(counts) && buffers == old(buffers)
        invariant Visits(|buffers|, initialBufferIndex, visited) && |visited| < |buffers|
        invariant nextBufferIndex == Cyclic(initialBufferIndex, |visited|, |buffers|) && InUse(buffers, visited)
        decreases |buffers| - |visited|
      {
        VisitNext(|buffers|, initialBufferIndex, visited);
        bufferIndex := NextIndex();
        ghost var before := visited;
        visited := visited + [bufferIndex];
        assert visited[..|visited| - 1] == before;
        claimed := TryStartUse(bufferIndex);
        if claimed {
          return;
        }
        BusyStays(old(buffers), bufferIndex);
        if nextBufferIndex == initialBufferIndex {
          return;
        }
      }
    }

    /** `create`. */
    method Create(constructorThrows: bool) returns (r: Created, ghost visited: seq<nat>)
      requires Valid()
      modifies this, counts
      ensures Valid() && counts == old(counts)
      ensures var n := |buffers|;
              && visited != [] && Visits(n, old(nextBufferIndex), visited)
              && nextBufferIndex == Cyclic(old(nextBufferIndex), |visited|, n)
      ensures InUse(old(buffers), visited[..|visited| - 1])
      ensures r == BadAlloc <==> forall i :: 0 <= i < |old(buffers)| ==> old(buffers)[i].count != EMPTY
      ensures r == BadAlloc ==> |visited| == |buffers|
      ensures r == Rethrown <==> r != BadAlloc && constructorThrows
      ensures r.Created? ==>
                && r.index == visited[|visited| - 1] < |old(buffers)| && old(buffers)[r.index].count == EMPTY
                && buffers == old(buffers)[r.index := Constructed(old(buffers)[r.index])]
      ensures !r.Created? ==> buffers == old(buffers)
    {
      ghost var start := nextBufferIndex;
      var claimed, bufferIndex;
      claimed, bufferIndex, visited := ClaimFree();
      if !claimed {
        AllVisited(buffers, start, visited);
        return BadAlloc, visited;
      }
      if constructorThrows {
        ReleaseUnconstructed(bufferIndex);
        return Rethrown, visited;
      }
      Emplace(bufferIndex);
      r := Created(bufferIndex);
    }
  }
}
