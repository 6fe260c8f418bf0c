/** Reference-counted message blocks: every way to copy, move, assign and destroy the handles on them. */
module RefCounts {
  import opened Wrappers
  import opened Bytes

  datatype Block = Block(count: int, freed: bool, data: bytes)

  /** Blocks are never reused here, so that touching a freed one shows. A moved-from handle holds nothing. */
  datatype Store = Store(blocks: seq<Block>, handles: map<nat, Option<nat>>, frees: seq<nat>)

  const EMPTY_STORE := Store([], map[], [])

  datatype Op =
    | Create(h: nat, data: bytes)
    | CopyConstruct(h: nat, from: nat)
    | MoveConstruct(h: nat, from: nat)
    | CopyAssign(to: nat, from: nat)
    | MoveAssign(to: nat, from: nat)
    | Destroy(h: nat)
    | Access(h: nat)

  /** The lifetimes that C++ itself demands. */
  predicate Enabled(s: Store, op: Op) {
    match op
    case Create(h, _) => h !in s.handles
    case CopyConstruct(h, from) => h !in s.handles && from in s.handles
    case MoveConstruct(h, from) => h !in s.handles && from in s.handles
    case CopyAssign(to, from) => to in s.handles && from in s.handles
    case MoveAssign(to, from) => to in s.handles && from in s.handles
    case Destroy(h) => h in s.handles
    case Access(h) => h in s.handles
  }

  /** `None` is undefined behaviour: a null or freed block was touched. */
  function Add(s: Store, b: Option<nat>): Option<Store> {
    if b == None || b.value >= |s.blocks| || s.blocks[b.value].freed then None
    else Some(s.(blocks := s.blocks[b.value := s.blocks[b.value].(count := s.blocks[b.value].count + 1)]))
  }

  function Decrease(s: Store, b: nat): Option<Store> {
    if b >= |s.blocks| || s.blocks[b].freed then None
    else if s.blocks[b].count == 1 then
      Some(s.(blocks := s.blocks[b := s.blocks[b].(count := 0, freed := true)], frees := s.frees + [b]))
    else Some(s.(blocks := s.blocks[b := s.blocks[b].(count := s.blocks[b].count - 1)]))
  }

  function DecreaseIfAny(s: Store, b: Option<nat>): Option<Store> {
    if b == None then Some(s) else Decrease(s, b.value)
  }

  function Apply(s: Store, op: Op): Option<Store>
    requires Enabled(s, op)
  {
    match op
    case Create(h, data) =>
      Some(s.(blocks := s.blocks + [Block(1, false, data)], handles := s.handles[h := Some(|s.blocks|)]))
    case CopyConstruct(h, from) => Add(s.(handles := s.handles[h := s.handles[from]]), s.handles[from])
    case MoveConstruct(h, from) => Some(s.(handles := s.handles[h := s.handles[from]][from := None]))
    case CopyAssign(to, from) =>
      if to == from then Some(s) else
        (match DecreaseIfAny(s, s.handles[to])
         case None => None
         case Some(s') => Add(s'.(handles := s'.handles[to := s.handles[from]]), s.handles[from]))
    case MoveAssign(to, from) => Some(s.(handles := s.handles[to := s.handles[from]][from := s.handles[to]]))
    case Destroy(h) =>
      match DecreaseIfAny(s, s.handles[h]) {
        case None => None
        case Some(s') => Some(s'.(handles := s'.handles - {h}))
      }
    case Access(h) =>
      var b := s.handles[h];
      if b == None || b.value >= |s.blocks| || s.blocks[b.value].freed then None else Some(s)
  }

  // ----- The invariant -----

  function On(handles: map<nat, Option<nat>>, b: nat): set<nat> {
    set h | h in handles && handles[h] == Some(b)
  }

  ghost predicate BlockInv(s: Store, b: nat)
    requires b < |s.blocks|
  {
    && s.blocks[b].count == |On(s.handles, b)|
    && (s.blocks[b].freed <==> On(s.handles, b) == {})
    && (s.blocks[b].freed <==> b in s.frees)
  }

  ghost predicate Inv(s: Store) {
    && (forall b :: 0 <= b < |s.blocks| ==> BlockInv(s, b))
    && (forall h :: h in s.handles && s.handles[h].Some? ==> s.handles[h].value < |s.blocks|)
    && (forall i :: 0 <= i < |s.frees| ==> s.frees[i] < |s.blocks|)
    && (forall i, j :: 0 <= i < j < |s.frees| ==> s.frees[i] != s.frees[j])
  }

  /** The operation reads the block of a moved-from handle. */
  predicate UsesMovedFrom(s: Store, op: Op)
    requires Enabled(s, op)
  {
    match op
    case CopyConstruct(_, from) => s.handles[from] == None
    case CopyAssign(to, from) => to != from && s.handles[from] == None
    case Access(h) => s.handles[h] == None
    case _ => false
  }

  lemma OnUpdate(handles: map<nat, Option<nat>>, h: nat, v: Option<nat>, b: nat)
    ensures On(handles[h := v], b) == if v == Some(b) then On(handles, b) + {h} else On(handles, b) - {h}
  {
  }

  /** Giving up the block of a handle: it was not freed, and is freed now exactly if no handle is left on it. */
  lemma Drop(s: Store, h: nat)
    requires Inv(s) && h in s.handles && s.handles[h].Some?
    ensures var r := Decrease(s, s.handles[h].value);
            && r.Some? && r.value.handles == s.handles
            && Inv(r.value.(handles := s.handles[h := None]))
  {
    var b := s.handles[h].value;
    assert h in On(s.handles, b);
    assert BlockInv(s, b);
    var s' := Decrease(s, b).value.(handles := s.handles[h := None]);
    forall c | 0 <= c < |s'.blocks|
      ensures BlockInv(s', c)
    {
      assert BlockInv(s, c);
      OnUpdate(s.handles, h, None, c);
      assert c != b ==> h !in On(s.handles, c);
    }
  }

  /** Putting an empty or new handle on a block that is not freed. */
  lemma Attach(s: Store, h: nat, b: nat)
    requires Inv(s) && (h in s.handles ==> s.handles[h] == None)
    requires b < |s.blocks| && !s.blocks[b].freed
    ensures var r := Add(s.(handles := s.handles[h := Some(b)]), Some(b));
            r.Some? && Inv(r.value)
  {
    var s' := Add(s.(handles := s.handles[h := Some(b)]), Some(b)).value;
    forall c | 0 <= c < |s'.blocks|
      ensures BlockInv(s', c)
    {
      assert BlockInv(s, c);
      OnUpdate(s.handles, h, Some(b), c);
      assert h !in On(s.handles, c);
    }
  }

  lemma HeldIsNotFreed(s: Store, h: nat)
    requires Inv(s) && h in s.handles && s.handles[h].Some?
    ensures !s.blocks[s.handles[h].value].freed
  {
    assert BlockInv(s, s.handles[h].value);
    assert h in On(s.handles, s.handles[h].value);
  }

  /** Handles without a block make no difference to any block. */
  lemma SameHolders(s: Store, handles: map<nat, Option<nat>>)
    requires Inv(s)
    requires forall h :: h in handles && handles[h].Some? ==> h in s.handles && s.handles[h] == handles[h]
    requires forall h :: h in s.handles && s.handles[h].Some? ==> h in handles
    requires forall h :: h in s.handles && h in handles ==> s.handles[h] == handles[h]
    ensures Inv(s.(handles := handles))
  {
    forall c | 0 <= c < |s.blocks|
      ensures BlockInv(s.(handles := handles), c)
    {
      assert BlockInv(s, c);
      assert On(handles, c) == On(s.handles, c);
    }
  }

  lemma CreateStep(s: Store, h: nat, data: bytes)
    requires Inv(s) && h !in s.handles
    ensures Inv(Apply(s, Create(h, data)).value)
  {
    var s', n := Apply(s, Create(h, data)).value, |s.blocks|;
    forall c | 0 <= c < |s'.blocks|
      ensures BlockInv(s', c)
    {
      OnUpdate(s.handles, h, Some(n), c);
      if c == n {
        assert On(s.handles, n) == {};
        assert On(s'.handles, n) == {h};
      } else {
        assert BlockInv(s, c);
      }
    }
  }

  lemma SwapHolders(handles: map<nat, Option<nat>>, to: nat, from: nat, b: nat)
    requires to in handles && from in handles
    ensures var after := On(handles[to := handles[from]][from := handles[to]], b);
            |after| == |On(handles, b)| && (after == {} <==> On(handles, b) == {})
  {
    var before, middle := On(handles, b), handles[to := handles[from]];
    OnUpdate(handles, to, handles[from], b);
    OnUpdate(middle, from, handles[to], b);
    if handles[to] == Some(b) && handles[from] != Some(b) {
      assert On(middle[from := handles[to]], b) == before - {to} + {from};
    } else if handles[from] == Some(b) && handles[to] != Some(b) {
      assert On(middle[from := handles[to]], b) == before + {to} - {from};
    } else {
      assert On(middle[from := handles[to]], b) == before;
    }
  }

  /** What two handles hold may be exchanged. */
  lemma SwapStep(s: Store, to: nat, from: nat)
    requires Inv(s) && to in s.handles && from in s.handles
    ensures Inv(s.(handles := s.handles[to := s.handles[from]][from := s.handles[to]]))
  {
    var s' := s.(handles := s.handles[to := s.handles[from]][from := s.handles[to]]);
    forall c | 0 <= c < |s'.blocks|
      ensures BlockInv(s', c)
    {
      assert BlockInv(s, c);
      SwapHolders(s.handles, to, from, c);
    }
  }

  lemma CopyAssignStep(s: Store, to: nat, from: nat)
    requires Inv(s) && to in s.handles && from in s.handles && to != from
    ensures var r := Apply(s, CopyAssign(to, from));
            (r == None <==> s.handles[from] == None) && (r.Some? ==> Inv(r.value))
  {
    var s1 := s.(handles := s.handles[to := None]);
    if s.handles[to].Some? {
      Drop(s, to);
      s1 := Decrease(s, s.handles[to].value).value.(handles := s.handles[to := None]);
    } else {
      SameHolders(s, s1.handles);
    }
    if s.handles[from].Some? {
      HeldIsNotFreed(s1, from);
      Attach(s1, to, s.handles[from].value);
      assert s1.handles[to := s.handles[from]] == s.handles[to := s.handles[from]];
    }
  }

  lemma DestroyStep(s: Store, h: nat)
    requires Inv(s) && h in s.handles
    ensures var r := Apply(s, Destroy(h)); r.Some? && Inv(r.value)
  {
    if s.handles[h].Some? {
      Drop(s, h);
      var s1 := Decrease(s, s.handles[h].value).value.(handles := s.handles[h := None]);
      SameHolders(s1, s.handles - {h});
    } else {
      SameHolders(s, s.handles - {h});
    }
  }

  /**
    Undefined behaviour happens exactly when the block of a moved-from handle is asked for;
    every other operation keeps all counts exact, the assignment that decrements a shared block first included.
   */
  lemma OpStep(s: Store, op: Op)
    requires Inv(s) && Enabled(s, op)
    ensures Apply(s, op) == None <==> UsesMovedFrom(s, op)
    ensures Apply(s, op).Some? ==> Inv(Apply(s, op).value)
  {
    match op
    case Create(h, data) => CreateStep(s, h, data);
    case CopyConstruct(h, from) =>
      if s.handles[from].Some? {
        HeldIsNotFreed(s, from);
        Attach(s, h, s.handles[from].value);
      }
    case MoveConstruct(h, from) =>
      SameHolders(s, s.handles[h := None]);
      SwapStep(s.(handles := s.handles[h := None]), h, from);
      assert s.handles[h := None][h := s.handles[from]][from := None] == s.handles[h := s.handles[from]][from := None];
    case CopyAssign(to, from) =>
      if to != from {
        CopyAssignStep(s, to, from);
      }
    case MoveAssign(to, from) => SwapStep(s, to, from);
    case Destroy(h) => DestroyStep(s, h);
    case Access(h) =>
      if s.handles[h].Some? {
        HeldIsNotFreed(s, h);
      }
  }

  // ----- Runs -----

  /** A program: the stores it goes through; `ops` ends where it ends or where it runs into undefined behaviour. */
  ghost predicate IsRun(run: seq<Store>, ops: seq<Op>) {
    && |run| == |ops| + 1 && run[0] == EMPTY_STORE
    && forall i :: 0 <= i < |ops| ==> Enabled(run[i], ops[i]) && Apply(run[i], ops[i]) == Some(run[i + 1])
  }

  lemma {:induction false} InvAlways(run: seq<Store>, ops: seq<Op>, i: nat)
    requires IsRun(run, ops) && i < |run|
    ensures Inv(run[i])
  {
    if i > 0 {
      InvAlways(run, ops, i - 1);
      OpStep(run[i - 1], ops[i - 1]);
    }
  }

  /** Each count is the number of handles; a block is freed once, and exactly when its last handle is gone. */
  lemma CountsAreHandles(run: seq<Store>, ops: seq<Op>, i: nat, b: nat)
    requires IsRun(run, ops) && i < |run| && b < |run[i].blocks|
    ensures var s := run[i];
            && s.blocks[b].count == |On(s.handles, b)|
            && (s.blocks[b].freed <==> On(s.handles, b) == {})
            && (s.blocks[b].freed <==> b in s.frees)
            && (forall j, k :: 0 <= j < k < |s.frees| ==> s.frees[j] != s.frees[k])
  {
    InvAlways(run, ops, i);
    assert BlockInv(run[i], b);
  }

  /**
    A run can go on with `op` without touching a null or freed block exactly when `op` does not ask a moved-from
    handle for its block.
   */
  lemma SafeIff(run: seq<Store>, ops: seq<Op>, op: Op)
    requires IsRun(run, ops) && Enabled(run[|ops|], op)
    ensures Apply(run[|ops|], op).Some? <==> !UsesMovedFrom(run[|ops|], op)
  {
    InvAlways(run, ops, |ops|);
    OpStep(run[|ops|], op);
  }

  /** When every handle has been destroyed, every block has been freed. */
  lemma NoLeaks(run: seq<Store>, ops: seq<Op>, i: nat, b: nat)
    requires IsRun(run, ops) && i < |run| && run[i].handles == map[] && b < |run[i].blocks|
    ensures run[i].blocks[b].freed
  {
    CountsAreHandles(run, ops, i, b);
  }

  // ----- Messages are values -----

  /** What `data` and `size` of a handle give; `None` is a moved-from handle. */
  function Reads(s: Store, h: nat): Option<bytes>
    requires h in s.handles
  {
    if s.handles[h].Some? && s.handles[h].value < |s.blocks| then Some(s.blocks[s.handles[h].value].data) else None
  }

  ghost predicate Holds(s: Store, h: nat, m: Option<bytes>) {
    h in s.handles && Reads(s, h) == m
  }

  /** Every handle but these reads what it read. */
  ghost predicate OthersRead(s: Store, s': Store, changed: set<nat>) {
    forall h :: h !in changed ==>
      (h in s'.handles <==> h in s.handles) && (h in s.handles ==> Holds(s', h, Reads(s, h)))
  }

  predicate SameData(s: Store, s': Store) {
    && |s'.blocks| == |s.blocks|
    && forall b :: 0 <= b < |s.blocks| ==> s'.blocks[b].data == s.blocks[b].data
  }

  lemma DataStays(s: Store, op: Op)
    requires Enabled(s, op) && Apply(s, op).Some? && !op.Create?
    ensures SameData(s, Apply(s, op).value)
  {
  }

  /** Copies are equal, a move empties its source, and an assignment that moves exchanges two messages. */
  ghost predicate Means(s: Store, op: Op, s': Store)
    requires Enabled(s, op)
  {
    match op
    case Create(h, data) => Holds(s', h, Some(data)) && OthersRead(s, s', {h})
    case CopyConstruct(h, from) => Holds(s', h, Reads(s, from)) && OthersRead(s, s', {h})
    case MoveConstruct(h, from) =>
      Holds(s', h, Reads(s, from)) && Holds(s', from, None) && OthersRead(s, s', {h, from})
    case CopyAssign(to, from) => Holds(s', to, Reads(s, from)) && OthersRead(s, s', {to})
    case MoveAssign(to, from) =>
      Holds(s', to, Reads(s, from)) && Holds(s', from, Reads(s, to)) && OthersRead(s, s', {to, from})
    case Destroy(h) => h !in s'.handles && OthersRead(s, s', {h})
    case Access(_) => s' == s
  }

  lemma OpMeans(s: Store, op: Op)
    requires Inv(s) && Enabled(s, op) && Apply(s, op).Some?
    ensures Means(s, op, Apply(s, op).value)
  {
    if !op.Create? {
      DataStays(s, op);
    }
  }

  /** What an operation does to messages that all have bytes of their own. */
  function Changed(messages: map<nat, Option<bytes>>, op: Op): map<nat, Option<bytes>> {
    match op
    case Create(h, data) => messages[h := Some(data)]
    case CopyConstruct(h, from) => if from in messages then messages[h := messages[from]] else messages
    case MoveConstruct(h, from) =>
      if from in messages then messages[h := messages[from]][from := None] else messages
    case CopyAssign(to, from) => if from in messages then messages[to := messages[from]] else messages
    case MoveAssign(to, from) =>
      if to in messages && from in messages then messages[to := messages[from]][from := messages[to]] else messages
    case Destroy(h) => messages - {h}
    case Access(_) => messages
  }

  function Messages(ops: seq<Op>): map<nat, Option<bytes>> {
    if ops == [] then map[] else Changed(Messages(ops[..|ops| - 1]), ops[|ops| - 1])
  }

  ghost predicate Shows(s: Store, messages: map<nat, Option<bytes>>) {
    s.handles.Keys == messages.Keys && forall h :: h in s.handles ==> Reads(s, h) == messages[h]
  }

  lemma ShowsOne(s: Store, op: Op, s': Store, messages: map<nat, Option<bytes>>, h: nat)
    requires Enabled(s, op) && Means(s, op, s') && Shows(s, messages)
    ensures h in s'.handles <==> h in Changed(messages, op)
    ensures h in s'.handles ==> Reads(s', h) == Changed(messages, op)[h]
  {
    assert h in s.handles <==> h in messages;
  }

  lemma ShowsStep(s: Store, op: Op, s': Store, messages: map<nat, Option<bytes>>)
    requires Inv(s) && Enabled(s, op) && Apply(s, op) == Some(s') && Shows(s, messages)
    ensures Shows(s', Changed(messages, op))
  {
    OpMeans(s, op);
    forall h: nat
      ensures h in s'.handles <==> h in Changed(messages, op)
      ensures h in s'.handles ==> Reads(s', h) == Changed(messages, op)[h]
    {
      ShowsOne(s, op, s', messages, h);
    }
  }

  /**
    Sharing never shows: in every run, through any chain of copies, moves and assignments, a handle reads the bytes
    that it would read if every message were copied, so those its message was created with.
   */
  lemma {:induction false} SharingNeverShows(run: seq<Store>, ops: seq<Op>, i: nat)
    requires IsRun(run, ops) && i < |run|
    ensures Shows(run[i], Messages(ops[..i]))
  {
    if i > 0 {
      SharingNeverShows(run, ops, i - 1);
      InvAlways(run, ops, i - 1);
      assert ops[..i][..i - 1] == ops[..i - 1];
      assert Apply(run[i - 1], ops[i - 1]) == Some(run[i - 1 + 1]);
      ShowsStep(run[i - 1], ops[i - 1], run[i], Messages(ops[..i - 1]));
    }
  }

  // ----- The code -----

  /** The memory and the handles of a program, changed in place by the members of `SerializedMessage`. */
  class Memory {
    var blocks: seq<Block>
    var handles: map<nat, Option<nat>>
    ghost var frees: seq<nat>

    ghost function Contents(): Store
      reads this
    {
      Store(blocks, handles, frees)
    }

    constructor ()
      ensures Contents() == EMPTY_STORE
    {
      blocks, handles, frees := [], map[], [];
    }

    method AddReferenceCount(b: nat)
      requires b < |blocks| && !blocks[b].freed
      modifies this`blocks
      ensures Add(old(Contents()), Some(b)) == Some(Contents())
      ensures blocks == old(blocks)[b := Block(old(blocks)[b].count + 1, false, old(blocks)[b].data)]
    {
      blocks := blocks[b := blocks[b].(count := blocks[b].count + 1)];
    }

    method DecreaseReferenceCount(b: nat)
      requires b < |blocks| && !blocks[b].freed
      modifies this`blocks, this`frees
      ensures Decrease(old(Contents()), b) == Some(Contents())
      ensures var count := old(blocks)[b].count - 1;
              && blocks == old(blocks)[b := Block(count, count == 0, old(blocks)[b].data)]
              && frees == old(frees) + if count == 0 then [b] else []
    {
      var before := blocks[b];
      blocks := blocks[b := before.(count := before.count - 1)];
      if before.count == 1 {
        blocks := blocks[b := before.(count := 0, freed := true)];
        frees := frees + [b];
        assert blocks == old(blocks)[b := Block(0, true, before.data)];
      }
    }

    /** The constructor from bytes, which copies them to a block of its own. */
    method FromData(h: nat, data: bytes)
      requires Inv(Contents()) && h !in handles
      modifies this
      ensures Inv(Contents()) && Apply(old(Contents()), Create(h, data)) == Some(Contents())
      ensures blocks == old(blocks) + [Block(1, false, data)] && handles == old(handles)[h := Some(|old(blocks)|)]
    {
      OpStep(Contents(), Create(h, data));
      blocks, handles := blocks + [Block(1, false, data)], handles[h := Some(|blocks|)];
    }

    /** `data` and `size`. */
    method Data(h: nat) returns (data: bytes)
      requires Inv(Contents()) && h in handles && handles[h].Some?
      ensures Some(data) == Reads(Contents(), h)
    {
      data := blocks[handles[h].value].data;
    }

    method CopyConstructor(h: nat, from: nat)
      requires Inv(Contents()) && Enabled(Contents(), CopyConstruct(h, from)) && handles[from].Some?
      modifies this
      ensures Inv(Contents()) && Apply(old(Contents()), CopyConstruct(h, from)) == Some(Contents())
      ensures handles == old(handles)[h := old(handles)[from]]
    {
      OpStep(Contents(), CopyConstruct(h, from));
      handles := handles[h := handles[from]];
      AddReferenceCount(handles[h].value);
    }

    method MoveConstructor(h: nat, from: nat)
      requires Inv(Contents()) && Enabled(Contents(), MoveConstruct(h, from))
      modifies this`handles
      ensures Inv(Contents()) && Apply(old(Contents()), MoveConstruct(h, from)) == Some(Contents())
      ensures handles == old(handles)[h := old(handles)[from]][from := None]
    {
      OpStep(Contents(), MoveConstruct(h, from));
      handles := handles[h := handles[from]];
      handles := handles[from := None];
    }

    /** Decrements before it increments, also when both handles share a block. */
    method CopyAssignment(to: nat, from: nat)
      requires Inv(Contents()) && Enabled(Contents(), CopyAssign(to, from)) && (to != from ==> handles[from].Some?)
      modifies this
      ensures Inv(Contents()) && Apply(old(Contents()), CopyAssign(to, from)) == Some(Contents())
      ensures handles == old(handles)[to := old(handles)[from]]
    {
      OpStep(Contents(), CopyAssign(to, from));
      if to == from {
        return;
      }
      if handles[to] != None {
        HeldIsNotFreed(Contents(), to);
        DecreaseReferenceCount(handles[to].value);
      }
      handles := handles[to := handles[from]];
      AddReferenceCount(handles[to].value);
    }

    method MoveAssignment(to: nat, from: nat)
      requires Inv(Contents()) && Enabled(Contents(), MoveAssign(to, from))
      modifies this`handles
      ensures Inv(Contents()) && Apply(old(Contents()), MoveAssign(to, from)) == Some(Contents())
      ensures handles == old(handles)[to := old(handles)[from]][from := old(handles)[to]]
    {
      OpStep(Contents(), MoveAssign(to, from));
      handles := handles[to := handles[from]][from := handles[to]];
    }

    method Destructor(h: nat)
      requires Inv(Contents()) && Enabled(Contents(), Destroy(h))
      modifies this
      ensures Inv(Contents()) && Apply(old(Contents()), Destroy(h)) == Some(Contents())
      ensures handles == old(handles) - {h}
    {
      OpStep(Contents(), Destroy(h));
      if handles[h] != None {
        HeldIsNotFreed(Contents(), h);
        DecreaseReferenceCount(handles[h].value);
      }
      handles := handles - {h};
    }
  }
}
