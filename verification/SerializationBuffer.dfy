/** The growing buffer that messages are packed into, and the packing of each message. */
module SerializationBuffers {
  import opened Powers
  import opened Bytes
  import opened Msgpack
  import opened Formats
  import opened Messages

  /** The size of a block's header on a 64-bit platform: three sizes, an atomic int and a flag. */
  const HEADER_SIZE: nat := 32
  const INITIAL_TOTAL_SIZE: nat := 128

  /** Every capacity is 96 doubled some number of times, that is `3 * 2^e`; this is the largest below 2^64. */
  const MAX_CAPACITY: nat := 3 * 0x4000_0000_0000_0000

  /** `size_t` shifted left by one. */
  function Shl1(c: nat): (r: nat)
    ensures r < U64
  {
    2 * c % U64
  }

  function ShlTimes(c: nat, k: nat): nat {
    if k == 0 then c else Shl1(ShlTimes(c, k - 1))
  }

  /** Whether the doubling loop of a capacity `3 * 2^e` ever gets to the required size. */
  lemma GrowthTerminatesIff(e: nat, required: nat)
    requires 5 <= e <= 62 && 3 * Pow2(e) < required
    ensures (exists k: nat {:trigger ShlTimes(3 * Pow2(e), k)} :: k > 0 && ShlTimes(3 * Pow2(e), k) >= required)
            <==> required <= MAX_CAPACITY
  {
    var c := 3 * Pow2(e);
    if required <= MAX_CAPACITY {
      ShlBelow(e, 62 - e);
      Pow2Values();
      assert e < 62;
      assert ShlTimes(c, 62 - e) >= required;
    }
    forall k: nat | k > 0
      ensures ShlTimes(c, k) <= MAX_CAPACITY
    {
      ShlBounded(e, k);
    }
  }

  lemma {:induction false} ShlBelow(e: nat, k: nat)
    requires e + k <= 62
    ensures ShlTimes(3 * Pow2(e), k) == 3 * Pow2(e + k) <= MAX_CAPACITY
  {
    Pow2Values();
    Pow2Monotone(e + k, 62);
    if k > 0 {
      ShlBelow(e, k - 1);
    }
  }

  /** After `3 * 2^62` the register holds 2^63 and then 0. */
  lemma {:induction false} ShlBounded(e: nat, k: nat)
    requires e <= 62
    ensures ShlTimes(3 * Pow2(e), k) <= MAX_CAPACITY
    ensures e + k == 63 ==> ShlTimes(3 * Pow2(e), k) == 0x8000_0000_0000_0000
    ensures e + k > 63 ==> ShlTimes(3 * Pow2(e), k) == 0
  {
    if e + k <= 62 {
      ShlBelow(e, k);
    } else if e + k == 63 {
      Pow2Values();
      ShlBelow(e, k - 1);
      assert ShlTimes(3 * Pow2(e), k - 1) == MAX_CAPACITY;
    } else {
      ShlBounded(e, k - 1);
    }
  }

  /** The doubling loop of `expand_sharable_binary`: the first doubling that is large enough. */
  method GrowCapacity(capacity: nat, ghost e: nat, required: nat) returns (grown: nat, ghost k: nat)
    requires capacity == 3 * Pow2(e) && 5 <= e <= 62
    requires capacity < required <= MAX_CAPACITY
    ensures 0 < k <= 62 - e && grown == ShlTimes(capacity, k) == 3 * Pow2(e + k)
    ensures forall j: nat :: 0 < j < k ==> ShlTimes(capacity, j) < required
    ensures required <= grown < 2 * required
  {
    Pow2Values();
    grown, k := capacity, 0;
    while true
      invariant e + k <= 62 && grown == ShlTimes(capacity, k) < required
      invariant forall j: nat :: 0 < j <= k ==> ShlTimes(capacity, j) < required
      decreases 62 - k
    {
      ShlBelow(e, k);
      assert e + k < 62;
      ShlBelow(e, k + 1);
      grown, k := Shl1(grown), k + 1;
      if grown >= required {
        break;
      }
    }
  }

  lemma CapacityDoubles(e: nat, k: nat)
    requires k > 0
    ensures 2 * (3 * Pow2(e)) <= 3 * Pow2(e + k)
  {
    Pow2Monotone(e + 1, e + k);
  }

  /** After `growths` growths the capacity is at least the first one doubled that often. */
  lemma CapacityAfter(growths: nat, e: nat)
    requires 5 + growths <= e
    ensures 96 * Pow2(growths) <= 3 * Pow2(e)
  {
    Pow2Sum(5, growths);
    Pow2Monotone(5 + growths, e);
  }

  /**
    What growing costs: at most twice the size of the message, and the header of each block left, of which there are
    logarithmically many; in all at most 8/3 of the size.
   */
  predicate MovedFor(moved: nat, growths: nat, size: nat) {
    && moved <= 2 * size + HEADER_SIZE * growths
    && 3 * moved <= 8 * size
    && (growths > 0 ==> 96 * Pow2(growths - 1) <= size)
  }

  /** Leaving a block of the given capacity, at least twice that of the one before. */
  lemma MovedForNext(moved: nat, growths: nat, outgrown: nat, e: nat)
    requires MovedFor(moved, growths, outgrown) && 2 * outgrown <= 3 * Pow2(e) && 5 + growths <= e
    ensures MovedFor(moved + HEADER_SIZE + 3 * Pow2(e), growths + 1, 3 * Pow2(e))
  {
    CapacityAfter(growths, e);
  }

  lemma MovedForMore(moved: nat, growths: nat, size: nat, larger: nat)
    requires MovedFor(moved, growths, size) && size <= larger
    ensures MovedFor(moved, growths, larger)
  {
  }

  class SerializationBuffer {
    /** The binary part of the block; its length is the capacity. */
    var block: array<byte>
    var size: nat
    var released: bool

    ghost var exponent: nat
    /** The concatenation of everything written. */
    ghost var written: bytes
    /** The bytes that reallocations had to move, each counted with the whole block it left, header and all. */
    ghost var moved: nat
    ghost var growths: nat
    /** The capacity of the block before the last reallocation, or 0. */
    ghost var outgrown: nat

    ghost predicate Valid()
      reads this, block
    {
      && block.Length == 3 * Pow2(exponent) && 5 + growths <= exponent <= 62
      && size <= block.Length
      && block[..size] == written
      && 2 * outgrown <= block.Length && MovedFor(moved, growths, outgrown)
    }

    /** Between two writes the contents would no longer fit the block before the last reallocation. */
    ghost predicate Settled()
      reads this
    {
      outgrown <= size
    }

    constructor ()
      ensures Valid() && Settled() && fresh(block)
      ensures written == [] && !released && moved == growths == 0
    {
      block := new byte[INITIAL_TOTAL_SIZE - HEADER_SIZE];
      size, released := 0, false;
      exponent, written, moved, growths, outgrown := 5, [], 0, 0, 0;
      new;
      Pow2Values();
    }

    /** `expand_sharable_binary`: moves the contents to a block of the grown capacity. */
    method Expand(required: nat)
      requires Valid() && !released
      requires block.Length < required <= MAX_CAPACITY
      modifies this
      ensures Valid() && !released && fresh(block)
      ensures written == old(written) && size == old(size)
      ensures required <= block.Length < 2 * required
      ensures moved == old(moved) + HEADER_SIZE + old(block.Length) && outgrown == old(block.Length)
      ensures growths == old(growths) + 1
    {
      var bigger, k := Reallocated(required);
      MovedForNext(moved, growths, outgrown, exponent);
      moved, growths, outgrown := moved + HEADER_SIZE + block.Length, growths + 1, block.Length;
      block, exponent := bigger, exponent + k;
    }

    /** `realloc` to the grown capacity: a new block that begins with the contents of this one. */
    method Reallocated(required: nat) returns (bigger: array<byte>, ghost k: nat)
      requires size <= block.Length < required <= MAX_CAPACITY
      requires block.Length == 3 * Pow2(exponent) && 5 <= exponent <= 62
      ensures fresh(bigger) && bigger.Length == 3 * Pow2(exponent + k) && 0 < k <= 62 - exponent
      ensures required <= bigger.Length < 2 * required && 2 * block.Length <= bigger.Length
      ensures bigger[..size] == block[..size]
    {
      var capacity;
      capacity, k := GrowCapacity(block.Length, exponent, required);
      CapacityDoubles(exponent, k);
      bigger := new byte[capacity];
      forall i | 0 <= i < size {
        bigger[i] := block[i];
      }
    }

    /** Appends; reallocates at most once. Beyond `MAX_CAPACITY` the doubling would never end. */
    method Write(data: bytes)
      requires Valid() && Settled() && !released
      requires |written| + |data| <= MAX_CAPACITY
      modifies this, block
      ensures Valid() && Settled() && !released
      ensures block == old(block) || fresh(block)
      ensures written == old(written) + data
      ensures old(size) + |data| <= old(block.Length) ==>
                block == old(block) && moved == old(moved) && growths == old(growths)
      ensures old(size) + |data| > old(block.Length) ==>
                && size <= block.Length < 2 * size
                && moved == old(moved) + HEADER_SIZE + old(block.Length) && growths == old(growths) + 1
    {
      if size + |data| > block.Length {
        Expand(size + |data|);
      }
      CopyIn(data);
      size := size + |data|;
      written := written + data;
    }

    /** Copies the data behind the contents. */
    method CopyIn(data: bytes)
      requires size + |data| <= block.Length
      modifies block
      ensures block[..size + |data|] == old(block[..size]) + data
    {
      var start := size;
      forall i | 0 <= i < |data| {
        block[start + i] := data[i];
      }
    }

    /** Hands the block over to a message. */
    method Release() returns (message: bytes)
      requires Valid() && Settled() && !released
      modifies this
      ensures message == old(written) && released
      ensures moved == old(moved) && growths == old(growths) && MovedFor(moved, growths, |message|)
    {
      message := block[..size];
      MovedForMore(moved, growths, outgrown, size);
      released := true;
    }
  }

  function Concat(parts: seq<bytes>): bytes {
    if parts == [] then [] else parts[0] + Concat(parts[1..])
  }

  lemma {:induction false} ConcatAppend(parts: seq<bytes>, last: bytes)
    ensures Concat(parts + [last]) == Concat(parts) + last
  {
    if parts == [] {
      assert [last][1..] == [];
    } else {
      assert (parts + [last])[1..] == parts[1..] + [last];
      ConcatAppend(parts[1..], last);
    }
  }

  /** Any sequence of writes, then a release: the message is their concatenation, and little was moved for it. */
  method WriteAll(parts: seq<bytes>) returns (message: bytes, ghost moved: nat, ghost growths: nat)
    requires |Concat(parts)| <= MAX_CAPACITY
    ensures message == Concat(parts)
    ensures MovedFor(moved, growths, |message|)
  {
    var buffer := new SerializationBuffer();
    var i := 0;
    assert parts[..0] == [];
    while i < |parts|
      invariant i <= |parts| && buffer.Valid() && buffer.Settled() && !buffer.released
      invariant fresh(buffer) && fresh(buffer.block)
      invariant buffer.written == Concat(parts[..i])
    {
      ConcatAppend(parts[..i], parts[i]);
      assert parts[..i] + [parts[i]] == parts[..i + 1];
      ConcatPrefixLength(parts, i + 1);
      buffer.Write(parts[i]);
      i := i + 1;
    }
    assert parts[..i] == parts;
    message := buffer.Release();
    moved, growths := buffer.moved, buffer.growths;
  }

  lemma {:induction false} ConcatPrefixLength(parts: seq<bytes>, i: nat)
    requires i <= |parts|
    ensures |Concat(parts[..i])| <= |Concat(parts)|
    decreases |parts| - i
  {
    if i == |parts| {
      assert parts[..i] == parts;
    } else {
      assert parts[..i + 1] == parts[..i] + [parts[i]];
      ConcatAppend(parts[..i], parts[i]);
      ConcatPrefixLength(parts, i + 1);
    }
  }

  // ----- The four serializing functions -----

  function EncodeEach(vs: seq<Value>): seq<bytes>
    requires AllPackable(vs)
  {
    if vs == [] then [] else [Encode(vs[0])] + EncodeEach(vs[1..])
  }

  lemma {:induction false} ConcatEncodeEach(vs: seq<Value>)
    requires AllPackable(vs)
    ensures Concat(EncodeEach(vs)) == EncodeAll(vs)
  {
    if vs != [] {
      ConcatEncodeEach(vs[1..]);
      assert EncodeEach(vs)[1..] == EncodeEach(vs[1..]);
    }
  }

  /** What the packer does for one message: `pack_array`, then each element in turn. */
  method Pack(items: seq<Value>) returns (message: bytes)
    requires Packable(Array(items)) && |Encode(Array(items))| <= MAX_CAPACITY
    ensures message == Encode(Array(items))
  {
    var header := EncodeToken(Open(false, |items|));
    ConcatEncodeEach(items);
    assert ([header] + EncodeEach(items))[1..] == EncodeEach(items);
    ghost var moved, growths;
    message, moved, growths := WriteAll([header] + EncodeEach(items));
  }

  method SerializeRequest(name: bytes, id: nat, params: seq<Value>) returns (message: bytes)
    requires ValidMessage(Request(id, name, params))
    requires |Serialize(Request(id, name, params))| <= MAX_CAPACITY
    ensures message == Serialize(Request(id, name, params))
    ensures Form(message, Array([Int(0), Int(id), Str(name), Array(params)]))
  {
    ToValuePackable(Request(id, name, params));
    EncodeHasForm(Array([Int(0), Int(id), Str(name), Array(params)]));
    message := Pack([Int(0), Int(id), Str(name), Array(params)]);
  }

  method SerializeSuccessfulResponse(id: nat, result: Value) returns (message: bytes)
    requires ValidMessage(Response(id, Returned(result)))
    requires |Serialize(Response(id, Returned(result)))| <= MAX_CAPACITY
    ensures message == Serialize(Response(id, Returned(result)))
    ensures Form(message, Array([Int(1), Int(id), Nil, result]))
  {
    ToValuePackable(Response(id, Returned(result)));
    EncodeHasForm(Array([Int(1), Int(id), Nil, result]));
    message := Pack([Int(1), Int(id), Nil, result]);
  }

  method SerializeErrorResponse(id: nat, error: Value) returns (message: bytes)
    requires ValidMessage(Response(id, Failed(error)))
    requires |Serialize(Response(id, Failed(error)))| <= MAX_CAPACITY
    ensures message == Serialize(Response(id, Failed(error)))
    ensures Form(message, Array([Int(1), Int(id), error, Nil]))
  {
    ToValuePackable(Response(id, Failed(error)));
    EncodeHasForm(Array([Int(1), Int(id), error, Nil]));
    message := Pack([Int(1), Int(id), error, Nil]);
  }

  method SerializeNotification(name: bytes, params: seq<Value>) returns (message: bytes)
    requires ValidMessage(Notification(name, params))
    requires |Serialize(Notification(name, params))| <= MAX_CAPACITY
    ensures message == Serialize(Notification(name, params))
    ensures Form(message, Array([Int(2), Str(name), Array(params)]))
  {
    ToValuePackable(Notification(name, params));
    EncodeHasForm(Array([Int(2), Str(name), Array(params)]));
    message := Pack([Int(2), Str(name), Array(params)]);
  }
}
