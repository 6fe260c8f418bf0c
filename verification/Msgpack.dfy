/** Bytes and big-endian integers, as MessagePack writes them. */
module Bytes {
  type byte = b: int | 0 <= b < 256
  type bytes = seq<byte>

  function Pow256(k: nat): (p: nat)
    ensures p >= 1
  {
    if k == 0 then 1 else 256 * Pow256(k - 1)
  }

  lemma Pow256Values()
    ensures Pow256(1) == 0x100
    ensures Pow256(2) == 0x1_0000
    ensures Pow256(4) == 0x1_0000_0000
    ensures Pow256(8) == 0x1_0000_0000_0000_0000
  {
    assert Pow256(4) == 256 * Pow256(3);
    assert Pow256(6) == 256 * Pow256(5);
    assert Pow256(8) == 256 * Pow256(7);
  }

  /** The `width`-byte big-endian form of `n`. */
  function ToBE(n: nat, width: nat): (s: bytes)
    requires n < Pow256(width)
    ensures |s| == width
  {
    if width == 0 then [] else ToBE(n / 256, width - 1) + [n % 256]
  }

  function FromBE(s: bytes): (n: nat)
    ensures n < Pow256(|s|)
  {
    if s == [] then 0 else FromBE(s[..|s| - 1]) * 256 + s[|s| - 1]
  }

  lemma {:induction false} FromToBE(n: nat, width: nat)
    requires n < Pow256(width)
    ensures FromBE(ToBE(n, width)) == n
  {
    if width > 0 {
      FromToBE(n / 256, width - 1);
      assert ToBE(n, width)[..width - 1] == ToBE(n / 256, width - 1);
    }
  }
}

/**
  The MessagePack format: values, their shortest encoding, and the decoder that
  a streaming unpacker applies to the bytes received so far.
 */
module Msgpack {
  import opened Bytes

  /** Floats keep their raw 4 or 8 bytes. A map lists its keys and values alternately. */
  datatype Value =
    | Nil
    | Bool(b: bool)
    | Int(i: int)
    | Float(bits: bytes)
    | Str(s: bytes)
    | Bin(d: bytes)
    | Ext(tag: byte, data: bytes)
    | Array(items: seq<Value>)
    | Map(entries: seq<Value>)

  const U32: nat := 0x1_0000_0000
  const U64: nat := 0x1_0000_0000_0000_0000
  const I64_MIN: int := -0x8000_0000_0000_0000

  /** What a packer can write: integers in range and lengths below 2^32. */
  predicate Packable(v: Value)
  {
    match v
    case Nil => true
    case Bool(_) => true
    case Int(i) => I64_MIN <= i < U64
    case Float(bits) => |bits| == 4 || |bits| == 8
    case Str(s) => |s| < U32
    case Bin(d) => |d| < U32
    case Ext(_, data) => |data| < U32
    case Array(items) => |items| < U32 && AllPackable(items)
    case Map(entries) => |entries| % 2 == 0 && |entries| / 2 < U32 && AllPackable(entries)
  }

  predicate AllPackable(vs: seq<Value>)
  {
    forall i :: 0 <= i < |vs| ==> Packable(vs[i])
  }

  /** A value without children, or the header that opens an array or a map. */
  datatype Token = Leaf(v: Value) | Open(isMap: bool, count: nat)

  predicate PackableToken(t: Token)
  {
    match t
    case Leaf(v) => !v.Array? && !v.Map? && Packable(v)
    case Open(_, count) => count < U32
  }

  datatype Kind = StrKind | BinKind | FloatKind | ExtKind

  /** What the first byte says about the bytes that follow it. */
  datatype Format =
    | Fixed(token: Token)
    | Unsigned(width: nat)
    | Signed(width: nat)
    | Sized(kind: Kind, width: nat)
    | Whole(kind: Kind, size: nat)
    | Counted(isMap: bool, width: nat)
    | Reserved

  predicate ProperFormat(f: Format)
  {
    match f
    case Fixed(Leaf(v)) => v == Nil || v.Bool? || (v.Int? && -0x20 <= v.i < 0x80)
    case Fixed(Open(_, count)) => count < 16
    case Unsigned(w) => w in {1, 2, 4, 8}
    case Signed(w) => w in {1, 2, 4, 8}
    case Counted(_, w) => w in {2, 4}
    case Sized(kind, w) => kind != FloatKind && w in {1, 2, 4}
    case Whole(kind, size) =>
      match kind {
        case StrKind => size < 32
        case BinKind => false
        case FloatKind => size in {4, 8}
        case ExtKind => size in {2, 3, 5, 9, 17}
      }
    case Reserved => true
  }

  /** The format table of the MessagePack specification, section "Formats". */
  function FormatOf(b: byte): (f: Format)
    ensures ProperFormat(f)
  {
    if b < 0x80 then Fixed(Leaf(Int(b)))
    else if b < 0x90 then Fixed(Open(true, b - 0x80))
    else if b < 0xa0 then Fixed(Open(false, b - 0x90))
    else if b < 0xc0 then Whole(StrKind, b - 0xa0)
    else if b == 0xc0 then Fixed(Leaf(Nil))
    else if b == 0xc1 then Reserved
    else if b <= 0xc3 then Fixed(Leaf(Bool(b == 0xc3)))
    else if b <= 0xc6 then Sized(BinKind, LengthWidth(b - 0xc4))
    else if b <= 0xc9 then Sized(ExtKind, LengthWidth(b - 0xc7))
    else if b <= 0xcb then Whole(FloatKind, if b == 0xca then 4 else 8)
    else if b <= 0xcf then Unsigned(IntWidth(b - 0xcc))
    else if b <= 0xd3 then Signed(IntWidth(b - 0xd0))
    else if b <= 0xd8 then Whole(ExtKind, 1 + FixExtSize(b - 0xd4))
    else if b <= 0xdb then Sized(StrKind, LengthWidth(b - 0xd9))
    else if b <= 0xdd then Counted(false, if b == 0xdc then 2 else 4)
    else if b <= 0xdf then Counted(true, if b == 0xde then 2 else 4)
    else Fixed(Leaf(Int(b - 0x100)))
  }

  function LengthWidth(k: nat): nat {
    if k == 0 then 1 else if k == 1 then 2 else 4
  }

  function IntWidth(k: nat): nat {
    if k == 0 then 1 else if k == 1 then 2 else if k == 2 then 4 else 8
  }

  function FixExtSize(k: nat): nat {
    if k == 0 then 1 else if k == 1 then 2 else if k == 2 then 4 else if k == 3 then 8 else 16
  }

  function FromPayload(kind: Kind, p: bytes): Value
    requires kind == ExtKind ==> |p| > 0
  {
    match kind
    case StrKind => Str(p)
    case BinKind => Bin(p)
    case FloatKind => Float(p)
    case ExtKind => Ext(p[0], p[1..])
  }

  /** `More`: the bytes are a proper prefix of something. `Bad`: they can never become a value. */
  datatype Decoded<T> = Ok(value: T, size: nat) | More | Bad

  function DecodeToken(s: bytes): (r: Decoded<Token>)
    ensures r.Ok? ==> 0 < r.size <= |s| && PackableToken(r.value)
  {
    if s == [] then More else Follow(FormatOf(s[0]), s)
  }

  /** Reads the token whose first byte announced format `f`. */
  function Follow(f: Format, s: bytes): (r: Decoded<Token>)
    requires s != [] && ProperFormat(f)
    ensures r.Ok? ==> 0 < r.size <= |s| && PackableToken(r.value)
  {
    Pow256Values();
    match f
    case Fixed(t) => Ok(t, 1)
    case Reserved => Bad
    case Unsigned(w) =>
      if |s| < 1 + w then More else Ok(Leaf(Int(FromBE(s[1..1 + w]))), 1 + w)
    case Signed(w) =>
      if |s| < 1 + w then More else Ok(Leaf(Int(ToSigned(FromBE(s[1..1 + w]), w))), 1 + w)
    case Whole(kind, size) =>
      if |s| < 1 + size then More else Ok(Leaf(FromPayload(kind, s[1..1 + size])), 1 + size)
    case Sized(kind, w) =>
      if |s| < 1 + w then More else FollowPayload(kind, w, s)
    case Counted(isMap, w) =>
      if |s| < 1 + w then More else Ok(Open(isMap, FromBE(s[1..1 + w])), 1 + w)
  }

  /** The length word is complete: reads the payload it announces. An extension has one more byte, its type. */
  function FollowPayload(kind: Kind, w: nat, s: bytes): (r: Decoded<Token>)
    requires kind != FloatKind && w in {1, 2, 4} && 1 + w <= |s|
    ensures r.Ok? ==> 0 < r.size <= |s| && PackableToken(r.value)
  {
    Pow256Values();
    var size := FromBE(s[1..1 + w]) + if kind == ExtKind then 1 else 0;
    if |s| < 1 + w + size then More
    else Ok(Leaf(FromPayload(kind, s[1 + w..1 + w + size])), 1 + w + size)
  }

  /** Two's complement of a `width`-byte word. */
  function ToSigned(n: nat, width: nat): int {
    if 2 * n < Pow256(width) then n else n - Pow256(width)
  }

  function EncodeToken(t: Token): (s: bytes)
    requires PackableToken(t)
    ensures |s| > 0
  {
    Pow256Values();
    match t
    case Open(true, n) =>
      if n < 16 then [0x80 + n] else if n < 0x1_0000 then [0xde] + ToBE(n, 2) else [0xdf] + ToBE(n, 4)
    case Open(false, n) =>
      if n < 16 then [0x90 + n] else if n < 0x1_0000 then [0xdc] + ToBE(n, 2) else [0xdd] + ToBE(n, 4)
    case Leaf(v) =>
      match v
      case Nil => [0xc0]
      case Bool(b) => [if b then 0xc3 else 0xc2]
      case Int(i) => EncodeInt(i)
      case Float(bits) => [if |bits| == 4 then 0xca else 0xcb] + bits
      case Str(s) => (if |s| < 32 then [0xa0 + |s|] else SizeHeader(0xd9, |s|)) + s
      case Bin(d) => SizeHeader(0xc4, |d|) + d
      case Ext(tag, data) => ExtHeader(|data|) + ([tag] + data)
  }

  function EncodeInt(i: int): (s: bytes)
    requires I64_MIN <= i < U64
    ensures |s| > 0
  {
    Pow256Values();
    if 0 <= i then
      if i < 0x80 then [i]
      else if i < 0x100 then [0xcc] + ToBE(i, 1)
      else if i < 0x1_0000 then [0xcd] + ToBE(i, 2)
      else if i < U32 then [0xce] + ToBE(i, 4)
      else [0xcf] + ToBE(i, 8)
    else
      if -0x20 <= i then [0x100 + i]
      else if -0x80 <= i then [0xd0] + ToBE(0x100 + i, 1)
      else if -0x8000 <= i then [0xd1] + ToBE(0x1_0000 + i, 2)
      else if -0x8000_0000 <= i then [0xd2] + ToBE(U32 + i, 4)
      else [0xd3] + ToBE(U64 + i, 8)
  }

  function SizeHeader(code: byte, n: nat): (s: bytes)
    requires n < U32 && code < 0xf0
    ensures |s| > 0
  {
    Pow256Values();
    if n < 0x100 then [code] + ToBE(n, 1)
    else if n < 0x1_0000 then [code + 1] + ToBE(n, 2)
    else [code + 2] + ToBE(n, 4)
  }

  function ExtHeader(n: nat): (s: bytes)
    requires n < U32
    ensures |s| > 0
  {
    if n == 1 then [0xd4] else if n == 2 then [0xd5] else if n == 4 then [0xd6]
    else if n == 8 then [0xd7] else if n == 16 then [0xd8]
    else SizeHeader(0xc7, n)
  }

  function Encode(v: Value): (s: bytes)
    requires Packable(v)
    ensures |s| > 0
    decreases v, 0
  {
    match v
    case Array(items) => EncodeToken(Open(false, |items|)) + EncodeAll(items)
    case Map(entries) => EncodeToken(Open(true, |entries| / 2)) + EncodeAll(entries)
    case _ => EncodeToken(Leaf(v))
  }

  function EncodeAll(vs: seq<Value>): bytes
    requires AllPackable(vs)
    decreases vs
  {
    if vs == [] then [] else Encode(vs[0]) + EncodeAll(vs[1..])
  }

  function Decode(s: bytes): (r: Decoded<Value>)
    ensures r.Ok? ==> 0 < r.size <= |s| && Packable(r.value)
    decreases |s|, 0
  {
    match DecodeToken(s)
    case More => More
    case Bad => Bad
    case Ok(Leaf(v), n) => Ok(v, n)
    case Ok(Open(isMap, count), n) =>
      match DecodeAll(s[n..], if isMap then 2 * count else count)
      case More => More
      case Bad => Bad
      case Ok(vs, k) => Ok(if isMap then Map(vs) else Array(vs), n + k)
  }

  function DecodeAll(s: bytes, count: nat): (r: Decoded<seq<Value>>)
    ensures r.Ok? ==> r.size <= |s| && |r.value| == count && AllPackable(r.value)
    decreases |s|, count + 1
  {
    if count == 0 then Ok([], 0) else
      match Decode(s)
      case More => More
      case Bad => Bad
      case Ok(v, n) =>
        match DecodeAll(s[n..], count - 1)
        case More => More
        case Bad => Bad
        case Ok(vs, k) => Ok([v] + vs, n + k)
  }

  // ----- A word or a payload survives the header before it and the bytes after it -----

  lemma WordAt(head: byte, n: nat, w: nat, rest: bytes)
    requires n < Pow256(w)
    ensures var s := [head] + ToBE(n, w) + rest;
            |s| >= 1 + w && s[0] == head && FromBE(s[1..1 + w]) == n
  {
    var s := [head] + ToBE(n, w) + rest;
    assert s[1..1 + w] == ToBE(n, w);
    FromToBE(n, w);
  }

  lemma SizedHead(code: byte, kind: Kind, n: nat) returns (head: byte, w: nat)
    requires (code == 0xc4 && kind == BinKind) || (code == 0xc7 && kind == ExtKind) || (code == 0xd9 && kind == StrKind)
    requires n < U32
    ensures w in {1, 2, 4} && n < Pow256(w)
    ensures SizeHeader(code, n) == [head] + ToBE(n, w) && FormatOf(head) == Sized(kind, w)
  {
    Pow256Values();
    w := if n < 0x100 then 1 else if n < 0x1_0000 then 2 else 4;
    head := if n < 0x100 then code else if n < 0x1_0000 then code + 1 else code + 2;
  }

  /** The three length widths of a payload: `code`, `code + 1` and `code + 2`. */
  lemma SizedRoundTrip(code: byte, kind: Kind, n: nat, payload: bytes, rest: bytes)
    requires (code == 0xc4 && kind == BinKind) || (code == 0xc7 && kind == ExtKind) || (code == 0xd9 && kind == StrKind)
    requires n < U32 && |payload| == n + if kind == ExtKind then 1 else 0
    ensures DecodeToken(SizeHeader(code, n) + payload + rest)
            == Ok(Leaf(FromPayload(kind, payload)), |SizeHeader(code, n)| + |payload|)
  {
    var head, w := SizedHead(code, kind, n);
    HeadThenItems(SizeHeader(code, n), payload, rest);
    FollowSized(head, kind, w, n, payload, rest);
  }

  lemma FollowSized(head: byte, kind: Kind, w: nat, n: nat, payload: bytes, rest: bytes)
    requires kind != FloatKind && w in {1, 2, 4} && n < Pow256(w)
    requires |payload| == n + if kind == ExtKind then 1 else 0
    ensures FollowPayload(kind, w, [head] + ToBE(n, w) + (payload + rest))
            == Ok(Leaf(FromPayload(kind, payload)), 1 + w + |payload|)
  {
    var s := [head] + ToBE(n, w) + (payload + rest);
    WordAt(head, n, w, payload + rest);
    assert s[1 + w..1 + w + |payload|] == payload;
  }

  lemma IntRoundTrip(i: int, rest: bytes)
    requires I64_MIN <= i < U64
    ensures DecodeToken(EncodeInt(i) + rest) == Ok(Leaf(Int(i)), |EncodeInt(i)|)
  {
    Pow256Values();
    if -0x20 <= i < 0x80 {
    } else if 0 <= i {
      var w := if i < 0x100 then 1 else if i < 0x1_0000 then 2 else if i < U32 then 4 else 8;
      var head := if w == 1 then 0xcc else if w == 2 then 0xcd else if w == 4 then 0xce else 0xcf;
      assert EncodeInt(i) == [head] + ToBE(i, w) && FormatOf(head) == Unsigned(w);
      WordAt(head, i, w, rest);
    } else {
      var w := if -0x80 <= i then 1 else if -0x8000 <= i then 2 else if -0x8000_0000 <= i then 4 else 8;
      NegativeRoundTrip(i, w, rest);
    }
  }

  function SignedHead(w: nat): byte {
    if w == 1 then 0xd0 else if w == 2 then 0xd1 else if w == 4 then 0xd2 else 0xd3
  }

  lemma NegativeEncoding(i: int, w: nat)
    requires I64_MIN <= i < -0x20
    requires w == if -0x80 <= i then 1 else if -0x8000 <= i then 2 else if -0x8000_0000 <= i then 4 else 8
    ensures 0 <= 2 * i + Pow256(w) && FormatOf(SignedHead(w)) == Signed(w)
    ensures EncodeInt(i) == [SignedHead(w)] + ToBE(Pow256(w) + i, w)
  {
    Pow256Values();
  }

  lemma NegativeRoundTrip(i: int, w: nat, rest: bytes)
    requires I64_MIN <= i < -0x20
    requires w == if -0x80 <= i then 1 else if -0x8000 <= i then 2 else if -0x8000_0000 <= i then 4 else 8
    ensures DecodeToken(EncodeInt(i) + rest) == Ok(Leaf(Int(i)), |EncodeInt(i)|)
  {
    NegativeEncoding(i, w);
    FollowSigned(SignedHead(w), i, w, rest);
  }

  lemma SignedBack(i: int, w: nat)
    requires i < 0 <= 2 * i + Pow256(w)
    ensures 0 <= Pow256(w) + i < Pow256(w) && ToSigned(Pow256(w) + i, w) == i
  {
  }

  lemma FollowSigned(head: byte, i: int, w: nat, rest: bytes)
    requires w in {1, 2, 4, 8} && i < 0 <= 2 * i + Pow256(w)
    ensures Follow(Signed(w), [head] + ToBE(Pow256(w) + i, w) + rest) == Ok(Leaf(Int(i)), 1 + w)
  {
    SignedBack(i, w);
    WordAt(head, Pow256(w) + i, w, rest);
  }

  lemma ExtRoundTrip(tag: byte, data: bytes, rest: bytes)
    requires |data| < U32
    ensures DecodeToken(EncodeToken(Leaf(Ext(tag, data))) + rest)
            == Ok(Leaf(Ext(tag, data)), |EncodeToken(Leaf(Ext(tag, data)))|)
  {
    var n := |data|;
    if n == 1 || n == 2 || n == 4 || n == 8 || n == 16 {
      var s := EncodeToken(Leaf(Ext(tag, data))) + rest;
      assert s[1..2 + n] == [tag] + data;
    } else {
      SizedRoundTrip(0xc7, ExtKind, n, [tag] + data, rest);
    }
  }

  lemma StrRoundTrip(str: bytes, rest: bytes)
    requires |str| < U32
    ensures DecodeToken(EncodeToken(Leaf(Str(str))) + rest) == Ok(Leaf(Str(str)), |EncodeToken(Leaf(Str(str)))|)
  {
    if |str| < 32 {
      var s := EncodeToken(Leaf(Str(str))) + rest;
      assert s[1..1 + |str|] == str;
    } else {
      SizedRoundTrip(0xd9, StrKind, |str|, str, rest);
    }
  }

  lemma OpenRoundTrip(isMap: bool, n: nat, rest: bytes)
    requires n < U32
    ensures DecodeToken(EncodeToken(Open(isMap, n)) + rest) == Ok(Open(isMap, n), |EncodeToken(Open(isMap, n))|)
  {
    Pow256Values();
    if n >= 16 {
      var w := if n < 0x1_0000 then 2 else 4;
      WordAt(EncodeToken(Open(isMap, n))[0], n, w, rest);
    }
  }

  lemma TokenRoundTrip(t: Token, rest: bytes)
    requires PackableToken(t)
    ensures DecodeToken(EncodeToken(t) + rest) == Ok(t, |EncodeToken(t)|)
  {
    match t
    case Open(isMap, n) => OpenRoundTrip(isMap, n, rest);
    case Leaf(v) =>
      match v
      case Nil =>
      case Bool(_) =>
      case Int(i) => IntRoundTrip(i, rest);
      case Float(bits) => assert (EncodeToken(t) + rest)[1..1 + |bits|] == bits;
      case Str(str) => StrRoundTrip(str, rest);
      case Bin(d) => SizedRoundTrip(0xc4, BinKind, |d|, d, rest);
      case Ext(tag, data) => ExtRoundTrip(tag, data, rest);
  }

  // ----- Round trip -----

  /** Decoding gives back the value and stops exactly at its last byte, whatever follows. */
  lemma {:induction false} RoundTrip(v: Value, rest: bytes)
    requires Packable(v)
    ensures Decode(Encode(v) + rest) == Ok(v, |Encode(v)|)
    decreases v, 0
  {
    match v
    case Array(items) => ContainerRoundTrip(Open(false, |items|), items, rest);
    case Map(entries) => ContainerRoundTrip(Open(true, |entries| / 2), entries, rest);
    case _ => TokenRoundTrip(Leaf(v), rest);
  }

  lemma {:induction false} ContainerRoundTrip(head: Token, items: seq<Value>, rest: bytes)
    requires PackableToken(head) && AllPackable(items)
    requires head.Open? && |items| == if head.isMap then 2 * head.count else head.count
    ensures var s := EncodeToken(head) + EncodeAll(items);
            Decode(s + rest) == Ok(if head.isMap then Map(items) else Array(items), |s|)
    decreases items, 1
  {
    TokenRoundTrip(head, EncodeAll(items) + rest);
    RoundTripAll(items, rest);
    HeadThenItems(EncodeToken(head), EncodeAll(items), rest);
    DecodeContainer(EncodeToken(head) + EncodeAll(items) + rest, head, |EncodeToken(head)|, items, |EncodeAll(items)|);
  }

  lemma HeadThenItems(head: bytes, items: bytes, rest: bytes)
    ensures head + items + rest == head + (items + rest) && (head + items + rest)[|head|..] == items + rest
  {
  }

  /** A container is its head and then its items. */
  lemma DecodeContainer(s: bytes, head: Token, n: nat, items: seq<Value>, k: nat)
    requires n <= |s| && DecodeToken(s) == Ok(head, n) && DecodeAll(s[n..], |items|) == Ok(items, k)
    requires head.Open? && |items| == if head.isMap then 2 * head.count else head.count
    ensures Decode(s) == Ok(if head.isMap then Map(items) else Array(items), n + k)
  {
  }

  lemma {:induction false} RoundTripAll(vs: seq<Value>, rest: bytes)
    requires AllPackable(vs)
    ensures DecodeAll(EncodeAll(vs) + rest, |vs|) == Ok(vs, |EncodeAll(vs)|)
    decreases vs, 0
  {
    if vs != [] {
      var e, tail := Encode(vs[0]), EncodeAll(vs[1..]);
      assert EncodeAll(vs) + rest == e + (tail + rest);
      RoundTrip(vs[0], tail + rest);
      assert (EncodeAll(vs) + rest)[|e|..] == tail + rest;
      RoundTripAll(vs[1..], rest);
      assert [vs[0]] + vs[1..] == vs;
    }
  }

  // ----- A verdict, once reached, is not changed by later bytes -----

  lemma TokenStable(s: bytes, t: bytes)
    requires !DecodeToken(s).More?
    ensures DecodeToken(s + t) == DecodeToken(s)
  {
    assert (s + t)[0] == s[0];
    FollowStable(FormatOf(s[0]), s, t);
  }

  lemma SliceStable(s: bytes, t: bytes, lo: nat, hi: nat)
    requires lo <= hi <= |s|
    ensures (s + t)[lo..hi] == s[lo..hi]
  {
  }

  lemma FollowPayloadStable(kind: Kind, w: nat, s: bytes, t: bytes)
    requires kind != FloatKind && w in {1, 2, 4} && 1 + w <= |s| && !FollowPayload(kind, w, s).More?
    ensures FollowPayload(kind, w, s + t) == FollowPayload(kind, w, s)
  {
    SliceStable(s, t, 1, 1 + w);
    var size := FromBE(s[1..1 + w]) + if kind == ExtKind then 1 else 0;
    SliceStable(s, t, 1 + w, 1 + w + size);
  }

  lemma FollowStable(f: Format, s: bytes, t: bytes)
    requires s != [] && ProperFormat(f) && !Follow(f, s).More?
    ensures Follow(f, s + t) == Follow(f, s)
  {
    match f
    case Fixed(_) =>
    case Reserved =>
    case Unsigned(w) => SliceStable(s, t, 1, 1 + w);
    case Signed(w) => SliceStable(s, t, 1, 1 + w);
    case Counted(_, w) => SliceStable(s, t, 1, 1 + w);
    case Whole(_, size) => SliceStable(s, t, 1, 1 + size);
    case Sized(kind, w) => FollowPayloadStable(kind, w, s, t);
  }

  lemma {:induction false} DecodeStable(s: bytes, t: bytes)
    requires !Decode(s).More?
    ensures Decode(s + t) == Decode(s)
    decreases |s|, 0
  {
    TokenStable(s, t);
    match DecodeToken(s)
    case Ok(Open(isMap, count), n) =>
      assert (s + t)[n..] == s[n..] + t;
      DecodeAllStable(s[n..], t, if isMap then 2 * count else count);
    case _ =>
  }

  lemma {:induction false} DecodeAllStable(s: bytes, t: bytes, count: nat)
    requires !DecodeAll(s, count).More?
    ensures DecodeAll(s + t, count) == DecodeAll(s, count)
    decreases |s|, count + 1
  {
    if count > 0 {
      DecodeStable(s, t);
      match Decode(s)
      case Ok(v, n) =>
        assert (s + t)[n..] == s[n..] + t;
        DecodeAllStable(s[n..], t, count - 1);
      case _ =>
    }
  }

  /** No proper prefix of an encoding is taken for a value or for garbage. */
  lemma ProperPrefixWaits(v: Value, k: nat)
    requires Packable(v) && k < |Encode(v)|
    ensures Decode(Encode(v)[..k]).More?
  {
    var s := Encode(v);
    assert s[..k] + s[k..] == s + [] == s;
    RoundTrip(v, []);
    if !Decode(s[..k]).More? {
      DecodeStable(s[..k], s[k..]);
    }
  }
}
