/**
  The section "Formats" of the MessagePack specification as a relation between bytes and values: one clause for each
  format, with its first byte, and its words written out byte by byte, the most significant first.
 */
module Formats {
  import opened Bytes
  import opened Msgpack

  // ----- Words -----

  function Octet(s: bytes, k: nat): int
    requires k < |s|
  {
    s[k]
  }

  predicate Word1(s: bytes, at: nat, n: int) {
    at + 1 <= |s| && n == s[at]
  }

  predicate Word2(s: bytes, at: nat, n: int) {
    at + 2 <= |s| && n == 0x100 * Octet(s, at) + Octet(s, at + 1)
  }

  predicate Word4(s: bytes, at: nat, n: int) {
    && at + 4 <= |s|
    && n == 0x100_0000 * Octet(s, at) + 0x1_0000 * Octet(s, at + 1) + 0x100 * Octet(s, at + 2) + Octet(s, at + 3)
  }

  predicate Word8(s: bytes, at: nat, n: int) {
    && at + 8 <= |s|
    && n == 0x100_0000_0000_0000 * Octet(s, at) + 0x1_0000_0000_0000 * Octet(s, at + 1)
            + 0x100_0000_0000 * Octet(s, at + 2) + 0x1_0000_0000 * Octet(s, at + 3)
            + 0x100_0000 * Octet(s, at + 4) + 0x1_0000 * Octet(s, at + 5) + 0x100 * Octet(s, at + 6) + Octet(s, at + 7)
  }

  // ----- The formats -----

  /** positive fixint, negative fixint, uint 8 to 64, int 8 to 64 in two's complement. */
  predicate IntForm(s: bytes, i: int) {
    || (|s| == 1 && s[0] < 0x80 && i == s[0])
    || (|s| == 1 && s[0] >= 0xe0 && i + 0x100 == s[0])
    || (|s| == 2 && s[0] == 0xcc && Word1(s, 1, i))
    || (|s| == 3 && s[0] == 0xcd && Word2(s, 1, i))
    || (|s| == 5 && s[0] == 0xce && Word4(s, 1, i))
    || (|s| == 9 && s[0] == 0xcf && Word8(s, 1, i))
    || (|s| == 2 && s[0] == 0xd0 && -0x80 <= i < 0x80 && Word1(s, 1, if i < 0 then i + 0x100 else i))
    || (|s| == 3 && s[0] == 0xd1 && -0x8000 <= i < 0x8000 && Word2(s, 1, if i < 0 then i + 0x1_0000 else i))
    || (|s| == 5 && s[0] == 0xd2 && -0x8000_0000 <= i < 0x8000_0000
        && Word4(s, 1, if i < 0 then i + 0x1_0000_0000 else i))
    || (|s| == 9 && s[0] == 0xd3 && -0x8000_0000_0000_0000 <= i < 0x8000_0000_0000_0000
        && Word8(s, 1, if i < 0 then i + 0x1_0000_0000_0000_0000 else i))
  }

  /** float 32, float 64. */
  predicate FloatForm(s: bytes, bits: bytes) {
    s != [] && s[1..] == bits && ((s[0] == 0xca && |bits| == 4) || (s[0] == 0xcb && |bits| == 8))
  }

  /** fixstr, str 8, str 16, str 32. */
  predicate StrForm(s: bytes, text: bytes) {
    s != []
    && (|| (s[0] == 0xa0 + |text| && |text| < 32 && s[1..] == text)
        || (s[0] == 0xd9 && Word1(s, 1, |text|) && s[2..] == text)
        || (s[0] == 0xda && Word2(s, 1, |text|) && s[3..] == text)
        || (s[0] == 0xdb && Word4(s, 1, |text|) && s[5..] == text))
  }

  /** bin 8, bin 16, bin 32. */
  predicate BinForm(s: bytes, data: bytes) {
    s != []
    && (|| (s[0] == 0xc4 && Word1(s, 1, |data|) && s[2..] == data)
        || (s[0] == 0xc5 && Word2(s, 1, |data|) && s[3..] == data)
        || (s[0] == 0xc6 && Word4(s, 1, |data|) && s[5..] == data))
  }

  /** fixext 1 to 16, ext 8, ext 16, ext 32. */
  predicate ExtForm(s: bytes, tag: byte, data: bytes) {
    s != []
    && (|| (s[0] == 0xd4 && |data| == 1 && s[1..] == [tag] + data)
        || (s[0] == 0xd5 && |data| == 2 && s[1..] == [tag] + data)
        || (s[0] == 0xd6 && |data| == 4 && s[1..] == [tag] + data)
        || (s[0] == 0xd7 && |data| == 8 && s[1..] == [tag] + data)
        || (s[0] == 0xd8 && |data| == 16 && s[1..] == [tag] + data)
        || (s[0] == 0xc7 && Word1(s, 1, |data|) && s[2..] == [tag] + data)
        || (s[0] == 0xc8 && Word2(s, 1, |data|) && s[3..] == [tag] + data)
        || (s[0] == 0xc9 && Word4(s, 1, |data|) && s[5..] == [tag] + data))
  }

  /** fixarray, array 16, array 32. */
  predicate ArrayHead(s: bytes, n: nat) {
    || (|s| == 1 && s[0] == 0x90 + n && n < 16)
    || (|s| == 3 && s[0] == 0xdc && Word2(s, 1, n))
    || (|s| == 5 && s[0] == 0xdd && Word4(s, 1, n))
  }

  /** fixmap, map 16, map 32. */
  predicate MapHead(s: bytes, n: nat) {
    || (|s| == 1 && s[0] == 0x80 + n && n < 16)
    || (|s| == 3 && s[0] == 0xde && Word2(s, 1, n))
    || (|s| == 5 && s[0] == 0xdf && Word4(s, 1, n))
  }

  predicate LeafForm(s: bytes, v: Value) {
    match v
    case Nil => s == [0xc0]
    case Bool(b) => s == [if b then 0xc3 else 0xc2]
    case Int(i) => IntForm(s, i)
    case Float(bits) => FloatForm(s, bits)
    case Str(text) => StrForm(s, text)
    case Bin(data) => BinForm(s, data)
    case Ext(tag, data) => ExtForm(s, tag, data)
    case _ => false
  }

  /** `s` is `v`, in one of the formats of its type. */
  ghost predicate Form(s: bytes, v: Value)
    decreases v, 0
  {
    match v
    case Array(items) => exists h :: 0 <= h <= |s| && ArrayHead(s[..h], |items|) && FormAll(s[h..], items)
    case Map(entries) =>
      && |entries| % 2 == 0
      && exists h :: 0 <= h <= |s| && MapHead(s[..h], |entries| / 2) && FormAll(s[h..], entries)
    case _ => LeafForm(s, v)
  }

  /** `s` is these values, one after another. */
  ghost predicate FormAll(s: bytes, vs: seq<Value>)
    decreases vs
  {
    if vs == [] then s == []
    else exists k :: 0 <= k <= |s| && Form(s[..k], vs[0]) && FormAll(s[k..], vs[1..])
  }

  // ----- The words of the encoder and the decoder are these -----

  /** Each byte of a word, by its position: the most significant comes first. */
  lemma {:induction false} BigEndian(n: nat, w: nat, i: nat)
    requires n < Pow256(w) && i < w
    ensures ToBE(n, w)[i] == n / Pow256(w - 1 - i) % 256
  {
    if i < w - 1 {
      BigEndian(n / 256, w - 1, i);
      DivTwice(n, Pow256(w - 2 - i));
    }
  }

  lemma DivTwice(n: nat, p: nat)
    requires p > 0
    ensures n / 256 / p == n / (256 * p)
  {
    var q, r := n / 256 / p, n / 256 % p;
    assert n / 256 == q * p + r;
    var m := 256 * r + n % 256;
    assert n == q * (256 * p) + m;
    assert 0 <= m < 256 * p;
    QuotientIs(n, 256 * p, q, m);
  }

  lemma AtLeastOnce(x: int, d: nat)
    ensures x >= 1 ==> x * d >= d
    ensures x <= -1 ==> x * d + d <= 0
  {
    if x >= 1 {
      assert x * d == (x - 1) * d + d;
    } else if x <= -1 {
      assert x * d == (x + 1) * d - d;
    }
  }

  lemma QuotientIs(n: nat, d: nat, q: nat, r: nat)
    requires d > 0 && n == q * d + r && r < d
    ensures n / d == q
  {
    var k := n / d;
    assert (k - q) * d == k * d - q * d;
    assert n == k * d + n % d;
    AtLeastOnce(k - q, d);
  }

  lemma FromBE1(a: byte)
    ensures FromBE([a]) == a
  {
    assert [a][..0] == [];
  }

  lemma FromBE2(a: byte, b: byte)
    ensures FromBE([a, b]) == 0x100 * (a as int) + b as int
  {
    assert [a, b][..1] == [a];
    FromBE1(a);
  }

  lemma FromBE4(a: byte, b: byte, c: byte, d: byte)
    ensures FromBE([a, b, c, d]) == 0x100_0000 * (a as int) + 0x1_0000 * (b as int) + 0x100 * (c as int) + d as int
  {
    FromBE2(a, b);
    assert [a, b, c][..2] == [a, b] && [a, b, c, d][..3] == [a, b, c];
    assert FromBE([a, b, c]) == FromBE([a, b]) * 256 + c as int;
  }

  lemma FromBE8(s: bytes)
    requires |s| == 8
    ensures Word8(s, 0, FromBE(s))
  {
    FromBE4(s[0], s[1], s[2], s[3]);
    assert s[..4] == [s[0], s[1], s[2], s[3]];
    assert s[..7][..6] == s[..6] && s[..6][..5] == s[..5] && s[..5][..4] == s[..4];
    assert FromBE(s[..5]) == FromBE(s[..4]) * 256 + s[4];
    assert FromBE(s[..6]) == FromBE(s[..5]) * 256 + s[5];
    assert FromBE(s[..7]) == FromBE(s[..6]) * 256 + s[6];
  }

  /** The word after the first byte. */
  lemma WordIs(s: bytes, w: nat)
    requires w in {1, 2, 4, 8} && 1 + w <= |s|
    ensures w == 1 ==> Word1(s, 1, FromBE(s[1..2]))
    ensures w == 2 ==> Word2(s, 1, FromBE(s[1..3]))
    ensures w == 4 ==> Word4(s, 1, FromBE(s[1..5]))
    ensures w == 8 ==> Word8(s, 1, FromBE(s[1..9]))
  {
    if w == 1 {
      assert s[1..2] == [s[1]];
      FromBE1(s[1]);
    } else if w == 2 {
      assert s[1..3] == [s[1], s[2]];
      FromBE2(s[1], s[2]);
    } else if w == 4 {
      assert s[1..5] == [s[1], s[2], s[3], s[4]];
      FromBE4(s[1], s[2], s[3], s[4]);
    } else {
      FromBE8(s[1..9]);
    }
  }

  // ----- What the decoder takes for a token is one -----

  lemma UnsignedIs(s: bytes, w: nat)
    requires s != [] && FormatOf(s[0]) == Unsigned(w) && 1 + w <= |s|
    ensures IntForm(s[..1 + w], FromBE(s[1..1 + w]))
  {
    WordIs(s, w);
  }

  lemma SignedIs(s: bytes, w: nat)
    requires s != [] && FormatOf(s[0]) == Signed(w) && 1 + w <= |s|
    ensures IntForm(s[..1 + w], ToSigned(FromBE(s[1..1 + w]), w))
  {
    Pow256Values();
    WordIs(s, w);
  }

  lemma WholeIs(s: bytes, kind: Kind, size: nat)
    requires s != [] && FormatOf(s[0]) == Whole(kind, size) && 1 + size <= |s|
    ensures LeafForm(s[..1 + size], FromPayload(kind, s[1..1 + size]))
  {
    var f, p := s[..1 + size], s[1..1 + size];
    assert f[1..] == p;
    if kind == ExtKind {
      assert p == [p[0]] + p[1..];
    }
  }

  /** A word that counts the payload behind it. */
  lemma SizedFormIs(f: bytes, kind: Kind, w: nat, payload: bytes)
    requires f != [] && FormatOf(f[0]) == Sized(kind, w) && 1 + w <= |f| && f[1 + w..] == payload
    requires |payload| == FromBE(f[1..1 + w]) + if kind == ExtKind then 1 else 0
    ensures LeafForm(f, FromPayload(kind, payload))
  {
    WordIs(f, w);
    if kind == ExtKind {
      FirstThenRest(payload);
    }
  }

  lemma SizedIs(s: bytes, kind: Kind, w: nat)
    requires s != [] && FormatOf(s[0]) == Sized(kind, w) && 1 + w <= |s| && FollowPayload(kind, w, s).Ok?
    ensures FollowPayload(kind, w, s).value.Leaf?
    ensures LeafForm(s[..FollowPayload(kind, w, s).size], FollowPayload(kind, w, s).value.v)
  {
    var n := FollowPayload(kind, w, s).size;
    assert s[..n][1..1 + w] == s[1..1 + w] && s[..n][1 + w..] == s[1 + w..n];
    SizedFormIs(s[..n], kind, w, s[1 + w..n]);
  }

  lemma LeafIs(s: bytes)
    requires DecodeToken(s).Ok? && DecodeToken(s).value.Leaf?
    ensures LeafForm(s[..DecodeToken(s).size], DecodeToken(s).value.v)
  {
    match FormatOf(s[0])
    case Unsigned(w) => UnsignedIs(s, w);
    case Signed(w) => SignedIs(s, w);
    case Whole(kind, size) => WholeIs(s, kind, size);
    case Sized(kind, w) => SizedIs(s, kind, w);
    case _ =>
  }

  predicate HeadForm(s: bytes, isMap: bool, n: nat) {
    if isMap then MapHead(s, n) else ArrayHead(s, n)
  }

  lemma HeadIs(s: bytes)
    requires DecodeToken(s).Ok? && DecodeToken(s).value.Open?
    ensures var r := DecodeToken(s); HeadForm(s[..r.size], r.value.isMap, r.value.count)
  {
    match FormatOf(s[0])
    case Counted(_, w) => WordIs(s, w);
    case _ =>
  }

  // ----- Each token is decoded -----

  lemma IntDecodes(s: bytes, i: int)
    requires IntForm(s, i)
    ensures DecodeToken(s) == Ok(Leaf(Int(i)), |s|)
  {
    Pow256Values();
    if |s| in {2, 3, 5, 9} {
      WordIs(s, |s| - 1);
    }
  }

  lemma FloatDecodes(s: bytes, bits: bytes)
    requires FloatForm(s, bits)
    ensures DecodeToken(s) == Ok(Leaf(Float(bits)), |s|)
  {
    assert s[1..1 + |bits|] == bits;
  }

  /** A payload of the announced size, to the end. */
  lemma PayloadDecodes(s: bytes, kind: Kind, w: nat, payload: bytes)
    requires s != [] && FormatOf(s[0]) == Sized(kind, w) && kind != FloatKind && w in {1, 2, 4} && 1 + w <= |s|
    requires s[1 + w..] == payload && |payload| == FromBE(s[1..1 + w]) + if kind == ExtKind then 1 else 0
    ensures DecodeToken(s) == Ok(Leaf(FromPayload(kind, payload)), |s|)
  {
    assert s[1 + w..1 + w + |payload|] == payload;
  }

  lemma StrDecodes(s: bytes, text: bytes)
    requires StrForm(s, text)
    ensures DecodeToken(s) == Ok(Leaf(Str(text)), |s|)
  {
    if s[0] < 0xd9 {
      assert s[1..1 + |text|] == text;
    } else {
      var w := if s[0] == 0xd9 then 1 else if s[0] == 0xda then 2 else 4;
      WordIs(s, w);
      PayloadDecodes(s, StrKind, w, text);
    }
  }

  lemma BinDecodes(s: bytes, data: bytes)
    requires BinForm(s, data)
    ensures DecodeToken(s) == Ok(Leaf(Bin(data)), |s|)
  {
    var w := if s[0] == 0xc4 then 1 else if s[0] == 0xc5 then 2 else 4;
    WordIs(s, w);
    PayloadDecodes(s, BinKind, w, data);
  }

  lemma ExtDecodes(s: bytes, tag: byte, data: bytes)
    requires ExtForm(s, tag, data)
    ensures DecodeToken(s) == Ok(Leaf(Ext(tag, data)), |s|)
  {
    assert ([tag] + data)[0] == tag && ([tag] + data)[1..] == data;
    if s[0] >= 0xd4 {
      assert s[1..2 + |data|] == [tag] + data;
    } else {
      var w := if s[0] == 0xc7 then 1 else if s[0] == 0xc8 then 2 else 4;
      WordIs(s, w);
      PayloadDecodes(s, ExtKind, w, [tag] + data);
    }
  }

  lemma LeafDecodes(s: bytes, v: Value)
    requires LeafForm(s, v)
    ensures DecodeToken(s) == Ok(Leaf(v), |s|)
  {
    match v
    case Nil =>
    case Bool(_) =>
    case Int(i) => IntDecodes(s, i);
    case Float(bits) => FloatDecodes(s, bits);
    case Str(text) => StrDecodes(s, text);
    case Bin(data) => BinDecodes(s, data);
    case Ext(tag, data) => ExtDecodes(s, tag, data);
  }

  lemma HeadDecodes(s: bytes, isMap: bool, n: nat)
    requires HeadForm(s, isMap, n)
    ensures DecodeToken(s) == Ok(Open(isMap, n), |s|)
  {
    if |s| > 1 {
      WordIs(s, |s| - 1);
    }
  }

  // ----- The decoder decides the relation -----

  lemma TokenPrefix(s: bytes, n: nat, t: Token)
    requires n <= |s| && DecodeToken(s[..n]) == Ok(t, n)
    ensures DecodeToken(s) == Ok(t, n)
  {
    TokenStable(s[..n], s[n..]);
    assert s[..n] + s[n..] == s;
  }

  lemma DecodePrefix(s: bytes, n: nat, v: Value)
    requires n <= |s| && Decode(s[..n]) == Ok(v, n)
    ensures Decode(s) == Ok(v, n)
  {
    DecodeStable(s[..n], s[n..]);
    assert s[..n] + s[n..] == s;
  }

  lemma DecodeAllFirst(s: bytes, v: Value, n: nat, vs: seq<Value>, k: nat)
    requires Decode(s) == Ok(v, n) && DecodeAll(s[n..], |vs|) == Ok(vs, k)
    ensures DecodeAll(s, 1 + |vs|) == Ok([v] + vs, n + k)
  {
  }

  lemma DecodeAllOf(s: bytes, k: nat, vs: seq<Value>)
    requires vs != [] && k <= |s| && Decode(s) == Ok(vs[0], k) && DecodeAll(s[k..], |vs| - 1) == Ok(vs[1..], |s| - k)
    ensures DecodeAll(s, |vs|) == Ok(vs, |s|)
  {
    FirstThenRest(vs);
    DecodeAllFirst(s, vs[0], k, vs[1..], |s| - k);
  }

  lemma FirstThenRest<T>(vs: seq<T>)
    requires vs != []
    ensures [vs[0]] + vs[1..] == vs
  {
  }

  lemma {:induction false} FormDecodes(s: bytes, v: Value)
    requires Form(s, v)
    ensures Decode(s) == Ok(v, |s|)
    decreases v, 0
  {
    match v
    case Array(items) =>
      var h :| 0 <= h <= |s| && ArrayHead(s[..h], |items|) && FormAll(s[h..], items);
      ContainerDecodes(s, h, false, |items|, items);
    case Map(entries) =>
      var h :| 0 <= h <= |s| && MapHead(s[..h], |entries| / 2) && FormAll(s[h..], entries);
      ContainerDecodes(s, h, true, |entries| / 2, entries);
    case _ => LeafDecodes(s, v);
  }

  lemma {:induction false} ContainerDecodes(s: bytes, h: nat, isMap: bool, n: nat, items: seq<Value>)
    requires h <= |s| && HeadForm(s[..h], isMap, n) && FormAll(s[h..], items)
    requires |items| == if isMap then 2 * n else n
    ensures Decode(s) == Ok(if isMap then Map(items) else Array(items), |s|)
    decreases items, 1
  {
    HeadDecodes(s[..h], isMap, n);
    TokenPrefix(s, h, Open(isMap, n));
    FormAllDecodes(s[h..], items);
    DecodeContainer(s, Open(isMap, n), h, items, |s| - h);
  }

  lemma {:induction false} FormAllDecodes(s: bytes, vs: seq<Value>)
    requires FormAll(s, vs)
    ensures DecodeAll(s, |vs|) == Ok(vs, |s|)
    decreases vs, 0
  {
    if vs != [] {
      var k :| 0 <= k <= |s| && Form(s[..k], vs[0]) && FormAll(s[k..], vs[1..]);
      FormDecodes(s[..k], vs[0]);
      DecodePrefix(s, k, vs[0]);
      FormAllDecodes(s[k..], vs[1..]);
      DecodeAllOf(s, k, vs);
    }
  }

  lemma HeadAndItems(s: bytes, h: nat, isMap: bool, n: nat, items: seq<Value>)
    requires h <= |s| && HeadForm(s[..h], isMap, n) && FormAll(s[h..], items)
    requires |items| == if isMap then 2 * n else n
    ensures Form(s, if isMap then Map(items) else Array(items))
  {
  }

  lemma FirstAndRest(s: bytes, k: nat, v: Value, vs: seq<Value>)
    requires k <= |s| && Form(s[..k], v) && FormAll(s[k..], vs)
    ensures FormAll(s, [v] + vs)
  {
    assert ([v] + vs)[1..] == vs;
  }

  lemma SliceOfPrefix(s: bytes, k: nat, n: nat)
    requires k <= n <= |s|
    ensures s[..n][..k] == s[..k] && s[..n][k..] == s[k..][..n - k]
  {
  }

  lemma {:induction false} DecodedIsForm(s: bytes, v: Value, n: nat)
    requires Decode(s) == Ok(v, n)
    ensures Form(s[..n], v)
    decreases |s|, 0
  {
    match DecodeToken(s)
    case Ok(Leaf(_), _) => LeafIs(s);
    case Ok(Open(isMap, count), h) =>
      HeadIs(s);
      var items := if v.Map? then v.entries else v.items;
      DecodedAreForms(s[h..], if isMap then 2 * count else count, items, n - h);
      SliceOfPrefix(s, h, n);
      HeadAndItems(s[..n], h, isMap, count, items);
  }

  lemma {:induction false} DecodedAreForms(s: bytes, count: nat, vs: seq<Value>, n: nat)
    requires DecodeAll(s, count) == Ok(vs, n)
    ensures FormAll(s[..n], vs)
    decreases |s|, count + 1
  {
    if count > 0 {
      var v, k := Decode(s).value, Decode(s).size;
      var rest := DecodeAll(s[k..], count - 1).value;
      DecodedIsForm(s, v, k);
      DecodedAreForms(s[k..], count - 1, rest, n - k);
      SliceOfPrefix(s, k, n);
      FirstAndRest(s[..n], k, v, rest);
    }
  }

  /** The decoder finds `v` in the first `n` bytes if and only if these are `v` in one of its formats. */
  lemma DecodeIffForm(s: bytes, v: Value, n: nat)
    ensures Decode(s) == Ok(v, n) <==> n <= |s| && Form(s[..n], v)
  {
    if Decode(s) == Ok(v, n) {
      DecodedIsForm(s, v, n);
    }
    if n <= |s| && Form(s[..n], v) {
      FormDecodes(s[..n], v);
      DecodePrefix(s, n, v);
    }
  }

  /** The encoder writes one of the formats of the value. */
  lemma EncodeHasForm(v: Value)
    requires Packable(v)
    ensures Form(Encode(v), v)
  {
    RoundTrip(v, []);
    assert Encode(v) + [] == Encode(v) == Encode(v)[..|Encode(v)|];
    DecodeIffForm(Encode(v), v, |Encode(v)|);
  }

  /** And a shortest one. */
  lemma {:induction false} EncodeIsShortest(s: bytes, v: Value)
    requires Packable(v) && Form(s, v)
    ensures |Encode(v)| <= |s|
    decreases v, 0
  {
    match v
    case Array(items) =>
      var h :| 0 <= h <= |s| && ArrayHead(s[..h], |items|) && FormAll(s[h..], items);
      HeadIsShortest(s[..h], false, |items|);
      EncodeAllIsShortest(s[h..], items);
    case Map(entries) =>
      var h :| 0 <= h <= |s| && MapHead(s[..h], |entries| / 2) && FormAll(s[h..], entries);
      HeadIsShortest(s[..h], true, |entries| / 2);
      EncodeAllIsShortest(s[h..], entries);
    case _ => LeafIsShortest(s, v);
  }

  lemma HeadIsShortest(s: bytes, isMap: bool, n: nat)
    requires n < U32 && HeadForm(s, isMap, n)
    ensures |EncodeToken(Open(isMap, n))| <= |s|
  {
  }

  lemma LeafIsShortest(s: bytes, v: Value)
    requires PackableToken(Leaf(v)) && LeafForm(s, v)
    ensures |EncodeToken(Leaf(v))| <= |s|
  {
    if v.Int? {
      IntIsShortest(s, v.i);
    }
  }

  lemma IntIsShortest(s: bytes, i: int)
    requires I64_MIN <= i < U64 && IntForm(s, i)
    ensures |EncodeInt(i)| <= |s|
  {
  }

  lemma {:induction false} EncodeAllIsShortest(s: bytes, vs: seq<Value>)
    requires AllPackable(vs) && FormAll(s, vs)
    ensures |EncodeAll(vs)| <= |s|
    decreases vs, 0
  {
    if vs != [] {
      var k :| 0 <= k <= |s| && Form(s[..k], vs[0]) && FormAll(s[k..], vs[1..]);
      EncodeIsShortest(s[..k], vs[0]);
      EncodeAllIsShortest(s[k..], vs[1..]);
    }
  }

  // ----- When the decoder waits -----

  function Zeros(n: nat): (r: bytes)
    ensures |r| == n
  {
    seq(n, _ => 0)
  }

  /** `n` times nil. */
  function Nils(n: nat): (r: bytes)
    ensures |r| == n
  {
    seq(n, _ => 0xc0)
  }

  lemma {:induction false} NilsDecode(n: nat)
    ensures DecodeAll(Nils(n), n).Ok? && DecodeAll(Nils(n), n).size == n
  {
    if n > 0 {
      assert Nils(n)[1..] == Nils(n - 1);
      assert Decode(Nils(n)) == Ok(Nil, 1);
      NilsDecode(n - 1);
    }
  }

  /** Enough zeros make up what is missing of a token. */
  lemma CompleteToken(s: bytes) returns (t: bytes)
    requires s != [] && DecodeToken(s).More?
    ensures DecodeToken(s + t).Ok? && DecodeToken(s + t).size == |s + t|
  {
    match FormatOf(s[0])
    case Unsigned(w) => t := Zeros(1 + w - |s|);
    case Signed(w) => t := Zeros(1 + w - |s|);
    case Counted(_, w) => t := Zeros(1 + w - |s|);
    case Whole(_, size) => t := Zeros(1 + size - |s|);
    case Sized(kind, w) => t := CompleteSized(s, kind, w);
  }

  lemma CompleteSized(s: bytes, kind: Kind, w: nat) returns (t: bytes)
    requires s != [] && FormatOf(s[0]) == Sized(kind, w) && w in {1, 2, 4} && DecodeToken(s).More?
    ensures DecodeToken(s + t).Ok? && DecodeToken(s + t).size == |s + t|
  {
    if |s| < 1 + w {
      var start := Zeros(1 + w - |s|);
      var more := CompletePayload(s + start, kind, w);
      t := start + more;
      assert s + t == s + start + more;
    } else {
      t := CompletePayload(s, kind, w);
    }
  }

  lemma CompletePayload(s: bytes, kind: Kind, w: nat) returns (t: bytes)
    requires s != [] && FormatOf(s[0]) == Sized(kind, w) && 1 + w <= |s|
    requires |s| <= 1 + w + FromBE(s[1..1 + w]) + if kind == ExtKind then 1 else 0
    ensures DecodeToken(s + t).Ok? && DecodeToken(s + t).size == |s + t|
  {
    t := Zeros(1 + w + FromBE(s[1..1 + w]) + (if kind == ExtKind then 1 else 0) - |s|);
    assert (s + t)[1..1 + w] == s[1..1 + w];
  }

  /** Bytes that make up an object, then nils for all that is still to come. */
  lemma FillRest(s: bytes, count: nat)
    requires count > 0 && Decode(s).Ok? && Decode(s).size == |s|
    ensures DecodeAll(s + Nils(count - 1), count).Ok? && DecodeAll(s + Nils(count - 1), count).size == |s| + count - 1
  {
    DecodeStable(s, Nils(count - 1));
    assert (s + Nils(count - 1))[|s|..] == Nils(count - 1);
    NilsDecode(count - 1);
  }

  /** An object that is not complete can be completed: an open container with nils. */
  lemma {:induction false} Complete(s: bytes) returns (t: bytes)
    requires Decode(s).More?
    ensures Decode(s + t).Ok? && Decode(s + t).size == |s + t|
    decreases |s|, 0
  {
    if s == [] {
      return [0xc0];
    }
    match DecodeToken(s)
    case More =>
      t := CompleteToken(s);
      t := CompleteAfterToken(s, t);
    case Ok(Open(isMap, count), n) =>
      t := CompleteAll(s[n..], if isMap then 2 * count else count);
      HeadStays(s, Open(isMap, count), n, t, DecodeAll(s[n..] + t, if isMap then 2 * count else count).value);
  }

  lemma HeadStays(s: bytes, head: Token, n: nat, t: bytes, items: seq<Value>)
    requires DecodeToken(s) == Ok(head, n) && head.Open?
    requires |items| == if head.isMap then 2 * head.count else head.count
    requires DecodeAll(s[n..] + t, |items|) == Ok(items, |s| - n + |t|)
    ensures Decode(s + t).Ok? && Decode(s + t).size == |s + t|
  {
    TokenStable(s, t);
    DropBeforeEnd(s, t, n);
    DecodeContainer(s + t, head, n, items, |s| - n + |t|);
  }

  lemma CompleteAfterToken(s: bytes, start: bytes) returns (t: bytes)
    requires var r := DecodeToken(s + start); r.Ok? && r.size == |s + start|
    ensures Decode(s + t).Ok? && Decode(s + t).size == |s + t|
  {
    if DecodeToken(s + start).value.Open? {
      t := FillContainer(s, start);
    } else {
      t := start;
    }
  }

  lemma FillContainer(s: bytes, start: bytes) returns (t: bytes)
    requires var r := DecodeToken(s + start); r.Ok? && r.value.Open? && r.size == |s + start|
    ensures Decode(s + t).Ok? && Decode(s + t).size == |s + t|
  {
    var head := DecodeToken(s + start).value;
    var n := if head.isMap then 2 * head.count else head.count;
    t := start + Nils(n);
    assert s + t == s + start + Nils(n);
    TokenStable(s + start, Nils(n));
    assert (s + t)[|s + start|..] == Nils(n);
    NilsDecode(n);
  }

  lemma {:induction false} CompleteAll(s: bytes, count: nat) returns (t: bytes)
    requires DecodeAll(s, count).More?
    ensures DecodeAll(s + t, count).Ok? && DecodeAll(s + t, count).size == |s + t|
    decreases |s|, count + 1
  {
    match Decode(s)
    case More =>
      var start := Complete(s);
      t := start + Nils(count - 1);
      assert s + t == s + start + Nils(count - 1);
      FillRest(s + start, count);
    case Ok(v, n) =>
      t := CompleteAll(s[n..], count - 1);
      FirstStays(s, v, n, t, DecodeAll(s[n..] + t, count - 1).value);
  }

  lemma DropBeforeEnd(s: bytes, t: bytes, n: nat)
    requires n <= |s|
    ensures (s + t)[n..] == s[n..] + t
  {
  }

  lemma FirstStays(s: bytes, v: Value, n: nat, t: bytes, vs: seq<Value>)
    requires Decode(s) == Ok(v, n) && DecodeAll(s[n..] + t, |vs|) == Ok(vs, |s| - n + |t|)
    ensures DecodeAll(s + t, 1 + |vs|) == Ok([v] + vs, |s + t|)
  {
    DecodeStable(s, t);
    DropBeforeEnd(s, t, n);
    DecodeAllFirst(s + t, v, n, vs, |s| - n + |t|);
  }

  /** The decoder waits if and only if no object is complete and some continuation completes one. */
  lemma WaitsIff(s: bytes)
    ensures Decode(s).More? <==> !Decode(s).Ok? && exists t: bytes :: Decode(s + t).Ok?
  {
    if Decode(s).More? {
      var t := Complete(s);
      assert Decode(s + t).Ok?;
    } else if Decode(s).Bad? {
      forall t: bytes
        ensures Decode(s + t).Bad?
      {
        DecodeStable(s, t);
      }
    }
  }
}
