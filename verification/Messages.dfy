/** MessagePack-RPC messages, their wire form, and the shapes the parser accepts. */
module Messages {
  import opened Wrappers
  import opened Bytes
  import opened Msgpack

  datatype CallResult = Returned(value: Value) | Failed(error: Value)

  datatype Message =
    | Request(id: nat, name: bytes, params: seq<Value>)
    | Response(id: nat, result: CallResult)
    | Notification(name: bytes, params: seq<Value>)

  /** What the type system and the packer demand: a 32-bit id and packable contents. */
  predicate ValidMessage(m: Message)
  {
    && (m.Request? || m.Response? ==> m.id < U32)
    && (m.Request? || m.Notification? ==> |m.name| < U32 && |m.params| < U32 && AllPackable(m.params))
    && (m.Response? ==> Packable(if m.result.Returned? then m.result.value else m.result.error))
  }

  /** The reasons for `INVALID_MESSAGE`; the last one is an unpacking error. */
  datatype ParseError =
    | InvalidType | InvalidSize | InvalidMessageType | InvalidId | InvalidMethodName | InvalidParameters | Unparsable

  // ----- Serializing -----

  function ToValue(m: Message): Value {
    match m
    case Request(id, name, params) => Array([Int(0), Int(id), Str(name), Array(params)])
    case Response(id, Returned(value)) => Array([Int(1), Int(id), Nil, value])
    case Response(id, Failed(error)) => Array([Int(1), Int(id), error, Nil])
    case Notification(name, params) => Array([Int(2), Str(name), Array(params)])
  }

  lemma ToValuePackable(m: Message)
    requires ValidMessage(m)
    ensures Packable(ToValue(m))
  {
    assert ToValue(m).Array?;
  }

  function Serialize(m: Message): (s: bytes)
    requires ValidMessage(m)
    ensures |s| > 0
  {
    ToValuePackable(m);
    Encode(ToValue(m))
  }

  // ----- Parsing -----

  function ParseId(v: Value): Option<nat> {
    if v.Int? && 0 <= v.i < U32 then Some(v.i) else None
  }

  /** The library turns both strings and binaries into a string view. */
  function ParseName(v: Value): Option<bytes> {
    if v.Str? then Some(v.s) else if v.Bin? then Some(v.d) else None
  }

  function ParseRequest(items: seq<Value>): Result<Message, ParseError>
    requires |items| >= 3
  {
    if |items| != 4 then Failure(InvalidSize)
    else match ParseId(items[1])
      case None => Failure(InvalidId)
      case Some(id) =>
        match ParseName(items[2])
        case None => Failure(InvalidMethodName)
        case Some(name) =>
          if !items[3].Array? then Failure(InvalidParameters)
          else Success(Request(id, name, items[3].items))
  }

  function ParseResponse(items: seq<Value>): Result<Message, ParseError>
    requires |items| >= 3
  {
    if |items| != 4 then Failure(InvalidSize)
    else match ParseId(items[1])
      case None => Failure(InvalidId)
      case Some(id) =>
        if items[2] != Nil then Success(Response(id, Failed(items[2])))
        else Success(Response(id, Returned(items[3])))
  }

  function ParseNotification(items: seq<Value>): Result<Message, ParseError>
    requires |items| >= 3
  {
    if |items| != 3 then Failure(InvalidSize)
    else match ParseName(items[1])
      case None => Failure(InvalidMethodName)
      case Some(name) =>
        if !items[2].Array? then Failure(InvalidParameters)
        else Success(Notification(name, items[2].items))
  }

  function Parse(v: Value): Result<Message, ParseError> {
    if !v.Array? then Failure(InvalidType)
    else if |v.items| < 3 then Failure(InvalidSize)
    else if v.items[0] == Int(0) then ParseRequest(v.items)
    else if v.items[0] == Int(1) then ParseResponse(v.items)
    else if v.items[0] == Int(2) then ParseNotification(v.items)
    else Failure(InvalidMessageType)
  }

  // ----- The shapes of the specification -----

  predicate NameForm(v: Value, name: bytes) { v == Str(name) || v == Bin(name) }

  /** `v` is one of the three specified arrays, and `m` is what it says. */
  ghost predicate Denotes(v: Value, m: Message)
  {
    match m
    case Request(id, name, params) =>
      id < U32 && exists n :: NameForm(n, name) && v == Array([Int(0), Int(id), n, Array(params)])
    case Response(id, Returned(value)) =>
      id < U32 && v == Array([Int(1), Int(id), Nil, value])
    case Response(id, Failed(error)) =>
      id < U32 && error != Nil && exists unused :: v == Array([Int(1), Int(id), error, unused])
    case Notification(name, params) =>
      exists n :: NameForm(n, name) && v == Array([Int(2), n, Array(params)])
  }

  lemma ArrayOf3(v: Value)
    requires v.Array? && |v.items| == 3
    ensures v == Array([v.items[0], v.items[1], v.items[2]])
  {
    assert v.items == [v.items[0], v.items[1], v.items[2]];
  }

  lemma ArrayOf4(v: Value)
    requires v.Array? && |v.items| == 4
    ensures v == Array([v.items[0], v.items[1], v.items[2], v.items[3]])
  {
    assert v.items == [v.items[0], v.items[1], v.items[2], v.items[3]];
  }

  /** The parser accepts exactly the specified shapes, and reads from each exactly its contents. */
  lemma ParseIffDenotes(v: Value, m: Message)
    ensures Parse(v) == Success(m) <==> Denotes(v, m)
  {
    if Parse(v) == Success(m) {
      match m
      case Request(id, name, params) =>
        ArrayOf4(v);
        assert NameForm(v.items[2], name);
      case Response(id, result) => ArrayOf4(v);
      case Notification(name, params) =>
        ArrayOf3(v);
        assert NameForm(v.items[1], name);
    }
  }

  predicate IsId(v: Value) {
    v.Int? && 0 <= v.i < U32
  }

  predicate IsName(v: Value) {
    v.Str? || v.Bin?
  }

  /** What is wrong with a value that is none of the three arrays; the first thing that is, from left to right. */
  predicate Faulty(v: Value, e: ParseError) {
    match e
    case InvalidType => !v.Array?
    case InvalidSize =>
      && v.Array?
      && (|| |v.items| < 3
          || (v.items[0] in [Int(0), Int(1)] && |v.items| != 4)
          || (v.items[0] == Int(2) && |v.items| != 3))
    case InvalidMessageType => v.Array? && |v.items| >= 3 && v.items[0] !in [Int(0), Int(1), Int(2)]
    case InvalidId => v.Array? && |v.items| == 4 && v.items[0] in [Int(0), Int(1)] && !IsId(v.items[1])
    case InvalidMethodName =>
      && v.Array?
      && (|| (|v.items| == 4 && v.items[0] == Int(0) && IsId(v.items[1]) && !IsName(v.items[2]))
          || (|v.items| == 3 && v.items[0] == Int(2) && !IsName(v.items[1])))
    case InvalidParameters =>
      && v.Array?
      && (|| (|v.items| == 4 && v.items[0] == Int(0) && IsId(v.items[1]) && IsName(v.items[2]) && !v.items[3].Array?)
          || (|v.items| == 3 && v.items[0] == Int(2) && IsName(v.items[1]) && !v.items[2].Array?))
    case Unparsable => false
  }

  /** The parser gives exactly that reason. */
  lemma ParseFailsIff(v: Value, e: ParseError)
    ensures Parse(v) == Failure(e) <==> Faulty(v, e)
  {
  }

  // ----- Round trips -----

  /** What the other side reads when `m` was serialized. A nil error is indistinguishable from a nil result. */
  function AsReceived(m: Message): Message {
    if m.Response? && m.result == Failed(Nil) then Response(m.id, Returned(Nil)) else m
  }

  /**
    The bytes of a message, followed by anything, are read as one object, and that object as the message:
    always as what it is, except for an error that is nil.
   */
  lemma SerializeThenParse(m: Message, rest: bytes)
    requires ValidMessage(m)
    ensures Decode(Serialize(m) + rest) == Ok(ToValue(m), |Serialize(m)|)
    ensures Parse(ToValue(m)) == Success(AsReceived(m))
    ensures Parse(ToValue(m)) == Success(m) <==> !(m.Response? && m.result == Failed(Nil))
  {
    ToValuePackable(m);
    RoundTrip(ToValue(m), rest);
  }

  lemma ParseKeepsValid(v: Value)
    requires Packable(v) && Parse(v).Success?
    ensures ValidMessage(Parse(v).value)
  {
    assert forall i :: 0 <= i < |v.items| ==> Packable(v.items[i]);
  }

  /** Serializing an accepted message again loses nothing: the error it carries, if any, is not nil. */
  lemma ParseSerializeParse(v: Value, rest: bytes)
    requires Packable(v) && Parse(v).Success?
    ensures ValidMessage(Parse(v).value)
    ensures var again := Decode(Serialize(Parse(v).value) + rest);
            again.Ok? && Parse(again.value) == Parse(v)
  {
    ParseKeepsValid(v);
    SerializeThenParse(Parse(v).value, rest);
  }
}
