/** The method processor: every request is answered exactly once, whatever its method does. */
module Methods {
  import opened Wrappers
  import opened Bytes
  import opened Msgpack
  import opened Messages
  import opened Formats
  import opened SerializationBuffers

  /**
    How the user's function ends: with a value, a `MethodException` and its object, or another exception and its
    `what()`.
   */
  datatype Ending = Returns(value: Value) | ThrowsObject(thrown: Value) | Throws(what: bytes)

  /**
    A registered function, with the conversion of parameters to its types, which may throw. A void function's value is
    unused.
   */
  datatype Method = Method(isVoid: bool, convert: seq<Value> -> Result<seq<Value>, bytes>, body: seq<Value> -> Ending)

  type MethodDict = map<bytes, Method>

  const MAX_TEXT: nat := U32 - 64

  /** A value that can be packed and whose response fits the growing buffer. */
  predicate SaneValue(v: Value) {
    Packable(v) && |Encode(v)| <= MAX_CAPACITY - 16
  }

  predicate SaneEnding(ending: Ending) {
    match ending
    case Returns(v) => SaneValue(v)
    case ThrowsObject(v) => SaneValue(v)
    case Throws(what) => |what| <= MAX_TEXT
  }

  ghost predicate Sane(m: Method) {
    && (forall ps :: m.convert(ps).Failure? ==> |m.convert(ps).error| <= MAX_TEXT)
    && (forall args :: SaneEnding(m.body(args)))
  }

  ghost predicate SaneMethods(methods: MethodDict) {
    forall name :: name in methods ==> Sane(methods[name])
  }

  /** `what()` is a C string: it ends before the first zero byte. */
  function CString(s: bytes): (r: bytes)
    ensures r <= s
  {
    if s == [] || s[0] == 0 then [] else [s[0]] + CString(s[1..])
  }

  function Ascii(s: string): (r: bytes)
    ensures |r| == |s|
  {
    seq(|s|, i requires 0 <= i < |s| => s[i] as int % 0x80)
  }

  function NotFoundText(name: bytes): bytes {
    CString(Ascii("Method ") + name + Ascii(" not found."))
  }

  /** Everything before the first zero byte. */
  lemma {:induction false} CStringIs(s: bytes)
    ensures CString(s) <= s && 0 !in CString(s)
    ensures |CString(s)| < |s| ==> s[|CString(s)|] == 0
  {
    if s != [] && s[0] != 0 {
      CStringIs(s[1..]);
      assert s == [s[0]] + s[1..];
    }
  }

  /** The text is "Method ", the name and " not found.", up to the first zero byte in the name. */
  lemma NotFoundTextIs(name: bytes)
    ensures var whole := [0x4d, 0x65, 0x74, 0x68, 0x6f, 0x64, 0x20] + name
                         + [0x20, 0x6e, 0x6f, 0x74, 0x20, 0x66, 0x6f, 0x75, 0x6e, 0x64, 0x2e];
            var text := NotFoundText(name);
            text <= whole && 0 !in text && (text != whole ==> |text| < |whole| && whole[|text|] == 0)
  {
    var before, after := Ascii("Method "), Ascii(" not found.");
    assert before == [0x4d, 0x65, 0x74, 0x68, 0x6f, 0x64, 0x20];
    assert after == [0x20, 0x6e, 0x6f, 0x74, 0x20, 0x66, 0x6f, 0x75, 0x6e, 0x64, 0x2e];
    CStringIs(before + name + after);
  }

  // ----- The specification: what the caller is told -----

  function Answer(methods: MethodDict, name: bytes, params: seq<Value>): CallResult {
    if name !in methods then Failed(Str(NotFoundText(name)))
    else match methods[name].convert(params)
      case Failure(what) => Failed(Str(what))
      case Success(args) =>
        match methods[name].body(args)
        case Returns(v) => Returned(if methods[name].isVoid then Nil else v)
        case ThrowsObject(thrown) => Failed(thrown)
        case Throws(what) => Failed(Str(what))
  }

  lemma TextIsSane(text: bytes)
    requires |text| < U32
    ensures SaneValue(Str(text))
  {
    assert |Encode(Str(text))| <= 5 + |text|;
  }

  lemma LengthOf4(a: Value, b: Value, c: Value, d: Value)
    requires Packable(a) && Packable(b) && Packable(c) && Packable(d)
    ensures |Encode(Array([a, b, c, d]))| == 1 + |Encode(a)| + |Encode(b)| + |Encode(c)| + |Encode(d)|
  {
    assert [d][1..] == [] && [c, d][1..] == [d] && [b, c, d][1..] == [c, d] && [a, b, c, d][1..] == [b, c, d];
    assert |EncodeAll([d])| == |Encode(d)|;
    assert |EncodeAll([c, d])| == |Encode(c)| + |Encode(d)|;
    assert |EncodeAll([b, c, d])| == |Encode(b)| + |Encode(c)| + |Encode(d)|;
  }

  lemma ResponseFits(id: nat, result: CallResult)
    requires id < U32 && SaneValue(if result.Returned? then result.value else result.error)
    ensures ValidMessage(Response(id, result)) && |Serialize(Response(id, result))| <= MAX_CAPACITY
  {
    var v := if result.Returned? then result.value else result.error;
    ToValuePackable(Response(id, result));
    LengthOf4(Int(1), Int(id), if result.Returned? then Nil else v, if result.Returned? then v else Nil);
    assert |Encode(Int(id))| <= 5;
  }

  // ----- What is written and what is read, by cases -----

  /** The bytes of the response to a request whose method ended so. */
  ghost predicate TellsEnding(message: bytes, id: nat, isVoid: bool, ending: Ending) {
    match ending
    case Returns(v) => Form(message, Array([Int(1), Int(id), Nil, if isVoid then Nil else v]))
    case ThrowsObject(thrown) => Form(message, Array([Int(1), Int(id), thrown, Nil]))
    case Throws(what) => Form(message, Array([Int(1), Int(id), Str(what), Nil]))
  }

  /** The bytes of the response to any request. */
  ghost predicate Tells(message: bytes, id: nat, methods: MethodDict, name: bytes, params: seq<Value>) {
    if name !in methods then Form(message, Array([Int(1), Int(id), Str(NotFoundText(name)), Nil]))
    else
      var m := methods[name];
      match m.convert(params)
      case Failure(what) => Form(message, Array([Int(1), Int(id), Str(what), Nil]))
      case Success(args) => TellsEnding(message, id, m.isVoid, m.body(args))
  }

  /** What the caller reads. A thrown nil reads as a nil result. */
  ghost predicate ReadsBack(result: CallResult, methods: MethodDict, name: bytes, params: seq<Value>) {
    if name !in methods then result == Failed(Str(NotFoundText(name)))
    else
      var m := methods[name];
      match m.convert(params)
      case Failure(what) => result == Failed(Str(what))
      case Success(args) =>
        match m.body(args)
        case Returns(v) => result == Returned(if m.isVoid then Nil else v)
        case ThrowsObject(thrown) => result == if thrown == Nil then Returned(Nil) else Failed(thrown)
        case Throws(what) => result == Failed(Str(what))
  }

  // ----- The code, exceptions as failures -----

  /** `invoke_with_tuple`: any exception becomes a `MethodException`. */
  function InvokeWithTuple(m: Method, args: seq<Value>): Result<Value, Value> {
    match m.body(args)
    case Returns(v) => Success(v)
    case ThrowsObject(thrown) => Failure(thrown)
    case Throws(what) => Failure(Str(what))
  }

  /** `call` of a method with a value; what escapes is the exception of the conversion. */
  method CallWithValue(m: Method, id: nat, params: seq<Value>) returns (r: Result<bytes, bytes>)
    requires Sane(m) && id < U32
    ensures match m.convert(params)
            case Failure(what) => r == Failure(what)
            case Success(args) =>
              var result :=
                match InvokeWithTuple(m, args) {
                  case Success(v) => Returned(v)
                  case Failure(thrown) => Failed(thrown)
                };
              && ValidMessage(Response(id, result))
              && r == Success(Serialize(Response(id, result)))
    ensures r.Success? <==> m.convert(params).Success?
    ensures r.Success? ==> TellsEnding(r.value, id, false, m.body(m.convert(params).value))
  {
    var converted := m.convert(params);
    if converted.Failure? {
      return Failure(converted.error);
    }
    var args := converted.value;
    assert SaneEnding(m.body(args));
    match InvokeWithTuple(m, args)
    case Success(v) =>
      ResponseFits(id, Returned(v));
      var message := SerializeSuccessfulResponse(id, v);
      return Success(message);
    case Failure(thrown) =>
      if m.body(args).Throws? {
        TextIsSane(thrown.s);
      }
      ResponseFits(id, Failed(thrown));
      var message := SerializeErrorResponse(id, thrown);
      return Success(message);
  }

  /** `call` of a void method: every exception is caught here. */
  method CallVoid(m: Method, id: nat, params: seq<Value>) returns (message: bytes)
    requires Sane(m) && id < U32
    ensures var result := match m.convert(params) {
              case Failure(what) => Failed(Str(what))
              case Success(args) =>
                match InvokeWithTuple(m, args) {
                  case Success(_) => Returned(Nil)
                  case Failure(thrown) => Failed(thrown)
                }
            };
            ValidMessage(Response(id, result)) && message == Serialize(Response(id, result))
    ensures m.convert(params).Failure? ==> Form(message, Array([Int(1), Int(id), Str(m.convert(params).error), Nil]))
    ensures m.convert(params).Success? ==> TellsEnding(message, id, true, m.body(m.convert(params).value))
  {
    var converted := m.convert(params);
    if converted.Failure? {
      TextIsSane(converted.error);
      ResponseFits(id, Failed(Str(converted.error)));
      message := SerializeErrorResponse(id, Str(converted.error));
      return;
    }
    var args := converted.value;
    assert SaneEnding(m.body(args));
    match m.body(args)
    case ThrowsObject(thrown) =>
      ResponseFits(id, Failed(thrown));
      message := SerializeErrorResponse(id, thrown);
    case Throws(what) =>
      TextIsSane(what);
      ResponseFits(id, Failed(Str(what)));
      message := SerializeErrorResponse(id, Str(what));
    case Returns(_) =>
      ResponseFits(id, Returned(Nil));
      message := SerializeSuccessfulResponse(id, Nil);
  }

  /** `notify` of a method: both its handlers log what was thrown. `None`: the conversion threw, and nothing ran. */
  method NotifyMethod(m: Method, params: seq<Value>) returns (ending: Option<Ending>)
    ensures ending.Some? <==> m.convert(params).Success?
    ensures ending.Some? ==> ending.value == m.body(m.convert(params).value)
  {
    var converted := m.convert(params);
    if converted.Failure? {
      return None;
    }
    ending := Some(m.body(converted.value));
  }

  class MethodProcessor {
    var methods: MethodDict

    constructor ()
      ensures methods == map[]
    {
      methods := map[];
    }

    /** False stands for the exception "Duplicate method name". */
    method Append(name: bytes, m: Method) returns (ok: bool)
      modifies this
      ensures ok <==> name !in old(methods)
      ensures methods == if ok then old(methods)[name := m] else old(methods)
    {
      ok := name !in methods;
      if ok {
        methods := methods[name := m];
      }
    }

    /** One response comes back, whatever happens on the way. */
    method Call(request: Message) returns (message: bytes)
      requires request.Request? && request.id < U32 && |request.name| <= MAX_TEXT && SaneMethods(methods)
      ensures var response := Response(request.id, Answer(methods, request.name, request.params));
              ValidMessage(response) && message == Serialize(response)
      ensures Tells(message, request.id, methods, request.name, request.params)
    {
      var error := NotFoundText(request.name);
      if request.name in methods {
        var m := methods[request.name];
        if m.isVoid {
          message := CallVoid(m, request.id, request.params);
          return;
        }
        var r := CallWithValue(m, request.id, request.params);
        if r.Success? {
          return r.value;
        }
        error := r.error;
      }
      TextIsSane(error);
      ResponseFits(request.id, Failed(Str(error)));
      message := SerializeErrorResponse(request.id, Str(error));
    }

    /**
      A notification is answered by nothing. How its method ended, if it ran, is returned here for the contract only.
     */
    method Notify(notification: Message) returns (ending: Option<Ending>)
      requires notification.Notification?
      ensures ending.Some? <==>
                && notification.name in methods
                && methods[notification.name].convert(notification.params).Success?
      ensures ending.Some? ==>
                var m := methods[notification.name];
                ending.value == m.body(m.convert(notification.params).value)
    {
      if notification.name !in methods {
        return None;
      }
      ending := NotifyMethod(methods[notification.name], notification.params);
    }
  }

  /**
    The bytes of an answer, followed by anything, read back as one response with the id of the request. It is a failure
    if the name is unknown, the conversion fails or the method throws, and carries what was thrown; only a thrown nil
    reads as a nil result. Otherwise it carries the value, or nil for a void method.
   */
  lemma AnswerIsReadBack(methods: MethodDict, id: nat, name: bytes, params: seq<Value>, rest: bytes)
    requires SaneMethods(methods) && id < U32 && |name| <= MAX_TEXT
    ensures var response := Response(id, Answer(methods, name, params));
            && ValidMessage(response)
            && Decode(Serialize(response) + rest) == Ok(ToValue(response), |Serialize(response)|)
            && Parse(ToValue(response)) == Success(AsReceived(response))
            && AsReceived(response).Response? && AsReceived(response).id == id
    ensures ReadsBack(AsReceived(Response(id, Answer(methods, name, params))).result, methods, name, params)
  {
    var result := Answer(methods, name, params);
    AnswerIsSane(methods, name, params);
    ResponseFits(id, result);
    SerializeThenParse(Response(id, result), rest);
  }

  lemma AnswerIsSane(methods: MethodDict, name: bytes, params: seq<Value>)
    requires SaneMethods(methods) && |name| <= MAX_TEXT
    ensures var result := Answer(methods, name, params);
            SaneValue(if result.Returned? then result.value else result.error)
  {
    if name !in methods {
      TextIsSane(NotFoundText(name));
    } else {
      assert Sane(methods[name]);
      match methods[name].convert(params)
      case Failure(what) => TextIsSane(what);
      case Success(args) =>
        var ending := methods[name].body(args);
        assert SaneEnding(ending);
        if ending.Throws? {
          TextIsSane(ending.what);
        }
    }
  }
}
