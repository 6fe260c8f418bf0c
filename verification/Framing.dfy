/** The read side of a connection: bytes arrive in pieces of any size, messages leave in order. */
module Framing {
  import opened Wrappers
  import opened Bytes
  import opened Msgpack
  import opened Formats
  import opened Messages
  import opened Lifecycle
  import opened SerializationBuffers

  /** How a byte stream ends: waiting for more after some undecided bytes, or at its first error. */
  datatype End = Waiting(rest: bytes) | Broken(error: ParseError)

  datatype Stream = Stream(messages: seq<Message>, end: End)

  /** One `try_parse`: nothing yet, an error, or a message and the bytes it took. */
  datatype Parsed = Nothing | Wrong(error: ParseError) | Took(message: Message, size: nat)

  function ParseOne(s: bytes): (r: Parsed)
    ensures r.Took? ==> 0 < r.size <= |s| && ValidMessage(r.message)
  {
    match Decode(s)
    case More => Nothing
    case Bad => Wrong(Unparsable)
    case Ok(v, n) =>
      match Parse(v)
      case Failure(error) => Wrong(error)
      case Success(m) =>
        ParseKeepsValid(v);
        Took(m, n)
  }

  /** What a whole byte stream says, read at once. */
  function ReadStream(s: bytes): Stream
    decreases |s|
  {
    match ParseOne(s)
    case Nothing => Stream([], Waiting(s))
    case Wrong(error) => Stream([], Broken(error))
    case Took(m, n) =>
      var later := ReadStream(s[n..]);
      Stream([m] + later.messages, later.end)
  }

  /**
    What a byte stream says, without reading it: objects that denote the messages, one after another; and then bytes
    that some continuation completes, or the first object that is no message and what is wrong with it, or bytes that
    no continuation completes.
   */
  ghost predicate Says(s: bytes, stream: Stream)
    decreases |stream.messages|
  {
    if stream.messages != [] then
      && Decode(s).Ok? && Denotes(Decode(s).value, stream.messages[0])
      && Says(s[Decode(s).size..], Stream(stream.messages[1..], stream.end))
    else match stream.end
      case Waiting(rest) => rest == s && !Decode(s).Ok? && exists t: bytes :: Decode(s + t).Ok?
      case Broken(error) =>
        if Decode(s).Ok? then Faulty(Decode(s).value, error)
        else error == Unparsable && forall t: bytes :: !Decode(s + t).Ok?
  }

  /** The reader understands exactly that: it waits, delivers and fails where it should, with the right error. */
  lemma {:induction false} ReadsWhatIsSaid(s: bytes, stream: Stream)
    ensures ReadStream(s) == stream <==> Says(s, stream)
    decreases |s|
  {
    WaitsIff(s);
    match Decode(s)
    case More => assert s + [] == s;
    case Bad =>
      assert s + [] == s;
      NeverCompleted(s);
    case Ok(v, n) => ReadsObject(s, v, n, stream);
  }

  lemma NeverCompleted(s: bytes)
    requires Decode(s).Bad?
    ensures forall t: bytes :: !Decode(s + t).Ok?
  {
    forall t: bytes
      ensures !Decode(s + t).Ok?
    {
      DecodeStable(s, t);
    }
  }

  lemma {:induction false} ReadsObject(s: bytes, v: Value, n: nat, stream: Stream)
    requires Decode(s) == Ok(v, n)
    ensures ReadStream(s) == stream <==> Says(s, stream)
    decreases |s|, 0
  {
    match Parse(v)
    case Failure(error) => ReadsFault(s, v, n, error, stream);
    case Success(m) =>
      if stream.messages != [] {
        ReadsWhatIsSaid(s[n..], Stream(stream.messages[1..], stream.end));
      }
      ReadsMessage(s, v, n, m, stream);
  }

  lemma ReadsFault(s: bytes, v: Value, n: nat, error: ParseError, stream: Stream)
    requires Decode(s) == Ok(v, n) && Parse(v) == Failure(error)
    ensures ReadStream(s) == stream <==> Says(s, stream)
  {
    assert ReadStream(s) == Stream([], Broken(error));
    if stream.messages != [] {
      ParseIffDenotes(v, stream.messages[0]);
    } else if stream.end.Broken? {
      ParseFailsIff(v, stream.end.error);
    }
  }

  lemma ReadsMessage(s: bytes, v: Value, n: nat, m: Message, stream: Stream)
    requires Decode(s) == Ok(v, n) && Parse(v) == Success(m)
    requires stream.messages != [] ==>
               var later := Stream(stream.messages[1..], stream.end);
               ReadStream(s[n..]) == later <==> Says(s[n..], later)
    ensures ReadStream(s) == stream <==> Says(s, stream)
  {
    var later := ReadStream(s[n..]);
    assert ReadStream(s) == Stream([m] + later.messages, later.end);
    if stream.messages == [] {
      if stream.end.Broken? {
        ParseFailsIff(v, stream.end.error);
      }
    } else {
      ParseIffDenotes(v, stream.messages[0]);
      SameIff(m, later, stream);
    }
  }

  lemma SameIff(m: Message, later: Stream, stream: Stream)
    requires stream.messages != []
    ensures Stream([m] + later.messages, later.end) == stream
            <==> m == stream.messages[0] && later == Stream(stream.messages[1..], stream.end)
  {
    FirstThenRest(stream.messages);
    assert ([m] + later.messages)[1..] == later.messages;
  }

  /** One read: the undecided bytes and the new ones are read together. A broken stream is never given more. */
  function Feed(stream: Stream, chunk: bytes): Stream {
    match stream.end
    case Broken(_) => stream
    case Waiting(rest) =>
      var more := ReadStream(rest + chunk);
      Stream(stream.messages + more.messages, more.end)
  }

  function FeedAll(stream: Stream, chunks: seq<bytes>): Stream
    decreases |chunks|
  {
    if chunks == [] then stream else FeedAll(Feed(stream, chunks[0]), chunks[1..])
  }

  const FRESH := Stream([], Waiting([]))

  lemma ParseOneStable(s: bytes, t: bytes)
    requires !ParseOne(s).Nothing?
    ensures ParseOne(s + t) == ParseOne(s)
  {
    DecodeStable(s, t);
  }

  lemma ParseOneSerialized(m: Message, t: bytes)
    requires ValidMessage(m)
    ensures ParseOne(Serialize(m) + t) == Took(AsReceived(m), |Serialize(m)|)
  {
    SerializeThenParse(m, t);
  }

  lemma ParseOneTruncated(m: Message, n: nat)
    requires ValidMessage(m) && n < |Serialize(m)|
    ensures ParseOne(Serialize(m)[..n]) == Nothing
  {
    ToValuePackable(m);
    ProperPrefixWaits(ToValue(m), n);
  }

  ghost function Prepend(ms: seq<Message>, stream: Stream): Stream {
    Stream(ms + stream.messages, stream.end)
  }

  lemma PrependNext(now: seq<Message>, s: bytes)
    ensures var p := ParseOne(s);
            Prepend(now, ReadStream(s)) ==
              if p.Took? then Prepend(now + [p.message], ReadStream(s[p.size..]))
              else Stream(now, if p.Wrong? then Broken(p.error) else Waiting(s))
  {
    var p := ParseOne(s);
    if p.Took? {
      Regroup(now, p.message, ReadStream(s[p.size..]).messages);
    }
  }

  lemma Regroup(a: seq<Message>, m: Message, b: seq<Message>)
    ensures a + ([m] + b) == (a + [m]) + b
  {
  }

  class MessageParser {
    var buffer: bytes

    constructor ()
      ensures buffer == []
    {
      buffer := [];
    }

    method Consumed(chunk: bytes)
      modifies this
      ensures buffer == old(buffer) + chunk
    {
      buffer := buffer + chunk;
    }

    /** The first object, if it is complete and a message; nothing while it can be completed; else what is wrong. */
    method TryParse() returns (r: Result<Option<Message>, ParseError>)
      modifies this
      ensures match r {
                case Success(Some(m)) =>
                  var d := Decode(old(buffer));
                  d.Ok? && Denotes(d.value, m) && buffer == old(buffer)[d.size..]
                case Success(None) =>
                  !Decode(old(buffer)).Ok? && (exists t: bytes :: Decode(old(buffer) + t).Ok?) && buffer == old(buffer)
                case Failure(error) =>
                  var d := Decode(old(buffer));
                  if d.Ok? then Faulty(d.value, error)
                  else error == Unparsable && forall t: bytes :: !Decode(old(buffer) + t).Ok?
              }
      ensures match ParseOne(old(buffer)) {
                case Nothing => r == Success(None) && buffer == old(buffer)
                case Wrong(error) => r == Failure(error)
                case Took(m, n) => r == Success(Some(m)) && buffer == old(buffer)[n..]
              }
    {
      WaitsIff(buffer);
      match Decode(buffer)
      case More => r := Success(None);
      case Bad =>
        NeverCompleted(buffer);
        r := Failure(Unparsable);
      case Ok(v, n) =>
        buffer := buffer[n..];
        match Parse(v) {
          case Success(m) =>
            ParseIffDenotes(v, m);
            r := Success(Some(m));
          case Failure(error) =>
            ParseFailsIff(v, error);
            r := Failure(error);
        }
    }
  }

  /** The arguments of a read handler: bytes, or one of the error codes it tells apart. */
  datatype ReadEvent = Bytes(chunk: bytes) | Aborted | ClosedByPeer

  class Connection {
    const parser: MessageParser
    const stateMachine: BackgroundTaskStateMachine
    /** Whether a read is outstanding. */
    var reading: bool
    /** The calls of `on_received`, and of `on_closed` with its status. */
    ghost var received: seq<Message>
    ghost var closed: seq<Option<ParseError>>

    constructor ()
      ensures fresh(parser) && fresh(stateMachine)
      ensures parser.buffer == [] && stateMachine.state == Init
      ensures !reading && received == [] && closed == []
    {
      parser := new MessageParser();
      stateMachine := new BackgroundTaskStateMachine();
      reading, received, closed := false, [], [];
    }

    method Start() returns (ok: bool)
      modifies this, stateMachine
      ensures ok <==> old(stateMachine.state) == Init
      ensures ok ==> stateMachine.state == Processing && reading
      ensures !ok ==> stateMachine.state == old(stateMachine.state) && reading == old(reading)
      ensures received == old(received) && closed == old(closed)
    {
      ok := stateMachine.HandleStartRequest();
      if ok {
        stateMachine.HandleProcessingStarted();
        reading := true;
      }
    }

    /**
      A connection that was stopped before is left alone; a read that is still outstanding then goes on. The handler of
      a cancelled read does nothing.
     */
    method CloseInThread(status: Option<ParseError>)
      modifies this, stateMachine
      ensures stateMachine.state == Stopped && received == old(received)
      ensures old(stateMachine.state) != Stopped ==> !reading && closed == old(closed) + [status]
      ensures old(stateMachine.state) == Stopped ==> reading == old(reading) && closed == old(closed)
    {
      var required := stateMachine.HandleStopRequested();
      if !required {
        return;
      }
      reading := false;
      closed := closed + [status];
    }

    /** The `while (true)` loop of the read handler, up to the first error. */
    method DeliverParsed() returns (failure: Option<ParseError>)
      modifies this`received, parser
      ensures var stream := ReadStream(old(parser.buffer));
              && received == old(received) + stream.messages
              && match failure {
                case None => stream.end == Waiting(parser.buffer)
                case Some(error) => stream.end == Broken(error)
              }
    {
      ghost var whole := ReadStream(parser.buffer);
      ghost var now: seq<Message> := [];
      while true
        invariant whole == Prepend(now, ReadStream(parser.buffer))
        invariant received == old(received) + now
        decreases |parser.buffer|
      {
        PrependNext(now, parser.buffer);
        var r := parser.TryParse();
        match r {
          case Failure(error) => return Some(error);
          case Success(Some(m)) => received, now := received + [m], now + [m];
          case Success(None) => return None;
        }
      }
    }

    /** The read handler. The callbacks it makes do not change the state within this call. */
    method ProcessReadBytes(event: ReadEvent)
      requires reading
      modifies this, parser, stateMachine
      ensures event == Aborted ==> !reading && received == old(received) && closed == old(closed)
      ensures event == ClosedByPeer ==>
                && !reading && stateMachine.state == Stopped
                && received == old(received) && closed == old(closed) + [None]
      ensures event.Bytes? ==>
                var stream := Feed(Stream(old(received), Waiting(old(parser.buffer))), event.chunk);
                && received == stream.messages
                && match stream.end {
                  case Waiting(rest) =>
                    && parser.buffer == rest && closed == old(closed)
                    && stateMachine.state == old(stateMachine.state)
                    && (reading <==> stateMachine.state == Processing)
                  case Broken(error) =>
                    && !reading && stateMachine.state == Stopped
                    && closed == old(closed) + if old(stateMachine.state) != Stopped then [Some(error)] else []
                }
      ensures event.Bytes? ==>
                && old(received) <= received
                && Says(old(parser.buffer) + event.chunk,
                        Stream(received[|old(received)|..],
                               Feed(Stream(old(received), Waiting(old(parser.buffer))), event.chunk).end))
    {
      reading := false;
      match event
      case Aborted =>
      case ClosedByPeer =>
        stateMachine.HandleProcessingStopped();
        closed := closed + [None];
      case Bytes(chunk) =>
        ReadsWhatIsSaid(parser.buffer + chunk, ReadStream(parser.buffer + chunk));
        parser.Consumed(chunk);
        var failure := DeliverParsed();
        match failure {
          case Some(error) => CloseInThread(Some(error));
          case None => reading := stateMachine.state == Processing;
        }
    }

    /** The connection has read `stream` so far, and `reports` were made before. */
    ghost predicate HasRead(stream: Stream, reports: seq<Option<ParseError>>)
      reads this, parser, stateMachine
    {
      && received == stream.messages
      && (reading <==> stateMachine.state == Processing)
      && match stream.end {
        case Waiting(rest) => reading && parser.buffer == rest && closed == reports
        case Broken(error) => !reading && closed == reports + [Some(error)]
      }
    }

    /** A run of the reader over given pieces, with no other event: it stops by itself at the first error. */
    method ReadAll(chunks: seq<bytes>)
      requires HasRead(FRESH, closed)
      modifies this, parser, stateMachine
      ensures HasRead(ReadStream(Concat(chunks)), old(closed))
    {
      ghost var stream := FRESH;
      var i := 0;
      assert chunks[0..] == chunks;
      while i < |chunks| && reading
        invariant i <= |chunks| && HasRead(stream, old(closed))
        invariant FeedAll(stream, chunks[i..]) == FeedAll(FRESH, chunks)
      {
        assert chunks[i..][1..] == chunks[i + 1..];
        stream := Feed(stream, chunks[i]);
        ProcessReadBytes(Bytes(chunks[i]));
        i := i + 1;
      }
      BrokenStaysBroken(stream, chunks[i..]);
      FedIsReadAtOnce(chunks);
    }
  }

  lemma BrokenStaysBroken(stream: Stream, chunks: seq<bytes>)
    ensures stream.end.Broken? || chunks == [] ==> FeedAll(stream, chunks) == stream
    decreases |chunks|
  {
  }

  /** Reading on after a pause is reading the whole: nothing is lost, repeated or decided differently. */
  lemma {:induction false} Resume(s: bytes, t: bytes)
    ensures Feed(ReadStream(s), t) == ReadStream(s + t)
    decreases |s|
  {
    match ParseOne(s)
    case Nothing =>
    case Wrong(_) => ParseOneStable(s, t);
    case Took(m, n) =>
      ParseOneStable(s, t);
      assert (s + t)[n..] == s[n..] + t;
      Resume(s[n..], t);
      FeedAfter(m, ReadStream(s[n..]), t);
  }

  lemma FeedAfter(m: Message, stream: Stream, t: bytes)
    ensures var fed := Feed(stream, t);
            Feed(Stream([m] + stream.messages, stream.end), t) == Stream([m] + fed.messages, fed.end)
  {
    if stream.end.Waiting? {
      var more := ReadStream(stream.end.rest + t);
      assert [m] + (stream.messages + more.messages) == ([m] + stream.messages) + more.messages;
    }
  }

  lemma {:induction false} FedAfter(s: bytes, chunks: seq<bytes>)
    ensures FeedAll(ReadStream(s), chunks) == ReadStream(s + Concat(chunks))
    decreases |chunks|
  {
    if chunks == [] {
      assert s + [] == s;
    } else {
      Resume(s, chunks[0]);
      FedAfter(s + chunks[0], chunks[1..]);
      assert s + chunks[0] + Concat(chunks[1..]) == s + Concat(chunks);
    }
  }

  /** However it is cut, a byte stream is understood as if it came in one read. */
  lemma FedIsReadAtOnce(chunks: seq<bytes>)
    ensures FeedAll(FRESH, chunks) == ReadStream(Concat(chunks))
  {
    FedAfter([], chunks);
    assert [] + Concat(chunks) == Concat(chunks);
  }

  /** How the stream is cut into reads makes no difference, to the messages or to the first error. */
  lemma CuttingIsIrrelevant(chunks: seq<bytes>, chunks': seq<bytes>)
    requires Concat(chunks) == Concat(chunks')
    ensures FeedAll(FRESH, chunks) == FeedAll(FRESH, chunks')
  {
    FedIsReadAtOnce(chunks);
    FedIsReadAtOnce(chunks');
  }

  ghost predicate AllValid(ms: seq<Message>) {
    forall i :: 0 <= i < |ms| ==> ValidMessage(ms[i])
  }

  ghost function SerializeAll(ms: seq<Message>): bytes
    requires AllValid(ms)
  {
    if ms == [] then [] else Serialize(ms[0]) + SerializeAll(ms[1..])
  }

  function AllAsReceived(ms: seq<Message>): (r: seq<Message>)
    ensures |r| == |ms| && forall i :: 0 <= i < |ms| ==> r[i] == AsReceived(ms[i])
  {
    if ms == [] then [] else [AsReceived(ms[0])] + AllAsReceived(ms[1..])
  }

  lemma ReadFirst(m: Message, later: bytes)
    requires ValidMessage(m)
    ensures ReadStream(Serialize(m) + later) == Prepend([AsReceived(m)], ReadStream(later))
  {
    ParseOneSerialized(m, later);
    assert (Serialize(m) + later)[|Serialize(m)|..] == later;
  }

  lemma {:induction false} ReadSerialized(ms: seq<Message>, tail: bytes)
    requires AllValid(ms)
    ensures ReadStream(SerializeAll(ms) + tail) == Prepend(AllAsReceived(ms), ReadStream(tail))
  {
    if ms == [] {
      assert SerializeAll(ms) + tail == tail;
    } else {
      var later := SerializeAll(ms[1..]) + tail;
      assert SerializeAll(ms) + tail == Serialize(ms[0]) + later;
      ReadFirst(ms[0], later);
      ReadSerialized(ms[1..], tail);
      assert AllAsReceived(ms) + ReadStream(tail).messages
        == [AsReceived(ms[0])] + (AllAsReceived(ms[1..]) + ReadStream(tail).messages);
    }
  }

  /** Serialized messages, concatenated and cut anywhere, arrive as exactly those messages in order. */
  lemma MessagesSurviveFraming(ms: seq<Message>, chunks: seq<bytes>)
    requires AllValid(ms) && Concat(chunks) == SerializeAll(ms)
    ensures FeedAll(FRESH, chunks) == Stream(AllAsReceived(ms), Waiting([]))
  {
    FedIsReadAtOnce(chunks);
    ReadSerialized(ms, []);
    assert SerializeAll(ms) + [] == SerializeAll(ms);
  }

  /** No error so far, and nothing but the beginning of `ms`. */
  ghost predicate Begins(stream: Stream, ms: seq<Message>) {
    stream.end.Waiting? && stream.messages <= ms
  }

  lemma BeginsFirst(m: Message, n: nat, ms: seq<Message>)
    requires ValidMessage(m) && n < |Serialize(m)|
    ensures Begins(ReadStream(Serialize(m)[..n]), ms)
  {
    ParseOneTruncated(m, n);
  }

  lemma BeginsLater(m: Message, later: bytes, ms: seq<Message>)
    requires ValidMessage(m) && Begins(ReadStream(later), ms)
    ensures Begins(ReadStream(Serialize(m) + later), [AsReceived(m)] + ms)
  {
    ReadFirst(m, later);
  }

  lemma BeginsCut(m: Message, rest: bytes, n: nat, ms: seq<Message>)
    requires ValidMessage(m) && n <= |Serialize(m)| + |rest|
    requires n >= |Serialize(m)| ==> Begins(ReadStream(rest[..n - |Serialize(m)|]), ms)
    ensures Begins(ReadStream((Serialize(m) + rest)[..n]), [AsReceived(m)] + ms)
  {
    var first := Serialize(m);
    if n < |first| {
      assert (first + rest)[..n] == first[..n];
      BeginsFirst(m, n, [AsReceived(m)] + ms);
    } else {
      assert (first + rest)[..n] == first + rest[..n - |first|];
      BeginsLater(m, rest[..n - |first|], ms);
    }
  }

  lemma NothingRead()
    ensures ReadStream([]) == FRESH
  {
  }

  lemma FirstOfAll(ms: seq<Message>)
    requires AllValid(ms) && ms != []
    ensures AllValid(ms[1..]) && SerializeAll(ms) == Serialize(ms[0]) + SerializeAll(ms[1..])
    ensures AllAsReceived(ms) == [AsReceived(ms[0])] + AllAsReceived(ms[1..])
  {
  }

  /** When the stream stops early, what has arrived is an unbroken beginning of what was sent. */
  lemma {:induction false} TruncatedStream(ms: seq<Message>, n: nat)
    requires AllValid(ms) && n <= |SerializeAll(ms)|
    ensures Begins(ReadStream(SerializeAll(ms)[..n]), AllAsReceived(ms))
  {
    if ms == [] {
      NothingRead();
    } else {
      FirstOfAll(ms);
      var k := |Serialize(ms[0])|;
      if n >= k {
        TruncatedStream(ms[1..], n - k);
      }
      BeginsCut(ms[0], SerializeAll(ms[1..]), n, AllAsReceived(ms[1..]));
    }
  }
}
