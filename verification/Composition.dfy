/**
  The whole system at work: the client's list of calls and send queue, the bytes of each connection, the reader at
  either end, the server's pending requests and its response queue. A sender's step puts the bytes in its hand on the
  connection, a reader takes them off in pieces of any size. Seen as messages, each step is one of `Rpc` or none at all.
 */
module Composition {
  import opened Wrappers
  import opened Bytes
  import opened Msgpack
  import opened Messages
  import opened Framing
  import opened Methods
  import opened Links
  import CallLists

  /** The last line is history: the request of each call, everything pushed, everything executed. */
  datatype Full = Full(
    calls: CallLists.Calls, client: C.State, links: seq<Link>,
    requests: map<nat, Message>, outbox: seq<Message>, executed: seq<Rpc.Execution>)

  datatype Event =
    | Draw
    | Call(g: nat, name: bytes, params: seq<Value>)
    | Notify(name: bytes, params: seq<Value>)
    | Client(c: C.Event, threads: nat)
    | ReadUp(link: nat, n: nat)
    | Execute(link: nat, position: nat, methods: MethodDict, thread: nat)
    | Server(link: nat, s: S.Event)
    | ReadDown(link: nat, n: nat)
    | Handle(link: nat)
    | Expire(id: nat)

  predicate Transmits(c: C.State, e: C.Event) {
    e == C.SendNext && C.WillTransmit(c) && c.processing
  }

  /** The execution of a delivered request. */
  function ExecutionOf(l: Link, link: nat, position: nat, methods: MethodDict): Rpc.Execution
    requires position < |l.up.stream.messages| && l.up.stream.messages[position].Request?
  {
    var request := l.up.stream.messages[position];
    Rpc.Execution(link, position, request, methods, Answer(methods, request.name, request.params))
  }

  /** The push of its response to the server's queue. */
  function PushReply(l: Link, link: nat, position: nat, methods: MethodDict, thread: nat): S.Event
    requires position < |l.up.stream.messages| && l.up.stream.messages[position].Request?
  {
    S.Push(thread, Wire(Rpc.ReplyOf(ExecutionOf(l, link, position, methods))))
  }

  /** Nothing here speaks of messages that were sent: a reader sees bytes, the executor sees what was read. */
  ghost predicate Enabled(f: Full, e: Event) {
    match e
    case Draw => true
    case Call(g, name, params) => g in f.calls.drawn && |name| <= MAX_TEXT && |params| < U32 && AllPackable(params)
    case Notify(name, params) => |name| <= MAX_TEXT && |params| < U32 && AllPackable(params)
    case Client(c, _) => !c.Push? && C.Enabled(f.client, c)
    case ReadUp(link, n) => link < |f.links| && n <= |f.links[link].up.coming|
    case Execute(link, p, methods, thread) =>
      && link < |f.links| && p in f.links[link].waiting && IsRequestAt(f.links[link].up.stream.messages, p)
      && SaneMethods(methods)
      && S.Enabled(f.links[link].server, PushReply(f.links[link], link, p, methods, thread))
    case Server(link, s) => link < |f.links| && !s.Push? && S.Enabled(f.links[link].server, s)
    case ReadDown(link, n) => link < |f.links| && n <= |f.links[link].down.coming|
    case Handle(link) => link < |f.links| && f.links[link].handled < |f.links[link].down.stream.messages|
    case Expire(_) => true
  }

  function Pushed(f: Full, m: Message): Full {
    f.(client := C.After(f.client, C.Push(Wire(m))), outbox := f.outbox + [m])
  }

  function NewServer(threads: nat): (s: S.State)
    ensures S.Initial(s)
  {
    S.State([], false, None, seq(threads, _ => S.Elsewhere), [], true, [], [], [], [], [])
  }

  function NewLink(threads: nat): Link {
    Link(EMPTY_PIPE, {}, NewServer(threads), EMPTY_PIPE, 0)
  }

  function AfterClient(f: Full, c: C.Event, threads: nat): Full
    requires C.Enabled(f.client, c)
  {
    f.(client := C.After(f.client, c),
       links :=
         if c == C.Connect then f.links + [NewLink(threads)]
         else if Transmits(f.client, c) && f.client.connection.value < |f.links| then
           var k := f.client.connection.value;
           f.links[k := f.links[k].(up := Put(f.links[k].up, f.client.queue[0]))]
         else f.links)
  }

  function AfterExecute(f: Full, link: nat, p: nat, methods: MethodDict, thread: nat): Full
    requires link < |f.links| && p < |f.links[link].up.stream.messages| && f.links[link].up.stream.messages[p].Request?
    requires S.Enabled(f.links[link].server, PushReply(f.links[link], link, p, methods, thread))
  {
    var l, x := f.links[link], ExecutionOf(f.links[link], link, p, methods);
    f.(executed := f.executed + [x],
       links := f.links[link := l.(
         waiting := l.waiting - {p}, server := S.After(l.server, PushReply(l, link, p, methods, thread)))])
  }

  /** The client ignores what is not a response. */
  function CallsAfterHandle(calls: CallLists.Calls, m: Message): CallLists.Calls {
    if m.Response? then CallLists.After(calls, CallLists.Respond(m.id, m.result)) else calls
  }

  ghost function After(f: Full, e: Event): Full
    requires Enabled(f, e)
  {
    match e
    case Draw => f.(calls := CallLists.After(f.calls, CallLists.Draw))
    case Call(g, name, params) =>
      var calls := CallLists.After(f.calls, CallLists.Register(g));
      if CallLists.Duplicate(f.calls, g) then f.(calls := calls)
      else
        var request := Request(CallLists.IdOf(f.calls, g), name, params);
        Pushed(f, request).(calls := calls, requests := f.requests[g := request])
    case Notify(name, params) => Pushed(f, Notification(name, params))
    case Client(c, threads) => AfterClient(f, c, threads)
    case ReadUp(link, n) => f.(links := f.links[link := AfterReadUp(f.links[link], n)])
    case Execute(link, p, methods, thread) => AfterExecute(f, link, p, methods, thread)
    case Server(link, s) =>
      var l := f.links[link];
      f.(links := f.links[link := l.(server := S.After(l.server, s), down := Put(l.down, Posted(l.server, s)))])
    case ReadDown(link, n) => f.(links := f.links[link := f.links[link].(down := Take(f.links[link].down, n))])
    case Handle(link) =>
      var l := f.links[link];
      f.(calls := CallsAfterHandle(f.calls, l.down.stream.messages[l.handled]),
         links := f.links[link := l.(handled := l.handled + 1)])
    case Expire(id) => f.(calls := CallLists.After(f.calls, CallLists.Expire(id)))
  }

  ghost predicate Step(f: Full, e: Event, f': Full) {
    Enabled(f, e) && f' == After(f, e)
  }

  ghost predicate Next(f: Full, f': Full) {
    exists e :: Step(f, e, f')
  }

  ghost predicate StepAt(run: seq<Full>, i: nat)
    requires i + 1 < |run|
  {
    Next(run[i], run[i + 1])
  }

  ghost predicate Initial(f: Full) {
    CallLists.Initial(f.calls) && f == Full(f.calls, C.INITIAL, [], map[], [], [])
  }

  ghost predicate IsRun(run: seq<Full>) {
    && run != [] && Initial(run[0])
    && forall i: nat :: i + 1 < |run| ==> StepAt(run, i)
  }

  // ----- The system seen as messages -----

  function First<T>(s: seq<T>, n: nat): seq<T> {
    if n <= |s| then s[..n] else s
  }

  /** The messages transmitted on a connection, and the replies handed over on it. */
  function AbsLink(
    c: nat, l: Link, outbox: seq<Message>, log: seq<C.Transmission>, executed: seq<Rpc.Execution>): Rpc.Link
  {
    Rpc.Link(Pick(outbox, SentOn(log, c)), First(RepliesOn(executed, c), |l.server.handed|))
  }

  function AbsLinks(f: Full): (r: seq<Rpc.Link>)
    ensures |r| == |f.links|
    ensures forall c :: 0 <= c < |r| ==> r[c] == AbsLink(c, f.links[c], f.outbox, f.client.log, f.executed)
  {
    seq(|f.links|, c requires 0 <= c < |f.links| => AbsLink(c, f.links[c], f.outbox, f.client.log, f.executed))
  }

  function Abs(f: Full): Rpc.State {
    Rpc.State(f.calls, f.requests, f.outbox, AbsLinks(f), f.executed)
  }

  /** The step of `Rpc` that a step is, if any. */
  ghost function RpcEvent(f: Full, e: Event): Option<Rpc.Event>
    requires Enabled(f, e)
  {
    match e
    case Draw => Some(Rpc.Draw)
    case Call(g, name, params) => Some(Rpc.Call(g, name, params))
    case Notify(name, params) => Some(Rpc.Notify(name, params))
    case Client(c, _) =>
      if c == C.Connect then Some(Rpc.Connect)
      else if Transmits(f.client, c) then Some(Rpc.Transmit(f.client.connection.value, |f.client.completed|))
      else None
    case Execute(link, p, methods, _) =>
      Some(Rpc.Execute(link, |f.links[link].up.read|, p, f.links[link].up.stream.messages[p], methods))
    case Server(link, s) =>
      if s.Post? && |f.links[link].server.handed| < |RepliesOn(f.executed, link)| then
        Some(Rpc.Reply(NthOn(f.executed, link, |f.links[link].server.handed|)))
      else None
    case Handle(link) =>
      var l := f.links[link];
      var m := l.down.stream.messages[l.handled];
      if m.Response? then Some(Rpc.Receive(link, |l.down.read|, l.handled, m)) else None
    case Expire(id) => Some(Rpc.Expire(id))
    case _ => None
  }

  // ----- The invariant -----

  ghost predicate LinkOk(
    c: nat, l: Link, outbox: seq<Message>, log: seq<C.Transmission>, executed: seq<Rpc.Execution>)
  {
    && Uplink(c, AllBytes(l.up), outbox, log)
    && InStep(l.up)
    && Tasks(c, l.up.stream.messages, l.waiting, executed)
    && Downlink(l.server, AllBytes(l.down), RepliesOn(executed, c))
    && InStep(l.down)
    && l.handled <= |l.down.stream.messages|
  }

  ghost predicate LinkAt(f: Full, c: nat)
    requires c < |f.links|
  {
    LinkOk(c, f.links[c], f.outbox, f.client.log, f.executed)
  }

  ghost predicate LinksOk(f: Full) {
    forall c: nat :: c < |f.links| ==> LinkAt(f, c)
  }

  predicate ExecutedOnLinks(f: Full) {
    forall k :: 0 <= k < |f.executed| ==> f.executed[k].link < |f.links|
  }

  ghost predicate Coupled(f: Full) {
    && f.client.nextConnection == |f.links|
    && Encodes(f.client.pushed, f.outbox)
    && ExecutedOnLinks(f) && LinksOk(f)
  }

  ghost predicate Inv(f: Full) {
    Rpc.Inv(Abs(f)) && C.Inv(f.client) && Coupled(f)
  }

  lemma OutboxValid(f: Full)
    requires Rpc.Inv(Abs(f))
    ensures AllValid(f.outbox)
  {
    forall i | 0 <= i < |f.outbox|
      ensures ValidMessage(f.outbox[i])
    {
      assert Rpc.Sent(Abs(f), Abs(f).outbox[i]);
    }
  }

  lemma RepliesValid(s: Rpc.State, c: nat)
    requires Rpc.ExecutedInv(s)
    ensures AllValid(RepliesOn(s.executed, c))
  {
    forall n | 0 <= n < |RepliesOn(s.executed, c)|
      ensures ValidMessage(RepliesOn(s.executed, c)[n])
    {
      Rpc.ReplyIsValid(s, NthOn(s.executed, c, n));
    }
  }

  /** What the client is about to transmit are the bytes of the message pushed next. */
  lemma TransmittedIsPushed(f: Full)
    requires C.Inv(f.client) && Coupled(f) && C.WillTransmit(f.client)
    ensures f.client.connection.value < |f.links| && |f.client.completed| < |f.outbox|
    ensures f.client.queue[0] == Wire(f.outbox[|f.client.completed|])
  {
    assert (f.client.completed + f.client.queue)[|f.client.completed|] == f.client.queue[0];
  }

  // ----- The coupling is kept -----

  lemma SameLinkAt(f: Full, f': Full, c: nat)
    requires c < |f.links| && c < |f'.links| && LinkAt(f, c) && f'.links[c] == f.links[c]
    requires f'.outbox == f.outbox && f'.client.log == f.client.log && f'.executed == f.executed
    ensures LinkAt(f', c)
  {
  }

  lemma PushKeepsLinks(f: Full, m: Message)
    requires LinksOk(f)
    ensures LinksOk(Pushed(f, m))
  {
    var f' := Pushed(f, m);
    forall c: nat | c < |f'.links|
      ensures LinkAt(f', c)
    {
      assert LinkAt(f, c);
      UplinkPushed(c, AllBytes(f.links[c].up), f.outbox, f.client.log, m);
    }
  }

  lemma PushKeepsCoupling(f: Full, m: Message)
    requires Coupled(f)
    ensures Coupled(Pushed(f, m))
  {
    PushKeepsLinks(f, m);
    EncodesAppend(f.client.pushed, f.outbox, m);
  }

  /** Coupling speaks of neither calls nor requests. */
  lemma CallsApart(f: Full, calls: CallLists.Calls, requests: map<nat, Message>)
    requires Coupled(f)
    ensures Coupled(f.(calls := calls, requests := requests))
  {
    var f' := f.(calls := calls, requests := requests);
    forall c: nat | c < |f'.links|
      ensures LinkAt(f', c)
    {
      SameLinkAt(f, f', c);
    }
  }

  lemma NewServerInv(threads: nat)
    ensures S.Inv(NewServer(threads))
  {
    assert S.HandOf(NewServer(threads), S.Nobody);
  }

  lemma NothingLogged(client: C.State)
    requires C.Inv(client)
    ensures SentOn(client.log, client.nextConnection) == []
  {
    var c, log := client.nextConnection, client.log;
    forall a | 0 <= a < |log|
      ensures log[a].connection != c
    {
      if a < |log| - 1 {
        C.LogOrder(client, a, |log| - 1);
      }
    }
    NothingSentOn(log, c);
  }

  lemma NoTasks(c: nat, executed: seq<Rpc.Execution>)
    requires forall k :: 0 <= k < |executed| ==> executed[k].link < c
    ensures Tasks(c, [], {}, executed)
  {
  }

  lemma NewLinkOk(c: nat, threads: nat, outbox: seq<Message>, log: seq<C.Transmission>, executed: seq<Rpc.Execution>)
    requires SentOn(log, c) == [] && forall k :: 0 <= k < |executed| ==> executed[k].link < c
    ensures LinkOk(c, NewLink(threads), outbox, log, executed)
  {
    NoRepliesOn(executed, c);
    NoTasks(c, executed);
    UplinkFresh(c, outbox, log);
    NothingRead();
    NewServerInv(threads);
  }

  lemma ConnectEffect(f: Full, threads: nat)
    requires C.Enabled(f.client, C.Connect)
    ensures var f' := AfterClient(f, C.Connect, threads);
            && f' == f.(client := f'.client, links := f.links + [NewLink(threads)])
            && f'.client.log == f.client.log && f'.client.pushed == f.client.pushed
            && f'.client.nextConnection == f.client.nextConnection + 1
  {
  }

  lemma ConnectKeepsLinkAt(f: Full, threads: nat, c: nat)
    requires C.Inv(f.client) && f.client.nextConnection == |f.links| && ExecutedOnLinks(f)
    requires C.Enabled(f.client, C.Connect) && c <= |f.links| && (c < |f.links| ==> LinkAt(f, c))
    ensures c < |AfterClient(f, C.Connect, threads).links| && LinkAt(AfterClient(f, C.Connect, threads), c)
  {
    ConnectEffect(f, threads);
    if c < |f.links| {
      SameLinkAt(f, AfterClient(f, C.Connect, threads), c);
    } else {
      NothingLogged(f.client);
      NewLinkOk(c, threads, f.outbox, f.client.log, f.executed);
    }
  }

  lemma ConnectKeepsCoupling(f: Full, threads: nat)
    requires C.Inv(f.client) && Coupled(f) && C.Enabled(f.client, C.Connect)
    ensures Coupled(AfterClient(f, C.Connect, threads))
  {
    var f' := AfterClient(f, C.Connect, threads);
    ConnectEffect(f, threads);
    forall c: nat | c < |f'.links|
      ensures LinkAt(f', c)
    {
      ConnectKeepsLinkAt(f, threads, c);
    }
  }

  lemma QuietKeepsCoupling(f: Full, e: C.Event, threads: nat)
    requires Coupled(f) && C.Enabled(f.client, e) && !e.Push? && e != C.Connect && !Transmits(f.client, e)
    ensures Coupled(AfterClient(f, e, threads))
    ensures AfterClient(f, e, threads).client.log == f.client.log && AfterClient(f, e, threads).links == f.links
  {
    var f' := AfterClient(f, e, threads);
    assert f'.client.log == f.client.log && f'.client.pushed == f.client.pushed;
    forall c: nat | c < |f'.links|
      ensures LinkAt(f', c)
    {
      SameLinkAt(f, f', c);
    }
  }

  /** The effect of a transmission: the bytes and the log of one connection grow by one message. */
  lemma TransmitEffect(f: Full, threads: nat)
    requires C.Inv(f.client) && Coupled(f) && C.Enabled(f.client, C.SendNext) && Transmits(f.client, C.SendNext)
    ensures var f', c, k := AfterClient(f, C.SendNext, threads), f.client.connection.value, |f.client.completed|;
            && c < |f.links| && k < |f.outbox|
            && f'.links == f.links[c := f.links[c].(up := Put(f.links[c].up, Wire(f.outbox[k])))]
            && f'.client.log == f.client.log + [C.Transmission(c, k)]
            && f'.outbox == f.outbox && f'.executed == f.executed
            && f'.client.pushed == f.client.pushed && f'.client.nextConnection == f.client.nextConnection
  {
    TransmittedIsPushed(f);
  }

  lemma TransmitKeepsLink(
    c: nat, l: Link, outbox: seq<Message>, log: seq<C.Transmission>, executed: seq<Rpc.Execution>, k: nat)
    requires LinkOk(c, l, outbox, log, executed) && k < |outbox| && ValidMessage(outbox[k])
    requires var ix := SentOn(log, c); ix != [] ==> k == ix[|ix| - 1] + 1
    ensures LinkOk(c, l.(up := Put(l.up, Wire(outbox[k]))), outbox, log + [C.Transmission(c, k)], executed)
  {
    UplinkExtends(c, AllBytes(l.up), outbox, log, k);
    PutBytes(l.up, Wire(outbox[k]));
  }

  lemma TransmitIgnoresLink(
    c: nat, l: Link, outbox: seq<Message>, log: seq<C.Transmission>, executed: seq<Rpc.Execution>, t: C.Transmission)
    requires LinkOk(c, l, outbox, log, executed) && t.connection != c
    requires log != [] ==> log[|log| - 1].connection <= t.connection
    ensures LinkOk(c, l, outbox, log + [t], executed)
  {
    UplinkIgnores(c, AllBytes(l.up), outbox, log, t);
  }

  lemma TransmitKeepsLinks(f: Full, f': Full, d: nat, k: nat)
    requires LinksOk(f) && d < |f.links| && k < |f.outbox| && ValidMessage(f.outbox[k])
    requires var ix := SentOn(f.client.log, d); ix != [] ==> k == ix[|ix| - 1] + 1
    requires f.client.log != [] ==> f.client.log[|f.client.log| - 1].connection <= d
    requires f'.links == f.links[d := f.links[d].(up := Put(f.links[d].up, Wire(f.outbox[k])))]
    requires f'.client.log == f.client.log + [C.Transmission(d, k)]
    requires f'.outbox == f.outbox && f'.executed == f.executed
    ensures LinksOk(f')
  {
    forall c: nat | c < |f'.links|
      ensures LinkAt(f', c)
    {
      assert LinkAt(f, c);
      if c == d {
        TransmitKeepsLink(c, f.links[c], f.outbox, f.client.log, f.executed, k);
      } else {
        TransmitIgnoresLink(c, f.links[c], f.outbox, f.client.log, f.executed, C.Transmission(d, k));
      }
    }
  }

  lemma LastSentOn(f: Full, c: nat)
    requires c < |f.links| && LinkAt(f, c)
    ensures var ix := SentOn(f.client.log, c); ix != [] ==> LastOn(f.client.log, c, ix[|ix| - 1])
  {
  }

  lemma TransmitIsNext(f: Full)
    requires C.Inv(f.client) && LinksOk(f) && Transmits(f.client, C.SendNext) && f.client.connection.value < |f.links|
    ensures var d, k := f.client.connection.value, |f.client.completed|;
            && (var ix := SentOn(f.client.log, d); ix != [] ==> k == ix[|ix| - 1] + 1)
            && (f.client.log != [] ==> f.client.log[|f.client.log| - 1].connection <= d)
  {
    LastSentOn(f, f.client.connection.value);
    TransmitContinues(f.client, SentOn(f.client.log, f.client.connection.value));
  }

  lemma TransmitKeepsCoupling(f: Full, threads: nat)
    requires Inv(f) && C.Enabled(f.client, C.SendNext) && Transmits(f.client, C.SendNext)
    ensures Coupled(AfterClient(f, C.SendNext, threads))
  {
    TransmitEffect(f, threads);
    TransmitIsNext(f);
    OutboxValid(f);
    TransmitKeepsLinks(f, AfterClient(f, C.SendNext, threads), f.client.connection.value, |f.client.completed|);
  }

  lemma OneLinkAt(f: Full, link: nat, l: Link, c: nat)
    requires link < |f.links| && c < |f.links|
    requires if c == link then LinkOk(link, l, f.outbox, f.client.log, f.executed) else LinkAt(f, c)
    ensures LinkAt(f.(links := f.links[link := l]), c)
  {
    if c != link {
      SameLinkAt(f, f.(links := f.links[link := l]), c);
    }
  }

  /** A step that changes one connection only. */
  lemma OneLinkKeepsCoupling(f: Full, link: nat, l: Link)
    requires Coupled(f) && link < |f.links| && LinkOk(link, l, f.outbox, f.client.log, f.executed)
    ensures Coupled(f.(links := f.links[link := l]))
  {
    var f' := f.(links := f.links[link := l]);
    forall c: nat | c < |f'.links|
      ensures LinkAt(f', c)
    {
      OneLinkAt(f, link, l, c);
    }
  }

  lemma ReadUpKeepsLink(
    c: nat, l: Link, n: nat, outbox: seq<Message>, log: seq<C.Transmission>, executed: seq<Rpc.Execution>)
    requires LinkOk(c, l, outbox, log, executed) && n <= |l.up.coming|
    ensures LinkOk(c, AfterReadUp(l, n), outbox, log, executed)
  {
    TakeBytes(l.up, n);
    TakeInStep(l.up, n);
    TasksReadUp(c, l, n, executed);
  }

  lemma ReadDownKeepsLink(
    c: nat, l: Link, n: nat, outbox: seq<Message>, log: seq<C.Transmission>, executed: seq<Rpc.Execution>)
    requires LinkOk(c, l, outbox, log, executed) && n <= |l.down.coming|
    ensures LinkOk(c, l.(down := Take(l.down, n)), outbox, log, executed)
  {
    TakeBytes(l.down, n);
    TakeInStep(l.down, n);
    TakeDelivers(l.down, n);
  }

  lemma ReadKeepsCoupling(f: Full, e: Event)
    requires Coupled(f) && Enabled(f, e) && (e.ReadUp? || e.ReadDown?)
    ensures Coupled(After(f, e))
  {
    var l := f.links[e.link];
    assert LinkAt(f, e.link);
    if e.ReadUp? {
      ReadUpKeepsLink(e.link, l, e.n, f.outbox, f.client.log, f.executed);
      OneLinkKeepsCoupling(f, e.link, AfterReadUp(l, e.n));
    } else {
      ReadDownKeepsLink(e.link, l, e.n, f.outbox, f.client.log, f.executed);
      OneLinkKeepsCoupling(f, e.link, l.(down := Take(l.down, e.n)));
    }
  }

  lemma ServerKeepsCoupling(f: Full, link: nat, s: S.Event)
    requires Coupled(f) && Enabled(f, Server(link, s))
    ensures Coupled(After(f, Server(link, s)))
  {
    var l := f.links[link];
    assert LinkAt(f, link);
    DownlinkSends(l.server, AllBytes(l.down), RepliesOn(f.executed, link), s);
    PutBytes(l.down, Posted(l.server, s));
    OneLinkKeepsCoupling(f, link, l.(server := S.After(l.server, s), down := Put(l.down, Posted(l.server, s))));
  }

  lemma HandleKeepsLink(
    c: nat, l: Link, outbox: seq<Message>, log: seq<C.Transmission>, executed: seq<Rpc.Execution>)
    requires LinkOk(c, l, outbox, log, executed) && l.handled < |l.down.stream.messages|
    ensures LinkOk(c, l.(handled := l.handled + 1), outbox, log, executed)
  {
  }

  lemma HandledKeepsCoupling(f: Full, link: nat)
    requires Coupled(f) && link < |f.links| && f.links[link].handled < |f.links[link].down.stream.messages|
    ensures Coupled(f.(links := f.links[link := f.links[link].(handled := f.links[link].handled + 1)]))
  {
    assert LinkAt(f, link);
    HandleKeepsLink(link, f.links[link], f.outbox, f.client.log, f.executed);
    OneLinkKeepsCoupling(f, link, f.links[link].(handled := f.links[link].handled + 1));
  }

  lemma HandleKeepsCoupling(f: Full, link: nat)
    requires Coupled(f) && Enabled(f, Handle(link))
    ensures Coupled(After(f, Handle(link)))
  {
    var l := f.links[link];
    HandledKeepsCoupling(f, link);
    CallsApart(f.(links := f.links[link := l.(handled := l.handled + 1)]),
               CallsAfterHandle(f.calls, l.down.stream.messages[l.handled]), f.requests);
  }

  lemma ExecutedElsewhere(
    c: nat, l: Link, outbox: seq<Message>, log: seq<C.Transmission>, executed: seq<Rpc.Execution>, x: Rpc.Execution)
    requires LinkOk(c, l, outbox, log, executed) && x.link != c
    ensures LinkOk(c, l, outbox, log, executed + [x])
  {
    RepliesGrow(executed, x, c);
    TasksElsewhere(c, l.up.stream.messages, l.waiting, executed, x);
  }

  lemma ExecutedHere(c: nat, l: Link, outbox: seq<Message>, log: seq<C.Transmission>, executed: seq<Rpc.Execution>,
                     p: nat, methods: MethodDict, thread: nat)
    requires LinkOk(c, l, outbox, log, executed) && p in l.waiting && IsRequestAt(l.up.stream.messages, p)
    requires S.Enabled(l.server, PushReply(l, c, p, methods, thread))
    ensures var x := ExecutionOf(l, c, p, methods);
            var server := S.After(l.server, PushReply(l, c, p, methods, thread));
            LinkOk(c, l.(waiting := l.waiting - {p}, server := server), outbox, log, executed + [x])
  {
    var x := ExecutionOf(l, c, p, methods);
    RepliesGrow(executed, x, c);
    TasksRun(c, l.up.stream.messages, l.waiting, executed, x);
    DownlinkReplies(l.server, AllBytes(l.down), RepliesOn(executed, c), thread, Rpc.ReplyOf(x));
  }

  lemma ExecuteKeepsCoupling(f: Full, link: nat, p: nat, methods: MethodDict, thread: nat)
    requires Coupled(f) && Enabled(f, Execute(link, p, methods, thread))
    ensures Coupled(AfterExecute(f, link, p, methods, thread))
  {
    var f' := AfterExecute(f, link, p, methods, thread);
    forall c: nat | c < |f'.links|
      ensures LinkAt(f', c)
    {
      assert LinkAt(f, c);
      if c == link {
        ExecutedHere(c, f.links[c], f.outbox, f.client.log, f.executed, p, methods, thread);
      } else {
        var x := ExecutionOf(f.links[link], link, p, methods);
        ExecutedElsewhere(c, f.links[c], f.outbox, f.client.log, f.executed, x);
      }
    }
  }

  lemma ClientKeepsCoupling(f: Full, c: C.Event, threads: nat)
    requires Inv(f) && C.Enabled(f.client, c) && !c.Push?
    ensures Coupled(AfterClient(f, c, threads))
  {
    if c == C.Connect {
      ConnectKeepsCoupling(f, threads);
    } else if Transmits(f.client, c) {
      TransmitKeepsCoupling(f, threads);
    } else {
      QuietKeepsCoupling(f, c, threads);
    }
  }

  lemma CallKeepsCoupling(f: Full, e: Event)
    requires Coupled(f) && Enabled(f, e) && (e.Call? || e.Notify?)
    ensures Coupled(After(f, e))
  {
    if e.Notify? {
      PushKeepsCoupling(f, Notification(e.name, e.params));
    } else if CallLists.Duplicate(f.calls, e.g) {
      CallsApart(f, After(f, e).calls, f.requests);
    } else {
      var request := Request(CallLists.IdOf(f.calls, e.g), e.name, e.params);
      PushKeepsCoupling(f, request);
      CallsApart(Pushed(f, request), After(f, e).calls, f.requests[e.g := request]);
    }
  }

  lemma CoupledStep(f: Full, e: Event)
    requires Inv(f) && Enabled(f, e)
    ensures Coupled(After(f, e))
  {
    match e
    case Draw => CallsApart(f, After(f, e).calls, f.requests);
    case Call(_, _, _) => CallKeepsCoupling(f, e);
    case Notify(_, _) => CallKeepsCoupling(f, e);
    case Client(c, threads) => ClientKeepsCoupling(f, c, threads);
    case ReadUp(_, _) => ReadKeepsCoupling(f, e);
    case Execute(link, p, methods, thread) => ExecuteKeepsCoupling(f, link, p, methods, thread);
    case Server(link, s) => ServerKeepsCoupling(f, link, s);
    case ReadDown(_, _) => ReadKeepsCoupling(f, e);
    case Handle(link) => HandleKeepsCoupling(f, link);
    case Expire(_) => CallsApart(f, After(f, e).calls, f.requests);
  }

  lemma ClientStep(f: Full, e: Event)
    requires C.Inv(f.client) && Enabled(f, e)
    ensures C.Inv(After(f, e).client)
  {
    match e
    case Call(g, name, params) => C.InvStep(f.client, C.Push(Wire(Request(CallLists.IdOf(f.calls, g), name, params))));
    case Notify(name, params) => C.InvStep(f.client, C.Push(Wire(Notification(name, params))));
    case Client(c, threads) => C.InvStep(f.client, c);
    case _ =>
  }

  // ----- Every step is a step of `Rpc`, or none -----

  ghost predicate Refines(f: Full, e: Event)
    requires Enabled(f, e)
  {
    match RpcEvent(f, e)
    case None => Abs(After(f, e)) == Abs(f)
    case Some(r) => Rpc.Enabled(Abs(f), r) && Abs(After(f, e)) == Rpc.After(Abs(f), r)
  }

  lemma NothingAdded<T>(s: seq<T>)
    ensures s + [] == s
  {
  }

  /** The links look the same as messages. */
  lemma SameAbsLinks(f: Full, f': Full)
    requires |f'.links| == |f.links|
    requires forall c :: 0 <= c < |f.links| ==>
               AbsLink(c, f'.links[c], f'.outbox, f'.client.log, f'.executed)
               == AbsLink(c, f.links[c], f.outbox, f.client.log, f.executed)
    ensures AbsLinks(f') == AbsLinks(f)
  {
  }

  lemma PushedSameLinks(f: Full, m: Message)
    requires LinksOk(f)
    ensures AbsLinks(Pushed(f, m)) == AbsLinks(f)
  {
    forall c: nat | c < |f.links|
      ensures Pick(f.outbox + [m], SentOn(f.client.log, c)) == Pick(f.outbox, SentOn(f.client.log, c))
    {
      assert LinkAt(f, c);
      PickGrows(f.outbox, m, SentOn(f.client.log, c));
    }
    SameAbsLinks(f, Pushed(f, m));
  }

  lemma CallRefines(f: Full, e: Event)
    requires Coupled(f) && Enabled(f, e) && (e.Call? || e.Notify? || e.Draw? || e.Expire?)
    ensures Refines(f, e)
  {
    NothingAdded(f.executed);
    NothingAdded(f.outbox);
    if e.Notify? {
      PushedSameLinks(f, Notification(e.name, e.params));
    } else if e.Call? && !CallLists.Duplicate(f.calls, e.g) {
      PushedSameLinks(f, Request(CallLists.IdOf(f.calls, e.g), e.name, e.params));
    }
    assert AbsLinks(After(f, e)) == AbsLinks(f);
  }

  lemma NewAbsLink(c: nat, threads: nat, outbox: seq<Message>, log: seq<C.Transmission>, executed: seq<Rpc.Execution>)
    requires SentOn(log, c) == [] && forall k :: 0 <= k < |executed| ==> executed[k].link < c
    ensures AbsLink(c, NewLink(threads), outbox, log, executed) == Rpc.Link([], [])
  {
    NoRepliesOn(executed, c);
  }

  lemma ConnectAbsLinks(f: Full, threads: nat)
    requires C.Inv(f.client) && f.client.nextConnection == |f.links| && ExecutedOnLinks(f)
    requires C.Enabled(f.client, C.Connect)
    ensures AbsLinks(AfterClient(f, C.Connect, threads)) == AbsLinks(f) + [Rpc.Link([], [])]
  {
    ConnectEffect(f, threads);
    NothingLogged(f.client);
    NewAbsLink(|f.links|, threads, f.outbox, f.client.log, f.executed);
  }

  lemma RpcConnect(s: Rpc.State)
    ensures Rpc.After(s, Rpc.Connect) == s.(links := s.links + [Rpc.Link([], [])])
  {
    NothingAdded(s.executed);
    NothingAdded(s.outbox);
  }

  lemma ConnectRefines(f: Full, threads: nat)
    requires C.Inv(f.client) && f.client.nextConnection == |f.links| && ExecutedOnLinks(f)
    requires C.Enabled(f.client, C.Connect)
    ensures Refines(f, Client(C.Connect, threads))
  {
    ConnectAbsLinks(f, threads);
    ConnectEffect(f, threads);
    RpcConnect(Abs(f));
  }

  lemma TransmitAbsLinks(f: Full, f': Full, d: nat, k: nat)
    requires LinksOk(f) && d < |f.links| && k < |f.outbox|
    requires f'.links == f.links[d := f.links[d].(up := Put(f.links[d].up, Wire(f.outbox[k])))]
    requires f'.client.log == f.client.log + [C.Transmission(d, k)]
    requires f'.outbox == f.outbox && f'.executed == f.executed
    ensures AbsLinks(f') == AbsLinks(f)[d := AbsLinks(f)[d].(up := AbsLinks(f)[d].up + [f.outbox[k]])]
  {
    forall c: nat | c < |f.links|
      ensures AbsLinks(f')[c] ==
                if c == d then AbsLinks(f)[d].(up := AbsLinks(f)[d].up + [f.outbox[k]]) else AbsLinks(f)[c]
    {
      SentOnMore(f.client.log, C.Transmission(d, k), c);
      if c == d {
        assert LinkAt(f, c);
        PickMore(f.outbox, SentOn(f.client.log, c), k);
      }
    }
  }

  lemma TransmitRefines(f: Full, threads: nat)
    requires C.Inv(f.client) && Coupled(f) && C.Enabled(f.client, C.SendNext) && Transmits(f.client, C.SendNext)
    ensures Refines(f, Client(C.SendNext, threads))
  {
    TransmitEffect(f, threads);
    TransmitAbsLinks(f, AfterClient(f, C.SendNext, threads), f.client.connection.value, |f.client.completed|);
    NothingAdded(f.executed);
    NothingAdded(f.outbox);
  }

  lemma ClientRefines(f: Full, c: C.Event, threads: nat)
    requires C.Inv(f.client) && Coupled(f) && C.Enabled(f.client, c) && !c.Push?
    ensures Refines(f, Client(c, threads))
  {
    if c == C.Connect {
      ConnectRefines(f, threads);
    } else if Transmits(f.client, c) {
      TransmitRefines(f, threads);
    } else {
      QuietKeepsCoupling(f, c, threads);
      SameAbsLinks(f, AfterClient(f, c, threads));
    }
  }

  lemma ReadRefines(f: Full, e: Event)
    requires Enabled(f, e) && (e.ReadUp? || e.ReadDown?)
    ensures Refines(f, e)
  {
    SameAbsLinks(f, After(f, e));
  }

  /** What was delivered has arrived: the bytes read are the first of the bytes of the messages transmitted. */
  lemma DeliveredHasArrived(f: Full, c: nat, p: nat)
    requires LinksOk(f) && c < |f.links| && p < |f.links[c].up.stream.messages|
    ensures Rpc.Arrives(AbsLinks(f)[c].up, |f.links[c].up.read|, p, f.links[c].up.stream.messages[p])
  {
    var l := f.links[c];
    assert LinkAt(f, c);
    ReaderArrives(l.up, Pick(f.outbox, SentOn(f.client.log, c)), p);
  }

  lemma UnderstoodHasArrived(f: Full, c: nat, p: nat)
    requires Rpc.Inv(Abs(f)) && LinksOk(f) && c < |f.links| && p < |f.links[c].down.stream.messages|
    ensures Rpc.Arrives(AbsLinks(f)[c].down, |f.links[c].down.read|, p, f.links[c].down.stream.messages[p])
  {
    var l, replies := f.links[c], RepliesOn(f.executed, c);
    assert LinkAt(f, c);
    RepliesValid(Abs(f), c);
    DownIsReplies(l.server, AllBytes(l.down), replies);
    ReaderArrives(l.down, replies[..|l.server.handed|], p);
  }

  lemma HandedBelow(f: Full, c: nat)
    requires LinksOk(f) && c < |f.links|
    ensures |f.links[c].server.handed| <= |RepliesOn(f.executed, c)|
  {
    assert LinkAt(f, c);
    S.HandedInOrder(f.links[c].server);
  }

  lemma ExecuteSameLinks(f: Full, f': Full, x: Rpc.Execution)
    requires LinksOk(f) && |f'.links| == |f.links| && f'.executed == f.executed + [x]
    requires f'.outbox == f.outbox && f'.client == f.client
    requires forall c :: 0 <= c < |f.links| ==> f'.links[c].server.handed == f.links[c].server.handed
    ensures AbsLinks(f') == AbsLinks(f)
  {
    forall c: nat | c < |f.links|
      ensures First(RepliesOn(f'.executed, c), |f'.links[c].server.handed|)
              == First(RepliesOn(f.executed, c), |f.links[c].server.handed|)
    {
      HandedBelow(f, c);
      RepliesGrow(f.executed, x, c);
    }
    SameAbsLinks(f, f');
  }

  lemma ExecuteRefines(f: Full, e: Event)
    requires Coupled(f) && Enabled(f, e) && e.Execute?
    ensures Refines(f, e)
  {
    DeliveredHasArrived(f, e.link, e.position);
    ExecuteSameLinks(f, After(f, e), ExecutionOf(f.links[e.link], e.link, e.position, e.methods));
    NothingAdded(f.outbox);
  }

  /** Handing a response over is the next reply, byte for byte. */
  lemma PostRefines(f: Full, link: nat, s: S.Event)
    requires Coupled(f) && Enabled(f, Server(link, s)) && s.Post?
    ensures Refines(f, Server(link, s))
  {
    var f', n, replies := After(f, Server(link, s)), |f.links[link].server.handed|, RepliesOn(f.executed, link);
    PostIsReply(f, link, s);
    assert AbsLinks(f') == AbsLinks(f)[link := AbsLinks(f)[link].(down := AbsLinks(f)[link].down + [replies[n]])];
    NothingAdded(f.executed);
    NothingAdded(f.outbox);
  }

  lemma PostIsReply(f: Full, link: nat, s: S.Event)
    requires Coupled(f) && Enabled(f, Server(link, s)) && s.Post?
    ensures var n, replies := |f.links[link].server.handed|, RepliesOn(f.executed, link);
            && n < |replies| && |S.After(f.links[link].server, s).handed| == n + 1
            && First(replies, n + 1) == First(replies, n) + [replies[n]]
  {
    ServerKeepsCoupling(f, link, s);
    HandedBelow(After(f, Server(link, s)), link);
  }

  lemma ServerRefines(f: Full, link: nat, s: S.Event)
    requires Coupled(f) && Enabled(f, Server(link, s))
    ensures Refines(f, Server(link, s))
  {
    if s.Post? {
      PostRefines(f, link, s);
    } else {
      assert S.After(f.links[link].server, s).handed == f.links[link].server.handed;
      SameAbsLinks(f, After(f, Server(link, s)));
    }
  }

  lemma HandleSameLinks(f: Full, link: nat)
    requires Enabled(f, Handle(link))
    ensures AbsLinks(After(f, Handle(link))) == AbsLinks(f)
  {
    SameAbsLinks(f, After(f, Handle(link)));
  }

  lemma ReceiveAfter(s: Rpc.State, e: Rpc.Event)
    requires e.Receive? && e.response.Response?
    ensures Rpc.After(s, e) == s.(calls := CallsAfterHandle(s.calls, e.response))
  {
    NothingAdded(s.executed);
    NothingAdded(s.outbox);
  }

  lemma HandleRefines(f: Full, link: nat)
    requires Rpc.Inv(Abs(f)) && Coupled(f) && Enabled(f, Handle(link))
    ensures Refines(f, Handle(link))
  {
    var l := f.links[link];
    HandleSameLinks(f, link);
    if l.down.stream.messages[l.handled].Response? {
      UnderstoodHasArrived(f, link, l.handled);
      ReceiveAfter(Abs(f), Rpc.Receive(link, |l.down.read|, l.handled, l.down.stream.messages[l.handled]));
    }
  }

  lemma StepRefines(f: Full, e: Event)
    requires Inv(f) && Enabled(f, e)
    ensures Refines(f, e)
  {
    match e
    case Draw => CallRefines(f, e);
    case Call(_, _, _) => CallRefines(f, e);
    case Notify(_, _) => CallRefines(f, e);
    case Client(c, threads) => ClientRefines(f, c, threads);
    case ReadUp(_, _) => ReadRefines(f, e);
    case Execute(_, _, _, _) => ExecuteRefines(f, e);
    case Server(link, s) => ServerRefines(f, link, s);
    case ReadDown(_, _) => ReadRefines(f, e);
    case Handle(link) => HandleRefines(f, link);
    case Expire(_) => CallRefines(f, e);
  }

  lemma InvStep(f: Full, e: Event)
    requires Inv(f) && Enabled(f, e)
    ensures Inv(After(f, e))
  {
    CoupledStep(f, e);
    ClientStep(f, e);
    StepRefines(f, e);
    if RpcEvent(f, e).Some? {
      Rpc.InvStep(Abs(f), RpcEvent(f, e).value);
    }
  }

  lemma NextKeepsInv(f: Full, f': Full)
    requires Inv(f) && Next(f, f')
    ensures Inv(f')
  {
    var e :| Step(f, e, f');
    InvStep(f, e);
  }

  lemma InitialAbs(f: Full)
    requires Initial(f)
    ensures Rpc.Initial(Abs(f))
  {
    assert AbsLinks(f) == [];
  }

  lemma InitialInv(f: Full)
    requires Initial(f)
    ensures Rpc.Initial(Abs(f)) && Inv(f)
  {
    InitialAbs(f);
    Rpc.InvAlways([Abs(f)], 0);
  }

  lemma {:induction false} InvAlways(run: seq<Full>, i: nat)
    requires IsRun(run) && i < |run|
    ensures Inv(run[i])
  {
    if i == 0 {
      InitialInv(run[0]);
    } else {
      InvAlways(run, i - 1);
      assert StepAt(run, i - 1);
      NextKeepsInv(run[i - 1], run[i]);
    }
  }

  // ----- What holds in every run -----

  /** Each step of the whole, seen as messages, is a step of the abstract system or leaves it as it is. */
  lemma RefinesRpc(run: seq<Full>, i: nat)
    requires IsRun(run) && i + 1 < |run|
    ensures Rpc.Initial(Abs(run[0]))
    ensures Abs(run[i + 1]) == Abs(run[i]) || Rpc.Next(Abs(run[i]), Abs(run[i + 1]))
  {
    InitialInv(run[0]);
    InvAlways(run, i);
    assert StepAt(run, i);
    NextRefines(run[i], run[i + 1]);
  }

  lemma NextRefines(f: Full, f': Full)
    requires Inv(f) && Next(f, f')
    ensures Abs(f') == Abs(f) || Rpc.Next(Abs(f), Abs(f'))
  {
    var e :| Step(f, e, f');
    StepRefines(f, e);
    if RpcEvent(f, e).Some? {
      assert Rpc.Step(Abs(f), RpcEvent(f, e).value, Abs(f'));
    }
  }

  /** No cross-talk, through senders, bytes and readers as they are. */
  lemma NoCrossTalk(run: seq<Full>, i: nat, g: nat, r: CallResult) returns (x: Rpc.Execution)
    requires IsRun(run) && i < |run| && run[i].calls.generation <= U32 && Rpc.HasResult(run[i].calls, g, r)
    ensures x in run[i].executed && g in run[i].requests && x.request == run[i].requests[g] && x.request.Request?
    ensures x.result == Answer(x.methods, x.request.name, x.request.params)
    ensures AsReceived(Response(x.request.id, x.result)).result == r
  {
    InvAlways(run, i);
    x := Rpc.OwnExecution(Abs(run[i]), g, r);
  }

  /** An execution was of the message pushed and transmitted at its position. */
  lemma ExecutedIsPushed(f: Full, k: nat)
    requires LinksOk(f) && k < |f.executed| && f.executed[k].link < |f.links|
    ensures var x := f.executed[k];
            var ix := SentOn(f.client.log, x.link);
            && Consecutive(ix, |f.outbox|)
            && x.position < |ix| && x.request == f.outbox[ix[x.position]] && x.request.Request?
  {
    var x := f.executed[k];
    var l := f.links[x.link];
    assert LinkAt(f, x.link);
    assert Ran(x, x.link, l.up.stream.messages, l.waiting);
    ReaderUnderstands(l.up, Pick(f.outbox, SentOn(f.client.log, x.link)));
  }

  /** However often a message is sent again, on one connection it is executed at most once. */
  lemma ExecutedOncePerConnection(run: seq<Full>, i: nat, k: nat, l: nat)
    requires IsRun(run) && i < |run| && k < l < |run[i].executed|
    requires run[i].executed[k].link == run[i].executed[l].link
    ensures var f, x, y := run[i], run[i].executed[k], run[i].executed[l];
            var ix := SentOn(f.client.log, x.link);
            && x.position < |ix| && y.position < |ix|
            && ix[x.position] < |f.outbox| && x.request == f.outbox[ix[x.position]]
            && ix[y.position] < |f.outbox| && y.request == f.outbox[ix[y.position]]
            && ix[x.position] != ix[y.position]
  {
    InvAlways(run, i);
    var f := run[i];
    ExecutedIsPushed(f, k);
    ExecutedIsPushed(f, l);
    DifferentPositions(f, k, l);
    var ix := SentOn(f.client.log, f.executed[k].link);
    var p, q := f.executed[k].position, f.executed[l].position;
    IndexesIncrease(ix, |f.outbox|, if p < q then p else q, if p < q then q else p);
  }

  lemma DifferentPositions(f: Full, k: nat, l: nat)
    requires LinksOk(f) && ExecutedOnLinks(f) && k < l < |f.executed| && f.executed[k].link == f.executed[l].link
    ensures f.executed[k].position != f.executed[l].position
  {
    assert LinkAt(f, f.executed[k].link);
  }

  /**
    The bytes to the client are those of the answers of the executions, in order and none missing before another; so are
    the messages the client reads.
   */
  lemma RepliesInOrder(run: seq<Full>, i: nat, c: nat)
    requires IsRun(run) && i < |run| && c < |run[i].links|
    ensures var f, l, replies := run[i], run[i].links[c], RepliesOn(run[i].executed, c);
            && |l.server.handed| <= |replies| && AllValid(replies[..|l.server.handed|])
            && AllBytes(l.down) == SerializeAll(replies[..|l.server.handed|])
            && l.server.sent + l.server.posted <= l.server.handed
            && l.down.stream.messages <= AllAsReceived(replies[..|l.server.handed|])
            && (l.down.coming == [] ==> l.down.stream.messages == AllAsReceived(replies[..|l.server.handed|]))
  {
    InvAlways(run, i);
    var l, replies := run[i].links[c], RepliesOn(run[i].executed, c);
    assert LinkAt(run[i], c);
    RepliesValid(Abs(run[i]), c);
    DownIsReplies(l.server, AllBytes(l.down), replies);
    S.HandedInOrder(l.server);
    ReaderUnderstands(l.down, replies[..|l.server.handed|]);
  }

  /** The server's sender has nothing left to do. */
  predicate SenderAtRest(s: S.State) {
    s.processing && s.posted == [] && forall t :: 0 <= t < |s.threads| ==> s.threads[t] == S.Elsewhere
  }

  /** When a live server connection has come to rest, the bytes to the client are those of all its answers. */
  lemma AllAnsweredAtRest(run: seq<Full>, i: nat, c: nat)
    requires IsRun(run) && i < |run| && c < |run[i].links| && SenderAtRest(run[i].links[c].server)
    ensures var l, replies := run[i].links[c], RepliesOn(run[i].executed, c);
            && AllValid(replies) && AllBytes(l.down) == SerializeAll(replies)
            && l.server.sent == l.server.pushed && Encodes(l.server.sent, replies)
  {
    InvAlways(run, i);
    assert LinkAt(run[i], c);
    RepliesValid(Abs(run[i]), c);
    AtRest(run[i].links[c].server, AllBytes(run[i].links[c].down), RepliesOn(run[i].executed, c));
  }
}
