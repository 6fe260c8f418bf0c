/**
  One connection in bytes: what the client's sender put on it, what the server read and has still to execute, what the
  server's sender put on it, and what the client read.
 */
module Links {
  import opened Bytes
  import opened Messages
  import opened SerializationBuffers
  import opened Framing
  import C = ClientSender
  import S = ServerSender
  import Rpc

  /**
    One direction: the bytes taken off by the reader, those still on their way, and what the reader made of the
    former.
   */
  datatype Pipe = Pipe(read: bytes, coming: bytes, stream: Stream)

  /**
    `up` leads to the server, `down` to the client; `waiting`: positions of delivered requests that were posted to the
    executor and not run yet; `handled`: how many of the messages on `down` the client has handled.
   */
  datatype Link = Link(up: Pipe, waiting: set<nat>, server: S.State, down: Pipe, handled: nat)

  function Wire(m: Message): bytes {
    if ValidMessage(m) then Serialize(m) else []
  }

  ghost predicate Encodes(bs: seq<bytes>, ms: seq<Message>) {
    |bs| == |ms| && forall i :: 0 <= i < |bs| ==> bs[i] == Wire(ms[i])
  }

  lemma EncodesAppend(bs: seq<bytes>, ms: seq<Message>, m: Message)
    requires Encodes(bs, ms)
    ensures Encodes(bs + [Wire(m)], ms + [m])
  {
  }

  lemma SerializeAllFirst(m: Message, ms: seq<Message>)
    requires ValidMessage(m) && AllValid(ms)
    ensures AllValid([m] + ms) && SerializeAll([m] + ms) == Serialize(m) + SerializeAll(ms)
  {
    assert ([m] + ms)[1..] == ms;
  }

  lemma {:induction false} SerializeAllAppend(ms: seq<Message>, m: Message)
    requires AllValid(ms) && ValidMessage(m)
    ensures AllValid(ms + [m]) && SerializeAll(ms + [m]) == SerializeAll(ms) + Serialize(m)
  {
    if ms == [] {
      SerializeAllFirst(m, []);
    } else {
      SerializeAllAppend(ms[1..], m);
      SerializeAllFirst(ms[0], ms[1..] + [m]);
      assert ms + [m] == [ms[0]] + (ms[1..] + [m]);
    }
  }

  /** The concatenated encodings are the byte stream of the messages. */
  lemma {:induction false} ConcatEncoded(bs: seq<bytes>, ms: seq<Message>)
    requires Encodes(bs, ms) && AllValid(ms)
    ensures Concat(bs) == SerializeAll(ms)
  {
    if bs != [] {
      assert bs[0] == Serialize(ms[0]);
      ConcatEncoded(bs[1..], ms[1..]);
    }
  }

  // ----- A pipe -----

  const EMPTY_PIPE := Pipe([], [], FRESH)

  /** A sender hands bytes to the transport. */
  function Put(p: Pipe, bs: bytes): Pipe {
    p.(coming := p.coming + bs)
  }

  /** A read of `n` bytes. */
  function Take(p: Pipe, n: nat): Pipe
    requires n <= |p.coming|
  {
    Pipe(p.read + p.coming[..n], p.coming[n..], Feed(p.stream, p.coming[..n]))
  }

  function AllBytes(p: Pipe): bytes {
    p.read + p.coming
  }

  lemma PutBytes(p: Pipe, bs: bytes)
    ensures AllBytes(Put(p, bs)) == AllBytes(p) + bs
  {
    assert p.read + (p.coming + bs) == (p.read + p.coming) + bs;
  }

  lemma TakeBytes(p: Pipe, n: nat)
    requires n <= |p.coming|
    ensures AllBytes(Take(p, n)) == AllBytes(p)
  {
    assert p.coming[..n] + p.coming[n..] == p.coming;
    assert (p.read + p.coming[..n]) + p.coming[n..] == p.read + (p.coming[..n] + p.coming[n..]);
  }

  /** However it was cut into reads, the reader has understood what the bytes say. */
  ghost predicate InStep(p: Pipe) {
    p.stream == ReadStream(p.read)
  }

  lemma TakeInStep(p: Pipe, n: nat)
    requires n <= |p.coming| && InStep(p)
    ensures InStep(Take(p, n))
  {
    Resume(p.read, p.coming[..n]);
  }

  lemma TakeDelivers(p: Pipe, n: nat)
    requires n <= |p.coming|
    ensures p.stream.messages <= Take(p, n).stream.messages
  {
  }

  lemma BytesRead(p: Pipe)
    ensures AllBytes(p)[..|p.read|] == p.read
  {
  }

  /** A reader understands the beginning of what was sent, and in the end all of it. */
  lemma ReaderUnderstands(p: Pipe, ms: seq<Message>)
    requires InStep(p) && AllValid(ms) && AllBytes(p) == SerializeAll(ms)
    ensures p.stream.messages <= AllAsReceived(ms)
    ensures p.coming == [] ==> p.stream.messages == AllAsReceived(ms)
  {
    TruncatedStream(ms, |p.read|);
    BytesRead(p);
    if p.coming == [] {
      ReadSerialized(ms, []);
      assert SerializeAll(ms) + [] == SerializeAll(ms);
    }
  }

  lemma AllRequestsDelivered(p: Pipe, ms: seq<Message>, j: nat)
    requires InStep(p) && AllValid(ms) && AllBytes(p) == SerializeAll(ms) && p.coming == []
    requires j < |ms| && ms[j].Request?
    ensures j < |p.stream.messages| && p.stream.messages[j] == ms[j]
  {
    ReaderUnderstands(p, ms);
  }

  lemma ReaderArrives(p: Pipe, ms: seq<Message>, j: nat)
    requires InStep(p) && AllValid(ms) && AllBytes(p) == SerializeAll(ms) && j < |p.stream.messages|
    ensures Rpc.Arrives(ms, |p.read|, j, p.stream.messages[j])
  {
    BytesRead(p);
  }

  // ----- To the server -----

  /** The indexes of the pushed messages that went to connection `c`, in order. */
  function SentOn(log: seq<C.Transmission>, c: nat): seq<nat> {
    if log == [] then []
    else
      var init, last := SentOn(log[..|log| - 1], c), log[|log| - 1];
      if last.connection == c then init + [last.index] else init
  }

  lemma SentOnMore(log: seq<C.Transmission>, t: C.Transmission, c: nat)
    ensures SentOn(log + [t], c) == if t.connection == c then SentOn(log, c) + [t.index] else SentOn(log, c)
  {
    assert (log + [t])[..|log|] == log;
  }

  lemma {:induction false} NothingSentOn(log: seq<C.Transmission>, c: nat)
    requires forall a :: 0 <= a < |log| ==> log[a].connection != c
    ensures SentOn(log, c) == []
  {
    if log != [] {
      NothingSentOn(log[..|log| - 1], c);
    }
  }

  /** The messages at these indexes. */
  function Pick(outbox: seq<Message>, ix: seq<nat>): (r: seq<Message>)
    ensures (forall j :: 0 <= j < |ix| ==> ix[j] < |outbox|) ==>
              |r| == |ix| && forall j :: 0 <= j < |ix| ==> r[j] == outbox[ix[j]]
  {
    if ix == [] then []
    else
      var init, last := ix[..|ix| - 1], ix[|ix| - 1];
      assert forall j :: 0 <= j < |init| ==> init[j] == ix[j];
      Pick(outbox, init) + if last < |outbox| then [outbox[last]] else []
  }

  /** Nothing has been transmitted to a later connection, or the last transmission was this one. */
  predicate LastOn(log: seq<C.Transmission>, c: nat, index: nat) {
    && log != []
    && var last := log[|log| - 1];
    c <= last.connection && (c == last.connection ==> index == last.index)
  }

  /** Indexes of pushed messages, without gaps. */
  predicate Consecutive(ix: seq<nat>, n: nat) {
    && (forall j :: 0 <= j < |ix| ==> ix[j] < n)
    && (forall j, k :: 0 <= j < |ix| && k == j + 1 < |ix| ==> ix[k] == ix[j] + 1)
  }

  /** The bytes on a connection are those of pushed messages, in the order of pushing and without gaps. */
  ghost predicate Uplink(c: nat, up: bytes, outbox: seq<Message>, log: seq<C.Transmission>) {
    var ix := SentOn(log, c);
    && Consecutive(ix, |outbox|)
    && (ix != [] ==> LastOn(log, c, ix[|ix| - 1]))
    && AllValid(Pick(outbox, ix)) && up == SerializeAll(Pick(outbox, ix))
  }

  lemma UplinkFresh(c: nat, outbox: seq<Message>, log: seq<C.Transmission>)
    requires SentOn(log, c) == []
    ensures Uplink(c, [], outbox, log)
  {
  }

  lemma PickGrows(outbox: seq<Message>, m: Message, ix: seq<nat>)
    requires Consecutive(ix, |outbox|)
    ensures Pick(outbox + [m], ix) == Pick(outbox, ix)
  {
  }

  lemma UplinkPushed(c: nat, up: bytes, outbox: seq<Message>, log: seq<C.Transmission>, m: Message)
    requires Uplink(c, up, outbox, log)
    ensures Uplink(c, up, outbox + [m], log)
  {
    PickGrows(outbox, m, SentOn(log, c));
  }

  /** A transmission continues where the last one on its connection stopped, or starts a later connection. */
  lemma TransmitContinues(client: C.State, ix: seq<nat>)
    requires C.Inv(client) && C.WillTransmit(client) && client.processing
    requires ix != [] ==> LastOn(client.log, client.connection.value, ix[|ix| - 1])
    ensures ix != [] ==> |client.completed| == ix[|ix| - 1] + 1
    ensures client.log != [] ==> client.log[|client.log| - 1].connection <= client.connection.value
  {
  }

  lemma PickMore(outbox: seq<Message>, ix: seq<nat>, k: nat)
    requires Consecutive(ix, |outbox|) && k < |outbox|
    ensures Pick(outbox, ix + [k]) == Pick(outbox, ix) + [outbox[k]]
  {
    assert (ix + [k])[..|ix|] == ix;
  }

  lemma ConsecutiveMore(ix: seq<nat>, n: nat, k: nat)
    requires Consecutive(ix, n) && k < n && (ix != [] ==> k == ix[|ix| - 1] + 1)
    ensures Consecutive(ix + [k], n)
  {
  }

  lemma PickBytes(up: bytes, outbox: seq<Message>, ix: seq<nat>, k: nat)
    requires Consecutive(ix, |outbox|) && k < |outbox| && ValidMessage(outbox[k])
    requires AllValid(Pick(outbox, ix)) && up == SerializeAll(Pick(outbox, ix))
    ensures AllValid(Pick(outbox, ix + [k])) && up + Wire(outbox[k]) == SerializeAll(Pick(outbox, ix + [k]))
  {
    PickMore(outbox, ix, k);
    SerializeAllAppend(Pick(outbox, ix), outbox[k]);
  }

  lemma UplinkExtends(c: nat, up: bytes, outbox: seq<Message>, log: seq<C.Transmission>, k: nat)
    requires Uplink(c, up, outbox, log) && k < |outbox| && ValidMessage(outbox[k])
    requires var ix := SentOn(log, c); ix != [] ==> k == ix[|ix| - 1] + 1
    ensures Uplink(c, up + Wire(outbox[k]), outbox, log + [C.Transmission(c, k)])
  {
    ConsecutiveMore(SentOn(log, c), |outbox|, k);
    PickBytes(up, outbox, SentOn(log, c), k);
    SentOnMore(log, C.Transmission(c, k), c);
  }

  lemma UplinkIgnores(c: nat, up: bytes, outbox: seq<Message>, log: seq<C.Transmission>, t: C.Transmission)
    requires Uplink(c, up, outbox, log) && t.connection != c
    requires log != [] ==> log[|log| - 1].connection <= t.connection
    ensures Uplink(c, up, outbox, log + [t])
  {
    SentOnMore(log, t, c);
  }

  lemma {:induction false} IndexesIncrease(ix: seq<nat>, n: nat, j: nat, k: nat)
    requires Consecutive(ix, n) && j <= k < |ix|
    ensures ix[k] == ix[j] + (k - j)
    decreases k
  {
    if j < k {
      IndexesIncrease(ix, n, j, k - 1);
      assert ix[k] == ix[k - 1] + 1;
    }
  }

  // ----- The requests delivered to the server -----

  ghost predicate IsRequestAt(ms: seq<Message>, p: nat) {
    p < |ms| && ms[p].Request?
  }

  /** The requests among the messages from a position on. */
  function RequestsFrom(ms: seq<Message>, from: nat): (r: set<nat>)
    ensures forall p :: p in r <==> from <= p < |ms| && ms[p].Request?
  {
    set p | from <= p < |ms| && ms[p].Request?
  }

  /** If on this connection, the execution was of a delivered request, whose task is gone. */
  ghost predicate Ran(x: Rpc.Execution, c: nat, ms: seq<Message>, waiting: set<nat>) {
    x.link == c ==> IsRequestAt(ms, x.position) && x.request == ms[x.position] && x.position !in waiting
  }

  ghost predicate WasRun(executed: seq<Rpc.Execution>, c: nat, p: nat) {
    exists k :: 0 <= k < |executed| && executed[k].link == c && executed[k].position == p
  }

  ghost predicate RunOnce(executed: seq<Rpc.Execution>, c: nat) {
    forall k, l :: 0 <= k < l < |executed| && executed[k].link == c == executed[l].link ==>
      executed[k].position != executed[l].position
  }

  /** Each delivered request waits, or has been run once. */
  ghost predicate Tasks(c: nat, ms: seq<Message>, waiting: set<nat>, executed: seq<Rpc.Execution>) {
    && (forall p :: p in waiting ==> IsRequestAt(ms, p))
    && (forall k :: 0 <= k < |executed| ==> Ran(executed[k], c, ms, waiting))
    && (forall p {:trigger WasRun(executed, c, p)} :: IsRequestAt(ms, p) && p !in waiting ==> WasRun(executed, c, p))
    && RunOnce(executed, c)
  }

  lemma TasksRead(c: nat, ms: seq<Message>, ms': seq<Message>, waiting: set<nat>, executed: seq<Rpc.Execution>)
    requires Tasks(c, ms, waiting, executed) && ms <= ms'
    ensures Tasks(c, ms', waiting + RequestsFrom(ms', |ms|), executed)
  {
    forall p | IsRequestAt(ms', p) && p !in waiting + RequestsFrom(ms', |ms|)
      ensures WasRun(executed, c, p)
    {
      assert IsRequestAt(ms, p) && p !in waiting;
    }
  }

  lemma WasRunStays(executed: seq<Rpc.Execution>, x: Rpc.Execution, c: nat, p: nat)
    requires WasRun(executed, c, p) || (x.link == c && x.position == p)
    ensures WasRun(executed + [x], c, p)
  {
    if WasRun(executed, c, p) {
      var k :| 0 <= k < |executed| && executed[k].link == c && executed[k].position == p;
      assert (executed + [x])[k] == executed[k];
    } else {
      assert (executed + [x])[|executed|] == x;
    }
  }

  lemma TasksRun(c: nat, ms: seq<Message>, waiting: set<nat>, executed: seq<Rpc.Execution>, x: Rpc.Execution)
    requires Tasks(c, ms, waiting, executed) && x.position in waiting
    requires x.link == c && x.request == ms[x.position]
    ensures Tasks(c, ms, waiting - {x.position}, executed + [x])
  {
    forall k | 0 <= k < |executed + [x]|
      ensures Ran((executed + [x])[k], c, ms, waiting - {x.position})
    {
      if k < |executed| {
        assert Ran(executed[k], c, ms, waiting);
      }
    }
    forall p | IsRequestAt(ms, p) && p !in waiting - {x.position}
      ensures WasRun(executed + [x], c, p)
    {
      WasRunStays(executed, x, c, p);
    }
    forall k | 0 <= k < |executed| && executed[k].link == c
      ensures executed[k].position != x.position
    {
      assert Ran(executed[k], c, ms, waiting);
    }
  }

  lemma TasksElsewhere(c: nat, ms: seq<Message>, waiting: set<nat>, executed: seq<Rpc.Execution>, x: Rpc.Execution)
    requires Tasks(c, ms, waiting, executed) && x.link != c
    ensures Tasks(c, ms, waiting, executed + [x])
  {
    forall p | IsRequestAt(ms, p) && p !in waiting
      ensures WasRun(executed + [x], c, p)
    {
      WasRunStays(executed, x, c, p);
    }
  }

  // ----- To the client -----

  /** The answers of the executions on a connection, in order. */
  function RepliesOn(executed: seq<Rpc.Execution>, link: nat): seq<Message> {
    if executed == [] then []
    else
      var last := executed[|executed| - 1];
      RepliesOn(executed[..|executed| - 1], link)
      + if last.link == link && last.request.Request? then [Rpc.ReplyOf(last)] else []
  }

  /** Where the `n`-th of them is among all executions. */
  function NthOn(executed: seq<Rpc.Execution>, link: nat, n: nat): (k: nat)
    requires n < |RepliesOn(executed, link)|
    ensures k < |executed| && executed[k].link == link && executed[k].request.Request?
    ensures RepliesOn(executed, link)[n] == Rpc.ReplyOf(executed[k])
  {
    var init := executed[..|executed| - 1];
    if n < |RepliesOn(init, link)| then NthOn(init, link, n) else |executed| - 1
  }

  /** Every execution on a connection has its reply there. */
  lemma {:induction false} ReplyIndex(executed: seq<Rpc.Execution>, link: nat, k: nat) returns (n: nat)
    requires k < |executed| && executed[k].link == link && executed[k].request.Request?
    ensures n < |RepliesOn(executed, link)| && RepliesOn(executed, link)[n] == Rpc.ReplyOf(executed[k])
  {
    var init := executed[..|executed| - 1];
    if k < |init| {
      n := ReplyIndex(init, link, k);
    } else {
      n := |RepliesOn(init, link)|;
    }
  }

  lemma RepliesGrow(executed: seq<Rpc.Execution>, x: Rpc.Execution, link: nat)
    ensures RepliesOn(executed + [x], link)
            == RepliesOn(executed, link) + if x.link == link && x.request.Request? then [Rpc.ReplyOf(x)] else []
  {
    assert (executed + [x])[..|executed|] == executed;
  }

  lemma {:induction false} NoRepliesOn(executed: seq<Rpc.Execution>, link: nat)
    requires forall k :: 0 <= k < |executed| ==> executed[k].link < link
    ensures RepliesOn(executed, link) == []
  {
    if executed != [] {
      NoRepliesOn(executed[..|executed| - 1], link);
    }
  }

  /** The server's queue was given the replies, and the bytes are what its sender handed over. */
  ghost predicate Downlink(server: S.State, down: bytes, replies: seq<Message>) {
    S.Inv(server) && Encodes(server.pushed, replies) && down == Concat(server.handed)
  }

  /** The bytes to the client are those of the first replies, as many as were handed over. */
  lemma DownIsReplies(server: S.State, down: bytes, replies: seq<Message>)
    requires Downlink(server, down, replies) && AllValid(replies)
    ensures |server.handed| <= |replies|
    ensures down == SerializeAll(replies[..|server.handed|]) && Encodes(server.handed, replies[..|server.handed|])
  {
    S.HandedInOrder(server);
    ConcatEncoded(server.handed, replies[..|server.handed|]);
  }

  lemma DownlinkReplies(server: S.State, down: bytes, replies: seq<Message>, thread: nat, reply: Message)
    requires Downlink(server, down, replies) && S.Enabled(server, S.Push(thread, Wire(reply)))
    ensures Downlink(S.After(server, S.Push(thread, Wire(reply))), down, replies + [reply])
  {
    S.InvStep(server, S.Push(thread, Wire(reply)));
    EncodesAppend(server.pushed, replies, reply);
  }

  /** What a step of the server's sender puts on the connection. */
  function Posted(server: S.State, e: S.Event): bytes
    requires S.Enabled(server, e)
  {
    if e.Post? then server.threads[e.t].response else []
  }

  lemma DownlinkSends(server: S.State, down: bytes, replies: seq<Message>, e: S.Event)
    requires Downlink(server, down, replies) && S.Enabled(server, e) && !e.Push?
    ensures Downlink(S.After(server, e), down + Posted(server, e), replies)
  {
    S.InvStep(server, e);
    if e.Post? {
      ConcatAppend(server.handed, server.threads[e.t].response);
    }
  }

  /** When a live connection has come to rest, all replies are on it. */
  lemma AtRest(server: S.State, down: bytes, replies: seq<Message>)
    requires Downlink(server, down, replies) && AllValid(replies)
    requires server.processing && server.posted == []
    requires forall t :: 0 <= t < |server.threads| ==> server.threads[t] == S.Elsewhere
    ensures down == SerializeAll(replies) && server.sent == server.pushed == server.handed
  {
    var h :| S.HandOf(server, h);
    S.HandIsSomewhere(server, h);
    ConcatEncoded(server.handed, replies);
  }

  // ----- Reading -----

  /** The server reads the next bytes; the requests they complete are posted to the executor. */
  function AfterReadUp(l: Link, n: nat): Link
    requires n <= |l.up.coming|
  {
    l.(up := Take(l.up, n),
       waiting := l.waiting + RequestsFrom(Take(l.up, n).stream.messages, |l.up.stream.messages|))
  }

  lemma TasksReadUp(c: nat, l: Link, n: nat, executed: seq<Rpc.Execution>)
    requires Tasks(c, l.up.stream.messages, l.waiting, executed) && n <= |l.up.coming|
    ensures var l' := AfterReadUp(l, n); Tasks(c, l'.up.stream.messages, l'.waiting, executed)
  {
    TakeDelivers(l.up, n);
    TasksRead(c, l.up.stream.messages, Take(l.up, n).stream.messages, l.waiting, executed);
  }
}
