# A verified model of cpp-msgpack-rpc

The library lets C++ programs call each other's functions with MessagePack-RPC over TCP and Unix sockets.
This project models its protocol logic and proves what its callers rely on.

| file | what it models |
|---|---|
| `Msgpack.dfy` | the MessagePack format, after the section "Formats" of its specification: encoder and streaming decoder |
| `Formats.dfy` | the same format as a relation between bytes and values, one clause for each format with its literal first byte |
| `Messages.dfy` | requests, responses and notifications: the three wire shapes and their parser |
| `SerializationBuffer.dfy` | the growing buffer messages are packed into, and the four serializing functions |
| `Lifecycle.dfy` | the four-state machine of a connection and the reports of its closing |
| `Framing.dfy` | the read side of a connection: pieces of bytes in, messages out |
| `ServerSender.dfy` | the response queue of a server connection, under every interleaving of its threads |
| `ClientSender.dfy`, `ClientSenderRace.dfy`, `ClientSenderLate.dfy` | the client's send queue across reconnections; what `send_next` needs between its look and its claim; what completions do that come after their connection closed |
| `CallList.dfy` | pending calls, wrapping ids, timeouts, futures |
| `Methods.dfy` | the method processor and its mapping of exceptions to responses |
| `Rpc.dfy`, `RpcWrap.dfy` | calls, byte streams and executions as one abstract system: no result reaches the wrong call |
| `Links.dfy`, `Composition.dfy` | the same with both send queues as they are, the bytes they put on each connection, and both readers: a refinement of the abstract system |
| `Completion.dfy` | what that system has achieved when it comes to rest: every call has timed out or holds its own answer |
| `Pool.dfy` | the pool of shared objects: counts under concurrency, cyclic search |
| `RefCount.dfy` | reference-counted message handles, and the bytes they read |
| `Uri.dfy` | the address parser and printer |
| `Powers.dfy` | powers of two |
| `Connecting.dfy` | failover over several addresses, and exponential backoff |

Objects whose methods change their fields are classes here too. Where threads meet, each atomic access is an event of a
transition system (`Enabled`, `After`); a run is any sequence of such events; the class methods are the code between two
accesses and are proved to perform exactly one event on a ghost copy of the system. Sockets, timers and threads are events
that may happen whenever they are enabled. C++ exceptions are failure values.

Some promises hold only under a condition; the condition is proved exact, or the failure is exhibited:

- A nil error object reads back as a nil result, and nothing else changes on the way (`Messages.SerializeThenParse`).
- The doubling loop of the buffer ends exactly for sizes up to 3 * 2^62 (`SerializationBuffers.GrowthTerminatesIff`).
- A stopped connection stays stopped exactly when no stop lands between the two halves of `start`
  (`Lifecycle.StopIsFinalIff`), and its closing is reported once exactly when the peer's report does not come after the stop
  (`Lifecycle.ClosedOnceIff`).
- The client's `send_next` looks at connection and queue before it claims the flag, and any number of threads may be in between.
  A claim keeps the invariant of the sender if and only if, where the connection seen is still there and live, the message seen
  has not been completed since, and, where it is not, something still to come clears the flag or the client was stopped
  (`ClientSenderRace.ClaimKeepsInvIff`). Otherwise a message is sent twice, and its second completion pops a message this
  connection never transmitted (`ClientSenderRace.StaleClaimLosesMessage`, `ClientSenderRace.ClaimLosesMessage`) or an empty
  queue (`ClientSenderRace.ClaimAfterPop`), or the client stays connected and never sends again
  (`ClientSenderRace.ClaimAfterClose`).
- A write may succeed after its connection has reported its closing, and its callback pops and clears for the connection the
  client has by then. That keeps the invariant if and only if the front was the last message transmitted and is not in flight,
  and nobody transmits before the flag is cleared (`ClientSenderLate.StepSoundIff`); it completes its own message if and only
  if that is still the front and not in flight again (`ClientSenderLate.CompletesItsOwnIff`). Otherwise two writes are under
  way at once and the completion of one message completes another (`ClientSenderLate.LateCompletion`).
- After `create` has released the mutex, its reference to the new entry is alive if and only if no response was handled and no
  timeout ran out under the id in between (`CallLists.TouchesLiveEntryIff`).
- Backoff stays within 64 bits in every run if and only if the maximum is below 2^62 nanoseconds and together with the jitter
  below 2^63 (`Connecting.NeverOverflowsIff`).
- Results cannot reach the wrong call while at most `n` ids have been drawn, if and only if `n` is at most 2^32
  (`RpcWrap.CrossTalkFreeIff`).

## Model

| member | source | states |
|---|---|---|
| `Msgpack.RoundTrip` | include/msgpack_rpc/messages/message_serializer.h:51-58 | whatever the packer writes for a value, the unpacker reads back as that value, stopping exactly at its last byte, whatever bytes follow |
| `Msgpack.DecodeStable` | src/msgpack_rpc/messages/message_parser.cpp:45-54 | a value or an unpacking error, once found in the bytes received so far, is not changed by later bytes |
| `Msgpack.ProperPrefixWaits` | src/msgpack_rpc/messages/message_parser.cpp:45-54 | an incomplete encoding is neither taken for a value nor for an error: the parser asks for more |
| `Formats.BigEndian` | include/msgpack_rpc/messages/message_serializer.h:51-58 | byte i of a w-byte word of n is n / 256^(w-1-i) modulo 256: the most significant byte comes first |
| `Formats.DecodeIffForm` | src/msgpack_rpc/messages/message_parser.cpp:45-54 | the unpacker finds a value in the first n bytes if and only if these are that value in one of the formats of the specification, each with its first byte and its word written out |
| `Formats.EncodeHasForm` | include/msgpack_rpc/messages/message_serializer.h:51-58 | what the packer writes for a value is that value in one of these formats |
| `Formats.EncodeIsShortest` | include/msgpack_rpc/messages/message_serializer.h:51-58 | and no format of that value is shorter |
| `Formats.WaitsIff` | src/msgpack_rpc/messages/message_parser.cpp:48-50 | the unpacker asks for more bytes if and only if it has found no value and some continuation of the bytes is found to be one |
| `Messages.ParseIffDenotes` | src/msgpack_rpc/messages/impl/parse_message_from_object.h:50-202 | the parser accepts exactly the three specified array shapes (with the name as string or binary, a 32-bit id, an array of parameters) and reads from each exactly its contents |
| `Messages.ParseFailsIff` | src/msgpack_rpc/messages/impl/parse_message_from_object.h:50-202 | an object is refused, with each of the six reasons, exactly when that is the first thing wrong with it |
| `Messages.SerializeThenParse` | include/msgpack_rpc/messages/message_serializer.h:47-121 | the bytes of a message, whatever follows them, read back as that message, if and only if it is not an error response with a nil error, which reads as a nil result |
| `Messages.ParseSerializeParse` | src/msgpack_rpc/messages/impl/parse_message_from_object.h:109-202 | serializing any accepted message again and parsing those bytes gives the same message |
| `SerializationBuffers.GrowthTerminatesIff` | src/msgpack_rpc/messages/impl/sharable_binary_header.h:128-135 | with 64-bit wrap-around, the doubling loop reaches the required size if and only if that is at most 3 * 2^62 |
| `SerializationBuffers.GrowCapacity` | src/msgpack_rpc/messages/impl/sharable_binary_header.h:128-135 | the loop ends at the first doubling that is large enough, in [required, 2 * required), without overflow |
| `SerializationBuffers.SerializationBuffer.constructor` | src/msgpack_rpc/messages/impl/sharable_binary_header.h:93-113 | the first block holds 128 bytes less the header and no data |
| `SerializationBuffers.SerializationBuffer.Expand` | src/msgpack_rpc/messages/impl/sharable_binary_header.h:122-152 | growing keeps the contents and moves one old block with its header |
| `SerializationBuffers.SerializationBuffer.Write` | src/msgpack_rpc/messages/impl/serialization_buffer.cpp:37-43 | appends exactly the data, growing only when it does not fit, and then to less than twice the contents |
| `SerializationBuffers.SerializationBuffer.Release` | src/msgpack_rpc/messages/impl/serialization_buffer.cpp:45-50 | the message is everything written; reallocations moved at most 8/3 of its size, namely twice the size and the header of each of logarithmically many blocks |
| `SerializationBuffers.WriteAll` | src/msgpack_rpc/messages/impl/serialization_buffer.cpp:30-50 | for any sequence of writes the released message is their concatenation, and no more than that was moved for it |
| `SerializationBuffers.SerializeRequest` | include/msgpack_rpc/messages/message_serializer.h:47-59 | the bytes are the array [0, id, name, parameters] in the formats of the specification, and those the packer writes |
| `SerializationBuffers.SerializeSuccessfulResponse` | include/msgpack_rpc/messages/message_serializer.h:69-80 | the bytes are the array [1, id, nil, result] in these formats |
| `SerializationBuffers.SerializeErrorResponse` | include/msgpack_rpc/messages/message_serializer.h:90-101 | the bytes are the array [1, id, error, nil] in these formats |
| `SerializationBuffers.SerializeNotification` | include/msgpack_rpc/messages/message_serializer.h:111-121 | the bytes are the array [2, name, parameters] in these formats |
| `Lifecycle.BackgroundTaskStateMachine.HandleStartRequest` | src/msgpack_rpc/transport/background_task_state_machine.h:56-64 | succeeds only from the initial state |
| `Lifecycle.BackgroundTaskStateMachine.HandleProcessingStarted` | src/msgpack_rpc/transport/background_task_state_machine.h:69-71 | stores the processing state whatever was there |
| `Lifecycle.BackgroundTaskStateMachine.HandleStopRequested` | src/msgpack_rpc/transport/background_task_state_machine.h:79-82 | stops, and tells whether this call was the one that stopped it |
| `Lifecycle.BackgroundTaskStateMachine.HandleProcessingStopped` | src/msgpack_rpc/transport/background_task_state_machine.h:87-89 | stops |
| `Lifecycle.StartsAtMostOnce` | src/msgpack_rpc/transport/background_task_state_machine.h:56-71 | in every run at most one start gets through |
| `Lifecycle.StopIsFinalIff` | src/msgpack_rpc/transport/connection.h:109-122 | in every run not in the middle of `start`, a stopped connection stays stopped if and only if no stop was requested between the two halves of `start` |
| `Lifecycle.RevivedConnection` | src/msgpack_rpc/transport/background_task_state_machine.h:69-71 | a run in which a stopped connection processes again |
| `Lifecycle.ClosedOnceIff` | src/msgpack_rpc/transport/connection.h:173-285 | without such a stop, the closing callback fires at most once if and only if no read or write error by the peer arrives after the connection stopped; it has fired whenever the connection is stopped |
| `Framing.MessageParser.TryParse` | src/msgpack_rpc/messages/message_parser.cpp:45-57 | takes the first object off the bytes if it is a message; waits if it is incomplete and some continuation completes it, leaving the bytes; fails with what is wrong with the object, or as unparsable if no continuation completes one |
| `Framing.ReadsWhatIsSaid` | src/msgpack_rpc/transport/connection.h:196-217 | what is read from a byte stream is exactly what it says: messages one after another; then an incomplete rest that some continuation completes, or an object that is no message and what is wrong with it, or bytes that no continuation completes |
| `Framing.Connection.Start` | src/msgpack_rpc/transport/connection.h:109-122 | only the first start succeeds and begins to read |
| `Framing.Connection.CloseInThread` | src/msgpack_rpc/transport/connection.h:276-285 | stops; unless it was stopped before, cancels the outstanding read and reports the status, else changes nothing |
| `Framing.Connection.DeliverParsed` | src/msgpack_rpc/transport/connection.h:196-217 | the loop delivers every complete message in the buffer in order, up to the first error, and leaves the incomplete rest |
| `Framing.Connection.ProcessReadBytes` | src/msgpack_rpc/transport/connection.h:173-223 | one read: delivers what the old rest and the new bytes say together, goes on reading only while processing and nothing is wrong, and else stops and closes once with the first error |
| `Framing.Connection.ReadAll` | src/msgpack_rpc/transport/connection.h:159-223 | a chain of reads of any sizes delivers, reports and leaves over what a single read of all the bytes would |
| `Framing.Resume` | src/msgpack_rpc/transport/connection.h:194-222 | reading on after a pause is reading the whole |
| `Framing.FedIsReadAtOnce` | src/msgpack_rpc/transport/connection.h:194-222 | a byte stream cut into reads anywhere is understood as if it came in one |
| `Framing.CuttingIsIrrelevant` | src/msgpack_rpc/transport/connection.h:194-222 | two cuttings of one byte stream deliver the same messages and the same first error |
| `Framing.MessagesSurviveFraming` | src/msgpack_rpc/transport/connection.h:194-222 | serialized messages, concatenated and cut anywhere, arrive as exactly those messages in order, with nothing left over |
| `Framing.TruncatedStream` | src/msgpack_rpc/transport/connection.h:194-222 | when the stream breaks off anywhere, no error is seen and what arrived is a beginning of what was sent |
| `ServerSender.InvAlways` | src/msgpack_rpc/servers/server_connection.h:133-208 | the invariant of queue, flag, mutex, threads and transport holds in every reachable state |
| `ServerSender.AtMostOneInFlight` | src/msgpack_rpc/servers/server_connection.h:179-208 | at most one response is claimed by a thread, being written, or written and not acknowledged |
| `ServerSender.NoLostWakeup` | src/msgpack_rpc/servers/server_connection.h:142-208 | a waiting response with the flag clear implies a thread that has yet to look at the queue |
| `ServerSender.Conservation` | src/msgpack_rpc/servers/server_connection.h:142-208 | sent, then at most one in hand, then queued is exactly the order of pushing; the one in hand is lost only after the connection stopped |
| `ServerSender.QuiescentMeansAllSent` | src/msgpack_rpc/servers/server_connection.h:142-208 | when all threads have left and nothing is being written, a live connection has sent every response |
| `ServerSender.LiveConnectionDrains` | src/msgpack_rpc/servers/server_connection.h:142-208 | on a live connection every step that its threads and the transport take by themselves keeps it live and brings it closer to rest, and when none is left every response pushed has been sent |
| `ServerSender.InOrderOfPushing` | src/msgpack_rpc/transport/connection.h:125-134 | what was written or is being written was handed over, and what was handed over was accepted, all in the order of pushing; at most one accepted response has not been sent |
| `ServerSender.NothingAcceptedAfterStop` | src/msgpack_rpc/transport/connection.h:125-134 | after the stop no further response is accepted; only one that had passed the check before can still reach the transport |
| `ServerSender.ServerConnection.PushResponse` | src/msgpack_rpc/servers/server_connection.h:142-145 | the response goes to the end of the queue, in one step of the system |
| `ServerSender.ServerConnection.LockAndLoad` | src/msgpack_rpc/servers/server_connection.h:180-181 | taking the mutex and loading the flag is one step |
| `ServerSender.ServerConnection.ClaimFront` | src/msgpack_rpc/servers/server_connection.h:181-192 | gives up if the flag was set or the queue is empty, else pops the front, sets the flag and releases the mutex |
| `ServerSender.ServerConnection.LoadConnectionState` | src/msgpack_rpc/transport/connection.h:125-129 | a claimed response is accepted if and only if the connection is processing when its state is loaded |
| `ServerSender.ServerConnection.OnSentClear` | src/msgpack_rpc/servers/server_connection.h:204-207 | clears the flag without the mutex |
| `ClientSender.InvAlways` | src/msgpack_rpc/clients/impl/message_sender.h:57-106 | the invariant of queue, flag, connection and transmissions holds in every reachable state; on a live connection a set flag has a message in flight or its completion being handled |
| `ClientSender.NothingLostOrReordered` | src/msgpack_rpc/clients/impl/message_sender.h:57-106 | across reconnections, completed messages followed by the queue are everything pushed, in order; a completion never finds the queue empty |
| `ClientSender.InFlightIsFront` | src/msgpack_rpc/clients/impl/message_sender.h:66-98 | what is being written is the front of the queue and nothing else |
| `ClientSender.NeverStuck` | src/msgpack_rpc/clients/impl/client_impl.h:95-106 | with a non-empty queue a client that was not stopped always has a step of its own to take; on a live connection a message is in flight or a thread is about to send it |
| `ClientSender.QuiescentMeansAllSent` | src/msgpack_rpc/clients/impl/client_impl.h:95-106 | on a live connection with nobody about to send and nothing in flight, everything pushed has been sent |
| `ClientSender.LiveConnectionDrains` | src/msgpack_rpc/clients/impl/client_impl.h:95-106 | while a connection stays live and nobody pushes, each step brings the client closer to rest, and at rest everything has been sent |
| `ClientSender.TransmissionOrder` | src/msgpack_rpc/clients/impl/client_connector.h:148-192 | transmissions follow the order of pushing without gaps; within one connection nothing repeats, and a later connection repeats at most the last one |
| `ClientSender.CompletedWereTransmitted` | src/msgpack_rpc/clients/impl/message_sender.h:57-98 | every completed message was transmitted |
| `ClientSender.MessageSender.PushMessage` | src/msgpack_rpc/clients/impl/message_sender.h:57-61 | pushing is one step, with a call of `send_next` to come |
| `ClientSender.MessageSender.PopSent` | src/msgpack_rpc/clients/impl/message_sender.h:94-96 | a completion pops the front, which exists |
| `ClientSender.MessageSender.ClearSending` | src/msgpack_rpc/clients/impl/message_sender.h:97-97 | the flag is cleared after the pop |
| `ClientSender.MessageSender.HandleDisconnection` | src/msgpack_rpc/clients/impl/message_sender.h:103-106 | a closed connection leaves the front to be sent again |
| `ClientSenderRace.OthersActAtomically` | src/msgpack_rpc/clients/impl/message_sender.h:66-89 | whatever the threads inside `send_next` do short of taking the flag is a step of the atomic sender, or none |
| `ClientSenderRace.FreshClaimIsSendNext` | src/msgpack_rpc/clients/impl/message_sender.h:77-87 | a claim that finds connection and front as they were seen is the atomic `send_next` |
| `ClientSenderRace.ClaimKeepsInvIff` | src/msgpack_rpc/clients/impl/message_sender.h:77-87 | for any number of threads, a claim that takes the flag keeps the invariant if and only if the message it saw has not been completed since, on the live connection it saw, or else something is still to come that clears the flag, or the client was stopped |
| `ClientSenderRace.RunKeepsInvIff` | src/msgpack_rpc/clients/impl/message_sender.h:66-89 | a run of the code keeps the invariant throughout if and only if each claim that takes the flag meets that condition |
| `ClientSenderRace.UnsafeClaimHarms` | src/msgpack_rpc/clients/impl/message_sender.h:77-87 | any other claim sends a completed message again, or sets the flag with nothing in flight and nothing to come that clears it |
| `ClientSenderRace.StaleClaimLosesMessage` | src/msgpack_rpc/clients/impl/message_sender.h:77-98 | when any unsafe claim on a live connection goes out and completes, the pop takes a message that this connection never transmitted, or finds the queue empty |
| `ClientSenderRace.HungStaysHung` | src/msgpack_rpc/clients/impl/message_sender.h:66-106 | then nothing is sent until the connection breaks or the client is stopped |
| `ClientSenderRace.ClaimAfterPop` | src/msgpack_rpc/clients/impl/message_sender.h:77-96 | a run with a completion between look and claim: the message goes out twice and an empty queue is about to be popped |
| `ClientSenderRace.ClaimLosesMessage` | src/msgpack_rpc/clients/impl/message_sender.h:77-96 | a run in which a message is completed that was never transmitted at all |
| `ClientSenderRace.ClaimAfterClose` | src/msgpack_rpc/clients/impl/message_sender.h:77-106 | a run with a reconnection between look and claim: connected, with a message waiting that nobody will send |
| `ClientSenderRace.MessageSender.LoadFlag` | src/msgpack_rpc/clients/impl/message_sender.h:67-70 | the first load of the flag: goes on if it is clear |
| `ClientSenderRace.MessageSender.GetConnection` | src/msgpack_rpc/clients/impl/message_sender.h:71-76 | goes on if the connector holds a connection |
| `ClientSenderRace.MessageSender.Peek` | src/msgpack_rpc/clients/impl/message_sender.h:77-81 | goes on with a copy of the front, if there is one, and leaves it in the queue |
| `ClientSenderRace.MessageSender.Claim` | src/msgpack_rpc/clients/impl/message_sender.h:82-87 | sets the flag, and goes on if it was clear; from a state with the invariant this keeps it if and only if the claim is safe |
| `ClientSenderLate.StepSoundIff` | src/msgpack_rpc/clients/impl/message_sender.h:94-98 | for every state and every step, with callbacks of closed connections at any moment and between pop and clear: the invariant is kept if and only if a late pop finds a front that was transmitted last and is not in flight, and nobody transmits before the late callback has cleared the flag |
| `ClientSenderLate.RunStaysSoundIff` | src/msgpack_rpc/transport/connection.h:248-268 | a run with late completions keeps the invariant throughout and pops no empty queue if and only if each of its steps meets that condition |
| `ClientSenderLate.CompletesItsOwnIff` | src/msgpack_rpc/transport/connection.h:248-268 | a late completion keeps the invariant and completes the message that was written if and only if that is still the front and not in flight again |
| `ClientSenderLate.UnsafePopHarms` | src/msgpack_rpc/clients/impl/message_sender.h:94-98 | any other late completion pops an empty queue, or clears the flag under a message in flight, or completes a message that was never transmitted |
| `ClientSenderLate.LateCompletion` | src/msgpack_rpc/transport/connection.h:173-187 | a run in which the peer closes during a write that succeeds afterwards: two writes are under way, and the completion of the first message completes the second |
| `CallLists.InvAlways` | src/msgpack_rpc/clients/impl/call_list.h:72-153 | entries, ids and futures agree in every reachable state |
| `CallLists.EachFutureResolvedOnce` | src/msgpack_rpc/clients/impl/call_list.h:72-153 | a returned future is unset with exactly one entry, under its id, or was set exactly once and has no entry |
| `CallLists.OutcomesAreFinal` | src/msgpack_rpc/clients/impl/call_future_impl.h:59-92 | an outcome never changes |
| `CallLists.FirstEventDecides` | src/msgpack_rpc/clients/impl/call_list.h:111-153 | in every run, the first response handled or timeout run out under the id of a pending call decides its future for good: the response's own result, or the timeout |
| `CallLists.DuplicateIffWrapped` | src/msgpack_rpc/clients/impl/call_list.h:78-89 | registering fails if and only if a pending call lies a nonzero multiple of 2^32 generations away; never while all lie fewer than 2^32 away |
| `CallLists.CallFuture.SetResult` | src/msgpack_rpc/clients/impl/call_future_impl.h:59-70 | the first outcome wins |
| `CallLists.CallFuture.SetTimeout` | src/msgpack_rpc/clients/impl/call_future_impl.h:77-92 | the first outcome wins |
| `CallLists.CallFuture.GetResult` | src/msgpack_rpc/clients/impl/call_future_impl.h:95-149 | returns the result that was set, else throws the timeout |
| `CallLists.CallList.GenerateId` | src/msgpack_rpc/clients/impl/request_id_generator.h:44-44 | the id is the number of ids drawn before, from a first one on, modulo 2^32 |
| `CallLists.TouchesLiveEntryIff` | src/msgpack_rpc/clients/impl/call_list.h:91-103 | in every run, what `create` touches after it released the mutex is alive if and only if no response was handled and no timeout ran out under the id in between |
| `CallLists.CallList.RegisterCall` | src/msgpack_rpc/clients/impl/call_list.h:82-93 | the locked block adds, under the id, one entry with a new unset future, or fails on an id in the list and changes nothing |
| `CallLists.CallList.FutureOf` | src/msgpack_rpc/clients/impl/call_list.h:103-103 | the future of a live entry is the one of its call |
| `CallLists.CallList.Handle` | src/msgpack_rpc/clients/impl/call_list.h:111-122 | the future under the id, if any, gets exactly this result unless it was set, and its entry goes; every other future and entry stays as it is |
| `CallLists.CallList.OnTimeout` | src/msgpack_rpc/clients/impl/call_list.h:142-153 | the future under the id, if any, times out unless it was set, and its entry goes; every other future and entry stays as it is |
| `Methods.CallWithValue` | include/msgpack_rpc/methods/functional_method.h:94-151 | the response is [1, id, nil, value] if the method returns, [1, id, object, nil] or [1, id, text, nil] if it throws a method exception or another; a failed conversion escapes |
| `Methods.CallVoid` | include/msgpack_rpc/methods/functional_method.h:202-221 | the response is [1, id, nil, nil] if the method returns, and [1, id, what was thrown, nil] for every exception, of the conversion too |
| `Methods.MethodProcessor.Append` | src/msgpack_rpc/methods/method_processor_impl.h:52-54 | a name is registered once |
| `Methods.MethodProcessor.Call` | src/msgpack_rpc/methods/method_processor_impl.h:57-67 | every request yields one response with its id, by cases: the unknown name, the failed conversion and the exception as error, the value or nil as result |
| `Methods.NotFoundTextIs` | src/msgpack_rpc/methods/method_dict.h:71-71 | the error for an unknown name is the text "Method ... not found." with that name, up to the first zero byte |
| `Methods.NotifyMethod` | include/msgpack_rpc/methods/functional_method.h:228-241 | the method runs if and only if its parameters convert |
| `Methods.MethodProcessor.Notify` | src/msgpack_rpc/methods/method_processor_impl.h:70-78 | the method runs, on the converted parameters, if and only if it exists and they convert |
| `Methods.AnswerIsReadBack` | src/msgpack_rpc/methods/method_processor_impl.h:57-67 | the bytes of a response, whatever follows, read back as one response with the id of the request; its result is, by cases, the error or the value of the method, and only a thrown nil reads as a nil result |
| `Rpc.InvAlways` | src/msgpack_rpc/clients/impl/client_impl.h:127-141 | in every run what is on the wire was issued by a call or answered by an execution |
| `Rpc.ResultsComeFromExecutions` | src/msgpack_rpc/clients/impl/received_message_processor.h:55-70 | a future's result is the answer of an execution of a request issued under the same id, a multiple of 2^32 generations away |
| `Rpc.NoCrossTalk` | src/msgpack_rpc/clients/impl/call_list.h:111-122 | while at most 2^32 ids have been drawn, a future's result is the answer of an execution of that very call's request |
| `Composition.InvAlways` | src/msgpack_rpc/clients/impl/client_impl.h:95-141 | list of calls, send queue, bytes on each connection, readers, pending requests and response queues agree in every reachable state of the whole system |
| `Composition.RefinesRpc` | src/msgpack_rpc/clients/impl/client_impl.h:95-141 | with both senders, the bytes they hand over and both readers as they are, each step of the whole system, seen as messages, is a step of the abstract one or leaves it alone |
| `Composition.NoCrossTalk` | src/msgpack_rpc/clients/impl/received_message_processor.h:55-70 | no cross-talk in the whole system, while at most 2^32 ids have been drawn |
| `Composition.ExecutedOncePerConnection` | src/msgpack_rpc/servers/server_connection.h:95-148 | two executions on one connection are of two different pushed messages, however often each was sent |
| `Composition.RepliesInOrder` | src/msgpack_rpc/servers/server_connection.h:133-208 | the bytes to the client are the serialized answers of the executions on the connection in order with no gap, and the client reads the beginning of these, in the end all |
| `Composition.AllAnsweredAtRest` | src/msgpack_rpc/servers/server_connection.h:133-208 | when a live server connection is at rest, the bytes to the client are the serialized answers of all its executions |
| `Completion.AllExecutedWhenRead` | src/msgpack_rpc/servers/server_connection.h:95-148 | when a server has read everything and its executor is empty, every request transmitted on the connection was executed |
| `Completion.TimedOutIff` | src/msgpack_rpc/clients/impl/call_list.h:142-153 | in every run a call has timed out if and only if the timeout under its id ran out while it was waiting |
| `Completion.CallsAreRequested` | src/msgpack_rpc/clients/impl/client_impl.h:127-141 | in every run a call whose id is not taken is issued as the request with its id, name and parameters, which never changes, and is given to the sender |
| `Completion.TransmittedCallsAreResolved` | src/msgpack_rpc/clients/impl/received_message_processor.h:55-70 | while at most 2^32 ids have been drawn: when a live connection is at rest, every call whose request was transmitted on it holds the answer of an execution of its own request, or its timeout if that ran out while the call was waiting |
| `Completion.CallsAreAnswered` | src/msgpack_rpc/clients/impl/client_impl.h:95-141 | from one end to the other, while at most 2^32 ids have been drawn: when the client has sent everything and its connections are live and at rest, a call with a name and parameters has timed out, if its timeout ran out while it was waiting, and else holds the answer of an execution of that method on those parameters |
| `RpcWrap.CrossTalkFreeIff` | src/msgpack_rpc/clients/impl/request_id_generator.h:44-44 | for every n: no run with at most n ids drawn has cross-talk, if and only if n is at most 2^32 |
| `RpcWrap.CrossTalkAfterWrap` | src/msgpack_rpc/clients/impl/request_id_generator.h:44-44 | a run in which 2^32 calls time out and the late response of the first resolves the next one |
| `Pools.InvAlways` | include/msgpack_rpc/util/impl/shared_objects.h:50-88 | the invariant of each buffer's count under interleaved create, copy and release |
| `Pools.CountMeans` | include/msgpack_rpc/util/impl/shared_objects.h:50-88 | a positive count is the number of handles plus one during construction; 0 is one thread destroying; -1 is nobody |
| `Pools.NoOverlappingObjects` | include/msgpack_rpc/util/impl/shared_objects.h:66-88 | no object is constructed over a live or half-destroyed one, live handles have an object, and each object is destroyed once |
| `Pools.SharedObjectMemoryPool.TryStartUse` | include/msgpack_rpc/util/impl/shared_objects.h:50-55 | claims a free buffer and leaves any other as it is |
| `Pools.SharedObjectMemoryPool.ReleaseUnconstructed` | include/msgpack_rpc/util/impl/shared_objects.h:80-88 | the release after a throwing constructor makes the buffer free again, with nothing destroyed |
| `Pools.VisitsOnce` | include/msgpack_rpc/util/impl/shared_objects.h:259-271 | the search looks at no buffer twice |
| `Pools.SharedObjectMemoryPool.Create` | include/msgpack_rpc/util/impl/shared_objects.h:258-279 | constructs in the first free buffer in cyclic order, fails if and only if all are in use, and changes no buffer if it fails or the constructor throws |
| `RefCounts.OpStep` | src/msgpack_rpc/messages/serialized_message.cpp:30-71 | each operation keeps all counts exact, and touches a null or freed block if and only if it asks a moved-from handle for its block |
| `RefCounts.OpMeans` | src/msgpack_rpc/messages/serialized_message.cpp:30-79 | a copy reads what its source reads, a move empties its source, a move assignment exchanges two messages, and every other handle reads what it read |
| `RefCounts.CountsAreHandles` | src/msgpack_rpc/messages/impl/sharable_binary_header.h:188-219 | after any operations each count is the number of handles on the block, which is freed once, when and only when the last goes |
| `RefCounts.SafeIff` | src/msgpack_rpc/messages/serialized_message.cpp:40-79 | after any run, the next operation is safe if and only if it does not ask a moved-from handle for its block |
| `RefCounts.NoLeaks` | src/msgpack_rpc/messages/serialized_message.cpp:67-71 | when all handles are destroyed all blocks are freed |
| `RefCounts.SharingNeverShows` | src/msgpack_rpc/messages/serialized_message.cpp:30-79 | in every run, through any chain of copies, moves and assignments, a handle reads the bytes it would read if every message had a copy of its own |
| `RefCounts.Memory.FromData` | src/msgpack_rpc/messages/serialized_message.cpp:30-35 | a new block with a copy of the bytes, counted once |
| `RefCounts.Memory.Data` | src/msgpack_rpc/messages/serialized_message.cpp:73-79 | the bytes of the block that the handle holds |
| `RefCounts.Memory.AddReferenceCount` | src/msgpack_rpc/messages/impl/sharable_binary_header.h:201-204 | increments the count of a live block and leaves its bytes |
| `RefCounts.Memory.DecreaseReferenceCount` | src/msgpack_rpc/messages/impl/sharable_binary_header.h:212-219 | decrements, and frees the block exactly at zero |
| `RefCounts.Memory.CopyConstructor` | src/msgpack_rpc/messages/serialized_message.cpp:40-43 | the new handle holds the source's block, which is counted; no other handle changes |
| `RefCounts.Memory.MoveConstructor` | src/msgpack_rpc/messages/serialized_message.cpp:45-46 | the new handle holds what the source held, and the source nothing; no count changes |
| `RefCounts.Memory.CopyAssignment` | src/msgpack_rpc/messages/serialized_message.cpp:48-59 | the target holds the source's block, also when both share one or are one, although it decrements first; no other handle changes |
| `RefCounts.Memory.MoveAssignment` | src/msgpack_rpc/messages/serialized_message.cpp:61-65 | the two handles exchange what they hold; no other handle and no count changes |
| `RefCounts.Memory.Destructor` | src/msgpack_rpc/messages/serialized_message.cpp:67-71 | the handle goes and gives up its block, if any; no other handle changes |
| `Uris.ParseIffDenotes` | src/msgpack_rpc/addresses/uri.cpp:54-82 | a string parses to an address if and only if it has one of the three forms, with a port of at most 65535, and says that address |
| `Uris.FormsAreDisjoint` | src/msgpack_rpc/addresses/uri.cpp:55-57 | no string has two forms, and host and port split in one way only |
| `Uris.ParseUri` | src/msgpack_rpc/addresses/uri.cpp:54-82 | the code computes that parse; the unexpected error is never reached |
| `Uris.FormatUri` | src/msgpack_rpc/addresses/uri.cpp:88-106 | what is printed says the address, and reads back as it, exactly for addresses a parse can give |
| `Uris.FormatThenParseIff` | src/msgpack_rpc/addresses/uri.cpp:54-106 | an address survives printing and parsing if and only if its parts are those of a parsed one |
| `Uris.ParseFormatParse` | src/msgpack_rpc/addresses/uri.cpp:54-106 | every accepted string prints to one that parses to the same address |
| `Connecting.MultiBackendConnector.Start` | src/msgpack_rpc/transport/async_connect.h:68-104 | tries the addresses in order up to the first that connects; the callback fires exactly once, with that connection or, if each of them fails, with the failure of all, unless an unregistered scheme is reached first |
| `Connecting.MultiBackendConnector.HandleResult` | src/msgpack_rpc/transport/async_connect.h:76-90 | ends with the connection, moves on to the next address, or reports that all failed |
| `Connecting.MultiBackendConnector.AsyncConnect` | src/msgpack_rpc/transport/async_connect.h:96-104 | from any address on, tries until the decisive one and ends with one callback |
| `Connecting.NextWaitIsStored` | src/msgpack_rpc/clients/impl/reconnection_timer.h:92-115 | in every run the stored wait is min(initial * 2^k, max), k failures after the last reset, and lies between initial and max |
| `Connecting.NeverOverflowsIff` | src/msgpack_rpc/clients/impl/reconnection_timer.h:105-112 | doubling and adding the jitter stay within 64 bits in every run if and only if max is below 2^62 nanoseconds and max and jitter together below 2^63 |
| `Connecting.ReconnectionTimer.Make` | src/msgpack_rpc/clients/impl/reconnection_timer.h:50-66 | refuses exactly a maximum below the initial wait |
| `Connecting.ReconnectionTimer.Reset` | src/msgpack_rpc/clients/impl/reconnection_timer.h:92-92 | the next wait is the initial one again |
| `Connecting.ReconnectionTimer.ComputeWaitingTime` | src/msgpack_rpc/clients/impl/reconnection_timer.h:105-115 | where nothing overflows, the wait of the failure after k others is min(initial * 2^k, max) plus the jitter, and the stored wait doubles up to the maximum |

## Left out

- Sockets, resolvers, acceptors, executors and real timers: foreign calls, represented by events that may happen at any time.
- The msgpack library itself is not part of this model; its format is modelled from its specification. It converts both strings and binaries to a method name, so both are accepted where the MessagePack-RPC specification asks for a string. Its limits on nesting are not modelled.
- Values of floats are kept as raw bytes, strings are not checked to be UTF-8.
- Weak memory: atomic accesses are sequentially consistent.
- ServerSender: a write error that the transport throws instead of reporting counts as a stopped connection.
- ClientSender: `send_next` is one atomic step there; `ClientSenderRace` has its accesses one by one, except that claiming the flag and giving the message to the connection stay one step.
- ClientSender: that a connection makes no further callback once it has reported its closing is an assumption. `ClientSenderLate` says what late completions do and when they do no harm; `Lifecycle.ClosedOnceIff` is about second reports of a closing only. `ClientSenderRace` and `ClientSenderLate` are not combined.
- ClientSender: `Connect` and `StopClient` are one step each. The connector loads its flag before it takes the mutex, so a stop in between would leave a stopped client with a connection.
- Framing.Connection.ProcessReadBytes: a read error of any other kind throws out of the handler and ends the executor; it is not an event here. Message callbacks change nothing within the call, as they only post work.
- ServerSender: notifications and unexpected responses do not touch the queue; the close that an unexpected response asks for is a stop that may come at any time.
- Composition: drawing an id, registering the call and pushing its request are two steps, not three; executing a request and pushing its response are one; notifications are read but their execution leaves no trace. A reader may go on after its connection stopped. The client's sender is `ClientSender`, with its assumptions.
- CallLists.CallFuture.GetResult: waiting is a wait that has just ended; deadlines are not numbers.
- Methods.MethodProcessor.Call: exceptions that are not standard exceptions, and texts or results too large to pack, are preconditions.
- RefCounts.Memory.Data: requires a handle that is not moved from; `RefCounts.SafeIff` shows that this is exactly what it needs. Where in a block the bytes start is not modelled.
- RefCounts.Memory.CopyAssignment: requires a source that is not moved from; `RefCounts.OpStep` shows that this is exactly what it needs. Counts are unbounded.
- SerializationBuffers.SerializationBuffer.constructor: the header has the size it has on 64-bit platforms, and allocation does not fail.
- Connecting.MultiBackendConnector.Start: the list of addresses is not empty, and an attempt either throws or reports once.
- Connecting.ReconnectionTimer.ComputeWaitingTime: requires that nothing overflows now, as C++ leaves the result undefined otherwise; `Connecting.NeverOverflowsIff` says which configurations guarantee it.
- Pools.SharedObjectMemoryPool.Create: no buffer is released between its looks, and one `create` runs at a time; the index is a plain field, so a second one between the increment and the remainder could use an index past the end.
- Shutdown of the acceptor racing with an accept, the executor's thread handling, configuration files, builders, logging and status texts: thin, or decided by the operating system.
