# ws-gw client core in Dafny

This project models the client side of ws-gw, a request/response-plus-broadcast RPC protocol over one WebSocket connection:

- The dispatch state machine of `src/service.cpp`. It sends the handshake when the connection opens and checks the peer's handshake reply. It routes each request to a registered handler or to the default handler, and sends exactly one `Response` or `Exception` per request. It also sends broadcasts. Failures are stored in the error cell `ep`, and the transport is stopped.
- The pieces of `include/ws-gw.h` that this state machine relies on: the `Buffer` / `BufferView` byte wrappers and their conversions, handler registration with `std::map::emplace`, the sync-to-async handler adapter, and the exception types and their `what()` text.

Files and modules:

- `wrappers.dfy` (`Wrappers`): `Option`.
- `buffers.dfy` (`Buffers`): `Buffer` is a possibly null implementation over a char string, a byte string or a builder's finished bytes. `BufferView` is the bytes it shows. Pointers are modelled by the bytes they give access to.
- `errors.dfy` (`Errors`): thrown objects, either a `std::exception` of a given dynamic type with its message, or anything else. `What` reads the message as a C string, which stops at the first NUL. `NewMagicError` gives the `MagicError` text.
- `handlers.dfy` (`Handlers`): synchronous handlers return a `Buffer` or throw. An asynchronous handler invocation is summarised by its callback calls and by the exception that escapes it. The module also holds `Emplace`, `Lookup`, the adapter and the header's handler table (`Registry`).
- `protocol.dfy` (`Protocol`): decoded inbound frames and outbound frames. A binary frame is given by what verification against each root type yields (`None` when verification fails).
- `dispatch.dfy` (`Dispatch`): the state (`booted`, `ep`, `stopped`, `conhdr`, the frames sent) and one function per operation. `Run` is the transport's event loop. It delivers events in order until the transport is stopped or has nothing more to deliver. The lemmas state the properties of one frame and of a whole run.
- `gateway.dfy` (`Gateway`): the class `Service`, whose methods update the fields in place. Each method is proved to change the state exactly as its `Dispatch` function says.

The transport is a parameter throughout:

- A send is given the exception the transport throws for it, or `None` when the send succeeds.
- `ws.stop()` sets `stopped`.
- `ws.get_connection` is given the error message it reports, or `None` when the endpoint parses.
- `ws.run()` is the sequence of open and message events it delivers.

Where the code and the protocol's intended design differ, the model follows the code:

- The error cell is overwritten by every recorded failure, so it holds the latest one, not the first (`Dispatch.LaterFailureOverwrites`).
- The code never throws `DisconnectedError` or `ConnectFailedError`. If the loop ends without a recorded error, `Connect` returns normally. This includes a connection that never opens.
- `Connect` runs the event loop on the caller's thread. It returns only when the loop ends, not when the handshake completes.
- There is no `Idle`/`HandshakeSent`/`Active`/`Terminated` state. There are only the `booted` flag and the transport's stopped state. `Disconnect` clears `booted`, so a later binary frame is read as a handshake reply again.
- A rejected reply send or broadcast send is recorded and stops the transport, like every other failure. No abnormal close is modelled.
- `Broadcast` sends a bare `Broadcast` table (`src/service.cpp:111-112`). Responses and exceptions are wrapped in a `SendPacket` (`Protocol.Outbound`).
- Registering a name twice keeps the first handler (`emplace`).
- `src/service.cpp` calls handlers synchronously, as `Buffer(BufferView)`, and uses a field `booted` and a one-argument `Connect`, which the header does not declare. The header declares a continuation-based `Handler`, a `flag` field and `Connect(endpoint, desc)`. The dispatch is modelled as `src/service.cpp` writes it, over synchronous handlers. The header's registration and adapter are modelled separately, in `Handlers.Registry`.

## Model

| member | source | states |
|---|---|---|
| `Buffers.EmptyBuffer` | include/ws-gw.h:103-111 | a default `Buffer` has `size() == 0` and a null `data()`, and converts to empty bytes and an empty string |
| `Buffers.BufferOfString` | include/ws-gw.h:104 | a `Buffer` built from a string has the string's length and bytes, and `str()` gives the string back |
| `Buffers.BufferOfChars` | include/ws-gw.h:105 | `Buffer(data, len)` holds exactly the first `len` chars at `data` |
| `Buffers.BufferOfUString` | include/ws-gw.h:106 | a `Buffer` built from a byte string has its length and exactly its bytes |
| `Buffers.BufferOfBytes` | include/ws-gw.h:107 | `Buffer(data, len)` holds exactly the first `len` bytes at `data` |
| `Buffers.BufferOfBuilder` | include/ws-gw.h:108 | a `Buffer` built from a builder holds exactly the builder's finished bytes |
| `Buffers.Contents` | include/ws-gw.h:114-115 | the byte-string conversions yield exactly the `size()` bytes at `data()`, and nothing for a null `data()` |
| `Buffers.Str` | include/ws-gw.h:113-118 | the string conversions and `str()` yield `size()` chars whose bytes are exactly the buffer's bytes |
| `Buffers.CharsRoundTrip` | include/ws-gw.h:113 | reading a string's chars as bytes and back gives the same string |
| `Buffers.BytesRoundTrip` | include/ws-gw.h:69 | reading bytes as chars and back gives the same bytes |
| `Buffers.ViewStr` | include/ws-gw.h:44-47 | a view's string conversions yield `size()` chars whose bytes are the view's bytes |
| `Buffers.EmptyView` | include/ws-gw.h:33 | a default view is empty under every conversion |
| `Buffers.ViewOfBytes` | include/ws-gw.h:35 | a view of `(data, len)` shows exactly the first `len` bytes |
| `Buffers.ViewOfString` | include/ws-gw.h:36-37 | a view of a string has the string's length and bytes, and converts back to the string |
| `Buffers.ViewOfUString` | include/ws-gw.h:38-39 | a view of a byte string has its length and exactly its bytes |
| `Buffers.ViewOfBuilder` | include/ws-gw.h:40 | a view of a builder shows exactly its finished bytes |
| `Buffers.ViewOfBuffer` | include/ws-gw.h:121 | a view of a `Buffer` has the buffer's size, bytes and string |
| `Errors.CStr` | include/ws-gw.h:127-128 | a `char const *` denotes the longest NUL-free prefix of its string |
| `Errors.CStrAppend` | include/ws-gw.h:127-128 | a NUL-free prefix is kept whole when the concatenation is read as a C string |
| `Errors.What` | include/ws-gw.h:143 | `what()` is the longest NUL-free prefix of the stored message: it stops only at the first NUL, or at the end |
| `Errors.NewMagicError` | include/ws-gw.h:126-129 | the `MagicError` text is "Expected magic " + expected + ", got " + actual, each read as a C string, and exactly that when neither has a NUL |
| `Handlers.Emplace` | include/ws-gw.h:171 | `emplace` adds the key, keeps the handler of every key already present (including the one being registered), and stores the new handler only for an absent key |
| `Handlers.LookupAfterEmplace` | src/service.cpp:44-45 | after registering, a lookup finds the new handler only for a previously absent key; every other lookup, including the default fallback, is unchanged |
| `Handlers.Report` | include/ws-gw.h:176 | the adapter's catch clause calls the callback once, with the exception and an empty view |
| `Handlers.SlicedCopy` | include/ws-gw.h:176 | `std::make_exception_ptr` of a `std::exception const &` yields an object whose dynamic type is plain `std::exception` |
| `Handlers.AdaptedCallsOnce` | include/ws-gw.h:172-177 | for the adapter as written and the corrected one alike: with a callback that returns, the callback is called exactly once. On a return it gets a null exception and the returned bytes. On a `std::exception` it gets the captured exception and an empty view. Nothing escapes |
| `Handlers.AdaptedPassesThrownException` | include/ws-gw.h:176 | the corrected adapter hands the callback exactly the `std::exception` the handler threw, with the same `what()` |
| `Handlers.AdaptedLetsNonStdEscape` | include/ws-gw.h:172-177 | for either adapter: a non-`std::exception` throw from the handler escapes, and the callback is never called |
| `Handlers.AdaptedRecallsThrowingCallback` | include/ws-gw.h:174-176 | for either adapter: a callback that throws a `std::exception` on the success call is called a second time, with the captured exception and an empty view |
| `Handlers.AdaptedAsWrittenSlicesException` | include/ws-gw.h:176 | as written, the callback receives a plain `std::exception` whose `what()` is "std::exception", not what the handler threw |
| `Handlers.Registry.constructor` | include/ws-gw.h:169 | a new service has the given default handler and no registered handlers |
| `Handlers.Registry.RegisterHandler` | include/ws-gw.h:171 | registering an asynchronous handler is `emplace`: a present name leaves the map unchanged, an absent name adds just that entry |
| `Handlers.Registry.RegisterSyncHandler` | include/ws-gw.h:172-178 | registering a synchronous handler emplaces the header's adapter around it (`AdaptAsWritten`, which passes on the sliced copy) under the name. A present name leaves the map unchanged |
| `Dispatch.TextFrameIsFatal` | src/service.cpp:22-23 | a text frame, in any state, records a `RemoteException` carrying the payload and stops. Nothing is sent, and `booted` and `conhdr` are unchanged |
| `Dispatch.UnverifiedReplyIsDropped` | src/service.cpp:28-31 | before boot, a frame that fails `HandshakeResponse` verification leaves the whole state unchanged |
| `Dispatch.HandshakeReplyChecksMagic` | src/service.cpp:32-34 | before boot, the magic "WS-GATEWAY OK" sets `booted` and changes nothing else. Any other magic records that `MagicError`, stops, sends nothing and leaves `booted` false |
| `Dispatch.MagicErrorText` | src/service.cpp:33 | for a NUL-free magic m, the recorded text is "Expected magic WS-GATEWAY OK, got " + m |
| `Dispatch.NonRequestIsIgnored` | src/service.cpp:38-40 | after boot, an unverifiable frame or a packet without a `Request` leaves the whole state unchanged |
| `Dispatch.RequestIsRouted` | src/service.cpp:41-49 | after boot, a request's payload goes to the handler mapped to its key, or to the default handler when the key is unmapped |
| `Dispatch.AnswerSendsOneReply` | src/service.cpp:46-61 | a handler that returns, or throws a `std::exception`, yields exactly one frame to the request's connection carrying the request's id. It is a `Response` with the returned bytes or an `Exception` with `what()`. The error cell, `booted` and `stopped` are unchanged |
| `Dispatch.AnswerFailureIsFatal` | src/service.cpp:48-67 | a non-`std::exception` throw from the handler, or a rejected send, records that error and stops. Nothing is sent |
| `Dispatch.OpenSendsHandshake` | src/service.cpp:77-90 | the open handler stores the connection and sends the fixed handshake to it. A rejected send is recorded and stops the loop instead |
| `Dispatch.BroadcastIsGated` | src/service.cpp:105-118 | before boot `Broadcast` changes nothing. After boot it sends exactly one `Broadcast` frame with the key and bytes to `conhdr`. A rejected send is recorded, stops the loop and sends nothing |
| `Dispatch.DisconnectSilencesBroadcast` | src/service.cpp:100-107 | `Disconnect` stops the transport and clears `booted`, and a broadcast afterwards changes nothing |
| `Dispatch.LaterFailureOverwrites` | src/service.cpp:64-66 | each recorded failure overwrites `ep`: a remote exception followed by a failed broadcast leaves the send error |
| `Dispatch.RunWhenStopped` | src/service.cpp:95 | once the transport is stopped, the loop delivers nothing more |
| `Dispatch.RunSendsOnlyAnswers` | src/service.cpp:18-68 | a run only appends to the outbox, at most one frame per event. Each appended frame is the handshake, sent to a connection whose open event was delivered, or a reply carrying the id of a request delivered on the connection it is sent to |
| `Dispatch.RunBootsOnlyOnAcceptedReply` | src/service.cpp:28-34 | a run never clears `booted`, and sets it only if it delivered a reply with the accepted magic |
| `Dispatch.RunRecordsOnlyWhenStopping` | src/service.cpp:64-67 | a run changes the error cell only together with stopping the transport |
| `Dispatch.RunTwo` | src/service.cpp:95 | with a running transport, two events are delivered in order, and the second is dropped once the first stops the transport |
| `Dispatch.HandshakeSucceeds` | src/service.cpp:77-95 | open followed by the accepted reply yields a booted, running client with no error, and the handshake as the only frame sent |
| `Dispatch.MagicMismatchFails` | src/service.cpp:29-34 | open followed by a reply with another NUL-free magic m stops with "Expected magic WS-GATEWAY OK, got " + m, unbooted, after sending only the handshake |
| `Gateway.Service.constructor` | include/ws-gw.h:169 | a new service is unbooted and unstopped, has no error, connection, frames or registered handlers, and has the given default handler |
| `Gateway.Service.RegisterHandler` | include/ws-gw.h:171 | registration is `emplace`: the first handler registered under a name stays |
| `Gateway.Service.Fail` | src/service.cpp:64-67 | the catch-all stores the exception in `ep` and stops the transport |
| `Gateway.Service.Transmit` | src/service.cpp:113-118 | a send appends the frame, or records the transport's exception and stops |
| `Gateway.Service.OnMessage` | src/service.cpp:18-68 | the fields change exactly as `Dispatch.OnMessage` says, and the handler table is untouched |
| `Gateway.Service.OnOpen` | src/service.cpp:77-90 | the fields change exactly as `Dispatch.OnOpen` says |
| `Gateway.Service.Disconnect` | src/service.cpp:100-103 | the transport is stopped and `booted` is false. Nothing else changes |
| `Gateway.Service.Broadcast` | src/service.cpp:105-119 | the fields change exactly as `Dispatch.Broadcast` says |
| `Gateway.Service.Connect` | src/service.cpp:70-98 | a malformed endpoint throws `ParseFailed` with the transport's message and changes nothing. Otherwise the loop leaves the state `Dispatch.Run` gives, and `Connect` throws the stored error exactly when `ep` is set |

## Left out

- Transport plumbing is not modelled: `init_asio`, the user agent, the logging channels, `ws.connect`, and how websocketpp parses endpoints, frames messages, and reports open and close. These are I/O in a library outside the core. What the core observes of them is a parameter.
- Concurrency is not modelled: the header's `flag`, `mtx` and `cv`, and calls to `Broadcast` or `Disconnect` from another thread while `OnMessage` runs. Each method call is one atomic step. Data races on `booted` and `ep` are not modelled.
- `Wait` is declared in the header without an implementation. `OnStop`, `onstop` and `ServiceDesc` are never used by the code. The handshake's descriptor fields are fixed in the open handler.
- FlatBuffers encoding, decoding and verification are abstracted. proto/service_generated.h is not part of this model. Decoded messages are datatypes. The model assumes that a verified message has the fields the code dereferences (`magic`, `key`, `payload`). Dereferencing a missing field would be undefined behaviour in the code.
- proto/shared_generated.h is generated glue, and is modelled only through the `Exception` packet's message.
- Memory-allocation failures, which can occur while building packets, are not modelled.
- Exceptions thrown by `ws.stop()` or by `ws.connect` are not modelled.
- `BufferView` over borrowed storage is modelled as a copy of the bytes. The lifetime of the storage and aliasing are not captured. The deleted copy assignment has no counterpart.
- Buffers.Contents: for a null `data()` with size 0, the conversions are modelled as giving empty bytes. Passing a null pointer with length 0 to the `std::string` constructor is not further distinguished.
- `Buffers.ViewStr`, `Buffers.Str`: `std::string` and `std::string_view` are both modelled as a sequence of chars, and so are the two byte-string types. Each pair of overloads is one function.
- Strings (messages, keys, magics, text payloads) are sequences of 8-bit chars (`Buffers.CppString`), as a `std::string` holds them. Text encodings are not interpreted.
- Handlers: a general asynchronous handler that completes later, or from another thread, is modelled only by the callback calls it makes within one invocation.
- `Dispatch.Run` models the loop over a finite sequence of delivered events. A loop that never ends is not modelled.

## Findings

| source | as written | input that shows it | evidently intended | confidence | as-written member | corrected member |
|---|---|---|---|---|---|---|
| include/ws-gw.h:176 | `cb(std::make_exception_ptr(ex), {})` with `ex` bound as `std::exception const &`. `make_exception_ptr` takes its argument by value, so it copies only the `std::exception` base. The callback receives a plain `std::exception`, whose `what()` is the library's fixed "std::exception" | a synchronous handler that throws `std::runtime_error("boom")` | the callback receives the exception the handler threw (`std::current_exception()`), with `what()` "boom" | medium (not executed) | `Handlers.AdaptedAsWritten`, stored by `Handlers.Registry.RegisterSyncHandler` and shown by `Handlers.AdaptedAsWrittenSlicesException` | `Handlers.Adapted`, proved by `Handlers.AdaptedPassesThrownException` and `Handlers.AdaptedCallsOnce` |
