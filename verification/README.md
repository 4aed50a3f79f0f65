# nativepg: a Dafny model

nativepg is a PostgreSQL client whose protocol logic is separated from its sockets: state
machines consume messages and say what to do next. This project models those machines and
proves what they promise, for every input and every run. `dafny verify dfyconfig.toml` checks
all of it.

Each component comes in two layers. Functions on a snapshot of the state give the meaning of
each operation, and the theorems are about them. Classes and methods with loops have the form
of the source, change their fields in place, and are proved equal to those functions. Failed
assertions, reads past the end of a request or outside a table are outcomes of the functions
(`Fault`, `Asserted`, `ReadPastTheEnd`, `OutOfBounds`), so that safety is a theorem, or has an
exact condition, and is not a precondition.

The functions are not their own specification: each has a counterpart that shares nothing with it,
and a theorem that connects the two. The response machine is proved against a regular expression and
a script of callbacks, the queue of a shared connection against the grammar for any server, the pool
against the history of its events, the serializers against a server that reads the bytes, the SCRAM
client against a server of RFC 5802, base64 against RFC 4648, and the setups against the shape of a
request, each in both directions.

| file | component |
|---|---|
| `Messages` | frontend and backend messages, error codes, framing |
| `CheckRequest`, `RequestBuilder`, `RequestOperations`, `RequestServer` | the static check of a request, how a request is built and serialized, and a server that does what it asks for |
| `ResponseFsm`, `Grammar`, `DocumentedGrammar`, `Verdicts`, `Callbacks`, `Script`, `Delivery` | the machine that reads one reply: safety, the language it accepts against the documented one, its errors, the callbacks it makes |
| `Multiplexer`, `Demultiplexing`, `AnyServer` | one connection shared by many requests, with cancellation, writes and reconnections, for an honest server and for any other |
| `ConnectionPool`, `PoolHistory` | pooled connections, the state they share, the calls that wait for one, and what their states say about the past |
| `ReadBuffer`, `ByteStream`, `CopyOut`, `CopyLoop`, `Reader` | bytes to messages, the read loop, COPY OUT for every cut of the stream, the reader of a shared connection |
| `Routing`, `Setups`, `ResultsetHandler`, `QuerySlice`, `HandlerResults` | a response of several handlers, which requests it fits, and the handler of one resultset |
| `DataRows`, `ParsingViews`, `ParsingErrors`, `FlatStorage` | rows, row descriptions and mechanism lists with their lazy views and their errors, and the storage of several resultsets |
| `NotificationQueue` | notifications and backpressure |
| `Numeric` | significant digits of numerics |
| `Base64`, `Rfc4648`, `Scram`, `ScramServer`, `ErrorFields`, `Startup`, `StartupMessages` | authentication, the fields of errors, and startup |

## Assumptions

They are preconditions of the lemmas, or part of what an event is.

- Requests have passed the static check before they reach the machine or the queue
  (src/co_multiplexed_connection.cpp:175).
- The server is honest, for the theorems on demultiplexing: it answers the requests it was sent
  in order, each with a word of the reply grammar, with asynchronous messages anywhere, and it
  starts a COPY OUT only in the reply to a request that was cancelled, because replies are read
  with COPY off.
  `AnyServer` says what every other message does, and `Demultiplexing.UnsolicitedMessage` exactly
  when the queue handles it without a failed assertion and with its count intact.
- Coroutines interleave only where they wait, and waking one up does not run it at once.
  `cancel_one` wakes one sleeping call if there is any; which one is left open.
- A response is freshly constructed, because its setup does not reset the current slice:
  `Routing.RoutedRightExactly` and `Routing.SecondUseExactly` say what becomes of one that is not.
- The error codes of malformed message bodies come from a parser that is a parameter; the
  framing around it is modelled.
- HMAC and H are arbitrary functions with digests of 32 bytes.
- Messages fit in 31-bit lengths, and buffer sizes in 64 bits.
- Strings in requests have no NUL, because the serializers do not look for one:
  `RequestServer.StringReadBack` says that a string is read back exactly then.

## Where the code differs from what it says

- The comment on `handle_execute` allows no row before a COPY OUT or an empty query; the code
  does (src/read_response_fsm.cpp:129-132). The grammar follows the code, and
  `DocumentedGrammar.DocumentedExactly` says which of the words it takes are not documented. The
  comment also leaves out an error inside a COPY OUT, which the one on `handle_query` has
  (src/read_response_fsm.cpp:241-243); the documented grammar has it for both.
- A flush opens a batch for the static check, so a flush followed by a query is refused
  (src/nativepg_internal/check_request.hpp:51): `CheckRequest.FlushThenQueryIsRefused`.
- A message that no written request waits for, while requests are pending, fails an assertion if
  the oldest pending request is alive, and otherwise drops cancelled elements without adjusting
  `num_pending_`, so that the next cleanup would start before the queue
  (src/nativepg_internal/multiplexed_connection/multiplexer.hpp:88-112). The exact condition is
  `Demultiplexing.UnsolicitedMessage`.
- `resultset_setup` says that no sync may stand between describe and execute and accepts one
  (src/responses.cpp:92-99). The handler of one resultset also fails an assertion on the second
  resultset of a query (include/nativepg/responses/resultset_callback.hpp:103-107), and on an
  empty query (include/nativepg/responses/resultset_callback.hpp:84-89).
  `QuerySlice.SafeSlicesExactly` says which of the slices that setup accepts are safe, and
  `QuerySlice.QuerySliceExactly` and `ResultsetHandler.DescribedBeforeRows` on which replies;
  `QuerySlice.EmptyQueryBreaks` gives a failing reply for every slice.
- A resultset without columns reports no rows, however many it has
  (include/nativepg/responses/rows_view.hpp:150): `FlatStorage.StoreAll` and
  `FlatStorage.StoreWithoutColumns`.
- The binary count of significant digits is wrong exactly when the first group is zero and
  another one is not (include/nativepg/types/numeric.hpp:81-84): `Numeric.BinaryCountExact`.
- An error with the SQLSTATE 00000 counts as success during startup
  (include/nativepg/sqlstate.hpp:73): `Startup.SuccessIsStartupExactly`.
- Unknown fields of errors are meant to be ignored, but only their letter is; the value behind it
  is read as more fields (src/messages.cpp:185-204). `ErrorFields.NoticeExactly` says what is read
  of every message, `ErrorFields.UnknownIgnoredExactly` when unknown fields are ignored, and
  `Startup.UnknownFieldCountsAsApproval` that one can turn a refused startup into a success.
- A byte from 128 on in a salt or a verifier is looked up outside the base64 table, because
  characters are signed and the index is unsigned (src/nativepg_internal/base64.cpp:126-146):
  `Base64.OutOfBoundsExactly`, `Scram.SaltOutOfBoundsExactly` and
  `Scram.VerifierOutOfBoundsExactly`.
- The parser of the server's first SCRAM message looks for a comma after `m` where the grammar
  in its comment has an equals sign
  (src/nativepg_internal/scram_sha256_messages.hpp:141-146): `Scram.MandatoryExtensionExactly`.
- COPY data collected in a batch before a message that ends the reply with an error is not handed
  out, so what the caller gets depends on how the stream was cut into reads
  (include/nativepg/protocol/detail/exec_some_fsm.hpp:121-135). The cut does not matter if and only
  if the reply is not over, or no data stands between the last CopyDone or ErrorResponse and the
  message that ends it: `CopyOut.EveryCutHandsOutAll`; `CopyOut.TheCutMatters` is a stream where it
  does.
- A serializer that fails leaves its bytes in the payload of the request although the type is not
  noted, and a message whose length does not fit is not reported
  (include/nativepg/request.hpp:78-85,
  include/nativepg/protocol/detail/serialization_context.hpp:104-105). The payload is made of
  packets of the noted types if and only if neither happened: `RequestBuilder.PayloadSplitsExactly`;
  `RequestBuilder.FailedAdditionPassesTheCheck` is a request that is sent all the same.
- A request to encrypt is finished as if it had a header, so that its size is stored over its code
  (src/messages.cpp:1022-1030, include/nativepg/protocol/detail/serialization_context.hpp:93-110):
  `StartupMessages.EncryptIsLost`. A cancel request is intact if it is alone in its buffer; what
  becomes of one that is not is `StartupMessages.CancelExactly`.
- Nothing empties the read buffer between two connections of a shared connection, so that the next
  startup reads what was left first (src/co_multiplexed_connection.cpp:133-169):
  `Reader.NextStartupExactly` and `Reader.HalfAMessageIsLeft`.

## Model

| member | source | states |
|---|---|---|
| `CheckRequest.Check` | src/nativepg_internal/check_request.hpp:30-62 | the loop gives the empty-request error for an empty request; the mixing error exactly if a query stands directly behind a message that leaves a batch open; otherwise the missing-sync error exactly if the last message leaves one open; and otherwise accepts, which is that every batch is closed and holds no query |
| `CheckRequest.AcceptedIffUnits` | src/nativepg_internal/check_request.hpp:19-29 | a request is accepted if and only if it is a non-empty sequence of units, each a single query or extended messages ended by their only sync |
| `CheckRequest.FlushThenQueryIsRefused` | src/nativepg_internal/check_request.hpp:51-53 | every request that starts with a flush and a query is refused as mixing protocols |
| `RequestBuilder.PayloadSplitsExactly` | include/nativepg/request.hpp:78-85 | for every sequence of added messages, those that threw included: the payload splits into packets whose letters are those of the noted types, with the bodies as added, if and only if every serializer succeeded and every length fits |
| `RequestBuilder.FailedAdditionPassesTheCheck` | include/nativepg/request.hpp:70-85 | a parse that fails and then a query: the static check accepts the request and its payload is not made of packets |
| `RequestBuilder.Request.Add` | include/nativepg/protocol/detail/serialization_context.hpp:77-115 | the bytes that a message adds, with its length stored last if it fits and no error was noted, and whether its type is noted |
| `RequestBuilder.Request.AddAll` | src/request.cpp:22-64 | several messages: the bytes and types of those up to the first that throws |
| `RequestBuilder.SerializeParams` | src/messages.cpp:761-787 | the parameters of a bind are the number and the fields of a row, each length stored when the next parameter starts; it fails exactly if a parameter does, a length does not fit or there are too many |
| `RequestBuilder.LettersAre` | src/messages.cpp:817-1043 | the letters are those of the protocol |
| `RequestOperations.Perform` | src/request.cpp:22-91 | each operation throws exactly if a serializer fails, and otherwise adds the bytes and types of its messages, in order |
| `RequestOperations.AddParse` | src/messages.cpp:870-893 | the body of a parse, with its type oids; it fails exactly if there are too many |
| `RequestOperations.AddBind` | src/request.cpp:66-91 | the body of a bind, with formats and parameters; it fails exactly if the parameters do |
| `RequestOperations.AutosyncIsAccepted` | include/nativepg/request.hpp:87-92 | with autosync on, any operations of which none fails build a request that the static check accepts |
| `RequestServer.ServerDoesWhatIsMeant` | src/request.cpp:22-91 | for every sequence of operations and every session, with autosync or without: a server that reads the payload byte by byte, and keeps statements and portals, runs the queries in their order, each with its own parameters, formats and row limit, and the describes, closes and syncs between them; a statement is executed with the query it was last prepared for, and an error comes exactly if it is not prepared then |
| `RequestServer.BindUnderstood` | src/messages.cpp:817-838 | the server reads portal, statement, format codes, values and result codes from the body of a bind |
| `RequestServer.ParseUnderstood` | src/messages.cpp:870-893 | the server reads name, query and oids from the body of a parse |
| `RequestServer.StringReadBack` | include/nativepg/protocol/detail/serialization_context.hpp:50-54 | a string is read back exactly if it has no NUL |
| `RequestServer.NulCutsTheQuery` | src/messages.cpp:1032-1044 | a query with a NUL is cut off and not understood |
| `ResponseFsm.AcceptedRequestIsSafe` | src/read_response_fsm.cpp:366-397 | for an accepted request and every message sequence: no assertion fails, the request is never read out of range by the flush and skip loops, `current_` stays in range, and success is returned exactly when it reaches the end |
| `ResponseFsm.ResumeGood` | src/read_response_fsm.cpp:366-397 | one message: a consistent machine stays consistent or ends, never faults, and the ReadyForQuery messages it still expects go down by one exactly on a ReadyForQuery |
| `ResponseFsm.NextSyncSafe` | src/read_response_fsm.cpp:42-54 | in an open batch the skip loop always finds a sync and skips no query |
| `ResponseFsm.ReadyConservation` | src/nativepg_internal/multiplexed_connection/multiplexer.hpp:54-59 | in every reachable state that still reads, the ReadyForQuery messages consumed plus those expected for the remaining messages are those expected for the whole request |
| `ResponseFsm.AbandonStopsAtTheEnd` | src/nativepg_internal/multiplexed_connection/multiplexer.hpp:132-153 | after any part of an accepted reply, the rest holds exactly the ReadyForQuery messages expected for the remaining messages, and the last of them is its last message: counting them stops where reading would have |
| `ResponseFsm.ReadResponseFsm.ResumeInPlace` | src/read_response_fsm.cpp:366-397 | the in-place machine takes the step of the function, makes its callbacks, never faults, and ends in success exactly at the end of the request |
| `ResponseFsm.ReadResponseFsm.HandleErrorInPlace` | src/read_response_fsm.cpp:33-55 | the error is reported, and every message but flushes up to the next sync is reported as skipped |
| `ResponseFsm.ReadResponseFsm.SkipToSync` | src/read_response_fsm.cpp:42-51 | the loop stops at the first sync and has noted exactly the skipped messages |
| `ResponseFsm.ReadResponseFsm.HandleExecuteInPlace` | src/read_response_fsm.cpp:127-203 | the new state, verdict and callbacks for every state and message of an execute |
| `ResponseFsm.ReadResponseFsm.HandleQueryInPlace` | src/read_response_fsm.cpp:232-364 | the same for a query |
| `ResponseFsm.ReadResponseFsm.HandleDescribeInPlace` | src/read_response_fsm.cpp:101-125 | the same for a describe, with a made-up row description for NoData |
| `ResponseFsm.ReadResponseFsm.RemainingMessages` | include/nativepg/protocol/read_response_fsm.hpp:51-54 | the messages from `current_` on, which with those before make up the request |
| `Grammar.LanguageEquivalence` | src/read_response_fsm.cpp:127-364 | for every accepted request and every word: the machine reads it and ends in success at its last message if and only if, asynchronous messages aside, it is in the grammar built per request message, with the skip-to-sync rule, and it does not end with an asynchronous message |
| `Grammar.ResumeStep` | src/read_response_fsm.cpp:366-397 | one message: the grammar of what is left starts with it exactly when the machine takes it and stays inside the grammar |
| `Verdicts.VerdictExactly` | src/read_response_fsm.cpp:57-397 | for every accepted request, COPY on or off, every word that still reads and every message: done exactly if the word is now a reply, going on exactly if it can be continued to one, otherwise an error without callbacks, which is that COPY is not allowed exactly for a COPY OUT that the grammar with COPY has there |
| `Verdicts.CanFinish` | src/read_response_fsm.cpp:366-397 | from every state between two messages there is a way to the end of the reply |
| `DocumentedGrammar.DocumentedExactly` | src/read_response_fsm.cpp:127-166 | for every accepted request and every word: the machine accepts it and no row is directly followed by a COPY OUT or an empty query, asynchronous messages aside, if and only if it is a documented reply that does not end with an asynchronous message; an accepted word is documented if and only if it has no such pair |
| `DocumentedGrammar.DocumentedIffTidy` | src/read_response_fsm.cpp:129-132 | the documented replies are exactly the words of the grammar of the code without such a pair |
| `DocumentedGrammar.RowsBeforeEmptyQuery` | src/read_response_fsm.cpp:152-166 | a reply with a row before an empty query response is accepted and not documented |
| `DocumentedGrammar.RowsBeforeCopyOut` | src/read_response_fsm.cpp:139-166 | a reply with a row before a COPY OUT is accepted and not documented |
| `Callbacks.CallbackDiscipline` | src/read_response_fsm.cpp:33-55 | in every successful run: offsets never decrease, sync and flush get no callback, each extended message gets exactly one finishing callback, each query at least one, and the skip notes go to exactly the messages between a failed one and the next sync |
| `Callbacks.RunFromStart` | src/read_response_fsm.cpp:65-220 | the same discipline at every point of every run that has not failed |
| `Script.CallbacksAreTheScript` | src/read_response_fsm.cpp:57-364 | for every accepted request, COPY on or off, and every word that is still read or ends the reply: the callbacks, event by event and offset by offset, are those of a script that knows only the messages; NoData, CopyOutResponse and a CommandComplete that starts a resultset of a query give one made-up description each, and nothing else does |
| `Delivery.EveryMessageIsDeliveredOnce` | src/read_response_fsm.cpp:65-364 | in every run that still reads and for every accepted reply, the handler was given exactly the messages of the server that are for it, each once, in order and unaltered |
| `Multiplexer.RequestQueue.AddRequest` | src/nativepg_internal/multiplexed_connection/multiplexer.hpp:162-171 | a pending element at the end, counted as pending |
| `Multiplexer.RequestQueue.CancelRequest` | src/nativepg_internal/multiplexed_connection/multiplexer.hpp:173-206 | the element loses its request; if it was written, what has to be discarded is counted from what was read so far, or from the whole request |
| `Multiplexer.RequestQueue.WritePending` | src/nativepg_internal/multiplexed_connection/multiplexer.hpp:208-240 | the buffer is exactly the payloads of the pending requests that were not cancelled, in order, and those are now in flight |
| `Multiplexer.RequestQueue.BeginReply` | src/nativepg_internal/multiplexed_connection/multiplexer.hpp:86-112 | cancelled elements that were never written are dropped; the stream reads or ignores the reply of the first other one, or there is none |
| `Multiplexer.RequestQueue.HandleMessage` | src/nativepg_internal/multiplexed_connection/multiplexer.hpp:242-257 | where the assertions of the source hold: the state, the error (unmatched request included) and the effects of the step, which `AnyServer` says in terms of the grammar; the queue stays valid exactly if its count still fits |
| `Multiplexer.RequestQueue.FailWritten` | src/nativepg_internal/multiplexed_connection/multiplexer.hpp:262-273 | the written elements leave, those not cancelled with an error, in order; the pending ones stay |
| `Demultiplexing.EveryHandlerSeesItsReply` | src/nativepg_internal/multiplexed_connection/multiplexer.hpp:82-153 | in every run of submissions, cancellations, writes, messages and lost connections, the callbacks made on a handler are exactly those of its own machine on the part of its own reply sent before its cancellation |
| `Demultiplexing.EveryHandlerHearsTheScript` | src/nativepg_internal/multiplexed_connection/multiplexer.hpp:82-153 | in every run the callbacks made on a handler are the script of the part of its own reply sent before its cancellation |
| `Demultiplexing.EveryMessageIsRouted` | src/nativepg_internal/multiplexed_connection/multiplexer.hpp:114-146 | every message of an honest server has effects on the request it answers only: none if cancelled, else its callbacks, and its completion exactly with the last message; no fault, no protocol error |
| `Demultiplexing.EveryRunIsOrdered` | src/nativepg_internal/multiplexed_connection/multiplexer.hpp:162-240 | completions and writes come in the order of submission and so at most once each, across reconnections; nothing happens to a request after its cancellation; success is reported only after its whole reply |
| `Demultiplexing.EveryQueueIsSplit` | src/nativepg_internal/multiplexed_connection/multiplexer.hpp:262-298 | in every run `num_pending_` is the length of the suffix of elements not written; cleanup fails exactly the written ones that were not cancelled and keeps that suffix |
| `Demultiplexing.EveryWriteIsThePayloads` | src/nativepg_internal/multiplexed_connection/multiplexer.hpp:208-240 | in every run a write puts on the connection exactly the payloads of the requests it marks as written |
| `Demultiplexing.EveryRunIsServed` | src/nativepg_internal/multiplexed_connection/multiplexer.hpp:95-112 | in every run everything the in-place queue requires holds: the shape of its elements and the count, a consistent machine with COPY off while a reply is read, a written request in front of the pending ones while a reply is in progress or starts; so none of its assertions fails |
| `Demultiplexing.UnsolicitedMessage` | src/nativepg_internal/multiplexed_connection/multiplexer.hpp:88-112 | in every run, for every message of any server: no assertion fails and the count fits if and only if the message is asynchronous, a written request waits for a reply, or nothing is pending |
| `Demultiplexing.CountSurvivesExactly` | src/nativepg_internal/multiplexed_connection/multiplexer.hpp:88-97 | for every queue of the right shape: `num_pending_` fits after a message if and only if it is not the case that nothing waits for a reply and the oldest pending request was cancelled |
| `Demultiplexing.UnsolicitedMessageFailsTheAssertion` | src/nativepg_internal/multiplexed_connection/multiplexer.hpp:106-109 | a message after one submission and before any write fails the assertion |
| `Demultiplexing.UnsolicitedMessageBreaksTheCount` | src/nativepg_internal/multiplexed_connection/multiplexer.hpp:93-97 | a run of three events after which the queue is empty and one request counts as pending |
| `Demultiplexing.PingRuns` | src/nativepg_internal/multiplexed_connection/multiplexer.hpp:156-257 | two concrete honest runs: one request completes, and one cancelled in flight is discarded |
| `AnyServer.AnyMessageIsJudged` | src/nativepg_internal/multiplexed_connection/multiplexer.hpp:114-130 | after any run, while a request that was not cancelled waits for its reply or is in the middle of it, for every message of any server: effects, error and queue are those of a reply that is over, goes on, or has no such message |
| `AnyServer.CompletedExactly` | src/nativepg_internal/multiplexed_connection/multiplexer.hpp:114-130 | then: success is reported exactly if what was heard is now a reply; an error exactly if it cannot be continued to one, as the only effect and to the reader; it is that COPY is not allowed exactly for a COPY OUT where a resultset may start |
| `AnyServer.AnyMessageIsDiscarded` | src/nativepg_internal/multiplexed_connection/multiplexer.hpp:132-153 | while a cancelled request waits for its reply: no effect and no error, whatever comes, and the reply is over exactly with the last ReadyForQuery that the request expects |
| `AnyServer.UnmatchedMessage` | src/nativepg_internal/multiplexed_connection/multiplexer.hpp:88-97 | when nothing was written and nothing is pending, a message is reported as unmatched and has no effect |
| `AnyServer.AsyncMessage` | src/nativepg_internal/multiplexed_connection/multiplexer.hpp:242-257 | an asynchronous message changes nothing |
| `AnyServer.CopyOutIsReported` | src/nativepg_internal/multiplexed_connection/multiplexer.hpp:119-130 | a query in flight that is answered with CopyOutResponse fails, and the error is reported |
| `ConnectionPool.ToCreate` | src/nativepg_internal/connection_pool/sansio_connection_node.hpp:197-225 | the least number of connections that serves every waiting request and the initial size, or fills the pool |
| `ConnectionPool.NoLostWakeUp` | src/nativepg_internal/connection_pool/connection_pool_impl.hpp:172-213 | in every run, while a call sleeps the idle connections are at most the woken calls; when none is woken, no connection is idle; a stopped pool has no sleeping call |
| `ConnectionPool.SharedStateIsExact` | src/nativepg_internal/connection_pool/connection_node.hpp:113-120 | in every run the idle list is exactly the idle connections without repeats, the counters count, the size is bounded, each call is in exactly one place, and the assertions on the idle list, the counters and the sizes hold |
| `ConnectionPool.ExclusiveOwnership` | src/nativepg_internal/connection_pool/connection_node.hpp:211-239 | in every run a connection is in use exactly when exactly one of a handle and an uncollected return exists, no two connections have the same holder, and a return always leaves its signal |
| `ConnectionPool.HeldUntilGivenBack` | src/nativepg_internal/connection_pool/sansio_connection_node.hpp:149-189 | whatever happens, a held connection is not pinged, reset, reconnected or handed out until its holder gives it back |
| `ConnectionPool.EverySleeperIsServed` | src/nativepg_internal/connection_pool/connection_pool_impl.hpp:65-90 | unless the pool coroutine was notified and has not run, a running pool has a connection getting ready for every sleeping call, or is full |
| `ConnectionPool.GivenBackBecomesIdle` | src/nativepg_internal/connection_pool/sansio_connection_node.hpp:163-185 | a connection given back is idle and listed again after the next step of its coroutine, reset or not; that step is possible exactly if the coroutine has not exited |
| `ConnectionPool.SomeRun` | src/nativepg_internal/connection_pool/connection_pool_impl.hpp:121-213 | a concrete run: a call sleeps, the connection created for it connects and wakes it, and it gets that connection |
| `PoolHistory.StatesFollowTheHistory` | src/nativepg_internal/connection_pool/sansio_connection_node.hpp:149-189 | in every run, for every connection: what it does is what the events so far make due (connect first, sleep and connect again after a failed connect, connect after a failed ping or reset, reset if it was given back with one, ping if nobody has it when its wait is over), and so was all it ever did; who has it is what the events say; and if it is idle, in use, pinged or reset, its last connect went well and no ping or reset failed since |
| `PoolHistory.AnswersAreRight` | src/nativepg_internal/connection_pool/connection_pool_impl.hpp:172-213 | in every run an event never changes an answer; a connection is handed out only while the pool is not stopped, and is the first of the idle list; a call fails only if the pool is stopped, or it was asked to stop and no connection is idle |
| `PoolHistory.OldestIdleFirst` | src/nativepg_internal/connection_pool/connection_pool_impl.hpp:100-112 | in every run the idle list is in the order in which its connections became idle |
| `PoolHistory.StoppedCallsDoNotSleep` | src/nativepg_internal/connection_pool/connection_pool_impl.hpp:184-212 | in every run no call that was asked to stop sleeps |
| `ConnectionPool.SharedPool.ChangeStatus` | src/nativepg_internal/connection_pool/sansio_connection_node.hpp:113-133 | the new status with the list, the counter and the wake-up of the hooks |
| `ConnectionPool.SharedPool.RunNode` | src/nativepg_internal/connection_pool/connection_node.hpp:150-232 | the coroutine of a connection from one wait to the next, and the action that it goes on with; the invariant is kept |
| `ConnectionPool.SharedPool.MarkAsCollectable` | src/nativepg_internal/connection_pool/connection_node.hpp:234-239 | the return is noted and signalled; the invariant is kept |
| `ConnectionPool.SharedPool.Populate` | src/nativepg_internal/connection_pool/connection_pool_impl.hpp:65-80 | the loop adds exactly the connections to create |
| `ConnectionPool.SharedPool.TryTake` | src/nativepg_internal/connection_pool/connection_pool_impl.hpp:100-112 | the first idle connection goes to the call, or nothing changes |
| `ConnectionPool.SharedPool.StartCall` | src/nativepg_internal/connection_pool/connection_pool_impl.hpp:172-193 | a call fails, takes a connection or sleeps; the invariant is kept |
| `ConnectionPool.SharedPool.GoOn` | src/nativepg_internal/connection_pool/connection_pool_impl.hpp:193-212 | a woken call fails, takes a connection or sleeps again; the invariant is kept |
| `ConnectionPool.SharedPool.CancelPool` | src/nativepg_internal/connection_pool/connection_pool_impl.hpp:148-155 | the pool stops and every sleeping call is woken |
| `ReadBuffer.NextPowerOf2` | include/nativepg/protocol/detail/read_buffer.hpp:26-31 | the smallest power of two not below n, less than twice n; the largest size if none fits |
| `ReadBuffer.Buffer.Prepare` | include/nativepg/protocol/detail/read_buffer.hpp:75-105 | the committed bytes are unchanged, there is room for the required ones, memory is allocated exactly if both do not fit, and then the size at least doubles and stays below twice their sum |
| `ReadBuffer.Buffer.MoveToFront` | include/nativepg/protocol/detail/read_buffer.hpp:86-92 | moving the committed area in place does not alter it |
| `ReadBuffer.Buffer.Reallocate` | include/nativepg/protocol/detail/read_buffer.hpp:94-104 | a new array holds the same committed bytes at its front |
| `ReadBuffer.Buffer.Commit` | include/nativepg/protocol/detail/read_buffer.hpp:108-108 | the first prepared bytes, as many as there are, join the committed ones |
| `ReadBuffer.Buffer.Consume` | include/nativepg/protocol/detail/read_buffer.hpp:111-111 | the first committed bytes, as many as there are, leave |
| `ReadBuffer.Replay` | include/nativepg/protocol/detail/read_buffer.hpp:44-112 | for every sequence of prepares, writes, commits, consumptions and resets in any order, offsets, capacity and every known byte are those of the abstract buffer |
| `ReadBuffer.FirstInFirstOut` | include/nativepg/protocol/detail/read_buffer.hpp:63-112 | the queue of the abstract buffer after any sequence is what was there and what was committed, in order, without as many bytes at its front as were taken out |
| `ByteStream.ParseStable` | src/messages.cpp:1046-1071 | a message or an error stays what it is when more bytes arrive, and fewer bytes than the missing ones complete nothing |
| `ByteStream.MissingBytesAgrees` | src/messages.cpp:1075-1095 | the number of missing bytes is that of the parser, and zero exactly if the parser has a message or an error |
| `ByteStream.ParseExactly` | src/messages.cpp:1046-1071 | the parser gives a message exactly if the bytes start with the frame of a body that is one, and an error exactly if they start with the frame of a malformed body or a length below four |
| `ByteStream.FramesRoundTrip` | src/messages.cpp:1046-1071 | every list of messages comes back from its frames |
| `Messages.Int32IsBigEndian` | src/parse_context.hpp:77-86 | an integer is the value of its bytes in base 256, the first one most significant, in two's complement |
| `DataRows.Int16IsBigEndian` | src/parse_context.hpp:77-86 | the same for 16 bits |
| `ByteStream.WholeAppend` | src/exec_fsm.cpp:45-77 | reading a stream is reading its first part and continuing with the rest, wherever it is cut |
| `ByteStream.WholeIsRun` | src/exec_fsm.cpp:47-56 | reading bytes makes the callbacks and ends as the machine does on the messages of the stream |
| `CopyOut.ConsumedIsTheReply` | src/exec_fsm.cpp:47-56 | what a reply that ends consumes is exactly its messages, the last one included |
| `ByteStream.Execute` | src/exec_fsm.cpp:45-77 | whatever the sizes of the reads, the loop makes the callbacks and ends as reading the whole stream at once does, and leaves exactly the unread suffix |
| `CopyLoop.ProcessBatch` | include/nativepg/protocol/detail/exec_some_fsm.hpp:104-162 | one batch does not touch the buffer, hands out exactly the data it yields, and tells that copies begin and end where its messages do, for every way it can end |
| `CopyLoop.ReadMessages` | src/co_connection.cpp:66-88 | reads until the buffer starts with a whole message; no byte is lost |
| `CopyLoop.ExecuteSome` | include/nativepg/protocol/detail/exec_some_fsm.hpp:97-163 | whatever the sizes of the reads, the reply ends as on the whole stream; the caller is told that a copy begins and that it is over exactly where the messages say so; the data handed out is the start of the data of the reply without what the last batch lost, which is the end of what the stream leaves open; all of it if the stream leaves nothing open, the reply ends well or the connection has no more data |
| `CopyOut.NothingLost` | include/nativepg/protocol/detail/exec_some_fsm.hpp:109-135 | a batch that needs more bytes, or ends the reply well, loses nothing |
| `CopyOut.BatchesConserve` | include/nativepg/protocol/detail/exec_some_fsm.hpp:97-163 | for every way of cutting a stream into batches: handed out, then lost, then still to come, is the data of the reply |
| `CopyOut.AnyCut` | include/nativepg/protocol/detail/exec_some_fsm.hpp:97-163 | for every cut of a stream: what was handed out and then what was lost is the data of the reply, what was lost is the end of what would be lost if all came in one batch, and the loop goes on exactly if the reply is not over |
| `CopyOut.EveryCutHandsOutAll` | include/nativepg/protocol/detail/exec_some_fsm.hpp:109-135 | every cut of a stream hands out all its data if and only if the reply is not over, or no data stands between the last CopyDone or ErrorResponse that the machine took and the message that ends the reply |
| `CopyOut.LostIs` | include/nativepg/protocol/detail/exec_some_fsm.hpp:109-159 | what a batch loses is nothing if it needs more bytes, and otherwise the data of the messages after the last end of a copy |
| `CopyOut.EndsWellIsClosed` | include/nativepg/protocol/detail/exec_some_fsm.hpp:127-135 | a reply that ends well leaves no data open |
| `CopyOut.TheCutMatters` | include/nativepg/protocol/detail/exec_some_fsm.hpp:109-122 | one stream, cut in two ways: one hands out the copied byte and the other loses it |
| `CopyOut.CopiedIsThePayload` | include/nativepg/protocol/detail/exec_some_fsm.hpp:143-147 | that data is the payload of every CopyData message among those consumed |
| `Reader.ReadAll` | src/co_multiplexed_connection.cpp:71-131 | whatever the sizes of the reads, the queue, its effects and the notifications are as if the whole stream had been there at once; what is behind the last message is left, and the whole batch if the queue reported an error |
| `Reader.ProcessMessages` | src/co_multiplexed_connection.cpp:84-126 | the inner loop takes every whole message of the buffer and consumes nothing |
| `Reader.PumpAppend` | src/co_multiplexed_connection.cpp:75-128 | what a stream does to the queue is what its first part does, continued with the rest, wherever it is cut |
| `Reader.PumpExactly` | src/co_multiplexed_connection.cpp:84-126 | by the messages of the bytes: if the queue refuses none, all are handled, with their effects, and the notifications are handed on in order; otherwise the reader stops at the first one that is refused, with its error |
| `Reader.BytesAreDemultiplexed` | src/co_multiplexed_connection.cpp:71-131 | after any run, for bytes whose messages an honest server may send, the reader takes them all, and the queue and the log are those of the run continued with these messages |
| `Reader.NextStartupExactly` | src/co_multiplexed_connection.cpp:133-169 | whatever the next server sends, its first message is the first one read if and only if nothing was left in the buffer |
| `Reader.HalfAMessageIsLeft` | src/co_multiplexed_connection.cpp:90-99 | part of a message stays in the buffer |
| `Routing.SetupResultset` | src/responses.cpp:70-126 | the loops compute the slice, the refusal, or the read past the end |
| `Routing.ResultsetSlice` | src/responses.cpp:70-126 | an accepted slice is leading syncs and flushes and one query, or one describe and one later execute among parses, binds, syncs and flushes; the read past the end happens exactly if no message is left |
| `Setups.HandlerExactly` | src/responses.cpp:70-126 | the setup of a handler accepts a part of a request if and only if the part is for it: a query, an extended query, or the expected message, with the syncs and flushes around it |
| `Setups.RefusalsExactly` | src/responses.cpp:70-126 | every refusal is of the wrong type, and the read past the end happens exactly if a resultset is asked for where no message gets callbacks |
| `Setups.PassedExactly` | src/nativepg_internal/check_request.hpp:64-77 | the setup of a response passes if and only if the static check accepts the request and it is cut, without a rest, into one part for each handler |
| `Setups.CheckComesFirst` | src/nativepg_internal/check_request.hpp:64-68 | a request that the static check refuses is refused for the reason of the check, whatever the handlers are |
| `Setups.RejectedExactly` | src/nativepg_internal/check_request.hpp:64-77 | the length error comes exactly if there is a rest, and otherwise the type error |
| `Routing.SetupPartitions` | include/nativepg/responses/response.hpp:22-50 | the slices follow each other and each has a message that gets callbacks |
| `Routing.EveryRunIsGapless` | src/read_response_fsm.cpp:366-397 | in every run, failed ones included, no callback comes before those of every earlier message that gets any |
| `Routing.Response.OnMessage` | include/nativepg/responses/response.hpp:102-113 | the current slice advances by at most one, and that handler alone gets the message |
| `Routing.RouteRun` | include/nativepg/responses/response.hpp:102-113 | for every request and handlers that pass `setup_request`, and every run, each handler is given exactly the callbacks of its slice, in order, and the range assertion holds |
| `Routing.RoutedRightExactly` | include/nativepg/responses/response.hpp:92-107 | for every request and handlers that pass `setup_request` and every run that makes callbacks: they all reach the handlers they are for if and only if the response stands at its first slice |
| `Routing.SecondUseExactly` | include/nativepg/responses/response.hpp:92-107 | a response used twice for the same request: the second run is routed right if and only if the callbacks of the first one never left the first slice |
| `ResultsetHandler.ResultsetCallback.OnMessage` | include/nativepg/responses/resultset_callback.hpp:84-204 | the state after each event, failed assertions included, and the first error |
| `ResultsetHandler.DescribedBeforeRows` | include/nativepg/responses/resultset_callback.hpp:103-186 | for an extended slice, with COPY off and no sync between describe and execute: in every run its handler fails an assertion exactly if the server answers that the query was empty |
| `ResultsetHandler.SafeExactlyInOneBatch` | src/responses.cpp:87-117 | an extended slice is safe for everything the server may answer if and only if no sync stands between its describe and its execute |
| `ResultsetHandler.SyncBetweenIsAccepted` | src/responses.cpp:94-117 | a request with a sync there that passes the static check and the setup |
| `QuerySlice.QuerySliceExactly` | include/nativepg/responses/resultset_callback.hpp:103-186 | for a slice that is a query, with COPY off: in every run its handler fails an assertion exactly if the query was empty or a second resultset is described, and no row or end of a resultset comes before a description |
| `QuerySlice.NotAssertedIsAnnounced` | include/nativepg/responses/resultset_callback.hpp:139-183 | for every slice: where no assertion failed, no row or end of a resultset came before a description |
| `QuerySlice.TwoResultsetsBreak` | include/nativepg/responses/resultset_callback.hpp:103-107 | for every query slice, a reply of two commands that fails the assertion |
| `QuerySlice.EmptyQueryBreaks` | include/nativepg/responses/resultset_callback.hpp:84-89 | for every slice that the setup accepts, a reply that says that the query was empty and fails an assertion |
| `QuerySlice.EmptyQueryAsserts` | include/nativepg/responses/resultset_callback.hpp:84-89 | a request of one query and an empty query response |
| `QuerySlice.QueryIsAccepted` | src/responses.cpp:80-85 | a request of one query passes the static check and the setup |
| `QuerySlice.SafeSlicesExactly` | src/responses.cpp:70-126 | every slice that the setup accepts is safe for everything the server may answer, empty queries aside, if and only if it is an extended query with no sync between describe and execute |
| `HandlerResults.CompleteExactly` | include/nativepg/responses/resultset_callback.hpp:167-186 | a handler that failed no assertion is complete exactly if it was given an end |
| `HandlerResults.FirstTroubleIsReported` | include/nativepg/responses/resultset_callback.hpp:66-96 | the error is that of the first trouble of the slice, and there is none exactly without one |
| `HandlerResults.SuccessIsComplete` | include/nativepg/responses/resultset_callback.hpp:103-204 | for every reply to an extended slice with COPY off and no sync between describe and execute: if no error is reported, the query was not empty and no error has the SQLSTATE 00000, the whole resultset was given |
| `DataRows.ParseDataRow` | src/messages.cpp:440-475 | the loop with its sticky error gives the row, or the first error |
| `DataRows.ParseContext.GetInt32` | src/parse_context.hpp:77-86 | the next integer, or the first error and nothing consumed |
| `DataRows.RowRoundTrip` | src/messages.cpp:422-475 | every row comes back from its message, NULL distinct from empty, and its view ends at the end pointer |
| `DataRows.ParsedRowIsEncoded` | src/messages.cpp:440-475 | an accepted message is the encoding of the fields its view visits, in bounds and as many as declared |
| `DataRows.RowErrorsExactly` | src/messages.cpp:440-475 | after as many fields as are whole, what follows decides which error it is |
| `DataRows.ParseContext.GetString` | src/parse_context.hpp:100-119 | the string up to the next NUL, or the first error and nothing consumed |
| `ParsingViews.ParseRowDescription` | src/messages.cpp:629-664 | the loop with its sticky error gives the columns, or the first error |
| `ParsingViews.WalkVisitsColumns` | src/messages.cpp:603-627 | after a successful check the view visits the declared number of columns, the unchecked string search stays in bounds, and the iterator meets the end pointer |
| `ParsingViews.ColumnsRoundTrip` | src/messages.cpp:603-664 | every row description comes back from its message |
| `ParsingViews.ParsedColumnsAreEncoded` | src/messages.cpp:629-664 | an accepted message is the encoding of the columns its view visits, with known format codes |
| `ParsingViews.ParseSasl` | src/messages.cpp:364-390 | the loop up to the empty string gives the list, or the first error |
| `ParsingViews.WalkVisitsStrings` | src/messages.cpp:477-490 | the view over the list visits as many names as were counted, in bounds, none empty, and ends one byte before the cursor |
| `ParsingViews.MechanismsRoundTrip` | src/messages.cpp:364-390 | every list of mechanisms comes back from its message |
| `ParsingViews.ParsedMechanismsAreEncoded` | src/messages.cpp:364-390 | an accepted list is the encoding of what its view visits |
| `ParsingErrors.ColumnErrorsExactly` | src/messages.cpp:629-664 | the same for columns: too much, incomplete, or an unknown format |
| `ParsingErrors.MechanismErrorsExactly` | src/messages.cpp:364-390 | the same for mechanisms |
| `ParsingErrors.NoticeErrorsExactly` | src/messages.cpp:190-209 | the same for errors and notices |
| `FlatStorage.Resultsets.AddRow` | src/responses.cpp:389-399 | the values of the row follow those stored before, which do not change |
| `FlatStorage.StoreAll` | src/responses.cpp:370-419 | for any number of resultsets with matching column counts, the field at a row and a column is the original one, and the number of rows is right exactly if there are columns or no rows |
| `FlatStorage.StoreWithoutColumns` | include/nativepg/responses/rows_view.hpp:145-150 | a resultset without columns reports no row, however many it has |
| `FlatStorage.HeldIsReadable` | include/nativepg/responses/rows_view.hpp:145-158 | indexing the flat values by row and column reads the field of that row and column |
| `NotificationQueue.EveryNotificationIsReadOnce` | src/nativepg_internal/notification_queue.hpp:34-50 | in every run the two events mirror non-empty and has-space, and each accepted notification is read once and in order, or pending |
| `NotificationQueue.LinksInTurn` | src/nativepg_internal/notification_queue.hpp:60-82 | if connects and disconnects alternate, so do those read or pending, whatever was undone, and the last one says whether the connection is up |
| `NotificationQueue.QueueIsBounded` | src/nativepg_internal/notification_queue.hpp:60-82 | if connects and disconnects alternate, the queue never exceeds the maximum plus two, however long nobody reads |
| `NotificationQueue.BoundIsReached` | src/nativepg_internal/notification_queue.hpp:60-82 | a run that reaches that bound, for every maximum |
| `NotificationQueue.EventQueue.PushDisconnect` | src/nativepg_internal/notification_queue.hpp:61-82 | a disconnect undoes an unread connect, and the events follow |
| `NotificationQueue.EventQueue.TakeEvents` | src/nativepg_internal/notification_queue.hpp:106-123 | everything pending is read, in order |
| `Numeric.TextCount` | include/nativepg/types/numeric.hpp:45-66 | for every text, the count is the number of decimal digits of its value, trailing zeros aside |
| `Numeric.CountBinary` | include/nativepg/types/numeric.hpp:69-99 | the loops compute the binary count, for all groups of 16 bits |
| `Numeric.BinaryCountExact` | include/nativepg/types/numeric.hpp:69-99 | the binary count is that of the represented integer if and only if the first group is not zero, or all are |
| `Numeric.FormsAgree` | include/nativepg/types/numeric.hpp:45-99 | for a text and groups of the same value, wherever the point stands, the text count and the binary count agree if and only if the first group is not zero, or all are |
| `Numeric.LeadingZeroGroupIsCounted` | include/nativepg/types/numeric.hpp:81-84 | the value 5 as the groups 0 and 5 has a text count of 1 and a binary count of 5 |
| `Base64.Encode` | src/nativepg_internal/base64.cpp:74-108 | the loop writes the base64 form |
| `Base64.Decode` | src/nativepg_internal/base64.cpp:112-161 | the loop reads it, finds that it is not base64, or reads outside the table |
| `Base64.RoundTrip` | src/nativepg_internal/base64.cpp:74-161 | every string of bytes comes back from its base64 form |
| `Base64.OutOfBoundsExactly` | src/nativepg_internal/base64.cpp:121-146 | decoding reads outside the table if and only if the text has whole groups and a character from 128 on is looked up before a group fails |
| `Rfc4648.ImplementsRfc4648` | src/nativepg_internal/base64.cpp:24-161 | for every string of bytes, encoding and decoding are those of section 4 of RFC 4648, with its alphabet |
| `Rfc4648.DecodedExactly` | src/nativepg_internal/base64.cpp:112-161 | a text is decoded if and only if it has whole groups and is made of letters up to its padding, and how many bytes it gives |
| `Rfc4648.Vectors` | src/nativepg_internal/base64.cpp:74-108 | the examples of section 10 of RFC 4648 |
| `Scram.ComputeHi` | src/nativepg_internal/scram_sha256_crypt.hpp:115-154 | the loop computes Hi of section 2.2 of RFC 5802 |
| `Scram.ComputeProofs` | src/nativepg_internal/scram_sha256_crypt.hpp:194-265 | the client proof and the server signature of section 3 of RFC 5802 |
| `Scram.ServerFirstRoundTrip` | src/nativepg_internal/scram_sha256_messages.hpp:125-199 | what the server sends in its first message is what the client reads, whatever extensions follow |
| `Scram.SaltOutOfBoundsExactly` | src/nativepg_internal/scram_sha256_messages.hpp:125-183 | for every message: reading it reads outside the base64 table if and only if it has a nonce and a salt of whole groups in which a character from 128 on is looked up, whatever follows |
| `Scram.SomeSaltReadsOutside` | src/nativepg_internal/scram_sha256_messages.hpp:172-182 | a message whose salt starts with the byte 128 does, whatever follows |
| `Scram.VerifierOutOfBoundsExactly` | src/nativepg_internal/scram_sha256_messages.hpp:276-305 | for every message: reading the final message reads outside the base64 table if and only if it is a verifier of whole groups in which a character from 128 on is looked up, and nothing or extensions |
| `Scram.MandatoryExtensionExactly` | src/nativepg_internal/scram_sha256_messages.hpp:140-146 | a mandatory extension is reported exactly for a text that starts with `m,`, and one that starts with `m=` is invalid |
| `Scram.ServerFinalRoundTrip` | src/nativepg_internal/scram_sha256_messages.hpp:276-305 | the signature the server sends is the one the client reads, whatever extensions follow |
| `Scram.AnswersExactly` | src/scram_sha256_fsm.cpp:44-101 | the client answers a message exactly if it is a server's first message whose nonce starts with the client's and whose count is from 1 to 65535, and which error it is otherwise |
| `Scram.FirstExactly` | src/nativepg_internal/scram_sha256_messages.hpp:125-199 | the parser reads nonce, salt and count from a text exactly if the text has that form |
| `Scram.FinalExactly` | src/scram_sha256_fsm.cpp:103-117 | the server's final message is accepted exactly if it is a verifier with the expected signature |
| `ScramServer.HonestRun` | src/scram_sha256_fsm.cpp:24-117 | for every password, nonce, salt, HMAC and H, and every way of writing the count: a server of RFC 5802, with its own texts, keys and transcript made of the bytes it received and sent, reads the nonce, grants the proof, and the client accepts its signature |
| `ScramServer.FirstReceived` | src/nativepg_internal/scram_sha256_messages.hpp:44-104 | the server reads the bare message and the nonce from the bytes of the first message |
| `ScramServer.FinalReceived` | src/nativepg_internal/scram_sha256_messages.hpp:206-266 | the server reads what is signed and the proof from the bytes of the final one |
| `ScramServer.HiIs` | src/nativepg_internal/scram_sha256_crypt.hpp:115-154 | Hi is the exclusive or of all iterations |
| `ScramServer.XorIsBitwise` | src/nativepg_internal/scram_sha256_crypt.hpp:240-256 | the exclusive or is that of all bits of all bytes |
| `ScramServer.Rfc7677Example` | src/scram_sha256_fsm.cpp:44-101 | on the example of section 3 of RFC 7677 the client reads nonce, salt and count, and makes the transcript of the RFC |
| `Scram.ScramClient.OnInit` | src/scram_sha256_fsm.cpp:24-37 | the framed first message, with both lengths stored last, and the span of its bare part |
| `Scram.ScramClient.OnServerFirst` | src/scram_sha256_fsm.cpp:44-101 | the framed answer and the expected signature, or the error |
| `Scram.ScramClient.OnServerFinal` | src/scram_sha256_fsm.cpp:103-117 | accepted exactly if the signature matches |
| `ErrorFields.ParseErrorNotice` | src/messages.cpp:190-209 | the loop with its sticky error gives the fields, or the first error |
| `ErrorFields.KnownLetters` | src/messages.cpp:141-161 | the known letters are those of the protocol |
| `ErrorFields.FieldsRoundTrip` | src/messages.cpp:163-209 | known fields come back from their message, the last one of each letter |
| `ErrorFields.NoticeExactly` | src/messages.cpp:163-209 | for every list of fields: the message is accepted if and only if the value of every unknown field has a known letter in it, and then each unknown field is read as its part from that letter on |
| `ErrorFields.UnknownIgnoredExactly` | src/messages.cpp:185-204 | unknown fields are ignored if and only if the value of each has a known letter in it, and no field that is read so comes last of its letter with a value that was not sent last |
| `ErrorFields.UnknownLastExactly` | src/messages.cpp:185-204 | an unknown field behind known ones is ignored if and only if its value has a known letter and the part behind the first one repeats the field of that letter |
| `ErrorFields.UnknownFieldHidesTheState` | src/messages.cpp:185-204 | an error with any SQLSTATE and an unknown field with the value C00000 is read as 00000 |
| `ErrorFields.StateRoundTrip` | src/sqlstate.cpp:35-66 | every SQLSTATE comes back from its number, which is valid |
| `ErrorFields.NumberRoundTrip` | src/sqlstate.cpp:35-66 | every valid number comes back from its text, and the valid numbers are exactly those of some SQLSTATE |
| `ErrorFields.ZeroStateExactly` | include/nativepg/sqlstate.hpp:40-75 | an error code is no error exactly for the SQLSTATE 00000 |
| `Startup.StartupLanguage` | src/startup_fsm.cpp:81-204 | for every word: it is AuthenticationOk, settings, ReadyForQuery, preceded by a SASL exchange with a matching server signature if one began, if and only if startup succeeds on it and no error in it carries the SQLSTATE 00000 |
| `Startup.SuccessIsStartupExactly` | src/startup_fsm.cpp:81-204 | a success is such a word if and only if no error in it carries the SQLSTATE 00000 |
| `Startup.RefusedExactly` | src/startup_fsm.cpp:31-199 | the error of every refusal, exactly: the server's, an unsupported method or list of mechanisms at the first message, a SCRAM message that the client refuses, or an unexpected message |
| `Startup.HonestStartup` | src/startup_fsm.cpp:104-199 | the word of an honest server with an account of the same password makes startup succeed |
| `Startup.ZeroStateCountsAsApproval` | src/startup_fsm.cpp:31-58 | an error with the SQLSTATE 00000 followed by ReadyForQuery succeeds |
| `Startup.UnknownFieldCountsAsApproval` | src/startup_fsm.cpp:31-58 | an error with any other SQLSTATE and such an unknown field, followed by ReadyForQuery, succeeds |
| `Startup.StartupFsm.OnMessage` | src/startup_fsm.cpp:81-204 | the in-place machine takes the step of the function, and what it writes is the framed first message or answer of the client |
| `StartupMessages.SerializeStartup` | src/messages.cpp:954-1007 | the loop writes version, settings and terminator with the length stored last, and fails exactly if it does not fit |
| `StartupMessages.StartupIsRead` | src/startup_fsm.cpp:60-69 | a server reads the user, the database unless its name is empty, and the other settings |
| `StartupMessages.CancelExactly` | src/messages.cpp:1009-1020 | a cancel request alone in its buffer is read by a server; behind other bytes they stay intact exactly if they start with the size of the whole |
| `StartupMessages.EncryptIsLost` | src/messages.cpp:1022-1030 | a request to encrypt is sent as its own size |

## Left out

- Sockets, timers, coroutines, TLS and OpenSSL: kept only as the points where a step ends, and as parameters.
- The parsers of the other message bodies: a parameter of the framing. The views over fixed-size items, such as format codes.
- Lists of format codes and the other low-level additions of a request; how a parameter writes itself, and NULL parameters.
- `compute_pos_map`, field conversion and the user callback of a resultset: the handler is modelled as the states it goes through.
- `response_get_result` and the handlers that only store errors.
- The value of a numeric, its rounding, and all other type conversions.
- SASLprep, which is a stub in the source, and the drawing of nonces.
- The number of running connection coroutines and the event that ends the pool coroutine: they depend on when a coroutine that was launched starts to run.
- COPY IN, COPY BOTH and replies to a describe of a statement, which the source does not implement.
- Scram.ComputeProofs: errors of the cryptographic library are not modelled.
- ConnectionPool.SharedStateIsExact: the assertions in `run()` are not in it; they say that `run()` is called once and what errors the events of the library give.
- CopyLoop.ExecuteSome: on a malformed message it states only that the unread bytes are the end of what is left in the buffer, because the source leaves the whole batch there.
- Numeric.BinaryCountExact: groups are below 10000, as PostgreSQL sends them.
- The texts and conditions of SQLSTATEs beyond their numbers, and the diagnostics made from the other fields.
- Notifications that wait for space: the reader hands them on in order, and the wait is in `NotificationQueue`.
