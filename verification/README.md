# Fabric chaincode for Python: a verified model

This project models the shim and the contract API of a Hyperledger Fabric chaincode library for
Python and proves what their hardest parts are for. `dafny verify dfyconfig.toml` checks it all.

| modules | what they are about |
|---|---|
| `MsgQueue`, `QueueRuns`, `QueueTheorems`, `QueueFaults`, `QueueWrites` | the request queue of each transaction: every interleaving of coroutines looks like plain synchronous calls to the peer; when a queue is stuck; which transactions share one; which writes are under way and whom their failure concerns |
| `Handler`, `HandlerRuns` | the conversation with the peer: handshake, calls of the chaincode, answers |
| `Sessions`, `SessionAnswers` | handler, queue and an arbitrary chaincode together: every call is answered as if it had run alone, and every call that returns can be answered |
| `Annotations`, `Graph`, `TypesHandler` | the validator of parameter types, on cyclic class graphs |
| `Schema`, `SchemaTheorems`, `SchemaFailures` | the JSON schema generator, its registry, exactly where it and the validator part, and what a failed call leaves behind |
| `Strings`, `CompositeKey` | composite keys and queries by partial composite key |
| `Iterators`, `IteratorRuns` | paged query iterators, any number of them at once |
| `SbeAssets`, `SbeShim`, `SbeContract`, `SbeBisimulation`, `SbeDetails` | the two versions of the asset-transfer-sbe sample, the plain map that both refine, and single calls field by field |
| `Metadata` | the dictionary form of the contract metadata and its normal form |
| `Dispatch` | routing, the metadata entry that goes with a function, argument formatting, hooks |

## How it is modelled

A coroutine runs without interruption between two suspension points. Such a segment is one step:
a function from state to state, and a method of the class that does it in place and is proved to
do just that. Runs are lists of events in any order; an event that cannot happen changes nothing,
so a theorem about all lists is a theorem about all runs.

- **Queue.** The peer is an arbitrary function of the requests it has received for a transaction
  and answers every written message once, whenever it likes. Failed writes and cancelled waiters
  are events too: the refinement theorem excludes them, the theorems on wrong replies and on
  stuck queues do not.
- **Types.** Annotations come resolved, as a datatype. A class environment is any finite map
  from class names to fields; classes are told apart by name, as in the registry. ErrorType is a
  class to the generator and a sentinel to the validator, as in the code. Dataclass field
  metadata is never a `dict` but a mapping proxy, so the branch that reads tags is not taken.
- **Chaincode.** A chaincode is an arbitrary function from a message and the replies so far to the
  next request or the response, so that a theorem about `Sessions` holds for every chaincode that
  awaits one request at a time.
- **Ledger.** The asset-transfer-sbe samples store JSON objects. A call has any name and any
  arguments. Python's `int` on strings is a parameter; all that is assumed of it is that it
  rejects the empty string.
- **Dispatch.** `str.isupper`, `str.upper` and the argument conversions are parameters.

## Where the code differs from what it says, or from what one may expect

- A failed write or a cancelled waiter does not free its place in the queue: the queue of that
  transaction is stuck for good (`ServedExactlyWhenAllPending` says exactly when).
- A write that fails after the reply has come raises in the coroutine that waits for it: the call
  dies although its future has a result (`FailedWriteLoses`, `LostCallDies`).
- ERROR messages of the peer resolve a future as its result, like RESPONSE messages.
- The queue key is channel id and transaction id without a separator, so transactions with ids
  of different length may share a queue; `KeysCollideExactlyWhen` says exactly which.
- ERROR replies carry the transaction id but no channel.
- Attributes of composite keys may contain NUL. A key splits back into its components exactly
  when they are NUL-free (`RoundTripExactlyWhenNulFree`), and then no other NUL-free components
  have it (`NulFreeKeysDiffer`). Components with NUL may have it all the same: two lists share a
  key exactly when NUL cuts them into the same pieces (`SameKeyExactlyWhen`).
- Queries by partial key overlook extensions whose next attribute begins with U+10FFFF;
  `PartialQueryIsExact` gives the exact condition without excluding that character.
- The close latch of an iterator stops further close messages but not `__anext__`. An empty later
  page ends the iteration even if more are announced. `CloseDiscipline` and
  `PageAskedAfterCloseExactlyWhen` say exactly when a page of a closed query is asked for.
- The generator looks at the first argument of a tuple only, at no dictionary key, and accepts
  ErrorType and lists, tuples and dictionaries without type arguments; the validator refuses such
  types or looks further (`ValidExactlyWhenNothingOverlooked`).
- A failed call of the generator can leave a component behind that refers to the class that
  failed. This takes a cycle through a class that cannot be registered;
  `NoDanglingReferenceExactlyWhen` gives the exact condition.
- The read-me of the samples says that the transactions of both versions match function for
  function. They do not for calls that only the contract version carries out: with too many
  arguments, with an empty number, under a name with a small first letter or the name of the
  contract in front, and for the `get_metadata` function of the system contract
  (`VersionsAgreeExactlyWhen`, `NamesThatRun`). Without any function name the contract version
  answers with an error, and the shim version does not answer at all.
- The docstring of the contract version's `Asset` promises the field names of the shim version on
  the chain; the code writes lower-case names, and that is what is modelled.
- A function whose capitalised name is registered too may be run with the metadata of the other
  (`EntryOfCalledFunction`, `CountErrorExactlyWhenShadowed`).
- Reading written metadata back is not idempotent (`StableAfterOneExactlyWhen`).

## Model

| member | source | states |
|---|---|---|
| `MsgQueue.MsgQueueHandler.QueueMsg` | src/fabric_chaincode_python/fabric_shim/msg_queue_handler.py:36-42 | queueing appends to the queue of the key and starts a write only when the queue was empty; the new future is the next one and the whole new state is that of the specification `Enqueue` |
| `MsgQueue.MsgQueueHandler.SendMsg` | src/fabric_chaincode_python/fabric_shim/msg_queue_handler.py:44-49 | the message at the head of the queue, if there is one, goes on the wire and nothing else changes |
| `MsgQueue.MsgQueueHandler.WriteReturned` | src/fabric_chaincode_python/fabric_shim/msg_queue_handler.py:48-51 | a failed write fails the future if it still waits, and otherwise raises; the queue stays as it is |
| `MsgQueue.MsgQueueHandler.GetCurrentMsg` | src/fabric_chaincode_python/fabric_shim/msg_queue_handler.py:69-76 | the head of the queue, or none exactly when the queue is missing or empty |
| `MsgQueue.MsgQueueHandler.RemoveAndSendNext` | src/fabric_chaincode_python/fabric_shim/msg_queue_handler.py:78-90 | the head goes, the next message is written, an emptied queue is deleted |
| `MsgQueue.MsgQueueHandler.HandleMsgResponse` | src/fabric_chaincode_python/fabric_shim/msg_queue_handler.py:53-67 | one uninterrupted segment: resolve the head, pop it, write the next; it raises exactly when the future of the head is already done, and then nothing changes |
| `MsgQueue.FinishWrite` | src/fabric_chaincode_python/fabric_shim/msg_queue_handler.py:44-51 | after a write that failed no one waits on that future, and the write does not end twice |
| `QueueRuns.AskKeepsInv` | src/fabric_chaincode_python/fabric_shim/msg_queue_handler.py:36-42 | queueing keeps the queue invariant: FIFO per key, one message in flight per key, results synchronous |
| `QueueRuns.AnswerIsExpected` | src/fabric_chaincode_python/fabric_shim/msg_queue_handler.py:53-65 | the answer to the message in flight is the one a synchronous peer gives after exactly the requests asked before it, although other transactions are interleaved |
| `QueueRuns.OneInFlight` | src/fabric_chaincode_python/fabric_shim/msg_queue_handler.py:36-91 | two unanswered messages of one key are the same message |
| `QueueRuns.PrefixUpTo` | src/fabric_chaincode_python/fabric_shim/msg_queue_handler.py:36-91 | what was asked for a key up to a request is read off the position of that request in the order of writing |
| `QueueRuns.ReplyKeepsInv` | src/fabric_chaincode_python/fabric_shim/msg_queue_handler.py:53-91 | handling a reply keeps the queue invariant |
| `QueueRuns.FailureKeepsInv` | src/fabric_chaincode_python/fabric_shim/msg_queue_handler.py:48-51 | write completions, failed or not, and cancelled waiters keep it too |
| `QueueRuns.RunKeepsInv` | src/fabric_chaincode_python/fabric_shim/msg_queue_handler.py:36-91 | so every run keeps it |
| `QueueTheorems.RpcRefinement` | src/fabric_chaincode_python/fabric_shim/handler.py:329-336 | for every interleaving without failed writes and cancelled waiters, the replies of each transaction are a prefix of its plain synchronous session and everything after that prefix still waits |
| `QueueTheorems.ResultsAreSynchronous` | src/fabric_chaincode_python/fabric_shim/msg_queue_handler.py:53-65 | reply k is the one a synchronous peer gives to the first k requests of the transaction |
| `QueueTheorems.NeverAWrongReply` | src/fabric_chaincode_python/fabric_shim/msg_queue_handler.py:53-65 | even with failed writes and cancellations no future ever holds a reply other than the synchronous one |
| `QueueTheorems.AnsweredFirst` | src/fabric_chaincode_python/fabric_shim/msg_queue_handler.py:78-84 | replies come back in the order of the requests: none overtakes an earlier one |
| `QueueTheorems.QueueInvariant` | src/fabric_chaincode_python/fabric_shim/msg_queue_handler.py:36-91 | at every suspension point of every run: no stored queue is empty, what was written for a key is what was asked up to and including the head, nothing but the head is unanswered and only once, and a head that is still waited for is in flight |
| `QueueTheorems.NoDeadlock` | src/fabric_chaincode_python/fabric_shim/msg_queue_handler.py:78-90 | while a future waits, the peer owes an answer |
| `QueueTheorems.AnswersCountDown` | src/fabric_chaincode_python/fabric_shim/msg_queue_handler.py:53-67 | each answer resolves exactly one waiting future |
| `QueueTheorems.DrainedByAnswers` | src/fabric_chaincode_python/fabric_shim/msg_queue_handler.py:78-90 | no more answers can come than requests wait; that many, in any order, resolve every future and leave no queue |
| `QueueTheorems.CanDrain` | src/fabric_chaincode_python/fabric_shim/msg_queue_handler.py:53-90 | and such a run exists from every healthy reachable state |
| `QueueTheorems.DrainedSession` | src/fabric_chaincode_python/fabric_shim/handler.py:329-336 | once drained, each transaction has exactly its synchronous session |
| `QueueFaults.DoneStaysQueued` | src/fabric_chaincode_python/fabric_shim/msg_queue_handler.py:48-51 | a request failed by its write, or abandoned, never leaves its queue, whatever happens later |
| `QueueFaults.DrainKey` | src/fabric_chaincode_python/fabric_shim/msg_queue_handler.py:78-90 | answers alone empty a queue whose requests are all waited for |
| `QueueFaults.ServedExactlyWhenAllPending` | src/fabric_chaincode_python/fabric_shim/msg_queue_handler.py:44-67 | a queue can still be emptied if and only if every request in it is still waited for |
| `QueueFaults.FailedWriteBlocks` | src/fabric_chaincode_python/fabric_shim/msg_queue_handler.py:48-51 | concretely: after a failed first write the second request of the transaction is never resolved, in any continuation |
| `QueueFaults.KeysCollideExactlyWhen` | src/fabric_chaincode_python/fabric_shim/msg_queue_handler.py:15-16 | two different transactions have the same queue key if and only if one is the other with some characters moved from the transaction id to the channel |
| `QueueFaults.KeyIsInjective` | src/fabric_chaincode_python/fabric_shim/msg_queue_handler.py:15-16 | which cannot be for transaction ids of equal length |
| `QueueFaults.OtherKeyUntouched` | src/fabric_chaincode_python/fabric_shim/msg_queue_handler.py:53-91 | an event leaves the queue, the written messages and the futures of every other key as they were |
| `QueueFaults.Isolation` | src/fabric_chaincode_python/fabric_shim/msg_queue_handler.py:54-56 | so a step of one transaction touches no other, unless one is the other shifted in that way |
| `QueueFaults.QueueSharedExactlyWhen` | src/fabric_chaincode_python/fabric_shim/msg_queue_handler.py:36-42 | for any two different transactions: the first request of the second waits unwritten behind that of the first if and only if one is the other shifted |
| `QueueFaults.SharedQueue` | src/fabric_chaincode_python/fabric_shim/msg_queue_handler.py:15-16 | and that occurs |
| `QueueWrites.WritesUnderWay` | src/fabric_chaincode_python/fabric_shim/msg_queue_handler.py:44-51 | at every point of every run, over all transactions, the writes under way are exactly those that were started and have not ended |
| `QueueWrites.FailedWriteIsReported` | src/fabric_chaincode_python/fabric_shim/msg_queue_handler.py:48-51 | a failed write fails the future of its own request, unless that is done, whatever other writes are under way, and no other future |
| `QueueWrites.SuccessfulWriteIsSilent` | src/fabric_chaincode_python/fabric_shim/msg_queue_handler.py:48-49 | a write that succeeds changes no future |
| `QueueWrites.AbandonedIsCancelled` | src/fabric_chaincode_python/fabric_shim/handler.py:329-336 | cancelling a waiter cancels its future, unless that is done, and does nothing else |
| `QueueWrites.WrittenOnce` | src/fabric_chaincode_python/fabric_shim/msg_queue_handler.py:36-91 | in no run is a request written twice |
| `Handler.Handler.HandleMessage` | src/fabric_chaincode_python/fabric_shim/handler.py:149-165 | the first segment of a task: state change, ERROR reply, hand-over to the queue, or start of a call, as the state and the message type demand |
| `Handler.Handler.ChaincodeDone` | src/fabric_chaincode_python/fabric_shim/handler.py:74-109 | the last segment: one COMPLETED message, or none if the chaincode raised or the write failed; a response without status is replaced |
| `Handler.Handler.WriteError` | src/fabric_chaincode_python/fabric_shim/handler.py:125-134 | an ERROR message with the transaction id, and the task is done |
| `HandlerRuns.RunInv` | src/fabric_chaincode_python/fabric_shim/handler.py:149-200 | the invariant of every run of one connection, in any order in which its tasks get to run |
| `HandlerRuns.PhaseFollowsHandshake` | src/fabric_chaincode_python/fabric_shim/handler.py:127-147 | at every point of a run the state is exactly the one that the messages handled so far call for: ready if and only if REGISTERED and then READY were handled |
| `HandlerRuns.PhaseMovesForward` | src/fabric_chaincode_python/fabric_shim/handler.py:127-147 | over any further course of a run the state never goes back and passes through every state in between |
| `HandlerRuns.CalledOnlyAfterHandshake` | src/fabric_chaincode_python/fabric_shim/handler.py:111-147 | the chaincode is called only for INIT and TRANSACTION, and only after REGISTERED and then READY were handled |
| `HandlerRuns.AnsweredExactlyOnce` | src/fabric_chaincode_python/fabric_shim/handler.py:102-109 | over a whole run no message is answered twice; COMPLETED and ERROR answers stand for exactly the tasks that ended that way and carry their ids |
| `HandlerRuns.CompletedExactlyOnce` | src/fabric_chaincode_python/fabric_shim/handler.py:74-109 | a call that returns and whose write succeeds is answered, in every continuation, by exactly one COMPLETED message with its channel and transaction id; a missing status becomes 500 |
| `HandlerRuns.UnexpectedGetsOneError` | src/fabric_chaincode_python/fabric_shim/handler.py:125-144 | a message that the state does not expect and is not KEEPALIVE gets exactly one ERROR message for good |
| `Sessions.RunInv` | src/fabric_chaincode_python/fabric_shim/handler.py:55-109 | handler, queue and any chaincode together: in every run each waiting call has so far run as it would alone |
| `Sessions.CompletedAsIfAlone` | src/fabric_chaincode_python/fabric_shim/handler.py:55-109 | in every interleaving of calls, writes, replies and failures, a COMPLETED message is the only one for its call and carries the response that the chaincode returns when this call runs alone against a synchronous peer |
| `Sessions.ReturnsOnce` | src/fabric_chaincode_python/fabric_shim/handler.py:329-336 | a call that runs alone returns at most one response |
| `Sessions.InterleavingDoesNotMatter` | src/fabric_chaincode_python/fabric_shim/handler.py:55-109 | so any two runs that complete a call write the same message for it |
| `Sessions.CallsGoOn` | src/fabric_chaincode_python/fabric_shim/handler.py:329-336 | while nothing has failed no call is stuck: it can go on, its write has yet to end, or the peer owes an answer |
| `SessionAnswers.TurnOfCall` | src/fabric_chaincode_python/fabric_shim/handler.py:68-109 | in every run, when it is the turn of a call it does what the chaincode says after the replies it would get alone: its next request and nothing else, or exactly one COMPLETED message with the response it returns, or no message if it raises |
| `SessionAnswers.CallCanBeAnswered` | src/fabric_chaincode_python/fabric_shim/handler.py:55-109 | from every reachable point at which nothing has failed, every call that has begun and that returns when it is run alone can be brought, by events that can happen, to the COMPLETED message with that response |
| `SessionAnswers.LostCallDies` | src/fabric_chaincode_python/fabric_shim/handler.py:329-336 | a call whose future failed or was cancelled, or whose own write failed, dies without a message |
| `SessionAnswers.FailedWriteLoses` | src/fabric_chaincode_python/fabric_shim/msg_queue_handler.py:48-51 | a failed write loses exactly the call that waits for it |
| `HandlerRuns.ReadyMessages` | src/fabric_chaincode_python/fabric_shim/handler.py:111-125 | in every run a message is handed to the queue if and only if it is a reply and the handshake was complete before it; INIT and TRANSACTION after the handshake are calls, unless their task dies |
| `HandlerRuns.FateOfMessage` | src/fabric_chaincode_python/fabric_shim/handler.py:111-165 | what has become of each message of a run follows from its type and the handshake before it: ignored, state change, hand-over, call, or ERROR message |
| `HandlerRuns.CallBegins` | src/fabric_chaincode_python/fabric_shim/handler.py:116-123 | in every run each INIT or TRANSACTION message after the handshake whose stub can be built starts a call, by init for INIT and by invoke for TRANSACTION |
| `HandlerRuns.DiedExactlyWhenKilled` | src/fabric_chaincode_python/fabric_shim/handler.py:39-53 | over every run a task has died if and only if its stub could not be built, its chaincode raised, or its write failed |
| `Annotations.StripsExactlyWhen` | src/fabric_chaincode_python/fabric_contract_api/internal/types_handler.py:61-73 | a union is stripped if and only if exactly one of its arguments is not None, and then that one is left |
| `Graph.LoopRemoval` | src/fabric_chaincode_python/fabric_contract_api/internal/types_handler.py:137-151 | what a class reaches it reaches without coming back to itself, which is why cutting off at classes on the path loses nothing |
| `TypesHandler.ValidatorExact` | src/fabric_chaincode_python/fabric_contract_api/internal/types_handler.py:76-155 | the path-based search reports a defect exactly when one is reachable past the classes on the path |
| `TypesHandler.StructExact` | src/fabric_chaincode_python/fabric_contract_api/internal/types_handler.py:147-192 | the same for a class, of which the fields are searched with the class on the path |
| `TypesHandler.FirstInvalidExact` | src/fabric_chaincode_python/fabric_contract_api/internal/types_handler.py:116-123 | the same for the loops over tuple arguments and over fields |
| `TypesHandler.TypeIsValidExactly` | src/fabric_chaincode_python/fabric_contract_api/internal/types_handler.py:76-192 | on any finite class environment, cyclic or not, `type_is_valid` accepts exactly when no ill-formed annotation is reachable, and what it reports is a reachable defect |
| `Schema.ComponentMetadata.Generate` | src/fabric_chaincode_python/fabric_contract_api/metadata/schema.py:39-73 | the traversal that updates the registry in place gives the schema and the registry of the specification `GetSchema` |
| `Schema.ComponentMetadata.GenerateList` | src/fabric_chaincode_python/fabric_contract_api/metadata/schema.py:76-81 | lists and tuples, by their first argument |
| `Schema.ComponentMetadata.GenerateDict` | src/fabric_chaincode_python/fabric_contract_api/metadata/schema.py:84-92 | dictionaries, by their second argument |
| `Schema.ComponentMetadata.GenerateStruct` | src/fabric_chaincode_python/fabric_contract_api/metadata/schema.py:95-102 | a reference to the class, once it is registered |
| `Schema.ComponentMetadata.AddComponentIfNotExists` | src/fabric_chaincode_python/fabric_contract_api/metadata/schema.py:105-155 | reserves the slot, fills it, and gives it up again on failure |
| `Schema.ComponentMetadata.FillFields` | src/fabric_chaincode_python/fabric_contract_api/metadata/schema.py:131-149 | the loop over the fields, up to the first that has no schema |
| `Schema.GetSchema` | src/fabric_chaincode_python/fabric_contract_api/metadata/schema.py:39-155 | never changes an entry that was there before, on success or failure |
| `SchemaTheorems.GetSchemaSpec` | src/fabric_chaincode_python/fabric_contract_api/metadata/schema.py:39-73 | from any registry, also one with reserved slots: what is added is canonical and reachable; success means everything met is expressible and registered, failure that something inexpressible was met |
| `SchemaTheorems.BuildStructSpec` | src/fabric_chaincode_python/fabric_contract_api/metadata/schema.py:95-155 | the same for a class; on failure its own slot is gone |
| `SchemaTheorems.AddFieldsSpec` | src/fabric_chaincode_python/fabric_contract_api/metadata/schema.py:131-149 | the same for the fields: although the registry changes under the loop, the component ends up the canonical one |
| `SchemaTheorems.SucceedsExactlyWhen` | src/fabric_chaincode_python/fabric_contract_api/metadata/schema.py:39-155 | from a complete registry `get_schema` succeeds exactly when every class it reaches can be expressed |
| `SchemaTheorems.RegistryIsExact` | src/fabric_chaincode_python/fabric_contract_api/metadata/schema.py:39-155 | it then adds the canonical component of exactly the reachable classes, and the registry is complete again |
| `SchemaTheorems.RegisterAllIsExact` | src/fabric_chaincode_python/fabric_contract_api/contractapi/contract_chaincode.py:423-425 | registering a list of types adds exactly what one of them reaches |
| `SchemaTheorems.OrderDoesNotMatter` | src/fabric_chaincode_python/fabric_contract_api/contractapi/contract_chaincode.py:423-425 | any two lists of the same types, in any order and multiplicity, succeed alike and give the same registry |
| `SchemaTheorems.ComponentShape` | src/fabric_chaincode_python/fabric_contract_api/metadata/schema.py:213-216 | every field is required, in order, and the properties are exactly the fields |
| `SchemaTheorems.CanonicalShape` | src/fabric_chaincode_python/fabric_contract_api/metadata/schema.py:115-120 | the component of a class carries its name and has exactly its fields, each required and with the schema of its type |
| `SchemaTheorems.PropertyOrigin` | src/fabric_chaincode_python/fabric_contract_api/metadata/schema.py:208-216 | each property has the schema of the type of the field with that name |
| `SchemaTheorems.RefsOfSchema` | src/fabric_chaincode_python/fabric_contract_api/metadata/schema.py:101-102 | the references in a schema name exactly the classes that the generator visited, all in one form |
| `SchemaTheorems.ReferencesResolve` | src/fabric_chaincode_python/fabric_contract_api/metadata/schema.py:95-155 | after success every reference, returned or inside any component, names a registered component (section 8.3 of JSON Schema draft-07 core), and components use the short form only |
| `SchemaTheorems.FailureLeavesNoTrace` | src/fabric_chaincode_python/fabric_contract_api/metadata/schema.py:133-152 | on failure the failing class is gone, earlier entries are unchanged, and what else remains is canonical |
| `SchemaFailures.GetSchemaGaps` | src/fabric_chaincode_python/fabric_contract_api/metadata/schema.py:105-155 | from any registry and whatever the outcome: a reference that an added entry is left without names a class that cannot be registered and that lies on a cycle |
| `SchemaFailures.CompleteExactlyWhenExpressible` | src/fabric_chaincode_python/fabric_contract_api/metadata/schema.py:133-152 | the registry that a call leaves, failed or not, is complete if and only if nothing inexpressible is reached from the classes added |
| `SchemaFailures.NoDanglingReferenceExactlyWhen` | src/fabric_chaincode_python/fabric_contract_api/metadata/schema.py:133-152 | the same condition decides whether every reference that is left behind resolves |
| `SchemaFailures.WithoutSpoiledCyclesNothingDangles` | src/fabric_chaincode_python/fabric_contract_api/metadata/schema.py:121-136 | if no class that is reached from a type both lies on a cycle and reaches something inexpressible, not even a failed call leaves a dangling reference |
| `SchemaFailures.FailureCanLeaveDanglingReference` | src/fabric_chaincode_python/fabric_contract_api/metadata/schema.py:121-136 | with such a cycle it can occur |
| `SchemaFailures.StartingPointMatters` | src/fabric_chaincode_python/fabric_contract_api/metadata/schema.py:121-136 | and the same two classes leave nothing behind when the call starts at the other one |
| `SchemaFailures.ErrorNamesTheCulprit` | src/fabric_chaincode_python/fabric_contract_api/metadata/schema.py:73-73 | the error of a failed call names an inexpressible type that occurs in the type or in a field of a class reached from it |
| `SchemaTheorems.ValidatedTypesHaveSchemas` | src/fabric_chaincode_python/fabric_contract_api/metadata/schema.py:39-155 | a type that the validator accepts gets its schema from any registry whatever, although the two traversals use different visited sets |
| `SchemaTheorems.ValidExactlyWhenNothingOverlooked` | src/fabric_chaincode_python/fabric_contract_api/internal/types_handler.py:76-192 | the validator accepts a type if and only if the generator has a schema for it and overlooks nothing in it: no missing type arguments, no dictionary key, no ErrorType, no defect behind a later tuple argument, here or in any class that is reached |
| `SchemaTheorems.GeneratorAcceptsMore` | src/fabric_chaincode_python/fabric_contract_api/metadata/schema.py:76-92 | each of these kinds of oversight occurs |
| `CompositeKey.CreateCompositeKey` | src/fabric_chaincode_python/fabric_shim/stub.py:319-330 | fails exactly when the object type or an attribute is not a non-empty string, or the attributes are no sequence, with the error for each; otherwise the key is NUL and then every component with NUL behind it |
| `CompositeKey.SplitCompositeKey` | src/fabric_chaincode_python/fabric_shim/stub.py:332-342 | the parts between NULs of a string that starts with NUL and has more than one character; nothing otherwise |
| `CompositeKey.DecodedExactly` | src/fabric_chaincode_python/fabric_shim/stub.py:332-342 | for any string: it is the key of the parts that come out, apart from a rest without NUL, or has no object type; the parts are NUL-free |
| `CompositeKey.PartialKeyRange` | src/fabric_chaincode_python/fabric_shim/stub.py:263-275 | the range that is queried contains exactly the extensions of the key that do not go on with U+10FFFF |
| `CompositeKey.RoundTripExactlyWhenNulFree` | src/fabric_chaincode_python/fabric_shim/stub.py:319-342 | split after create is the identity if and only if no component contains NUL |
| `CompositeKey.RecreatedExactlyWhenCompositeKey` | src/fabric_chaincode_python/fabric_shim/stub.py:319-342 | create after split accepts and gives back a string if and only if it starts and ends with NUL and has at least one part, all parts non-empty |
| `CompositeKey.SameKeyExactlyWhen` | src/fabric_chaincode_python/fabric_shim/stub.py:319-330 | two lists of components, with or without NUL in them, have the same key if and only if cutting them at every NUL gives the same pieces |
| `CompositeKey.NulFreeKeysDiffer` | src/fabric_chaincode_python/fabric_shim/stub.py:319-330 | among lists of NUL-free components the key determines the list |
| `CompositeKey.KeySharedExactlyWhen` | src/fabric_chaincode_python/fabric_shim/stub.py:319-330 | the key of accepted components is also the key of other accepted components if and only if there is an attribute or the object type has an inner NUL |
| `CompositeKey.NulMakesKeysCollide` | src/fabric_chaincode_python/fabric_shim/utils.py:29-31 | the attribute check lets NUL pass, and an attribute with NUL in it has the key of two attributes |
| `CompositeKey.PrefixRange` | src/fabric_chaincode_python/fabric_shim/stub.py:270-275 | the lexicographic range from p to p followed by U+10FFFF, in code points |
| `CompositeKey.JoinPrefix` | src/fabric_chaincode_python/fabric_shim/stub.py:326-329 | for NUL-free components one encoding is a prefix of another exactly when one list is a prefix of the other |
| `CompositeKey.PartialQueryIsExact` | src/fabric_chaincode_python/fabric_shim/stub.py:263-275 | the query selects the key of (t2, a2) if and only if t2 is the object type asked for, a2 extends the attributes asked for, and the next attribute does not begin with U+10FFFF |
| `CompositeKey.NoSimpleKeys` | src/fabric_chaincode_python/fabric_shim/stub.py:263-275 | a simple key never turns up in such a query |
| `Iterators.QueryIterator.constructor` | src/fabric_chaincode_python/fabric_shim/iterators.py:28-39 | an iterator starts with the first response, if there is one |
| `Iterators.QueryIterator.ConsumePage` | src/fabric_chaincode_python/fabric_shim/iterators.py:41-49 | appends the records of a page and takes over its id and its has_more |
| `Iterators.QueryIterator.Anext` | src/fabric_chaincode_python/fabric_shim/iterators.py:57-66 | the next record from the buffer, the end with a close, or a request for the next page |
| `Iterators.QueryIterator.PageArrived` | src/fabric_chaincode_python/fabric_shim/iterators.py:67-71 | the first record of the new page, or the end with a close if it is empty |
| `Iterators.QueryIterator.SendClose` | src/fabric_chaincode_python/fabric_shim/iterators.py:73-84 | a close message goes out once at most, and only for a query with an id |
| `IteratorRuns.StepKeepsOwn` | src/fabric_chaincode_python/fabric_shim/iterators.py:57-88 | every segment keeps the invariant of the iterator it belongs to: what came out plus what is to come is what its pages hold |
| `IteratorRuns.StepKeepsOther` | src/fabric_chaincode_python/fabric_shim/iterators.py:57-88 | and that of every other iterator |
| `IteratorRuns.RunInv` | src/fabric_chaincode_python/fabric_shim/iterators.py:41-88 | so every interleaving keeps the invariant of all iterators |
| `IteratorRuns.IteratorEqualsItsPages` | src/fabric_chaincode_python/fabric_shim/iterators.py:41-71 | in every interleaving each consumer gets its own records in order, none twice, and at the end of its iteration the first page and the later ones up to the first empty one, completely |
| `IteratorRuns.FullResultExactlyWhen` | src/fabric_chaincode_python/fabric_shim/iterators.py:67-71 | that is the whole result set exactly when no record follows the first empty later page |
| `IteratorRuns.CloseDiscipline` | src/fabric_chaincode_python/fabric_shim/iterators.py:57-88 | at most one close per query under any interleaving of `__anext__` and `aclose`, sent exactly by the time the iteration ended or was closed; without `aclose`, a page is asked for after the close if and only if the consumer goes on after an iteration that an empty page before the last has ended |
| `IteratorRuns.LoopEndsWithOneClose` | src/fabric_chaincode_python/fabric_shim/iterators.py:57-84 | a loop over finitely many pages ends, with exactly one close and one request for each page that it reads |
| `IteratorRuns.AskingAgainAfterTheEnd` | src/fabric_chaincode_python/fabric_shim/iterators.py:57-71 | in every run, the first call after the end of an iteration asks for a page of the closed query exactly when the iteration ended early; otherwise it sends nothing |
| `IteratorRuns.WithoutQueryNothing` | src/fabric_chaincode_python/fabric_shim/iterators.py:41-44 | an iterator without a first response yields nothing and sends nothing |
| `IteratorRuns.PageAskedAfterCloseExactlyWhen` | src/fabric_chaincode_python/fabric_shim/iterators.py:57-88 | from any point at which a query is closed, by its end or by `aclose`: a page of it is asked for later if and only if `__anext__` is called more often than records are held, and more pages were announced |
| `SbeShim.Chaincode.HandleInvoke` | examples/ccaas/fabric-shim/asset-transfer-sbe/main.py:38-80 | the shim version as it runs: argument counts, ledger and response |
| `SbeShim.Chaincode.Create` | examples/ccaas/fabric-shim/asset-transfer-sbe/main.py:91-103 | existence is tested before the number is read |
| `SbeShim.Chaincode.Read` | examples/ccaas/fabric-shim/asset-transfer-sbe/main.py:105-109 | the stored object, or the error for a missing one |
| `SbeShim.Chaincode.Delete` | examples/ccaas/fabric-shim/asset-transfer-sbe/main.py:121-126 | an asset that is there goes, a missing one is an error |
| `SbeShim.Chaincode.Update` | examples/ccaas/fabric-shim/asset-transfer-sbe/main.py:111-119 | edits one field of the stored object in place |
| `SbeShim.Chaincode.Transfer` | examples/ccaas/fabric-shim/asset-transfer-sbe/main.py:128-147 | edits owner and organisation of the stored object in place |
| `SbeContract.Contract.HandleInvoke` | src/fabric_chaincode_python/fabric_contract_api/contractapi/contract_chaincode.py:197-251 | the contract version as it runs: the name is resolved through contract and spelling, then the transaction runs on the ledger |
| `SbeContract.Contract.Run` | examples/ccaas/fabric-contract-api/asset-transfer-sbe/main.py:140-201 | the seven transactions, after the argument conversion of the framework |
| `SbeContract.Contract.ReadStored` | examples/ccaas/fabric-contract-api/asset-transfer-sbe/main.py:99-113 | a stored asset, with the key as its id if it carries none |
| `SbeContract.Contract.WriteAsset` | examples/ccaas/fabric-contract-api/asset-transfer-sbe/main.py:115-127 | an asset is written under its own id, not under the key it was read from |
| `SbeContract.Contract.Update` | examples/ccaas/fabric-contract-api/asset-transfer-sbe/main.py:171-178 | reads under the id given, writes under the id found |
| `SbeContract.Contract.Transfer` | examples/ccaas/fabric-contract-api/asset-transfer-sbe/main.py:187-196 | reads under the id given, writes under the id found |
| `SbeBisimulation.ShimRefinesMap` | examples/ccaas/fabric-shim/asset-transfer-sbe/main.py:38-157 | every call of the shim version, well formed or not, does on the ledger what a plain map from ids to assets does |
| `SbeBisimulation.ContractRefinesMap` | examples/ccaas/fabric-contract-api/asset-transfer-sbe/main.py:95-201 | so does every call of the contract version |
| `SbeBisimulation.NamesThatRun` | src/fabric_chaincode_python/fabric_contract_api/contractapi/contract_chaincode.py:221-225 | the contract version runs a transaction exactly under its name, or an unregistered form that capitalising the first letter turns into it, alone or after the name of the contract and a colon |
| `SbeBisimulation.EntriesFit` | src/fabric_chaincode_python/fabric_contract_api/internal/contract_function.py:371-375 | the check of parameter descriptions never fails in the contract version, under any name that it accepts |
| `SbeBisimulation.VersionsAgreeExactlyWhen` | examples/ccaas/fabric-contract-api/README.md:30-32 | on corresponding ledgers, for calls of any name and any arguments, the versions agree on outcome, payload and new ledger if and only if the call has a name and is not one that only the contract version accepts: another spelling, the system contract, too many arguments or an empty number, where the assets allow it |
| `SbeBisimulation.StrictCallsMeanTheSame` | src/fabric_chaincode_python/fabric_contract_api/internal/contract_function.py:364-401 | calls with the exact name, the exact arity and no empty number denote one operation in both versions; other calls none in the shim version |
| `SbeBisimulation.ContractRunRefinesMap` | examples/ccaas/fabric-contract-api/asset-transfer-sbe/main.py:95-201 | every run of the contract version from an empty ledger, with any calls, is a run of the plain map |
| `SbeBisimulation.StoredUnderItsId` | examples/ccaas/fabric-contract-api/asset-transfer-sbe/main.py:99-127 | hence in every reachable ledger the asset under key k has id k |
| `SbeBisimulation.MisplacedAssetIsWrittenElsewhere` | examples/ccaas/fabric-contract-api/asset-transfer-sbe/main.py:171-178 | without that invariant an update would write another key and leave its own as it was |
| `SbeBisimulation.RunsAgreeExactlyWhen` | examples/ccaas/fabric-contract-api/README.md:30-32 | over any run from empty ledgers, the versions agree on every call if and only if no call of the run is of that kind on the assets it finds |
| `SbeBisimulation.Bisimulation` | examples/ccaas/fabric-contract-api/README.md:30-32 | over every such run both versions succeed and fail on the same calls, with the same payloads and ledgers up to the renaming of the fields |
| `SbeBisimulation.StrictIsUnproblematic` | examples/ccaas/fabric-contract-api/README.md:30-32 | every run of calls with exact names and arity and no empty number is such a run |
| `SbeDetails.ShimCreates` | examples/ccaas/fabric-shim/asset-transfer-sbe/main.py:91-103 | the new asset field by field; it belongs to the organisation of its creator or, without one, to Org1MSP |
| `SbeDetails.ContractCreates` | examples/ccaas/fabric-contract-api/asset-transfer-sbe/main.py:129-161 | the same for the contract version, under any name that it accepts; an empty number is zero |
| `SbeDetails.ContractUpdates` | examples/ccaas/fabric-contract-api/asset-transfer-sbe/main.py:171-178 | the number is stored under the id that was read, all else stays |
| `SbeDetails.ContractTransfers` | examples/ccaas/fabric-contract-api/asset-transfer-sbe/main.py:187-196 | owner and organisation are stored under the id that was read, all else stays |
| `SbeDetails.ContractReadsAnything` | examples/ccaas/fabric-contract-api/asset-transfer-sbe/main.py:99-113 | what is read of any document, with the key, zero and empty texts in place of missing fields; it fails exactly for a text that is no number |
| `SbeDetails.DigitsDenote` | examples/ccaas/fabric-contract-api/asset-transfer-sbe/main.py:108-113 | a number in place of a text is read as decimal digits that denote it |
| `SbeDetails.ShimFailsWith` | examples/ccaas/fabric-shim/asset-transfer-sbe/main.py:38-147 | the error that is reported when several apply: arguments, then ledger, then number; nothing changes |
| `SbeDetails.ContractFailsWith` | src/fabric_chaincode_python/fabric_contract_api/internal/contract_function.py:364-401 | here: arguments, then number, then ledger |
| `SbeDetails.MetadataCall` | src/fabric_chaincode_python/fabric_contract_api/contractapi/system_contract.py:19-42 | the metadata comes with the name of the system contract in front, with any arguments |
| `SbeDetails.QualifiedNameRuns` | src/fabric_chaincode_python/fabric_contract_api/contractapi/contract_chaincode.py:456-463 | every transaction also runs with the name of its contract in front |
| `SbeDetails.SmallLetterRuns` | src/fabric_chaincode_python/fabric_contract_api/contractapi/contract_chaincode.py:225-225 | and without its capital letter, which is not a name that the shim version knows |
| `Metadata.WriteInfo` | src/fabric_chaincode_python/fabric_contract_api/metadata/metadata.py:172-197 | written and read back, an info block loses an empty contact and an empty licence and nothing else; it is written as an empty dictionary exactly when it is empty |
| `Metadata.WriteContact` | src/fabric_chaincode_python/fabric_contract_api/metadata/metadata.py:121-137 | a contact reads back as it was; its dictionary is empty exactly when it is |
| `Metadata.WriteLicense` | src/fabric_chaincode_python/fabric_contract_api/metadata/metadata.py:145-158 | a licence likewise |
| `Metadata.WriteParameter` | src/fabric_chaincode_python/fabric_contract_api/metadata/metadata.py:59-73 | a parameter reads back as it was |
| `Metadata.WriteTransaction` | src/fabric_chaincode_python/fabric_contract_api/metadata/metadata.py:93-112 | a transaction reads back as it was |
| `Metadata.WriteContract` | src/fabric_chaincode_python/fabric_contract_api/metadata/metadata.py:209-228 | a contract reads back with its info block trimmed, or without it if it is empty |
| `Metadata.WriteChaincode` | src/fabric_chaincode_python/fabric_contract_api/metadata/metadata.py:284-306 | the whole tree reads back with every info block trimmed or dropped |
| `Metadata.NormaliseTrims` | src/fabric_chaincode_python/fabric_contract_api/metadata/metadata.py:284-306 | normalisation changes nothing but info blocks |
| `Metadata.UnchangedExactlyWhenNothingEmpty` | src/fabric_chaincode_python/fabric_contract_api/metadata/metadata.py:188-228 | it is the identity if and only if there is no empty info, contact or licence block |
| `Metadata.StableAfterTwo` | src/fabric_chaincode_python/fabric_contract_api/metadata/metadata.py:172-306 | three rounds give what two give, for every metadata tree |
| `Metadata.StableAfterOneExactlyWhen` | src/fabric_chaincode_python/fabric_contract_api/metadata/metadata.py:188-228 | two rounds give what one gives if and only if no info block holds nothing but an empty contact or licence |
| `Metadata.ReflectedIsStable` | src/fabric_chaincode_python/fabric_contract_api/contractapi/contract_chaincode.py:395-430 | the metadata that registration makes, with versions and titles filled in, is in normal form after one round, whatever info blocks the contracts declare |
| `Metadata.ReflectionKeepsDeclarations` | src/fabric_chaincode_python/fabric_contract_api/contractapi/contract_chaincode.py:305-309 | registration keeps every title and version that is declared and everything else; it fills in only what is missing |
| `Metadata.ContactEntries` | src/fabric_chaincode_python/fabric_contract_api/metadata/metadata.py:121-129 | a contact is written under exactly these keys, empty texts left out |
| `Metadata.LicenseEntries` | src/fabric_chaincode_python/fabric_contract_api/metadata/metadata.py:145-151 | a licence likewise |
| `Metadata.InfoEntries` | src/fabric_chaincode_python/fabric_contract_api/metadata/metadata.py:172-186 | an info block likewise, without a contact or licence that is missing |
| `Metadata.ParameterEntries` | src/fabric_chaincode_python/fabric_contract_api/metadata/metadata.py:59-65 | a parameter likewise, always with its name |
| `Metadata.TransactionEntries` | src/fabric_chaincode_python/fabric_contract_api/metadata/metadata.py:93-101 | a transaction likewise, with its tags and parameters in order |
| `Metadata.ContractEntries` | src/fabric_chaincode_python/fabric_contract_api/metadata/metadata.py:209-217 | a contract with its transactions in order |
| `Metadata.ChaincodeEntries` | src/fabric_chaincode_python/fabric_contract_api/metadata/metadata.py:284-292 | the tree with all its contracts, and components only if there are any |
| `Metadata.NothingWritten` | src/fabric_chaincode_python/fabric_contract_api/metadata/metadata.py:188-197 | what is read from empty dictionaries |
| `Dispatch.RFind` | src/fabric_chaincode_python/fabric_contract_api/contractapi/contract_chaincode.py:460-460 | the last position of a character, or -1 exactly when there is none |
| `Dispatch.Route` | src/fabric_chaincode_python/fabric_contract_api/contractapi/contract_chaincode.py:456-463 | the function name has no colon and the contract name all but the last |
| `Dispatch.RouteIsUnique` | src/fabric_chaincode_python/fabric_contract_api/contractapi/contract_chaincode.py:458-463 | there is only one such way to split |
| `Dispatch.RoutesToDefault` | src/fabric_chaincode_python/fabric_contract_api/contractapi/contract_chaincode.py:460-463 | a name leads to a function of the default contract if and only if it is the name of the function, alone or after that of the contract |
| `Dispatch.ReflectTransactions` | src/fabric_chaincode_python/fabric_contract_api/contractapi/contract_chaincode.py:423-427 | the entries of a contract describe exactly its functions, with their parameter counts, in strict order of name |
| `Dispatch.InsertKeepsSorted` | src/fabric_chaincode_python/fabric_contract_api/contractapi/contract_chaincode.py:427-427 | an entry put in its place keeps the order |
| `Dispatch.FindEntry` | src/fabric_chaincode_python/fabric_contract_api/contractapi/contract_chaincode.py:243-246 | the loop finds the first entry with either form of the name |
| `Dispatch.FirstMatchIsLeast` | src/fabric_chaincode_python/fabric_contract_api/contractapi/contract_chaincode.py:243-246 | which is the entry with the least matching name |
| `Dispatch.EntryOfCalledFunction` | src/fabric_chaincode_python/fabric_contract_api/contractapi/contract_chaincode.py:225-251 | with reflected metadata the entry is that of the function that runs if and only if the name is not shadowed by its capitalised form; there is an entry just when there is a function |
| `Dispatch.FormatArgs` | src/fabric_chaincode_python/fabric_contract_api/internal/contract_function.py:364-401 | metadata count, argument count and conversions are checked in this order; further arguments are ignored |
| `Dispatch.CountErrorExactlyWhenShadowed` | src/fabric_chaincode_python/fabric_contract_api/internal/contract_function.py:371-375 | the count error comes up if and only if a shadowing function has another number of parameters |
| `Dispatch.CapitalForm` | src/fabric_chaincode_python/fabric_contract_api/contractapi/contract_chaincode.py:513-524 | the form with a small first letter is capitalised to the name, the name itself is left as it is |
| `Dispatch.FormattedExactly` | src/fabric_chaincode_python/fabric_contract_api/internal/contract_function.py:364-401 | value k is the conversion of argument k for every parameter; the error is the first that applies: the count of the metadata, too few arguments, or the first argument that does not convert |
| `Dispatch.Invoke` | src/fabric_chaincode_python/fabric_contract_api/contractapi/contract_chaincode.py:197-275 | a call is refused exactly for an unknown contract, a blank name, nothing to run or arguments that do not fit; otherwise its steps run in order up to the first that fails, and it succeeds if and only if none does |
| `Dispatch.HooksAround` | src/fabric_chaincode_python/fabric_contract_api/contractapi/contract_chaincode.py:215-262 | the steps are the function that the name is registered for, or the unknown hook if there is none, with the before hook in front and the after hook behind exactly if the contract has them |
| `Dispatch.SuccessRanEverything` | src/fabric_chaincode_python/fabric_contract_api/contractapi/contract_chaincode.py:253-275 | after a success every step has run; a step that failed is the last |

## Left out

- gRPC, TLS, environment variables, logging, timestamps: plumbing.
- Protobuf encoding and the decoding of proposals: messages are records.
- Building a stub and the success of a write are outcomes given to the step.
- Chaincode that awaits several requests at once, or catches the exception of a failed request: in `Sessions` a call awaits one request at a time and dies of a failure.
- Two calls for one transaction on one connection, which the peer does not start.
- The end of the message stream, which only waits for the tasks still running.
- JSON text and the JSON transaction serializer, including `_handle_response` and `_parse_return`; only its treatment of an empty number matters here and is modelled.
- Validation by JSON schema, which is taken to accept values of the declared type.
- Reflection on classes and signatures, the exclusion of method names, and the construction of transaction handlers.
- Return types as subjects of the validator, which looks at parameters only.
- The functions of the compiled schemas, and metadata files supplied by the user, which replace reflected contracts.
- Metadata dictionaries with values of the wrong type or JSON null, which no to_dict method writes.
- Component descriptions other than the dictionary that the generator fills in (`ObjectMetadata`).
- Events, client identity, texts of error messages, comma-separated sentences, dates, and the asset-transfer-basic samples.
- Simulation, endorsement and commit: a ledger changes at once, and the key-level endorsement that the samples do not set is not there.
- A stored empty value, which the stub cannot tell from an absent one and the samples never write.
- Concurrent calls of `__anext__` on one iterator, and an ERROR reply in place of a page; the peer is taken to send no page of a closed query.
- Keys that the peer itself refuses, such as the empty one, and the construction of a ClientIdentity, which only the contract version does.
- Classes with the same name, which the registry cannot tell apart.
- SbeBisimulation.Bisimulation: is about runs without problematic calls; RunsAgreeExactlyWhen shows that on all other runs the versions part.
- SchemaTheorems.ReferencesResolve: is about successful calls; SchemaFailures.NoDanglingReferenceExactlyWhen says exactly when it holds after any call.
- SchemaFailures.NoDanglingReferenceExactlyWhen: assumes that the fields of a class have different names, as those of dataclasses and constructors do; CompleteExactlyWhenExpressible does not need it.
- QueueTheorems.RpcRefinement: assumes that writes succeed and no waiter is cancelled; NeverAWrongReply and ServedExactlyWhenAllPending say what holds otherwise.
