# Verification model of the Neo N3 MCP server

This project models the parts of the server whose correctness is hardest to see
by reading: the durable write-intent journal, the encoders with an inverse, the
calls with a time budget, and the limiters and caches that keep state. Each
module takes the form of the code it models. Objects that change their fields
are classes whose methods are proved against specification functions, loops
stay loops, and pure code is functions and lemmas. The functions and lemmas
then carry the promises of the code: over every run, every input or every
interleaving.

`dafny verify dfyconfig.toml` checks everything. Strings are sequences of UTF-16
code units (`JsText.dfy`), and `bigint`s are unbounded integers.

## The write-intent journal

`WriteRecords.dfy` holds the records, their validation and what each operation
does to one. `WriteProtocol.dfy` is the state machine of
`WriteOperationService` driven by `WriteCoordinator.execute`. A run is any
sequence of reservations, approvals, refusals, steps of any number of
interleaved executions, and crashes. An execution is cut at every `await` and
before every durable write. What the callbacks answer is part of the run, so a
statement about all runs is a statement about all behaviours of the network,
the chain and the process. `Leads` says that a run takes one state of the world
to another, and `Reached` that a run from an empty journal ends in it. The trace
of a run lists its events; no step reads it. `WriteProtocolInvariant.dfy` and
`WriteProtocolSteps.dfy` prove one invariant of all runs,
`WriteProtocolTheorems.dfy` what follows from it, and `WriteProtocolProgress.dfy`
that the protocol is never stuck, neither with an approved intent nor with one
whose submission was interrupted. `WriteProtocolOnce.dfy` proves that one
execution sends its transaction at most once, and `WriteProtocolOutcomes.dfy` says
for every operation and every answer what becomes of the record.

`WriteService.dfy` has the service as a class. `ExecuteOperation` is the code
that `execute` runs inside `runExclusive`, branch by branch, with other calls
interfering at every `await`; it is proved to be a run of the state machine, so
the theorems are about that code. Its invariant says that its state ends a run. The state machine lets any waiting execution
enter a free intent. `ExclusiveQueue.dfy` models the promise chain of
`runExclusive` itself and proves that it refines that lock and serves its
callers in order. `WriteQueue.dfy` puts the chains into the protocol in place of
the lock and proves that every run is still a run of the protocol, in which
executions of an intent enter in the order of their calls.

`CanonicalJson.dfy` models `canonicalJson`, `JSON.stringify` in both layouts
the journal uses, and `JSON.parse`. The readers are written from section 7 of
RFC 8259, not from the writers. `RecordText.dfy` joins it to the journal: the text
of a record's file reads back as that record. How times and error messages are
spelled, and which safe integer a number text is, are unknown functions there.

Assumptions: SHA-256 is an unknown function with 64 lower-case hexadecimal
digits, and `KeyReusedOnlyForSameRequest` assumes of it only that the two texts
it compares do not collide. A completed `update` is atomic and durable.

## Encoders and amounts

`EvmAbi.dfy` has the encoder and a decoder written from "Formal Specification
of the Encoding" in the Solidity Contract ABI Specification. `EvmAbiMeaning.dfy`
says what a type name and a JavaScript argument stand for, and that the decoder
finds just that.
`NeoVmInteger.dfy`, `DecimalAmounts.dfy`, `Base64.dfy` and `KeccakPadding.dfy`
are what their names say. `ContractParams.dfy` models the canonicaliser of
contract parameters on any graph of JavaScript values, cycles included;
`ContractParamsFormatter.dfy` has it as methods over one counting context,
`ContractParamsMeaning.dfy` relates arguments to the parameters they mean and
proves that exactly those come out,
`ContractParamsCanonical.dfy` proves what it accepts to be canonical,
`ContractParamsParts.dfy` counts the parameters an argument turns into, and
`ContractParamsFixpoint.dfy` settles when formatting its own output gives the
same output. neon-js is two unknown functions there, of which the proofs assume
only that a public key which is a curve point is one in lower case too.

One promise is false of the code here and is settled exactly. Formatting accepted
output again does not always give it back, because the keys of a plain object
are counted as values only the second time. `Fixpoint` gives the condition for
all inputs, and `FixpointFailsForManyNames` an accepted argument that is refused
the second time.

## Time budgets, limiters, caches and guards

Clocks are parameters: `Failover.dfy` and `Polling.dfy` take a function that
says what every call would answer and when, and time passes only in calls and
waits. `RpcDeadline.dfy` is the race between an operation, its timer and an
abort signal. `RateLimiter.dfy` and `NegativeCache.dfy` are classes over their
maps, with runs over any sequence of events whose clock does not go back.
`GraphQlGuard.dfy` has two scans of the GraphQL guard.

A wait for a transaction can poll after its deadline, because the limit of a poll
is fixed before the network magic is awaited. `LatePolls` says exactly when,
`PollAfterDeadline` gives an input, and `LatePollIsOnlyPoll` says that it can
happen only until the magic is known.

Where a comment or a name in the repository says something else than its code,
the code is modelled. `toBigIntArg` has a pattern that admits a signed
hexadecimal string, but `BigInt` refuses one, so the model refuses it. The
states `rejected` and `expired` of an intent do not mean that its transaction
can never be on the chain, and nothing here says that they do.

## Model

| member | source | states |
|---|---|---|
| WriteProtocolTheorems.OneTransactionPerIntent | src/services/write-operation-service.ts:252-328 | in every run, with concurrent executions and crashes anywhere, all submissions for one intent carry the same raw transaction, id and validity height, which the journal durably held before each of them |
| WriteProtocolTheorems.ResubmissionChecked | src/services/write-operation-service.ts:293-311 | an execution that did not prepare the transaction itself submits it only after it found it absent from the chain and, later, not expired |
| WriteProtocolTheorems.SubmittedOnlyIfApproved | src/services/write-operation-service.ts:173-193 | a submission is preceded by an approval with the fingerprint of that very intent, and an intent with a submission is never declined, before or after |
| WriteProtocolTheorems.SubmittedOnlyOnEvidence | src/services/write-operation-service.ts:293-326 | a record reaches `submitted` only if some submission returned its transaction id, up to case, or some reconciliation found the transaction |
| WriteProtocolTheorems.SameResult | src/services/write-coordinator.ts:131-137 | any two results ever returned for an intent are equal, and hold every field of the metadata and, where it has none of that name, the transaction id, the operation, the network and the signer of the intent, and nothing else |
| WriteProtocolTheorems.ResultsTell | src/services/write-coordinator.ts:131-137 | every result that a journal ever holds holds just those fields |
| WriteProtocolOutcomes.NewKeyWaits | src/services/write-operation-service.ts:143-162 | a new key gets a record of its intent that waits for approval, with nothing prepared and no outcome, and no other record changes |
| WriteProtocolOutcomes.ApprovalApproves | src/services/write-operation-service.ts:173-185 | approval with the fingerprint of the intent makes a waiting record approved and changes nothing else; any other call changes no record |
| WriteProtocolOutcomes.RefusalDeclines | src/services/write-operation-service.ts:187-193 | a refusal declines a waiting record and changes no other |
| WriteProtocolOutcomes.EntersInVain | src/services/write-operation-service.ts:266-271 | an execution that finds its intent waiting, refused or failed changes nothing and reports why, with the recorded error if there is one |
| WriteProtocolOutcomes.EntersToPrepare | src/services/write-operation-service.ts:273-277 | an approved intent is marked as being prepared before `prepare` is called |
| WriteProtocolOutcomes.PrepareAnswers | src/services/write-operation-service.ts:273-283 | a valid prepared transaction is durably recorded before it is sent; an invalid one or an error ends the intent before anything was sent, and the caller is told |
| WriteProtocolOutcomes.CheckAnswers | src/services/write-operation-service.ts:293-308 | a transaction that is found marks the intent submitted, one that is absent and expired expires it, and otherwise no record changes |
| WriteProtocolOutcomes.SubmitAnswers | src/services/write-operation-service.ts:310-326 | the expected transaction id marks the intent submitted; another one or an unknown outcome leaves the outcome unknown, any other error rejects it, each with that error recorded and reported |
| WriteProtocolTheorems.NothingAfterResult | src/services/write-operation-service.ts:256-265 | once a result was returned, no execution of the intent prepares, reconciles, submits or fails |
| WriteProtocolTheorems.LaterExecuteReturnsSame | src/services/write-operation-service.ts:257-260 | an execution that enters after a result was returned returns that result at once and writes nothing |
| WriteProtocolTheorems.RebuildsResultAfterCrash | src/services/write-coordinator.ts:131-137 | after a crash between marking an intent submitted and completing it, the next execution returns and stores the result with those fields, without a network call |
| WriteProtocolTheorems.JournalStaysReadable | src/services/write-operation-service.ts:410-451 | every record of every reachable journal passes validation when it is read, and the journal stays within its quota |
| WriteProtocolTheorems.RecordsOnlyEvolve | src/services/write-operation-service.ts:521-547 | from any point of any run on, a record keeps its intent, identifier, fingerprint and creation time, its state only moves up a fixed order, its prepared transaction stays, and final states stay |
| WriteProtocolTheorems.OneExecutionAtATime | src/services/write-operation-service.ts:330-349 | two executions of one intent are never at work together |
| WriteProtocolOnce.OneSubmissionPerExecution | src/services/write-operation-service.ts:293-327 | in every run, no execution calls submit twice |
| WriteProtocolTheorems.KeyReusedOnlyForSameRequest | src/services/write-operation-service.ts:133-141 | a key in use is accepted again exactly when the request means the same JSON value, and refused as reused exactly when it does not |
| WriteProtocolSteps.ReachedInv | src/services/write-operation-service.ts:252-328 | the protocol invariant, which ties the states of records to their prepared fields and to what the trace shows, holds after every run |
| WriteProtocolProgress.ApprovedIntentCanComplete | src/services/write-operation-service.ts:256-327 | from every reached state, an execution that waits for an approved intent nobody works on can prepare, submit and complete it with any valid transaction |
| WriteProtocolProgress.InterruptedIntentCanSettle | src/services/write-operation-service.ts:293-327 | from every reached state, an execution that waits for an intent whose submission was interrupted can settle it by what the chain says: found completes it without sending, absent and expired ends it without sending, absent and not expired sends the same transaction and completes it |
| WriteService.LeadsBySchedule | src/services/write-operation-service.ts:252-328 | a run leads from one state to another exactly when a finite schedule of actions does |
| WriteService.ForeignRunKeeps | src/services/write-operation-service.ts:330-349 | while an execution waits inside `runExclusive`, no sequence of what others do moves it, takes its lock or breaks the protocol invariant |
| WriteService.WriteOperationService.ExecuteOperation | src/services/write-operation-service.ts:256-327 | the operation of `execute`, with anything happening at its awaits, is a run of the state machine that ends by reporting exactly its outcome, and a result has just the fields it should |
| WriteService.WriteOperationService.ReserveIntent | src/services/write-operation-service.ts:122-162 | `reserve` takes the step of the state machine, with its order of refusals, and changes at most the record of its key |
| WriteService.WriteOperationService.ApproveIntent | src/services/write-operation-service.ts:173-185 | `approve` takes the step of the state machine: only the exact fingerprint approves, and only a waiting intent changes |
| WriteService.WriteOperationService.DeclineIntent | src/services/write-operation-service.ts:187-193 | `decline` takes the step of the state machine: only a waiting intent is declined |
| ExclusiveQueue.ExclusiveAndFifo | src/services/write-operation-service.ts:330-349 | for any interleaving, an operation starts only after every earlier call with its key has ended: mutual exclusion and first come, first served |
| ExclusiveQueue.EntryWhileBusy | src/services/write-operation-service.ts:338-347 | the map has an entry for a key exactly while an operation on it is running or queued |
| ExclusiveQueue.NeverBlocked | src/services/write-operation-service.ts:332-341 | the first unfinished call for a key can always start, whether the ones before it returned or threw |
| ExclusiveQueue.ThrowReleases | src/services/write-operation-service.ts:341-348 | after an operation that threw, as after one that returned, the promise stored for it and the one its successor waits for have resolved, and the successor starts when it resumes |
| ExclusiveQueue.RefinesLockTable | src/services/write-operation-service.ts:330-349 | the promise chain refines a table of locks: an operation starts only by taking a free lock and ends only by freeing its own |
| WriteQueue.ChainsImplementLocks | src/services/write-operation-service.ts:252-349 | with the promise chains deciding who enters, every run is a run of the protocol and of the queue, and an execution whose promise has resolved finds its intent free and enters |
| WriteQueue.EnterInOrder | src/services/write-operation-service.ts:252-349 | executions of one intent enter in the order in which they were called, each after the ones before have finished |
| CanonicalJson.CanonicalDecidesMeaning | src/services/write-operation-service.ts:55-67 | two JSON values have the same canonical text exactly when they are the same up to key order |
| CanonicalJson.CanonicalText | src/services/write-operation-service.ts:55-67 | the canonical text is what `JSON.stringify` prints of the same value with the keys of every object in order |
| CanonicalJson.LessIsLexicographic | src/services/write-operation-service.ts:64-64 | that order is the dictionary order of code units |
| CanonicalJson.CanonicalSelfDelimiting | src/services/write-operation-service.ts:55-67 | where a canonical text ends is decided by the text, so equal concatenations come from values that mean the same |
| CanonicalJson.CanonicalSurvivesJournal | src/services/write-operation-service.ts:508-508 | writing a value to the journal and reading it back leaves its canonical text as it was |
| CanonicalJson.RoundTrip | src/services/write-operation-service.ts:535-535 | a value printed by `JSON.stringify`, compact or indented, is read back as it was |
| RecordText.RecordSurvivesText | src/services/write-operation-service.ts:469-491 | a record that passes validation comes back from the indented text of its object as the very same record, whatever the order of the members |
| RecordText.JournalSurvivesText | src/services/write-operation-service.ts:521-547 | in every run, the text of the file of every record reads back as that record |
| RecordText.HasObject | src/services/write-operation-service.ts:508-508 | every record whose payload, metadata and result are JSON has such an object |
| EvmAbiMeaning.DecodesEncoded | src/utils/evm-abi.ts:164-329 | every list of arguments that stand for values of their types, with a text shorter than 2^256 bytes, is encoded in exactly as many bytes, and the decoder of the standard, which refuses padding that is not zero, finds at each position the value that the JavaScript argument stands for |
| EvmAbiMeaning.EncodesExactly | src/utils/evm-abi.ts:164-329 | the encoder accepts exactly the arguments that stand for values of the types they are given with, in which the length and the offset of every dynamic value are below 2^256 |
| EvmAbiMeaning.DescribedOnce | src/utils/evm-abi.ts:186-303 | a type name names one type at most, and an argument stands for one value of it at most |
| EvmAbiMeaning.WrittenIntegers | src/utils/evm-abi.ts:186-206 | an integer may be given as bigint, as safe number, in decimal, or after `0x` in hexadecimal, with white space around or not |
| JsText.TrimLeavesMiddle | src/utils/evm-abi.ts:315-315 | a text is what `trim` leaves of it between white space, with no white space at either end of that |
| Utf8Text.Utf8Decodes | src/utils/evm-abi.ts:289-297 | the bytes of a string are read back as its code points by a decoder written from RFC 3629 |
| EvmAbi.LayoutPlaces | src/utils/evm-abi.ts:315-328 | each head stands at its own word, and the head of a dynamic component is the byte offset at which its own tail stands |
| EvmAbi.LayOut | src/utils/evm-abi.ts:315-328 | the loop over the two accumulators produces the layout of the standard, or fails exactly when an offset does not fit a word |
| EvmAbi.EncodeAbiParameters | src/utils/evm-abi.ts:305-329 | the encoder as it runs gives the specified text or refusal |
| KeccakPadding.PadMessage | src/utils/evm-abi.ts:83-87 | the array that is absorbed is the padded message, a multiple of 136 bytes |
| KeccakPadding.PaddedText | src/utils/evm-abi.ts:83-87 | a message is padded with 0x01, zeros and 0x80, or with 0x81 where the two meet, to the next multiple of 136 bytes |
| KeccakPadding.PaddingIsInjective | src/utils/evm-abi.ts:83-87 | two messages with the same padding are the same message |
| NeoVmInteger.DecodeEncode | src/handlers/neo-data-tools.ts:161-192 | decoding undoes encoding on the whole range from -2^255 to 2^255-1, in at most 32 bytes |
| NeoVmInteger.EncodeShortest | src/handlers/neo-data-tools.ts:161-179 | no byte string that decodes to a value is shorter than its encoding |
| NeoVmInteger.EncodeDecode | src/handlers/neo-data-tools.ts:161-192 | encoding what was decoded gives the bytes back exactly when they are minimal |
| NeoVmInteger.IntegerToSignedLittleEndian | src/handlers/neo-data-tools.ts:161-179 | the encoder's two loops give the specified bytes, and refuse exactly the values out of range |
| NeoVmInteger.SignedLittleEndianToInteger | src/handlers/neo-data-tools.ts:181-192 | the decoder's loop gives the specified value, and refuses exactly more than 32 bytes |
| DecimalAmounts.ScaleUndoesFormat | src/utils/transaction-proposal.ts:101-120 | scaling what `formatUnits` wrote gives the amount back, for every amount from 1 to 2^255-1 and every precision up to 255 |
| DecimalAmounts.ScalesAgree | src/services/neo-service.ts:1086-1106 | the two scaling functions accept the same amounts and return the same, except that the service wants them trimmed and at most 1024 long |
| DecimalAmounts.ScalesExactly | src/utils/transaction-proposal.ts:101-120 | an amount is scaled to n exactly when it is a decimal numeral with no more places than the token has and is n of its smallest units, n positive and in range |
| DecimalAmounts.FormatUnitsInjective | src/handlers/neox-node-tools.ts:99-111 | no two amounts of either sign are written the same |
| DecimalAmounts.GasTextIsFormatUnits | src/utils/transaction-preparation.ts:11-16 | cutting digits gives the same GAS text as dividing, for every amount |
| DecimalAmounts.ParseUndoesFormat | src/utils/transaction-preparation.ts:39-49 | every amount of at least one dato is read back from its GAS text |
| DecimalAmounts.ParsesExactly | src/utils/transaction-preparation.ts:39-49 | a GAS text is read as n datos exactly when it is a decimal numeral without leading zeros and with at most eight places that is so many, n positive |
| ContractParamsFixpoint.Fixpoint | src/utils/contract-params.ts:133-281 | formatting accepted output again gives exactly that output if the arguments have at most 10,000 parts, names of plain objects counted and objects that `toJson` replaces not, and fails for too many values if not |
| ContractParamsParts.OutputCounts | src/utils/contract-params.ts:133-281 | accepted arguments become as many parameters as their parts, on any graph of values |
| ContractParamsFixpoint.FixpointFailsForManyNames | src/utils/contract-params.ts:263-269 | an object with 5,000 names is accepted and its output is refused |
| ContractParamsFixpoint.AcceptedIsCanonical | src/utils/contract-params.ts:212-281 | accepted arguments are in canonical form, no part lies more than 32 levels down, and at most 10,000 values were visited |
| ContractParamsFixpoint.MapKeysUnique | src/utils/contract-params.ts:181-205 | no two keys of an accepted map are the same |
| ContractParamsMeaning.FormatsExactly | src/utils/contract-params.ts:92-281 | on any graph of values, arguments are formatted as exactly the parameters that they mean, by a relation between JavaScript values and parameters, and refused exactly when they mean none or there are more than 10,000 to visit |
| ContractParamsFormatter.FormatContractParameters | src/utils/contract-params.ts:275-281 | the canonicaliser as it runs, counting in one context, gives exactly the parameters that the arguments mean, or the specified error, and ends on any graph |
| Base64.RoundTrip | src/utils/contract-params.ts:242-244 | every byte string is read back from its base64 text |
| Failover.ExecuteWithFailover | src/utils/rpc-client.ts:165-217 | the endpoints asked are the first of the list in order, each when the one before gave up; the call keeps to its budget; a definitive answer ends it; endpoint i is asked after i transport failures whenever 8000 i is less than the budget |
| Failover.Execute | src/utils/rpc-client.ts:228-247 | only a list without a usable endpoint is refused; otherwise the usable endpoints are swept as above within a budget that the call may only shorten, and the outcome is what the network answered; no endpoint is asked twice, and a submission reaches one |
| Failover.SweepTells | src/utils/rpc-client.ts:180-205 | every reply is what the network gives within the limit of its attempt, 8000 ms for all but the last endpoint or what is left; each attempt begins when the one before failed in transport or timed out |
| Failover.OutcomeTells | src/utils/rpc-client.ts:192-216 | a value, an error with a code and an unknown method end the sweep and are its outcome; a failure of the transport and a timeout do not |
| Failover.SubmissionsAre | src/utils/rpc-client.ts:35-38 | the methods sent to one endpoint only are the two that submit, in capitals or not |
| Failover.UrlListMembers | src/utils/rpc-client.ts:59-64 | the endpoint list holds exactly the trimmed texts that are not blank, each once |
| Failover.UrlListStable | src/utils/rpc-client.ts:59-64 | normalising an endpoint list twice changes nothing |
| Failover.UrlListOrder | src/utils/rpc-client.ts:59-64 | endpoints come in the order in which they are first named |
| RpcDeadline.SettlesOnceWithFirst | src/utils/rpc-deadline.ts:30-88 | for any budget, signal and order of events: the promise settles at most once, with the first event that can settle it; the operation is called once, and not at all without time or after an abort; timer and listener are in place exactly until the promise settles |
| Polling.PollForTransaction | src/services/neo-service.ts:828-911 | the wait ends; each turn but the last goes on with the deadline not reached, and the next begins after exactly the interval, or what is left, plus the lateness of the timer; the result and its time are those of the last turn, and the polls are exactly those of the turns; polls are at least an interval apart and at most floor((timeout-1)/interval)+1; it gives up only at the deadline or later |
| Polling.OneHistory | src/services/neo-service.ts:828-911 | what happens in the turns decides the whole wait: when its turns begin, its result and when it ends |
| Polling.NodeDecides | src/services/neo-service.ts:841-901 | a wait is confirmed exactly when, in its last turn and no turn before, the node gave the height in time and the transaction or a deadline; the result holds just what the node said; an error worth another poll never confirms nor fails the wait, and any other fails it with that error |
| Polling.LatePolls | src/services/neo-service.ts:841-846 | a poll is sent at or after the deadline exactly when the last turn begins before it, is not aborted, and waits for a network magic that arrives without error until then; no poll before the last is late |
| Polling.LatePollIsOnlyPoll | src/services/neo-service.ts:1717-1749 | since the magic is kept once it has arrived, a late poll is the only poll of its wait, and once the magic is known every poll is sent before the deadline |
| Polling.PollAfterDeadline | src/services/neo-service.ts:949-955 | a wait of one second whose first request for the magic takes five sends its poll four seconds after its deadline |
| Polling.SpacedCount | src/services/neo-service.ts:828-911 | polls that are an interval apart within the timeout are at most floor(timeout/interval)+1 |
| Polling.TransactionWaits.Begin | src/services/neo-service.ts:804-821 | a call is refused by the first check that fails, or counted |
| Polling.TransactionWaits.WaitForTransaction | src/services/neo-service.ts:804-826 | a call that is not refused waits as the polling loop does and is over and uncounted at its end, however it ends and whatever other calls begin or end meanwhile |
| Polling.WaitsAreCounted | src/services/neo-service.ts:814-825 | however calls and endings interleave, the counter is the number of calls that wait, at most the maximum; it is zero exactly when none waits; and a call that passes the other checks is refused exactly when the maximum is waiting |
| Polling.CountedWhen | src/services/neo-service.ts:811-821 | a call is counted exactly when its times are within the limits, it is not aborted and fewer than the maximum wait |
| RateLimiter.EachClientAlone | src/utils/rate-limiter.ts:66-108 | in any run each client is answered as if it had a limiter of its own that never cleans up |
| RateLimiter.OnlyOwnRequestsMatter | src/utils/rate-limiter.ts:92-108 | neither cleanup, wherever it runs, nor other clients change an answer |
| RateLimiter.SlidingBound | src/utils/rate-limiter.ts:143-176 | in any half-open interval as long as the window a client is admitted at most twice the maximum, over any run from any state |
| RateLimiter.HourlySlidingBound | src/utils/rate-limiter.ts:72-74 | likewise in any hour, with the hourly maximum |
| RateLimiter.FixedWindow | src/utils/rate-limiter.ts:143-160 | in a window that a request opens a client is admitted at most the maximum, and with no hourly maximum its k-th request there is admitted exactly when k is within the maximum |
| RateLimiter.FixedHour | src/utils/rate-limiter.ts:143-160 | in an hourly window a client is admitted at most the hourly maximum |
| RateLimiter.RetryAfterSuffices | src/utils/rate-limiter.ts:162-175 | a client that waits as long as the refusal says is not refused by the same window next |
| RateLimiter.RefusalTells | src/utils/rate-limiter.ts:143-176 | a refusal names the full window, its maximum and the requests it has counted, and the least positive number of seconds after which it is over |
| RateLimiter.ResetStartsAfresh | src/utils/rate-limiter.ts:83-87 | a client that is reset is answered from then on as one never seen before, and every other client as if nothing had happened |
| RateLimiter.Limiter.CheckLimit | src/utils/rate-limiter.ts:66-77 | the check as it runs gives the specified answer and state, and does nothing when disabled |
| RateLimiter.Limiter.Cleanup | src/utils/rate-limiter.ts:92-108 | the deleting loop removes exactly the entries whose window is over |
| NegativeCache.RunKeepsInv | src/contracts/n3index-client.ts:143-192 | over any run the cache stays within its maximum, in the order of expiry, with one entry for a name, each backed by a lookup that found nothing |
| NegativeCache.CachedNullIsRecent | src/contracts/n3index-client.ts:149-169 | a name is answered from the cache only if within the last lifetime an event settled a lookup of that name with the answer that there is none |
| NegativeCache.OnlyMissesAreCached | src/contracts/n3index-client.ts:163-169 | an entry comes into the cache only by such an event, one lifetime before it expires; what a lookup found, or why it failed, leaves the cache as it was |
| NegativeCache.StaysCached | src/contracts/n3index-client.ts:177-192 | a name that was not found is answered from the cache for its whole lifetime, unless as many lookups as the cache has room for found nothing since |
| NegativeCache.DropsSoonestToExpire | src/contracts/n3index-client.ts:186-190 | when a full cache drops an entry, all that it keeps expire no sooner |
| NegativeCache.OneLookupPerName | src/contracts/n3index-client.ts:158-174 | no two lookups of one name are under way together, and who waits is told of the only one |
| NegativeCache.N3IndexClient.ResolveByName | src/contracts/n3index-client.ts:143-175 | `resolveByName` up to its first wait gives the specified outcome and state |
| NegativeCache.N3IndexClient.CacheNegativeResult | src/contracts/n3index-client.ts:177-192 | the purging and evicting loops leave the specified cache |
| GraphQlGuard.StripStringsAndComments | src/indexer/blockscout-graphql-guard.ts:135-182 | the nested loops, whose index may pass the end, give the specified text |
| GraphQlGuard.StripIsIdempotent | src/indexer/blockscout-graphql-guard.ts:135-182 | what is left has no quote and no hash, stripping again changes nothing, and a document is unchanged exactly when it has neither |
| GraphQlGuard.StringIsInert | src/indexer/blockscout-graphql-guard.ts:150-162 | what a string literal says, escaped quotes included, has no effect on what is left |
| GraphQlGuard.CommentIsInert | src/indexer/blockscout-graphql-guard.ts:165-171 | what a comment says, up to the end of its line or of the document, has no effect on what is left |
| GraphQlGuard.BlockIsInert | src/indexer/blockscout-graphql-guard.ts:142-149 | what a block string says has no effect on what is left, and what follows it is stripped as it would be alone |
| GraphQlGuard.AssertBoundedDepth | src/indexer/blockscout-graphql-guard.ts:244-262 | a document is refused exactly when some stretch of it opens more than eight braces over those it closes |

## Left out

- The HTTP and MCP servers, the tool registry, the REST, find and query guards, configuration, logging, wallets and signer files: input and output, finite tables or allow-list filters.
- neon-js: addresses, scripts, signing, deployment and opcodes. Only the two checks that contract parameters need appear, as unknown functions.
- The writer lock of the journal directory, file modes, symlinks, temporary names, failing `fsync` calls and a crash inside `create`, which can leave an unreadable record that only blocks its key.
- `WriteCoordinator.execute` before `operations.execute`: the network check and the signer lookup, which only refuse; and what `prepare` builds, which is any answer.
- Payload values that are not JSON, such as `undefined`; printed numbers are texts of the number grammar, not computed from floating point.
- The error texts of the original. Errors are constructors, one for each reason that the code tells apart.
- Members of a write intent beyond the four it is declared with. `reserve` hashes every member of what it is given and the reader hashes those four, so a fifth would store a record that never reads back; the coordinator passes four.
- The Keccak permutation, function selectors and `encodeFunctionCall`.
- Agreement of the GraphQL guard with a GraphQL lexer, which does not hold for block-string escapes; its token checks and its check of variables.
- WriteService.WriteOperationService.ExecuteOperation: starts when the execution enters `runExclusive`; the wait before that is the queue of `ExclusiveQueue`, and a crash of its own process ends it and is a step of the state machine instead.
- RateLimiter.Limiter.CheckLimit: the constructor's `RangeError` for settings that are not positive integers is a precondition; `updateSettings` and `setEnabled` during a run are not modelled.
- NegativeCache.N3IndexClient.ResolveByName: takes the name already trimmed and lower-cased; which contract a lookup finds and its own timeouts are any answer.
- RecordText.JournalSurvivesText: a transaction id that someone else wrote into the file as an array of one text would pass the original's pattern test; the reader here takes only texts.
- Polling.PollForTransaction: which error texts are worth another poll is part of the answer, not read off the text.
- Failover.ExecuteWithFailover: the request's own timer fires on time, and no time passes between requests.
- ContractParamsFormatter.FormatContractParameters: arrays without holes, `toJson` methods that return rather than throw, and no getters.
- KeccakPadding.PadMessage: the absorbing loop and the 64-bit lanes behind it are not modelled.
