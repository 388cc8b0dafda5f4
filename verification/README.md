# Rusty Quest tools: relays, kernel contracts and scanners

A Dafny model of the parts of this repository's Python tooling whose correctness is not visible in one
function, and proofs about it.

* **Experiment control relay** (`SessionModel`, `SessionRuns`, `SessionAnswers`, `SessionObject`). `Session` is
  a class whose lock-protected methods update its fields. Each method is proved equal to one step of a state
  machine. Theorems are about every interleaving of browsers, waiters and device calls, with a trace of
  everything that happened.
* **SPIR-V kernel contract** (`SpirvWords`, `SpirvModule`, `SpirvAbi`, `SpirvReflect`, `SpirvBinary`,
  `SpirvHeader`, `SpirvEncode`, `SpirvRenaming`, `SpirvFixture`). The loops and dictionaries of
  `reflect` and `binary_contract` accept exactly the streams that satisfy a declarative ABI predicate,
  `FixedAbi`. The framing and the literal strings are those of sections 2.3 and 2.2.1 of the Khronos SPIR-V Specification.
* **Negative fixtures** (`SpirvNegative`). `mutate` and the stager's independent re-check agree, and what
  they agree on is always rejected by the contract.
* **Staging protocol** (`StageProtocol`, `StageReceipts`). Any number of processes on one output path,
  crashing anywhere.
* **ABI canonicalisation** (`Ordering`, `AbiTables`, `JsonText`, `JsonParse`, `AbiCanonical`, `AbiMeaning`).
  The text that `abi` returns does not depend on ids or on line order, and what two equal texts mean is stated without it.
* **Java scanners** (`JavaScan`, `JavaDeclaration`, `JavaHeader`, `JavaSplice`). Two independent brace scanners agree
  with a declarative lexer, and when splicing a method leaves the enclosing block intact is stated exactly.
* **Flood fill** (`Components`), and the **TLS byte relay** (`RelayCodec`, `RelaySocket`, `RelayLanes`, `RelayProgress`,
  `RelayText`):
  authentication prelude over a chunked stream, lane pairing and forwarding under every interleaving.

`dafny verify dfyconfig.toml` checks everything.

Five properties one might expect do not hold as first stated. Each has a failing input and an exact
condition:

* `bytes_forwarded <= 65536 * chunks_forwarded` is broken between the forwarder's two counter updates
  (`RelayLanes.BoundFailsMidCount`). It holds at every other moment, and between the updates exactly when the
  uncounted chunk fits into what the counted ones fell short (`RelayLanes.ReceiverHoldsPrefixOfPayload`).
* A method header that matches the declaration pattern may hold a closing brace, and then a splice disturbs
  the enclosing block (`JavaSplice.HeaderBraceBreaksDeletion`, `JavaSplice.HeaderBraceBreaksReplacement`). The
  exact conditions are: for deletion, no such brace or no end of the block to move; for replacement, fewer such
  braces than the scan is deep, or no change in length (`JavaSplice.DeletionMovesEnclosingEnd`,
  `JavaSplice.ReplacementMovesEnclosingEnd`).
* The stager compares read-back bytes by length and digest, so a digest collision is dispatched
  (`StageProtocol.CollisionIsDispatched`); all dispatches are exact if and only if there is none between
  strings of equal length (`StageProtocol.ReadbackIsExact`).
* A later splice of a replaced method does not always win: a new body may declare the name again, and then it
  raises (`JavaSplice.DeclaringBodyBreaksResplice`). It wins if and only if nothing behind the method's brace
  matches the pattern (`JavaSplice.LastSpliceWins`).
* `extract_method` does not always return what deletion takes out: the text may hold no indented declaration
  (`JavaSplice.ExtractionNeedsNoDeclaration`), or the signature may occur elsewhere first
  (`JavaSplice.SignatureElsewhere`). For a name with one hit the two meet if and only if the first brace from the
  signature is the method's (`JavaSplice.ExtractionMeetsDeletion`).

## Model

| member | source | states |
|---|---|---|
| SessionRuns.EveryRequestHasOneOutcome | tools/experiment_control_relay.py:91-160 | In every run each accepted key is still open or has one of three finished histories: its waiter got response r exactly when a reply r for that key was accepted after that key was delivered; otherwise it got `outcome_unknown`, and the job had expired or the session was revoked. |
| SessionRuns.DeliveryIsFifoAndAtMostOnce | tools/experiment_control_relay.py:104-132 | Over every run delivered keys are duplicate-free and a subsequence of acceptance order. |
| SessionRuns.IdlePollLeavesNothingWaiting | tools/experiment_control_relay.py:104-110 | After a successful empty poll every job left in `jobs` is delivered or expired. |
| SessionRuns.ReachableStateInvariant | tools/experiment_control_relay.py:91-160 | Every reachable state: at most 8 jobs; `pending` duplicate-free, in `jobs`, undelivered; every job pending, delivered, expired or the session revoked; response implies delivered and event; event without response implies revoked; revoked implies empty queue and all events set. |
| SessionRuns.RunKeepsInv | tools/experiment_control_relay.py:91-163 | All invariants (state, per-key history, order, epoch, revocation) are kept by every legal run. |
| SessionRuns.OneEpochPerRun | tools/experiment_control_relay.py:99-110 | Any two polls of a run that succeeded, with or without a delivery, claimed the same device epoch. |
| SessionRuns.EpochChangeRetires | tools/experiment_control_relay.py:99-103 | After any successful poll of a run, a live well-formed poll with another epoch is answered `device_epoch_changed`, and in every continuation the session stays revoked with an empty queue, gains no job, and no poll succeeds. |
| SessionRuns.RevokedOnlyByRevocation | tools/experiment_control_relay.py:157-163 | At every point of every run the session is revoked if and only if an earlier step was a revoke or an epoch change. |
| SessionRuns.NothingSucceedsOnceRevoked | tools/experiment_control_relay.py:87-89 | In every continuation of a revoked session each poll, identity read, reply and admissible enqueue is answered `scope_retired`, and no call polls, identifies or enqueues successfully. |
| SessionRuns.RevocationIsAbsorbing | tools/experiment_control_relay.py:134-163 | In every continuation the session stays revoked with an empty queue, no job is added, every waiter is enabled, and jobs left plus finishes equal the at most 8 jobs there were. |
| SessionRuns.WaiterIsNeverStuck | tools/experiment_control_relay.py:134-143 | In every reachable state every open job's waiter can finish no later than the job's expiry or at once, and any enabled finish removes the job and leaves one of the three finished histories. |
| SessionRuns.ScanSpec | tools/experiment_control_relay.py:104-110 | The delivery loop drops a prefix of the queue, every dropped job expired at its own clock reading, and a delivered one had time left. |
| SessionRuns.PollCases | tools/experiment_control_relay.py:91-110 | A poll either changes nothing and is rejected, retires the session, empties the queue, or delivers one queued job and marks only it. |
| SessionAnswers.AnswerToIdentityRead | tools/experiment_control_relay.py:112-117 | In every run an identity read is answered with device and epoch of the last successful poll if and only if the session is in scope and that poll was at most 15 seconds ago; otherwise `scope_retired` or `device_offline`. |
| SessionAnswers.AnswerToEnqueue | tools/experiment_control_relay.py:119-132 | In every run an enqueue is accepted if and only if its body is an object of at most 65536 bytes, the session is in scope, the last successful poll was at most 15 seconds ago and fewer than 8 accepted requests are unfinished; each refusal has its reason. |
| SessionAnswers.AnswerToPoll | tools/experiment_control_relay.py:91-103 | In every run a poll succeeds if and only if the session is in scope, the claim is well formed with a decimal epoch of at most 20 digits, and no earlier successful poll claimed another epoch; each refusal has its reason. |
| SessionAnswers.AnswerToReply | tools/experiment_control_relay.py:145-155 | In every run a reply is accepted if and only if the session is in scope, its key was handed out, is neither answered nor given up and has time left, and its body is an object of at most 65536 bytes; each refusal has its reason. |
| SessionAnswers.PollDeliversOldest | tools/experiment_control_relay.py:104-110 | A delivering poll hands out a request never handed out before, unchanged and with time left, and every request accepted before it and still only queued has expired. |
| SessionObject.Session.constructor | tools/experiment_control_relay.py:72-78 | A new session is the start state of the machine. |
| SessionObject.Session.Poll | tools/experiment_control_relay.py:91-110 | The method's effect and result are one poll step. |
| SessionObject.Session.Deliver | tools/experiment_control_relay.py:104-110 | The popping loop computes the queue scan and marks at most the delivered job. |
| SessionObject.Session.DeviceIdentity | tools/experiment_control_relay.py:112-117 | The bound identity, or retired or offline. |
| SessionObject.Session.Enqueue | tools/experiment_control_relay.py:119-132 | One enqueue step; the new job is a fresh object under a new key. |
| SessionObject.Session.Finish | tools/experiment_control_relay.py:134-143 | One finish step: job and queue entry gone, response or `outcome_unknown`. |
| SessionObject.Session.Reply | tools/experiment_control_relay.py:145-155 | One reply step. |
| SessionObject.Session.WakeAll | tools/experiment_control_relay.py:157-160 | The loop sets the event of every job and changes nothing else of it. |
| SessionObject.Session.RevokeAll | tools/experiment_control_relay.py:157-160 | Every event set, queue emptied, nothing else changed. |
| SpirvReflect.Reflect | apps/spatial-worldspace-hotload-android/Prepare-ExternalHotloadKernel.py:48-168 | Accepts if and only if the module has the fixed ABI: one GLCompute "main" with LocalSize 2 1 1, one StorageBuffer at set 0 binding 0 holding a stride-16 runtime array of f32 vec4, one push block with offsets 0 and 16, interfaces equal to the builtin inputs, and no other resource global or layout decoration. |
| SpirvReflect.Collect | apps/spatial-worldspace-hotload-android/Prepare-ExternalHotloadKernel.py:50-85 | The first loop succeeds exactly on well-nested modules without repeated results or decoration keys, and then its dictionaries say exactly what the module says. |
| SpirvReflect.SortGlobals | apps/spatial-worldspace-hotload-android/Prepare-ExternalHotloadKernel.py:122-152 | The loop over the globals succeeds exactly when each is an acceptable output, push block, input or private variable, and collects each kind in order. |
| SpirvReflect.CheckResources | apps/spatial-worldspace-hotload-android/Prepare-ExternalHotloadKernel.py:122-167 | Succeeds if and only if one output, one push block, matching inputs and a closed layout exist. |
| SpirvModule.FixedAbiHasOneBinding | apps/spatial-worldspace-hotload-android/Prepare-ExternalHotloadKernel.py:130-167 | A module with the fixed ABI has exactly one Binding decoration and its operand is 0. |
| SpirvAbi.FixedAbiInWords | apps/spatial-worldspace-hotload-android/Prepare-ExternalHotloadKernel.py:48-168 | The fixed ABI is exactly a second description that shares nothing with the first, with every opcode, symbol and number written out: alternating function marks, no repeated result or key, one kernel interface, and nothing else. |
| SpirvAbi.GlobalsAreOutside | apps/spatial-worldspace-hotload-android/Prepare-ExternalHotloadKernel.py:66-75 | The globals are the variables with an even number of function marks before them. |
| SpirvFixture.FixtureHasFixedAbi | apps/spatial-worldspace-hotload-android/Test-ExternalHotloadKernel.py:23-42 | The interface instructions of the hand-written test module have the fixed ABI. |
| SpirvFixture.FixtureIsAccepted | apps/spatial-worldspace-hotload-android/Test-ExternalHotloadKernel.py:23-42 | Written as a file they satisfy the contract, so the theorems about accepted files are not vacuous. |
| SpirvEncode.DecodeEncode | apps/spatial-worldspace-hotload-android/Prepare-ExternalHotloadKernel.py:203-248 | For every module whose instructions can be written with ids below the bound, decoding its words gives it back. |
| SpirvEncode.EncodableIsDecodable | apps/spatial-worldspace-hotload-android/Prepare-ExternalHotloadKernel.py:203-248 | The modules that some stream decodes to are exactly those that can be written. |
| SpirvEncode.LineIsWritten | apps/spatial-worldspace-hotload-android/Prepare-ExternalHotloadKernel.py:206-247 | Every decoded instruction is written back as the same opcode and operand words. |
| SpirvEncode.SymbolsAreRead | apps/spatial-worldspace-hotload-android/Prepare-ExternalHotloadKernel.py:173-186 | The decoder knows every symbol by its code, and only in its place. |
| SpirvEncode.WrittenFileIsAcceptedIffFixedAbi | apps/spatial-worldspace-hotload-android/Prepare-ExternalHotloadKernel.py:189-248 | A written module of admissible size and id bound is an accepted file if and only if it has the fixed ABI. |
| SpirvBinary.BinaryContract | apps/spatial-worldspace-hotload-android/Prepare-ExternalHotloadKernel.py:189-248 | Accepts exactly the files whose size, header and framing are right and whose decoded interface has the fixed ABI. |
| SpirvBinary.StreamConcat | apps/spatial-worldspace-hotload-android/Prepare-ExternalHotloadKernel.py:203-248 | Decoding a well-framed part followed by any rest is decoding both and joining the results. |
| SpirvHeader.AcceptedHeader | apps/spatial-worldspace-hotload-android/Prepare-ExternalHotloadKernel.py:189-193 | Every accepted file has 20 to 65536 bytes in whole words, the magic number, version 1.3, a zero fifth word and an id bound from 2 to 65536, byte for byte. |
| SpirvHeader.HeaderIsExact | apps/spatial-worldspace-hotload-android/Prepare-ExternalHotloadKernel.py:189-193 | Of an accepted header exactly the generator word may be changed, given the same id bound. |
| SpirvHeader.RefusedInstructionIsRejected | apps/spatial-worldspace-hotload-android/Prepare-ExternalHotloadKernel.py:203-212 | A stream with one of the fourteen refused opcodes at an instruction boundary is rejected, whatever else it holds. |
| SpirvBinary.OutsideInstructionsAreInvisible | apps/spatial-worldspace-hotload-android/Prepare-ExternalHotloadKernel.py:203-212 | Inserting or removing a framed instruction whose opcode is outside the named ones and outside 48..52 never changes the verdict. |
| SpirvBinary.OutsideInstructionsAreInvisibleInFiles | apps/spatial-worldspace-hotload-android/Prepare-ExternalHotloadKernel.py:189-212 | The same for files within the size bound. |
| SpirvRenaming.VerdictIsRenamingInvariant | apps/spatial-worldspace-hotload-android/Prepare-ExternalHotloadKernel.py:48-168 | Renaming the ids of a module without merging any leaves the verdict unchanged, both ways. |
| SpirvRenaming.FixedAbiRenamed | apps/spatial-worldspace-hotload-android/Prepare-ExternalHotloadKernel.py:48-168 | An accepted module stays accepted under an injective renaming. |
| SpirvRenaming.RenameBack | apps/spatial-worldspace-hotload-android/Prepare-ExternalHotloadKernel.py:48-168 | An injective renaming has an inverse that restores the module. |
| SpirvWords.LiteralOfPackString | apps/spatial-worldspace-hotload-android/Prepare-ExternalHotloadKernel.py:197-202 | For every NUL-free ASCII s and any following words, decoding the packing of s gives s and its packed length. |
| SpirvWords.PackStringOfLiteral | apps/spatial-worldspace-hotload-android/Prepare-ExternalHotloadKernel.py:197-202 | Every accepted literal starts with exactly the packing of what it decodes to. |
| SpirvWords.UnpackPack | apps/spatial-worldspace-hotload-android/Prepare-ExternalHotloadKernel.py:191-191 | Unpacking little-endian words after packing gives them back. |
| SpirvWords.PackUnpack | apps/spatial-worldspace-hotload-android/Prepare-ExternalHotloadKernel.py:191-191 | Packing after unpacking gives the bytes back. |
| SpirvWords.PackUpdate | apps/spatial-worldspace-hotload-android/Prepare-ExternalHotloadNegative.py:100-125 | Changing one word changes its four bytes and no others. |
| SpirvNegative.MutationIsOneRejectedWord | apps/spatial-worldspace-hotload-android/Prepare-ExternalHotloadNegative.py:100-125 | For every accepted stream and both presets exactly the described word changes, and the changed stream is rejected. |
| SpirvNegative.Mutate | apps/spatial-worldspace-hotload-android/Prepare-ExternalHotloadNegative.py:100-125 | Succeeds exactly on contract-valid files, returns the one-word mutation with its descriptor, and never reaches "unexpectedly passed". |
| SpirvNegative.FindBindings | apps/spatial-worldspace-hotload-android/Prepare-ExternalHotloadNegative.py:109-115 | The walk finds the binding operands of the framed stream, in order. |
| SpirvNegative.AcceptedHasOneBindingWord | apps/spatial-worldspace-hotload-android/Prepare-ExternalHotloadNegative.py:109-118 | Every accepted stream has exactly one binding word and it is 0. |
| SpirvNegative.HitsAreBindingValues | apps/spatial-worldspace-hotload-android/Prepare-ExternalHotloadNegative.py:109-115 | The words found by the raw walk are the Binding operands of the decoded module, in order. |
| SpirvNegative.HitsSurviveChange | apps/spatial-worldspace-hotload-android/Prepare-ExternalHotloadNegative.py:109-118 | Changing a binding word does not move any binding word. |
| SpirvNegative.WrongBindingIsRejected | apps/spatial-worldspace-hotload-android/Prepare-ExternalHotloadNegative.py:109-125 | A stream whose only binding word is set to 1 is rejected. |
| SpirvNegative.MalformedInstructionIsRejected | apps/spatial-worldspace-hotload-android/Prepare-ExternalHotloadNegative.py:100-125 | A stream whose first instruction has word count 0 is rejected. |
| SpirvNegative.StagerBindings | apps/spatial-worldspace-hotload-android/Stage-ExternalHotloadCandidate.py:153-163 | The stager's walk succeeds exactly on framed streams and finds the same binding words. |
| SpirvNegative.ValidateMutation | apps/spatial-worldspace-hotload-android/Stage-ExternalHotloadCandidate.py:140-163 | Accepts exactly what the stager's conditions on length, descriptor, patched bytes and binding words allow. |
| SpirvNegative.StagerAcceptsExactlyMutate | apps/spatial-worldspace-hotload-android/Stage-ExternalHotloadCandidate.py:140-163 | For every contract-valid parent the stager accepts (code, descriptor, preset) if and only if `mutate` yields exactly them. |
| SpirvNegative.StagerAcceptsInWords | apps/spatial-worldspace-hotload-android/Stage-ExternalHotloadCandidate.py:140-163 | For any parent the stager accepts exactly equal sizes in range with one described word changed behind the header, as the preset says. |
| SpirvNegative.StagedNegativeIsInvalid | apps/spatial-worldspace-hotload-android/Stage-ExternalHotloadCandidate.py:140-163 | No negative the stager accepts, for any parent and size, is contract-valid or equal to its parent. |
| StageProtocol.DispatchedAtMostOnce | apps/spatial-worldspace-hotload-android/Stage-ExternalHotloadCandidate.py:181-231 | Over all processes, crashes and reruns on one output path there is at most one dispatch. |
| StageProtocol.DispatchIsPrepared | apps/spatial-worldspace-hotload-android/Stage-ExternalHotloadCandidate.py:181-231 | A dispatch comes after both validated files were written and read back with equal length and digest by the same process, and while the durable receipt says `stageInvoked` with unknown result. |
| StageProtocol.ReadbackIsExact | apps/spatial-worldspace-hotload-android/Stage-ExternalHotloadCandidate.py:181-231 | Every dispatch of every run had read back exactly the validated bytes of both files if and only if no two different byte strings of equal length share a digest. |
| StageProtocol.CollisionIsDispatched | apps/spatial-worldspace-hotload-android/Stage-ExternalHotloadCandidate.py:181-231 | For any two such strings a run exists that validates and writes one, reads back the other, and dispatches. |
| StageProtocol.RerunsMakeNoDeviceCall | apps/spatial-worldspace-hotload-android/Stage-ExternalHotloadCandidate.py:181-231 | Every device call of every run was made by the process that created the output path. |
| StageProtocol.LaterProcessOnlyStops | apps/spatial-worldspace-hotload-android/Stage-ExternalHotloadCandidate.py:181-231 | Once the path exists, any other process ends at its next step and changes nothing. |
| StageProtocol.NotInvokedMeansNotDispatched | apps/spatial-worldspace-hotload-android/Stage-ExternalHotloadCandidate.py:181-231 | A saved receipt that says "not invoked" proves that nothing was dispatched. |
| StageReceipts.ReceiptIsTrue | apps/spatial-worldspace-hotload-android/Stage-ExternalHotloadCandidate.py:181-231 | In every run a saved receipt claims verification, transfer and response only when they happened; a failed receipt claims each exactly then; any other has one of three values. |
| StageReceipts.AnsweredDispatchIsRecorded | apps/spatial-worldspace-hotload-android/Stage-ExternalHotloadCandidate.py:218-227 | From every reachable state at the dispatch, three successful steps end in the saved receipt `stage_response_received` without failure. |
| StageReceipts.FailureIsRecorded | apps/spatial-worldspace-hotload-android/Stage-ExternalHotloadCandidate.py:203-231 | From every reachable state at a device call, a failing call or a mismatching read-back ends, once saved, in a receipt that adds only the failure. |
| StageReceipts.StagingSucceeds | apps/spatial-worldspace-hotload-android/Stage-ExternalHotloadCandidate.py:181-227 | For every kernel and manifest a run exists with exactly the seven calls and the final receipt. |
| StageProtocol.RunKeepsInv | apps/spatial-worldspace-hotload-android/Stage-ExternalHotloadCandidate.py:181-231 | The protocol invariant is kept by every run with torn writes, failing calls and crashes. |
| AbiCanonical.AbiIsCanonical | apps/spatial-worldspace-hotload-android/Prepare-SdkHotloadCatalog.py:9-25 | With each id defined once and literal decoration operands, the result, text or failure, is unchanged by any injective id renaming followed by any reordering of lines. |
| AbiCanonical.RenamingKeepsAbi | apps/spatial-worldspace-hotload-android/Prepare-SdkHotloadCatalog.py:9-25 | With literal decoration operands, injective renaming alone keeps the result, even with repeated definitions. |
| AbiCanonical.ReorderingKeepsAbi | apps/spatial-worldspace-hotload-android/Prepare-SdkHotloadCatalog.py:9-25 | With each id defined once, reordering alone keeps the result, even with ids in decorations. |
| AbiCanonical.AbiComparesTrees | apps/spatial-worldspace-hotload-android/Prepare-SdkHotloadCatalog.py:24-25 | Two results are equal texts if and only if the variables expand to the same trees, each as often. |
| AbiMeaning.EqualTextsIffMatched | apps/spatial-worldspace-hotload-android/Prepare-SdkHotloadCatalog.py:20-25 | Two texts are equal if and only if the resource variables can be matched so that from matched variables every list of operand positions leads to the same literal, to nothing in both, or to ids with equal multisets of decorations and of member decorations. |
| AbiMeaning.SameTreeIffAlike | apps/spatial-worldspace-hotload-android/Prepare-SdkHotloadCatalog.py:20-23 | Two tokens expand to the same tree if and only if every way through the operands from them ends alike. |
| AbiMeaning.TextHoldsSortedRecords | apps/spatial-worldspace-hotload-android/Prepare-SdkHotloadCatalog.py:24-25 | The text is JSON for one tree per resource variable, in ascending order of their own texts. |
| AbiMeaning.DecorationsAscend | apps/spatial-worldspace-hotload-android/Prepare-SdkHotloadCatalog.py:23-23 | Decorations stand in a tree in ascending order of their tokens. |
| AbiMeaning.DecorationsSaid | apps/spatial-worldspace-hotload-android/Prepare-SdkHotloadCatalog.py:14-15 | What counts as a decoration of an id are the operands of its `OpDecorate` lines other than `RelaxedPrecision`. |
| AbiMeaning.MembersSaid | apps/spatial-worldspace-hotload-android/Prepare-SdkHotloadCatalog.py:16-16 | Member decorations are the operands of `OpMemberDecorate` lines. |
| AbiMeaning.DefinitionSaid | apps/spatial-worldspace-hotload-android/Prepare-SdkHotloadCatalog.py:17-18 | The definition of an id is that of the last line that defines it with at least two tokens. |
| AbiMeaning.VariablesSaid | apps/spatial-worldspace-hotload-android/Prepare-SdkHotloadCatalog.py:19-19 | Resource variables are those with one of the six storage classes. |
| AbiMeaning.ShortLines | apps/spatial-worldspace-hotload-android/Prepare-SdkHotloadCatalog.py:14-19 | The line loop fails exactly on `OpDecorate` with fewer than two operands, `OpMemberDecorate` without any, and `OpVariable` without storage class. |
| AbiCanonical.RecordsFailExactlyOnBadWalks | apps/spatial-worldspace-hotload-android/Prepare-SdkHotloadCatalog.py:20-24 | Expansion ends on every definition graph, and fails if and only if the definitions lead from a resource variable to an undefined id or around a cycle. |
| AbiCanonical.Abi | apps/spatial-worldspace-hotload-android/Prepare-SdkHotloadCatalog.py:9-25 | Line loop, expansion, sorting and rendering together give the text the theorems are about. |
| AbiTables.Collect | apps/spatial-worldspace-hotload-android/Prepare-SdkHotloadCatalog.py:10-19 | The line loop fails exactly when some line is too short for the tokens it reads, and otherwise tabulates each id's last definition, all its decorations and member decorations in line order, and the resource variables. |
| AbiTables.GetGrouped | apps/spatial-worldspace-hotload-android/Prepare-SdkHotloadCatalog.py:15-16 | Looking up an id gives everything the lines say about it, and an empty list otherwise. |
| JsonText.TextReadsBack | apps/spatial-worldspace-hotload-android/Prepare-SdkHotloadCatalog.py:25-25 | The JSON text of a tree followed by anything determines the tree and what follows. |
| JsonParse.TextIsJson | apps/spatial-worldspace-hotload-android/Prepare-SdkHotloadCatalog.py:25-25 | A JSON reader with all escapes, surrogate pairs and blanks reads the text of a tree back to the tree. |
| Ordering.SortIsCanonical | apps/spatial-worldspace-hotload-android/Prepare-SdkHotloadCatalog.py:23-25 | Sorting two lists under a total order gives the same list if and only if they hold the same elements equally often. |
| Ordering.StringsLeIsTotalOrder | apps/spatial-worldspace-hotload-android/Prepare-SdkHotloadCatalog.py:23-23 | The lexicographic order of token lists is total, antisymmetric and transitive. |
| JavaScan.BlockEnd | tools/produce_showcase_java.py:15-36 | Returns the specified block end for every text and start, failing exactly when there is none. |
| JavaScan.ExtractEnd | tools/checks/Test-EmbeddedDuplexOriginalsHost.py:17-37 | The independently written loop returns the same for every text and start. |
| JavaScan.ExtractMethod | tools/checks/Test-EmbeddedDuplexOriginalsHost.py:13-37 | The text from the first occurrence of the signature to the end of the block after it, or failure when any part is missing. |
| JavaScan.BlockEndIsLeastBalancedEnd | tools/produce_showcase_java.py:15-36 | From an opening brace the result is e if and only if the text divides into whole lexemes (comments, literals, single characters) of which the one ending at e is the first to bring brace depth back to zero. |
| JavaScan.ThroughLexeme | tools/produce_showcase_java.py:15-36 | The scan consumes each comment, string and character literal whole and counts only code braces. |
| JavaScan.IndexOf | tools/produce_showcase_java.py:43-43 | The least position at or after the start where the pattern occurs, or none. |
| JavaSplice.SpliceMethod | tools/produce_showcase_java.py:38-44 | Searches the declaration pattern, fails unless it has exactly one hit with a closed block, and otherwise returns the spliced text. |
| JavaSplice.SpliceFindsOneDeclaration | tools/produce_showcase_java.py:39-43 | A splice succeeds if and only if the pattern has one hit whose block closes; every way the pattern matches there ends at the same brace, and no declaration outside that header matches. |
| JavaDeclaration.BraceIsFirst | tools/produce_showcase_java.py:39-43 | The brace a match ends with is the first brace from its start, the one the splice looks up. |
| JavaHeader.DeclaresIffRendered | tools/produce_showcase_java.py:39-39 | The pattern matches at a place if and only if a header written out stands there at a line start: four spaces, any row of the six modifiers, a type, the name, parameters without `;` and opening brace, an optional throws clause and the brace. |
| JavaDeclaration.HitIsMatch | tools/produce_showcase_java.py:40-40 | Every hit of the search is a place where the pattern matches. |
| JavaDeclaration.MatchIsHitOrInside | tools/produce_showcase_java.py:40-40 | Every place where the pattern matches is a hit or lies inside an earlier one. |
| JavaSplice.DeletionMovesEnclosingEnd | tools/produce_showcase_java.py:38-44 | With code state at the method's line start and no quote or comment in its header, deletion leaves the text around the method untouched and moves the enclosing block's end by exactly the length change if and only if the header has no closing brace or that block had no end. |
| JavaSplice.HeaderBraceBreaksDeletion | tools/produce_showcase_java.py:38-44 | A concrete text whose one hit has a closing brace in its header and whose enclosing end does not move by the length change on deletion. |
| JavaSplice.HeaderBraceBreaksReplacement | tools/produce_showcase_java.py:38-44 | The same text and hit for replacement by an empty body, which rescans at every depth. |
| JavaSplice.ReplacementMovesEnclosingEnd | tools/produce_showcase_java.py:38-44 | With code state at the line start, no quote or comment in the header, and a body that rescans to the depth it starts at in code or line-comment state, the text around the body is untouched, and the enclosing end moves by exactly the length change if and only if the header holds fewer closing braces than the scan is deep or the length does not change. |
| JavaSplice.LastSpliceWins | tools/produce_showcase_java.py:38-44 | After a replacement by a body that rescans from depth 1, a further deletion or replacement, with its own search of the changed text, gives what it would have given on the original text if and only if the pattern has no hit behind the method's brace in the changed text. |
| JavaSplice.DeclaringBodyBreaksResplice | tools/produce_showcase_java.py:38-44 | A concrete text and a body that declares the name again: every further splice raises. |
| JavaSplice.ExtentAfterReplacement | tools/produce_showcase_java.py:38-44 | In the changed text a replaced method is the first hit, with the same opening brace and its new end, and all other hits are those behind its brace. |
| JavaDeclaration.DeclarationLocally | tools/produce_showcase_java.py:39-39 | A match depends only on the text up to its brace. |
| JavaSplice.ExtractionMeetsDeletion | tools/checks/Test-EmbeddedDuplexOriginalsHost.py:13-37 | For a name with one hit, `extract_method` and deletion work on the same block if and only if the first brace from the signature's first occurrence is the method's; then they fail together, what they take ends alike, and it is equal exactly when the signature starts at the hit. |
| JavaSplice.ExtractionNeedsNoDeclaration | tools/checks/Test-EmbeddedDuplexOriginalsHost.py:13-37 | A concrete text that `extract_method` returns whole and in which `method` finds nothing. |
| JavaSplice.SignatureElsewhere | tools/checks/Test-EmbeddedDuplexOriginalsHost.py:13-37 | A concrete text where the signature occurs before the declaration and another block is extracted. |
| Components.FindComponents | apps/spatial-worldspace-hotload-android/decode_atlas_capture.py:51-69 | Returns exactly the 8-connected components with at least 9 pixels: each whole, without repeated pixels, pairwise disjoint, none missing, whatever order pixels are taken in. |
| Components.Fill | apps/spatial-worldspace-hotload-android/decode_atlas_capture.py:54-66 | The fill from a seed collects exactly its component and removes exactly it from the pending pixels. |
| Components.Sweep | apps/spatial-worldspace-hotload-android/decode_atlas_capture.py:58-66 | After one pixel's neighbours are visited no pending pixel is adjacent to a pixel that left the stack. |
| Components.ClosedConnectedIsComponent | apps/spatial-worldspace-hotload-android/decode_atlas_capture.py:51-69 | A connected set that contains all mask neighbours of its pixels is the component of each of them. |
| RelayCodec.PreludeRoundTrip | tools/q2q_peer_stereo_tls_relay.py:59-90 | For role 1 or 2, 1..1024-byte fields and an ASCII token, reading a written prelude followed by any rest returns the fields and leaves exactly the rest. |
| RelayCodec.PreludeParses | tools/q2q_peer_stereo_tls_relay.py:59-90 | Any writable prelude, whatever role or token, is read field for field and then judged. |
| RelayCodec.AcceptedIsPrelude | tools/q2q_peer_stereo_tls_relay.py:59-90 | Every accepted stream starts with exactly the bytes a writer of its fields sends. |
| RelayCodec.PreludesArePrefixFree | tools/q2q_peer_stereo_tls_relay.py:59-90 | No prelude is a proper prefix of another. |
| RelayCodec.FieldRoundTrip | tools/q2q_peer_stereo_tls_relay.py:45-56 | Reading a written field returns it and leaves exactly what follows. |
| RelayCodec.FieldIsFieldBytes | tools/q2q_peer_stereo_tls_relay.py:45-56 | Every field that is read was encoded as its writer encodes it. |
| RelayCodec.PreludeLayout | tools/q2q_peer_stereo_tls_relay.py:52-69 | The prelude byte for byte: magic, version, role, and three fields of 1 to 1024 bytes behind their lengths. |
| RelayCodec.PreludeVerdict | tools/q2q_peer_stereo_tls_relay.py:79-90 | What reading a written prelude is answered, for every role and token, with its reason. |
| RelayCodec.Big32Order | tools/q2q_peer_stereo_tls_relay.py:52-56 | Lengths are written most significant byte first. |
| RelayText.TextIffEncoded | tools/q2q_peer_stereo_tls_relay.py:45-49 | A field is taken for text if and only if it is the UTF-8 encoding of some sequence of Unicode scalar values. |
| RelaySocket.ReadExact | tools/q2q_peer_stereo_tls_relay.py:33-42 | Under any chunking, returns exactly the next bytes, or fails having consumed everything. |
| RelaySocket.ReadField | tools/q2q_peer_stereo_tls_relay.py:45-49 | Reads one field under any chunking, with its error cases. |
| RelaySocket.ReadAuthentication | tools/q2q_peer_stereo_tls_relay.py:79-90 | Under any chunking, gives the parse of the whole stream and leaves exactly what follows the prelude. |
| RelaySocket.WriteField | tools/q2q_peer_stereo_tls_relay.py:52-56 | Sends exactly the field's bytes when its size is allowed, and nothing otherwise. |
| RelaySocket.WriteAuthentication | tools/q2q_peer_stereo_tls_relay.py:59-69 | Succeeds exactly on writable preludes and then sends exactly their bytes. |
| RelaySocket.Forward | tools/q2q_peer_stereo_tls_relay.py:212-230 | The receiver gets a prefix of what the sender sends, all of it unless an error is recorded, and the counters are bounded by it. |
| RelayLanes.SlotsAreWrittenOnce | tools/q2q_peer_stereo_tls_relay.py:185-198 | Over every interleaving each sender and receiver slot is written at most once, by a connection that authenticated for that role and key. |
| RelayLanes.ForwarderStartsOnce | tools/q2q_peer_stereo_tls_relay.py:185-198 | Each lane's forwarder is started at most once, between a sender and a receiver of that lane's session and channel. |
| RelayProgress.PairedLaneIsServed | tools/q2q_peer_stereo_tls_relay.py:185-198 | In every run a lane with both peers has a forwarder, or an error, or exactly one handler about to start it, whose next step does. |
| RelayProgress.FinishedLaneIsComplete | tools/q2q_peer_stereo_tls_relay.py:212-230 | In every run a finished lane is done, and without error its receiver got exactly what its sender sent after the prelude, and `bytes_forwarded` counts it. |
| RelayProgress.SecondClaimIsRefused | tools/q2q_peer_stereo_tls_relay.py:185-198 | In every run a claim of a role that was claimed before fails the lane and ends its handler; the first claim is recorded and its handler starts the forwarder exactly when the other role was claimed. |
| RelayLanes.ReceiverHoldsPrefixOfPayload | tools/q2q_peer_stereo_tls_relay.py:212-230 | At every moment the receiver holds a prefix of its sender's bytes after the prelude and `bytes_forwarded` is at most the bytes delivered; outside the two counter updates it is at most 65536 times `chunks_forwarded`, and between them this holds if and only if the chunk not yet counted is at most the total shortfall of the counted chunks below 65536. |
| RelayLanes.EveryMidCountIsReachable | tools/q2q_peer_stereo_tls_relay.py:212-230 | For every sequence of chunk sizes a run stands between the two updates of its last chunk, so both cases of that condition occur. |
| RelayLanes.BoundFailsMidCount | tools/q2q_peer_stereo_tls_relay.py:212-230 | A reachable state between the two updates where the bound in `chunks_forwarded` fails. |
| RelayLanes.PairedLaneIsReachable | tools/q2q_peer_stereo_tls_relay.py:177-210 | For any valid token, session, channel and payload two peers get paired and forwarded, whichever role claims first. |
| RelayLanes.RunKeepsInv | tools/q2q_peer_stereo_tls_relay.py:177-230 | The lane invariant is kept by every interleaving of handlers and forwarders. |

## Left out

- HTTP and TLS sockets, certificates, the connection semaphore, `consume_scope_file`, token checks of the HTTP handler, `serve`, `summary`, `self_test` and argument parsing: input and output around the modelled cores.
- Clocks and randomness: clock readings are parameters, the monotonic clock is assumed not to go back, and job keys are assumed fresh.
- Error messages: different errors of one validator are one rejection, except in the session and the authentication reader, where each reason is kept.
- JSON request and response bodies and SHA-256 digests: opaque values with a size or an equality.
- The text rendering and tokenising between `binary_contract` and `reflect`: instructions are typed values.
- glslc, spirv-val and spirv-dis: foreign tools.
- Splitting a disassembly into lines and whitespace-separated tokens: `abi` starts from token lists.
- `material_uniform_bytes`, the receipt and metadata checks around `mutate` and the stager, and `between` and `project` in the Java producer: they would only add easy members.
- JavaSplice.SpliceMethod: the search is specified by what the pattern matches, not by an engine; `\w` and `\s` are their ASCII parts.
- JavaSplice.SpliceFindsOneDeclaration: method names are assumed to hold no opening brace, as Java identifiers do.
- JavaSplice.LastSpliceWins: the same assumption on names.
- JavaScan.ExtentFrom: positions are natural numbers, so a negative start is not modelled.
- RelayLanes.RunKeepsInv: handlers and forwarders are steps on values, not threads on shared objects; socket timeouts and resets appear as failing calls at any point.
- StageProtocol.RunKeepsInv: the steps of `stage` are a state machine on values, because a crash between two statements is not expressible in a method body.
- Homography, projection, sampling, classification and fiducial checks of the capture decoder: floating-point numerics.
- Other check runners, build drivers, the browser script, the breath-audio and scene producers and the drain loop: process orchestration or simple scans.
- The Rust crates: only re-export stubs are in the repository.
