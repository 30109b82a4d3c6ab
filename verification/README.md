# Agent bridge: a verified model

This project models the deterministic core of `packages/agent-bridge`, and the streaming secret scan of
`scripts/verify-image-rootfs.py`, in Dafny, and proves what that code promises over all inputs, all runs and all
interleavings. `dafny verify dfyconfig.toml` checks everything.

## What is modelled

- **Canonical JSON lines** (`Text`, `Json`, `Canonical`, `BridgeCodec`). JavaScript strings are sequences of UTF-16
  units; UTF-8, JSON printing and `JSON.parse` (section 7 of RFC 8259) are written out, as are canonicalization,
  envelope validation, encoding and decoding.
- **Framing and the authenticated session** (`Framing`, `PayloadWalk`, `JsonlSession`, `JsonlSessionRuns`,
  `BridgeSession`). Three framers over one byte stream, the explicit-stack walk, and a session whose `ingest` suspends
  in a secret lease while other calls arrive.
- **Module-authorization checkpoints** (`CheckpointProtocol`). Readers authenticate signed snapshots and advance a
  shared checkpoint by compare-and-swap, interleaved step by step; the module loader checks what they grant.
- **The Codex validation run** (`AppServerSession`, `ProtocolRunner`, `ValidationRun`, `RuntimeAdapter`,
  `ValidationEvidence`). The app-server session as a class; the runner as the steps between its awaits, with an abort
  callback that may fire at any of them; the adapter that signs and writes frames and then asks a builder for a record.
- **Once-only tables** (`OnceOnly`, `ProcessSessions`). Active and used tables with pruning; egress handoffs and owned
  process sessions, each with any number of suspended calls.
- **Keyless signing** (`SigningChain`, `SigningLimits`, `SigningNames`, `SnapshotIssuing`). One payload from the
  controller's request through the signer and the handler to custody, the answer back, and the published snapshot to the
  authenticator; what the messages' limits mean for payloads; the controller's clock readings and windows, up to the
  module that is loaded in the end. The keys and texts of the messages are a parameter (`SigningChain.Names`), and the
  source's own are shown to be proper.
- **The native modules** (`NativeListener`, `NativeStream`). Who holds which descriptor across calls, worker threads,
  aborts, completions and finalizers; the partial send and read loops over a fixed buffer.
- **The secret scan** (`SecretScan`). A chunked search with a carried overlap against a search of the whole stream.

Hashes, signatures, base64, the sensitive-text expressions, clocks and transports are function parameters or events.
Where a proof needs something of them it is a named predicate or a `requires`: `RuntimeAdapter.Fair`,
`ValidationEvidence.SameHashes` (the two constants in the source are the hashes of the empty lists), and
`SigningChain.FairBase64`. A clock "never goes back" when the samples of a run are nondecreasing.

The modules whose names end in `Outcomes`, `Answers` or `Facts` say when these operations succeed, as if-and-only-ifs in
terms of messages, samples, answers and fields, over the same steps.

## Where the code does not keep a promise, or only under a condition

Each item has a concrete input and the exact condition of the step that fails; on a clock that never goes back, the items
that need one that does cannot happen.

- A second `ingest` fails the session, but from the commit until the first call returns it no longer takes the first
  call's frames away (`JsonlSessionRuns.OverlapOutcome`). The concrete run is at an abstract host that takes one frame.
- On a clock that goes back, a run can return `interrupted` for an interrupt that was never written: exactly when no time
  was left when it was made (`ProtocolRunner.EveryRunIsSound`). The concrete run is at an abstract message type.
- On a clock that goes back, delivered frames can go unrecorded: exactly when the first sample lies before the dispatch
  (`RuntimeAdapter.UnrecordedExactly`). The concrete run is at a host that meets all the assumptions of that theorem.
- On a clock that goes back, a claim can be handed over twice: exactly when some handoff since pruned it, that is, sampled
  at or after its expiry and before its own (`EgressHandoff.AdmittedAgainExactly`).
- A claim enters the coordinator again exactly when a call that began since, itself included, sampled at or after its
  expiry (`ProcessSessions.EntersAgainExactly`). So a late call claims and opens again on any clock; only on one that goes
  back can it also run again (`ProcessSessions.LateCallOpensAgain`, `ProcessSessions.BackwardClockRunsTwice`,
  `ProcessSessions.EveryClaimRunsOnce`).
- A payload of 2042 or 2043 nodes passes the signer and is refused by the handler, whose envelope has two members more
  under the same limit (`SigningChain.CustodyGetsThePayload`). No payload that the controller builds has more than 60
  (`SigningLimits.BuiltPayloadReachesCustody`).
- The controller publishes snapshots whose modules nobody can load. Before publication it looks at its own and the
  approval's window again, but not at the entries', and at no time at the checkpoint: over a store, a reader alone can
  still load a published module, on a clock that never goes back, exactly when the entry outlives the last reading and the
  stored checkpoint is the snapshot's own or its predecessor (`SnapshotIssuing.LoadableExactly`). A module that expires during signing
  is lost to every reader in every interleaving (`SnapshotIssuing.ExpiredEntryIsPublished`); a snapshot is one that no
  checkpoint lets be installed exactly when it is version 1 and names a predecessor (`SnapshotIssuing.InstallableExactly`,
  `SnapshotIssuing.OrphanIsPublished`).
- A handoff that times out or is aborted frees its id while its write may still be pending, so that a later claim with
  that id, on any clock, can put a second write beside it: exactly when the first call was interrupted, its write has not
  settled, and the later handoff is admitted (`EgressHandoff.TwoPendingExactly`, `EgressHandoff.TimeoutLeavesTwoPending`).
- A sender cut off in the middle of a frame leaves a read that succeeds with the bytes sent so far
  (`NativeStream.CutOffSendIsRead`).
- A key header longer than 257 bytes can be cut so that the scan misses it (`SecretScan.LongHeaderIsMissed`).

## Model

| member | source | states |
|---|---|---|
| Texts.Utf8RoundTrip | packages/agent-bridge/src/codec.ts:148-160 | decoding the UTF-8 bytes of any text without lone surrogates gives the text back |
| Texts.FromUtf8Exact | packages/agent-bridge/src/codec.ts:158-159 | bytes that decode at all are the UTF-8 bytes of what they decode to |
| Json.ParseUndoesPrint | packages/agent-bridge/src/codec.ts:85-87 | `JSON.parse` of printed text is the printed value, for every tree with integral numbers and distinct keys |
| Json.PrintIsInjective | packages/agent-bridge/src/codec.ts:85-87 | two such trees with the same text are the same tree |
| Canonical.CanonicalizeIsIdempotent | packages/agent-bridge/src/codec.ts:53-83 | canonicalizing twice is canonicalizing once, and the fixed points are exactly the trees with sorted safe keys and allowed leaves |
| Canonical.SameCanonical | packages/agent-bridge/src/codec.ts:72-82 | two accepted values have one canonical form if and only if they are equal up to key order at every level |
| Canonical.CanonicalJsonAgrees | packages/agent-bridge/src/codec.ts:85-87 | two accepted values have one canonical text if and only if they are equal up to key order |
| Canonical.ParseCanonicalJson | packages/agent-bridge/src/codec.ts:85-87 | parsing canonical text gives the canonical value, the same as the original up to key order |
| BridgeCodec.EncodeThenDecode | packages/agent-bridge/src/codec.ts:146-175 | a line encoded from an envelope decodes to that envelope up to key order, unless a string holds U+FFFD; then it is refused |
| BridgeCodec.DecodeThenEncode | packages/agent-bridge/src/codec.ts:154-175 | encoding what an accepted line decodes to gives back its very bytes |
| BridgeCodec.DecodeInvertsEncode | packages/agent-bridge/src/codec.ts:146-175 | decoding answers `v` if and only if the line is the encoding of `v`, `v` is canonical and no string of it holds U+FFFD |
| BridgeCodec.EncodeAgrees | packages/agent-bridge/src/codec.ts:146-152 | two envelopes have one encoding if and only if they are equal up to key order |
| MessageFacts.EncodesExactly | packages/agent-bridge/src/codec.ts:95-152 | a value is encoded if and only if it has exactly the envelope's fields, each of its kind written out, a life of at most five minutes, and a canonical line of at most 65536 bytes |
| Framing.LinesAreUnique | packages/agent-bridge/src/codec.ts:186-203 | a stream has one cutting into newline-ended lines and a rest without newline |
| Framing.LinesOfConcat | packages/agent-bridge/src/codec.ts:211-230 | cutting chunk by chunk with a carried rest is cutting the whole stream |
| Framing.DecodeBatch | packages/agent-bridge/src/codec.ts:182-206 | the offset loop answers exactly the decoded lines of a complete batch of at most 32 within the limit, and denies everything else |
| Framing.BatchExactly | packages/agent-bridge/src/codec.ts:182-206 | a batch gives these frames if and only if it has 1 to 131072 bytes in at most 32 lines, ends with one, and its lines decode to them one by one |
| Framing.LineBuffer.Push | packages/agent-bridge/src/codec.ts:208-231 | the buffer's new contents and the frames of one push, errors included, as the draining function says |
| Framing.PushedExactly | packages/agent-bridge/src/codec.ts:208-231 | a push gives these frames if and only if buffer and chunk fit, their lines decode to them one by one, and the rest may still become a line |
| Framing.PushAllIsCutting | packages/agent-bridge/src/codec.ts:208-231 | however a stream is cut into accepted chunks, the pushes yield the stream's frames and leave its rest |
| PayloadWalk.Walk | packages/agent-bridge/src/authenticated-jsonl-session.ts:183-213 | the explicit stack accepts exactly the trees of at most 1024 nodes, depth at most 8 and allowed nodes, within 1025 pops |
| JsonlSession.Session.Cut | packages/agent-bridge/src/authenticated-jsonl-session.ts:296-316 | the splitting loop yields the lines and the rest of buffer and chunk, or refuses more than 32 lines |
| JsonlSession.Session.PrepareIngest | packages/agent-bridge/src/authenticated-jsonl-session.ts:284-344 | the checks before the lease accept exactly what the step function accepts |
| JsonlSession.Session.StartIngest | packages/agent-bridge/src/authenticated-jsonl-session.ts:262-282 | a call on an active session enters or fails it, and an overlapping call is refused and fails it |
| JsonlSession.Session.EndLease | packages/agent-bridge/src/authenticated-jsonl-session.ts:345-397 | after the lease the whole batch is committed or the session has failed and nothing moved |
| IngestOutcomes.EveryFrameIsGenuine | packages/agent-bridge/src/authenticated-jsonl-session.ts:345-397 | in every run each committed frame was authentic at the sample of the lease that committed it, issued no earlier than the context was authenticated, expiring no later than the context, and unexpired at the commit |
| IngestOutcomes.CommitsExactly | packages/agent-bridge/src/authenticated-jsonl-session.ts:284-397 | after any run, a chunk and the end of its lease commit these frames if and only if sizes, lines and limits allow it, they are the frames of the lines and carry on the session, and the lease finds all of them genuine |
| IngestOutcomes.BuffersExactly | packages/agent-bridge/src/authenticated-jsonl-session.ts:284-325 | after any run, a chunk is buffered if and only if it may be taken in, has no newline and leaves fewer than 65536 bytes |
| JsonlSessionRuns.EveryRun | packages/agent-bridge/src/authenticated-jsonl-session.ts:284-397 | over every run the committed frames are numbered 1..n, only the first is CAPABILITIES, no byte is lost, and callers get the committed frames in order |
| JsonlSessionRuns.FailedForever | packages/agent-bridge/src/authenticated-jsonl-session.ts:262-282 | a failed session stays failed and commits nothing |
| JsonlSessionRuns.DeniedIngestChangesNothing | packages/agent-bridge/src/authenticated-jsonl-session.ts:262-282 | a denied ingest leaves accepted count, sequence and byte total as before the call, whatever arrives meanwhile |
| JsonlSessionRuns.OverlapOutcome | packages/agent-bridge/src/authenticated-jsonl-session.ts:262-282 | of two overlapping ingests the later is refused, and the earlier gets frames if and only if it had already committed |
| JsonlSessionRuns.OverlapAfterCommitDelivers | packages/agent-bridge/src/authenticated-jsonl-session.ts:376-397 | a concrete run in which the earlier call still gets its frames |
| JsonlSessionRuns.FramersAgree | packages/agent-bridge/src/authenticated-jsonl-session.ts:296-316 | the session and a line buffer fed any other chunking of the same stream have the same frames and leftover bytes |
| BridgeSession.BatchAdmittedExactly | packages/agent-bridge/src/authenticated-jsonl-session.ts:215-344 | a batch is admitted as these frames if and only if its lines are their encodings one by one, of canonical envelopes without U+FFFD and with allowed payloads, and the frames carry on the session: the early payload check refuses nothing more |
| BridgeSession.BridgeRun | packages/agent-bridge/src/authenticated-jsonl-session.ts:284-397 | while a session is active its input bytes are the encodings of its accepted frames followed by a newline-free buffer, with sequences 1..n and CAPABILITIES first only |
| BridgeOutcomes.EveryEnvelopeIsGenuine | packages/agent-bridge/src/authenticated-jsonl-session.ts:345-397 | the same over bridge envelopes and frame authentication |
| BridgeOutcomes.EnvelopesCommitExactly | packages/agent-bridge/src/authenticated-jsonl-session.ts:284-397 | the exact condition of a commit over bridge envelopes, in terms of their encodings |
| CheckpointProtocol.OneChain | packages/agent-bridge/src/retained-native-supervisor-module-authorization-trust-source.ts:622-712 | in every interleaving the installed checkpoints are one hash chain with versions rising by exactly one, and every grant is one of its links |
| CheckpointProtocol.OneSnapshotPerVersion | packages/agent-bridge/src/retained-native-supervisor-module-authorization-trust-source.ts:622-712 | two grants at one snapshot version carry one snapshot hash |
| CheckpointProtocol.NoGoingBack | packages/agent-bridge/src/retained-native-supervisor-module-authorization-trust-source.ts:622-712 | a reader whose checkpoint read, on its first or second attempt, comes after a grant at version v is never granted less than v |
| CheckpointProtocol.TwoAttemptsSuffice | packages/agent-bridge/src/retained-native-supervisor-module-authorization-trust-source.ts:664-711 | when a swap fails only because the store moved, no reader falls out of the loop after two attempts |
| CheckpointProtocol.MarksNeverFall | packages/agent-bridge/src/retained-native-supervisor-module-authorization-trust-source.ts:684-700 | while a module kind keeps its authorization id, its version never falls and an equal version means an equal hash |
| TrustAnswers.ServedOverCheckpoint | packages/agent-bridge/src/retained-native-supervisor-module-authorization-trust-source.ts:622-711 | over a stored checkpoint a reader alone is served if and only if its own checks pass and the snapshot is the checkpoint's, which stays, or its successor, which is stored: same instance, next version, its hash as predecessor, and kept authorization ids only raised or unchanged |
| TrustAnswers.ServedOverNothing | packages/agent-bridge/src/retained-native-supervisor-module-authorization-trust-source.ts:622-711 | over an empty store it is served if and only if its own checks pass and the snapshot names no predecessor |
| TrustAnswers.GrantedAgain | packages/agent-bridge/src/retained-native-supervisor-module-authorization-trust-source.ts:622-711 | in every run, who was granted an authorization is granted it again by a new reader while the store stands, and the store and chain stay |
| TrustAnswers.EveryGrantIsVerified | packages/agent-bridge/src/retained-native-supervisor-module-authorization-trust-source.ts:500-551 | in every run, each grant's snapshot names a configured root and this instance, is signed under the root's key, in its versions and windows and before revocation, and the authorization is in it, for the very request, and valid |
| TrustAnswers.CheckpointKeeps | packages/agent-bridge/src/retained-native-supervisor-module-authorization-trust-source.ts:426-462 | a checkpoint keeps the snapshot's names, version and hash, and per kind exactly the id, version and hash of its authorization or nothing |
| ModuleLoader.Loader.Load | packages/agent-bridge/src/retained-native-supervisor-linux-module-loader.ts:529-578 | one attempt only, and loaded if and only if request, authorization and every clock sample agree |
| ModuleLoader.LoadsMeans | packages/agent-bridge/src/retained-native-supervisor-linux-module-loader.ts:529-578 | a load passes if and only if the authorization answers the request under its hash, is valid at all four samples for at most five minutes, the samples do not go back, and nothing is aborted or amiss |
| ModuleLoader.LoadedInsideRoot | packages/agent-bridge/src/retained-native-supervisor-linux-module-loader.ts:325-339 | a module loaded on a grant was loaded at samples inside the root's validity and before its revocation |
| AppServerMessages.Measure | packages/agent-bridge/src/codex-app-server-session.ts:114-136 | the walk and the canonical size of a message, or a denial, as the recursive reading says |
| MessageFacts.InitializeExactly | packages/agent-bridge/src/codex-app-server-session.ts:183-229 | an initialize response is accepted if and only if it answers the request and names the agent and its platform |
| MessageFacts.ThreadExactly | packages/agent-bridge/src/codex-app-server-session.ts:231-296 | a thread response counts as restricted if and only if it answers the request with a thread that asks for no approval, only reads, has no network, is ephemeral and is empty |
| MessageFacts.TurnExactly | packages/agent-bridge/src/codex-app-server-session.ts:321-338 | a turn response gives an id if and only if it answers the request with a turn in progress of that id, without items or error |
| MessageFacts.InterruptExactly | packages/agent-bridge/src/codex-app-server-session.ts:351-364 | an interrupt is acknowledged if and only if the message answers it with an empty result |
| MessageFacts.CompletedStatusExactly | packages/agent-bridge/src/codex-app-server-session.ts:366-395 | a message ends the turn as completed if and only if it names this thread and turn, the status, no error and a list of items |
| AppServerSession.FailedAbsorbs | packages/agent-bridge/src/codex-app-server-session.ts:422-442 | after the first throw every later call throws and the session is failed for good |
| AppServerSession.IdsRise | packages/agent-bridge/src/codex-app-server-session.ts:416-420 | the ids sent by any sequence of calls rise by one, none skipped and none reused |
| AppServerSession.RunConsistent | packages/agent-bridge/src/codex-app-server-session.ts:172-395 | in every phase of every session the pending id, the next id and the known thread and turn are the ones of that phase: 1 to 3 for the handshake, 4 for the interrupt |
| AppServerSession.CodexSession.AcceptThreadResponse | packages/agent-bridge/src/codex-app-server-session.ts:231-296 | the thread response moves the fields exactly as the state machine says, restrictions noted even when the id is refused |
| AppServerSession.CodexSession.AcceptTerminal | packages/agent-bridge/src/codex-app-server-session.ts:366-395 | the terminal message, its limits and its correlation, field by field |
| AppServerSession.CodexSession.RequestInterrupt | packages/agent-bridge/src/codex-app-server-session.ts:340-349 | an interrupt is sent only from an active turn and takes the next id |
| ProtocolRunner.EveryRunIsSound | packages/agent-bridge/src/codex-validation-protocol-runner.ts:263-337 | in every interleaving, on every clock: completed only with no abort seen and the token as final text; interrupted only if request 4 was acknowledged before the terminal message, and it was sent and flushed before that, each once, if and only if time was left when it was made; the counts and hashes are those of the progress read, at most 127 with token events among them |
| RunOutcomes.CompletedExactly | packages/agent-bridge/src/codex-validation-protocol-runner.ts:245-337 | without an abort, a run returns evidence if and only if three replies make the handshake, at most 127 messages are admitted as progress in time, and then one completes the turn on the token; the evidence is that of those messages |
| RunOutcomes.InterruptedExactly | packages/agent-bridge/src/codex-validation-protocol-runner.ts:245-337 | with an abort among the progress, its write settling and its reply, a run returns evidence if and only if handshake, progress, reply and an interrupted end of the turn are accepted in time, 127 messages at most |
| RunOutcomes.ReplyMayComeEarly | packages/agent-bridge/src/codex-validation-protocol-runner.ts:291-299 | a reply that comes before its request is flushed has the same effect as one that comes after |
| ProtocolRunner.SteadyRunIsTimely | packages/agent-bridge/src/codex-validation-protocol-runner.ts:232-242 | on a clock that never goes back, a run returns interrupted only if time was left when the interrupt was made, and so it was sent |
| ProtocolRunner.RunAsksOnce | packages/agent-bridge/src/codex-validation-protocol-runner.ts:270-283 | whatever the clock does, at most one interrupt is handed to the transport |
| ProtocolRunner.BackwardClockInterruptsUnsent | packages/agent-bridge/src/codex-validation-protocol-runner.ts:270-283 | a concrete run on a clock that goes back that returns interrupted with nothing sent |
| ValidationRun.FinalTextExact | packages/agent-bridge/src/codex-validation-protocol-runner.ts:102-120 | the final text is `t` if and only if exactly one item, among items that are all safe, is an agent message and it says `t` |
| ValidationRun.AdmitProgress | packages/agent-bridge/src/codex-validation-protocol-runner.ts:126-177 | progress is admitted exactly when method, correlation, item, walk and size allow it, with the hash of its canonical text |
| ValidationRun.CompletedMeansToken | packages/agent-bridge/src/codex-validation-protocol-runner.ts:301-333 | over JSON messages, a completed run ended unaborted on a message whose only agent message is `ventureos-validation:` and the dispatch id |
| MessageFacts.ProgressExactly | packages/agent-bridge/src/codex-validation-protocol-runner.ts:126-177 | a message is admitted as progress if and only if it has no id, one of seven methods, this thread and where due this turn, no unsafe item, bounded form and at most 65536 canonical bytes |
| MessageFacts.CompletedRunSays | packages/agent-bridge/src/codex-validation-protocol-runner.ts:245-337 | over JSON messages, an unaborted run returns evidence only after a confined thread, progress of that thread and turn alone, and an end of the turn with the token as its only agent message |
| RuntimeAdapter.RunnerEvidenceIsAccepted | packages/agent-bridge/src/codex-validation-runtime-adapter.ts:186-285 | whatever a run returns, the adapter's terminal check accepts |
| ValidationEvidence.EveryRunIsAccepted | packages/agent-bridge/src/codex-validation-runtime-adapter.ts:186-285 | the same for the run over JSON messages: references, digests, counts and the constants for empty lists |
| RuntimeAdapter.RoundTripBuilds | packages/agent-bridge/src/codex-validation-round-trip.ts:261-411 | given encoded frames of the adapter, the builder denies if and only if the first frame is dated before the dispatch |
| RuntimeAdapter.CancellationBuilds | packages/agent-bridge/src/codex-validation-cancellation.ts:259-381 | the same for the cancellation frame |
| RuntimeAdapter.UnrecordedExactly | packages/agent-bridge/src/codex-validation-runtime-adapter.ts:519-606 | once its frames are delivered, an execution goes unrecorded if and only if its first clock sample lies before the dispatch; else the record is the candidate of those frames |
| AdapterOutcomes.CompletedIsDelivered | packages/agent-bridge/src/codex-validation-runtime-adapter.ts:506-606 | for completed evidence: recorded, unrecorded or refused, decided exactly by the binding, the windows, each clock sample, the encodings and both answers of the transport, and with which frames |
| AdapterOutcomes.InterruptedIsDelivered | packages/agent-bridge/src/codex-validation-runtime-adapter.ts:506-563 | the same for interrupted evidence and its one frame |
| AdapterOutcomes.FramesSay | packages/agent-bridge/src/codex-validation-runtime-adapter.ts:390-474 | each frame has the bridge's identity, its place and dates, and the digest and tag of its payload |
| AdapterOutcomes.NothingElseIsDelivered | packages/agent-bridge/src/codex-validation-runtime-adapter.ts:186-285 | without evidence, or with evidence that is neither, nothing is delivered |
| RuntimeAdapter.DeliveredIsRecorded | packages/agent-bridge/src/codex-validation-runtime-adapter.ts:519-606 | on a clock that never goes back, delivered frames are always recorded |
| RuntimeAdapter.BackwardClockLeavesFrameUnrecorded | packages/agent-bridge/src/codex-validation-cancellation.ts:331-340 | a concrete execution, at a host and a dispatch that meet the assumptions of the exact theorem, that delivers a frame and has it denied |
| OnceTables.Registry.Prune | packages/agent-bridge/src/codex-validation-egress-controller.ts:331-333 | the pruning loop keeps exactly the entries that outlive the sample |
| OnceTables.Registry.BeginHandoff | packages/agent-bridge/src/codex-validation-egress-controller.ts:321-357 | the tables and the verdict of a handoff, in the controller's order of checks |
| OnceTables.Registry.BeginDispatch | packages/agent-bridge/src/codex-validation-process-session-owner.ts:456-467 | the tables and the verdict of a coordinator call, in its order of checks |
| EgressHandoff.OneHandoffPerId | packages/agent-bridge/src/codex-validation-egress-controller.ts:341-429 | whatever the clock does, two handoffs in flight have different ids, and of two pending writes with one id the handoff of the earlier is over |
| EgressHandoff.TwoPendingExactly | packages/agent-bridge/src/codex-validation-egress-controller.ts:361-429 | after a claim was handed over and while no other frame of its id is, the next handoff of that id leaves two writes of it pending if and only if the first call was interrupted, its write has not settled, and the handoff is ready, unexpired and the claim's entry pruned |
| EgressHandoff.TimeoutLeavesTwoPending | packages/agent-bridge/src/codex-validation-egress-controller.ts:361-429 | a concrete run, on a clock that never goes back, with two pending writes of one id |
| EgressHandoff.AdmittedAgainExactly | packages/agent-bridge/src/codex-validation-egress-controller.ts:321-357 | after a claim was handed over and while no other frame of its id is, a handoff of that id is admitted if and only if its caller is ready, it has not expired, the id is not in flight and some handoff since, itself included, sampled at or after the claim's expiry and before its own; for the same claim the handoff itself never is that one |
| EgressHandoff.FirstAdmittedExactly | packages/agent-bridge/src/codex-validation-egress-controller.ts:321-357 | an id not handed over before is admitted if and only if its caller is ready and it has not expired |
| EgressHandoff.EveryClaimOnce | packages/agent-bridge/src/codex-validation-egress-controller.ts:321-357 | on a clock that never goes back, no id and expiry reach the transport twice over any run, although entries are pruned |
| EgressHandoff.BackwardClockWritesTwice | packages/agent-bridge/src/codex-validation-egress-controller.ts:321-357 | one step of the clock back past a pruning writes a claim twice |
| ProcessSessions.EveryCallInOrder | packages/agent-bridge/src/codex-validation-process-session-owner.ts:423-538 | in every run frames come only after claim, open, run, proved exit, destroyed streams and completion, in that order; opened streams are destroyed on every exit path |
| SessionOutcomes.EveryExitIsProved | packages/agent-bridge/src/codex-validation-process-session-owner.ts:255-324 | in every run, a call whose trail shows the exit was closed with a result of this session that is exited by a code or a signal, inside the window and not after the sample; if it went on, not after the evidence's sample either |
| SessionOutcomes.FramesExactly | packages/agent-bridge/src/codex-validation-process-session-owner.ts:454-538 | a call that has entered sends its frames if and only if claim, open, run, close result and completion succeed in time, each condition written out |
| SessionOutcomes.RanHoldsUntilExit | packages/agent-bridge/src/codex-validation-process-session-owner.ts:490-517 | in every run, a call that ran gives its id back if and only if its exit was proved |
| ProcessSessions.OneSessionPerId | packages/agent-bridge/src/codex-validation-process-session-owner.ts:454-517 | whatever the clock does, calls that have not released their id hold different ids |
| ProcessSessions.EveryClaimRunsOnce | packages/agent-bridge/src/codex-validation-protocol-runner.ts:221-232 | on a clock that never goes back, at most one call of a supervision, session, dispatch and expiry passes the run's authority check, and another enters only from the expiry on |
| ProcessSessions.EntersAgainExactly | packages/agent-bridge/src/codex-validation-process-session-owner.ts:456-467 | after a call entered and while no other of its id does, a call of that id enters if and only if some call that began since, itself included, sampled at or after the claim's expiry, the id was released, and fewer than 1024 entries outlive its sample |
| ProcessSessions.FirstEntersExactly | packages/agent-bridge/src/codex-validation-process-session-owner.ts:456-467 | an id that has not entered before enters if and only if fewer than 1024 entries outlive the sample |
| ProcessSessions.LateCallOpensAgain | packages/agent-bridge/src/codex-validation-process-session-owner.ts:454-538 | a concrete run in which a late call claims and opens again, and does not run |
| ProcessSessions.BackwardClockRunsTwice | packages/agent-bridge/src/codex-validation-process-session-owner.ts:454-538 | a concrete run on a clock that goes back in which two calls of one claim both run |
| InertJson.InertExact | packages/agent-bridge/src/retained-native-supervisor-module-authorization-keyless-signer.ts:85-137 | the counting recursion accepts exactly the values of depth at most 16 and allowed nodes whose node count fits, and returns that count |
| SigningChain.CustodyGetsThePayload | packages/agent-bridge/src/retained-native-supervisor-module-authorization-signing-handler.ts:146-211 | for every payload the signer sends, custody gets exactly its canonical bytes under the controller's hash, if and only if it has at most 2041 nodes |
| SigningFacts.SendsExactly | packages/agent-bridge/src/retained-native-supervisor-module-authorization-keyless-signer.ts:139-191 | of the controller's request the signer sends an envelope if and only if the payload is this signer's unsigned snapshot under its right hash and both fit their limits |
| SigningLimits.CrowdedPayloadIsSentAndRefused | packages/agent-bridge/src/retained-native-supervisor-module-authorization-signing-handler.ts:146-211 | a concrete payload of 2042 nodes that the signer sends and the handler refuses |
| SigningLimits.BuiltPayloadReachesCustody | packages/agent-bridge/src/retained-native-supervisor-module-authorization-controller.ts:702-719 | a payload of the fields the controller writes has at most 60 nodes, and custody gets every one that is sent |
| SigningNames.SourceNamesAreProper | packages/agent-bridge/src/retained-native-supervisor-module-authorization-keyless-signer.ts:139-191 | the keys and texts of the source's messages are distinct and short, as the results about arbitrary ones ask |
| SigningChain.CustodyOnlySeesPayloads | packages/agent-bridge/src/retained-native-supervisor-module-authorization-signing-handler.ts:146-211 | whatever bytes arrive, custody is only handed the canonical bytes of a checked payload under its hash |
| SigningFacts.CustodyExactly | packages/agent-bridge/src/retained-native-supervisor-module-authorization-signing-handler.ts:146-211 | whatever bytes arrive, custody is handed these if and only if they spell, in 2 to 32768 bytes, a bounded envelope of this signer whose payload hash and request hash are right |
| SigningChain.ResponseFits | packages/agent-bridge/src/retained-native-supervisor-module-authorization-signing-handler.ts:328-341 | an answer has at most 805 bytes for every admissible signer key id, so its limit never denies |
| SigningChain.AnswerIsTaken | packages/agent-bridge/src/retained-native-supervisor-module-authorization-keyless-signer.ts:193-229 | the signer takes exactly the custody signature from every answer the handler gives |
| SigningFacts.TakesExactly | packages/agent-bridge/src/retained-native-supervisor-module-authorization-keyless-signer.ts:193-229 | whatever bytes come back, the signer takes a signature if and only if they spell, in 2 to 1024 bytes, an answer to its own request that carries it |
| SigningChain.VerifiedIsPayload | packages/agent-bridge/src/retained-native-supervisor-module-authorization-trust-source.ts:500-551 | for every snapshot with the published fields in any order, the authenticator verifies the canonical bytes of the payload |
| SigningChain.IssuedSnapshotVerifies | packages/agent-bridge/src/retained-native-supervisor-module-authorization-controller.ts:702-744 | every issued snapshot verifies: the bytes custody signed are the bytes verified, and the hash kept is the controller's |
| SnapshotIssuing.Controller.Issue | packages/agent-bridge/src/retained-native-supervisor-module-authorization-controller.ts:621-744 | one attempt only, and a snapshot if and only if request, windows, grant and all three clock readings agree; it says what was asked for, field by field |
| SnapshotIssuing.IssuedMeans | packages/agent-bridge/src/retained-native-supervisor-module-authorization-controller.ts:621-744 | what every issuance has passed, field by field: the approval of this very request, all windows at all readings, one supervisor, and each authorization hashed and validated |
| SnapshotIssuing.IssuedIsAuthentic | packages/agent-bridge/src/retained-native-supervisor-module-authorization-trust-source.ts:500-551 | the authenticator accepts an issued snapshot at a reading if and only if that lies in the snapshot's window and the signer's root covers the window |
| SnapshotIssuing.ServesExactly | packages/agent-bridge/src/retained-native-supervisor-module-authorization-trust-source.ts:622-711 | for a reader alone over a stored checkpoint or none, the trust source answers if and only if its own checks pass and the snapshot is the stored one, its successor, or over an empty store a first one |
| SnapshotIssuing.LoadsExactly | packages/agent-bridge/src/retained-native-supervisor-module-authorization-trust-source.ts:622-711 | on a clock that never goes back, a reader alone is granted an issued module and loads it if and only if nothing is aborted or amiss, the root covers the snapshot, the stored checkpoint is its own or its predecessor, and the last sample comes before the entry's end |
| SnapshotIssuing.LoadableExactly | packages/agent-bridge/src/retained-native-supervisor-module-authorization-controller.ts:728-737 | over a stored checkpoint a published module can still be loaded on such a clock if and only if its entry outlives the reading before publication and the checkpoint is the snapshot's own or its predecessor; the controller checks neither |
| SnapshotIssuing.EveryLoadIsLive | packages/agent-bridge/src/retained-native-supervisor-module-authorization-trust-source.ts:622-711 | among any readers in every interleaving, who is granted an issued snapshot and loads has a covering root, a live entry and the snapshot's checkpoint in the chain |
| SnapshotIssuing.InstallableExactly | packages/agent-bridge/src/retained-native-supervisor-module-authorization-trust-source.ts:664-711 | some stored checkpoint, or none, lets a snapshot be installed if and only if it names no predecessor or is not version 1 |
| SnapshotIssuing.ExpiredEntryIsPublished | packages/agent-bridge/src/retained-native-supervisor-module-authorization-controller.ts:728-737 | a concrete issuance that publishes an expired module, which no reader of any run loads |
| SnapshotIssuing.OrphanIsPublished | packages/agent-bridge/src/retained-native-supervisor-module-authorization-controller.ts:621-744 | a concrete issuance of version 1 with a predecessor, which no stored checkpoint lets be installed |
| NativeListener.OneOwnerOneClose | packages/agent-bridge/native/linux-retained-native-listener.c:221-265 | in every run each descriptor is held by exactly one field and never closed, or by none and closed exactly once |
| NativeListener.OneSessionAndIdleCleanup | packages/agent-bridge/native/linux-retained-native-listener.c:635-685 | in every run at most one session is made, live operations use open descriptors, and a cleanup that proceeds finds no live operation and no open session |
| NativeListener.EverythingIsClosed | packages/agent-bridge/native/linux-retained-native-listener.c:221-265 | once operations are over, sessions closed and the listener cleaned up, every descriptor has been closed |
| ListenerOutcomes.QueuedExactly | packages/agent-bridge/native/linux-retained-native-listener.c:559-741 | an operation is queued if and only if the call may start one, and then with two fresh pipe ends |
| ListenerOutcomes.QueuingOccupies | packages/agent-bridge/native/linux-retained-native-listener.c:635-741 | queuing makes the owner busy and uses up the accept or the session's phase |
| ListenerOutcomes.ExecutedExactly | packages/agent-bridge/native/linux-retained-native-listener.c:405-470 | a worker that finishes is noted, and a successful accept holds one fresh descriptor |
| ListenerOutcomes.MadeExactly | packages/agent-bridge/native/linux-retained-native-listener.c:477-557 | a session is made if and only if a live accept completes that has executed without failure or cancellation, and it takes over what was accepted |
| ListenerOutcomes.EndedExactly | packages/agent-bridge/native/linux-retained-native-listener.c:524-557 | a completion closes both pipe ends, and what was accepted unless a session took it over |
| ListenerOutcomes.ClosedExactly | packages/agent-bridge/native/linux-retained-native-listener.c:241-265 | a session's descriptor is closed if and only if its own call finds it idle or its finalizer unreferenced |
| ListenerOutcomes.ListenerClosedExactly | packages/agent-bridge/native/linux-retained-native-listener.c:221-239 | the listener's descriptor is closed if and only if a cleanup finds it idle or its finalizer unreferenced |
| NativeListener.Native.Handle | packages/agent-bridge/native/linux-retained-native-listener.c:221-320 | every event on the structs in place is the step of the runs, and leaves each descriptor held once or closed once |
| NativeListener.Native.CompleteOperation | packages/agent-bridge/native/linux-retained-native-listener.c:524-557 | completion unblocks the owner, passes on or closes what was accepted and closes both pipe ends |
| NativeListener.Native.CreateSession | packages/agent-bridge/native/linux-retained-native-listener.c:477-512 | the accepted descriptor is taken over, or closed once on either failure |
| NativeListener.Native.QueueOperation | packages/agent-bridge/native/linux-retained-native-listener.c:559-599 | a queued operation holds both pipe ends; a failed one has closed both |
| NativeStream.SendAll | packages/agent-bridge/native/linux-retained-native-client.c:317-338 | for every pattern of partial sends, what was handed over is the frame's prefix up to the offset |
| NativeStream.SendSucceeds | packages/agent-bridge/native/linux-retained-native-client.c:317-345 | without errors, any pattern of partial sends hands over the whole frame and shuts the socket down |
| NativeStream.ReadToEof | packages/agent-bridge/native/linux-retained-native-listener.c:425-450 | for every pattern of partial reads, the 32769-byte buffer holds exactly the bytes read and zeros after them |
| NativeStream.ReadSucceedsExactly | packages/agent-bridge/native/linux-retained-native-listener.c:425-450 | a read without errors succeeds if and only if the stream has 3 to 32768 bytes, and then holds all of them |
| NativeStream.ReadReturnsWhatWasSent | packages/agent-bridge/native/linux-retained-native-client.c:317-362 | in every interleaving of both loops a successful read holds what was sent, which is the whole frame if and only if the sender handed it all over |
| NativeStream.FrameArrives | packages/agent-bridge/native/linux-retained-native-client.c:317-362 | a frame of 3 to 32768 bytes sent and read without errors in any partial steps arrives whole |
| NativeStream.CutOffSendIsRead | packages/agent-bridge/native/linux-retained-native-listener.c:425-450 | a concrete run in which a truncated frame is read successfully |
| SecretScan.Scan | scripts/verify-image-rootfs.py:71-79 | the loop reports if and only if some chunk with the 256 bytes before it contains a match |
| SecretScan.SeenExactly | scripts/verify-image-rootfs.py:71-79 | a match is seen if and only if it lies within a chunk and the 256 bytes before it |
| SecretScan.BoundedScanIsWhole | scripts/verify-image-rootfs.py:71-79 | for patterns whose matches have 1 to 257 bytes the scan is a search of the whole stream, however it is cut |
| SecretScan.ContainsSecret | scripts/verify-image-rootfs.py:11-13 | a report means a match in the stream; every token and every match of at most 257 bytes is reported |
| SecretScan.SecretExactly | scripts/verify-image-rootfs.py:11-13 | the expression's matches are exactly a header and two kinds of tokens, spelled part by part |
| SecretScan.LongHeaderIsMissed | scripts/verify-image-rootfs.py:11-13 | a key header with 256 spaces or more, cut before its end, is a match of the stream that is not reported |

## Left out

- Error codes: where only the denial matters, the source's error codes are merged into one refusal.
- Cryptography: SHA-256, HMAC, HKDF (RFC 5869), Ed25519 (RFC 8032) and timing-safe comparison are functions or
  predicates with the assumptions named above.
- The sensitive-text, private-text and control-character expressions are arbitrary predicates on strings; TextDecoder,
  TextEncoder and `JSON.parse` are modelled, other host behaviour (prototypes, freezing, property descriptors) is not.
- JSON numbers: integral lexemes are exact and all others are one rejected value; rounding to doubles is not modelled.
- Timestamps: in the runner, the adapter, the tables and the checkpoints an instant is its number of milliseconds; the
  ISO text form appears only in the envelope rules, through a parameter.
- CheckpointProtocol: the two-attempt loop of `#advanceCheckpoint` is modelled as interleaved read and swap steps of any
  number of readers, not as a method, because its iterations suspend.
- ProtocolRunner: `run` is modelled as the steps between its awaits, not as one loop, for the same reason; the transport's
  own timers are the event that a read or write breaks, and a handshake that times out is one such event.
- ProtocolRunner.BackwardClockInterruptsUnsent: needs a transport whose read had already resolved when the abort fired.
- ProtocolRunner.EveryRunIsSound: `transport.write` is taken to answer with a promise, as the shipped transport does; one
  that throws at once would leave the interrupt unsent with time left.
- RunOutcomes.CompletedExactly: the handshake's first two reads have no sample of their own; one that is out of time, like
  a transport that fails, is the event that a read breaks, and runs with it are denied and not among those described.
- RunOutcomes.InterruptedExactly: describes runs in this order of events, with an abort in the loop; an abort during the
  handshake is covered by EveryRunIsSound alone.
- ModuleLoader.LoadedInsideRoot: the samples are those of the call; a module that an earlier load retained is handed out
  without being opened again.
- SnapshotIssuing.LoadsExactly: for a reader whose steps no other reader separates, over a store whose two operations
  answer; what holds in every interleaving is `EveryLoadIsLive`.
- RuntimeAdapter: payload field names are an enumeration, not strings; the adapter's own active and used tables, whose
  entry expires at the run deadline, and the timers of a write are not modelled; the candidate's own hash is modelled
  only as far as canonical JSON accepts its texts.
- RuntimeAdapter.UnrecordedExactly: a frame taken by the transport at or after the deadline counts as not delivered, as
  in the source, which throws then.
- The dispatch, registration, capability and heartbeat validators: only what they promise of an accepted value is used.
- ProcessSessions: input validation and the adapter's authentication are taken to have succeeded when a call begins.
- SigningChain: the one-use flags of signer and handler, timeouts and the handler's shared close are not modelled.
- SigningChain.IssuedSnapshotVerifies: states only that the signed bytes are the verified ones and their hash the
  controller's; windows, grants and roots are in `SnapshotIssuing`, whose payload is a record and not a JSON value, and
  the snapshot validators are taken to return field values unchanged.
- SnapshotIssuing: the alphabets of references, digests and paths are not modelled, and the validator that controller and
  authenticator share is a parameter; the attestation's own window on a provisioned path is left out.
- SigningLimits.CrowdedPayloadIsSentAndRefused: at a host whose sensitive-text expression matches nothing and whose hash
  is constant.
- NativeListener: reference counting appears only as the rule for when a finalizer may run; paths, `lstat` and `unlink`,
  environment teardown and the client's connection phases are not modelled.
- NativeStream: polling appears as the answer to try again or to fail.
- Filesystem provisioners, the topology observer, the stdio transport, deny-only default classes and the rest of the
  image checker: no hard property.
