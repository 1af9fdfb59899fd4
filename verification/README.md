# CadPlot verification

A Dafny model of the parts of CadPlot that decide what may happen to a drawing, an operation or a
job, with proofs about every input, every run and every interleaving. `dafny verify dfyconfig.toml`
checks all of it.

| files | what they model |
|---|---|
| `Characters`, `MtextLexer`, `MtextTokens`, `MtextRelex` | the MTEXT lexer, every kind of token in its own characters, and whether a translated string lexes back to the pieces that were protected |
| `SpanIds`, `TranslationPlan`, `TranslationPlanner`, `PlanTheorems`, `DecisionTheorems` | the review inventory, the translation plan, which decisions it accepts and why it refuses others, and the drawing that is expected after it |
| `TranslationStore`, `ReviewTheorems`, `ReviewOrder`, `WriteOnce` | stored reviews and plans, which runs of submissions are accepted, and the write journal under crashes |
| `GatewayModels`, `GatewaySteps`, `GatewayRepository` | operation and catalog records, each repository method as one atomic step, and the class that updates five dictionaries in place |
| `GatewayRuns`, `GatewayCommit`, `GatewayScope`, `GatewayLazy` | invariants of all runs, the atomic commit of a success, what a call does to which records of which workstation, and the refinement of timely deadlines by lazy ones |
| `Timestamps`, `LocalTables`, `LocalReferenceStore`, `NonceTheorems`, `OutboxTheorems` | the worker's durable tables: replay nonces under text-compared deadlines, and the result outbox |
| `WorkerProtocol`, `WorkerDelivery`, `WorkerTheorems`, `WorkerRunner` | worker and gateway together, one durable commit per step, with a crash between any two; what a delivery leaves on record; and one iteration of the worker as a run of those steps |
| `Octets`, `PdfLexer`, `PdfGrammar`, `PdfWindow` | the PDF content lexer, the token grammar that it decides, and what a scan of the first bytes says about the rest |
| `ReceiptDigest` | the preimage of the receipt digest and its decoder |
| `RealArithmetic`, `SheetGeometry`, `DenominatorChoice`, `PaperProfiles` | rotation, scale and viewport of a sheet; which denominators suffice; validation and matching of paper profiles |
| `Migrations` | the migration ledger under crashed, resumed and competing runs |
| `BatchQueue` | queue batches under backpressure, the retry loop, and the pages of batch planning |

Where the source updates state step by step the model does too: a class or a method with a loop, whose
`ensures` equates the result or the new state with a specification function. The theorems are then about
that function and about runs of such steps.

## Assumptions

- Clocks do not go back: the gateway's clock between repository calls, and the worker's clock between polls.
  `GatewayCommit.CommitNeedsForwardClock` says exactly what happens to a commit when it does.
- New operations have fresh ids, state CREATED and a creation time that is not ahead; a lease that is asked
  for ends later than now.
- Record ids are unique within a drawing wherever a lemma says `UniqueIds`.
- The Unicode tables behind `\d`, `isnumeric`, `isalpha` and `isspace` are any tables with digits numeric and
  not alphabetic and with the usual ASCII part (`Characters.Alphabet.Coherent`).
- Digests are free constructors or an injective function, so equal digests mean equal material.
- The gateway acknowledges a start only for the answer UPDATED, as
  services/gateway/cadplot_gateway/service.py:734-743 does.
- One worker process runs per device.
- The JSON text of a review does not get shorter when decisions are added (`ReviewOrder.Monotone`), and what is
  stored at the start of a run is within the limits, as every accepted submission leaves it.
- Paper sizes are not negative; a zero size, which a label such as `00x50` yields, is modelled as the division
  by zero that it causes.

## Claims that hold only under a condition

- Re-lexing a translated string fails exactly when a changed target ends in a sign before an unsigned number, or
  has a semicolon behind a bare `\p` (`MtextRelex.RelexStable`, with both exceptions exhibited).
- Marks found in a prefix of a PDF content survive every readable extension exactly when they are found without
  the word that the prefix ends in (`PdfWindow.SafePrefixes`; `PdfWindow.CutTokenExample` cuts `S` from `SCN`,
  whatever the size of the window).
- The operator table has the entry `INLINE IMAGE`, which no word can equal because it has a space in it; every other entry
  is found (`PdfWindow.OneMoreWord`, `PdfWindow.OperatorsAre`).
- The nearest scale denominator can fail the tolerance although another one passes. For a derived scale m it does so
  exactly when m exceeds (1 + t) times the nearest one (`DenominatorChoice.NearestFitsExactly`). For a configuration
  with tolerance t it never does so exactly when no neighbouring denominators d < e have (1 + 2t) d < e together with
  (1 - 2t) e < d, or with (1 - 2t) e = d and d listed first (`DenominatorChoice.RefusesNoneExactly`;
  `DenominatorChoice.AscendingSuffices` for ascending lists). `DenominatorChoice.PlottableRefused` is a drawing that
  is refused. The default denominators qualify for every tolerance below the largest one, 0.1
  (`DenominatorChoice.DefaultsSuffice`).
- Batches that are valid alone and name the review that is then current can be submitted in any order and cut in any
  way, unless the review becomes too large (`ReviewOrder.SubmissionOrderIrrelevant`). Whether another cut of accepted
  decisions is accepted depends on that and on the limits of one batch, and on nothing else
  (`ReviewOrder.RecutAccepted`).
- The `failed` count of a queue batch counts the failed items exactly when no call of the builder was answered with
  both queued and deferred, unless with a full queue (`BatchQueue.FailedCountsFailures`; in
  `BatchQueue.NegativeFailedExample` it is -1).
- Catalog rows and the completed operation are committed together unless the clock has gone back behind the
  operation's start; then the rows stay although the call raises (`GatewayCommit.CommitNeedsForwardClock`, with a run
  of the repository that leads there in `GatewayCommit.ClockBackExample`).

## Model

| member | source | states |
|---|---|---|
| `MtextLexer.LexParts` | src/cadplot_mcp/translation.py:132-183 | The cursor loop computes exactly the pieces that the token-by-token specification prescribes, or raises its first error |
| `MtextTokens.DecodesEscapes` | src/cadplot_mcp/translation.py:186-187 | Decoding undoes an independent encoder of codes as `\U+` and four digits in either case, in front of any text |
| `MtextTokens.DecodesNothingElse` | src/cadplot_mcp/translation.py:186-187 | Only what that encoder writes is decoded; any other code point stands for itself |
| `MtextTokens.EscapeTaken` | src/cadplot_mcp/translation.py:162-168 | An escape is one token of seven, protected exactly for a numeric code, a control code, a backslash, a percent sign, a brace or one of the eight measurement signs |
| `MtextTokens.TerminatedTaken` | src/cadplot_mcp/translation.py:141 | Each of the sixteen letters takes its argument up to the next semicolon |
| `MtextTokens.UnterminatedTaken` | src/cadplot_mcp/translation.py:140-175 | Without a semicolon each of the fourteen characters that stand alone is a token, and any other control is refused |
| `MtextTokens.NumberTaken` | src/cadplot_mcp/translation.py:143 | A sign, digits and any mixture of separated groups of digits are one token, unless more of them follow |
| `MtextTokens.FieldTaken` | src/cadplot_mcp/translation.py:146-161 | A field with fields nested to any depth is one token up to the bracket that closes it |
| `MtextTokens.UnclosedRefused` | src/cadplot_mcp/translation.py:146-158 | A field that no such text closes is refused |
| `MtextTokens.OthersAreEditable` | src/cadplot_mcp/translation.py:140-183 | Whatever starts none of the tokens is one editable code point |
| `MtextRelex.PartsSpell` | src/cadplot_mcp/translation.py:132-183 | Lossless and with progress: the pieces spell the string, none is empty, and lexing what they spell gives them back |
| `MtextRelex.NumberMunch` | src/cadplot_mcp/translation.py:143 | The nested greedy number pattern takes every maximal mix of digit groups and separators, so it can be followed one code point at a time |
| `MtextRelex.ProtectedLocal` | src/cadplot_mcp/translation.py:140-173 | A protected token is the same token in front of any text that does not continue its number and brings no semicolon to a bare `\p`, and only then |
| `MtextRelex.RelexStable` | src/cadplot_mcp/translation.py:132-183 | Lexing the joined text of a lexed string whose editable pieces were replaced by admissible targets gives exactly those pieces if and only if no stray sign and no stray semicolon was introduced |
| `MtextRelex.StraySignExample` | src/cadplot_mcp/translation.py:302-318 | `K5` translated to `K-5` passes every check on the characters of a target and does not lex back |
| `MtextRelex.StraySemicolonExample` | src/cadplot_mcp/translation.py:141 | A target with a semicolon behind a bare `\p` passes every check on the characters of a target and does not lex back |
| `SpanIds.DecimalDenotes` | src/cadplot_mcp/translation.py:197 | The index in a span id is written in decimal and without leading zeros |
| `SpanIds.SpanIdInjective` | src/cadplot_mcp/translation.py:197 | A span id determines its record and its piece, even when record ids contain colons |
| `TranslationPlan.ReviewRecord` | src/cadplot_mcp/translation.py:190-202 | The spans gathered for a record are those of its reviewable pieces; it raises exactly when the lexer does |
| `TranslationPlan.ReviewEvery` | src/cadplot_mcp/translation.py:225-238 | The review of a whole snapshot: every record in order, one blocker per record that does not lex, and the total of spans |
| `TranslationPlan.InventoryPage` | src/cadplot_mcp/translation.py:211-253 | A page is served exactly for bounds in range and an unchanged inventory, where an empty expected id passes for any inventory, and is that stretch of the complete review |
| `TranslationPlanner.PlanPieces` | src/cadplot_mcp/translation.py:278-319 | The piece loop yields the patched text, the spans seen and the blockers, or the first decision error |
| `TranslationPlanner.PlanRecords` | src/cadplot_mcp/translation.py:271-325 | The record loop yields the changes, the spans seen and the blockers of the snapshot, or the first error |
| `TranslationPlanner.BuildTranslationPlan` | src/cadplot_mcp/translation.py:256-349 | The imperative plan builder equals the specification of plans, with every refusal in the order of the source |
| `TranslationPlanner.ExpectedAfter` | src/cadplot_mcp/translation_service.py:149-153 | For unique record ids the dictionary that the changes overwrite is the snapshot patched record by record |
| `PlanTheorems.AllSpansDistinct` | src/cadplot_mcp/translation.py:190-202 | For unique record ids no two spans of an inventory share an id |
| `DecisionTheorems.SpansMean` | src/cadplot_mcp/translation.py:190-202 | The spans of a record are exactly the decoded texts of its editable pieces with a letter in them, each under its place in the record |
| `PlanTheorems.RecordsAccepted` | src/cadplot_mcp/translation.py:291-321 | Decisions are accepted exactly when each fits its span and no patched record is too long; with fitting decisions only the length limit can refuse |
| `DecisionTheorems.PlanAccepts` | src/cadplot_mcp/translation.py:264-327 | A plan is built exactly when the drawing is the reviewed one, no span is decided twice, the limits hold, and every decision reviews a span: right source and, if it changes the text, Turkish, one editable piece with a letter and without percent sign, backslash, numeric or control code, and the same white space at both ends |
| `DecisionTheorems.DecisionMeans` | src/cadplot_mcp/translation.py:291-317 | A decision is refused with the first of those rules that it breaks, in the order of the source |
| `DecisionTheorems.RefusalReason` | src/cadplot_mcp/translation.py:264-327 | Every refusal of a plan names its reason: changed drawing, duplicates, payload, a span decided against the rule of that error, a record too long, or a decision about no span |
| `DecisionTheorems.OneRefusal` | src/cadplot_mcp/translation.py:291-317 | A single decision that breaks a rule is refused with the first rule it breaks |
| `PlanTheorems.ReadyMeansComplete` | src/cadplot_mcp/translation.py:271-349 | An accepted plan is ready exactly when nothing blocks the inspection, every record lexes, changed records are writable, and there is one decision per inventory span, none uncertain, with exactly the Turkish spans changed |
| `PlanTheorems.MergedAccepted` | src/cadplot_mcp/translation.py:266-327 | Any mixture of two accepted decision maps is accepted, or only the record length limit refuses it |
| `PlanTheorems.PatchedRecordRelexes` | src/cadplot_mcp/translation.py:278-325 | The text a plan writes lexes to the reviewed pieces if and only if the two stray conditions hold |
| `PlanTheorems.SecondReview` | src/cadplot_mcp/translation.py:190-202 | A second review of a completely reviewed and safely patched record finds the same span ids, each now reading its approved target |
| `PlanTheorems.ChangesPatch` | src/cadplot_mcp/translation.py:322-325 | Applying the plan's change list to a record of unique id gives exactly the plan's patched text |
| `TranslationStore.RemoteTranslationTables.SubmitReview` | src/cadplot_mcp/remote_translation.py:139-168 | A submission validates, then merges in one transaction or leaves the table alone |
| `TranslationStore.RemoteTranslationTables.PlanTranslation` | src/cadplot_mcp/remote_translation.py:169-188 | A plan is built from the stored review that the caller names; its first copy is kept, unless the page asked for lies beyond its changes |
| `TranslationStore.PagesCover` | src/cadplot_mcp/remote_translation.py:180-200 | Following the next offset ends and yields every change of the plan once and in order, on full pages except for the last |
| `TranslationStore.RemoteTranslationTables.Begin` | src/cadplot_mcp/remote_translation.py:203-234 | The journal row is inserted exactly when the write is granted, and nothing else changes |
| `TranslationStore.RemoteTranslationTables.ApplyTranslation` | src/cadplot_mcp/remote_translation.py:203-260 | A granted write ends with its receipt in the journal or with the row left open; every other request changes nothing |
| `ReviewTheorems.SubmitKeepsReviewsFit` | src/cadplot_mcp/remote_translation.py:141-163 | Every stored decision always fits a span of its inventory |
| `ReviewTheorems.StoredReviewPlans` | src/cadplot_mcp/remote_translation.py:169-179 | Planning from a stored review can fail only because the drawing changed or a size limit is exceeded |
| `ReviewOrder.BatchAccepted` | src/cadplot_mcp/translation.py:256-349 | A batch is valid exactly when each decision fits its span, no span occurs twice, and payload and record lengths are within limits; fitting decisions are refused for these three reasons only |
| `ReviewOrder.AcceptedExactly` | src/cadplot_mcp/remote_translation.py:144-163 | A run of consistent batches is accepted if and only if every batch is valid alone, names the review that is then current or repeats it, and the final review is within the limits |
| `ReviewOrder.OnlyTooLarge` | src/cadplot_mcp/remote_translation.py:150-159 | Batches that are valid alone and take their turns, consistent or not, are refused only because the review becomes too large |
| `ReviewOrder.AcceptedRunsAgree` | src/cadplot_mcp/remote_translation.py:144-163 | Two accepted runs that submit the same decisions, in any order and in any batches, store the same review |
| `ReviewOrder.SubmissionOrderIrrelevant` | src/cadplot_mcp/remote_translation.py:144-163 | The same decisions in two orders or cuts, valid and in turn, are both accepted and store the same review, or both lead to a review that is too large |
| `ReviewOrder.RecutAccepted` | src/cadplot_mcp/remote_translation.py:139-163 | Once accepted, the same decisions in another order and cut are accepted if and only if every batch takes its turn and is within the limits of one batch |
| `ReviewTheorems.PlanOrderIrrelevant` | src/cadplot_mcp/remote_translation.py:175-179 | The plan depends on the stored decisions, not on their order |
| `ReviewTheorems.RetryChangesNothing` | src/cadplot_mcp/remote_translation.py:153-157 | An exact retry leaves the stored review as it is |
| `ReviewTheorems.NoLostUpdate` | src/cadplot_mcp/remote_translation.py:150-163 | A submission that changes anything was made against the latest review and drops no span |
| `WriteOnce.AppliedAtMostOnce` | src/cadplot_mcp/remote_translation.py:203-260 | In every interleaving of requests, retries and crashes the drawing editor is called at most once per key and every receipt returned for a key is the same |
| `WriteOnce.StrandedForever` | src/cadplot_mcp/remote_translation.py:224-234 | A row left without a receipt is never written again: no call, no receipt, only failures for that key from then on |
| `WriteOnce.StrandedAnswer` | src/cadplot_mcp/remote_translation.py:203-226 | In every later state of the run a request for such a row is answered "attention required" if it names the review and inventory stored with the plan and "mismatch" otherwise, and changes nothing; the plan is never missing, blocked, replaced, written again or served |
| `WriteOnce.LostExecutionStrands` | src/cadplot_mcp/remote_translation.py:227-262 | A crash after the journal row, an editor that raises and a receipt that is not committed all leave the row stranded |
| `WriteOnce.RetryIsServed` | src/cadplot_mcp/remote_translation.py:203-231 | From the moment a receipt is in the journal, every request that names the stored review and inventory is answered with that receipt, any other with "mismatch", and nothing else happens |
| `WriteOnce.CompleteAnswer` | src/cadplot_mcp/remote_translation.py:203-234 | The answer to every request in every reachable state, decided by the plan as it was first stored and by the journal |
| `GatewayRepository.InMemoryGatewayRepository.UpsertProject` | services/gateway/cadplot_gateway/repositories.py:192-211 | A project row is stored exactly when its workstation has the same tenant and owner and an existing row keeps its own |
| `GatewayRepository.InMemoryGatewayRepository.UpsertDrawing` | services/gateway/cadplot_gateway/repositories.py:227-248 | The same for a drawing row and its project |
| `GatewayRepository.InMemoryGatewayRepository.CreateOrGetOperation` | services/gateway/cadplot_gateway/repositories.py:307-323 | A known key returns its operation, compared by fingerprint, and changes nothing; a new key stores the operation and its index entry |
| `GatewayRepository.InMemoryGatewayRepository.RefreshAndCollect` | services/gateway/cadplot_gateway/repositories.py:346-361 | One pass refreshes exactly the records of one workstation and finds whether it is busy and what may be leased |
| `GatewayRepository.InMemoryGatewayRepository.LeaseNextOperation` | services/gateway/cadplot_gateway/repositories.py:338-377 | Leasing equals the step that picks the first created operation by creation time and id |
| `GatewayRepository.InMemoryGatewayRepository.StartOperation` | services/gateway/cadplot_gateway/repositories.py:379-408 | Starting equals its step function, state and answer |
| `GatewayRepository.InMemoryGatewayRepository.FinishOperation` | services/gateway/cadplot_gateway/repositories.py:410-448 | Finishing equals its step function, state and answer |
| `GatewayRepository.InMemoryGatewayRepository.ValidateWorkerCatalogApplication` | services/gateway/cadplot_gateway/repositories.py:494-571 | The checks before a commit, in order, refuse exactly the rows that the specification refuses |
| `GatewayRepository.InMemoryGatewayRepository.ApplyWorkerSuccess` | services/gateway/cadplot_gateway/repositories.py:450-492 | Applying a success equals its step function, state and answer |
| `GatewayRuns.StepKeepsInv` | services/gateway/cadplot_gateway/repositories.py:168-492 | Every call keeps the shape rules, one active operation per workstation, the index bijection and a sound catalog, moves operations only forward, and keeps every owner |
| `GatewayRuns.RunKeepsInv` | services/gateway/cadplot_gateway/models.py:319-398 | The invariant holds in every state of every run that starts empty |
| `GatewayRuns.RunAdvances` | services/gateway/cadplot_gateway/repositories.py:168-492 | Between any two states of a run each operation is unchanged or further on, with the same request, and no tenant, owner, workstation or project has changed |
| `GatewayRuns.TerminalIsFinal` | services/gateway/cadplot_gateway/repositories.py:410-492 | An operation that has ended keeps its record for the rest of the run |
| `GatewayRuns.RetryFindsTheSame` | services/gateway/cadplot_gateway/repositories.py:307-323 | A repeated request finds the operation of the first one in every later state of the run |
| `GatewayRuns.LeasedAtMostOnce` | services/gateway/cadplot_gateway/repositories.py:338-377 | No operation is leased by two steps of a run |
| `GatewayRuns.LeaseNeverExpires` | services/gateway/cadplot_gateway/repositories.py:366-370 | The operation selected for a lease is never due, so the branch that would expire it is not taken |
| `GatewayRuns.StartedWriteNeverExpires` | services/gateway/cadplot_gateway/repositories.py:595-606 | A translation write that has started ends as succeeded, failed or in need of attention, never as expired |
| `GatewayCommit.CommitIsAtomic` | services/gateway/cadplot_gateway/repositories.py:472-492 | Exactly the accepted calls store every row as reported together with the success; every other call leaves the catalog alone, and a call that raises changes nothing |
| `GatewayCommit.CommitNeedsForwardClock` | services/gateway/cadplot_gateway/repositories.py:480-492 | Without the clock assumption, an accepted success is fully committed exactly when the clock has not gone back behind its start; otherwise the rows are stored and the call raises |
| `GatewayCommit.ClockBackExample` | services/gateway/cadplot_gateway/repositories.py:480-492 | A listing that is created, leased and started at 20 is reported at 15: its project row is stored, the call raises, and the operation goes on running |
| `GatewayScope.LeaseMeans` | services/gateway/cadplot_gateway/repositories.py:338-377 | A lease goes to the waiting operation of this tenant, workstation and owner that was created first; there is none exactly when the workstation is busy or nothing waits; no other workstation's operation is touched |
| `GatewayScope.StartMeans` | services/gateway/cadplot_gateway/repositories.py:379-408 | Another workstation's operation is not found; exactly a lease that still runs is started, and a missed one needs attention |
| `GatewayScope.FinishMeans` | services/gateway/cadplot_gateway/repositories.py:410-448 | Another workstation's operation is not found; exactly one that runs in time is finished as reported |
| `GatewayScope.ApplyMeans` | services/gateway/cadplot_gateway/repositories.py:450-492 | A success is taken exactly for an operation of this workstation that runs in time and for acceptable rows, or as a repetition |
| `GatewayScope.AcceptedRowsMean` | services/gateway/cadplot_gateway/repositories.py:494-571 | The accepted rows are those that answer the task, list exactly the result, and belong to the operation's tenant, owner and workstation, drawings in an enabled project |
| `GatewayScope.CommittedRows` | services/gateway/cadplot_gateway/repositories.py:480-492 | After a commit every reported row is stored as reported with the operation's tenant, owner and workstation, and every drawing's project is enabled and of the same owner |
| `GatewayScope.DeadlineMeans` | services/gateway/cadplot_gateway/repositories.py:585-632 | Which record a missed deadline changes, into what state and with which error, in every state of an operation |
| `GatewayScope.LifeOfAnOperation` | services/gateway/cadplot_gateway/models.py:319-398 | In every state of every run an operation starts before its deadline, ends after it starts, expires only after its deadline, and carries a result or an error exactly when it ended so |
| `GatewayCommit.RedeliveryChangesNothing` | services/gateway/cadplot_gateway/repositories.py:472-475 | Reporting an accepted success again, with whatever rows, is accepted and changes nothing |
| `GatewayCommit.RunRedeliveryChangesNothing` | services/gateway/cadplot_gateway/repositories.py:472-475 | The same in every later state of a run |
| `GatewayLazy.StepAlike` | services/gateway/cadplot_gateway/repositories.py:329-492 | One call on a lazy and on an up-to-date repository that look alike leaves them looking alike |
| `GatewayLazy.LazyRefinesEager` | services/gateway/cadplot_gateway/repositories.py:329-492 | After the same calls at the same times, a reader that refreshes at any later time sees the same operations, but for completion times, catalog and index as in a repository whose deadlines all fire on time |
| `Timestamps.IsoLayout` | src/cadplot_mcp/local_refs.py:507-516 | The text of a timestamp, field by field and separator by separator |
| `Timestamps.TextOrderIsTimeOrder` | src/cadplot_mcp/local_refs.py:507-516 | Comparing ISO timestamps with zero or six fractional digits as text is comparing the instants they denote |
| `LocalReferenceStores.LocalReferenceStore.ConsumeDispatchNonce` | src/cadplot_mcp/local_refs.py:479-521 | The purge and the insert equal the replay step, with both refusals |
| `LocalReferenceStores.LocalReferenceStore.SavePendingResult` | src/cadplot_mcp/local_refs.py:523-566 | A result is stored once; a conflicting one or a duplicate operation is refused |
| `LocalReferenceStores.LocalReferenceStore.NextPendingResult` | src/cadplot_mcp/local_refs.py:568-597 | The next result is the first of the device by completion time and task, or there is none |
| `LocalReferenceStores.LocalReferenceStore.AcknowledgePendingResult` | src/cadplot_mcp/local_refs.py:599-620 | Only the exact stored result is removed |
| `OutboxTheorems.SavedMeans` | src/cadplot_mcp/local_refs.py:523-566 | A result is kept exactly when its task has this very row, or neither its task nor its command has one; otherwise which refusal, and nothing changes |
| `OutboxTheorems.FirstMeans` | src/cadplot_mcp/local_refs.py:568-597 | The first row by completion text and task is the device's own row that was completed first in time, ties by task |
| `OutboxTheorems.SaveThenAcknowledge` | src/cadplot_mcp/local_refs.py:523-620 | Saving a new result and acknowledging it gives the old table back |
| `NonceTheorems.PurgeIsInvisible` | src/cadplot_mcp/local_refs.py:492-519 | A call is accepted exactly when it is well formed and no accepted call for the same nonce is still ahead of its deadline, although expired rows are deleted |
| `NonceTheorems.AcceptedAtMostOnce` | src/cadplot_mcp/local_refs.py:492-519 | The same nonce and deadline are accepted at most once in a run |
| `WorkerTheorems.DeliverGood` | services/gateway/cadplot_gateway/worker_ingress.py:549-673 | A delivery keeps the gateway's invariant, and one that is acknowledged leaves exactly its payload on record |
| `WorkerDelivery.FailureDelivered` | services/gateway/cadplot_gateway/service.py:438-470 | A failure of an operation that runs in time ends it as FAILED, or with attention as ATTENTION_REQUIRED, with a public error code and at the time of the call, and is acknowledged; later only a record of that failure is |
| `WorkerDelivery.FindingDelivered` | services/gateway/cadplot_gateway/worker_ingress.py:549-673 | A finding is acknowledged exactly when it is on record already, or the operation runs in time and the rows are acceptable; then it is on record |
| `WorkerTheorems.StepKeepsWorld` | src/cadplot_mcp/worker_runner.py:65-97 | Every step of worker, gateway, other clients or a crash keeps the invariant of both sides |
| `WorkerTheorems.ExecutedAtMostOnce` | src/cadplot_mcp/worker_dispatch.py:128-139 | Whatever crashes and however often a dispatch is offered again, no operation is executed twice |
| `WorkerTheorems.AuthorizedAtMostOnce` | src/cadplot_mcp/worker_dispatch.py:119-129 | No dispatch passes authorization twice, and only authorized ones are executed |
| `WorkerTheorems.OutboxHoldsAtMostOne` | src/cadplot_mcp/worker_runner.py:66-97 | The outbox never holds more than one result |
| `WorkerTheorems.ResultsAreNotLost` | src/cadplot_mcp/worker_runner.py:66-97 | A saved result stays in the outbox until the gateway holds exactly that payload for good; delivering it again then changes nothing |
| `WorkerDelivery.ResultsComeFromExecutions` | src/cadplot_mcp/worker_dispatch.py:128-150 | In every state of every run each result in the outbox or on its way reports the task, operation and command of a dispatch that was executed |
| `WorkerRunner.DeliverResult` | src/cadplot_mcp/worker_runner.py:70-72 | A result leaves the outbox exactly when the gateway has taken it, and otherwise stays |
| `WorkerRunner.ExecuteTask` | src/cadplot_mcp/worker_dispatch.py:128-150 | Start, execution, saving and delivery happen in this order; without an acknowledged start nothing is executed |
| `WorkerRunner.RunOnce` | src/cadplot_mcp/worker_runner.py:65-97 | Every iteration, however far it gets, is a run of the protocol's steps; a pending result goes first, a completed one was executed once, is held by the gateway and leaves the outbox as it was |
| `PdfLexer.SkipPdfLiteralString` | src/cadplot_mcp/audit.py:286-301 | The loop finds the parenthesis that closes the string, or raises when there is none |
| `PdfLexer.CountMarkingOperators` | src/cadplot_mcp/audit.py:213-283 | The byte loop with its container stack equals the scan of tokens |
| `PdfGrammar.StringComplete` | src/cadplot_mcp/audit.py:286-301 | Plain bytes, escapes and balanced parentheses are skipped exactly, at any depth |
| `PdfGrammar.StringSound` | src/cadplot_mcp/audit.py:286-301 | Whatever is skipped is plain bytes, escapes and balanced parentheses up to a closing one |
| `PdfGrammar.TokensAreUnique` | src/cadplot_mcp/audit.py:219-274 | The next token is read exactly when the content starts with it and what follows cannot continue it |
| `PdfGrammar.LexerIsGrammar` | src/cadplot_mcp/audit.py:213-283 | The lexer answers exactly what the grammar of tokens and balanced containers prescribes, with a top-level `BI` cutting the content short, and raises exactly when it prescribes nothing |
| `PdfWindow.MarksSurvive` | src/cadplot_mcp/audit.py:193-195 | Marks found in a prefix that ends on a token boundary are found in every readable extension |
| `PdfWindow.SafePrefixes` | src/cadplot_mcp/audit.py:193-195 | Marks survive every readable extension if and only if they are found without the word that the prefix ends in |
| `PdfWindow.PageMarkingEvidence` | src/cadplot_mcp/audit.py:184-210 | The evidence for a page equals its specification over both limits |
| `PdfWindow.EvidenceIsHonest` | src/cadplot_mcp/audit.py:184-210 | An answer of zero is exact; an answer of one is exact in the window, and beyond it for a readable content whose window is safe |
| `PdfWindow.CutTokenExample` | src/cadplot_mcp/audit.py:193-195 | For every scan limit there is a content whose window cuts `S` from `SCN` and reports a mark that the content does not have |
| `PdfWindow.OneMoreWord` | src/cadplot_mcp/audit.py:33-53 | A word on a line of its own behind any complete content adds a mark exactly when it is one of the sixteen operators written out |
| `ReceiptDigest.BuildPreimage` | src/cadplot_mcp/audit.py:393-429 | The preimage is built item by item, or the first item that is refused decides the error |
| `ReceiptDigest.ItemMeans` | src/cadplot_mcp/audit.py:402-424 | Which item is refused and with which error, every range written out |
| `ReceiptDigest.PreimageStarts` | src/cadplot_mcp/audit.py:397-399 | The preimage starts with the domain name, a zero byte and the count in eight bytes, the most significant first |
| `ReceiptDigest.DecodesPreimage` | src/cadplot_mcp/audit.py:393-429 | A decoder gives back the ordered list of items from the preimage |
| `ReceiptDigest.PreimageInjective` | src/cadplot_mcp/audit.py:393-429 | Equal preimages come from equal lists in the same order |
| `ReceiptDigest.ReceiptBindsOneList` | src/cadplot_mcp/audit.py:97-119 | With a hash that does not collide a receipt is verified for one output list only |
| `ReceiptDigest.BindsMeans` | src/cadplot_mcp/audit.py:97-119 | For outputs that pass the checks the binding is verified exactly for a success with their number and the hash of their preimage |
| `SheetGeometry.DerivePlotGeometry` | src/cadplot_mcp/planner.py:248-291 | The candidate loop and the tolerance tests equal the specification of plot geometry |
| `SheetGeometry.FullSizeExample` | src/cadplot_mcp/planner.py:248-291 | A frame of 420 by 297 with an A3 label is turned and plotted at full size |
| `SheetGeometry.UprightExactly` | src/cadplot_mcp/planner.py:257-271 | The paper stays upright if and only if (width - height) * (paper width - paper height) >= 0, ties included |
| `SheetGeometry.NoQuarterTurn` | src/dotnet/CadPlotMcp.Core/ViewportGeometry.cs:33-50 | On the page that the audit expects, the viewport turns exactly for a square window on a wide page or a wide window on a square paper |
| `SheetGeometry.ViewportMeans` | src/dotnet/CadPlotMcp.Core/ViewportGeometry.cs:17-55 | A viewport is given exactly for positive sizes; it has the page's size, is centred on the window, scales a drawing unit to its millimetres over the denominator, and turns when window and page disagree on the wider side |
| `SheetGeometry.PlottedSizeFits` | src/cadplot_mcp/planner.py:270-276 | Both plotted sides differ from the turned paper by at most the factor t(3 + t)/2 for tolerance t |
| `SheetGeometry.ViewportSizeFits` | src/dotnet/CadPlotMcp.Core/ViewportGeometry.cs:38-48 | The same bound for window size times custom scale against paper units |
| `SheetGeometry.MissedFromBelow` | src/cadplot_mcp/planner.py:273-276 | If some denominator fits but the nearest does not, the nearest lies below the derived scale |
| `DenominatorChoice.NearestFitsExactly` | src/cadplot_mcp/planner.py:273-276 | When some denominator fits a derived scale, the nearest one does if and only if the scale is at most 1 + t times it |
| `DenominatorChoice.NearestSufficesExactly` | src/cadplot_mcp/planner.py:273-276 | For distinct denominators in any order the nearest one fits every scale that some denominator fits if and only if no two neighbours leave a gap, where a tie goes to the one listed first |
| `DenominatorChoice.AscendingSuffices` | src/cadplot_mcp/planner.py:273-276 | For an ascending list that is: no d and next e have (1 + 2t) d < e and (1 - 2t) e <= d |
| `DenominatorChoice.RefusesNoneExactly` | src/cadplot_mcp/planner.py:248-291 | A configuration plots every drawing whose sides match and whose scale some denominator fits if and only if its denominators leave no gap |
| `DenominatorChoice.DefaultsSuffice` | src/cadplot_mcp/config.py:68 | The default denominators leave no gap for tolerances below 0.1, and one at 0.1 |
| `DenominatorChoice.PlottableRefused` | src/cadplot_mcp/planner.py:248-291 | A frame of 42856.8 by 30305.88 on A3 with denominators 100 and 104.1 and 2 percent gets no geometry, although 104.1 fits its scale |
| `PaperProfiles.ValidateProfiles` | src/cadplot_mcp/config.py:324-363 | Validation accepts exactly between 1 and 100 profiles with valid fields that differ in id, share no normalized label and overlap in no size; otherwise the first check that fails, profile by profile, decides the error |
| `PaperProfiles.ProfilesOverlap` | src/cadplot_mcp/config.py:366-378 | The nested loops find whether two sizes of the profiles are within both tolerances together |
| `PaperProfiles.OverlapIsExact` | src/cadplot_mcp/config.py:373-376 | The overlap test holds if and only if some paper size lies in both tolerance boxes, each given by four inequalities |
| `PaperProfiles.OverlapMeans` | src/cadplot_mcp/config.py:366-378 | Two profiles overlap if and only if some paper size is near a label of each |
| `PaperProfiles.MatchPaperProfile` | src/cadplot_mcp/config.py:77-108 | The two passes over the profiles equal the specification of matching |
| `PaperProfiles.MatchMeaning` | src/cadplot_mcp/config.py:77-108 | For accepted profiles no label is ambiguous, and the match is the profile that claims the label or, if none does, the one that covers its size |
| `PaperProfiles.AmbiguousMeans` | src/cadplot_mcp/config.py:77-108 | For any profiles a label is ambiguous exactly when two of them claim it, or none does and two cover its size |
| `PaperProfiles.OwnLabelsMatch` | src/cadplot_mcp/config.py:79-87 | Every label of an accepted profile is matched to that profile |
| `PaperProfiles.OrderIsIrrelevant` | src/cadplot_mcp/config.py:77-108 | The order of accepted profiles makes no difference to any match |
| `Migrations.ReadAppliedMigrations` | services/gateway/cadplot_gateway/migrate.py:308-331 | The ledger is accepted exactly when it is a nonempty prefix of the packaged sequence, hash for hash |
| `Migrations.RefusalMeans` | services/gateway/cadplot_gateway/migrate.py:144-172 | For every combination of foreign schema, foreign operations and ledger: bootstrapped, resumed from an exact ledger, or refused with which error |
| `Migrations.MigrationTarget.ApplyMigrations` | services/gateway/cadplot_gateway/migrate.py:130-172 | An uninterrupted run succeeds exactly for an untouched database or an exact ledger, and then executes and records exactly the missing bodies in order |
| `Migrations.LedgerIsAlwaysExact` | services/gateway/cadplot_gateway/migrate.py:130-172 | In every state of every interleaving, with crashes and lost locks, ledger and schema are the same exact prefix, and they only grow |
| `Migrations.UpToDateCommits` | services/gateway/cadplot_gateway/migrate.py:148-166 | On a managed database the bootstrap of an empty one and the next migration of any other always commit |
| `Migrations.RecordedRollsBack` | services/gateway/cadplot_gateway/migrate.py:162-166 | A transaction for a migration that is already recorded is rolled back |
| `Migrations.CompletedRunIsFull` | services/gateway/cadplot_gateway/migrate.py:162-172 | A run that reports success leaves every migration executed once and in order |
| `Migrations.FurtherRunAppliesNothing` | services/gateway/cadplot_gateway/migrate.py:158-172 | On a full database no step commits anything and a further run reports nothing applied |
| `Migrations.LaterRunsReportNothing` | services/gateway/cadplot_gateway/migrate.py:158-172 | Once the database is full it stays as it is for the rest of the run, and every runner that starts after that reports nothing applied |
| `Migrations.LockExcludes` | services/gateway/cadplot_gateway/migrate.py:273-287 | While nobody loses the lock only its holder is between reading the ledger and finishing |
| `BatchQueue.QueueApprovedBatch` | src/cadplot_mcp/batch.py:199-247 | Every item is the builder's answer or a deferral, and no call is made after the first full queue |
| `BatchQueue.ItemsMean` | src/cadplot_mcp/batch.py:199-233 | An approval is queued exactly when the builder was asked and answered queued without a full queue, and deferred exactly when it was not asked, the queue was full, or it said so |
| `BatchQueue.SummaryPartitions` | src/cadplot_mcp/batch.py:233-245 | The counts add up to the requests, and `failed` is the number of items neither queued nor deferred if and only if no item is both |
| `BatchQueue.FailedCountsFailures` | src/cadplot_mcp/batch.py:215-245 | That is so if and only if no call before the queue was full was answered with queued and deferred and no full queue |
| `BatchQueue.NegativeFailedExample` | src/cadplot_mcp/batch.py:233-245 | A builder that answers queued and deferred for one approval yields a `failed` count of -1 although nothing failed |
| `BatchQueue.EmptyChunk` | src/cadplot_mcp/batch_demo.py:113-160 | The retry loop ends, accepts every approval of a chunk once and in order, and takes as many waves as the chunk has windows |
| `BatchQueue.WavesAreCeiling` | src/cadplot_mcp/batch_demo.py:113-160 | That number of waves is the chunk size over the capacity, rounded up |
| `BatchQueue.ChunkWavesMean` | src/cadplot_mcp/batch_demo.py:107-160 | Every full chunk takes the same number of waves and the remainder its own |
| `BatchQueue.QueueEverything` | src/cadplot_mcp/batch_demo.py:107-160 | Over all chunks every approval is accepted exactly once in its original order |
| `BatchQueue.BuildBatchPage` | src/cadplot_mcp/batch.py:36-97 | A page plans exactly its stretch of the inventory and counts each status; bad offsets, limits and ids and changed inventories are refused in the order of the source |
| `BatchQueue.PlanAll` | src/cadplot_mcp/batch_demo.py:395-427 | The page loop ends and plans every drawing exactly once and in order, on pages that all differ |

## Left out

- MtextRelex.ProtectedLocal: Unicode tables are parameters with the laws listed under Assumptions, so nothing is said about one Unicode version.
- PlanTheorems.ReadyMeansComplete: whether a translation is linguistically right is not a property of the code.
- WorkerTheorems.ExecutedAtMostOnce: execution is at most once, not exactly once; a crash after an acknowledged start loses the work, as in the source.
- WorkerRunner.RunOnce: the gateway's clock is read once per iteration and other clients do not interleave; the protocol's runs allow both.
- WorkerTheorems.DeliverGood: signatures, result freshness and the replay guard. Where they refuse, the delivery is lost as in a crash; where the guard knows the result as applied, it is acknowledged without asking the repository, which `WorkerTheorems.RedeliveryIsIdle` says the repository would do too.
- WorkerProtocol.Deliver: failing twice, and the check whether a result still needs to be applied together with applying it, are one atomic step of the gateway.
- GatewayLazy.LazyRefinesEager: completion times and returned status codes differ between the two repositories and are not compared.
- PaperProfiles.MatchMeaning: label normalisation and size parsing are parameters.
- SheetGeometry.DerivePlotGeometry: the derived scale is reported unrounded, and floating-point rounding is not modelled.
- SheetGeometry.PlottedSizeFits: floating-point rounding is not modelled.
- PdfWindow.EvidenceIsHonest: decoding of the content streams happens before the modelled code.
- Migrations.LedgerIsAlwaysExact: a body is one opaque statement that either runs or rolls back; the first one creates the schema and the operations table, and no later one drops them.
- BatchQueue.QueueApprovedBatch: field and format checks of one approval, fields of an answer that would overwrite the approval's own fields, and the batch digest.
- BatchQueue.BuildBatchPage: the digest of a page, and the text of a planning error.
- PaperProfiles.ValidateProfiles: the checks of media, template and digest fields are one flag per profile.
- TranslationPlan.InventoryPage: the prose instructions.
- TranslationPlan.ReviewRecord: the search form of a span's text.
- Seed helpers, listings and getters of the in-memory repository: they add no state change that the upserts do not have. The PostgreSQL repository is not part of this model.
- Client identifiers, UUID syntax and field patterns of records: parsed values are assumed.
- The page size limit of worker responses, the project list and the drawing resolution in front of a translation request.
- Directory checks, fingerprints, file copies and every call into AutoCAD, HTTP, SQLite and PostgreSQL: their answers are parameters.
- Evidence validators, staging, status polling and the remaining fields of the audit report: long lists of independent field checks.
