# Verification models of the ArkScope core

These Dafny modules model the stateful core of the repository and prove properties of it. They are
checked together with `dafny verify dfyconfig.toml`.

| part | files |
|---|---|
| guided calibration journal: profile normaliser, topic policy, proposals, transactional journal | `Profile`, `CalibrationPolicy`, `ProposalApproval`, `CalibrationJournal`, `JournalInvariant`, `JournalSteps`, `CompletionTheorems`, `JournalTheorems`, `CalibrationStore` |
| evidence passages: UTF-8, text normal form, streaming selection, stored contexts | `Utf8`, `SourceText`, `PassageSelection`, `SourceContext` |
| bounded public source reader: HTML text, gzip members, body framing, redirects | `HtmlText`, `GzipStream`, `ResponseHeaders`, `SourceReader` |
| admission governors and paid pages | `PaidGovernor`, `SecGovernor`, `PageLoop` |
| discovery cache and its epochs | `DiscoveryCache` |
| price table: alias fold and provider top-up | `PriceTable`, `PriceBackfill`, `BackfillTheorems` |
| identity links and the universe snapshot | `IdentityLinks` |
| schema fingerprint tokenizer | `SqlTokens` |
| provider environment bridge | `EnvBridge`, `ProviderEnvironment` |

Where the source changes state step by step, the model has a class or a loop whose contract equates the new
state with a specification function of the old one; the properties over runs are lemmas about that function.
Beside each such function a lemma tells what it does without naming it, from the inputs and the rows before
(`CompletionTheorems.CompletionIsExact`, `PaidGovernor.ReservationLaw`, `BackfillTheorems.TickerIsExact` and so on).
A run is a finite sequence of operations in any order with arbitrary arguments and clock readings. Each
`BEGIN IMMEDIATE` transaction is one atomic operation.

Some promises hold only under a condition. These are stated as equivalences, with a concrete instance beside
them where that helps:

- A paid deferral is honoured to the end of every run exactly when its key had an account row; otherwise a request
  gets through while it lasts (`PaidGovernor.DeferralIsHonouredExactly`, `PaidGovernor.LostDeferral`).
- The SEC governor truncates its file before it formats the new instant, so an instant past the calendar's end
  leaves the file empty and the next start unspaced (`SecGovernor.TooEarlyExactly`,
  `SecGovernor.ClockJumpLosesSpacing`).
- A draft from the older proposal route never passes `approve_proposal`; only the older route's own marking can
  approve it (`JournalTheorems.DraftsStayApprovable`).
- A stored context is read back exactly when no passage is blank, which extracted text guarantees
  (`SourceContexts.RoundTripExactly`, `SourceContexts.ExtractedTextRoundTrips`).
- The alias fold leaves no alias exactly when no alias brings back the name of an earlier one
  (`PriceTable.FoldLeavesNoAlias`); a repeated top-up adds nothing exactly when the fold leaves the scope's
  tickers where they are (`PriceBackfill.RepeatAddsNothing`); the reported row count is the growth of the table
  exactly when no batch raises after its first row, because a volume that does not fit 64 bits raises in the
  middle of the batch and the rows before it stay (`PriceBackfill.RowsAddedIsGrowth`).
- A hidden mark on a renamed ticker hides nothing (`IdentityLinks.HiddenRenamedTickerHidesNothing`).
- The module comment of `src/data_provider_config.py` promises that `config/.env` is authority only on explicit
  request. The first load may import the variable that selects fallback mode from that very file. The mode a history
  ends in is a function of its inputs: the operator's flag, else the line of the first load, else the last setting
  (`EnvBridge.ModeIsDecidedByInputs`). When nobody asks, a history with an application can come to show the file for a
  field exactly when that line selects fallback mode, the field is not a permanent one and the operator does not usably
  hold it (`EnvBridge.FileIsShownExactly`). Before any application a plain load shows whatever name the file held and
  the operator had not set, in either mode (`EnvBridge.BeforeAnyApplication`, `EnvBridge.PlainLoadAdmitsFile`).
- Saving and clearing a field loses a blank operator value (`EnvBridge.SaveThenClearUndoes`), and applying twice leaves
  the bookkeeping unchanged exactly when no cleared field was left unwithdrawn (`EnvBridge.ApplyIsIdempotent`).

## Model

| member | source | states |
|---|---|---|
| `InvestorProfiles.NormalizeStrList` | src/investor_profile.py:144-154 | the loop keeps each distinct non-empty stripped text once, in order |
| `InvestorProfiles.NormalizedIsNormal` | src/investor_profile.py:110-194 | normalising the value of a field twice is normalising it once |
| `InvestorProfiles.NormalizeIsLocal` | src/investor_profile.py:157-194 | it succeeds exactly when every payload field is acceptable, touches only payload fields (and the derived mismatch), and returns a normal profile |
| `InvestorProfiles.NormalizeMeans` | src/investor_profile.py:120-194 | for every field, the normaliser gives what the raw value reads as, and raises exactly when it reads as nothing: scores 1 to 10, percentages above 0 up to 100, choices by name, lists as their distinct stripped texts in the order first seen |
| `InvestorProfiles.NormalIsLegal` | src/investor_profile.py:110-194 | the values the normaliser leaves alone are exactly the legal ones |
| `InvestorProfiles.NormalProfileIsSound` | src/investor_profile.py:110-117 | a normal profile holds legal values, and its mismatch is "unclear" exactly without a score, "appetite_above_capacity" exactly when the appetite is two or more above the capacity, "capacity_above_appetite" exactly in the mirrored case, else "none" |
| `CalibrationPolicy.TopicsComeOutInOrder` | src/investor_profile_calibration.py:81-87 | no topic comes out twice: known ones first in catalogue order, then the others in the order first seen; ordering again changes nothing |
| `CalibrationPolicy.ProposableFields` | src/investor_profile_calibration_policy.py:18-49 | no field belongs to two topics, and no reserved or derived field can be proposed |
| `ProposalApproval.ClampWritesDraft` | src/investor_profile_calibration_policy.py:51-69 | whatever a provider sends, the clamped patch with its recorded base values is a well-formed draft |
| `ProposalApproval.PatchRenormalizes` | src/investor_profile.py:157-194 | normalising a stored patch against any normal profile gives the patch back exactly when its values are normal |
| `ProposalApproval.DraftPassesForever` | src/investor_profile_calibration.py:1197-1228 | the approval check accepts exactly the well-formed drafts, against every normal profile, so edits in between cannot spoil one |
| `ProposalApproval.ConflictFields` | src/investor_profile_calibration.py:1230-1252 | exactly the patched fields whose current value differs from the base, lists compared as sets |
| `ProposalApproval.AuditCoverage` | src/investor_profile_calibration.py:52-58 | the audited fields are all but the reserved ones and the stamps |
| `ProposalApproval.ApprovalIsMerge` | src/investor_profile_calibration.py:1254-1329 | patched fields take the proposed values, the mismatch is true of the merged scores, the stamps are the time of approval, every other field stays, the recorded changes are exactly the difference |
| `CalibrationStores.CalibrationStore.StartSession` | src/investor_profile_calibration.py:394-436 | the imperative start, with supersession of session, turn and draft, is the specified step |
| `CalibrationStores.CalibrationStore.CloseSession` | src/investor_profile_calibration.py:438-452 | the imperative close is the specified step |
| `CalibrationStores.CalibrationStore.AppendMessage` | src/investor_profile_calibration.py:454-487 | a free message names no turn; the rest is unchanged |
| `CalibrationStores.CalibrationStore.BeginTurn` | src/investor_profile_calibration.py:607-701 | replay, pending and fresh begin are the specified step |
| `CalibrationStores.CalibrationStore.FailTurn` | src/investor_profile_calibration.py:738-761 | only a pending turn fails, with the error code on one line, cut at 80 characters and never empty |
| `CalibrationStores.CalibrationStore.ReconcileInterruptedTurns` | src/investor_profile_calibration.py:763-773 | every pending turn becomes interrupted, nothing else changes |
| `CalibrationStores.CalibrationStore.RetryTurn` | src/investor_profile_calibration.py:775-815 | the imperative retry with its guards is the specified step |
| `CalibrationStores.CalibrationStore.CompleteTurn` | src/investor_profile_calibration.py:838-1058 | judging the result, writing coverage, messages, draft and next question, or failing the turn, is the specified step |
| `CalibrationStores.CalibrationStore.CreateProposal` | src/investor_profile_calibration.py:1060-1096 | the older route writes a draft with the raw payload and without covered topics |
| `CalibrationStores.CalibrationStore.MarkProposalApproved` | src/investor_profile_calibration.py:1153-1175 | only a draft is marked, with its changed fields sorted by name and named once |
| `CalibrationStores.CalibrationStore.RejectProposal` | src/investor_profile_calibration.py:1331-1345 | only a draft is rejected |
| `CalibrationStores.CalibrationStore.ApproveProposal` | src/investor_profile_calibration.py:1254-1329 | validation, conflict and merge in the source's order are the specified step |
| `JournalInvariant.StepKeepsInv` | src/investor_profile_calibration.py:394-1345 | every operation keeps the journal invariant |
| `JournalInvariant.StartedSession` | src/investor_profile_calibration.py:394-436 | after a start the new session is the only active one and no pending turn belongs to it |
| `JournalInvariant.VerdictIsWellFormed` | src/investor_profile_calibration.py:920-982 | the draft a completion writes is well formed and its session had none |
| `JournalSteps.StartIsExact` | src/investor_profile_calibration.py:394-436 | row by row: an active session refuses a start or is superseded, its pending turns fail for good, and the new session asks the opening question |
| `JournalSteps.CloseIsExact` | src/investor_profile_calibration.py:438-452 | closing ends an active session and leaves any other as it is |
| `JournalSteps.BeginIsExact` | src/investor_profile_calibration.py:607-701 | in a valid journal, which requests are replayed, which are refused and how, and the turn and message a new one writes for the question asked |
| `JournalSteps.RetryIsExact` | src/investor_profile_calibration.py:775-815 | in a valid journal, when a turn runs again, with what provider and model, and each refusal |
| `JournalSteps.FailIsExact` | src/investor_profile_calibration.py:738-761 | only a pending turn fails, with a code on one line of 1 to 80 characters |
| `JournalSteps.ReconcileIsExact` | src/investor_profile_calibration.py:763-773 | exactly the pending turns become interrupted, and they are counted |
| `JournalSteps.AppendIsExact` | src/investor_profile_calibration.py:454-487 | a free message is the stripped text, and only an active session takes one |
| `JournalSteps.DecisionsAreExact` | src/investor_profile_calibration.py:1153-1345 | only a waiting draft is decided by hand, and the listed fields are those given, each once |
| `CompletionTheorems.CatalogueOpens` | src/investor_profile_calibration_policy.py:18-48 | covered topics open exactly the fields they own, in the order of the catalogue |
| `CompletionTheorems.CompletionNeedsRunningTurn` | src/investor_profile_calibration.py:838-853 | an unknown, completed, failed or interrupted turn, or one of a session that is not active, changes nothing, and the answer for each |
| `CompletionTheorems.CompletionIsExact` | src/investor_profile_calibration.py:838-1046 | from the result and the rows alone: which results are refused and with which code; an accepted one writes the provider's text, moves the session on, and adds a draft exactly when it offers a field of a covered topic, holding exactly those fields in catalogue order with the values they read as, over the profile's values, with the given rationales and every other key rejected |
| `JournalTheorems.Run` | src/investor_profile_calibration.py:394-1345 | every reachable journal satisfies the invariant |
| `JournalTheorems.RowsAreUnique` | src/investor_profile_calibration_schema.py:140-170 | in every run: one active session, one pending turn and one draft a session, one message per turn and role |
| `JournalTheorems.DeadGuards` | src/investor_profile_calibration.py:542-569 | the missing-question and lost-identity guards never fire in a reachable journal, under any interleaving |
| `JournalTheorems.DraftsStayApprovable` | src/investor_profile_calibration.py:1197-1296 | in a reachable journal only a draft is approved, and it is refused as malformed exactly when it came from the older route |
| `JournalTheorems.ApprovalIsThreeWayMerge` | src/investor_profile_calibration.py:1254-1329 | approval succeeds exactly when every patched field still has its base value, lists as sets of texts; then the profile is the merge, sound and stamped, and the changes are the difference in catalogue order; otherwise the profile stays and the draft names exactly the moved fields |
| `JournalTheorems.ReachableProfileIsSound` | src/investor_profile.py:110-194 | in every run the stored profile is legal and its mismatch is true of its scores |
| `JournalTheorems.SaveIsExact` | src/investor_profile.py:396-411 | a save succeeds exactly when its fields are known and readable; the given fields take what they read as, the others stay, mismatch and stamps are renewed |
| `JournalTheorems.CreateIsExact` | src/investor_profile_calibration.py:1060-1096 | the older route: each refusal, and the row with every field but the stamps, read over the defaults |
| `JournalTheorems.RunsOnlyAdd` | src/investor_profile_calibration.py:394-1345 | over whole runs nothing recorded is taken back: rows stay, finished statuses stay, coverage and attempts only grow |
| `JournalTheorems.AttemptsAreAuthorisedCalls` | src/investor_profile_calibration.py:571-701 | over any run the provider calls authorised for a turn equal its stored attempt count |
| `JournalTheorems.CompletionProgress` | src/investor_profile_calibration.py:860-1046 | coverage grows by the answered topic at most and stays ordered; the next question is on an uncovered topic; with all topics covered the session can only close |
| `JournalTheorems.BeginIsIdempotent` | src/investor_profile_calibration.py:607-701 | beginning the same turn again changes nothing and authorises no second call |
| `JournalTheorems.CompleteIsIdempotent` | src/investor_profile_calibration.py:838-860 | completing a completed turn again changes nothing, whatever the second result says |
| `JournalTheorems.RetryUndoesFailure` | src/investor_profile_calibration.py:775-815 | a retry after a failure restores the pending turn with one more attempt and moves nothing else |
| `JournalTheorems.RefusalsRollBack` | src/investor_profile_calibration.py:259-272 | a refused operation leaves the journal as it was, save the failed turn of a bad result and the noted conflict of a draft |
| `Utf8.DecodeEncode` | src/lifecycle_source_context.py:34-41 | decoding undoes encoding (RFC 3629 section 3) |
| `Utf8.EncodeDecode` | src/lifecycle_source_context.py:54-75 | only encoded text decodes |
| `Utf8.EncodeSlice` | src/lifecycle_source_context.py:142-149 | cutting text at characters is cutting its bytes at the prefix lengths |
| `Utf8.DecodedSliceIsText` | src/lifecycle_source_context.py:54-75 | a byte slice of encoded text that decodes at all is a run of the text's characters |
| `SourceText.NormalizeGivesNormalText` | src/lifecycle_public_sources.py:285-288 | the three substitutions and the strip always produce the normal form |
| `SourceText.NormalizeFixesNormalText` | src/lifecycle_public_sources.py:285-288 | the normal form is exactly what the normaliser leaves alone |
| `SourceText.NormalizeKeepsInk` | src/lifecycle_public_sources.py:285-288 | the visible characters stay in order; between two of them nothing stays nothing, white space becomes one space, and white space with a line break one line break |
| `SourceText.Units` | src/lifecycle_source_context.py:98-105 | the scan yields the specified units |
| `SourceText.UnitsTile` | src/lifecycle_source_context.py:98-105 | the units tile the text from front to end |
| `SourceText.UnitsAreInked` | src/lifecycle_source_context.py:98-105 | in normal text no unit is blank |
| `SourceText.UnitsEndAtCuts` | src/lifecycle_source_context.py:17-105 | from any point of the scan, the units of any text end exactly at its cuts |
| `SourceText.UnitsAreExact` | src/lifecycle_source_context.py:17-105 | the units of any text tile it and end exactly at gaps between sentences, behind full-width sentence ends and behind line breaks outside such gaps; in normal text none is blank |
| `PassageSelection.SelectPassages` | src/lifecycle_source_context.py:115-141 | the streaming loop selects exactly the first two units, the last two and those within two of a match, or everything when nothing matches, as maximal runs |
| `PassageSelection.SelectionIsDetermined` | src/lifecycle_source_context.py:120-124 | only one list of sorted, strictly separated ranges keeps what is to be kept |
| `SourceContexts.ByteRanges` | src/lifecycle_source_context.py:142-148 | the incremental offsets equal the byte lengths of the text prefixes |
| `SourceContexts.SelectSourceContext` | src/lifecycle_source_context.py:108-149 | integrity error, empty text, structured text whole, otherwise the selection |
| `SourceContexts.FromMaterial` | src/lifecycle_source_context.py:53-75 | a page that is not intact is an integrity error; a value is accepted exactly when well typed, sorted, separated and quotable |
| `SourceContexts.AcceptedExactly` | src/lifecycle_source_context.py:49-75 | the strict reader accepts exactly the values that some sorted, separated, non-blank runs of the page's characters are stored as |
| `SourceContexts.RoundTripExactly` | src/lifecycle_source_context.py:49-75 | a stored context is read back exactly when no passage is blank |
| `SourceContexts.ExtractedTextRoundTrips` | src/lifecycle_source_context.py:49-149 | every selection from extracted text survives being stored and read back |
| `SourceContexts.AcceptedQuotesPage` | src/lifecycle_source_context.py:54-90 | every accepted range is the bytes of a run of the page's characters, and its passage is that run |
| `SourceContexts.ContainsIsCoverage` | src/lifecycle_source_context.py:77-78 | a citation is contained exactly when every byte of it was supplied |
| `HtmlText.Indices` | src/lifecycle_public_sources.py:202-218 | the index of a tag is exactly its stack positions, ascending |
| `HtmlText.IndexFindsInnermost` | src/lifecycle_public_sources.py:225-235 | the last indexed position is what a backward search of the stack finds |
| `HtmlText.SourceTextParser.HandleEndTag` | src/lifecycle_public_sources.py:225-235 | the multi-pop keeps stack and index in step with the reference parser |
| `HtmlText.TopDecides` | src/lifecycle_public_sources.py:209-242 | the flag on top says whether some open element is hidden |
| `HtmlText.ExtractText` | src/lifecycle_public_sources.py:197-241 | the text is exactly what the events show: data where no open element hides it, and one line break for each start tag and each end tag of a visible block element, in order; what is open is told from the tags |
| `HtmlText.BlocksSeparateText` | src/lifecycle_public_sources.py:205-241 | two visible pieces keep their order, and a visible block boundary between them leaves a line break between them |
| `ResponseHeaders.DeclaredLengthIsTheOneNumber` | src/lifecycle_public_sources.py:562-590 | a repeated Content-Length is accepted exactly when all members are decimal and the same number (RFC 9110 section 8.6) |
| `ResponseHeaders.LengthMeans` | src/lifecycle_public_sources.py:572-585 | the declared length and each refusal of it, from the pieces of the header between its commas |
| `ResponseHeaders.HeadersMean` | src/lifecycle_public_sources.py:562-591 | why a body is refused before a byte is read, from the texts of the headers in any case and with any space around them, and that it is not refused otherwise |
| `GzipStream.Decompressor.Decompress` | src/lifecycle_public_sources.py:610-622 | with a cap of at least one it gives the next content of the member, takes all input unless the cap or the member's end stops it, and is at the end only when the whole member was taken and given |
| `GzipStream.ContentsSplit` | src/lifecycle_public_sources.py:613-622 | whole members in front of a body decode by themselves, so members can be decoded one after the other (section 2.2 of RFC 1952) |
| `GzipStream.ContentsMeans` | src/lifecycle_public_sources.py:613-622 | a body decodes to a content exactly when it is made of whole members that hold it in order |
| `SourceReader.ReadBody` | src/lifecycle_public_sources.py:562-634 | a body is returned exactly when the response carries one: an absent or "identity" encoding gives the delivered bytes themselves, "gzip" the content of the members they are made of, any other text is refused before a byte is read; within both limits, and however the network cuts the bytes and the decompressor buffers |
| `SourceReader.PublicSourceReader.Hop` | src/lifecycle_public_sources.py:461-560 | one request and one report row with its counters; what each kind of reply leads to, with a body exactly when the response carries one |
| `SourceReader.PublicSourceReader.NextPageLeads` | src/lifecycle_public_sources.py:508-520 | a redirect moves on exactly to a new page within the budget, and each refusal of one |
| `SourceReader.PublicSourceReader.Read` | src/lifecycle_public_sources.py:461-560 | it succeeds exactly when a page with a body is reached along a trail of distinct pages within the redirect and request budgets, and with that page; a failure is the one of the page where the trail stops; one report row a request |
| `PaidGovernor.FinancialDatasetsGovernor.Reserve` | data_sources/financial_datasets_governance.py:121-159 | the transaction with its checks in order is the specified step |
| `PaidGovernor.FinancialDatasetsGovernor.Defer` | data_sources/financial_datasets_governance.py:161-180 | the deadline update is the specified step |
| `PaidGovernor.ReservationLaw` | data_sources/financial_datasets_governance.py:121-159 | in every run a reservation is admitted exactly when the key is given, the clock is a date not before the key's last admission, the day and the last minute have room, and no recorded deferral reaches past it; and the refusal for each failing condition |
| `PaidGovernor.DayMeans` | data_sources/financial_datasets_governance.py:127 | the day of a clock reading is its number of whole days of 86 400 seconds |
| `PaidGovernor.DeadlineIsRecorded` | data_sources/financial_datasets_governance.py:161-180 | the stored deadline is past an instant exactly when a deferral recorded since the key's first admission reaches past it |
| `PaidGovernor.LimitsHold` | data_sources/financial_datasets_governance.py:121-159 | over any run every UTC day holds at most the daily limit and every minute window at most the rate, although old rows are deleted |
| `PaidGovernor.AttemptsAreAdmissions` | data_sources/financial_datasets_governance.py:131-153 | the stored attempts equal the admissions of the stored day |
| `PaidGovernor.DeferralHolds` | data_sources/financial_datasets_governance.py:161-180 | nothing is admitted before a deadline recorded for an existing account row, to the end of every run |
| `PaidGovernor.DeferralIsHonouredExactly` | data_sources/financial_datasets_governance.py:161-180 | nothing gets through before the deadline, for all continuations, policies and clocks, exactly when the key had an account row |
| `PaidGovernor.LostDeferral` | data_sources/financial_datasets_governance.py:174-175 | an instance of a deferral that does not stop the first request |
| `PaidGovernor.OtherKeyUntouched` | data_sources/financial_datasets_governance.py:121-180 | an operation leaves the rows of other keys alone |
| `PaidGovernor.RefusalChangesNothing` | data_sources/financial_datasets_governance.py:121-159 | a refusal changes neither table |
| `SecGovernor.SecRequestGovernor.ReserveRequestStart` | data_sources/sec_transport.py:159-217 | clock checks, wait, early-wake refusal, truncation, write and the rounded wait in order are the specified step |
| `SecGovernor.RoundsUp` | data_sources/sec_transport.py:138-146 | the stored instant is the start rounded up by less than a microsecond |
| `SecGovernor.StartsAreSpaced` | data_sources/sec_transport.py:184-212 | as long as no call empties the file, consecutive starts are 0.2 s less a microsecond apart under any clock |
| `SecGovernor.RateIsBounded` | data_sources/sec_transport.py:116-212 | an interval of length T holds at most T / spacing + 1 starts |
| `SecGovernor.WipesExactly` | data_sources/sec_transport.py:206-210 | a refusal empties the file exactly when the instant cannot be formatted |
| `SecGovernor.FileIsLastStart` | data_sources/sec_transport.py:173-212 | wiped or not, an instant in the file is the last start rounded up |
| `SecGovernor.CallLaw` | data_sources/sec_transport.py:159-217 | every call of every run, from the starts before it: when it is let through, the wait it reports rounded to the millisecond, and when it empties the file |
| `SecGovernor.TooEarlyExactly` | data_sources/sec_transport.py:184-212 | the next start can come too early exactly when the file is empty |
| `SecGovernor.ClockJumpLosesSpacing` | data_sources/sec_transport.py:206-210 | an instance of two starts at one instant |
| `PageLoop.FinancialDatasetsClient.RequestPage` | data_sources/financial_datasets_client.py:432-466 | one reservation, then one dispatch exactly if admitted; a 429 that names a time is reported to the governor; what each answer gives |
| `PageLoop.FinancialDatasetsClient.Request` | data_sources/financial_datasets_client.py:384-418 | terminates, at most `limit` dispatches, one reservation each at its clock reading and no URL twice; rows come back exactly when a chain of pages answers the query, and are the first `limit` of the pages' rows with distinct periods; each failure is of the page where the chain stops |
| `PageLoop.ValidItemMeans` | data_sources/financial_datasets_client.py:403-404 | a row counts exactly when it is of the ticker and period asked for and names its report period, a date, its fiscal period and its currency |
| `PageLoop.AnswerIsUnique` | data_sources/financial_datasets_client.py:399-418 | at most one chain of pages answers a query |
| `PageLoop.ChainIsBounded` | data_sources/financial_datasets_client.py:412-418 | a chain of pages is never longer than the rows asked for |
| `DiscoveryCache.ModelDiscoveryCache.RecordRun` | src/model_discovery_cache.py:115-180 | delete, guarded epoch check, upsert and inserts, with rollback, are the specified step |
| `DiscoveryCache.ModelDiscoveryCache.DeleteScope` | src/model_discovery_cache.py:182-212 | the delete of one mode or all, with the bumped epoch and the count, is the specified step |
| `DiscoveryCache.ModelDiscoveryCache.Get` | src/model_discovery_cache.py:214-242 | the read is the specified one |
| `DiscoveryCache.RecordIsExact` | src/model_discovery_cache.py:115-180 | by what reads show: a record is accepted exactly with a known status, the credential's epoch if it carries one, and no model twice; then its scope shows it and every other scope what it did |
| `DiscoveryCache.DeleteIsExact` | src/model_discovery_cache.py:182-212 | by what reads show: the named mode, or every mode, of the credential is as if never discovered, every other scope shows what it did, the rows gone are counted, and only this credential's epoch goes up |
| `DiscoveryCache.EpochCountsDeletes` | src/model_discovery_cache.py:103-113 | the epoch counts the deletes of the credential |
| `DiscoveryCache.StaleExactlyAfterDelete` | src/model_discovery_cache.py:135-155 | a record with a captured epoch is refused exactly when a delete came between capture and record |
| `DiscoveryCache.NoResurrection` | src/model_discovery_cache.py:103-212 | a cached run recorded with its captured epoch is younger than every delete covering its scope |
| `DiscoveryCache.GetIsLastListing` | src/model_discovery_cache.py:214-242 | a read returns exactly the last committed, uncovered listing under that fingerprint |
| `DiscoveryCache.LastCommitIsUncovered` | src/model_discovery_cache.py:115-212 | the last commit is one, and nothing later replaced or covered it |
| `DiscoveryCache.ModelsHaveRuns` | src/model_discovery_cache.py:115-212 | model rows exist only for scopes with a run row |
| `DiscoveryCache.RefusalChangesNothing` | src/model_discovery_cache.py:140-158 | a stale or invalid write leaves all tables unchanged |
| `PriceTable.Canonicalize` | src/market_data_admin.py:143-178 | the loop over the aliases is the specified fold, and counts the aliases that had rows at their turn |
| `PriceTable.FoldMapsKeys` | src/market_data_admin.py:143-178 | the keys after the fold are exactly the images of the keys before |
| `PriceTable.FoldInventsNothing` | src/market_data_admin.py:169-176 | every row after the fold is the value of a row that maps to its key |
| `PriceTable.FoldKeepsCanonicalRows` | src/market_data_admin.py:169-176 | a row whose ticker is no alias is kept as it is |
| `PriceTable.FoldLeavesNoAlias` | src/market_data_admin.py:143-178 | no alias ticker is left, whatever was stored, exactly when no alias brings back an earlier name |
| `PriceBackfill.PriceStore.Prepare` | src/market_data_direct.py:650-667 | the stored rows are folded, then the scope resolved and deduplicated |
| `PriceBackfill.ScopeIsResolved` | src/market_data_direct.py:660-667 | the scope holds every resolved ticker exactly once |
| `PriceBackfill.PriceStore.InsertRows` | src/market_data_direct.py:496-504 | insert-or-ignore of a batch with the count of rows added, or the raise that keeps the rows before it |
| `PriceBackfill.InsertTakesFirst` | src/market_data_direct.py:496-504 | of two new rows with one key the first wins |
| `PriceBackfill.PriceStore.UpsertMeta` | src/market_data_direct.py:383-405 | the upsert is the specified one |
| `PriceBackfill.PriceStore.CommitTicker` | src/market_data_direct.py:709-776 | one pass of the commit loop, with its three error paths, is the specified step |
| `PriceBackfill.PriceStore.Backfill` | src/market_data_direct.py:614-813 | an empty scope is refused; otherwise fold, scope and commit loop are the specified ones, the run succeeds exactly without errors, fails exactly when every ticker is one, and the invalid-counts error cannot occur |
| `PriceBackfill.CommitKeepsRows` | src/market_data_direct.py:614-813 | a run never alters an existing row |
| `PriceBackfill.CommitAdds` | src/market_data_direct.py:614-813 | a run adds exactly the keys its answers supply |
| `PriceBackfill.RowsAddedIsGrowth` | src/market_data_direct.py:735-736 | the reported count is the growth of the table exactly when no batch raises after its first row |
| `PriceBackfill.CommitAccounts` | src/market_data_direct.py:709-797 | scanned is the number of distinct canonical tickers, and succeeded plus errors is scanned |
| `PriceBackfill.ErrorsExactly` | src/market_data_direct.py:709-776 | a ticker is an error exactly when its fetch failed, its batch raised, or one of its missing days has no row even in the final table |
| `PriceBackfill.MetaTellsErrors` | src/market_data_direct.py:383-405 | a ticker's entry carries its error, and its last success moves only without one |
| `PriceBackfill.FrontierAdvances` | src/market_data_direct.py:383-405 | no frontier moves back, it reaches every row of an answer stored whole, and other entries stay |
| `PriceBackfill.RepeatAddsNothing` | src/market_data_direct.py:614-813 | a repeat with the same answers adds nothing, for all tables and answers, exactly when the fold leaves every scope ticker where it is |
| `PriceBackfill.ResolvedScopeStays` | src/market_data_direct.py:660-667 | that is so when no canonical spelling is itself an alias |
| `BackfillTheorems.TickerIsExact` | src/market_data_direct.py:383-776 | every ticker fares by its own answer, whatever the others do: its rows are those before and the first listed storable ones, its error, its missing days, its frontier, its success and its row count are as the answer and the final table say |
| `BackfillTheorems.TotalsAreExact` | src/market_data_direct.py:709-797 | scanned, gap days and rows added are the totals over the scope |
| `IdentityLinks.CurrentIdentity` | src/active_universe.py:380-388 | the walk ends at a symbol without a link, or fails exactly on a walk that closes |
| `IdentityLinks.CurrentIsIdempotent` | src/active_universe.py:380-388 | resolution leaves the links, is idempotent, and agrees with following one link first |
| `IdentityLinks.CollectLinks` | src/active_universe.py:194-204 | rows are collected exactly when each is a proper link and no symbol has two successors |
| `IdentityLinks.ColumnMeans` | src/active_universe.py:194-198 | a column is read without the space around it and in capitals |
| `IdentityLinks.ReadLinks` | src/active_universe.py:180-213 | rows are accepted exactly when proper, functional and free of cycles, and the map is what they say |
| `IdentityLinks.BuildUniverse` | src/active_universe.py:475-486 | the merge holds exactly the resolved members that are not hidden, each with exactly its sources |
| `IdentityLinks.BuildSnapshot` | src/active_universe.py:391-495 | the snapshot is unavailable exactly when the links are not acceptable |
| `IdentityLinks.SnapshotIsDetermined` | src/active_universe.py:475-486 | links, memberships and hidden marks determine one universe |
| `IdentityLinks.SnapshotIsFixedPoint` | src/active_universe.py:475-486 | building a snapshot from its own members gives it back |
| `IdentityLinks.HiddenRenamedTickerHidesNothing` | src/active_universe.py:480-481 | no member of a snapshot has a link, so a hidden mark on a linked ticker has no effect |
| `SqlTokens.Scan` | src/investor_profile_calibration_schema.py:205-241 | the index-driven scanner terminates; its tokens cut the text into whole quotations, longest words and other visible characters, with nothing but white space between them |
| `SqlTokens.TokensAreCut` | src/investor_profile_calibration_schema.py:205-241 | a quotation ends where its marks stop pairing up, a word is a longest run of letters, digits, "_" and "$", in small letters |
| `SqlTokens.RenderRoundTrips` | src/investor_profile_calibration_schema.py:205-241 | tokens joined by spaces and scanned again are the same tokens, with doubled, bracket and unterminated quotes |
| `SqlTokens.TokensKeepEssence` | src/investor_profile_calibration_schema.py:205-241 | only white space and letter case outside quotation are lost |
| `ProviderEnvironments.ProviderEnvironment.EnsureEnvLoadedExcluding` | src/env_keys.py:80-99 | the file is loaded once, a line at a time, never over a present name |
| `ProviderEnvironments.ProviderEnvironment.DiscardLoadedKey` | src/env_keys.py:102-108 | a name goes only when the loader supplied it |
| `ProviderEnvironments.ProviderEnvironment.ReloadVarFromFile` | src/env_keys.py:117-134 | the variable takes the file's value or goes |
| `ProviderEnvironments.ProviderEnvironment.ApplyEnv` | src/data_provider_config.py:424-523 | seed, load, inject, then withdraw or reload by the mode at entry, are the specified step |
| `ProviderEnvironments.ProviderEnvironment.UnapplyEnv` | src/data_provider_config.py:526-537 | the app's hold is dropped, by mode |
| `EnvBridge.RunKeeps` | src/data_provider_config.py:424-537 | after any history, in either mode, a usable operator value is untouched and on nobody's record |
| `EnvBridge.ApplyIsExact` | src/data_provider_config.py:424-523 | what one application in either mode makes of every variable, from its value, its records, the file's line and the store |
| `EnvBridge.UnapplyIsExact` | src/data_provider_config.py:526-537 | what dropping the app's hold leaves of the variable by mode, and that no other moves |
| `EnvBridge.ModeMeans` | src/data_provider_config.py:171-195 | which texts of the flag and the setting put fallback mode in force |
| `EnvBridge.StrictApplySettles` | src/data_provider_config.py:424-523 | after a strict application a variable holds the operator's usable value, else the stored value, else nothing but what the operator left blank |
| `EnvBridge.ModeIsDecidedByInputs` | src/data_provider_config.py:171-195 | after any history the mode is decided by its inputs: the operator's flag, else the first load's line, else the last setting |
| `EnvBridge.UnaskedFileStaysShutOut` | src/data_provider_config.py:424-523 | when nobody asks and the first load's line does not select fallback mode, no managed name shows a file value from the first application on, whatever came before and follows |
| `EnvBridge.FileIsShownExactly` | src/data_provider_config.py:424-557 | an unasked history with an application can come to show the file for a field exactly when the first load's line selects fallback mode, the field is not permanent and the operator does not usably hold it |
| `EnvBridge.BeforeAnyApplication` | src/env_keys.py:75-99 | before any application a variable is the operator's, or the first load's when the operator had not set it and it is not permanent |
| `EnvBridge.PlainLoadAdmitsFile` | src/env_keys.py:75-99 | an instance: one plain load shows a file value and selects fallback mode |
| `EnvBridge.SealedShowsNoFileValue` | src/data_provider_config.py:545-557 | such a state never reports the file as effective source |
| `EnvBridge.ApplyIsIdempotent` | src/data_provider_config.py:424-523 | applying again shows the same environment and app record; the whole state is the same exactly without a stale field |
| `EnvBridge.StrictModeLasts` | src/data_provider_config.py:180-195 | strict mode is lost by an application or by a plain load exactly when it is the first load and brings in a true mode flag |
| `EnvBridge.FileCanAdmitItself` | src/data_provider_config.py:424-448 | such a file becomes effective source at the second application |
| `EnvBridge.SaveThenClearUndoes` | src/data_provider_config.py:348-371 | saving a new field and clearing it restores the process exactly when the operator had not set it blank |

## Left out

- `CalibrationStores.CalibrationStore.MarkProposalApproved`: the changed names are known profile fields.
- Row time stamps of sessions, messages, turns and proposals, diagnostics text, and the listing order of rows.
- Message ids and other uuids are a counter that is never reused; JSON columns are the values they hold.
- The migration of the calibration schema from version 1, the schema classifier, and `_normalize_sql`.
- SQLite mechanics: WAL, locks, busy timeouts, a crash inside a transaction; a write to the telemetry table never fails.
- Floating point: reals stand for floats, so NaN, infinities and the `OverflowError` of converting an infinity are not modelled.
- `int(str)`, `float(str)` and `str(x)` of other values are parameters, since their code is the Python library's.
- Hashing: digests are parameters or recorded text.
- The regular expressions that decide relevance: a unit matches by an arbitrary predicate.
- HTTP, TLS, DNS, timers, cooperative cancellation and sockets: responses, chunks and clock readings are arbitrary inputs.
- `SourceReader.ReadBody`: the gzip codec is any function that keeps what it saw when more input comes; which of several limits an oversized body is refused for depends on how it arrives, and only the refusal is stated; socket errors other than a break inside the framing are not modelled.
- `SourceReader.PublicSourceReader.Hop`: text extraction from a body, the report's status, framing and encoding columns, and the host policies before a request are not part of it.
- HTML tokenizing and character references; an attribute list is a map, so repeated attributes are not distinguished.
- XML and JSON page decoding; the digest and citation of a captured page.
- `DiscoveryCache.ModelDiscoveryCache.Get`: returns a set of models, because the order by model id is not modelled.
- `SecGovernor.SecRequestGovernor.ReserveRequestStart`: polling reads between the two clock readings are not modelled, because they change neither outcome nor file, and the file holds an instant rather than its text.
- The SEC transport's request budget and attempt loop, which would add counters without interleaving.
- Lower-casing is that of ASCII text, so `SqlTokens` speaks of ASCII SQL and header values.
- `PriceTable.Canonicalize`: the prices path only; folding news rows with their identity hashes is not modelled.
- `PriceBackfill.PriceStore.Backfill`: starts from a database file that exists, so its alias table is seeded; provider answers, upper-casing and the trading-day window are inputs, and a database that faults in the commit loop is not modelled.
- Prices carry instants as whole seconds, ordered as their fixed-format UTC texts are.
- `IdentityLinks.BuildSnapshot`: memberships are inputs, so reading them from the two databases and the other reasons for unavailability are not modelled; tickers and sources come as sets rather than sorted tuples.
- Provider field validation, masking, connection probes, and the settings routes; a provider with legacy runtime aliases, which the catalogue does not have.
- `PageLoop.FinancialDatasetsClient.Request`: the cache around it, the endpoint table, and the URL syntax check are not modelled; the ticker is given upper-cased.
- Card synthesis, translation, evidence gathering, schedulers and command lines: plumbing over services outside the repository.
