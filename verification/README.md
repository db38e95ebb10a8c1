# A3S Code, verified models

Dafny models of the parts of A3S Code where a wrong step is hard to see: the
calendar and timestamps behind account expiry, the concurrent protocols of the
ACP agent and of the admission scheduler, the hash-chained event log, the encoders
and audits that certify a coding campaign, and the text pipelines that must
read back what they wrote. Each module says what the code does, branch by
branch, and proves what it is for, on all inputs or over all runs.

| module | models |
|---|---|
| `Text`, `Utf8` | string order, decimal numerals, trimming, UTF-8 |
| `Calendar`, `Timestamp`, `TimestampReader` | day number to date, UTC timestamps, expiry by string comparison |
| `Base64Url` | base64url decoding |
| `TurnQueue`, `InflightLoads`, `CancelGenerations` | the bounded turn queue, load markers and cancel generations of the ACP agent |
| `EffectEncoding`, `EffectReader`, `CodingFacts`, `FactAudit`, `CampaignAudit`, `CampaignGuarantees`, `CampaignEvidence`, `CampaignExample` | the effect digest and the four-phase audit of a coding campaign |
| `CommandWords`, `ApprovalLearning`, `LearnedRules`, `ApprovalStore` | learned command rules and their store |
| `ConnectorNotes`, `NoteRules` | connector notes, printed and read back |
| `LayerC` | the certification runner |
| `Diagnostics` | UTF-16 positions and diagnostic ranges |
| `ProviderNames`, `CcSwitch`, `ProviderRules` | imported providers and their names |
| `Changelog`, `ChangelogRules` | promotion of Unreleased notes |
| `EventLog`, `EventReplay`, `EventAppenders`, `EventExamples` | the core event log, its admission, retention and replay, and concurrent appenders |
| `SchedulerBooks`, `TaskScheduler`, `SchedulerRun` | the admission scheduler and every run of it |

`dafny verify dfyconfig.toml` checks the project.

## Conventions

- Objects updated in place are classes whose `Valid()` is kept by every method;
  a ghost history in the class makes that a statement about every run.
  Protocols between several parties are state machines over their steps, or
  classes whose methods are the steps.
- SHA-256 is a function parameter. Where a result needs it, injectivity is a
  stated hypothesis. JSON values, exit codes, summaries, clocks, database rows
  and environment variables are inputs.
- Integers are unbounded; widths that matter (`i32` years, `u64` generations
  and cursors, `u32` file modes, UTF-16 units) are written out.
- Rust byte offsets into text are character offsets here; byte lengths are
  computed where the code compares them.

## Where the code and its comments differ

The models follow the code.

- Expiry (`acp/src/grok_account.rs:209-216`): comparing strings is comparing
  instants only for whole seconds and years of four digits
  (`TimestampReader.ExpiredByReading`). `Timestamp.FractionExpiry` and
  `Timestamp.FormatOrder` give the exact conditions.
- Turn queue (`acp/src/agent.rs:107-109`): a prompt can be rejected before 32
  are queued, while another rejected caller has not undone its add
  (`TurnQueue.RejectionExact`).
- Session loads (`acp/src/agent.rs:132-134`): `session/info` is to wait until the
  loaded session is announced. The announcement is lost when nobody waits yet,
  because a watch channel without a receiver stores nothing, and a later waiter
  stays blocked (`InflightLoads.BlockedExactly`).
- Cancel (`acp/src/agent.rs:518-519`): a late cancel can mark a later turn when
  the session was deleted and reopened in between (`CancelGenerations.LateCancelExact`).
- Connector notes (`acp/src/connector_notes.rs:89-91`): all line endings behind
  the closing fence are skipped, not one (`ConnectorNotes.BodyBehindCloser`).
- Event log (`core/src/core_event_log.rs:400-401`): pages behind the first one
  are refused on intact streams, and `has_more` is wrong when exactly one entry
  more than the limit is left (`EventReplay.PageDeliveredExactly`,
  `EventReplay.PageContents`). A retained entry of an older revision or
  generation is refused as stale rather than replayed
  (`EventReplay.ReplayExactly`). A refused append to an unknown operation leaves
  an empty stream behind.
- Event log (`core/src/core_event_log.rs:292-294`): the anchor is read under an
  earlier lock than the append. The chain still cannot fork, because admission
  checks the anchor again, but of two concurrent appenders in cursor order the
  later one is refused (`EventAppenders.ConflictExactly`).
- Task scheduler (`core/src/task_scheduler.rs:904-910`): a release can overtake
  its own admission, which then waits in the queue until it could start
  (`SchedulerRun.LingersIffOvertaken`).

## Model

| member | source | states |
|---|---|---|
| `Calendar.CivilRoundTrip` | acp/src/grok_account.rs:236-248 | for every day number, negative ones included, the closed-form conversion yields a valid Gregorian date whose day number, counted year by year and month by month, is the one given |
| `Calendar.DaysRoundTrip` | acp/src/grok_account.rs:236-248 | the other direction: every valid date comes back from its day number, so the conversion is a bijection |
| `Calendar.CivilSuccessor` | acp/src/grok_account.rs:236-248 | consecutive day numbers are consecutive calendar days, across month ends, leap days and centuries |
| `Calendar.CivilOrder` | acp/src/grok_account.rs:236-248 | day order is date order, both ways |
| `Calendar.CivilOfEpoch` | acp/src/grok_account.rs:236-248 | day 0 is 1970-01-01 |
| `Calendar.YearOfEraBrackets` | acp/src/grok_account.rs:240-242 | the year-of-era quotient picks the March-based year containing the day, for all 146097 days of an era |
| `Calendar.MonthFromDayOfYear` | acp/src/grok_account.rs:243-247 | the 153/5 table gives a valid month and day whose day number is the given day of the March year |
| `Calendar.CivilFromDaysExact` | acp/src/grok_account.rs:236-248 | with the year cast to `i32` the result denotes the day asked for if and only if the day lies in the years an `i32` can name |
| `Timestamp.FormatOrder` | acp/src/grok_account.rs:219-233 | for all instants an `i32` year can print, string order is time order exactly when the years agree on the digits both have; no two instants print alike |
| `Timestamp.FourDigitFormatOrder` | acp/src/grok_account.rs:219-233 | through the year 9999 every timestamp has 20 characters and string order is the order of the seconds (section 5.1 of RFC 3339) |
| `Timestamp.ExpiredIsEarlier` | acp/src/grok_account.rs:209-216 | a timestamp the printer itself produced is expired exactly when it is earlier than now |
| `Timestamp.FifthDigitBreaksOrder` | acp/src/grok_account.rs:209-233 | a concrete failure: a token that expires in the year 10000 counts as expired in 9999 |
| `Timestamp.FractionExpiry` | acp/src/grok_account.rs:209-216 | with fractional seconds the comparison answers `not later than the current second`; it differs from `earlier than now` exactly in the second of expiry |
| `TimestampReader.PrintedReads` | acp/src/grok_account.rs:219-233 | through the year 9999 the printed text has the digits and separators of section 5.6 of RFC 3339 at their offsets, and read as a valid date and time of day it denotes the instant it was printed for |
| `TimestampReader.ReadingOrder` | acp/src/grok_account.rs:209-216 | any two texts that read as instants are ordered as their instants, and read alike only if equal |
| `TimestampReader.ExpiredByReading` | acp/src/grok_account.rs:209-216 | any stored text of that form, whoever wrote it, is expired exactly when the instant it denotes is earlier than now |
| `Base64Url.DecodeBase64Url` | acp/src/cursor_account.rs:435-472 | fails exactly on a byte that is neither skipped nor in the alphabet; otherwise yields the whole bytes of the concatenated 6-bit values, three quarters of the kept characters (section 5 of RFC 4648) |
| `Base64Url.DecodeValues` | acp/src/cursor_account.rs:453-471 | the group loop with its two early exits packs the 6-bit values bit for bit |
| `Base64Url.Filter` | acp/src/cursor_account.rs:446-452 | the filtering loop keeps the values of the visible characters or fails |
| `Base64Url.KeptIffDecodable` | acp/src/cursor_account.rs:436-452 | the kept values exist exactly for decodable input and are the values of its visible characters in order |
| `Base64Url.PacksIsUnique` | acp/src/cursor_account.rs:453-471 | the bit-level specification determines the output |
| `Base64Url.DecodingInvertsEncoding` | acp/src/cursor_account.rs:435-472 | whatever padding and white space is put into the encoding of any bytes, decoding it can only return those bytes |
| `TurnQueue.QueueSafety` | acp/src/agent.rs:73-130 | in every state of every interleaving the atomic counter is slot holders plus callers between add and undo, at most 32 slots are held and at most one turn runs |
| `TurnQueue.NoUnderflow` | acp/src/agent.rs:83-129 | every undo and every slot given back finds the counter above zero |
| `TurnQueue.NoLeak` | acp/src/agent.rs:76-129 | when nobody but the running turn is left, the counter is zero |
| `TurnQueue.GrantedInOrder` | acp/src/agent.rs:121-129 | turns are granted in the order callers reached the lock, skipping exactly those that gave up |
| `TurnQueue.RejectionExact` | acp/src/agent.rs:107-119 | a prompt is rejected exactly when slot holders plus callers that have not undone their add are 32 or more; with no such caller, exactly when the queue is full |
| `TurnQueue.RejectedBelowTheLimit` | acp/src/agent.rs:107-119 | a concrete run in which a prompt is rejected with 31 slots held |
| `InflightLoads.InflightSessionLoads.Begin` | acp/src/agent.rs:146-160 | the first load of a session opens its marker with a fresh channel; a second one gets an inert guard and changes nothing else |
| `InflightLoads.InflightSessionLoads.Subscribe` | acp/src/agent.rs:162-169 | the start of a wait: without a marker there is nothing to wait for, otherwise a new receiver is on its channel |
| `InflightLoads.InflightSessionLoads.Return` | acp/src/agent.rs:170-184 | a wait returns once its load is announced, its marker is gone or its time is up, and its receiver goes with it |
| `InflightLoads.InflightSessionLoads.Ready` | acp/src/agent.rs:186-212 | an owning guard announces its load; the announcement is stored exactly when some receiver is on the channel, an inert guard announces nothing |
| `InflightLoads.InflightSessionLoads.DropGuard` | acp/src/agent.rs:193-221 | the marker goes with its owning guard and with no other |
| `InflightLoads.WaitersFollowLoads` | acp/src/agent.rs:132-221 | in every reachable state a waiter is blocked only while a live guard owns the marker it waits for, and no marker outlives the guards |
| `InflightLoads.BlockedExactly` | acp/src/agent.rs:154-191 | over every run: a waiter of a load in progress is blocked exactly when every announcement of that load came before the waiter subscribed and found no receiver |
| `InflightLoads.LostAnnouncement` | acp/src/agent.rs:154-191 | a concrete run: a load announces with nobody waiting, and a waiter that comes afterwards is blocked |
| `CancelGenerations.SessionGenerations.AdmitTurn` | acp/src/agent.rs:1274-1279 | admission bumps the session's generation, saturating at the 64-bit bound |
| `CancelGenerations.SessionGenerations.CancelRead` | acp/src/agent.rs:1403-1411 | the first half of a cancel reads the generation in force |
| `CancelGenerations.SessionGenerations.CancelWrite` | acp/src/agent.rs:1412-1415 | the second half records what was read, at any later time |
| `CancelGenerations.SessionGenerations.TurnWasCancelled` | acp/src/agent/turn.rs:512-520 | a turn counts as cancelled exactly when the recorded generation is its own |
| `CancelGenerations.SessionGenerations.DeleteTurnGeneration` | acp/src/agent/extensions.rs:313 | deleting a session forgets its generation and nothing else |
| `CancelGenerations.SessionGenerations.DeleteCancelledGeneration` | acp/src/agent/extensions.rs:314 | deleting a session forgets its recorded cancel and nothing else |
| `CancelGenerations.TurnsIncrease` | acp/src/agent.rs:1274-1279 | two turns of a session not deleted in between have increasing generations, strictly so exactly below saturation |
| `CancelGenerations.LateCancelExact` | acp/src/agent.rs:518-520 | a cancel names a turn admitted after its read exactly when both counts have saturated, or the session was deleted in between and has had as many turns since, that one included, as it had had in its earlier life at the read |
| `CancelGenerations.CancelMarksOnlyTheTurnInFlight` | acp/src/agent.rs:518-522 | on every interleaving without deletion, below saturation, a turn found cancelled was in flight when some cancel read the counter |
| `CancelGenerations.LateCancelMarksReopenedSession` | acp/src/agent/extensions.rs:313-314 | a concrete run: deleting and reopening the session between the halves of a cancel marks a turn admitted after its read |
| `EffectEncoding.EffectBytes` | scripts/verify_tui_coding_evidence.py:51-75 | the encoder fails exactly on an unacceptable file identity and otherwise yields header and entries in path order |
| `EffectEncoding.AppendItem` | scripts/verify_tui_coding_evidence.py:60-75 | one turn of the loop appends one entry or fails on its checks |
| `EffectEncoding.FieldPrefix` | scripts/verify_tui_coding_evidence.py:56-58 | a length-prefixed field can be told from what follows it in one way only, for any text |
| `EffectEncoding.ItemsInjective` | scripts/verify_tui_coding_evidence.py:60-75 | two entry lists with equal bytes are equal, for any number of entries |
| `EffectEncoding.EncodingDeterminesState` | scripts/verify_tui_coding_evidence.py:51-76 | two states have equal bytes if and only if they hold the same entries, whatever order they were inserted in |
| `EffectEncoding.EqualDigestsMeanEqualStates` | scripts/verify_tui_coding_evidence.py:76 | under an injective hash, equal digests mean equal states |
| `EffectReader.StateReads` | scripts/verify_tui_coding_evidence.py:51-76 | a reader of lengths, UTF-8 fields, big-endian modes and entries gets back exactly the entries from the hashed bytes, in order |
| `EffectReader.ItemReads` | scripts/verify_tui_coding_evidence.py:60-75 | it cuts one entry off the front and leaves the rest |
| `EffectEncoding.SortSorts` | scripts/verify_tui_coding_evidence.py:60 | sorting by path yields a strictly sorted list of the same entries |
| `FactAudit.AddCalls` | scripts/verify_tui_coding_evidence.py:157-159 | a model turn is accepted exactly when none of its call ids was used before in the phase |
| `FactAudit.AdmitPreparation` | scripts/verify_tui_coding_evidence.py:160-168 | a preparation is accepted exactly when it is in order with respect to all rows before it |
| `FactAudit.AdmitResult` | scripts/verify_tui_coding_evidence.py:169-185 | a result is accepted exactly when it is in order with respect to all rows before it; it is listed as a check exactly when it ran the exact checker to an exit code |
| `FactAudit.ApplyChanges` | scripts/verify_tui_coding_evidence.py:177-180 | the changes are accepted exactly when their paths are allowed in the phase, and are folded into the state |
| `FactAudit.ScanPhase` | scripts/verify_tui_coding_evidence.py:152-190 | the loop over a phase accepts exactly the row sequences in order and leaves the exact keys, checks, completions and folded state |
| `CampaignAudit.CrossCheck` | scripts/verify_tui_coding_evidence.py:118-125 | succeeds exactly when every audited original fact is public, unchanged, under its number |
| `CampaignAudit.FindLastCheck` | scripts/verify_tui_coding_evidence.py:196-214 | finds the last checker run that failed, or passed, if there is one |
| `CampaignAudit.RecomputeDigest` | scripts/verify_tui_coding_evidence.py:217 | recomputes the digest of the folded state, failing exactly on an unacceptable identity |
| `CampaignAudit.ClosePhase` | scripts/verify_tui_coding_evidence.py:188-222 | the checks behind a phase succeed exactly when the phase is closed in order |
| `CampaignAudit.FoldMeansLastChange` | scripts/verify_tui_coding_evidence.py:177-180 | the folded state holds, for each path, what its last change left, and nothing else |
| `CampaignAudit.VerifyArtifact` | scripts/verify_tui_coding_evidence.py:105-231 | the audit accepts exactly the campaigns in order, and reports the number of results and the digests of the verified completions; what such a campaign shows is written out in the `CampaignEvidence` rows |
| `CampaignExample.AuditedExists` | scripts/verify_tui_coding_evidence.py:105-231 | there is a campaign in order: four phases of one checker run each, the second unverified |
| `CampaignGuarantees.PhasesPartitionFacts` | scripts/verify_tui_coding_evidence.py:142-145 | an accepted campaign's facts are the concatenation of the facts of its four phases, in order |
| `CampaignGuarantees.PreparationAnswersOneCall` | scripts/verify_tui_coding_evidence.py:160-168 | a preparation answers exactly one model call of its phase, an earlier one with its tool and arguments |
| `CampaignGuarantees.ResultAnswersOnePreparation` | scripts/verify_tui_coding_evidence.py:169-173 | a result answers exactly one preparation of its phase, an earlier one bound by its digest |
| `CampaignGuarantees.PreparationHasOneResult` | scripts/verify_tui_coding_evidence.py:188 | in a settled phase every preparation has exactly one result, a later one |
| `CampaignGuarantees.CompletionsPartitionReceipts` | scripts/verify_tui_coding_evidence.py:190-207 | without key collisions the three completions name every result of the campaign exactly once; the unfinished second phase is answered for by the third |
| `CampaignGuarantees.ReceiptsAreResults` | scripts/verify_tui_coding_evidence.py:189 | the reported receipt count is the number of result facts |
| `CampaignGuarantees.VerifiedCompletionNamesTheWorkspace` | scripts/verify_tui_coding_evidence.py:212-223 | the digest of a verified completion belongs to exactly one workspace: for each path what its last change since the previous completion left there |
| `CampaignEvidence.VerifiedPhase` | scripts/verify_tui_coding_evidence.py:208-223 | in each verified phase of an accepted campaign the last passing run of the exact checker, called by the model and prepared before it ran, reports the fixed subject and the very digest the completion claims, precedes a final reply that quotes it, is covered by the only completion, and its original shows the pass mark |
| `CampaignEvidence.UnverifiedPhase` | scripts/verify_tui_coding_evidence.py:196-203 | the second phase has no completion and no passed report; the last failing checker run precedes a final reply whose original quotes the failure, and its own original shows the fail mark |
| `CampaignEvidence.DiagnosisPhase` | scripts/verify_tui_coding_evidence.py:204-213 | the first phase changes no file and its one completion claims no digest |
| `CampaignEvidence.ChangesWhereAsked` | scripts/verify_tui_coding_evidence.py:169-180 | every result is settled with complete effects, and files change only where the requests asked: nothing at first, `fee.py` not before the third phase, nothing but the two sources and the checker's log |
| `CampaignEvidence.ExchangesInOrder` | scripts/verify_tui_coding_evidence.py:112-144 | the four exchanges and fact ranges follow each other without overlap, with different runs and prompts in one session |
| `CampaignEvidence.ExchangeAnswered` | scripts/verify_tui_coding_evidence.py:130-141 | each response belongs to the request of its prompt, with nothing in flight before; the second alone is refused by the completion gate |
| `CampaignEvidence.PreparationNamesItsRun` | scripts/verify_tui_coding_evidence.py:160-168 | every preparation is of the run and session of its phase, under the known schema and recovery rules and digests in printed form |
| `CampaignEvidence.PromptIsTheOnlyInput` | scripts/verify_tui_coding_evidence.py:146-151 | the only user message of a phase is its prompt; the third may carry the work still owed |
| `CampaignEvidence.CheckerRanAsAsked` | scripts/verify_tui_coding_evidence.py:181-185 | a checker run was executed with the very arguments the model asked for |
| `CampaignEvidence.NothingIsWithheld` | scripts/verify_tui_coding_evidence.py:107-125 | every original model turn, preparation, result and completion is public under its number with the same contents |
| `CommandWords.SplitWords` | acp/src/approval_learning.rs:132-164 | the quote-aware splitting loop computes the word list, or nothing when a quote stays open |
| `CommandWords.SplitInvertsEveryLayout` | acp/src/approval_learning.rs:132-164 | however a list of words is quoted and spaced, splitting returns the words; an open quote makes it fail |
| `CommandWords.EveryCommandIsSpelled` | acp/src/approval_learning.rs:132-164 | every command is spelled by some layout, so the previous row covers all commands |
| `ApprovalLearning.SplitJoin` | acp/src/approval_learning.rs:121-164 | splitting undoes joining plain names with single spaces |
| `ApprovalLearning.RuleWordsStable` | acp/src/approval_learning.rs:181-235 | the words of a rule are one to three plain names that form the same rule again |
| `ApprovalLearning.RuleIsFixpoint` | acp/src/approval_learning.rs:181-235 | a learned rule yields itself, exactly as far as the shell classifier calls it one simple command |
| `ApprovalLearning.RuleIsPrefixOfCommand` | acp/src/approval_learning.rs:181-235 | a command with a rule has no control syntax and its words begin with the words of the rule |
| `LearnedRules.RuleExactly` | acp/src/approval_learning.rs:181-235 | a command has a rule exactly when it is quiet, one simple command, and its words are a listed program, the words its group asks for and no argument that begins with one of its forbidden options; the rule is then its first one, two or three words, by group |
| `LearnedRules.HarmlessExactly` | acp/src/approval_learning.rs:102-119 | the forbidden options, written out program by program |
| `ApprovalStore.Store.RecordIn` | acp/src/approval_learning.rs:382-412 | over every run: nothing new, refused, or learned, by an exact condition; a learned rule moves its workspace's window by one and leaves all others alone |
| `ApprovalStore.Store.Push` | acp/src/approval_learning.rs:401-403 | push and drain keep the list equal to the last 64 accepted additions, in order and without duplicates |
| `ApprovalStore.Store.IsPreviouslyApproved` | acp/src/approval_learning.rs:358-370 | a command skips the question exactly when its rule is stored, and then some recorded command of that workspace has the same rule |
| `ApprovalStore.Store.StoredRulesYieldThemselves` | acp/src/approval_learning.rs:286-298 | every stored rule passes the fixpoint test applied on reading the store |
| `ConnectorNotes.NextLogicalLine` | acp/src/connector_notes.rs:110-129 | yields nothing exactly at the end; otherwise the first line from the offset and an offset strictly further on |
| `ConnectorNotes.CutIsUnique` | acp/src/connector_notes.rs:110-129 | a line, an LF, CR or CRLF ending and a rest are cut apart in one way only |
| `ConnectorNotes.CutsSpell` | acp/src/connector_notes.rs:110-129 | repeated cutting splits any text into lines and endings that concatenate back to it |
| `ConnectorNotes.NoteBody` | acp/src/connector_notes.rs:92-107 | the loop computes the body of a note |
| `ConnectorNotes.BodyIsNoneExactly` | acp/src/connector_notes.rs:92-107 | a note has no body exactly when its first logical line is a fence and no later one is |
| `ConnectorNotes.BodyBehindCloser` | acp/src/connector_notes.rs:89-107 | the body of any closed note is the text behind the closing fence without its leading line breaks; it is the text right behind the fence's own ending exactly when that text does not begin with a line break |
| `ConnectorNotes.BlankLineSkipped` | acp/src/connector_notes.rs:89-107 | a concrete note whose blank line behind the closing fence is skipped as well |
| `ConnectorNotes.NoteSummary` | acp/src/connector_notes.rs:60-82 | the loop computes the description of a note |
| `ConnectorNotes.YamlQuote` | acp/src/connector_notes.rs:170-180 | the loop quotes a value |
| `ConnectorNotes.BodyOfRenderedNote` | acp/src/connector_notes.rs:92-191 | reading back a rendered note yields its bounded trimmed body and a newline, or the empty text when that is empty |
| `ConnectorNotes.SummaryOfRenderedNote` | acp/src/connector_notes.rs:60-191 | reading back the description yields it without quotes and backslashes, trimmed again; nothing exactly when nothing is left |
| `NoteRules.FrontmatterOfRenderedNote` | acp/src/connector_notes.rs:151-159 | a printed note opens with a fence, the name, the description and a fence, each on its line |
| `NoteRules.QuotedExactly` | acp/src/connector_notes.rs:170-180 | a quoted value has its characters in order but for line breaks, double quotes and backslashes |
| `NoteRules.UsageExactly` | acp/src/connector_notes.rs:142-149 | the body is the first 8000 characters other than NUL, trimmed |
| `NoteRules.DescriptionExactly` | acp/src/connector_notes.rs:161-168 | the description has every white space a blank and no NUL, is trimmed and then cut to 160 characters |
| `NoteRules.SummaryExactly` | acp/src/connector_notes.rs:60-82 | in any text, behind an opening fence, the first line that closes the frontmatter or describes the note decides what is found |
| `NoteRules.BodyWithoutFence` | acp/src/connector_notes.rs:92-99 | a text that does not open with a fence is its own body |
| `LayerC.RunSuite` | scripts/layer_c_live_e2e.py:170-225 | finishes exactly when no run it gets to raises; each cause of failure before the attempts has its status; a finished receipt matches its contract, claims a pass exactly when a passing attempt exists, and then carries the evidence; a raise never leaves a pass behind |
| `LayerC.RunAttempts` | scripts/layer_c_live_e2e.py:191-225 | the two-attempt loop passes exactly when one of the two transcripts passes, and records the attempts in order |
| `LayerC.Judge` | scripts/layer_c_live_e2e.py:196-213 | a transcript passes exactly with exit code 0 and one ok summary whose counts equal the discovered tests, none failed, ignored or measured |
| `LayerC.Reconcile` | scripts/layer_c_live_e2e.py:228-262 | integrity holds exactly when receipts and suites pair off under matching contracts; no mandatory failure is counted exactly when every mandatory receipt passed |
| `LayerC.ReconciledPairsOff` | scripts/layer_c_live_e2e.py:240-246 | reconciled receipts and suites are in bijection |
| `LayerC.Settle` | scripts/layer_c_live_e2e.py:303-323 | whatever happened, every suite without a receipt gets a failed one under its own contract |
| `LayerC.Certify` | scripts/layer_c_live_e2e.py:280-327 | the verdict is PASS exactly for certified campaigns: runnable, every suite run and recorded without an interrupt, also right after the last receipt, and every mandatory one passed; a runnable manifest leaves one receipt per suite in every case; no receipt claims a pass without evidence |
| `LayerC.CertifiedExactly` | scripts/layer_c_live_e2e.py:280-327 | when a campaign is certified, written out down to exit codes and counts |
| `LayerC.TallyConserved` | scripts/layer_c_live_e2e.py:248-261 | first passes, passes after a retry and failures add up to the receipts of a track |
| `Diagnostics.PositionValid` | acp/src/document_diagnostics.rs:104-117 | accepts exactly the positions for which some prefix of the stripped line has that UTF-16 length |
| `Diagnostics.ValidIffDenoted` | acp/src/document_diagnostics.rs:104-117 | a position is valid exactly when it is the position of some text offset not behind a stripped carriage return |
| `Diagnostics.OneOffset` | acp/src/document_diagnostics.rs:104-117 | a valid position has exactly one offset |
| `Diagnostics.OffsetOrder` | acp/src/document_diagnostics.rs:23-28 | the derived order of positions is the order of their offsets |
| `Diagnostics.Validate` | acp/src/document_diagnostics.rs:71-102 | accepts exactly the well-formed observations with distinct publishers |
| `Diagnostics.AcceptedRangeDenotes` | acp/src/document_diagnostics.rs:89-99 | every accepted range denotes one substring, by the only offsets at its ends |
| `ProviderNames.ProviderSlug` | acp/src/cc_switch.rs:268-288 | the slug is the label's maximal runs of ASCII letters and digits, lowered and joined by single hyphens, or a fixed name when there are none |
| `ProviderNames.SlugFixpoint` | acp/src/cc_switch.rs:268-288 | a slug is its own slug and never ends in a hyphen |
| `ProviderRules.SlugExactly` | acp/src/cc_switch.rs:268-288 | how a slug grows along a label: other characters add nothing, a run of letters and digits is one more word, lowered, behind a hyphen |
| `ProviderNames.UniqueProviderName` | acp/src/cc_switch.rs:290-299 | finds the first free candidate, within one more try than there are names in use |
| `ProviderNames.TriedFits` | acp/src/cc_switch.rs:293-296 | the pigeonhole behind it: taken candidates are no more than the names in use |
| `CcSwitch.ModelsFromCatalogArray` | acp/src/cc_switch.rs:432-463 | one model per id, in the order of first mention, named by the first item with that id |
| `CcSwitch.ModelsFromEnv` | acp/src/cc_switch.rs:474-533 | one model per id over the known keys and then the others in order, named by the display-name rule |
| `ProviderRules.CredentialsExactly` | acp/src/cc_switch.rs:365-399 | token, address and wanted model come from the first given of their variables, in order, the proxy's address first |
| `ProviderRules.HintTaken` | acp/src/cc_switch.rs:549-578 | a context window in brackets is taken off a model id |
| `ProviderRules.NoHintKept` | acp/src/cc_switch.rs:549-578 | any other text is its own id, trimmed |
| `ProviderRules.SlotExactly` | acp/src/cc_switch.rs:509-533 | a variable `X_MODEL` gives an id and `X_MODEL_NAME` its display name |
| `CcSwitch.ProviderFromSettings` | acp/src/cc_switch.rs:353-418 | fails for exactly the stated reasons, for want of models exactly when neither the array nor the environment offers an id; otherwise the models are those offered, in order, each under the credentials and the picker prefix, and the default is the wanted model if listed, else the first |
| `CcSwitch.CatalogFromRows` | acp/src/cc_switch.rs:213-266 | the imports are, in row order, exactly the rows whose settings import, the proxy fronting the first current row alone; that row gets the plain name, every other the first candidate of its slug not given before; names are distinct and the default names a model of the plain one |
| `ProviderRules.ImportExactly` | acp/src/cc_switch.rs:213-266 | an imported row in full: the offered models in order under their picker names, with the row's own token and address or the proxy's, and the default the model asked for if listed, else the first |
| `CcSwitch.Config.MergeIntoConfig` | acp/src/cc_switch.rs:50-99 | keeps the other providers in order, appends the catalog's, and sets the default only when asked or missing |
| `ProviderRules.KeptExactly` | acp/src/cc_switch.rs:58-60 | exactly the providers not imported before are kept, each as often as it was there |
| `ProviderRules.DefaultReplacedExactly` | acp/src/cc_switch.rs:62-72 | the default model is replaced exactly when the catalog has one and it is preferred or none is set |
| `CcSwitch.MergeTwice` | acp/src/cc_switch.rs:58-97 | merging the same catalog again changes nothing |
| `Changelog.Promote` | scripts/promote_unreleased_changelog.py:14-46 | the two index loops and the list surgery compute the promotion, its two errors and its no-op |
| `Changelog.NeverTwoNewlines` | scripts/promote_unreleased_changelog.py:42-43 | a line never ends in two line feeds, so the blank line before the next section is always added |
| `Changelog.ReadBack` | scripts/promote_unreleased_changelog.py:15 | splitting into lines inverts joining exactly for well-cut lines |
| `Changelog.PromotionInserts` | scripts/promote_unreleased_changelog.py:39-46 | a promotion only inserts: cut behind the heading and behind the notes, the text is unchanged but for the new heading, blank lines and a missing newline |
| `Changelog.RewrittenReadsBack` | scripts/promote_unreleased_changelog.py:45-46 | the rewritten lines are the lines of the result exactly when version and date are free of line breaks, the heading does not end in a bare CR and the last note can be closed by a line feed |
| `Changelog.PromoteTwice` | scripts/promote_unreleased_changelog.py:14-46 | promoting a promoted changelog again, under any version and date, changes nothing |
| `ChangelogRules.LinesExactly` | scripts/promote_unreleased_changelog.py:15 | every text is cut into whole lines in one way, behind the ten line breaks, with CR and LF never parted |
| `ChangelogRules.NoSectionExactly` | scripts/promote_unreleased_changelog.py:16-24 | the missing-section error is raised exactly when no line begins with either Unreleased heading |
| `ChangelogRules.SectionPromoted` | scripts/promote_unreleased_changelog.py:26-46 | with a section: unchanged without notes, the second error for a version that has a heading, and otherwise the text with the notes below the new heading, written out |
| `EventLog.Admit` | core/src/core_event_log.rs:501-549 | by the whole history of a stream: admitted exactly when it extends it, replayed exactly when retained and not stale, and every refusal by its own exact cause, stale generation, stale revision, cursor conflict, gap, overflow or causality conflict |
| `EventLog.Trim` | core/src/core_event_log.rs:551-562 | drops the oldest entries, as few as the limits allow, and keeps the byte count exact |
| `EventLog.CoreEventLog.constructor` | core/src/core_event_log.rs:249-260 | a new log is empty and its limits are capped |
| `EventLog.GenuineExactly` | core/src/core_event_log.rs:103-157 | an entry is genuine exactly with the known schema, a valid event, an anchor in digest form, at most 128 strictly increasing one-line references of at most 1024 bytes, and the digest of these parts |
| `EventLog.CoreEventLog.Append` | core/src/core_event_log.rs:263-290 | in every reachable log: an entry is taken exactly when genuine and extending its history; retained entries stay the newest part of the chain; nothing else changes a history; other operations are untouched |
| `EventLog.CoreEventLog.LookUp` | core/src/core_event_log.rs:304-322 | the first critical section: a replay exactly when the same event is retained, a conflict exactly when another one holds its cursor; nothing is written |
| `EventLog.CoreEventLog.ReadAnchor` | core/src/core_event_log.rs:323-332 | the second critical section reads the head of the history as of that moment |
| `EventLog.CoreEventLog.AppendLinked` | core/src/core_event_log.rs:380-398 | the last critical section offers the event linked to an anchor read earlier, whatever was admitted since |
| `EventLog.CoreEventLog.AppendEvent` | core/src/core_event_log.rs:295-377 | the three sections uninterrupted: a known cursor is a replay exactly for the same event and a conflict exactly for another; a new event is linked to the head and never conflicts with the chain |
| `EventLog.NoInterleavingForks` | core/src/core_event_log.rs:263-398 | however the critical sections of any number of appenders interleave, every operation's history is one chain |
| `EventAppenders.ConflictExactly` | core/src/core_event_log.rs:292-398 | an entry linked to an anchor read in an earlier section is refused as a causality conflict exactly when it is fresh, its cursor is next and another entry of the operation was admitted in between |
| `EventExamples.TwoAppenders` | core/src/core_event_log.rs:380-398 | a concrete run: two appenders read the same anchor, the first is admitted and the second, next in line, is refused |
| `EventReplay.HeadDeterminesHistory` | core/src/core_event_log.rs:113-129 | without collisions the chain head determines the whole history |
| `EventReplay.VerifiedHeadDetermines` | core/src/core_event_log.rs:474-489 | entries that verify are determined by their anchor, number and head, so tampering that keeps the head is detected |
| `EventReplay.ReadPage` | core/src/core_event_log.rs:402-471 | the paging loop, on any buffer, intact or not |
| `EventReplay.Verify` | core/src/core_event_log.rs:474-489 | succeeds exactly when every retained entry is genuine and chained, and then names their number and head |
| `EventReplay.IntactVerifies` | core/src/core_event_log.rs:474-489 | verification passes on every stream appends build, and names the head of its history exactly unless retention has emptied it |
| `EventReplay.PageDeliveredExactly` | core/src/core_event_log.rs:432-455 | a page of an intact stream is delivered exactly when the cursor skips none or all of the retained entries; otherwise it is refused as a causality conflict |
| `EventReplay.PageContents` | core/src/core_event_log.rs:439-458 | a delivered page holds the next entries up to the limit; `has_more` is right exactly unless one entry more than the limit is left; the retention gap is right |
| `EventReplay.PageOfLog` | core/src/core_event_log.rs:402-471 | a delivered page of an intact stream in terms of its whole history: the entries from where the reader goes on up to the limit, the cursor of the last one or the one given when there is none, the oldest cursor retained, and the number of all entries |
| `EventReplay.PageFlags` | core/src/core_event_log.rs:421-458 | more is announced exactly when two entries or more are left behind the page, and a gap exactly when the next entry wanted is no longer retained |
| `EventReplay.VisitExactly` | core/src/core_event_log.rs:432-455 | reading finds no problem exactly when every entry is genuine and linked to the one before it |
| `EventReplay.ContinuationRefused` | core/src/core_event_log.rs:402-471 | continuing behind a page that left entries unread is always refused |
| `EventReplay.TwoEntries` | core/src/core_event_log.rs:432-458 | any intact stream of two entries, read in pages of one: the first page denies that there is more, and asking for it is refused |
| `EventExamples.PagingFails` | core/src/core_event_log.rs:432-458 | such a stream, built under a collision-free codec |
| `EventReplay.NeverFalls` | core/src/core_event_log.rs:503-513 | revisions and stamped generations never fall along a chain |
| `EventReplay.ReplayExactly` | core/src/core_event_log.rs:501-523 | offering a retained entry again is a replay exactly while no later entry has raised the revision or its generation |
| `EventReplay.ReplayAfterRevision` | core/src/core_event_log.rs:503-523 | in any chain of two entries of which the second raises the revision, the newer one can be replayed and the older one counts as stale |
| `EventExamples.ReplayFails` | core/src/core_event_log.rs:503-523 | such a stream, built, with the older entry still retained |
| `SchedulerBooks.Register` | core/src/task_scheduler.rs:1044-1072 | a quota registered under another limit is refused with nothing touched; otherwise every key of the admission is registered and counts it |
| `SchedulerBooks.Update` | core/src/task_scheduler.rs:1074-1122 | one pass over the keys changes exactly their counters and prunes exactly those out of use |
| `SchedulerBooks.StartBooks` | core/src/task_scheduler.rs:1221-1226 | starting an admission keeps every counter equal to the admissions behind it and within its limit |
| `SchedulerBooks.FinishBooks` | core/src/task_scheduler.rs:1098-1110 | ending a lease keeps every counter exact |
| `SchedulerBooks.WithdrawBooks` | core/src/task_scheduler.rs:1085-1096 | withdrawing a queued admission keeps every counter exact |
| `TaskScheduler.AgingPromotes` | core/src/task_scheduler.rs:1293-1321 | aging never demotes, never reaches the urgent class, and given time lifts all other work to the class right behind it |
| `TaskScheduler.AgingIsGradual` | core/src/task_scheduler.rs:1293-1321 | a class is gained only for a whole interval waited, and short of the class behind urgent every whole interval gains one |
| `TaskScheduler.PopAdmissible` | core/src/task_scheduler.rs:1274-1291 | picks the first admission in queue order that fits the global capacity and all its quotas |
| `TaskScheduler.FitsIsRoom` | core/src/task_scheduler.rs:1124-1130 | the counters' answer whether an admission fits is the answer counted from the leases themselves |
| `TaskScheduler.Reorder` | core/src/task_scheduler.rs:1293-1321 | aging reorders the queue by class and arrival without losing or adding an admission |
| `TaskScheduler.Dispatch` | core/src/task_scheduler.rs:1199-1268 | starts admissions one by one, each with room for it while nothing ahead of it that still waits has room, takes back what gone callers left, and ends with nothing waiting that could run; capacity, counters and conservation hold throughout |
| `TaskScheduler.AgedNotOvertaken` | core/src/task_scheduler.rs:1199-1321 | work that has waited long enough to reach the class behind urgent is not overtaken by non-urgent work that arrived later: when that starts, it has started, or there is no room for it |
| `TaskScheduler.HigherClassFirst` | core/src/task_scheduler.rs:1199-1321 | work of a lower class does not start while work of a higher class waits with room for it, as long as it has waited less than one interval for each class between them |
| `TaskScheduler.ArrivalOrderWithinClass` | core/src/task_scheduler.rs:1199-1321 | work of one class starts in the order of arrival, unless there is no room for the earlier |
| `SchedulerRun.Enqueue` | core/src/task_scheduler.rs:969-988 | turned away exactly when closing, full or conflicting; otherwise it starts exactly when there is room for it, its lease kept unless its caller has gone, and waits if there is none, and nothing else moves |
| `SchedulerRun.Release` | core/src/task_scheduler.rs:915-926 | ends the lease or withdraws the admission of that id, whichever exists, and dispatches |
| `SchedulerRun.Shutdown` | core/src/task_scheduler.rs:946-957 | refuses everything queued and leaves the leases alone |
| `SchedulerRun.Run.Submit` | core/src/task_scheduler.rs:551-606 | a checked request goes to the end of the ingress channel and its caller listens; nothing else changes |
| `SchedulerRun.Run.Drop` | core/src/task_scheduler.rs:760-767 | dropping a lease or a request sends its release, once, to the end of the release channel; nothing else changes |
| `SchedulerRun.Run.TakeEnqueue` | core/src/task_scheduler.rs:912-914 | the actor's step takes the first admission: refused if turned away, holding exactly when it starts and its caller listens, dropped if it starts for a gone caller, queued if there is no room; nobody else is answered |
| `SchedulerRun.Run.TakeRelease` | core/src/task_scheduler.rs:904-926 | the actor's step frees exactly that admission and keeps the other leases, also when the release overtakes its admission, which is then on record as overtaken |
| `SchedulerRun.Run.TakeShutdown` | core/src/task_scheduler.rs:946-957 | the actor's step refuses exactly the listeners whose admission is queued and keeps every lease and both channels |
| `SchedulerRun.HeldWithinCapacity` | core/src/task_scheduler.rs:1124-1130 | in every reachable state the leases held stay within the global limit and within the limit of every quota |
| `SchedulerRun.NothingWaitsWithRoom` | core/src/task_scheduler.rs:1199-1291 | in every reachable state whatever is queued wants a global slot while all are taken, or a quota at its limit |
| `SchedulerRun.NobodyForgotten` | core/src/task_scheduler.rs:585-620 | a listening caller is queued, a held lease is active, and a lease of a gone caller has its release on the way |
| `SchedulerRun.LingersIffOvertaken` | core/src/task_scheduler.rs:904-926 | an admission of a gone caller lingers in the queue without a release on the way exactly when its release overtook it |
| `SchedulerRun.Overtaking` | core/src/task_scheduler.rs:904-926 | a concrete run that ends with the admission of a gone caller queued and no release on the way |
| `SchedulerRun.NothingLeaks` | core/src/task_scheduler.rs:884-966 | when every caller has settled and the channels are drained, nothing is active or queued, no quota is in use, and offered admissions are all released, cancelled or rejected |

## Left out

- `learnable_rule`'s shell classifier is a parameter; the fixpoint is stated relative to it.
- The approval store's document format, locking and atomic rename.
- `jwt_payload` around base64url decoding, and all account, keychain and database reading.
- Which lines of a transcript count as summaries or listed tests in the certification runner; exit codes and summaries are inputs.
- The order in which receipt files are listed, and the remaining summary counters; nothing in the verdict depends on them.
- The text of original facts other than model turns and user messages in the campaign audit; such a fact cannot quote the failed checker here.
- The JSON shape checks of the campaign audit (missing keys, foreign types), which all end in rejection.
- The twenty seconds after which a waiter on a session load gives up; that it may give up is a step.
- LayerC.Certify: an interrupt while the closing receipts or the summary are written is not modelled; the runner then ends without a verdict.
- EventLog.Trim: the byte count is unbounded, so saturation at the machine word is not modelled.
- EventReplay.ReadPage: a cursor at the 64-bit maximum wraps around as in release builds; debug builds stop there.
- Adapting agent and run events to event identities, and collecting artifact references from payloads.
- ProviderNames.UniqueProviderName: the 32-bit suffix is unbounded; its bound by the names in use is proved instead.
- TaskScheduler.Reorder: the queue's sequence numbers are represented by the order of arrival, which reinsertion in sequence order preserves.
- TaskScheduler.Dispatch: the actor's fields are one value that each message replaces, so updates in place within a message are not captured.
- SchedulerRun.Run: the two channels may be read in any order, a superset of the biased order in the code; the actor's exit after shutdown is not a step.
- Retained quota health, wait times and peak counters of the scheduler, which no decision reads.
- Tool execution, providers, sandboxing, memory, research and the terminal interface.
