# Verified models of terminal-commander

This project models the concurrent protocols, bounded queues, tokenizers and loops at the centre
of terminal-commander, and proves what they promise over every input, every interleaving and every
run. It is written in Dafny 4.11 and checked with `dafny verify dfyconfig.toml`.

| file | what it models |
|---|---|
| `Engine.dfy` | admission and shutdown of the embedded engine, as steps of any number of concurrent calls |
| `Credential.dfy`, `CredentialOutcome.dfy` | the owner credential broker: prompt generations, outcome cells, loopback pages, native prompts, CLI answers; which outcome an answer becomes |
| `Bucket.dfy` | one signal bucket: append, patch, eviction, counters, cursor reads |
| `BucketReader.dfy` | a reader that pages through a bucket while it changes |
| `BucketWait.dfy` | waiting on a bucket: read, arm, wake or time out, read again or take the tail |
| `ContextRing.dfy` | the bounded context ring with `tail` and `window` |
| `Utf8.dfy` | cutting UTF-8 text to a byte cap |
| `Template.dfy` | the summary template validator and renderer |
| `EnvSplit.dfy`, `EnvScript.dfy` | the words of an `env -S` string, and what such strings mean |
| `Launcher.dfy`, `LaunchPrefix.dfy` | the program an argv launches, and which words stand before it |
| `Unwrap.dfy`, `Escalation.dfy` | peeling of launchers, and what an escalator leaves |
| `SplitLine.dfy`, `SplitScript.dfy` | splitting a shell line under three grammars, and what lines mean |
| `Base64.dfy` | the base64 decoder of encoded commands against the encoder of its tests |
| `Publish.dfy` | the bounded publish-and-reconcile loop of the release scripts |

Objects that the source updates in place (`Bucket.Bucket`, `ContextRing.Ring`, `SplitLine.Words`)
are classes whose methods are proved against functions of the history or of the old state. Loops are methods with invariants. Code whose
point is interleaving (engine, broker, waiting, a reader beside appends) is a step relation, and
its theorems are about all runs of that relation.

## What was found

Three things the source states or relies on do not hold as written. Each comes with a concrete
interleaving or input, and with the exact condition under which the code does meet it.

- Waiting on a bucket can lose an event. When the timeout wins, the caller's cursor jumps to the
  tail. `TimeoutSkipsTheGaps` proves that the events skipped are exactly the matching ones appended
  between the first read and arming the wake-up, or between the timeout and the tail snapshot.
  An event appended while the wake-up is armed always wakes the waiter, and is passed over only
  if it is evicted before the second read.
- "One native prompt per generation" needs two things the code does not give: that the PTY snapshot
  and the map lock are one step, and that a CLI answer is recorded while its prompt is current.
  `Displaces` names the steps that break it: a request, a page or a record that commits another
  generation over the claimed prompt of a live job, or a claimed pair whose entry is gone.
  `KeptIffNotDisplaced` proves for every step that the bookkeeping survives exactly when the step
  is not one of these, and `OncePerGenerationIff` for every run that without them each prompt is
  opened at most once, while each of them can be followed by a repeat. Fresh snapshots and timely
  records are never among them, which gives `OnePromptPerGeneration`.
- Peeling launchers does not drop a word in every round (crates/core/src/os_guard.rs:241): an
  `env -S` string may hold more words than it replaces, and then the subtraction at line 264 is
  negative. `OverrunIff` and `LaunchedLength` say exactly when, for every argv. The loop still ends,
  by a weight of characters and words.

## Model

| member | source | states |
|---|---|---|
| Engine.RunInv | crates/daemon/src/embedded.rs:66-77 | in every state of every run permits belong to exactly the calls whose phase holds them, and the marks of a finished shutdown agree with how far the writing call has come |
| Engine.StepKeepsInv | crates/daemon/src/embedded.rs:211-344 | every step of every call and every dropped handle or future, also of a request that was granted its permit and not polled since, keeps that invariant |
| Engine.NoAdmissionAfterStopping | crates/daemon/src/embedded.rs:211-245 | once `stopping` is set it stays set and no call becomes an admitted request any more, in any run |
| Engine.RefusedOnlyWhenStopping | crates/daemon/src/embedded.rs:216-221 | a request that was queued is refused only when a shutdown has been asked for |
| Engine.CallIsQueuedOrRefused | crates/daemon/src/embedded.rs:216-218 | a request within the size bound is queued, one beyond it is refused for good |
| Engine.AnswersStay | crates/daemon/src/embedded.rs:211-245 | a finished call keeps its answer and an admitted request stays admitted, whatever happens to its caller |
| Engine.AdmittedIsReplied | crates/daemon/src/embedded.rs:207-245 | every admitted request is answered by the time all is quiet, also while the engine shuts down |
| Engine.QueuedIsReplied | crates/daemon/src/embedded.rs:211-245 | in a run in which nobody asks to stop, every queued request is answered by the time all is quiet, unless its own caller dropped it |
| Engine.StoreClosedAlone | crates/daemon/src/embedded.rs:295-344 | the step that closes the store finds no request holding a permit, none is between admission and reply ever after, and the store is closed at most once, the drop of the last handle included |
| Engine.ShutdownHoldsNoReadPermit | crates/daemon/src/embedded.rs:211-215 | a shutdown, also one sent through `execute`, never holds a read permit, so it does not wait for itself |
| Engine.SettledWhenUnlocked | crates/daemon/src/embedded.rs:329-338 | while the write permit is free, closed, directory lock released, report stored and store closed once are all true or all false |
| Engine.ReportKept | crates/daemon/src/embedded.rs:306-310 | a stored report is never replaced |
| Engine.OneReport | crates/daemon/src/embedded.rs:306-340 | any two shutdown calls that ever succeed return the same report |
| Engine.DrainIsCarried | crates/daemon/src/embedded.rs:317-343 | a shutdown that drained reports the numbers of its own drain, or fails |
| Engine.ReturnsADrain | crates/daemon/src/embedded.rs:305-344 | every report that is ever returned says the store is closed and has the numbers of a drain of that run |
| Engine.FailedCloseIsRetryable | crates/daemon/src/embedded.rs:325-331 | a failed close releases the permit with nothing marked, and a later shutdown that finds the store open does the work again |
| Engine.StepLowersWork | crates/daemon/src/embedded.rs:211-344 | every step the engine takes by itself and every poll lowers the work left |
| Engine.StopsExactlyWhen | crates/daemon/src/embedded.rs:218-344 | in every reachable state the engine can take no step of its own exactly when every unfinished call is at its caller or waits, and the next waiter is a shutdown behind a request that was granted its permit and neither polled nor dropped |
| Engine.CallerCanMove | crates/daemon/src/embedded.rs:218-225 | a call that is at its caller can always be polled on, and a granted request can be dropped, which frees its permit |
| Engine.NeverStuck | crates/daemon/src/embedded.rs:211-344 | while a call is unfinished the engine can move by itself, or all is left to callers and one of them can poll |
| Engine.EveryCallFinishes | crates/daemon/src/embedded.rs:207-303 | a stretch of own steps and polls is no longer than the work at its start; it comes to rest exactly when all is left to callers, and when no call is at its caller then every call is done |
| Engine.ClientKeepsInv | crates/daemon/src/embedded.rs:424-446 | new calls, dropped futures, cloned and dropped handles and the drop of the engine keep the invariant |
| Engine.DropCloses | crates/daemon/src/embedded.rs:424-446 | dropping the last handle releases the directory lock, and afterwards the store is closed exactly if a shutdown had closed it or the drop could |
| Credential.StepKeepsInv | crates/daemon/src/credential.rs:170-252 | every interleaved step keeps: Provided only after delivery at the cell's own generation, no open page beside a native prompt, map entries about their own job and generation |
| Credential.RunInv | crates/daemon/src/credential.rs:170-473 | so does every run |
| Credential.OutcomeIsFinal | crates/daemon/src/credential.rs:234-252 | an outcome cell goes from unset to one status, may later change only to Provided, and never leaves Provided |
| Credential.StepKeepsOutcomes | crates/daemon/src/credential.rs:411-420 | the same for each single step: the first outcome wins except against a recorded CLI answer |
| Credential.AnswersAreSound | crates/daemon/src/credential.rs:432-473 | Provided means that a password was typed at exactly that job and generation, an open page excludes a native prompt, and no generation is answered twice |
| CredentialOutcome.OutcomeStep | crates/daemon/src/credential.rs:234-473 | for every step and every cell which status the cell has afterwards: a recorded CLI answer makes it Provided, otherwise the first verdict stays |
| CredentialOutcome.NewCellOutcome | crates/daemon/src/credential.rs:179-325 | cells come from requests, opened pages and records only, each becomes the entry of its job, and with native prompts off the owner has to act at once |
| CredentialOutcome.RecordedIsProvided | crates/daemon/src/credential.rs:234-252 | after a CLI answer is recorded the entry of its job says Provided |
| CredentialOutcome.NativeAnswerArrives | crates/daemon/src/credential.rs:452-472 | over every run an answered native prompt settles as its answer says, Provided for a delivered password, NotAwaiting for a failed delivery, Declined, or OwnerActionRequired, unless an outcome was there first |
| CredentialOutcome.PageAnswerArrives | crates/daemon/src/credential.rs:512-587 | over every run a password typed into a page settles as Provided exactly if it was delivered, unless an outcome was there first |
| CredentialOutcome.RestingCellHasOutcome | crates/daemon/src/credential.rs:364-420 | over every run a cell on which neither page nor prompt is at work has an outcome, except when its unopened page found its entry gone |
| CredentialOutcome.MarksTell | crates/daemon/src/credential.rs:344-348 | over every run a page is marked accepted exactly when a client said so and visited exactly when somebody came |
| CredentialOutcome.ClosedUnopened | crates/daemon/src/credential.rs:512-587 | a page falls back only after a client accepted it and nobody came |
| CredentialOutcome.ExpiredCanReopen | crates/daemon/src/credential.rs:392-401 | an expired page is forgotten and the next open starts a new one |
| CredentialOutcome.AbandonedIsAskedNatively | crates/daemon/src/credential.rs:349-357 | an abandoned page is gone and the next request asks natively |
| CredentialOutcome.DeclinedStays | crates/daemon/src/credential.rs:339-343 | a declined page stays the entry, so later requests see the refusal and nothing new is asked |
| Credential.PageKeepsInv | crates/daemon/src/credential.rs:512-587 | every move of a page task keeps the invariant: get, post, settle, expiry, stop, close unopened, fall back |
| Credential.KeptIffNotDisplaced | crates/daemon/src/credential.rs:170-401 | for every step of any kind, also with an old snapshot or a late record: every claimed native prompt stays out of reach of later calls exactly when the step displaces none |
| Credential.UndisplacedRunInv | crates/daemon/src/credential.rs:170-401 | over every run without a displacing step, fresh or not, every claimed prompt stays out of reach |
| Credential.FreshNeverDisplaces | crates/daemon/src/credential.rs:176-204 | a call that commits the prompt that is current at its lock, and a record of the current prompt, displace nothing |
| Credential.FreshRunInv | crates/daemon/src/credential.rs:170-230 | over fresh runs no step displaces and every native prompt that was opened is spent |
| Credential.OnePromptPerGeneration | crates/daemon/src/credential.rs:170-401 | over every fresh run at most one native prompt per job and generation, also across fall-backs from pages |
| Credential.FallBackKeepsPrompts | crates/daemon/src/credential.rs:364-390 | falling back from an unopened page claims a native prompt nobody else has claimed |
| Credential.RepeatedPromptIff | crates/daemon/src/credential.rs:176-204 | for every step from every state without a repeat: a prompt is opened a second time here exactly when the step opens one that was opened before, a request that does not find its entry or a page falling back |
| Credential.DisplacedCanRepeat | crates/daemon/src/credential.rs:176-390 | with native prompts on, every displacing step of every run is followed by a repeated prompt in some run that goes on from it |
| Credential.OncePerGenerationIff | crates/daemon/src/credential.rs:170-401 | both together: the runs without a displacing step are the safe ones, and no displacing step is harmless |
| Credential.OffOpensNone | crates/daemon/src/credential.rs:195-206 | with native prompts off none is ever opened |
| Credential.StaleSnapshotAsksTwice | crates/daemon/src/credential.rs:176-179 | a run in which a job exits between snapshot and lock and its owner is asked twice |
| Credential.LateRecordAsksTwice | crates/daemon/src/ipc/handlers/pty.rs:520-527 | a run with fresh snapshots in which a late CLI record makes the next prompt be asked twice |
| Bucket.Bucket.constructor | crates/core/src/bucket.rs:285-306 | a new bucket is valid, empty and has given out no number |
| Bucket.Bucket.Append | crates/core/src/bucket.rs:442-491 | accepts exactly the admissible events and names the reason otherwise, changing nothing; the number it gives out exceeds all numbers ever given out; the newest `maxEvents` stay; counters, head, tail and count agree with the store |
| Bucket.Bucket.Push | crates/core/src/bucket.rs:483-486 | counting in and storing an event keeps the tables exact, and no 64-bit counter can saturate |
| Bucket.Bucket.PopFront | crates/core/src/bucket.rs:311-317 | taking the oldest event out keeps the tables exact; neither the unbump nor the drop counter saturates |
| Bucket.Bucket.EvictExpired | crates/core/src/bucket.rs:308-321 | exactly the stale front leaves, and stored plus dropped stays the number of appends |
| Bucket.Bucket.EvictForCapacity | crates/core/src/bucket.rs:323-330 | exactly the newest `maxEvents` stay, also for capacity 0 |
| Bucket.Bucket.RefreshState | crates/core/src/bucket.rs:347-358 | the state block agrees with the store and keeps the tail when the bucket is empty |
| Bucket.Bucket.PatchAggregation | crates/core/src/bucket.rs:494-516 | exactly the event with that number changes, in its aggregation fields only; unknown numbers change nothing |
| Bucket.Bucket.EventsSince | crates/core/src/bucket.rs:605-657 | evicts what expired and returns a page of what is left |
| Bucket.Bucket.Summarize | crates/core/src/bucket.rs:660-665 | both tables of a summary add up to its event count |
| Bucket.CountsPush | crates/core/src/bucket.rs:332-335 | after counting an event in, each severity and kind count is the number of stored events of it |
| Bucket.CountsPop | crates/core/src/bucket.rs:337-345 | after counting one out as well, and no kind is listed with zero |
| Bucket.CountsPatch | crates/core/src/bucket.rs:510-512 | patching moves no counter |
| Bucket.TablesAddUp | crates/core/src/bucket.rs:113-144 | exact tables each add up to the number of stored events |
| Bucket.LogFits | crates/core/src/bucket.rs:452-464 | there are never more numbers given out than the last one says, so no counter reaches 64 bits |
| Bucket.DenseBucket | crates/core/src/bucket.rs:452-491 | when the bucket assigned every number it stores exactly dropped + 1 to tail, and a reader at cursor c has lost exactly max(0, dropped - c) events |
| Bucket.DropStaleIs | crates/core/src/bucket.rs:308-321 | eviction takes a stale front and stops at the first fresh event; with ordered timestamps nothing stale stays |
| Bucket.ReadPage | crates/core/src/bucket.rs:614-656 | the read loop returns the front of what is pending, stands its cursor at the last event returned, and says whether more is pending |
| BucketReader.PageIsComplete | crates/core/src/bucket.rs:605-657 | a page holds in order exactly the wanted stored events up to its new cursor, and `hasMore` is exactly whether one lies beyond |
| BucketReader.PageMoves | crates/core/src/bucket.rs:605-657 | what was pending is the page and then what is pending from the new cursor; a page with more to come is full |
| BucketReader.PagesAreTheWholeList | crates/core/src/bucket.rs:600-657 | on a bucket at rest a finished page loop has read exactly the filtered list |
| BucketReader.PageLoopEnds | crates/core/src/bucket.rs:600-657 | a page loop that is still going has read `limit` events a page, so its length is bounded by what was pending |
| BucketReader.ReaderMissesNothing | crates/core/src/bucket.rs:600-657 | over any run of reads, appends, evictions and patches: each matching event at most once and in order, only events of the bucket, and every matching event up to the cursor was received or evicted |
| BucketReader.HasMoreIsExact | crates/core/src/bucket.rs:642-645 | at any read of any run `hasMore` is exactly whether a stored matching event lies beyond the cursor |
| BucketReader.AppendIsSteps | crates/core/src/bucket.rs:483-487 | what the bucket stores after an append is what the step relation stores after one append and its evictions |
| BucketReader.ExpiryIsSteps | crates/core/src/bucket.rs:610-612 | what the bucket stores when it is read is what the step relation stores after evictions |
| BucketReader.PatchIsStep | crates/core/src/bucket.rs:494-516 | what the bucket stores after a patch is what the step relation stores after one patch step |
| BucketReader.SessionIsRun | crates/core/src/bucket.rs:442-657 | every sequence of the bucket's own operations and a reader's reads is a run of the step relation |
| BucketReader.SessionMissesNothing | crates/core/src/bucket.rs:600-657 | so over every such sequence the reader gets each matching event once and in order and has every matching event that is still stored up to its cursor |
| BucketWait.WaitRunInv | crates/core/src/bucket.rs:524-588 | in every state of every wait: nothing below the first read's mark is wanted, and an armed wake-up that has not fired has seen no append |
| BucketWait.ReadsSkipNothing | crates/core/src/bucket.rs:543-574 | the immediate and the woken answer never move the cursor past a stored matching event they do not return, and a heartbeat from them leaves the cursor |
| BucketWait.ReadsAnswerWhatIsThere | crates/core/src/bucket.rs:543-574 | the immediate and the woken answer hold the first `limit` wanted stored events in order with the cursor at the last, and are a heartbeat exactly when no stored event is wanted |
| BucketWait.WaitsOnlyForNothing | crates/core/src/bucket.rs:543-557 | the first read goes on to wait exactly when no stored event is wanted |
| BucketWait.WokenWithTheEvent | crates/core/src/bucket.rs:561-573 | a woken waiter gets the event that woke it while it is stored |
| BucketWait.WaitGoesOn | crates/core/src/bucket.rs:524-588 | a wait that has not answered can always take its next step |
| BucketWait.TimeoutSkipsTheGaps | crates/core/src/bucket.rs:575-586 | the timeout answer is an empty heartbeat at the tail or the old cursor, and skips exactly the stored matching events appended before arming or after the timeout |
| BucketWait.ArmedAppendWakes | crates/core/src/bucket.rs:556-559 | a timeout is only ever found with no append since arming |
| BucketWait.SkippedIsLost | crates/core/src/bucket.rs:577-583 | a skipped event is in no later page read from the returned cursor |
| BucketWait.EarlyGapLosesEvent | crates/core/src/bucket.rs:544-557 | a run in which the only event arrives between read and arming and is lost |
| BucketWait.LateGapLosesEvent | crates/core/src/bucket.rs:575-581 | a run in which it arrives between timeout and snapshot and is lost |
| ContextRing.EvictIsLongestFit | crates/core/src/context.rs:285-294 | eviction leaves the longest suffix within both caps |
| ContextRing.RetainedIsLongestFit | crates/core/src/context.rs:279-294 | after any history of pushes the ring holds the longest suffix of the history within both caps |
| ContextRing.Ring.constructor | crates/core/src/context.rs:279-294 | a new ring is valid for the empty history |
| ContextRing.Ring.Push | crates/core/src/context.rs:279-283 | one more frame in the history; frames, byte total and evicted count stay what the history says |
| ContextRing.Ring.EvictUntilInBounds | crates/core/src/context.rs:285-294 | the loop leaves what `Evict` says, with the byte total and the evicted count in step |
| ContextRing.CutFront | crates/core/src/context.rs:306-338 | the longest end of an oversized newest frame that fits, cut at a character boundary |
| ContextRing.WholeTail | crates/core/src/context.rs:306-338 | as many of the newest frames as fit, in order; truncated exactly when a requested one is missing or a shown one lost bytes |
| ContextRing.Ring.Tail | crates/core/src/context.rs:306-338 | always within the byte budget: the longest run of newest frames, or the longest end of a newest frame that is too long by itself |
| ContextRing.TakeAfter | crates/core/src/context.rs:372-471 | growing at the end keeps both caps, and a refusal is explained by the flag it raises |
| ContextRing.TakeBefore | crates/core/src/context.rs:372-471 | the same at the front |
| ContextRing.GrowOutward | crates/core/src/context.rs:372-471 | the loop ends with a run that neither cap nor range lets grow on either side |
| ContextRing.Ring.Window | crates/core/src/context.rs:372-471 | a contiguous run around the first frame with the anchor's id, inside the range, within 256 frames and the byte cap unless it is the anchor alone, not extendable, with a flag up exactly when it is not the whole range |
| Utf8.BoundarySplits | crates/core/src/context.rs:124-138 | a byte is a boundary exactly where valid text splits into two valid texts (section 4 of RFC 3629) |
| Utf8.NearBoundary | crates/core/src/context.rs:130-134 | one of any four neighbouring positions is a boundary |
| Utf8.CapText | crates/core/src/context.rs:124-138 | the longest prefix of at most 8192 bytes that is text, at most 3 bytes short of the cap, with the dropped bytes counted |
| Utf8.ClampFullMatch | crates/core/src/rule.rs:159-168 | the same for 256 bytes |
| Utf8.FirstBoundaryIsLongestSuffix | crates/core/src/context.rs:306-338 | moving forward to the first boundary gives the longest suffix that is text |
| Template.ParseReconstructs | crates/core/src/rule.rs:615-676 | the pieces put back together are the template up to the first unclosed hole, no hole runs past its first `}`, and no literal stands where a hole opens |
| Template.OneReading | crates/core/src/rule.rs:615-676 | these conditions leave one reading only, so validator and renderer find the same placeholders |
| Template.Validate | crates/core/src/rule.rs:615-647 | the byte-stepping validator judges the template as its pieces say, and slices it only at character boundaries |
| Template.RefusedIff | crates/core/src/rule.rs:615-647 | a refusal names the first unknown hole, or the unclosed one when all holes are known |
| Template.AcceptedIff | crates/core/src/rule.rs:615-647 | accepted exactly when every hole is closed and known |
| Template.SkipCharacter | crates/core/src/rule.rs:649-676 | passing a whole character reads the same pieces as passing its bytes |
| Template.Render | crates/core/src/rule.rs:649-676 | the char-stepping renderer gives what the byte-read pieces say, and its output is text |
| Template.ExpectedFills | crates/core/src/rule.rs:649-676 | it renders exactly when every hole is closed and defined, and the output is the literal bytes with each hole replaced once |
| Template.AcceptedTemplateRenders | crates/core/src/rule.rs:615-676 | an accepted template renders without error for every map that defines the declared captures and the reserved keys |
| EnvSplit.SplitEnvWords | crates/core/src/shell_deny.rs:328-367 | the loop reads the words of the grammar, or refuses |
| EnvSplit.WordsWeight | crates/core/src/shell_deny.rs:328-367 | splitting never makes more words and characters than the string had |
| EnvSplit.SplitUndoesQuoting | crates/core/src/shell_deny.rs:328-367 | single-quoting any words and joining them with spaces is undone exactly |
| EnvScript.WordsComeBack | crates/core/src/shell_deny.rs:328-367 | words of plain, escaped, single- and double-quoted parts come back as they are, and a comment is left out |
| EnvScript.RefusedAnywhere | crates/core/src/shell_deny.rs:328-367 | behind any words a `$`, an impossible escape or an open quote refuses the whole string |
| Launcher.LaunchedProgram | crates/core/src/shell_deny.rs:276-320 | one pass of the loop finds what the recursive reading finds |
| LaunchPrefix.ProgramIff | crates/core/src/shell_deny.rs:276-320 | for every argv and every answer: the loop gives it exactly when the argv can be read as assignments and wrappers with their options, values and operands, followed by what the answer says |
| LaunchPrefix.LeadsThenProgram | crates/core/src/shell_deny.rs:246-274 | behind any such prefix the program with its arguments is launched |
| LaunchPrefix.OperandIsReadOver | crates/core/src/shell_deny.rs:309-316 | `timeout N PROGRAM` launches the program and not its operand |
| LaunchPrefix.ValueIsReadOver | crates/core/src/shell_deny.rs:293-308 | `nice -n N PROGRAM` launches the program and not the value |
| LaunchPrefix.AssignmentIsReadOver | crates/core/src/shell_deny.rs:281-284 | an assignment behind a wrapper and its options is read over |
| LaunchPrefix.ShortHitIs | crates/core/src/shell_deny.rs:375-418 | the first letter of a cluster that takes a value ends it, with what is glued to it |
| LaunchPrefix.LongHitIs | crates/core/src/shell_deny.rs:375-418 | a long option is found by its exact name or a prefix only one name has, with what stands behind its `=` |
| LaunchPrefix.FindWrapperIs | crates/core/src/shell_deny.rs:630-643 | a wrapper is the first of the table with the name in any case |
| LaunchPrefix.DecoratedName | crates/core/src/shell_deny.rs:582-628 | wherever a program lies and whatever blanks and dots trail it, it goes by its bare name |
| LaunchPrefix.StreamName | crates/core/src/shell_deny.rs:582-628 | the default data stream suffix is not part of the name |
| LaunchPrefix.ExtensionIsStripped | crates/core/src/shell_deny.rs:582-643 | a Windows extension in any case is not part of the name |
| Launcher.ExpansionIsLighter | crates/core/src/shell_deny.rs:300-312 | an `env -S` expansion weighs less than the option it replaces |
| Launcher.ProgramFromFacts | crates/core/src/shell_deny.rs:276-320 | a program found is neither assignment nor wrapper, and an expansion is lighter than its argv |
| Launcher.LaunchedLoop | crates/core/src/shell_deny.rs:246-274 | the expansion loop ends for every argv, also when a string holds another `-S` |
| Launcher.LaunchedHead | crates/core/src/shell_deny.rs:246-274 | the result is empty or starts with neither assignment nor wrapper |
| Launcher.LaunchedIsSuffix | crates/core/src/shell_deny.rs:246-274 | without a split string the result is a suffix of the argv |
| Launcher.LaunchedIsIdempotent | crates/core/src/shell_deny.rs:246-250 | looking for the launched argv twice is looking once |
| Launcher.GluedValueIsShorter | crates/core/src/shell_deny.rs:375-418 | the value of an option is at least two characters shorter than the word it is glued into |
| Unwrap.UnwrapLaunchers | crates/core/src/os_guard.rs:242-267 | the peeling loop ends for every argv, with its failing slice as an outcome of its own |
| Unwrap.StripEscalator | crates/core/src/os_guard.rs:315-366 | peeling an escalator leaves a strictly shorter suffix, or a command line |
| Escalation.EscalatorLeaves | crates/core/src/os_guard.rs:315-366 | what is left starts behind the escalator's options with their values and behind an end mark |
| Escalation.ChrootLeaves | crates/core/src/os_guard.rs:315-366 | `chroot` drops its new root as well |
| Escalation.SuRunsItsLine | crates/core/src/os_guard.rs:315-366 | `su` with a command option gives that option's line, wherever it stands before the end mark |
| Escalation.SuLeaves | crates/core/src/os_guard.rs:315-366 | without one it drops its user name unless that word could delete |
| Unwrap.LaunchedIsLighter | crates/core/src/os_guard.rs:260-265 | a launched argv that differs weighs less |
| Unwrap.PeelsUntilStable | crates/core/src/os_guard.rs:239-267 | what peeling leaves cannot be peeled again |
| Unwrap.OverrunIff | crates/core/src/os_guard.rs:242-267 | for every argv the slice fails exactly when peeling comes to a round whose launched program has more words |
| Unwrap.LaunchedLength | crates/core/src/os_guard.rs:260-265 | that is exactly when the split strings gain more words than stand before the program; no word is lost or made up |
| Unwrap.EnvSplitLaunches | crates/core/src/shell_deny.rs:246-320 | `env -S STRING REST` launches the words of the string and then the rest |
| Unwrap.EnvSplitOverrunsIff | crates/core/src/os_guard.rs:264 | for `env -S STRING REST` whose string starts with a program: fails exactly when the string has more than three words or peeling what it launches fails |
| Unwrap.UnwrapWithoutSplit | crates/core/src/os_guard.rs:240-267 | without a possible split string peeling never fails and only drops words in front |
| Unwrap.FourWordsOverrun | crates/core/src/os_guard.rs:264 | the concrete argv that fails |
| SplitLine.Words.Flush | crates/core/src/os_guard.rs:799-808 | a finished word joins the command unless it is a redirection target |
| SplitLine.Words.EndCommand | crates/core/src/os_guard.rs:810-816 | a command that has words is split off at its level, and nothing of it stays |
| SplitLine.Words.Redirect | crates/core/src/os_guard.rs:820-836 | an fd number and the operator are dropped and the next word is a target |
| SplitLine.ReadParens | crates/core/src/os_guard.rs:950-967 | the loop captures the body up to the matching parenthesis outside quotes |
| SplitLine.ReadBackticks | crates/core/src/os_guard.rs:969-979 | the loop captures the body up to the closing backtick |
| SplitLine.SplitLine | crates/core/src/os_guard.rs:844-947 | the loop over the mutable word buffer reads the line as the grammar says; every substitution body is shorter than the line, and quoted words joined with spaces come back as one command at level 0 |
| SplitLine.NestedIsShorter | crates/core/src/os_guard.rs:157-163 | every substitution body is strictly shorter than the line it came from |
| SplitLine.CaptureParens | crates/core/src/os_guard.rs:950-967 | a captured body and what follows it are no longer than the input |
| SplitLine.CaptureBackticks | crates/core/src/os_guard.rs:969-979 | the same between backticks |
| SplitLine.SplitUndoesQuoting | crates/core/src/os_guard.rs:793-947 | under the POSIX and PowerShell grammars any words, single-quoted and joined, come back as one command at level 0 with no nested body (section 2.2.2 of IEEE Std 1003.1-2017 Shell Command Language) |
| SplitScript.ScriptComesBack | crates/core/src/os_guard.rs:793-979 | under all three grammars the text of any script of words, redirections, separators, parentheses and comments splits into exactly its commands, each with its words and level, and its substitution bodies |
| SplitScript.CommandsComeBack | crates/core/src/os_guard.rs:844-947 | any non-empty commands with any of `;`, newline, one or two bars, one or two ampersands between them come back as those commands at level 0 |
| SplitScript.ItemRuns | crates/core/src/os_guard.rs:872-941 | what a word, redirection, comment, separator or parenthesis adds, whatever stands around it |
| SplitScript.PartRuns | crates/core/src/os_guard.rs:861-911 | plain, quoted, escaped and substituted parts of a word come back as they are |
| SplitScript.ParensCaptured | crates/core/src/os_guard.rs:950-967 | a body whose parentheses match outside closed quotes is captured exactly |
| SplitScript.TickCaptured | crates/core/src/os_guard.rs:969-979 | a backtick body comes back without its escapes |
| Base64.ShiftIn | crates/core/src/os_guard.rs:577-605 | the 16-bit mask keeps every live bit when a character enters the accumulator |
| Base64.ShiftOut | crates/core/src/os_guard.rs:577-605 | the byte that leaves is the leading eight live bits |
| Base64.Accumulate | crates/core/src/os_guard.rs:577-605 | fewer than eight bits stay pending, and bytes and pending bits together are the bits read so far |
| Base64.DecodeBytes | crates/core/src/os_guard.rs:577-605 | refuses exactly the texts with a foreign character before the padding, and otherwise gives all whole bytes of the bit string (section 4 of RFC 4648) |
| Base64.DecodingIsUnique | crates/core/src/os_guard.rs:577-605 | a text stands for one byte sequence only |
| Base64.EncodingDecodes | crates/core/src/os_guard.rs:1654-1672 | what the encoder wrote stands for exactly the bytes it was given, for every padding length |
| Base64.EncodedBody | crates/core/src/os_guard.rs:1654-1672 | the text before the padding is base64 and has the encoder's values |
| Base64.UnitsRoundTrip | crates/core/src/os_guard.rs:596-604 | little-endian pairs give back the 16-bit units |
| Base64.DecodeUnits | crates/core/src/os_guard.rs:577-605 | for every sequence of 16-bit units the decoder gives back what the encoder wrote |
| Publish.Reconcile | scripts/release/publish-cargo-crate.js:212-229 | reports presence only right after a lookup that was present and verified, uses all its polls otherwise, paces them by the delay, and never uploads |
| Publish.TryOnce | scripts/release/publish-cargo-crate.js:257-288 | one upload and one reconciliation, with the polls its exit asks for |
| Publish.PublishCrate | scripts/release/publish-cargo-crate.js:231-292 | against any registry: success exactly when a lookup was verified, at most `attempts` uploads and none after exit 0, the bound on lookups, the exact sum of retry sleeps and poll sleeps, and each outcome named rightly |
| Publish.Backoff | scripts/release/publish-cargo-crate.js:288 | the sleeps between k attempts add up to retryBaseMs*(2^(k-1)-1) |

## Left out

- Panics of the detached engine tasks: the join errors of `execute` and `shutdown` are not steps of `Engine`.
- Dispatch, lane draining, the store actor and receipts behind `Engine`: one opaque step each, with any outcome.
- Fairness of the runtime and of hosts: `EveryCallFinishes` bounds how long the engine runs and says exactly where it rests, not that it is scheduled or that a host polls.
- The loopback HTTP page (tokens, form parsing, replies), the native dialogs and the PTY internals: abstract steps in `Credential`; the PTY's awaiting flag and generation are read as one.
- What callers of the broker are told (pending, timeout, CLI command line): only the shared outcome is modelled.
- The bucket and ring managers (maps by id, create, drop, not-found errors) and the persistence of events: one bucket or ring at a time.
- Bucket.Bucket.EvictExpired: timestamps are unbounded integers, so the overflow of the date type is not modelled; a stale event behind a fresh one stays, as in the code.
- Event text, captures, tags, rules and ids: carried by no property here, so `Bucket.Event` keeps the fields that counters, filters and eviction use.
- `head` of the ring (crates/core/src/context.rs:344-367) and the JSON shape of windows.
- ContextRing.Ring.Push: the byte total is unbounded, because all counted text is in memory at once.
- `launcher_chdir` and the working directory carried along while peeling launchers: only the slice it is given is modelled.
- The deny tables and path checks built on the parsers: lists of names, not theorems.
- SplitLine.SplitUndoesQuoting: states nothing for the `cmd` grammar, which has no single quotes; its words, escapes and double quotes are covered by `SplitScript.ScriptComesBack`.
- SplitScript.ScriptComesBack: texts that end inside a quote, a substitution or an escape are not scripts; what the loop makes of them is stated by `SplitLine.Run` only.
- The last step of the decoder, from 16-bit units to text with replacement characters.
- Publish.PublishCrate: numbers are exact integers, so delays beyond double precision or the timer's range are not modelled; the form checks of names and digests are one flag, and fetching, unpacking and digesting an archive is one answer.
- Activation, jobs, recipes, policy, sifters, IPC wire shapes, CLI rendering and update locks: would only add easier members.
