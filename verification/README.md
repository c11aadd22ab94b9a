# Side effects that happen once

The ChatgptREST driver automates a web page for many callers, and most of what it does must not be repeated: a prompt
must be sent once per idempotency key, a regenerate click is rationed, a blocked account must be left alone, proxy
settings must come back after they were put aside, a requirement must not be processed again. This project models the
machinery that guards those effects and proves what it guarantees over whole runs, and exactly where it does not.

Source code that changes state step by step is a class whose methods change the same fields in the same order; each
method is proved against a function of its old state, and the theorems are about runs of those functions.

| file | what it models |
|---|---|
| `Ledger.dfy`, `LedgerRuns.dfy` | the idempotency ledger: `begin` with its eight branches, `update` with its monotonic guards, and runs of both with restarts |
| `Jobs.dfy` | the in-process job registry: one live task per key, delayed cleanups |
| `Ask.dfy` | the ask tool, and ledger, registry, jobs, restarts and concurrent asks as one transition system |
| `Repeats.dfy` | exactly when that system sends a prompt again, and a run for each way it does |
| `Answers.dfy` | offloading long answers, and what counts as a reference to a full answer |
| `Limiter.dfy`, `LimiterRuns.dfy` | the two persisted limiters, their aligned windows and their forgetting |
| `Backoff.dfy` | the blocked state and its exponential backoff |
| `Proxy.dfy` | ref-counted suppression of proxy variables under overlapping contexts |
| `AnswerWait.dfy` | deciding from a stream of page observations that an answer has settled |
| `Processed.dfy`, `Recency.dfy` | the bounded cache of processed ids and its file; histories by latest occurrence |
| `SourceScores.dfy` | the source score ledger and its reachable scores |
| `ExportChain.dfy` | the conversation tree built from page messages |
| `MemoryLog.dfy` | the byte-bounded JSON-lines log and its digest |
| `Text.dfy`, `Wrappers.dfy` | `strip`, `lower`, `in`; options and the time unit |

## What is proved, in short

* **One sender.** `Repeats.PromptsAreAccountedFor` covers every interleaving of the pieces of concurrent asks, waits, job
  updates, job ends, late cleanups and restarts: a key's prompt goes out at most once, plus once for every job that ended
  after sending and before recording it, plus once for every send job that a stale read started on a row already marked
  sent; and it says exactly when it goes out again. When an ask is one step (ledger call, decision and job start without
  an await in between) a prompt is repeated if and only if an earlier one was lost (`Repeats.ExactlyOneSender`). The
  source does await between those pieces.
* **The lease is the ledger's, not the ask's.** The ledger gives a second permission only after a recorded failure or
  after a lease of at least 15 or 30 seconds (`LedgerRuns.LeaseBetweenPermissions`). The ask tool ignores the refusal
  when the row is unsent and holds no result, unless the refusal is a collision; `Ask.AskStartsSendIff` says exactly when
  it starts a send.
* **Limits are kept and used.** No limiter grants too much (`LimiterRuns.LimiterSafety`), and with windows of at least two
  seconds none refuses too early: a call is allowed exactly if interval and window have room (`LimiterRuns.AllowedIff`).
  With windows of one second the tolerance can refuse too early (`LimiterRuns.OneSecondWindowsRefuseEarly`).
* **Absorbing facts, limiter safety, exact suppression, sound and complete settling, exact caches and logs**: see the
  table.

Seven properties one might expect are false of the code. Each is stated with its exact condition:

* A prompt goes out once per key: it goes out again exactly if a job sends that was started stale after a prompt, or any
  other job sends after a prompt was lost (`Repeats.PromptsAreAccountedFor`; `Repeats.SentAgainIff` if jobs record only
  what happened). A start is stale exactly if an ask that passed its check and wants to send finds a row that says sent
  and no live job (`Repeats.StaleStartIff`). Three runs show the three gaps.
* The ask tool respects the ledger's refusal: exactly if the row is sent, holds a result, a job of its key is live, or the
  refusal is a collision (`Ask.AskStartsSendIff`).
* A reference to a full answer leads to one: exactly if the save of that answer succeeded (`Answers.ReferenceIsRealIff`).
* A stored reference to a full answer stays: it is dropped by exactly the updates whose own result has none
  (`LedgerRuns.ReferenceDroppedIff`).
* A retry at the advertised time of a full window is granted: exactly if windows are longer than a second and the
  interval has passed (`LimiterRuns.RetryOnTimeIff`).
* The advertised wait of a block is long enough: exactly if no fraction of a second was rounded away
  (`Backoff.RetryAfterIsEnoughIff`; the source comment says "ceil", the code rounds down).
* A record in the memory log reaches the digest's reader: exactly if its line holds none of the separators that
  `splitlines` knows (`MemoryLog.DigestSeesSurvivingLines`); records are written with U+0085, U+2028 and U+2029 unescaped.

## How the source is read

* Every block under a file lock is one step, and its write succeeds. Time is a whole number of microseconds, passed in.
* Hashes and generated ids are values; generated node ids are assumed distinct, as `uuid4` promises.
* A status is kept stripped and lower-cased, the only form in which the code compares it.
* Jobs, the browser, the JSON parser and the file writer are the environment: their results are parameters or events.
  One run of a send job counts as one prompt, including its own retry of the send button.
* In `Ask`, a job's updates may be anything, but only a job sets the sent flag: a send job after sending or on finding the
  prompt already there, a waiting job at its end. `OtherUpdate` also covers the write-backs that repeat the row's own flag.

## Model

| member | source | states |
|---|---|---|
| Answers.ResultDict.Offload | chatgpt_web_mcp/_answers.py:237-299 | In place: the new result dictionary for any limit and any outcome of the file writer, and exactly which text the writer was given, if any. |
| Answers.OffloadSequences | chatgpt_web_mcp/_answers.py:237-299 | From a fresh answer, under any sequence of limits and of failing or succeeding saves: the visible answer is a prefix whose length is the tightest positive limit (a blank preview freezes it), the advertised length stays the original, truncation flag and full-answer reference hold exactly when something was cut, and the only text ever written is the whole answer, at most once. |
| Answers.OffloadTwice | chatgpt_web_mcp/_answers.py:250-286 | Repeating a limit changes nothing and writes nothing, for any result and any writer behaviour. |
| Answers.ReferencedIsNotWritten | chatgpt_web_mcp/_answers.py:254-268 | A result that names an answer file is never written again; its preview keeps id, path, sum and format, is marked saved unless it says otherwise, and keeps the length it was told. |
| Answers.ReferenceIsRealIff | chatgpt_web_mcp/_answers.py:250-297 | From a fresh answer, under any limits and saves: a result that passes as a reference holds the id and the path of the one file written, whose text is the original answer, if and only if that write succeeded, and its saved flag says which. |
| Answers.UnsavedPreviewCountsAsReference | chatgpt_web_mcp/_answers.py:279-286 | The failing case of the above: after one failed save the truncated result has no id and no path, yet passes as a reference to a full answer. |
| Ledger.BlankRetryWindow | chatgpt_web_mcp/idempotency.py:95-99 | The configured window, raised to 15 seconds, and for Gemini tools under internal keys capped at 30. |
| Ledger.IdempotencyLedger.Begin | chatgpt_web_mcp/idempotency.py:184-375 | One call rewrites the rows and answers exactly as the branch function and its effect say. |
| Ledger.IdempotencyLedger.BeginOtherRequest | chatgpt_web_mcp/idempotency.py:212-257 | The hash-mismatch part: override of a failed internal row, replay of a sent row, otherwise a collision. |
| Ledger.IdempotencyLedger.BeginInProgress | chatgpt_web_mcp/idempotency.py:284-358 | The in-progress part: blank reset, blank wait, stale reset or replay. |
| Ledger.IdempotencyLedger.Update | chatgpt_web_mcp/idempotency.py:378-487 | An update writes the merged row, and nothing if the key has none. |
| Ledger.IdempotencyLedger.GuardUrl | chatgpt_web_mcp/idempotency.py:428-443 | The URL an update may still write, against the rule that a URL only improves and a thread never changes. |
| Ledger.IdempotencyLedger.GuardResult | chatgpt_web_mcp/idempotency.py:445-458 | The result an update may still write: a shorter answer is completed from the stored one unless it refers to a full one. |
| Ledger.BeginExecutesExactlyWhenOpen | chatgpt_web_mcp/idempotency.py:207-374 | Permission is given if and only if the row is absent, or unsent and free (failed, or silent past its window and reclaimable); without permission nothing is written. |
| Ledger.EveryBranchIff | chatgpt_web_mcp/idempotency.py:212-360 | Each branch by what can be read in the row: a collision exactly on an unsent row of another request that is not a failed internal one, a takeover on one that is, a replay of the sent ones; a retry after a failure; a takeover of a silent attempt after its window, blank or not. |
| Ledger.SentRowsAreReplayed | chatgpt_web_mcp/idempotency.py:246-252 | A sent row is handed back as it is and nothing is written, with a hash mismatch or without; an absent row is inserted for the caller. |
| Ledger.ReclaimableTools | chatgpt_web_mcp/idempotency.py:87-92 | Only internal keys of Gemini tools may take a blank row back from their own process. |
| Ledger.PermissionLeavesCleanRow | chatgpt_web_mcp/idempotency.py:218-245 | Every permission comes from an absent or unsent row and leaves it unsent, in progress, error-free, stamped with this runtime and time and carrying the caller's hash; another attempt of the same request keeps URL, result and creation time, any other request starts from nothing; no other key changes. |
| Ledger.ReturnedRecordIsCurrent | chatgpt_web_mcp/idempotency.py:207-374 | The record handed to the caller agrees with the row then stored on request, sent flag, URL, result and, except after a retried failure, status. |
| Ledger.UpdateRecordsWhatItIsGiven | chatgpt_web_mcp/idempotency.py:421-483 | After an update the row has the given status unless it was completed, the given error, the sent flag once anyone set it, and the given URL exactly if it says more than the stored one (a first page, a first thread); request, creation and owner stay. |
| Ledger.ResultIsRecorded | chatgpt_web_mcp/idempotency.py:445-458 | A given result is stored with all its fields, its answer too unless it is shorter than the stored one and refers to no full answer; only then the stored answer, and a format that was not given, stay. |
| Ledger.FailureOpensRetry | chatgpt_web_mcp/idempotency.py:267-278 | An error, block or cooldown recorded before anything was sent makes the next call of the same request a permission, at any time and from any process. |
| LedgerRuns.StepAbsorbs | chatgpt_web_mcp/idempotency.py:218-245 | One step keeps the absorbing facts of every row; without an override it also keeps its request, and its URL rank does not fall. |
| LedgerRuns.RunAbsorbs | chatgpt_web_mcp/idempotency.py:420-443 | Over any run of calls, updates and restarts: rows never disappear, sent and completed never revert, once sent the request and the conversation thread are frozen and the URL rank never falls; without an override that holds before the send too. |
| LedgerRuns.OtherKeysUntouched | chatgpt_web_mcp/idempotency.py:197-206 | A row is changed only by calls that name its key. |
| LedgerRuns.LeaseHolds | chatgpt_web_mcp/idempotency.py:267-278 | From a permission on, and through any run without a recorded failure, the row stays, is written no earlier, and is never free through failure. |
| LedgerRuns.LeaseBetweenPermissions | chatgpt_web_mcp/idempotency.py:267-358 | Between two permissions for a key either an update recorded a failure while it was unsent, or at least 15 seconds (30 for a row with traces) passed since its last write; a blank row changes hands only for an internal key whose owner was replaced or whose tool may reclaim from itself. |
| LedgerRuns.SecondPermissionIff | chatgpt_web_mcp/idempotency.py:284-333 | The lease of an attempt that left no trace is met exactly: a second call gets permission if and only if the key is internal, its retry window has passed, and the process was replaced or the tool may reclaim from itself. |
| LedgerRuns.HeldRowNeverHandedOut | chatgpt_web_mcp/idempotency.py:296-333 | A blank row under an outside key, or held by the live runtime under a tool that may not reclaim, gets no permission in any run without an update of its key (and, for internal keys, without a restart), and does not move. |
| LedgerRuns.UpdateKeepsAnswer | chatgpt_web_mcp/idempotency.py:445-458 | A stored answer gets shorter exactly when the new result is shorter and refers to a full answer. |
| LedgerRuns.AnswerNeverShrinks | chatgpt_web_mcp/idempotency.py:445-458 | Over runs of a sent row with no reference-bearing results, the stored answer never gets shorter. |
| LedgerRuns.ReferenceDroppedIff | chatgpt_web_mcp/idempotency.py:445-458 | A stored full-answer reference is lost exactly by an update whose own result has none. |
| LedgerRuns.FullAnswerCanBecomeUnreachable | chatgpt_web_mcp/idempotency.py:448-458 | For any full answer, referring preview and longer unreferenced partial, updated in this order, only the partial remains. |
| Jobs.JobRegistry.GetRunningJob | chatgpt_web_mcp/_tools_impl.py:193-198 | Finds the key's job exactly if its task is live. |
| Jobs.JobRegistry.GetOrStartJob | chatgpt_web_mcp/_tools_impl.py:201-225 | Joins the live job of the key, or replaces a done entry with a new task. |
| Jobs.JobRegistry.TaskDone | chatgpt_web_mcp/_tools_impl.py:218-224 | A task that ends is no longer live and has its cleanup scheduled. |
| Jobs.JobRegistry.CleanupJob | chatgpt_web_mcp/_tools_impl.py:186-190 | Removes the entry of the key only if it is still this task's. |
| Jobs.StartsTheKindAskedFor | chatgpt_web_mcp/_tools_impl.py:207-225 | A key without a live job gets a new one of the kind asked for; a key with one keeps it, whatever is asked for; other keys do not notice. |
| Jobs.LateCleanupIsHarmless | chatgpt_web_mcp/_tools_impl.py:186-190 | A late cleanup never takes away a newer task's entry or changes what a lookup finds. |
| Jobs.SingleFlight | chatgpt_web_mcp/_tools_impl.py:182-225 | Under every interleaving of starts, ends, delayed cleanups and restarts: at most one live task per key, each the one a lookup finds, and an empty registry once all is done and cleaned up. |
| Ask.AskTool.Ask | chatgpt_web_mcp/_tools_impl.py:7185-7315 | The whole tool up to the job it waits for, by what the row said before: a collision exactly on an unsent row of another request without permission; the cached reply exactly if a readable result is stored, there is no collision and no permission; a refusal exactly if the row says sent, no URL is known and no job is live; otherwise the live job, or a new one that waits if the row says sent and sends if not. Rows and registry are those that the unsplit ask of the transition system reaches. |
| Ask.PlanIsCurrent | chatgpt_web_mcp/_tools_impl.py:7185-7240 | The plan made from one ledger call knows whether the row says sent, and the call does not change that. |
| Ask.LaunchKeeps | chatgpt_web_mcp/_tools_impl.py:201-225 | Starting or joining a job, stale or not, keeps the balance of prompts for every key. |
| Ask.NextKeeps | chatgpt_web_mcp/_tools_impl.py:7185-7325 | Every event of the service keeps the invariant: a job that may still send has an unsent row, an ask told of a send was told the truth, and every prompt is accounted for. |
| Repeats.NextExact | chatgpt_web_mcp/_tools_impl.py:7185-7325 | Every event keeps the tallies exact: each loss was a prompt, and as long as the row does not say sent no start was stale and every prompt was lost or is about to be recorded. |
| Repeats.PromptsWereLost | chatgpt_web_mcp/_tools_impl.py:7185-7315 | In every run, when a job that was not started stale is about to send, the prompts of its key so far are exactly the lost ones. |
| Repeats.PromptsAreAccountedFor | chatgpt_web_mcp/_tools_impl.py:7185-7315 | In every run, split asks included, prompts of a key are at least the lost ones and at most one plus lost records plus stale starts, and there is a second one if and only if a stale job sends after a prompt or another job sends after a lost one. |
| Repeats.SentAgainIff | chatgpt_web_mcp/_tools_impl.py:7895-7906 | If jobs record only prompts that went out, a prompt is repeated if and only if some job sends that was started stale or that follows a lost prompt. |
| Repeats.StaleStartIff | chatgpt_web_mcp/_tools_impl.py:7277-7315 | A step starts a send job on a row that says sent if and only if it is the last piece of a split ask that passed its check, wants to send, and finds no live job. |
| Ask.AtomicStep | chatgpt_web_mcp/_tools_impl.py:7235-7315 | An ask without awaits starts a send only on a row that does not say sent, and no other event starts one. |
| Repeats.ExactlyOneSender | chatgpt_web_mcp/_tools_impl.py:7185-7315 | In every run of unsplit asks, no send job is started on a row that says sent, prompts of a key are at most one plus lost records, and there is a second one if and only if a job sends after a prompt was lost. |
| Ask.AskStartsSendIff | chatgpt_web_mcp/_tools_impl.py:7188-7315 | An ask starts a send exactly if no job of the key is live, the row does not say sent, and either the ledger gives permission or the row is of the same request and holds no readable result. |
| Ask.AskAnswersByRow | chatgpt_web_mcp/_tools_impl.py:7185-7315 | The answer of the plan made from the ledger's reply is the one the row alone determines, for every row, caller, time and registry. |
| Ask.SendsItsOwnRequest | chatgpt_web_mcp/_tools_impl.py:7188-7315 | A send is only ever started under an unsent row that carries the request the ask was made for. |
| Ask.ResumesWhereTheRowSays | chatgpt_web_mcp/_tools_impl.py:7236-7240 | A waiting job goes to the URL the row knows, and to the caller's only if the row knows none. |
| Ask.LaunchStarts | chatgpt_web_mcp/_tools_impl.py:207-225 | The job that a step of the transition system starts is the registry's live job of the key, of the kind asked for. |
| Ask.AskIgnoresTheLease | chatgpt_web_mcp/_tools_impl.py:7188-7264 | For every unsent row of the same request without a readable result whose lease the ledger refuses to hand out, an ask with no live job starts a send all the same. |
| Repeats.SplitAskCanSendTwice | chatgpt_web_mcp/_tools_impl.py:7185-7315 | A run in which two overlapping asks send two prompts although nothing was lost: the second decided on a read made before the first one's send. |
| Repeats.PassedCheckCanSendTwice | chatgpt_web_mcp/_tools_impl.py:7276-7315 | A run in which an ask that knows the prompt was sent passes the running-job check, and sends it again because that job ends before the start. |
| Repeats.RestartBeforeRecordingCanSendTwice | chatgpt_web_mcp/_tools_impl.py:7895-7906 | A run in which a restart between sending and recording leads to a second prompt at once. |
| Limiter.LimiterFile.ReserveRegenerate | chatgpt_web_mcp/_tools_impl.py:968-1095 | Decision, counters and new table of one regenerate reservation, including the unconfigured bypass. |
| Limiter.LimiterFile.ReserveRefresh | chatgpt_web_mcp/_tools_impl.py:1116-1248 | Decision, counters and new table of one refresh reservation, including the unconfigured bypass. |
| Limiter.SortedKeys | chatgpt_web_mcp/_tools_impl.py:1061-1070 | The conversations, each once, newest grant first. |
| Limiter.Newest | chatgpt_web_mcp/_tools_impl.py:1058-1074 | Compaction keeps 200 unchanged entries, none older than one it drops. |
| LimiterRuns.GrantKeepsCount | chatgpt_web_mcp/_tools_impl.py:1013-1057 | With the one-second tolerance the stored count still never falls below the number of grants in the current aligned window. |
| LimiterRuns.LimiterSafety | chatgpt_web_mcp/_tools_impl.py:1013-1057 | For a conversation that is not evicted, over any run of either limiter: grants are an interval apart, at most the maximum fall in any aligned window, and at most twice that in any stretch of a window's length. |
| LimiterRuns.ForgetsOnlyTheOldest | chatgpt_web_mcp/_tools_impl.py:1058-1074 | At every point of every run: the file has at most 220 entries, each with the time of its conversation's latest grant, and a granted conversation that is missing has at least 200 others whose latest grants are no earlier than its own. |
| LimiterRuns.FewOthersNeverEvict | chatgpt_web_mcp/_tools_impl.py:1209-1225 | In a run that grants fewer than 220 other conversations, a granted conversation stays in the file. |
| LimiterRuns.LimiterSafetyFromCalls | chatgpt_web_mcp/_tools_impl.py:1161-1207 | So in every run that grants fewer than 220 others, a conversation's grants keep the interval, the maximum in every aligned window and twice that in any stretch of a window's length. |
| LimiterRuns.JustGrantedIsRemembered | chatgpt_web_mcp/_tools_impl.py:1058-1074 | On a strictly increasing clock the conversation just granted survives compaction, in any run. |
| LimiterRuns.AllowedIff | chatgpt_web_mcp/_tools_impl.py:1013-1057 | Over any run, for a conversation that is not evicted and windows of at least two seconds: a call is allowed if and only if the interval has passed since its latest grant and fewer than the maximum of its grants fall in the aligned window of the call. |
| LimiterRuns.AllowedIffFromCalls | chatgpt_web_mcp/_tools_impl.py:1161-1207 | The same from the calls alone, in runs that grant fewer than 220 other conversations. |
| LimiterRuns.ReportsTheHistory | chatgpt_web_mcp/_tools_impl.py:1083-1095 | In such runs the reported latest grant and count are those of the history; a regenerate counts the call itself, a refresh does not. |
| LimiterRuns.OneSecondWindowsRefuseEarly | chatgpt_web_mcp/_tools_impl.py:1035-1045 | With windows of one second a run refuses a call although nothing was granted in its window. |
| LimiterRuns.GrantWithoutWindows | chatgpt_web_mcp/_tools_impl.py:1199-1207 | While windows do not count, a refresh leaves the stored window as it is, a regenerate forgets it. |
| LimiterRuns.AdvertisedTimesAreNotTooLate | chatgpt_web_mcp/_tools_impl.py:1030-1045 | Until the advertised time of the interval the interval refuses, and until that of the window the window. |
| LimiterRuns.AdvertisedRetryIsGranted | chatgpt_web_mcp/_tools_impl.py:1030-1045 | A refused reservation that waits for both advertised times is granted, for windows of at least two seconds. |
| LimiterRuns.WindowOpensOnTimeIff | chatgpt_web_mcp/_tools_impl.py:1161-1185 | Whenever a full window refuses, at any time and with any stored window, it is open at the advertised time if and only if windows are longer than a second. |
| LimiterRuns.RetryOnTimeIff | chatgpt_web_mcp/_tools_impl.py:1030-1045 | At every point of every run, a call refused by its window that comes back at the advertised time is granted if and only if windows are longer than a second and the interval has passed by then. |
| Backoff.BlockedFile.SetBlocked | chatgpt_web_mcp/_tools_impl.py:1442-1502 | The state written for a block, with strike count and scaled cooldown. |
| Backoff.BlockedFile.ClearBlocked | chatgpt_web_mcp/_tools_impl.py:1505-1508 | Returns the previous state and forgets block and strikes. |
| Backoff.BlockedFile.EnforceNotBlocked | chatgpt_web_mcp/_tools_impl.py:1515-1553 | Refuses exactly while blocked, for actions the reason does not permit. |
| Backoff.StrikesAreCounted | chatgpt_web_mcp/_tools_impl.py:1449-1474 | After any run of blocks and clears the stored count is the number of strikes in a row that the events themselves end with, and cooldown and end of block follow from it. |
| Backoff.CooldownDoubles | chatgpt_web_mcp/_tools_impl.py:1464-1466 | From one strike to the next the cooldown doubles up to the cap; without a base, a cap or a counted strike it is the base. |
| Backoff.CooldownsClimbToTheCap | chatgpt_web_mcp/_tools_impl.py:1464-1466 | The cooldown starts at the base, never falls along a streak, and ends at the cap. |
| Backoff.RefusedIff | chatgpt_web_mcp/_tools_impl.py:1515-1553 | Any action is refused exactly while the block of the latest event lasts, blocks are not ignored, and its reason does not let the action through. |
| Backoff.AllowedIff | chatgpt_web_mcp/_tools_impl.py:1515-1526 | What a block lets through: nothing after a rate limit of the page, otherwise the two probes, and waiting and exporting for the three passing reasons. |
| Backoff.SendRefusedIff | chatgpt_web_mcp/_tools_impl.py:1528-1553 | A send is refused exactly while the block of the latest event lasts. |
| Backoff.RetryAfterIsEnoughIff | chatgpt_web_mcp/_tools_impl.py:151-164 | A wait is advertised exactly while a send is refused, and is long enough exactly if no fraction of a second was rounded away. |
| Proxy.ProxyGuard.Enter | chatgpt_web_mcp/proxy.py:41-51 | Entering counts, and the first entry puts the proxy variables aside. |
| Proxy.ProxyGuard.Exit | chatgpt_web_mcp/proxy.py:53-65 | Leaving counts down, and the last exit puts them back. |
| Proxy.ProxyGuard.PopProxyKeys | chatgpt_web_mcp/proxy.py:47-48 | Removes exactly the eight proxy variables. |
| Proxy.ProxyGuard.EnvForSubprocess | chatgpt_web_mcp/proxy.py:27-37 | The non-empty variables put aside, while suppression is on. |
| Proxy.GuardMatchesView | chatgpt_web_mcp/proxy.py:41-65 | For any interleaving of contexts left in any order and writes by others, the counter is the number of open contexts, and environment and baseline are those of a view that has neither. |
| Proxy.SuppressionIsExact | chatgpt_web_mcp/proxy.py:41-65 | Without outside writes to proxy variables: none is visible while any context is open, all are back exactly when the last closes, and all other variables are untouched throughout. |
| Proxy.SubprocessSeesOriginalProxies | chatgpt_web_mcp/proxy.py:27-37 | While suppressed, environment plus baseline shows a proxy variable exactly if it had a non-empty value, with that value. |
| Proxy.InnerWritesAreForgotten | chatgpt_web_mcp/proxy.py:60-65 | What others write to proxy variables during a suppression is lost when it ends. |
| AnswerWait.WaitForAnswer | chatgpt_web_mcp/_tools_impl.py:4898-5042 | Both loops over the polls made before the deadline, with every way to return or fail. |
| AnswerWait.ReturnedAnswerIsSettled | chatgpt_web_mcp/_tools_impl.py:4958-5030 | A timely answer is non-empty, long enough, not the old one, with no stop button and no sandbox at that poll, and the last five polls that saw a message agree on text and count; otherwise the last such poll decides between a late answer, one that is too short, and none. |
| AnswerWait.FiveCleanPollsReturn | chatgpt_web_mcp/_tools_impl.py:4965-5029 | Five polls in a row (skipping those without a message) that agree on text and count make the wait return no later than at the fifth, if that one is clean and no sandbox was open at the three before it. |
| AnswerWait.NotStartedIff | chatgpt_web_mcp/_tools_impl.py:4918-4955 | A wait fails to start exactly if no poll shows a message beyond the old ones (unless a new one is wanted and the page quietly shows the old text) and none shows another text. |
| Recency.LatestOneMore | chatgptrest/pipeline.py:273-276 | A new occurrence moves its element to the end of the order by latest occurrence. |
| Recency.BoundedOneMore | chatgptrest/pipeline.py:277-278 | Forgetting old elements before a new occurrence or only after it makes no difference. |
| Recency.LatestSplit | chatgptrest/pipeline.py:273-279 | Behind an element's latest occurrence stand exactly the distinct later ones. |
| Processed.Pipeline.LoadProcessed | chatgptrest/pipeline.py:255-267 | Loads the first occurrences of the file's ids, bounded to the last 1000; a missing or unreadable file is empty. |
| Processed.Pipeline.MarkProcessed | chatgptrest/pipeline.py:273-279 | Moves or adds the id at the end, evicts the oldest beyond 1000, and saves. |
| Processed.Pipeline.ScanSessions | chatgptrest/pipeline.py:281-295 | Offers exactly the requirements not in the cache, in order. |
| Processed.SaveThenLoad | chatgptrest/pipeline.py:255-271 | Saving and loading is the identity on everything a cache can hold. |
| Processed.CacheIsRecentHistory | chatgptrest/pipeline.py:255-279 | After any marks and restarts the cache is the last 1000 distinct ids of the history by latest mark, and the file agrees. |
| Processed.FirstKeptPrefix | chatgptrest/pipeline.py:259-260 | Loading keeps first occurrences: later lines of a file never reorder earlier ones. |
| Processed.FreshConcat | chatgptrest/pipeline.py:288-293 | A scan judges each requirement by itself and keeps their order. |
| Processed.OfferedIff | chatgptrest/pipeline.py:281-295 | A scan offers an id exactly if it was never marked or at least 1000 other ids were marked since. |
| SourceScores.CountByCitation | chatgptrest/finbot.py:898-905 | The per-citation edge counts the loop collects, for every citation. |
| SourceScores.ScoreLedger.Update | chatgptrest/finbot.py:911-991 | One package updates the sources row by row, repeated sources included. |
| SourceScores.RowAdds | chatgptrest/finbot.py:918-961 | What a row adds to its source, counted over the positions of the edges that cite it: supported, load-bearing, contradicted, anchor and lead claims, and the maxima and themes. |
| SourceScores.UpdateMergesEachRow | chatgptrest/finbot.py:911-979 | With distinct sources one update merges every named row into its source and leaves every other source alone. |
| SourceScores.EachSignalAlone | chatgptrest/finbot.py:845-865 | What each signal is worth alone, up to its cap. |
| SourceScores.SignalsAdd | chatgptrest/finbot.py:845-865 | A score is the sum of its capped signals. |
| SourceScores.FormulaBounds | chatgptrest/finbot.py:845-864 | On arbitrary counters the formula gives at least -0.05 and at most 1.05. |
| SourceScores.FormulaBoundsAreTight | chatgptrest/finbot.py:845-864 | Both ends are taken by some counters. |
| SourceScores.ReachableScores | chatgptrest/finbot.py:920-979 | Every score reachable from an empty ledger by any packages lies between 0 and 0.9625, because derived counters stay below the supported count and a source leads at most once. |
| SourceScores.TopScoreIsReached | chatgptrest/finbot.py:845-979 | One package with an anchor source behind 24 different claims is enough to reach 0.9625. |
| SourceScores.SupportGrowsByOwnEdges | chatgptrest/finbot.py:922-961 | A source's supported count grows by exactly the edges of its own rows. |
| SourceScores.EdgesAreConserved | chatgptrest/finbot.py:898-961 | With distinct citations the rows count each cited edge once and no other. |
| SourceScores.IncrementsSumToEdges | chatgptrest/finbot.py:898-961 | With distinct sources and citations, one update adds to their supported counts exactly as many claims as edges were passed in, from any ledger. |
| ExportChain.BuildExport | chatgpt_web_mcp/_answers.py:183-234 | The loop builds one chain from the root to the current node through the kept messages, with every link in place. |
| ExportChain.KeptConcat | chatgpt_web_mcp/_answers.py:191-196 | Messages are kept one by one and in order. |
| ExportChain.KeptOne | chatgpt_web_mcp/_answers.py:191-213 | A message is dropped exactly if it has neither role nor visible text, otherwise kept with its text untouched under its lower-case role, or as the assistant's. |
| ExportChain.WalksRecoverMessages | chatgpt_web_mcp/_answers.py:183-214 | Following children from the root and parents from the current node both give the kept messages in order and end there, however many more links one is ready to follow. |
| ExportChain.LinksAgree | chatgpt_web_mcp/_answers.py:211-214 | Every node has at most one child and is a child exactly of the node it names as parent; only the root has none. |
| MemoryLog.MemoryFile.TrimByBytes | ops/_maint_codex_memory.py:61-86 | Cuts the file to its last bytes and drops the first, possibly partial, line of the cut. |
| MemoryLog.MemoryFile.UpdateGlobalMemory | ops/_maint_codex_memory.py:168-190 | Append, trim, bounded tail read and digest in one update. |
| MemoryLog.RenderDigest | ops/_maint_codex_memory.py:100-109 | The digest shows the signatures by latest occurrence, newest first and up to the limit, each by its newest record. |
| MemoryLog.RecentFirstIsByLastRecord | ops/_maint_codex_memory.py:100-109 | The digest's order of signatures: those that have a record, each before all whose last record is older. |
| MemoryLog.TrimKeepsWholeLines | ops/_maint_codex_memory.py:61-86 | Trimming a file of lines leaves it whole if it fits, and otherwise the longest run of lines at the end strictly below the limit. |
| MemoryLog.LogIsSuffixOfHistory | ops/_maint_codex_memory.py:176-180 | After any appends, each with its own trim, the file is a whole-line suffix of everything appended, no larger than a positive last limit. |
| MemoryLog.NewestLineSurvivesIff | ops/_maint_codex_memory.py:61-82 | When an append makes a trim necessary, its line survives if and only if it is smaller than the limit, and otherwise nothing does. |
| MemoryLog.SplitJoin | ops/_maint_codex_memory.py:44-47 | The tail read cuts a file of lines into the pieces of each line, one line after the other. |
| MemoryLog.PiecesOfWhole | ops/_maint_codex_memory.py:44-47 | A line is read back as it was written if and only if it holds no separator of `splitlines`. |
| MemoryLog.IsWholeIff | ops/_maint_codex_memory.py:46 | A text is left whole exactly if no line feed, carriage return, other ASCII separator, U+0085, U+2028 or U+2029 stands anywhere in it. |
| MemoryLog.ParsedConcat | ops/_maint_codex_memory.py:46-55 | Records come in the order of their lines, one for each that parses. |
| MemoryLog.DigestSeesSurvivingLines | ops/_maint_codex_memory.py:26-58 | With a positive limit the digest is made from the newest records, up to the limit, of the pieces of all surviving lines, and a surviving line has a record among those pieces if and only if it parses and holds no separator. |
| MemoryLog.SeparatedRecordIsLost | ops/_maint_codex_memory.py:177-182 | A record with U+2028 between two texts that do not parse survives in the file and leaves no record to the digest. |

## Left out

- Ask.World: the browser work inside a job, and failures of the ledger write itself (the driver swallows them); a write that fails after a send behaves like the loss that the model does count.
- Ask.Event: a second driver process on the same database; the source rules it out.
- `WaitStart` lets the wait tool start a waiting job for any row, while the source needs a stored URL; the theorems cover more runs.
- Ledger.NextResult: the fields of a result that the ledger and the offload only carry along are one opaque value; stored JSON that parses to something other than a dictionary reads as no result.
- Text.Lower: lower-casing covers the ASCII letters; tools, actions and roles have no others.
- Limiter: the phase and reason texts, and entries of the state file that are not dictionaries.
- LimiterRuns.LimiterSafety: the clock must be past the length of the first window, because a window that starts at zero is never recognised again; conversations that compaction drops start over (`LimiterSafetyFromCalls` says when none is).
- Backoff: the artifact and event-log fields of a blocked state.
- Proxy: the exception flow through `return` inside `finally`; only environment and counter are modelled.
- AnswerWait: the observation counters kept for telemetry, and idle mouse movement.
- SourceScores: rounding to three digits, trend labels, quality bands, support history, and building the edges from claims, which is a plain deduplication by id.
- MemoryLog: decoding of bytes that are not UTF-8, which only the parser (a parameter) would see; the bootstrap text merged into the digest.
- Merging citation lines of research reports, `_has_semantic_reversal`, and the detection of an existing sources section: string clean-up.
- Browser automation, network logging, command line clients, prompts and model lanes, routing and dispatch.
