# CyNodeAI orchestrator: a verified model

This project models the parts of CyNodeAI whose correctness depends on several pieces working together,
and proves properties of the model with Dafny 4.11: the orchestrator's shared tables under concurrent
handlers and the dispatcher loop, the workflow lease and its start gate, task naming, the password hash
codec, the rate limiter, preferences and pagination, and four self-contained algorithms (file search, path
resolution, shell tokenizer, node configuration).

`dafny verify dfyconfig.toml` verifies everything.

## How the model is organised

| file | what it holds |
|---|---|
| `Models.dfy`, `Tables.dfy` | the rows, and what each Store method does to the tables, as functions |
| `Database.dfy` | the class `Store`: the same operations in place, loops included, proved equal to `Tables` |
| `Orchestrator.dfy` | the interleaving machine: a dispatcher position, any number of handler positions, 29 labelled steps |
| `Lifecycle.dfy` | tasks and jobs over every run of the machine: ownership, agreement, cancel |
| `DispatchOrder.dfy` | the queue: assignment order, waiting bound and its exactness |
| `WorkflowLease.dfy` | lease exclusion with its exact condition, persistence of a held lease, soundness of the start gate |
| `TaskNames.dfy`, `TaskNaming.dfy` | the name normaliser, the suffix loop, distinct names over every run |
| `Handlers.dfy` | RunOnce, CancelTask, Start and CreateTask as uninterrupted code over `Store`, and the runs of the machine they correspond to |
| `Strings.dfy`, `Decimal.dfy`, `Base64.dfy`, `Password.dfy` | string helpers, numerals, base64, the `$argon2id$...` codec and password verification |
| `RateLimiter.dfy` | the fixed-window limiter with its cleanup |
| `Pagination.dfy`, `Preferences.dfy` | cursors and pages; effective preferences |
| `SearchFiles.dfy`, `WorkspacePath.dfy`, `ShellArgs.dfy`, `NodeConfig.dfy` | the self-contained algorithms |

A run is a sequence of states joined by labelled steps (`Orchestrator.IsRun`). A step is one Store call of one
handler or of the dispatcher, a tick of the clock, or an outside edit of a plan. Handlers keep what they have
read in their own position, so stale reads are part of the model. A history records what was answered, so
that statements about whole runs can be made about states: a success of Start is recorded at the step that
decides the answer, "started" at its Acquire and "already_running" at the comparison that follows the read of
the row, each with the number of events recorded when the runner last knew the row to be its own.

## Assumptions

- Each Store method is one atomic step, and its write succeeds. For the lease this is needed:
  `WorkflowLease.SeparatedAcquires` shows what happens if the read and the write of Acquire are separated. The per-user names likewise rely on the lookup and the insertion of CreateTask being one step.
- There is one dispatcher goroutine (orchestrator/cmd/control-plane/main.go:187), and it is not restarted in
  the middle of an iteration.
- The clock never goes backwards. Rows are numbered in order of insertion, which is also the order of their
  creation times. Rows of tasks and jobs are never deleted, and dependencies are never written.
- A run may start with rows already in the tables, as long as no job is left running, `closed` mirrors the
  status, lease rows are well formed, and (for the naming result) the existing names are in order.

## Where the code and its documentation differ

- docs/tech_specs/langgraph_mvp.md:86 promises "already running" whenever the same holder asks again. The code
  also wants the same lease id (the idempotency key); without it the same holder is refused while the lease is
  held (`Handlers.SameHolderNeedsItsLease`, and as a run `Handlers.HolderWithoutKeyIsRefused`). The model follows
  the code.
- A lease in force does not exclude every other runner: a Start that has read the row while it was its own is
  answered "already_running" even if that lease was released and granted to another runner meanwhile.
  `WorkflowLease.StaleStartSucceeds` gives the run, `WorkflowLease.ExcludesExactly` the exact condition.
- At the exact expiry instant Acquire still treats a lease as held, while the early check in the handler no
  longer answers "already_running"; the model keeps both comparisons.
- A queued job with k older queued jobs leaves the queue within k + 1 dispatches only if RunOnce has not already
  read a job that was canceled meanwhile; then one more dispatch can come first. `DispatchOrder.CanceledPickDelays`
  gives the run and `DispatchOrder.ServedExactly` the exact condition.
- A cancel that lists the jobs while the task is still being created can leave a queued job behind
  (`Lifecycle.EarlyCancelLeavesQueuedJob`); `Lifecycle.CancelIsThoroughExactly` says that this is the only case.
- The early-stopping file search adds the truncation marker to an output of exactly the cap length, although
  nothing was cut (`SearchFiles.DiffersOnlyAtExactCap`).
- With no configured host and an empty or failed node listing, every node is told to host the project manager
  agent (`NodeConfig.AtMostOneHost`).

## Model

| member | source | states |
|---|---|---|
| `Orchestrator.RunEvolves` | orchestrator/internal/database/tasks.go:117-149 | over any stretch of any run no task leaves a terminal status or changes owner, plan or summary, no job changes its task, and none goes back to the queue |
| `Lifecycle.StepKeepsInv` | orchestrator/internal/dispatcher/run.go:23-105 | every one of the 29 steps keeps the invariant tying job statuses to the dispatcher position, creators to their rows, answered tasks to their single job, and sweeping cancels to the queued jobs they still have to write |
| `Lifecycle.RunningIsOwned` | orchestrator/internal/dispatcher/run.go:35-58 | in every run a job is running only while an in-flight RunOnce owns it |
| `Lifecycle.TaskAndJobAgreeAtRest` | orchestrator/internal/handlers/tasks.go:181-268 | in every run, when the dispatcher is idle, a task answered with success and never canceled has exactly one job and the two are pending/queued, completed/completed or failed/failed |
| `Lifecycle.AwaitingMeansRunning` | orchestrator/internal/dispatcher/run.go:43-55 | in every run, while the worker is at work on the job of a task answered with success and never canceled, the task and the job are both running |
| `Lifecycle.CancelLeavesNoLiveWork` | orchestrator/internal/handlers/tasks.go:554-579 | once a cancel that lists the jobs after the creation was answered has itself been answered, then at every later moment with an idle dispatcher the task is terminal and none of its jobs is queued or running, whatever was interleaved |
| `Lifecycle.CancelListsExactly` | orchestrator/internal/handlers/tasks.go:568-575 | the jobs a cancel sets out to write are exactly those of its task whose status is none of completed, failed and canceled |
| `Lifecycle.CancelIsThoroughExactly` | orchestrator/internal/handlers/tasks.go:554-579 | in every reachable state with a cancel about to list the jobs, every continuation leaves no live work if and only if no handler is still creating the task at that moment |
| `Lifecycle.AnsweredIsNotBeingCreated` | orchestrator/internal/handlers/tasks.go:200-268 | once the creation of a task was answered no handler is creating it, then or later, so the condition above holds for every cancel begun after the answer |
| `Lifecycle.EarlyCancelLeavesQueuedJob` | orchestrator/internal/handlers/tasks.go:200-231 | from every state in which a cancel is about to list the jobs of a task still being created, a continuation ends with the cancel answered, the dispatcher idle, and the canceled task answered with a queued job |
| `Lifecycle.OnlyOwnedAreCanceled` | orchestrator/internal/handlers/tasks.go:554-562 | in every run, only tasks that have an owner are ever canceled |
| `Lifecycle.ClosedMeansTerminal` | orchestrator/internal/database/tasks.go:121-149 | in every state of every run, closed holds exactly for terminal statuses |
| `DispatchOrder.AssignedInCreationOrder` | orchestrator/internal/database/tasks.go:248-288 | in every run jobs are assigned in strictly increasing creation order, hence each at most once |
| `DispatchOrder.StepServesQueue` | orchestrator/internal/dispatcher/run.go:27-37 | no step increases the number of dispatches ahead of a queued job, and every assignment uses one up |
| `DispatchOrder.BoundedWait` | orchestrator/internal/dispatcher/run.go:23-63 | after more dispatches than there were jobs ahead, a queued job has left the queue; with k older queued jobs that is k + 1 dispatches from an idle dispatcher |
| `DispatchOrder.BoundIsTight` | orchestrator/internal/dispatcher/run.go:23-63 | from every such state there is a continuation with exactly that many dispatches in which the job is still queued |
| `DispatchOrder.ServedExactly` | orchestrator/internal/dispatcher/run.go:23-63 | in every reachable state n dispatches suffice for a queued job in every continuation if and only if fewer than n are ahead; k + 1 suffice for k older queued jobs if and only if RunOnce has not already read a job that has left the queue |
| `DispatchOrder.CanceledPickDelays` | orchestrator/internal/dispatcher/run.go:23-37 | that exception is reached: RunOnce reads the oldest queued job, its task is canceled, and every other queued job can then wait for one dispatch more than the older queued jobs |
| `DispatchOrder.RoundIsARun` | orchestrator/internal/dispatcher/run.go:23-63 | an uninterrupted iteration is a seven-step run of the machine ending in the tables that RunOnce leaves |
| `DispatchOrder.DispatchedMeans` | orchestrator/internal/dispatcher/run.go:86-105 | an uninterrupted iteration finishes exactly one job on the chosen node, moves its task along unless that was terminal, and touches no other row |
| `WorkflowLease.LeaseExclusion` | orchestrator/internal/handlers/workflow.go:89-126 | in every run, of two successful answers for one task with different (holder, lease) pairs: the earlier lease had expired, or a Release naming it came after its runner last knew it held, or the later answer is an "already_running" whose own lease was released between its read of the row and its answer; holder and expiry are always both set or both null |
| `WorkflowLease.ExcludesExactly` | orchestrator/internal/handlers/workflow.go:101-126 | while a lease is stored and in force, no other pair is answered with success in any continuation if and only if no Start of another pair is at that moment between a read of the row that showed its own unexpired lease and its answer |
| `WorkflowLease.StaleStartSucceeds` | orchestrator/internal/handlers/workflow.go:101-110 | such a Start exists: from every start in which one runner holds the lease, a ten-step run ends with that runner answered "already_running" while the lease of another is stored and in force |
| `WorkflowLease.HeldUntilExpiryOrRelease` | orchestrator/internal/database/workflow.go:42-75 | until the clock passes the expiry or a Release names it, a stored lease stays unchanged, its expiry included, and, unless a stale Start was in flight at the beginning, only its own pair is answered with success |
| `WorkflowLease.AcquireSucceedsExactly` | orchestrator/internal/database/workflow.go:42-59 | Acquire refuses if and only if another pair is stored and not expired; after a Release naming the stored lease anyone can take it |
| `WorkflowLease.ReleaseFreesExactly` | orchestrator/internal/database/workflow.go:63-75 | a Release changes the tables if and only if it names the stored lease and that is not yet released; then it frees that row alone, and repeating it changes nothing |
| `WorkflowLease.SeparatedAcquires` | orchestrator/internal/database/workflow.go:22-59 | Acquire is a read followed by a write; if two runners both read the existing row before either writes, both are granted the lease if and only if the row was free, and the second write wins |
| `WorkflowLease.GateIsSoundAndStable` | orchestrator/internal/database/workflow_gate.go:32-63 | whenever Start has succeeded for a task with a plan, every task recorded in the dependency table for it exists and is completed, then and in every later state, although dependencies are read one at a time |
| `WorkflowLease.AlreadyRunningIsHeldOrReleased` | orchestrator/internal/handlers/workflow.go:101-110 | "already_running" is answered only before the expiry that was read, and the row then still holds the pair unless a Release named its lease between the read and the answer |
| `TaskNames.NormalizeTaskName` | orchestrator/internal/database/tasks.go:15-30 | the normaliser with its loop computes the maximal runs of [a-z0-9] of the lowered input, joined by single dashes |
| `TaskNames.SlugIsCanonical` | orchestrator/internal/database/tasks.go:17-30 | every result is empty or runs joined by single dashes, and such strings are left alone |
| `TaskNames.SlugIsIdempotent` | orchestrator/internal/database/tasks.go:17-30 | normalising twice changes nothing |
| `TaskNames.SlugOfWord` | orchestrator/internal/database/tasks.go:15-30 | a name of letters and digits becomes itself in lower case |
| `TaskNames.SlugInParts` | orchestrator/internal/database/tasks.go:15-30 | any other rune separates: what is before and after it is normalised on its own and joined by one dash; with the previous row this determines the result for every name |
| `TaskNames.CollapseLoopNeverRuns` | orchestrator/internal/database/tasks.go:24-28 | before the trailing loop the string is already the result, so the loop never changes it |
| `TaskNames.TakenCandidates` | orchestrator/internal/database/tasks.go:50-58 | pigeonhole: if the first k names tried are all taken, the user has at least k names |
| `TaskNames.FirstFree` | orchestrator/internal/database/tasks.go:48-59 | the search ends, with the first candidate in order that is not taken |
| `TaskNaming.CreateKeepsNames` | orchestrator/internal/database/tasks.go:38-74 | creating a task, named or unnamed, with or without a user, keeps every user's summaries pairwise distinct |
| `TaskNaming.SummariesStayDistinct` | orchestrator/internal/database/tasks.go:33-74 | in every state of every run no user has two tasks with the same summary |
| `Database.Store.FreeName` | orchestrator/internal/database/tasks.go:48-59 | the suffix loop ends within one try more than the user has names, with the first of base, base-2, base-3, ... that no task of the user has |
| `Database.Store.CreateTask` | orchestrator/internal/database/tasks.go:33-74 | the new row is pending and owned by the user; its summary is the normalised name, with the first suffix that makes it new to the user, or without a usable name task_name_ and the number of the user's tasks plus one in at least three digits |
| `Database.Store.GetNextQueuedJob` | orchestrator/internal/database/tasks.go:277-288 | the oldest queued job, or none if nothing is queued |
| `Database.Store.AcquireTaskWorkflowLease` | orchestrator/internal/database/workflow.go:19-60 | in-place acquire equal to the specification used by the machine |
| `Database.Store.EvaluateWorkflowStartGate` | orchestrator/internal/database/workflow_gate.go:15-78 | without interference it allows exactly when there is no plan, or the plan exists, is not archived, is active or asked for by the project manager agent, and every task recorded as a dependency is completed; each refusal is given exactly for its reason, the first dependency that is not completed deciding |
| `Handlers.RunOnce` | orchestrator/internal/dispatcher/run.go:23-105 | uninterrupted, it leaves the tables alone when nothing is queued or no node is available, and otherwise completes or fails the oldest queued job on the node, and its task unless that was terminal |
| `Handlers.CancelTask` | orchestrator/internal/handlers/tasks.go:562-577 | uninterrupted, it cancels the task unless that was terminal, cancels exactly the jobs of the task whose status is none of completed, failed and canceled, and changes nothing else |
| `Handlers.CancelIsARun` | orchestrator/internal/handlers/tasks.go:554-579 | an uninterrupted cancel is a run of the machine from every state, ending in the same tables |
| `Handlers.StartWorkflow` | orchestrator/internal/handlers/workflow.go:89-158 | uninterrupted, each refusal and "already_running" is given if and only if its condition on the request, its idempotency key and the row holds; a success is for the key, or for the new lease id without a key, and puts it in the row with the requested or default lifetime only if the row was free; a held row is never changed |
| `Handlers.StartIsARun` | orchestrator/internal/handlers/workflow.go:89-158 | an uninterrupted Start, under its key or a new lease id and with any time passing between its three readings of the clock, is a run of the machine from every state, ending in the same tables with exactly its success recorded |
| `Handlers.SameHolderNeedsItsLease` | orchestrator/internal/handlers/workflow.go:96-110 | while a lease is held, a further Start of its holder is refused if and only if it comes under another lease id |
| `Handlers.HolderWithoutKeyIsRefused` | orchestrator/internal/handlers/workflow.go:95-117 | a run in which the holder starts again without an idempotency key, and nothing is written or recorded |
| `Handlers.CreateTask` | orchestrator/internal/handlers/tasks.go:200-268 | uninterrupted, it inserts one task and one job that agree: both completed after inference, else pending and queued |
| `Handlers.CreateIsARun` | orchestrator/internal/handlers/tasks.go:200-268 | an uninterrupted creation is a run of the machine from every state, ending in the same tables with the job recorded |
| `Password.CodecRoundTrip` | orchestrator/internal/auth/password.go:47-109 | for all parameters, salts and hashes, decoding the encoded string returns them, lengths included |
| `Password.CodecRoundTripExactly` | orchestrator/internal/auth/password.go:72-109 | the round trip holds if and only if the three numbers fit their fields (32, 32 and 8 bits); otherwise the parameters are rejected |
| `Password.BadFormatExactly` | orchestrator/internal/auth/password.go:72-76 | a string is rejected for its number of fields if and only if it does not have five dollar signs |
| `Password.OthersAreRejected` | orchestrator/internal/auth/password.go:78-88 | another algorithm, or a version number other than 19, is rejected for that reason whatever the other fields are |
| `Password.NumbersAfterBlanks` | orchestrator/internal/auth/password.go:90-93 | numbers are read after any white space except a line feed, which makes them unreadable |
| `Password.VerifyMatchesHash` | orchestrator/internal/auth/password.go:35-70 | a stored hash decodes to the key derived from the password, salt, passes, memory, lanes and length; verification accepts exactly the attempts that derive the same key, in particular the original password, for any key derivation of the right length |
| `Password.ReencodingIsStable` | orchestrator/internal/auth/password.go:72-109 | every accepted string, however irregular, decodes to the same as its regular re-encoding |
| `Password.DocumentedFormat` | orchestrator/internal/auth/password.go:24-55 | the default parameters are written as `$argon2id$v=19$m=65536,t=3,p=2$` followed by salt and hash |
| `Base64.RoundTrip` | orchestrator/internal/auth/password.go:48-49 | unpadded base64 restores every byte string |
| `Base64.DecodesExactly` | orchestrator/internal/auth/password.go:93-103 | a string is accepted if and only if it holds only the 64 symbols and line breaks, and not one symbol more than a multiple of four |
| `Base64.KnownAnswers` | orchestrator/internal/auth/password.go:48-49 | the encoder gives the seven values of section 10 of RFC 4648, without padding |
| `RateLimiter.Limiter.Cleanup` | orchestrator/internal/auth/ratelimit.go:72-81 | visiting the keys in any order removes exactly the entries older than two windows |
| `RateLimiter.CleanupIsInvisible` | orchestrator/internal/auth/ratelimit.go:38-82 | for every trace of calls and resets and every placement of cleanup passes, the answers are those without cleanup |
| `RateLimiter.FewerThanTwoWindows` | orchestrator/internal/auth/ratelimit.go:38-59 | over whole traces without reset, any half-open interval as long as the window contains at most 2*max(1, limit) - 1 allowed calls per key |
| `RateLimiter.BoundIsReached` | orchestrator/internal/auth/ratelimit.go:38-59 | for every limit and every window longer than an instant, a trace reaches that bound |
| `RateLimiter.AtMostLimitPerWindow` | orchestrator/internal/auth/ratelimit.go:45-58 | over whole traces without reset, with cleanup passes anywhere, every window recorded for a key at some point contains at most max(1, limit) allowed calls |
| `RateLimiter.RefusedExactlyWhenUsedUp` | orchestrator/internal/auth/ratelimit.go:38-59 | after any trace without reset, with cleanup passes anywhere, a call is refused if and only if the recorded window of its key began less than its length ago and exactly max(1, limit) calls were allowed in it |
| `SearchFiles.ScanFile` | agents/internal/sba/runner.go:344-366 | the line loop appends matches until the cap is reached, and fails exactly when it meets an overlong line first |
| `SearchFiles.EntriesMean` | agents/internal/sba/runner.go:354-358 | the entries of a file are its matching lines in order, each written as path, line number and text |
| `SearchFiles.BrokenMeans` | agents/internal/sba/runner.go:350-365 | a file breaks the search if and only if it can be opened and has a line of 64 KiB or more |
| `SearchFiles.Search` | agents/internal/sba/runner.go:293-340 | the walk stops everything once truncated and returns the capped text; it fails if and only if some file has an overlong line and the search was not stopped in or before that file |
| `SearchFiles.EarlyStopRefinesFullScan` | agents/internal/sba/runner.go:293-366 | for every positive cap the output is the full match text if shorter than the cap, else its first cap bytes and the marker |
| `SearchFiles.DiffersOnlyAtExactCap` | agents/internal/sba/runner.go:458-466 | this equals capping the full text if and only if that text is not exactly as long as the cap; never more than cap + 15 bytes |
| `SearchFiles.NonPositiveCap` | agents/internal/sba/runner.go:359-362 | without a positive cap the first match is returned whole with the marker |
| `Pagination.PreferencePage` | orchestrator/internal/database/preferences.go:39-75 | a page is the rows from the offset on, at most the limit (100 unless between 1 and 100), with a cursor exactly when rows remain |
| `Pagination.SecondBranchIsDead` | orchestrator/internal/database/preferences.go:71-73 | the second branch that sets a cursor is never taken |
| `Pagination.PreferencePagesPartition` | orchestrator/internal/database/preferences.go:39-75 | following the cursor from the start ends, and the pages add up to exactly the whole list, for every limit |
| `Pagination.ListTasks` | orchestrator/internal/handlers/tasks.go:494-540 | the page loop returns the status-filtered rows from the cursor or else the offset on, rejects exactly the cursors that are not numbers or negative, and gives a cursor exactly when rows remain |
| `Pagination.FilterMeans` | orchestrator/internal/handlers/tasks.go:523-529 | filtering keeps each row asked for as often as it occurs, and no other |
| `Pagination.TaskPagesCover` | orchestrator/internal/handlers/tasks.go:494-540 | from any offset or cursor, following the cursors gives exactly the status-filtered rest of the list |
| `Pagination.TaskPagesPartition` | orchestrator/internal/handlers/tasks.go:494-540 | the pages of tasks add up to exactly the status-filtered list |
| `Preferences.EffectivePreferences` | orchestrator/internal/database/preferences.go:100-122 | the nested loops give, for every key, the most specific usable entry among each scope's first 100 rows, and nothing for a missing task |
| `Preferences.TaskOverProjectOverUserOverSystem` | orchestrator/internal/database/preferences.go:82-96 | precedence spelled out: task, then project, then user, then system |
| `Preferences.MostSpecificMeans` | orchestrator/internal/database/preferences.go:106-120 | the value is that of the last scope with an entry that is empty or parses; unparseable entries fall through |
| `Preferences.InLayerFinds` | orchestrator/internal/database/preferences.go:111-119 | within a scope with distinct keys the entry of the key decides: absent or empty gives null, parseable its value, otherwise nothing |
| `Preferences.VisibleMeans` | orchestrator/internal/database/preferences.go:107-110 | at most the first 100 rows of a scope are seen |
| `Preferences.NoneMeansAbsent` | orchestrator/internal/database/preferences.go:106-120 | a key without a usable entry in any scope is absent |
| `WorkspacePath.ResolveIsContained` | agents/internal/sba/runner.go:369-384 | for every absolute workspace and every path the result is empty exactly when the cleaned path starts with ".."; otherwise its components are the workspace's followed by the path's, and the prefix check never rejects |
| `WorkspacePath.EscapeTest` | agents/internal/sba/runner.go:370-373 | the textual test on the cleaned path means that its first component is ".." |
| `WorkspacePath.DotDisappears` | agents/internal/sba/runner.go:370 | cleaning drops empty components and "." |
| `WorkspacePath.ParentCancels` | agents/internal/sba/runner.go:370 | cleaning drops an ordinary component together with a following ".." |
| `WorkspacePath.ParentOfRoot` | agents/internal/sba/runner.go:370 | cleaning drops ".." at the root |
| `WorkspacePath.CleanedStays` | agents/internal/sba/runner.go:370 | cleaning keeps every path to which none of these three rules applies; together the four determine the components of every path |
| `ShellArgs.ParseArgs` | cynork/cmd/shell.go:55-79 | the byte loop cuts the line at unquoted blanks, removes quotes and drops empty pieces |
| `ShellArgs.TokensKeepBytes` | cynork/cmd/shell.go:55-79 | for every line no token is empty and the tokens together are the line without quotes and unquoted blanks |
| `ShellArgs.TokensInParts` | cynork/cmd/shell.go:55-79 | a blank or tab after an even number of quotes separates: what is before and after it is tokenized on its own |
| `ShellArgs.TokensOfOne` | cynork/cmd/shell.go:55-79 | a line without a blank or tab outside quotes is one token, without its quotes, or none if that is empty |
| `ShellArgs.RoundTripExactly` | cynork/cmd/shell.go:54-79 | for every list of arguments without double quotes, quoting, joining and parsing returns the list if and only if no argument is empty |
| `NodeConfig.SelectHost` | orchestrator/internal/handlers/nodes.go:422-441 | the configured host, else the smallest slug among labelled nodes or among all, else the asking node |
| `NodeConfig.LessIsLexicographic` | orchestrator/internal/handlers/nodes.go:431 | slugs are compared in dictionary order by their bytes |
| `NodeConfig.HostIgnoresOrder` | orchestrator/internal/handlers/nodes.go:422-441 | the host depends on neither the listing order nor the asking node |
| `NodeConfig.AtMostOneHost` | orchestrator/internal/handlers/nodes.go:331-355 | two different nodes both get the service if and only if no host is configured and the listing is empty |
| `NodeConfig.PrevPow2` | orchestrator/internal/handlers/nodes.go:621-631 | the doubling loop finds the largest power of two at most n, or 1 |
| `NodeConfig.NumCtxForVRAM` | orchestrator/internal/handlers/nodes.go:604-619 | the context is the largest power of two within the token budget of 40 percent of the memory at 50 MB per 1024 tokens, at least 8192 and at most 40960 |
| `NodeConfig.ContextIsMonotone` | orchestrator/internal/handlers/nodes.go:604-619 | more memory never means a smaller context |
| `NodeConfig.ContextFits` | orchestrator/internal/handlers/nodes.go:594-619 | the context is 8192, 16384, 32768 or 40960, and above the minimum its cache fits in 40 percent of the memory |

## Left out

- HTTP and JSON decoding, authentication of requests, GORM and SQL: the tables are sequences and maps of rows.
- Payload parsing, node selection and the worker call: the dispatcher receives an arbitrary node, or none, and an arbitrary answer.
- Store failures, canceled request contexts and restarts of the process: every write succeeds.
- Resume and SaveCheckpoint, artifacts, logs, job results and timestamps other than lease expiry: they would add rows that no property speaks of.
- Refresh sessions, login handlers, token signing and hashing: not modelled.
- Argon2 itself is a parameter of the password model; random salts and uuids are parameters too.
- Creating, updating and deleting preferences: single-row updates with a version check, which would only add easy members. Preference rows of a scope are given in key order.
- `SearchFiles.Search`: the directory walk with its filters is the list of visited files; the regular expression is an arbitrary predicate on lines.
- `WorkspacePath.ResolveIsContained`: symbolic links and relative workspaces are outside the lexical model.
- `NodeConfig.NumCtxForVRAM`: the 40 percent share is computed exactly, as floor(2*vram/5), instead of in floating point, and integers are unbounded.
- Model and image choice, service endpoints and the rest of the node configuration payload: plumbing.
- The PMA chat loop, secret redaction, skills, the MCP gateway, the worker node and the rest of the command line client.
