# Verification of the agent loop, its edit tool and its daemon

A Dafny model of the parts of the repository whose correctness rests on logic over unbounded
input and unbounded runs, and proofs of what those parts are for. To check everything, run

    dafny verify dfyconfig.toml

## What is modelled

* **The transcript** (`Unicode`, `Transcript`, `CallIdNames`, `Harden`, `HardenTheorems`,
  `HardenStory`, `Pairing`, `Interrupted`). `HardenHistory` repairs an arbitrary transcript: tool-call IDs are
  renamed, results are paired with calls, stand-ins are made for missing results, and empty turns
  and other models' artefacts go. The imperative passes are proved against a recursive
  specification (`Hardened`), and the promises are proved of that: pairing, non-emptiness,
  idempotence, "only stand-ins are inserted", "unchanged exactly when acceptable"; and what
  becomes of every message, field by field and place by place. For
  transcripts that interruptions leave, the exact condition is given under which the repair
  answers every turn at once and in full.
* **The agent loop** (`RunSpec`, `RunLoop`, `RunTheorems`, `RunStory`, `WholeRun`, `Guardrails`). Provider, tools,
  cancellation, error classes and the call key are arbitrary functions, so each theorem covers
  every run. The loop is proved to compute the run specified by `RunSpec.Turns`; of that, the
  shape of what a run adds is proved, and the exact condition under which everything sent to
  the provider pairs calls with results; and every run is told pass by pass from what provider,
  tools and cancellation do. The guardrail counters are proved to be streak lengths,
  with the exact thresholds under which halts are announced.
* **Compaction** (`Compactor`, `CompactionStory`). Word counting, the token estimate, the budget cut, the safe split
  point, the file ledger and the inflation guard. The theorems compose with the ones above:
  closed blocks stay closed, the estimate does not rise, the ledger survives any chain of
  compactions, and hardening what a run leaves restores the shape that compaction relies on.
* **The session** (`Stores`, `Sessions`, `SessionTheorems`, `SessionStory`). `Session.Prompt` puts the pieces
  together: compaction before a run, the run on a hardened copy, one retry on a smaller
  transcript when the context overflows, and saving what the run added. The invariants hold
  over the whole life of a session, in memory and in the store, restarts included.
* **The edit ladder** (`Bytes`, `Utf8`, `Text`, `Spans`, `Windows`, `Fragments`, `Reindent`,
  `ReindentStory`, `Splice`, `Escapes`, `Ladder`, `EditFile`). Byte strings, UTF-8 as section 3 of RFC 3629 and
  Go read it, five matchers, the re-indenting renderer, splicing, line reporting, the
  over-escape repair, and byte-order mark and CRLF handling down to the bytes on disk.
* **The pager** (`Pager`) and the **bounded output buffer** (`LimitedOutput`).
* **The daemon's run protocol** (`DaemonRun`, `PermissionProtocol`, `EventStream`). The methods
  under the mutex are a class; the parties that use it are step relations in which everything
  outside the lock (the sends, the waits, each event written to a subscriber) is a step of its
  own, so the theorems hold of every interleaving.
* **Gitignore** (`GlobRegex`, `GlobTheorem`, `GlobLimits`, `GlobWitness`, `GlobSwallow`,
  `GlobStars`, `Ignore`, `GitIgnore`, `FindFiles`). The glob compiler against a
  regular-expression semantics and against the segment-wise matching that the gitignore
  documentation describes, with the exact conditions under which the two agree; the lines of
  rule files from their parts to their meaning; git's verdict over all files of a tree, ancestor
  directories included; and the pruning walk.

Code that the repository writes as loops over mutable state is imperative here too: methods with
loop invariants, arrays renamed in place, classes for the guard state, the output buffer, the
ignore cache, the finder, the session and the daemon's run. Each such method is proved equal to
a function, and the theorems are about the functions. The modules whose names end in `Story` and
`WholeRun` describe the results once more, as relations between what goes in and what comes out
that do not mention those functions. Several lemmas take a function parameter (a
`Reader`, a `Test`, a `Judge`, a `Reading`) where the repository has one fixed function: the
proofs then hold of any such function and are instantiated with the real one.

Where the code differs from what its comments suggest, the code is modelled:

* `normalizeToolCallIDs` pre-marks valid IDs on calls only, so a valid ID that occurs only on a
  result can collide with an invented one; `SharedNamesTaken` says exactly when two IDs do, and
  `AllNamesDiffer` what rules it out beforehand.
* A call that was interrupted gets no stand-in when some later result has its ID, so a provider
  that numbers its calls afresh in each turn sees an unanswered turn (`ResumesInBlocksIff`).
* A provider's final message may carry any role, and its calls are executed all the same; what
  is sent then is fit exactly under the condition of `RunTheorems.RunSends`.
* Parallel and sequential tool execution are documented as behaving alike; `RunSpec.ModesAgree`
  says exactly when they do.
* Two stars at the end of a longer segment reach into other segments, and a trailing `**`
  compiles to `.*`, which does not match a newline: `GlobAgreesIff` says exactly which patterns
  without classes keep git's meaning. Patterns are compiled byte by byte, which is right for
  ASCII only (`AsciiIff`), and a backslash escapes nothing (`EscapesNotRead`). A negated class
  such as `[!a]` takes a slash too (`ClassAgreesIff`).
* A compaction on request changes the store and not the session in memory, whose next saved
  prompt overwrites it (`ShrinkLost`).
* A file with mixed line endings is rewritten to CRLF throughout (`EditFile.FormRoundTrip` gives
  the exact condition).
* A result that does not directly follow its turn can be cut off from its call by a compaction;
  `EveryCutSafeIff` says for which transcripts none is.
* A file is rebuilt from its pages exactly when no line exceeds the byte cap (`RebuiltIff`).
* A mistake halt can come without its nudge under thresholds that leave no room for it
  (`MistakeAnnouncedIff` gives the exact condition; the defaults meet it).

## Model

| member | source | states |
|---|---|---|
| CallIdNames.Sanitize | loop/harden.go:172-187 | The first 64 characters of an ID are kept, each as it is or, when it is no letter, digit, `_` or `-`, as `_`; exactly the IDs already of that form are left alone. |
| CallIdNames.CandidateInjective | loop/harden.go:206-215 | Different counters give different candidate names, whatever is cut off to make room for the suffix. |
| CallIdNames.CandidateTold | loop/harden.go:206-215 | A candidate is as much of the sanitised ID as there is room for, an underscore and its counter in decimals, 64 characters at most. |
| CallIdNames.AttemptsShrink | loop/harden.go:206-215 | The renaming loop ends: each taken candidate leaves exactly one attempt fewer, since only finitely many names are taken. |
| CallIdNames.Mapped | loop/harden.go:190-219 | The closure, branch by branch, computes the renaming step `MapId`. |
| CallIdNames.NormalizeToolCallIDs | loop/harden.go:168-242 | The in-place pass leaves exactly the transcript renamed throughout by one final map, and returns that map: a call and its result get the same name. |
| CallIdNames.VisitIsFinal | loop/harden.go:190-240 | The name an ID gets on its first visit is the name it has after the whole pass. |
| CallIdNames.CallNamesInjective | loop/harden.go:221-241 | Two different IDs that occur on calls never get the same name, for every transcript. |
| CallIdNames.NameTold | loop/harden.go:190-219 | An invalid ID gets its sanitised form exactly when no valid call ID and no ID visited before it has that name, and else a numbered one, which none of those has either. |
| CallIdNames.SharedNamesTaken | loop/harden.go:221-228 | Two different visited IDs share a name exactly when one is valid, occurs on results only, and the other was renamed to it. |
| CallIdNames.TakenShape | loop/harden.go:202-219 | A valid ID on a result can be taken only by an ID whose sanitised form it is, or a cut and numbered form of that. |
| CallIdNames.AllNamesDiffer | loop/harden.go:190-228 | All visited IDs get different names when no valid ID on results only has such a form of an invalid ID of the transcript, in particular when every valid ID is on a call. |
| CallIdNames.ValidNamesKept | loop/harden.go:197-201 | A valid ID is never renamed. |
| CallIdNames.NamesValid | loop/harden.go:165-167 | Every non-empty ID ends up in `[A-Za-z0-9_-]{1,64}`, for every transcript whose IDs a Go slice can index. |
| CallIdNames.ResultOnlyNamesMayCollide | loop/harden.go:221-228 | Such a pair exists, so injectivity stops at calls (a concrete transcript). |
| CallIdNames.FineNamesUnchanged | loop/harden.go:197-201 | A transcript whose IDs are all fine comes back unchanged. |
| CallIdNames.RenamedIsFine | loop/harden.go:168-242 | After the pass no ID needs a new name. |
| Transcript.CollectToolCalls | loop/run.go:554-562 | The loop collects exactly the calls of a message, in order. |
| Transcript.CallsConcat | loop/run.go:554-562 | The calls of a message are those of its parts, part by part: one for each part that carries a call. |
| Transcript.AnsweredByPosition | loop/harden.go:92-101 | "Answered" read by position: a result for each call stands at some later index. |
| Harden.SanitizeForeignTurn | loop/harden.go:149-163 | The loop computes `Sanitized`: what that leaves of a turn is told part by part in `HardenStory.HardenedTold` and `NothingForeignLeft`. |
| Harden.ResultsElsewhere | loop/harden.go:94-101 | The look-ahead finds an ID exactly when a result with it stands at or after the position. |
| Harden.IndexCalls | loop/harden.go:33-42 | The index holds exactly the IDs of the assistant calls of the transcript. |
| Harden.AbsorbResults | loop/harden.go:63-73 | The inner loop consumes exactly the contiguous results, keeps those of known calls in order, and records their IDs. |
| Harden.SynthesizeMissing | loop/harden.go:74-79 | Stand-ins are made, in call order, for exactly the calls with no result absorbed or further on. |
| Harden.RepairTurn | loop/harden.go:54-79 | One iteration on an assistant turn writes its block and continues behind the absorbed results. |
| Harden.HardenHistory | loop/harden.go:29-90 | The loop computes the recursive specification `Hardened`, about which the next rows speak. |
| HardenStory.HardenedTold | loop/harden.go:29-163 | Field by field: every message is kept in order under its new IDs; another model's turn loses its thinking and its signatures and nothing else; only turns with nothing left and results without a call go; and all that is new are error results that say the call was interrupted. |
| HardenStory.RepairTold | loop/harden.go:54-87 | Place by place: a turn comes with the known results that follow it at once, in order, and then, in call order, one stand-in for exactly each call that has no result there or later; everything else keeps its place. |
| HardenStory.NothingForeignLeft | loop/harden.go:149-163 | In the output no turn of another known model has a thinking part or a signature. |
| HardenTheorems.HardenedPromises | loop/harden.go:29-90 | In the output of every transcript each call is followed by a result with its ID, each result carries the ID of some call, no turn is empty, and no turn of another model has a thinking part or a signature. |
| HardenTheorems.UnchangedIffAcceptable | loop/harden.go:29-90 | Hardening changes nothing exactly when the transcript already meets all of those promises and has fine IDs. |
| HardenTheorems.HardenIdempotent | loop/harden.go:29-90 | Hardening twice is hardening once. |
| HardenTheorems.HardenedOnlyInserts | loop/harden.go:29-90 | The output is the renamed, sanitised survivors in order, with nothing added but stand-ins for calls of the transcript. |
| HardenTheorems.HardenedKeepsPrompts | loop/harden.go:85-87 | Every message that is neither a turn nor a result survives, in order. |
| HardenTheorems.ResultsSurvive | loop/harden.go:65-84 | No result of a known call is lost, wherever it stands. |
| HardenTheorems.CallsSurvive | loop/harden.go:54-63 | Dropping empty turns drops no call. |
| Pairing.BlocksArePaired | loop/harden.go:29-90 | Transcripts whose results directly follow their turn satisfy the pairing that providers require. |
| Pairing.HardenedInBlocks | loop/harden.go:60-79 | When results stand where a turn left them, hardening yields closed blocks, not only a result somewhere later. |
| Pairing.RenamingKeepsBlocks | loop/harden.go:230-240 | Any renaming of IDs that leaves the empty one alone keeps blocks, closed or with unanswered turns. |
| Pairing.InterruptionRepaired | loop/harden.go:60-79 | A block transcript cut at any message, in the middle of a turn's results too, is hardened into closed blocks again, whatever its IDs. |
| Pairing.BlocksSuffix | compactor.go:275-286 | Cutting a block transcript where no result begins the tail cuts no block, with or without unanswered turns. |
| Interrupted.ResumesInBlocksIff | loop/harden.go:60-101 | A stored transcript, in which interrupted turns have no results, is hardened into closed blocks exactly when no unanswered call has its ID on a later result. |
| Interrupted.ReusedIdUnanswered | loop/harden.go:74-79 | The condition can fail: an interrupted call whose ID a later turn reuses gets no stand-in (a concrete transcript). |
| Guardrails.GuardState.Observe | loop/guardrails.go:123-177 | One observation updates all five counters and flags as the step function does, and returns its verdict; disabled guardrails change nothing. |
| Guardrails.TraceOf | loop/guardrails.go:123-177 | Every sequence of rounds has a trace of observations, so the trace theorems below speak of all of them. |
| Guardrails.RepeatCountIsStreak | loop/guardrails.go:128-144 | Over any rounds, `repeatCount` is the length of the longest suffix of rounds with one and the same single call. |
| Guardrails.MistakeRoundsIsStreak | loop/guardrails.go:146-159 | Over any rounds, `mistakeRounds` is the length of the longest suffix of all-error rounds. |
| Guardrails.VerdictTold | loop/guardrails.go:123-177 | Over any rounds, the verdict on a round follows from the two streaks that end with it and from what was nudged in them before: a halt from its limit on, repeats first; else one nudge a streak from its threshold on, repeats first; else nothing. |
| Guardrails.RepeatHaltAnnounced | loop/guardrails.go:161-176 | With the repeat nudge below the halt, a repeat halt comes at the limit exactly, in a true streak that contains exactly one repeat nudge. |
| Guardrails.MistakeHaltAnnounced | loop/guardrails.go:161-176 | With room for it, a mistake halt comes at the limit exactly, in a true streak that contains exactly one mistake nudge, although a repeat nudge can take its slot. |
| Guardrails.RepeatAnnouncedIff | loop/guardrails.go:161-176 | All repeat halts are announced exactly when the nudge threshold is below the halt threshold. |
| Guardrails.MistakeAnnouncedIff | loop/guardrails.go:161-176 | The exact thresholds for which every mistake halt is announced, with counterexample runs on all others. |
| Guardrails.DefaultsLeaveRoom | loop/guardrails.go:72-86 | The default thresholds are 3, 5, 3 and 6, and satisfy both conditions. |
| RunSpec.ModesAgree | loop/run.go:186-190 | Parallel and sequential tool execution answer alike, results and error, except exactly when the turn is cancelled after a call has failed for good with nothing before it to end the turn. |
| RunLoop.ExecuteToolCalls | loop/run.go:191-265 | Both modes give one result per call in call order, with the ID and name of the call and the content, error flag and metadata that its tool gave; or none, and the error that the mode reports first. |
| RunLoop.AssistantTurn | loop/retry.go:150-194 | Every attempt sends the same transcript, all but the last failed with a transient error, there are no more than the policy allows, and the reply or error, a context overflow included, is the one the policy determines. |
| RunLoop.AnswerTurn | loop/run.go:145-171 | A turn with calls adds itself, its results and any corrective note, or stays unanswered with the right error. |
| RunLoop.QuietTurn | loop/run.go:131-143 | A turn without calls ends the run, or is nudged on when it stalled within the budget. |
| RunLoop.TakeTurn | loop/run.go:114-172 | One pass of the loop takes the run's variables, the two last-turn indices included, from one progress to the next. |
| RunLoop.RunTurns | loop/run.go:110-184 | The loop computes the run specified by `Turns`: new messages with the stop-reason rewrite, the whole transcript, the error, and every transcript sent. |
| RunLoop.Run | loop/run.go:77-184 | For every provider, tool set, input and cancellation: what comes back and what was sent is the specified run from the hardened input on, of which `WholeRun` and `RunTheorems` speak. |
| RunStory.OneTurnTold | loop/run.go:110-172 | One pass of the loop told from what provider, tools and cancellation do: which attempts were made and with what, the turn as the provider gave it, one result per call with its tool's content, flag and metadata, or none and why, the note if any, and whether and with which error the run stops. |
| WholeRun.StoryOf | loop/run.go:77-184 | Every run is such passes from nothing on: all but the last go on, the last one stops it, and it is out of turns exactly when none did within the limit. |
| WholeRun.RunReports | loop/run.go:145-155 | Every turn that a run adds is what the provider answered when sent all before it, and behind it stands nothing at all, or for each of its calls the content, error flag and metadata of that call's outcome. |
| WholeRun.OnlyStamped | loop/run.go:174-182 | In the end nothing of it is changed but the stop reason of the last turn, and that only when the run is out of turns. |
| WholeRun.FailedIff | loop/guardrails.go:146-159 | A round counts as failed exactly when it has calls and the tool of every one reported an error. |
| WholeRun.RunGuarded | loop/run.go:157-171 | The rounds of a run are its passes with results, in order; each goes on, is noted or ends the run as the guard's verdict on it says. |
| WholeRun.HaltsNoticed | loop/run.go:157-171 | A run that ends for repeated calls, or for mistakes, ends after as many passes as the limit says that all made one and the same call, or in which every tool reported an error; exactly one of them told the model so, when the thresholds leave room for it. |
| WholeRun.TwoNudges | loop/run.go:131-143 | A run nudges the model to go on at most twice, each time after a turn without calls. |
| RunTheorems.RunEnds | loop/run.go:94-183 | When the provider's turns are assistant turns: what a run adds is closed blocks, one result per call in call order, except possibly a last unanswered turn; after a natural end or out of turns without exception; and only an exhausted run's last turn is marked. |
| RunTheorems.RunSends | loop/run.go:114-154 | Everything sent is the hardened history and messages of the run, and all of it pairs calls with results and has no empty turn exactly when each turn that the provider gets to see again is an assistant turn or asks for nothing but calls already made. |
| RunTheorems.OtherRolesSendOrphans | loop/run.go:495-503 | The condition can fail: a provider's message in another role keeps it, and the results of its calls are sent without calls (a concrete provider). |
| RunTheorems.AssistantProviderSuffices | loop/run.go:77-184 | With a provider that delivers assistant turns, whatever else it, the tools and cancellation do, everything sent is fit and what the run adds has its shape. |
| RunTheorems.StampKeepsBlocks | loop/run.go:174-182 | Rewriting the last turn's stop reason disturbs no pairing. |
| RunTheorems.LeftoverResumable | loop/run.go:87-89 | However a run ends, hardening what it leaves on closed blocks gives closed blocks again, whatever its IDs. |
| Compactor.CountWords | compactor.go:525-540 | The flag-driven scan counts exactly the positions where a word starts. |
| Compactor.EstimateTokens | compactor.go:493-520 | The loops compute the estimate; `CompactionStory.WordsRead` says what it counts. |
| CompactionStory.WordsRead | compactor.go:493-540 | The estimate is three quarters, rounded up, of the words of all text, thinking, call names and arguments written out as one text. |
| Compactor.SplitByTokenBudget | compactor.go:260-269 | The kept tail holds at least one message, fits the budget in summed estimates if it holds more, and no longer tail fits. |
| Compactor.BudgetCutUnique | compactor.go:260-269 | Those conditions determine the cut. |
| Compactor.SafeSplitPoint | compactor.go:275-286 | The walk back computes the nearest position at or before the split that no result begins. |
| Compactor.SafeCut | compactor.go:275-286 | In a transcript of closed blocks the safe split point leaves a tail of closed blocks: no call is separated from its result; unanswered turns do not change that. |
| Compactor.EveryCutSafeIff | compactor.go:275-286 | In a paired transcript no split asked for separates a call from its result exactly when every result that follows a message at once answers a call of that message or of a later one. |
| Compactor.LateResultSeparated | compactor.go:275-286 | The condition can fail: a result that does not follow its call at once is separated (a concrete paired transcript). |
| Compactor.ExtractFileLedger | compactor.go:292-337 | The loop with its two seen-sets computes the paths in order of first mention, an earlier marker's ledger included. |
| CompactionStory.LedgerNames | compactor.go:292-356 | The ledger names, each once, exactly the paths that a call of the region or the ledger of an earlier marker in it names. |
| CompactionStory.LedgerGrows | compactor.go:292-310 | What later messages name is added behind what earlier ones named. |
| CompactionStory.TouchIff | compactor.go:326-332 | A tool modifies exactly when its name spells write or edit in letters of either case, and else reads exactly when it spells read. |
| Compactor.LedgerSurvives | compactor.go:225-238 | Extracting from a marker and later messages gives the same ledger, order included, as from the original region and those messages. |
| Compactor.LedgerSurvivesChain | compactor.go:225-238 | The same through any number of compactions, each summarising the one before. |
| Stores.LedgerSurvivesLoading | compactor.go:339-356 | The ledger survives saving and loading, where JSON turns lists of strings into lists of any values and changes the layout of call arguments, whatever is said afterwards. |
| Stores.LoadingKeepsBlocks | loop/types.go:75-88 | Saving and loading keeps blocks, closed or with unanswered turns: they depend on roles and IDs alone. |
| Stores.LoadedTold | loop/types.go:75-88 | Saving and loading changes nothing else of a message. |
| Compactor.Compact | compactor.go:152-255 | The method computes `CompactOf`, of which the next rows speak. |
| CompactionStory.CompactTold | compactor.go:152-255 | Unchanged below the thresholds or with nothing to cut; otherwise an error without a summary; otherwise, where that lowers the estimate, one assistant message stands for all before the cut: its text opens with the handoff, carries the summary, and names every modified file and then every file read, in order, and its metadata lists both. |
| Compactor.CompactAnswers | compactor.go:152-255 | A replacement is one, with a text that is not blank, exactly when it lowers the estimate of the prefix. |
| Compactor.CompactionShrinks | compactor.go:240-254 | A compaction never raises the estimate of the whole transcript and strictly lowers its word count. |
| Compactor.CompactionKeeps | compactor.go:180-254 | A compaction keeps closed blocks closed and paired, keeps stored transcripts well formed, keeps turns non-empty and keeps the ledger. |
| Compactor.MarkerTextNotBlank | compactor.go:225-238 | The text of a marker is never blank, so hardening never drops one. |
| Sessions.FindContext | session.go:35-49 | The backward scan finds the text of the most recent environment block. |
| SessionStory.BlockIsLatest | session.go:35-49 | The text found is that of the last message marked as an environment block; it is empty when there is none. |
| Sessions.Session.MaybeCompact | session.go:364-383 | Compaction before a run is skipped below the threshold and when it changes no length. |
| Sessions.Session.Prompt | session.go:204-325 | The transcript in memory, the one in the store and everything sent are those of the specified prompt: compaction, environment block, run, one retry on a smaller transcript after an overflow, and saving unless compaction failed. |
| SessionStory.PromptTold | session.go:204-325 | A prompt whose transcript is due for a compaction that fails does nothing. Otherwise a user message with its text is added, before it the environment block when that is new, and then what its run adds, or, after an overflow that a shorter transcript can answer, what the second run adds to that. |
| SessionStory.PromptIsSent | session.go:216-275 | Every transcript that a prompt sends to the provider contains its text as a message of the user. |
| Sessions.Session.Shrink | cmd/glue/tui/tui.go:1370-1397 | A compaction on request changes the store only, and only when it leaves fewer messages; the session in memory keeps its own. |
| SessionTheorems.SessionKeeps | session.go:204-325 | After any sequence of prompts, however their runs end, retries, compactions, failed saves and restarts, when the provider's turns are assistant turns: turns in memory and in the store have all their results or none, everything sent was paired and free of empty turns, and the ledgers are those of everything ever said, in memory and as far as it was saved. |
| SessionTheorems.AlwaysResumable | session.go:204-325 | So at any time hardening restores closed blocks, exactly when no unanswered call has its ID on a later result. |
| SessionTheorems.ShrinkLost | cmd/glue/tui/tui.go:1389-1396 | A compaction on request reaches the session with the next restart; a prompt before that works on the longer transcript, and once it is saved nothing is left of the compaction. |
| LimitedOutput.Output.Write | executor.go:218-254 | A write moves the buffer from the state of the stream so far to the state of the stream with the new bytes, for any chunk. |
| LimitedOutput.Output.WriteAll | executor.go:218-254 | Any chunking ends in the state that depends only on the bytes written. |
| LimitedOutput.KeptTailAfter | executor.go:232-252 | The rolling tail and the dropped count of a longer stream follow from those of the shorter one. |
| LimitedOutput.Output.Head | executor.go:258-265 | With nothing omitted the head is the whole stream, else the first bytes of it up to the head budget. |
| LimitedOutput.Output.Tail | executor.go:268-273 | There is a tail exactly when the stream exceeds the budget; head, omitted bytes and tail make up the stream. |
| LimitedOutput.Output.LineCount | executor.go:278-286 | The counter gives the number of lines of the whole stream, dropped bytes included. |
| LimitedOutput.SplitCount | executor.go:278-286 | Newlines count lines: one more piece than newlines, the last empty exactly after a final newline. |
| Pager.PageLines | tools/fs/read.go:128-176 | The page shown is the specified one: the most whole lines within both caps, or a cut first line, or a note. |
| Pager.PageIsTold | tools/fs/read.go:128-176 | A page says that there is nothing or nothing there; or shows whole lines from the offset on, as many as keep both caps, and where it stopped; or, when the first line alone exceeds the byte cap, exactly that many first bytes of it. |
| Pager.FollowShape | tools/fs/read.go:128-176 | Following the named offsets gives contiguous disjoint windows within both caps, at most one page a line and a final note. |
| Pager.FollowRebuilds | tools/fs/read.go:128-176 | From any starting line, the bodies joined by newlines are exactly the remaining lines. |
| Pager.PagesRebuildFile | tools/fs/read.go:128-176 | Reading a file page by page gives the file back minus one final newline, when no line exceeds the byte cap. |
| Pager.LongLineStops | tools/fs/read.go:162-168 | A page names no offset to continue from exactly when its first line exceeds the byte cap. |
| Pager.RebuiltIff | tools/fs/read.go:128-176 | Following the offsets from the first line rebuilds the file exactly when every line fits the byte cap; otherwise, and only then, it ends in a cut line. |
| Bytes.JoinLines | tools/fs/read.go:128-135 | Joining the lines of a text gives it back minus one final newline. |
| DaemonRun.Run.Emit | daemon/run.go:32-47 | An event is appended with the next number; the old channel is closed and a new one open. |
| DaemonRun.Run.Finish | daemon/run.go:49-57 | The first call sets done and wakes everyone; later calls change nothing. |
| DaemonRun.Run.EventsFrom | daemon/run.go:65-76 | One look gives the events from an index on, the done flag and the open channel of the same moment. |
| DaemonRun.Run.AddPermission | daemon/run.go:78-86 | An entry is added exactly when its ID is free. |
| DaemonRun.Run.TakePermission | daemon/run.go:88-97 | A resolver gets the entry of a known ID and takes it out of the table, in one step. |
| DaemonRun.Run.ResolvePermission | daemon/run.go:88-100 | True exactly when the ID was pending; then the entry is gone and its empty buffer holds the decision, so the send did not block. |
| DaemonRun.Run.ExpirePermission | daemon/run.go:102-110 | An entry is removed exactly when it is this one that the ID still names. |
| PermissionProtocol.RunKeeps | daemon/run.go:78-110 | In every interleaving of deciders, resolvers, timers and cancellation the table, the buffers and the parties' phases stay consistent. |
| PermissionProtocol.AddTold | daemon/run.go:78-86 | In every interleaving a request starts to wait exactly when no waiting request has its ID, and else is given up. |
| PermissionProtocol.TakeTold | daemon/run.go:88-100 | A resolver is refused exactly when no request of its ID is in the table; otherwise it gets that one, and nobody else does. |
| PermissionProtocol.ExpiryTold | daemon/server.go:1537-1554 | The timer ends the waiting as timed out and the context as cancelled exactly while the request is in the table; once a resolver has it, both only make the decider wait for the decision. |
| PermissionProtocol.OutcomeCaused | daemon/server.go:1532-1555 | A request timed out only on its timer and was cancelled only by its context, and a decision received was brought by a resolver that named its ID with that decision. |
| PermissionProtocol.OutcomeFinal | daemon/server.go:1529-1555 | A request that has an outcome keeps it through every later step. |
| PermissionProtocol.AcceptedIsReceived | daemon/run.go:88-100 | Once a resolver was told true, its decision has been or is about to be received; never a timeout or a cancellation. |
| PermissionProtocol.ReceivedWasAccepted | daemon/server.go:1532-1552 | A received decision was sent by exactly one resolver, which was told true. |
| PermissionProtocol.ExpiredWasRefused | daemon/server.go:1537-1554 | A timed-out or cancelled request has no accepted resolver. |
| PermissionProtocol.SendEnabled | daemon/run.go:27-30 | The send on the capacity-one channel never blocks. |
| PermissionProtocol.WaitEnds | daemon/server.go:1538-1539 | The decider that lost the race waits for a decision that is on its way: two steps deliver it. |
| EventStream.DeliveredIsPrefix | daemon/server.go:1246-1256 | At all times every subscriber has delivered a prefix of the log, in order and without repeats, each event numbered by its position plus one. |
| EventStream.NoLostWakeup | daemon/run.go:65-76 | A subscriber blocked on an open channel has delivered the whole log and the run is not done. |
| EventStream.EndedSawEverything | daemon/server.go:1201-1210 | A subscriber that stops because the run is done has delivered the whole log. |
| EventStream.LogGrows | daemon/run.go:32-57 | The log only grows, and not at all after done. |
| EventStream.CatchesUp | daemon/server.go:1246-1267 | After the run has finished every connected subscriber can deliver what is left and end, within a bounded number of its own steps. |
| GlobRegex.GlobToRegexp | tools/fs/ignore.go:170-213 | The pass writes the pieces `Pieces` of the glob; what they mean is told in the next rows. |
| GlobRegex.DirsLanguage | tools/fs/ignore.go:178-182 | The expression written for `**/` accepts exactly the empty text and texts of whole directories. |
| GlobTheorem.GlobCompiles | tools/fs/ignore.go:167-213 | For patterns in which no segment but a whole `**` ends in two stars and no class reaches across a slash, the expression accepts a path exactly when segment-wise matching does: a class takes one character of its body, or none of it after an exclamation mark, and an unclosed bracket is a character. |
| GlobTheorem.GlobCompilesToGit | tools/fs/ignore.go:167-213 | On paths without newlines that is git's meaning: a leading or inner `**` stands for any number of segments, a trailing one for at least one. |
| GlobLimits.NewlineMattersIff | tools/fs/ignore.go:167-213 | Such a pattern has git's meaning on all paths, newlines included, exactly when it does not end in a `**` segment. |
| GlobLimits.NewlineMissed | tools/fs/ignore.go:183-185 | Such a path, for `**` alone. |
| GlobLimits.ClassAgreesIff | tools/fs/ignore.go:194-206 | A class means what it means to git exactly when it does not take a slash: `[!a]` reaches across directories. |
| GlobLimits.LiteralAcceptsItself | tools/fs/ignore.go:202-208 | A pattern without special characters accepts its own bytes, each read as one rune, and nothing else. |
| GlobLimits.AsciiIff | tools/fs/ignore.go:202-208 | A pattern without special characters, given as bytes, matches the text those bytes spell exactly when all are ASCII. |
| GlobLimits.NonAsciiMissed | tools/fs/ignore.go:202-208 | Such a pattern, two bytes long. |
| GlobLimits.EscapesNotRead | tools/fs/ignore.go:170-213 | A pattern that escapes its first character does not match the text it stands for. |
| GlobStars.GlobAgreesIff | tools/fs/ignore.go:167-213 | Every pattern without classes has git's meaning on all paths exactly when, before a slash, two stars are a whole segment or not at a segment's end, and at its end there are no two stars, or only segments of stars behind a whole `**`. |
| GlobWitness.InnerStarsDiffer | tools/fs/ignore.go:178-182 | For each pattern with two stars at the end of a longer segment before a slash: its shortest accepted text has too few segments for git. |
| GlobWitness.InnerStarsMissed | tools/fs/ignore.go:178-182 | `a**/b` accepts `ab`. |
| GlobWitness.LastStarsDiffer | tools/fs/ignore.go:183-186 | For each pattern with two stars at the end of a longer last segment that no whole `**` swallows: an accepted path whose segments, counted from the end, git rejects. |
| GlobSwallow.SwallowedAgrees | tools/fs/ignore.go:178-190 | Stars at the end that a whole `**` swallows mean the same to the expression and to git, on all paths. |
| Ignore.ParseIgnorePattern | tools/fs/ignore.go:135-165 | Comments, negation, anchoring, directory-only and base-only flags are read as the rule specifies; a pattern that does not compile gives no rule. |
| Ignore.PartedShown | tools/fs/ignore.go:136-157 | A line put together from an exclamation mark, a leading slash, a pattern, a final slash and white space is read as those parts, when the parts are as large as they can be. |
| Ignore.ShownParted | tools/fs/ignore.go:136-157 | Every line that is no comment and has a pattern is put together from such parts, which makes them unique. |
| Ignore.ParseIgnoreFile | tools/fs/ignore.go:125-133 | The rules of a file are those of its lines, in order. |
| Ignore.LastMatchDecides | tools/fs/ignore.go:64-82 | Over the scopes from the root to the parent, the last rule that applies decides. |
| Ignore.IgnoreMatcher.RulesFor | tools/fs/ignore.go:96-109 | The cache never changes the answer: a scope's rules are those of its file. |
| Ignore.IgnoreMatcher.PathIgnoredHere | tools/fs/ignore.go:64-82 | The nested loops compute the verdict of the last applying rule. |
| Ignore.IgnoreMatcher.Ignored | tools/fs/ignore.go:43-60 | A path is ignored exactly when it or one of its ancestor directories is. |
| Ignore.IgnoredBelow | tools/fs/ignore.go:40-60 | An ignored directory makes every descendant ignored. |
| Ignore.LineMeaning | tools/fs/ignore.go:112-165 | From the parts of a line, for patterns that mean what they mean to git: it always gives a rule; an exclamation mark re-includes, a final slash asks for a directory, and the pattern is matched as git matches, against the path when a slash stands in front or inside and against the base name otherwise. |
| Ignore.RuleMeaning | tools/fs/ignore.go:118-123 | For such patterns a compiled rule matches exactly when git's matching of its pattern accepts the path, or the base name for a base-only rule. |
| GitIgnore.IgnoredAsGit | tools/fs/ignore.go:43-82 | When all patterns that have a say on a clean path mean what they mean to git, the matcher ignores the path exactly when git does: by the last line that applies to it, from the root's file to the nearest, or by that of a directory above it, under which nothing is included again. |
| Ignore.CleanPathKept | tools/fs/ignore.go:43-50 | Cleaning leaves a path of proper names as it is. |
| FindFiles.PrunedHoldsNothing | tools/fs/nav.go:240-245 | Nothing selectable lies under a pruned directory. |
| FindFiles.Finder.Walk | tools/fs/nav.go:232-267 | The pruning walk collects what filtering the full tree would, in the same order, up to the limit. |
| FindFiles.FilesReached | tools/fs/nav.go:232-248 | The files of the tree are exactly those that names lead to through its directories, none of them `.git`, symbolic links not among them. |
| FindFiles.FoundIff | tools/fs/nav.go:246-257 | A file is selected exactly when the name pattern takes it and neither it is blocked nor it or a directory above it ignored. |
| FindFiles.FindAll | tools/fs/nav.go:232-267 | The matches are the first so many files of the filtered full tree, and truncation is reported exactly when there are more. |
| Utf8.EncodeUnit | tools/fs/match.go:319-333 | Every scalar value is written as one valid sequence that reads back as itself. |
| Utf8.EncodeValue | tools/fs/match.go:319-333 | Writing back what was read gives the bytes read. |
| Utf8.Synchronised | tools/fs/match.go:280-290 | An occurrence of whole encoded runes in a text of whole encoded runes begins and ends between runes. |
| Text.FoldASCIIWithMap | tools/fs/match.go:301-317 | The loop gives the folded text and, for each folded byte, the start and end of its source rune. |
| Text.MapsAt | tools/fs/match.go:299-317 | At every folded byte the two maps name exactly the bounds of the rune it came from, also where folding changes lengths. |
| Text.FoldSplits | tools/fs/match.go:299-317 | Folding works piecewise between runes. |
| Text.FoldTable | tools/fs/match.go:319-333 | Exactly the listed typographic quotation marks, dashes and spaces fold to each of the plain ones, and everything else to itself. |
| Text.TrimTold | tools/fs/match.go:186-196 | Trimming takes the white space runes at both ends, all of them, and nothing else. |
| Escapes.NamedTable | tools/fs/match.go:449-462 | A backslash with n, t, r or a quotation mark names the newline, the tab, the return or that mark, and no other letter is an escape. |
| Fragments.FoldedFragmentSpans | tools/fs/match.go:270-290 | The search reports the specified spans. |
| Fragments.LineFragmentsExact | tools/fs/match.go:276-288 | In one line, every report is whole runes whose fold is the folded fragment, reports are sorted and disjoint, and every such range of the line begins inside one. |
| Fragments.FragmentSpansExact | tools/fs/match.go:267-290 | The same over the whole text, in both directions. |
| Spans.SplitLineInfos | tools/fs/match.go:163-174 | The lines are the stretches between newlines, contiguous from the first byte to the last. |
| Spans.ExactSpans | tools/fs/match.go:142-157 | The search loop reports the greedy occurrences. |
| Spans.GreedyExact | tools/fs/match.go:141-157 | Everything reported matches, reports do not overlap, and every match overlaps a reported one that begins no later. |
| Spans.SlideWindow | tools/fs/match.go:210-228 | The sliding loop reports the greedy windows of whole lines. |
| Spans.WindowSpansOrdered | tools/fs/match.go:222-227 | Windows found by the loop give spans in bounds, sorted and disjoint. |
| Windows.LineWindowSpans | tools/fs/match.go:200-230 | The search reports the specified windows. |
| Windows.BlockAnchorSpans | tools/fs/match.go:235-265 | The search reports the specified anchored blocks. |
| Windows.NeedleTold | tools/fs/match.go:176-184 | The quoted lines, joined, and a final newline set apart make up the quoted text. |
| Windows.RStripIff | tools/fs/match.go:186-188 | Two lines are equal to the whitespace rung exactly when spaces and tabs at their ends are all that tells them apart. |
| Windows.EqWindowsMatch | tools/fs/match.go:198-230 | A reported span holds, line by line, text that equals the quoted lines under the rung's test, and at most one final newline more. |
| Windows.EqWindowsComplete | tools/fs/match.go:198-230 | Every window that equals the quoted lines overlaps a reported one that begins at or above it. |
| Windows.EqWindowsWhole | tools/fs/match.go:210-228 | A reported span is as many whole lines as were quoted, without the last newline, or with it when the quoted text ends in one and the file has it. |
| Windows.AnchorWindowsWhole | tools/fs/match.go:247-264 | The same for anchored spans. |
| Windows.AnchorWindowsMatch | tools/fs/match.go:232-265 | An anchored span has the quoted number of lines, at least three, with first and last line as quoted but for white space. |
| Reindent.CollectPairs | tools/fs/match.go:349-360 | The loop learns the file's indentation from the first meeting of each quoted indentation. |
| Reindent.SortPairs | tools/fs/match.go:361-368 | The exchange sort keeps the pairs and orders them by length, longest first. |
| Reindent.ApplyPairs | tools/fs/match.go:379-398 | A line gets the pair with the longest recorded indentation that it begins with. |
| Reindent.Render | tools/fs/match.go:342-401 | The renderer computes the specified re-indentation of the replacement. |
| Reindent.OwnIndentIff | tools/fs/match.go:335-360 | Rendering the quoted lines gives each its own line's indentation exactly when equal quoted indentations always met equal file indentations; the trimmed text never changes. |
| Reindent.RenderedLines | tools/fs/match.go:379-399 | A rendered text has exactly the rendered lines. |
| ReindentStory.FillIndented | tools/fs/match.go:342-401 | What is put in place of a span has the lines of the replacement: each with the longest quoted indentation that it begins with, among the non-blank quoted lines, exchanged for that of the file's line beside the first such line; or as it is when there is none. |
| ReindentStory.OnlyIndentChanges | tools/fs/match.go:379-398 | Behind the indentation each line is the replacement's own. |
| Splice.ReplaceSpans | tools/fs/match.go:415-429 | The builder loop gives the text with each span replaced, and the offset of the first replacement. |
| Splice.OutsideAndInside | tools/fs/match.go:415-429 | The stretches outside the spans and those inside make up the text, so a replacement keeps exactly the stretches outside. |
| Splice.OneReplacement | tools/fs/match.go:415-429 | One replacement keeps everything before and after it. |
| Splice.LineRangeExact | tools/fs/match.go:434-442 | The reported range runs from the line where the replacement begins to the line where it ends. |
| Splice.NewlinesNumberLines | tools/fs/match.go:431-442 | The newlines before a position number the line it is on. |
| Ladder.SpansForOrdered | tools/fs/match.go:94-116 | Every rung's spans are in bounds, sorted and disjoint. |
| Ladder.FoundAgrees | tools/fs/match.go:94-116 | Every rung's spans hold text that the rung's own test accepts as the quoted text. |
| Ladder.FindsIff | tools/fs/match.go:94-120 | A rung finds something exactly when there is a place that its test accepts: an occurrence, a window of lines, a folded fragment, or an anchored block. |
| Ladder.LadderOnce | tools/fs/match.go:89-136 | The loop answers as `Climbed` says: the first rung that finds anything decides, applied, ambiguous with its count, or not found when none does; what an edit then writes is told in the next rows. |
| Ladder.ClimbDecided | tools/fs/match.go:89-136 | That description leaves exactly one answer. |
| Ladder.EditReplacesWhatAgrees | tools/fs/match.go:118-134 | An edit replaces accepted text and keeps every stretch between; every replacement is the new text to the letter on the exact and whitespace rungs and for a folded fragment, and the new text line by line with the file's indentation on the others; and the lines reported are the first replacement's. |
| Ladder.SingleEdit | tools/fs/match.go:118-134 | Without replace_all exactly one span is replaced, the only one of the first successful rung: there stands the new text, to the letter or re-indented as the rung says, and every byte before and after it is kept. |
| Ladder.QuotedOnce | tools/fs/match.go:64-134 | A text quoted as it stands at one place only is replaced there by the new text to the letter, whatever the flags, and nothing else changes. |
| Ladder.ReindentedQuote | tools/fs/match.go:101-104 | For a window matched up to indentation, rendering the quoted text restores the file's trimmed lines, and their indentation exactly when the quoted indentation was consistent. |
| Ladder.ApplyLadderEdit | tools/fs/match.go:64-86 | The quoted text is tried as given, then with over-escaping repaired in it and in the new text; the repaired attempt counts only when no rung finds the text as given. |
| Ladder.RepairDecided | tools/fs/match.go:64-86 | The answer of the whole edit is determined. |
| Ladder.OverEscapedEdit | tools/fs/match.go:72-84 | A quoted text escaped once too often is edited as the text it was made from, unless that has a backslash of its own before an n, t or r. |
| Escapes.RepairChanges | tools/fs/match.go:457-462 | The repair changes a text exactly when it holds an escape sequence, and then shortens it. |
| Escapes.RepairUndoes | tools/fs/match.go:444-462 | The repair undoes over-escaping exactly when the text has no backslash before an n, t or r. |
| EditFile.Edit | tools/fs/edit.go:120-204 | The method answers as specified for every file, arguments and size limit; what it writes is told in the last two rows. |
| EditFile.FormRoundTrip | tools/fs/edit.go:170-194 | Taking a mark and CRLF off and putting them back gives the file back exactly when its line ends are uniform; otherwise it grows. |
| EditFile.WrittenReadsBack | tools/fs/edit.go:170-194 | Reading a written file gives the edited text again, except exactly when the text brings a mark or CRLF of its own. |
| EditFile.OutsideKeptOnDisk | tools/fs/edit.go:183-194 | The bytes written are the file's own outside the spans, and in them, with the file's line ends, the new text to the letter or re-indented as the rung says; that the file was made of those bytes outside holds exactly when its line ends were uniform. |
| EditFile.SingleEditOnDisk | tools/fs/edit.go:183-194 | Without replace_all, in a file with uniform line ends, one stretch of bytes is replaced by the new text, to the letter or re-indented as the rung says, with the file's line ends; every other byte is kept. |

## Left out

- CallIdNames.NamesValid: asks that the IDs of a transcript are fewer than 2^63, the length limit of a Go slice; beyond it the counter suffix could outgrow 64 characters and the code would panic on a negative bound.
- CallIdNames.RenamedIsFine: the same bound, and so `UnchangedIffAcceptable` and `HardenIdempotent`, which rest on it.
- CallIdNames.Sanitize: works on characters; an ID with invalid UTF-8 is not part of this model.
- Harden.HardenHistory: the `results` map that the code fills and never reads is not modelled; cloning is the immutability of values.
- Harden.IndexCalls: only the keys of the call index matter to the repair, so only they are specified.
- RunLoop.Run: assembling a provider's message from stream events is not modelled, nor are emitted events; a missing provider is an error before anything else.
- RunTheorems.RunEnds: speaks of runs whose provider delivered assistant turns only; `RunSends` covers the others.
- RunLoop.AssistantTurn: the length of delays, retry hints and the wrapping of error texts are dropped; the class of an error is an arbitrary function of its text.
- RunSpec.ModesAgree: asks that a cancelled turn stays cancelled, as a context does.
- RunLoop.ExecuteToolCalls: the interleaving of parallel executors is not modelled, only their outcomes, which the code reads after all have ended; event emission and argument normalisation are left out.
- Guardrails.GuardState.Observe: the call key (SHA-256 of name and arguments) is any function that is never empty; message texts are left out.
- Compactor.Compact: the provider's answer is a parameter; timestamps in the marker's metadata are left out.
- Compactor.ExtractFileLedger: reading a path out of a call's JSON arguments is an arbitrary function.
- Stores.LedgerSurvivesLoading: asks that another layout of a call's arguments leaves the path they encode; text that JSON cannot carry and numbers are not part of this model.
- Sessions.Session.Prompt: locking, timestamps, permissions and hooks are left out; whether a save succeeds is a parameter, and the compactor is the summarizing one or none.
- SessionTheorems.SessionKeeps: speaks of sessions whose providers delivered assistant turns only; requests for summaries are not among the transcripts sent.
- Pager.PageLines: a page is a value that carries what its closing note says; the wording of the note is left out.
- LimitedOutput.Output.Write: the spool file is left out.
- DaemonRun.Run.Emit: timestamps and run identifiers of an event are left out; payloads are opaque.
- PermissionProtocol.AcceptedIsReceived: ends with the decision received; persisting it as a remembered grant, which can fail, is left out.
- EventStream.DeliveredIsPrefix: writing an event to a client either succeeds or ends the subscription; HTTP and SSE encoding are left out.
- GlobTheorem.GlobCompiles: which characters a class body takes is an arbitrary oracle, the same on both sides; a class with a slash in its body, or that takes one, is excluded. Two stars at the end of a longer segment are covered by `GlobAgreesIff`.
- GlobStars.GlobAgreesIff: the reference is the gitignore documentation, by which other runs of stars are ordinary ones; a backslash is a character like others in it, as in the code.
- GitIgnore.IgnoredAsGit: the same, and patterns with classes are covered on names without newlines; files outside the tree that git also reads are not part of it.
- GlobRegex.GlobToRegexp: takes class bodies one by one; a body that is empty, a lone negation or ends in a backslash joins the pieces after it in the real expression, which the oracle for single classes does not express.
- Ignore.ParseIgnorePattern: judges whether a pattern compiles class by class, with the same exception.
- Ignore.CleanPathKept: `path.Clean` is modelled on lists of names; reading the ignore files is a function from scope to content.
- FindFiles.FindAll: the tree is a value in directory order and the walk starts at the workspace root or below; symbolic links are a flag, the blocklist and the name pattern are arbitrary predicates, and the final sorting of the matches is left out.
- Text.FoldASCIIWithMap: white space is Go's `unicode.IsSpace` table written out.
- Ladder.ApplyLadderEdit: the wording of errors and the strategy's display name are left out.
- EditFile.Edit: path checks, the blocklist, symbolic links, the stale-read check, atomic writing and the result snippet are left out; the placeholder test is an arbitrary predicate.
- `KeepRecentMessages` makes no pairing promise and is not modelled.
- Remembered permission grants, stores, schedulers, the terminal interface and HTTP routing are lookups and plumbing that would only add easy members.
- The regular expressions that recognise stalled turns, the classes of provider errors and lazy placeholders are arbitrary functions.
