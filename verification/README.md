# AgentPark, verified models

Dafny models of the parts of AgentPark that keep state or transform text, with proofs about every input
and every run of them. Imperative code is modelled by methods and classes, each proved against functions
on values; the laws are lemmas about those functions and about runs of them.

- **Patches.** `BlockPlacement`, `HunkLines`, `HunkPlacement`: hunks are placed by a greedy search that is
  complete, the search on the list being rewritten is the search on the original, and the lines change as the
  tags of the hunks say. `PatchFormat`, `PatchReading`, `PatchGrammar`: the patch language, its parser, its
  printer, and the texts it accepts. `PatchDirect`: what the operations do, one by one. `PatchOverlay`: a patch
  is simulated in an overlay and then committed, which is the same.
- **Agent steps.** `StepLedger`: what the scans of the event log find. `StepRuns`: an agent that crashes, or
  fails to append, between any two writes, and is restarted. `StepEffects`: what its calls do to the steps, the
  tool calls and the messages. `StepAgent`: the code, as classes. `LedgerLock`: processes that append at once.
- **Skills.** `ToolRegistry`, `SkillStaging`, `SkillLoading`, `SkillAssembly`, `SkillRuntime`: the tools that
  skills share, loaded, assembled, staged, committed, saved and restored.
- **Console.** `ProgressWatchdog`: a byte-wise recogniser and what it recognises, line by line. `PrefixCode`,
  `Utf8`, `SessionOutput`: output decoded in pieces as sections 3 and 4 of RFC 3629 demand, spooled four
  bytes a character, and paged with cursors. `SessionLifecycle`, `SessionRegistry`: how sessions end, and how
  many there are. `OutputBudget`: how output is cut to be submitted.
- **Access policy.** `AccessPolicy`, `PolicyReading`, `PolicyNormalForm`, `PolicyMerging`, `PolicyRegistration`,
  `PolicyStore`: the policy file, what is accepted and read in it, its normal form, and what merging and
  registrations make of it.
- **Names.** `FunctionNames`, `NameClaims`, `ToolNames`: the function names that remote tools get.
- `Text`, `Results`, `Uniques`, `Sequences`, `Basics`: strings as Python treats them, results, lists without
  repetitions, sequences.

## Where the code does not do what one would expect

Each of these is stated as the exact condition under which the code meets the expectation, with an input
for which it does not.

- An end marker that is indented is read as a context line of the last hunk, exactly if the last line that
  starts a section starts an update (`PatchReading.EndMarkerConsumedIff`, `PatchReading.IndentedEndMarkerIsEaten`).
- An update that changes no line leaves the file as it was exactly if every line break in it is a line feed; a
  form feed, for one, is rewritten (`HunkPlacement.UnchangedIff`, `HunkPlacement.AFormFeedIsRewritten`).
- The first commit of skills puts the control tools that every registry starts with into the registry a second
  time, so that the first activation is undone exactly only if there are none
  (`SkillRuntime.Runtime.ActivateThenDeactivate`, `SkillRuntime.ControlsComeTwice`).
- A user's hundred and first client displaces the first (`PolicyRegistration.BindingKeptIff`,
  `PolicyRegistration.AnEviction`), and an address that differs from a known one in case only is written but
  never kept (`PolicyRegistration.WrittenIsFixedIff`, `PolicyRegistration.ACaseVariant`).
- The merge of users of one name ignores the case of client identifiers, although they are case-sensitive
  everywhere else, and keeps the last hundred: a client survives exactly if no earlier one equals it but for
  case and fewer than a hundred others follow it (`PolicyNormalForm.MergedMembers`,
  `PolicyNormalForm.AClientIsLost`).
- A failed command's stream is returned whole, and more, exactly when the limit is the length of the marker and
  one (`OutputBudget.LimitExact`, `OutputBudget.AVanishingTail`).
- Tools of two servers can get one function name exactly if one server's name is the other's, a colon and more,
  and has no more words (`ToolNames.ConfusableIff`, `ToolNames.OneNameForTwoTools`). The names that the loader
  accepts have no colon (`ToolNames.ValidNamesAreClear`).

## Model

| member | source | states |
|---|---|---|
| `BlockPlacement.PlaceCorrect` | functions/apply_patch_tool.py:168-198 | greedy placement succeeds exactly when the old blocks can be placed in order without overlap in the original lines; the result is the original with the blocks replaced at the leftmost such places and every gap kept |
| `BlockPlacement.PlacedMeans` | functions/apply_patch_tool.py:183-198 | the recursive notion of a placement is the plain one: each block matches at its place, and each place is at or after the end of the block before |
| `BlockPlacement.ChosenIsLeast` | functions/apply_patch_tool.py:168-175 | no other placement has any block earlier than the greedy one |
| `BlockPlacement.PlaceIsComplete` | functions/apply_patch_tool.py:168-198 | if any placement exists, greedy placement finds one: an early choice never spoils a later one |
| `BlockPlacement.FindBlock` | functions/apply_patch_tool.py:168-175 | the loop finds the first match at or after the start, and the start itself for an empty block |
| `BlockPlacement.FirstMatchShifted` | functions/apply_patch_tool.py:187-196 | searching the rewritten list from the cursor finds what searching the untouched rest of the original finds |
| `BlockPlacement.PlaceEdits` | functions/apply_patch_tool.py:183-196 | the loop that rewrites the list in place and moves the cursor computes greedy placement on the original |
| `HunkPlacement.ApplyHunks` | functions/apply_patch_tool.py:155-198 | succeeds exactly if the hunks fit: every line that is not added stands in the text, hunk after hunk without overlap. Where they fit earliest, every line that is not removed stands in the result and all other lines are kept; there are as many lines as before, less the removed and plus the added ones; the final newline is the one the original had |
| `HunkLines.PlaceHunks` | functions/apply_patch_tool.py:183-198 | the greedy search succeeds exactly if the hunks fit by their tags, and its lines are then what the tags say, line by line, with the count that follows |
| `HunkLines.StandsIff` | functions/apply_patch_tool.py:188-195 | that the lines of a hunk without one tag stand somewhere, each at its rank among them, is that the block of them matches there |
| `HunkLines.BecomesCounts` | functions/apply_patch_tool.py:183-198 | whatever becomes of lines by the tags has as many lines as before, less the removed and plus the added ones |
| `HunkLines.PatchesOne` | functions/apply_patch_tool.py:183-198 | the tags say what becomes of the lines: there is only one such list |
| `HunkPlacement.UpdatedExact` | functions/apply_patch_tool.py:155-198 | an update succeeds exactly if its hunks fit, and any lines that are what the tags say are the lines of its text |
| `HunkPlacement.ALineIsReplaced` | functions/apply_patch_tool.py:183-198 | a hunk that removes one line and adds another makes a text of the one that of the other, and does not fit the other |
| `HunkPlacement.LinesReadBack` | functions/apply_patch_tool.py:155-165 | lines that are joined to a text are split out of it again, unless an empty one at the end has no line feed after it |
| `Text.SplitExact` | functions/apply_patch_tool.py:164-165 | a line, the break that ends it and a rest are split into the line and the lines of the rest, for every kind of break |
| `HunkPlacement.TextSurvivesIff` | functions/apply_patch_tool.py:155-165 | splitting a text into lines and joining them gives it back exactly if every line break in it is a line feed |
| `HunkPlacement.UnchangedIff` | functions/apply_patch_tool.py:155-198 | hunks that change no line, wherever they are placed, leave the text as it was exactly if every line break in it is a line feed |
| `HunkPlacement.AFormFeedIsRewritten` | functions/apply_patch_tool.py:155-198 | a text of two lines with a form feed between them that such a hunk changes |
| `BlockPlacement.RewriteSame` | functions/apply_patch_tool.py:183-198 | blocks replaced by themselves leave the lines as they were, at any placement |
| `HunkPlacement.JoinSplit` | functions/apply_patch_tool.py:155-165 | texts with line feeds only survive the round trip |
| `PatchFormat.LexRender` | functions/apply_patch_tool.py:34-130 | a printed line is read as what it was printed from |
| `PatchFormat.ParsePrint` | functions/apply_patch_tool.py:38-130 | parsing the print of any well-formed operations returns them, whatever the markers' surroundings, with the end marker at column 0 |
| `PatchFormat.ParsePrintMarked` | functions/apply_patch_tool.py:38-130 | so it is with the two markers as they stand, for every non-empty list of well-formed operations |
| `PatchReading.ParsedCanBePrinted` | functions/apply_patch_tool.py:38-130 | whatever the parser accepts is well-formed, and printing and parsing it again returns the same |
| `PatchReading.EndMarkerConsumedIff` | functions/apply_patch_tool.py:93-130 | of an accepted patch all but the end marker is consumed; the marker itself exactly if it is indented and the last line that starts a section starts an update |
| `PatchReading.LastIsUpdateIff` | functions/apply_patch_tool.py:104-126 | the last operation read is an update exactly if the last section line that is not a move starts one |
| `PatchReading.IndentedEndMarkerIsEaten` | functions/apply_patch_tool.py:51-130 | a patch of five lines whose indented end marker becomes a context line of its update |
| `PatchReading.ParseSectionTail` | functions/apply_patch_tool.py:38-130 | a section parser leaves fewer lines, the last of those it got; the body of an Add File or Update File section stops at a section line or at the end; only an update can run past the line that ends the patch |
| `PatchReading.UpdateStopsAtSection` | functions/apply_patch_tool.py:70-90 | an update never consumes a final line that starts another section or ends the patch at column 0 |
| `PatchReading.ParseAddFile` | functions/apply_patch_tool.py:38-48 | the index loop parses what the recursive parser does, with the same errors, and never moves back |
| `PatchReading.ReadHunk` | functions/apply_patch_tool.py:51-67 | the same for hunks; the index always advances |
| `PatchReading.ParseUpdateFile` | functions/apply_patch_tool.py:70-90 | the same for updates with moves |
| `PatchReading.ReadSection` | functions/apply_patch_tool.py:106-126 | the same for one section; the index always advances |
| `PatchReading.ReadPatch` | functions/apply_patch_tool.py:93-130 | the same for a whole patch, markers and emptiness checked |
| `PatchGrammar.AcceptedIff` | functions/apply_patch_tool.py:93-130 | a patch is accepted as some operations exactly if it starts and ends with the markers and what is between is the lines of those operations, with blank lines between sections but not after an added or an updated file, and no other line |
| `PatchGrammar.SpelledIff` | functions/apply_patch_tool.py:101-130 | the same of the lines between the markers |
| `PatchDirect.NewTextExact` | functions/apply_patch_tool.py:228-234 | an update with neither hunk nor move is refused, a pure move keeps the text, and any other succeeds exactly if its hunks fit and makes of the text what their tags say |
| `PatchDirect.DirectStepExact` | functions/apply_patch_tool.py:201-248 | an operation can be carried out exactly if it adds where nothing is, deletes or updates a file, moves to where nothing is or onto itself, and its hunks fit; it changes the paths it names, as it says, and no other |
| `PatchOverlay.StepRefines` | functions/apply_patch_tool.py:138-152 | an operation in the overlay succeeds exactly if it does on the disk the overlay shows, and then both show the same; moved, repeated and aliased paths included |
| `PatchOverlay.SimulateRefines` | functions/apply_patch_tool.py:201-252 | the same for every list of operations and every disk |
| `PatchOverlay.OneSummaryEach` | functions/apply_patch_tool.py:201-252 | one summary an operation, in order, with its kind, its path and its target; and the paths reported as changed are those of the summaries |
| `PatchOverlay.Workspace.SimulateOperations` | functions/apply_patch_tool.py:201-252 | the loop over the operations computes the simulation and leaves the disk alone |
| `PatchOverlay.Workspace.CommitState` | functions/apply_patch_tool.py:311-318 | removing first and writing then leaves the disk as the overlay showed it |
| `PatchOverlay.Workspace.ApplyPatch` | functions/apply_patch_tool.py:321-341 | succeeds exactly if the patch parses, carrying it out directly succeeds and the diff is recorded; the disk is then what direct execution gives, every operation is reported in order, and paths that are not reported are unchanged; after any error the disk is unchanged |
| `StepLedger.OpenStepsExact` | src/agent_step_ledger.py:121-131 | the scan's list holds exactly the steps started and not closed since, each once |
| `StepLedger.LatestOpenExact` | src/agent_step_ledger.py:121-131 | the latest open step is open, and the only one when there is at most one |
| `StepLedger.UnknownExact` | src/agent_step_ledger.py:88-113 | unknown outcomes are exactly the calls started and neither finished nor resolved, each once, with the data of their last start |
| `StepRuns.RunSafe` | src/agent_step_ledger.py:194-225 | in every run with failures and crashes between any two writes, and restarts: at most one step is open, the scan returns it or nothing, sequence numbers are positions, no call is recovered twice |
| `StepRuns.StepKeeps` | src/agent_step_ledger.py:194-347 | every action of an agent, a crash and a restart keep this |
| `StepRuns.RecoverAllKeeps` | src/agent_step_ledger.py:337-347 | recording recoveries, broken off anywhere, adds recoveries only, none for a call that has one, and one for every call if it completes |
| `StepRuns.InjectionCompletes` | src/agent_step_ledger.py:326-347 | after an injection that completes, after any run, every unknown call has exactly one recovery, and the unknown calls are the same |
| `StepRuns.RunGrows` | src/agent_step_ledger.py:52-80 | no run takes anything out of the log |
| `StepRuns.InsertionExact` | src/agent_step_ledger.py:348-378 | the new messages are one assistant message and its tool replies, in order, in one place, and all other messages in order |
| `StepRuns.InsertionPlace` | src/agent_step_ledger.py:368-377 | that place is directly before the last user message, or the end if there is none |
| `StepEffects.InjectionExact` | src/agent_step_ledger.py:326-378 | when an injection returns, the agent had not injected before and some call is unknown, exactly the unknown calls and their replies stand among the messages, in the order in which they were first started, as one block directly before the last user message or at the end; in every other case the messages are as they were |
| `StepEffects.InjectionRecords` | src/agent_step_ledger.py:337-347 | the records an injection adds are recoveries, each of an unknown call with the data of its start |
| `StepEffects.RecoverAllRecords` | src/agent_step_ledger.py:337-347 | so it is with the recording loop, broken off anywhere |
| `StepEffects.InjectionReturns` | src/agent_step_ledger.py:326-347 | an injection in which nothing fails returns |
| `StepEffects.UnknownIsUnknown` | src/agent_step_ledger.py:88-113 | the outcomes the scan lists are those of exactly the calls started and not settled, each once, as recorded last, in the order of their first starts |
| `StepEffects.CheckpointOpens` | src/agent_step_ledger.py:194-225 | a checkpoint that returns leaves its step open and no other, and the agent remembers it with its request |
| `StepEffects.CloseCloses` | src/agent_step_ledger.py:291-298 | closing that returns leaves no step open and none remembered |
| `StepEffects.FailureCloses` | src/agent_step_ledger.py:241-254 | a failure that is recorded leaves the steps open that were, and none if it is terminal |
| `StepEffects.ToolRecorded` | src/agent_step_ledger.py:300-324 | a recorded start with an id starts that call, a recorded end or resolution settles it, and neither does anything to another call, to the steps or to the agent |
| `StepEffects.StartIsListed` | src/agent_step_ledger.py:88-113 | a call not settled before is listed as unknown once its start is recorded, with the name and the arguments recorded and the step that was open |
| `StepEffects.EndIsNotListed` | src/agent_step_ledger.py:88-113 | and is listed no more once its end or its resolution is |
| `StepAgent.Ledger.LatestOpenStepId` | src/agent_step_ledger.py:121-131 | the loop over the log computes the latest open step |
| `StepAgent.Ledger.UnknownToolOutcomes` | src/agent_step_ledger.py:88-113 | the loop with its two tables computes the unknown outcomes |
| `StepAgent.Ledger.RecoveredUnknownCallIds` | src/agent_step_ledger.py:133-138 | exactly the calls with a recovery in the log |
| `StepAgent.Ledger.Append` | src/agent_step_ledger.py:52-80 | appends one record with the next number, or fails before or after writing it |
| `StepAgent.Agent.CloseCurrentStep` | src/agent_step_ledger.py:291-298 | takes the closing step of the run model, in all ways it can fail |
| `StepAgent.Agent.CheckpointProviderRequest` | src/agent_step_ledger.py:194-225 | takes the checkpoint step: closes what a former run left open, then starts a step |
| `StepAgent.Agent.RecordForStep` | src/agent_step_ledger.py:227-289 | records a provider event of the open step |
| `StepAgent.Agent.RecordProviderFailure` | src/agent_step_ledger.py:241-254 | records a failure, and closes the step if it is terminal |
| `StepAgent.Agent.RecordToolCallStarted` | src/agent_step_ledger.py:300-311 | records the start of a call |
| `StepAgent.Agent.RecordToolCallFinished` | src/agent_step_ledger.py:313-324 | records its end |
| `StepAgent.Agent.RecordRecovered` | src/agent_step_ledger.py:337-347 | records the recoveries that are missing, up to a failure |
| `StepAgent.Agent.LastUserMessage` | src/agent_step_ledger.py:368-376 | the place for the recovery messages |
| `StepAgent.Agent.InjectUnknownToolOutcomes` | src/agent_step_ledger.py:326-378 | the loops and the insertion take the injection step of which `StepEffects.InjectionExact` speaks, at most once for an agent, a second reading of the log that fails included |
| `LedgerLock.NumbersArePositions` | src/agent_step_ledger.py:52-80 | under every interleaving of appenders that hold the lock from counting to writing, numbers are positions |
| `ToolRegistry.MergeExact` | nodes/agent_skill_runtime.py:100-110 | a merge succeeds exactly if the two registries agree on the names they share, and gives the union of both, declarations and functions |
| `ToolRegistry.RegisterBuilt` | nodes/agent_skill_runtime.py:82-98 | registration keeps declarations and functions in step |
| `SkillAssembly.RegisterAllExact` | src/tool/base_tool.py:81-94 | registering entries succeeds exactly if every name is valid and none stands for two functions, and then adds exactly their functions and, where a name is new, their declarations with the prompts applied |
| `ToolRegistry.MergeInto` | nodes/agent_skill_runtime.py:100-110 | the loop with its table computes the merge |
| `SkillAssembly.MergeAppends` | nodes/agent_skill_runtime.py:100-110 | a merge puts new declarations behind those there are, each from the source and of a name that was new |
| `SkillStaging.StageExact` | nodes/agent_skill_runtime.py:112-120 | skills can be staged over a base exactly if all of them agree with it and with each other, and the tools are then those of all |
| `SkillStaging.SubsetStages` | nodes/agent_skill_runtime.py:112-120 | if a set of skills can be staged, every subset can |
| `SkillStaging.StagedTools` | nodes/agent_skill_runtime.py:112-120 | the staged registry has exactly the tools of the base and of the skills |
| `SkillAssembly.StagedExactly` | nodes/agent_skill_runtime.py:112-120 | whatever is staged has the functions and the declarations of the target and, besides them, those of the first skill that has the name |
| `SkillAssembly.StagedRootsExact` | nodes/agent_skill_runtime.py:112-120 | the staged roots are those of the last skill that has the path, or else those there were |
| `SkillStaging.StageFrame` | nodes/agent_skill_runtime.py:82-98 | only the bundles of the staged skills matter |
| `SkillStaging.Sort` | nodes/agent_skill_runtime.py:117 | skills are merged in the order of their names |
| `SkillStaging.SortedInOrder` | nodes/agent_skill_runtime.py:117 | those names are in code point order, each once |
| `SkillRuntime.Runtime.LoadBundle` | nodes/agent_skill_runtime.py:82-98 | a bundle is assembled once and cached, as `SkillAssembly.AssembleExact` says; a failure caches servers at most |
| `SkillAssembly.AssembleExact` | nodes/agent_skill_runtime.py:82-98 | a skill that is not cached can be assembled exactly if its modules and servers load, no name of the controls, modules and scripts is invalid or stands for two functions, and no declaration of a server contradicts another; its registry then has the functions and declarations of the controls, modules, servers and scripts, of the first of these where several have a name |
| `SkillAssembly.AssembledNames` | nodes/agent_skill_runtime.py:82-98 | its names are exactly those of the controls, of the entries of its modules, of its servers, cached or loaded, and of its scripts |
| `SkillAssembly.AssembleCaches` | nodes/agent_skill_runtime.py:89-94 | what is cached of servers afterwards was cached or is of the skill, and is what loading it gives |
| `SkillAssembly.TryLoadExact` | nodes/agent_skill_runtime.py:49-56 | `restore` chooses a skill exactly if it is cached or can be assembled, and passes it over exactly if a server does not load |
| `SkillRuntime.Runtime.Commit` | nodes/agent_skill_runtime.py:112-130 | succeeds exactly if the skills that are not cached can be loaded one after another, no declarations contradict each other and saving works; otherwise registry, roots, active set and record are as they were |
| `SkillRuntime.Runtime.Change` | nodes/agent_skill_runtime.py:64-80 | succeeds exactly if the skill is known and the new active set is the old one or can be committed, which for a deactivation it always can but for saving; changes the active set by the one skill, or nothing on an error; a deactivation removes exactly the tools found neither in the base nor in a skill that stays |
| `SkillRuntime.Runtime.ActivateThenDeactivate` | nodes/agent_skill_runtime.py:64-80 | the activation succeeds exactly if the skill is ready and can be saved, the deactivation exactly if that can be saved, else the skill stays active; functions, declarations and roots are restored exactly once anything was committed; before that, exactly if there are no control tools |
| `SkillRuntime.ControlsComeTwice` | nodes/agent_skill_runtime.py:112-126 | a new runtime with one control tool and one skill, after whose activation and deactivation the tool is declared twice |
| `SkillRuntime.HistoryDoesNotMatter` | nodes/agent_skill_runtime.py:112-130 | runtimes with the same base and active set have the same registry and roots, however they got there; one that has committed nothing differs from one that has exactly if there are control tools to add |
| `SkillRuntime.Runtime.Restore` | nodes/agent_skill_runtime.py:44-62 | succeeds exactly if the selected skills load but for failing servers, those that do can be staged, and the record can be written where it changes; active are then exactly those that loaded, and the record is the selected ones; if they cannot be restored nothing changes, if only the record cannot be written they are active |
| `SkillLoading.AssembleBuilt` | nodes/agent_skill_runtime.py:82-98 | every bundle that can be assembled is built by registration, and no loaded server changes |
| `SkillLoading.LoadAllGrows` | nodes/agent_skill_runtime.py:82-98 | loading skills one after another leaves all of them cached and changes no bundle that was |
| `SkillRuntime.Runtime.StageNames` | nodes/agent_skill_runtime.py:117-120 | the loop that loads and merges in turn succeeds exactly if loading all of them and then staging them would |
| `SkillRuntime.Runtime.LoadSelected` | nodes/agent_skill_runtime.py:48-57 | the loop loads what can be loaded, skill by skill: a failing server costs its skill, any other failure is that error |
| `SkillLoading.LoadMoreExact` | nodes/agent_skill_runtime.py:48-57 | chosen are exactly the skills loaded in the end; nothing else is loaded and nothing cached changes |
| `ProgressWatchdog.LinesExact` | functions/console_progress_watchdog.py:85-93 | the lines of a stream are what line feeds separate |
| `ProgressWatchdog.RunLengthExact` | functions/console_progress_watchdog.py:100-118 | the quiet run of a line is its longest beginning of glyphs and blanks |
| `ProgressWatchdog.EventsSnoc` | functions/console_progress_watchdog.py:85-127 | how one byte changes the events of a stream, as the sum over its lines defines them |
| `ProgressWatchdog.Watchdog.ObserveQuietGlyph` | functions/console_progress_watchdog.py:100-118 | the flags and counters of a line report exactly its quiet events |
| `ProgressWatchdog.Watchdog.FinishLine` | functions/console_progress_watchdog.py:120-127 | one event if the remembered end of the line matches |
| `ProgressWatchdog.Watchdog.Consume` | functions/console_progress_watchdog.py:85-98 | every byte is taken once; the time of progress moves exactly with the count |
| `ProgressWatchdog.Watchdog.Observe` | functions/console_progress_watchdog.py:63-70 | after every observation, however the bytes came in chunks, the count is that of the per-line definition, and every chunk is consumed once |
| `ProgressWatchdog.Watchdog.Arrive` | functions/console_progress_watchdog.py:63-70 | output that arrives between observations is not seen before the next one |
| `ProgressWatchdog.Watchdog.Expired` | functions/console_progress_watchdog.py:72-73 | with a clock that does not go back, the watchdog expires exactly when it was started that long ago and no observation since found more events in the output than the one before |
| `ProgressWatchdog.LastRiseExact` | functions/console_progress_watchdog.py:129-131 | the last progress is by some time exactly if the start and every observation that found more events are |
| `Utf8.Utf8Matches` | functions/console_session_output.py:22-27 | the strict decoder reads exactly the encodings of Unicode scalar values: it reads back what is written, whatever follows, and what it reads is written so |
| `Utf8.IncompleteIff` | functions/console_session_output.py:22-27 | bytes are held back exactly if they begin an encoding |
| `Utf8.DecodedIsEncoded` | functions/console_session_output.py:22-27 | what is decoded encodes to the bytes read |
| `Utf8.SpoolMatches` | functions/console_session_output.py:31 | four little-endian bytes a character are read back |
| `PrefixCode.FeedExact` | functions/console_session_output.py:22-27 | decoding in pieces, with held back bytes, is decoding at once, errors included |
| `SessionOutput.CapturedIsDecoded` | functions/console_session_output.py:21-44 | what is captured is a prefix of what the bytes decode to, and all of it if capturing ended without error |
| `SessionOutput.RunCaptures` | functions/console_session_output.py:21-44 | in every run, for a stream whose pipe does not break: there is no error exactly if all that came through the pipe can be decoded, to at most 16777216 characters, and no character is cut off once it has ended; the text is then what it decodes to and the bytes held back are the rest; and the writer reads on exactly until there is an error or the end |
| `SessionOutput.DrainIsFaithful` | functions/console_session_output.py:21-36 | every turn of the writer keeps this, whatever pieces come |
| `SessionOutput.DrainCaptures` | functions/console_session_output.py:21-44 | every turn of the writer keeps this |
| `SessionOutput.SpoolReadBack` | functions/console_session_output.py:46-53 | any slice of characters is the slice at four times its offsets |
| `SessionOutput.SnapMoves` | functions/console_session_process.py:133-165 | a page taken with the last cursor never fails, is as long as it may and can be, and takes the reader on by what it holds |
| `SessionOutput.SnapFailsIff` | functions/console_session_process.py:133-143 | a snapshot fails exactly on a cursor of another session or outside a stream |
| `PrefixCode.DecodeGrows` | functions/console_session_output.py:22-27 | when more bytes come the decoded text only grows, and what cannot be decoded still cannot |
| `SessionOutput.ReadsLoseNothing` | functions/console_session_process.py:133-165 | under every interleaving of writers and pages of any size, kept or discarded, what was read is a prefix of what was captured, and all of it once a page says so |
| `SessionOutput.Stream.DrainPiece` | functions/console_session_output.py:25-36 | the loop body over the spool is the writer's step of which `SessionOutput.RunCaptures` speaks, the limit of 16777216 characters included |
| `SessionOutput.Stream.ReadFrom` | functions/console_session_output.py:46-53 | the read seeks into the spool and returns that page of the text, or an error exactly outside it |
| `SessionOutput.TakeSnapshot` | functions/console_session_process.py:133-147 | the snapshot of the two streams |
| `SessionOutput.Serialize` | functions/console_session_tools.py:19-28 | the retry ends; the size of its page is the first of the halved ones that is not too long, the whole one without a limit; it fails only on a bad cursor or if one character is too long |
| `SessionLifecycle.OutcomeExact` | functions/console_session_process.py:70-125 | a session ends in one of three ways: in success exactly if nothing was seen amiss, the process exited with code 0, left no forbidden child, lost no output, and every call that was made returned; as stopped exactly if a stop was the first thing seen and ending it went well; otherwise in error |
| `SessionLifecycle.Watch` | functions/console_session_process.py:74-83 | the first tick that interrupts decides |
| `SessionLifecycle.Supervise` | functions/console_session_process.py:73-111 | the guarded part fails exactly if a call it makes fails |
| `SessionLifecycle.Session.Monitor` | functions/console_session_process.py:70-125 | the monitor ends the session with the outcome that the turns of its loop decide, and with a message except for success and an exit code |
| `SessionLifecycle.Session.Look` | functions/console_session_process.py:74-83 | a turn of the loop is left exactly on a stop, a cancellation or a capture error |
| `SessionLifecycle.RunSafe` | functions/console_session_registry.py:19-50 | in every run, never more than 128 sessions retained or 8 running; what is done stays as it ended; nothing starts after the close |
| `SessionLifecycle.RunMoves` | functions/console_session_registry.py:19-50 | what every continuation of a run keeps |
| `SessionLifecycle.WatchedAtCloseIsStopped` | functions/console_session_registry.py:37-43 | a session that is looked at after the close does not succeed |
| `SessionLifecycle.HowItEnds` | functions/console_session_process.py:70-125 | after one more turn of its loop a session ends as stopped exactly if it was asked to stop or the run is cancelled and ending it goes well; as an error if capturing failed; and otherwise as its process did |
| `SessionLifecycle.RequestReaches` | functions/console_session_registry.py:37-43 | a stop asked for, of one session or by the close, reaches its session whatever happens before it looks again: it sees nothing but the stop and does not succeed |
| `SessionLifecycle.NobodyElseStops` | functions/console_session_process.py:74-83 | a session that was not asked, in a run that is not cancelled or closed, sees no stop and does not end as stopped |
| `SessionLifecycle.StartExact` | functions/console_session_registry.py:19-27 | a start adds its session exactly if the registry is open, fewer than 128 sessions are kept, fewer than 8 run and the launch works; no other session is touched |
| `SessionLifecycle.EightRun` | functions/console_session_registry.py:23-24 | of any sessions started in a row exactly the first eight run |
| `SessionLifecycle.ManyKept` | functions/console_session_registry.py:23-24 | of any sessions that end at once exactly the first 128 are kept |
| `SessionRegistry.Registry.Start` | functions/console_session_registry.py:19-27 | takes the start step of the runs: starts exactly if open, within both limits and the launch works; otherwise nothing changes |
| `SessionRegistry.Registry.CountRunning` | functions/console_session_registry.py:23 | counts the sessions that are not done |
| `SessionRegistry.Registry.Get` | functions/console_session_registry.py:29-35 | the session of that name, or an error exactly if there is none or the registry is closed |
| `SessionRegistry.Registry.Close` | functions/console_session_registry.py:37-50 | takes the close step of the runs: asks every session to stop; reports what closing each raised, once and in order |
| `SessionRegistry.MessagesConcat` | functions/console_session_registry.py:44-50 | what is reported of two lists of sessions is what is reported of the one and then of the other |
| `SessionRegistry.Registry.Turn` | functions/console_session_process.py:74-83 | a session of the registry takes the step of its monitor looking |
| `SessionRegistry.Registry.End` | functions/console_session_process.py:70-125 | and that of its monitor ending |
| `SessionRegistry.Registry.RequestStop` | functions/console_session_process.py:183-184 | and that of being asked to stop |
| `SessionRegistry.Registry.Limits` | functions/console_session_registry.py:23-24 | in every state the registry can be in, at most 128 sessions are retained and 8 running |
| `OutputBudget.Search` | functions/console_output_policy.py:51-69 | without monotonicity: a limit found fits and the next does not; none is found exactly if all probes fail, and then one character does not fit; the largest if fitting is downward closed |
| `OutputBudget.BuildResult` | functions/console_output_policy.py:47-69 | shows both streams under the limit of the result, which is the configured one or, if that is too much to be submitted, one of which one more would be; never returns more than can be submitted, and fails only if one character a stream is too much |
| `OutputBudget.LimitExact` | functions/console_output_policy.py:157-200 | exactly the smaller of length and limit, as reported, cut from both ends without overlap: a quarter from the beginning beside the marker, a half without it, nothing for a successful command; except exactly when the limit is the marker's length and one |
| `OutputBudget.ShownIff` | functions/console_output_policy.py:157-200 | that says all there is about what is returned of a stream |
| `OutputBudget.DecimalExact` | functions/console_output_policy.py:166-167 | the number of omitted characters is written in digits that read back as it, without leading zeros |
| `OutputBudget.CutExact` | functions/console_output_policy.py:165-189 | the same for any marker |
| `OutputBudget.AVanishingTail` | functions/console_output_policy.py:168-173 | 57 characters for a limit of 28 |
| `PolicyNormalForm.ValidatedIsNormal` | src/access_policy.py:150-207 | everything accepted is in normal form: names distinct after casefolding, one user a client, lists without repetitions and within their limits |
| `PolicyReading.ValidateExact` | src/access_policy.py:150-207 | a payload is accepted exactly if it is an object of the two fields, its users are at most 1000 entries that can be read, its tools at most 500 texts that are not blank, and no client has two users once entries of one name are joined; the policy is then the joined entries and the tools, or the default ones |
| `PolicyReading.UserExact` | src/access_policy.py:162-179 | an entry can be read exactly if it has a name, clients and, if any, addresses that are well formed; it says that its user is a developer exactly by the value `true`, and its clients, addresses and dates are the trimmed ones |
| `PolicyReading.EntriesExact` | src/access_policy.py:296-312 | lists are read exactly if they are texts, none blank and not too many; the texts are trimmed and the first of each spelling is kept |
| `PolicyReading.ClientIdsExact` | src/access_policy.py:228-251 | clients are read exactly if all are well formed, at most a hundred, or the single one of an old entry is |
| `PolicyNormalForm.FixedIffNormal` | src/access_policy.py:150-207 | a policy is returned unchanged exactly if it is in normal form |
| `PolicyNormalForm.ValidateIdempotent` | src/access_policy.py:150-312 | validating what was accepted returns the same |
| `PolicyNormalForm.ReadBack` | src/access_policy.py:46-55 | a sound policy that is written is accepted, less only what differs in case from something earlier |
| `PolicyNormalForm.GatheredExact` | src/access_policy.py:162-186 | every name is kept once, and its user is a developer exactly if some entry of that name is |
| `PolicyNormalForm.GatheredSummed` | src/access_policy.py:254-293 | every user has the earliest first and the latest last date of the entries of its name, missing only if all are, and the spelling of the first of them |
| `PolicyNormalForm.MergedMembers` | src/access_policy.py:274-283 | a value survives a merge exactly if no earlier one equals it but for case and fewer than a hundred others follow it |
| `PolicyNormalForm.AClientIsLost` | src/access_policy.py:254-283 | two entries of one name whose clients differ in case only; the second is gone when the policy is loaded |
| `PolicyMerging.GatheredClients` | src/access_policy.py:162-186 | every client of a user comes from an entry of its name; they are those of a single entry, or of several the last hundred of those ever taken up, which are all but later case variants while there are no more than a hundred between them |
| `PolicyMerging.MergedEntered` | src/access_policy.py:274-283 | what merging lists one after another keeps are the last hundred taken up, where a value is taken up if it equals, but for case, neither one then kept nor an earlier one of its list |
| `PolicyMerging.GatheredGrouped` | src/access_policy.py:162-186 | clients and addresses of a user are the entries of its name merged one after another; the other entries do not matter |
| `PolicyMerging.MergedWhole` | src/access_policy.py:274-283 | merging one after another keeps what dropping repetitions from all together keeps, up to a hundred |
| `PolicyNormalForm.MergedLists` | src/access_policy.py:274-283 | a merge is without repetitions after casefolding, within the cap, and all its values come from the lists |
| `PolicyRegistration.RegisterSound` | src/access_policy.py:85-140 | a registration keeps the policy sound |
| `PolicyRegistration.RegisterExact` | src/access_policy.py:85-140 | fails exactly for a new user beside a thousand others; otherwise only the first user with the client, or else of the name, changes: its last date is now, the client and an address that is not blank are put down last where they are new, the oldest of a hundred giving way, and all else of it stays; a new user has this client and address alone, is no developer and has both dates now |
| `PolicyRegistration.MatchExact` | src/access_policy.py:86-111 | the user of a registration is the first that has the client or, when nobody has it, the first of the name; there is none exactly if nobody has either |
| `PolicyRegistration.RegisteredExact` | src/access_policy.py:73-142 | a request is granted exactly if client and name are well formed, the file can be loaded and there is room; the policy loaded is then booked on so |
| `PolicyRegistration.BindingKeptIff` | src/access_policy.py:125-129 | a client keeps its user exactly unless it is the oldest of a hundred and a new one comes |
| `PolicyRegistration.AnEviction` | src/access_policy.py:125-129 | such a registration |
| `PolicyRegistration.WrittenIsFixedIff` | src/access_policy.py:130-131 | what is written is read back unchanged exactly unless the address is another spelling of one that stays |
| `PolicyRegistration.CaseVariantIsDropped` | src/access_policy.py:130-131 | such an address is written and not kept, whatever the number of addresses; at a hundred the oldest is lost for it |
| `PolicyRegistration.ACaseVariant` | src/access_policy.py:130-131 | a policy and a registration whose result is not read back as it was written |
| `PolicyRegistration.RunLoads` | src/access_policy.py:73-142 | over any history from a policy that loads, or from no file, the stored policy loads and is sound, and users keep place, name, developer flag and first date |
| `PolicyRegistration.RunBindsIff` | src/access_policy.py:73-142 | over every history a bound client keeps its user unless a registration evicts it, and exactly then if it does not register again itself |
| `PolicyRegistration.RunBinds` | src/access_policy.py:73-142 | so it does over every history that is too short to bring its user a hundred clients |
| `PolicyStore.MergeUnique` | src/access_policy.py:274-283 | the loop computes the merge of two lists |
| `PolicyStore.StringList` | src/access_policy.py:296-312 | the loop computes the entries without repetitions, or the first error |
| `PolicyStore.UserClientIds` | src/access_policy.py:228-251 | the same for client identifiers, or the single one |
| `PolicyStore.GatherUsers` | src/access_policy.py:160-186 | the loop with its index of names computes the merged users, or the first error |
| `PolicyStore.CheckOwners` | src/access_policy.py:188-196 | the loop with its table of owners accepts exactly if no client has two users |
| `PolicyStore.ValidatePolicy` | src/access_policy.py:150-207 | the code computes the validation |
| `PolicyStore.Store.RegisterRemoteUser` | src/access_policy.py:73-142 | under exactly these conditions the file becomes the policy booked on, and else stays as it was; the user returned is the one refreshed or entered, as stored |
| `FunctionNames.SafePartExact` | nodes/agent_mcp_runtime.py:292-297 | the two substitutions and strippings amount to joining the words of a name by underscores; refused exactly if there are none |
| `FunctionNames.SamePartIff` | nodes/agent_mcp_runtime.py:292-297 | two names become one part exactly if they have the same words |
| `FunctionNames.SafePartFixedIff` | nodes/agent_plugin_tool_loader.py:170-175 | what stays as it is: safe characters, no underscore at an end and no two together; so sanitising is idempotent |
| `FunctionNames.QualifiedDecodes` | nodes/agent_mcp_runtime.py:288-289 | a function name determines its two parts |
| `FunctionNames.SameQualifiedIff` | nodes/agent_mcp_runtime.py:288-297 | two function names are the same exactly if both names have the same words |
| `FunctionNames.WordsAround` | nodes/agent_mcp_runtime.py:293-294 | a character that is replaced separates the words before it from those after it |
| `NameClaims.ClaimAllExact` | nodes/agent_mcp_runtime.py:48-82 | claims succeed exactly if all items can be named and no name that passes the filter is for two identities |
| `NameClaims.ClaimGroups` | nodes/agent_mcp_runtime.py:50-82 | the nested loops do this and give exactly the items that pass, in order |
| `ToolNames.Materialize` | nodes/agent_mcp_runtime.py:42-92 | succeeds exactly if every tool that a server lists can be named and no two that pass the filter share a function name but not an identity; it gives exactly those that pass, each under its server's name, server by server and in the order listed |
| `NameClaims.PickedExact` | nodes/agent_mcp_runtime.py:50-82 | what is picked are the items that pass, each where it stands and as often |
| `ToolNames.OffersExact` | nodes/agent_mcp_runtime.py:47-50 | what is claimed are exactly the tools listed, server by server |
| `ToolNames.NamesTell` | nodes/agent_mcp_runtime.py:69-75 | one function name, one identity; and one tool, unless the two servers can be confused |
| `ToolNames.ConfusableIff` | nodes/agent_mcp_runtime.py:47-92 | two servers can have two tools that are given one function name exactly if one name is the other's, a colon and more, and both have the same words |
| `ToolNames.SharedIsGiven` | nodes/agent_mcp_runtime.py:69-75 | such tools are both given it when their servers list them |
| `ToolNames.AmbiguousIff` | nodes/agent_mcp_runtime.py:70 | two servers can share an identity string exactly if one name is the other's, a colon and more |
| `ToolNames.OneNameForTwoTools` | nodes/agent_mcp_runtime.py:69-75 | two tools that get one function name |
| `ToolNames.AmbiguousYetClear` | nodes/agent_mcp_runtime.py:69-75 | two servers that can share an identity but never a function name |
| `ToolNames.ValidNamesAreClear` | nodes/agent_mcp_loader.py:197-198 | names that the loader accepts are never ambiguous, so never confused |
| `ToolNames.MaterializePlugin` | nodes/agent_plugin_tool_loader.py:56-89 | succeeds exactly if all names can be converted and differ in their words, and then every tool has its own function name |
| `NameClaims.Separate` | nodes/agent_plugin_tool_loader.py:56-67 | accepts exactly the lists with a key for every tool and none twice |

## Left out

- Encodings, directories and their creation, links and letter case of paths: files are a map from resolved
  paths; the resolver is any function, so that two spellings may name one file.
- Failures of the file system while a patch is being committed, and the contents of the diff that is recorded.
- Identifiers of sessions are new, and the text of the clock has no blanks at its ends.
- Ledger lines that are torn, two live agents on one ledger, and a ledger that is switched off; step, request
  and call identifiers are new when they are made.
- The messages that `refresh_skill_messages` rewrites after a commit; a later change of the active set
  overwrites the record of skills that failed to load when they were restored, as the code does.
- What shows test progress in a line (a regular expression) and what `str.casefold`, JSON and `str` make of
  values: any function. Payloads are JSON values, so lone surrogates are not considered.
- Servers that fail to list their tools, and the declarations that are built for the tools they list.
- The shape checks of cursors, the report times, and the last characters that a snapshot repeats while a
  session runs.
- Processes, signals, job objects, threads and clocks: what they answer is given to the models in every
  possible way. Exceptions that are not ordinary ones, and a poll that fails when a session is closed.
- AccessPolicy error texts: an error is an error, in the same cases but without the position in the list.
- The parser of `git status` records, `read_file` paging, search result limits, channels, providers, nodes and
  their configuration: they would add easier members of the same kind, or rest on foreign services.
