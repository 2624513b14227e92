# virtkit guest agent: verified models

Dafny models of seven parts of virtkit's guest agent (`vk-agent`), each with the properties the agent relies on, proved for every input, every run or every reachable state. `dafny verify dfyconfig.toml` checks the whole project.

- **Glob selection** (`Wildcard`, `GlobMatch`, `GlobTokens`, `GlobBraces`, `BraceMeaning`, `GlobPattern`, `GlobLiteral`, `GlobSpelling`, `GlobReading`, `GlobMeaning`, `ProjectPath`, `Selection`). Two greedy matchers that remember only the last `*` or `**` are proved equal to the plain recursive meaning of a glob, and that meaning is fixed by laws for each token, each segment and for patterns one after the other. Brace expansion, the class and escape tokenizer, the literal base and the depth bound feed a directory walk; what the walk selects is proved equal to a naive filter over the whole tree.
- **PID 1's shutdown** (`ShutdownModel`, `ShutdownInvariant`, `ShutdownSteps`, `ShutdownSafety`, `ShutdownRequests`, `ShutdownGrace`, `ShutdownBackstop`, `ShutdownProgress`). Signal handlers, the stop worker and the supervising thread are interleaved steps over shared atomics, a pipe and an alarm; a thread is a stack of frames with a signal mask. An inductive invariant gives the safety results, a ranking the termination results. A sequentially consistent interleaving is faithful because the handshake's accesses are all SeqCst.
- **The atop sampler** (`AtopSample`, `AtopLog`, `AtopSums`, `AtopPrints`, `AtopReaders`, `AtopStalls`, `AtopField`). A loop that advances only on samples that reached the log, over any pattern of failed writes: what the printed differences add up to, what a reader of the wait-channel records knows, when stacks are dumped, and how a string field reads back.
- **The run environment** (`RunEnv`, `EnvText`). Choosing and merging variables for a login, and printing them for a shell or a program to read back.
- **Ephemeral path cleanup** (`Registry`, `Cleanup`, `CleanupForm`). An ordered deletion, a closed description of what it is to leave, and exactly which registries make it leave that on every disk.
- **The SSH connection handler** (`SshHandler`, `SshSession`, `SshAnswers`). A request state machine over four maps, and its answers from the requests and the guest's own answers alone.
- **Workload selection** (`Workloads`). A bounded parent walk against unbounded ancestry.

`Text` (splitting and joining) and `Wrappers` (`Option`) are shared.

Where the source updates things in place or loops, the model is a class or a method proved against a specification function; the theorems are lemmas about that function. System calls, the clock and the network appear as parameters: a snapshot, a tree, a process table, whether a write lands, a pty opens or a program spawns.

## Where the code needs a closer reading

- A deferred service exit arms an alarm of `TERM_GRACE` plus five seconds, with the comment that the grace began before the exit. It may begin later, when the worker has not yet read its pipe. Over all runs, the alarm can end the machine during the grace if and only if the grace begins more than five seconds after the deferral (`ShutdownBackstop.CutShortIff`).
- The first atop sample prints a task twice if and only if it was swept alive and its exit record was taken with it; later samples never do (`AtopSums.PrintedTwiceIff`). Exit records taken for a sample whose write failed are lost (`AtopSums.OnlyLandedExits`).
- The stall test counts work only in samples that begin a stretch, although the description of `Stall` (vk-core/src/atop.rs:569-580) reads as if work in any sample up to the start of the stretch did. The two differ exactly where all that work lies in idle samples of earlier stretches (`AtopStalls.StalledVersusDescribed`), and there is a run on which they do (`AtopStalls.PollingDiffers`).
- Cleanup sorts by written depth. The agent records the path it was given as it was written, so a mount target brings in trailing slashes, `..` or a relative path. For absolute lines without `..` cleanup leaves what it should (`CleanupForm.CleanupLeaves`). A relative line counts as one less deep, so the directory above it can be tried too early (`CleanupForm.RelativeOutOfOrder`), and so can a directory recorded through `..` (`CleanupForm.IndirectPathStays`); a line through a directory beside its own way may not arrive at all. `CleanupForm.ClosedFormIff` gives the exact condition on the recorded lines, for all registries.
- The parent walk of `workloads` makes 64 checks. That equals unbounded ancestry in every table of fewer than 64 entries, and for every larger size there is a table on which it does not (`Workloads.LongChainMissed`).

## Model

| member | source | states |
|---|---|---|
| Wildcard.EarlierWildcardDropped | vk-agent/src/archive.rs:547-574 | exchange lemma: once a later wildcard is reached, a match through an earlier wildcard's other choices is also a match from the later one, so only the last need be remembered |
| GlobMatch.MatchTokens | vk-agent/src/archive.rs:547-574 | the last-star loop returns true iff the recursive meaning of the tokens holds of the name, within (pattern length + 1) × (name length) iterations |
| GlobMatch.MatchSegments | vk-agent/src/archive.rs:514-543 | the same one level up, with `**` over path segments |
| GlobMeaning.TokenMeans | vk-agent/src/archive.rs:547-586 | what each token alone matches: `*` every name, `?` every single character, a literal itself, a class each single character in one of its ranges, a negated class each in none |
| GlobMeaning.TokensConcat | vk-agent/src/archive.rs:547-574 | two token lists one after the other match exactly the names cut in a head the first matches and a tail the second does |
| GlobMeaning.SegmentMeans | vk-agent/src/archive.rs:514-543 | what each segment alone matches: `**` every path, any other each path of one name its tokens match |
| GlobMeaning.SegmentsConcat | vk-agent/src/archive.rs:514-543 | two lists of segments one after the other match exactly the paths cut in two accordingly |
| GlobTokens.Tokenize | vk-agent/src/archive.rs:459-509 | the scanning loop yields the segment's tokens, or none for an unclosed class or a trailing escape |
| GlobTokens.TokensSpelled | vk-agent/src/archive.rs:459-509 | round trip: every token list is read back from its spelling, nothing lost or merged |
| GlobMeaning.ClassSelects | vk-agent/src/archive.rs:459-509 | a class as it is written, plain or escaped bounds, `!` or `^`, a last `-`: the whole pattern compiles and selects exactly the names of one character in its ranges, or in none |
| GlobMeaning.RangeSelects | vk-agent/src/archive.rs:576-586 | `[lo-hi]` selects the characters from `lo` to `hi`, `[!lo-hi]` and `[^lo-hi]` all others |
| GlobMeaning.MalformedRefused | vk-agent/src/archive.rs:459-509 | whatever tokens come before, a trailing escape, an empty class and a class that never closes are refused |
| GlobBraces.ClassesAgree | vk-agent/src/archive.rs:589-601 | the brace scanner and the tokenizer close a class at the same `]`, or both find it unclosed |
| GlobBraces.ExpandBraces | vk-agent/src/archive.rs:605-653 | the scanning and recursing code computes the expansion, terminating on arbitrarily nested braces by pattern length |
| GlobBraces.ExpandFixed | vk-agent/src/archive.rs:605-653 | every alternative is a fixed point: no group is left to open in it and expanding it again yields only itself |
| BraceMeaning.ExpandIsChoices | vk-agent/src/archive.rs:605-653 | expanding a pattern written from texts and groups yields every choice of one alternative per group, in order, however deeply the groups nest |
| GlobSpelling.PatternSpelled | vk-agent/src/archive.rs:430-443 | round trip of whole patterns: every list of segments, `**` among them, compiles back from its spelling through brace scanning, splitting and tokenizing |
| GlobSpelling.GroupsCompile | vk-agent/src/archive.rs:430-443 | a pattern written from texts and groups compiles to its choices, each compiled on its own |
| GlobReading.WrittenIff | vk-agent/src/archive.rs:605-653 | the written patterns are exactly those that expand and whose last unescaped bracket, if any, is a `]`, with no escape left without its character |
| GlobReading.CompiledIsWritten | vk-agent/src/archive.rs:430-443 | the converse: every pattern that compiles is a written one, and compiles to its choices |
| GlobPattern.PatternMatches | vk-agent/src/archive.rs:445-448 | a pattern matches a path iff some alternative's meaning holds of it |
| GlobPattern.Depth | vk-agent/src/archive.rs:451-455 | a bound iff no alternative has `**`; then the length of the longest alternative |
| GlobPattern.DepthBounds | vk-agent/src/archive.rs:451-455 | no path longer than the depth matches |
| GlobLiteral.EscapedMatchesItself | vk-agent/src/archive.rs:430-448 | for every path, backslash-escaping its glob characters compiles and matches that path and no other, through braces, segments, tokens and both matchers |
| GlobLiteral.PlainMatchesItself | vk-agent/src/archive.rs:357-366 | a pattern without glob characters matches exactly its own segments |
| GlobLiteral.MatchesUnderBase | vk-agent/src/archive.rs:346-353 | whatever a pattern matches is at or below its literal base |
| ProjectPath.Relative | vk-agent/src/archive.rs:321-342 | the loop resolves a path against the project or refuses it |
| ProjectPath.UpCancels | vk-agent/src/archive.rs:328-337 | a name and the `..` after it cancel out anywhere in a relative path |
| ProjectPath.StayDrops | vk-agent/src/archive.rs:328-337 | an empty part or a `.` anywhere in a relative path changes nothing |
| ProjectPath.NamesLead | vk-agent/src/archive.rs:328-342 | a path of names resolves to itself |
| ProjectPath.AbsoluteLeads | vk-agent/src/archive.rs:321-327 | an absolute path of names resolves to what follows the project's root, and is refused anywhere else |
| ProjectPath.RefusedIffLeaves | vk-agent/src/archive.rs:321-342 | a relative path is refused iff some start of it climbs more than it descends |
| ProjectPath.CleanedIsClean | vk-agent/src/archive.rs:321-342 | every resolved path, given relative or absolute, is relative and resolves to itself |
| ProjectPath.AbsoluteIsRelative | vk-agent/src/archive.rs:321-327 | an absolute path under the project resolves as its relative remainder |
| Selection.VisitDir | vk-agent/src/archive.rs:373-396 | one directory of the search: exactly its listed entries that match, and exactly those to search in turn |
| Selection.RelSplits | vk-agent/src/archive.rs:272-278 | splitting an entry's spelling gives its components back, so matching the one is matching the other |
| Selection.Glob | vk-agent/src/archive.rs:357-398 | none iff the pattern is invalid; else exactly the topmost matches in the tree, whatever base, depth and stopping at a match prune |
| Selection.Selector.constructor | vk-agent/src/archive.rs:98-118 | the selector starts with the compiled excludes and no files |
| Selection.Selector.Process | vk-agent/src/archive.rs:212-228 | adds an existing entry other than the root that no exclude matches, and nothing else |
| Selection.Selector.Walk | vk-agent/src/archive.rs:192-210 | adds exactly the kept entries at or below its argument |
| Selection.Selector.ProcessPath | vk-agent/src/archive.rs:149-190 | adds exactly the kept entries with a match at or above them |
| Selection.CompileRules | vk-agent/src/archive.rs:98-118 | the compiled excludes drop exactly what the written excludes in the project drop |
| Selection.Select | vk-agent/src/archive.rs:98-130 | for every tree without symlinks, paths and excludes: the selected set is the naive filter over the whole tree |
| ShutdownSteps.StepInv | vk-agent/src/init.rs:3278-3485 | every step of every interleaving keeps the invariant |
| ShutdownSafety.ReachableInv | vk-agent/src/init.rs:3278-3485 | the invariant holds in every reachable state of a service boot or an agent-only boot |
| ShutdownSafety.HandshakeNeverMisses | vk-agent/src/init.rs:3390-3422 | a service exit left to the worker means `stop_service` saw no service and will see none; a live service seen means its exit is not left to the worker |
| ShutdownSafety.NoDeferralWithoutWorker | vk-agent/src/init.rs:3013-3035 | before the worker exists no exit is deferred, so the gate before the ports open never waits for it |
| ShutdownSafety.GraceProtected | vk-agent/src/init.rs:3390-3406 | while the workloads' grace runs a service exit does not end the machine: in every run, until the service is stopped, the machine is ending only by SIGINT, or if the exit was deferred at least fifteen seconds ago |
| ShutdownSafety.GraceWhole | vk-agent/src/init.rs:3396-3404 | in no reachable state has the machine ended during a grace that began before the deferral or up to five seconds after it, SIGINT apart |
| ShutdownBackstop.CutShortWitness | vk-agent/src/init.rs:3390-3406 | for every longer delay there is a run in which the alarm ends the machine during the grace |
| ShutdownBackstop.CutShortIff | vk-agent/src/init.rs:3396-3404 | the exact condition over all runs: the grace can be cut short iff it begins more than five seconds after the deferral |
| ShutdownSafety.WinnerAlone | vk-agent/src/init.rs:3448-3470 | with `ENDING` set and the machine up, exactly one frame is the winner: top of its thread, signals masked, never parked, able to move |
| ShutdownSafety.OnceOnly | vk-agent/src/init.rs:3327-3337 | `end_machine` is called at most once and `stop_service` runs at most once, however many requests arrive |
| ShutdownSafety.RequestsAnswered | vk-agent/src/init.rs:3476-3484 | a power-off request stored before the decision is read rules out a restart in any order; a reboot request is overridden only by a power-off request; a restart needs a reboot request |
| ShutdownRequests.FlagsAreDeliveries | vk-agent/src/init.rs:3248-3325 | in every run a reboot is on record only if SIGTERM or the reboot signal was delivered, a power-off only if the power-off signal was, and both for certain once the handlers have taken their first step |
| ShutdownRequests.EndsAsAsked | vk-agent/src/init.rs:3312-3325 | by deliveries, in any order and on any thread: after a power-off request the machine never restarts, after SIGTERM or a reboot request it powers off only if a power-off request is delivered too, and it restarts only if one of them was delivered |
| ShutdownGrace.ServiceGraceWhole | vk-agent/src/init.rs:3408-3422 | once the service was told to stop, in every run the machine is not ending within twenty seconds while the service still runs, SIGINT apart |
| ShutdownGrace.ServiceTold | vk-agent/src/init.rs:3408-3422 | the service is sent SIGTERM only after a stop request, when `stop_service` finds it, and has been whenever its alarm is armed |
| ShutdownProgress.RankStep | vk-agent/src/init.rs:3327-3422 | every step of the protocol, and every tick it waits for, lowers the ranking; a request raises it by a constant at most; nothing else raises it |
| ShutdownProgress.StepsBounded | vk-agent/src/init.rs:3327-3422 | in every run the protocol takes no more steps than the ranking at the start plus a constant per request |
| ShutdownProgress.NeverStuck | vk-agent/src/init.rs:3040-3079 | after a first stop request and until the machine ends, some step of the protocol's own is enabled, without the service exiting |
| ShutdownProgress.MachineEnds | vk-agent/src/init.rs:3327-3376 | however its steps are ordered, the protocol stops taking them only once the machine has ended, after at most as many as the ranking says |
| ShutdownProgress.DeferredExitEndsMachine | vk-agent/src/init.rs:3390-3422 | with the service's exit left to the worker, in every run it stays so and `stop_service` sees no service, and the protocol's own steps, however ordered, are bounded and stop only once the machine has ended |
| ShutdownProgress.RunToTheEnd | vk-agent/src/init.rs:3327-3485 | from every such state there is a run of the protocol's own steps that ends the machine |
| AtopSample.DeviateCounters | vk-agent/src/atop.rs:1450-1542 | the counter loop computes the differences: the rise since the previous sample or zero if it went back; for one not there before, zero if it is a processor's and its own value if not |
| AtopSample.Deviate | vk-agent/src/atop.rs:1450-1581 | the editing loops compute the differences and the records, with the first sample's branch apart |
| AtopSample.ExitedProcs | vk-agent/src/atop.rs:1589-1646 | the loop computes the exit records |
| AtopSample.SamplePrinted | vk-agent/src/atop.rs:1543-1580 | a sample prints a live task's change since the previous one, its whole figures if new, and nothing live of a task an exit record replaces |
| AtopLog.Sampler.Advance | vk-agent/src/atop.rs:406-450 | the loop computes the new trackers and whose stacks are due |
| AtopLog.Sampler.Turn | vk-agent/src/atop.rs:237-283 | one turn of the loop: log, previous snapshot and stall state move only if the write lands, else only the failure count |
| AtopLog.Sampler.TurnAll | vk-agent/src/atop.rs:230-283 | the whole loop computes the run |
| AtopLog.FailedWritesLeaveNoTrace | vk-agent/src/atop.rs:254-274 | for any pattern of failed writes, log and state are those of the run in which the failed turns never happened |
| AtopLog.LogOfLanded | vk-agent/src/atop.rs:466-489 | sample k on disk is the change between landed snapshots k - 1 and k; the first and no other carries RESET |
| AtopPrints.SampleStamped | vk-agent/src/atop.rs:466-496 | each landed sample carries its snapshot's time and the seconds since the one before it on disk, or since boot, at least one |
| AtopPrints.LiveRecordSays | vk-agent/src/atop.rs:1543-1580 | every process of a landed snapshot that no exit record replaces has a record with its wait channels, new and with whole figures iff the snapshot before did not have the task, changed iff new or with other wait channels |
| AtopPrints.ExitRecordSays | vk-agent/src/atop.rs:1589-1646 | every death taken for a landed sample has a record, new and with the kernel's figures in the log's units iff the snapshot before had no task of that pid and start time to two seconds |
| AtopSums.CounterConserved | vk-agent/src/atop.rs:1450-1542 | a counter's printed differences add up to at least its last landed value, exactly iff it never went back; a processor that came online counts from the value it came with |
| AtopSums.IntervalsCoverTheRun | vk-agent/src/atop.rs:494-496 | the interval columns after the first add up to at least last epoch minus first, exactly iff the clock advanced between any two samples |
| AtopSums.TaskConserved | vk-agent/src/atop.rs:1543-1573 | while a task is in every landed snapshot since its first and not replaced, its printed figures add up to its last, exactly iff they never went back |
| AtopSums.LifeConserved | vk-agent/src/atop.rs:1574-1646 | a task's earlier printed figures and its exit record add up to its whole life, exactly iff no figure, the whole life last, is below the one before; its sample prints nothing else of it |
| AtopSums.UnsweptPrintedOnce | vk-agent/src/atop.rs:1574-1646 | for any pattern of failed writes, a task in no landed snapshot but that of its death, and not there if it is the first, has exactly one record in the whole log, live or exited, and in every column its records add up to its life |
| AtopPrints.UnsweptInUnits | vk-agent/src/atop.rs:1590-1623 | what the whole log says of such a task, column by column in the kernel's terms: system calls and faults as counted, bytes in sectors of 512, microseconds in clock ticks, rounded down |
| AtopSums.NoTaskTwice | vk-agent/src/atop.rs:1574-1580 | in every landed sample after the first, no live record and exit record have one pid and start times up to two seconds apart |
| AtopSums.PrintedTwiceIff | vk-agent/src/atop.rs:1452-1461 | a landed sample prints some task both live and exited iff it is the first and its snapshot and exit records overlap |
| AtopSums.OnlyLandedExits | vk-agent/src/atop.rs:240-240 | every exit record in the log was taken for that landed sample; those of failed samples are gone |
| AtopReaders.ReaderIsCurrent | vk-agent/src/atop.rs:2119-2130 | for any pattern of failed writes, a reader of the PRW records alone holds the current histogram of every multi-threaded live task no exit record replaced, if a task reported exited never returns |
| AtopStalls.StacksOnFirstStall | vk-agent/src/atop.rs:380-460 | while a task stays multi-threaded, a landed sample carries its stacks iff it is the first to find it stalled, judged from landed samples alone |
| AtopStalls.StalledMeans | vk-core/src/atop.rs:528-605 | a stall said without the tracker: an idle stretch of at least 300 seconds and 3 samples, by a task that worked in a sample that began a stretch |
| AtopStalls.TestsAre | vk-agent/src/atop.rs:380-460 | idle is the same wait channels, no sector and less than a tenth of a processor since the snapshot before; work is a tick or a sector |
| AtopStalls.StalledVersusDescribed | vk-core/src/atop.rs:569-605 | every stall is a described one; a described one is missed iff all the work up to the start of the stretch lies in idle samples of earlier stretches |
| AtopStalls.PollingDiffers | vk-core/src/atop.rs:569-605 | a run of six landed samples on which a described stall is missed |
| AtopField.Balanced | vk-agent/src/atop.rs:1743-1754 | true iff every parenthesis is closed and none comes before its opener |
| AtopField.WriteParen | vk-agent/src/atop.rs:1731-1740 | writes the field the lemmas are about |
| AtopField.ReaderTakesField | vk-agent/src/atop.rs:1722-1740 | a reader that ends a field at the matching parenthesis takes exactly the field, whatever it holds and whatever follows |
| AtopField.FieldOnOneLine | vk-agent/src/atop.rs:1718-1735 | the field holds no line feed, carriage return, tab, NUL or other control character |
| AtopField.ClosesIffEven | vk-agent/src/atop.rs:1743-1754 | parentheses balance iff as many close as open, and before no point more |
| AtopField.FieldIs | vk-agent/src/atop.rs:1718-1740 | the field character by character: the text in parentheses, a space for each control character and, if its parentheses do not balance, for each of them |
| AtopField.FieldVerbatim | vk-agent/src/atop.rs:1722-1740 | the content comes back verbatim iff it is control-free and balanced |
| AtopField.MatchParen | vk-core/src/atop.rs:118-135 | the host's loop finds the parenthesis closing the first, or none |
| AtopField.ReadCells | vk-core/src/atop.rs:91-114 | the host's loop takes a record apart into its cells |
| AtopField.SpaceSeparates | vk-core/src/atop.rs:91-114 | two bare words are two cells iff what stands between them is Unicode white space |
| AtopField.UnclosedField | vk-core/src/atop.rs:82-114 | a field of which no parenthesis closes the first is read up to its last `)`, or to the end without one |
| AtopField.RecordReadsBack | vk-core/src/atop.rs:82-114 | reading a record of bare words and string fields gives back its cells, whatever text the fields hold |
| RunEnv.Merge | vk-agent/src/runenv.rs:401-409 | the loop computes the merged search path |
| RunEnv.MergeIdempotent | vk-agent/src/runenv.rs:401-409 | merging the run's path into an already merged path changes nothing, through split and join on `:` |
| RunEnv.MergeIs | vk-agent/src/runenv.rs:399-409 | the merged path is the run's entries and then, in order and once each, those of the caller's it lacks |
| RunEnv.MergeKeeps | vk-agent/src/runenv.rs:399-409 | the run's entries lead, and the entries are exactly the run's and the caller's |
| RunEnv.Select | vk-agent/src/runenv.rs:360-397 | the loop chooses the variables to apply |
| RunEnv.LoginBinds | vk-agent/src/runenv.rs:390-394 | apart from `PATH`, a login keeps every variable that was set and sets each other one that may pass to the file's last value for it |
| RunEnv.LoginSearchPath | vk-agent/src/runenv.rs:376-389 | the search path after a login: for the run's user the session's own if one was handed over as text, else the file's last merged with it; otherwise as it was |
| RunEnv.OfferedChosen | vk-agent/src/runenv.rs:368-396 | outside a login, the choice is the file's list filtered by the names that may pass, with its order and repeated names |
| RunEnv.LoginIdempotent | vk-agent/src/runenv.rs:360-409 | applying a login's choice and then choosing and applying again changes nothing, for every file (duplicate names included), user and environment |
| RunEnv.OthersSteerNothing | vk-agent/src/runenv.rs:48-70 | only names that may pass are ever chosen: none of the thirteen a session owns, and `PATH`, `LD_*`, `GCONV_PATH`, `BASH_ENV` and `ENV` only for the run's user |
| EnvText.RenderExport | vk-agent/src/runenv.rs:422-438 | all the lines, or none at all iff some name or value cannot be written |
| EnvText.ShellNameIs | vk-agent/src/runenv.rs:411-417 | a name can be assigned iff it is made of ASCII letters, digits and `_`, no digit first |
| EnvText.ExportReadsBack | vk-agent/src/runenv.rs:419-438 | evaluating the output by the quoting rules of sections 2.2.1 and 2.2.2 of the POSIX.1-2017 Shell Command Language gives back exactly the variables |
| EnvText.HookReadsBack | vk-agent/src/runenv.rs:38-46 | so does evaluating it through a command substitution, which drops trailing line breaks |
| EnvText.RenderPrint0 | vk-agent/src/runenv.rs:441-450 | the loop computes the NUL-ended records |
| EnvText.Print0ReadsBack | vk-agent/src/runenv.rs:103-107 | the records decode to exactly the list, for all entries the environment file may hold |
| EnvText.ChosenReadsBack | vk-agent/src/runenv.rs:360-450 | for every valid file, user, mode and environment, the printed records decode to exactly the chosen variables |
| Registry.RecordedPaths | vk-agent/src/diskmount.rs:196-211 | the loop and the sort compute the recorded paths |
| Registry.RecordedIs | vk-agent/src/diskmount.rs:191-211 | each path once, deepest first, exactly this boot's lines and the image's allowed ones |
| Registry.FirstSpelling | vk-agent/src/diskmount.rs:196-203 | of several spellings of one path the first line is the one recorded |
| Registry.SamePath | vk-agent/src/diskmount.rs:196-203 | doubled and trailing slashes and dots that do not lead make no other path |
| Registry.ReturnDropped | vk-agent/src/diskmount.rs:196-203 | a line may end in a carriage return and a line feed |
| Registry.EphemeralAllowed | vk-agent/src/diskmount.rs:37-50 | the image's registry contributes exactly its lines among `/proc`, `/sys`, `/dev`, `/dev/pts`, `/dev/shm`, `/run` and `/tmp` |
| Registry.RegistryReadsBack | vk-agent/src/diskmount.rs:123-133 | paths without line breaks read back as they were appended |
| Cleanup.Root.RemoveCreated | vk-agent/src/diskmount.rs:168-189 | the deleting loop computes the cleaned disk |
| CleanupForm.ClosedFormIff | vk-agent/src/diskmount.rs:164-211 | for any two registries, however their paths are written, ordered and repeated: cleanup leaves what it should on every disk iff each path that lines lead to has a line that passes only through it and the directories above it and comes after such lines for all that lines lead to directly in it, and one that does not pass through the path itself if some line to it has no trailing slash (its registry files apart) |
| CleanupForm.OnceEachIff | vk-agent/src/diskmount.rs:164-211 | for registries that name each path once, and a registry file directly, the condition is that every line passes only through directories above where it leads, and none to a directory comes before one to something directly in it |
| CleanupForm.CleanupInOrder | vk-agent/src/diskmount.rs:164-211 | that condition suffices for all registries, repeated paths included |
| CleanupForm.CleanupLeaves | vk-agent/src/diskmount.rs:164-211 | absolute lines without `..` meet it, doubled and trailing slashes and inner dots included, so on every disk: a directory survives iff no line takes it, it is the root or something below it stays; a file iff no line leads to it without a trailing slash; and the registries are gone |
| CleanupForm.AbsoluteInOrder | vk-agent/src/diskmount.rs:204-209 | sorting by depth puts no absolute line without `..` before one to something directly in its directory |
| CleanupForm.RelativeOutOfOrder | vk-agent/src/diskmount.rs:204-209 | a directory recorded by an absolute line, with something in it recorded after it by a relative one, is tried first and survives the cleanup, which then leaves what it should not |
| CleanupForm.RelativeParses | vk-agent/src/diskmount.rs:198-200 | for any names there is such a relative line |
| CleanupForm.RecordedIsAsked | vk-agent/src/diskmount.rs:196-203 | the recorded lines name exactly the paths that some line of either registry asks for |
| Cleanup.UnrecordedSurvives | vk-agent/src/diskmount.rs:37-50 | for every disk and any two registries, however written: a path survives unless a line of this boot's registry or an allowed line of the image's leads to it |
| CleanupForm.IndirectPathStays | vk-agent/src/diskmount.rs:204-209 | a directory recorded through `..` is tried before the recorded path below it and survives the cleanup, although nothing unrecorded is below it |
| CleanupForm.IndirectParses | vk-agent/src/diskmount.rs:198-200 | for any two names there is a line that parses to such a path |
| SshHandler.ServerHandler.constructor | vk-agent/src/ssh.rs:197-212 | a connection starts with four empty maps |
| SshHandler.ServerHandler.SignalsFor | vk-agent/src/ssh.rs:221-228 | drops routes to ended bridges and adds the channel's |
| SshHandler.ServerHandler.ChannelOpenSession | vk-agent/src/ssh.rs:294-303 | the channel is kept until something runs on it |
| SshHandler.ServerHandler.PtyRequest | vk-agent/src/ssh.rs:305-354 | granted only to a channel nothing runs on, once, under the cap; one reply |
| SshHandler.ServerHandler.WindowChangeRequest | vk-agent/src/ssh.rs:356-384 | resizes the pending pty, else tells the bridge, else forgets an ended one; no reply |
| SshHandler.ServerHandler.SignalRequest | vk-agent/src/ssh.rs:395-422 | queued for a running bridge with room, else refused; one reply |
| SshHandler.ServerHandler.Run | vk-agent/src/ssh.rs:424-502 | shell and exec: consume the channel and its pty, start or refuse; one reply |
| SshHandler.ServerHandler.SubsystemRequest | vk-agent/src/ssh.rs:521-551 | consumes the channel and releases its pty; starts sftp or refuses; one reply |
| SshHandler.ServerHandler.ChannelClose | vk-agent/src/ssh.rs:507-517 | forgets everything kept for the channel |
| SshSession.OneReplyEach | vk-agent/src/ssh.rs:294-551 | over every request sequence, each pty, signal, shell, exec and subsystem request gets exactly one reply, on its own channel, and no other request any |
| SshAnswers.ChannelsAre | vk-agent/src/ssh.rs:294-303 | a channel is kept exactly while it was opened and no shell, exec, subsystem or close request for it came since |
| SshAnswers.PtysAre | vk-agent/src/ssh.rs:305-354 | a pty is pending exactly while a granted one has not been used, with the terminal the client named |
| SshAnswers.RoutesAre | vk-agent/src/ssh.rs:221-228 | signals are routed to a bridge that runs exactly while a started program has neither ended nor been closed |
| SshAnswers.ProgramsAnswered | vk-agent/src/ssh.rs:424-502 | a shell or command starts, and the request succeeds, iff the channel is open and the program spawns, on the channel's pty iff it has one |
| SshAnswers.SubsystemAnswered | vk-agent/src/ssh.rs:521-551 | sftp starts, and the request succeeds, iff the channel is open and the user resolves; no other subsystem does |
| SshAnswers.PtyAnswered | vk-agent/src/ssh.rs:305-354 | a pty is granted iff the channel is open and has none, fewer than ten are pending, and one opens |
| SshAnswers.SignalAnswered | vk-agent/src/ssh.rs:395-422 | a signal succeeds iff it is known, a program started on the channel still runs and its bridge has room; the other requests get no reply |
| SshSession.StartsAreSuccesses | vk-agent/src/ssh.rs:424-551 | over every request sequence, the programs started are those of the successful shell, exec and subsystem requests, channel by channel and in order |
| SshSession.SessionsTidy | vk-agent/src/ssh.rs:134-137 | with fresh channel ids: pending ptys belong only to channels nothing has run on, at most ten, and each channel starts at most one program (section 6.5 of RFC 4254) |
| SshSession.ClosedIsForgotten | vk-agent/src/ssh.rs:504-517 | once a channel is closed nothing is kept for it and nothing starts on it, whatever else is asked |
| SshSession.RoutesBounded | vk-agent/src/ssh.rs:221-228 | over every request sequence, every signal route is to a running bridge or to one that ended since a program was last started |
| SshSession.SizesAreLast | vk-agent/src/ssh.rs:356-384 | the size a waiting pty has and a running one is told is the client's last, clamped to 16 bits |
| SshAnswers.ToldTheLast | vk-agent/src/ssh.rs:356-384 | with fresh channel ids, a bridge is told a size exactly while a program started on a pty runs, and it is the client's last |
| SshSession.StartedAtLastSize | vk-agent/src/ssh.rs:230-268 | a program gets its terminal at the client's last size, and its bridge is told of changes from then on |
| Workloads.InService | vk-agent/src/poweroff.rs:261-273 | the loop is true iff the service is among the first 64 of the process and its ancestors |
| Workloads.Select | vk-agent/src/poweroff.rs:259-279 | the filter computes the processes to terminate |
| Workloads.WalkIsDescent | vk-agent/src/poweroff.rs:261-273 | in every table of fewer than 64 entries, cyclic or not, the bounded walk equals unbounded ancestry |
| Workloads.WorkloadsAre | vk-agent/src/poweroff.rs:250-279 | with fewer than 64 processes, exactly those that neither run init's binary nor descend from the service |
| Workloads.LongChainMissed | vk-agent/src/poweroff.rs:262-263 | for every size of at least 64 there is a table on which the walk misses a descendant |

## Left out

- CleanupForm.CleanupLeaves: a sufficient condition that is easy to check; relative lines, `..` and repeated paths are covered by `CleanupForm.ClosedFormIff`.
- CleanupForm.OnceEachIff: the short condition is exact only where each path is named once; `CleanupForm.ClosedFormIff` is exact for all registries.
- AtopSums.LifeConserved: whole lives are in the log's units, and the run and block delays, which an exit record does not carry, count as zero in it.
- Symbolic links, `--untracked`, non-UTF-8 names and log text of the archive selection; its counts of found and excluded entries and the order of its output.
- Scanning is by character where the source scans bytes; every delimiter is ASCII, so the two agree.
- The failure of the stop worker's pipe or thread, pid reuse between reaping and signalling, relaxed-memory effects on the reboot and power-off flags, and the freezing of disks before the end.
- `terminate`'s polling: the workloads' grace is a wait that may end early and is bounded by the clock.
- 64-bit saturation and the `-1` sentinels of counters a kernel does not offer, memory growth columns, the `/proc` parsers and the fixed-column printers of atop; the rendering of wait channels as bare words.
- Reading and writing the environment file, its JSON, its permissions, and `--exec`.
- Mounts during cleanup: the disk is modelled with the recorded mounts detached, and relative registry lines resolve from the root.
- The russh, tokio, sftp and pty layers, authentication and port forwarding of the SSH server; a bridge is whether it still runs.
- Everything else in the repository: boot, networking, the exec server, image builds and the host side, apart from the host's reader of atop records.
