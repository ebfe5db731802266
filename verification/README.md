# Novash in Dafny

A model of four parts of the Novash shell, with proofs of what they promise. Every operation that
changes state step by step in C is a method on a class here, proved against a function on values;
the theorems are lemmas about those functions, over every input or every run.

1. **The hash map** of `external/stb_ds.h`: an open-addressed index over a dense entry array
   (`Probing`, `ProbePath`, `HashIndex`, `Entries`, `HashMap`). `HashMaps.Replay` is the whole story: any sequence
   of puts, gets and deletes from an empty table answers like a plain finite map, for an arbitrary
   hash function, and its rebuilds move at most three entries per put and six per delete. Under it lie a
   proof that the probe sequence is a permutation of the slots, the reachability invariant, the census of the
   slots, the swap-delete with its second lookup, and a potential function.
2. **The language**: lexer, parser and evaluator (`Lexing`, `Lexer`, `Parsing`, `ParsingShape`,
   `ParsingEnd`, `ParsingItems`, `Parser`, `Decimals`, `Printing`, `PrintingTokens`, `Unparsing`,
   `Evaluation`). Tokenising is total and lossless; the trees the parser builds are exactly those of a
   fixed shape; which lines it reads to their end, and which it divides at separators only, are
   equivalences; a printer inverts lexer and parser together; running a tree is one left-to-right pass
   over a flat list.
3. **Job control** (`JobModel`, `JobInvariants`, `JobDrift`, `JobWait`, `Jobs`, `Pipes`): the doubly
   linked job list refines a sequence; over whole runs, which reports keep the counters right and which
   launches keep the job ids in order, or different, are equivalences. On every run the live count of a
   job is off by its stale reports, those of processes not recorded as running; when the foreground wait
   ends, the end of every process of the job was reported exactly when no report was stale (modulo
   2^32). The launch loop leaves every pipe end where it belongs. A process runs, in these statements,
   when it is recorded as running: a stop of one process is recorded of all.
4. **The history** (`HistoryFile`, `HistoryModel`, `History`): the ring refines a bounded queue over
   any saves, clears and loads; a line appended to any file is read back whole exactly when it goes
   with the unfinished end of that file. When memory and file agree is an equivalence behind a file that
   ends with a newline, and behind any file for sessions in which every save goes with the end of the
   file, or of saves only that leave room in the ring. When the next session begins with the commands
   this one ends with is one in the same cases, and from a full ring behind any file.

Methods carry the loops of the C code; where one C loop is split into several methods, each has the
contract of its part. `Slot(hash, index)` stands for one column of a bucket. `Sequences` holds a
few facts about concatenation.

## Where the code is weaker than it looks

The statements follow the code in each of these places.

- Job ids are called unique (`src/executor/jobs.h:55`), but a list with a gap in front repeats one:
  `JobInvariants.IdsCanRepeat`. `NewIdIsFirstGap` says which id a job gets on any list and when it repeats
  one; `RunIdsDiffer` says over which runs the ids stay different, `RunIds` over which they stay in order.
- A failing `poll` ends the foreground wait by dropping the job while it still runs
  (`src/executor/executor.c:134-140`, `src/executor/executor.c:175`): `JobWaits.PollBreaks`,
  `AbandonedByPoll`.
- So does a stale report: of a pipeline of two, one process is stopped and the other exits; `fg` then brings
  the live count to zero, and the job is dropped while the first process runs: `JobWaits.StaleExitEndsWait`.
  `TerminalExactly`, `EndedExactly` and `RunThenWait` are the exact conditions.
- The wait is suspended as soon as one process is stopped, whatever the others do: `JobWaits.OneStopQuiets`;
  and with a process running, if that is continued in the same batch: `ResumedInBatch`.
- The running counter drops once per stop report, not once per job, and wraps: `JobInvariants.TwoStops`,
  `CountsExact`.
- A stopped background job is taken for a finished one and removed, while other processes of it may run:
  `JobInvariants.StopRemoves`. After a stale report a job can also leave at the report that it continues:
  `JobDrifts.ContinueRemoves`. `JobInvariants.BackgroundLeaves` and `JobDrifts.LeavesByRunning` say which
  reports remove a background job.
- An exit reported of a process already marked stopped wraps the live count: `JobInvariants.ExitAfterStop`,
  `LiveExact`; `JobDrifts.RunningOnRun` says what the count is on any run.
- The parser stops silently where no command starts (`src/parser/parser.c:224-227`): a line that starts with a
  separator is empty for it, `ParsingEnd.SeparatorFirst`, and `a ; >f b` loses its second command,
  `SecondCommandLost`. `EndReached` says which lines are read to their end and where the others stop.
- A word behind the target of a redirection starts a new item, with no separator between: `a >f b` runs two
  commands, where the shell grammar makes `b` an argument (section 2.10.2 of POSIX.1-2017 Shell Command
  Language): `ParsingItems.WordBehindTarget`, `ItemsDivided`.
- An explicit `0>` becomes descriptor 1 (`src/parser/parser.c:86-96`). At the start of a quoted segment either
  quote character closes it (`src/lexer/lexer.c:251-255`), so the printer escapes with backslashes. The shape of
  `Unparsing.ParserImage` leaves out both.
- `pr_err` ends the process only in builds that log errors; the model takes it to end the process.
- A child keeps the reading end of the pipe it writes to, so a writer is not told that its reader is
  gone: `Pipelines.HeldBy`, `EndOfFile`.
- Clearing the history clears memory but not the file: `HistoryModel.ClearForgets`, `ClearedCommand`. A command
  with a newline, or with a line that is too long, comes back differently: `RunInSync`, `RunMatches`,
  `SaveKeepsSync`. The longest line that
  survives is one character longer than one read takes, because its newline is read alone and skipped.
  Behind a file that does not end with a newline a command may be swallowed, or not:
  `HistoryFiles.LineAppends`, `SwallowedCommand`; and behind a NUL a save can be lost unnoticed:
  `HistoryModel.LostUnnoticed`, `LostAfterClear`.

## Model

| member | source | states |
|---|---|---|
| HashMaps.Replay | external/stb_ds.h:1234-1540 | over any run from an empty table: all answers are those of a plain finite map, whatever the hash function; the array is the one swap-deletes give; rebuilds move at most 3 entries per put, 6 per delete and none per get |
| HashMaps.Apply | external/stb_ds.h:1283-1540 | one operation answers like the map, keeps the table consistent, and costs 3 credits for a put, 6 for a delete, none for a get |
| HashMaps.HashMap.FindSlot | external/stb_ds.h:1234-1281 | a returned slot holds the key; -1 exactly when no slot holds it; the loop ends |
| HashMaps.HashMap.Search | external/stb_ds.h:1386-1430 | the loop stops at the key or the first empty slot, having met neither before, and has remembered the first tombstone of the path |
| HashMaps.HashMap.ScanBucket | external/stb_ds.h:1388-1424 | one round looks at the eight slots of a bucket in path order, both halves |
| HashMaps.HashMap.ScanSlot | external/stb_ds.h:1393-1406 | one slot: match, gap, tombstone to remember, or go on |
| HashMaps.HashMap.GetIndex | external/stb_ds.h:1283-1312 | position of the key in the dense array, -1 when it is missing or nothing was ever put |
| HashMaps.HashMap.Get | external/stb_ds.h:1283-1312 | the value the map has for the key, else the default |
| HashMaps.HashMap.EnsureRoom | external/stb_ds.h:1359-1371 | grows when the threshold is reached; the moves are paid for; afterwards there is room below the threshold |
| HashMaps.HashMap.Append | external/stb_ds.h:1431-1458 | a new entry goes to the end of the array and is named in the given slot; costs three credits |
| HashMaps.HashMap.PutKey | external/stb_ds.h:1339-1461 | finds the entry of the key or appends one at the end |
| HashMaps.HashMap.Put | external/stb_ds.h:1339-1461 | overwrites in place or appends |
| HashMaps.HashMap.Unlink | external/stb_ds.h:1491-1523 | tombstone, move of the last entry, second lookup, back-pointer fix-up |
| HashMaps.HashMap.Remove | external/stb_ds.h:1486-1523 | after a swap-delete index and entries agree again; costs six credits |
| HashMaps.HashMap.Delete | external/stb_ds.h:1474-1540 | removes exactly the key, says whether it was there, and restores the size bounds |
| HashMaps.HashMap.Resize | external/stb_ds.h:1525-1533 | shrinks, rebuilds or does nothing; in each case back within the bounds, moves paid for |
| HashMaps.HashMap.Rebuild | external/stb_ds.h:966-1010 | another index of any power of two above the used count serves the same entries, without tombstones, from the stored hashes; the size bounds hold if and only if the new size meets them |
| HashMaps.OneSlotEach | external/stb_ds.h:1438-1450 | each entry position sits in exactly one slot, under the stored hash of its key |
| HashMaps.MissIsAbsent | external/stb_ds.h:1258-1260 | meeting an empty slot without a match proves the key absent |
| HashMaps.FixUpMatches | external/stb_ds.h:1512-1521 | the slot found by the second lookup still names the old last position, and correcting it restores index, entries and counters |
| HashMaps.UnlinkKeepsLinks | external/stb_ds.h:1501-1520 | after the tombstone and the move the last entry's slot is still reachable under its key |
| HashMaps.SameLiveKeepsLinks | external/stb_ds.h:966-1010 | two indexes with the same slots in use serve the same entries |
| HashMaps.FirstTombstoneOnPath | external/stb_ds.h:1403-1435 | reusing the first tombstone leaves no empty slot before the new name |
| HashMaps.SizedLeavesRoom | external/stb_ds.h:906-937 | within the thresholds one slot is always empty |
| HashMaps.GrowPays | external/stb_ds.h:318-323 | growing is paid for by the potential and lands within the bounds |
| HashMaps.ShrinkPays | external/stb_ds.h:1525-1528 | shrinking is paid for and lands within the bounds |
| HashMaps.RebuildPays | external/stb_ds.h:1529-1533 | a same-size rebuild is paid for by its tombstones |
| HashIndexing.HashIndex.Make | external/stb_ds.h:934-1010 | a new index with exactly the used slots of the old one, its seed, right counters, no tombstones |
| HashIndexing.HashIndex.CopySlots | external/stb_ds.h:966-1010 | every slot in use is copied once |
| HashIndexing.HashIndex.FirstEmpty | external/stb_ds.h:975-1004 | the first empty slot of the path; the loop ends |
| HashIndexing.PathBound | external/stb_ds.h:936-937 | a path without an empty slot is no longer than the way to any empty slot |
| HashIndexing.SearchComplete | external/stb_ds.h:1248-1280 | when a search meets an empty slot, all slots of that hash came earlier |
| HashIndexing.InsertKeepsOk | external/stb_ds.h:1447-1449 | inserting keeps every slot reachable and every position named once |
| HashIndexing.DeleteKeepsOk | external/stb_ds.h:1501-1502 | a tombstone blocks no search |
| HashIndexing.SlotCensus | external/stb_ds.h:969-1008 | slots in use, empty slots and tombstones make up the table |
| Probing.HomeInjective | external/stb_ds.h:1275-1278 | triangular steps modulo a power of two never return to a bucket within n/8 rounds |
| Probing.TriangularDifference | external/stb_ds.h:1275-1278 | the number theory behind it |
| ProbePaths.ProbeInjective | external/stb_ds.h:1248-1279 | the first n probes look at different slots |
| ProbePaths.ProbeSurjective | external/stb_ds.h:1248-1279 | and at every slot |
| ProbePaths.RankOfProbe | external/stb_ds.h:1248-1279 | the position of a slot on the path inverts the probe function |
| Entries.RunIsMap | external/stb_ds.h:1283-1540 | after any run the dense array stands for the plain map |
| Entries.PutIsMapUpdate | external/stb_ds.h:1339-1461 | a put on the array is an update of the map |
| Entries.DeleteIsMapRemove | external/stb_ds.h:1507-1523 | a swap-delete on the array is a removal from the map |
| Entries.OnlyLastMoves | external/stb_ds.h:1507-1523 | only the last entry changes its position |
| Entries.InsertionOrder | external/stb_ds.h:345-348 | without deletes, iteration order is the order of first insertion |
| Lexers.Lexer.NextToken | src/lexer/lexer.c:318-369 | refines the token function, for every input and position |
| Lexers.Lexer.HandleWord | src/lexer/lexer.c:294-316 | the word loop collects the non-empty pieces and stops at the end of the word |
| Lexers.Lexer.NextPart | src/lexer/lexer.c:247-292 | one piece, with the quote context after it |
| Lexers.Lexer.HandleLiteral | src/lexer/lexer.c:129-166 | value and end of a literal in each quote context |
| Lexers.Lexer.HandleVariable | src/lexer/lexer.c:168-212 | name, bare dollar, empty braces or abort |
| Lexing.TokenAdvances | src/lexer/lexer.c:318-369 | every token but the last strictly advances; end of input is sticky |
| Lexing.PartAt | src/lexer/lexer.c:247-292 | inside a word every step consumes a character, in every quote context |
| Lexing.Lossless | src/lexer/lexer.c:294-369 | token texts and what lies between them tile the input, to its end, or up to the word on which the lexer aborts |
| Lexing.GapsAreSpaces | src/lexer/lexer.c:85-90 | what lies between tokens is white space only |
| Lexing.TokensStreamOk | src/lexer/lexer.c:359-366 | one end marker; a descriptor token stands only directly before a redirection operator |
| Lexing.TokensOk | src/lexer/lexer.c:247-316 | words carry only pieces of the possible shapes, descriptors only numbers |
| Parsers.ParseLine | src/parser/parser.c:209-241 | the stateful lexer and parser together compute the parse function, on every input |
| Parsers.Parser.CreateAst | src/parser/parser.c:209-241 | the tree or the error of the remaining tokens |
| Parsers.Parser.ParseItems | src/parser/parser.c:222-236 | the outer loop; every round that does not stop it takes a token |
| Parsers.Parser.ParseConditional | src/parser/parser.c:191-207 | left-nested list of pipelines |
| Parsers.Parser.ParsePipeline | src/parser/parser.c:154-183 | commands between bars; a single one is not wrapped |
| Parsers.Parser.ParseCommand | src/parser/parser.c:123-147 | words, redirections, background mark; nothing when no word starts it |
| Parsers.Parser.ParseRedirections | src/parser/parser.c:67-116 | redirections in order, with their descriptors |
| Parsers.Parser.ParseArguments | src/parser/parser.c:47-56 | the words before the first other token |
| ParsingShape.ParseShape | src/parser/parser.c:67-241 | every input gives a tree of the fixed shape or an error; the unexpected-token branch of redirections is unreachable |
| ParsingEnd.EndReached | src/parser/parser.c:222-236 | the outer loop comes to the end of the line if and only if the line starts with no separator, descriptor or redirection and no redirection, with or without descriptor, stands directly behind a separator or an AND-OR operator; otherwise it drops everything from the start, or from the first such redirection on |
| ParsingEnd.LineReadToEnd | src/parser/parser.c:209-241 | that equivalence for every input text that parses to a tree |
| ParsingEnd.PipelineWithin | src/parser/parser.c:154-183 | a pipeline takes no separator and no AND-OR operator, and stands at a redirection behind it only if it took nothing |
| ParsingEnd.SeparatorFirst | src/parser/parser.c:224-227 | a line that starts with `;` parses to an empty sequence, whatever follows |
| ParsingEnd.SecondCommandLost | src/parser/parser.c:224-236 | `a ; >f b` parses to the one command `a` |
| ParsingItems.ItemsDivided | src/parser/parser.c:67-236 | every item after the first starts behind a separator if and only if no word stands directly behind the target of a redirection, up to where the parser stops |
| ParsingItems.LineDivided | src/parser/parser.c:209-241 | that equivalence for every input text that parses to a tree |
| ParsingItems.ConditionalClean | src/parser/parser.c:67-207 | an item passes no such word and, where it stops at a word, that is one |
| ParsingItems.WordBehindTarget | src/parser/parser.c:222-236 | `a >f b` parses to two items |
| Decimals.DecimalNatValue | src/parser/parser.c:77 | reading decimal digits inverts printing them |
| Printing.PartRoundTrip | src/lexer/lexer.c:247-292 | a printed piece is read back by the word loop, which is outside quotes again |
| Printing.WordRoundTrip | src/lexer/lexer.c:294-316 | any sequence of possible pieces can be printed so that lexing gives exactly these pieces |
| PrintingTokens.TokensRoundTrip | src/lexer/lexer.c:318-369 | lexing the text of a stream gives back the stream |
| Unparsing.DecimalRoundTrip | src/parser/parser.c:75-79 | every 32-bit descriptor survives printing and strtol |
| Unparsing.PrintParse | src/parser/parser.c:47-241 | printing a tree of the shape and parsing the text gives the tree back |
| Unparsing.ParserImage | src/parser/parser.c:47-241 | a tree has the shape if and only if some input parses to it |
| Unparsing.ReparseIsStable | src/parser/parser.c:47-241 | whatever was parsed, printing and parsing again changes nothing |
| Unparsing.LeftNestOfFlat | src/parser/parser.c:191-207 | nesting the flat list of a tree gives the tree |
| Unparsing.FlatOfLeftNest | src/parser/parser.c:191-207 | flattening a nested list gives the list |
| Evaluation.Shell.ExecNode | src/executor/executor.c:333-378 | the evaluator with its reassigned status and threaded state computes the recursive meaning |
| Evaluation.TreeIsFlat | src/executor/executor.c:348-356 | the left-nested tree runs like one pass with a status register and short-circuiting (AND-OR lists, section 2.9.3 of POSIX.1-2017 Shell Command Language), for every list and every outcome |
| Evaluation.ParsedListIsFlat | src/parser/parser.c:191-207 | what the parser nests is the list it read, in order |
| Evaluation.LineIsFlat | src/executor/executor.c:333-356 | executing any parsed line is one pass over its flat items |
| JobInvariants.LiveExact | src/shell/signal.c:32-53 | a report keeps the live count equal to the running processes if and only if it is a stop or its process was running; then nothing wraps |
| JobInvariants.RunLives | src/shell/signal.c:22-58 | over every run, the live count of a group's job is its number of running processes after every event, if and only if every report about its processes is a stop, or of a running one, or completes the job in the background; nothing is asked of other jobs |
| JobInvariants.BackgroundLeaves | src/shell/signal.c:32-58 | a job leaves the list if and only if it is in the background and the report is a stop, or an exit or a kill while its live count is one, or a continuation while its live count is zero; any other report changes its record only |
| JobInvariants.StopRemoves | src/shell/signal.c:32-58 | after launching a background job of any number of processes, a stop of the first leaves an empty list while all of them were running |
| JobInvariants.CountsExact | src/executor/jobs.c:232-242 | a report keeps the running counter equal to the jobs not stopped if and only if it is not a stop of a background or already stopped job |
| JobInvariants.RunCounts | src/executor/jobs.c:92-138 | over every run, both counters are exact after every event if and only if every stop is a first stop of a foreground job |
| JobInvariants.RunShape | src/executor/jobs.c:92-138 | over every run, process groups stay distinct and no background job is listed as stopped |
| JobInvariants.TwoStops | src/executor/jobs.c:241 | stopping a pipeline of two wraps the running counter |
| JobInvariants.ExitAfterStop | src/shell/signal.c:36-47 | launching, stopping and killing one process wraps the live count of its job |
| JobInvariants.NewIdLeast | src/executor/jobs.c:97-104 | on positive increasing ids the new id is the least unused one; the list stays increasing if and only if it has no gap |
| JobInvariants.NewIdIsFirstGap | src/executor/jobs.c:97-104 | on any list, the new id is the number of the first gap, and it is already taken if and only if a job behind that gap has the number |
| JobInvariants.OneFirstGap | src/executor/jobs.c:97-104 | every list has exactly one first gap |
| JobInvariants.StepIds | src/executor/jobs.c:92-138 | one event keeps the ids positive and increasing if and only if it lists no job behind a gap |
| JobInvariants.RunIds | src/executor/jobs.c:92-138 | over every run, the ids are positive and increasing after every event if and only if every job is listed behind a list without a gap |
| JobInvariants.StepIdsDiffer | src/executor/jobs.c:92-138 | one event keeps the ids different if and only if it lists no job while a job behind the first gap has the number of the gap |
| JobInvariants.RunIdsDiffer | src/executor/jobs.c:92-138 | over every run, the ids are different after every event if and only if no job is ever listed while a job behind the first gap has the number of the gap |
| JobInvariants.IdsCanRepeat | src/executor/jobs.c:97-111 | launching three jobs in the background, the exit of the first and launching two more gives ids 2, 3, 1, 1 |
| JobDrifts.ReportedDrift | src/shell/signal.c:32-53 | a stop makes the live count right; an exit, a kill or a continuation of a process recorded as running keeps the difference to the running processes, and of any other process adds one to it, modulo 2^32 |
| JobDrifts.ContinueDrift | src/executor/jobs.c:244-252 | continuing a job keeps that difference, also when the count wraps |
| JobDrifts.RunDrifts | src/shell/signal.c:22-58 | over every run, the difference is the number of stale reports (not a stop, of a process not recorded as running) since the launch or the last stop of the job, modulo 2^32 |
| JobDrifts.RunningOnRun | src/shell/signal.c:22-58 | over every run, the running processes of a listed job are its live count plus its stale reports, modulo 2^32 |
| JobDrifts.LeavesByRunning | src/shell/signal.c:32-58 | over every run, a job leaves the list if and only if it is in the background and the report is a stop, or an exit or a kill while one process more runs than reports are stale, or a continuation while as many run as are stale, modulo 2^32; with none stale: one, or none |
| JobDrifts.ContinueRemoves | src/shell/signal.c:50-58 | a pipeline of two, one process stopped and one exited, continued with `bg`: the report that the process continues empties the list while it runs |
| JobWaits.RunGood | src/shell/signal.c:22-58 | every run, whatever is reported, ends in a table the wait theorems start from: groups distinct, the live count off by the stale reports, a stopped job without stale reports with no running process, any other with no stopped process |
| JobWaits.TerminalExactly | src/executor/executor.c:126-178 | whatever is reported before and during a foreground wait: when it ends, no process of the job is recorded as running if and only if the number of stale reports is 0 modulo 2^32; when it is abandoned, suspended or goes on, if and only if live count and stale reports together are; a dropped job is not listed any more |
| JobWaits.EndedExactly | src/executor/executor.c:126-178 | when the wait for a job that is not stopped ends, the exit or kill of every process of the job was reported if and only if the number of stale reports is 0 modulo 2^32 |
| JobWaits.RunThenWait | src/executor/executor.c:126-178 | both equivalences after every run |
| JobWaits.TerminalComesBack | src/executor/executor.c:126-178 | with no stale report since the launch or the last stop, a foreground wait ends with the job gone and quiet, or listed as stopped and quiet; abandoned, it drops a job of which some process is recorded as running; while it goes on some process is |
| JobWaits.StaleExitEndsWait | src/executor/executor.c:133-175 | a pipeline of two, one process stopped, the other exited, and `fg`: the wait ends at once, the list is empty and a process is recorded as running |
| JobWaits.ResumedInBatch | src/executor/executor.c:165-172 | a stop and a continuation of the only process in one batch: suspended, with the process recorded as running |
| JobWaits.OneStopQuiets | src/executor/jobs.c:232-237 | after a stop of the first of any number of processes the job is suspended and none is recorded as running |
| JobWaits.AbandonedByPoll | src/executor/executor.c:134-140 | a wait is abandoned if and only if `poll` fails at some wake-up, before which the job was listed with a live count above zero in every folded table, no batch had stopped it and no `poll` had failed |
| JobWaits.PollBreaks | src/executor/executor.c:134-140 | a job of one process, a failing `poll`: the list is empty and the process runs |
| JobWaits.ForegroundStays | src/shell/signal.c:55-58 | a foreground job stays listed, whatever is reported |
| Jobs.Play | src/executor/jobs.c:92-259 | any run over the linked list has the state the value model gives |
| Jobs.JobTable.AddJob | src/executor/jobs.c:92-114 | the list stays well linked in both directions and grows at the tail, under the id of the loop |
| Jobs.JobTable.FreeId | src/executor/jobs.c:97-104 | the id loop over the list |
| Jobs.JobTable.Unlink | src/executor/jobs.c:122-130 | taking a node out keeps head, tail and all links |
| Jobs.JobTable.RemoveJob | src/executor/jobs.c:116-138 | drops the last job of the group, and only it; counters follow |
| Jobs.JobTable.FindByPgid | src/executor/jobs.c:214-220 | the last listed job of a group |
| Jobs.JobTable.FindProcess | src/executor/jobs.c:222-230 | the last listed job with the pid, and its first such process |
| Jobs.JobTable.HandleReport | src/shell/signal.c:22-58 | one report changes the table as the model says |
| Jobs.Job.MarkStopped | src/executor/jobs.c:232-237 | running processes become stopped, others keep their state |
| Jobs.Job.MarkContinued | src/executor/jobs.c:244-252 | stopped processes become running and are counted again |
| Jobs.JobTable.Foreground | src/builtin/job_control.c:64-78 | `fg` takes the last matching job; a stopped one is continued, a background one comes forward |
| Jobs.JobTable.Background | src/builtin/job_control.c:80-119 | `bg` continues the last matching stopped job in the background |
| Jobs.JobTable.Launch | src/executor/executor.c:226-284 | a launched job is listed with its pids, its group and its live count |
| Jobs.JobTable.WaitForeground | src/executor/executor.c:126-178 | the wait loop returns 0 or 146 and leaves the table the model gives |
| Pipelines.LaunchLoop | src/executor/executor.c:237-284 | for any number of processes: the parent ends with the table it began with and closes each data-pipe end exactly once; each child starts with exactly the expected descriptors |
| Pipelines.ForkProcess | src/executor/executor.c:65-103 | the child's copy with both ends moved into place |
| Pipelines.HeldBy | src/executor/executor.c:92-99 | the writing end of a pipe is open in its writer only; the reading end in its reader and its writer |
| Pipelines.EndOfFile | src/executor/executor.c:244-280 | a reader sees the end of the file if and only if its writer ended, whichever others have |
| Pipelines.WiredExactly | src/executor/executor.c:92-99 | the two moves wire a child if and only if the ends do not sit on descriptors 0 and 1 in each other's way |
| Pipelines.ClosedOnce | src/executor/executor.c:276-282 | which ends the parent has closed before each launch |
| HistoryFiles.LineCommands | src/history/history.c:45-53 | a written line is read back as its command if and only if it has no newline and fits the buffer |
| HistoryFiles.TextCommands | src/history/history.c:106-132 | a written file reads as the commands written if and only if all are readable |
| HistoryFiles.LineAppends | src/history/history.c:45-53 | behind any file, a line adds exactly its command to what is read if and only if it goes with the unfinished end of the file, by its separators, NULs and lengths |
| HistoryFiles.FileSplit | src/history/history.c:45-53 | what is appended to any file is read behind its finished reads, together with its unfinished end |
| HistoryFiles.WholeBehindNewline | src/history/history.c:100-103 | behind a final newline that condition is that the line has no newline and fits the buffer |
| HistoryFiles.UnfinishedLine | src/history/history.c:45-53 | a short unfinished line keeps a short command whole if and only if it has no separator |
| HistoryFiles.SwallowedCommand | src/history/history.c:45-53 | a file of one unfinished line that swallows the next command |
| HistoryFiles.ReadableAtAnyTime | src/history/history.c:101 | a command comes back under every time stamp if and only if it has no newline and leaves room for the longest stamp |
| HistoryFiles.CommandsBounded | src/history/history.c:45-53 | nothing read back contains a newline or is as long as the text it came from |
| HistoryModel.RunIsQueue | src/history/history.c:30-104 | over every session of saves, clears and loads the ring holds the last 1000 commands since the last clear |
| HistoryModel.SaveKeepsSync | src/history/history.c:76-104 | saving keeps memory and file in agreement if the line goes with the end of the file; and only if, behind a final newline, with room in the ring for the whole file, or when the unfinished end has no NUL and fits one read with the line |
| HistoryModel.LostUnnoticed | src/history/history.c:76-104 | elsewhere agreement can be a coincidence: a save lost behind a NUL, with a ring full of that same command |
| HistoryModel.FileKeepsAll | src/history/history.c:76-104 | from any file, the file holds exactly what was entered, in order, if and only if every save goes with the end it finds |
| HistoryModel.ReadableSaves | src/history/history.c:76-104 | behind a final newline that is: every saved command is readable |
| HistoryModel.RunInSync | src/builtin/history.c:20-28 | when the file holds all commands, memory and file agree if and only if as many are remembered as were entered, or both are at least 1000 |
| HistoryModel.RunMatches | src/history/history.c:30-104 | behind a final newline, after any saves, clears and loads, memory and file agree if and only if, from the last event back over 1000 commands, every save is readable, a clear found a file without commands, and a load found an empty ring or enough in the file |
| HistoryModel.LostAfterClear | src/history/history.c:76-104 | without that newline it can be a coincidence: a save lost behind a NUL, in a ring cleared before |
| HistoryModel.ClearForgets | src/builtin/history.c:20-28 | after a clear, memory and file agree if and only if the file holds no command |
| HistoryModel.ClearedCommand | src/builtin/history.c:20-28 | a file of one readable line, and a clear: memory is empty, the file still holds the command |
| HistoryModel.WithoutClear | src/history/history.c:76-104 | in a session of saves only, the ring holds the last 1000 commands of the file if every save goes with the end it finds; and only if, when the ring has room; behind a final newline if and only if the last 1000 saves are readable |
| HistoryModel.WithoutLoad | src/builtin/history.c:20-28 | behind a final newline and without a load, memory in a ring with room agrees with the file if and only if every save goes with the end it finds and nothing entered was forgotten |
| HistoryModel.TrimThenLoad | src/history/history.c:106-132 | when the next session begins with the commands this one ends with: from a full ring, after any session, if and only if all its items are readable; from a ring with room behind a final newline, if and only if the commands match as in RunMatches; from a ring with room when every save goes with the end it finds, if and only if as many commands are remembered as were entered |
| HistoryModel.ReloadAfterSaves | src/history/history.c:106-132 | from a ring with room after a session of saves only, behind any file, it does if and only if every save goes with the end it finds |
| HistoryModel.ReloadAfterClears | src/history/history.c:106-132 | from a ring with room after a session of saves and clears, behind a final newline, it does if and only if every save goes with the end it finds and nothing entered was forgotten |
| HistoryModel.ReloadWithoutClear | src/history/history.c:106-132 | after a session of saves only it does, when the commands in the ring leave room for any time stamp, and the ring is full, or the session began with an empty file or one that ends with a newline, or every save goes with the end it finds |
| Histories.Session | src/history/history.c:30-104 | any session over the ring and the file has the state of the queue model |
| Histories.RingPut | src/history/history.c:56-72 | writing behind the last entry, or over the oldest of a full ring, is a bounded push |
| Histories.History.Put | src/history/history.c:85-97 | the ring after one more entry; a nonzero start stays a sign of a full ring |
| Histories.History.Load | src/history/history.c:30-74 | memory after loading is the last 1000 of what was there and what the file holds |
| Histories.History.Save | src/history/history.c:76-104 | ring and file after a command; an empty one changes nothing |
| Histories.History.Trim | src/history/history.c:106-132 | a full ring rewrites the file oldest first, any other leaves it alone |
| Histories.History.List | src/builtin/history.c:14-18 | lists the commands oldest first |

## Left out

- Hash map: hash arithmetic, seeding and the 64-bit width of sizes; the hash is an arbitrary function of key and seed, sizes are unbounded.
- Hash map: memory layout, string arena, key ownership modes, temporaries and growth of the raw array; the dense array is a sequence field, buckets are one array of slots.
- HashMaps.HashMap.Search: find and put have a copy of this loop each in C, here they share one.
- HashMaps.HashMap.FindSlot: keys are compared by equality, not as bytes or strings.
- Lexer: signed-char and locale effects of `isspace` and `isalnum` on characters outside ASCII.
- Parser: `raw_str` and `invalid` are not part of trees, since the first starts behind the first word and the second is never set; freeing and debug printers.
- Evaluation.Shell.ExecNode: running a job is an arbitrary function of the job and the shell state.
- Expansion of words, builtins other than the ones named, prompt, readline, environment.
- Jobs: `fork`, `exec`, signals, terminal control and printing are events or nothing; `fg` and `bg` with several ids are several events; statuses that are neither exit, kill, stop nor continuation do not occur.
- Jobs.JobTable.Launch: the process group is the first pid, and no report is handled between the forks, as the signals are blocked there.
- Pipelines.LaunchLoop: descriptors 0 and 1 are open in the shell; the synchronisation pipe, the signal descriptor and redirections are not in the tables.
- Histories.History.Load: the time made out of a line is an arbitrary function of the line; NULL commands, readline's own list, file errors and freeing are not modelled.
- HistoryModel.SaveKeepsSync: one direction only for a file of 999 commands or more that ends within a line, when a NUL or a line that does not fit leaves room for coincidence.
- HistoryModel.TrimThenLoad: nothing is said of a ring with room behind a file that ends within a line, after a session with a clear or a load in which some save does not go with the end of the file; `LostAfterClear` shows that agreement can be a coincidence there.
