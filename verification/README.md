# 2O9 verification

A Dafny 4.11 model of five parts of 2O9, a declarative package manager with a binary debugger, and proofs of
what those parts promise. `dafny verify dfyconfig.toml` checks everything.

## What is modelled

**The live debugger** (`src/debag/dynamic_db.c`). `Ptrace` is the traced process as ptrace shows it: memory read
and written a word at a time (`Words`), registers, an arbitrary stream of stops, and a ghost record of every resume and
every stop, which it writes itself. `Session` is the debugger: 64 breakpoint slots, four watchpoint slots, the signal
tables, and `pendingBp`, `lastSig` and `pendingHwExec`, which link a stop to the next resume. Its methods are the
commands and the mutually recursive stop handlers, and each is proved to do exactly what `Machine` does, which takes one
stop at a time. `Trace` reads breakpoints, counters, flags, watchpoints and the owed signal off a record, and says from
those alone which entry may follow; `MachineLaws` proves that every session's record obeys it. `TraceLaws` proves what
that means for a whole run, and `StreamLaws` for a stream of stops: every resume finds every breakpoint in place, a
breakpoint with ignore count N stops at the (N+1)-th trap whose condition holds and at no earlier one, and every signal
is accounted for. `CommandLaws` says what each command does to the tables, the process and the record, and what a resume,
a step and a step over a call lead to. `Breakpoints` holds the overlay invariant, `Registers` the conditions,
`DebugRegisters` the packing of DR7 (section 17.2 of the Intel SDM, volume 3).

**The static debugger's algorithms** (`src/debag/static_db.c`): `Hexdump` (collapsing repeated rows loses
nothing), `SeekHistory` (two bounded stacks refine one unbounded history), `StringScan` (exactly the maximal
printable runs).

**The generation database** (`src/declarative/gen.c`, `src/declarative/gen_index.c`, `src/cli/main.c`): `Manifest`, `ManifestLine` and
`ManifestFile` are the hand-written JSON printer and the line parser; `Diff` the delta written beside a
manifest; `GenDb` the commit as single disk writes, rollback, pin, cleaning, and runs of them; `Carry` the
carry-forward of an install; `InstallProtocol` any number of install processes interleaving their steps around the
lock file; `GenIndex` the hash index.

**Garbage collection** (`src/cli/main.c`, `src/store/db.c`): `Gc`, from roots to closure, dead paths, orphans and
old generations.

**The AUR resolver** (`src/aur/aur_resolve.c`): `DepGraph`, `TopoSort`, `Closure`, `BuildOrder`,
`DroppedDependency`, `Resolver` and `PlanLaws`. The topological sort is modelled twice, as the code has it and with the
count its comment describes.

## Where the code departs from its documentation

Each of these is modelled as the code has it and stated exactly.

- The topological sort counts dependents where it should count dependencies, so it gives up on every graph that has an
  edge (`TopoSort.TopoSortAsWritten`), and the resolver then builds in discovery order, dependents first
  (`Resolver.ResolveTargets`; for one target, when exactly the order is right is `PlanLaws.OneTargetRightIff`, and
  `PlanLaws.OneTargetGoesWrong` is an input). With the count on the dependent it keeps its promise (`TopoSort.TopoSortCorrected`,
  `Resolver.ResolveTargetsCorrected`).
- An edge to a dependency that is seen but still queued is not recorded: exactly which are is `BuildOrder.RecordedIff`. So
  even the corrected sort can put a package before one it needs (`DroppedDependency.MayGoWrong`); it cannot if and only if
  every dropped dependency follows from recorded ones (`BuildOrder.RightIffNothingLost`).
- A batch query that fails silently drops the packages still queued, and a target the AUR does not have is dropped the same
  way: they are in none of the three lists, though `missing` is to hold what is unresolved (`PlanLaws.SecondBatchFails`,
  `PlanLaws.UnknownTarget`). When nothing is dropped is `PlanLaws.AllListedIff`, and what is, `PlanLaws.DroppedNames`.
- A commit takes the number after the current generation, so after a rollback it overwrites a newer generation
  (`GenDb.CommitAfterRollbackOverwrites`); exactly when, is `GenDb.CommitKeepsManifestsIff`.
  The diff of the generation after that may then no longer fit (`GenDb.CommitAfterRollbackBreaksDiff`); exactly when, is
  `GenDb.CommitKeepsDiffsIff`.
- A process killed between dropping and making the `current` link leaves no current generation, and numbering
  starts again at 1 (`GenDb.KilledWhileUnlinkedRestartsAtOne`).
- After a stray trap rip stays rewound by one, where the comment says it is left alone (`StreamLaws.StrayTrapRewinds`). It is
  left alone exactly if a watchpoint or a single step explains the trap (`StreamLaws.TrapRewindsIff`).
- A condition on `orig_rax` is stored one character short and then always counts as true
  (`Registers.ConditionKeptIffNameFits`).
- The stop that ends the single step off a breakpoint is dropped, whatever it is. A signal in it is lost
  (`StreamLaws.SignalEndingStepIsLost`; when a signal is delivered is `TraceLaws.NextResumeDelivers`), and a watchpoint bit
  in it stays set and hides the next breakpoint's trap (`StreamLaws.LeftOverBitHidesTrap`; `TraceLaws.TrapCountedIff` is
  the exact condition).

## Model

| member | source | states |
|---|---|---|
| DebugRegisters.ComputeDr7 | src/debag/dynamic_db.c:684-704 | the loop's shifts build the word that the decoder reads back |
| DebugRegisters.SlotBits | src/debag/dynamic_db.c:688-701 | shifting by 2i, 16 + 4i and 18 + 4i puts a slot's enable bit, mode and length code where the manual has them |
| DebugRegisters.DecodeEncode | src/debag/dynamic_db.c:671-704 | reading DR7 back slot by slot gives each slot's enable, mode and length, and nothing for a free slot |
| DebugRegisters.ReadEncode | src/debag/dynamic_db.c:684-704 | the three fields of every slot can be read back from the packed word unchanged |
| DebugRegisters.FieldsDoNotOverlap | src/debag/dynamic_db.c:671-683 | fields packed for four slots do not disturb one another |
| DebugRegisters.MeaningOfFields | src/debag/dynamic_db.c:687-701 | the mode and the odd length code of a valid watchpoint determine its mode and length |
| DebugRegisters.ReadIsBits | src/debag/dynamic_db.c:671-683 | what is read from a slot are bits 2i, 16 + 4i and 18 + 4i of DR7 |
| DebugRegisters.ManualCodes | src/debag/dynamic_db.c:677-702 | the codes of the manual: 0 is execution, 1 a write, 3 any access; lengths 0, 1, 2, 3 are 1, 2, 8 and 4 bytes |
| DebugRegisters.TrapsOnTable | src/debag/dynamic_db.c:706-726 | with each slot's address in its register and DR7 the encoding, the processor traps on exactly the address, length and mode of the table's enabled watchpoints |
| Words.PackedWordIsMemory | src/debag/dynamic_db.c:531-544 | writing back a word with its low byte replaced changes that one byte of memory |
| Words.PackedWordLowByte | src/debag/dynamic_db.c:577-585 | the low byte of a peeked word is the byte at the address |
| Words.LowByteReplaced | src/debag/dynamic_db.c:540-541 | replacing a word's low byte replaces the first of its bytes |
| Words.UnpackPack | src/debag/dynamic_db.c:538-541 | a word's bytes survive the trip through a word |
| Registers.ConditionKeptIffNameFits | src/debag/dynamic_db.c:2273-2277 | a condition means after storing what it meant before, on all registers, exactly if its register name fits the buffer |
| Registers.OperatorsMean | src/debag/dynamic_db.c:1032-1038 | the six operators by the sign of the difference |
| Registers.ConditionTestsItsRegister | src/debag/dynamic_db.c:1024-1031 | a condition on rip, eflags or a general register tests that register |
| Registers.WithRfSetsBit16 | src/debag/dynamic_db.c:962-973 | the resume flag is bit 16 of eflags; the other bits stay |
| Breakpoints.Plant | src/debag/dynamic_db.c:577-611 | planting an INT3 in a free slot keeps the overlay invariant |
| Breakpoints.Lift | src/debag/dynamic_db.c:1127-1132 | lifting a hit breakpoint leaves exactly that slot un-inserted and memory otherwise an overlay |
| Breakpoints.Replant | src/debag/dynamic_db.c:998-1004 | putting the pending INT3 back leaves every used slot inserted |
| Breakpoints.Remove | src/debag/dynamic_db.c:613-630 | removing a breakpoint restores its byte and keeps the invariant for the others |
| Breakpoints.AllPlanted | src/debag/dynamic_db.c:975-1016 | with nothing pending, memory is the original with 0xCC at exactly the used slots |
| Breakpoints.OverlayUndone | src/debag/dynamic_db.c:613-630 | with no breakpoints left, memory is the original |
| TraceLaws.EveryResumeIsArmed | src/debag/dynamic_db.c:983-1075 | at every free resume of a run nothing is pending, memory is the original with INT3s at exactly the breakpoints set by then, and a delivered signal is the one owed, its pass flag on |
| TraceLaws.HitCountIsTraps | src/debag/dynamic_db.c:1087-1164 | a hit count is the number of traps the target reported at that breakpoint since it was set or reset: none is missed, none counted twice |
| TraceLaws.IgnoreLeftIsRemainder | src/debag/dynamic_db.c:1145-1164 | what is left of an ignore count is the count given less the reported traps since whose condition held, never past zero |
| TraceLaws.StopsAtFirstUnignoredTrap | src/debag/dynamic_db.c:1143-1178 | anywhere in a run, with ignore count N a trap reaches the prompt exactly if its condition holds and N true traps were reported before; else the target is stepped on |
| TraceLaws.TrapCountedIff | src/debag/dynamic_db.c:1099-1143 | a trap with rip behind a breakpoint is counted exactly if it is no single step's and no enabled watchpoint's bit is set, fresh or left over |
| TraceLaws.FlagsDecide | src/debag/dynamic_db.c:1280-1309 | a reported signal reaches the prompt exactly if its stop flag was last set; otherwise the next resume delivers it exactly under its pass flag |
| TraceLaws.NextResumeDelivers | src/debag/dynamic_db.c:1536-1553 | the first resume after a signal delivers it exactly if its pass flag is on by then and it did not end a step off a breakpoint, whatever the user edits in between |
| TraceLaws.SignalsConserved | src/debag/dynamic_db.c:1200-1316 | every reported signal is delivered, withheld by its pass flag, stepped past, dropped at the end of a step off a breakpoint, or still owed: the five add up |
| TraceLaws.SigtrapNeverDelivered | src/debag/dynamic_db.c:1185-1190 | a synthetic SIGTRAP is never forwarded, over any run |
| MachineLaws.ReactKeeps | src/debag/dynamic_db.c:1087-1316 | the answer to any stop keeps tables, pending breakpoint, flags and owed signal equal to what the record says, and is one the record allows |
| MachineLaws.RunKeeps | src/debag/dynamic_db.c:1200-1316 | so does any run over any stream of stops |
| MachineLaws.RunWaitsOnlyAtTheEnd | src/debag/dynamic_db.c:1050-1075 | a run comes back without the prompt and with the target alive only when the target never stops again |
| MachineLaws.DoKeeps | src/debag/dynamic_db.c:2535-2585 | every command keeps the same invariant |
| MachineLaws.SessionsAreLawful | src/debag/dynamic_db.c:2807-2850 | every session's record is lawful, whatever is typed and whatever the target does |
| StreamLaws.RoundsArePassed | src/debag/dynamic_db.c:1050-1164 | while no more true traps come than the ignore count says, the target runs on through traps, signals and events, and every trap is counted |
| StreamLaws.StopsAtTrapAfterIgnored | src/debag/dynamic_db.c:1143-1178 | after N true traps the next one stops: hit count one more than all traps before, nothing left to ignore, rip on the breakpoint, no further stop taken |
| StreamLaws.WaitsWhileIgnored | src/debag/dynamic_db.c:1143-1178 | and not before: up to N true traps the debugger is still waiting when the stops run out |
| StreamLaws.IgnoreThenContinue | src/debag/dynamic_db.c:1467-1561 | the same from any prompt, also at a breakpoint just hit, for `db <addr> ignore <n>` and `dc` |
| StreamLaws.LeftOverBitHidesTrap | src/debag/dynamic_db.c:983-1016 | the exception: a watchpoint bit that came with the dropped stop hides the next trap, which is shown uncounted with rip past the INT3 |
| StreamLaws.SignalEndingStepIsLost | src/debag/dynamic_db.c:983-1016 | a signal that ends the step off a breakpoint is not delivered by the resume that follows, though its pass flag is on |
| StreamLaws.TrapRewindsIff | src/debag/dynamic_db.c:1099-1123 | a trap leaves rip alone exactly if a single step or an enabled watchpoint explains it; any other moves it back by one |
| StreamLaws.StrayTrapRewinds | src/debag/dynamic_db.c:1180-1184 | a session with no breakpoint: after a stray INT3 the user has rip on it, not behind it |
| StreamLaws.CountersMatchRecord | src/debag/dynamic_db.c:1143-1164 | in every session the counters in the table are those counts of reported traps |
| CommandLaws.BreakThenContinue | src/debag/dynamic_db.c:563-611 | from a new session, `db <a>` and `dc`: after signals that are passed, the trap behind a stops with rip on a, hit count 1, the INT3 lifted, no further stop taken |
| CommandLaws.BreakSets | src/debag/dynamic_db.c:563-611 | setting a breakpoint puts it in a slot that was free, with the original byte and nothing counted, and changes nothing else but the record |
| CommandLaws.DeleteFrees | src/debag/dynamic_db.c:613-630 | deleting one frees its slot, takes it off pending, and changes nothing else |
| CommandLaws.SlotCommands | src/debag/dynamic_db.c:1467-1488 | `ignore`, `reset` and `cond` change that one field of that one breakpoint |
| CommandLaws.FlagAndRegisterCommands | src/debag/dynamic_db.c:2143-2170 | `handle` changes the one flag named; writing a register changes the registers alone |
| CommandLaws.WatchAdds | src/debag/dynamic_db.c:754-821 | a new valid watchpoint goes into a slot that was free |
| CommandLaws.UnwatchSlot | src/debag/dynamic_db.c:825-845 | removing a slot turns it off alone, with a pending execute hit on it |
| CommandLaws.UnwatchMore | src/debag/dynamic_db.c:849-882 | by address the first enabled slot there is turned off, by `all` every slot |
| CommandLaws.ContinueResumes | src/debag/dynamic_db.c:1514-1561 | `dc` first resumes with the owed signal and every INT3 in memory, or steps off a lifted breakpoint |
| CommandLaws.StepSteps | src/debag/dynamic_db.c:1563-1593 | `ds` first steps: it never lets the target run free |
| CommandLaws.StepIsShown | src/debag/dynamic_db.c:1563-1593 | a step that ends gives the prompt with the registers it ended with, no further stop taken |
| CommandLaws.StepOffIsShown | src/debag/dynamic_db.c:1563-1593 | a step off a lifted breakpoint puts it back and ends with the next stop, whatever it is |
| CommandLaws.StepOverResumes | src/debag/dynamic_db.c:1595-1719 | `dso` first sets a temporary breakpoint behind the call and resumes with the owed signal; off a lifted breakpoint, without a call, or where it cannot be set, it steps |
| CommandLaws.StepOverLands | src/debag/dynamic_db.c:1648-1719 | when the return is reached the prompt comes with rip behind the call, and the breakpoints are as they were |
| CommandLaws.StepOverDies | src/debag/dynamic_db.c:1694-1704 | when the target ends instead, the temporary breakpoint is gone too |
| CommandLaws.StepOverNeedsCode | src/debag/dynamic_db.c:1595-1719 | code that cannot be read is not stepped over: nothing runs |
| CommandLaws.TemporaryFires | src/debag/dynamic_db.c:1127-1142 | a run that reaches a temporary breakpoint ends there with its slot free |
| CommandLaws.ResumeFlagIsSet | src/debag/dynamic_db.c:950-973 | a pending execute watchpoint sets the resume flag for `dc`, `ds` and `dso`, once |
| CommandLaws.EndIsRecorded | src/debag/dynamic_db.c:1200-1215 | the end of the target is recorded with its exit code or signal |
| Session.Session.constructor | src/debag/dynamic_db.c:214-236 | a new session is valid: nothing set, memory untouched, the flags at their defaults |
| Session.Session.MemWriteByte | src/debag/dynamic_db.c:534-544 | changes exactly one byte, or fails and changes nothing |
| Session.Session.BpFind | src/debag/dynamic_db.c:548-554 | finds a used slot at the address if and only if there is one |
| Session.Session.BpAlloc | src/debag/dynamic_db.c:556-561 | finds the first free slot if there is one |
| Session.Session.BpInsert | src/debag/dynamic_db.c:563-611 | succeeds exactly for a new address, a free slot and mapped memory; then one free slot holds the breakpoint with the original byte, the INT3 is in memory, and nothing else changes; else nothing changes |
| Session.Session.BpRemove | src/debag/dynamic_db.c:613-630 | frees the slot, restores the byte, clears `pendingBp` if it named it, leaves the rest |
| Session.Session.WpApply | src/debag/dynamic_db.c:708-726 | debug register i gets slot i's address or 0, and DR7 the encoding of the table; a dead target is left alone |
| Session.Session.WpSet | src/debag/dynamic_db.c:754-821 | accepts exactly valid, aligned, new watchpoints while a slot is free; then one free slot holds it; registers and table stay in step |
| Session.Session.WpRemoveSlot | src/debag/dynamic_db.c:825-845 | turns off that slot alone, forgets a pending execute hit on it, registers stay in step |
| Session.Session.WpRemoveAddr | src/debag/dynamic_db.c:849-858 | turns off the first enabled slot at the address, and no other |
| Session.Session.WpRemoveAll | src/debag/dynamic_db.c:861-882 | turns every slot off, with the registers |
| Session.Session.WpCheckHit | src/debag/dynamic_db.c:909-955 | reports a hit exactly if an enabled slot's bit is set, clears the sticky bits, and remembers the last execute slot that fired |
| Session.Session.WpSetRfForExecResume | src/debag/dynamic_db.c:962-973 | sets bit 16 of eflags, and nothing else, exactly once for a pending execute hit |
| Session.Session.ReplantPending | src/debag/dynamic_db.c:998-1004 | afterwards nothing is pending and, on a live target, every used slot is inserted |
| Session.Session.ResumeStepOverBp | src/debag/dynamic_db.c:983-1016 | does nothing without a lifted breakpoint; else one step, the INT3 back, the stop dropped; waits only if no stop is left |
| Session.Session.LiftInt3 | src/debag/dynamic_db.c:1127-1132 | the hit slot alone is out of memory and pending afterwards |
| Session.Session.TakeHit | src/debag/dynamic_db.c:1127-1164 | lifts the byte, counts the hit, and stops exactly if the condition holds and the ignore count is used up |
| Session.Session.TakeTemporaryHit | src/debag/dynamic_db.c:1127-1142 | a temporary breakpoint's byte is restored and its slot freed, nothing left pending |
| Session.Session.HandleInt3 | src/debag/dynamic_db.c:1119-1184 | rip is one less in every case, also with no breakpoint there; one that is there is hit, a temporary one freed |
| Session.Session.TrapStops | src/debag/dynamic_db.c:1087-1184 | a watchpoint's or single step's trap always stops and leaves the registers alone; any other is an INT3's and moves rip back |
| Session.Session.HandleSigtrap | src/debag/dynamic_db.c:1087-1191 | a trap ends where the machine's run from it ends: at the prompt, or past an ignored hit and every stop after it |
| Session.Session.BpAutoContinue | src/debag/dynamic_db.c:1050-1075 | steps off the ignored hit, resumes, and handles every following stop up to the prompt or the end |
| Session.Session.WaitAndHandle | src/debag/dynamic_db.c:1554-1559 | takes the next stop and handles it and what follows; waits only when there is none |
| Session.Session.HandleStop | src/debag/dynamic_db.c:1200-1316 | the loop ends exactly where the machine's run over the same stops ends, with its tables, record, signal and exit code |
| Session.Session.PassBy | src/debag/dynamic_db.c:1233-1313 | a stop that is no trap is shown, or resumed past to the next stop, each as its flags say |
| Session.Session.ShowOrResume | src/debag/dynamic_db.c:1221-1309 | shows a stop exactly if it is out of range or its stop flag is set, else resumes with the signal exactly under its pass flag |
| Session.Session.ContinueAndHandle | src/debag/dynamic_db.c:1536-1559 | one free resume with the last signal exactly under its pass flag, and everything up to the prompt or the end |
| Session.Session.CmdDc | src/debag/dynamic_db.c:1514-1561 | continue: refuses a dead target; else off a lifted breakpoint first, then the resume, then the machine's run |
| Session.Session.SingleStep | src/debag/dynamic_db.c:1580-1589 | one step, and its stop handled |
| Session.Session.CmdDs | src/debag/dynamic_db.c:1563-1593 | step: refuses a dead target; stepping off a lifted breakpoint is the one step, whose stop is dropped |
| Session.Session.ClearTemporary | src/debag/dynamic_db.c:1694-1704 | after the target's death only the step-over's own temporary slot is cleared |
| Session.Session.StepOverCall | src/debag/dynamic_db.c:1648-1718 | runs to a temporary breakpoint with the last signal under its pass flag; one that is not reached stays set while the target lives |
| Session.Session.CmdDso | src/debag/dynamic_db.c:1595-1719 | step over: refuses a dead target and unreadable code; else off a lifted breakpoint, over the call, or one step |
| Session.Session.CmdIgnore | src/debag/dynamic_db.c:1467-1482 | sets the count, cut to an int, of that breakpoint alone, and refuses exactly an unknown one |
| Session.Session.CmdReset | src/debag/dynamic_db.c:1483-1488 | resets the counter of that breakpoint alone, and refuses exactly an unknown one |
| Session.Session.CmdCond | src/debag/dynamic_db.c:2192-2282 | attaches, cuts or clears a condition on that breakpoint only |
| Session.Session.CmdHandle | src/debag/dynamic_db.c:2143-2170 | changes that signal's stop and pass flags to what was given; a missing keyword leaves its flag alone; a number out of range is refused |
| Session.Session.Repl | src/debag/dynamic_db.c:2821-2850 | carries out the commands one after another until they end, the target is gone, or it never stops again, exactly as the machine does |
| Session.DebugSession | src/debag/dynamic_db.c:2807-2850 | a whole session is the machine's session; its record is lawful; it waits only when no stop is left; at the prompt every breakpoint is in memory unless one is pending, and with none left the memory is the target's own |
| Hexdump.PrintHexdump | src/debag/static_db.c:380-444 | expanding the dots gives back the buffer, byte for byte, in rows of 16 at their addresses; no three equal rows are all printed; dots always hide a row |
| Hexdump.PrintRows | src/debag/static_db.c:380-444 | the loop prints the rows of the buffer up to dots that expand to them |
| Hexdump.RowsAreBuffer | src/debag/static_db.c:394-396 | the rows together are the buffer: all but the last have 16 bytes, the last 1 to 16, each at its address modulo 2^64 |
| Hexdump.ExpandRun | src/debag/static_db.c:406-420 | a printed run expands to the rows it stands for |
| Hexdump.ExpandConcat | src/debag/static_db.c:406-443 | expansion goes run by run |
| Hexdump.RunDumped | src/debag/static_db.c:431-443 | flushing the held-back run completes the dump of the rows so far |
| SeekHistory.RunKeepsBound | src/debag/static_db.c:1020-1086 | history and redo together never exceed 32 entries, whatever the commands |
| SeekHistory.UndoRedoInverse | src/debag/static_db.c:1058-1086 | undo then redo, and redo then undo, are the identity wherever they do anything |
| SeekHistory.UndoTimes | src/debag/static_db.c:1061-1071 | n undos go back n positions |
| SeekHistory.SeeksAppend | src/debag/static_db.c:1043-1056 | seeks only add to the back and forget nothing less than 32 deep |
| SeekHistory.SeeksCanBeUndone | src/debag/static_db.c:1043-1071 | up to 32 moves are brought back by as many undos |
| SeekHistory.Repl.SeekHistPush | src/debag/static_db.c:1020-1029 | a full stack drops its oldest entry |
| SeekHistory.Repl.RedoStackPush | src/debag/static_db.c:1032-1041 | a full stack drops its oldest entry |
| SeekHistory.Repl.CmdSeek | src/debag/static_db.c:1043-1056 | the new position is the address, the old one is on top of the history, the redo stack is empty; as the unbounded history's seek |
| SeekHistory.Repl.CmdSeekUndo | src/debag/static_db.c:1061-1071 | goes back to the top of the history and keeps the position for redo, dropping nothing; as the unbounded history's undo |
| SeekHistory.Repl.CmdSeekRedo | src/debag/static_db.c:1076-1086 | goes on to the top of the redo stack and keeps the position for undo, dropping nothing; as the unbounded history's redo |
| SeekHistory.Repl.Run | src/debag/static_db.c:1020-1086 | any stream of commands leaves the stacks as a suffix of the unbounded history |
| StringScan.ScanAscii | src/debag/static_db.c:689-707 | the printed strings are exactly the maximal runs of at least four bytes 0x20 to 0x7E, in order, each with its bytes and its address |
| StringScan.ScanUtf16 | src/debag/static_db.c:709-731 | the same for pairs of such a byte and a zero at even offsets |
| StringScan.ExactIsUnique | src/debag/static_db.c:684-732 | a buffer has only one such list of runs |
| StringScan.AsciiRunIsMaximal | src/debag/static_db.c:689-707 | a run as the theorem counts it is at least four printable bytes with none before or behind |
| StringScan.Utf16RunIsMaximal | src/debag/static_db.c:709-731 | the same for pairs at even offsets |
| Manifest.ParsedFits | src/declarative/gen.c:468-538 | whatever file is parsed, every field read fits its buffer and has no quote, newline or leading space |
| ManifestLine.LineRoundTrip | src/declarative/gen.c:168-171 | a printed entry line is read back as the entry |
| ManifestFile.RoundTrip | src/declarative/gen.c:143-179 | parsing what was printed gives the same list in order if and only if every field fits |
| ManifestFile.WriteManifest | src/declarative/gen.c:158-176 | the print calls write the text the round trip is about; it begins with the id and the time in decimal |
| ManifestFile.ReadField | src/declarative/gen.c:488-500 | the character walk reads a key's value cut to its buffer |
| ManifestFile.GenDbGet | src/declarative/gen.c:468-538 | the fgets loop reads the list the round trip is about |
| ManifestFile.PrintIntMeans | src/declarative/gen.c:160-161 | the printed digits have the number as their decimal value, with a sign exactly if it is negative |
| ManifestFile.FileOfTwo | src/declarative/gen.c:158-176 | the text of a file of two packages, one with a store path and one without, character by character |
| Diff.WriteDiff | src/declarative/gen.c:224-341 | the three loops write a faithful delta: patching the parent's versions gives the child's, every removed entry is the parent's own, no name is in two lists, the counts add up |
| Diff.DiffIsDelta | src/declarative/gen.c:214-223 | added, removed and changed lists are such a delta in whatever order the parent is listed |
| Diff.FirstOfReverse | src/declarative/gen.c:259-270 | searching the back-to-front parent list finds the last entry of a name in the file |
| Diff.FindVersion | src/declarative/gen.c:286-291 | finds the first entry of a name if there is one |
| Diff.VersionsIsLast | src/declarative/gen.c:259-270 | a name stands for the version of its last entry |
| Diff.ListsMean | src/declarative/gen.c:254-341 | added are the entries whose name the parent lacks, removed the parent's entries whose name the child lacks |
| GenDb.PrefixShape | src/declarative/gen.c:343-367 | each write of a commit touches the new generation's directory only, and the link only at the end |
| GenDb.CommitShowsOldNoneOrNew | src/declarative/gen.c:343-370 | after each single write a reader of `current` sees the old generation, none, or the whole new one |
| GenDb.WritesMakeTheCommit | src/declarative/gen.c:343-370 | the seven writes together are one atomic commit |
| GenDb.KilledWhileUnlinkedRestartsAtOne | src/declarative/gen.c:362-366 | a process killed between unlink and symlink makes the next commit number 1 on an empty list |
| GenDb.RunIsSound | src/declarative/gen.c:343-393 | in every run of commits, rollbacks, pins and cleanings `current` is unset or names a whole generation |
| GenDb.PinnedSurvives | src/cli/main.c:2733-2738 | a pinned generation outlives every run |
| GenDb.CommitKeepsManifestsIff | src/declarative/gen.c:345-347 | a commit leaves all manifests alone exactly if the number after `current` is free or holds the same packages |
| GenDb.CommitAfterRollbackOverwrites | src/declarative/gen.c:345-350 | a concrete run in which a generation is lost |
| GenDb.WithoutRollbackManifestsStay | src/declarative/gen.c:343-370 | in runs without rollback no commit ever overwrites and every surviving manifest is unchanged |
| GenDb.DiffsStayFaithful | src/declarative/gen.c:353-354 | in runs without rollback every stored diff patches its stored parent into its manifest |
| GenDb.CommitKeepsDiffsIff | src/declarative/gen.c:345-354 | a commit, after a rollback or not, keeps every stored diff fitting exactly if that of the number after its own is absent or patches the new packages too |
| GenDb.DiffsStayWhileCommitsFit | src/declarative/gen.c:343-393 | in any run whose commits meet that condition every stored diff stays faithful |
| GenDb.CommitAfterRollbackBreaksDiff | src/declarative/gen.c:345-354 | a run with a rollback after which a stored diff no longer leads to its manifest |
| GenDb.Db.Commit | src/declarative/gen.c:343-370 | goes through exactly those disk states and ends in the atomic commit |
| GenDb.Db.WriteManifest | src/declarative/gen.c:143-179 | the first three writes |
| GenDb.Db.WriteDiff | src/declarative/gen.c:224-341 | the two writes of the diff, against the parent's manifest |
| GenDb.Db.Rollback | src/declarative/gen.c:374-393 | repoints the link if the generation exists, through a state without a link |
| GenDb.Db.CmdRollback | src/cli/main.c:1500-1545 | refuses without a current generation or a target; else the link names the target and no generation changes; a reader sees the target or nothing in between |
| GenDb.Db.Pin | src/declarative/gen.c:552-568 | sets the pin flag of an existing generation and changes nothing else; refuses exactly a missing one |
| GenDb.Db.CleanGenerations | src/cli/main.c:2714-2749 | keeps exactly the current and the pinned generations, unchanged, and removes none without a current one; a reader of `current` sees the same after every deletion |
| GenDb.Db.Perform | src/declarative/gen.c:343-393 | the code's runs are the runs the theorems are about |
| Carry.MergeOverrides | src/cli/main.c:1418-1461 | the carried list means the old one overridden by the targets; names stay distinct |
| Carry.RemoveFirst | src/cli/main.c:1426-1439 | removes the first entry of the name and reports whether there was one |
| Carry.CarryForward | src/cli/main.c:1425-1461 | the loop computes that list: each name's last target as installed, and what no target names |
| Carry.MergeHolds | src/cli/main.c:1418-1461 | the merged list holds each name's last target with its version and store path, every package no target names, and nothing else |
| Carry.DistinctEntries | src/cli/main.c:1418-1461 | distinct package names are what the diff's theorem asks for |
| InstallProtocol.RunInv | src/cli/main.c:1404-1491 | every interleaving of lock, read, write and unlock steps keeps the protocol's invariant |
| InstallProtocol.MutualExclusion | src/declarative/gen.c:183-210 | at most one process is between its lock and its unlock, and it is the one the lock names |
| InstallProtocol.AloneFinishes | src/cli/main.c:1404-1491 | with the lock free, a process that runs alone gets it and commits exactly the current packages overridden by its targets |
| InstallProtocol.NoInstallIsLost | src/cli/main.c:1411-1491 | the current list is the initial one overridden by the targets of every finished process, once each, in commit order |
| InstallProtocol.ReadersSeeWholeGenerations | src/declarative/gen.c:120-139 | a reader without the lock finds no generation or a whole one at any moment of any interleaving |
| InstallProtocol.InstallsStay | src/cli/main.c:1463-1474 | commits are numbered one after the other and each keeps its manifest |
| GenIndex.Fnv1aHash | src/declarative/gen_index.c:17-25 | the loop computes the 64-bit FNV-1a fold, within the bucket count |
| GenIndex.HashVectors | src/declarative/gen_index.c:17-25 | the fold gives the published FNV-1a values of four short strings |
| GenIndex.NextPow2 | src/declarative/gen_index.c:28-33 | the least power of two that is at least 16 and twice the count |
| GenIndex.BucketFindsLast | src/declarative/gen_index.c:95-97 | the first match in a name's chain is the last entry of that name in the manifest |
| GenIndex.LastOfIsLast | src/declarative/gen_index.c:124-133 | what is found has the name and no later entry has it; nothing is found when none has it |
| GenIndex.ChainsHoldEachEntryOnce | src/declarative/gen_index.c:140-153 | the buckets together hold every entry exactly once |
| GenIndex.Load | src/declarative/gen_index.c:37-103 | no index exactly for a missing or empty manifest; else one entry for each named item, in order, with its fields, in a table of the right size |
| GenIndex.EntriesAreNamed | src/declarative/gen_index.c:73-98 | one entry for every item with a name, in order, with its fields |
| GenIndex.Index.Insert | src/declarative/gen_index.c:95-98 | prepending to one chain adds the entry to the index |
| GenIndex.Index.Lookup | src/declarative/gen_index.c:124-133 | finds the manifest's last entry of the name, or nothing |
| GenIndex.Index.Foreach | src/declarative/gen_index.c:140-153 | hands out every entry exactly once and counts them |
| Gc.ClosedHoldsLive | src/store/db.c:372-380 | a set with the roots, closed under references, holds all that is reachable |
| Gc.Collector.GatherRoots | src/cli/main.c:2525-2543 | the roots are exactly the store paths that a package of any generation lists |
| Gc.RootsAreListed | src/cli/main.c:2525-2543 | a path is a root exactly if a package in some generation's manifest lists it |
| Gc.Collector.Closure | src/store/db.c:380-436 | the growing list ends as exactly what the roots reach by references |
| Gc.Collector.DeadPaths | src/store/db.c:456-488 | exactly the database's paths outside the closure |
| Gc.Collector.Unregister | src/store/db.c:288-302 | deletes the row and every reference to or from it |
| Gc.Collector.RemoveDead | src/cli/main.c:2560-2579 | removes exactly the dead paths from disk and database |
| Gc.Collector.RemoveOrphans | src/cli/main.c:2581-2642 | removes exactly the scanned directories that database, closure and roots do not know |
| Gc.Collector.Collect | src/cli/main.c:2518-2749 | nothing is deleted that a package of any generation leads to by references; every database path and visible child of the store left is led to by one; current and pinned generations stay |
| Gc.LeavesCollected | src/cli/main.c:2545-2652 | the deletions together leave the specified store |
| Gc.WalksSurvive | src/store/db.c:288-302 | unregistering dead paths cuts no walk between live ones |
| Gc.SecondRunKeepsReachable | src/cli/main.c:2477-2502 | a second run leaves exactly what current and pinned generations reach by the original references |
| Gc.ThirdRunChangesNothing | src/cli/main.c:2477-2502 | a third run changes nothing |
| DepGraph.SetAdd | src/aur/aur_resolve.c:65-77 | adds an item once |
| DepGraph.Graph.GetOrCreate | src/aur/aur_resolve.c:124-142 | returns the package's entry, appending an empty one if there is none |
| DepGraph.Graph.AddEdge | src/aur/aur_resolve.c:145-164 | afterwards exactly one more dependency is recorded, both packages have entries, nothing is doubled |
| DepGraph.OrderedHasNoCycle | src/aur/aur_resolve.c:166-169 | a graph with a dependencies-first order has no cycle |
| DepGraph.StuckHasCycle | src/aur/aur_resolve.c:232-236 | a set in which everything depends on something in it holds a cycle |
| TopoSort.CountDependents | src/aur/aur_resolve.c:176-191 | as written, the counter of a package is the number of its dependents |
| TopoSort.CountDependencies | src/aur/aur_resolve.c:166-191 | as intended, it is the number of its dependencies |
| TopoSort.Drain | src/aur/aur_resolve.c:193-227 | the queue loop outputs, without repeats, exactly the packages whose count of sorted dependencies met their counter |
| TopoSort.TopoSortAsWritten | src/aur/aur_resolve.c:171-239 | no result exactly if the graph has any edge, else the table's own order; so it meets its contract exactly if every edge comes with a cycle |
| TopoSort.AsWrittenFailsOnOneEdge | src/aur/aur_resolve.c:186 | one package depending on another, without a cycle, is enough |
| TopoSort.TopoSortCorrected | src/aur/aur_resolve.c:166-239 | no result exactly for a cycle; else a permutation with every dependency before its dependents |
| Closure.WithinIsReach | src/aur/aur_resolve.c:370-422 | within n steps means reachable by a chain of at most n dependencies |
| Closure.RoundOnSets | src/aur/aur_resolve.c:375-422 | one round of the worklist, on the sets, takes the closure one step further |
| Closure.CompleteIffNothingQueued | src/aur/aur_resolve.c:424-428 | everything reachable is built exactly if no AUR package is left queued |
| Closure.AllReachedIffNothingQueued | src/aur/aur_resolve.c:424-428 | the build set is exactly what the targets reach if and only if nothing is left queued |
| Closure.OnlyTargetsIff | src/aur/aur_resolve.c:375-422 | nothing but targets is built exactly if the loop stopped at once or the targets need no other AUR package |
| Closure.NeedsAccountedFor | src/aur/aur_resolve.c:308-344 | every dependency of a built package is built, queued, installed or a target, and the lists are disjoint |
| Closure.ListedAreWanted | src/aur/aur_resolve.c:308-344 | nothing is built, queued or installed but targets and what built packages need |
| BuildOrder.RecordedIff | src/aur/aur_resolve.c:335-339 | a dependency between two built packages is recorded exactly if it is discovered before its dependent or the dependent is the first to name it |
| BuildOrder.ExactNext | src/aur/aur_resolve.c:316-343 | classifying one package's dependencies keeps the graph at exactly the recorded ones |
| BuildOrder.RoundAppends | src/aur/aur_resolve.c:389-416 | discovery order goes round by round: a package's round is its distance from the targets |
| BuildOrder.TrueIfNothingLost | src/aur/aur_resolve.c:436-454 | an order of the recorded dependencies is right for all true ones if each dropped one follows from recorded ones |
| BuildOrder.ForcedIffChained | src/aur/aur_resolve.c:166-169 | a sort must put y before x exactly if recorded dependencies lead from x to y |
| BuildOrder.RightIffNothingLost | src/aur/aur_resolve.c:436-454 | whatever order the sort returns is right for all true dependencies if and only if each of them is recorded or implied by recorded ones |
| DroppedDependency.MayGoWrong | src/aur/aur_resolve.c:335-339 | an input where it is not, though a right order exists: a needs b and c, b needs c, and the batch answers b first |
| Resolver.StripDepVersion | src/aur/aur_resolve.c:285-294 | the part before the first comparison sign |
| Resolver.ClassifyOne | src/aur/aur_resolve.c:316-343 | a new dependency goes to the queue or to the repositories, nothing is listed twice, and the edge is recorded exactly if the dependency is new to the AUR list or built already |
| Resolver.ProcessDeps | src/aur/aur_resolve.c:308-344 | the same for a whole list |
| Resolver.ProcessPkg | src/aur/aur_resolve.c:400-412 | exactly the names in the package's three lists are seen afterwards besides those seen before; of the new ones exactly those the AUR has are queued, and their edges recorded as for one list |
| Resolver.DepsAreAskedFor | src/aur/aur_resolve.c:400-412 | a package needs exactly the names in its depends, makedepends and checkdepends, cut before the first comparison sign |
| Resolver.CollectedIsAskedFor | src/aur/aur_resolve.c:308-344 | every name a built package asks for in its three lists is listed, a target, or lost to a failed batch; every listed name is a target or asked for by a built package |
| Resolver.BuildPkg | src/aur/aur_resolve.c:391-412 | the package joins the build list, its dependencies are classified, and the graph stays exact |
| Resolver.Round | src/aur/aur_resolve.c:389-416 | one batch adds its packages to the build list, after something that depends on them, and their dependencies to the worklist; the graph stays exact |
| Resolver.Collect | src/aur/aur_resolve.c:357-428 | after the rounds that took effect, build, install and missing are exactly the sets of the closure, and the graph holds exactly the recorded dependencies |
| Resolver.Rebuild | src/aur/aur_resolve.c:436-454 | rebuilding in sorted order keeps the same packages and puts recorded dependencies first |
| Resolver.DiscoveryOrderIsWrong | src/aur/aur_resolve.c:458-462 | a build list in discovery order breaks the order as soon as it has a package that was not asked for |
| Resolver.ResolveTargets | src/aur/aur_resolve.c:348-468 | as written: the exact lists, and in terms of the packages' own lists, every name a built package asks for is listed, a target or lost to a failed batch, and all that is listed is asked for; the order of discovery if any edge is recorded, else the targets as asked for less those the AUR lacks; right exactly if only targets are built and each comes after those it needs there |
| Resolver.ResolveTargetsCorrected | src/aur/aur_resolve.c:348-468 | with the corrected sort: the same lists; unless they form a cycle, recorded dependencies first, and all true ones if none is lost |
| PlanLaws.DroppedNames | src/aur/aur_resolve.c:383-428 | exactly these are in none of the three lists: targets the AUR lacks, and what was queued when a batch failed |
| PlanLaws.AllListedIff | src/aur/resolver.h:23-25 | targets and needs are all listed, as the header promises, exactly if the AUR has every target and no batch failed with names queued |
| PlanLaws.SecondBatchFails | src/aur/aur_resolve.c:389-422 | an input where a needed package is dropped because the second batch fails |
| PlanLaws.UnknownTarget | src/aur/aur_resolve.c:389-428 | a target the AUR lacks, asked for alone, leaves an empty plan |
| PlanLaws.OneTargetRightIff | src/cli/main.c:3137-3139 | for the one target the build command asks for, the order as written is right exactly if the AUR lacks it, the first batch failed, or it does not need itself and needs nothing else from the AUR, or the second batch failed |
| PlanLaws.OneTargetGoesWrong | src/aur/aur_resolve.c:458-462 | an input on which the target is built before the package it needs |

## Left out

What the model takes as given:

- The target does not write its own code, page zero is unmapped, mapped memory stays mapped, and peeks and pokes on a live
  target succeed; exec events do not happen (fork, vfork and clone events do).
- Counters and sizes are unbounded integers, except where the code's width matters: rip and addresses modulo 2^64, the
  ignore count cut to an int, DR7 as 32 bits, the hash as 64 bits.
- File writes and `rm -rf` succeed; a process runs to its end unless a theorem says otherwise; store directories are not
  nested in one another.
- cJSON reads a manifest the printer wrote as the packages it was written from; for names with a backslash, a quote or a
  control character that does not hold.
- The AUR gives consistent answers, and a batch that succeeds answers every name it knows once, in any order; the first failing
  batch is a parameter.
- Allocation never fails; linked lists are sequences; C strings are sequences of characters or bytes; `isprint` is that of
  the C locale; register names are lower case.

What is not modelled:

- Printing, the `print` flag of `handle`, symbol names, memory and stack listings: they change no state.
- Parsing of command lines and of seek expressions: commands arrive as values.
- `call_insn_length`: its answer is a parameter of the step-over command; for modes 1 and 2 it skips the displacement after a SIB byte.
- `gen_db_list` sorts the generations newest first; cleaning does not depend on the order, so the model takes any order.
- The symlink farm, timestamps in manifests other than as a number, and the SQLite layer below the store database's tables.
- Garbage collection without a store database, which keeps listed paths only, and `--optimise`.
- Concurrent garbage collection and removal: collection takes no lock and removal reads before it locks.
- `cmd_apply`, `reconcile.c`, the cache commands, PGP checks and the build driver.
- That no signal is withheld is not claimed, because the code withholds some: `TraceLaws.SignalsConserved` counts them by
  reason.
- Repeating the last command by an empty line. After the target's death nothing is read any more, as in the source
  (`src/debag/dynamic_db.c:2821`).
- Diff.WriteDiff: the delta is promised for a child list with distinct names; with repeated names the code compares each entry on its own.
- GenDb.DiffsStayFaithful: for runs without rollback; with rollbacks `GenDb.DiffsStayWhileCommitsFit` asks for a condition at each commit.
