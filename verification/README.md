# Verified models of nctu_unix

A Dafny model of the parts of this course repository that are hardest to get right, with proofs about them.

**The breakpoint engine of the ptrace debugger** (`hw4/hw4.cpp`). The debugger saves and patches whole eight-byte
words at arbitrary byte addresses, so the saved words of nearby breakpoints overlap; it puts a word back when its
breakpoint is hit or deleted, and before each resumption it sets again only the breakpoints above `rip`.

- `Words`: the words ptrace moves, as bytes under their own addresses, and their equivalence with 64-bit numbers.
- `Tracee`: the child. How the processor executes an instruction is a relation of the program, not fixed; only the
  one-byte 0xcc is: it traps with `rip` just past it.
- `Debugger`: the commands `break`, `delete`, `cont`, `si`, `start`, `run`, `load` and `set`, each as a function on the
  debugger's state and as a method of a class that carries it out loop by loop and is proved to compute that function.
- `Commands`, `Integrity`: sequences of commands together with the answers the system may give; the invariants of every
  such sequence.
- `Stops`: exactly what the three loops over the breakpoint list do.
- `Lifecycle`: what each command does to the debugger itself, in plain numbers and names: which commands are refused,
  which end the debugger, and what the exit, the death and the stop of a child leave.
- `Undo`: what `delete` undoes, and exactly when a deleted breakpoint leaves a 0xcc behind.
- `Rearming`: no breakpoint is lost by an overlapping restore.
- `Transparency`: a debugged child shows only states of the undebugged program, and `cont` stops exactly at the first
  armed breakpoint on the program's own way.

**Hand-written x86-64 routines.** `X86` is a small-step model of the instructions some of them use, with one rule per
instruction for extending a run, and a processor object that carries them out and is proved to compute those steps.
On it:

- `SetJmp`: `setjmp` and `longjmp` of `hw3/libmini64.asm`, with the system-call stub and the kernel's signal mask (ISO
  C11 sections 7.13.1.1 and 7.13.2.1, System V AMD64 psABI section 3.2.1).
- `Jmp1`: the client `hw3/jmp1.c`, whose loop is driven by `longjmp` alone, for any number of functions.
- `Recur`: the recursive function of `asm/assembly/recur.asm` on the machine stack.

The loops without a stack are methods of their own, with the registers as local variables and memory as an array:
`Bubble` (the two bubble sorts, in place in a larger memory, for any length) and `BitString` (the bit-string printer,
for any width).

**Smaller loops.** `SignalSets` (the signal sets of `hw3/libmini.c`), `DeletedMarker` (the marker-stripping loop of
`hw1/hw1.cpp`), `TrapPatcher` (the tracer of `asm/ptrace/no_more_traps/test.cpp`), `Splitting` (`split` of
`hw4/hw4.cpp`). `Powers` holds powers of a number.

Where a promise does not hold of the code in general, the exact condition is proved:

- the hit loop follows consecutive breakpoint addresses down: `Stops.HitExact`, `Rearming.ContLosesOnlyTheHit`;
- deleting overlapping breakpoints can leave a 0xcc behind: `Undo.OverlapLeaves` shows one, and
  `Undo.DeletionsRestoreExactly` and `Undo.DeletingAllRestoresExactly` say exactly when the text comes back;
- `si` after `break` at the current instruction: `Transparency.SiOnPatchedByte`, `Transparency.SiStepsExactly`;
- `longjmp` tests 64 bits of an `int`: `SetJmp.LongjmpIntResult`;
- `r` overflows beyond n = 41, and loses a stack above 4 GiB: `Recur.ExactUpTo41`, `Recur.ReturnsOrFaults`;
- the rectangular sort leaves the array when rcx is 65536 or more: `Bubble.SortRectangular`;
- the trap patcher changes neighbouring bytes when the file has something other than digits, or has ended:
  `TrapPatcher.CharactersPatchOneByteExactly`, `TrapPatcher.EofPatchesAll`.

What the environment answers (`fork`, `execve`, `waitpid`, the files read, the child's behaviour) is a parameter of the
commands; a failed ptrace call ends the session, as `error` does.

## Model

| member | source | states |
|---|---|---|
| Words.WordOfNumber | hw4/hw4.cpp:280-292 | the 64-bit number a peek returns and the eight bytes at the address determine each other: bytes to number to bytes |
| Words.NumberOfWord | hw4/hw4.cpp:280-292 | the same round trip from the number's side |
| Words.MaskedLowByte | hw4/hw4.cpp:283 | masking 0xcc into the number replaces the byte at the address and keeps the other seven |
| Words.TestedLowByte | hw4/hw4.cpp:281 | the test of the number's low byte is the test of the byte at the address |
| Words.LittleEndian | hw4/hw4.cpp:280-292 | byte k of the word is bits 8 k to 8 k + 7 of the number |
| Debugger.Debugger.Bp | hw4/hw4.cpp:271-296 | the method with its search loop computes the specification: every refusal, the failing peek, no second entry for a listed address |
| Debugger.Debugger.Del | hw4/hw4.cpp:115-133 | searching by id, poking and erasing by index and renumbering together delete exactly that entry and restore that ids are indices |
| Debugger.Debugger.Chkbp | hw4/hw4.cpp:41-49 | the loop computes the re-arming specification |
| Debugger.Debugger.Cont | hw4/hw4.cpp:393-432 | cont against its specification: exits, deaths and stops kept apart, the hit loop with the rip it decrements itself |
| Debugger.Debugger.Si | hw4/hw4.cpp:230-266 | the same for si and its loop comparing with rip |
| Integrity.RestartRearms | hw4/hw4.cpp:443-469 | start gives a child exactly when a program is loaded and fork succeeds; the list survives, the new child has the program's own code, and the first resumption arms exactly the listed breakpoints above the entry point |
| Lifecycle.RefusedChangesNothing | hw4/hw4.cpp:116-119 | every refusal, of break, delete, cont, si, start, run, load and set: wrong state, address outside .text, unknown id, unusable file; each leaves debugger and child as they were |
| Lifecycle.BreakExactly | hw4/hw4.cpp:271-296 | break to the byte: when it ends the debugger, 0xcc at the address and nowhere else, and a new entry, holding the eight bytes as they were, only for an address not listed |
| Lifecycle.DeleteExactly | hw4/hw4.cpp:115-133 | delete to the byte: the eight saved bytes are back, nothing else of the child changes, the entry is gone and the later ones renumbered |
| Lifecycle.EndsExactly | hw4/hw4.cpp:11-14 | in every state that keeps the invariants a command ends the debugger if and only if a system call it makes fails: a word that cannot be moved, a child that is dead, a fork, a file that cannot be opened |
| Lifecycle.SessionEndsExactly | hw4/hw4.cpp:11-14 | the same after every possible sequence of commands from the start |
| Lifecycle.ExitUnloadsChild | hw4/hw4.cpp:404-411 | when cont, si or run is answered by an exit the state is LOADED, pid is 0, list and text range stay and the debugger goes on |
| Lifecycle.DeathKeepsState | hw4/hw4.cpp:404-431 | when it is answered by a death state and pid stay, so start changes nothing and cont, si and run end the debugger |
| Lifecycle.StartAfterExit | hw4/hw4.cpp:443-469 | start after such an exit gives a child with that pid and the program's own code, and its first resumption puts 0xcc at exactly the listed addresses above the entry point |
| Lifecycle.RunOfLoaded | hw4/hw4.cpp:436-438 | run of a loaded program is start followed by cont |
| Lifecycle.OtherSignalsPass | hw4/hw4.cpp:412-431 | a stop by a signal other than number 5 leaves the child exactly as reported |
| Lifecycle.ContHit | hw4/hw4.cpp:413-427 | after a SIGTRAP one byte above a breakpoint, none listed later just below it, the eight bytes and rip are put back and nothing else changes |
| Lifecycle.SiHit | hw4/hw4.cpp:250-261 | after a SIGTRAP at a breakpoint si puts the eight bytes back and nothing else changes |
| Lifecycle.FirstCommands | hw4/hw4.cpp:3-9 | at first every command but load is refused; load and start then give a running child and an empty list |
| Transparency.RunStopsExactly | hw4/hw4.cpp:433-442 | run of a loaded program can stop at a point if and only if it is the first listed breakpoint above the entry point on some run of the undebugged program |
| Transparency.RunningRunStopsExactly | hw4/hw4.cpp:433-435 | run of a running child, whatever fork would answer, can stop at a point if and only if it is the first point with a 0xcc on some run of the undebugged program from here |
| Transparency.RunningRunExits | hw4/hw4.cpp:433-435 | when such a run ends in an exit, the undebugged program can exit with that status, and the program is loaded again |
| Commands.TextOfIsFirst | hw4/hw4.cpp:505-511 | the section scan gives the section of least index called .text, and the zeroed header if there is none |
| Commands.LoadTakesFirstText | hw4/hw4.cpp:470-526 | load leaves NONLOAD if and only if the file is a 64-bit ELF; bp then accepts exactly the addresses of the first .text; nothing else changes |
| Commands.SetChangesOneRegister | hw4/hw4.cpp:171-200 | for the eighteen names, written out: set gives that register the value and changes no other register, no memory and nothing of the debugger; any other name changes nothing |
| Commands.SetEveryRegister | hw4/hw4.cpp:179-196 | after set of any of those names, in a running session, that register holds the value |
| Commands.SetsCompose | hw4/hw4.cpp:171-200 | of two sets of one register the later counts; sets of different registers commute |
| Debugger.Erase | hw4/hw4.cpp:124-126 | erasing shifts the later entries down and numbers them by index |
| Commands.BpEffect | hw4/hw4.cpp:271-296 | bp ends the session exactly when the address is in .text of a running child and its word cannot be moved; otherwise it makes exactly one byte 0xcc and lists it once, or changes nothing |
| Stops.ChkbpEffect | hw4/hw4.cpp:41-49 | before a resumption exactly the listed addresses above rip get 0xcc, and nothing else changes |
| Stops.HitExact | hw4/hw4.cpp:413-427 | after a trap above breakpoint j, one word is put back and rip ends at j if and only if no entry listed after j is one byte below it |
| Stops.HitWalk | hw4/hw4.cpp:413-427 | in general the loop walks down consecutive addresses in increasing list order, puts those words back and no others, and stops only where none follows |
| Stops.LandExact | hw4/hw4.cpp:254-261 | landing on a breakpoint puts back its word and nothing else |
| Integrity.MemoryIntegrity | hw4/hw4.cpp:115-131 | after any possible command sequence in which the child leaves its code alone, every byte of child code is original or a 0xcc at an address once given to break; saved words start with the original non-0xcc byte and their other bytes are original or such a 0xcc; the bookkeeping holds |
| Commands.KeepsCodeLeavesCode | hw4/hw4.cpp:393-432 | on a processor that writes no code every possible sequence is one in which the child leaves its code alone |
| Integrity.SessionKeeps | hw4/hw4.cpp:443-469 | every command sequence keeps ids equal to indices, addresses distinct and in .text, RUNNING exactly when pid is not 0, and code integrity |
| Integrity.CommandKeeps | hw4/hw4.cpp:271-293 | each single command keeps those invariants |
| Integrity.DelKeeps | hw4/hw4.cpp:115-131 | delete keeps the bookkeeping and code integrity and lists nothing new |
| Integrity.EverListedWasAsked | hw4/hw4.cpp:289-293 | an address is listed only if a break command named it |
| Integrity.LoadedForGood | hw4/hw4.cpp:404-411 | once a program is loaded no sequence of commands enters NONLOAD again or moves the text range |
| Undo.DelUndoesBp | hw4/hw4.cpp:115-131 | a bp that adds an entry followed by del of that entry restores the whole state, whatever overlaps |
| Undo.NestedIsNoOp | hw4/hw4.cpp:280-293 | any properly nested sequence of break and delete without a resumption is a no-op |
| Undo.DelSettles | hw4/hw4.cpp:120-129 | a deletion leaves every injected 0xcc owned by a listed breakpoint if and only if no other saved word holds the deleted one's 0xcc |
| Undo.LeftBehind | hw4/hw4.cpp:120-129 | deleting id then j leaves 0xcc at id's unlisted address if and only if j's saved word held it |
| Undo.OverlapLeaves | hw4/hw4.cpp:120-129 | break a + d, break a, delete both in that order leaves 0xcc at a + d, for every d from 1 to 7 |
| Undo.DeletionsRestoreExactly | hw4/hw4.cpp:115-131 | in any state, whatever overlaps, a sequence of deletions brings the original code back if and only if at every address that ever had a breakpoint the last deleted word covering it holds no injected 0xcc there |
| Undo.DeletingAllRestoresExactly | hw4/hw4.cpp:115-131 | deleting all, in any order, restores the code if and only if for each listed address the last deleted word that covers it does not hold its 0xcc |
| Undo.SessionDeletionsRestoreExactly | hw4/hw4.cpp:115-131 | the same equivalence after every session from the start of the debugger |
| Undo.SpacedSessionSettles | hw4/hw4.cpp:271-293 | a session that keeps breakpoints eight bytes apart keeps every injected 0xcc owned by a listed breakpoint, whatever else happens |
| Undo.SpacedSessionRestores | hw4/hw4.cpp:115-131 | after such a session, deleting all in any order restores the original code |
| Rearming.ContLosesOnlyTheHit | hw4/hw4.cpp:41-49 | of the breakpoints armed when cont resumes, all are armed at the next resumption except the one at the rip the hit loop ends at, however far it walked down; without a break of that address in between, exactly that one is lost |
| Rearming.CleanHitLosesOnlyIt | hw4/hw4.cpp:413-427 | with none listed later one byte below the breakpoint hit, only that one can be lost |
| Rearming.SiLosesOnlyTheHit | hw4/hw4.cpp:254-261 | from an si exactly the breakpoint landed on is lost |
| Transparency.DebuggingIsTransparent | hw4/hw4.cpp:230-296 | after any prudent command sequence a live child's rip, registers and data are those of a reachable state of the undebugged program |
| Transparency.LifeIsOneRun | hw4/hw4.cpp:230-432 | all the stops of one child lie, in order, on a single run of the undebugged program, registers and data included |
| Transparency.SpacedIsPrudent | hw4/hw4.cpp:115-131 | keeping breakpoints eight bytes apart on instruction starts is prudent for break and delete |
| Transparency.ContTransparent | hw4/hw4.cpp:393-432 | cont stops on a listed breakpoint, unpatched, at a state the program reaches by itself, and an exit is the program's own |
| Transparency.SiTransparent | hw4/hw4.cpp:230-266 | si executes exactly the program's next instruction and leaves the next byte unpatched |
| Transparency.SiOnPatchedByte | hw4/hw4.cpp:230-266 | on a patched byte si executes nothing and moves rip one byte on |
| Transparency.SiStepsExactly | hw4/hw4.cpp:230-266 | si is one instruction of the undebugged program if and only if the byte at rip is unpatched or the instruction there only goes one byte on |
| Transparency.ContStopsExactly | hw4/hw4.cpp:398-427 | cont can stop at a point if and only if it is the first point with a 0xcc on some run of the undebugged program from here |
| SetJmp.StubReadsMask | hw3/libmini64.asm:2-11 | the stub stores the signal mask, returns to its caller and preserves the callee-saved registers |
| SetJmp.StubSetsMask | hw3/libmini64.asm:2-11 | the stub installs the mask with SIGKILL and SIGSTOP cleared |
| SetJmp.SetjmpSaves | hw3/libmini64.asm:59-88 | setjmp returns 0 with registers and mask unchanged, the buffer holding them, and only the buffer and seven stack words written |
| SetJmp.LongjmpRestores | hw3/libmini64.asm:90-119 | longjmp lands at the saved return address with the saved rsp, rbx, rbp, r12-r15 and mask, rax the value or 1 for 0, the buffer intact and only the 48 bytes below the restored rsp written |
| SetJmp.SetjmpThenLongjmp | hw3/libmini64.asm:59-119 | longjmp any time after setjmp, with the buffer undisturbed, is a second return of that setjmp |
| SetJmp.LongjmpIntResult | hw3/libmini64.asm:114-117 | the int result is the one C asks for if and only if a zero argument comes with a zero upper half of rsi |
| SetJmp.CallSetjmp | hw3/libmini64.asm:59-88 | the routine run on the processor does that for a caller outside the listing |
| SetJmp.CallLongjmp | hw3/libmini64.asm:90-119 | the same for longjmp |
| Jmp1.NextTurn | hw3/jmp1.c:6-28 | one turn: main calls funs[i] for the counter's value and its longjmp starts the next turn with jb and main's frame intact |
| Jmp1.PlaysOut | hw3/jmp1.c:21-28 | from any turn main reaches its return, n - i decreasing |
| Jmp1.PlaysInOrder | hw3/jmp1.c:21-28 | in every execution the j-th call is funs[j] |
| Jmp1.MainCallsEachOnce | hw3/jmp1.c:19-28 | main reaches its return and in every execution calls funs[0] to funs[n - 1] once each in index order |
| Recur.RunsR | asm/assembly/recur.asm:16-56 | for every signed n with enough stack, below 4 GiB for n of at least 2, r returns r(n) modulo 2^64 with rsp and rbp right and every word from the return address up unchanged |
| Recur.HighStackFaults | asm/assembly/recur.asm:28-36 | for n of at least 2 and a frame at or above 4 GiB, add esp, 8 loses the stack and the call ends in a fault |
| Recur.ReturnsOrFaults | asm/assembly/recur.asm:16-56 | a call returns r(n) exactly when there is room and n is at most 1 or the frame is below 4 GiB, and otherwise faults |
| Recur.RunProgram | asm/assembly/recur.asm:12-15 | the program run on the processor leaves r(25) in rax and the stack as it was |
| Recur.RunsOutOfStack | asm/assembly/recur.asm:16-46 | with any word missing of the 24 n - 8 bytes below rsp (8 for n up to 1) the call faults, so that is exactly what it needs |
| Recur.ClosedForm | asm/assembly/recur.asm:3-6 | 4 r(n) = 3^n - (-1)^n |
| Recur.FitsUpTo41 | asm/assembly/recur.asm:3-6 | r(n) fits in 64 bits if and only if n is at most 41 |
| Recur.NothingWrapsUpTo41 | asm/assembly/recur.asm:31-46 | up to there neither product nor the sum wraps |
| Recur.ExactUpTo41 | asm/assembly/recur.asm:16-56 | rax is r(n) itself if and only if n is at most 41 |
| Recur.ReturnsClosedForm | asm/assembly/recur.asm:3-6 | for n from 0 to 41 the call leaves (3^n - (-1)^n) / 4 in rax |
| Recur.ProgramComputesR25 | asm/assembly/recur.asm:12-15 | the program reaches exit with r(25) = (3^25 + 1) / 4 in rax and the stack as it was |
| Bubble.SortTriangular | asm/assembly/bubble.asm:27-54 | for any n of at least 2 the array becomes its sorted arrangement and no other memory changes |
| Bubble.SortRectangular | asm/bubble.asm:1-17 | the routine stays inside the array if and only if rcx is below 65536 on entry, and then sorts it and changes nothing else; for every rcx, whether it faults, how far it reaches and what it leaves |
| Bubble.CountIsPatched | asm/bubble.asm:3 | the comparisons of a pass: the low 16 bits of the count are n - 1, the others those rcx had |
| Bubble.InnerRectangular | asm/bubble.asm:3-14 | one pass makes (rcx with its low 16 bits set to n - 1) comparisons, or runs into the end of memory |
| Bubble.FullPassesSort | asm/bubble.asm:1-17 | n - 1 full passes sort |
| Bubble.PassCarriesGreatest | asm/bubble.asm:5-14 | a pass leaves the greatest word it meets at the end of its stretch, outside the array when it is too long |
| Bubble.FullPassIsShort | asm/bubble.asm:5-14 | a full pass over an array whose end is settled does what the shrinking pass does |
| Bubble.SortedIsUnique | asm/assembly/bubble.asm:16-26 | a sequence has one sorted permutation |
| Bubble.PassesSort | asm/assembly/bubble.asm:27-54 | the passes sort |
| BitString.ShowBits | asm/dispbin.asm:1-12 | w characters 0 or 1, read most significant bit first, give back AX; the overlapping stores leave seven zero bytes behind them and nothing else changed |
| BitString.NumberShowsBits | asm/dispbin.asm:1-12 | character i of w stands for the bit of weight 2^(w - 1 - i) of the number the string denotes |
| BitString.OneString | asm/dispbin.asm:1-12 | no other string of that length stands for the same number |
| SignalSets.Libmini.SigEmptySet | hw3/libmini.c:239-248 | memset over the word gives the empty set; a null set is -1 with EINVAL |
| SignalSets.Libmini.SigFillSet | hw3/libmini.c:250-259 | memset of 0xff gives all signals 1 to 64 |
| SignalSets.Libmini.SigAddSet | hw3/libmini.c:261-270 | adds exactly that signal; out of range is -1 with EINVAL and the word as it was |
| SignalSets.Libmini.SigDelSet | hw3/libmini.c:272-281 | removes exactly that signal, with the same errors |
| SignalSets.Libmini.SigIsMember | hw3/libmini.c:283-291 | answers membership, with the same errors |
| SignalSets.Libmini.PerformAll | hw3/libmini.c:239-281 | any sequence of operations does to the word what it does to the mathematical set |
| SignalSets.LastDecides | hw3/libmini.c:239-281 | a signal is in the set at the end if and only if the last operation on it put it there |
| SignalSets.OrIsUnion | hw3/libmini.c:268 | or of words is union of sets |
| SignalSets.ShiftedNumber | hw3/libmini.h:31-32 | the shift of sigmask loses no bit: the mask is 2^(signo - 1) |
| SignalSets.MembersAreBits | hw3/libmini.h:31-32 | a signal is a member if and only if it is from 1 to 64 and bit signo - 1 of the word is set |
| DeletedMarker.Process.StripDeleted | hw1/hw1.cpp:80-85 | the loop ends with the marker-free form of the name, and fd and type change exactly when there was a marker |
| DeletedMarker.StripsInLetters | hw1/hw1.cpp:80-85 | "(deleted)", in letters, goes wherever it stands, none is left, and a name without it stays as it is |
| DeletedMarker.UniqueNormalForm | hw1/hw1.cpp:80-85 | however occurrences are chosen for removal, the marker-free result is the same |
| DeletedMarker.RemovalsEnd | hw1/hw1.cpp:80-85 | every way of removing ends: nine characters go each time |
| DeletedMarker.Commute | hw1/hw1.cpp:82 | removals at two places commute, as the marker cannot overlap itself |
| DeletedMarker.HalvesAreStripped | hw1/hw1.cpp:80-85 | a marker formed by two halves when the one between them goes is removed too, in any surroundings |
| TrapPatcher.Tracer.Stop | asm/ptrace/no_more_traps/test.cpp:62-86 | a stop after a 0xcc takes two characters, any or none left, masks their value into the word there and backs rip up; any other stop changes nothing |
| TrapPatcher.Tracer.Trace | asm/ptrace/no_more_traps/test.cpp:62-86 | the loop over all stops, for any file, computes the specification and leaves the cursor at two characters for each trap or at the end |
| TrapPatcher.PokeMasked | asm/ptrace/no_more_traps/test.cpp:76-77 | the poke of the masked number changes the byte at the address to the number's low byte and ors its other bytes into the next seven |
| TrapPatcher.ToHexOfDigits | asm/ptrace/no_more_traps/test.cpp:31-37 | the sixteen lower-case digits, by their codes, have the values 0 to 15 |
| TrapPatcher.ToHexOfOthers | asm/ptrace/no_more_traps/test.cpp:31-37 | every other character and the end of the file are left as they are |
| TrapPatcher.DigitsPatchOneByte | asm/ptrace/no_more_traps/test.cpp:74-77 | two lower-case digits change that one byte, to their value |
| TrapPatcher.CharactersPatch | asm/ptrace/no_more_traps/test.cpp:74-77 | any two characters change that byte and or at most four bits into the next; the rest stays |
| TrapPatcher.CharactersPatchOneByteExactly | asm/ptrace/no_more_traps/test.cpp:74-77 | no other byte changes if and only if the next one has those four bits already |
| TrapPatcher.EofPatchesAll | asm/ptrace/no_more_traps/test.cpp:74-77 | past the end of the file all eight bytes become 0xff |
| TrapPatcher.PatchesInOrder | asm/ptrace/no_more_traps/test.cpp:70-84 | while the digits last, the code is the original with the j-th decoded byte written at the j-th trap, in order |
| TrapPatcher.DecodesPrinted | asm/ptrace/no_more_traps/test.cpp:31-37 | decoding inverts two-digit lower-case printing for every byte sequence |
| Splitting.Split | hw4/hw4.cpp:527-533 | the reading loop computes the words of the line |
| Splitting.SplitsLine | hw4/hw4.cpp:527-533 | splitting words joined by any non-empty white space gives them back |
| Splitting.SplitsPlainLine | hw4/hw4.cpp:527-533 | the same with the white space written out: blank, tab, newline, vertical tab, form feed and carriage return |
| Splitting.SplitsCommand | hw4/hw4.cpp:527-533 | a command and its argument with a single blank between them are two words |
| Splitting.EveryLine | hw4/hw4.cpp:527-533 | every line is its words, non-empty and without white space, between such gaps |

## Left out

- Real ptrace, fork, execve and waitpid: their answers are parameters; a child killed by a signal leaves the state
  RUNNING, as in the code.
- `disasm`, `dump`, `vmmap`, `get`, `getregs`, `help`, `list` and all messages: output only. `chkstat` is never called.
- The main loop of the debugger beyond `split`: reading lines and dispatching on the first word.
- Child memory is split into the code the pokes can reach and everything else. The results on integrity, re-arming and
  deletion are for sessions in which the child leaves its code alone (`Commands.AllLeaveCode`), those on transparency for
  programs that, wherever they go undebugged, use code only by executing it (`Tracee.OnlyFetches`).
- Threads, and signals other than SIGTRAP in the transparency results: the program is assumed to meet none.
- The x86-64 model keeps memory as aligned eight-byte words, numbers instructions instead of encoding them, and keeps of
  the flags only what the listings test; after `mul`, whose zero and sign flags are undefined, it leaves them alone.
- rt_sigprocmask with a new set is modelled for SIG_SETMASK only; the other system-call stubs are the same macro.
- Jmp1.MainCallsEachOnce: `main` and the functions are compiled C, modelled by what they do between calls of setjmp and
  longjmp; the functions' `write` is not modelled.
- Recur.ReturnsOrFaults: for a stack above 4 GiB it assumes that no mapped word at or above 4 GiB has another mapped
  one at its address cut off at 32 bits, and that the last word of the address space is unmapped; otherwise the cut-off
  stack pointer lands in other memory, which is not followed.
- Bubble and BitString are not built on the `X86` steps. The counters of the triangular sort are 32-bit signed numbers,
  and memory is no larger than a 32-bit address can name; the other registers are unbounded numbers.
- TrapPatcher: the child keeps its own code between two stops, and the tracer's system calls do not fail.
- BitString.ShowBits: the word `push` stores below rsp is not part of the result memory.
- `load` without a path, beyond changing nothing, and the section-header reads themselves.
- All of `hw2`, the rest of `hw1`, the wrappers of `hw3/libmini.c`, and the remaining assembly exercises, which are
  straight-line or add nothing to the loops above.
