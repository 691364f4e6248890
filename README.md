# Synacor VM and debugger core, in Dafny

This project models, and proves properties of, the core of a PHP interpreter and console debugger for the Synacor Challenge architecture. That machine has 15-bit words, 32768 memory cells, eight registers addressed as 32768..32775, and one shared stack.

What the model covers:

- **The VM.** `SynacorVM.php` and the 21 operation classes under `operations/`.
  - `Machine` gives each operation a pure function over a `State` value.
  - `Synacor.SynacorVM` is a class with the PHP object's fields. Its methods and the module-level `Op*` methods update those fields in place. Each is proved to leave the fields exactly as the matching `Machine` function says. `GetNext` is the counting loop and `Run` is the fetch/dispatch loop.
  - `MachineFacts` proves what the operations promise: round trips, effects, and how `run` ends.
  - `Bits` defines PHP's `&`, `|` and `~x & 0x7FFF` on word values.
  - `Arch` holds the opcode table.
- **The teleporter solvers.**
  - `Recurrence` is the three-argument Ackermann-like function modulo 32768.
  - `TeleporterUtil` is the memoised PHP solver and its search.
  - `TeleporterCalls` models `call5483`, `call6027`, `call6035` and `call6048` of `getTeleporterValue.php`, which follow the challenge binary's subroutines at those addresses. `util/getTeleporterValue.php` has the same four functions, with only added echoes.
  - `TeleporterJava.Solver` is the Java solver with its static cache.
- **The console.**
  - `VMOutputs.VMOutput` covers the stored-input queue, trace flags, handler table and the line editor of `waitForUser`.
  - `RunScript` covers `getFilepath`, the VM's input handler, and the routing of a typed line in `gotInput`.
- **The window buffer of the terminal emulator.** `NonCurses.Window` models `NonCursesWindow`: a 2-D buffer, the last-drawn buffer, the damage queue, string writes, borders and both redraw paths.

Helpers that the operation classes call but `SynacorVM.php` does not define are modelled as follows:

- `decode(v)` is `get(v)`.
- `asRegister(v)` halts with code 1 unless v is 32768..32775. Otherwise it leaves v alone.
- `output(v)` appends v to an output sequence.

Where the code and the Synacor architecture specification (quoted in each operation file's header comment) disagree, the model follows the code:

- There is no class for opcode 21, so it is a bad opcode.
- `in` halts instead of reading input or suspending.
- `pop` on an empty stack halts and still writes 0 into its register.
- `set` below 32768 halts and still writes.
- `ret` on an empty stack leaves a null location, which later reads as opcode FALSE. FALSE dispatches to `halt`.
- `run` returns -1 whenever the location is not 0.

## Model

| member | source | states |
|---|---|---|
| Bits.AndBelowBoth | operations/and.php:12 | `b & c` is at most b and at most c |
| Bits.AndCommutes | operations/and.php:12 | `&` is commutative |
| Bits.OrCommutes | operations/or.php:12 | `\|` is commutative |
| Bits.OrIdempotent | operations/or.php:12 | `x \| x == x` |
| Bits.OrBelowPow2 | operations/or.php:12 | `\|` of two values below 2^k is below 2^k |
| Bits.InvertLowValue | operations/not.php:11 | inverting the k low bits of b gives 2^k - 1 - (b mod 2^k) |
| Bits.Not15Value | operations/not.php:11 | `~b & 0x7FFF` equals 32767 - (b mod 32768), so it is below 32768 |
| Bits.Not15Involution | operations/not.php:11 | for b < 32768, not(not b) = b and b + not(b) = 32767 |
| Arch.CodeInjective | SynacorVM.php:47-52 | no two operation classes declare the same opcode |
| Arch.TableOfLookup | SynacorVM.php:47-52 | registering the classes gives a table whose keys are exactly their opcodes, each mapped back to its class |
| Arch.AllOpsIndexed | SynacorVM.php:47-52 | the operation classes listed by opcode: the i-th declares opcode i; registration order does not affect the table (TableOfLookup) |
| Arch.OpTableContents | SynacorVM.php:47-52 | the VM's table holds exactly opcodes 0..20, each mapped to the class that declares it |
| Machine.Words | SynacorVM.php:44 | the memory image has one word per byte pair; word i is byte[2i] + 256*byte[2i+1] |
| Machine.Init | SynacorVM.php:14-53 | a fresh VM has eight zero registers, an empty stack, location 0, return value 0, and memory from the little-endian words |
| Machine.Exec | SynacorVM.php:75 | dispatching an operation keeps the state well-formed |
| Machine.Operands | SynacorVM.php:72 | the operand list has exactly `args()` entries, all null when `getNext` returned FALSE |
| Machine.Run | SynacorVM.php:61-82 | `run` returns -1 and changes nothing unless the location is 0 |
| MachineFacts.PushThenPop | SynacorVM.php:120-135 | `pop` after `push(x)` returns x and restores the state |
| MachineFacts.PopTop | SynacorVM.php:131-135 | `pop` removes exactly the top item; on an empty stack it returns null and changes nothing |
| MachineFacts.GetValue | SynacorVM.php:166-170 | `get` is the identity below 32768 and reads register v-32768 for a register address |
| MachineFacts.SetThenGet | SynacorVM.php:152-170 | `set` on a register address changes only that register, and `get` reads it back |
| MachineFacts.SetBadAddress | SynacorVM.php:152-156 | `set` below 32768 halts with 'Bad Set' (return value 1, location -1) and still performs the write |
| MachineFacts.SetDataThenGetData | SynacorVM.php:178-192 | `getData` after `setData` at the same location reads the value; other cells are unchanged |
| MachineFacts.GetNextReads | SynacorVM.php:101-112 | `getNext(n)` returns n cells (FALSE past the end) and advances by exactly n; when halted or n = 0 it returns FALSE and does not move |
| MachineFacts.HaltEffect | operations/halt.php:6-8 | halt sets return value 1 and location -1; registers, memory and stack are unchanged |
| MachineFacts.SetEffect | operations/set.php:6-12 | register a receives decode(b), a register's value for a register b; nothing else changes |
| MachineFacts.NonRegisterDestinationHalts | operations/eq.php:8 | for every operation that checks its destination (set, eq, gt, add, mult, mod, and, or, not, rmem), a destination that is not a register address halts the VM: location -1, return value 1, NotARegister recorded, whatever `set` and `%` do afterwards |
| MachineFacts.PushEffect | operations/push.php:6-11 | the stack grows by decode(a) on top; nothing else changes |
| MachineFacts.PushThenPopOp | operations/pop.php:6-11 | `push a` then `pop r` puts decode(a) in r and restores the stack |
| MachineFacts.PopEffect | operations/pop.php:6-11 | pop removes exactly the top item and stores get(top) in the register |
| MachineFacts.PopEmptyHalts | operations/pop.php:9-10 | an empty stack halts with 'Bad Pop' and still writes get(null) = 0 into the register |
| MachineFacts.EqEffect | operations/eq.php:6-13 | a := 1 iff decode(b) == decode(c), else 0; symmetric in b and c; only register a changes |
| MachineFacts.GtEffect | operations/gt.php:6-13 | a := 1 iff decode(b) > decode(c), else 0; gt(b,c) and gt(c,b) are never both 1; only a changes |
| MachineFacts.JmpEffect | operations/jmp.php:6-10 | the location becomes decode(a), the register's value for a register operand; nothing else changes |
| MachineFacts.JtJfComplement | operations/jt.php:6-14 | jt jumps to decode(b) iff decode(a) != 0 and jf iff it is 0; exactly one of them jumps, and the other changes nothing |
| MachineFacts.AddEffect | operations/add.php:6-13 | a := (decode(b)+decode(c)) mod 32768, below 32768; only a changes |
| MachineFacts.AddDecrements | operations/add.php:12 | adding 32767 decrements a 15-bit value modulo 32768 |
| MachineFacts.MultEffect | operations/mult.php:6-13 | a := (decode(b)*decode(c)) mod 32768, below 32768 and commutative; only a changes |
| MachineFacts.ModEffect | operations/mod.php:6-13 | a := decode(b) % decode(c), below c; a zero divisor is an error, not a result |
| MachineFacts.AndEffect | operations/and.php:6-13 | a := decode(b) & decode(c), at most either operand, commutative; only a changes |
| MachineFacts.OrEffect | operations/or.php:6-13 | a := decode(b) \| decode(c), commutative, idempotent, below 32768 for 15-bit inputs |
| MachineFacts.NotEffect | operations/not.php:6-12 | a := 32767 - (decode(b) mod 32768); only a changes |
| MachineFacts.NotTwice | operations/not.php:11 | applying `not` twice gives back a 15-bit value |
| MachineFacts.RmemEffect | operations/rmem.php:6-12 | a := memory[decode(b)]; memory and stack unchanged |
| MachineFacts.WmemEffect | operations/wmem.php:6-12 | memory[decode(a)] := decode(b); only that cell changes |
| MachineFacts.WmemThenRmem | operations/wmem.php:11 | rmem after wmem at the same address reads the written value |
| MachineFacts.CallEffect | operations/call.php:6-12 | pushes the address after the operand, then jumps to decode(a) |
| MachineFacts.RetEffect | operations/ret.php:6-10 | on a non-empty stack, pops the top and jumps to it |
| MachineFacts.RetEmptyStack | operations/ret.php:8-9 | on an empty stack it halts with return value 1, then `jump(null)` overwrites the -1 |
| MachineFacts.CallThenRet | operations/ret.php:7-9 | call followed by ret returns to the instruction after the call, with the stack restored |
| MachineFacts.OutEffect | operations/out.php:6-10 | emits decode(a) exactly once; nothing else changes |
| MachineFacts.InHalts | operations/in.php:9-12 | in halts with return value 1 and location -1 and writes nothing |
| MachineFacts.HaltedReturns | SynacorVM.php:66-81 | a halted VM leaves the loop at once and `run` returns its return value |
| MachineFacts.HaltVMEndsRun | SynacorVM.php:219-227 | after `haltvm(reason, code)` the loop stops and `run` returns code |
| MachineFacts.BadOpHalts | SynacorVM.php:69-70 | an opcode with no operation class halts with 'BAD OP' and `run` returns 1 |
| MachineFacts.Opcode21IsBad | SynacorVM.php:69 | opcode 21 has no operation class |
| MachineFacts.NullLocationHalts | SynacorVM.php:101-112 | a null location reads FALSE, which dispatches to halt, so `run` returns 1 |
| MachineFacts.Step | SynacorVM.php:66-78 | one loop iteration fetches the opcode and its `args()` operands, then dispatches with the location past them |
| MachineFacts.NullOrEndHalts | SynacorVM.php:106 | reading past the end of memory gives FALSE, which dispatches to halt |
| MachineFacts.InitProgram | SynacorVM.php:44 | a concrete byte image loads as the expected words |
| MachineFacts.HaltProgram | operations/halt.php:7 | the one-word program `halt` stops with return value 1 |
| MachineFacts.AddInstruction | operations/add.php:6-12 | one iteration at `add r1 4 5` leaves 9 in register 1, changes nothing else and moves to the next instruction |
| MachineFacts.AddLiterals | operations/add.php:9-12 | `add` with literal operands 4 and 5 writes their sum 9 to register 1 |
| MachineFacts.RetOnEmptyStackEndsRun | operations/ret.php:8-9 | ret on an empty stack ends the run with return value 1 |
| Synacor.SynacorVM.constructor | SynacorVM.php:42-53 | the fields equal the fresh state of the byte image, and the op table holds every class |
| Synacor.SynacorVM.GetLocation | SynacorVM.php:199-201 | returns the location read as an integer (null reads as 0) |
| Synacor.SynacorVM.GetLength | SynacorVM.php:208-210 | returns the number of memory cells |
| Synacor.SynacorVM.HaltVM | SynacorVM.php:219-227 | sets the return value and location -1 |
| Synacor.SynacorVM.Push | SynacorVM.php:120-124 | pushes the item and returns it |
| Synacor.SynacorVM.Pop | SynacorVM.php:131-135 | removes and returns the top item, or null |
| Synacor.SynacorVM.Jump | SynacorVM.php:142-144 | sets the location |
| Synacor.SynacorVM.Set | SynacorVM.php:152-156 | halts below 32768, then writes slot reg-32768 |
| Synacor.SynacorVM.Get | SynacorVM.php:166-170 | returns the literal or the register's value |
| Synacor.SynacorVM.SetData | SynacorVM.php:178-181 | writes one memory cell |
| Synacor.SynacorVM.GetData | SynacorVM.php:189-192 | reads one memory cell (0 when unset) |
| Synacor.SynacorVM.Decode | operations/add.php:9 | decode is get on the cell's integer value |
| Synacor.SynacorVM.AsRegister | operations/add.php:8 | halts unless the operand is a register address |
| Synacor.SynacorVM.Output | operations/out.php:9 | appends the value to the output |
| Synacor.SynacorVM.GetNext | SynacorVM.php:101-112 | the counting loop returns the same cells and moves the location as the `getNext` function |
| Synacor.SynacorVM.Iterate | SynacorVM.php:66-79 | one pass of the loop updates the fields as `Machine.Iterate` says, stopping when the fetch gives FALSE or an operation throws |
| Synacor.SynacorVM.Run | SynacorVM.php:61-82 | the fetch/dispatch loop ends with the result and state of `Machine.Run` |
| Synacor.OpHalt | operations/halt.php:6-8 | updates the VM as the halt function |
| Synacor.OpSet | operations/set.php:6-12 | updates the VM as the set function |
| Synacor.OpPush | operations/push.php:6-11 | updates the VM as the push function |
| Synacor.OpPop | operations/pop.php:6-11 | updates the VM as the pop function |
| Synacor.OpEq | operations/eq.php:6-13 | updates the VM as the eq function |
| Synacor.OpGt | operations/gt.php:6-13 | updates the VM as the gt function |
| Synacor.OpJmp | operations/jmp.php:6-10 | updates the VM as the jmp function |
| Synacor.OpJt | operations/jt.php:6-14 | updates the VM as the jt function |
| Synacor.OpJf | operations/jf.php:6-14 | updates the VM as the jf function |
| Synacor.OpAdd | operations/add.php:6-13 | updates the VM as the add function |
| Synacor.OpMult | operations/mult.php:6-13 | updates the VM as the mult function |
| Synacor.OpMod | operations/mod.php:6-13 | updates the VM as the mod function and reports a zero divisor |
| Synacor.OpAnd | operations/and.php:6-13 | updates the VM as the and function |
| Synacor.OpOr | operations/or.php:6-13 | updates the VM as the or function |
| Synacor.OpNot | operations/not.php:6-12 | updates the VM as the not function |
| Synacor.OpRmem | operations/rmem.php:6-12 | updates the VM as the rmem function |
| Synacor.OpWmem | operations/wmem.php:6-12 | updates the VM as the wmem function |
| Synacor.OpCall | operations/call.php:6-12 | updates the VM as the call function |
| Synacor.OpRet | operations/ret.php:6-10 | updates the VM as the ret function |
| Synacor.OpOut | operations/out.php:6-10 | updates the VM as the out function |
| Synacor.OpIn | operations/in.php:9-12 | updates the VM as the in function |
| Synacor.Exec | SynacorVM.php:75 | dispatches to the operation's class and reports a `mod` by zero |
| Recurrence.Ackermann | util/getTeleporterValue.php:30-45 | every value of the recurrence is below 32768 |
| Recurrence.Check | util/getTeleporterValue.php:119 | ackermann(4, 1, r8) is below 32768 |
| Recurrence.FirstRow | util/getTeleporterValue.php:35-40 | ackermann(1, y, r8) = (r8 + 1 + y) mod 32768 |
| Recurrence.FirstRowZero | util/getTeleporterValue.php:35-40 | with r8 = 0, ackermann(1, y, 0) = y + 1 below 32767 |
| Recurrence.Decrement | getTeleporterValue.php:86 | adding 32767 modulo 32768 decrements 1..32768 |
| TeleporterUtil.AckermannMemo | util/getTeleporterValue.php:30-45 | a cache that agrees with the recurrence gives its value, and the extended cache still agrees |
| TeleporterUtil.Search | util/getTeleporterValue.php:117-126 | finds the first i in 0..32768 with ackermann(4,1,i) = 6, or there is none |
| TeleporterCalls.Call6027AsWritten | getTeleporterValue.php:50-56 | r1 = 0 gives r1 := (r2+1) mod 32768 with r2 and the stack unchanged; any other r1 never returns |
| TeleporterCalls.Call6035AsWritten | getTeleporterValue.php:65-72 | without the decrement, every call with r1 != 0 or r2 != 0 fails to return |
| TeleporterCalls.Call6048AsWritten | getTeleporterValue.php:84-92 | as written, 6048 never returns |
| TeleporterCalls.Call5483AsWritten | getTeleporterValue.php:38-43 | "incorrect" iff r1 is not 6 after 6027; non-zero r1 never returns |
| TeleporterCalls.TestAsWritten | getTeleporterValue.php:97-103 | test never returns |
| TeleporterCalls.SearchAsWritten | getTeleporterValue.php:106-113 | the search is stuck in its first test |
| TeleporterCalls.Call6027 | getTeleporterValue.php:50-56 | with 6038's decrement, r1 becomes ackermann(r1, r2, r8) and the stack is restored; enough fuel always suffices |
| TeleporterCalls.Call6035 | getTeleporterValue.php:65-72 | with the decrement, it computes ackermann and leaves the stack as it was |
| TeleporterCalls.Call6048 | getTeleporterValue.php:84-92 | the push is matched by the pop; the result is ackermann(r1-1, ackermann(r1, r2-1)) |
| TeleporterCalls.Call5483 | getTeleporterValue.php:38-43 | "incorrect" exactly when ackermann(r1, r2, r8) is not 6 |
| TeleporterCalls.Test | getTeleporterValue.php:97-103 | test(val) is "incorrect" exactly when ackermann(4, 1, val) is not 6 |
| TeleporterCalls.Search | getTeleporterValue.php:106-113 | the first r8 in 0..32768 whose check gives 6, or none, or the point where fuel ran out |
| TeleporterJava.Solver.constructor | getTeleporterValue.java:4 | the cache starts empty |
| TeleporterJava.Solver.HasCache | getTeleporterValue.java:6-12 | true exactly when row x exists and holds column y |
| TeleporterJava.Solver.GetCache | getTeleporterValue.java:14-20 | the cached value; 0 for a missing row; a null unboxing for a missing column |
| TeleporterJava.Solver.SetCache | getTeleporterValue.java:22-28 | afterwards (x, y) holds the value and every other entry is as before |
| TeleporterJava.Solver.ClearCache | getTeleporterValue.java:30-32 | afterwards no entry is cached |
| TeleporterJava.Solver.Ackermann | getTeleporterValue.java:34-49 | returns the recurrence's value (below 32768), stores it, and keeps every earlier entry |
| TeleporterJava.Solver.FindR8 | getTeleporterValue.java:51-64 | the first r8 below 32768 whose check gives 6, or none |
| VMOutputs.Classify | VMOutput.php:218-247 | a code is printable iff it is in 32..126 (and stands for that character); Enter iff 10 or 13 |
| VMOutputs.BackspaceUndoesTyping | VMOutput.php:238-243 | typing a character then backspace gives back the line |
| VMOutputs.BackspaceDropsLast | VMOutput.php:238-240 | backspace leaves an empty line empty and otherwise drops exactly the last character |
| VMOutputs.TypingAppends | VMOutput.php:241-243 | typing printable text appends exactly that text |
| VMOutputs.VMOutput.constructor | VMOutput.php:11-19 | empty line, handlers and queue; both trace flags on |
| VMOutputs.VMOutput.SetHandlers | VMOutput.php:37-41 | the named handlers are set; every other handler is kept |
| VMOutputs.VMOutput.GetHandlers | VMOutput.php:48-50 | returns the handler table |
| VMOutputs.VMOutput.TraceOn | VMOutput.php:102-104 | tracing is on |
| VMOutputs.VMOutput.TraceOff | VMOutput.php:109-111 | tracing is off; traceOnOutput untouched |
| VMOutputs.VMOutput.TraceAll | VMOutput.php:116-119 | tracing on, traceOnOutput off |
| VMOutputs.VMOutput.TraceOnOutput | VMOutput.php:124-127 | tracing on, traceOnOutput on |
| VMOutputs.VMOutput.Tracing | VMOutput.php:134-136 | returns the tracing flag |
| VMOutputs.VMOutput.AddStoredInput | VMOutput.php:157-159 | appends one line and keeps the earlier lines |
| VMOutputs.VMOutput.GetStoredInput | VMOutput.php:166-168 | returns the queue |
| VMOutputs.VMOutput.SetStoredInput | VMOutput.php:175-177 | replaces the whole queue |
| VMOutputs.VMOutput.GetUserInput | VMOutput.php:194-196 | returns the partial line |
| VMOutputs.VMOutput.WaitForUser | VMOutput.php:213-250 | Escape returns false; Enter passes the line to `gotInput`, empties it, and returns the handler's result (true after an exception); other keys edit the line and return true |
| RunScript.RemoveChar | run.php:16 | the result has no '/' and holds every other character of the name as often as the name does |
| RunScript.NameHasNoSlash | run.php:16 | the stripped name has no '/' and keeps every other character |
| RunScript.ReplaceAllAbsent | run.php:18 | replacing a string that does not occur changes nothing |
| RunScript.ReplaceAllPrefix | run.php:18 | a leading occurrence is replaced by the replacement |
| RunScript.FilepathFromScriptDir | run.php:15-19 | from the script's own directory the path is ./dir/name, with '/' removed from the name |
| RunScript.NothingStored | run.php:522-526 | with no stored lines the handler returns FALSE and leaves the queue, both as written and corrected |
| RunScript.LineDelivered | run.php:526-534 | for the corrected handler (empty-string test), a stored line is delivered as its characters and then 10, and is then removed |
| RunScript.FeedSplit | run.php:521-545 | for the corrected handler, successive calls compose |
| RunScript.QueueDelivered | run.php:521-545 | for the corrected handler, draining the queue delivers every line in order, each followed by 10, and empties it |
| RunScript.ZeroLineLost | run.php:528 | as written, the line "0" yields 10 and never '0' |
| RunScript.TrailingZeroLost | run.php:528-533 | as written, the line "10" yields '1' and then 10 |
| RunScript.LineDeliveredAsWritten | run.php:526-534 | as written, a stored line is delivered without its trailing '0' (all of it when it does not end in '0'), then 10, and is then removed |
| RunScript.TakeInputAgrees | run.php:528 | the `empty()` test and the empty-string test give the same call exactly unless the first stored line is "0" |
| RunScript.InputHandler | run.php:521-545 | as written (with `empty()`): returns the next code and writes back the shortened queue |
| RunScript.Split | run.php:86 | at least one piece, and no piece contains the separator |
| RunScript.SplitJoin | run.php:86 | joining the pieces with the separator gives back the text |
| RunScript.JoinSplit | run.php:86 | splitting joined separator-free pieces gives back the pieces |
| RunScript.Words | run.php:86 | a command has at least one word |
| RunScript.RunLastWords | run.php:91 | '!', '!!' and '! ' re-run the last input |
| RunScript.AutorunIsRun | run.php:406-409 | autorun's nested '!run' is the command `run` |
| RunScript.PlainInputStored | run.php:403-412 | a plain line is queued and becomes the last input; with autorun on it is followed by `run` |
| RunScript.CommandDispatched | run.php:85-86 | a '!' line is dispatched as its space-separated words and becomes the last input; only `send <text>` (run.php:303-309) touches the queue, appending its first word and, under autorun, dispatching `run` after it |
| RunScript.SendQueuesFirstWord | run.php:303-304 | `!send <text> <more>` queues `text` alone, since the line is split on spaces and only the piece after `send` is stored |
| RunScript.PerformWellRecorded | run.php:412 | every input that is not a re-run becomes the last input |
| RunScript.GotInputEnds | run.php:91-96 | with the corrected update, a re-run nests at most once and the last input stays free of re-runs |
| RunScript.RunLastRepeats | run.php:91-96 | '!' repeats the last input exactly as if it were typed again |
| RunScript.SpacedRunLastRecorded | run.php:412 | as written, "! " is recorded as the last input |
| RunScript.RunLastNeverEnds | run.php:91-96 | as written, after "! " is recorded, '!' re-runs it forever |
| NonCurses.BorderShape | noncurses.php:334-341 | corners get corner characters, first and last columns vertical ones, first and last rows horizontal ones; no character exactly for interior cells |
| NonCurses.DefaultBorder | noncurses.php:317-324 | all-default arguments select the ACS line and corner characters |
| NonCurses.PickChoice | noncurses.php:317-324 | a 0 argument selects the default character, any other is kept |
| NonCurses.BorderLoopStuck | noncurses.php:347-351 | as written, with one column and a middle row, the column goes back to 0 |
| NonCurses.NextColAdvances | noncurses.php:347-351 | the corrected skip always advances, agrees with the written one for at least two columns, and skips only interior cells |
| NonCurses.ReplayQueue | noncurses.php:98-100 | writes queue exactly the cells whose last drawn value is set and differs, with their new characters; other entries are kept |
| NonCurses.ReplayInside | noncurses.php:94-102 | writes only queue cells inside the window |
| NonCurses.ReplaySnoc | noncurses.php:94-102 | one more write extends the queue by one `setBufferChar` |
| NonCurses.UndrawnQueuesNothing | noncurses.php:94-102 | writes to a window whose last-drawn cells are all NULL, as a child's always are, queue nothing |
| NonCurses.CursorStep | noncurses.php:186-191 | each written character moves the cursor to min(cols, x+i+1); skipped ones leave it |
| NonCurses.StringPutsDistinct | noncurses.php:186-189 | a string writes distinct cells on row y, character i at column x+i, inside the row |
| NonCurses.RowPutsStep | noncurses.php:343-345 | a border cell with a character adds one write; others add none |
| NonCurses.RowPutsSkip | noncurses.php:347-351 | skipping cells without a character adds no write |
| NonCurses.ShiftMoves | noncurses.php:242 | a child's queue reaches the parent moved by the child's offset, with the same characters |
| NonCurses.ClearRowContents | noncurses.php:222-228 | a clear queues ' ' exactly for the row's cells whose last drawn value is not ' ' |
| NonCurses.ClearRowsContents | noncurses.php:220-229 | a clear-draw queues ' ' exactly for the cells whose last drawn value is not ' ' |
| NonCurses.WindowPaintsRow | noncurses.php:264-283 | a child window sends every cell of a row, in order, at absolute coordinates, ' ' when clearing |
| NonCurses.ScreenRowUpToDate | noncurses.php:270-279 | a screen row whose last drawn values match the buffer paints nothing |
| NonCurses.ScreenUpToDate | noncurses.php:264-284 | redrawing an up-to-date screen paints nothing |
| NonCurses.Window.constructor | noncurses.php:67-74 | a child window is 1x1 of ' ', in newly allocated grids, with nothing drawn yet and an empty queue |
| NonCurses.Window.Screen | noncurses.php:76-92 | a parentless window of the given size, in newly allocated grids, all ' ', nothing drawn, empty queue |
| NonCurses.Window.ResetBuffer | noncurses.php:76-92 | a lines x cols buffer of the fill character, an all-NULL last buffer, an empty queue |
| NonCurses.Window.SetBufferChar | noncurses.php:94-102 | in range, the cell gets the character and the queue gains it iff the last drawn value is set and differs; out of range nothing changes |
| NonCurses.Window.GetBufferChar | noncurses.php:104-108 | the cell's character in range, nothing outside |
| NonCurses.Window.Destroy | noncurses.php:113-115 | a child window is destroyed and nothing else changes; the screen throws and stays as it was (noncurses.php:414) |
| NonCurses.Window.GetBounds | noncurses.php:164-171 | bottom-top = lines and right-left = cols, from the absolute position |
| NonCurses.Window.SetCols | noncurses.php:118 | a child gets the new width and freshly allocated grids reset to ' '; the screen throws and stays as it was (noncurses.php:458) |
| NonCurses.Window.SetLines | noncurses.php:121 | a child gets the new height and freshly allocated grids reset to ' '; the screen throws and stays as it was (noncurses.php:461) |
| NonCurses.Window.AddString | noncurses.php:180-194 | destroyed: no change; else character i goes to (x+i, y) inside the row, the queue follows `setBufferChar`, the cursor ends at (min(cols, last x+1), y) |
| NonCurses.Window.AddStringAt | noncurses.php:186-193 | the write loop of `addString` at a given position |
| NonCurses.Window.AddChar | noncurses.php:187-191 | one character of that loop: written into the buffer and queued only inside the window, with the cursor after it |
| NonCurses.Window.DrawBorder | noncurses.php:314-357 | with the corrected skip (see Findings, noncurses.php:347-351); destroyed: no change; else border cells get their characters, interior cells are untouched, the queue follows `setBufferChar`, the cursor is (0, 0) |
| NonCurses.Window.BorderRow | noncurses.php:331-352 | one row of the border loop, with the corrected skip |
| NonCurses.Window.BorderStep | noncurses.php:331-351 | one pass of the border's inner loop: the border cell at the column, then the corrected skip to the next column |
| NonCurses.Window.BorderCell | noncurses.php:332-345 | one cell of the border loop: a corner or edge character is written and queued, an interior cell is left alone |
| NonCurses.Window.DrawQueue | noncurses.php:215-249 | destroyed: nothing; clear: queue ' ' where the last drawn value is not ' ', send nothing; else send the queue (moved by the offset for a child), record it as drawn for a screen, and empty the queue |
| NonCurses.Window.QueueBlanks | noncurses.php:220-229 | the clear branch's queue |
| NonCurses.Window.SendQueue | noncurses.php:232-247 | sends the queue, records it as drawn for a screen, and empties it |
| NonCurses.Window.ClearRowLoop | noncurses.php:222-228 | one row of the clear loop |
| NonCurses.Window.DrawAll | noncurses.php:257-288 | destroyed: nothing; else paints the rows, a screen then has every cell recorded as drawn, and the queue is empty |

## Left out

- Terminal and file I/O is not modelled:
  - the debug echo and `debug` log of the VM, and the echo in `haltvm`;
  - `addOutput`, `addTrace` and `inputTitle` of the console;
  - `getInput`'s read from standard input, which becomes the `pressed` parameter;
  - every `ncurses_*` function;
  - the escape sequences and debug colours of `drawQueue`/`drawAll`, and the `renderDebug` and `useDrawQueue` flags.
- Operation discovery by reflection over declared classes is replaced by the fixed list `Arch.AllOps`. The `SynacorOP` interface is not part of this model.
- VM features that have no body in the shown sources are not modelled: step, breakpoints, dump, save/load state, the VM's handlers.
- `decode`, `asRegister` and `output` have no definition in `SynacorVM.php`. They are modelled by the stated assumptions above.
- Machine.RunLoop: a `fuel` bound on loop iterations stands for PHP's unbounded loop. Running out is reported as `OutOfFuel`.
- Synacor.SynacorVM.Run: inherits the same fuel bound.
- Machine.OpMod: a zero divisor ends the run as `Crashed` and does not model PHP's `DivisionByZeroError` object.
- TeleporterCalls.Call6027: a `fuel` bound on the call nesting stands for PHP's unbounded recursion. `ok` is false when it ran out.
- The brute-force searches are not executed. Their result is stated as a postcondition over `Recurrence.Check`.
- `util/getTeleporterValue.php`'s `call5483`/`6027`/`6035`/`6048` are the same code as `getTeleporterValue.php`'s, plus echoes. They are modelled once, in `TeleporterCalls`.
- TeleporterJava.Solver.Ackermann: does not model Java's 32-bit `int` or the `StackOverflowError` of deep recursion. All values stay below 32768.
- TeleporterJava.Solver.GetCache: the `NullPointerException` of unboxing a missing column is the value `NullUnbox`.
- VMOutputs.VMOutput.WaitForUser: does not model the report lines an exception adds to `outputData`. Requiring the `gotInput` handler for Enter excludes PHP's fatal call of a missing handler.
- `VMOutput::loop`, `end` and `update` are not modelled. `loop` only repeats `waitForUser`, and the other two are display hooks.
- Handlers are opaque identities, so the model treats a handler as data, not code. What calling `gotInput` does is the `call` parameter of `WaitForUser`.
- RunScript.Perform: each debugger command's effect on the VM and the screen is not modelled. Examples are run, trace, halt, reset and dump. A command is recorded as its words; only `autorun` and `send` change the model's state.
- RunScript.CommandDispatched: `!in <file>` (run.php:290-297) feeds each line of a file to `gotInput`, which queues the plain ones; reading the file is I/O, so the model does not queue them. `!exit` (run.php:140-143) returns before the last-input update of line 412, so the source does not record it as the last input while the model does; the interface has ended by then.
- PHP strings are byte strings, but the model uses Dafny characters. `ord`/`chr` become `as int`/`as char`.
- NonCurses.Window.Screen: the parentless window stands for `NonCursesScreen` only as far as its buffer, its drawing and its refusals of `destroy`, `setCols` and `setLines` go. The singleton `get()`, the `tput` size reads and the buffer reset when the terminal size changes, `setRelX`/`setRelY`, and the `stty` terminal modes are not modelled.
- NonCurses.Window.DrawQueue: a child's calls to its parent's `setBufferChar` are not performed. They are returned as the queue shifted by the child's offset.
- NonCurses.Window.DrawAll: does not walk the parent chain for the absolute position, which comes in as parameters. A child's writes to its parent are returned as the `sent` sequence instead of being performed.
- `resetBuffer`'s `$overwrite` parameter is unused by its body and is not modelled.
- A border argument is `BorderChar.Default` or a glyph. PHP 8's `== 0` treats only the string "0" as 0, so the glyph '0' also selects the default.
- `NonCursesWindow`'s other methods are not modelled: `draw`, `clear`, and the position and cursor getters and setters. They only dispatch or assign one field.

## Findings

| source | as written | input that shows it | evidently intended | confidence | as-written member | corrected member |
|---|---|---|---|---|---|---|
| getTeleporterValue.php:65-72 | `call6035` sets r2 := r8 and calls 6027 without the `add r1 r1 32767` of instruction 6038 | r1 = 4, r2 = 1 (the `test` call): r1 never reaches 0, so the recursion never ends | decrement r1 before `set r2 r8`, so that the routine computes the Ackermann-like recurrence | high; not executed | TeleporterCalls.SearchAsWritten | TeleporterCalls.Search |
| run.php:528 | a stored line is tested with `empty()`, which is also true for "0" | stored line "10": the VM receives '1' and then 10; the '0' is lost | test for the empty string only | high; not executed | RunScript.TrailingZeroLost | RunScript.QueueDelivered |
| run.php:412 | the last input is updated unless it is exactly '!' or '!!', but '! ' and '! x' also re-run the last input | input "! " and then "!": each re-run re-runs itself without end | never record a re-run command as the last input | high; not executed | RunScript.RunLastNeverEnds | RunScript.GotInputEnds |
| noncurses.php:347-351 | middle rows skip to column `$right - 2`, which is -1 for a one-column window | `drawBorder` on a window with 1 column and 3 lines: on line 1, column 0 goes back to 0 forever | skip only forward (at least two columns) | high; not executed | NonCurses.BorderLoopStuck | NonCurses.NextColAdvances |
