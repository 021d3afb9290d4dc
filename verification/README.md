# syssoft_labs in Dafny

A model of the parts of the lab programs that carry real invariants, with proofs about it. Each
module follows one source file or one component of it.

* **The shell, `lab4`.** `Tokenizer` and `Parser` are the loops of `get_splitted` and `make_cmdv` over
  NULL-terminated vectors. `make_cmdv` jumps its own index forward, empties the cells it has read and
  patches commands it has stored; it is proved to compute what the recursive grammar in `Grammar` says,
  and never to look behind the terminating NULL. `Grammar` also has a printer. Parsing and printing are
  inverse, and the command vectors the parser can produce are characterised exactly. `Readings` says without an algorithm
  what a reading of a line is and where a line is stuck, and that the grammar finds just these. `Kcsh` continues with
  the command loop of `main` and the descriptors that the shell and its children hold.
* **The line editor, `lab4/io.c`.** `LineBuffer` is the byte buffer with its in-place shifts, and says for which
  runs of keys it does what an editor on two stacks does. `Row` has the output for each key and says for which runs one
  row of a terminal (`Terminal`) stays in step with the buffer. `Editor` is the code that edits the one and sends the
  other. `Digits` is the printing of numbers.
* **The job table, `lab4/job.c`.** `Jobs`.
* **The string threads, `lab5`.** `Forms` has the in-place loops and the laws of reversal and change of case,
  `Sections` a critical section cut into single memory accesses, `Workers` any number of such threads under
  a readers-writer lock or a mutex, and `Rounds` the program that creates, joins and prints in rounds under
  a semaphore. Strings, numbers of threads and schedules are arbitrary.
* **The worker pool, `lab6`.** `Queue` is the linked queue on the heap, `Pool` the acceptor and its workers as
  a step system in which loads and stores of the shared counters are separate steps. `PoolMoves` follows one thread at a
  time through it.

Sequential code has the source's form: methods with loops over arrays and objects, each proved against a
function, and laws about that function. Programs with threads are state machines: a function gives the
effect of one step of one thread, a schedule is any sequence of threads, and results hold for all schedules.
Fields called history variables in the comments record what has happened and influence nothing.

## How the code was read

* `make_cmdv` computes `i - 1` for the word before a separator (`lab4/parser.c:169`); for a line that starts with
  a separator this wraps, and the assertion in `make_cmd` does not notice. The model requires that the first
  token is a word.
* The walk over earlier commands at `lab4/parser.c:220-223` counts up, so `&` marks the stage directly before and
  no other. A redirection target may be any token. A `|` behind a target ends the command like `;`. `>` before `<`
  combines, `<` before `>` does not. All this is modelled as written, and the grammar says the same.
* `put` admits `ARGS_SIZE` tokens and then writes one cell behind them (`lab4/parser.c:55-63`). The vector of the model
  has that cell, so the test and the exit with E_MANYARGS are as in the code. Other allocations that are short by
  one element (`lab4/parser.c:42`, `lab4/job.c:25`) are likewise given the size the code uses.
* `get_line` does not test its 1024 bytes. The model stops where the text, or a C string in it, has no room for its NUL.
* `unfold_variable` tests names that nothing delimits, and replaces one character less than it tested
  (`lab4/parser.c:77`, `lab4/parser.c:84`). The search is modelled, the replacement is not: a line in which it finds a
  variable is reported as such.
* `strshl` and `strshr` stop at the first NUL, and a NUL can be typed. The buffer is modelled for all keys in all
  states; `LineBuffer.FollowsIff` gives the exact runs in which it does what the two stacks do, and
  `Editor.NulBreaksRightHalf` presses the keys of one in which it does not.
* Every byte without a meaning of its own is typed as a symbol, Ctrl-H among them, as only 0x7f erases
  (`lab4/io.c:339`). The row keeps in step exactly while printable symbols are typed (`Row.StaysInStepIff`);
  `Row.CtrlHLeavesPrompt` moves the cursor onto the prompt. The row prints ASCII, knows the backspace character and
  control sequences, and ignores other control characters.
* `main` uses one command vector for all lines (`lab4/kcsh.c:153`). After a rejected redirection `make_cmdv` leaves it
  without a NULL of its own; `Parser.RejectedEnds` says where it ends. A rejected pipe leaves a NULL (`lab4/parser.c:187`).
* The threads of `lab5/multithread6.c` and `lab5/multithread7.c` start before their lock is initialised; the model
  begins with the lock. `lab5/multithread7.c` prints without the lock at lines 185-187; nothing is claimed of that output.
* `lab5/multithread.c` and `lab5/multithread6.c` treat every byte that is no capital as a small letter. Five such changes
  are one if and only if the first leaves letters only (`Forms.ChangeRegisterSection`), which is less than letters to
  begin with. Over whole runs letters are needed: `Workers.ParityIff` and `Rounds.LinesAlternateIff` show that for these
  two results nothing weaker will do.
* `queue_enqueue` links cells by `tail` and `queue_dequeue` follows `head` (`lab6/queue.c:32-34`, `lab6/queue.c:45`), so taking
  one client drops the others. `Queue.DequeueIsFifoIff` says when this makes no difference, `Pool.NoneDroppedIff` says the
  same of whole runs, and `PoolMoves.SecondClientDropped` is a run that loses a client.
* `worker` waits on the condition variable without holding the mutex (`lab6/server.c:134`). In the model the wait may end
  at any time, with the mutex held.

## Model

| member | source | states |
|---|---|---|
| Tokenizer.SkipSpaces | lab4/parser.c:23-25 | stops at the first character that is not blank |
| Tokenizer.GetArg | lab4/parser.c:33-46 | one separator, or a run of word characters that cannot be made longer; empty at a blank or the end |
| Tokenizer.Put | lab4/parser.c:49-64 | appends to the NULL-terminated vector, or leaves it and reports too many arguments, exactly when full |
| Tokenizer.FindVariable | lab4/parser.c:67-80 | finds a variable exactly when the text behind a `$` begins with the name of one that is set |
| Tokenizer.GetSplitted | lab4/parser.c:112-131 | fills the vector with the tokens of the line; fails exactly for more than ARGS_SIZE tokens; a line with a variable to replace is told apart exactly |
| Tokenizer.TokensCharacterised | lab4/parser.c:121-131 | the tokens are the only way to cut the line into separators and maximal words with blanks between |
| Tokenizer.TokensKeepCharacters | lab4/parser.c:23-46 | every token is a separator or a word free of blanks and separators; joined they are the line without blanks |
| Tokenizer.JoinTokenises | lab4/parser.c:121-131 | tokens written with spaces between them are read back as the same tokens |
| Tokenizer.BlankParts | lab4/parser.c:12-15 | a space or a tab parts the line into the tokens before and behind it |
| Tokenizer.SeparatorParts | lab4/parser.c:28-30 | each of the five separators is a token of its own between the tokens before and behind it |
| Tokenizer.OthersMakeAWord | lab4/parser.c:33-46 | any other characters make one word |
| Tokenizer.UnfoldsIff | lab4/parser.c:118-120 | a line is changed iff a `$` in it is followed by the name of a variable that is set |
| Grammar.CompiledIsWellFormed | lab4/parser.c:160-237 | every accepted line gives a well-formed vector: non-empty word argv, matching pipe ends, no redirection before a pipe, background marks of the stated shape |
| Grammar.PipeEndsMatch | lab4/parser.c:173-190 | a command has out 2 and is piped iff the next exists and has in 2; the first reads 0, the last writes 1 |
| Grammar.PrintCompiles | lab4/parser.c:160-237 | printing a well-formed vector and compiling the tokens gives the vector back |
| Grammar.WellFormedIsImage | lab4/parser.c:160-237 | a vector is well-formed iff some token sequence compiles to it |
| Grammar.TextRoundTrip | lab4/parser.c:112-237 | the same through the text: print, tokenise, compile |
| Grammar.CompileKeepsWords | lab4/parser.c:134-237 | argv, output and input targets in order have the same words as the line, in the same order |
| Readings.CompiledIsReading | lab4/parser.c:160-237 | a line compiles to a vector iff this is, with the marks set, a reading: a cut of all its tokens into commands, redirections and separators |
| Readings.RejectedIffStuck | lab4/parser.c:183-215 | a line is rejected iff it can be read up to a pipe that no word follows, or up to its end where a target is missing |
| Readings.ErrorIsStuck | lab4/parser.c:183-215 | the report of an error names the commands read before it, the words of the command at fault and whether a pipe is |
| Readings.WordsCompile | lab4/parser.c:167-171 | any words are one command in the foreground, without a terminator |
| Readings.UnterminatedCompiles | lab4/parser.c:167-236 | printing a vector without the final terminator and compiling gives it back, if the last command is in the foreground |
| Readings.UnterminatedText | lab4/parser.c:112-237 | the same through the text |
| Readings.PlainLinesCompile | lab4/parser.c:160-237 | a line that starts with a word and has no pipe and no redirection is accepted |
| Parser.MakeCmd | lab4/parser.c:134-157 | takes the words of the range into argv, empties exactly these cells, default ends and flags |
| Parser.SetPipeEnds | lab4/parser.c:173-190 | in is 2 behind a pipe, out is 2 before one; refuses a pipe not followed by a word |
| Parser.RedirectOut | lab4/parser.c:191-206 | accepts, and moves behind, exactly the output clause of the grammar |
| Parser.RedirectIn | lab4/parser.c:207-215 | accepts, and moves behind, exactly the input clause of the grammar |
| Parser.MarkBackground | lab4/parser.c:216-224 | marks this command and the one directly before it if that feeds a pipe; the upward walk ends |
| Parser.NextWord | lab4/parser.c:226-233 | skips separators to the next word or the NULL |
| Parser.CompleteCommand | lab4/parser.c:173-217 | pipe ends and redirections of one command as the grammar gives them, or its rejection |
| Parser.StoreCommand | lab4/parser.c:216-225 | the vector grows by the command, with the mark put on its predecessor, and ends in NULL |
| Parser.FinishCommand | lab4/parser.c:168-234 | one command of the loop is what the grammar reads from the same tokens, and the rest is what it leaves |
| Parser.MakeCmdv | lab4/parser.c:160-237 | accepts iff the grammar does, and then the vector holds exactly the grammar's commands; otherwise those before the error, and behind them NULL for a pipe or the command that was begun, with the rest as it was |
| Parser.RejectedEnds | lab4/kcsh.c:177-183 | a walk over a rejected vector ends behind the commands of this line iff a pipe is at fault or the next cell was NULL before |
| Kcsh.Shell.Pipe | lab4/kcsh.c:187-190 | two unused descriptors become the ends of a new pipe |
| Kcsh.Shell.ForkAndExec | lab4/kcsh.c:60-107 | the child's table: redirected standard streams, and the shell's descriptors less those it closes |
| Kcsh.Shell.Connect | lab4/kcsh.c:186-195 | the placeholders of a command and its successor are replaced by the ends of a new pipe |
| Kcsh.InheritedChildOk | lab4/kcsh.c:62-107 | the child so made holds the right streams and no write end but its own |
| Kcsh.Shell.LaunchOne | lab4/kcsh.c:184-200 | each turn launches a correct child and leaves the shell without any write end, and with exactly one read end for each pipe ever made |
| Kcsh.Shell.RunCommands | lab4/kcsh.c:184-200 | all children of a line are correct: their arguments, input from the predecessor or 0, output to the own pipe or 1, no other write end, and exactly the read ends inherited |
| Kcsh.Shell.RunLine | lab4/kcsh.c:173-200 | from the text: a variable to replace, too many arguments, syntax error with the vector as above, or the children of exactly the commands the grammar gives; the shell is left with one read end for each pipe it ever made |
| Kcsh.OneWriterPerPipe | lab4/kcsh.c:184-200 | each pipe has exactly one child holding its write end, as output, and the next child reads from it |
| LineBuffer.StrShl | lab4/io.c:233-239 | moves the C string left, up to its NUL, and nothing else |
| LineBuffer.StrShr | lab4/io.c:242-251 | moves the C string right, with a new NUL, and nothing else |
| Editor.LineEditor.TypeSymbol | lab4/io.c:460-477 | the symbol goes into its cell, an insertion into the text iff only NULs follow the first NUL of the right half; the row stays in step iff the symbol is printable |
| Editor.LineEditor.Erase | lab4/io.c:339-361 | removes the symbol left of the cursor iff only NULs follow the first NUL of the right half; row stays in step |
| Editor.LineEditor.MoveRight | lab4/io.c:383-389 | one symbol changes halves; row stays in step |
| Editor.LineEditor.MoveLeft | lab4/io.c:390-395 | one symbol changes halves; row stays in step |
| Editor.LineEditor.Press | lab4/io.c:332-479 | every key, in any state of the buffer, with its exact output; it acts as on the two stacks iff it is safe, and leaves a tidy row in step iff it is no unprintable symbol |
| Editor.LineEditor.PressAll | lab4/io.c:332-479 | runs every key: the buffer and the row are those of the run; after a safe run that fits the buffer is that of the two stacks |
| Editor.LineEditor.Return | lab4/io.c:443-458 | closes the text with a NUL; every line break in it is a space afterwards, and every other symbol is as before |
| Editor.GetLine | lab4/io.c:320-480 | the line returned is the text of the buffer with spaces for line breaks; after a safe run that fits and types no line break it is exactly the text of the two stacks |
| Editor.NulBreaksRightHalf | lab4/io.c:460-471 | runs five keys after which the buffer has lost a symbol that the two stacks have |
| LineBuffer.ArrowsKeepText | lab4/io.c:376-399 | arrows never change the text; up, down and unknown sequences change nothing |
| LineBuffer.KeysUndo | lab4/io.c:339-395 | backspace undoes a typed symbol, and the two arrows undo each other |
| LineBuffer.ShiftLeftMoves | lab4/io.c:233-239 | for every distance the C string is found unchanged to the left |
| LineBuffer.ShiftRightMoves | lab4/io.c:242-251 | for every distance the front of the C string is found to the right, and it grows by one |
| LineBuffer.ShiftedRight | lab4/io.c:242-251 | the shift for an insertion keeps the right half iff only NULs follow the first NUL |
| LineBuffer.ShiftedLeft | lab4/io.c:233-239 | the shift for a deletion keeps the right half iff only NULs follow the first NUL |
| LineBuffer.PressedIff | lab4/io.c:332-479 | a key does to the halves of the buffer what it does to the two stacks iff it shifts no symbol behind a NUL |
| LineBuffer.FollowsIff | lab4/io.c:332-479 | over every run whose text fits: the halves of the buffer are the two stacks throughout iff no key of the run shifts a symbol behind a NUL; then every cell from the length on is NUL |
| LineBuffer.UnsafeNeedsNul | lab4/io.c:460-471 | runs in which no NUL is typed are among these |
| Row.TypedInside | lab4/io.c:468-473 | writing the tail and going back shows the text with the symbol inserted |
| Row.ErasedInside | lab4/io.c:347-356 | the output of a deletion shows the text without the symbol, with the cursor in place |
| Row.UnprintableInside | lab4/io.c:468-473 | the same output for an unprintable symbol leaves the row out of step |
| Row.PressedRow | lab4/io.c:332-479 | a key leaves a tidy row in step, and tidy, iff it is no unprintable symbol |
| Row.StaysInStepIff | lab4/io.c:332-479 | over every run that fits: at every point the row shows prompt, buffer and blanks, with the cursor at prompt width plus pos and never left of the prompt before, iff no unprintable symbol is typed |
| Row.CtrlHLeavesPrompt | lab4/io.c:460-466 | Ctrl-H on an empty line: the cursor is left of the end of the prompt |
| Terminal.PrivateSequenceIgnored | lab4/io.c:386 | the control sequence sent before moving right has no effect on the row |
| Digits.DecimalCharacterised | lab4/io.c:129-137 | the text is the only numeral without leading zero that is worth the number |
| Digits.FitsNineBytesIff | lab4/io.c:123 | digits and terminator fit the nine bytes iff there are at most eight digits |
| Digits.ErrcToA | lab4/io.c:119-139 | the buffer holds the decimal form and its NUL |
| Digits.SayI | lab4/io.c:76-100 | prints the decimal form of every non-negative int within its buffer |
| Jobs.JobTable.AddJob | lab4/job.c:12-32 | gives out the lowest free id, fills only that slot, doubles a full table |
| Jobs.JobTable.GetJob | lab4/job.c:35-38 | the process of an id, 0 for none |
| Jobs.JobTable.GetJobId | lab4/job.c:41-48 | the first id of a process, 0 for none |
| Jobs.JobTable.DeleteJobById | lab4/job.c:51-54 | frees only that slot |
| Jobs.JobTable.DeleteJobByPid | lab4/job.c:57-67 | frees only the first slot of the process |
| Jobs.IdsStayLow | lab4/job.c:12-32 | over every run the largest id is at most the largest number of jobs live at once, and the capacity at most max(255, twice that) |
| Jobs.LookupsInverse | lab4/job.c:35-48 | process to id and back is the identity; id to process and back is, iff the live processes are distinct |
| Jobs.AddThenDelete | lab4/job.c:12-67 | adding a new process disturbs no other job, and deleting it restores the table |
| Jobs.AddedFacts | lab4/job.c:12-32 | in every table: the id was free, all lower ones in use, only that slot changes, and the capacity doubles exactly when no id was free |
| Jobs.IdOfIs | lab4/job.c:41-48 | the lowest id of the process, 0 exactly when there is none |
| Jobs.DeletedIdFacts | lab4/job.c:51-54 | the id is empty afterwards and no other changes |
| Jobs.DeletedPidFacts | lab4/job.c:57-67 | the lowest id of the process is empty afterwards, whatever is free before it, and no other changes; an absent process changes nothing |
| Jobs.DeletedIsGone | lab4/job.c:57-67 | while processes are distinct, the deleted one is gone and all others keep their ids |
| Jobs.BothEnd | lab4/job.c:57-67 | two jobs added and deleted in turn leave the table as it was |
| Forms.ReverseSection | lab5/multithread7.c:73-79 | five passes of the in-place loop reverse the string |
| Forms.ChangeRegisterSection | lab5/multithread6.c:86-94 | five passes of the in-place loop are one change of case iff the test is the careful one or one change leaves letters only |
| Forms.CountSection | lab5/multithread7.c:114-122 | counts the capitals |
| Forms.FlipTwiceIff | lab5/multithread.c:140-144 | the change of case undoes itself iff it tests for small letters or meets letters only |
| Forms.LaxAgreesIff | lab5/multithread6.c:88-92 | the two ways to change case agree iff the string has only letters |
| Forms.FiveFlipsIff | lab5/multithread6.c:86-94 | the condition under which five changes are one |
| Forms.TwoSectionsIff | lab5/multithread.c:136-147 | two sections of five lax changes restore the string iff it has only letters |
| Forms.UppersOfForm | lab5/multithread7.c:120-122 | capitals of the reversed and changed string, by the parity of the changes |
| Forms.RevOfConcat | lab5/multithread7.c:73-79 | the equations that determine reversal |
| Forms.CaseInAscii | lab5/multithread7.c:97-102 | the other case of a letter is 32 apart; what happens to other bytes |
| Forms.CountsAreSizes | lab5/multithread7.c:120-122 | the counts are the numbers of places with a capital, or a small letter |
| Sections.SectionStepKeeps | lab5/multithread7.c:73-79 | the string in the middle of a swap or change, at every memory access |
| Sections.SectionAlone | lab5/multithread7.c:96-103 | the accesses of a section add up to five passes, and to one reversal, or to one change of case iff that settles |
| Workers.StepKeeps | lab5/multithread7.c:64-129 | lock ownership, the string, partial counts and outputs are kept by every step of every thread |
| Workers.Exclusion | lab5/multithread7.c:32-53 | two threads are inside sections at once only if both are reading |
| Workers.StringFollowsParity | lab5/multithread7.c:64-107 | while nobody writes, the string is reversed iff the finished reversals are odd, and changed iff the finished changes are odd |
| Workers.CountsExact | lab5/multithread7.c:110-129 | every number printed is the source's count of capitals, or of small letters after an odd number of changes |
| Workers.LinesAreForms | lab5/multithread6.c:144-152 | every line printed under the mutex is the source in the form given by the reversals and changes finished when it was printed |
| Workers.ParityIff | lab5/multithread6.c:86-94 | this holds of all programs and schedules iff the change of case is the careful one or the source has only letters |
| Workers.WriterCompletes | lab5/multithread7.c:72-80 | a writer given the lock makes its passes and gives the lock back; one change of case iff that settles |
| Workers.CounterCompletes | lab5/multithread7.c:119-126 | a reader given the lock prints the count and changes nothing |
| Workers.PrinterCompletes | lab5/multithread6.c:149-151 | a printer given the lock prints exactly the string and changes nothing |
| Workers.ReadersShare | lab5/multithread7.c:32-38 | a reader enters iff nobody is inside exclusively, whatever other readers do |
| Workers.WriterEnters | lab5/multithread7.c:41-47 | a writer or printer enters iff nobody is inside |
| Rounds.StepKeeps | lab5/multithread.c:120-149 | semaphore count, the progress of main and the string are kept by every step |
| Rounds.LinesDetermined | lab5/multithread.c:204-241 | the lines printed alternate between the reversed, changed source and the source, in every schedule |
| Rounds.SchedulesAgree | lab5/multithread.c:219-240 | the output does not depend on which thread wins |
| Rounds.LinesAlternateIff | lab5/multithread.c:204-241 | the lines alternate in every schedule iff the source has only letters |
| Rounds.RoundCompletes | lab5/multithread.c:219-240 | either thread can win the semaphore, shown by the state after its section; the round then ends and prints what both sections leave |
| Rounds.RoundAlwaysCompletes | lab5/multithread.c:219-240 | the same from every state of every run in which a round begins, for any string |
| Rounds.NeverStuck | lab5/multithread.c:204-241 | from every state of every run some continuation prints one more line |
| Queue.Cell.Enqueue | lab6/queue.c:24-35 | appends to the contents |
| Queue.Cell.Dequeue | lab6/queue.c:38-51 | yields the first element, or -1, and leaves the queue empty |
| Queue.DequeueIsFifoIff | lab6/queue.c:38-51 | this is what a queue does iff at most one element waits |
| Pool.StepKeeps | lab6/server.c:126-188 | mutex ownership, loaded values, both counters and the hand-out are kept by every step |
| Pool.PoolSizeExact | lab6/server.c:137-180 | after start-up pool_size is between n and k and equals the registered workers, plus one on its way |
| Pool.ServedAtOnce | lab6/server.c:146-150 | at most k clients are served at once, at any time |
| Pool.FreeCountExact | lab6/server.c:129-154 | free_workers_count is the number of workers between increment and decrement, and no decrement meets zero |
| Pool.HandedInOrderAndOnce | lab6/server.c:134-136 | clients handed out are a subsequence of the arrivals, and no arrival is with two workers |
| Pool.ClientsNotForgotten | lab6/server.c:134-151 | over every run a worker that was handed a client is on its way to serving it, or serving; none leaves with one |
| Pool.NoneDroppedIff | lab6/queue.c:38-51 | over every run: no client leaves the queue unserved iff no worker takes one while more than one waits |
| PoolMoves.StartUp | lab6/server.c:229-244 | start-up creates n workers and then sets the size |
| PoolMoves.WorkerTakes | lab6/server.c:129-135 | an undisturbed worker counts itself and takes the first client, or -1 |
| PoolMoves.TakenIsFirst | lab6/queue.c:38-51 | what is taken is the first of the queue, or -1, and the queue is empty then |
| PoolMoves.WorkerServes | lab6/server.c:136-151 | with a client it comes to serving that client, with one decrement |
| PoolMoves.WorkerLeaves | lab6/server.c:137-155 | without one it leaves while the pool is larger than n, with one decrement of each counter |
| PoolMoves.WorkerServesNobody | lab6/server.c:137-151 | otherwise it goes on to serve -1 |
| PoolMoves.WorkerStartsAgain | lab6/server.c:129-151 | after serving, a worker starts again without a client |
| PoolMoves.ArrivalStored | lab6/server.c:275-282 | a connection goes to the end of the queue |
| PoolMoves.GrowthDone | lab6/server.c:160-178 | with no worker free and fewer than k, the acceptor counts and creates one |
| PoolMoves.GrowthRefused | lab6/server.c:160-181 | with k it creates none |
| PoolMoves.NoGrowthNeeded | lab6/server.c:160-184 | with a worker free it creates none |
| PoolMoves.SecondClientDropped | lab6/queue.c:38-51 | a schedule of a pool of one in which the second of two clients is lost |

## Left out

- Tokenizer.GetSplitted: does not model the replacement of variables, as the source cuts names and spans differently and a value with a `$` can be replaced for ever; lines it would replace in are only told apart.
- Kcsh.Shell.RunLine: the same; and a line must start with a word, which the source needs but does not test.
- `lab4/variable.c` and the built-ins.
- Allocation and deallocation: failing `malloc`, and `free_cmd`; commands that the source has freed stay in the vector of the model.
- Tab completion, Ctrl-C, Ctrl-D, and the row after Return: the newline leaves the one row of the model.
- Row.StaysInStepIff: bytes beyond ASCII count as unprintable; what a terminal does with them depends on its character set.
- LineBuffer.FollowsIff: nothing is said of a text of 1024 bytes or more, for which the source leaves its array.
- Kcsh.Shell.RunCommands: does not model waiting, exit statuses, job announcements, or `open` and `pipe` failing; each command forks, as argv is never empty.
- Built-in commands run in the child and return from it instead of being executed; the descriptor results are for commands that are executed.
- Negative numbers in `sayi`, and `sayul`: their output is not standard decimal.
- Workers.StepKeeps, Rounds.StepKeeps, Pool.StepKeeps: the step systems hold the shared memory as values; the same loops in place on an array are in `Forms`, the queue in place on the heap is in `Queue`.
- Memory models weaker than interleaving; every access here is a step, and shared data are accessed under locks.
- The run without locks (`none`) of `lab5/multithread.c`, and the printing in `lab5/multithread7.c` outside the lock.
- Pool.ServedAtOnce: no liveness; a client may wait for ever or be dropped.
- `do_work`, sockets, signals and the clean-up of `lab6/server.c`; `lab6/client.c`; the other programs of `lab5`; `lab1`.
