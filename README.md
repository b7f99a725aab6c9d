# CASIO workload simulator — Dafny model

This project models the two programs of the CASIO real-time workload simulator (LoboAnimae/OS_LAB5).

**The orchestrator's workload-file parser** (`casio_files/casio_system.c`):

- `get_int_val` reads the simulation duration from the text before the first tab of a line.
- `get_casio_task_config_info` tokenises one task line in place in the 200-character read buffer:
  - it overwrites each of the first seven tabs with NUL;
  - it converts the field that tab ends into slot `tasks[*n]`;
  - after the seventh tab it converts the rest of the line as the maximum offset;
  - finally it bumps `*n`.
- `get_casio_tasks_config_info` reads the file line by line:
  - it skips lines of at most one character;
  - the first other line gives the duration;
  - every later line appends one task record.
- `clear_casio_tasks_config_info` zeroes a prefix of the task table.

**The task program** (`casio_files/casio_task.c`):

- `get_time_value` samples a time between two bounds.
- `set_signal_timer` and `clear_signal_timer` fill the one-shot `struct itimerval`.
- `burn_1millisecs` and `burn_cpu` are the calibrated busy loop.
- `clear_sched_param` resets the scheduling parameter.
- Three signal handlers:
  - `start_task` arms the first offset;
  - `do_work` re-arms the timer for the next arrival and then burns the job's execution time, as one job `jid`, and moves `jid` on;
  - `end_task` exits.
- The set-up part of `main` converts the arguments.

Files:

- `c_text.dfy` (module `CText`): C strings held in `char` buffers, tab-separated fields, and the decimal conversions `atoi`/`atof`.
- `casio_system.dfy` (module `CasioSystem`): `struct casio_tasks_config` as the datatype `TaskConfig`. The parser is written as methods over an `array<char>` buffer and an `array<TaskConfig>` table, proved against specification functions:
  - `ParseTask`: the record a line denotes;
  - `TaskRecords`: the table a file denotes;
  - `NonBlank`: the lines the parser keeps.
- `casio_task.dfy` (module `CasioTask`):
  - the classes `ITimerVal`, `SchedParam` and `TaskWorker`;
  - the sampler as a function of the random draw;
  - the busy loops as methods that return their iteration counts.
  - `TaskWorker` holds the task program's globals (`casio_id`, the sampling bounds, `jid`, `inter_arrival_time`). It also keeps a trace of what the handlers do that can be seen from outside: messages, `setitimer` arms and busy-loop work.

How the model represents the C program:

- The workload file is a sequence of lines, each as `fgets` delivers it: shorter than `BUF_LEN` and free of NUL.
- `rand()` is a parameter `draw` in `[0, RAND_MAX]`.
- Doubles are `real`. The casts from double to an integer type truncate toward zero (`Trunc`).
- `jid` is an `unsigned int` and wraps modulo 2^32.

The C code has no phase variable. The handlers run whenever their signal arrives, so the model does not add a lifecycle state machine: `StartTask`, `DoWork` and `EndTask` can be called in any order while the process is alive. After `end_task` the process has exited and receives no more signals, so each handler requires `finished` to be false, and nothing can follow `TaskFinished` in the trace.

## Model

| member | source | states |
|---|---|---|
| CText.IndexOf | casio_files/casio_system.c:40 | the scan for a tab stops at the first one: the result holds it and nothing before it does |
| CText.CStrSpan | casio_files/casio_system.c:104-107 | the C string read from an index is the stretch of the buffer there, holds no NUL, and ends at a NUL when one follows |
| CText.CStrUpTo | casio_files/casio_system.c:165 | a C string read from i ends exactly at the next NUL, so its length is that distance (strlen) |
| CText.Tail | casio_files/casio_system.c:108 | the text after the first tab has one tab fewer |
| CText.HeadTail | casio_files/casio_system.c:103-108 | a text with a tab is its head, that tab and its tail |
| CText.FieldsAt | casio_files/casio_system.c:102-141 | field k is the head of the text after the k-th tab; the last entry is everything after the n-th tab |
| CText.Cut | casio_files/casio_system.c:103-108 | a tab-free piece, a tab and a rest split back into that piece and that rest |
| CText.ScanDigits | casio_files/casio_system.c:107 | reading a run of digits into the integer part leaves the scan holding their decimal value, most significant digit first, with the following text still to read |
| CText.ScanFraction | casio_files/casio_system.c:112 | reading digits after the point adds each at the weight of its place (a tenth, a hundredth, ...) and leaves the weight at the next place |
| CText.AtoiDecimal | casio_files/casio_task.c:214 | atoi of optional sign and digits, followed by anything that is not a digit, is the digits' decimal value, negated after a minus sign |
| CText.AtofWhole | casio_files/casio_task.c:215-221 | atof of optionally signed digits with no point, followed by anything that is neither a digit nor a point, is the digits' decimal value, negated after a minus sign |
| CText.AtofDecimal | casio_files/casio_task.c:215-221 | atof of optionally signed digits, a point and fraction digits, followed by anything that is not a digit, is the whole part plus the fraction's value, negated after a minus sign |
| CText.FractionDecimal | casio_files/casio_system.c:112-140 | fraction digits are worth their decimal value in units of their last place |
| CText.TenthPow10 | casio_files/casio_system.c:112-140 | the weight of the n-th fraction place times ten to the n is one |
| CText.FractionOverPow10 | casio_files/casio_system.c:112-140 | fraction digits are worth their decimal value over ten to the number of digits, so "25" after the point reads as 25/100 |
| CasioSystem.Rests | casio_files/casio_system.c:102-147 | a task line has eight rests, and the first is the line itself |
| CasioSystem.RestsChain | casio_files/casio_system.c:108 | after each tab the walk goes on with the tail of the text before it |
| CasioSystem.PieceAt | casio_files/casio_system.c:107-140 | piece k is the head of rest k; the last piece is the last rest |
| CasioSystem.RestFrom | casio_files/casio_system.c:108 | rest k is the line from the start of field k on |
| CasioSystem.FieldBounds | casio_files/casio_system.c:102-108 | field k runs from its start to a tab with no tab between, and is piece k |
| CasioSystem.FieldScan | casio_files/casio_system.c:102-103 | scanning from the start of field k, the first tab met ends field k |
| CasioSystem.LastPiece | casio_files/casio_system.c:136-140 | the max_offset text is the line from just past the seventh tab to its end |
| CasioSystem.ParseFields | casio_files/casio_system.c:102-141 | piece 0 goes through atoi into pid; pieces 1 to 6 go through atof into min_exec … min_offset; the text after the seventh tab becomes max_offset; the slot's old contents do not matter |
| CasioSystem.ParseStep | casio_files/casio_system.c:103-141 | at the tab that ends field i, case i of the switch converts piece i and the walk goes on from field i+1; after the seventh tab only max_offset is left |
| CasioSystem.ParseOverwrites | casio_files/casio_system.c:98-149 | whatever the slot held before, parsing a line into it gives the record the line denotes |
| CasioSystem.PiecesJoin | casio_files/casio_system.c:102-147 | cutting a line at its first seven tabs loses nothing: rejoined with tabs the pieces give the line |
| CasioSystem.JoinPieces | casio_files/casio_system.c:102-147 | eight texts, the first seven tab-free, joined with tabs are cut back into exactly those texts |
| CasioSystem.TaskLineRoundTrip | casio_files/casio_system.c:98-149 | a line written as eight tab-separated fields parses to the conversions of exactly those fields, in declaration order |
| CasioSystem.NonBlank | casio_files/casio_system.c:165 | the kept lines are never more than the lines read |
| CasioSystem.NonBlankAppend | casio_files/casio_system.c:164-165 | the lines kept from two stretches of a file are those kept from each, in order |
| CasioSystem.BlankLineIgnored | casio_files/casio_system.c:165 | inserting a line of at most one character anywhere changes nothing the parser keeps |
| CasioSystem.NonBlankStep | casio_files/casio_system.c:164-165 | reading one more line keeps it exactly when it is longer than one character |
| CasioSystem.NonBlankPrefix | casio_files/casio_system.c:164-165 | the lines kept so far are a prefix of those kept from the whole file |
| CasioSystem.TaskLinesShorter | casio_files/casio_system.c:171-173 | dropping the last kept line keeps the rest task lines |
| CasioSystem.KeptLine | casio_files/casio_system.c:166-173 | the first kept line has a tab, and every later kept line has seven |
| CasioSystem.TaskRecordsLength | casio_files/casio_system.c:166-173 | the table has one record per kept line after the first |
| CasioSystem.TaskRecordAt | casio_files/casio_system.c:171-173 | record k comes from the (k+1)-th kept line |
| CasioSystem.TaskRecordsInOrder | casio_files/casio_system.c:166-173 | the table holds one record per task line, in file order |
| CasioSystem.TaskRecordsSnoc | casio_files/casio_system.c:171-173 | one more task line appends its record at the end of the table |
| CasioSystem.TableStep | casio_files/casio_system.c:148 | storing a record in slot n extends the first n slots by it and leaves the later slots alone |
| CasioSystem.ClearTasksConfigInfo | casio_files/casio_system.c:76-89 | entries 0 to num-1 become all-zero records and every other entry keeps its value; nothing happens for num <= 0 |
| CasioSystem.GetIntVal | casio_files/casio_system.c:37-44 | the first tab in the buffer becomes NUL, nothing else changes, and the value is atoi of the text before that tab; a tab must lie somewhere in the buffer, since the scan has no other stop |
| CasioSystem.GetTaskConfigInfo | casio_files/casio_system.c:98-149 | slot n becomes the record the line denotes and no other slot changes; n grows by exactly one; the first seven tabs become NUL and nothing else in the buffer changes |
| CasioSystem.EndField | casio_files/casio_system.c:103-141 | at the tab that ends field i, that tab becomes NUL and the slot changes in field i alone (case 6 also stores max_offset from the rest of the line); after the seventh tab the record is complete; other slots are unchanged |
| CasioSystem.TabStep | casio_files/casio_system.c:104-108 | overwriting the tab that ends field i leaves the buffer blanked past it, and the C string at the field's start is piece i |
| CasioSystem.FieldText | casio_files/casio_system.c:104-107 | once the tab is NUL, atoi/atof at the field's start read exactly the field |
| CasioSystem.RestText | casio_files/casio_system.c:138-140 | past the last NUL written, the C string just after the seventh tab is the rest of the line |
| CasioSystem.Fgets | casio_files/casio_system.c:164 | the buffer starts with the line and a NUL, and everything after that NUL keeps its value |
| CasioSystem.ReadNothing | casio_files/casio_system.c:160-163 | before any line is read, count is 0, the table is empty and the duration is untouched |
| CasioSystem.ReadNext | casio_files/casio_system.c:164-177 | for a well-formed file that fits the table, each turn of the loop may run and moves the loop state on by one line |
| CasioSystem.ReadBlank | casio_files/casio_system.c:165 | a short line leaves count, the duration and the table as they were |
| CasioSystem.ReadDuration | casio_files/casio_system.c:167-170 | the first kept line sets the duration and count, and leaves the table empty |
| CasioSystem.ReadTask | casio_files/casio_system.c:171-173 | a later kept line has room in the table and appends its record |
| CasioSystem.ReadEverything | casio_files/casio_system.c:158-180 | after the last line the duration comes from the first kept line, and the table holds one record per later kept line, in file order |
| CasioSystem.ReadLine | casio_files/casio_system.c:164-176 | one turn of the loop: the count, duration and table move on by one step of the file's meaning, and slots past the table are unchanged |
| CasioSystem.GetTasksConfigInfo | casio_files/casio_system.c:158-180 | the duration is atoi of the first kept line's first field (untouched if none); n is the number of kept lines after the first; slots 0 to n-1 hold their records in file order |
| CasioTask.Trunc | casio_files/casio_task.c:112-113 | the cast drops the fraction toward zero: the floor for non-negative values, the ceiling for negative ones |
| CasioTask.GetTimeValue | casio_files/casio_task.c:135-139 | exactly min when the bounds are equal; otherwise a value between the bounds, whichever way round they are |
| CasioTask.GetTimeValueEnds | casio_files/casio_task.c:138 | draw 0 gives min and draw RAND_MAX gives max |
| CasioTask.GetTimeValueMonotone | casio_files/casio_task.c:138 | for min <= max a larger draw never gives a smaller value |
| CasioTask.UsecPart | casio_files/casio_task.c:113 | the microsecond field lies in [0, 1000000) for a non-negative duration, and in (-1000000, 0] for a negative one |
| CasioTask.SplitSeconds | casio_files/casio_task.c:112-113 | for secs >= 0: tv_sec is floor(secs), tv_usec is in [0, 1000000), and tv_sec*10^6 + tv_usec <= secs*10^6 < tv_sec*10^6 + tv_usec + 1 |
| CasioTask.ITimerVal.Clear | casio_files/casio_task.c:97-102 | all four timer fields are zero |
| CasioTask.ITimerVal.Set | casio_files/casio_task.c:109-115 | both interval fields are zero (one-shot), and the value is secs split into truncated seconds and microseconds |
| CasioTask.SchedParam.Clear | casio_files/casio_task.c:78-81 | casio_id is -1 and the deadline 0; the priority is kept |
| CasioTask.Burn1Millisecs | casio_files/casio_task.c:56-59 | the loop runs exactly LOOP_ITERATIONS_PER_MILLISEC (178250) iterations |
| CasioTask.BurnCpu | casio_files/casio_task.c:67-71 | the loop runs ms * 178250 inner iterations, and none for ms <= 0 |
| CasioTask.TraceSnoc | casio_files/casio_task.c:160-173 | appending an effect keeps jobs numbered and each job preceded by a re-arm, when a job start carries the next number right after an arm |
| CasioTask.JobNumber | casio_files/casio_task.c:168-173 | the job started at position k of the trace carries the number of earlier jobs plus one, modulo 2^32 |
| CasioTask.ArmedBefore | casio_files/casio_task.c:160-168 | the effect just before every job start is the arming of the timer |
| CasioTask.TaskWorker.constructor | casio_files/casio_task.c:46-48 | jid starts at 1, the timer is cleared and the trace is empty |
| CasioTask.TaskWorker.StartTask | casio_files/casio_task.c:147-151 | the task is announced and the timer armed, one-shot, with a sample from [min_offset, max_offset]; jid is unchanged and the process is still running |
| CasioTask.TaskWorker.DoWork | casio_files/casio_task.c:158-175 | the timer is re-armed with an inter-arrival sample before job jid starts; the job burns truncate(exec sample * 1000) milliseconds; jid grows by one modulo 2^32; the invariant that jid is one past the jobs run is kept |
| CasioTask.TaskWorker.EndTask | casio_files/casio_task.c:182-185 | the end is announced and the process is finished; jid is unchanged |
| CasioTask.TaskMain | casio_files/casio_task.c:203-221 | the timer and parameter are cleared, the priority is 1, and casio_id, the six bounds and the deadline in nanoseconds are converted from arguments 1 to 8 |

## Left out

- Process control is not modelled. This covers `start_simulation` and `end_simulation` (`kill`), `fork`/`execv`, the argument-formatting `sprintf`s, `wait`, `pause`, `sleep` and `exit`. These are OS process plumbing; `end_task`'s `exit(0)` becomes the `finished` flag.
- Signals are not modelled. Registration (`signal`), asynchronous delivery, preemption of a running `do_work` by the next alarm, and the real effect of `setitimer` are concurrency and kernel behaviour. Each handler is a plain method call, and each `setitimer` an `Armed` entry in the trace.
- `sched_setscheduler`, `sched_getscheduler`, `perror` and the `SCHED_CASIO` policy are left out: they are calls into the kernel.
- `fopen`, `fgets` and `fclose` are left out as I/O. The file is a sequence of lines, each shorter than `BUF_LEN` and free of NUL. `fgets` splits a longer line into several reads; the model requires the split pieces to be given as separate lines.
- `print_casio_tasks_config`, `print_task_param`, `print_signal_timer`, `help` and the `printf` messages are left out. Only the handlers' messages appear, as trace entries without their text. The elapsed-time figure from `clock()` is not modelled.
- `atoi`/`atof` cover leading white space, a sign, digits and (for `atof`) one decimal point. Exponents, `inf`/`nan`, hexadecimal floats, locale, and overflow of `int` are not modelled.
- Doubles are exact reals, so rounding in `get_time_value`, in `secs * MICROSEC` and in `atof` is not modelled.
- An out-of-range cast (a duration beyond `int` seconds, or a negative deadline converted to `unsigned long long`) is not modelled.
- `rand`/`srand` quality and the seed argument are left out. Each draw is a parameter in `[0, RAND_MAX]`.
- The wall-clock meaning of `LOOP_ITERATIONS_PER_MILLISEC` is not modelled; only the iteration count is stated.
- CasioSystem.GetTasksConfigInfo: does not state that table slots past the last record keep their values. `ReadLine` and `GetTaskConfigInfo` state it for each call.
- CasioSystem.GetTasksConfigInfo: requires the file to fit the table, every line to fit the read buffer with no NUL inside, every task line to have seven tabs, and the first kept line (the duration line) to hold a tab, since `get_int_val`'s scan has no other stop. The C code writes past the table, or scans past the line or the buffer, otherwise.
- CasioTask.TaskWorker: `casio_id` is an `unsigned int` in C but is printed with `%d`. The model keeps atoi's signed value.
