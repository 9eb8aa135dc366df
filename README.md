# tsh: a job-control shell, modelled in Dafny

tsh is a small Unix shell with job control, written in C. It reads a command
line, splits it into arguments, and either runs a builtin (`quit`, `jobs`,
`bg`, `fg`) or forks a child and records it in a job table. The table is a
fixed array of MAXJOBS = 16 slots. Each slot holds a pid, a job id, a state
(UNDEF, FG, BG or ST) and the command line, and a global counter `nextjid`
gives out job ids. Three signal handlers keep the table in step with the
children:

- SIGCHLD reaps children, and marks or deletes their jobs.
- ctrl-C and ctrl-Z forward the signal to the foreground job's process group.

The repository holds two drafts of the shell:

- `shell/tshnew.c`, the later one;
- `shell/tsh.c`, the earlier one.

Their job-table helpers and `parseline` are the same text, apart from
comments and `static`. `builtin_cmd`, `do_bgfg`, `waitfg`, `eval` and the
handlers differ in several places.

The model has these modules:

- `CString` has `isdigit`, `atoi` and printf's `%d`.
- `Jobs` has the job table.
  - Pure functions on the value `JobTable` say what each helper computes.
  - The class `Jobs.Shell` holds the globals: the `jobs` array, `nextjid`, and
    `trace`, the ordered record of everything printed and every `kill` call.
  - Its methods are the C loops, each proved equal to its function.
- `Parse` has `parseline`, with a round-trip theorem for lines typed from a
  list of arguments.
- `JobControl` has what both drafts share: the forwarding of a keyboard
  signal, and the lookup of the job that `bg`/`fg` name.
- `TshNew` and `Tsh` hold the handlers, `waitfg`, `do_bgfg`, `builtin_cmd`
  and the parent side of `eval` of each draft.
  - Each routine is a function giving a `Run`: the table afterwards, the
    output and `kill` calls in order, and how it ended (returned, exited,
    still blocked, or a NULL dereference).
  - The method that performs the routine on a `Shell` is proved to do
    exactly that.

Signals are not asynchronous here. A caller supplies the handler runs that
happen while `waitfg` sleeps, as a sequence of deliveries, one per sleep. A
SIGCHLD delivery carries the children its `waitpid` loop collects. The pid
that `fork` returns to the parent is a parameter.

The job-table and `parseline` rows below cite `shell/tshnew.c`. The same
code is at `shell/tsh.c:619-851` and `shell/tsh.c:260-304`.

What the code does not guarantee, and what the model proves instead:

- The comment on `struct Job` numbers job ids "[1, 2, ...]"
  (`shell/tshnew.c:47`), but live job ids can repeat. `nextjid` starts at 1
  (`shell/tshnew.c:54`), and `addjob` wraps it to 1 past MAXJOBS without
  checking which ids are live (`shell/tshnew.c:731-733`). The model proves
  what does hold:
  - occupied slots have positive ids;
  - after `deletejob`, `nextjid` exceeds every live id;
  - `%n` finds the first job with id n.
- "At most one job can be in the FG state" is a comment
  (`shell/tshnew.c:42`), not something `addjob` or `do_bgfg` enforces. The
  model proves it as preservation: starting with no foreground job, `eval`
  that returns leaves none; when the wait starts exactly one job is FG, and
  while it is blocked every FG job is the one waited for.
- A `bg`/`fg` argument that does not start with `%` is looked up as the pid
  `atoi` reads from it (`shell/tshnew.c:401-405`). `atoi` skips leading white
  space, accepts a sign and ignores whatever follows the digits, so `bg +5`
  and `bg 5abc` both act on the job with pid 5 when there is one. Only when
  `getjobpid` finds no job for that number (always so for a number below 1)
  does the first character choose the message (`shell/tshnew.c:418-426`):
  "No such process" after a digit, the malformed-argument message otherwise.
- The comment at `shell/tshnew.c:38` lists ctrl-Z as the FG to ST transition,
  but the later draft's ctrl-Z handler does not write the state
  (`shell/tshnew.c:602-624`). The SIGCHLD handler does that when the stop is
  reported (`shell/tshnew.c:531-533`).

## Model

| member | source | states |
|---|---|---|
| CString.AtoiDecimal | shell/tshnew.c:401-413 | `atoi` reads back every number that printf's `%d` writes, negative ones included, so a pid or job id printed by `jobs` names the same number when typed as the argument of `bg`/`fg` |
| CString.DigitRun | shell/tshnew.c:402 | the digits `atoi` reads are the longest prefix made of digits: all of them are digits and the character after them is not |
| CString.NatDecimalValue | shell/tshnew.c:878 | the digits printed for a natural number denote that number |
| Jobs.Find | shell/tshnew.c:810-813 | an index a slot scan returns is in range and its slot holds what was looked for |
| Jobs.FindFirst | shell/tshnew.c:810-813 | a scan returns the lowest matching index, and returns nothing only when no slot from the start position matches |
| Jobs.FindSome | shell/tshnew.c:833-835 | a matching slot makes the scan succeed, at that slot or before it |
| Jobs.MaxJidIsMax | shell/tshnew.c:700-708 | maxjid is non-negative, at least every slot's job id, and either 0 or the id of some slot |
| Jobs.ListingLength | shell/tsh.c:827-851 | listjobs makes three printf calls per occupied slot and none for a free slot |
| Jobs.ListingSkipsFree | shell/tsh.c:831-850 | listjobs goes in array order and skips free slots: the output from a position starts with the lines of the first occupied slot at or after it |
| Jobs.AddJobValid | shell/tshnew.c:721-744 | addjob keeps free slots cleared, occupied slots with positive pid and job id, and nextjid positive |
| Jobs.DeleteJobValid | shell/tshnew.c:756-770 | deletejob keeps the same table invariant; the slot it frees is left as clearjob leaves it |
| Jobs.SetStateValid | shell/tshnew.c:429-441 | writing the state of an occupied slot keeps the table invariant |
| Jobs.AddJobEffect | shell/tshnew.c:721-744 | with a pid below 1 or no free slot, nothing changes; otherwise only the lowest free slot is written, with the pid, state, command line and job id = old nextjid, and nextjid goes up by one, back to 1 past MAXJOBS |
| Jobs.DeleteJobEffect | shell/tshnew.c:756-770 | with a pid below 1 or absent, nothing changes; otherwise exactly the first slot holding it is cleared and nextjid ends up above every job id left in the table |
| Jobs.AddJobDistinct | shell/tshnew.c:721-744 | adding a pid that is not yet in the table keeps pids distinct |
| Jobs.DeleteJobTwice | shell/tshnew.c:756-770 | with distinct pids, the pid is gone after deletejob, so a second deletejob of it finds nothing and changes nothing |
| Jobs.AddThenLookup | shell/tshnew.c:721-739 | after a successful addjob of a new pid, getjobpid finds a slot holding that pid, the given state and command line, and job id old nextjid, and pid2jid returns that id |
| Jobs.FgPidZero | shell/tshnew.c:783-791 | in a valid table fgpid returns 0 exactly when no slot is FG, and otherwise a pid that getjobpid finds |
| Jobs.AddFgUnique | shell/tshnew.c:247-255 | adding a foreground job when fgpid is 0 leaves exactly one FG slot, and fgpid names the new pid |
| Jobs.SetFgUnique | shell/tshnew.c:437-440 | making an occupied slot FG when fgpid is 0 leaves exactly one FG slot, and fgpid names that slot's pid |
| Jobs.DeleteKeepsFgCount | shell/tshnew.c:756-770 | deletejob never adds a foreground job |
| Jobs.SetStateFgCount | shell/tshnew.c:531-536 | setting a state other than FG never adds a foreground job |
| Jobs.FgOnlyReleased | shell/tshnew.c:457-461 | when every FG job has pid p and fgpid differs from p, as when waitfg(p) returns, no job is in the foreground |
| Jobs.SetStateCoherent | shell/tshnew.c:531-536 | a state change keeps the table valid, pids distinct, and the only possible foreground job p, unless it makes another job FG |
| Jobs.DeleteCoherent | shell/tshnew.c:756-770 | deletejob keeps the table coherent |
| Jobs.AddCoherent | shell/tshnew.c:721-744 | adding a new pid keeps the table coherent, unless it adds a foreground job other than p |
| Jobs.Shell.constructor | shell/tshnew.c:52-54 | the static initial state: every slot cleared, nextjid 1, nothing printed |
| Jobs.Shell.ClearJob | shell/tshnew.c:663-670 | clearjob sets that slot to pid 0, job id 0, UNDEF and an empty command line, and changes no other slot |
| Jobs.Shell.InitJobs | shell/tshnew.c:682-688 | every slot is cleared afterwards and the table invariant holds |
| Jobs.Shell.MaxJid | shell/tshnew.c:700-708 | returns the largest job id in the table, at least 0 |
| Jobs.Shell.AddJob | shell/tshnew.c:721-744 | the return value says whether addjob succeeded; the new table is the specified one; "Tried to create too many jobs" is printed exactly when the pid is positive and the table full; the invariant is kept |
| Jobs.Shell.DeleteJob | shell/tshnew.c:756-770 | returns whether the pid was found; the new table is the specified one; nothing is printed |
| Jobs.Shell.FgPid | shell/tshnew.c:783-791 | returns the pid of the first FG slot, and 0 exactly when no slot is FG |
| Jobs.Shell.GetJobPid | shell/tshnew.c:804-814 | returns the first slot holding the pid, or none for a pid below 1 or absent |
| Jobs.Shell.GetJobJid | shell/tshnew.c:827-837 | returns the first slot holding the job id, or none for an id below 1 or absent |
| Jobs.Shell.Pid2Jid | shell/tshnew.c:850-860 | returns the job id of the first slot holding the pid, and 0 exactly when getjobpid finds none |
| Jobs.Shell.ListJobs | shell/tshnew.c:872-896 | prints, for each occupied slot in array order, "[jid] (pid) ", the state word (or the internal-error text) and the command line |
| Parse.SkipSpaces | shell/tshnew.c:288-289 | the skip stops at or after its start, at the end or at a character that is not a space |
| Parse.SkipSpacesFirst | shell/tshnew.c:303-304 | the skip stops at the first character that is not a space |
| Parse.FindChar | shell/tshnew.c:295-297 | a position strchr returns is at or after the start and holds the character |
| Parse.FindCharFirst | shell/tshnew.c:308-310 | strchr returns the first occurrence |
| Parse.NextArg | shell/tshnew.c:293-297 | the next argument starts at or after the scan position and its delimiter lies inside the buffer |
| Parse.ScanArg | shell/tshnew.c:303-310 | one scan step skips spaces, steps over a leading quote, and finds the closing quote or the next space, as the scan function says |
| Parse.ArgsFromBlank | shell/tshnew.c:303-311 | a buffer that holds only spaces from a position on yields no more arguments |
| Parse.SplitArgs | shell/tshnew.c:292-311 | the argument loop collects exactly the arguments the scan function finds from the start of the buffer |
| Parse.ParseLine | shell/tshnew.c:278-322 | parseline's argv and result: the newline becomes a space, the line is split, and a last argument starting with '&' is removed and makes the result true; a blank line gives no arguments and true |
| Parse.ArgsFromShift | shell/tshnew.c:299-311 | the arguments found depend only on the text from the scan position on |
| Parse.LeadingSpace | shell/tshnew.c:288-289 | leading spaces hold no argument |
| Parse.TypedBare | shell/tshnew.c:297-302 | a bare word followed by a space is read back as the first argument, and the scan goes on just past that space |
| Parse.TypedQuoted | shell/tshnew.c:293-295 | text between single quotes, followed by a space, is read back without the quotes, and may contain spaces |
| Parse.ArgsOfTyped | shell/tshnew.c:299-311 | round trip: arguments typed one after another, bare or quoted, each followed by a space, are split back into their contents |
| Parse.BufferOfTyped | shell/tshnew.c:286-287 | the working copy of a line ending in a newline is the line with a space in place of the newline |
| Parse.ParseTyped | shell/tshnew.c:286-321 | round trip for whole lines: parseline returns the typed arguments, except that a last argument starting with '&' is dropped and the result is then true |
| Parse.BlankLine | shell/tshnew.c:314-315 | a line of nothing but spaces gives no arguments and returns 1 |
| JobControl.ForwardEffect | shell/tshnew.c:575-584 | forwarding in a valid table never changes the table and never fails; it sends nothing when no job is FG, and otherwise exactly one kill, to the process group of the first FG job |
| JobControl.Forward | shell/tshnew.c:565-588 | sigint_handler (and the later draft's sigtstp_handler) does exactly what the forwarding function says, with the same lookups in the same order |
| JobControl.Resolve | shell/tshnew.c:400-427 | a job that the bg/fg argument resolves to is a slot of the table |
| JobControl.ResolveArg | shell/tshnew.c:395-427 | do_bgfg's lookup, with pj_id_flag, gives what the resolution function says |
| JobControl.ResolveFound | shell/tshnew.c:400-427 | a job is found exactly when the number read from the argument is positive and some slot holds it (as job id after '%', as pid otherwise); it is the first such slot; a failed lookup means "No such job" for '%', "No such process" for a leading digit, and the malformed-argument message otherwise |
| JobControl.ResolveByPid | shell/tshnew.c:401-404 | with distinct pids, typing a job's pid as printed finds that job |
| JobControl.ResolveByJid | shell/tshnew.c:408-413 | typing "%" and a job's printed id finds the first job with that id: one at or before it, with no earlier slot holding that id |
| TshNew.ReapOf | shell/tshnew.c:519-547 | the later draft's SIGCHLD handler always returns |
| TshNew.ReapOneEffect | shell/tshnew.c:531-546 | a reaped child not in the table changes nothing; otherwise a stop prints "Job [jid] (pid) stopped by signal SIGTSTP", a kill prints the "terminated by signal SIGINT" line, an exit prints nothing, each with the job's own id; afterwards the child is not the foreground pid |
| TshNew.ReapCoherent | shell/tshnew.c:519-547 | the handler keeps the table coherent |
| TshNew.DeliverCoherent | shell/tshnew.c:508-624 | every handler of the later draft keeps the table coherent and returns |
| TshNew.WaitFgOf | shell/tshnew.c:453-462 | waitfg returns only when fgpid() differs from the pid, and is still blocked only while it equals it |
| TshNew.WaitFgStep | shell/tshnew.c:457-461 | one pass of the wait loop: a handler run, then the wait over the remaining deliveries |
| TshNew.WaitFgCoherent | shell/tshnew.c:457-461 | waiting keeps the table coherent and, in a coherent table, never ends the shell |
| TshNew.BgFgError | shell/tshnew.c:389-427 | an unresolved target leaves the table unchanged and prints exactly one line: the missing-argument, "No such job", "(pid): No such process" or malformed-argument message, chosen as the code chooses it |
| TshNew.BgEffect | shell/tshnew.c:430-435 | bg changes only the target's state, to BG, prints "[jid] (pid) cmdline" and then sends SIGCONT to the job's process group |
| TshNew.FgEffect | shell/tshnew.c:437-441 | fg with no job in the foreground leaves exactly one FG job, sends SIGCONT to its process group first, and returns only once the job has left the foreground |
| TshNew.LaunchEffect | shell/tshnew.c:234-256 | a failed addjob exits with status 1 and changes nothing; a background job is added and acknowledged with the job id addjob gave it; a foreground job, added when none was in the foreground, is the only FG job and the wait returns only when it has left the foreground |
| TshNew.BgFgNoForeground | shell/tshnew.c:429-441 | bg and fg, started with no foreground job, leave none and keep pids distinct when they return |
| TshNew.LaunchNoForeground | shell/tshnew.c:234-256 | launching a new child, with no foreground job, leaves none when eval returns |
| TshNew.EvalNoForeground | shell/tshnew.c:192-260 | "at most one job in FG" as eval keeps it: from a coherent table with no foreground job, an eval that returns leaves none and pids distinct |
| TshNew.ReapOne | shell/tshnew.c:521-546 | one pass of the handler loop does what the reaping function says |
| TshNew.SigchldHandler | shell/tshnew.c:519-547 | the waitpid loop handles the children in order, as the reaping function says |
| TshNew.Deliver | shell/tshnew.c:508-624 | one handler run does what the handler function says |
| TshNew.WaitFg | shell/tshnew.c:453-462 | the wait loop does what the wait function says, with the same output and outcome |
| TshNew.DoBgFg | shell/tshnew.c:380-442 | do_bgfg does what its function says: nothing for another command, one error line, bg or fg |
| TshNew.Background | shell/tshnew.c:430-435 | the bg branch: state BG, the acknowledgment, then SIGCONT to the group |
| TshNew.Foreground | shell/tshnew.c:437-441 | the fg branch: state FG, SIGCONT to the group, then the wait |
| TshNew.BuiltinCmd | shell/tshnew.c:341-367 | returns whether the command is a builtin, runs quit, bg, fg or jobs as specified, and changes nothing otherwise |
| TshNew.Eval | shell/tshnew.c:192-260 | eval does what its function says: nothing for a blank line, a builtin, or a launched child |
| TshNew.Launch | shell/tshnew.c:234-256 | the parent's side after fork: addjob, then the acknowledgment or the wait, or exit(1) |
| Tsh.ReapOf | shell/tsh.c:522-540 | the earlier draft's SIGCHLD handler either returns or dereferences NULL, and keeps the table size |
| Tsh.ReapStep | shell/tsh.c:522-540 | one pass of its loop, then the rest, stopping at a fault |
| Tsh.ReapOneFault | shell/tsh.c:524-539 | the handler faults exactly when a stopped or killed child is not in the table; otherwise it does what the later draft's handler does |
| Tsh.ReapKnown | shell/tsh.c:522-540 | reaping children that are all in the table, each once, never faults and keeps the table coherent |
| Tsh.ReapCoherent | shell/tsh.c:522-540 | the handler keeps the table coherent, even when it faults |
| Tsh.SigtstpEffect | shell/tsh.c:589-596 | ctrl-Z on a coherent table never faults: the FG job, if any, becomes ST and its group gets SIGTSTP, nothing else changes, and afterwards no job is in the foreground |
| Tsh.DeliverOf | shell/tsh.c:511-599 | a handler run of the earlier draft returns or faults and keeps the table size |
| Tsh.DeliverCoherent | shell/tsh.c:511-599 | every handler run keeps the table coherent |
| Tsh.WaitFgOf | shell/tsh.c:420-427 | waitfg returns only when fgpid() differs from the pid, and is still blocked only while it equals it |
| Tsh.WaitFgStep | shell/tsh.c:424-426 | one pass of the wait loop: a handler run, then the wait over the remaining deliveries |
| Tsh.WaitFgCoherent | shell/tsh.c:424-426 | waiting keeps the table coherent |
| Tsh.WaitFgKeys | shell/tsh.c:552-599 | while waiting for the foreground job, ctrl-Z stops it and ends the wait, and ctrl-C sends SIGINT to its group and changes nothing |
| Tsh.BgFgError | shell/tsh.c:361-396 | the error lines are exactly the later draft's, and the table is unchanged |
| Tsh.BgEffect | shell/tsh.c:398-403 | bg changes only the target's state, to BG, sends SIGCONT to the job's pid alone, and only then prints "[jid] (pid) cmdline" |
| Tsh.FgStoppedJobHangs | shell/tsh.c:404-408 | fg on a job with no foreground job and no signal arriving: the job is FG, nothing is sent, and the shell stays blocked |
| Tsh.FgAfterExitSignalsGroup | shell/tsh.c:404-408 | fg on a job that exits during the wait sends SIGCONT to pid 0 afterwards, the shell's own process group |
| Tsh.FgStopUndone | shell/tsh.c:404-408 | fg on a job, then ctrl-Z during the wait: SIGTSTP to the job's group, the wait returns, and SIGCONT to the job's pid follows at once, leaving the slot ST while the job runs |
| Tsh.WaitExited | shell/tsh.c:537-539 | when the foreground job's child exits, the handler clears its slot and the wait returns without output |
| Tsh.BgFgNoForeground | shell/tsh.c:398-408 | bg and fg, started with no foreground job, leave none and keep pids distinct when they return |
| Tsh.LaunchNoForeground | shell/tsh.c:221-238 | launching a new child, with no foreground job, leaves none when eval returns |
| Tsh.EvalNoForeground | shell/tsh.c:186-242 | "at most one job in FG" as the earlier draft's eval keeps it |
| Tsh.ReapOne | shell/tsh.c:524-539 | one pass of the handler loop does what the reaping function says, faulting on a NULL job |
| Tsh.SigchldHandler | shell/tsh.c:511-544 | the waitpid loop handles the children in order up to the first fault, as the reaping function says |
| Tsh.Sigtstp | shell/tsh.c:574-599 | sigtstp_handler marks the job ST and forwards SIGTSTP, as its function says |
| Tsh.Deliver | shell/tsh.c:511-599 | one handler run does what the handler function says |
| Tsh.WaitFg | shell/tsh.c:420-427 | the wait loop does what the wait function says |
| Tsh.DoBgFg | shell/tsh.c:358-409 | do_bgfg does what its function says |
| Tsh.Background | shell/tsh.c:398-403 | the bg branch: state BG, SIGCONT to the pid, then the acknowledgment |
| Tsh.Foreground | shell/tsh.c:404-408 | the fg branch: state FG, the wait, then SIGCONT to the pid the slot then holds |
| Tsh.BuiltinCmd | shell/tsh.c:323-345 | returns whether the command is a builtin, runs it as specified, and changes nothing otherwise |
| Tsh.Eval | shell/tsh.c:186-242 | eval does what its function says |
| Tsh.Launch | shell/tsh.c:221-238 | the parent's side after fork: addjob, then the acknowledgment or the wait, or exit(1) |

## Left out

- `main`, the prompt, the read loop, `usage`, `initpath` and `sig2str` are terminal I/O and environment set-up, so they are not modelled.
- `fork`, `setpgid`, `execvp` and the child's side of `eval` are process creation. The pid `fork` returns to the parent is a parameter.
- The `sigprocmask` window around `fork` is not modelled. Handlers run only between the checks of `waitfg`, never in the middle of a routine, because the model has no concurrency.
- `waitpid` is not modelled. The children it returns are given.
- The `sleep(1)` in `waitfg` is not modelled. Each sleep is one supplied handler run, and a wait whose deliveries run out ends as blocked.
- The handlers' tests of their signal number are left out. Each handler is installed only for its own signal, and in `shell/tshnew.c` the SIGCHLD handler tests a name it never declares.
- The `assert` calls in `shell/tsh.c` are left out. `Tsh.DoBgFg` requires bg or fg instead.
- `unix_error`'s message and a failing `kill` are left out. A NULL job in the later draft's forwarding ends the run with exit status 1, and `kill` always succeeds.
- All verbose-only printfs and the `Signal` wrapper are left out.
- CString.AtoiDecimal: `atoi` is modelled on unbounded integers. Overflow past `int` is undefined in C and is left out.
- Parse.ParseLine: the NULL that ends argv is implicit in the sequence's length. The one-pointer `malloc` for argv in `eval` and argv overflow past MAXARGS are C memory defects. `Eval` requires fewer than MAXARGS arguments and a line shorter than MAXLINE.
- `sigquit_handler` and `app_error` end the process, and are not modelled.

## Findings

| source | as written | input that shows it | evidently intended | confidence | as-written member | corrected member |
|---|---|---|---|---|---|---|
| shell/tsh.c:405-407 | `fg` marks the job FG, waits in `waitfg`, and only then sends SIGCONT, to the pid its slot holds after the wait | `fg %1` on a stopped job with no signal arriving: the job is never continued and the shell stays blocked; if the job's child exits during the wait, its slot is cleared and `kill(0, SIGCONT)` goes to the shell's own process group; ctrl-Z during `fg` stops the job and the SIGCONT that follows the wait continues it at once, so the table says ST while the job runs (`Tsh.FgStopUndone`) | send SIGCONT to the job's process group first, then wait (as `shell/tshnew.c:438-440` does) | not executed | Tsh.FgStoppedJobHangs | TshNew.FgEffect |
