# Verified model of the systems labs

A Dafny model of six pieces of the labs and proofs about them. `dafny verify dfyconfig.toml` checks all of it.

| file | what it models |
|---|---|
| `BoundedBuffer.dfy` | the semaphore-guarded ring of `hw6/sbuf.c`, run by any number of threads; also a class with the ring as an array |
| `CacheLock.dfy`, `CacheCalls.dfy` | the readers-writers lock and the size accounting of `first-proxylab-handout/cache.c`, and its calls when they run alone |
| `JobTable.dfy`, `Shell.dfy`, `ShellRuns.dfy`, `ShellWitnesses.dfy`, `ShellFailures.dfy`, `ShellCommands.dfy`, `ShellLives.dfy`, `ParseLine.dfy` | the job list of `shlab-handout/tsh.c`; its main loop interleaved with the SIGCHLD handler and the kernel, with what its runs keep, which changes occur, how it fails, what each command line does and how a job lives; and its command-line parser |
| `Sio.dfy`, `Rio.dfy` | number printing and robust I/O of `hw6/csapp.c`, and `hw6/echo.c` |
| `DnsName.dfy`, `DnsChain.dfy`, `DnsCodec.dfy`, `DnsAddress.dfy`, `DnsAnswer.dfy` | names, queries and the answer walk of `dnsresolverlab-handout/resolver.c`, with sections 3.1, 4.1.2, 4.1.3 and 4.1.4 of RFC 1035 as the reference |
| `ProxyRequest.dfy`, `ProxyConnections.dfy`, `ProxyProgress.dfy`, `ProxyCalls.dfy`, `ProxyRecords.dfy` | the request rewriting, the event-driven connections, what each event comes to, and the in-place records of `proxylab-handout/proxy.c` |
| `Sums.dfy`, `Runs.dfy`, `Arithmetic.dfy`, `Options.dfy`, `Memory.dfy` | sums over threads, flags and steps along runs, remainders, optional values, copying |

Concurrent code is a state machine: a step is one semaphore operation, one access to shared data, one kernel
action or one step of a handler, and a run takes any enabled steps in any order. Kernels are scripts of chunks,
EINTR, EAGAIN, errors and descriptor numbers, of which the theorems assume nothing but what a row below says.
Code that works in place is a method over arrays or a class, proved equal to a function, and the theorems are
about the function.

Where code and documentation differ, the model follows the code:

- the comment at `shlab-handout/tsh.c:28-36` leaves out the transition from BG to ST, which occurs (`ShellWitnesses.TransitionsExactly`);
- at most one job is in the foreground, as the comment at `shlab-handout/tsh.c:35` says, exactly while the fg command marks no slot cleared since its lookup (`ShellRuns.RunForegroundExactly`);
- the size limit of the cache is exceeded as soon as two threads insert (`CacheLock.IntendedBoundExactlyAlone`), by exactly as much as `CacheLock.ExactBound` says;
- the comments at `dnsresolverlab-handout/resolver.c:153-165` and `186-201` speak of a returned length and an index that the functions do not have;
- a `long` below zero prints as one character (`Sio.DenotesExactlyNonNegative`);
- a pointer in a DNS message is read by its low byte only (`DnsName.OffsetReadRightExactly`);
- a request target may end with the authority by section 2.7.1 of RFC 7230, or go on with a query, but `parse` needs a slash there, and a host without colons (`ProxyRequest.RewriteRightExactly`).

## Model

| member | source | states |
|---|---|---|
| `BoundedBuffer.RunInv` | hw6/sbuf.c:7-49 | in every state of every run, for any number of inserting and removing threads, the semaphore counts, the ring contents and the values in the threads' hands satisfy the invariant |
| `BoundedBuffer.FireCounted` | hw6/sbuf.c:28-49 | every semaphore operation keeps: slots + slot holders + slot debtors + (rear − front) = n, rear − front = items + item debtors + item holders, and mutex + threads inside = 1 |
| `BoundedBuffer.FireFifo` | hw6/sbuf.c:32-45 | every step keeps the slots between front and rear holding, in order, the values bumped in but not yet out |
| `BoundedBuffer.FireDelivery` | hw6/sbuf.c:40-48 | every step keeps each loaded value in the hands of exactly one removing call, until that call returns it |
| `BoundedBuffer.OneInSection` | hw6/sbuf.c:31-46 | while one thread is between P(mutex) and V(mutex), every other one is outside |
| `BoundedBuffer.RunIsFifo` | hw6/sbuf.c:26-49 | in every run the values removed are a prefix of the values inserted; what is between them, at most n values, stands in the ring in order; every value returned is the one inserted at the same place |
| `BoundedBuffer.NextRefinesQueue` | hw6/sbuf.c:26-49 | each step is, for the bounded queue, nothing, an append while there is room, or taking the head |
| `BoundedBuffer.QueueBounded` | hw6/sbuf.c:9-13 | the queue never holds more than n values |
| `BoundedBuffer.LoadsHead` | hw6/sbuf.c:45 | a removing thread that has bumped front finds in its slot the oldest value not yet removed |
| `BoundedBuffer.UnreadSlotsKept` | hw6/sbuf.c:32 | no step changes a slot whose value has not been loaded |
| `BoundedBuffer.DeliveredOnce` | hw6/sbuf.c:40-48 | a call returns a value no call returned before, and the one inserted at that place |
| `BoundedBuffer.MidOperationCanStep` | hw6/sbuf.c:30-47 | a thread past its first P never leaves the whole system blocked |
| `BoundedBuffer.StuckExactly` | hw6/sbuf.c:28-49 | with calls in progress, nobody can step if and only if all of them are inserters at their first P and the queue is full, or removers at theirs and it is empty: never both kinds |
| `BoundedBuffer.SoloInsert` | hw6/sbuf.c:28-35 | undisturbed, sbuf_insert succeeds exactly when a slot is free, and then appends its item |
| `BoundedBuffer.SoloRemove` | hw6/sbuf.c:40-49 | undisturbed, sbuf_remove succeeds exactly when an item is announced, and then returns the head of the queue |
| `BoundedBuffer.InsertAlone` | hw6/sbuf.c:28-35 | a call of sbuf_insert with mutex free, run alone, blocks exactly when no slot is free and otherwise, six steps later, has appended the value it was called with and left everything else |
| `BoundedBuffer.RemoveAlone` | hw6/sbuf.c:40-49 | a call of sbuf_remove, run alone, blocks exactly when no item is announced and otherwise delivers the head of the queue and leaves everything else |
| `BoundedBuffer.Sbuf.constructor` | hw6/sbuf.c:7-15 | a ring of n slots, counters at zero, semaphores at 1, n and 0 |
| `BoundedBuffer.Sbuf.Insert` | hw6/sbuf.c:28-35 | the whole new ring and contents, or no change when blocked |
| `BoundedBuffer.Sbuf.Remove` | hw6/sbuf.c:40-49 | returns the first of the contents and leaves the others, or changes nothing when blocked |
| `CacheLock.RunInv` | first-proxylab-handout/cache.c:8-70 | the lock counts, the size account, the slots and the bound hold in every state of every run |
| `CacheLock.FireLocks` | first-proxylab-handout/cache.c:46-67 | every step keeps mutex, rw and `readers` accounting for the threads inside |
| `CacheLock.FireAccounts` | first-proxylab-handout/cache.c:29-30 | every step keeps size plus the sizes written but not yet added equal to the sizes stored |
| `CacheLock.FireBounded` | first-proxylab-handout/cache.c:22-30 | every step keeps size plus what is past the check and not yet added within MAX_CACHE_SIZE + (T − 1)·MAX_OBJECT_SIZE |
| `CacheLock.ReadersWritersExclusion` | first-proxylab-handout/cache.c:46-67 | `readers` is the number of threads between increment and decrement; while a writer is inside no other writer is and nobody scans |
| `CacheLock.ScanningMeansHeld` | first-proxylab-handout/cache.c:46-51 | a scanning reader has rw held for the group of readers |
| `CacheLock.NoDeadlock` | first-proxylab-handout/cache.c:28-67 | if any call is in progress, some call in progress can step |
| `CacheLock.SizeStaysBounded` | first-proxylab-handout/cache.c:21-31 | size plus what has passed the check and is not yet added never exceeds MAX_CACHE_SIZE + (T − 1)·MAX_OBJECT_SIZE for T threads, and size never exceeds what is stored |
| `CacheLock.BoundIsReached` | first-proxylab-handout/cache.c:21-31 | for every T, a run in which T threads reach that bound |
| `CacheLock.ExactBound` | first-proxylab-handout/cache.c:21-31 | a number bounds the size in every run of T threads if and only if it is at least that bound |
| `CacheLock.IntendedBoundExactlyAlone` | first-proxylab-handout/cache.c:25 | MAX_CACHE_SIZE itself is never exceeded if and only if T = 1 |
| `CacheLock.CacheRecord.constructor` | first-proxylab-handout/cache.c:8-15 | an empty cache with room for n entries, which line 9 means to allocate |
| `CacheLock.CacheRecord.Insert` | first-proxylab-handout/cache.c:21-32 | the new size, rear and buffer, for an object that passes both checks or not |
| `CacheCalls.FindScansExactly` | first-proxylab-handout/cache.c:46-51 | with mutex free, a call of cache_find_object that runs alone gets to its scan if and only if no writer is inside |
| `CacheCalls.FindAlone` | first-proxylab-handout/cache.c:46-67 | with the locks free, such a call goes from idle through its scan back to idle in eleven steps and leaves the cache and the locks as they were |
| `CacheCalls.AllScan` | first-proxylab-handout/cache.c:46-51 | for every T a run in which T threads scan at once: `readers` is T, mutex is free and rw is held |
| `CacheCalls.InsertAlone` | first-proxylab-handout/cache.c:21-32 | an undisturbed cache_insert changes nothing if the object is too large by itself or for what is left, waits if rw is taken, and otherwise leaves the cache with the object, its size and the next slot |
| `JobTable.AddKeepsJidsExactly` | shlab-handout/tsh.c:549-575 | addjob keeps live job numbers distinct if and only if nextjid is not in use |
| `JobTable.DeleteRefreshes` | shlab-handout/tsh.c:578-595 | every successful deletejob leaves nextjid = maxjid + 1 and keeps numbers distinct |
| `JobTable.AddFromFresh` | shlab-handout/tsh.c:549-575 | from nextjid = maxjid + 1, addjob hands out an unused number, and the equation still holds exactly when that number is below MAXJOBS |
| `JobTable.DistinctExactlyWhenUnused` | shlab-handout/tsh.c:549-595 | over any sequence of additions and deletions, numbers stay distinct if and only if every number was unused when handed out |
| `JobTable.NoWrapMeansUnused` | shlab-handout/tsh.c:549-595 | with no successful addition between handing out a number of MAXJOBS or more and the next deletion, every number handed out is unused |
| `JobTable.JobNumbersStayDistinct` | shlab-handout/tsh.c:529-595 | so from the initial table the numbers of live jobs are distinct throughout |
| `JobTable.WrapGivesDuplicate` | shlab-handout/tsh.c:549-595 | sixteen additions, the deletions of jobs 3 and 5 and two additions give two live jobs the same number |
| `JobTable.LookupsAgreeExactly` | shlab-handout/tsh.c:609-647 | pid2jid, getjobjid and getjobpid agree on every live job if and only if the numbers are distinct |
| `JobTable.Pid2JidExactly` | shlab-handout/tsh.c:635-647 | the number of the first job with the process, and 0 for one without a job |
| `JobTable.LookupsStayInverse` | shlab-handout/tsh.c:529-647 | over any sequence of additions of processes not in the table and of deletions, these lookups are inverse to each other throughout if and only if every number is unused when handed out; so they are when nothing is added right after a wrap |
| `JobTable.MaxJid` | shlab-handout/tsh.c:538-546 | at least every job number, and reached by one unless it is 0 |
| `JobTable.JobList.constructor` | shlab-handout/tsh.c:529-535 | the table is empty and nextjid is 1 |
| `JobTable.JobList.ClearJob` | shlab-handout/tsh.c:520-526 | one slot cleared, the others as before |
| `JobTable.JobList.InitJobs` | shlab-handout/tsh.c:529-535 | all slots cleared |
| `JobTable.JobList.FindMaxJid` | shlab-handout/tsh.c:538-546 | the loop finds the largest number |
| `JobTable.JobList.Add` | shlab-handout/tsh.c:549-575 | the whole new table and nextjid, and failure exactly for a pid below 1 or a full table |
| `JobTable.JobList.Delete` | shlab-handout/tsh.c:578-595 | the whole new table and nextjid, and failure exactly for an unknown pid |
| `JobTable.JobList.FindFgPid` | shlab-handout/tsh.c:598-606 | the pid of the first job in the foreground, or 0 |
| `JobTable.JobList.FindByPid` | shlab-handout/tsh.c:609-619 | the first slot with the pid |
| `JobTable.JobList.FindByJid` | shlab-handout/tsh.c:622-632 | the first slot with the job number |
| `JobTable.JobList.JidOfPid` | shlab-handout/tsh.c:635-647 | the job number of the pid, or 0 |
| `Shell.RunInv` | shlab-handout/tsh.c:185-509 | the invariants on pids, on the foreground job and on unreported children hold in every state of every run of main loop, handler and kernel |
| `ShellRuns.RunTableIsChildren` | shlab-handout/tsh.c:195-211 | in every run the pids in the table are distinct and are exactly the unreaped children, but for one forked and not yet added and those that addjob refused, as long as all endings were filed |
| `ShellRuns.RunTableExactly` | shlab-handout/tsh.c:195-211 | that holds in every state of a run, up to a crash, if and only if no child in the table was killed by a signal other than SIGINT |
| `Shell.CommandStep` | shlab-handout/tsh.c:185-222 | a command line only moves the main loop: to the fork of a job, to the lookup of fg or bg, to the exit or back to the prompt; it crashes the shell if and only if it has no arguments |
| `ShellRuns.RunForeground` | shlab-handout/tsh.c:212-215 | in every run in which the fg command marks no slot cleared since its lookup: at most one job is in the foreground, none while the main loop reads, and fgpid, to whose group SIGINT and SIGTSTP go, names that job; if all endings were filed, it is an unreaped child |
| `Shell.MarkBreaksExactly` | shlab-handout/tsh.c:371-393 | the write of do_bgfg breaks the foreground rule if and only if it is the fg command's and the handler has cleared the slot since the lookup |
| `ShellRuns.RunForegroundExactly` | shlab-handout/tsh.c:212-215 | the foreground rule holds in every state of a run, up to a crash, if and only if the fg command marks no slot cleared since its lookup |
| `ShellRuns.RunReportsEveryChild` | shlab-handout/tsh.c:422-472 | no child is left waiting to be reported unless SIGCHLD is pending or being handled |
| `ShellRuns.RunTransitions` | shlab-handout/tsh.c:381-459 | in every run a job that stays in its slot keeps number and command line and changes state only from FG to ST, BG to ST, ST to FG, ST to BG or BG to FG, or from FG straight to BG by the bg command, and that only after the race |
| `ShellRuns.StepTransitions` | shlab-handout/tsh.c:381-459 | for one step from any state that satisfies the invariant; FG goes straight to BG if and only if the bg command writes to a slot in the foreground |
| `ShellWitnesses.TransitionsExactly` | shlab-handout/tsh.c:28-36 | a transition occurs in some run without the race if and only if it is one of those five: BG to ST, which the comment leaves out, is among them; in all runs there is one more, FG to BG |
| `ShellWitnesses.RacedFgToBg` | shlab-handout/tsh.c:381-388 | a run in which the bg command takes a job straight from FG to BG |
| `ShellRuns.CrashExactly` | shlab-handout/tsh.c:216-220 | the shell follows a null pointer if and only if the command line has no arguments, or it reports a job that is not in the table, or the handler reaps a SIGINT or SIGTSTP child that is not in it; if all endings were filed, the latter is one that addjob had refused |
| `ShellFailures.NoArgumentsCrash` | shlab-handout/tsh.c:304-306 | any line without arguments crashes the shell at its first prompt |
| `ShellFailures.LinesThatCrash` | shlab-handout/tsh.c:276-283 | an empty line, a lone & and an open quote are such lines |
| `ShellFailures.ReportCrashes` | shlab-handout/tsh.c:210-219 | a run in which a background job exits before it is reported and the shell crashes, though the table had room |
| `ShellFailures.ReapCrashes` | shlab-handout/tsh.c:436-445 | a run in which a seventeenth job, refused by addjob, is interrupted and the handler crashes |
| `ShellRuns.ReapKeepsTableExactly` | shlab-handout/tsh.c:429-466 | reaping keeps table and children equal if and only if it is not a listed child killed by a signal other than SIGINT |
| `ShellRuns.StaleForegroundHangs` | shlab-handout/tsh.c:402-409 | a main loop that waits for a reaped process still marked in the foreground waits in every later state of the run, until a crash if there is one |
| `ShellFailures.KillHangs` | shlab-handout/tsh.c:446-450 | a run that gets there: a foreground job is killed by a signal other than SIGINT |
| `ShellFailures.LateLookupHangs` | shlab-handout/tsh.c:357-394 | another: the handler clears the slot between the lookup of fg and the reading of its pid, which is then 0, and waitfg(0) never ends |
| `ShellWitnesses.RaceLosesForeground` | shlab-handout/tsh.c:371-393 | a run in which the handler clears the slot between lookup and write of do_bgfg, and the prompt returns with a job marked FG |
| `ShellCommands.ResumeExactly` | shlab-handout/tsh.c:333-367 | fg and bg go on to slot i if and only if their argument is a number, after % or not, of at least 1 and slot i is the first with that job number or process number; for any other argument, or none, the shell stays at its prompt |
| `ShellCommands.LookupExactly` | shlab-handout/tsh.c:609-632 | getjobjid and getjobpid yield slot i if and only if the number is at least 1 and slot i is the first that has it |
| `ShellCommands.OthersExactly` | shlab-handout/tsh.c:185-222 | quit ends the shell, jobs leaves it at its prompt, any other command is to be forked, in the background as the line says |
| `ShellCommands.LineObeyed` | shlab-handout/tsh.c:185-222 | a line typed from any arguments is obeyed by these arguments |
| `ShellCommands.TypedJob` | shlab-handout/tsh.c:185-222 | any typed line whose command is not built in starts a job, in the background if and only if its last argument starts with & |
| `ShellCommands.TypedResume` | shlab-handout/tsh.c:333-367 | fg or bg typed with any number, after % or not, goes on to slot i if and only if slot i is the first with that job number or process number |
| `ShellCommands.NumeralTyped` | shlab-handout/tsh.c:333-346 | a numeral is typed and parsed as one bare argument |
| `ShellLives.RunEndedStays` | shlab-handout/tsh.c:422-472 | in every run a child that has ended stays so until it is reaped |
| `ShellLives.Launches` | shlab-handout/tsh.c:191-217 | from sigprocmask to the wait or the report: the child runs, and the first free slot has its pid, the next job number, its state and the line |
| `ShellLives.LaunchesUnlisted` | shlab-handout/tsh.c:191-217 | with no slot free the child runs and the table stays as it is |
| `ShellLives.ReapFiles` | shlab-handout/tsh.c:422-472 | reaping a child in slot i clears the slot for an exit or SIGINT, marks it stopped for SIGTSTP and leaves it for any other signal; no other slot changes |
| `ShellLives.ReapUnlisted` | shlab-handout/tsh.c:422-472 | reaping a child without a job leaves the table, and crashes for SIGINT or SIGTSTP |
| `ShellLives.Resumes` | shlab-handout/tsh.c:371-394 | do_bgfg after its lookup: the stopped child of the slot runs, the slot has the new state, fg waits and bg is back at the prompt |
| `ShellLives.HandlerStartsExactly` | shlab-handout/tsh.c:191-211 | a pending SIGCHLD starts the handler if and only if it is not running and the main loop is not between the two sigprocmask calls |
| `ShellLives.RunMasked` | shlab-handout/tsh.c:191-211 | in no run does the handler run between fork and addjob |
| `ShellLives.ForegroundStarts` | shlab-handout/tsh.c:185-217 | from the prompt, a command that is not built in puts a job into the foreground, and waitfg does not end while it is there |
| `ShellLives.ForegroundLife` | shlab-handout/tsh.c:185-472 | from the prompt through fork, wait, exit or SIGINT, and handler: the shell is at its prompt again with the children and slots it had, and nextjid is one past the largest number |
| `ShellLives.ForegroundStops` | shlab-handout/tsh.c:402-466 | a job stopped by SIGTSTP stays in its slot, marked stopped, and the prompt returns |
| `ParseLine.NextArgExactly` | shlab-handout/tsh.c:241-263 | the next argument of any text is what is in quotes without a quote inside, or bare with no space inside and no quote in front and ended by a space, after any spaces; there is one if and only if the text has this form |
| `ParseLine.ParseUndoesTyping` | shlab-handout/tsh.c:231-285 | for any arguments without quote, newline or NUL, each in quotes or bare if non-empty and without spaces, with any runs of spaces between: parsing gives back the list, less a last argument starting with &, which is reported as background |
| `ParseLine.TokensOfBody` | shlab-handout/tsh.c:245-273 | the token loop on a rendered list gives the list |
| `ParseLine.BlankLine` | shlab-handout/tsh.c:276-277 | a line of spaces gives no argument and counts as background |
| `ParseLine.NoArgumentsExactly` | shlab-handout/tsh.c:239-284 | a line gives no argument if and only if after leading spaces it is empty or opens a quote that is never closed, or its one argument starts with & |
| `ParseLine.NoMoreExactly` | shlab-handout/tsh.c:241-254 | the first search finds nothing if and only if the text is empty or opens such a quote |
| `ParseLine.SkipBlanks` | shlab-handout/tsh.c:241-242 | the loop over spaces stops at the first other character or the end |
| `ParseLine.FindChar` | shlab-handout/tsh.c:249-253 | strchr in place: the first such character of the string, or none |
| `ParseLine.CutAll` | shlab-handout/tsh.c:245-273 | the loop cuts the buffer so that argv points at exactly the tokens |
| `ParseLine.ParseCommand` | shlab-handout/tsh.c:231-285 | the buffer and argv on return denote exactly the parsed arguments, and the result the background flag |
| `Sio.NumeralDenotes` | hw6/csapp.c:235-244 | for v ≥ 0 and base 2 to 36 the numeral is made of digits of the base, has value v, and no leading zero but for 0 |
| `Sio.NumeralUnique` | hw6/csapp.c:235-244 | it is the only such string |
| `Sio.DenotesExactlyNonNegative` | hw6/csapp.c:235-244 | the text has value v if and only if v ≥ 0 |
| `Sio.NumeralFits` | hw6/csapp.c:235-244 | below 2^k it has at most k digits |
| `Sio.LongFits` | hw6/csapp.c:265-271 | for every 64-bit v at most 63 characters, so the 128-byte buffer is enough |
| `Sio.QuotIsDivision` | hw6/csapp.c:240-241 | the quotient and remainder used are those of division, truncated towards zero, for numbers of either sign |
| `Sio.NegativeIsOneCharacter` | hw6/csapp.c:238-241 | a number below zero prints as the one character that stands as far before 0 as its last digit is above 0 |
| `Sio.ReversedTwice` | hw6/csapp.c:223-232 | reversing twice gives back the text |
| `Sio.Reverse` | hw6/csapp.c:223-232 | the loop leaves the reversed text in place |
| `Sio.StoreDigits` | hw6/csapp.c:238-241 | the do loop stores the digits last first |
| `Sio.Ltoa` | hw6/csapp.c:235-244 | the buffer ends up with the numeral and a NUL |
| `Rio.Reader.constructor` | hw6/csapp.c:826-831 | a reader whose unread bytes are the whole stream |
| `Rio.Reader.Refill` | hw6/csapp.c:798-809 | refilling loses no byte, retries on EINTR, and ends with bytes, at end of file or, with −1, on a failure that no byte comes before |
| `Rio.Reader.ReadSome` | hw6/csapp.c:794-819 | rio_read delivers the next bytes of the stream and keeps the others, or gives −1 on such a failure |
| `Rio.Reader.Readnb` | hw6/csapp.c:838-853 | −1 if and only if a read fails before n more bytes; otherwise min(n, what is left) bytes of the stream in order, however the kernel chunks and interrupts |
| `Rio.Reader.Readlineb` | hw6/csapp.c:860-882 | −1 if and only if a read fails before the end of the line is seen; otherwise the shortest prefix ending in a newline, capped at maxlen − 1 or cut at end of file, with a NUL after it |
| `Rio.FailsExactly` | hw6/csapp.c:738-757 | reads for n bytes meet a failure if and only if one stands in the kernel's script with fewer than n bytes before it |
| `Rio.DemandExactly` | hw6/csapp.c:865-879 | to know a line its bytes must be seen, and one read more if it ends short of a newline and of the full length |
| `Rio.LineLengthExactly` | hw6/csapp.c:865-879 | that length is the only one with this property |
| `Rio.Readn` | hw6/csapp.c:738-757 | −1 if and only if a read fails before n bytes, otherwise min(n, what is left) bytes of an unbuffered stream |
| `Rio.Writen` | hw6/csapp.c:764-781 | all n bytes are written, or, exactly when a write fails or takes nothing without an earlier EINTR while bytes are left, −1 and a prefix of them |
| `Rio.PiecesConserve` | hw6/csapp.c:794-882 | what any sequence of calls is due, and the rest, is the stream |
| `Rio.Session` | hw6/csapp.c:794-882 | any mix of block and line reads on one buffer gets exactly what it is due, for any chunking and EINTR, and fails if and only if a read fails within what the calls have to see |
| `Rio.Echo` | hw6/echo.c:7-18 | echo writes back exactly the bytes it receives, for any chunking of reads and writes; on an error, a prefix; it ends well only if no read fails |
| `DnsName.JoinLabels` | dnsresolverlab-handout/resolver.c:167-182 | splitting at dots and joining gives back a name without empty labels, and no label is empty or has a dot |
| `DnsName.LabelsAtDot` | dnsresolverlab-handout/resolver.c:167-182 | for any text, a dot parts the labels before it from those after it |
| `DnsName.LabelsOfOne` | dnsresolverlab-handout/resolver.c:167-182 | a text without dots is one label, or none if it is empty |
| `DnsName.LabelsOfJoin` | dnsresolverlab-handout/resolver.c:167-182 | joining labels and splitting gives back the labels |
| `DnsName.WireSizeExactly` | dnsresolverlab-handout/resolver.c:281-283 | the encoding never exceeds strlen + 2 bytes, and has exactly that size if and only if no label is empty |
| `DnsName.ExpandWire` | dnsresolverlab-handout/resolver.c:187-225 | a name in wire format anywhere in a message expands to its labels |
| `DnsName.LowPointersExactly` | dnsresolverlab-handout/resolver.c:207-211 | reading only the low byte of pointers goes through the parts that section 4.1.4 of RFC 1035 prescribes if and only if every pointer on the way has an offset below 256 |
| `DnsName.LowPointersReadRight` | dnsresolverlab-handout/resolver.c:207-211 | with such pointers only, the name itself is the prescribed one |
| `DnsName.OffsetReadRightExactly` | dnsresolverlab-handout/resolver.c:207-211 | every name that follows a pointer to offset t is read right if and only if t is below 256; for any other t there is a message whose name is read wrong |
| `DnsName.LowerTable` | dnsresolverlab-handout/resolver.c:143-150 | the capitals become the small letters, one by one, and every other byte stays |
| `DnsName.CanonicalName` | dnsresolverlab-handout/resolver.c:117-151 | a name of labels without dots becomes its lower-cased self, with a final dot or without, and the root stays |
| `DnsName.CanonicalTwice` | dnsresolverlab-handout/resolver.c:117-151 | canonical names stay as they are, for names with at most one trailing dot |
| `DnsName.Canonicalize` | dnsresolverlab-handout/resolver.c:117-151 | in place: lower case and no trailing dot, the root left alone |
| `DnsChain.ExpandChain` | dnsresolverlab-handout/resolver.c:187-225 | labels with a pointer behind them, to labels with a pointer behind them and so on, standing anywhere in a message with pointers that lead strictly backwards, are read as all the labels in order; read by the low byte of pointers, if the offsets are below 256 |
| `DnsChain.ExpandExactly` | dnsresolverlab-handout/resolver.c:187-225 | a name is read from a message, as RFC 1035 prescribes, if and only if such a chain of parts spelling it stands there |
| `DnsChain.ReadChain` | dnsresolverlab-handout/resolver.c:187-225 | the decoder's text for such a chain is the name that the parts spell, with dots and lower-cased |
| `DnsCodec.Token` | dnsresolverlab-handout/resolver.c:170-181 | strtok: the next label and where to go on |
| `DnsCodec.NameToWire` | dnsresolverlab-handout/resolver.c:154-184 | the array starts with the wire form of the labels, and the rest of it is unchanged |
| `DnsCodec.DottedIsJoin` | dnsresolverlab-handout/resolver.c:212-220 | the decoder's buffer without its first byte is the joined labels |
| `DnsCodec.ExpandShort` | dnsresolverlab-handout/resolver.c:212 | a name that expands has labels of 1 to 63 bytes |
| `DnsCodec.NameFromWire` | dnsresolverlab-handout/resolver.c:187-225 | the result is the canonical text of the expanded name, in a buffer of exactly its size; the loop ends by a lexicographic measure on pointer target and remaining bytes |
| `DnsCodec.CreateQuery` | dnsresolverlab-handout/resolver.c:268-299 | the array is header, name and footer with nothing left over for a name without empty labels; header, name and footer are in place for any name |
| `DnsCodec.QueryFields` | dnsresolverlab-handout/resolver.c:288-298 | the query has its id, the recursion flag, one question and nothing else counted, the name, type A and class IN, where section 4.1.1 of RFC 1035 puts them |
| `DnsCodec.QueryFillsExactly` | dnsresolverlab-handout/resolver.c:392-394 | the query has the size that resolve computes if and only if the name has no empty label |
| `DnsCodec.QueryNameRoundTrip` | dnsresolverlab-handout/resolver.c:268-299 | decoding the query at offset 12 gives the labels of the name that was asked for, and its lower-cased text |
| `DnsCodec.EncodeThenDecode` | dnsresolverlab-handout/resolver.c:392-394 | the two operations on arrays, one after the other, lower-case the name |
| `DnsAddress.DecimalExactly` | dnsresolverlab-handout/resolver.c:386 | a text is that of a byte if and only if it is made of decimal digits, without a superfluous zero, and has its value in base ten |
| `DnsAddress.AddressTextExactly` | dnsresolverlab-handout/resolver.c:370-388 | a text is that of an address if and only if it splits at its dots into four such numerals with the values of the four bytes |
| `DnsAddress.AddressTextTells` | dnsresolverlab-handout/resolver.c:370-388 | dotted addresses are equal exactly for equal addresses, and have at most fifteen characters |
| `DnsAnswer.ResponseShape` | dnsresolverlab-handout/resolver.c:403-408 | in an encoded response the count is at bytes 6 and 7 and the answers start where resolve looks |
| `DnsAnswer.RecordFields` | dnsresolverlab-handout/resolver.c:412-440 | where the type, the length and the data of an encoded record are |
| `DnsAnswer.GetAnswerAddress` | dnsresolverlab-handout/resolver.c:370-388 | the text of the address, in sixteen bytes |
| `DnsAnswer.OwnerLengthExactly` | dnsresolverlab-handout/resolver.c:413-421 | an owner name is measured rightly if and only if it is a lone pointer, a name in full without NUL in a label, or such labels and a pointer whose low byte is 0 |
| `DnsAnswer.PointerShiftsByOne` | dnsresolverlab-handout/resolver.c:413-421 | with any other pointer after labels the walk is off by one at an address or an alias |
| `DnsAnswer.ShiftedOwner` | dnsresolverlab-handout/resolver.c:413-421 | such an owner name |
| `DnsAnswer.OwnerLength` | dnsresolverlab-handout/resolver.c:413-421 | the method computes this length |
| `DnsAnswer.ReadRecord` | dnsresolverlab-handout/resolver.c:409-442 | from a record boundary: the record's text, and the next boundary |
| `DnsAnswer.TypeByLowByte` | dnsresolverlab-handout/resolver.c:424-433 | only the low byte of the type counts: 5 reads the data as a name, any other value its first four bytes as an address |
| `DnsAnswer.TextIsMeaning` | dnsresolverlab-handout/resolver.c:424-433 | for an address of four bytes or an alias with low pointers the text is what RFC 1035 says |
| `DnsAnswer.ListSaysRecords` | dnsresolverlab-handout/resolver.c:400-442 | so it is for every record of a response |
| `DnsAnswer.BoundariesHold` | dnsresolverlab-handout/resolver.c:409-442 | each encoded record lies between its offset and the next |
| `DnsAnswer.LayoutHolds` | dnsresolverlab-handout/resolver.c:409-442 | the walk goes through these offsets, and finds each record's text |
| `DnsAnswer.Walk` | dnsresolverlab-handout/resolver.c:400-449 | the loop yields an acyclic null-terminated list of one entry a record, in order |
| `DnsAnswer.Answers` | dnsresolverlab-handout/resolver.c:390-450 | resolve's answer section: that list for any response with any number of readable records, and NULL exactly for none |
| `DnsAnswer.EncodedAnswers` | dnsresolverlab-handout/resolver.c:390-450 | a response encoded from any addresses and full aliases is readable, and the texts of its list are the dotted addresses and the lower-cased aliases, in order |
| `DnsAnswer.EncodedShape` | dnsresolverlab-handout/resolver.c:403-408 | such a response has its count and its answers where resolve looks |
| `ProxyRequest.RewriteIsForwarded` | proxylab-handout/proxy.c:90-199 | every well-formed absolute-form GET with a slash after the authority and no colon in the host becomes: the path, the headers not dropped in order, the bare host line if there is no Host header, the proxy's own headers, a blank line |
| `ProxyRequest.ForwardedLines` | proxylab-handout/proxy.c:136-185 | the lines that the server reads are exactly these |
| `ProxyRequest.EndsWithBlankLine` | proxylab-handout/proxy.c:184-185 | the request ends with a blank line |
| `ProxyRequest.BlankLineExactly` | proxylab-handout/proxy.c:256 | the request is taken to be complete if and only if the two line ends in a row stand somewhere in it, at its very start as well |
| `ProxyRequest.EndsAtBlankLine` | proxylab-handout/proxy.c:256 | of a well-formed request no shorter part contains a blank line |
| `ProxyRequest.RewriteRightExactly` | proxylab-handout/proxy.c:108-126 | a request in absolute form, for a name, an address or a bracketed IP literal, is rewritten as it should if and only if a slash follows the authority and the host has no colon; otherwise host or port come out wrong, or parse follows a null pointer |
| `ProxyRequest.AnyMethod` | proxylab-handout/proxy.c:95-107 | whatever the method and the scheme, a request is forwarded as the GET of http with the same rest is, but with its own method: both are reported and not refused |
| `ProxyRequest.NoSlashFailsExactly` | proxylab-handout/proxy.c:108-126 | with a version of the form name, slash, number, parse follows a null pointer if and only if neither a slash follows the authority nor a query there has one |
| `ProxyRequest.ScanExactly` | proxylab-handout/proxy.c:145-148 | the header loop goes through if and only if every line has a colon |
| `ProxyRequest.HeadersDecideExactly` | proxylab-handout/proxy.c:124-148 | with a good request line, parse succeeds on any headers if and only if each of their lines has a colon |
| `ProxyRequest.DroppedExactly` | proxylab-handout/proxy.c:150-163 | a client header is dropped if and only if the proxy writes one of that name itself |
| `ProxyRequest.KeptExactly` | proxylab-handout/proxy.c:145-173 | each client header is forwarded as often as it came, or never if the proxy writes one of that name itself |
| `ProxyRequest.KeptInOrder` | proxylab-handout/proxy.c:145-173 | headers are forwarded in order |
| `ProxyRequest.OneOfEachExactly` | proxylab-handout/proxy.c:150-184 | exactly one header of each of the proxy's own names goes out if and only if the client wrote that name in the usual case, if at all |
| `ProxyRequest.ScanLines` | proxylab-handout/proxy.c:143-173 | the header loop on rendered headers keeps exactly the lines not dropped |
| `ProxyRequest.RewriteFree` | proxylab-handout/proxy.c:90-199 | a request without NUL is rewritten into one without |
| `ProxyRequest.CopyHeaders` | proxylab-handout/proxy.c:143-173 | the loop appends the kept lines, or meets a line without a colon |
| `ProxyRequest.Parse` | proxylab-handout/proxy.c:90-199 | the method computes the specified rewriting, host and port, and fails exactly where the code follows a null pointer |
| `ProxyConnections.RunInv` | proxylab-handout/proxy.c:49-74 | the invariant on descriptors and streams holds in every state of every run, for any number of connections, any event order and any short read, short write or EAGAIN |
| `ProxyConnections.ReadClientFine` | proxylab-handout/proxy.c:251-304 | reading a request keeps the connection good and leaves all others alone |
| `ProxyConnections.WriteServerFine` | proxylab-handout/proxy.c:306-347 | so does sending it |
| `ProxyConnections.ReadServerFine` | proxylab-handout/proxy.c:349-389 | so does reading the response |
| `ProxyConnections.WriteClientFine` | proxylab-handout/proxy.c:391-427 | so does sending it back |
| `ProxyConnections.AcceptKeepsInv` | proxylab-handout/proxy.c:507-531 | accepting keeps the invariant and every record there was |
| `ProxyConnections.DescriptorsDistinct` | proxylab-handout/proxy.c:63-74 | in every run the descriptors in the records are open and pairwise distinct, though numbers are used again |
| `ProxyConnections.RunFindsOwner` | proxylab-handout/proxy.c:544-551 | in every run find_fd finds the record that owns the descriptor of an event, so the exit at 550 is not taken |
| `ProxyConnections.FindsOwner` | proxylab-handout/proxy.c:63-74 | find_fd yields a record if and only if the kernel's socket behind the descriptor is that record's |
| `ProxyConnections.EventIsLocal` | proxylab-handout/proxy.c:542-569 | an event changes no other connection's record or sockets, its own record only advances, and no socket loses anything read or written |
| `ProxyConnections.AcceptIsLocal` | proxylab-handout/proxy.c:507-531 | accepting changes no record and no socket |
| `ProxyConnections.DispatchDrains` | proxylab-handout/proxy.c:251-427 | as edge-triggered monitoring demands, an event takes a connection one state on, or leaves its work incomplete at a call that would block, or at the end of the kernel's script |
| `ProxyConnections.ClosedClientSpins` | proxylab-handout/proxy.c:256-280 | for a client that closed before its blank line no number of reads ends the loop of read_client or changes anything |
| `ProxyConnections.StaysUp` | proxylab-handout/proxy.c:306-427 | once its request is parsed, a connection ends the process only by a hard error of a system call |
| `ProxyConnections.AcceptTakesAll` | proxylab-handout/proxy.c:507-531 | the accept loop makes a record for each client offered, and overflows the array of 512 if and only if there are more than fit |
| `ProxyConnections.StreamsArePrefixes` | proxylab-handout/proxy.c:251-427 | what the server was sent is a prefix of the rewriting of what the client sent, what the client was sent is a prefix of what the server sent, the first complete once the response is being read and the second in the final state |
| `ProxyConnections.EndToEnd` | proxylab-handout/proxy.c:251-427 | for a client that sends one well-formed request, to a host without colons, the server is sent a prefix of its forwarded form; in the final state all of it, and the client all that the server sent |
| `ProxyConnections.ReadClientAsks` | proxylab-handout/proxy.c:282-301 | when reading is over, the buffer for the server holds the rewriting of what was read |
| `ProxyConnections.ErrorLeavesStale` | proxylab-handout/proxy.c:492-500 | after an error event on a connection's descriptor find_fd still finds its record, which names the closed descriptor |
| `ProxyConnections.ErrorKeepsExactly` | proxylab-handout/proxy.c:492-500 | after an error event on an open descriptor every descriptor in a record is open, distinct and found by find_fd if and only if the event was the listening socket's |
| `ProxyConnections.EventRunExactly` | proxylab-handout/proxy.c:474-500 | in a run with error events the records are good in every state if and only if no error is reported on a socket other than the listening one |
| `ProxyConnections.ReuseRun` | proxylab-handout/proxy.c:492-531 | a run of three events after which two records hold the same descriptor and find_fd picks the one that does not own it |
| `ProxyConnections.ErrorThenReuse` | proxylab-handout/proxy.c:492-531 | when the number is used for the next client, find_fd yields the old record for the new client's events |
| `ProxyProgress.ReadClientExactly` | proxylab-handout/proxy.c:251-304 | reading a request stops after the first calls that complete it, fail or block, and then: the process ends if and only if that call fails hard, the complete request cannot be parsed or the kernel gives no usable descriptor for the server; a complete request goes to WRITE_SERVER with the new descriptor and the rewriting; an incomplete one keeps what was read |
| `ProxyProgress.StopsOnce` | proxylab-handout/proxy.c:256-280 | there is only one place where it can stop |
| `ProxyProgress.SinglesAdvance` | proxylab-handout/proxy.c:251-280 | reads of one byte each get to any place in the stream |
| `ProxyProgress.Asks` | proxylab-handout/proxy.c:251-304 | a client that sends a well-formed GET for a host without colons gets to WRITE_SERVER with the forwarded request |
| `ProxyProgress.Served` | proxylab-handout/proxy.c:251-427 | for every such request and every response, a run that ends in the final state with the whole forwarded request sent to the server and the whole response sent to the client |
| `ProxyCalls.WriteServerExactly` | proxylab-handout/proxy.c:306-347 | for any results of the writes: the process ends if and only if a write fails hard with bytes of the request left; with none left the connection goes to READ_SERVER, and otherwise counts what was taken |
| `ProxyCalls.ReadServerExactly` | proxylab-handout/proxy.c:349-389 | for any results of the reads: the process ends if and only if a read fails hard; a read at the end of the response closes the server's descriptor and leads to WRITE_CLIENT with the whole response; otherwise the record has what was read |
| `ProxyCalls.WriteClientExactly` | proxylab-handout/proxy.c:391-427 | for any results of the writes: the process ends if and only if a write fails hard with bytes of the response left; with none left the client's descriptor is closed and the connection is done, and otherwise counts what was taken |
| `ProxyRecords.Request.constructor` | proxylab-handout/proxy.c:49-61 | an empty record with the client's descriptor |
| `ProxyRecords.Request.ReadClient` | proxylab-handout/proxy.c:251-304 | the buffers, counters and kernel on return are those of the specification, for any kernel behaviour; false exactly where the process ends |
| `ProxyRecords.Request.WriteServer` | proxylab-handout/proxy.c:306-347 | likewise |
| `ProxyRecords.Request.ReadServer` | proxylab-handout/proxy.c:349-389 | likewise |
| `ProxyRecords.Request.WriteClient` | proxylab-handout/proxy.c:391-427 | likewise |
| `ProxyRecords.Proxy.constructor` | proxylab-handout/proxy.c:429-469 | no records; only the listening descriptor is open |
| `ProxyRecords.Proxy.FindFd` | proxylab-handout/proxy.c:63-74 | the loop finds the first record with the descriptor |
| `ProxyRecords.Proxy.HandleReady` | proxylab-handout/proxy.c:542-569 | the array of records and the kernel change as the specification of one event says; false exactly where the process ends |
| `ProxyRecords.Proxy.HandleAccept` | proxylab-handout/proxy.c:507-531 | the loop over accept adds the records that the specification says |

## Left out

- Starvation and fairness: only safety, and that some thread can go on, are claimed.
- Counter overflow: `front`, `rear` and `size` are unbounded; the code's are `int`, so the theorems speak of runs of fewer than 2^31 operations.
- Negative object sizes: `size` in the cache is a natural number.
- CacheLock.CacheRecord.constructor: `first-proxylab-handout/cache.c:9` allocates n times the size of a pointer, less than n objects; the model's buffer has room for n.
- What `cache_find_object` finds: its scan (`first-proxylab-handout/cache.c:53-60`) starts at slot 0, which is never filled before a wrap, and stops before the newest entry; once anything is stored it compares the null url of slot 0. The scan is one program counter that reads the buffer. `readers` is a function static, so there is one cache.
- BoundedBuffer.Sbuf.Insert: one thread's call at a time; interleaving is the state machine's matter. The same holds of `CacheLock.CacheRecord.Insert`.
- The rest of `eval` and `do_bgfg`: printing, exec, process groups, and the width of `int`: `atoi` is taken to give the number itself.
- Signals to the foreground group: the choice of the group is modelled, the effect is any change of state of any child.
- ParseLine.ParseCommand: the line is not empty, fits MAXLINE, and has fewer than MAXARGS arguments; the code checks none of this.
- Sio.Ltoa: the `int` index of the digits; the buffer is assumed long enough, which `Sio.LongFits` shows for the caller's.
- Rio.Echo: the two wrappers that end the process on an error are the result false.
- The root name, and trailing or doubled dots in queries: `strlen + 2` is then not the encoded size (`DnsName.WireSizeExactly`); the delimiter array of `strtok` is taken to be the one dot although line 169 does not terminate it.
- DnsCodec.NameFromWire: the name is not the root, has no NUL, fits the 65536 bytes of the buffer, and its pointers, as read, lead strictly backwards; label lengths of 64 to 191 are malformed, as in RFC 1035.
- DnsAnswer.Answers: records the code can read; any type whose low byte is not 5 is taken for an address, and the datagram's length is ignored, as in the code. Nothing about memory release.
- DnsAnswer.Walk: owner names are those that lines 414-421 measure rightly, which `DnsAnswer.OwnerLengthExactly` describes.
- Sockets, getaddrinfo, epoll registration, logging, timeouts and files.
- Default ports: line 191 of the proxy only changes a local pointer.
- ProxyRequest.Rewrite: strings without NUL; the cuts that `strtok` and `parse` make in their own copy of the request are not modelled in place.
- ProxyRecords.Request.ReadClient: what the client sends, and its rewriting, fit the buffers; so does what the server sends in `ProxyRecords.Request.ReadServer`.
- ProxyConnections.RunInv: one event at a time, for a descriptor that is open, and at most 512 connections: the array never shrinks. Batches, in which an earlier event closes the descriptor of a later one, are not modelled. The buffers are unbounded: this and the other theorems of `ProxyConnections` speak of runs in which requests, their rewritings and responses fit 102400 bytes.
- ProxyConnections.DispatchDrains: for a client that closes before its blank line, where `read_client` loops for ever and no other connection is served, the model's handler returns when the kernel's script is used up (`ProxyConnections.ClosedClientSpins`); runs are those in which no client does so.
- `rr_from_wire`, `rr_to_wire`, `swap_bytes_in_short`, `print_bytes`, the error wrappers of `csapp.c`, the copies of `csapp.c` and `sbuf.c`, the other request handling, the web server, the Mandelbrot program and the grading scripts.
