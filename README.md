# lua-santoku-system: verified model of the decision and marshalling core

`santoku.system` is a Lua 5.1 binding of POSIX process and I/O calls. Around
the system calls sits a thin layer of C logic that decides what to do with
their results and converts between Lua values and C structures. This project
models that layer in Dafny and proves what it promises. The layer comes from
two files, `lib/santoku/system/posix.c` and `lib/santoku/system/posix/poll.c`.

- **Process functions** (`process.dfy`, `wait_status.dfy`, `proc_status.dfy`, `decimal.dfy`):
  - `tk_lua_checkunsigned` validates an argument.
  - `tk_execp` builds the argument vector it passes to `execvp`.
  - `tk_fork` applies the orphan-race rule in the child: the parent pid is read
    again after `prctl(PR_SET_PDEATHSIG)` and compared with the pid taken
    before the fork.
  - `tk_wait` classifies the wait status.
  - `tk_ppid` reads `/proc/<pid>/status` and parses the `PPid:` line out of it.
- **Synchronisation** (`sync.dfy`): the shared counter of `tk_atom`, with its
  optional throttle, and the mutex of `tk_mutex`. Each is a class whose
  semaphore is one count field. A ghost trace records the wait, post, clock
  and sleep steps taken.
- **`poll`** (`poll_events.dfy`, `poll.dfy`): conversion between event masks
  and tables of six booleans, the checks on the descriptor table, and filling
  the `struct pollfd` array in traversal order. When some descriptor is ready,
  each entry's `revents` is written back into its table. Also modelled: the
  result convention (`-1` becomes `nil, message, errno`), the argument-count
  check and the optional integer timeout.
- **The Lua runtime** (`lua.dfy`): the part the core sees.
  - Values, type names and truthiness.
  - Tables as objects in a heap, owned by a `LuaState` class and updated in
    place by `lua_createtable`/`lua_setfield`.
  - The ways a C function fails: an argument error, `luaL_error`, and the
    `santoku.error` module's `error`.

Every system call is an input of the member that models its caller: `fork`,
`prctl`, `getpid`, `waitpid`, `execvp`, `poll`, the clock, and the bytes
`fread` returns. `errno` and its `strerror` text are inputs too. The order in
which `lua_next` visits a table is an input sequence of keys; `IsTraversal`
states what such an order must satisfy.

## Model

| member | source | states |
|---|---|---|
| Lua.ToCInt | lib/santoku/system/posix/poll.c:37 | the `(int)` narrowing: the result is a 32-bit C `int`, congruent to the value modulo 2^32 |
| Process.CheckUnsigned | lib/santoku/system/posix.c:35-43 | accepted exactly when the argument is a number in 0..UINT_MAX, and then returned unchanged; otherwise a type error, else "value can't be negative" (tested first), else "value is too large" |
| Process.BuildArgv | lib/santoku/system/posix.c:129-138 | succeeds exactly when every element is a string or number; the vector has n + 2 slots: the path, the converted elements in order, NULL; on failure the error names the type of the first bad element |
| Process.Execp | lib/santoku/system/posix.c:125-141 | replaces the image exactly when the program is string-like, the second argument is a table, all elements are string-like and `execvp` succeeds; the program and argv are those built; argument errors for a bad path (index -2), a non-table (index -1), and "string expected, got <type>" for the first element that is not string-like; a failing `execvp` always raises its errno error |
| Process.Fork | lib/santoku/system/posix.c:143-163 | fork failure and prctl failure raise the errno error; the parent returns the child's pid; the child returns 0 when the parsed parent pid equals the pid before the fork, raises "parent exited before prctl" when it differs, and raises an argument error when nothing was parsed |
| Process.ChildRunsOnlyUnderItsParent | lib/santoku/system/posix.c:155-161 | a child result of 0 implies fork returned 0, prctl succeeded, and the status file parses to the original parent's pid |
| Process.ForkChildOutcome | lib/santoku/system/posix.c:155-162 | for a status file whose `PPid:` line carries pid p, the child continues exactly when p is the original parent, else raises the orphan error |
| WaitStatus.Classify | lib/santoku/system/posix.c:181-202 | the branches in order exited, signaled, stopped, continued, unknown, with code and signal ranges; unknown keeps the raw status as a C int |
| WaitStatus.TestsExclusive | lib/santoku/system/posix.c:181-202 | no status passes two of the four tests, so exactly one branch applies |
| WaitStatus.UnknownExactly | lib/santoku/system/posix.c:198-201 | the unknown branch is taken exactly for low byte 0xff other than the continued status |
| WaitStatus.ExitedRoundTrip | lib/santoku/system/posix.c:183-186 | an exit code 0..255 is reported back as exited with that code |
| WaitStatus.SignaledRoundTrip | lib/santoku/system/posix.c:187-190 | a terminating signal 1..126, with or without core dump, is reported back as signaled with that signal |
| WaitStatus.StoppedRoundTrip | lib/santoku/system/posix.c:191-194 | a stop signal is reported back as stopped with that signal |
| WaitStatus.ContinuedRoundTrip | lib/santoku/system/posix.c:195-197 | the continued status is reported as continued |
| WaitStatus.Wait | lib/santoku/system/posix.c:175-203 | fails exactly when waitpid returned -1, with the errno error; otherwise the values of each branch: (pid, "exited", code), (pid, "signaled", sig), (pid, "stopped", sig), (pid, "continued"), ("unknown", status) |
| WaitStatus.WaitReportsPid | lib/santoku/system/posix.c:182-201 | the pid is the first result exactly when the status is not unknown |
| ProcStatus.Target | lib/santoku/system/posix.c:222-223 | an absent or negative argument targets the calling process; a non-negative one that fits `pid_t` is used as given |
| ProcStatus.StatusPathFits | lib/santoku/system/posix.c:226-228 | "/proc/%u/status" of any pid fits the 32-byte buffer with its NUL |
| ProcStatus.ReadBuffer | lib/santoku/system/posix.c:231-236 | the buffer holds the first min(length of the file, 2*BUFSIZ-1) bytes of the file |
| ProcStatus.ShortFileReadWhole | lib/santoku/system/posix.c:231 | a file no longer than 2*BUFSIZ-1 bytes is read whole |
| ProcStatus.CString | lib/santoku/system/posix.c:236-240 | the C string is the longest NUL-free prefix of the buffer |
| ProcStatus.FindFrom | lib/santoku/system/posix.c:240 | `strstr` gives the first occurrence of the pattern, or none when it occurs nowhere |
| ProcStatus.FindNoneExactly | lib/santoku/system/posix.c:240 | the search finds nothing exactly when the pattern occurs nowhere |
| ProcStatus.NoResultExactly | lib/santoku/system/posix.c:229-251 | no result exactly when nothing was read or "\nPPid:" does not occur before the first NUL |
| ProcStatus.StoreInt | lib/santoku/system/posix.c:242 | what `%d` stores into `int ppid`: always a C `int`; the numeral itself when it fits; congruent to it modulo 2^32 within the range of `long` |
| ProcStatus.ParseStatus | lib/santoku/system/posix.c:240-247 | a parsed parent pid is always a C `int`; an empty read gives no result |
| ProcStatus.ParseStatusRoundTrip | lib/santoku/system/posix.c:240-247 | a status text whose first "\nPPid:" is followed by white space and a `%d` numeral parses to that numeral as stored into an `int`, and to the numeral itself when it fits an `int` |
| Decimal.ScanIntOfIntToString | lib/santoku/system/posix.c:242 | `%d` reading, after white space and before a non-digit, inverts `%d` writing for every integer |
| Decimal.NatToStringValue | lib/santoku/system/posix.c:228 | the `%u` numeral of n has value n |
| Sync.ThrottleDelay | lib/santoku/system/posix.c:296-300 | sleeps exactly when less than `throttle` has passed since `last`, for a positive time that ends at `last + throttle` |
| Sync.ThrottleSpacing | lib/santoku/system/posix.c:289-308 | if the clock honours the sleep, the stored time is at least `throttle` after the previous one |
| Sync.IncrementStepsLock | lib/santoku/system/posix.c:285-320 | an increment waits once; it posts once, leaving the lock free, exactly when no call under the lock raised, and otherwise leaves the lock held |
| Sync.HeldLockBlocksNextWait | lib/santoku/system/posix.c:287 | after a call that left the lock held, the next `sem_wait` never returns |
| Sync.ClockRaiseBlocksNextIncrement | lib/santoku/system/posix.c:287-293 | a throttled increment whose first clock reading raises leaves the lock held, so the next increment's wait never returns |
| Sync.ReleasingIncrementBalanced | lib/santoku/system/posix.c:285-320 | an increment that posts before passing on a raise is a balanced critical section on every path |
| Sync.BalancedAppend | lib/santoku/system/posix.c:287-319 | balanced calls compose into a balanced history |
| Sync.Counter.constructor | lib/santoku/system/posix.c:326-377 | value = def (default 1), last = 0, throttle default -1, semaphore free |
| Sync.Counter.Increment | lib/santoku/system/posix.c:279-324 | when no clock or sleep call raises: returns the old value, value grows by `inc` (default 1), `last` becomes the second clock reading when throttled and is unchanged otherwise, and the semaphore is free again; when one raises: that error, value and `last` unchanged, and the semaphore left held; the steps are appended either way |
| Sync.Counter.IncrementReleasing | lib/santoku/system/posix.c:279-324 | the same results and new value and `last` as Increment, with the semaphore free after every call, raise or not |
| Sync.IncrementMany | lib/santoku/system/posix.c:313-320 | n unit increments return v0, v0+1, ..., v0+n-1 and leave v0+n |
| Sync.Mutex.constructor | lib/santoku/system/posix.c:415-443 | a new mutex's semaphore is free (count 1) with an empty history |
| Sync.WithLockStepsLock | lib/santoku/system/posix.c:402-413 | a mutex call leaves the lock held exactly when loading `santoku.error` raised, and free otherwise |
| Sync.LoadErrorBlocksNextLock | lib/santoku/system/posix.c:407-409 | after a call whose loading of `santoku.error` raised, the next call's wait never returns |
| Sync.ReleasingWithLockBalanced | lib/santoku/system/posix.c:402-413 | a mutex call that posts before passing on a load failure is a balanced critical section on every path |
| Sync.Mutex.WithLock | lib/santoku/system/posix.c:402-413 | with no arguments, no results and no semaphore step; otherwise wait; if loading `santoku.error` raises, that error with the semaphore left held; else run the body protected, post, then return its results or re-raise its error, with the semaphore free |
| PollEvents.EventsFromTable | lib/santoku/system/posix/poll.c:135-153 | the loop returns the OR of the mapped bits whose named fields are true |
| PollEvents.EventsOfBit | lib/santoku/system/posix/poll.c:112-153 | a bit is in the read mask exactly when the field of its name is neither nil nor false |
| PollEvents.EventsOfWithin | lib/santoku/system/posix/poll.c:135-153 | only the six mapped bits can appear |
| PollEvents.WriteFlagsField | lib/santoku/system/posix/poll.c:155-168 | each of the six names receives whether its bit is set |
| PollEvents.WriteFlagsOther | lib/santoku/system/posix/poll.c:155-168 | every other field is left as it was |
| PollEvents.WriteFlagsKeepsFields | lib/santoku/system/posix/poll.c:155-168 | the "events" and "revents" fields are not touched |
| PollEvents.EventsRoundTrip | lib/santoku/system/posix/poll.c:135-168 | reading back a written mask gives the mask restricted to the six named bits |
| PollEvents.EventsToTable | lib/santoku/system/posix/poll.c:155-168 | the new heap is the old one with the flags of the mask written into the table |
| Sync.Mutex.WithLockReleasing | lib/santoku/system/posix.c:402-413 | the same results as WithLock, with the semaphore left as it was found after every call |
| Poll.ExpectOptInteger | lib/santoku/system/posix/poll.c:62-83 | none or nil gives the default and an integer its value; anything else raises "<expected> expected, got <type>" against the argument |
| Poll.OptInt | lib/santoku/system/posix/poll.c:37 | accepted exactly when ExpectOptInteger accepts; the value is the accepted integer narrowed to a C int, and an error is ExpectOptInteger's error |
| Poll.TimeoutArgument | lib/santoku/system/posix/poll.c:291 | a missing or nil timeout is -1; one that fits an int is passed as given |
| Poll.CheckNargs | lib/santoku/system/posix/poll.c:103-110 | an error exactly when there are more than maxargs arguments, raised against argument maxargs+1 |
| Poll.PollNargsMessage | lib/santoku/system/posix/poll.c:103-110 | three arguments to `poll` give "no more than 2 arguments expected, got 3" |
| Poll.SingularNargsMessage | lib/santoku/system/posix/poll.c:106-107 | with a limit of 1 the message reads "argument", not "arguments" |
| Poll.PushError | lib/santoku/system/posix/poll.c:85-94 | nil, the errno description (after "info: " when given), and errno |
| Poll.PushResult | lib/santoku/system/posix/poll.c:96-101 | -1 gives the error triple, anything else the single integer |
| Poll.PushResultShape | lib/santoku/system/posix/poll.c:96-101 | the first result is nil exactly when the call returned -1, and there are 3 results then, 1 otherwise |
| Poll.TraversalCount | lib/santoku/system/posix/poll.c:180-209 | a traversal visits as many keys as the table has entries |
| Poll.FirstProblemSpec | lib/santoku/system/posix/poll.c:180-209 | no problem exactly when no entry has one; a problem found is that of the first bad entry in traversal order |
| Poll.FdTableCheckOk | lib/santoku/system/posix/poll.c:170-211 | the check passes exactly when argument 1 is a table whose every value is a table with a table "events" and a nil-or-table "revents", and then returns the entry count |
| Poll.CheckFdTable | lib/santoku/system/posix/poll.c:170-211 | the loop computes the check: a non-table argument, the first bad entry's message, or the count |
| Poll.FdListFromTable | lib/santoku/system/posix/poll.c:213-246 | slot j gets the j-th key as its descriptor and the j-th entry's events mask; slots past the count are untouched |
| Poll.SysPoll | lib/santoku/system/posix/poll.c:301 | the kernel's revents land in the first nfds slots, and nothing else changes |
| Poll.WriteEntryRevents | lib/santoku/system/posix/poll.c:265-283 | one entry: a nil "revents" is replaced by a new table, then the six flags of the revents are written into it |
| Poll.FdListToTable | lib/santoku/system/posix/poll.c:248-285 | the heap becomes the write-back of slot j's revents into entry j, for every entry in traversal order |
| Poll.WriteBackGrows | lib/santoku/system/posix/poll.c:248-285 | the write-back only adds tables, numbered from the old `next`, and keeps every "revents" field nil or a table |
| Poll.WriteBackFrame | lib/santoku/system/posix/poll.c:248-285 | tables other than the entries and their "revents" tables are unchanged |
| Poll.WriteBackRevField | lib/santoku/system/posix/poll.c:265-276 | an entry's "revents" field either keeps its value or goes from nil to a table created by the write-back |
| Poll.WriteBackKeeps | lib/santoku/system/posix/poll.c:248-285 | a table that is neither an entry with a nil "revents" nor any entry's "revents" table keeps all its fields |
| Poll.WriteBackReports | lib/santoku/system/posix/poll.c:248-285 | for unshared entries, entry j ends with a "revents" table whose six flags are slot j's bits; its "events" field is unchanged; an existing "revents" table is reused and a missing one is created |
| Poll.PollEntries | lib/santoku/system/posix/poll.c:294-305 | the descriptors and masks given to `poll`, in traversal order; the heap is written back when the result is positive and is otherwise unchanged |
| Poll.Poll | lib/santoku/system/posix/poll.c:287-308 | the three checks in order, each error leaving the heap alone and making no call; otherwise the call with its fds and timeout, the result convention, and the write-back only when r > 0 |
| Poll.PollKeepsFdTable | lib/santoku/system/posix/poll.c:294-305 | unless an entry writes into argument 1's own table, the write-back leaves that table, and so the keys its traversals visit, as it was |
| Poll.PollReportsRevents | lib/santoku/system/posix/poll.c:301-305 | after a call that passes the checks and whose entries share no tables, a write-back leaves every entry reporting its kernel revents, with "events" unchanged |

## Left out

- System calls, clocks and the `santoku.*` modules called through `tk_lua_callmod`: their results are inputs. These are `fork`, `prctl`, `getpid`, `waitpid`, `execvp`, `poll`, `fopen`/`fread`, `santoku.utc.time`, `santoku.system.sleep`, `santoku.error.pcall`/`checkok` and `santoku.random.str`. The thin wrappers (`read`, `setenv`, `dup2`, `pipe`, `close`, `get_num_cores`, `pid`) are not modelled.
- The Lua value stack: arguments and results are sequences of values, not stack positions. Metatables and `__gc` destructors are not modelled, and neither is `luaopen_*` registration.
- Lua numbers are idealised to integers. So `lua_Number` is not a double, and the conversion of numeric strings by `lua_tonumber`/`luaL_checkinteger`/`lua_tointeger` is not modelled (so Poll.FdOfKey gives 0 for a numeric-string key such as "3", where the source polls descriptor 3). Neither is the rejection of non-integral numbers in `tk_system_tointegerx`.
- The counter's `value`, `last` and `throttle` are reals, not IEEE doubles. `luaL_optnumber`'s type errors for a non-number `def`, `throttle` or `inc` are not modelled.
- `tk_sleep`'s split into `sleep` and `usleep` is floating-point code and is not modelled.
- Creating and unlinking the shared-memory object and the semaphores is not modelled. That covers their random names and 33-byte name buffers, the failure paths of `shm_open`, `ftruncate`, `mmap` and `sem_open`, and the `destroy` functions. The unused `last` field of `tk_atom_t` is not modelled either.
- Concurrency between processes sharing a counter or mutex: the model covers one caller's sequential effect, starting from a free lock. `Sync.HeldLockBlocksNextWait` states what follows when a raise left it held.
- Sync.Mutex.WithLock: the body and its outcome are an input, so the body's own effects are not modelled. `sem_wait`'s result is not checked by the source and is not modelled (an interrupted wait is taken as acquired). A failure of `checkok` itself (after the post) is not modelled. As in the source, a failure to load `santoku.error` after the wait leaves the semaphore held; Sync.Mutex.WithLockReleasing is the version that releases it (see Findings).
- Sync.Counter.Increment: `sem_wait`'s result is not checked by the source and is not modelled. The clock readings are inputs already converted by `lua_tonumber`, so a non-number clock result (which reads as 0) is folded into the input. A failure of `require` while loading the clock or sleep module is modelled as that call raising. As in the source, a raise from the clock or the sleep leaves the semaphore held; Sync.Counter.IncrementReleasing is the version that releases it (see Findings).
- `tk_ppid`'s file-handling error paths are not modelled. These are a failing `fopen`, which leaves `buf` uninitialised and calls `fclose(NULL)`, and the value returned when `sscanf` converts nothing. The parse works on the bytes `fread` returned.
- Process.Fork: when `tk_ppid` pushes nothing, `luaL_checkinteger(L, -1)` reads past an empty stack. Which slot that reads depends on the Lua implementation; the model raises an argument error against index -1.
- Process.Execp: the elements are given as `t[1] .. t[n]`, with `n` taken from `lua_objlen`; the border rule of `lua_objlen` is not modelled.
- Process.AsString: a number is written as its plain decimal numeral. Lua 5.1 formats it with "%.14g", which agrees only below 10^14 in magnitude; from 10^14 on the source passes exponent form (`100000000000000` becomes "1e+14") and the model does not.
- Process.BuildArgv: a number element is converted to a string by `luaL_checkstring` on its stack copy, and `lua_pop` then drops the only reference to that string. A garbage collection during a later element's conversion can free it before `execvp` reads it. The model's `argv[i]` is the converted text, which holds only when no collection runs in between. Strings taken from the table stay referenced by the table and are not at risk.
- Lua values have no userdata, thread or light-userdata variant, so type errors such as "table expected, got userdata" are not expressible.
- WaitStatus.Wait: the `luaL_checkinteger` check of the pid argument is not modelled, nor its narrowing to `int`; `waitpid`'s result is an input.
- Poll.WriteBackReports: proved only when no two entries share their table or "revents" table. With aliasing, a later write can overwrite an earlier entry's flags.
- Poll.PollEntries: when there are more than 16 descriptors, the `lua_newuserdata` allocation is modelled as a fresh array of that size; the allocation's effect on the Lua stack is not modelled.
- Poll: the three `lua_next` traversals are taken to visit the same keys in the same order, with the entries' values read from a snapshot taken when the call starts. `Poll.PollKeepsFdTable` shows this is exact unless an entry's value is argument 1's own table with a nil "revents" field, or an entry's "revents" table is argument 1's table. In those cases the write-back assigns a field of the table being traversed, and what `lua_next` then does is not modelled.

## Findings

| source | as written | input that shows it | evidently intended | confidence | as-written member | corrected member |
|---|---|---|---|---|---|---|
| lib/santoku/system/posix.c:287-310 | `santoku.utc.time` and `santoku.system.sleep` are called unprotected between `sem_wait` and `sem_post`, so a raise from either leaves the semaphore held | a counter with throttle 1 whose first clock call raises: the next increment's `sem_wait` never returns | the semaphore is posted on every exit, raise or not | high (not executed) | Sync.ClockRaiseBlocksNextIncrement | Sync.Counter.IncrementReleasing |
| lib/santoku/system/posix.c:402-413 | `require("santoku.error")` runs unprotected after `sem_wait`, so a failure to load it leaves the semaphore held | a mutex call whose loading of `santoku.error` raises: the next call's `sem_wait` never returns | the semaphore is posted on every exit | medium (not executed) | Sync.LoadErrorBlocksNextLock | Sync.Mutex.WithLockReleasing |

The corrected members are proved balanced on every path by Sync.ReleasingIncrementBalanced and Sync.ReleasingWithLockBalanced.
