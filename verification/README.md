# simplehealth, modelled in Dafny

A model of the health-check engine in `simplehealth.go`. The engine keeps a
registry of zero-argument checks. `Run` evaluates every registered check once,
concurrently, and returns every failure. The three built-in checks are:

- **open files**: no process outside the skip rules may use more than 90% of
  its soft descriptor limit. A process is skipped when its limit or its
  descriptor count cannot be read, when the limit is not positive, when the
  count is zero, or when it is a root process with a limit below 1024. The
  check reports the first offender only;
- **disk**: no partition may be 90% or more full, in bytes or in inodes.
  Loop and devfs devices and `/snap/` and `/boot` mountpoints are never looked
  at. Partitions whose usage cannot be read are skipped, and so is the inode
  test when `statfs` fails. The check reports the first offender only;
- **load**: the five-minute load average per CPU must not exceed 0.8.

The operating-system calls (process list, rlimits, descriptor counts, partitions,
usage, `statfs`, load average, CPU count) are replaced by a snapshot value,
`Stats.Host`, given to each check as input. A Go `error` is an
`Option<Stats.Failure>`: `None` means nil. `Failure` is a record of what the Go
error message identifies (pid/user/name and percentage, mountpoint and
percentage, per-CPU load), or the provider's own error for a dependency failure.

Modules, one per component:

- `Wrappers`: `Option` and `Result`.
- `Strings`: `Contains` (Go's `strings.Contains`).
- `Search`: the first-match search shared by the open-files and disk checks.
- `Stats`: the snapshot records, `Failure`, and unsigned 64-bit subtraction.
- `LoadCheck`, `OpenFilesCheck`, `DiskCheck`: the three checks.
- `Health`: the `Check` datatype, the `SimpleHealth` class (registry and runner)
  and the lemmas about what a run returns.

The two loop-based checks are methods with loops that follow the Go code:
`continue` on each skip rule and `return` at the first offender. Each is proved
equal to a function that states its verdict (`OpenFilesVerdict`, `DiskVerdict`), and the
lemmas state the properties of those functions. `Run` has two loops. The
fan-out loop evaluates each check once. The fan-in loop (`Collect`) takes the result of
*any* check that has not reported yet (a nondeterministic choice). This stands
in for the completion order of the goroutines. Its postcondition is a multiset
equality, so it holds for every arrival order.

Two facts about the code that the model keeps:

- The default registry order is open files, disk, load (`simplehealth.go:29-33`).
  Order has no effect on the multiset of failures.
- The disk byte test `UsedPercent >= 90` is inclusive, so exactly 90% fails
  (`simplehealth.go:184`).

## Model

| member | source | states |
|---|---|---|
| `Strings.Contains` | simplehealth.go:172-174 | true exactly when the substring occurs at some position of the string |
| `Stats.Sub64` | simplehealth.go:194 | the uint64 difference: it plus the subtrahend is the minuend modulo 2^64; it is the plain difference when no wrap occurs and exceeds the minuend when it wraps |
| `Search.FirstSome` | simplehealth.go:110-162 | the first-match loop (also the partition loop at lines 171-201) as a definition: the report of the earliest item that reports anything, nil when none does (its properties are the `FirstSome…` lemmas below) |
| `OpenFilesCheck.Skipped` | simplehealth.go:115-155 | a process is skipped when its rlimit is unreadable, its soft limit is not positive, it is root with soft < 1024, or its fd count is unreadable or zero; otherwise both readings are present and positive |
| `OpenFilesCheck.EvaluatedUnlessSkipRule` | simplehealth.go:115-155 | a process with a readable positive soft limit, a readable non-zero fd count, and not root below 1024, is not skipped |
| `OpenFilesCheck.ProcessOutcome` | simplehealth.go:115-160 | a process fails iff it is not skipped and 10·cur > 9·soft, and then it reports `OpenFilesFailure` for itself |
| `OpenFilesCheck.OpenFilesVerdict` | simplehealth.go:104-163 | a listing error is the verdict; otherwise the verdict is a failure of some process in the list |
| `DiskCheck.Excluded` | simplehealth.go:172-176 | a partition is excluded iff its device contains loop or devfs, or its mountpoint contains /snap/ or /boot |
| `DiskCheck.UsedInodes` | simplehealth.go:194 | `Files-Ffree` in uint64: the plain difference when Ffree ≤ Files, larger than Files when it wraps |
| `DiskCheck.PartitionOutcome` | simplehealth.go:178-199 | an excluded partition or one with unreadable usage never fails; a kept partition with readable usage ≥ 90 fails with `DiskBytesFull` for its mountpoint and that percentage; below 90 with `statfs` failing it passes; any failure names the mountpoint with a percentage of at least 90, and an inode failure needs bytes below 90 |
| `DiskCheck.DiskVerdict` | simplehealth.go:165-202 | a listing error is the verdict; otherwise the verdict is a failure of some partition in the list |
| `Health.DefaultChecks` | simplehealth.go:29-33 | the default registry holds exactly the open-files, disk and load checks, in that order |
| `Health.Outcome` | simplehealth.go:77-80 | a custom check returns what the snapshot says; each built-in check reports only a dependency error or its own kind of threshold failure |
| `Health.Outcomes` | simplehealth.go:77-80 | the results the fan-out sends: one evaluation of each registered check, in registry order |
| `Health.Failed` | simplehealth.go:83-87 | the non-nil results in registry order; there are never more of them than results |
| `Search.FirstSomeNone` | simplehealth.go:110-162 | a first-match search passes iff no item reports a failure |
| `Search.FirstSomeFirst` | simplehealth.go:157-160 | a failing first-match search returns the report of an item before which no item reports anything |
| `Search.FirstSomeAppend` | simplehealth.go:158-160 | after the first match nothing more is examined; with no match in a prefix, the search continues with the suffix |
| `Search.FirstSomeStep` | simplehealth.go:110-161 | after a silent prefix, a silent item extends it (the `continue` paths) and a reporting item decides the whole search (the early `return`) |
| `Search.SilentItemIrrelevant` | simplehealth.go:117 | inserting an item that reports nothing anywhere leaves the search result unchanged |
| `LoadCheck.CheckLoad` | simplehealth.go:92-101 | an unreadable load average is returned as the failure; otherwise fails iff load5 > 0.8 × numCPU (strict), reporting the per-CPU load |
| `LoadCheck.LoadMonotone` | simplehealth.go:98 | a higher load on fewer CPUs fails whenever a lower load on more CPUs fails |
| `LoadCheck.LoadBoundary` | simplehealth.go:98-100 | 1.6 on 2 CPUs (exactly 0.8) passes, 1.5 on 2 passes, 1.7 on 2 fails with 0.85 per CPU |
| `OpenFilesCheck.OpenFilesFailure` | simplehealth.go:157-159 | the failure names the process's pid, user and name, and its percentage is 100·cur/soft truncated |
| `OpenFilesCheck.CheckOpenFiles` | simplehealth.go:104-163 | returns the process-listing error as the failure, otherwise the first-match verdict over the process list |
| `OpenFilesCheck.OpenFilesFailsOnFirstOffender` | simplehealth.go:110-162 | the check fails iff some process offends, and then reports the first offender in list order |
| `OpenFilesCheck.LaterProcessesIgnored` | simplehealth.go:158-160 | processes after the first offender do not change the verdict |
| `OpenFilesCheck.SkippedProcessIrrelevant` | simplehealth.go:115-155 | a process skipped for an unreadable rlimit, soft ≤ 0, root with soft < 1024, or an unreadable or zero fd count never changes the verdict |
| `OpenFilesCheck.RootCarveOut` | simplehealth.go:126-150 | a root process with soft limit below 1024 never offends, whatever its descriptor count |
| `OpenFilesCheck.OpenFilesBoundary` | simplehealth.go:157-160 | the threshold is strict: 900/1000 passes, 950/1000 fails reporting 95%, and soft limit 0 is skipped |
| `OpenFilesCheck.OffendsMonotone` | simplehealth.go:157-158 | more open descriptors under the same limit keep an offender offending |
| `DiskCheck.PercentAtLeastNinety` | simplehealth.go:194-196 | the integer test 10·used ≥ 9·total implies the percentage 100·used/total is at least 90 |
| `DiskCheck.InodeOutcome` | simplehealth.go:193-199 | zero total inodes never fails; otherwise fails iff 10·(files−ffree) ≥ 9·files; a wrapped subtraction (ffree > files) always fails; a failure names the mountpoint with a percentage of at least 90 |
| `DiskCheck.CheckDisk` | simplehealth.go:165-202 | returns the partition-listing error as the failure, otherwise the first-match verdict over the partition list |
| `DiskCheck.DiskFailsOnFirstOffender` | simplehealth.go:171-201 | the check fails iff some partition is too full, and then reports the first such partition in list order |
| `DiskCheck.LaterPartitionsIgnored` | simplehealth.go:184-198 | partitions after the first offender do not change the verdict |
| `DiskCheck.ExcludedPartitionIrrelevant` | simplehealth.go:172-176 | a partition whose device contains loop or devfs, or whose mountpoint contains /snap/ or /boot, never changes the verdict, whatever its usage |
| `DiskCheck.BootIsExcluded` | simplehealth.go:173 | a mountpoint that starts with /boot is excluded |
| `DiskCheck.DiskBoundary` | simplehealth.go:184-186 | the byte test is inclusive: a partition at exactly 90% fails with its mountpoint and percentage; at 89.9% with half its inodes free it passes |
| `DiskCheck.InodeDecides` | simplehealth.go:188-199 | below 90% bytes the inode test decides: zero total inodes never fails, all inodes used always fails |
| `Health.Evaluate` | simplehealth.go:78-80 | one evaluation of a check returns that check's verdict on the host snapshot |
| `Health.SimpleHealth.constructor` | simplehealth.go:35-37 | a new engine holds the default checks: open files, disk, load |
| `Health.SimpleHealth.AddCheck` | simplehealth.go:39-41 | the registry becomes the old registry with exactly the new check appended |
| `Health.SimpleHealth.SetChecks` | simplehealth.go:43-45 | the registry becomes exactly the given list, possibly empty |
| `Health.SimpleHealth.Run` | simplehealth.go:73-90 | for every arrival order, the result is, as a multiset, exactly the non-nil results of evaluating each registered check once |
| `Health.Collect` | simplehealth.go:83-89 | for every arrival order, the collected failures are, as a multiset, exactly the non-nil results |
| `Health.PickAll` | simplehealth.go:77-83 | taking every position in order gives back all results |
| `Health.ReceiveOne` | simplehealth.go:83-87 | receiving one pending result moves its failure, if any, from the pending results to the collected ones |
| `Health.FailedAppend` | simplehealth.go:83-87 | collecting failures distributes over concatenation of results |
| `Health.FailedMembers` | simplehealth.go:84-86 | every failing result's failure is collected, and every collected failure comes from a failing result |
| `Health.FailedEmpty` | simplehealth.go:84-89 | nothing is collected iff every result is nil |
| `Health.FailedCount` | simplehealth.go:84-86 | the number of collected failures equals the number of failing results |
| `Health.FailedOrderIrrelevant` | simplehealth.go:75-87 | two arrival orders of the same results give the same multiset of failures |
| `Health.RunReportsEachFailingCheck` | simplehealth.go:73-90 | a run's result has one entry per failing check, contains each failing check's failure, and is empty iff every check passes (so an empty registry gives an empty result) |
| `Health.DefaultRunOutcomes` | simplehealth.go:29-33 | with the default registry the results are the open-files, disk and load verdicts |

## Left out

- `Handler` (`simplehealth.go:47-71`): writing the HTTP status and JSON body is transport plumbing.
- Goroutines and the buffered channel of `Run`: only the aggregate result is modelled. Arrival order is a nondeterministic choice in the collecting loop. A check that hangs, and so hangs the whole run, is not modelled.
- The stats-provider calls (`process.Processes`, `Rlimit`, `NumFDs`, `Username`, `Name`, `disk.Partitions`, `disk.Usage`, `syscall.Statfs`, `load.Avg`, `runtime.NumCPU`) are foreign OS introspection. They are replaced by the `Stats.Host` snapshot. All checks of one run read the same snapshot.
- Custom checks are arbitrary Go functions. A custom check is modelled as `Custom(id)`, and its outcome is read from the snapshot. Side effects of a custom check are not modelled.
- Message formatting (`%d`, `%f`, `%.0f` and the `pid/user/name` string) is not modelled. Failures are records carrying the identifying fields instead of text.
- `OpenFilesCheck.OpenFilesFailure`: the percentage is the exact truncated quotient 100·cur/soft. It does not capture float64 rounding in `int(usage*100)`.
- `LoadCheck.CheckLoad`: compares exact reals. It does not capture float64 rounding of `Load5 / float64(numCPU)` near 0.8.
- `DiskCheck.InodeOutcome`: uses exact arithmetic. It does not capture float64 rounding of the inode percentage near 90. The uint64 wrap-around of `Files-Ffree` is modelled.
- The panic that indexing `rlimits[syscall.RLIMIT_NOFILE]` would raise on a short rlimit list is not modelled. An rlimit that cannot be read is `softLimit == None`.
- `AgeOfNewestFile` (`simplehealth.go:204-226`): filesystem globbing and wall-clock arithmetic, outside the engine.
- Slice aliasing is not modelled: engines share the `defaultChecks` backing array (`simplehealth.go:29-36`), and `SetChecks(xs...)` shares the caller's array (`simplehealth.go:43-44`), so later writes to `xs` change the registry and `AddCheck` may write into `xs`'s array. The registry is a value sequence here.
