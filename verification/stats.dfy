/** The snapshot of host statistics that the health checks read, standing in
    for the operating-system introspection calls, and the failures the checks
    report. */
module Stats {
  import opened Wrappers

  /** Go's `uint64`, the type of the inode counters of `syscall.Statfs_t`. */
  type uint64 = x: int | 0 <= x < 0x1_0000_0000_0000_0000

  /** `runtime.NumCPU()`, which is never below one. */
  type CpuCount = n: int | n >= 1 witness 1

  /** Unsigned 64-bit subtraction as Go computes it: it wraps around below zero. */
  function Sub64(a: uint64, b: uint64): (d: uint64)
    ensures (b + d) % 0x1_0000_0000_0000_0000 == a
    ensures b <= a ==> d + b == a
    ensures a < b ==> d > a
  {
    if b <= a then a - b else a - b + 0x1_0000_0000_0000_0000
  }

  /** One entry of the process list, with the per-process lookups already made.
      `user` and `name` are empty when they could not be read; `softLimit` is
      `None` when the descriptor rlimit could not be read and `openFds` is
      `None` when the descriptor count could not be read. */
  datatype Process = Process(
    pid: int,
    user: string,
    name: string,
    softLimit: Option<int>,
    openFds: Option<nat>)

  /** Total and free inode counts of a file system, as `statfs` reports them. */
  datatype InodeStats = InodeStats(files: uint64, ffree: uint64)

  /** One mounted partition; `usedPercent` is `None` when the usage could not be
      read and `inodes` is `None` when `statfs` failed. */
  datatype Partition = Partition(
    device: string,
    mountpoint: string,
    usedPercent: Option<real>,
    inodes: Option<InodeStats>)

  /** What a check reports when it fails (the Go code turns each into an error
      message; the fields are what that message identifies). */
  datatype Failure =
    | Dependency(message: string)                                  // error of the stats provider
    | HighLoad(perCpu: real)                                       // load5 per CPU
    | TooManyOpenFiles(pid: int, user: string, name: string, percent: int)
    | DiskBytesFull(mountpoint: string, usedPercent: real)
    | DiskInodesFull(mountpoint: string, usedPercent: real)
    | Reported(message: string)                                    // error of a custom check

  /** Everything the built-in checks read at the moment a run takes place,
      together with what each custom check would return at that moment. */
  datatype Host = Host(
    processes: Result<seq<Process>>,
    partitions: Result<seq<Partition>>,
    load5: Result<real>,
    numCpu: CpuCount,
    custom: nat -> Option<Failure>)
}
