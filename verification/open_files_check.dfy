/** `CheckOpenFiles`: no process may use more than 90% of its soft limit on
    open descriptors. The first offending process, in the order of the
    process list, is reported. */
module OpenFilesCheck {
  import opened Wrappers
  import opened Stats
  import opened Search

  /** Soft limits below this are ignored for processes owned by root. */
  const RootLimitCarveOut: int := 1024

  /** A process whose descriptor usage is not evaluated: its rlimit cannot be
      read, its soft limit is not positive, it is a root process with a soft
      limit below 1024, or its descriptor count cannot be read or is zero. */
  predicate Skipped(p: Process): (r: bool)
    ensures !r ==> p.softLimit.Some? && p.softLimit.value > 0 && p.openFds.Some? && p.openFds.value > 0
    ensures !r ==> p.user != "root" || p.softLimit.value >= RootLimitCarveOut
  {
    || p.softLimit.None?
    || p.softLimit.value <= 0
    || (p.softLimit.value < RootLimitCarveOut && p.user == "root")
    || p.openFds.None?
    || p.openFds.value == 0
  }

  /** A process that none of the skip rules covers is evaluated. */
  lemma EvaluatedUnlessSkipRule(p: Process)
    requires p.softLimit.Some? && p.softLimit.value > 0 && p.openFds.Some? && p.openFds.value > 0
    requires p.user != "root" || p.softLimit.value >= RootLimitCarveOut
    ensures !Skipped(p)
  {
  }

  /** The failure reported for process `p`: it names the process as
      pid/user/name and carries the usage percentage, truncated. */
  function OpenFilesFailure(p: Process): (f: Failure)
    requires !Skipped(p)
    ensures f.TooManyOpenFiles? && f.pid == p.pid && f.user == p.user && f.name == p.name
    ensures f.percent * p.softLimit.value <= 100 * p.openFds.value < (f.percent + 1) * p.softLimit.value
  {
    TooManyOpenFiles(p.pid, p.user, p.name, (100 * p.openFds.value) / p.softLimit.value)
  }

  /** What process `p` contributes to the check: a failure when it is not
      skipped and its usage `cur/soft` strictly exceeds 0.9, written here in
      exact integer arithmetic as `10 * cur > 9 * soft`. */
  function ProcessOutcome(p: Process): (r: Option<Failure>)
    ensures r.Some? ==> !Skipped(p) && r == Some(OpenFilesFailure(p))
    ensures !Skipped(p) ==> (r.Some? <==> 10 * p.openFds.value > 9 * p.softLimit.value)
  {
    if Skipped(p) then None
    else if 10 * p.openFds.value > 9 * p.softLimit.value then Some(OpenFilesFailure(p))
    else None
  }

  /** A process that would make the check fail. */
  predicate Offends(p: Process)
  {
    ProcessOutcome(p).Some?
  }

  /** The verdict the check reaches on a snapshot of the process list. */
  function OpenFilesVerdict(processes: Result<seq<Process>>): (r: Option<Failure>)
    ensures processes.Err? ==> r == Some(Dependency(processes.message))
    ensures processes.Ok? && r.Some? ==>
              exists i :: 0 <= i < |processes.value| && r == ProcessOutcome(processes.value[i])
  {
    match processes
    case Err(m) => Some(Dependency(m))
    case Ok(ps) =>
      FirstSomeFirst(ps, ProcessOutcome);
      FirstSome(ps, ProcessOutcome)
  }

  /** The descriptor check over a snapshot of the process list: it walks the
      list in order, skips what cannot be evaluated and returns at the first
      process over the threshold. */
  method CheckOpenFiles(processes: Result<seq<Process>>) returns (err: Option<Failure>)
    ensures err == OpenFilesVerdict(processes)
  {
    if processes.Err? {
      return Some(Dependency(processes.message));
    }
    var ps := processes.value;
    for i := 0 to |ps|
      invariant FirstSome(ps[..i], ProcessOutcome).None?
    {
      var p := ps[i];
      FirstSomeStep(ps, i, ProcessOutcome);
      if p.softLimit.None? {
        continue;
      }
      var softLimit := p.softLimit.value;
      if softLimit <= 0 {
        continue;
      }
      if softLimit < RootLimitCarveOut && p.user == "root" {
        continue;
      }
      if p.openFds.None? || p.openFds.value == 0 {
        continue;
      }
      var cur := p.openFds.value;
      if 10 * cur > 9 * softLimit {
        return Some(OpenFilesFailure(p));
      }
    }
    assert ps[..|ps|] == ps;
    return None;
  }

  /** The check fails on a process list exactly when some process offends, and
      then it reports the first offender; everything after it is ignored. */
  lemma OpenFilesFailsOnFirstOffender(ps: seq<Process>)
    ensures OpenFilesVerdict(Ok(ps)).None? <==> forall i :: 0 <= i < |ps| ==> !Offends(ps[i])
    ensures OpenFilesVerdict(Ok(ps)).Some? ==>
              exists i :: 0 <= i < |ps| && Offends(ps[i]) &&
                          OpenFilesVerdict(Ok(ps)) == Some(OpenFilesFailure(ps[i])) &&
                          forall j :: 0 <= j < i ==> !Offends(ps[j])
  {
    FirstSomeNone(ps, ProcessOutcome);
    if OpenFilesVerdict(Ok(ps)).Some? {
      FirstSomeFirst(ps, ProcessOutcome);
    }
  }

  /** Processes after the first offender are never examined. */
  lemma LaterProcessesIgnored(ps: seq<Process>, later: seq<Process>)
    requires OpenFilesVerdict(Ok(ps)).Some?
    ensures OpenFilesVerdict(Ok(ps + later)) == OpenFilesVerdict(Ok(ps))
  {
    FirstSomeAppend(ps, later, ProcessOutcome);
  }

  /** A skipped process never makes the check fail, whatever its descriptor
      count: adding it anywhere to the list leaves the verdict unchanged. */
  lemma SkippedProcessIrrelevant(before: seq<Process>, p: Process, after: seq<Process>)
    requires Skipped(p)
    ensures OpenFilesVerdict(Ok(before + [p] + after)) == OpenFilesVerdict(Ok(before + after))
  {
    SilentItemIrrelevant(before, p, after, ProcessOutcome);
  }

  /** Root processes with a soft limit below 1024 are skipped whatever their
      descriptor count. */
  lemma RootCarveOut(pid: int, name: string, soft: int, cur: nat)
    requires soft < RootLimitCarveOut
    ensures !Offends(Process(pid, "root", name, Some(soft), Some(cur)))
  {
  }

  /** The threshold is strict: 900 of 1000 descriptors passes, 950 fails, and
      a soft limit of 0 is skipped. */
  lemma OpenFilesBoundary(pid: int, name: string)
    ensures !Offends(Process(pid, "www", name, Some(1000), Some(900)))
    ensures Offends(Process(pid, "www", name, Some(1000), Some(950)))
    ensures ProcessOutcome(Process(pid, "www", name, Some(1000), Some(950)))
              == Some(TooManyOpenFiles(pid, "www", name, 95))
    ensures !Offends(Process(pid, "www", name, Some(0), Some(950)))
  {
  }

  /** More open descriptors under the same limit never turn an offender into
      a passing process. */
  lemma OffendsMonotone(p: Process, more: nat)
    requires Offends(p) && more >= p.openFds.value
    ensures Offends(p.(openFds := Some(more)))
  {
  }
}
