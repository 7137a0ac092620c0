/** `CheckDisk`: no evaluated partition may be 90% or more full, counting
    bytes first and then inodes. The first offending partition, in the order
    of the partition list, is reported. */
module DiskCheck {
  import opened Wrappers
  import opened Strings
  import opened Stats
  import opened Search

  /** `100 * maxDiskPerc`: a Go untyped constant, so exactly 90. */
  const MaxDiskPercent: real := 90.0

  /** Partitions that are not meaningful capacity signals and are never
      evaluated: loop and devfs devices, snap and boot mountpoints. */
  predicate Excluded(p: Partition): (r: bool)
    ensures r <==> (exists i :: OccursAt(p.device, "loop", i)) || (exists i :: OccursAt(p.device, "devfs", i)) ||
                   (exists i :: OccursAt(p.mountpoint, "/snap/", i)) || (exists i :: OccursAt(p.mountpoint, "/boot", i))
  {
    || Contains(p.device, "loop")
    || Contains(p.mountpoint, "/snap/")
    || Contains(p.mountpoint, "/boot")
    || Contains(p.device, "devfs")
  }

  /** The inodes in use, `Files - Ffree` computed in uint64 as Go does. */
  function UsedInodes(st: InodeStats): (used: uint64)
    ensures st.ffree <= st.files ==> used == st.files - st.ffree
    ensures st.ffree > st.files ==> used > st.files
  {
    Sub64(st.files, st.ffree)
  }

  /** The inode verdict for a partition with the given inode counts: a file
      system without inodes never fails; otherwise it fails when at least 90%
      of its inodes are in use, written in exact integer arithmetic as
      `10 * used >= 9 * files`. */
  function InodeOutcome(mountpoint: string, st: InodeStats): (r: Option<Failure>)
    ensures st.files == 0 ==> r.None?
    ensures st.files > 0 && st.ffree <= st.files ==>
              (r.Some? <==> 10 * (st.files - st.ffree) >= 9 * st.files)
    ensures st.files > 0 && st.ffree > st.files ==> r.Some?
    ensures r.Some? ==> r.value.DiskInodesFull? && r.value.mountpoint == mountpoint &&
                        r.value.usedPercent >= MaxDiskPercent
  {
    if st.files > 0 && 10 * UsedInodes(st) >= 9 * st.files then
      var perc := 100.0 * UsedInodes(st) as real / st.files as real;
      PercentAtLeastNinety(UsedInodes(st), st.files);
      Some(DiskInodesFull(mountpoint, perc))
    else
      None
  }

  /** `10 * used >= 9 * total` is the exact form of `100 * used / total >= 90`. */
  lemma PercentAtLeastNinety(used: nat, total: nat)
    requires total > 0 && 10 * used >= 9 * total
    ensures 100.0 * used as real / total as real >= MaxDiskPercent
  {
    var u, t := used as real, total as real;
    assert 10.0 * u >= 9.0 * t;
    var perc := 100.0 * u / t;
    assert perc * t == 100.0 * u;
    if perc < 90.0 {
      assert perc * t < 90.0 * t;
    }
  }

  /** What partition `p` contributes to the check, following the order of the
      Go loop: exclusion, byte usage (skipped when unreadable), then inodes
      (skipped when `statfs` fails). */
  function PartitionOutcome(p: Partition): (r: Option<Failure>)
    ensures Excluded(p) ==> r.None?
    ensures p.usedPercent.None? ==> r.None?
    ensures !Excluded(p) && p.usedPercent.Some? && p.usedPercent.value >= MaxDiskPercent ==>
              r == Some(DiskBytesFull(p.mountpoint, p.usedPercent.value))
    ensures p.usedPercent.Some? && p.usedPercent.value < MaxDiskPercent && p.inodes.None? ==> r.None?
    ensures r.Some? ==> (r.value.DiskBytesFull? || r.value.DiskInodesFull?) &&
                        r.value.mountpoint == p.mountpoint && r.value.usedPercent >= MaxDiskPercent
    ensures r.Some? && r.value.DiskInodesFull? ==> p.usedPercent.Some? && p.usedPercent.value < MaxDiskPercent
  {
    if Excluded(p) then None
    else match p.usedPercent
      case None => None
      case Some(pct) =>
        if pct >= MaxDiskPercent then Some(DiskBytesFull(p.mountpoint, pct))
        else match p.inodes
          case None => None
          case Some(st) => InodeOutcome(p.mountpoint, st)
  }

  /** A partition that would make the check fail. */
  predicate Offends(p: Partition)
  {
    PartitionOutcome(p).Some?
  }

  /** The verdict the check reaches on a snapshot of the partition list. */
  function DiskVerdict(partitions: Result<seq<Partition>>): (r: Option<Failure>)
    ensures partitions.Err? ==> r == Some(Dependency(partitions.message))
    ensures partitions.Ok? && r.Some? ==>
              exists i :: 0 <= i < |partitions.value| && r == PartitionOutcome(partitions.value[i])
  {
    match partitions
    case Err(m) => Some(Dependency(m))
    case Ok(ps) =>
      FirstSomeFirst(ps, PartitionOutcome);
      FirstSome(ps, PartitionOutcome)
  }

  /** The disk check over a snapshot of the partition list: it walks the list
      in order, skips excluded and unreadable partitions and returns at the
      first partition that is too full. */
  method CheckDisk(partitions: Result<seq<Partition>>) returns (err: Option<Failure>)
    ensures err == DiskVerdict(partitions)
  {
    if partitions.Err? {
      return Some(Dependency(partitions.message));
    }
    var ps := partitions.value;
    for i := 0 to |ps|
      invariant FirstSome(ps[..i], PartitionOutcome).None?
    {
      var part := ps[i];
      FirstSomeStep(ps, i, PartitionOutcome);
      if Contains(part.device, "loop") || Contains(part.mountpoint, "/snap/") ||
         Contains(part.mountpoint, "/boot") || Contains(part.device, "devfs") {
        continue;
      }
      if part.usedPercent.None? {
        continue;
      }
      var usedPercent := part.usedPercent.value;
      if usedPercent >= MaxDiskPercent {
        return Some(DiskBytesFull(part.mountpoint, usedPercent));
      }
      if part.inodes.None? {
        continue;
      }
      var st := part.inodes.value;
      if st.files > 0 {
        var used := Sub64(st.files, st.ffree);
        if 10 * used >= 9 * st.files {
          return Some(DiskInodesFull(part.mountpoint, 100.0 * used as real / st.files as real));
        }
      }
    }
    assert ps[..|ps|] == ps;
    return None;
  }

  /** The check fails on a partition list exactly when some partition is too
      full, and then it reports the first such partition. */
  lemma DiskFailsOnFirstOffender(ps: seq<Partition>)
    ensures DiskVerdict(Ok(ps)).None? <==> forall i :: 0 <= i < |ps| ==> !Offends(ps[i])
    ensures DiskVerdict(Ok(ps)).Some? ==>
              exists i :: 0 <= i < |ps| && Offends(ps[i]) &&
                          DiskVerdict(Ok(ps)) == PartitionOutcome(ps[i]) &&
                          forall j :: 0 <= j < i ==> !Offends(ps[j])
  {
    FirstSomeNone(ps, PartitionOutcome);
    if DiskVerdict(Ok(ps)).Some? {
      FirstSomeFirst(ps, PartitionOutcome);
    }
  }

  /** Partitions after the first offender are never examined. */
  lemma LaterPartitionsIgnored(ps: seq<Partition>, later: seq<Partition>)
    requires DiskVerdict(Ok(ps)).Some?
    ensures DiskVerdict(Ok(ps + later)) == DiskVerdict(Ok(ps))
  {
    FirstSomeAppend(ps, later, PartitionOutcome);
  }

  /** An excluded partition is never evaluated, whatever its usage: adding
      it anywhere to the list leaves the verdict unchanged. */
  lemma ExcludedPartitionIrrelevant(before: seq<Partition>, p: Partition, after: seq<Partition>)
    requires Excluded(p)
    ensures DiskVerdict(Ok(before + [p] + after)) == DiskVerdict(Ok(before + after))
  {
    SilentItemIrrelevant(before, p, after, PartitionOutcome);
  }

  /** A partition whose mountpoint lies under /boot is excluded. */
  lemma BootIsExcluded(device: string, rest: string, used: Option<real>, inodes: Option<InodeStats>)
    ensures Excluded(Partition(device, "/boot" + rest, used, inodes))
  {
    assert ("/boot" + rest)[0..|"/boot"|] == "/boot";
    assert OccursAt("/boot" + rest, "/boot", 0);
  }

  /** The byte threshold is inclusive: exactly 90% fails and 89.9% passes
      when the inodes are fine. */
  lemma DiskBoundary()
    ensures PartitionOutcome(Partition("sda", "/", Some(90.0), None))
              == Some(DiskBytesFull("/", 90.0))
    ensures !Offends(Partition("sda", "/", Some(89.9), Some(InodeStats(1000, 500))))
  {
    assert !Excluded(Partition("sda", "/", None, None)) by {
      assert !Contains("sda", "loop") && !Contains("sda", "devfs");
      assert !Contains("/", "/snap/") && !Contains("/", "/boot");
    }
  }

  /** Once the bytes are below the threshold, the inode test decides: a file
      system reporting no inodes never fails, one with every inode in use
      always does. */
  lemma InodeDecides(dev: string, mp: string, pct: real, st: InodeStats)
    requires !Excluded(Partition(dev, mp, None, None)) && pct < MaxDiskPercent
    ensures Offends(Partition(dev, mp, Some(pct), Some(st))) <==> InodeOutcome(mp, st).Some?
    ensures st.files == 0 ==> !Offends(Partition(dev, mp, Some(pct), Some(st)))
    ensures st.files > 0 && st.ffree == 0 ==> Offends(Partition(dev, mp, Some(pct), Some(st)))
  {
  }
}
