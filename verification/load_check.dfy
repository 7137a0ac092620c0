/** `CheckLoad`: the five-minute load average per logical CPU must not exceed 0.8. */
module LoadCheck {
  import opened Wrappers
  import opened Stats

  /** The per-CPU load threshold (`maxLoad`). */
  const MaxLoad: real := 0.8

  /** Fails with the provider's error when the load average cannot be read;
      otherwise fails exactly when the load exceeds 0.8 per CPU (strictly). */
  function CheckLoad(load5: Result<real>, numCpu: CpuCount): (r: Option<Failure>)
    ensures load5.Err? ==> r == Some(Dependency(load5.message))
    ensures load5.Ok? ==> (r.Some? <==> load5.value > MaxLoad * numCpu as real)
    ensures load5.Ok? && r.Some? ==>
              r.value.HighLoad? && r.value.perCpu * numCpu as real == load5.value
  {
    match load5
    case Err(m) => Some(Dependency(m))
    case Ok(avg) =>
      var got := avg / numCpu as real;
      assert got * numCpu as real == avg;
      if got > MaxLoad then Some(HighLoad(got)) else None
  }

  /** A higher load on fewer CPUs fails whenever a lower load on more CPUs does. */
  lemma LoadMonotone(a: real, b: real, n: CpuCount, m: CpuCount)
    requires a <= b && m <= n
    ensures CheckLoad(Ok(a), n).Some? ==> CheckLoad(Ok(b), m).Some?
  {
  }

  /** The boundary is exclusive: 1.6 on two CPUs is exactly 0.8 and passes. */
  lemma LoadBoundary()
    ensures CheckLoad(Ok(1.6), 2) == None
    ensures CheckLoad(Ok(1.5), 2) == None
    ensures CheckLoad(Ok(1.7), 2) == Some(HighLoad(0.85))
  {
  }
}
