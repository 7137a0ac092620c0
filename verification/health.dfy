/** The health engine: a registry of checks and a runner that evaluates every
    registered check once and collects every failure. */
module Health {
  import opened Wrappers
  import opened Stats
  import LoadCheck
  import OpenFilesCheck
  import DiskCheck

  /** A zero-argument check: one of the three built-ins, or a check added by
      the caller, identified by a number; what a custom check returns at the
      moment of a run is part of the host snapshot. */
  datatype Check = OpenFiles | Disk | Load | Custom(id: nat)

  /** The built-in registry: open files, then disk, then load. */
  function DefaultChecks(): (checks: seq<Check>)
    ensures |checks| == 3 && checks[0].OpenFiles? && checks[1].Disk? && checks[2].Load?
  {
    [OpenFiles, Disk, Load]
  }

  /** What one evaluation of check `c` returns when the host is in state `host`. */
  function Outcome(c: Check, host: Host): (r: Option<Failure>)
    ensures c.Custom? ==> r == host.custom(c.id)
    ensures c.OpenFiles? && r.Some? ==> r.value.Dependency? || r.value.TooManyOpenFiles?
    ensures c.Disk? && r.Some? ==> r.value.Dependency? || r.value.DiskBytesFull? || r.value.DiskInodesFull?
    ensures c.Load? && r.Some? ==> r.value.Dependency? || r.value.HighLoad?
  {
    match c
    case OpenFiles => OpenFilesCheck.OpenFilesVerdict(host.processes)
    case Disk => DiskCheck.DiskVerdict(host.partitions)
    case Load => LoadCheck.CheckLoad(host.load5, host.numCpu)
    case Custom(id) => host.custom(id)
  }

  /** The results of evaluating each check of `checks` once, in registry order. */
  function Outcomes(checks: seq<Check>, host: Host): seq<Option<Failure>>
  {
    seq(|checks|, i requires 0 <= i < |checks| => Outcome(checks[i], host))
  }

  /** The non-nil results of `results`, in order. */
  function Failed(results: seq<Option<Failure>>): (failures: seq<Failure>)
    ensures |failures| <= |results|
  {
    if results == [] then []
    else (if results[0].Some? then [results[0].value] else []) + Failed(results[1..])
  }

  /** The positions of the failing results. */
  ghost function FailingPositions(results: seq<Option<Failure>>): set<nat>
  {
    set i: nat | i < |results| && results[i].Some?
  }

  /** Evaluates one check against the host. */
  method Evaluate(c: Check, host: Host) returns (r: Option<Failure>)
    ensures r == Outcome(c, host)
  {
    match c
    case OpenFiles => r := OpenFilesCheck.CheckOpenFiles(host.processes);
    case Disk => r := DiskCheck.CheckDisk(host.partitions);
    case Load => r := LoadCheck.CheckLoad(host.load5, host.numCpu);
    case Custom(id) => r := host.custom(id);
  }

  /** The results at the given positions, in the order the positions are listed. */
  ghost function Pick(results: seq<Option<Failure>>, positions: seq<nat>): seq<Option<Failure>>
    requires forall k :: 0 <= k < |positions| ==> positions[k] < |results|
  {
    seq(|positions|, k requires 0 <= k < |positions| => results[positions[k]])
  }

  /** The positions 0, 1, ..., n - 1. */
  function Positions(n: nat): seq<nat>
  {
    seq(n, k requires 0 <= k < n => k)
  }

  class SimpleHealth {
    /** The registered checks, in registration order. */
    var checks: seq<Check>

    /** `NewSimpleHealth`: an engine with the default checks. */
    constructor ()
      ensures checks == DefaultChecks()
    {
      checks := DefaultChecks();
    }

    /** Appends one check to the registry. */
    method AddCheck(check: Check)
      modifies this
      ensures checks == old(checks) + [check]
    {
      checks := checks + [check];
    }

    /** Replaces the whole registry by the given checks (possibly none). */
    method SetChecks(newChecks: seq<Check>)
      modifies this
      ensures checks == newChecks
    {
      checks := newChecks;
    }

    /** Evaluates every registered check exactly once and returns every
        failure. The checks run concurrently, so their results arrive in no
        fixed order: the collecting loop takes the result of any check that
        has not yet reported, and the result is the same multiset of failures
        whatever order they arrive in. */
    method Run(host: Host) returns (errs: seq<Failure>)
      ensures multiset(errs) == multiset(Failed(Outcomes(checks, host)))
    {
      // Fan-out: one evaluation per registered check.
      var results: seq<Option<Failure>> := [];
      for i := 0 to |checks|
        invariant |results| == i
        invariant forall k :: 0 <= k < i ==> results[k] == Outcome(checks[k], host)
      {
        var r := Evaluate(checks[i], host);
        results := results + [r];
      }
      assert results == Outcomes(checks, host);
      errs := Collect(results);
    }
  }

  /** The fan-in of a run: receives each of the results once, each time from
      a check that has not reported yet, in any order, and keeps the failures. */
  method Collect(results: seq<Option<Failure>>) returns (errs: seq<Failure>)
    ensures multiset(errs) == multiset(Failed(results))
  {
    var pending: seq<nat> := Positions(|results|);
    PickAll(results);
    errs := [];
    while pending != []
      invariant forall k :: 0 <= k < |pending| ==> pending[k] < |results|
      invariant multiset(errs) + multiset(Failed(Pick(results, pending))) == multiset(Failed(results))
      decreases |pending|
    {
      var p :| 0 <= p < |pending|;
      var i := pending[p];
      ReceiveOne(results, pending, p);
      pending := Without(pending, p);
      if results[i].Some? {
        assert multiset(errs + [results[i].value]) == multiset(errs) + multiset{results[i].value};
        errs := errs + [results[i].value];
      }
    }
  }

  /** The positions of `positions` except the one at index `p`. */
  function Without(positions: seq<nat>, p: nat): seq<nat>
    requires p < |positions|
  {
    positions[..p] + positions[p + 1..]
  }

  /** Picking every position in order gives back all results. */
  lemma PickAll(results: seq<Option<Failure>>)
    ensures Pick(results, Positions(|results|)) == results
  {
  }

  /** Receiving the result at position `p` of the pending list moves its
      failure, if any, from the pending results to the collected ones. */
  lemma ReceiveOne(results: seq<Option<Failure>>, pending: seq<nat>, p: nat)
    requires forall k :: 0 <= k < |pending| ==> pending[k] < |results|
    requires p < |pending|
    ensures forall k :: 0 <= k < |pending| - 1 ==> Without(pending, p)[k] < |results|
    ensures multiset(Failed(Pick(results, pending))) ==
              multiset(Failed(Pick(results, Without(pending, p)))) +
              (if results[pending[p]].Some? then multiset{results[pending[p]].value} else multiset{})
  {
    var r := results[pending[p]];
    var front, back := Pick(results, pending[..p]), Pick(results, pending[p + 1..]);
    assert Pick(results, pending) == front + [r] + back;
    assert Pick(results, Without(pending, p)) == front + back;
    FailedAppend(front + [r], back);
    FailedAppend(front, [r]);
    FailedAppend(front, back);
    assert Failed([r]) == if r.Some? then [r.value] else [];
  }

  /** Collecting failures commutes with concatenation. */
  lemma {:induction false} FailedAppend(a: seq<Option<Failure>>, b: seq<Option<Failure>>)
    ensures Failed(a + b) == Failed(a) + Failed(b)
  {
    if a == [] {
      assert a + b == b;
    } else {
      assert (a + b)[0] == a[0];
      assert (a + b)[1..] == a[1..] + b;
      FailedAppend(a[1..], b);
    }
  }

  /** Every failure comes from some result and every failing result
      contributes its failure. */
  lemma {:induction false} FailedMembers(results: seq<Option<Failure>>)
    ensures forall i :: 0 <= i < |results| && results[i].Some? ==> results[i].value in Failed(results)
    ensures forall f :: f in Failed(results) ==> exists i :: 0 <= i < |results| && results[i] == Some(f)
  {
    if results != [] {
      FailedMembers(results[1..]);
      assert forall i :: 1 <= i < |results| ==> results[i] == results[1..][i - 1];
      forall f | f in Failed(results)
        ensures exists i :: 0 <= i < |results| && results[i] == Some(f)
      {
        if f !in Failed(results[1..]) {
          assert results[0] == Some(f);
        } else {
          var j :| 0 <= j < |results[1..]| && results[1..][j] == Some(f);
          assert results[j + 1] == Some(f);
        }
      }
    }
  }

  /** Nothing fails exactly when every result passes. */
  lemma {:induction false} FailedEmpty(results: seq<Option<Failure>>)
    ensures Failed(results) == [] <==> forall i :: 0 <= i < |results| ==> results[i].None?
  {
    FailedMembers(results);
    if Failed(results) != [] {
      assert Failed(results)[0] in Failed(results);
    }
  }

  /** There are exactly as many failures as failing results. */
  lemma {:induction false} FailedCount(results: seq<Option<Failure>>)
    ensures |Failed(results)| == |FailingPositions(results)|
    decreases |results|
  {
    if results == [] {
      assert FailingPositions(results) == {};
    } else {
      var n := |results| - 1;
      var init := results[..n];
      assert results == init + [results[n]];
      FailedAppend(init, [results[n]]);
      FailedCount(init);
      assert Failed([results[n]]) == if results[n].Some? then [results[n].value] else [];
      assert n !in FailingPositions(init);
      if results[n].Some? {
        assert FailingPositions(results) == FailingPositions(init) + {n};
      } else {
        assert FailingPositions(results) == FailingPositions(init);
      }
    }
  }

  /** The failures collected do not depend on the order in which the results
      are received. */
  lemma {:induction false} FailedOrderIrrelevant(a: seq<Option<Failure>>, b: seq<Option<Failure>>)
    requires multiset(a) == multiset(b)
    ensures multiset(Failed(a)) == multiset(Failed(b))
    decreases |a|
  {
    if a == [] {
      assert b == [] by {
        assert |b| == |multiset(b)|;
      }
    } else {
      var x := a[0];
      assert x in multiset(b);
      var j :| 0 <= j < |b| && b[j] == x;
      var b' := b[..j] + b[j + 1..];
      assert b == b[..j] + [x] + b[j + 1..];
      assert a == [x] + a[1..];
      assert multiset(b) == multiset(b[..j]) + multiset{x} + multiset(b[j + 1..]);
      assert multiset(b') == multiset(b[..j]) + multiset(b[j + 1..]);
      assert multiset(a) == multiset{x} + multiset(a[1..]);
      assert multiset(a[1..]) == multiset(a) - multiset{x};
      assert multiset(b') == multiset(b) - multiset{x};
      FailedOrderIrrelevant(a[1..], b');
      FailedAppend([x], a[1..]);
      FailedAppend(b[..j] + [x], b[j + 1..]);
      FailedAppend(b[..j], [x]);
      FailedAppend(b[..j], b[j + 1..]);
    }
  }

  /** A run reports one failure per failing check, and nothing when every
      check passes (in particular for an empty registry). */
  lemma RunReportsEachFailingCheck(checks: seq<Check>, host: Host, errs: seq<Failure>)
    requires multiset(errs) == multiset(Failed(Outcomes(checks, host)))
    ensures |errs| == |FailingPositions(Outcomes(checks, host))|
    ensures errs == [] <==> forall i :: 0 <= i < |checks| ==> Outcome(checks[i], host).None?
    ensures forall i :: 0 <= i < |checks| && Outcome(checks[i], host).Some? ==>
              Outcome(checks[i], host).value in errs
  {
    var results := Outcomes(checks, host);
    FailedCount(results);
    FailedEmpty(results);
    FailedMembers(results);
    assert |errs| == |multiset(errs)| == |multiset(Failed(results))| == |Failed(results)|;
    if errs == [] {
      assert multiset(Failed(results)) == multiset{};
    }
    forall i | 0 <= i < |checks| && Outcome(checks[i], host).Some?
      ensures Outcome(checks[i], host).value in errs
    {
      assert results[i] == Outcome(checks[i], host);
      assert Outcome(checks[i], host).value in multiset(Failed(results));
    }
  }

  /** With the default registry, each built-in check contributes its own verdict. */
  lemma DefaultRunOutcomes(host: Host)
    ensures Outcomes(DefaultChecks(), host) ==
              [OpenFilesCheck.OpenFilesVerdict(host.processes),
               DiskCheck.DiskVerdict(host.partitions),
               LoadCheck.CheckLoad(host.load5, host.numCpu)]
  {
  }
}
