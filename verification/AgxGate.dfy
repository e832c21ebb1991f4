/** `run_gate` of tools/agx_gate.py driving the m1n1 backend through any number of cycles,
    with a failure possible at every backend call.  Evidence writes are appends that do
    not fail; clock readings are reduced to whether the heartbeat was late. */
module AgxGate {
  import opened Results
  import opened AgxLifecycle

  const QUALIFYING_CYCLES := 10

  datatype GateError =
    | CyclesNotPositive
    | TimeoutNotPositive
    | CycleFailed(cycle: nat)
    | FinalReleaseMissing

  datatype Status = StatusRunning | StatusPassed | StatusFailed

  /** One entry of manifest["cycles"]; `released` is written on failure only. */
  datatype Record = Record(cycle: nat, status: Status, released: Option<bool>)

  datatype Verdict = VerdictRunning | VerdictFailed | VerdictIncomplete | VerdictPassed

  datatype Manifest = Manifest(
    requestedCycles: nat,
    completedCycles: nat,
    cycles: seq<Record>,
    verdict: Verdict,
    windowsLaunchPermitted: bool
  )

  datatype GateResult = GateResult(completedCycles: nat, windowsLaunchPermitted: bool, verdict: Verdict)

  /** What goes wrong in one cycle, and in the recovery that a failure triggers. */
  datatype CyclePlan = CyclePlan(
    prepare: PrepareFault,
    startRaises: bool,
    heartbeatRaises: bool,
    heartbeatLate: bool,
    snapshotRaises: bool,
    stopRaises: bool,
    reset: ResetFault,
    recoveryStopRaises: bool,
    recoveryReset: ResetFault
  )

  /** Nothing raises and the heartbeat meets its deadline. */
  predicate Clean(p: CyclePlan) {
    && !ClocksFail(p.prepare)
    && (p.prepare.PrepareRuns? || p.prepare.ClockRaises?)
    && !p.startRaises && !p.heartbeatRaises && !p.heartbeatLate && !p.snapshotRaises && !p.stopRaises
    && p.reset.ResetRuns?
  }

  /** Whether a failed cycle ends released.  Refused before any clock request: yes.
      Construction lost: no.  Start raised: no, because the gate then neither stops nor
      can reset.  Otherwise it depends on the recovery alone. */
  predicate ReleasedAfterFailure(p: CyclePlan) {
    if p.prepare.LiveReaderRaises? || p.prepare.ContractDiffers? || p.prepare.VersionSetterRaises? then true
    else if ClocksFail(p.prepare) || p.prepare.FactoryRaises? then false
    else if p.prepare.TrackerRaises? then p.recoveryReset.ResetRuns?
    else if p.startRaises then false
    else if p.heartbeatRaises || p.heartbeatLate || p.snapshotRaises || p.stopRaises then
      !p.recoveryStopRaises && p.recoveryReset.ResetRuns?
    else p.recoveryReset.ResetRuns?
  }

  function PassedRecords(n: nat): (r: seq<Record>)
    ensures |r| == n && forall i | 0 <= i < n :: r[i] == Record(i + 1, StatusPassed, None)
  {
    seq(n, i requires 0 <= i => Record(i + 1, StatusPassed, None))
  }

  /** The manifest on disk after `n` passed cycles of a run still going. */
  function Progress(requested: nat, n: nat): Manifest {
    Manifest(requested, n, PassedRecords(n), VerdictRunning, false)
  }

  function Progresses(requested: nat, n: nat): (r: seq<Manifest>)
    ensures |r| == n && forall i | 0 <= i < n :: r[i] == Progress(requested, i)
  {
    seq(n, i requires 0 <= i => Progress(requested, i))
  }

  /** The manifest written when cycle `k` fails. */
  function FailureManifest(requested: nat, k: nat, released: bool): Manifest
    requires 0 < k
  {
    Manifest(requested, k - 1, PassedRecords(k - 1) + [Record(k, StatusFailed, Some(released))], VerdictFailed, false)
  }

  function FinalManifest(requested: nat): Manifest {
    var permitted := requested == QUALIFYING_CYCLES;
    Manifest(requested, requested, PassedRecords(requested),
             if permitted then VerdictPassed else VerdictIncomplete, permitted)
  }

  /** Whether a run on this backend that failed in a cycle with this plan ends released.  A
      backend that still owned hardware fails its first preparation and is reset. */
  predicate EndsReleased(c: Core, p: CyclePlan) {
    if c.Released() then ReleasedAfterFailure(p) else ResetEffect(c, p.recoveryReset).core.Released()
  }

  /** The calls of one cycle up to its first failure: whether it passed, whether
      firmware had started, been stopped, been reset. */
  datatype Progressed = Progressed(passed: bool, started: bool, stopped: bool, resetDone: bool)

  method RunCycle(backend: M1n1AgxBackend, p: CyclePlan) returns (r: Progressed)
    requires Inv(backend.State())
    modifies backend
    ensures Inv(backend.State())
    ensures r.passed <==> old(backend.State()).Released() && Clean(p)
    ensures r.passed ==> backend.State().Released()
    ensures !r.passed ==> !r.resetDone && (r.stopped ==> r.started)
    ensures !r.passed ==>
      var c := backend.State();
      EndsReleased(old(backend.State()), p) <==>
        var s := if r.started && !r.stopped then Stopped(c, p.recoveryStopRaises).core else c;
        ResetEffect(s, p.recoveryReset).core.Released()
  {
    ghost var c0 := backend.State();
    var ok := backend.Prepare(p.prepare);
    InvKept(c0, Call.Prepare(p.prepare));
    if !ok {
      return Progressed(false, false, false, false);
    }
    ghost var c1 := backend.State();
    ok := backend.Start(p.startRaises);
    InvKept(c1, Call.Start(p.startRaises));
    if !ok {
      return Progressed(false, false, false, false);
    }
    ok := backend.Beat(p.heartbeatRaises);
    if !ok || p.heartbeatLate {
      return Progressed(false, true, false, false);
    }
    if p.snapshotRaises {
      return Progressed(false, true, false, false);
    }
    ghost var c2 := backend.State();
    ok := backend.Stop(p.stopRaises);
    InvKept(c2, Call.Stop(p.stopRaises));
    if !ok {
      return Progressed(false, true, false, false);
    }
    ghost var c3 := backend.State();
    ok := backend.Reset(p.reset);
    InvKept(c3, Call.Reset(p.reset));
    if !ok {
      return Progressed(false, true, true, false);
    }
    var released := backend.IsReleased();
    return Progressed(released, true, true, true);
  }

  /** The recovery of a failed cycle; its snapshot changes nothing. */
  method Recover(backend: M1n1AgxBackend, p: CyclePlan, at: Progressed) returns (released: bool)
    requires Inv(backend.State())
    modifies backend
    ensures Inv(backend.State())
    ensures released == backend.State().Released()
    ensures
      var c := old(backend.State());
      var s := if at.started && !at.stopped then Stopped(c, p.recoveryStopRaises).core else c;
      backend.State() == if at.resetDone then s else ResetEffect(s, p.recoveryReset).core
  {
    if at.started && !at.stopped {
      ghost var c := backend.State();
      var _ := backend.Stop(p.recoveryStopRaises);
      InvKept(c, Call.Stop(p.recoveryStopRaises));
    }
    if !at.resetDone {
      ghost var c := backend.State();
      var _ := backend.Reset(p.recoveryReset);
      InvKept(c, Call.Reset(p.recoveryReset));
    }
    released := backend.IsReleased();
  }

  /** `run_gate` on any reachable backend.  `evidence` is every manifest written, in order.
      The run succeeds exactly when the backend was released and every requested cycle is
      clean; launch is permitted exactly when that happened ten times; otherwise it stops at
      the first cycle that is not clean, or at the first one if the backend still owned
      hardware, and what it records about release is true of the backend. */
  method RunGate(backend: M1n1AgxBackend, cycles: int, timeout: real, plan: nat -> CyclePlan)
    returns (r: Result<GateResult, GateError>, evidence: seq<Manifest>)
    requires Inv(backend.State())
    modifies backend
    ensures Inv(backend.State())
    ensures cycles <= 0 ==> r == Failure(CyclesNotPositive)
    ensures 0 < cycles && timeout <= 0.0 ==> r == Failure(TimeoutNotPositive)
    ensures cycles <= 0 || timeout <= 0.0 ==> evidence == [] && backend.State() == old(backend.State())
    ensures 0 < cycles && 0.0 < timeout ==>
      (r.Success? <==> old(backend.State()).Released() && forall i | 1 <= i <= cycles :: Clean(plan(i)))
    ensures r.Success? ==>
      && 0 < cycles
      && r.value == GateResult(cycles, cycles == QUALIFYING_CYCLES, FinalManifest(cycles).verdict)
      && evidence == Progresses(cycles, cycles + 1) + [FinalManifest(cycles)]
      && backend.State().Released()
    ensures r.Failure? && 0 < cycles && 0.0 < timeout ==>
      && r.error.CycleFailed?
      && 1 <= r.error.cycle <= cycles
      && (forall i | 1 <= i < r.error.cycle :: Clean(plan(i)))
      && (if old(backend.State()).Released() then !Clean(plan(r.error.cycle)) else r.error.cycle == 1)
      && evidence == Progresses(cycles, r.error.cycle)
           + [FailureManifest(cycles, r.error.cycle, EndsReleased(old(backend.State()), plan(r.error.cycle)))]
      && backend.State().Released() == EndsReleased(old(backend.State()), plan(r.error.cycle))
  {
    evidence := [];
    if cycles <= 0 {
      return Failure(CyclesNotPositive), evidence;
    }
    if timeout <= 0.0 {
      return Failure(TimeoutNotPositive), evidence;
    }
    var manifest := Manifest(cycles, 0, [], VerdictRunning, false);
    evidence := evidence + [manifest];
    var completed := 0;
    for index := 1 to cycles + 1
      invariant Inv(backend.State())
      invariant if index == 1 then backend.State() == old(backend.State()) else backend.State().Released() && old(backend.State()).Released()
      invariant completed == index - 1
      invariant manifest == Progress(cycles, completed)
      invariant evidence == Progresses(cycles, completed + 1)
      invariant forall i | 1 <= i < index :: Clean(plan(i))
    {
      var record := Record(index, StatusRunning, None);
      var at := RunCycle(backend, plan(index));
      if at.passed {
        completed := completed + 1;
        record := record.(status := StatusPassed);
        manifest := manifest.(cycles := manifest.cycles + [record], completedCycles := completed);
        evidence := evidence + [manifest];
      } else {
        var released := Recover(backend, plan(index), at);
        record := record.(released := Some(released), status := StatusFailed);
        manifest := manifest.(cycles := manifest.cycles + [record], completedCycles := completed,
                              verdict := VerdictFailed, windowsLaunchPermitted := false);
        evidence := evidence + [manifest];
        return Failure(CycleFailed(index)), evidence;
      }
    }
    var finalReleased := backend.IsReleased();
    if !finalReleased {
      manifest := manifest.(verdict := VerdictFailed, windowsLaunchPermitted := false);
      evidence := evidence + [manifest];
      return Failure(FinalReleaseMissing), evidence;
    }
    var permitted := cycles == QUALIFYING_CYCLES && completed == QUALIFYING_CYCLES;
    var verdict := if permitted then VerdictPassed else VerdictIncomplete;
    manifest := manifest.(verdict := verdict, windowsLaunchPermitted := permitted);
    evidence := evidence + [manifest];
    return Success(GateResult(completed, permitted, verdict)), evidence;
  }

  // ---- What can be read off any manifest the gate ever wrote ----

  function PassedCount(cycles: seq<Record>): nat {
    if cycles == [] then 0
    else PassedCount(cycles[..|cycles| - 1]) + (if cycles[|cycles| - 1].status.StatusPassed? then 1 else 0)
  }

  /** The completed count is the number of passed records; those are numbered 1 to k from
      the front; only the last record can have failed; none is left running; and launch is
      permitted only by ten passes out of ten requested. */
  predicate Trustworthy(m: Manifest) {
    && m.completedCycles == PassedCount(m.cycles)
    && (forall i | 0 <= i < |m.cycles| :: m.cycles[i].cycle == i + 1)
    && (forall i | 0 <= i < m.completedCycles && i < |m.cycles| :: m.cycles[i].status.StatusPassed?)
    && m.completedCycles <= |m.cycles| <= m.completedCycles + 1
    && (m.completedCycles < |m.cycles| ==> m.cycles[|m.cycles| - 1].status.StatusFailed? && m.verdict.VerdictFailed?)
    && (m.windowsLaunchPermitted <==>
          m.requestedCycles == 10 && m.completedCycles == 10 && |m.cycles| == 10 && m.verdict.VerdictPassed?)
  }

  lemma {:induction false} PassedRecordsCount(n: nat)
    ensures PassedCount(PassedRecords(n)) == n
  {
    if n > 0 {
      PassedRecordsCount(n - 1);
      assert PassedRecords(n)[..n - 1] == PassedRecords(n - 1);
    }
  }

  lemma ProgressTrustworthy(requested: nat, n: nat)
    ensures Trustworthy(Progress(requested, n))
  {
    PassedRecordsCount(n);
    hide PassedCount;
  }

  lemma FailureTrustworthy(requested: nat, k: nat, released: bool)
    requires 0 < k
    ensures Trustworthy(FailureManifest(requested, k, released))
  {
    FailedRecordCounts(k, released);
    hide PassedCount, PassedRecords;
  }

  lemma FailedRecordCounts(k: nat, released: bool)
    requires 0 < k
    ensures PassedCount(PassedRecords(k - 1) + [Record(k, StatusFailed, Some(released))]) == k - 1
  {
    PassedRecordsCount(k - 1);
    hide PassedRecords;
    var cycles := PassedRecords(k - 1) + [Record(k, StatusFailed, Some(released))];
    assert cycles[..k - 1] == PassedRecords(k - 1);
  }

  lemma FinalTrustworthy(requested: nat)
    ensures Trustworthy(FinalManifest(requested))
  {
    PassedRecordsCount(requested);
    hide PassedCount;
  }

  /** Evidence that can be read on its own: every manifest is trustworthy, completed
      counts only grow, and only the last manifest can permit launch. */
  predicate Audited(evidence: seq<Manifest>) {
    && (forall i | 0 <= i < |evidence| :: Trustworthy(evidence[i]))
    && (forall i | 0 < i < |evidence| :: evidence[i - 1].completedCycles <= evidence[i].completedCycles)
    && (forall i | 0 <= i < |evidence| - 1 :: !evidence[i].windowsLaunchPermitted)
  }

  lemma EvidenceAudited(requested: nat, n: nat, last: Manifest)
    requires Trustworthy(last) && n <= last.completedCycles + 1
    ensures Audited(Progresses(requested, n) + [last])
  {
    hide PassedCount;
    var evidence := Progresses(requested, n) + [last];
    forall i | 0 <= i < |evidence|
      ensures Trustworthy(evidence[i])
    {
      if i < n {
        assert evidence[i] == Progress(requested, i);
        ProgressTrustworthy(requested, i);
      }
    }
    hide Trustworthy;
  }

  /** A whole run on any reachable backend, read from its evidence, whatever failed and
      when: it is audited, and it permits launch exactly after ten clean cycles out of ten
      on a released backend, written with the hardware given back. */
  method RunAndAudit(backend: M1n1AgxBackend, cycles: int, timeout: real, plan: nat -> CyclePlan)
    returns (r: Result<GateResult, GateError>, evidence: seq<Manifest>)
    requires Inv(backend.State())
    modifies backend
    ensures Audited(evidence)
    ensures evidence != [] <==> 0 < cycles && 0.0 < timeout
    ensures evidence != [] ==>
      (evidence[|evidence| - 1].windowsLaunchPermitted <==>
        old(backend.State()).Released() && cycles == 10 && forall i | 1 <= i <= 10 :: Clean(plan(i)))
    ensures evidence != [] && evidence[|evidence| - 1].windowsLaunchPermitted ==>
      backend.State().Released() && !FirmwareLive(backend.State().hw) && !Owned(backend.State().hw)
  {
    ghost var before := backend.State();
    r, evidence := RunGate(backend, cycles, timeout, plan);
    hide Trustworthy, EndsReleased, Clean, Audited;
    if cycles <= 0 || timeout <= 0.0 {
      NothingWritten();
    } else if r.Success? {
      FinalTrustworthy(cycles);
      EvidenceAudited(cycles, cycles + 1, FinalManifest(cycles));
    } else {
      ghost var k, released := r.error.cycle, EndsReleased(before, plan(r.error.cycle));
      FailureTrustworthy(cycles, k, released);
      EvidenceAudited(cycles, k, FailureManifest(cycles, k, released));
    }
  }

  lemma NothingWritten()
    ensures Audited([])
  {
  }
}
