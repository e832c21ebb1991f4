/** `run_render_gate` of tools/agx_render_gate.py: one render cycle, whatever call fails.
    Evidence writes are appends that do not fail; clock readings are
    reduced to whether the submission was late. */
module RenderGate {
  import opened Results
  import opened Json
  import opened AgxLifecycle
  import opened RenderBackend
  import RenderEvidence

  /** The backend calls of the gate, by name. */
  datatype BackendCall =
    | CallPrepare
    | CallStart
    | CallHeartbeat
    | CallConfigure
    | CallSubmit
    | CallSnapshot
    | CallStop
    | CallReset
    | CallReleased

  /** What goes wrong, in the cycle and in the recovery. */
  datatype RenderPlan = RenderPlan(
    prepare: PrepareFault,
    startRaises: bool,
    heartbeatRaises: bool,
    configure: ConfigureFault,
    submit: SubmitFault,
    completion: Json,
    submitLate: bool,
    snapshotRaises: bool,
    stopRaises: bool,
    reset: RenderResetFault,
    recoveryStopRaises: bool,
    recoveryReset: RenderResetFault
  )

  datatype GateError = CyclesNotOne | EvidenceDirNotFresh | GateFailed

  datatype Status = StatusRunning | StatusPassed | StatusFailed
  datatype Verdict = VerdictRunning | VerdictIncomplete | VerdictFailed

  /** The one-shot manifest with its only record. */
  datatype Manifest = Manifest(
    completedCycles: nat,
    status: Status,
    completion: Option<Json>,
    released: Option<bool>,
    verdict: Verdict,
    windowsLaunchPermitted: bool
  )

  const FIRST_MANIFEST := Manifest(0, StatusRunning, None, None, VerdictRunning, false)

  datatype GateResult = GateResult(completedCycles: nat, windowsLaunchPermitted: bool, verdict: Verdict)

  /** The calls of a cycle in which nothing fails. */
  const FULL_CYCLE: seq<BackendCall> :=
    [CallPrepare, CallStart, CallHeartbeat, CallConfigure, CallSubmit, CallSnapshot, CallStop, CallReset, CallReleased]

  /** The stop and reset attempts in a trace, in order. */
  function StopsAndResets(trace: seq<BackendCall>): seq<BackendCall> {
    if trace == [] then []
    else var last := trace[|trace| - 1];
      StopsAndResets(trace[..|trace| - 1]) + (if last.CallStop? || last.CallReset? then [last] else [])
  }

  lemma OneMoreCall(trace: seq<BackendCall>, call: BackendCall)
    ensures StopsAndResets(trace + [call]) ==
      StopsAndResets(trace) + (if call.CallStop? || call.CallReset? then [call] else [])
  {
    assert (trace + [call])[..|trace|] == trace;
  }

  lemma {:induction false} EarlyCallsNeither(n: nat)
    requires n <= 5
    ensures StopsAndResets(FULL_CYCLE[..n]) == []
  {
    if n > 0 {
      EarlyCallsNeither(n - 1);
      OneMoreCall(FULL_CYCLE[..n - 1], FULL_CYCLE[n - 1]);
      assert FULL_CYCLE[..n] == FULL_CYCLE[..n - 1] + [FULL_CYCLE[n - 1]];
    }
  }

  // ---- One cycle ----

  predicate PrepareClean(f: PrepareFault) {
    !ClocksFail(f) && (f.PrepareRuns? || f.ClockRaises?)
  }

  predicate CompletionAccepted(p: RenderPlan, fixture: RenderEvidence.Fixture) {
    !p.submitLate && RenderEvidence.ValidCompletion(p.completion, fixture.poison, fixture.expected)
  }

  /** Nothing up to the submission raises. */
  predicate SubmissionClean(p: RenderPlan) {
    PrepareClean(p.prepare) && !p.startRaises && !p.heartbeatRaises && p.configure.ConfigureRuns? && p.submit.SubmitRuns?
  }

  predicate ResetClean(f: RenderResetFault) {
    f.roots.ResetRuns? && !f.freeEventRaises && f.lifecycle.ResetRuns?
  }

  /** Nothing raises, nothing is late, and the host validates the completion. */
  predicate Clean(p: RenderPlan, fixture: RenderEvidence.Fixture) {
    && SubmissionClean(p)
    && CompletionAccepted(p, fixture)
    && !p.snapshotRaises && !p.stopRaises && ResetClean(p.reset)
  }

  /** A submission that raised left the temporary file behind. */
  predicate FileLeft(p: RenderPlan) {
    p.submit.SubmitRaises? || SubmitCleanup(p.submit).unlinkFails
  }

  /** Whether a failed run on a new backend ends released, decided by what failed first. */
  predicate ReleasedAfterFailure(p: RenderPlan, fixture: RenderEvidence.Fixture) {
    if !SubmissionClean(p) then ReleasedAfterNoSubmission(p)
    else if !CompletionAccepted(p, fixture) || p.snapshotRaises then
      !p.recoveryStopRaises && ResetClean(p.recoveryReset)
    else false
  }

  /** Refused before any clock request: yes.  Construction lost: no.  A configuration that
      got past its guards and failed: no.  Otherwise the recovery decides. */
  predicate ReleasedAfterNoSubmission(p: RenderPlan) {
    if p.prepare.LiveReaderRaises? || p.prepare.ContractDiffers? || p.prepare.VersionSetterRaises? then true
    else if ClocksFail(p.prepare) || p.prepare.FactoryRaises? then false
    else if p.prepare.TrackerRaises? then p.recoveryReset.lifecycle.ResetRuns?
    else if p.startRaises || p.heartbeatRaises || p.configure.PageSizeDiffers? then
      !p.recoveryStopRaises && p.recoveryReset.lifecycle.ResetRuns?
    else if !p.configure.ConfigureRuns? || p.recoveryStopRaises || !ResetClean(p.recoveryReset) then false
    else !(FileLeft(p) && p.recoveryReset.cleanup.unlinkFails)
  }

  /** The backend after the recovery. */
  function Recovered(c: RCore, stopAttempted: bool, resetAttempted: bool, p: RenderPlan): RCore {
    var s := if stopAttempted then c else RStopped(c, p.recoveryStopRaises).core;
    if resetAttempted then s else RResetDone(s, p.recoveryReset).core
  }

  // The states a cycle passes through on a new backend.

  predicate Idle(c: RCore) {
    && !c.contextConfigured && !c.configurationFailed && !c.context && !c.frame && !c.renderer
    && !c.temporary && !c.frameCleaned && !c.submitted && !c.eventsFreed
  }

  predicate Ready(c: RCore, started: bool) {
    Idle(c) && c.agx && c.fixture && c.life.agx && c.life.prepared && c.life.started == started
  }

  predicate Loaded(c: RCore) {
    && c.agx && c.life.agx && c.life.prepared && c.life.started
    && c.contextConfigured && !c.configurationFailed && c.context && c.frame && c.renderer
    && !c.frameCleaned && !c.submitted && !c.eventsFreed && c.temporary
  }

  /** After a submission that returned. */
  predicate Rendered(c: RCore, started: bool) {
    && c.agx && c.life.agx && c.life.started == started
    && c.contextConfigured && !c.configurationFailed && c.renderer && !c.eventsFreed
    && !c.temporary && c.frameCleaned
  }

  lemma PrepareFromNew(f: PrepareFault)
    ensures var e := RPrepared(NEW_RCORE, f);
      (e.ok <==> PrepareClean(f)) && (e.ok ==> Ready(e.core, false))
  {
  }

  lemma StartFromReady(c: RCore, raises: bool, p: RenderPlan)
    requires Ready(c, false)
    ensures var e := RStarted(c, raises);
      && (e.ok <==> !raises)
      && (e.ok ==> Ready(e.core, true))
      && (!e.ok ==> (Recovered(e.core, false, false, p).Released() <==>
            !p.recoveryStopRaises && p.recoveryReset.lifecycle.ResetRuns?))
  {
    var d := RStarted(c, raises).core;
    assert Idle(d) && d.life.agx && d.life.started;
    StartedRecovers(d, p);
    hide Recovered;
  }

  lemma ReadyBeats(c: RCore, raises: bool, p: RenderPlan)
    requires Ready(c, true)
    ensures Heartbeat(c.life, raises).ok <==> !raises
    ensures Recovered(c, false, false, p).Released() <==>
      !p.recoveryStopRaises && p.recoveryReset.lifecycle.ResetRuns?
  {
    StartedRecovers(c, p);
  }

  lemma ConfigureFromReady(c: RCore, f: ConfigureFault, p: RenderPlan)
    requires Ready(c, true)
    ensures var e := Configured(c, CONTEXT_ID, f);
      && (e.ok <==> f.ConfigureRuns?)
      && (e.ok ==> Loaded(e.core))
      && (!e.ok ==> (Recovered(e.core, false, false, p).Released() <==>
            f.PageSizeDiffers? && !p.recoveryStopRaises && p.recoveryReset.lifecycle.ResetRuns?))
  {
    var d := Configured(c, CONTEXT_ID, f).core;
    if f.PageSizeDiffers? {
      StartedRecovers(c, p);
    } else if !f.ConfigureRuns? {
      assert d.configurationFailed;
      PoisonedHeld(d, p);
    }
    hide Recovered;
  }

  lemma SubmitFromLoaded(c: RCore, p: RenderPlan)
    requires RInv(c) && Loaded(c)
    ensures var e := Submitted(c, QUEUE_INDEX, COMPLETION_DEADLINE, p.submit);
      && (e.ok <==> p.submit.SubmitRuns?)
      && (e.ok ==> Rendered(e.core, true))
      && (!e.ok ==> (Recovered(e.core, false, false, p).Released() <==>
            && !p.recoveryStopRaises && ResetClean(p.recoveryReset)
            && !(FileLeft(p) && p.recoveryReset.cleanup.unlinkFails)))
  {
    hide RInv;
    var d := Submitted(c, QUEUE_INDEX, COMPLETION_DEADLINE, p.submit).core;
    RInvKept(c, RSubmit(QUEUE_INDEX, COMPLETION_DEADLINE, p.submit));
    assert Busy(d, FileLeft(p));
    BusyRecovers(d, FileLeft(p), p);
    hide Recovered;
  }

  lemma RenderedRecovers(c: RCore, p: RenderPlan)
    requires RInv(c) && Rendered(c, true)
    ensures Recovered(c, false, false, p).Released() <==> !p.recoveryStopRaises && ResetClean(p.recoveryReset)
  {
    hide RInv;
    assert Busy(c, false);
    BusyRecovers(c, false, p);
  }

  lemma StopFromRendered(c: RCore, raises: bool, p: RenderPlan)
    requires Rendered(c, true)
    ensures var e := RStopped(c, raises);
      && (e.ok <==> !raises)
      && (e.ok ==> Rendered(e.core, false))
      && (!e.ok ==> !Recovered(e.core, true, false, p).Released())
  {
    if raises {
      StartedHeld(RStopped(c, raises).core, p.recoveryReset);
    }
    hide RResetDone;
  }

  lemma NothingLeftToRecover(c: RCore, p: RenderPlan)
    ensures Recovered(c, true, true, p) == c
  {
  }

  lemma ResetFromRendered(c: RCore, f: RenderResetFault)
    requires RInv(c) && Rendered(c, false)
    ensures var e := RResetDone(c, f);
      && (e.ok <==> ResetClean(f))
      && (e.ok ==> e.core.Released())
  {
    hide RInv, RResetDone;
    assert Halted(c, false);
    ResetFromHalted(c, f, false);
  }

  /** With the frame loaded or rendered, firmware stopped. */
  predicate Halted(c: RCore, left: bool) {
    && c.agx && c.life.agx && !c.life.started
    && c.contextConfigured && !c.configurationFailed && c.renderer && !c.eventsFreed
    && c.temporary == left && (c.frameCleaned ==> !left)
  }

  lemma ResetFromHalted(c: RCore, f: RenderResetFault, left: bool)
    requires RInv(c) && Halted(c, left)
    ensures var e := RResetDone(c, f);
      && (e.ok <==> ResetClean(f))
      && (e.ok ==> (e.core.Released() <==> !(left && f.cleanup.unlinkFails)))
  {
    hide Inv, Owned;
    assert Halted(CleanedUp(c, f.cleanup), left && f.cleanup.unlinkFails);
    hide CleanedUp;
  }

  // Where each failure leaves the recovery.

  lemma FailedPrepareRecovers(p: RenderPlan)
    requires !PrepareClean(p.prepare)
    ensures Recovered(RPrepared(NEW_RCORE, p.prepare).core, false, false, p).Released() <==> ReleasedAfterNoSubmission(p)
  {
    hide Owned, FirmwareLive;
  }

  lemma StartedRecovers(c: RCore, p: RenderPlan)
    requires Idle(c) && c.life.agx && c.life.started
    ensures Recovered(c, false, false, p).Released() <==> !p.recoveryStopRaises && p.recoveryReset.lifecycle.ResetRuns?
  {
    hide Owned, FirmwareLive;
  }

  lemma PoisonedHeld(c: RCore, p: RenderPlan)
    requires c.configurationFailed
    ensures !Recovered(c, false, false, p).Released()
  {
    FlagsOnlyRise(c, RStop(p.recoveryStopRaises));
    FlagsOnlyRise(RStopped(c, p.recoveryStopRaises).core, RReset(p.recoveryReset));
    hide RStopped, RResetDone;
  }

  /** With the frame loaded or rendered, firmware running. */
  predicate Busy(c: RCore, left: bool) {
    && c.agx && c.life.agx && c.life.started
    && c.contextConfigured && !c.configurationFailed && c.renderer && !c.eventsFreed
    && c.temporary == left && (c.frameCleaned ==> !left)
  }

  lemma BusyRecovers(c: RCore, left: bool, p: RenderPlan)
    requires RInv(c) && Busy(c, left)
    ensures Recovered(c, false, false, p).Released() <==>
      !p.recoveryStopRaises && ResetClean(p.recoveryReset) && !(left && p.recoveryReset.cleanup.unlinkFails)
  {
    hide Owned, FirmwareLive, RInv;
    var s := RStopped(c, p.recoveryStopRaises).core;
    RInvKept(c, RStop(p.recoveryStopRaises));
    if p.recoveryStopRaises {
      StartedHeld(s, p.recoveryReset);
    } else {
      assert Halted(s, left);
      ResetFromHalted(s, p.recoveryReset, left);
      if !RResetDone(s, p.recoveryReset).ok {
        FailedResetHeld(s, p.recoveryReset);
      }
    }
    hide RResetDone;
  }

  /** Firmware that is still running is never released by a reset. */
  lemma StartedHeld(c: RCore, f: RenderResetFault)
    requires c.life.started
    ensures RResetDone(c, f).core.life.started && !RResetDone(c, f).core.Released()
  {
    assert CleanedUp(c, f.cleanup).life == c.life;
    hide CleanedUp, Owned;
  }

  lemma CallKeepsTidy(c: RCore, call: RCall)
    requires !call.RConfigure?
    ensures Tidy(c) ==> Tidy(RApply(c, call).core)
  {
    OnlyConfigurations(c, call);
    hide RApply, Tidy;
    if Tidy(c) {
      TidyKept(c, call);
    }
  }

  /** The gate configures once, when no file has been recorded yet. */
  lemma ConfigureKeepsTidy(c: RCore, f: ConfigureFault)
    requires Ready(c, true) && Tidy(c)
    ensures Tidy(Configured(c, CONTEXT_ID, f).core)
  {
    hide Configured, Tidy;
    TidyKept(c, RConfigure(CONTEXT_ID, f));
  }

  /** Preparation up to the heartbeat: `calls` is how many were made. */
  method AttemptStart(backend: M1n1AgxRenderBackend, p: RenderPlan) returns (ok: bool, calls: nat)
    requires RInv(backend.State())
    modifies backend, backend.lifecycle
    ensures RInv(backend.State())
    ensures 1 <= calls <= 3 && (ok ==> calls == 3)
    ensures Tidy(old(backend.State())) ==> Tidy(backend.State())
    ensures old(backend.State()) == NEW_RCORE ==>
      && (ok <==> PrepareClean(p.prepare) && !p.startRaises && !p.heartbeatRaises)
      && (ok ==> Ready(backend.State(), true))
      && (!ok ==> (Recovered(backend.State(), false, false, p).Released() <==> ReleasedAfterNoSubmission(p)))
  {
    hide RInv, RPrepared, RStarted, Idle, Ready, Recovered, ResetClean, Tidy;
    ghost var onNew := backend.State() == NEW_RCORE;
    ghost var c := backend.State();
    ok := backend.Prepare(p.prepare);
    RInvKept(c, RPrepare(p.prepare));
    CallKeepsTidy(c, RPrepare(p.prepare));
    PrepareFromNew(p.prepare);
    if !ok {
      if onNew {
        FailedPrepareRecovers(p);
      }
      return false, 1;
    }
    c := backend.State();
    ok := backend.Start(p.startRaises);
    RInvKept(c, RStart(p.startRaises));
    CallKeepsTidy(c, RStart(p.startRaises));
    if onNew {
      StartFromReady(c, p.startRaises, p);
    }
    if !ok {
      return false, 2;
    }
    ok := backend.Beat(p.heartbeatRaises);
    if onNew {
      ReadyBeats(backend.State(), p.heartbeatRaises, p);
    }
    return ok, 3;
  }

  /** And on to the submission. */
  method AttemptSubmission(backend: M1n1AgxRenderBackend, p: RenderPlan) returns (ok: bool, calls: nat)
    requires RInv(backend.State())
    modifies backend, backend.lifecycle
    ensures RInv(backend.State())
    ensures 1 <= calls <= 5 && (ok ==> calls == 5)
    ensures old(backend.State()) == NEW_RCORE ==> Tidy(backend.State())
    ensures old(backend.State()) == NEW_RCORE ==>
      && (ok <==> SubmissionClean(p))
      && (ok ==> Rendered(backend.State(), true))
      && (!ok ==> (Recovered(backend.State(), false, false, p).Released() <==> ReleasedAfterNoSubmission(p)))
  {
    hide RInv, Configured, Submitted, Idle, Ready, Loaded, Rendered, Busy, Recovered, ResetClean, Tidy;
    ghost var onNew := backend.State() == NEW_RCORE;
    NewIsTidy();
    ok, calls := AttemptStart(backend, p);
    if !ok {
      return;
    }
    ghost var c := backend.State();
    ok := backend.ConfigureContext(CONTEXT_ID, p.configure);
    RInvKept(c, RConfigure(CONTEXT_ID, p.configure));
    if onNew {
      ConfigureFromReady(c, p.configure, p);
      ConfigureKeepsTidy(c, p.configure);
    }
    if !ok {
      return false, 4;
    }
    c := backend.State();
    ok := backend.SubmitFrame(QUEUE_INDEX, COMPLETION_DEADLINE, p.submit);
    RInvKept(c, RSubmit(QUEUE_INDEX, COMPLETION_DEADLINE, p.submit));
    CallKeepsTidy(c, RSubmit(QUEUE_INDEX, COMPLETION_DEADLINE, p.submit));
    if onNew {
      SubmitFromLoaded(c, p);
    }
    return ok, 5;
  }

  lemma NewIsTidy()
    ensures Tidy(NEW_RCORE)
  {
  }

  /** A reset that raised never leaves the backend released. */
  lemma FailedResetHeld(c: RCore, f: RenderResetFault)
    requires RInv(c) && !RResetDone(c, f).ok
    ensures !RResetDone(c, f).core.Released()
  {
    CleanupKeepsRInv(c, f.cleanup);
    hide CleanedUp, Owned;
  }

  method StopBackend(backend: M1n1AgxRenderBackend, raises: bool) returns (ok: bool)
    requires RInv(backend.State())
    modifies backend.lifecycle
    ensures RInv(backend.State())
    ensures REffect(backend.State(), ok) == RStopped(old(backend.State()), raises)
    ensures Tidy(old(backend.State())) ==> Tidy(backend.State())
  {
    hide RInv, RStopped, Tidy;
    ghost var c := backend.State();
    ok := backend.Stop(raises);
    RInvKept(c, RStop(raises));
    CallKeepsTidy(c, RStop(raises));
  }

  method ResetBackend(backend: M1n1AgxRenderBackend, f: RenderResetFault) returns (ok: bool)
    requires RInv(backend.State())
    modifies backend, backend.lifecycle
    ensures RInv(backend.State())
    ensures REffect(backend.State(), ok) == RResetDone(old(backend.State()), f)
    ensures Tidy(old(backend.State())) ==> Tidy(backend.State())
  {
    hide RInv, RResetDone, Tidy;
    ghost var c := backend.State();
    ok := backend.Reset(f);
    RInvKept(c, RReset(f));
    CallKeepsTidy(c, RReset(f));
  }

  /** How the cycle itself ended: what it attempted and whether it passed. */
  datatype Cycle = Cycle(passed: bool, snapshotTaken: bool, stopAttempted: bool, resetAttempted: bool, completion: Option<Json>)

  /** The body of the gate's `try`. */
  method AttemptCycle(backend: M1n1AgxRenderBackend, fixture: RenderEvidence.Fixture, p: RenderPlan)
    returns (r: Cycle, trace: seq<BackendCall>)
    requires RInv(backend.State())
    modifies backend, backend.lifecycle
    ensures RInv(backend.State())
    ensures r.passed ==> backend.State().Released() && trace == FULL_CYCLE
    ensures r.passed ==> r.completion == Some(p.completion)
    ensures r.completion.Some? ==> CompletionAccepted(p, fixture)
    ensures old(backend.State()) == NEW_RCORE ==> Tidy(backend.State())
    ensures old(backend.State()) == NEW_RCORE ==> (r.passed <==> Clean(p, fixture))
    ensures old(backend.State()) == NEW_RCORE && !r.passed ==>
      (Recovered(backend.State(), r.stopAttempted, r.resetAttempted, p).Released() <==> ReleasedAfterFailure(p, fixture))
    ensures StopsAndResets(trace) ==
      (if r.stopAttempted then [CallStop] else []) + (if r.resetAttempted then [CallReset] else [])
    ensures r.resetAttempted ==> r.stopAttempted
    ensures r.stopAttempted ==> r.snapshotTaken
  {
    hide RInv, Rendered, RStopped, RResetDone, CompletionAccepted, SubmissionClean, ResetClean, StopsAndResets,
      Recovered, ReleasedAfterNoSubmission, Tidy;
    ghost var onNew := backend.State() == NEW_RCORE;
    var ok, calls := AttemptSubmission(backend, p);
    trace := FULL_CYCLE[..calls];
    EarlyCallsNeither(calls);
    if !ok {
      return Cycle(false, false, false, false, None), trace;
    }
    if onNew {
      RenderedRecovers(backend.State(), p);
    }
    if !CompletionAccepted(p, fixture) {
      return Cycle(false, false, false, false, None), trace;
    }
    var completion := Some(p.completion);
    OneMoreCall(trace, CallSnapshot);
    trace := trace + [CallSnapshot];
    if p.snapshotRaises {
      return Cycle(false, false, false, false, completion), trace;
    }
    OneMoreCall(trace, CallStop);
    trace := trace + [CallStop];
    ghost var c := backend.State();
    ok := StopBackend(backend, p.stopRaises);
    if onNew {
      StopFromRendered(c, p.stopRaises, p);
    }
    if !ok {
      return Cycle(false, true, true, false, completion), trace;
    }
    OneMoreCall(trace, CallReset);
    trace := trace + [CallReset];
    c := backend.State();
    ok := ResetBackend(backend, p.reset);
    if onNew {
      ResetFromRendered(c, p.reset);
      NothingLeftToRecover(backend.State(), p);
    }
    if !ok {
      FailedResetHeld(c, p.reset);
      return Cycle(false, true, true, true, completion), trace;
    }
    OneMoreCall(trace, CallReleased);
    trace := trace + [CallReleased];
    assert trace == FULL_CYCLE;
    var released := backend.IsReleased();
    return Cycle(released, true, true, true, completion), trace;
  }

  /** The body of the gate's `except`. */
  method Recover(backend: M1n1AgxRenderBackend, p: RenderPlan, at: Cycle, before: seq<BackendCall>)
    returns (released: bool, trace: seq<BackendCall>)
    requires RInv(backend.State())
    requires at.resetAttempted ==> at.stopAttempted
    requires StopsAndResets(before) ==
      (if at.stopAttempted then [CallStop] else []) + (if at.resetAttempted then [CallReset] else [])
    modifies backend, backend.lifecycle
    ensures RInv(backend.State())
    ensures released == backend.State().Released()
    ensures Tidy(old(backend.State())) ==> Tidy(backend.State())
    ensures backend.State() == Recovered(old(backend.State()), at.stopAttempted, at.resetAttempted, p)
    ensures before <= trace && StopsAndResets(trace) == [CallStop, CallReset]
  {
    hide RInv, RStopped, RResetDone, StopsAndResets, Tidy;
    trace := before;
    if !at.snapshotTaken {
      OneMoreCall(trace, CallSnapshot);
      trace := trace + [CallSnapshot];
    }
    if !at.stopAttempted {
      OneMoreCall(trace, CallStop);
      trace := trace + [CallStop];
      var _ := StopBackend(backend, p.recoveryStopRaises);
    }
    if !at.resetAttempted {
      OneMoreCall(trace, CallReset);
      trace := trace + [CallReset];
      var _ := ResetBackend(backend, p.recoveryReset);
    }
    OneMoreCall(trace, CallReleased);
    trace := trace + [CallReleased];
    released := backend.IsReleased();
  }

  /** `run_render_gate`.  `evidence` is every manifest written, in order, and `trace` every
      backend call made.  Whatever fails: launch stays blocked in all evidence; stop is
      attempted exactly once and then reset exactly once; a passed record carries a
      completion the host validated and is written only with everything given back; a
      failed record tells the truth about release.  On a new backend the cycle passes
      exactly when nothing went wrong, and release leaves no temporary file on the disk. */
  method RunRenderGate(backend: M1n1AgxRenderBackend, fixture: RenderEvidence.Fixture, cycles: int, dirFresh: bool, p: RenderPlan)
    returns (r: Result<GateResult, GateError>, evidence: seq<Manifest>, trace: seq<BackendCall>)
    requires RInv(backend.State())
    modifies backend, backend.lifecycle
    ensures RInv(backend.State())
    ensures cycles != 1 ==> r == Failure(CyclesNotOne)
    ensures cycles == 1 && !dirFresh ==> r == Failure(EvidenceDirNotFresh)
    ensures cycles != 1 || !dirFresh ==> evidence == [] && trace == [] && backend.State() == old(backend.State())
    ensures forall i | 0 <= i < |evidence| :: !evidence[i].windowsLaunchPermitted
    ensures cycles == 1 && dirFresh ==>
      && StopsAndResets(trace) == [CallStop, CallReset]
      && |evidence| == 2 && evidence[0] == FIRST_MANIFEST
    ensures r.Success? ==>
      && r.value == GateResult(1, false, VerdictIncomplete)
      && evidence[1] == Manifest(1, StatusPassed, Some(p.completion), None, VerdictIncomplete, false)
      && RenderEvidence.ValidCompletion(p.completion, fixture.poison, fixture.expected)
      && backend.State().Released()
      && trace == FULL_CYCLE
    ensures r.Failure? && cycles == 1 && dirFresh ==>
      && r.error == GateFailed
      && evidence[1].status.StatusFailed? && evidence[1].completedCycles == 0 && evidence[1].verdict.VerdictFailed?
      && evidence[1].released == Some(backend.State().Released())
    ensures cycles == 1 && dirFresh && old(backend.State()) == NEW_RCORE ==> (r.Success? <==> Clean(p, fixture))
    ensures cycles == 1 && dirFresh && old(backend.State()) == NEW_RCORE && r.Failure? ==>
      evidence[1].released == Some(ReleasedAfterFailure(p, fixture))
    ensures cycles == 1 && dirFresh && old(backend.State()) == NEW_RCORE ==>
      backend.State().Released() ==> backend.State().files == 0
  {
    hide RInv, Clean, Tidy, StopsAndResets, RenderEvidence.ValidCompletion, Recovered, ReleasedAfterFailure;
    trace := [];
    evidence := [];
    if cycles != 1 {
      return Failure(CyclesNotOne), evidence, trace;
    }
    if !dirFresh {
      return Failure(EvidenceDirNotFresh), evidence, trace;
    }
    var manifest := FIRST_MANIFEST;
    evidence := evidence + [manifest];
    var cycle, calls := AttemptCycle(backend, fixture, p);
    trace := calls;
    manifest := manifest.(completion := cycle.completion);
    if cycle.passed {
      FullCycleStopsOnce();
      manifest := manifest.(status := StatusPassed, completedCycles := 1, verdict := VerdictIncomplete);
      evidence := evidence + [manifest];
      ReleasedLeavesNoFile(backend.State());
      return Success(GateResult(1, false, VerdictIncomplete)), evidence, trace;
    }
    var released;
    released, trace := Recover(backend, p, cycle, calls);
    ReleasedLeavesNoFile(backend.State());
    manifest := manifest.(released := Some(released), status := StatusFailed, completedCycles := 0,
                          verdict := VerdictFailed, windowsLaunchPermitted := false);
    evidence := evidence + [manifest];
    return Failure(GateFailed), evidence, trace;
  }

  lemma ReleasedLeavesNoFile(c: RCore)
    ensures Tidy(c) && c.Released() ==> c.files == 0
  {
  }

  lemma FullCycleStopsOnce()
    ensures StopsAndResets(FULL_CYCLE) == [CallStop, CallReset]
  {
    EarlyCallsNeither(5);
    var t5 := FULL_CYCLE[..5];
    OneMoreCall(t5, CallSnapshot);
    OneMoreCall(t5 + [CallSnapshot], CallStop);
    OneMoreCall(t5 + [CallSnapshot] + [CallStop], CallReset);
    OneMoreCall(t5 + [CallSnapshot] + [CallStop] + [CallReset], CallReleased);
    assert FULL_CYCLE == t5 + [CallSnapshot] + [CallStop] + [CallReset] + [CallReleased];
  }
}
