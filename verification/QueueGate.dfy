/** `run_queue_gate` and `validate_completion` of tools/agx_queue_gate.py.  The backend is
    any object whose calls may raise, so a plan says only which of them do. */
module QueueGate {
  import opened Results
  import opened Json
  import RenderEvidence
  import opened RenderGate

  // ---- The completion ----

  function CompletionFields(): set<string> {
    {
      "context_id", "page_size", "queue_index", "queue_type", "submitted_commands",
      "producer_before", "producer_after", "consumer_before", "consumer_after",
      "event_id", "event_count_before", "event_count_after", "matching_event_count",
      "stamp_before", "stamp_after", "elapsed_s", "deadline_s",
      "canary_sha256_before", "canary_sha256_after",
      "guards_unmapped", "declared_mapping_count", "unexpected_mappings"
    }
  }

  function Literals(): map<string, int> {
    map[
      "context_id" := 63, "page_size" := 0x4000, "queue_index" := 1, "submitted_commands" := 1,
      "event_id" := 0, "matching_event_count" := 1, "stamp_before" := 0x5100_0000, "declared_mapping_count" := 1
    ]
  }

  /** Two integers, the second one more than the first. */
  predicate Advances(r: Object, before: string, after: string) {
    && IsInt(Get(r, before), 0) && IsInt(Get(r, after), 0)
    && Get(r, after).n == Get(r, before).n + 1
  }

  /** `validate_completion` returns rather than raising. */
  predicate ValidCompletion(v: Json) {
    && v.Obj?
    && v.fields.Keys == CompletionFields()
    && var r := v.fields;
    && (forall f | f in Literals() :: Get(r, f) == Int(Literals()[f]))
    && Get(r, "queue_type") == Str("3D")
    && Advances(r, "producer_before", "producer_after")
    && Advances(r, "consumer_before", "consumer_after")
    && Get(r, "consumer_before") == Get(r, "producer_before")
    && Get(r, "consumer_after") == Get(r, "producer_after")
    && Advances(r, "event_count_before", "event_count_after")
    && Get(r, "stamp_after") == Get(r, "stamp_before")
    && RenderEvidence.ValidTiming(Get(r, "elapsed_s"), Get(r, "deadline_s"))
    && RenderEvidence.IsHash(Get(r, "canary_sha256_before"))
    && Get(r, "canary_sha256_before") == Get(r, "canary_sha256_after")
    && Get(r, "guards_unmapped") == Bool(true)
    && Get(r, "unexpected_mappings") == Arr([])
  }

  // ---- The gate ----

  /** Which calls raise, what the submission returns, and what `released` answers in the
      cycle and in the recovery; None is an exception. */
  datatype QueuePlan = QueuePlan(
    prepareRaises: bool,
    startRaises: bool,
    heartbeatRaises: bool,
    configureRaises: bool,
    submitRaises: bool,
    completion: Json,
    submitLate: bool,
    snapshotRaises: bool,
    stopRaises: bool,
    resetRaises: bool,
    released: Option<bool>,
    recoveryReleased: Option<bool>
  )

  /** No call raises, nothing is late, the completion is valid, and the backend says that
      it is released. */
  predicate NothingWrong(p: QueuePlan) {
    && !p.prepareRaises && !p.startRaises && !p.heartbeatRaises && !p.configureRaises && !p.submitRaises
    && !p.submitLate && ValidCompletion(p.completion)
    && !p.snapshotRaises && !p.stopRaises && !p.resetRaises && p.released == Some(true)
  }

  /** The body of the gate's `try`. */
  method AttemptQueueCycle(p: QueuePlan) returns (r: Cycle, trace: seq<BackendCall>)
    ensures r.passed <==> NothingWrong(p)
    ensures r.passed ==> trace == FULL_CYCLE && r.completion == Some(p.completion)
    ensures r.completion.Some? ==> r.completion == Some(p.completion) && ValidCompletion(p.completion)
    ensures StopsAndResets(trace) ==
      (if r.stopAttempted then [CallStop] else []) + (if r.resetAttempted then [CallReset] else [])
    ensures r.resetAttempted ==> r.stopAttempted
    ensures r.stopAttempted ==> r.snapshotTaken
  {
    hide StopsAndResets, ValidCompletion;
    var calls := if p.prepareRaises then 1 else if p.startRaises then 2 else if p.heartbeatRaises then 3
                 else if p.configureRaises then 4 else 5;
    trace := FULL_CYCLE[..calls];
    EarlyCallsNeither(calls);
    if calls < 5 || p.submitRaises {
      return Cycle(false, false, false, false, None), trace;
    }
    if p.submitLate || !ValidCompletion(p.completion) {
      return Cycle(false, false, false, false, None), trace;
    }
    var completion := Some(p.completion);
    OneMoreCall(trace, CallSnapshot);
    trace := trace + [CallSnapshot];
    if p.snapshotRaises {
      return Cycle(false, false, false, false, completion), trace;
    }
    OneMoreCall(trace, CallStop);
    trace := trace + [CallStop];
    if p.stopRaises {
      return Cycle(false, true, true, false, completion), trace;
    }
    OneMoreCall(trace, CallReset);
    trace := trace + [CallReset];
    if p.resetRaises {
      return Cycle(false, true, true, true, completion), trace;
    }
    OneMoreCall(trace, CallReleased);
    trace := trace + [CallReleased];
    assert trace == FULL_CYCLE;
    return Cycle(p.released == Some(true), true, true, true, completion), trace;
  }

  /** The body of the gate's `except`: no failing call keeps the next from being made. */
  method RecoverQueue(p: QueuePlan, at: Cycle, before: seq<BackendCall>) returns (released: bool, trace: seq<BackendCall>)
    requires at.resetAttempted ==> at.stopAttempted
    requires StopsAndResets(before) ==
      (if at.stopAttempted then [CallStop] else []) + (if at.resetAttempted then [CallReset] else [])
    ensures released == (p.recoveryReleased == Some(true))
    ensures before <= trace && StopsAndResets(trace) == [CallStop, CallReset]
  {
    hide StopsAndResets;
    trace := before;
    if !at.snapshotTaken {
      OneMoreCall(trace, CallSnapshot);
      trace := trace + [CallSnapshot];
    }
    if !at.stopAttempted {
      OneMoreCall(trace, CallStop);
      trace := trace + [CallStop];
    }
    if !at.resetAttempted {
      OneMoreCall(trace, CallReset);
      trace := trace + [CallReset];
    }
    OneMoreCall(trace, CallReleased);
    trace := trace + [CallReleased];
    released := p.recoveryReleased == Some(true);
  }

  /** `run_queue_gate`, for any backend whatever fails: past the first manifest, stop is
      attempted exactly once and then reset exactly once; launch stays blocked in all
      evidence; the cycle passes exactly when nothing went wrong, and then with a valid
      completion; a failed record claims release only if the backend answered so. */
  method RunQueueGate(cycles: int, dirFresh: bool, p: QueuePlan)
    returns (r: Result<GateResult, GateError>, evidence: seq<Manifest>, trace: seq<BackendCall>)
    ensures cycles != 1 ==> r == Failure(CyclesNotOne)
    ensures cycles == 1 && !dirFresh ==> r == Failure(EvidenceDirNotFresh)
    ensures cycles != 1 || !dirFresh ==> evidence == [] && trace == []
    ensures forall i | 0 <= i < |evidence| :: !evidence[i].windowsLaunchPermitted
    ensures cycles == 1 && dirFresh ==>
      && StopsAndResets(trace) == [CallStop, CallReset]
      && |evidence| == 2 && evidence[0] == FIRST_MANIFEST
      && (r.Success? <==> NothingWrong(p))
    ensures r.Success? ==>
      && r.value == GateResult(1, false, VerdictIncomplete)
      && evidence[1] == Manifest(1, StatusPassed, Some(p.completion), None, VerdictIncomplete, false)
      && ValidCompletion(p.completion)
      && trace == FULL_CYCLE
    ensures r.Failure? && cycles == 1 && dirFresh ==>
      && r.error == GateFailed
      && evidence[1].status.StatusFailed? && evidence[1].completedCycles == 0 && evidence[1].verdict.VerdictFailed?
      && evidence[1].released == Some(p.recoveryReleased == Some(true))
      && (evidence[1].completion.Some? ==> ValidCompletion(p.completion))
  {
    hide StopsAndResets, ValidCompletion;
    trace := [];
    evidence := [];
    if cycles != 1 {
      return Failure(CyclesNotOne), evidence, trace;
    }
    if !dirFresh {
      return Failure(EvidenceDirNotFresh), evidence, trace;
    }
    var manifest := FIRST_MANIFEST;
    evidence := evidence + [manifest];
    var cycle, calls := AttemptQueueCycle(p);
    trace := calls;
    manifest := manifest.(completion := cycle.completion);
    if cycle.passed {
      FullCycleStopsOnce();
      manifest := manifest.(status := StatusPassed, completedCycles := 1, verdict := VerdictIncomplete);
      evidence := evidence + [manifest];
      return Success(GateResult(1, false, VerdictIncomplete)), evidence, trace;
    }
    var released;
    released, trace := RecoverQueue(p, cycle, calls);
    manifest := manifest.(released := Some(released), status := StatusFailed, completedCycles := 0,
                          verdict := VerdictFailed, windowsLaunchPermitted := false);
    evidence := evidence + [manifest];
    return Failure(GateFailed), evidence, trace;
  }
}
