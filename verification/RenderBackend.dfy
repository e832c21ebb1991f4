/** tools/agx_m1n1_render_backend.py: the AGX lifecycle composed with one disposable
    frame in GPU context 63, when any internal call may raise. */
module RenderBackend {
  import opened AgxLifecycle

  const CONTEXT_ID := 63
  const QUEUE_INDEX := 1
  const COMPLETION_DEADLINE := 0.5

  // ---- Which internal call raises ----

  /** `_cleanup_frame` collects errors instead of raising. */
  datatype Cleanup = Cleanup(objectErrors: bool, unlinkFails: bool)

  datatype ConfigureFault =
    | ConfigureRuns
    | PageSizeDiffers
    | ContextRaises
    | BindRaises
    | TemporaryRaises(created: bool)
    | FrameRaises
    | FrameDiffers
    | RendererRaises
    | MappingsRejected

  /** A submission that returns has cleaned up: its receipt is validated to say so.  One that
      raises may do so before the cleanup, while the receipt is built, or when it is judged. */
  datatype SubmitFault =
    | SubmitRuns
    | SubmitRaises
    | ReceiptRaises(cleanup: Cleanup)
    | CompletionRejected(cleanup: Cleanup)

  datatype RenderResetFault = RenderResetFault(cleanup: Cleanup, roots: ResetFault, freeEventRaises: bool, lifecycle: ResetFault)

  // ---- State ----

  /** `roots` is the history of context 63's table roots; `agx` is the backend's own
      reference; `temporary` says that the file at the recorded path exists; `files` is how
      many temporary files the backend has created and not unlinked, recorded or not. */
  datatype RCore = RCore(
    life: Core,
    agx: bool,
    fixture: bool,
    contextConfigured: bool,
    configurationFailed: bool,
    context: bool,
    frame: bool,
    renderer: bool,
    temporary: bool,
    frameCleaned: bool,
    submitted: bool,
    eventsFreed: bool,
    files: int,
    roots: seq<HwEvent>
  ) {
    /** `M1n1AgxRenderBackend.released` */
    predicate Released() {
      && life.Released()
      && !contextConfigured && !context && !frame && !renderer
      && !configurationFailed && !temporary
    }
  }

  const NEW_RCORE := RCore(NEW_CORE, false, false, false, false, false, false, false, false, false, false, false, 0, [])

  datatype REffect = REffect(core: RCore, ok: bool)

  function RPrepared(c: RCore, f: PrepareFault): REffect {
    if c.fixture then REffect(c, false) else
      var e := Prepared(c.life, f);
      REffect(c.(life := e.core, agx := if e.ok then e.core.agx else c.agx, fixture := e.ok), e.ok)
  }

  function RStarted(c: RCore, raises: bool): REffect {
    if !c.fixture then REffect(c, false) else
      var e := Started(c.life, raises);
      REffect(c.(life := e.core, agx := if e.ok then e.core.agx else c.agx), e.ok)
  }

  // How far the `try` body of `configure_context` gets; each stage keeps what came before.

  /** Context ownership is claimed before the binding that may raise. */
  predicate ClaimsContext(f: ConfigureFault) {
    !f.PageSizeDiffers? && !f.ContextRaises?
  }

  predicate RecordsPath(f: ConfigureFault) {
    ClaimsContext(f) && !f.BindRaises? && !f.TemporaryRaises?
  }

  /** Whether a new temporary file is left on the disk, its path recorded or not. */
  predicate CreatesFile(f: ConfigureFault) {
    RecordsPath(f) || (f.TemporaryRaises? && f.created)
  }

  predicate LoadsFrame(f: ConfigureFault) {
    RecordsPath(f) && !f.FrameRaises?
  }

  predicate BuildsRenderer(f: ConfigureFault) {
    f.MappingsRejected? || f.ConfigureRuns?
  }

  /** What the body leaves behind. */
  function Built(c: RCore, f: ConfigureFault): RCore {
    c.(
      context := c.context || ClaimsContext(f),
      contextConfigured := c.contextConfigured || ClaimsContext(f),
      roots := if ClaimsContext(f) then c.roots + [ContextBound] else c.roots,
      files := if CreatesFile(f) then c.files + 1 else c.files,
      temporary := c.temporary || RecordsPath(f),
      frame := c.frame || LoadsFrame(f),
      renderer := c.renderer || BuildsRenderer(f))
  }

  function Configured(c: RCore, contextId: nat, f: ConfigureFault): REffect {
    if contextId != CONTEXT_ID || c.contextConfigured || !c.agx || f.PageSizeDiffers? then REffect(c, false)
    else if f.ConfigureRuns? then REffect(Built(c, f), true)
    else REffect(Built(c, f).(configurationFailed := true), false)
  }

  function CleanedUp(c: RCore, f: Cleanup): RCore {
    if c.frameCleaned then c
    else c.(
      temporary := c.temporary && f.unlinkFails,
      files := if c.temporary && !f.unlinkFails then c.files - 1 else c.files,
      frameCleaned := !f.objectErrors && !(c.temporary && f.unlinkFails))
  }

  function SubmitCleanup(f: SubmitFault): Cleanup
    requires !f.SubmitRaises?
  {
    if f.SubmitRuns? then Cleanup(false, false) else f.cleanup
  }

  /** `submit_frame`: cleanup happens before the completion is judged. */
  function Submitted(c: RCore, queueIndex: int, timeout: real, f: SubmitFault): REffect {
    if queueIndex != QUEUE_INDEX || timeout != COMPLETION_DEADLINE then REffect(c, false)
    else if !c.contextConfigured || !c.renderer || c.submitted || c.frameCleaned || f.SubmitRaises? then REffect(c, false)
    else if f.ReceiptRaises? then REffect(CleanedUp(c, f.cleanup), false)
    else REffect(CleanedUp(c, SubmitCleanup(f)).(submitted := true), f.SubmitRuns?)
  }

  function RStopped(c: RCore, raises: bool): REffect {
    var e := Stopped(c.life, raises);
    REffect(c.(life := e.core), e.ok)
  }

  /** The part of `reset` that runs only with a context configured. */
  function RootsReset(c: RCore, f: RenderResetFault): REffect {
    if !c.contextConfigured || !c.agx then REffect(c, true) else
      var cleared := c.(roots := c.roots + RESET[..ResetSteps(f.roots)]);
      if !f.roots.ResetRuns? then REffect(cleared, false)
      else if !c.renderer || c.eventsFreed then REffect(cleared, true)
      else if f.freeEventRaises then REffect(cleared, false)
      else REffect(cleared.(eventsFreed := true), true)
  }

  function Dropped(c: RCore): RCore {
    c.(contextConfigured := false, context := false, frame := false, renderer := false)
  }

  function LifecycleReset(c: RCore, f: ResetFault): REffect {
    var e := ResetEffect(c.life, f);
    REffect(c.(life := e.core, agx := c.agx && !e.ok), e.ok)
  }

  function RResetDone(c: RCore, f: RenderResetFault): REffect {
    var e := RootsReset(CleanedUp(c, f.cleanup), f);
    if !e.ok then e else LifecycleReset(Dropped(e.core), f.lifecycle)
  }

  class M1n1AgxRenderBackend {
    const lifecycle: M1n1AgxBackend
    var agx: bool
    var fixture: bool
    var contextConfigured: bool
    var configurationFailed: bool
    var context: bool
    var frame: bool
    var renderer: bool
    var temporary: bool
    var frameCleaned: bool
    var submitted: bool
    var eventsFreed: bool
    ghost var files: int
    ghost var roots: seq<HwEvent>

    ghost function State(): RCore
      reads this, lifecycle
    {
      RCore(lifecycle.State(), agx, fixture, contextConfigured, configurationFailed, context, frame, renderer,
            temporary, frameCleaned, submitted, eventsFreed, files, roots)
    }

    constructor ()
      ensures State() == NEW_RCORE && fresh(lifecycle)
    {
      lifecycle := new M1n1AgxBackend();
      agx, fixture, contextConfigured, configurationFailed := false, false, false, false;
      context, frame, renderer, temporary, frameCleaned := false, false, false, false, false;
      submitted, eventsFreed, files, roots := false, false, 0, [];
    }

    method Prepare(f: PrepareFault) returns (ok: bool)
      modifies this, lifecycle
      ensures REffect(State(), ok) == RPrepared(old(State()), f)
    {
      if fixture {
        return false;
      }
      ok := lifecycle.Prepare(f);
      if ok {
        agx := lifecycle.agx;
        fixture := true;
      }
    }

    method Start(raises: bool) returns (ok: bool)
      modifies this, lifecycle
      ensures REffect(State(), ok) == RStarted(old(State()), raises)
    {
      if !fixture {
        return false;
      }
      ok := lifecycle.Start(raises);
      if ok {
        agx := lifecycle.agx;
      }
    }

    method Beat(raises: bool) returns (ok: bool)
      ensures ok == Heartbeat(State().life, raises).ok
    {
      ok := lifecycle.Beat(raises);
    }

    method ConfigureContext(contextId: nat, f: ConfigureFault) returns (ok: bool)
      modifies this
      ensures REffect(State(), ok) == Configured(old(State()), contextId, f)
    {
      hide Built;
      if contextId != CONTEXT_ID || contextConfigured || !agx || f.PageSizeDiffers? {
        return false;
      }
      ok := BuildContext(f);
      if !ok {
        configurationFailed := true;
      }
    }

    /** The `try` body of `configure_context`, as a step of the state. */
    method BuildContext(f: ConfigureFault) returns (ok: bool)
      requires !f.PageSizeDiffers?
      modifies this
      ensures State() == Built(old(State()), f)
      ensures ok == f.ConfigureRuns?
    {
      hide ClaimsContext, RecordsPath, CreatesFile, LoadsFrame, BuildsRenderer;
      ok := BuildStages(f);
    }

    /** Its stages, field by field. */
    method BuildStages(f: ConfigureFault) returns (ok: bool)
      requires !f.PageSizeDiffers?
      modifies `context, `contextConfigured, `roots, `files, `temporary, `frame, `renderer
      ensures context == (old(context) || ClaimsContext(f))
      ensures contextConfigured == (old(contextConfigured) || ClaimsContext(f))
      ensures roots == if ClaimsContext(f) then old(roots) + [ContextBound] else old(roots)
      ensures files == if CreatesFile(f) then old(files) + 1 else old(files)
      ensures temporary == (old(temporary) || RecordsPath(f))
      ensures frame == (old(frame) || LoadsFrame(f))
      ensures renderer == (old(renderer) || BuildsRenderer(f))
      ensures ok == f.ConfigureRuns?
    {
      if f.ContextRaises? {
        return false;
      }
      context := true;
      // The binding may install a root before it raises.
      contextConfigured := true;
      roots := roots + [ContextBound];
      if f.BindRaises? {
        return false;
      }
      if f.TemporaryRaises? {
        files := if f.created then files + 1 else files;
        return false;
      }
      // The path of an earlier frame is overwritten, whether or not its file is gone.
      files := files + 1;
      temporary := true;
      if f.FrameRaises? {
        return false;
      }
      frame := true;
      if f.FrameDiffers? || f.RendererRaises? {
        return false;
      }
      renderer := true;
      return !f.MappingsRejected?;
    }

    method CleanupFrame(f: Cleanup)
      modifies this
      ensures State() == CleanedUp(old(State()), f)
    {
      if frameCleaned {
        return;
      }
      var errors := f.objectErrors;
      if temporary {
        if f.unlinkFails {
          errors := true;
        } else {
          temporary := false;
          files := files - 1;
        }
      }
      frameCleaned := !errors;
    }

    method SubmitFrame(queueIndex: int, timeout: real, f: SubmitFault) returns (ok: bool)
      modifies this
      ensures REffect(State(), ok) == Submitted(old(State()), queueIndex, timeout, f)
    {
      hide CleanedUp;
      if queueIndex != QUEUE_INDEX {
        return false;
      }
      if timeout != COMPLETION_DEADLINE {
        return false;
      }
      if !contextConfigured || !renderer {
        return false;
      }
      if submitted || frameCleaned {
        return false;
      }
      if f.SubmitRaises? {
        return false;
      }
      CleanupFrame(SubmitCleanup(f));
      if f.ReceiptRaises? {
        return false;
      }
      submitted := true;
      return f.SubmitRuns?;
    }

    method Stop(raises: bool) returns (ok: bool)
      modifies lifecycle
      ensures REffect(State(), ok) == RStopped(old(State()), raises)
    {
      ok := lifecycle.Stop(raises);
    }

    method ResetRoots(f: RenderResetFault) returns (ok: bool)
      modifies this
      ensures REffect(State(), ok) == RootsReset(old(State()), f)
    {
      if contextConfigured && agx {
        roots := roots + RESET[..ResetSteps(f.roots)];
        if !f.roots.ResetRuns? {
          return false;
        }
        if renderer && !eventsFreed {
          if f.freeEventRaises {
            return false;
          }
          eventsFreed := true;
        }
      }
      return true;
    }

    method Drop()
      modifies this
      ensures State() == Dropped(old(State()))
    {
      contextConfigured, context, frame, renderer := false, false, false, false;
    }

    method Reset(f: RenderResetFault) returns (ok: bool)
      modifies this, lifecycle
      ensures REffect(State(), ok) == RResetDone(old(State()), f)
    {
      hide RootsReset, Dropped, CleanedUp;
      CleanupFrame(f.cleanup);
      ok := ResetRoots(f);
      if !ok {
        return;
      }
      Drop();
      ok := lifecycle.Reset(f.lifecycle);
      if ok {
        agx := false;
      }
    }

    method IsReleased() returns (r: bool)
      ensures r == State().Released()
    {
      var released := lifecycle.IsReleased();
      return released && !contextConfigured && !context && !frame && !renderer && !configurationFailed && !temporary;
    }
  }

  // ---- Every sequence of calls ----

  datatype RCall =
    | RPrepare(pf: PrepareFault)
    | RStart(raises: bool)
    | RConfigure(contextId: nat, cf: ConfigureFault)
    | RSubmit(queueIndex: int, timeout: real, sf: SubmitFault)
    | RStop(raises: bool)
    | RReset(rf: RenderResetFault)

  function RApply(c: RCore, call: RCall): REffect {
    match call
    case RPrepare(f) => RPrepared(c, f)
    case RStart(raises) => RStarted(c, raises)
    case RConfigure(id, f) => Configured(c, id, f)
    case RSubmit(queue, timeout, f) => Submitted(c, queue, timeout, f)
    case RStop(raises) => RStopped(c, raises)
    case RReset(f) => RResetDone(c, f)
  }

  function RRun(c: RCore, calls: seq<RCall>): RCore
    decreases |calls|
  {
    if calls == [] then c else RRun(RApply(c, calls[0]).core, calls[1..])
  }

  predicate RInv(c: RCore) {
    && Inv(c.life)
    && (c.agx ==> c.life.agx)
    && (c.contextConfigured ==> c.agx)
    && (c.renderer ==> c.frame)
    && (c.frame ==> c.context)
    && (c.context ==> c.contextConfigured)
    && (Owned(c.roots) ==> c.contextConfigured)
  }

  lemma PrepareKeepsRInv(c: RCore, f: PrepareFault)
    requires RInv(c)
    ensures RInv(RPrepared(c, f).core)
  {
    InvKept(c.life, Prepare(f));
    hide Inv, Owned;
  }

  lemma StartKeepsRInv(c: RCore, raises: bool)
    requires RInv(c)
    ensures RInv(RStarted(c, raises).core)
  {
    hide Inv, Owned;
    InvKept(c.life, Start(raises));
    assert Started(c.life, raises).core.agx == c.life.agx;
    hide Started;
  }

  lemma StopKeepsRInv(c: RCore, raises: bool)
    requires RInv(c)
    ensures RInv(RStopped(c, raises).core)
  {
    InvKept(c.life, Stop(raises));
    assert Stopped(c.life, raises).core.agx == c.life.agx;
    hide Inv, Owned, Stopped;
  }

  lemma ConfigureKeepsRInv(c: RCore, id: nat, f: ConfigureFault)
    requires RInv(c)
    ensures RInv(Configured(c, id, f).core)
  {
    hide Inv, Owned;
  }

  lemma CleanupKeepsRInv(c: RCore, f: Cleanup)
    requires RInv(c)
    ensures RInv(CleanedUp(c, f))
  {
    hide Inv, Owned;
  }

  lemma RootsResetKeepsRInv(c: RCore, f: RenderResetFault)
    requires RInv(c)
    ensures var e := RootsReset(c, f);
      RInv(e.core) && (e.ok ==> !Owned(e.core.roots))
  {
    ResetPrefix(c.roots, ResetSteps(f.roots));
    hide Inv, Owned;
  }

  lemma DropKeepsRInv(c: RCore, f: ResetFault)
    requires RInv(c) && !Owned(c.roots)
    ensures RInv(LifecycleReset(Dropped(c), f).core)
  {
    InvKept(c.life, Reset(f));
    hide Inv, Owned;
  }

  lemma RInvKept(c: RCore, call: RCall)
    requires RInv(c)
    ensures RInv(RApply(c, call).core)
  {
    hide RInv, RPrepared, RStarted, RStopped, Configured, RootsReset, CleanedUp, Dropped, LifecycleReset;
    match call {
      case RPrepare(f) => PrepareKeepsRInv(c, f);
      case RStart(raises) => StartKeepsRInv(c, raises);
      case RStop(raises) => StopKeepsRInv(c, raises);
      case RConfigure(id, f) => ConfigureKeepsRInv(c, id, f);
      case RSubmit(queue, timeout, f) => SubmitKeepsRInv(c, queue, timeout, f);
      case RReset(f) =>
        CleanupKeepsRInv(c, f.cleanup);
        var d := CleanedUp(c, f.cleanup);
        RootsResetKeepsRInv(d, f);
        if RootsReset(d, f).ok {
          DropKeepsRInv(RootsReset(d, f).core, f.lifecycle);
        }
    }
  }

  lemma SubmitKeepsRInv(c: RCore, queueIndex: int, timeout: real, f: SubmitFault)
    requires RInv(c)
    ensures RInv(Submitted(c, queueIndex, timeout, f).core)
  {
    if !f.SubmitRaises? {
      CleanupKeepsRInv(c, SubmitCleanup(f));
    }
    hide Inv, Owned, CleanedUp;
  }

  lemma {:induction false} RInvAlways(c: RCore, calls: seq<RCall>)
    requires RInv(c)
    ensures RInv(RRun(c, calls))
    decreases |calls|
  {
    if calls != [] {
      hide RInv, RApply;
      RInvKept(c, calls[0]);
      RInvAlways(RApply(c, calls[0]).core, calls[1..]);
    }
  }

  // The poisoned flag is only ever raised, the fixture only ever taken.

  predicate KeepsFlags(c: RCore, d: RCore) {
    c.configurationFailed == d.configurationFailed && (c.fixture ==> d.fixture)
  }

  lemma CleanupKeepsFlags(c: RCore, f: Cleanup)
    ensures KeepsFlags(c, CleanedUp(c, f))
  {
  }

  lemma ResetKeepsFlags(c: RCore, f: RenderResetFault)
    ensures KeepsFlags(c, RResetDone(c, f).core)
  {
    CleanupKeepsFlags(c, f.cleanup);
    var d := CleanedUp(c, f.cleanup);
    assert KeepsFlags(d, RootsReset(d, f).core);
    hide CleanedUp, RootsReset;
  }

  lemma BuiltKeepsFlags(c: RCore, f: ConfigureFault)
    ensures KeepsFlags(c, Built(c, f))
  {
  }

  lemma PrepareKeepsFlags(c: RCore, f: PrepareFault)
    ensures KeepsFlags(c, RPrepared(c, f).core)
  {
    hide Prepared;
  }

  lemma StartKeepsFlags(c: RCore, raises: bool)
    ensures KeepsFlags(c, RStarted(c, raises).core)
  {
    hide Started;
  }

  lemma StopKeepsFlags(c: RCore, raises: bool)
    ensures KeepsFlags(c, RStopped(c, raises).core)
  {
    hide Stopped;
  }

  lemma SubmitKeepsFlags(c: RCore, queueIndex: int, timeout: real, f: SubmitFault)
    ensures KeepsFlags(c, Submitted(c, queueIndex, timeout, f).core)
  {
    if !f.SubmitRaises? {
      CleanupKeepsFlags(c, SubmitCleanup(f));
    }
    hide CleanedUp;
  }

  lemma ConfigureRaisesFlag(c: RCore, id: nat, f: ConfigureFault)
    ensures var d := Configured(c, id, f).core;
      && (c.fixture ==> d.fixture)
      && (d.configurationFailed <==>
            || c.configurationFailed
            || (id == CONTEXT_ID && !c.contextConfigured && c.agx && !f.PageSizeDiffers? && !f.ConfigureRuns?))
  {
    BuiltKeepsFlags(c, f);
    hide Built;
  }

  lemma FlagsOnlyRise(c: RCore, call: RCall)
    ensures var d := RApply(c, call).core;
      && (c.configurationFailed ==> d.configurationFailed)
      && (c.fixture ==> d.fixture)
      && (!call.RConfigure? ==> d.configurationFailed == c.configurationFailed)
  {
    hide RPrepared, RStarted, RStopped, Submitted, Configured, RResetDone;
    match call {
      case RPrepare(f) => PrepareKeepsFlags(c, f);
      case RStart(raises) => StartKeepsFlags(c, raises);
      case RStop(raises) => StopKeepsFlags(c, raises);
      case RReset(f) => ResetKeepsFlags(c, f);
      case RConfigure(id, f) => ConfigureRaisesFlag(c, id, f);
      case RSubmit(queue, timeout, f) => SubmitKeepsFlags(c, queue, timeout, f);
    }
  }

  /** A failed configuration poisons the backend for good. */
  lemma {:induction false} PoisonedForever(c: RCore, calls: seq<RCall>)
    requires c.configurationFailed
    ensures RRun(c, calls).configurationFailed && !RRun(c, calls).Released()
    decreases |calls|
  {
    if calls != [] {
      hide RApply;
      FlagsOnlyRise(c, calls[0]);
      PoisonedForever(RApply(c, calls[0]).core, calls[1..]);
    }
  }

  /** It is poisoned exactly by a configuration that got past its guards and raised. */
  lemma PoisonedIffBuildFailed(c: RCore, call: RCall)
    requires !c.configurationFailed
    ensures RApply(c, call).core.configurationFailed <==>
      && call.RConfigure? && call.contextId == CONTEXT_ID
      && !c.contextConfigured && c.agx
      && !call.cf.PageSizeDiffers? && !call.cf.ConfigureRuns?
  {
    if call.RConfigure? {
      ConfigureRaisesFlag(c, call.contextId, call.cf);
      hide Configured;
    } else {
      FlagsOnlyRise(c, call);
      hide RApply;
    }
  }

  /** One qualification per backend: once a frame has been prepared, no later sequence of
      calls prepares another. */
  lemma {:induction false} PreparedOnce(c: RCore, calls: seq<RCall>, f: PrepareFault)
    requires c.fixture
    ensures !RPrepared(RRun(c, calls), f).ok
    decreases |calls|
  {
    if calls != [] {
      hide RApply;
      FlagsOnlyRise(c, calls[0]);
      PreparedOnce(RApply(c, calls[0]).core, calls[1..], f);
    }
  }

  // ---- Temporary files ----

  /** A configuration that gets past its guards as far as recording a new path, while the
      file at the path recorded before it still exists. */
  predicate Overwrites(c: RCore, call: RCall) {
    && call.RConfigure? && call.contextId == CONTEXT_ID && !c.contextConfigured && c.agx
    && RecordsPath(call.cf)
    && c.temporary
  }

  /** A configuration that creates a file and fails before it records the path. */
  predicate Unrecorded(c: RCore, call: RCall) {
    && call.RConfigure? && call.contextId == CONTEXT_ID && !c.contextConfigured && c.agx
    && call.cf.TemporaryRaises? && call.cf.created
  }

  /** How often a run overwrites the path of a file that still exists. */
  function Overwritten(c: RCore, calls: seq<RCall>): nat
    decreases |calls|
  {
    if calls == [] then 0
    else (if Overwrites(c, calls[0]) then 1 else 0) + Overwritten(RApply(c, calls[0]).core, calls[1..])
  }

  lemma {:induction false} OverwrittenMeans(c: RCore, calls: seq<RCall>)
    ensures Overwritten(c, calls) > 0 <==>
      exists i | 0 <= i < |calls| :: Overwrites(RRun(c, calls[..i]), calls[i])
    decreases |calls|
  {
    hide RApply, Overwrites;
    if calls != [] {
      var d, later := RApply(c, calls[0]).core, calls[1..];
      OverwrittenMeans(d, later);
      assert calls[..0] == [];
      assert RRun(c, calls[..0]) == c;
      forall i | 1 <= i < |calls|
        ensures RRun(c, calls[..i]) == RRun(d, later[..i - 1]) && calls[i] == later[i - 1]
      {
        assert calls[..i][1..] == later[..i - 1];
      }
      if i :| 0 <= i < |later| && Overwrites(RRun(d, later[..i]), later[i]) {
        assert Overwrites(RRun(c, calls[..i + 1]), calls[i + 1]);
      }
    }
  }

  /** Files on the disk other than the one at the recorded path. */
  function Orphans(c: RCore): int {
    c.files - (if c.temporary then 1 else 0)
  }

  lemma CleanupKeepsOrphans(c: RCore, f: Cleanup)
    ensures Orphans(CleanedUp(c, f)) == Orphans(c)
  {
  }

  lemma BuiltOrphans(c: RCore, f: ConfigureFault)
    ensures Orphans(Built(c, f)) ==
      Orphans(c) + (if RecordsPath(f) && c.temporary then 1 else 0) + (if f.TemporaryRaises? && f.created then 1 else 0)
  {
    hide ClaimsContext, LoadsFrame, BuildsRenderer;
    var d := Built(c, f);
    assert d.files == if CreatesFile(f) then c.files + 1 else c.files;
    assert d.temporary == (c.temporary || RecordsPath(f));
  }

  lemma ConfigureOrphans(c: RCore, id: nat, f: ConfigureFault)
    ensures var call := RConfigure(id, f);
      Orphans(Configured(c, id, f).core) ==
        Orphans(c) + (if Overwrites(c, call) then 1 else 0) + (if Unrecorded(c, call) then 1 else 0)
  {
    BuiltOrphans(c, f);
    hide Built;
  }

  lemma ResetKeepsOrphans(c: RCore, f: RenderResetFault)
    ensures Orphans(RResetDone(c, f).core) == Orphans(c)
  {
    CleanupKeepsOrphans(c, f.cleanup);
    var d := CleanedUp(c, f.cleanup);
    assert Orphans(RootsReset(d, f).core) == Orphans(d);
    hide CleanedUp, RootsReset;
  }

  lemma PrepareKeepsOrphans(c: RCore, f: PrepareFault)
    ensures Orphans(RPrepared(c, f).core) == Orphans(c)
  {
    hide Prepared;
  }

  lemma LifecycleKeepsOrphans(c: RCore, raises: bool)
    ensures Orphans(RStarted(c, raises).core) == Orphans(c)
    ensures Orphans(RStopped(c, raises).core) == Orphans(c)
  {
    hide Started, Stopped;
  }

  lemma SubmitKeepsOrphans(c: RCore, queueIndex: int, timeout: real, f: SubmitFault)
    ensures Orphans(Submitted(c, queueIndex, timeout, f).core) == Orphans(c)
  {
    if !f.SubmitRaises? {
      CleanupKeepsOrphans(c, SubmitCleanup(f));
    }
    hide CleanedUp;
  }

  /** Only those two kinds of configuration orphan a file, one each. */
  lemma OrphansStep(c: RCore, call: RCall)
    ensures Orphans(RApply(c, call).core) ==
      Orphans(c) + (if Overwrites(c, call) then 1 else 0) + (if Unrecorded(c, call) then 1 else 0)
    ensures Unrecorded(c, call) ==> RApply(c, call).core.configurationFailed
  {
    hide Orphans, Overwrites, Unrecorded, RPrepared, RStarted, RStopped, Submitted, Configured, RResetDone;
    match call {
      case RPrepare(f) => PrepareKeepsOrphans(c, f);
      case RStart(raises) => LifecycleKeepsOrphans(c, raises);
      case RStop(raises) => LifecycleKeepsOrphans(c, raises);
      case RReset(f) => ResetKeepsOrphans(c, f);
      case RConfigure(id, f) =>
        ConfigureOrphans(c, id, f);
        if Unrecorded(c, call) {
          UnrecordedPoisons(c, call);
        }
      case RSubmit(queue, timeout, f) => SubmitKeepsOrphans(c, queue, timeout, f);
    }
    OnlyConfigurations(c, call);
  }

  lemma OnlyConfigurations(c: RCore, call: RCall)
    ensures !call.RConfigure? ==> !Overwrites(c, call) && !Unrecorded(c, call)
  {
  }

  lemma UnrecordedPoisons(c: RCore, call: RCall)
    requires Unrecorded(c, call)
    ensures RApply(c, call).core.configurationFailed
  {
    ConfigureRaisesFlag(c, call.contextId, call.cf);
    hide Configured;
  }

  /** Over every run that is not poisoned, the orphaned files are exactly the overwritten
      ones. */
  lemma {:induction false} OrphansCounted(c: RCore, calls: seq<RCall>)
    requires !RRun(c, calls).configurationFailed
    ensures Orphans(RRun(c, calls)) == Orphans(c) + Overwritten(c, calls)
    decreases |calls|
  {
    if calls != [] {
      hide RApply, Orphans, Overwrites, Unrecorded;
      OrphansStep(c, calls[0]);
      var d := RApply(c, calls[0]).core;
      if d.configurationFailed {
        PoisonedForever(d, calls[1..]);
      }
      OrphansCounted(d, calls[1..]);
    }
  }

  /** No file but the one at the recorded path is left, as long as nothing is poisoned. */
  predicate Tidy(c: RCore) {
    c.configurationFailed || Orphans(c) == 0
  }

  lemma TidyKept(c: RCore, call: RCall)
    requires Tidy(c) && !Overwrites(c, call)
    ensures Tidy(RApply(c, call).core)
  {
    hide RApply, Orphans, Overwrites, Unrecorded;
    OrphansStep(c, call);
    FlagsOnlyRise(c, call);
  }

  // ---- What release means ----

  /** Safety over every run: a render backend that says it is released has cleared context
      63's roots since the last bind, and context 0's since the last clock request, and the
      firmware is stopped.  Of the temporary frames it ever created, exactly those are left
      on the disk whose path a later configuration recorded over while they existed. */
  lemma RenderReleasedIsClean(calls: seq<RCall>)
    ensures var c := RRun(NEW_RCORE, calls);
      c.Released() ==>
        && !Owned(c.roots) && !Owned(c.life.hw) && !FirmwareLive(c.life.hw) && !c.life.agx
        && c.files == Overwritten(NEW_RCORE, calls)
  {
    RInvAlways(NEW_RCORE, calls);
    if RRun(NEW_RCORE, calls).Released() {
      OrphansCounted(NEW_RCORE, calls);
    }
    hide RRun, Overwritten, Owned, FirmwareLive;
  }

  const CLEAN_CLEANUP := Cleanup(false, false)

  /** A run with a reset that can neither unlink the frame nor reset the firmware it did not
      stop, then a second configuration, a stop and a clean reset. */
  const OVERWRITING_RUN: seq<RCall> := [
    RPrepare(PrepareRuns),
    RStart(false),
    RConfigure(CONTEXT_ID, ConfigureRuns),
    RReset(RenderResetFault(Cleanup(false, true), ResetRuns, false, ResetRuns)),
    RConfigure(CONTEXT_ID, ConfigureRuns),
    RStop(false),
    RReset(RenderResetFault(CLEAN_CLEANUP, ResetRuns, false, ResetRuns))
  ]

  lemma RunsOn(c: RCore, calls: seq<RCall>, i: nat)
    requires i < |calls|
    ensures RRun(c, calls[i..]) == RRun(RApply(c, calls[i]).core, calls[i + 1..])
  {
    hide RApply;
    assert calls[i..][1..] == calls[i + 1..];
  }

  /** The frame loaded, firmware running. */
  predicate Configuring(c: RCore, files: int) {
    && c.agx && c.life.agx && c.life.started
    && c.contextConfigured && !c.configurationFailed && !c.frameCleaned
    && c.temporary && c.files == files
  }

  lemma FirstConfiguration()
    ensures var s := RApply(NEW_RCORE, OVERWRITING_RUN[0]).core;
      var t := RApply(s, OVERWRITING_RUN[1]).core;
      Configuring(RApply(t, OVERWRITING_RUN[2]).core, 1)
  {
  }

  lemma SecondConfiguration(c: RCore)
    requires Configuring(c, 1)
    ensures var d := RApply(c, OVERWRITING_RUN[3]).core;
      Configuring(RApply(d, OVERWRITING_RUN[4]).core, 2)
  {
  }

  lemma LastReset(c: RCore)
    requires Configuring(c, 2)
    ensures var d := RApply(c, OVERWRITING_RUN[5]).core;
      var e := RApply(d, OVERWRITING_RUN[6]).core;
      e.Released() && e.files == 1
  {
  }

  /** So release does not mean that nothing is left behind: after that run the backend is
      released and the first frame's file is still on the disk. */
  lemma ReleasedWithFileLeft()
    ensures RRun(NEW_RCORE, OVERWRITING_RUN).Released() && RRun(NEW_RCORE, OVERWRITING_RUN).files == 1
  {
    hide RApply, Configuring;
    var run := OVERWRITING_RUN;
    var s1 := RApply(NEW_RCORE, run[0]).core;
    var s2 := RApply(s1, run[1]).core;
    var s3 := RApply(s2, run[2]).core;
    var s4 := RApply(s3, run[3]).core;
    var s5 := RApply(s4, run[4]).core;
    var s6 := RApply(s5, run[5]).core;
    FirstConfiguration();
    SecondConfiguration(s3);
    LastReset(s5);
    RunsOn(NEW_RCORE, run, 0);
    RunsOn(s1, run, 1);
    RunsOn(s2, run, 2);
    RunsOn(s3, run, 3);
    RunsOn(s4, run, 4);
    RunsOn(s5, run, 5);
    RunsOn(s6, run, 6);
    assert run[0..] == run && run[7..] == [];
  }
}
