/** Ownership of the AGX by tools/agx_m1n1_backend.py, when any internal call may raise.
    The hardware's own history is kept beside the backend's flags, and what the backend
    claims is proved about what the hardware saw. */
module AgxLifecycle {

  /** Requests as they leave the host.  A request that raised may still have arrived, so
      it is recorded; a completion (`FirmwareStopped`, the four of a reset) is recorded
      only when the call returned. */
  datatype HwEvent =
    | ClockRequested(path: nat)
    | ContextBound
    | FirmwareStartRequested
    | FirmwareStopped
    | RootCleared(slot: nat)
    | TablesFlushed
    | CacheInvalidated

  const CLOCK_PATHS := 2

  /** The four steps of a proven reset. */
  const RESET: seq<HwEvent> := [RootCleared(0), RootCleared(1), TablesFlushed, CacheInvalidated]

  /** Started and not since stopped. */
  predicate FirmwareLive(hw: seq<HwEvent>) {
    if hw == [] then false
    else var last := hw[|hw| - 1];
      last.FirmwareStartRequested? || (!last.FirmwareStopped? && FirmwareLive(hw[..|hw| - 1]))
  }

  /** A clock was requested, or a context bound, and no complete clearing of its two table
      roots has followed. */
  predicate Owned(hw: seq<HwEvent>) {
    if hw == [] then false
    else if 4 <= |hw| && hw[|hw| - 4..] == RESET then false
    else var last := hw[|hw| - 1];
      last.ClockRequested? || last.ContextBound? || Owned(hw[..|hw| - 1])
  }

  // ---- Which internal call of an operation raises ----

  datatype PrepareFault =
    | PrepareRuns
    | LiveReaderRaises
    | ContractDiffers
    | VersionSetterRaises
    | ClockRaises(path: nat)
    | FactoryRaises
    | TrackerRaises

  datatype ResetFault =
    | ResetRuns
    | LockRaises
    | ClearRaises(slot: nat)
    | FlushRaises
    | InvalidateRaises
    | UnlockRaises

  /** How far the reset sequence got. */
  function ResetSteps(f: ResetFault): (r: nat)
    ensures r <= 4
  {
    match f
    case LockRaises => 0
    case ClearRaises(slot) => if slot == 0 then 0 else 1
    case FlushRaises => 2
    case InvalidateRaises => 3
    case _ => 4
  }

  function ClocksAttempted(f: PrepareFault): (r: nat)
    ensures r <= CLOCK_PATHS
  {
    if f.ClockRaises? && f.path < CLOCK_PATHS then f.path + 1 else CLOCK_PATHS
  }

  function ClockEvents(n: nat): (r: seq<HwEvent>)
    ensures |r| == n
  {
    seq(n, i requires 0 <= i => ClockRequested(i))
  }

  predicate ClocksFail(f: PrepareFault) {
    f.ClockRaises? && f.path < CLOCK_PATHS
  }

  // ---- The backend's state ----

  datatype Core = Core(agx: bool, prepared: bool, started: bool, clocked: bool, released: bool, hw: seq<HwEvent>) {
    /** `M1n1AgxBackend.released` */
    predicate Released() { released && !started && !agx }
  }

  const NEW_CORE := Core(false, false, false, false, true, [])

  /** A call's effect and whether it returned normally. */
  datatype Effect = Effect(core: Core, ok: bool)

  function Prepared(c: Core, f: PrepareFault): Effect {
    if !c.released || c.prepared || c.agx then Effect(c, false)
    else if f.LiveReaderRaises? || f.ContractDiffers? || f.VersionSetterRaises? then Effect(c, false)
    else
      var owned := c.(released := false, clocked := true, hw := c.hw + ClockEvents(ClocksAttempted(f)));
      if ClocksFail(f) || f.FactoryRaises? then Effect(owned, false)
      else if f.TrackerRaises? then Effect(owned.(agx := true), false)
      else Effect(owned.(agx := true, prepared := true), true)
  }

  function Started(c: Core, raises: bool): Effect {
    if !c.prepared || !c.agx || c.started then Effect(c, false)
    else Effect(c.(started := true, hw := c.hw + [FirmwareStartRequested]), !raises)
  }

  /** Heartbeats and snapshots change no ownership. */
  function Heartbeat(c: Core, raises: bool): Effect {
    Effect(c, c.started && c.agx && !raises)
  }

  function Stopped(c: Core, raises: bool): Effect {
    if !c.agx then Effect(c, false)
    else if !c.started then Effect(c, true)
    else if raises then Effect(c, false)
    else Effect(c.(started := false, hw := c.hw + [FirmwareStopped]), true)
  }

  function ResetEffect(c: Core, f: ResetFault): Effect {
    if c.started then Effect(c, false)
    else if !c.agx then
      if c.clocked then Effect(c, false) else Effect(c.(prepared := false, released := true), true)
    else
      var hw := c.hw + RESET[..ResetSteps(f)];
      if !f.ResetRuns? then Effect(c.(hw := hw), false)
      else Effect(Core(false, false, false, false, true, hw), true)
  }

  class M1n1AgxBackend {
    var agx: bool
    var prepared: bool
    var started: bool
    var clocked: bool
    var released: bool
    ghost var hw: seq<HwEvent>

    ghost function State(): Core
      reads this
    {
      Core(agx, prepared, started, clocked, released, hw)
    }

    constructor ()
      ensures State() == NEW_CORE
    {
      agx, prepared, started, clocked, released, hw := false, false, false, false, true, [];
    }

    method Prepare(f: PrepareFault) returns (ok: bool)
      modifies this
      ensures Effect(State(), ok) == Prepared(old(State()), f)
    {
      if !released || prepared || agx {
        return false;
      }
      if f.LiveReaderRaises? || f.ContractDiffers? {
        return false;
      }
      if f.VersionSetterRaises? {
        return false;
      }
      released := false;
      clocked := true;
      ghost var before := hw;
      for path := 0 to CLOCK_PATHS
        invariant hw == before + ClockEvents(path)
        invariant !agx && !prepared && started == old(started) && clocked && !released
        invariant ClocksFail(f) ==> path <= f.path
      {
        hw := hw + [ClockRequested(path)];
        if f == ClockRaises(path) {
          return false;
        }
      }
      if f.FactoryRaises? {
        return false;
      }
      agx := true;
      if f.TrackerRaises? {
        return false;
      }
      prepared := true;
      return true;
    }

    method Start(raises: bool) returns (ok: bool)
      modifies this
      ensures Effect(State(), ok) == Started(old(State()), raises)
    {
      if !prepared || !agx || started {
        return false;
      }
      // Ownership is claimed before the call that may raise.
      started := true;
      hw := hw + [FirmwareStartRequested];
      return !raises;
    }

    /** `heartbeat`, up to the checks that decide whether it raises. */
    method Beat(raises: bool) returns (ok: bool)
      ensures Effect(State(), ok) == Heartbeat(State(), raises)
    {
      if !started || !agx {
        return false;
      }
      return !raises;
    }

    method Stop(raises: bool) returns (ok: bool)
      modifies this
      ensures Effect(State(), ok) == Stopped(old(State()), raises)
    {
      if !agx {
        return false;
      }
      if started {
        if raises {
          return false;
        }
        hw := hw + [FirmwareStopped];
        started := false;
      }
      return true;
    }

    method Reset(f: ResetFault) returns (ok: bool)
      modifies this
      ensures Effect(State(), ok) == ResetEffect(old(State()), f)
    {
      if started {
        return false;
      }
      if !agx {
        if clocked {
          return false;
        }
        prepared := false;
        released := true;
        return true;
      }
      hw := hw + RESET[..ResetSteps(f)];
      if !f.ResetRuns? {
        return false;
      }
      agx, prepared, clocked, released := false, false, false, true;
      return true;
    }

    method IsReleased() returns (r: bool)
      ensures r == State().Released()
    {
      return released && !started && !agx;
    }
  }

  // ---- Every sequence of calls ----

  datatype Call =
    | Prepare(pf: PrepareFault)
    | Start(raises: bool)
    | Beat(raises: bool)
    | Stop(raises: bool)
    | Reset(rf: ResetFault)

  function Apply(c: Core, call: Call): Effect {
    match call
    case Prepare(f) => Prepared(c, f)
    case Start(raises) => Started(c, raises)
    case Beat(raises) => Heartbeat(c, raises)
    case Stop(raises) => Stopped(c, raises)
    case Reset(f) => ResetEffect(c, f)
  }

  function Run(c: Core, calls: seq<Call>): Core
    decreases |calls|
  {
    if calls == [] then c else Run(Apply(c, calls[0]).core, calls[1..])
  }

  /** What every reachable backend satisfies. */
  predicate Inv(c: Core) {
    && (c.started ==> c.prepared)
    && (c.prepared ==> c.agx)
    && (c.agx ==> c.clocked)
    && c.clocked == !c.released
    && c.started == FirmwareLive(c.hw)
    && (Owned(c.hw) ==> c.clocked)
  }

  /** Events that neither start, stop nor complete a reset do not matter. */
  lemma QuietEvent(hw: seq<HwEvent>, e: HwEvent)
    requires e.RootCleared? || e.TablesFlushed? || e.CacheInvalidated?
    ensures FirmwareLive(hw + [e]) == FirmwareLive(hw)
    ensures Owned(hw + [e]) ==> Owned(hw)
  {
    var after := hw + [e];
    assert after[..|after| - 1] == hw;
  }

  lemma CompleteReset(hw: seq<HwEvent>)
    ensures !Owned(hw + RESET)
  {
    var after := hw + RESET;
    assert after[|after| - 4..] == RESET;
  }

  lemma {:induction false} ResetPrefix(hw: seq<HwEvent>, n: nat)
    requires n <= 4
    ensures FirmwareLive(hw + RESET[..n]) == FirmwareLive(hw)
    ensures Owned(hw + RESET[..n]) ==> Owned(hw)
    ensures n == 4 ==> !Owned(hw + RESET[..n])
  {
    hide FirmwareLive, Owned;
    if n == 0 {
      assert hw + RESET[..0] == hw;
    } else {
      ResetPrefix(hw, n - 1);
      QuietEvent(hw + RESET[..n - 1], RESET[n - 1]);
      assert hw + RESET[..n] == (hw + RESET[..n - 1]) + [RESET[n - 1]];
      if n == 4 {
        CompleteReset(hw);
        assert RESET[..4] == RESET;
      }
    }
  }

  lemma {:induction false} ClocksKeepFirmware(hw: seq<HwEvent>, n: nat)
    ensures FirmwareLive(hw + ClockEvents(n)) == FirmwareLive(hw)
  {
    if n == 0 {
      assert hw + ClockEvents(0) == hw;
    } else {
      ClocksKeepFirmware(hw, n - 1);
      var after := hw + ClockEvents(n);
      assert after[..|after| - 1] == hw + ClockEvents(n - 1);
    }
  }

  lemma {:induction false} InvKept(c: Core, call: Call)
    requires Inv(c)
    ensures Inv(Apply(c, call).core)
  {
    var d := Apply(c, call).core;
    match call {
      case Prepare(f) => ClocksKeepFirmware(c.hw, ClocksAttempted(f));
      case Reset(f) => ResetPrefix(c.hw, ResetSteps(f)); ResetPrefix(c.hw, 4);
      case Start(_) => assert d.hw != c.hw ==> d.hw[..|d.hw| - 1] == c.hw;
      case Stop(_) => assert d.hw != c.hw ==> d.hw[..|d.hw| - 1] == c.hw;
      case Beat(_) =>
    }
  }

  lemma {:induction false} InvAlways(c: Core, calls: seq<Call>)
    requires Inv(c)
    ensures Inv(Run(c, calls))
    decreases |calls|
  {
    if calls != [] {
      InvKept(c, calls[0]);
      InvAlways(Apply(c, calls[0]).core, calls[1..]);
    }
  }

  /** Safety over every run: a backend that says it is released has stopped the firmware,
      holds no AGX object, and every clock request was followed by a complete clearing
      of both table roots. */
  lemma ReleasedIsClean(calls: seq<Call>)
    ensures var c := Run(NEW_CORE, calls);
      c.Released() ==> !FirmwareLive(c.hw) && !Owned(c.hw) && !c.agx && !c.clocked
  {
    InvAlways(NEW_CORE, calls);
  }

  /** Clocks were requested and the AGX object was never obtained. */
  predicate Lost(c: Core) {
    c.clocked && !c.agx && !c.started && !c.prepared && !c.released
  }

  /** A construction that fails once clocks were requested lands in `Lost`, and only
      such a construction does. */
  lemma LostIffConstructionFailed(c: Core, call: Call)
    requires Inv(c) && !Lost(c)
    ensures Lost(Apply(c, call).core) <==>
      && call.Prepare?
      && c.Released()
      && (ClocksFail(call.pf) || call.pf.FactoryRaises?)
  {
  }

  /** From there no sequence of calls changes anything, so release is never claimed. */
  lemma {:induction false} LostForever(c: Core, calls: seq<Call>)
    requires Lost(c)
    ensures Run(c, calls) == c && !Run(c, calls).Released()
    decreases |calls|
  {
    if calls != [] {
      assert Apply(c, calls[0]).core == c;
      LostForever(c, calls[1..]);
    }
  }

  /** The calls that release a backend that can be released at all. */
  const RECOVERY: seq<Call> := [Stop(false), Reset(ResetRuns)]

  lemma RecoveryRun(c: Core)
    ensures Run(c, RECOVERY) == Apply(Apply(c, Stop(false)).core, Reset(ResetRuns)).core
  {
    var d := Apply(c, Stop(false)).core;
    assert RECOVERY[1..] == [Reset(ResetRuns)];
    assert Run(d, [Reset(ResetRuns)]) == Run(Apply(d, Reset(ResetRuns)).core, []);
  }

  /** Release is reachable from a reachable backend exactly when it is not lost. */
  lemma ReleasableIffNotLost(history: seq<Call>)
    ensures var c := Run(NEW_CORE, history);
      (exists calls :: Run(c, calls).Released()) <==> !Lost(c)
  {
    InvAlways(NEW_CORE, history);
    var c := Run(NEW_CORE, history);
    if Lost(c) {
      forall calls
        ensures !Run(c, calls).Released()
      {
        LostForever(c, calls);
      }
    } else {
      RecoveryRun(c);
      assert Run(c, RECOVERY).Released();
    }
  }
}
