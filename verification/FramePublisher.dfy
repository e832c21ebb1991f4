/** The asynchronous publisher of virtual_display.py: the proxy reader hands complete
    frames to a one-slot queue that a worker thread drains.  The two threads interleave
    at every `put_nowait`, `get_nowait`, worker `get` and at both ends of `_publish`. */
module FramePublisher {
  import opened Results
  import opened Structs
  import opened VirtualDisplay

  /** A complete frame with its number in completion order. */
  datatype Item = Item(ticket: nat, frame: Frame)

  /** Where the reader stands inside `_submit_publish`. */
  datatype Producer =
    | Reading
    | Putting(item: Item)
    | Evicting(item: Item)
    | Retrying(item: Item)
    | Crashed(item: Item)

  datatype Worker =
    | Getting
    | Holding(item: Item)
    | Writing(item: Item, nextGeneration: nat)

  /** The shared state, with the history of everything that happened to frames.
      `lostRaces` counts evictions that found the queue already drained. */
  datatype System = System(
    calls: seq<Bytes>,
    assembly: Assembly,
    completed: seq<Frame>,
    producer: Producer,
    queue: Option<Item>,
    worker: Worker,
    taken: seq<Item>,
    published: seq<Item>,
    failed: seq<Item>,
    dropped: seq<Item>,
    lostRaces: nat,
    discardedPublications: nat,
    generation: nat
  )

  function Initial(): System {
    System([], Idle, [], Reading, None, Getting, [], [], [], [], 0, 0, 0)
  }

  /** One indivisible action of one thread. */
  datatype Action =
    | Accept(data: Bytes)
    | PutNowait
    | GetNowait
    | RetryPut
    | WorkerGet
    | PublishBegin
    | PublishCommit
    | PublishFail

  // Each action of a thread that cannot take it now leaves the state unchanged.

  function Hear(cfg: Config, s: System, data: Bytes): System {
    if !s.producer.Reading? then s else
      var a := AcceptChunk(cfg, s.assembly, data);
      var heard := s.(calls := s.calls + [data], assembly := a.assembly);
      if a.frame.None? then heard else
        heard.(completed := s.completed + [a.frame.value],
               producer := Putting(Item(|s.completed|, a.frame.value)))
  }

  /** The first `put_nowait`. */
  function Put(s: System): System {
    if !s.producer.Putting? then s
    else if s.queue.None? then s.(queue := Some(s.producer.item), producer := Reading)
    else s.(producer := Evicting(s.producer.item))
  }

  /** `get_nowait`, which may find that the worker was faster. */
  function Evict(s: System): System {
    if !s.producer.Evicting? then s
    else if s.queue.Some? then
      s.(dropped := s.dropped + [s.queue.value], queue := None, producer := Retrying(s.producer.item))
    else s.(lostRaces := s.lostRaces + 1, producer := Retrying(s.producer.item))
  }

  /** The counter and the second `put_nowait`, outside any handler. */
  function Retry(s: System): System {
    if !s.producer.Retrying? then s else
      var counted := s.(discardedPublications := s.discardedPublications + 1);
      if s.queue.None? then counted.(queue := Some(s.producer.item), producer := Reading)
      else counted.(producer := Crashed(s.producer.item))
  }

  function Get(s: System): System {
    if !s.worker.Getting? || s.queue.None? then s
    else s.(taken := s.taken + [s.queue.value], queue := None, worker := Holding(s.queue.value))
  }

  function Begin(s: System): System {
    if !s.worker.Holding? then s
    else s.(worker := Writing(s.worker.item, s.generation + 1))
  }

  function Commit(s: System): System {
    if !s.worker.Writing? then s
    else s.(generation := s.worker.nextGeneration, published := s.published + [s.worker.item], worker := Getting)
  }

  /** An exception anywhere in `_publish`; the worker records it and goes on. */
  function FailPublish(s: System): System {
    if s.worker.Getting? then s
    else s.(failed := s.failed + [s.worker.item], worker := Getting)
  }

  function Step(cfg: Config, s: System, action: Action): System {
    match action
    case Accept(data) => Hear(cfg, s, data)
    case PutNowait => Put(s)
    case GetNowait => Evict(s)
    case RetryPut => Retry(s)
    case WorkerGet => Get(s)
    case PublishBegin => Begin(s)
    case PublishCommit => Commit(s)
    case PublishFail => FailPublish(s)
  }

  /** The state after any interleaving of the two threads. */
  function Run(cfg: Config, actions: seq<Action>): System {
    if actions == [] then Initial()
    else Step(cfg, Run(cfg, actions[..|actions| - 1]), actions[|actions| - 1])
  }

  // ---- The invariant of every interleaving ----

  function Items(frames: seq<Frame>): (r: seq<Item>)
    ensures |r| == |frames| && forall i | 0 <= i < |r| :: r[i] == Item(i, frames[i])
  {
    seq(|frames|, i requires 0 <= i < |frames| => Item(i, frames[i]))
  }

  function Queued(s: System): multiset<Item> {
    if s.queue.Some? then multiset{s.queue.value} else multiset{}
  }

  function InFlight(s: System): multiset<Item> {
    if s.worker.Getting? then multiset{} else multiset{s.worker.item}
  }

  function Pending(s: System): multiset<Item> {
    if s.producer.Reading? then multiset{} else multiset{s.producer.item}
  }

  /** Where all the completed frames are. */
  function Located(s: System): multiset<Item> {
    multiset(s.published) + multiset(s.failed) + multiset(s.dropped) + Queued(s) + InFlight(s) + Pending(s)
  }

  predicate Increasing(items: seq<Item>) {
    forall i, j | 0 <= i < j < |items| :: items[i].ticket < items[j].ticket
  }

  predicate Below(items: seq<Item>, ticket: nat) {
    forall i | 0 <= i < |items| :: items[i].ticket < ticket
  }

  /** Every completed frame is in exactly one place. */
  predicate Conserved(s: System) {
    multiset(Items(s.completed)) == Located(s)
  }

  /** The tickets the worker saw only grow, and what waits is newer still. */
  predicate Ordered(s: System) {
    && Increasing(s.taken)
    && (forall i | 0 <= i < |s.taken| :: s.taken[i] in Items(s.completed))
    && (s.queue.Some? ==> Below(s.taken, s.queue.value.ticket) && s.queue.value in Items(s.completed))
    && (!s.producer.Reading? ==>
          && s.completed != []
          && s.producer.item == Item(|s.completed| - 1, s.completed[|s.completed| - 1])
          && Below(s.taken, s.producer.item.ticket)
          && (s.queue.Some? ==> s.queue.value.ticket < s.producer.item.ticket))
  }

  /** The newest frame, once put, is queued or was the last one taken. */
  predicate NewestSafe(s: System) {
    s.producer.Reading? && s.completed != [] ==>
      var newest := Item(|s.completed| - 1, s.completed[|s.completed| - 1]);
      s.queue == Some(newest) || (s.queue.None? && s.taken != [] && s.taken[|s.taken| - 1] == newest)
  }

  /** The worker's own account of what it took. */
  predicate WorkerAccounts(s: System) {
    && multiset(s.taken) == multiset(s.published) + multiset(s.failed) + InFlight(s)
    && s.generation == |s.published|
    && (s.worker.Writing? ==> s.worker.nextGeneration == s.generation + 1)
    && Increasing(s.published)
    && (!s.worker.Getting? ==> s.taken != [] && s.worker.item == s.taken[|s.taken| - 1] && Below(s.published, s.worker.item.ticket))
    && (forall i | 0 <= i < |s.published| :: s.published[i] in s.taken)
  }

  predicate DropsCounted(s: System) {
    |s.dropped| + s.lostRaces == s.discardedPublications + (if s.producer.Retrying? then 1 else 0)
  }

  predicate RetryHasRoom(s: System) {
    && !s.producer.Crashed?
    && (s.producer.Retrying? ==> s.queue.None?)
  }

  /** Frames come only from the assembler. */
  ghost predicate Assembled(cfg: Config, s: System) {
    && s.assembly == After(cfg, Idle, s.calls)
    && forall i | 0 <= i < |s.completed| :: Witnessed(cfg, s.calls, s.completed[i])
  }

  /** Some prefix of the calls ends with the whole transmission of the frame. */
  ghost predicate Witnessed(cfg: Config, calls: seq<Bytes>, f: Frame) {
    |f.bytes| == cfg.Size() && exists n | 0 <= n <= |calls| :: EndsWithTransmission(cfg, calls[..n], f.id, f.bytes)
  }

  ghost predicate Inv(cfg: Config, s: System) {
    && Conserved(s)
    && Ordered(s)
    && NewestSafe(s)
    && WorkerAccounts(s)
    && DropsCounted(s)
    && RetryHasRoom(s)
    && Assembled(cfg, s)
  }

  lemma ItemsGrow(frames: seq<Frame>, f: Frame)
    ensures Items(frames + [f]) == Items(frames) + [Item(|frames|, f)]
  {
  }

  lemma WitnessedLater(cfg: Config, calls: seq<Bytes>, data: Bytes, f: Frame)
    requires Witnessed(cfg, calls, f)
    ensures Witnessed(cfg, calls + [data], f)
  {
    hide EndsWithTransmission;
    var n :| 0 <= n <= |calls| && EndsWithTransmission(cfg, calls[..n], f.id, f.bytes);
    assert (calls + [data])[..n] == calls[..n];
  }

  lemma AcceptKeepsAssembled(cfg: Config, s: System, data: Bytes)
    requires cfg.Valid() && Assembled(cfg, s)
    ensures Assembled(cfg, Step(cfg, s, Accept(data)))
  {
    hide AcceptChunk, Witnessed, After;
    if s.producer.Reading? {
      var calls := s.calls + [data];
      AfterNext(cfg, Idle, s.calls, data);
      forall i | 0 <= i < |s.completed|
        ensures Witnessed(cfg, calls, s.completed[i])
      {
        WitnessedLater(cfg, s.calls, data, s.completed[i]);
      }
      var a := AcceptChunk(cfg, s.assembly, data);
      if a.frame.Some? {
        NewFrameWitnessed(cfg, s.calls, data);
      }
    }
  }

  lemma NewFrameWitnessed(cfg: Config, calls: seq<Bytes>, data: Bytes)
    requires cfg.Valid() && AcceptChunk(cfg, After(cfg, Idle, calls), data).frame.Some?
    ensures Witnessed(cfg, calls + [data], AcceptChunk(cfg, After(cfg, Idle, calls), data).frame.value)
  {
    hide AcceptChunk, EndsWithTransmission;
    var history := calls + [data];
    assert history[..|calls|] == calls && history[..|history|] == history;
    CompletedWasTransmitted(cfg, history, |calls|);
  }

  // Moving a frame between places loses none.

  lemma PutKeepsLocated(s: System)
    ensures Located(Put(s)) == Located(s)
  {
  }

  lemma EvictKeepsLocated(s: System)
    ensures Located(Evict(s)) == Located(s)
  {
    if s.producer.Evicting? && s.queue.Some? {
      assert multiset(Evict(s).dropped) == multiset(s.dropped) + multiset{s.queue.value};
    }
  }

  lemma RetryKeepsLocated(s: System)
    ensures Located(Retry(s)) == Located(s)
  {
  }

  lemma WorkerKeepsLocated(s: System)
    ensures Located(Get(s)) == Located(s) && Located(Begin(s)) == Located(s)
  {
  }

  lemma CommitKeepsLocated(s: System)
    ensures Located(Commit(s)) == Located(s)
  {
    if s.worker.Writing? {
      assert multiset(Commit(s).published) == multiset(s.published) + multiset{s.worker.item};
    }
  }

  lemma FailKeepsLocated(s: System)
    ensures Located(FailPublish(s)) == Located(s)
  {
    if !s.worker.Getting? {
      assert multiset(FailPublish(s).failed) == multiset(s.failed) + multiset{s.worker.item};
    }
  }

  lemma HearAddsLocated(cfg: Config, s: System, data: Bytes)
    requires Conserved(s)
    ensures Conserved(Hear(cfg, s, data))
  {
    hide AcceptChunk, Items;
    if s.producer.Reading? {
      var a := AcceptChunk(cfg, s.assembly, data);
      if a.frame.Some? {
        ItemsGrow(s.completed, a.frame.value);
      }
    }
  }

  lemma ConservedStep(cfg: Config, s: System, action: Action)
    requires Conserved(s)
    ensures Conserved(Step(cfg, s, action))
  {
    hide Located, Items, Hear;
    match action {
      case Accept(data) => HearAddsLocated(cfg, s, data);
      case PutNowait => PutKeepsLocated(s);
      case GetNowait => EvictKeepsLocated(s);
      case RetryPut => RetryKeepsLocated(s);
      case WorkerGet => WorkerKeepsLocated(s);
      case PublishBegin => WorkerKeepsLocated(s);
      case PublishCommit => CommitKeepsLocated(s);
      case PublishFail => FailKeepsLocated(s);
    }
  }

  lemma OrderedStep(cfg: Config, s: System, action: Action)
    requires Ordered(s) && NewestSafe(s) && RetryHasRoom(s)
    ensures Ordered(Step(cfg, s, action))
  {
    hide AcceptChunk, Items;
    if action.Accept? && s.producer.Reading? {
      var a := AcceptChunk(cfg, s.assembly, action.data);
      if a.frame.Some? {
        ItemsGrow(s.completed, a.frame.value);
        var n := |s.completed|;
        assert Below(s.taken, n) by {
          forall i | 0 <= i < |s.taken|
            ensures s.taken[i].ticket < n
          {
            assert s.taken[i] in Items(s.completed);
          }
        }
        if s.queue.Some? {
          assert s.queue.value in Items(s.completed);
        }
      }
    }
  }

  lemma NewestSafeStep(cfg: Config, s: System, action: Action)
    requires Ordered(s) && NewestSafe(s) && RetryHasRoom(s)
    ensures NewestSafe(Step(cfg, s, action)) && RetryHasRoom(Step(cfg, s, action))
  {
    hide AcceptChunk, Increasing, Below, Items;
  }

  lemma GetKeepsAccounts(s: System)
    requires Ordered(s) && WorkerAccounts(s)
    ensures WorkerAccounts(Get(s))
  {
    hide Items;
    var t := Get(s);
    if s.worker.Getting? && s.queue.Some? {
      assert multiset(t.taken) == multiset(s.taken) + multiset{s.queue.value};
      forall i | 0 <= i < |s.published|
        ensures s.published[i].ticket < s.queue.value.ticket && s.published[i] in t.taken
      {
        assert s.published[i] in s.taken;
      }
    }
  }

  lemma CommitKeepsAccounts(s: System)
    requires WorkerAccounts(s)
    ensures WorkerAccounts(Commit(s))
  {
    if s.worker.Writing? {
      assert multiset(Commit(s).published) == multiset(s.published) + multiset{s.worker.item};
      assert s.worker.item in s.taken;
    }
  }

  lemma FailKeepsAccounts(s: System)
    requires WorkerAccounts(s)
    ensures WorkerAccounts(FailPublish(s))
  {
    if !s.worker.Getting? {
      assert multiset(FailPublish(s).failed) == multiset(s.failed) + multiset{s.worker.item};
    }
  }

  /** The accounts depend on the worker's side of the state only. */
  lemma SameAccounts(s: System, t: System)
    requires WorkerAccounts(s)
    requires t.taken == s.taken && t.published == s.published && t.failed == s.failed
    requires t.worker == s.worker && t.generation == s.generation
    ensures WorkerAccounts(t)
  {
  }

  lemma BeginKeepsAccounts(s: System)
    requires WorkerAccounts(s)
    ensures WorkerAccounts(Begin(s))
  {
  }

  lemma WorkerStep(cfg: Config, s: System, action: Action)
    requires Ordered(s) && WorkerAccounts(s)
    ensures WorkerAccounts(Step(cfg, s, action))
  {
    hide AcceptChunk, Ordered, WorkerAccounts, Get, Begin, Commit, FailPublish;
    match action {
      case WorkerGet => GetKeepsAccounts(s);
      case PublishBegin => BeginKeepsAccounts(s);
      case PublishCommit => CommitKeepsAccounts(s);
      case PublishFail => FailKeepsAccounts(s);
      case _ => SameAccounts(s, Step(cfg, s, action));
    }
  }

  lemma DropsStep(cfg: Config, s: System, action: Action)
    requires DropsCounted(s) && RetryHasRoom(s)
    ensures DropsCounted(Step(cfg, s, action))
  {
    hide AcceptChunk;
  }

  lemma AssembledStep(cfg: Config, s: System, action: Action)
    requires cfg.Valid() && Assembled(cfg, s)
    ensures Assembled(cfg, Step(cfg, s, action))
  {
    hide AcceptChunk, Witnessed;
    if action.Accept? {
      AcceptKeepsAssembled(cfg, s, action.data);
    }
  }

  lemma {:induction false} EveryRun(cfg: Config, actions: seq<Action>)
    requires cfg.Valid()
    ensures Inv(cfg, Run(cfg, actions))
  {
    if actions != [] {
      hide Step, Conserved, Ordered, NewestSafe, WorkerAccounts, DropsCounted, RetryHasRoom, Assembled;
      var before, action := actions[..|actions| - 1], actions[|actions| - 1];
      EveryRun(cfg, before);
      var s := Run(cfg, before);
      ConservedStep(cfg, s, action);
      OrderedStep(cfg, s, action);
      NewestSafeStep(cfg, s, action);
      WorkerStep(cfg, s, action);
      DropsStep(cfg, s, action);
      AssembledStep(cfg, s, action);
    }
  }

  // ---- What holds of every interleaving ----

  /** The second `put_nowait` always finds room, so the reader never sees `queue.Full`. */
  lemma RetryNeverFull(cfg: Config, actions: seq<Action>)
    requires cfg.Valid()
    ensures !Run(cfg, actions).producer.Crashed?
  {
    hide Step, Run, Conserved, Ordered, NewestSafe, WorkerAccounts, DropsCounted, Assembled;
    EveryRun(cfg, actions);
  }

  /** The worker receives a strictly increasing choice of the completed frames: in order,
      without repetition, nothing else. */
  lemma TakenInOrder(cfg: Config, actions: seq<Action>)
    requires cfg.Valid()
    ensures var s := Run(cfg, actions);
      && Increasing(s.taken)
      && (forall i | 0 <= i < |s.taken| ::
            s.taken[i].ticket < |s.completed| && s.taken[i].frame == s.completed[s.taken[i].ticket])
  {
    hide Step, Run, Conserved, NewestSafe, WorkerAccounts, DropsCounted, Assembled, RetryHasRoom;
    EveryRun(cfg, actions);
  }

  /** Whenever the reader is back in its loop, the newest complete frame is in the queue
      or is the last one the worker took. */
  lemma NewestNeverLost(cfg: Config, actions: seq<Action>)
    requires cfg.Valid()
    ensures var s := Run(cfg, actions);
      s.producer.Reading? && s.completed != [] ==>
        var newest := Item(|s.completed| - 1, s.completed[|s.completed| - 1]);
        s.queue == Some(newest) || (s.taken != [] && s.taken[|s.taken| - 1] == newest)
  {
    hide Step, Run, Conserved, Ordered, WorkerAccounts, DropsCounted, Assembled, RetryHasRoom;
    EveryRun(cfg, actions);
  }

  /** Each completed frame is exactly one of published, failed, dropped, queued, being
      published, or still in the reader's hands; and so the counts add up. */
  lemma FramesConserved(cfg: Config, actions: seq<Action>)
    requires cfg.Valid()
    ensures var s := Run(cfg, actions);
      && multiset(Items(s.completed)) ==
           multiset(s.published) + multiset(s.failed) + multiset(s.dropped) + Queued(s) + InFlight(s) + Pending(s)
      && |s.completed| == |s.published| + |s.failed| + |s.dropped| + |Queued(s)| + |InFlight(s)| + |Pending(s)|
  {
    hide Step, Run, Ordered, NewestSafe, WorkerAccounts, DropsCounted, Assembled, RetryHasRoom;
    EveryRun(cfg, actions);
    var s := Run(cfg, actions);
    assert |multiset(Items(s.completed))| == |s.completed|;
  }

  /** `discarded_publications` exceeds the frames really dropped by exactly the lost races
      (and lags one behind inside an eviction), and `generation` counts the publications
      that succeeded. */
  lemma CountersExact(cfg: Config, actions: seq<Action>)
    requires cfg.Valid()
    ensures var s := Run(cfg, actions);
      && s.generation == |s.published|
      && (!s.producer.Retrying? ==> s.discardedPublications == |s.dropped| + s.lostRaces)
      && |s.dropped| <= s.discardedPublications + 1
  {
    hide Step, Run, Conserved, Ordered, NewestSafe, Assembled, RetryHasRoom;
    EveryRun(cfg, actions);
  }

  /** End to end: whatever the interleaving, each published frame has the configured size
      and is byte for byte what some consecutive calls transmitted. */
  lemma PublishedWasTransmitted(cfg: Config, actions: seq<Action>, i: nat)
    requires cfg.Valid() && i < |Run(cfg, actions).published|
    ensures var s := Run(cfg, actions);
      Witnessed(cfg, s.calls, s.published[i].frame)
  {
    EveryRun(cfg, actions);
    var s := Run(cfg, actions);
    assert s.published[i] in s.taken;
    assert s.published[i] in Items(s.completed);
  }

  /** The lost race is real: two frames, both published, and yet one discard counted.
      So the counter cannot be read as the number of dropped frames. */
  lemma LostRaceCounted(cfg: Config, first: Bytes, second: Bytes)
    requires AcceptChunk(cfg, Idle, first).frame.Some? && AcceptChunk(cfg, Idle, second).frame.Some?
    requires AcceptChunk(cfg, Idle, first).assembly == Idle
    ensures var s := Run(cfg, [Accept(first), PutNowait, Accept(second), PutNowait, WorkerGet,
                               GetNowait, RetryPut, PublishBegin, PublishCommit, WorkerGet, PublishBegin, PublishCommit]);
      s.discardedPublications == 1 && s.dropped == [] && |s.published| == 2
  {
    hide AcceptChunk;
    var s1 := Step(cfg, Initial(), Accept(first));
    var s2 := Step(cfg, s1, PutNowait);
    var s3 := Step(cfg, s2, Accept(second));
    var s4 := Step(cfg, s3, PutNowait);
    var s5 := Step(cfg, s4, WorkerGet);
    var s6 := Step(cfg, s5, GetNowait);
    var s7 := Step(cfg, s6, RetryPut);
    var s8 := Step(cfg, s7, PublishBegin);
    var s9 := Step(cfg, s8, PublishCommit);
    var s10 := Step(cfg, s9, WorkerGet);
    var s11 := Step(cfg, s10, PublishBegin);
    var s12 := Step(cfg, s11, PublishCommit);
    var all := [Accept(first), PutNowait, Accept(second), PutNowait, WorkerGet,
                GetNowait, RetryPut, PublishBegin, PublishCommit, WorkerGet, PublishBegin, PublishCommit];
    RunIs(cfg, all, [Initial(), s1, s2, s3, s4, s5, s6, s7, s8, s9, s10, s11, s12]);
  }

  /** A list of states each stepping to the next is the run. */
  lemma {:induction false} RunIs(cfg: Config, actions: seq<Action>, states: seq<System>)
    requires |states| == |actions| + 1 && states[0] == Initial()
    requires forall i | 0 <= i < |actions| :: states[i + 1] == Step(cfg, states[i], actions[i])
    ensures Run(cfg, actions) == states[|actions|]
  {
    if actions != [] {
      RunIs(cfg, actions[..|actions| - 1], states[..|actions|]);
    }
  }
}
