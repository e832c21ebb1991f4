/** The progress recorder of hang_telemetry.py: its wire formats, the drain of the target's
    sample ring into an append-only log, and the classification of the newest samples. */
module HangTelemetry {
  import opened Results
  import opened Structs

  const ABI_VERSION := 1
  const SAMPLE_SIZE := 176
  const WINDOW := 4

  datatype ProtocolError =
    | ProxyRaised
    | StatusUnavailable
    | StatusSize
    | UnsupportedAbi
    | SampleSize
    | CountExceedsCapacity
    | RangeReversed
    | CountMismatch
    | WrongSequence
    | StatusWriteFailed

  // ---- Wire formats ----

  datatype TelemetryStatus = TelemetryStatus(
    abiVersion: nat,
    sampleSize: nat,
    capacity: nat,
    count: nat,
    oldestSequence: nat,
    nextSequence: nat
  )

  const STATUS_LAYOUT: Layout := [Uint(4), Uint(4), Uint(4), Uint(4), Uint(8), Uint(8)]

  function StatusValues(s: TelemetryStatus): seq<Value> {
    [Num(s.abiVersion), Num(s.sampleSize), Num(s.capacity), Num(s.count), Num(s.oldestSequence), Num(s.nextSequence)]
  }

  lemma StatusLayoutSize()
    ensures Size(STATUS_LAYOUT) == 32
  {
    SizeSplits(STATUS_LAYOUT, 2);
    SizeSplits(STATUS_LAYOUT[2..], 2);
    assert STATUS_LAYOUT[..2] == [Uint(4), Uint(4)];
    assert STATUS_LAYOUT[2..][..2] == [Uint(4), Uint(4)] && STATUS_LAYOUT[2..][2..] == [Uint(8), Uint(8)];
  }

  function StatusOf(v: seq<Value>): (s: TelemetryStatus)
    requires AllFit(STATUS_LAYOUT, v)
    ensures StatusValues(s) == v
  {
    var layout := STATUS_LAYOUT;
    assert Fits(layout[0], v[0]) && Fits(layout[1], v[1]) && Fits(layout[2], v[2]);
    assert Fits(layout[3], v[3]) && Fits(layout[4], v[4]) && Fits(layout[5], v[5]);
    TelemetryStatus(v[0].n, v[1].n, v[2].n, v[3].n, v[4].n, v[5].n)
  }

  function ParseStatus(payload: Bytes): Result<TelemetryStatus, ProtocolError> {
    StatusLayoutSize();
    if |payload| != Size(STATUS_LAYOUT) then Failure(StatusSize) else
      var s := StatusOf(Unpack(STATUS_LAYOUT, payload));
      if s.abiVersion != ABI_VERSION then Failure(UnsupportedAbi)
      else if s.sampleSize != SAMPLE_SIZE then Failure(SampleSize)
      else if s.count > s.capacity then Failure(CountExceedsCapacity)
      else if s.oldestSequence > s.nextSequence then Failure(RangeReversed)
      else if s.nextSequence - s.oldestSequence != s.count then Failure(CountMismatch)
      else Success(s)
  }

  /** A coherent ring description that fits the wire. */
  predicate Coherent(s: TelemetryStatus) {
    && s.abiVersion == ABI_VERSION && s.sampleSize == SAMPLE_SIZE
    && s.count <= s.capacity < 0x1_0000_0000
    && s.oldestSequence + s.count == s.nextSequence < 0x1_0000_0000_0000_0000
  }

  /** Exactly the encodings of coherent rings are accepted, each as the ring it encodes. */
  lemma StatusIffEncoded(payload: Bytes, s: TelemetryStatus)
    ensures ParseStatus(payload) == Success(s) <==>
      Coherent(s) && AllFit(STATUS_LAYOUT, StatusValues(s)) && payload == Pack(STATUS_LAYOUT, StatusValues(s))
  {
    hide Pack, Unpack;
    Widths();
    if |payload| == Size(STATUS_LAYOUT) {
      PackUnpack(STATUS_LAYOUT, payload);
      var v := Unpack(STATUS_LAYOUT, payload);
      assert Fits(STATUS_LAYOUT[2], v[2]) && Fits(STATUS_LAYOUT[5], v[5]);
    }
    if AllFit(STATUS_LAYOUT, StatusValues(s)) {
      UnpackPack(STATUS_LAYOUT, StatusValues(s));
      SameStatus(s, StatusOf(StatusValues(s)));
    }
  }

  lemma SameStatus(a: TelemetryStatus, b: TelemetryStatus)
    requires StatusValues(a) == StatusValues(b)
    ensures a == b
  {
    var x, y := StatusValues(a), StatusValues(b);
    assert x[0] == y[0] && x[1] == y[1] && x[2] == y[2] && x[3] == y[3] && x[4] == y[4] && x[5] == y[5];
  }

  /** One progress sample: eighteen 64-bit words, four 32-bit levels, eight queue depths. */
  datatype SampleFields = SampleFields(words: seq<nat>, levels: seq<nat>, queues: seq<nat>)

  type Sample = s: SampleFields | |s.words| == 18 && |s.levels| == 4 && |s.queues| == 8
    witness SampleFields(seq(18, _ => 0), seq(4, _ => 0), seq(8, _ => 0))

  function Sequence(s: Sample): nat { s.words[0] }

  function Uniform(n: nat, width: nat): Layout { seq(n, _ => Uint(width)) }
  function Nums(ns: seq<nat>): (r: seq<Value>)
    ensures |r| == |ns| && forall i :: 0 <= i < |ns| ==> r[i] == Num(ns[i])
  {
    seq(|ns|, i requires 0 <= i < |ns| => Num(ns[i]))
  }

  function SampleLayout(): Layout {
    Uniform(18, 8) + Uniform(4, 4) + Uniform(8, 2)
  }

  function SampleValues(s: Sample): seq<Value> {
    Nums(s.words) + Nums(s.levels) + Nums(s.queues)
  }

  lemma {:induction false} UniformSize(n: nat, width: nat)
    ensures Size(Uniform(n, width)) == n * width
  {
    if n > 0 {
      UniformSize(n - 1, width);
      assert Uniform(n, width)[1..] == Uniform(n - 1, width);
    }
  }

  lemma SampleLayoutSize()
    ensures Size(SampleLayout()) == SAMPLE_SIZE
  {
    hide Size;
    var layout := SampleLayout();
    SizeSplits(layout, 18);
    SizeSplits(layout[18..], 4);
    assert layout[..18] == Uniform(18, 8) && layout[18..][..4] == Uniform(4, 4) && layout[18..][4..] == Uniform(8, 2);
    UniformSize(18, 8);
    UniformSize(4, 4);
    UniformSize(8, 2);
  }

  function Numbers(v: seq<Value>): (r: seq<nat>)
    requires forall i :: 0 <= i < |v| ==> v[i].Num?
    ensures Nums(r) == v
  {
    seq(|v|, i requires 0 <= i < |v| => v[i].n)
  }

  function SampleOf(v: seq<Value>): (s: Sample)
    requires AllFit(SampleLayout(), v)
    ensures SampleValues(s) == v
  {
    assert forall i :: 0 <= i < |v| ==> Fits(SampleLayout()[i], v[i]) && v[i].Num?;
    assert v == v[..18] + v[18..22] + v[22..];
    SampleFields(Numbers(v[..18]), Numbers(v[18..22]), Numbers(v[22..]))
  }

  function ParseSample(payload: Bytes): Option<Sample> {
    SampleLayoutSize();
    if |payload| != SAMPLE_SIZE then None else Some(SampleOf(Unpack(SampleLayout(), payload)))
  }

  lemma SameNumbers(a: seq<nat>, b: seq<nat>)
    requires Nums(a) == Nums(b)
    ensures a == b
  {
    forall i | 0 <= i < |a| ensures a[i] == b[i] {
      assert Nums(a)[i] == Nums(b)[i];
    }
  }

  lemma SameSample(a: Sample, b: Sample)
    requires SampleValues(a) == SampleValues(b)
    ensures a == b
  {
    var x, y := SampleValues(a), SampleValues(b);
    assert x[..18] == Nums(a.words) && x[18..22] == Nums(a.levels) && x[22..] == Nums(a.queues);
    assert y[..18] == Nums(b.words) && y[18..22] == Nums(b.levels) && y[22..] == Nums(b.queues);
    SameNumbers(a.words, b.words);
    SameNumbers(a.levels, b.levels);
    SameNumbers(a.queues, b.queues);
  }

  /** A payload parses to a sample exactly when it is that sample's encoding. */
  lemma SampleIffEncoded(payload: Bytes, s: Sample)
    ensures ParseSample(payload) == Some(s) <==>
      AllFit(SampleLayout(), SampleValues(s)) && payload == Pack(SampleLayout(), SampleValues(s))
  {
    hide Pack, Unpack, SampleLayout, SampleValues;
    SampleLayoutSize();
    if |payload| == SAMPLE_SIZE {
      PackUnpack(SampleLayout(), payload);
    }
    if AllFit(SampleLayout(), SampleValues(s)) {
      UnpackPack(SampleLayout(), SampleValues(s));
      SameSample(s, SampleOf(SampleValues(s)));
    }
  }

  // ---- Classification ----

  datatype Finding =
    | InsufficientEvidence
    | Running
    | TimerProgress
    | GuestPcStatic
    | NvmeCommandWithoutCqe
    | NvmeCqeWithoutIar
    | XhciHwWithoutIar
    | FramebufferBackpressure

  // Positions of the words that classification reads.
  const HOST_FIQ_COUNT := 1
  const HOST_TICK_COUNT := 2
  const GUEST_PC := 3
  const NVME_COMMANDS := 7
  const NVME_COMPLETIONS := 8
  const NVME_IRQ_IARS := 10
  const XHCI_HW_IRQS := 12
  const XHCI_IRQ_IARS := 14
  const FB_BACKPRESSURE_SKIPS := 17

  /** `delta` for one counter: a counter that went backwards was restarted from zero. */
  function Delta(older: Sample, newer: Sample, field: nat): (r: nat)
    requires field < 18
  {
    var before, after := older.words[field], newer.words[field];
    if after >= before then after - before else after
  }

  type FourSamples = w: seq<Sample> | |w| == WINDOW
    witness seq(WINDOW, _ => SampleFields(seq(18, _ => 0), seq(4, _ => 0), seq(8, _ => 0)))

  function Total(w: FourSamples, field: nat): nat
    requires field < 18
  {
    Delta(w[0], w[1], field) + Delta(w[1], w[2], field) + Delta(w[2], w[3], field)
  }

  predicate Gapless(w: FourSamples) {
    forall i :: 0 <= i < 3 ==> Sequence(w[i + 1]) == Sequence(w[i]) + 1
  }

  predicate TimerProgresses(w: FourSamples) {
    forall i :: 0 <= i < 3 ==> Delta(w[i], w[i + 1], HOST_FIQ_COUNT) > 0 && Delta(w[i], w[i + 1], HOST_TICK_COUNT) > 0
  }

  predicate PcStatic(w: FourSamples) {
    forall i :: 1 <= i < WINDOW ==> w[i].words[GUEST_PC] == w[0].words[GUEST_PC]
  }

  function Findings(w: FourSamples): seq<Finding> {
    (if TimerProgresses(w) && !PcStatic(w) then [Running]
     else if TimerProgresses(w) then [TimerProgress, GuestPcStatic] else [])
    + (if Total(w, NVME_COMMANDS) > 0 && Total(w, NVME_COMPLETIONS) == 0 then [NvmeCommandWithoutCqe] else [])
    + (if Total(w, NVME_COMPLETIONS) > 0 && Total(w, NVME_IRQ_IARS) == 0 then [NvmeCqeWithoutIar] else [])
    + (if Total(w, XHCI_HW_IRQS) > 0 && Total(w, XHCI_IRQ_IARS) == 0 then [XhciHwWithoutIar] else [])
    + (if Total(w, FB_BACKPRESSURE_SKIPS) > 0 then [FramebufferBackpressure] else [])
  }

  function Last4(samples: seq<Sample>): (r: seq<Sample>)
    ensures |r| <= WINDOW
  {
    if |samples| <= WINDOW then samples else samples[|samples| - WINDOW..]
  }

  /** `classify_window` */
  function Classify(samples: seq<Sample>): (r: seq<Finding>)
    ensures r != []
  {
    if |samples| < WINDOW || !Gapless(Last4(samples)) then [InsufficientEvidence]
    else
      var findings := Findings(Last4(samples));
      if findings == [] then [InsufficientEvidence] else findings
  }

  predicate NeverRestarted(w: FourSamples, field: nat)
    requires field < 18
  {
    w[0].words[field] <= w[1].words[field] <= w[2].words[field] <= w[3].words[field]
  }

  /** Each step left the counter alone or found it at zero. */
  predicate Still(w: FourSamples, field: nat)
    requires field < 18
  {
    forall i :: 0 <= i < 3 ==> w[i + 1].words[field] == w[i].words[field] || w[i + 1].words[field] == 0
  }

  /** Where a counter was not restarted, its three deltas add up to last minus first; in
      any case the total is zero exactly when the counter was still. */
  lemma TotalMeans(w: FourSamples, field: nat)
    requires field < 18
    ensures NeverRestarted(w, field) ==> w[0].words[field] + Total(w, field) == w[3].words[field]
    ensures Total(w, field) == 0 <==> Still(w, field)
  {
    assert Total(w, field) == 0 ==> forall i :: 0 <= i < 3 ==> Delta(w[i], w[i + 1], field) == 0;
  }

  lemma StallFound(w: FourSamples)
    ensures NvmeCommandWithoutCqe in Findings(w) <==> Total(w, NVME_COMMANDS) > 0 && Total(w, NVME_COMPLETIONS) == 0
  {
    hide Total, TimerProgresses, PcStatic;
  }

  /** A stalled NVMe queue is reported exactly when, over four consecutive samples, commands
      moved and completions stood still.  Where neither counter was restarted, that is:
      commands advanced and completions did not. */
  lemma StalledNvmeReported(samples: seq<Sample>)
    ensures NvmeCommandWithoutCqe in Classify(samples) <==>
      && |samples| >= WINDOW && Gapless(Last4(samples))
      && !Still(Last4(samples), NVME_COMMANDS) && Still(Last4(samples), NVME_COMPLETIONS)
    ensures |samples| >= WINDOW ==>
      var w := Last4(samples);
      Gapless(w) && NeverRestarted(w, NVME_COMMANDS) && NeverRestarted(w, NVME_COMPLETIONS) ==>
        (NvmeCommandWithoutCqe in Classify(samples) <==>
          && w[0].words[NVME_COMMANDS] < w[3].words[NVME_COMMANDS]
          && w[0].words[NVME_COMPLETIONS] == w[3].words[NVME_COMPLETIONS])
  {
    hide Total, Findings, Still, Gapless;
    if |samples| >= WINDOW {
      var w: FourSamples := Last4(samples);
      TotalMeans(w, NVME_COMMANDS);
      TotalMeans(w, NVME_COMPLETIONS);
      StallFound(w);
    }
  }

  // ---- The recorder ----

  datatype Document =
    | Streaming(last: int, findings: seq<Finding>)
    | Available(lastOrNone: Option<int>, found: seq<Finding>, ring: TelemetryStatus)
    | Unavailable(error: ProtocolError, lastKnown: Option<int>)

  /** What a proxy request comes back with. */
  datatype Answer = Raised | Nothing | Payload(bytes: Bytes)

  /** One poll's worth of target behaviour: the status answer, the answer for each sequence,
      which of those requests deliver an event that re-enters `maybe_poll`, and whether the
      two status-file writes succeed. */
  datatype Target = Target(
    status: Answer,
    statusReenters: bool,
    sample: nat -> Answer,
    reenters: nat -> bool,
    statusWrites: bool,
    errorWrites: bool
  )

  /** A document written to the status file, with how many samples the log held and where
      the cursor stood when it was written. */
  datatype Entry = Entry(document: Document, logged: nat, cursor: Option<nat>)

  /** The recorder's fields and the two files it writes. */
  datatype State = State(
    log: seq<Sample>,
    recent: seq<Sample>,
    lastPoll: seq<Sample>,
    next: Option<nat>,
    published: seq<Entry>
  )

  function LastSequence(next: Option<nat>): Option<int> {
    if next.Some? then Some(next.value - 1) else None
  }

  /** Both entry points record a sample this way. */
  function Recorded(s: State, value: Sample, lastPoll: seq<Sample>): State {
    s.(log := s.log + [value], recent := Last4(s.recent + [value]), lastPoll := lastPoll, next := Some(Sequence(value) + 1))
  }

  function Published(s: State, writes: bool, document: Document): State {
    if writes then s.(published := s.published + [Entry(document, |s.log|, s.next)]) else s
  }

  /** `accept_event`: the new state and the result.  A failed status write reports False
      although the sample is already in the log. */
  function Accepted(s: State, payload: Bytes, writes: bool): (State, bool) {
    match ParseSample(payload)
    case None => (s, false)
    case Some(value) =>
      if s.next.Some? && Sequence(value) < s.next.value then (s, false) else
        var t := Recorded(s, value, [value]);
        (Published(t, writes, Streaming(Sequence(value), Classify(t.recent))), writes)
  }

  /** The sample a target gives for a sequence, if it gives the right one. */
  function Answered(target: Target, sequence: nat): Option<Sample> {
    match target.sample(sequence)
    case Payload(bytes) =>
      (match ParseSample(bytes)
       case Some(value) => if Sequence(value) == sequence then Some(value) else None
       case None => None)
    case _ => None
  }

  /** Why the drain stops at a sequence that was not answered; only a missing answer does
      so quietly. */
  function StopReason(target: Target, sequence: nat): Option<ProtocolError> {
    match target.sample(sequence)
    case Raised => Some(ProxyRaised)
    case Nothing => None
    case Payload(bytes) => if ParseSample(bytes).None? then Some(SampleSize) else Some(WrongSequence)
  }

  /** The drain loop of `_poll_once`. */
  function Drained(s: State, sequence: nat, end: nat, target: Target): (State, nat, Option<ProtocolError>)
    decreases end - sequence
  {
    if end <= sequence then (s, sequence, None)
    else match Answered(target, sequence)
      case None => (s, sequence, StopReason(target, sequence))
      case Some(value) => Drained(Recorded(s, value, s.lastPoll + [value]), sequence + 1, end, target)
  }

  function Start(s: State, status: TelemetryStatus): (r: nat)
    ensures status.oldestSequence <= r
  {
    if s.next.Some? && s.next.value > status.oldestSequence then s.next.value else status.oldestSequence
  }

  /** `_poll_once`: the new state and the exception it raises, if any. */
  function Polled(s: State, target: Target): (State, Option<ProtocolError>) {
    var cleared := s.(lastPoll := []);
    match target.status
    case Raised => (cleared, Some(ProxyRaised))
    case Nothing => (cleared, Some(StatusUnavailable))
    case Payload(bytes) =>
      match ParseStatus(bytes)
      case Failure(e) => (cleared, Some(e))
      case Success(status) =>
        var (drained, sequence, error) := Drained(cleared, Start(s, status), status.nextSequence, target);
        if error.Some? then (drained, error) else
          var t := if drained.next.None? then drained.(next := Some(sequence)) else drained;
          (Published(t, target.statusWrites, Available(LastSequence(t.next), Classify(t.recent), status)),
           if target.statusWrites then None else Some(StatusWriteFailed))
  }

  /** `maybe_poll` once it decided to poll: failures are recorded, never raised. */
  function Attempted(s: State, target: Target): (State, bool) {
    var (t, error) := Polled(s, target);
    if error.None? then (t, true)
    else (Published(t, target.errorWrites, Unavailable(error.value, LastSequence(t.next))), false)
  }

  // ---- What every run keeps ----

  datatype Call = Event(payload: Bytes, writes: bool) | Poll(target: Target)

  /** A call that reaches the recorder: an event, or a `maybe_poll` that decides to poll. */
  function Step(s: State, call: Call): State {
    match call
    case Event(payload, writes) => Accepted(s, payload, writes).0
    case Poll(target) => Attempted(s, target).0
  }

  function Run(s: State, calls: seq<Call>): State {
    if calls == [] then s else Step(Run(s, calls[..|calls| - 1]), calls[|calls| - 1])
  }

  const FRESH := State([], [], [], None, [])

  ghost predicate Increasing(log: seq<Sample>) {
    forall i, j :: 0 <= i < j < |log| ==> Sequence(log[i]) < Sequence(log[j])
  }

  /** A document says what was the case when it was written: the sequence before the cursor,
      which is that of the newest sample if there was one, and the findings of the log as it
      then stood. */
  ghost predicate Faithful(e: Entry, log: seq<Sample>) {
    && e.logged <= |log|
    && NextFollows(log[..e.logged], e.cursor)
    && match e.document
       case Streaming(last, findings) =>
         e.logged > 0 && Some(last) == LastSequence(e.cursor) && findings == Classify(log[..e.logged])
       case Available(last, found, _) =>
         e.cursor.Some? && last == LastSequence(e.cursor) && found == Classify(log[..e.logged])
       case Unavailable(_, last) => last == LastSequence(e.cursor)
  }

  predicate NotAfter(a: Option<nat>, b: Option<nat>) {
    a.None? || (b.Some? && a.value <= b.value)
  }

  /** Documents follow each other in time: neither the log nor the cursor ever goes back. */
  ghost predicate Chronological(published: seq<Entry>, logged: nat, cursor: Option<nat>) {
    && (forall i :: 0 <= i < |published| ==> published[i].logged <= logged && NotAfter(published[i].cursor, cursor))
    && (forall i, j :: 0 <= i < j < |published| ==>
          published[i].logged <= published[j].logged && NotAfter(published[i].cursor, published[j].cursor))
  }

  ghost predicate NextFollows(log: seq<Sample>, next: Option<nat>) {
    log != [] ==> next == Some(Sequence(log[|log| - 1]) + 1)
  }

  ghost predicate TailOf(part: seq<Sample>, log: seq<Sample>) {
    |part| <= |log| && part == log[|log| - |part|..]
  }

  ghost predicate LogInv(s: State) {
    && Increasing(s.log)
    && NextFollows(s.log, s.next)
    && s.recent == Last4(s.log)
    && TailOf(s.lastPoll, s.log)
  }

  ghost predicate Inv(s: State) {
    && LogInv(s)
    && (forall i :: 0 <= i < |s.published| ==> Faithful(s.published[i], s.log))
    && Chronological(s.published, |s.log|, s.next)
  }

  lemma IncreasingExtended(log: seq<Sample>, next: Option<nat>, value: Sample)
    requires Increasing(log) && NextFollows(log, next) && (next.Some? ==> next.value <= Sequence(value))
    ensures Increasing(log + [value])
  {
    hide Sequence;
    var longer := log + [value];
    forall i, j | 0 <= i < j < |longer| ensures Sequence(longer[i]) < Sequence(longer[j]) {
      if j == |log| && i < |log| - 1 {
        assert Sequence(log[i]) < Sequence(log[|log| - 1]);
      }
    }
  }

  lemma WindowExtended(log: seq<Sample>, value: Sample)
    ensures Last4(Last4(log) + [value]) == Last4(log + [value])
  {
    var n := |log|;
    if n >= WINDOW {
      assert log[n - 4..] + [value] == (log + [value])[n - 4..];
      assert (log + [value])[n - 4..][1..] == (log + [value])[n - 3..];
    }
  }

  lemma TailExtended(part: seq<Sample>, log: seq<Sample>, value: Sample)
    requires TailOf(part, log)
    ensures TailOf(part + [value], log + [value]) && TailOf([value], log + [value])
  {
  }

  lemma RecordedKeeps(s: State, value: Sample, inPoll: bool)
    requires LogInv(s) && (s.next.Some? ==> s.next.value <= Sequence(value))
    ensures LogInv(Recorded(s, value, if inPoll then s.lastPoll + [value] else [value]))
  {
    hide Last4, Increasing, TailOf;
    IncreasingExtended(s.log, s.next, value);
    WindowExtended(s.log, value);
    TailExtended(s.lastPoll, s.log, value);
  }

  lemma FaithfulLater(e: Entry, log: seq<Sample>, more: seq<Sample>)
    requires Faithful(e, log)
    ensures Faithful(e, log + more)
  {
    hide Classify, NextFollows;
    assert (log + more)[..e.logged] == log[..e.logged];
  }

  /** Documents stay faithful and in order while the log and the cursor move on. */
  lemma MovedOn(s: State, t: State, more: seq<Sample>)
    requires Inv(s) && LogInv(t)
    requires t.log == s.log + more && t.published == s.published && NotAfter(s.next, t.next)
    ensures Inv(t)
  {
    hide LogInv, Faithful, Chronological;
    forall i | 0 <= i < |s.published| ensures Faithful(t.published[i], t.log) {
      FaithfulLater(s.published[i], s.log, more);
    }
    LaterChronological(s.published, |s.log|, s.next, |t.log|, t.next);
  }

  lemma LaterChronological(published: seq<Entry>, logged: nat, cursor: Option<nat>, logged': nat, cursor': Option<nat>)
    requires Chronological(published, logged, cursor) && logged <= logged' && NotAfter(cursor, cursor')
    ensures Chronological(published, logged', cursor')
  {
  }

  lemma OneMoreChronological(published: seq<Entry>, e: Entry)
    requires Chronological(published, e.logged, e.cursor)
    ensures Chronological(published + [e], e.logged, e.cursor)
  {
  }

  /** Writing a faithful document keeps everything. */
  lemma PublishedKeeps(s: State, writes: bool, document: Document)
    requires Inv(s) && Faithful(Entry(document, |s.log|, s.next), s.log)
    ensures Inv(Published(s, writes, document))
  {
    hide LogInv, Faithful, Chronological, Last4, Increasing, TailOf;
    if writes {
      OneMoreChronological(s.published, Entry(document, |s.log|, s.next));
      SameLog(s, Published(s, writes, document));
    }
  }

  lemma SameLog(s: State, t: State)
    requires LogInv(s) && t == s.(published := t.published)
    ensures LogInv(t)
  {
  }

  /** Classifying the bounded window is classifying the whole log. */
  lemma WindowSuffices(log: seq<Sample>)
    ensures Classify(Last4(log)) == Classify(log)
  {
    assert Last4(Last4(log)) == Last4(log);
  }

  /** The samples a target answers for an unbroken run of sequences. */
  function AnsweredRun(target: Target, from: nat, end: nat): (r: seq<Sample>)
    ensures forall i :: 0 <= i < |r| ==> Sequence(r[i]) == from + i
    ensures r == [] || from + |r| <= end
    decreases end - from
  {
    if end <= from then []
    else match Answered(target, from)
      case None => []
      case Some(value) => [value] + AnsweredRun(target, from + 1, end)
  }

  lemma AnsweredSequence(target: Target, q: nat)
    requires Answered(target, q).Some?
    ensures Sequence(Answered(target, q).value) == q
  {
  }

  /** What the drain loop does, without a loop: it appends the answered run, and gives up
      with the reason of the first unanswered sequence. */
  lemma {:induction false} DrainedExactly(s: State, from: nat, end: nat, target: Target)
    requires LogInv(s) && (s.next.Some? ==> s.next.value <= from)
    ensures var (t, sequence, error) := Drained(s, from, end, target);
      var run := AnsweredRun(target, from, end);
      && LogInv(t)
      && t.log == s.log + run && t.lastPoll == s.lastPoll + run && t.published == s.published
      && t.next == (if run == [] then s.next else Some(from + |run|))
      && sequence == from + |run|
      && error == (if end <= from + |run| then None else StopReason(target, from + |run|))
    decreases end - from
  {
    hide Last4, StopReason, LogInv, Sequence, Answered;
    if from < end && Answered(target, from).Some? {
      var value := Answered(target, from).value;
      AnsweredSequence(target, from);
      RecordedKeeps(s, value, true);
      var more := AnsweredRun(target, from + 1, end);
      DrainedExactly(Recorded(s, value, s.lastPoll + [value]), from + 1, end, target);
      assert (s.log + [value]) + more == s.log + ([value] + more);
      assert (s.lastPoll + [value]) + more == s.lastPoll + ([value] + more);
    } else {
      assert s.log + [] == s.log && s.lastPoll + [] == s.lastPoll;
    }
  }

  /** Clearing the list of the last poll disturbs nothing else. */
  lemma ClearedKeeps(s: State)
    requires LogInv(s)
    ensures LogInv(s.(lastPoll := []))
  {
    hide Last4, Increasing, NextFollows;
    assert s.log[|s.log|..] == [];
  }

  /** A poll whose every request is answered logs exactly the retained samples that were not
      logged before, in order. */
  lemma FullyAnsweredPoll(s: State, status: TelemetryStatus, bytes: Bytes, target: Target)
    requires LogInv(s) && target.status == Payload(bytes) && ParseStatus(bytes) == Success(status)
    requires forall q :: Start(s, status) <= q < status.nextSequence ==> Answered(target, q).Some?
    ensures var (t, error) := Polled(s, target);
      var start := Start(s, status);
      && t.log == s.log + t.lastPoll
      && |t.lastPoll| == (if start < status.nextSequence then status.nextSequence - start else 0)
      && AnswersFrom(target, start, t.lastPoll)
      && t.next == (if t.lastPoll == [] && s.next.Some? then s.next else Some(start + |t.lastPoll|))
      && error == (if target.statusWrites then None else Some(StatusWriteFailed))
  {
    hide Last4, Classify, Drained, ParseStatus, LogInv, StopReason, AnswersFrom, Start, AnsweredRun, LastSequence;
    var start := Start(s, status);
    var cleared := s.(lastPoll := []);
    StartIsLater(s, status);
    ClearedKeeps(s);
    DrainedExactly(cleared, start, status.nextSequence, target);
    AllAnswered(target, start, status.nextSequence);
    var run := AnsweredRun(target, start, status.nextSequence);
    assert [] + run == run;
  }

  /** These are the target's answers to consecutive requests, each carrying the sequence it
      was asked for. */
  ghost predicate AnswersFrom(target: Target, from: nat, samples: seq<Sample>) {
    forall i :: 0 <= i < |samples| ==>
      Sequence(samples[i]) == from + i && Answered(target, from + i) == Some(samples[i])
  }

  lemma StartIsLater(s: State, status: TelemetryStatus)
    ensures s.next.Some? ==> s.next.value <= Start(s, status)
    ensures s.next.None? ==> Start(s, status) == status.oldestSequence
  {
  }

  lemma {:induction false} AllAnswered(target: Target, from: nat, end: nat)
    requires forall q :: from <= q < end ==> Answered(target, q).Some?
    ensures |AnsweredRun(target, from, end)| == (if from < end then end - from else 0)
    ensures AnswersFrom(target, from, AnsweredRun(target, from, end))
    decreases end - from
  {
    hide Answered, Sequence;
    if from < end {
      AllAnswered(target, from + 1, end);
      var tail := AnsweredRun(target, from + 1, end);
      var value := Answered(target, from).value;
      assert AnsweredRun(target, from, end) == [value] + tail;
      forall i | 0 <= i < end - from
        ensures Answered(target, from + i) == Some(([value] + tail)[i])
      {
        if i > 0 {
          assert Answered(target, from + 1 + (i - 1)) == Some(tail[i - 1]);
        }
      }
    }
  }

  /** What both calls publish about the state they reached. */
  lemma StateIsFaithful(s: State, document: Document)
    requires LogInv(s)
    requires match document
      case Streaming(last, findings) => s.log != [] && Some(last) == LastSequence(s.next) && findings == Classify(s.recent)
      case Available(last, found, _) => s.next.Some? && last == LastSequence(s.next) && found == Classify(s.recent)
      case Unavailable(_, last) => last == LastSequence(s.next)
    ensures Faithful(Entry(document, |s.log|, s.next), s.log)
  {
    hide Classify, Last4, Increasing, TailOf, Sequence;
    WindowSuffices(s.log);
    assert s.log[..|s.log|] == s.log;
  }

  lemma AcceptedKeeps(s: State, payload: Bytes, writes: bool)
    requires Inv(s)
    ensures Inv(Accepted(s, payload, writes).0) && s.log <= Accepted(s, payload, writes).0.log
  {
    hide Last4, Classify, ParseSample, LogInv, Faithful, Chronological, Published, Sequence;
    if ParseSample(payload).Some? {
      var value := ParseSample(payload).value;
      if !(s.next.Some? && Sequence(value) < s.next.value) {
        var t := Recorded(s, value, [value]);
        RecordedKeeps(s, value, false);
        MovedOn(s, t, [value]);
        var document := Streaming(Sequence(value), Classify(t.recent));
        StateIsFaithful(t, document);
        PublishedKeeps(t, writes, document);
        PublishedLog(t, writes, document);
      }
    }
  }

  lemma PublishedLog(s: State, writes: bool, document: Document)
    ensures Published(s, writes, document).log == s.log
  {
  }

  lemma ClearedInv(s: State)
    requires Inv(s)
    ensures Inv(s.(lastPoll := []))
  {
    ClearedKeeps(s);
    hide LogInv, Faithful, Chronological;
  }

  lemma PolledKeeps(s: State, target: Target)
    requires Inv(s)
    ensures Inv(Polled(s, target).0) && s.log <= Polled(s, target).0.log
  {
    hide Last4, Classify, Drained, ParseStatus, LogInv, Faithful, Chronological, Start, Published, AnsweredRun, StopReason;
    var cleared := s.(lastPoll := []);
    ClearedInv(s);
    if target.status.Payload? && ParseStatus(target.status.bytes).Success? {
      var status := ParseStatus(target.status.bytes).value;
      var from := Start(s, status);
      StartIsLater(s, status);
      DrainedExactly(cleared, from, status.nextSequence, target);
      var (t, sequence, error) := Drained(cleared, from, status.nextSequence, target);
      MovedOn(cleared, t, AnsweredRun(target, from, status.nextSequence));
      if error.None? {
        AvailableKeeps(t, sequence, status, target.statusWrites);
      }
    }
  }

  lemma AvailableKeeps(t: State, sequence: nat, status: TelemetryStatus, writes: bool)
    requires Inv(t)
    ensures var u := if t.next.None? then t.(next := Some(sequence)) else t;
      var v := Published(u, writes, Available(LastSequence(u.next), Classify(u.recent), status));
      Inv(v) && v.log == t.log
  {
    hide Last4, Classify, Faithful, Chronological, Published, LogInv;
    var u := if t.next.None? then t.(next := Some(sequence)) else t;
    CursorSet(t, sequence);
    assert t.log + [] == t.log;
    MovedOn(t, u, []);
    var document := Available(LastSequence(u.next), Classify(u.recent), status);
    StateIsFaithful(u, document);
    PublishedKeeps(u, writes, document);
    PublishedLog(u, writes, document);
  }

  lemma CursorSet(t: State, sequence: nat)
    requires LogInv(t)
    ensures LogInv(if t.next.None? then t.(next := Some(sequence)) else t)
  {
    hide Last4, Increasing, TailOf;
  }

  lemma AttemptedKeeps(s: State, target: Target)
    requires Inv(s)
    ensures Inv(Attempted(s, target).0) && s.log <= Attempted(s, target).0.log
  {
    hide Polled, Last4, Classify, Faithful, Chronological, Published, LogInv;
    PolledKeeps(s, target);
    var (t, error) := Polled(s, target);
    if error.Some? {
      var document := Unavailable(error.value, LastSequence(t.next));
      StateIsFaithful(t, document);
      PublishedKeeps(t, target.errorWrites, document);
      PublishedLog(t, target.errorWrites, document);
    }
  }

  /** Over every run: the log is strictly increasing, the window is its last four samples
      and classifies like the whole log, every status document says what was the case when
      it was written, and between two documents neither log nor cursor went back. */
  lemma {:induction false} EveryRun(calls: seq<Call>)
    ensures var s := Run(FRESH, calls);
      Inv(s) && Classify(s.recent) == Classify(s.log)
  {
    hide Accepted, Attempted, Last4, Classify;
    var s := Run(FRESH, calls);
    if calls != [] {
      var before := Run(FRESH, calls[..|calls| - 1]);
      EveryRun(calls[..|calls| - 1]);
      match calls[|calls| - 1]
      case Event(payload, writes) => AcceptedKeeps(before, payload, writes);
      case Poll(target) => AttemptedKeeps(before, target);
    } else {
      FreshHolds();
    }
    WindowSuffices(s.log);
  }

  lemma FreshHolds()
    ensures Inv(FRESH)
  {
  }

  /** Samples are never rewritten: the log after a run extends the log after any earlier
      part of it. */
  lemma {:induction false} LogOnlyGrows(calls: seq<Call>, n: nat)
    requires n <= |calls|
    ensures Run(FRESH, calls[..n]).log <= Run(FRESH, calls).log
  {
    hide Accepted, Attempted, Last4, Classify;
    if n < |calls| {
      var front := calls[..|calls| - 1];
      LogOnlyGrows(front, n);
      assert front[..n] == calls[..n];
      EveryRun(front);
      match calls[|calls| - 1]
      case Event(payload, writes) => AcceptedKeeps(Run(FRESH, front), payload, writes);
      case Poll(target) => AttemptedKeeps(Run(FRESH, front), target);
    } else {
      assert calls[..n] == calls;
    }
  }

  // ---- The recorder as the program runs it ----

  class TelemetryRecorder {
    var log: seq<Sample>
    var recent: seq<Sample>
    var lastPollSamples: seq<Sample>
    var nextSequence: Option<nat>
    var published: seq<Entry>
    var lastAttempt: Option<real>
    var polling: bool
    const interval: real

    constructor (interval: real)
      requires interval > 0.0
      ensures Contents() == State([], [], [], None, []) && lastAttempt == None && !polling && this.interval == interval
    {
      log, recent, lastPollSamples, nextSequence, published := [], [], [], None, [];
      lastAttempt, polling := None, false;
      this.interval := interval;
    }

    ghost function Contents(): State
      reads this
    {
      State(log, recent, lastPollSamples, nextSequence, published)
    }

    method AppendSample(value: Sample)
      modifies `log, `recent
      ensures log == old(log) + [value] && recent == Last4(old(recent) + [value])
    {
      log := log + [value];
      recent := recent + [value];
      recent := if |recent| <= WINDOW then recent else recent[|recent| - WINDOW..];
    }

    method Publish(document: Document, writes: bool) returns (ok: bool)
      modifies `published
      ensures ok == writes
      ensures published == if writes then old(published) + [Entry(document, |log|, nextSequence)] else old(published)
    {
      if writes {
        published := published + [Entry(document, |log|, nextSequence)];
      }
      ok := writes;
    }

    method AcceptEvent(payload: Bytes, writes: bool) returns (ok: bool)
      modifies this
      ensures (Contents(), ok) == Accepted(old(Contents()), payload, writes)
      ensures lastAttempt == old(lastAttempt) && polling == old(polling)
    {
      var parsed := ParseSample(payload);
      if parsed.None? {
        return false;
      }
      var value := parsed.value;
      if nextSequence.Some? && Sequence(value) < nextSequence.value {
        return false;
      }
      AppendSample(value);
      lastPollSamples := [value];
      nextSequence := Some(Sequence(value) + 1);
      ok := Publish(Streaming(Sequence(value), Classify(recent)), writes);
    }

    /** The loop of `_poll_once`, with the events its proxy requests may deliver. */
    method DrainRing(begin: nat, end: nat, target: Target) returns (sequence: nat, error: Option<ProtocolError>)
      requires polling
      modifies this
      ensures (Contents(), sequence, error) == Drained(old(Contents()), begin, end, target)
      ensures lastAttempt == old(lastAttempt) && polling
      decreases 1, 0
    {
      hide ParseSample, Last4, Attempted;
      sequence := begin;
      while sequence < end
        invariant polling && lastAttempt == old(lastAttempt)
        invariant Drained(Contents(), sequence, end, target) == Drained(old(Contents()), begin, end, target)
      {
        if target.reenters(sequence) {
          var ignored := MaybePoll(true, 0.0, target);
        }
        var answer := target.sample(sequence);
        if answer.Raised? {
          return sequence, Some(ProxyRaised);
        }
        if answer.Nothing? {
          break;
        }
        var sample := ParseSample(answer.bytes);
        if sample.None? {
          return sequence, Some(SampleSize);
        }
        if Sequence(sample.value) != sequence {
          return sequence, Some(WrongSequence);
        }
        AppendSample(sample.value);
        lastPollSamples := lastPollSamples + [sample.value];
        sequence := sequence + 1;
        nextSequence := Some(sequence);
      }
      error := None;
    }

    method PollOnce(target: Target) returns (error: Option<ProtocolError>)
      requires polling
      modifies this
      ensures (Contents(), error) == Polled(old(Contents()), target)
      ensures lastAttempt == old(lastAttempt) && polling
      decreases 1, 1
    {
      hide ParseStatus, Classify, Drained;
      lastPollSamples := [];
      if target.statusReenters {
        var ignored := MaybePoll(true, 0.0, target);
      }
      if target.status.Raised? {
        return Some(ProxyRaised);
      }
      if target.status.Nothing? {
        return Some(StatusUnavailable);
      }
      var parsed := ParseStatus(target.status.bytes);
      if parsed.Failure? {
        return Some(parsed.error);
      }
      var status := parsed.value;
      var begin := if nextSequence.Some? && nextSequence.value > status.oldestSequence
                   then nextSequence.value else status.oldestSequence;
      var sequence;
      sequence, error := DrainRing(begin, status.nextSequence, target);
      if error.Some? {
        return;
      }
      if nextSequence.None? {
        nextSequence := Some(sequence);
      }
      var ok := Publish(Available(LastSequence(nextSequence), Classify(recent), status), target.statusWrites);
      error := if ok then None else Some(StatusWriteFailed);
    }

    /** Re-entered during a poll it changes nothing; otherwise it polls when forced, when it
        never polled, or when the interval has passed, and never before. */
    method MaybePoll(force: bool, now: real, target: Target) returns (ok: bool)
      modifies this
      ensures old(polling) ==> !ok && Contents() == old(Contents()) && lastAttempt == old(lastAttempt)
      ensures polling == old(polling)
      ensures !old(polling) ==>
        var due := force || old(lastAttempt).None? || now - old(lastAttempt).value >= interval;
        && lastAttempt == (if due then Some(now) else old(lastAttempt))
        && (Contents(), ok) == (if due then Attempted(old(Contents()), target) else (old(Contents()), false))
      decreases if polling then 0 else 2
    {
      if polling {
        return false;
      }
      if !force && lastAttempt.Some? && now - lastAttempt.value < interval {
        return false;
      }
      lastAttempt := Some(now);
      polling := true;
      var error := PollOnce(target);
      if error.Some? {
        var ignored := Publish(Unavailable(error.value, LastSequence(nextSequence)), target.errorWrites);
      }
      polling := false;
      ok := error.None?;
    }
  }
}
