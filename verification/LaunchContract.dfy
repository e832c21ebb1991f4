/** The framed launch-contract stream of tools/launch_contract.py: an incremental
    decoder fed arbitrary chunks, and the encoder it inverts.  CRC32 is a parameter:
    every theorem holds for any 32-bit checksum. */
module LaunchContract {
  import opened Results
  import opened Structs

  type Checksum = Bytes -> u32
  type Key = (nat, nat)

  const FRAME_MAGIC: Bytes :=
    [0x4A, 0x33, 0x31, 0x33, 0x43, 0x4F, 0x4E, 0x54, 0x52, 0x41, 0x43, 0x54]
  const FRAME_VERSION := 1
  const CONTRACT_MAGIC := 0x4A43314C
  const CONTRACT_VERSION := 1
  const MAX_MAPPINGS := 64
  const MAX_CPUS := 8
  const MAX_IRQ_ROUTES := 16
  const SNAPSHOT_SIZE := 152 + 16 * 24 + 64 * 32 + 8 * 72 + 16 * 16 + 64

  const FRAME: Layout := [Chars(12), Uint(2), Uint(2), Uint(4), Uint(4), Uint(4), Uint(4)]
  const FRAME_SIZE := 32
  const SNAPSHOT_HEADER: Layout := [Uint(4), Uint(2), Uint(2), Uint(4), Uint(4), Uint(4), Uint(4)]
  const SNAPSHOT_HEADER_SIZE := 24
  const COUNTS: Layout := [Uint(4), Uint(4), Uint(4), Uint(4)]
  const COUNTS_OFFSET := 96
  const RECORD_SIZE := FRAME_SIZE + SNAPSHOT_SIZE

  lemma LayoutSizes()
    ensures Size(FRAME) == FRAME_SIZE
    ensures Size(SNAPSHOT_HEADER) == SNAPSHOT_HEADER_SIZE
    ensures Size(COUNTS) == 16
  {
    assert Size(FRAME[3..]) == 16;
    assert Size(SNAPSHOT_HEADER[3..]) == 16;
  }

  datatype DecodeError =
    | InvalidFrameMagic
    | UnsupportedFrameVersion
    | InvalidFrameHeaderSize
    | InvalidPayloadLength
    | CrcMismatch
    | UnsupportedContractVersion
    | InvalidContractLength
    | IdentityMismatch
    | ContractCrcMismatch
    | ContractCountOverflow
    | DuplicateKey
    | TrailingBytes

  datatype Snapshot = Snapshot(checkpoint: nat, sequence: nat, payload: Bytes) {
    function Key(): Key { (checkpoint, sequence) }
  }

  // ---- The snapshot carried by a record ----

  function HeaderFields(payload: Bytes): (r: seq<Value>)
    requires |payload| == SNAPSHOT_SIZE
    ensures AllFit(SNAPSHOT_HEADER, r)
  {
    LayoutSizes();
    Unpack(SNAPSHOT_HEADER, payload[..SNAPSHOT_HEADER_SIZE])
  }

  function CountFields(payload: Bytes): (r: seq<Value>)
    requires |payload| == SNAPSHOT_SIZE
    ensures AllFit(COUNTS, r)
  {
    LayoutSizes();
    Unpack(COUNTS, payload[COUNTS_OFFSET..COUNTS_OFFSET + 16])
  }

  /** The identity a payload claims in its own header. */
  function Claimed(payload: Bytes): (r: Snapshot)
    requires |payload| == SNAPSHOT_SIZE
  {
    var h := HeaderFields(payload);
    assert Fits(SNAPSHOT_HEADER[4], h[4]) && Fits(SNAPSHOT_HEADER[5], h[5]);
    Snapshot(h[4].n, h[5].n, payload)
  }

  /** `Decoder._validate_snapshot`; None when nothing is raised. */
  function ValidateSnapshot(crc: Checksum, payload: Bytes, checkpoint: nat, sequence: nat): Option<DecodeError>
    requires |payload| == SNAPSHOT_SIZE
  {
    var h := HeaderFields(payload);
    var counts := CountFields(payload);
    assert Fits(COUNTS[1], counts[1]) && Fits(COUNTS[2], counts[2]) && Fits(COUNTS[3], counts[3]);
    if h[0] != Num(CONTRACT_MAGIC) || h[1] != Num(CONTRACT_VERSION) then
      Some(UnsupportedContractVersion)
    else if h[2] != Num(SNAPSHOT_HEADER_SIZE) || h[3] != Num(|payload| - SNAPSHOT_HEADER_SIZE) then
      Some(InvalidContractLength)
    else if h[4] != Num(checkpoint) || h[5] != Num(sequence) then
      Some(IdentityMismatch)
    else if h[6] != Num(crc(payload[SNAPSHOT_HEADER_SIZE..])) then
      Some(ContractCrcMismatch)
    else if counts[1].n > MAX_MAPPINGS || counts[2].n > MAX_CPUS || counts[3].n > MAX_IRQ_ROUTES then
      Some(ContractCountOverflow)
    else
      None
  }

  // ---- Encoder ----

  function FrameValues(crc: Checksum, s: Snapshot): seq<Value> {
    [Raw(FRAME_MAGIC), Num(FRAME_VERSION), Num(FRAME_SIZE), Num(|s.payload|),
     Num(s.checkpoint), Num(s.sequence), Num(crc(s.payload))]
  }

  lemma ClaimedFits(crc: Checksum, payload: Bytes)
    requires |payload| == SNAPSHOT_SIZE
    ensures AllFit(FRAME, FrameValues(crc, Claimed(payload)))
  {
    Widths();
    var h := HeaderFields(payload);
    assert Fits(SNAPSHOT_HEADER[4], h[4]) && Fits(SNAPSHOT_HEADER[5], h[5]);
  }

  function EncodeRecord(crc: Checksum, payload: Bytes): Result<Bytes, DecodeError> {
    if |payload| != SNAPSHOT_SIZE then
      Failure(InvalidPayloadLength)
    else
      var s := Claimed(payload);
      match ValidateSnapshot(crc, payload, s.checkpoint, s.sequence)
      case Some(e) => Failure(e)
      case None =>
        ClaimedFits(crc, payload);
        Success(Pack(FRAME, FrameValues(crc, s)) + payload)
  }

  /** A snapshot filed under the identity its own payload claims. */
  predicate SelfNamed(s: Snapshot) {
    |s.payload| == SNAPSHOT_SIZE && s == Claimed(s.payload)
  }

  /** The concatenation of `encode_record` over a list, raising if any record does. */
  function EncodeAll(crc: Checksum, snapshots: seq<Snapshot>): Result<Bytes, DecodeError> {
    if snapshots == [] then Success([]) else
      match EncodeRecord(crc, snapshots[0].payload)
      case Failure(e) => Failure(e)
      case Success(record) =>
        match EncodeAll(crc, snapshots[1..])
        case Failure(e) => Failure(e)
        case Success(records) => Success(record + records)
  }

  predicate DistinctKeys(snapshots: seq<Snapshot>) {
    forall i, j | 0 <= i < j < |snapshots| :: snapshots[i].Key() != snapshots[j].Key()
  }

  // ---- Decoder, as a function of its state ----

  /** What the front of the buffer allows: nothing yet, an error (having consumed
      the record or not), or one record. */
  datatype Front = Wait | Reject(error: DecodeError, consumed: nat) | Take(snapshot: Snapshot)

  function FrameFields(buffer: Bytes): (r: seq<Value>)
    requires FRAME_SIZE <= |buffer|
    ensures AllFit(FRAME, r)
  {
    LayoutSizes();
    Unpack(FRAME, buffer[..FRAME_SIZE])
  }

  function Inspect(crc: Checksum, buffer: Bytes, seen: set<Key>): (r: Front)
    ensures r.Take? ==> RECORD_SIZE <= |buffer|
    ensures r.Reject? ==> r.consumed <= |buffer|
  {
    if |buffer| < FRAME_SIZE then Wait else
      var f := FrameFields(buffer);
      assert Fits(FRAME[4], f[4]) && Fits(FRAME[5], f[5]);
      if f[0] != Raw(FRAME_MAGIC) then Reject(InvalidFrameMagic, 0)
      else if f[1] != Num(FRAME_VERSION) then Reject(UnsupportedFrameVersion, 0)
      else if f[2] != Num(FRAME_SIZE) then Reject(InvalidFrameHeaderSize, 0)
      else if f[3] != Num(SNAPSHOT_SIZE) then Reject(InvalidPayloadLength, 0)
      else if |buffer| < RECORD_SIZE then Wait
      else
        var s := Snapshot(f[4].n, f[5].n, buffer[FRAME_SIZE..RECORD_SIZE]);
        if f[6] != Num(crc(s.payload)) then Reject(CrcMismatch, RECORD_SIZE)
        else match ValidateSnapshot(crc, s.payload, s.checkpoint, s.sequence)
          case Some(e) => Reject(e, RECORD_SIZE)
          case None => if s.Key() in seen then Reject(DuplicateKey, RECORD_SIZE) else Take(s)
  }

  /** Everything one `feed` does once its data is in the buffer.  `decoded` is what
      the call would return; it is lost when `error` is raised. */
  datatype Outcome = Outcome(decoded: seq<Snapshot>, buffer: Bytes, seen: set<Key>, error: Option<DecodeError>) {
    function After(earlier: seq<Snapshot>): Outcome {
      this.(decoded := earlier + decoded)
    }
  }

  function Drain(crc: Checksum, buffer: Bytes, seen: set<Key>): Outcome
    decreases |buffer|
  {
    match Inspect(crc, buffer, seen)
    case Wait => Outcome([], buffer, seen, None)
    case Reject(e, consumed) => Outcome([], buffer[consumed..], seen, Some(e))
    case Take(s) => Drain(crc, buffer[RECORD_SIZE..], seen + {s.Key()}).After([s])
  }

  class Decoder {
    var buffer: Bytes
    var seen: set<Key>

    constructor ()
      ensures buffer == [] && seen == {}
    {
      buffer, seen := [], {};
    }

    /** `Decoder.feed`: the list of snapshots, or the exception. */
    method Feed(crc: Checksum, data: Bytes) returns (r: Result<seq<Snapshot>, DecodeError>)
      modifies this
      ensures var o := Drain(crc, old(buffer) + data, old(seen));
        && buffer == o.buffer
        && seen == o.seen
        && r == match o.error case None => Success(o.decoded) case Some(e) => Failure(e)
    {
      hide ValidateSnapshot, FrameFields;
      buffer := buffer + data;
      ghost var whole := Drain(crc, buffer, seen);
      var decoded: seq<Snapshot> := [];
      while true
        invariant whole == Drain(crc, buffer, seen).After(decoded)
        decreases |buffer|
      {
        match Inspect(crc, buffer, seen) {
          case Wait =>
            assert decoded + [] == decoded;
            return Success(decoded);
          case Reject(e, consumed) =>
            buffer := buffer[consumed..];
            return Failure(e);
          case Take(s) =>
            buffer := buffer[RECORD_SIZE..];
            seen := seen + {s.Key()};
            decoded := decoded + [s];
        }
      }
    }

    /** `Decoder.finish` */
    method Finish() returns (r: Result<(), DecodeError>)
      ensures r == if buffer == [] then Success(()) else Failure(TrailingBytes)
    {
      if buffer != [] {
        return Failure(TrailingBytes);
      }
      return Success(());
    }
  }

  /** `decode_records`: one decoder, one feed, then `finish`. */
  function Decoded(crc: Checksum, data: Bytes): Result<seq<Snapshot>, DecodeError> {
    var o := Drain(crc, data, {});
    if o.error.Some? then Failure(o.error.value)
    else if o.buffer != [] then Failure(TrailingBytes)
    else Success(o.decoded)
  }

  method DecodeRecords(crc: Checksum, data: Bytes) returns (r: Result<seq<Snapshot>, DecodeError>)
    ensures r == Decoded(crc, data)
  {
    var decoder := new Decoder();
    assert [] + data == data;
    var records := decoder.Feed(crc, data);
    if records.Failure? {
      return records;
    }
    var finished := decoder.Finish();
    if finished.Failure? {
      return Failure(finished.error);
    }
    return records;
  }

  // ---- Chunk-split invariance ----

  /** More bytes behind the buffer never change what its front means. */
  lemma InspectExtended(crc: Checksum, buffer: Bytes, more: Bytes, seen: set<Key>)
    ensures var front := Inspect(crc, buffer, seen);
      !front.Wait? ==> Inspect(crc, buffer + more, seen) == front
  {
    if FRAME_SIZE <= |buffer| {
      assert (buffer + more)[..FRAME_SIZE] == buffer[..FRAME_SIZE];
    }
    if RECORD_SIZE <= |buffer| {
      assert (buffer + more)[FRAME_SIZE..RECORD_SIZE] == buffer[FRAME_SIZE..RECORD_SIZE];
    }
  }

  /** Draining in two goes is draining once; after an error the later bytes are
      simply left behind what remains. */
  lemma {:induction false} DrainExtended(crc: Checksum, buffer: Bytes, more: Bytes, seen: set<Key>)
    ensures var o := Drain(crc, buffer, seen);
      Drain(crc, buffer + more, seen) ==
        if o.error.Some? then o.(buffer := o.buffer + more)
        else Drain(crc, o.buffer + more, o.seen).After(o.decoded)
    decreases |buffer|
  {
    InspectExtended(crc, buffer, more, seen);
    hide Inspect;
    match Inspect(crc, buffer, seen) {
      case Wait =>
        var p := Drain(crc, buffer + more, seen);
        assert [] + p.decoded == p.decoded;
      case Reject(_, consumed) =>
        assert (buffer + more)[consumed..] == buffer[consumed..] + more;
      case Take(s) =>
        var rest, keys := buffer[RECORD_SIZE..], seen + {s.Key()};
        assert (buffer + more)[RECORD_SIZE..] == rest + more;
        DrainExtended(crc, rest, more, keys);
        var o := Drain(crc, rest, keys);
        if o.error.None? {
          var p := Drain(crc, o.buffer + more, o.seen);
          assert [s] + (o.decoded + p.decoded) == ([s] + o.decoded) + p.decoded;
        }
    }
  }

  function Flatten(chunks: seq<Bytes>): Bytes {
    if chunks == [] then [] else chunks[0] + Flatten(chunks[1..])
  }

  /** A caller feeding chunk after chunk until one call raises.  `decoded` holds what
      the calls returned, `unfed` the chunks never offered. */
  datatype Session = Session(decoded: seq<Snapshot>, buffer: Bytes, seen: set<Key>, error: Option<DecodeError>, unfed: seq<Bytes>)

  function FeedAll(crc: Checksum, buffer: Bytes, seen: set<Key>, chunks: seq<Bytes>): Session
    decreases |chunks|
  {
    if chunks == [] then Session([], buffer, seen, None, []) else
      var o := Drain(crc, buffer + chunks[0], seen);
      if o.error.Some? then Session([], o.buffer, o.seen, o.error, chunks[1..]) else
        var later := FeedAll(crc, o.buffer, o.seen, chunks[1..]);
        later.(decoded := o.decoded + later.decoded)
  }

  /** For every decoder state and every split of a stream: the first error, the seen
      set and the residue are those of one call on the whole stream, and so are the
      snapshots when there is no error. */
  lemma {:induction false} SplitInvariance(crc: Checksum, buffer: Bytes, seen: set<Key>, chunks: seq<Bytes>)
    requires chunks != []
    ensures var whole, split := Drain(crc, buffer + Flatten(chunks), seen), FeedAll(crc, buffer, seen, chunks);
      && split.error == whole.error
      && split.seen == whole.seen
      && split.buffer + Flatten(split.unfed) == whole.buffer
      && (whole.error.None? ==> split.decoded == whole.decoded && split.unfed == [])
    decreases |chunks|
  {
    var more := Flatten(chunks[1..]);
    assert buffer + Flatten(chunks) == (buffer + chunks[0]) + more;
    DrainExtended(crc, buffer + chunks[0], more, seen);
    var o := Drain(crc, buffer + chunks[0], seen);
    if o.error.None? {
      if |chunks| == 1 {
        assert o.buffer + more == o.buffer;
        DrainedIsQuiet(crc, buffer + chunks[0], seen);
      } else {
        SplitInvariance(crc, o.buffer, o.seen, chunks[1..]);
      }
    }
  }

  /** A call that did not raise leaves nothing more to decode. */
  lemma {:induction false} DrainedIsQuiet(crc: Checksum, buffer: Bytes, seen: set<Key>)
    requires Drain(crc, buffer, seen).error.None?
    ensures var o := Drain(crc, buffer, seen); Drain(crc, o.buffer, o.seen) == Outcome([], o.buffer, o.seen, None)
    decreases |buffer|
  {
    match Inspect(crc, buffer, seen) {
      case Wait =>
      case Take(s) => DrainedIsQuiet(crc, buffer[RECORD_SIZE..], seen + {s.Key()});
    }
  }

  /** From a new decoder even the empty split agrees. */
  lemma SplitInvarianceFresh(crc: Checksum, chunks: seq<Bytes>)
    ensures var whole, split := Drain(crc, Flatten(chunks), {}), FeedAll(crc, [], {}, chunks);
      && split.error == whole.error
      && split.seen == whole.seen
      && split.buffer + Flatten(split.unfed) == whole.buffer
      && (whole.error.None? ==> split.decoded == whole.decoded && split.unfed == [])
  {
    if chunks != [] {
      assert [] + Flatten(chunks) == Flatten(chunks);
      SplitInvariance(crc, [], {}, chunks);
    }
  }

  // ---- Decoder and encoder are inverse ----

  lemma InspectEncoded(crc: Checksum, s: Snapshot, rest: Bytes, seen: set<Key>)
    requires SelfNamed(s) && EncodeRecord(crc, s.payload).Success? && s.Key() !in seen
    ensures var record := EncodeRecord(crc, s.payload).value;
      |record| == RECORD_SIZE && Inspect(crc, record + rest, seen) == Take(s)
  {
    LayoutSizes();
    ClaimedFits(crc, s.payload);
    var values := FrameValues(crc, s);
    var head := Pack(FRAME, values);
    UnpackPack(FRAME, values);
    var buffer := (head + s.payload) + rest;
    assert buffer[..FRAME_SIZE] == head;
    assert buffer[FRAME_SIZE..RECORD_SIZE] == s.payload;
  }

  lemma InspectTaken(crc: Checksum, buffer: Bytes, seen: set<Key>)
    requires Inspect(crc, buffer, seen).Take?
    ensures var s := Inspect(crc, buffer, seen).snapshot;
      && SelfNamed(s)
      && s.Key() !in seen
      && EncodeRecord(crc, s.payload) == Success(buffer[..RECORD_SIZE])
  {
    LayoutSizes();
    var s := Inspect(crc, buffer, seen).snapshot;
    var f := FrameFields(buffer);
    assert f == FrameValues(crc, s);
    PackUnpack(FRAME, buffer[..FRAME_SIZE]);
    assert buffer[..RECORD_SIZE] == buffer[..FRAME_SIZE] + s.payload;
  }

  function Keys(snapshots: seq<Snapshot>): (r: seq<Key>)
    ensures |r| == |snapshots| && forall i | 0 <= i < |r| :: r[i] == snapshots[i].Key()
  {
    seq(|snapshots|, i requires 0 <= i < |snapshots| => snapshots[i].Key())
  }

  /** No key repeats or was seen before. */
  predicate Fresh(keys: seq<Key>, seen: set<Key>) {
    keys == [] || (keys[0] !in seen && Fresh(keys[1..], seen + {keys[0]}))
  }

  lemma {:induction false} FreshMeans(keys: seq<Key>, seen: set<Key>)
    ensures Fresh(keys, seen) <==>
      (&& (forall i | 0 <= i < |keys| :: keys[i] !in seen)
       && (forall i, j | 0 <= i < j < |keys| :: keys[i] != keys[j]))
  {
    if keys != [] {
      var later := keys[1..];
      FreshMeans(later, seen + {keys[0]});
      assert forall i | 0 < i < |keys| :: keys[i] == later[i - 1];
      assert forall i | 0 <= i < |later| :: later[i] == keys[i + 1];
    }
  }

  predicate Admissible(snapshots: seq<Snapshot>, seen: set<Key>) {
    (forall i | 0 <= i < |snapshots| :: SelfNamed(snapshots[i])) && Fresh(Keys(snapshots), seen)
  }

  lemma AdmissibleStep(snapshots: seq<Snapshot>, seen: set<Key>)
    requires snapshots != []
    ensures Admissible(snapshots, seen) <==>
      (&& SelfNamed(snapshots[0])
       && snapshots[0].Key() !in seen
       && Admissible(snapshots[1..], seen + {snapshots[0].Key()}))
  {
    hide SelfNamed;
    var later := snapshots[1..];
    assert Keys(snapshots)[1..] == Keys(later);
    assert forall i | 0 <= i < |later| :: later[i] == snapshots[i + 1];
    assert forall i | 0 < i < |snapshots| :: snapshots[i] == later[i - 1];
  }

  lemma {:induction false} EncodedDrains(crc: Checksum, data: Bytes, seen: set<Key>, snapshots: seq<Snapshot>)
    requires Admissible(snapshots, seen) && EncodeAll(crc, snapshots) == Success(data)
    ensures var o := Drain(crc, data, seen); o.error.None? && o.buffer == [] && o.decoded == snapshots
    decreases |snapshots|
  {
    if snapshots != [] {
      hide SelfNamed, EncodeRecord, Inspect, Admissible;
      var s, later := snapshots[0], snapshots[1..];
      AdmissibleStep(snapshots, seen);
      var rest := EncodeAll(crc, later).value;
      InspectEncoded(crc, s, rest, seen);
      assert data[RECORD_SIZE..] == rest;
      EncodedDrains(crc, rest, seen + {s.Key()}, later);
      assert [s] + later == snapshots;
    }
  }

  lemma {:induction false} DrainedWasEncoded(crc: Checksum, data: Bytes, seen: set<Key>)
    requires var o := Drain(crc, data, seen); o.error.None? && o.buffer == []
    ensures var snapshots := Drain(crc, data, seen).decoded;
      Admissible(snapshots, seen) && EncodeAll(crc, snapshots) == Success(data)
    decreases |data|
  {
    if data != [] {
      InspectTaken(crc, data, seen);
      hide SelfNamed, EncodeRecord, Inspect;
      var s := Inspect(crc, data, seen).snapshot;
      var rest, keys := data[RECORD_SIZE..], seen + {s.Key()};
      DrainedWasEncoded(crc, rest, keys);
      var later := Drain(crc, rest, keys).decoded;
      assert ([s] + later)[0] == s && ([s] + later)[1..] == later;
      AdmissibleStep([s] + later, seen);
      assert data == data[..RECORD_SIZE] + rest;
    }
  }

  /** The exact language of the decoder: a byte string decodes to a given list precisely
      when it is the concatenated encoding of that list, each snapshot filed under its
      payload's own identity and no identity repeated. */
  lemma DecodeIffEncoded(crc: Checksum, data: Bytes, snapshots: seq<Snapshot>)
    ensures Decoded(crc, data) == Success(snapshots) <==>
      (&& EncodeAll(crc, snapshots) == Success(data)
       && (forall i | 0 <= i < |snapshots| :: SelfNamed(snapshots[i]))
       && DistinctKeys(snapshots))
  {
    FreshMeans(Keys(snapshots), {});
    if Decoded(crc, data) == Success(snapshots) {
      DrainedWasEncoded(crc, data, {});
    } else if Admissible(snapshots, {}) && EncodeAll(crc, snapshots) == Success(data) {
      EncodedDrains(crc, data, {}, snapshots);
    }
  }
}
