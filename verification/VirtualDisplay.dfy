/** Frame assembly of virtual_display.py: chunks arrive with any content and in any
    order, and only complete frames leave. */
module VirtualDisplay {
  import opened Results
  import opened Structs

  const FB_STREAM_MAGIC := 0x31424656
  /** magic, frame id, offset, total size, width, height, stride, payload size */
  const FB_CHUNK: Layout :=
    [Uint(4), Uint(4), Uint(4), Uint(4), Uint(2), Uint(2), Uint(4), Uint(4)]
  const FB_CHUNK_SIZE := 28

  lemma ChunkHeaderSize()
    ensures Size(FB_CHUNK) == FB_CHUNK_SIZE
  {
    SizeSplits(FB_CHUNK, 4);
    assert FB_CHUNK[..4] == [Uint(4), Uint(4), Uint(4), Uint(4)];
    SizeSplits(FB_CHUNK[4..], 2);
    assert FB_CHUNK[4..][..2] == [Uint(2), Uint(2)];
    assert FB_CHUNK[4..][2..] == [Uint(4), Uint(4)];
  }

  /** `VirtualDisplayConfig`; `Valid` is what its constructor enforces. */
  datatype Config = Config(base: nat, width: nat, height: nat, stride: nat) {
    function Size(): nat { stride * height }

    predicate Valid() {
      && 0 < base
      && 0 < width <= 0xFFFF
      && 0 < height <= 0xFFFF
      && width * 4 <= stride
      && Size() <= 0xFFFF_FFFF
      && base + Size() <= 0x1_0000_0000_0000_0000
    }

    lemma Bounds()
      requires Valid()
      ensures 0 < Size() && stride <= Size()
    {
      assert stride * 1 <= stride * height;
    }
  }

  datatype Frame = Frame(id: nat, bytes: Bytes)
  datatype Chunk = Chunk(id: nat, offset: nat, payload: Bytes)

  // ---- One message on the wire ----

  function ChunkValues(cfg: Config, c: Chunk): seq<Value> {
    [Num(FB_STREAM_MAGIC), Num(c.id), Num(c.offset), Num(cfg.Size()),
     Num(cfg.width), Num(cfg.height), Num(cfg.stride), Num(|c.payload|)]
  }

  /** A nonempty piece of a frame of this geometry. */
  predicate Sendable(cfg: Config, c: Chunk) {
    && c.id <= 0xFFFF_FFFF
    && c.payload != []
    && c.offset + |c.payload| <= cfg.Size()
  }

  lemma ChunkFits(cfg: Config, c: Chunk)
    requires cfg.Valid() && Sendable(cfg, c)
    ensures AllFit(FB_CHUNK, ChunkValues(cfg, c))
  {
    Widths();
    cfg.Bounds();
  }

  /** What the guest sends for one piece. */
  function EncodeChunk(cfg: Config, c: Chunk): Bytes
    requires cfg.Valid() && Sendable(cfg, c)
  {
    ChunkFits(cfg, c);
    Pack(FB_CHUNK, ChunkValues(cfg, c)) + c.payload
  }

  /** The header checks of `accept`; None when the message is discarded outright. */
  function ParseChunk(cfg: Config, data: Bytes): Option<Chunk> {
    if |data| < FB_CHUNK_SIZE then None else
      ChunkHeaderSize();
      var h := Unpack(FB_CHUNK, data[..FB_CHUNK_SIZE]);
      assert Fits(FB_CHUNK[1], h[1]) && Fits(FB_CHUNK[2], h[2]) && Fits(FB_CHUNK[3], h[3]) && Fits(FB_CHUNK[7], h[7]);
      var payload := data[FB_CHUNK_SIZE..];
      if || h[0] != Num(FB_STREAM_MAGIC)
         || h[7] != Num(|payload|)
         || h[7] == Num(0)
         || h[3] != Num(cfg.Size()) || h[4] != Num(cfg.width) || h[5] != Num(cfg.height) || h[6] != Num(cfg.stride)
         || h[2].n > h[3].n
         || h[7].n > h[3].n - h[2].n
      then None
      else Some(Chunk(h[1].n, h[2].n, payload))
  }

  /** A message survives the header checks exactly when it is the encoding of a piece of
      a frame of the configured geometry. */
  lemma ParseIffEncoded(cfg: Config, data: Bytes, c: Chunk)
    requires cfg.Valid()
    ensures ParseChunk(cfg, data) == Some(c) <==> Sendable(cfg, c) && data == EncodeChunk(cfg, c)
  {
    ChunkHeaderSize();
    Widths();
    if ParseChunk(cfg, data) == Some(c) {
      var h := Unpack(FB_CHUNK, data[..FB_CHUNK_SIZE]);
      assert Fits(FB_CHUNK[1], h[1]);
      assert h == ChunkValues(cfg, c);
      PackUnpack(FB_CHUNK, data[..FB_CHUNK_SIZE]);
      assert data == data[..FB_CHUNK_SIZE] + c.payload;
    }
    if Sendable(cfg, c) && data == EncodeChunk(cfg, c) {
      ChunkFits(cfg, c);
      UnpackPack(FB_CHUNK, ChunkValues(cfg, c));
      assert data[..FB_CHUNK_SIZE] == Pack(FB_CHUNK, ChunkValues(cfg, c));
      assert data[FB_CHUNK_SIZE..] == c.payload;
    }
  }

  // ---- `accept` as a function of what has been assembled ----

  datatype Assembly = Idle | Partial(id: nat, bytes: Bytes)

  predicate Open(cfg: Config, a: Assembly) {
    a.Partial? ==> 0 < |a.bytes| < cfg.Size()
  }

  /** One call: the new assembly, the frame it completed, whether it was discarded. */
  datatype Accepted = Accepted(assembly: Assembly, frame: Option<Frame>, discarded: bool)

  const DISCARD := Accepted(Idle, None, true)

  function Extend(cfg: Config, id: nat, bytes: Bytes): Accepted {
    if |bytes| == cfg.Size() then Accepted(Idle, Some(Frame(id, bytes)), false)
    else Accepted(Partial(id, bytes), None, false)
  }

  function AcceptChunk(cfg: Config, a: Assembly, data: Bytes): Accepted {
    match ParseChunk(cfg, data)
    case None => DISCARD
    case Some(c) =>
      if c.offset == 0 then
        if a.Partial? && a.id == c.id then DISCARD else Extend(cfg, c.id, c.payload)
      else if a.Idle? || c.id != a.id || c.offset != |a.bytes| then DISCARD
      else Extend(cfg, c.id, a.bytes + c.payload)
  }

  class FrameReceiver {
    const config: Config
    const buffer: array<byte>
    var frameId: Option<nat>
    var offset: nat
    var discardedChunks: nat
    /** Frames handed to `_submit_publish`, oldest first. */
    var submitted: seq<Frame>

    ghost predicate Valid()
      reads this
    {
      && config.Valid()
      && buffer.Length == config.Size()
      && offset < config.Size()
      && (frameId.None? <==> offset == 0)
    }

    ghost function Current(): (a: Assembly)
      reads this, buffer
      requires Valid()
      ensures Open(config, a)
    {
      if frameId.None? then Idle else Partial(frameId.value, buffer[..offset])
    }

    constructor (cfg: Config)
      requires cfg.Valid()
      ensures Valid() && fresh(buffer) && config == cfg
      ensures Current() == Idle && submitted == [] && discardedChunks == 0
    {
      cfg.Bounds();
      config := cfg;
      buffer := new byte[cfg.Size()](_ => 0);
      frameId, offset, discardedChunks, submitted := None, 0, 0, [];
    }

    method Discard()
      requires Valid()
      modifies this
      ensures Valid() && Current() == Idle && submitted == old(submitted)
      ensures discardedChunks == old(discardedChunks) + 1
    {
      config.Bounds();
      frameId, offset := None, 0;
      discardedChunks := discardedChunks + 1;
    }

    /** `self._buffer[at:at + len(payload)] = payload` */
    method Store(at: nat, payload: Bytes)
      requires at + |payload| <= buffer.Length
      modifies buffer
      ensures buffer[..at + |payload|] == old(buffer[..at]) + payload
    {
      forall i | 0 <= i < |payload| {
        buffer[at + i] := payload[i];
      }
    }

    /** `accept`, writing into the one reused buffer. */
    method Accept(data: Bytes) returns (r: bool)
      requires Valid()
      modifies this, buffer
      ensures Valid()
      ensures var s := AcceptChunk(config, old(Current()), data);
        && Current() == s.assembly
        && r == s.frame.Some?
        && submitted == old(submitted) + (if s.frame.Some? then [s.frame.value] else [])
        && discardedChunks == old(discardedChunks) + (if s.discarded then 1 else 0)
    {
      hide ParseChunk, EncodeChunk;
      config.Bounds();
      var parsed := ParseChunk(config, data);
      if parsed.None? {
        Discard();
        return false;
      }
      ParseIffEncoded(config, data, parsed.value);
      var Chunk(id, at, payload) := parsed.value;
      if at == 0 {
        if frameId == Some(id) && offset != 0 {
          Discard();
          return false;
        }
        frameId, offset := Some(id), 0;
      } else if frameId.None? {
        Discard();
        return false;
      }
      if frameId != Some(id) || at != offset {
        Discard();
        return false;
      }
      Store(at, payload);
      assert at == 0 ==> old(buffer[..at]) + payload == payload;
      offset := offset + |payload|;
      if offset != config.Size() {
        return false;
      }
      assert buffer[..] == buffer[..offset];
      submitted := submitted + [Frame(id, buffer[..])];
      frameId, offset := None, 0;
      return true;
    }
  }

  // ---- Runs of calls ----

  /** The assembly after a history of calls on a new receiver. */
  function After(cfg: Config, start: Assembly, calls: seq<Bytes>): Assembly {
    if calls == [] then start else
      AcceptChunk(cfg, After(cfg, start, calls[..|calls| - 1]), calls[|calls| - 1]).assembly
  }

  lemma AfterNext(cfg: Config, start: Assembly, calls: seq<Bytes>, data: Bytes)
    ensures After(cfg, start, calls + [data]) == AcceptChunk(cfg, After(cfg, start, calls), data).assembly
  {
    hide AcceptChunk;
    assert (calls + [data])[..|calls|] == calls;
  }

  /** The frame completed by the call with index `i`, if it completed one. */
  function CompletedBy(cfg: Config, start: Assembly, calls: seq<Bytes>, i: nat): Option<Frame>
    requires i < |calls|
  {
    AcceptChunk(cfg, After(cfg, start, calls[..i]), calls[i]).frame
  }

  function Flatten(parts: seq<Bytes>): Bytes {
    if parts == [] then [] else Flatten(parts[..|parts| - 1]) + parts[|parts| - 1]
  }

  /** `parts` are nonempty and stay inside one frame. */
  predicate Divides(cfg: Config, id: nat, parts: seq<Bytes>) {
    && id <= 0xFFFF_FFFF
    && |Flatten(parts)| <= cfg.Size()
    && forall i | 0 <= i < |parts| :: parts[i] != []
  }

  lemma DividesInit(cfg: Config, id: nat, parts: seq<Bytes>)
    requires Divides(cfg, id, parts) && parts != []
    ensures var init, last := parts[..|parts| - 1], parts[|parts| - 1];
      Divides(cfg, id, init) && Sendable(cfg, Chunk(id, |Flatten(init)|, last))
  {
    assert |Flatten(parts)| == |Flatten(parts[..|parts| - 1])| + |parts[|parts| - 1]|;
  }

  /** The messages that carry `parts` of frame `id` in order from offset 0. */
  function Sent(cfg: Config, id: nat, parts: seq<Bytes>): (r: seq<Bytes>)
    requires cfg.Valid() && Divides(cfg, id, parts)
    ensures |r| == |parts|
  {
    if parts == [] then [] else
      DividesInit(cfg, id, parts);
      var init, last := parts[..|parts| - 1], parts[|parts| - 1];
      Sent(cfg, id, init) + [EncodeChunk(cfg, Chunk(id, |Flatten(init)|, last))]
  }

  /** `calls` ends with an in-order transmission of `bytes` as frame `id`. */
  ghost predicate EndsWithTransmission(cfg: Config, calls: seq<Bytes>, id: nat, bytes: Bytes) {
    cfg.Valid() && exists parts | Divides(cfg, id, parts) && 0 < |parts| <= |calls| ::
      && Flatten(parts) == bytes
      && calls[|calls| - |parts|..] == Sent(cfg, id, parts)
  }

  lemma {:induction false} OpenAfter(cfg: Config, calls: seq<Bytes>)
    requires cfg.Valid()
    ensures Open(cfg, After(cfg, Idle, calls))
  {
    if calls != [] {
      hide ParseChunk, EncodeChunk;
      var init, last := calls[..|calls| - 1], calls[|calls| - 1];
      OpenAfter(cfg, init);
      var parsed := ParseChunk(cfg, last);
      if parsed.Some? {
        ParseIffEncoded(cfg, last, parsed.value);
      }
    }
  }

  /** One more in-order piece extends a transmission. */
  lemma TransmissionGrows(cfg: Config, calls: seq<Bytes>, parts: seq<Bytes>, id: nat, data: Bytes, piece: Bytes)
    requires cfg.Valid() && Divides(cfg, id, parts) && |parts| <= |calls|
    requires calls[|calls| - |parts|..] == Sent(cfg, id, parts)
    requires var c := Chunk(id, |Flatten(parts)|, piece); Sendable(cfg, c) && data == EncodeChunk(cfg, c)
    ensures EndsWithTransmission(cfg, calls + [data], id, Flatten(parts) + piece)
  {
    hide EncodeChunk;
    var grown, history := parts + [piece], calls + [data];
    assert grown[..|grown| - 1] == parts;
    assert Flatten(grown) == Flatten(parts) + piece;
    assert Divides(cfg, id, grown);
    assert Sent(cfg, id, grown) == Sent(cfg, id, parts) + [data];
    assert history[|history| - |grown|..] == calls[|calls| - |parts|..] + [data];
  }

  lemma {:induction false} PartialWasTransmitted(cfg: Config, calls: seq<Bytes>)
    requires cfg.Valid()
    ensures var a := After(cfg, Idle, calls);
      a.Partial? ==> EndsWithTransmission(cfg, calls, a.id, a.bytes)
    decreases |calls|, 0
  {
    if calls != [] {
      hide ParseChunk, EncodeChunk, EndsWithTransmission;
      var init, last := calls[..|calls| - 1], calls[|calls| - 1];
      assert calls == init + [last];
      if After(cfg, Idle, calls).Partial? {
        ExtendedWasTransmitted(cfg, init, last);
      }
    }
  }

  lemma {:induction false} ExtendedWasTransmitted(cfg: Config, calls: seq<Bytes>, data: Bytes)
    requires cfg.Valid()
    requires !AcceptChunk(cfg, After(cfg, Idle, calls), data).discarded
    ensures var s := AcceptChunk(cfg, After(cfg, Idle, calls), data);
      && (s.assembly.Partial? ==> EndsWithTransmission(cfg, calls + [data], s.assembly.id, s.assembly.bytes))
      && (s.frame.Some? ==> EndsWithTransmission(cfg, calls + [data], s.frame.value.id, s.frame.value.bytes))
    decreases |calls|, 1
  {
    hide ParseChunk, EncodeChunk;
    var c := ParseChunk(cfg, data).value;
    ParseIffEncoded(cfg, data, c);
    var a := After(cfg, Idle, calls);
    if c.offset == 0 {
      assert calls[|calls|..] == [];
      TransmissionGrows(cfg, calls, [], c.id, data, c.payload);
      assert [] + c.payload == c.payload;
    } else {
      PartialWasTransmitted(cfg, calls);
      var parts :| Divides(cfg, a.id, parts) && 0 < |parts| <= |calls|
        && Flatten(parts) == a.bytes && calls[|calls| - |parts|..] == Sent(cfg, a.id, parts);
      TransmissionGrows(cfg, calls, parts, c.id, data, c.payload);
    }
  }

  /** Soundness: a frame that leaves the receiver is, byte for byte, the concatenated
      payloads of the calls immediately before, all of one frame id and of the
      configured geometry, in order from offset 0 to the end. */
  lemma CompletedWasTransmitted(cfg: Config, calls: seq<Bytes>, i: nat)
    requires cfg.Valid() && i < |calls| && CompletedBy(cfg, Idle, calls, i).Some?
    ensures var f := CompletedBy(cfg, Idle, calls, i).value;
      |f.bytes| == cfg.Size() && EndsWithTransmission(cfg, calls[..i + 1], f.id, f.bytes)
  {
    hide ParseChunk, EncodeChunk, EndsWithTransmission;
    assert calls[..i] + [calls[i]] == calls[..i + 1];
    ExtendedWasTransmitted(cfg, calls[..i], calls[i]);
  }

  /** In-order pieces of a new frame are accepted one after the other. */
  lemma {:induction false} PiecesAssemble(cfg: Config, start: Assembly, id: nat, parts: seq<Bytes>)
    requires cfg.Valid() && Open(cfg, start) && Divides(cfg, id, parts) && parts != []
    requires !(start.Partial? && start.id == id)
    requires |Flatten(parts)| < cfg.Size()
    ensures After(cfg, start, Sent(cfg, id, parts)) == Partial(id, Flatten(parts))
    decreases |parts|
  {
    hide ParseChunk, EncodeChunk;
    PieceAccepted(cfg, start, id, parts);
    var sent := Sent(cfg, id, parts);
    assert sent[..|sent| - 1] == Sent(cfg, id, parts[..|parts| - 1]);
  }

  lemma {:induction false} PieceAccepted(cfg: Config, start: Assembly, id: nat, parts: seq<Bytes>)
    requires cfg.Valid() && Open(cfg, start) && Divides(cfg, id, parts) && parts != []
    requires !(start.Partial? && start.id == id)
    ensures var sent := Sent(cfg, id, parts);
      AcceptChunk(cfg, After(cfg, start, sent[..|sent| - 1]), sent[|sent| - 1]) == Extend(cfg, id, Flatten(parts))
    decreases |parts|, 0
  {
    hide ParseChunk, EncodeChunk;
    DividesInit(cfg, id, parts);
    var init, last := parts[..|parts| - 1], parts[|parts| - 1];
    var sent := Sent(cfg, id, parts);
    assert sent[..|sent| - 1] == Sent(cfg, id, init);
    var c := Chunk(id, |Flatten(init)|, last);
    ParseIffEncoded(cfg, EncodeChunk(cfg, c), c);
    if init == [] {
      assert [] + last == last;
    } else {
      PiecesAssemble(cfg, start, id, init);
      assert 0 < |init[|init| - 1]| <= |Flatten(init)|;
    }
  }

  /** Completeness: whatever was going on before (short of the middle of a frame with the
      same id), sending a whole frame in any nonempty in-order pieces makes every call
      but the last return false and the last one submit exactly that frame. */
  lemma TransmittedCompletes(cfg: Config, start: Assembly, id: nat, parts: seq<Bytes>)
    requires cfg.Valid() && Open(cfg, start) && Divides(cfg, id, parts)
    requires !(start.Partial? && start.id == id)
    requires |Flatten(parts)| == cfg.Size()
    ensures var sent := Sent(cfg, id, parts);
      && (forall i | 0 <= i < |sent| ::
            CompletedBy(cfg, start, sent, i) == if i == |sent| - 1 then Some(Frame(id, Flatten(parts))) else None)
      && After(cfg, start, sent) == Idle
  {
    hide ParseChunk, EncodeChunk;
    cfg.Bounds();
    var sent := Sent(cfg, id, parts);
    forall i | 0 <= i < |sent|
      ensures CompletedBy(cfg, start, sent, i) == if i == |sent| - 1 then Some(Frame(id, Flatten(parts))) else None
    {
      SentPrefix(cfg, id, parts, i + 1);
      var prefix := parts[..i + 1];
      PieceAccepted(cfg, start, id, prefix);
      assert sent[..i + 1][..i] == sent[..i];
      assert i == |sent| - 1 ==> prefix == parts;
    }
    assert CompletedBy(cfg, start, sent, |sent| - 1).Some?;
  }

  /** A prefix of the pieces is shorter than the frame and sent by a prefix of the calls. */
  lemma {:induction false} SentPrefix(cfg: Config, id: nat, parts: seq<Bytes>, n: nat)
    requires cfg.Valid() && Divides(cfg, id, parts) && n <= |parts|
    ensures Divides(cfg, id, parts[..n]) && Sent(cfg, id, parts[..n]) == Sent(cfg, id, parts)[..n]
    ensures n < |parts| ==> |Flatten(parts[..n])| < |Flatten(parts)|
    decreases |parts|
  {
    hide EncodeChunk;
    if n == |parts| {
      assert parts[..n] == parts;
    } else {
      DividesInit(cfg, id, parts);
      var init := parts[..|parts| - 1];
      SentPrefix(cfg, id, init, n);
      assert init[..n] == parts[..n];
      assert 0 < |parts[|parts| - 1]|;
    }
  }

  /** The receiver never holds a stale id: between calls it is idle or strictly inside
      one frame, from any reachable state. */
  lemma ReceiverStaysOpen(cfg: Config, calls: seq<Bytes>)
    requires cfg.Valid()
    ensures var a := After(cfg, Idle, calls);
      a.Partial? ==> 0 < |a.bytes| < cfg.Size() && EndsWithTransmission(cfg, calls, a.id, a.bytes)
  {
    OpenAfter(cfg, calls);
    PartialWasTransmitted(cfg, calls);
  }
}
