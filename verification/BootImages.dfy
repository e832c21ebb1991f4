/** The boot containers of standalone_image.py and bootstrap_image.py, which share one
    shape, and their nesting in tools/pack_boot.py.  xz and CRC32 are parameters. */
module BootImages {
  import opened Results
  import opened Structs

  const ALIGNMENT := 0x4000
  const HEADER_SIZE := 64
  const FORMAT_VERSION := 1
  const MAGIC_SIZE := 8

  datatype Codec = Codec(compress: Bytes -> Bytes, decompress: Bytes -> Option<Bytes>, crc: Bytes -> u32)

  /** Decompression undoes compression, and xz never produces an empty stream. */
  ghost predicate Lossless(c: Codec) {
    forall data: Bytes :: c.decompress(c.compress(data)) == Some(data) && c.compress(data) != []
  }

  /** The two formats differ in the magic, in whether a layout version is stored, and in
      the width of the reserved tail. */
  datatype Format = Format(magic: Bytes, layoutVersion: Option<nat>, tail: nat)

  /** "ASIWINGU" */
  const IMAGE := Format([0x41, 0x53, 0x49, 0x57, 0x49, 0x4E, 0x47, 0x55], Some(1), 8)

  /** "ASIBOOT0" */
  const BOOTSTRAP := Format([0x41, 0x53, 0x49, 0x42, 0x4F, 0x4F, 0x54, 0x30], None, 12)

  predicate Known(f: Format) {
    f == IMAGE || f == BOOTSTRAP
  }

  datatype ImageError =
    | EmptyPrefix
    | PrefixUnaligned
    | EmptyPayload
    | UnsupportedLayout
    | UnsupportedFlags
    | FieldOverflow
    | NotFound
    | Multiple
    | Truncated
    | InvalidMagic
    | UnsupportedVersion
    | InvalidHeaderSize
    | NonzeroReserved
    | PayloadUnaligned
    | PayloadSizeZero
    | BoundsMismatch
    | PaddingNotZero
    | DecompressionFailed
    | SizeMismatch
    | CrcMismatch

  // ---- Headers ----

  datatype Header = Header(
    magic: Bytes,
    version: nat,
    headerSize: nat,
    flags: nat,
    layoutVersion: Option<nat>,
    reserved: nat,
    payloadOffset: nat,
    compressedSize: nat,
    uncompressedSize: nat,
    crc32: nat,
    reserved2: nat,
    tail: Bytes
  )

  const FRONT: Layout := [Chars(MAGIC_SIZE), Uint(2), Uint(2), Uint(4)]
  const BACK: Layout := [Uint(8), Uint(8), Uint(8), Uint(4), Uint(4)]

  function HeaderLayout(f: Format): Layout {
    FRONT + (if f.layoutVersion.Some? then [Uint(4)] else []) + [Uint(4)] + BACK + [Chars(f.tail)]
  }

  function HeaderValues(h: Header): seq<Value> {
    [Raw(h.magic), Num(h.version), Num(h.headerSize), Num(h.flags)]
      + (if h.layoutVersion.Some? then [Num(h.layoutVersion.value)] else [])
      + [Num(h.reserved)]
      + [Num(h.payloadOffset), Num(h.compressedSize), Num(h.uncompressedSize), Num(h.crc32), Num(h.reserved2)]
      + [Raw(h.tail)]
  }

  /** The values a header of this format can store. */
  predicate HeaderFits(f: Format, h: Header) {
    && |h.magic| == MAGIC_SIZE && |h.tail| == f.tail
    && h.version < 0x1_0000 && h.headerSize < 0x1_0000
    && h.flags < 0x1_0000_0000 && h.reserved < 0x1_0000_0000 && h.reserved2 < 0x1_0000_0000 && h.crc32 < 0x1_0000_0000
    && (h.layoutVersion.Some? <==> f.layoutVersion.Some?)
    && (h.layoutVersion.Some? ==> h.layoutVersion.value < 0x1_0000_0000)
    && h.payloadOffset < 0x1_0000_0000_0000_0000
    && h.compressedSize < 0x1_0000_0000_0000_0000
    && h.uncompressedSize < 0x1_0000_0000_0000_0000
  }

  lemma FixedSizes()
    ensures Size(FRONT) == 16 && Size(BACK) == 32
  {
    SizeSplits(FRONT, 2);
    assert FRONT[..2] == [Chars(MAGIC_SIZE), Uint(2)] && FRONT[2..] == [Uint(2), Uint(4)];
    SizeSplits(BACK, 2);
    SizeSplits(BACK[2..], 1);
    assert BACK[..2] == [Uint(8), Uint(8)] && BACK[2..][..1] == [Uint(8)] && BACK[2..][1..] == [Uint(4), Uint(4)];
  }

  lemma HeaderLayoutSize(f: Format)
    requires Known(f)
    ensures Size(HeaderLayout(f)) == HEADER_SIZE
  {
    hide Size;
    var version := if f.layoutVersion.Some? then [Uint(4)] else [];
    FixedSizes();
    SizeOfOne(Uint(4));
    SizeOfOne(Chars(f.tail));
    SizeJoins(FRONT, version);
    SizeJoins(FRONT + version, [Uint(4)]);
    SizeJoins(FRONT + version + [Uint(4)], BACK);
    SizeJoins(FRONT + version + [Uint(4)] + BACK, [Chars(f.tail)]);
  }

  lemma SizeOfOne(field: Field)
    ensures Size([]) == 0 && Size([field]) == field.width
  {
  }

  lemma SizeJoins(a: Layout, b: Layout)
    ensures Size(a + b) == Size(a) + Size(b)
  {
    SizeSplits(a + b, |a|);
    assert (a + b)[..|a|] == a && (a + b)[|a|..] == b;
  }

  lemma HeaderValuesFit(f: Format, h: Header)
    requires Known(f)
    ensures HeaderFits(f, h) <==> AllFit(HeaderLayout(f), HeaderValues(h)) && (h.layoutVersion.Some? <==> f.layoutVersion.Some?)
  {
    Widths();
    var layout, values := HeaderLayout(f), HeaderValues(h);
    if AllFit(layout, values) && (h.layoutVersion.Some? <==> f.layoutVersion.Some?) {
      assert Fits(layout[0], values[0]) && Fits(layout[1], values[1]) && Fits(layout[2], values[2]);
      assert Fits(layout[3], values[3]) && Fits(layout[4], values[4]) && Fits(layout[5], values[5]);
      assert Fits(layout[6], values[6]) && Fits(layout[7], values[7]) && Fits(layout[8], values[8]);
      assert Fits(layout[9], values[9]) && Fits(layout[10], values[10]);
      assert Fits(layout[|layout| - 1], values[|layout| - 1]);
    }
  }

  function HeaderBytes(f: Format, h: Header): (r: Bytes)
    requires Known(f) && HeaderFits(f, h)
    ensures |r| == HEADER_SIZE
  {
    HeaderLayoutSize(f);
    HeaderValuesFit(f, h);
    Pack(HeaderLayout(f), HeaderValues(h))
  }

  /** The header whose values these are. */
  function FromValues(f: Format, v: seq<Value>): (h: Header)
    requires Known(f) && AllFit(HeaderLayout(f), v)
    ensures HeaderValues(h) == v && (h.layoutVersion.Some? <==> f.layoutVersion.Some?)
  {
    var layout := HeaderLayout(f);
    assert Fits(layout[0], v[0]) && Fits(layout[1], v[1]) && Fits(layout[2], v[2]) && Fits(layout[3], v[3]);
    assert Fits(layout[4], v[4]) && Fits(layout[5], v[5]) && Fits(layout[6], v[6]) && Fits(layout[7], v[7]);
    assert Fits(layout[8], v[8]) && Fits(layout[9], v[9]) && Fits(layout[10], v[10]);
    assert Fits(layout[|layout| - 1], v[|layout| - 1]);
    if f.layoutVersion.Some? then
      Header(v[0].bytes, v[1].n, v[2].n, v[3].n, Some(v[4].n), v[5].n, v[6].n, v[7].n, v[8].n, v[9].n, v[10].n, v[11].bytes)
    else
      Header(v[0].bytes, v[1].n, v[2].n, v[3].n, None, v[4].n, v[5].n, v[6].n, v[7].n, v[8].n, v[9].n, v[10].bytes)
  }

  function ReadHeader(f: Format, data: Bytes): (h: Header)
    requires Known(f) && |data| == HEADER_SIZE
    ensures HeaderFits(f, h) && HeaderBytes(f, h) == data
  {
    HeaderLayoutSize(f);
    PackUnpack(HeaderLayout(f), data);
    var h := FromValues(f, Unpack(HeaderLayout(f), data));
    HeaderValuesFit(f, h);
    h
  }

  lemma HeaderValuesInjective(g: Header, h: Header)
    requires g.layoutVersion.Some? <==> h.layoutVersion.Some?
    requires HeaderValues(g) == HeaderValues(h)
    ensures g == h
  {
    var a, b := HeaderValues(g), HeaderValues(h);
    assert a[0] == b[0] && a[1] == b[1] && a[2] == b[2] && a[3] == b[3] && a[4] == b[4] && a[5] == b[5];
    assert a[6] == b[6] && a[7] == b[7] && a[8] == b[8] && a[9] == b[9] && a[10] == b[10] && a[|a| - 1] == b[|a| - 1];
  }

  /** A stored header reads back. */
  lemma ReadHeaderBytes(f: Format, h: Header)
    requires Known(f) && HeaderFits(f, h)
    ensures ReadHeader(f, HeaderBytes(f, h)) == h
  {
    hide HeaderValues, HeaderLayout, AllFit, Pack, Unpack, ReadHeader;
    HeaderValuesFit(f, h);
    var g := ReadHeader(f, HeaderBytes(f, h));
    HeaderValuesFit(f, g);
    UnpackPack(HeaderLayout(f), HeaderValues(h));
    UnpackPack(HeaderLayout(f), HeaderValues(g));
    HeaderValuesInjective(g, h);
  }

  // ---- Finding the header ----

  /** The magic stands at this 16 KiB-aligned offset. */
  predicate Occurs(f: Format, image: Bytes, offset: nat) {
    offset % ALIGNMENT == 0 && offset + |f.magic| <= |image| && image[offset..offset + |f.magic|] == f.magic
  }

  /** `_manifest_offsets`, from an aligned offset on: exactly the occurrences, ascending. */
  function Offsets(f: Format, image: Bytes, from: nat): (r: seq<nat>)
    requires from % ALIGNMENT == 0
    ensures forall o :: o in r <==> Occurs(f, image, o) && from <= o
    ensures forall i, j | 0 <= i < j < |r| :: r[i] < r[j]
    decreases |image| - from
  {
    if |image| < from + |f.magic| then [] else
      var rest := Offsets(f, image, from + ALIGNMENT);
      assert forall o :: Occurs(f, image, o) && from < o ==> from + ALIGNMENT <= o;
      assert forall i :: 0 <= i < |rest| ==> rest[i] in rest;
      if image[from..from + |f.magic|] == f.magic then [from] + rest else rest
  }

  // ---- Parsing ----

  datatype Manifest = Manifest(
    offset: nat,
    version: nat,
    headerSize: nat,
    flags: nat,
    layoutVersion: Option<nat>,
    payloadOffset: nat,
    compressedSize: nat,
    uncompressedSize: nat,
    crc32: nat
  )

  /** `profile_from_manifest_flags` accepts: any display bits, one known debug mode. */
  predicate ValidFlags(flags: nat) {
    flags <= 0x1F && (flags / 4 == 0 || flags / 4 == 1 || flags / 4 == 2 || flags / 4 == 4)
  }

  /** `parse_image` and `parse_bootstrap`, check by check. */
  function Parse(f: Format, codec: Codec, image: Bytes): Result<(Manifest, Bytes), ImageError>
    requires Known(f)
  {
    var offsets := Offsets(f, image, 0);
    if offsets == [] then Failure(NotFound)
    else if |offsets| != 1 then Failure(Multiple)
    else
      var at := offsets[0];
      assert Occurs(f, image, at);
      if |image| - at < HEADER_SIZE then Failure(Truncated)
      else ParseAt(f, codec, image, at)
  }

  function ParseAt(f: Format, codec: Codec, image: Bytes, at: nat): Result<(Manifest, Bytes), ImageError>
    requires Known(f) && at + HEADER_SIZE <= |image|
  {
    var h := ReadHeader(f, image[at..at + HEADER_SIZE]);
    var start := at + h.payloadOffset;
    var end := start + h.compressedSize;
    if h.magic != f.magic then Failure(InvalidMagic)
    else if h.version != FORMAT_VERSION then Failure(UnsupportedVersion)
    else if h.headerSize != HEADER_SIZE then Failure(InvalidHeaderSize)
    else if !ValidFlags(h.flags) then Failure(UnsupportedFlags)
    else if h.reserved != 0 || h.reserved2 != 0 || h.tail != Zeros(f.tail) then Failure(NonzeroReserved)
    else if h.layoutVersion != f.layoutVersion then Failure(UnsupportedLayout)
    else if h.payloadOffset < h.headerSize || h.payloadOffset % ALIGNMENT != 0 then Failure(PayloadUnaligned)
    else if h.compressedSize == 0 || h.uncompressedSize == 0 then Failure(PayloadSizeZero)
    else if start > |image| || end != |image| then Failure(BoundsMismatch)
    else if image[at + h.headerSize..start] != Zeros(start - (at + h.headerSize)) then Failure(PaddingNotZero)
    else match codec.decompress(image[start..end])
      case None => Failure(DecompressionFailed)
      case Some(data) =>
        if |data| != h.uncompressedSize then Failure(SizeMismatch)
        else if codec.crc(data) != h.crc32 then Failure(CrcMismatch)
        else Success((Manifest(at, h.version, h.headerSize, h.flags, h.layoutVersion, h.payloadOffset,
                               h.compressedSize, h.uncompressedSize, h.crc32), data))
  }

  /** The only header that can stand for a manifest. */
  function HeaderOf(f: Format, m: Manifest): Header {
    Header(f.magic, m.version, m.headerSize, m.flags, m.layoutVersion, 0, m.payloadOffset,
           m.compressedSize, m.uncompressedSize, m.crc32, 0, Zeros(f.tail))
  }

  /** An image laid out for a manifest and a payload: any prefix, the 64-byte header, zero
      padding, and a compressed payload that reaches the end. */
  predicate LaidOut(f: Format, codec: Codec, image: Bytes, m: Manifest, data: Bytes) {
    && Known(f)
    && m.version == FORMAT_VERSION && m.headerSize == HEADER_SIZE && ValidFlags(m.flags)
    && m.layoutVersion == f.layoutVersion
    && m.payloadOffset % ALIGNMENT == 0 && HEADER_SIZE <= m.payloadOffset
    && 0 < m.compressedSize && 0 < m.uncompressedSize
    && HeaderFits(f, HeaderOf(f, m))
    && m.offset + m.payloadOffset + m.compressedSize == |image|
    && image[m.offset..] ==
         (HeaderBytes(f, HeaderOf(f, m)) + Zeros(m.payloadOffset - HEADER_SIZE)) + image[m.offset + m.payloadOffset..]
    && codec.decompress(image[m.offset + m.payloadOffset..]) == Some(data)
    && |data| == m.uncompressedSize
    && codec.crc(data) == m.crc32
  }

  lemma ParseAtSound(f: Format, codec: Codec, image: Bytes, at: nat)
    requires Known(f) && at + HEADER_SIZE <= |image| && ParseAt(f, codec, image, at).Success?
    ensures var (m, data) := ParseAt(f, codec, image, at).value;
      m.offset == at && LaidOut(f, codec, image, m, data)
  {
    hide HeaderBytes, ReadHeader;
    var h := ReadHeader(f, image[at..at + HEADER_SIZE]);
    var m := ParseAt(f, codec, image, at).value.0;
    assert HeaderOf(f, m) == h;
    var start := at + h.payloadOffset;
    assert image[start..] == image[start..start + h.compressedSize];
    assert image[at..] == (image[at..at + HEADER_SIZE] + image[at + HEADER_SIZE..start]) + image[start..];
  }

  lemma ParseAtComplete(f: Format, codec: Codec, image: Bytes, m: Manifest, data: Bytes)
    requires LaidOut(f, codec, image, m, data)
    ensures ParseAt(f, codec, image, m.offset) == Success((m, data))
  {
    hide HeaderBytes, ReadHeader;
    var h := HeaderOf(f, m);
    ReadHeaderBytes(f, h);
    var at, start := m.offset, m.offset + m.payloadOffset;
    var tail := image[at..];
    assert tail[..HEADER_SIZE] == HeaderBytes(f, h);
    assert image[at..at + HEADER_SIZE] == tail[..HEADER_SIZE];
    assert image[at + HEADER_SIZE..start] == tail[HEADER_SIZE..m.payloadOffset];
    assert tail[HEADER_SIZE..m.payloadOffset] == Zeros(m.payloadOffset - HEADER_SIZE);
    assert image[start..] == image[start..start + m.compressedSize];
  }

  /** The exact language of the parsers: an image is accepted with a given result precisely
      when it is laid out for it and the magic stands at that aligned offset and at no
      other. */
  lemma ParseIffLaidOut(f: Format, codec: Codec, image: Bytes, m: Manifest, data: Bytes)
    requires Known(f)
    ensures Parse(f, codec, image) == Success((m, data)) <==>
      (&& LaidOut(f, codec, image, m, data)
       && (forall o :: Occurs(f, image, o) <==> o == m.offset))
  {
    hide ParseAt, LaidOut, HeaderBytes;
    var offsets := Offsets(f, image, 0);
    if Parse(f, codec, image) == Success((m, data)) {
      ParseAtSound(f, codec, image, offsets[0]);
      OneOffset(f, image, m.offset);
    }
    if LaidOut(f, codec, image, m, data) && (forall o :: Occurs(f, image, o) <==> o == m.offset) {
      OneOffset(f, image, m.offset);
      ParseAtComplete(f, codec, image, m, data);
      LaidOutSize(f, codec, image, m, data);
    }
  }

  lemma LaidOutSize(f: Format, codec: Codec, image: Bytes, m: Manifest, data: Bytes)
    requires LaidOut(f, codec, image, m, data)
    ensures m.offset + HEADER_SIZE <= |image|
  {
  }

  lemma OneOffset(f: Format, image: Bytes, at: nat)
    ensures Offsets(f, image, 0) == [at] <==> forall o :: Occurs(f, image, o) <==> o == at
  {
    var r := Offsets(f, image, 0);
    if r == [at] {
      assert forall o :: o in r <==> o == at;
    }
    if forall o :: Occurs(f, image, o) <==> o == at {
      assert at in r;
      assert forall i | 0 <= i < |r| :: r[i] in r;
      assert |r| >= 2 ==> r[0] < r[1];
    }
  }

  // ---- Packing ----

  function AlignUp(n: nat): (r: nat)
    ensures r % ALIGNMENT == 0 && n <= r < n + ALIGNMENT
  {
    (n + ALIGNMENT - 1) / ALIGNMENT * ALIGNMENT
  }

  /** The manifest a packer describes. */
  function Described(f: Format, codec: Codec, prefix: Bytes, data: Bytes, flags: nat): Manifest {
    Manifest(AlignUp(|prefix|), FORMAT_VERSION, HEADER_SIZE, flags, f.layoutVersion, ALIGNMENT,
             |codec.compress(data)|, |data|, codec.crc(data))
  }

  /** What both packers join once their arguments are accepted. */
  function Joined(f: Format, codec: Codec, prefix: Bytes, data: Bytes, flags: nat): Result<Bytes, ImageError>
    requires Known(f)
  {
    var m := Described(f, codec, prefix, data, flags);
    if !HeaderFits(f, HeaderOf(f, m)) then Failure(FieldOverflow)
    else Success(prefix + Zeros(m.offset - |prefix|) + HeaderBytes(f, HeaderOf(f, m))
                 + Zeros(ALIGNMENT - HEADER_SIZE) + codec.compress(data))
  }

  function PackImage(codec: Codec, m1n1: Bytes, firmware: Bytes, layoutVersion: int, flags: int): Result<Bytes, ImageError> {
    if m1n1 == [] then Failure(EmptyPrefix)
    else if firmware == [] then Failure(EmptyPayload)
    else if layoutVersion != 1 then Failure(UnsupportedLayout)
    else if flags < 0 || !ValidFlags(flags) then Failure(UnsupportedFlags)
    else Joined(IMAGE, codec, m1n1, firmware, flags)
  }

  function PackBootstrap(codec: Codec, stage0: Bytes, inner: Bytes, flags: int): Result<Bytes, ImageError> {
    if stage0 == [] then Failure(EmptyPrefix)
    else if |stage0| % ALIGNMENT != 0 then Failure(PrefixUnaligned)
    else if inner == [] then Failure(EmptyPayload)
    else if flags < 0 || !ValidFlags(flags) then Failure(UnsupportedFlags)
    else Joined(BOOTSTRAP, codec, stage0, inner, flags)
  }

  /** The magic occurs at no aligned offset. */
  ghost predicate MagicFree(f: Format, data: Bytes) {
    forall o :: !Occurs(f, data, o)
  }

  /** Where the magic can be found in a packed image. */
  lemma PackedOccurrences(f: Format, codec: Codec, prefix: Bytes, data: Bytes, flags: nat, o: nat)
    requires Known(f) && Joined(f, codec, prefix, data, flags).Success?
    ensures var image, at := Joined(f, codec, prefix, data, flags).value, AlignUp(|prefix|);
      Occurs(f, image, o) <==>
        || o == at
        || Occurs(f, prefix, o)
        || (at + ALIGNMENT <= o && Occurs(f, codec.compress(data), o - (at + ALIGNMENT)))
  {
    hide HeaderFits, Occurs, AlignUp, HeaderBytes, HeaderOf;
    var m := Described(f, codec, prefix, data, flags);
    var pad, header := Zeros(m.offset - |prefix|), HeaderBytes(f, HeaderOf(f, m));
    PackedSlices(prefix, pad, header, Zeros(ALIGNMENT - HEADER_SIZE), codec.compress(data));
    PackedStartsWithMagic(f, codec, prefix, data, flags);
    OccurrencesIn(f, prefix, Joined(f, codec, prefix, data, flags).value, codec.compress(data), m.offset, o);
  }

  lemma PackedStartsWithMagic(f: Format, codec: Codec, prefix: Bytes, data: Bytes, flags: nat)
    requires Known(f) && Joined(f, codec, prefix, data, flags).Success?
    ensures HeaderBytes(f, HeaderOf(f, Described(f, codec, prefix, data, flags)))[..MAGIC_SIZE] == f.magic
  {
    HeaderStartsWithMagic(f, HeaderOf(f, Described(f, codec, prefix, data, flags)));
  }

  lemma OccurrencesIn(f: Format, prefix: Bytes, image: Bytes, payload: Bytes, at: nat, o: nat)
    requires Known(f) && at == AlignUp(|prefix|) && at + ALIGNMENT <= |image|
    requires image[..|prefix|] == prefix
    requires image[|prefix|..at] == Zeros(at - |prefix|)
    requires image[at..at + HEADER_SIZE][..MAGIC_SIZE] == f.magic
    requires image[at + ALIGNMENT..] == payload
    ensures Occurs(f, image, o) <==>
        || o == at
        || Occurs(f, prefix, o)
        || (at + ALIGNMENT <= o && Occurs(f, payload, o - (at + ALIGNMENT)))
  {
    hide AlignUp, Occurs;
    if o % ALIGNMENT != 0 {
      OnlyAligned(f, image, o);
      OnlyAligned(f, prefix, o);
      if at + ALIGNMENT <= o {
        OnlyAligned(f, payload, o - (at + ALIGNMENT));
      }
    } else if o < at {
      BeforeHeader(f, prefix, image, at, o);
    } else if o == at {
      AtHeader(f, image, at);
    } else {
      AlignedApart(at, o);
      AfterHeader(f, image, at + ALIGNMENT, o);
      WithinLength(f, prefix, o);
    }
  }

  lemma OnlyAligned(f: Format, image: Bytes, o: nat)
    ensures Occurs(f, image, o) ==> o % ALIGNMENT == 0
  {
  }

  lemma WithinLength(f: Format, image: Bytes, o: nat)
    requires |image| <= o && |f.magic| > 0
    ensures !Occurs(f, image, o)
  {
  }

  lemma AtHeader(f: Format, image: Bytes, at: nat)
    requires Known(f) && at % ALIGNMENT == 0 && at + HEADER_SIZE <= |image|
    requires image[at..at + HEADER_SIZE][..MAGIC_SIZE] == f.magic
    ensures Occurs(f, image, at)
  {
    assert image[at..at + MAGIC_SIZE] == image[at..at + HEADER_SIZE][..MAGIC_SIZE];
  }

  /** From an aligned offset on, occurrences are those of the rest. */
  lemma AfterHeader(f: Format, image: Bytes, from: nat, o: nat)
    requires from % ALIGNMENT == 0 && from <= |image| && from <= o
    ensures Occurs(f, image, o) <==> Occurs(f, image[from..], o - from)
  {
    if o - from + |f.magic| <= |image| - from {
      SliceOfDrop(image, from, o - from, |f.magic|);
    }
  }

  lemma SliceOfTake(s: Bytes, to: nat, k: nat, n: nat)
    requires k + n <= to <= |s|
    ensures s[k..k + n] == s[..to][k..k + n]
  {
  }

  lemma SliceOfDrop(s: Bytes, from: nat, k: nat, n: nat)
    requires from <= |s|
    ensures from + k + n <= |s| <==> k + n <= |s[from..]|
    ensures k + n <= |s[from..]| ==> s[from + k..from + k + n] == s[from..][k..k + n]
  {
  }

  lemma AlignedApart(a: nat, b: nat)
    requires a % ALIGNMENT == 0 && b % ALIGNMENT == 0 && a < b
    ensures a + ALIGNMENT <= b
  {
  }

  /** Below the header the magic can only be found inside the prefix: its letters are not
      zero, so it cannot reach into the padding. */
  lemma BeforeHeader(f: Format, prefix: Bytes, image: Bytes, at: nat, o: nat)
    requires Known(f) && at == AlignUp(|prefix|) && at + MAGIC_SIZE <= |image| && o % ALIGNMENT == 0 && o < at
    requires image[..|prefix|] == prefix && image[|prefix|..at] == Zeros(at - |prefix|)
    ensures Occurs(f, image, o) <==> Occurs(f, prefix, o)
  {
    AlignedApart(o, at);
    var n := |f.magic|;
    if o + n <= |prefix| {
      SliceOfTake(image, |prefix|, o, n);
    } else {
      assert o < |prefix| + n;
      var k := if o < |prefix| then |prefix| else o;
      assert k < at;
      assert image[k] == image[|prefix|..at][k - |prefix|] == 0;
      assert image[o..o + n][k - o] == 0;
    }
  }

  lemma HeaderStartsWithMagic(f: Format, h: Header)
    requires Known(f) && HeaderFits(f, h)
    ensures HeaderBytes(f, h)[..MAGIC_SIZE] == h.magic
  {
    HeaderValuesFit(f, h);
    var layout, values := HeaderLayout(f), HeaderValues(h);
    assert layout[0] == Chars(MAGIC_SIZE) && values[0] == Raw(h.magic);
  }

  lemma PackedSlices(prefix: Bytes, pad: Bytes, header: Bytes, gap: Bytes, payload: Bytes)
    ensures var image := prefix + pad + header + gap + payload;
      var at := |prefix| + |pad|;
      && image[..|prefix|] == prefix
      && image[|prefix|..at] == pad
      && image[at..at + |header|] == header
      && image[at + |header|..at + |header| + |gap|] == gap
      && image[at + |header| + |gap|..] == payload
  {
  }

  // ---- Parsing what was packed ----

  lemma PackedIsLaidOut(f: Format, codec: Codec, prefix: Bytes, data: Bytes, flags: nat)
    requires Known(f) && Lossless(codec) && ValidFlags(flags) && data != []
    requires Joined(f, codec, prefix, data, flags).Success?
    ensures LaidOut(f, codec, Joined(f, codec, prefix, data, flags).value, Described(f, codec, prefix, data, flags), data)
  {
    hide HeaderFits, AlignUp, HeaderBytes, HeaderOf;
    var m := Described(f, codec, prefix, data, flags);
    var pad, header, gap, payload :=
      Zeros(m.offset - |prefix|), HeaderBytes(f, HeaderOf(f, m)), Zeros(ALIGNMENT - HEADER_SIZE), codec.compress(data);
    assert payload != [] && codec.decompress(payload) == Some(data);
    PackedSlices(prefix, pad, header, gap, payload);
    var image := prefix + pad + header + gap + payload;
    assert image[m.offset..] == (header + gap) + payload;
    assert image == Joined(f, codec, prefix, data, flags).value;
  }

  /** Packing and then parsing returns exactly what was packed, unless the magic also stands
      at an aligned offset of the prefix or of the compressed payload; then packing still
      succeeds and the image it wrote is refused. */
  lemma ParsePacked(f: Format, codec: Codec, prefix: Bytes, data: Bytes, flags: nat)
    requires Known(f) && Lossless(codec) && ValidFlags(flags) && data != []
    requires Joined(f, codec, prefix, data, flags).Success?
    ensures Parse(f, codec, Joined(f, codec, prefix, data, flags).value) ==
      if MagicFree(f, prefix) && MagicFree(f, codec.compress(data))
      then Success((Described(f, codec, prefix, data, flags), data))
      else Failure(Multiple)
  {
    hide Joined, Occurs, ParseAt, LaidOut, HeaderFits, HeaderBytes, AlignUp;
    var image, m := Joined(f, codec, prefix, data, flags).value, Described(f, codec, prefix, data, flags);
    var payload := codec.compress(data);
    forall o: nat ensures Occurs(f, image, o) <==>
      (o == m.offset || Occurs(f, prefix, o) || (m.offset + ALIGNMENT <= o && Occurs(f, payload, o - (m.offset + ALIGNMENT))))
    {
      PackedOccurrences(f, codec, prefix, data, flags, o);
    }
    PackedIsLaidOut(f, codec, prefix, data, flags);
    if MagicFree(f, prefix) && MagicFree(f, payload) {
      ParseIffLaidOut(f, codec, image, m, data);
    } else {
      var second := AnotherOffset(f, prefix, payload, image, m.offset);
      var r := Offsets(f, image, 0);
      assert m.offset in r && second in r;
    }
  }

  lemma AnotherOffset(f: Format, prefix: Bytes, payload: Bytes, image: Bytes, at: nat) returns (second: nat)
    requires |prefix| <= at && |f.magic| > 0
    requires !MagicFree(f, prefix) || !MagicFree(f, payload)
    requires forall o: nat :: Occurs(f, image, o) <==>
      (o == at || Occurs(f, prefix, o) || (at + ALIGNMENT <= o && Occurs(f, payload, o - (at + ALIGNMENT))))
    ensures second != at && Occurs(f, image, second)
  {
    if !MagicFree(f, prefix) {
      second :| Occurs(f, prefix, second);
    } else {
      var k: nat :| Occurs(f, payload, k);
      second := k + (at + ALIGNMENT);
      assert second - (at + ALIGNMENT) == k;
    }
  }

  /** A prefix that is itself the magic packs without complaint and does not parse. */
  lemma MagicPrefixRefused(codec: Codec)
    requires Lossless(codec) && |codec.compress([1])| < 0x1_0000_0000_0000_0000
    ensures var packed := PackImage(codec, IMAGE.magic, [1], 1, 1);
      packed.Success? && Parse(IMAGE, codec, packed.value) == Failure(Multiple)
  {
    hide Joined, Parse;
    DescribedFits(IMAGE, codec, IMAGE.magic, [1], 1);
    assert Occurs(IMAGE, IMAGE.magic, 0);
    ParsePacked(IMAGE, codec, IMAGE.magic, [1], 1);
  }

  // ---- The two-stage image ----

  datatype BootError = Image(error: ImageError) | SameStage | AssertionFailed

  /** `main` of tools/pack_boot.py up to the write.  `layoutVersion` comes from the layout
      file, `flags` from the launch profile. */
  function PackBoot(codec: Codec, sha: Bytes -> Bytes, stage0: Option<Bytes>, m1n1: Bytes, firmware: Bytes,
                    layoutVersion: int, flags: int): Result<Bytes, BootError> {
    if |m1n1| % ALIGNMENT != 0 then Failure(Image(PrefixUnaligned))
    else match PackImage(codec, m1n1, firmware, layoutVersion, flags)
      case Failure(e) => Failure(Image(e))
      case Success(inner) =>
        match Parse(IMAGE, codec, inner)
        case Failure(e) => Failure(Image(e))
        case Success(parsed) =>
          if stage0.None? then Success(inner)
          else Nest(codec, sha, stage0.value, m1n1, inner, parsed, flags)
  }

  function Nest(codec: Codec, sha: Bytes -> Bytes, stage0: Bytes, m1n1: Bytes, inner: Bytes,
                parsed: (Manifest, Bytes), flags: int): Result<Bytes, BootError> {
    if |stage0| % ALIGNMENT != 0 then Failure(Image(PrefixUnaligned))
    else if sha(stage0) == sha(m1n1) then Failure(SameStage)
    else match PackBootstrap(codec, stage0, inner, flags)
      case Failure(e) => Failure(Image(e))
      case Success(image) =>
        match Parse(BOOTSTRAP, codec, image)
        case Failure(e) => Failure(Image(e))
        case Success((_, decodedInner)) =>
          match Parse(IMAGE, codec, decodedInner)
          case Failure(e) => Failure(Image(e))
          case Success(again) => if again != parsed then Failure(AssertionFailed) else Success(image)
  }

  /** What a user must supply for one container: sizes that fit its header fields, and no
      magic of its own at an aligned offset. */
  ghost predicate Packable(f: Format, codec: Codec, prefix: Bytes, data: Bytes, flags: int) {
    && prefix != [] && data != [] && 0 <= flags && ValidFlags(flags)
    && |codec.compress(data)| < 0x1_0000_0000_0000_0000 && |data| < 0x1_0000_0000_0000_0000
    && MagicFree(f, prefix) && MagicFree(f, codec.compress(data))
  }

  lemma DescribedFits(f: Format, codec: Codec, prefix: Bytes, data: Bytes, flags: nat)
    requires Known(f) && ValidFlags(flags)
    ensures Joined(f, codec, prefix, data, flags).Success? <==>
      |codec.compress(data)| < 0x1_0000_0000_0000_0000 && |data| < 0x1_0000_0000_0000_0000
  {
    hide HeaderBytes;
  }

  /** One container: packed, parsed and recovered exactly when it is packable. */
  lemma ImageRoundTrip(codec: Codec, m1n1: Bytes, firmware: Bytes, layoutVersion: int, flags: int)
    requires Lossless(codec)
    ensures var packed := PackImage(codec, m1n1, firmware, layoutVersion, flags);
      && ((packed.Success? && Parse(IMAGE, codec, packed.value).Success?)
          <==> (layoutVersion == 1 && Packable(IMAGE, codec, m1n1, firmware, flags)))
      && (packed.Success? && Parse(IMAGE, codec, packed.value).Success? ==>
          Parse(IMAGE, codec, packed.value) == Success((Described(IMAGE, codec, m1n1, firmware, flags), firmware)))
  {
    hide Joined, Parse, Described, MagicFree;
    if m1n1 != [] && firmware != [] && 0 <= flags && ValidFlags(flags) {
      DescribedFits(IMAGE, codec, m1n1, firmware, flags);
      if Joined(IMAGE, codec, m1n1, firmware, flags).Success? {
        ParsePacked(IMAGE, codec, m1n1, firmware, flags);
      }
    }
  }

  lemma BootstrapRoundTrip(codec: Codec, stage0: Bytes, inner: Bytes, flags: int)
    requires Lossless(codec)
    ensures var packed := PackBootstrap(codec, stage0, inner, flags);
      && ((packed.Success? && Parse(BOOTSTRAP, codec, packed.value).Success?)
          <==> (|stage0| % ALIGNMENT == 0 && Packable(BOOTSTRAP, codec, stage0, inner, flags)))
      && (packed.Success? && Parse(BOOTSTRAP, codec, packed.value).Success? ==>
          Parse(BOOTSTRAP, codec, packed.value) == Success((Described(BOOTSTRAP, codec, stage0, inner, flags), inner)))
  {
    hide Joined, Parse, Described, MagicFree;
    if stage0 != [] && |stage0| % ALIGNMENT == 0 && inner != [] && 0 <= flags && ValidFlags(flags) {
      DescribedFits(BOOTSTRAP, codec, stage0, inner, flags);
      if Joined(BOOTSTRAP, codec, stage0, inner, flags).Success? {
        ParsePacked(BOOTSTRAP, codec, stage0, inner, flags);
      }
    }
  }

  /** The tool writes an image exactly when both containers are packable and the stages
      differ; its own assertions never fail; and what it writes decodes, container by
      container, to the firmware it was given. */
  lemma PackBootDecodes(codec: Codec, sha: Bytes -> Bytes, stage0: Option<Bytes>, m1n1: Bytes, firmware: Bytes,
                        layoutVersion: int, flags: int)
    requires Lossless(codec)
    ensures var written := PackBoot(codec, sha, stage0, m1n1, firmware, layoutVersion, flags);
      var inner := PackImage(codec, m1n1, firmware, layoutVersion, flags);
      && written != Failure(AssertionFailed)
      && (written.Success? <==>
          && |m1n1| % ALIGNMENT == 0 && layoutVersion == 1 && Packable(IMAGE, codec, m1n1, firmware, flags)
          && (stage0.Some? ==>
              && |stage0.value| % ALIGNMENT == 0 && sha(stage0.value) != sha(m1n1)
              && inner.Success? && Packable(BOOTSTRAP, codec, stage0.value, inner.value, flags)))
      && (written.Success? ==>
          && inner.Success?
          && Parse(IMAGE, codec, inner.value) == Success((Described(IMAGE, codec, m1n1, firmware, flags), firmware))
          && (stage0.None? ==> written.value == inner.value)
          && (stage0.Some? ==>
              Parse(BOOTSTRAP, codec, written.value)
              == Success((Described(BOOTSTRAP, codec, stage0.value, inner.value, flags), inner.value))))
  {
    hide PackImage, PackBootstrap, Parse, Packable, Described;
    ImageRoundTrip(codec, m1n1, firmware, layoutVersion, flags);
    var inner := PackImage(codec, m1n1, firmware, layoutVersion, flags);
    if inner.Success? && stage0.Some? {
      BootstrapRoundTrip(codec, stage0.value, inner.value, flags);
    }
  }
}
