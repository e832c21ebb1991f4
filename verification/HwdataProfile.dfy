/** The byte string that tools/generate_agx_hwdata_profile.py feeds to SHA-256. */
module HwdataProfile {
  import opened Results
  import opened Structs
  import Ordering

  /** A device-tree property: its name and its value, if the tree has it. */
  datatype Input = Input(name: string, value: Option<Bytes>)

  /** An item of the `sources` dictionary; the digest is what `bytes.fromhex` decodes. */
  datatype Source = Source(name: string, digest: Bytes)

  const MAX_U32 := 0xFFFF_FFFF
  const DIGEST_SIZE := 32

  /** "AGX-HWDATA-PROFILE", "v1", "T8103", "J313", "G13" and "V13_5", each followed by NUL. */
  const TAG: Bytes := [
    0x41, 0x47, 0x58, 0x2D, 0x48, 0x57, 0x44, 0x41, 0x54, 0x41, 0x2D, 0x50, 0x52, 0x4F, 0x46, 0x49, 0x4C, 0x45, 0,
    0x76, 0x31, 0, 0x54, 0x38, 0x31, 0x30, 0x33, 0, 0x4A, 0x33, 0x31, 0x33, 0, 0x47, 0x31, 0x33, 0,
    0x56, 0x31, 0x33, 0x5F, 0x35, 0
  ]

  /** `encode("ascii")` raises on anything else. */
  predicate IsAscii(name: string) {
    forall i :: 0 <= i < |name| ==> name[i] as int < 128
  }

  function Ascii(name: string): (r: Bytes)
    requires IsAscii(name)
    ensures |r| == |name|
  {
    seq(|name|, i requires 0 <= i < |name| => name[i] as int)
  }

  lemma AsciiInjective(a: string, b: string)
    requires IsAscii(a) && IsAscii(b) && Ascii(a) == Ascii(b)
    ensures a == b
  {
    assert |a| == |b|;
    forall i | 0 <= i < |a| ensures a[i] == b[i] {
      assert Ascii(a)[i] == Ascii(b)[i];
    }
  }

  /** `struct.pack("<I", n)`, which raises when the number does not fit. */
  function Length(n: nat): (r: Bytes)
    requires n <= MAX_U32
    ensures |r| == 4
  {
    Widths();
    PackUint(n, 4)
  }

  lemma LengthInjective(m: nat, n: nat)
    requires m <= MAX_U32 && n <= MAX_U32 && Length(m) == Length(n)
    ensures m == n
  {
    Widths();
    UnpackPackUint(m, 4);
    UnpackPackUint(n, 4);
  }

  function Block(data: Bytes): Bytes
    requires |data| <= MAX_U32
  {
    Length(|data|) + data
  }

  // ---- What is hashed ----

  predicate Named(name: string) {
    IsAscii(name) && |name| <= MAX_U32
  }

  predicate EncodableInput(input: Input) {
    Named(input.name) && (input.value.Some? ==> |input.value.value| <= MAX_U32)
  }

  function EncodedInput(input: Input): Bytes
    requires EncodableInput(input)
  {
    Block(Ascii(input.name)) + if input.value.None? then Length(MAX_U32) else Block(input.value.value)
  }

  predicate EncodableInputs(inputs: seq<Input>) {
    forall i :: 0 <= i < |inputs| ==> EncodableInput(inputs[i])
  }

  function EncodedInputs(inputs: seq<Input>): Bytes
    requires EncodableInputs(inputs)
  {
    if inputs == [] then [] else EncodedInput(inputs[0]) + EncodedInputs(inputs[1..])
  }

  predicate EncodableSources(sources: seq<Source>) {
    forall i :: 0 <= i < |sources| ==> Named(sources[i].name)
  }

  function EncodedSource(source: Source): Bytes
    requires Named(source.name)
  {
    Block(Ascii(source.name)) + source.digest
  }

  function EncodedSources(sources: seq<Source>): Bytes
    requires EncodableSources(sources)
  {
    if sources == [] then [] else EncodedSource(sources[0]) + EncodedSources(sources[1..])
  }

  function SourceName(source: Source): string { source.name }

  /** `sorted(sources.items())`: names of a dictionary differ, so they alone decide. */
  function InOrder(sources: seq<Source>): (r: seq<Source>)
    ensures multiset(r) == multiset(sources) && |r| == |sources|
  {
    Ordering.Sort(sources, SourceName)
  }

  predicate Encodable(inputs: seq<Input>, sources: seq<Source>, a: Bytes, b: Bytes) {
    && |inputs| <= MAX_U32 && EncodableInputs(inputs)
    && |sources| <= MAX_U32 && EncodableSources(InOrder(sources))
    && |a| <= MAX_U32 && |b| <= MAX_U32
  }

  /** Everything passed to the digest, in order. */
  function Preimage(inputs: seq<Input>, sources: seq<Source>, a: Bytes, b: Bytes): Bytes
    requires Encodable(inputs, sources, a, b)
  {
    TAG + (Length(|inputs|) + EncodedInputs(inputs))
      + (Length(|sources|) + EncodedSources(InOrder(sources))) + Block(a) + Block(b)
  }

  lemma {:induction false} EncodedInputsGrows(inputs: seq<Input>, n: nat)
    requires EncodableInputs(inputs) && n < |inputs|
    ensures EncodedInputs(inputs[..n + 1]) == EncodedInputs(inputs[..n]) + EncodedInput(inputs[n])
  {
    var longer, shorter := inputs[..n + 1], inputs[..n];
    if n == 0 {
      assert longer[1..] == [];
    } else {
      EncodedInputsGrows(inputs[1..], n - 1);
      assert longer[1..] == inputs[1..][..n] && shorter[1..] == inputs[1..][..n - 1];
    }
  }

  lemma {:induction false} EncodedSourcesGrows(sources: seq<Source>, n: nat)
    requires EncodableSources(sources) && n < |sources|
    ensures EncodedSources(sources[..n + 1]) == EncodedSources(sources[..n]) + EncodedSource(sources[n])
  {
    var longer, shorter := sources[..n + 1], sources[..n];
    if n == 0 {
      assert longer[1..] == [];
    } else {
      EncodedSourcesGrows(sources[1..], n - 1);
      assert longer[1..] == sources[1..][..n] && shorter[1..] == sources[1..][..n - 1];
    }
  }

  lemma InputTaken(inputs: seq<Input>, i: nat)
    requires i < |inputs| && EncodableInputs(inputs[..i]) && EncodableInput(inputs[i])
    ensures EncodableInputs(inputs[..i + 1])
    ensures EncodedInputs(inputs[..i + 1]) == EncodedInputs(inputs[..i]) + EncodedInput(inputs[i])
  {
    hide EncodedInput;
    var taken := inputs[..i + 1];
    assert taken[..i] == inputs[..i] && taken[..i + 1] == taken && taken[i] == inputs[i];
    forall k | 0 <= k < i + 1 ensures EncodableInput(taken[k]) {
      if k < i {
        assert EncodableInput(inputs[..i][k]);
      }
    }
    EncodedInputsGrows(taken, i);
  }

  lemma SourceTaken(sources: seq<Source>, i: nat)
    requires i < |sources| && EncodableSources(sources[..i]) && Named(sources[i].name)
    ensures EncodableSources(sources[..i + 1])
    ensures EncodedSources(sources[..i + 1]) == EncodedSources(sources[..i]) + EncodedSource(sources[i])
  {
    hide EncodedSource;
    var taken := sources[..i + 1];
    assert taken[..i] == sources[..i] && taken[..i + 1] == taken && taken[i] == sources[i];
    forall k | 0 <= k < i + 1 ensures Named(taken[k].name) {
      if k < i {
        assert Named(sources[..i][k].name);
      }
    }
    EncodedSourcesGrows(taken, i);
  }

  lemma Regroup(a: Bytes, b: Bytes, c: Bytes, d: Bytes)
    ensures a + b + c + d == a + (b + (c + d))
    ensures a + b + c == a + (b + c)
    ensures a + b + c + d == a + b + (c + d)
  {
  }

  /** `canonical_inputs`; None stands for the exception of an input that cannot be encoded. */
  method CanonicalInputs(inputs: seq<Input>) returns (data: Option<Bytes>)
    ensures data == if |inputs| <= MAX_U32 && EncodableInputs(inputs)
                    then Some(Length(|inputs|) + EncodedInputs(inputs)) else None
  {
    hide IsAscii, Ascii, EncodedInputs, Length;
    if |inputs| > MAX_U32 {
      return None;
    }
    var bytes := Length(|inputs|);
    assert bytes + EncodedInputs([]) == bytes by { EmptyEncodings(); }
    var i := 0;
    while i < |inputs|
      invariant 0 <= i <= |inputs| && EncodableInputs(inputs[..i])
      invariant bytes == Length(|inputs|) + EncodedInputs(inputs[..i])
    {
      var input := inputs[i];
      if !IsAscii(input.name) || |input.name| > MAX_U32 {
        assert !EncodableInput(inputs[i]);
        return None;
      }
      if input.value.Some? && |input.value.value| > MAX_U32 {
        assert !EncodableInput(inputs[i]);
        return None;
      }
      ghost var before := bytes;
      var encoded := Ascii(input.name);
      bytes := bytes + (Length(|encoded|) + encoded);
      bytes := bytes + Length(if input.value.None? then MAX_U32 else |input.value.value|);
      Regroup(before, Block(encoded), Length(MAX_U32), []);
      if input.value.Some? {
        bytes := bytes + input.value.value;
        Regroup(before, Block(encoded), Length(|input.value.value|), input.value.value);
      }
      InputTaken(inputs, i);
      Regroup(Length(|inputs|), EncodedInputs(inputs[..i]), EncodedInput(input), []);
      i := i + 1;
    }
    assert inputs[..i] == inputs;
    data := Some(bytes);
  }

  lemma EmptyEncodings()
    ensures EncodedInputs([]) == [] && EncodedSources([]) == []
  {
  }

  /** The loop of `profile_identity` over the sorted sources. */
  method FeedSources(start: Bytes, ordered: seq<Source>) returns (fed: Option<Bytes>)
    ensures fed == if EncodableSources(ordered) then Some(start + EncodedSources(ordered)) else None
  {
    hide IsAscii, Ascii, EncodedSources, Length;
    var bytes := start;
    assert start + EncodedSources([]) == start by { EmptyEncodings(); }
    var i := 0;
    while i < |ordered|
      invariant 0 <= i <= |ordered| && EncodableSources(ordered[..i])
      invariant bytes == start + EncodedSources(ordered[..i])
    {
      var source := ordered[i];
      if !IsAscii(source.name) || |source.name| > MAX_U32 {
        assert !Named(ordered[i].name);
        return None;
      }
      var encoded := Ascii(source.name);
      SourceTaken(ordered, i);
      Regroup(start, EncodedSources(ordered[..i]), EncodedSource(source), []);
      bytes := bytes + (Length(|encoded|) + encoded + source.digest);
      i := i + 1;
    }
    assert ordered[..i] == ordered;
    fed := Some(bytes);
  }

  /** `profile_identity`: the digest of exactly the preimage, or an exception. */
  method ProfileIdentity(sha256: Bytes -> Bytes, inputs: seq<Input>, sources: seq<Source>, a: Bytes, b: Bytes)
    returns (identity: Option<Bytes>)
    ensures identity == if Encodable(inputs, sources, a, b) then Some(sha256(Preimage(inputs, sources, a, b))) else None
  {
    hide EncodableInputs, EncodedInputs, EncodableSources, EncodedSources, InOrder, Length;
    var canonical := CanonicalInputs(inputs);
    if canonical.None? || |sources| > MAX_U32 {
      return None;
    }
    var opening := TAG + canonical.value + Length(|sources|);
    var fed := FeedSources(opening, InOrder(sources));
    if fed.None? || |a| > MAX_U32 || |b| > MAX_U32 {
      return None;
    }
    Regroup(TAG + canonical.value, Length(|sources|), EncodedSources(InOrder(sources)), []);
    identity := Some(sha256(fed.value + (Length(|a|) + a) + (Length(|b|) + b)));
  }

  // ---- The preimage determines its inputs ----

  /** Equal concatenations whose first parts have equal lengths agree part by part. */
  lemma Splits(a: Bytes, ra: Bytes, b: Bytes, rb: Bytes)
    requires |a| == |b| && a + ra == b + rb
    ensures a == b && ra == rb
  {
    assert a == (a + ra)[..|a|] && b == (b + rb)[..|b|];
    assert ra == (a + ra)[|a|..] && rb == (b + rb)[|b|..];
  }

  /** A length-prefixed block can be told from whatever follows it. */
  lemma BlockSplits(x: Bytes, rx: Bytes, y: Bytes, ry: Bytes)
    requires |x| <= MAX_U32 && |y| <= MAX_U32 && Block(x) + rx == Block(y) + ry
    ensures x == y && rx == ry
  {
    hide Length;
    assert Block(x) + rx == Length(|x|) + (x + rx) && Block(y) + ry == Length(|y|) + (y + ry);
    Splits(Length(|x|), x + rx, Length(|y|), y + ry);
    LengthInjective(|x|, |y|);
    Splits(x, rx, y, ry);
  }

  /** Short enough not to be mistaken for an absent value. */
  predicate Unmistakable(input: Input) {
    EncodableInput(input) && (input.value.Some? ==> |input.value.value| < MAX_U32)
  }

  function EncodedValue(value: Option<Bytes>): Bytes
    requires value.Some? ==> |value.value| <= MAX_U32
  {
    if value.None? then Length(MAX_U32) else Block(value.value)
  }

  /** Both absent, both present, or both short enough. */
  predicate Tellable(x: Option<Bytes>, y: Option<Bytes>) {
    (x.Some? <==> y.Some?) || ((x.Some? ==> |x.value| < MAX_U32) && (y.Some? ==> |y.value| < MAX_U32))
  }

  lemma ValueSplits(x: Option<Bytes>, rx: Bytes, y: Option<Bytes>, ry: Bytes)
    requires (x.Some? ==> |x.value| <= MAX_U32) && (y.Some? ==> |y.value| <= MAX_U32) && Tellable(x, y)
    requires EncodedValue(x) + rx == EncodedValue(y) + ry
    ensures x == y && rx == ry
  {
    hide Length;
    if x.Some? && y.Some? {
      BlockSplits(x.value, rx, y.value, ry);
    } else {
      var m, n := if x.None? then MAX_U32 else |x.value|, if y.None? then MAX_U32 else |y.value|;
      var tx, ty := if x.None? then rx else x.value + rx, if y.None? then ry else y.value + ry;
      assert EncodedValue(x) + rx == Length(m) + tx && EncodedValue(y) + ry == Length(n) + ty;
      Splits(Length(m), tx, Length(n), ty);
      LengthInjective(m, n);
    }
  }

  lemma InputParts(x: Input, rx: Bytes)
    requires EncodableInput(x)
    ensures EncodedInput(x) + rx == Block(Ascii(x.name)) + (EncodedValue(x.value) + rx)
  {
    hide IsAscii, Ascii, Block, Length;
    Regroup(Block(Ascii(x.name)), EncodedValue(x.value), rx, []);
  }

  lemma InputSplits(x: Input, rx: Bytes, y: Input, ry: Bytes)
    requires EncodableInput(x) && EncodableInput(y) && Tellable(x.value, y.value)
    requires EncodedInput(x) + rx == EncodedInput(y) + ry
    ensures x == y && rx == ry
  {
    hide IsAscii, Ascii, Block, Tellable, EncodedInput, EncodedValue;
    var nx, ny := Ascii(x.name), Ascii(y.name);
    InputParts(x, rx);
    InputParts(y, ry);
    BlockSplits(nx, EncodedValue(x.value) + rx, ny, EncodedValue(y.value) + ry);
    AsciiInjective(x.name, y.name);
    ValueSplits(x.value, rx, y.value, ry);
  }

  predicate AllTellable(xs: seq<Input>, ys: seq<Input>) {
    forall i :: 0 <= i < |xs| && i < |ys| ==> Tellable(xs[i].value, ys[i].value)
  }

  lemma {:induction false} InputsSplit(xs: seq<Input>, rx: Bytes, ys: seq<Input>, ry: Bytes)
    requires |xs| == |ys| && EncodableInputs(xs) && EncodableInputs(ys) && AllTellable(xs, ys)
    requires EncodedInputs(xs) + rx == EncodedInputs(ys) + ry
    ensures xs == ys && rx == ry
  {
    hide EncodedInput, Named, Tellable;
    if xs == [] {
      assert EncodedInputs(xs) + rx == rx && EncodedInputs(ys) + ry == ry;
    } else {
      var tx, ty := EncodedInputs(xs[1..]) + rx, EncodedInputs(ys[1..]) + ry;
      assert EncodedInputs(xs) + rx == EncodedInput(xs[0]) + tx && EncodedInputs(ys) + ry == EncodedInput(ys[0]) + ty;
      InputSplits(xs[0], tx, ys[0], ty);
      InputsSplit(xs[1..], rx, ys[1..], ry);
      assert xs == [xs[0]] + xs[1..] && ys == [ys[0]] + ys[1..];
    }
  }

  function DigestLengths(sources: seq<Source>): (r: seq<nat>)
    ensures |r| == |sources| && forall i :: 0 <= i < |r| ==> r[i] == |sources[i].digest|
  {
    seq(|sources|, i requires 0 <= i < |sources| => |sources[i].digest|)
  }

  lemma {:induction false} SourcesSplit(xs: seq<Source>, rx: Bytes, ys: seq<Source>, ry: Bytes)
    requires EncodableSources(xs) && EncodableSources(ys) && DigestLengths(xs) == DigestLengths(ys)
    requires EncodedSources(xs) + rx == EncodedSources(ys) + ry
    ensures xs == ys && rx == ry
  {
    hide IsAscii, Ascii, Block;
    assert |xs| == |DigestLengths(xs)| == |ys|;
    if xs == [] {
      assert EncodedSources(xs) + rx == rx && EncodedSources(ys) + ry == ry;
    } else {
      var x, y := xs[0], ys[0];
      assert DigestLengths(xs)[0] == DigestLengths(ys)[0];
      var tx, ty := EncodedSources(xs[1..]) + rx, EncodedSources(ys[1..]) + ry;
      assert EncodedSources(xs) + rx == Block(Ascii(x.name)) + (x.digest + tx);
      assert EncodedSources(ys) + ry == Block(Ascii(y.name)) + (y.digest + ty);
      BlockSplits(Ascii(x.name), x.digest + tx, Ascii(y.name), y.digest + ty);
      AsciiInjective(x.name, y.name);
      Splits(x.digest, tx, y.digest, ty);
      LaterLengths(xs, ys);
      SourcesSplit(xs[1..], rx, ys[1..], ry);
      assert xs == [x] + xs[1..] && ys == [y] + ys[1..];
    }
  }

  lemma LaterLengths(xs: seq<Source>, ys: seq<Source>)
    requires xs != [] && ys != [] && DigestLengths(xs) == DigestLengths(ys)
    ensures DigestLengths(xs[1..]) == DigestLengths(ys[1..])
  {
    assert DigestLengths(xs[1..]) == DigestLengths(xs)[1..] && DigestLengths(ys[1..]) == DigestLengths(ys)[1..];
  }

  predicate Digests(sources: seq<Source>) {
    forall i :: 0 <= i < |sources| ==> |sources[i].digest| == DIGEST_SIZE
  }

  /** What the generator passes: values short enough, SHA-256 digests, and the distinct
      names of a dictionary. */
  predicate WellFormed(inputs: seq<Input>, sources: seq<Source>, a: Bytes, b: Bytes) {
    && Encodable(inputs, sources, a, b)
    && (forall i :: 0 <= i < |inputs| ==> Unmistakable(inputs[i]))
    && Digests(sources)
    && Ordering.Distinct(sources, SourceName)
  }

  lemma OrderedDigests(sources: seq<Source>)
    requires Digests(sources)
    ensures Digests(InOrder(sources))
  {
    var ordered := InOrder(sources);
    forall i | 0 <= i < |ordered| ensures |ordered[i].digest| == DIGEST_SIZE {
      Ordering.SameMember(ordered, sources, ordered[i]);
    }
  }

  /** Equal in every part; sources are a dictionary, so their order does not matter. */
  predicate SameProfile(inputs: seq<Input>, sources: seq<Source>, a: Bytes, b: Bytes,
                        inputs': seq<Input>, sources': seq<Source>, a': Bytes, b': Bytes) {
    inputs == inputs' && multiset(sources) == multiset(sources') && a == a' && b == b'
  }

  /** The same properties are present, and the sources in order have digests of the same
      lengths. */
  predicate SameShape(inputs: seq<Input>, sources: seq<Source>, inputs': seq<Input>, sources': seq<Source>) {
    && (forall i :: 0 <= i < |inputs| && i < |inputs'| ==> (inputs[i].value.Some? <==> inputs'[i].value.Some?))
    && DigestLengths(InOrder(sources)) == DigestLengths(InOrder(sources'))
  }

  /** Equal profiles have equal preimages. */
  lemma SameProfileSamePreimage(inputs: seq<Input>, sources: seq<Source>, a: Bytes, b: Bytes,
                                inputs': seq<Input>, sources': seq<Source>, a': Bytes, b': Bytes)
    requires Encodable(inputs, sources, a, b) && Encodable(inputs', sources', a', b')
    requires Ordering.Distinct(sources, SourceName) && Ordering.Distinct(sources', SourceName)
    requires SameProfile(inputs, sources, a, b, inputs', sources', a', b')
    ensures Preimage(inputs, sources, a, b) == Preimage(inputs', sources', a', b')
    ensures SameShape(inputs, sources, inputs', sources')
  {
    hide EncodedInputs, EncodedSources, Length, InOrder, Block;
    OrderMeans(sources, sources');
    assert |sources| == |multiset(sources)| == |sources'|;
  }

  /** The digested byte string identifies the profile: two well-formed profiles share it
      exactly when they have the same inputs in the same order, the same sources in
      whatever order, and the same two blobs. */
  lemma PreimageIdentifies(inputs: seq<Input>, sources: seq<Source>, a: Bytes, b: Bytes,
                           inputs': seq<Input>, sources': seq<Source>, a': Bytes, b': Bytes)
    requires WellFormed(inputs, sources, a, b) && WellFormed(inputs', sources', a', b')
    ensures Preimage(inputs, sources, a, b) == Preimage(inputs', sources', a', b') <==>
      SameProfile(inputs, sources, a, b, inputs', sources', a', b')
  {
    hide Preimage, InOrder, Encodable, SameProfile;
    if Preimage(inputs, sources, a, b) == Preimage(inputs', sources', a', b') {
      OrderedDigests(sources);
      OrderedDigests(sources');
      assert AllTellable(inputs, inputs') by { hide EncodableInput; }
      PreimageDetermines(inputs, sources, a, b, inputs', sources', a', b');
    }
    if SameProfile(inputs, sources, a, b, inputs', sources', a', b') {
      SameProfileSamePreimage(inputs, sources, a, b, inputs', sources', a', b');
    }
  }

  /** Without those sizes it may not: two profiles that share a preimage are the same exactly
      when they have the same shape. */
  lemma PreimageAmbiguity(inputs: seq<Input>, sources: seq<Source>, a: Bytes, b: Bytes,
                          inputs': seq<Input>, sources': seq<Source>, a': Bytes, b': Bytes)
    requires Encodable(inputs, sources, a, b) && Encodable(inputs', sources', a', b')
    requires Ordering.Distinct(sources, SourceName) && Ordering.Distinct(sources', SourceName)
    requires Preimage(inputs, sources, a, b) == Preimage(inputs', sources', a', b')
    ensures SameProfile(inputs, sources, a, b, inputs', sources', a', b') <==> SameShape(inputs, sources, inputs', sources')
  {
    hide Preimage, InOrder, Encodable, SameProfile;
    if SameShape(inputs, sources, inputs', sources') {
      PreimageDetermines(inputs, sources, a, b, inputs', sources', a', b');
    }
    if SameProfile(inputs, sources, a, b, inputs', sources', a', b') {
      SameProfileSamePreimage(inputs, sources, a, b, inputs', sources', a', b');
    }
  }

  lemma PreimageDetermines(inputs: seq<Input>, sources: seq<Source>, a: Bytes, b: Bytes,
                           inputs': seq<Input>, sources': seq<Source>, a': Bytes, b': Bytes)
    requires Encodable(inputs, sources, a, b) && Encodable(inputs', sources', a', b')
    requires Ordering.Distinct(sources, SourceName) && Ordering.Distinct(sources', SourceName)
    requires Preimage(inputs, sources, a, b) == Preimage(inputs', sources', a', b')
    requires AllTellable(inputs, inputs')
    requires |InOrder(sources)| == |InOrder(sources')| ==> DigestLengths(InOrder(sources)) == DigestLengths(InOrder(sources'))
    ensures SameProfile(inputs, sources, a, b, inputs', sources', a', b')
  {
    hide EncodedInputs, EncodedSources, Length, InOrder, Block, EncodableInputs, EncodableSources;
    PreimageSplits(inputs, InOrder(sources), a, b, inputs', InOrder(sources'), a', b');
    OrderMeans(sources, sources');
  }

  lemma OrderMeans(sources: seq<Source>, sources': seq<Source>)
    requires Ordering.Distinct(sources, SourceName) && Ordering.Distinct(sources', SourceName)
    ensures InOrder(sources) == InOrder(sources') <==> multiset(sources) == multiset(sources')
  {
    Ordering.SortForgetsOrder(sources, sources', SourceName);
  }

  /** The proof of the injective half, on sources already sorted. */
  lemma PreimageSplits(inputs: seq<Input>, sources: seq<Source>, a: Bytes, b: Bytes,
                       inputs': seq<Input>, sources': seq<Source>, a': Bytes, b': Bytes)
    requires |inputs| <= MAX_U32 && |sources| <= MAX_U32 && |a| <= MAX_U32 && |b| <= MAX_U32
    requires |inputs'| <= MAX_U32 && |sources'| <= MAX_U32 && |a'| <= MAX_U32 && |b'| <= MAX_U32
    requires EncodableInputs(inputs) && EncodableInputs(inputs') && AllTellable(inputs, inputs')
    requires EncodableSources(sources) && EncodableSources(sources')
    requires |sources| == |sources'| ==> DigestLengths(sources) == DigestLengths(sources')
    requires TAG + (Length(|inputs|) + EncodedInputs(inputs)) + (Length(|sources|) + EncodedSources(sources)) + Block(a) + Block(b)
          == TAG + (Length(|inputs'|) + EncodedInputs(inputs')) + (Length(|sources'|) + EncodedSources(sources')) + Block(a') + Block(b')
    ensures inputs == inputs' && sources == sources' && a == a' && b == b'
  {
    hide EncodedInputs, EncodedSources, Length, Block, EncodableInputs, EncodableSources, AllTellable;
    var (m, m') := (Length(|inputs|), Length(|inputs'|));
    var (n, n') := (Length(|sources|), Length(|sources'|));
    var (i, i') := (EncodedInputs(inputs), EncodedInputs(inputs'));
    var (s, s') := (EncodedSources(sources), EncodedSources(sources'));
    var (r, r') := (Block(a) + Block(b), Block(a') + Block(b'));
    Reassociate(TAG, m, i, n, s, Block(a), Block(b));
    Reassociate(TAG, m', i', n', s', Block(a'), Block(b'));
    Splits(TAG, m + (i + (n + (s + r))), TAG, m' + (i' + (n' + (s' + r'))));
    Splits(m, i + (n + (s + r)), m', i' + (n' + (s' + r')));
    LengthInjective(|inputs|, |inputs'|);
    InputsSplit(inputs, n + (s + r), inputs', n' + (s' + r'));
    Splits(n, s + r, n', s' + r');
    LengthInjective(|sources|, |sources'|);
    SourcesSplit(sources, r, sources', r');
    BlockSplits(a, Block(b), a', Block(b'));
    assert Block(b) + [] == Block(b) && Block(b') + [] == Block(b');
    BlockSplits(b, [], b', []);
  }

  lemma Reassociate(t: Bytes, m: Bytes, i: Bytes, n: Bytes, s: Bytes, a: Bytes, b: Bytes)
    ensures t + (m + i) + (n + s) + a + b == t + (m + (i + (n + (s + (a + b)))))
  {
  }

  /** Without fixed-size digests the promise fails: these two profiles differ and share
      their preimage, because a digest is not length-prefixed. */
  lemma LooseDigestsCollide()
    ensures var (sources, sources') := ([Source("", [4, 0, 0, 0])], [Source("", [])]);
      && Encodable([], sources, [], []) && Encodable([], sources', [0, 0, 0, 0], [])
      && Preimage([], sources, [], []) == Preimage([], sources', [0, 0, 0, 0], [])
  {
    hide Length, TAG;
    SmallLengths();
    OneSource([4, 0, 0, 0]);
    OneSource([]);
    EmptyEncodings();
    var x: Bytes, y: Bytes := [0, 0, 0, 0], [4, 0, 0, 0];
    assert Block([]) == x && Block([0, 0, 0, 0]) == y + x;
    var opening := TAG + (Length(0) + EncodedInputs([]));
    Shift(opening, Length(1), x, y);
  }

  lemma Shift(opening: Bytes, n: Bytes, x: Bytes, y: Bytes)
    ensures opening + (n + (x + y)) + x + x == opening + (n + x) + (y + x) + x
  {
  }

  lemma OneSource(digest: Bytes)
    ensures InOrder([Source("", digest)]) == [Source("", digest)]
    ensures EncodableSources([Source("", digest)])
    ensures EncodedSources([Source("", digest)]) == [0, 0, 0, 0] + digest
  {
    var source := Source("", digest);
    SmallLengths();
    assert [source][1..] == [];
    assert Ascii("") == [];
    assert Block(Ascii("")) == [0, 0, 0, 0];
    assert EncodedSources([source]) == EncodedSource(source) + [];
  }

  lemma SmallLengths()
    ensures Length(0) == [0, 0, 0, 0] && Length(4) == [4, 0, 0, 0]
  {
    Widths();
    assert PackUint(0, 2) == [0, 0] && PackUint(0, 3) == [0] + PackUint(0, 2);
    assert PackUint(4, 4) == [4] + PackUint(0, 3) && PackUint(0, 4) == [0] + PackUint(0, 3);
  }
}
