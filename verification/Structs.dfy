/** Python's `struct` module for little-endian layouts made of unsigned integers
    and fixed-width byte strings.  Every binary format of the repository is one
    `Layout`; packing and unpacking are proved mutually inverse once, here. */
module Structs {

  type byte = x: int | 0 <= x < 256
  type Bytes = seq<byte>
  type u32 = x: int | 0 <= x < 0x1_0000_0000

  /** The number of values an unsigned integer of `width` bytes can take. */
  function Pow256(width: nat): (r: nat)
    ensures 1 <= r
  {
    if width == 0 then 1 else 256 * Pow256(width - 1)
  }

  /** 2, 4 and 8 bytes are the only widths the formats use. */
  lemma Widths()
    ensures Pow256(2) == 0x1_0000
    ensures Pow256(4) == 0x1_0000_0000
    ensures Pow256(8) == 0x1_0000_0000_0000_0000
  {
    assert Pow256(4) == 256 * (256 * Pow256(2));
    assert Pow256(6) == 256 * (256 * Pow256(4));
    assert Pow256(8) == 256 * (256 * Pow256(6));
  }

  function PackUint(value: nat, width: nat): (r: Bytes)
    requires value < Pow256(width)
    ensures |r| == width
  {
    if width == 0 then [] else [value % 256] + PackUint(value / 256, width - 1)
  }

  function UnpackUint(data: Bytes): (r: nat)
    ensures r < Pow256(|data|)
  {
    if data == [] then 0 else data[0] + 256 * UnpackUint(data[1..])
  }

  lemma {:induction false} UnpackPackUint(value: nat, width: nat)
    requires value < Pow256(width)
    ensures UnpackUint(PackUint(value, width)) == value
  {
    if width > 0 {
      UnpackPackUint(value / 256, width - 1);
      assert PackUint(value, width)[1..] == PackUint(value / 256, width - 1);
    }
  }

  lemma {:induction false} PackUnpackUint(data: Bytes)
    ensures PackUint(UnpackUint(data), |data|) == data
  {
    if data != [] {
      PackUnpackUint(data[1..]);
      assert UnpackUint(data) / 256 == UnpackUint(data[1..]);
      assert UnpackUint(data) % 256 == data[0];
    }
  }

  datatype Field = Uint(width: nat) | Chars(width: nat)
  datatype Value = Num(n: nat) | Raw(bytes: Bytes)
  type Layout = seq<Field>

  /** `struct.calcsize` */
  function Size(layout: Layout): nat {
    if layout == [] then 0 else layout[0].width + Size(layout[1..])
  }

  /** Layout sizes add up. */
  lemma {:induction false} SizeSplits(layout: Layout, n: nat)
    requires n <= |layout|
    ensures Size(layout) == Size(layout[..n]) + Size(layout[n..])
  {
    if n == 0 {
      assert layout[0..] == layout;
    } else {
      SizeSplits(layout[1..], n - 1);
      assert layout[..n][1..] == layout[1..][..n - 1];
      assert layout[1..][n - 1..] == layout[n..];
    }
  }

  predicate Fits(field: Field, value: Value) {
    match field
    case Uint(width) => value.Num? && value.n < Pow256(width)
    case Chars(width) => value.Raw? && |value.bytes| == width
  }

  predicate AllFit(layout: Layout, values: seq<Value>) {
    && |values| == |layout|
    && forall i :: 0 <= i < |layout| ==> Fits(layout[i], values[i])
  }

  function PackField(field: Field, value: Value): (r: Bytes)
    requires Fits(field, value)
    ensures |r| == field.width
  {
    match field
    case Uint(width) => PackUint(value.n, width)
    case Chars(_) => value.bytes
  }

  function UnpackField(field: Field, data: Bytes): (r: Value)
    requires |data| == field.width
    ensures Fits(field, r)
  {
    match field
    case Uint(_) => Num(UnpackUint(data))
    case Chars(_) => Raw(data)
  }

  /** `Struct.pack` on values that fit; anything else raises `struct.error`. */
  function Pack(layout: Layout, values: seq<Value>): (r: Bytes)
    requires AllFit(layout, values)
    ensures |r| == Size(layout)
  {
    if layout == [] then [] else
      PackField(layout[0], values[0]) + Pack(layout[1..], values[1..])
  }

  /** `Struct.unpack` on exactly `calcsize` bytes. */
  function Unpack(layout: Layout, data: Bytes): (r: seq<Value>)
    requires |data| == Size(layout)
    ensures AllFit(layout, r)
  {
    if layout == [] then [] else
      var width := layout[0].width;
      [UnpackField(layout[0], data[..width])] + Unpack(layout[1..], data[width..])
  }

  /** Packing loses nothing: every field reads back. */
  lemma {:induction false} UnpackPack(layout: Layout, values: seq<Value>)
    requires AllFit(layout, values)
    ensures Unpack(layout, Pack(layout, values)) == values
  {
    if layout != [] {
      var head := PackField(layout[0], values[0]);
      var tail := Pack(layout[1..], values[1..]);
      UnpackPack(layout[1..], values[1..]);
      assert (head + tail)[..|head|] == head && (head + tail)[|head|..] == tail;
      if layout[0].Uint? {
        UnpackPackUint(values[0].n, layout[0].width);
      }
    }
  }

  /** Unpacking loses nothing: the bytes are the packing of the fields read. */
  lemma {:induction false} PackUnpack(layout: Layout, data: Bytes)
    requires |data| == Size(layout)
    ensures Pack(layout, Unpack(layout, data)) == data
  {
    if layout != [] {
      var width := layout[0].width;
      PackUnpack(layout[1..], data[width..]);
      if layout[0].Uint? {
        PackUnpackUint(data[..width]);
      }
      assert data == data[..width] + data[width..];
    }
  }

  /** `b"\0" * n` */
  function Zeros(n: nat): (r: Bytes)
    ensures |r| == n && forall i :: 0 <= i < n ==> r[i] == 0
  {
    seq(n, _ => 0)
  }
}
