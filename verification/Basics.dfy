/** Small shared vocabulary: results of operations that may fail, optional values,
    and the fixed-width integers every Flight structure is built from. */
module Basics {

  datatype Option<+T> = None | Some(value: T)

  datatype Result<+T, +E> = Ok(value: T) | Err(error: E)

  type Byte = b: int | 0 <= b < 256
  type Bytes = seq<Byte>

  const U16: nat := 0x1_0000
  const U32: nat := 0x1_0000_0000
  const U64: nat := 0x1_0000_0000_0000_0000

  function Min(a: int, b: int): (m: int) { if a <= b then a else b }
  function Max(a: int, b: int): (m: int) { if a <= b then b else a }

  function SetOf<T>(s: seq<T>): set<T> { set x | x in s }

  /** 256 to the power `width`. */
  function Pow256(width: nat): (p: nat)
    ensures p >= 1
  {
    if width == 0 then 1 else 256 * Pow256(width - 1)
  }

  lemma Pow256Values()
    ensures Pow256(2) == U16 && Pow256(4) == U32 && Pow256(8) == U64
  {
    assert Pow256(1) == 256;
    assert Pow256(2) == 256 * Pow256(1);
    assert Pow256(3) == 256 * Pow256(2);
    assert Pow256(4) == 256 * Pow256(3);
    assert Pow256(5) == 256 * Pow256(4);
    assert Pow256(6) == 256 * Pow256(5);
    assert Pow256(7) == 256 * Pow256(6);
    assert Pow256(8) == 256 * Pow256(7);
  }

  // ----- little-endian integers (the artifact's wire order)

  function FromLittle(bytes: Bytes): (value: nat) {
    if bytes == [] then 0 else bytes[0] + 256 * FromLittle(bytes[1..])
  }

  function ToLittle(value: nat, width: nat): (bytes: Bytes)
    ensures |bytes| == width
  {
    if width == 0 then [] else [value % 256] + ToLittle(value / 256, width - 1)
  }

  lemma {:induction false} FromLittleBound(bytes: Bytes)
    ensures FromLittle(bytes) < Pow256(|bytes|)
  {
    if bytes != [] { FromLittleBound(bytes[1..]); }
  }

  lemma {:induction false} LittleDecodesEncoded(value: nat, width: nat)
    requires value < Pow256(width)
    ensures FromLittle(ToLittle(value, width)) == value
  {
    if width > 0 {
      assert value / 256 < Pow256(width - 1);
      LittleDecodesEncoded(value / 256, width - 1);
      assert ToLittle(value, width)[1..] == ToLittle(value / 256, width - 1);
    }
  }

  lemma {:induction false} LittleEncodesDecoded(bytes: Bytes)
    ensures ToLittle(FromLittle(bytes), |bytes|) == bytes
  {
    if bytes != [] {
      LittleEncodesDecoded(bytes[1..]);
      var rest := FromLittle(bytes[1..]);
      assert (bytes[0] + 256 * rest) % 256 == bytes[0] && (bytes[0] + 256 * rest) / 256 == rest;
    }
  }

  // ----- big-endian keys (the SQLite blobs of the scene index and the spill tables)

  function FromBig(bytes: Bytes): (value: nat) {
    if bytes == [] then 0 else 256 * FromBig(bytes[..|bytes| - 1]) + bytes[|bytes| - 1]
  }

  function ToBig(value: nat, width: nat): (bytes: Bytes)
    ensures |bytes| == width
  {
    if width == 0 then [] else ToBig(value / 256, width - 1) + [value % 256]
  }

  /** The byte order SQLite uses to compare two blobs. */
  predicate BlobLess(a: Bytes, b: Bytes) {
    if a == [] then b != []
    else b != [] && (a[0] < b[0] || (a[0] == b[0] && BlobLess(a[1..], b[1..])))
  }

  lemma {:induction false} BigDecodesEncoded(value: nat, width: nat)
    requires value < Pow256(width)
    ensures FromBig(ToBig(value, width)) == value
  {
    if width > 0 {
      assert value / 256 < Pow256(width - 1);
      BigDecodesEncoded(value / 256, width - 1);
      assert ToBig(value, width)[..width - 1] == ToBig(value / 256, width - 1);
    }
  }

  /** Appending one byte to each of two equally long blobs. */
  lemma {:induction false} BlobLessAppend(a: Bytes, b: Bytes, x: Byte, y: Byte)
    requires |a| == |b|
    ensures BlobLess(a + [x], b + [y]) <==> BlobLess(a, b) || (a == b && x < y)
  {
    if a == [] {
      assert a + [x] == [x] && b + [y] == [y];
    } else {
      BlobLessAppend(a[1..], b[1..], x, y);
      assert (a + [x])[1..] == a[1..] + [x] && (b + [y])[1..] == b[1..] + [y];
      assert a == b <==> a[0] == b[0] && a[1..] == b[1..];
    }
  }

  /** Blob order of equally wide keys is numeric order. */
  lemma {:induction false} BigPreservesOrder(a: nat, b: nat, width: nat)
    requires a < Pow256(width) && b < Pow256(width)
    ensures BlobLess(ToBig(a, width), ToBig(b, width)) <==> a < b
  {
    if width > 0 {
      var m, n := a / 256, b / 256;
      assert m < Pow256(width - 1) && n < Pow256(width - 1);
      BigPreservesOrder(m, n, width - 1);
      BigInjective(m, n, width - 1);
      BlobLessAppend(ToBig(m, width - 1), ToBig(n, width - 1), a % 256, b % 256);
      hide BlobLess, Pow256;
      assert a < b <==> m < n || (m == n && a % 256 < b % 256);
    }
  }

  lemma BigInjective(a: nat, b: nat, width: nat)
    requires a < Pow256(width) && b < Pow256(width)
    ensures ToBig(a, width) == ToBig(b, width) <==> a == b
  {
    BigDecodesEncoded(a, width);
    BigDecodesEncoded(b, width);
  }
}
