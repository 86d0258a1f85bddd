/** Byte strings and the two buffer operations the storage nodes apply to them. */
module ByteSeq {

  type byte = x: int | 0 <= x < 256
  type Bytes = seq<byte>

  /** Number of values of an unsigned 16-bit and an unsigned 32-bit field. */
  const U16 := 0x1_0000
  const U32 := 0x1_0000_0000

  datatype Option<+T> = None | Some(value: T)

  function Min(a: int, b: int): int {
    if a <= b then a else b
  }

  function Max(a: int, b: int): int {
    if a <= b then b else a
  }

  function Zeros(n: nat): (z: Bytes)
    ensures |z| == n && forall i :: 0 <= i < n ==> z[i] == 0
  {
    seq(n, i => 0)
  }

  /** `resize`: truncate, or extend with zero bytes. */
  function Resize(b: Bytes, n: nat): (r: Bytes)
    ensures |r| == n
    ensures forall i :: 0 <= i < n ==> r[i] == if i < |b| then b[i] else 0
  {
    if n <= |b| then b[..n] else b + Zeros(n - |b|)
  }

  /** `copy`: overwrite the bytes from position `at` on. */
  function CopyInto(b: Bytes, at: nat, d: Bytes): (r: Bytes)
    requires at + |d| <= |b|
    ensures |r| == |b|
    ensures forall i :: 0 <= i < |b| ==> r[i] == if at <= i < at + |d| then d[i - at] else b[i]
  {
    b[..at] + d + b[at + |d|..]
  }

  /** The merged block of a prepare: grow the old block if needed, then overwrite. */
  function Overlay(block: Bytes, at: nat, d: Bytes): (r: Bytes)
    ensures |r| == Max(at + |d|, |block|)
    ensures forall i :: 0 <= i < |r| ==>
              r[i] == if at <= i < at + |d| then d[i - at] else if i < |block| then block[i] else 0
  {
    CopyInto(Resize(block, Max(at + |d|, |block|)), at, d)
  }

  /** The byte at index `i` of a block, zero past its end. */
  function At(b: Bytes, i: nat): byte {
    if i < |b| then b[i] else 0
  }
}
