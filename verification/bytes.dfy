/**
 Bytes, little-endian integers and length-prefixed blobs, as the write-ahead log
 and the row codec lay them out.

 Writers are functions to byte sequences. Readers are functions from the bytes
 that are left to a value and the bytes that remain after it, or None where the
 source throws "truncated record".
 */
module Bytes {
  import opened Wrappers

  type byte = x: int | 0 <= x < 256
  type Blob = seq<byte>

  const U32_SIZE: nat := 0x1_0000_0000
  const U64_SIZE: nat := 0x1_0000_0000_0000_0000

  // ---- Writers ----

  /** The low 32 bits of v, least significant byte first. Higher bits are cut off, as the cast does. */
  function PutU32(v: nat): (s: Blob)
    ensures |s| == 4
  {
    [v % 256, v / 256 % 256, v / 256 / 256 % 256, v / 256 / 256 / 256 % 256]
  }

  function PutU64(v: nat): (s: Blob)
    ensures |s| == 8
  {
    PutU32(v % U32_SIZE) + PutU32(v / U32_SIZE)
  }

  function PutBlob(b: Blob): (s: Blob)
    ensures |s| == 4 + |b|
  {
    PutU32(|b|) + b
  }

  // ---- Readers ----

  /** The shifts and ors that reassemble a 32-bit word. */
  function Word(b0: byte, b1: byte, b2: byte, b3: byte): (w: nat)
    ensures w < U32_SIZE
  {
    b0 as int + 0x100 * (b1 as int) + 0x1_0000 * (b2 as int) + 0x100_0000 * (b3 as int)
  }

  function Take(s: Blob, n: nat): Option<(Blob, Blob)> {
    if |s| < n then None else Some((s[..n], s[n..]))
  }

  function GetU8(s: Blob): Option<(byte, Blob)> {
    if |s| < 1 then None else Some((s[0], s[1..]))
  }

  function GetU32(s: Blob): (r: Option<(nat, Blob)>)
    ensures r.Some? ==> r.value.0 < U32_SIZE
  {
    if |s| < 4 then None else Some((Word(s[0], s[1], s[2], s[3]), s[4..]))
  }

  function GetU64(s: Blob): (r: Option<(nat, Blob)>)
    ensures r.Some? ==> r.value.0 < U64_SIZE
  {
    if |s| < 8 then None
    else Some((Word(s[0], s[1], s[2], s[3]) + U32_SIZE * Word(s[4], s[5], s[6], s[7]), s[8..]))
  }

  function GetBlob(s: Blob): Option<(Blob, Blob)> {
    var (n, rest) :- GetU32(s);
    Take(rest, n)
  }

  // ---- Values read back ----

  lemma WordOfBytes(v: nat)
    requires v < U32_SIZE
    ensures Word(v % 256, v / 256 % 256, v / 256 / 256 % 256, v / 256 / 256 / 256 % 256) == v
  {
    var v1 := v / 256;
    var v2 := v1 / 256;
    var v3 := v2 / 256;
    assert v == 256 * v1 + v % 256;
    assert v1 == 256 * v2 + v1 % 256;
    assert v2 == 256 * v3 + v2 % 256;
    assert v3 < 256;
  }

  lemma GetU32Put(v: nat, rest: Blob)
    requires v < U32_SIZE
    ensures GetU32(PutU32(v) + rest) == Some((v, rest))
  {
    WordOfBytes(v);
    assert (PutU32(v) + rest)[4..] == rest;
  }

  lemma GetU64Put(v: nat, rest: Blob)
    requires v < U64_SIZE
    ensures GetU64(PutU64(v) + rest) == Some((v, rest))
  {
    var low, high := PutU32(v % U32_SIZE), PutU32(v / U32_SIZE);
    WordOfBytes(v % U32_SIZE);
    WordOfBytes(v / U32_SIZE);
    var s := low + high + rest;
    assert s[..4] == low && s[4..8] == high && s[8..] == rest;
    assert Word(s[0], s[1], s[2], s[3]) == v % U32_SIZE && Word(s[4], s[5], s[6], s[7]) == v / U32_SIZE;
  }

  lemma GetBlobPut(b: Blob, rest: Blob)
    requires |b| < U32_SIZE
    ensures GetBlob(PutBlob(b) + rest) == Some((b, rest))
  {
    assert PutBlob(b) + rest == PutU32(|b|) + (b + rest);
    GetU32Put(|b|, b + rest);
    assert (b + rest)[..|b|] == b;
    assert (b + rest)[|b|..] == rest;
  }

  lemma GetBlobBound(s: Blob)
    ensures GetBlob(s).Some? ==> |GetBlob(s).value.0| < U32_SIZE
  {
  }

  // ---- More input never changes what was read ----

  lemma TakeExtend(s: Blob, n: nat, more: Blob)
    requires Take(s, n).Some?
    ensures Take(s + more, n) == Some((Take(s, n).value.0, Take(s, n).value.1 + more))
  {
    assert (s + more)[..n] == s[..n];
    assert (s + more)[n..] == s[n..] + more;
  }

  lemma GetU8Extend(s: Blob, more: Blob)
    requires GetU8(s).Some?
    ensures GetU8(s + more) == Some((GetU8(s).value.0, GetU8(s).value.1 + more))
  {
    assert (s + more)[1..] == s[1..] + more;
  }

  lemma GetU32Extend(s: Blob, more: Blob)
    requires GetU32(s).Some?
    ensures GetU32(s + more) == Some((GetU32(s).value.0, GetU32(s).value.1 + more))
  {
    assert (s + more)[4..] == s[4..] + more;
  }

  lemma GetU64Extend(s: Blob, more: Blob)
    requires GetU64(s).Some?
    ensures GetU64(s + more) == Some((GetU64(s).value.0, GetU64(s).value.1 + more))
  {
    assert (s + more)[8..] == s[8..] + more;
  }

  lemma GetBlobExtend(s: Blob, more: Blob)
    requires GetBlob(s).Some?
    ensures GetBlob(s + more) == Some((GetBlob(s).value.0, GetBlob(s).value.1 + more))
  {
    GetU32Extend(s, more);
    var (n, rest) := GetU32(s).value;
    TakeExtend(rest, n, more);
  }

  // ---- The layout, by example ----

  lemma LittleEndian()
    ensures PutU32(0x04030201) == [1, 2, 3, 4]
    ensures PutU64(0x0807060504030201) == [1, 2, 3, 4, 5, 6, 7, 8]
    ensures PutBlob([9, 8]) == [2, 0, 0, 0, 9, 8]
  {
    assert PutU64(0x0807060504030201) == PutU32(0x04030201) + PutU32(0x08070605);
  }
}
