/** Bytes, C strings and big-endian 16/32-bit fields, shared by every codec of the model. */
module Bytes {

  type byte = x: int | 0 <= x < 256

  type bytes = seq<byte>

  /** The transmit buffer: its fixed size and the length of the header in front of the first name. */
  const MAX_PACKET_SIZE := 1460
  const HEAD_LEN := 12

  datatype Option<+T> = None | Some(value: T)

  /** The text a C string function sees in a buffer: everything before the first NUL. */
  function CStr(a: bytes): (s: bytes)
    ensures |s| <= |a| && s == a[..|s|]
    ensures 0 !in s
    ensures |s| < |a| ==> a[|s|] == 0
  {
    if a == [] || a[0] == 0 then [] else [a[0]] + CStr(a[1..])
  }

  /** A buffer without NUL is its own text. */
  lemma CStrOfText(a: bytes)
    requires 0 !in a
    ensures CStr(a) == a
  {
  }

  function Lower(b: byte): byte {
    if 65 <= b <= 90 then b + 32 else b
  }

  /** strcasecmp(a, b) == 0. */
  predicate SameText(a: bytes, b: bytes) {
    |a| == |b| && forall i :: 0 <= i < |a| ==> Lower(a[i]) == Lower(b[i])
  }

  /** Conversion to uint8_t. */
  function Narrow(n: nat): byte {
    if n < 256 then n else Narrow(n - 256)
  }

  lemma {:induction false} NarrowIsModulo(n: nat)
    ensures Narrow(n) == n % 256
  {
    if n >= 256 {
      NarrowIsModulo(n - 256);
    }
  }

  /** The two bytes of a 16-bit field in network order. */
  function U16(v: nat): (b: bytes)
    ensures |b| == 2
  {
    [Narrow(v / 256), Narrow(v)]
  }

  function ReadU16(p: bytes, at: nat): (v: nat)
    requires at + 2 <= |p|
  {
    p[at] as int * 256 + p[at + 1] as int
  }

  function U32(v: nat): (b: bytes)
    ensures |b| == 4
  {
    U16(v / 0x1_0000) + U16(v)
  }

  function ReadU32(p: bytes, at: nat): (v: nat)
    requires at + 4 <= |p|
  {
    p[at] as int * 0x100_0000 + p[at + 1] as int * 0x1_0000 + p[at + 2] as int * 256 + p[at + 3] as int
  }

  lemma U16RoundTrip(v: nat)
    requires v < 0x1_0000
    ensures ReadU16(U16(v), 0) == v
  {
    NarrowIsModulo(v);
  }

  lemma U32RoundTrip(v: nat)
    requires v < 0x1_0000_0000
    ensures ReadU32(U32(v), 0) == v
  {
    U16RoundTrip(v / 0x1_0000);
    NarrowIsModulo(v / 256);
    NarrowIsModulo(v);
    assert v / 256 / 256 == v / 0x1_0000;
  }

  /** Network order: the high byte comes first. */
  lemma NetworkOrder(v: nat)
    requires v < 0x1_0000
    ensures U16(v) == [v / 256, v % 256]
  {
    NarrowIsModulo(v / 256);
    NarrowIsModulo(v);
  }

  lemma NetworkOrder32(v: nat)
    requires v < 0x1_0000_0000
    ensures U32(v) == [v / 0x100_0000, v / 0x1_0000 % 256, v / 256 % 256, v % 256]
  {
    NetworkOrder(v / 0x1_0000);
    NarrowIsModulo(v / 256);
    NarrowIsModulo(v);
    assert v / 0x1_0000 / 256 == v / 0x100_0000;
  }
}
