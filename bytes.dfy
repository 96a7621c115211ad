// Machine integer types and byte-level helpers shared by the firmware and
// host-side models: C's fixed-width integers with their wrap-around, C's
// truncating division, and the little-endian 32-bit layout used on the wire.

module Bytes {

  type byte = b: int | 0 <= b < 0x100
  type uint8 = x: int | 0 <= x < 0x100
  type uint16 = x: int | 0 <= x < 0x1_0000
  type uint32 = x: int | 0 <= x < 0x1_0000_0000
  type int8 = x: int | -0x80 <= x < 0x80
  type int16 = x: int | -0x8000 <= x < 0x8000
  type int32 = x: int | -0x8000_0000 <= x < 0x8000_0000

  const UINT32_MODULUS: int := 0x1_0000_0000

  datatype Option<T> = None | Some(value: T)

  datatype Result<T> = Success(value: T) | Failure(error: string)

  /** The elements of an optional value, as a sequence of length 0 or 1. */
  function OptionToSeq<T>(o: Option<T>): (r: seq<T>)
    ensures |r| == (if o.Some? then 1 else 0)
    ensures o.Some? ==> r[0] == o.value
  {
    if o.Some? then [o.value] else []
  }

  /** uint32_t addition: the mathematical sum reduced modulo 2^32. */
  function Add32(a: uint32, b: uint32): (r: uint32)
    ensures a + b < UINT32_MODULUS ==> r == a + b
    ensures a + b >= UINT32_MODULUS ==> r == a + b - UINT32_MODULUS
  {
    (a + b) % UINT32_MODULUS
  }

  /** uint32_t subtraction: wraps to a large value when b > a. */
  function Sub32(a: uint32, b: uint32): (r: uint32)
    ensures b <= a ==> r == a - b
    ensures a < b ==> r == a - b + UINT32_MODULUS
  {
    (a - b) % UINT32_MODULUS
  }

  /** A uint32_t counter's ++. */
  function Inc32(a: uint32): (r: uint32)
    ensures a < UINT32_MODULUS - 1 ==> r == a + 1
    ensures a == UINT32_MODULUS - 1 ==> r == 0
  {
    Add32(a, 1)
  }

  /** C's integer division of a by a positive divisor, which truncates toward zero
    * (Dafny's own / rounds toward negative infinity for negative a). */
  function TruncDiv(a: int, d: int): (q: int)
    requires d > 0
    ensures a >= 0 ==> d * q <= a < d * q + d
    ensures a < 0 ==> d * q - d < a <= d * q
  {
    if a >= 0 then a / d else -((-a) / d)
  }

  /** The conversion (int16_t)x: keeps the low 16 bits, read as two's complement. */
  function WrapInt16(x: int): (r: int16)
    ensures -0x8000 <= x < 0x8000 ==> r == x
    ensures (r - x) % 0x1_0000 == 0
  {
    var m := x % 0x1_0000;
    if m >= 0x8000 then m - 0x1_0000 else m
  }

  /** The four bytes of a uint32 in little-endian order (struct.pack('<I', x),
    * or the in-memory layout of a uint32_t on the targets). */
  function LE32(x: uint32): (r: seq<byte>)
    ensures |r| == 4
  {
    [x % 0x100, (x / 0x100) % 0x100, (x / 0x1_0000) % 0x100, x / 0x100_0000]
  }

  /** Reads four little-endian bytes as a uint32 (struct.unpack('<I', s)). */
  function FromLE32(s: seq<byte>): (r: uint32)
    requires |s| == 4
  {
    s[0] as int + 0x100 * (s[1] as int) + 0x1_0000 * (s[2] as int) + 0x100_0000 * (s[3] as int)
  }

  lemma {:induction false} LE32RoundTrip(x: uint32)
    ensures FromLE32(LE32(x)) == x
  {
    var b := LE32(x);
    var q1 := x / 0x100;
    var q2 := x / 0x1_0000;
    assert x == b[0] + 0x100 * q1;
    assert q1 == b[1] + 0x100 * q2;
    assert q2 == b[2] as int + 0x100 * (b[3] as int);
  }

  lemma {:induction false} FromLE32RoundTrip(s: seq<byte>)
    requires |s| == 4
    ensures LE32(FromLE32(s)) == s
  {
    var x := FromLE32(s);
    var u := s[2] as int + 0x100 * (s[3] as int);   // x / 0x1_0000
    var t := s[1] as int + 0x100 * u;                // x / 0x100
    DivideAt(x, s[0], t, 0x100);
    DivideAt(t, s[1], u, 0x100);
    DivideAt(x, s[0] as int + 0x100 * (s[1] as int), u, 0x1_0000);
    DivideAt(u, s[2], s[3], 0x100);
    DivideAt(x, s[0] as int + 0x100 * (s[1] as int) + 0x1_0000 * (s[2] as int), s[3], 0x100_0000);
  }

  /** Division by a power of 256 splits x into its low part and the rest. */
  lemma DivideAt(x: int, lo: int, hi: int, d: int)
    requires d == 0x100 || d == 0x1_0000 || d == 0x100_0000
    requires 0 <= lo < d && x == lo + d * hi
    ensures x / d == hi && x % d == lo
  {
  }

  /** LE32 is injective: distinct timestamps never share an encoding. */
  lemma LE32Injective(x: uint32, y: uint32)
    ensures LE32(x) == LE32(y) ==> x == y
  {
    LE32RoundTrip(x);
    LE32RoundTrip(y);
  }

  /** Python's s[a:b] for non-negative bounds: clamped to the sequence. */
  function Slice<T>(s: seq<T>, a: nat, b: nat): (r: seq<T>)
    ensures a <= b <= |s| ==> r == s[a..b]
    ensures |r| == if a >= |s| || b <= a then 0 else (if b < |s| then b else |s|) - a
  {
    if a >= |s| || b <= a then [] else s[a..if b < |s| then b else |s|]
  }

  /** Python's s[a:] for a non-negative start. */
  function Drop<T>(s: seq<T>, a: nat): (r: seq<T>)
    ensures a <= |s| ==> r == s[a..]
    ensures a >= |s| ==> r == []
  {
    if a >= |s| then [] else s[a..]
  }

  /** bytes.rstrip(b'\x00'): removes every trailing NUL byte. */
  function RStripNul(s: seq<byte>): (r: seq<byte>)
    ensures |r| <= |s| && r == s[..|r|]
    ensures r == [] || r[|r| - 1] != 0
    ensures forall i :: |r| <= i < |s| ==> s[i] == 0
  {
    if s == [] || s[|s| - 1] != 0 then s else RStripNul(s[..|s| - 1])
  }

  /** n zero bytes. */
  function Zeros(n: nat): (r: seq<byte>)
    ensures |r| == n && forall i :: 0 <= i < n ==> r[i] == 0
  {
    seq(n, _ => 0)
  }
}
