/** Machine-level data: bytes, fixed-width integers and the little-endian
    byte order in which a 64-bit target stores them. */
module Machine {

  /** An unsigned 8-bit byte (`u8`, and `c_char` read as unsigned). */
  newtype Byte = x: int | 0 <= x < 256

  const TWO_31: int := 0x8000_0000
  const TWO_63: int := 0x8000_0000_0000_0000
  const TWO_64: int := 0x1_0000_0000_0000_0000

  /** Rust's `i64`. */
  type Int64 = x: int | -TWO_63 <= x < TWO_63

  /** Rust's `i32`, and C's `int` on the targets the library supports. */
  type Int32 = x: int | -TWO_31 <= x < TWO_31

  /** The IEEE-754 bit pattern of an `f32`; the model never interprets it. */
  type Float32Bits = x: int | 0 <= x < 0x1_0000_0000

  /** 256 to the power n: the number of values n bytes can hold. */
  function Pow256(n: nat): (r: nat)
    ensures r > 0
  {
    if n == 0 then 1 else 256 * Pow256(n - 1)
  }

  /** The unsigned value of a little-endian byte string. */
  function LeValue(b: seq<Byte>): (v: nat)
    ensures v < Pow256(|b|)
  {
    if b == [] then 0 else b[0] as nat + 256 * LeValue(b[1..])
  }

  /** The n little-endian bytes of v, keeping only its low 8 * n bits. */
  function LeBytes(v: nat, n: nat): (b: seq<Byte>)
    ensures |b| == n
  {
    if n == 0 then [] else [(v % 256) as Byte] + LeBytes(v / 256, n - 1)
  }

  /** Writing a value that fits and reading it back gives the value. */
  lemma {:induction false} LeValueOfLeBytes(v: nat, n: nat)
    requires v < Pow256(n)
    ensures LeValue(LeBytes(v, n)) == v
  {
    if n > 0 {
      LeValueOfLeBytes(v / 256, n - 1);
      assert LeBytes(v, n)[1..] == LeBytes(v / 256, n - 1);
    }
  }

  /** Reading bytes and writing the value back gives the same bytes. */
  lemma {:induction false} LeBytesOfLeValue(b: seq<Byte>)
    ensures LeBytes(LeValue(b), |b|) == b
  {
    if b != [] {
      var rest := LeValue(b[1..]);
      assert (b[0] as nat + 256 * rest) % 256 == b[0] as nat;
      assert (b[0] as nat + 256 * rest) / 256 == rest;
      LeBytesOfLeValue(b[1..]);
    }
  }

  /** The `i64` whose two's-complement bit pattern is the 8 bytes b,
      stored least significant byte first: what copying 8 bytes into an
      `i64` yields on a little-endian target. */
  function I64FromLe(b: seq<Byte>): (x: Int64)
    requires |b| == 8
  {
    var u := LeValue(b);
    assert Pow256(8) == TWO_64;
    if u < TWO_63 then u else u - TWO_64
  }

  /** The 8 bytes in which a little-endian target stores the `i64` x. */
  function I64ToLe(x: Int64): (b: seq<Byte>)
    ensures |b| == 8
  {
    LeBytes(if x >= 0 then x else x + TWO_64, 8)
  }

  /** Storing an `i64` and copying its 8 bytes back yields the same `i64`. */
  lemma I64RoundTrip(x: Int64)
    ensures I64FromLe(I64ToLe(x)) == x
  {
    assert Pow256(8) == TWO_64;
    LeValueOfLeBytes(if x >= 0 then x else x + TWO_64, 8);
  }

  /** Every 8-byte pattern is the storage of exactly the `i64` read from it. */
  lemma I64BytesRoundTrip(b: seq<Byte>)
    requires |b| == 8
    ensures I64ToLe(I64FromLe(b)) == b
  {
    assert Pow256(8) == TWO_64;
    LeBytesOfLeValue(b);
  }
}
