/** UTF-8, with exactly the well-formedness rules Rust applies when it turns
    bytes into a `str` (`CStr::to_str`, `OsStr::to_str`): shortest forms
    only, no surrogate code points, nothing above U+10FFFF. */
module Utf8 {
  import opened Results
  import opened Machine

  /** A continuation byte 10xxxxxx. */
  predicate IsCont(b: Byte) {
    0x80 <= b < 0xC0
  }

  /** The bytes that encode one scalar value. */
  function EncodeChar(c: char): (b: seq<Byte>)
    ensures 1 <= |b| <= 4
  {
    var cp := c as int;
    if cp < 0x80 then
      [cp as Byte]
    else if cp < 0x800 then
      [(0xC0 + cp / 64) as Byte, (0x80 + cp % 64) as Byte]
    else if cp < 0x1_0000 then
      [(0xE0 + cp / 4096) as Byte, (0x80 + (cp / 64) % 64) as Byte, (0x80 + cp % 64) as Byte]
    else
      [(0xF0 + cp / 262144) as Byte, (0x80 + (cp / 4096) % 64) as Byte,
       (0x80 + (cp / 64) % 64) as Byte, (0x80 + cp % 64) as Byte]
  }

  /** The bytes of a text: what a Rust `String` holds. */
  function Encode(s: string): (b: seq<Byte>)
    ensures |b| >= |s|
  {
    if s == [] then [] else EncodeChar(s[0]) + Encode(s[1..])
  }

  /** The first scalar value of b and the number of bytes it occupies, or
      None when b does not start with a well-formed sequence. */
  function DecodeFirst(b: seq<Byte>): (r: Option<(char, nat)>)
    ensures r.Some? ==> 1 <= r.value.1 <= |b| && b[..r.value.1] == EncodeChar(r.value.0)
  {
    if b == [] then None
    else if b[0] < 0x80 then Some((b[0] as int as char, 1))
    else if 0xC2 <= b[0] <= 0xDF then DecodeTwo(b)
    else if 0xE0 <= b[0] <= 0xEF then DecodeThree(b)
    else if 0xF0 <= b[0] <= 0xF4 then DecodeFour(b)
    else None
  }

  /** A sequence led by C2..DF: one continuation byte follows. */
  function DecodeTwo(b: seq<Byte>): (r: Option<(char, nat)>)
    requires |b| >= 1 && 0xC2 <= b[0] <= 0xDF
    ensures r.Some? ==> 1 <= r.value.1 <= |b| && b[..r.value.1] == EncodeChar(r.value.0)
  {
    if |b| >= 2 && IsCont(b[1]) then
      var cp := (b[0] as int - 0xC0) * 64 + (b[1] as int - 0x80);
      Cont2(b[0] as int, b[1] as int);
      Some((cp as char, 2))
    else None
  }

  /** A sequence led by E0..EF: two continuation bytes follow; after E0 the
      first is at least A0 (no overlong form), after ED below A0 (no
      surrogate). */
  function DecodeThree(b: seq<Byte>): (r: Option<(char, nat)>)
    requires |b| >= 1 && 0xE0 <= b[0] <= 0xEF
    ensures r.Some? ==> 1 <= r.value.1 <= |b| && b[..r.value.1] == EncodeChar(r.value.0)
  {
    if |b| >= 3 && IsCont(b[1]) && IsCont(b[2])
       && (b[0] == 0xE0 ==> b[1] >= 0xA0) && (b[0] == 0xED ==> b[1] < 0xA0) then
      var cp := (b[0] as int - 0xE0) * 4096 + (b[1] as int - 0x80) * 64 + (b[2] as int - 0x80);
      Cont3(b[0] as int, b[1] as int, b[2] as int);
      Some((cp as char, 3))
    else None
  }

  /** A sequence led by F0..F4: three continuation bytes follow; after F0
      the first is at least 90 (no overlong form), after F4 below 90 (at
      most U+10FFFF). */
  function DecodeFour(b: seq<Byte>): (r: Option<(char, nat)>)
    requires |b| >= 1 && 0xF0 <= b[0] <= 0xF4
    ensures r.Some? ==> 1 <= r.value.1 <= |b| && b[..r.value.1] == EncodeChar(r.value.0)
  {
    if |b| >= 4 && IsCont(b[1]) && IsCont(b[2]) && IsCont(b[3])
       && (b[0] == 0xF0 ==> b[1] >= 0x90) && (b[0] == 0xF4 ==> b[1] < 0x90) then
      var cp := (b[0] as int - 0xF0) * 262144 + (b[1] as int - 0x80) * 4096
                + (b[2] as int - 0x80) * 64 + (b[3] as int - 0x80);
      Cont4(b[0] as int, b[1] as int, b[2] as int, b[3] as int);
      Some((cp as char, 4))
    else None
  }

  /** The text b encodes, or None when b is not well-formed UTF-8. */
  function Decode(b: seq<Byte>): (r: Option<string>)
    decreases |b|
  {
    if b == [] then Some([])
    else
      match DecodeFirst(b)
      case None => None
      case Some((c, n)) =>
        match Decode(b[n..])
        case None => None
        case Some(s) => Some([c] + s)
  }

  /** Whatever Decode accepts, it decodes to the text whose bytes those are. */
  lemma {:induction false} EncodeDecode(b: seq<Byte>)
    ensures Decode(b).Some? ==> Encode(Decode(b).value) == b
    decreases |b|
  {
    if b != [] && Decode(b).Some? {
      var first := DecodeFirst(b);
      var c, n := first.value.0, first.value.1;
      var rest := Decode(b[n..]);
      assert Decode(b) == Some([c] + rest.value);
      EncodeDecode(b[n..]);
      var s := [c] + rest.value;
      assert s[0] == c && s[1..] == rest.value;
      assert Encode(s) == EncodeChar(c) + Encode(rest.value);
      assert b == b[..n] + b[n..];
    }
  }

  // The three arithmetic facts behind DecodeFirst: a decoded two-, three-
  // or four-byte sequence is a scalar value whose encoding is that sequence.

  lemma Cont2(b0: int, b1: int)
    requires 0xC2 <= b0 <= 0xDF && 0x80 <= b1 < 0xC0
    ensures var cp := (b0 - 0xC0) * 64 + (b1 - 0x80);
      0x80 <= cp < 0x800 && 0xC0 + cp / 64 == b0 && 0x80 + cp % 64 == b1
  {
  }

  lemma Cont3(b0: int, b1: int, b2: int)
    requires 0xE0 <= b0 <= 0xEF && 0x80 <= b1 < 0xC0 && 0x80 <= b2 < 0xC0
    requires b0 == 0xE0 ==> b1 >= 0xA0
    requires b0 == 0xED ==> b1 < 0xA0
    ensures var cp := (b0 - 0xE0) * 4096 + (b1 - 0x80) * 64 + (b2 - 0x80);
      0x800 <= cp < 0x1_0000 && !(0xD800 <= cp < 0xE000)
      && 0xE0 + cp / 4096 == b0 && 0x80 + (cp / 64) % 64 == b1 && 0x80 + cp % 64 == b2
  {
    var cp := (b0 - 0xE0) * 4096 + (b1 - 0x80) * 64 + (b2 - 0x80);
    var q := (b0 - 0xE0) * 64 + (b1 - 0x80);
    assert cp == q * 64 + (b2 - 0x80);
    assert cp / 64 == q;
  }

  lemma Cont4(b0: int, b1: int, b2: int, b3: int)
    requires 0xF0 <= b0 <= 0xF4 && 0x80 <= b1 < 0xC0 && 0x80 <= b2 < 0xC0 && 0x80 <= b3 < 0xC0
    requires b0 == 0xF0 ==> b1 >= 0x90
    requires b0 == 0xF4 ==> b1 < 0x90
    ensures var cp := (b0 - 0xF0) * 262144 + (b1 - 0x80) * 4096 + (b2 - 0x80) * 64 + (b3 - 0x80);
      0x1_0000 <= cp < 0x11_0000
      && 0xF0 + cp / 262144 == b0 && 0x80 + (cp / 4096) % 64 == b1
      && 0x80 + (cp / 64) % 64 == b2 && 0x80 + cp % 64 == b3
  {
    var cp := (b0 - 0xF0) * 262144 + (b1 - 0x80) * 4096 + (b2 - 0x80) * 64 + (b3 - 0x80);
    var q1 := (b0 - 0xF0) * 4096 + (b1 - 0x80) * 64 + (b2 - 0x80);
    var q2 := (b0 - 0xF0) * 64 + (b1 - 0x80);
    assert cp == q1 * 64 + (b3 - 0x80);
    assert cp / 64 == q1;
    assert q1 == q2 * 64 + (b2 - 0x80);
    assert q1 / 64 == q2;
    assert cp / 4096 == q2;
  }
  /** The first scalar value of an encoding followed by anything is found
      again, with its width. */
  lemma DecodeFirstOfEncodeChar(c: char, rest: seq<Byte>)
    ensures DecodeFirst(EncodeChar(c) + rest) == Some((c, |EncodeChar(c)|))
  {
    var cp := c as int;
    var b := EncodeChar(c) + rest;
    if cp < 0x80 {
    } else if cp < 0x800 {
      Split2(cp);
      assert b[0] as int == 0xC0 + cp / 64 && b[1] as int == 0x80 + cp % 64;
    } else if cp < 0x1_0000 {
      Split3(cp);
      assert b[0] as int == 0xE0 + cp / 4096;
      assert b[1] as int == 0x80 + (cp / 64) % 64 && b[2] as int == 0x80 + cp % 64;
    } else {
      Split4(cp);
      assert b[0] as int == 0xF0 + cp / 262144;
      assert b[1] as int == 0x80 + (cp / 4096) % 64;
      assert b[2] as int == 0x80 + (cp / 64) % 64 && b[3] as int == 0x80 + cp % 64;
    }
  }

  // The converse arithmetic: each byte of an encoding is in the range
  // DecodeFirst demands, and the bytes put together give the scalar value.

  lemma Split2(cp: int)
    requires 0x80 <= cp < 0x800
    ensures var b0, b1 := 0xC0 + cp / 64, 0x80 + cp % 64;
      0xC2 <= b0 <= 0xDF && 0x80 <= b1 < 0xC0 && (b0 - 0xC0) * 64 + (b1 - 0x80) == cp
  {
  }

  lemma Split3(cp: int)
    requires 0x800 <= cp < 0x1_0000 && !(0xD800 <= cp < 0xE000)
    ensures var b0, b1, b2 := 0xE0 + cp / 4096, 0x80 + (cp / 64) % 64, 0x80 + cp % 64;
      0xE0 <= b0 <= 0xEF && 0x80 <= b1 < 0xC0 && 0x80 <= b2 < 0xC0
      && (b0 == 0xE0 ==> b1 >= 0xA0) && (b0 == 0xED ==> b1 < 0xA0)
      && (b0 - 0xE0) * 4096 + (b1 - 0x80) * 64 + (b2 - 0x80) == cp
  {
    var q := cp / 64;
    assert cp == q * 64 + cp % 64;
    assert q == (q / 64) * 64 + q % 64;
    assert cp / 4096 == q / 64;
  }

  lemma Split4(cp: int)
    requires 0x1_0000 <= cp < 0x11_0000
    ensures var b0, b1, b2, b3 := 0xF0 + cp / 262144, 0x80 + (cp / 4096) % 64, 0x80 + (cp / 64) % 64, 0x80 + cp % 64;
      0xF0 <= b0 <= 0xF4 && 0x80 <= b1 < 0xC0 && 0x80 <= b2 < 0xC0 && 0x80 <= b3 < 0xC0
      && (b0 == 0xF0 ==> b1 >= 0x90) && (b0 == 0xF4 ==> b1 < 0x90)
      && (b0 - 0xF0) * 262144 + (b1 - 0x80) * 4096 + (b2 - 0x80) * 64 + (b3 - 0x80) == cp
  {
    var q1 := cp / 64;
    var q2 := q1 / 64;
    assert cp == q1 * 64 + cp % 64;
    assert q1 == q2 * 64 + q1 % 64;
    assert q2 == (q2 / 64) * 64 + q2 % 64;
    assert cp / 4096 == q2;
    assert cp / 262144 == q2 / 64;
  }

  /** Decoding the bytes of a text gives the text back. */
  lemma {:induction false} DecodeEncode(s: string)
    ensures Decode(Encode(s)) == Some(s)
  {
    if s != [] {
      var e := EncodeChar(s[0]);
      DecodeFirstOfEncodeChar(s[0], Encode(s[1..]));
      assert Encode(s)[|e|..] == Encode(s[1..]);
      DecodeEncode(s[1..]);
      assert [s[0]] + s[1..] == s;
    }
  }

  /** The byte strings Decode accepts are exactly the encodings of texts:
      they are the well-formed UTF-8 strings. */
  lemma DecodeAcceptsExactlyEncodings(b: seq<Byte>)
    ensures Decode(b).Some? <==> exists s :: Encode(s) == b
  {
    if exists s :: Encode(s) == b {
      var s :| Encode(s) == b;
      DecodeEncode(s);
    }
    EncodeDecode(b);
  }
}
