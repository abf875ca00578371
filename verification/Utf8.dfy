/** UTF-8, strict: no overlong forms, no surrogates, nothing above U+10FFFF. */
module Utf8 {
  import opened Prelude
  import opened Base64Url

  predicate IsScalar(n: int) {
    0 <= n < 0xD800 || 0xE000 <= n < 0x110000
  }

  predicate Continues(b: seq<Byte>, k: nat) {
    k < |b| && 0x80 <= b[k] < 0xC0
  }

  function EncodeChar(c: char): seq<Byte> {
    var n := c as int;
    if n < 0x80 then [n]
    else if n < 0x800 then [0xC0 + n / 64, 0x80 + n % 64]
    else if n < 0x10000 then [0xE0 + n / 4096, 0x80 + n / 64 % 64, 0x80 + n % 64]
    else [0xF0 + n / 262144, 0x80 + n / 4096 % 64, 0x80 + n / 64 % 64, 0x80 + n % 64]
  }

  function Encode(s: string): seq<Byte> {
    if s == "" then [] else EncodeChar(s[0]) + Encode(s[1..])
  }

  /** The first character and how many bytes it takes. */
  function DecodeChar(b: seq<Byte>): (r: Option<(char, nat)>)
    requires b != []
    ensures r.Some? ==> 1 <= r.value.1 <= |b|
  {
    if b[0] < 0x80 then Some((b[0] as char, 1))
    else if 0xC2 <= b[0] < 0xE0 && Continues(b, 1) then
      var x: int, y: int := b[0] - 0xC0, b[1] - 0x80;
      Some(((x * 64 + y) as char, 2))
    else if 0xE0 <= b[0] < 0xF0 && Continues(b, 1) && Continues(b, 2) then
      var x: int, y: int, z: int := b[0] - 0xE0, b[1] - 0x80, b[2] - 0x80;
      var n := x * 4096 + y * 64 + z;
      if n >= 0x800 && IsScalar(n) then Some((n as char, 3)) else None
    else if 0xF0 <= b[0] < 0xF5 && Continues(b, 1) && Continues(b, 2) && Continues(b, 3) then
      var x: int, y: int, z: int, w: int := b[0] - 0xF0, b[1] - 0x80, b[2] - 0x80, b[3] - 0x80;
      var n := x * 262144 + y * 4096 + z * 64 + w;
      if n >= 0x10000 && IsScalar(n) then Some((n as char, 4)) else None
    else None
  }

  function Decode(b: seq<Byte>): Option<string> {
    if b == [] then Some("")
    else
      match DecodeChar(b)
      case None => None
      case Some((c, n)) =>
        match Decode(b[n..])
        case None => None
        case Some(s) => Some([c] + s)
  }

  lemma SplitLong(n: int)
    requires 0 <= n < 0x110000
    ensures n == n / 64 * 64 + n % 64
    ensures n / 64 == n / 4096 * 64 + n / 64 % 64
    ensures n / 4096 == n / 262144 * 64 + n / 4096 % 64
    ensures n / 262144 <= 4
  {
  }

  lemma DecodeEncodedChar(c: char, rest: seq<Byte>)
    ensures DecodeChar(EncodeChar(c) + rest) == Some((c, |EncodeChar(c)|))
  {
    var n := c as int;
    SplitLong(n);
    var b := EncodeChar(c) + rest;
    if n < 0x80 {
      assert b[0] == n;
    } else if n < 0x800 {
      assert b[0] == 0xC0 + n / 64 && b[1] == 0x80 + n % 64;
    } else if n < 0x10000 {
      assert b[0] == 0xE0 + n / 4096 && b[1] == 0x80 + n / 64 % 64 && b[2] == 0x80 + n % 64;
    } else {
      assert b[0] == 0xF0 + n / 262144 && b[1] == 0x80 + n / 4096 % 64;
      assert b[2] == 0x80 + n / 64 % 64 && b[3] == 0x80 + n % 64;
    }
  }

  lemma {:induction false} DecodeEncode(s: string)
    ensures Decode(Encode(s)) == Some(s)
  {
    if s != "" {
      DecodeEncodedChar(s[0], Encode(s[1..]));
      DecodeEncode(s[1..]);
      var n := |EncodeChar(s[0])|;
      assert Encode(s)[n..] == Encode(s[1..]);
      assert s == [s[0]] + s[1..];
    }
  }

  lemma TwoParts(high: int, low: int, n: int)
    requires n == high * 64 + low && 0 <= low < 64
    ensures n / 64 == high && n % 64 == low
  {
  }

  lemma ThreeParts(x: int, y: int, z: int, n: int)
    requires n == x * 4096 + y * 64 + z && 0 <= x && 0 <= y < 64 && 0 <= z < 64
    ensures n / 4096 == x && n / 64 % 64 == y && n % 64 == z
  {
    TwoParts(x * 64 + y, z, n);
    TwoParts(x, y, n / 64);
  }

  lemma FourParts(x: int, y: int, z: int, w: int, n: int)
    requires n == x * 262144 + y * 4096 + z * 64 + w && 0 <= x && 0 <= y < 64 && 0 <= z < 64 && 0 <= w < 64
    ensures n / 262144 == x && n / 4096 % 64 == y && n / 64 % 64 == z && n % 64 == w
  {
    ThreeParts(x * 64 + y, z, w, n);
    TwoParts(x, y, n / 4096);
  }

  /** The bytes of a character are the ones it is read from: no other form is accepted. */
  lemma EncodeDecodedChar(b: seq<Byte>, c: char, k: nat)
    requires b != [] && DecodeChar(b) == Some((c, k))
    ensures EncodeChar(c) == b[..k]
  {
    var n := c as int;
    if k == 1 {
      assert b[..1] == [b[0]];
    } else if k == 2 {
      var x: int, y: int := b[0] - 0xC0, b[1] - 0x80;
      TwoParts(x, y, n);
      assert b[..2] == [b[0], b[1]];
    } else if k == 3 {
      var x: int, y: int, z: int := b[0] - 0xE0, b[1] - 0x80, b[2] - 0x80;
      ThreeParts(x, y, z, n);
      assert b[..3] == [b[0], b[1], b[2]];
    } else {
      var x: int, y: int, z: int, w: int := b[0] - 0xF0, b[1] - 0x80, b[2] - 0x80, b[3] - 0x80;
      FourParts(x, y, z, w, n);
      assert b[..4] == [b[0], b[1], b[2], b[3]];
    }
  }

  /** Whatever is accepted is written back byte for byte. */
  lemma {:induction false} EncodeDecode(b: seq<Byte>)
    requires Decode(b).Some?
    ensures Encode(Decode(b).value) == b
  {
    if b != [] {
      var (c, n) := DecodeChar(b).value;
      EncodeDecodedChar(b, c, n);
      EncodeDecode(b[n..]);
      var s := Decode(b[n..]).value;
      assert ([c] + s)[1..] == s;
      assert b == b[..n] + b[n..];
    }
  }
}
