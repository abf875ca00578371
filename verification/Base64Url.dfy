/** Unpadded base64url: sections 3.2 and 5 of RFC 4648. */
module Base64Url {
  import opened Prelude

  type Byte = x: int | 0 <= x < 256
  type Sextet = x: int | 0 <= x < 64

  function Digit(n: Sextet): char {
    if n < 26 then ('A' as int + n) as char
    else if n < 52 then ('a' as int + n - 26) as char
    else if n < 62 then ('0' as int + n - 52) as char
    else if n == 62 then '-' else '_'
  }

  predicate InAlphabet(c: char) {
    'A' <= c <= 'Z' || 'a' <= c <= 'z' || '0' <= c <= '9' || c == '-' || c == '_'
  }

  function Value(c: char): Sextet
    requires InAlphabet(c)
  {
    if 'A' <= c <= 'Z' then c as int - 'A' as int
    else if 'a' <= c <= 'z' then c as int - 'a' as int + 26
    else if '0' <= c <= '9' then c as int - '0' as int + 52
    else if c == '-' then 62 else 63
  }

  lemma DigitValue(n: Sextet)
    ensures InAlphabet(Digit(n)) && Value(Digit(n)) == n
  {
  }

  lemma ValueDigit(c: char)
    requires InAlphabet(c)
    ensures Digit(Value(c)) == c
  {
  }

  // ---- three bytes as four sextets ----------------------------------------------------------

  function Sextet1(p: Byte): Sextet { p / 4 }
  function Sextet2(p: Byte, q: Byte): Sextet { p % 4 * 16 + q / 16 }
  function Sextet3(q: Byte, r: Byte): Sextet { q % 16 * 4 + r / 64 }
  function Sextet4(r: Byte): Sextet { r % 64 }

  function Byte1(x: Sextet, y: Sextet): Byte { x * 4 + y / 16 }
  function Byte2(y: Sextet, z: Sextet): Byte { y % 16 * 16 + z / 4 }
  function Byte3(z: Sextet, w: Sextet): Byte { z % 4 * 64 + w }

  lemma BytesBack(p: Byte, q: Byte, r: Byte)
    ensures Byte1(Sextet1(p), Sextet2(p, q)) == p
    ensures Byte2(Sextet2(p, q), Sextet3(q, r)) == q
    ensures Byte3(Sextet3(q, r), Sextet4(r)) == r
  {
  }

  lemma SextetsBack(x: Sextet, y: Sextet, z: Sextet, w: Sextet)
    ensures Sextet1(Byte1(x, y)) == x
    ensures Sextet2(Byte1(x, y), Byte2(y, z)) == y && Sextet2(Byte1(x, y), 0) == y - y % 16
    ensures Sextet3(Byte2(y, z), Byte3(z, w)) == z && Sextet3(Byte2(y, z), 0) == z - z % 4
    ensures Sextet4(Byte3(z, w)) == w
  {
  }

  /** A last group of one or two bytes is filled up with zero bits. */
  function Sextets(b: seq<Byte>): seq<Sextet> {
    if b == [] then []
    else if |b| == 1 then [Sextet1(b[0]), Sextet2(b[0], 0)]
    else if |b| == 2 then [Sextet1(b[0]), Sextet2(b[0], b[1]), Sextet3(b[1], 0)]
    else [Sextet1(b[0]), Sextet2(b[0], b[1]), Sextet3(b[1], b[2]), Sextet4(b[2])] + Sextets(b[3..])
  }

  /** The bits left over in a short last group are not looked at. */
  function Bytes(x: seq<Sextet>): seq<Byte> {
    if |x| < 2 then []
    else if |x| == 2 then [Byte1(x[0], x[1])]
    else if |x| == 3 then [Byte1(x[0], x[1]), Byte2(x[1], x[2])]
    else [Byte1(x[0], x[1]), Byte2(x[1], x[2]), Byte3(x[2], x[3])] + Bytes(x[4..])
  }

  lemma BytesFour(x: Sextet, y: Sextet, z: Sextet, w: Sextet, rest: seq<Sextet>)
    ensures Bytes([x, y, z, w] + rest) == [Byte1(x, y), Byte2(y, z), Byte3(z, w)] + Bytes(rest)
  {
    assert ([x, y, z, w] + rest)[4..] == rest;
  }

  lemma {:induction false} BytesOfSextets(b: seq<Byte>)
    ensures Bytes(Sextets(b)) == b
  {
    if |b| >= 3 {
      BytesOfSextets(b[3..]);
      FullGroup(b[0], b[1], b[2], Sextets(b[3..]), b[3..]);
      assert b == [b[0], b[1], b[2]] + b[3..];
    } else if |b| == 2 {
      TwoBytes(b[0], b[1]);
      assert b == [b[0], b[1]];
    } else if |b| == 1 {
      OneByte(b[0]);
      assert b == [b[0]];
    }
  }

  lemma OneByte(p: Byte)
    ensures Bytes([Sextet1(p), Sextet2(p, 0)]) == [p]
  {
    BytesBack(p, 0, 0);
  }

  lemma TwoBytes(p: Byte, q: Byte)
    ensures Bytes([Sextet1(p), Sextet2(p, q), Sextet3(q, 0)]) == [p, q]
  {
    BytesBack(p, q, 0);
  }

  lemma FullGroup(p: Byte, q: Byte, r: Byte, tail: seq<Sextet>, rest: seq<Byte>)
    requires Bytes(tail) == rest
    ensures Bytes([Sextet1(p), Sextet2(p, q), Sextet3(q, r), Sextet4(r)] + tail) == [p, q, r] + rest
  {
    BytesFour(Sextet1(p), Sextet2(p, q), Sextet3(q, r), Sextet4(r), tail);
    BytesBack(p, q, r);
  }

  lemma {:induction false} SextetCount(b: seq<Byte>)
    ensures |Sextets(b)| % 4 == (if |b| % 3 == 0 then 0 else |b| % 3 + 1)
    ensures b != [] ==> Sextets(b) != []
  {
    if |b| >= 3 {
      SextetCount(b[3..]);
      GroupCount(|b[3..]|, |Sextets(b[3..])|);
    }
  }

  lemma GroupCount(n: nat, m: nat)
    ensures (n + 3) % 3 == n % 3 && (4 + m) % 4 == m % 4
  {
  }

  /** The bits a short last group does not use are all zero. */
  predicate ZeroTail(x: seq<Sextet>) {
    (|x| % 4 == 2 ==> x[|x| - 1] % 16 == 0) && (|x| % 4 == 3 ==> x[|x| - 1] % 4 == 0)
  }

  lemma SextetsThree(p: Byte, q: Byte, r: Byte, rest: seq<Byte>)
    ensures Sextets([p, q, r] + rest) == [Sextet1(p), Sextet2(p, q), Sextet3(q, r), Sextet4(r)] + Sextets(rest)
  {
    assert ([p, q, r] + rest)[3..] == rest;
  }

  lemma FourBack(x: Sextet, y: Sextet, z: Sextet, w: Sextet, rest: seq<Byte>)
    ensures Sextets([Byte1(x, y), Byte2(y, z), Byte3(z, w)] + rest) == [x, y, z, w] + Sextets(rest)
  {
    SextetsThree(Byte1(x, y), Byte2(y, z), Byte3(z, w), rest);
    SextetsBack(x, y, z, w);
  }

  lemma ThreeBack(x: Sextet, y: Sextet, z: Sextet)
    ensures Sextets(Bytes([x, y, z])) == [x, y, z - z % 4]
  {
    SextetsBack(x, y, z, 0);
    assert Sextets([Byte1(x, y), Byte2(y, z)]) == [x, y, z - z % 4];
  }

  lemma TwoBack(x: Sextet, y: Sextet)
    ensures Sextets(Bytes([x, y])) == [x, y - y % 16]
  {
    SextetsBack(x, y, 0, 0);
    assert Sextets([Byte1(x, y)]) == [x, y - y % 16];
  }

  /** Encoding the decoded bytes gives the sextets back. */
  ghost predicate Stable(x: seq<Sextet>) {
    Sextets(Bytes(x)) == x
  }

  lemma TwoTail(x: Sextet, y: Sextet)
    ensures Stable([x, y]) <==> ZeroTail([x, y])
  {
    TwoBack(x, y);
    LastAgrees([x, y], [x, y - y % 16]);
  }

  lemma ThreeTail(x: Sextet, y: Sextet, z: Sextet)
    ensures Stable([x, y, z]) <==> ZeroTail([x, y, z])
  {
    ThreeBack(x, y, z);
    LastAgrees([x, y, z], [x, y, z - z % 4]);
  }

  lemma ShortTail(x: seq<Sextet>)
    requires 2 <= |x| <= 3
    ensures Stable(x) <==> ZeroTail(x)
  {
    if |x| == 2 {
      TwoTail(x[0], x[1]);
      assert x == [x[0], x[1]];
    } else {
      ThreeTail(x[0], x[1], x[2]);
      assert x == [x[0], x[1], x[2]];
    }
  }

  lemma LastAgrees(x: seq<Sextet>, y: seq<Sextet>)
    requires |x| == |y| > 0 && x[..|x| - 1] == y[..|x| - 1]
    ensures x == y <==> x[|x| - 1] == y[|x| - 1]
  {
    assert x == x[..|x| - 1] + [x[|x| - 1]];
    assert y == y[..|x| - 1] + [y[|x| - 1]];
  }

  lemma {:induction false} SextetsOfBytes(x: seq<Sextet>)
    requires |x| % 4 != 1
    ensures Stable(x) <==> ZeroTail(x)
  {
    if |x| >= 4 {
      var four, tail := x[..4], x[4..];
      SextetsOfBytes(tail);
      Regroup(four, tail);
      assert x == four + tail;
      ZeroTailOfTail(four, tail);
      assert (four + Sextets(Bytes(tail)))[4..] == Sextets(Bytes(tail));
    } else if |x| >= 2 {
      ShortTail(x);
    }
  }

  lemma Regroup(four: seq<Sextet>, tail: seq<Sextet>)
    requires |four| == 4
    ensures Sextets(Bytes(four + tail)) == four + Sextets(Bytes(tail))
  {
    var x, y, z, w := four[0], four[1], four[2], four[3];
    assert four == [x, y, z, w];
    BytesFour(x, y, z, w, tail);
    FourBack(x, y, z, w, Bytes(tail));
  }

  lemma ZeroTailOfTail(four: seq<Sextet>, tail: seq<Sextet>)
    requires |four| == 4
    ensures ZeroTail(four + tail) <==> ZeroTail(tail)
  {
    var x := four + tail;
    assert |x| % 4 == |tail| % 4;
    assert tail != [] ==> tail[|tail| - 1] == x[|x| - 1];
  }

  // ---- text ---------------------------------------------------------------------------------

  function Digits(x: seq<Sextet>): string {
    seq(|x|, k requires 0 <= k < |x| => Digit(x[k]))
  }

  predicate AllInAlphabet(s: string) {
    forall k :: 0 <= k < |s| ==> InAlphabet(s[k])
  }

  function Values(s: string): seq<Sextet>
    requires AllInAlphabet(s)
  {
    seq(|s|, k requires 0 <= k < |s| => Value(s[k]))
  }

  lemma DigitsValues(x: seq<Sextet>)
    ensures AllInAlphabet(Digits(x)) && Values(Digits(x)) == x
  {
    forall k | 0 <= k < |x| ensures InAlphabet(Digits(x)[k]) && Value(Digits(x)[k]) == x[k] {
      DigitValue(x[k]);
    }
  }

  lemma ValuesDigits(s: string)
    requires AllInAlphabet(s)
    ensures Digits(Values(s)) == s
  {
    forall k | 0 <= k < |s| ensures Digits(Values(s))[k] == s[k] {
      ValueDigit(s[k]);
    }
  }

  /** The padded form: one padding character for each byte the last group lacks. */
  function EncodePadded(b: seq<Byte>): string {
    Digits(Sextets(b)) + (if |b| % 3 == 1 then "==" else if |b| % 3 == 2 then "=" else "")
  }

  /** How many digits come before the first other character. */
  function BodyLength(s: string): (n: nat)
    ensures n <= |s| && AllInAlphabet(s[..n]) && (n < |s| ==> !InAlphabet(s[n]))
  {
    if s == "" || !InAlphabet(s[0]) then 0 else 1 + BodyLength(s[1..])
  }

  /** Padding must complete the last group of four; a group of one digit cannot be completed. */
  function DecodePadded(s: string): Option<seq<Byte>> {
    var n := BodyLength(s);
    if (n % 4 == 0 && s[n..] == "") || (n % 4 == 2 && s[n..] == "==") || (n % 4 == 3 && s[n..] == "=")
    then Some(Bytes(Values(s[..n]))) else None
  }

  function StripPadding(s: string): string {
    if s != "" && s[|s| - 1] == '=' then StripPadding(s[..|s| - 1]) else s
  }

  /** `"=" * (-len(raw) % 4)` */
  function Padding(n: nat): string {
    match n % 4
    case 0 => ""
    case 1 => "==="
    case 2 => "=="
    case _ => "="
  }

  function Encode(b: seq<Byte>): string {
    StripPadding(EncodePadded(b))
  }

  predicate Charset(raw: string) {
    raw != "" && AllInAlphabet(raw)
  }

  function Decode(raw: string): Option<seq<Byte>> {
    DecodePadded(raw + Padding(|raw|))
  }

  // ---- the round trip -----------------------------------------------------------------------

  lemma {:induction false} StripRestores(body: string, pad: string)
    requires AllInAlphabet(body)
    requires forall k :: 0 <= k < |pad| ==> pad[k] == '='
    ensures StripPadding(body + pad) == body
  {
    if pad == "" {
      assert body + pad == body;
    } else {
      var s := body + pad;
      assert s[..|s| - 1] == body + pad[..|pad| - 1];
      StripRestores(body, pad[..|pad| - 1]);
    }
  }

  /** The padding computed from the stripped length is the padding that was stripped. */
  lemma PaddingRestored(b: seq<Byte>)
    ensures Encode(b) == Digits(Sextets(b))
    ensures Encode(b) + Padding(|Encode(b)|) == EncodePadded(b)
  {
    SextetCount(b);
    DigitsValues(Sextets(b));
    StripRestores(Digits(Sextets(b)), Padding(|Sextets(b)|));
  }

  lemma BodyDigits(s: string)
    ensures forall k :: 0 <= k < BodyLength(s) ==> InAlphabet(s[k])
  {
    assert forall k :: 0 <= k < BodyLength(s) ==> s[..BodyLength(s)][k] == s[k];
  }

  /** A text over the alphabet decodes unless its length is one more than a multiple of four. */
  lemma DecodableLengths(raw: string)
    requires AllInAlphabet(raw)
    ensures Decode(raw) == if |raw| % 4 == 1 then None else Some(Bytes(Values(raw)))
  {
    var s := raw + Padding(|raw|);
    var n := BodyLength(s);
    BodyDigits(s);
    assert forall k :: 0 <= k < |raw| ==> s[k] == raw[k];
    assert |s| > |raw| ==> s[|raw|] == '=' && !InAlphabet(s[|raw|]);
    assert n == |raw|;
    assert s[..n] == raw && s[n..] == Padding(|raw|);
  }

  /** Every byte string comes back, and what is sent has only alphabet characters. */
  lemma RoundTrip(b: seq<Byte>)
    ensures Decode(Encode(b)) == Some(b)
    ensures b != [] ==> Charset(Encode(b))
  {
    PaddingRestored(b);
    SextetCount(b);
    DigitsValues(Sextets(b));
    DecodableLengths(Encode(b));
    BytesOfSextets(b);
  }

  /** Encoding gives a text back exactly when its unused bits are zero; so decoding is one-to-one on those texts. */
  lemma ReencodesIffZeroTail(raw: string)
    requires AllInAlphabet(raw) && Decode(raw).Some?
    ensures Encode(Decode(raw).value) == raw <==> ZeroTail(Values(raw))
  {
    DecodableLengths(raw);
    var x := Values(raw);
    SextetsOfBytes(x);
    PaddingRestored(Bytes(x));
    ValuesDigits(raw);
    DigitsValues(Sextets(Bytes(x)));
  }

  /** Two texts, one byte string. */
  lemma DecodingIsNotInjective()
    ensures Charset("QQ") && Charset("QR") && Decode("QQ") == Decode("QR") == Some([65])
  {
    DecodableLengths("QQ");
    DecodableLengths("QR");
    assert Values("QQ") == [16, 16] && Values("QR") == [16, 17];
  }
}
