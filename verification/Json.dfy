/** JSON text as Python's `json` module writes it (ASCII only, compact) and reads it. */
module Json {
  import opened Prelude
  import opened Text

  /** A Python string: code points, surrogates included. */
  type Code = x: int | 0 <= x < 0x110000
  type Codes = seq<Code>

  function CodesOf(s: string): Codes {
    seq(|s|, k requires 0 <= k < |s| => s[k] as int)
  }

  datatype Json =
    | Null
    | Bool(b: bool)
    | Int(n: int)
    | Float(text: string)
    | Str(s: Codes)
    | Arr(items: seq<Json>)
    | Obj(members: seq<Member>)

  datatype Member = Member(key: Codes, value: Json)

  predicate High(u: int) { 0xD800 <= u < 0xDC00 }
  predicate Low(u: int) { 0xDC00 <= u < 0xE000 }

  function Combine(h: int, l: int): Code
    requires High(h) && Low(l)
  {
    0x10000 + (h - 0xD800) * 0x400 + (l - 0xDC00)
  }

  // ---- members --------------------------------------------------------------------------

  function Keys(members: seq<Member>): set<Codes> {
    set k | 0 <= k < |members| :: members[k].key
  }

  /** The last member of that name wins. */
  function Lookup(members: seq<Member>, key: Codes): Json
    requires key in Keys(members)
  {
    var last := members[|members| - 1];
    if last.key == key then last.value else Lookup(members[..|members| - 1], key)
  }

  // ---- writing strings ------------------------------------------------------------------

  type Unit = x: int | 0 <= x < 0x10000

  /** Code points above the basic plane become two surrogates. */
  function Units(s: Codes): seq<Unit> {
    if s == [] then []
    else if s[0] < 0x10000 then [s[0]] + Units(s[1..])
    else [0xD800 + (s[0] - 0x10000) / 0x400, 0xDC00 + (s[0] - 0x10000) % 0x400] + Units(s[1..])
  }

  function Hex(n: int): (c: char)
    requires 0 <= n < 16
  {
    if n < 10 then ('0' as int + n) as char else ('a' as int + n - 10) as char
  }

  /** The letter of a two-character escape. */
  function ShortEscape(u: Unit): Option<char> {
    match u
    case 0x22 => Some('"')
    case 0x5C => Some('\\')
    case 0x0A => Some('n')
    case 0x0D => Some('r')
    case 0x09 => Some('t')
    case 0x0C => Some('f')
    case 0x08 => Some('b')
    case _ => None
  }

  function HexEscape(u: Unit): string {
    ['\\', 'u', Hex(u / 4096), Hex(u / 256 % 16), Hex(u / 16 % 16), Hex(u % 16)]
  }

  function EscapeUnit(u: Unit): string {
    match ShortEscape(u)
    case Some(c) => ['\\', c]
    case None => if 0x20 <= u <= 0x7E then [u as char] else HexEscape(u)
  }

  function EscapeAll(us: seq<Unit>): string {
    if us == [] then "" else EscapeUnit(us[0]) + EscapeAll(us[1..])
  }

  function PrintString(s: Codes): string {
    "\"" + EscapeAll(Units(s)) + "\""
  }

  // ---- reading strings ----------------------------------------------------------------------

  function HexValue(c: char): Option<int> {
    if '0' <= c <= '9' then Some(c as int - '0' as int)
    else if 'a' <= c <= 'f' then Some(c as int - 'a' as int + 10)
    else if 'A' <= c <= 'F' then Some(c as int - 'A' as int + 10)
    else None
  }

  function ReadHex(s: string): (r: Option<Unit>)
    requires |s| >= 4
  {
    var a, b, c, d := HexValue(s[0]), HexValue(s[1]), HexValue(s[2]), HexValue(s[3]);
    if a.None? || b.None? || c.None? || d.None? then None
    else
      assert 0 <= a.value < 16 && 0 <= b.value < 16 && 0 <= c.value < 16 && 0 <= d.value < 16;
      Some(a.value * 4096 + b.value * 256 + c.value * 16 + d.value)
  }

  /** What stands at the front of a string body: its end, one character or escape, or a mistake. */
  datatype Glyph = End(rest: string) | One(code: Code, escaped: bool, rest: string) | Bad

  function LetterEscape(c: char): Option<Code> {
    match c
    case '"' => Some(0x22)
    case '\\' => Some(0x5C)
    case '/' => Some(0x2F)
    case 'n' => Some(0x0A)
    case 'r' => Some(0x0D)
    case 't' => Some(0x09)
    case 'f' => Some(0x0C)
    case 'b' => Some(0x08)
    case _ => None
  }

  function ReadGlyph(s: string): (g: Glyph)
    ensures g.End? || g.One? ==> |g.rest| < |s|
  {
    if s == "" then Bad
    else if s[0] == '"' then End(s[1..])
    else if s[0] != '\\' then (if s[0] as int < 0x20 then Bad else One(s[0] as int, false, s[1..]))
    else if |s| == 1 then Bad
    else if s[1] != 'u' then
      match LetterEscape(s[1])
      case Some(c) => One(c, false, s[2..])
      case None => Bad
    else if |s| < 6 then Bad
    else
      match ReadHex(s[2..])
      case Some(u) => One(u, true, s[6..])
      case None => Bad
  }

  /** After the opening quote. An escaped high surrogate takes an escaped low surrogate with it. */
  function ReadString(s: string): (r: Option<(Codes, string)>)
    ensures r.Some? ==> |r.value.1| < |s|
    decreases |s|
  {
    match ReadGlyph(s)
    case Bad => None
    case End(rest) => Some(([], rest))
    case One(u, escaped, rest) =>
      var next := ReadGlyph(rest);
      if escaped && High(u) && next.One? && next.escaped && Low(next.code) then
        match ReadString(next.rest)
        case None => None
        case Some(tail) => Some(([Combine(u, next.code)] + tail.0, tail.1))
      else
        match ReadString(rest)
        case None => None
        case Some(tail) => Some(([u] + tail.0, tail.1))
  }

  // ---- writing values -----------------------------------------------------------------------

  function PrintInt(n: int): string {
    if n < 0 then "-" + Numeral(-n) else Numeral(n)
  }

  function Print(j: Json): string {
    match j
    case Null => "null"
    case Bool(b) => if b then "true" else "false"
    case Int(n) => PrintInt(n)
    case Float(text) => text
    case Str(s) => PrintString(s)
    case Arr(items) => if items == [] then "[]" else "[" + PrintItems(items)
    case Obj(members) => if members == [] then "{}" else "{" + PrintMembers(members)
  }

  function PrintItems(items: seq<Json>): string
    requires items != []
  {
    Print(items[0]) + (if |items| == 1 then "]" else "," + PrintItems(items[1..]))
  }

  function PrintMembers(members: seq<Member>): string
    requires members != []
  {
    PrintString(members[0].key) + ":" + Print(members[0].value)
    + (if |members| == 1 then "}" else "," + PrintMembers(members[1..]))
  }

  // ---- reading values -----------------------------------------------------------------------

  function SkipSpace(s: string): (r: string)
    ensures |r| <= |s|
  {
    if s != "" && (s[0] == ' ' || s[0] == '\t' || s[0] == '\n' || s[0] == '\r') then SkipSpace(s[1..]) else s
  }

  /** The fraction and exponent of a number, if any. */
  function ReadFraction(s: string): (r: (string, string))
    ensures r.0 + r.1 == s
  {
    if |s| >= 2 && s[0] == '.' && IsDigit(s[1]) then
      var (d, rest) := TakeDigits(s[1..]);
      ("." + d, rest)
    else ("", s)
  }

  function ReadExponent(s: string): (r: (string, string))
    ensures r.0 + r.1 == s
  {
    if |s| >= 2 && (s[0] == 'e' || s[0] == 'E') then
      if IsDigit(s[1]) then
        var (d, rest) := TakeDigits(s[1..]);
        ([s[0]] + d, rest)
      else if |s| >= 3 && (s[1] == '+' || s[1] == '-') && IsDigit(s[2]) then
        var (d, rest) := TakeDigits(s[2..]);
        ([s[0], s[1]] + d, rest)
      else ("", s)
    else ("", s)
  }

  /** The digits before the point: a lone zero, or a run not starting with zero. */
  function ReadWhole(s: string): (r: (string, string))
    ensures r.0 + r.1 == s
    ensures forall k :: 0 <= k < |r.0| ==> IsDigit(r.0[k])
  {
    if s != "" && s[0] == '0' then ("0", s[1..]) else TakeDigits(s)
  }

  function ReadNumber(s: string): (r: Option<(Json, string)>)
    ensures r.Some? ==> |r.value.1| < |s|
  {
    var negative := s != "" && s[0] == '-';
    var (whole, rest) := ReadWhole(if negative then s[1..] else s);
    if whole == "" then None
    else
      var (fraction, rest') := ReadFraction(rest);
      var (exponent, rest'') := ReadExponent(rest');
      if fraction == "" && exponent == "" then
        Some((Int(if negative then 0 - ValueOf(whole) else ValueOf(whole)), rest))
      else Some((Float(whole + fraction + exponent), rest''))
  }

  /** The literals, the two non-finite names among them. */
  function ReadWord(s: string): (r: Option<(Json, string)>)
    ensures r.Some? ==> |r.value.1| < |s|
  {
    if StartsWith(s, "null") then Some((Null, s[4..]))
    else if StartsWith(s, "true") then Some((Bool(true), s[4..]))
    else if StartsWith(s, "false") then Some((Bool(false), s[5..]))
    else if StartsWith(s, "NaN") then Some((Float("NaN"), s[3..]))
    else if StartsWith(s, "Infinity") then Some((Float("Infinity"), s[8..]))
    else if StartsWith(s, "-Infinity") then Some((Float("-Infinity"), s[9..]))
    else ReadNumber(s)
  }

  function Read(s: string): (r: Option<(Json, string)>)
    ensures r.Some? ==> |r.value.1| < |s|
    decreases |s|, 1
  {
    if s == "" then None
    else if s[0] == '"' then
      match ReadString(s[1..])
      case None => None
      case Some((codes, rest)) => Some((Str(codes), rest))
    else if s[0] == '[' then
      var t := SkipSpace(s[1..]);
      if t != "" && t[0] == ']' then Some((Arr([]), t[1..]))
      else
        match ReadItems(t)
        case None => None
        case Some((items, rest)) => Some((Arr(items), rest))
    else if s[0] == '{' then
      var t := SkipSpace(s[1..]);
      if t != "" && t[0] == '}' then Some((Obj([]), t[1..]))
      else
        match ReadMembers(t)
        case None => None
        case Some((members, rest)) => Some((Obj(members), rest))
    else ReadWord(s)
  }

  /** One or more values up to the closing bracket. */
  function ReadItems(s: string): (r: Option<(seq<Json>, string)>)
    ensures r.Some? ==> |r.value.1| < |s|
    decreases |s|, 2
  {
    match Read(s)
    case None => None
    case Some((j, rest)) =>
      var t := SkipSpace(rest);
      if t == "" then None
      else if t[0] == ']' then Some(([j], t[1..]))
      else if t[0] != ',' then None
      else
        match ReadItems(SkipSpace(t[1..]))
        case None => None
        case Some((items, rest')) => Some(([j] + items, rest'))
  }

  /** One or more `"key": value` pairs up to the closing brace. */
  function ReadMembers(s: string): (r: Option<(seq<Member>, string)>)
    ensures r.Some? ==> |r.value.1| < |s|
    decreases |s|, 2
  {
    if s == "" || s[0] != '"' then None
    else
      match ReadString(s[1..])
      case None => None
      case Some((key, afterKey)) =>
        var t := SkipSpace(afterKey);
        if t == "" || t[0] != ':' then None
        else
          match Read(SkipSpace(t[1..]))
          case None => None
          case Some((j, rest)) =>
            var u := SkipSpace(rest);
            if u == "" then None
            else if u[0] == '}' then Some(([Member(key, j)], u[1..]))
            else if u[0] != ',' then None
            else
              match ReadMembers(SkipSpace(u[1..]))
              case None => None
              case Some((members, rest')) => Some(([Member(key, j)] + members, rest'))
  }

  /** A whole document: one value between optional white space. */
  function Parse(s: string): Option<Json> {
    match Read(SkipSpace(s))
    case None => None
    case Some((j, rest)) => if SkipSpace(rest) == "" then Some(j) else None
  }
}
