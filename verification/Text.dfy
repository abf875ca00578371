/** Python-style string helpers: prefixes, splitting and joining, trimming, decimal numerals. */
module Text {

  predicate StartsWith(s: string, prefix: string) {
    |prefix| <= |s| && s[..|prefix|] == prefix
  }

  /** ASCII case folding. */
  function LowerChar(c: char): char {
    if 'A' <= c <= 'Z' then (c as int + 32) as char else c
  }

  // ---- split and join --------------------------------------------------------------

  function Split(s: string, sep: char): (parts: seq<string>)
    ensures |parts| >= 1
  {
    if s == [] then [""]
    else
      var rest := Split(s[1..], sep);
      if s[0] == sep then [""] + rest else [[s[0]] + rest[0]] + rest[1..]
  }

  function Join(parts: seq<string>, sep: char): string
    requires |parts| >= 1
  {
    if |parts| == 1 then parts[0] else parts[0] + [sep] + Join(parts[1..], sep)
  }

  lemma {:induction false} SplitPrefix(a: string, sep: char, t: string)
    requires sep !in a
    ensures Split(a + t, sep) == [a + Split(t, sep)[0]] + Split(t, sep)[1..]
  {
    if a == [] {
      assert a + t == t;
      assert a + Split(t, sep)[0] == Split(t, sep)[0];
    } else {
      SplitPrefix(a[1..], sep, t);
      assert (a + t)[1..] == a[1..] + t;
      var r := Split(t, sep);
      assert ([a[1..] + r[0]] + r[1..])[1..] == r[1..];
      assert [a[0]] + (a[1..] + r[0]) == a + r[0];
    }
  }

  /** Splitting undoes joining when no part holds the separator. */
  lemma {:induction false} SplitJoin(parts: seq<string>, sep: char)
    requires |parts| >= 1 && forall k :: 0 <= k < |parts| ==> sep !in parts[k]
    ensures Split(Join(parts, sep), sep) == parts
  {
    if |parts| == 1 {
      SplitPrefix(parts[0], sep, "");
      assert parts[0] + "" == parts[0];
    } else {
      SplitJoin(parts[1..], sep);
      var rest := Join(parts[1..], sep);
      assert ([sep] + rest)[1..] == rest;
      SplitPrefix(parts[0], sep, [sep] + rest);
      assert parts[0] + [sep] + rest == parts[0] + ([sep] + rest);
      assert Split([sep] + rest, sep) == [""] + parts[1..];
      assert ([""] + parts[1..])[1..] == parts[1..];
      assert parts[0] + "" == parts[0];
    }
  }

  /** `b` put behind the last piece. */
  function Trail(parts: seq<string>, b: string): seq<string>
    requires |parts| >= 1
  {
    parts[..|parts| - 1] + [parts[|parts| - 1] + b]
  }

  lemma {:induction false} SplitSuffix(s: string, sep: char, b: string)
    requires sep !in b
    ensures Split(s + b, sep) == Trail(Split(s, sep), b)
  {
    if s == "" {
      assert s + b == b;
      SplitPrefix(b, sep, "");
      assert b + "" == b && "" + b == b;
    } else {
      assert (s + b)[1..] == s[1..] + b;
      SplitSuffix(s[1..], sep, b);
      var q := Split(s[1..], sep);
      if s[0] == sep { TrailBehind(q, b); } else { TrailGlued([s[0]], q, b); }
    }
  }

  lemma TrailBehind(q: seq<string>, b: string)
    requires |q| >= 1
    ensures [""] + Trail(q, b) == Trail([""] + q, b)
  {
    assert ([""] + q)[..|q|] == [""] + q[..|q| - 1];
  }

  lemma TrailGlued(a: string, q: seq<string>, b: string)
    requires |q| >= 1
    ensures [a + Trail(q, b)[0]] + Trail(q, b)[1..] == Trail([a + q[0]] + q[1..], b)
  {
    if |q| == 1 {
      assert a + (q[0] + b) == a + q[0] + b;
    }
  }

  lemma {:induction false} JoinLacks(parts: seq<string>, sep: char, c: char)
    requires |parts| >= 1 && c != sep && forall k :: 0 <= k < |parts| ==> c !in parts[k]
    ensures c !in Join(parts, sep)
  {
    if |parts| > 1 { JoinLacks(parts[1..], sep, c); }
  }

  // ---- trimming ------------------------------------------------------------------------

  /** The characters `str.isspace` accepts. */
  predicate IsSpace(c: char) {
    var n := c as int;
    0x09 <= n <= 0x0D || 0x1C <= n <= 0x20 || n == 0x85 || n == 0xA0 || n == 0x1680
    || 0x2000 <= n <= 0x200A || n == 0x2028 || n == 0x2029 || n == 0x202F || n == 0x205F || n == 0x3000
  }

  function StripLeft(s: string): string {
    if s != [] && IsSpace(s[0]) then StripLeft(s[1..]) else s
  }

  function StripRight(s: string): string {
    if s != [] && IsSpace(s[|s| - 1]) then StripRight(s[..|s| - 1]) else s
  }

  function Strip(s: string): string {
    StripRight(StripLeft(s))
  }

  /** A trimmed string is its own trim. */
  lemma StripTrimmed(s: string)
    requires s != [] ==> !IsSpace(s[0]) && !IsSpace(s[|s| - 1])
    ensures Strip(s) == s
  {
  }

  // ---- blanks around a text ---------------------------------------------------------------

  ghost predicate Blank(s: string) {
    forall k :: 0 <= k < |s| ==> IsSpace(s[k])
  }

  lemma StripSplit(s: string) returns (left: string, right: string)
    ensures Blank(left) && Blank(right) && s == left + Strip(s) + right
  {
    StripLeftSplit(s);
    left := s[..|s| - |StripLeft(s)|];
    right := StripRightSplit(StripLeft(s));
  }

  lemma {:induction false} StripLeftSplit(s: string)
    ensures |StripLeft(s)| <= |s| && Blank(s[..|s| - |StripLeft(s)|]) && s == s[..|s| - |StripLeft(s)|] + StripLeft(s)
  {
    if s != "" && IsSpace(s[0]) {
      StripLeftSplit(s[1..]);
      var n := |s| - |StripLeft(s)|;
      assert s[..n] == [s[0]] + s[1..][..n - 1];
    }
  }

  lemma {:induction false} StripRightSplit(s: string) returns (right: string)
    ensures Blank(right) && s == StripRight(s) + right
  {
    if s != "" && IsSpace(s[|s| - 1]) {
      var r := StripRightSplit(s[..|s| - 1]);
      right := r + [s[|s| - 1]];
      assert s == s[..|s| - 1] + [s[|s| - 1]];
    } else {
      right := "";
    }
  }

  lemma {:induction false} StripLeftBlank(left: string, s: string)
    requires Blank(left)
    ensures StripLeft(left + s) == StripLeft(s)
  {
    if left == "" {
      assert left + s == s;
    } else {
      assert (left + s)[1..] == left[1..] + s;
      StripLeftBlank(left[1..], s);
    }
  }

  lemma {:induction false} StripRightBlank(s: string, right: string)
    requires Blank(right)
    ensures StripRight(s + right) == StripRight(s)
  {
    if right == "" {
      assert s + right == s;
    } else {
      var t := s + right;
      assert t[..|t| - 1] == s + right[..|right| - 1];
      StripRightBlank(s, right[..|right| - 1]);
    }
  }

  lemma {:induction false} StripLeftAll(s: string)
    requires Blank(s)
    ensures StripLeft(s) == ""
  {
    if s != "" { StripLeftAll(s[1..]); }
  }

  lemma {:induction false} StripLeftAppend(s: string, right: string)
    ensures StripLeft(s) != "" ==> StripLeft(s + right) == StripLeft(s) + right
    ensures StripLeft(s) == "" ==> StripLeft(s + right) == StripLeft(right)
  {
    if s == "" {
      assert s + right == right;
    } else if IsSpace(s[0]) {
      assert (s + right)[1..] == s[1..] + right;
      StripLeftAppend(s[1..], right);
    }
  }

  lemma StripBlanks(left: string, s: string, right: string)
    requires Blank(left) && Blank(right)
    ensures Strip(left + s + right) == Strip(s)
  {
    assert left + s + right == left + (s + right);
    StripLeftBlank(left, s + right);
    StripLeftAppend(s, right);
    if StripLeft(s) == "" {
      StripLeftAll(right);
    } else {
      StripRightBlank(StripLeft(s), right);
    }
  }

  /** A piece that lost blanks at either end still has the same trim. */
  lemma StripAround(left: string, piece: string, right: string, first: bool, last: bool, whole: string)
    requires Blank(left) && Blank(right)
    requires whole == (if first then left else "") + (piece + (if last then right else ""))
    ensures Strip(whole) == Strip(piece)
  {
    var l, r := if first then left else "", if last then right else "";
    StripBlanks(l, piece, r);
    assert l + (piece + r) == l + piece + r;
  }

  /** `rstrip("\r")` */
  function ChopCR(s: string): string {
    if s != [] && s[|s| - 1] == '\r' then ChopCR(s[..|s| - 1]) else s
  }

  lemma {:induction false} ChopKeepsPrefix(s: string, prefix: string)
    requires '\r' !in prefix
    ensures StartsWith(ChopCR(s), prefix) <==> StartsWith(s, prefix)
    ensures StartsWith(s, prefix) ==> ChopCR(s)[|prefix|..] == ChopCR(s[|prefix|..])
  {
    if s != [] && s[|s| - 1] == '\r' {
      var t := s[..|s| - 1];
      ChopKeepsPrefix(t, prefix);
      if StartsWith(s, prefix) {
        assert prefix != [] ==> prefix[|prefix| - 1] == s[|prefix| - 1] && prefix[|prefix| - 1] in prefix;
        assert t[..|prefix|] == s[..|prefix|];
        assert s[|prefix|..][..|s| - |prefix| - 1] == t[|prefix|..];
      }
      if StartsWith(t, prefix) {
        assert s[..|prefix|] == t[..|prefix|];
      }
    }
  }

  lemma ChopNothing(s: string)
    requires s != [] ==> s[|s| - 1] != '\r'
    ensures ChopCR(s) == s
  {
  }

  // ---- decimal numerals -------------------------------------------------------------------

  predicate IsDigit(c: char) {
    '0' <= c <= '9'
  }

  function DigitOf(n: nat): (c: char)
    requires n < 10
    ensures IsDigit(c) && c as int - '0' as int == n
  {
    ['0', '1', '2', '3', '4', '5', '6', '7', '8', '9'][n]
  }

  function Numeral(n: nat): (s: string)
    ensures |s| >= 1 && forall k :: 0 <= k < |s| ==> IsDigit(s[k])
  {
    if n < 10 then [DigitOf(n)] else Numeral(n / 10) + [DigitOf(n % 10)]
  }

  function ValueOf(s: string): nat
    requires forall k :: 0 <= k < |s| ==> IsDigit(s[k])
  {
    if s == [] then 0 else assert IsDigit(s[|s| - 1]); 10 * ValueOf(s[..|s| - 1]) + (s[|s| - 1] as int - '0' as int)
  }

  lemma {:induction false} ValueOfNumeral(n: nat)
    ensures ValueOf(Numeral(n)) == n
  {
    if n >= 10 {
      ValueOfNumeral(n / 10);
      var s := Numeral(n);
      assert s[..|s| - 1] == Numeral(n / 10);
    } else {
      assert Numeral(n)[..0] == [];
    }
  }

  /** The longest run of digits at the front, and what follows it. */
  function TakeDigits(s: string): (r: (string, string))
    ensures r.0 + r.1 == s
    ensures forall k :: 0 <= k < |r.0| ==> IsDigit(r.0[k])
  {
    if s != [] && IsDigit(s[0]) then
      var (d, rest) := TakeDigits(s[1..]);
      ([s[0]] + d, rest)
    else ([], s)
  }

  lemma {:induction false} TakeDigitsOf(d: string, rest: string)
    requires forall k :: 0 <= k < |d| ==> IsDigit(d[k])
    requires rest == [] || !IsDigit(rest[0])
    ensures TakeDigits(d + rest) == (d, rest)
  {
    if d == [] {
      assert d + rest == rest;
    } else {
      TakeDigitsOf(d[1..], rest);
      assert (d + rest)[1..] == d[1..] + rest;
      assert d == [d[0]] + d[1..];
    }
  }
}
