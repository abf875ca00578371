/** Reading back what was written, for every JSON value. */
module JsonRoundTrip {
  import opened Prelude
  import opened Text
  import opened Json

  lemma Assoc(a: string, b: string, c: string)
    ensures a + b + c == a + (b + c)
  {
  }

  lemma Behind(a: string, b: string)
    requires a != ""
    ensures (a + b)[0] == a[0] && (|a| == 1 ==> (a + b)[1..] == b)
  {
  }

  // ---- one unit -------------------------------------------------------------------------------

  lemma HexBack(n: int)
    requires 0 <= n < 16
    ensures HexValue(Hex(n)) == Some(n)
  {
  }

  lemma HexParts(u: Unit)
    ensures 0 <= u / 4096 < 16 && u / 4096 * 4096 + u / 256 % 16 * 256 + u / 16 % 16 * 16 + u % 16 == u
  {
    assert u / 256 == 16 * (u / 4096) + u / 256 % 16;
    assert u / 16 == 16 * (u / 256) + u / 16 % 16;
  }

  lemma ReadHexOf(a: char, b: char, c: char, d: char, rest: string, x: int, y: int, z: int, w: int)
    requires HexValue(a) == Some(x) && HexValue(b) == Some(y) && HexValue(c) == Some(z) && HexValue(d) == Some(w)
    ensures ReadHex([a, b, c, d] + rest) == Some(x * 4096 + y * 256 + z * 16 + w)
  {
  }

  lemma ReadHexEscape(u: Unit, rest: string)
    ensures |HexEscape(u)| == 6 && ReadHex(HexEscape(u)[2..] + rest) == Some(u)
  {
    var x, y, z, w := u / 4096, u / 256 % 16, u / 16 % 16, u % 16;
    HexParts(u);
    HexBack(x);
    HexBack(y);
    HexBack(z);
    HexBack(w);
    ReadHexOf(Hex(x), Hex(y), Hex(z), Hex(w), rest, x, y, z, w);
    assert HexEscape(u)[2..] == [Hex(x), Hex(y), Hex(z), Hex(w)];
  }

  /** Written as a four-digit escape. */
  predicate Escaped(u: Unit) {
    ShortEscape(u).None? && !(0x20 <= u <= 0x7E)
  }

  lemma ReadGlyphOf(u: Unit, rest: string)
    ensures ReadGlyph(EscapeUnit(u) + rest) == One(u, Escaped(u), rest)
  {
    var s := EscapeUnit(u) + rest;
    if ShortEscape(u).Some? {
      assert s[2..] == rest && s[0] == '\\' && s[1] == ShortEscape(u).value;
    } else if 0x20 <= u <= 0x7E {
      assert s[1..] == rest && s[0] == u as char;
    } else {
      ReadHexEscape(u, rest);
      assert s[2..] == HexEscape(u)[2..] + rest;
      assert s[6..] == rest && s[0] == '\\' && s[1] == 'u';
    }
  }

  // ---- strings --------------------------------------------------------------------------------

  /** Surrogate pairs among the units become single code points. */
  ghost function Join(us: seq<Unit>): Codes {
    if us == [] then []
    else if |us| >= 2 && High(us[0]) && Low(us[1]) then [Combine(us[0], us[1])] + Join(us[2..])
    else [us[0]] + Join(us[1..])
  }

  lemma EscapeFirst(us: seq<Unit>, tail: string)
    requires us != []
    ensures ReadGlyph(EscapeAll(us) + tail) == One(us[0], Escaped(us[0]), EscapeAll(us[1..]) + tail)
  {
    ReadGlyphOf(us[0], EscapeAll(us[1..]) + tail);
    Assoc(EscapeUnit(us[0]), EscapeAll(us[1..]), tail);
  }

  lemma EscapeDone(tail: string)
    requires tail != "" && tail[0] == '"'
    ensures ReadGlyph(EscapeAll([]) + tail) == End(tail[1..])
  {
    assert "" + tail == tail;
  }

  lemma SurrogateEscaped(u: Unit)
    requires High(u) || Low(u)
    ensures Escaped(u)
  {
  }

  lemma PairStep(s: string, h: Unit, l: Unit, mid: string, rest: string, codes: Codes, tail: string)
    requires High(h) && Low(l) && ReadGlyph(s) == One(h, true, mid) && ReadGlyph(mid) == One(l, true, rest)
    requires ReadString(rest) == Some((codes, tail))
    ensures ReadString(s) == Some(([Combine(h, l)] + codes, tail))
  {
  }

  lemma SingleStep(s: string, u: Unit, escaped: bool, rest: string, codes: Codes, tail: string)
    requires ReadGlyph(s) == One(u, escaped, rest) && ReadString(rest) == Some((codes, tail))
    requires var next := ReadGlyph(rest); !(High(u) && next.One? && Low(next.code))
    ensures ReadString(s) == Some(([u] + codes, tail))
  {
  }

  lemma {:induction false} ReadStringOf(us: seq<Unit>, tail: string)
    requires tail != "" && tail[0] == '"'
    ensures ReadString(EscapeAll(us) + tail) == Some((Join(us), tail[1..]))
    decreases |us|
  {
    if us == [] {
      EscapeDone(tail);
    } else {
      EscapeFirst(us, tail);
      var s, more := EscapeAll(us) + tail, us[1..];
      var mid := EscapeAll(more) + tail;
      if more == [] {
        EscapeDone(tail);
      } else {
        EscapeFirst(more, tail);
      }
      if |us| >= 2 && High(us[0]) && Low(us[1]) {
        assert more[1..] == us[2..];
        ReadStringOf(us[2..], tail);
        SurrogateEscaped(us[0]);
        SurrogateEscaped(us[1]);
        PairStep(s, us[0], us[1], mid, EscapeAll(us[2..]) + tail, Join(us[2..]), tail[1..]);
      } else {
        ReadStringOf(more, tail);
        SingleStep(s, us[0], Escaped(us[0]), mid, Join(more), tail[1..]);
      }
    }
  }

  /** What a Python string becomes after being written and read. */
  function Merge(s: Codes): Codes {
    if s == [] then []
    else if |s| >= 2 && High(s[0]) && Low(s[1]) then [Combine(s[0], s[1])] + Merge(s[2..])
    else [s[0]] + Merge(s[1..])
  }

  lemma {:induction false} JoinUnits(s: Codes)
    ensures Join(Units(s)) == Merge(s)
    decreases |s|
  {
    if s != [] {
      var us, rest := Units(s), Units(s[1..]);
      if s[0] >= 0x10000 {
        JoinUnits(s[1..]);
        assert us[2..] == rest;
        SplitCombine(s[0]);
      } else {
        assert us[1..] == rest;
        if |s| >= 2 && High(s[0]) && Low(s[1]) {
          JoinUnits(s[2..]);
          assert s[1..][1..] == s[2..];
          assert rest == [s[1]] + Units(s[2..]);
          assert us[2..] == Units(s[2..]);
        } else {
          JoinUnits(s[1..]);
          if |s| >= 2 { FirstUnit(s[1..]); }
        }
      }
    }
  }

  lemma SplitCombine(c: Code)
    requires c >= 0x10000
    ensures var h, l := 0xD800 + (c - 0x10000) / 0x400, 0xDC00 + (c - 0x10000) % 0x400;
            High(h) && Low(l) && Combine(h, l) == c
  {
  }

  lemma FirstUnit(s: Codes)
    requires s != []
    ensures Units(s) != [] && (Low(Units(s)[0]) <==> Low(s[0]))
  {
  }

  /** No high surrogate stands directly before a low one. */
  ghost predicate Unpaired(s: Codes) {
    forall k :: 0 <= k < |s| - 1 ==> !(High(s[k]) && Low(s[k + 1]))
  }

  lemma {:induction false} MergeShrinks(s: Codes)
    ensures |Merge(s)| <= |s| && (s != [] ==> Merge(s) != [])
    decreases |s|
  {
    if s != [] {
      if |s| >= 2 && High(s[0]) && Low(s[1]) { MergeShrinks(s[2..]); } else { MergeShrinks(s[1..]); }
    }
  }

  lemma {:induction false} MergeFixed(s: Codes)
    ensures Merge(s) == s <==> Unpaired(s)
    decreases |s|
  {
    if s != [] {
      if |s| >= 2 && High(s[0]) && Low(s[1]) {
        MergeShrinks(s[2..]);
        assert |Merge(s)| < |s|;
        assert !Unpaired(s);
      } else {
        MergeFixed(s[1..]);
        assert s == [s[0]] + s[1..];
        assert Merge(s)[1..] == Merge(s[1..]);
        if Unpaired(s[1..]) {
          forall k | 0 <= k < |s| - 1 ensures !(High(s[k]) && Low(s[k + 1])) {
            if k > 0 { assert s[1..][k - 1] == s[k] && s[1..][k] == s[k + 1]; }
          }
        }
        if Unpaired(s) {
          forall k | 0 <= k < |s[1..]| - 1 ensures !(High(s[1..][k]) && Low(s[1..][k + 1])) {
            assert s[1..][k] == s[k + 1] && s[1..][k + 1] == s[k + 2];
          }
        }
      }
    }
  }

  lemma Quoted(body: string, rest: string)
    ensures ("\"" + body + "\"" + rest)[1..] == body + ("\"" + rest)
  {
  }

  lemma ReadPrintedString(s: Codes, rest: string)
    ensures PrintString(s)[0] == '"' && ReadString((PrintString(s) + rest)[1..]) == Some((Merge(s), rest))
  {
    var body, tail := EscapeAll(Units(s)), "\"" + rest;
    ReadStringOf(Units(s), tail);
    JoinUnits(s);
    Behind("\"", rest);
    Quoted(body, rest);
  }

  // ---- numbers --------------------------------------------------------------------------------

  /** What may follow a value inside a printed document. */
  predicate Closes(rest: string) {
    rest == "" || rest[0] == ',' || rest[0] == ']' || rest[0] == '}'
  }

  lemma {:induction false} NumeralHead(n: nat)
    ensures Numeral(n)[0] == '0' ==> Numeral(n) == "0"
  {
    if n >= 10 {
      NumeralHead(n / 10);
      assert "0"[..0] == "";
      assert ValueOf("0") == 0;
      ValueOfNumeral(n / 10);
    }
  }

  lemma ReadWholeOf(n: nat, rest: string)
    requires Closes(rest)
    ensures ReadWhole(Numeral(n) + rest) == (Numeral(n), rest)
  {
    var s := Numeral(n) + rest;
    NumeralHead(n);
    assert s[0] == Numeral(n)[0];
    if s[0] == '0' {
      assert s[1..] == rest;
    } else {
      TakeDigitsOf(Numeral(n), rest);
    }
  }

  lemma NoFraction(rest: string)
    requires Closes(rest)
    ensures ReadFraction(rest) == ("", rest) && ReadExponent(rest) == ("", rest)
  {
  }

  lemma ReadNumberSteps(s: string, whole: string, rest: string)
    requires Closes(rest) && whole != "" && forall k :: 0 <= k < |whole| ==> IsDigit(whole[k])
    requires s != "" && ReadWhole(if s[0] == '-' then s[1..] else s) == (whole, rest)
    ensures ReadNumber(s) == Some((Int(if s[0] == '-' then 0 - ValueOf(whole) else ValueOf(whole)), rest))
  {
    NoFraction(rest);
  }

  lemma ReadNumberOf(n: int, rest: string)
    requires Closes(rest)
    ensures ReadNumber(PrintInt(n) + rest) == Some((Int(n), rest))
  {
    var m: nat := if n < 0 then -n else n;
    ReadWholeOf(m, rest);
    ValueOfNumeral(m);
    var s := PrintInt(n) + rest;
    if n < 0 {
      Assoc("-", Numeral(m), rest);
      Behind("-", Numeral(m) + rest);
    } else {
      Behind(Numeral(m), rest);
      assert IsDigit(Numeral(m)[0]);
    }
    ReadNumberSteps(s, Numeral(m), rest);
  }

  lemma ReadPrintedInt(n: int, rest: string)
    requires Closes(rest)
    ensures Read(PrintInt(n) + rest) == Some((Int(n), rest))
  {
    var s := PrintInt(n) + rest;
    ReadNumberOf(n, rest);
    var m: nat := if n < 0 then -n else n;
    assert IsDigit(Numeral(m)[0]);
    if n < 0 {
      assert s[0] == '-' && s[1] == Numeral(m)[0];
    } else {
      assert s[0] == Numeral(m)[0];
    }
    NotAWord(s);
  }

  lemma NotPrefix(s: string, p: string, k: nat)
    requires k < |p| && k < |s| && s[k] != p[k]
    ensures !StartsWith(s, p)
  {
  }

  lemma NotAWord(s: string)
    requires s != "" && (IsDigit(s[0]) || (|s| > 1 && s[0] == '-' && IsDigit(s[1])))
    ensures ReadWord(s) == ReadNumber(s)
  {
    NotPrefix(s, "null", 0);
    NotPrefix(s, "true", 0);
    NotPrefix(s, "false", 0);
    NotPrefix(s, "NaN", 0);
    NotPrefix(s, "Infinity", 0);
    NotPrefix(s, "-Infinity", if s[0] == '-' then 1 else 0);
  }

  // ---- values ---------------------------------------------------------------------------------

  /** No number with a fraction or exponent anywhere. */
  predicate Plain(j: Json) {
    match j
    case Float(_) => false
    case Arr(items) => forall k :: 0 <= k < |items| ==> Plain(items[k])
    case Obj(members) => forall k :: 0 <= k < |members| ==> Plain(members[k].value)
    case _ => true
  }

  /** The value with every string, keys included, merged. */
  function Norm(j: Json): Json {
    match j
    case Str(s) => Str(Merge(s))
    case Arr(items) => Arr(seq(|items|, k requires 0 <= k < |items| => Norm(items[k])))
    case Obj(members) => Obj(seq(|members|, k requires 0 <= k < |members| => NormMember(members[k])))
    case _ => j
  }

  function NormMember(m: Member): Member {
    Member(Merge(m.key), Norm(m.value))
  }

  function NormItems(items: seq<Json>): seq<Json> {
    seq(|items|, k requires 0 <= k < |items| => Norm(items[k]))
  }

  function NormMembers(members: seq<Member>): seq<Member> {
    seq(|members|, k requires 0 <= k < |members| => NormMember(members[k]))
  }

  lemma SkipNothing(s: string)
    requires s == "" || !(s[0] == ' ' || s[0] == '\t' || s[0] == '\n' || s[0] == '\r')
    ensures SkipSpace(s) == s
  {
  }

  /** A printed value starts with neither white space nor a closing bracket. */
  lemma PrintHead(j: Json)
    requires Plain(j)
    ensures Print(j) != "" && Print(j)[0] !in {' ', '\t', '\n', '\r', ']'}
  {
    match j
    case Int(n) =>
      var m: nat := if n < 0 then -n else n;
      assert IsDigit(Numeral(m)[0]);
    case _ =>
  }

  lemma ItemsEnd(s: string, j: Json, rest: string)
    requires Read(s) == Some((j, "]" + rest))
    ensures ReadItems(s) == Some(([j], rest))
  {
    assert ("]" + rest)[1..] == rest;
    SkipNothing("]" + rest);
  }

  lemma ItemsMore(s: string, j: Json, t: string, items: seq<Json>, rest: string)
    requires Read(s) == Some((j, "," + t)) && SkipSpace(t) == t && ReadItems(t) == Some((items, rest))
    ensures ReadItems(s) == Some(([j] + items, rest))
  {
    assert ("," + t)[1..] == t;
    SkipNothing("," + t);
  }

  /** A key, its colon and its value, up to what follows. */
  ghost predicate Pair(s: string, key: Codes, j: Json, after: string) {
    && s != "" && s[0] == '"' && ReadString(s[1..]).Some?
    && var (k, t) := ReadString(s[1..]).value;
    && k == key && t != "" && t[0] == ':'
    && Read(SkipSpace(t[1..])) == Some((j, after))
  }

  lemma MembersEnd(s: string, key: Codes, j: Json, rest: string)
    requires Pair(s, key, j, "}" + rest)
    ensures ReadMembers(s) == Some(([Member(key, j)], rest))
  {
    assert ("}" + rest)[1..] == rest;
    SkipNothing("}" + rest);
    SkipNothing(ReadString(s[1..]).value.1);
  }

  lemma MembersMore(s: string, key: Codes, j: Json, t: string, members: seq<Member>, rest: string)
    requires Pair(s, key, j, "," + t) && SkipSpace(t) == t && ReadMembers(t) == Some((members, rest))
    ensures ReadMembers(s) == Some(([Member(key, j)] + members, rest))
  {
    assert ("," + t)[1..] == t;
    SkipNothing("," + t);
    SkipNothing(ReadString(s[1..]).value.1);
  }

  lemma PairOf(key: Codes, value: Json, rest: string, j: Json)
    requires Plain(value) && Read(Print(value) + rest) == Some((j, rest))
    ensures Pair(PrintString(key) + ":" + Print(value) + rest, Merge(key), j, rest)
  {
    var k, v := PrintString(key), Print(value);
    var t := ":" + (v + rest);
    PairText(k, v, rest);
    ReadPrintedString(key, t);
    Behind(":", v + rest);
    Behind(k, t);
    PrintHead(value);
    Behind(v, rest);
    SkipNothing(v + rest);
  }

  lemma PairText(k: string, v: string, rest: string)
    ensures k + ":" + v + rest == k + (":" + (v + rest))
  {
  }

  lemma ReadArray(t: string, items: seq<Json>, rest: string)
    requires t != "" && SkipSpace(t) == t && t[0] != ']' && ReadItems(t) == Some((items, rest))
    ensures Read("[" + t) == Some((Arr(items), rest))
  {
    assert ("[" + t)[1..] == t;
  }

  lemma ReadObject(t: string, members: seq<Member>, rest: string)
    requires t != "" && t[0] == '"' && ReadMembers(t) == Some((members, rest))
    ensures Read("{" + t) == Some((Obj(members), rest))
  {
    assert ("{" + t)[1..] == t;
    SkipNothing(t);
  }

  lemma ReadEmpty(rest: string)
    ensures Read("[]" + rest) == Some((Arr([]), rest)) && Read("{}" + rest) == Some((Obj([]), rest))
  {
    assert ("[]" + rest)[1..] == "]" + rest && ("]" + rest)[1..] == rest;
    assert ("{}" + rest)[1..] == "}" + rest && ("}" + rest)[1..] == rest;
    SkipNothing("]" + rest);
    SkipNothing("}" + rest);
  }

  lemma ReadLiterals(rest: string)
    ensures Read("null" + rest) == Some((Null, rest))
    ensures Read("true" + rest) == Some((Bool(true), rest))
    ensures Read("false" + rest) == Some((Bool(false), rest))
  {
    assert ("null" + rest)[..4] == "null" && ("null" + rest)[4..] == rest;
    assert ("true" + rest)[..4] == "true" && ("true" + rest)[4..] == rest;
    assert ("false" + rest)[..5] == "false" && ("false" + rest)[5..] == rest;
    NotPrefix("true" + rest, "null", 0);
    NotPrefix("false" + rest, "null", 0);
    NotPrefix("false" + rest, "true", 0);
  }

  /** Every value is read back, with its strings merged, and nothing after it is consumed. */
  lemma {:induction false} ReadPrint(j: Json, rest: string)
    requires Plain(j) && Closes(rest)
    ensures Read(Print(j) + rest) == Some((Norm(j), rest))
    decreases j, 0
  {
    match j
    case Int(n) => ReadPrintedInt(n, rest);
    case Str(s) => ReadPrintedStr(s, rest);
    case Arr(items) =>
      ReadEmpty(rest);
      if items == [] {
        assert Norm(j).items == [];
      } else {
        ReadPrintItems(j, items, rest);
        ReadArray(PrintItems(items) + rest, NormItems(items), rest);
        Assoc("[", PrintItems(items), rest);
        assert Norm(j).items == NormItems(items);
      }
    case Obj(members) =>
      ReadEmpty(rest);
      if members == [] {
        assert Norm(j).members == [];
      } else {
        ReadPrintMembers(j, members, rest);
        ReadObject(PrintMembers(members) + rest, NormMembers(members), rest);
        Assoc("{", PrintMembers(members), rest);
        assert Norm(j).members == NormMembers(members);
      }
    case _ => ReadLiterals(rest);
  }

  lemma ReadPrintedStr(s: Codes, rest: string)
    ensures Read(PrintString(s) + rest) == Some((Str(Merge(s)), rest))
  {
    ReadPrintedString(s, rest);
    Behind(PrintString(s), rest);
  }

  /** `first` and then either the closing character or a comma and more. */
  lemma Laid(first: string, close: string, more: string, rest: string)
    ensures first + close + rest == first + (close + rest)
    ensures first + ("," + more) + rest == first + ("," + (more + rest))
  {
  }

  lemma {:induction false} ReadPrintItems(whole: Json, items: seq<Json>, rest: string)
    requires items != [] && forall k :: 0 <= k < |items| ==> Plain(items[k]) && items[k] < whole
    ensures ReadItems(PrintItems(items) + rest) == Some((NormItems(items), rest))
    ensures var t := PrintItems(items) + rest; SkipSpace(t) == t && t != "" && t[0] != ']'
    decreases whole, 0, |items|
  {
    var s, first := PrintItems(items) + rest, Print(items[0]);
    PrintHead(items[0]);
    if |items| == 1 {
      ReadPrint(items[0], "]" + rest);
      Laid(first, "]", "", rest);
      Behind(first, "]" + rest);
      ItemsEnd(s, Norm(items[0]), rest);
      assert NormItems(items) == [Norm(items[0])];
    } else {
      var more := PrintItems(items[1..]);
      var t := more + rest;
      ReadPrintItems(whole, items[1..], rest);
      ReadPrint(items[0], "," + t);
      Laid(first, "]", more, rest);
      Behind(first, "," + t);
      ItemsMore(s, Norm(items[0]), t, NormItems(items[1..]), rest);
      assert NormItems(items) == [Norm(items[0])] + NormItems(items[1..]);
    }
    SkipNothing(s);
  }

  lemma {:induction false} ReadPrintMembers(whole: Json, members: seq<Member>, rest: string)
    requires members != [] && forall k :: 0 <= k < |members| ==> Plain(members[k].value) && members[k].value < whole
    ensures ReadMembers(PrintMembers(members) + rest) == Some((NormMembers(members), rest))
    ensures var t := PrintMembers(members) + rest; t != "" && t[0] == '"'
    decreases whole, 0, |members|
  {
    var s, m := PrintMembers(members) + rest, members[0];
    var first := PrintString(m.key) + ":" + Print(m.value);
    assert first[0] == '"';
    if |members| == 1 {
      ReadPrint(m.value, "}" + rest);
      Laid(first, "}", "", rest);
      Behind(first, "}" + rest);
      PairOf(m.key, m.value, "}" + rest, Norm(m.value));
      MembersEnd(s, Merge(m.key), Norm(m.value), rest);
      assert NormMembers(members) == [NormMember(m)];
    } else {
      var more := PrintMembers(members[1..]);
      var t := more + rest;
      ReadPrintMembers(whole, members[1..], rest);
      ReadPrint(m.value, "," + t);
      Laid(first, "}", more, rest);
      Behind(first, "," + t);
      PairOf(m.key, m.value, "," + t, Norm(m.value));
      SkipNothing(t);
      MembersMore(s, Merge(m.key), Norm(m.value), t, NormMembers(members[1..]), rest);
      assert NormMembers(members) == [NormMember(m)] + NormMembers(members[1..]);
    }
  }

  /** A printed document parses to the value, its strings merged. */
  lemma ParsePrint(j: Json)
    requires Plain(j)
    ensures Parse(Print(j)) == Some(Norm(j))
  {
    ReadPrint(j, "");
    PrintHead(j);
    SkipNothing(Print(j));
    assert Print(j) + "" == Print(j);
  }

  // ---- looking up members ---------------------------------------------------------------------

  lemma KeysDiffer(a: string, b: string, k: nat)
    requires |a| != |b| || (k < |a| == |b| && a[k] != b[k])
    ensures CodesOf(a) != CodesOf(b)
  {
    if |a| == |b| {
      assert CodesOf(a)[k] == a[k] as int && CodesOf(b)[k] == b[k] as int;
    }
  }

  lemma ThreeKeys(a: Member, b: Member, c: Member)
    requires a.key != b.key && a.key != c.key && b.key != c.key
    ensures var m := [a, b, c];
            && Keys(m) == {a.key, b.key, c.key}
            && Lookup(m, a.key) == a.value && Lookup(m, b.key) == b.value && Lookup(m, c.key) == c.value
  {
    var m := [a, b, c];
    assert m[0] == a && m[1] == b && m[2] == c;
    assert Keys(m) == {a.key, b.key, c.key};
    assert m[..2] == [a, b];
    assert [a, b][0] == a && [a, b][1] == b;
    assert Keys([a, b]) == {a.key, b.key};
    assert [a, b][..1] == [a];
    assert [a][0] == a;
    assert Keys([a]) == {a.key};
    assert Lookup([a, b], a.key) == Lookup([a], a.key) == a.value;
  }

  lemma FourKeys(a: Member, b: Member, c: Member, d: Member)
    requires a.key != b.key && a.key != c.key && b.key != c.key
    requires d.key != a.key && d.key != b.key && d.key != c.key
    ensures var m := [a, b, c, d];
            && Keys(m) == {a.key, b.key, c.key, d.key}
            && Lookup(m, a.key) == a.value && Lookup(m, b.key) == b.value
            && Lookup(m, c.key) == c.value && Lookup(m, d.key) == d.value
  {
    var m := [a, b, c, d];
    assert m[0] == a && m[1] == b && m[2] == c && m[3] == d;
    assert Keys(m) == {a.key, b.key, c.key, d.key};
    assert m[..3] == [a, b, c];
    ThreeKeys(a, b, c);
  }
}
