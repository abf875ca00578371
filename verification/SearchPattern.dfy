/** Title search: LIKE escaping and what the escaped pattern matches. */
module SearchPattern {
  import opened Text

  // ---- the three ordered replacements ------------------------------------------------

  function Replace(s: string, c: char, r: string): string {
    if s == [] then [] else (if s[0] == c then r else [s[0]]) + Replace(s[1..], c, r)
  }

  function EscapeLike(value: string): string {
    Replace(Replace(Replace(value, '\\', ['\\', '\\']), '%', ['\\', '%']), '_', ['\\', '_'])
  }

  predicate Special(c: char) {
    c == '%' || c == '_' || c == '\\'
  }

  predicate HasWildcard(normalized: string) {
    exists k :: 0 <= k < |normalized| && Special(normalized[k])
  }

  function EscapeChar(c: char): string {
    if Special(c) then ['\\', c] else [c]
  }

  /** One pass over the text, escaping each special character on its own. */
  function EscapeOnce(value: string): string {
    if value == [] then [] else EscapeChar(value[0]) + EscapeOnce(value[1..])
  }

  lemma {:induction false} ReplaceAppend(a: string, b: string, c: char, r: string)
    ensures Replace(a + b, c, r) == Replace(a, c, r) + Replace(b, c, r)
  {
    if a == [] {
      assert a + b == b;
    } else {
      ReplaceAppend(a[1..], b, c, r);
      assert (a + b)[1..] == a[1..] + b;
    }
  }

  lemma EscapeLikeAppend(a: string, b: string)
    ensures EscapeLike(a + b) == EscapeLike(a) + EscapeLike(b)
  {
    var bs: string, pc: string, us: string := ['\\', '\\'], ['\\', '%'], ['\\', '_'];
    ReplaceAppend(a, b, '\\', bs);
    ReplaceAppend(Replace(a, '\\', bs), Replace(b, '\\', bs), '%', pc);
    ReplaceAppend(Replace(Replace(a, '\\', bs), '%', pc), Replace(Replace(b, '\\', bs), '%', pc), '_', us);
  }

  lemma ReplaceOne(x: char, c: char, r: string)
    ensures Replace([x], c, r) == if x == c then r else [x]
  {
    assert [x][1..] == [];
    assert Replace([], c, r) == [];
  }

  lemma ReplaceTwo(x: char, y: char, c: char, r: string)
    requires x != c && y != c
    ensures Replace([x, y], c, r) == [x, y]
  {
    assert [x, y] == [x] + [y];
    ReplaceAppend([x], [y], c, r);
    ReplaceOne(x, c, r);
    ReplaceOne(y, c, r);
  }

  lemma EscapeLikeChar(c: char)
    ensures EscapeLike([c]) == EscapeChar(c)
  {
    ReplaceOne(c, '\\', ['\\', '\\']);
    if c == '\\' {
      ReplaceTwo('\\', '\\', '%', ['\\', '%']);
      ReplaceTwo('\\', '\\', '_', ['\\', '_']);
    } else {
      ReplaceOne(c, '%', ['\\', '%']);
      if c == '%' {
        ReplaceTwo('\\', '%', '_', ['\\', '_']);
      } else {
        ReplaceOne(c, '_', ['\\', '_']);
      }
    }
  }

  /** Backslash first, then percent, then underscore: together one pass that escapes nothing twice. */
  lemma {:induction false} ReplacesAreOnePass(value: string)
    ensures EscapeLike(value) == EscapeOnce(value)
  {
    if value == [] {
      assert EscapeLike([]) == [];
    } else {
      ReplacesAreOnePass(value[1..]);
      EscapeLikeAppend([value[0]], value[1..]);
      EscapeLikeChar(value[0]);
      assert [value[0]] + value[1..] == value;
    }
  }

  lemma {:induction false} EscapeLength(value: string)
    ensures |EscapeOnce(value)| >= |value|
    ensures |EscapeOnce(value)| == |value| <==> !HasWildcard(value)
    ensures !HasWildcard(value) ==> EscapeOnce(value) == value
  {
    if value != [] {
      EscapeLength(value[1..]);
      assert forall k :: 0 <= k < |value[1..]| ==> value[1..][k] == value[k + 1];
      assert HasWildcard(value) <==> Special(value[0]) || HasWildcard(value[1..]);
      assert value == [value[0]] + value[1..];
    }
  }

  /** The wildcard test is negative exactly for the texts that escaping leaves alone. */
  lemma WildcardFreeIffUnescaped(value: string)
    ensures !HasWildcard(value) <==> EscapeLike(value) == value
  {
    ReplacesAreOnePass(value);
    EscapeLength(value);
  }

  // ---- what LIKE matches ------------------------------------------------------------------

  /** `text LIKE pattern ESCAPE '\'` */
  predicate Like(pattern: string, text: string)
    decreases |pattern| + |text|
  {
    if pattern == [] then text == []
    else if pattern[0] == '%' then Like(pattern[1..], text) || (text != [] && Like(pattern, text[1..]))
    else if pattern[0] == '_' then text != [] && Like(pattern[1..], text[1..])
    else if pattern[0] == '\\' then
      |pattern| >= 2 && text != [] && LowerChar(pattern[1]) == LowerChar(text[0]) && Like(pattern[2..], text[1..])
    else text != [] && LowerChar(pattern[0]) == LowerChar(text[0]) && Like(pattern[1..], text[1..])
  }

  ghost predicate SameFolded(a: string, b: string) {
    |a| == |b| && forall k :: 0 <= k < |a| ==> LowerChar(a[k]) == LowerChar(b[k])
  }

  /** `s` occurs at position `i`, letter case aside. */
  ghost predicate OccursAt(text: string, s: string, i: nat) {
    i + |s| <= |text| && SameFolded(text[i..i + |s|], s)
  }

  /** `s` occurs in `text`, letter case aside. */
  ghost predicate Contains(text: string, s: string) {
    exists i: nat :: OccursAt(text, s, i)
  }

  lemma {:induction false} LikeEscaped(s: string, rest: string, text: string)
    ensures Like(EscapeOnce(s) + rest, text) <==> OccursAt(text, s, 0) && Like(rest, text[|s|..])
    decreases |s|
  {
    if s == [] {
      assert EscapeOnce(s) + rest == rest;
      assert text[0..] == text;
    } else {
      var tail := EscapeOnce(s[1..]) + rest;
      assert EscapeOnce(s) + rest == EscapeChar(s[0]) + tail;
      LikeOneChar(s[0], tail, text);
      if text != [] {
        LikeEscaped(s[1..], rest, text[1..]);
        OccursCons(text, s);
        if |s| <= |text| { assert text[1..][|s| - 1..] == text[|s|..]; }
      }
    }
  }

  lemma LikeOneChar(c: char, tail: string, text: string)
    ensures Like(EscapeChar(c) + tail, text) <==> text != [] && LowerChar(c) == LowerChar(text[0]) && Like(tail, text[1..])
  {
    if Special(c) {
      assert (['\\', c] + tail)[2..] == tail;
    } else {
      assert ([c] + tail)[1..] == tail;
    }
  }

  lemma OccursCons(text: string, s: string)
    requires s != [] && text != []
    ensures OccursAt(text, s, 0) <==> LowerChar(text[0]) == LowerChar(s[0]) && OccursAt(text[1..], s[1..], 0)
  {
    if |s| <= |text| {
      var a, b := text[0..|s|], text[1..][0..|s| - 1];
      assert forall k :: 0 <= k < |b| ==> b[k] == a[k + 1];
      assert forall k :: 0 <= k < |s[1..]| ==> s[1..][k] == s[k + 1];
      if SameFolded(b, s[1..]) && LowerChar(text[0]) == LowerChar(s[0]) {
        forall k | 0 <= k < |a| ensures LowerChar(a[k]) == LowerChar(s[k]) {
          if k > 0 { assert a[k] == b[k - 1] && s[k] == s[1..][k - 1]; }
        }
      }
      if SameFolded(a, s) {
        forall k | 0 <= k < |b| ensures LowerChar(b[k]) == LowerChar(s[1..][k]) {
          assert b[k] == a[k + 1];
        }
      }
    }
  }

  lemma {:induction false} LikeAnything(text: string)
    ensures Like("%", text)
  {
    if text != [] {
      LikeAnything(text[1..]);
    } else {
      assert "%"[1..] == [];
    }
  }

  /** A leading percent sign skips any number of characters. */
  lemma {:induction false} LikeSkips(rest: string, text: string)
    ensures Like("%" + rest, text) <==> exists i: nat :: i <= |text| && Like(rest, text[i..])
    decreases |text|
  {
    assert ("%" + rest)[1..] == rest;
    assert text[0..] == text;
    if text != [] {
      LikeSkips(rest, text[1..]);
      if Like("%" + rest, text[1..]) {
        var i: nat :| i <= |text[1..]| && Like(rest, text[1..][i..]);
        assert text[1..][i..] == text[i + 1..];
      }
      if exists i: nat :: i <= |text| && Like(rest, text[i..]) {
        var i: nat :| i <= |text| && Like(rest, text[i..]);
        if i > 0 { assert text[1..][i - 1..] == text[i..]; }
      }
    }
  }

  function SearchText(s: string): string {
    "%" + EscapeLike(s) + "%"
  }

  /** Searching is literal substring search: no character of the search text acts as a wildcard. */
  lemma SearchIsSubstring(s: string, title: string)
    ensures Like(SearchText(s), title) <==> Contains(title, s)
  {
    ReplacesAreOnePass(s);
    var rest := EscapeOnce(s) + "%";
    assert SearchText(s) == "%" + rest;
    LikeSkips(rest, title);
    forall i: nat | i <= |title| ensures Like(rest, title[i..]) <==> OccursAt(title, s, i) {
      LikeEscaped(s, "%", title[i..]);
      if i + |s| <= |title| {
        LikeAnything(title[i..][|s|..]);
        assert title[i..][0..|s|] == title[i..i + |s|];
      }
    }
  }

  /** Without wildcards the escaped and the plain pattern are the same pattern. */
  lemma PlainPatternAgrees(s: string)
    requires !HasWildcard(s)
    ensures SearchText(s) == "%" + s + "%"
  {
    WildcardFreeIffUnescaped(s);
  }
}
