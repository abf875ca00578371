/** `If-None-Match`: splitting the header, reducing entity tags, weak comparison (RFC 9110, sections 8.8.3.2 and 13.1.2). */
module EntityTags {
  import opened Prelude
  import opened Text

  /** The text between the quotes; `W/` is dropped, anything malformed or empty is no tag. */
  function OpaqueTag(candidate: string): Option<string> {
    if |candidate| < 2 then None
    else
      var c := if StartsWith(candidate, "W/") then candidate[2..] else candidate;
      if |c| < 2 || c[0] != '"' || c[|c| - 1] != '"' then None
      else
        var inner := c[1..|c| - 1];
        if '"' in inner || inner == "" then None else Some(inner)
  }

  /** The text cut at the commas outside quotes. */
  function Pieces(s: string, quoted: bool): (r: seq<string>)
    ensures |r| >= 1
  {
    if s == "" then [""]
    else if s[0] == ',' && !quoted then [""] + Pieces(s[1..], quoted)
    else
      Glue([s[0]], Pieces(s[1..], if s[0] == '"' then !quoted else quoted))
  }

  /** `a` put in front of the first piece. */
  function Glue(a: string, r: seq<string>): (g: seq<string>)
    requires |r| >= 1
    ensures |g| >= 1
  {
    [a + r[0]] + r[1..]
  }

  lemma GlueTwice(a: string, b: string, r: seq<string>)
    requires |r| >= 1
    ensures Glue(a, Glue(b, r)) == Glue(a + b, r)
  {
    assert a + (b + r[0]) == a + b + r[0];
  }

  lemma GlueNothing(r: seq<string>)
    requires |r| >= 1
    ensures Glue("", r) == r
  {
    assert "" + r[0] == r[0];
  }

  lemma GlueAlone(a: string, r: seq<string>)
    requires |r| >= 1
    ensures Glue(a, [""] + r) == [a] + r
  {
    assert a + "" == a && ([""] + r)[1..] == r;
  }

  ghost predicate Lists(pieces: seq<string>, value: Option<string>) {
    value.Some? && exists k :: 0 <= k < |pieces| && OpaqueTag(Strip(pieces[k])) == value
  }

  /** The header, as received, names the tag. */
  ghost predicate Names(header: string, etag: string) {
    Lists(Pieces(header, false), OpaqueTag(etag))
  }

  ghost predicate Matches(header: Option<string>, etag: string) {
    header.Some? && Strip(header.value) != "" && (Strip(header.value) == "*" || Names(header.value, etag))
  }

  // ---- the scan -------------------------------------------------------------------------

  method SplitCandidates(value: string) returns (candidates: seq<string>)
    ensures candidates == Pieces(value, false)
  {
    var candidate, quoted := "", false;
    candidates := [];
    var k := 0;
    assert value[0..] == value;
    GlueNothing(Pieces(value, false));
    while k < |value|
      invariant 0 <= k <= |value|
      invariant Pieces(value, false) == candidates + Glue(candidate, Pieces(value[k..], quoted))
    {
      var ch := value[k];
      assert value[k..][1..] == value[k + 1..] && value[k..][0] == ch;
      if ch == ',' && !quoted {
        GlueAlone(candidate, Pieces(value[k + 1..], false));
        GlueNothing(Pieces(value[k + 1..], false));
      } else {
        GlueTwice(candidate, [ch], Pieces(value[k + 1..], if ch == '"' then !quoted else quoted));
      }
      if ch == '"' {
        quoted := !quoted;
        candidate := candidate + [ch];
      } else if ch == ',' && !quoted {
        candidates := candidates + [candidate];
        candidate := "";
      } else {
        candidate := candidate + [ch];
      }
      k := k + 1;
    }
    assert value[k..] == "";
    assert candidate + "" == candidate;
    assert Glue(candidate, [""]) == [candidate];
    candidates := candidates + [candidate];
  }

  method IfNoneMatchMatches(header: Option<string>, etag: string) returns (hit: bool)
    ensures hit <==> Matches(header, etag)
  {
    if header.None? || header.value == "" {
      return false;
    }
    var value := Strip(header.value);
    if value == "" {
      return false;
    }
    if value == "*" {
      return true;
    }
    TrimmedHeader(header.value, OpaqueTag(etag));
    var candidates := SplitCandidates(value);
    var target := OpaqueTag(etag);
    var k := 0;
    while k < |candidates|
      invariant 0 <= k <= |candidates|
      invariant forall i :: 0 <= i < k ==> OpaqueTag(Strip(candidates[i])).None? || OpaqueTag(Strip(candidates[i])) != target
    {
      var named := OpaqueTag(Strip(candidates[k]));
      if named.Some? && named == target {
        return true;
      }
      k := k + 1;
    }
    return false;
  }

  // ---- trimming the header changes nothing ------------------------------------------------------

  /** Neither quotes nor commas. */
  ghost predicate Bare(s: string) {
    forall k :: 0 <= k < |s| ==> s[k] != '"' && s[k] != ','
  }

  lemma {:induction false} PiecesPrefix(a: string, t: string)
    requires Bare(a)
    ensures Pieces(a + t, false) == Glue(a, Pieces(t, false))
  {
    if a == "" {
      assert a + t == t;
      GlueNothing(Pieces(t, false));
    } else {
      PiecesPrefix(a[1..], t);
      assert (a + t)[1..] == a[1..] + t;
      GlueTwice([a[0]], a[1..], Pieces(t, false));
      assert [a[0]] + a[1..] == a;
    }
  }

  lemma TrailGlue(a: string, r: seq<string>, b: string)
    requires |r| >= 1
    ensures Trail(Glue(a, r), b) == Glue(a, Trail(r, b))
  {
    if |r| == 1 {
      assert a + r[0] + b == a + (r[0] + b);
    }
  }

  lemma {:induction false} PiecesSuffix(s: string, quoted: bool, b: string)
    requires Bare(b)
    ensures Pieces(s + b, quoted) == Trail(Pieces(s, quoted), b)
  {
    if s == "" {
      assert s + b == b;
      PiecesBare(b, quoted);
      assert "" + b == b;
    } else {
      assert (s + b)[1..] == s[1..] + b;
      var q := if s[0] == '"' then !quoted else quoted;
      PiecesSuffix(s[1..], q, b);
      var r := Pieces(s[1..], q);
      if s[0] == ',' && !quoted {
        assert Trail([""] + r, b) == [""] + Trail(r, b);
      } else {
        TrailGlue([s[0]], r, b);
      }
    }
  }

  lemma {:induction false} PiecesBare(b: string, quoted: bool)
    requires Bare(b)
    ensures Pieces(b, quoted) == [b]
  {
    if b != "" {
      PiecesBare(b[1..], quoted);
      assert [b[0]] + b[1..] == b;
      assert Glue([b[0]], [b[1..]]) == [[b[0]] + b[1..]];
    }
  }

  lemma BlankIsBare(s: string)
    requires Blank(s)
    ensures Bare(s)
  {
  }

  lemma SameStrips(a: seq<string>, b: seq<string>, value: Option<string>)
    requires |a| == |b| && forall k :: 0 <= k < |a| ==> Strip(a[k]) == Strip(b[k])
    ensures Lists(a, value) <==> Lists(b, value)
  {
  }

  lemma AroundLeft(left: string, piece: string, right: string, first: bool, last: bool, whole: string)
    requires Blank(left) && Blank(right)
    requires whole == (if first then left else "") + piece + (if last then right else "")
    ensures Strip(whole) == Strip(piece)
  {
    var l, r := if first then left else "", if last then right else "";
    assert l + (piece + r) == l + piece + r;
    StripAround(left, piece, right, first, last, whole);
  }

  lemma TrimmedHeader(header: string, value: Option<string>)
    ensures Lists(Pieces(Strip(header), false), value) <==> Lists(Pieces(header, false), value)
  {
    var left, right := StripSplit(header);
    var v := Strip(header);
    BlankIsBare(left);
    BlankIsBare(right);
    PiecesPrefix(left, v);
    PiecesSuffix(left + v, false, right);
    var p, m, w := Pieces(v, false), Pieces(left + v, false), Pieces(header, false);
    forall k | 0 <= k < |p| ensures Strip(w[k]) == Strip(p[k]) {
      assert m[k] == (if k == 0 then left else "") + p[k] by { assert "" + p[k] == p[k]; }
      assert w[k] == m[k] + (if k == |p| - 1 then right else "") by { assert m[k] + "" == m[k]; }
      AroundLeft(left, p[k], right, k == 0, k == |p| - 1, w[k]);
    }
    SameStrips(p, w, value);
  }

  // ---- printed lists ------------------------------------------------------------------------------

  /** A list element: an entity tag with white space around it, or something with no quote and no comma. */
  datatype Element = Tag(before: string, weak: bool, value: string, after: string) | Junk(text: string)

  ghost predicate WellFormed(e: Element) {
    match e
    case Tag(before, _, value, after) => Blank(before) && Blank(after) && value != "" && '"' !in value
    case Junk(text) => Bare(text)
  }

  function Core(weak: bool, value: string): string {
    (if weak then "W/\"" else "\"") + value + "\""
  }

  function PrintElement(e: Element): string {
    match e
    case Tag(before, weak, value, after) => before + Core(weak, value) + after
    case Junk(text) => text
  }

  function PrintList(elements: seq<Element>): string
    requires elements != []
  {
    PrintElement(elements[0]) + (if |elements| == 1 then "" else "," + PrintList(elements[1..]))
  }

  lemma {:induction false} PiecesQuoted(a: string, t: string)
    requires '"' !in a
    ensures Pieces(a + t, true) == Glue(a, Pieces(t, true))
  {
    if a == "" {
      assert a + t == t;
      GlueNothing(Pieces(t, true));
    } else {
      assert a[0] in a;
      PiecesQuoted(a[1..], t);
      assert (a + t)[1..] == a[1..] + t;
      GlueTwice([a[0]], a[1..], Pieces(t, true));
      assert [a[0]] + a[1..] == a;
    }
  }

  /** Reading `a` first keeps it whole and leaves the rest to be cut from outside quotes. */
  ghost predicate Whole(a: string, t: string) {
    Pieces(a + t, false) == Glue(a, Pieces(t, false))
  }

  lemma QuotedWhole(value: string, t: string)
    requires '"' !in value
    ensures Whole("\"" + value + "\"", t)
  {
    var r := Pieces(t, false);
    var closing := "\"" + t;
    assert closing[1..] == t;
    assert Pieces(closing, true) == Glue("\"", r);
    PiecesQuoted(value, closing);
    GlueTwice(value, "\"", r);
    var inner := value + closing;
    var s := "\"" + inner;
    assert s[1..] == inner;
    assert Pieces(s, false) == Glue("\"", Pieces(inner, true));
    GlueTwice("\"", value + "\"", r);
    assert s == "\"" + value + "\"" + t;
    assert "\"" + (value + "\"") == "\"" + value + "\"";
  }

  lemma WholeAfterBare(bare: string, a: string, t: string)
    requires Bare(bare) && Whole(a, t)
    ensures Whole(bare + a, t)
  {
    PiecesPrefix(bare, a + t);
    assert bare + a + t == bare + (a + t);
    GlueTwice(bare, a, Pieces(t, false));
  }

  lemma WholeBeforeBare(a: string, bare: string, t: string)
    requires Bare(bare) && Whole(a, bare + t)
    ensures Whole(a + bare, t)
  {
    PiecesPrefix(bare, t);
    assert a + bare + t == a + (bare + t);
    GlueTwice(a, bare, Pieces(t, false));
  }

  lemma CoreWhole(weak: bool, value: string, t: string)
    requires '"' !in value
    ensures Whole(Core(weak, value), t)
  {
    QuotedWhole(value, t);
    if weak {
      WholeAfterBare("W/", "\"" + value + "\"", t);
      assert Core(true, value) == "W/" + ("\"" + value + "\"");
    }
  }

  lemma ElementWhole(e: Element, t: string)
    requires WellFormed(e)
    ensures Whole(PrintElement(e), t)
  {
    match e
    case Junk(text) => PiecesPrefix(text, t);
    case Tag(before, weak, value, after) =>
      BlankIsBare(before);
      BlankIsBare(after);
      CoreWhole(weak, value, after + t);
      WholeAfterBare(before, Core(weak, value), after + t);
      WholeBeforeBare(before + Core(weak, value), after, t);
  }

  ghost predicate AllWellFormed(elements: seq<Element>) {
    forall k :: 0 <= k < |elements| ==> WellFormed(elements[k])
  }

  function Printed(elements: seq<Element>): seq<string> {
    seq(|elements|, k requires 0 <= k < |elements| => PrintElement(elements[k]))
  }

  /** A comma inside a quoted tag does not cut it: the pieces of a printed list are its elements. */
  lemma {:induction false} PiecesOfList(elements: seq<Element>)
    requires elements != [] && AllWellFormed(elements)
    ensures Pieces(PrintList(elements), false) == Printed(elements)
  {
    var first := PrintElement(elements[0]);
    if |elements| == 1 {
      ElementWhole(elements[0], "");
      assert first + "" == first;
      assert Glue(first, [""]) == [first];
    } else {
      var more := PrintList(elements[1..]);
      PiecesOfList(elements[1..]);
      ElementWhole(elements[0], "," + more);
      assert ("," + more)[1..] == more;
      GlueAlone(first, Pieces(more, false));
      assert Printed(elements) == [first] + Printed(elements[1..]);
    }
  }

  lemma OpaqueOfCore(weak: bool, value: string)
    requires value != "" && '"' !in value
    ensures OpaqueTag(Core(weak, value)) == Some(value)
    ensures Strip(Core(weak, value)) == Core(weak, value)
  {
    var c := Core(weak, value);
    var q := "\"" + value + "\"";
    if weak {
      assert c[..2] == "W/" && c[2..] == q;
    } else {
      assert c == q && c[0] == '"';
    }
    assert q[1..|q| - 1] == value && q[|q| - 1] == '"';
    assert c[|c| - 1] == '"';
    StripTrimmed(c);
  }

  /** A candidate has an opaque value if and only if it is that value, not empty and free of quotes, in quotes, perhaps marked weak. */
  lemma OpaqueTagIff(candidate: string, value: string)
    ensures OpaqueTag(candidate) == Some(value) <==>
              value != "" && '"' !in value && (candidate == Core(false, value) || candidate == Core(true, value))
  {
    if value != "" && '"' !in value {
      OpaqueOfCore(false, value);
      OpaqueOfCore(true, value);
    }
    if OpaqueTag(candidate) == Some(value) {
      var c := if StartsWith(candidate, "W/") then candidate[2..] else candidate;
      assert c == "\"" + value + "\"";
      if StartsWith(candidate, "W/") { assert candidate == "W/" + c; }
    }
  }

  lemma JunkIsNoTag(s: string)
    requires '"' !in s
    ensures OpaqueTag(s).None?
  {
    TagHasQuote(s);
  }

  lemma TagHasQuote(s: string)
    ensures OpaqueTag(s).Some? ==> '"' in s
  {
    if OpaqueTag(s).Some? {
      var c := if StartsWith(s, "W/") then s[2..] else s;
      assert c[0] in s;
    }
  }

  lemma OpaqueOfElement(e: Element)
    requires WellFormed(e)
    ensures OpaqueTag(Strip(PrintElement(e))) == if e.Tag? then Some(e.value) else None
  {
    match e
    case Tag(before, weak, value, after) =>
      StripBlanks(before, Core(weak, value), after);
      OpaqueOfCore(weak, value);
    case Junk(text) =>
      var left, right := StripSplit(text);
      assert forall k :: 0 <= k < |Strip(text)| ==> Strip(text)[k] == text[|left| + k];
      JunkIsNoTag(Strip(text));
  }

  /**
   * For every printed list of entity tags, weak or strong, with any white space, commas inside
   * tags and malformed elements in between: the header matches a tag exactly when the tag's
   * opaque value is in the list (or the list is a lone star).
   */
  lemma MatchesPrintedList(elements: seq<Element>, weak: bool, value: string)
    requires elements != [] && AllWellFormed(elements) && value != "" && '"' !in value
    ensures Matches(Some(PrintList(elements)), Core(weak, value))
       <==> (Strip(PrintList(elements)) == "*"
             || exists k :: 0 <= k < |elements| && elements[k].Tag? && elements[k].value == value)
  {
    var header := PrintList(elements);
    var pieces := Pieces(header, false);
    PiecesOfList(elements);
    OpaqueOfCore(weak, value);
    forall k | 0 <= k < |elements|
      ensures OpaqueTag(Strip(pieces[k])) == if elements[k].Tag? then Some(elements[k].value) else None
    {
      OpaqueOfElement(elements[k]);
    }
    if Strip(header) == "" {
      BlankNamesNothing(header, Some(value));
    }
    ListsElements(pieces, elements, value);
  }

  lemma ListsElements(pieces: seq<string>, elements: seq<Element>, value: string)
    requires |pieces| == |elements|
    requires forall k :: 0 <= k < |elements| ==> OpaqueTag(Strip(pieces[k])) == if elements[k].Tag? then Some(elements[k].value) else None
    ensures Lists(pieces, Some(value)) <==> exists k :: 0 <= k < |elements| && elements[k].Tag? && elements[k].value == value
  {
    if Lists(pieces, Some(value)) {
      var k :| 0 <= k < |pieces| && OpaqueTag(Strip(pieces[k])) == Some(value);
      assert elements[k].Tag?;
    }
    if k :| 0 <= k < |elements| && elements[k].Tag? && elements[k].value == value {
      assert OpaqueTag(Strip(pieces[k])) == Some(value);
    }
  }

  lemma BlankNamesNothing(header: string, value: Option<string>)
    requires Strip(header) == ""
    ensures !Lists(Pieces(header, false), value)
  {
    var left, right := StripSplit(header);
    assert header == left + right;
    BlankIsBare(header);
    PiecesBare(header, false);
    assert OpaqueTag("").None?;
  }
}
