/**
 * Printing file sections as a unified diff and reading them back.
 *
 * The printer covers the forms the reader documents: a section may open with an `Index:` line
 * and a separator, with a `diff --git` line and git's extended headers, or with the header pair
 * alone; either side of the pair may be the null device, may carry an `a/` or `b/` prefix or
 * none, and may end with a tab and a timestamp or not.
 */
module DiffRoundTrip {
  import opened Prelude
  import opened Text
  import opened DiffParser

  datatype BodyLine = Context(text: string) | Added(text: string) | Removed(text: string) | NoNewline(text: string)

  /** `terse` omits a count of one, as git does; `tail` is the text after the closing `@@`. */
  datatype Hunk = Hunk(oldStart: nat, oldCount: nat, newStart: nat, newCount: nat, terse: bool, tail: string, body: seq<BodyLine>)

  /** What comes before the header pair. */
  datatype Lead = Indexed | Git(names: string, extended: seq<string>) | Bare

  /** One side of the header pair. */
  datatype Side = NullDevice(stamp: Option<string>) | Named(prefix: string, name: string, stamp: Option<string>)

  datatype Section = Section(lead: Lead, before: Side, after: Side, path: string, hunks: seq<Hunk>)

  // ---- the printer ---------------------------------------------------------------------

  function PrintLine(b: BodyLine): string {
    match b
    case Context(t) => [' '] + t
    case Added(t) => ['+'] + t
    case Removed(t) => ['-'] + t
    case NoNewline(t) => ['\\'] + t
  }

  function PrintBody(body: seq<BodyLine>): seq<string> {
    if body == [] then [] else [PrintLine(body[0])] + PrintBody(body[1..])
  }

  function Adds(body: seq<BodyLine>): nat {
    if body == [] then 0 else (if body[0].Added? then 1 else 0) + Adds(body[1..])
  }

  function Dels(body: seq<BodyLine>): nat {
    if body == [] then 0 else (if body[0].Removed? then 1 else 0) + Dels(body[1..])
  }

  function Contexts(body: seq<BodyLine>): nat {
    if body == [] then 0 else (if body[0].Context? then 1 else 0) + Contexts(body[1..])
  }

  function PrintCount(n: nat, terse: bool): string {
    if terse && n == 1 then "" else "," + Numeral(n)
  }

  function PrintRange(start: nat, n: nat, terse: bool): string {
    Numeral(start) + PrintCount(n, terse)
  }

  function Header(r1: string, r2: string, tail: string): string {
    "@@ -" + (r1 + (" +" + (r2 + (" @@" + tail))))
  }

  function PrintHeader(h: Hunk): string {
    Header(PrintRange(h.oldStart, h.oldCount, h.terse), PrintRange(h.newStart, h.newCount, h.terse), h.tail)
  }

  function PrintHunks(header: Hunk -> string, hunks: seq<Hunk>): seq<string> {
    if hunks == [] then [] else [header(hunks[0])] + PrintBody(hunks[0].body) + PrintHunks(header, hunks[1..])
  }

  function Repeat(c: char, n: nat): (s: string)
    ensures |s| == n && forall k :: 0 <= k < n ==> s[k] == c
  {
    if n == 0 then "" else [c] + Repeat(c, n - 1)
  }

  function PrintPair(oldRaw: string, newRaw: string): seq<string> {
    ["--- " + oldRaw, "+++ " + newRaw]
  }

  function PrintStamp(stamp: Option<string>): string {
    if stamp.None? then "" else ['\t'] + stamp.value
  }

  function PrintSide(side: Side): string {
    match side
    case NullDevice(stamp) => "/dev/null" + PrintStamp(stamp)
    case Named(prefix, name, stamp) => prefix + name + PrintStamp(stamp)
  }

  function PrintLead(s: Section): seq<string> {
    match s.lead
    case Indexed => ["Index: " + s.path, Repeat('=', 67)]
    case Git(names, extended) => ["diff --git " + names] + extended
    case Bare => []
  }

  function PrintOpening(s: Section): seq<string> {
    PrintLead(s) + PrintPair(PrintSide(s.before), PrintSide(s.after))
  }

  /** How a section opens and how a hunk is announced; kept apart so that the layout below does not depend on it. */
  datatype Forms = Forms(opening: Section -> seq<string>, header: Hunk -> string)

  const UNIFIED_DIFF := Forms(PrintOpening, PrintHeader)

  function PrintSections(forms: Forms, sections: seq<Section>): seq<string> {
    if sections == [] then []
    else forms.opening(sections[0]) + PrintHunks(forms.header, sections[0].hunks) + PrintSections(forms, sections[1..])
  }

  /** The diff text: every line ends with a newline. */
  function Print(sections: seq<Section>): string {
    Join(PrintSections(UNIFIED_DIFF, sections) + [""], '\n')
  }

  // ---- what the reader should find -------------------------------------------------------

  function HunkAdds(hunks: seq<Hunk>): nat {
    if hunks == [] then 0 else Adds(hunks[0].body) + HunkAdds(hunks[1..])
  }

  function HunkDels(hunks: seq<Hunk>): nat {
    if hunks == [] then 0 else Dels(hunks[0].body) + HunkDels(hunks[1..])
  }

  function Stat(s: Section): FileStat {
    FileStat(s.path, HunkAdds(s.hunks), HunkDels(s.hunks))
  }

  function Stats(sections: seq<Section>): seq<FileStat> {
    if sections == [] then [] else [Stat(sections[0])] + Stats(sections[1..])
  }

  // ---- which sections can be printed ---------------------------------------------------------

  ghost predicate OneLine(s: string) {
    '\n' !in s
  }

  ghost predicate PrintableHunk(h: Hunk) {
    && OneLine(h.tail) && (forall k :: 0 <= k < |h.body| ==> OneLine(h.body[k].text))
    && h.oldCount == Contexts(h.body) + Dels(h.body) && h.newCount == Contexts(h.body) + Adds(h.body)
  }

  ghost predicate OneLineSide(side: Side) {
    OneLine(PrintSide(side))
  }

  /** The side spells `path` so that it can be told: no tab, no final CR unless a stamp follows, and no prefix but the printed one. */
  ghost predicate Names(side: Side, path: string) {
    && side.Named? && side.name == path && path != [] && '\t' !in path
    && (side.prefix == "a/" || side.prefix == "b/"
        || (side.prefix == "" && path != "/dev/null" && !StartsWith(path, "a/") && !StartsWith(path, "b/")))
    && (side.stamp.None? ==> path[|path| - 1] != '\r')
  }

  /** A line between `diff --git` and the header pair. */
  ghost predicate Extended(line: string) {
    && OneLine(line)
    && !StartsWith(line, "--- ") && !StartsWith(line, "+++ ") && !StartsWith(line, "diff --git ") && !StartsWith(line, "Index: ")
  }

  /**
   * Hunk counts match their bodies and every name fits on its line. An index line gives a trimmed
   * path, whatever the pair says; otherwise the new side names it, or the old one if the new side
   * is the null device.
   */
  ghost predicate Printable(s: Section) {
    && s.path != [] && OneLine(s.path) && OneLineSide(s.before) && OneLineSide(s.after)
    && (match s.lead
        case Indexed => !IsSpace(s.path[0]) && !IsSpace(s.path[|s.path| - 1])
        case Git(names, extended) => OneLine(names) && forall k :: 0 <= k < |extended| ==> Extended(extended[k])
        case Bare => true)
    && (!s.lead.Indexed? ==> if s.after.Named? then Names(s.after, s.path) else Names(s.before, s.path))
    && (forall k :: 0 <= k < |s.hunks| ==> PrintableHunk(s.hunks[k]))
  }

  // ---- lines that look like headers --------------------------------------------------------------

  /** A deleted line that prints as `--- ...`. */
  predicate LooksOld(b: BodyLine) {
    b.Removed? && StartsWith(b.text, "-- ")
  }

  /** An added line that prints as `+++ ...`. */
  predicate LooksNew(b: BodyLine) {
    b.Added? && StartsWith(b.text, "++ ")
  }

  /** No `---`-looking deletion directly followed by a `+++`-looking addition; `after` if the line before was one. */
  predicate Clean(body: seq<BodyLine>, after: bool) {
    body == [] || (!(after && LooksNew(body[0])) && Clean(body[1..], LooksOld(body[0])))
  }

  predicate CleanHunks(hunks: seq<Hunk>) {
    hunks == [] || (Clean(hunks[0].body, false) && CleanHunks(hunks[1..]))
  }

  predicate CleanSections(sections: seq<Section>) {
    sections == [] || (CleanHunks(sections[0].hunks) && CleanSections(sections[1..]))
  }

  // ---- printed lines as the reader sees them -----------------------------------------------------

  lemma HeadMismatch(s: string, prefix: string)
    requires s != [] && prefix != [] && s[0] != prefix[0]
    ensures !StartsWith(s, prefix)
  {
  }

  lemma HeadMatch(c: char, t: string, prefix: string)
    requires prefix != [] && prefix[0] == c
    ensures StartsWith([c] + t, prefix) <==> StartsWith(t, prefix[1..])
  {
    if StartsWith([c] + t, prefix) {
      assert t[..|prefix| - 1] == ([c] + t)[..|prefix|][1..];
    }
    if StartsWith(t, prefix[1..]) {
      assert ([c] + t)[..|prefix|] == [c] + t[..|prefix| - 1] == prefix;
    }
  }

  ghost predicate Plain(line: string) {
    !StartsWith(line, "diff --git ") && !StartsWith(line, "Index: ") && !StartsWith(line, "@@")
  }

  /** How the reader classifies a printed body line. */
  lemma Classified(b: BodyLine)
    ensures var line := ChopCR(PrintLine(b));
            && Plain(line)
            && (StartsWith(line, "+") <==> b.Added?)
            && (StartsWith(line, "-") <==> b.Removed?)
            && (StartsWith(line, "\\") <==> b.NoNewline?)
            && (StartsWith(line, "+++ ") <==> LooksNew(b))
            && (StartsWith(line, "--- ") <==> LooksOld(b))
  {
    var raw := PrintLine(b);
    ClassifiedRaw(b);
    ChopKeepsPrefix(raw, "diff --git ");
    ChopKeepsPrefix(raw, "Index: ");
    ChopKeepsPrefix(raw, "@@");
    ChopKeepsPrefix(raw, "+");
    ChopKeepsPrefix(raw, "-");
    ChopKeepsPrefix(raw, "\\");
    ChopKeepsPrefix(raw, "+++ ");
    ChopKeepsPrefix(raw, "--- ");
  }

  lemma ClassifiedRaw(b: BodyLine)
    ensures var line := PrintLine(b);
            && Plain(line)
            && (StartsWith(line, "+") <==> b.Added?)
            && (StartsWith(line, "-") <==> b.Removed?)
            && (StartsWith(line, "\\") <==> b.NoNewline?)
            && (StartsWith(line, "+++ ") <==> LooksNew(b))
            && (StartsWith(line, "--- ") <==> LooksOld(b))
  {
    var line := PrintLine(b);
    HeadMismatch(line, "diff --git ");
    HeadMismatch(line, "Index: ");
    HeadMismatch(line, "@@");
    if b.Added? {
      HeadMatch('+', b.text, "+++ ");
      assert "+++ "[1..] == "++ ";
    } else {
      HeadMismatch(line, "+++ ");
    }
    if b.Removed? {
      HeadMatch('-', b.text, "--- ");
      assert "--- "[1..] == "-- ";
    } else {
      HeadMismatch(line, "--- ");
    }
  }

  // ---- reading a hunk -------------------------------------------------------------------------

  function Cost(b: BodyLine): nat {
    if b.Context? then 2 else if b.NoNewline? then 0 else 1
  }

  function Need(body: seq<BodyLine>): nat {
    if body == [] then 0 else Cost(body[0]) + Need(body[1..])
  }

  lemma {:induction false} NeedIsBudget(body: seq<BodyLine>)
    ensures Need(body) == 2 * Contexts(body) + Dels(body) + Adds(body)
  {
    if body != [] {
      NeedIsBudget(body[1..]);
    }
  }

  lemma AfterPrefix(prefix: string, t: string)
    ensures StartsWith(prefix + t, prefix) && (prefix + t)[|prefix|..] == t
  {
    assert (prefix + t)[..|prefix|] == prefix;
  }

  ghost predicate AllDigits(d: string) {
    d != [] && forall k :: 0 <= k < |d| ==> IsDigit(d[k])
  }

  lemma RangeShort(d: string, rest: string)
    requires AllDigits(d) && rest != [] && !IsDigit(rest[0]) && rest[0] != ','
    ensures RangeCount(d + rest) == Some((1, rest))
  {
    TakeDigitsOf(d, rest);
    HeadMismatch(rest, ",");
  }

  lemma RangeLong(d: string, e: string, rest: string)
    requires AllDigits(d) && AllDigits(e) && rest != [] && !IsDigit(rest[0])
    ensures RangeCount(d + ("," + (e + rest))) == Some((ValueOf(e), rest))
  {
    var tail := "," + (e + rest);
    TakeDigitsOf(d, tail);
    AfterPrefix(",", e + rest);
    TakeDigitsOf(e, rest);
  }

  lemma Regroup(a: string, b: string, c: string)
    ensures a + b + c == a + (b + c)
  {
  }

  lemma RangeReads(start: nat, n: nat, terse: bool, rest: string)
    requires rest != [] && !IsDigit(rest[0]) && rest[0] != ','
    ensures RangeCount(PrintRange(start, n, terse) + rest) == Some((n, rest))
  {
    var d, e := Numeral(start), Numeral(n);
    if terse && n == 1 {
      Regroup(d, "", rest);
      assert "" + rest == rest;
      RangeShort(d, rest);
    } else {
      Regroup(d, "," + e, rest);
      Regroup(",", e, rest);
      RangeLong(d, e, rest);
      ValueOfNumeral(n);
    }
  }

  lemma HeaderShape(r1: string, n1: nat, r2: string, n2: nat, tail: string)
    requires RangeCount(r1 + (" +" + (r2 + (" @@" + tail)))) == Some((n1, " +" + (r2 + (" @@" + tail))))
    requires RangeCount(r2 + (" @@" + tail)) == Some((n2, " @@" + tail))
    ensures HunkBudget(Header(r1, r2, tail)) == Some(n1 + n2)
  {
    AfterPrefix("@@ -", r1 + (" +" + (r2 + (" @@" + tail))));
    AfterPrefix(" +", r2 + (" @@" + tail));
    AfterPrefix(" @@", tail);
  }

  lemma RangesRead(s1: nat, n1: nat, s2: nat, n2: nat, terse: bool, tail: string)
    ensures HunkBudget(Header(PrintRange(s1, n1, terse), PrintRange(s2, n2, terse), tail)) == Some(n1 + n2)
  {
    var r2 := PrintRange(s2, n2, terse);
    RangeReads(s1, n1, terse, " +" + (r2 + (" @@" + tail)));
    RangeReads(s2, n2, terse, " @@" + tail);
    HeaderShape(PrintRange(s1, n1, terse), n1, r2, n2, tail);
  }

  /** The budget of a line that only reads as a hunk header. */
  function Budget(line: string): Option<nat> {
    if StartsWith(line, "@@") && !StartsWith(line, "diff --git ") && !StartsWith(line, "Index: ") then HunkBudget(line)
    else None
  }

  /** A line the reader takes as the header of a hunk of `n` old and new lines. */
  ghost predicate Announces(line: string, n: nat) {
    Budget(line) == Some(n)
  }

  lemma HeaderAnnounces(s1: nat, n1: nat, s2: nat, n2: nat, terse: bool, tail: string)
    ensures Announces(Header(PrintRange(s1, n1, terse), PrintRange(s2, n2, terse), tail), n1 + n2)
  {
    RangesRead(s1, n1, s2, n2, terse, tail);
    HeaderMarks(PrintRange(s1, n1, terse), PrintRange(s2, n2, terse), tail);
  }

  lemma HeaderMarks(r1: string, r2: string, tail: string)
    ensures var line := Header(r1, r2, tail);
            StartsWith(line, "@@") && !StartsWith(line, "diff --git ") && !StartsWith(line, "Index: ")
  {
    var line := Header(r1, r2, tail);
    assert line[..2] == "@@";
    HeadMismatch(line, "diff --git ");
    HeadMismatch(line, "Index: ");
  }

  lemma HeaderChop(r1: string, r2: string, tail: string)
    ensures ChopCR(Header(r1, r2, tail)) == Header(r1, r2, ChopCR(tail))
  {
    var pre := "@@ -" + (r1 + (" +" + (r2 + " @@")));
    forall t: string ensures Header(r1, r2, t) == pre + t {
      HeaderSplit(r1, r2, t);
    }
    ChopAppend(pre, tail);
  }

  lemma HeaderSplit(r1: string, r2: string, t: string)
    ensures Header(r1, r2, t) == ("@@ -" + (r1 + (" +" + (r2 + " @@")))) + t
  {
    var a := r2 + " @@";
    Regroup(r2, " @@", t);
    Regroup(" +", a, t);
    Regroup(r1, " +" + a, t);
    Regroup("@@ -", r1 + (" +" + a), t);
  }

  /** The state once a hunk of `n` old and new lines is announced. */
  function Announced(p: Reader, n: nat): Reader {
    p.(pendingOld := None, pendingCounted := false, hunkLeft := Some(n), mode := if n != 0 then InHunk else InFile)
  }

  /** The printed header as the reader gets it: a final CR is chopped first. */
  lemma PrintedAnnounces(s1: nat, n1: nat, s2: nat, n2: nat, terse: bool, tail: string)
    ensures Announces(ChopCR(Header(PrintRange(s1, n1, terse), PrintRange(s2, n2, terse), tail)), n1 + n2)
  {
    HeaderChop(PrintRange(s1, n1, terse), PrintRange(s2, n2, terse), tail);
    HeaderAnnounces(s1, n1, s2, n2, terse, ChopCR(tail));
  }

  lemma HeaderStep(p: Reader, raw: string, n: nat)
    requires p.mode == InFile && p.current.Some? && p.pendingOld.None?
    requires Announces(ChopCR(raw), n)
    ensures Step(p, raw) == Announced(p, n)
  {
  }

  lemma {:induction false} ChopAppend(pre: string, t: string)
    requires pre != [] && pre[|pre| - 1] != '\r'
    ensures ChopCR(pre + t) == pre + ChopCR(t)
  {
    if t == [] {
      assert pre + t == pre;
    } else if t[|t| - 1] == '\r' {
      assert (pre + t)[..|pre + t| - 1] == pre + t[..|t| - 1];
      ChopAppend(pre, t[..|t| - 1]);
    }
  }

  function Tallied(f: FileStat, b: BodyLine): FileStat {
    Plus(f, if b.Added? then 1 else 0, if b.Removed? then 1 else 0)
  }

  /** One body line inside the budget, unless it completes a header-looking pair. */
  lemma BodyStep(p: Reader, b: BodyLine)
    requires p.mode == InHunk && p.hunkLeft.Some? && p.hunkLeft.value > 0 && p.current.Some?
    requires !(p.pendingOld.Some? && LooksNew(b))
    ensures var q, left := Step(p, PrintLine(b)), p.hunkLeft.value - Cost(b);
            && q == p.(current := Some(Tallied(p.current.value, b)), hunkLeft := Some(left),
                       mode := if left <= 0 then InFile else InHunk,
                       pendingOld := q.pendingOld, pendingCounted := q.pendingCounted)
            && (q.pendingOld.Some? <==> left > 0 && LooksOld(b))
            && q.pendingCounted == q.pendingOld.Some?
  {
    Classified(b);
  }

  lemma {:induction false} TrailingIgnored(p: Reader, body: seq<BodyLine>)
    requires p.mode == InFile && Need(body) == 0
    ensures Fold(p, PrintBody(body)) == p
    decreases |body|
  {
    if body != [] {
      Classified(body[0]);
      TrailingIgnored(p, body[1..]);
      assert PrintBody(body)[1..] == PrintBody(body[1..]);
    }
  }

  function Plus(f: FileStat, a: int, d: int): FileStat {
    FileStat(f.path, f.additions + a, f.deletions + d)
  }

  function Counts(f: FileStat, body: seq<BodyLine>): FileStat {
    Plus(f, Adds(body), Dels(body))
  }

  lemma {:induction false} BodyRound(p: Reader, body: seq<BodyLine>)
    requires p.mode == InHunk && p.hunkLeft == Some(Need(body) as int) && Need(body) > 0
    requires p.current.Some? && Clean(body, p.pendingOld.Some?)
    ensures Fold(p, PrintBody(body))
         == p.(mode := InFile, current := Some(Counts(p.current.value, body)), hunkLeft := Some(0),
               pendingOld := None, pendingCounted := false)
    decreases |body|
  {
    BodyStep(p, body[0]);
    var p1 := Step(p, PrintLine(body[0]));
    BodyUnfold(p, body);
    if Need(body[1..]) > 0 {
      BodyRound(p1, body[1..]);
    } else {
      TrailingIgnored(p1, body[1..]);
      NoneNeeded(body[1..]);
    }
    CountsUnfold(p.current.value, body);
  }

  lemma CountsUnfold(f: FileStat, body: seq<BodyLine>)
    requires body != []
    ensures Counts(f, body) == Counts(Tallied(f, body[0]), body[1..])
  {
  }

  lemma BodyUnfold(p: Reader, body: seq<BodyLine>)
    requires body != []
    ensures Fold(p, PrintBody(body)) == Fold(Step(p, PrintLine(body[0])), PrintBody(body[1..]))
  {
    assert PrintBody(body)[1..] == PrintBody(body[1..]);
  }

  lemma {:induction false} NoneNeeded(body: seq<BodyLine>)
    requires Need(body) == 0
    ensures Adds(body) == 0 && Dels(body) == 0 && Contexts(body) == 0 && Clean(body, true)
  {
    if body != [] {
      NoneNeeded(body[1..]);
      CleanWeaker(body[1..]);
    }
  }

  lemma CleanWeaker(body: seq<BodyLine>)
    requires Clean(body, true)
    ensures Clean(body, false)
  {
  }

  /** A state between hunks with section `f` open. */
  ghost predicate Ready(q: Reader, files: seq<FileStat>, f: FileStat) {
    q == Reader(files, InFile, Some(f), true, None, None, q.pendingCounted, q.hunkLeft)
  }

  lemma HunkRound(p: Reader, raw: string, body: seq<BodyLine>, f: FileStat)
    requires Ready(p, p.files, f) && Clean(body, false) && Announces(ChopCR(raw), Need(body))
    ensures Ready(Fold(p, [raw] + PrintBody(body)), p.files, Counts(f, body))
  {
    HeaderStep(p, raw, Need(body));
    var p1 := Announced(p, Need(body));
    assert ([raw] + PrintBody(body))[1..] == PrintBody(body);
    if Need(body) > 0 {
      BodyRound(p1, body);
    } else {
      TrailingIgnored(p1, body);
      NoneNeeded(body);
    }
  }

  ghost predicate GoodHeader(header: Hunk -> string) {
    forall h :: Announces(ChopCR(header(h)), h.oldCount + h.newCount)
  }

  lemma HunkAnnounces(h: Hunk)
    ensures Announces(ChopCR(PrintHeader(h)), h.oldCount + h.newCount)
  {
    PrintedAnnounces(h.oldStart, h.oldCount, h.newStart, h.newCount, h.terse, h.tail);
  }

  lemma UnifiedHeader()
    ensures GoodHeader(PrintHeader)
  {
    forall h: Hunk ensures Announces(ChopCR(PrintHeader(h)), h.oldCount + h.newCount) {
      HunkAnnounces(h);
    }
  }

  lemma FirstHunkRound(header: Hunk -> string, p: Reader, h: Hunk, f: FileStat)
    requires GoodHeader(header) && Ready(p, p.files, f) && Clean(h.body, false) && PrintableHunk(h)
    ensures Ready(Fold(p, [header(h)] + PrintBody(h.body)), p.files, Counts(f, h.body))
  {
    assert Announces(ChopCR(header(h)), h.oldCount + h.newCount);
    NeedIsBudget(h.body);
    HunkRound(p, header(h), h.body, f);
  }

  lemma {:induction false} HunksRound(header: Hunk -> string, p: Reader, hunks: seq<Hunk>, f: FileStat)
    requires GoodHeader(header) && Ready(p, p.files, f) && CleanHunks(hunks)
    requires forall k :: 0 <= k < |hunks| ==> PrintableHunk(hunks[k])
    ensures Ready(Fold(p, PrintHunks(header, hunks)), p.files, Plus(f, HunkAdds(hunks), HunkDels(hunks)))
    decreases |hunks|
  {
    if hunks == [] {
      assert Fold(p, PrintHunks(header, hunks)) == p;
    } else {
      FirstHunkRound(header, p, hunks[0], f);
      HunksRound(header, FirstHunk(header, p, hunks), hunks[1..], Counts(f, hunks[0].body));
      HunksUnfold(header, p, hunks);
      HunkSums(f, hunks);
    }
  }

  lemma HunkSums(f: FileStat, hunks: seq<Hunk>)
    requires hunks != []
    ensures Plus(Counts(f, hunks[0].body), HunkAdds(hunks[1..]), HunkDels(hunks[1..])) == Plus(f, HunkAdds(hunks), HunkDels(hunks))
  {
  }

  ghost function FirstHunk(header: Hunk -> string, p: Reader, hunks: seq<Hunk>): Reader
    requires hunks != []
  {
    Fold(p, [header(hunks[0])] + PrintBody(hunks[0].body))
  }

  lemma HunksUnfold(header: Hunk -> string, p: Reader, hunks: seq<Hunk>)
    requires hunks != []
    ensures Fold(p, PrintHunks(header, hunks)) == Fold(FirstHunk(header, p, hunks), PrintHunks(header, hunks[1..]))
  {
    FoldAppend(p, [header(hunks[0])] + PrintBody(hunks[0].body), PrintHunks(header, hunks[1..]));
  }

  // ---- reading the opening of a section ------------------------------------------------------------

  lemma FoldOne(p: Reader, line: string, rest: seq<string>)
    ensures Fold(p, [line] + rest) == Fold(Step(p, line), rest)
  {
    assert ([line] + rest)[1..] == rest;
  }

  /** A header pair read outside any hunk closes what is open and opens a section named by the pending index path or by the pair. */
  lemma PairOpens(p: Reader, l2: string, l3: string, path: string)
    requires p.mode != InHunk
    requires StartsWith(ChopCR(l2), "--- ") && StartsWith(ChopCR(l3), "+++ ")
    requires (if p.indexPath.Some? then p.indexPath else PairPath(ChopCR(l2)[4..], ChopCR(l3)[4..])) == Some(path)
    ensures Ready(Fold(p, [l2, l3]), Close(p).files, FileStat(path, 0, 0))
  {
    var line := ChopCR(l2);
    assert line[..4][0] == '-';
    HeadMismatch(line, "+++ ");
    HeadMismatch(line, "diff --git ");
    HeadMismatch(line, "Index: ");
    HeadMismatch(line, "@@");
    var p1 := p.(pendingOld := Some(line[4..]), pendingCounted := false);
    assert Step(p, l2) == p1;
    FoldOne(p, l2, [l3]);
    FoldOne(p1, l3, []);
    assert [l2] + [l3] == [l2, l3] && [l3] + [] == [l3];
  }

  lemma IndexedOpens(p: Reader, l0: string, l1: string, l2: string, l3: string, path: string)
    requires StartsWith(ChopCR(l0), "Index: ") && NonEmpty(Strip(ChopCR(l0)[7..])) == Some(path)
    requires ChopCR(l1) != [] && ChopCR(l1)[0] == '='
    requires StartsWith(ChopCR(l2), "--- ") && StartsWith(ChopCR(l3), "+++ ")
    ensures Ready(Fold(p, [l0, l1] + [l2, l3]), Close(p).files, FileStat(path, 0, 0))
  {
    assert ChopCR(l0)[..7][0] == 'I';
    HeadMismatch(ChopCR(l0), "+++ ");
    HeadMismatch(ChopCR(l0), "diff --git ");
    var p1 := Close(p).(indexPath := Some(path), hunkLeft := None, mode := InFile);
    assert Step(p, l0) == p1;
    SeparatorIgnored(p1, l1);
    FoldOne(p, l0, [l1] + [l2, l3]);
    FoldOne(p1, l1, [l2, l3]);
    assert [l0, l1] + [l2, l3] == [l0] + ([l1] + [l2, l3]);
    PairOpens(p1, l2, l3, path);
  }

  lemma SeparatorIgnored(p: Reader, l1: string)
    requires p.mode == InFile && ChopCR(l1) != [] && ChopCR(l1)[0] == '='
    ensures Step(p, l1) == p
  {
    var line := ChopCR(l1);
    HeadMismatch(line, "+++ ");
    HeadMismatch(line, "diff --git ");
    HeadMismatch(line, "Index: ");
    HeadMismatch(line, "@@");
    HeadMismatch(line, "--- ");
  }

  lemma ExtendedIgnored(p: Reader, line: string)
    requires p.mode == Idle && p.pendingOld.None? && Extended(line)
    ensures Step(p, line) == p
  {
    ChopKeepsPrefix(line, "--- ");
    ChopKeepsPrefix(line, "+++ ");
    ChopKeepsPrefix(line, "diff --git ");
    ChopKeepsPrefix(line, "Index: ");
  }

  lemma {:induction false} AllExtendedIgnored(p: Reader, lines: seq<string>)
    requires p.mode == Idle && p.pendingOld.None? && forall k :: 0 <= k < |lines| ==> Extended(lines[k])
    ensures Fold(p, lines) == p
  {
    if lines != [] {
      ExtendedIgnored(p, lines[0]);
      AllExtendedIgnored(p, lines[1..]);
    }
  }

  lemma GitLine(p: Reader, line: string)
    requires StartsWith(ChopCR(line), "diff --git ")
    ensures Step(p, line) == Close(p).(indexPath := None, hunkLeft := None, mode := Idle)
  {
    assert ChopCR(line)[..11][0] == 'd';
    HeadMismatch(ChopCR(line), "+++ ");
  }

  lemma GitOpens(p: Reader, l0: string, extended: seq<string>, l2: string, l3: string, path: string)
    requires StartsWith(ChopCR(l0), "diff --git ") && forall k :: 0 <= k < |extended| ==> Extended(extended[k])
    requires StartsWith(ChopCR(l2), "--- ") && StartsWith(ChopCR(l3), "+++ ")
    requires PairPath(ChopCR(l2)[4..], ChopCR(l3)[4..]) == Some(path)
    ensures Ready(Fold(p, [l0] + extended + [l2, l3]), Close(p).files, FileStat(path, 0, 0))
  {
    GitLine(p, l0);
    var p1 := Step(p, l0);
    assert [l0] + extended + [l2, l3] == [l0] + (extended + [l2, l3]);
    FoldOne(p, l0, extended + [l2, l3]);
    FoldAppend(p1, extended, [l2, l3]);
    AllExtendedIgnored(p1, extended);
    PairOpens(p1, l2, l3, path);
  }

  /** A line with a fixed first part: the reader finds that part, then what follows without its final CR. */
  lemma Chopped(prefix: string, t: string)
    requires prefix != [] && '\r' !in prefix
    ensures StartsWith(ChopCR(prefix + t), prefix) && ChopCR(prefix + t)[|prefix|..] == ChopCR(t)
  {
    AfterPrefix(prefix, t);
    ChopKeepsPrefix(prefix + t, prefix);
  }

  lemma TabFree(s: string)
    requires '\t' !in s
    ensures BeforeTab(s) == s
  {
    SplitPrefix(s, '\t', "");
    assert s + "" == s;
  }

  lemma UpToTab(a: string, stamp: string)
    requires '\t' !in a
    ensures BeforeTab(a + (['\t'] + stamp)) == a
  {
    SplitPrefix(a, '\t', ['\t'] + stamp);
    assert (['\t'] + stamp)[1..] == stamp;
    assert Split(['\t'] + stamp, '\t')[0] == "";
    assert a + "" == a;
  }

  /** What the reader makes of an operand without a tab and what may follow it. */
  lemma OperandReads(a: string, stamp: Option<string>)
    requires a != [] && '\t' !in a && (stamp.None? ==> a[|a| - 1] != '\r')
    ensures BeforeTab(ChopCR(a + PrintStamp(stamp))) == a
  {
    if stamp.None? {
      assert a + "" == a;
      ChopNothing(a);
      TabFree(a);
    } else {
      var pre := a + ['\t'];
      assert a + (['\t'] + stamp.value) == pre + stamp.value;
      ChopAppend(pre, stamp.value);
      assert pre + ChopCR(stamp.value) == a + (['\t'] + ChopCR(stamp.value));
      UpToTab(a, ChopCR(stamp.value));
    }
  }

  /** A path behind its prefix, or without one, is what is left of the operand. */
  lemma PrefixedPath(prefix: string, path: string)
    requires path != [] && '\t' !in path
    requires prefix == "a/" || prefix == "b/"
          || (prefix == "" && path != "/dev/null" && !StartsWith(path, "a/") && !StartsWith(path, "b/"))
    ensures var a := prefix + path; '\t' !in a && a != [] && a != "/dev/null" && HeaderPath(a) == path && a[|a| - 1] == path[|path| - 1]
  {
    var a := prefix + path;
    TabFree(a);
    if prefix == "" {
      assert a == path;
    } else {
      assert a[..2] == prefix && a[2..] == path;
      assert a[0] == prefix[0] && "/dev/null"[0] == '/';
    }
  }

  lemma SideReads(side: Side, path: string)
    requires Names(side, path)
    ensures var a := BeforeTab(ChopCR(PrintSide(side))); a != "/dev/null" && HeaderPath(a) == path
  {
    PrefixedPath(side.prefix, path);
    OperandReads(side.prefix + path, side.stamp);
  }

  lemma NullReads(side: Side)
    requires side.NullDevice?
    ensures BeforeTab(ChopCR(PrintSide(side))) == "/dev/null"
  {
    OperandReads("/dev/null", side.stamp);
  }

  /** The pair names the new side's path, or the old side's when the new side is the null device. */
  lemma PairNames(before: Side, after: Side, path: string)
    requires path != [] && if after.Named? then Names(after, path) else Names(before, path)
    ensures PairPath(ChopCR(PrintSide(before)), ChopCR(PrintSide(after))) == Some(path)
  {
    if after.Named? {
      SideReads(after, path);
    } else {
      NullReads(after);
      SideReads(before, path);
    }
  }

  /** Between sections: not in a hunk, no index path waiting. */
  ghost predicate Between(p: Reader) {
    p.mode != InHunk && p.indexPath.None?
  }

  ghost predicate GoodOpening(opening: Section -> seq<string>) {
    forall s, p :: Printable(s) && Between(p) ==> Ready(Fold(p, opening(s)), Close(p).files, FileStat(s.path, 0, 0))
  }

  lemma IndexedOpening(p: Reader, path: string, oldRaw: string, newRaw: string)
    requires path != [] && !IsSpace(path[0]) && !IsSpace(path[|path| - 1])
    ensures Ready(Fold(p, ["Index: " + path, Repeat('=', 67)] + ["--- " + oldRaw, "+++ " + newRaw]), Close(p).files, FileStat(path, 0, 0))
  {
    Chopped("Index: ", path);
    ChopNothing(path);
    StripTrimmed(path);
    var rule := Repeat('=', 67);
    ChopNothing(rule);
    Chopped("--- ", oldRaw);
    Chopped("+++ ", newRaw);
    IndexedOpens(p, "Index: " + path, rule, "--- " + oldRaw, "+++ " + newRaw, path);
  }

  lemma GitOpening(p: Reader, names: string, extended: seq<string>, oldRaw: string, newRaw: string, path: string)
    requires forall k :: 0 <= k < |extended| ==> Extended(extended[k])
    requires PairPath(ChopCR(oldRaw), ChopCR(newRaw)) == Some(path)
    ensures Ready(Fold(p, ["diff --git " + names] + extended + ["--- " + oldRaw, "+++ " + newRaw]), Close(p).files, FileStat(path, 0, 0))
  {
    Chopped("diff --git ", names);
    Chopped("--- ", oldRaw);
    Chopped("+++ ", newRaw);
    GitOpens(p, "diff --git " + names, extended, "--- " + oldRaw, "+++ " + newRaw, path);
  }

  lemma BareOpening(p: Reader, oldRaw: string, newRaw: string, path: string)
    requires Between(p) && PairPath(ChopCR(oldRaw), ChopCR(newRaw)) == Some(path)
    ensures Ready(Fold(p, [] + ["--- " + oldRaw, "+++ " + newRaw]), Close(p).files, FileStat(path, 0, 0))
  {
    Chopped("--- ", oldRaw);
    Chopped("+++ ", newRaw);
    assert [] + ["--- " + oldRaw, "+++ " + newRaw] == ["--- " + oldRaw, "+++ " + newRaw];
    PairOpens(p, "--- " + oldRaw, "+++ " + newRaw, path);
  }

  lemma OpeningRound(p: Reader, s: Section)
    requires Printable(s) && Between(p)
    ensures Ready(Fold(p, PrintOpening(s)), Close(p).files, FileStat(s.path, 0, 0))
  {
    var oldRaw, newRaw := PrintSide(s.before), PrintSide(s.after);
    if !s.lead.Indexed? { PairNames(s.before, s.after, s.path); }
    match s.lead
    case Indexed => IndexedOpening(p, s.path, oldRaw, newRaw);
    case Git(names, extended) => GitOpening(p, names, extended, oldRaw, newRaw, s.path);
    case Bare => BareOpening(p, oldRaw, newRaw, s.path);
  }

  lemma UnifiedOpening()
    ensures GoodOpening(PrintOpening)
  {
    forall s: Section, p: Reader | Printable(s) && Between(p)
      ensures Ready(Fold(p, PrintOpening(s)), Close(p).files, FileStat(s.path, 0, 0))
    {
      OpeningRound(p, s);
    }
  }

  // ---- clean sections read back exactly ---------------------------------------------------------

  ghost predicate GoodForms(forms: Forms) {
    GoodOpening(forms.opening) && GoodHeader(forms.header)
  }

  ghost predicate AllPrintable(sections: seq<Section>) {
    forall k :: 0 <= k < |sections| ==> Printable(sections[k])
  }

  ghost function ReadSection(forms: Forms, p: Reader, s: Section): Reader {
    Fold(Fold(p, forms.opening(s)), PrintHunks(forms.header, s.hunks))
  }

  lemma SectionsUnfold(forms: Forms, p: Reader, sections: seq<Section>)
    requires sections != []
    ensures Fold(p, PrintSections(forms, sections))
         == Fold(ReadSection(forms, p, sections[0]), PrintSections(forms, sections[1..]))
  {
    var opening, hunks := forms.opening(sections[0]), PrintHunks(forms.header, sections[0].hunks);
    FoldAppend(p, opening, hunks);
    FoldAppend(p, opening + hunks, PrintSections(forms, sections[1..]));
  }

  lemma SectionRound(forms: Forms, p: Reader, s: Section)
    requires GoodForms(forms) && Printable(s) && CleanHunks(s.hunks) && Between(p)
    ensures Ready(ReadSection(forms, p, s), Close(p).files, Stat(s))
  {
    var q := Fold(p, forms.opening(s));
    assert Ready(q, Close(p).files, FileStat(s.path, 0, 0));
    HunksRound(forms.header, q, s.hunks, FileStat(s.path, 0, 0));
  }

  lemma {:induction false} SectionsRound(forms: Forms, p: Reader, sections: seq<Section>)
    requires GoodForms(forms) && AllPrintable(sections) && CleanSections(sections) && Between(p)
    ensures Close(Fold(p, PrintSections(forms, sections))).files == Close(p).files + Stats(sections)
    decreases |sections|
  {
    if sections == [] {
      assert Fold(p, PrintSections(forms, sections)) == p;
      assert Stats(sections) == [];
    } else {
      SectionRound(forms, p, sections[0]);
      SectionsRound(forms, ReadSection(forms, p, sections[0]), sections[1..]);
      SectionsUnfold(forms, p, sections);
      StatsCons(Close(p).files, sections);
    }
  }

  lemma StatsCons(files: seq<FileStat>, sections: seq<Section>)
    requires sections != []
    ensures (files + [Stat(sections[0])]) + Stats(sections[1..]) == files + Stats(sections)
  {
  }

  lemma {:induction false} SectionsCalm(forms: Forms, p: Reader, sections: seq<Section>)
    requires GoodForms(forms) && AllPrintable(sections) && CleanSections(sections) && Between(p)
    ensures Fold(p, PrintSections(forms, sections)).mode != InHunk
    decreases |sections|
  {
    if sections == [] {
      assert Fold(p, PrintSections(forms, sections)) == p;
    } else {
      SectionRound(forms, p, sections[0]);
      SectionsUnfold(forms, p, sections);
      SectionsCalm(forms, ReadSection(forms, p, sections[0]), sections[1..]);
    }
  }

  // ---- an unclean section never reads back --------------------------------------------------------

  lemma StepGrows(p: Reader, raw: string)
    ensures p.files <= Step(p, raw).files
  {
  }

  lemma {:induction false} FoldGrows(p: Reader, lines: seq<string>)
    ensures p.files <= Fold(p, lines).files
    decreases |lines|
  {
    if lines != [] {
      StepGrows(p, lines[0]);
      FoldGrows(Step(p, lines[0]), lines[1..]);
    }
  }

  lemma {:induction false} UncleanNeeds(body: seq<BodyLine>, after: bool)
    requires !Clean(body, after)
    ensures Need(body) > 0
  {
    if !(after && LooksNew(body[0])) {
      UncleanNeeds(body[1..], LooksOld(body[0]));
    }
  }

  /** The list has gained a section whose deletions stay below `bound`. */
  ghost predicate Short(q: Reader, files: seq<FileStat>, bound: int) {
    |q.files| > |files| && files <= q.files && q.files[|files|].deletions < bound
  }

  lemma ShortStays(q: Reader, lines: seq<string>, files: seq<FileStat>, bound: int)
    requires Short(q, files, bound)
    ensures Short(Fold(q, lines), files, bound)
  {
    FoldGrows(q, lines);
  }

  /** The addition that looks like `+++ ` after a deletion that looks like `--- ` closes the section one deletion short. */
  lemma PairSplits(p: Reader, b: BodyLine)
    requires p.current.Some? && p.paired && p.pendingOld.Some? && p.pendingCounted && LooksNew(b)
    ensures Short(Step(p, PrintLine(b)), p.files, p.current.value.deletions)
  {
    Classified(b);
  }

  lemma {:induction false} BodySplits(p: Reader, body: seq<BodyLine>)
    requires p.mode == InHunk && p.hunkLeft == Some(Need(body) as int) && Need(body) > 0
    requires p.current.Some? && p.paired && (p.pendingOld.Some? ==> p.pendingCounted)
    requires !Clean(body, p.pendingOld.Some?)
    ensures Short(Fold(p, PrintBody(body)), p.files, p.current.value.deletions + Dels(body))
    decreases |body|
  {
    BodyUnfold(p, body);
    var p1 := Step(p, PrintLine(body[0]));
    if p.pendingOld.Some? && LooksNew(body[0]) {
      PairSplits(p, body[0]);
      ShortStays(p1, PrintBody(body[1..]), p.files, p.current.value.deletions);
    } else {
      BodyStep(p, body[0]);
      UncleanNeeds(body[1..], LooksOld(body[0]));
      BodySplits(p1, body[1..]);
    }
  }

  lemma FirstHunkSplits(header: Hunk -> string, p: Reader, h: Hunk, f: FileStat)
    requires GoodHeader(header) && Ready(p, p.files, f) && !Clean(h.body, false) && PrintableHunk(h)
    ensures Short(Fold(p, [header(h)] + PrintBody(h.body)), p.files, f.deletions + Dels(h.body))
  {
    assert Announces(ChopCR(header(h)), h.oldCount + h.newCount);
    NeedIsBudget(h.body);
    HeaderStep(p, header(h), Need(h.body));
    FoldOne(p, header(h), PrintBody(h.body));
    UncleanNeeds(h.body, false);
    BodySplits(Announced(p, Need(h.body)), h.body);
  }

  lemma {:induction false} HunksSplit(header: Hunk -> string, p: Reader, hunks: seq<Hunk>, f: FileStat)
    requires GoodHeader(header) && Ready(p, p.files, f) && !CleanHunks(hunks)
    requires forall k :: 0 <= k < |hunks| ==> PrintableHunk(hunks[k])
    ensures Short(Fold(p, PrintHunks(header, hunks)), p.files, f.deletions + HunkDels(hunks))
    decreases |hunks|
  {
    HunksUnfold(header, p, hunks);
    var q := FirstHunk(header, p, hunks);
    if Clean(hunks[0].body, false) {
      FirstHunkRound(header, p, hunks[0], f);
      HunksSplit(header, q, hunks[1..], Counts(f, hunks[0].body));
    } else {
      FirstHunkSplits(header, p, hunks[0], f);
      ShortStays(q, PrintHunks(header, hunks[1..]), p.files, f.deletions + Dels(hunks[0].body));
    }
  }

  /** The file at `base + k` has fewer deletions than section `k` prints. */
  ghost predicate ShortAt(files: seq<FileStat>, base: nat, sections: seq<Section>, k: nat) {
    k < |sections| && base + k < |files| && files[base + k].deletions < Stat(sections[k]).deletions
  }

  lemma ShortShift(files: seq<FileStat>, base: nat, sections: seq<Section>, k: nat)
    requires sections != [] && ShortAt(files, base + 1, sections[1..], k)
    ensures ShortAt(files, base, sections, k + 1)
  {
  }

  lemma FirstSectionShort(forms: Forms, p: Reader, s: Section, rest: seq<string>)
    requires GoodForms(forms) && Printable(s) && !CleanHunks(s.hunks) && Between(p)
    ensures Short(Fold(ReadSection(forms, p, s), rest), Close(p).files, Stat(s).deletions)
  {
    var o := Fold(p, forms.opening(s));
    assert Ready(o, Close(p).files, FileStat(s.path, 0, 0));
    HunksSplit(forms.header, o, s.hunks, FileStat(s.path, 0, 0));
    ShortStays(ReadSection(forms, p, s), rest, Close(p).files, Stat(s).deletions);
  }

  lemma CleanSectionCloses(forms: Forms, p: Reader, s: Section)
    requires GoodForms(forms) && Printable(s) && CleanHunks(s.hunks) && Between(p)
    ensures |Close(ReadSection(forms, p, s)).files| == |Close(p).files| + 1 && Between(ReadSection(forms, p, s))
  {
    SectionRound(forms, p, s);
  }

  lemma {:induction false} SectionsSplit(forms: Forms, p: Reader, sections: seq<Section>) returns (k: nat)
    requires GoodForms(forms) && AllPrintable(sections) && !CleanSections(sections) && Between(p)
    ensures ShortAt(Fold(p, PrintSections(forms, sections)).files, |Close(p).files|, sections, k)
    decreases |sections|
  {
    SectionsUnfold(forms, p, sections);
    var q, rest := ReadSection(forms, p, sections[0]), PrintSections(forms, sections[1..]);
    if CleanHunks(sections[0].hunks) {
      CleanSectionCloses(forms, p, sections[0]);
      var j := SectionsSplit(forms, q, sections[1..]);
      ShortShift(Fold(q, rest).files, |Close(p).files|, sections, j);
      k := j + 1;
    } else {
      FirstSectionShort(forms, p, sections[0], rest);
      k := 0;
    }
  }

  // ---- lines and text ------------------------------------------------------------------------------

  ghost predicate Lines(lines: seq<string>) {
    forall k :: 0 <= k < |lines| ==> OneLine(lines[k])
  }

  lemma {:induction false} BodyLines(body: seq<BodyLine>)
    requires forall k :: 0 <= k < |body| ==> OneLine(body[k].text)
    ensures Lines(PrintBody(body))
  {
    if body != [] {
      BodyLines(body[1..]);
    }
  }

  lemma HeaderLine(h: Hunk)
    requires PrintableHunk(h)
    ensures OneLine(PrintHeader(h))
  {
    RangeLine(h.oldStart, h.oldCount, h.terse);
    RangeLine(h.newStart, h.newCount, h.terse);
    HeaderOneLine(PrintRange(h.oldStart, h.oldCount, h.terse), PrintRange(h.newStart, h.newCount, h.terse), h.tail);
  }

  lemma RangeLine(start: nat, n: nat, terse: bool)
    ensures OneLine(PrintRange(start, n, terse))
  {
    DigitsLine(Numeral(start));
    DigitsLine(Numeral(n));
  }

  lemma HeaderOneLine(r1: string, r2: string, tail: string)
    requires OneLine(r1) && OneLine(r2) && OneLine(tail)
    ensures OneLine(Header(r1, r2, tail))
  {
  }

  lemma DigitsLine(d: string)
    requires forall k :: 0 <= k < |d| ==> IsDigit(d[k])
    ensures OneLine(d)
  {
  }

  lemma {:induction false} HunkLines(hunks: seq<Hunk>)
    requires forall k :: 0 <= k < |hunks| ==> PrintableHunk(hunks[k])
    ensures Lines(PrintHunks(PrintHeader, hunks))
  {
    if hunks != [] {
      HeaderLine(hunks[0]);
      BodyLines(hunks[0].body);
      HunkLines(hunks[1..]);
    }
  }

  lemma LinesJoin(a: seq<string>, b: seq<string>)
    requires Lines(a) && Lines(b)
    ensures Lines(a + b)
  {
  }

  lemma PairLines(oldRaw: string, newRaw: string)
    requires OneLine(oldRaw) && OneLine(newRaw)
    ensures Lines(PrintPair(oldRaw, newRaw))
  {
  }

  lemma LeadLines(s: Section)
    requires Printable(s)
    ensures Lines(PrintLead(s))
  {
    match s.lead
    case Indexed =>
    case Git(names, extended) => LinesJoin(["diff --git " + names], extended);
    case Bare =>
  }

  lemma OpeningLines(s: Section)
    requires Printable(s)
    ensures Lines(PrintOpening(s))
  {
    LeadLines(s);
    PairLines(PrintSide(s.before), PrintSide(s.after));
    LinesJoin(PrintLead(s), PrintPair(PrintSide(s.before), PrintSide(s.after)));
  }

  lemma {:induction false} SectionLines(sections: seq<Section>)
    requires AllPrintable(sections)
    ensures Lines(PrintSections(UNIFIED_DIFF, sections))
  {
    if sections != [] {
      OpeningLines(sections[0]);
      HunkLines(sections[0].hunks);
      SectionLines(sections[1..]);
    }
  }

  lemma TextIsLines(sections: seq<Section>)
    requires AllPrintable(sections)
    ensures Split(Print(sections), '\n') == PrintSections(UNIFIED_DIFF, sections) + [""]
  {
    SectionLines(sections);
    SplitJoin(PrintSections(UNIFIED_DIFF, sections) + [""], '\n');
  }

  lemma UnifiedForms()
    ensures GoodForms(UNIFIED_DIFF)
  {
    UnifiedHeader();
    UnifiedOpening();
  }

  /** Sections without a header-looking pair read back with their paths and true counts. */
  lemma CleanReadsBack(sections: seq<Section>)
    requires AllPrintable(sections) && CleanSections(sections)
    ensures FilesOf(Print(sections)) == if sections == [] then None else Some(Stats(sections))
  {
    TextIsLines(sections);
    UnifiedForms();
    var lines := PrintSections(UNIFIED_DIFF, sections);
    var q := Fold(START, lines);
    SectionsRound(UNIFIED_DIFF, START, sections);
    SectionsCalm(UNIFIED_DIFF, START, sections);
    FoldAppend(START, lines, [""]);
    BlankIgnored(q);
    assert Close(START).files == [] && [] + Stats(sections) == Stats(sections);
  }

  lemma BlankIgnored(q: Reader)
    requires q.mode != InHunk
    ensures Fold(q, [""]) == q
  {
    FoldOne(q, "", []);
    assert [""] + [] == [""];
  }

  /** A file with fewer deletions than its section has makes the final lists differ. */
  lemma ShortDiffers(q: Reader, sections: seq<Section>, k: nat)
    requires k < |sections| && k < |q.files| && q.files[k].deletions < Stat(sections[k]).deletions
    ensures Close(Fold(q, [""])).files != Stats(sections)
  {
    FoldGrows(q, [""]);
    StatsAt(sections, k);
    assert Fold(q, [""]).files[k] == q.files[k];
    assert Close(Fold(q, [""])).files[k] == q.files[k];
  }

  /** A header-looking pair always leaves some file with fewer deletions than it has. */
  lemma UncleanNeverReadsBack(sections: seq<Section>)
    requires AllPrintable(sections) && !CleanSections(sections)
    ensures FilesOf(Print(sections)) != Some(Stats(sections))
  {
    var lines := PrintSections(UNIFIED_DIFF, sections);
    var q := Fold(START, lines);
    UnifiedForms();
    var k := SectionsSplit(UNIFIED_DIFF, START, sections);
    assert Close(START).files == [];
    ShortDiffers(q, sections, k);
    TextFolds(sections);
  }

  lemma TextFolds(sections: seq<Section>)
    requires AllPrintable(sections)
    ensures Fold(START, Split(Print(sections), '\n')) == Fold(Fold(START, PrintSections(UNIFIED_DIFF, sections)), [""])
  {
    TextIsLines(sections);
    FoldAppend(START, PrintSections(UNIFIED_DIFF, sections), [""]);
  }

  lemma {:induction false} StatsAt(sections: seq<Section>, k: nat)
    requires k < |sections|
    ensures |Stats(sections)| == |sections| && Stats(sections)[k] == Stat(sections[k])
  {
    if |sections| > 1 {
      StatsAt(sections[1..], if k > 0 then k - 1 else 0);
    }
  }

  /**
   * Printing sections and reading the text back gives exactly each path with its true
   * added and deleted line counts if and only if no hunk body has a deletion printed
   * `--- ...` directly followed by an addition printed `+++ ...`.
   */
  lemma ReadsBackIffClean(sections: seq<Section>)
    requires sections != [] && AllPrintable(sections)
    ensures FilesOf(Print(sections)) == Some(Stats(sections)) <==> CleanSections(sections)
  {
    if CleanSections(sections) {
      CleanReadsBack(sections);
    } else {
      UncleanNeverReadsBack(sections);
    }
  }

  /** A body that deletes `-- x` and then adds `++ y`. */
  const LOOK_ALIKE: seq<BodyLine> := [Removed("-- x"), Added("++ y")]

  lemma LookAlikeIsUnclean()
    ensures !Clean(LOOK_ALIKE, false)
  {
    var body := LOOK_ALIKE;
    assert "-- x"[..3] == "-- " && "++ y"[..3] == "++ ";
    assert body[1..] == [Added("++ y")];
    assert LooksOld(body[0]) && LooksNew(body[1]);
  }

  lemma LookAlikeIsPrintable(s: Section)
    requires s == Section(Bare, NullDevice(None), Named("", "f", None), "f", [Hunk(1, 1, 1, 1, false, "", LOOK_ALIKE)])
    ensures Printable(s)
  {
    assert LOOK_ALIKE[1..] == [Added("++ y")] && LOOK_ALIKE[1..][1..] == [];
  }

  lemma OneUnclean(s: Section)
    requires Printable(s) && s.hunks != [] && !Clean(s.hunks[0].body, false)
    ensures AllPrintable([s]) && FilesOf(Print([s])) != Some(Stats([s]))
  {
    assert !CleanHunks(s.hunks) && !CleanSections([s]);
    UncleanNeverReadsBack([s]);
  }

  /** The failing family is not empty: one file whose only hunk has that body. */
  lemma HeaderLookAlike(s: Section)
    requires s == Section(Bare, NullDevice(None), Named("", "f", None), "f", [Hunk(1, 1, 1, 1, false, "", LOOK_ALIKE)])
    ensures AllPrintable([s]) && FilesOf(Print([s])) != Some(Stats([s]))
  {
    LookAlikeIsPrintable(s);
    LookAlikeIsUnclean();
    OneUnclean(s);
  }
}
