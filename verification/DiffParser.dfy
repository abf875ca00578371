/** The unified-diff reader: a line-driven machine that returns each file's added and deleted line counts. */
module DiffParser {
  import opened Prelude
  import opened Text

  datatype FileStat = FileStat(path: string, additions: int, deletions: int)

  datatype Mode = Idle | InFile | InHunk

  datatype Reader = Reader(
    files: seq<FileStat>,
    mode: Mode,
    current: Option<FileStat>,
    paired: bool,
    indexPath: Option<string>,
    pendingOld: Option<string>,
    pendingCounted: bool,
    hunkLeft: Option<int>)

  const START := Reader([], Idle, None, false, None, None, false, None)

  // ---- headers ------------------------------------------------------------------------

  function After(s: string, prefix: string): Option<string> {
    if StartsWith(s, prefix) then Some(s[|prefix|..]) else None
  }

  /** `\d+(?:,(\d+))?`: the count after the comma (1 if absent) and the rest of the text. */
  function RangeCount(s: string): Option<(nat, string)> {
    var (start, rest) := TakeDigits(s);
    if start == [] then None
    else if StartsWith(rest, ",") && TakeDigits(rest[1..]).0 != [] then
      Some((ValueOf(TakeDigits(rest[1..]).0), TakeDigits(rest[1..]).1))
    else Some((1, rest))
  }

  /** Old plus new line count of a hunk header, or `None` if the header does not parse. */
  function HunkBudget(line: string): Option<nat> {
    var a := After(line, "@@ -");
    if a.None? then None else
    var b := RangeCount(a.value);
    if b.None? then None else
    var c := After(b.value.1, " +");
    if c.None? then None else
    var d := RangeCount(c.value);
    if d.None? || !StartsWith(d.value.1, " @@") then None
    else Some(b.value.0 + d.value.0)
  }

  function BeforeTab(raw: string): string {
    Split(raw, '\t')[0]
  }

  /** A header operand without its timestamp and its `a/` or `b/` prefix. */
  function HeaderPath(raw: string): string {
    var value := BeforeTab(raw);
    if StartsWith(value, "a/") || StartsWith(value, "b/") then value[2..] else value
  }

  function NonEmpty(s: string): Option<string> {
    if s == [] then None else Some(s)
  }

  function PairPath(oldRaw: string, newRaw: string): Option<string> {
    var oldPath, newPath := BeforeTab(oldRaw), BeforeTab(newRaw);
    if oldPath == "/dev/null" && newPath == "/dev/null" then None
    else if oldPath == "/dev/null" then NonEmpty(HeaderPath(newPath))
    else if newPath == "/dev/null" then NonEmpty(HeaderPath(oldPath))
    else NonEmpty(HeaderPath(newPath))
  }

  // ---- one line --------------------------------------------------------------------------

  function Close(p: Reader): Reader {
    p.(files := if p.current.Some? && p.paired then p.files + [p.current.value] else p.files,
       current := None, paired := false, pendingOld := None, pendingCounted := false)
  }

  /** An adjacent header pair starts a section, whatever the mode; a body deletion read as `---` is undone. */
  function OnPair(p: Reader, newRaw: string): Reader
    requires p.pendingOld.Some?
  {
    var undone := if p.pendingCounted && p.current.Some?
                  then p.(current := Some(p.current.value.(deletions := p.current.value.deletions - 1))) else p;
    var path := if p.indexPath.Some? then p.indexPath else PairPath(p.pendingOld.value, newRaw);
    var q := Close(undone).(indexPath := None, hunkLeft := None);
    if path.Some? then q.(current := Some(FileStat(path.value, 0, 0)), paired := true, mode := InFile)
    else q.(mode := Idle)
  }

  function Spend(p: Reader, cost: int): Reader {
    if p.hunkLeft.None? then p
    else if p.hunkLeft.value - cost <= 0 then p.(hunkLeft := Some(p.hunkLeft.value - cost), mode := InFile)
    else p.(hunkLeft := Some(p.hunkLeft.value - cost))
  }

  /** A line inside the hunk budget. Without an open section nothing is counted (this cannot happen, see `Sound`). */
  function OnBody(p: Reader, line: string): Reader {
    var calm := p.(pendingOld := None, pendingCounted := false);
    if StartsWith(line, "\\") || p.current.None? then calm
    else
      var f := p.current.value;
      if StartsWith(line, "--- ") then
        var q := Spend(calm.(current := Some(f.(deletions := f.deletions + 1))), 1);
        if q.mode == InFile then q else q.(pendingOld := Some(line[4..]), pendingCounted := true)
      else if StartsWith(line, "+") then Spend(calm.(current := Some(f.(additions := f.additions + 1))), 1)
      else if StartsWith(line, "-") then Spend(calm.(current := Some(f.(deletions := f.deletions + 1))), 1)
      else Spend(calm, 2)
  }

  predicate InBody(p: Reader) {
    p.mode == InHunk && (p.hunkLeft.None? || p.hunkLeft.value > 0)
  }

  function OnHunkHeader(p: Reader, line: string): Reader {
    var budget := HunkBudget(line);
    var left := if budget.Some? then Some(budget.value as int) else None;
    p.(pendingOld := None, pendingCounted := false, hunkLeft := left,
       mode := if budget.Some? && budget.value != 0 then InHunk else p.mode)
  }

  function Step(p: Reader, raw: string): Reader {
    var line := ChopCR(raw);
    if StartsWith(line, "+++ ") && p.pendingOld.Some? then OnPair(p, line[4..])
    else if StartsWith(line, "diff --git ") then Close(p).(indexPath := None, hunkLeft := None, mode := Idle)
    else if StartsWith(line, "Index: ") then
      Close(p).(indexPath := NonEmpty(Strip(line[7..])), hunkLeft := None, mode := InFile)
    else if InBody(p) then OnBody(p, line)
    else if StartsWith(line, "@@") && p.mode == InFile && p.current.Some? then OnHunkHeader(p, line)
    else if StartsWith(line, "--- ") then p.(pendingOld := Some(line[4..]), pendingCounted := false)
    else if StartsWith(line, "+++ ") then p.(pendingOld := None)
    else p
  }

  function Fold(p: Reader, lines: seq<string>): Reader
    decreases |lines|
  {
    if lines == [] then p else Fold(Step(p, lines[0]), lines[1..])
  }

  function FilesOf(text: string): Option<seq<FileStat>> {
    var files := Close(Fold(START, Split(text, '\n'))).files;
    if files == [] then None else Some(files)
  }

  lemma {:induction false} FoldAppend(p: Reader, a: seq<string>, b: seq<string>)
    ensures Fold(p, a + b) == Fold(Fold(p, a), b)
    decreases |a|
  {
    if a == [] {
      assert a + b == b;
    } else {
      FoldAppend(Step(p, a[0]), a[1..], b);
      assert (a + b)[1..] == a[1..] + b;
    }
  }

  /** The reader as the loop it is. */
  method FilesFromDiffText(text: string) returns (result: Option<seq<FileStat>>)
    ensures result == FilesOf(text)
  {
    var lines := Split(text, '\n');
    var p := START;
    var k := 0;
    while k < |lines|
      invariant 0 <= k <= |lines|
      invariant Fold(p, lines[k..]) == Fold(START, lines)
    {
      assert lines[k..][1..] == lines[k + 1..];
      p := Step(p, lines[k]);
      k := k + 1;
    }
    var files := Close(p).files;
    result := if files == [] then None else Some(files);
  }
}
