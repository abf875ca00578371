/** For every input text: the reader's internal asserts hold and no line is counted for two files. */
module DiffCounting {
  import opened Prelude
  import opened Text
  import opened DiffParser

  /** What every reached state keeps: a hunk has an open paired section and budget left. */
  ghost predicate Sound(p: Reader) {
    && (p.current.Some? <==> p.paired)
    && (p.mode == InHunk ==> p.current.Some? && p.hunkLeft.Some? && p.hunkLeft.value > 0)
    && (p.pendingOld.Some? && p.pendingCounted ==> p.mode == InHunk)
    && (p.indexPath.Some? ==> p.indexPath.value != [] && p.current.None?)
  }

  lemma StepSound(p: Reader, raw: string)
    requires Sound(p)
    ensures Sound(Step(p, raw))
  {
  }

  // ---- line ownership ------------------------------------------------------------------

  /** Whether this line is counted for the open section. */
  predicate Counted(p: Reader, raw: string) {
    var line := ChopCR(raw);
    && !(StartsWith(line, "+++ ") && p.pendingOld.Some?)
    && InBody(p) && p.current.Some?
    && (StartsWith(line, "+") || StartsWith(line, "-"))
  }

  /** Whether this line ends the section and takes back the deletion counted on the line before. */
  predicate TakesBack(p: Reader, raw: string) {
    StartsWith(ChopCR(raw), "+++ ") && p.pendingOld.Some? && p.pendingCounted && p.current.Some?
  }

  type Owners = seq<Option<nat>>

  ghost function NextOwners(p: Reader, owners: Owners, raw: string): Owners {
    var kept := if TakesBack(p, raw) && owners != [] then owners[|owners| - 1 := None] else owners;
    kept + [if Counted(p, raw) then Some(|p.files|) else None]
  }

  /** For each line, the index of the one file it is counted for, if any. */
  ghost function OwnersOf(lines: seq<string>): (owners: Owners)
    ensures |owners| == |lines|
    decreases |lines|
  {
    if lines == [] then []
    else
      var n := |lines| - 1;
      NextOwners(Fold(START, lines[..n]), OwnersOf(lines[..n]), lines[n])
  }

  function Owned(raw: string, owner: Option<nat>, k: nat, sign: string): nat {
    if owner == Some(k) && StartsWith(ChopCR(raw), sign) then 1 else 0
  }

  /** How many lines starting with `sign` belong to file `k`. */
  function Tally(lines: seq<string>, owners: Owners, k: nat, sign: string): nat
    requires |owners| == |lines|
    decreases |lines|
  {
    if lines == [] then 0
    else
      var n := |lines| - 1;
      Tally(lines[..n], owners[..n], k, sign) + Owned(lines[n], owners[n], k, sign)
  }

  lemma TallyAppend(lines: seq<string>, owners: Owners, raw: string, owner: Option<nat>, k: nat, sign: string)
    requires |owners| == |lines|
    ensures Tally(lines + [raw], owners + [owner], k, sign) == Tally(lines, owners, k, sign) + Owned(raw, owner, k, sign)
  {
    assert (lines + [raw])[..|lines|] == lines && (owners + [owner])[..|lines|] == owners;
  }

  lemma TallyRevoked(lines: seq<string>, owners: Owners, k: nat, sign: string)
    requires |owners| == |lines| > 0
    ensures var n := |lines| - 1;
            Tally(lines, owners[n := None], k, sign) == Tally(lines, owners, k, sign) - Owned(lines[n], owners[n], k, sign)
  {
    var n := |lines| - 1;
    assert owners[n := None][..n] == owners[..n];
  }

  ghost predicate Exact(f: FileStat, lines: seq<string>, owners: Owners, k: nat)
    requires |owners| == |lines|
  {
    f.additions == Tally(lines, owners, k, "+") && f.deletions == Tally(lines, owners, k, "-")
  }

  /** Every file's counts are the numbers of its own lines. */
  ghost predicate Attributed(p: Reader, lines: seq<string>, owners: Owners) {
    && Sound(p) && |owners| == |lines|
    && (forall k :: 0 <= k < |p.files| ==> Exact(p.files[k], lines, owners, k))
    && (p.current.Some? ==> Exact(p.current.value, lines, owners, |p.files|))
    && (p.current.None? ==> Unclaimed(lines, owners, |p.files|))
    && Unclaimed(lines, owners, |p.files| + 1)
    && (p.pendingOld.Some? && p.pendingCounted ==>
          |lines| > 0 && owners[|lines| - 1] == Some(|p.files|)
          && StartsWith(ChopCR(lines[|lines| - 1]), "-") && !StartsWith(ChopCR(lines[|lines| - 1]), "+"))
  }

  ghost predicate Unclaimed(lines: seq<string>, owners: Owners, k: nat) {
    forall l :: 0 <= l < |owners| ==> owners[l].None? || owners[l].value < k
  }

  lemma {:induction false} UnclaimedTally(lines: seq<string>, owners: Owners, k: nat, sign: string)
    requires |owners| == |lines| && Unclaimed(lines, owners, k)
    ensures Tally(lines, owners, k, sign) == 0
    decreases |lines|
  {
    if lines != [] {
      var n := |lines| - 1;
      UnclaimedTally(lines[..n], owners[..n], k, sign);
    }
  }

  lemma ExactAppend(f: FileStat, lines: seq<string>, owners: Owners, raw: string, owner: Option<nat>, k: nat)
    requires |owners| == |lines| && Exact(f, lines, owners, k)
    ensures Exact(f.(additions := f.additions + Owned(raw, owner, k, "+"),
                     deletions := f.deletions + Owned(raw, owner, k, "-")), lines + [raw], owners + [owner], k)
  {
    TallyAppend(lines, owners, raw, owner, k, "+");
    TallyAppend(lines, owners, raw, owner, k, "-");
  }

  lemma ExactFresh(path: string, lines: seq<string>, owners: Owners, k: nat)
    requires |owners| == |lines| && Unclaimed(lines, owners, k)
    ensures Exact(FileStat(path, 0, 0), lines, owners, k)
  {
    UnclaimedTally(lines, owners, k, "+");
    UnclaimedTally(lines, owners, k, "-");
  }

  /** A line that is not counted leaves every count where it was. */
  lemma Pass(p: Reader, lines: seq<string>, owners: Owners, raw: string)
    requires |owners| == |lines|
    requires forall k :: 0 <= k < |p.files| ==> Exact(p.files[k], lines, owners, k)
    ensures forall k :: 0 <= k < |p.files| ==> Exact(p.files[k], lines + [raw], owners + [None], k)
    ensures p.current.Some? && Exact(p.current.value, lines, owners, |p.files|) ==>
              Exact(p.current.value, lines + [raw], owners + [None], |p.files|)
    ensures forall k: nat :: Unclaimed(lines, owners, k) ==> Unclaimed(lines + [raw], owners + [None], k)
  {
    forall k | 0 <= k < |p.files| ensures Exact(p.files[k], lines + [raw], owners + [None], k) {
      ExactAppend(p.files[k], lines, owners, raw, None, k);
    }
    if p.current.Some? && Exact(p.current.value, lines, owners, |p.files|) {
      ExactAppend(p.current.value, lines, owners, raw, None, |p.files|);
    }
  }

  /** Taking back the last deletion of the open section leaves all other files' counts alone. */
  lemma Revoke(p: Reader, lines: seq<string>, owners: Owners)
    requires Attributed(p, lines, owners) && p.pendingOld.Some? && p.pendingCounted
    ensures var kept, f := owners[|owners| - 1 := None], p.current.value;
            && Exact(f.(deletions := f.deletions - 1), lines, kept, |p.files|)
            && (forall k :: 0 <= k < |p.files| ==> Exact(p.files[k], lines, kept, k))
            && Unclaimed(lines, kept, |p.files| + 1)
  {
    forall k | 0 <= k <= |p.files|
      ensures Tally(lines, owners[|owners| - 1 := None], k, "+") == Tally(lines, owners, k, "+")
      ensures Tally(lines, owners[|owners| - 1 := None], k, "-")
           == Tally(lines, owners, k, "-") - (if k == |p.files| then 1 else 0)
    {
      TallyRevoked(lines, owners, k, "+");
      TallyRevoked(lines, owners, k, "-");
    }
  }

  /** The state after a boundary: the open section joined the list, with a fresh one or none in its place. */
  lemma Boundary(p: Reader, q: Reader, f: Option<FileStat>, lines: seq<string>, owners: Owners)
    requires |owners| == |lines| && Sound(q) && !(q.pendingOld.Some? && q.pendingCounted)
    requires q.files == if f.Some? then p.files + [f.value] else p.files
    requires forall k :: 0 <= k < |p.files| ==> Exact(p.files[k], lines, owners, k)
    requires f.Some? ==> Exact(f.value, lines, owners, |p.files|)
    requires Unclaimed(lines, owners, |q.files|)
    requires q.current.Some? ==> q.current.value == FileStat(q.current.value.path, 0, 0)
    ensures Attributed(q, lines, owners)
  {
    if q.current.Some? {
      ExactFresh(q.current.value.path, lines, owners, |q.files|);
    }
  }

  lemma PairAttributed(p: Reader, lines: seq<string>, owners: Owners, raw: string)
    requires Attributed(p, lines, owners) && StartsWith(ChopCR(raw), "+++ ") && p.pendingOld.Some?
    ensures Attributed(Step(p, raw), lines + [raw], NextOwners(p, owners, raw))
  {
    StepSound(p, raw);
    var q := Step(p, raw);
    if p.pendingCounted {
      Revoke(p, lines, owners);
      var f := p.current.value.(deletions := p.current.value.deletions - 1);
      var kept := owners[|owners| - 1 := None];
      Pass(p.(current := Some(f)), lines, kept, raw);
      Boundary(p, q, Some(f), lines + [raw], kept + [None]);
    } else {
      Pass(p, lines, owners, raw);
      Boundary(p, q, p.current, lines + [raw], owners + [None]);
    }
  }

  lemma BodyAttributed(p: Reader, lines: seq<string>, owners: Owners, raw: string)
    requires Attributed(p, lines, owners) && Counted(p, raw)
    ensures Attributed(Step(p, raw), lines + [raw], NextOwners(p, owners, raw))
  {
    StepSound(p, raw);
    var owner := Some(|p.files|);
    ExactAppend(p.current.value, lines, owners, raw, owner, |p.files|);
    forall k | 0 <= k < |p.files| ensures Exact(p.files[k], lines + [raw], owners + [owner], k) {
      ExactAppend(p.files[k], lines, owners, raw, owner, k);
    }
  }

  lemma StepAttributed(p: Reader, lines: seq<string>, owners: Owners, raw: string)
    requires Attributed(p, lines, owners)
    ensures Attributed(Step(p, raw), lines + [raw], NextOwners(p, owners, raw))
  {
    var line := ChopCR(raw);
    if StartsWith(line, "+++ ") && p.pendingOld.Some? {
      PairAttributed(p, lines, owners, raw);
    } else if Counted(p, raw) {
      BodyAttributed(p, lines, owners, raw);
    } else {
      StepSound(p, raw);
      Pass(p, lines, owners, raw);
      if StartsWith(line, "diff --git ") || StartsWith(line, "Index: ") {
        Boundary(p, Step(p, raw), p.current, lines + [raw], owners + [None]);
      }
    }
  }

  lemma {:induction false} FoldAttributed(lines: seq<string>)
    ensures Attributed(Fold(START, lines), lines, OwnersOf(lines))
    decreases |lines|
  {
    if lines != [] {
      var n := |lines| - 1;
      FoldAttributed(lines[..n]);
      StepAttributed(Fold(START, lines[..n]), lines[..n], OwnersOf(lines[..n]), lines[n]);
      FoldAppend(START, lines[..n], [lines[n]]);
      assert lines[..n] + [lines[n]] == lines;
    }
  }

  /** For every prefix of every text: the asserts hold, and no count, taken-back lines included, has gone negative. */
  lemma CountsNeverNegative(lines: seq<string>)
    ensures var p := Fold(START, lines);
            && Sound(p)
            && (forall k :: 0 <= k < |p.files| ==> p.files[k].additions >= 0 && p.files[k].deletions >= 0)
            && (p.current.Some? ==> p.current.value.additions >= 0 && p.current.value.deletions >= 0)
  {
    FoldAttributed(lines);
  }

  /**
   * For every text, each returned file's counts are exactly the numbers of `+` and `-`
   * lines it owns, and a line has at most one owner.
   */
  lemma NoLineCountedTwice(text: string)
    ensures var lines := Split(text, '\n');
            var owners := OwnersOf(lines);
            match FilesOf(text)
            case Some(files) => forall k :: 0 <= k < |files| ==> Exact(files[k], lines, owners, k)
            case None => true
  {
    var lines := Split(text, '\n');
    FoldAttributed(lines);
    CloseExact(Fold(START, lines), lines, OwnersOf(lines));
  }

  lemma CloseExact(p: Reader, lines: seq<string>, owners: Owners)
    requires Attributed(p, lines, owners)
    ensures var files := Close(p).files; forall k :: 0 <= k < |files| ==> Exact(files[k], lines, owners, k)
  {
  }

  /** Lines that start with `sign`. */
  function Signed(lines: seq<string>, sign: string): nat
    decreases |lines|
  {
    if lines == [] then 0
    else Signed(lines[..|lines| - 1], sign) + (if StartsWith(ChopCR(lines[|lines| - 1]), sign) then 1 else 0)
  }

  function TallySum(lines: seq<string>, owners: Owners, n: nat, sign: string): nat
    requires |owners| == |lines|
  {
    if n == 0 then 0 else TallySum(lines, owners, n - 1, sign) + Tally(lines, owners, n - 1, sign)
  }

  lemma {:induction false} TallySumStep(lines: seq<string>, owners: Owners, n: nat, sign: string)
    requires |owners| == |lines| > 0
    ensures var m := |lines| - 1;
            TallySum(lines, owners, n, sign) <=
              TallySum(lines[..m], owners[..m], n, sign) + (if StartsWith(ChopCR(lines[m]), sign) then 1 else 0)
    ensures var m := |lines| - 1;
            owners[m].None? || owners[m].value >= n ==>
              TallySum(lines, owners, n, sign) == TallySum(lines[..m], owners[..m], n, sign)
  {
    if n > 0 {
      TallySumStep(lines, owners, n - 1, sign);
    }
  }

  lemma {:induction false} TallySumBound(lines: seq<string>, owners: Owners, n: nat, sign: string)
    requires |owners| == |lines|
    ensures TallySum(lines, owners, n, sign) <= Signed(lines, sign)
    decreases |lines|
  {
    if lines != [] {
      var m := |lines| - 1;
      TallySumBound(lines[..m], owners[..m], n, sign);
      TallySumStep(lines, owners, n, sign);
    } else {
      TallySumEmpty(n, sign);
    }
  }

  lemma {:induction false} TallySumEmpty(n: nat, sign: string)
    ensures TallySum([], [], n, sign) == 0
  {
    if n > 0 {
      TallySumEmpty(n - 1, sign);
    }
  }

  function Additions(files: seq<FileStat>): int {
    if files == [] then 0 else Additions(files[..|files| - 1]) + files[|files| - 1].additions
  }

  function Deletions(files: seq<FileStat>): int {
    if files == [] then 0 else Deletions(files[..|files| - 1]) + files[|files| - 1].deletions
  }

  lemma {:induction false} TotalsAreTallies(files: seq<FileStat>, lines: seq<string>, owners: Owners)
    requires |owners| == |lines| && forall k :: 0 <= k < |files| ==> Exact(files[k], lines, owners, k)
    ensures Additions(files) == TallySum(lines, owners, |files|, "+")
    ensures Deletions(files) == TallySum(lines, owners, |files|, "-")
  {
    if files != [] {
      TotalsAreTallies(files[..|files| - 1], lines, owners);
    }
  }

  /** Totals never exceed the numbers of lines that start with `+` and `-`. */
  lemma TotalsBounded(text: string)
    ensures var lines := Split(text, '\n');
            match FilesOf(text)
            case Some(files) =>
              0 <= Additions(files) <= Signed(lines, "+") && 0 <= Deletions(files) <= Signed(lines, "-")
            case None => true
  {
    var lines := Split(text, '\n');
    var owners := OwnersOf(lines);
    NoLineCountedTwice(text);
    var files := FilesOf(text);
    if files.Some? {
      TotalsAreTallies(files.value, lines, owners);
      TallySumBound(lines, owners, |files.value|, "+");
      TallySumBound(lines, owners, |files.value|, "-");
    }
  }
}
