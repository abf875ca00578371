/** Turning fetched rows into a page: rows as SQLite returns them, ids and times that may be anything included. */
module SessionsRows {
  import opened Prelude
  import opened SessionsQuery
  import opened SessionsPaging

  /** An id column: SQL NULL, a text, or some other value. */
  datatype RawId = NullId | TextId(s: string) | OtherId

  /** A fetched row. `time` is absent when the column is no integer; `row` has the columns that are read as they are. */
  datatype RawRow = RawRow(id: RawId, time: Option<int>, row: Row)

  datatype RawPage = RawPage(records: seq<RawRow>, complete: bool, anchor: Option<Anchor>)

  /** A row with an id, all of whose JSON columns can be shown. */
  predicate Shown(r: RawRow) {
    !r.id.NullId? && Tolerated(r.row)
  }

  function ShownRows(rows: seq<RawRow>): seq<RawRow> {
    if rows == [] then [] else (if Shown(rows[0]) then [rows[0]] else []) + ShownRows(rows[1..])
  }

  /** The key of a row that the next page can start after: an integer time and a non-empty text id. */
  function AnchorOf(r: RawRow): Option<Anchor> {
    if r.time.Some? && r.id.TextId? && r.id.s != "" then Some(Anchor(r.time.value, r.id.s)) else None
  }

  /** Every row after position `k` lacks an integer time or a non-empty text id. */
  ghost predicate NoneAfter(window: seq<RawRow>, k: int) {
    forall j :: 0 <= j < |window| && k < j ==>
      window[j].time.None? || !window[j].id.TextId? || window[j].id == TextId("")
  }

  /** Row `k` has the anchor's time and its id, which is not empty, and no row after it could anchor. */
  ghost predicate AnchoredAt(window: seq<RawRow>, k: nat, a: Anchor) {
    && k < |window| && window[k].time == Some(a.time) && window[k].id == TextId(a.id) && a.id != ""
    && NoneAfter(window, k)
  }

  ghost predicate IsAnchor(window: seq<RawRow>, a: Option<Anchor>) {
    if a.None? then NoneAfter(window, -1) else exists k: nat :: AnchoredAt(window, k, a.value)
  }

  function TakeRaw(rows: seq<RawRow>, n: nat): seq<RawRow> {
    if n < |rows| then rows[..n] else rows
  }

  /** The JSON columns, the model last. */
  function JsonColumns(r: Row): seq<Cell> {
    [r.summaryDiffs, r.revert, r.permission, r.metadata, r.model]
  }

  /** A row is shown if and only if it has an id, no JSON column fails to parse and the model is an object, null or no text. */
  lemma ShownIff(r: RawRow)
    ensures Shown(r) <==>
              && r.id != NullId && r.row.model != JsonOther
              && forall k :: 0 <= k < 5 ==> JsonColumns(r.row)[k] != BadJson
  {
    var cells := JsonColumns(r.row);
    assert cells[0] == r.row.summaryDiffs && cells[1] == r.row.revert && cells[2] == r.row.permission;
    assert cells[3] == r.row.metadata && cells[4] == r.row.model;
  }

  // ---- the loops ------------------------------------------------------------------------

  /** Columns in order, the row dropped at its first bad one. */
  method RowsToRecords(rows: seq<RawRow>) returns (records: seq<RawRow>)
    ensures records == ShownRows(rows)
  {
    records := [];
    var k := 0;
    while k < |rows|
      invariant 0 <= k <= |rows|
      invariant records + ShownRows(rows[k..]) == ShownRows(rows)
    {
      assert rows[k..][1..] == rows[k + 1..];
      assert records + ([rows[k]] + ShownRows(rows[k + 1..])) == (records + [rows[k]]) + ShownRows(rows[k + 1..]);
      if !rows[k].id.NullId? {
        var invalid := FirstBadColumn(rows[k].row);
        if !invalid {
          records := records + [rows[k]];
        }
      }
      k := k + 1;
    }
  }

  method FirstBadColumn(r: Row) returns (invalid: bool)
    ensures invalid <==> !Tolerated(r)
  {
    var cells := [r.summaryDiffs, r.revert, r.permission, r.metadata, r.model];
    invalid := false;
    var c := 0;
    while c < 5 && !invalid
      invariant 0 <= c <= 5
      invariant invalid ==> !Tolerated(r)
      invariant !invalid ==> (c >= 1 ==> r.summaryDiffs != BadJson) && (c >= 2 ==> r.revert != BadJson)
      invariant !invalid ==> (c >= 3 ==> r.permission != BadJson) && (c >= 4 ==> r.metadata != BadJson)
      invariant !invalid ==> (c == 5 ==> r.model != BadJson && r.model != JsonOther)
    {
      assert c == 0 || c == 1 || c == 2 || c == 3 || c == 4;
      invalid := cells[c] == BadJson || (c == 4 && cells[c] == JsonOther);
      c := c + 1;
    }
  }

  /** Backwards to the last row that can anchor, passing over those that cannot. */
  method WindowAnchor(window: seq<RawRow>) returns (a: Option<Anchor>)
    ensures IsAnchor(window, a)
  {
    var k := |window|;
    while k > 0
      invariant 0 <= k <= |window| && NoneAfter(window, k - 1)
    {
      k := k - 1;
      a := AnchorOf(window[k]);
      if a.Some? {
        assert AnchoredAt(window, k, a.value);
        return;
      }
    }
    return None;
  }

  method AssemblePage(rows: seq<RawRow>, limit: nat) returns (page: RawPage)
    ensures page.complete <==> |rows| <= limit
    ensures page.records == ShownRows(TakeRaw(rows, limit))
    ensures IsAnchor(TakeRaw(rows, limit), page.anchor)
  {
    var records := RowsToRecords(TakeRaw(rows, limit));
    var anchor := WindowAnchor(TakeRaw(rows, limit));
    return RawPage(records, |rows| <= limit, anchor);
  }

  // ---- what it means for paging -----------------------------------------------------------

  ghost function Lift(rows: seq<Row>): seq<RawRow> {
    seq(|rows|, k requires 0 <= k < |rows| => RawRow(TextId(rows[k].id), Some(rows[k].time), rows[k]))
  }

  lemma {:induction false} LiftRecords(rows: seq<Row>)
    ensures ShownRows(Lift(rows)) == Lift(Records(rows))
  {
    if rows != [] {
      LiftRecords(rows[1..]);
      assert Lift(rows)[1..] == Lift(rows[1..]);
      if Tolerated(rows[0]) {
        assert Lift([rows[0]] + Records(rows[1..])) == [Lift(rows)[0]] + Lift(Records(rows[1..]));
      } else {
        assert Records(rows) == Records(rows[1..]);
      }
    } else {
      assert Lift(Records(rows)) == [];
    }
  }

  /** On rows with text ids and integer times, empty ids included, the anchor is the one of the paging theorems. */
  lemma {:induction false} LiftAnchor(window: seq<Row>, a: Option<Anchor>)
    requires IsAnchor(Lift(window), a)
    ensures a == LastAnchor(window)
  {
    if window != [] {
      var n := |window| - 1;
      var raw := Lift(window);
      assert raw[n] == RawRow(TextId(window[n].id), Some(window[n].time), window[n]);
      assert Lift(window[..n]) == raw[..n];
      if a.None? {
        assert NoneAfter(raw[..n], -1);
        LiftAnchor(window[..n], a);
      } else {
        var k: nat :| AnchoredAt(raw, k, a.value);
        if k < n {
          assert AnchoredAt(raw[..n], k, a.value);
          LiftAnchor(window[..n], a);
        }
      }
    }
  }

  /** On rows with text ids and integer times, whatever assembly answers is the page of the paging theorems. */
  lemma AssemblesPage(rows: seq<Row>, limit: nat, page: RawPage)
    requires page.complete <==> |rows| <= limit
    requires page.records == ShownRows(TakeRaw(Lift(rows), limit)) && IsAnchor(TakeRaw(Lift(rows), limit), page.anchor)
    ensures page == RawPage(Lift(Records(Take(rows, limit))), |rows| <= limit, LastAnchor(Take(rows, limit)))
  {
    var window := Take(rows, limit);
    assert TakeRaw(Lift(rows), limit) == Lift(window);
    LiftRecords(window);
    LiftAnchor(window, page.anchor);
  }
}
