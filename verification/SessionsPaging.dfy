/** Keyset paging over an unchanged table: the pages add up to the plain sorted list. */
module SessionsPaging {
  import opened Prelude
  import opened SessionsQuery

  // ---- the listing order -----------------------------------------------------------------

  lemma {:induction false} TextTotal(a: string, b: string)
    ensures !(TextLess(a, b) && TextLess(b, a))
    ensures a == b || TextLess(a, b) || TextLess(b, a)
    ensures !TextLess(a, a)
  {
    if a != [] && b != [] {
      TextTotal(a[1..], b[1..]);
      if a[0] == b[0] && a[1..] == b[1..] {
        assert a == [a[0]] + a[1..] == b;
      }
    }
    TextIrreflexive(a);
  }

  lemma {:induction false} TextIrreflexive(a: string)
    ensures !TextLess(a, a)
  {
    if a != [] {
      TextIrreflexive(a[1..]);
    }
  }

  lemma {:induction false} TextTransitive(a: string, b: string, c: string)
    requires TextLess(a, b) && TextLess(b, c)
    ensures TextLess(a, c)
  {
    if a != [] && a[0] == b[0] == c[0] {
      TextTransitive(a[1..], b[1..], c[1..]);
    }
  }

  function KeyOf(r: Row): Anchor {
    Anchor(r.time, r.id)
  }

  /** `a` is listed before `b`: newer, or same time and greater id. */
  predicate Precedes(a: Row, b: Row) {
    Beyond(b, KeyOf(a))
  }

  lemma PrecedesTransitive(a: Row, b: Row, c: Row)
    requires Precedes(a, b) && Precedes(b, c)
    ensures Precedes(a, c)
  {
    if a.time == b.time == c.time {
      TextTransitive(c.id, b.id, a.id);
    }
  }

  // ---- sorting and filtering ------------------------------------------------------------------

  function Insert(x: Row, s: seq<Row>): seq<Row> {
    if s == [] then [x]
    else if Precedes(x, s[0]) then [x] + s
    else [s[0]] + Insert(x, s[1..])
  }

  /** ORDER BY time_updated DESC, id DESC */
  function Sort(rows: seq<Row>): seq<Row> {
    if rows == [] then [] else Insert(rows[0], Sort(rows[1..]))
  }

  ghost predicate Ordered(s: seq<Row>) {
    forall i, j :: 0 <= i < j < |s| ==> Precedes(s[i], s[j])
  }

  /** Ids are unique. */
  ghost predicate Table(rows: seq<Row>) {
    forall i, j :: 0 <= i < j < |rows| ==> rows[i].id != rows[j].id
  }

  lemma {:induction false} InsertContents(x: Row, s: seq<Row>)
    ensures multiset(Insert(x, s)) == multiset{x} + multiset(s)
    ensures |Insert(x, s)| == |s| + 1
  {
    if s != [] && !Precedes(x, s[0]) {
      InsertContents(x, s[1..]);
      assert s == [s[0]] + s[1..];
    }
  }

  lemma InsertMembers(x: Row, s: seq<Row>, y: Row)
    ensures y in Insert(x, s) <==> y == x || y in s
  {
    InsertContents(x, s);
    assert y in Insert(x, s) <==> y in multiset(Insert(x, s));
    assert y in s <==> y in multiset(s);
  }

  lemma {:induction false} InsertOrdered(x: Row, s: seq<Row>)
    requires Ordered(s) && forall k :: 0 <= k < |s| ==> s[k].id != x.id
    ensures Ordered(Insert(x, s))
  {
    if s != [] {
      if Precedes(x, s[0]) {
        forall k | 0 <= k < |s| ensures Precedes(x, s[k]) {
          if k > 0 { PrecedesTransitive(x, s[0], s[k]); }
        }
      } else {
        TextTotal(x.id, s[0].id);
        InsertOrdered(x, s[1..]);
        var t := Insert(x, s[1..]);
        forall k | 0 <= k < |t| ensures Precedes(s[0], t[k]) {
          InsertMembers(x, s[1..], t[k]);
        }
      }
    }
  }

  lemma {:induction false} SortSorts(rows: seq<Row>)
    requires Table(rows)
    ensures Ordered(Sort(rows)) && multiset(Sort(rows)) == multiset(rows)
  {
    if rows != [] {
      SortSorts(rows[1..]);
      var s := Sort(rows[1..]);
      InsertContents(rows[0], s);
      assert rows == [rows[0]] + rows[1..];
      forall k | 0 <= k < |s| ensures s[k].id != rows[0].id {
        assert s[k] in multiset(s);
        assert s[k] in rows[1..];
      }
      InsertOrdered(rows[0], s);
    }
  }

  function Filter(s: seq<Row>, p: Row -> bool): seq<Row> {
    if s == [] then [] else (if p(s[0]) then [s[0]] else []) + Filter(s[1..], p)
  }

  lemma {:induction false} FilterMembers(s: seq<Row>, p: Row -> bool, x: Row)
    ensures x in Filter(s, p) <==> x in s && p(x)
  {
    if s != [] {
      FilterMembers(s[1..], p, x);
    }
  }

  lemma {:induction false} FilterOrdered(s: seq<Row>, p: Row -> bool)
    requires Ordered(s)
    ensures Ordered(Filter(s, p))
  {
    if s != [] {
      FilterOrdered(s[1..], p);
      var t := Filter(s[1..], p);
      forall k | 0 <= k < |t| ensures Precedes(s[0], t[k]) {
        FilterMembers(s[1..], p, t[k]);
      }
    }
  }

  lemma {:induction false} FilterInsert(x: Row, s: seq<Row>, p: Row -> bool)
    requires Ordered(s)
    ensures Filter(Insert(x, s), p) == if p(x) then Insert(x, Filter(s, p)) else Filter(s, p)
  {
    if s == [] {
      assert [x][1..] == [];
    } else if Precedes(x, s[0]) {
      assert ([x] + s)[1..] == s;
      FilterOrdered(s, p);
      var t := Filter(s, p);
      if t != [] {
        FilterMembers(s, p, t[0]);
        var k :| 0 <= k < |s| && s[k] == t[0];
        if k > 0 { PrecedesTransitive(x, s[0], s[k]); }
      }
    } else {
      FilterInsert(x, s[1..], p);
      assert ([s[0]] + Insert(x, s[1..]))[1..] == Insert(x, s[1..]);
      if p(s[0]) {
        assert ([s[0]] + Filter(s[1..], p))[1..] == Filter(s[1..], p);
      } else {
        assert Filter(s, p) == Filter(s[1..], p);
        assert Filter(Insert(x, s), p) == Filter(Insert(x, s[1..]), p);
      }
    }
  }

  /** Filtering then sorting is sorting then filtering. */
  lemma {:induction false} FilterSort(rows: seq<Row>, p: Row -> bool)
    requires Table(rows)
    ensures Sort(Filter(rows, p)) == Filter(Sort(rows), p)
  {
    if rows != [] {
      FilterSort(rows[1..], p);
      SortSorts(rows[1..]);
      FilterInsert(rows[0], Sort(rows[1..]), p);
      if p(rows[0]) {
        assert ([rows[0]] + Filter(rows[1..], p))[1..] == Filter(rows[1..], p);
      } else {
        assert [] + Filter(rows[1..], p) == Filter(rows[1..], p);
      }
    }
  }

  lemma {:induction false} FilterAgrees(s: seq<Row>, p: Row -> bool, q: Row -> bool)
    requires forall k :: 0 <= k < |s| ==> p(s[k]) == q(s[k])
    ensures Filter(s, p) == Filter(s, q)
  {
    if s != [] {
      FilterAgrees(s[1..], p, q);
    }
  }

  /** In an ordered list the rows beyond the row at `k` are the ones after it. */
  lemma {:induction false} FilterBeyond(s: seq<Row>, a: Anchor, k: nat, p: Row -> bool)
    requires Ordered(s) && k < |s| && KeyOf(s[k]) == a
    requires forall r: Row :: p(r) == Beyond(r, a)
    ensures Filter(s, p) == s[k + 1..]
  {
    if k == 0 {
      TextTotal(s[0].id, s[0].id);
      assert s[0 + 1..] == s[1..];
      FilterAll(s[1..], p);
    } else {
      assert Precedes(s[0], s[k]);
      TextTotal(s[0].id, s[k].id);
      FilterBeyond(s[1..], a, k - 1, p);
    }
  }

  lemma {:induction false} FilterAll(s: seq<Row>, p: Row -> bool)
    requires forall k :: 0 <= k < |s| ==> p(s[k])
    ensures Filter(s, p) == s
  {
    if s != [] {
      FilterAll(s[1..], p);
    }
  }

  // ---- one page -----------------------------------------------------------------------------------

  /** A row every projected JSON column of which can be shown. */
  predicate Tolerated(r: Row) {
    && r.summaryDiffs != BadJson && r.revert != BadJson && r.permission != BadJson && r.metadata != BadJson
    && r.model != BadJson && r.model != JsonOther
  }

  function Records(rows: seq<Row>): seq<Row> {
    Filter(rows, Tolerated)
  }

  /** The last row of the window that can anchor the next page. */
  function LastAnchor(window: seq<Row>): Option<Anchor> {
    if window == [] then None
    else if window[|window| - 1].id != "" then Some(KeyOf(window[|window| - 1]))
    else LastAnchor(window[..|window| - 1])
  }

  datatype Page = Page(records: seq<Row>, complete: bool, anchor: Option<Anchor>)

  function Take(s: seq<Row>, n: int): seq<Row> {
    if n <= 0 then [] else if n < |s| then s[..n] else s
  }

  /** What the database returns for an accepted request: filter, order, LIMIT + 1. */
  ghost function Fetched(table: seq<Row>, q: Request): seq<Row> {
    Take(Sort(Filter(table, row => WellBound(Where(q)) && Accepts(Where(q), row))), q.limit + 1)
  }

  ghost function PageOf(table: seq<Row>, q: Request): Page {
    var rows := Fetched(table, q);
    Page(Records(Take(rows, q.limit)), |rows| <= q.limit, LastAnchor(Take(rows, q.limit)))
  }

  /** The rows a request asks for, in listing order. */
  ghost function Listing(table: seq<Row>, q: Request): seq<Row> {
    Sort(Filter(table, row => Wanted(q, row)))
  }

  ghost predicate Proper(table: seq<Row>) {
    Table(table) && forall k :: 0 <= k < |table| ==> table[k].id != ""
  }

  lemma FetchedIsListing(table: seq<Row>, q: Request)
    requires FaultOf(q).None?
    ensures Fetched(table, q) == Take(Listing(table, q), q.limit + 1)
  {
    var p := (row: Row) => WellBound(Where(q)) && Accepts(Where(q), row);
    var w := (row: Row) => Wanted(q, row);
    forall k | 0 <= k < |table| ensures p(table[k]) == w(table[k]) {
      QueryMeansRequest(q, table[k]);
    }
    FilterAgrees(table, p, w);
  }

  lemma ListingFacts(table: seq<Row>, q: Request)
    requires Table(table)
    ensures Ordered(Listing(table, q))
    ensures Listing(table, q) == Filter(Sort(table), row => Wanted(q, row))
    ensures forall k :: 0 <= k < |Listing(table, q)| ==> Listing(table, q)[k] in table
    ensures Proper(table) ==> forall k :: 0 <= k < |Listing(table, q)| ==> Listing(table, q)[k].id != ""
  {
    var w := (row: Row) => Wanted(q, row);
    FilterSort(table, w);
    SortSorts(table);
    FilterOrdered(Sort(table), w);
    var l := Listing(table, q);
    forall k | 0 <= k < |l| ensures l[k] in table {
      FilterMembers(Sort(table), w, l[k]);
      assert l[k] in multiset(Sort(table));
    }
  }

  function Follow(q: Request, a: Anchor): Request {
    q.(cursor := Some(a))
  }

  /** The next request's listing is what this one left over. */
  lemma NextListing(table: seq<Row>, q: Request, k: nat)
    requires Table(table) && k < |Listing(table, q)|
    ensures Listing(table, Follow(q, KeyOf(Listing(table, q)[k]))) == Listing(table, q)[k + 1..]
  {
    var full := Listing(table, q);
    var a := KeyOf(full[k]);
    var q' := Follow(q, a);
    ListingFacts(table, q);
    ListingFacts(table, q');
    var w, w', b := (row: Row) => Wanted(q, row), (row: Row) => Wanted(q', row), (row: Row) => Beyond(row, a);
    FilterMembers(Sort(table), w, full[k]);
    assert full[k] in Filter(Sort(table), w);
    forall row: Row ensures w'(row) == (w(row) && b(row)) {
      if q.cursor.Some? && Beyond(row, a) {
        BeyondTransitive(row, full[k], q.cursor.value);
      }
    }
    FilterTwice(Sort(table), w, b, w');
    FilterBeyond(full, a, k, b);
  }

  lemma BeyondTransitive(row: Row, mid: Row, a: Anchor)
    requires Beyond(row, KeyOf(mid)) && Beyond(mid, a)
    ensures Beyond(row, a)
  {
    if row.time == mid.time == a.time {
      TextTransitive(row.id, mid.id, a.id);
    }
  }

  lemma {:induction false} FilterTwice(s: seq<Row>, p: Row -> bool, q: Row -> bool, both: Row -> bool)
    requires forall r: Row :: both(r) == (p(r) && q(r))
    ensures Filter(s, both) == Filter(Filter(s, p), q)
  {
    if s != [] {
      FilterTwice(s[1..], p, q, both);
      if p(s[0]) {
        assert ([s[0]] + Filter(s[1..], p))[1..] == Filter(s[1..], p);
      } else {
        assert [] + Filter(s[1..], p) == Filter(s[1..], p);
      }
    }
  }

  // ---- the whole walk -------------------------------------------------------------------------------

  /** One fetch of a walk: the raw rows it consumed, and the page it answered with. */
  datatype Visit = Visit(window: seq<Row>, page: Page)

  /** The first page of a listing, described directly. */
  function PageFrom(full: seq<Row>, limit: nat): Page {
    if |full| <= limit then Page(Records(full), true, if full == [] then None else Some(KeyOf(full[|full| - 1])))
    else Page(Records(full[..limit]), false, if limit == 0 then None else Some(KeyOf(full[limit - 1])))
  }

  /** The page assembled from `LIMIT + 1` rows of a listing all of whose ids can anchor. */
  lemma CutPage(full: seq<Row>, limit: nat)
    requires forall k :: 0 <= k < |full| ==> full[k].id != ""
    ensures var rows := Take(full, limit + 1);
            Page(Records(Take(rows, limit)), |rows| <= limit, LastAnchor(Take(rows, limit))) == PageFrom(full, limit)
  {
    TakeTake(full, limit);
    AnchorOfProper(Take(full, limit));
  }

  lemma AnchorOfProper(window: seq<Row>)
    requires forall k :: 0 <= k < |window| ==> window[k].id != ""
    ensures LastAnchor(window) == if window == [] then None else Some(KeyOf(window[|window| - 1]))
  {
  }

  lemma PageFacts(table: seq<Row>, q: Request)
    requires Proper(table) && FaultOf(q).None?
    ensures PageOf(table, q) == PageFrom(Listing(table, q), q.limit)
  {
    FetchedIsListing(table, q);
    ListingFacts(table, q);
    CutPage(Listing(table, q), q.limit);
  }

  lemma FollowIsAccepted(q: Request, a: Anchor)
    requires FaultOf(q).None? && a.id != ""
    ensures FaultOf(Follow(q, a)).None?
  {
  }

  /** A cut page leaves an acceptable next request with strictly fewer rows to list. */
  lemma NextPage(table: seq<Row>, q: Request)
    requires Proper(table) && FaultOf(q).None? && !PageOf(table, q).complete
    ensures PageOf(table, q).anchor.Some?
    ensures var q' := Follow(q, PageOf(table, q).anchor.value);
            FaultOf(q').None? && q.limit < |Listing(table, q)| && Listing(table, q') == Listing(table, q)[q.limit..]
  {
    PageFacts(table, q);
    AfterCut(table, q, KeyOf(Listing(table, q)[q.limit - 1]));
  }

  lemma AfterCut(table: seq<Row>, q: Request, a: Anchor)
    requires Proper(table) && FaultOf(q).None? && q.limit < |Listing(table, q)| && a == KeyOf(Listing(table, q)[q.limit - 1])
    ensures FaultOf(Follow(q, a)).None? && Listing(table, Follow(q, a)) == Listing(table, q)[q.limit..]
  {
    ListingFacts(table, q);
    FollowIsAccepted(q, a);
    NextListing(table, q, q.limit - 1);
  }

  /** Following anchors until a page says it is complete. */
  ghost function Walk(table: seq<Row>, q: Request): seq<Visit>
    requires Proper(table) && FaultOf(q).None?
    decreases |Listing(table, q)|
  {
    var page := PageOf(table, q);
    if page.complete then [FirstVisit(table, q)]
    else
      NextPage(table, q);
      PageFacts(table, q);
      [FirstVisit(table, q)] + Walk(table, Follow(q, page.anchor.value))
  }

  ghost function FirstVisit(table: seq<Row>, q: Request): Visit {
    Visit(Take(Fetched(table, q), q.limit), PageOf(table, q))
  }

  lemma FirstWindow(table: seq<Row>, q: Request)
    requires FaultOf(q).None?
    ensures FirstVisit(table, q) == Visit(Take(Listing(table, q), q.limit), PageOf(table, q))
  {
    FetchedIsListing(table, q);
    TakeTake(Listing(table, q), q.limit);
  }

  ghost function Windows(visits: seq<Visit>): seq<Row> {
    if visits == [] then [] else visits[0].window + Windows(visits[1..])
  }

  ghost function Emitted(visits: seq<Visit>): seq<Row> {
    if visits == [] then [] else visits[0].page.records + Emitted(visits[1..])
  }

  lemma {:induction false} FilterConcat(a: seq<Row>, b: seq<Row>, p: Row -> bool)
    ensures Filter(a + b, p) == Filter(a, p) + Filter(b, p)
  {
    if a == [] {
      assert a + b == b;
    } else {
      FilterConcat(a[1..], b, p);
      assert (a + b)[1..] == a[1..] + b;
      var head := if p(a[0]) then [a[0]] else [];
      assert Filter(a + b, p) == head + Filter(a[1..] + b, p);
      assert head + (Filter(a[1..], p) + Filter(b, p)) == (head + Filter(a[1..], p)) + Filter(b, p);
    }
  }

  /** The listing holds exactly the rows asked for, each once, in strictly descending order. */
  lemma ListingIsExact(table: seq<Row>, q: Request)
    requires Table(table)
    ensures Ordered(Listing(table, q)) && Distinct(Listing(table, q))
    ensures forall row :: row in Listing(table, q) <==> row in table && Wanted(q, row)
  {
    var full := Listing(table, q);
    var w := (row: Row) => Wanted(q, row);
    ListingFacts(table, q);
    SortSorts(table);
    forall row ensures row in full <==> row in table && Wanted(q, row) {
      FilterMembers(Sort(table), w, row);
      assert row in Sort(table) <==> row in multiset(Sort(table));
      assert row in table <==> row in multiset(table);
    }
    forall i, j | 0 <= i < j < |full| ensures full[i] != full[j] {
      TextIrreflexive(full[i].id);
      assert Precedes(full[i], full[j]);
    }
  }

  /** Full windows, then one last window that is complete, and empty only if there is nothing to list. */
  ghost predicate WellCut(visits: seq<Visit>, limit: int) {
    && visits != []
    && (forall k :: 0 <= k < |visits| - 1 ==> !visits[k].page.complete && |visits[k].window| == limit)
    && visits[|visits| - 1].page.complete
    && |visits[|visits| - 1].window| <= limit
    && (|visits| > 1 ==> visits[|visits| - 1].window != [])
  }

  lemma WellCutMore(visit: Visit, rest: seq<Visit>, limit: int)
    requires WellCut(rest, limit) && Windows(rest) != []
    requires !visit.page.complete && |visit.window| == limit
    ensures WellCut([visit] + rest, limit)
  {
    var visits := [visit] + rest;
    assert forall k :: 0 < k < |visits| ==> visits[k] == rest[k - 1];
    if |rest| == 1 {
      assert rest[1..] == [];
    }
  }

  /** The windows are `full` laid end to end, the records its tolerated rows, and the cuts are right. */
  ghost predicate AddsUp(visits: seq<Visit>, full: seq<Row>, limit: int) {
    Windows(visits) == full && Emitted(visits) == Records(full) && WellCut(visits, limit)
  }

  /**
   * Paging adds up: the windows laid end to end are the plain sorted listing, the records are
   * its tolerated rows (even when whole windows are skipped), every window but the last is
   * full, and only the last page, which is not empty unless it is the only one, is complete.
   */
  lemma {:induction false} PagingAddsUp(table: seq<Row>, q: Request)
    requires Proper(table) && FaultOf(q).None?
    ensures AddsUp(Walk(table, q), Listing(table, q), q.limit)
    decreases |Listing(table, q)|
  {
    var full, page := Listing(table, q), PageOf(table, q);
    WalkStep(table, q);
    FirstWindow(table, q);
    PageFacts(table, q);
    if page.complete {
      LastPage(FirstVisit(table, q), full, q.limit);
    } else {
      NextPage(table, q);
      var q' := Follow(q, page.anchor.value);
      PagingAddsUp(table, q');
      OnePageMore(FirstVisit(table, q), Walk(table, q'), full, q.limit);
    }
  }

  lemma LastPage(visit: Visit, full: seq<Row>, limit: nat)
    requires |full| <= limit && visit.window == full && visit.page.records == Records(full) && visit.page.complete
    ensures AddsUp([visit], full, limit)
  {
    PrependVisit(visit, []);
    assert [visit] + [] == [visit];
  }

  lemma OnePageMore(visit: Visit, rest: seq<Visit>, full: seq<Row>, limit: nat)
    requires limit < |full| && visit.window == full[..limit] && visit.page.records == Records(full[..limit])
    requires !visit.page.complete && AddsUp(rest, full[limit..], limit)
    ensures AddsUp([visit] + rest, full, limit)
  {
    PrependVisit(visit, rest);
    WellCutMore(visit, rest, limit);
    FilterConcat(full[..limit], full[limit..], Tolerated);
    assert full == full[..limit] + full[limit..];
  }

  lemma WalkStep(table: seq<Row>, q: Request)
    requires Proper(table) && FaultOf(q).None?
    ensures var page := PageOf(table, q);
            if page.complete then Walk(table, q) == [FirstVisit(table, q)]
            else
              && page.anchor.Some? && FaultOf(Follow(q, page.anchor.value)).None?
              && Walk(table, q) == [FirstVisit(table, q)] + Walk(table, Follow(q, page.anchor.value))
  {
    if !PageOf(table, q).complete {
      NextPage(table, q);
    }
  }

  lemma PrependVisit(visit: Visit, rest: seq<Visit>)
    ensures Windows([visit] + rest) == visit.window + Windows(rest)
    ensures Emitted([visit] + rest) == visit.page.records + Emitted(rest)
  {
    assert ([visit] + rest)[1..] == rest;
  }

  lemma TakeTake(s: seq<Row>, n: nat)
    ensures Take(Take(s, n + 1), n) == Take(s, n)
  {
  }

  /** A complete page still names an anchor: the last row of its window. */
  lemma CompletePageKeepsAnchor(table: seq<Row>, q: Request)
    requires Proper(table) && FaultOf(q).None? && PageOf(table, q).complete && Listing(table, q) != []
    ensures var a := KeyOf(Listing(table, q)[|Listing(table, q)| - 1]);
            && PageOf(table, q).anchor == Some(a)
            && FaultOf(Follow(q, a)).None? && PageOf(table, Follow(q, a)) == Page([], true, None)
  {
    var full := Listing(table, q);
    PageFacts(table, q);
    AfterLast(table, q, KeyOf(full[|full| - 1]));
  }

  lemma AfterLast(table: seq<Row>, q: Request, a: Anchor)
    requires Proper(table) && FaultOf(q).None? && Listing(table, q) != []
    requires a == KeyOf(Listing(table, q)[|Listing(table, q)| - 1])
    ensures FaultOf(Follow(q, a)).None? && PageOf(table, Follow(q, a)) == Page([], true, None)
  {
    ListingFacts(table, q);
    FollowIsAccepted(q, a);
    NextListing(table, q, |Listing(table, q)| - 1);
    EmptyPage(table, Follow(q, a));
  }

  lemma EmptyPage(table: seq<Row>, q: Request)
    requires Proper(table) && FaultOf(q).None? && Listing(table, q) == []
    ensures PageOf(table, q) == Page([], true, None)
  {
    PageFacts(table, q);
  }
}
