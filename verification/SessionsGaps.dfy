/**
 * Paging when a row's id is the empty text. Such a row is listed and shown, but cannot anchor
 * the next page. Ids are unique, so at most one row is like that.
 */
module SessionsGaps {
  import opened Prelude
  import opened SessionsQuery
  import opened SessionsPaging

  // ---- following anchors as far as they go -----------------------------------------------------

  /** The position of the last row with an id, or -1. */
  function AnchorAt(window: seq<Row>): (k: int)
    ensures -1 <= k < |window|
    ensures k >= 0 ==> window[k].id != ""
    ensures forall j :: k < j < |window| ==> window[j].id == ""
  {
    if window == [] then -1
    else if window[|window| - 1].id != "" then |window| - 1
    else AnchorAt(window[..|window| - 1])
  }

  lemma {:induction false} AnchorIsAt(window: seq<Row>)
    ensures LastAnchor(window) == if AnchorAt(window) < 0 then None else Some(KeyOf(window[AnchorAt(window)]))
  {
    if window != [] && window[|window| - 1].id == "" { AnchorIsAt(window[..|window| - 1]); }
  }

  /** The first page, whatever the ids: its window, its records, and the row its anchor names. */
  lemma FirstPage(table: seq<Row>, q: Request)
    requires FaultOf(q).None?
    ensures var full, page := Listing(table, q), PageOf(table, q);
            var window := Take(full, q.limit);
            && FirstVisit(table, q) == Visit(window, page)
            && page == Page(Records(window), |full| <= q.limit,
                            if AnchorAt(window) < 0 then None else Some(KeyOf(window[AnchorAt(window)])))
  {
    FirstWindow(table, q);
    FetchedIsListing(table, q);
    TakeTake(Listing(table, q), q.limit);
    AnchorIsAt(Take(Listing(table, q), q.limit));
  }

  lemma NextStart(table: seq<Row>, q: Request, k: nat)
    requires Table(table) && FaultOf(q).None? && k < |Listing(table, q)| && Listing(table, q)[k].id != ""
    ensures var a := KeyOf(Listing(table, q)[k]);
            FaultOf(Follow(q, a)).None? && Listing(table, Follow(q, a)) == Listing(table, q)[k + 1..]
  {
    FollowIsAccepted(q, KeyOf(Listing(table, q)[k]));
    NextListing(table, q, k);
  }

  /** The walk of a client: it goes on while the page is not complete and names an anchor. */
  ghost function Trail(table: seq<Row>, q: Request): seq<Visit>
    requires Table(table) && FaultOf(q).None?
    decreases |Listing(table, q)|
  {
    var page := PageOf(table, q);
    if page.complete || page.anchor.None? then [FirstVisit(table, q)]
    else
      TrailGoesOn(table, q);
      [FirstVisit(table, q)] + Trail(table, Follow(q, page.anchor.value))
  }

  lemma TrailGoesOn(table: seq<Row>, q: Request)
    requires Table(table) && FaultOf(q).None? && PageOf(table, q).anchor.Some?
    ensures var full := Listing(table, q);
            var k := AnchorAt(Take(full, q.limit));
            var q' := Follow(q, PageOf(table, q).anchor.value);
            0 <= k < |full| && FaultOf(q').None? && q'.limit == q.limit && Listing(table, q') == full[k + 1..]
  {
    FirstPage(table, q);
    NextStart(table, q, AnchorAt(Take(Listing(table, q), q.limit)));
  }

  /** The same walk over the listing alone: the windows it lays end to end. */
  ghost function Course(full: seq<Row>, limit: nat): seq<Row>
    decreases |full|
  {
    if |full| <= limit then full
    else
      var k := AnchorAt(full[..limit]);
      if k < 0 then full[..limit] else full[..limit] + Course(full[k + 1..], limit)
  }

  lemma {:induction false} TrailIsCourse(table: seq<Row>, q: Request)
    requires Table(table) && FaultOf(q).None?
    ensures Windows(Trail(table, q)) == Course(Listing(table, q), q.limit)
    ensures Emitted(Trail(table, q)) == Records(Course(Listing(table, q), q.limit))
    decreases |Listing(table, q)|
  {
    FirstPage(table, q);
    var full, page, visit := Listing(table, q), PageOf(table, q), FirstVisit(table, q);
    if page.complete || page.anchor.None? {
      PrependVisit(visit, []);
      assert [visit] + [] == [visit] && visit.window + [] == visit.window;
      assert visit.page.records + [] == visit.page.records;
    } else {
      TrailGoesOn(table, q);
      var q' := Follow(q, page.anchor.value);
      TrailIsCourse(table, q');
      PrependVisit(visit, Trail(table, q'));
      FilterConcat(visit.window, Course(Listing(table, q'), q.limit), Tolerated);
    }
  }

  // ---- where the row without an id falls ---------------------------------------------------------

  /** Cutting a list into windows of `limit`, position `p` is the last of its window. */
  predicate EndsWindow(p: nat, limit: nat)
    requires limit >= 1
    decreases p
  {
    if p < limit then p == limit - 1 else EndsWindow(p - limit, limit)
  }

  ghost predicate NoGap(full: seq<Row>) {
    forall k :: 0 <= k < |full| ==> full[k].id != ""
  }

  /** Position `p`, and no other, has no id. */
  ghost predicate GapAt(full: seq<Row>, p: nat) {
    p < |full| && full[p].id == "" && forall k :: 0 <= k < |full| && k != p ==> full[k].id != ""
  }

  lemma AtMostOneGap(table: seq<Row>, q: Request, p: nat)
    requires Table(table) && p < |Listing(table, q)| && Listing(table, q)[p].id == ""
    ensures GapAt(Listing(table, q), p)
  {
    ListingFacts(table, q);
    ListingIsExact(table, q);
    var full := Listing(table, q);
    forall k | 0 <= k < |full| && k != p ensures full[k].id != "" {
      var i :| 0 <= i < |table| && table[i] == full[k];
      var j :| 0 <= j < |table| && table[j] == full[p];
      assert full[k] != full[p];
    }
  }

  /** A cut window whose last row has an id: the course goes on with exactly the rest. */
  lemma CutWell(full: seq<Row>, limit: nat)
    requires 1 <= limit < |full| && full[limit - 1].id != ""
    ensures Course(full, limit) == full[..limit] + Course(full[limit..], limit)
  {
    assert full[..limit][limit - 1].id != "";
  }

  lemma Halves(full: seq<Row>, n: nat)
    requires n <= |full|
    ensures full[..n] + full[n..] == full
  {
  }

  lemma {:induction false} NoGapAddsUp(full: seq<Row>, limit: nat)
    requires NoGap(full) && limit >= 1
    ensures Course(full, limit) == full
    decreases |full|
  {
    if |full| > limit {
      CutWell(full, limit);
      NoGapAddsUp(full[limit..], limit);
      Halves(full, limit);
    }
  }

  /** What a walk visits when the row without an id is at `p`. */
  ghost function Visited(full: seq<Row>, p: nat, limit: nat): seq<Row>
    requires p < |full| && limit >= 1
  {
    if !EndsWindow(p, limit) || p + 1 == |full| then full
    else if limit == 1 then full[..p + 1]
    else full[..p + 1] + full[p..]
  }

  lemma VisitedLater(full: seq<Row>, p: nat, limit: nat)
    requires limit <= p < |full| && limit >= 1
    ensures Visited(full, p, limit) == full[..limit] + Visited(full[limit..], p - limit, limit)
  {
    var rest := full[limit..];
    assert full == full[..limit] + rest;
    assert full[..p + 1] == full[..limit] + rest[..p - limit + 1];
    assert full[p..] == rest[p - limit..];
    assert full[..limit] + (rest[..p - limit + 1] + rest[p - limit..]) == (full[..limit] + rest[..p - limit + 1]) + rest[p - limit..];
  }

  lemma GapLater(full: seq<Row>, p: nat, n: nat)
    requires GapAt(full, p) && n <= |full|
    ensures n <= p ==> GapAt(full[n..], p - n)
    ensures n > p ==> NoGap(full[n..])
  {
  }

  /** The row without an id is in the first window, but not last in it, or nothing follows: all is well. */
  lemma GapInside(full: seq<Row>, limit: nat, p: nat)
    requires GapAt(full, p) && p < limit && (p != limit - 1 || |full| <= limit)
    ensures Course(full, limit) == full
  {
    if |full| > limit {
      CutWell(full, limit);
      GapLater(full, p, limit);
      NoGapAddsUp(full[limit..], limit);
      Halves(full, limit);
    }
  }

  /** It ends the first window and more follows: with a limit of one the walk stops, else it steps back and meets the row again. */
  lemma GapAtCut(full: seq<Row>, limit: nat, p: nat)
    requires GapAt(full, p) && p == limit - 1 && p + 1 < |full|
    ensures Course(full, limit) == Visited(full, p, limit)
  {
    CutAtGap(full[..limit], p);
    if limit > 1 {
      GapLater(full, p, p);
      GapInside(full[p..], limit, 0);
    }
  }

  lemma CutAtGap(window: seq<Row>, p: nat)
    requires |window| == p + 1 && window[p].id == "" && (p > 0 ==> window[p - 1].id != "")
    ensures AnchorAt(window) == p - 1
  {
  }

  lemma {:induction false} CourseWithGap(full: seq<Row>, limit: nat, p: nat)
    requires GapAt(full, p) && limit >= 1
    ensures Course(full, limit) == Visited(full, p, limit)
    decreases |full|
  {
    if p >= limit {
      CutWell(full, limit);
      GapLater(full, p, limit);
      CourseWithGap(full[limit..], limit, p - limit);
      VisitedLater(full, p, limit);
    } else if p == limit - 1 && p + 1 < |full| {
      GapAtCut(full, limit, p);
    } else {
      GapInside(full, limit, p);
    }
  }

  /** For every table with unique ids: the exact list of rows a walk visits, and shows, wherever the row without an id falls. */
  lemma WalkWithGap(table: seq<Row>, q: Request, p: nat)
    requires Table(table) && FaultOf(q).None? && p < |Listing(table, q)| && Listing(table, q)[p].id == ""
    ensures Windows(Trail(table, q)) == Visited(Listing(table, q), p, q.limit)
    ensures Emitted(Trail(table, q)) == Records(Visited(Listing(table, q), p, q.limit))
  {
    AtMostOneGap(table, q, p);
    TrailIsCourse(table, q);
    CourseWithGap(Listing(table, q), q.limit, p);
  }

  /**
   * For every table with unique ids, empty one included: following anchors visits the listing,
   * each row once and in order, if and only if no row without an id ends a window that more
   * rows follow.
   */
  lemma VisitsEachOnceIff(table: seq<Row>, q: Request)
    requires Table(table) && FaultOf(q).None?
    ensures Windows(Trail(table, q)) == Listing(table, q)
       <==> forall p :: 0 <= p < |Listing(table, q)| - 1 && EndsWindow(p, q.limit) ==> Listing(table, q)[p].id != ""
  {
    var full := Listing(table, q);
    if p :| 0 <= p < |full| && full[p].id == "" {
      AtMostOneGap(table, q, p);
      WalkWithGap(table, q, p);
      assert EndsWindow(p, q.limit) && p + 1 < |full| ==> |Visited(full, p, q.limit)| != |full|;
    } else {
      TrailIsCourse(table, q);
      NoGapAddsUp(full, q.limit);
    }
  }

  /** And in terms of what is shown: a row that is not shown may be met twice, and with a limit of one nothing may be left to show. */
  lemma ShowsEachOnceIff(table: seq<Row>, q: Request, p: nat)
    requires Table(table) && FaultOf(q).None? && p < |Listing(table, q)| && Listing(table, q)[p].id == ""
    ensures var full := Listing(table, q);
            Emitted(Trail(table, q)) == Records(full) <==>
              || !EndsWindow(p, q.limit) || p + 1 == |full|
              || (if q.limit == 1 then Records(full[p + 1..]) == [] else !Tolerated(full[p]))
  {
    WalkWithGap(table, q, p);
    RecordsOfVisited(Listing(table, q), p, q.limit);
  }

  lemma RecordsOfVisited(full: seq<Row>, p: nat, limit: nat)
    requires p < |full| && limit >= 1
    ensures Records(Visited(full, p, limit)) == Records(full) <==>
              || !EndsWindow(p, limit) || p + 1 == |full|
              || (if limit == 1 then Records(full[p + 1..]) == [] else !Tolerated(full[p]))
  {
    StopsShort(full, p);
    MeetsTwice(full, p);
  }

  lemma StopsShort(full: seq<Row>, p: nat)
    requires p < |full|
    ensures Records(full[..p + 1]) == Records(full) <==> Records(full[p + 1..]) == []
  {
    var a, b := Records(full[..p + 1]), Records(full[p + 1..]);
    Halves(full, p + 1);
    FilterConcat(full[..p + 1], full[p + 1..], Tolerated);
    assert a + b == a <==> b == [] by { assert |a + b| == |a| + |b|; assert a + [] == a; }
  }

  lemma MeetsTwice(full: seq<Row>, p: nat)
    requires p < |full|
    ensures Records(full[..p + 1] + full[p..]) == Records(full) <==> !Tolerated(full[p])
  {
    var a, b, again := Records(full[..p + 1]), Records(full[p + 1..]), Records(full[p..]);
    Halves(full, p + 1);
    FilterConcat(full[..p + 1], full[p + 1..], Tolerated);
    FilterConcat(full[..p + 1], full[p..], Tolerated);
    assert full[p..][1..] == full[p + 1..];
    assert again == (if Tolerated(full[p]) then [full[p]] else []) + b;
    assert |a + again| == |a| + |again| && |a + b| == |a| + |b|;
    if !Tolerated(full[p]) { assert [] + b == b; }
  }

  // ---- where it fails ------------------------------------------------------------------------------

  function Bare(time: int, id: string): Row {
    Row(id, time, None, None, None, None, Null, Null, Null, Null, Null)
  }

  function Everything(limit: int): Request {
    Request("all", "all", None, None, limit, [])
  }

  function Three(): seq<Row> {
    [Bare(5, "b"), Bare(5, ""), Bare(4, "x")]
  }

  lemma AllListed(limit: int)
    requires limit >= 1
    ensures Table(Three()) && FaultOf(Everything(limit)).None? && Listing(Three(), Everything(limit)) == Three()
  {
    var b, e, x := Bare(5, "b"), Bare(5, ""), Bare(4, "x");
    var table := [b, e, x];
    FilterAll(table, row => Wanted(Everything(limit), row));
    assert TextLess("", "b");
    assert table[1..] == [e, x] && [e, x][1..] == [x] && [x][1..] == [];
    assert Sort([x]) == [x];
    assert Sort([e, x]) == [e, x];
  }

  lemma ThreeVisited(full: seq<Row>)
    requires |full| == 3
    ensures Visited(full, 1, 2) == [full[0], full[1], full[1], full[2]] && Visited(full, 1, 1) == [full[0], full[1]]
  {
    assert full[..2] == [full[0], full[1]] && full[1..] == [full[1], full[2]];
    assert EndsWindow(0, 1);
  }

  lemma AllShown(rows: seq<Row>)
    requires forall k :: 0 <= k < |rows| ==> rows[k] in Three()
    ensures Records(rows) == rows
  {
    FilterAll(rows, Tolerated);
  }

  lemma WalkOverThree(limit: nat)
    requires limit >= 1
    ensures Table(Three()) && FaultOf(Everything(limit)).None?
    ensures Emitted(Trail(Three(), Everything(limit))) == Records(Visited(Three(), 1, limit))
  {
    AllListed(limit);
    WalkWithGap(Three(), Everything(limit), 1);
  }

  /** With a limit of two the row without an id is shown twice. */
  lemma EmptyIdShownTwice()
    ensures Table(Three()) && FaultOf(Everything(2)).None?
    ensures var t := Three(); Emitted(Trail(t, Everything(2))) == [t[0], t[1], t[1], t[2]]
  {
    var t := Three();
    WalkOverThree(2);
    ThreeVisited(t);
    AllShown([t[0], t[1], t[1], t[2]]);
  }

  /** With a limit of one the walk ends at that row, and the last row is never shown. */
  lemma EmptyIdEndsWalk()
    ensures Table(Three()) && FaultOf(Everything(1)).None?
    ensures var t := Three(); Emitted(Trail(t, Everything(1))) == [t[0], t[1]]
  {
    var t := Three();
    WalkOverThree(1);
    ThreeVisited(t);
    AllShown([t[0], t[1]]);
  }
}
