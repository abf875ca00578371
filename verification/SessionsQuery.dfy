/** The sessions projection query: predicates with positional placeholders, and what they select. */
module SessionsQuery {
  import opened Prelude
  import opened Text
  import opened SearchPattern

  /** A stored JSON text column: SQL NULL, a non-text value, or a text that parses to some shape or not at all. */
  datatype Cell = Null | NonText | BadJson | JsonObject | JsonNull | JsonOther

  datatype Row = Row(
    id: string,
    time: int,
    archived: Option<int>,
    parent: Option<string>,
    title: Option<string>,
    directory: Option<string>,
    summaryDiffs: Cell,
    revert: Cell,
    permission: Cell,
    metadata: Cell,
    model: Cell)

  datatype Anchor = Anchor(time: int, id: string)

  datatype Request = Request(
    archived: string, parent: string, search: Option<string>, cursor: Option<Anchor>, limit: int, allowlist: seq<string>)

  // ---- text order -----------------------------------------------------------------------

  /** Binary comparison of two texts. */
  predicate TextLess(a: string, b: string) {
    b != [] && (a == [] || a[0] < b[0] || (a[0] == b[0] && TextLess(a[1..], b[1..])))
  }

  // ---- a fragment of SQL ------------------------------------------------------------------

  datatype Value = NullValue | Number(n: int) | Words(s: string)

  /** One conjunct of the WHERE clause; each question mark takes one positional parameter. */
  datatype Pred =
    | ArchivedIsNull
    | ArchivedNotNull
    | ParentIsNull
    | ParentNotNull
    | ParentEquals                       // s.parent_id = ?
    | TitleLike                          // (? IS NULL OR s.title LIKE ? ESCAPE '\')
    | Subtrees(branches: seq<Branch>)    // ( ... OR ... )
    | BelowAnchor                        // (s.time_updated < ? OR (s.time_updated = ? AND s.id < ?))

  datatype Branch = Root /* substr(s.directory, 1, 1) = '/' */ | Under /* (s.directory = ? OR substr(s.directory, 1, ?) = ?) */

  /** The conjuncts, their parameters in order, and the parameter of `LIMIT ? + 1`. */
  datatype Query = Query(preds: seq<Pred>, params: seq<Value>, limit: int)

  function BranchArity(branches: seq<Branch>): nat {
    if branches == [] then 0 else (if branches[0].Root? then 0 else 3) + BranchArity(branches[1..])
  }

  function Arity(p: Pred): nat {
    match p
    case ParentEquals => 1
    case TitleLike => 2
    case Subtrees(branches) => BranchArity(branches)
    case BelowAnchor => 3
    case _ => 0
  }

  function TotalArity(preds: seq<Pred>): nat {
    if preds == [] then 0 else Arity(preds[0]) + TotalArity(preds[1..])
  }

  function Substr(s: string, n: int): string {
    if n < 0 then "" else if n < |s| then s[..n] else s
  }

  /** A comparison with NULL, or between a text and a number, is not true. */
  predicate EqualsText(column: Option<string>, v: Value) {
    column.Some? && v == Words(column.value)
  }

  predicate BranchesHold(branches: seq<Branch>, row: Row, args: seq<Value>)
    requires |args| == BranchArity(branches)
  {
    if branches == [] then false
    else if branches[0].Root? then
      (row.directory.Some? && Substr(row.directory.value, 1) == "/") || BranchesHold(branches[1..], row, args)
    else
      || EqualsText(row.directory, args[0])
      || (row.directory.Some? && args[1].Number? && args[2] == Words(Substr(row.directory.value, args[1].n)))
      || BranchesHold(branches[1..], row, args[3..])
  }

  predicate Holds(p: Pred, row: Row, args: seq<Value>)
    requires |args| == Arity(p)
  {
    match p
    case ArchivedIsNull => row.archived.None?
    case ArchivedNotNull => row.archived.Some?
    case ParentIsNull => row.parent.None?
    case ParentNotNull => row.parent.Some?
    case ParentEquals => EqualsText(row.parent, args[0])
    case TitleLike => args[0].NullValue? || (row.title.Some? && args[1].Words? && Like(args[1].s, row.title.value))
    case Subtrees(branches) => BranchesHold(branches, row, args)
    case BelowAnchor =>
      || (args[0].Number? && row.time < args[0].n)
      || (args[1] == Number(row.time) && args[2].Words? && TextLess(row.id, args[2].s))
  }

  /** The conjunction, with the parameters handed out from left to right. */
  predicate AllHold(preds: seq<Pred>, row: Row, args: seq<Value>)
    requires |args| == TotalArity(preds)
  {
    preds == []
    || (Holds(preds[0], row, args[..Arity(preds[0])]) && AllHold(preds[1..], row, args[Arity(preds[0])..]))
  }

  // ---- assembly -----------------------------------------------------------------------------

  datatype Fault = BadArchived | BadParent | BadLimit | BadAllowlist | BadAnchor

  datatype Built = Ready(query: Query) | Rejected(fault: Fault)

  function FaultOf(q: Request): Option<Fault> {
    if q.archived != "omit" && q.archived != "only" && q.archived != "all" then Some(BadArchived)
    else if q.parent == "" then Some(BadParent)
    else if q.limit < 1 then Some(BadLimit)
    else if "" in q.allowlist then Some(BadAllowlist)
    else if q.cursor.Some? && q.cursor.value.id == "" then Some(BadAnchor)
    else None
  }

  /** Some conjuncts with their own parameters. */
  datatype Clause = Clause(preds: seq<Pred>, params: seq<Value>)

  function ArchivedClause(q: Request): Clause {
    if q.archived == "omit" then Clause([ArchivedIsNull], [])
    else if q.archived == "only" then Clause([ArchivedNotNull], [])
    else Clause([], [])
  }

  function ParentClause(q: Request): Clause {
    if q.parent == "none" then Clause([ParentIsNull], [])
    else if q.parent == "only" then Clause([ParentNotNull], [])
    else if q.parent != "all" then Clause([ParentEquals], [Words(q.parent)])
    else Clause([], [])
  }

  function SearchClause(q: Request): Clause {
    if q.search.None? then Clause([TitleLike], [NullValue, NullValue])
    else
      var pattern := SearchText(Strip(q.search.value));
      Clause([TitleLike], [Words(pattern), Words(pattern)])
  }

  function Branches(items: seq<string>): seq<Branch> {
    if items == [] then []
    else Branches(items[..|items| - 1]) + [if items[|items| - 1] == "/" then Root else Under]
  }

  function BranchParams(items: seq<string>): seq<Value> {
    if items == [] then []
    else
      var item := items[|items| - 1];
      BranchParams(items[..|items| - 1])
      + (if item == "/" then [] else [Words(item), Number(|item| + 1), Words(item + "/")])
  }

  function AllowlistClause(q: Request): Clause {
    if q.allowlist == [] then Clause([], []) else Clause([Subtrees(Branches(q.allowlist))], BranchParams(q.allowlist))
  }

  function CursorClause(q: Request): Clause {
    if q.cursor.None? then Clause([], [])
    else
      var a := q.cursor.value;
      Clause([BelowAnchor], [Number(a.time), Number(a.time), Words(a.id)])
  }

  function And(a: Clause, b: Clause): Clause {
    Clause(a.preds + b.preds, a.params + b.params)
  }

  function Where(q: Request): Clause {
    And(And(And(And(ArchivedClause(q), ParentClause(q)), SearchClause(q)), AllowlistClause(q)), CursorClause(q))
  }

  method BuildSubtrees(items: seq<string>) returns (ok: bool, branches: seq<Branch>, params: seq<Value>)
    ensures ok <==> "" !in items
    ensures ok ==> branches == Branches(items) && params == BranchParams(items)
  {
    branches, params := [], [];
    var k := 0;
    while k < |items|
      invariant 0 <= k <= |items| && "" !in items[..k]
      invariant branches == Branches(items[..k]) && params == BranchParams(items[..k])
    {
      var item := items[k];
      if item == "" {
        return false, [], [];
      }
      assert items[..k + 1][..k] == items[..k];
      if item == "/" {
        branches := branches + [Root];
      } else {
        branches := branches + [Under];
        params := params + [Words(item), Number(|item| + 1), Words(item + "/")];
      }
      k := k + 1;
    }
    assert items[..k] == items;
    return true, branches, params;
  }

  /**
   * The assembler: it accepts exactly the well-formed requests, names the first thing wrong with
   * any other, and the query it builds has as many parameters as placeholders and selects, its
   * parameters handed out in order, exactly the rows the request asks for.
   */
  method BuildSessionsQuery(q: Request) returns (b: Built)
    ensures b.Ready? <==>
              && q.archived in {"omit", "only", "all"} && q.parent != "" && q.limit >= 1 && "" !in q.allowlist
              && (q.cursor.Some? ==> q.cursor.value.id != "")
    ensures b.Ready? ==>
              && b.query.limit == q.limit && |b.query.params| == TotalArity(b.query.preds)
              && forall row :: AllHold(b.query.preds, row, b.query.params) <==> Wanted(q, row)
    ensures b.Rejected? ==>
              match b.fault
              case BadArchived => q.archived !in {"omit", "only", "all"}
              case BadParent => q.archived in {"omit", "only", "all"} && q.parent == ""
              case BadLimit => q.archived in {"omit", "only", "all"} && q.parent != "" && q.limit < 1
              case BadAllowlist => q.archived in {"omit", "only", "all"} && q.parent != "" && q.limit >= 1 && "" in q.allowlist
              case BadAnchor => q.limit >= 1 && "" !in q.allowlist && q.cursor.Some? && q.cursor.value.id == ""
  {
    b := Assemble(q);
    FaultMeans(q);
    if b.Ready? {
      QueryMeansRequest(q, SomeRow());
      forall row ensures AllHold(b.query.preds, row, b.query.params) <==> Wanted(q, row) {
        QueryMeansRequest(q, row);
      }
    }
  }

  function SomeRow(): Row {
    Row("", 0, None, None, None, None, Null, Null, Null, Null, Null)
  }

  lemma FaultMeans(q: Request)
    ensures FaultOf(q).None? <==>
              && q.archived in {"omit", "only", "all"} && q.parent != "" && q.limit >= 1 && "" !in q.allowlist
              && (q.cursor.Some? ==> q.cursor.value.id != "")
  {
  }

  /** The assembly as it runs: conjuncts and parameters are appended side by side. */
  method Assemble(q: Request) returns (b: Built)
    ensures FaultOf(q).Some? ==> b == Rejected(FaultOf(q).value)
    ensures FaultOf(q).None? ==> b == Ready(Query(Where(q).preds, Where(q).params, q.limit))
  {
    if q.archived != "omit" && q.archived != "only" && q.archived != "all" {
      return Rejected(BadArchived);
    }
    if q.parent == "" {
      return Rejected(BadParent);
    }
    if q.limit < 1 {
      return Rejected(BadLimit);
    }
    var preds: seq<Pred>, params: seq<Value> := [], [];
    if q.archived == "omit" {
      preds := preds + [ArchivedIsNull];
    } else if q.archived == "only" {
      preds := preds + [ArchivedNotNull];
    }
    assert preds == ArchivedClause(q).preds;
    if q.parent == "none" {
      preds := preds + [ParentIsNull];
    } else if q.parent == "only" {
      preds := preds + [ParentNotNull];
    } else if q.parent != "all" {
      params := params + [Words(q.parent)];
      preds := preds + [ParentEquals];
    }
    assert preds == And(ArchivedClause(q), ParentClause(q)).preds;
    assert params == And(ArchivedClause(q), ParentClause(q)).params;
    preds := preds + [TitleLike];
    if q.search.None? {
      params := params + [NullValue, NullValue];
    } else {
      var pattern := SearchText(Strip(q.search.value));
      params := params + [Words(pattern), Words(pattern)];
    }
    ghost var front := And(And(ArchivedClause(q), ParentClause(q)), SearchClause(q));
    assert preds == front.preds && params == front.params;
    if q.allowlist != [] {
      var ok, branches, more := BuildSubtrees(q.allowlist);
      if !ok {
        return Rejected(BadAllowlist);
      }
      preds := preds + [Subtrees(branches)];
      params := params + more;
    }
    ghost var middle := And(front, AllowlistClause(q));
    assert preds == middle.preds && params == middle.params;
    if q.cursor.Some? {
      if q.cursor.value.id == "" {
        return Rejected(BadAnchor);
      }
      var a := q.cursor.value;
      preds := preds + [BelowAnchor];
      params := params + [Number(a.time), Number(a.time), Words(a.id)];
    }
    return Ready(Query(preds, params, q.limit));
  }

  // ---- the meaning, stated directly ---------------------------------------------------------

  ghost predicate InSubtree(directory: Option<string>, item: string) {
    directory.Some? &&
    (if item == "/" then StartsWith(directory.value, "/")
     else directory.value == item || StartsWith(directory.value, item + "/"))
  }

  /** The filters of a request, apart from its cursor. */
  ghost predicate Selected(q: Request, row: Row) {
    && (q.archived == "omit" ==> row.archived.None?)
    && (q.archived == "only" ==> row.archived.Some?)
    && (q.parent == "none" ==> row.parent.None?)
    && (q.parent == "only" ==> row.parent.Some?)
    && (q.parent != "none" && q.parent != "only" && q.parent != "all" ==> row.parent == Some(q.parent))
    && (q.search.Some? ==> row.title.Some? && Contains(row.title.value, Strip(q.search.value)))
    && (q.allowlist != [] ==> exists k :: 0 <= k < |q.allowlist| && InSubtree(row.directory, q.allowlist[k]))
  }

  /** `row` comes after the anchor in (time, id) descending order. */
  predicate Beyond(row: Row, a: Anchor) {
    row.time < a.time || (row.time == a.time && TextLess(row.id, a.id))
  }

  ghost predicate Wanted(q: Request, row: Row) {
    Selected(q, row) && (q.cursor.Some? ==> Beyond(row, q.cursor.value))
  }

  // ---- the assembler means what the request says -------------------------------------------------

  lemma {:induction false} AllHoldAppend(preds: seq<Pred>, args: seq<Value>, p: Pred, more: seq<Value>, row: Row)
    requires |args| == TotalArity(preds) && |more| == Arity(p)
    ensures TotalArity(preds + [p]) == |args + more|
    ensures AllHold(preds + [p], row, args + more) <==> AllHold(preds, row, args) && Holds(p, row, more)
  {
    if preds == [] {
      assert preds + [p] == [p] && args + more == more;
      assert [p][1..] == [] && more[..|more|] == more;
    } else {
      var n := Arity(preds[0]);
      assert (preds + [p])[1..] == preds[1..] + [p];
      AllHoldAppend(preds[1..], args[n..], p, more, row);
      assert (args + more)[..n] == args[..n];
      assert (args + more)[n..] == args[n..] + more;
    }
  }

  lemma {:induction false} BranchAppend(branches: seq<Branch>, args: seq<Value>, b: Branch, more: seq<Value>, row: Row)
    requires |args| == BranchArity(branches) && |more| == BranchArity([b])
    ensures BranchArity(branches + [b]) == |args + more|
    ensures BranchesHold(branches + [b], row, args + more) <==> BranchesHold(branches, row, args) || BranchesHold([b], row, more)
  {
    if branches == [] {
      assert branches + [b] == [b] && args + more == more;
    } else {
      var n := if branches[0].Root? then 0 else 3;
      assert (branches + [b])[1..] == branches[1..] + [b];
      BranchAppend(branches[1..], args[n..], b, more, row);
      assert (args + more)[n..] == args[n..] + more;
      assert args[0..] == args;
    }
  }

  /** Binding the item, its length plus one, and the item with a slash selects exactly its subtree. */
  lemma UnderIsSubtree(item: string, row: Row)
    requires item != "" && item != "/"
    ensures BranchesHold([Under], row, [Words(item), Number(|item| + 1), Words(item + "/")]) <==> InSubtree(row.directory, item)
  {
    assert [Under][1..] == [];
  }

  lemma RootIsSubtree(row: Row)
    ensures BranchesHold([Root], row, []) <==> InSubtree(row.directory, "/")
  {
    assert [Root][1..] == [];
  }

  ghost predicate WellBound(c: Clause) {
    |c.params| == TotalArity(c.preds)
  }

  ghost predicate Accepts(c: Clause, row: Row)
    requires WellBound(c)
  {
    AllHold(c.preds, row, c.params)
  }

  /** A clause with at most one conjunct. */
  lemma AndMeans(a: Clause, b: Clause, row: Row)
    requires WellBound(a) && WellBound(b) && |b.preds| <= 1
    ensures WellBound(And(a, b))
    ensures Accepts(And(a, b), row) <==> Accepts(a, row) && Accepts(b, row)
  {
    if b.preds == [] {
      assert a.preds + b.preds == a.preds && a.params + b.params == a.params;
    } else {
      var p := b.preds[0];
      assert b.preds == [p] && b.preds[1..] == [];
      assert TotalArity(b.preds) == Arity(p);
      OnePred(p, b.params, row);
      AllHoldAppend(a.preds, a.params, p, b.params, row);
    }
  }

  lemma OnePred(p: Pred, args: seq<Value>, row: Row)
    requires |args| == Arity(p)
    ensures WellBound(Clause([p], args)) && (Accepts(Clause([p], args), row) <==> Holds(p, row, args))
  {
    AllHoldAppend([], [], p, args, row);
    assert [] + [p] == [p] && [] + args == args;
  }

  lemma {:induction false} BranchesMean(items: seq<string>, row: Row)
    requires "" !in items
    ensures |BranchParams(items)| == BranchArity(Branches(items))
    ensures BranchesHold(Branches(items), row, BranchParams(items))
       <==> exists k :: 0 <= k < |items| && InSubtree(row.directory, items[k])
  {
    if items != [] {
      var n := |items| - 1;
      var item := items[n];
      BranchesMean(items[..n], row);
      var b := if item == "/" then Root else Under;
      var more := if item == "/" then [] else [Words(item), Number(|item| + 1), Words(item + "/")];
      assert [b][1..] == [];
      BranchAppend(Branches(items[..n]), BranchParams(items[..n]), b, more, row);
      assert item in items;
      if item == "/" { RootIsSubtree(row); } else { UnderIsSubtree(item, row); }
      assert forall k :: 0 <= k < n ==> items[..n][k] == items[k];
    }
  }

  lemma SearchMeans(q: Request, row: Row)
    ensures var c := SearchClause(q);
            WellBound(c) &&
            (Accepts(c, row) <==> (q.search.Some? ==> row.title.Some? && Contains(row.title.value, Strip(q.search.value))))
  {
    OnePred(TitleLike, SearchClause(q).params, row);
    if q.search.Some? && row.title.Some? {
      SearchIsSubstring(Strip(q.search.value), row.title.value);
    }
  }

  lemma AllowlistMeans(q: Request, row: Row)
    requires "" !in q.allowlist
    ensures var c := AllowlistClause(q);
            WellBound(c) &&
            (Accepts(c, row) <==>
               (q.allowlist != [] ==> exists k :: 0 <= k < |q.allowlist| && InSubtree(row.directory, q.allowlist[k])))
  {
    if q.allowlist != [] {
      BranchesMean(q.allowlist, row);
      OnePred(Subtrees(Branches(q.allowlist)), BranchParams(q.allowlist), row);
    }
  }

  /**
   * Every accepted request yields as many parameters as placeholders, and the query, its
   * parameters handed out in order, selects exactly the rows the request asks for.
   */
  lemma QueryMeansRequest(q: Request, row: Row)
    requires FaultOf(q).None?
    ensures WellBound(Where(q)) && (Accepts(Where(q), row) <==> Wanted(q, row))
  {
    var c1, c2, c3, c4, c5 := ArchivedClause(q), ParentClause(q), SearchClause(q), AllowlistClause(q), CursorClause(q);
    ArchivedMeans(q, row);
    ParentMeans(q, row);
    SearchMeans(q, row);
    AllowlistMeans(q, row);
    CursorMeans(q, row);
    AndMeans(c1, c2, row);
    AndMeans(And(c1, c2), c3, row);
    AndMeans(And(And(c1, c2), c3), c4, row);
    AndMeans(And(And(And(c1, c2), c3), c4), c5, row);
  }

  lemma ArchivedMeans(q: Request, row: Row)
    ensures var c := ArchivedClause(q);
            WellBound(c) && (Accepts(c, row) <==>
              (q.archived == "omit" ==> row.archived.None?) && (q.archived == "only" ==> row.archived.Some?))
  {
    OnePred(ArchivedIsNull, [], row);
    OnePred(ArchivedNotNull, [], row);
  }

  lemma ParentMeans(q: Request, row: Row)
    ensures var c := ParentClause(q);
            WellBound(c) && (Accepts(c, row) <==>
              && (q.parent == "none" ==> row.parent.None?)
              && (q.parent == "only" ==> row.parent.Some?)
              && (q.parent != "none" && q.parent != "only" && q.parent != "all" ==> row.parent == Some(q.parent)))
  {
    OnePred(ParentIsNull, [], row);
    OnePred(ParentNotNull, [], row);
    OnePred(ParentEquals, [Words(q.parent)], row);
  }

  lemma CursorMeans(q: Request, row: Row)
    ensures var c := CursorClause(q);
            WellBound(c) && (Accepts(c, row) <==> (q.cursor.Some? ==> Beyond(row, q.cursor.value)))
  {
    if q.cursor.Some? {
      OnePred(BelowAnchor, CursorClause(q).params, row);
    }
  }
}
