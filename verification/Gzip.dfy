/** Content-coding negotiation and the compress-if-beneficial gate. */
module Gzip {
  import opened Prelude
  import opened Text
  import opened Base64Url

  type Bytes = seq<Byte>

  /** How a `q=` value reads as a number: not at all, or whether it is above zero. */
  type Weights = string -> Option<bool>

  const MIN_GZIP_BYTES := 64

  function Lower(s: string): string {
    seq(|s|, k requires 0 <= k < |s| => LowerChar(s[k]))
  }

  function Prefix(s: string, n: nat): string {
    if n < |s| then s[..n] else s
  }

  /** What a parameter says about acceptance, if it is a readable weight. */
  function WeightOf(param: string, weights: Weights): Option<bool> {
    var p := Strip(param);
    if Lower(Prefix(p, 2)) == "q=" then weights(p[2..]) else None
  }

  /** The last readable weight counts; without one the coding is accepted. */
  function Accepted(params: seq<string>, weights: Weights): bool {
    if params == [] then true
    else
      var w := WeightOf(params[|params| - 1], weights);
      if w.Some? then w.value else Accepted(params[..|params| - 1], weights)
  }

  datatype Kind = GzipCoding | StarCoding | OtherCoding

  function KindOf(part: string): Kind {
    var coding := Lower(Strip(Split(Strip(part), ';')[0]));
    if Strip(part) == "" then OtherCoding
    else if coding == "gzip" || coding == "x-gzip" then GzipCoding
    else if coding == "*" then StarCoding
    else OtherCoding
  }

  function PartAccepted(part: string, weights: Weights): bool {
    Accepted(Split(Strip(part), ';')[1..], weights)
  }

  /** The verdict of the last part of that kind. */
  function LastOf(parts: seq<string>, kind: Kind, weights: Weights): Option<bool> {
    if parts == [] then None
    else
      var n := |parts| - 1;
      if KindOf(parts[n]) == kind then Some(PartAccepted(parts[n], weights)) else LastOf(parts[..n], kind, weights)
  }

  /** An explicit gzip part decides; failing that, a wildcard; failing that, no. */
  function Accepts(header: Option<string>, weights: Weights): bool {
    if header.None? then false
    else
      var parts := Split(header.value, ',');
      var gzip, star := LastOf(parts, GzipCoding, weights), LastOf(parts, StarCoding, weights);
      if gzip.Some? then gzip.value else star.Some? && star.value
  }

  /** The last readable weight among the parameters. */
  method ReadWeight(params: seq<string>, weights: Weights) returns (q: bool)
    ensures q == Accepted(params, weights)
  {
    q := true;
    var i := 0;
    while i < |params|
      invariant 0 <= i <= |params| && q == Accepted(params[..i], weights)
    {
      assert params[..i + 1][..i] == params[..i];
      var w := WeightOf(params[i], weights);
      if w.Some? {
        q := w.value;
      }
      i := i + 1;
    }
    assert params[..i] == params;
  }

  method AcceptsGzip(header: Option<string>, weights: Weights) returns (yes: bool)
    ensures yes == Accepts(header, weights)
    ensures header.None? ==> !yes
  {
    if header.None? {
      return false;
    }
    var gzip: Option<bool>, star: Option<bool> := None, None;
    var parts := Split(header.value, ',');
    var k := 0;
    while k < |parts|
      invariant 0 <= k <= |parts|
      invariant gzip == LastOf(parts[..k], GzipCoding, weights) && star == LastOf(parts[..k], StarCoding, weights)
    {
      assert parts[..k + 1][..k] == parts[..k];
      var part := Strip(parts[k]);
      if part != "" {
        var tokens := Split(part, ';');
        var coding := Lower(Strip(tokens[0]));
        var q := ReadWeight(tokens[1..], weights);
        if coding == "gzip" || coding == "x-gzip" {
          gzip := Some(q);
        } else if coding == "*" {
          star := Some(q);
        }
      }
      k := k + 1;
    }
    assert parts[..k] == parts;
    if gzip.Some? {
      return gzip.value;
    }
    return star.Some? && star.value;
  }

  // ---- printed lists of codings --------------------------------------------------------------

  /** A parameter: a weight, whether or not its text is a number, or anything else. */
  datatype Param = Weight(before: string, upper: bool, text: string, after: string) | Extension(text: string)

  /** One element of the list: a coding's name with white space around it, and its parameters. */
  datatype Offer = Offer(before: string, name: string, after: string, params: seq<Param>)

  ghost predicate Trimmed(s: string) {
    s != "" ==> !IsSpace(s[0]) && !IsSpace(s[|s| - 1])
  }

  predicate Unseparated(s: string) {
    ',' !in s && ';' !in s
  }

  ghost predicate FineParam(p: Param) {
    match p
    case Weight(before, _, text, after) =>
      Blank(before) && Blank(after) && Unseparated(text) && (text != "" ==> !IsSpace(text[|text| - 1]))
    case Extension(text) => Unseparated(text) && Lower(Prefix(Strip(text), 2)) != "q="
  }

  ghost predicate FineParams(params: seq<Param>) {
    forall k :: 0 <= k < |params| ==> FineParam(params[k])
  }

  ghost predicate Fine(o: Offer) {
    Blank(o.before) && Blank(o.after) && Trimmed(o.name) && Unseparated(o.name) && FineParams(o.params)
  }

  function PrintParam(p: Param): string {
    match p
    case Weight(before, upper, text, after) => before + ((if upper then "Q=" else "q=") + text) + after
    case Extension(text) => text
  }

  function PrintParams(params: seq<Param>): seq<string> {
    seq(|params|, k requires 0 <= k < |params| => PrintParam(params[k]))
  }

  function PrintOffer(o: Offer): string {
    Join([o.before + o.name + o.after] + PrintParams(o.params), ';')
  }

  function PrintOffers(offers: seq<Offer>): seq<string> {
    seq(|offers|, k requires 0 <= k < |offers| => PrintOffer(offers[k]))
  }

  function PrintHeader(offers: seq<Offer>): string
    requires offers != []
  {
    Join(PrintOffers(offers), ',')
  }

  predicate IsGzip(o: Offer) {
    Lower(o.name) == "gzip" || Lower(o.name) == "x-gzip"
  }

  predicate IsStar(o: Offer) {
    o.name == "*"
  }

  predicate Readable(p: Param, weights: Weights) {
    p.Weight? && weights(p.text).Some?
  }

  /** Every readable weight is overruled by a later one, or is above zero. */
  ghost predicate Allows(o: Offer, weights: Weights) {
    forall j :: 0 <= j < |o.params| && Readable(o.params[j], weights) ==>
      weights(o.params[j].text) == Some(true) || exists i :: j < i < |o.params| && Readable(o.params[i], weights)
  }

  /** The last of the offers of one kind allows. */
  ghost predicate LastAllows(offers: seq<Offer>, kind: Offer -> bool, weights: Weights) {
    exists k :: 0 <= k < |offers| && kind(offers[k]) && Allows(offers[k], weights)
             && forall i :: k < i < |offers| ==> !kind(offers[i])
  }

  lemma ParamRead(p: Param, weights: Weights)
    requires FineParam(p)
    ensures WeightOf(PrintParam(p), weights) == if p.Weight? then weights(p.text) else None
  {
    if p.Weight? {
      var core := (if p.upper then "Q=" else "q=") + p.text;
      StripBlanks(p.before, core, p.after);
      StripTrimmed(core);
      assert core[..2] == (if p.upper then "Q=" else "q=") && core[2..] == p.text;
      assert Prefix(core, 2) == core[..2];
      assert Lower(core[..2]) == "q=";
    }
  }

  /** The verdict on a list of parameters is that of the last readable weight. */
  lemma {:induction false} ParamsRead(params: seq<Param>, texts: seq<string>, weights: Weights)
    requires FineParams(params) && |texts| == |params|
    requires forall k :: 0 <= k < |params| ==> Strip(texts[k]) == Strip(PrintParam(params[k]))
    ensures Accepted(texts, weights) <==> Allows(Offer("", "", "", params), weights)
  {
    if params != [] {
      var n := |params| - 1;
      ParamsRead(params[..n], texts[..n], weights);
      ParamRead(params[n], weights);
      assert WeightOf(texts[n], weights) == WeightOf(PrintParam(params[n]), weights);
      AllowsLast(params, weights);
    }
  }

  lemma AllowsLast(params: seq<Param>, weights: Weights)
    requires params != []
    ensures Allows(Offer("", "", "", params), weights) <==>
              if Readable(params[|params| - 1], weights) then weights(params[|params| - 1].text) == Some(true)
              else Allows(Offer("", "", "", params[..|params| - 1]), weights)
  {
    var n := |params| - 1;
    var o := Offer("", "", "", params);
    if Readable(params[n], weights) {
      if weights(params[n].text) == Some(true) {
        assert Allows(o, weights);
      }
    } else if Allows(Offer("", "", "", params[..n]), weights) {
      forall j | 0 <= j < |params| && Readable(params[j], weights)
        ensures weights(params[j].text) == Some(true) || exists i :: j < i < |params| && Readable(params[i], weights)
      {
        assert params[..n][j] == params[j];
        if weights(params[j].text) != Some(true) {
          var i :| j < i < n && Readable(params[..n][i], weights);
          assert Readable(params[i], weights);
        }
      }
    } else {
      var j :| 0 <= j < n && Readable(params[..n][j], weights) && weights(params[..n][j].text) != Some(true)
             && !exists i :: j < i < n && Readable(params[..n][i], weights);
      assert forall i :: j < i < n ==> params[..n][i] == params[i];
      assert Readable(params[j], weights);
    }
  }

  /** Cutting a trimmed text gives the pieces of the whole text, up to blanks. */
  lemma SplitTrimmed(s: string, sep: char)
    requires !IsSpace(sep)
    ensures |Split(Strip(s), sep)| == |Split(s, sep)|
    ensures forall k :: 0 <= k < |Split(s, sep)| ==> Strip(Split(Strip(s), sep)[k]) == Strip(Split(s, sep)[k])
  {
    var left, right := StripSplit(s);
    var t := Strip(s);
    SplitSuffix(t, sep, right);
    SplitPrefix(left, sep, t + right);
    assert s == left + (t + right);
    SameTrims(Split(t, sep), Split(t + right, sep), Split(s, sep), left, right);
  }

  lemma SameTrims(a: seq<string>, b: seq<string>, c: seq<string>, left: string, right: string)
    requires |a| >= 1 && Blank(left) && Blank(right) && b == Trail(a, right) && c == [left + b[0]] + b[1..]
    ensures |c| == |a| && forall k :: 0 <= k < |a| ==> Strip(a[k]) == Strip(c[k])
  {
    forall k | 0 <= k < |a| ensures Strip(c[k]) == Strip(a[k]) {
      assert b[k] == a[k] + (if k == |a| - 1 then right else "") by { assert a[k] + "" == a[k]; }
      assert c[k] == (if k == 0 then left else "") + b[k] by { assert "" + b[k] == b[k]; }
      StripAround(left, a[k], right, k == 0, k == |a| - 1, c[k]);
    }
  }

  lemma OfferPieces(o: Offer)
    requires Fine(o)
    ensures Split(PrintOffer(o), ';') == [o.before + o.name + o.after] + PrintParams(o.params)
    ensures ',' !in PrintOffer(o)
  {
    var parts := [o.before + o.name + o.after] + PrintParams(o.params);
    forall k | 0 <= k < |parts| ensures Unseparated(parts[k]) {
      if k > 0 {
        assert FineParam(o.params[k - 1]) && parts[k] == PrintParam(o.params[k - 1]);
        assert parts[k] == PrintParam(o.params[k - 1]);
      }
    }
    SplitJoin(parts, ';');
    JoinLacks(parts, ';', ',');
  }

  lemma OfferRead(o: Offer, weights: Weights)
    requires Fine(o)
    ensures KindOf(PrintOffer(o)) == (if IsGzip(o) then GzipCoding else if IsStar(o) then StarCoding else OtherCoding)
    ensures PartAccepted(PrintOffer(o), weights) <==> Allows(o, weights)
  {
    var text := PrintOffer(o);
    OfferPieces(o);
    SplitTrimmed(text, ';');
    NameRead(o, text);
    ParamsOfOffer(o, Split(Strip(text), ';'), weights);
  }

  lemma NameRead(o: Offer, text: string)
    requires Fine(o) && Strip(Split(Strip(text), ';')[0]) == Strip(o.before + o.name + o.after)
    ensures KindOf(text) == (if IsGzip(o) then GzipCoding else if IsStar(o) then StarCoding else OtherCoding)
  {
    StripBlanks(o.before, o.name, o.after);
    StripTrimmed(o.name);
    if Strip(text) == "" {
      assert Split(Strip(text), ';') == [""];
    }
    LowerStar(o.name);
  }

  lemma ParamsOfOffer(o: Offer, a: seq<string>, weights: Weights)
    requires Fine(o) && |a| == 1 + |o.params|
    requires forall k :: 0 <= k < |a| ==> Strip(a[k]) == Strip(([o.before + o.name + o.after] + PrintParams(o.params))[k])
    ensures Accepted(a[1..], weights) <==> Allows(o, weights)
  {
    forall k | 0 <= k < |o.params| ensures Strip(a[1..][k]) == Strip(PrintParam(o.params[k])) {
      assert a[1..][k] == a[k + 1];
      assert ([o.before + o.name + o.after] + PrintParams(o.params))[k + 1] == PrintParam(o.params[k]);
    }
    ParamsRead(o.params, a[1..], weights);
  }

  lemma LowerStar(s: string)
    ensures Lower(s) == "*" <==> s == "*"
  {
    if Lower(s) == "*" { assert LowerChar(s[0]) == Lower(s)[0]; }
  }

  /** Each text is read as its offer is meant. */
  ghost predicate Reads(offers: seq<Offer>, texts: seq<string>, k: Kind, kind: Offer -> bool, weights: Weights) {
    && |texts| == |offers|
    && (forall i :: 0 <= i < |offers| ==> (KindOf(texts[i]) == k <==> kind(offers[i])))
    && (forall i :: 0 <= i < |offers| ==> (PartAccepted(texts[i], weights) <==> Allows(offers[i], weights)))
  }

  lemma ReadsFewer(offers: seq<Offer>, texts: seq<string>, n: nat, k: Kind, kind: Offer -> bool, weights: Weights)
    requires Reads(offers, texts, k, kind, weights) && n <= |offers|
    ensures Reads(offers[..n], texts[..n], k, kind, weights)
  {
  }

  ghost predicate Named(offers: seq<Offer>, kind: Offer -> bool) {
    exists i :: 0 <= i < |offers| && kind(offers[i])
  }

  lemma NamedMore(offers: seq<Offer>, kind: Offer -> bool)
    requires offers != []
    ensures Named(offers, kind) <==> kind(offers[|offers| - 1]) || Named(offers[..|offers| - 1], kind)
  {
    var n := |offers| - 1;
    if i :| 0 <= i < |offers| && kind(offers[i]) {
      assert i < n ==> kind(offers[..n][i]);
    }
  }

  lemma {:induction false} LastRead(offers: seq<Offer>, texts: seq<string>, k: Kind, kind: Offer -> bool, weights: Weights)
    requires Reads(offers, texts, k, kind, weights)
    ensures LastOf(texts, k, weights).Some? <==> Named(offers, kind)
    ensures LastOf(texts, k, weights) == Some(true) <==> LastAllows(offers, kind, weights)
  {
    if offers != [] {
      var n := |offers| - 1;
      ReadsFewer(offers, texts, n, k, kind, weights);
      LastRead(offers[..n], texts[..n], k, kind, weights);
      LastAllowsMore(offers, kind, weights);
      NamedMore(offers, kind);
    }
  }

  lemma LastAllowsMore(offers: seq<Offer>, kind: Offer -> bool, weights: Weights)
    requires offers != []
    ensures LastAllows(offers, kind, weights) <==>
              if kind(offers[|offers| - 1]) then Allows(offers[|offers| - 1], weights)
              else LastAllows(offers[..|offers| - 1], kind, weights)
  {
    var n := |offers| - 1;
    if !kind(offers[n]) {
      if LastAllows(offers[..n], kind, weights) {
        var k :| 0 <= k < n && kind(offers[..n][k]) && Allows(offers[..n][k], weights) && forall i :: k < i < n ==> !kind(offers[..n][i]);
        assert forall i :: k < i < n ==> offers[..n][i] == offers[i];
        assert kind(offers[k]);
      }
      if LastAllows(offers, kind, weights) {
        var k :| 0 <= k < |offers| && kind(offers[k]) && Allows(offers[k], weights) && forall i :: k < i < |offers| ==> !kind(offers[i]);
        assert kind(offers[..n][k]);
      }
    }
  }

  /**
   * For every printed list of codings, in any case, with any white space, parameters and weights,
   * readable or not: gzip is accepted exactly when the last offer of gzip (or x-gzip) allows it
   * or, gzip never being named, the last wildcard does.
   */
  lemma AcceptsPrintedList(offers: seq<Offer>, weights: Weights)
    requires offers != [] && forall k :: 0 <= k < |offers| ==> Fine(offers[k])
    ensures Accepts(Some(PrintHeader(offers)), weights) <==>
              if Named(offers, IsGzip) then LastAllows(offers, IsGzip, weights)
              else LastAllows(offers, IsStar, weights)
  {
    var texts := PrintOffers(offers);
    forall k | 0 <= k < |offers|
      ensures ',' !in texts[k] && (PartAccepted(texts[k], weights) <==> Allows(offers[k], weights))
      ensures KindOf(texts[k]) == (if IsGzip(offers[k]) then GzipCoding else if IsStar(offers[k]) then StarCoding else OtherCoding)
    {
      OfferPieces(offers[k]);
      OfferRead(offers[k], weights);
    }
    SplitJoin(texts, ',');
    LastRead(offers, texts, GzipCoding, IsGzip, weights);
    LastRead(offers, texts, StarCoding, IsStar, weights);
  }

  datatype Coding = Identity | Gzipped

  /** The body gzip makes strictly smaller and that is long enough to try. */
  predicate Worthwhile(body: Bytes, gz: Bytes -> Bytes) {
    |body| >= MIN_GZIP_BYTES && |gz(body)| < |body|
  }

  /** The coding a 200 carries. */
  function ServedCoding(body: Bytes, accepts: bool, gz: Bytes -> Bytes): Coding {
    if accepts && Worthwhile(body, gz) then Gzipped else Identity
  }

  method CompressIfBeneficial(body: Bytes, accept: Option<string>, weights: Weights, gz: Bytes -> Bytes)
    returns (payload: Bytes, coding: Coding)
    ensures coding == ServedCoding(body, Accepts(accept, weights), gz)
    ensures payload == if coding == Gzipped then gz(body) else body
    ensures |payload| <= |body|
  {
    var yes := AcceptsGzip(accept, weights);
    if !yes || |body| < MIN_GZIP_BYTES {
      return body, Identity;
    }
    var compressed := gz(body);
    if |compressed| >= |body| {
      return body, Identity;
    }
    return compressed, Gzipped;
  }
}
