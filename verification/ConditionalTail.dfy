/** Validators and the 304 tail: judged before compression, yet agreeing with what would have been served. */
module ConditionalTail {
  import opened Prelude
  import opened Text
  import opened Gzip
  import opened EntityTags
  import Json

  // ---- what is hashed -----------------------------------------------------------------------

  /** The settings that change response bytes. */
  datatype Config = Config(inlineMax: int, inlineMessageMax: int, fingerprint: bool, wireView: int)

  /** ASCII text as bytes; the texts hashed here are all ASCII. */
  function AsciiBytes(s: string): Bytes {
    seq(|s|, k requires 0 <= k < |s| => s[k] as int % 128)
  }

  function VersionParts(c: Config): seq<string> {
    ["etag-v1", "skeleton-v3", Json.PrintInt(c.inlineMax), Json.PrintInt(c.inlineMessageMax),
     if c.fingerprint then "fingerprint=on" else "fingerprint=off", "wire=v" + Json.PrintInt(c.wireView)]
  }

  /** The parts joined by zero bytes. */
  function JoinZero(parts: seq<Bytes>): Bytes
    requires parts != []
  {
    if |parts| == 1 then parts[0] else parts[0] + [0] + JoinZero(parts[1..])
  }

  function PartBytes(parts: seq<string>): seq<Bytes> {
    seq(|parts|, k requires 0 <= k < |parts| => AsciiBytes(parts[k]))
  }

  function RepVersion(c: Config): Bytes {
    JoinZero(PartBytes(VersionParts(c)))
  }

  function CodingName(c: Coding): string {
    if c.Gzipped? then "gzip" else "identity"
  }

  function HashInput(rep: Bytes, coding: Coding, body: Bytes): Bytes {
    rep + [0] + AsciiBytes(CodingName(coding)) + [0] + body
  }

  // ---- the outside world ------------------------------------------------------------------------

  /** The digest (as hex text), the compressor and the number reader. */
  datatype World = World(hash: Bytes -> string, gz: Bytes -> Bytes, weights: Weights)

  /** Digests never collide, are not empty and hold no quote. */
  ghost predicate Collisionless(w: World) {
    && (forall a, b :: w.hash(a) == w.hash(b) ==> a == b)
    && (forall a :: w.hash(a) != "" && '"' !in w.hash(a))
  }

  function ComputeEtag(w: World, body: Bytes, coding: Coding, c: Config): string {
    Core(coding.Gzipped?, w.hash(HashInput(RepVersion(c), coding, body)))
  }

  // ---- judgment and tail ----------------------------------------------------------------------------

  datatype Verdict = Miss | Star | Hit(etag: string)

  ghost function Judge(w: World, body: Bytes, header: Option<string>, c: Config, accepts: bool): Verdict {
    if header.None? || Strip(header.value) == "" then Miss
    else if Strip(header.value) == "*" then Star
    else
      var tag := ComputeEtag(w, body, if accepts && |body| >= MIN_GZIP_BYTES then Gzipped else Identity, c);
      if Matches(header, tag) then Hit(tag) else Miss
  }

  method JudgeConditional(w: World, body: Bytes, header: Option<string>, c: Config, accept: Option<string>) returns (v: Verdict)
    ensures v == Judge(w, body, header, c, Accepts(accept, w.weights))
  {
    if header.None? || Strip(header.value) == "" {
      return Miss;
    }
    if Strip(header.value) == "*" {
      return Star;
    }
    var yes := AcceptsGzip(accept, w.weights);
    if !(yes && |body| >= MIN_GZIP_BYTES) {
      var tag := ComputeEtag(w, body, Identity, c);
      var hit := IfNoneMatchMatches(header, tag);
      return if hit then Hit(tag) else Miss;
    }
    var gzipTag := ComputeEtag(w, body, Gzipped, c);
    var hit := IfNoneMatchMatches(header, gzipTag);
    return if hit then Hit(gzipTag) else Miss;
  }

  /** One request for the resource, with the body it has at that time. `config` is absent when validators are off. */
  datatype Exchange = Exchange(
    body: Bytes, accept: Option<string>, header: Option<string>, config: Option<Config>, judgeEmpty: bool)

  /** `coding` and `encoded` are of use only when the answer is a 200. */
  datatype Answer = Answer(notModified: bool, encoded: Bytes, coding: Coding, etag: Option<string>)

  predicate Eligible(x: Exchange) {
    x.config.Some? && (x.judgeEmpty || x.body != [])
  }

  function Coded(w: World, x: Exchange): Coding {
    ServedCoding(x.body, Accepts(x.accept, w.weights), w.gz)
  }

  ghost function VerdictOf(w: World, x: Exchange): Verdict {
    if Eligible(x) then Judge(w, x.body, x.header, x.config.value, Accepts(x.accept, w.weights)) else Miss
  }

  /** The validator of the 200 this request would get. */
  function ServedEtag(w: World, x: Exchange): Option<string> {
    if Eligible(x) then Some(ComputeEtag(w, x.body, Coded(w, x), x.config.value)) else None
  }

  ghost function Tail(w: World, x: Exchange): Answer {
    match VerdictOf(w, x)
    case Star => Answer(true, [], Identity, ServedEtag(w, x))
    case Hit(tag) => Answer(true, [], Identity, Some(tag))
    case Miss => Answer(false, if Coded(w, x).Gzipped? then w.gz(x.body) else x.body, Coded(w, x), ServedEtag(w, x))
  }

  method EncodeConditionalTail(w: World, x: Exchange) returns (a: Answer)
    ensures a == Tail(w, x)
  {
    var eligible := x.config.Some? && (x.judgeEmpty || x.body != []);
    if eligible {
      var verdict := JudgeConditional(w, x.body, x.header, x.config.value, x.accept);
      if verdict.Star? {
        var _, coding := CompressIfBeneficial(x.body, x.accept, w.weights, w.gz);
        return Answer(true, [], Identity, Some(ComputeEtag(w, x.body, coding, x.config.value)));
      }
      if verdict.Hit? {
        return Answer(true, [], Identity, Some(verdict.etag));
      }
    }
    var encoded, coding := CompressIfBeneficial(x.body, x.accept, w.weights, w.gz);
    var etag := if eligible then Some(ComputeEtag(w, x.body, coding, x.config.value)) else None;
    return Answer(false, encoded, coding, etag);
  }

  /** Undoing a content coding. */
  function Undone(coding: Coding, encoded: Bytes, unz: Bytes -> Bytes): Bytes {
    if coding == Gzipped then unz(encoded) else encoded
  }

  /**
   * Every 200, for every decompressor that undoes the compressor: undoing the announced coding
   * gives the body back; gzip is announced exactly when it is accepted, tried and shorter; nothing
   * sent is longer than the body; and the validator, if there is to be one, is that of the
   * announced coding.
   */
  lemma ServesTheBody(w: World, x: Exchange, unz: Bytes -> Bytes)
    requires !Tail(w, x).notModified && forall b :: unz(w.gz(b)) == b
    ensures var a := Tail(w, x);
            && Undone(a.coding, a.encoded, unz) == x.body && |a.encoded| <= |x.body|
            && (a.coding == Gzipped <==> Accepts(x.accept, w.weights) && |x.body| >= 64 && |w.gz(x.body)| < |x.body|)
            && a.etag == if x.config.Some? && (x.judgeEmpty || x.body != [])
                         then Some(ComputeEtag(w, x.body, a.coding, x.config.value)) else None
  {
  }

  /** A 304 sends no body, only for a request that may be judged, and always with a validator. */
  lemma NotModifiedIsBare(w: World, x: Exchange)
    requires Tail(w, x).notModified
    ensures Tail(w, x).encoded == [] && Tail(w, x).etag.Some? && x.config.Some? && (x.judgeEmpty || x.body != [])
    ensures x.header.Some? && Strip(x.header.value) != ""
  {
  }

  // ---- the hash input determines what was hashed ----------------------------------------------------

  ghost predicate ZeroFree(b: Bytes) {
    forall k :: 0 <= k < |b| ==> b[k] != 0
  }

  /** Zero-terminated parts in front of a body. */
  ghost function Packed(parts: seq<Bytes>, body: Bytes): Bytes {
    if parts == [] then body else parts[0] + [0] + Packed(parts[1..], body)
  }

  lemma {:induction false} PackedUnique(a: seq<Bytes>, x: Bytes, b: seq<Bytes>, y: Bytes)
    requires |a| == |b| && Packed(a, x) == Packed(b, y)
    requires forall k :: 0 <= k < |a| ==> ZeroFree(a[k]) && ZeroFree(b[k])
    ensures a == b && x == y
  {
    if a != [] {
      FirstPart(a[0], Packed(a[1..], x), b[0], Packed(b[1..], y));
      PackedUnique(a[1..], x, b[1..], y);
      assert a == [a[0]] + a[1..] && b == [b[0]] + b[1..];
    }
  }

  lemma FirstPart(p: Bytes, s: Bytes, q: Bytes, t: Bytes)
    requires ZeroFree(p) && ZeroFree(q) && p + [0] + s == q + [0] + t
    ensures p == q && s == t
  {
    var u := p + [0] + s;
    assert u[|p|] == 0 && u[|q|] == 0;
    assert |p| == |q|;
    assert p == u[..|p|] && q == u[..|q|];
    assert s == u[|p| + 1..] && t == u[|q| + 1..];
  }

  lemma {:induction false} JoinIsPacked(parts: seq<Bytes>, rest: Bytes)
    requires parts != []
    ensures JoinZero(parts) + [0] + rest == Packed(parts, rest)
  {
    if |parts| == 1 {
      assert parts[1..] == [];
    } else {
      JoinIsPacked(parts[1..], rest);
      var more := JoinZero(parts[1..]);
      assert parts[0] + [0] + more + [0] + rest == parts[0] + [0] + (more + [0] + rest);
    }
  }

  lemma {:induction false} PackedConcat(parts: seq<Bytes>, last: Bytes, body: Bytes)
    ensures Packed(parts + [last], body) == Packed(parts, last + [0] + body)
  {
    if parts == [] {
      assert parts + [last] == [last] && [last][1..] == [];
    } else {
      assert (parts + [last])[1..] == parts[1..] + [last];
      PackedConcat(parts[1..], last, body);
    }
  }

  ghost function AllParts(c: Config, coding: Coding): seq<string> {
    VersionParts(c) + [CodingName(coding)]
  }

  lemma HashInputIsPacked(c: Config, coding: Coding, body: Bytes)
    ensures HashInput(RepVersion(c), coding, body) == Packed(PartBytes(AllParts(c, coding)), body)
  {
    var parts, last := PartBytes(VersionParts(c)), AsciiBytes(CodingName(coding));
    JoinIsPacked(parts, last + [0] + body);
    PackedConcat(parts, last, body);
    assert PartBytes(AllParts(c, coding)) == parts + [last];
    assert RepVersion(c) + [0] + last + [0] + body == RepVersion(c) + [0] + (last + [0] + body);
  }

  /** Printable ASCII. */
  ghost predicate Visible(s: string) {
    forall k :: 0 <= k < |s| ==> 0x20 <= s[k] as int < 0x7F
  }

  lemma VisibleBytes(s: string, t: string)
    requires Visible(s) && Visible(t)
    ensures ZeroFree(AsciiBytes(s))
    ensures AsciiBytes(s) == AsciiBytes(t) ==> s == t
  {
    if AsciiBytes(s) == AsciiBytes(t) {
      forall k | 0 <= k < |s| ensures s[k] == t[k] {
        assert AsciiBytes(s)[k] == AsciiBytes(t)[k];
      }
    }
  }

  lemma PrintIntVisible(n: int)
    ensures Visible(Json.PrintInt(n))
  {
  }

  lemma PartsVisible(c: Config, coding: Coding)
    ensures forall k :: 0 <= k < |AllParts(c, coding)| ==> Visible(AllParts(c, coding)[k])
  {
    PrintIntVisible(c.inlineMax);
    PrintIntVisible(c.inlineMessageMax);
    PrintIntVisible(c.wireView);
  }

  lemma PrintIntInjective(m: int, n: int)
    requires Json.PrintInt(m) == Json.PrintInt(n)
    ensures m == n
  {
    var a: nat, b: nat := if m < 0 then -m else m, if n < 0 then -n else n;
    ValueOfNumeral(a);
    ValueOfNumeral(b);
    assert IsDigit(Numeral(a)[0]) && IsDigit(Numeral(b)[0]);
    if m < 0 && n < 0 {
      assert ("-" + Numeral(a))[1..] == Numeral(a) && ("-" + Numeral(b))[1..] == Numeral(b);
    }
  }

  lemma PartBytesInjective(a: seq<string>, b: seq<string>)
    requires PartBytes(a) == PartBytes(b)
    requires |a| == |b| && forall k :: 0 <= k < |a| ==> Visible(a[k]) && Visible(b[k])
    ensures a == b
  {
    forall k | 0 <= k < |a| ensures a[k] == b[k] {
      assert PartBytes(a)[k] == PartBytes(b)[k];
      VisibleBytes(a[k], b[k]);
    }
  }

  lemma AllPartsInjective(c: Config, coding: Coding, d: Config, coding': Coding)
    requires AllParts(c, coding) == AllParts(d, coding')
    ensures c == d && coding == coding'
  {
    var a, b := AllParts(c, coding), AllParts(d, coding');
    assert a[2] == Json.PrintInt(c.inlineMax) && b[2] == Json.PrintInt(d.inlineMax);
    assert a[3] == Json.PrintInt(c.inlineMessageMax) && b[3] == Json.PrintInt(d.inlineMessageMax);
    assert a[4] == (if c.fingerprint then "fingerprint=on" else "fingerprint=off");
    assert b[4] == (if d.fingerprint then "fingerprint=on" else "fingerprint=off");
    assert a[5][6..] == Json.PrintInt(c.wireView) && b[5][6..] == Json.PrintInt(d.wireView);
    assert a[6] == CodingName(coding) && b[6] == CodingName(coding');
    PrintIntInjective(c.inlineMax, d.inlineMax);
    PrintIntInjective(c.inlineMessageMax, d.inlineMessageMax);
    PrintIntInjective(c.wireView, d.wireView);
    assert |"fingerprint=on"| != |"fingerprint=off"| && |"gzip"| != |"identity"|;
  }

  /** Settings, coding and body can all be told from the bytes that are hashed. */
  lemma HashInputInjective(c: Config, coding: Coding, body: Bytes, d: Config, coding': Coding, body': Bytes)
    requires HashInput(RepVersion(c), coding, body) == HashInput(RepVersion(d), coding', body')
    ensures c == d && coding == coding' && body == body'
  {
    var a, b := AllParts(c, coding), AllParts(d, coding');
    HashInputIsPacked(c, coding, body);
    HashInputIsPacked(d, coding', body');
    PartsVisible(c, coding);
    PartsVisible(d, coding');
    forall k | 0 <= k < |a| ensures ZeroFree(PartBytes(a)[k]) && ZeroFree(PartBytes(b)[k]) {
      VisibleBytes(a[k], a[k]);
      VisibleBytes(b[k], b[k]);
    }
    PackedUnique(PartBytes(a), body, PartBytes(b), body');
    PartBytesInjective(a, b);
    AllPartsInjective(c, coding, d, coding');
  }

  /** The opaque value of a validator determines what it validates. */
  lemma EtagDetermines(w: World, c: Config, coding: Coding, body: Bytes, d: Config, coding': Coding, body': Bytes)
    requires Collisionless(w)
    requires OpaqueTag(ComputeEtag(w, body, coding, c)) == OpaqueTag(ComputeEtag(w, body', coding', d))
    ensures c == d && coding == coding' && body == body'
  {
    var x, y := HashInput(RepVersion(c), coding, body), HashInput(RepVersion(d), coding', body');
    OpaqueOfCore(coding.Gzipped?, w.hash(x));
    OpaqueOfCore(coding'.Gzipped?, w.hash(y));
    HashInputInjective(c, coding, body, d, coding', body');
  }

  // ---- histories ----------------------------------------------------------------------------------------

  /** The opaque values of the validators sent in the first `n` answers. */
  ghost predicate SentBefore(w: World, history: seq<Exchange>, n: nat, value: string)
    requires n <= |history|
  {
    exists j :: 0 <= j < n && Tail(w, history[j]).etag.Some? && OpaqueTag(Tail(w, history[j]).etag.value) == Some(value)
  }

  /** The request is unconditional, a star, or names only validators already sent (malformed elements apart). */
  ghost predicate LawfulHeader(w: World, history: seq<Exchange>, n: nat)
    requires n < |history|
  {
    var header := history[n].header;
    header.None? || Strip(header.value) == "*" ||
    forall value :: Lists(Pieces(header.value, false), Some(value)) ==> SentBefore(w, history, n, value)
  }

  ghost predicate Lawful(w: World, history: seq<Exchange>) {
    forall n :: 0 <= n < |history| ==> LawfulHeader(w, history, n)
  }

  /** A gzip-capable request for a body that gzip would not shrink. */
  predicate FallsBack(w: World, x: Exchange) {
    Accepts(x.accept, w.weights) && |x.body| >= MIN_GZIP_BYTES && !Worthwhile(x.body, w.gz)
  }

  predicate IsStar(x: Exchange) {
    x.header.Some? && Strip(x.header.value) == "*"
  }

  /** For any request at all, a 304 tells the truth unless a gzip validator was named for a body that falls back. */
  lemma HonestIff(w: World, x: Exchange)
    requires Collisionless(w) && Tail(w, x).notModified
    ensures Tail(w, x).etag == ServedEtag(w, x) <==> IsStar(x) || !FallsBack(w, x)
  {
    if !IsStar(x) && FallsBack(w, x) {
      EtagsDiffer(w, x.body, x.config.value);
    }
  }

  /** A header that is just one validator matches that validator. */
  lemma AloneMatches(weak: bool, value: string)
    requires value != "" && '"' !in value
    ensures Matches(Some(Core(weak, value)), Core(weak, value)) && Strip(Core(weak, value)) != "*"
  {
    var e := Tag("", weak, value, "");
    assert PrintList([e]) == Core(weak, value);
    assert [e][0].value == value;
    MatchesPrintedList([e], weak, value);
    OpaqueOfCore(weak, value);
    assert Core(weak, value)[|Core(weak, value)| - 1] == '"';
  }

  /**
   * The forger: for every body that falls back, naming the gzip validator that was never sent
   * for it earns a 304 that carries this validator, though the 200 would carry the other one.
   */
  lemma ForgedTagIsEchoed(w: World, x: Exchange)
    requires Collisionless(w) && Eligible(x) && FallsBack(w, x)
    requires x.header == Some(ComputeEtag(w, x.body, Gzipped, x.config.value))
    ensures Tail(w, x).notModified && Tail(w, x).etag == x.header && Tail(w, x).etag != ServedEtag(w, x)
  {
    AloneMatches(true, w.hash(HashInput(RepVersion(x.config.value), Gzipped, x.body)));
    OpaqueOfCore(true, w.hash(HashInput(RepVersion(x.config.value), Gzipped, x.body)));
    HonestIff(w, x);
  }

  /** Such requests exist: 64 bytes, a compressor that gains nothing, and a plain `gzip` header. */
  lemma FallBackExists(w: World, c: Config) returns (dull: World, x: Exchange)
    ensures dull == w.(gz := dull.gz) && Eligible(x) && FallsBack(dull, x)
    ensures x.header == Some(ComputeEtag(dull, x.body, Gzipped, c)) && x.config == Some(c)
  {
    dull := w.(gz := (b: Bytes) => b);
    var body: Bytes := seq(64, _ => 7);
    x := Exchange(body, Some("gzip"), Some(ComputeEtag(dull, body, Gzipped, c)), Some(c), true);
    GzipAccepted(w.weights);
  }

  lemma GzipAccepted(weights: Weights)
    ensures Accepts(Some("gzip"), weights)
  {
    SplitPrefix("gzip", ',', "");
    SplitPrefix("gzip", ';', "");
    assert "gzip" + "" == "gzip";
    assert Split("", ',') == [""] && Split("", ';') == [""];
    var parts := Split("gzip", ',');
    assert parts == ["gzip"] && Split("gzip", ';') == ["gzip"];
    StripTrimmed("gzip");
    assert Lower("gzip") == "gzip";
    assert KindOf("gzip") == GzipCoding;
    assert PartAccepted("gzip", weights);
  }

  lemma EtagsDiffer(w: World, body: Bytes, c: Config)
    ensures ComputeEtag(w, body, Gzipped, c) != ComputeEtag(w, body, Identity, c)
  {
    assert ComputeEtag(w, body, Gzipped, c)[0] == 'W';
    assert ComputeEtag(w, body, Identity, c)[0] == '"';
  }

  /** A validator truly computed for some body: as gzip only if gzip shrinks that body. */
  ghost predicate Genuine(w: World, etag: string) {
    exists c, coding, body :: etag == ComputeEtag(w, body, coding, c) && (coding.Gzipped? ==> Worthwhile(body, w.gz))
  }

  lemma ServedIsGenuine(w: World, x: Exchange)
    requires Eligible(x)
    ensures Genuine(w, ServedEtag(w, x).value)
  {
    assert ServedEtag(w, x).value == ComputeEtag(w, x.body, Coded(w, x), x.config.value);
  }

  /** In a lawful history every 304 carries exactly the validator of the 200 it stands for. */
  lemma {:induction false} NotModifiedIsHonest(w: World, history: seq<Exchange>, n: nat)
    requires Collisionless(w) && Lawful(w, history) && n < |history|
    ensures Tail(w, history[n]).etag == ServedEtag(w, history[n])
    decreases n
  {
    var x := history[n];
    if VerdictOf(w, x).Hit? && FallsBack(w, x) {
      var tag := VerdictOf(w, x).etag;
      var c := x.config.value;
      assert tag == ComputeEtag(w, x.body, Gzipped, c);
      var named := OpaqueTag(tag);
      assert LawfulHeader(w, history, n) && Lists(Pieces(x.header.value, false), named);
      assert SentBefore(w, history, n, named.value);
      var j :| 0 <= j < n && Tail(w, history[j]).etag.Some? && OpaqueTag(Tail(w, history[j]).etag.value) == named;
      NotModifiedIsHonest(w, history, j);
      ServedIsGenuine(w, history[j]);
      var d, coding, body :|
        ServedEtag(w, history[j]).value == ComputeEtag(w, body, coding, d) && (coding.Gzipped? ==> Worthwhile(body, w.gz));
      EtagDetermines(w, c, Gzipped, x.body, d, coding, body);
      assert false;
    }
  }

  /**
   * When a 304 is sent, for every request: on a star, or when the header names the validator of
   * the 200 it stands for, save that an identity validator earns a full 200 on the fall-back.
   */
  lemma NotModifiedIff(w: World, history: seq<Exchange>, n: nat)
    requires Collisionless(w) && Lawful(w, history) && n < |history|
    ensures var x := history[n];
            Tail(w, x).notModified <==>
              Eligible(x) && (IsStar(x) || (!FallsBack(w, x) && Matches(x.header, ServedEtag(w, x).value)))
  {
    var x := history[n];
    NotModifiedIsHonest(w, history, n);
    if VerdictOf(w, x).Hit? && FallsBack(w, x) {
      EtagsDiffer(w, x.body, x.config.value);
    }
  }
}
