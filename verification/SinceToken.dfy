/** Since tokens: issue, check, and what a valid one proves. */
module SinceToken {
  import opened Prelude
  import opened Json
  import opened JsonRoundTrip
  import opened SinceModel
  import opened OrderedDict
  import SinceRuns
  import Base64Url
  import Utf8

  const TOKEN_VERSION := 1
  const TOKEN_MAX_BYTES := 512

  /** The JSON library: how a value becomes bytes and how bytes are read. */
  datatype Codec = Codec(dumps: Json -> seq<Base64Url.Byte>, loads: seq<Base64Url.Byte> -> Option<Json>)

  function TokenDocument(epoch: string, sid: string, cqHash: string, generation: int): Json {
    Obj([
      Member(CodesOf("v"), Int(TOKEN_VERSION)),
      Member(CodesOf("epoch"), Str(CodesOf(epoch))),
      Member(CodesOf("sid"), Str(CodesOf(sid))),
      Member(CodesOf("cq_hash"), Str(CodesOf(cqHash))),
      Member(CodesOf("gen"), Int(generation))])
  }

  /** What the library writes as an integer. */
  predicate Writable(generation: int) {
    -0x8000_0000_0000_0000 <= generation < 0x1_0000_0000_0000_0000
  }

  /** Token documents survive the library. */
  ghost predicate Faithful(codec: Codec) {
    forall epoch, sid, cqHash, generation {:trigger TokenDocument(epoch, sid, cqHash, generation)} :: Writable(generation) ==>
      var doc := TokenDocument(epoch, sid, cqHash, generation);
      codec.loads(codec.dumps(doc)) == Some(doc) && codec.dumps(doc) != []
  }

  /** Such libraries exist: the writer and reader modelled for the cursor are one. */
  lemma FaithfulCodec() returns (codec: Codec)
    ensures Faithful(codec)
  {
    codec := Codec(
      (j: Json) => Utf8.Encode(Print(j)),
      (b: seq<Base64Url.Byte>) => match Utf8.Decode(b) { case None => None case Some(text) => Parse(text) });
    forall epoch: string, sid: string, cqHash: string, generation: int
      ensures var doc := TokenDocument(epoch, sid, cqHash, generation);
              codec.loads(codec.dumps(doc)) == Some(doc) && codec.dumps(doc) != []
    {
      var doc := TokenDocument(epoch, sid, cqHash, generation);
      TokenIsPlain(epoch, sid, cqHash, generation);
      Utf8.DecodeEncode(Print(doc));
      ParsePrint(doc);
      PrintHead(doc);
    }
  }

  lemma TextIsPlain(name: string, s: string)
    ensures Fixed(Member(CodesOf(name), Str(CodesOf(s))))
  {
    MergeFixed(CodesOf(name));
    MergeFixed(CodesOf(s));
  }

  lemma NumberIsPlain(name: string, n: int)
    ensures Fixed(Member(CodesOf(name), Int(n)))
  {
    MergeFixed(CodesOf(name));
  }

  lemma TokenIsPlain(epoch: string, sid: string, cqHash: string, generation: int)
    ensures var doc := TokenDocument(epoch, sid, cqHash, generation); Plain(doc) && Norm(doc) == doc
  {
    NumberIsPlain("v", TOKEN_VERSION);
    TextIsPlain("epoch", epoch);
    TextIsPlain("sid", sid);
    TextIsPlain("cq_hash", cqHash);
    NumberIsPlain("gen", generation);
    var m := TokenDocument(epoch, sid, cqHash, generation).members;
    FiveFixed(m[0], m[1], m[2], m[3], m[4]);
  }

  ghost predicate Fixed(m: Member) {
    Plain(m.value) && NormMember(m) == m
  }

  lemma FiveFixed(a: Member, b: Member, c: Member, d: Member, e: Member)
    requires Fixed(a) && Fixed(b) && Fixed(c) && Fixed(d) && Fixed(e)
    ensures var doc := Obj([a, b, c, d, e]); Plain(doc) && Norm(doc) == doc
  {
    var m := [a, b, c, d, e];
    assert m[0] == a && m[1] == b && m[2] == c && m[3] == d && m[4] == e;
    assert forall k :: 0 <= k < |m| ==> Fixed(m[k]);
    assert Norm(Obj(m)).members == m;
  }

  function IssueToken(codec: Codec, epoch: string, sid: string, cqHash: string, generation: int): string {
    Base64Url.Encode(codec.dumps(TokenDocument(epoch, sid, cqHash, generation)))
  }

  datatype Check = Invalid | Reset(generation: int) | Good(generation: int)

  function Get(members: seq<Member>, name: string): Option<Json> {
    if CodesOf(name) in Keys(members) then Some(Lookup(members, CodesOf(name))) else None
  }

  predicate IsText(j: Option<Json>) { j.Some? && j.value.Str? }
  predicate IsNumber(j: Option<Json>) { j.Some? && j.value.Int? }

  /** The checks on a decoded payload, in the order they are made. */
  function Classify(c: Cache, payload: Json, sid: string, cqHash: string): Check {
    if !payload.Obj? then Invalid
    else
      var v, epoch, gen := Get(payload.members, "v"), Get(payload.members, "epoch"), Get(payload.members, "gen");
      var tokenSid, tokenHash := Get(payload.members, "sid"), Get(payload.members, "cq_hash");
      if !IsNumber(v) || v.value.n != TOKEN_VERSION then Invalid
      else if !(IsText(epoch) && IsText(tokenSid) && IsText(tokenHash) && IsNumber(gen)) then Invalid
      else if tokenSid.value.s != CodesOf(sid) then Invalid
      else if tokenHash.value.s != CodesOf(cqHash) || epoch.value.s != CodesOf(c.limits.epoch) then Reset(gen.value.n)
      else
        var current := Find(c.slots, Key(sid, cqHash));
        if current.None? || current.value.generation != gen.value.n then Reset(gen.value.n) else Good(gen.value.n)
  }

  function CheckToken(codec: Codec, c: Cache, token: string, sid: string, cqHash: string): Check {
    if |Utf8.Encode(token)| > TOKEN_MAX_BYTES || !Base64Url.Charset(token) then Invalid
    else
      match Base64Url.Decode(token)
      case None => Invalid
      case Some(raw) =>
        match codec.loads(raw)
        case None => Invalid
        case Some(payload) => Classify(c, payload, sid, cqHash)
  }

  // ---- issued tokens ------------------------------------------------------------------------

  lemma CodesInjective(a: string, b: string)
    requires CodesOf(a) == CodesOf(b)
    ensures a == b
  {
    forall k | 0 <= k < |a| ensures a[k] == b[k] {
      assert CodesOf(a)[k] == CodesOf(b)[k];
    }
  }

  lemma {:induction false} AsciiLength(s: string)
    requires Base64Url.AllInAlphabet(s)
    ensures |Utf8.Encode(s)| == |s|
  {
    if s != "" {
      assert Base64Url.InAlphabet(s[0]);
      AsciiLength(s[1..]);
    }
  }

  lemma FiveKeys(a: Member, b: Member, c: Member, d: Member, e: Member)
    requires a.key != b.key && a.key != c.key && b.key != c.key
    requires d.key != a.key && d.key != b.key && d.key != c.key
    requires e.key != a.key && e.key != b.key && e.key != c.key && e.key != d.key
    ensures var m := [a, b, c, d, e];
            && Keys(m) == {a.key, b.key, c.key, d.key, e.key}
            && Lookup(m, a.key) == a.value && Lookup(m, b.key) == b.value && Lookup(m, c.key) == c.value
            && Lookup(m, d.key) == d.value && Lookup(m, e.key) == e.value
  {
    var m := [a, b, c, d, e];
    assert m[0] == a && m[1] == b && m[2] == c && m[3] == d && m[4] == e;
    assert Keys(m) == {a.key, b.key, c.key, d.key, e.key};
    assert m[..4] == [a, b, c, d];
    FourKeys(a, b, c, d);
  }

  lemma DocumentFields(epoch: string, sid: string, cqHash: string, generation: int)
    ensures var m := TokenDocument(epoch, sid, cqHash, generation).members;
            && Get(m, "v") == Some(Int(TOKEN_VERSION)) && Get(m, "epoch") == Some(Str(CodesOf(epoch)))
            && Get(m, "sid") == Some(Str(CodesOf(sid))) && Get(m, "cq_hash") == Some(Str(CodesOf(cqHash)))
            && Get(m, "gen") == Some(Int(generation))
  {
    KeysDiffer("v", "epoch", 0);
    KeysDiffer("v", "sid", 0);
    KeysDiffer("v", "cq_hash", 0);
    KeysDiffer("v", "gen", 0);
    KeysDiffer("epoch", "sid", 0);
    KeysDiffer("epoch", "cq_hash", 0);
    KeysDiffer("epoch", "gen", 0);
    KeysDiffer("sid", "cq_hash", 0);
    KeysDiffer("sid", "gen", 0);
    KeysDiffer("cq_hash", "gen", 0);
    var m := TokenDocument(epoch, sid, cqHash, generation).members;
    FiveKeys(m[0], m[1], m[2], m[3], m[4]);
  }

  /** What the check says of an issued token, whoever asks: a token over the length cap is refused by its own issuer. */
  lemma IssuedToken(codec: Codec, c: Cache, epoch: string, sid: string, cqHash: string, generation: int, asked: Key)
    requires Faithful(codec) && Writable(generation)
    ensures var token := IssueToken(codec, epoch, sid, cqHash, generation);
            CheckToken(codec, c, token, asked.sid, asked.cqHash) ==
              if |token| > TOKEN_MAX_BYTES || sid != asked.sid then Invalid
              else if cqHash == asked.cqHash && epoch == c.limits.epoch && Find(c.slots, asked).Some?
                      && Find(c.slots, asked).value.generation == generation
              then Good(generation)
              else Reset(generation)
  {
    var doc := TokenDocument(epoch, sid, cqHash, generation);
    var token := IssueToken(codec, epoch, sid, cqHash, generation);
    assert codec.loads(codec.dumps(doc)) == Some(doc) && codec.dumps(doc) != [];
    Base64Url.RoundTrip(codec.dumps(doc));
    AsciiLength(token);
    IssuedClass(c, epoch, sid, cqHash, generation, asked);
  }

  lemma IssuedClass(c: Cache, epoch: string, sid: string, cqHash: string, generation: int, asked: Key)
    ensures Classify(c, TokenDocument(epoch, sid, cqHash, generation), asked.sid, asked.cqHash) ==
              if sid != asked.sid then Invalid
              else if cqHash == asked.cqHash && epoch == c.limits.epoch && Find(c.slots, asked).Some?
                      && Find(c.slots, asked).value.generation == generation
              then Good(generation)
              else Reset(generation)
  {
    DocumentFields(epoch, sid, cqHash, generation);
    if CodesOf(sid) == CodesOf(asked.sid) { CodesInjective(sid, asked.sid); }
    if CodesOf(cqHash) == CodesOf(asked.cqHash) { CodesInjective(cqHash, asked.cqHash); }
    if CodesOf(epoch) == CodesOf(c.limits.epoch) { CodesInjective(epoch, c.limits.epoch); }
    assert asked == Key(asked.sid, asked.cqHash);
  }

  /** The payload is an object of version 1 that names the session, with an epoch, a query hash and a generation. */
  ghost predicate WellFormed(payload: Json, sid: string) {
    && payload.Obj?
    && Get(payload.members, "v") == Some(Int(1)) && Get(payload.members, "sid") == Some(Str(CodesOf(sid)))
    && IsText(Get(payload.members, "epoch")) && IsText(Get(payload.members, "cq_hash")) && IsNumber(Get(payload.members, "gen"))
  }

  /** What a text decodes to, if it is short enough, in the alphabet and JSON. */
  ghost predicate Carries(codec: Codec, token: string, payload: Json) {
    && |Utf8.Encode(token)| <= 512 && Base64Url.Charset(token)
    && Base64Url.Decode(token).Some? && codec.loads(Base64Url.Decode(token).value) == Some(payload)
  }

  /**
   * Whatever text is presented: it is refused if and only if it does not carry a well-formed payload
   * for the session; otherwise it is valid if and only if epoch, query hash and generation are the
   * current ones, and the generation reported is always the payload's own.
   */
  lemma AnyTokenJudged(codec: Codec, c: Cache, token: string, payload: Json, sid: string, cqHash: string)
    ensures var check := CheckToken(codec, c, token, sid, cqHash);
            if Carries(codec, token, payload) && WellFormed(payload, sid) then
              var m, current := payload.members, Find(c.slots, Key(sid, cqHash));
              var gen := Get(m, "gen").value.n;
              check == if Get(m, "cq_hash") == Some(Str(CodesOf(cqHash))) && Get(m, "epoch") == Some(Str(CodesOf(c.limits.epoch)))
                          && current.Some? && current.value.generation == gen
                       then Good(gen) else Reset(gen)
            else Carries(codec, token, payload) ==> check == Invalid
    ensures CheckToken(codec, c, token, sid, cqHash) != Invalid ==> exists p :: Carries(codec, token, p) && WellFormed(p, sid)
  {
    if CheckToken(codec, c, token, sid, cqHash) != Invalid {
      var p := codec.loads(Base64Url.Decode(token).value).value;
      assert Carries(codec, token, p) && WellFormed(p, sid);
    }
  }

  lemma GoodIsCurrent(codec: Codec, c: Cache, token: string, sid: string, cqHash: string)
    requires CheckToken(codec, c, token, sid, cqHash).Good?
    ensures var current := Find(c.slots, Key(sid, cqHash));
            current.Some? && CheckToken(codec, c, token, sid, cqHash) == Good(current.value.generation)
  {
  }

  /** After any history, the current entry for a key is the only publication with its generation. */
  lemma CurrentIsOnlyPublication(w: SinceRuns.World, events: seq<SinceRuns.Event>, i: nat, key: Key)
    requires SinceRuns.Start(w) && i < |SinceRuns.After(w, events).caches|
    requires Find(SinceRuns.After(w, events).caches[i].slots, key).Some?
    ensures var v := SinceRuns.After(w, events);
            var current := Find(v.caches[i].slots, key).value;
            && 1 <= current.generation <= |v.published|
            && forall k :: 0 <= k < |v.published| ==>
                 (v.published[k].entry.generation == current.generation <==> v.published[k] == SinceRuns.Record(i, key, current))
  {
    SinceRuns.RunKeeps(w, events);
    var v := SinceRuns.After(w, events);
    assert SinceRuns.CacheNamed(v, i);
    assert SinceRuns.Named(v, i, key, Find(v.caches[i].slots, key).value);
  }

  /**
   * After any history of the process, whatever text is presented: judged valid, it names the one
   * entry ever published with that generation, which is this cache's current entry for that key.
   */
  lemma ValidTokenNamesOneEntry(
    codec: Codec, w: SinceRuns.World, events: seq<SinceRuns.Event>, i: nat, token: string, sid: string, cqHash: string)
    requires SinceRuns.Start(w) && i < |SinceRuns.After(w, events).caches|
    requires CheckToken(codec, SinceRuns.After(w, events).caches[i], token, sid, cqHash).Good?
    ensures var v := SinceRuns.After(w, events);
            var g := CheckToken(codec, v.caches[i], token, sid, cqHash).generation;
            var current := Find(v.caches[i].slots, Key(sid, cqHash));
            && current.Some? && 1 <= g <= |v.published|
            && forall k :: 0 <= k < |v.published| ==>
                 (v.published[k].entry.generation == g
                  <==> v.published[k] == SinceRuns.Record(i, Key(sid, cqHash), current.value))
  {
    GoodIsCurrent(codec, SinceRuns.After(w, events).caches[i], token, sid, cqHash);
    CurrentIsOnlyPublication(w, events, i, Key(sid, cqHash));
  }
}
