/** The opaque page cursor: keyset anchor and filter fingerprint as base64url of compact JSON. */
module Cursor {
  import opened Prelude
  import opened Json
  import opened JsonRoundTrip
  import Base64Url
  import Utf8

  datatype Fingerprint = Fingerprint(archived: Codes, parent: Codes, searchHash: Codes, allowlistRev: Codes)

  datatype Payload = Payload(t: int, i: Codes, f: Fingerprint)

  datatype Reason = CharsetFault | DecodeFault | JsonFault | ShapeFault | TypeFault | EmptyAnchor

  datatype Decoded = Absent | Valid(payload: Payload) | Invalid(reason: Reason)

  function FingerprintDocument(f: Fingerprint): Json {
    Obj([
      Member(CodesOf("archived"), Str(f.archived)),
      Member(CodesOf("parent"), Str(f.parent)),
      Member(CodesOf("search_hash"), Str(f.searchHash)),
      Member(CodesOf("allowlist_rev"), Str(f.allowlistRev))])
  }

  function Document(p: Payload): Json {
    Obj([Member(CodesOf("t"), Int(p.t)), Member(CodesOf("i"), Str(p.i)), Member(CodesOf("f"), FingerprintDocument(p.f))])
  }

  function EncodeCursor(p: Payload): string {
    Base64Url.Encode(Utf8.Encode(Print(Document(p))))
  }

  function FieldNames(): set<Codes> {
    {CodesOf("archived"), CodesOf("parent"), CodesOf("search_hash"), CodesOf("allowlist_rev")}
  }

  function CursorNames(): set<Codes> {
    {CodesOf("t"), CodesOf("i"), CodesOf("f")}
  }

  /** The structural checks on a parsed document, in the order they are made. */
  function Interpret(doc: Json): Decoded {
    if !doc.Obj? || Keys(doc.members) != CursorNames() then Invalid(ShapeFault)
    else
      var f, t, i :=
        Lookup(doc.members, CodesOf("f")), Lookup(doc.members, CodesOf("t")), Lookup(doc.members, CodesOf("i"));
      if !f.Obj? || Keys(f.members) != FieldNames() then Invalid(ShapeFault)
      else
        var archived, parent := Lookup(f.members, CodesOf("archived")), Lookup(f.members, CodesOf("parent"));
        var search, rev := Lookup(f.members, CodesOf("search_hash")), Lookup(f.members, CodesOf("allowlist_rev"));
        if !t.Int? then Invalid(TypeFault)
        else if !i.Str? || !archived.Str? || !parent.Str? || !search.Str? || !rev.Str? then Invalid(TypeFault)
        else if i.s == [] then Invalid(EmptyAnchor)
        else Valid(Payload(t.n, i.s, Fingerprint(archived.s, parent.s, search.s, rev.s)))
  }

  function DecodeCursor(raw: Option<string>): Decoded {
    if raw.None? || raw.value == "" then Absent
    else if !Base64Url.Charset(raw.value) then Invalid(CharsetFault)
    else
      match Base64Url.Decode(raw.value)
      case None => Invalid(DecodeFault)
      case Some(blob) =>
        match Utf8.Decode(blob)
        case None => Invalid(JsonFault)
        case Some(text) =>
          match Parse(text)
          case None => Invalid(JsonFault)
          case Some(doc) => Interpret(doc)
  }

  // ---- the round trip -----------------------------------------------------------------------------

  function MergeFields(f: Fingerprint): Fingerprint {
    Fingerprint(Merge(f.archived), Merge(f.parent), Merge(f.searchHash), Merge(f.allowlistRev))
  }

  lemma NameKept(s: string)
    ensures Merge(CodesOf(s)) == CodesOf(s)
  {
    MergeFixed(CodesOf(s));
  }

  lemma NormText(key: Codes, s: Codes)
    ensures Plain(Str(s)) && NormMember(Member(key, Str(s))) == Member(Merge(key), Str(Merge(s)))
  {
  }

  lemma NormThree(a: Member, b: Member, c: Member)
    ensures Norm(Obj([a, b, c])) == Obj([NormMember(a), NormMember(b), NormMember(c)])
    ensures Plain(Obj([a, b, c])) <==> Plain(a.value) && Plain(b.value) && Plain(c.value)
  {
    var m := [a, b, c];
    assert m[0] == a && m[1] == b && m[2] == c;
    assert Norm(Obj(m)).members == [NormMember(a), NormMember(b), NormMember(c)];
  }

  lemma NormFour(a: Member, b: Member, c: Member, d: Member)
    ensures Norm(Obj([a, b, c, d])) == Obj([NormMember(a), NormMember(b), NormMember(c), NormMember(d)])
    ensures Plain(Obj([a, b, c, d])) <==> Plain(a.value) && Plain(b.value) && Plain(c.value) && Plain(d.value)
  {
    var m := [a, b, c, d];
    assert m[0] == a && m[1] == b && m[2] == c && m[3] == d;
    assert Norm(Obj(m)).members == [NormMember(a), NormMember(b), NormMember(c), NormMember(d)];
  }

  lemma NormDocument(p: Payload)
    ensures Plain(Document(p)) && Norm(Document(p)) == Document(Payload(p.t, Merge(p.i), MergeFields(p.f)))
  {
    NameKept("t");
    NameKept("i");
    NameKept("f");
    NameKept("archived");
    NameKept("parent");
    NameKept("search_hash");
    NameKept("allowlist_rev");
    var n := FingerprintDocument(p.f).members;
    NormText(n[0].key, p.f.archived);
    NormText(n[1].key, p.f.parent);
    NormText(n[2].key, p.f.searchHash);
    NormText(n[3].key, p.f.allowlistRev);
    NormFour(n[0], n[1], n[2], n[3]);
    var m := Document(p).members;
    NormText(m[1].key, p.i);
    NormThree(m[0], m[1], m[2]);
  }

  lemma InterpretDocument(p: Payload)
    ensures Interpret(Document(p)) == if p.i == [] then Invalid(EmptyAnchor) else Valid(p)
  {
    KeysDiffer("t", "i", 0);
    KeysDiffer("t", "f", 0);
    KeysDiffer("i", "f", 0);
    var m := Document(p).members;
    ThreeKeys(m[0], m[1], m[2]);
    KeysDiffer("archived", "parent", 0);
    KeysDiffer("archived", "search_hash", 0);
    KeysDiffer("archived", "allowlist_rev", 0);
    KeysDiffer("parent", "search_hash", 0);
    KeysDiffer("parent", "allowlist_rev", 0);
    KeysDiffer("search_hash", "allowlist_rev", 0);
    var n := FingerprintDocument(p.f).members;
    FourKeys(n[0], n[1], n[2], n[3]);
  }

  /** What any encoded cursor decodes to. */
  lemma DecodeEncoded(p: Payload)
    ensures DecodeCursor(Some(EncodeCursor(p)))
         == if p.i == [] then Invalid(EmptyAnchor) else Valid(Payload(p.t, Merge(p.i), MergeFields(p.f)))
  {
    var text := Print(Document(p));
    NormDocument(p);
    PrintHead(Document(p));
    Utf8.DecodeEncode(text);
    assert Utf8.Encode(text) != [];
    Base64Url.RoundTrip(Utf8.Encode(text));
    ParsePrint(Document(p));
    InterpretDocument(Payload(p.t, Merge(p.i), MergeFields(p.f)));
    MergeShrinks(p.i);
  }

  /** No string of the payload holds a high surrogate directly before a low one. */
  ghost predicate NoSurrogatePairs(p: Payload) {
    && Unpaired(p.i)
    && Unpaired(p.f.archived) && Unpaired(p.f.parent) && Unpaired(p.f.searchHash) && Unpaired(p.f.allowlistRev)
  }

  /** The cursor gives back its payload exactly when the id is not empty and no string holds a surrogate pair. */
  lemma CursorRoundTripIff(p: Payload)
    ensures DecodeCursor(Some(EncodeCursor(p))) == Valid(p) <==> p.i != [] && NoSurrogatePairs(p)
  {
    DecodeEncoded(p);
    MergeFixed(p.i);
    MergeFixed(p.f.archived);
    MergeFixed(p.f.parent);
    MergeFixed(p.f.searchHash);
    MergeFixed(p.f.allowlistRev);
  }

  /** A non-empty id that does not come back: two surrogates return as one code point. */
  lemma SurrogatePairIsLost()
    ensures var p := Payload(0, [0xD800, 0xDC00], Fingerprint([], [], [], []));
            && p.i != []
            && DecodeCursor(Some(EncodeCursor(p))) == Valid(p.(i := [0x10000]))
  {
    var p := Payload(0, [0xD800, 0xDC00], Fingerprint([], [], [], []));
    DecodeEncoded(p);
    assert [0xD800, 0xDC00][2..] == [];
    assert Merge([0xD800, 0xDC00]) == [0x10000];
  }

  // ---- accepted cursors are stable ------------------------------------------------------------------

  lemma {:induction false} ReadStringUnpaired(s: string)
    requires ReadString(s).Some?
    ensures Unpaired(ReadString(s).value.0)
    ensures var codes, g := ReadString(s).value.0, ReadGlyph(s);
            codes != [] && Low(codes[0]) ==> g.One? && g.escaped && g.code == codes[0]
    decreases |s|
  {
    var g := ReadGlyph(s);
    if g.One? {
      var next := ReadGlyph(g.rest);
      if g.escaped && High(g.code) && next.One? && next.escaped && Low(next.code) {
        ReadStringUnpaired(next.rest);
        Prepend(Combine(g.code, next.code), ReadString(next.rest).value.0);
      } else {
        ReadStringUnpaired(g.rest);
        Prepend(g.code, ReadString(g.rest).value.0);
      }
    }
  }

  lemma Prepend(c: Code, codes: Codes)
    requires Unpaired(codes) && (codes != [] ==> !(High(c) && Low(codes[0])))
    ensures Unpaired([c] + codes)
  {
    var s := [c] + codes;
    forall k | 0 <= k < |s| - 1 ensures !(High(s[k]) && Low(s[k + 1])) {
      if k > 0 { assert s[k] == codes[k - 1] && s[k + 1] == codes[k]; }
    }
  }

  /** Every string value inside is free of surrogate pairs. */
  ghost predicate Tidy(j: Json) {
    match j
    case Str(s) => Unpaired(s)
    case Arr(items) => forall k :: 0 <= k < |items| ==> Tidy(items[k])
    case Obj(members) => forall k :: 0 <= k < |members| ==> Tidy(members[k].value)
    case _ => true
  }

  lemma {:induction false} ReadTidy(s: string)
    requires Read(s).Some?
    ensures Tidy(Read(s).value.0)
    decreases |s|, 1
  {
    if s[0] == '"' {
      ReadStringUnpaired(s[1..]);
    } else if s[0] == '[' {
      var t := SkipSpace(s[1..]);
      if !(t != "" && t[0] == ']') { ReadItemsTidy(t); }
    } else if s[0] == '{' {
      var t := SkipSpace(s[1..]);
      if !(t != "" && t[0] == '}') { ReadMembersTidy(t); }
    }
  }

  lemma {:induction false} ReadItemsTidy(s: string)
    requires ReadItems(s).Some?
    ensures Tidy(Arr(ReadItems(s).value.0))
    decreases |s|, 2
  {
    ReadTidy(s);
    var t := SkipSpace(Read(s).value.1);
    if t[0] == ',' {
      ReadItemsTidy(SkipSpace(t[1..]));
    }
  }

  lemma {:induction false} ReadMembersTidy(s: string)
    requires ReadMembers(s).Some?
    ensures Tidy(Obj(ReadMembers(s).value.0))
    decreases |s|, 2
  {
    var t := SkipSpace(ReadString(s[1..]).value.1);
    var v := SkipSpace(t[1..]);
    ReadTidy(v);
    var u := SkipSpace(Read(v).value.1);
    if u[0] == ',' {
      ReadMembersTidy(SkipSpace(u[1..]));
    }
  }

  lemma {:induction false} LookupTidy(members: seq<Member>, key: Codes)
    requires Tidy(Obj(members)) && key in Keys(members)
    ensures Tidy(Lookup(members, key))
  {
    var n := |members| - 1;
    if members[n].key != key {
      assert Keys(members[..n]) == Keys(members) - {members[n].key} || members[n].key in Keys(members[..n]);
      LookupTidy(members[..n], key);
    }
  }

  /** Whatever cursor is accepted, wire spelling aside, re-encoding its payload is accepted as the same payload. */
  lemma AcceptedIsStable(raw: string)
    requires DecodeCursor(Some(raw)).Valid?
    ensures var p := DecodeCursor(Some(raw)).payload; DecodeCursor(Some(EncodeCursor(p))) == Valid(p)
  {
    var p := DecodeCursor(Some(raw)).payload;
    var text := Utf8.Decode(Base64Url.Decode(raw).value).value;
    ReadTidy(SkipSpace(text));
    var doc := Parse(text).value;
    LookupTidy(doc.members, CodesOf("i"));
    LookupTidy(doc.members, CodesOf("f"));
    var f := Lookup(doc.members, CodesOf("f"));
    LookupTidy(f.members, CodesOf("archived"));
    LookupTidy(f.members, CodesOf("parent"));
    LookupTidy(f.members, CodesOf("search_hash"));
    LookupTidy(f.members, CodesOf("allowlist_rev"));
    CursorRoundTripIff(p);
  }
}
