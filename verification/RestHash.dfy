/**
 The bytes a REST request is hashed from (internal/protocol/rest_request.go):
 framed sections, and a decoder that recovers the request's identity from them.
 */
module RestHash {
  import opened Common

  type byte = x: int | 0 <= x < 256

  type Bytes = seq<byte>

  const MAX_LENGTH := 0x1_0000_0000_0000_0000

  datatype Section = Section(tag: byte, data: Bytes)

  const METHOD: byte := 'm' as int
  const PATH: byte := 'p' as int
  const QUERY: byte := 'q' as int
  const BODY: byte := 'b' as int
  const SELECTORS: byte := 's' as int

  datatype Params = Params(pathParams: seq<Bytes>, query: Option<Bytes>)

  // What the response depends on: a request without parameters is one without
  // captures and query, one without a body has an empty body, and one without
  // class constraints has an empty label key.
  datatype Identity = Identity(name: Bytes, pathParams: seq<Bytes>, query: Option<Bytes>, body: Bytes,
                               labelKey: Bytes) {
    // No section is as long as 2^64 bytes.
    predicate Fits() {
      && |name| < MAX_LENGTH
      && (forall i | 0 <= i < |pathParams| :: |pathParams[i]| < MAX_LENGTH)
      && (query.Some? ==> |query.value| < MAX_LENGTH)
      && |body| < MAX_LENGTH
      && |labelKey| < MAX_LENGTH
    }
  }

  // ---- numbers ----

  // The k low bytes of a number, the highest first.
  function BigEndian(n: nat, k: nat): (bytes: Bytes)
    ensures |bytes| == k
  {
    if k == 0 then [] else BigEndian(n / 256, k - 1) + [n % 256]
  }

  function Number(bytes: Bytes): nat {
    if bytes == [] then 0 else Number(bytes[..|bytes| - 1]) * 256 + bytes[|bytes| - 1]
  }

  function Power(k: nat): (p: nat)
    ensures p > 0
  {
    if k == 0 then 1 else 256 * Power(k - 1)
  }

  lemma {:induction false} NumberOfBigEndian(n: nat, k: nat)
    requires n < Power(k)
    ensures Number(BigEndian(n, k)) == n
  {
    if k > 0 {
      NumberOfBigEndian(n / 256, k - 1);
      assert BigEndian(n, k)[..k - 1] == BigEndian(n / 256, k - 1);
    }
  }

  lemma EightBytes()
    ensures Power(8) == MAX_LENGTH
  {
    assert Power(4) == 0x1_0000_0000;
    assert Power(8) == 256 * 256 * 256 * 256 * Power(4);
  }

  // ---- framing ----

  function Frame(s: Section): Bytes {
    [s.tag] + BigEndian(|s.data|, 8) + s.data
  }

  function Frames(sections: seq<Section>): Bytes {
    if sections == [] then [] else Frames(sections[..|sections| - 1]) + Frame(sections[|sections| - 1])
  }

  // Sections read back one after the other; nothing if the bytes are not framed.
  function Read(bytes: Bytes): Option<seq<Section>>
    decreases |bytes|
  {
    if bytes == [] then Some([])
    else if |bytes| < 9 || |bytes| < 9 + Number(bytes[1..9]) then None
    else
      var end := 9 + Number(bytes[1..9]);
      var rest := Read(bytes[end..]);
      if rest.None? then None else Some([Section(bytes[0], bytes[9..end])] + rest.value)
  }

  lemma ReadFrame(s: Section, rest: Bytes)
    requires |s.data| < MAX_LENGTH
    ensures var bytes := Frame(s) + rest;
            && |bytes| >= 9 + Number(bytes[1..9])
            && bytes[0] == s.tag
            && 9 + Number(bytes[1..9]) == |Frame(s)|
            && bytes[9..|Frame(s)|] == s.data
            && bytes[|Frame(s)|..] == rest
  {
    EightBytes();
    NumberOfBigEndian(|s.data|, 8);
    assert (Frame(s) + rest)[1..9] == BigEndian(|s.data|, 8);
  }

  ghost predicate Short(sections: seq<Section>) {
    forall i | 0 <= i < |sections| :: |sections[i].data| < MAX_LENGTH
  }

  lemma {:induction false} FramesCons(first: Section, sections: seq<Section>)
    ensures Frames([first] + sections) == Frame(first) + Frames(sections)
    decreases |sections|
  {
    var all := [first] + sections;
    if sections == [] {
      assert all == [first] && all[..0] == [];
      assert Frames([]) + Frame(first) == Frame(first);
      assert Frame(first) + Frames([]) == Frame(first);
    } else {
      var init, last := sections[..|sections| - 1], sections[|sections| - 1];
      assert all[..|all| - 1] == [first] + init;
      FramesCons(first, init);
      assert Frame(first) + Frames(init) + Frame(last) == Frame(first) + (Frames(init) + Frame(last));
    }
  }

  // Reading undoes framing.
  lemma {:induction false} ReadFrames(sections: seq<Section>)
    requires Short(sections)
    ensures Read(Frames(sections)) == Some(sections)
    decreases |sections|
  {
    if sections != [] {
      var first, rest := sections[0], sections[1..];
      assert sections == [first] + rest;
      FramesCons(first, rest);
      ReadFrames(rest);
      ReadFrame(first, Frames(rest));
    }
  }

  // ---- sections of a request ----

  function Paths(params: seq<Bytes>): seq<Section> {
    if params == [] then [] else Paths(params[..|params| - 1]) + [Section(PATH, params[|params| - 1])]
  }

  function Optional(tag: byte, data: Option<Bytes>): seq<Section> {
    if data.None? then [] else [Section(tag, data.value)]
  }

  function NonEmpty(data: Bytes): Option<Bytes> {
    if data == [] then None else Some(data)
  }

  function TailOf(query: Option<Bytes>, body: Bytes, labelKey: Bytes): seq<Section> {
    Optional(QUERY, query) + (Optional(BODY, NonEmpty(body)) + Optional(SELECTORS, NonEmpty(labelKey)))
  }

  function SectionsOf(id: Identity): seq<Section> {
    [Section(METHOD, id.name)] + (Paths(id.pathParams) + TailOf(id.query, id.body, id.labelKey))
  }

  lemma FramesAppend(sections: seq<Section>, s: Section)
    ensures Frames(sections + [s]) == Frames(sections) + Frame(s)
  {
    assert (sections + [s])[..|sections|] == sections;
  }

  method WriteSection(buf: Bytes, tag: byte, data: Bytes, ghost written: seq<Section>)
    returns (out: Bytes, ghost now: seq<Section>)
    requires buf == Frames(written)
    ensures now == written + [Section(tag, data)] && out == Frames(now)
  {
    now := written + [Section(tag, data)];
    FramesAppend(written, Section(tag, data));
    out := buf + ([tag] + BigEndian(|data|, 8) + data);
  }

  // Writes a section only if there is data for it.
  method WriteOptional(buf: Bytes, tag: byte, data: Option<Bytes>, ghost written: seq<Section>)
    returns (out: Bytes, ghost now: seq<Section>)
    requires buf == Frames(written)
    ensures now == written + Optional(tag, data) && out == Frames(now)
  {
    if data.Some? {
      out, now := WriteSection(buf, tag, data.value, written);
    } else {
      out, now := buf, written;
      assert written + [] == written;
    }
  }

  method WritePaths(buf: Bytes, captures: seq<Bytes>, ghost written: seq<Section>)
    returns (out: Bytes, ghost now: seq<Section>)
    requires buf == Frames(written)
    ensures now == written + Paths(captures) && out == Frames(now)
  {
    out, now := buf, written;
    assert written + Paths(captures[..0]) == written;
    for i := 0 to |captures|
      invariant now == written + Paths(captures[..i]) && out == Frames(now)
    {
      assert captures[..i + 1][..i] == captures[..i];
      out, now := WriteSection(out, PATH, captures[i], now);
    }
    assert captures[..|captures|] == captures;
  }

  // The buffer that is hashed.
  method HashInput(name: Bytes, params: Option<Params>, body: Bytes, labelKey: Bytes) returns (buf: Bytes)
    ensures buf == Frames(SectionsOf(IdentityOf(name, params, body, labelKey)))
  {
    ghost var id := IdentityOf(name, params, body, labelKey);
    ghost var m, p, q, b, s;
    buf, m := WriteSection([], METHOD, name, []);
    if params.Some? {
      buf, p := WritePaths(buf, params.value.pathParams, m);
      buf, q := WriteOptional(buf, QUERY, params.value.query, p);
    } else {
      p, q := m, m;
      assert m + [] == m;
    }
    buf, b := WriteOptional(buf, BODY, NonEmpty(body), q);
    buf, s := WriteOptional(buf, SELECTORS, NonEmpty(labelKey), b);
    Nested([Section(METHOD, name)], Paths(id.pathParams), Optional(QUERY, id.query),
           Optional(BODY, NonEmpty(body)), Optional(SELECTORS, NonEmpty(labelKey)));
  }

  lemma Nested(a: seq<Section>, b: seq<Section>, c: seq<Section>, d: seq<Section>, e: seq<Section>)
    ensures a + b + c + d + e == a + (b + (c + (d + e)))
  {
  }

  function IdentityOf(name: Bytes, params: Option<Params>, body: Bytes, labelKey: Bytes): Identity {
    if params.None? then Identity(name, [], None, body, labelKey)
    else Identity(name, params.value.pathParams, params.value.query, body, labelKey)
  }

  // ---- the sections give the request back ----

  function LeadingPaths(sections: seq<Section>): seq<Bytes> {
    if sections == [] || sections[0].tag != PATH then [] else [sections[0].data] + LeadingPaths(sections[1..])
  }

  function Leading(sections: seq<Section>, tag: byte): Option<Bytes> {
    if sections == [] || sections[0].tag != tag then None else Some(sections[0].data)
  }

  function After(sections: seq<Section>, tag: byte): seq<Section> {
    if sections == [] || sections[0].tag != tag then sections else sections[1..]
  }

  function OrEmpty(data: Option<Bytes>): Bytes {
    if data.None? then [] else data.value
  }

  function RecoverTail(tail: seq<Section>): (Option<Bytes>, Bytes, Bytes) {
    var rest := After(tail, QUERY);
    (Leading(tail, QUERY), OrEmpty(Leading(rest, BODY)), OrEmpty(Leading(After(rest, BODY), SELECTORS)))
  }

  // The request whose sections these are.
  function Recover(sections: seq<Section>): Identity
    requires sections != []
  {
    var paths := LeadingPaths(sections[1..]);
    var (query, body, labelKey) := RecoverTail(if 1 + |paths| <= |sections| then sections[1 + |paths|..] else []);
    Identity(sections[0].data, paths, query, body, labelKey)
  }

  lemma {:induction false} PathsAt(params: seq<Bytes>)
    ensures |Paths(params)| == |params|
    ensures forall i | 0 <= i < |params| :: Paths(params)[i] == Section(PATH, params[i])
    decreases |params|
  {
    if params != [] {
      PathsAt(params[..|params| - 1]);
    }
  }

  lemma {:induction false} LeadingPathsOf(params: seq<Bytes>, sections: seq<Section>, tail: seq<Section>)
    requires |sections| == |params| && forall i | 0 <= i < |params| :: sections[i] == Section(PATH, params[i])
    requires tail == [] || tail[0].tag != PATH
    ensures LeadingPaths(sections + tail) == params
    decreases |params|
  {
    if params == [] {
      assert sections + tail == tail;
    } else {
      assert (sections + tail)[0] == sections[0] && (sections + tail)[1..] == sections[1..] + tail;
      LeadingPathsOf(params[1..], sections[1..], tail);
    }
  }

  lemma OptionalRead(tag: byte, data: Option<Bytes>, tail: seq<Section>)
    requires tail == [] || tail[0].tag != tag
    ensures Leading(Optional(tag, data) + tail, tag) == data
    ensures After(Optional(tag, data) + tail, tag) == tail
  {
    if data.None? {
      assert Optional(tag, data) + tail == tail;
    } else {
      assert (Optional(tag, data) + tail)[1..] == tail;
    }
  }

  lemma RecoverTailOf(query: Option<Bytes>, body: Bytes, labelKey: Bytes)
    ensures RecoverTail(TailOf(query, body, labelKey)) == (query, body, labelKey)
  {
    var s := Optional(SELECTORS, NonEmpty(labelKey));
    OptionalRead(SELECTORS, NonEmpty(labelKey), []);
    assert s + [] == s;
    OptionalRead(BODY, NonEmpty(body), s);
    OptionalRead(QUERY, query, Optional(BODY, NonEmpty(body)) + s);
  }

  // Every request is recovered from its sections.
  lemma RecoverSections(id: Identity)
    ensures Recover(SectionsOf(id)) == id
  {
    var tail := TailOf(id.query, id.body, id.labelKey);
    var paths := Paths(id.pathParams);
    var all := SectionsOf(id);
    assert all[1..] == paths + tail;
    PathsAt(id.pathParams);
    LeadingPathsOf(id.pathParams, paths, tail);
    assert all[1 + |paths|..] == tail;
    RecoverTailOf(id.query, id.body, id.labelKey);
  }

  lemma ShortSections(id: Identity)
    requires id.Fits()
    ensures Short(SectionsOf(id))
  {
    PathsAt(id.pathParams);
  }

  // The hashed bytes determine the request.
  lemma HashInputIsInjective(a: Identity, b: Identity)
    requires a.Fits() && b.Fits()
    ensures Frames(SectionsOf(a)) == Frames(SectionsOf(b)) <==> a == b
  {
    ShortSections(a);
    ShortSections(b);
    ReadFrames(SectionsOf(a));
    ReadFrames(SectionsOf(b));
    RecoverSections(a);
    RecoverSections(b);
  }
}
