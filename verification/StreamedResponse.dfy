/**
 The streaming path end to end: the first-chunk analysis of the connector
 followed by the gRPC unwrap, on any response object, cut anywhere and read in
 any pieces, against the value the buffered parser takes from the same body
 (internal/protocol/parse_response.go).
 */
module StreamedResponse {
  import opened JsonGrammar
  import opened ResultCounter
  import opened JsonDecoder
  import opened ChunkAnalysis
  import opened Envelope
  import opened ResultStream

  // `AnalyzeFirstChunk`: a body shorter than the chunk is never streamed.
  method AnalyzeFirstChunk(fits: string -> bool, reader: Reader, chunkSize: nat) returns (a: Analysis)
    ensures a == if |reader.left| < chunkSize then NOT_FOUND else Analyze(fits, reader.left[..chunkSize])
  {
    if |reader.left| < chunkSize {
      return NOT_FOUND;
    }
    a := AnalyzeChunk(fits, reader.left[..chunkSize]);
  }

  // The text of the first "result" member, as `GetByPath("result").Raw()` returns it.
  ghost function BufferedResult(ms: Members): string {
    if ms.NoMembers? then "" else if Units(ms.key) == RESULT then Print(ms.value) else BufferedResult(ms.more)
  }

  ghost predicate OnlyResult(ms: Members, i: nat) {
    && i < Count(ms)
    && forall j | 0 <= j < Count(ms) :: KeyOf(ms, j) == RESULT <==> j == i
  }

  ghost predicate FirstResult(ms: Members, i: nat) {
    && i < Count(ms) && KeyOf(ms, i) == RESULT
    && forall j | 0 <= j < i :: KeyOf(ms, j) != RESULT
  }

  lemma {:induction false} BufferedIs(ms: Members, i: nat)
    requires FirstResult(ms, i)
    ensures BufferedResult(ms) == Print(ValueOf(ms, i))
    decreases ms
  {
    assert KeyOf(ms, 0) == Units(ms.key);
    if i > 0 {
      assert KeyOf(ms, 0) != RESULT;
      assert KeyOf(ms.more, i - 1) == KeyOf(ms, i);
      forall j | 0 <= j < i - 1 ensures KeyOf(ms.more, j) != RESULT {
        assert KeyOf(ms.more, j) == KeyOf(ms, j + 1);
      }
      BufferedIs(ms.more, i - 1);
    }
  }

  // The bytes from the located offset on, in the first k bytes of the response.
  lemma LocatedBytes(e: Response, k: nat, i: nat)
    requires e.Valid() && k <= |e.Text()| && i < Count(e.members)
    requires e.Base() + ValueStart(e.members, i) < k
    ensures var v, start := ValueOf(e.members, i), e.Base() + ValueStart(e.members, i);
            && Print(v) != ""
            && var c := Prime(Print(v)[0]);
               && (Over(UnwrapResult, c, e.Text()[..k][start..]) <==> EndInSight(v, k - start))
               && (EndInSight(v, k - start) ==> ResultBytes(e.Text()[..k], start, c) == Print(v))
               && (!EndInSight(v, k - start) ==> ResultBytes(e.Text()[..k], start, c) == e.Text()[start..k])
  {
    ValueText(e.pad, e.members, i, e.trail);
    var tail := MembersTail(Nth(e.members, i).after, Nth(e.members, i).more) + e.trail;
    TextAt(e, i);
    BytesAt(e.Text(), e.Base() + ValueStart(e.members, i), ValueOf(e.members, i), tail, k);
  }

  lemma BytesAt(s: string, start: nat, v: Value, tail: string, k: nat)
    requires Valid(v) && Follows(tail) && Suffix(s, start, Print(v) + tail) && start < k <= |s|
    ensures Print(v) != ""
    ensures var c := Prime(Print(v)[0]);
            && (Over(UnwrapResult, c, s[..k][start..]) <==> EndInSight(v, k - start))
            && ResultBytes(s[..k], start, c) == if EndInSight(v, k - start) then Print(v) else s[start..k]
  {
    CutSuffix(s, start, Print(v) + tail, k);
    CutBytes(v, tail, k - start);
  }

  lemma TextAt(e: Response, i: nat)
    requires e.Valid() && i < Count(e.members)
    ensures Suffix(e.Text(), e.Base() + ValueStart(e.members, i), FromValue(e.members, i, e.trail))
  {
    ValueText(e.pad, e.members, i, e.trail);
    var members := PrintMembers(e.pad, e.members) + e.trail;
    DropPast("{", members, ValueStart(e.members, i));
    DropPast(e.lead, "{" + members, 1 + ValueStart(e.members, i));
  }

  lemma CutSuffix(s: string, i: int, t: string, k: nat)
    requires Suffix(s, i, t) && i <= k <= |s|
    ensures s[..k][i..] == t[..k - i] == s[i..k]
  {}

  lemma CutBytes(v: Value, tail: string, room: nat)
    requires Valid(v) && Follows(tail) && 0 < room <= |Print(v) + tail|
    ensures Print(v) != ""
    ensures var c, s := Prime(Print(v)[0]), (Print(v) + tail)[..room];
            && (Over(UnwrapResult, c, s) <==> EndInSight(v, room))
            && Passed(UnwrapResult, c, s) == if EndInSight(v, room) then Print(v) else s
  {
    ScanCut(v, tail, room);
    if room >= |Print(v)| {
      CutFollows(tail, room - |Print(v)|);
      assert (Print(v) + tail)[..room] == Print(v) + tail[..room - |Print(v)|];
      ValueEnds(v, tail[..room - |Print(v)|]);
    }
  }

  datatype Served = NotStreamed | Sent | Failed

  // A response whose first `k` bytes reach the proxy, in whatever pieces.
  method ServeResponse(fits: string -> bool, ghost e: Response, reader: Reader, stream: Stream) returns (r: Served)
    requires e.Valid() && reader.left <= e.Text() && reader.end != NoError
    requires stream.items == [] && !stream.failed
    modifies reader, stream
    ensures r.NotStreamed? <==>
            |old(reader.left)| < MAX_CHUNK_SIZE || !Analyze(fits, e.Text()[..MAX_CHUNK_SIZE]).streamable
    ensures r.NotStreamed? ==> stream.items == [] && reader.left == old(reader.left)
    ensures !r.NotStreamed? ==>
              exists i :: Delivered(fits, e, |old(reader.left)|, i, stream, r)
  {
    var a := AnalyzeFirstChunk(fits, reader, MAX_CHUNK_SIZE);
    ghost var k := |reader.left|;
    if MAX_CHUNK_SIZE <= k {
      assert reader.left[..MAX_CHUNK_SIZE] == e.Text()[..MAX_CHUNK_SIZE];
    }
    if !a.streamable {
      return NotStreamed;
    }
    AnalysisMeans(fits, e, MAX_CHUNK_SIZE);
    ghost var i: nat :| Locates(fits, e, MAX_CHUNK_SIZE, a, i);
    r := ServeLocated(fits, e, i, a, reader, stream);
  }

  // The walk located the value of the i-th member.
  method ServeLocated(ghost fits: string -> bool, ghost e: Response, ghost i: nat, a: Analysis, reader: Reader,
                      stream: Stream)
    returns (r: Served)
    requires e.Valid() && reader.left <= e.Text() && MAX_CHUNK_SIZE <= |reader.left| && reader.end != NoError
    requires stream.items == [] && !stream.failed && Locates(fits, e, MAX_CHUNK_SIZE, a, i)
    modifies reader, stream
    ensures !r.NotStreamed? && Delivered(fits, e, |old(reader.left)|, i, stream, r)
  {
    ghost var body := reader.left;
    var ok := StreamNativeCallBody(reader, stream, UnwrapResult, a.resultStart, a.counter);
    ServedIs(fits, e, body, i, a, stream, reader.end, ok);
    return if ok then Sent else Failed;
  }

  lemma ServedIs(fits: string -> bool, e: Response, body: string, i: nat, a: Analysis, stream: Stream, end: ReadError,
                 ok: bool)
    requires e.Valid() && body <= e.Text() && MAX_CHUNK_SIZE <= |body| && Locates(fits, e, MAX_CHUNK_SIZE, a, i)
    requires ok <==> !stream.failed && Streams(body, end, a.resultStart, a.counter)
    requires ok ==> Complete(stream.items) && Payload(stream.items) == ResultBytes(body, a.resultStart, a.counter)
    requires !ok ==> NoFinal(stream.items) && Payload(stream.items) <= ResultBytes(body, a.resultStart, a.counter)
    ensures Delivered(fits, e, |body|, i, stream, if ok then Sent else Failed)
  {
    assert body == e.Text()[..|body|];
    LocatedBytes(e, |body|, i);
    BufferedAgrees(e.members, i);
  }

  lemma BufferedAgrees(ms: Members, i: nat)
    requires i < Count(ms)
    ensures forall f | FirstResult(ms, f) :: BufferedResult(ms) == Print(ValueOf(ms, f))
    ensures OnlyResult(ms, i) ==> BufferedResult(ms) == Print(ValueOf(ms, i))
  {
    forall f | FirstResult(ms, f) ensures BufferedResult(ms) == Print(ValueOf(ms, f)) {
      BufferedIs(ms, f);
    }
    if OnlyResult(ms, i) {
      assert FirstResult(ms, i);
    }
  }

  // The client's view when the located value is the i-th member's and the first
  // k bytes of the response arrived.
  ghost predicate Delivered(fits: string -> bool, e: Response, k: nat, i: nat, stream: Stream, r: Served)
    reads stream
  {
    && LastResult(fits, e.members, MAX_CHUNK_SIZE - e.Base(), i)
    && var v, start := ValueOf(e.members, i), e.Base() + ValueStart(e.members, i);
       && start < MAX_CHUNK_SIZE
       && (r.Sent? <==> EndInSight(v, k - start) && !stream.failed)
       && (r.Sent? ==> Complete(stream.items) && Payload(stream.items) == Print(v))
       && (r.Sent? ==> forall f | FirstResult(e.members, f) ::
             Payload(stream.items) == BufferedResult(e.members) <==> Print(ValueOf(e.members, f)) == Print(v))
       && (r.Sent? && OnlyResult(e.members, i) ==> Payload(stream.items) == BufferedResult(e.members))
       && (!r.Sent? ==>
             NoFinal(stream.items) && start <= k <= |e.Text()| && Payload(stream.items) <= e.Text()[start..k])
       && (!r.Sent? && EndInSight(v, k - start) ==> Payload(stream.items) <= Print(v))
  }

  // ---- responses that are served wrongly ----

  // A chunk's worth of blanks, so that the whole object is in the first chunk.
  function Blanks(): string {
    seq(MAX_CHUNK_SIZE, _ => ' ')
  }

  // {"result":null,"n":1e999,"error":{}}
  const HUGE := Atom(Number(false, "1", "", 'e', "", "999"))
  const ERROR_MEMBER := Member("", Letters("error"), "", "", Obj("", NoMembers), "", NoMembers)
  const NUMBER_MEMBER := Member("", Letters("n"), "", "", HUGE, "", ERROR_MEMBER)
  const HIDDEN := Response("", "", Member("", Letters("result"), "", "", Atom(Literal("null")), "", NUMBER_MEMBER),
      Blanks())

  lemma HiddenIs()
    ensures HIDDEN.Valid() && Count(HIDDEN.members) == 3 && |HIDDEN.Text()| >= MAX_CHUNK_SIZE
    ensures var ms := HIDDEN.members;
            && KeyOf(ms, 0) == RESULT && KeyOf(ms, 1) !in {RESULT, ERROR} && KeyOf(ms, 2) == ERROR != RESULT
            && ValueOf(ms, 0) == Atom(Literal("null")) && ValueOf(ms, 1) == HUGE
            && HIDDEN.Base() + ValueStart(ms, 0) < MAX_CHUNK_SIZE && HIDDEN.Base() + KeyEnd(ms, 2) <= MAX_CHUNK_SIZE
  {
    var ms := HIDDEN.members;
    LettersUnits("error");
    LettersUnits("n");
    LettersUnits("result");
    assert ValidMembers(ERROR_MEMBER) && ValidMembers(NUMBER_MEMBER);
    assert |RESULT| == 6 && |ERROR| == 5 && |Ascii("n")| == 1;
    assert HUGE.scalar.Text() == "1e999";
    assert Count(ERROR_MEMBER) == 1 && Count(NUMBER_MEMBER) == 2;
    assert Nth(ms, 1) == NUMBER_MEMBER && Nth(ms, 2) == Nth(NUMBER_MEMBER, 1) == ERROR_MEMBER;
    assert Offset(NUMBER_MEMBER, 1) == |Quote(Letters("n"))| + 1 + 5 + 1;
  }

  lemma HiddenDecodes(fits: string -> bool)
    requires !fits("1e999")
    ensures Decodes(fits, Atom(Literal("null"))) && !Decodes(fits, HUGE)
  {
    assert HUGE.scalar.Text() == "1e999";
  }

  // The first chunk holds a complete "error" key, and is streamed all the same.
  lemma HiddenError(fits: string -> bool)
    requires !fits("1e999")
    ensures HIDDEN.Valid() && Count(HIDDEN.members) == 3 && KeyOf(HIDDEN.members, 2) == ERROR
    ensures HIDDEN.Base() + KeyEnd(HIDDEN.members, 2) <= MAX_CHUNK_SIZE <= |HIDDEN.Text()|
    ensures Analyze(fits, HIDDEN.Text()[..MAX_CHUNK_SIZE]).streamable
  {
    HiddenIs();
    HiddenDecodes(fits);
    SecondHides(fits, HIDDEN, MAX_CHUNK_SIZE);
  }

  lemma SecondHides(fits: string -> bool, e: Response, n: nat)
    requires e.Valid() && n <= |e.Text()| && Count(e.members) == 3 && e.Base() + ValueStart(e.members, 0) < n
    requires KeyOf(e.members, 0) == RESULT != ERROR && KeyOf(e.members, 1) !in {RESULT, ERROR}
    requires Decodes(fits, ValueOf(e.members, 0)) && !Decodes(fits, ValueOf(e.members, 1))
    ensures Analyze(fits, e.Text()[..n]).streamable
  {
    HugeNumberHides(fits, e, n, 0, 1);
  }

  lemma HiddenResult(fits: string -> bool, room: int, i: nat)
    requires LastResult(fits, HIDDEN.members, room, i)
    ensures i == 0 && Print(ValueOf(HIDDEN.members, i)) == "null"
  {
    HiddenIs();
    OnlyFirst(fits, HIDDEN.members, room, i);
  }

  lemma OnlyFirst(fits: string -> bool, ms: Members, room: int, i: nat)
    requires LastResult(fits, ms, room, i) && Count(ms) == 3 && KeyOf(ms, 1) != RESULT && KeyOf(ms, 2) != RESULT
    ensures i == 0
  {
  }

  // The client gets `null` and a final item where the upstream reported an error.
  method ServeHiddenError(fits: string -> bool, cuts: seq<nat>) returns (r: Served, stream: Stream)
    requires !fits("1e999")
    ensures !stream.failed ==> r.Sent? && Complete(stream.items) && Payload(stream.items) == "null"
  {
    HiddenError(fits);
    stream := new Stream();
    var reader := new Reader(HIDDEN.Text(), cuts, Eof, false);
    r := ServeResponse(fits, HIDDEN, reader, stream);
    ghost var i: nat :| Delivered(fits, HIDDEN, |HIDDEN.Text()|, i, stream, r);
    HiddenResult(fits, MAX_CHUNK_SIZE - HIDDEN.Base(), i);
    HiddenIs();
  }

  // Of two "result" members the walk locates the second, and the buffered parser returns the first.
  lemma SecondResultIsLocated(fits: string -> bool, e: Response, n: nat)
    requires e.Valid() && n <= |e.Text()| && Count(e.members) == 2 && e.Base() + ValueStart(e.members, 1) < n
    requires KeyOf(e.members, 0) == RESULT && KeyOf(e.members, 1) == RESULT && Decodes(fits, ValueOf(e.members, 0))
    ensures Analyze(fits, e.Text()[..n]).streamable
    ensures Analyze(fits, e.Text()[..n]).resultStart == e.Base() + ValueStart(e.members, 1)
    ensures LastResult(fits, e.members, n - e.Base(), 1)
    ensures BufferedResult(e.members) == Print(ValueOf(e.members, 0))
  {
    TwoResults(fits, e.members, n - e.Base());
    AnalysisMeans(fits, e, n);
    assert AnyResult(fits, e.members, n - e.Base());
    LastIsLocated(fits, e, n, Analyze(fits, e.Text()[..n]), 1);
    BufferedIs(e.members, 0);
  }

  lemma TwoResults(fits: string -> bool, ms: Members, room: int)
    requires Count(ms) == 2 && ValueStart(ms, 1) < room
    requires KeyOf(ms, 0) == RESULT && KeyOf(ms, 1) == RESULT && Decodes(fits, ValueOf(ms, 0))
    ensures LastResult(fits, ms, room, 1) && !AnyBlocks(fits, ms, room)
  {
    assert ValueStart(ms, 0) <= Offset(ms, 1) <= KeyEnd(ms, 1);
    assert ReadsResult(fits, ms, room, 1);
    assert |RESULT| != |ERROR|;
  }

  // {"result":true,"result":null}
  const SECOND := Member("", Letters("result"), "", "", Atom(Literal("null")), "", NoMembers)
  const TWICE := Response("", "", Member("", Letters("result"), "", "", Atom(Literal("true")), "", SECOND), Blanks())

  lemma RepeatedResultDiffers(fits: string -> bool)
    ensures TWICE.Valid() && Count(TWICE.members) == 2 && MAX_CHUNK_SIZE <= |TWICE.Text()|
    ensures Analyze(fits, TWICE.Text()[..MAX_CHUNK_SIZE]).streamable
    ensures LastResult(fits, TWICE.members, MAX_CHUNK_SIZE - TWICE.Base(), 1)
    ensures BufferedResult(TWICE.members) == "true" && Print(ValueOf(TWICE.members, 1)) == "null"
  {
    LettersUnits("result");
    assert ValidMembers(SECOND);
    assert Count(SECOND) == 1 && Nth(TWICE.members, 1) == SECOND;
    SecondResultIsLocated(fits, TWICE, MAX_CHUNK_SIZE);
  }

  // The client gets `null` where the buffered parser returns `true`.
  method ServeRepeatedResult(fits: string -> bool, cuts: seq<nat>) returns (r: Served, stream: Stream)
    ensures !stream.failed ==> r.Sent? && Payload(stream.items) == "null" != BufferedResult(TWICE.members)
  {
    RepeatedResultDiffers(fits);
    stream := new Stream();
    var reader := new Reader(TWICE.Text(), cuts, Eof, false);
    r := ServeResponse(fits, TWICE, reader, stream);
    ghost var i :| Delivered(fits, TWICE, |TWICE.Text()|, i, stream, r);
    assert i == 1;
  }
}
