/**
 What a chunk must look like for `AnalyzeChunk` to stream it, over every chunk:
 up to where the result is said to start it is the start of a response object.
 */
module EnvelopeSoundness {
  import Common
  import opened JsonGrammar
  import opened ResultCounter
  import opened JsonDecoder
  import opened DecoderSoundness
  import opened ChunkAnalysis
  import opened Envelope

  // `base` starts with members, up to the value of the i-th; that one is named
  // "result", none up to it is named "error", and it is the one reported.
  ghost predicate Sighted(size: int, base: string, ms: Members, i: nat, r: Analysis) {
    && ValidMembers(ms) && i < Count(ms)
    && KeyOf(ms, i) == RESULT && (forall j | 0 <= j <= i :: KeyOf(ms, j) != ERROR)
    && Starts(base, PrintMembers("", ms), ValueStart(ms, i))
    && r == Analysis(true, size - |base| + ValueStart(ms, i), Prime(base[ValueStart(ms, i)]))
  }

  // The texts agree in the first k bytes, and `base` goes on.
  predicate Starts(base: string, text: string, k: nat) {
    k < |base| && k <= |text| && base[..k] == text[..k]
  }

  lemma StartsBehind(p: string, base: string, text: string, k: nat)
    requires Starts(base, text, k)
    ensures Starts(p + base, p + text, |p| + k) && (p + base)[|p| + k] == base[k]
  {
    assert (p + base)[..|p| + k] == p + base[..k];
    assert (p + text)[..|p| + k] == p + text[..k];
  }

  // A member up to its value, and up to the next member.
  function Upto(m: Members): string
    requires m.Member?
  {
    m.before + (Quote(m.key) + (m.gap + (":" + m.lead)))
  }

  lemma UptoText(m: Members, x: string)
    requires m.Member?
    ensures Upto(m) + x == m.before + (Quote(m.key) + (m.gap + (":" + (m.lead + x))))
    ensures |Upto(m)| == ValueStart(m, 0)
  {
    Common.Assoc(":", m.lead, x);
    Common.Assoc(m.gap, ":" + m.lead, x);
    Common.Assoc(Quote(m.key), m.gap + (":" + m.lead), x);
    Common.Assoc(m.before, Quote(m.key) + (m.gap + (":" + m.lead)), x);
  }

  function Past(m: Members): string
    requires m.Member?
  {
    Upto(m) + (Print(m.value) + (m.after + ","))
  }

  lemma PastText(m: Members, x: string)
    requires m.Member?
    ensures Past(m) + x == Upto(m) + (Print(m.value) + (m.after + ("," + x)))
  {
    Common.Assoc(m.after, ",", x);
    Common.Assoc(Print(m.value), m.after + ",", x);
    Common.Assoc(Upto(m), Print(m.value) + (m.after + ","), x);
  }

  lemma MembersBehind(m: Members)
    requires m.Member? && m.more.Member?
    ensures PrintMembers("", m) == Past(m) + PrintMembers("", m.more)
  {
    PastText(m, PrintMembers("", m.more));
    UptoText(m, Print(m.value) + MembersTail(m.after, m.more));
  }

  // ---- one member ----

  // The member's own value is the one reported; it may be any.
  lemma HereSighted(size: int, m: Members, input: string)
    requires m.Member? && m.more.NoMembers? && ValidMembers(m) && Units(m.key) == RESULT && input != ""
    ensures Sighted(size, Upto(m) + input, m, 0, Analysis(true, size - |input|, Prime(input[0])))
  {
    UptoText(m, input);
    UptoText(m, Print(m.value) + MembersTail(m.after, m.more));
    StartsBehind(Upto(m), input, Print(m.value) + MembersTail(m.after, m.more), 0);
    assert RESULT[0] != ERROR[0];
  }

  // One of the members behind it is.
  lemma LaterSighted(size: int, m: Members, base: string, i: nat, r: Analysis) returns (k: nat)
    requires m.Member? && ValidMembers(m) && Units(m.key) != ERROR && Sighted(size, base, m.more, i, r)
    ensures Sighted(size, Past(m) + base, m, k, r)
  {
    k := IndexBehind(m, i);
    MembersBehind(m);
    SightedBehind(size, Past(m), base, PrintMembers("", m.more), ValueStart(m.more, i), m, k, r);
  }

  lemma SightedBehind(size: int, p: string, base: string, text: string, at: nat, ms: Members, i: nat, r: Analysis)
    requires Starts(base, text, at) && r == Analysis(true, size - |base| + at, Prime(base[at]))
    requires ValidMembers(ms) && i < Count(ms) && KeyOf(ms, i) == RESULT
    requires forall j | 0 <= j <= i :: KeyOf(ms, j) != ERROR
    requires PrintMembers("", ms) == p + text && ValueStart(ms, i) == |p| + at
    ensures Sighted(size, p + base, ms, i, r)
  {
    StartsBehind(p, base, text, at);
  }

  lemma IndexBehind(m: Members, i: nat) returns (k: nat)
    requires m.Member? && i < Count(m.more) && Units(m.key) != ERROR
    requires forall j | 0 <= j <= i :: KeyOf(m.more, j) != ERROR
    ensures k < Count(m) && KeyOf(m, k) == KeyOf(m.more, i) && forall j | 0 <= j <= k :: KeyOf(m, j) != ERROR
    ensures ValueStart(m, k) == |Past(m)| + ValueStart(m.more, i)
  {
    k := i + 1;
    forall j | 0 <= j <= k ensures KeyOf(m, j) != ERROR {
      assert j > 0 ==> KeyOf(m, j) == KeyOf(m.more, j - 1);
    }
    UptoText(m, "");
  }

  lemma InputFound(s: string) returns (gap: string, lead: string)
    requires ValueInput(s) != ""
    ensures Blank(gap) && Blank(lead) && s == gap + (":" + (lead + ValueInput(s)))
  {
    gap := SpaceFound(s);
    var p := SkipSpace(s);
    lead := SpaceFound(p[1..]);
    assert p == ":" + p[1..];
  }

  lemma LaterReported(size: int, m: Members, next: string, rest: string, i: nat, r: Analysis) returns (k: nat)
    requires m.Member? && ValidMembers(m) && Units(m.key) != ERROR && Sighted(size, rest, m.more, i, r)
    requires next == m.after + ("," + rest)
    ensures Sighted(size, Upto(m) + (Print(m.value) + next), m, k, r)
  {
    k := LaterSighted(size, m, rest, i, r);
    PastText(m, rest);
  }

  // ---- the walk ----

  // The decoder stands behind the key of the first member, or behind a whole member.
  ghost predicate AtColon(base: string, before: string, key: seq<Piece>, d: Decoder) {
    d.state.ObjectColon? && Blank(before) && ValidPieces(key) && base == before + (Quote(key) + d.rest)
  }

  ghost predicate AtComma(base: string, after: string, d: Decoder) {
    Blank(after) && d.rest == after + ("," + base)
  }

  // The report is the one found before.
  predicate Keeps(found: Analysis, r: Analysis) {
    found.resultStart >= 0 && r == found.(streamable := true)
  }

  lemma {:induction false} WalkFound(fits: string -> bool, size: nat, d: Decoder, found: Analysis)
    returns (after: string, base: string, ms: Members, i: nat)
    requires (d.state.ObjectStart? || d.state.ObjectComma?) && Walk(fits, size, d, found).streamable
    ensures var r := Walk(fits, size, d, found); Keeps(found, r) || Sighted(size, base, ms, i, r)
    ensures d.state.ObjectStart? ==> base == d.rest
    ensures d.state.ObjectComma? && !Keeps(found, Walk(fits, size, d, found)) ==> AtComma(base, after, d)
    decreases |d.rest|, 3
  {
    after, base, ms, i := "", d.rest, NoMembers, 0;
    if More(d) && Token(fits, d).Tok? {
      var e := d;
      if d.state.ObjectComma? {
        after, e := MarkFound(fits, d);
        base := e.rest;
      }
      var before, key := KeyFound(fits, e);
      ms, i := KeyWalk(fits, size, base, before, key, Token(fits, e).next, found);
    }
  }

  lemma {:induction false} KeyWalk(fits: string -> bool, size: nat, base: string, before: string, key: seq<Piece>,
                                   d: Decoder, found: Analysis)
    returns (ms: Members, i: nat)
    requires AtColon(base, before, key, d)
    requires WalkKey(fits, size, Units(key), d, found).streamable
    ensures var r := WalkKey(fits, size, Units(key), d, found); Keeps(found, r) || Sighted(size, base, ms, i, r)
    decreases |d.rest|, 2
  {
    if Units(key) != RESULT {
      ms, i := PastWalk(fits, size, base, before, key, d, found, WalkPast(fits, size, d, found));
    } else {
      var input := ValueInput(d.rest);
      var located := Analysis(false, size - |input|, Prime(input[0]));
      i := 0;
      ms := ResultHere(size, base, before, key, d);
      if !Scan(located.counter, input).Running? {
        var later, k := PastWalk(fits, size, base, before, key, d, located, WalkPast(fits, size, d, located));
        if Sighted(size, base, later, k, WalkPast(fits, size, d, located)) {
          ms, i := later, k;
        }
      }
    }
  }

  // The member under the decoder, with any value, is one that locates the result.
  lemma ResultHere(size: nat, base: string, before: string, key: seq<Piece>, d: Decoder) returns (ms: Members)
    requires AtColon(base, before, key, d) && Units(key) == RESULT && ValueInput(d.rest) != ""
    ensures var input := ValueInput(d.rest);
            Sighted(size, base, ms, 0, Analysis(true, size - |input|, Prime(input[0])))
  {
    var gap, lead := InputFound(d.rest);
    ms := Member(before, key, gap, lead, Atom(Literal("null")), "", NoMembers);
    UptoText(ms, ValueInput(d.rest));
    HereSighted(size, ms, ValueInput(d.rest));
  }

  lemma {:induction false} PastWalk(fits: string -> bool, size: nat, base: string, before: string, key: seq<Piece>,
                                    d: Decoder, found: Analysis, r: Analysis)
    returns (ms: Members, i: nat)
    requires AtColon(base, before, key, d)
    requires Units(key) != ERROR && r == WalkPast(fits, size, d, found) && r.streamable
    ensures Keeps(found, r) || Sighted(size, base, ms, i, r)
    decreases |d.rest|, 1
  {
    ms, i := NoMembers, 0;
    var skipped, next, m := MemberRead(fits, size, base, before, key, d, found);
    if skipped {
      var after, rest, more, k := WalkFound(fits, size, next, found);
      ms, i := Joined(size, base, m, next, after, rest, more, k, found, r);
    }
  }

  // A whole member in front of what was found behind it.
  lemma Joined(size: int, base: string, m: Members, next: Decoder, after: string, rest: string, more: Members, i: nat,
               found: Analysis, r: Analysis)
    returns (ms: Members, k: nat)
    requires m.Member? && ValidMembers(m) && Units(m.key) != ERROR && base == Upto(m) + (Print(m.value) + next.rest)
    requires Keeps(found, r) || (AtComma(rest, after, next) && Sighted(size, rest, more, i, r))
    ensures Keeps(found, r) || Sighted(size, base, ms, k, r)
  {
    ms, k := m.(after := after, more := more), 0;
    if !Keeps(found, r) {
      k := LaterReported(size, ms, next.rest, rest, i, r);
    }
  }

  // The rest of the member, if it is whole.
  lemma MemberRead(fits: string -> bool, size: nat, base: string, before: string, key: seq<Piece>, d: Decoder,
                   found: Analysis)
    returns (skipped: bool, next: Decoder, m: Members)
    requires AtColon(base, before, key, d)
    ensures m.Member? && ValidMembers(m) && m.key == key
    ensures !skipped ==> WalkPast(fits, size, d, found) == Finish(found)
    ensures skipped ==>
              && WalkPast(fits, size, d, found) == Walk(fits, size, next, found)
              && next.state.ObjectComma? && |next.rest| < |d.rest|
              && base == Upto(m) + (Print(m.value) + next.rest)
  {
    skipped, next := SkipNext(fits, d).Skipped?, d;
    m := Member(before, key, "", "", Atom(Literal("null")), "", NoMembers);
    if skipped {
      next := SkipNext(fits, d).next;
      var gap, lead, v := ColonFound(fits, d);
      m := Member(before, key, gap, lead, v, "", NoMembers);
      UptoText(m, Print(v) + next.rest);
    }
  }

  // ---- every chunk ----

  // If the chunk is streamed, then up to where its result is said to start it agrees
  // with a response object whose member named "result" has its value there, and no
  // member before is named "error".
  lemma StreamsOnlyEnvelopes(fits: string -> bool, buf: string) returns (res: Response, i: nat)
    requires Analyze(fits, buf).streamable
    ensures res.Valid() && i < Count(res.members)
    ensures KeyOf(res.members, i) == RESULT && forall j | 0 <= j <= i :: KeyOf(res.members, j) != ERROR
    ensures var at := res.Base() + ValueStart(res.members, i);
            Starts(buf, res.Text(), at) && Analyze(fits, buf) == Analysis(true, at, Prime(buf[at]))
  {
    var lead, rest := OpenFound(fits, buf);
    var after, base, ms;
    after, base, ms, i := WalkFound(fits, |buf|, Decoder(rest, ObjectStart, [TopValue]), NOT_FOUND);
    res := Response(lead, "", ms, "");
    SightedInResponse(buf, res, rest, i, Analyze(fits, buf));
  }

  lemma SightedInResponse(buf: string, res: Response, rest: string, i: nat, r: Analysis)
    requires res.pad == "" && res.trail == "" && buf == res.lead + "{" + rest && Sighted(|buf|, rest, res.members, i, r)
    ensures var at := res.Base() + ValueStart(res.members, i);
            Starts(buf, res.Text(), at) && r == Analysis(true, at, Prime(buf[at]))
  {
    ResponseText(res);
    StartsBehind(res.lead + "{", rest, PrintMembers("", res.members), ValueStart(res.members, i));
  }

  lemma OpenFound(fits: string -> bool, buf: string) returns (lead: string, rest: string)
    requires Analyze(fits, buf).streamable
    ensures Blank(lead) && buf == lead + "{" + rest
    ensures Analyze(fits, buf) == Walk(fits, |buf|, Decoder(rest, ObjectStart, [TopValue]), NOT_FOUND)
  {
    lead := SpaceFound(buf);
    var s := SkipSpace(buf);
    var d := Decoder(buf, TopValue, []);
    assert s[0] == '{' && Token(fits, d) == Push(d, '{', s[1..], ObjectStart);
    rest := s[1..];
    Opened('{', s, rest, "");
    Common.Assoc(lead, "{", rest);
    assert [] + [TopValue] == [TopValue];
  }

  lemma ResponseText(res: Response)
    requires res.pad == "" && res.trail == ""
    ensures res.Text() == res.lead + "{" + PrintMembers("", res.members)
  {
    assert PrintMembers("", res.members) + "" == PrintMembers("", res.members);
    Common.Assoc(res.lead, "{", PrintMembers("", res.members));
  }
}
