/**
 `AnalyzeChunk` (internal/protocol/json_rpc_stream.go): one walk over the first
 chunk of a JSON-RPC response that finds the envelope's "result" value and
 refuses to stream when it sees an "error" key.
 */
module ChunkAnalysis {
  import opened JsonGrammar
  import opened ResultCounter
  import opened JsonDecoder

  datatype Analysis = Analysis(streamable: bool, resultStart: int, counter: Counter)

  const NOT_FOUND := Analysis(false, -1, Counter(NoKind, 0, false, false))

  function Ascii(s: string): seq<int> {
    seq(|s|, i requires 0 <= i < |s| => s[i] as int)
  }

  const ERROR := Ascii("error")
  const RESULT := Ascii("result")

  // ---- the walk, on the unread input ----

  // `resultValueStart`: the input from the value on, or "" when the chunk ends first.
  function ValueInput(s: string): (r: string)
    ensures |r| <= |s|
  {
    var p := SkipSpace(s);
    if p == "" || p[0] != ':' then "" else SkipSpace(p[1..])
  }

  function Finish(found: Analysis): Analysis {
    found.(streamable := found.resultStart >= 0)
  }

  // `size` is the chunk's length, so `size - |input|` is an offset into it.
  function Walk(fits: string -> bool, size: nat, d: Decoder, found: Analysis): Analysis
    decreases |d.rest|
  {
    if !More(d) then Finish(found)
    else
      match Token(fits, d)
      case TokenError => Finish(found)
      case Tok(token, next) => if token.Text? then WalkKey(fits, size, token.units, next, found) else NOT_FOUND
  }

  function WalkKey(fits: string -> bool, size: nat, key: seq<int>, d: Decoder, found: Analysis): Analysis
    decreases |d.rest|, 2
  {
    if key == ERROR then NOT_FOUND
    else if key == RESULT then
      var input := ValueInput(d.rest);
      if input == "" then NOT_FOUND
      else
        var located := Analysis(false, size - |input|, Prime(input[0]));
        if Scan(located.counter, input).Running? then located.(streamable := true)
        else WalkPast(fits, size, d, located)
    else WalkPast(fits, size, d, found)
  }

  function WalkPast(fits: string -> bool, size: nat, d: Decoder, found: Analysis): Analysis
    decreases |d.rest|, 1
  {
    match SkipNext(fits, d)
    case SkipError => Finish(found)
    case Skipped(next) => Walk(fits, size, next, found)
  }

  function Analyze(fits: string -> bool, buf: string): Analysis {
    match Token(fits, Decoder(buf, TopValue, []))
    case TokenError => NOT_FOUND
    case Tok(token, next) => if token == Delim('{') then Walk(fits, |buf|, next, NOT_FOUND) else NOT_FOUND
  }

  // ---- the source's loops ----

  method ResultValueStart(buf: string, offset: nat) returns (start: nat, counter: Counter, ok: bool)
    requires offset <= |buf|
    ensures ok <==> ValueInput(buf[offset..]) != ""
    ensures ok ==> start < |buf| && buf[start..] == ValueInput(buf[offset..]) && counter == Prime(buf[start])
  {
    start, counter, ok := 0, NOT_FOUND.counter, false;
    var p := SpaceEnd(buf, offset);
    if p >= |buf| || buf[p] != ':' {
      return;
    }
    assert buf[p..][1..] == buf[p + 1..];
    p := SpaceEnd(buf, p + 1);
    if p >= |buf| {
      return;
    }
    return p, Prime(buf[p]), true;
  }

  method SpaceEnd(buf: string, offset: nat) returns (p: nat)
    requires offset <= |buf|
    ensures offset <= p <= |buf| && buf[p..] == SkipSpace(buf[offset..])
  {
    p := offset;
    while p < |buf| && IsSpace(buf[p])
      invariant offset <= p <= |buf|
      invariant SkipSpace(buf[p..]) == SkipSpace(buf[offset..])
    {
      assert buf[p..][1..] == buf[p + 1..];
      p := p + 1;
    }
  }

  method AnalyzeChunk(fits: string -> bool, buf: string) returns (res: Analysis)
    ensures res == Analyze(fits, buf)
  {
    res := NOT_FOUND;
    var t := Token(fits, Decoder(buf, TopValue, []));
    if t.TokenError? || t.token != Delim('{') {
      return;
    }
    var dec := t.next;
    while More(dec)
      invariant Walk(fits, |buf|, dec, res) == Analyze(fits, buf)
      invariant !res.streamable
      decreases |dec.rest|
    {
      var key := Token(fits, dec);
      if key.TokenError? {
        break;
      }
      if !key.token.Text? || key.token.units == ERROR {
        return NOT_FOUND;
      }
      assert WalkKey(fits, |buf|, key.token.units, key.next, res) == Analyze(fits, buf);
      if key.token.units == RESULT {
        var overflows;
        res, overflows := LocateResult(|buf|, key.next.rest);
        if res == NOT_FOUND || overflows {
          return;
        }
      }
      assert WalkPast(fits, |buf|, key.next, res) == Analyze(fits, buf);
      var value := SkipNextValue(fits, key.next);
      if value.SkipError? {
        break;
      }
      dec := value.next;
    }
    res := res.(streamable := res.resultStart >= 0);
  }

  // The "result" branch of the loop; `input` is the chunk from the key's end on.
  method LocateResult(size: nat, input: string) returns (res: Analysis, overflows: bool)
    ensures ValueInput(input) == "" ==> res == NOT_FOUND
    ensures ValueInput(input) != "" ==>
              var value := ValueInput(input);
              && (overflows <==> Scan(Prime(value[0]), value).Running?)
              && res == Analysis(overflows, size - |value|, Prime(value[0]))
  {
    res, overflows := NOT_FOUND, false;
    var start, counter, ok := ResultValueStart(input, 0);
    assert input[0..] == input;
    if !ok {
      return;
    }
    var _, done := SkipResultValueBytes(input, start, counter);
    overflows := !done;
    res := Analysis(overflows, size - |input| + start, counter);
  }
}
