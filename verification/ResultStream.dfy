/**
 Streaming a JSON-RPC result to the gRPC client
 (internal/server/emerald/json_rpc_result_stream.go, the chunk emitter of
 grpc_blockchain.go and `streamNativeCallBody` of native_call_adapter.go).
 The upstream body arrives in any pieces; every send to the client may fail.
 */
module ResultStream {
  import Common
  import opened JsonGrammar
  import opened ResultCounter

  const MAX_CHUNK_SIZE := 8192
  const STREAM_READ_CHUNK_SIZE := 32 * 1024

  // ---- the upstream body ----

  datatype ReadError = NoError | Eof | Broken

  // A reader hands out `left` and then `end` for ever. `cuts` says how many bytes
  // each read asks for at most, zero included; `joined` says whether `end` comes
  // along with the last bytes.
  class Reader {
    var left: string
    var cuts: seq<nat>
    const end: ReadError
    const joined: bool

    constructor (body: string, cuts: seq<nat>, end: ReadError, joined: bool)
      requires end != NoError
      ensures left == body && this.end == end
    {
      left, this.cuts, this.end, this.joined := body, cuts, end, joined;
    }

    method Read(max: nat) returns (p: string, err: ReadError)
      requires max > 0 && end != NoError
      modifies this
      ensures old(left) == p + left && |p| <= max
      ensures err == NoError || (err == end && left == "")
      ensures err == NoError ==> |cuts| + |left| < old(|cuts| + |left|)
    {
      if left == "" {
        return "", end;
      }
      var n := if max < |left| then max else |left|;
      if cuts != [] {
        n := if cuts[0] < n then cuts[0] else n;
        cuts := cuts[1..];
      }
      p, left := left[..n], left[n..];
      err := if joined && left == "" then end else NoError;
    }
  }

  // `io.ReadFull`: an error only when fewer than `max` bytes arrive.
  method ReadFull(reader: Reader, max: nat) returns (prefix: string, err: ReadError)
    requires reader.end != NoError
    modifies reader
    ensures old(reader.left) == prefix + reader.left
    ensures |prefix| == if max <= |old(reader.left)| then max else |old(reader.left)|
    ensures err == if |prefix| < max then reader.end else NoError
  {
    prefix, err := "", NoError;
    while |prefix| < max && err == NoError
      invariant |prefix| <= max
      invariant old(reader.left) == prefix + reader.left
      invariant err == NoError || (err == reader.end && reader.left == "")
      decreases err == NoError, |reader.cuts| + |reader.left|
    {
      var p;
      p, err := reader.Read(max - |prefix|);
      prefix := prefix + p;
    }
    if |prefix| >= max {
      err := NoError;
    }
  }

  // ---- the client's side ----

  datatype ReplyItem = ReplyItem(payload: string, first: bool, final: bool)

  function Payload(items: seq<ReplyItem>): string {
    if items == [] then "" else Payload(items[..|items| - 1]) + items[|items| - 1].payload
  }

  ghost predicate FirstOnce(items: seq<ReplyItem>) {
    forall i | 0 <= i < |items| :: items[i].first <==> i == 0
  }

  ghost predicate NoFinal(items: seq<ReplyItem>) {
    forall i | 0 <= i < |items| :: !items[i].final
  }

  // Metadata on the first item only, the final mark on the last item only.
  ghost predicate Complete(items: seq<ReplyItem>) {
    && items != []
    && FirstOnce(items)
    && NoFinal(items[..|items| - 1])
    && items[|items| - 1].final
  }

  class Stream {
    var items: seq<ReplyItem>
    var failed: bool

    constructor ()
      ensures items == [] && !failed
    {
      items, failed := [], false;
    }

    method Send(item: ReplyItem) returns (ok: bool)
      modifies this
      ensures ok ==> items == old(items) + [item] && failed == old(failed)
      ensures !ok ==> items == old(items) && failed
    {
      ok := *;
      if ok {
        items := items + [item];
      } else {
        failed := true;
      }
    }
  }

  class Emitter {
    var emitted: bool
    var finalSent: bool
    const stream: Stream

    constructor (stream: Stream)
      ensures this.stream == stream && !emitted && !finalSent
    {
      this.stream, emitted, finalSent := stream, false, false;
    }

    // Everything written so far has reached the client.
    ghost predicate Valid()
      reads this, stream
    {
      && !stream.failed
      && (emitted <==> stream.items != [])
      && FirstOnce(stream.items)
      && (finalSent <==> stream.items != [] && stream.items[|stream.items| - 1].final)
      && (stream.items != [] ==> NoFinal(stream.items[..|stream.items| - 1]))
    }

    // ... and none of it was marked final.
    ghost predicate Open()
      reads this, stream
      ensures Open() ==> NoFinal(stream.items)
    {
      Valid() && !finalSent
    }

    method WriteChunk(p: string, final: bool) returns (ok: bool)
      requires Open()
      modifies this, stream
      ensures ok ==> Valid() && Payload(stream.items) == old(Payload(stream.items)) + p
      ensures ok ==> (finalSent <==> final)
      ensures !ok ==> stream.failed && stream.items == old(stream.items)
      ensures ok && (p != "" || final) ==>
                stream.items == old(stream.items) + [ReplyItem(p, old(stream.items) == [], final)]
      ensures ok && p == "" && !final ==> stream.items == old(stream.items)
    {
      if |p| == 0 && !final {
        return true;
      }
      var first := !emitted;
      emitted := true;
      if final {
        finalSent := true;
      }
      ghost var before := stream.items;
      ok := stream.Send(ReplyItem(p, first, final));
      if ok {
        assert stream.items[..|stream.items| - 1] == before;
      }
    }

    // The io.Writer form used when the producer cannot tell its last write.
    method Write(p: string) returns (n: nat, ok: bool)
      requires Open()
      modifies this, stream
      ensures ok ==> n == |p| && Open() && Payload(stream.items) == old(Payload(stream.items)) + p
      ensures !ok ==> n == 0 && stream.failed && stream.items == old(stream.items)
    {
      if |p| == 0 {
        return 0, true;
      }
      ok := WriteChunk(p, false);
      n := if ok then |p| else 0;
    }

    method Finish() returns (ok: bool)
      requires Valid()
      modifies this, stream
      ensures ok ==> Complete(stream.items) && !stream.failed && Payload(stream.items) == old(Payload(stream.items))
      ensures old(finalSent) ==> ok
      ensures !ok ==> stream.failed && stream.items == old(stream.items)
    {
      if finalSent {
        return true;
      }
      ok := WriteChunk("", true);
    }
  }

  // ---- the result value ----

  // How many bytes of `rest` a counter lets through.
  function Extent(c: Counter, rest: string): (n: nat)
    ensures n <= |rest|
  {
    var r := Scan(c, rest);
    if r.Ended? then r.at else |rest|
  }

  datatype Mode = UnwrapResult | PassThrough

  // What becomes of the bytes `s` read so far: those passed on, whether the
  // value has ended, and the counter when it has not.
  ghost predicate Over(mode: Mode, c: Counter, s: string) {
    mode == UnwrapResult && Scan(c, s).Ended?
  }

  ghost function Passed(mode: Mode, c: Counter, s: string): string {
    if mode == UnwrapResult then s[..Extent(c, s)] else s
  }

  ghost function After(mode: Mode, c: Counter, s: string): Counter
    requires !Over(mode, c, s)
  {
    if mode == UnwrapResult then Scan(c, s).c else c
  }

  // A chunk and what follows it, against the two taken together.
  lemma PassedConcat(mode: Mode, c: Counter, s: string, t: string)
    ensures Over(mode, c, s) ==> Over(mode, c, s + t) && Passed(mode, c, s + t) == Passed(mode, c, s)
    ensures !Over(mode, c, s) ==>
              var d := After(mode, c, s);
              && (Over(mode, c, s + t) <==> Over(mode, d, t))
              && (!Over(mode, c, s + t) ==> After(mode, c, s + t) == After(mode, d, t))
              && Passed(mode, c, s) == s
              && Passed(mode, c, s + t) == s + Passed(mode, d, t)
    ensures Passed(mode, c, s) <= Passed(mode, c, s + t)
  {
    ScanConcat(c, s, t);
  }

  // What one call of the callback leaves behind.
  ghost predicate Emitted(mode: Mode, c: Counter, p: string, sent: string, sink: Emitter, counter: ResultCounter,
                          done: bool, ok: bool)
    reads sink, sink.stream, counter
  {
    if ok then
      && sink.Valid()
      && (done <==> Over(mode, c, p))
      && Payload(sink.stream.items) == sent + Passed(mode, c, p)
      && (!done ==> sink.Open() && counter.State() == After(mode, c, p))
    else sink.stream.failed
  }

  // One more chunk `p` after the bytes `s`, for the emitter that has passed `s` on.
  lemma EmittedNext(mode: Mode, c: Counter, s: string, p: string, sent: string,
                    sink: Emitter, counter: ResultCounter, done: bool)
    requires !Over(mode, c, s)
    requires Emitted(mode, After(mode, c, s), p, sent + Passed(mode, c, s), sink, counter, done, true)
    ensures done <==> Over(mode, c, s + p)
    ensures Payload(sink.stream.items) == sent + Passed(mode, c, s + p)
    ensures !done ==> counter.State() == After(mode, c, s + p)
  {
    PassedConcat(mode, c, s, p);
    Common.Assoc(sent, s, Passed(mode, After(mode, c, s), p));
  }

  method EmitFromBuffer(sink: Emitter, buf: string, counter: ResultCounter) returns (done: bool, ok: bool)
    requires sink.Open()
    modifies sink, sink.stream, counter
    ensures Emitted(UnwrapResult, old(counter.State()), buf, old(Payload(sink.stream.items)), sink, counter, done, ok)
    ensures !ok ==> sink.stream.items == old(sink.stream.items)
  {
    ghost var c := counter.State();
    var i := 0;
    while i < |buf|
      invariant 0 <= i <= |buf|
      invariant Scan(c, buf[..i]) == Running(counter.State())
      invariant sink.Valid() && !sink.finalSent && sink.stream.items == old(sink.stream.items)
    {
      var r := counter.Step(buf[i]);
      ScanStep(c, buf, i);
      match r {
        case Continue =>
        case FinishHere =>
          ok := sink.WriteChunk(buf[..i + 1], true);
          return ok, ok;
        case StopBefore =>
          ok := true;
          if i > 0 {
            ok := sink.WriteChunk(buf[..i], true);
          }
          return ok, ok;
      }
      i := i + 1;
    }
    assert buf[..i] == buf;
    ok := true;
    if |buf| > 0 {
      ok := sink.WriteChunk(buf, false);
    }
    done := false;
  }

  // The callback that `streamReadAhead` runs on each chunk.
  method Process(sink: Emitter, mode: Mode, counter: ResultCounter, p: string) returns (done: bool, ok: bool)
    requires sink.Open()
    modifies sink, sink.stream, counter
    ensures Emitted(mode, old(counter.State()), p, old(Payload(sink.stream.items)), sink, counter, done, ok)
    ensures !ok ==> sink.stream.items == old(sink.stream.items)
  {
    if mode == PassThrough {
      done := false;
      ok := sink.WriteChunk(p, false);
    } else {
      done, ok := EmitFromBuffer(sink, p, counter);
    }
  }

  // The bytes `read` have been processed and `sent` was there before them.
  ghost predicate Streaming(sink: Emitter, mode: Mode, counter: ResultCounter, c: Counter, sent: string, read: string,
                            done: bool)
    reads sink, sink.stream, counter
  {
    && sink.Valid()
    && (done <==> Over(mode, c, read))
    && (!done ==> sink.Open() && counter.State() == After(mode, c, read))
    && Payload(sink.stream.items) == sent + Passed(mode, c, read)
  }

  // One read of the loop below, with the chunk it passes on or, after `done`, drops.
  method ReadChunk(reader: Reader, sink: Emitter, mode: Mode, counter: ResultCounter, done: bool,
                   ghost c: Counter, ghost sent: string, ghost read: string)
    returns (over: bool, err: ReadError, ok: bool, ghost all: string)
    requires Streaming(sink, mode, counter, c, sent, read, done) && reader.end != NoError
    modifies reader, sink, sink.stream, counter
    ensures all + reader.left == read + old(reader.left) && (reader.left == "" ==> all == read + old(reader.left))
    ensures err == NoError || (err == reader.end && reader.left == "")
    ensures err == NoError ==> |reader.cuts| + |reader.left| < old(|reader.cuts| + |reader.left|)
    ensures ok ==> Streaming(sink, mode, counter, c, sent, all, over)
    ensures !ok ==>
              && sink.stream.failed
              && NoFinal(sink.stream.items)
              && Payload(sink.stream.items) <= sent + Passed(mode, c, read + old(reader.left))
  {
    var p;
    PassedConcat(mode, c, read, reader.left);
    p, err := reader.Read(STREAM_READ_CHUNK_SIZE);
    Common.Assoc(read, p, reader.left);
    all := read + p;
    over, ok := done, true;
    PassedConcat(mode, c, read, p);
    if |p| > 0 && !done {
      over, ok := Process(sink, mode, counter, p);
      if ok {
        EmittedNext(mode, c, read, p, sent, sink, counter, over);
      }
    } else {
      assert p == "" ==> all == read;
    }
  }

  // Where the loop below stops: everything was read, or an error ended it and
  // the client has what was passed on before.
  ghost predicate ReadAheadEnds(sink: Emitter, mode: Mode, c: Counter, sent: string, rest: string, end: ReadError,
                                completed: bool, ok: bool)
    reads sink, sink.stream
  {
    && (ok <==> !sink.stream.failed && (end == Eof || Over(mode, c, rest)))
    && (if ok then
          && sink.Valid()
          && (completed <==> Over(mode, c, rest))
          && (!completed ==> sink.Open())
          && Payload(sink.stream.items) == sent + Passed(mode, c, rest)
        else
          && NoFinal(sink.stream.items)
          && Payload(sink.stream.items) <= sent + Passed(mode, c, rest))
  }

  // `streamReadAhead`: after `done` the rest of the body is read and dropped,
  // and a late read error is ignored.
  method StreamReadAhead(reader: Reader, sink: Emitter, mode: Mode, counter: ResultCounter)
    returns (completed: bool, ok: bool)
    requires sink.Open() && reader.end != NoError
    modifies reader, sink, sink.stream, counter
    ensures ReadAheadEnds(sink, mode, old(counter.State()), old(Payload(sink.stream.items)), old(reader.left),
                          reader.end, completed, ok)
    ensures ok ==> reader.left == ""
  {
    ghost var c, rest, sent := counter.State(), reader.left, Payload(sink.stream.items);
    ghost var read := "";
    var done, err := false, NoError;
    while err == NoError
      invariant read + reader.left == rest && (reader.left == "" ==> read == rest)
      invariant err == NoError || (err == reader.end && reader.left == "")
      invariant Streaming(sink, mode, counter, c, sent, read, done)
      invariant done || err != Broken
      decreases err == NoError, |reader.cuts| + |reader.left|
    {
      done, err, ok, read := ReadChunk(reader, sink, mode, counter, done, c, sent, read);
      if !ok || (err == Broken && !done) {
        return false, false;
      }
    }
    return done, true;
  }

  // From a value's first bytes to its end, or to the end of the body.
  method StreamValue(reader: Reader, sink: Emitter, first: string, last: bool, c: Counter) returns (ok: bool)
    requires sink.Open() && sink.stream.items == [] && reader.end != NoError
    requires last ==> reader.left == ""
    modifies reader, sink, sink.stream
    ensures var rest := first + old(reader.left);
            && (ok <==> Over(UnwrapResult, c, rest) && !sink.stream.failed)
            && (ok ==> sink.Valid() && reader.left == "" && Payload(sink.stream.items) == Passed(UnwrapResult, c, rest))
            && (!ok ==> NoFinal(sink.stream.items) && Payload(sink.stream.items) <= Passed(UnwrapResult, c, rest))
  {
    PassedConcat(UnwrapResult, c, first, reader.left);
    var counter := new ResultCounter(c);
    var done;
    done, ok := Process(sink, UnwrapResult, counter, first);
    if !ok {
      return false;
    }
    if done {
      Drain(reader);
      return true;
    }
    if last {
      assert first + reader.left == first;
      return false;
    }
    var completed;
    completed, ok := StreamReadAhead(reader, sink, UnwrapResult, counter);
    ok := ok && completed;
  }

  method StreamJsonRPCResult(reader: Reader, sink: Emitter, start: int, c: Counter) returns (ok: bool)
    requires sink.Open() && sink.stream.items == [] && reader.end != NoError
    modifies reader, sink, sink.stream
    ensures ok <==> Streams(old(reader.left), reader.end, start, c) && !sink.stream.failed
    ensures ok ==> sink.Valid() && reader.left == ""
    ensures ok ==> Payload(sink.stream.items) == ResultBytes(old(reader.left), start, c)
    ensures !ok ==> NoFinal(sink.stream.items) && Payload(sink.stream.items) <= ResultBytes(old(reader.left), start, c)
  {
    ghost var body := reader.left;
    var prefix, err := ReadFull(reader, MAX_CHUNK_SIZE);
    if err == Broken {
      return false;
    }
    if start < 0 || start > |prefix| {
      return false;
    }
    assert body[start..] == prefix[start..] + reader.left;
    ok := StreamValue(reader, sink, prefix[start..], err != NoError, c);
  }

  method Drain(reader: Reader)
    requires reader.end != NoError
    modifies reader
    ensures reader.left == ""
  {
    var err := NoError;
    while err == NoError
      invariant err == NoError || reader.left == ""
      decreases err == NoError, |reader.cuts| + |reader.left|
    {
      var p;
      p, err := reader.Read(STREAM_READ_CHUNK_SIZE);
    }
  }

  // ---- what the client is sent ----

  // The value starts inside the first chunk, that chunk could be read, and the
  // counter sees the value end.
  ghost predicate Streams(body: string, end: ReadError, start: int, c: Counter) {
    && 0 <= start <= |body| && start <= MAX_CHUNK_SIZE
    && (MAX_CHUNK_SIZE <= |body| || end == Eof)
    && Over(UnwrapResult, c, body[start..])
  }

  ghost function ResultBytes(body: string, start: int, c: Counter): string {
    if 0 <= start <= |body| then Passed(UnwrapResult, c, body[start..]) else ""
  }

  // `streamNativeCallBody`: on success the client has the whole value, metadata
  // on the first item only and the final mark on the last item only; otherwise
  // it has a prefix of the value and no final item.
  method StreamNativeCallBody(reader: Reader, stream: Stream, mode: Mode, start: int, c: Counter) returns (ok: bool)
    requires stream.items == [] && !stream.failed && reader.end != NoError
    modifies reader, stream
    ensures var body := old(reader.left);
            var whole := if mode == PassThrough then body else ResultBytes(body, start, c);
            && (ok <==>
                  && !stream.failed
                  && if mode == PassThrough then reader.end == Eof else Streams(body, reader.end, start, c))
            && (ok ==> Complete(stream.items) && Payload(stream.items) == whole && reader.left == "")
            && (!ok ==> NoFinal(stream.items) && Payload(stream.items) <= whole)
  {
    var emitter := new Emitter(stream);
    if mode == UnwrapResult {
      ok := StreamJsonRPCResult(reader, emitter, start, c);
    } else {
      var completed;
      var counter := new ResultCounter(c);
      completed, ok := StreamReadAhead(reader, emitter, PassThrough, counter);
    }
    if ok {
      ok := emitter.Finish();
    }
  }
}
