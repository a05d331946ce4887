/**
 `streamReadAhead` (internal/server/emerald/json_rpc_result_stream.go) with the
 callback of the result stream: whatever the schedule of the two goroutines,
 the client is sent what the plain loop of ResultStream sends, or, if the caller
 cancels, a prefix of it.
 */
module ConcurrentStream {
  import opened ResultCounter
  import opened ResultStream
  import opened ReadAhead

  ghost function Concat(chunks: seq<string>): string {
    if chunks == [] then "" else Concat(chunks[..|chunks| - 1]) + chunks[|chunks| - 1]
  }

  // The callback that counts the value, with the sends that fail.
  ghost function ChunkVerdict(mode: Mode, c: Counter, fails: nat -> bool, seen: seq<string>): Verdict {
    if fails(|seen|) then Fail else if Over(mode, c, Concat(seen)) then Done else More
  }

  ghost function Emitting(mode: Mode, c: Counter, fails: nat -> bool): Callback {
    seen => ChunkVerdict(mode, c, fails, seen)
  }

  lemma ConcatSnoc(seen: seq<string>, p: string)
    ensures Concat(seen + [p]) == Concat(seen) + p
  {
    assert (seen + [p])[..|seen|] == seen;
  }

  lemma NextVerdict(mode: Mode, c: Counter, fails: nat -> bool, seen: seq<string>, text: string)
    requires Concat(seen) == text
    ensures Emitting(mode, c, fails)(seen) == if fails(|seen|) then Fail else if Over(mode, c, text) then Done else More
  {
  }

  // It is what `Process` answers chunk after chunk, and the client then has what
  // the chunks so far pass on.
  lemma VerdictIsTheEmitters(mode: Mode, c: Counter, fails: nat -> bool, seen: seq<string>, s: string, p: string,
                             sent: string, sink: Emitter, counter: ResultCounter, done: bool, ok: bool)
    requires s == Concat(seen) && !Over(mode, c, s)
    requires Emitted(mode, After(mode, c, s), p, sent + Passed(mode, c, s), sink, counter, done, ok)
    requires fails(|seen| + 1) == !ok
    ensures Emitting(mode, c, fails)(seen + [p]) == if !ok then Fail else if done then Done else More
    ensures Concat(seen + [p]) == s + p
    ensures ok ==> Payload(sink.stream.items) == sent + Passed(mode, c, s + p)
    ensures ok && !done ==> !Over(mode, c, s + p) && counter.State() == After(mode, c, s + p)
  {
    ConcatSnoc(seen, p);
    NextVerdict(mode, c, fails, seen + [p], s + p);
    if ok {
      EmittedNext(mode, c, s, p, sent, sink, counter, done);
    }
  }

  // What the producer puts on the channel for a body read as `chunks` that ends in `end`.
  function Messages(chunks: seq<string>, end: ReadError): seq<Message> {
    seq(|chunks|, i requires 0 <= i < |chunks| => Chunk(chunks[i])) + if end == Broken then [ReadFailed] else []
  }

  // A send is tried for a chunk only while the value has not ended.
  ghost predicate SendFails(mode: Mode, c: Counter, fails: nat -> bool, before: seq<string>) {
    fails(|before| + 1) && !Over(mode, c, Concat(before))
  }

  ghost predicate SomeSendFails(mode: Mode, c: Counter, fails: nat -> bool, chunks: seq<string>) {
    exists k | 0 <= k < |chunks| :: SendFails(mode, c, fails, chunks[..k])
  }

  lemma {:induction false} ConcatPrefix(mode: Mode, c: Counter, chunks: seq<string>, k: nat)
    requires k <= |chunks|
    ensures Over(mode, c, Concat(chunks[..k])) ==>
              Over(mode, c, Concat(chunks)) && Passed(mode, c, Concat(chunks)) == Passed(mode, c, Concat(chunks[..k]))
    ensures Passed(mode, c, Concat(chunks[..k])) <= Passed(mode, c, Concat(chunks))
    decreases |chunks|
  {
    if k == |chunks| {
      assert chunks[..k] == chunks;
    } else {
      var init := chunks[..|chunks| - 1];
      assert init[..k] == chunks[..k];
      ConcatPrefix(mode, c, init, k);
      PassedConcat(mode, c, Concat(init), chunks[|chunks| - 1]);
    }
  }

  // Where the plain loop is after the chunks, before the read error if there is one.
  ghost predicate Reached(mode: Mode, c: Counter, fails: nat -> bool, chunks: seq<string>, l: Loop) {
    && l.seen <= chunks
    && (l.result.Running? <==> !SomeSendFails(mode, c, fails, chunks))
    && (if l.result.Returned? then !l.done
        else if Over(mode, c, Concat(chunks)) then l.done && Over(mode, c, Concat(l.seen))
        else !l.done && l.seen == chunks)
  }

  lemma {:induction false} PlainReaches(mode: Mode, c: Counter, fails: nat -> bool, chunks: seq<string>)
    ensures Reached(mode, c, fails, chunks, ReceiveAll(Emitting(mode, c, fails), Messages(chunks, Eof)))
  {
    if chunks == [] {
      assert !Scan(c, "").Ended?;
    } else {
      var init, p := chunks[..|chunks| - 1], chunks[|chunks| - 1];
      PlainReaches(mode, c, fails, init);
      assert chunks == init + [p];
      var msgs := Messages(chunks, Eof);
      assert msgs[..|msgs| - 1] == Messages(init, Eof);
      var before := ReceiveAll(Emitting(mode, c, fails), Messages(init, Eof));
      ReachesNext(mode, c, fails, init, p, before);
    }
  }

  lemma ReachesNext(mode: Mode, c: Counter, fails: nat -> bool, init: seq<string>, p: string, l: Loop)
    requires Reached(mode, c, fails, init, l)
    ensures Reached(mode, c, fails, init + [p], Receive(Emitting(mode, c, fails), l, Chunk(p)))
  {
    var chunks := init + [p];
    ConcatSnoc(init, p);
    PassedConcat(mode, c, Concat(init), p);
    FailsNext(mode, c, fails, init, p);
  }

  lemma FailsNext(mode: Mode, c: Counter, fails: nat -> bool, init: seq<string>, p: string)
    ensures SomeSendFails(mode, c, fails, init + [p]) <==>
              SomeSendFails(mode, c, fails, init) || SendFails(mode, c, fails, init)
  {
    var chunks := init + [p];
    forall k | 0 <= k <= |init| ensures chunks[..k] == init[..k] {
    }
    assert init[..|init|] == init;
  }

  // The messages taken are the first chunks, then the read error if there is one.
  lemma TakenMessages(chunks: seq<string>, end: ReadError, k: nat)
    requires k <= |Messages(chunks, end)|
    ensures k <= |chunks| ==> Messages(chunks, end)[..k] == Messages(chunks[..k], Eof)
    ensures k > |chunks| ==> end == Broken && k == |chunks| + 1 && Messages(chunks, end)[..k] == Messages(chunks, end)
  {
  }

  // What the plain loop over the first `k` messages has to do with the whole body.
  lemma PlainPrefix(mode: Mode, c: Counter, fails: nat -> bool, chunks: seq<string>, end: ReadError, k: nat)
    requires k <= |Messages(chunks, end)|
    ensures var l, rest := ReceiveAll(Emitting(mode, c, fails), Messages(chunks, end)[..k]), Concat(chunks);
            && Passed(mode, c, Concat(l.seen)) <= Passed(mode, c, rest)
            && (l.done ==>
                  l.result.Running? && Over(mode, c, rest) && Passed(mode, c, Concat(l.seen)) == Passed(mode, c, rest))
  {
    var process, msgs := Emitting(mode, c, fails), Messages(chunks, end);
    var n := if k <= |chunks| then k else |chunks|;
    PlainReaches(mode, c, fails, chunks[..n]);
    TakenMessages(chunks, end, k);
    if k > |chunks| {
      assert chunks[..n] == chunks && msgs[..k] == msgs && msgs[..k - 1] == Messages(chunks, Eof);
    }
    var l := ReceiveAll(process, msgs[..k]);
    assert l.seen <= chunks[..n] && l.seen == chunks[..|l.seen|];
    ConcatPrefix(mode, c, chunks, |l.seen|);
  }

  // The plain loop over all of them, as in `ReadAheadEnds`.
  lemma PlainEnds(mode: Mode, c: Counter, fails: nat -> bool, chunks: seq<string>, end: ReadError)
    requires end != NoError
    ensures var l, rest := ReceiveAll(Emitting(mode, c, fails), Messages(chunks, end)), Concat(chunks);
            && (l.result.Running? <==> !SomeSendFails(mode, c, fails, chunks) && (end == Eof || Over(mode, c, rest)))
            && (l.result.Running? && !l.done ==> l.seen == chunks && !Over(mode, c, rest))
            && (l.result.Returned? ==> !l.done)
  {
    var process, msgs := Emitting(mode, c, fails), Messages(chunks, end);
    PlainReaches(mode, c, fails, chunks);
    if end == Broken {
      assert msgs[..|msgs| - 1] == Messages(chunks, Eof);
    }
  }

  // On every schedule the client has a prefix of what is to be passed on, and all
  // of it once the callback has said `done`. If the caller has not cancelled, the
  // call succeeds as in `ReadAheadEnds`: exactly when no send failed and the body
  // ended well or the value was over, and then everything was passed on.
  lemma AnyScheduleStreams(mode: Mode, c: Counter, fails: nat -> bool, chunks: seq<string>, end: ReadError,
                           run: seq<State>)
    requires end != NoError
    requires Run(Emitting(mode, c, fails), Messages(chunks, end), run) && run[|run| - 1].loop.result.Returned?
    ensures var s, rest := run[|run| - 1], Concat(chunks);
            && Passed(mode, c, Concat(s.loop.seen)) <= Passed(mode, c, rest)
            && (s.loop.done ==>
                  && s.loop.result.ok && Over(mode, c, rest)
                  && Passed(mode, c, Concat(s.loop.seen)) == Passed(mode, c, rest))
            && (!s.cancelled ==>
                  && (s.loop.result.ok <==>
                        !SomeSendFails(mode, c, fails, chunks) && (end == Eof || Over(mode, c, rest)))
                  && (s.loop.result.ok ==> Passed(mode, c, Concat(s.loop.seen)) == Passed(mode, c, rest))
                  && (s.loop.result.ok ==> (s.loop.done <==> Over(mode, c, rest))))
  {
    var process, msgs := Emitting(mode, c, fails), Messages(chunks, end);
    ReadAheadIsSequential(process, msgs, run);
    PlainPrefix(mode, c, fails, chunks, end, run[|run| - 1].taken);
    PlainEnds(mode, c, fails, chunks, end);
  }

  // ---- a cancelled caller ----

  // What `streamNativeCallBody` makes of the loop's return: an unwrapped value has
  // to be over, and `finished` says that `Finish` could mark the end.
  predicate CallSucceeds(mode: Mode, l: Loop, finished: bool) {
    l.result == Returned(true) && (mode == UnwrapResult ==> l.done) && finished
  }

  // An unwrapped value is whole on success, cancelled or not.
  lemma UnwrappedIsWhole(c: Counter, fails: nat -> bool, chunks: seq<string>, end: ReadError, run: seq<State>,
                         finished: bool)
    requires end != NoError
    requires Run(Emitting(UnwrapResult, c, fails), Messages(chunks, end), run)
    requires CallSucceeds(UnwrapResult, run[|run| - 1].loop, finished)
    ensures Over(UnwrapResult, c, Concat(chunks))
    ensures Passed(UnwrapResult, c, Concat(run[|run| - 1].loop.seen)) == Passed(UnwrapResult, c, Concat(chunks))
  {
    AnyScheduleStreams(UnwrapResult, c, fails, chunks, end, run);
  }

  // A body passed through as it is can be cut short by a cancellation, and then
  // `Finish` is called all the same. So success means the whole body, whatever the
  // schedule, if and only if `Finish` cannot send on a cancelled stream, or there
  // is nothing to send.
  ghost predicate SuccessIsWhole(c: Counter, fails: nat -> bool, chunks: seq<string>, end: ReadError,
                                 sendsWhenCancelled: bool) {
    forall run: seq<State> | Run(Emitting(PassThrough, c, fails), Messages(chunks, end), run) ::
      var s := run[|run| - 1];
      CallSucceeds(PassThrough, s.loop, !s.cancelled || sendsWhenCancelled) ==> Concat(s.loop.seen) == Concat(chunks)
  }

  lemma PassThroughNeedsFailingSend(c: Counter, fails: nat -> bool, chunks: seq<string>, end: ReadError,
                                    sendsWhenCancelled: bool)
    requires end != NoError
    ensures SuccessIsWhole(c, fails, chunks, end, sendsWhenCancelled) <==> !sendsWhenCancelled || Concat(chunks) == ""
  {
    var process, msgs := Emitting(PassThrough, c, fails), Messages(chunks, end);
    if sendsWhenCancelled && Concat(chunks) != "" {
      var run := CancelledSeesNothing(process, msgs);
      assert Concat(run[|run| - 1].loop.seen) != Concat(chunks);
    } else {
      forall run: seq<State> | Run(process, msgs, run)
        ensures var s := run[|run| - 1];
                CallSucceeds(PassThrough, s.loop, !s.cancelled || sendsWhenCancelled) ==>
                    Concat(s.loop.seen) == Concat(chunks)
      {
        if run[|run| - 1].loop.result.Returned? {
          AnyScheduleStreams(PassThrough, c, fails, chunks, end, run);
        }
      }
    }
  }
}
