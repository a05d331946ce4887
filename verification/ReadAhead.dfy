/**
 The producer goroutine and the bounded channel of `streamReadAhead`
 (internal/server/emerald/json_rpc_result_stream.go) as interleaved steps.
 Whatever the schedule, the callback sees the chunks one by one in the order
 they were read, as the plain loop of ResultStream does, unless the caller cancels.
 */
module ReadAhead {

  const STREAM_READ_AHEAD_DEPTH := 4

  // What the producer puts on the channel: the chunks in order and, unless the
  // body ends with EOF, the read error.
  datatype Message = Chunk(buf: string) | ReadFailed

  datatype Verdict = More | Done | Fail

  // The callback keeps state, so its verdict depends on all chunks so far.
  type Callback = seq<string> -> Verdict

  datatype Result = Running | Returned(ok: bool)

  datatype Loop = Loop(seen: seq<string>, done: bool, result: Result)

  // ---- the plain loop ----

  function Receive(process: Callback, l: Loop, m: Message): Loop {
    if l.result.Returned? || l.done then l
    else
      match m
      case ReadFailed => l.(result := Returned(false))
      case Chunk(buf) =>
        var seen := l.seen + [buf];
        match process(seen)
        case Fail => Loop(seen, false, Returned(false))
        case Done => Loop(seen, true, Running)
        case More => Loop(seen, false, Running)
  }

  function ReceiveAll(process: Callback, msgs: seq<Message>): Loop {
    if msgs == [] then Loop([], false, Running)
    else Receive(process, ReceiveAll(process, msgs[..|msgs| - 1]), msgs[|msgs| - 1])
  }

  // ---- the two goroutines ----

  // `cancelled` is the caller's context.
  datatype State = State(sent: nat, queue: seq<Message>, closed: bool, cancelled: bool, taken: nat, loop: Loop)

  const START := State(0, [], false, false, 0, Loop([], false, Running))

  ghost predicate Produce(msgs: seq<Message>, s: State, s': State) {
    && !s.closed && s.sent < |msgs| && |s.queue| < STREAM_READ_AHEAD_DEPTH
    && s' == s.(sent := s.sent + 1, queue := s.queue + [msgs[s.sent]])
  }

  // The producer is done, or the consumer's return or the caller has cancelled it.
  ghost predicate CloseChannel(msgs: seq<Message>, s: State, s': State) {
    && !s.closed && (s.sent == |msgs| || s.loop.result.Returned? || s.cancelled)
    && s' == s.(closed := true)
  }

  ghost predicate Consume(process: Callback, s: State, s': State) {
    && s.loop.result.Running? && s.queue != []
    && s' == s.(queue := s.queue[1..], taken := s.taken + 1, loop := Receive(process, s.loop, s.queue[0]))
  }

  ghost predicate ConsumeClosed(s: State, s': State) {
    && s.loop.result.Running? && s.queue == [] && s.closed
    && s' == s.(loop := s.loop.(result := Returned(true)))
  }

  // A step of one of the two goroutines.
  ghost predicate Work(process: Callback, msgs: seq<Message>, s: State, s': State) {
    Produce(msgs, s, s') || CloseChannel(msgs, s, s') || Consume(process, s, s') || ConsumeClosed(s, s')
  }

  // The caller's context can be cancelled at any time.
  ghost predicate Cancel(s: State, s': State) {
    !s.cancelled && s' == s.(cancelled := true)
  }

  ghost predicate Step(process: Callback, msgs: seq<Message>, s: State, s': State) {
    Work(process, msgs, s, s') || Cancel(s, s')
  }

  ghost predicate StepAt(process: Callback, msgs: seq<Message>, run: seq<State>, i: nat) {
    i + 1 < |run| ==> Step(process, msgs, run[i], run[i + 1])
  }

  ghost predicate Run(process: Callback, msgs: seq<Message>, run: seq<State>) {
    run != [] && run[0] == START && forall i: nat :: StepAt(process, msgs, run, i)
  }

  lemma RunPrefix(process: Callback, msgs: seq<Message>, run: seq<State>)
    requires Run(process, msgs, run) && |run| > 1
    ensures Run(process, msgs, run[..|run| - 1]) && Step(process, msgs, run[|run| - 2], run[|run| - 1])
  {
    assert StepAt(process, msgs, run, |run| - 2);
    var init := run[..|run| - 1];
    forall i: nat ensures StepAt(process, msgs, init, i) {
      assert StepAt(process, msgs, run, i);
    }
  }

  ghost predicate Inv(process: Callback, msgs: seq<Message>, s: State) {
    && s.taken <= s.sent <= |msgs| && s.queue == msgs[s.taken..s.sent] && |s.queue| <= STREAM_READ_AHEAD_DEPTH
    && (s.closed ==> s.sent == |msgs| || s.loop.result.Returned? || s.cancelled)
    && var plain := ReceiveAll(process, msgs[..s.taken]);
       if s.loop.result == Returned(true) then
         && (s.taken == |msgs| || s.cancelled)
         && plain.result.Running? && s.loop == plain.(result := Returned(true))
       else s.loop == plain
  }

  lemma StepKeepsInv(process: Callback, msgs: seq<Message>, s: State, s': State)
    requires Inv(process, msgs, s) && Step(process, msgs, s, s')
    ensures Inv(process, msgs, s')
  {
    if Consume(process, s, s') {
      assert msgs[..s.taken + 1][..s.taken] == msgs[..s.taken];
      assert s.queue[0] == msgs[s.taken] == msgs[..s.taken + 1][s.taken];
      NeverOk(process, msgs[..s.taken + 1]);
    } else if Produce(msgs, s, s') {
      assert msgs[s.taken..s.sent + 1] == msgs[s.taken..s.sent] + [msgs[s.sent]];
    } else if ConsumeClosed(s, s') {
      assert s.taken == s.sent;
    }
  }

  // A callback or read error is the only return of the plain loop before its end.
  lemma {:induction false} NeverOk(process: Callback, msgs: seq<Message>)
    ensures ReceiveAll(process, msgs).result != Returned(true)
  {
    if msgs != [] {
      NeverOk(process, msgs[..|msgs| - 1]);
    }
  }

  lemma {:induction false} RunKeepsInv(process: Callback, msgs: seq<Message>, run: seq<State>)
    requires Run(process, msgs, run)
    ensures Inv(process, msgs, run[|run| - 1])
  {
    if |run| == 1 {
      assert msgs[..0] == [] && msgs[0..0] == [];
    } else {
      var before := run[..|run| - 1];
      RunPrefix(process, msgs, run);
      RunKeepsInv(process, msgs, before);
      StepKeepsInv(process, msgs, before[|before| - 1], run[|run| - 1]);
    }
  }

  // Once the plain loop has returned, later messages change nothing.
  lemma {:induction false} Settled(process: Callback, msgs: seq<Message>, k: nat)
    requires k <= |msgs| && ReceiveAll(process, msgs[..k]).result.Returned?
    ensures ReceiveAll(process, msgs) == ReceiveAll(process, msgs[..k])
    decreases |msgs|
  {
    if k < |msgs| {
      assert msgs[..|msgs| - 1][..k] == msgs[..k];
      Settled(process, msgs[..|msgs| - 1], k);
    } else {
      assert msgs[..k] == msgs;
    }
  }

  // On every schedule the consumer returns what the plain loop returns on the
  // messages it has taken, after the same callback calls. That is what the plain
  // loop returns on the whole body, except for a success after a cancellation: on
  // success the body was read to its end, or the caller had cancelled the call.
  lemma ReadAheadIsSequential(process: Callback, msgs: seq<Message>, run: seq<State>)
    requires Run(process, msgs, run) && run[|run| - 1].loop.result.Returned?
    ensures var s := run[|run| - 1];
            && s.taken <= |msgs| && Returns(s.loop, ReceiveAll(process, msgs[..s.taken]))
            && (s.loop.result.ok ==> s.taken == |msgs| || s.cancelled)
            && (!s.loop.result.ok || !s.cancelled ==> Returns(s.loop, ReceiveAll(process, msgs)))
  {
    var s := run[|run| - 1];
    RunKeepsInv(process, msgs, run);
    if s.taken == |msgs| {
      assert msgs[..s.taken] == msgs;
    } else if !s.loop.result.ok {
      Settled(process, msgs, s.taken);
    }
  }

  // A loop that returned stands where the plain one does.
  predicate Returns(l: Loop, plain: Loop) {
    l.result.Returned? && l.seen == plain.seen && l.done == plain.done && (l.result.ok <==> plain.result.Running?)
  }

  // The exception is real: a call cancelled at once can return success before the
  // callback has seen anything.
  lemma CancelledSeesNothing(process: Callback, msgs: seq<Message>) returns (run: seq<State>)
    ensures Run(process, msgs, run)
    ensures var s := run[|run| - 1]; s.cancelled && s.loop == Loop([], false, Returned(true)) && s.taken == 0
  {
    var cancelled := START.(cancelled := true);
    var closed := cancelled.(closed := true);
    var returned := closed.(loop := Loop([], false, Returned(true)));
    run := [START, cancelled, closed, returned];
    assert Cancel(START, cancelled);
    assert CloseChannel(msgs, cancelled, closed);
    assert ConsumeClosed(closed, returned);
  }

  // Nothing blocks for good: while either goroutine lives one of them can take a
  // step, and every step brings the run closer to its end.
  function Remaining(msgs: seq<Message>, s: State): int {
    (|msgs| - s.sent) + (|msgs| - s.taken) + (if s.closed then 0 else 1) + (if s.loop.result.Running? then 1 else 0)
    + (if s.cancelled then 0 else 1)
  }

  lemma NoDeadlock(process: Callback, msgs: seq<Message>, s: State)
    requires Inv(process, msgs, s) && (s.loop.result.Running? || !s.closed)
    ensures exists s' :: Work(process, msgs, s, s')
  {
    var s' :=
      if s.loop.result.Returned? || (s.sent == |msgs| && !s.closed) then s.(closed := true)
      else if s.queue != [] then
        s.(queue := s.queue[1..], taken := s.taken + 1, loop := Receive(process, s.loop, s.queue[0]))
      else if s.closed then s.(loop := s.loop.(result := Returned(true)))
      else s.(sent := s.sent + 1, queue := s.queue + [msgs[s.sent]]);
    assert Work(process, msgs, s, s');
  }

  lemma {:induction false} RunsAreShort(process: Callback, msgs: seq<Message>, run: seq<State>)
    requires Run(process, msgs, run)
    ensures |run| - 1 + Remaining(msgs, run[|run| - 1]) <= 2 * |msgs| + 3
    ensures |run| <= 2 * |msgs| + 4
  {
    RunKeepsInv(process, msgs, run);
    if |run| > 1 {
      RunPrefix(process, msgs, run);
      RunsAreShort(process, msgs, run[..|run| - 1]);
    }
  }
}
