/**
 The race of `hedgeExecutor.Apply` (internal/resilience/parallel_hedge.go) as
 interleaved steps: the first execution, the hedges that the timer launches, the
 shared count, flag and result map, and the goroutine that waits for one result.
 */
module ParallelHedge {
  import opened Common

  // The order of `protocol.ResultType`: smaller is better.
  datatype ResultType = ResultOk | ResultOkWithError | ResultPartialFailure | ResultTotalFailure | ResultStop

  function Rank(t: ResultType): nat {
    match t
    case ResultOk => 0
    case ResultOkWithError => 1
    case ResultPartialFailure => 2
    case ResultTotalFailure => 3
    case ResultStop => 4
  }

  const BEST_FIRST := [ResultOk, ResultOkWithError, ResultPartialFailure, ResultTotalFailure, ResultStop]

  lemma RankIsPlace(t: ResultType)
    ensures Rank(t) < |BEST_FIRST| && BEST_FIRST[Rank(t)] == t
  {
  }

  // What an execution's inner call comes to: whether the policy may stop on it,
  // whether it is the first execution's and came before the hedge delay, and its type.
  datatype Outcome = Outcome(abortable: bool, fast: bool, kind: ResultType) {
    // It ends the race at once.
    predicate Eager() {
      abortable || fast
    }
  }

  datatype Pc =
    | NotStarted
    | Running
    | Finished                         // the inner call returned
    | Counted(final: bool)             // the count was raised; final: it reached the number of executions
    | Recording(final: bool)           // lost, or may not win at once
    | Recorded(final: bool)
    | Gathering(seen: set<nat>)        // reading the map; `seen` was in it at the start
    | Chosen(best: nat)
    | Winning(index: nat)              // swapped the flag; the send is next
    | Done

  datatype Exec = Exec(pc: Pc, out: Outcome)

  datatype Waiter =
    | Waiting
    | Launching(next: nat)
    | Returned(winner: nat)
    | ParentCancelled

  // `sent` is everything ever put on the result channel, and `gathered` what was in
  // the result map when the last finisher began to read it.
  datatype State = State(execs: seq<Exec>, count: nat, resultSent: bool, recorded: set<nat>, gathered: Option<set<nat>>,
                         sent: seq<nat>, timer: bool, waiter: Waiter, cancelled: set<nat>)

  ghost predicate Init(s: State) {
    && |s.execs| > 0 && s.execs[0].pc == Running
    && (forall i | 0 < i < |s.execs| :: s.execs[i].pc == NotStarted)
    && s.count == 0 && !s.resultSent && s.recorded == {} && s.gathered == None && s.sent == []
    && s.timer && s.waiter == Waiting && s.cancelled == {}
  }

  // ---- one execution ----

  function Move(s: State, i: nat, pc: Pc): State
    requires i < |s.execs|
  {
    s.(execs := s.execs[i := s.execs[i].(pc := pc)])
  }

  // The least result type among `g`.
  ghost predicate IsBest(s: State, g: set<nat>, best: nat) {
    && best in g && best < |s.execs|
    && forall j | j in g && j < |s.execs| :: Rank(s.execs[best].out.kind) <= Rank(s.execs[j].out.kind)
  }

  ghost predicate ExecStep(s: State, s': State, i: nat)
    requires i < |s.execs|
  {
    match s.execs[i].pc
    case NotStarted => false
    case Running =>
      exists out: Outcome :: (out.fast ==> i == 0) && s' == s.(execs := s.execs[i := Exec(Finished, out)])
    case Finished => s' == Move(s, i, Counted(s.count + 1 == |s.execs|)).(count := s.count + 1)
    case Counted(final) =>
      if (s.execs[i].out.abortable || s.execs[i].out.fast) && !s.resultSent
      then s' == Move(s, i, Winning(i)).(resultSent := true)
      else s' == Move(s, i, Recording(final))
    case Recording(final) => s' == Move(s, i, Recorded(final)).(recorded := s.recorded + {i})
    case Recorded(final) =>
      s' == if final then Move(s, i, Gathering(s.recorded)).(gathered := Some(s.recorded)) else Move(s, i, Done)
    case Gathering(seen) =>
      // the range sees every entry from its start on, and perhaps newer ones
      exists g: set<nat>, best: nat :: seen <= g <= s.recorded && IsBest(s, g, best) && s' == Move(s, i, Chosen(best))
    case Chosen(best) =>
      s' == if s.resultSent then Move(s, i, Done) else Move(s, i, Winning(best)).(resultSent := true)
    case Winning(index) => s' == Move(s, i, Done).(sent := s.sent + [index])
    case Done => false
  }

  // ---- the waiting goroutine ----

  predicate Started(s: State, i: nat) {
    i < |s.execs| && !s.execs[i].pc.NotStarted?
  }

  ghost predicate WaitStep(s: State, s': State) {
    match s.waiter
    case Waiting =>
      || (s.timer && s' == s.(timer := false, waiter := Launching(1)))
      || (s.sent != [] && s' == s.(waiter := ParentCancelled))
      || (s.sent != [] &&
          s' == s.(waiter := Returned(s.sent[0]),
                   cancelled := set i | 0 <= i < |s.execs| && Started(s, i) && i != s.sent[0]))
    case Launching(next) =>
      if next < |s.execs| then
        s' == s.(execs := s.execs[next := s.execs[next].(pc := Running)], waiter := Launching(next + 1))
      else s' == s.(waiter := Waiting)
    case Returned(_) => false
    case ParentCancelled => false
  }

  ghost predicate Step(s: State, s': State) {
    WaitStep(s, s') || exists i | 0 <= i < |s.execs| :: ExecStep(s, s', i)
  }

  ghost predicate StepAt(run: seq<State>, i: nat) {
    i + 1 < |run| ==> Step(run[i], run[i + 1])
  }

  ghost predicate Steps(run: seq<State>) {
    run != [] && forall i: nat :: StepAt(run, i)
  }

  ghost predicate Run(run: seq<State>) {
    Steps(run) && Init(run[0])
  }

  lemma RunPrefix(run: seq<State>, n: nat)
    requires Run(run) && 0 < n <= |run|
    ensures Run(run[..n])
  {
    forall i: nat ensures StepAt(run[..n], i) {
      assert StepAt(run, i);
    }
  }

  // ---- the invariant ----

  predicate PastCount(pc: Pc) {
    !pc.NotStarted? && !pc.Running? && !pc.Finished?
  }

  function CountPast(es: seq<Exec>): nat {
    if es == [] then 0 else CountPast(es[..|es| - 1]) + if PastCount(es[|es| - 1].pc) then 1 else 0
  }

  // The execution that reached the full count has not got to the flag yet.
  predicate FinalPending(pc: Pc) {
    || (pc.Counted? && pc.final)
    || (pc.Recording? && pc.final)
    || (pc.Recorded? && pc.final)
    || pc.Gathering?
    || pc.Chosen?
  }

  ghost predicate Winner(s: State, i: nat) {
    i < |s.execs| && s.execs[i].pc.Winning?
  }

  // The flag, the send under way and the channel tell the same story.
  ghost predicate OneWinner(s: State) {
    && |s.sent| <= 1
    && (s.sent != [] ==> s.resultSent)
    && (forall i | Winner(s, i) :: s.resultSent && s.sent == [])
    && (forall i, j | Winner(s, i) && Winner(s, j) :: i == j)
    && (s.resultSent && s.sent == [] ==> exists i :: Winner(s, i))
  }

  // Hedges start only once the timer fired, in order.
  ghost predicate Launched(s: State) {
    && |s.execs| > 0 && !s.execs[0].pc.NotStarted?
    && (s.timer ==> forall i | 0 < i < |s.execs| :: s.execs[i].pc.NotStarted?)
    && (!s.timer && !s.waiter.Launching? ==> forall i | 0 <= i < |s.execs| :: !s.execs[i].pc.NotStarted?)
    && (s.waiter.Launching? ==>
          && !s.timer && 0 < s.waiter.next <= |s.execs|
          && (forall i | 0 <= i < s.waiter.next :: !s.execs[i].pc.NotStarted?)
          && (forall i | s.waiter.next <= i < |s.execs| :: s.execs[i].pc.NotStarted?))
  }

  ghost predicate Counts(s: State) {
    && s.count == CountPast(s.execs)
    && (s.count < |s.execs| ==> forall i | 0 <= i < |s.execs| :: !FinalPending(s.execs[i].pc))
    && (s.count == |s.execs| ==> s.resultSent || exists i | 0 <= i < |s.execs| :: FinalPending(s.execs[i].pc))
  }

  // Whoever is named has a result.
  predicate HasResult(s: State, i: nat) {
    i < |s.execs| && PastCount(s.execs[i].pc)
  }

  ghost predicate Named(s: State) {
    && (forall i | i in s.recorded :: HasResult(s, i))
    && (forall i | i in s.sent :: HasResult(s, i))
    && (forall i | 0 <= i < |s.execs| && s.execs[i].pc.Recorded? :: i in s.recorded)
    && (forall i | 0 <= i < |s.execs| && s.execs[i].pc.Gathering? ::
          i in s.execs[i].pc.seen && s.execs[i].pc.seen <= s.recorded)
    && (forall i | 0 <= i < |s.execs| && s.execs[i].pc.Chosen? :: HasResult(s, s.execs[i].pc.best))
    && (forall i | 0 <= i < |s.execs| && s.execs[i].pc.Winning? :: HasResult(s, s.execs[i].pc.index))
    && (s.waiter.Returned? ==>
          s.sent == [s.waiter.winner] &&
          s.cancelled == set i | 0 <= i < |s.execs| && Started(s, i) && i != s.waiter.winner)
  }

  ghost predicate Inv(s: State) {
    OneWinner(s) && Launched(s) && Counts(s) && Named(s)
  }

  // ---- every step keeps it ----

  lemma {:induction false} CountUpdate(es: seq<Exec>, i: nat, e: Exec)
    requires i < |es|
    ensures CountPast(es[i := e]) ==
            CountPast(es) - (if PastCount(es[i].pc) then 1 else 0) + (if PastCount(e.pc) then 1 else 0)
  {
    var last := |es| - 1;
    if i == last {
      assert es[i := e][..last] == es[..last];
    } else {
      assert es[i := e][..last] == es[..last][i := e];
      CountUpdate(es[..last], i, e);
    }
  }

  lemma {:induction false} CountBound(es: seq<Exec>)
    ensures CountPast(es) <= |es|
    ensures CountPast(es) == |es| <==> forall i | 0 <= i < |es| :: PastCount(es[i].pc)
  {
    if es != [] {
      CountBound(es[..|es| - 1]);
    }
  }

  // A step of execution i changes no other execution.
  lemma ExecFrame(s: State, s': State, i: nat)
    requires i < |s.execs| && ExecStep(s, s', i)
    ensures |s'.execs| == |s.execs| && s'.execs == s.execs[i := s'.execs[i]]
    ensures s'.timer == s.timer && s'.waiter == s.waiter && s'.cancelled == s.cancelled
    ensures Started(s, i) && Started(s', i)
    ensures PastCount(s.execs[i].pc) ==> PastCount(s'.execs[i].pc) && s'.execs[i].out == s.execs[i].out
    ensures s'.recorded == s.recorded || (s'.recorded == s.recorded + {i} && s.execs[i].pc.Recording?)
  {}

  lemma ExecKeepsOneWinner(s: State, s': State, i: nat)
    requires OneWinner(s) && i < |s.execs| && ExecStep(s, s', i)
    ensures OneWinner(s')
  {
    ExecFrame(s, s', i);
    if s'.resultSent && s'.sent == [] {
      if s'.execs[i].pc.Winning? {
        assert Winner(s', i);
      } else {
        var j: nat :| Winner(s, j);
        assert Winner(s', j);
      }
    }
    forall j: nat | Winner(s', j) && j != i ensures Winner(s, j) {}
    if Winner(s, i) {
      forall j: nat | Winner(s', j) ensures false {}
    }
  }

  lemma ExecKeepsLaunched(s: State, s': State, i: nat)
    requires Launched(s) && i < |s.execs| && ExecStep(s, s', i)
    ensures Launched(s')
  {
    ExecFrame(s, s', i);
  }

  lemma ExecKeepsCounts(s: State, s': State, i: nat)
    requires Counts(s) && i < |s.execs| && ExecStep(s, s', i)
    ensures Counts(s')
  {
    ExecFrame(s, s', i);
    CountUpdate(s.execs, i, s'.execs[i]);
    CountBound(s.execs);
    CountBound(s'.execs);
    if s'.count == |s'.execs| && !s'.resultSent {
      if s.execs[i].pc.Finished? || FinalPending(s.execs[i].pc) {
        assert FinalPending(s'.execs[i].pc);
      } else {
        var j :| 0 <= j < |s.execs| && FinalPending(s.execs[j].pc);
        assert FinalPending(s'.execs[j].pc);
      }
    }
  }

  lemma ExecKeepsNamed(s: State, s': State, i: nat)
    requires Named(s) && i < |s.execs| && ExecStep(s, s', i)
    requires s.waiter.Returned? ==> s.sent != [] && !s.execs[i].pc.Winning?
    ensures Named(s')
  {
    ExecFrame(s, s', i);
    ExecKeepsResults(s, s', i);
  }

  lemma ExecKeepsResults(s: State, s': State, i: nat)
    requires i < |s.execs| && ExecStep(s, s', i)
    ensures forall j: nat | HasResult(s, j) :: HasResult(s', j)
    ensures forall j | 0 <= j < |s.execs| :: Started(s', j) == Started(s, j)
  {
    ExecFrame(s, s', i);
  }

  lemma ExecKeepsInv(s: State, s': State, i: nat)
    requires Inv(s) && i < |s.execs| && ExecStep(s, s', i)
    ensures Inv(s')
  {
    ExecKeepsOneWinner(s, s', i);
    ExecKeepsLaunched(s, s', i);
    ExecKeepsCounts(s, s', i);
    assert s.execs[i].pc.Winning? ==> Winner(s, i);
    ExecKeepsNamed(s, s', i);
  }

  lemma SameWinner(s: State, s': State)
    requires OneWinner(s) && s'.sent == s.sent && s'.resultSent == s.resultSent
    requires forall i: nat :: Winner(s', i) == Winner(s, i)
    ensures OneWinner(s')
  {
    if s.resultSent && s.sent == [] {
      var i: nat :| Winner(s, i);
      assert Winner(s', i);
    }
  }

  // Starting execution n.
  lemma LaunchKeepsInv(s: State, s': State, n: nat)
    requires Inv(s) && s.waiter == Launching(n) && n < |s.execs| && WaitStep(s, s')
    ensures Inv(s')
  {
    assert s'.execs == s.execs[n := s'.execs[n]];
    forall i: nat ensures Winner(s', i) == Winner(s, i) {}
    SameWinner(s, s');
    LaunchKeepsCounts(s, s', n);
    LaunchKeepsNamed(s, s', n);
  }

  lemma LaunchKeepsCounts(s: State, s': State, n: nat)
    requires Counts(s) && n < |s.execs| && s.execs[n].pc.NotStarted?
    requires s'.execs == s.execs[n := s.execs[n].(pc := Running)]
    requires s'.count == s.count && s'.resultSent == s.resultSent
    ensures Counts(s')
  {
    CountUpdate(s.execs, n, s'.execs[n]);
    CountBound(s.execs);
  }

  lemma LaunchKeepsNamed(s: State, s': State, n: nat)
    requires Named(s) && n < |s.execs| && s.execs[n].pc.NotStarted? && !s'.waiter.Returned?
    requires s'.execs == s.execs[n := s.execs[n].(pc := Running)] && s'.sent == s.sent && s'.recorded == s.recorded
    ensures Named(s')
  {
    forall i: nat ensures HasResult(s', i) == HasResult(s, i) {}
  }

  lemma WaitKeepsInv(s: State, s': State)
    requires Inv(s) && WaitStep(s, s')
    ensures Inv(s')
  {
    if s.waiter.Launching? && s.waiter.next < |s.execs| {
      LaunchKeepsInv(s, s', s.waiter.next);
    } else {
      forall i: nat ensures Winner(s', i) == Winner(s, i) {}
      SameWinner(s, s');
      forall i: nat ensures HasResult(s', i) == HasResult(s, i) && Started(s', i) == Started(s, i) {}
    }
  }

  lemma InitInv(s: State)
    requires Init(s)
    ensures Inv(s)
  {
    CountBound(s.execs);
    NonePast(s.execs);
  }

  lemma {:induction false} NonePast(es: seq<Exec>)
    requires forall i | 0 <= i < |es| :: !PastCount(es[i].pc)
    ensures CountPast(es) == 0
  {
    if es != [] {
      NonePast(es[..|es| - 1]);
    }
  }

  lemma {:induction false} RunKeepsInv(run: seq<State>)
    requires Run(run)
    ensures Inv(run[|run| - 1])
  {
    var last := |run| - 1;
    if last == 0 {
      InitInv(run[0]);
    } else {
      RunPrefix(run, last);
      RunKeepsInv(run[..last]);
      var s, s' := run[last - 1], run[last];
      assert StepAt(run, last - 1);
      if WaitStep(s, s') {
        WaitKeepsInv(s, s');
      } else {
        var i: nat :| i < |s.execs| && ExecStep(s, s', i);
        ExecKeepsInv(s, s', i);
      }
    }
  }

  // ---- what every run guarantees ----

  ghost predicate AllDone(s: State) {
    forall i | 0 <= i < |s.execs| :: s.execs[i].pc.Done?
  }

  // At most one result is ever sent, it belongs to an execution whose inner call
  // returned, and once all executions are over exactly one was sent.
  lemma ExactlyOneResult(run: seq<State>)
    requires Run(run)
    ensures var s := run[|run| - 1];
            && |s.sent| <= 1
            && (forall i | i in s.sent :: HasResult(s, i))
            && (AllDone(s) ==> |s.sent| == 1)
  {
    RunKeepsInv(run);
    var s := run[|run| - 1];
    CountBound(s.execs);
    if AllDone(s) {
      assert forall i: nat :: !Winner(s, i);
    }
  }

  // When the waiting goroutine returns a result, every other started execution
  // is cancelled and the winner is not.
  lemma WinnerSurvives(run: seq<State>, w: nat)
    requires Run(run) && run[|run| - 1].waiter == Returned(w)
    ensures var s := run[|run| - 1];
            && s.sent == [w] && HasResult(s, w) && w !in s.cancelled
            && forall i: nat :: i in s.cancelled <==> Started(s, i) && i != w
  {
    RunKeepsInv(run);
    assert w in run[|run| - 1].sent;
  }

  // The wait cannot hang: with nothing sent and nothing running, the timer is
  // still to fire and will launch the hedges.
  lemma NoHang(run: seq<State>)
    requires Run(run)
    requires var s := run[|run| - 1];
             && s.waiter == Waiting && s.sent == []
             && forall i | 0 <= i < |s.execs| && Started(s, i) :: s.execs[i].pc.Done?
    ensures run[|run| - 1].timer
  {
    RunKeepsInv(run);
    var s := run[|run| - 1];
    CountBound(s.execs);
  }

  // The last finisher chooses a result no worse than any recorded when it starts
  // to gather, its own included.
  lemma LastFinisherChoosesBest(run: seq<State>, s': State, i: nat)
    requires Run(run) && i < |run[|run| - 1].execs|
    requires var s := run[|run| - 1]; s.execs[i].pc.Gathering? && ExecStep(s, s', i)
    ensures var s := run[|run| - 1];
            var seen, best := s.execs[i].pc.seen, s'.execs[i].pc.best;
            && i in seen && best in s.recorded && best < |s.execs|
            && forall j | j in seen && j < |s.execs| :: Rank(s.execs[best].out.kind) <= Rank(s.execs[j].out.kind)
  {
    RunKeepsInv(run);
  }

  // ---- best of all, whatever the results ----

  // The same state if the inner calls had come to results of these types.
  function Recast(s: State, kinds: seq<ResultType>): State
    requires |kinds| == |s.execs|
  {
    s.(execs := seq(|s.execs|, k requires 0 <= k < |s.execs| => s.execs[k].(out := s.execs[k].out.(kind := kinds[k]))))
  }

  function RecastAll(run: seq<State>, kinds: seq<ResultType>): seq<State>
    requires forall t | 0 <= t < |run| :: |run[t].execs| == |kinds|
  {
    seq(|run|, t requires 0 <= t < |run| => Recast(run[t], kinds))
  }

  lemma SameExecs(run: seq<State>, t: nat)
    requires Run(run) && t < |run|
    ensures |run[t].execs| == |run[0].execs|
  {
    if t > 0 {
      SameExecs(run, t - 1);
      assert StepAt(run, t - 1);
    }
  }

  // The full count is reached once.
  ghost predicate OneFinal(s: State) {
    forall i, j | 0 <= i < |s.execs| && 0 <= j < |s.execs| ::
      FinalPending(s.execs[i].pc) && FinalPending(s.execs[j].pc) ==> i == j
  }

  // Only the last count makes an execution final, and only the choice ends it.
  lemma FinalArises(s: State, s': State, k: nat)
    requires k < |s.execs| && ExecStep(s, s', k)
    ensures |s'.execs| == |s.execs|
    ensures FinalPending(s'.execs[k].pc) ==>
              FinalPending(s.execs[k].pc) || (s.execs[k].pc.Finished? && s.count + 1 == |s.execs|)
    ensures s.execs[k].pc.Gathering? ==> s'.execs[k].pc.Chosen?
    ensures s.execs[k].pc.Chosen? ==> !FinalPending(s'.execs[k].pc)
    ensures s'.count == if s.execs[k].pc.Finished? then s.count + 1 else s.count
  {}

  lemma WaitKeepsFinal(s: State, s': State)
    requires WaitStep(s, s')
    ensures |s'.execs| == |s.execs| && s'.count == s.count
    ensures forall i | 0 <= i < |s.execs| :: s'.execs[i].pc == s.execs[i].pc || s'.execs[i].pc == Running
  {}

  lemma StepKeepsOneFinal(s: State, s': State)
    requires Counts(s) && OneFinal(s) && Step(s, s')
    ensures OneFinal(s')
  {
    if WaitStep(s, s') {
      WaitKeepsFinal(s, s');
    } else {
      var k: nat :| k < |s.execs| && ExecStep(s, s', k);
      ExecFrame(s, s', k);
      FinalArises(s, s', k);
    }
  }

  lemma {:induction false} RunKeepsOneFinal(run: seq<State>)
    requires Run(run)
    ensures OneFinal(run[|run| - 1])
    decreases |run|
  {
    var last := |run| - 1;
    if last > 0 {
      RunPrefix(run, last);
      RunKeepsOneFinal(run[..last]);
      RunKeepsInv(run[..last]);
      assert StepAt(run, last - 1);
      StepKeepsOneFinal(run[last - 1], run[last]);
    }
  }

  // Execution i reached the full count and has not chosen, or nobody reached it.
  ghost predicate NotChosen(s: State, i: nat) {
    i < |s.execs| && (s.count < |s.execs| || (FinalPending(s.execs[i].pc) && !s.execs[i].pc.Chosen?))
  }

  lemma NotChosenBefore(s: State, s': State, i: nat)
    requires Counts(s) && Step(s, s') && NotChosen(s', i)
    ensures NotChosen(s, i)
  {
    CountBound(s.execs);
    if WaitStep(s, s') {
      WaitKeepsFinal(s, s');
    } else {
      var k: nat :| k < |s.execs| && ExecStep(s, s', k);
      ExecFrame(s, s', k);
      FinalArises(s, s', k);
    }
  }

  // So a step to a state without a choice is not the choice.
  lemma NotTheChoice(s: State, s': State, i: nat, k: nat)
    requires Counts(s) && OneFinal(s) && k < |s.execs| && ExecStep(s, s', k) && NotChosen(s', i)
    ensures !s.execs[k].pc.Gathering?
  {
    FinalArises(s, s', k);
    ExecFrame(s, s', k);
    NotChosenBefore(s, s', i);
    CountBound(s.execs);
  }

  // A step before the choice reads no result type.
  lemma RecastExecStep(s: State, s': State, k: nat, kinds: seq<ResultType>)
    requires k < |s.execs| && ExecStep(s, s', k) && |kinds| == |s.execs| && !s.execs[k].pc.Gathering?
    ensures |s'.execs| == |kinds| && ExecStep(Recast(s, kinds), Recast(s', kinds), k)
  {
    ExecFrame(s, s', k);
    var r, r' := Recast(s, kinds), Recast(s', kinds);
    assert r'.execs == r.execs[k := r'.execs[k]];
    if s.execs[k].pc.Running? {
      var out: Outcome :| (out.fast ==> k == 0) && s' == s.(execs := s.execs[k := Exec(Finished, out)]);
      assert r' == r.(execs := r.execs[k := Exec(Finished, out.(kind := kinds[k]))]);
    }
  }

  lemma RecastWaitStep(s: State, s': State, kinds: seq<ResultType>)
    requires WaitStep(s, s') && |kinds| == |s.execs|
    ensures |s'.execs| == |kinds| && WaitStep(Recast(s, kinds), Recast(s', kinds))
  {
    var r, r' := Recast(s, kinds), Recast(s', kinds);
    assert forall i: nat :: Started(r, i) == Started(s, i);
    if s.waiter.Launching? && s.waiter.next < |s.execs| {
      var n := s.waiter.next;
      assert r'.execs == r.execs[n := r.execs[n].(pc := Running)];
    } else {
      assert r'.execs == r.execs;
      assert (set i | 0 <= i < |r.execs| && Started(r, i) && i != WinnerOf(s)) ==
             (set i | 0 <= i < |s.execs| && Started(s, i) && i != WinnerOf(s));
    }
  }

  function WinnerOf(s: State): nat {
    if s.sent == [] then 0 else s.sent[0]
  }

  lemma RecastStep(s: State, s': State, i: nat, kinds: seq<ResultType>)
    requires Counts(s) && OneFinal(s) && Step(s, s') && NotChosen(s', i) && |kinds| == |s.execs|
    ensures |s'.execs| == |kinds| && Step(Recast(s, kinds), Recast(s', kinds))
  {
    if WaitStep(s, s') {
      RecastWaitStep(s, s', kinds);
    } else {
      var k: nat :| k < |s.execs| && ExecStep(s, s', k);
      NotTheChoice(s, s', i, k);
      RecastExecStep(s, s', k, kinds);
    }
  }

  lemma RunSnoc(init: seq<State>, s: State)
    requires Run(init) && Step(init[|init| - 1], s)
    ensures Run(init + [s])
  {
    var run := init + [s];
    forall t: nat ensures StepAt(run, t) {
      assert StepAt(init, t);
    }
  }

  // Up to the choice every run is a run for any result types.
  lemma {:induction false} RecastIsRun(run: seq<State>, i: nat, kinds: seq<ResultType>)
    requires Run(run) && NotChosen(run[|run| - 1], i) && |kinds| == |run[0].execs|
    requires forall t | 0 <= t < |run| :: |run[t].execs| == |kinds|
    ensures Run(RecastAll(run, kinds))
    decreases |run|
  {
    var last := |run| - 1;
    if last > 0 {
      var init := run[..last];
      RunPrefix(run, last);
      RunKeepsInv(init);
      RunKeepsOneFinal(init);
      assert StepAt(run, last - 1);
      NotChosenBefore(run[last - 1], run[last], i);
      RecastIsRun(init, i, kinds);
      RecastStep(run[last - 1], run[last], i, kinds);
      RunSnoc(RecastAll(init, kinds), Recast(run[last], kinds));
      assert RecastAll(init, kinds) + [Recast(run[last], kinds)] == RecastAll(run, kinds);
    }
  }

  // The last finisher's choice among the results it reads is the best of all,
  // whatever the results, if and only if it reads everybody's.
  lemma BestOfAll(s: State, i: nat, g: set<nat>)
    requires i < |s.execs| && i in g
    ensures (forall j: nat | j < |s.execs| :: j in g) <==>
            (forall kinds: seq<ResultType>, best: nat, j: nat |
               |kinds| == |s.execs| && IsBest(Recast(s, kinds), g, best) && j < |s.execs| ::
                   Rank(kinds[best]) <= Rank(kinds[j]))
  {
    if j: nat :| j < |s.execs| && j !in g {
      var kinds := seq(|s.execs|, k => if k == j then ResultOk else ResultTotalFailure);
      assert IsBest(Recast(s, kinds), g, i);
      assert Rank(kinds[i]) > Rank(kinds[j]);
    } else {
      forall kinds: seq<ResultType>, best: nat, j: nat |
        |kinds| == |s.execs| && IsBest(Recast(s, kinds), g, best) && j < |s.execs|
        ensures Rank(kinds[best]) <= Rank(kinds[j])
      {
        var r := Recast(s, kinds);
        assert j in g && r.execs[best].out.kind == kinds[best] && r.execs[j].out.kind == kinds[j];
      }
    }
  }

  // And a result it does not read is passed over in some run: the same run, with a
  // success for the one and failures for all others, returns a failure.
  lemma MissedIsPassedOver(run: seq<State>, i: nat, g: set<nat>, j: nat) returns (other: seq<State>)
    requires Run(run) && i < |run[|run| - 1].execs|
    requires var s := run[|run| - 1];
             && s.execs[i].pc.Gathering? && !s.resultSent
             && s.execs[i].pc.seen <= g <= s.recorded && j < |s.execs| && j !in g
    ensures Run(other)
    ensures var s := other[|other| - 1];
            && s.sent == [i] && i < |s.execs| && j < |s.execs| && HasResult(s, j)
            && Rank(s.execs[j].out.kind) < Rank(s.execs[i].out.kind)
  {
    var s := run[|run| - 1];
    var kinds := seq(|s.execs|, k => if k == j then ResultOk else ResultTotalFailure);
    forall t | 0 <= t < |run| ensures |run[t].execs| == |kinds| {
      SameExecs(run, t);
      SameExecs(run, |run| - 1);
    }
    RunKeepsInv(run);
    CountBound(s.execs);
    RecastIsRun(run, i, kinds);
    var recast := RecastAll(run, kinds);
    var r := Recast(s, kinds);
    assert recast[|recast| - 1] == r;
    var rest := ChoosesItself(r, i, g);
    JoinRuns(recast, rest);
    other := recast + rest[1..];
  }

  lemma ChoosesItself(r: State, i: nat, g: set<nat>) returns (rest: seq<State>)
    requires i < |r.execs| && r.execs[i].pc.Gathering? && !r.resultSent && r.sent == []
    requires r.execs[i].pc.seen <= g <= r.recorded && IsBest(r, g, i)
    ensures Steps(rest) && rest[0] == r
    ensures rest[|rest| - 1] == Move(r, i, Done).(resultSent := true, sent := [i])
  {
    var r1 := Move(r, i, Chosen(i));
    var r2 := Move(r, i, Winning(i)).(resultSent := true);
    var r3 := Move(r, i, Done).(resultSent := true, sent := [i]);
    assert ExecStep(r, r1, i);
    assert Move(r1, i, Winning(i)).execs == r2.execs;
    assert ExecStep(r1, r2, i);
    assert Move(r2, i, Done).execs == r3.execs;
    assert ExecStep(r2, r3, i);
    rest := [r, r1, r2, r3];
  }

  lemma JoinRuns(a: seq<State>, b: seq<State>)
    requires Run(a) && Steps(b) && a[|a| - 1] == b[0]
    ensures Run(a + b[1..]) && (a + b[1..])[|a + b[1..]| - 1] == b[|b| - 1]
  {
    Joined(a, b);
  }

  // This happens: an execution is counted before its result is recorded, and the
  // last finisher may gather in between. Two executions, the hedge succeeding and
  // the first one failing, end with the failure sent.
  const FAILED := Outcome(false, false, ResultTotalFailure)
  const OK := Outcome(false, false, ResultOk)

  function Two(pc0: Pc, out0: Outcome, pc1: Pc, count: nat, recorded: set<nat>, launched: bool): State {
    State([Exec(pc0, out0), Exec(pc1, OK)], count, false, recorded, None, [], !launched, Waiting, {})
  }

  lemma HedgeFinishesFirst() returns (run: seq<State>)
    ensures Run(run) && run[|run| - 1] == Two(Running, OK, Recording(false), 1, {}, true)
  {
    var s0 := Two(Running, OK, NotStarted, 0, {}, false);
    var s1 := s0.(timer := false, waiter := Launching(1));
    var s2 := s1.(execs := [Exec(Running, OK), Exec(Running, OK)], waiter := Launching(2));
    var s3 := s2.(waiter := Waiting);
    var s4 := Two(Running, OK, Finished, 0, {}, true);
    var s5 := Two(Running, OK, Counted(false), 1, {}, true);
    var s6 := Two(Running, OK, Recording(false), 1, {}, true);
    assert s1.execs[1 := s1.execs[1].(pc := Running)] == s2.execs;
    assert WaitStep(s0, s1) && WaitStep(s1, s2) && WaitStep(s2, s3);
    assert s3.execs[1 := Exec(Finished, OK)] == s4.execs;
    assert ExecStep(s3, s4, 1) && ExecStep(s4, s5, 1) && ExecStep(s5, s6, 1);
    run := [s0, s1, s2, s3, s4, s5, s6];
  }

  lemma Joined(a: seq<State>, b: seq<State>)
    requires Steps(a) && Steps(b) && a[|a| - 1] == b[0]
    ensures Steps(a + b[1..]) && (a + b[1..])[|a + b[1..]| - 1] == b[|b| - 1]
  {
    var run := a + b[1..];
    forall i: nat ensures StepAt(run, i) {
      if i < |a| - 1 {
        assert StepAt(a, i);
      } else {
        assert StepAt(b, i - |a| + 1);
      }
    }
  }

  lemma FirstRecords() returns (run: seq<State>)
    ensures Steps(run) && run[0] == Two(Running, OK, Recording(false), 1, {}, true)
    ensures run[|run| - 1] == Two(Recorded(true), FAILED, Recording(false), 2, {0}, true)
  {
    var one := Recording(false);
    var s := Two(Running, OK, one, 1, {}, true);
    var s1 := Two(Finished, FAILED, one, 1, {}, true);
    var s2 := Two(Counted(true), FAILED, one, 2, {}, true);
    var s3 := Two(Recording(true), FAILED, one, 2, {}, true);
    var s4 := Two(Recorded(true), FAILED, one, 2, {0}, true);
    assert s.execs[0 := Exec(Finished, FAILED)] == s1.execs;
    assert ExecStep(s, s1, 0) && ExecStep(s1, s2, 0) && ExecStep(s2, s3, 0) && ExecStep(s3, s4, 0);
    run := [s, s1, s2, s3, s4];
  }

  lemma FirstWins() returns (run: seq<State>)
    ensures Steps(run) && run[0] == Two(Recorded(true), FAILED, Recording(false), 2, {0}, true)
    ensures var s := run[|run| - 1];
            s == Two(Done, FAILED, Recording(false), 2, {0}, true).(resultSent := true, gathered := Some({0}),
                                                                    sent := [0])
  {
    var one := Recording(false);
    var s4 := Two(Recorded(true), FAILED, one, 2, {0}, true);
    var s5 := Two(Gathering({0}), FAILED, one, 2, {0}, true).(gathered := Some({0}));
    var s6 := Two(Chosen(0), FAILED, one, 2, {0}, true).(gathered := Some({0}));
    var s7 := Two(Winning(0), FAILED, one, 2, {0}, true).(gathered := Some({0}), resultSent := true);
    var s8 := Two(Done, FAILED, one, 2, {0}, true).(gathered := Some({0}), resultSent := true, sent := [0]);
    assert IsBest(s5, {0}, 0);
    assert ExecStep(s4, s5, 0) && ExecStep(s5, s6, 0) && ExecStep(s6, s7, 0) && ExecStep(s7, s8, 0);
    run := [s4, s5, s6, s7, s8];
  }

  lemma BetterResultMissed() returns (run: seq<State>)
    ensures Run(run)
    ensures var s := run[|run| - 1];
            |s.execs| == 2 && s.sent == [0] && HasResult(s, 1) && Rank(s.execs[1].out.kind) < Rank(s.execs[0].out.kind)
  {
    var first := HedgeFinishesFirst();
    var second := FirstRecords();
    var third := FirstWins();
    Joined(first, second);
    Joined(first + second[1..], third);
    run := first + second[1..] + third[1..];
  }
}
