/**
 How the race of ParallelHedge ends: at once on a result the policy may stop on,
 otherwise with the best result found when everybody is counted, and always.
 */
module HedgeOutcome {
  import opened Common
  import opened ParallelHedge

  // ---- a result the policy may stop on ends the race ----

  // The execution has tried the flag, or found that it may not.
  predicate PastFlag(pc: Pc) {
    PastCount(pc) && !pc.Counted?
  }

  ghost predicate EagerEnds(s: State) {
    forall i | 0 <= i < |s.execs| && PastFlag(s.execs[i].pc) && s.execs[i].out.Eager() :: s.resultSent
  }

  lemma StepKeepsEager(s: State, s': State)
    requires EagerEnds(s) && Step(s, s')
    ensures EagerEnds(s')
  {
    if WaitStep(s, s') {
      WaitKeepsFinal(s, s');
      WaitKeepsOuts(s, s');
    } else {
      var i: nat :| i < |s.execs| && ExecStep(s, s', i);
      ExecFrame(s, s', i);
    }
  }

  lemma WaitKeepsOuts(s: State, s': State)
    requires WaitStep(s, s')
    ensures |s'.execs| == |s.execs| && s'.resultSent == s.resultSent && s'.recorded == s.recorded
    ensures s'.gathered == s.gathered && s'.sent == s.sent && s'.count == s.count
    ensures forall i | 0 <= i < |s.execs| ::
              s'.execs[i] == s.execs[i] || (s.waiter == Launching(i) && s'.execs[i] == s.execs[i].(pc := Running))
  {}

  // ---- otherwise the best of what was gathered is sent ----

  // Everybody was counted, and no result gathered is better.
  ghost predicate IsChoice(s: State, w: nat) {
    && s.count == |s.execs| && s.gathered.Some? && w < |s.execs| && w in s.recorded
    && forall j | j in s.gathered.value && j < |s.execs| :: Rank(s.execs[w].out.kind) <= Rank(s.execs[j].out.kind)
  }

  ghost predicate MayWin(s: State, w: nat) {
    HasResult(s, w) && (s.execs[w].out.Eager() || IsChoice(s, w))
  }

  // The last finisher before it reads the result map.
  predicate BeforeGathering(pc: Pc) {
    (pc.Counted? && pc.final) || (pc.Recording? && pc.final) || (pc.Recorded? && pc.final)
  }

  ghost predicate Standing(s: State, pc: Pc) {
    && (pc.Gathering? ==> s.count == |s.execs| && s.gathered.Some? && s.gathered.value <= pc.seen)
    && (pc.Chosen? ==> IsChoice(s, pc.best))
    && (pc.Winning? ==> MayWin(s, pc.index))
    && (BeforeGathering(pc) ==> s.gathered.None?)
  }

  ghost predicate Justified(s: State) {
    && (s.gathered.Some? ==> s.count == |s.execs| && s.gathered.value <= s.recorded)
    && (forall i | 0 <= i < |s.execs| :: Standing(s, s.execs[i].pc))
    && (forall w | w in s.sent :: MayWin(s, w))
  }

  // What stays true of a choice and of a rightful winner as others move on.
  lemma ChoiceStays(s: State, s': State, i: nat, w: nat)
    requires Named(s) && i < |s.execs| && ExecStep(s, s', i)
    requires s'.gathered == s.gathered && s'.count == s.count
    requires s.gathered.Some? ==> s.gathered.value <= s.recorded
    ensures IsChoice(s, w) ==> IsChoice(s', w)
    ensures MayWin(s, w) ==> MayWin(s', w)
  {
    ExecFrame(s, s', i);
    forall j: nat | HasResult(s, j) ensures j < |s'.execs| && HasResult(s', j) && s'.execs[j].out == s.execs[j].out {}
  }

  // Steps that neither count nor begin to gather.
  lemma MovesJustified(s: State, s': State, i: nat)
    requires Inv(s) && Justified(s) && i < |s.execs| && ExecStep(s, s', i)
    requires s'.gathered == s.gathered && s'.count == s.count
    ensures Justified(s')
  {
    ExecFrame(s, s', i);
    forall w: nat ensures (IsChoice(s, w) ==> IsChoice(s', w)) && (MayWin(s, w) ==> MayWin(s', w)) {
      ChoiceStays(s, s', i, w);
    }
    forall j | 0 <= j < |s'.execs| ensures Standing(s', s'.execs[j].pc) {
      assert Standing(s, s.execs[j].pc);
      if j == i {
        MoverStands(s, s', i);
      }
    }
  }

  lemma MoverStands(s: State, s': State, i: nat)
    requires Inv(s) && Justified(s) && i < |s.execs| && ExecStep(s, s', i)
    requires s'.gathered == s.gathered && s'.count == s.count && |s'.execs| == |s.execs|
    requires forall w: nat :: (IsChoice(s, w) ==> IsChoice(s', w)) && (MayWin(s, w) ==> MayWin(s', w))
    ensures Standing(s', s'.execs[i].pc)
  {
    assert Standing(s, s.execs[i].pc);
    match s.execs[i].pc
    case Counted(_) =>
      if s'.execs[i].pc.Winning? {
        assert MayWin(s, i);
      }
    case Gathering(_) => assert IsChoice(s, s'.execs[i].pc.best);
    case Chosen(best) =>
      if s'.execs[i].pc.Winning? {
        assert MayWin(s, best);
      }
    case _ =>
  }

  lemma CountJustified(s: State, s': State, i: nat)
    requires Inv(s) && Justified(s) && i < |s.execs| && ExecStep(s, s', i) && s.execs[i].pc.Finished?
    ensures Justified(s')
  {
    ExecFrame(s, s', i);
    CountBound(s.execs);
    assert s.gathered.None?;
    forall w: nat | MayWin(s, w) ensures MayWin(s', w) {}
    forall j | 0 <= j < |s'.execs| ensures Standing(s', s'.execs[j].pc) {
      assert Standing(s, s.execs[j].pc);
    }
  }

  lemma GatherJustified(s: State, s': State, i: nat)
    requires Inv(s) && OneFinal(s) && Justified(s) && i < |s.execs| && ExecStep(s, s', i)
    requires s.execs[i].pc == Recorded(true)
    ensures Justified(s')
  {
    ExecFrame(s, s', i);
    CountBound(s.execs);
    assert FinalPending(s.execs[i].pc) && Standing(s, s.execs[i].pc);
    forall w: nat | MayWin(s, w) ensures MayWin(s', w) {}
    forall j | 0 <= j < |s'.execs| ensures Standing(s', s'.execs[j].pc) {
      assert Standing(s, s.execs[j].pc);
      if BeforeGathering(s.execs[j].pc) {
        assert FinalPending(s.execs[j].pc);
      }
    }
  }

  lemma WaitJustified(s: State, s': State)
    requires Inv(s) && Justified(s) && WaitStep(s, s')
    ensures Justified(s')
  {
    WaitKeepsOuts(s, s');
    forall w: nat ensures HasResult(s', w) <==> HasResult(s, w) {}
    forall w: nat ensures (IsChoice(s, w) ==> IsChoice(s', w)) && (MayWin(s, w) ==> MayWin(s', w)) {}
    forall j | 0 <= j < |s'.execs| ensures Standing(s', s'.execs[j].pc) {
      assert Standing(s, s.execs[j].pc);
    }
  }

  lemma StepKinds(s: State, s': State, i: nat)
    requires i < |s.execs| && ExecStep(s, s', i)
    ensures s.execs[i].pc.Finished? || s.execs[i].pc == Recorded(true) ||
            (s'.gathered == s.gathered && s'.count == s.count)
  {}

  lemma StepKeepsJustified(s: State, s': State)
    requires Inv(s) && OneFinal(s) && Justified(s) && Step(s, s')
    ensures Justified(s')
  {
    if WaitStep(s, s') {
      WaitJustified(s, s');
    } else {
      var i: nat :| i < |s.execs| && ExecStep(s, s', i);
      StepKinds(s, s', i);
      if s.execs[i].pc.Finished? {
        CountJustified(s, s', i);
      } else if s.execs[i].pc == Recorded(true) {
        GatherJustified(s, s', i);
      } else {
        MovesJustified(s, s', i);
      }
    }
  }

  lemma {:induction false} RunIsJustified(run: seq<State>)
    requires Run(run)
    ensures EagerEnds(run[|run| - 1]) && Justified(run[|run| - 1])
    decreases |run|
  {
    var last := |run| - 1;
    if last > 0 {
      RunPrefix(run, last);
      var init := run[..last];
      RunIsJustified(init);
      RunKeepsInv(init);
      RunKeepsOneFinal(init);
      assert StepAt(run, last - 1);
      StepKeepsEager(run[last - 1], run[last]);
      StepKeepsJustified(run[last - 1], run[last]);
    }
  }

  // Once an execution with a result that the policy may stop on, or with a first
  // result before the delay, is past the flag, a result is sent or about to be.
  lemma EagerResultEndsTheRace(run: seq<State>, i: nat)
    requires Run(run)
    requires var s := run[|run| - 1];
             i < |s.execs| && PastFlag(s.execs[i].pc) && s.execs[i].out.Eager()
    ensures var s := run[|run| - 1]; s.resultSent && (s.sent != [] || exists j: nat :: Winner(s, j))
  {
    RunIsJustified(run);
    RunKeepsInv(run);
  }

  // What is sent is such a result, or everybody was counted and it is the best of
  // what was recorded when the last finisher began to read.
  lemma SentIsEagerOrBest(run: seq<State>, w: nat)
    requires Run(run) && w in run[|run| - 1].sent
    ensures var s := run[|run| - 1];
            && HasResult(s, w)
            && (|| s.execs[w].out.Eager()
                || (&& s.count == |s.execs| && s.gathered.Some? && w in s.recorded
                    && forall j | j in s.gathered.value && j < |s.execs| ::
                         Rank(s.execs[w].out.kind) <= Rank(s.execs[j].out.kind)))
  {
    RunIsJustified(run);
  }

  // The last finisher misses nothing that was recorded when it began to read, itself
  // included.
  lemma GathersAllRecorded(run: seq<State>, s': State)
    requires Run(run) && Step(run[|run| - 1], s') && run[|run| - 1].gathered.None? && s'.gathered.Some?
    ensures var s := run[|run| - 1];
            && s'.gathered.value == s.recorded && s.count == |s.execs|
            && exists i | 0 <= i < |s.execs| :: s'.execs[i].pc.Gathering? && i in s.recorded
  {
    var s := run[|run| - 1];
    RunKeepsInv(run);
    CountBound(s.execs);
    if WaitStep(s, s') {
      WaitKeepsOuts(s, s');
    } else {
      var i: nat :| i < |s.execs| && ExecStep(s, s', i);
      assert FinalPending(s.execs[i].pc) && s'.execs[i].pc.Gathering?;
    }
  }

  // ---- the race always ends ----

  function Weight(pc: Pc): nat {
    match pc
    case NotStarted => 9
    case Running => 8
    case Finished => 7
    case Counted(_) => 6
    case Recording(_) => 5
    case Recorded(_) => 4
    case Gathering(_) => 3
    case Chosen(_) => 2
    case Winning(_) => 1
    case Done => 0
  }

  function Weights(es: seq<Exec>): nat {
    if es == [] then 0 else Weights(es[..|es| - 1]) + Weight(es[|es| - 1].pc)
  }

  lemma {:induction false} WeightUpdate(es: seq<Exec>, i: nat, e: Exec)
    requires i < |es|
    ensures Weights(es[i := e]) == Weights(es) - Weight(es[i].pc) + Weight(e.pc)
  {
    var last := |es| - 1;
    if i == last {
      assert es[i := e][..last] == es[..last];
    } else {
      assert es[i := e][..last] == es[..last][i := e];
      WeightUpdate(es[..last], i, e);
    }
  }

  // What the waiting goroutine has still to do.
  function WaiterWeight(s: State): int {
    match s.waiter
    case Waiting => if s.timer then |s.execs| + 2 else 1
    case Launching(next) => |s.execs| - next + 2
    case _ => 0
  }

  function Remaining(s: State): int {
    Weights(s.execs) + WaiterWeight(s)
  }

  lemma WaitLowers(s: State, s': State)
    requires Launched(s) && WaitStep(s, s')
    ensures 0 <= Remaining(s') < Remaining(s)
  {
    if s.waiter.Launching? && s.waiter.next < |s.execs| {
      WeightUpdate(s.execs, s.waiter.next, s'.execs[s.waiter.next]);
    }
  }

  lemma ExecLowers(s: State, s': State, i: nat)
    requires Launched(s) && i < |s.execs| && ExecStep(s, s', i)
    ensures 0 <= Remaining(s') < Remaining(s)
  {
    ExecFrame(s, s', i);
    WeightUpdate(s.execs, i, s'.execs[i]);
    WeightFalls(s, s', i);
  }

  lemma WeightFalls(s: State, s': State, i: nat)
    requires i < |s.execs| && ExecStep(s, s', i)
    ensures |s'.execs| == |s.execs| && Weight(s'.execs[i].pc) < Weight(s.execs[i].pc)
  {}

  lemma StepLowers(s: State, s': State)
    requires Inv(s) && Step(s, s')
    ensures 0 <= Remaining(s') < Remaining(s)
  {
    if WaitStep(s, s') {
      WaitLowers(s, s');
    } else {
      var i: nat :| i < |s.execs| && ExecStep(s, s', i);
      ExecLowers(s, s', i);
    }
  }

  lemma {:induction false} WeightsBound(es: seq<Exec>)
    ensures Weights(es) <= 9 * |es|
  {
    if es != [] {
      WeightsBound(es[..|es| - 1]);
    }
  }

  // A race of n executions is over after at most 10 n + 2 steps.
  lemma {:induction false} RacesAreShort(run: seq<State>)
    requires Run(run)
    ensures |run| - 1 + Remaining(run[|run| - 1]) <= Remaining(run[0]) <= 10 * |run[0].execs| + 2
    ensures 0 <= Remaining(run[|run| - 1])
    decreases |run|
  {
    var last := |run| - 1;
    if last == 0 {
      WeightsBound(run[0].execs);
    } else {
      RunPrefix(run, last);
      RacesAreShort(run[..last]);
      RunKeepsInv(run[..last]);
      assert StepAt(run, last - 1);
      StepLowers(run[last - 1], run[last]);
    }
  }

  // Among finitely many results one is best.
  lemma {:induction false} BestExists(s: State, g: set<nat>) returns (best: nat)
    requires g != {} && forall i | i in g :: i < |s.execs|
    ensures IsBest(s, g, best)
    decreases |g|
  {
    var i: nat :| i in g;
    var rest := g - {i};
    assert g == rest + {i};
    if rest == {} {
      best := i;
    } else {
      best := BestExists(s, rest);
      if Rank(s.execs[i].out.kind) < Rank(s.execs[best].out.kind) {
        best := i;
      }
    }
  }

  // An execution that was started and is not done can take its next step.
  lemma ExecNeverBlocked(s: State, i: nat) returns (s': State)
    requires Inv(s) && Started(s, i) && !s.execs[i].pc.Done?
    ensures ExecStep(s, s', i)
  {
    match s.execs[i].pc
    case Running =>
      var out := Outcome(false, false, ResultOk);
      s' := s.(execs := s.execs[i := Exec(Finished, out)]);
      assert !out.fast;
    case Finished => s' := Move(s, i, Counted(s.count + 1 == |s.execs|)).(count := s.count + 1);
    case Counted(final) =>
      s' := if s.execs[i].out.Eager() && !s.resultSent then Move(s, i, Winning(i)).(resultSent := true)
            else Move(s, i, Recording(final));
    case Recording(final) => s' := Move(s, i, Recorded(final)).(recorded := s.recorded + {i});
    case Recorded(final) =>
      s' := if final then Move(s, i, Gathering(s.recorded)).(gathered := Some(s.recorded)) else Move(s, i, Done);
    case Gathering(seen) =>
      var best := BestExists(s, seen);
      s' := Move(s, i, Chosen(best));
      assert seen <= seen <= s.recorded && IsBest(s, seen, best);
    case Chosen(best) =>
      s' := if s.resultSent then Move(s, i, Done) else Move(s, i, Winning(best)).(resultSent := true);
    case Winning(index) => s' := Move(s, i, Done).(sent := s.sent + [index]);
  }

  ghost predicate CanStep(s: State) {
    exists s' :: Step(s, s')
  }

  // A race in which nothing can happen any more has returned to its caller, and
  // everything it started is over.
  lemma EndedMeansReturned(run: seq<State>)
    requires Run(run) && !CanStep(run[|run| - 1])
    ensures var s := run[|run| - 1];
            && (s.waiter.Returned? || s.waiter.ParentCancelled?)
            && forall i | 0 <= i < |s.execs| && Started(s, i) :: s.execs[i].pc.Done?
  {
    RunKeepsInv(run);
    var s := run[|run| - 1];
    if i: nat :| Started(s, i) && !s.execs[i].pc.Done? {
      var s' := ExecNeverBlocked(s, i);
      assert Step(s, s');
    }
    if s.waiter.Waiting? {
      WaiterCanGoOn(run);
    } else if s.waiter.Launching? {
      var s' := if s.waiter.next < |s.execs|
                then s.(execs := s.execs[s.waiter.next := s.execs[s.waiter.next].(pc := Running)],
                        waiter := Launching(s.waiter.next + 1))
                else s.(waiter := Waiting);
      assert Step(s, s');
    }
  }

  lemma WaiterCanGoOn(run: seq<State>)
    requires Run(run)
    requires var s := run[|run| - 1];
             s.waiter.Waiting? && forall i | 0 <= i < |s.execs| && Started(s, i) :: s.execs[i].pc.Done?
    ensures CanStep(run[|run| - 1])
  {
    var s := run[|run| - 1];
    if s.sent == [] {
      NoHang(run);
      assert Step(s, s.(timer := false, waiter := Launching(1)));
    } else {
      assert Step(s, s.(waiter := ParentCancelled));
    }
  }
}
