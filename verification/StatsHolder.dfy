/**
 The lock-free swap of the statistics holder
 (internal/stats/generic_stats_service.go) as interleaved steps: any number of
 writers in `AddRequestResults` against the one flusher in `flush`.
 */
module StatsHolder {

  // Only equality of keys matters here.
  type StatsKey = string

  // `Other` is a request result that no statistics are kept for.
  datatype Request = Unary(key: StatsKey) | Other

  datatype Holder = Holder(counter: int, closed: bool, data: map<StatsKey, nat>)

  const NEW_HOLDER := Holder(0, false, map[])

  // Where a writer stands in its loop, and on which holder.
  datatype Pc =
    | Idle
    | Loaded(h: nat)      // the current holder was read
    | Open(h: nat)        // ... and the holder was not closed
    | Counted(h: nat)     // the counter was raised
    | Stale(h: nat)       // another holder became current: lower the counter and retry
    | Confirmed(h: nat)   // the holder was still current
    | Stored(h: nat)      // the key has an entry
    | Leaving(h: nat)     // the request was added: lower the counter

  datatype Writer = Writer(work: seq<Request>, pc: Pc)

  datatype Flusher = Resting | Swapped(h: nat) | Closed(h: nat) | Drained(h: nat)

  // The holders in the order they were installed: the last one is current.
  // `handed` are the maps given to `ProcessStatsData`; `log` are the requests added
  // so far and `dropped` those a cancelled context made their writer give up.
  datatype State = State(holders: seq<Holder>, writers: seq<Writer>, flusher: Flusher,
                         handed: seq<map<StatsKey, nat>>, log: multiset<StatsKey>, dropped: multiset<StatsKey>)
  {
    function Current(): int {
      |holders| - 1
    }
  }

  ghost predicate Init(s: State) {
    && s.holders == [NEW_HOLDER] && s.flusher == Resting && s.handed == []
    && s.log == multiset{} && s.dropped == multiset{}
    && forall w | 0 <= w < |s.writers| :: s.writers[w].pc == Idle
  }

  function Get(data: map<StatsKey, nat>, k: StatsKey): nat {
    if k in data then data[k] else 0
  }

  function Keys(work: seq<Request>): multiset<StatsKey> {
    if work == [] then multiset{}
    else (if work[0].Unary? then multiset{work[0].key} else multiset{}) + Keys(work[1..])
  }

  // ---- the writer's steps ----

  function Move(s: State, w: nat, pc: Pc): State
    requires w < |s.writers|
  {
    s.(writers := s.writers[w := s.writers[w].(pc := pc)])
  }

  function AddToCounter(s: State, h: nat, d: int): State
    requires h < |s.holders|
  {
    s.(holders := s.holders[h := s.holders[h].(counter := s.holders[h].counter + d)])
  }

  function SetData(s: State, h: nat, data: map<StatsKey, nat>): State
    requires h < |s.holders|
  {
    s.(holders := s.holders[h := s.holders[h].(data := data)])
  }

  // The holder a writer refers to exists.
  predicate Known(s: State, pc: Pc) {
    pc.Idle? || pc.h < |s.holders|
  }

  ghost predicate WriterStep(s: State, s': State, w: nat)
    requires w < |s.writers| && s.holders != []
  {
    var me := s.writers[w];
    Known(s, me.pc) &&
    match me.pc
    case Idle =>
      && me.work != []
      // the context may be cancelled at the top of the loop
      && (|| s' == Move(s, w, Loaded(s.Current()))
          || s' == s.(writers := s.writers[w := Writer([], Idle)], dropped := s.dropped + Keys(me.work)))
    case Loaded(h) => s' == Move(s, w, if s.holders[h].closed then Idle else Open(h))
    case Open(h) => s' == Move(AddToCounter(s, h, 1), w, Counted(h))
    case Counted(h) => s' == Move(s, w, if h == s.Current() then Confirmed(h) else Stale(h))
    case Stale(h) => s' == Move(AddToCounter(s, h, -1), w, Idle)
    case Confirmed(h) =>
      && me.work != []
      && if me.work[0].Other? then s' == Move(s, w, Leaving(h))
         else
           var data, k := s.holders[h].data, me.work[0].key;
           s' == Move(SetData(s, h, if k in data then data else data[k := 0]), w, Stored(h))
    case Stored(h) =>
      && me.work != [] && me.work[0].Unary?
      && var data, k := s.holders[h].data, me.work[0].key;
         s' == Move(SetData(s, h, data[k := Get(data, k) + 1]).(log := s.log + multiset{k}), w, Leaving(h))
    case Leaving(h) =>
      && me.work != []
      && s' == AddToCounter(s, h, -1).(writers := s.writers[w := Writer(me.work[1..], Idle)])
  }

  // ---- the flusher's steps ----

  ghost predicate FlushStep(s: State, s': State)
    requires s.holders != []
  {
    match s.flusher
    case Resting => s' == s.(holders := s.holders + [NEW_HOLDER], flusher := Swapped(s.Current()))
    case Swapped(h) =>
      && h < |s.holders|
      && s' == s.(holders := s.holders[h := s.holders[h].(closed := true)], flusher := Closed(h))
    case Closed(h) =>
      && h < |s.holders|
      && s' == s.(flusher := if s.holders[h].counter == 0 then Drained(h) else Closed(h))
    case Drained(h) => h < |s.holders| && s' == s.(handed := s.handed + [s.holders[h].data], flusher := Resting)
  }

  ghost predicate Step(s: State, s': State) {
    && s.holders != []
    && (FlushStep(s, s') || exists w | 0 <= w < |s.writers| :: WriterStep(s, s', w))
  }

  ghost predicate StepAt(run: seq<State>, i: nat) {
    i + 1 < |run| ==> Step(run[i], run[i + 1])
  }

  ghost predicate Run(run: seq<State>) {
    run != [] && Init(run[0]) && forall i: nat :: StepAt(run, i)
  }

  lemma RunPrefix(run: seq<State>, n: nat)
    requires Run(run) && 0 < n <= |run|
    ensures Run(run[..n])
  {
    forall i: nat ensures StepAt(run[..n], i) {
      assert StepAt(run, i);
    }
  }

  // ---- the invariant ----

  // The writer holds the counter of h up.
  predicate Counts(pc: Pc, h: int) {
    !pc.Idle? && !pc.Loaded? && !pc.Open? && pc.h == h
  }

  // The writer may still write to h.
  predicate Writing(pc: Pc, h: int) {
    (pc.Confirmed? || pc.Stored?) && pc.h == h
  }

  function CountAll(ws: seq<Writer>, h: int): nat {
    if ws == [] then 0 else CountAll(ws[..|ws| - 1], h) + if Counts(ws[|ws| - 1].pc, h) then 1 else 0
  }

  // The requests under key k in all holders.
  function Sum(hs: seq<Holder>, k: StatsKey): nat {
    if hs == [] then 0 else Sum(hs[..|hs| - 1], k) + Get(hs[|hs| - 1].data, k)
  }

  // How many holders are past the drain.
  function Sealed(s: State): int {
    |s.handed| + if s.flusher.Drained? then 1 else 0
  }

  // Holders are flushed one by one, in order, and writers know only holders that exist.
  ghost predicate Shape(s: State) {
    && s.holders != []
    && |s.holders| == |s.handed| + (if s.flusher.Resting? then 1 else 2)
    && (!s.flusher.Resting? ==> s.flusher.h == |s.handed|)
    && forall w | 0 <= w < |s.writers| :: Known(s, s.writers[w].pc)
  }

  ghost predicate Counters(s: State) {
    forall h | 0 <= h < |s.holders| :: s.holders[h].counter == CountAll(s.writers, h)
  }

  // No writer is on its way into a holder that was drained.
  ghost predicate Quiet(s: State) {
    forall w, h | 0 <= w < |s.writers| && 0 <= h < Sealed(s) :: !Writing(s.writers[w].pc, h)
  }

  ghost predicate Kept(s: State) {
    |s.handed| <= |s.holders| && forall i | 0 <= i < |s.handed| :: s.handed[i] == s.holders[i].data
  }

  ghost predicate Conserved(s: State) {
    forall k :: s.log[k] == Sum(s.holders, k)
  }

  ghost predicate Inv(s: State) {
    Shape(s) && Counters(s) && Quiet(s) && Kept(s) && Conserved(s)
  }

  lemma {:induction false} CountUpdate(ws: seq<Writer>, w: nat, me: Writer, h: int)
    requires w < |ws|
    ensures CountAll(ws[w := me], h) ==
            CountAll(ws, h) - (if Counts(ws[w].pc, h) then 1 else 0) + (if Counts(me.pc, h) then 1 else 0)
  {
    var last := |ws| - 1;
    if w == last {
      assert ws[w := me][..last] == ws[..last];
    } else {
      assert ws[w := me][..last] == ws[..last][w := me];
      CountUpdate(ws[..last], w, me, h);
    }
  }

  lemma {:induction false} CountedIs(ws: seq<Writer>, w: nat, h: int)
    requires w < |ws| && Counts(ws[w].pc, h)
    ensures CountAll(ws, h) > 0
  {
    if w < |ws| - 1 {
      CountedIs(ws[..|ws| - 1], w, h);
    }
  }

  lemma {:induction false} SumUpdate(hs: seq<Holder>, h: nat, holder: Holder, k: StatsKey)
    requires h < |hs|
    ensures Sum(hs[h := holder], k) == Sum(hs, k) - Get(hs[h].data, k) + Get(holder.data, k)
  {
    var last := |hs| - 1;
    if h == last {
      assert hs[h := holder][..last] == hs[..last];
    } else {
      assert hs[h := holder][..last] == hs[..last][h := holder];
      SumUpdate(hs[..last], h, holder, k);
    }
  }

  // What a writer's step can change: itself and the holder it stands on.
  ghost predicate Touches(s: State, s': State, w: nat, h: nat)
    requires w < |s.writers| && h < |s.holders|
  {
    && |s'.writers| == |s.writers| && s'.writers == s.writers[w := s'.writers[w]]
    && |s'.holders| == |s.holders| && s'.holders == s.holders[h := s'.holders[h]]
    && s'.flusher == s.flusher && s'.handed == s.handed
    && Known(s, s'.writers[w].pc)
    && (forall g: int :: Counts(s.writers[w].pc, g) || Counts(s'.writers[w].pc, g) ==> g == h)
    && s'.holders[h].counter - s.holders[h].counter ==
       (if Counts(s'.writers[w].pc, h) then 1 else 0) - (if Counts(s.writers[w].pc, h) then 1 else 0)
    && (s'.holders[h].data != s.holders[h].data ==> Writing(s.writers[w].pc, h))
    && (forall g: int :: Writing(s'.writers[w].pc, g) ==> Writing(s.writers[w].pc, g) || g == s.Current())
    && (forall k :: s'.log[k] + Get(s.holders[h].data, k) == s.log[k] + Get(s'.holders[h].data, k))
  }

  lemma WriterTouches(s: State, s': State, w: nat)
    requires Shape(s) && w < |s.writers| && WriterStep(s, s', w)
    ensures Touches(s, s', w, if s.writers[w].pc.Idle? then s.Current() else s.writers[w].pc.h)
  {}

  lemma TouchKeepsCounters(s: State, s': State, w: nat, h: nat)
    requires w < |s.writers| && h < |s.holders| && Counters(s) && Touches(s, s', w, h)
    ensures Counters(s')
  {
    forall g | 0 <= g < |s'.holders| ensures s'.holders[g].counter == CountAll(s'.writers, g) {
      CountUpdate(s.writers, w, s'.writers[w], g);
    }
  }

  lemma TouchKeepsData(s: State, s': State, w: nat, h: nat)
    requires Shape(s) && w < |s.writers| && h < |s.holders|
    requires Quiet(s) && Kept(s) && Conserved(s) && Touches(s, s', w, h)
    ensures Quiet(s') && Kept(s') && Conserved(s')
  {
    forall k ensures s'.log[k] == Sum(s'.holders, k) {
      SumUpdate(s.holders, h, s'.holders[h], k);
    }
  }

  lemma WriterKeepsInv(s: State, s': State, w: nat)
    requires Inv(s) && w < |s.writers| && WriterStep(s, s', w)
    ensures Inv(s')
  {
    var h := if s.writers[w].pc.Idle? then s.Current() else s.writers[w].pc.h;
    WriterTouches(s, s', w);
    TouchKeepsCounters(s, s', w, h);
    TouchKeepsData(s, s', w, h);
  }

  lemma {:induction false} NoneCounts(ws: seq<Writer>, h: int)
    requires forall w | 0 <= w < |ws| :: !Counts(ws[w].pc, h)
    ensures CountAll(ws, h) == 0
  {
    if ws != [] {
      NoneCounts(ws[..|ws| - 1], h);
    }
  }

  // A holder that no writer has seen becomes current.
  lemma SwapKeepsInv(s: State, s': State)
    requires Inv(s) && s.flusher.Resting? && FlushStep(s, s')
    ensures Inv(s')
  {
    forall k ensures Sum(s'.holders, k) == Sum(s.holders, k) {
      assert s'.holders[..|s.holders|] == s.holders;
    }
    NoneCounts(s.writers, |s.holders|);
  }

  // The counter is zero and another holder is current: whoever raises it from now
  // on will find that out.
  lemma DrainKeepsInv(s: State, s': State)
    requires Inv(s) && s.flusher.Closed? && FlushStep(s, s')
    ensures Inv(s')
  {
    var h := s.flusher.h;
    if s.holders[h].counter == 0 {
      forall w | 0 <= w < |s.writers| ensures !Counts(s.writers[w].pc, h) {
        if Counts(s.writers[w].pc, h) {
          CountedIs(s.writers, w, h);
        }
      }
    }
  }

  lemma FlushKeepsInv(s: State, s': State)
    requires Inv(s) && FlushStep(s, s')
    ensures Inv(s')
  {
    match s.flusher
    case Resting => SwapKeepsInv(s, s');
    case Swapped(h) =>
      forall k {
        SumUpdate(s.holders, h, s'.holders[h], k);
      }
    case Closed(h) => DrainKeepsInv(s, s');
    case Drained(h) =>
  }

  lemma {:induction false} RunKeepsInv(run: seq<State>)
    requires Run(run)
    ensures Inv(run[|run| - 1])
  {
    var last := |run| - 1;
    if last == 0 {
      NoneCounts(run[0].writers, 0);
      forall k ensures Sum(run[0].holders, k) == 0 {
        assert run[0].holders[..0] == [];
      }
    } else {
      RunPrefix(run, last);
      RunKeepsInv(run[..last]);
      var s, s' := run[last - 1], run[last];
      assert StepAt(run, last - 1);
      if FlushStep(s, s') {
        FlushKeepsInv(s, s');
      } else {
        var w: nat :| w < |s.writers| && WriterStep(s, s', w);
        WriterKeepsInv(s, s', w);
      }
    }
  }

  // ---- what a run guarantees ----

  lemma HandedAt(run: seq<State>, i: nat)
    requires Run(run) && i < |run|
    ensures Kept(run[i])
    ensures i + 1 < |run| ==> run[i].handed <= run[i + 1].handed
  {
    RunPrefix(run, i + 1);
    RunKeepsInv(run[..i + 1]);
    if i + 1 < |run| {
      assert StepAt(run, i);
      HandedGrow(run[i], run[i + 1]);
    }
  }

  // A map given to `ProcessStatsData` never changes again.
  lemma {:induction false} HandedNeverChange(run: seq<State>, i: nat, j: nat, n: nat)
    requires Run(run) && i <= j < |run| && n < |run[i].handed|
    ensures n < |run[j].handed| <= |run[j].holders|
    ensures run[j].holders[n].data == run[i].handed[n] == run[j].handed[n]
    decreases j - i
  {
    HandedAt(run, j);
    if i < j {
      HandedNeverChange(run, i, j - 1, n);
      HandedAt(run, j - 1);
    }
  }

  lemma HandedGrow(s: State, s': State)
    requires Inv(s) && Step(s, s')
    ensures s.handed <= s'.handed
  {
    if !FlushStep(s, s') {
      var w: nat :| w < |s.writers| && WriterStep(s, s', w);
      WriterTouches(s, s', w);
    }
  }

  function HandedSum(handed: seq<map<StatsKey, nat>>, k: StatsKey): nat {
    if handed == [] then 0 else HandedSum(handed[..|handed| - 1], k) + Get(handed[|handed| - 1], k)
  }

  lemma {:induction false} HandedSumIs(handed: seq<map<StatsKey, nat>>, hs: seq<Holder>, k: StatsKey)
    requires |handed| == |hs| && forall i | 0 <= i < |hs| :: handed[i] == hs[i].data
    ensures HandedSum(handed, k) == Sum(hs, k)
  {
    if hs != [] {
      HandedSumIs(handed[..|hs| - 1], hs[..|hs| - 1], k);
    }
  }

  // Nothing is lost and nothing counted twice: whenever no flush is under way,
  // the requests added so far are those handed off plus those in the live holder.
  lemma AddsAreConserved(run: seq<State>, k: StatsKey)
    requires Run(run) && run[|run| - 1].flusher.Resting?
    ensures var s := run[|run| - 1];
            s.holders != [] && s.log[k] == HandedSum(s.handed, k) + Get(s.holders[s.Current()].data, k)
  {
    RunKeepsInv(run);
    var s := run[|run| - 1];
    HandedSumIs(s.handed, s.holders[..s.Current()], k);
  }

  // During a flush the holder being drained is the one other place.
  lemma AddsAreConservedInFlush(run: seq<State>, k: StatsKey)
    requires Run(run) && !run[|run| - 1].flusher.Resting?
    ensures var s := run[|run| - 1];
            && |s.holders| >= 2 && s.flusher.h == s.Current() - 1
            && s.log[k] ==
               HandedSum(s.handed, k) + Get(s.holders[s.flusher.h].data, k) + Get(s.holders[s.Current()].data, k)
  {
    RunKeepsInv(run);
    var s := run[|run| - 1];
    var older := s.holders[..s.Current()];
    assert older[..|older| - 1] == s.holders[..s.Current() - 1];
    assert s.log[k] == Sum(s.holders, k) == Sum(older, k) + Get(s.holders[s.Current()].data, k);
    HandedSumIs(s.handed, older[..|older| - 1], k);
  }

  // The requests a writer has still to add.
  function Todo(w: Writer): multiset<StatsKey> {
    if w.pc.Leaving? && w.work != [] then Keys(w.work[1..]) else Keys(w.work)
  }

  function TodoAll(ws: seq<Writer>, k: StatsKey): nat {
    if ws == [] then 0 else TodoAll(ws[..|ws| - 1], k) + Todo(ws[|ws| - 1])[k]
  }

  lemma {:induction false} TodoUpdate(ws: seq<Writer>, w: nat, me: Writer, k: StatsKey)
    requires w < |ws|
    ensures TodoAll(ws[w := me], k) + Todo(ws[w])[k] == TodoAll(ws, k) + Todo(me)[k]
  {
    var last := |ws| - 1;
    if w == last {
      assert ws[w := me][..last] == ws[..last];
    } else {
      assert ws[w := me][..last] == ws[..last][w := me];
      TodoUpdate(ws[..last], w, me, k);
    }
  }

  lemma WriterKeepsTotal(s: State, s': State, w: nat, k: StatsKey)
    requires s.holders != [] && w < |s.writers| && WriterStep(s, s', w)
    ensures s'.log[k] + s'.dropped[k] + Todo(s'.writers[w])[k] == s.log[k] + s.dropped[k] + Todo(s.writers[w])[k]
    ensures s'.writers == s.writers[w := s'.writers[w]]
  {}

  function Total(s: State, k: StatsKey): nat {
    s.log[k] + s.dropped[k] + TodoAll(s.writers, k)
  }

  lemma StepKeepsTotal(s: State, s': State, k: StatsKey)
    requires Step(s, s')
    ensures Total(s', k) == Total(s, k)
  {
    if !FlushStep(s, s') {
      var w: nat :| w < |s.writers| && WriterStep(s, s', w);
      WriterKeepsTotal(s, s', w, k);
      TodoUpdate(s.writers, w, s'.writers[w], k);
    }
  }

  lemma {:induction false} TotalIsKept(run: seq<State>, k: StatsKey)
    requires Run(run)
    ensures Total(run[|run| - 1], k) == TodoAll(run[0].writers, k)
  {
    var last := |run| - 1;
    if last > 0 {
      RunPrefix(run, last);
      TotalIsKept(run[..last], k);
      assert StepAt(run, last - 1);
      StepKeepsTotal(run[last - 1], run[last], k);
    }
  }

  // When every call has returned without being cancelled and no flush is under
  // way, each request of each call is in exactly one place, once.
  lemma EveryRequestOnce(run: seq<State>, k: StatsKey)
    requires Run(run)
    requires var s := run[|run| - 1];
             && s.flusher.Resting? && s.dropped == multiset{}
             && forall w | 0 <= w < |s.writers| :: s.writers[w].work == []
    ensures var s := run[|run| - 1];
            && s.holders != []
            && TodoAll(run[0].writers, k) == HandedSum(s.handed, k) + Get(s.holders[s.Current()].data, k)
  {
    TotalIsKept(run, k);
    AddsAreConserved(run, k);
    NothingTodo(run[|run| - 1].writers, k);
  }

  lemma {:induction false} NothingTodo(ws: seq<Writer>, k: StatsKey)
    requires forall w | 0 <= w < |ws| :: ws[w].work == []
    ensures TodoAll(ws, k) == 0
  {
    if ws != [] {
      NothingTodo(ws[..|ws| - 1], k);
    }
  }
}
