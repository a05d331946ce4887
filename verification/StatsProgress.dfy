/**
 What the swap of the statistics holder (StatsHolder) never prevents: a writer
 that keeps taking steps adds its request, a flush ends once the writers inside
 have left, and so every run can be completed.
 */
module StatsProgress {
  import opened StatsHolder

  // ---- what the writers rely on ----

  // The current holder is open, and a writer inside its loop has a request in hand.
  ghost predicate Ready(s: State) {
    && s.holders != [] && !s.holders[s.Current()].closed
    && forall w | 0 <= w < |s.writers| :: InHand(s.writers[w])
  }

  predicate InHand(me: Writer) {
    && (!me.pc.Idle? ==> me.work != [])
    && (me.pc.Stored? ==> me.work[0].Unary?)
  }

  lemma WriterInHand(s: State, s': State, w: nat)
    requires s.holders != [] && w < |s.writers| && InHand(s.writers[w]) && WriterStep(s, s', w)
    ensures s'.writers == s.writers[w := s'.writers[w]] && InHand(s'.writers[w])
  {}

  lemma WriterKeepsClosed(s: State, s': State, w: nat)
    requires s.holders != [] && w < |s.writers| && WriterStep(s, s', w)
    ensures |s'.holders| == |s.holders| && s'.holders[s.Current()].closed == s.holders[s.Current()].closed
  {}

  lemma StepKeepsReady(s: State, s': State)
    requires Shape(s) && Ready(s) && Step(s, s')
    ensures Ready(s')
  {
    if !FlushStep(s, s') {
      var w: nat :| w < |s.writers| && WriterStep(s, s', w);
      WriterInHand(s, s', w);
      WriterKeepsClosed(s, s', w);
    }
  }

  lemma {:induction false} RunIsReady(run: seq<State>)
    requires Run(run)
    ensures Inv(run[|run| - 1]) && Ready(run[|run| - 1])
  {
    RunPrefix(run, 1);
    RunKeepsInv(run[..1]);
    PathKeeps(run, run[0], run[|run| - 1]);
  }

  // ---- how far a writer is from having added its request ----

  const FARTHEST: nat := 11

  // Steps of its own that a writer needs at most while no other holder becomes current.
  function Distance(pc: Pc, current: int): (d: nat)
    ensures d <= FARTHEST
  {
    match pc
    case Leaving(_) => 1
    case Stored(_) => 2
    case Confirmed(_) => 3
    case Idle => 7
    case Counted(h) => if h == current then 4 else 9
    case Open(h) => if h == current then 5 else 10
    case Loaded(h) => if h == current then 6 else FARTHEST
    case Stale(_) => 8
  }

  // A writer with a request in hand can always take a step without giving up.
  lemma NeverBlocked(s: State, w: nat) returns (s': State)
    requires Inv(s) && Ready(s) && w < |s.writers| && s.writers[w].work != []
    ensures WriterStep(s, s', w) && s'.dropped == s.dropped
    ensures s.writers[w].pc.Idle? ==> !s'.writers[w].pc.Idle?
  {
    var me := s.writers[w];
    match me.pc
    case Idle => s' := Move(s, w, Loaded(s.Current()));
    case Loaded(h) => s' := Move(s, w, if s.holders[h].closed then Idle else Open(h));
    case Open(h) => s' := Move(AddToCounter(s, h, 1), w, Counted(h));
    case Counted(h) => s' := Move(s, w, if h == s.Current() then Confirmed(h) else Stale(h));
    case Stale(h) => s' := Move(AddToCounter(s, h, -1), w, Idle);
    case Confirmed(h) =>
      if me.work[0].Other? {
        s' := Move(s, w, Leaving(h));
      } else {
        var data, k := s.holders[h].data, me.work[0].key;
        s' := Move(SetData(s, h, if k in data then data else data[k := 0]), w, Stored(h));
      }
    case Stored(h) =>
      var data, k := s.holders[h].data, me.work[0].key;
      s' := Move(SetData(s, h, data[k := Get(data, k) + 1]).(log := s.log + multiset{k}), w, Leaving(h));
    case Leaving(h) =>
      s' := AddToCounter(s, h, -1).(writers := s.writers[w := Writer(me.work[1..], Idle)]);
  }

  // Every step of its own brings a writer closer, or ends its request or its call.
  lemma StepIsCloser(s: State, s': State, w: nat)
    requires Inv(s) && Ready(s) && w < |s.writers| && WriterStep(s, s', w)
    ensures |s'.writers| == |s.writers| && s'.Current() == s.Current()
    ensures var me, me' := s.writers[w], s'.writers[w];
            if me'.work == me.work then Distance(me'.pc, s.Current()) < Distance(me.pc, s.Current())
            else me'.pc.Idle? && |me'.work| < |me.work|
  {
    WriterTouches(s, s', w);
  }

  // Steps of others leave a writer where it is, unless they make another holder current.
  lemma OthersDoNotHinder(s: State, s': State, w: nat)
    requires Inv(s) && w < |s.writers|
    requires FlushStep(s, s') || exists v: nat :: v < |s.writers| && v != w && WriterStep(s, s', v)
    ensures |s'.writers| == |s.writers| && s'.writers[w] == s.writers[w]
    ensures s'.Current() == s.Current() || (s'.Current() == s.Current() + 1 && FlushStep(s, s'))
  {
    if !FlushStep(s, s') {
      var v: nat :| v < |s.writers| && v != w && WriterStep(s, s', v);
      WriterTouches(s, s', v);
    }
  }

  // ---- under every schedule ----

  // How often writer w moved between the states i and j of a run.
  ghost function Moves(run: seq<State>, i: nat, j: nat, w: nat): nat
    requires i <= j < |run| && forall t | 0 <= t < |run| :: w < |run[t].writers|
    decreases j
  {
    if i == j then 0
    else Moves(run, i, j - 1, w) + if run[j].writers[w] != run[j - 1].writers[w] then 1 else 0
  }

  // Lock freedom: however the others are scheduled, a writer that keeps its request
  // moves at most eleven times for each holder that was current meanwhile.
  lemma {:induction false} LockFree(run: seq<State>, i: nat, j: nat, w: nat)
    requires Run(run) && i <= j < |run| && forall t | 0 <= t < |run| :: w < |run[t].writers|
    requires forall t | i <= t <= j :: run[t].writers[w].work == run[i].writers[w].work
    ensures run[j].Current() >= run[i].Current()
    ensures Moves(run, i, j, w) <= FARTHEST * (1 + run[j].Current() - run[i].Current())
  {
    MovesBound(run, i, j, w);
  }

  lemma {:induction false} MovesBound(run: seq<State>, i: nat, j: nat, w: nat)
    requires Run(run) && i <= j < |run| && forall t | 0 <= t < |run| :: w < |run[t].writers|
    requires forall t | i <= t <= j :: run[t].writers[w].work == run[i].writers[w].work
    ensures run[j].Current() >= run[i].Current()
    ensures Moves(run, i, j, w) + Distance(run[j].writers[w].pc, run[j].Current()) <=
            FARTHEST * (1 + run[j].Current() - run[i].Current())
    decreases j
  {
    if i < j {
      MovesBound(run, i, j - 1, w);
      RunPrefix(run, j);
      RunIsReady(run[..j]);
      assert StepAt(run, j - 1);
      OneStep(run[j - 1], run[j], w);
    }
  }

  lemma OneStep(s: State, s': State, w: nat)
    requires Inv(s) && Ready(s) && Step(s, s') && w < |s.writers| && w < |s'.writers|
    requires s'.writers[w].work == s.writers[w].work
    ensures s'.Current() == s.Current() || (s'.Current() == s.Current() + 1 && s'.writers[w] == s.writers[w])
    ensures s'.Current() == s.Current() ==>
              || s'.writers[w] == s.writers[w]
              || Distance(s'.writers[w].pc, s'.Current()) < Distance(s.writers[w].pc, s.Current())
  {
    if FlushStep(s, s') {
      OthersDoNotHinder(s, s', w);
    } else {
      var v: nat :| v < |s.writers| && WriterStep(s, s', v);
      if v == w {
        StepIsCloser(s, s', w);
      } else {
        OthersDoNotHinder(s, s', w);
      }
    }
  }

  // ---- a writer on its own ----

  // Where the request in hand will be counted if no other holder becomes current.
  function Target(s: State, w: nat): int
    requires w < |s.writers|
  {
    var pc := s.writers[w].pc;
    if pc.Confirmed? || pc.Stored? || pc.Leaving? then pc.h else s.Current()
  }

  // What the request in hand still adds.
  function Adds(me: Writer): multiset<StatsKey> {
    if me.work == [] || me.pc.Leaving? || me.work[0].Other? then multiset{} else multiset{me.work[0].key}
  }

  // Nothing but the target's data, the counters and the writer changes, and what
  // is added is added there.
  ghost predicate AddsTo(s: State, s': State, w: nat, h: int, added: multiset<StatsKey>)
    requires w < |s.writers| && 0 <= h < |s.holders|
  {
    && |s'.holders| == |s.holders| && s'.flusher == s.flusher && s'.handed == s.handed && s'.dropped == s.dropped
    && |s'.writers| == |s.writers| && s'.writers == s.writers[w := s'.writers[w]]
    && (forall g | 0 <= g < |s.holders| && g != h :: s'.holders[g].data == s.holders[g].data)
    && (forall k :: Get(s'.holders[h].data, k) == Get(s.holders[h].data, k) + added[k])
    && s'.log == s.log + added
  }

  // A step that does not give the call up.
  ghost predicate Solo(s: State, s': State, w: nat) {
    && s.holders != [] && w < |s.writers| && WriterStep(s, s', w) && |s'.writers| == |s.writers|
    && s'.dropped == s.dropped && (s.writers[w].pc.Idle? ==> !s'.writers[w].pc.Idle?)
  }

  lemma SoloMoves(s: State, s': State, w: nat)
    requires Solo(s, s', w) && InHand(s.writers[w])
    ensures |s'.holders| == |s.holders|
    ensures var me, me' := s.writers[w], s'.writers[w];
            if me.pc.Leaving? then me' == Writer(me.work[1..], Idle)
            else me'.work == me.work && (me'.pc.Leaving? <==> me.pc.Stored? || (me.pc.Confirmed? && me.work[0].Other?))
  {}

  lemma SoloKeepsTarget(s: State, s': State, w: nat)
    requires Solo(s, s', w) && InHand(s.writers[w]) && !s.writers[w].pc.Leaving?
    ensures Target(s', w) == Target(s, w)
  {}

  lemma SoloAdds(s: State, s': State, w: nat)
    requires Solo(s, s', w) && InHand(s.writers[w])
    ensures 0 <= Target(s, w) < |s.holders|
    ensures AddsTo(s, s', w, Target(s, w), if s.writers[w].pc.Stored? then Adds(s.writers[w]) else multiset{})
  {}

  ghost predicate Path(path: seq<State>) {
    path != [] && forall i: nat :: StepAt(path, i)
  }

  ghost predicate Leads(path: seq<State>, s: State, t: State) {
    Path(path) && path[0] == s && path[|path| - 1] == t
  }

  lemma {:induction false} PathKeeps(path: seq<State>, s: State, t: State)
    requires Leads(path, s, t) && Inv(s) && Ready(s)
    ensures Inv(t) && Ready(t)
    decreases |path|
  {
    if |path| > 1 {
      var init := path[..|path| - 1];
      forall i: nat ensures StepAt(init, i) {
        assert StepAt(path, i);
      }
      PathKeeps(init, s, init[|init| - 1]);
      assert StepAt(path, |path| - 2);
      StepKeeps(init[|init| - 1], t);
    }
  }

  lemma StepKeeps(s: State, s': State)
    requires Inv(s) && Ready(s) && Step(s, s')
    ensures Inv(s') && Ready(s')
  {
    StepKeepsReady(s, s');
    if FlushStep(s, s') {
      FlushKeepsInv(s, s');
    } else {
      var w: nat :| w < |s.writers| && WriterStep(s, s', w);
      WriterKeepsInv(s, s', w);
    }
  }

  lemma Extends(s: State, s': State, path: seq<State>, t: State)
    requires Step(s, s') && Leads(path, s', t)
    ensures Leads([s] + path, s, t)
  {
    var all := [s] + path;
    forall i: nat ensures StepAt(all, i) {
      if i > 0 {
        assert StepAt(path, i - 1);
      }
    }
  }

  // One step on the way, and all that is known of it.
  lemma AloneStep(s: State, w: nat) returns (s': State)
    requires Inv(s) && Ready(s) && w < |s.writers| && s.writers[w].work != []
    ensures Step(s, s') && Inv(s') && Ready(s') && |s'.writers| == |s.writers| && |s'.holders| == |s.holders|
    ensures 0 <= Target(s, w) < |s.holders|
    ensures AddsTo(s, s', w, Target(s, w), if s.writers[w].pc.Stored? then Adds(s.writers[w]) else multiset{})
    ensures var me, me' := s.writers[w], s'.writers[w];
            if me.pc.Leaving? then me' == Writer(me.work[1..], Idle)
            else
              && me'.work == me.work && Target(s', w) == Target(s, w)
              && Adds(me') == (if me.pc.Stored? then multiset{} else Adds(me))
              && Distance(me'.pc, s'.Current()) < Distance(me.pc, s.Current())
  {
    s' := NeverBlocked(s, w);
    StepKeeps(s, s');
    StepIsCloser(s, s', w);
    SoloMoves(s, s', w);
    SoloAdds(s, s', w);
    if !s.writers[w].pc.Leaving? {
      SoloKeepsTarget(s, s', w);
    }
  }

  // Left alone, a writer is through with its request after at most eleven steps:
  // the request is counted once, in the holder it was about to use or, before
  // that was settled, in the current one, and nothing else changes.
  lemma {:induction false} FinishesAlone(s: State, w: nat) returns (path: seq<State>, t: State)
    requires Inv(s) && Ready(s) && w < |s.writers| && s.writers[w].work != []
    ensures Leads(path, s, t) && |path| <= 1 + Distance(s.writers[w].pc, s.Current()) <= 1 + FARTHEST
    ensures 0 <= Target(s, w) < |s.holders| && AddsTo(s, t, w, Target(s, w), Adds(s.writers[w]))
    ensures t.writers[w] == Writer(s.writers[w].work[1..], Idle)
    decreases Distance(s.writers[w].pc, s.Current())
  {
    var s' := AloneStep(s, w);
    if s.writers[w].pc.Leaving? {
      path, t := [s'], s';
    } else {
      path, t := FinishesAlone(s', w);
      AddsJoin(s, s', t, w);
    }
    Extends(s, s', path, t);
    path := [s] + path;
  }

  lemma AddsJoin(s: State, s': State, t: State, w: nat)
    requires w < |s.writers| && 0 <= Target(s, w) < |s.holders| && |s'.holders| == |s.holders|
    requires |s'.writers| == |s.writers| && Target(s', w) == Target(s, w)
    requires AddsTo(s, s', w, Target(s, w), if s.writers[w].pc.Stored? then Adds(s.writers[w]) else multiset{})
    requires Adds(s'.writers[w]) == if s.writers[w].pc.Stored? then multiset{} else Adds(s.writers[w])
    requires AddsTo(s', t, w, Target(s, w), Adds(s'.writers[w]))
    ensures AddsTo(s, t, w, Target(s, w), Adds(s.writers[w]))
  {}

  // Between requests a cancelled writer leaves at once: the rest of its requests count
  // as dropped, and no counter and no map shows them.
  lemma CancelledLeaves(s: State, w: nat) returns (s': State)
    requires Inv(s) && w < |s.writers| && s.writers[w].pc.Idle? && s.writers[w].work != []
    ensures Step(s, s') && s'.writers[w] == Writer([], Idle)
    ensures s'.dropped == s.dropped + Keys(s.writers[w].work) && s'.holders == s.holders && s'.log == s.log
  {
    s' := s.(writers := s.writers[w := Writer([], Idle)], dropped := s.dropped + Keys(s.writers[w].work));
    assert WriterStep(s, s', w);
  }

  // ---- a flush on its own ----

  // Once the writers inside the holder have left, the flush ends after at most
  // three steps, and hands off exactly the map of that holder.
  lemma {:induction false} FlushEnds(s: State) returns (path: seq<State>, t: State)
    requires Inv(s) && Ready(s) && !s.flusher.Resting?
    requires forall w | 0 <= w < |s.writers| :: !Counts(s.writers[w].pc, s.flusher.h)
    ensures Leads(path, s, t) && |path| <= 1 + StepsLeft(s.flusher) <= 4
    ensures Inv(t) && Ready(t) && s.flusher.h < |s.holders|
    ensures t.flusher.Resting? && t.handed == s.handed + [s.holders[s.flusher.h].data]
    ensures t.writers == s.writers && t.log == s.log && t.dropped == s.dropped
    decreases StepsLeft(s.flusher)
  {
    var h := s.flusher.h;
    NoneCounts(s.writers, h);
    var s' :=
      if s.flusher.Swapped? then s.(holders := s.holders[h := s.holders[h].(closed := true)], flusher := Closed(h))
      else if s.flusher.Closed? then s.(flusher := Drained(h))
      else s.(handed := s.handed + [s.holders[h].data], flusher := Resting);
    assert FlushStep(s, s');
    StepKeeps(s, s');
    path, t := [s'], s';
    if !s.flusher.Drained? {
      path, t := FlushEnds(s');
    }
    Extends(s, s', path, t);
    path := [s] + path;
  }

  function StepsLeft(f: Flusher): nat {
    match f
    case Resting => 0
    case Swapped(_) => 3
    case Closed(_) => 2
    case Drained(_) => 1
  }

  // ---- every run can be completed ----

  function Left(ws: seq<Writer>): nat {
    if ws == [] then 0 else Left(ws[..|ws| - 1]) + |ws[|ws| - 1].work|
  }

  lemma {:induction false} LeftUpdate(ws: seq<Writer>, w: nat, me: Writer)
    requires w < |ws|
    ensures Left(ws[w := me]) == Left(ws) - |ws[w].work| + |me.work|
  {
    var last := |ws| - 1;
    if w == last {
      assert ws[w := me][..last] == ws[..last];
    } else {
      assert ws[w := me][..last] == ws[..last][w := me];
      LeftUpdate(ws[..last], w, me);
    }
  }

  ghost predicate AllReturned(s: State) {
    forall w | 0 <= w < |s.writers| :: s.writers[w].work == []
  }

  lemma {:induction false} WritersFinish(s: State) returns (path: seq<State>, t: State)
    requires Inv(s) && Ready(s)
    ensures Leads(path, s, t) && Inv(t) && Ready(t) && AllReturned(t)
    ensures t.flusher == s.flusher && t.dropped == s.dropped
    decreases Left(s.writers)
  {
    path, t := [s], s;
    if w: nat :| w < |s.writers| && s.writers[w].work != [] {
      var first, u := FinishesAlone(s, w);
      PathKeeps(first, s, u);
      LeftUpdate(s.writers, w, u.writers[w]);
      path, t := WritersFinish(u);
      Joins(first, path, s, u, t);
      path := first + path[1..];
    }
  }

  lemma Joins(a: seq<State>, b: seq<State>, s: State, u: State, t: State)
    requires Leads(a, s, u) && Leads(b, u, t)
    ensures Leads(a + b[1..], s, t)
  {
    var all := a + b[1..];
    forall i: nat ensures StepAt(all, i) {
      if i + 1 < |a| {
        assert StepAt(a, i);
      } else {
        assert StepAt(b, i - |a| + 1);
      }
    }
  }

  // Whatever has happened, the writers can all return without giving up and the
  // flush under way can end; then every request of every call is counted once.
  lemma CanComplete(run: seq<State>, k: StatsKey) returns (all: seq<State>)
    requires Run(run)
    ensures Run(all) && run <= all
    ensures var s, t := run[|run| - 1], all[|all| - 1];
            && AllReturned(t) && t.flusher.Resting? && t.dropped == s.dropped && t.holders != []
            && (s.dropped == multiset{} ==>
                  TodoAll(run[0].writers, k) == HandedSum(t.handed, k) + Get(t.holders[t.Current()].data, k))
  {
    RunIsReady(run);
    var s := run[|run| - 1];
    var path, t := WritersFinish(s);
    if !t.flusher.Resting? {
      var more, u := FlushEnds(t);
      Joins(path, more, s, t, u);
      path, t := path + more[1..], u;
    }
    Joins(run, path, run[0], s, t);
    all := run + path[1..];
    if s.dropped == multiset{} {
      EveryRequestOnce(all, k);
    }
  }
}
