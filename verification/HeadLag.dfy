/**
 Telling upstreams how far they are behind (internal/upstreams/chain_supervisor.go,
 calculateHeadLags): a lag is pushed only when it crosses the syncing threshold.
 */
module HeadLag {
  import opened Protocol
  import opened ChainAggregates

  // Per upstream: whether the last lag seen was over the threshold, the lag the
  // upstream was last told, and the history of both.
  datatype LagEntry = LagEntry(over: bool, told: int, overs: seq<bool>, pushes: nat)

  type Lags = map<string, LagEntry>

  const FRESH := LagEntry(false, 0, [], 0)

  function TrueLag(head: Block, own: Block): nat {
    if head.height >= own.height then head.height - own.height else 0
  }

  function Step(e: LagEntry, lag: int, syncingLag: int): LagEntry {
    var now := LagExceeds(lag, syncingLag);
    if e.over != now then LagEntry(now, lag, e.overs + [now], e.pushes + 1)
    else e.(overs := e.overs + [now])
  }

  // The number of times a series of booleans changes, starting from `was`.
  ghost function Flips(was: bool, series: seq<bool>): nat {
    if series == [] then 0
    else
      var init := series[..|series| - 1];
      Flips(was, init) + if series[|series| - 1] == Last(was, init) then 0 else 1
  }

  ghost function Last(was: bool, series: seq<bool>): bool {
    if series == [] then was else series[|series| - 1]
  }

  // The upstream still acts on a lag over the threshold that the supervisor forgot about.
  predicate Forgotten(e: LagEntry, syncingLag: int) {
    !e.over && LagExceeds(e.told, syncingLag)
  }

  // What the supervisor remembers of an upstream fits what it told the upstream,
  // and as long as it forgot nothing it pushed once per crossing.
  ghost predicate Tracked(e: LagEntry, syncingLag: int, wasRemoved: bool) {
    && (e.over ==> LagExceeds(e.told, syncingLag))
    && (!wasRemoved ==>
          && !Forgotten(e, syncingLag)
          && e.over == Last(false, e.overs) && e.pushes == Flips(false, e.overs))
  }

  // The upstream derives from the lag it was told the status that its lag gives.
  ghost predicate StatusRight(e: LagEntry, lag: int, syncingLag: int) {
    forall avail: Status :: StatusByLag(e.told, avail, syncingLag) == StatusByLag(lag, avail, syncingLag)
  }

  lemma StepKeepsTrack(e: LagEntry, lag: int, syncingLag: int, wasRemoved: bool)
    requires Tracked(e, syncingLag, wasRemoved)
    ensures Tracked(Step(e, lag, syncingLag), syncingLag, wasRemoved)
  {
    FlipsAppend(e.overs, LagExceeds(lag, syncingLag));
  }

  lemma FlipsAppend(series: seq<bool>, next: bool)
    ensures Last(false, series + [next]) == next
    ensures Flips(false, series + [next]) == Flips(false, series) + if next == Last(false, series) then 0 else 1
  {
    assert (series + [next])[..|series|] == series;
  }

  // Pushing at crossings only is as good as pushing every lag, exactly unless a
  // lag over the threshold was forgotten and the current one is not over it.
  lemma StepIsEnough(e: LagEntry, lag: int, syncingLag: int, wasRemoved: bool)
    requires Tracked(e, syncingLag, wasRemoved)
    ensures StatusRight(Step(e, lag, syncingLag), lag, syncingLag) <==>
            !(Forgotten(e, syncingLag) && !LagExceeds(lag, syncingLag))
    ensures Forgotten(Step(e, lag, syncingLag), syncingLag) <==>
            Forgotten(e, syncingLag) && !LagExceeds(lag, syncingLag)
  {
    StatusSeesOnlyTheThreshold(Step(e, lag, syncingLag).told, lag, syncingLag);
  }

  // Pushing every lag instead.
  function PushAlways(e: LagEntry, lag: int, syncingLag: int): LagEntry {
    LagEntry(LagExceeds(lag, syncingLag), lag, e.overs + [LagExceeds(lag, syncingLag)], e.pushes + 1)
  }

  function Run(e: LagEntry, lags: seq<int>, syncingLag: int): LagEntry {
    if lags == [] then e else Step(Run(e, lags[..|lags| - 1], syncingLag), lags[|lags| - 1], syncingLag)
  }

  function RunAlways(e: LagEntry, lags: seq<int>, syncingLag: int): LagEntry {
    if lags == [] then e else PushAlways(RunAlways(e, lags[..|lags| - 1], syncingLag), lags[|lags| - 1], syncingLag)
  }

  // Over every series of lags: the upstream derives the same status, whatever its
  // own availability, as if it had been told every lag; and it is told no more
  // often than the lag crosses the threshold.
  lemma {:induction false} EdgesAreEnough(lags: seq<int>, syncingLag: int)
    ensures var e, all := Run(FRESH, lags, syncingLag), RunAlways(FRESH, lags, syncingLag);
            && (forall avail: Status ::
                  StatusByLag(e.told, avail, syncingLag) == StatusByLag(all.told, avail, syncingLag))
            && e.overs == all.overs
            && e.pushes == Flips(false, e.overs) <= all.pushes == |lags|
            && Tracked(e, syncingLag, false)
  {
    if lags != [] {
      var init, lag := lags[..|lags| - 1], lags[|lags| - 1];
      EdgesAreEnough(init, syncingLag);
      var e := Run(FRESH, init, syncingLag);
      StepKeepsTrack(e, lag, syncingLag, false);
      StepIsEnough(e, lag, syncingLag, false);
    }
  }

  // ---- all upstreams at once ----

  function ObserveAll(lags: Lags, table: Table, head: Block, syncingLag: int): Lags {
    map id | id in lags :: if id in table then Step(lags[id], TrueLag(head, table[id].head), syncingLag) else lags[id]
  }

  ghost predicate AllTracked(lags: Lags, syncingLag: int, removed: set<string>) {
    forall id | id in lags :: Tracked(lags[id], syncingLag, id in removed)
  }

  // What an upstream at this height makes of its availability: it is syncing exactly
  // if it would be available, there is a threshold, and the chain's head is more
  // than that many blocks ahead of it.
  ghost predicate ActsRight(e: LagEntry, chainHeight: nat, height: nat, syncingLag: int) {
    forall avail: Status ::
      StatusByLag(e.told, avail, syncingLag) ==
      if avail == AVAILABLE && syncingLag > 0 && height + syncingLag < chainHeight then SYNCING else avail
  }

  // An upstream told its lag, or one on the same side of the threshold, does so.
  lemma RightOnHeights(e: LagEntry, head: Block, own: Block, syncingLag: int)
    requires StatusRight(e, TrueLag(head, own), syncingLag)
    ensures ActsRight(e, head.height, own.height, syncingLag)
  {
    forall avail: Status
      ensures StatusByLag(e.told, avail, syncingLag) ==
              if avail == AVAILABLE && syncingLag > 0 && own.height + syncingLag < head.height then SYNCING else avail
    {
      assert StatusByLag(e.told, avail, syncingLag) == StatusByLag(TrueLag(head, own), avail, syncingLag);
    }
  }

  // Every upstream that was never removed acts on the heights as they are.
  ghost predicate AllRight(lags: Lags, table: Table, head: Block, syncingLag: int, removed: set<string>) {
    forall id | id in lags && id in table && id !in removed ::
      ActsRight(lags[id], head.height, table[id].head.height, syncingLag)
  }

  lemma ObserveAllRight(lags: Lags, table: Table, head: Block, syncingLag: int, removed: set<string>)
    requires AllTracked(lags, syncingLag, removed)
    ensures var after := ObserveAll(lags, table, head, syncingLag);
            && AllTracked(after, syncingLag, removed)
            && AllRight(after, table, head, syncingLag, removed)
            && NoneForgotten(lags, after, syncingLag)
  {
    forall id | id in lags && id in table
      ensures var lag := TrueLag(head, table[id].head);
              && Tracked(Step(lags[id], lag, syncingLag), syncingLag, id in removed)
              && (id !in removed ==>
                    ActsRight(Step(lags[id], lag, syncingLag), head.height, table[id].head.height, syncingLag))
              && (Forgotten(Step(lags[id], lag, syncingLag), syncingLag) ==> Forgotten(lags[id], syncingLag))
    {
      StepKeepsTrack(lags[id], TrueLag(head, table[id].head), syncingLag, id in removed);
      StepIsEnough(lags[id], TrueLag(head, table[id].head), syncingLag, id in removed);
      if id !in removed {
        RightOnHeights(Step(lags[id], TrueLag(head, table[id].head), syncingLag), head, table[id].head, syncingLag);
      }
    }
  }

  // No lag was forgotten that was not forgotten before.
  ghost predicate NoneForgotten(before: Lags, after: Lags, syncingLag: int) {
    && after.Keys == before.Keys
    && forall id | id in after && Forgotten(after[id], syncingLag) :: Forgotten(before[id], syncingLag)
  }

  // Forgetting an upstream that was over the threshold.
  function Forget(lags: Lags, id: string): Lags {
    if id in lags then lags[id := lags[id].(over := false)] else lags
  }

  lemma ForgetLeavesStale(lags: Lags, id: string, syncingLag: int, removed: set<string>)
    requires AllTracked(lags, syncingLag, removed)
    ensures var after := Forget(lags, id);
            && AllTracked(after, syncingLag, removed + {id})
            && after.Keys == lags.Keys
            && forall k | k in lags ::
                 Forgotten(after[k], syncingLag) <==> Forgotten(lags[k], syncingLag) || (k == id && lags[k].over)
  {
  }

  // An upstream removed while 100 blocks behind that comes back caught up is not
  // told so, and goes on calling itself syncing.
  lemma RemovedWhileBehind()
    ensures var e := Step(FRESH, 100, 10);
            var back := Step(Forget(map["up" := e], "up")["up"], 0, 10);
            && back.told == 100
            && StatusByLag(back.told, AVAILABLE, 10) == SYNCING
            && StatusByLag(0, AVAILABLE, 10) == AVAILABLE
  {
  }
}
