/**
 The upstream's announcements and the chain supervisor's table put together.
 */
module SupervisedUpstream {
  import opened Protocol
  import opened ChainAggregates
  import ChainSupervisor
  import HeadLag
  import opened UpstreamEvents

  // The event the supervisor receives for an announcement; the fork choice answers anything.
  ghost predicate Carries(event: ChainSupervisor.Event, id: string, ann: Announcement) {
    && event.id == id
    && match ann
       case Removed => event.RemoveUpstream?
       case Validated(s) => event.ValidUpstream? && event.snapshot == [s]
       case Head(_, head) => event.HeadUpdate? && event.head == head
       case Changed(s) => event.StateUpdate? && event.state == s
  }

  // The events about one upstream, among those about others, are its announcements in order.
  ghost predicate Delivers(events: seq<ChainSupervisor.Event>, id: string, anns: seq<Announcement>) {
    if events == [] then anns == []
    else
      var last := events[|events| - 1];
      if last.id != id then Delivers(events[..|events| - 1], id, anns)
      else anns != [] && Carries(last, id, anns[|anns| - 1])
           && Delivers(events[..|events| - 1], id, anns[..|anns| - 1])
  }

  ghost predicate IsRow(table: Table, id: string, row: Row) {
    if row.Row? then id in table && table[id] == row.state else id !in table
  }

  lemma RowStep(table: Table, event: ChainSupervisor.Event, id: string, row: Row, ann: Announcement)
    requires IsRow(table, id, row) && Carries(event, id, ann)
    ensures IsRow(ChainSupervisor.NextTable(table, event), id, NextRow(row, ann))
  {
  }

  lemma {:induction false} RowFollows(events: seq<ChainSupervisor.Event>, id: string, anns: seq<Announcement>)
    requires Delivers(events, id, anns)
    ensures IsRow(ChainSupervisor.RunTable(map[], events), id, RunRow(anns))
    decreases |events|
  {
    if events != [] {
      var init, last := events[..|events| - 1], events[|events| - 1];
      if last.id != id {
        RowFollows(init, id, anns);
      } else {
        RowFollows(init, id, anns[..|anns| - 1]);
        RowStep(ChainSupervisor.RunTable(map[], init), last, id, RunRow(anns[..|anns| - 1]), anns[|anns| - 1]);
      }
    }
  }

  // Once its announcements are handled, the supervisor's row for an upstream is
  // the state the upstream stores, and an invalid upstream has no row.
  lemma RowIsUpstreamState(u: Upstream, events: seq<ChainSupervisor.Event>, id: string)
    requires u.Valid() && Delivers(events, id, u.published)
    ensures var table := ChainSupervisor.RunTable(map[], events);
            && (id in table ==> u.validUpstream && table[id] == u.state)
            && (!u.validUpstream ==> id !in table)
  {
    RowFollows(events, id, u.published);
  }

  // ---- the lags the supervisor tells ----

  // Those of a series of lags that the supervisor pushes.
  function Pushed(lags: seq<nat>, syncingLag: int): seq<int> {
    if lags == [] then []
    else
      var init, lag := lags[..|lags| - 1], lags[|lags| - 1];
      var crosses := HeadLag.Run(HeadLag.FRESH, init, syncingLag).over != LagExceeds(lag, syncingLag);
      Pushed(init, syncingLag) + if crosses then [lag] else []
  }

  function StoredLags(events: seq<StateEvent>): seq<int> {
    if events == [] then []
    else
      var e := events[|events| - 1];
      StoredLags(events[..|events| - 1]) + if e.LagStored? then [e.lag] else []
  }

  function LastOf(lags: seq<int>): int {
    if lags == [] then 0 else lags[|lags| - 1]
  }

  lemma {:induction false} LastPushedIsTold(lags: seq<nat>, syncingLag: int)
    ensures HeadLag.Run(HeadLag.FRESH, lags, syncingLag).told == LastOf(Pushed(lags, syncingLag)) >= 0
  {
    if lags != [] {
      LastPushedIsTold(lags[..|lags| - 1], syncingLag);
    }
  }

  lemma {:induction false} LastStoredIsLag(events: seq<StateEvent>)
    requires forall i | 0 <= i < |events| && events[i].LagStored? :: events[i].lag >= 0
    ensures RunLag(0, events) == LastOf(StoredLags(events))
  {
    if events != [] {
      LastStoredIsLag(events[..|events| - 1]);
    }
  }

  // The lag an upstream acts on is the one the supervisor has on record as told.
  lemma ToldIsStored(lags: seq<nat>, syncingLag: int, events: seq<StateEvent>)
    requires StoredLags(events) == Pushed(lags, syncingLag)
    requires forall i | 0 <= i < |events| && events[i].LagStored? :: events[i].lag >= 0
    ensures RunLag(0, events) == HeadLag.Run(HeadLag.FRESH, lags, syncingLag).told
  {
    LastPushedIsTold(lags, syncingLag);
    LastStoredIsLag(events);
  }

  // So, once the status event that follows every stored lag is handled, the status
  // of a valid upstream is that of the last lag, although it was told only the
  // crossings, and of the last health report it handled.
  lemma StatusIsOfTrueLag(lags: seq<nat>, syncingLag: int, valid: bool, base: Status, events: seq<StateEvent>)
    requires lags != [] && StoredLags(events) == Pushed(lags, syncingLag)
    requires forall i | 0 <= i < |events| && events[i].LagStored? :: events[i].lag >= 0 && i < LastStatus(valid, events)
    ensures var n := LastStatus(valid, events);
            StatusByLag(RunLag(0, events[..n]), RunBase(valid, base, events[..n]), syncingLag) ==
            StatusByLag(lags[|lags| - 1], RunBase(valid, base, events), syncingLag)
  {
    StatusIsCurrent(valid, base, 0, events);
    ToldIsStored(lags, syncingLag, events);
    HeadLag.EdgesAreEnough(lags, syncingLag);
  }
}
