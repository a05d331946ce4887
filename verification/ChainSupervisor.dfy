/**
 The event loop of a chain supervisor (internal/upstreams/chain_supervisor.go):
 it merges the states of its upstreams, publishes what changed, and pushes head
 lags back to the upstreams.
 */
module ChainSupervisor {
  import opened Common
  import opened Protocol
  import opened ChainState
  import opened ChainAggregates
  import opened HeadLag

  // What the fork choice answers to a head: whether the chain head changed, and to what.
  datatype Choice = Choice(updated: bool, head: Block)

  datatype Event =
    | RemoveUpstream(id: string, choice: Choice)
    | HeadUpdate(id: string, head: Block, choice: Choice)
    | StateUpdate(id: string, state: UpstreamState)
    | ValidUpstream(id: string, snapshot: seq<UpstreamState>, choice: Choice)  // at most one snapshot
  {
    ghost predicate Valid() {
      && (StateUpdate? ==> state.Valid())
      && (ValidUpstream? ==> |snapshot| <= 1 && (|snapshot| == 1 ==> snapshot[0].Valid()))
    }
  }

  class ChainSupervisor {
    const validateLag: bool
    const syncingLag: int
    const subChainMethods: set<string>

    var upstreamStates: Table
    var state: SupervisorState
    var head: Block
    // The live upstreams, with what they were told of their lag.
    var lags: Lags
    // Everything published to subscribers so far, in order.
    var published: seq<Wrapper>

    ghost var merged: bool
    ghost var removed: set<string>

    // ---- invariants ----

    // A subscriber that replays everything published holds the current state.
    ghost predicate ReplicaAgrees()
      reads this
    {
      Agrees(Replay(INITIAL_STATE, published), state)
    }

    // Once a state was stored, the cached state is a merge of the current table.
    ghost predicate CacheIsFresh()
      reads this
    {
      merged ==> Aggregates(upstreamStates, subChainMethods, state)
    }

    // A subscriber that follows the published heads knows the chain's head, if there is one.
    ghost predicate HeadKnown()
      reads this
    {
      head.IsEmptyByHeight() || LastHead(published) == Some(head)
    }

    ghost predicate Valid()
      reads this
    {
      && (forall id | id in upstreamStates :: upstreamStates[id].Valid())
      && WellFormed(state)
      && ReplicaAgrees()
      && HeadKnown()
      && CacheIsFresh()
      && AllTracked(lags, syncingLag, removed)
    }

    constructor (validateLag: bool, syncingLag: int, subChainMethods: set<string>, upstreams: set<string>)
      ensures Valid() && state == INITIAL_STATE && upstreamStates == map[] && published == []
      ensures lags == (map id | id in upstreams :: FRESH) && removed == {} && !merged
      ensures this.validateLag == validateLag
      ensures this.syncingLag == syncingLag && this.subChainMethods == subChainMethods
    {
      this.validateLag := validateLag;
      this.syncingLag := syncingLag;
      this.subChainMethods := subChainMethods;
      upstreamStates := map[];
      state := INITIAL_STATE;
      head := ZERO_BLOCK;
      lags := map id | id in upstreams :: FRESH;
      published := [];
      merged := false;
      removed := {};
    }

    ghost function Summary(): Outcome
      reads this
    {
      Outcome(upstreamStates, merged, removed)
    }

    // ---- merging ----

    method AvailableUpstreams() returns (ups: seq<UpstreamState>, ghost ids: seq<string>)
      ensures Lists(upstreamStates, ids, ups)
    {
      ups, ids := [], [];
      var todo := upstreamStates.Keys;
      while todo != {}
        invariant todo <= upstreamStates.Keys
        invariant |ids| == |ups| && forall i, j | 0 <= i < j < |ids| :: ids[i] != ids[j]
        invariant forall i | 0 <= i < |ids| ::
            ids[i] !in todo && IsAvailable(upstreamStates, ids[i]) && ups[i] == upstreamStates[ids[i]]
        invariant forall id | IsAvailable(upstreamStates, id) && id !in todo :: id in ids
        decreases |todo|
      {
        var id: string :| id in todo;
        todo := todo - {id};
        if upstreamStates[id].status == AVAILABLE {
          ups, ids := ups + [upstreamStates[id]], ids + [id];
        }
      }
    }

    method ProcessUpstreamStatuses() returns (status: Status)
      ensures StatusIs(upstreamStates, status)
    {
      status := UNAVAILABLE;
      var todo := upstreamStates.Keys;
      while todo != {}
        invariant todo <= upstreamStates.Keys && status <= UNAVAILABLE
        invariant forall id | id in upstreamStates && id !in todo :: status <= upstreamStates[id].status
        invariant status == UNAVAILABLE || exists id :: id in upstreamStates && upstreamStates[id].status == status
        decreases |todo|
      {
        var id: string :| id in todo;
        todo := todo - {id};
        if upstreamStates[id].status < status {
          status := upstreamStates[id].status;
        }
      }
    }

    method Merge() returns (s: SupervisorState)
      requires forall id | id in upstreamStates :: upstreamStates[id].Valid()
      ensures Aggregates(upstreamStates, subChainMethods, s) && WellFormed(s)
    {
      var ups, ids := AvailableUpstreams();
      var status := ProcessUpstreamStatuses();
      var methods := ProcessMethods(ups);
      MethodsOfTable(upstreamStates, ids, ups, methods);
      var blocks := ProcessUpstreamBlocks(ups);
      BlocksOfTable(upstreamStates, ids, ups, blocks);
      var bounds := ProcessLowerBounds(ups);
      BoundsOfTable(upstreamStates, ids, ups, bounds);
      var labels := ProcessLabels(ups);
      LabelsOfTable(upstreamStates, ids, ups, labels);
      var caps := ProcessCaps(ups);
      CapsOfTable(upstreamStates, ids, ups, caps);
      s := SupervisorState(status, methods, blocks, bounds, labels, SubMethods(caps, subChainMethods), caps);
    }

    method UpdateState()
      requires WellFormed(state) && ReplicaAgrees() && HeadKnown()
      requires forall id | id in upstreamStates :: upstreamStates[id].Valid()
      modifies this`state, this`published, this`merged
      ensures merged && Aggregates(upstreamStates, subChainMethods, state)
      ensures WellFormed(state) && ReplicaAgrees() && HeadKnown()
      ensures old(published) <= published
      ensures published == old(published) <==> Agrees(old(state), state)
    {
      var newState := Merge();
      var changes := Compare(state, newState);
      CompareIsEnough(Replay(INITIAL_STATE, published), state, newState, changes);
      CompareIsNeeded(state, newState, changes);
      ReplayConcat(INITIAL_STATE, published, changes);
      ChangesKeepHead(state, newState, 7, published, changes);
      state := newState;
      published := published + changes;
      merged := true;
    }

    // ---- head lags ----

    method CalculateHeadLags()
      modifies this`lags
      ensures lags == if validateLag then ObserveAll(old(lags), upstreamStates, head, syncingLag) else old(lags)
    {
      if validateLag {
        var todo := upstreamStates.Keys;
        while todo != {}
          invariant todo <= upstreamStates.Keys && lags.Keys == old(lags).Keys
          invariant forall id | id in lags ::
              lags[id] == if id in upstreamStates && id !in todo
                          then Step(old(lags)[id], TrueLag(head, upstreamStates[id].head), syncingLag)
                          else old(lags)[id]
          decreases |todo|
        {
          var id: string :| id in todo;
          todo := todo - {id};
          var lag := TrueLag(head, upstreamStates[id].head);
          if id in lags {
            lags := lags[id := Step(lags[id], lag, syncingLag)];
          }
        }
      }
    }

    ghost predicate LagsRight()
      reads this
    {
      validateLag ==> AllRight(lags, upstreamStates, head, syncingLag, removed)
    }

    method ChooseHead(id: string, block: Block, choice: Choice)
      requires ReplicaAgrees() && HeadKnown()
      modifies this`head, this`published
      ensures ReplicaAgrees() && HeadKnown()
      ensures published == old(published) + if !block.IsEmptyByHeight() && choice.updated && !head.IsEmptyByHeight()
                                            then [HeadWrapper(head, id)] else []
      ensures head == Chosen(old(head), block, choice)
    {
      if !block.IsEmptyByHeight() {
        if choice.updated {
          head := choice.head;
          if !head.IsEmptyByHeight() {
            ReplayConcat(INITIAL_STATE, published, [HeadWrapper(head, id)]);
            published := published + [HeadWrapper(head, id)];
          }
        }
      } else {
        head := ZERO_BLOCK;
      }
    }

    method UpdateHead(id: string, block: Block, choice: Choice)
      requires Valid()
      modifies this`head, this`published, this`lags
      ensures Valid() && LagsRight() && NoneForgotten(old(lags), lags, syncingLag)
      ensures published == old(published) + if !block.IsEmptyByHeight() && choice.updated && !head.IsEmptyByHeight()
                                            then [HeadWrapper(head, id)] else []
      ensures head == Chosen(old(head), block, choice)
      ensures lags == if validateLag then ObserveAll(old(lags), upstreamStates, head, syncingLag) else old(lags)
    {
      ChooseHead(id, block, choice);
      CalculateHeadLags();
      ObserveAllRight(old(lags), upstreamStates, head, syncingLag, removed);
    }

    // ---- events ----

    // The row of a known upstream goes, and what is remembered of its lag.
    method RemoveRow(id: string)
      requires Valid() && id in upstreamStates
      modifies this`upstreamStates, this`lags, this`removed, this`state, this`published, this`merged
      ensures Valid() && merged && upstreamStates == old(upstreamStates) - {id} && removed == old(removed) + {id}
      ensures lags == Forget(old(lags), id)
    {
      upstreamStates := upstreamStates - {id};
      ForgetLeavesStale(lags, id, syncingLag, removed);
      lags := Forget(lags, id);
      removed := removed + {id};
      UpdateState();
    }

    method OnRemove(id: string, choice: Choice)
      requires Valid()
      modifies this
      ensures Valid() && Summary() == NextOutcome(old(Summary()), RemoveUpstream(id, choice))
      ensures id in old(upstreamStates) ==> LagsRight()
      ensures head == NextHead(old(head), old(upstreamStates), RemoveUpstream(id, choice))
      ensures NoneForgotten(if id in old(upstreamStates) then Forget(old(lags), id) else old(lags), lags, syncingLag)
    {
      if id in upstreamStates {
        var upHead := upstreamStates[id].head;
        RemoveRow(id);
        UpdateHead(id, upHead, choice);
      } else {
        assert upstreamStates - {id} == upstreamStates;
      }
    }

    method OnHead(id: string, block: Block, choice: Choice)
      requires Valid()
      modifies this
      ensures Valid() && LagsRight() && Summary() == NextOutcome(old(Summary()), HeadUpdate(id, block, choice))
      ensures state == old(state) && head == NextHead(old(head), old(upstreamStates), HeadUpdate(id, block, choice))
      ensures NoneForgotten(old(lags), lags, syncingLag)
    {
      HeadsKeepOutcome(Summary(), id, block, choice);
      if id in upstreamStates {
        if merged {
          HeadsAreNotMerged(upstreamStates, id, block, subChainMethods, state);
        }
        upstreamStates := upstreamStates[id := upstreamStates[id].(head := block)];
      }
      UpdateHead(id, block, choice);
    }

    method OnState(id: string, upState: UpstreamState)
      requires Valid() && upState.Valid()
      modifies this`upstreamStates, this`state, this`published, this`merged
      ensures Valid() && Summary() == NextOutcome(old(Summary()), StateUpdate(id, upState))
    {
      upstreamStates := upstreamStates[id := upState];
      UpdateState();
    }

    method OnValid(id: string, upState: UpstreamState, choice: Choice)
      requires Valid() && upState.Valid()
      modifies this
      ensures Valid() && Summary() == NextOutcome(old(Summary()), ValidUpstream(id, [upState], choice))
      ensures !upState.head.IsEmptyByHeight() ==> LagsRight()
      ensures head == NextHead(old(head), old(upstreamStates), ValidUpstream(id, [upState], choice))
      ensures NoneForgotten(old(lags), lags, syncingLag)
    {
      RecoveredIsStored(Summary(), id, upState, choice);
      OnState(id, upState);
      if !upState.head.IsEmptyByHeight() {
        UpdateHead(id, upState.head, choice);
      }
    }

    method ProcessEvent(event: Event)
      requires Valid() && event.Valid()
      modifies this
      ensures Valid()
      ensures Offered(old(upstreamStates), event).Some? ==> LagsRight()
      ensures Summary() == NextOutcome(old(Summary()), event)
      ensures head == NextHead(old(head), old(upstreamStates), event)
      ensures NoneForgotten(if event.RemoveUpstream? && event.id in old(upstreamStates)
                            then Forget(old(lags), event.id) else old(lags),
                            lags, syncingLag)
    {
      match event
      case RemoveUpstream(id, choice) =>
        OnRemove(id, choice);
      case HeadUpdate(id, block, choice) =>
        OnHead(id, block, choice);
      case StateUpdate(id, upState) =>
        OnState(id, upState);
      case ValidUpstream(id, snapshot, choice) =>
        if snapshot != [] {
          OnValid(id, snapshot[0], choice);
        }
    }

    // Over every run: the table, whether anything was stored, who was removed while in
    // the table and the chain's head are functions of the events. The copy held by a subscriber
    // agrees, the cache is fresh once anything was stored, and after an event that
    // updates heads every upstream never removed acts on its true lag.
    method ProcessEvents(events: seq<Event>)
      requires Valid() && forall i | 0 <= i < |events| :: events[i].Valid()
      modifies this
      ensures Valid()
      ensures Summary() == RunOutcome(old(Summary()), events)
      ensures head == RunHead(old(head), old(Summary()), events)
      ensures merged ==> Aggregates(upstreamStates, subChainMethods, state)
      ensures events != []
              && Offered(RunOutcome(old(Summary()), events[..|events| - 1]).table, events[|events| - 1]).Some? ==>
                LagsRight()
    {
      for n := 0 to |events|
        invariant Valid()
        invariant Summary() == RunOutcome(old(Summary()), events[..n])
        invariant head == RunHead(old(head), old(Summary()), events[..n])
        invariant n > 0 && Offered(RunOutcome(old(Summary()), events[..n - 1]).table, events[n - 1]).Some? ==>
            LagsRight()
      {
        RunAppend(old(Summary()), events, n);
        assert events[..n + 1][..n] == events[..n];
        ProcessEvent(events[n]);
      }
      assert events[..|events|] == events;
    }
  }

  // ---- what an event does to the table ----

  ghost predicate Stores(event: Event, table: Table) {
    event.StateUpdate? || (event.ValidUpstream? && event.snapshot != []) || (event.RemoveUpstream? && event.id in table)
  }

  ghost function NextTable(table: Table, event: Event): Table {
    match event
    case RemoveUpstream(id, _) => table - {id}
    case HeadUpdate(id, block, _) => if id in table then table[id := table[id].(head := block)] else table
    case StateUpdate(id, upState) => table[id := upState]
    case ValidUpstream(id, snapshot, _) => if snapshot != [] then table[id := snapshot[0]] else table
  }

  ghost function RemovedBy(event: Event, table: Table): set<string> {
    if event.RemoveUpstream? && event.id in table then {event.id} else {}
  }

  // What a run comes to: the table, whether any event stored or removed a row, and
  // the upstreams removed while they were in the table.
  datatype Outcome = Outcome(table: Table, stored: bool, removed: set<string>)

  ghost function NextOutcome(s: Outcome, event: Event): Outcome {
    Outcome(NextTable(s.table, event), s.stored || Stores(event, s.table), s.removed + RemovedBy(event, s.table))
  }

  // A recovered upstream does to the outcome what its state does.
  lemma RecoveredIsStored(s: Outcome, id: string, upState: UpstreamState, choice: Choice)
    ensures NextOutcome(s, ValidUpstream(id, [upState], choice)) == NextOutcome(s, StateUpdate(id, upState))
  {
  }

  lemma HeadsKeepOutcome(s: Outcome, id: string, block: Block, choice: Choice)
    ensures NextOutcome(s, HeadUpdate(id, block, choice)) ==
            s.(table := if id in s.table then s.table[id := s.table[id].(head := block)] else s.table)
  {
    assert s.removed + {} == s.removed;
  }

  ghost function RunOutcome(s: Outcome, events: seq<Event>): Outcome {
    if events == [] then s
    else NextOutcome(RunOutcome(s, events[..|events| - 1]), events[|events| - 1])
  }

  lemma RunAppend(s: Outcome, events: seq<Event>, n: nat)
    requires n < |events|
    ensures RunOutcome(s, events[..n + 1]) == NextOutcome(RunOutcome(s, events[..n]), events[n])
  {
    assert events[..n + 1][..n] == events[..n];
  }

  // ---- what an event does to the head ----

  // An empty block takes the head away; any other is put to the fork choice.
  function Chosen(head: Block, block: Block, choice: Choice): Block {
    if block.IsEmptyByHeight() then ZERO_BLOCK else if choice.updated then choice.head else head
  }

  // The block that the event makes the supervisor look at, if any, and the fork choice on it.
  ghost function Offered(table: Table, event: Event): Option<(Block, Choice)> {
    match event
    case HeadUpdate(_, block, choice) => Some((block, choice))
    case RemoveUpstream(id, choice) => if id in table then Some((table[id].head, choice)) else None
    case ValidUpstream(_, snapshot, choice) =>
      if snapshot != [] && !snapshot[0].head.IsEmptyByHeight() then Some((snapshot[0].head, choice)) else None
    case StateUpdate(_, _) => None
  }

  ghost function NextHead(head: Block, table: Table, event: Event): Block {
    match Offered(table, event)
    case Some((block, choice)) => Chosen(head, block, choice)
    case None => head
  }

  ghost function RunHead(head: Block, s: Outcome, events: seq<Event>): Block {
    if events == [] then head
    else
      var init := events[..|events| - 1];
      NextHead(RunHead(head, s, init), RunOutcome(s, init).table, events[|events| - 1])
  }

  // The i-th event settles the head: it offers an empty block, or one that the fork
  // choice follows.
  ghost predicate Settles(s: Outcome, events: seq<Event>, i: nat) {
    && i < |events|
    && match Offered(RunOutcome(s, events[..i]).table, events[i])
       case Some((block, choice)) => block.IsEmptyByHeight() || choice.updated
       case None => false
  }

  // Events that do not settle it leave the head.
  lemma {:induction false} UnsettledKeepHead(head: Block, s: Outcome, events: seq<Event>, n: nat)
    requires n <= |events| && forall j: nat | n <= j < |events| :: !Settles(s, events, j)
    ensures RunHead(head, s, events) == RunHead(head, s, events[..n])
    decreases |events|
  {
    var last := |events| - 1;
    if n == |events| {
      assert events[..n] == events;
    } else {
      var init := events[..last];
      assert !Settles(s, events, last);
      forall j: nat | n <= j < last ensures !Settles(s, init, j) {
        assert init[..j] == events[..j];
        assert !Settles(s, events, j);
      }
      UnsettledKeepHead(head, s, init, n);
      assert init[..n] == events[..n];
    }
  }

  // So the head is the one that the last event to settle it settled on: none if its
  // block was empty, and otherwise the fork choice's.
  lemma LastSettles(head: Block, s: Outcome, events: seq<Event>, i: nat)
    requires Settles(s, events, i) && forall j: nat | i < j < |events| :: !Settles(s, events, j)
    ensures var (block, choice) := Offered(RunOutcome(s, events[..i]).table, events[i]).value;
            RunHead(head, s, events) == if block.IsEmptyByHeight() then ZERO_BLOCK else choice.head
  {
    UnsettledKeepHead(head, s, events, i + 1);
    assert events[..i + 1][..i] == events[..i];
  }

  // The head published last.
  ghost function LastHead(ws: seq<Wrapper>): Option<Block> {
    if ws == [] then None
    else match ws[|ws| - 1]
      case HeadWrapper(head, _) => Some(head)
      case _ => LastHead(ws[..|ws| - 1])
  }

  // Publishing a change of the merged state does not hide it.
  lemma {:induction false} ChangesKeepHead(c: SupervisorState, n: SupervisorState, k: nat, before: seq<Wrapper>,
                                           ws: seq<Wrapper>)
    requires Publishes(c, n, k, ws)
    ensures LastHead(before + ws) == LastHead(before)
  {
    if k == 0 {
      assert before + ws == before;
    } else if SameAt(c, n, k - 1) {
      ChangesKeepHead(c, n, k - 1, before, ws);
    } else {
      var init := ws[..|ws| - 1];
      ChangesKeepHead(c, n, k - 1, before, init);
      assert (before + ws)[..|before + ws| - 1] == before + init;
    }
  }

  ghost function RunTable(table: Table, events: seq<Event>): Table {
    RunOutcome(Outcome(table, false, {}), events).table
  }
}
