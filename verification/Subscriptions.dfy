/**
 The replaying `SubscriptionManager` (pkg/utils/subscriptions.go) as interleaved
 steps. `Publish` and `SubscribeWithReplaySize` hold the manager's lock, so at
 most one of them is under way; plain `Subscribe`, `Unsubscribe` and the
 subscribers' receives run between any two of their steps.
 */
module Subscriptions {

  type Event = string

  // `sent` is everything ever put on the channel and `taken` how much of it the
  // subscriber has received. `since` counts the publishes begun before registration
  // and `seeded` says that the last of them was sent, too: as the replay of a replay
  // subscription, or by a publish that was under way when a plain one registered.
  // A subscription leaves the map when its own `Unsubscribe` begins (`leaving`, after
  // `leftAt` publishes) or when another's deletes its name (`evicted`, after
  // `evictedAt` publishes); `until` counts the publishes delivered by then.
  datatype Sub = Sub(name: string, size: nat, replay: bool, seeded: bool, sent: seq<Event>, taken: nat, since: nat,
                     registered: bool, leaving: bool, leftAt: nat, until: nat, evicted: bool, evictedAt: nat,
                     closed: bool, dropped: bool)
  {
    // Registered and still in the map.
    predicate Live() {
      registered && !leaving && !evicted
    }

    predicate Full() {
      |sent| - taken >= size
    }
  }

  function NewSub(name: string, size: nat, replay: bool, seed: seq<Event>, since: nat): Sub {
    Sub(name, size, replay, seed != [], seed, 0, since, false, false, 0, 0, false, 0, false, false)
  }

  // The manager's lock. A publish must visit what stays in the map throughout,
  // and may visit what was in the map at any moment since it began.
  datatype Lock =
    | Free
    | Publishing(must: set<nat>, seen: set<nat>, visited: set<nat>)
    | Replaying(id: nat)

  datatype State = State(subs: seq<Sub>, names: map<string, nat>, lock: Lock, history: seq<Event>)

  ghost predicate Init(s: State) {
    s == State([], map[], Free, [])
  }

  // ---- steps ----

  function Update(s: State, id: nat, sub: Sub): State
    requires id < |s.subs|
  {
    s.(subs := s.subs[id := sub])
  }

  ghost predicate PublishBegin(s: State, s': State, e: Event) {
    && s.lock.Free?
    && s' == s.(history := s.history + [e], lock := Publishing(s.names.Values, s.names.Values, {}))
  }

  // One round of the range over the map, under the subscription's own lock.
  ghost predicate Visit(s: State, s': State, id: nat) {
    && s.lock.Publishing? && id in s.lock.seen && id !in s.lock.visited && id < |s.subs| && s.history != []
    && s' == Update(s, id, Offered(s.subs[id], s.history)).(lock := s.lock.(visited := s.lock.visited + {id}))
  }

  // A send that never waits for the subscriber.
  function Offered(sub: Sub, history: seq<Event>): Sub
    requires history != []
  {
    if sub.closed then sub
    else if |sub.sent| - sub.taken < sub.size then
      sub.(sent := sub.sent + [history[|history| - 1]], seeded := sub.seeded || sub.since == |history|)
    else sub.(dropped := true)
  }

  ghost predicate PublishEnd(s: State, s': State) {
    && s.lock.Publishing? && (forall id | id in s.lock.must && id in s.names.Values :: id in s.lock.visited)
    && s' == s.(lock := Free)
  }

  // Seeding the channel would block for ever on one of size zero.
  ghost predicate ReplayBegin(s: State, s': State, name: string, size: nat) {
    && s.lock.Free? && (s.history != [] ==> size > 0)
    && var seed := if s.history == [] then [] else [s.history[|s.history| - 1]];
       s' == s.(subs := s.subs + [NewSub(name, size, true, seed, |s.history|)],
                lock := Replaying(|s.subs|))
  }

  // A name already taken panics: the new subscription is never registered.
  ghost predicate ReplayRegister(s: State, s': State) {
    && s.lock.Replaying? && s.lock.id < |s.subs|
    && var id := s.lock.id;
       s' == if s.subs[id].name in s.names then s.(lock := Free)
             else Update(s, id, s.subs[id].(registered := true)).(names := s.names[s.subs[id].name := id], lock := Free)
  }

  ghost predicate Subscribe(s: State, s': State, name: string, size: nat) {
    && name !in s.names
    && var id := |s.subs|;
       s' == s.(subs := s.subs + [NewSub(name, size, false, [], |s.history|).(registered := true)],
                names := s.names[name := id],
                lock := if s.lock.Publishing? then s.lock.(seen := s.lock.seen + {id}) else s.lock)
  }

  // The range of the publish under way may still come to the subscription.
  predicate Awaited(s: State, id: nat) {
    s.lock.Publishing? && id in s.lock.seen && id !in s.lock.visited
  }

  // A publish begun after its registration is on its way to the subscription.
  function Due(sub: Sub, history: seq<Event>, awaited: bool): nat {
    if awaited && sub.since < |history| then 1 else 0
  }

  function Pending(s: State, id: nat): nat {
    if id < |s.subs| then Due(s.subs[id], s.history, Awaited(s, id)) else 0
  }

  // `Unsubscribe` deletes by name first and closes under the subscription's lock
  // later. The name may have been taken by another subscription in between.
  ghost predicate UnsubscribeBegin(s: State, s': State, id: nat) {
    && id < |s.subs| && s.subs[id].registered
    && s' == Evict(Leave(s, id), s.subs[id].name, id).(names := s.names - {s.subs[id].name})
  }

  function Leave(s: State, id: nat): State
    requires id < |s.subs|
  {
    Update(s, id, Left(s.subs[id], s.history, Awaited(s, id)))
  }

  // Only the first `Unsubscribe` of a subscription counts.
  function Left(sub: Sub, history: seq<Event>, awaited: bool): Sub {
    sub.(leaving := true, leftAt := if sub.leaving then sub.leftAt else |history|,
         until := if sub.leaving || sub.evicted then sub.until else |history| - Due(sub, history, awaited))
  }

  // Whoever else holds the name loses it.
  function Evict(s: State, name: string, id: nat): State {
    if name in s.names && s.names[name] != id && s.names[name] < |s.subs|
    then
      var j := s.names[name];
      Update(s, j, Evicted(s.subs[j], s.history, Awaited(s, j)))
    else s
  }

  function Evicted(sub: Sub, history: seq<Event>, awaited: bool): Sub {
    sub.(evicted := true, evictedAt := |history|, until := |history| - Due(sub, history, awaited))
  }

  ghost predicate UnsubscribeClose(s: State, s': State, id: nat) {
    && id < |s.subs| && s.subs[id].leaving
    && s' == Update(s, id, s.subs[id].(closed := true))
  }

  ghost predicate Receive(s: State, s': State, id: nat) {
    && id < |s.subs| && s.subs[id].taken < |s.subs[id].sent|
    && s' == Update(s, id, s.subs[id].(taken := s.subs[id].taken + 1))
  }

  ghost predicate Step(s: State, s': State) {
    || (exists e :: PublishBegin(s, s', e))
    || (exists id :: Visit(s, s', id))
    || PublishEnd(s, s')
    || (exists name, size :: ReplayBegin(s, s', name, size))
    || ReplayRegister(s, s')
    || (exists name, size :: Subscribe(s, s', name, size))
    || (exists id :: UnsubscribeBegin(s, s', id))
    || (exists id :: UnsubscribeClose(s, s', id))
    || (exists id :: Receive(s, s', id))
  }

  ghost predicate StepAt(run: seq<State>, i: nat) {
    i + 1 < |run| ==> Step(run[i], run[i + 1])
  }

  ghost predicate Run(run: seq<State>) {
    run != [] && Init(run[0]) && forall i: nat :: StepAt(run, i)
  }

  lemma RunPrefix(run: seq<State>, n: nat)
    requires Run(run) && 0 < n <= |run|
    ensures Run(run[..n])
  {
    forall i: nat ensures StepAt(run[..n], i) {
      assert StepAt(run, i);
    }
  }

  // ---- the invariant ----

  // The map names exactly the live subscriptions.
  ghost predicate NamesLive(s: State) {
    && (forall n | n in s.names :: s.names[n] < |s.subs| && s.subs[s.names[n]].name == n && s.subs[s.names[n]].Live())
    && (forall id | 0 <= id < |s.subs| && s.subs[id].Live() ::
          s.subs[id].name in s.names && s.names[s.subs[id].name] == id)
  }

  ghost predicate Ordered(s: State) {
    forall id | 0 <= id < |s.subs| ::
      && (s.subs[id].closed ==> s.subs[id].leaving)
      && (s.subs[id].leaving || s.subs[id].dropped || s.subs[id].evicted ==> s.subs[id].registered)
  }

  ghost predicate LockFits(s: State) {
    && (s.lock.Replaying? ==>
          && s.lock.id < |s.subs| && s.subs[s.lock.id].replay && !s.subs[s.lock.id].registered
          && s.subs[s.lock.id].since == |s.history|)
    && (s.lock.Publishing? ==>
          && s.history != [] && s.lock.must <= s.lock.seen && s.lock.visited <= s.lock.seen
          && (forall id | id in s.lock.seen :: id < |s.subs| && s.subs[id].registered)
          && (forall id | 0 <= id < |s.subs| && s.subs[id].since < |s.history| && s.subs[id].Live() ::
                id in s.lock.must))
  }

  // A publish that may still reach a subscription that is gone began before it went.
  ghost predicate GoneBefore(s: State) {
    forall id | 0 <= id < |s.subs| :: Went(s.subs[id], s.history, s.lock.Publishing? && id in s.lock.seen)
  }

  predicate Went(sub: Sub, history: seq<Event>, reachable: bool) {
    && (sub.evicted ==> sub.evictedAt <= |history| && (reachable ==> sub.evictedAt == |history|))
    && (sub.leaving ==> sub.leftAt <= |history| && (reachable ==> sub.leftAt == |history|))
  }

  function Seed(sub: Sub, history: seq<Event>): seq<Event> {
    if sub.seeded && 0 < sub.since <= |history| then [history[sub.since - 1]] else []
  }

  // How many publishes a subscription has been sent, the seed aside.
  function Reached(sub: Sub, history: seq<Event>): int {
    sub.since + |sub.sent| - |Seed(sub, history)|
  }

  // The last publish before registration, if seeded, then every later one in order.
  ghost predicate Contiguous(sub: Sub, history: seq<Event>) {
    && sub.since <= Reached(sub, history) <= |history|
    && sub.sent == Seed(sub, history) + history[sub.since..Reached(sub, history)]
  }

  // The buffer never overflows, and what was sent from before the registration.
  ghost predicate WellFormed(sub: Sub, history: seq<Event>, awaited: bool) {
    && sub.taken <= |sub.sent| <= sub.taken + sub.size && sub.since <= |history|
    && (sub.seeded ==> sub.since > 0)
    && (sub.replay && sub.since > 0 ==> sub.seeded)
    && (sub.replay && awaited ==> sub.since < |history|)
    && (!sub.replay && awaited && sub.since == |history| ==> !sub.seeded && (!sub.dropped ==> sub.sent == []))
  }

  ghost predicate Follows(sub: Sub, history: seq<Event>, awaited: bool) {
    var n := Reached(sub, history);
    && Contiguous(sub, history)
    && (!sub.registered ==> sub.sent == Seed(sub, history))
    && (sub.Live() ==> n == |history| - Due(sub, history, awaited))
    && (Due(sub, history, awaited) == 1 ==> n == |history| - 1)
    && (sub.leaving || sub.evicted ==> sub.until <= n)
    && (sub.evicted ==> n <= sub.evictedAt)
    && (sub.leaving ==> n <= sub.leftAt)
    && (sub.leaving && !sub.evicted ==> sub.leftAt <= sub.until + 1)
  }

  ghost predicate Tracks(sub: Sub, history: seq<Event>, awaited: bool) {
    WellFormed(sub, history, awaited) && (!sub.dropped ==> Follows(sub, history, awaited))
  }

  ghost predicate AllTrack(s: State) {
    forall id | 0 <= id < |s.subs| :: Tracks(s.subs[id], s.history, Awaited(s, id))
  }

  ghost predicate Inv(s: State) {
    NamesLive(s) && Ordered(s) && LockFits(s) && GoneBefore(s) && AllTrack(s)
  }

  // ---- what one subscription goes through ----

  lemma FreshTracks(sub: Sub, history: seq<Event>, awaited: bool)
    requires sub.since == |history| && sub.taken == 0 && |sub.sent| <= sub.size
    requires sub.seeded ==> sub.since > 0
    requires sub.sent == Seed(sub, history) && !sub.leaving && !sub.evicted
    requires if sub.replay then !awaited && (sub.since > 0 ==> sub.seeded) else !sub.seeded
    ensures Tracks(sub, history, awaited)
  {
    assert history[sub.since..sub.since] == [];
  }

  lemma RegisteredTracks(sub: Sub, history: seq<Event>)
    requires Tracks(sub, history, false) && !sub.registered && sub.since == |history|
    requires !sub.leaving && !sub.evicted
    ensures Tracks(sub.(registered := true), history, false)
  {
    var after := sub.(registered := true);
    assert Seed(after, history) == Seed(sub, history);
  }

  lemma HistoryGrows(sub: Sub, history: seq<Event>, e: Event)
    requires sub.since <= |history|
    ensures Seed(sub, history + [e]) == Seed(sub, history) && Reached(sub, history + [e]) == Reached(sub, history)
    ensures Contiguous(sub, history) ==> Contiguous(sub, history + [e])
  {
    var n := Reached(sub, history);
    if Contiguous(sub, history) {
      assert (history + [e])[sub.since..n] == history[sub.since..n];
    }
  }

  lemma BegunTracks(sub: Sub, history: seq<Event>, e: Event, awaited: bool)
    requires Tracks(sub, history, false) && (awaited <==> sub.Live())
    requires sub.leaving || sub.evicted ==> sub.registered
    ensures Tracks(sub, history + [e], awaited)
  {
    HistoryGrows(sub, history, e);
  }

  lemma DeliverNext(sub: Sub, history: seq<Event>)
    requires history != [] && Contiguous(sub, history) && Reached(sub, history) == |history| - 1
    ensures var after := sub.(sent := sub.sent + [history[|history| - 1]]);
            Contiguous(after, history) && Reached(after, history) == |history|
  {
    var n := |history|;
    var after := sub.(sent := sub.sent + [history[n - 1]]);
    assert Seed(after, history) == Seed(sub, history);
    assert history[sub.since..n] == history[sub.since..n - 1] + [history[n - 1]];
  }

  // The publish under way when a plain subscription registered may still reach it.
  lemma DeliverEarly(sub: Sub, history: seq<Event>)
    requires history != [] && sub.since == |history| && !sub.seeded && sub.sent == []
    ensures var after := sub.(sent := sub.sent + [history[|history| - 1]], seeded := true);
            Contiguous(after, history) && Reached(after, history) == Reached(sub, history) == |history|
  {
    assert history[sub.since..sub.since] == [];
  }

  lemma OfferedTracks(sub: Sub, history: seq<Event>)
    requires history != [] && Tracks(sub, history, true) && sub.registered && (sub.closed ==> sub.leaving)
    requires Went(sub, history, true)
    ensures Tracks(Offered(sub, history), history, false)
  {
    if !sub.dropped && !sub.closed && !sub.Full() {
      if sub.since == |history| {
        DeliverEarly(sub, history);
      } else {
        DeliverNext(sub, history);
      }
    }
  }

  // The range is over and did not come to the subscription.
  lemma PassedTracks(sub: Sub, history: seq<Event>)
    requires Tracks(sub, history, true) && (!sub.Live() || sub.since == |history|)
    ensures Tracks(sub, history, false)
  {}

  lemma LeftTracks(sub: Sub, history: seq<Event>, awaited: bool)
    requires Tracks(sub, history, awaited) && sub.registered
    ensures Tracks(Left(sub, history, awaited), history, awaited)
  {
    var after := Left(sub, history, awaited);
    assert Seed(after, history) == Seed(sub, history);
  }

  lemma EvictedTracks(sub: Sub, history: seq<Event>, awaited: bool)
    requires Tracks(sub, history, awaited) && sub.Live()
    ensures Tracks(Evicted(sub, history, awaited), history, awaited)
  {
    var after := Evicted(sub, history, awaited);
    assert Seed(after, history) == Seed(sub, history);
  }

  lemma TouchedTracks(sub: Sub, history: seq<Event>, awaited: bool, taken: nat, closed: bool)
    requires Tracks(sub, history, awaited) && sub.taken <= taken <= |sub.sent|
    ensures Tracks(sub.(taken := taken, closed := closed), history, awaited)
  {
    var after := sub.(taken := taken, closed := closed);
    assert Seed(after, history) == Seed(sub, history);
  }

  // ---- every step keeps it ----

  lemma PublishBeginKeeps(s: State, s': State, e: Event)
    requires Inv(s) && PublishBegin(s, s', e)
    ensures Inv(s')
  {
    forall id | 0 <= id < |s.subs| ensures Tracks(s'.subs[id], s'.history, Awaited(s', id)) {
      assert Tracks(s.subs[id], s.history, Awaited(s, id));
      if s.subs[id].Live() {
        assert s.names[s.subs[id].name] == id && id in s.names.Values;
      }
      BegunTracks(s.subs[id], s.history, e, Awaited(s', id));
    }
  }

  // A visit changes the one subscription, and marks the visit.
  lemma VisitTouches(s: State, s': State, id: nat)
    requires Visit(s, s', id)
    ensures |s'.subs| == |s.subs| && s'.names == s.names && s'.history == s.history
    ensures s'.lock == s.lock.(visited := s.lock.visited + {id})
    ensures s'.subs[id] == Offered(s.subs[id], s.history)
    ensures forall j | 0 <= j < |s.subs| && j != id :: s'.subs[j] == s.subs[j]
  {}

  lemma OfferedKeeps(sub: Sub, history: seq<Event>)
    requires history != []
    ensures var after := Offered(sub, history);
            && after.name == sub.name && after.registered == sub.registered && after.leaving == sub.leaving
            && after.evicted == sub.evicted && after.since == sub.since && after.replay == sub.replay
            && after.closed == sub.closed && (after.Live() <==> sub.Live())
            && forall reachable: bool :: Went(after, history, reachable) <==> Went(sub, history, reachable)
  {}

  lemma VisitKeepsNames(s: State, s': State, id: nat)
    requires NamesLive(s) && Ordered(s) && LockFits(s) && Visit(s, s', id)
    ensures NamesLive(s') && Ordered(s')
  {
    VisitTouches(s, s', id);
    OfferedKeeps(s.subs[id], s.history);
    assert s.subs[id].registered;
  }

  lemma VisitKeepsLock(s: State, s': State, id: nat)
    requires LockFits(s) && GoneBefore(s) && Visit(s, s', id)
    ensures LockFits(s') && GoneBefore(s')
  {
    VisitTouches(s, s', id);
    OfferedKeeps(s.subs[id], s.history);
    forall j | 0 <= j < |s'.subs| ensures Went(s'.subs[j], s'.history, j in s.lock.seen) {
      assert Went(s.subs[j], s.history, s.lock.Publishing? && j in s.lock.seen);
    }
  }

  lemma VisitKeeps(s: State, s': State, id: nat)
    requires Inv(s) && Visit(s, s', id)
    ensures Inv(s')
  {
    VisitTouches(s, s', id);
    VisitKeepsNames(s, s', id);
    VisitKeepsLock(s, s', id);
    forall j | 0 <= j < |s'.subs| ensures Tracks(s'.subs[j], s'.history, Awaited(s', j)) {
      assert Tracks(s.subs[j], s.history, Awaited(s, j));
      if j == id {
        assert Went(s.subs[id], s.history, s.lock.Publishing? && id in s.lock.seen);
        OfferedTracks(s.subs[id], s.history);
      }
    }
  }

  lemma PublishEndKeeps(s: State, s': State)
    requires Inv(s) && PublishEnd(s, s')
    ensures Inv(s')
  {
    forall id | 0 <= id < |s.subs|
      ensures Tracks(s'.subs[id], s'.history, Awaited(s', id)) && Went(s'.subs[id], s'.history, false)
    {
      var sub := s.subs[id];
      assert Tracks(sub, s.history, Awaited(s, id)) && Went(sub, s.history, s.lock.Publishing? && id in s.lock.seen);
      if sub.since < |s.history| && sub.Live() {
        assert id in s.lock.must && s.names[sub.name] == id;
        assert id in s.names.Values;
        assert id in s.lock.visited;
      } else if Awaited(s, id) {
        PassedTracks(sub, s.history);
      }
    }
  }

  // The new subscription is in nobody's way until it is registered.
  lemma ReplayBeginAppends(s: State, s': State, name: string, size: nat)
    requires ReplayBegin(s, s', name, size)
    ensures s'.names == s.names && s'.history == s.history && s'.lock == Replaying(|s.subs|)
    ensures |s'.subs| == |s.subs| + 1
    ensures forall id | 0 <= id < |s.subs| :: s'.subs[id] == s.subs[id]
    ensures var sub := s'.subs[|s.subs|];
            && sub.replay && !sub.registered && !sub.leaving && !sub.evicted && !sub.closed && !sub.dropped
            && sub.since == |s.history| && sub.sent == Seed(sub, s.history)
            && (sub.seeded <==> sub.since > 0) && sub.taken == 0 && |sub.sent| <= sub.size
  {}

  lemma ReplayBeginKeepsNames(s: State, s': State, name: string, size: nat)
    requires NamesLive(s) && ReplayBegin(s, s', name, size)
    ensures NamesLive(s')
  {
    ReplayBeginAppends(s, s', name, size);
  }

  lemma ReplayBeginKeepsLock(s: State, s': State, name: string, size: nat)
    requires Ordered(s) && GoneBefore(s) && ReplayBegin(s, s', name, size)
    ensures Ordered(s') && LockFits(s') && GoneBefore(s')
  {
    ReplayBeginAppends(s, s', name, size);
    forall id | 0 <= id < |s'.subs| ensures Went(s'.subs[id], s'.history, false) {
      if id < |s.subs| {
        assert Went(s.subs[id], s.history, s.lock.Publishing? && id in s.lock.seen);
      }
    }
  }

  lemma ReplayBeginKeeps(s: State, s': State, name: string, size: nat)
    requires Inv(s) && ReplayBegin(s, s', name, size)
    ensures Inv(s')
  {
    ReplayBeginAppends(s, s', name, size);
    ReplayBeginKeepsNames(s, s', name, size);
    ReplayBeginKeepsLock(s, s', name, size);
    forall id | 0 <= id < |s'.subs| ensures Tracks(s'.subs[id], s'.history, Awaited(s', id)) {
      if id < |s.subs| {
        assert Tracks(s.subs[id], s.history, Awaited(s, id));
      } else {
        FreshTracks(s'.subs[id], s.history, false);
      }
    }
  }

  lemma RegisterKeepsNames(s: State, s': State)
    requires NamesLive(s) && Ordered(s) && LockFits(s) && ReplayRegister(s, s')
    ensures NamesLive(s')
  {
    var id := s.lock.id;
    if s.subs[id].name !in s.names {
      assert s'.subs[id].name == s.subs[id].name && s'.names == s.names[s.subs[id].name := id];
      assert forall j | 0 <= j < |s.subs| && j != id :: s'.subs[j] == s.subs[j];
    }
  }

  lemma RegisterKeepsLock(s: State, s': State)
    requires Ordered(s) && GoneBefore(s) && ReplayRegister(s, s')
    ensures Ordered(s') && LockFits(s') && GoneBefore(s')
  {
    assert s'.lock.Free? && s'.history == s.history;
    forall id | 0 <= id < |s'.subs| ensures Went(s'.subs[id], s'.history, false) {
      assert Went(s.subs[id], s.history, false);
    }
  }

  lemma ReplayRegisterKeeps(s: State, s': State)
    requires Inv(s) && ReplayRegister(s, s')
    ensures Inv(s')
  {
    RegisterKeepsNames(s, s');
    RegisterKeepsLock(s, s');
    forall id | 0 <= id < |s'.subs| ensures Tracks(s'.subs[id], s'.history, Awaited(s', id)) {
      assert Tracks(s.subs[id], s.history, Awaited(s, id));
      if id == s.lock.id {
        RegisteredTracks(s.subs[id], s.history);
      }
    }
  }

  // A plain subscription is registered at once, and a publish under way may reach it.
  lemma SubscribeAppends(s: State, s': State, name: string, size: nat)
    requires Subscribe(s, s', name, size)
    ensures s'.names == s.names[name := |s.subs|] && s'.history == s.history && |s'.subs| == |s.subs| + 1
    ensures s'.lock == if s.lock.Publishing? then s.lock.(seen := s.lock.seen + {|s.subs|}) else s.lock
    ensures forall id | 0 <= id < |s.subs| :: s'.subs[id] == s.subs[id]
    ensures var sub := s'.subs[|s.subs|];
            && sub.name == name && !sub.replay && sub.registered && sub.Live() && !sub.closed && !sub.dropped
            && !sub.seeded && sub.since == |s.history| && sub.sent == [] && sub.taken == 0
  {}

  lemma SubscribeKeepsNames(s: State, s': State, name: string, size: nat)
    requires NamesLive(s) && Subscribe(s, s', name, size)
    ensures NamesLive(s')
  {
    SubscribeAppends(s, s', name, size);
  }

  lemma SubscribeKeepsLock(s: State, s': State, name: string, size: nat)
    requires Ordered(s) && LockFits(s) && GoneBefore(s) && Subscribe(s, s', name, size)
    ensures Ordered(s') && LockFits(s') && GoneBefore(s')
  {
    SubscribeAppends(s, s', name, size);
    forall id | 0 <= id < |s'.subs| ensures Went(s'.subs[id], s'.history, s'.lock.Publishing? && id in s'.lock.seen) {
      if id < |s.subs| {
        assert Went(s.subs[id], s.history, s.lock.Publishing? && id in s.lock.seen);
      }
    }
  }

  lemma SubscribeKeeps(s: State, s': State, name: string, size: nat)
    requires Inv(s) && Subscribe(s, s', name, size)
    ensures Inv(s')
  {
    SubscribeAppends(s, s', name, size);
    SubscribeKeepsNames(s, s', name, size);
    SubscribeKeepsLock(s, s', name, size);
    forall id | 0 <= id < |s'.subs| ensures Tracks(s'.subs[id], s'.history, Awaited(s', id)) {
      if id < |s.subs| {
        assert Tracks(s.subs[id], s.history, Awaited(s, id));
        assert Awaited(s', id) == Awaited(s, id);
      } else {
        FreshTracks(s'.subs[id], s.history, Awaited(s', id));
      }
    }
  }

  // What an unsubscribe does to one subscription: it leaves, or loses its name, or nothing.
  lemma UnsubscribeTouches(s: State, s': State, id: nat, j: nat)
    requires UnsubscribeBegin(s, s', id) && j < |s.subs|
    ensures |s'.subs| == |s.subs| && s'.lock == s.lock && s'.history == s.history
    ensures var sub, name := s.subs[j], s.subs[id].name;
            s'.subs[j] ==
            if j == id then Left(sub, s.history, Awaited(s, j))
            else if name in s.names && s.names[name] == j then Evicted(sub, s.history, Awaited(s, j))
            else sub
  {}

  lemma UnsubscribeKeepsNames(s: State, s': State, id: nat)
    requires NamesLive(s) && UnsubscribeBegin(s, s', id)
    ensures NamesLive(s')
  {
    forall j | 0 <= j < |s.subs|
      ensures s'.subs[j].name == s.subs[j].name
      ensures s'.subs[j].Live() <==> s.subs[j].Live() && s.subs[j].name != s.subs[id].name
    {
      UnsubscribeTouches(s, s', id, j);
    }
  }

  lemma UnsubscribeKeepsGone(s: State, s': State, id: nat)
    requires GoneBefore(s) && UnsubscribeBegin(s, s', id)
    ensures GoneBefore(s')
  {
    forall j | 0 <= j < |s'.subs| ensures Went(s'.subs[j], s'.history, s'.lock.Publishing? && j in s'.lock.seen) {
      UnsubscribeTouches(s, s', id, j);
      assert Went(s.subs[j], s.history, s.lock.Publishing? && j in s.lock.seen);
    }
  }

  lemma UnsubscribeKeepsLock(s: State, s': State, id: nat)
    requires NamesLive(s) && Ordered(s) && LockFits(s) && UnsubscribeBegin(s, s', id)
    ensures Ordered(s') && LockFits(s')
  {
    forall j | 0 <= j < |s.subs|
      ensures s'.subs[j].registered == s.subs[j].registered && s'.subs[j].replay == s.subs[j].replay
      ensures s'.subs[j].since == s.subs[j].since && (s'.subs[j].Live() ==> s.subs[j].Live())
      ensures (s'.subs[j].closed ==> s'.subs[j].leaving)
      ensures s'.subs[j].leaving || s'.subs[j].dropped || s'.subs[j].evicted ==> s'.subs[j].registered
    {
      UnsubscribeTouches(s, s', id, j);
    }
  }

  lemma UnsubscribeBeginKeeps(s: State, s': State, id: nat)
    requires Inv(s) && UnsubscribeBegin(s, s', id)
    ensures Inv(s')
  {
    UnsubscribeKeepsNames(s, s', id);
    UnsubscribeKeepsLock(s, s', id);
    UnsubscribeKeepsGone(s, s', id);
    UnsubscribeTouches(s, s', id, id);
    forall j | 0 <= j < |s'.subs| ensures Tracks(s'.subs[j], s'.history, Awaited(s', j)) {
      UnsubscribeTouches(s, s', id, j);
      assert Tracks(s.subs[j], s.history, Awaited(s, j));
      if j == id {
        LeftTracks(s.subs[j], s.history, Awaited(s, j));
      } else if s.subs[id].name in s.names && s.names[s.subs[id].name] == j {
        EvictedTracks(s.subs[j], s.history, Awaited(s, j));
      }
    }
  }

  // Closing and receiving change nothing the invariant speaks of.
  ghost predicate SubTouch(s: State, s': State, id: nat) {
    UnsubscribeClose(s, s', id) || Receive(s, s', id)
  }

  lemma TouchKeepsNames(s: State, s': State, id: nat)
    requires NamesLive(s) && Ordered(s) && SubTouch(s, s', id)
    ensures NamesLive(s') && Ordered(s')
  {
    assert forall j | 0 <= j < |s.subs| ::
        s'.subs[j].name == s.subs[j].name && (s'.subs[j].Live() <==> s.subs[j].Live());
  }

  lemma TouchKeepsLock(s: State, s': State, id: nat)
    requires LockFits(s) && GoneBefore(s) && SubTouch(s, s', id)
    ensures LockFits(s') && GoneBefore(s')
  {
    assert forall j | 0 <= j < |s.subs| ::
        s'.subs[j].registered == s.subs[j].registered && s'.subs[j].replay == s.subs[j].replay;
    assert forall j | 0 <= j < |s.subs| :: s'.subs[j].Live() <==> s.subs[j].Live();
    forall j | 0 <= j < |s'.subs| ensures Went(s'.subs[j], s'.history, s'.lock.Publishing? && j in s'.lock.seen) {
      assert Went(s.subs[j], s.history, s.lock.Publishing? && j in s.lock.seen);
    }
  }

  lemma SubTouchKeeps(s: State, s': State, id: nat)
    requires Inv(s) && SubTouch(s, s', id)
    ensures Inv(s')
  {
    TouchKeepsNames(s, s', id);
    TouchKeepsLock(s, s', id);
    forall j | 0 <= j < |s'.subs| ensures Tracks(s'.subs[j], s'.history, Awaited(s', j)) {
      assert Tracks(s.subs[j], s.history, Awaited(s, j));
      TouchedTracks(s.subs[j], s.history, Awaited(s, j), s'.subs[j].taken, s'.subs[j].closed);
    }
  }

  lemma StepKeepsInv(s: State, s': State)
    requires Inv(s) && Step(s, s')
    ensures Inv(s')
  {
    if e :| PublishBegin(s, s', e) {
      PublishBeginKeeps(s, s', e);
    } else if id :| Visit(s, s', id) {
      VisitKeeps(s, s', id);
    } else if PublishEnd(s, s') {
      PublishEndKeeps(s, s');
    } else if name, size :| ReplayBegin(s, s', name, size) {
      ReplayBeginKeeps(s, s', name, size);
    } else if ReplayRegister(s, s') {
      ReplayRegisterKeeps(s, s');
    } else if name, size :| Subscribe(s, s', name, size) {
      SubscribeKeeps(s, s', name, size);
    } else if id :| UnsubscribeBegin(s, s', id) {
      UnsubscribeBeginKeeps(s, s', id);
    } else if id :| UnsubscribeClose(s, s', id) {
      SubTouchKeeps(s, s', id);
    } else {
      var id :| Receive(s, s', id);
      SubTouchKeeps(s, s', id);
    }
  }

  lemma {:induction false} RunKeepsInv(run: seq<State>)
    requires Run(run)
    ensures Inv(run[|run| - 1])
  {
    var last := |run| - 1;
    if last > 0 {
      RunPrefix(run, last);
      RunKeepsInv(run[..last]);
      assert StepAt(run, last - 1);
      StepKeepsInv(run[last - 1], run[last]);
    }
  }

  // ---- what a step does to one subscription ----

  ghost predicate Changes(s: State, s': State, id: nat)
    requires id < |s.subs| && id < |s'.subs|
  {
    var sub, after := s.subs[id], s'.subs[id];
    || after == sub
    || (Visit(s, s', id) && after == Offered(sub, s.history))
    || (!sub.registered && after == sub.(registered := true))
    || after == Left(sub, s.history, Awaited(s, id))
    || after == Evicted(sub, s.history, Awaited(s, id))
    || (sub.leaving && after == sub.(closed := true))
    || (sub.taken < |sub.sent| && after == sub.(taken := sub.taken + 1))
  }

  lemma StepChanges(s: State, s': State, id: nat)
    requires Step(s, s') && id < |s.subs|
    ensures id < |s'.subs| && Changes(s, s', id)
  {
    if e :| PublishBegin(s, s', e) {
    } else if j :| Visit(s, s', j) {
      VisitTouches(s, s', j);
    } else if PublishEnd(s, s') {
    } else if name, size :| ReplayBegin(s, s', name, size) {
      ReplayBeginAppends(s, s', name, size);
    } else if ReplayRegister(s, s') {
      RegisterChanges(s, s', id);
    } else if name, size :| Subscribe(s, s', name, size) {
      SubscribeAppends(s, s', name, size);
    } else if j :| UnsubscribeBegin(s, s', j) {
      UnsubscribeTouches(s, s', j, id);
    } else if j :| UnsubscribeClose(s, s', j) {
    } else {
      var j :| Receive(s, s', j);
    }
  }

  lemma RegisterChanges(s: State, s': State, id: nat)
    requires ReplayRegister(s, s') && id < |s.subs|
    ensures |s'.subs| == |s.subs| && Changes(s, s', id)
  {}

  // ---- when an event is dropped ----

  // The publish under way comes to the subscription between the states i and i + 1.
  ghost predicate VisitedAt(run: seq<State>, i: nat, id: nat) {
    && i + 1 < |run| && Awaited(run[i], id)
    && run[i + 1].lock.Publishing? && id in run[i + 1].lock.visited
  }

  ghost predicate FullAt(run: seq<State>, i: nat, id: nat) {
    VisitedAt(run, i, id) && id < |run[i].subs| && !run[i].subs[id].closed && run[i].subs[id].Full()
  }

  lemma VisitedIsVisit(s: State, s': State, id: nat)
    requires Step(s, s') && id < |s.subs| && s.history != []
    ensures Awaited(s, id) && s'.lock.Publishing? && id in s'.lock.visited <==> Visit(s, s', id)
  {
    if e :| PublishBegin(s, s', e) {
    } else if j :| Visit(s, s', j) {
      VisitTouches(s, s', j);
    } else if PublishEnd(s, s') {
    } else if name, size :| ReplayBegin(s, s', name, size) {
    } else if ReplayRegister(s, s') {
    } else if name, size :| Subscribe(s, s', name, size) {
    } else if j :| UnsubscribeBegin(s, s', j) {
      UnsubscribeTouches(s, s', j, id);
    } else if j :| UnsubscribeClose(s, s', j) {
    } else {
      var j :| Receive(s, s', j);
    }
  }

  lemma NewIsWhole(s: State, s': State, id: nat)
    requires Step(s, s') && |s.subs| <= id < |s'.subs|
    ensures !s'.subs[id].dropped
  {
    if j :| UnsubscribeBegin(s, s', j) {
      UnsubscribeTouches(s, s', j, 0);
    }
  }

  lemma DropStep(run: seq<State>, i: nat, id: nat)
    requires i + 1 < |run| && Inv(run[i]) && Step(run[i], run[i + 1]) && id < |run[i + 1].subs|
    ensures run[i + 1].subs[id].dropped <==> (id < |run[i].subs| && run[i].subs[id].dropped) || FullAt(run, i, id)
  {
    var s, s' := run[i], run[i + 1];
    if id < |s.subs| {
      StepChanges(s, s', id);
      if s.history != [] {
        VisitedIsVisit(s, s', id);
        if Visit(s, s', id) {
          VisitTouches(s, s', id);
        }
      }
    } else {
      NewIsWhole(s, s', id);
    }
  }

  // An event is dropped exactly when a publish comes to an open subscription whose
  // buffer is full.
  lemma {:induction false} DroppedExactlyWhen(run: seq<State>, id: nat)
    requires Run(run) && id < |run[|run| - 1].subs|
    ensures run[|run| - 1].subs[id].dropped <==> exists i :: FullAt(run, i, id)
  {
    var last := |run| - 1;
    if last > 0 {
      var init := run[..last];
      RunPrefix(run, last);
      RunKeepsInv(init);
      assert StepAt(run, last - 1);
      DropStep(run, last - 1, id);
      if id < |init[last - 1].subs| {
        DroppedExactlyWhen(init, id);
      } else {
        NotThereBefore(init, id);
      }
      forall i: nat | i < last - 1 ensures FullAt(run, i, id) <==> FullAt(init, i, id) {}
    }
  }

  lemma {:induction false} NotThereBefore(run: seq<State>, id: nat)
    requires Run(run) && id >= |run[|run| - 1].subs|
    ensures forall i: nat :: !FullAt(run, i, id)
  {
    forall i: nat | i < |run| ensures id >= |run[i].subs| {
      SubsStay(run, i);
    }
  }

  lemma {:induction false} SubsStay(run: seq<State>, i: nat)
    requires Run(run) && i < |run|
    ensures |run[i].subs| <= |run[|run| - 1].subs|
    decreases |run|
  {
    var last := |run| - 1;
    if i < last {
      RunPrefix(run, last);
      SubsStay(run[..last], i);
      assert StepAt(run, last - 1);
    }
  }

  // The buffer had room whenever a publish came to the open subscription.
  ghost predicate HadRoom(run: seq<State>, id: nat) {
    forall i: nat :: !FullAt(run, i, id)
  }

  // ---- what a subscriber gets ----

  // Under every schedule, a subscriber whose buffer had room and whose name nobody
  // else deleted has been sent every publish begun after its registration, in order
  // and without a gap: all of them while it stays (but for a publish still on its
  // way to it), and once its unsubscribe has begun all those delivered by then,
  // which leaves out at most the one on its way, and none begun after. Before them
  // it was sent at most the last publish begun before its registration.
  lemma NoGap(run: seq<State>, id: nat)
    requires Run(run) && HadRoom(run, id)
    requires var s := run[|run| - 1]; id < |s.subs| && s.subs[id].registered && !s.subs[id].evicted
    ensures var s := run[|run| - 1];
            var sub := s.subs[id];
            && Contiguous(sub, s.history)
            && (!sub.leaving ==> Reached(sub, s.history) == |s.history| - Pending(s, id))
            && (!sub.leaving && s.lock.Free? ==> sub.sent == Seed(sub, s.history) + s.history[sub.since..])
            && (sub.leaving ==> sub.leftAt - 1 <= sub.until <= Reached(sub, s.history) <= sub.leftAt <= |s.history|)
  {
    DroppedExactlyWhen(run, id);
    RunKeepsInv(run);
    var s := run[|run| - 1];
    assert Tracks(s.subs[id], s.history, Awaited(s, id));
    assert Went(s.subs[id], s.history, s.lock.Publishing? && id in s.lock.seen);
  }

  // A replay subscriber was moreover sent that last publish before, if there was one.
  lemma ReplayHasNoGap(run: seq<State>, id: nat)
    requires Run(run) && HadRoom(run, id)
    requires var s := run[|run| - 1]; id < |s.subs| && s.subs[id].replay && s.subs[id].registered && !s.subs[id].evicted
    ensures var s := run[|run| - 1];
            var sub, n := s.subs[id], s.subs[id].since;
            && n <= Reached(sub, s.history) <= |s.history|
            && sub.sent == s.history[if n == 0 then 0 else n - 1..Reached(sub, s.history)]
            && (!sub.leaving && s.lock.Free? ==> sub.sent == s.history[if n == 0 then 0 else n - 1..])
  {
    NoGap(run, id);
    RunKeepsInv(run);
    var s := run[|run| - 1];
    assert Tracks(s.subs[id], s.history, Awaited(s, id));
    SeedIsNext(s.subs[id], s.history);
  }

  lemma SeedIsNext(sub: Sub, history: seq<Event>)
    requires Contiguous(sub, history) && (sub.seeded <==> sub.since > 0)
    ensures sub.sent == history[if sub.since == 0 then 0 else sub.since - 1..Reached(sub, history)]
  {}

  // The buffer of a subscription never holds more than its size.
  lemma NeverOverflows(run: seq<State>, id: nat)
    requires Run(run) && id < |run[|run| - 1].subs|
    ensures var sub := run[|run| - 1].subs[id]; sub.taken <= |sub.sent| <= sub.taken + sub.size
  {
    RunKeepsInv(run);
    var s := run[|run| - 1];
    assert Tracks(s.subs[id], s.history, Awaited(s, id));
  }

  // One whose name another unsubscribe deleted has a gap from the next publish on,
  // for good: what it was sent ends with the publishes before that.
  lemma EvictedHasGap(run: seq<State>, id: nat)
    requires Run(run) && HadRoom(run, id)
    requires var s := run[|run| - 1]; id < |s.subs| && s.subs[id].evicted
    ensures var s := run[|run| - 1];
            var sub := s.subs[id];
            && Contiguous(sub, s.history)
            && sub.until <= Reached(sub, s.history) <= sub.evictedAt <= |s.history|
            && (sub.evictedAt < |s.history| ==> Pending(s, id) == 0 && Reached(sub, s.history) < |s.history|)
  {
    DroppedExactlyWhen(run, id);
    RunKeepsInv(run);
    var s := run[|run| - 1];
    assert Tracks(s.subs[id], s.history, Awaited(s, id));
    assert Went(s.subs[id], s.history, s.lock.Publishing? && id in s.lock.seen);
  }

  // So in every run a subscriber that stays, with room in its buffer, is up to date
  // if and only if no other unsubscribe deleted its name, once a publish has begun
  // since.
  lemma UpToDateExactlyWhen(run: seq<State>, id: nat)
    requires Run(run) && HadRoom(run, id)
    requires var s := run[|run| - 1];
             && id < |s.subs| && s.subs[id].registered && !s.subs[id].leaving
             && (s.subs[id].evicted ==> s.subs[id].evictedAt < |s.history|)
    ensures var s := run[|run| - 1];
            Reached(s.subs[id], s.history) == |s.history| - Pending(s, id) <==> !s.subs[id].evicted
  {
    if run[|run| - 1].subs[id].evicted {
      EvictedHasGap(run, id);
    } else {
      NoGap(run, id);
    }
  }

  // No send follows the close, whoever does what, and a channel never closes
  // before its unsubscribe began.
  lemma NoSendAfterClose(s: State, s': State, id: nat)
    requires Step(s, s') && id < |s.subs|
    ensures id < |s'.subs|
    ensures s.subs[id].closed ==> s'.subs[id].closed && s'.subs[id].sent == s.subs[id].sent
    ensures s'.subs[id].closed && !s.subs[id].closed ==> s.subs[id].leaving
  {
    StepChanges(s, s', id);
  }

  lemma {:induction false} ClosedForGood(run: seq<State>, i: nat, j: nat, id: nat)
    requires Run(run) && i <= j < |run| && id < |run[i].subs| && run[i].subs[id].closed
    ensures id < |run[j].subs| && run[j].subs[id].closed && run[j].subs[id].sent == run[i].subs[id].sent
    decreases j - i
  {
    if i < j {
      ClosedForGood(run, i, j - 1, id);
      ClosedStays(run, j - 1, id);
    }
  }

  lemma ClosedStays(run: seq<State>, i: nat, id: nat)
    requires Run(run) && i + 1 < |run| && id < |run[i].subs| && run[i].subs[id].closed
    ensures id < |run[i + 1].subs| && run[i + 1].subs[id].closed && run[i + 1].subs[id].sent == run[i].subs[id].sent
  {
    assert StepAt(run, i);
    NoSendAfterClose(run[i], run[i + 1], id);
  }

  // ---- nothing waits for a subscriber ----

  ghost predicate Leads(path: seq<State>, s: State, t: State) {
    path != [] && path[0] == s && path[|path| - 1] == t && forall i: nat :: StepAt(path, i)
  }

  lemma Extends(s: State, s': State, path: seq<State>, t: State)
    requires Step(s, s') && Leads(path, s', t)
    ensures Leads([s] + path, s, t)
  {
    var all := [s] + path;
    forall i: nat ensures StepAt(all, i) {
      if i > 0 {
        assert StepAt(path, i - 1);
      }
    }
  }

  // A publish can come to its end although no subscriber receives anything, and has
  // then offered the event to every subscription that was in the map throughout.
  lemma {:induction false} PublishEnds(s: State) returns (path: seq<State>, t: State)
    requires Inv(s) && s.lock.Publishing?
    ensures Leads(path, s, t) && |path| <= 2 + |s.lock.seen - s.lock.visited|
    ensures t.lock.Free? && t.names == s.names && t.history == s.history && |t.subs| == |s.subs|
    ensures forall id | 0 <= id < |s.subs| :: t.subs[id].taken == s.subs[id].taken
    decreases |s.lock.seen - s.lock.visited|
  {
    if id: nat :| id in s.lock.seen - s.lock.visited {
      var s' := VisitNext(s, id);
      path, t := PublishEnds(s');
      Extends(s, s', path, t);
    } else {
      t := s.(lock := Free);
      AllVisited(s);
      path := [t];
      Extends(s, t, path, t);
    }
    path := [s] + path;
  }

  lemma VisitNext(s: State, id: nat) returns (s': State)
    requires Inv(s) && s.lock.Publishing? && id in s.lock.seen - s.lock.visited
    ensures Step(s, s') && Inv(s') && s'.lock.Publishing? && s'.lock.seen == s.lock.seen
    ensures s'.lock.seen - s'.lock.visited == (s.lock.seen - s.lock.visited) - {id}
    ensures s'.names == s.names && s'.history == s.history && |s'.subs| == |s.subs|
    ensures forall j | 0 <= j < |s.subs| :: s'.subs[j].taken == s.subs[j].taken
  {
    s' := Update(s, id, Offered(s.subs[id], s.history)).(lock := s.lock.(visited := s.lock.visited + {id}));
    assert Visit(s, s', id);
    VisitKeeps(s, s', id);
  }

  lemma AllVisited(s: State)
    requires s.lock.Publishing? && s.lock.must <= s.lock.seen && s.lock.seen - s.lock.visited == {}
    ensures Step(s, s.(lock := Free))
  {
    forall id | id in s.lock.must ensures id in s.lock.visited {
      assert id !in s.lock.seen - s.lock.visited;
    }
    assert PublishEnd(s, s.(lock := Free));
  }

  // A subscription that has begun to leave can be closed at once, whatever is under way.
  lemma CanClose(s: State, id: nat) returns (s': State)
    requires id < |s.subs| && s.subs[id].leaving
    ensures Step(s, s') && |s'.subs| == |s.subs| && s'.subs[id].closed && s'.subs[id].sent == s.subs[id].sent
    ensures forall j | 0 <= j < |s.subs| && j != id :: s'.subs[j] == s.subs[j]
  {
    s' := Update(s, id, s.subs[id].(closed := true));
    assert UnsubscribeClose(s, s', id);
  }

  // Unsubscribing twice deletes by name whoever took the name in between: that
  // subscriber stays registered and open but is sent nothing more.
  lemma SecondUnsubscribeLosesEvents() returns (run: seq<State>)
    ensures Run(run)
    ensures var s := run[|run| - 1];
            && s.lock.Free? && s.history == ["e"] && |s.subs| == 2
            && var other := s.subs[1];
               && other.replay && other.registered && !other.leaving && !other.closed && !other.dropped
               && other.evicted && other.since == 0 && other.sent == []
  {
    var first := NewSub("a", 1, false, [], 0).(registered := true);
    var gone := first.(leaving := true);
    var other := NewSub("a", 1, true, [], 0);
    var there := other.(registered := true);
    var s0 := State([], map[], Free, []);
    var s1 := State([first], map["a" := 0], Free, []);
    var s2 := State([gone], map[], Free, []);
    var s3 := State([gone, other], map[], Replaying(1), []);
    var s4 := State([gone, there], map["a" := 1], Free, []);
    var s5 := State([gone, there.(evicted := true)], map[], Free, []);
    var s6 := s5.(history := ["e"], lock := Publishing({}, {}, {}));
    var s7 := s6.(lock := Free);
    assert Subscribe(s0, s1, "a", 1);
    assert UnsubscribeBegin(s1, s2, 0) by {
      assert s1.names - {"a"} == map[];
    }
    assert ReplayBegin(s2, s3, "a", 1);
    assert ReplayRegister(s3, s4);
    assert UnsubscribeBegin(s4, s5, 0) by {
      assert s4.names - {"a"} == map[];
      assert Leave(s4, 0) == s4;
      assert s4.subs[1 := there.(evicted := true)] == s5.subs;
    }
    assert PublishBegin(s5, s6, "e") by {
      assert s5.names.Values == {};
      assert [] + ["e"] == ["e"];
    }
    assert PublishEnd(s6, s7);
    run := [s0, s1, s2, s3, s4, s5, s6, s7];
  }
}
