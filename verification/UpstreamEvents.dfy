/**
 The event loop of an upstream (internal/upstreams/upstream_events.go): state
 events go in, announcements to the chain supervisor come out.
 */
module UpstreamEvents {
  import opened Protocol
  import opened UpstreamMethods

  datatype StateEvent =
    | FatalError
    | BecameValid
    | BanMethod(name: string)
    | UnbanMethod(name: string)
    | UnsupportedMethods(names: set<string>)
    | StatusReport(status: Status, isLag: bool)
    | HeadReport(head: Block)
    | BlockReport(block: Block, kind: BlockType)
    | BoundReport(bound: LowerBound)
    | CapsReport(caps: set<Cap>)
    | LabelReport(key: string, value: string)
    | Init
    // Another goroutine stores a new lag; the loop itself does not run.
    | LagStored(lag: int)

  // What the supervisor is told.
  datatype Announcement =
    | Removed
    | Validated(state: UpstreamState)
    | Head(status: Status, head: Block)
    | Changed(state: UpstreamState)

  // ---- events that only update the state ----

  predicate Same(e: StateEvent, s: UpstreamState) {
    match e
    case BlockReport(block, kind) => (if kind in s.blocks then s.blocks[kind] else ZERO_BLOCK).Equals(block)
    case BoundReport(bound) => bound.kind in s.bounds && s.bounds[bound.kind] == bound
    case CapsReport(caps) => s.caps == caps
    case LabelReport(key, value) => key in s.labels && s.labels[key] == value
    case _ => false
  }

  function Updated(e: StateEvent, s: UpstreamState): UpstreamState {
    match e
    case HeadReport(head) => s.(head := head)
    case BlockReport(block, kind) => s.(blocks := s.blocks[kind := block])
    case BoundReport(bound) => s.(bounds := s.bounds[bound.kind := bound])
    case CapsReport(caps) => s.(caps := caps)
    case LabelReport(key, value) => s.(labels := s.labels[key := value])
    case _ => s
  }

  // The state says what the report says.
  predicate Reflects(e: StateEvent, s: UpstreamState) {
    match e
    case HeadReport(head) => s.head == head
    case BlockReport(block, kind) => (if kind in s.blocks then s.blocks[kind] else ZERO_BLOCK).Equals(block)
    case BoundReport(bound) => bound.kind in s.bounds && s.bounds[bound.kind] == bound
    case CapsReport(caps) => s.caps == caps
    case LabelReport(key, value) => key in s.labels && s.labels[key] == value
    case _ => true
  }

  // Apart from what the report is about, the states agree.
  predicate AgreeBut(e: StateEvent, s: UpstreamState, t: UpstreamState) {
    && t.status == s.status && t.methods == s.methods
    && (!e.HeadReport? ==> t.head == s.head)
    && (!e.CapsReport? ==> t.caps == s.caps)
    && t.blocks - (if e.BlockReport? then {e.kind} else {}) == s.blocks - (if e.BlockReport? then {e.kind} else {})
    && t.bounds - (if e.BoundReport? then {e.bound.kind} else {}) ==
       s.bounds - (if e.BoundReport? then {e.bound.kind} else {})
    && t.labels - (if e.LabelReport? then {e.key} else {}) == s.labels - (if e.LabelReport? then {e.key} else {})
  }

  // A report is stored as it is, nothing else changes, and one is skipped exactly if
  // the state says so already.
  lemma ReportIsStored(e: StateEvent, s: UpstreamState)
    requires Reports(e)
    ensures Reflects(e, if Same(e, s) then s else Updated(e, s)) && AgreeBut(e, s, Updated(e, s))
    ensures !e.HeadReport? && !e.Init? ==> (Same(e, s) <==> Reflects(e, s))
  {
  }

  // A block of a kind not seen yet is skipped if and only if it is the zero block, raw
  // data aside.
  lemma NoBlockIsZero(block: Block, kind: BlockType, s: UpstreamState)
    requires kind !in s.blocks
    ensures Same(BlockReport(block, kind), s) <==> block.(rawData := "") == ZERO_BLOCK
  {
    EqualButRawData(ZERO_BLOCK, block);
  }

  // ---- the order of announcements ----

  function ValidAfter(initial: bool, anns: seq<Announcement>): bool {
    if anns == [] then initial
    else match anns[|anns| - 1]
      case Removed => false
      case Validated(_) => true
      case _ => ValidAfter(initial, anns[..|anns| - 1])
  }

  // Only `Validated` is announced while the upstream is invalid, and only then.
  ghost predicate Orderly(initial: bool, anns: seq<Announcement>) {
    forall i | 0 <= i < |anns| :: anns[i].Validated? <==> !ValidAfter(initial, anns[..i])
  }

  lemma OrderlyAppend(initial: bool, anns: seq<Announcement>, ann: Announcement)
    requires Orderly(initial, anns) && (ann.Validated? <==> !ValidAfter(initial, anns))
    ensures Orderly(initial, anns + [ann])
    ensures ValidAfter(initial, anns + [ann]) ==
            match ann { case Removed => false case Validated(_) => true case _ => ValidAfter(initial, anns) }
  {
    var all := anns + [ann];
    assert all[..|anns|] == anns;
    forall i | 0 <= i < |all| ensures all[i].Validated? <==> !ValidAfter(initial, all[..i]) {
      if i < |anns| {
        assert all[..i] == anns[..i];
      }
    }
  }

  // Right after a removal comes the announcement that the upstream is valid again.
  lemma RemovedThenValidated(initial: bool, anns: seq<Announcement>, i: nat)
    requires Orderly(initial, anns) && i + 1 < |anns| && anns[i].Removed?
    ensures anns[i + 1].Validated?
  {
    assert anns[..i + 1][..|anns[..i + 1]| - 1] == anns[..i];
    assert anns[..i + 1][i] == anns[i];
  }

  // Between two validations there is a removal.
  lemma {:induction false} ValidatedOncePerRemoval(initial: bool, anns: seq<Announcement>, i: nat, j: nat)
    requires Orderly(initial, anns) && i < j < |anns| && anns[i].Validated? && anns[j].Validated?
    ensures exists k :: i < k < j && anns[k].Removed?
  {
    if forall k | i < k < j :: !anns[k].Removed? {
      StaysValid(initial, anns, i, j);
    }
  }

  lemma {:induction false} StaysValid(initial: bool, anns: seq<Announcement>, i: nat, j: nat)
    requires i < j <= |anns| && anns[i].Validated? && forall k | i < k < j :: !anns[k].Removed?
    ensures ValidAfter(initial, anns[..j])
    decreases j
  {
    assert anns[..j][..|anns[..j]| - 1] == anns[..j - 1];
    if i < j - 1 {
      StaysValid(initial, anns, i, j - 1);
    }
  }

  // ---- the supervisor's copy ----

  // The row the supervisor keeps for the upstream, if any.
  datatype Row = NoRow | Row(state: UpstreamState)

  function NextRow(row: Row, ann: Announcement): Row {
    match ann
    case Removed => NoRow
    case Validated(s) => Row(s)
    case Changed(s) => Row(s)
    case Head(_, head) => if row.Row? then Row(row.state.(head := head)) else NoRow
  }

  function RunRow(anns: seq<Announcement>): Row {
    if anns == [] then NoRow else NextRow(RunRow(anns[..|anns| - 1]), anns[|anns| - 1])
  }

  lemma RunRowAppend(anns: seq<Announcement>, ann: Announcement)
    ensures RunRow(anns + [ann]) == NextRow(RunRow(anns), ann)
  {
    assert (anns + [ann])[..|anns|] == anns;
  }

  // ---- the loop ----

  class Upstream {
    const spec: Spec
    const config: MethodsConfig
    const syncingLag: int
    const initialValid: bool

    var bannedMethods: set<string>
    var unsupportedMethods: set<string>
    var validUpstream: bool
    var baseAvail: Status
    var state: UpstreamState
    var headLag: int
    var published: seq<Announcement>

    // The sets the stored methods were last composed from.
    ghost var storedBanned: set<string>
    ghost var storedUnsupported: set<string>

    // The row the supervisor keeps is the stored state, and it keeps none for an invalid upstream.
    ghost predicate RowAgrees()
      reads this
    {
      RunRow(published).Row? ==> validUpstream && RunRow(published).state == state
    }

    ghost predicate Valid()
      reads this
    {
      && spec.Valid()
      && state.Valid()
      && Orderly(initialValid, published)
      && ValidAfter(initialValid, published) == validUpstream
      && IsComposed(spec, config, storedBanned, storedUnsupported, state.methods)
      && RowAgrees()
    }

    // The stored methods were composed from the current sets.
    ghost predicate InStep()
      reads this
    {
      storedBanned == bannedMethods && storedUnsupported == unsupportedMethods
    }

    // The stored methods are those the current sets give.
    ghost predicate UpToDate()
      requires spec.Valid()
      reads this
    {
      IsComposed(spec, config, bannedMethods, unsupportedMethods, state.methods)
    }

    constructor (spec: Spec, config: MethodsConfig, syncingLag: int, initialValid: bool, initial: UpstreamState)
      requires spec.Valid() && initial.Valid()
      requires IsComposed(spec, config, {}, {}, initial.methods)
      ensures Valid() && InStep() && validUpstream == initialValid && state == initial && published == []
    {
      this.spec, this.config, this.syncingLag, this.initialValid := spec, config, syncingLag, initialValid;
      bannedMethods, unsupportedMethods, validUpstream := {}, {}, initialValid;
      baseAvail, state, headLag, published := initial.status, initial, 0, [];
      storedBanned, storedUnsupported := {}, {};
    }

    method Publish(s: UpstreamState, ann: Announcement)
      modifies this`state, this`published
      ensures state == s && published == old(published) + [ann]
    {
      state := s;
      published := published + [ann];
    }

    // Announces a state derived from the stored one.
    method PublishIfValid(s: UpstreamState, ann: Announcement)
      requires Orderly(initialValid, published) && ValidAfter(initialValid, published) == validUpstream && RowAgrees()
      requires ann == Changed(s) || (ann.Head? && ann.head == s.head && s == state.(head := s.head))
      modifies this`state, this`published
      ensures Orderly(initialValid, published) && ValidAfter(initialValid, published) == validUpstream && RowAgrees()
      ensures validUpstream ==> state == s && published == old(published) + [ann]
      ensures !validUpstream ==> state == old(state) && published == old(published)
    {
      if validUpstream {
        OrderlyAppend(initialValid, published, ann);
        RunRowAppend(published, ann);
        Publish(s, ann);
      }
    }

    method OnFatalError()
      requires Valid()
      modifies this`validUpstream, this`state, this`published
      ensures Valid() && !validUpstream && state == old(state)
      ensures published == if old(validUpstream) then old(published) + [Removed] else old(published)
    {
      if validUpstream {
        OrderlyAppend(initialValid, published, Removed);
        RunRowAppend(published, Removed);
        validUpstream := false;
        Publish(state, Removed);
      }
    }

    method OnBecameValid()
      requires Valid()
      modifies this`validUpstream, this`state, this`published
      ensures Valid() && validUpstream && state == old(state)
      ensures published == if old(validUpstream) then old(published) else old(published) + [Validated(state)]
    {
      if !validUpstream {
        OrderlyAppend(initialValid, published, Validated(state));
        RunRowAppend(published, Validated(state));
        validUpstream := true;
        Publish(state, Validated(state));
      }
    }

    // The method sets changed: the methods are composed again.
    method Recompose()
      requires Valid()
      modifies this`state, this`published, this`storedBanned, this`storedUnsupported
      ensures Valid()
      ensures validUpstream ==> InStep() && published == old(published) + [Changed(state)]
      ensures validUpstream ==> state == old(state).(methods := state.methods)
      ensures !validUpstream ==> state == old(state) && published == old(published)
                                 && storedBanned == old(storedBanned) && storedUnsupported == old(storedUnsupported)
    {
      var methods := Compose(spec, config, bannedMethods, unsupportedMethods);
      var s := state.(methods := methods);
      PublishIfValid(s, Changed(s));
      if validUpstream {
        storedBanned, storedUnsupported := bannedMethods, unsupportedMethods;
      }
    }

    method OnStatus(status: Status, isLag: bool)
      requires Valid()
      modifies this`baseAvail, this`state, this`published
      ensures Valid()
      ensures baseAvail == if validUpstream && !isLag then status else old(baseAvail)
      ensures state == if validUpstream then old(state).(status := StatusByLag(headLag, baseAvail, syncingLag))
              else old(state)
      ensures published == if state == old(state) then old(published) else old(published) + [Changed(state)]
    {
      if validUpstream {
        if !isLag {
          baseAvail := status;
        }
        var newAvail := StatusByLag(headLag, baseAvail, syncingLag);
        if newAvail != state.status {
          var s := state.(status := newAvail);
          PublishIfValid(s, Changed(s));
        }
      }
    }

    method OnMethods(e: StateEvent)
      requires Valid() && ChangesMethods(e)
      modifies this`bannedMethods, this`unsupportedMethods, this`state, this`published, this`storedBanned,
          this`storedUnsupported
      ensures Valid() && old(published) <= published
      ensures unsupportedMethods == if e.UnsupportedMethods? then e.names else old(unsupportedMethods)
      ensures bannedMethods == NextBanned(spec, config, old(bannedMethods), e)
      ensures var recomposed := Recomposes(spec, config, e, validUpstream, old(bannedMethods), old(unsupportedMethods));
              && (recomposed ==> InStep() && published == old(published) + [Changed(state)])
              && (!recomposed ==> state == old(state) && published == old(published)
                                  && storedBanned == old(storedBanned) && storedUnsupported == old(storedUnsupported))
      ensures state == old(state).(methods := state.methods)
    {
      match e
      case BanMethod(name) =>
        var forced := IsForceEnabled(spec, config, name);
        if name !in bannedMethods && !forced {
          bannedMethods := bannedMethods + {name};
          Recompose();
        }
      case UnbanMethod(name) =>
        if name in bannedMethods {
          bannedMethods := bannedMethods - {name};
          Recompose();
        }
      case UnsupportedMethods(names) =>
        if unsupportedMethods != names {
          unsupportedMethods := names;
          Recompose();
        }
    }

    method OnReport(e: StateEvent)
      requires Valid() && Reports(e)
      modifies this`state, this`published
      ensures Valid() && old(published) <= published
      ensures state == if validUpstream && !Same(e, old(state)) then Updated(e, old(state)) else old(state)
      ensures AgreeBut(e, old(state), state) && (validUpstream ==> Reflects(e, state))
      ensures published == old(published) +
                           if !validUpstream || Same(e, old(state)) then []
                           else [if e.HeadReport? then Head(old(state.status), e.head) else Changed(state)]
    {
      ReportIsStored(e, state);
      if e.HeadReport? {
        PublishIfValid(Updated(e, state), Head(state.status, e.head));
      } else if !Same(e, state) {
        PublishIfValid(Updated(e, state), Changed(Updated(e, state)));
      }
    }

    // What the upstream is told about itself.
    method OnSignal(e: StateEvent)
      requires Valid() && !ChangesMethods(e) && !Reports(e)
      modifies this`validUpstream, this`baseAvail, this`state, this`headLag, this`published
      ensures Valid() && old(published) <= published
      ensures validUpstream == NextValid(old(validUpstream), e)
      ensures headLag == NextLag(old(headLag), e) && baseAvail == NextBase(old(validUpstream), old(baseAvail), e)
      ensures state == if SetsStatus(old(validUpstream), e)
                       then old(state).(status := StatusByLag(headLag, baseAvail, syncingLag)) else old(state)
    {
      match e
      case FatalError => OnFatalError();
      case BecameValid => OnBecameValid();
      case StatusReport(status, isLag) => OnStatus(status, isLag);
      case LagStored(_) => headLag := NextLag(headLag, e);
    }

    // Everything but the method sets.
    method OnOther(e: StateEvent)
      requires Valid() && !ChangesMethods(e)
      modifies this`validUpstream, this`baseAvail, this`state, this`headLag, this`published
      ensures Valid() && old(published) <= published
      ensures validUpstream == NextValid(old(validUpstream), e)
      ensures headLag == NextLag(old(headLag), e) && baseAvail == NextBase(old(validUpstream), old(baseAvail), e)
      ensures state.status == if SetsStatus(old(validUpstream), e) then StatusByLag(headLag, baseAvail, syncingLag)
                              else old(state.status)
      ensures Reports(e) ==> state == if validUpstream && !Same(e, old(state)) then Updated(e, old(state))
              else old(state)
      ensures !validUpstream || e.BecameValid? ==> state == old(state)
    {
      if Reports(e) {
        OnReport(e);
      } else {
        OnSignal(e);
      }
    }

    method Process(e: StateEvent)
      requires Valid()
      modifies this
      ensures Valid() && old(published) <= published
      ensures validUpstream == NextValid(old(validUpstream), e)
      ensures unsupportedMethods == if e.UnsupportedMethods? then e.names else old(unsupportedMethods)
      ensures bannedMethods == NextBanned(spec, config, old(bannedMethods), e)
      ensures var recomposed := Recomposes(spec, config, e, old(validUpstream), old(bannedMethods),
              old(unsupportedMethods));
              && (recomposed ==> InStep())
              && (!recomposed ==> storedBanned == old(storedBanned) && storedUnsupported == old(storedUnsupported))
              && (!recomposed && ChangesMethods(e) ==> state == old(state) && published == old(published))
      ensures headLag == NextLag(old(headLag), e) && baseAvail == NextBase(old(validUpstream), old(baseAvail), e)
      ensures state.status == if SetsStatus(old(validUpstream), e) then StatusByLag(headLag, baseAvail, syncingLag)
                              else old(state.status)
      ensures Reports(e) ==> state == if validUpstream && !Same(e, old(state)) then Updated(e, old(state))
              else old(state)
      ensures !validUpstream || e.BecameValid? ==> state == old(state)
    {
      if ChangesMethods(e) {
        OnMethods(e);
        assert !Reports(e) && !SetsStatus(validUpstream, e) && !e.BecameValid?;
      } else {
        OnOther(e);
      }
    }

    // Over every run: announcements are orderly, the supervisor's row is the
    // stored state, and the stored methods are composed from what was banned and
    // missing when they were last composed. They are the methods to serve now
    // exactly when what is banned and missing now switches off the same methods.
    // The status is that of the lag and the health at the last status event handled.
    method ProcessAll(events: seq<StateEvent>)
      requires Valid()
      modifies this
      ensures Valid()
      ensures old(published) <= published
      ensures validUpstream == RunValid(old(validUpstream), events)
      ensures unsupportedMethods == LastReported(old(unsupportedMethods), events)
      ensures bannedMethods == RunBanned(spec, config, old(bannedMethods), events)
      ensures var n := LastComposed(spec, config, old(validUpstream), old(bannedMethods), old(unsupportedMethods),
                                    events);
              var banned := if n == 0 then old(storedBanned)
                            else RunBanned(spec, config, old(bannedMethods), events[..n]);
              var missing := if n == 0 then old(storedUnsupported)
                             else LastReported(old(unsupportedMethods), events[..n]);
              && storedBanned == banned && storedUnsupported == missing
              && (UpToDate() <==> OffAlike(spec, config, banned, missing, bannedMethods, unsupportedMethods))
      ensures headLag == RunLag(old(headLag), events)
      ensures baseAvail == RunBase(old(validUpstream), old(baseAvail), events)
      ensures var n := LastStatus(old(validUpstream), events);
              state.status == if n == 0 then old(state.status)
                              else StatusByLag(RunLag(old(headLag), events[..n]),
                                               RunBase(old(validUpstream), old(baseAvail), events[..n]), syncingLag)
    {
      for k := 0 to |events|
        invariant Valid() && old(published) <= published
        invariant validUpstream == RunValid(old(validUpstream), events[..k])
        invariant unsupportedMethods == LastReported(old(unsupportedMethods), events[..k])
        invariant bannedMethods == RunBanned(spec, config, old(bannedMethods), events[..k])
        invariant StoredAt(events[..k], old(validUpstream), old(bannedMethods), old(unsupportedMethods),
                           old(storedBanned), old(storedUnsupported))
        invariant StatusAt(events[..k], old(validUpstream), old(baseAvail), old(headLag), old(state.status))
      {
        assert events[..k] + [events[k]] == events[..k + 1];
        StoredStep(spec, config, old(validUpstream), old(bannedMethods), old(unsupportedMethods), events[..k],
            events[k]);
        StatusStep(old(validUpstream), old(baseAvail), old(headLag), events[..k], events[k]);
        Process(events[k]);
      }
      assert events[..|events|] == events;
      StillComposed(spec, config, storedBanned, storedUnsupported, bannedMethods, unsupportedMethods, state.methods);
    }

    // The lag, the health and the status, as functions of the events.
    ghost predicate StatusAt(events: seq<StateEvent>, valid: bool, base: Status, lag: int, statusThen: Status)
      reads this
    {
      var n := LastStatus(valid, events);
      && headLag == RunLag(lag, events) && baseAvail == RunBase(valid, base, events)
      && state.status == if n == 0 then statusThen
                         else StatusByLag(RunLag(lag, events[..n]), RunBase(valid, base, events[..n]), syncingLag)
    }

    // The sets the stored methods were last composed from, as a function of the events.
    ghost predicate StoredAt(events: seq<StateEvent>, valid: bool, banned: set<string>, unsupported: set<string>,
                             bannedThen: set<string>, unsupportedThen: set<string>)
      reads this
    {
      var n := LastComposed(spec, config, valid, banned, unsupported, events);
      && storedBanned == (if n == 0 then bannedThen else RunBanned(spec, config, banned, events[..n]))
      && storedUnsupported == (if n == 0 then unsupportedThen else LastReported(unsupported, events[..n]))
    }
  }

  function NextValid(valid: bool, e: StateEvent): bool {
    if e.FatalError? then false else if e.BecameValid? then true else valid
  }

  function RunValid(before: bool, events: seq<StateEvent>): bool {
    if events == [] then before else NextValid(RunValid(before, events[..|events| - 1]), events[|events| - 1])
  }

  // A method event that changes a set while the upstream is valid: the methods are composed again.
  ghost predicate Recomposes(spec: Spec, config: MethodsConfig, e: StateEvent, valid: bool, banned: set<string>,
                             unsupported: set<string>) {
    && valid
    && match e
       case BanMethod(name) => name !in banned && !Forced(spec, config, name)
       case UnbanMethod(name) => name in banned
       case UnsupportedMethods(names) => names != unsupported
       case _ => false
  }

  // How many events there are up to and including the last that composed the methods.
  ghost function LastComposed(spec: Spec, config: MethodsConfig, valid: bool, banned: set<string>,
                              unsupported: set<string>,
                              events: seq<StateEvent>): (n: nat)
    ensures n <= |events|
  {
    if events == [] then 0
    else
      var init, e := events[..|events| - 1], events[|events| - 1];
      if Recomposes(spec, config, e, RunValid(valid, init), RunBanned(spec, config, banned, init),
          LastReported(unsupported, init))
      then |events|
      else LastComposed(spec, config, valid, banned, unsupported, init)
  }

  // ---- the status ----

  // Another goroutine stores the lag; a negative one counts as none.
  function NextLag(lag: int, e: StateEvent): int {
    if !e.LagStored? then lag else if e.lag < 0 then 0 else e.lag
  }

  function RunLag(before: int, events: seq<StateEvent>): int {
    if events == [] then before else NextLag(RunLag(before, events[..|events| - 1]), events[|events| - 1])
  }

  // The status is derived again; this happens only while the upstream is valid.
  predicate SetsStatus(valid: bool, e: StateEvent) {
    valid && e.StatusReport?
  }

  // The availability last reported by a health probe while the upstream was valid.
  function NextBase(valid: bool, base: Status, e: StateEvent): Status {
    if SetsStatus(valid, e) && !e.isLag then e.status else base
  }

  function RunBase(valid: bool, before: Status, events: seq<StateEvent>): Status {
    if events == [] then before
    else
      var init := events[..|events| - 1];
      NextBase(RunValid(valid, init), RunBase(valid, before, init), events[|events| - 1])
  }

  // A lag is never negative, whatever was stored.
  lemma {:induction false} LagIsNatural(before: int, events: seq<StateEvent>)
    requires before >= 0
    ensures RunLag(before, events) >= 0
  {
    if events != [] {
      LagIsNatural(before, events[..|events| - 1]);
    }
  }

  // Lag events never touch what the last health probe said.
  lemma {:induction false} LagsKeepHealth(valid: bool, before: Status, events: seq<StateEvent>)
    requires forall i | 0 <= i < |events| && events[i].StatusReport? :: events[i].isLag
    ensures RunBase(valid, before, events) == before
  {
    if events != [] {
      LagsKeepHealth(valid, before, events[..|events| - 1]);
    }
  }

  // How many events there are up to and including the last that derived the status.
  function LastStatus(valid: bool, events: seq<StateEvent>): (n: nat)
    ensures n <= |events|
  {
    if events == [] then 0
    else
      var init := events[..|events| - 1];
      if SetsStatus(RunValid(valid, init), events[|events| - 1]) then |events| else LastStatus(valid, init)
  }

  lemma StatusStep(valid: bool, base: Status, lag: int, events: seq<StateEvent>, e: StateEvent)
    ensures var n, sets := LastStatus(valid, events), SetsStatus(RunValid(valid, events), e);
            && LastStatus(valid, events + [e]) == (if sets then |events| + 1 else n)
            && (events + [e])[..n] == events[..n]
            && (events + [e])[..|events| + 1] == events + [e]
    ensures RunLag(lag, events + [e]) == NextLag(RunLag(lag, events), e)
    ensures RunBase(valid, base, events + [e]) == NextBase(RunValid(valid, events), RunBase(valid, base, events), e)
  {
    assert (events + [e])[..|events|] == events;
  }

  // Events after the last status event handled change the health never and the lag
  // only by storing one, and a stored lag is followed by a status event.
  lemma {:induction false} StatusIsCurrent(valid: bool, base: Status, lag: int, events: seq<StateEvent>)
    ensures var n := LastStatus(valid, events);
            && RunBase(valid, base, events[..n]) == RunBase(valid, base, events)
            && ((forall i | n <= i < |events| :: !events[i].LagStored?) ==>
                  RunLag(lag, events[..n]) == RunLag(lag, events))
    decreases |events|
  {
    if events != [] {
      var init, e := events[..|events| - 1], events[|events| - 1];
      assert init + [e] == events && events[..|events|] == events;
      StatusIsCurrent(valid, base, lag, init);
      StatusStep(valid, base, lag, init, e);
      var n := LastStatus(valid, events);
      if n < |events| && forall i | n <= i < |events| :: !events[i].LagStored? {
        assert forall i | n <= i < |init| :: init[i] == events[i];
      }
    }
  }

  // A health report that comes while the upstream is invalid is lost: the status
  // announced when it is valid again is the one from before.
  method ReportLostWhileInvalid(u: Upstream, status: Status)
    requires u.Valid() && u.validUpstream
    modifies u
    ensures u.Valid() && u.validUpstream && u.state == old(u.state) && u.baseAvail == old(u.baseAvail)
    ensures u.published == old(u.published) + [Removed, Validated(u.state)]
  {
    u.OnFatalError();
    u.OnStatus(status, false);
    u.OnBecameValid();
  }

  // ---- the method sets ----

  lemma StoredStep(spec: Spec, config: MethodsConfig, valid: bool, banned: set<string>, unsupported: set<string>,
                   events: seq<StateEvent>, e: StateEvent)
    ensures var n := LastComposed(spec, config, valid, banned, unsupported, events);
            var recomposed := Recomposes(spec, config, e, RunValid(valid, events),
                                         RunBanned(spec, config, banned, events),
                                         LastReported(unsupported, events));
            && LastComposed(spec, config, valid, banned, unsupported, events + [e]) ==
               (if recomposed then |events| + 1 else n)
            && (events + [e])[..n] == events[..n]
            && (events + [e])[..|events| + 1] == events + [e]
    ensures RunValid(valid, events + [e]) == NextValid(RunValid(valid, events), e)
    ensures RunBanned(spec, config, banned, events + [e]) ==
            NextBanned(spec, config, RunBanned(spec, config, banned, events), e)
    ensures LastReported(unsupported, events + [e]) == if e.UnsupportedMethods? then e.names
            else LastReported(unsupported, events)
  {
    assert (events + [e])[..|events|] == events;
  }

  // In a run that stays valid they are always up to date.
  lemma {:induction false} StaysInStep(spec: Spec, config: MethodsConfig, banned: set<string>, unsupported: set<string>,
                                       events: seq<StateEvent>)
    requires forall i | 0 <= i < |events| :: !events[i].FatalError?
    ensures var n := LastComposed(spec, config, true, banned, unsupported, events);
            && RunValid(true, events)
            && RunBanned(spec, config, banned, events) == RunBanned(spec, config, banned, events[..n])
            && LastReported(unsupported, events) == LastReported(unsupported, events[..n])
    decreases |events|
  {
    if events != [] {
      var init, e := events[..|events| - 1], events[|events| - 1];
      assert init + [e] == events;
      StaysInStep(spec, config, banned, unsupported, init);
      StoredStep(spec, config, true, banned, unsupported, init, e);
      var b, u := RunBanned(spec, config, banned, init), LastReported(unsupported, init);
      if Recomposes(spec, config, e, true, b, u) {
        assert events[..|events|] == events;
      } else {
        ChangesRecompose(spec, config, e, b, u);
      }
    }
  }

  lemma ChangesRecompose(spec: Spec, config: MethodsConfig, e: StateEvent, banned: set<string>,
                         unsupported: set<string>)
    requires !Recomposes(spec, config, e, true, banned, unsupported)
    ensures NextBanned(spec, config, banned, e) == banned && (e.UnsupportedMethods? ==> e.names == unsupported)
  {
  }

  // Otherwise they can lag behind: a method found missing while the upstream is
  // invalid is announced as served once it is valid again, and finding it missing
  // again does not help, since an equal report is skipped.
  method DetectedWhileInvalid(u: Upstream, missing: set<string>, m: string)
    requires u.Valid() && u.validUpstream
    requires m in u.state.methods && Taken(u.spec, missing, m) && !Named(u.spec, u.config.enable, m)
    modifies u
    ensures u.Valid() && u.validUpstream && u.unsupportedMethods == missing
    ensures m in u.state.methods && !Serves(u.spec, u.config, u.bannedMethods, u.unsupportedMethods, m)
    ensures u.state == old(u.state)
    ensures u.published == old(u.published) + [Removed, Validated(u.state)]
  {
    u.OnFatalError();
    DetectAgain(u, missing);
    u.OnBecameValid();
    DetectAgain(u, missing);
  }

  // What detection finds while the upstream is invalid, or once more, changes nothing served.
  method DetectAgain(u: Upstream, missing: set<string>)
    requires u.Valid() && (u.validUpstream ==> u.unsupportedMethods == missing)
    modifies u`bannedMethods, u`unsupportedMethods, u`state, u`published, u`storedBanned, u`storedUnsupported
    ensures u.Valid() && u.unsupportedMethods == missing && u.bannedMethods == old(u.bannedMethods)
    ensures u.state == old(u.state) && u.published == old(u.published)
  {
    u.OnMethods(UnsupportedMethods(missing));
  }

  predicate Reports(e: StateEvent) {
    e.HeadReport? || e.BlockReport? || e.BoundReport? || e.CapsReport? || e.LabelReport? || e.Init?
  }

  predicate ChangesMethods(e: StateEvent) {
    e.BanMethod? || e.UnbanMethod? || e.UnsupportedMethods?
  }

  ghost function NextBanned(spec: Spec, config: MethodsConfig, banned: set<string>, e: StateEvent): set<string> {
    match e
    case BanMethod(name) => if Forced(spec, config, name) then banned else banned + {name}
    case UnbanMethod(name) => banned - {name}
    case _ => banned
  }

  // What is banned now.
  ghost function RunBanned(spec: Spec, config: MethodsConfig, before: set<string>,
                           events: seq<StateEvent>): set<string> {
    if events == [] then before
    else NextBanned(spec, config, RunBanned(spec, config, before, events[..|events| - 1]), events[|events| - 1])
  }

  // The method is banned if and only if the last event about it that counts, or else
  // the start, bans it.
  lemma {:induction false} BannedExactlyWhen(spec: Spec, config: MethodsConfig, before: set<string>,
                                             events: seq<StateEvent>, name: string)
    ensures name in RunBanned(spec, config, before, events) <==>
            || (name in before && UnbanMethod(name) !in events)
            || (!Forced(spec, config, name) && exists i :: BannedLast(events, i, name))
    decreases |events|
  {
    if events != [] {
      var init, e := events[..|events| - 1], events[|events| - 1];
      BannedExactlyWhen(spec, config, before, init, name);
      assert events == init + [e];
      assert UnbanMethod(name) in events <==> UnbanMethod(name) in init || e == UnbanMethod(name);
      if i: nat :| BannedLast(init, i, name) && e != UnbanMethod(name) {
        assert BannedLast(events, i, name);
      }
      if e == BanMethod(name) {
        assert BannedLast(events, |init|, name);
      }
      if i: nat :| BannedLast(events, i, name) && i < |init| {
        assert BannedLast(init, i, name);
      }
    }
  }

  ghost predicate BannedLast(events: seq<StateEvent>, i: nat, name: string) {
    i < |events| && events[i] == BanMethod(name) && forall j | i < j < |events| :: events[j] != UnbanMethod(name)
  }

  // What detection reported last.
  function LastReported(before: set<string>, events: seq<StateEvent>): set<string> {
    if events == [] then before
    else match events[|events| - 1]
      case UnsupportedMethods(names) => names
      case _ => LastReported(before, events[..|events| - 1])
  }
}
