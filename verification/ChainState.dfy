/**
 The state a chain supervisor keeps for its clients
 (internal/upstreams/chain_supervisor_state.go): how it is merged from the
 available upstreams, and which changes are published.
 */
module ChainState {
  import opened Common
  import opened Protocol

  datatype AggregatedLabels = AggregatedLabels(amount: nat, labels: Labels)

  datatype SupervisorState = SupervisorState(
    status: Status,
    methods: set<string>,
    blocks: map<BlockType, Block>,
    lowerBounds: map<BoundType, LowerBound>,
    labels: seq<AggregatedLabels>,
    subMethods: set<string>,
    caps: set<Cap>)

  const INITIAL_STATE := SupervisorState(AVAILABLE, {}, map[], map[], [], {}, {})

  // ---- merging ----

  method ProcessCaps(ups: seq<UpstreamState>) returns (caps: set<Cap>)
    ensures forall c :: c in caps <==> exists i :: 0 <= i < |ups| && c in ups[i].caps
  {
    caps := {};
    for n := 0 to |ups|
      invariant forall c :: c in caps <==> exists i :: 0 <= i < n && c in ups[i].caps
    {
      caps := caps + ups[n].caps;
    }
  }

  method ProcessMethods(ups: seq<UpstreamState>) returns (methods: set<string>)
    ensures forall m :: m in methods <==> exists i :: 0 <= i < |ups| && m in ups[i].methods
  {
    methods := {};
    for n := 0 to |ups|
      invariant forall m :: m in methods <==> exists i :: 0 <= i < n && m in ups[i].methods
    {
      methods := methods + ups[n].methods;
    }
  }

  // The lowest bound of each type among the first n upstreams.
  ghost predicate LowestBounds(ups: seq<UpstreamState>, n: int, bounds: map<BoundType, LowerBound>)
    requires 0 <= n <= |ups|
  {
    && (forall i, t | 0 <= i < n && t in ups[i].bounds :: t in bounds && bounds[t].bound <= ups[i].bounds[t].bound)
    && (forall t | t in bounds ::
          bounds[t].kind == t && exists i :: 0 <= i < n && FirstBound(ups, i, t, bounds[t]))
  }

  // The bound is the i-th upstream's and lower than those before it.
  ghost predicate FirstBound(ups: seq<UpstreamState>, i: nat, t: BoundType, bound: LowerBound) {
    && i < |ups| && t in ups[i].bounds && bound == ups[i].bounds[t]
    && forall j | 0 <= j < i && t in ups[j].bounds :: bound.bound < ups[j].bounds[t].bound
  }

  // One upstream's bounds merged into the ones before it.
  ghost predicate MergedBounds(before: map<BoundType, LowerBound>, own: map<BoundType, LowerBound>,
                               done: set<BoundType>,
                               bounds: map<BoundType, LowerBound>)
  {
    && (forall t :: t in bounds <==> t in before || t in done)
    && (forall t | t in done :: t in own)
    && (forall t | t in before :: bounds[t].bound <= before[t].bound)
    && (forall t | t in done :: bounds[t].bound <= own[t].bound)
    && (forall t | t in bounds ::
          || (t in before && bounds[t] == before[t])
          || (t in own && bounds[t] == own[t] && (t in before ==> own[t].bound < before[t].bound)))
  }

  lemma MergeBound(before: map<BoundType, LowerBound>, own: map<BoundType, LowerBound>, done: set<BoundType>,
                   bounds: map<BoundType, LowerBound>, t: BoundType)
    requires MergedBounds(before, own, done, bounds) && t in own
    ensures MergedBounds(before, own, done + {t},
                         if t !in bounds || own[t].bound < bounds[t].bound then bounds[t := own[t]] else bounds)
  {
  }

  lemma BoundsMerged(ups: seq<UpstreamState>, n: nat, before: map<BoundType, LowerBound>,
                     bounds: map<BoundType, LowerBound>)
    requires n < |ups| && ups[n].Valid() && LowestBounds(ups, n, before)
    requires MergedBounds(before, ups[n].bounds, ups[n].bounds.Keys, bounds)
    ensures LowestBounds(ups, n + 1, bounds)
  {
    forall t | t in bounds ensures exists i :: 0 <= i < n + 1 && FirstBound(ups, i, t, bounds[t]) {
      if t in before && bounds[t] == before[t] {
        var i :| 0 <= i < n && FirstBound(ups, i, t, before[t]);
        assert FirstBound(ups, i, t, bounds[t]);
      } else {
        assert FirstBound(ups, n, t, bounds[t]);
      }
    }
  }

  method ProcessLowerBounds(ups: seq<UpstreamState>) returns (bounds: map<BoundType, LowerBound>)
    requires forall i | 0 <= i < |ups| :: ups[i].Valid()
    ensures LowestBounds(ups, |ups|, bounds)
  {
    bounds := map[];
    for n := 0 to |ups|
      invariant LowestBounds(ups, n, bounds)
    {
      ghost var before := bounds;
      bounds := MergeBounds(bounds, ups[n].bounds);
      BoundsMerged(ups, n, before, bounds);
    }
  }

  // The inner loop, over one upstream's bounds in any order.
  method MergeBounds(before: map<BoundType, LowerBound>, own: map<BoundType, LowerBound>)
    returns (bounds: map<BoundType, LowerBound>)
    ensures MergedBounds(before, own, own.Keys, bounds)
  {
    bounds := before;
    var done, todo := {}, own.Keys;
    while todo != {}
      invariant done + todo == own.Keys
      invariant MergedBounds(before, own, done, bounds)
      decreases |todo|
    {
      var t: BoundType :| t in todo;
      MergeBound(before, own, done, bounds, t);
      done, todo := done + {t}, todo - {t};
      if t !in bounds || own[t].bound < bounds[t].bound {
        bounds := bounds[t := own[t]];
      }
    }
  }

  // The highest block of each type among the first n upstreams.
  ghost predicate HighestBlocks(ups: seq<UpstreamState>, n: int, blocks: map<BlockType, Block>)
    requires 0 <= n <= |ups|
  {
    && (forall i, t | 0 <= i < n && t in ups[i].blocks :: t in blocks && ups[i].blocks[t].height <= blocks[t].height)
    && (forall t | t in blocks :: exists i :: 0 <= i < n && FirstBlock(ups, i, t, blocks[t]))
  }

  // The block is the i-th upstream's and higher than those before it.
  ghost predicate FirstBlock(ups: seq<UpstreamState>, i: nat, t: BlockType, block: Block) {
    && i < |ups| && t in ups[i].blocks && block == ups[i].blocks[t]
    && forall j | 0 <= j < i && t in ups[j].blocks :: ups[j].blocks[t].height < block.height
  }

  function CompareBlocks(kind: BlockType, current: Block, newer: Block): Block {
    match kind
    case FinalizedBlock => if newer.height > current.height then newer else current
    case SafeBlock => if newer.height > current.height then newer else current
  }

  // One upstream's blocks merged into the ones before it.
  ghost predicate MergedBlocks(before: map<BlockType, Block>, own: map<BlockType, Block>, done: set<BlockType>,
                               blocks: map<BlockType, Block>)
  {
    && (forall t :: t in blocks <==> t in before || t in done)
    && (forall t | t in done :: t in own)
    && (forall t | t in before :: before[t].height <= blocks[t].height)
    && (forall t | t in done :: own[t].height <= blocks[t].height)
    && (forall t | t in blocks ::
          || (t in before && blocks[t] == before[t])
          || (t in own && blocks[t] == own[t] && (t in before ==> before[t].height < own[t].height)))
  }

  lemma MergeBlock(before: map<BlockType, Block>, own: map<BlockType, Block>, done: set<BlockType>,
                   blocks: map<BlockType, Block>, t: BlockType)
    requires MergedBlocks(before, own, done, blocks) && t in own
    ensures MergedBlocks(before, own, done + {t},
                         blocks[t := if t in blocks then CompareBlocks(t, blocks[t], own[t]) else own[t]])
  {
  }

  lemma BlocksMerged(ups: seq<UpstreamState>, n: nat, before: map<BlockType, Block>, blocks: map<BlockType, Block>)
    requires n < |ups| && HighestBlocks(ups, n, before)
    requires MergedBlocks(before, ups[n].blocks, ups[n].blocks.Keys, blocks)
    ensures HighestBlocks(ups, n + 1, blocks)
  {
    forall t | t in blocks ensures exists i :: 0 <= i < n + 1 && FirstBlock(ups, i, t, blocks[t]) {
      if t in before && blocks[t] == before[t] {
        var i :| 0 <= i < n && FirstBlock(ups, i, t, before[t]);
        assert FirstBlock(ups, i, t, blocks[t]);
      } else {
        assert FirstBlock(ups, n, t, blocks[t]);
      }
    }
  }

  method ProcessUpstreamBlocks(ups: seq<UpstreamState>) returns (blocks: map<BlockType, Block>)
    ensures HighestBlocks(ups, |ups|, blocks)
  {
    blocks := map[];
    for n := 0 to |ups|
      invariant HighestBlocks(ups, n, blocks)
    {
      ghost var before := blocks;
      blocks := MergeBlocks(blocks, ups[n].blocks);
      BlocksMerged(ups, n, before, blocks);
    }
  }

  method MergeBlocks(before: map<BlockType, Block>, own: map<BlockType, Block>) returns (blocks: map<BlockType, Block>)
    ensures MergedBlocks(before, own, own.Keys, blocks)
  {
    blocks := before;
    var done, todo := {}, own.Keys;
    while todo != {}
      invariant done + todo == own.Keys
      invariant MergedBlocks(before, own, done, blocks)
      decreases |todo|
    {
      var t: BlockType :| t in todo;
      MergeBlock(before, own, done, blocks, t);
      done, todo := done + {t}, todo - {t};
      blocks := blocks[t := if t in blocks then CompareBlocks(t, blocks[t], own[t]) else own[t]];
    }
  }

  // ---- labels ----

  // The non-empty label sets of the upstreams, each as often as it occurs.
  ghost function Bag(ups: seq<UpstreamState>): multiset<Labels> {
    if ups == [] then multiset{}
    else
      var last := ups[|ups| - 1].labels;
      Bag(ups[..|ups| - 1]) + if last == map[] then multiset{} else multiset{last}
  }

  ghost predicate Distinct(agg: seq<AggregatedLabels>) {
    forall i, j | 0 <= i < j < |agg| :: agg[i].labels != agg[j].labels
  }

  // The list says how often each label set occurs in the bag, and each set once.
  ghost predicate Represents(agg: seq<AggregatedLabels>, bag: multiset<Labels>) {
    && Distinct(agg)
    && (forall i | 0 <= i < |agg| :: agg[i].amount > 0 && bag[agg[i].labels] == agg[i].amount)
    && (forall l | l in bag :: exists i :: 0 <= i < |agg| && agg[i].labels == l)
  }

  method FindLabels(agg: seq<AggregatedLabels>, labels: Labels) returns (idx: nat, ok: bool)
    ensures ok ==> idx < |agg| && agg[idx].labels == labels
    ensures !ok ==> forall i | 0 <= i < |agg| :: agg[i].labels != labels
  {
    idx := 0;
    while idx < |agg|
      invariant idx <= |agg| && forall i | 0 <= i < idx :: agg[i].labels != labels
    {
      if agg[idx].labels == labels {
        return idx, true;
      }
      idx := idx + 1;
    }
    ok := false;
  }

  method ProcessLabels(ups: seq<UpstreamState>) returns (all: seq<AggregatedLabels>)
    ensures Represents(all, Bag(ups))
  {
    all := [];
    assert ups[..0] == [];
    for n := 0 to |ups|
      invariant Represents(all, Bag(ups[..n]))
    {
      var labels := ups[n].labels;
      assert ups[..n + 1][..n] == ups[..n];
      if labels != map[] {
        var idx, ok := FindLabels(all, labels);
        if ok {
          OneMore(all, Bag(ups[..n]), labels, idx);
          all := all[idx := all[idx].(amount := all[idx].amount + 1)];
        } else {
          FirstOne(all, Bag(ups[..n]), labels);
          all := all + [AggregatedLabels(1, labels)];
        }
      }
    }
    assert ups[..|ups|] == ups;
  }

  lemma OneMore(all: seq<AggregatedLabels>, bag: multiset<Labels>, labels: Labels, idx: nat)
    requires Represents(all, bag) && idx < |all| && all[idx].labels == labels
    ensures Represents(all[idx := all[idx].(amount := all[idx].amount + 1)], bag + multiset{labels})
  {
    var after := all[idx := all[idx].(amount := all[idx].amount + 1)];
    assert forall i | 0 <= i < |all| :: after[i].labels == all[i].labels;
    forall l | l in bag + multiset{labels} ensures exists i :: 0 <= i < |after| && after[i].labels == l {
      if l == labels {
        assert after[idx].labels == l;
      } else {
        var i :| 0 <= i < |all| && all[i].labels == l;
        assert after[i].labels == l;
      }
    }
  }

  lemma FirstOne(all: seq<AggregatedLabels>, bag: multiset<Labels>, labels: Labels)
    requires Represents(all, bag) && forall i | 0 <= i < |all| :: all[i].labels != labels
    ensures Represents(all + [AggregatedLabels(1, labels)], bag + multiset{labels})
  {
    var after := all + [AggregatedLabels(1, labels)];
    assert labels !in bag;
    forall l | l in bag + multiset{labels} ensures exists i :: 0 <= i < |after| && after[i].labels == l {
      if l == labels {
        assert after[|all|].labels == l;
      } else {
        var i :| 0 <= i < |all| && all[i].labels == l;
        assert after[i].labels == l;
      }
    }
  }

  // `CompareAggregatedLabels`: same length and every entry of one is in the other.
  predicate SameLabels(a: seq<AggregatedLabels>, b: seq<AggregatedLabels>) {
    |a| == |b| && forall i | 0 <= i < |a| :: a[i] in b
  }

  method CompareAggregatedLabels(a: seq<AggregatedLabels>, b: seq<AggregatedLabels>) returns (same: bool)
    ensures same <==> SameLabels(a, b)
  {
    if |a| != |b| {
      return false;
    }
    for n := 0 to |a|
      invariant forall i | 0 <= i < n :: a[i] in b
    {
      if a[n] !in b {
        return false;
      }
    }
    return true;
  }

  // Takes the last entry of a out of b; what is left of a is still in what is left of b.
  lemma TakeOut(a: seq<AggregatedLabels>, b: seq<AggregatedLabels>) returns (c: seq<AggregatedLabels>)
    requires a != [] && Distinct(a) && forall i | 0 <= i < |a| :: a[i] in b
    ensures |c| + 1 == |b| && multiset(b) == multiset(c) + multiset{a[|a| - 1]}
    ensures forall i | 0 <= i < |a| - 1 :: a[i] in c
  {
    var x := a[|a| - 1];
    assert x in b;
    var j :| 0 <= j < |b| && b[j] == x;
    c := b[..j] + b[j + 1..];
    assert b == b[..j] + [x] + b[j + 1..];
    forall i | 0 <= i < |a| - 1 ensures a[i] in c {
      assert a[i] in b && a[i].labels != x.labels;
      var k :| 0 <= k < |b| && b[k] == a[i];
      assert c[if k < j then k else k - 1] == a[i];
    }
  }

  // A list of distinct entries that all occur in another is no longer than it,
  // and uses it up when it is as long.
  lemma {:induction false} Pigeonhole(a: seq<AggregatedLabels>, b: seq<AggregatedLabels>)
    requires Distinct(a) && forall i | 0 <= i < |a| :: a[i] in b
    ensures |a| <= |b|
    ensures |a| == |b| ==> multiset(a) == multiset(b)
    decreases |a|
  {
    if a != [] {
      var c := TakeOut(a, b);
      var last := |a| - 1;
      Pigeonhole(a[..last], c);
      assert a == a[..last] + [a[last]];
    }
  }

  // On lists made by `ProcessLabels` the comparison decides exactly whether the
  // upstreams carry the same label sets, each equally often.
  lemma CompareDecidesBags(a: seq<AggregatedLabels>, b: seq<AggregatedLabels>, bagA: multiset<Labels>,
                           bagB: multiset<Labels>)
    requires Represents(a, bagA) && Represents(b, bagB)
    ensures SameLabels(a, b) <==> bagA == bagB
  {
    if SameLabels(a, b) {
      Pigeonhole(a, b);
      BagsAgree(a, b, bagA, bagB);
    }
    if bagA == bagB {
      EntriesAgree(a, b, bagA);
      EntriesAgree(b, a, bagA);
      Pigeonhole(a, b);
      Pigeonhole(b, a);
    }
  }

  lemma BagsAgree(a: seq<AggregatedLabels>, b: seq<AggregatedLabels>, bagA: multiset<Labels>, bagB: multiset<Labels>)
    requires Represents(a, bagA) && Represents(b, bagB) && multiset(a) == multiset(b)
    ensures bagA == bagB
  {
    BagWithin(a, b, bagA, bagB);
    BagWithin(b, a, bagB, bagA);
  }

  lemma BagWithin(a: seq<AggregatedLabels>, b: seq<AggregatedLabels>, bagA: multiset<Labels>, bagB: multiset<Labels>)
    requires Represents(a, bagA) && Represents(b, bagB) && multiset(a) == multiset(b)
    ensures bagA <= bagB
  {
    forall l | l in bagA ensures bagA[l] == bagB[l] {
      var i :| 0 <= i < |a| && a[i].labels == l;
      assert a[i] in multiset(b);
    }
  }

  lemma EntriesAgree(a: seq<AggregatedLabels>, b: seq<AggregatedLabels>, bag: multiset<Labels>)
    requires Represents(a, bag) && Represents(b, bag)
    ensures forall i | 0 <= i < |a| :: a[i] in b
  {
    forall i | 0 <= i < |a| ensures a[i] in b {
      assert a[i].labels in bag;
      var j :| 0 <= j < |b| && b[j].labels == a[i].labels;
      assert b[j] == a[i];
    }
  }

  // ---- published changes ----

  datatype Wrapper =
    | HeadWrapper(head: Block, upstreamId: string)
    | StatusWrapper(status: Status)
    | MethodsWrapper(methods: seq<string>)
    | BlocksWrapper(blocks: map<BlockType, Block>)
    | LowerBoundsWrapper(bounds: seq<LowerBound>)
    | LabelsWrapper(labels: seq<AggregatedLabels>)
    | SubMethodsWrapper(subMethods: seq<string>)
    | CapsWrapper(caps: set<Cap>)

  function ByKind(list: seq<LowerBound>): map<BoundType, LowerBound> {
    if list == [] then map[]
    else
      var last := list[|list| - 1];
      ByKind(list[..|list| - 1])[last.kind := last]
  }

  // What a subscriber that keeps its own copy does with a change.
  function Apply(r: SupervisorState, w: Wrapper): SupervisorState {
    match w
    case HeadWrapper(_, _) => r
    case StatusWrapper(status) => r.(status := status)
    case MethodsWrapper(list) => r.(methods := set m | m in list)
    case BlocksWrapper(blocks) => r.(blocks := blocks)
    case LowerBoundsWrapper(list) => r.(lowerBounds := ByKind(list))
    case LabelsWrapper(labels) => r.(labels := labels)
    case SubMethodsWrapper(list) => r.(subMethods := set m | m in list)
    case CapsWrapper(caps) => r.(caps := caps)
  }

  function Replay(r: SupervisorState, ws: seq<Wrapper>): SupervisorState {
    if ws == [] then r else Apply(Replay(r, ws[..|ws| - 1]), ws[|ws| - 1])
  }

  lemma {:induction false} ReplayConcat(r: SupervisorState, a: seq<Wrapper>, b: seq<Wrapper>)
    ensures Replay(r, a + b) == Replay(Replay(r, a), b)
    decreases |b|
  {
    if b == [] {
      assert a + b == a;
    } else {
      assert (a + b)[..|a + b| - 1] == a + b[..|b| - 1];
      ReplayConcat(r, a, b[..|b| - 1]);
    }
  }

  predicate SameBlocks(a: map<BlockType, Block>, b: map<BlockType, Block>) {
    a.Keys == b.Keys && forall t | t in a :: a[t].Equals(b[t])
  }

  // A copy agrees with a state: blocks up to the raw data that `Equals` ignores,
  // labels up to the order of the list.
  ghost predicate Agrees(r: SupervisorState, s: SupervisorState) {
    && r.status == s.status
    && r.methods == s.methods
    && SameBlocks(r.blocks, s.blocks)
    && r.lowerBounds == s.lowerBounds
    && multiset(r.labels) == multiset(s.labels)
    && r.subMethods == s.subMethods
    && r.caps == s.caps
  }

  ghost predicate WellFormed(s: SupervisorState) {
    && Distinct(s.labels)
    && forall t | t in s.lowerBounds :: s.lowerBounds[t].kind == t
  }

  // The values of a map in some order.
  method Values(bounds: map<BoundType, LowerBound>) returns (list: seq<LowerBound>)
    requires forall t | t in bounds :: bounds[t].kind == t
    ensures ByKind(list) == bounds
  {
    list := [];
    var todo := bounds.Keys;
    while todo != {}
      invariant todo <= bounds.Keys
      invariant ByKind(list) == map t | t in bounds && t !in todo :: bounds[t]
      decreases |todo|
    {
      var t: BoundType :| t in todo;
      assert (list + [bounds[t]])[..|list|] == list;
      list, todo := list + [bounds[t]], todo - {t};
    }
  }

  // Components already brought to the new state are equal to it, the others to the old one.
  ghost predicate Between(r: SupervisorState, c: SupervisorState, n: SupervisorState, k: nat) {
    && r.status == (if k > 0 then n else c).status
    && r.methods == (if k > 1 then n else c).methods
    && SameBlocks(r.blocks, (if k > 2 then n else c).blocks)
    && r.lowerBounds == (if k > 3 then n else c).lowerBounds
    && multiset(r.labels) == multiset((if k > 4 then n else c).labels)
    && r.subMethods == (if k > 5 then n else c).subMethods
    && r.caps == (if k > 6 then n else c).caps
  }

  // A change of component k.
  ghost predicate Changes(w: Wrapper, n: SupervisorState, k: nat) {
    match w
    case HeadWrapper(_, _) => false
    case StatusWrapper(status) => k == 0 && status == n.status
    case MethodsWrapper(list) => k == 1 && (set m | m in list) == n.methods
    case BlocksWrapper(blocks) => k == 2 && blocks == n.blocks
    case LowerBoundsWrapper(list) => k == 3 && ByKind(list) == n.lowerBounds
    case LabelsWrapper(labels) => k == 4 && labels == n.labels
    case SubMethodsWrapper(list) => k == 5 && (set m | m in list) == n.subMethods
    case CapsWrapper(caps) => k == 6 && caps == n.caps
  }

  ghost predicate SameAt(c: SupervisorState, n: SupervisorState, k: nat) {
    && (k == 0 ==> c.status == n.status)
    && (k == 1 ==> c.methods == n.methods)
    && (k == 2 ==> SameBlocks(c.blocks, n.blocks))
    && (k == 3 ==> c.lowerBounds == n.lowerBounds)
    && (k == 4 ==> SameLabels(c.labels, n.labels))
    && (k == 5 ==> c.subMethods == n.subMethods)
    && (k == 6 ==> c.caps == n.caps)
  }

  // The changes of the first k components, each one published exactly when it differs.
  ghost predicate Publishes(c: SupervisorState, n: SupervisorState, k: nat, ws: seq<Wrapper>) {
    if k == 0 then ws == []
    else if SameAt(c, n, k - 1) then Publishes(c, n, k - 1, ws)
    else ws != [] && Changes(ws[|ws| - 1], n, k - 1) && Publishes(c, n, k - 1, ws[..|ws| - 1])
  }

  method Compare(c: SupervisorState, n: SupervisorState) returns (ws: seq<Wrapper>)
    requires WellFormed(n)
    ensures Publishes(c, n, 7, ws)
  {
    ws := CompareServing(c, n, 0);
    ws := CompareMerged(c, n, 2, ws);
    ws := CompareOffered(c, n, 4, ws);
  }

  method CompareServing(c: SupervisorState, n: SupervisorState, ghost k: nat) returns (ws: seq<Wrapper>)
    requires k == 0
    ensures Publishes(c, n, k + 2, ws)
  {
    ws := [];
    if c.status != n.status {
      ws := Append(c, n, k, ws, StatusWrapper(n.status));
    }
    assert Publishes(c, n, k + 1, ws);
    if c.methods != n.methods {
      var list := ToSlice(n.methods);
      ws := Append(c, n, k + 1, ws, MethodsWrapper(list));
    }
  }

  method CompareMerged(c: SupervisorState, n: SupervisorState, ghost k: nat, before: seq<Wrapper>)
    returns (ws: seq<Wrapper>)
    requires k == 2 && WellFormed(n) && Publishes(c, n, k, before)
    ensures Publishes(c, n, k + 2, ws)
  {
    ws := before;
    if !SameBlocks(c.blocks, n.blocks) {
      ws := Append(c, n, k, ws, BlocksWrapper(n.blocks));
    }
    assert Publishes(c, n, k + 1, ws);
    if c.lowerBounds != n.lowerBounds {
      var list := Values(n.lowerBounds);
      ws := Append(c, n, k + 1, ws, LowerBoundsWrapper(list));
    }
  }

  method CompareOffered(c: SupervisorState, n: SupervisorState, ghost k: nat, before: seq<Wrapper>)
    returns (ws: seq<Wrapper>)
    requires k == 4 && Publishes(c, n, k, before)
    ensures Publishes(c, n, k + 3, ws)
  {
    ws := before;
    var sameLabels := CompareAggregatedLabels(c.labels, n.labels);
    if !sameLabels {
      ws := Append(c, n, k, ws, LabelsWrapper(n.labels));
    }
    assert Publishes(c, n, k + 1, ws);
    if c.subMethods != n.subMethods {
      var list := ToSlice(n.subMethods);
      ws := Append(c, n, k + 1, ws, SubMethodsWrapper(list));
    }
    assert Publishes(c, n, k + 2, ws);
    if c.caps != n.caps {
      ws := Append(c, n, k + 2, ws, CapsWrapper(n.caps));
    }
  }

  method Append(ghost c: SupervisorState, ghost n: SupervisorState, ghost k: nat, ws: seq<Wrapper>, w: Wrapper)
    returns (r: seq<Wrapper>)
    requires Publishes(c, n, k, ws) && !SameAt(c, n, k) && Changes(w, n, k)
    ensures r == ws + [w] && Publishes(c, n, k + 1, r)
  {
    r := ws + [w];
    assert r[..|r| - 1] == ws;
  }

  lemma SkipOne(r: SupervisorState, c: SupervisorState, n: SupervisorState, k: nat)
    requires Distinct(c.labels) && Between(r, c, n, k) && SameAt(c, n, k)
    ensures Between(r, c, n, k + 1)
  {
    if k == 4 {
      Pigeonhole(c.labels, n.labels);
    }
  }

  lemma ApplyOne(r: SupervisorState, c: SupervisorState, n: SupervisorState, k: nat, w: Wrapper)
    requires Between(r, c, n, k) && Changes(w, n, k)
    ensures Between(Apply(r, w), c, n, k + 1)
  {
  }

  lemma {:induction false} ReplayBetween(r: SupervisorState, c: SupervisorState, n: SupervisorState, k: nat,
                                         ws: seq<Wrapper>)
    requires Distinct(c.labels) && Agrees(r, c) && Publishes(c, n, k, ws)
    ensures Between(Replay(r, ws), c, n, k)
  {
    if k > 0 {
      if SameAt(c, n, k - 1) {
        ReplayBetween(r, c, n, k - 1, ws);
        SkipOne(Replay(r, ws), c, n, k - 1);
      } else {
        var init := ws[..|ws| - 1];
        ReplayBetween(r, c, n, k - 1, init);
        ApplyOne(Replay(r, init), c, n, k - 1, ws[|ws| - 1]);
      }
    }
  }

  // A copy that agreed with the old state and applies the published changes
  // agrees with the new one.
  lemma CompareIsEnough(r: SupervisorState, c: SupervisorState, n: SupervisorState, ws: seq<Wrapper>)
    requires WellFormed(c) && Agrees(r, c) && Publishes(c, n, 7, ws)
    ensures Agrees(Replay(r, ws), n)
  {
    ReplayBetween(r, c, n, 7, ws);
  }

  // Nothing is published exactly when the states agree.
  lemma CompareIsNeeded(c: SupervisorState, n: SupervisorState, ws: seq<Wrapper>)
    requires WellFormed(c) && WellFormed(n) && Publishes(c, n, 7, ws)
    ensures ws == [] <==> Agrees(c, n)
  {
    if ws == [] {
      ReplayBetween(c, c, n, 7, ws);
    }
    if Agrees(c, n) {
      forall i | 0 <= i < |c.labels| ensures c.labels[i] in n.labels {
        assert c.labels[i] in multiset(n.labels);
      }
      assert |multiset(c.labels)| == |multiset(n.labels)|;
      AllSame(c, n, 7, ws);
    }
  }

  lemma {:induction false} AllSame(c: SupervisorState, n: SupervisorState, k: nat, ws: seq<Wrapper>)
    requires Publishes(c, n, k, ws) && k <= 7 && forall j: nat | j < k :: SameAt(c, n, j)
    ensures ws == []
  {
    if k > 0 {
      AllSame(c, n, k - 1, ws);
    }
  }
}
