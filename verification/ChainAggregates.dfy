/**
 What the merged chain state means in terms of the table of upstream states,
 without reference to the order in which the table is walked.
 */
module ChainAggregates {
  import opened Protocol
  import opened ChainState

  type Table = map<string, UpstreamState>

  predicate IsAvailable(table: Table, id: string) {
    id in table && table[id].status == AVAILABLE
  }

  ghost predicate StatusIs(table: Table, status: Status) {
    && status <= UNAVAILABLE
    && (forall id | id in table :: status <= table[id].status)
    && (status == UNAVAILABLE || exists id :: id in table && table[id].status == status)
  }

  ghost predicate BlocksAre(table: Table, blocks: map<BlockType, Block>) {
    && (forall id, t | IsAvailable(table, id) && t in table[id].blocks ::
          t in blocks && table[id].blocks[t].height <= blocks[t].height)
    && (forall t | t in blocks ::
          exists id :: IsAvailable(table, id) && t in table[id].blocks && blocks[t] == table[id].blocks[t])
  }

  ghost predicate BoundsAre(table: Table, bounds: map<BoundType, LowerBound>) {
    && (forall id, t | IsAvailable(table, id) && t in table[id].bounds ::
          t in bounds && bounds[t].bound <= table[id].bounds[t].bound)
    && (forall t | t in bounds ::
          exists id :: IsAvailable(table, id) && t in table[id].bounds && bounds[t] == table[id].bounds[t])
  }

  ghost predicate CapsAre(table: Table, caps: set<Cap>) {
    forall c :: c in caps <==> exists id :: IsAvailable(table, id) && c in table[id].caps
  }

  ghost predicate MethodsAre(table: Table, methods: set<string>) {
    forall m :: m in methods <==> exists id :: IsAvailable(table, id) && m in table[id].methods
  }

  // The available upstreams that carry exactly these labels.
  ghost function Carriers(table: Table, labels: Labels): set<string> {
    set id | id in table && IsAvailable(table, id) && table[id].labels == labels
  }

  ghost predicate LabelsAre(table: Table, agg: seq<AggregatedLabels>) {
    && Distinct(agg)
    && (forall i | 0 <= i < |agg| :: agg[i].labels != map[] && agg[i].amount == |Carriers(table, agg[i].labels)|)
    && (forall id | IsAvailable(table, id) && table[id].labels != map[] ::
          exists i :: 0 <= i < |agg| && agg[i].labels == table[id].labels)
    && (forall i | 0 <= i < |agg| :: agg[i].amount > 0)
  }

  function SubMethods(caps: set<Cap>, offered: set<string>): set<string> {
    if WsCap !in caps then {}
    else if "eth_subscribe" !in offered then offered
    else
      offered - {"eth_subscribe"}
      + (if NewHeadsCap in caps then {"newHeads"} else {})
      + (if LogsCap in caps then {"logs"} else {})
      + (if PendingTxCap in caps then {"newPendingTransactions", "drpc_pendingTransactions"} else {})
  }

  // The capability behind each thing that `eth_subscribe` can subscribe to.
  const TOPICS := map[
    "newHeads" := NewHeadsCap,
    "logs" := LogsCap,
    "newPendingTransactions" := PendingTxCap,
    "drpc_pendingTransactions" := PendingTxCap]

  // Without websockets nothing can be subscribed to. With them everything offered can,
  // but instead of `eth_subscribe` itself the topics with a capability behind them.
  lemma SubMethodsExactlyWhen(caps: set<Cap>, offered: set<string>, m: string)
    ensures m in SubMethods(caps, offered) <==>
            && WsCap in caps
            && (|| (m in offered && m != "eth_subscribe")
                || ("eth_subscribe" in offered && m in TOPICS && TOPICS[m] in caps))
  {
    assert TOPICS.Keys == {"newHeads", "logs", "newPendingTransactions", "drpc_pendingTransactions"};
    assert "eth_subscribe"[0] == 'e' && "newHeads"[0] == 'n' && "logs"[0] == 'l';
    assert "newPendingTransactions"[0] == 'n' && "drpc_pendingTransactions"[0] == 'd';
  }

  // An upstream that is not available adds nothing but its status.
  lemma UnavailableAddsNothing(table: Table, id: string, s: SupervisorState)
    requires id in table && table[id].status != AVAILABLE
    ensures var rest := table - {id};
            && (BlocksAre(table, s.blocks) <==> BlocksAre(rest, s.blocks))
            && (BoundsAre(table, s.lowerBounds) <==> BoundsAre(rest, s.lowerBounds))
            && (CapsAre(table, s.caps) <==> CapsAre(rest, s.caps))
            && (MethodsAre(table, s.methods) <==> MethodsAre(rest, s.methods))
            && (LabelsAre(table, s.labels) <==> LabelsAre(rest, s.labels))
  {
    SameBlocksWithout(table, id, s.blocks);
    SameBoundsWithout(table, id, s.lowerBounds);
    SameSetsWithout(table, id, s.caps, s.methods);
    SameLabelsWithout(table, id, s.labels);
  }

  lemma SameBlocksWithout(table: Table, id: string, blocks: map<BlockType, Block>)
    requires id in table && table[id].status != AVAILABLE
    ensures BlocksAre(table, blocks) <==> BlocksAre(table - {id}, blocks)
  {
    assert forall k :: IsAvailable(table, k) <==> IsAvailable(table - {id}, k);
  }

  lemma SameBoundsWithout(table: Table, id: string, bounds: map<BoundType, LowerBound>)
    requires id in table && table[id].status != AVAILABLE
    ensures BoundsAre(table, bounds) <==> BoundsAre(table - {id}, bounds)
  {
    assert forall k :: IsAvailable(table, k) <==> IsAvailable(table - {id}, k);
  }

  lemma SameSetsWithout(table: Table, id: string, caps: set<Cap>, methods: set<string>)
    requires id in table && table[id].status != AVAILABLE
    ensures CapsAre(table, caps) <==> CapsAre(table - {id}, caps)
    ensures MethodsAre(table, methods) <==> MethodsAre(table - {id}, methods)
  {
    assert forall k :: IsAvailable(table, k) <==> IsAvailable(table - {id}, k);
  }

  lemma SameLabelsWithout(table: Table, id: string, labels: seq<AggregatedLabels>)
    requires id in table && table[id].status != AVAILABLE
    ensures LabelsAre(table, labels) <==> LabelsAre(table - {id}, labels)
  {
    assert forall k :: IsAvailable(table, k) <==> IsAvailable(table - {id}, k);
    forall l ensures Carriers(table, l) == Carriers(table - {id}, l) {
    }
  }

  ghost predicate Aggregates(table: Table, offered: set<string>, s: SupervisorState) {
    && StatusIs(table, s.status)
    && BlocksAre(table, s.blocks)
    && BoundsAre(table, s.lowerBounds)
    && CapsAre(table, s.caps)
    && MethodsAre(table, s.methods)
    && LabelsAre(table, s.labels)
    && s.subMethods == SubMethods(s.caps, offered)
  }

  // ---- the table determines what is merged ----

  // Two merges of one table differ at most in which of several equally high
  // blocks, or equally low bounds, they kept, and in the order of the labels.
  lemma MergesAgree(table: Table, offered: set<string>, a: SupervisorState, b: SupervisorState)
    requires Aggregates(table, offered, a) && Aggregates(table, offered, b)
    ensures a.status == b.status && a.caps == b.caps && a.methods == b.methods && a.subMethods == b.subMethods
    ensures SameHeights(a.blocks, b.blocks)
    ensures SameBounds(a.lowerBounds, b.lowerBounds)
    ensures multiset(a.labels) == multiset(b.labels)
  {
    SetsAgree(table, a, b);
    HeightsAgree(table, a.blocks, b.blocks);
    BoundsAgree(table, a.lowerBounds, b.lowerBounds);
    LabelsAgree(table, a.labels, b.labels);
  }

  ghost predicate SameHeights(a: map<BlockType, Block>, b: map<BlockType, Block>) {
    a.Keys == b.Keys && forall t | t in a :: a[t].height == b[t].height
  }

  ghost predicate SameBounds(a: map<BoundType, LowerBound>, b: map<BoundType, LowerBound>) {
    a.Keys == b.Keys && forall t | t in a :: a[t].bound == b[t].bound
  }

  lemma HeightsAgree(table: Table, a: map<BlockType, Block>, b: map<BlockType, Block>)
    requires BlocksAre(table, a) && BlocksAre(table, b)
    ensures SameHeights(a, b)
  {
    BlocksWithin(table, a, b);
    BlocksWithin(table, b, a);
  }

  lemma BoundsAgree(table: Table, a: map<BoundType, LowerBound>, b: map<BoundType, LowerBound>)
    requires BoundsAre(table, a) && BoundsAre(table, b)
    ensures SameBounds(a, b)
  {
    BoundsWithin(table, a, b);
    BoundsWithin(table, b, a);
  }

  lemma SetsAgree(table: Table, a: SupervisorState, b: SupervisorState)
    requires StatusIs(table, a.status) && CapsAre(table, a.caps) && MethodsAre(table, a.methods)
    requires StatusIs(table, b.status) && CapsAre(table, b.caps) && MethodsAre(table, b.methods)
    ensures a.status == b.status && a.caps == b.caps && a.methods == b.methods
  {
    assert forall c :: c in a.caps <==> c in b.caps;
    assert forall m :: m in a.methods <==> m in b.methods;
  }

  lemma LabelsAgree(table: Table, a: seq<AggregatedLabels>, b: seq<AggregatedLabels>)
    requires LabelsAre(table, a) && LabelsAre(table, b)
    ensures multiset(a) == multiset(b)
  {
    LabelsWithin(table, a, b);
    LabelsWithin(table, b, a);
    Pigeonhole(a, b);
    Pigeonhole(b, a);
  }

  lemma BlocksWithin(table: Table, a: map<BlockType, Block>, b: map<BlockType, Block>)
    requires BlocksAre(table, a) && BlocksAre(table, b)
    ensures forall t | t in a :: t in b && a[t].height <= b[t].height
  {
    forall t | t in a ensures t in b && a[t].height <= b[t].height {
      var id :| IsAvailable(table, id) && t in table[id].blocks && a[t] == table[id].blocks[t];
      assert t in b && table[id].blocks[t].height <= b[t].height;
    }
  }

  lemma BoundsWithin(table: Table, a: map<BoundType, LowerBound>, b: map<BoundType, LowerBound>)
    requires BoundsAre(table, a) && BoundsAre(table, b)
    ensures forall t | t in a :: t in b && b[t].bound <= a[t].bound
  {
    forall t | t in a ensures t in b && b[t].bound <= a[t].bound {
      var id :| IsAvailable(table, id) && t in table[id].bounds && a[t] == table[id].bounds[t];
      assert t in b && b[t].bound <= table[id].bounds[t].bound;
    }
  }

  lemma LabelsWithin(table: Table, a: seq<AggregatedLabels>, b: seq<AggregatedLabels>)
    requires LabelsAre(table, a) && LabelsAre(table, b)
    ensures forall i | 0 <= i < |a| :: a[i] in b
  {
    forall i | 0 <= i < |a| ensures a[i] in b {
      assert |Carriers(table, a[i].labels)| > 0;
      var id :| id in Carriers(table, a[i].labels);
      var j :| 0 <= j < |b| && b[j].labels == table[id].labels;
      assert b[j] == a[i];
    }
  }

  // A head written into one row leaves every merged part as it was.
  lemma HeadsAreNotMerged(table: Table, id: string, head: Block, offered: set<string>, s: SupervisorState)
    requires id in table && Aggregates(table, offered, s)
    ensures Aggregates(table[id := table[id].(head := head)], offered, s)
  {
    var after := table[id := table[id].(head := head)];
    assert SameButHeads(table, after);
    HeadsAndBlocks(table, after, s.blocks);
    HeadsAndBounds(table, after, s.lowerBounds);
    HeadsAndSets(table, after, s);
  }

  ghost predicate SameButHeads(table: Table, after: Table) {
    && after.Keys == table.Keys
    && forall k | k in table ::
        after[k].status == table[k].status && after[k].caps == table[k].caps && after[k].methods == table[k].methods
        && after[k].blocks == table[k].blocks && after[k].bounds == table[k].bounds
        && after[k].labels == table[k].labels
  }

  lemma HeadsAndBlocks(table: Table, after: Table, blocks: map<BlockType, Block>)
    requires SameButHeads(table, after) && BlocksAre(table, blocks)
    ensures BlocksAre(after, blocks)
  {
    assert forall id :: IsAvailable(after, id) <==> IsAvailable(table, id);
    forall t | t in blocks
      ensures exists id :: IsAvailable(after, id) && t in after[id].blocks && blocks[t] == after[id].blocks[t]
    {
      var id :| IsAvailable(table, id) && t in table[id].blocks && blocks[t] == table[id].blocks[t];
      assert IsAvailable(after, id);
    }
  }

  lemma HeadsAndBounds(table: Table, after: Table, bounds: map<BoundType, LowerBound>)
    requires SameButHeads(table, after) && BoundsAre(table, bounds)
    ensures BoundsAre(after, bounds)
  {
    assert forall id :: IsAvailable(after, id) <==> IsAvailable(table, id);
    forall t | t in bounds
      ensures exists id :: IsAvailable(after, id) && t in after[id].bounds && bounds[t] == after[id].bounds[t]
    {
      var id :| IsAvailable(table, id) && t in table[id].bounds && bounds[t] == table[id].bounds[t];
      assert IsAvailable(after, id);
    }
  }

  lemma HeadsAndSets(table: Table, after: Table, s: SupervisorState)
    requires SameButHeads(table, after)
    requires StatusIs(table, s.status) && CapsAre(table, s.caps)
    requires MethodsAre(table, s.methods) && LabelsAre(table, s.labels)
    ensures StatusIs(after, s.status) && CapsAre(after, s.caps)
    ensures MethodsAre(after, s.methods) && LabelsAre(after, s.labels)
  {
    forall l ensures Carriers(after, l) == Carriers(table, l) {}
    assert forall id :: IsAvailable(after, id) <==> IsAvailable(table, id);
    forall c ensures c in s.caps <==> exists id :: IsAvailable(after, id) && c in after[id].caps {
      if c in s.caps {
        var id :| IsAvailable(table, id) && c in table[id].caps;
        assert IsAvailable(after, id);
      }
    }
    forall m ensures m in s.methods <==> exists id :: IsAvailable(after, id) && m in after[id].methods {
      if m in s.methods {
        var id :| IsAvailable(table, id) && m in table[id].methods;
        assert IsAvailable(after, id);
      }
    }
  }

  // ---- walking the table ----

  // The list holds the states of the available upstreams, each once, in the order of the ids.
  ghost predicate Lists(table: Table, ids: seq<string>, ups: seq<UpstreamState>) {
    && |ids| == |ups|
    && (forall i, j | 0 <= i < j < |ids| :: ids[i] != ids[j])
    && (forall i | 0 <= i < |ids| :: IsAvailable(table, ids[i]) && ups[i] == table[ids[i]])
    && (forall id | IsAvailable(table, id) :: id in ids)
  }

  lemma BlocksOfTable(table: Table, ids: seq<string>, ups: seq<UpstreamState>, blocks: map<BlockType, Block>)
    requires Lists(table, ids, ups) && HighestBlocks(ups, |ups|, blocks)
    ensures BlocksAre(table, blocks)
  {
    forall id, t | IsAvailable(table, id) && t in table[id].blocks
      ensures t in blocks && table[id].blocks[t].height <= blocks[t].height
    {
      var i :| 0 <= i < |ids| && ids[i] == id;
      assert t in ups[i].blocks;
    }
    forall t | t in blocks
      ensures exists id :: IsAvailable(table, id) && t in table[id].blocks && blocks[t] == table[id].blocks[t]
    {
      var i :| 0 <= i < |ups| && FirstBlock(ups, i, t, blocks[t]);
      assert IsAvailable(table, ids[i]);
    }
  }

  lemma BoundsOfTable(table: Table, ids: seq<string>, ups: seq<UpstreamState>, bounds: map<BoundType, LowerBound>)
    requires Lists(table, ids, ups) && LowestBounds(ups, |ups|, bounds)
    ensures BoundsAre(table, bounds)
  {
    forall id, t | IsAvailable(table, id) && t in table[id].bounds
      ensures t in bounds && bounds[t].bound <= table[id].bounds[t].bound
    {
      var i :| 0 <= i < |ids| && ids[i] == id;
      assert t in ups[i].bounds;
    }
    forall t | t in bounds
      ensures exists id :: IsAvailable(table, id) && t in table[id].bounds && bounds[t] == table[id].bounds[t]
    {
      var i :| 0 <= i < |ups| && FirstBound(ups, i, t, bounds[t]);
      assert IsAvailable(table, ids[i]);
    }
  }

  lemma CapsOfTable(table: Table, ids: seq<string>, ups: seq<UpstreamState>, caps: set<Cap>)
    requires Lists(table, ids, ups)
    requires forall c :: c in caps <==> exists i :: 0 <= i < |ups| && c in ups[i].caps
    ensures CapsAre(table, caps)
  {
    forall c ensures c in caps <==> exists id :: IsAvailable(table, id) && c in table[id].caps {
      if c in caps {
        var i :| 0 <= i < |ups| && c in ups[i].caps;
        assert IsAvailable(table, ids[i]);
      }
      if id :| IsAvailable(table, id) && c in table[id].caps {
        var i :| 0 <= i < |ids| && ids[i] == id;
        assert c in ups[i].caps;
      }
    }
  }

  lemma MethodsOfTable(table: Table, ids: seq<string>, ups: seq<UpstreamState>, methods: set<string>)
    requires Lists(table, ids, ups)
    requires forall m :: m in methods <==> exists i :: 0 <= i < |ups| && m in ups[i].methods
    ensures MethodsAre(table, methods)
  {
    forall m ensures m in methods <==> exists id :: IsAvailable(table, id) && m in table[id].methods {
      if m in methods {
        var i :| 0 <= i < |ups| && m in ups[i].methods;
        assert IsAvailable(table, ids[i]);
      }
      if id :| IsAvailable(table, id) && m in table[id].methods {
        var i :| 0 <= i < |ids| && ids[i] == id;
        assert m in ups[i].methods;
      }
    }
  }

  // The first n listed upstreams that carry these labels.
  ghost function CarriersAmong(table: Table, ids: seq<string>, labels: Labels): set<string>
    requires forall i | 0 <= i < |ids| :: ids[i] in table
  {
    set id | id in ids && table[id].labels == labels
  }

  lemma CarriersStep(table: Table, ids: seq<string>, id: string, labels: Labels)
    requires (forall i | 0 <= i < |ids| :: ids[i] in table && ids[i] != id) && id in table
    ensures (forall i | 0 <= i < |ids + [id]| :: (ids + [id])[i] in table)
    ensures var before := CarriersAmong(table, ids, labels);
            && id !in before
            && CarriersAmong(table, ids + [id], labels) == if table[id].labels == labels then before + {id} else before
  {
  }

  lemma BagStep(ups: seq<UpstreamState>, labels: Labels)
    requires ups != [] && labels != map[]
    ensures Bag(ups)[labels] == Bag(ups[..|ups| - 1])[labels] + if ups[|ups| - 1].labels == labels then 1 else 0
  {
  }

  lemma {:induction false} BagCounts(table: Table, ids: seq<string>, ups: seq<UpstreamState>, labels: Labels)
    requires |ids| == |ups| && labels != map[]
    requires forall i, j | 0 <= i < j < |ids| :: ids[i] != ids[j]
    requires forall i | 0 <= i < |ids| :: ids[i] in table && ups[i] == table[ids[i]]
    ensures Bag(ups)[labels] == |CarriersAmong(table, ids, labels)|
    decreases |ups|
  {
    if ups == [] {
      assert CarriersAmong(table, ids, labels) == {};
    } else {
      var last := |ups| - 1;
      BagCounts(table, ids[..last], ups[..last], labels);
      assert ids == ids[..last] + [ids[last]];
      CarriersStep(table, ids[..last], ids[last], labels);
      BagStep(ups, labels);
    }
  }

  lemma EmptyNotCounted(ups: seq<UpstreamState>)
    ensures map[] !in Bag(ups)
  {
    if ups != [] {
      EmptyNotCounted(ups[..|ups| - 1]);
    }
  }

  lemma CarriersListed(table: Table, ids: seq<string>, ups: seq<UpstreamState>, labels: Labels)
    requires Lists(table, ids, ups) && labels != map[]
    ensures Bag(ups)[labels] == |Carriers(table, labels)|
  {
    BagCounts(table, ids, ups, labels);
    assert CarriersAmong(table, ids, labels) == Carriers(table, labels);
  }

  lemma LabelsOfTable(table: Table, ids: seq<string>, ups: seq<UpstreamState>, agg: seq<AggregatedLabels>)
    requires Lists(table, ids, ups) && Represents(agg, Bag(ups))
    ensures LabelsAre(table, agg)
  {
    EmptyNotCounted(ups);
    forall i | 0 <= i < |agg| ensures agg[i].labels != map[] && agg[i].amount == |Carriers(table, agg[i].labels)| {
      assert agg[i].labels in Bag(ups);
      CarriersListed(table, ids, ups, agg[i].labels);
    }
    forall id | IsAvailable(table, id) && table[id].labels != map[]
      ensures exists i :: 0 <= i < |agg| && agg[i].labels == table[id].labels
    {
      CarriersListed(table, ids, ups, table[id].labels);
      assert id in Carriers(table, table[id].labels);
      assert table[id].labels in Bag(ups);
    }
  }
}
