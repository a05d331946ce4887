/**
 Values shared by the upstream and chain models (internal/protocol/data.go,
 blocks.go and lower_bounds.go).
 */
module Protocol {

  // Statuses are ordered: smaller is better, and an unknown one is larger than all.
  type Status = int

  const AVAILABLE: Status := 1
  const SYNCING: Status := 3
  const UNAVAILABLE: Status := 4

  predicate LagExceeds(lag: int, syncingLag: int) {
    syncingLag > 0 && lag > syncingLag
  }

  function StatusByLag(lag: int, avail: Status, syncingLag: int): Status {
    if avail == AVAILABLE && LagExceeds(lag, syncingLag) then SYNCING else avail
  }

  // Only an available upstream is called syncing, only on a chain with a threshold,
  // and only if its lag is above it; any other availability is passed on.
  lemma SyncingExactlyWhen(lag: int, avail: Status, syncingLag: int)
    ensures StatusByLag(lag, avail, syncingLag) == SYNCING <==>
            avail == SYNCING || (avail == AVAILABLE && 0 < syncingLag < lag)
    ensures StatusByLag(lag, avail, syncingLag) == AVAILABLE <==>
            avail == AVAILABLE && (syncingLag <= 0 || lag <= syncingLag)
    ensures avail != AVAILABLE ==> StatusByLag(lag, avail, syncingLag) == avail
  {
  }

  // The derived status sees a lag only through the threshold.
  lemma StatusSeesOnlyTheThreshold(a: int, b: int, syncingLag: int)
    ensures (forall avail: Status :: StatusByLag(a, avail, syncingLag) == StatusByLag(b, avail, syncingLag)) <==>
            (LagExceeds(a, syncingLag) == LagExceeds(b, syncingLag))
  {
    assert StatusByLag(a, AVAILABLE, syncingLag) == if LagExceeds(a, syncingLag) then SYNCING else AVAILABLE;
    assert StatusByLag(b, AVAILABLE, syncingLag) == if LagExceeds(b, syncingLag) then SYNCING else AVAILABLE;
  }

  datatype BlockType = FinalizedBlock | SafeBlock

  datatype Block = Block(height: nat, slot: nat, hash: string, parentHash: string, rawData: string) {
    predicate Equals(other: Block) {
      height == other.height && slot == other.slot && hash == other.hash && parentHash == other.parentHash
    }

    predicate IsEmptyByHeight() {
      height == 0 && hash == "" && parentHash == ""
    }
  }

  const ZERO_BLOCK := Block(0, 0, "", "", "")

  // Blocks count as equal if they agree in all but the raw data.
  lemma EqualButRawData(a: Block, b: Block)
    ensures a.Equals(b) <==> a.(rawData := b.rawData) == b
  {
  }

  // A block is empty if it is the zero block in all but the slot and the raw data.
  lemma EmptyIsZero(b: Block)
    ensures b.IsEmptyByHeight() <==> b.(slot := 0, rawData := "") == ZERO_BLOCK
  {
  }

  datatype BoundType = BoundType(code: int)

  datatype LowerBound = LowerBound(bound: int, timestamp: int, kind: BoundType)

  datatype Cap = WsCap | NewHeadsCap | LogsCap | PendingTxCap

  type Labels = map<string, string>

  // A missing part of an upstream's state reads like an empty one.
  datatype UpstreamState = UpstreamState(
    status: Status,
    head: Block,
    methods: set<string>,
    caps: set<Cap>,
    blocks: map<BlockType, Block>,
    bounds: map<BoundType, LowerBound>,
    labels: Labels)
  {
    // Bounds are stored under their own type.
    ghost predicate Valid() {
      forall t | t in bounds :: bounds[t].kind == t
    }
  }
}
