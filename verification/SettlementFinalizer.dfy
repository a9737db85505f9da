/** Restartable finalization of one staged settlement across journal, settlement and basis store
    (src/dispatch/file_managed_settlement_preparation_store.cpp:42-71, 552-693, 831-1000). */
module SettlementFinalizer {
  import opened MachineWords
  import opened Options
  import opened SettlementRecords
  import opened AllocationRecords
  import opened SettlementProducer
  import opened OperationJournal
  import opened DealSettlementStore

  datatype FinalizeStatus =
    | Finalized | AlreadyFinalized | PendingAllocation | LeaseNotHeld | FinalizeConflict | FinalizeInvalidRecord
    | FinalizeMissingOperation | FinalizeInvalidOperation | MissingSource | InvalidSource | FinalizeIoError

  /** Exact durable recipe for one allocation-gated close publication. */
  datatype Preparation = Preparation(
    fact: DealSettlement, frontier: SettlementFrontier, target: OperationRecord, baseRevision: u64, staged: StagedOwnership)
  {
    predicate Valid(frontierDigest: u64) {
      WellFormed() && frontierDigest != 0
    }

    predicate WellFormed() {
      && fact.Valid() && frontier.Valid() && target.Valid() && staged.Valid()
      && fact.key.account == frontier.account && fact.key.operationKey == frontier.operationKey
      && fact.sourceOperationRevision <= frontier.operationRevision
      && target.key == frontier.operationKey && target.revision == frontier.operationRevision
      && target.kind.Close? && (target.state.PartiallyFilled? || target.state.Filled?)
      && target.descriptor.Some? && target.descriptor.value.requestedVolume != 0
      && target.settledVolume == frontier.settledVolume
      && baseRevision != 0 && target.revision == baseRevision + 1
      && staged.account == target.key.account && staged.basisKey.operationKey == target.key
      && staged.basisKey.brokerKey.account == target.key.account
      && staged.basisKey.brokerKey.dealTicket == fact.key.dealTicket && staged.targetRevision == target.revision
      && (exists e <- frontier.entries :: e.Pins(fact)) && target.BindsDeal(fact.key.dealTicket)
    }

    function Publication(): Publication {
      SettlementRecords.Publication(fact, frontier)
    }
  }

  datatype BrokerReversal = BrokerReversal(wellFormed: bool, inout: bool, provenance: BrokerProvenance)

  /** What the read-only stores say: the durable preparation, the broker reversal and the volume
      mapping and frontier digest derived from it, the allocation under the expected key, the
      complete recovery scan, and whether the broker envelope matches. */
  datatype Evidence = Evidence(
    preparation: Option<Preparation>, broker: Option<BrokerReversal>, brokerVolume: Option<BrokerVolume>, frontierDigest: u64,
    allocation: Option<AllocationEntry>, scan: Option<seq<AllocationEntry>>, envelopeMatches: bool)

  /** Whether the writer lease is held at each of the four points that ask. */
  datatype Lease = Lease(initially: bool, atCommit: bool, beforePublication: bool, atPublication: bool)

  /** The stores that finalization writes. */
  datatype World = World(journal: map<OperationKey, OperationRecord>, settlement: Disk, bases: map<Path, OwnershipBasis>)

  /** File naming of the settlement and basis stores. */
  datatype Names = Names(settlement: Paths, basis: BasisKey -> Path)

  function JournalOf(journal: map<OperationKey, OperationRecord>): Journal {
    (key: OperationKey) => if key in journal then JournalFound(journal[key]) else JournalNotFound
  }

  /** Everything a settlement may not change. */
  predicate SameImmutable(a: OperationRecord, b: OperationRecord) {
    SameTuple(a, b) && a.journalState == b.journalState
  }

  predicate Progresses(from: OperationRecord, to: OperationRecord) {
    || CanTransition(from.state, to.state)
    || (from.state.PartiallyFilled? && to.state.PartiallyFilled? && to.settledVolume > from.settledVolume)
  }

  /** The exact next legal settlement state. */
  predicate ValidTransition(base: OperationRecord, target: OperationRecord, baseRevision: u64) {
    && base.Valid() && target.Valid() && base.revision == baseRevision && baseRevision != 0
    && target.revision == baseRevision + 1 && SameImmutable(base, target)
    && target.settledVolume >= base.settledVolume && target.settledVolume != 0 && Progresses(base, target)
  }

  /** A newer record that still contains the prepared target. */
  predicate HistoricalProgression(target: OperationRecord, current: OperationRecord) {
    && target.Valid() && current.Valid() && current.revision > target.revision && SameImmutable(target, current)
    && (current.state.PartiallyFilled? || current.state.Filled?)
    && current.settledVolume >= target.settledVolume && current.settledVolume != 0 && Progresses(target, current)
  }

  /** The later record is the earlier one, reconciling still, with more of its order filled: for the
      first time, completely, or by a further part. */
  ghost predicate FillsFurther(from: OperationRecord, to: OperationRecord) {
    && from.key == to.key && from.kind == to.kind && from.immutableContent == to.immutableContent
    && from.descriptor == to.descriptor && from.boundDeal == to.boundDeal
    && from.journalState == JournalReconciling == to.journalState && to.settledVolume > 0
    && (|| (from.state == Reconciling && to.state in {PartiallyFilled, Filled})
        || (from.state == PartiallyFilled && to.state == Filled && to.settledVolume >= from.settledVolume)
        || (from.state == PartiallyFilled && to.state == PartiallyFilled && to.settledVolume > from.settledVolume))
  }

  /** Which settlements are legal: those to the very next revision that fill further. */
  lemma TransitionIff(base: OperationRecord, target: OperationRecord, baseRevision: u64)
    ensures ValidTransition(base, target, baseRevision)
       <==> && base.Valid() && target.Valid() && FillsFurther(base, target)
            && base.revision == baseRevision && target.revision == baseRevision + 1
    ensures HistoricalProgression(target, base)
       <==> target.Valid() && base.Valid() && FillsFurther(target, base) && base.revision > target.revision
  {
  }

  /** Where a volume was requested, each settlement fills strictly more of it, and all of it exactly if
      the order is then filled. */
  lemma SettlementGrows(base: OperationRecord, target: OperationRecord, baseRevision: u64)
    requires ValidTransition(base, target, baseRevision)
    requires target.descriptor.Some? && target.descriptor.value.requestedVolume != 0
    ensures base.settledVolume < target.settledVolume <= target.descriptor.value.requestedVolume
    ensures target.state.Filled? <==> target.settledVolume == target.descriptor.value.requestedVolume
  {
  }

  // ----- allocation claims

  predicate Claims(frontier: SettlementFrontier, e: FrontierEntry, allocation: AllocationEntry) {
    && allocation.key.managedKey.operationKey == frontier.operationKey && allocation.key.managedKey.dealTicket == e.dealTicket
    && allocation.settlementSourceRevision == e.sourceOperationRevision
    && allocation.managedLogicalUnits == e.managedLogicalUnits
  }

  /** Neither a legacy claim nor one from a later revision than the frontier's. */
  predicate Timely(frontier: SettlementFrontier, allocation: AllocationEntry) {
    && allocation.frontierDigest.Some? && 0 < allocation.frontierRevision <= frontier.operationRevision
    && 0 < allocation.basisRevision <= frontier.operationRevision
  }

  /** Exactly one allocation claims this entry, and it is timely. */
  ghost predicate SoleClaim(frontier: SettlementFrontier, e: FrontierEntry, allocations: seq<AllocationEntry>) {
    exists i :: ClaimIs(frontier, e, allocations, i)
  }

  ghost predicate ClaimIs(frontier: SettlementFrontier, e: FrontierEntry, allocations: seq<AllocationEntry>, i: int) {
    && 0 <= i < |allocations| && Claims(frontier, e, allocations[i]) && Timely(frontier, allocations[i])
    && forall j :: 0 <= j < |allocations| && j != i ==> !Claims(frontier, e, allocations[j])
  }

  ghost predicate FrontierClaimed(frontier: SettlementFrontier, allocations: seq<AllocationEntry>) {
    forall e <- frontier.entries :: SoleClaim(frontier, e, allocations)
  }

  /** The counting loops accept exactly the frontiers whose every entry has one timely claim. */
  method FrontierHasAllocationClaims(frontier: SettlementFrontier, allocations: seq<AllocationEntry>) returns (claimed: bool)
    ensures claimed <==> FrontierClaimed(frontier, allocations)
  {
    for k := 0 to |frontier.entries|
      invariant forall i :: 0 <= i < k ==> SoleClaim(frontier, frontier.entries[i], allocations)
    {
      var e := frontier.entries[k];
      var matches := 0;
      ghost var first := -1;
      for i := 0 to |allocations|
        invariant matches == 0 ==> forall j :: 0 <= j < i ==> !Claims(frontier, e, allocations[j])
        invariant matches > 0 ==> 0 <= first < i && Claims(frontier, e, allocations[first]) && Timely(frontier, allocations[first])
        invariant matches == 1 ==> forall j :: 0 <= j < i && j != first ==> !Claims(frontier, e, allocations[j])
        invariant matches > 1 ==> exists j :: 0 <= j < i && j != first && Claims(frontier, e, allocations[j])
        invariant matches >= 0
      {
        if !Claims(frontier, e, allocations[i]) { continue; }
        if !Timely(frontier, allocations[i]) {
          assert !SoleClaim(frontier, e, allocations);
          return false;
        }
        if matches == 0 { first := i; }
        matches := matches + 1;
      }
      if matches != 1 {
        assert !SoleClaim(frontier, e, allocations);
        return false;
      }
      assert ClaimIs(frontier, e, allocations, first);
    }
    return true;
  }

  /** One claim for each entry, of the same deal, revision and units, made by the frontier's revision,
      with a digest and like no other allocation. */
  ghost predicate Picks(frontier: SettlementFrontier, allocations: seq<AllocationEntry>, pick: seq<nat>) {
    && |pick| == |frontier.entries|
    && forall k :: 0 <= k < |pick| ==> pick[k] < |allocations| && PickFits(frontier, frontier.entries[k], allocations, pick[k])
  }

  ghost predicate PickFits(frontier: SettlementFrontier, e: FrontierEntry, allocations: seq<AllocationEntry>, i: nat)
    requires i < |allocations|
  {
    var a := allocations[i];
    && a.key.managedKey.operationKey == frontier.operationKey && a.key.managedKey.dealTicket == e.dealTicket
    && a.settlementSourceRevision == e.sourceOperationRevision && a.managedLogicalUnits == e.managedLogicalUnits
    && a.frontierDigest.Some? && 1 <= a.frontierRevision <= frontier.operationRevision && 1 <= a.basisRevision <= frontier.operationRevision
    && forall j :: 0 <= j < |allocations| && j != i ==>
         var b := allocations[j];
         (b.key.managedKey.operationKey, b.key.managedKey.dealTicket, b.settlementSourceRevision, b.managedLogicalUnits)
         != (a.key.managedKey.operationKey, a.key.managedKey.dealTicket, a.settlementSourceRevision, a.managedLogicalUnits)
  }

  ghost function UnitsPicked(allocations: seq<AllocationEntry>, pick: seq<nat>): nat
    requires forall k :: 0 <= k < |pick| ==> pick[k] < |allocations|
  {
    if pick == [] then 0
    else UnitsPicked(allocations, pick[..|pick| - 1]) + allocations[pick[|pick| - 1]].managedLogicalUnits
  }

  /** A frontier is claimed exactly if its entries can be matched with allocations so. */
  lemma ClaimedIff(frontier: SettlementFrontier, allocations: seq<AllocationEntry>)
    ensures FrontierClaimed(frontier, allocations) <==> exists pick: seq<nat> :: Picks(frontier, allocations, pick)
  {
    var entries := frontier.entries;
    forall e, i | 0 <= i < |allocations| ensures ClaimIs(frontier, e, allocations, i) <==> PickFits(frontier, e, allocations, i) {}
    if FrontierClaimed(frontier, allocations) {
      var pick := seq(|entries|, k requires 0 <= k < |entries| => ClaimOf(frontier, entries[k], allocations));
      assert Picks(frontier, allocations, pick);
    }
    if exists pick: seq<nat> :: Picks(frontier, allocations, pick) {
      var pick: seq<nat> :| Picks(frontier, allocations, pick);
      forall e <- entries ensures SoleClaim(frontier, e, allocations) {
        var k :| 0 <= k < |entries| && entries[k] == e;
        assert ClaimIs(frontier, e, allocations, pick[k]);
      }
    }
  }

  ghost function ClaimOf(frontier: SettlementFrontier, e: FrontierEntry, allocations: seq<AllocationEntry>): (i: nat)
    requires SoleClaim(frontier, e, allocations)
    ensures ClaimIs(frontier, e, allocations, i)
  {
    var i :| ClaimIs(frontier, e, allocations, i);
    i
  }

  /** And the matched allocations are different ones whose units come to exactly the settled volume. */
  lemma ClaimsCoverVolume(frontier: SettlementFrontier, allocations: seq<AllocationEntry>, pick: seq<nat>)
    requires frontier.Valid() && Picks(frontier, allocations, pick)
    ensures forall j, k :: 0 <= j < k < |pick| ==> pick[j] != pick[k]
    ensures UnitsPicked(allocations, pick) == frontier.settledVolume
  {
    forall j, k | 0 <= j < k < |pick| ensures pick[j] != pick[k] {
      assert EntryFits(frontier.entries, k, frontier.operationRevision);
    }
    PickedSums(frontier.entries, allocations, pick);
  }

  lemma {:induction false} PickedSums(entries: seq<FrontierEntry>, allocations: seq<AllocationEntry>, pick: seq<nat>)
    requires |pick| == |entries|
    requires forall k :: 0 <= k < |pick| ==> pick[k] < |allocations| && allocations[pick[k]].managedLogicalUnits == entries[k].managedLogicalUnits
    ensures UnitsPicked(allocations, pick) == SumOfUnits(entries)
    decreases |pick|
  {
    if pick != [] { PickedSums(entries[..|pick| - 1], allocations, pick[..|pick| - 1]); }
  }

  // ----- finalize, stage by stage

  /** The allocation that must be durable before anything is published. */
  function Expected(prep: Preparation, broker: BrokerReversal, volume: BrokerVolume, frontierDigest: u64): AllocationEntry {
    AllocationEntry(prep.fact.key.account, AllocationKey(prep.staged.basisKey.brokerKey, prep.fact.key), prep.fact.provenance,
                    broker.provenance, prep.fact.sourceOperationRevision, prep.frontier.operationRevision, Some(frontierDigest),
                    prep.target.revision, prep.fact.managedLogicalUnits, volume)
  }

  /** Everything that is checked before the journal decides; none lets the call go on. */
  ghost function Gate(world: World, prep: Preparation, ev: Evidence, lease: Lease): Option<FinalizeStatus> {
    if !prep.Valid(ev.frontierDigest) then Some(FinalizeInvalidRecord)
    else if ev.preparation.None? then Some(FinalizeInvalidRecord)
    else if ev.preparation.value != prep then Some(FinalizeConflict)
    else if !lease.initially then Some(LeaseNotHeld)
    else if ev.broker.None? then Some(MissingSource)
    else if !ev.broker.value.wellFormed || prep.staged.brokerProvenance != ev.broker.value.provenance then Some(InvalidSource)
    else if ev.brokerVolume.None? then Some(InvalidSource)
    else if !Expected(prep, ev.broker.value, ev.brokerVolume.value, ev.frontierDigest).Valid() then Some(FinalizeInvalidRecord)
    else if ev.broker.value.inout && prep.target.key !in world.journal then Some(FinalizeMissingOperation)
    else if ev.broker.value.inout && world.journal[prep.target.key].revision <= prep.target.revision then Some(InvalidSource)
    else if ev.allocation.None? then Some(PendingAllocation)
    else if ev.allocation.value != Expected(prep, ev.broker.value, ev.brokerVolume.value, ev.frontierDigest) then Some(FinalizeConflict)
    else if ev.scan.None? || !FrontierClaimed(prep.frontier, ev.scan.value) then Some(InvalidSource)
    else None
  }

  /** Recipe, lease and broker evidence are in order; a reversal must be overtaken already. */
  ghost predicate Evident(world: World, prep: Preparation, ev: Evidence, lease: Lease) {
    && prep.WellFormed() && ev.frontierDigest > 0 && ev.preparation == Some(prep) && lease.initially
    && ev.broker.Some? && ev.broker.value.wellFormed && ev.broker.value.provenance == prep.staged.brokerProvenance
    && ev.brokerVolume.Some? && ev.brokerVolume.value.Valid()
    && (ev.broker.value.inout ==> prep.target.key in world.journal && world.journal[prep.target.key].revision > prep.target.revision)
  }

  /** The gate opens exactly for evident recipes whose allocation is durable and whose every frontier
      entry has one timely claim; an evident recipe without its allocation waits for it. */
  lemma GateIff(world: World, prep: Preparation, ev: Evidence, lease: Lease)
    ensures Gate(world, prep, ev, lease).None?
       <==> && Evident(world, prep, ev, lease)
            && ev.allocation == Some(Expected(prep, ev.broker.value, ev.brokerVolume.value, ev.frontierDigest))
            && ev.scan.Some? && FrontierClaimed(prep.frontier, ev.scan.value)
    ensures Gate(world, prep, ev, lease) == Some(PendingAllocation) <==> Evident(world, prep, ev, lease) && ev.allocation.None?
  {
    hide FrontierClaimed;
    hide SettlementFrontier.Valid;
    hide OperationRecord.Valid;
  }

  /** The expected allocation gives the broker deal's volume to exactly this recipe's fact, and is a
      timely claim on the frontier entry of its deal. */
  lemma ExpectedClaims(prep: Preparation, broker: BrokerReversal, volume: BrokerVolume, frontierDigest: u64)
    requires prep.WellFormed()
    ensures var allocation := Expected(prep, broker, volume, frontierDigest);
            && allocation.key.managedKey == prep.fact.key && allocation.key.brokerKey == prep.staged.basisKey.brokerKey
            && allocation.account == prep.target.key.account && allocation.brokerVolume == volume
            && allocation.settlementProvenance == prep.fact.provenance && allocation.brokerProvenance == broker.provenance
            && allocation.frontierDigest == Some(frontierDigest) && Timely(prep.frontier, allocation)
            && exists e <- prep.frontier.entries :: e.Pins(prep.fact) && Claims(prep.frontier, e, allocation)
  {
    hide SettlementFrontier.Valid;
    hide OperationRecord.Valid;
    var e :| e in prep.frontier.entries && e.Pins(prep.fact);
    assert Claims(prep.frontier, e, Expected(prep, broker, volume, frontierDigest));
  }

  /** A recipe ties its parts to one account, one operation, one deal and one revision step. */
  lemma RecipeIsOfOneDeal(prep: Preparation)
    requires prep.WellFormed()
    ensures forall account <- [prep.fact.key.account, prep.fact.key.operationKey.account, prep.frontier.account, prep.staged.account,
                               prep.staged.basisKey.brokerKey.account, prep.staged.basisKey.operationKey.account] ::
              account == prep.target.key.account
    ensures prep.fact.key.operationKey == prep.frontier.operationKey == prep.staged.basisKey.operationKey == prep.target.key
    ensures prep.fact.key.dealTicket == prep.staged.basisKey.brokerKey.dealTicket == prep.target.boundDeal
    ensures prep.staged.targetRevision == prep.frontier.operationRevision == prep.target.revision == prep.baseRevision + 1 > 1
    ensures 0 < prep.fact.managedLogicalUnits <= prep.frontier.settledVolume == prep.target.settledVolume
            <= prep.target.descriptor.value.requestedVolume
  {
    var entries := prep.frontier.entries;
    var e :| e in entries && e.Pins(prep.fact);
    var k :| 0 <= k < |entries| && entries[k] == e;
    AddEntry(entries, k);
  }

  datatype Evidenced = Complete | Missing | Invalid

  /** Whether a preparation overtaken by the journal had been published completely. */
  function HistoricalEvidence(names: Names, world: World, prep: Preparation, current: OperationRecord): Evidenced {
    var fact := Load(names.settlement, world.settlement, prep.fact.key);
    var frontier := LoadFrontier(names.settlement, world.settlement, prep.frontier.operationKey, prep.frontier.operationRevision);
    var basisPath := (names.basis)(prep.staged.basisKey);
    if !HistoricalProgression(prep.target, current) then Invalid
    else if fact.NotFound? then Missing
    else if fact != Found(prep.fact) then Invalid
    else if frontier.FrontierNotFound? then Missing
    else if frontier != FrontierFound(prep.frontier) then Invalid
    else if prep.target.descriptor.None? || !AtLeastResultPersisted(prep.target.journalState)
            || prep.target.descriptor.value.requestedVolume == 0 || prep.target.settledVolume == 0
            || prep.target.settledVolume > prep.target.descriptor.value.requestedVolume
            || !prep.target.BindsDeal(prep.fact.key.dealTicket) then Invalid
    else if basisPath !in world.bases then Missing
    else if world.bases[basisPath] != prep.staged.SettledBasis() then Invalid
    else Complete
  }

  datatype JournalStage = Stop(status: FinalizeStatus) | Proceed(commitFirst: bool)

  function JournalDecision(names: Names, world: World, prep: Preparation, inout: bool, lease: Lease): JournalStage {
    if prep.target.key !in world.journal then Stop(FinalizeMissingOperation)
    else
      var current := world.journal[prep.target.key];
      if current.revision == prep.baseRevision then
        if inout then Stop(InvalidSource)
        else if !ValidTransition(current, prep.target, prep.baseRevision) then Stop(FinalizeInvalidOperation)
        else if !lease.atCommit then Stop(LeaseNotHeld)
        else Proceed(true)
      else if current == prep.target then Proceed(false)
      else if current.revision > prep.target.revision then
        match HistoricalEvidence(names, world, prep, current)
        case Complete => Stop(AlreadyFinalized)
        case Missing => Stop(FinalizeConflict)
        case Invalid => Stop(InvalidSource)
      else Stop(FinalizeConflict)
  }

  /** The journal record that authorizes an ownership basis. */
  predicate BasisProof(journal: map<OperationKey, OperationRecord>, basis: OwnershipBasis, envelopeMatches: bool) {
    && basis.key.operationKey in journal
    && (var source := journal[basis.key.operationKey];
        && source.Valid() && source.key == basis.key.operationKey && source.key.account == basis.account
        && source.revision == basis.operationRevision && source.kind.Close?
        && (source.state.PartiallyFilled? || source.state.Filled?) && AtLeastResultPersisted(source.journalState)
        && source.descriptor.Some? && source.descriptor.value.settlesByFill && source.descriptor.value.requestedVolume != 0
        && source.settledVolume != 0 && source.settledVolume <= source.descriptor.value.requestedVolume
        && source.BindsDeal(basis.key.brokerKey.dealTicket))
    && envelopeMatches
  }

  function MapSettlement(status: Status): FinalizeStatus {
    match status
    case Committed => Finalized
    case AlreadyCommitted => AlreadyFinalized
    case MissingOperationRecord => FinalizeMissingOperation
    case InvalidOperationRecord => FinalizeInvalidOperation
    case MissingFact => MissingSource
    case IoError => FinalizeIoError
    case _ => FinalizeInvalidRecord
  }

  /** Settlement files first, the ownership basis last; `survive` file steps take effect. */
  function Publish(names: Names, world: World, prep: Preparation, envelopeMatches: bool, survive: nat): (FinalizeStatus, World) {
    var journal := JournalOf(world.journal);
    var (status, disk) := Outcome(names.settlement, world.settlement, journal, prep.Publication(), survive);
    var used := |Decide(names.settlement, world.settlement, journal, prep.Publication()).1|;
    var next := world.(settlement := disk);
    if !Succeeded(status) then (MapSettlement(status), next)
    else PublishBasis(names, next, prep, envelopeMatches, status, if survive > used then survive - used else 0)
  }

  function PublishBasis(names: Names, world: World, prep: Preparation, envelopeMatches: bool, settlement: Status, survive: nat)
    : (FinalizeStatus, World)
  {
    var basis := prep.staged.SettledBasis();
    var path := (names.basis)(basis.key);
    if !BasisProof(world.journal, basis, envelopeMatches) then (InvalidSource, world)
    else if path in world.bases && world.bases[path] != basis then (InvalidSource, world)
    else if path in world.bases then (if settlement.AlreadyCommitted? then AlreadyFinalized else Finalized, world)
    else if survive == 0 then (FinalizeIoError, world)
    else (Finalized, world.(bases := world.bases[path := basis]))
  }

  function Advanced(world: World, prep: Preparation): World {
    world.(journal := world.journal[prep.target.key := prep.target])
  }

  /** The whole call: only the first `survive` durable steps take effect before it is cut off. */
  ghost function Finalize(names: Names, world: World, prep: Preparation, ev: Evidence, lease: Lease, survive: nat): (FinalizeStatus, World) {
    if Gate(world, prep, ev, lease).Some? then (Gate(world, prep, ev, lease).value, world)
    else
      match JournalDecision(names, world, prep, ev.broker.value.inout, lease)
      case Stop(status) => (status, world)
      case Proceed(commitFirst) =>
        if commitFirst && survive == 0 then (FinalizeIoError, world)
        else
          var next := if commitFirst then Advanced(world, prep) else world;
          if ev.broker.value.inout then (InvalidSource, next)
          else if !lease.beforePublication || !lease.atPublication then (LeaseNotHeld, next)
          else Publish(names, next, prep, ev.envelopeMatches, if commitFirst then survive - 1 else survive)
  }

  predicate Done(status: FinalizeStatus) {
    status.Finalized? || status.AlreadyFinalized?
  }

  /** The preparation is published as a whole. */
  ghost predicate Completed(names: Names, world: World, prep: Preparation) {
    && Load(names.settlement, world.settlement, prep.fact.key) == Found(prep.fact)
    && LoadFrontier(names.settlement, world.settlement, prep.frontier.operationKey, prep.frontier.operationRevision)
       == FrontierFound(prep.frontier)
    && (names.basis)(prep.staged.basisKey) in world.bases
    && world.bases[(names.basis)(prep.staged.basisKey)] == prep.staged.SettledBasis()
  }

  // ----- order of the durable steps

  lemma SettlementStage(names: Names, world: World, prep: Preparation, survive: nat)
    requires Consistent(names.settlement, world.settlement) && prep.frontier.Valid()
    ensures var (status, disk) := Outcome(names.settlement, world.settlement, JournalOf(world.journal), prep.Publication(), survive);
            && Consistent(names.settlement, disk) && Extends(world.settlement, disk)
            && (disk != world.settlement ==>
                  prep.frontier.operationKey in world.journal && SettledAt(JournalFound(world.journal[prep.frontier.operationKey]), prep.frontier))
            && (Succeeded(status) ==>
                  && Load(names.settlement, disk, prep.fact.key) == Found(prep.fact)
                  && LoadFrontier(names.settlement, disk, prep.frontier.operationKey, prep.frontier.operationRevision)
                     == FrontierFound(prep.frontier))
  {
    hide Consistent;
    hide Outcome;
    hide Load;
    hide LoadFrontier;
    hide SettledAt;
    var journal := JournalOf(world.journal);
    CommitKeepsConsistent(names.settlement, world.settlement, journal, prep.Publication(), survive);
    CommitIsAtomic(names.settlement, world.settlement, journal, prep.Publication(), survive);
    var (status, disk) := Outcome(names.settlement, world.settlement, journal, prep.Publication(), survive);
    if disk != world.settlement { OnlySettledWrites(names.settlement, world.settlement, journal, prep.Publication(), survive); }
    if Succeeded(status) { FrontierLoads(names.settlement, disk, prep.frontier); }
  }

  /** Publication leaves the journal alone, writes settlement files only under an authorizing
      journal record, and the ownership basis only beside a loadable fact and frontier. */
  lemma PublishOrder(names: Names, world: World, prep: Preparation, envelopeMatches: bool, survive: nat)
    requires Consistent(names.settlement, world.settlement) && prep.frontier.Valid()
    ensures var (status, after) := Publish(names, world, prep, envelopeMatches, survive);
            && after.journal == world.journal
            && Consistent(names.settlement, after.settlement) && Extends(world.settlement, after.settlement)
            && (after.settlement != world.settlement ==>
                  prep.frontier.operationKey in world.journal && SettledAt(JournalFound(world.journal[prep.frontier.operationKey]), prep.frontier))
            && (after.bases != world.bases ==> Completed(names, after, prep))
            && (after.bases == world.bases || after.bases == world.bases[(names.basis)(prep.staged.basisKey) := prep.staged.SettledBasis()])
            && (forall path <- world.bases :: path in after.bases && after.bases[path] == world.bases[path])
            && (Done(status) ==> Completed(names, after, prep))
  {
    hide Consistent;
    hide Outcome;
    hide Decide;
    hide Load;
    hide LoadFrontier;
    hide SettledAt;
    hide BasisProof;
    SettlementStage(names, world, prep, survive);
  }

  /** Wherever finalization stops: the journal moves from the base to the target revision only with
      the exact allocation durable; settlement files appear only once the journal holds the target;
      the basis appears only beside the published fact and frontier; nothing else changes. */
  lemma FinalizeOrder(names: Names, world: World, prep: Preparation, ev: Evidence, lease: Lease, survive: nat)
    requires Consistent(names.settlement, world.settlement)
    ensures var (status, after) := Finalize(names, world, prep, ev, lease, survive);
            && Consistent(names.settlement, after.settlement) && Extends(world.settlement, after.settlement)
            && (after.journal != world.journal ==>
                  && prep.target.key in world.journal && world.journal[prep.target.key].revision == prep.baseRevision
                  && after.journal == world.journal[prep.target.key := prep.target]
                  && ev.broker.Some? && ev.brokerVolume.Some?
                  && ev.allocation == Some(Expected(prep, ev.broker.value, ev.brokerVolume.value, ev.frontierDigest)))
            && (after.settlement != world.settlement ==>
                  && prep.target.key in after.journal && after.journal[prep.target.key] == prep.target)
            && (after.bases != world.bases ==> Completed(names, after, prep))
            && (forall path <- world.bases :: path in after.bases && after.bases[path] == world.bases[path])
  {
    hide Consistent;
    hide Publish;
    hide Completed;
    hide Load;
    hide FrontierClaimed;
    hide HistoricalEvidence;
    hide SettledAt;
    if Gate(world, prep, ev, lease).None? {
      match JournalDecision(names, world, prep, ev.broker.value.inout, lease)
      case Stop(_) =>
      case Proceed(commitFirst) =>
        if !(commitFirst && survive == 0) {
          var next := if commitFirst then Advanced(world, prep) else world;
          PublishOrder(names, next, prep, ev.envelopeMatches, if commitFirst then survive - 1 else survive);
        }
    }
  }

  /** A call that reports success has published the whole preparation. */
  lemma SuccessIsComplete(names: Names, world: World, prep: Preparation, ev: Evidence, lease: Lease, survive: nat)
    requires Consistent(names.settlement, world.settlement)
    requires Done(Finalize(names, world, prep, ev, lease, survive).0)
    ensures Completed(names, Finalize(names, world, prep, ev, lease, survive).1, prep)
  {
    hide Consistent;
    hide Publish;
    hide Load;
    hide LoadFrontier;
    hide FrontierClaimed;
    match JournalDecision(names, world, prep, ev.broker.value.inout, lease)
    case Stop(_) =>
    case Proceed(commitFirst) =>
      var next := if commitFirst then Advanced(world, prep) else world;
      PublishOrder(names, next, prep, ev.envelopeMatches, if commitFirst then survive - 1 else survive);
  }

  // ----- restart

  lemma PublishRestarts(names: Names, world: World, prep: Preparation, envelopeMatches: bool, k: nat, n: nat, m: nat)
    requires Consistent(names.settlement, world.settlement) && n >= 4 && m >= 4
    requires Done(Publish(names, world, prep, envelopeMatches, n).0)
    ensures var full := Publish(names, world, prep, envelopeMatches, n).1;
            var again := Publish(names, Publish(names, world, prep, envelopeMatches, k).1, prep, envelopeMatches, m);
            && again.1 == full && Done(again.0)
            && Publish(names, full, prep, envelopeMatches, m) == (AlreadyFinalized, full)
  {
    hide Consistent;
    hide Outcome;
    hide Decide;
    hide BasisProof;
    var journal, p := JournalOf(world.journal), prep.Publication();
    var disk := world.settlement;
    SuccessRestarts(names.settlement, disk, journal, p, k, n, m);
    AtMostThreeSteps(names.settlement, disk, journal, p);
    AtMostThreeSteps(names.settlement, Outcome(names.settlement, disk, journal, p, k).1, journal, p);
    AtMostThreeSteps(names.settlement, Outcome(names.settlement, disk, journal, p, n).1, journal, p);
    assert Publish(names, world, prep, envelopeMatches, k).1.journal == world.journal;
  }

  /** Re-running finalization after a crash anywhere in it, with the same evidence and lease,
      reaches the uninterrupted final state; running it once more reports that all is done. */
  lemma FinalizeRestarts(names: Names, world: World, prep: Preparation, ev: Evidence, lease: Lease, k: nat)
    requires Consistent(names.settlement, world.settlement)
    requires Done(Finalize(names, world, prep, ev, lease, 5).0)
    ensures var full := Finalize(names, world, prep, ev, lease, 5).1;
            var again := Finalize(names, Finalize(names, world, prep, ev, lease, k).1, prep, ev, lease, 5);
            && again.1 == full && Done(again.0)
            && Finalize(names, full, prep, ev, lease, 5) == (AlreadyFinalized, full)
  {
    hide Consistent;
    hide Publish;
    hide HistoricalEvidence;
    hide FrontierClaimed;
    hide ValidTransition;
    match JournalDecision(names, world, prep, ev.broker.value.inout, lease)
    case Stop(_) =>
    case Proceed(commitFirst) =>
      var next := if commitFirst then Advanced(world, prep) else world;
      var left := if commitFirst && k > 0 then k - 1 else k;
      PublishRestarts(names, next, prep, ev.envelopeMatches, left, if commitFirst then 4 else 5, 5);
      PublishRestarts(names, next, prep, ev.envelopeMatches, left, if commitFirst then 4 else 5, 4);
      PublishKeepsJournal(names, next, prep, ev.envelopeMatches, left);
      PublishKeepsJournal(names, next, prep, ev.envelopeMatches, if commitFirst then 4 else 5);
  }

  lemma PublishKeepsJournal(names: Names, world: World, prep: Preparation, envelopeMatches: bool, survive: nat)
    ensures Publish(names, world, prep, envelopeMatches, survive).1.journal == world.journal
  {
    hide Outcome;
    hide Decide;
  }

  // ----- exactly when publication can follow the journal

  /** The journal has let the call proceed and nothing but publication is left. */
  ghost predicate ReadyToPublish(names: Names, world: World, prep: Preparation, ev: Evidence, lease: Lease) {
    && Gate(world, prep, ev, lease).None? && !ev.broker.value.inout && lease.beforePublication && lease.atPublication
    && JournalDecision(names, world, prep, false, lease).Proceed?
  }

  /** The journal as publication will find it. */
  function Target(world: World, prep: Preparation): map<OperationKey, OperationRecord> {
    world.journal[prep.target.key := prep.target]
  }

  /** The journal record that the recipe carries authorizes its own frontier and basis. */
  lemma TargetAuthorizes(journal: map<OperationKey, OperationRecord>, prep: Preparation, envelopeMatches: bool)
    requires prep.WellFormed() && prep.target.key in journal && journal[prep.target.key] == prep.target
    ensures JournalAllows(JournalOf(journal), prep.Publication())
    ensures BasisProof(journal, prep.staged.SettledBasis(), envelopeMatches)
       <==> prep.target.descriptor.value.settlesByFill && envelopeMatches
  {
    hide SettlementFrontier.Valid;
    hide DealSettlement.Valid;
  }

  ghost predicate PriorsOnDisk(names: Names, world: World, prep: Preparation) {
    forall e <- prep.frontier.entries | e.dealTicket != prep.fact.key.dealTicket ::
      EntryOnDisk(names.settlement, world.settlement.facts, prep.frontier, e)
  }

  /** No name the publication needs is taken by something else. */
  predicate NamesFree(names: Names, world: World, prep: Preparation) {
    && FactFree(names.settlement, world.settlement, prep.fact) && FrontierFree(names.settlement, world.settlement, prep.frontier)
    && PendingFree(names.settlement, world.settlement, prep.Publication())
    && ((names.basis)(prep.staged.basisKey) in world.bases
        ==> world.bases[(names.basis)(prep.staged.basisKey)] == prep.staged.SettledBasis())
  }

  lemma CommitAcceptsIff(names: Names, world: World, prep: Preparation, journal: map<OperationKey, OperationRecord>)
    requires Consistent(names.settlement, world.settlement) && prep.Publication().Sealed() && prep.Publication().Fits()
    requires JournalAllows(JournalOf(journal), prep.Publication())
    ensures CommitAccepts(names.settlement, world.settlement, JournalOf(journal), prep.Publication())
       <==> && PriorsOnDisk(names, world, prep)
            && FactFree(names.settlement, world.settlement, prep.fact) && FrontierFree(names.settlement, world.settlement, prep.frontier)
            && PendingFree(names.settlement, world.settlement, prep.Publication())
  {
    hide Consistent;
    hide JournalAllows;
    hide EntryOnDisk;
    SealedIsWellFormed(prep.Publication());
    hide Publication.WellFormed;
    hide Publication.Matched;
  }

  /** Finalization of a sealed recipe that the journal has let through succeeds exactly if all prior
      facts are durable, no name is taken by something else, the operation settles by fill and the
      envelope matches. Otherwise it fails with the journal already at the target revision. */
  lemma FinalizeSucceedsIff(names: Names, world: World, prep: Preparation, ev: Evidence, lease: Lease)
    requires Consistent(names.settlement, world.settlement) && prep.Publication().Sealed() && prep.Publication().Fits()
    requires ReadyToPublish(names, world, prep, ev, lease)
    ensures var (status, after) := Finalize(names, world, prep, ev, lease, 5);
            && after.journal == Target(world, prep)
            && (Done(status) <==>
                  && PriorsOnDisk(names, world, prep) && NamesFree(names, world, prep)
                  && prep.target.descriptor.value.settlesByFill && ev.envelopeMatches)
  {
    hide Consistent;
    hide Outcome;
    hide Decide;
    hide BasisProof;
    hide FrontierClaimed;
    hide ValidTransition;
    hide CommitAccepts;
    hide HistoricalEvidence;
    hide Preparation.WellFormed;
    hide Publication.Sealed;
    hide Publication.Fits;
    hide PriorsOnDisk;
    var commitFirst := JournalDecision(names, world, prep, false, lease).commitFirst;
    var next := if commitFirst then Advanced(world, prep) else world;
    assert next.journal == Target(world, prep);
    var left := if commitFirst then 4 else 5;
    TargetAuthorizes(next.journal, prep, ev.envelopeMatches);
    CommitAcceptsIff(names, world, prep, next.journal);
    CommitSucceedsIff(names.settlement, world.settlement, JournalOf(next.journal), prep.Publication(), left);
    AtMostThreeSteps(names.settlement, world.settlement, JournalOf(next.journal), prep.Publication());
    PublishKeepsJournal(names, next, prep, ev.envelopeMatches, left);
  }

  /** Where no name clashes, a prior fact that is not durable is exactly what is reported as a
      missing source, and by then the journal has moved. */
  lemma MissingSourceIff(names: Names, world: World, prep: Preparation, ev: Evidence, lease: Lease)
    requires ReadyToPublish(names, world, prep, ev, lease) && prep.Publication().Sealed() && NamesFree(names, world, prep)
    requires forall e <- prep.frontier.entries | e.dealTicket != prep.fact.key.dealTicket ::
               (names.settlement.fact)(prep.frontier.FactKey(e)) in world.settlement.facts
               ==> EntryOnDisk(names.settlement, world.settlement.facts, prep.frontier, e)
    ensures var (status, after) := Finalize(names, world, prep, ev, lease, 5);
            && (status.MissingSource? <==> !PriorsOnDisk(names, world, prep))
            && (status.MissingSource? ==> after == world.(journal := Target(world, prep)))
  {
    hide Publish;
    hide FrontierClaimed;
    hide ValidTransition;
    hide HistoricalEvidence;
    hide Preparation.WellFormed;
    hide Publication.Sealed;
    hide EntryOnDisk;
    var commitFirst := JournalDecision(names, world, prep, false, lease).commitFirst;
    var next := if commitFirst then Advanced(world, prep) else world;
    assert next.journal == Target(world, prep);
    MissingPublishes(names, next, prep, ev.envelopeMatches, if commitFirst then 4 else 5);
  }

  lemma MissingPublishes(names: Names, world: World, prep: Preparation, envelopeMatches: bool, survive: nat)
    requires prep.Publication().Sealed() && NamesFree(names, world, prep)
    requires forall e <- prep.frontier.entries | e.dealTicket != prep.fact.key.dealTicket ::
               (names.settlement.fact)(prep.frontier.FactKey(e)) in world.settlement.facts
               ==> EntryOnDisk(names.settlement, world.settlement.facts, prep.frontier, e)
    ensures var (status, after) := Publish(names, world, prep, envelopeMatches, survive);
            && (status.MissingSource? <==> !PriorsOnDisk(names, world, prep))
            && (status.MissingSource? ==> after == world)
  {
    hide BasisProof;
    hide EntryOnDisk;
    hide JournalVerdict;
    hide Publication.Fits;
    var p := prep.Publication();
    SealedIsWellFormed(p);
    OnlyMissingFacts(names.settlement, world.settlement, p, 0, false);
    AcceptedIsReady(names.settlement, world.settlement, p);
    hide EntriesVerdict;
    assert PendingReady(names.settlement, world.settlement.facts, p) <==> PriorsOnDisk(names, world, prep);
    hide PriorsOnDisk;
    hide Publication.WellFormed;
    hide PendingReady;
    JournalMissesNoFact(JournalOf(world.journal)(prep.frontier.operationKey), prep.frontier);
  }

  lemma JournalMissesNoFact(load: JournalLoad, frontier: SettlementFrontier)
    ensures JournalVerdict(load, frontier) != Some(MissingFact)
  {
  }

  lemma {:induction false} OnlyMissingFacts(paths: Paths, disk: Disk, p: Publication, i: nat, referenced: bool)
    requires i <= |p.frontier.entries| && p.WellFormed()
    requires referenced || exists k :: i <= k < |p.frontier.entries| && p.frontier.entries[k].dealTicket == p.fact.key.dealTicket
    requires forall e <- p.frontier.entries | e.dealTicket != p.fact.key.dealTicket ::
               (paths.fact)(p.frontier.FactKey(e)) in disk.facts ==> EntryOnDisk(paths, disk.facts, p.frontier, e)
    ensures var verdict := EntriesVerdict(paths, disk, p, i, referenced);
            verdict.Some? ==> verdict.value.MissingFact?
    decreases |p.frontier.entries| - i
  {
    if i < |p.frontier.entries| {
      var own := p.frontier.entries[i].dealTicket == p.fact.key.dealTicket;
      assert p.frontier.entries[i] in p.frontier.entries;
      if own || EntryOnDisk(paths, disk.facts, p.frontier, p.frontier.entries[i]) { OnlyMissingFacts(paths, disk, p, i + 1, referenced || own); }
    }
  }

  /** A recipe whose fact or frontier name holds another record never finalizes, in this world or any
      later one, and never adds a settlement file or a basis. */
  lemma ContestedNeverFinalizes(names: Names, world: World, later: World, prep: Preparation, ev: Evidence, lease: Lease, survive: nat)
    requires !FactFree(names.settlement, world.settlement, prep.fact) || !FrontierFree(names.settlement, world.settlement, prep.frontier)
    requires Consistent(names.settlement, later.settlement) && Extends(world.settlement, later.settlement)
    ensures var (status, after) := Finalize(names, later, prep, ev, lease, survive);
            !Done(status) && after.settlement == later.settlement && after.bases == later.bases
  {
    hide FrontierClaimed;
    hide ValidTransition;
    hide Preparation.WellFormed;
    hide Consistent;
    hide Publish;
    ContestedIsNotLoaded(names, later, prep);
    hide Load;
    hide LoadFrontier;
    if Gate(later, prep, ev, lease).None? {
      match JournalDecision(names, later, prep, ev.broker.value.inout, lease)
      case Stop(_) =>
      case Proceed(commitFirst) =>
        ContestedNeverPublishes(names, if commitFirst then Advanced(later, prep) else later, prep, ev.envelopeMatches,
                                if commitFirst && survive > 0 then survive - 1 else survive);
    }
  }

  lemma ContestedNeverPublishes(names: Names, world: World, prep: Preparation, envelopeMatches: bool, survive: nat)
    requires !FactFree(names.settlement, world.settlement, prep.fact) || !FrontierFree(names.settlement, world.settlement, prep.frontier)
    ensures !Done(Publish(names, world, prep, envelopeMatches, survive).0)
    ensures Publish(names, world, prep, envelopeMatches, survive).1 == world
  {
    hide EntriesVerdict;
    hide BasisProof;
  }

  lemma ContestedIsNotLoaded(names: Names, world: World, prep: Preparation)
    requires !FactFree(names.settlement, world.settlement, prep.fact) || !FrontierFree(names.settlement, world.settlement, prep.frontier)
    ensures Load(names.settlement, world.settlement, prep.fact.key) != Found(prep.fact)
         || LoadFrontier(names.settlement, world.settlement, prep.frontier.operationKey, prep.frontier.operationRevision)
            != FrontierFound(prep.frontier)
  {
  }

  /** A journal that has moved past the target: nothing is written, and the preparation counts as
      finalized exactly when all of it was published and the journal still contains it. */
  lemma OvertakenIff(names: Names, world: World, prep: Preparation, ev: Evidence, lease: Lease, survive: nat)
    requires Gate(world, prep, ev, lease).None? && prep.target.key in world.journal
    requires world.journal[prep.target.key].revision > prep.target.revision
    ensures var (status, after) := Finalize(names, world, prep, ev, lease, survive);
            && after == world
            && (Done(status) <==> Completed(names, world, prep) && HistoricalProgression(prep.target, world.journal[prep.target.key]))
            && (Done(status) ==> status.AlreadyFinalized?)
  {
    hide Load;
    hide LoadFrontier;
    hide FrontierClaimed;
  }

  /** The journal stands at the recipe's base and may settle to its target, or stands there already. */
  ghost predicate JournalReady(world: World, prep: Preparation, lease: Lease) {
    && prep.target.key in world.journal
    && (var current := world.journal[prep.target.key];
        || current == prep.target
        || (current.Valid() && FillsFurther(current, prep.target) && current.revision == prep.baseRevision && lease.atCommit))
  }

  /** The journal has moved past the recipe by filling further, and all of it was published. */
  ghost predicate Overtaken(names: Names, world: World, prep: Preparation) {
    && prep.target.key in world.journal && Completed(names, world, prep)
    && (var current := world.journal[prep.target.key];
        current.Valid() && FillsFurther(prep.target, current) && current.revision > prep.target.revision)
  }

  /** Exactly when the uninterrupted call finalizes a sealed recipe of storable size. */
  lemma FinalizeIff(names: Names, world: World, prep: Preparation, ev: Evidence, lease: Lease)
    requires Consistent(names.settlement, world.settlement) && prep.Publication().Sealed() && prep.Publication().Fits()
    ensures Done(Finalize(names, world, prep, ev, lease, 5).0)
       <==> && Evident(world, prep, ev, lease)
            && ev.allocation == Some(Expected(prep, ev.broker.value, ev.brokerVolume.value, ev.frontierDigest))
            && ev.scan.Some? && FrontierClaimed(prep.frontier, ev.scan.value)
            && (|| Overtaken(names, world, prep)
                || (&& JournalReady(world, prep, lease) && !ev.broker.value.inout && lease.beforePublication && lease.atPublication
                    && PriorsOnDisk(names, world, prep) && NamesFree(names, world, prep)
                    && prep.target.descriptor.value.settlesByFill && ev.envelopeMatches))
  {
    GateIff(world, prep, ev, lease);
    hide Consistent, Publication.Sealed, Publication.Fits, FrontierClaimed, PriorsOnDisk, NamesFree, Completed, Publish, HistoricalEvidence;
    if Gate(world, prep, ev, lease).None? && prep.target.key in world.journal {
      var current := world.journal[prep.target.key];
      TransitionIff(current, prep.target, prep.baseRevision);
      if current.revision > prep.target.revision {
        OvertakenIff(names, world, prep, ev, lease, 5);
      } else if ReadyToPublish(names, world, prep, ev, lease) {
        FinalizeSucceedsIff(names, world, prep, ev, lease);
      }
    }
    hide FillsFurther, Preparation.WellFormed, Gate, Evident;
  }

  /** A successful call reports the recipe as finalized before exactly if it wrote no settlement or
      basis file. */
  lemma AlreadyFinalizedIff(names: Names, world: World, prep: Preparation, ev: Evidence, lease: Lease)
    requires Consistent(names.settlement, world.settlement) && Done(Finalize(names, world, prep, ev, lease, 5).0)
    ensures var (status, after) := Finalize(names, world, prep, ev, lease, 5);
            status.AlreadyFinalized? <==> after.settlement == world.settlement && after.bases == world.bases
  {
    GateStops(world, prep, ev, lease);
    hide Gate;
    PublishReports(names, world, prep, ev.envelopeMatches, 5);
    PublishReports(names, Advanced(world, prep), prep, ev.envelopeMatches, 4);
    if Gate(world, prep, ev, lease).None? { StopsWithoutChange(names, world, prep, ev.broker.value.inout, lease); }
    hide JournalDecision, Consistent, Publish;
  }

  lemma GateStops(world: World, prep: Preparation, ev: Evidence, lease: Lease)
    ensures Gate(world, prep, ev, lease).Some? ==> !Done(Gate(world, prep, ev, lease).value)
    ensures Gate(world, prep, ev, lease).None? ==> ev.broker.Some?
  {
    hide FrontierClaimed, Preparation.WellFormed;
  }

  lemma StopsWithoutChange(names: Names, world: World, prep: Preparation, inout: bool, lease: Lease)
    ensures var decision := JournalDecision(names, world, prep, inout, lease);
            decision.Stop? && Done(decision.status) ==> decision.status.AlreadyFinalized?
  {
    hide HistoricalEvidence, ValidTransition;
  }

  lemma PublishReports(names: Names, world: World, prep: Preparation, envelopeMatches: bool, n: nat)
    requires Consistent(names.settlement, world.settlement) && n >= 3
    ensures var (status, after) := Publish(names, world, prep, envelopeMatches, n);
            Done(status) ==> (status.AlreadyFinalized? <==> after.settlement == world.settlement && after.bases == world.bases)
  {
    CommitSucceedsIff(names.settlement, world.settlement, JournalOf(world.journal), prep.Publication(), n);
    hide Outcome, Consistent, CommitAccepts, BasisProof, Decide;
  }

  // ----- durable steps of one call

  function PublishSteps(names: Names, world: World, prep: Preparation, envelopeMatches: bool): nat {
    var (status, steps) := Decide(names.settlement, world.settlement, JournalOf(world.journal), prep.Publication());
    var basis := prep.staged.SettledBasis();
    |steps| + if Succeeded(status) && BasisProof(world.journal, basis, envelopeMatches) && (names.basis)(basis.key) !in world.bases then 1 else 0
  }

  /** How many durable steps the uninterrupted call takes. */
  ghost function StepsOf(names: Names, world: World, prep: Preparation, ev: Evidence, lease: Lease): nat {
    if Gate(world, prep, ev, lease).Some? then 0
    else
      match JournalDecision(names, world, prep, ev.broker.value.inout, lease)
      case Stop(_) => 0
      case Proceed(commitFirst) =>
        var next := if commitFirst then Advanced(world, prep) else world;
        (if commitFirst then 1 else 0)
        + if ev.broker.value.inout || !lease.beforePublication || !lease.atPublication then 0
          else PublishSteps(names, next, prep, ev.envelopeMatches)
  }

  /** A call takes at most five durable steps; it is cut off exactly when fewer survive than it
      takes, and otherwise how many more would have survived makes no difference. */
  lemma FinalizeBudget(names: Names, world: World, prep: Preparation, ev: Evidence, lease: Lease, survive: nat)
    requires Consistent(names.settlement, world.settlement)
    ensures var steps := StepsOf(names, world, prep, ev, lease);
            && steps <= 5
            && (survive >= steps ==> Finalize(names, world, prep, ev, lease, survive) == Finalize(names, world, prep, ev, lease, 5))
            && (survive < steps ==> Finalize(names, world, prep, ev, lease, survive).0 == FinalizeIoError)
  {
    hide Consistent;
    hide Publish;
    hide PublishSteps;
    hide HistoricalEvidence;
    hide FrontierClaimed;
    hide ValidTransition;
    hide Preparation.WellFormed;
    if Gate(world, prep, ev, lease).None? {
      match JournalDecision(names, world, prep, ev.broker.value.inout, lease)
      case Stop(_) =>
      case Proceed(commitFirst) =>
        var next := if commitFirst then Advanced(world, prep) else world;
        PublishBudget(names, next, prep, ev.envelopeMatches, if commitFirst && survive > 0 then survive - 1 else survive, if commitFirst then 4 else 5);
    }
  }

  lemma PublishBudget(names: Names, world: World, prep: Preparation, envelopeMatches: bool, survive: nat, n: nat)
    requires Consistent(names.settlement, world.settlement) && n >= 4
    ensures var steps := PublishSteps(names, world, prep, envelopeMatches);
            && steps <= 4
            && (survive >= steps ==> Publish(names, world, prep, envelopeMatches, survive) == Publish(names, world, prep, envelopeMatches, n))
            && (survive < steps ==> Publish(names, world, prep, envelopeMatches, survive).0 == FinalizeIoError)
  {
    hide Consistent;
    hide Decide;
    hide BasisProof;
    var journal := JournalOf(world.journal);
    AtMostThreeSteps(names.settlement, world.settlement, journal, prep.Publication());
    CommitIsAcceptable(names.settlement, world.settlement, journal, prep.Publication());
  }

  // ----- whole runs

  datatype Try = Try(prep: Preparation, ev: Evidence, lease: Lease, survive: nat)

  ghost function AfterTry(names: Names, world: World, t: Try): World {
    Finalize(names, world, t.prep, t.ev, t.lease, t.survive).1
  }

  /** How often the tries of a run advance one operation's journal from one revision. */
  ghost function Advances(names: Names, world: World, tries: seq<Try>, key: OperationKey, base: u64): nat
    decreases |tries|
  {
    if tries == [] then 0
    else
      var next := AfterTry(names, world, tries[0]);
      (if next.journal != world.journal && tries[0].prep.target.key == key && tries[0].prep.baseRevision == base then 1 else 0)
      + Advances(names, next, tries[1..], key, base)
  }

  lemma TryRaisesRevision(names: Names, world: World, t: Try)
    requires Consistent(names.settlement, world.settlement)
    ensures var after := AfterTry(names, world, t);
            && Consistent(names.settlement, after.settlement)
            && (forall key <- world.journal :: key in after.journal && after.journal[key].revision >= world.journal[key].revision)
            && (after.journal != world.journal ==>
                  && t.prep.target.key in world.journal && world.journal[t.prep.target.key].revision == t.prep.baseRevision
                  && after.journal[t.prep.target.key].revision > t.prep.baseRevision)
  {
    hide Consistent;
    hide Completed;
    hide Load;
    FinalizeOrder(names, world, t.prep, t.ev, t.lease, t.survive);
    if AfterTry(names, world, t).journal != world.journal { ChangeNeedsValid(names, world, t); }
    hide Finalize;
  }

  lemma ChangeNeedsValid(names: Names, world: World, t: Try)
    requires AfterTry(names, world, t).journal != world.journal
    ensures t.prep.target.revision == t.prep.baseRevision + 1
  {
  }

  /** Over any run of finalizations, of any preparations and cut off anywhere, the journal of an
      operation leaves each revision at most once. */
  lemma {:induction false} AdvancesAtMostOnce(names: Names, world: World, tries: seq<Try>, key: OperationKey, base: u64)
    requires Consistent(names.settlement, world.settlement)
    ensures Advances(names, world, tries, key, base) <= 1
    ensures key in world.journal && world.journal[key].revision > base ==> Advances(names, world, tries, key, base) == 0
    decreases |tries|
  {
    hide Consistent;
    hide AfterTry;
    if tries != [] {
      TryRaisesRevision(names, world, tries[0]);
      AdvancesAtMostOnce(names, AfterTry(names, world, tries[0]), tries[1..], key, base);
    }
  }

  lemma GateOpens(world: World, prep: Preparation, ev: Evidence, lease: Lease)
    requires Gate(world, prep, ev, lease).None?
    ensures ev.broker.Some? && ev.brokerVolume.Some? && prep.Valid(ev.frontierDigest)
  {
  }

  // ----- the preparation store

  lemma CompletedStays(names: Names, before: World, after: World, prep: Preparation)
    requires Consistent(names.settlement, before.settlement) && Consistent(names.settlement, after.settlement)
    requires Extends(before.settlement, after.settlement)
    requires forall path <- before.bases :: path in after.bases && after.bases[path] == before.bases[path]
    requires Completed(names, before, prep)
    ensures Completed(names, after, prep)
  {
    hide Consistent;
    hide Load;
    VisibilityIsMonotone(names.settlement, before.settlement, after.settlement, prep.fact.key);
    LoadedFrontierStays(names.settlement, before.settlement, after.settlement, prep.frontier.operationKey, prep.frontier.operationRevision);
  }
}
