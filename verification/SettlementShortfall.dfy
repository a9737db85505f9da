/** Two histories of the producer's own publications that end short of completion: a sealed recipe that
    advances the journal and can never be published, because sealing does not ask the settlement store
    (src/dispatch/file_managed_settlement_preparation_store.cpp:723-789, 925-1000), and the rivals that
    stop the settlement store's recovery. */
module SettlementShortfall {
  import opened MachineWords
  import opened Options
  import opened SettlementRecords
  import opened AllocationRecords
  import opened DealSettlementStore
  import opened SettlementProducer
  import opened OperationJournal
  import opened SettlementFinalizer
  import opened SettlementPreparations

  const PROOF := Provenance(1, 1, 1, 1)

  function Operation(): OperationKey {
    OperationKey(AccountKey([65], 1), 1, 1)
  }

  /** A close of eight units bound to deal 7. */
  function Record(state: OperationState, revision: u64, settled: u64): OperationRecord {
    OperationRecord(Operation(), Close, state, JournalReconciling, revision, Some(ReconciliationDescriptor(8, true, 0)), 7, settled, 0, true)
  }

  /** Deal 7 as the whole settlement of one revision. */
  function Whole(revision: u64, units: u64): Publication {
    var key := Operation();
    Publication(DealSettlement(DealSettlementKey(key.account, key, 7), revision, units, PROOF),
                SettlementFrontier(key.account, key, revision, units, PROOF, [FrontierEntry(7, revision, units)]))
  }

  function LateRecipe(): Preparation {
    var key := Operation();
    Preparation(Whole(4, 8).fact, Whole(4, 8).frontier, Record(Filled, 4, 8), 3,
                StagedOwnership(key.account, BasisKey(ReversalKey(key.account, 7), key), 1, 3, 4, 1))
  }

  function LateEvidence(): Evidence {
    var broker, volume := BrokerReversal(true, false, 1), BrokerVolume(8, 0, 1);
    var allocation := Expected(LateRecipe(), broker, volume, 1);
    Evidence(Some(LateRecipe()), Some(broker), Some(volume), 1, Some(allocation), Some([allocation]), true)
  }

  const HELD := Lease(true, true, true, true)

  /** The journal with five of eight units filled at revision 3. */
  function PartFilled(): map<OperationKey, OperationRecord> {
    map[Operation() := Record(PartiallyFilled, 3, 5)]
  }

  /** The stores after the five units were committed to the settlement store directly. */
  function PartSettled(names: Names): World {
    World(PartFilled(), Outcome(names.settlement, Disk(map[], map[], map[]), JournalOf(PartFilled()), Whole(3, 5), 3).1, map[])
  }

  lemma WholeIsValid(revision: u64, units: u64)
    requires revision != 0 && units != 0
    ensures Whole(revision, units).Sealed() && Whole(revision, units).Fits()
  {
    var entries := Whole(revision, units).frontier.entries;
    assert entries[..|entries| - 1] == [];
    assert SumOfUnits(entries) == SumOfUnits([]) + units;
  }

  /** Both publications are the producer's. */
  lemma BothAreProduced()
    ensures Produce(Record(PartiallyFilled, 3, 5), Showing(Whole(3, 5), 7), 7, 5, PROOF.evidenceDigest, []) == Some(Whole(3, 5))
    ensures Produce(Record(Filled, 4, 8), Showing(Whole(4, 8), 7), 7, 8, PROOF.evidenceDigest, []) == Some(Whole(4, 8))
  {
    WholeIsValid(3, 5);
    WholeIsValid(4, 8);
    hide Produce;
    SealedIsProduced(Whole(3, 5), Record(PartiallyFilled, 3, 5), []);
    SealedIsProduced(Whole(4, 8), Record(Filled, 4, 8), []);
  }

  /** So are the two publications whose frontiers rival each other in the settlement store. */
  lemma RivalsAreProduced(ticket: u64)
    requires ticket != 0
    ensures var p := Rival(ticket);
            var load := RivalJournal()(p.frontier.operationKey);
            && load.JournalFound?
            && Produce(load.record, Showing(p, load.record.boundDeal), ticket, 5, p.fact.provenance.evidenceDigest, []) == Some(p)
  {
    hide Produce;
    var p := Rival(ticket);
    var entries := p.frontier.entries;
    assert entries[..|entries| - 1] == [];
    assert SumOfUnits(entries) == SumOfUnits([]) + 5;
    SealedIsProduced(p, RivalJournal()(p.frontier.operationKey).record, []);
  }

  lemma RecipeIsValid()
    ensures MayPrepare(PartFilled(), LateRecipe(), 1) && RecipeSound(PartFilled(), LateRecipe())
  {
    WholeIsValid(4, 8);
    hide Publication.Sealed;
    assert LateRecipe().Publication() == Whole(4, 8);
    assert LateRecipe().frontier.entries[0].Pins(LateRecipe().fact);
  }

  lemma RecipeIsReady(names: Names)
    ensures ReadyToPublish(names, PartSettled(names), LateRecipe(), LateEvidence(), HELD)
  {
    RecipeIsValid();
    hide Outcome;
    hide Preparation.WellFormed;
    var prep, ev := LateRecipe(), LateEvidence();
    var allocations := ev.scan.value;
    assert Expected(prep, ev.broker.value, ev.brokerVolume.value, 1).Valid();
    forall e <- prep.frontier.entries ensures SoleClaim(prep.frontier, e, allocations) {
      assert ClaimIs(prep.frontier, e, allocations, 0);
    }
  }

  lemma PartIsSettled(names: Names)
    ensures Consistent(names.settlement, PartSettled(names).settlement)
    ensures Outcome(names.settlement, Disk(map[], map[], map[]), JournalOf(PartFilled()), Whole(3, 5), 3).0.Committed?
    ensures !FactFree(names.settlement, PartSettled(names).settlement, LateRecipe().fact)
  {
    hide Consistent;
    hide PendingReady;
    hide Publication.Fits;
    var empty, journal := Disk(map[], map[], map[]), JournalOf(PartFilled());
    EmptyIsConsistent(names.settlement);
    WholeIsReady(names);
    DecideAcceptable(names.settlement, empty, journal, Whole(3, 5));
    AtMostThreeSteps(names.settlement, empty, journal, Whole(3, 5));
    hide Decide;
    CommitKeepsConsistent(names.settlement, empty, journal, Whole(3, 5), 3);
    SuccessPublishes(names.settlement, empty, journal, Whole(3, 5), 3);
    assert FactPath(names.settlement, LateRecipe().fact) == FactPath(names.settlement, Whole(3, 5).fact);
  }

  lemma WholeIsReady(names: Names)
    ensures PendingReady(names.settlement, map[], Whole(3, 5)) && Whole(3, 5).Fits() && JournalAllows(JournalOf(PartFilled()), Whole(3, 5))
  {
    WholeIsValid(3, 5);
    SealedIsWellFormed(Whole(3, 5));
  }

  /** The history: five units of deal 7 are committed directly; a recipe for all eight units of the
      same deal is sealed at the next revision; its allocation is durable. The first finalization
      moves the journal to that revision and fails, and no later one ever succeeds. */
  lemma SettledDealStrands(names: Names, file: Path, survive: nat, later: World, ev: Evidence, lease: Lease, n: nat)
    requires survive >= 1
    requires Consistent(names.settlement, later.settlement) && Extends(PartSettled(names).settlement, later.settlement)
    ensures var world := PartSettled(names);
            var (status, after) := Finalize(names, world, LateRecipe(), LateEvidence(), HELD, survive);
            && MayPrepare(world.journal, LateRecipe(), 1) && RecipesSound(world.journal, map[file := LateRecipe()])
            && (forall a <- LateEvidence().scan.value :: Backed(names, world.settlement, map[file := LateRecipe()], a))
            && Consistent(names.settlement, world.settlement)
            && status == FinalizeInvalidRecord && after == world.(journal := Target(world, LateRecipe()))
            && after.journal[Operation()].revision == 4 && world.journal[Operation()].revision == 3
            && !Done(Finalize(names, later, LateRecipe(), ev, lease, n).0)
  {
    hide Consistent;
    hide ReadyToPublish;
    hide Finalize;
    hide Preparation.WellFormed;
    hide MayPrepare;
    hide Outcome;
    RecipeIsValid();
    RecipeIsReady(names);
    PartIsSettled(names);
    var world := PartSettled(names);
    ContestedNeverFinalizes(names, world, later, LateRecipe(), ev, lease, n);
    ContestedAdvances(names, world, LateRecipe(), LateEvidence(), HELD, survive);
    assert ClaimedFact(LateEvidence().scan.value[0]) == map[file := LateRecipe()][file].fact;
    assert RecipeSound(world.journal, LateRecipe());
  }

  /** Past the gate, a taken fact name is noticed only after the journal has moved. */
  lemma ContestedAdvances(names: Names, world: World, prep: Preparation, ev: Evidence, lease: Lease, survive: nat)
    requires ReadyToPublish(names, world, prep, ev, lease) && survive >= 1 && prep.Publication().Matched()
    requires !FactFree(names.settlement, world.settlement, prep.fact)
    ensures Finalize(names, world, prep, ev, lease, survive) == (FinalizeInvalidRecord, world.(journal := Target(world, prep)))
  {
    hide FrontierClaimed;
    hide HistoricalEvidence;
    hide ValidTransition;
    hide Preparation.WellFormed;
    hide EntriesVerdict;
    hide Publication.Matched;
    hide BasisProof;
    var commitFirst := JournalDecision(names, world, prep, false, lease).commitFirst;
    assert (if commitFirst then Advanced(world, prep) else world).journal == Target(world, prep);
  }

  /** One deal per operation rests on the owner of the journal: the store alone would take the write-
      ahead state back, which no mutation does, and then another deal. */
  lemma StoreAloneUnsettles()
    ensures var journal := PartFilled();
            var back := Record(Reconciling, 4, 0).(journalState := Dispatching);
            var other := back.(revision := 5, boundDeal := 8);
            && RecipeSound(journal, LateRecipe()) && StoreAccepts(journal, back, Some(3))
            && (forall m: Mutation :: Candidate(journal[Operation()], m) != Some(back))
            && StoreAccepts(journal[Operation() := back], other, Some(4))
            && !RecipeSound(journal[Operation() := back][Operation() := other], LateRecipe())
  {
    hide Publication.Sealed;
    hide Preparation.WellFormed;
    RecipeIsValid();
  }
}
