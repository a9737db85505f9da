/** Durable settlement recipes: sealing, finalization one by one, and recovery of all of them
    (src/dispatch/file_managed_settlement_preparation_store.cpp:434-454, 723-789, 831-1047), beside the
    other mutations of the journal. */
module SettlementPreparations {
  import opened MachineWords
  import opened Options
  import opened SettlementRecords
  import opened AllocationRecords
  import opened DealSettlementStore
  import opened SettlementProducer
  import opened OperationJournal
  import opened SettlementFinalizer

  // ----- storage limits

  const MAX_RECIPE_BODY: nat := 0x20_0000

  /** Bytes that an operation record takes in a recipe; none for one that cannot be encoded. */
  type Footprint = OperationRecord -> Option<nat>

  /** A record with a descriptor carries its server name three times: its own, the descriptor's and the baseline's. */
  ghost predicate NamesCounted(footprint: Footprint) {
    forall r: OperationRecord :: footprint(r).Some? && r.descriptor.Some? ==> footprint(r).value >= 3 * |r.key.account.server|
  }

  function StagedSize(staged: StagedOwnership): nat {
    140 + |staged.account.server| + |staged.basisKey.brokerKey.account.server| + |staged.basisKey.operationKey.account.server|
  }

  predicate Storable(prep: Preparation, footprint: Footprint) {
    var p := prep.Publication();
    && |prep.frontier.entries| <= MAX_ENTRIES && footprint(prep.target).Some?
    && p.FactSize() + p.FrontierSize() + 8 + StagedSize(prep.staged) + footprint(prep.target).value <= MAX_RECIPE_BODY
  }

  /** The manifest limit is half the recipe limit, and yet no recipe that could be stored is later
      refused for its size: the recipe holds each server name ten times, the manifest four times. */
  lemma StorableFits(prep: Preparation, footprint: Footprint)
    requires prep.WellFormed() && NamesCounted(footprint) && Storable(prep, footprint)
    ensures prep.Publication().Fits()
  {
    hide SettlementFrontier.Valid;
    hide OperationRecord.Valid;
    assert footprint(prep.target).value >= 3 * |prep.target.key.account.server|;
  }

  // ----- recipes and the journal

  datatype PrepareStatus =
    Prepared | AlreadyPrepared | PrepareConflict | PrepareInvalidRecord | PrepareMissingOperation | PrepareInvalidOperation | PrepareIoError

  /** A recipe may be sealed while the journal still stands at its base revision. */
  predicate MayPrepare(journal: map<OperationKey, OperationRecord>, prep: Preparation, frontierDigest: u64) {
    && prep.target.key in journal && journal[prep.target.key].Valid() && journal[prep.target.key].revision == prep.baseRevision
    && ValidTransition(journal[prep.target.key], prep.target, prep.baseRevision) && prep.Valid(frontierDigest)
  }

  /** A durable recipe is sealed, of storable size, and the journal record of its operation still
      has the tuple that it was prepared for. */
  ghost predicate RecipeSound(journal: map<OperationKey, OperationRecord>, prep: Preparation) {
    && prep.Publication().Sealed() && prep.Publication().Fits() && prep.WellFormed() && prep.target.key in journal
    && (var current := journal[prep.target.key];
        SameTuple(prep.target, current) && current.journalState.JournalReconciling? && current.revision >= prep.baseRevision)
  }

  ghost predicate RecipesSound(journal: map<OperationKey, OperationRecord>, recipes: map<Path, Preparation>) {
    forall file <- recipes :: RecipeSound(journal, recipes[file])
  }

  lemma PreparedIsSound(journal: map<OperationKey, OperationRecord>, prep: Preparation, frontierDigest: u64, footprint: Footprint)
    requires MayPrepare(journal, prep, frontierDigest) && prep.Publication().Sealed() && NamesCounted(footprint) && Storable(prep, footprint)
    ensures RecipeSound(journal, prep)
  {
    StorableFits(prep, footprint);
    hide Storable;
    hide SettlementFrontier.Valid;
  }

  /** No mutation of the journal unsettles a durable recipe. */
  lemma MutationKeepsRecipes(journal: map<OperationKey, OperationRecord>, recipes: map<Path, Preparation>, key: OperationKey, m: Mutation)
    requires RecipesSound(journal, recipes) && key in journal && Candidate(journal[key], m).Some?
    ensures RecipesSound(journal[key := Candidate(journal[key], m).value], recipes)
  {
    hide Preparation.WellFormed;
    hide Publication.Sealed;
    hide Publication.Fits;
    MutationKeepsTuple(journal[key], m);
    hide Candidate;
    forall file <- recipes ensures RecipeSound(journal[key := Candidate(journal[key], m).value], recipes[file]) {
      assert RecipeSound(journal, recipes[file]);
    }
  }

  lemma NewOperationKeepsRecipes(journal: map<OperationKey, OperationRecord>, recipes: map<Path, Preparation>, record: OperationRecord)
    requires RecipesSound(journal, recipes) && record.key !in journal
    ensures RecipesSound(journal[record.key := record], recipes)
  {
    hide Preparation.WellFormed;
    hide Publication.Sealed;
    hide Publication.Fits;
    forall file <- recipes ensures RecipeSound(journal[record.key := record], recipes[file]) {
      assert RecipeSound(journal, recipes[file]);
    }
  }

  /** All recipes of one operation, over its whole life, are for one and the same deal. */
  lemma OneDealPerOperation(journal: map<OperationKey, OperationRecord>, a: Preparation, b: Preparation)
    requires RecipeSound(journal, a) && RecipeSound(journal, b) && a.target.key == b.target.key
    ensures a.fact.key == b.fact.key
  {
    hide SettlementFrontier.Valid;
  }

  /** Hence an operation is finalized through a recipe at one revision only: once one recipe's fact
      is durable, no recipe of another revision ever finalizes, now or later. */
  lemma OneRecipePerOperation(names: Names, world: World, later: World, done: Preparation, prep: Preparation, ev: Evidence, lease: Lease, survive: nat)
    requires RecipeSound(world.journal, done) && RecipeSound(world.journal, prep) && done.target.key == prep.target.key
    requires done.target.revision != prep.target.revision && Completed(names, world, done)
    requires Consistent(names.settlement, later.settlement) && Extends(world.settlement, later.settlement)
    ensures !Done(Finalize(names, later, prep, ev, lease, survive).0)
    ensures Finalize(names, later, prep, ev, lease, survive).1.settlement == later.settlement
  {
    OneDealPerOperation(world.journal, done, prep);
    hide Consistent;
    hide Finalize;
    hide SettlementFrontier.Valid;
    assert done.fact.sourceOperationRevision != prep.fact.sourceOperationRevision;
    ContestedNeverFinalizes(names, world, later, prep, ev, lease, survive);
  }

  // ----- prior facts

  /** The fact that an allocation claims. */
  function ClaimedFact(a: AllocationEntry): DealSettlement {
    DealSettlement(a.key.managedKey, a.settlementSourceRevision, a.managedLogicalUnits, a.settlementProvenance)
  }

  /** A recovery scan lists an allocation only with its fact: in a durable recipe, or loadable. */
  ghost predicate Backed(names: Names, disk: Disk, recipes: map<Path, Preparation>, a: AllocationEntry) {
    || (exists file <- recipes :: recipes[file].fact == ClaimedFact(a))
    || Load(names.settlement, disk, a.key.managedKey) == Found(ClaimedFact(a))
  }

  /** Past the gate, with such a scan, every prior fact of a durable recipe is durable: its claim
      cannot rest on another recipe, because all recipes of the operation are for the new deal. */
  lemma PriorFactsAreDurable(names: Names, world: World, recipes: map<Path, Preparation>, file: Path, ev: Evidence, lease: Lease)
    requires Consistent(names.settlement, world.settlement) && RecipesSound(world.journal, recipes) && file in recipes
    requires Gate(world, recipes[file], ev, lease).None?
    requires forall a <- ev.scan.value :: Backed(names, world.settlement, recipes, a)
    ensures PriorsOnDisk(names, world, recipes[file])
  {
    hide Consistent;
    var prep := recipes[file];
    assert RecipeSound(world.journal, prep);
    assert ev.scan.Some? && FrontierClaimed(prep.frontier, ev.scan.value);
    hide Gate;
    forall e <- prep.frontier.entries | e.dealTicket != prep.fact.key.dealTicket
      ensures EntryOnDisk(names.settlement, world.settlement.facts, prep.frontier, e)
    {
      assert SoleClaim(prep.frontier, e, ev.scan.value);
      var i :| ClaimIs(prep.frontier, e, ev.scan.value, i);
      PriorFactIsDurable(names, world, recipes, prep, e, ev.scan.value[i]);
    }
  }

  lemma PriorFactIsDurable(names: Names, world: World, recipes: map<Path, Preparation>, prep: Preparation, e: FrontierEntry, a: AllocationEntry)
    requires Consistent(names.settlement, world.settlement) && RecipesSound(world.journal, recipes) && RecipeSound(world.journal, prep)
    requires e.dealTicket != prep.fact.key.dealTicket && Claims(prep.frontier, e, a)
    requires Backed(names, world.settlement, recipes, a)
    ensures EntryOnDisk(names.settlement, world.settlement.facts, prep.frontier, e)
  {
    hide SettlementFrontier.Valid;
    hide Consistent;
    if file :| file in recipes && recipes[file].fact == ClaimedFact(a) {
      OneDealPerOperation(world.journal, recipes[file], prep);
      assert false;
    } else {
      VisibleIffPinned(names.settlement, world.settlement, a.key.managedKey);
    }
  }

  /** So a durable recipe that the journal has let through fails only over a name taken by another
      record, an operation that does not settle by fill, or a mismatched envelope. */
  lemma RecipeSucceedsIff(names: Names, world: World, recipes: map<Path, Preparation>, file: Path, ev: Evidence, lease: Lease)
    requires Consistent(names.settlement, world.settlement) && RecipesSound(world.journal, recipes) && file in recipes
    requires ReadyToPublish(names, world, recipes[file], ev, lease)
    requires forall a <- ev.scan.value :: Backed(names, world.settlement, recipes, a)
    ensures var (status, after) := Finalize(names, world, recipes[file], ev, lease, 5);
            && after.journal == Target(world, recipes[file])
            && (Done(status) <==>
                  NamesFree(names, world, recipes[file]) && recipes[file].target.descriptor.value.settlesByFill && ev.envelopeMatches)
  {
    hide Consistent;
    hide Finalize;
    assert RecipeSound(world.journal, recipes[file]);
    FinalizeSucceedsIff(names, world, recipes[file], ev, lease);
    PriorFactsAreDurable(names, world, recipes, file, ev, lease);
  }

  // ----- a recipe that needs no more work

  /** Recovery goes on after such an answer. */
  predicate Passes(status: FinalizeStatus) {
    Done(status) || status.PendingAllocation?
  }

  /** The stores as this process keeps them. */
  ghost predicate Sane(names: Names, world: World) {
    Consistent(names.settlement, world.settlement) && Manifested(names.settlement, world.settlement)
  }

  /** The publication stands complete, manifest included. */
  ghost predicate Standing(names: Names, disk: Disk, p: Publication) {
    Acceptable(names.settlement, disk, p) && Published(names.settlement, disk, p) && PendingPath(names.settlement, p) in disk.pendings
  }

  /** Everything is published and the journal holds the target or has legally moved on from it. */
  ghost predicate RecipeDone(names: Names, world: World, prep: Preparation, ev: Evidence, lease: Lease) {
    && prep.WellFormed() && prep.target.key in world.journal && Completed(names, world, prep)
    && (|| HistoricalProgression(prep.target, world.journal[prep.target.key])
        || (&& world.journal[prep.target.key] == prep.target && Standing(names, world.settlement, prep.Publication())
            && prep.target.descriptor.value.settlesByFill && ev.envelopeMatches && lease.beforePublication && lease.atPublication))
  }

  /** Another call for this recipe changes nothing: it still waits for its allocation, or is done. */
  ghost predicate Settled(names: Names, world: World, prep: Preparation, ev: Evidence, lease: Lease, waiting: bool) {
    if waiting then Gate(world, prep, ev, lease) == Some(PendingAllocation)
    else Gate(world, prep, ev, lease).None? && RecipeDone(names, world, prep, ev, lease)
  }

  lemma SettledReturns(names: Names, world: World, prep: Preparation, ev: Evidence, lease: Lease, waiting: bool, survive: nat)
    requires Sane(names, world) && Settled(names, world, prep, ev, lease, waiting)
    ensures Finalize(names, world, prep, ev, lease, survive) == (if waiting then PendingAllocation else AlreadyFinalized, world)
    ensures StepsOf(names, world, prep, ev, lease) == 0
  {
    hide Consistent;
    hide Manifested;
    hide FrontierClaimed;
    hide Completed;
    if !waiting {
      if world.journal[prep.target.key].revision > prep.target.revision {
        OvertakenIff(names, world, prep, ev, lease, survive);
        hide Preparation.WellFormed;
      } else {
        StandingReturns(names, world, prep, ev.envelopeMatches, survive);
        hide HistoricalEvidence;
        hide Publish;
        hide PublishSteps;
      }
    }
  }

  lemma StandingReturns(names: Names, world: World, prep: Preparation, envelopeMatches: bool, survive: nat)
    requires prep.WellFormed() && prep.target.key in world.journal && world.journal[prep.target.key] == prep.target
    requires Completed(names, world, prep) && Standing(names, world.settlement, prep.Publication())
    requires prep.target.descriptor.value.settlesByFill && envelopeMatches
    ensures Publish(names, world, prep, envelopeMatches, survive) == (AlreadyFinalized, world)
    ensures PublishSteps(names, world, prep, envelopeMatches) == 0
  {
    TargetAuthorizes(world.journal, prep, envelopeMatches);
    DecideAcceptable(names.settlement, world.settlement, JournalOf(world.journal), prep.Publication());
    hide Acceptable;
    hide Decide;
    hide BasisProof;
    hide Load;
    hide LoadFrontier;
    hide Preparation.WellFormed;
  }

  lemma FinalizeKeepsSane(names: Names, world: World, prep: Preparation, ev: Evidence, lease: Lease, survive: nat)
    requires Sane(names, world)
    ensures var after := Finalize(names, world, prep, ev, lease, survive).1;
            && Sane(names, after) && Extends(world.settlement, after.settlement)
            && (forall path <- world.bases :: path in after.bases && after.bases[path] == world.bases[path])
  {
    hide Consistent;
    hide Manifested;
    hide Outcome;
    hide Completed;
    hide Gate;
    hide JournalDecision;
    hide Decide;
    hide BasisProof;
    FinalizeOrder(names, world, prep, ev, lease, survive);
    forall journal: Journal, n: nat ensures Manifested(names.settlement, Outcome(names.settlement, world.settlement, journal, prep.Publication(), n).1) {
      CommitKeepsManifested(names.settlement, world.settlement, journal, prep.Publication(), n);
    }
  }

  ghost predicate Moves(before: map<OperationKey, OperationRecord>, after: map<OperationKey, OperationRecord>, prep: Preparation) {
    || after == before
    || (&& prep.WellFormed() && prep.target.key in before && ValidTransition(before[prep.target.key], prep.target, prep.baseRevision)
        && after == before[prep.target.key := prep.target])
  }

  /** Finalization moves a journal record only by the transition that the recipe carries. */
  lemma JournalMove(names: Names, world: World, prep: Preparation, ev: Evidence, lease: Lease, survive: nat)
    ensures Moves(world.journal, Finalize(names, world, prep, ev, lease, survive).1.journal, prep)
  {
    hide FrontierClaimed;
    hide HistoricalEvidence;
    hide ValidTransition;
    hide Publish;
    hide Preparation.WellFormed;
    forall next: World, n: nat ensures Publish(names, next, prep, ev.envelopeMatches, n).1.journal == next.journal {
      PublishKeepsJournal(names, next, prep, ev.envelopeMatches, n);
    }
  }

  /** A call that succeeds, or waits for its allocation, leaves nothing more to do. */
  lemma PassingSettles(names: Names, world: World, prep: Preparation, ev: Evidence, lease: Lease, survive: nat)
    requires Sane(names, world) && Passes(Finalize(names, world, prep, ev, lease, survive).0)
    ensures var (status, after) := Finalize(names, world, prep, ev, lease, survive);
            Settled(names, after, prep, ev, lease, status.PendingAllocation?)
  {
    hide Consistent;
    hide Manifested;
    hide FrontierClaimed;
    hide Completed;
    hide HistoricalEvidence;
    hide Publish;
    hide Standing;
    if Gate(world, prep, ev, lease).None? {
      var inout := ev.broker.value.inout;
      match JournalDecision(names, world, prep, inout, lease)
      case Stop(_) =>
        OvertakenIff(names, world, prep, ev, lease, survive);
      case Proceed(commitFirst) =>
        var next := if commitFirst then Advanced(world, prep) else world;
        var left := if commitFirst && survive > 0 then survive - 1 else survive;
        PublishedStands(names, next, prep, ev.envelopeMatches, left);
        SuccessIsComplete(names, world, prep, ev, lease, survive);
        PublishKeepsJournal(names, next, prep, ev.envelopeMatches, left);
    }
  }

  lemma PublishedStands(names: Names, world: World, prep: Preparation, envelopeMatches: bool, survive: nat)
    requires Sane(names, world) && prep.WellFormed() && prep.target.key in world.journal && world.journal[prep.target.key] == prep.target
    ensures var (status, after) := Publish(names, world, prep, envelopeMatches, survive);
            && (Done(status) ==> Standing(names, after.settlement, prep.Publication())
                                 && prep.target.descriptor.value.settlesByFill && envelopeMatches)
            && !status.PendingAllocation?
  {
    hide Consistent;
    hide Manifested;
    hide Outcome;
    hide Decide;
    hide BasisProof;
    hide Acceptable;
    hide Published;
    hide Preparation.WellFormed;
    hide Standing;
    var journal, p := JournalOf(world.journal), prep.Publication();
    TargetAuthorizes(world.journal, prep, envelopeMatches);
    SuccessPublishes(names.settlement, world.settlement, journal, p, survive);
    CommitKeepsManifested(names.settlement, world.settlement, journal, p, survive);
    if Succeeded(Outcome(names.settlement, world.settlement, journal, p, survive).0) {
      PublishedHasManifest(names, Outcome(names.settlement, world.settlement, journal, p, survive).1, p);
    }
  }

  lemma PublishedHasManifest(names: Names, disk: Disk, p: Publication)
    requires Acceptable(names.settlement, disk, p) && Published(names.settlement, disk, p) && Manifested(names.settlement, disk)
    ensures Standing(names, disk, p)
  {
    hide Consistent;
    assert disk.facts[FactPath(names.settlement, p.fact)] == p.fact;
    assert HasManifest(names.settlement, disk.pendings, p.fact);
    assert p.Matched();
  }

  /** What is settled stays settled while other recipes are finalized, wherever they stop. */
  lemma SettledStays(names: Names, world: World, prep: Preparation, ev: Evidence, lease: Lease, waiting: bool,
                     other: Preparation, otherEv: Evidence, otherLease: Lease, survive: nat)
    requires Sane(names, world) && Settled(names, world, prep, ev, lease, waiting)
    ensures Settled(names, Finalize(names, world, other, otherEv, otherLease, survive).1, prep, ev, lease, waiting)
  {
    var after := Finalize(names, world, other, otherEv, otherLease, survive).1;
    JournalMove(names, world, other, otherEv, otherLease, survive);
    FinalizeKeepsSane(names, world, other, otherEv, otherLease, survive);
    hide Finalize;
    hide Sane;
    hide RecipeDone;
    MovesRaise(world.journal, after.journal, other);
    hide Moves;
    GateStays(names, world, after, prep, ev, lease);
    hide Gate;
    if !waiting { DoneStays(names, world, after, prep, ev, lease, other); }
  }

  lemma MovesRaise(before: map<OperationKey, OperationRecord>, after: map<OperationKey, OperationRecord>, prep: Preparation)
    requires Moves(before, after, prep)
    ensures forall key <- before :: key in after && after[key].revision >= before[key].revision
  {
    hide OperationRecord.Valid;
  }

  /** A journal that is further on lets everybody pass who passed before. */
  lemma GateStays(names: Names, world: World, after: World, prep: Preparation, ev: Evidence, lease: Lease)
    requires forall key <- world.journal :: key in after.journal && after.journal[key].revision >= world.journal[key].revision
    ensures Gate(world, prep, ev, lease).None? ==> Gate(after, prep, ev, lease).None?
    ensures Gate(world, prep, ev, lease) == Some(PendingAllocation) ==> Gate(after, prep, ev, lease) == Some(PendingAllocation)
  {
    hide FrontierClaimed;
    hide Preparation.WellFormed;
  }

  lemma DoneStays(names: Names, world: World, after: World, prep: Preparation, ev: Evidence, lease: Lease, other: Preparation)
    requires Sane(names, world) && Sane(names, after) && Extends(world.settlement, after.settlement)
    requires forall path <- world.bases :: path in after.bases && after.bases[path] == world.bases[path]
    requires RecipeDone(names, world, prep, ev, lease)
    requires Moves(world.journal, after.journal, other)
    ensures RecipeDone(names, after, prep, ev, lease)
  {
    hide Completed;
    hide Consistent;
    hide Manifested;
    hide Acceptable;
    hide Published;
    hide HistoricalProgression;
    var p, key := prep.Publication(), prep.target.key;
    CompletedStays(names, world, after, prep);
    if Standing(names, world.settlement, p) { StaysAcceptable(names.settlement, world.settlement, after.settlement, p); }
    ProgressionStays(world.journal, after.journal, prep, other);
    hide Preparation.WellFormed;
    hide Moves;
  }

  /** A settled operation that moves on still contains what was settled before. */
  lemma ProgressionStays(before: map<OperationKey, OperationRecord>, after: map<OperationKey, OperationRecord>, prep: Preparation, other: Preparation)
    requires Moves(before, after, other) && prep.WellFormed() && prep.target.key in before
    requires before[prep.target.key] == prep.target || HistoricalProgression(prep.target, before[prep.target.key])
    ensures prep.target.key in after
    ensures after[prep.target.key] == before[prep.target.key] || HistoricalProgression(prep.target, after[prep.target.key])
  {
    hide SettlementFrontier.Valid;
    hide StagedOwnership.Valid;
    hide DealSettlement.Valid;
    hide OperationRecord.Valid;
  }

  // ----- recovery of all recipes

  function Remaining(survive: nat, steps: nat): nat {
    if survive >= steps then survive - steps else 0
  }

  /** The answer for a recipe followed by others: a failure ends the recovery, a missing allocation
      only postpones. */
  function Merge(first: FinalizeStatus, rest: FinalizeStatus): FinalizeStatus {
    if !Passes(rest) then rest
    else if first.PendingAllocation? || rest.PendingAllocation? then PendingAllocation
    else if first.Finalized? || rest.Finalized? then Finalized
    else AlreadyFinalized
  }

  /** Finalization of one recipe after the other, until one fails; `survive` durable steps take
      effect in all. */
  ghost function RecoverAll(names: Names, world: World, preps: seq<Preparation>, evidence: Preparation -> Evidence, lease: Lease, survive: nat)
    : (FinalizeStatus, World)
    decreases |preps|
  {
    if preps == [] then (AlreadyFinalized, world)
    else
      var (status, next) := Finalize(names, world, preps[0], evidence(preps[0]), lease, survive);
      if !Passes(status) then (status, next)
      else
        var left := Remaining(survive, StepsOf(names, world, preps[0], evidence(preps[0]), lease));
        var (rest, end) := RecoverAll(names, next, preps[1..], evidence, lease, left);
        (Merge(status, rest), end)
  }

  lemma {:induction false} RecoverKeepsSettled(names: Names, world: World, preps: seq<Preparation>, evidence: Preparation -> Evidence, lease: Lease,
                                               survive: nat, prep: Preparation, ev: Evidence, waiting: bool)
    requires Sane(names, world) && Settled(names, world, prep, ev, lease, waiting)
    ensures var end := RecoverAll(names, world, preps, evidence, lease, survive).1;
            Sane(names, end) && Settled(names, end, prep, ev, lease, waiting)
    decreases |preps|
  {
    hide Sane;
    hide Settled;
    hide Finalize;
    hide StepsOf;
    if preps != [] {
      var ev0 := evidence(preps[0]);
      FinalizeKeepsSane(names, world, preps[0], ev0, lease, survive);
      SettledStays(names, world, prep, ev, lease, waiting, preps[0], ev0, lease, survive);
      RecoverKeepsSettled(names, Finalize(names, world, preps[0], ev0, lease, survive).1, preps[1..], evidence, lease,
                          Remaining(survive, StepsOf(names, world, preps[0], ev0, lease)), prep, ev, waiting);
    }
  }

  /** With five steps for each recipe nothing is cut off, and more would make no difference. */
  lemma {:induction false} AmpleBudget(names: Names, world: World, preps: seq<Preparation>, evidence: Preparation -> Evidence, lease: Lease,
                                       n: nat, m: nat)
    requires Sane(names, world) && n >= 5 * |preps| && m >= 5 * |preps|
    ensures RecoverAll(names, world, preps, evidence, lease, n) == RecoverAll(names, world, preps, evidence, lease, m)
    decreases |preps|
  {
    hide Sane;
    hide Finalize;
    hide StepsOf;
    if preps != [] {
      FirstOfMany(names, world, preps, evidence, lease, n);
      FirstOfMany(names, world, preps, evidence, lease, m);
      var steps := StepsOf(names, world, preps[0], evidence(preps[0]), lease);
      AmpleBudget(names, Finalize(names, world, preps[0], evidence(preps[0]), lease, 5).1, preps[1..], evidence, lease, n - steps, m - steps);
    }
  }

  /** The first recipe of an ample recovery runs to its end and leaves enough for the others. */
  lemma FirstOfMany(names: Names, world: World, preps: seq<Preparation>, evidence: Preparation -> Evidence, lease: Lease, n: nat)
    requires Sane(names, world) && preps != [] && n >= 5 * |preps|
    ensures var ev := evidence(preps[0]);
            var (status, next) := Finalize(names, world, preps[0], ev, lease, 5);
            var steps := StepsOf(names, world, preps[0], ev, lease);
            && Sane(names, next) && n - steps >= 5 * |preps[1..]|
            && Finalize(names, world, preps[0], ev, lease, n) == (status, next)
            && RecoverAll(names, world, preps, evidence, lease, n)
               == if !Passes(status) then (status, next)
                  else (Merge(status, RecoverAll(names, next, preps[1..], evidence, lease, n - steps).0),
                        RecoverAll(names, next, preps[1..], evidence, lease, n - steps).1)
  {
    hide Finalize;
    hide StepsOf;
    FinalizeBudget(names, world, preps[0], evidence(preps[0]), lease, n);
    FinalizeKeepsSane(names, world, preps[0], evidence(preps[0]), lease, 5);
  }

  /** The one recipe in which a recovery is cut off. */
  lemma CutRestarts(names: Names, world: World, prep: Preparation, ev: Evidence, lease: Lease, k: nat)
    requires Sane(names, world) && k < StepsOf(names, world, prep, ev, lease)
    requires Passes(Finalize(names, world, prep, ev, lease, 5).0)
    ensures var (status, full) := Finalize(names, world, prep, ev, lease, 5);
            var cut := Finalize(names, world, prep, ev, lease, k).1;
            && !status.PendingAllocation? && Sane(names, cut)
            && Finalize(names, world, prep, ev, lease, k).0 == FinalizeIoError
            && Finalize(names, cut, prep, ev, lease, 5).1 == full && Done(Finalize(names, cut, prep, ev, lease, 5).0)
  {
    hide Finalize;
    hide StepsOf;
    hide Consistent;
    hide Manifested;
    FinalizeBudget(names, world, prep, ev, lease, k);
    FinalizeKeepsSane(names, world, prep, ev, lease, k);
    PendingTakesNoSteps(names, world, prep, ev, lease);
    FinalizeRestarts(names, world, prep, ev, lease, k);
  }

  lemma PendingTakesNoSteps(names: Names, world: World, prep: Preparation, ev: Evidence, lease: Lease)
    ensures Finalize(names, world, prep, ev, lease, 5).0 == PendingAllocation ==> StepsOf(names, world, prep, ev, lease) == 0
  {
    hide FrontierClaimed;
    hide HistoricalEvidence;
    hide ValidTransition;
    hide Preparation.WellFormed;
    hide Outcome;
    hide Decide;
    hide BasisProof;
  }

  /** The restart law of recovery: where recovery of any list of recipes would pass, it may be cut
      off after any number of durable steps, within whichever recipe that is, and recovering again
      ends in the same stores with the same answer about missing allocations. */
  lemma {:induction false} RecoveryRestarts(names: Names, world: World, preps: seq<Preparation>, evidence: Preparation -> Evidence, lease: Lease,
                                            k: nat, n: nat, m: nat)
    requires Sane(names, world) && n >= 5 * |preps| && m >= 5 * |preps|
    requires Passes(RecoverAll(names, world, preps, evidence, lease, n).0)
    ensures var (status, full) := RecoverAll(names, world, preps, evidence, lease, n);
            var cut := RecoverAll(names, world, preps, evidence, lease, k).1;
            var (again, end) := RecoverAll(names, cut, preps, evidence, lease, m);
            && end == full && Passes(again) && (again.PendingAllocation? <==> status.PendingAllocation?) && Sane(names, cut)
    decreases |preps|
  {
    hide Sane;
    hide Settled;
    hide Finalize;
    hide StepsOf;
    if preps != [] {
      var prep, ev := preps[0], evidence(preps[0]);
      FirstOfMany(names, world, preps, evidence, lease, n);
      SaneIsConsistent(names, world);
      FinalizeBudget(names, world, prep, ev, lease, k);
      var (status, next) := Finalize(names, world, prep, ev, lease, 5);
      var steps := StepsOf(names, world, prep, ev, lease);
      if k >= steps {
        RecoveryRestarts(names, next, preps[1..], evidence, lease, k - steps, n - steps, m);
        PassingSettles(names, world, prep, ev, lease, 5);
        RecoverKeepsSettled(names, next, preps[1..], evidence, lease, k - steps, prep, ev, status.PendingAllocation?);
        var cut := RecoverAll(names, next, preps[1..], evidence, lease, k - steps).1;
        SettledReturns(names, cut, prep, ev, lease, status.PendingAllocation?, m);
      } else {
        CutRestarts(names, world, prep, ev, lease, k);
        var cut := Finalize(names, world, prep, ev, lease, k).1;
        FirstOfMany(names, cut, preps, evidence, lease, m);
        AmpleBudget(names, next, preps[1..], evidence, lease, n - steps, m - StepsOf(names, cut, prep, ev, lease));
      }
    } else {
      assert Sane(names, world);
    }
  }

  lemma SaneIsConsistent(names: Names, world: World)
    requires Sane(names, world)
    ensures Consistent(names.settlement, world.settlement)
  {
  }

  /** Having passed once, recovery finds nothing left to do. */
  lemma {:induction false} RecoveredIsFinal(names: Names, world: World, preps: seq<Preparation>, evidence: Preparation -> Evidence, lease: Lease, n: nat)
    requires Sane(names, world) && Passes(RecoverAll(names, world, preps, evidence, lease, n).0)
    ensures var (status, full) := RecoverAll(names, world, preps, evidence, lease, n);
            && Sane(names, full)
            && (forall prep <- preps :: exists waiting :: Settled(names, full, prep, evidence(prep), lease, waiting))
            && (!status.PendingAllocation? ==> forall prep <- preps :: Settled(names, full, prep, evidence(prep), lease, false))
    decreases |preps|
  {
    hide Sane;
    hide Settled;
    hide Finalize;
    hide StepsOf;
    if preps != [] {
      var prep, ev := preps[0], evidence(preps[0]);
      FinalizeKeepsSane(names, world, prep, ev, lease, n);
      PassingSettles(names, world, prep, ev, lease, n);
      var (status, next) := Finalize(names, world, prep, ev, lease, n);
      var left := Remaining(n, StepsOf(names, world, prep, ev, lease));
      RecoverKeepsSettled(names, next, preps[1..], evidence, lease, left, prep, ev, status.PendingAllocation?);
      RecoveredIsFinal(names, next, preps[1..], evidence, lease, left);
      assert forall p <- preps :: p == prep || p in preps[1..];
    }
  }

  lemma DoneIsCompleted(names: Names, world: World, prep: Preparation, ev: Evidence, lease: Lease)
    requires Settled(names, world, prep, ev, lease, false)
    ensures Completed(names, world, prep)
  {
  }

  // ----- the preparation store

  function Recipes(preparations: map<Path, Preparation>, listing: seq<Path>): seq<Preparation>
    requires forall file <- listing :: file in preparations
  {
    seq(|listing|, i requires 0 <= i < |listing| => preparations[listing[i]])
  }

  /** What the answers so far come to. */
  function SoFar(finalized: bool, pending: bool): FinalizeStatus {
    if pending then PendingAllocation else if finalized then Finalized else AlreadyFinalized
  }

  /** One turn of the recovery loop. */
  lemma RecoverTurn(names: Names, world: World, preps: seq<Preparation>, i: nat, evidence: Preparation -> Evidence, lease: Lease, left: nat,
                    finalized: bool, pending: bool)
    requires i < |preps|
    ensures var (status, next) := Finalize(names, world, preps[i], evidence(preps[i]), lease, left);
            var remaining := Remaining(left, StepsOf(names, world, preps[i], evidence(preps[i]), lease));
            var (rest, end) := RecoverAll(names, world, preps[i..], evidence, lease, left);
            var (later, last) := RecoverAll(names, next, preps[i + 1..], evidence, lease, remaining);
            && (!Passes(status) ==> (Merge(SoFar(finalized, pending), rest), end) == (status, next))
            && (Passes(status) ==>
                  end == last
                  && Merge(SoFar(finalized, pending), rest)
                     == Merge(SoFar(finalized || status.Finalized?, pending || status.PendingAllocation?), later))
  {
    hide Finalize;
    hide StepsOf;
    assert preps[i..][0] == preps[i] && preps[i..][1..] == preps[i + 1..];
  }

  lemma RecoverEnd(names: Names, world: World, preps: seq<Preparation>, evidence: Preparation -> Evidence, lease: Lease, left: nat,
                   finalized: bool, pending: bool)
    ensures var (rest, end) := RecoverAll(names, world, preps[|preps|..], evidence, lease, left);
            (Merge(SoFar(finalized, pending), rest), end) == (SoFar(finalized, pending), world)
    ensures var (rest, end) := RecoverAll(names, world, preps, evidence, lease, left);
            (Merge(SoFar(false, false), rest), end) == (rest, end)
  {
    hide Finalize;
    hide StepsOf;
  }

  class PreparationStore {
    const names: Names
    const path: (OperationKey, u64, u64) -> Path
    const footprint: Footprint
    const store: Store
    var preparations: map<Path, Preparation>
    var journal: map<OperationKey, OperationRecord>
    var bases: map<Path, OwnershipBasis>

    constructor (names: Names, path: (OperationKey, u64, u64) -> Path, footprint: Footprint, store: Store,
                 journal: map<OperationKey, OperationRecord>)
      requires store.paths == names.settlement && NamesCounted(footprint)
      requires Consistent(names.settlement, store.State()) && Manifested(names.settlement, store.State())
      ensures this.names == names && this.store == store && Valid() && preparations == map[]
      ensures State() == World(journal, store.State(), map[])
    {
      this.names, this.path, this.footprint, this.store := names, path, footprint, store;
      this.journal, preparations, bases := journal, map[], map[];
    }

    ghost predicate Valid()
      reads this, store
    {
      && store.paths == names.settlement && NamesCounted(footprint) && Sane(names, State())
      && (forall file <- preparations :: PreparationPath(preparations[file]) == file) && RecipesSound(journal, preparations)
    }

    ghost function State(): World
      reads this, store
    {
      World(journal, store.State(), bases)
    }

    function PreparationPath(prep: Preparation): Path
    {
      path(prep.target.key, prep.target.revision, prep.fact.key.dealTicket)
    }

    /** A file under the recipe's name counts only if it holds a recipe of the same identity: names
        that clash never deliver another operation's recipe, and a durable recipe is always found. */
    function LoadPreparation(prep: Preparation): (found: Option<Preparation>)
      reads this
      ensures found.Some? ==> && found.value.target.key == prep.target.key && found.value.target.revision == prep.target.revision
                              && found.value.fact.key.dealTicket == prep.fact.key.dealTicket
      ensures PreparationPath(prep) in preparations && preparations[PreparationPath(prep)] == prep ==> found == Some(prep)
    {
      var file := PreparationPath(prep);
      if file in preparations && preparations[file].target.key == prep.target.key
         && preparations[file].target.revision == prep.target.revision
         && preparations[file].fact.key.dealTicket == prep.fact.key.dealTicket then Some(preparations[file]) else None
    }

    /** Seals a recipe for a producer's publication; a recipe once durable is never replaced. */
    method Prepare(proof: Publication, target: OperationRecord, baseRevision: u64, staged: StagedOwnership, frontierDigest: u64, survive: nat)
      returns (status: PrepareStatus)
      requires Valid() && proof.Sealed()
      modifies this`preparations
      ensures Valid()
      ensures forall file <- old(preparations) :: file in preparations && preparations[file] == old(preparations)[file]
      ensures var prep := Preparation(proof.fact, proof.frontier, target, baseRevision, staged);
              var file, accepted := PreparationPath(prep), MayPrepare(journal, prep, frontierDigest);
              && (status.PrepareMissingOperation? <==> target.key !in journal)
              && (status.PrepareInvalidOperation? <==> target.key in journal && !ValidTransition(journal[target.key], target, baseRevision))
              && (status.Prepared? <==> accepted && file !in old(preparations) && Storable(prep, footprint) && survive > 0)
              && (status.AlreadyPrepared? <==> accepted && file in old(preparations) && old(preparations)[file] == prep)
              && (status.PrepareConflict? <==> accepted && file in old(preparations) && old(preparations)[file] != prep)
              && (status.PrepareIoError? <==> accepted && file !in old(preparations) && Storable(prep, footprint) && survive == 0)
              && preparations == if status.Prepared? then old(preparations)[file := prep] else old(preparations)
    {
      hide Sane;
      hide SameImmutable;
      hide Progresses;
      hide OperationRecord.Valid;
      hide Preparation.WellFormed;
      hide Publication.Sealed;
      hide Storable;
      if target.key !in journal {
        return PrepareMissingOperation;
      }
      var base := journal[target.key];
      if !base.Valid() || base.revision != baseRevision || !ValidTransition(base, target, baseRevision) {
        return PrepareInvalidOperation;
      }
      var prep := Preparation(proof.fact, proof.frontier, target, baseRevision, staged);
      if !prep.Valid(frontierDigest) {
        return PrepareInvalidRecord;
      }
      var file := PreparationPath(prep);
      if file in preparations {
        return if preparations[file] == prep then AlreadyPrepared else PrepareConflict;
      }
      if !Storable(prep, footprint) {
        return PrepareInvalidRecord;
      }
      if survive == 0 {
        return PrepareIoError;
      }
      PreparedIsSound(journal, prep, frontierDigest, footprint);
      hide RecipeSound;
      preparations := preparations[file := prep];
      return Prepared;
    }

    /** A new operation enters the journal. */
    method CreateOperation(record: OperationRecord) returns (accepted: bool)
      requires Valid()
      modifies this`journal
      ensures Valid()
      ensures accepted <==> && record.Valid() && record.key !in old(journal) && record.revision == 1 && record.descriptor.None?
                            && record.state.Queued? && record.journalState.Created?
      ensures accepted ==> StoreAccepts(old(journal), record, None)
      ensures journal == if accepted then old(journal)[record.key := record] else old(journal)
    {
      hide OperationRecord.Valid;
      hide RecipesSound;
      if !record.Valid() || record.key in journal || record.revision != 1 || record.descriptor.Some? || !record.state.Queued?
         || !record.journalState.Created? {
        return false;
      }
      NewOperationKeepsRecipes(journal, preparations, record);
      journal := journal[record.key := record];
      return true;
    }

    /** A mutation by the rest of the dispatch layer; `permitted` is the verdict of the guards on
        payloads, tokens and bindings. */
    method AdvanceJournal(key: OperationKey, m: Mutation, permitted: bool) returns (accepted: bool)
      requires Valid()
      modifies this`journal
      ensures Valid()
      ensures accepted <==> permitted && key in old(journal) && Advance(old(journal)[key], m).Some?
      ensures journal == if accepted then old(journal)[key := Advance(old(journal)[key], m).value] else old(journal)
    {
      hide OperationRecord.Valid;
      hide RecipesSound;
      hide Candidate;
      if !permitted || key !in journal {
        return false;
      }
      var candidate := Candidate(journal[key], m);
      if candidate.None? || !candidate.value.Valid() {
        return false;
      }
      MutationKeepsRecipes(journal, preparations, key, m);
      journal := journal[key := candidate.value];
      return true;
    }

    /** The checks before the journal decides, in their order. */
    method CheckGate(prep: Preparation, ev: Evidence, lease: Lease) returns (verdict: Option<FinalizeStatus>)
      ensures verdict == Gate(State(), prep, ev, lease)
    {
      hide FrontierClaimed;
      hide Preparation.WellFormed;
      if !prep.Valid(ev.frontierDigest) || ev.preparation.None? {
        return Some(FinalizeInvalidRecord);
      }
      if ev.preparation.value != prep {
        return Some(FinalizeConflict);
      }
      if !lease.initially {
        return Some(LeaseNotHeld);
      }
      if ev.broker.None? {
        return Some(MissingSource);
      }
      if !ev.broker.value.wellFormed || prep.staged.brokerProvenance != ev.broker.value.provenance || ev.brokerVolume.None? {
        return Some(InvalidSource);
      }
      var expected := Expected(prep, ev.broker.value, ev.brokerVolume.value, ev.frontierDigest);
      if !expected.Valid() {
        return Some(FinalizeInvalidRecord);
      }
      if ev.broker.value.inout {
        if prep.target.key !in journal {
          return Some(FinalizeMissingOperation);
        }
        if journal[prep.target.key].revision <= prep.target.revision {
          return Some(InvalidSource);
        }
      }
      if ev.allocation.None? {
        return Some(PendingAllocation);
      }
      if ev.allocation.value != expected {
        return Some(FinalizeConflict);
      }
      if ev.scan.None? {
        return Some(InvalidSource);
      }
      var claimed := FrontierHasAllocationClaims(prep.frontier, ev.scan.value);
      return if claimed then None else Some(InvalidSource);
    }

    /** The whole staged publication of one recipe, and how many durable steps are left to survive. */
    method FinalizeOne(prep: Preparation, ev: Evidence, lease: Lease, survive: nat) returns (status: FinalizeStatus, left: nat)
      requires Valid() && ev.preparation == LoadPreparation(prep)
      modifies this`journal, this`bases, store
      ensures Valid()
      ensures (status, State()) == Finalize(names, old(State()), prep, ev, lease, survive)
      ensures left == Remaining(survive, StepsOf(names, old(State()), prep, ev, lease))
    {
      hide Sane;
      hide Completed;
      hide JournalDecision;
      hide Publish;
      hide PublishSteps;
      hide RecipesSound;
      FinalizeKeepsSane(names, State(), prep, ev, lease, survive);
      FinalizeKeepsRecipes(names, State(), preparations, prep, ev, lease, survive);
      var gate := CheckGate(prep, ev, lease);
      if gate.Some? {
        return gate.value, survive;
      }
      GateOpens(State(), prep, ev, lease);
      hide Gate;
      var inout := ev.broker.value.inout;
      var stage := JournalDecision(names, World(journal, store.State(), bases), prep, inout, lease);
      if stage.Stop? {
        return stage.status, survive;
      }
      left := survive;
      if stage.commitFirst {
        if left == 0 { return FinalizeIoError, 0; }
        journal, left := journal[prep.target.key := prep.target], left - 1;
      }
      if inout {
        return InvalidSource, left;
      }
      if !lease.beforePublication || !lease.atPublication {
        return LeaseNotHeld, left;
      }
      status, left := PublishRecipe(prep, ev.envelopeMatches, left);
    }

    method PublishRecipe(prep: Preparation, envelopeMatches: bool, survive: nat) returns (status: FinalizeStatus, left: nat)
      requires store.paths == names.settlement
      modifies this`bases, store
      ensures (status, State()) == Publish(names, old(State()), prep, envelopeMatches, survive)
      ensures left == Remaining(survive, PublishSteps(names, old(State()), prep, envelopeMatches))
    {
      hide BasisProof;
      hide Decide;
      var disk, source := store.State(), JournalOf(journal);
      var used := |Decide(names.settlement, disk, source, prep.Publication()).1|;
      var settlement := store.Commit(prep.Publication(), source, survive);
      left := Remaining(survive, used);
      if !Succeeded(settlement) {
        return MapSettlement(settlement), left;
      }
      var basis := prep.staged.SettledBasis();
      var file := (names.basis)(basis.key);
      if !BasisProof(journal, basis, envelopeMatches) {
        return InvalidSource, left;
      }
      if file in bases {
        return if bases[file] != basis then InvalidSource else if settlement.AlreadyCommitted? then AlreadyFinalized else Finalized, left;
      }
      if left == 0 {
        return FinalizeIoError, 0;
      }
      bases := bases[file := basis];
      return Finalized, left - 1;
    }

    /** Finalizes every durable recipe, in directory order. When it reports success, each of them
        has been published as a whole. */
    method RecoverPending(listing: seq<Path>, evidence: Preparation -> Evidence, lease: Lease, survive: nat)
      returns (status: FinalizeStatus)
      requires Valid() && forall file :: file in listing <==> file in preparations
      requires forall file <- preparations :: evidence(preparations[file]).preparation == Some(preparations[file])
      modifies this`journal, this`bases, store
      ensures Valid()
      ensures (status, State()) == RecoverAll(names, old(State()), Recipes(preparations, listing), evidence, lease, survive)
      ensures Done(status) ==> forall file <- preparations :: Completed(names, State(), preparations[file])
    {
      hide Sane;
      hide Completed;
      hide Finalize;
      hide StepsOf;
      hide Settled;
      hide RecipesSound;
      hide RecoverAll;
      hide Merge;
      if |listing| == 0 {
        RecoverEnd(names, State(), [], evidence, lease, survive, false, false);
        return AlreadyFinalized;
      }
      var finalized, pending, left := false, false, survive;
      ghost var recipes, start := Recipes(preparations, listing), State();
      assert recipes[0..] == recipes;
      RecoverEnd(names, start, recipes, evidence, lease, survive, false, false);
      for i := 0 to |listing|
        invariant Valid()
        invariant var (rest, end) := RecoverAll(names, State(), recipes[i..], evidence, lease, left);
                  RecoverAll(names, start, recipes, evidence, lease, survive) == (Merge(SoFar(finalized, pending), rest), end)
      {
        var prep := preparations[listing[i]];
        assert recipes[i] == prep;
        RecoverTurn(names, State(), recipes, i, evidence, lease, left, finalized, pending);
        status, left := FinalizeOne(prep, evidence(prep), lease, left);
        if status == PendingAllocation {
          pending := true;
          continue;
        }
        if status != Finalized && status != AlreadyFinalized {
          return status;
        }
        finalized := finalized || status == Finalized;
      }
      RecoverEnd(names, State(), recipes, evidence, lease, left, finalized, pending);
      status := SoFar(finalized, pending);
      if !pending { AllCompleted(names, start, preparations, listing, evidence, lease, survive); }
    }
  }

  lemma FinalizeKeepsRecipes(names: Names, world: World, recipes: map<Path, Preparation>, prep: Preparation, ev: Evidence, lease: Lease, survive: nat)
    requires RecipesSound(world.journal, recipes)
    ensures RecipesSound(Finalize(names, world, prep, ev, lease, survive).1.journal, recipes)
  {
    hide Finalize;
    JournalMove(names, world, prep, ev, lease, survive);
    var after := Finalize(names, world, prep, ev, lease, survive).1.journal;
    hide SettlementFrontier.Valid;
    hide Publication.Sealed;
    hide Publication.Fits;
    forall file <- recipes ensures RecipeSound(after, recipes[file]) {
      assert RecipeSound(world.journal, recipes[file]);
      hide Preparation.WellFormed;
    }
  }

  lemma AllCompleted(names: Names, start: World, preparations: map<Path, Preparation>, listing: seq<Path>, evidence: Preparation -> Evidence,
                     lease: Lease, survive: nat)
    requires Sane(names, start) && forall file :: file in listing <==> file in preparations
    requires Done(RecoverAll(names, start, Recipes(preparations, listing), evidence, lease, survive).0)
    ensures var end := RecoverAll(names, start, Recipes(preparations, listing), evidence, lease, survive).1;
            forall file <- preparations :: Completed(names, end, preparations[file])
  {
    hide Sane;
    hide Settled;
    hide Finalize;
    hide Completed;
    hide RecoverAll;
    var recipes := Recipes(preparations, listing);
    RecoveredIsFinal(names, start, recipes, evidence, lease, survive);
    var end := RecoverAll(names, start, recipes, evidence, lease, survive).1;
    forall file <- preparations ensures Completed(names, end, preparations[file]) {
      var i :| 0 <= i < |listing| && listing[i] == file;
      assert recipes[i] == preparations[file];
      DoneIsCompleted(names, end, preparations[file], evidence(preparations[file]), lease);
    }
  }
}
