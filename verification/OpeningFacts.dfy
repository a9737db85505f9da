/** Locally validated OPEN execution facts
    (src/dispatch/managed_opening_execution_evidence.hpp:32-155, 207-276, 380-480). */
module OpeningFacts {
  import opened MachineWords
  import opened Options
  import opened SettlementRecords
  import opened ManagedQuantity

  const MAX_CANONICAL_BYTES: nat := 0x10_0000

  /** Version of the fact format; every stored reference names it. */
  const SCHEMA_VERSION: u32 := 1

  datatype Direction = UnknownDirection | Buy | Sell

  datatype DealEntry = UnknownEntry | In | Out | Inout | OutBy

  /** The history window and revision that first admitted a deal. */
  datatype Receipt = Receipt(
    sourceRevision: u64, graphInstanceId: u64, coverageRevision: u64, windowFrom: i64, windowTo: i64)
  {
    predicate Valid() {
      sourceRevision != 0 && graphInstanceId != 0 && coverageRevision == sourceRevision && windowFrom <= windowTo
    }
  }

  /** Managed units per broker step; zero when the quantity does not divide evenly. */
  function UnitsPerStep(q: ManagedOpeningQuantity): nat {
    if !q.Valid() || q.managedLogicalUnits % q.integerStepCount != 0 then 0
    else q.managedLogicalUnits / q.integerStepCount
  }

  predicate SameDomain(a: ManagedOpeningQuantity, b: ManagedOpeningQuantity) {
    && a.canonicalScale == b.canonicalScale && a.brokerStepUnits == b.brokerStepUnits
    && UnitsPerStep(a) != 0 && UnitsPerStep(a) == UnitsPerStep(b)
  }

  datatype DealFact = DealFact(
    operationKey: OperationKey, operationRevision: u64, orderTicket: u64, dealTicket: u64, positionIdentifier: u64,
    direction: Direction, entry: DealEntry, dealTime: i64, quantity: ManagedOpeningQuantity, receipt: Receipt)
  {
    /** Length of the canonical representation; only the server name varies. */
    function CanonicalSize(): nat {
      219 + |operationKey.account.server|
    }

    predicate Valid() {
      && operationKey.Valid() && operationRevision != 0 && orderTicket != 0 && dealTicket != 0 && positionIdentifier != 0
      && !direction.UnknownDirection? && entry.In? && quantity.Valid() && UnitsPerStep(quantity) != 0 && receipt.Valid()
      && receipt.windowFrom <= dealTime <= receipt.windowTo && CanonicalSize() <= MAX_CANONICAL_BYTES
    }

    /** Everything but the polling provenance. */
    predicate SamePayload(other: DealFact) {
      other.(receipt := receipt) == this
    }

    /** Same operation, order, position, direction and quantity domain. */
    predicate Compatible(other: DealFact) {
      && operationKey == other.operationKey && operationRevision == other.operationRevision
      && orderTicket == other.orderTicket && positionIdentifier == other.positionIdentifier
      && direction == other.direction && SameDomain(quantity, other.quantity)
    }
  }

  datatype Request = Request(operationKey: OperationKey, kind: OperationKind, operationRevision: u64, orderTicket: u64, positionIdentifier: u64) {
    predicate Valid() {
      operationKey.Valid() && kind.Open? && operationRevision != 0 && orderTicket != 0 && positionIdentifier != 0
    }
  }

  /** Candidate history facts; volumes are raw binary64 patterns. */
  datatype Observation = Observation(
    operationKey: OperationKey, operationRevision: u64, orderTicket: u64, dealTicket: u64, positionIdentifier: u64,
    requiredFieldsKnown: bool, direction: Direction, entry: DealEntry, dealTime: i64, rawVolume: u64, rawStep: u64,
    domain: ManagedOpeningQuantityDomain, receipt: Receipt)

  datatype ObservationStatus =
    | ValidObservation | InvalidRequest | OperationMismatch | OrderMismatch | PositionMismatch | IncompleteHistory | InvalidDeal
    | InvalidQuantity

  function ValidateObservation(request: Request, o: Observation): ObservationStatus {
    if !request.Valid() then InvalidRequest
    else if o.operationKey != request.operationKey || o.operationRevision != request.operationRevision then OperationMismatch
    else if o.orderTicket != request.orderTicket then OrderMismatch
    else if o.positionIdentifier != request.positionIdentifier then PositionMismatch
    else if !o.receipt.Valid() || !(o.receipt.windowFrom <= o.dealTime <= o.receipt.windowTo) then IncompleteHistory
    else if !o.requiredFieldsKnown || o.dealTicket == 0 || o.orderTicket == 0 || o.positionIdentifier == 0
            || o.direction.UnknownDirection? || !o.entry.In? then InvalidDeal
    else if !o.domain.Valid() then InvalidQuantity
    else ValidObservation
  }

  /** Request and observation agree on one open operation, order and position, and the deal is a complete
      one within a reviewed window and domain. */
  predicate Joins(request: Request, o: Observation) {
    && request.operationKey.account.server != [] && request.operationKey.account.login > 0 && request.operationKey.tradeId > 0
    && request.operationKey.operationId > 0 && request.kind == Open && request.operationRevision > 0
    && (o.operationKey, o.operationRevision, o.orderTicket, o.positionIdentifier)
       == (request.operationKey, request.operationRevision, request.orderTicket, request.positionIdentifier)
    && o.orderTicket > 0 && o.positionIdentifier > 0 && o.dealTicket > 0 && o.requiredFieldsKnown && o.direction in {Buy, Sell} && o.entry == In
    && o.receipt.sourceRevision == o.receipt.coverageRevision > 0 && o.receipt.graphInstanceId > 0
    && o.receipt.windowFrom <= o.dealTime <= o.receipt.windowTo
    && o.domain.canonicalScale <= 9 && o.domain.brokerStepUnits > 0 && o.domain.managedUnitsPerStep > 0 && o.domain.maxStepCount > 0
    && o.domain.maxManagedUnits > 0
  }

  /** Which of them is refused is told by the first check that fails; none fails exactly if they join. */
  lemma JoinsIff(request: Request, o: Observation)
    ensures ValidateObservation(request, o).ValidObservation? <==> Joins(request, o)
    ensures ValidateObservation(request, o).InvalidQuantity? ==> !o.domain.Valid()
    ensures request.Valid() && o.operationKey != request.operationKey ==> ValidateObservation(request, o).OperationMismatch?
    ensures request.Valid() && o.operationKey == request.operationKey && o.operationRevision == request.operationRevision ==>
              && (o.orderTicket != request.orderTicket ==> ValidateObservation(request, o).OrderMismatch?)
              && (o.orderTicket == request.orderTicket && o.positionIdentifier != request.positionIdentifier ==>
                    ValidateObservation(request, o).PositionMismatch?)
  {
  }

  lemma DerivedUnitsPerStep(q: ManagedOpeningQuantity, perStep: nat)
    requires q.Valid() && perStep != 0 && q.managedLogicalUnits == q.integerStepCount * perStep
    ensures UnitsPerStep(q) == perStep
  {
    DivModUnique(q.managedLogicalUnits, q.integerStepCount, perStep, 0);
  }

  /** A fact exists exactly when the observation joins the request, its volume determines one step
      count, and the record fits the size limit: the final self-check rejects nothing else. */
  method FromObservation(request: Request, o: Observation) returns (fact: Option<DealFact>)
    ensures fact.Some? <==>
      && Joins(request, o)
      && (exists k: nat :: Determines(o.rawVolume, o.rawStep, o.domain, k))
      && 219 + |o.operationKey.account.server| <= MAX_CANONICAL_BYTES
    ensures fact.Some? ==>
      && fact.value.Valid() && Determines(o.rawVolume, o.rawStep, o.domain, fact.value.quantity.integerStepCount)
      && fact.value.operationKey == request.operationKey && fact.value.operationRevision == request.operationRevision
      && fact.value.orderTicket == request.orderTicket && fact.value.positionIdentifier == request.positionIdentifier
      && fact.value.dealTicket == o.dealTicket && fact.value.direction == o.direction && fact.value.dealTime == o.dealTime
      && fact.value.receipt == o.receipt && UnitsPerStep(fact.value.quantity) == o.domain.managedUnitsPerStep
      && fact.value.quantity.canonicalScale == o.domain.canonicalScale
      && fact.value.quantity.brokerStepUnits == o.domain.brokerStepUnits
  {
    hide Determines;
    JoinsIff(request, o);
    if !ValidateObservation(request, o).ValidObservation? {
      return None;
    }
    var quantity := Derive(o.rawVolume, o.rawStep, o.domain);
    if quantity.None? {
      return None;
    }
    DerivedUnitsPerStep(quantity.value, o.domain.managedUnitsPerStep);
    var result := DealFact(o.operationKey, o.operationRevision, o.orderTicket, o.dealTicket, o.positionIdentifier, o.direction,
                           o.entry, o.dealTime, quantity.value, o.receipt);
    return if result.Valid() then Some(result) else None;
  }

  datatype ReplayStatus = NewExecution | AlreadyCommitted | ReplayConflict

  function ClassifyReplay(committed: DealFact, observed: DealFact): ReplayStatus {
    if committed.operationKey.account != observed.operationKey.account || committed.dealTicket != observed.dealTicket then NewExecution
    else if committed.SamePayload(observed) then AlreadyCommitted
    else ReplayConflict
  }
}
