/** Close-leg allocation entries and ownership bases
    (include/mt5bridge/dispatch/managed_allocation.hpp:25-113, managed_settlement_preparation.hpp:72-103). */
module AllocationRecords {
  import opened MachineWords
  import opened Options
  import opened SettlementRecords

  /** Exact broker volume in canonical steps. */
  datatype BrokerVolume = BrokerVolume(units: u64, scale: u32, stepUnits: u64) {
    predicate Valid() {
      units != 0 && scale <= 9 && stepUnits != 0 && units % stepUnits == 0
    }
  }

  datatype ReversalKey = ReversalKey(account: AccountKey, dealTicket: u64) {
    predicate Valid() {
      account.Valid() && dealTicket != 0
    }
  }

  /** The close leg is the only leg that can be allocated. */
  datatype AllocationKey = AllocationKey(brokerKey: ReversalKey, managedKey: DealSettlementKey) {
    predicate Valid() {
      && brokerKey.Valid() && managedKey.Valid() && brokerKey.account == managedKey.account
      && brokerKey.dealTicket == managedKey.dealTicket
    }
  }

  /** Broker evidence identity; zero is unusable. */
  type BrokerProvenance = nat

  /** Immutable proof that one managed fact consumes broker close volume. */
  datatype AllocationEntry = AllocationEntry(
    account: AccountKey, key: AllocationKey, settlementProvenance: Provenance, brokerProvenance: BrokerProvenance,
    settlementSourceRevision: u64, frontierRevision: u64, frontierDigest: Option<u64>, basisRevision: u64,
    managedLogicalUnits: u64, brokerVolume: BrokerVolume)
  {
    predicate Valid() {
      && account.Valid() && key.Valid() && account == key.brokerKey.account && account == key.managedKey.account
      && settlementProvenance.Valid() && brokerProvenance != 0
      && settlementSourceRevision != 0 && basisRevision != 0 && settlementSourceRevision <= basisRevision
      && (if frontierDigest.None? then frontierRevision == 0 else frontierDigest.value != 0 && frontierRevision != 0)
      && managedLogicalUnits != 0 && brokerVolume.Valid()
    }
  }

  datatype BasisKey = BasisKey(brokerKey: ReversalKey, operationKey: OperationKey)

  datatype OwnershipBasis = OwnershipBasis(
    account: AccountKey, key: BasisKey, brokerProvenance: BrokerProvenance, operationRevision: u64)

  /** Ownership identity retained until the target journal revision is settled. */
  datatype StagedOwnership = StagedOwnership(
    account: AccountKey, basisKey: BasisKey, brokerProvenance: BrokerProvenance, baseRevision: u64, targetRevision: u64,
    closeIntentDigest: u64)
  {
    predicate Valid() {
      && account.Valid() && basisKey.brokerKey.Valid() && basisKey.operationKey.Valid() && brokerProvenance != 0
      && account == basisKey.brokerKey.account && account == basisKey.operationKey.account
      && baseRevision != 0 && targetRevision == baseRevision + 1 && closeIntentDigest != 0
    }

    function SettledBasis(): OwnershipBasis {
      OwnershipBasis(account, basisKey, brokerProvenance, targetRevision)
    }
  }
}
