/** Identities, journal records and immutable settlement records
    (include/mt5bridge/dispatch/managed_deal_settlement.hpp:30-198, journal_types.hpp:296-349). */
module SettlementRecords {
  import opened MachineWords
  import opened Options

  datatype AccountKey = AccountKey(server: Text, login: u64) {
    predicate Valid() {
      server != [] && login != 0
    }
  }

  datatype OperationKey = OperationKey(account: AccountKey, tradeId: u64, operationId: u64) {
    predicate Valid() {
      account.Valid() && tradeId != 0 && operationId != 0
    }
  }

  datatype OperationKind = Unspecified | Open | Close | Cancel

  datatype OperationState =
    | Queued | Prechecking | Submitting | Accepted | Reconciling | PartiallyFilled | Filled
    | Cancelled | Expired | Rejected | Failed | Ambiguous

  datatype JournalState = Created | Prechecked | DispatchIntentPersisted | Dispatching | ResultPersisted | JournalReconciling

  predicate AtLeastResultPersisted(state: JournalState) {
    state.ResultPersisted? || state.JournalReconciling?
  }

  /** Requested volume, whether a fill is the expected outcome, and the remaining, here opaque,
      evidence contract. */
  datatype ReconciliationDescriptor = ReconciliationDescriptor(requestedVolume: u64, settlesByFill: bool, contract: int)

  /** Which lifecycle states each write-ahead state admits. */
  predicate ValidStatePair(journal: JournalState, state: OperationState) {
    match journal
    case Created => state.Queued? || state.Prechecking? || state.Rejected? || state.Failed?
    case Prechecked => state.Prechecking? || state.Rejected? || state.Failed?
    case DispatchIntentPersisted => state.Prechecking?
    case Dispatching => state.Prechecking? || state.Submitting? || state.Reconciling? || state.Ambiguous?
    case ResultPersisted => state.Submitting? || state.Accepted? || state.Rejected? || state.Reconciling? || state.Ambiguous?
    case JournalReconciling => !state.Queued? && !state.Failed?
  }

  /** A journal record. `wellFormed` stands for the parts of the record's own validity test that
      concern fields not modelled here; payloads, fencing token, settlement mode and bindings are
      compared as one opaque value, and `boundDeal` is the deal ticket that descriptor and bindings
      resolve to (zero for none). */
  datatype OperationRecord = OperationRecord(
    key: OperationKey, kind: OperationKind, state: OperationState, journalState: JournalState, revision: u64,
    descriptor: Option<ReconciliationDescriptor>, boundDeal: u64, settledVolume: u64, immutableContent: int, wellFormed: bool)
  {
    predicate BindsDeal(ticket: u64) {
      descriptor.Some? && ticket != 0 && boundDeal == ticket
    }

    predicate Settled() {
      state.PartiallyFilled? || state.Filled?
    }

    predicate VolumeAgrees() {
      && (settledVolume != 0 ==> (kind.Open? || kind.Close?) && Settled())
      && !(kind.Cancel? && Settled())
      && (descriptor.Some? && descriptor.value.requestedVolume != 0 ==>
            && settledVolume <= descriptor.value.requestedVolume
            && (Settled() ==> settledVolume != 0)
            && (state.PartiallyFilled? ==> settledVolume < descriptor.value.requestedVolume)
            && (state.Filled? ==> settledVolume == descriptor.value.requestedVolume))
    }

    predicate Valid() {
      wellFormed && key.Valid() && revision != 0 && ValidStatePair(journalState, state) && VolumeAgrees()
    }
  }

  datatype JournalLoad = JournalNotFound | JournalInvalid | JournalIoError | JournalFound(record: OperationRecord)

  /** The journal as far as this process can read it. */
  type Journal = OperationKey -> JournalLoad

  datatype Provenance = Provenance(
    graphInstanceId: u64, graphRevision: u64, historyDealsRevision: u64, evidenceDigest: u64)
  {
    predicate Valid() {
      && graphInstanceId != 0 && graphRevision != 0 && historyDealsRevision != 0
      && historyDealsRevision <= graphRevision && evidenceDigest != 0
    }
  }

  datatype DealSettlementKey = DealSettlementKey(account: AccountKey, operationKey: OperationKey, dealTicket: u64) {
    predicate Valid() {
      account.Valid() && operationKey.Valid() && account == operationKey.account && dealTicket != 0
    }
  }

  /** Immutable contribution of one broker deal to one operation. */
  datatype DealSettlement = DealSettlement(
    key: DealSettlementKey, sourceOperationRevision: u64, managedLogicalUnits: u64, provenance: Provenance)
  {
    predicate Valid() {
      key.Valid() && sourceOperationRevision != 0 && managedLogicalUnits != 0 && provenance.Valid()
    }
  }

  datatype FrontierEntry = FrontierEntry(dealTicket: u64, sourceOperationRevision: u64, managedLogicalUnits: u64) {
    predicate Valid() {
      dealTicket != 0 && sourceOperationRevision != 0 && managedLogicalUnits != 0
    }

    /** This entry pins exactly that fact. */
    predicate Pins(fact: DealSettlement) {
      && dealTicket == fact.key.dealTicket
      && sourceOperationRevision == fact.sourceOperationRevision
      && managedLogicalUnits == fact.managedLogicalUnits
    }
  }

  function SumOfUnits(entries: seq<FrontierEntry>): nat {
    if entries == [] then 0 else SumOfUnits(entries[..|entries| - 1]) + entries[|entries| - 1].managedLogicalUnits
  }

  /** Entry k is valid, no newer than the revision, and the first with its ticket. */
  predicate EntryFits(entries: seq<FrontierEntry>, k: nat, revision: u64)
    requires k < |entries|
  {
    && entries[k].Valid() && entries[k].sourceOperationRevision <= revision
    && forall prior :: 0 <= prior < k ==> entries[prior].dealTicket != entries[k].dealTicket
  }

  /** Complete cumulative decomposition of one operation revision. */
  datatype SettlementFrontier = SettlementFrontier(
    account: AccountKey, operationKey: OperationKey, operationRevision: u64, settledVolume: u64,
    provenance: Provenance, entries: seq<FrontierEntry>)
  {
    predicate Valid() {
      && account.Valid() && operationKey.Valid() && account == operationKey.account
      && operationRevision != 0 && settledVolume != 0 && provenance.Valid() && entries != []
      && (forall k :: 0 <= k < |entries| ==> EntryFits(entries, k, operationRevision)) && SumOfUnits(entries) == settledVolume
    }

    /** The key of the fact that an entry of this frontier pins. */
    function FactKey(entry: FrontierEntry): DealSettlementKey {
      DealSettlementKey(account, operationKey, entry.dealTicket)
    }
  }

  const MAX_ENTRIES: nat := 4096
  const MAX_RECORD_BODY: nat := 0x10_0000

  /** One publication: a fact and the frontier that makes it visible. */
  datatype Publication = Publication(fact: DealSettlement, frontier: SettlementFrontier) {
    predicate Matched() {
      && fact.Valid() && frontier.Valid() && fact.key.operationKey == frontier.operationKey
      && fact.key.account == frontier.account && fact.sourceOperationRevision == frontier.operationRevision
    }

    /** What a pending manifest must satisfy to be read back. */
    predicate WellFormed() {
      && Matched()
      && (exists e <- frontier.entries :: e.dealTicket == fact.key.dealTicket)
      && forall e <- frontier.entries | e.dealTicket == fact.key.dealTicket :: e.Pins(fact)
    }

    /** What the only producer of publications delivers: the entry of the new fact stands last, and
        the frontier is proved by the same observation as the fact. */
    predicate Sealed() {
      && Matched() && frontier.entries != [] && frontier.entries[|frontier.entries| - 1].Pins(fact)
      && frontier.provenance == fact.provenance
    }

    /** Bytes of the two record bodies, and of the manifest that embeds both records. */
    function FactSize(): nat {
      96 + |fact.key.account.server| + |fact.key.operationKey.account.server|
    }

    function FrontierSize(): nat {
      92 + |frontier.account.server| + |frontier.operationKey.account.server| + 24 * |frontier.entries|
    }

    function ManifestSize(): nat {
      72 + FactSize() + FrontierSize()
    }

    /** The storage limits; the manifest's implies those of the records in it. */
    predicate Fits() {
      |frontier.entries| <= MAX_ENTRIES && ManifestSize() <= MAX_RECORD_BODY
    }
  }

  lemma {:induction false} SumOfPrefix(entries: seq<FrontierEntry>, i: nat)
    requires i <= |entries|
    ensures SumOfUnits(entries[..i]) <= SumOfUnits(entries)
    decreases |entries|
  {
    if i == |entries| {
      assert entries[..i] == entries;
    } else {
      var init := entries[..|entries| - 1];
      SumOfPrefix(init, i);
      assert init[..i] == entries[..i];
    }
  }

  lemma AddEntry(entries: seq<FrontierEntry>, i: nat)
    requires i < |entries|
    ensures SumOfUnits(entries[..i + 1]) == SumOfUnits(entries[..i]) + entries[i].managedLogicalUnits <= SumOfUnits(entries)
  {
    var upto := entries[..i + 1];
    assert upto[..i] == entries[..i] && upto[i] == entries[i];
    SumOfPrefix(entries, i + 1);
  }

  /** The overflow-checked validation loop accepts exactly the frontiers whose distinct, positive
      entries sum to the settled volume: a wrapping sum is never taken for a match. */
  method ValidateFrontier(frontier: SettlementFrontier) returns (valid: bool)
    ensures valid <==> frontier.Valid()
  {
    var entries := frontier.entries;
    if !frontier.account.Valid() || !frontier.operationKey.Valid() || frontier.account != frontier.operationKey.account
       || frontier.operationRevision == 0 || frontier.settledVolume == 0 || !frontier.provenance.Valid() || entries == [] {
      return false;
    }
    var total: u64 := 0;
    for index := 0 to |entries|
      invariant total == SumOfUnits(entries[..index])
      invariant forall k :: 0 <= k < index ==> EntryFits(entries, k, frontier.operationRevision)
    {
      var entry := entries[index];
      AddEntry(entries, index);
      ghost var fits := EntryFits(entries, index, frontier.operationRevision);
      if !entry.Valid() || entry.sourceOperationRevision > frontier.operationRevision || total > U64_MAX - entry.managedLogicalUnits {
        return false;
      }
      for prior := 0 to index
        invariant forall k :: 0 <= k < prior ==> entries[k].dealTicket != entry.dealTicket
      {
        if entries[prior].dealTicket == entry.dealTicket { return false; }
      }
      total := total + entry.managedLogicalUnits;
    }
    assert entries[..|entries|] == entries;
    return total == frontier.settledVolume;
  }
}
