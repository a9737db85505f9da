/** Journal records as they are stored: enumerators are the 32-bit codes read from disk
    (include/mt5bridge/dispatch/journal_types.hpp:58-182, 333-500; include/mt5bridge/reconciliation/engine.hpp:41-223). */
module JournalRecords {
  import opened MachineWords
  import opened Options
  import opened SettlementRecords

  // Codes of the enumerators that the validity rules mention.
  const KIND_OPEN: u32 := 1
  const KIND_CLOSE: u32 := 2
  const KIND_CANCEL: u32 := 3
  const QUEUED: u32 := 0
  const PRECHECKING: u32 := 1
  const SUBMITTING: u32 := 2
  const ACCEPTED: u32 := 3
  const RECONCILING: u32 := 4
  const PARTIALLY_FILLED: u32 := 5
  const FILLED: u32 := 6
  const CANCELLED: u32 := 7
  const EXPIRED: u32 := 8
  const REJECTED: u32 := 9
  const FAILED: u32 := 10
  const AMBIGUOUS: u32 := 11
  const ABSENT_TO_PRESENT: u32 := 1
  const PRESENT_TO_ABSENT: u32 := 2

  /** A millisecond coverage range. */
  datatype Window = Window(from: i64, to: i64) {
    predicate Valid() {
      0 <= from <= to
    }
  }

  /** One evidence assertion; kinds 0 to 7 alternate present and absent over active orders,
      positions, history orders and history deals. */
  datatype Assertion = Assertion(
    kind: u32, ticket: u64, window: Option<Window>, baselinePresent: Option<bool>, correlation: u64, transition: u32)
  {
    predicate OfHistory() {
      4 <= kind <= 7
    }

    predicate OfAbsence() {
      kind == 1 || kind == 3 || kind == 5 || kind == 7
    }

    /** The causal default for records that never stored one. */
    function WithDefaultTransition(): Assertion {
      this.(baselinePresent := Some(OfAbsence()), correlation := 0,
            transition := if OfAbsence() then PRESENT_TO_ABSENT else ABSENT_TO_PRESENT)
    }

    predicate Valid() {
      && baselinePresent.Some? && transition != 0 && (ticket != 0 || correlation != 0)
      && !(ticket == 0 && OfAbsence()) && !(ticket == 0 && kind == 2) && kind <= 7
      && transition == (if OfAbsence() then PRESENT_TO_ABSENT else ABSENT_TO_PRESENT)
      && baselinePresent.value == OfAbsence()
      && (!OfHistory() ==> window.None?)
      && (OfHistory() && window.Some? ==> window.value.Valid())
      && (OfHistory() && (OfAbsence() || !baselinePresent.value) ==> window.Some?)
    }
  }

  datatype Baseline = Baseline(
    account: AccountKey, graphInstance: u64, graphRevision: u64, activeOrders: u64, positions: u64, historyOrders: u64,
    historyDeals: u64)
  {
    predicate Valid() {
      && account.Valid() && graphInstance != 0 && activeOrders <= graphRevision && positions <= graphRevision
      && historyOrders <= graphRevision && historyDeals <= graphRevision
    }
  }

  datatype Descriptor = Descriptor(
    account: AccountKey, baseline: Baseline, assertions: seq<Assertion>, settledState: u32, tradeId: u64, operationId: u64,
    requestedVolume: u64)
  {
    predicate Valid() {
      && account.Valid() && baseline.Valid() && account == baseline.account && assertions != []
      && (settledState == PARTIALLY_FILLED || settledState == FILLED || settledState == CANCELLED || settledState == EXPIRED
          || settledState == REJECTED)
      && (forall i :: 0 <= i < |assertions| ==> assertions[i].Valid())
      && (forall i, j :: 0 <= i < j < |assertions| && assertions[j].correlation != 0 ==>
            assertions[i].correlation != assertions[j].correlation)
    }
  }

  /** Client correlation bound to a broker ticket. */
  datatype Binding = Binding(correlation: u64, ticket: u64) {
    predicate Valid() {
      correlation != 0 && ticket != 0
    }
  }

  function UnknownTickets(assertions: seq<Assertion>): nat {
    if assertions == [] then 0
    else UnknownTickets(assertions[..|assertions| - 1]) + (if assertions[|assertions| - 1].ticket == 0 then 1 else 0)
  }

  /** The first assertion with this correlation has no ticket yet. */
  predicate AwaitsTicket(assertions: seq<Assertion>, correlation: u64) {
    exists i :: 0 <= i < |assertions| && assertions[i].correlation == correlation && assertions[i].ticket == 0
             && forall j :: 0 <= j < i ==> assertions[j].correlation != correlation
  }

  predicate ValidStateCodes(journalState: u32, state: u32) {
    match journalState
    case 0 => state == QUEUED || state == PRECHECKING || state == REJECTED || state == FAILED
    case 1 => state == PRECHECKING || state == REJECTED || state == FAILED
    case 2 => state == PRECHECKING
    case 3 => state == PRECHECKING || state == SUBMITTING || state == RECONCILING || state == AMBIGUOUS
    case 4 => state == SUBMITTING || state == ACCEPTED || state == REJECTED || state == RECONCILING || state == AMBIGUOUS
    case 5 =>
      || state == PRECHECKING || state == SUBMITTING || state == ACCEPTED || state == RECONCILING || state == PARTIALLY_FILLED
      || state == FILLED || state == CANCELLED || state == EXPIRED || state == REJECTED || state == AMBIGUOUS
    case _ => false
  }

  datatype JournalRecord = JournalRecord(
    key: OperationKey, kind: u32, mode: u32, request: Text, result: Text, state: u32, journalState: u32, revision: u64,
    resultSourceRevision: u64, fencingToken: u64, descriptor: Option<Descriptor>, bindings: seq<Binding>, settledVolume: u64)
  {
    predicate AtLeastDispatching() {
      3 <= journalState <= 5
    }

    predicate AtLeastResultPersisted() {
      4 <= journalState <= 5
    }

    predicate Settled() {
      state == PARTIALLY_FILLED || state == FILLED
    }

    predicate DescriptorAgrees() {
      descriptor.Some? ==>
        && descriptor.value.Valid() && descriptor.value.account == key.account
        && (descriptor.value.tradeId == 0 || descriptor.value.tradeId == key.tradeId)
        && (descriptor.value.operationId == 0 || descriptor.value.operationId == key.operationId)
    }

    predicate VolumeAgrees() {
      && (settledVolume != 0 ==> (kind == KIND_OPEN || kind == KIND_CLOSE) && Settled())
      && !(kind == KIND_CANCEL && Settled())
      && (descriptor.Some? && descriptor.value.requestedVolume != 0 ==>
            && settledVolume <= descriptor.value.requestedVolume
            && (Settled() ==> settledVolume != 0)
            && (state == PARTIALLY_FILLED ==> settledVolume < descriptor.value.requestedVolume)
            && (state == FILLED ==> settledVolume == descriptor.value.requestedVolume))
    }

    predicate ResultAgrees() {
      && (AtLeastDispatching() ==>
            && descriptor.Some? && descriptor.value.tradeId != 0 && descriptor.value.operationId != 0
            && descriptor.value.tradeId == key.tradeId && descriptor.value.operationId == key.operationId)
      && (!AtLeastResultPersisted() ==> result == [])
      && (journalState == 4 ==> result != [])
      && (resultSourceRevision != 0 ==> AtLeastResultPersisted() && resultSourceRevision <= revision)
      && (state == ACCEPTED ==> result != [])
    }

    predicate BindingsAgree() {
      && (bindings != [] ==> descriptor.Some? && AtLeastResultPersisted() && result != [])
      && (forall i :: 0 <= i < |bindings| ==>
            bindings[i].Valid() && descriptor.Some? && AwaitsTicket(descriptor.value.assertions, bindings[i].correlation))
      && (forall i, j :: 0 <= i < j < |bindings| ==>
            bindings[i].correlation != bindings[j].correlation && bindings[i].ticket != bindings[j].ticket)
      && (descriptor.Some? && AtLeastResultPersisted() && !(journalState == 4 && state == REJECTED) ==>
            UnknownTickets(descriptor.value.assertions) == |bindings|)
    }

    predicate Valid() {
      && key.Valid() && kind <= 3 && mode <= 1 && (mode == 1 ==> kind == KIND_CLOSE) && request != [] && revision != 0
      && state <= 11 && journalState <= 5 && ValidStateCodes(journalState, state)
      && DescriptorAgrees() && VolumeAgrees() && ResultAgrees() && BindingsAgree()
      && (AtLeastDispatching() <==> fencingToken != 0)
    }
  }
}
