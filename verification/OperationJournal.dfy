/** The operation journal: the mutations of its owner and the checks of the store beneath it
    (include/mt5bridge/dispatch/journal.hpp:265-660, src/dispatch/file_journal_store.cpp:848-933). */
module OperationJournal {
  import opened MachineWords
  import opened Options
  import opened SettlementRecords

  function CanTransition(current: OperationState, next: OperationState): bool {
    match current
    case Queued => next.Prechecking? || next.Failed?
    case Prechecking => next.Submitting? || next.Reconciling? || next.Ambiguous? || next.Rejected? || next.Failed?
    case Submitting => next.Accepted? || next.Rejected? || next.Reconciling? || next.Ambiguous?
    case Accepted => next.Reconciling?
    case Reconciling =>
      next.PartiallyFilled? || next.Filled? || next.Cancelled? || next.Expired? || next.Rejected? || next.Ambiguous?
    case PartiallyFilled => next.Reconciling? || next.Filled? || next.Cancelled? || next.Expired? || next.Ambiguous?
    case _ => false
  }

  predicate CanTransitionJournal(current: JournalState, next: JournalState) {
    match current
    case Created => next.Prechecked?
    case Prechecked => next.DispatchIntentPersisted?
    case DispatchIntentPersisted => next.Dispatching?
    case Dispatching => next.ResultPersisted? || next.JournalReconciling?
    case ResultPersisted => next.JournalReconciling?
    case JournalReconciling => false
  }

  /** What may not change once the broker's result is durable. */
  predicate SameTuple(a: OperationRecord, b: OperationRecord) {
    && a.key == b.key && a.kind == b.kind && a.immutableContent == b.immutableContent
    && a.descriptor == b.descriptor && a.boundDeal == b.boundDeal
  }

  /** The owner's mutations of an existing record; new payloads, tokens and bindings are opaque. */
  datatype Mutation =
    | TransitionJournal(next: JournalState, content: int)
    | AttachDescriptor(descriptor: ReconciliationDescriptor, boundDeal: u64)
    | PersistResult(content: int, boundDeal: u64, rejected: bool)
    | TransitionOperation(state: OperationState, settled: Option<u64>)

  predicate Fills(state: OperationState) {
    state.PartiallyFilled? || state.Filled?
  }

  /** A transition to this state may carry this settled volume. */
  predicate SettlesProperly(existing: OperationRecord, state: OperationState, settled: Option<u64>) {
    && (settled.Some? ==> Fills(state) && settled.value != 0)
    && (Fills(state) && existing.descriptor.Some? && existing.descriptor.value.requestedVolume != 0 ==> settled.Some?)
  }

  predicate MayTransition(existing: OperationRecord, state: OperationState, settled: Option<u64>) {
    && (|| CanTransition(existing.state, state)
        || (existing.state.PartiallyFilled? && state.PartiallyFilled? && settled.Some? && settled.value > existing.settledVolume))
    && (state.Submitting? ==> existing.journalState.Dispatching?)
    && (state.Accepted? || (state.Rejected? && existing.state.Submitting?) ==> AtLeastResultPersisted(existing.journalState))
    && ((state.Reconciling? || state.Ambiguous?) && existing.state.Prechecking? ==>
          existing.journalState.Dispatching? || AtLeastResultPersisted(existing.journalState))
    && SettlesProperly(existing, state, settled)
  }

  /** The record that a mutation would commit, if its guards on states and volumes allow it. */
  function Candidate(existing: OperationRecord, m: Mutation): Option<OperationRecord> {
    if existing.revision == U64_MAX then None
    else
      var next := existing.(revision := existing.revision + 1);
      match m
      case TransitionJournal(state, content) =>
        if CanTransitionJournal(existing.journalState, state) && !state.ResultPersisted?
           && (state.Prechecked? || state.DispatchIntentPersisted? || state.Dispatching? ==> existing.state.Prechecking?)
        then Some(next.(journalState := state, immutableContent := if state.Dispatching? then content else existing.immutableContent))
        else None
      case AttachDescriptor(descriptor, boundDeal) =>
        if existing.journalState.DispatchIntentPersisted? && existing.state.Prechecking? && existing.descriptor.None?
        then Some(next.(descriptor := Some(descriptor), boundDeal := boundDeal))
        else None
      case PersistResult(content, boundDeal, rejected) =>
        if existing.journalState.Dispatching? && existing.state.Submitting?
        then Some(next.(journalState := ResultPersisted, immutableContent := content, boundDeal := boundDeal,
                        state := if rejected then Rejected else existing.state))
        else None
      case TransitionOperation(state, settled) =>
        if MayTransition(existing, state, settled)
        then Some(next.(state := state, settledVolume := if settled.Some? then settled.value
                                                         else if Fills(state) then existing.settledVolume else 0))
        else None
  }

  /** The store's own checks: the next revision of the record it holds, the kind never changed, and
      the tuple unchanged once the result is durable. It does not look at the write-ahead state. */
  predicate StoreAccepts(journal: map<OperationKey, OperationRecord>, record: OperationRecord, expected: Option<u64>) {
    && record.Valid()
    && match expected
       case None => record.revision == 1 && record.key !in journal
       case Some(revision) =>
         && record.revision == revision + 1 && record.key in journal
         && (var existing := journal[record.key];
             && existing.revision == revision && existing.kind == record.kind
             && (AtLeastResultPersisted(existing.journalState) ==> SameTuple(existing, record)))
  }

  /** A mutation moves the write-ahead state only forward, and after the result not the tuple. */
  lemma MutationKeepsTuple(existing: OperationRecord, m: Mutation)
    requires Candidate(existing, m).Some?
    ensures var next := Candidate(existing, m).value;
            && next.key == existing.key && next.kind == existing.kind && next.revision == existing.revision + 1
            && (next.journalState == existing.journalState || CanTransitionJournal(existing.journalState, next.journalState))
            && (AtLeastResultPersisted(existing.journalState) ==>
                  && next.immutableContent == existing.immutableContent && next.descriptor == existing.descriptor
                  && next.boundDeal == existing.boundDeal)
            && (existing.descriptor.Some? ==> next.descriptor == existing.descriptor)
  {
  }

  /** So the store's immutability checks never refuse a valid mutation of the record it holds. */
  lemma MutationPassesStore(journal: map<OperationKey, OperationRecord>, key: OperationKey, m: Mutation)
    requires key in journal && journal[key].key == key
    requires Candidate(journal[key], m).Some? && Candidate(journal[key], m).value.Valid()
    ensures StoreAccepts(journal, Candidate(journal[key], m).value, Some(journal[key].revision))
  {
    MutationKeepsTuple(journal[key], m);
  }

  /** And what the store accepts over a record whose result is durable differs in nothing but states,
      settled volume and revision. */
  lemma StoreKeepsTuple(journal: map<OperationKey, OperationRecord>, record: OperationRecord, revision: u64)
    requires record.key in journal && journal[record.key].key == record.key
    requires var existing := journal[record.key];
             existing.revision == revision && revision < U64_MAX && AtLeastResultPersisted(existing.journalState) && record.Valid()
    ensures var existing := journal[record.key];
            StoreAccepts(journal, record, Some(revision)) <==>
            record == existing.(state := record.state, journalState := record.journalState, settledVolume := record.settledVolume,
                                revision := revision + 1, wellFormed := record.wellFormed)
  {
  }

  // ----- the lifecycle as a whole: guards and validity together

  /** The record after an accepted mutation. */
  function Advance(existing: OperationRecord, m: Mutation): Option<OperationRecord> {
    var candidate := Candidate(existing, m);
    if candidate.Some? && candidate.value.Valid() then candidate else None
  }

  /** How an operation may move while the write-ahead state is what it is. */
  predicate LegalMove(journal: JournalState, from: OperationState, to: OperationState) {
    match journal
    case Created => (from.Queued? && (to.Prechecking? || to.Failed?)) || (from.Prechecking? && (to.Rejected? || to.Failed?))
    case Prechecked => from.Prechecking? && (to.Rejected? || to.Failed?)
    case DispatchIntentPersisted => false
    case Dispatching =>
      (from.Prechecking? && (to.Submitting? || to.Reconciling? || to.Ambiguous?))
      || (from.Submitting? && (to.Reconciling? || to.Ambiguous?)) || (from.Reconciling? && to.Ambiguous?)
    case ResultPersisted =>
      (from.Submitting? && (to.Accepted? || to.Rejected? || to.Reconciling? || to.Ambiguous?))
      || (from.Accepted? && to.Reconciling?) || (from.Reconciling? && (to.Rejected? || to.Ambiguous?))
    case JournalReconciling =>
      match from
      case Prechecking => to.Reconciling? || to.Rejected? || to.Ambiguous?
      case Submitting => to.Accepted? || to.Rejected? || to.Reconciling? || to.Ambiguous?
      case Accepted => to.Reconciling?
      case Reconciling => Fills(to) || to.Cancelled? || to.Expired? || to.Rejected? || to.Ambiguous?
      case PartiallyFilled => to.Reconciling? || Fills(to) || to.Cancelled? || to.Expired? || to.Ambiguous?
      case _ => false
  }

  /** The volume that goes with a move: a fill of a requested volume names its part of it, all of it
      for a complete fill and more than before for another partial one. */
  predicate VolumeFits(existing: OperationRecord, to: OperationState, settled: Option<u64>) {
    if !Fills(to) then settled.None?
    else
      && !existing.kind.Cancel?
      && (settled.Some? ==> settled.value != 0 && (existing.kind.Open? || existing.kind.Close?))
      && (existing.state.PartiallyFilled? && to.PartiallyFilled? ==> settled.Some? && settled.value > existing.settledVolume)
      && (existing.descriptor.Some? && existing.descriptor.value.requestedVolume != 0 ==>
            && settled.Some?
            && if to.Filled? then settled.value == existing.descriptor.value.requestedVolume
               else settled.value < existing.descriptor.value.requestedVolume)
  }

  /** The whole automaton: of a valid record exactly these moves are accepted, with these effects. */
  lemma MovesIff(existing: OperationRecord, to: OperationState, settled: Option<u64>)
    requires existing.Valid()
    ensures var next := Advance(existing, TransitionOperation(to, settled));
            && (next.Some? <==> existing.revision < U64_MAX && LegalMove(existing.journalState, existing.state, to)
                                && VolumeFits(existing, to, settled))
            && (next.Some? ==>
                  && (if settled.Some? then next.value.settledVolume == settled.value
                      else if Fills(to) then next.value.settledVolume == existing.settledVolume
                      else next.value.settledVolume == 0)
                  && next.value == existing.(state := to, revision := existing.revision + 1, settledVolume := next.value.settledVolume))
  {
  }

  /** The write-ahead state advances step by step up to the dispatch while the operation is being
      prechecked, and to reconciliation from the dispatch on; the descriptor is attached once,
      between intent and dispatch, and the broker's result is stored once, for a submitted
      operation. */
  lemma WriteAheadIff(existing: OperationRecord, to: JournalState, content: int, descriptor: ReconciliationDescriptor, boundDeal: u64,
                      rejected: bool)
    requires existing.Valid() && existing.revision < U64_MAX
    ensures Advance(existing, TransitionJournal(to, content)) ==
            if to.JournalReconciling? && (existing.journalState.Dispatching? || existing.journalState.ResultPersisted?) then
              Some(existing.(journalState := to, revision := existing.revision + 1))
            else if existing.state.Prechecking?
                    && ((existing.journalState.Created? && to.Prechecked?)
                        || (existing.journalState.Prechecked? && to.DispatchIntentPersisted?)) then
              Some(existing.(journalState := to, revision := existing.revision + 1))
            else if existing.journalState.DispatchIntentPersisted? && to.Dispatching? then
              Some(existing.(journalState := to, revision := existing.revision + 1, immutableContent := content))
            else None
    ensures Advance(existing, AttachDescriptor(descriptor, boundDeal)) ==
            if existing.journalState.DispatchIntentPersisted? && existing.descriptor.None? then
              Some(existing.(descriptor := Some(descriptor), boundDeal := boundDeal, revision := existing.revision + 1))
            else None
    ensures Advance(existing, PersistResult(content, boundDeal, rejected)) ==
            if existing.journalState.Dispatching? && existing.state.Submitting? then
              Some(existing.(journalState := ResultPersisted, immutableContent := content, boundDeal := boundDeal,
                             state := if rejected then OperationState.Rejected else Submitting, revision := existing.revision + 1))
            else None
  {
  }

  /** A history: accepted mutations one after the other. */
  predicate IsHistory(record: OperationRecord, ms: seq<Mutation>)
    decreases |ms|
  {
    ms == [] || (Advance(record, ms[0]).Some? && IsHistory(Advance(record, ms[0]).value, ms[1..]))
  }

  function After(record: OperationRecord, ms: seq<Mutation>): OperationRecord
    requires IsHistory(record, ms)
    decreases |ms|
  {
    if ms == [] then record else After(Advance(record, ms[0]).value, ms[1..])
  }

  /** Nothing else may follow. */
  predicate Final(state: OperationState) {
    state.Filled? || state.Cancelled? || state.Expired? || state.Rejected? || state.Failed? || state.Ambiguous?
  }

  function Submissions(record: OperationRecord, ms: seq<Mutation>): nat
    requires IsHistory(record, ms)
    decreases |ms|
  {
    if ms == [] then 0
    else (if ms[0].TransitionOperation? && ms[0].state.Submitting? then 1 else 0) + Submissions(Advance(record, ms[0]).value, ms[1..])
  }

  /** Over any history an outcome stays what it is and its volume with it, and an operation is
      submitted at most once, and never again once it has left its prechecks. */
  lemma {:induction false} HistoryKeepsOutcome(record: OperationRecord, ms: seq<Mutation>)
    requires record.Valid() && IsHistory(record, ms)
    ensures Final(record.state) ==> After(record, ms).state == record.state && After(record, ms).settledVolume == record.settledVolume
    ensures Submissions(record, ms) <= if record.state.Queued? || record.state.Prechecking? then 1 else 0
    ensures After(record, ms).Valid() && After(record, ms).revision == record.revision + |ms|
    decreases |ms|
  {
    if ms != [] {
      var next := Advance(record, ms[0]).value;
      if ms[0].TransitionOperation? { MovesIff(record, ms[0].state, ms[0].settled); }
      HistoryKeepsOutcome(next, ms[1..]);
    }
  }
}
