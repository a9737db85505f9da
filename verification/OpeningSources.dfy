/** Opening allocation entries and the durable sources that support them
    (src/dispatch/managed_opening_allocation.hpp:30-146,
    src/dispatch/file_managed_opening_allocation_store.cpp:389-420, 449-591, 653-718). */
module OpeningSources {
  import opened MachineWords
  import opened Options
  import opened SettlementRecords
  import opened ManagedQuantity
  import opened OpeningFacts
  import opened ExecutionFrontier

  /** Pins one durable fact into an opening frontier. */
  datatype Reference = Reference(
    dealTicket: u64, sourceRevision: u64, graphInstanceId: u64, coverageRevision: u64, schemaVersion: u32)
  {
    predicate Valid() {
      && dealTicket != 0 && sourceRevision != 0 && graphInstanceId != 0 && coverageRevision == sourceRevision
      && schemaVersion == SCHEMA_VERSION
    }

    predicate Pins(fact: DealFact) {
      && dealTicket == fact.dealTicket && sourceRevision == fact.receipt.sourceRevision
      && graphInstanceId == fact.receipt.graphInstanceId && coverageRevision == fact.receipt.coverageRevision
      && schemaVersion == SCHEMA_VERSION
    }
  }

  datatype OpeningKey = OpeningKey(operationKey: OperationKey, operationRevision: u64, frontierRevision: u64) {
    predicate Valid() {
      operationKey.Valid() && operationRevision != 0 && frontierRevision != 0
    }
  }

  /** Immutable allocation for one cumulative opening frontier. */
  datatype OpeningEntry = OpeningEntry(
    account: AccountKey, key: OpeningKey, positionIdentifier: u64, orderTicket: u64, direction: Direction, quantityScale: u32,
    brokerStepUnits: u64, unitsPerStep: u64, brokerUnits: u64, managedUnits: u64, evidenceDigest: u64, references: seq<Reference>)
  {
    predicate Valid() {
      && account.Valid() && key.Valid() && account == key.operationKey.account
      && positionIdentifier != 0 && orderTicket != 0 && !direction.UnknownDirection? && quantityScale <= 9
      && brokerStepUnits != 0 && unitsPerStep != 0 && brokerUnits != 0 && managedUnits != 0 && evidenceDigest != 0
      && references != []
      && (forall i :: 0 <= i < |references| ==> references[i].Valid() && references[i].sourceRevision <= key.frontierRevision)
      && (forall i :: 0 < i < |references| ==> references[i - 1].dealTicket < references[i].dealTicket)
    }

    ghost function Tickets(): set<u64> {
      set r | r in references :: r.dealTicket
    }
  }

  /** A fresh verification of an operation's sources. */
  datatype Proof = Proof(
    operationKey: OperationKey, operationRevision: u64, positionIdentifier: u64, tickets: seq<u64>, managedUnits: u64,
    evidenceDigest: u64)
  {
    predicate Valid() {
      && operationKey.Valid() && operationRevision != 0 && positionIdentifier != 0 && tickets != [] && managedUnits != 0
      && evidenceDigest != 0
      && (forall i :: 0 <= i < |tickets| ==> tickets[i] != 0)
      && (forall i :: 0 < i < |tickets| ==> tickets[i - 1] < tickets[i])
    }
  }

  /** `Anchored` stands for a valid OPEN record with a persisted result of that source revision. */
  datatype JournalSource = NoJournal | JournalIo | BadJournal | Anchored(resultRevision: u64)

  datatype FactScan = ScanIo | ScanInvalid | ScanComplete(facts: seq<DealFact>)

  datatype Sources = Sources(journal: OperationKey -> JournalSource, scan: FactScan)

  datatype Support = Supported | SourceMissing | SourceInvalid | SourceIo

  /** The operation's facts by ticket; none when one is invalid or a ticket occurs twice. */
  function FactMap(facts: seq<DealFact>, key: OperationKey): Option<map<u64, DealFact>> {
    if facts == [] then Some(map[])
    else
      var fact := facts[|facts| - 1];
      match FactMap(facts[..|facts| - 1], key)
      case None => None
      case Some(rest) =>
        if fact.operationKey != key then Some(rest)
        else if !fact.Valid() || fact.dealTicket in rest then None
        else Some(rest[fact.dealTicket := fact])
  }

  predicate FactMatches(entry: OpeningEntry, reference: Reference, fact: DealFact) {
    && fact.operationRevision == entry.key.operationRevision && fact.positionIdentifier == entry.positionIdentifier
    && fact.orderTicket == entry.orderTicket && fact.direction == entry.direction
    && fact.quantity.canonicalScale == entry.quantityScale && fact.quantity.brokerStepUnits == entry.brokerStepUnits
    && fact.quantity.Valid() && fact.quantity.managedLogicalUnits / fact.quantity.integerStepCount == entry.unitsPerStep
    && reference.Pins(fact)
  }

  /** The first unusable reference decides between a missing and an invalid source. */
  function ReferencesVerdict(entry: OpeningEntry, proof: Option<Proof>, facts: map<u64, DealFact>, i: nat): Support
    requires i <= |entry.references|
    decreases |entry.references| - i
  {
    if i == |entry.references| then Supported
    else
      var reference := entry.references[i];
      if reference.dealTicket !in facts then SourceMissing
      else if proof.Some? && reference.dealTicket !in proof.value.tickets then SourceInvalid
      else if !FactMatches(entry, reference, facts[reference.dealTicket]) then SourceInvalid
      else ReferencesVerdict(entry, proof, facts, i + 1)
  }

  function ReferencedFacts(entry: OpeningEntry, facts: map<u64, DealFact>): seq<DealFact>
    requires forall i :: 0 <= i < |entry.references| ==> entry.references[i].dealTicket in facts
  {
    seq(|entry.references|, i requires 0 <= i < |entry.references| => facts[entry.references[i].dealTicket])
  }

  /** Latest admitted revision that the references use from one observation graph; zero for none. */
  function GraphRevision(references: seq<Reference>, graph: u64): nat {
    if references == [] then 0
    else
      var last := references[|references| - 1];
      var rest := GraphRevision(references[..|references| - 1], graph);
      if last.graphInstanceId == graph && last.sourceRevision > rest then last.sourceRevision else rest
  }

  /** A fact that the frontier does not reference may have come later, but not instead. */
  predicate CameLater(frontier: Frontier, references: seq<Reference>, fact: DealFact) {
    frontier.AcceptsIdentity(fact) && fact.receipt.sourceRevision > GraphRevision(references, fact.receipt.graphInstanceId)
  }

  predicate Referenced(entry: OpeningEntry, ticket: u64) {
    exists i :: 0 <= i < |entry.references| && entry.references[i].dealTicket == ticket
  }

  predicate ProofMatches(entry: OpeningEntry, proof: Proof) {
    && proof.Valid() && proof.operationKey == entry.key.operationKey && proof.operationRevision == entry.key.operationRevision
    && proof.positionIdentifier == entry.positionIdentifier && proof.managedUnits == entry.managedUnits
    && proof.evidenceDigest == entry.evidenceDigest && |proof.tickets| == |entry.references|
  }

  function FactsVerdict(entry: OpeningEntry, proof: Option<Proof>, facts: map<u64, DealFact>): (s: Support)
  {
    if |facts| < |entry.references| then SourceInvalid
    else if ReferencesVerdict(entry, proof, facts, 0) != Supported then ReferencesVerdict(entry, proof, facts, 0)
    else if proof.Some? && (|proof.value.tickets| != |entry.references|
            || exists i :: 0 <= i < |entry.references| && proof.value.tickets[i] != entry.references[i].dealTicket) then SourceInvalid
    else
      AllPresent(entry, proof, facts, 0);
      match Create(ReferencedFacts(entry, facts))
      case None => SourceInvalid
      case Some(frontier) =>
        if frontier.brokerUnits != entry.brokerUnits || frontier.managedUnits != entry.managedUnits then SourceInvalid
        else if exists ticket <- facts :: !Referenced(entry, ticket) && !CameLater(frontier, entry.references, facts[ticket]) then SourceInvalid
        else Supported
  }

  lemma {:induction false} AllPresent(entry: OpeningEntry, proof: Option<Proof>, facts: map<u64, DealFact>, i: nat)
    requires i <= |entry.references| && ReferencesVerdict(entry, proof, facts, i) == Supported
    ensures forall k :: i <= k < |entry.references| ==>
              entry.references[k].dealTicket in facts && FactMatches(entry, entry.references[k], facts[entry.references[k].dealTicket])
    decreases |entry.references| - i
  {
    if i < |entry.references| { AllPresent(entry, proof, facts, i + 1); }
  }

  /** Whether the durable sources support an entry, and, with a proof, exactly that proof. */
  function Validate(entry: OpeningEntry, proof: Option<Proof>, sources: Sources): Support {
    if !entry.Valid() then SourceInvalid
    else if proof.Some? && !ProofMatches(entry, proof.value) then SourceInvalid
    else
      match (sources.journal)(entry.key.operationKey)
      case NoJournal => SourceMissing
      case JournalIo => SourceIo
      case BadJournal => SourceInvalid
      case Anchored(revision) =>
        if revision != entry.key.operationRevision then SourceInvalid
        else
          match sources.scan
          case ScanIo => SourceIo
          case ScanInvalid => SourceInvalid
          case ScanComplete(facts) =>
            match FactMap(facts, entry.key.operationKey)
            case None => SourceInvalid
            case Some(byTicket) => FactsVerdict(entry, proof, byTicket)
  }

  // ----- what support means

  /** The operation's own facts are valid and have a ticket each. */
  ghost predicate OwnFactsSound(facts: seq<DealFact>, key: OperationKey) {
    && (forall i :: 0 <= i < |facts| && facts[i].operationKey == key ==> facts[i].Valid())
    && (forall i, j :: 0 <= i < j < |facts| && facts[i].operationKey == key == facts[j].operationKey ==>
          facts[i].dealTicket != facts[j].dealTicket)
  }

  lemma {:induction false} FactMapIff(facts: seq<DealFact>, key: OperationKey)
    ensures FactMap(facts, key).Some? <==> OwnFactsSound(facts, key)
    decreases |facts|
  {
    hide DealFact.Valid;
    if facts != [] {
      var init, last := facts[..|facts| - 1], facts[|facts| - 1];
      FactMapIff(init, key);
      assert facts == init + [last];
      if FactMap(init, key).Some? {
        MapTickets(init, key);
        LastTicketIsNew(facts, key);
      } else {
        var i, j: int :| (0 <= i < |init| && init[i].operationKey == key && !init[i].Valid())
          || (0 <= i < j < |init| && init[i].operationKey == key == init[j].operationKey && init[i].dealTicket == init[j].dealTicket);
        assert facts[i] == init[i] && (j < |init| && j > i ==> facts[j] == init[j]);
      }
    }
  }

  lemma LastTicketIsNew(facts: seq<DealFact>, key: OperationKey)
    requires facts != [] && OwnFactsSound(facts[..|facts| - 1], key)
    ensures var init, last := facts[..|facts| - 1], facts[|facts| - 1];
            OwnFactsSound(facts, key)
            <==> (last.operationKey == key ==>
                    last.Valid() && forall f <- init :: f.operationKey == key ==> f.dealTicket != last.dealTicket)
  {
    hide DealFact.Valid;
    var init, last := facts[..|facts| - 1], facts[|facts| - 1];
    if OwnFactsSound(facts, key) && last.operationKey == key {
      forall f <- init | f.operationKey == key ensures f.dealTicket != last.dealTicket {
        var i :| 0 <= i < |init| && init[i] == f;
        assert facts[i] == f;
      }
    }
    forall i | 0 <= i < |init| ensures facts[i] == init[i] && facts[i] in init {}
  }

  /** `chosen` are the operation's facts that the references pin, and they add up to the entry; every
      other fact of the operation came later; a proof names exactly their tickets. */
  ghost predicate SupportedBy(entry: OpeningEntry, proof: Option<Proof>, facts: seq<DealFact>, chosen: seq<DealFact>) {
    && |chosen| == |entry.references|
    && (forall i :: 0 <= i < |chosen| ==>
          chosen[i] in facts && chosen[i].operationKey == entry.key.operationKey && FactMatches(entry, entry.references[i], chosen[i]))
    && (match Create(chosen)
        case None => false
        case Some(frontier) =>
          && frontier.brokerUnits == entry.brokerUnits && frontier.managedUnits == entry.managedUnits
          && forall f <- facts :: f.operationKey == entry.key.operationKey ==>
               Referenced(entry, f.dealTicket) || CameLater(frontier, entry.references, f))
    && (proof.Some? ==> ProofMatches(entry, proof.value) && proof.value.tickets == TicketsInOrder(entry.references))
  }

  /** An entry is supported exactly if it is valid, its journal record is anchored at its revision,
      the operation's facts are sound, and some of them support it so. */
  lemma SupportedIff(entry: OpeningEntry, proof: Option<Proof>, sources: Sources)
    ensures Validate(entry, proof, sources) == Supported
       <==> && entry.Valid() && (sources.journal)(entry.key.operationKey) == Anchored(entry.key.operationRevision)
            && sources.scan.ScanComplete? && OwnFactsSound(sources.scan.facts, entry.key.operationKey)
            && exists chosen: seq<DealFact> :: SupportedBy(entry, proof, sources.scan.facts, chosen)
  {
    hide OpeningEntry.Valid, Create, CameLater, FactMatches, ProofMatches, FactsVerdict, FactMap, OwnFactsSound, SupportedBy;
    if sources.scan.ScanComplete? {
      FactMapIff(sources.scan.facts, entry.key.operationKey);
      if FactMap(sources.scan.facts, entry.key.operationKey).Some? && entry.Valid() {
        SupportIsChoice(entry, proof, sources.scan.facts);
      }
      if exists chosen: seq<DealFact> :: SupportedBy(entry, proof, sources.scan.facts, chosen) {
        var chosen: seq<DealFact> :| SupportedBy(entry, proof, sources.scan.facts, chosen);
        SupportNeedsProof(entry, proof, sources.scan.facts, chosen);
      }
    }
  }

  lemma SupportNeedsProof(entry: OpeningEntry, proof: Option<Proof>, facts: seq<DealFact>, chosen: seq<DealFact>)
    requires SupportedBy(entry, proof, facts, chosen)
    ensures proof.Some? ==> ProofMatches(entry, proof.value)
  {
    hide Create, CameLater, FactMatches, ProofMatches;
  }

  lemma SupportIsChoice(entry: OpeningEntry, proof: Option<Proof>, facts: seq<DealFact>)
    requires entry.Valid() && FactMap(facts, entry.key.operationKey).Some?
    ensures FactsVerdict(entry, proof, FactMap(facts, entry.key.operationKey).value) == Supported
            && (proof.Some? ==> ProofMatches(entry, proof.value))
       <==> exists chosen: seq<DealFact> :: SupportedBy(entry, proof, facts, chosen)
  {
    hide Create, CameLater, FactMatches, ProofMatches, DealFact.Valid;
    var key, byTicket := entry.key.operationKey, FactMap(facts, entry.key.operationKey).value;
    MapFacts(facts, key);
    EntryTickets(entry);
    if FactsVerdict(entry, proof, byTicket) == Supported && (proof.Some? ==> ProofMatches(entry, proof.value)) {
      AllPresent(entry, proof, byTicket, 0);
      SupportedHasChoice(entry, proof, facts);
    }
    if chosen: seq<DealFact> :| SupportedBy(entry, proof, facts, chosen) {
      ChoiceSupports(entry, proof, facts, chosen);
    }
  }

  lemma SupportedHasChoice(entry: OpeningEntry, proof: Option<Proof>, facts: seq<DealFact>)
    requires FactMap(facts, entry.key.operationKey).Some?
    requires FactsVerdict(entry, proof, FactMap(facts, entry.key.operationKey).value) == Supported
    requires proof.Some? ==> ProofMatches(entry, proof.value)
    ensures exists chosen: seq<DealFact> :: SupportedBy(entry, proof, facts, chosen)
  {
    hide Create, CameLater, FactMatches, ProofMatches, DealFact.Valid, FactMap, ReferencesVerdict;
    var byTicket := FactMap(facts, entry.key.operationKey).value;
    MapFacts(facts, entry.key.operationKey);
    AllPresent(entry, proof, byTicket, 0);
    var chosen := ReferencedFacts(entry, byTicket);
    if proof.Some? { assert proof.value.tickets == TicketsInOrder(entry.references); }
    assert SupportedBy(entry, proof, facts, chosen);
  }

  lemma ChosenArePinned(entry: OpeningEntry, proof: Option<Proof>, facts: seq<DealFact>, chosen: seq<DealFact>)
    requires FactMap(facts, entry.key.operationKey).Some? && SupportedBy(entry, proof, facts, chosen)
    ensures var byTicket := FactMap(facts, entry.key.operationKey).value;
            forall i :: 0 <= i < |chosen| ==>
              && entry.references[i].dealTicket in byTicket && byTicket[entry.references[i].dealTicket] == chosen[i]
              && FactMatches(entry, entry.references[i], chosen[i])
  {
    hide Create, CameLater, ProofMatches, DealFact.Valid, FactMap;
    MapFacts(facts, entry.key.operationKey);
  }

  lemma ChoiceSupports(entry: OpeningEntry, proof: Option<Proof>, facts: seq<DealFact>, chosen: seq<DealFact>)
    requires entry.Valid() && FactMap(facts, entry.key.operationKey).Some? && SupportedBy(entry, proof, facts, chosen)
    ensures FactsVerdict(entry, proof, FactMap(facts, entry.key.operationKey).value) == Supported
  {
    hide Create, CameLater, FactMatches, ProofMatches, DealFact.Valid, FactMap, ReferencesVerdict;
    var key, byTicket := entry.key.operationKey, FactMap(facts, entry.key.operationKey).value;
    EntryTickets(entry);
    hide OpeningEntry.Valid;
    MapFacts(facts, key);
    ChosenArePinned(entry, proof, facts, chosen);
    ChosenReferences(entry, proof, byTicket, chosen, 0);
    assert ReferencedFacts(entry, byTicket) == chosen;
    assert entry.Tickets() <= byTicket.Keys;
    SubsetBySize(entry.Tickets(), byTicket.Keys);
    assert |byTicket.Keys| == |byTicket|;
  }

  lemma {:induction false} ChosenReferences(entry: OpeningEntry, proof: Option<Proof>, facts: map<u64, DealFact>, chosen: seq<DealFact>, i: nat)
    requires i <= |chosen| == |entry.references|
    requires forall k :: 0 <= k < |chosen| ==>
               entry.references[k].dealTicket in facts && facts[entry.references[k].dealTicket] == chosen[k]
               && FactMatches(entry, entry.references[k], chosen[k])
    requires proof.Some? ==> proof.value.tickets == TicketsInOrder(entry.references)
    ensures ReferencesVerdict(entry, proof, facts, i) == Supported
    decreases |chosen| - i
  {
    hide FactMatches;
    if i < |chosen| {
      assert proof.Some? ==> proof.value.tickets[i] == entry.references[i].dealTicket;
      ChosenReferences(entry, proof, facts, chosen, i + 1);
    }
  }

  // ----- historical stability

  lemma {:induction false} ForeignFactIgnored(before: seq<DealFact>, after: seq<DealFact>, fact: DealFact, key: OperationKey)
    requires fact.operationKey != key
    ensures FactMap(before + [fact] + after, key) == FactMap(before + after, key)
    decreases |after|
  {
    hide DealFact.Valid;
    if after == [] {
      assert before + [fact] + after == before + [fact] && before + after == before;
      assert (before + [fact])[..|before|] == before;
    } else {
      DropLast(before + [fact], after);
      DropLast(before, after);
      ForeignFactIgnored(before, after[..|after| - 1], fact, key);
    }
  }

  lemma DropLast(a: seq<DealFact>, b: seq<DealFact>)
    requires b != []
    ensures (a + b)[..|a + b| - 1] == a + b[..|b| - 1] && (a + b)[|a + b| - 1] == b[|b| - 1]
  {
  }

  /** Where in the scan a new fact of the operation turns up does not matter. */
  lemma {:induction false} OwnFactAdded(before: seq<DealFact>, after: seq<DealFact>, fact: DealFact, key: OperationKey)
    requires fact.operationKey == key && FactMap(before + after, key).Some?
    ensures var old_ := FactMap(before + after, key).value;
            FactMap(before + [fact] + after, key)
            == if fact.Valid() && fact.dealTicket !in old_ then Some(old_[fact.dealTicket := fact]) else None
    decreases |after|
  {
    hide DealFact.Valid;
    if after == [] {
      assert before + [fact] + after == before + [fact] && before + after == before;
      assert (before + [fact])[..|before|] == before;
    } else {
      DropLast(before + [fact], after);
      DropLast(before, after);
      OwnFactAdded(before, after[..|after| - 1], fact, key);
      var last := after[|after| - 1];
      var rest: map<u64, DealFact> := FactMap(before + after[..|after| - 1], key).value;
      if last.operationKey == key && fact.dealTicket != last.dealTicket {
        var a: map<u64, DealFact>, b: map<u64, DealFact> := rest[last.dealTicket := last], rest[fact.dealTicket := fact];
        assert a[fact.dealTicket := fact] == b[last.dealTicket := last];
      }
    }
  }

  lemma {:induction false} ReferencesUnchanged(entry: OpeningEntry, proof: Option<Proof>, facts: map<u64, DealFact>, fact: DealFact, i: nat)
    requires i <= |entry.references| && fact.dealTicket !in facts
    requires ReferencesVerdict(entry, proof, facts, i) == Supported
    ensures ReferencesVerdict(entry, proof, facts[fact.dealTicket := fact], i) == Supported
    decreases |entry.references| - i
  {
    if i < |entry.references| { ReferencesUnchanged(entry, proof, facts, fact, i + 1); }
  }

  /** The frontier that an accepted entry's facts form. */
  function FrontierOf(entry: OpeningEntry, sources: Sources): Option<Frontier> {
    if sources.scan.ScanComplete? && FactMap(sources.scan.facts, entry.key.operationKey).Some? then
      var facts := FactMap(sources.scan.facts, entry.key.operationKey).value;
      if forall i :: 0 <= i < |entry.references| ==> entry.references[i].dealTicket in facts then Create(ReferencedFacts(entry, facts))
      else None
    else None
  }

  lemma FactAddedToMap(entry: OpeningEntry, facts: map<u64, DealFact>, fact: DealFact)
    requires FactsVerdict(entry, None, facts) == Supported && fact.dealTicket !in facts
    ensures forall i :: 0 <= i < |entry.references| ==> entry.references[i].dealTicket in facts
    ensures Create(ReferencedFacts(entry, facts)).Some?
    ensures FactsVerdict(entry, None, facts[fact.dealTicket := fact]) == Supported
       <==> CameLater(Create(ReferencedFacts(entry, facts)).value, entry.references, fact)
  {
    hide Create;
    hide CameLater;
    hide FactMatches;
    var more := facts[fact.dealTicket := fact];
    AllPresent(entry, None, facts, 0);
    ReferencesUnchanged(entry, None, facts, fact, 0);
    assert ReferencedFacts(entry, more) == ReferencedFacts(entry, facts);
    assert more.Keys == facts.Keys + {fact.dealTicket};
    assert |more.Keys| == |facts.Keys| + 1;
    assert !Referenced(entry, fact.dealTicket);
    var frontier := Create(ReferencedFacts(entry, facts)).value;
    assert forall ticket <- facts :: more[ticket] == facts[ticket];
    assert more[fact.dealTicket] == fact;
  }

  /** Historical stability: an accepted entry survives a new fact of its operation, wherever it
      appears in the scan, exactly when that fact is valid, has a new ticket and the frontier's
      identity, and comes from a graph instance the entry does not use or from a later revision of
      its own graph. */
  lemma HistoryIsStableIff(entry: OpeningEntry, journal: OperationKey -> JournalSource, before: seq<DealFact>, after: seq<DealFact>, fact: DealFact)
    requires fact.operationKey == entry.key.operationKey
    requires Validate(entry, None, Sources(journal, ScanComplete(before + after))) == Supported
    ensures FrontierOf(entry, Sources(journal, ScanComplete(before + after))).Some?
    ensures Validate(entry, None, Sources(journal, ScanComplete(before + [fact] + after))) == Supported
       <==> && fact.Valid() && (forall f <- before + after :: f.operationKey == fact.operationKey ==> f.dealTicket != fact.dealTicket)
            && CameLater(FrontierOf(entry, Sources(journal, ScanComplete(before + after))).value, entry.references, fact)
  {
    hide CameLater;
    hide DealFact.Valid;
    hide OpeningEntry.Valid;
    hide FactsVerdict;
    hide Create;
    var key := entry.key.operationKey;
    OwnFactAdded(before, after, fact, key);
    var facts := FactMap(before + after, key).value;
    MapTickets(before + after, key);
    SupportedHasFrontier(entry, facts);
    if fact.dealTicket !in facts { FactAddedToMap(entry, facts, fact); }
  }

  lemma SupportedHasFrontier(entry: OpeningEntry, facts: map<u64, DealFact>)
    requires FactsVerdict(entry, None, facts) == Supported
    ensures forall i :: 0 <= i < |entry.references| ==> entry.references[i].dealTicket in facts
    ensures Create(ReferencedFacts(entry, facts)).Some?
  {
    hide Create;
    AllPresent(entry, None, facts, 0);
  }

  lemma {:induction false} MapTickets(facts: seq<DealFact>, key: OperationKey)
    requires FactMap(facts, key).Some?
    ensures forall ticket: u64 :: ticket in FactMap(facts, key).value <==> exists f :: f in facts && f.operationKey == key && f.dealTicket == ticket
    decreases |facts|
  {
    hide DealFact.Valid;
    if facts != [] {
      var init, last := facts[..|facts| - 1], facts[|facts| - 1];
      MapTickets(init, key);
      assert facts == init + [last];
    }
  }

  /** Facts of other operations never matter. */
  lemma OtherOperationsNeverMatter(entry: OpeningEntry, proof: Option<Proof>, journal: OperationKey -> JournalSource,
                                   before: seq<DealFact>, after: seq<DealFact>, fact: DealFact)
    requires fact.operationKey != entry.key.operationKey
    ensures Validate(entry, proof, Sources(journal, ScanComplete(before + [fact] + after)))
         == Validate(entry, proof, Sources(journal, ScanComplete(before + after)))
  {
    hide FactsVerdict;
    hide OpeningEntry.Valid;
    ForeignFactIgnored(before, after, fact, entry.key.operationKey);
  }

  lemma {:induction false} GraphRevisionIsLatest(references: seq<Reference>, graph: u64, revision: nat)
    requires revision > 0
    ensures revision > GraphRevision(references, graph)
       <==> forall r <- references :: r.graphInstanceId == graph ==> r.sourceRevision < revision
    decreases |references|
  {
    if references != [] {
      var init, last := references[..|references| - 1], references[|references| - 1];
      GraphRevisionIsLatest(init, graph, revision);
      assert references == init + [last];
    }
  }

  /** An unreferenced fact is no obstacle exactly if it shares the frontier's identity and is newer
      than every referenced fact of its own graph; revisions of other graphs do not count. */
  lemma CameLaterIff(frontier: Frontier, references: seq<Reference>, fact: DealFact)
    requires Admissible(Elements(frontier.entries)) && fact.Valid()
    ensures CameLater(frontier, references, fact)
       <==> && (forall f <- frontier.entries :: f.Compatible(fact))
            && forall r <- references ::
                 r.graphInstanceId == fact.receipt.graphInstanceId ==> r.sourceRevision < fact.receipt.sourceRevision
  {
    FirstSpeaksForAll(frontier.entries, fact);
    GraphRevisionIsLatest(references, fact.receipt.graphInstanceId, fact.receipt.sourceRevision);
    hide Admissible, Sums, Elements;
  }

  /** A reference supports an entry with a fact exactly if it is that fact's own receipt, and the fact is
      of the entry's operation, order, position, direction and quantity domain. */
  lemma FactMatchesIff(entry: OpeningEntry, reference: Reference, fact: DealFact)
    requires fact.Valid() && reference.Valid()
    ensures FactMatches(entry, reference, fact)
       <==> && reference == Reference(fact.dealTicket, fact.receipt.sourceRevision, fact.receipt.graphInstanceId,
                                      fact.receipt.coverageRevision, SCHEMA_VERSION)
            && (fact.operationRevision, fact.orderTicket, fact.positionIdentifier, fact.direction)
               == (entry.key.operationRevision, entry.orderTicket, entry.positionIdentifier, entry.direction)
            && (fact.quantity.canonicalScale, fact.quantity.brokerStepUnits, UnitsPerStep(fact.quantity))
               == (entry.quantityScale, entry.brokerStepUnits, entry.unitsPerStep)
  {
  }

  /** A proof only tightens the validation of an entry. */
  lemma ProofOnlyTightens(entry: OpeningEntry, proof: Proof, sources: Sources)
    requires Validate(entry, Some(proof), sources) == Supported
    ensures Validate(entry, None, sources) == Supported && ProofMatches(entry, proof)
  {
    hide Create;
    hide CameLater;
    hide DealFact.Valid;
    var facts := FactMap(sources.scan.facts, entry.key.operationKey).value;
    ReferencesWithoutProof(entry, proof, facts, 0);
  }

  lemma {:induction false} ReferencesWithoutProof(entry: OpeningEntry, proof: Proof, facts: map<u64, DealFact>, i: nat)
    requires i <= |entry.references| && ReferencesVerdict(entry, Some(proof), facts, i) == Supported
    ensures ReferencesVerdict(entry, None, facts, i) == Supported
    decreases |entry.references| - i
  {
    if i < |entry.references| { ReferencesWithoutProof(entry, proof, facts, i + 1); }
  }

  /** The entry under another frontier discriminator. */
  function AtRevision(entry: OpeningEntry, revision: u64): OpeningEntry {
    entry.(key := entry.key.(frontierRevision := revision))
  }

  lemma {:induction false} ReferencesIgnoreDiscriminator(s: OpeningEntry, revision: u64, proof: Option<Proof>, facts: map<u64, DealFact>, i: nat)
    requires i <= |s.references|
    ensures ReferencesVerdict(AtRevision(s, revision), proof, facts, i) == ReferencesVerdict(s, proof, facts, i)
    decreases |s.references| - i
  {
    if i < |s.references| { ReferencesIgnoreDiscriminator(s, revision, proof, facts, i + 1); }
  }

  lemma RaisedIsValid(s: OpeningEntry, revision: u64)
    requires s.Valid() && revision >= s.key.frontierRevision
    ensures AtRevision(s, revision).Valid()
  {
  }

  lemma ProofIgnoresDiscriminator(s: OpeningEntry, revision: u64, proof: Proof)
    ensures ProofMatches(AtRevision(s, revision), proof) == ProofMatches(s, proof)
  {
  }

  lemma BuiltNeedsScan(proof: Proof, scan: FactScan)
    ensures BuildEntry(proof, scan).Some? ==> scan.ScanComplete?
  {
  }

  /** A higher discriminator changes nothing about an entry's support. */
  lemma DiscriminatorNeedsNoSupport(s: OpeningEntry, revision: u64, proof: Option<Proof>, sources: Sources)
    requires s.Valid() && revision >= s.key.frontierRevision
    ensures Validate(AtRevision(s, revision), proof, sources) == Validate(s, proof, sources)
  {
    hide OpeningEntry.Valid, FactMap, FactsVerdict, ReferencesVerdict, ProofMatches;
    RaisedIsValid(s, revision);
    if proof.Some? { ProofIgnoresDiscriminator(s, revision, proof.value); }
    if sources.scan.ScanComplete? && FactMap(sources.scan.facts, s.key.operationKey).Some? {
      var facts := FactMap(sources.scan.facts, s.key.operationKey).value;
      ReferencesIgnoreDiscriminator(s, revision, proof, facts, 0);
      FactsIgnoreDiscriminator(s, revision, proof, facts);
    }
  }

  lemma FactsIgnoreDiscriminator(s: OpeningEntry, revision: u64, proof: Option<Proof>, facts: map<u64, DealFact>)
    requires ReferencesVerdict(AtRevision(s, revision), proof, facts, 0) == ReferencesVerdict(s, proof, facts, 0)
    ensures FactsVerdict(AtRevision(s, revision), proof, facts) == FactsVerdict(s, proof, facts)
  {
    hide Create;
    hide CameLater;
    hide FactMatches;
    hide ReferencesVerdict;
    var t := AtRevision(s, revision);
    assert forall ticket: u64 :: Referenced(t, ticket) <==> Referenced(s, ticket);
    if ReferencesVerdict(s, proof, facts, 0) == Supported {
      AllPresent(s, proof, facts, 0);
      assert ReferencedFacts(t, facts) == ReferencedFacts(s, facts);
    }
  }

  // ----- relation of a fresh proof to an entry

  datatype Relation = Exact | Extended | Contradiction

  function ClassifyProof(entry: OpeningEntry, proof: Proof): Relation {
    if !proof.Valid() || proof.operationKey != entry.key.operationKey || proof.operationRevision != entry.key.operationRevision
       || proof.positionIdentifier != entry.positionIdentifier then Contradiction
    else if exists r <- entry.references :: r.dealTicket !in proof.tickets then Contradiction
    else
      var sameSize := |proof.tickets| == |entry.references|;
      if sameSize && proof.managedUnits == entry.managedUnits && proof.evidenceDigest == entry.evidenceDigest then Exact
      else if !sameSize && proof.managedUnits > entry.managedUnits then Extended
      else Contradiction
  }

  ghost function SetOf(tickets: seq<u64>): set<u64> {
    set t | t in tickets
  }

  lemma {:induction false} AscendingIsSet(tickets: seq<u64>)
    requires forall i :: 0 < i < |tickets| ==> tickets[i - 1] < tickets[i]
    ensures |SetOf(tickets)| == |tickets|
    ensures tickets != [] ==> forall t <- SetOf(tickets) :: t <= tickets[|tickets| - 1]
  {
    hide SetOf;
    if tickets == [] {
      NoTickets();
    } else {
      var init, last := tickets[..|tickets| - 1], tickets[|tickets| - 1];
      AscendingIsSet(init);
      NoTickets();
      assert init != [] ==> init[|init| - 1] < last;
      assert last !in SetOf(init);
      OneTicketMore(init, last);
      assert tickets == init + [last];
    }
  }

  lemma NoTickets()
    ensures SetOf([]) == {}
  {
  }

  lemma OneTicketMore(tickets: seq<u64>, last: u64)
    ensures SetOf(tickets + [last]) == SetOf(tickets) + {last}
  {
  }

  function TicketsInOrder(references: seq<Reference>): seq<u64> {
    seq(|references|, i requires 0 <= i < |references| => references[i].dealTicket)
  }

  lemma EntryTickets(entry: OpeningEntry)
    requires entry.Valid()
    ensures |entry.Tickets()| == |entry.references|
  {
    var tickets := TicketsInOrder(entry.references);
    AscendingIsSet(tickets);
    forall t: u64 ensures t in entry.Tickets() <==> t in SetOf(tickets) {
      if t in entry.Tickets() {
        var i :| 0 <= i < |entry.references| && entry.references[i].dealTicket == t;
        assert tickets[i] == t;
      }
      if t in SetOf(tickets) {
        var i :| 0 <= i < |tickets| && tickets[i] == t;
        assert entry.references[i] in entry.references;
      }
    }
    assert entry.Tickets() == SetOf(tickets);
  }

  predicate SameIdentity(entry: OpeningEntry, proof: Proof) {
    && proof.Valid() && proof.operationKey == entry.key.operationKey && proof.operationRevision == entry.key.operationRevision
    && proof.positionIdentifier == entry.positionIdentifier
  }

  /** A proof of the entry's identity meets it exactly if it has the same tickets, quantity and digest,
      and extends it exactly if it has more tickets, all of the entry's among them, and more quantity. */
  lemma ClassifyIff(entry: OpeningEntry, proof: Proof)
    requires entry.Valid()
    ensures ClassifyProof(entry, proof).Exact?
       <==> && SameIdentity(entry, proof) && SetOf(proof.tickets) == entry.Tickets()
            && proof.managedUnits == entry.managedUnits && proof.evidenceDigest == entry.evidenceDigest
    ensures ClassifyProof(entry, proof).Extended?
       <==> SameIdentity(entry, proof) && entry.Tickets() < SetOf(proof.tickets) && proof.managedUnits > entry.managedUnits
  {
    EntryTickets(entry);
    hide OpeningEntry.Valid;
    if SameIdentity(entry, proof) {
      AscendingIsSet(proof.tickets);
      if forall r <- entry.references :: r.dealTicket in proof.tickets {
        assert entry.Tickets() <= SetOf(proof.tickets);
        SubsetBySize(entry.Tickets(), SetOf(proof.tickets));
      } else {
        var r :| r in entry.references && r.dealTicket !in proof.tickets;
        assert r.dealTicket in entry.Tickets() && r.dealTicket !in SetOf(proof.tickets);
      }
    }
  }

  lemma SubsetBySize(a: set<u64>, b: set<u64>)
    requires a <= b
    ensures |a| <= |b| && (|a| == |b| <==> a == b)
  {
    assert b == a + (b - a);
  }

  // ----- building an entry from a proof

  /** The operation's facts by ticket; none when a ticket occurs twice. */
  function TicketMap(facts: seq<DealFact>, key: OperationKey): (m: Option<map<u64, DealFact>>)
    ensures m.Some? ==> forall t <- m.value :: m.value[t].dealTicket == t
  {
    if facts == [] then Some(map[])
    else
      var fact := facts[|facts| - 1];
      match TicketMap(facts[..|facts| - 1], key)
      case None => None
      case Some(rest) =>
        if fact.operationKey != key then Some(rest)
        else if fact.dealTicket in rest then None
        else Some(rest[fact.dealTicket := fact])
  }

  function ReferenceTo(fact: DealFact): Reference {
    Reference(fact.dealTicket, fact.receipt.sourceRevision, fact.receipt.graphInstanceId, fact.receipt.coverageRevision, SCHEMA_VERSION)
  }

  function ReferencesTo(entries: seq<DealFact>): (r: seq<Reference>)
    ensures |r| == |entries| && forall i :: 0 <= i < |r| ==> r[i] == ReferenceTo(entries[i])
  {
    seq(|entries|, i requires 0 <= i < |entries| => ReferenceTo(entries[i]))
  }

  function LatestRevision(entries: seq<DealFact>): u64 {
    if entries == [] then 0
    else
      var rest, last := LatestRevision(entries[..|entries| - 1]), entries[|entries| - 1].receipt.sourceRevision;
      if last > rest then last else rest
  }

  /** The map exists exactly if no two facts of the operation share a ticket, and holds just those. */
  lemma {:induction false} TicketMapIff(facts: seq<DealFact>, key: OperationKey)
    ensures TicketMap(facts, key).Some?
       <==> forall i, j :: 0 <= i < j < |facts| && facts[i].operationKey == key == facts[j].operationKey ==>
              facts[i].dealTicket != facts[j].dealTicket
    ensures TicketMap(facts, key).Some? ==>
              var m := TicketMap(facts, key).value;
              (forall f <- facts :: f.operationKey == key ==> f.dealTicket in m) && forall t <- m :: m[t] in facts && m[t].operationKey == key
    decreases |facts|
  {
    if facts != [] {
      var init, last := facts[..|facts| - 1], facts[|facts| - 1];
      assert facts == init + [last];
      TicketMapIff(init, key);
      if TicketMap(init, key).None? {
        var i, j :| 0 <= i < j < |init| && init[i].operationKey == key == init[j].operationKey && init[i].dealTicket == init[j].dealTicket;
        assert facts[i] == init[i] && facts[j] == init[j];
      } else if last.operationKey == key && last.dealTicket in TicketMap(init, key).value {
        var i :| 0 <= i < |init| && init[i] == TicketMap(init, key).value[last.dealTicket];
        assert facts[i].dealTicket == facts[|init|].dealTicket;
      }
    }
  }

  function FactsFor(tickets: seq<u64>, byTicket: map<u64, DealFact>): (r: seq<DealFact>)
    requires forall t <- tickets :: t in byTicket
    ensures |r| == |tickets| && forall i :: 0 <= i < |r| ==> r[i] == byTicket[tickets[i]]
  {
    seq(|tickets|, i requires 0 <= i < |tickets| => byTicket[tickets[i]])
  }

  function EntryFrom(proof: Proof, frontier: Frontier): Option<OpeningEntry>
    requires frontier.entries != []
  {
    var basis := frontier.entries[0];
    var q := basis.quantity;
    if q.integerStepCount == 0 || q.managedLogicalUnits % q.integerStepCount != 0 then None
    else
      var perStep := q.managedLogicalUnits / q.integerStepCount;
      if perStep > U64_MAX then None
      else
        var entry := OpeningEntry(
          proof.operationKey.account, OpeningKey(proof.operationKey, proof.operationRevision, LatestRevision(frontier.entries)),
          proof.positionIdentifier, basis.orderTicket, basis.direction, q.canonicalScale, q.brokerStepUnits, perStep,
          frontier.brokerUnits, frontier.managedUnits, proof.evidenceDigest, ReferencesTo(frontier.entries));
        if entry.Valid() then Some(entry) else None
  }

  function BuildEntry(proof: Proof, scan: FactScan): Option<OpeningEntry> {
    if !scan.ScanComplete? then None
    else
      match TicketMap(scan.facts, proof.operationKey)
      case None => None
      case Some(byTicket) =>
        if exists t <- proof.tickets :: t !in byTicket then None
        else
          match Create(FactsFor(proof.tickets, byTicket))
          case None => None
          case Some(frontier) =>
            CreatedHasEntries(FactsFor(proof.tickets, byTicket));
            if frontier.managedUnits != proof.managedUnits then None else EntryFrom(proof, frontier)
  }

  lemma CreatedHasEntries(facts: seq<DealFact>)
    requires Create(facts).Some?
    ensures Create(facts).value.entries != [] && Elements(Create(facts).value.entries) == Elements(facts)
  {
    hide Create;
    hide Sums;
    CreateIsCanonical(facts);
    EmptyElements(facts);
    EmptyElements(Create(facts).value.entries);
  }

  /** A built entry carries exactly the proof's operation, tickets and managed quantity. */
  lemma BuiltEntryIsProof(proof: Proof, scan: FactScan)
    requires BuildEntry(proof, scan).Some?
    ensures var entry := BuildEntry(proof, scan).value;
            && entry.Valid() && entry.key.operationKey == proof.operationKey && entry.key.operationRevision == proof.operationRevision
            && entry.managedUnits == proof.managedUnits && entry.evidenceDigest == proof.evidenceDigest
            && entry.positionIdentifier == proof.positionIdentifier
            && entry.Tickets() == set t | t in proof.tickets
  {
    hide Create;
    hide OpeningEntry.Valid;
    var byTicket := TicketMap(scan.facts, proof.operationKey).value;
    var facts := FactsFor(proof.tickets, byTicket);
    CreatedHasEntries(facts);
    var frontier := Create(facts).value;
    var entry := BuildEntry(proof, scan).value;
    TicketsOfReferences(frontier.entries);
    assert entry.Tickets() == TicketsOf(frontier.entries);
    forall t: u64 ensures t in entry.Tickets() <==> t in proof.tickets {
      if t in proof.tickets {
        var i :| 0 <= i < |proof.tickets| && proof.tickets[i] == t;
        assert facts[i].dealTicket == t && facts[i] in Elements(facts);
      }
      if t in TicketsOf(frontier.entries) {
        var f :| f in frontier.entries && f.dealTicket == t;
        assert f in Elements(facts);
        var i :| 0 <= i < |facts| && facts[i] == f;
      }
    }
  }

  lemma {:induction false} FactMapIsTicketMap(facts: seq<DealFact>, key: OperationKey)
    requires FactMap(facts, key).Some?
    ensures TicketMap(facts, key) == FactMap(facts, key)
    decreases |facts|
  {
    hide DealFact.Valid;
    if facts != [] { FactMapIsTicketMap(facts[..|facts| - 1], key); }
  }

  /** Facts in strict ticket order are the frontier's entries as they stand. */
  lemma OrderedFactsAreEntries(facts: seq<DealFact>)
    requires StrictlyAscending(facts) && Create(facts).Some?
    ensures Create(facts).value.entries == facts && forall f <- facts :: f.Valid()
  {
    hide Create, DealFact.Valid, Sums;
    CreateIsCanonical(facts);
    AscendingIsUnique(Create(facts).value.entries, facts);
    AdmissibleFacts(facts);
  }

  lemma AdmissibleFacts(facts: seq<DealFact>)
    requires Create(facts).Some?
    ensures forall f <- facts :: f.Valid()
  {
    hide Create, Sums, DealFact.Valid;
    CreateIsCanonical(facts);
    forall f <- facts ensures f.Valid() { assert f in Elements(facts); }
  }

  lemma {:induction false} LatestIsBound(entries: seq<DealFact>, bound: u64)
    requires forall f <- entries :: f.receipt.sourceRevision <= bound
    ensures LatestRevision(entries) <= bound && forall f <- entries :: f.receipt.sourceRevision <= LatestRevision(entries)
    decreases |entries|
  {
    if entries != [] {
      var init, last := entries[..|entries| - 1], entries[|entries| - 1];
      LatestIsBound(init, bound);
      assert entries == init + [last];
    }
  }

  /** The only entry that a proof can support is the one built from it, up to the discriminator. */
  lemma SupportedIsBuilt(entry: OpeningEntry, proof: Proof, sources: Sources)
    requires Validate(entry, Some(proof), sources) == Supported
    ensures BuildEntry(proof, sources.scan).Some?
    ensures var built := BuildEntry(proof, sources.scan).value;
            entry == AtRevision(built, entry.key.frontierRevision) && built.key.frontierRevision <= entry.key.frontierRevision
  {
    SupportedParts(entry, proof, sources);
    hide Create, FactMap, FactsVerdict, ReferencesVerdict, TicketMap, Validate, OpeningEntry.Valid, ProofMatches, EntryFrom, FactMatches;
    hide DealFact.Valid;
    var key, facts := entry.key.operationKey, FactMap(sources.scan.facts, entry.key.operationKey).value;
    FactMapIsTicketMap(sources.scan.facts, key);
    AllPresent(entry, Some(proof), facts, 0);
    var chosen := ReferencedFacts(entry, facts);
    SupportedTotals(entry, proof, facts);
    ChosenAscend(entry, facts);
    OrderedFactsAreEntries(chosen);
    BuiltFields(entry, proof, chosen, Create(chosen).value);
    assert FactsFor(proof.tickets, facts) == chosen;
  }

  lemma SupportedParts(entry: OpeningEntry, proof: Proof, sources: Sources)
    requires Validate(entry, Some(proof), sources) == Supported
    ensures entry.Valid() && ProofMatches(entry, proof) && sources.scan.ScanComplete?
    ensures FactMap(sources.scan.facts, entry.key.operationKey).Some?
    ensures var facts := FactMap(sources.scan.facts, entry.key.operationKey).value;
            && FactsVerdict(entry, Some(proof), facts) == Supported && ReferencesVerdict(entry, Some(proof), facts, 0) == Supported
            && forall ticket <- facts :: facts[ticket].dealTicket == ticket
  {
    hide Create, FactMap, ReferencesVerdict, CameLater;
    if FactMap(sources.scan.facts, entry.key.operationKey).Some? { MapFacts(sources.scan.facts, entry.key.operationKey); }
  }

  lemma SupportedTotals(entry: OpeningEntry, proof: Proof, facts: map<u64, DealFact>)
    requires FactsVerdict(entry, Some(proof), facts) == Supported
    ensures |proof.tickets| == |entry.references|
    ensures forall i :: 0 <= i < |entry.references| ==>
              proof.tickets[i] == entry.references[i].dealTicket && entry.references[i].dealTicket in facts
    ensures var frontier := Create(ReferencedFacts(entry, facts));
            frontier.Some? && frontier.value.brokerUnits == entry.brokerUnits && frontier.value.managedUnits == entry.managedUnits
  {
    hide Create;
    AllPresent(entry, Some(proof), facts, 0);
  }

  lemma ChosenAscend(entry: OpeningEntry, facts: map<u64, DealFact>)
    requires entry.Valid() && forall i :: 0 <= i < |entry.references| ==>
               entry.references[i].dealTicket in facts && facts[entry.references[i].dealTicket].dealTicket == entry.references[i].dealTicket
    ensures StrictlyAscending(ReferencedFacts(entry, facts))
  {
    ReferencesAscend(entry);
  }

  lemma ReferencesAscend(entry: OpeningEntry)
    requires entry.Valid()
    ensures forall i, j :: 0 <= i < j < |entry.references| ==> entry.references[i].dealTicket < entry.references[j].dealTicket
  {
    forall i, j | 0 <= i < j < |entry.references| ensures entry.references[i].dealTicket < entry.references[j].dealTicket {
      TicketsRise(entry, i, j);
    }
  }

  lemma {:induction false} TicketsRise(entry: OpeningEntry, i: nat, j: nat)
    requires entry.Valid() && i < j < |entry.references|
    ensures entry.references[i].dealTicket < entry.references[j].dealTicket
    decreases j
  {
    if i < j - 1 { TicketsRise(entry, i, j - 1); }
  }

  lemma BuiltFields(entry: OpeningEntry, proof: Proof, chosen: seq<DealFact>, frontier: Frontier)
    requires entry.Valid() && ProofMatches(entry, proof) && |chosen| == |entry.references| && frontier.entries == chosen
    requires forall i :: 0 <= i < |chosen| ==> FactMatches(entry, entry.references[i], chosen[i])
    requires forall f <- chosen :: f.Valid()
    requires frontier.brokerUnits == entry.brokerUnits && frontier.managedUnits == entry.managedUnits
    ensures EntryFrom(proof, frontier).Some?
    ensures var built := EntryFrom(proof, frontier).value;
            entry == AtRevision(built, entry.key.frontierRevision) && built.key.frontierRevision <= entry.key.frontierRevision
  {
    forall f <- chosen ensures f.receipt.sourceRevision <= entry.key.frontierRevision {
      var i :| 0 <= i < |chosen| && chosen[i] == f;
      assert FactMatches(entry, entry.references[i], chosen[i]);
    }
    LatestIsBound(chosen, entry.key.frontierRevision);
    forall i | 0 <= i < |chosen| ensures ReferenceTo(chosen[i]) == entry.references[i] && chosen[i] in chosen {
      assert FactMatches(entry, entry.references[i], chosen[i]);
    }
    assert ReferencesTo(chosen) == entry.references;
    assert FactMatches(entry, entry.references[0], chosen[0]) && chosen[0].Valid();
  }

  ghost function TicketsOf(facts: seq<DealFact>): set<u64> {
    set f | f in facts :: f.dealTicket
  }

  lemma TicketsOfReferences(entries: seq<DealFact>)
    ensures (set r | r in ReferencesTo(entries) :: r.dealTicket) == TicketsOf(entries)
  {
    var refs := ReferencesTo(entries);
    forall f <- entries ensures exists r :: r in refs && r.dealTicket == f.dealTicket {
      var i :| 0 <= i < |entries| && entries[i] == f;
      assert refs[i] in refs;
    }
    forall r <- refs ensures r.dealTicket in TicketsOf(entries) {
      var i :| 0 <= i < |refs| && refs[i] == r;
      assert entries[i] in entries;
    }
  }

  // ----- the validation loops

  method CollectFacts(facts: seq<DealFact>, key: OperationKey) returns (byTicket: Option<map<u64, DealFact>>)
    ensures byTicket == FactMap(facts, key)
  {
    hide DealFact.Valid;
    var found: map<u64, DealFact> := map[];
    for i := 0 to |facts|
      invariant FactMap(facts[..i], key) == Some(found)
    {
      assert facts[..i + 1][..i] == facts[..i];
      PrefixFails(facts, i + 1, key);
      var fact := facts[i];
      if fact.operationKey != key { continue; }
      if !fact.Valid() || fact.dealTicket in found {
        return None;
      }
      found := found[fact.dealTicket := fact];
    }
    assert facts[..|facts|] == facts;
    return Some(found);
  }

  lemma {:induction false} PrefixFails(facts: seq<DealFact>, i: nat, key: OperationKey)
    requires i <= |facts|
    ensures FactMap(facts[..i], key).None? ==> FactMap(facts, key).None?
    decreases |facts|
  {
    hide DealFact.Valid;
    if i == |facts| {
      assert facts[..i] == facts;
    } else {
      assert facts[..|facts| - 1][..i] == facts[..i];
      PrefixFails(facts[..|facts| - 1], i, key);
    }
  }

  lemma {:induction false} MapFacts(facts: seq<DealFact>, key: OperationKey)
    requires FactMap(facts, key).Some?
    ensures var m := FactMap(facts, key).value;
            && (forall f <- facts :: f.operationKey == key ==> f.dealTicket in m && m[f.dealTicket] == f)
            && (forall t <- m :: m[t] in facts && m[t].operationKey == key && m[t].dealTicket == t && m[t].Valid())
    decreases |facts|
  {
    hide DealFact.Valid;
    if facts != [] {
      var init, last := facts[..|facts| - 1], facts[|facts| - 1];
      MapFacts(init, key);
      assert facts == init + [last];
    }
  }

  /** The reference loop with its running maximum per observation graph. */
  method CheckReferences(entry: OpeningEntry, proof: Option<Proof>, facts: map<u64, DealFact>)
    returns (verdict: Support, latest: map<u64, u64>)
    ensures verdict == ReferencesVerdict(entry, proof, facts, 0)
    ensures verdict == Supported ==> forall g <- latest :: latest[g] == GraphRevision(entry.references, g)
    ensures verdict == Supported ==> forall g: u64 | g !in latest :: GraphRevision(entry.references, g) == 0
  {
    hide FactMatches;
    latest := map[];
    var references := entry.references;
    for i := 0 to |references|
      invariant ReferencesVerdict(entry, proof, facts, 0) == ReferencesVerdict(entry, proof, facts, i)
      invariant forall g <- latest :: latest[g] == GraphRevision(references[..i], g)
      invariant forall g: u64 | g !in latest :: GraphRevision(references[..i], g) == 0
    {
      var reference := references[i];
      assert references[..i + 1][..i] == references[..i];
      if reference.dealTicket !in facts {
        return SourceMissing, latest;
      }
      if proof.Some? && reference.dealTicket !in proof.value.tickets {
        return SourceInvalid, latest;
      }
      if !FactMatches(entry, reference, facts[reference.dealTicket]) {
        return SourceInvalid, latest;
      }
      var graph := reference.graphInstanceId;
      var known: u64 := if graph in latest then latest[graph] else 0;
      latest := latest[graph := if reference.sourceRevision > known then reference.sourceRevision else known];
    }
    assert references[..|references|] == references;
    return Supported, latest;
  }

  /** Every unreferenced fact of the operation must have come later. */
  method CheckOmitted(entry: OpeningEntry, facts: seq<DealFact>, frontier: Frontier, latest: map<u64, u64>) returns (sound: bool)
    requires FactMap(facts, entry.key.operationKey).Some?
    requires forall g <- latest :: latest[g] == GraphRevision(entry.references, g)
    requires forall g: u64 | g !in latest :: GraphRevision(entry.references, g) == 0
    ensures var m := FactMap(facts, entry.key.operationKey).value;
            sound <==> forall ticket <- m :: Referenced(entry, ticket) || CameLater(frontier, entry.references, m[ticket])
  {
    hide FactMap;
    hide DealFact.Compatible;
    ghost var m := FactMap(facts, entry.key.operationKey).value;
    MapFacts(facts, entry.key.operationKey);
    for i := 0 to |facts|
      invariant forall k :: 0 <= k < i && facts[k].operationKey == entry.key.operationKey ==>
                  Referenced(entry, facts[k].dealTicket) || CameLater(frontier, entry.references, facts[k])
    {
      var fact := facts[i];
      if fact.operationKey != entry.key.operationKey || Referenced(entry, fact.dealTicket) { continue; }
      var graph := fact.receipt.graphInstanceId;
      assert m[fact.dealTicket] == fact && fact.Valid();
      if !frontier.AcceptsIdentity(fact) || (graph in latest && fact.receipt.sourceRevision <= latest[graph]) {
        return false;
      }
    }
    return true;
  }

  method ValidateEntry(entry: OpeningEntry, proof: Option<Proof>, sources: Sources) returns (verdict: Support)
    ensures verdict == Validate(entry, proof, sources)
  {
    hide OpeningEntry.Valid;
    hide FactMap;
    hide ReferencesVerdict;
    hide Create;
    if !entry.Valid() || (proof.Some? && !ProofMatches(entry, proof.value)) {
      return SourceInvalid;
    }
    var journal := (sources.journal)(entry.key.operationKey);
    if journal.NoJournal? {
      return SourceMissing;
    }
    if journal.JournalIo? {
      return SourceIo;
    }
    if journal.BadJournal? || journal.resultRevision != entry.key.operationRevision {
      return SourceInvalid;
    }
    if sources.scan.ScanIo? {
      return SourceIo;
    }
    if sources.scan.ScanInvalid? {
      return SourceInvalid;
    }
    var facts := CollectFacts(sources.scan.facts, entry.key.operationKey);
    if facts.None? || |facts.value| < |entry.references| {
      return SourceInvalid;
    }
    var references, latest := CheckReferences(entry, proof, facts.value);
    if references != Supported {
      return references;
    }
    if proof.Some? && exists i :: 0 <= i < |entry.references| && proof.value.tickets[i] != entry.references[i].dealTicket {
      return SourceInvalid;
    }
    AllPresent(entry, proof, facts.value, 0);
    var frontier := CreateFrontier(ReferencedFacts(entry, facts.value));
    if frontier.None? || frontier.value.brokerUnits != entry.brokerUnits || frontier.value.managedUnits != entry.managedUnits {
      return SourceInvalid;
    }
    var sound := CheckOmitted(entry, sources.scan.facts, frontier.value, latest);
    return if sound then Supported else SourceInvalid;
  }
}
