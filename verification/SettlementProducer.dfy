/** The only producer of publications (src/dispatch/managed_deal_settlement_producer.hpp:57-280). */
module SettlementProducer {
  import opened MachineWords
  import opened Options
  import opened SettlementRecords

  /** The journal's part of the producer's test. */
  predicate Settleable(operation: OperationRecord, units: u64) {
    && operation.Valid() && operation.kind.Close? && operation.Settled() && operation.descriptor.Some? && operation.boundDeal != 0
    && operation.settledVolume != 0 && units != 0 && units <= operation.settledVolume
  }

  /** Earlier fact i belongs to the operation and to a deal of its own. */
  predicate PriorFits(operation: OperationRecord, prior: seq<DealSettlement>, i: nat, ticket: u64)
    requires i < |prior|
  {
    && prior[i].Valid() && prior[i].key.operationKey == operation.key && prior[i].key.account == operation.key.account
    && prior[i].sourceOperationRevision <= operation.revision && prior[i].key.dealTicket != ticket
    && forall j :: 0 <= j < i ==> prior[j].key.dealTicket != prior[i].key.dealTicket
  }

  // ----- the observation graph

  /** A deal of the history: `complete` if every required field is known, `traded` if its volume is
      finite and positive. */
  datatype ObservedDeal = ObservedDeal(
    ticket: u64, order: u64, position: u64, timeMsc: int, entry: u32, complete: bool, traded: bool)
  {
    predicate Closes() {
      entry == 1 || entry == 3
    }
  }

  /** What a graph shows beside the operation's baseline. `bound` is the verdict that graph and
      baseline are valid, of the account and of the descriptor, and that the window is covered. */
  datatype Observation = Observation(
    bound: bool, instance: u64, revision: u64, historyRevision: u64, baselineRevision: u64, baselineHistory: u64,
    from: int, to: int, deals: seq<ObservedDeal>, revisions: u64 -> u64)
  {
    predicate Fresh() {
      bound && revision > baselineRevision && historyRevision > baselineHistory
    }

    /** Belongs to the anchor's order and position, within the window, at the current revision. */
    predicate Current(anchor: ObservedDeal, deal: ObservedDeal) {
      && deal.order == anchor.order && deal.position == anchor.position && from <= deal.timeMsc <= to
      && revisions(deal.ticket) == historyRevision
    }

    predicate Usable(anchor: ObservedDeal, deal: ObservedDeal) {
      Current(anchor, deal) && deal.complete && deal.traded && deal.Closes()
    }
  }

  function DealOf(deals: seq<ObservedDeal>, ticket: u64): (deal: Option<ObservedDeal>)
    ensures deal.Some? ==> deal.value in deals && deal.value.ticket == ticket
    ensures deal.None? ==> forall d <- deals :: d.ticket != ticket
  {
    if deals == [] then None else if deals[0].ticket == ticket then Some(deals[0]) else DealOf(deals[1..], ticket)
  }

  predicate Known(prior: seq<DealSettlement>, ticket: u64) {
    exists fact <- prior :: fact.key.dealTicket == ticket
  }

  /** A current deal is either an earlier fact or the new deal. */
  predicate Accounted(o: Observation, anchor: ObservedDeal, prior: seq<DealSettlement>, ticket: u64, deal: ObservedDeal) {
    o.Current(anchor, deal) ==> deal.complete && deal.Closes() && (Known(prior, deal.ticket) || deal.ticket == ticket)
  }

  /** How many current deals are not yet facts. */
  function NewDeals(o: Observation, anchor: ObservedDeal, prior: seq<DealSettlement>, deals: seq<ObservedDeal>): nat {
    if deals == [] then 0
    else
      var last := deals[|deals| - 1];
      NewDeals(o, anchor, prior, deals[..|deals| - 1]) + if o.Current(anchor, last) && !Known(prior, last.ticket) then 1 else 0
  }

  predicate UsableTicket(o: Observation, anchor: ObservedDeal, ticket: u64) {
    DealOf(o.deals, ticket).Some? && o.Usable(anchor, DealOf(o.deals, ticket).value)
  }

  predicate IsAnchor(anchor: Option<ObservedDeal>) {
    anchor.Some? && anchor.value.complete && anchor.value.order != 0 && anchor.value.position != 0
  }

  /** The graph's part of the test: the new deal and every earlier one are usable beside the
      operation's anchor deal, and nothing else of the operation is current. */
  predicate Observed(o: Observation, anchorTicket: u64, ticket: u64, prior: seq<DealSettlement>) {
    var anchor := DealOf(o.deals, anchorTicket);
    && o.Fresh() && IsAnchor(anchor) && UsableTicket(o, anchor.value, ticket)
    && (forall fact <- prior :: UsableTicket(o, anchor.value, fact.key.dealTicket))
    && (forall deal <- o.deals :: Accounted(o, anchor.value, prior, ticket, deal))
    && NewDeals(o, anchor.value, prior, o.deals) == 1
  }

  // ----- the fact and its frontier

  /** The new fact, proved by the observation; `digest` is that of its evidence. */
  function Derive(operation: OperationRecord, o: Observation, ticket: u64, units: u64, digest: u64, prior: seq<DealSettlement>)
    : Option<DealSettlement>
  {
    var provenance := Provenance(o.instance, o.revision, o.revisions(ticket), digest);
    var fact := DealSettlement(DealSettlementKey(operation.key.account, operation.key, ticket), operation.revision, units, provenance);
    if Settleable(operation, units) && Observed(o, operation.boundDeal, ticket, prior)
       && (forall i :: 0 <= i < |prior| ==> PriorFits(operation, prior, i, ticket)) && fact.Valid()
    then Some(fact) else None
  }

  function EntryOf(fact: DealSettlement): FrontierEntry {
    FrontierEntry(fact.key.dealTicket, fact.sourceOperationRevision, fact.managedLogicalUnits)
  }

  function EntriesOf(facts: seq<DealSettlement>): seq<FrontierEntry> {
    seq(|facts|, i requires 0 <= i < |facts| => EntryOf(facts[i]))
  }

  function FrontierOf(operation: OperationRecord, provenance: Provenance, facts: seq<DealSettlement>): SettlementFrontier {
    SettlementFrontier(operation.key.account, operation.key, operation.revision, operation.settledVolume, provenance, EntriesOf(facts))
  }

  predicate Contributes(operation: OperationRecord, fact: DealSettlement) {
    fact.Valid() && fact.key.operationKey == operation.key && fact.sourceOperationRevision <= operation.revision
  }

  /** The cumulative frontier of facts, if it is complete. */
  function Cumulative(operation: OperationRecord, provenance: Provenance, facts: seq<DealSettlement>): Option<SettlementFrontier> {
    if operation.Valid() && operation.kind.Close? && operation.Settled() && operation.settledVolume != 0 && provenance.Valid()
       && (forall fact <- facts :: Contributes(operation, fact)) && FrontierOf(operation, provenance, facts).Valid()
    then Some(FrontierOf(operation, provenance, facts)) else None
  }

  /** One new fact, sealed together with the frontier that includes it. */
  function Produce(operation: OperationRecord, o: Observation, ticket: u64, units: u64, digest: u64, prior: seq<DealSettlement>)
    : Option<Publication>
  {
    var fact := Derive(operation, o, ticket, units, digest, prior);
    if fact.None? then None
    else
      var frontier := Cumulative(operation, fact.value.provenance, prior + [fact.value]);
      if frontier.None? then None else Some(Publication(fact.value, frontier.value))
  }

  /** The loop over the facts builds that frontier. */
  method BuildFrontier(operation: OperationRecord, provenance: Provenance, facts: seq<DealSettlement>)
    returns (result: Option<SettlementFrontier>)
    ensures result == Cumulative(operation, provenance, facts)
  {
    if !operation.Valid() || !operation.kind.Close? || !operation.Settled() || operation.settledVolume == 0 || !provenance.Valid()
       || facts == [] {
      return None;
    }
    var frontier := FrontierOf(operation, provenance, []);
    for i := 0 to |facts|
      invariant frontier == FrontierOf(operation, provenance, facts[..i])
      invariant forall fact <- facts[..i] :: Contributes(operation, fact)
    {
      var fact := facts[i];
      if !Contributes(operation, fact) {
        return None;
      }
      assert facts[..i + 1] == facts[..i] + [fact];
      assert EntriesOf(facts[..i + 1]) == EntriesOf(facts[..i]) + [EntryOf(fact)];
      frontier := frontier.(entries := frontier.entries + [EntryOf(fact)]);
    }
    assert facts[..|facts|] == facts;
    var valid := ValidateFrontier(frontier);
    return if valid then Some(frontier) else None;
  }

  method FindDeal(deals: seq<ObservedDeal>, ticket: u64) returns (deal: Option<ObservedDeal>)
    ensures deal == DealOf(deals, ticket)
  {
    assert deals[0..] == deals;
    for i := 0 to |deals|
      invariant DealOf(deals, ticket) == DealOf(deals[i..], ticket)
    {
      if deals[i].ticket == ticket {
        return Some(deals[i]);
      }
      assert deals[i..][1..] == deals[i + 1..];
    }
    return None;
  }

  /** Every earlier fact fits, and its deal is usable. */
  method CheckPriors(operation: OperationRecord, o: Observation, anchor: ObservedDeal, ticket: u64, prior: seq<DealSettlement>)
    returns (fit: bool)
    ensures fit <==> && (forall i :: 0 <= i < |prior| ==> PriorFits(operation, prior, i, ticket))
                     && (forall fact <- prior :: UsableTicket(o, anchor, fact.key.dealTicket))
  {
    for index := 0 to |prior|
      invariant forall i :: 0 <= i < index ==> PriorFits(operation, prior, i, ticket) && UsableTicket(o, anchor, prior[i].key.dealTicket)
    {
      var fact := prior[index];
      ghost var fits := PriorFits(operation, prior, index, ticket);
      if !fact.Valid() || fact.key.operationKey != operation.key || fact.key.account != operation.key.account
         || fact.sourceOperationRevision > operation.revision || fact.key.dealTicket == ticket {
        return false;
      }
      var deal := FindDeal(o.deals, fact.key.dealTicket);
      if deal.None? || !o.Usable(anchor, deal.value) {
        return false;
      }
      for previous := 0 to index
        invariant forall j :: 0 <= j < previous ==> prior[j].key.dealTicket != fact.key.dealTicket
      {
        if prior[previous].key.dealTicket == fact.key.dealTicket { return false; }
      }
    }
    return true;
  }

  /** The count of current deals that are not yet facts must come to exactly the new one. */
  method CheckContributions(o: Observation, anchor: ObservedDeal, ticket: u64, prior: seq<DealSettlement>) returns (sole: bool)
    ensures sole <==> (forall deal <- o.deals :: Accounted(o, anchor, prior, ticket, deal)) && NewDeals(o, anchor, prior, o.deals) == 1
  {
    var contributions := 0;
    for i := 0 to |o.deals|
      invariant forall deal <- o.deals[..i] :: Accounted(o, anchor, prior, ticket, deal)
      invariant contributions == NewDeals(o, anchor, prior, o.deals[..i])
    {
      var candidate := o.deals[i];
      assert o.deals[..i + 1] == o.deals[..i] + [candidate];
      if !o.Current(anchor, candidate) { continue; }
      if !candidate.complete || !candidate.Closes() {
        assert !Accounted(o, anchor, prior, ticket, candidate);
        return false;
      }
      if Known(prior, candidate.ticket) { continue; }
      contributions := contributions + 1;
      if candidate.ticket != ticket {
        assert !Accounted(o, anchor, prior, ticket, candidate);
        return false;
      }
    }
    assert o.deals[..|o.deals|] == o.deals;
    return contributions == 1;
  }

  /** The producer: the checks of operation, observation and earlier facts, and the sealed pair. */
  method Create(operation: OperationRecord, o: Observation, ticket: u64, units: u64, digest: u64, prior: seq<DealSettlement>)
    returns (result: Option<Publication>)
    ensures result == Produce(operation, o, ticket, units, digest, prior)
  {
    hide PriorFits;
    if !Settleable(operation, units) || !o.Fresh() {
      return None;
    }
    var anchor := FindDeal(o.deals, operation.boundDeal);
    var deal := FindDeal(o.deals, ticket);
    if anchor.None? || deal.None? || !IsAnchor(anchor) || !o.Usable(anchor.value, deal.value) {
      return None;
    }
    var fit := CheckPriors(operation, o, anchor.value, ticket, prior);
    if !fit {
      return None;
    }
    var sole := CheckContributions(o, anchor.value, ticket, prior);
    if !sole {
      return None;
    }
    var fact := DealSettlement(DealSettlementKey(operation.key.account, operation.key, ticket), operation.revision, units,
                               Provenance(o.instance, o.revision, o.revisions(ticket), digest));
    if !fact.Valid() {
      return None;
    }
    var frontier := BuildFrontier(operation, fact.provenance, prior + [fact]);
    return if frontier.None? then None else Some(Publication(fact, frontier.value));
  }

  // ----- exactly when it delivers

  /** What the graph shows at the anchor's order and position, within the window and at its current
      history revision, is one closing deal for each fact and nothing else. */
  ghost predicate ShowsExactly(o: Observation, anchor: ObservedDeal, facts: seq<DealSettlement>) {
    && (forall deal <- o.deals ::
          o.Current(anchor, deal) <==> deal.order == anchor.order && deal.position == anchor.position && o.from <= deal.timeMsc
                                       && deal.timeMsc <= o.to && o.revisions(deal.ticket) == o.historyRevision)
    && (forall fact <- facts ::
          && DealOf(o.deals, fact.key.dealTicket).Some?
          && var deal := DealOf(o.deals, fact.key.dealTicket).value;
             o.Current(anchor, deal) && deal.complete && deal.traded && (deal.entry == 1 || deal.entry == 3))
    && (forall deal <- o.deals | o.Current(anchor, deal) ::
          deal.complete && (deal.entry == 1 || deal.entry == 3) && Known(facts, deal.ticket))
  }

  /** The graph lists the deal once. */
  ghost predicate ShownOnce(o: Observation, anchor: ObservedDeal, deals: seq<ObservedDeal>, ticket: u64) {
    forall i, j :: 0 <= i < j < |deals| && deals[i].ticket == ticket && deals[j].ticket == ticket ==>
      !o.Current(anchor, deals[i]) || !o.Current(anchor, deals[j])
  }

  /** Facts of the operation about deals of their own, no newer than its record. */
  ghost predicate OwnFacts(operation: OperationRecord, prior: seq<DealSettlement>, ticket: u64) {
    && (forall fact <- prior ::
          && fact.Valid() && fact.key.operationKey == operation.key && fact.sourceOperationRevision <= operation.revision
          && fact.key.dealTicket != ticket)
    && forall i, j :: 0 <= i < j < |prior| ==> prior[i].key.dealTicket != prior[j].key.dealTicket
  }

  /** The one new fact of an observation. */
  ghost function NewFact(operation: OperationRecord, o: Observation, ticket: u64, units: u64, digest: u64): DealSettlement {
    DealSettlement(DealSettlementKey(operation.key.account, operation.key, ticket), operation.revision, units,
                   Provenance(o.instance, o.revision, o.historyRevision, digest))
  }

  lemma {:induction false} NewDealsCounts(o: Observation, anchor: ObservedDeal, prior: seq<DealSettlement>, deals: seq<ObservedDeal>,
                                          ticket: u64)
    requires forall deal <- deals :: Accounted(o, anchor, prior, ticket, deal)
    requires !Known(prior, ticket)
    ensures NewDeals(o, anchor, prior, deals) == 0 <==> forall deal <- deals :: deal.ticket == ticket ==> !o.Current(anchor, deal)
    ensures NewDeals(o, anchor, prior, deals) <= 1 <==> ShownOnce(o, anchor, deals, ticket)
    decreases |deals|
  {
    if deals != [] {
      var init, last := deals[..|deals| - 1], deals[|deals| - 1];
      assert deals == init + [last];
      hide Observation.Current;
      hide Known;
      NewDealsCounts(o, anchor, prior, init, ticket);
      assert Accounted(o, anchor, prior, ticket, last);
      if o.Current(anchor, last) && last.ticket == ticket {
        forall i | 0 <= i < |init| ensures deals[i] == init[i] && init[i] in init {}
        if deal :| deal in init && deal.ticket == ticket && o.Current(anchor, deal) {
          var i :| 0 <= i < |init| && init[i] == deal;
          assert deals[i] == deal && deals[|init|] == last;
        }
      }
    }
  }

  lemma ObservedIff(o: Observation, anchorTicket: u64, ticket: u64, prior: seq<DealSettlement>, fact: DealSettlement)
    requires fact.key.dealTicket == ticket && !Known(prior, ticket)
    ensures var anchor := DealOf(o.deals, anchorTicket);
            Observed(o, anchorTicket, ticket, prior) <==>
            && o.bound && o.baselineRevision < o.revision && o.baselineHistory < o.historyRevision
            && anchor.Some? && anchor.value.complete && anchor.value.order != 0 && anchor.value.position != 0
            && ShowsExactly(o, anchor.value, prior + [fact]) && ShownOnce(o, anchor.value, o.deals, ticket)
  {
    hide ShownOnce;
    hide NewDeals;
    var facts := prior + [fact];
    assert fact in facts && forall f <- prior :: f in facts;
    forall t: u64 ensures Known(facts, t) <==> Known(prior, t) || t == ticket {
      if Known(prior, t) {
        var f :| f in prior && f.key.dealTicket == t;
        assert f in facts;
      }
    }
    var anchor := DealOf(o.deals, anchorTicket);
    if anchor.Some? && forall deal <- o.deals :: Accounted(o, anchor.value, prior, ticket, deal) {
      NewDealsCounts(o, anchor.value, prior, o.deals, ticket);
    }
  }

  lemma FrontierFits(operation: OperationRecord, facts: seq<DealSettlement>, fact: DealSettlement)
    requires facts != [] && facts[|facts| - 1] == fact && operation.Valid() && fact.Valid() && fact.key.operationKey == operation.key
    requires OwnFacts(operation, facts[..|facts| - 1], fact.key.dealTicket) && fact.sourceOperationRevision == operation.revision
    ensures FrontierOf(operation, fact.provenance, facts).Valid() <==>
            operation.settledVolume != 0 && SumOfUnits(EntriesOf(facts)) == operation.settledVolume
  {
    var entries, prior := EntriesOf(facts), facts[..|facts| - 1];
    forall k | 0 <= k < |entries| ensures EntryFits(entries, k, operation.revision) {
      assert k < |facts| - 1 ==> facts[k] == prior[k] && prior[k] in prior;
      forall j | 0 <= j < k ensures entries[j].dealTicket != entries[k].dealTicket {
        assert facts[j] == prior[j] && prior[j] in prior;
      }
    }
    hide EntriesOf;
    hide OperationRecord.VolumeAgrees;
  }

  lemma PriorsFitIff(operation: OperationRecord, prior: seq<DealSettlement>, ticket: u64)
    ensures (forall i :: 0 <= i < |prior| ==> PriorFits(operation, prior, i, ticket)) <==> OwnFacts(operation, prior, ticket)
  {
    if OwnFacts(operation, prior, ticket) {
      forall i | 0 <= i < |prior| ensures PriorFits(operation, prior, i, ticket) { assert prior[i] in prior; }
    }
    if forall i :: 0 <= i < |prior| ==> PriorFits(operation, prior, i, ticket) {
      forall i, j | 0 <= i < j < |prior| ensures prior[i].key.dealTicket != prior[j].key.dealTicket {
        assert PriorFits(operation, prior, j, ticket);
      }
      forall fact <- prior ensures fact.Valid() && fact.key.operationKey == operation.key
                                   && fact.sourceOperationRevision <= operation.revision && fact.key.dealTicket != ticket {
        var i :| 0 <= i < |prior| && prior[i] == fact;
        assert PriorFits(operation, prior, i, ticket);
      }
    }
  }

  lemma ObservedRevision(o: Observation, anchorTicket: u64, ticket: u64, prior: seq<DealSettlement>)
    ensures Observed(o, anchorTicket, ticket, prior) ==> o.revisions(ticket) == o.historyRevision
  {
  }

  /** The producer delivers exactly if the record is a filled or partially filled close whose settled
      volume is the sum of all facts, the earlier ones are its own, and a bound and newer graph shows
      just the deals of those facts; and then the fact and frontier are these. */
  lemma ProducedIff(operation: OperationRecord, o: Observation, ticket: u64, units: u64, digest: u64, prior: seq<DealSettlement>)
    ensures var anchor, fact := DealOf(o.deals, operation.boundDeal), NewFact(operation, o, ticket, units, digest);
            var delivered :=
              && operation.Valid() && operation.kind.Close? && (operation.state.PartiallyFilled? || operation.state.Filled?)
              && operation.descriptor.Some? && operation.boundDeal != 0
              && fact.Valid() && OwnFacts(operation, prior, ticket)
              && operation.settledVolume == SumOfUnits(EntriesOf(prior + [fact]))
              && o.bound && o.baselineRevision < o.revision && o.baselineHistory < o.historyRevision
              && anchor.Some? && anchor.value.complete && anchor.value.order != 0 && anchor.value.position != 0
              && ShowsExactly(o, anchor.value, prior + [fact]) && ShownOnce(o, anchor.value, o.deals, ticket);
            Produce(operation, o, ticket, units, digest, prior) ==
            if delivered then
              Some(Publication(fact, SettlementFrontier(operation.key.account, operation.key, operation.revision, operation.settledVolume,
                                                        fact.provenance, EntriesOf(prior + [fact]))))
            else None
  {
    var fact := NewFact(operation, o, ticket, units, digest);
    var facts := prior + [fact];
    PriorsFitIff(operation, prior, ticket);
    if operation.Valid() && OwnFacts(operation, prior, ticket) {
      ObservedIff(o, operation.boundDeal, ticket, prior, fact);
      ObservedRevision(o, operation.boundDeal, ticket, prior);
      if fact.Valid() {
        assert facts[..|prior|] == prior;
        FrontierFits(operation, facts, fact);
        assert EntriesOf(facts)[|prior|] == EntryOf(fact);
      }
    }
    hide Observed, ShowsExactly, ShownOnce, PriorFits, OperationRecord.VolumeAgrees, SettlementFrontier.Valid, EntriesOf;
  }

  /** Whatever the producer delivers is sealed, for the journal record it was asked about. */
  lemma ProducedIsSealed(operation: OperationRecord, o: Observation, ticket: u64, units: u64, digest: u64, prior: seq<DealSettlement>)
    requires Produce(operation, o, ticket, units, digest, prior).Some?
    ensures var p := Produce(operation, o, ticket, units, digest, prior).value;
            && p.Sealed() && p.fact.key.dealTicket == ticket && p.fact.managedLogicalUnits == units
            && p.frontier.operationKey == operation.key && p.frontier.operationRevision == operation.revision
            && p.frontier.settledVolume == operation.settledVolume
  {
    hide Observed;
  }

  lemma EntryNamesFact(facts: seq<DealSettlement>, ticket: u64)
    ensures (exists e <- EntriesOf(facts) :: e.dealTicket == ticket) <==> Known(facts, ticket)
  {
    if e :| e in EntriesOf(facts) && e.dealTicket == ticket {
      var k :| 0 <= k < |facts| && EntriesOf(facts)[k] == e;
      assert facts[k] in facts;
    }
    if fact :| fact in facts && fact.key.dealTicket == ticket {
      var k :| 0 <= k < |facts| && facts[k] == fact;
      assert EntriesOf(facts)[k] in EntriesOf(facts);
    }
  }

  /** In an accepted graph the deals of the earlier facts and the new deal are the current ones. */
  lemma CurrentIsAccounted(o: Observation, anchorTicket: u64, ticket: u64, prior: seq<DealSettlement>, other: u64)
    requires Observed(o, anchorTicket, ticket, prior)
    ensures var anchor := DealOf(o.deals, anchorTicket).value;
            Known(prior, other) || other == ticket <==> exists deal <- o.deals :: deal.ticket == other && o.Current(anchor, deal)
  {
    var anchor := DealOf(o.deals, anchorTicket).value;
    if Known(prior, other) || other == ticket {
      assert UsableTicket(o, anchor, other);
    }
    if deal :| deal in o.deals && deal.ticket == other && o.Current(anchor, deal) {
      assert Accounted(o, anchor, prior, ticket, deal);
    }
  }

  /** The frontier is complete: it has an entry for a ticket exactly if the graph shows a current deal
      of the operation with that ticket. */
  lemma FrontierIsComplete(operation: OperationRecord, o: Observation, ticket: u64, units: u64, digest: u64, prior: seq<DealSettlement>,
                           other: u64)
    requires Produce(operation, o, ticket, units, digest, prior).Some?
    ensures var p := Produce(operation, o, ticket, units, digest, prior).value;
            var anchor := DealOf(o.deals, operation.boundDeal);
            && anchor.Some?
            && ((exists e <- p.frontier.entries :: e.dealTicket == other)
                <==> exists deal <- o.deals :: deal.ticket == other && o.Current(anchor.value, deal))
  {
    hide PriorFits;
    var p := Produce(operation, o, ticket, units, digest, prior).value;
    assert DealOf(o.deals, operation.boundDeal).Some? && Observed(o, operation.boundDeal, ticket, prior);
    hide Observed, DealOf, Observation.Current, SettlementFrontier.Valid;
    CurrentIsAccounted(o, operation.boundDeal, ticket, prior, other);
    EntryNamesFact(prior + [p.fact], other);
    assert Known(prior + [p.fact], other) <==> Known(prior, other) || p.fact.key.dealTicket == other;
  }

  // ----- every sealed publication can be produced

  function PlainDeal(ticket: u64): ObservedDeal {
    ObservedDeal(ticket, 1, 1, 0, 1, true, true)
  }

  /** A graph that shows exactly the deals of a publication as current, and the operation's anchor. */
  function Showing(p: Publication, anchorTicket: u64): Observation {
    var entries, proof := p.frontier.entries, p.fact.provenance;
    Observation(true, proof.graphInstanceId, proof.graphRevision, proof.historyDealsRevision, 0, 0, 0, 0,
                seq(|entries|, i requires 0 <= i < |entries| => PlainDeal(entries[i].dealTicket))
                + if exists e <- entries :: e.dealTicket == anchorTicket then [] else [PlainDeal(anchorTicket)],
                ticket => if exists e <- entries :: e.dealTicket == ticket then proof.historyDealsRevision else 0)
  }

  lemma ShownDeals(p: Publication, anchorTicket: u64)
    ensures var o := Showing(p, anchorTicket);
            && (forall deal <- o.deals :: deal == PlainDeal(deal.ticket))
            && (forall e <- p.frontier.entries :: DealOf(o.deals, e.dealTicket) == Some(PlainDeal(e.dealTicket)))
            && DealOf(o.deals, anchorTicket) == Some(PlainDeal(anchorTicket))
  {
    var o, entries := Showing(p, anchorTicket), p.frontier.entries;
    forall e <- entries ensures DealOf(o.deals, e.dealTicket) == Some(PlainDeal(e.dealTicket)) {
      var i :| 0 <= i < |entries| && entries[i] == e;
      assert o.deals[i] == PlainDeal(e.dealTicket) && o.deals[i] in o.deals;
    }
    if !exists e <- entries :: e.dealTicket == anchorTicket {
      assert o.deals[|entries|] == PlainDeal(anchorTicket) && o.deals[|entries|] in o.deals;
    }
  }

  /** Only the last of the shown deals is not among the earlier facts. */
  lemma {:induction false} OneNewDeal(o: Observation, anchor: ObservedDeal, prior: seq<DealSettlement>, deals: seq<ObservedDeal>, at: nat)
    requires at < |deals| && o.Current(anchor, deals[at]) && !Known(prior, deals[at].ticket)
    requires forall i :: 0 <= i < |deals| && i != at ==> !o.Current(anchor, deals[i]) || Known(prior, deals[i].ticket)
    ensures NewDeals(o, anchor, prior, deals) == 1
    decreases |deals|
  {
    if at == |deals| - 1 {
      NoNewDeals(o, anchor, prior, deals[..at]);
    } else {
      OneNewDeal(o, anchor, prior, deals[..|deals| - 1], at);
    }
  }

  lemma {:induction false} NoNewDeals(o: Observation, anchor: ObservedDeal, prior: seq<DealSettlement>, deals: seq<ObservedDeal>)
    requires forall i :: 0 <= i < |deals| ==> !o.Current(anchor, deals[i]) || Known(prior, deals[i].ticket)
    ensures NewDeals(o, anchor, prior, deals) == 0
    decreases |deals|
  {
    if deals != [] { NoNewDeals(o, anchor, prior, deals[..|deals| - 1]); }
  }

  lemma ShownIsObserved(p: Publication, operation: OperationRecord, prior: seq<DealSettlement>)
    requires p.Sealed() && EntriesOf(prior) == p.frontier.entries[..|p.frontier.entries| - 1]
    ensures Observed(Showing(p, operation.boundDeal), operation.boundDeal, p.fact.key.dealTicket, prior)
  {
    var o, entries, last := Showing(p, operation.boundDeal), p.frontier.entries, |p.frontier.entries| - 1;
    var anchor := PlainDeal(operation.boundDeal);
    ShownDeals(p, operation.boundDeal);
    assert entries[last] in entries;
    assert EntryFits(entries, last, p.frontier.operationRevision);
    forall fact <- prior ensures UsableTicket(o, anchor, fact.key.dealTicket) && fact.key.dealTicket != p.fact.key.dealTicket {
      var i :| 0 <= i < |prior| && prior[i] == fact;
      assert EntryOf(fact) == EntriesOf(prior)[i] == entries[i] && entries[i] in entries;
    }
    forall i | 0 <= i < last ensures Known(prior, entries[i].dealTicket) {
      assert EntriesOf(prior)[i] == EntryOf(prior[i]);
      assert prior[i] in prior;
    }
    forall i | 0 <= i < |o.deals| ensures Accounted(o, anchor, prior, p.fact.key.dealTicket, o.deals[i])
      ensures i != last ==> !o.Current(anchor, o.deals[i]) || Known(prior, o.deals[i].ticket)
    {
      if i < |entries| { assert o.deals[i] == PlainDeal(entries[i].dealTicket); }
    }
    assert o.deals[last] == PlainDeal(entries[last].dealTicket);
    OneNewDeal(o, anchor, prior, o.deals, last);
  }

  /** ... and every sealed publication can be delivered: for any journal record at its revision and
      volume, any earlier facts that its other entries pin, and a graph that shows its deals. */
  lemma SealedIsProduced(p: Publication, operation: OperationRecord, prior: seq<DealSettlement>)
    requires p.Sealed() && operation.Valid() && operation.kind.Close? && operation.Settled()
    requires operation.descriptor.Some? && operation.boundDeal != 0
    requires operation.key == p.frontier.operationKey && operation.revision == p.frontier.operationRevision
    requires operation.settledVolume == p.frontier.settledVolume
    requires EntriesOf(prior) == p.frontier.entries[..|p.frontier.entries| - 1]
    requires forall fact <- prior :: fact.Valid() && fact.key.operationKey == operation.key
    ensures Produce(operation, Showing(p, operation.boundDeal), p.fact.key.dealTicket, p.fact.managedLogicalUnits,
                    p.fact.provenance.evidenceDigest, prior) == Some(p)
  {
    hide Observed;
    var entries := p.frontier.entries;
    ShownIsObserved(p, operation, prior);
    assert EntriesOf(prior + [p.fact]) == entries by {
      assert entries == entries[..|entries| - 1] + [entries[|entries| - 1]];
      assert EntriesOf(prior + [p.fact]) == EntriesOf(prior) + [EntryOf(p.fact)];
    }
    forall i | 0 <= i < |prior| ensures PriorFits(operation, prior, i, p.fact.key.dealTicket) {
      assert EntryOf(prior[i]) == EntriesOf(prior)[i] == entries[i];
      assert EntryFits(entries, i, operation.revision) && EntryFits(entries, |entries| - 1, operation.revision);
      forall j | 0 <= j < i ensures prior[j].key.dealTicket != prior[i].key.dealTicket {
        assert EntryOf(prior[j]) == EntriesOf(prior)[j] == entries[j];
      }
    }
    forall fact <- prior + [p.fact] ensures Contributes(operation, fact) {
      if fact in prior {
        var i :| 0 <= i < |prior| && prior[i] == fact;
        assert PriorFits(operation, prior, i, p.fact.key.dealTicket);
      }
    }
    assert entries[|entries| - 1] in entries;
    assert SumOfUnits(entries) == SumOfUnits(entries[..|entries| - 1]) + p.fact.managedLogicalUnits;
  }

  /** A sealed publication can be read back once stored: its ticket occurs in one entry only. */
  lemma SealedIsWellFormed(p: Publication)
    requires p.Sealed()
    ensures p.WellFormed()
  {
    var entries := p.frontier.entries;
    var last := |entries| - 1;
    assert entries[last] in entries;
    assert EntryFits(entries, last, p.frontier.operationRevision);
    forall e <- entries | e.dealTicket == p.fact.key.dealTicket ensures e.Pins(p.fact) {
      var k :| 0 <= k < |entries| && entries[k] == e;
    }
  }
}
