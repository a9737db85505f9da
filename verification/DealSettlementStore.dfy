/** Crash-safe publication of settlement facts and frontiers
    (src/dispatch/file_managed_deal_settlement_store.cpp:376-849). */
module DealSettlementStore {
  import opened MachineWords
  import opened Options
  import opened SettlementRecords

  type Path = nat

  /** File names are derived from hashed identities: any functions at all, so that every
      result below also holds when different identities collide on one name. */
  datatype Paths = Paths(
    fact: DealSettlementKey -> Path, frontier: (OperationKey, u64) -> Path, pending: (DealSettlementKey, u64) -> Path)

  datatype Disk = Disk(facts: map<Path, DealSettlement>, frontiers: map<Path, SettlementFrontier>, pendings: map<Path, Publication>)

  /** One write-temporary-then-rename. */
  datatype Step = WritePending(p: Publication) | WriteFact(fact: DealSettlement) | WriteFrontier(frontier: SettlementFrontier)

  datatype Status =
    | Committed | AlreadyCommitted | Conflict | InvalidRecord | MissingOperationRecord | InvalidOperationRecord
    | MissingFact | NoPending | IoError

  function FactPath(paths: Paths, fact: DealSettlement): Path {
    (paths.fact)(fact.key)
  }

  function FrontierPath(paths: Paths, frontier: SettlementFrontier): Path {
    (paths.frontier)(frontier.operationKey, frontier.operationRevision)
  }

  function PendingPath(paths: Paths, p: Publication): Path {
    (paths.pending)(p.fact.key, p.frontier.operationRevision)
  }

  function Apply(paths: Paths, disk: Disk, step: Step): Disk {
    match step
    case WritePending(p) => disk.(pendings := disk.pendings[PendingPath(paths, p) := p])
    case WriteFact(fact) => disk.(facts := disk.facts[FactPath(paths, fact) := fact])
    case WriteFrontier(frontier) => disk.(frontiers := disk.frontiers[FrontierPath(paths, frontier) := frontier])
  }

  function ApplyAll(paths: Paths, disk: Disk, steps: seq<Step>): Disk
    decreases |steps|
  {
    if steps == [] then disk else ApplyAll(paths, Apply(paths, disk, steps[0]), steps[1..])
  }

  /** A fact on disk that this frontier entry pins. */
  predicate EntryOnDisk(paths: Paths, facts: map<Path, DealSettlement>, frontier: SettlementFrontier, e: FrontierEntry) {
    var path := (paths.fact)(frontier.FactKey(e));
    path in facts && facts[path].key == frontier.FactKey(e) && e.Pins(facts[path])
  }

  // ----- commit, as a decision about the file steps to take

  /** The first frontier entry that cannot be pinned decides. */
  function EntriesVerdict(paths: Paths, disk: Disk, p: Publication, i: nat, referenced: bool): (v: Option<Status>)
    requires i <= |p.frontier.entries|
    ensures v.Some? ==> v.value.InvalidRecord? || v.value.MissingFact?
    decreases |p.frontier.entries| - i
  {
    if i == |p.frontier.entries| then (if referenced then None else Some(InvalidRecord))
    else
      var e := p.frontier.entries[i];
      if e.dealTicket == p.fact.key.dealTicket then
        if e.Pins(p.fact) then EntriesVerdict(paths, disk, p, i + 1, true) else Some(InvalidRecord)
      else if (paths.fact)(p.frontier.FactKey(e)) !in disk.facts then Some(MissingFact)
      else if EntryOnDisk(paths, disk.facts, p.frontier, e) then EntriesVerdict(paths, disk, p, i + 1, referenced)
      else Some(InvalidRecord)
  }

  /** The journal state that authorizes a frontier. */
  predicate Authorizes(record: OperationRecord, frontier: SettlementFrontier) {
    && record.Valid() && record.key == frontier.operationKey && record.revision == frontier.operationRevision
    && record.kind.Close? && (record.state.PartiallyFilled? || record.state.Filled?)
    && AtLeastResultPersisted(record.journalState)
    && record.descriptor.Some? && record.descriptor.value.requestedVolume != 0
    && record.settledVolume != 0 && record.settledVolume == frontier.settledVolume
    && record.settledVolume <= record.descriptor.value.requestedVolume
  }

  function JournalVerdict(load: JournalLoad, frontier: SettlementFrontier): Option<Status> {
    match load
    case JournalNotFound => Some(MissingOperationRecord)
    case JournalInvalid => Some(InvalidOperationRecord)
    case JournalIoError => Some(IoError)
    case JournalFound(record) => if Authorizes(record, frontier) then None else Some(InvalidOperationRecord)
  }

  /** What that comes to, given that the frontier and the record are valid: the journal stands at
      exactly the frontier's revision, as a close order filled in part or in full by exactly the
      frontier's volume, with a result on record and a volume that was asked for. */
  predicate SettledAt(load: JournalLoad, frontier: SettlementFrontier) {
    && load.JournalFound? && load.record.Valid() && load.record.key == frontier.operationKey
    && load.record.revision == frontier.operationRevision && load.record.kind == Close
    && load.record.state in {PartiallyFilled, Filled} && load.record.journalState in {ResultPersisted, JournalReconciling}
    && load.record.descriptor.Some? && load.record.descriptor.value.requestedVolume > 0
    && load.record.settledVolume == frontier.settledVolume
  }

  lemma AuthorizedIffSettled(load: JournalLoad, frontier: SettlementFrontier)
    requires frontier.Valid()
    ensures JournalVerdict(load, frontier).None? <==> SettledAt(load, frontier)
    ensures SettledAt(load, frontier) ==> 0 < load.record.settledVolume <= load.record.descriptor.value.requestedVolume
  {
  }

  predicate FactFree(paths: Paths, disk: Disk, fact: DealSettlement) {
    FactPath(paths, fact) in disk.facts ==> disk.facts[FactPath(paths, fact)] == fact
  }

  predicate FrontierFree(paths: Paths, disk: Disk, frontier: SettlementFrontier) {
    FrontierPath(paths, frontier) in disk.frontiers ==> disk.frontiers[FrontierPath(paths, frontier)] == frontier
  }

  predicate PendingFree(paths: Paths, disk: Disk, p: Publication) {
    PendingPath(paths, p) in disk.pendings ==> disk.pendings[PendingPath(paths, p)] == p
  }

  predicate Published(paths: Paths, disk: Disk, p: Publication) {
    FactPath(paths, p.fact) in disk.facts && FrontierPath(paths, p.frontier) in disk.frontiers
  }

  /** Pending first, then the fact, and last the frontier that publishes both. */
  function Missing(paths: Paths, disk: Disk, p: Publication): seq<Step> {
    (if PendingPath(paths, p) in disk.pendings then [] else [WritePending(p)])
    + (if FactPath(paths, p.fact) in disk.facts then [] else [WriteFact(p.fact)])
    + (if FrontierPath(paths, p.frontier) in disk.frontiers then [] else [WriteFrontier(p.frontier)])
  }

  function Decide(paths: Paths, disk: Disk, journal: Journal, p: Publication): (Status, seq<Step>) {
    if !p.Matched() then (InvalidRecord, [])
    else if !FactFree(paths, disk, p.fact) || !FrontierFree(paths, disk, p.frontier) || !PendingFree(paths, disk, p) then (Conflict, [])
    else if EntriesVerdict(paths, disk, p, 0, false).Some? then (EntriesVerdict(paths, disk, p, 0, false).value, [])
    else if Published(paths, disk, p) then (AlreadyCommitted, [])
    else if JournalVerdict(journal(p.frontier.operationKey), p.frontier).Some? then
      (JournalVerdict(journal(p.frontier.operationKey), p.frontier).value, [])
    else if PendingPath(paths, p) !in disk.pendings && !p.Fits() then (InvalidRecord, [])
    else (Committed, Missing(paths, disk, p))
  }

  /** A commit of which only the first `survive` file steps take effect before a crash or a
      failing write ends it. */
  function Outcome(paths: Paths, disk: Disk, journal: Journal, p: Publication, survive: nat): (Status, Disk) {
    var (status, steps) := Decide(paths, disk, journal, p);
    if survive >= |steps| then (status, ApplyAll(paths, disk, steps))
    else (IoError, ApplyAll(paths, disk, steps[..survive]))
  }

  // ----- what every reachable disk satisfies

  ghost predicate FactsNamed(paths: Paths, facts: map<Path, DealSettlement>) {
    forall path <- facts :: FactPath(paths, facts[path]) == path
  }

  /** Every frontier stands under its own name, and each of its entries is backed by a fact. */
  ghost predicate FrontiersComplete(paths: Paths, facts: map<Path, DealSettlement>, frontiers: map<Path, SettlementFrontier>) {
    forall path <- frontiers :: FrontierPath(paths, frontiers[path]) == path && FrontierComplete(paths, facts, frontiers[path])
  }

  ghost predicate FrontierComplete(paths: Paths, facts: map<Path, DealSettlement>, frontier: SettlementFrontier) {
    frontier.Valid() && forall e <- frontier.entries :: EntryOnDisk(paths, facts, frontier, e)
  }

  /** A manifest waits at most for its own fact. */
  ghost predicate PendingReady(paths: Paths, facts: map<Path, DealSettlement>, p: Publication) {
    && p.WellFormed()
    && forall e <- p.frontier.entries | e.dealTicket != p.fact.key.dealTicket :: EntryOnDisk(paths, facts, p.frontier, e)
  }

  ghost predicate PendingsReady(paths: Paths, facts: map<Path, DealSettlement>, pendings: map<Path, Publication>) {
    forall path <- pendings :: PendingPath(paths, pendings[path]) == path && PendingReady(paths, facts, pendings[path])
  }

  ghost predicate Consistent(paths: Paths, disk: Disk) {
    && FactsNamed(paths, disk.facts) && FrontiersComplete(paths, disk.facts, disk.frontiers)
    && PendingsReady(paths, disk.facts, disk.pendings)
  }

  /** Records are only ever added. */
  ghost predicate Extends(old_: Disk, new_: Disk) {
    && (forall path <- old_.facts :: path in new_.facts && new_.facts[path] == old_.facts[path])
    && (forall path <- old_.frontiers :: path in new_.frontiers && new_.frontiers[path] == old_.frontiers[path])
    && (forall path <- old_.pendings :: path in new_.pendings && new_.pendings[path] == old_.pendings[path])
  }

  lemma {:induction false} EntriesAccepted(paths: Paths, disk: Disk, p: Publication, i: nat, referenced: bool)
    requires i <= |p.frontier.entries|
    ensures EntriesVerdict(paths, disk, p, i, referenced).None?
       <==> && (referenced || exists k :: i <= k < |p.frontier.entries| && p.frontier.entries[k].dealTicket == p.fact.key.dealTicket)
            && forall k :: i <= k < |p.frontier.entries| ==>
                 if p.frontier.entries[k].dealTicket == p.fact.key.dealTicket then p.frontier.entries[k].Pins(p.fact)
                 else EntryOnDisk(paths, disk.facts, p.frontier, p.frontier.entries[k])
    decreases |p.frontier.entries| - i
  {
    if i < |p.frontier.entries| {
      var own := p.frontier.entries[i].dealTicket == p.fact.key.dealTicket;
      EntriesAccepted(paths, disk, p, i + 1, referenced || own);
    }
  }

  /** The entry checks accept exactly the publications whose manifest could be read back and
      waits at most for its own fact. */
  lemma AcceptedIsReady(paths: Paths, disk: Disk, p: Publication)
    requires p.Matched()
    ensures EntriesVerdict(paths, disk, p, 0, false).None? <==> PendingReady(paths, disk.facts, p)
  {
    EntriesAccepted(paths, disk, p, 0, false);
    var entries := p.frontier.entries;
    if PendingReady(paths, disk.facts, p) {
      var e :| e in entries && e.dealTicket == p.fact.key.dealTicket;
      var k :| 0 <= k < |entries| && entries[k] == e;
    }
  }

  // ----- one file step at a time

  /** No identity involved collides with a different durable record. */
  ghost predicate Acceptable(paths: Paths, disk: Disk, p: Publication) {
    && Consistent(paths, disk) && PendingReady(paths, disk.facts, p)
    && FactFree(paths, disk, p.fact) && FrontierFree(paths, disk, p.frontier) && PendingFree(paths, disk, p)
  }

  /** A new fact leaves everything that was backed backed. */
  lemma EntriesStay(paths: Paths, disk: Disk, fact: DealSettlement)
    requires Consistent(paths, disk) && FactPath(paths, fact) !in disk.facts
    ensures Consistent(paths, Apply(paths, disk, WriteFact(fact)))
    ensures forall p: Publication {:trigger PendingReady(paths, disk.facts, p)} ::
              PendingReady(paths, disk.facts, p) ==> PendingReady(paths, Apply(paths, disk, WriteFact(fact)).facts, p)
  {
    hide Publication.WellFormed;
    hide SettlementFrontier.Valid;
  }

  lemma PendingStep(paths: Paths, disk: Disk, p: Publication)
    requires Acceptable(paths, disk, p) && PendingPath(paths, p) !in disk.pendings
    ensures Acceptable(paths, Apply(paths, disk, WritePending(p)), p) && Extends(disk, Apply(paths, disk, WritePending(p)))
  {
    hide PendingReady;
    hide FrontiersComplete;
    hide FactsNamed;
  }

  lemma FactStep(paths: Paths, disk: Disk, p: Publication)
    requires Acceptable(paths, disk, p) && FactPath(paths, p.fact) !in disk.facts
    ensures Acceptable(paths, Apply(paths, disk, WriteFact(p.fact)), p) && Extends(disk, Apply(paths, disk, WriteFact(p.fact)))
  {
    hide PendingReady;
    hide Consistent;
    EntriesStay(paths, disk, p.fact);
  }

  lemma FrontierStep(paths: Paths, disk: Disk, p: Publication)
    requires Acceptable(paths, disk, p) && FactPath(paths, p.fact) in disk.facts && FrontierPath(paths, p.frontier) !in disk.frontiers
    ensures Acceptable(paths, Apply(paths, disk, WriteFrontier(p.frontier)), p)
    ensures Extends(disk, Apply(paths, disk, WriteFrontier(p.frontier)))
  {
    hide PendingsReady;
    hide FactsNamed;
    BackedByOwnFact(paths, disk.facts, p);
    hide PendingReady;
    hide FrontierComplete;
  }

  /** Once its own fact is there, a waiting publication is complete. */
  lemma BackedByOwnFact(paths: Paths, facts: map<Path, DealSettlement>, p: Publication)
    requires PendingReady(paths, facts, p) && FactPath(paths, p.fact) in facts && facts[FactPath(paths, p.fact)] == p.fact
    ensures FrontierComplete(paths, facts, p.frontier)
  {
    hide SettlementFrontier.Valid;
    forall e <- p.frontier.entries ensures EntryOnDisk(paths, facts, p.frontier, e) {
      if e.dealTicket == p.fact.key.dealTicket { assert p.frontier.FactKey(e) == p.fact.key; }
    }
  }

  /** A frontier on disk has its own fact beside it. */
  lemma FrontierImpliesFact(paths: Paths, disk: Disk, p: Publication)
    requires Acceptable(paths, disk, p) && FrontierPath(paths, p.frontier) in disk.frontiers
    ensures FactPath(paths, p.fact) in disk.facts
  {
    var e :| e in p.frontier.entries && e.dealTicket == p.fact.key.dealTicket;
    assert EntryOnDisk(paths, disk.facts, p.frontier, e);
  }

  /** Each missing file, written in order, keeps the store consistent and leaves the rest to do. */
  lemma FirstMissing(paths: Paths, disk: Disk, p: Publication)
    requires Acceptable(paths, disk, p) && Missing(paths, disk, p) != []
    ensures var next := Apply(paths, disk, Missing(paths, disk, p)[0]);
            && Acceptable(paths, next, p) && Extends(disk, next)
            && Missing(paths, next, p) == Missing(paths, disk, p)[1..]
  {
    hide Acceptable;
    if PendingPath(paths, p) !in disk.pendings {
      PendingStep(paths, disk, p);
    } else if FactPath(paths, p.fact) !in disk.facts {
      FactStep(paths, disk, p);
    } else {
      FrontierStep(paths, disk, p);
    }
  }

  lemma {:induction false} PrefixKeeps(paths: Paths, disk: Disk, p: Publication, k: nat)
    requires Acceptable(paths, disk, p) && k <= |Missing(paths, disk, p)|
    ensures var after := ApplyAll(paths, disk, Missing(paths, disk, p)[..k]);
            && Acceptable(paths, after, p) && Extends(disk, after)
            && Missing(paths, after, p) == Missing(paths, disk, p)[k..]
            && ApplyAll(paths, after, Missing(paths, disk, p)[k..]) == ApplyAll(paths, disk, Missing(paths, disk, p))
    decreases k
  {
    hide Acceptable;
    hide Missing;
    hide Apply;
    var steps := Missing(paths, disk, p);
    if k > 0 {
      FirstMissing(paths, disk, p);
      var next := Apply(paths, disk, steps[0]);
      PrefixKeeps(paths, next, p, k - 1);
      assert steps[..k][1..] == steps[1..][..k - 1];
      assert steps[1..][k - 1..] == steps[k..];
    } else {
      assert steps[k..] == steps;
    }
  }

  lemma CommitIsAcceptable(paths: Paths, disk: Disk, journal: Journal, p: Publication)
    requires Consistent(paths, disk)
    ensures var (status, steps) := Decide(paths, disk, journal, p);
            && (status.Committed? ==> Acceptable(paths, disk, p) && steps == Missing(paths, disk, p))
            && (!status.Committed? ==> steps == [])
            && (status.AlreadyCommitted? ==> Acceptable(paths, disk, p) && Published(paths, disk, p))
  {
    if p.Matched() { AcceptedIsReady(paths, disk, p); }
  }

  /** Wherever a commit stops, every frontier on disk stays fully backed by facts, every manifest
      waits at most for its own fact, and nothing durable was changed or removed. */
  lemma CommitKeepsConsistent(paths: Paths, disk: Disk, journal: Journal, p: Publication, survive: nat)
    requires Consistent(paths, disk)
    ensures Consistent(paths, Outcome(paths, disk, journal, p, survive).1)
    ensures Extends(disk, Outcome(paths, disk, journal, p, survive).1)
  {
    hide Consistent;
    hide Decide;
    hide Missing;
    CommitIsAcceptable(paths, disk, journal, p);
    var (status, steps) := Decide(paths, disk, journal, p);
    if status.Committed? {
      PrefixKeeps(paths, disk, p, if survive >= |steps| then |steps| else survive);
      assert steps[..|steps|] == steps;
    }
  }

  predicate HasManifest(paths: Paths, pendings: map<Path, Publication>, fact: DealSettlement) {
    var path := (paths.pending)(fact.key, fact.sourceOperationRevision);
    path in pendings && pendings[path].fact == fact
  }

  /** The manifest that announced a fact stays beside it, under the name of the fact's revision. */
  ghost predicate Manifested(paths: Paths, disk: Disk) {
    forall path <- disk.facts :: HasManifest(paths, disk.pendings, disk.facts[path])
  }

  lemma FirstKeepsManifested(paths: Paths, disk: Disk, p: Publication)
    requires Acceptable(paths, disk, p) && Manifested(paths, disk) && Missing(paths, disk, p) != []
    ensures Manifested(paths, Apply(paths, disk, Missing(paths, disk, p)[0]))
  {
    hide Consistent;
    assert p.WellFormed();
    hide PendingReady;
  }

  lemma {:induction false} PrefixKeepsManifested(paths: Paths, disk: Disk, p: Publication, k: nat)
    requires Acceptable(paths, disk, p) && Manifested(paths, disk) && k <= |Missing(paths, disk, p)|
    ensures Manifested(paths, ApplyAll(paths, disk, Missing(paths, disk, p)[..k]))
    decreases k
  {
    hide Acceptable;
    hide Missing;
    hide Apply;
    hide Manifested;
    var steps := Missing(paths, disk, p);
    if k > 0 {
      FirstMissing(paths, disk, p);
      FirstKeepsManifested(paths, disk, p);
      PrefixKeepsManifested(paths, Apply(paths, disk, steps[0]), p, k - 1);
      assert steps[..k][1..] == steps[1..][..k - 1];
    }
  }

  /** Wherever a commit stops, no fact is on disk without its manifest. */
  lemma CommitKeepsManifested(paths: Paths, disk: Disk, journal: Journal, p: Publication, survive: nat)
    requires Consistent(paths, disk) && Manifested(paths, disk)
    ensures Manifested(paths, Outcome(paths, disk, journal, p, survive).1)
  {
    hide Consistent;
    hide Decide;
    hide Missing;
    hide Manifested;
    CommitIsAcceptable(paths, disk, journal, p);
    var (status, steps) := Decide(paths, disk, journal, p);
    if status.Committed? {
      PrefixKeepsManifested(paths, disk, p, if survive >= |steps| then |steps| else survive);
      assert steps[..|steps|] == steps;
    }
  }

  /** For an acceptable publication only the journal and the size limit are left to ask. */
  lemma DecideAcceptable(paths: Paths, disk: Disk, journal: Journal, p: Publication)
    requires Acceptable(paths, disk, p)
    ensures Decide(paths, disk, journal, p)
         == if Published(paths, disk, p) then (AlreadyCommitted, [])
            else if JournalVerdict(journal(p.frontier.operationKey), p.frontier).Some? then
              (JournalVerdict(journal(p.frontier.operationKey), p.frontier).value, [])
            else if PendingPath(paths, p) !in disk.pendings && !p.Fits() then (InvalidRecord, [])
            else (Committed, Missing(paths, disk, p))
  {
    hide Missing;
    hide JournalVerdict;
    hide EntriesVerdict;
    hide Consistent;
    assert p.Matched();
    AcceptedIsReady(paths, disk, p);
    hide PendingReady;
  }

  /** Repeating an interrupted commit with an unchanged journal reaches the uninterrupted result. */
  lemma ReplayReaches(paths: Paths, disk: Disk, journal: Journal, p: Publication, survive: nat)
    requires Consistent(paths, disk)
    ensures var full := Outcome(paths, disk, journal, p, 3);
            var again := Outcome(paths, Outcome(paths, disk, journal, p, survive).1, journal, p, 3);
            && again.1 == full.1
            && (full.0.Committed? ==> again.0.Committed? || again.0.AlreadyCommitted?)
            && (!full.0.Committed? ==> again.0 == full.0)
  {
    hide Decide;
    hide JournalVerdict;
    hide Acceptable;
    hide Consistent;
    CommitIsAcceptable(paths, disk, journal, p);
    var (status, steps) := Decide(paths, disk, journal, p);
    if status.Committed? {
      var k := if survive >= |steps| then |steps| else survive;
      PrefixKeeps(paths, disk, p, k);
      DecideAcceptable(paths, disk, journal, p);
      JournalNeverCommits(journal(p.frontier.operationKey), p.frontier);
      assert steps[..|steps|] == steps;
      var after := ApplyAll(paths, disk, steps[..k]);
      DecideAcceptable(paths, after, journal, p);
      assert |Missing(paths, after, p)| <= 3;
      if k == 0 { assert after == disk; }
    }
  }

  lemma JournalNeverCommits(load: JournalLoad, frontier: SettlementFrontier)
    ensures JournalVerdict(load, frontier) != Some(Committed)
  {
  }

  /** The disk after any number of interrupted attempts. */
  function AfterCrashes(paths: Paths, disk: Disk, journal: Journal, p: Publication, crashes: seq<nat>): Disk
    decreases |crashes|
  {
    if crashes == [] then disk
    else AfterCrashes(paths, Outcome(paths, disk, journal, p, crashes[0]).1, journal, p, crashes[1..])
  }

  lemma {:induction false} ReplayAfterCrashes(paths: Paths, disk: Disk, journal: Journal, p: Publication, crashes: seq<nat>)
    requires Consistent(paths, disk)
    ensures Outcome(paths, AfterCrashes(paths, disk, journal, p, crashes), journal, p, 3).1 == Outcome(paths, disk, journal, p, 3).1
    decreases |crashes|
  {
    hide Consistent;
    hide Outcome;
    if crashes != [] {
      CommitKeepsConsistent(paths, disk, journal, p, crashes[0]);
      ReplayReaches(paths, disk, journal, p, crashes[0]);
      ReplayAfterCrashes(paths, Outcome(paths, disk, journal, p, crashes[0]).1, journal, p, crashes[1..]);
    }
  }

  // ----- what a reader sees

  datatype LoadResult = Found(fact: DealSettlement) | NotFound | InvalidLoad

  /** Some frontier entry names exactly this fact. */
  predicate PinnedBy(disk: Disk, path: Path, key: DealSettlementKey)
    requires path in disk.frontiers
  {
    exists e <- disk.frontiers[path].entries :: disk.frontiers[path].FactKey(e) == key
  }

  predicate Referenced(disk: Disk, key: DealSettlementKey) {
    exists path <- disk.frontiers :: PinnedBy(disk, path, key)
  }

  /** A frontier that a scan rejects: misnamed, not backed, or at odds with the fact asked for. */
  predicate BrokenFor(paths: Paths, disk: Disk, path: Path, fact: DealSettlement)
    requires path in disk.frontiers
  {
    var frontier := disk.frontiers[path];
    || FrontierPath(paths, frontier) != path
    || exists e <- frontier.entries :: !EntryOnDisk(paths, disk.facts, frontier, e) || (frontier.FactKey(e) == fact.key && !e.Pins(fact))
  }

  function Load(paths: Paths, disk: Disk, key: DealSettlementKey): LoadResult {
    var path := (paths.fact)(key);
    if !key.Valid() then InvalidLoad
    else if path !in disk.facts then NotFound
    else if disk.facts[path].key != key then InvalidLoad
    else if exists other <- disk.frontiers :: BrokenFor(paths, disk, other, disk.facts[path]) then InvalidLoad
    else if Referenced(disk, key) then Found(disk.facts[path])
    else NotFound
  }

  datatype FrontierLoad = FrontierFound(frontier: SettlementFrontier) | FrontierNotFound | FrontierInvalid

  function LoadFrontier(paths: Paths, disk: Disk, key: OperationKey, revision: u64): FrontierLoad {
    var path := (paths.frontier)(key, revision);
    if !key.Valid() || revision == 0 then FrontierInvalid
    else if path !in disk.frontiers then FrontierNotFound
    else
      var frontier := disk.frontiers[path];
      if frontier.operationKey != key || frontier.operationRevision != revision then FrontierInvalid
      else if exists e <- frontier.entries :: !EntryOnDisk(paths, disk.facts, frontier, e) then FrontierInvalid
      else FrontierFound(frontier)
  }

  /** What a load answers on any disk: the record of that very key, if every frontier stands under its
      own name over facts as it pins them, and one of them names the key; none, if there is no such
      record or frontier; and otherwise the store is refused as invalid. */
  lemma LoadIff(paths: Paths, disk: Disk, key: DealSettlementKey, fact: DealSettlement)
    ensures var present, sound := HasFact(paths, disk, key), forall path <- disk.frontiers :: SoundFrontier(paths, disk, path);
            && (Load(paths, disk, key) == Found(fact) <==>
                  present && sound && fact == disk.facts[(paths.fact)(key)] && Referenced(disk, key))
            && (Load(paths, disk, key).NotFound? <==>
                  key.Valid() && ((paths.fact)(key) !in disk.facts || (present && sound && !Referenced(disk, key))))
  {
    if HasFact(paths, disk, key) {
      var stored := disk.facts[(paths.fact)(key)];
      forall path <- disk.frontiers ensures BrokenFor(paths, disk, path, stored) <==> !SoundFrontier(paths, disk, path) {
        var frontier := disk.frontiers[path];
        forall e <- frontier.entries | frontier.FactKey(e) == key && !e.Pins(stored) ensures !EntryOnDisk(paths, disk.facts, frontier, e) {}
      }
    }
  }

  predicate HasFact(paths: Paths, disk: Disk, key: DealSettlementKey) {
    key.Valid() && (paths.fact)(key) in disk.facts && disk.facts[(paths.fact)(key)].key == key
  }

  /** The file has its frontier's own name, and each entry's fact is on disk as it pins it. */
  ghost predicate SoundFrontier(paths: Paths, disk: Disk, path: Path)
    requires path in disk.frontiers
  {
    var frontier := disk.frontiers[path];
    && path == (paths.frontier)(frontier.operationKey, frontier.operationRevision)
    && forall e <- frontier.entries :: EntryOnDisk(paths, disk.facts, frontier, e)
  }

  lemma LoadFrontierIff(paths: Paths, disk: Disk, key: OperationKey, revision: u64, frontier: SettlementFrontier)
    ensures var path := (paths.frontier)(key, revision);
            && (LoadFrontier(paths, disk, key, revision) == FrontierFound(frontier) <==>
                  && key.Valid() && revision > 0 && path in disk.frontiers && disk.frontiers[path] == frontier
                  && frontier.operationKey == key && frontier.operationRevision == revision && SoundFrontier(paths, disk, path))
            && (LoadFrontier(paths, disk, key, revision).FrontierNotFound? <==> key.Valid() && revision > 0 && path !in disk.frontiers)
  {
  }

  /** On a consistent disk no scan fails: a fact is visible exactly when a frontier pins it. */
  lemma VisibleIffPinned(paths: Paths, disk: Disk, key: DealSettlementKey)
    requires Consistent(paths, disk) && key.Valid()
    ensures Load(paths, disk, key).Found? <==> Referenced(disk, key)
    ensures Referenced(disk, key) ==> Load(paths, disk, key) == Found(disk.facts[(paths.fact)(key)])
    ensures (paths.fact)(key) in disk.facts && disk.facts[(paths.fact)(key)].key == key
            ==> Load(paths, disk, key) == if Referenced(disk, key) then Found(disk.facts[(paths.fact)(key)]) else NotFound
  {
    hide SettlementFrontier.Valid;
    hide PendingsReady;
    hide FactsNamed;
    forall path <- disk.frontiers, fact: DealSettlement | (paths.fact)(fact.key) in disk.facts && disk.facts[(paths.fact)(fact.key)] == fact
      ensures !BrokenFor(paths, disk, path, fact)
    {
      assert FrontierComplete(paths, disk.facts, disk.frontiers[path]);
    }
    if Referenced(disk, key) {
      var path :| path in disk.frontiers && PinnedBy(disk, path, key);
      assert FrontierComplete(paths, disk.facts, disk.frontiers[path]);
    }
  }

  /** What was visible stays visible, unchanged. */
  lemma VisibilityIsMonotone(paths: Paths, before: Disk, after: Disk, key: DealSettlementKey)
    requires Consistent(paths, before) && Consistent(paths, after) && Extends(before, after)
    requires Load(paths, before, key).Found?
    ensures Load(paths, after, key) == Load(paths, before, key)
  {
    VisibleIffPinned(paths, before, key);
    VisibleIffPinned(paths, after, key);
    hide Consistent;
    var path :| path in before.frontiers && PinnedBy(before, path, key);
    assert PinnedBy(after, path, key);
  }

  lemma SuccessPublishes(paths: Paths, disk: Disk, journal: Journal, p: Publication, survive: nat)
    requires Consistent(paths, disk)
    ensures var (status, after) := Outcome(paths, disk, journal, p, survive);
            status.Committed? || status.AlreadyCommitted? ==>
              && Acceptable(paths, after, p) && Published(paths, after, p)
  {
    hide Decide;
    hide Acceptable;
    hide Consistent;
    CommitIsAcceptable(paths, disk, journal, p);
    var (status, steps) := Decide(paths, disk, journal, p);
    if status.Committed? && survive >= |steps| {
      PrefixKeeps(paths, disk, p, |steps|);
      assert steps[..|steps|] == steps;
    }
  }

  /** Publication is atomic for readers: success makes the fact and its frontier loadable, and
      an interrupted or refused commit shows nothing new at all. */
  lemma CommitIsAtomic(paths: Paths, disk: Disk, journal: Journal, p: Publication, survive: nat)
    requires Consistent(paths, disk)
    ensures var (status, after) := Outcome(paths, disk, journal, p, survive);
            && (status.Committed? || status.AlreadyCommitted? ==>
                  && Load(paths, after, p.fact.key) == Found(p.fact)
                  && FrontierPath(paths, p.frontier) in after.frontiers && after.frontiers[FrontierPath(paths, p.frontier)] == p.frontier)
            && (!status.Committed? ==> forall key: DealSettlementKey :: Load(paths, after, key).Found? <==> Load(paths, disk, key).Found?)
  {
    var (status, after) := Outcome(paths, disk, journal, p, survive);
    CommitKeepsConsistent(paths, disk, journal, p, survive);
    SuccessPublishes(paths, disk, journal, p, survive);
    hide Consistent;
    if status.Committed? || status.AlreadyCommitted? {
      VisibleIffPinned(paths, after, p.fact.key);
      var e :| e in p.frontier.entries && e.dealTicket == p.fact.key.dealTicket;
      assert p.frontier.FactKey(e) == p.fact.key;
      assert PinnedBy(after, FrontierPath(paths, p.frontier), p.fact.key);
    }
    if !status.Committed? {
      InterruptedKeepsFrontiers(paths, disk, journal, p, survive);
      forall key: DealSettlementKey ensures Load(paths, after, key).Found? <==> Load(paths, disk, key).Found? {
        if key.Valid() {
          VisibleIffPinned(paths, after, key);
          VisibleIffPinned(paths, disk, key);
          SameFrontiersSameReferences(disk, after, key);
        }
      }
    }
  }

  lemma SameFrontiersSameReferences(a: Disk, b: Disk, key: DealSettlementKey)
    requires a.frontiers == b.frontiers
    ensures Referenced(a, key) <==> Referenced(b, key)
  {
    forall path <- a.frontiers ensures PinnedBy(a, path, key) == PinnedBy(b, path, key) {}
  }

  /** The frontier is the last file a commit writes. */
  lemma InterruptedKeepsFrontiers(paths: Paths, disk: Disk, journal: Journal, p: Publication, survive: nat)
    requires Consistent(paths, disk) && !Outcome(paths, disk, journal, p, survive).0.Committed?
    ensures Outcome(paths, disk, journal, p, survive).1.frontiers == disk.frontiers
  {
    hide Decide;
    hide Consistent;
    CommitIsAcceptable(paths, disk, journal, p);
    var (status, steps) := Decide(paths, disk, journal, p);
    if status.Committed? && survive < |steps| {
      if FrontierPath(paths, p.frontier) in disk.frontiers { FrontierImpliesFact(paths, disk, p); }
      NoFrontierYet(paths, disk, steps[..survive]);
    }
  }

  lemma {:induction false} NoFrontierYet(paths: Paths, disk: Disk, steps: seq<Step>)
    requires forall i :: 0 <= i < |steps| ==> !steps[i].WriteFrontier?
    ensures ApplyAll(paths, disk, steps).frontiers == disk.frontiers
    decreases |steps|
  {
    if steps != [] { NoFrontierYet(paths, Apply(paths, disk, steps[0]), steps[1..]); }
  }

  // ----- whole runs

  datatype Attempt = Attempt(journal: Journal, p: Publication, survive: nat)

  function Run(paths: Paths, disk: Disk, attempts: seq<Attempt>): Disk
    decreases |attempts|
  {
    if attempts == [] then disk
    else Run(paths, Outcome(paths, disk, attempts[0].journal, attempts[0].p, attempts[0].survive).1, attempts[1..])
  }

  /** Whatever commits are attempted, with whatever journals and wherever each one stops: the store
      stays consistent, records are immutable, and visible facts stay visible. */
  lemma {:induction false} RunKeepsStore(paths: Paths, disk: Disk, attempts: seq<Attempt>)
    requires Consistent(paths, disk)
    ensures Consistent(paths, Run(paths, disk, attempts)) && Extends(disk, Run(paths, disk, attempts))
    ensures forall key: DealSettlementKey | Load(paths, disk, key).Found? ::
              Load(paths, Run(paths, disk, attempts), key) == Load(paths, disk, key)
    decreases |attempts|
  {
    hide Consistent;
    hide Outcome;
    hide Load;
    if attempts != [] {
      var a := attempts[0];
      CommitKeepsConsistent(paths, disk, a.journal, a.p, a.survive);
      RunKeepsStore(paths, Outcome(paths, disk, a.journal, a.p, a.survive).1, attempts[1..]);
    }
    forall key: DealSettlementKey | Load(paths, disk, key).Found?
      ensures Load(paths, Run(paths, disk, attempts), key) == Load(paths, disk, key)
    {
      VisibilityIsMonotone(paths, disk, Run(paths, disk, attempts), key);
    }
  }

  lemma EmptyIsConsistent(paths: Paths)
    ensures Consistent(paths, Disk(map[], map[], map[]))
  {
  }

  // ----- recovery

  /** The exact condition under which every pending publication can be completed, decided on the
      disk before recovery starts. */
  ghost predicate Recoverable(paths: Paths, disk: Disk, journal: Journal) {
    && (forall path <- disk.pendings ::
          && FactFree(paths, disk, disk.pendings[path].fact) && FrontierFree(paths, disk, disk.pendings[path].frontier)
          && (FrontierPath(paths, disk.pendings[path].frontier) in disk.frontiers || JournalAllows(journal, disk.pendings[path])))
    && forall a <- disk.pendings, b <- disk.pendings :: Compatible(paths, disk.pendings[a], disk.pendings[b])
  }

  predicate JournalAllows(journal: Journal, p: Publication) {
    SettledAt(journal(p.frontier.operationKey), p.frontier)
  }

  lemma AllowedIffSilent(journal: Journal, p: Publication)
    ensures p.Matched() ==> (JournalVerdict(journal(p.frontier.operationKey), p.frontier).None? <==> JournalAllows(journal, p))
  {
    if p.Matched() { AuthorizedIffSettled(journal(p.frontier.operationKey), p.frontier); }
  }

  /** Two publications do not need one file name for different contents. */
  predicate Compatible(paths: Paths, a: Publication, b: Publication) {
    && (FactPath(paths, a.fact) == FactPath(paths, b.fact) ==> a.fact == b.fact)
    && (FrontierPath(paths, a.frontier) == FrontierPath(paths, b.frontier) ==> a.frontier == b.frontier)
  }

  /** What the recovery loop keeps after completing the pendings in `done`. */
  ghost predicate Recovering(paths: Paths, start: Disk, disk: Disk, journal: Journal, done: set<Path>) {
    && Consistent(paths, disk) && Extends(start, disk) && disk.pendings == start.pendings && done <= start.pendings.Keys
    && (forall path <- done :: Acceptable(paths, disk, start.pendings[path]) && Published(paths, disk, start.pendings[path]))
    && Traced(start, disk, journal, done)
  }

  /** Every record that recovery added stems from a completed manifest that the journal allowed. */
  ghost predicate Traced(start: Disk, disk: Disk, journal: Journal, done: set<Path>)
    requires done <= start.pendings.Keys
  {
    && (forall path <- disk.facts :: path in start.facts
          || exists d <- done :: disk.facts[path] == start.pendings[d].fact && JournalAllows(journal, start.pendings[d]))
    && (forall path <- disk.frontiers :: path in start.frontiers
          || exists d <- done :: disk.frontiers[path] == start.pendings[d].frontier && JournalAllows(journal, start.pendings[d]))
  }

  /** Every fact and frontier added is of a manifest that the journal has settled. */
  ghost predicate OnlySettledAdded(start: Disk, disk: Disk, journal: Journal) {
    && (forall path <- disk.facts :: path in start.facts
          || exists d <- start.pendings :: disk.facts[path] == start.pendings[d].fact && JournalAllows(journal, start.pendings[d]))
    && (forall path <- disk.frontiers :: path in start.frontiers
          || exists d <- start.pendings :: disk.frontiers[path] == start.pendings[d].frontier && JournalAllows(journal, start.pendings[d]))
  }

  /** No manifest of a consistent store waits for another fact, so recovery never defers. */
  lemma RecoveryNeverWaits(paths: Paths, disk: Disk, journal: Journal, path: Path)
    requires Consistent(paths, disk) && path in disk.pendings
    ensures !Decide(paths, disk, journal, disk.pendings[path]).0.MissingFact?
  {
    hide EntriesVerdict;
    var p := disk.pendings[path];
    AcceptedIsReady(paths, disk, p);
  }

  lemma MissingApplied(paths: Paths, disk: Disk, p: Publication)
    requires Acceptable(paths, disk, p) && PendingPath(paths, p) in disk.pendings
    ensures ApplyAll(paths, disk, Missing(paths, disk, p))
         == Disk(disk.facts[FactPath(paths, p.fact) := p.fact], disk.frontiers[FrontierPath(paths, p.frontier) := p.frontier], disk.pendings)
  {
    hide Consistent;
    hide PendingReady;
    var steps := Missing(paths, disk, p);
    var fact, frontier := WriteFact(p.fact), WriteFrontier(p.frontier);
    ApplyUpToTwo(paths, disk, fact, frontier);
    if FactPath(paths, p.fact) in disk.facts {
      assert disk.facts == disk.facts[FactPath(paths, p.fact) := p.fact];
      if FrontierPath(paths, p.frontier) in disk.frontiers {
        assert disk.frontiers == disk.frontiers[FrontierPath(paths, p.frontier) := p.frontier];
        assert steps == [];
      } else {
        assert steps == [frontier];
      }
    } else if FrontierPath(paths, p.frontier) in disk.frontiers {
      assert disk.frontiers == disk.frontiers[FrontierPath(paths, p.frontier) := p.frontier];
      assert steps == [fact];
    } else {
      assert steps == [fact, frontier];
    }
  }

  lemma ApplyUpToTwo(paths: Paths, disk: Disk, a: Step, b: Step)
    ensures ApplyAll(paths, disk, []) == disk && ApplyAll(paths, disk, [a]) == Apply(paths, disk, a)
    ensures ApplyAll(paths, disk, [b]) == Apply(paths, disk, b)
    ensures ApplyAll(paths, disk, [a, b]) == Apply(paths, Apply(paths, disk, a), b)
  {
    assert [a, b][1..] == [b] && [b][1..] == [] && [a][1..] == [];
    assert ApplyAll(paths, Apply(paths, disk, a), [b]) == ApplyAll(paths, Apply(paths, Apply(paths, disk, a), b), []);
  }

  lemma PendingNamed(paths: Paths, disk: Disk, path: Path)
    requires Consistent(paths, disk) && path in disk.pendings
    ensures PendingPath(paths, disk.pendings[path]) == path && PendingReady(paths, disk.facts, disk.pendings[path])
  {
  }

  lemma StaysAcceptable(paths: Paths, disk: Disk, after: Disk, p: Publication)
    requires Acceptable(paths, disk, p) && Published(paths, disk, p) && Extends(disk, after) && Consistent(paths, after)
    requires PendingPath(paths, p) in disk.pendings
    ensures Acceptable(paths, after, p) && Published(paths, after, p)
  {
    PendingNamed(paths, after, PendingPath(paths, p));
    hide Consistent;
  }

  /** A manifest can be completed now. */
  ghost predicate CanComplete(paths: Paths, disk: Disk, journal: Journal, p: Publication) {
    Acceptable(paths, disk, p) && (Published(paths, disk, p) || JournalAllows(journal, p))
  }

  predicate Succeeded(status: Status) {
    status.Committed? || status.AlreadyCommitted?
  }

  lemma CompletesIff(paths: Paths, disk: Disk, journal: Journal, p: Publication)
    requires Consistent(paths, disk) && PendingPath(paths, p) in disk.pendings
    ensures var (status, after) := Outcome(paths, disk, journal, p, 3);
            && (Succeeded(status) <==> CanComplete(paths, disk, journal, p))
            && (Succeeded(status) ==>
                  after == Disk(disk.facts[FactPath(paths, p.fact) := p.fact], disk.frontiers[FrontierPath(paths, p.frontier) := p.frontier], disk.pendings))
  {
    hide Decide;
    hide Consistent;
    CommitIsAcceptable(paths, disk, journal, p);
    AllowedIffSilent(journal, p);
    hide JournalAllows;
    JournalNeverCommits(journal(p.frontier.operationKey), p.frontier);
    if Acceptable(paths, disk, p) {
      DecideAcceptable(paths, disk, journal, p);
      MissingApplied(paths, disk, p);
      hide PendingReady;
    }
  }

  /** Completing one more manifest. */
  lemma RecoverOne(paths: Paths, start: Disk, disk: Disk, journal: Journal, done: set<Path>, path: Path)
    requires Consistent(paths, start) && Recovering(paths, start, disk, journal, done) && path in start.pendings
    requires CanComplete(paths, disk, journal, start.pendings[path])
    ensures Recovering(paths, start, Outcome(paths, disk, journal, start.pendings[path], 3).1, journal, done + {path})
  {
    hide Outcome;
    hide Acceptable;
    hide Consistent;
    hide Traced;
    hide JournalAllows;
    var p := start.pendings[path];
    PendingNamed(paths, start, path);
    CompletesIff(paths, disk, journal, p);
    CommitKeepsConsistent(paths, disk, journal, p, 3);
    SuccessPublishes(paths, disk, journal, p, 3);
    var after := Outcome(paths, disk, journal, p, 3).1;
    forall d <- done ensures Acceptable(paths, after, start.pendings[d]) && Published(paths, after, start.pendings[d]) {
      PendingNamed(paths, start, d);
      StaysAcceptable(paths, disk, after, start.pendings[d]);
    }
    FrontierOfAcceptable(paths, disk, p);
    TraceOne(paths, start, disk, journal, done, path);
  }

  lemma TraceOne(paths: Paths, start: Disk, disk: Disk, journal: Journal, done: set<Path>, path: Path)
    requires done <= start.pendings.Keys && Traced(start, disk, journal, done) && path in start.pendings
    requires FrontierFree(paths, disk, start.pendings[path].frontier) && FactFree(paths, disk, start.pendings[path].fact)
    requires Published(paths, disk, start.pendings[path]) || JournalAllows(journal, start.pendings[path])
    ensures var p := start.pendings[path];
            Traced(start, Disk(disk.facts[FactPath(paths, p.fact) := p.fact],
                               disk.frontiers[FrontierPath(paths, p.frontier) := p.frontier], disk.pendings), journal, done + {path})
  {
    hide JournalAllows;
  }

  lemma FrontierOfAcceptable(paths: Paths, disk: Disk, p: Publication)
    requires Acceptable(paths, disk, p)
    ensures FrontierFree(paths, disk, p.frontier) && FactFree(paths, disk, p.fact)
    ensures FrontierPath(paths, p.frontier) in disk.frontiers ==> disk.frontiers[FrontierPath(paths, p.frontier)] == p.frontier
    ensures FactPath(paths, p.fact) in disk.facts ==> disk.facts[FactPath(paths, p.fact)] == p.fact
  {
  }

  /** A publication compatible with all completed ones still finds its file names free. */
  lemma TraceLeavesFree(paths: Paths, start: Disk, disk: Disk, journal: Journal, done: set<Path>, p: Publication)
    requires done <= start.pendings.Keys && Traced(start, disk, journal, done) && Extends(start, disk) && Consistent(paths, disk)
    requires FactFree(paths, start, p.fact) && FrontierFree(paths, start, p.frontier)
    requires forall d <- done :: Compatible(paths, p, start.pendings[d])
    ensures FactFree(paths, disk, p.fact) && FrontierFree(paths, disk, p.frontier)
  {
    hide JournalAllows;
    hide Consistent;
    var f, g := FactPath(paths, p.fact), FrontierPath(paths, p.frontier);
    if f in disk.facts && f !in start.facts {
      FactNamed(paths, disk, f);
      var d :| d in done && disk.facts[f] == start.pendings[d].fact;
      assert Compatible(paths, p, start.pendings[d]);
    }
    if g in disk.frontiers && g !in start.frontiers {
      FrontierNamed(paths, disk, g);
      var d :| d in done && disk.frontiers[g] == start.pendings[d].frontier;
      assert Compatible(paths, p, start.pendings[d]);
    }
  }

  /** On a recoverable disk every manifest can be completed, whatever was completed before it. */
  lemma RecoverableCompletes(paths: Paths, start: Disk, disk: Disk, journal: Journal, done: set<Path>, path: Path)
    requires Consistent(paths, start) && Recoverable(paths, start, journal)
    requires Recovering(paths, start, disk, journal, done) && path in start.pendings
    ensures CanComplete(paths, disk, journal, start.pendings[path])
  {
    hide Consistent;
    hide JournalAllows;
    hide PendingReady;
    hide Traced;
    hide FactFree;
    hide FrontierFree;
    var p := start.pendings[path];
    PendingNamed(paths, start, path);
    PendingNamed(paths, disk, path);
    TraceLeavesFree(paths, start, disk, journal, done, p);
    assert Acceptable(paths, disk, p);
    if FrontierPath(paths, p.frontier) in disk.frontiers { FrontierImpliesFact(paths, disk, p); }
  }

  lemma FactNamed(paths: Paths, disk: Disk, path: Path)
    requires Consistent(paths, disk) && path in disk.facts
    ensures FactPath(paths, disk.facts[path]) == path
  {
  }

  lemma FrontierNamed(paths: Paths, disk: Disk, path: Path)
    requires Consistent(paths, disk) && path in disk.frontiers
    ensures FrontierPath(paths, disk.frontiers[path]) == path
  {
  }

  lemma CompletedWasFree(paths: Paths, start: Disk, disk: Disk, journal: Journal, path: Path)
    requires Consistent(paths, start) && Recovering(paths, start, disk, journal, start.pendings.Keys) && path in start.pendings
    ensures FactFree(paths, start, start.pendings[path].fact) && FrontierFree(paths, start, start.pendings[path].frontier)
    ensures FrontierPath(paths, start.pendings[path].frontier) in start.frontiers || JournalAllows(journal, start.pendings[path])
  {
    hide Consistent;
    hide JournalAllows;
    hide Acceptable;
    var p := start.pendings[path];
    var g := FrontierPath(paths, p.frontier);
    FrontierOfAcceptable(paths, disk, p);
    if g !in start.frontiers {
      var d :| d in start.pendings.Keys && disk.frontiers[g] == start.pendings[d].frontier && JournalAllows(journal, start.pendings[d]);
      JournalOfSameFrontier(journal, p, start.pendings[d]);
    }
  }

  lemma CompletedAreCompatible(paths: Paths, start: Disk, disk: Disk, journal: Journal, a: Path, b: Path)
    requires Recovering(paths, start, disk, journal, start.pendings.Keys) && a in start.pendings && b in start.pendings
    ensures Compatible(paths, start.pendings[a], start.pendings[b])
  {
    hide Consistent;
    hide Acceptable;
    hide Traced;
    FrontierOfAcceptable(paths, disk, start.pendings[a]);
    FrontierOfAcceptable(paths, disk, start.pendings[b]);
  }

  /** Once all manifests are complete, the start disk was recoverable. */
  lemma RecoveredWasRecoverable(paths: Paths, start: Disk, disk: Disk, journal: Journal)
    requires Consistent(paths, start) && Recovering(paths, start, disk, journal, start.pendings.Keys)
    ensures Recoverable(paths, start, journal)
  {
    hide Consistent;
    hide JournalAllows;
    hide Recovering;
    hide FactFree;
    hide FrontierFree;
    hide Compatible;
    forall path <- start.pendings
      ensures FactFree(paths, start, start.pendings[path].fact) && FrontierFree(paths, start, start.pendings[path].frontier)
      ensures FrontierPath(paths, start.pendings[path].frontier) in start.frontiers || JournalAllows(journal, start.pendings[path])
    {
      CompletedWasFree(paths, start, disk, journal, path);
    }
    forall a <- start.pendings, b <- start.pendings ensures Compatible(paths, start.pendings[a], start.pendings[b]) {
      CompletedAreCompatible(paths, start, disk, journal, a, b);
    }
  }

  lemma JournalOfSameFrontier(journal: Journal, p: Publication, q: Publication)
    requires p.frontier == q.frontier
    ensures JournalAllows(journal, p) == JournalAllows(journal, q)
  {
  }

  // ----- the store object

  class Store {
    const paths: Paths
    var facts: map<Path, DealSettlement>
    var frontiers: map<Path, SettlementFrontier>
    var pendings: map<Path, Publication>

    function State(): Disk
      reads this
    {
      Disk(facts, frontiers, pendings)
    }

    constructor (paths: Paths)
      ensures this.paths == paths && State() == Disk(map[], map[], map[]) && Consistent(paths, State())
    {
      this.paths := paths;
      facts, frontiers, pendings := map[], map[], map[];
      new;
      EmptyIsConsistent(paths);
    }

    /** The referenced facts, in frontier order; the first unusable entry decides. */
    method CheckEntries(p: Publication) returns (verdict: Option<Status>)
      ensures verdict == EntriesVerdict(paths, State(), p, 0, false)
    {
      var entries := p.frontier.entries;
      var candidateReferenced := false;
      for index := 0 to |entries|
        invariant EntriesVerdict(paths, State(), p, 0, false) == EntriesVerdict(paths, State(), p, index, candidateReferenced)
      {
        var entry := entries[index];
        if entry.dealTicket == p.fact.key.dealTicket {
          if entry.sourceOperationRevision != p.fact.sourceOperationRevision || entry.managedLogicalUnits != p.fact.managedLogicalUnits {
            return Some(InvalidRecord);
          }
          candidateReferenced := true;
        } else {
          var referenced := p.frontier.FactKey(entry);
          var path := (paths.fact)(referenced);
          if path !in facts {
            return Some(MissingFact);
          }
          if facts[path].key != referenced || !entry.Pins(facts[path]) {
            return Some(InvalidRecord);
          }
        }
      }
      return if candidateReferenced then None else Some(InvalidRecord);
    }

    /** Publishes one fact with its frontier; `survive` file steps take effect. */
    method Commit(p: Publication, journal: Journal, survive: nat) returns (status: Status)
      modifies this
      ensures (status, State()) == Outcome(paths, old(State()), journal, p, survive)
    {
      hide EntriesVerdict;
      hide JournalVerdict;
      if !p.Matched() {
        return InvalidRecord;
      }
      var factPath, frontierPath, pendingPath := FactPath(paths, p.fact), FrontierPath(paths, p.frontier), PendingPath(paths, p);
      if factPath in facts && facts[factPath] != p.fact {
        return Conflict;
      }
      if frontierPath in frontiers && frontiers[frontierPath] != p.frontier {
        return Conflict;
      }
      if pendingPath in pendings && pendings[pendingPath] != p {
        return Conflict;
      }
      var verdict := CheckEntries(p);
      if verdict.Some? {
        return verdict.value;
      }
      if frontierPath in frontiers && factPath in facts {
        return AlreadyCommitted;
      }
      verdict := JournalVerdict(journal(p.frontier.operationKey), p.frontier);
      if verdict.Some? {
        return verdict.value;
      }
      if pendingPath !in pendings && !p.Fits() {
        return InvalidRecord;
      }
      status := Publish(p, survive);
    }

    /** Writes what is missing: the manifest, the fact, and the frontier as publication marker. */
    method Publish(p: Publication, survive: nat) returns (status: Status)
      modifies this
      ensures var steps := Missing(paths, old(State()), p);
              && status == (if survive >= |steps| then Committed else IoError)
              && State() == ApplyAll(paths, old(State()), if survive >= |steps| then steps else steps[..survive])
    {
      ghost var start, steps := State(), Missing(paths, State(), p);
      ghost var done: nat := 0;
      var left := survive;
      assert steps[..0] == [];
      if PendingPath(paths, p) !in pendings {
        if left == 0 { return IoError; }
        ApplyNext(paths, start, steps, done);
        pendings := pendings[PendingPath(paths, p) := p];
        left, done := left - 1, done + 1;
      }
      if FactPath(paths, p.fact) !in facts {
        if left == 0 { return IoError; }
        ApplyNext(paths, start, steps, done);
        facts := facts[FactPath(paths, p.fact) := p.fact];
        left, done := left - 1, done + 1;
      }
      if FrontierPath(paths, p.frontier) !in frontiers {
        if left == 0 { return IoError; }
        ApplyNext(paths, start, steps, done);
        frontiers := frontiers[FrontierPath(paths, p.frontier) := p.frontier];
        left, done := left - 1, done + 1;
      }
      assert steps[..done] == steps;
      return Committed;
    }

    /** Scans every frontier; a fact that only a manifest holds is not found. */
    method LoadFact(key: DealSettlementKey, listing: seq<Path>) returns (result: LoadResult)
      requires forall path :: path in listing <==> path in frontiers
      ensures result == Load(paths, State(), key)
    {
      var path := (paths.fact)(key);
      if !key.Valid() {
        return InvalidLoad;
      }
      if path !in facts {
        return NotFound;
      }
      var fact := facts[path];
      if fact.key != key {
        return InvalidLoad;
      }
      var referenced := false;
      for i := 0 to |listing|
        invariant forall k :: 0 <= k < i ==> !BrokenFor(paths, State(), listing[k], fact)
        invariant referenced <==> exists k :: 0 <= k < i && PinnedBy(State(), listing[k], key)
      {
        var broken, pins := ScanFrontier(listing[i], fact);
        if broken {
          return InvalidLoad;
        }
        referenced := referenced || pins;
      }
      assert referenced <==> Referenced(State(), key) by {
        if Referenced(State(), key) {
          var other :| other in frontiers && PinnedBy(State(), other, key);
          var k :| 0 <= k < |listing| && listing[k] == other;
        }
      }
      return if referenced then Found(fact) else NotFound;
    }

    method ScanFrontier(path: Path, fact: DealSettlement) returns (broken: bool, pins: bool)
      requires path in frontiers
      ensures broken <==> BrokenFor(paths, State(), path, fact)
      ensures !broken ==> (pins <==> PinnedBy(State(), path, fact.key))
    {
      var frontier := frontiers[path];
      if FrontierPath(paths, frontier) != path {
        return true, false;
      }
      pins := false;
      for i := 0 to |frontier.entries|
        invariant forall k :: 0 <= k < i ==>
                    EntryOnDisk(paths, facts, frontier, frontier.entries[k])
                    && (frontier.FactKey(frontier.entries[k]) == fact.key ==> frontier.entries[k].Pins(fact))
        invariant pins <==> exists k :: 0 <= k < i && frontier.FactKey(frontier.entries[k]) == fact.key
      {
        var e := frontier.entries[i];
        if !EntryOnDisk(paths, facts, frontier, e) {
          return true, pins;
        }
        if frontier.FactKey(e) == fact.key {
          if !e.Pins(fact) {
            return true, pins;
          }
          pins := true;
        }
      }
      return false, pins;
    }

    /** Completes all pending publications, in any directory order. It succeeds exactly on a
        recoverable store, never reports a missing fact, and leaves every manifest published. */
    method RecoverPending(journal: Journal, listing: seq<Path>) returns (status: Status)
      requires Consistent(paths, State())
      requires |listing| == |pendings| && forall i, j :: 0 <= i < j < |listing| ==> listing[i] != listing[j]
      requires forall i :: 0 <= i < |listing| ==> listing[i] in pendings
      modifies this
      ensures Consistent(paths, State()) && Extends(old(State()), State())
      ensures status.NoPending? <==> old(pendings) == map[]
      ensures Succeeded(status) <==> old(pendings) != map[] && Recoverable(paths, old(State()), journal)
      ensures Succeeded(status) ==> forall path <- old(pendings) ::
                && Acceptable(paths, State(), old(pendings)[path]) && Published(paths, State(), old(pendings)[path])
      ensures !status.MissingFact?
      ensures OnlySettledAdded(old(State()), State(), journal)
    {
      hide Consistent;
      hide Outcome;
      hide Recoverable;
      hide Recovering;
      hide CanComplete;
      hide Acceptable;
      hide Published;
      hide OnlySettledAdded;
      NothingAdded(State(), journal);
      if |listing| == 0 {
        return NoPending;
      }
      ghost var start, done: set<Path> := State(), {};
      NothingRecovered(paths, start, journal);
      var recovered: seq<bool> := seq(|listing|, _ => false);
      var remaining, committed := |listing|, false;
      while remaining != 0
        invariant Recovering(paths, start, State(), journal, done) && pendings == start.pendings
        invariant |recovered| == |listing| && 0 <= remaining == |listing| - |done|
        invariant forall i :: 0 <= i < |listing| ==> (recovered[i] <==> listing[i] in done)
        decreases remaining
      {
        var progress, deferred := false, MissingFact;
        ghost var before := remaining;
        for index := 0 to |listing|
          invariant Recovering(paths, start, State(), journal, done) && pendings == start.pendings
          invariant |recovered| == |listing| && 0 <= remaining == |listing| - |done|
          invariant forall i :: 0 <= i < |listing| ==> (recovered[i] <==> listing[i] in done)
          invariant if progress then remaining < before else remaining == before
          invariant forall i :: 0 <= i < index ==> recovered[i]
        {
          if recovered[index] { continue; }
          var publication := pendings[listing[index]];
          ghost var disk := State();
          RecoveryTurn(paths, start, disk, journal, done, listing[index]);
          status := Commit(publication, journal, 3);
          if status == MissingFact {
            deferred := status;
            continue;
          }
          if status != Committed && status != AlreadyCommitted {
            return status;
          }
          recovered := recovered[index := true];
          done := done + {listing[index]};
          DoneFits(paths, start, State(), journal, done);
          remaining, progress := remaining - 1, true;
          committed := committed || status == Committed;
        }
        if !progress {
          AllRecovered(listing, done);
          return deferred;
        }
      }
      DoneFits(paths, start, State(), journal, done);
      SubsetOfSameSize(done, start.pendings.Keys);
      RecoveryEnd(paths, start, State(), journal);
      return if committed then Committed else AlreadyCommitted;
    }
  }

  lemma {:induction false} ApplyNext(paths: Paths, disk: Disk, steps: seq<Step>, k: nat)
    requires k < |steps|
    ensures ApplyAll(paths, disk, steps[..k + 1]) == Apply(paths, ApplyAll(paths, disk, steps[..k]), steps[k])
    decreases k
  {
    assert steps[..k + 1][1..] == steps[1..][..k];
    if k > 0 {
      assert steps[..k][1..] == steps[1..][..k - 1];
      ApplyNext(paths, Apply(paths, disk, steps[0]), steps[1..], k - 1);
    } else {
      assert ApplyAll(paths, Apply(paths, disk, steps[0]), []) == Apply(paths, disk, steps[0]);
    }
  }

  lemma NothingRecovered(paths: Paths, start: Disk, journal: Journal)
    requires Consistent(paths, start)
    ensures Recovering(paths, start, start, journal, {})
  {
    hide Consistent;
  }

  /** One turn of recovery: success extends what is complete, and anything else means that the
      store was not recoverable to begin with. */
  lemma RecoveryTurn(paths: Paths, start: Disk, disk: Disk, journal: Journal, done: set<Path>, path: Path)
    requires Consistent(paths, start) && Recovering(paths, start, disk, journal, done) && path in start.pendings
    ensures var (status, after) := Outcome(paths, disk, journal, start.pendings[path], 3);
            && (Succeeded(status) ==> Recovering(paths, start, after, journal, done + {path}) && after.pendings == start.pendings)
            && (!Succeeded(status) ==> !Recoverable(paths, start, journal))
            && !status.MissingFact? && !status.NoPending?
            && Consistent(paths, after) && Extends(start, after) && OnlySettledAdded(start, after, journal)
  {
    hide Consistent;
    hide Outcome;
    hide Recoverable;
    hide CanComplete;
    RecoveringAdds(paths, start, disk, journal, done);
    hide Traced;
    hide OnlySettledAdded;
    var p := start.pendings[path];
    PendingNamed(paths, start, path);
    CompletesIff(paths, disk, journal, p);
    CommitKeepsConsistent(paths, disk, journal, p, 3);
    FailureKeepsDisk(paths, disk, journal, p);
    if Succeeded(Outcome(paths, disk, journal, p, 3).0) {
      RecoverOne(paths, start, disk, journal, done, path);
      RecoveringAdds(paths, start, Outcome(paths, disk, journal, p, 3).1, journal, done + {path});
    }
    RecoveryStatus(paths, disk, journal, path);
    if Recoverable(paths, start, journal) { RecoverableCompletes(paths, start, disk, journal, done, path); }
  }

  lemma RecoveryStatus(paths: Paths, disk: Disk, journal: Journal, path: Path)
    requires Consistent(paths, disk) && path in disk.pendings
    ensures !Outcome(paths, disk, journal, disk.pendings[path], 3).0.MissingFact?
    ensures !Outcome(paths, disk, journal, disk.pendings[path], 3).0.NoPending?
  {
    hide Consistent;
    hide EntriesVerdict;
    RecoveryNeverWaits(paths, disk, journal, path);
    CommitIsAcceptable(paths, disk, journal, disk.pendings[path]);
  }

  lemma RecoveryEnd(paths: Paths, start: Disk, disk: Disk, journal: Journal)
    requires Consistent(paths, start) && Recovering(paths, start, disk, journal, start.pendings.Keys)
    ensures Recoverable(paths, start, journal) && Consistent(paths, disk) && Extends(start, disk)
    ensures OnlySettledAdded(start, disk, journal)
    ensures forall path <- start.pendings :: Acceptable(paths, disk, start.pendings[path]) && Published(paths, disk, start.pendings[path])
  {
    RecoveredWasRecoverable(paths, start, disk, journal);
    RecoveringAdds(paths, start, disk, journal, start.pendings.Keys);
  }

  lemma RecoveringAdds(paths: Paths, start: Disk, disk: Disk, journal: Journal, done: set<Path>)
    requires Recovering(paths, start, disk, journal, done)
    ensures OnlySettledAdded(start, disk, journal)
  {
    hide Consistent;
    hide Acceptable;
    hide JournalAllows;
  }

  lemma NothingAdded(disk: Disk, journal: Journal)
    ensures OnlySettledAdded(disk, disk, journal)
  {
  }

  lemma FailureKeepsDisk(paths: Paths, disk: Disk, journal: Journal, p: Publication)
    ensures var (status, after) := Outcome(paths, disk, journal, p, 3);
            Succeeded(status) || after == disk
  {
    hide EntriesVerdict;
    hide JournalVerdict;
    AtMostThreeSteps(paths, disk, journal, p);
  }

  lemma SubsetOfSameSize(a: set<Path>, b: set<Path>)
    requires a <= b && |a| == |b|
    ensures a == b
  {
    assert b == a + (b - a);
  }

  lemma {:induction false} AllRecovered(listing: seq<Path>, done: set<Path>)
    requires forall i, j :: 0 <= i < j < |listing| ==> listing[i] != listing[j]
    requires forall i :: 0 <= i < |listing| ==> listing[i] in done
    ensures |done| >= |listing|
  {
    if listing != [] { AllRecovered(listing[1..], done - {listing[0]}); }
  }

  lemma DoneFits(paths: Paths, start: Disk, disk: Disk, journal: Journal, done: set<Path>)
    requires Recovering(paths, start, disk, journal, done)
    ensures |done| <= |start.pendings| && done <= start.pendings.Keys
  {
    hide Consistent;
    hide Traced;
    assert start.pendings.Keys == done + (start.pendings.Keys - done);
  }

  /** A different frontier published under a waiting manifest's frontier name blocks recovery for
      good: no later run of commits and no journal makes the store recoverable again. */
  lemma RivalFrontierBlocksRecovery(paths: Paths, disk: Disk, path: Path, attempts: seq<Attempt>, journal: Journal)
    requires Consistent(paths, disk) && path in disk.pendings && !FrontierFree(paths, disk, disk.pendings[path].frontier)
    ensures !Recoverable(paths, Run(paths, disk, attempts), journal)
  {
    hide Consistent;
    hide Load;
    hide JournalAllows;
    RunKeepsStore(paths, disk, attempts);
    var after := Run(paths, disk, attempts);
    assert after.pendings[path] == disk.pendings[path];
  }

  /** Two sealed publications of one operation revision, for deals 7 and 8. */
  function Rival(ticket: u64): Publication
    requires ticket != 0
  {
    var account, proof := AccountKey([65], 1), Provenance(1, 1, 1, 1);
    var key := OperationKey(account, 1, 1);
    Publication(DealSettlement(DealSettlementKey(account, key, ticket), 3, 5, proof),
                SettlementFrontier(account, key, 3, 5, proof, [FrontierEntry(ticket, 3, 5)]))
  }

  /** The journal at that revision. */
  function RivalJournal(): Journal {
    var key := Rival(7).frontier.operationKey;
    var record := OperationRecord(key, Close, Filled, JournalReconciling, 3, Some(ReconciliationDescriptor(5, true, 0)), 7, 5, 0, true);
    (k: OperationKey) => if k == key then JournalFound(record) else JournalNotFound
  }

  lemma RivalIsReady(ticket: u64, paths: Paths, facts: map<Path, DealSettlement>)
    requires ticket != 0
    ensures PendingReady(paths, facts, Rival(ticket)) && Rival(ticket).Fits()
    ensures JournalVerdict(RivalJournal()(Rival(ticket).frontier.operationKey), Rival(ticket).frontier).None?
  {
    var entries := Rival(ticket).frontier.entries;
    assert entries[..|entries| - 1] == [];
    assert SumOfUnits(entries) == SumOfUnits([]) + 5;
    assert entries[0] in entries;
  }

  /** Such a store is reached from the empty one by two commits under one journal: the first is cut
      after its manifest, the second publishes the other deal. Its manifest is never recovered. */
  lemma RivalFrontierHappens(paths: Paths, attempts: seq<Attempt>, journal: Journal)
    requires PendingPath(paths, Rival(7)) != PendingPath(paths, Rival(8))
    ensures var empty := Disk(map[], map[], map[]);
            var cut := Outcome(paths, empty, RivalJournal(), Rival(7), 1).1;
            var (status, disk) := Outcome(paths, cut, RivalJournal(), Rival(8), 3);
            status.Committed? && !Recoverable(paths, Run(paths, disk, attempts), journal)
  {
    hide JournalVerdict;
    hide Consistent;
    hide PendingReady;
    var empty := Disk(map[], map[], map[]);
    EmptyIsConsistent(paths);
    RivalIsReady(7, paths, map[]);
    RivalIsReady(8, paths, map[]);
    RivalNames(paths);
    DecideAcceptable(paths, empty, RivalJournal(), Rival(7));
    var cut := Outcome(paths, empty, RivalJournal(), Rival(7), 1).1;
    CommitKeepsConsistent(paths, empty, RivalJournal(), Rival(7), 1);
    assert Missing(paths, empty, Rival(7))[..1] == [WritePending(Rival(7))];
    ApplyUpToTwo(paths, empty, WritePending(Rival(7)), WritePending(Rival(7)));
    assert cut == Disk(map[], map[], map[PendingPath(paths, Rival(7)) := Rival(7)]);
    DecideAcceptable(paths, cut, RivalJournal(), Rival(8));
    var disk := Outcome(paths, cut, RivalJournal(), Rival(8), 3).1;
    CommitKeepsConsistent(paths, cut, RivalJournal(), Rival(8), 3);
    SuccessPublishes(paths, cut, RivalJournal(), Rival(8), 3);
    RivalFrontierBlocksRecovery(paths, disk, PendingPath(paths, Rival(7)), attempts, journal);
  }

  lemma RivalNames(paths: Paths)
    ensures FrontierPath(paths, Rival(7).frontier) == FrontierPath(paths, Rival(8).frontier) && Rival(7).frontier != Rival(8).frontier
  {
    assert Rival(7).frontier.entries[0].dealTicket == 7 && Rival(8).frontier.entries[0].dealTicket == 8;
  }

  /** Every manifest on disk is within the storage limits. */
  ghost predicate ManifestsFit(disk: Disk) {
    forall path <- disk.pendings :: disk.pendings[path].Fits()
  }

  lemma {:induction false} StepsKeepFitting(paths: Paths, disk: Disk, steps: seq<Step>)
    requires ManifestsFit(disk) && forall i :: 0 <= i < |steps| && steps[i].WritePending? ==> steps[i].p.Fits()
    ensures ManifestsFit(ApplyAll(paths, disk, steps))
    decreases |steps|
  {
    hide Publication.Fits;
    if steps != [] { StepsKeepFitting(paths, Apply(paths, disk, steps[0]), steps[1..]); }
  }

  /** Whatever is committed, manifests on disk stay within the limits, and whenever a commit writes
      anything at all, the manifest, the fact and the frontier are each within their own limit: no
      later file of a publication is ever refused for its size. */
  lemma EveryWriteFits(paths: Paths, disk: Disk, journal: Journal, p: Publication, survive: nat)
    requires ManifestsFit(disk)
    ensures ManifestsFit(Outcome(paths, disk, journal, p, survive).1)
    ensures Decide(paths, disk, journal, p).1 != [] ==> p.Fits() && p.FactSize() <= MAX_RECORD_BODY && p.FrontierSize() <= MAX_RECORD_BODY
  {
    hide EntriesVerdict;
    hide JournalVerdict;
    var steps := Decide(paths, disk, journal, p).1;
    StepsKeepFitting(paths, disk, if survive >= |steps| then steps else steps[..survive]);
  }

  /** Files are written only for a publication whose revision and volume are what the journal record
      has settled. */
  lemma OnlySettledWrites(paths: Paths, disk: Disk, journal: Journal, p: Publication, survive: nat)
    requires Outcome(paths, disk, journal, p, survive).1 != disk
    ensures journal(p.frontier.operationKey).JournalFound? && SettledAt(journal(p.frontier.operationKey), p.frontier)
  {
    hide EntriesVerdict;
    hide Missing;
    AllowedIffSilent(journal, p);
    hide JournalVerdict;
    assert Decide(paths, disk, journal, p).1 != [];
  }

  /** So a publication of another revision or volume than the journal has settled meanwhile is
      refused, with nothing written, unless it stood published before. */
  lemma StalePublicationIsRefused(paths: Paths, disk: Disk, journal: Journal, p: Publication, survive: nat)
    requires Acceptable(paths, disk, p) && !Published(paths, disk, p) && journal(p.frontier.operationKey).JournalFound?
    requires var record := journal(p.frontier.operationKey).record;
             record.revision != p.frontier.operationRevision || record.settledVolume != p.frontier.settledVolume
    ensures Outcome(paths, disk, journal, p, survive) == (InvalidOperationRecord, disk)
  {
    DecideAcceptable(paths, disk, journal, p);
    hide Acceptable;
    hide Missing;
  }

  /** A frontier file of a consistent store always loads. */
  lemma FrontierLoads(paths: Paths, disk: Disk, frontier: SettlementFrontier)
    requires Consistent(paths, disk) && frontier.Valid()
    requires FrontierPath(paths, frontier) in disk.frontiers && disk.frontiers[FrontierPath(paths, frontier)] == frontier
    ensures LoadFrontier(paths, disk, frontier.operationKey, frontier.operationRevision) == FrontierFound(frontier)
  {
    assert FrontierComplete(paths, disk.facts, frontier);
  }

  lemma AtMostThreeSteps(paths: Paths, disk: Disk, journal: Journal, p: Publication)
    ensures |Decide(paths, disk, journal, p).1| <= 3
  {
    hide EntriesVerdict;
    hide JournalVerdict;
  }

  /** A successful commit again: whatever prefix of it already happened, repeating it succeeds with
      the same final disk, and repeating it once more changes nothing. */
  lemma SuccessRestarts(paths: Paths, disk: Disk, journal: Journal, p: Publication, k: nat, n: nat, m: nat)
    requires Consistent(paths, disk) && n >= 3 && m >= 3 && Succeeded(Outcome(paths, disk, journal, p, n).0)
    ensures var full := Outcome(paths, disk, journal, p, n).1;
            var (status, crashed) := Outcome(paths, disk, journal, p, k);
            && (Succeeded(status) ==> crashed == full)
            && Outcome(paths, crashed, journal, p, m).1 == full && Succeeded(Outcome(paths, crashed, journal, p, m).0)
            && Outcome(paths, full, journal, p, m) == (AlreadyCommitted, full)
  {
    hide Consistent;
    hide Decide;
    var crashed := Outcome(paths, disk, journal, p, k).1;
    AtMostThreeSteps(paths, disk, journal, p);
    AtMostThreeSteps(paths, crashed, journal, p);
    ReplayReaches(paths, disk, journal, p, k);
    CommitIsAcceptable(paths, disk, journal, p);
    var full := Outcome(paths, disk, journal, p, n).1;
    SuccessPublishes(paths, disk, journal, p, n);
    DecideAcceptable(paths, full, journal, p);
  }

  /** What a commit needs, decided on the disk and the journal record before it starts. */
  ghost predicate CommitAccepts(paths: Paths, disk: Disk, journal: Journal, p: Publication) {
    && p.Matched() && Acceptable(paths, disk, p)
    && (Published(paths, disk, p)
        || (JournalAllows(journal, p) && (PendingPath(paths, p) in disk.pendings || p.Fits())))
  }

  lemma CommitSucceedsIff(paths: Paths, disk: Disk, journal: Journal, p: Publication, n: nat)
    requires Consistent(paths, disk) && n >= 3
    ensures var (status, after) := Outcome(paths, disk, journal, p, n);
            && (Succeeded(status) <==> CommitAccepts(paths, disk, journal, p))
            && (status.AlreadyCommitted? <==> CommitAccepts(paths, disk, journal, p) && Published(paths, disk, p))
            && (status.Committed? ==> after == Disk(disk.facts[FactPath(paths, p.fact) := p.fact],
                                                    disk.frontiers[FrontierPath(paths, p.frontier) := p.frontier],
                                                    disk.pendings[PendingPath(paths, p) := p]))
            && (!status.Committed? ==> after == disk)
  {
    hide Consistent;
    hide Decide;
    AtMostThreeSteps(paths, disk, journal, p);
    CommitIsAcceptable(paths, disk, journal, p);
    if Acceptable(paths, disk, p) {
      DecideAcceptable(paths, disk, journal, p);
      JournalNeverCommits(journal(p.frontier.operationKey), p.frontier);
      assert p.Matched();
      AllowedIffSilent(journal, p);
      AllMissingApplied(paths, disk, p);
      hide JournalAllows;
    }
  }

  lemma AllMissingApplied(paths: Paths, disk: Disk, p: Publication)
    requires Acceptable(paths, disk, p)
    ensures ApplyAll(paths, disk, Missing(paths, disk, p))
         == Disk(disk.facts[FactPath(paths, p.fact) := p.fact], disk.frontiers[FrontierPath(paths, p.frontier) := p.frontier],
                 disk.pendings[PendingPath(paths, p) := p])
  {
    var step := WritePending(p);
    if PendingPath(paths, p) in disk.pendings {
      assert disk.pendings == disk.pendings[PendingPath(paths, p) := p];
      MissingApplied(paths, disk, p);
    } else {
      PendingStep(paths, disk, p);
      MissingApplied(paths, Apply(paths, disk, step), p);
      hide Acceptable;
      assert Missing(paths, disk, p) == [step] + Missing(paths, Apply(paths, disk, step), p);
      assert Missing(paths, disk, p)[1..] == Missing(paths, Apply(paths, disk, step), p);
    }
  }

  lemma LoadedFrontierStays(paths: Paths, before: Disk, after: Disk, key: OperationKey, revision: u64)
    requires Consistent(paths, after) && Extends(before, after) && LoadFrontier(paths, before, key, revision).FrontierFound?
    ensures LoadFrontier(paths, after, key, revision) == LoadFrontier(paths, before, key, revision)
  {
    var path := (paths.frontier)(key, revision);
    assert FrontierComplete(paths, after.facts, after.frontiers[path]);
  }
}
