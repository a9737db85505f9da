/** The durable close-leg allocation ledger: source validation, commits and capacity
    (src/dispatch/file_managed_allocation_store.cpp:233-524, 551-573, 605-921). */
module AllocationLedger {
  import opened MachineWords
  import opened Options
  import opened SettlementRecords
  import opened AllocationRecords

  type Path = nat

  /** What the immutable source stores say about one entry on its own. */
  datatype SourceVerdict = SourceValid | SourceMissing | SourceInvalid | SourceIoError

  /** Immutable sources: the verdict on an entry's settlement, broker, basis, mapping and envelope
      evidence, and the broker close leg that each envelope offers. */
  datatype Sources = Sources(verdict: AllocationEntry -> SourceVerdict, closeLeg: ReversalKey -> BrokerVolume)

  datatype Validation = Valid | Missing | Invalid | Exhausted | ValidationIoError

  datatype CommitStatus =
    | Committed | AlreadyCommitted | Conflict | InvalidRecord | MissingSource | InvalidSource | CapacityExhausted
    | LeaseNotHeld | IoError

  /** Lease observations before, under and after the store lock, and at publication. */
  datatype Lease = Lease(initially: bool, locked: bool, atEnd: bool, atPublication: bool)

  predicate SameDomain(volume: BrokerVolume, leg: BrokerVolume) {
    volume.scale == leg.scale && volume.stepUnits == leg.stepUnits
  }

  /** Units that one entry takes from a broker close leg. */
  function UnitsOn(entry: AllocationEntry, key: ReversalKey): nat {
    if entry.key.brokerKey == key then entry.brokerVolume.units else 0
  }

  function UnitsOf(records: seq<AllocationEntry>, key: ReversalKey): nat {
    if records == [] then 0 else UnitsOf(records[..|records| - 1], key) + UnitsOn(records[|records| - 1], key)
  }

  ghost predicate EntrySound(sources: Sources, entry: AllocationEntry) {
    (sources.verdict)(entry) == SourceValid && SameDomain(entry.brokerVolume, (sources.closeLeg)(entry.key.brokerKey))
  }

  /** The order-free meaning of a valid verdict. */
  ghost predicate RecordsValid(sources: Sources, records: seq<AllocationEntry>) {
    && (forall i, j :: 0 <= i < j < |records| ==> records[i].key.managedKey != records[j].key.managedKey)
    && (forall i :: 0 <= i < |records| ==> EntrySound(sources, records[i]))
    && (forall i :: 0 <= i < |records| ==>
          UnitsOf(records, records[i].key.brokerKey) <= (sources.closeLeg)(records[i].key.brokerKey).units)
  }

  lemma {:induction false} UnitsOfPrefix(records: seq<AllocationEntry>, i: nat, key: ReversalKey)
    requires i <= |records|
    ensures UnitsOf(records[..i], key) <= UnitsOf(records, key)
    decreases |records|
  {
    if i == |records| {
      assert records[..i] == records;
    } else {
      var init := records[..|records| - 1];
      UnitsOfPrefix(init, i, key);
      assert init[..i] == records[..i];
    }
  }

  lemma PrefixValid(sources: Sources, records: seq<AllocationEntry>, i: nat)
    requires RecordsValid(sources, records) && i <= |records|
    ensures RecordsValid(sources, records[..i])
  {
    forall k | 0 <= k < i
      ensures UnitsOf(records[..i], records[k].key.brokerKey) <= (sources.closeLeg)(records[k].key.brokerKey).units
    {
      UnitsOfPrefix(records, i, records[k].key.brokerKey);
    }
  }

  /** Adding one record to a valid prefix. */
  lemma AddRecord(sources: Sources, records: seq<AllocationEntry>, i: nat)
    requires i < |records|
    ensures forall key: ReversalKey :: UnitsOf(records[..i + 1], key) == UnitsOf(records[..i], key) + UnitsOn(records[i], key)
    ensures RecordsValid(sources, records[..i + 1])
       <==> && RecordsValid(sources, records[..i]) && EntrySound(sources, records[i])
            && (forall k :: 0 <= k < i ==> records[k].key.managedKey != records[i].key.managedKey)
            && UnitsOf(records[..i], records[i].key.brokerKey) + records[i].brokerVolume.units
               <= (sources.closeLeg)(records[i].key.brokerKey).units
  {
    hide EntrySound;
    var upto, before := records[..i + 1], records[..i];
    assert upto[..i] == before && upto[i] == records[i];
    forall key: ReversalKey ensures UnitsOf(upto, key) == UnitsOf(before, key) + UnitsOn(records[i], key) {}
    if RecordsValid(sources, upto) {
      PrefixValid(sources, upto, i);
      assert upto[i].key.managedKey == records[i].key.managedKey;
    } else if RecordsValid(sources, before) {
      assert forall k :: 0 <= k < i ==> upto[k] == before[k];
    }
  }

  /** Record i is the first that fails, and only for asking more than its close leg has left. */
  ghost predicate OverdrawnAt(sources: Sources, records: seq<AllocationEntry>, i: int) {
    && 0 <= i < |records| && RecordsValid(sources, records[..i]) && EntrySound(sources, records[i])
    && (forall k :: 0 <= k < i ==> records[k].key.managedKey != records[i].key.managedKey)
    && (sources.closeLeg)(records[i].key.brokerKey).units
       < UnitsOf(records[..i], records[i].key.brokerKey) + records[i].brokerVolume.units <= U64_MAX
  }

  lemma PrefixOfPrefix(sources: Sources, records: seq<AllocationEntry>, i: nat, j: nat)
    requires i <= j <= |records| && RecordsValid(sources, records[..j])
    ensures RecordsValid(sources, records[..i])
  {
    PrefixValid(sources, records[..j], i);
    assert records[..j][..i] == records[..i];
  }

  /** The first failure decides. */
  lemma OnlyFirstFailure(sources: Sources, records: seq<AllocationEntry>, i: nat, j: int)
    requires i < |records| && RecordsValid(sources, records[..i]) && !RecordsValid(sources, records[..i + 1])
    ensures OverdrawnAt(sources, records, j) ==> i == j
    ensures !RecordsValid(sources, records)
  {
    if RecordsValid(sources, records) { PrefixValid(sources, records, i + 1); }
    if OverdrawnAt(sources, records, j) {
      if j < i {
        PrefixOfPrefix(sources, records, j + 1, i);
        AddRecord(sources, records, j);
      } else if j > i {
        PrefixOfPrefix(sources, records, i + 1, j);
      }
    }
  }

  lemma ValidIsNotOverdrawn(sources: Sources, records: seq<AllocationEntry>, j: int)
    requires RecordsValid(sources, records)
    ensures !OverdrawnAt(sources, records, j)
  {
    if OverdrawnAt(sources, records, j) {
      PrefixValid(sources, records, j + 1);
      AddRecord(sources, records, j);
    }
  }

  /** The validation loop, with its running key set and totals, accepts exactly the record lists
      that are valid in any order, and reports exhausted capacity exactly for a list whose first
      failing record only asks too much of its close leg; no 64-bit sum wraps. */
  method ValidateSources(sources: Sources, records: seq<AllocationEntry>) returns (verdict: Validation)
    ensures verdict.Valid? <==> RecordsValid(sources, records)
    ensures verdict.Exhausted? <==> exists i :: OverdrawnAt(sources, records, i)
  {
    var failed: nat;
    verdict, failed := FirstFailure(sources, records);
    if verdict.Valid? {
      forall j ensures !OverdrawnAt(sources, records, j) { ValidIsNotOverdrawn(sources, records, j); }
    } else {
      forall j ensures OverdrawnAt(sources, records, j) ==> failed == j { OnlyFirstFailure(sources, records, failed, j); }
      OnlyFirstFailure(sources, records, failed, 0);
    }
  }

  /** The loop itself stops at the first failing record. */
  method FirstFailure(sources: Sources, records: seq<AllocationEntry>) returns (verdict: Validation, failed: nat)
    ensures if verdict.Valid? then RecordsValid(sources, records)
            else failed < |records| && RecordsValid(sources, records[..failed]) && !RecordsValid(sources, records[..failed + 1])
    ensures !verdict.Valid? ==> (verdict.Exhausted? <==> OverdrawnAt(sources, records, failed))
  {
    hide RecordsValid;
    hide EntrySound;
    EmptyIsValid(sources);
    var managedKeys: set<DealSettlementKey> := {};
    var totals: map<ReversalKey, u64> := map[];
    for i := 0 to |records|
      invariant RecordsValid(sources, records[..i])
      invariant forall k :: 0 <= k < i ==> records[k].key.managedKey in managedKeys
      invariant forall m <- managedKeys :: exists k :: 0 <= k < i && records[k].key.managedKey == m
      invariant forall key <- totals :: totals[key] == UnitsOf(records[..i], key)
      invariant forall key: ReversalKey | key !in totals :: UnitsOf(records[..i], key) == 0
    {
      var entry := records[i];
      var key := entry.key.brokerKey;
      AddRecord(sources, records, i);
      if entry.key.managedKey in managedKeys {
        return Invalid, i;
      }
      managedKeys := managedKeys + {entry.key.managedKey};
      var source := (sources.verdict)(entry);
      var leg := (sources.closeLeg)(key);
      SoundIff(sources, entry);
      if source != SourceValid {
        return match source case SourceMissing => Missing case SourceIoError => ValidationIoError case _ => Invalid, i;
      }
      if !SameDomain(entry.brokerVolume, leg) {
        return Invalid, i;
      }
      var used: u64 := if key in totals then totals[key] else 0;
      if used > U64_MAX - entry.brokerVolume.units {
        return Invalid, i;
      }
      totals := totals[key := used + entry.brokerVolume.units];
      if used + entry.brokerVolume.units > leg.units {
        return Exhausted, i;
      }
    }
    assert records[..|records|] == records;
    return Valid, 0;
  }

  lemma EmptyIsValid(sources: Sources)
    ensures RecordsValid(sources, [])
  {
  }

  lemma SoundIff(sources: Sources, entry: AllocationEntry)
    ensures EntrySound(sources, entry)
       <==> (sources.verdict)(entry) == SourceValid && SameDomain(entry.brokerVolume, (sources.closeLeg)(entry.key.brokerKey))
  {
  }

  // ----- the directory of entries

  type Directory = map<Path, AllocationEntry>

  /** Units that all entries of a directory take from one broker close leg. */
  ghost function Used(entries: Directory, key: ReversalKey): nat
    decreases |entries|
  {
    if entries == map[] then 0
    else
      var path :| path in entries;
      UnitsOn(entries[path], key) + Used(entries - {path}, key)
  }

  /** Which entry is counted first does not matter. */
  lemma {:induction false} UsedRemove(entries: Directory, path: Path, key: ReversalKey)
    requires path in entries
    ensures Used(entries, key) == UnitsOn(entries[path], key) + Used(entries - {path}, key)
    decreases |entries|
  {
    var first :| first in entries && Used(entries, key) == UnitsOn(entries[first], key) + Used(entries - {first}, key);
    if first != path {
      UsedRemove(entries - {first}, path, key);
      UsedRemove(entries - {path}, first, key);
      assert entries - {first} - {path} == entries - {path} - {first};
    }
  }

  lemma UsedPut(entries: Directory, path: Path, entry: AllocationEntry, key: ReversalKey)
    ensures Used(entries[path := entry], key) == UnitsOn(entry, key) + Used(entries - {path}, key)
    ensures Used(entries - {path}, key) <= Used(entries, key)
    ensures path !in entries ==> Used(entries[path := entry], key) == UnitsOn(entry, key) + Used(entries, key)
  {
    UsedRemove(entries[path := entry], path, key);
    assert entries[path := entry] - {path} == entries - {path};
    if path in entries { UsedRemove(entries, path, key); } else { assert entries - {path} == entries; }
  }

  /** A directory listing, in whatever order. */
  ghost predicate Enumerates(listing: seq<Path>, entries: Directory) {
    && (forall i, j :: 0 <= i < j < |listing| ==> listing[i] != listing[j])
    && (forall path :: path in listing <==> path in entries)
  }

  function RecordsOf(listing: seq<Path>, entries: Directory): (r: seq<AllocationEntry>)
    requires forall path <- listing :: path in entries
    ensures |r| == |listing| && forall i :: 0 <= i < |r| ==> r[i] == entries[listing[i]]
  {
    seq(|listing|, i requires 0 <= i < |listing| => entries[listing[i]])
  }

  lemma ListingWithoutLast(listing: seq<Path>, entries: Directory)
    requires listing != [] && Enumerates(listing, entries)
    ensures Enumerates(listing[..|listing| - 1], entries - {listing[|listing| - 1]})
  {
    var init, last := listing[..|listing| - 1], listing[|listing| - 1];
    forall path ensures path in init <==> path in entries && path != last {
      if path in listing && path != last {
        var i :| 0 <= i < |listing| && listing[i] == path;
        assert init[i] == path;
      }
    }
  }

  lemma NothingListed(entries: Directory, key: ReversalKey)
    requires Enumerates([], entries)
    ensures Used(entries, key) == 0
  {
    assert entries == map[];
  }

  lemma {:induction false} UsedOfListing(listing: seq<Path>, entries: Directory, key: ReversalKey)
    requires Enumerates(listing, entries)
    ensures UnitsOf(RecordsOf(listing, entries), key) == Used(entries, key)
    decreases |listing|
  {
    hide Used;
    if listing == [] {
      NothingListed(entries, key);
    } else {
      ListingWithoutLast(listing, entries);
      hide Enumerates;
      var init, last := listing[..|listing| - 1], listing[|listing| - 1];
      UsedOfListing(init, entries - {last}, key);
      assert RecordsOf(listing, entries)[..|listing| - 1] == RecordsOf(init, entries - {last});
      UsedRemove(entries, last, key);
    }
  }

  /** What a historical scan accepts, with no order in sight. */
  ghost predicate ScanAccepts(sources: Sources, entries: Directory) {
    && (forall p <- entries, q <- entries :: p != q ==> entries[p].key.managedKey != entries[q].key.managedKey)
    && (forall p <- entries :: EntrySound(sources, entries[p]))
    && (forall p <- entries :: Used(entries, entries[p].key.brokerKey) <= (sources.closeLeg)(entries[p].key.brokerKey).units)
  }

  /** The verdict on a directory does not depend on the order it is listed in. */
  lemma VerdictIsOrderFree(sources: Sources, listing: seq<Path>, entries: Directory)
    requires Enumerates(listing, entries)
    ensures RecordsValid(sources, RecordsOf(listing, entries)) <==> ScanAccepts(sources, entries)
  {
    hide EntrySound;
    var records := RecordsOf(listing, entries);
    forall key: ReversalKey ensures UnitsOf(records, key) == Used(entries, key) { UsedOfListing(listing, entries, key); }
    if RecordsValid(sources, records) {
      forall p <- entries, q <- entries | p != q ensures entries[p].key.managedKey != entries[q].key.managedKey {
        var i :| 0 <= i < |listing| && listing[i] == p;
        var j :| 0 <= j < |listing| && listing[j] == q;
        assert i < j || j < i;
      }
      forall p <- entries
        ensures EntrySound(sources, entries[p])
        ensures Used(entries, entries[p].key.brokerKey) <= (sources.closeLeg)(entries[p].key.brokerKey).units
      {
        var i :| 0 <= i < |listing| && listing[i] == p;
        assert records[i] == entries[p];
      }
    }
    if ScanAccepts(sources, entries) {
      forall i | 0 <= i < |records| ensures EntrySound(sources, records[i])
        ensures UnitsOf(records, records[i].key.brokerKey) <= (sources.closeLeg)(records[i].key.brokerKey).units
      {
        assert listing[i] in entries;
      }
      forall i, j | 0 <= i < j < |records| ensures records[i].key.managedKey != records[j].key.managedKey {
        assert listing[i] in entries && listing[j] in entries;
      }
    }
  }

  /** The candidate fits beside what is there. */
  ghost predicate Fits(sources: Sources, entries: Directory, entry: AllocationEntry) {
    var leg := (sources.closeLeg)(entry.key.brokerKey);
    SameDomain(entry.brokerVolume, leg) && Used(entries, entry.key.brokerKey) + entry.brokerVolume.units <= leg.units
  }

  /** Conservation: no broker close leg is oversubscribed. */
  ghost predicate CapacityKept(sources: Sources, entries: Directory) {
    forall p <- entries ::
      && SameDomain(entries[p].brokerVolume, (sources.closeLeg)(entries[p].key.brokerKey))
      && Used(entries, entries[p].key.brokerKey) <= (sources.closeLeg)(entries[p].key.brokerKey).units
  }

  /** A fitting entry keeps every close leg within its capacity, even where the file it is written
      to already held another entry. */
  lemma PutKeepsCapacity(sources: Sources, entries: Directory, path: Path, entry: AllocationEntry)
    requires CapacityKept(sources, entries) && Fits(sources, entries, entry)
    ensures CapacityKept(sources, entries[path := entry])
  {
    hide SameDomain;
    var after := entries[path := entry];
    forall p <- after
      ensures SameDomain(after[p].brokerVolume, (sources.closeLeg)(after[p].key.brokerKey))
      ensures Used(after, after[p].key.brokerKey) <= (sources.closeLeg)(after[p].key.brokerKey).units
    {
      UsedPut(entries, path, entry, after[p].key.brokerKey);
    }
  }

  /** Validating the records with the candidate included is what makes the new directory scan. */
  lemma PutScans(sources: Sources, listing: seq<Path>, entries: Directory, path: Path, entry: AllocationEntry)
    requires Enumerates(listing, entries) && RecordsValid(sources, RecordsOf(listing, entries) + [entry])
    ensures ScanAccepts(sources, entries) && ScanAccepts(sources, entries[path := entry]) && Fits(sources, entries, entry)
    ensures forall p <- entries :: entries[p].key.managedKey != entry.key.managedKey
  {
    hide EntrySound;
    hide SameDomain;
    var records := RecordsOf(listing, entries);
    var all, key := records + [entry], entry.key.brokerKey;
    AddRecord(sources, all, |records|);
    assert all[..|records|] == records && all[..|records| + 1] == all;
    VerdictIsOrderFree(sources, listing, entries);
    UsedOfListing(listing, entries, key);
    SoundIff(sources, entry);
    forall p <- entries ensures entries[p].key.managedKey != entry.key.managedKey {
      var i :| 0 <= i < |listing| && listing[i] == p;
      assert all[i] == entries[p];
    }
    PutAccepts(sources, entries, path, entry);
  }

  lemma PutAccepts(sources: Sources, entries: Directory, path: Path, entry: AllocationEntry)
    requires ScanAccepts(sources, entries) && EntrySound(sources, entry)
    requires forall p <- entries :: entries[p].key.managedKey != entry.key.managedKey
    requires Used(entries, entry.key.brokerKey) + entry.brokerVolume.units <= (sources.closeLeg)(entry.key.brokerKey).units
    ensures ScanAccepts(sources, entries[path := entry])
  {
    hide EntrySound;
    var after := entries[path := entry];
    forall p <- after ensures Used(after, after[p].key.brokerKey) <= (sources.closeLeg)(after[p].key.brokerKey).units {
      UsedPut(entries, path, entry, after[p].key.brokerKey);
    }
  }

  // ----- when a call commits

  const HELD := Lease(true, true, true, true)

  predicate Recorded(pathOf: AllocationKey -> Path, entries: Directory, key: AllocationKey) {
    pathOf(key) in entries && entries[pathOf(key)].key == key
  }

  /** Exactly when a commit under full source validation adds its entry. */
  ghost predicate DirectCommits(sources: Sources, entries: Directory, entry: AllocationEntry, mappingMatches: bool, lease: Lease,
                                admission: SourceVerdict, evidence: bool, published: bool) {
    && entry.Valid() && mappingMatches && lease == HELD && admission == SourceValid && evidence && published
    && ScanAccepts(sources, entries) && EntrySound(sources, entry) && Fits(sources, entries, entry)
    && (forall path <- entries :: entries[path].key.managedKey != entry.key.managedKey)
  }

  /** Exactly when a staged commit does; the record set with the candidate is not validated again. */
  ghost predicate StagedCommits(sources: Sources, pathOf: AllocationKey -> Path, entries: Directory, entry: AllocationEntry,
                                matchesPreparation: bool, lease: Lease, durable: SourceVerdict, prior: SourceVerdict, published: bool) {
    && entry.Valid() && matchesPreparation && lease == HELD && durable == SourceValid && prior == SourceValid && published
    && ScanAccepts(sources, entries) && Fits(sources, entries, entry) && !Recorded(pathOf, entries, entry.key)
  }

  // ----- whole runs of the ledger

  /** One call, with whatever the sources answer, the lease allows and the file system does. */
  datatype Call =
    | Direct(entry: AllocationEntry, verdict: AllocationEntry -> SourceVerdict, lease: Lease, mappingMatches: bool,
             admission: SourceVerdict, evidence: bool, published: bool)
    | Staged(entry: AllocationEntry, verdict: AllocationEntry -> SourceVerdict, lease: Lease, matchesPreparation: bool,
             durable: SourceVerdict, prior: SourceVerdict, published: bool)

  /** The ledger's file naming and the close leg that each broker envelope offers. */
  datatype Ledger = Ledger(pathOf: AllocationKey -> Path, closeLeg: ReversalKey -> BrokerVolume)

  ghost predicate Commits(ledger: Ledger, entries: Directory, call: Call) {
    match call
    case Direct(entry, verdict, lease, mappingMatches, admission, evidence, published) =>
      DirectCommits(Sources(verdict, ledger.closeLeg), entries, entry, mappingMatches, lease, admission, evidence, published)
    case Staged(entry, verdict, lease, matchesPreparation, durable, prior, published) =>
      StagedCommits(Sources(verdict, ledger.closeLeg), ledger.pathOf, entries, entry, matchesPreparation, lease, durable, prior, published)
  }

  ghost function AfterCall(ledger: Ledger, entries: Directory, call: Call): Directory {
    if Commits(ledger, entries, call) then entries[(ledger.pathOf)(call.entry.key) := call.entry] else entries
  }

  ghost function AfterRun(ledger: Ledger, entries: Directory, calls: seq<Call>): Directory
    decreases |calls|
  {
    if |calls| == 0 then entries else AfterRun(ledger, AfterCall(ledger, entries, calls[0]), calls[1..])
  }

  ghost predicate NoNameReused(ledger: Ledger, entries: Directory, calls: seq<Call>)
    decreases |calls|
  {
    |calls| == 0
    || (&& (Commits(ledger, entries, calls[0]) ==> (ledger.pathOf)(calls[0].entry.key) !in entries)
        && NoNameReused(ledger, AfterCall(ledger, entries, calls[0]), calls[1..]))
  }

  /** Units of one close leg that the calls of a run committed. */
  ghost function UnitsCommitted(ledger: Ledger, entries: Directory, calls: seq<Call>, key: ReversalKey): nat
    decreases |calls|
  {
    if |calls| == 0 then 0
    else
      (if Commits(ledger, entries, calls[0]) then UnitsOn(calls[0].entry, key) else 0)
      + UnitsCommitted(ledger, AfterCall(ledger, entries, calls[0]), calls[1..], key)
  }

  /** Units of one close leg that a commit erases by replacing the file it finds under its name. */
  ghost function ErasedBy(ledger: Ledger, entries: Directory, call: Call, key: ReversalKey): nat {
    var path := (ledger.pathOf)(call.entry.key);
    if Commits(ledger, entries, call) && path in entries then UnitsOn(entries[path], key) else 0
  }

  ghost function UnitsErased(ledger: Ledger, entries: Directory, calls: seq<Call>, key: ReversalKey): nat
    decreases |calls|
  {
    if |calls| == 0 then 0
    else ErasedBy(ledger, entries, calls[0], key) + UnitsErased(ledger, AfterCall(ledger, entries, calls[0]), calls[1..], key)
  }

  lemma CallConserves(ledger: Ledger, sources: Sources, entries: Directory, call: Call)
    requires sources.closeLeg == ledger.closeLeg && CapacityKept(sources, entries)
    ensures CapacityKept(sources, AfterCall(ledger, entries, call))
  {
    hide CapacityKept;
    hide ScanAccepts;
    hide EntrySound;
    if Commits(ledger, entries, call) { PutKeepsCapacity(sources, entries, (ledger.pathOf)(call.entry.key), call.entry); }
  }

  lemma CallAccounts(ledger: Ledger, entries: Directory, call: Call, key: ReversalKey)
    ensures Used(AfterCall(ledger, entries, call), key) + ErasedBy(ledger, entries, call, key)
         == Used(entries, key) + if Commits(ledger, entries, call) then UnitsOn(call.entry, key) else 0
  {
    hide Commits;
    if Commits(ledger, entries, call) {
      var path := (ledger.pathOf)(call.entry.key);
      UsedPut(entries, path, call.entry, key);
      if path in entries { UsedRemove(entries, path, key); }
    }
  }

  /** The account of every run, whatever its calls are told: what the directory holds and what was
      erased is together what it held before and what was committed. */
  lemma {:induction false} RunAccounts(ledger: Ledger, entries: Directory, calls: seq<Call>, key: ReversalKey)
    ensures Used(AfterRun(ledger, entries, calls), key) + UnitsErased(ledger, entries, calls, key)
         == Used(entries, key) + UnitsCommitted(ledger, entries, calls, key)
    decreases |calls|
  {
    hide Commits;
    hide ErasedBy;
    hide AfterCall;
    if |calls| != 0 {
      CallAccounts(ledger, entries, calls[0], key);
      RunAccounts(ledger, AfterCall(ledger, entries, calls[0]), calls[1..], key);
    }
  }

  /** Conservation over every run of calls, direct and staged, whatever each of them is told: no
      close leg is ever oversubscribed, and every unit committed is still in the directory or was
      erased under a reused name. */
  lemma {:induction false} RunConserves(ledger: Ledger, sources: Sources, entries: Directory, calls: seq<Call>, key: ReversalKey)
    requires sources.closeLeg == ledger.closeLeg && CapacityKept(sources, entries)
    ensures CapacityKept(sources, AfterRun(ledger, entries, calls))
    ensures Used(AfterRun(ledger, entries, calls), key) + UnitsErased(ledger, entries, calls, key)
         == Used(entries, key) + UnitsCommitted(ledger, entries, calls, key)
    ensures NoNameReused(ledger, entries, calls)
            ==> Used(AfterRun(ledger, entries, calls), key) == Used(entries, key) + UnitsCommitted(ledger, entries, calls, key)
    decreases |calls|
  {
    hide CapacityKept;
    hide Commits;
    hide AfterCall;
    RunAccounts(ledger, entries, calls, key);
    if |calls| != 0 {
      CallConserves(ledger, sources, entries, calls[0]);
      RunConserves(ledger, sources, AfterCall(ledger, entries, calls[0]), calls[1..], key);
    }
  }

  /** No entry of the directory is empty of units; every valid entry has some. */
  ghost predicate NoneEmpty(entries: Directory) {
    forall path <- entries :: entries[path].brokerVolume.units != 0
  }

  ghost predicate NothingErased(ledger: Ledger, entries: Directory, calls: seq<Call>) {
    forall key: ReversalKey :: UnitsErased(ledger, entries, calls, key) == 0
  }

  /** Something is erased exactly where a name is reused. */
  lemma {:induction false} ErasesIffReused(ledger: Ledger, entries: Directory, calls: seq<Call>)
    requires NoneEmpty(entries)
    ensures NothingErased(ledger, entries, calls) <==> NoNameReused(ledger, entries, calls)
    decreases |calls|
  {
    if |calls| != 0 {
      var call, next := calls[0], AfterCall(ledger, entries, calls[0]);
      var path := (ledger.pathOf)(call.entry.key);
      CommitsUnits(ledger, entries, call);
      hide Commits;
      ErasesIffReused(ledger, next, calls[1..]);
      if Commits(ledger, entries, call) && path in entries {
        assert UnitsErased(ledger, entries, calls, entries[path].key.brokerKey) != 0;
      } else if !NoNameReused(ledger, next, calls[1..]) {
        var key: ReversalKey :| UnitsErased(ledger, next, calls[1..], key) != 0;
        assert UnitsErased(ledger, entries, calls, key) != 0;
      } else {
        forall key: ReversalKey ensures UnitsErased(ledger, entries, calls, key) == 0 {
          assert UnitsErased(ledger, next, calls[1..], key) == 0;
        }
      }
    }
  }

  lemma CommitsUnits(ledger: Ledger, entries: Directory, call: Call)
    ensures Commits(ledger, entries, call) ==> call.entry.brokerVolume.units != 0
  {
  }

  /** Over every run the directory accounts, for every broker, for every unit ever committed if and
      only if no commit replaces a file of the same name: each reuse loses units of some broker. */
  lemma AccountsIff(ledger: Ledger, entries: Directory, calls: seq<Call>)
    requires NoneEmpty(entries)
    ensures (forall key: ReversalKey ::
               Used(AfterRun(ledger, entries, calls), key) == Used(entries, key) + UnitsCommitted(ledger, entries, calls, key))
       <==> NoNameReused(ledger, entries, calls)
  {
    hide NoNameReused;
    hide Used;
    hide AfterRun;
    hide UnitsErased;
    hide UnitsCommitted;
    ErasesIffReused(ledger, entries, calls);
    if !NothingErased(ledger, entries, calls) {
      var key: ReversalKey :| UnitsErased(ledger, entries, calls, key) != 0;
      RunAccounts(ledger, entries, calls, key);
    } else {
      forall key: ReversalKey
        ensures Used(AfterRun(ledger, entries, calls), key) == Used(entries, key) + UnitsCommitted(ledger, entries, calls, key)
      {
        RunAccounts(ledger, entries, calls, key);
      }
    }
  }

  // ----- the store

  class AllocationStore {
    const pathOf: AllocationKey -> Path
    var entries: Directory

    constructor (pathOf: AllocationKey -> Path)
      ensures this.pathOf == pathOf && entries == map[] && FilesNamed()
    {
      this.pathOf := pathOf;
      entries := map[];
    }

    ghost predicate FilesNamed()
      reads this
    {
      forall path <- entries :: pathOf(entries[path].key) == path
    }

    /** Whether some record of the listing carries this key. */
    method Find(listing: seq<Path>, key: AllocationKey) returns (existing: Option<AllocationEntry>)
      requires FilesNamed() && Enumerates(listing, entries)
      ensures existing.Some? <==> Recorded(pathOf, entries, key)
      ensures existing.Some? ==> existing.value == entries[pathOf(key)]
    {
      for i := 0 to |listing|
        invariant forall k :: 0 <= k < i ==> entries[listing[k]].key != key
      {
        if entries[listing[i]].key == key {
          return Some(entries[listing[i]]);
        }
      }
      return None;
    }

    /** Commits one entry under full source validation. `admission` and `evidence` are the verdicts
        of source admission and of the revision comparison; `published` says whether the file
        write took effect. A committed entry leaves a directory that scans. */
    method Commit(entry: AllocationEntry, mappingMatches: bool, sources: Sources, listing: seq<Path>, lease: Lease,
                  admission: SourceVerdict, evidence: bool, published: bool) returns (status: CommitStatus)
      requires FilesNamed() && Enumerates(listing, entries)
      modifies this
      ensures FilesNamed()
      ensures status.Committed? <==> DirectCommits(sources, old(entries), entry, mappingMatches, lease, admission, evidence, published)
      ensures entries == if status.Committed? then old(entries)[pathOf(entry.key) := entry] else old(entries)
      ensures status.Committed? ==> ScanAccepts(sources, entries)
      ensures status.AlreadyCommitted? || status.Conflict? <==>
                && entry.Valid() && mappingMatches && lease.initially && lease.locked && lease.atEnd
                && ScanAccepts(sources, old(entries)) && Recorded(pathOf, old(entries), entry.key)
      ensures status.AlreadyCommitted? ==> old(entries)[pathOf(entry.key)] == entry
      ensures status.Conflict? ==> old(entries)[pathOf(entry.key)] != entry
      ensures status.CapacityExhausted? <==>
                && entry.Valid() && mappingMatches && lease.initially && lease.locked && ScanAccepts(sources, old(entries))
                && !Recorded(pathOf, old(entries), entry.key) && admission == SourceValid && evidence && EntrySound(sources, entry)
                && (forall path <- old(entries) :: old(entries)[path].key.managedKey != entry.key.managedKey)
                && (sources.closeLeg)(entry.key.brokerKey).units
                   < Used(old(entries), entry.key.brokerKey) + entry.brokerVolume.units <= U64_MAX
    {
      hide RecordsValid;
      hide ScanAccepts;
      hide OverdrawnAt;
      if !entry.Valid() || !mappingMatches {
        return InvalidRecord;
      }
      if !lease.initially || !lease.locked {
        return LeaseNotHeld;
      }
      var records := RecordsOf(listing, entries);
      var historical := ValidateSources(sources, records);
      VerdictIsOrderFree(sources, listing, entries);
      if historical != Valid {
        return SourceStatus(historical);
      }
      var existing := Find(listing, entry.key);
      if existing.Some? {
        if !lease.atEnd { return LeaseNotHeld; }
        return if existing.value == entry then AlreadyCommitted else Conflict;
      }
      if admission != SourceValid {
        return match admission case SourceMissing => MissingSource case SourceIoError => IoError case _ => InvalidSource;
      }
      if !evidence {
        return InvalidSource;
      }
      var complete := ValidateSources(sources, records + [entry]);
      CandidateValidIff(sources, listing, entries, entry);
      CandidateOverdrawnIff(sources, listing, entries, entry);
      if complete != Valid {
        return if complete == Exhausted then CapacityExhausted else SourceStatus(complete);
      }
      PutScans(sources, listing, entries, pathOf(entry.key), entry);
      status := WriteEntry(entry, lease, published);
    }

    /** Commits one entry against a prepared settlement: `durable` says whether that very
        preparation is on disk, `prior` is the verdict of the checks on journal, broker record, envelope
        and mapping. Only the capacity of the broker
        leg is revalidated with the candidate included. */
    method CommitStaged(entry: AllocationEntry, matchesPreparation: bool, sources: Sources, listing: seq<Path>, lease: Lease,
                        durable: SourceVerdict, prior: SourceVerdict, published: bool) returns (status: CommitStatus)
      requires FilesNamed() && Enumerates(listing, entries)
      modifies this
      ensures FilesNamed()
      ensures status.Committed?
         <==> StagedCommits(sources, pathOf, old(entries), entry, matchesPreparation, lease, durable, prior, published)
      ensures entries == if status.Committed? then old(entries)[pathOf(entry.key) := entry] else old(entries)
      ensures status.AlreadyCommitted? || status.Conflict? <==>
                && entry.Valid() && matchesPreparation && lease.initially && durable == SourceValid && lease.locked && lease.atEnd
                && Recorded(pathOf, old(entries), entry.key)
      ensures status.AlreadyCommitted? ==> old(entries)[pathOf(entry.key)] == entry
      ensures status.Conflict? ==> old(entries)[pathOf(entry.key)] != entry
      ensures status.CapacityExhausted? <==>
                && entry.Valid() && matchesPreparation && lease.initially && durable == SourceValid && lease.locked
                && !Recorded(pathOf, old(entries), entry.key) && ScanAccepts(sources, old(entries)) && prior == SourceValid
                && !Fits(sources, old(entries), entry)
    {
      hide RecordsValid;
      hide ScanAccepts;
      hide Fits;
      if !entry.Valid() || !matchesPreparation {
        return InvalidRecord;
      }
      if !lease.initially {
        return LeaseNotHeld;
      }
      if durable != SourceValid {
        return if durable == SourceIoError then IoError else InvalidSource;
      }
      if !lease.locked {
        return LeaseNotHeld;
      }
      var existing := Find(listing, entry.key);
      if existing.Some? {
        if !lease.atEnd { return LeaseNotHeld; }
        return if existing.value == entry then AlreadyCommitted else Conflict;
      }
      var records := RecordsOf(listing, entries);
      var historical := ValidateSources(sources, records);
      VerdictIsOrderFree(sources, listing, entries);
      if historical != Valid {
        return SourceStatus(historical);
      }
      if prior != SourceValid {
        return match prior case SourceMissing => MissingSource case SourceIoError => IoError case _ => InvalidSource;
      }
      var allowed := StagedCapacityAllows(sources, records, entry);
      AllowedIffFits(sources, listing, entries, entry);
      if !allowed {
        return CapacityExhausted;
      }
      status := WriteEntry(entry, lease, published);
    }

    method WriteEntry(entry: AllocationEntry, lease: Lease, published: bool) returns (status: CommitStatus)
      requires FilesNamed()
      modifies this
      ensures FilesNamed()
      ensures status.Committed? <==> lease.atEnd && lease.atPublication && published
      ensures entries == if status.Committed? then old(entries)[pathOf(entry.key) := entry] else old(entries)
      ensures status in {Committed, LeaseNotHeld, IoError}
    {
      if !lease.atEnd || !lease.atPublication {
        return LeaseNotHeld;
      }
      if !published {
        return IoError;
      }
      entries := entries[pathOf(entry.key) := entry];
      return Committed;
    }
  }

  function SourceStatus(verdict: Validation): (status: CommitStatus)
    requires !verdict.Valid?
    ensures status in {MissingSource, InvalidSource, IoError}
  {
    match verdict
    case Missing => MissingSource
    case ValidationIoError => IoError
    case _ => InvalidSource
  }

  /** The running sum stops at the first foreign volume domain or wrapping addition. */
  method StagedCapacityAllows(sources: Sources, records: seq<AllocationEntry>, candidate: AllocationEntry) returns (allowed: bool)
    ensures allowed <==>
      var key, leg := candidate.key.brokerKey, (sources.closeLeg)(candidate.key.brokerKey);
      && (forall i :: 0 <= i < |records| && records[i].key.brokerKey == key ==> SameDomain(records[i].brokerVolume, leg))
      && SameDomain(candidate.brokerVolume, leg) && UnitsOf(records, key) + candidate.brokerVolume.units <= leg.units
  {
    var key, leg := candidate.key.brokerKey, (sources.closeLeg)(candidate.key.brokerKey);
    var used: u64 := 0;
    for i := 0 to |records|
      invariant used == UnitsOf(records[..i], key)
      invariant forall k :: 0 <= k < i && records[k].key.brokerKey == key ==> SameDomain(records[k].brokerVolume, leg)
    {
      var record := records[i];
      assert records[..i + 1][..i] == records[..i];
      UnitsOfPrefix(records, i + 1, key);
      if record.key.brokerKey != key { continue; }
      if !SameDomain(record.brokerVolume, leg) || used > U64_MAX - record.brokerVolume.units {
        return false;
      }
      used := used + record.brokerVolume.units;
    }
    assert records[..|records|] == records;
    return used <= leg.units && SameDomain(candidate.brokerVolume, leg) && candidate.brokerVolume.units <= leg.units - used;
  }

  lemma AllowedIffFits(sources: Sources, listing: seq<Path>, entries: Directory, entry: AllocationEntry)
    requires Enumerates(listing, entries) && ScanAccepts(sources, entries)
    ensures var records, key, leg := RecordsOf(listing, entries), entry.key.brokerKey, (sources.closeLeg)(entry.key.brokerKey);
            Fits(sources, entries, entry)
            <==> (&& (forall i :: 0 <= i < |records| && records[i].key.brokerKey == key ==> SameDomain(records[i].brokerVolume, leg))
                  && SameDomain(entry.brokerVolume, leg) && UnitsOf(records, key) + entry.brokerVolume.units <= leg.units)
  {
    hide SameDomain;
    UsedOfListing(listing, entries, entry.key.brokerKey);
    forall i | 0 <= i < |listing| && entries[listing[i]].key.brokerKey == entry.key.brokerKey
      ensures SameDomain(entries[listing[i]].brokerVolume, (sources.closeLeg)(entry.key.brokerKey))
    {
      assert listing[i] in entries;
      SoundIff(sources, entries[listing[i]]);
    }
  }

  /** Validating with the candidate finds the capacity exhausted exactly if that is all that fails. */
  lemma CandidateOverdrawnIff(sources: Sources, listing: seq<Path>, entries: Directory, entry: AllocationEntry)
    requires Enumerates(listing, entries) && ScanAccepts(sources, entries)
    ensures (exists i :: OverdrawnAt(sources, RecordsOf(listing, entries) + [entry], i))
       <==> && EntrySound(sources, entry) && (forall path <- entries :: entries[path].key.managedKey != entry.key.managedKey)
            && (sources.closeLeg)(entry.key.brokerKey).units
               < Used(entries, entry.key.brokerKey) + entry.brokerVolume.units <= U64_MAX
  {
    VerdictIsOrderFree(sources, listing, entries);
    UsedOfListing(listing, entries, entry.key.brokerKey);
    hide EntrySound, RecordsValid, ScanAccepts, SameDomain;
    var records := RecordsOf(listing, entries);
    var all := records + [entry];
    assert all[..|records|] == records;
    forall j | OverdrawnAt(sources, all, j) ensures j == |records| {
      if j < |records| {
        assert all[..j] == records[..j];
        ValidIsNotOverdrawn(sources, records, j);
      }
    }
    forall i | 0 <= i < |listing| ensures listing[i] in entries {}
    assert OverdrawnAt(sources, all, |records|)
      <==> && EntrySound(sources, entry) && (forall path <- entries :: entries[path].key.managedKey != entry.key.managedKey)
           && (sources.closeLeg)(entry.key.brokerKey).units < Used(entries, entry.key.brokerKey) + entry.brokerVolume.units <= U64_MAX by {
      ManagedKeysListed(listing, entries, entry);
    }
  }

  lemma ManagedKeysListed(listing: seq<Path>, entries: Directory, entry: AllocationEntry)
    requires Enumerates(listing, entries)
    ensures var all := RecordsOf(listing, entries) + [entry];
            (forall k :: 0 <= k < |listing| ==> all[k].key.managedKey != entry.key.managedKey)
            <==> forall path <- entries :: entries[path].key.managedKey != entry.key.managedKey
  {
    var all := RecordsOf(listing, entries) + [entry];
    forall path <- entries | entries[path].key.managedKey == entry.key.managedKey
      ensures exists k :: 0 <= k < |listing| && all[k].key.managedKey == entry.key.managedKey
    {
      var k :| 0 <= k < |listing| && listing[k] == path;
      assert all[k] == entries[path];
    }
    forall k | 0 <= k < |listing| && all[k].key.managedKey == entry.key.managedKey
      ensures exists path <- entries :: entries[path].key.managedKey == entry.key.managedKey
    {
      assert listing[k] in entries && all[k] == entries[listing[k]];
    }
  }

  lemma CandidateValidIff(sources: Sources, listing: seq<Path>, entries: Directory, entry: AllocationEntry)
    requires Enumerates(listing, entries)
    ensures RecordsValid(sources, RecordsOf(listing, entries) + [entry])
       <==> && ScanAccepts(sources, entries) && EntrySound(sources, entry) && Fits(sources, entries, entry)
            && (forall path <- entries :: entries[path].key.managedKey != entry.key.managedKey)
  {
    hide EntrySound;
    hide SameDomain;
    var records := RecordsOf(listing, entries);
    var all := records + [entry];
    AddRecord(sources, all, |records|);
    assert all[..|records|] == records && all[..|records| + 1] == all;
    VerdictIsOrderFree(sources, listing, entries);
    UsedOfListing(listing, entries, entry.key.brokerKey);
    SoundIff(sources, entry);
    if forall path <- entries :: entries[path].key.managedKey != entry.key.managedKey {
      forall k | 0 <= k < |records| ensures all[k].key.managedKey != entry.key.managedKey { assert listing[k] in entries; }
    }
    if RecordsValid(sources, all) { PutScans(sources, listing, entries, 0, entry); }
  }

  /** A direct commit for which everything is in order. */
  function Granted(entry: AllocationEntry): Call {
    Direct(entry, _ => SourceValid, HELD, true, SourceValid, true, true)
  }

  predicate WithinLeg(ledger: Ledger, entry: AllocationEntry) {
    var leg := (ledger.closeLeg)(entry.key.brokerKey);
    entry.Valid() && SameDomain(entry.brokerVolume, leg) && entry.brokerVolume.units <= leg.units
  }

  lemma FirstCommits(ledger: Ledger, a: AllocationEntry)
    requires WithinLeg(ledger, a)
    ensures Commits(ledger, map[], Granted(a))
  {
  }

  lemma NextCommits(ledger: Ledger, path: Path, a: AllocationEntry, b: AllocationEntry)
    requires WithinLeg(ledger, a) && WithinLeg(ledger, b) && a.key.brokerKey != b.key.brokerKey
    ensures Commits(ledger, map[path := a], Granted(b))
  {
    var none: Directory := map[];
    UsedPut(none, path, a, a.key.brokerKey);
    UsedPut(none, path, a, b.key.brokerKey);
    assert none[path := a] == map[path := a];
  }

  /** Names hash only part of a key, and a write replaces what it finds: where two brokers' entries
      share a name, the second erases the first, which can then be committed again although its
      close leg was already spent. */
  lemma ReusedNameForgets(ledger: Ledger, a: AllocationEntry, b: AllocationEntry)
    requires WithinLeg(ledger, a) && WithinLeg(ledger, b)
    requires (ledger.pathOf)(a.key) == (ledger.pathOf)(b.key) && a.key.brokerKey != b.key.brokerKey
    ensures var calls := [Granted(a), Granted(b), Granted(a)];
            && UnitsCommitted(ledger, map[], calls, a.key.brokerKey) == 2 * a.brokerVolume.units
            && Used(AfterRun(ledger, map[], calls), a.key.brokerKey) == a.brokerVolume.units
  {
    hide Commits;
    hide WithinLeg;
    var path, key := (ledger.pathOf)(a.key), a.key.brokerKey;
    var none: Directory := map[];
    var first, second := none[path := a], none[path := b];
    FirstCommits(ledger, a);
    NextCommits(ledger, path, a, b);
    NextCommits(ledger, path, b, a);
    UsedPut(none, path, a, key);
    var calls := [Granted(a), Granted(b), Granted(a)];
    assert calls[1..] == [Granted(b), Granted(a)] && calls[1..][1..] == [Granted(a)] && calls[1..][1..][1..] == [];
    assert AfterCall(ledger, none, Granted(a)) == first && first[path := b] == second && second[path := a] == first;
    assert AfterCall(ledger, first, Granted(b)) == second && AfterCall(ledger, second, Granted(a)) == first;
    hide AfterCall;
    assert AfterRun(ledger, first, calls[1..]) == AfterRun(ledger, second, calls[1..][1..]) == AfterRun(ledger, first, []) == first;
    assert UnitsCommitted(ledger, second, [Granted(a)], key) == a.brokerVolume.units + UnitsCommitted(ledger, first, [], key);
    assert UnitsCommitted(ledger, first, calls[1..], key) == 0 + UnitsCommitted(ledger, second, [Granted(a)], key);
  }
}
