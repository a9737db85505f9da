/** The opening allocation prepare/publish protocol of one account directory
    (src/dispatch/file_managed_opening_allocation_store.cpp:706-921, 1061-1155, 1196-1367). */
module OpeningAllocationStore {
  import opened MachineWords
  import opened Options
  import opened SettlementRecords
  import opened OpeningSources

  type Path = nat

  /** File names hash the key; any function at all, so collisions are covered. */
  type Naming = OpeningKey -> Path

  datatype Directory = Directory(preps: map<Path, OpeningEntry>, allocs: map<Path, OpeningEntry>)

  datatype Step = WritePrep(entry: OpeningEntry) | WriteAlloc(entry: OpeningEntry) | RemovePrep(key: OpeningKey)

  datatype Status =
    | Committed | AlreadyCommitted | Conflict | InvalidRecord | MissingSource | InvalidSource | LeaseNotHeld | IoError | Superseded

  function Apply(name: Naming, dir: Directory, step: Step): Directory {
    match step
    case WritePrep(entry) => dir.(preps := dir.preps[name(entry.key) := entry])
    case WriteAlloc(entry) => dir.(allocs := dir.allocs[name(entry.key) := entry])
    case RemovePrep(key) => dir.(preps := dir.preps - {name(key)})
  }

  function ApplyAll(name: Naming, dir: Directory, steps: seq<Step>): Directory
    decreases |steps|
  {
    if steps == [] then dir else ApplyAll(name, Apply(name, dir, steps[0]), steps[1..])
  }

  /** Equal up to the frontier discriminator. */
  predicate SamePayload(a: OpeningEntry, b: OpeningEntry) {
    a.(key := a.key.(frontierRevision := 1)) == b.(key := b.key.(frontierRevision := 1))
  }

  // ----- looking for a source-equivalent record

  datatype Equivalent = NoEquivalent | FoundEquivalent(entry: OpeningEntry, allocation: bool) | AmbiguousRecords

  ghost predicate UniqueMatch(records: map<Path, OpeningEntry>, candidate: OpeningEntry) {
    forall p <- records, q <- records :: SamePayload(candidate, records[p]) && SamePayload(candidate, records[q]) ==> p == q
  }

  ghost predicate HasMatch(records: map<Path, OpeningEntry>, candidate: OpeningEntry) {
    exists p <- records :: SamePayload(candidate, records[p])
  }

  ghost function MatchIn(records: map<Path, OpeningEntry>, candidate: OpeningEntry): (e: OpeningEntry)
    requires HasMatch(records, candidate)
    ensures SamePayload(candidate, e) && exists p <- records :: records[p] == e
  {
    var p :| p in records && SamePayload(candidate, records[p]);
    records[p]
  }

  ghost function FindEquivalent(dir: Directory, candidate: OpeningEntry): Equivalent {
    if !UniqueMatch(dir.allocs, candidate) || !UniqueMatch(dir.preps, candidate) then AmbiguousRecords
    else if HasMatch(dir.allocs, candidate) then
      if HasMatch(dir.preps, candidate) && MatchIn(dir.preps, candidate).key != MatchIn(dir.allocs, candidate).key then AmbiguousRecords
      else FoundEquivalent(MatchIn(dir.allocs, candidate), true)
    else if HasMatch(dir.preps, candidate) then FoundEquivalent(MatchIn(dir.preps, candidate), false)
    else NoEquivalent
  }

  /** The scan over both record kinds, with one slot each. */
  method ScanForMatch(records: map<Path, OpeningEntry>, listing: seq<Path>, candidate: OpeningEntry)
    returns (unique: bool, found: Option<OpeningEntry>)
    requires forall p :: p in listing <==> p in records
    requires forall i, j :: 0 <= i < j < |listing| ==> listing[i] != listing[j]
    ensures unique <==> UniqueMatch(records, candidate)
    ensures unique ==> (found.Some? <==> HasMatch(records, candidate))
    ensures unique && found.Some? ==> found.value == MatchIn(records, candidate)
  {
    hide SamePayload;
    found := None;
    ghost var at := 0;
    for i := 0 to |listing|
      invariant found.Some? ==> at in listing[..i] && records[at] == found.value && SamePayload(candidate, records[at])
      invariant forall k :: 0 <= k < i && SamePayload(candidate, records[listing[k]]) ==> found.Some? && listing[k] == at
    {
      if !SamePayload(candidate, records[listing[i]]) { continue; }
      if found.Some? {
        assert listing[i] != at && at in records;
        return false, found;
      }
      found, at := Some(records[listing[i]]), listing[i];
    }
    forall p <- records | SamePayload(candidate, records[p]) ensures found.Some? && p == at {
      var k :| 0 <= k < |listing| && listing[k] == p;
    }
    unique := true;
  }

  // ----- what every reachable directory satisfies

  ghost predicate IsRecord(dir: Directory, e: OpeningEntry) {
    (exists p <- dir.preps :: dir.preps[p] == e) || (exists p <- dir.allocs :: dir.allocs[p] == e)
  }

  ghost predicate Named(name: Naming, records: map<Path, OpeningEntry>) {
    forall p <- records :: name(records[p].key) == p && records[p].Valid()
  }

  /** Records are valid and stand under their own names; equal payloads share one key; a
      preparation and an allocation under one name are equal. */
  ghost predicate Consistent(name: Naming, dir: Directory) {
    && Named(name, dir.preps) && Named(name, dir.allocs)
    && (forall a: OpeningEntry, b: OpeningEntry :: IsRecord(dir, a) && IsRecord(dir, b) && SamePayload(a, b) ==> a.key == b.key)
    && (forall p <- dir.preps :: p in dir.allocs ==> dir.preps[p] == dir.allocs[p])
  }

  ghost predicate AllocsKept(before: Directory, after: Directory) {
    forall p <- before.allocs :: p in after.allocs && after.allocs[p] == before.allocs[p]
  }

  /** r still vouches for e: same operation, all its tickets, at least its managed quantity. */
  ghost predicate Covers(r: OpeningEntry, e: OpeningEntry) {
    r.key.operationKey == e.key.operationKey && e.Tickets() <= r.Tickets() && e.managedUnits <= r.managedUnits
  }

  ghost predicate Witnessed(dir: Directory, e: OpeningEntry) {
    exists r: OpeningEntry :: IsRecord(dir, r) && Covers(r, e)
  }

  /** Nothing that was witnessed loses its witness. */
  ghost predicate WitnessesKept(before: Directory, after: Directory) {
    forall e: OpeningEntry :: Witnessed(before, e) ==> Witnessed(after, e)
  }

  lemma SamePayloadIsEquivalence(a: OpeningEntry, b: OpeningEntry, c: OpeningEntry)
    ensures SamePayload(a, a) && (SamePayload(a, b) ==> SamePayload(b, a))
    ensures SamePayload(a, b) && SamePayload(b, c) ==> SamePayload(a, c)
    ensures SamePayload(a, b) && a.key == b.key ==> a == b
    ensures SamePayload(a, b) ==> a.references == b.references && a.managedUnits == b.managedUnits && a.key.operationKey == b.key.operationKey
  {
  }

  /** In a consistent directory the equivalence scan is never ambiguous, and a match of a record
      carries that record's key. */
  lemma EquivalentIsUnique(name: Naming, dir: Directory, candidate: OpeningEntry)
    requires Consistent(name, dir)
    ensures !FindEquivalent(dir, candidate).AmbiguousRecords?
    ensures FindEquivalent(dir, candidate).FoundEquivalent? ==>
              IsRecord(dir, FindEquivalent(dir, candidate).entry) && SamePayload(candidate, FindEquivalent(dir, candidate).entry)
    ensures FindEquivalent(dir, candidate).NoEquivalent? ==> forall r: OpeningEntry :: IsRecord(dir, r) ==> !SamePayload(candidate, r)
    ensures IsRecord(dir, candidate) ==> FindEquivalent(dir, candidate).FoundEquivalent? && FindEquivalent(dir, candidate).entry == candidate
  {
    hide SamePayload;
    forall a: OpeningEntry, b: OpeningEntry | IsRecord(dir, a) && IsRecord(dir, b) && SamePayload(candidate, a) && SamePayload(candidate, b)
      ensures a == b
    {
      SamePayloadIsEquivalence(candidate, a, b);
      SamePayloadIsEquivalence(a, candidate, b);
      SamePayloadIsEquivalence(a, b, b);
    }
    forall p | p in dir.allocs ensures IsRecord(dir, dir.allocs[p]) {}
    forall p | p in dir.preps ensures IsRecord(dir, dir.preps[p]) {}
    SamePayloadIsEquivalence(candidate, candidate, candidate);
  }

  // ----- the decisions

  function SupportStatus(support: Support): Status {
    match support
    case SourceMissing => MissingSource
    case SourceIo => IoError
    case _ => InvalidSource
  }

  /** File steps of a preparation. */
  ghost function PreparePlan(name: Naming, dir: Directory, entry: OpeningEntry, proof: Proof, sources: Sources): (Status, seq<Step>) {
    var path := name(entry.key);
    if !entry.Valid() then (InvalidRecord, [])
    else
      match FindEquivalent(dir, entry)
      case AmbiguousRecords => (InvalidRecord, [])
      case FoundEquivalent(found, _) =>
        (if Validate(found, None, sources) == Supported then AlreadyCommitted else SupportStatus(Validate(found, None, sources)), [])
      case NoEquivalent =>
        if Validate(entry, Some(proof), sources) != Supported then (SupportStatus(Validate(entry, Some(proof), sources)), [])
        else if path in dir.allocs then
          (if dir.allocs[path] != entry || (path in dir.preps && dir.preps[path] != entry) then Conflict else AlreadyCommitted, [])
        else if path in dir.preps then (if dir.preps[path] == entry then AlreadyCommitted else Conflict, [])
        else (Committed, [WritePrep(entry)])
  }

  datatype Probe = Free | ForeignKey | OtherPayload | SameRecord

  function ProbeAt(name: Naming, records: map<Path, OpeningEntry>, s: OpeningEntry): Probe {
    var path := name(s.key);
    if path !in records then Free
    else if records[path].key != s.key then ForeignKey
    else if !SamePayload(s, records[path]) then OtherPayload
    else SameRecord
  }

  /** The successor under the first discriminator, from its own upwards, that no other payload holds. */
  function SuccessorFrom(name: Naming, dir: Directory, s: OpeningEntry, proof: Proof, sources: Sources): (Status, seq<Step>)
    decreases U64_MAX - s.key.frontierRevision
  {
    if Validate(s, Some(proof), sources) != Supported then (SupportStatus(Validate(s, Some(proof), sources)), [])
    else
      var alloc, prep := ProbeAt(name, dir.allocs, s), ProbeAt(name, dir.preps, s);
      if alloc == ForeignKey || (alloc != OtherPayload && prep == ForeignKey) then (InvalidRecord, [])
      else if alloc == OtherPayload || prep == OtherPayload then
        if s.key.frontierRevision == U64_MAX then (InvalidSource, [])
        else SuccessorFrom(name, dir, s.(key := s.key.(frontierRevision := s.key.frontierRevision + 1)), proof, sources)
      else if alloc == SameRecord || prep == SameRecord then (Committed, [])
      else (Committed, [WritePrep(s)])
  }

  function FirstSuccessor(built: OpeningEntry, predecessor: OpeningEntry): OpeningEntry
    requires predecessor.key.frontierRevision != U64_MAX
  {
    built.(key := built.key.(frontierRevision := Max(built.key.frontierRevision, predecessor.key.frontierRevision + 1)))
  }

  /** Makes the cumulative successor of an overtaken preparation durable. */
  ghost function SuccessorPlan(name: Naming, dir: Directory, predecessor: OpeningEntry, proof: Proof, sources: Sources): (Status, seq<Step>) {
    if Validate(predecessor, None, sources) != Supported then (SupportStatus(Validate(predecessor, None, sources)), [])
    else if sources.scan.ScanIo? then (IoError, [])
    else if BuildEntry(proof, sources.scan).None? || predecessor.key.frontierRevision == U64_MAX then (InvalidSource, [])
    else
      var s := FirstSuccessor(BuildEntry(proof, sources.scan).value, predecessor);
      match FindEquivalent(dir, s)
      case AmbiguousRecords => (InvalidRecord, [])
      case FoundEquivalent(found, _) =>
        (if Validate(found, Some(proof), sources) == Supported then Committed else SupportStatus(Validate(found, Some(proof), sources)), [])
      case NoEquivalent => SuccessorFrom(name, dir, s, proof, sources)
  }

  datatype VerifierFailure = Unavailable | BadRequest | BadEvidence | VerifierLeaseLost | VerifierIo

  /** A fresh source verification. */
  datatype Verification = Verified(proof: Proof) | NotVerified(failure: VerifierFailure)

  function VerifierStatus(failure: VerifierFailure): Status {
    match failure
    case Unavailable => MissingSource
    case VerifierIo => IoError
    case VerifierLeaseLost => LeaseNotHeld
    case _ => InvalidSource
  }

  /** File steps of a publication. */
  ghost function PublishPlan(name: Naming, dir: Directory, e: OpeningEntry, requestMatches: bool, verified: Verification, sources: Sources)
    : (Status, seq<Step>)
  {
    var path := name(e.key);
    if !e.Valid() || !requestMatches then (InvalidRecord, [])
    else if path in dir.preps && dir.preps[path] != e then (Conflict, [])
    else if verified.NotVerified? then (VerifierStatus(verified.failure), [])
    else
      var equivalent := FindEquivalent(dir, e);
      if equivalent.AmbiguousRecords? then (InvalidRecord, [])
      else if equivalent.FoundEquivalent? && equivalent.entry.key != e.key then
        if !equivalent.allocation then (Conflict, [])
        else if Validate(equivalent.entry, Some(verified.proof), sources) != Supported then
          (SupportStatus(Validate(equivalent.entry, Some(verified.proof), sources)), [])
        else (AlreadyCommitted, if path in dir.preps then [RemovePrep(e.key)] else [])
      else if path in dir.allocs then
        if dir.allocs[path] != e then (Conflict, [])
        else if Validate(e, None, sources) != Supported then (SupportStatus(Validate(e, None, sources)), [])
        else if ClassifyProof(e, verified.proof).Contradiction? then (InvalidSource, [])
        else (AlreadyCommitted, [RemovePrep(e.key)])
      else if path !in dir.preps then (MissingSource, [])
      else
        match ClassifyProof(e, verified.proof)
        case Contradiction => (InvalidSource, [])
        case Extended =>
          var (status, steps) := SuccessorPlan(name, dir, e, verified.proof, sources);
          if status.Committed? then (Superseded, steps + [RemovePrep(e.key)]) else (status, [])
        case Exact =>
          if Validate(e, Some(verified.proof), sources) != Supported then (SupportStatus(Validate(e, Some(verified.proof), sources)), [])
          else (Committed, [WriteAlloc(e), RemovePrep(e.key)])
  }

  /** Only the first `survive` file steps take effect before a crash or a failing write. */
  function Cut(name: Naming, dir: Directory, plan: (Status, seq<Step>), survive: nat): (Status, Directory) {
    if survive >= |plan.1| then (plan.0, ApplyAll(name, dir, plan.1))
    else (IoError, ApplyAll(name, dir, plan.1[..survive]))
  }

  // ----- one step at a time

  lemma RecordsAfterPrep(name: Naming, dir: Directory, e: OpeningEntry)
    requires name(e.key) !in dir.preps
    ensures forall r: OpeningEntry :: IsRecord(Apply(name, dir, WritePrep(e)), r) <==> IsRecord(dir, r) || r == e
  {
    var path := name(e.key);
    var after := Apply(name, dir, WritePrep(e));
    assert after.preps[path] == e;
    forall p <- dir.preps ensures after.preps[p] == dir.preps[p] {}
  }

  lemma WritePrepKeeps(name: Naming, dir: Directory, e: OpeningEntry)
    requires Consistent(name, dir) && e.Valid() && name(e.key) !in dir.preps && name(e.key) !in dir.allocs
    requires forall r: OpeningEntry :: IsRecord(dir, r) ==> !SamePayload(e, r)
    ensures var after := Apply(name, dir, WritePrep(e));
            Consistent(name, after) && AllocsKept(dir, after) && WitnessesKept(dir, after) && IsRecord(after, e)
  {
    hide SamePayload;
    hide OpeningEntry.Valid;
    hide IsRecord;
    hide Covers;
    var after := Apply(name, dir, WritePrep(e));
    RecordsAfterPrep(name, dir, e);
    forall a: OpeningEntry, b: OpeningEntry | IsRecord(after, a) && IsRecord(after, b) && SamePayload(a, b) ensures a.key == b.key {
      SamePayloadIsEquivalence(a, b, b);
    }
  }

  lemma WriteAllocKeeps(name: Naming, dir: Directory, e: OpeningEntry)
    requires Consistent(name, dir) && name(e.key) in dir.preps && dir.preps[name(e.key)] == e && name(e.key) !in dir.allocs
    ensures var after := Apply(name, dir, WriteAlloc(e));
            Consistent(name, after) && AllocsKept(dir, after) && WitnessesKept(dir, after) && IsRecord(after, e)
  {
    hide SamePayload;
    hide OpeningEntry.Valid;
    hide Covers;
    var after := Apply(name, dir, WriteAlloc(e));
    assert after.allocs[name(e.key)] == e;
    forall r: OpeningEntry ensures IsRecord(after, r) <==> IsRecord(dir, r) {
      forall p <- dir.allocs ensures after.allocs[p] == dir.allocs[p] {}
    }
    hide IsRecord;
  }

  lemma RecordsAfterRemove(name: Naming, dir: Directory, key: OpeningKey)
    ensures var after := Apply(name, dir, RemovePrep(key));
            && (forall r: OpeningEntry :: IsRecord(after, r) ==> IsRecord(dir, r))
            && (forall r: OpeningEntry :: IsRecord(dir, r) && !IsRecord(after, r) ==> name(key) in dir.preps && r == dir.preps[name(key)])
  {
    var after := Apply(name, dir, RemovePrep(key));
    forall p <- after.preps ensures p in dir.preps && after.preps[p] == dir.preps[p] {}
    forall r: OpeningEntry | IsRecord(dir, r) && !IsRecord(after, r) ensures name(key) in dir.preps && r == dir.preps[name(key)] {
      var p :| p in dir.preps && dir.preps[p] == r;
      assert p != name(key) ==> p in after.preps;
    }
  }

  lemma CoversIsTransitive(a: OpeningEntry, b: OpeningEntry, c: OpeningEntry)
    requires Covers(a, b) && Covers(b, c)
    ensures Covers(a, c)
  {
  }

  /** A preparation may go once another record covers it. */
  lemma RemovePrepKeeps(name: Naming, dir: Directory, e: OpeningEntry, other: OpeningEntry)
    requires Consistent(name, dir) && (name(e.key) in dir.preps ==> dir.preps[name(e.key)] == e)
    requires IsRecord(Apply(name, dir, RemovePrep(e.key)), other) && Covers(other, e)
    ensures var after := Apply(name, dir, RemovePrep(e.key));
            Consistent(name, after) && AllocsKept(dir, after) && WitnessesKept(dir, after)
  {
    hide SamePayload;
    hide OpeningEntry.Valid;
    hide Covers;
    RecordsAfterRemove(name, dir, e.key);
    hide IsRecord;
    var after := Apply(name, dir, RemovePrep(e.key));
    forall w: OpeningEntry | Witnessed(dir, w) ensures Witnessed(after, w) {
      var r: OpeningEntry :| IsRecord(dir, r) && Covers(r, w);
      if !IsRecord(after, r) { CoversIsTransitive(other, e, w); }
    }
  }

  lemma CoversSelf(e: OpeningEntry)
    ensures Covers(e, e)
  {
  }

  // ----- whole calls

  lemma ApplyTwo(name: Naming, dir: Directory, a: Step, b: Step)
    ensures ApplyAll(name, dir, []) == dir && ApplyAll(name, dir, [a]) == Apply(name, dir, a)
    ensures ApplyAll(name, dir, [a, b]) == Apply(name, Apply(name, dir, a), b)
  {
    assert [a, b][1..] == [b] && [b][1..] == [] && [a][1..] == [];
    assert ApplyAll(name, Apply(name, dir, a), [b]) == ApplyAll(name, Apply(name, Apply(name, dir, a), b), []);
  }

  /** Whatever discriminator the successor search settles on, it is free and supported. */
  lemma {:induction false} SuccessorShape(name: Naming, dir: Directory, s: OpeningEntry, proof: Proof, sources: Sources)
    ensures var (status, steps) := SuccessorFrom(name, dir, s, proof, sources);
            && (steps == [] || (|steps| == 1 && steps[0].WritePrep? && status.Committed?))
            && (steps != [] ==> var t := steps[0].entry;
                  && SamePayload(s, t) && name(t.key) !in dir.preps && name(t.key) !in dir.allocs
                  && Validate(t, Some(proof), sources) == Supported && t.Valid())
            && (steps == [] && status.Committed? ==> exists r: OpeningEntry :: IsRecord(dir, r) && SamePayload(s, r))
    decreases U64_MAX - s.key.frontierRevision
  {
    hide OpeningEntry.Valid, Validate;
    if Validate(s, Some(proof), sources) == Supported {
      ValidatedIsValid(s, Some(proof), sources);
      var alloc, prep := ProbeAt(name, dir.allocs, s), ProbeAt(name, dir.preps, s);
      if alloc == OtherPayload || prep == OtherPayload {
        if s.key.frontierRevision < U64_MAX {
          var next := s.(key := s.key.(frontierRevision := s.key.frontierRevision + 1));
          SuccessorShape(name, dir, next, proof, sources);
          assert SamePayload(s, next);
          if SuccessorFrom(name, dir, next, proof, sources) == (Committed, []) {
            var r: OpeningEntry :| IsRecord(dir, r) && SamePayload(next, r);
            assert SamePayload(s, r);
          }
        }
      } else if alloc == SameRecord {
        assert IsRecord(dir, dir.allocs[name(s.key)]);
      } else if prep == SameRecord {
        assert IsRecord(dir, dir.preps[name(s.key)]);
      } else {
        SamePayloadIsEquivalence(s, s, s);
      }
    }
  }

  lemma ValidatedIsValid(e: OpeningEntry, proof: Option<Proof>, sources: Sources)
    requires Validate(e, proof, sources) == Supported
    ensures e.Valid() && (proof.Some? ==> ProofMatches(e, proof.value))
  {
  }

  /** The successor of an overtaken preparation covers it. */
  lemma SuccessorCovers(e: OpeningEntry, proof: Proof, scan: FactScan, r: OpeningEntry)
    requires ClassifyProof(e, proof) == Extended && BuildEntry(proof, scan).Some? && SamePayload(BuildEntry(proof, scan).value, r)
    ensures Covers(r, e) && r.managedUnits > e.managedUnits
  {
    hide BuildEntry;
    BuiltEntryIsProof(proof, scan);
    var built := BuildEntry(proof, scan).value;
    SamePayloadIsEquivalence(built, r, r);
    assert r.Tickets() == built.Tickets();
  }

  /** Shape of a plan that supersedes a preparation: first, unless it already exists, the covering
      successor; last, the removal. */
  lemma SuccessorPlanShape(name: Naming, dir: Directory, e: OpeningEntry, proof: Proof, sources: Sources)
    requires Consistent(name, dir) && ClassifyProof(e, proof) == Extended && SuccessorPlan(name, dir, e, proof, sources).0.Committed?
    ensures var steps := SuccessorPlan(name, dir, e, proof, sources).1;
            && e.key.frontierRevision != U64_MAX && BuildEntry(proof, sources.scan).Some?
            && Validate(e, None, sources) == Supported
            && (steps == [] ==> exists r: OpeningEntry :: IsRecord(dir, r) && Covers(r, e) && r != e)
            && (steps != [] ==> |steps| == 1 && steps[0].WritePrep? && (var t := steps[0].entry;
                  && Covers(t, e) && t.Valid() && name(t.key) !in dir.preps && name(t.key) !in dir.allocs
                  && Validate(t, Some(proof), sources) == Supported
                  && SamePayload(FirstSuccessor(BuildEntry(proof, sources.scan).value, e), t)
                  && (forall r: OpeningEntry :: IsRecord(dir, r) ==> !SamePayload(t, r))))
  {
    hide SamePayload;
    hide Validate;
    hide BuildEntry;
    hide ClassifyProof;
    hide Consistent;
    hide SuccessorFrom;
    hide FindEquivalent;
    var built := BuildEntry(proof, sources.scan).value;
    var s := FirstSuccessor(built, e);
    BuiltPayload(built, e);
    EquivalentIsUnique(name, dir, s);
    SuccessorShape(name, dir, s, proof, sources);
    forall r: OpeningEntry | SamePayload(s, r) ensures Covers(r, e) && r != e {
      SamePayloadIsEquivalence(built, s, r);
      SuccessorCovers(e, proof, sources.scan, r);
    }
    var steps := SuccessorPlan(name, dir, e, proof, sources).1;
    if steps != [] {
      forall r: OpeningEntry | IsRecord(dir, r) ensures !SamePayload(steps[0].entry, r) {
        SamePayloadIsEquivalence(s, steps[0].entry, r);
      }
    }
  }

  lemma BuiltPayload(built: OpeningEntry, e: OpeningEntry)
    requires e.key.frontierRevision != U64_MAX
    ensures SamePayload(built, FirstSuccessor(built, e))
  {
  }

  ghost predicate Kept(name: Naming, before: Directory, after: Directory) {
    Consistent(name, after) && AllocsKept(before, after) && WitnessesKept(before, after)
  }

  lemma KeptTwice(name: Naming, a: Directory, b: Directory, c: Directory)
    requires Kept(name, a, b) && Kept(name, b, c)
    ensures Kept(name, a, c)
  {
    hide Consistent;
    hide Witnessed;
  }

  lemma PrepareKeeps(name: Naming, dir: Directory, entry: OpeningEntry, proof: Proof, sources: Sources, survive: nat)
    requires Consistent(name, dir)
    ensures Kept(name, dir, Cut(name, dir, PreparePlan(name, dir, entry, proof, sources), survive).1)
  {
    hide Validate;
    hide Consistent;
    hide FindEquivalent;
    hide IsRecord;
    var plan := PreparePlan(name, dir, entry, proof, sources);
    EquivalentIsUnique(name, dir, entry);
    ApplyTwo(name, dir, WritePrep(entry), WritePrep(entry));
    assert plan.1[..0] == [];
    if plan.1 != [] { WritePrepKeeps(name, dir, entry); }
  }

  /** Publication of the prepared entry itself: the allocation, then the removal. */
  lemma ExactKeeps(name: Naming, dir: Directory, e: OpeningEntry, k: nat)
    requires Consistent(name, dir) && name(e.key) in dir.preps && dir.preps[name(e.key)] == e && name(e.key) !in dir.allocs && k <= 2
    ensures Kept(name, dir, ApplyAll(name, dir, [WriteAlloc(e), RemovePrep(e.key)][..k]))
  {
    hide Consistent;
    hide IsRecord;
    ApplyTwo(name, dir, WriteAlloc(e), RemovePrep(e.key));
    WriteAllocKeeps(name, dir, e);
    var written := Apply(name, dir, WriteAlloc(e));
    AllocIsRecord(name, Apply(name, written, RemovePrep(e.key)), e);
    CoversSelf(e);
    RemovePrepKeeps(name, written, e, e);
    var steps := [WriteAlloc(e), RemovePrep(e.key)];
    assert steps[..0] == [] && steps[..1] == [WriteAlloc(e)] && steps[..2] == steps;
    KeptTwice(name, dir, written, Apply(name, written, RemovePrep(e.key)));
  }

  lemma AllocIsRecord(name: Naming, dir: Directory, e: OpeningEntry)
    requires name(e.key) in dir.allocs && dir.allocs[name(e.key)] == e
    ensures IsRecord(dir, e)
  {
  }

  /** Superseding a preparation: the successor, if it must be written, then the removal. */
  lemma SupersedeKeeps(name: Naming, dir: Directory, e: OpeningEntry, proof: Proof, sources: Sources, k: nat)
    requires Consistent(name, dir) && name(e.key) in dir.preps && dir.preps[name(e.key)] == e
    requires ClassifyProof(e, proof) == Extended && SuccessorPlan(name, dir, e, proof, sources).0.Committed?
    requires k <= |SuccessorPlan(name, dir, e, proof, sources).1| + 1
    ensures Kept(name, dir, ApplyAll(name, dir, (SuccessorPlan(name, dir, e, proof, sources).1 + [RemovePrep(e.key)])[..k]))
  {
    hide Consistent;
    hide Covers;
    hide SuccessorPlan;
    hide ClassifyProof;
    hide Validate;
    hide BuildEntry;
    hide SamePayload;
    SuccessorPlanShape(name, dir, e, proof, sources);
    var first := SuccessorPlan(name, dir, e, proof, sources).1;
    var steps := first + [RemovePrep(e.key)];
    KeptSelf(name, dir);
    if first == [] {
      var r: OpeningEntry :| IsRecord(dir, r) && Covers(r, e) && r != e;
      RecordsAfterRemove(name, dir, e.key);
      RemovePrepKeeps(name, dir, e, r);
      assert steps[..0] == [] && steps[..1] == [RemovePrep(e.key)];
      ApplyTwo(name, dir, RemovePrep(e.key), RemovePrep(e.key));
    } else {
      var t := first[0].entry;
      WritePrepKeeps(name, dir, t);
      var written := Apply(name, dir, WritePrep(t));
      RecordsAfterRemove(name, written, e.key);
      RemovePrepKeeps(name, written, e, t);
      KeptTwice(name, dir, written, Apply(name, written, RemovePrep(e.key)));
      assert steps == [WritePrep(t), RemovePrep(e.key)];
      assert steps[..0] == [] && steps[..1] == [WritePrep(t)] && steps[..2] == steps;
      ApplyTwo(name, dir, WritePrep(t), RemovePrep(e.key));
    }
  }

  lemma KeptSelf(name: Naming, dir: Directory)
    requires Consistent(name, dir)
    ensures Kept(name, dir, dir)
  {
  }

  /** Wherever a publication stops: the directory stays consistent, allocations never change, and
      every entry that was vouched for still is. */
  lemma PublishKeeps(name: Naming, dir: Directory, e: OpeningEntry, requestMatches: bool, verified: Verification, sources: Sources, survive: nat)
    requires Consistent(name, dir)
    ensures Kept(name, dir, Cut(name, dir, PublishPlan(name, dir, e, requestMatches, verified, sources), survive).1)
  {
    hide Consistent;
    hide Validate;
    hide FindEquivalent;
    hide SuccessorPlan;
    hide ClassifyProof;
    hide Kept;
    var (status, steps) := PublishPlan(name, dir, e, requestMatches, verified, sources);
    var k := if survive >= |steps| then |steps| else survive;
    assert steps[..|steps|] == steps;
    KeptSelf(name, dir);
    ApplyTwo(name, dir, RemovePrep(e.key), RemovePrep(e.key));
    if steps == [] {
    } else if status.Superseded? {
      SupersedeKeeps(name, dir, e, verified.proof, sources, k);
    } else if status.Committed? {
      ExactKeeps(name, dir, e, k);
    } else {
      EquivalentIsUnique(name, dir, e);
      ReplayIsAllocated(name, dir, e, requestMatches, verified, sources);
      assert steps[..0] == [] && steps[..1] == [RemovePrep(e.key)];
      ReplayKeeps(name, dir, e);
    }
  }

  lemma ReplayIsAllocated(name: Naming, dir: Directory, e: OpeningEntry, requestMatches: bool, verified: Verification, sources: Sources)
    requires Consistent(name, dir) && PublishPlan(name, dir, e, requestMatches, verified, sources).1 != []
    requires PublishPlan(name, dir, e, requestMatches, verified, sources).0.AlreadyCommitted?
    ensures PublishPlan(name, dir, e, requestMatches, verified, sources).1 == [RemovePrep(e.key)]
    ensures name(e.key) in dir.allocs && dir.allocs[name(e.key)] == e
  {
    hide Consistent;
    hide Validate;
    hide FindEquivalent;
    hide SuccessorPlan;
    hide ClassifyProof;
    EquivalentIsUnique(name, dir, e);
    if name(e.key) in dir.preps && dir.preps[name(e.key)] == e { assert IsRecord(dir, e); }
  }

  lemma ReplayKeeps(name: Naming, dir: Directory, e: OpeningEntry)
    requires Consistent(name, dir) && name(e.key) in dir.allocs && dir.allocs[name(e.key)] == e
    ensures Kept(name, dir, Apply(name, dir, RemovePrep(e.key)))
  {
    AllocIsRecord(name, Apply(name, dir, RemovePrep(e.key)), e);
    CoversSelf(e);
    RemovePrepKeeps(name, dir, e, e);
  }

  // ----- exactly when an uninterrupted call succeeds

  ghost predicate HasEqual(dir: Directory, e: OpeningEntry) {
    exists r: OpeningEntry :: IsRecord(dir, r) && SamePayload(e, r)
  }

  predicate SlotFree(name: Naming, dir: Directory, key: OpeningKey) {
    name(key) !in dir.allocs && name(key) !in dir.preps
  }

  /** A record of exactly this key stands there: an allocation, or a preparation beside none. */
  predicate SlotTaken(name: Naming, dir: Directory, key: OpeningKey) {
    var path := name(key);
    if path in dir.allocs then dir.allocs[path].key == key else path in dir.preps && dir.preps[path].key == key
  }

  /** The first discriminator from the entry's own upwards whose slot is free, all below being taken. */
  ghost predicate FirstFree(name: Naming, dir: Directory, s: OpeningEntry, revision: u64) {
    && s.key.frontierRevision <= revision && SlotFree(name, dir, AtRevision(s, revision).key)
    && forall r: u64 :: s.key.frontierRevision <= r < revision ==> SlotTaken(name, dir, AtRevision(s, r).key)
  }

  /** The search ends exactly at the first free slot, if every slot before it is taken. */
  lemma {:induction false} SearchFindsFirstFree(name: Naming, dir: Directory, s: OpeningEntry, proof: Proof, sources: Sources)
    requires s.Valid() && Validate(s, Some(proof), sources) == Supported && !HasEqual(dir, s)
    ensures SearchIsFirstFree(name, dir, s, SuccessorFrom(name, dir, s, proof, sources))
    decreases U64_MAX - s.key.frontierRevision
  {
    hide Validate, OpeningEntry.Valid, HasEqual, SearchIsFirstFree, SamePayload, SlotTaken, SlotFree;
    var own := s.key.frontierRevision;
    assert AtRevision(s, own) == s;
    SlotsWithoutEqual(name, dir, s);
    if SlotTaken(name, dir, s.key) && own < U64_MAX {
      var next := AtRevision(s, own + 1);
      DiscriminatorNeedsNoSupport(s, own + 1, Some(proof), sources);
      RaisedIsValid(s, own + 1);
      EqualIgnoresDiscriminator(dir, s, own + 1);
      SearchFindsFirstFree(name, dir, next, proof, sources);
      FirstFreeMovesOn(name, dir, s, SuccessorFrom(name, dir, next, proof, sources));
    } else {
      SearchEnds(name, dir, s, SuccessorFrom(name, dir, s, proof, sources));
    }
  }

  ghost predicate SearchIsFirstFree(name: Naming, dir: Directory, s: OpeningEntry, plan: (Status, seq<Step>)) {
    && (plan.0.Committed? <==> exists u: u64 :: FirstFree(name, dir, s, u))
    && forall u: u64 :: FirstFree(name, dir, s, u) ==> plan.1 == [WritePrep(AtRevision(s, u))]
  }

  lemma SearchEnds(name: Naming, dir: Directory, s: OpeningEntry, plan: (Status, seq<Step>))
    requires !SlotTaken(name, dir, s.key) || s.key.frontierRevision == U64_MAX
    requires SlotFree(name, dir, s.key) ==> plan == (Committed, [WritePrep(s)])
    requires !SlotFree(name, dir, s.key) ==> !plan.0.Committed?
    ensures SearchIsFirstFree(name, dir, s, plan)
  {
    var own := s.key.frontierRevision;
    assert AtRevision(s, own) == s;
    forall u: u64 | FirstFree(name, dir, s, u) ensures u == own && SlotFree(name, dir, s.key) {}
    if SlotFree(name, dir, s.key) { assert FirstFree(name, dir, s, own); }
  }

  lemma FirstFreeMovesOn(name: Naming, dir: Directory, s: OpeningEntry, plan: (Status, seq<Step>))
    requires SlotTaken(name, dir, s.key) && s.key.frontierRevision < U64_MAX
    requires SearchIsFirstFree(name, dir, AtRevision(s, s.key.frontierRevision + 1), plan)
    ensures SearchIsFirstFree(name, dir, s, plan)
  {
    var own := s.key.frontierRevision;
    var next := AtRevision(s, own + 1);
    assert AtRevision(s, own) == s;
    forall u: u64 ensures AtRevision(next, u) == AtRevision(s, u) {}
    forall u: u64 ensures FirstFree(name, dir, next, u) <==> FirstFree(name, dir, s, u) {
      if FirstFree(name, dir, s, u) { assert u != own; }
      if FirstFree(name, dir, next, u) {
        forall r: u64 | own <= r < u ensures SlotTaken(name, dir, AtRevision(s, r).key) {
          if r > own { assert SlotTaken(name, dir, AtRevision(next, r).key); }
        }
      }
    }
  }

  /** Where no record has its payload, a probed slot is free, taken or foreign. */
  lemma SlotsWithoutEqual(name: Naming, dir: Directory, s: OpeningEntry)
    requires !HasEqual(dir, s)
    ensures var alloc, prep := ProbeAt(name, dir.allocs, s), ProbeAt(name, dir.preps, s);
            && alloc != SameRecord && prep != SameRecord
            && (SlotFree(name, dir, s.key) <==> alloc == Free && prep == Free)
            && (SlotTaken(name, dir, s.key) <==> alloc == OtherPayload || (alloc == Free && prep == OtherPayload))
  {
    hide SamePayload;
    var path := name(s.key);
    if path in dir.allocs { assert IsRecord(dir, dir.allocs[path]); }
    if path in dir.preps { assert IsRecord(dir, dir.preps[path]); }
  }

  lemma EqualIgnoresDiscriminator(dir: Directory, s: OpeningEntry, revision: u64)
    ensures HasEqual(dir, AtRevision(s, revision)) <==> HasEqual(dir, s)
  {
    forall r: OpeningEntry ensures SamePayload(AtRevision(s, revision), r) <==> SamePayload(s, r) {}
  }

  /** The equivalence scan in a consistent directory. */
  lemma EquivalentMeans(name: Naming, dir: Directory, e: OpeningEntry)
    requires Consistent(name, dir)
    ensures var found := FindEquivalent(dir, e);
            && (found.NoEquivalent? <==> !HasEqual(dir, e))
            && (found.FoundEquivalent? <==> HasEqual(dir, e))
            && (forall r: OpeningEntry :: IsRecord(dir, r) && SamePayload(e, r) ==> found.FoundEquivalent? && found.entry == r)
            && (found.FoundEquivalent? ==> IsRecord(dir, found.entry) && SamePayload(e, found.entry))
            && (found.FoundEquivalent? ==> (found.allocation <==> exists p <- dir.allocs :: dir.allocs[p] == found.entry))
  {
    hide SamePayload;
    EquivalentIsUnique(name, dir, e);
    var found := FindEquivalent(dir, e);
    forall r: OpeningEntry | IsRecord(dir, r) && SamePayload(e, r) ensures found.FoundEquivalent? && found.entry == r {
      SamePayloadIsEquivalence(e, r, r);
      SamePayloadIsEquivalence(r, e, found.entry);
      SamePayloadIsEquivalence(r, found.entry, r);
    }
    if found.FoundEquivalent? {
      SamePayloadIsEquivalence(e, found.entry, e);
      if exists p <- dir.allocs :: dir.allocs[p] == found.entry {
        assert HasMatch(dir.allocs, e);
      }
    }
  }

  /** A preparation succeeds as new exactly for a supported entry whose payload no record has and
      whose slot is free, and as a repetition exactly if a record with its payload is still supported
      by itself; otherwise nothing is written. */
  lemma PrepareSucceedsIff(name: Naming, dir: Directory, entry: OpeningEntry, proof: Proof, sources: Sources)
    requires Consistent(name, dir)
    ensures var (status, after) := Cut(name, dir, PreparePlan(name, dir, entry, proof, sources), 1);
            && (status.Committed? <==>
                  !HasEqual(dir, entry) && SlotFree(name, dir, entry.key) && Validate(entry, Some(proof), sources) == Supported)
            && (status.AlreadyCommitted? <==>
                  entry.Valid() && exists r: OpeningEntry ::
                    IsRecord(dir, r) && SamePayload(entry, r) && Validate(r, None, sources) == Supported)
            && (status.Committed? ==> after == dir.(preps := dir.preps[name(entry.key) := entry]))
            && (!status.Committed? ==> after == dir)
  {
    EquivalentMeans(name, dir, entry);
    if Validate(entry, Some(proof), sources) == Supported { ValidatedIsValid(entry, Some(proof), sources); }
    var path := name(entry.key);
    if path in dir.allocs && dir.allocs[path] == entry { assert IsRecord(dir, entry); }
    if path in dir.preps && dir.preps[path] == entry { assert IsRecord(dir, entry); }
    SamePayloadIsEquivalence(entry, entry, entry);
    NoStepsAndOne(name, dir, WritePrep(entry));
    hide Validate;
    hide FindEquivalent;
    hide SamePayload;
    hide OpeningEntry.Valid;
    hide Consistent;
    hide IsRecord;
  }

  lemma NoStepsAndOne(name: Naming, dir: Directory, step: Step)
    ensures ApplyAll(name, dir, []) == dir && ApplyAll(name, dir, [step]) == Apply(name, dir, step)
  {
    ApplyTwo(name, dir, step, step);
  }

  /** The successor that a proof builds for an overtaken preparation. */
  ghost function SuccessorOf(e: OpeningEntry, proof: Proof, sources: Sources): OpeningEntry
    requires e.key.frontierRevision != U64_MAX && BuildEntry(proof, sources.scan).Some?
  {
    FirstSuccessor(BuildEntry(proof, sources.scan).value, e)
  }

  /** A supported successor of this payload is durable already. */
  ghost predicate SuccessorStands(dir: Directory, s: OpeningEntry, proof: Proof, sources: Sources) {
    exists r: OpeningEntry :: IsRecord(dir, r) && SamePayload(s, r) && Validate(r, Some(proof), sources) == Supported
  }

  /** Or it is supported, new, and finds a free slot. */
  ghost predicate SuccessorFits(name: Naming, dir: Directory, s: OpeningEntry, proof: Proof, sources: Sources) {
    !HasEqual(dir, s) && Validate(s, Some(proof), sources) == Supported && exists u: u64 :: FirstFree(name, dir, s, u)
  }

  ghost predicate Supersedable(name: Naming, dir: Directory, e: OpeningEntry, proof: Proof, sources: Sources) {
    && Validate(e, None, sources) == Supported && e.key.frontierRevision != U64_MAX && BuildEntry(proof, sources.scan).Some?
    && (var s := SuccessorOf(e, proof, sources);
        SuccessorStands(dir, s, proof, sources) || SuccessorFits(name, dir, s, proof, sources))
  }

  /** A successor can be made durable exactly so, and is written exactly where none stands. */
  lemma SuccessorSucceedsIff(name: Naming, dir: Directory, e: OpeningEntry, proof: Proof, sources: Sources)
    requires Consistent(name, dir)
    ensures var (status, steps) := SuccessorPlan(name, dir, e, proof, sources);
            && (status.Committed? <==> Supersedable(name, dir, e, proof, sources))
            && (status.Committed? ==>
                  var s := SuccessorOf(e, proof, sources);
                  && (HasEqual(dir, s) ==> steps == [])
                  && (forall u: u64 :: !HasEqual(dir, s) && FirstFree(name, dir, s, u) ==> steps == [WritePrep(AtRevision(s, u))]))
  {
    hide Validate;
    hide BuildEntry;
    BuiltNeedsScan(proof, sources.scan);
    if BuildEntry(proof, sources.scan).Some? && e.key.frontierRevision != U64_MAX {
      var s := SuccessorOf(e, proof, sources);
      BuiltEntryIsProof(proof, sources.scan);
      assert s.Valid();
      EquivalentMeans(name, dir, s);
      if !HasEqual(dir, s) && Validate(s, Some(proof), sources) == Supported { SearchFindsFirstFree(name, dir, s, proof, sources); }
      UnsupportedSearch(name, dir, s, proof, sources);
    }
    hide FindEquivalent;
    hide SuccessorFrom;
    hide SamePayload;
    hide IsRecord;
    hide OpeningEntry.Valid;
    hide Consistent;
  }

  lemma UnsupportedSearch(name: Naming, dir: Directory, s: OpeningEntry, proof: Proof, sources: Sources)
    ensures Validate(s, Some(proof), sources) != Supported ==> !SuccessorFrom(name, dir, s, proof, sources).0.Committed?
  {
    hide Validate;
  }

  /** Request, record and verification are in order. */
  predicate Publishable(name: Naming, dir: Directory, e: OpeningEntry, requestMatches: bool, verified: Verification) {
    && e.Valid() && requestMatches && verified.Verified?
    && (name(e.key) in dir.preps ==> dir.preps[name(e.key)] == e)
  }

  /** The entry is published already, under its own key or under another one. */
  ghost predicate PublishedBefore(name: Naming, dir: Directory, e: OpeningEntry, proof: Proof, sources: Sources) {
    || (&& name(e.key) in dir.allocs && dir.allocs[name(e.key)] == e && Validate(e, None, sources) == Supported
        && !ClassifyProof(e, proof).Contradiction?)
    || exists p <- dir.allocs ::
         SamePayload(e, dir.allocs[p]) && dir.allocs[p].key != e.key && Validate(dir.allocs[p], Some(proof), sources) == Supported
  }

  predicate Awaits(name: Naming, dir: Directory, e: OpeningEntry) {
    name(e.key) in dir.preps && name(e.key) !in dir.allocs
  }

  /** When an uninterrupted publication succeeds, and what it leaves: a waiting preparation that the
      proof meets exactly becomes the allocation; one that the proof has overtaken is dropped beside
      its successor; one that is published already, even under another key, is only dropped. Anything
      else writes nothing. */
  lemma PublishSucceedsIff(name: Naming, dir: Directory, e: OpeningEntry, requestMatches: bool, verified: Verification, sources: Sources)
    requires Consistent(name, dir)
    ensures var (status, after) := Cut(name, dir, PublishPlan(name, dir, e, requestMatches, verified, sources), 2);
            var ready, path := Publishable(name, dir, e, requestMatches, verified), name(e.key);
            && (status.Committed? <==>
                  ready && Awaits(name, dir, e) && ClassifyProof(e, verified.proof) == Exact
                  && Validate(e, Some(verified.proof), sources) == Supported)
            && (status.Superseded? <==>
                  ready && Awaits(name, dir, e) && ClassifyProof(e, verified.proof) == Extended
                  && Supersedable(name, dir, e, verified.proof, sources))
            && (status.AlreadyCommitted? <==> ready && PublishedBefore(name, dir, e, verified.proof, sources))
            && (status.Committed? ==> after == Directory(dir.preps - {path}, dir.allocs[path := e]))
            && (status.AlreadyCommitted? ==> after == dir.(preps := dir.preps - {path}))
            && (status.Superseded? ==> SupersededBy(name, dir, after, e, SuccessorOf(e, verified.proof, sources)))
            && (!Succeeded(status) ==> after == dir)
  {
    PublishPlanIff(name, dir, e, requestMatches, verified, sources);
    var (status, steps) := PublishPlan(name, dir, e, requestMatches, verified, sources);
    if status.Superseded? {
      SupersedeLeaves(name, dir, e, verified.proof, sources);
      PlanIsShort(name, dir, e, requestMatches, verified, sources);
    }
    ApplyTwo(name, dir, WriteAlloc(e), RemovePrep(e.key));
    ApplyTwo(name, dir, RemovePrep(e.key), RemovePrep(e.key));
    assert name(e.key) !in dir.preps ==> dir.preps - {name(e.key)} == dir.preps;
    hide PublishPlan, Consistent, Validate, SuccessorPlan, Supersedable, ClassifyProof, SupersededBy, BuildEntry, PublishedBefore, Publishable;
  }

  /** The same about the file steps that the publication decides on. */
  lemma PublishPlanIff(name: Naming, dir: Directory, e: OpeningEntry, requestMatches: bool, verified: Verification, sources: Sources)
    requires Consistent(name, dir)
    ensures var (status, steps) := PublishPlan(name, dir, e, requestMatches, verified, sources);
            var ready, path := Publishable(name, dir, e, requestMatches, verified), name(e.key);
            && (status.Committed? <==>
                  ready && Awaits(name, dir, e) && ClassifyProof(e, verified.proof) == Exact
                  && Validate(e, Some(verified.proof), sources) == Supported)
            && (status.Superseded? <==>
                  ready && Awaits(name, dir, e) && ClassifyProof(e, verified.proof) == Extended
                  && Supersedable(name, dir, e, verified.proof, sources))
            && (status.AlreadyCommitted? <==> ready && PublishedBefore(name, dir, e, verified.proof, sources))
            && (status.Committed? ==> steps == [WriteAlloc(e), RemovePrep(e.key)])
            && (status.AlreadyCommitted? ==> steps == [RemovePrep(e.key)] || (steps == [] && path !in dir.preps))
            && (status.Superseded? ==>
                  && SuccessorPlan(name, dir, e, verified.proof, sources).0.Committed?
                  && steps == SuccessorPlan(name, dir, e, verified.proof, sources).1 + [RemovePrep(e.key)])
            && (!Succeeded(status) ==> steps == [])
  {
    hide IsRecord, Consistent, Validate, FindEquivalent, SuccessorPlan, Supersedable, ClassifyProof, OpeningEntry.Valid, PublishedBefore;
    EquivalentIsUnique(name, dir, e);
    OwnRecordIsFound(name, dir, e);
    if verified.Verified? {
      PublishedBeforeIff(name, dir, e, verified.proof, sources);
      SuccessorSucceedsIff(name, dir, e, verified.proof, sources);
      NonCommittedSuccessor(name, dir, e, verified.proof, sources);
    }
  }

  /** An entry that stands in the directory has no alias. */
  lemma OwnRecordIsFound(name: Naming, dir: Directory, e: OpeningEntry)
    requires Consistent(name, dir)
    ensures var path := name(e.key);
            (path in dir.preps && dir.preps[path] == e) || (path in dir.allocs && dir.allocs[path] == e)
            ==> FindEquivalent(dir, e).FoundEquivalent? && FindEquivalent(dir, e).entry == e
  {
    EquivalentIsUnique(name, dir, e);
  }

  ghost predicate HasAlias(dir: Directory, e: OpeningEntry) {
    FindEquivalent(dir, e).FoundEquivalent? && FindEquivalent(dir, e).entry.key != e.key
  }

  lemma PublishedBeforeIff(name: Naming, dir: Directory, e: OpeningEntry, proof: Proof, sources: Sources)
    requires Consistent(name, dir)
    ensures var found, path := FindEquivalent(dir, e), name(e.key);
            PublishedBefore(name, dir, e, proof, sources)
            <==> if HasAlias(dir, e) then found.allocation && Validate(found.entry, Some(proof), sources) == Supported
                 else && path in dir.allocs && dir.allocs[path] == e && Validate(e, None, sources) == Supported
                      && !ClassifyProof(e, proof).Contradiction?
  {
    EquivalentMeans(name, dir, e);
    OwnRecordIsFound(name, dir, e);
    forall p <- dir.allocs ensures IsRecord(dir, dir.allocs[p]) {}
    hide SamePayload, IsRecord, Consistent, Validate, FindEquivalent, ClassifyProof;
  }

  /** The preparation is gone, and its successor stands: it did before, or at the first free slot. */
  ghost predicate SupersededBy(name: Naming, dir: Directory, after: Directory, e: OpeningEntry, s: OpeningEntry) {
    && after.allocs == dir.allocs
    && if HasEqual(dir, s) then after.preps == dir.preps - {name(e.key)}
       else exists u: u64 :: FirstFree(name, dir, s, u) && after.preps == dir.preps[name(AtRevision(s, u).key) := AtRevision(s, u)] - {name(e.key)}
  }

  lemma SupersedeLeaves(name: Naming, dir: Directory, e: OpeningEntry, proof: Proof, sources: Sources)
    requires Consistent(name, dir) && SuccessorPlan(name, dir, e, proof, sources).0.Committed?
    ensures Supersedable(name, dir, e, proof, sources)
    ensures SupersededBy(name, dir, ApplyAll(name, dir, SuccessorPlan(name, dir, e, proof, sources).1 + [RemovePrep(e.key)]),
                         e, SuccessorOf(e, proof, sources))
  {
    SuccessorSucceedsIff(name, dir, e, proof, sources);
    hide SuccessorPlan;
    hide Consistent;
    hide Validate;
    hide BuildEntry;
    hide SamePayload;
    hide IsRecord;
    var steps := SuccessorPlan(name, dir, e, proof, sources).1;
    var s := SuccessorOf(e, proof, sources);
    if HasEqual(dir, s) {
      assert steps + [RemovePrep(e.key)] == [RemovePrep(e.key)];
      ApplyTwo(name, dir, RemovePrep(e.key), RemovePrep(e.key));
    } else {
      var u: u64 :| FirstFree(name, dir, s, u);
      assert steps + [RemovePrep(e.key)] == [WritePrep(AtRevision(s, u)), RemovePrep(e.key)];
      ApplyTwo(name, dir, WritePrep(AtRevision(s, u)), RemovePrep(e.key));
    }
  }

  // ----- retry after a crash

  predicate Succeeded(status: Status) {
    status.Committed? || status.AlreadyCommitted? || status.Superseded?
  }

  /** Repeating an interrupted preparation reaches the uninterrupted result. */
  lemma PrepareRetries(name: Naming, dir: Directory, entry: OpeningEntry, proof: Proof, sources: Sources, k: nat)
    requires Consistent(name, dir) && PreparePlan(name, dir, entry, proof, sources).0.Committed?
    ensures var full := Cut(name, dir, PreparePlan(name, dir, entry, proof, sources), 1).1;
            var crashed := Cut(name, dir, PreparePlan(name, dir, entry, proof, sources), k).1;
            var again := Cut(name, crashed, PreparePlan(name, crashed, entry, proof, sources), 1);
            again.1 == full && Succeeded(again.0)
  {
    hide Validate;
    hide Consistent;
    hide FindEquivalent;
    hide IsRecord;
    EquivalentIsUnique(name, dir, entry);
    ApplyTwo(name, dir, WritePrep(entry), WritePrep(entry));
    var plan := PreparePlan(name, dir, entry, proof, sources);
    assert plan.1 == [WritePrep(entry)];
    assert plan.1[..0] == [];
    if k >= 1 {
      WritePrepKeeps(name, dir, entry);
      EquivalentIsUnique(name, Apply(name, dir, WritePrep(entry)), entry);
      ProofOnlyTightens(entry, proof, sources);
    }
  }

  /** Crash after the allocation was written: the repeat only removes the preparation. */
  lemma ExactRetries(name: Naming, dir: Directory, e: OpeningEntry, proof: Proof, sources: Sources)
    requires Consistent(name, dir) && name(e.key) in dir.preps && dir.preps[name(e.key)] == e && name(e.key) !in dir.allocs
    requires ClassifyProof(e, proof).Exact? && Validate(e, Some(proof), sources) == Supported
    ensures var written := Apply(name, dir, WriteAlloc(e));
            PublishPlan(name, written, e, true, Verified(proof), sources) == (AlreadyCommitted, [RemovePrep(e.key)])
  {
    hide Validate;
    hide Consistent;
    hide FindEquivalent;
    hide ClassifyProof;
    WriteAllocKeeps(name, dir, e);
    ProofOnlyTightens(e, proof, sources);
    ValidatedIsValid(e, Some(proof), sources);
    var written := Apply(name, dir, WriteAlloc(e));
    EquivalentIsUnique(name, written, e);
  }

  /** Crash after the successor was written: the repeat finds it and only removes the predecessor. */
  lemma SupersedeRetries(name: Naming, dir: Directory, e: OpeningEntry, proof: Proof, sources: Sources)
    requires Consistent(name, dir) && name(e.key) in dir.preps && dir.preps[name(e.key)] == e && name(e.key) !in dir.allocs
    requires ClassifyProof(e, proof).Extended? && SuccessorPlan(name, dir, e, proof, sources).0.Committed?
    requires SuccessorPlan(name, dir, e, proof, sources).1 != []
    ensures var written := Apply(name, dir, SuccessorPlan(name, dir, e, proof, sources).1[0]);
            PublishPlan(name, written, e, true, Verified(proof), sources) == (Superseded, [RemovePrep(e.key)])
  {
    hide Validate;
    hide Consistent;
    hide FindEquivalent;
    hide ClassifyProof;
    hide BuildEntry;
    hide SamePayload;
    hide Covers;
    SuccessorPlanShape(name, dir, e, proof, sources);
    var t := SuccessorPlan(name, dir, e, proof, sources).1[0].entry;
    var written := Apply(name, dir, WritePrep(t));
    WritePrepKeeps(name, dir, t);
    assert IsRecord(written, e) by { assert written.preps[name(e.key)] == e; }
    EquivalentIsUnique(name, written, e);
    ValidatedIsValid(e, None, sources);
    var s := FirstSuccessor(BuildEntry(proof, sources.scan).value, e);
    EquivalentIsUnique(name, written, s);
    RecordWithPayload(name, written, s, t);
    assert SuccessorPlan(name, written, e, proof, sources) == (Committed, []);
    assert [] + [RemovePrep(e.key)] == [RemovePrep(e.key)];
  }

  lemma RecordWithPayload(name: Naming, dir: Directory, s: OpeningEntry, t: OpeningEntry)
    requires Consistent(name, dir) && IsRecord(dir, t) && SamePayload(s, t)
    ensures FindEquivalent(dir, s).FoundEquivalent? && FindEquivalent(dir, s).entry == t
  {
    hide SamePayload;
    hide FindEquivalent;
    hide IsRecord;
    EquivalentIsUnique(name, dir, s);
    var found := FindEquivalent(dir, s);
    assert found.FoundEquivalent?;
    SamePayloadIsEquivalence(s, t, t);
    SamePayloadIsEquivalence(t, s, found.entry);
    SamePayloadIsEquivalence(t, found.entry, found.entry);
  }

  /** Repeating an interrupted publication with the same sources reaches the uninterrupted
      directory, and reports success again unless nothing was left to do. */
  lemma PublishRetries(name: Naming, dir: Directory, e: OpeningEntry, requestMatches: bool, verified: Verification, sources: Sources, k: nat)
    requires Consistent(name, dir) && verified.Verified?
    requires Succeeded(PublishPlan(name, dir, e, requestMatches, verified, sources).0)
    requires k < |PublishPlan(name, dir, e, requestMatches, verified, sources).1|
    ensures var full := Cut(name, dir, PublishPlan(name, dir, e, requestMatches, verified, sources), 2).1;
            var crashed := Cut(name, dir, PublishPlan(name, dir, e, requestMatches, verified, sources), k).1;
            var again := Cut(name, crashed, PublishPlan(name, crashed, e, requestMatches, verified, sources), 2);
            again.1 == full && Succeeded(again.0)
  {
    hide Consistent;
    hide Validate;
    hide FindEquivalent;
    hide SuccessorPlan;
    hide ClassifyProof;
    var (status, steps) := PublishPlan(name, dir, e, requestMatches, verified, sources);
    PlanIsShort(name, dir, e, requestMatches, verified, sources);
    assert steps[..0] == [];
    if k == 1 {
      ApplyTwo(name, dir, steps[0], steps[1]);
      ApplyTwo(name, Apply(name, dir, steps[0]), RemovePrep(e.key), RemovePrep(e.key));
      assert steps[..1] == [steps[0]] && steps == [steps[0], steps[1]];
      if status.Committed? {
        ExactRetries(name, dir, e, verified.proof, sources);
      } else {
        SupersedeRetries(name, dir, e, verified.proof, sources);
      }
    }
  }

  /** The two plans with two file steps: publishing the entry, and superseding it. */
  ghost predicate TwoStepPlan(name: Naming, dir: Directory, e: OpeningEntry, requestMatches: bool, verified: Verification, sources: Sources)
  {
    var (status, steps) := PublishPlan(name, dir, e, requestMatches, verified, sources);
    && requestMatches && verified.Verified? && name(e.key) in dir.preps && dir.preps[name(e.key)] == e
    && name(e.key) !in dir.allocs && |steps| == 2 && steps[1] == RemovePrep(e.key)
    && (if status.Committed? then
          && steps[0] == WriteAlloc(e) && ClassifyProof(e, verified.proof).Exact?
          && Validate(e, Some(verified.proof), sources) == Supported
        else
          && status.Superseded? && ClassifyProof(e, verified.proof).Extended?
          && SuccessorPlan(name, dir, e, verified.proof, sources) == (Committed, [steps[0]]))
  }

  lemma PlanIsShort(name: Naming, dir: Directory, e: OpeningEntry, requestMatches: bool, verified: Verification, sources: Sources)
    requires Consistent(name, dir)
    ensures var (status, steps) := PublishPlan(name, dir, e, requestMatches, verified, sources);
            && |steps| <= 2
            && (|steps| == 2 ==> TwoStepPlan(name, dir, e, requestMatches, verified, sources))
  {
    hide Consistent;
    hide Validate;
    hide FindEquivalent;
    hide SuccessorPlan;
    hide ClassifyProof;
    hide Covers;
    var (status, steps) := PublishPlan(name, dir, e, requestMatches, verified, sources);
    if status.Superseded? && steps != [] {
      SuccessorPlanShape(name, dir, e, verified.proof, sources);
      var first := SuccessorPlan(name, dir, e, verified.proof, sources).1;
      if first != [] { assert first == [first[0]]; }
    }
  }

  // ----- whole runs

  datatype Call =
    | PrepareCall(entry: OpeningEntry, proof: Proof, sources: Sources, survive: nat)
    | PublishCall(entry: OpeningEntry, requestMatches: bool, verified: Verification, sources: Sources, survive: nat)

  ghost function AfterCall(name: Naming, dir: Directory, call: Call): Directory {
    match call
    case PrepareCall(entry, proof, sources, survive) => Cut(name, dir, PreparePlan(name, dir, entry, proof, sources), survive).1
    case PublishCall(entry, requestMatches, verified, sources, survive) =>
      Cut(name, dir, PublishPlan(name, dir, entry, requestMatches, verified, sources), survive).1
  }

  ghost function Run(name: Naming, dir: Directory, calls: seq<Call>): Directory
    decreases |calls|
  {
    if calls == [] then dir else Run(name, AfterCall(name, dir, calls[0]), calls[1..])
  }

  /** Over any run, with crashes anywhere, sources changing between calls and any file naming: equal
      payloads share one key, both kinds under one name agree, allocations never change, and every
      record ever seen is still vouched for by a record of its operation with all its tickets and
      at least its managed quantity. */
  lemma {:induction false} RunKeepsDirectory(name: Naming, dir: Directory, calls: seq<Call>)
    requires Consistent(name, dir)
    ensures Kept(name, dir, Run(name, dir, calls))
    ensures forall e: OpeningEntry :: IsRecord(dir, e) ==> Witnessed(Run(name, dir, calls), e)
    decreases |calls|
  {
    hide Consistent;
    hide PreparePlan;
    hide PublishPlan;
    KeptSelf(name, dir);
    if calls != [] {
      var next := AfterCall(name, dir, calls[0]);
      match calls[0] {
        case PrepareCall(entry, proof, sources, survive) => PrepareKeeps(name, dir, entry, proof, sources, survive);
        case PublishCall(entry, requestMatches, verified, sources, survive) =>
          PublishKeeps(name, dir, entry, requestMatches, verified, sources, survive);
      }
      RunKeepsDirectory(name, next, calls[1..]);
      KeptTwice(name, dir, next, Run(name, dir, calls));
    }
    forall e: OpeningEntry | IsRecord(dir, e) ensures Witnessed(Run(name, dir, calls), e) {
      CoversSelf(e);
      assert Witnessed(dir, e);
    }
  }

  lemma EmptyIsConsistent(name: Naming)
    ensures Consistent(name, Directory(map[], map[]))
  {
  }

  // ----- choosing a discriminator for a fresh candidate

  ghost predicate Occupied(entries: seq<OpeningEntry>, candidate: OpeningEntry, revision: nat) {
    exists i :: 0 <= i < |entries| && SameSlot(entries[i], candidate, revision)
  }

  ghost predicate HasEquivalent(entries: seq<OpeningEntry>, candidate: OpeningEntry) {
    exists i :: 0 <= i < |entries| && SamePayload(candidate, entries[i])
  }

  predicate SameSlot(entry: OpeningEntry, candidate: OpeningEntry, revision: nat) {
    && entry.key.operationKey == candidate.key.operationKey && entry.key.operationRevision == candidate.key.operationRevision
    && entry.key.frontierRevision == revision
  }

  method IsOccupied(entries: seq<OpeningEntry>, candidate: OpeningEntry, revision: nat) returns (occupied: bool)
    ensures occupied <==> Occupied(entries, candidate, revision)
  {
    for i := 0 to |entries|
      invariant forall k :: 0 <= k < i ==> !SameSlot(entries[k], candidate, revision)
    {
      if SameSlot(entries[i], candidate, revision) { return true; }
    }
    return false;
  }

  /** Keeps the source identity: an equal payload's lowest discriminator is reused; otherwise the
      first free one from the candidate's own upwards is taken, and none is passed over. */
  method SelectDiscriminator(candidate: OpeningEntry, entries: seq<OpeningEntry>) returns (selected: Option<OpeningEntry>)
    ensures selected.Some? ==> SamePayload(candidate, selected.value)
    ensures HasEquivalent(entries, candidate) ==> selected.Some? && selected.value in entries
    ensures HasEquivalent(entries, candidate) ==> forall i :: 0 <= i < |entries| && SamePayload(candidate, entries[i]) ==>
              selected.Some? && selected.value.key.frontierRevision <= entries[i].key.frontierRevision
    ensures !HasEquivalent(entries, candidate) && selected.Some? ==>
              !Occupied(entries, candidate, selected.value.key.frontierRevision)
    ensures !HasEquivalent(entries, candidate) ==>
              forall r: nat | candidate.key.frontierRevision <= r <= U64_MAX && (selected.None? || r < selected.value.key.frontierRevision) ::
                Occupied(entries, candidate, r)
    ensures !HasEquivalent(entries, candidate) && selected.Some? ==> selected.value.key.frontierRevision >= candidate.key.frontierRevision
  {
    hide SamePayload;
    hide Occupied;
    var best: Option<OpeningEntry> := None;
    for i := 0 to |entries|
      invariant best.Some? ==> best.value in entries && SamePayload(candidate, best.value)
      invariant forall k :: 0 <= k < i && SamePayload(candidate, entries[k]) ==>
                  best.Some? && best.value.key.frontierRevision <= entries[k].key.frontierRevision
    {
      if SamePayload(candidate, entries[i])
         && (best.None? || entries[i].key.frontierRevision < best.value.key.frontierRevision) {
        best := Some(entries[i]);
      }
    }
    if best.Some? {
      var chosen := candidate.(key := candidate.key.(frontierRevision := best.value.key.frontierRevision));
      SameRevisionIsSame(candidate, best.value);
      return Some(chosen);
    }
    var revision: u64 := candidate.key.frontierRevision;
    var taken := IsOccupied(entries, candidate, revision);
    if !taken {
      SamePayloadIsEquivalence(candidate, candidate, candidate);
      return Some(candidate);
    }
    while revision != U64_MAX
      invariant candidate.key.frontierRevision <= revision
      invariant forall r: nat :: candidate.key.frontierRevision <= r <= revision ==> Occupied(entries, candidate, r)
      decreases U64_MAX - revision
    {
      revision := revision + 1;
      taken := IsOccupied(entries, candidate, revision);
      if !taken {
        PayloadAt(candidate, revision);
        return Some(candidate.(key := candidate.key.(frontierRevision := revision)));
      }
    }
    return None;
  }

  lemma SameRevisionIsSame(a: OpeningEntry, b: OpeningEntry)
    requires SamePayload(a, b)
    ensures a.(key := a.key.(frontierRevision := b.key.frontierRevision)) == b
  {
  }

  lemma PayloadAt(a: OpeningEntry, revision: u64)
    ensures SamePayload(a, a.(key := a.key.(frontierRevision := revision)))
  {
  }

  // ----- the store object

  class AccountStore {
    const name: Naming
    var preps: map<Path, OpeningEntry>
    var allocs: map<Path, OpeningEntry>

    ghost function State(): Directory
      reads this
    {
      Directory(preps, allocs)
    }

    constructor (name: Naming)
      ensures this.name == name && State() == Directory(map[], map[]) && Consistent(name, State())
    {
      this.name := name;
      preps, allocs := map[], map[];
    }

    /** A listing of both record kinds. */
    ghost predicate Lists(prepFiles: seq<Path>, allocFiles: seq<Path>)
      reads this
    {
      && (forall p :: p in prepFiles <==> p in preps) && (forall p :: p in allocFiles <==> p in allocs)
      && (forall i, j :: 0 <= i < j < |prepFiles| ==> prepFiles[i] != prepFiles[j])
      && (forall i, j :: 0 <= i < j < |allocFiles| ==> allocFiles[i] != allocFiles[j])
    }

    method LookUpEquivalent(candidate: OpeningEntry, prepFiles: seq<Path>, allocFiles: seq<Path>) returns (equivalent: Equivalent)
      requires Lists(prepFiles, allocFiles)
      ensures equivalent == FindEquivalent(State(), candidate)
    {
      hide UniqueMatch;
      hide HasMatch;
      hide MatchIn;
      var uniqueAlloc, alloc := ScanForMatch(allocs, allocFiles, candidate);
      if !uniqueAlloc {
        return AmbiguousRecords;
      }
      var uniquePrep, prep := ScanForMatch(preps, prepFiles, candidate);
      if !uniquePrep {
        return AmbiguousRecords;
      }
      if alloc.Some? {
        if prep.Some? && prep.value.key != alloc.value.key {
          return AmbiguousRecords;
        }
        return FoundEquivalent(alloc.value, true);
      }
      return if prep.Some? then FoundEquivalent(prep.value, false) else NoEquivalent;
    }

    /** Persists or replays one exact preparation. */
    method Prepare(entry: OpeningEntry, proof: Proof, sources: Sources, prepFiles: seq<Path>, allocFiles: seq<Path>, survive: nat)
      returns (status: Status)
      requires Lists(prepFiles, allocFiles)
      modifies this
      ensures (status, State()) == Cut(name, old(State()), PreparePlan(name, old(State()), entry, proof, sources), survive)
    {
      hide Validate;
      hide FindEquivalent;
      hide OpeningEntry.Valid;
      ghost var dir := State();
      ApplyTwo(name, dir, WritePrep(entry), WritePrep(entry));
      assert [WritePrep(entry)][..0] == [];
      if !entry.Valid() {
        return InvalidRecord;
      }
      var equivalent := LookUpEquivalent(entry, prepFiles, allocFiles);
      if equivalent.AmbiguousRecords? {
        return InvalidRecord;
      }
      if equivalent.FoundEquivalent? {
        var historical := ValidateEntry(equivalent.entry, None, sources);
        return if historical == Supported then AlreadyCommitted else SupportStatus(historical);
      }
      var support := ValidateEntry(entry, Some(proof), sources);
      if support != Supported {
        return SupportStatus(support);
      }
      var path := name(entry.key);
      if path in allocs {
        if allocs[path] != entry || (path in preps && preps[path] != entry) {
          return Conflict;
        }
        return AlreadyCommitted;
      }
      if path in preps {
        return if preps[path] == entry then AlreadyCommitted else Conflict;
      }
      if survive == 0 {
        return IoError;
      }
      preps := preps[path := entry];
      return Committed;
    }

    /** Finds or writes the successor of an overtaken preparation, skipping taken discriminators. */
    method EnsureSuccessor(predecessor: OpeningEntry, proof: Proof, sources: Sources, prepFiles: seq<Path>, allocFiles: seq<Path>,
                           survive: nat) returns (status: Status, left: nat)
      requires Lists(prepFiles, allocFiles)
      modifies this
      ensures (status, State()) == Cut(name, old(State()), SuccessorPlan(name, old(State()), predecessor, proof, sources), survive)
      ensures status.Committed? ==> left == survive - |SuccessorPlan(name, old(State()), predecessor, proof, sources).1|
    {
      hide Validate;
      hide FindEquivalent;
      hide BuildEntry;
      hide SamePayload;
      ghost var dir := State();
      NoSteps(name, dir);
      var historical := ValidateEntry(predecessor, None, sources);
      if historical != Supported {
        return SupportStatus(historical), survive;
      }
      if sources.scan.ScanIo? {
        return IoError, survive;
      }
      var built := BuildEntry(proof, sources.scan);
      if built.None? || predecessor.key.frontierRevision == U64_MAX {
        return InvalidSource, survive;
      }
      var successor := FirstSuccessor(built.value, predecessor);
      var equivalent := LookUpEquivalent(successor, prepFiles, allocFiles);
      if equivalent.AmbiguousRecords? {
        return InvalidRecord, survive;
      }
      if equivalent.FoundEquivalent? {
        var support := ValidateEntry(equivalent.entry, Some(proof), sources);
        return if support == Supported then Committed else SupportStatus(support), survive;
      }
      status, left := SearchSuccessor(successor, proof, sources, survive);
    }

    method SearchSuccessor(first: OpeningEntry, proof: Proof, sources: Sources, survive: nat) returns (status: Status, left: nat)
      modifies this
      ensures status.Committed? ==> left == survive - |SuccessorFrom(name, old(State()), first, proof, sources).1|
      ensures (status, State()) == Cut(name, old(State()), SuccessorFrom(name, old(State()), first, proof, sources), survive)
    {
      hide Validate;
      hide SamePayload;
      ghost var dir := State();
      NoSteps(name, dir);
      var successor := first;
      while true
        invariant State() == dir
        invariant SuccessorFrom(name, dir, first, proof, sources) == SuccessorFrom(name, dir, successor, proof, sources)
        decreases U64_MAX - successor.key.frontierRevision
      {
        var support := ValidateEntry(successor, Some(proof), sources);
        if support != Supported {
          return SupportStatus(support), survive;
        }
        var alloc, prep := ProbeAt(name, allocs, successor), ProbeAt(name, preps, successor);
        if alloc == ForeignKey || (alloc != OtherPayload && prep == ForeignKey) {
          return InvalidRecord, survive;
        }
        if alloc == OtherPayload || prep == OtherPayload {
          if successor.key.frontierRevision == U64_MAX {
            return InvalidSource, survive;
          }
          successor := successor.(key := successor.key.(frontierRevision := successor.key.frontierRevision + 1));
          continue;
        }
        if alloc == SameRecord || prep == SameRecord {
          return Committed, survive;
        }
        OneStep(name, dir, WritePrep(successor));
        if survive == 0 {
          return IoError, survive;
        }
        preps := preps[name(successor.key) := successor];
        return Committed, survive - 1;
      }
    }

    /** Publishes, replays, or supersedes one preparation under a fresh verification. */
    method Publish(e: OpeningEntry, requestMatches: bool, verified: Verification, sources: Sources, prepFiles: seq<Path>,
                   allocFiles: seq<Path>, survive: nat) returns (status: Status)
      requires Lists(prepFiles, allocFiles)
      modifies this
      ensures (status, State()) == Cut(name, old(State()), PublishPlan(name, old(State()), e, requestMatches, verified, sources), survive)
    {
      hide Validate;
      hide FindEquivalent;
      hide ClassifyProof;
      hide SuccessorPlan;
      hide OpeningEntry.Valid;
      ghost var dir := State();
      NoSteps(name, dir);
      OneStep(name, dir, RemovePrep(e.key));
      if !e.Valid() || !requestMatches {
        return InvalidRecord;
      }
      var path := name(e.key);
      if path in preps && preps[path] != e {
        return Conflict;
      }
      if verified.NotVerified? {
        return VerifierStatus(verified.failure);
      }
      var proof := verified.proof;
      var equivalent := LookUpEquivalent(e, prepFiles, allocFiles);
      if equivalent.AmbiguousRecords? {
        return InvalidRecord;
      }
      if equivalent.FoundEquivalent? && equivalent.entry.key != e.key {
        if !equivalent.allocation {
          return Conflict;
        }
        var support := ValidateEntry(equivalent.entry, Some(proof), sources);
        if support != Supported {
          return SupportStatus(support);
        }
        if path in preps {
          status := RemovePreparation(e.key, AlreadyCommitted, survive);
          return;
        }
        return AlreadyCommitted;
      }
      if path in allocs {
        if allocs[path] != e {
          return Conflict;
        }
        var support := ValidateEntry(e, None, sources);
        if support != Supported {
          return SupportStatus(support);
        }
        if ClassifyProof(e, proof).Contradiction? {
          return InvalidSource;
        }
        status := RemovePreparation(e.key, AlreadyCommitted, survive);
        return;
      }
      if path !in preps {
        return MissingSource;
      }
      match ClassifyProof(e, proof)
      case Contradiction => return InvalidSource;
      case Extended =>
        PlanThenRemove(name, dir, SuccessorPlan(name, dir, e, proof, sources).1, e.key, survive);
        var left;
        status, left := EnsureSuccessor(e, proof, sources, prepFiles, allocFiles, survive);
        NonCommittedSuccessor(name, dir, e, proof, sources);
        if status != Committed {
          return;
        }
        status := RemovePreparation(e.key, Superseded, left);
      case Exact =>
        var support := ValidateEntry(e, Some(proof), sources);
        if support != Supported {
          return SupportStatus(support);
        }
        PlanThenRemove(name, dir, [WriteAlloc(e)], e.key, survive);
        assert [WriteAlloc(e)] + [RemovePrep(e.key)] == [WriteAlloc(e), RemovePrep(e.key)];
        OneStep(name, dir, WriteAlloc(e));
        if survive == 0 {
          return IoError;
        }
        allocs := allocs[path := e];
        status := RemovePreparation(e.key, Committed, survive - 1);
    }

    method RemovePreparation(key: OpeningKey, success: Status, survive: nat) returns (status: Status)
      modifies this
      ensures status == (if survive == 0 then IoError else success)
      ensures State() == if survive == 0 then old(State()) else Apply(name, old(State()), RemovePrep(key))
    {
      if survive == 0 {
        return IoError;
      }
      preps := preps - {name(key)};
      return success;
    }
  }

  lemma NoSteps(name: Naming, dir: Directory)
    ensures ApplyAll(name, dir, []) == dir
  {
  }

  lemma OneStep(name: Naming, dir: Directory, step: Step)
    ensures ApplyAll(name, dir, [step]) == Apply(name, dir, step) && ApplyAll(name, dir, [step][..0]) == dir
  {
    ApplyTwo(name, dir, step, step);
  }

  /** A removal after a plan: either the plan is cut off, or the removal is what is left. */
  lemma {:induction false} PlanThenRemove(name: Naming, dir: Directory, steps: seq<Step>, key: OpeningKey, survive: nat)
    ensures var all := steps + [RemovePrep(key)];
            if survive < |steps| then all[..survive] == steps[..survive]
            else if survive == |steps| then all[..survive] == steps
            else ApplyAll(name, dir, all) == Apply(name, ApplyAll(name, dir, steps), RemovePrep(key))
    decreases |steps|
  {
    if steps == [] {
      OneStep(name, dir, RemovePrep(key));
      assert steps + [RemovePrep(key)] == [RemovePrep(key)];
    } else {
      PlanThenRemove(name, Apply(name, dir, steps[0]), steps[1..], key, if survive > 0 then survive - 1 else 0);
      assert (steps + [RemovePrep(key)])[1..] == steps[1..] + [RemovePrep(key)];
    }
  }

  lemma {:induction false} SearchFailsPlainly(name: Naming, dir: Directory, s: OpeningEntry, proof: Proof, sources: Sources)
    ensures var status := SuccessorFrom(name, dir, s, proof, sources).0;
            status.Committed? || !Succeeded(status)
    decreases U64_MAX - s.key.frontierRevision
  {
    hide Validate;
    hide SamePayload;
    if s.key.frontierRevision < U64_MAX {
      SearchFailsPlainly(name, dir, s.(key := s.key.(frontierRevision := s.key.frontierRevision + 1)), proof, sources);
    }
  }

  lemma NonCommittedSuccessor(name: Naming, dir: Directory, e: OpeningEntry, proof: Proof, sources: Sources)
    ensures var (status, steps) := SuccessorPlan(name, dir, e, proof, sources);
            !status.Committed? ==> !Succeeded(status) && steps == []
  {
    hide Validate;
    hide BuildEntry;
    hide FindEquivalent;
    hide SuccessorFrom;
    if BuildEntry(proof, sources.scan).Some? && e.key.frontierRevision != U64_MAX {
      SuccessorShape(name, dir, FirstSuccessor(BuildEntry(proof, sources.scan).value, e), proof, sources);
      SearchFailsPlainly(name, dir, FirstSuccessor(BuildEntry(proof, sources.scan).value, e), proof, sources);
    }
  }
}
