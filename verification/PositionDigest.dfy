/** Order, validity and canonical digest of a position's ownership decomposition
    (src/dispatch/managed_close_attribution_contract.hpp:53-270). */
module PositionDigest {
  import opened MachineWords
  import opened Options
  import opened FnvHash
  import opened SettlementRecords
  import opened AllocationRecords
  import opened OpeningFacts

  datatype OwnerKind = ManagedTrade | Unmanaged

  /** One exact part of a broker position, managed or explicitly unmanaged. */
  datatype OwnershipEntry = OwnershipEntry(
    kind: OwnerKind, tradeId: u64, managedUnits: u64, volume: BrokerVolume, source: Option<OperationKey>, sourceRevision: u64,
    evidenceDigest: u64)
  {
    predicate Valid(account: AccountKey) {
      && account.Valid() && volume.Valid() && evidenceDigest != 0
      && (match kind
          case ManagedTrade =>
            && tradeId != 0 && managedUnits != 0 && source.Some? && source.value.Valid() && source.value.account == account
            && source.value.tradeId == tradeId && sourceRevision != 0 && volume.units == managedUnits * Pow10(volume.scale)
          case Unmanaged => tradeId == 0 && managedUnits == 0 && source.None? && sourceRevision == 0)
    }

    /** Two entries with one identity claim the same source twice. */
    predicate SameIdentity(other: OwnershipEntry) {
      && kind == other.kind && source == other.source && sourceRevision == other.sourceRevision
      && evidenceDigest == other.evidenceDigest
    }
  }

  datatype FrontierKey = FrontierKey(
    account: AccountKey, positionIdentifier: u64, graphInstanceId: u64, graphRevision: u64, positionsRevision: u64)
  {
    predicate Valid() {
      && account.Valid() && positionIdentifier != 0 && graphInstanceId != 0 && graphRevision != 0 && positionsRevision != 0
      && positionsRevision <= graphRevision
    }
  }

  datatype OwnershipFrontier = OwnershipFrontier(
    key: FrontierKey, symbol: Text, direction: Direction, volume: BrokerVolume, evidenceDigest: u64, entries: seq<OwnershipEntry>)

  // ----- the order of entries

  /** Byte-wise lexicographic order of texts. */
  predicate TextLess(a: Text, b: Text) {
    if b == [] then false
    else if a == [] then true
    else if a[0] != b[0] then a[0] < b[0]
    else TextLess(a[1..], b[1..])
  }

  function KindCode(kind: OwnerKind): u8 {
    match kind case ManagedTrade => 1 case Unmanaged => 2
  }

  /** The first field that differs decides. */
  predicate EntryLess(a: OwnershipEntry, b: OwnershipEntry) {
    if KindCode(a.kind) != KindCode(b.kind) then KindCode(a.kind) < KindCode(b.kind)
    else if a.tradeId != b.tradeId then a.tradeId < b.tradeId
    else if a.source.Some? != b.source.Some? then b.source.Some?
    else if a.source.Some? && b.source.Some? && a.source.value != b.source.value then OperationLess(a.source.value, b.source.value)
    else if a.sourceRevision != b.sourceRevision then a.sourceRevision < b.sourceRevision
    else if a.evidenceDigest != b.evidenceDigest then a.evidenceDigest < b.evidenceDigest
    else if a.managedUnits != b.managedUnits then a.managedUnits < b.managedUnits
    else if a.volume.units != b.volume.units then a.volume.units < b.volume.units
    else if a.volume.scale != b.volume.scale then a.volume.scale < b.volume.scale
    else a.volume.stepUnits < b.volume.stepUnits
  }

  predicate OperationLess(a: OperationKey, b: OperationKey) {
    if a.account.server != b.account.server then TextLess(a.account.server, b.account.server)
    else if a.account.login != b.account.login then a.account.login < b.account.login
    else if a.tradeId != b.tradeId then a.tradeId < b.tradeId
    else a.operationId < b.operationId
  }

  lemma {:induction false} TextOrder(a: Text, b: Text)
    ensures !(TextLess(a, b) && TextLess(b, a)) && !TextLess(a, a)
    ensures TextLess(a, b) || a == b || TextLess(b, a)
  {
    if a != [] { TextOrder(a[1..], a[1..]); }
    if a != [] && b != [] && a[0] == b[0] {
      TextOrder(a[1..], b[1..]);
      assert a[1..] == b[1..] ==> a == [a[0]] + a[1..] == [b[0]] + b[1..] == b;
    }
  }

  lemma {:induction false} TextTransitive(a: Text, b: Text, c: Text)
    requires TextLess(a, b) && TextLess(b, c)
    ensures TextLess(a, c)
  {
    if a != [] && a[0] == b[0] == c[0] { TextTransitive(a[1..], b[1..], c[1..]); }
  }

  lemma OperationOrder(a: OperationKey, b: OperationKey)
    ensures !(OperationLess(a, b) && OperationLess(b, a)) && !OperationLess(a, a)
    ensures OperationLess(a, b) || a == b || OperationLess(b, a)
  {
    hide TextLess;
    TextOrder(a.account.server, b.account.server);
  }

  lemma OperationTransitive(a: OperationKey, b: OperationKey, c: OperationKey)
    requires OperationLess(a, b) && OperationLess(b, c)
    ensures OperationLess(a, c)
  {
    hide TextLess;
    var s, t, u := a.account.server, b.account.server, c.account.server;
    TextOrder(s, u);
    TextOrder(t, u);
    if TextLess(s, t) && TextLess(t, u) { TextTransitive(s, t, u); }
  }

  /** A strict total order: any two entries are ordered one way, or equal in every field. */
  lemma EntriesAreTotallyOrdered(a: OwnershipEntry, b: OwnershipEntry)
    ensures !EntryLess(a, a) && !(EntryLess(a, b) && EntryLess(b, a))
    ensures EntryLess(a, b) || a == b || EntryLess(b, a)
  {
    hide OperationLess;
    if a.source.Some? && b.source.Some? { OperationOrder(a.source.value, b.source.value); }
  }

  lemma EntryOrderIsTransitive(a: OwnershipEntry, b: OwnershipEntry, c: OwnershipEntry)
    requires EntryLess(a, b) && EntryLess(b, c)
    ensures EntryLess(a, c)
  {
    hide OperationLess;
    if a.source.Some? && b.source.Some? && c.source.Some? {
      OperationOrder(a.source.value, c.source.value);
      OperationOrder(b.source.value, c.source.value);
      OperationOrder(a.source.value, b.source.value);
      if OperationLess(a.source.value, b.source.value) && OperationLess(b.source.value, c.source.value) {
        OperationTransitive(a.source.value, b.source.value, c.source.value);
      }
    }
  }

  // ----- sorting

  predicate Ordered(s: seq<OwnershipEntry>) {
    forall i, j :: 0 <= i < j < |s| ==> !EntryLess(s[j], s[i])
  }

  function InsertEntry(s: seq<OwnershipEntry>, e: OwnershipEntry): (r: seq<OwnershipEntry>)
    ensures multiset(r) == multiset(s) + multiset{e}
  {
    if s == [] then [e]
    else if EntryLess(e, s[0]) then [e] + s
    else
      assert s == [s[0]] + s[1..];
      [s[0]] + InsertEntry(s[1..], e)
  }

  function SortEntries(s: seq<OwnershipEntry>): (r: seq<OwnershipEntry>)
    ensures multiset(r) == multiset(s) && |r| == |s|
  {
    if s == [] then []
    else
      assert s == s[..|s| - 1] + [s[|s| - 1]];
      SizeFromMultiset(InsertEntry(SortEntries(s[..|s| - 1]), s[|s| - 1]), s);
      InsertEntry(SortEntries(s[..|s| - 1]), s[|s| - 1])
  }

  lemma SizeFromMultiset(a: seq<OwnershipEntry>, b: seq<OwnershipEntry>)
    requires multiset(a) == multiset(b)
    ensures |a| == |b|
  {
    assert |multiset(a)| == |a| && |multiset(b)| == |b|;
  }

  lemma NotBelowTheFirst(s: seq<OwnershipEntry>, k: nat, e: OwnershipEntry)
    requires Ordered(s) && k < |s| && EntryLess(e, s[0])
    ensures !EntryLess(s[k], e)
  {
    hide EntryLess;
    EntriesAreTotallyOrdered(e, s[0]);
    if EntryLess(s[k], e) { EntryOrderIsTransitive(s[k], e, s[0]); }
  }

  lemma {:induction false} InsertKeepsOrder(s: seq<OwnershipEntry>, e: OwnershipEntry)
    requires Ordered(s)
    ensures Ordered(InsertEntry(s, e))
  {
    hide EntryLess;
    if s != [] {
      if EntryLess(e, s[0]) {
        var r := [e] + s;
        forall i, j | 0 <= i < j < |r| ensures !EntryLess(r[j], r[i]) {
          if i == 0 {
            NotBelowTheFirst(s, j - 1, e);
          }
        }
      } else {
        InsertKeepsOrder(s[1..], e);
        var rest := InsertEntry(s[1..], e);
        forall k | 0 <= k < |rest| ensures !EntryLess(rest[k], s[0]) {
          assert rest[k] in multiset(rest);
          assert rest[k] in s[1..] || rest[k] == e;
        }
      }
    }
  }

  lemma {:induction false} SortIsOrdered(s: seq<OwnershipEntry>)
    ensures Ordered(SortEntries(s))
  {
    hide EntryLess;
    hide InsertEntry;
    if s != [] {
      SortIsOrdered(s[..|s| - 1]);
      InsertKeepsOrder(SortEntries(s[..|s| - 1]), s[|s| - 1]);
    }
  }

  lemma FirstsAgree(a: seq<OwnershipEntry>, b: seq<OwnershipEntry>)
    requires Ordered(a) && Ordered(b) && multiset(a) == multiset(b) && a != [] && b != []
    ensures a[0] == b[0]
  {
    hide EntryLess;
    assert a[0] in multiset(b) && b[0] in multiset(a);
    var i :| 0 <= i < |b| && b[i] == a[0];
    var j :| 0 <= j < |a| && a[j] == b[0];
    EntriesAreTotallyOrdered(a[0], b[0]);
  }

  lemma DropFirst(a: seq<OwnershipEntry>)
    requires a != []
    ensures multiset(a[1..]) == multiset(a) - multiset{a[0]}
  {
    assert a == [a[0]] + a[1..];
  }

  /** Because ties are equal entries, an ordered list is determined by its multiset. */
  lemma {:induction false} OrderedIsUnique(a: seq<OwnershipEntry>, b: seq<OwnershipEntry>)
    requires Ordered(a) && Ordered(b) && multiset(a) == multiset(b)
    ensures a == b
  {
    hide EntryLess;
    SizeFromMultiset(a, b);
    if a != [] {
      FirstsAgree(a, b);
      DropFirst(a);
      DropFirst(b);
      OrderedIsUnique(a[1..], b[1..]);
      assert a == [a[0]] + a[1..] && b == [b[0]] + b[1..];
    }
  }

  lemma SortIgnoresOrder(a: seq<OwnershipEntry>, b: seq<OwnershipEntry>)
    requires multiset(a) == multiset(b)
    ensures SortEntries(a) == SortEntries(b)
  {
    hide SortEntries;
    hide Ordered;
    SortIsOrdered(a);
    SortIsOrdered(b);
    OrderedIsUnique(SortEntries(a), SortEntries(b));
  }

  // ----- validity

  function UnitsSum(s: seq<OwnershipEntry>): nat {
    if s == [] then 0 else UnitsSum(s[..|s| - 1]) + s[|s| - 1].volume.units
  }

  predicate Distinct(s: seq<OwnershipEntry>) {
    forall i, j :: 0 <= i < j < |s| ==> !s[i].SameIdentity(s[j])
  }

  predicate Fits(e: OwnershipEntry, account: AccountKey, volume: BrokerVolume) {
    e.Valid(account) && e.volume.scale == volume.scale && e.volume.stepUnits == volume.stepUnits
  }

  predicate AllFit(s: seq<OwnershipEntry>, account: AccountKey, volume: BrokerVolume) {
    forall i :: 0 <= i < |s| ==> Fits(s[i], account, volume)
  }

  /** The entries partition the position volume exactly, no source twice. */
  predicate Partition(s: seq<OwnershipEntry>, account: AccountKey, volume: BrokerVolume) {
    s != [] && AllFit(s, account, volume) && Distinct(s) && UnitsSum(s) == volume.units
  }

  predicate HeaderValid(f: OwnershipFrontier) {
    && f.key.Valid() && f.symbol != [] && |f.symbol| < 64 && !f.direction.UnknownDirection? && f.volume.Valid()
    && f.evidenceDigest != 0
  }

  predicate FrontierValid(f: OwnershipFrontier) {
    HeaderValid(f) && Partition(f.entries, f.key.account, f.volume)
  }

  function ManagedTotal(s: seq<OwnershipEntry>): nat {
    if s == [] then 0
    else ManagedTotal(s[..|s| - 1]) + if s[|s| - 1].kind == ManagedTrade then s[|s| - 1].managedUnits else 0
  }

  function UnmanagedTotal(s: seq<OwnershipEntry>): nat {
    if s == [] then 0
    else UnmanagedTotal(s[..|s| - 1]) + if s[|s| - 1].kind == Unmanaged then s[|s| - 1].volume.units else 0
  }

  /** What a valid decomposition says: every part is in the position's own volume domain, managed parts
      name a source operation of their trade and account, each source once, and managed units, at the
      position's scale, together with unmanaged volume make up the position volume. */
  lemma ValidAccounts(f: OwnershipFrontier)
    requires FrontierValid(f)
    ensures ManagedTotal(f.entries) * Pow10(f.volume.scale) + UnmanagedTotal(f.entries) == f.volume.units
    ensures forall e <- f.entries :: e.volume.scale == f.volume.scale && e.volume.stepUnits == f.volume.stepUnits
    ensures forall e <- f.entries | e.kind == ManagedTrade ::
              && e.source.Some? && e.source.value.account == f.key.account && e.source.value.tradeId == e.tradeId > 0
              && e.managedUnits > 0 && e.sourceRevision > 0
    ensures forall e <- f.entries | e.kind == Unmanaged :: e.source.None? && e.tradeId == 0 && e.managedUnits == 0 && e.sourceRevision == 0
    ensures forall i, j :: 0 <= i < j < |f.entries| ==>
              (f.entries[i].source, f.entries[i].sourceRevision, f.entries[i].evidenceDigest)
              != (f.entries[j].source, f.entries[j].sourceRevision, f.entries[j].evidenceDigest)
  {
    var s := f.entries;
    TotalsAddUp(s, f.key.account, f.volume);
    forall i | 0 <= i < |s| ensures Fits(s[i], f.key.account, f.volume) {}
    forall i, j | 0 <= i < j < |s|
      ensures (s[i].source, s[i].sourceRevision, s[i].evidenceDigest) != (s[j].source, s[j].sourceRevision, s[j].evidenceDigest)
    {
      assert !s[i].SameIdentity(s[j]) && Fits(s[i], f.key.account, f.volume) && Fits(s[j], f.key.account, f.volume);
    }
  }

  lemma {:induction false} TotalsAddUp(s: seq<OwnershipEntry>, account: AccountKey, volume: BrokerVolume)
    requires AllFit(s, account, volume)
    ensures ManagedTotal(s) * Pow10(volume.scale) + UnmanagedTotal(s) == UnitsSum(s)
  {
    if s != [] {
      var init, last := s[..|s| - 1], s[|s| - 1];
      TotalsAddUp(init, account, volume);
      assert Fits(last, account, volume);
      if last.kind == ManagedTrade { Distributes(ManagedTotal(init), last.managedUnits, Pow10(volume.scale)); }
    }
  }

  lemma Distributes(a: nat, b: nat, c: nat)
    ensures (a + b) * c == a * c + b * c
  {
  }

  lemma {:induction false} PartialSum(s: seq<OwnershipEntry>, n: nat)
    requires n <= |s|
    ensures UnitsSum(s[..n]) <= UnitsSum(s)
  {
    if n < |s| {
      PartialSum(s[..|s| - 1], n);
      assert s[..|s| - 1][..n] == s[..n];
    } else {
      assert s[..n] == s;
    }
  }

  lemma SumStep(s: seq<OwnershipEntry>, n: nat)
    requires n < |s|
    ensures UnitsSum(s[..n + 1]) == UnitsSum(s[..n]) + s[n].volume.units
  {
    assert s[..n + 1][..n] == s[..n];
  }

  /** The nested validation loops: the running 64-bit sum and the comparison with every earlier
      entry decide exactly whether the entries partition the position. */
  method Validate(f: OwnershipFrontier) returns (ok: bool)
    ensures ok == FrontierValid(f)
  {
    hide OwnershipEntry.Valid;
    hide OwnershipEntry.SameIdentity;
    if !HeaderValid(f) || f.entries == [] { return false; }
    var s := f.entries;
    var total: u64 := 0;
    var index := 0;
    while index != |s|
      invariant 0 <= index <= |s|
      invariant total == UnitsSum(s[..index])
      invariant AllFit(s[..index], f.key.account, f.volume) && Distinct(s[..index])
    {
      var entry := s[index];
      SumStep(s, index);
      PartialSum(s, index + 1);
      if !Fits(entry, f.key.account, f.volume) || total > U64_MAX - entry.volume.units { return false; }
      var clash := HasPrior(s, index);
      if clash { return false; }
      total := total + entry.volume.units;
      index := index + 1;
    }
    assert s[..index] == s;
    ok := total == f.volume.units;
  }

  method HasPrior(s: seq<OwnershipEntry>, index: nat) returns (clash: bool)
    requires index < |s|
    ensures clash <==> exists i :: 0 <= i < index && s[i].SameIdentity(s[index])
  {
    var prior := 0;
    while prior != index
      invariant 0 <= prior <= index
      invariant forall i :: 0 <= i < prior ==> !s[i].SameIdentity(s[index])
    {
      if s[prior].SameIdentity(s[index]) { return true; }
      prior := prior + 1;
    }
    clash := false;
  }

  // ----- validity does not depend on entry order

  function Without(s: seq<OwnershipEntry>, i: nat): (r: seq<OwnershipEntry>)
    requires i < |s|
    ensures |r| == |s| - 1
    ensures forall k :: 0 <= k < |r| ==> r[k] == s[if k < i then k else k + 1]
    ensures multiset(s) == multiset(r) + multiset{s[i]}
  {
    assert s == s[..i] + [s[i]] + s[i + 1..];
    s[..i] + s[i + 1..]
  }

  lemma {:induction false} SumWithout(s: seq<OwnershipEntry>, i: nat)
    requires i < |s|
    ensures UnitsSum(s) == UnitsSum(Without(s, i)) + s[i].volume.units
  {
    var last := |s| - 1;
    if i == last {
      assert Without(s, i) == s[..last];
    } else {
      SumWithout(s[..last], i);
      assert Without(s, i)[..last - 1] == Without(s[..last], i);
    }
  }

  lemma SameRemainder(a: seq<OwnershipEntry>, i: nat, b: seq<OwnershipEntry>, j: nat)
    requires i < |a| && j < |b| && a[i] == b[j] && multiset(a) == multiset(b)
    ensures multiset(Without(a, i)) == multiset(Without(b, j))
  {
    assert multiset(Without(a, i)) == multiset(a) - multiset{a[i]};
    assert multiset(Without(b, j)) == multiset(b) - multiset{b[j]};
  }

  lemma {:induction false} SumIgnoresOrder(a: seq<OwnershipEntry>, b: seq<OwnershipEntry>)
    requires multiset(a) == multiset(b)
    ensures UnitsSum(a) == UnitsSum(b)
  {
    SizeFromMultiset(a, b);
    if a != [] {
      var last := |a| - 1;
      assert a[last] in multiset(b);
      var i :| 0 <= i < |b| && b[i] == a[last];
      SameRemainder(a, last, b, i);
      assert Without(a, last) == a[..last];
      SumIgnoresOrder(a[..last], Without(b, i));
      SumWithout(b, i);
    }
  }

  /** Two positions of one list, found in any reordering of it. */
  lemma PairSurvives(a: seq<OwnershipEntry>, b: seq<OwnershipEntry>, i: nat, j: nat)
    requires multiset(a) == multiset(b) && i < j < |b|
    ensures exists k, l :: 0 <= k < |a| && 0 <= l < |a| && k != l && a[k] == b[i] && a[l] == b[j]
  {
    assert b[j] in multiset(a);
    var l :| 0 <= l < |a| && a[l] == b[j];
    var rest := Without(a, l);
    SameRemainder(a, l, b, j);
    assert Without(b, j)[i] == b[i];
    assert b[i] in multiset(rest);
    var m :| 0 <= m < |rest| && rest[m] == b[i];
    var k := if m < l then m else m + 1;
    assert a[k] == b[i];
  }

  lemma DistinctIgnoresOrder(a: seq<OwnershipEntry>, b: seq<OwnershipEntry>)
    requires multiset(a) == multiset(b) && Distinct(a)
    ensures Distinct(b)
  {
    forall i, j | 0 <= i < j < |b| ensures !b[i].SameIdentity(b[j]) {
      PairSurvives(a, b, i, j);
      var k, l :| 0 <= k < |a| && 0 <= l < |a| && k != l && a[k] == b[i] && a[l] == b[j];
      IdentityIsSymmetric(a[k], a[l]);
    }
  }

  lemma IdentityIsSymmetric(a: OwnershipEntry, b: OwnershipEntry)
    ensures a.SameIdentity(b) == b.SameIdentity(a)
  {
  }

  lemma PartitionSurvives(a: seq<OwnershipEntry>, b: seq<OwnershipEntry>, account: AccountKey, volume: BrokerVolume)
    requires multiset(a) == multiset(b) && Partition(a, account, volume)
    ensures Partition(b, account, volume)
  {
    hide Fits;
    hide Distinct;
    hide UnitsSum;
    SizeFromMultiset(a, b);
    SumIgnoresOrder(a, b);
    DistinctIgnoresOrder(a, b);
    forall i | 0 <= i < |b| ensures Fits(b[i], account, volume) {
      assert b[i] in multiset(a);
      var k :| 0 <= k < |a| && a[k] == b[i];
    }
  }

  lemma HeaderIgnoresEntries(f: OwnershipFrontier, g: OwnershipFrontier)
    requires f.(entries := []) == g.(entries := [])
    ensures HeaderValid(f) == HeaderValid(g) && f.key == g.key && f.volume == g.volume
  {
    assert f == f.(entries := []).(entries := f.entries) && g == f.(entries := []).(entries := g.entries);
  }

  /** Reordering the entries never changes whether a frontier is valid. */
  lemma ValidIgnoresOrder(f: OwnershipFrontier, g: OwnershipFrontier)
    requires multiset(f.entries) == multiset(g.entries) && f.(entries := []) == g.(entries := [])
    ensures FrontierValid(f) == FrontierValid(g)
  {
    hide Partition;
    hide HeaderValid;
    HeaderIgnoresEntries(f, g);
    if Partition(f.entries, f.key.account, f.volume) { PartitionSurvives(f.entries, g.entries, f.key.account, f.volume); }
    if Partition(g.entries, f.key.account, f.volume) { PartitionSurvives(g.entries, f.entries, f.key.account, f.volume); }
  }

  // ----- the word stream

  /** A word handed to the hash; sizes and machine integers alike are below 2^64. */
  type Words = seq<nat>

  /** "mt5bridge-managed-position-ownership-frontier-v1". */
  function Tag(): Text {
    [109, 116, 53, 98, 114, 105, 100, 103, 101, 45, 109, 97, 110, 97, 103, 101, 100, 45, 112, 111, 115, 105, 116,
     105, 111, 110, 45, 111, 119, 110, 101, 114, 115, 104, 105, 112, 45, 102, 114, 111, 110, 116, 105, 101, 114,
     45, 118, 49]
  }

  function TextWords(t: Text): Words {
    [|t|] + t
  }

  function DirectionCode(direction: Direction): nat {
    match direction case UnknownDirection => 0 case Buy => 1 case Sell => 2
  }

  function OperationWords(o: OperationKey): Words {
    TextWords(o.account.server) + [o.account.login, o.tradeId, o.operationId]
  }

  function SourceWords(source: Option<OperationKey>): Words {
    match source
    case None => [0]
    case Some(o) => [1] + OperationWords(o)
  }

  function EntryWords(e: OwnershipEntry): Words {
    [KindCode(e.kind), e.tradeId, e.managedUnits, e.volume.units, e.volume.scale, e.volume.stepUnits]
    + SourceWords(e.source) + [e.sourceRevision, e.evidenceDigest]
  }

  function EntriesWords(s: seq<OwnershipEntry>): Words {
    if s == [] then [] else EntryWords(s[0]) + EntriesWords(s[1..])
  }

  function KeyWords(key: FrontierKey): Words {
    TextWords(key.account.server) + ObservationWords(key)
  }

  function ObservationWords(key: FrontierKey): Words {
    [key.account.login, key.positionIdentifier, key.graphInstanceId, key.graphRevision, key.positionsRevision]
  }

  function DomainWords(f: OwnershipFrontier): Words {
    [DirectionCode(f.direction), f.volume.units, f.volume.scale, f.volume.stepUnits, f.evidenceDigest, |f.entries|]
  }

  /** Everything the digest absorbs, in order; the entries are sorted first. */
  function Stream(f: OwnershipFrontier): Words {
    TextWords(Tag()) + (KeyWords(f.key) + (TextWords(f.symbol) + (DomainWords(f) + EntriesWords(SortEntries(f.entries)))))
  }

  lemma PeelFixed(a: Words, b: Words, x: Words, y: Words)
    requires |a| == |b| && a + x == b + y
    ensures a == b && x == y
  {
    assert (a + x)[..|a|] == a && (b + y)[..|b|] == b;
    assert (a + x)[|a|..] == x && (b + y)[|b|..] == y;
  }

  /** A size in front makes a text's encoding prefix-free. */
  lemma PeelText(a: Text, b: Text, x: Words, y: Words)
    requires TextWords(a) + x == TextWords(b) + y
    ensures a == b && x == y
  {
    assert (TextWords(a) + x)[0] == |a| && (TextWords(b) + y)[0] == |b|;
    PeelFixed(TextWords(a), TextWords(b), x, y);
    assert TextWords(a)[1..] == a && TextWords(b)[1..] == b;
  }

  lemma PeelOperation(a: OperationKey, b: OperationKey, x: Words, y: Words)
    requires OperationWords(a) + x == OperationWords(b) + y
    ensures a == b && x == y
  {
    hide TextWords;
    var restA, restB := [a.account.login, a.tradeId, a.operationId], [b.account.login, b.tradeId, b.operationId];
    assert OperationWords(a) + x == TextWords(a.account.server) + (restA + x);
    assert OperationWords(b) + y == TextWords(b.account.server) + (restB + y);
    PeelText(a.account.server, b.account.server, restA + x, restB + y);
    PeelFixed(restA, restB, x, y);
    assert restA[0] == restB[0] && restA[1] == restB[1] && restA[2] == restB[2];
  }

  lemma PeelSource(a: Option<OperationKey>, b: Option<OperationKey>, x: Words, y: Words)
    requires SourceWords(a) + x == SourceWords(b) + y
    ensures a == b && x == y
  {
    hide OperationWords;
    assert (SourceWords(a) + x)[0] == (if a.Some? then 1 else 0);
    assert (SourceWords(b) + y)[0] == (if b.Some? then 1 else 0);
    if a.Some? {
      assert SourceWords(a) + x == [1] + (OperationWords(a.value) + x);
      assert SourceWords(b) + y == [1] + (OperationWords(b.value) + y);
      PeelFixed([1], [1], OperationWords(a.value) + x, OperationWords(b.value) + y);
      PeelOperation(a.value, b.value, x, y);
    } else {
      PeelFixed([0], [0], x, y);
    }
  }

  lemma PeelEntry(a: OwnershipEntry, b: OwnershipEntry, x: Words, y: Words)
    requires EntryWords(a) + x == EntryWords(b) + y
    ensures a == b && x == y
  {
    hide SourceWords;
    var headA: Words := [KindCode(a.kind), a.tradeId, a.managedUnits, a.volume.units, a.volume.scale, a.volume.stepUnits];
    var headB: Words := [KindCode(b.kind), b.tradeId, b.managedUnits, b.volume.units, b.volume.scale, b.volume.stepUnits];
    var tailA, tailB := [a.sourceRevision, a.evidenceDigest], [b.sourceRevision, b.evidenceDigest];
    assert EntryWords(a) + x == headA + (SourceWords(a.source) + (tailA + x));
    assert EntryWords(b) + y == headB + (SourceWords(b.source) + (tailB + y));
    PeelFixed(headA, headB, SourceWords(a.source) + (tailA + x), SourceWords(b.source) + (tailB + y));
    PeelSource(a.source, b.source, tailA + x, tailB + y);
    PeelFixed(tailA, tailB, x, y);
    assert headA[0] == headB[0] && headA[1] == headB[1] && headA[2] == headB[2];
    assert headA[3] == headB[3] && headA[4] == headB[4] && headA[5] == headB[5];
    assert tailA[0] == tailB[0] && tailA[1] == tailB[1];
  }

  /** Equally many entries with equal words are equal entries. */
  lemma {:induction false} EntriesAreDetermined(a: seq<OwnershipEntry>, b: seq<OwnershipEntry>)
    requires |a| == |b| && EntriesWords(a) == EntriesWords(b)
    ensures a == b
  {
    hide EntryWords;
    if a != [] {
      PeelEntry(a[0], b[0], EntriesWords(a[1..]), EntriesWords(b[1..]));
      EntriesAreDetermined(a[1..], b[1..]);
      assert a == [a[0]] + a[1..] && b == [b[0]] + b[1..];
    }
  }

  lemma PeelKey(a: FrontierKey, b: FrontierKey, x: Words, y: Words)
    requires KeyWords(a) + x == KeyWords(b) + y
    ensures a == b && x == y
  {
    hide TextWords;
    var restA, restB := ObservationWords(a), ObservationWords(b);
    assert KeyWords(a) + x == TextWords(a.account.server) + (restA + x);
    assert KeyWords(b) + y == TextWords(b.account.server) + (restB + y);
    PeelText(a.account.server, b.account.server, restA + x, restB + y);
    PeelFixed(restA, restB, x, y);
    assert restA[0] == restB[0] && restA[1] == restB[1] && restA[2] == restB[2] && restA[3] == restB[3] && restA[4] == restB[4];
  }

  lemma DomainIsDetermined(f: OwnershipFrontier, g: OwnershipFrontier)
    requires DomainWords(f) == DomainWords(g)
    ensures f.direction == g.direction && f.volume == g.volume && f.evidenceDigest == g.evidenceDigest
    ensures |f.entries| == |g.entries|
  {
    var a, b := DomainWords(f), DomainWords(g);
    assert a[0] == b[0] && a[1] == b[1] && a[2] == b[2] && a[3] == b[3] && a[4] == b[4] && a[5] == b[5];
  }

  lemma PeelStream(f: OwnershipFrontier, g: OwnershipFrontier)
    requires Stream(f) == Stream(g)
    ensures f.key == g.key && f.symbol == g.symbol && DomainWords(f) == DomainWords(g)
    ensures EntriesWords(SortEntries(f.entries)) == EntriesWords(SortEntries(g.entries))
  {
    hide KeyWords;
    hide TextWords;
    hide Tag;
    hide EntriesWords;
    hide SortEntries;
    var lastA, lastB := EntriesWords(SortEntries(f.entries)), EntriesWords(SortEntries(g.entries));
    var domainA, domainB := DomainWords(f) + lastA, DomainWords(g) + lastB;
    var symbolA, symbolB := TextWords(f.symbol) + domainA, TextWords(g.symbol) + domainB;
    PeelText(Tag(), Tag(), KeyWords(f.key) + symbolA, KeyWords(g.key) + symbolB);
    PeelKey(f.key, g.key, symbolA, symbolB);
    PeelText(f.symbol, g.symbol, domainA, domainB);
    PeelFixed(DomainWords(f), DomainWords(g), lastA, lastB);
  }

  /** The words fed to the hash determine a frontier up to the order of its entries, and nothing
      more: reordered frontiers have one stream, different frontiers have different streams. */
  lemma StreamIsCanonical(f: OwnershipFrontier, g: OwnershipFrontier)
    ensures Stream(f) == Stream(g) <==> SameUpToOrder(f, g)
  {
    hide EntriesWords;
    hide SortEntries;
    hide KeyWords;
    hide TextWords;
    hide Tag;
    if Stream(f) == Stream(g) {
      PeelStream(f, g);
      DomainIsDetermined(f, g);
      EntriesAreDetermined(SortEntries(f.entries), SortEntries(g.entries));
      assert multiset(f.entries) == multiset(SortEntries(f.entries)) == multiset(g.entries);
    }
    if SameUpToOrder(f, g) {
      SortIgnoresOrder(f.entries, g.entries);
      SizeFromMultiset(f.entries, g.entries);
      HeaderIgnoresEntries(f, g);
      assert f == f.(entries := []).(entries := f.entries) && g == f.(entries := []).(entries := g.entries);
    }
  }

  predicate SameUpToOrder(f: OwnershipFrontier, g: OwnershipFrontier) {
    f.(entries := []) == g.(entries := []) && multiset(f.entries) == multiset(g.entries)
  }

  // ----- the digest

  /** The low `n` bytes of a word, least significant first. */
  function FoldBytes(digest: bv64, word: nat, n: nat): bv64
    decreases n
  {
    if n == 0 then digest else FoldBytes(FoldByte(digest, word % 0x100), word / 0x100, n - 1)
  }

  function FoldWords(digest: bv64, words: Words): bv64
    decreases |words|
  {
    if words == [] then digest else FoldWords(FoldBytes(digest, words[0], 8), words[1..])
  }

  function Digest(f: OwnershipFrontier): bv64 {
    if !FrontierValid(f) then 0
    else if FoldWords(OFFSET_BASIS, Stream(f)) == 0 then 1
    else FoldWords(OFFSET_BASIS, Stream(f))
  }

  /** Permuting the entries changes neither validity nor digest; zero means invalid. */
  lemma DigestIgnoresOrder(f: OwnershipFrontier, g: OwnershipFrontier)
    requires SameUpToOrder(f, g)
    ensures FrontierValid(f) == FrontierValid(g) && Digest(f) == Digest(g)
    ensures Digest(f) == 0 <==> !FrontierValid(f)
  {
    hide FrontierValid;
    hide Stream;
    hide FoldWords;
    ValidIgnoresOrder(f, g);
    StreamIsCanonical(f, g);
  }

  lemma {:induction false} FoldAppend(digest: bv64, a: Words, b: Words)
    ensures FoldWords(digest, a + b) == FoldWords(FoldWords(digest, a), b)
    decreases |a|
  {
    hide FoldBytes;
    if a == [] {
      assert a + b == b;
    } else {
      FoldAppend(FoldBytes(digest, a[0], 8), a[1..], b);
      assert (a + b)[1..] == a[1..] + b;
    }
  }

  method DigestU64(before: bv64, value: nat) returns (digest: bv64)
    ensures digest == FoldBytes(before, value, 8)
  {
    hide FoldByte;
    digest := before;
    var rest, shift := value, 0;
    while shift != 64
      invariant 0 <= shift <= 64 && shift % 8 == 0
      invariant FoldBytes(digest, rest, (64 - shift) / 8) == FoldBytes(before, value, 8)
      decreases 64 - shift
    {
      digest := FoldByte(digest, rest % 0x100);
      rest := rest / 0x100;
      shift := shift + 8;
    }
  }

  method DigestWords(before: bv64, words: Words) returns (digest: bv64)
    ensures digest == FoldWords(before, words)
  {
    hide FoldBytes;
    digest := before;
    var i := 0;
    while i != |words|
      invariant 0 <= i <= |words|
      invariant FoldWords(digest, words[i..]) == FoldWords(before, words)
    {
      assert words[i..][1..] == words[i + 1..];
      digest := DigestU64(digest, words[i]);
      i := i + 1;
    }
  }

  method DigestText(before: bv64, value: Text) returns (digest: bv64)
    ensures digest == FoldWords(before, TextWords(value))
  {
    hide FoldBytes;
    digest := DigestU64(before, |value|);
    assert TextWords(value)[1..] == value;
    digest := DigestWords(digest, value);
  }

  method DigestSource(before: bv64, source: Option<OperationKey>) returns (digest: bv64)
    ensures digest == FoldWords(before, SourceWords(source))
  {
    hide FoldWords;
    hide TextWords;
    match source
    case None =>
      digest := DigestWords(before, [0]);
    case Some(o) =>
      digest := DigestWords(before, [1]);
      digest := DigestText(digest, o.account.server);
      digest := DigestWords(digest, [o.account.login, o.tradeId, o.operationId]);
      FoldAppend(before, [1], OperationWords(o));
      FoldAppend(FoldWords(before, [1]), TextWords(o.account.server), [o.account.login, o.tradeId, o.operationId]);
  }

  method DigestEntry(before: bv64, e: OwnershipEntry) returns (digest: bv64)
    ensures digest == FoldWords(before, EntryWords(e))
  {
    hide FoldWords;
    hide SourceWords;
    var head: Words := [KindCode(e.kind), e.tradeId, e.managedUnits, e.volume.units, e.volume.scale, e.volume.stepUnits];
    digest := DigestWords(before, head);
    digest := DigestSource(digest, e.source);
    digest := DigestWords(digest, [e.sourceRevision, e.evidenceDigest]);
    FoldAppend(before, head, SourceWords(e.source));
    FoldAppend(before, head + SourceWords(e.source), [e.sourceRevision, e.evidenceDigest]);
  }

  method DigestEntries(before: bv64, entries: seq<OwnershipEntry>) returns (digest: bv64)
    ensures digest == FoldWords(before, EntriesWords(entries))
  {
    hide FoldWords;
    hide EntryWords;
    digest := before;
    var i := 0;
    while i != |entries|
      invariant 0 <= i <= |entries|
      invariant FoldWords(digest, EntriesWords(entries[i..])) == FoldWords(before, EntriesWords(entries))
    {
      var rest := entries[i..];
      assert rest[1..] == entries[i + 1..] && rest[0] == entries[i];
      FoldAppend(digest, EntryWords(entries[i]), EntriesWords(rest[1..]));
      digest := DigestEntry(digest, entries[i]);
      i := i + 1;
    }
    FoldNothing(digest);
  }

  lemma FoldNothing(digest: bv64)
    ensures FoldWords(digest, []) == digest
  {
  }

  /** Sorts, then absorbs field after field. */
  method FrontierDigest(f: OwnershipFrontier) returns (digest: bv64)
    ensures digest == Digest(f)
  {
    hide FoldWords;
    hide FrontierValid;
    hide SortEntries;
    hide EntriesWords;
    hide TextWords;
    hide Tag;
    hide DomainWords;
    hide ObservationWords;
    var ok := Validate(f);
    if !ok { return 0; }
    var entries := SortEntries(f.entries);
    digest := DigestText(OFFSET_BASIS, Tag());
    digest := DigestText(digest, f.key.account.server);
    digest := DigestWords(digest, ObservationWords(f.key));
    digest := DigestText(digest, f.symbol);
    digest := DigestWords(digest, DomainWords(f));
    digest := DigestEntries(digest, entries);
    FoldSix(OFFSET_BASIS, TextWords(Tag()), TextWords(f.key.account.server), ObservationWords(f.key), TextWords(f.symbol),
            DomainWords(f), EntriesWords(entries));
    if digest == 0 { digest := 1; }
  }

  lemma FoldSix(start: bv64, a: Words, b: Words, c: Words, d: Words, e: Words, z: Words)
    ensures FoldWords(start, a + ((b + c) + (d + (e + z))))
         == FoldWords(FoldWords(FoldWords(FoldWords(FoldWords(FoldWords(start, a), b), c), d), e), z)
  {
    hide FoldWords;
    var x := FoldWords(start, a);
    var y := FoldWords(x, b + c);
    FoldAppend(start, a, (b + c) + (d + (e + z)));
    FoldAppend(x, b + c, d + (e + z));
    FoldAppend(x, b, c);
    FoldAppend(y, d, e + z);
    FoldAppend(FoldWords(y, d), e, z);
  }
}
