/** Canonical cumulative OPEN executions
    (src/dispatch/managed_opening_execution_evidence.hpp:485-660). */
module ExecutionFrontier {
  import opened MachineWords
  import opened Options
  import opened ManagedQuantity
  import opened OpeningFacts

  datatype Frontier = Frontier(entries: seq<DealFact>, brokerUnits: u64, managedUnits: u64) {
    /** The fact belongs to this frontier's identity and quantity domain. */
    predicate AcceptsIdentity(fact: DealFact) {
      entries != [] && entries[0].Compatible(fact)
    }
  }

  // ----- sorting by ticket

  predicate Ascending(s: seq<DealFact>) {
    forall i, j :: 0 <= i < j < |s| ==> s[i].dealTicket <= s[j].dealTicket
  }

  predicate StrictlyAscending(s: seq<DealFact>) {
    forall i, j :: 0 <= i < j < |s| ==> s[i].dealTicket < s[j].dealTicket
  }

  function Elements(s: seq<DealFact>): set<DealFact> {
    set f | f in s
  }

  function InsertByTicket(s: seq<DealFact>, f: DealFact): (r: seq<DealFact>)
    ensures multiset(r) == multiset(s) + multiset{f}
  {
    if s == [] then [f]
    else if f.dealTicket < s[0].dealTicket then [f] + s
    else
      assert s == [s[0]] + s[1..];
      [s[0]] + InsertByTicket(s[1..], f)
  }

  function SortByTicket(s: seq<DealFact>): (r: seq<DealFact>)
    ensures multiset(r) == multiset(s)
  {
    if s == [] then []
    else
      assert s == s[..|s| - 1] + [s[|s| - 1]];
      InsertByTicket(SortByTicket(s[..|s| - 1]), s[|s| - 1])
  }

  lemma {:induction false} InsertKeepsOrder(s: seq<DealFact>, f: DealFact)
    requires Ascending(s)
    ensures Ascending(InsertByTicket(s, f))
  {
    if s != [] && f.dealTicket >= s[0].dealTicket {
      InsertKeepsOrder(s[1..], f);
      var rest := InsertByTicket(s[1..], f);
      forall k | 0 <= k < |rest| ensures s[0].dealTicket <= rest[k].dealTicket {
        assert rest[k] in multiset(rest);
        assert rest[k] in s[1..] || rest[k] == f;
      }
    }
  }

  lemma {:induction false} SortIsAscending(s: seq<DealFact>)
    ensures Ascending(SortByTicket(s))
  {
    if s != [] {
      SortIsAscending(s[..|s| - 1]);
      InsertKeepsOrder(SortByTicket(s[..|s| - 1]), s[|s| - 1]);
    }
  }

  lemma SortElements(s: seq<DealFact>)
    ensures Elements(SortByTicket(s)) == Elements(s) && |SortByTicket(s)| == |s|
  {
    forall f: DealFact ensures f in SortByTicket(s) <==> f in s {
      assert f in multiset(SortByTicket(s)) <==> f in multiset(s);
    }
    assert |multiset(SortByTicket(s))| == |multiset(s)|;
  }

  lemma FirstsAgree(a: seq<DealFact>, b: seq<DealFact>)
    requires StrictlyAscending(a) && StrictlyAscending(b) && Elements(a) == Elements(b) && a != [] && b != []
    ensures a[0] == b[0]
  {
    assert a[0] in Elements(a) && b[0] in Elements(b);
    var i :| 0 <= i < |a| && a[i] == b[0];
    var j :| 0 <= j < |b| && b[j] == a[0];
  }

  /** Two strictly ascending sequences with the same facts are the same sequence. */
  lemma {:induction false} AscendingIsUnique(a: seq<DealFact>, b: seq<DealFact>)
    requires StrictlyAscending(a) && StrictlyAscending(b) && Elements(a) == Elements(b)
    ensures a == b
  {
    hide Elements;
    EmptyElements(a);
    EmptyElements(b);
    if a != [] && b != [] {
      FirstsAgree(a, b);
      SameTails(a, b);
      AscendingIsUnique(a[1..], b[1..]);
      assert a == [a[0]] + a[1..] && b == [b[0]] + b[1..];
    }
  }

  lemma SameTails(a: seq<DealFact>, b: seq<DealFact>)
    requires StrictlyAscending(a) && StrictlyAscending(b) && Elements(a) == Elements(b) && a != [] && b != [] && a[0] == b[0]
    ensures Elements(a[1..]) == Elements(b[1..])
  {
    forall f: DealFact ensures f in a[1..] <==> f in b[1..] {
      TailElements(a, f);
      TailElements(b, f);
    }
  }

  lemma EmptyElements(s: seq<DealFact>)
    ensures s == [] <==> Elements(s) == {}
  {
    if s != [] { assert s[0] in Elements(s); }
  }

  lemma TailElements(s: seq<DealFact>, f: DealFact)
    requires s != [] && StrictlyAscending(s)
    ensures f in s[1..] <==> f in Elements(s) && f != s[0]
  {
    if f in s && f != s[0] {
      var i :| 0 <= i < |s| && s[i] == f;
      assert s[1..][i - 1] == f;
    }
  }

  // ----- sums over sets of facts

  /** Broker and managed units of all facts. */
  ghost function Sums(facts: set<DealFact>): (int, int) {
    if facts == {} then (0, 0)
    else
      var f :| f in facts;
      var rest := Sums(facts - {f});
      (rest.0 + f.quantity.brokerUnits, rest.1 + f.quantity.managedLogicalUnits)
  }

  lemma {:induction false} SumsRemove(facts: set<DealFact>, f: DealFact)
    requires f in facts
    ensures Sums(facts).0 == Sums(facts - {f}).0 + f.quantity.brokerUnits
    ensures Sums(facts).1 == Sums(facts - {f}).1 + f.quantity.managedLogicalUnits
    decreases facts
  {
    var g :| g in facts && Sums(facts) == (Sums(facts - {g}).0 + g.quantity.brokerUnits, Sums(facts - {g}).1 + g.quantity.managedLogicalUnits);
    if g != f {
      SumsRemove(facts - {g}, f);
      SumsRemove(facts - {f}, g);
      assert facts - {g} - {f} == facts - {f} - {g};
    }
  }

  lemma SumsAdd(facts: set<DealFact>, f: DealFact)
    requires f !in facts
    ensures Sums(facts + {f}).0 == Sums(facts).0 + f.quantity.brokerUnits
    ensures Sums(facts + {f}).1 == Sums(facts).1 + f.quantity.managedLogicalUnits
  {
    SumsRemove(facts + {f}, f);
    assert facts + {f} - {f} == facts;
  }

  lemma {:induction false} SumsGrow(a: set<DealFact>, b: set<DealFact>)
    requires a <= b
    ensures 0 <= Sums(a).0 <= Sums(b).0 && 0 <= Sums(a).1 <= Sums(b).1
    decreases b
  {
    if a != b {
      var f :| f in b && f !in a;
      SumsGrow(a, b - {f});
      SumsRemove(b, f);
    } else if a != {} {
      var g :| g in a;
      SumsGrow(a - {g}, a - {g});
      SumsRemove(a, g);
    }
  }

  /** A set of facts that forms one frontier, whatever order it arrives in. */
  ghost predicate Admissible(facts: set<DealFact>) {
    && facts != {}
    && (forall f <- facts :: f.Valid())
    && (forall f <- facts, g <- facts :: f.Compatible(g))
    && (forall f <- facts, g <- facts :: f.dealTicket == g.dealTicket ==> f == g)
    && Sums(facts).0 <= U64_MAX && Sums(facts).1 <= U64_MAX
  }

  lemma AdmissibleSubset(a: set<DealFact>, b: set<DealFact>)
    requires Admissible(b) && a <= b && a != {}
    ensures Admissible(a)
  {
    SumsGrow(a, b);
  }

  /** The one frontier of a set of facts, or none when the set is not admissible. */
  ghost predicate IsCanonical(frontier: Option<Frontier>, facts: set<DealFact>) {
    && (frontier.Some? <==> Admissible(facts))
    && (frontier.Some? ==>
          && StrictlyAscending(frontier.value.entries) && Elements(frontier.value.entries) == facts
          && frontier.value.brokerUnits == Sums(facts).0 && frontier.value.managedUnits == Sums(facts).1)
  }

  lemma CanonicalIsUnique(a: Option<Frontier>, b: Option<Frontier>, facts: set<DealFact>)
    requires IsCanonical(a, facts) && IsCanonical(b, facts)
    ensures a == b
  {
    if a.Some? { AscendingIsUnique(a.value.entries, b.value.entries); }
  }

  // ----- create

  /** The check of a sorted list from index i on, with the sums so far. */
  function CheckFrom(sorted: seq<DealFact>, i: nat, broker: nat, managed: nat): Option<(nat, nat)>
    requires i <= |sorted|
    decreases |sorted| - i
  {
    if i == |sorted| then Some((broker, managed))
    else
      var entry := sorted[i];
      if !entry.Valid() || (i != 0 && entry.dealTicket <= sorted[i - 1].dealTicket) || !sorted[0].Compatible(entry)
         || broker + entry.quantity.brokerUnits > U64_MAX || managed + entry.quantity.managedLogicalUnits > U64_MAX then None
      else CheckFrom(sorted, i + 1, broker + entry.quantity.brokerUnits, managed + entry.quantity.managedLogicalUnits)
  }

  function Create(facts: seq<DealFact>): (frontier: Option<Frontier>) {
    var sorted := SortByTicket(facts);
    if facts == [] then None
    else
      match CheckFrom(sorted, 0, 0, 0)
      case None => None
      case Some(sums) => if sums.0 <= U64_MAX && sums.1 <= U64_MAX then Some(Frontier(sorted, sums.0, sums.1)) else None
  }

  /** The accumulating loop with its overflow guards. */
  method CreateFrontier(facts: seq<DealFact>) returns (frontier: Option<Frontier>)
    ensures frontier == Create(facts)
  {
    hide DealFact.Valid;
    hide DealFact.Compatible;
    hide SortByTicket;
    if facts == [] {
      return None;
    }
    var sorted := SortByTicket(facts);
    SortElements(facts);
    if !sorted[0].Valid() {
      return None;
    }
    var broker: u64, managed: u64 := 0, 0;
    for index := 0 to |sorted|
      invariant CheckFrom(sorted, 0, 0, 0) == CheckFrom(sorted, index, broker, managed)
    {
      var entry := sorted[index];
      if !entry.Valid() || (index != 0 && entry.dealTicket <= sorted[index - 1].dealTicket) || !sorted[0].Compatible(entry)
         || broker > U64_MAX - entry.quantity.brokerUnits || managed > U64_MAX - entry.quantity.managedLogicalUnits {
        return None;
      }
      broker, managed := broker + entry.quantity.brokerUnits, managed + entry.quantity.managedLogicalUnits;
    }
    return Some(Frontier(sorted, broker, managed));
  }

  // ----- confluence

  lemma SameDomainTransitive(a: DealFact, b: DealFact, c: DealFact)
    requires a.Compatible(b) && a.Compatible(c)
    ensures b.Compatible(c)
  {
  }

  /** What the check of the first i sorted facts has established. */
  lemma {:induction false} CheckMeaning(sorted: seq<DealFact>, i: nat, broker: nat, managed: nat)
    requires Ascending(sorted) && i <= |sorted|
    requires forall k :: 0 <= k < i ==> sorted[k].Valid() && sorted[0].Compatible(sorted[k])
    requires StrictlyAscending(sorted[..i])
    requires broker == Sums(Elements(sorted[..i])).0 <= U64_MAX && managed == Sums(Elements(sorted[..i])).1 <= U64_MAX
    ensures CheckFrom(sorted, i, broker, managed).Some?
       <==> && StrictlyAscending(sorted) && (forall k :: 0 <= k < |sorted| ==> sorted[k].Valid() && sorted[0].Compatible(sorted[k]))
            && Sums(Elements(sorted)).0 <= U64_MAX && Sums(Elements(sorted)).1 <= U64_MAX
    ensures CheckFrom(sorted, i, broker, managed).Some? ==> CheckFrom(sorted, i, broker, managed).value == Sums(Elements(sorted))
    decreases |sorted| - i
  {
    hide DealFact.Valid;
    hide DealFact.Compatible;
    hide Sums;
    if i == |sorted| {
      assert sorted[..i] == sorted;
    } else {
      var entry := sorted[i];
      var b, m := broker + entry.quantity.brokerUnits, managed + entry.quantity.managedLogicalUnits;
      if entry.Valid() && (i == 0 || sorted[i - 1].dealTicket < entry.dealTicket) && sorted[0].Compatible(entry) {
        ExtendPrefix(sorted, i);
        if b <= U64_MAX && m <= U64_MAX {
          CheckMeaning(sorted, i + 1, b, m);
        } else {
          PrefixSums(sorted, i + 1);
        }
      }
    }
  }

  lemma ExtendPrefix(sorted: seq<DealFact>, i: nat)
    requires i < |sorted| && StrictlyAscending(sorted[..i]) && (i == 0 || sorted[i - 1].dealTicket < sorted[i].dealTicket)
    ensures StrictlyAscending(sorted[..i + 1])
    ensures Sums(Elements(sorted[..i + 1])).0 == Sums(Elements(sorted[..i])).0 + sorted[i].quantity.brokerUnits
    ensures Sums(Elements(sorted[..i + 1])).1 == Sums(Elements(sorted[..i])).1 + sorted[i].quantity.managedLogicalUnits
  {
    hide Sums;
    var upto := sorted[..i + 1];
    forall k | 0 <= k < i ensures upto[k].dealTicket < sorted[i].dealTicket {
      assert upto[k] == sorted[..i][k];
      if k < i - 1 { assert sorted[..i][k].dealTicket < sorted[..i][i - 1].dealTicket; }
    }
    assert upto == sorted[..i] + [sorted[i]];
    forall k, l | 0 <= k < l < |upto| ensures upto[k].dealTicket < upto[l].dealTicket {
      if l < i { assert sorted[..i][k].dealTicket < sorted[..i][l].dealTicket; }
    }
    assert Elements(upto) == Elements(sorted[..i]) + {sorted[i]};
    assert forall k :: 0 <= k < i ==> sorted[..i][k] != sorted[i];
    SumsAdd(Elements(sorted[..i]), sorted[i]);
  }

  lemma PrefixSums(sorted: seq<DealFact>, i: nat)
    requires i <= |sorted|
    ensures Sums(Elements(sorted[..i])).0 <= Sums(Elements(sorted)).0 && Sums(Elements(sorted[..i])).1 <= Sums(Elements(sorted)).1
  {
    SumsGrow(Elements(sorted[..i]), Elements(sorted));
  }

  /** No fact occurs twice in the list. */
  ghost predicate NoRepeats(s: seq<DealFact>) {
    forall f: DealFact :: multiset(s)[f] <= 1
  }

  lemma RepeatCounts(s: seq<DealFact>, i: nat, j: nat)
    requires i < j < |s| && s[i] == s[j]
    ensures !NoRepeats(s)
  {
    assert s == s[..j] + [s[j]] + s[j + 1..];
    assert s[j] in s[..j] by { assert s[..j][i] == s[j]; }
    assert multiset(s)[s[j]] >= 2;
  }

  lemma {:induction false} StrictHasNoRepeats(s: seq<DealFact>)
    requires StrictlyAscending(s)
    ensures NoRepeats(s)
  {
    if s != [] {
      var init, last := s[..|s| - 1], s[|s| - 1];
      StrictHasNoRepeats(init);
      assert s == init + [last];
      assert last !in init;
    }
  }

  /** `create` accepts exactly the repetition-free lists of an admissible set, and its result
      depends on nothing but that set: every permutation gives the same frontier. */
  lemma CreateIsCanonical(facts: seq<DealFact>)
    ensures Create(facts).Some? <==> NoRepeats(facts) && Admissible(Elements(facts))
    ensures NoRepeats(facts) ==> IsCanonical(Create(facts), Elements(facts))
  {
    hide Sums;
    hide DealFact.Valid;
    hide CheckFrom;
    hide SortByTicket;
    var sorted := SortByTicket(facts);
    SortIsAscending(facts);
    SortElements(facts);
    EmptyElements(facts);
    SumsOfNothing();
    assert Elements(sorted[..0]) == {};
    CheckMeaning(sorted, 0, 0, 0);
    assert NoRepeats(facts) <==> NoRepeats(sorted);
    if Create(facts).Some? {
      StrictHasNoRepeats(sorted);
      AdmissibleIfChecked(sorted);
    } else if NoRepeats(facts) && Admissible(Elements(facts)) {
      AdmissibleIsChecked(sorted);
    }
  }

  lemma SumsOfNothing()
    ensures Sums({}) == (0, 0)
  {
  }

  lemma AdmissibleIfChecked(sorted: seq<DealFact>)
    requires sorted != [] && StrictlyAscending(sorted)
    requires forall k :: 0 <= k < |sorted| ==> sorted[k].Valid() && sorted[0].Compatible(sorted[k])
    requires Sums(Elements(sorted)).0 <= U64_MAX && Sums(Elements(sorted)).1 <= U64_MAX
    ensures Admissible(Elements(sorted))
  {
    hide Sums;
    hide DealFact.Valid;
    hide DealFact.Compatible;
    EmptyElements(sorted);
    forall f <- Elements(sorted), g <- Elements(sorted)
      ensures f.Compatible(g) && f.Valid() && (f.dealTicket == g.dealTicket ==> f == g)
    {
      var i :| 0 <= i < |sorted| && sorted[i] == f;
      var j :| 0 <= j < |sorted| && sorted[j] == g;
      SameDomainTransitive(sorted[0], f, g);
      assert i < j ==> f.dealTicket < g.dealTicket;
      assert j < i ==> g.dealTicket < f.dealTicket;
    }
  }

  lemma AdmissibleIsChecked(sorted: seq<DealFact>)
    requires Ascending(sorted) && NoRepeats(sorted) && Admissible(Elements(sorted))
    ensures sorted != [] && StrictlyAscending(sorted)
    ensures forall k :: 0 <= k < |sorted| ==> sorted[k].Valid() && sorted[0].Compatible(sorted[k])
  {
    hide Sums;
    hide DealFact.Valid;
    hide DealFact.Compatible;
    hide NoRepeats;
    EmptyElements(sorted);
    forall i, j | 0 <= i < j < |sorted| ensures sorted[i].dealTicket < sorted[j].dealTicket {
      assert sorted[i] in Elements(sorted) && sorted[j] in Elements(sorted);
      if sorted[i].dealTicket == sorted[j].dealTicket { RepeatCounts(sorted, i, j); }
    }
    forall k | 0 <= k < |sorted| ensures sorted[k].Valid() && sorted[0].Compatible(sorted[k]) {
      assert sorted[k] in Elements(sorted) && sorted[0] in Elements(sorted);
    }
  }

  lemma CreateIgnoresOrder(a: seq<DealFact>, b: seq<DealFact>)
    requires multiset(a) == multiset(b)
    ensures Create(a) == Create(b)
  {
    hide Create;
    hide Admissible;
    CreateIsCanonical(a);
    CreateIsCanonical(b);
    forall f: DealFact ensures f in a <==> f in b { assert f in multiset(a) <==> f in multiset(b); }
    assert Elements(a) == Elements(b);
    if NoRepeats(a) { CanonicalIsUnique(Create(a), Create(b), Elements(a)); }
  }

  // ----- append

  datatype Append = Appended(frontier: Frontier) | Duplicate | AppendConflict | IncompatibleIdentity

  function FindTicket(entries: seq<DealFact>, ticket: u64): Option<DealFact> {
    if entries == [] then None
    else if entries[0].dealTicket == ticket then Some(entries[0])
    else FindTicket(entries[1..], ticket)
  }

  function AppendExecution(frontier: Frontier, fact: DealFact): Append {
    match FindTicket(frontier.entries, fact.dealTicket)
    case Some(found) => if found.SamePayload(fact) then Duplicate else AppendConflict
    case None =>
      if !frontier.AcceptsIdentity(fact) then IncompatibleIdentity
      else
        match Create(frontier.entries + [fact])
        case Some(extended) => Appended(extended)
        case None => AppendConflict
  }

  lemma {:induction false} FoundTicket(entries: seq<DealFact>, ticket: u64)
    ensures match FindTicket(entries, ticket)
            case Some(found) => found in entries && found.dealTicket == ticket
            case None => forall f <- entries :: f.dealTicket != ticket
  {
    if entries != [] { FoundTicket(entries[1..], ticket); }
  }

  /** Appending to a created frontier agrees with replay classification against its entries: exactly
      the recognised replays are duplicates, and a conflicting replay is a conflict. */
  lemma AppendRecognisesReplay(facts: seq<DealFact>, fact: DealFact)
    requires Create(facts).Some?
    ensures var frontier := Create(facts).value;
            && (AppendExecution(frontier, fact).Duplicate? <==>
                  exists f <- frontier.entries :: ClassifyReplay(f, fact).AlreadyCommitted?)
            && ((exists f <- frontier.entries :: ClassifyReplay(f, fact).ReplayConflict?) ==>
                  AppendExecution(frontier, fact).AppendConflict?)
            && (AppendExecution(frontier, fact).Appended? ==> forall f <- frontier.entries :: ClassifyReplay(f, fact).NewExecution?)
  {
    hide Create;
    hide DealFact.Compatible, Sums;
    hide DealFact.Valid;
    CreateIsCanonical(facts);
    var entries := Create(facts).value.entries;
    FoundTicket(entries, fact.dealTicket);
    forall f <- entries | f.dealTicket == fact.dealTicket ensures FindTicket(entries, fact.dealTicket) == Some(f) {
      var i :| 0 <= i < |entries| && entries[i] == f;
      var g := FindTicket(entries, fact.dealTicket).value;
      var j :| 0 <= j < |entries| && entries[j] == g;
    }
  }

  /** The four answers of an append, exactly: by the entry with the fact's ticket if there is one,
      then by whether the fact shares the identity of all entries, then by whether it makes an
      admissible set with them, whose frontier is the answer. */
  lemma AppendIff(facts: seq<DealFact>, fact: DealFact)
    requires Create(facts).Some?
    ensures var entries, answer := Create(facts).value.entries, AppendExecution(Create(facts).value, fact);
            if exists f <- entries :: f.dealTicket == fact.dealTicket then
              if exists f <- entries :: f.(receipt := fact.receipt) == fact then answer.Duplicate? else answer.AppendConflict?
            else if exists f <- entries :: !f.Compatible(fact) then answer.IncompatibleIdentity?
            else if Admissible(Elements(facts) + {fact}) then
              answer.Appended? && IsCanonical(Some(answer.frontier), Elements(facts) + {fact})
            else answer.AppendConflict?
  {
    CreateIsCanonical(facts);
    var frontier := Create(facts).value;
    var entries := frontier.entries;
    hide Create, Sums, DealFact.Valid, DealFact.Compatible;
    FoundTicket(entries, fact.dealTicket);
    FirstSpeaksForAll(entries, fact);
    if forall f <- entries :: f.dealTicket != fact.dealTicket {
      AppendedElements(entries, fact);
      CreateIsCanonical(entries + [fact]);
    } else {
      OneEntryPerTicket(entries, fact);
    }
  }

  lemma FirstSpeaksForAll(entries: seq<DealFact>, fact: DealFact)
    requires Admissible(Elements(entries))
    ensures entries != [] && (entries[0].Compatible(fact) <==> forall f <- entries :: f.Compatible(fact))
  {
    EmptyElements(entries);
    assert entries[0] in Elements(entries);
    forall f <- entries ensures entries[0].Compatible(f) && f.Compatible(entries[0]) { assert f in Elements(entries); }
  }

  lemma OneEntryPerTicket(entries: seq<DealFact>, fact: DealFact)
    requires Admissible(Elements(entries))
    requires exists f <- entries :: f.dealTicket == fact.dealTicket
    ensures var found := FindTicket(entries, fact.dealTicket);
            found.Some? && (found.value.SamePayload(fact) <==> exists f <- entries :: f.(receipt := fact.receipt) == fact)
  {
    hide Sums;
    FoundTicket(entries, fact.dealTicket);
    var found := FindTicket(entries, fact.dealTicket).value;
    assert found in Elements(entries);
    forall f <- entries | f.dealTicket == fact.dealTicket ensures f == found { assert f in Elements(entries); }
  }

  /** A frontier grown fact by fact; repeats are skipped, anything else refused ends it. */
  function Grow(frontier: Option<Frontier>, fact: DealFact): Option<Frontier> {
    match frontier
    case None => None
    case Some(current) =>
      match AppendExecution(current, fact)
      case Appended(extended) => Some(extended)
      case Duplicate => frontier
      case _ => None
  }

  function GrowAll(facts: seq<DealFact>): Option<Frontier>
    requires facts != []
    decreases |facts|
  {
    if |facts| == 1 then Create(facts) else Grow(GrowAll(facts[..|facts| - 1]), facts[|facts| - 1])
  }

  predicate TicketsIdentify(facts: set<DealFact>) {
    forall f <- facts, g <- facts :: f.dealTicket == g.dealTicket ==> f == g
  }

  lemma GrowIsCanonical(frontier: Option<Frontier>, facts: set<DealFact>, fact: DealFact)
    requires IsCanonical(frontier, facts) && facts != {} && TicketsIdentify(facts + {fact})
    ensures IsCanonical(Grow(frontier, fact), facts + {fact})
  {
    hide Sums;
    hide Create;
    hide DealFact.Valid;
    hide DealFact.Compatible;
    if frontier.None? {
      if Admissible(facts + {fact}) { AdmissibleSubset(facts, facts + {fact}); }
    } else {
      var entries := frontier.value.entries;
      FoundTicket(entries, fact.dealTicket);
      EmptyElements(entries);
      if FindTicket(entries, fact.dealTicket).Some? {
        assert FindTicket(entries, fact.dealTicket).value in Elements(entries);
        assert facts + {fact} == facts;
        SamePayloadSelf(fact);
      } else {
        assert entries[0] in Elements(entries);
        assert fact !in entries;
        AppendedElements(entries, fact);
        CreateIsCanonical(entries + [fact]);
      }
    }
  }

  lemma SamePayloadSelf(fact: DealFact)
    ensures fact.SamePayload(fact)
  {
  }

  lemma AppendedElements(entries: seq<DealFact>, fact: DealFact)
    requires StrictlyAscending(entries) && fact !in entries
    ensures Elements(entries + [fact]) == Elements(entries) + {fact} && NoRepeats(entries + [fact])
  {
    StrictHasNoRepeats(entries);
    assert multiset(entries + [fact]) == multiset(entries) + multiset{fact};
  }

  lemma {:induction false} GrowAllIsCanonical(facts: seq<DealFact>)
    requires facts != [] && TicketsIdentify(Elements(facts))
    ensures IsCanonical(GrowAll(facts), Elements(facts))
    decreases |facts|
  {
    hide Create;
    hide IsCanonical;
    var init, last := facts[..|facts| - 1], facts[|facts| - 1];
    if |facts| == 1 {
      assert multiset(facts) == multiset{facts[0]} by { assert facts == [facts[0]]; }
      CreateIsCanonical(facts);
    } else {
      assert facts == init + [last];
      assert Elements(facts) == Elements(init) + {last};
      EmptyElements(init);
      GrowAllIsCanonical(init);
      GrowIsCanonical(GrowAll(init), Elements(init), last);
    }
  }

  /** Confluence: growing a frontier fact by fact, in any order and with any exact repeats, gives
      the frontier that `create` builds from the distinct facts, or fails exactly when it does.
      Lower tickets may arrive late and replace the entry that later facts are compared with. */
  lemma GrowthIsConfluent(order: seq<DealFact>, distinct: seq<DealFact>)
    requires order != [] && Elements(order) == Elements(distinct) && NoRepeats(distinct)
    requires TicketsIdentify(Elements(order))
    ensures GrowAll(order) == Create(distinct)
  {
    hide Create;
    hide GrowAll;
    hide IsCanonical;
    GrowAllIsCanonical(order);
    CreateIsCanonical(distinct);
    CanonicalIsUnique(GrowAll(order), Create(distinct), Elements(order));
  }

  // ----- proportion of the sums

  lemma UnitsOfOneFact(f: DealFact)
    requires f.Valid()
    ensures f.quantity.managedLogicalUnits * f.quantity.brokerStepUnits == f.quantity.brokerUnits * UnitsPerStep(f.quantity)
  {
    var q := f.quantity;
    var k, per := q.integerStepCount, UnitsPerStep(q);
    assert q.managedLogicalUnits == k * per && q.brokerUnits == k * q.brokerStepUnits;
    Exchange(k, per, q.brokerStepUnits);
  }

  lemma Exchange(a: nat, b: nat, c: nat)
    ensures (a * b) * c == (a * c) * b
  {
  }

  lemma {:induction false} SumsAreProportional(facts: set<DealFact>, basis: DealFact)
    requires forall f <- facts :: f.Valid() && basis.Compatible(f)
    ensures Sums(facts).1 * basis.quantity.brokerStepUnits == Sums(facts).0 * UnitsPerStep(basis.quantity)
    decreases facts
  {
    hide DealFact.Valid;
    if facts != {} {
      var f :| f in facts;
      SumsRemove(facts, f);
      SumsAreProportional(facts - {f}, basis);
      UnitsOfOneFact(f);
      var step, per := basis.quantity.brokerStepUnits, UnitsPerStep(basis.quantity);
      MulDistribute(Sums(facts - {f}).1, f.quantity.managedLogicalUnits, step);
      MulDistribute(Sums(facts - {f}).0, f.quantity.brokerUnits, per);
    }
  }

  /** In every frontier the managed total stands to the broker total as the unit mapping says. */
  lemma FrontierIsProportional(facts: seq<DealFact>)
    requires Create(facts).Some?
    ensures var frontier := Create(facts).value;
            frontier.entries != []
            && frontier.managedUnits * frontier.entries[0].quantity.brokerStepUnits
               == frontier.brokerUnits * UnitsPerStep(frontier.entries[0].quantity)
  {
    hide Create;
    hide Sums;
    hide UnitsPerStep;
    CreateIsCanonical(facts);
    var frontier := Create(facts).value;
    EmptyElements(frontier.entries);
    assert frontier.entries[0] in Elements(frontier.entries);
    SumsAreProportional(Elements(facts), frontier.entries[0]);
  }
}
