# Proofs about the MetaTrader 5 bridge

This project states and proves what the hardest parts of the bridge promise: that a tick range is
read without loss or duplicate from a paged server, that realtime subscribers can account for every
batch, that the embedded interpreter is never finalized under a running call, that a binary64 volume
determines a managed quantity exactly or not at all, that the durable stores of the dispatch layer
survive a crash between any two file writes, that close-leg capacity is conserved, and that records
and digests are canonical.

Code that mutates state is modelled by classes and loops proved against specification functions; the
theorems are about those functions. `dafny verify dfyconfig.toml` checks everything.

| file | models |
|---|---|
| `TickPagination` | the range traversal over an inclusive-from, count-limited server |
| `RealtimeDelivery` | shared batch rings, gaps, round robin, joining and leaving |
| `RuntimeAdmission` | call admission, suspension, initialize and shutdown as a state machine |
| `BigUnsigned`, `Binary64`, `OpeningQuantity`, `ManagedQuantity` | the 40-limb integer, rounding intervals, decimal comparison, the unique broker step |
| `OpeningFacts`, `FactCodec`, `ExecutionFrontier` | execution facts, their canonical bytes, the cumulative frontier |
| `OpeningSources`, `OpeningAllocationStore` | source validation and the prepare/publish protocol |
| `SettlementRecords`, `SettlementProducer`, `SettlementCodec`, `DealSettlementStore` | settlement facts and frontiers, their only producer, their durable form, and their publication |
| `AllocationRecords`, `SettlementFinalizer` | finalization of one staged settlement across journal, settlement and basis |
| `OperationJournal`, `SettlementPreparations`, `SettlementShortfall` | the journal's mutations, the recipes, their sealing and recovery, and two histories that end short of completion |
| `AllocationLedger` | the close-leg ledger |
| `PositionDigest` | validity and digest of an ownership decomposition |
| `FieldCodec`, `FnvHash`, `RecordEnvelope`, `JournalRecords`, `EvidenceCodec`, `JournalCodec` | the byte primitives and the six journal formats |

How the world is modelled: a disk is a map from path to record, the path function is arbitrary (hash
collisions included), one temporary-file-and-rename is one atomic step, and a parameter `survive` says
how many steps of a call take effect before a crash or I/O failure. The tick server, the consumer, the
leases and the evidence of other stores are parameters; every theorem holds for all of them.

Where the code does less than its surroundings suggest, the exact condition is proved (for retained ticks,
the bound that does hold):

- A range read over a fixed history fails although nothing is missing when one millisecond after `to`
  holds a full page of ticks, and when one in the range holds more than any page can
  (`TickPagination.VisitTicksRange`, `LateBurstExists`); just below, the server's order of ties decides
  (`TieOrderDecides`).
- The retained-tick limit bounds what members may ask for, not what a ring retains
  (`RetainedExceedsLimit`); the bound on rings is `RetainedIsBounded`, and it needs that nobody joins
  during a poll (`JoinedPollsPileUp`).
- When a member leaves, a source whose other members all ask for the longest interval keeps terms that
  nobody asks for (`LongestIntervalLapses`; `Hub.Unsubscribe` has the exact condition).
- A derived quantity need not match the volume it was derived from (`DerivedMatchesIff`,
  `DerivedNeedNotMatch`).
- Sealing a recipe does not ask the settlement store. Where the deal has been settled directly before,
  finalization moves the journal and can then never publish (`SettledDealStrands`; the exact condition is
  `FinalizeSucceedsIff`, narrowed by `RecipeSucceedsIff`), and an operation can be finalized through one
  recipe only (`OneRecipePerOperation`).
- A rival frontier under a waiting manifest's name makes recovery impossible, and two commits from the
  empty store lead there (`RivalFrontierBlocksRecovery`, `RivalFrontierHappens`).
- The ledger forgets committed units exactly where a hashed file name is reused (`AccountsIff`,
  `ReusedNameForgets`).
- The journal writes valid records that its reader refuses (`JournalCodec.RoundTrip`,
  `OverlongRecordIsStranded`), and reads old records that its writer refuses, so that their operations
  can never advance (`UpgradeKeepsRecord`, `OldRecordIsStuck`).
- Once its dispatch intent is durable, an operation in its prechecks can no longer be failed, nor rejected
  before reconciliation, although the transition table has both: no such record is valid (`MovesIff`).
- One deal per operation rests on the journal's owner; the store beneath does not check the order of the
  write-ahead states (`StoreAloneUnsettles`).
- Two checks never fire: the fact decoder's self-check (`SelfCheckIsRedundant`) and the shared tick
  budget (`SharedBudgetAlwaysFits`).

## Model

| member | source | states |
|---|---|---|
| TickPagination.VisitTicksRange | src/bridge/mt5_bridge.cpp:1988-2157 | for any growing history of time-sorted pages no tick occurrence is delivered twice and none outside [from,to]; every delivered tick is handed to the consumer, one batch of fresh ticks a call and in the order of reads, and the first declined batch ends the call as a failure; it succeeds only with every batch accepted and on a short page past `to` or a short page that the next two reads left without fresh ticks, and fails only for a read that is refused, stays provisional, goes back or repeats a full page, for a declined batch or for an oversized boundary; on a fixed history success means exactly the ticks of [from,to] were delivered; with a reliable server and consumer it never succeeds past a millisecond after `to` with 65536 ticks, one in the range with 2^31 - 1 or more, or one in the range that ends the history with more than 2^31 - 65537; it fails only at such a millisecond after `to` or having delivered more than 2^31 - 65537 ties of one millisecond, and where ties in the range fit a page it succeeds if and only if there is no such millisecond after `to` |
| TickPagination.SelectFresh | src/bridge/mt5_bridge.cpp:2069-2145 | destructive matching against the boundary copy delivers precisely the page's in-range ticks that were not delivered at the cursor before, in time order, and yields the next boundary multiset |
| TickPagination.TurnPage | src/bridge/mt5_bridge.cpp:2031-2145 | one page keeps `boundary = what was delivered at the cursor`; a page that is not full completes the range; a full page without progress proves a burst of ties; otherwise the cursor moves or the ticks after it shrink |
| TickPagination.ShortPageIsAll | src/bridge/mt5_bridge.cpp:2028-2068 | a page shorter than requested holds everything from the cursor on |
| TickPagination.LateBurstExists | src/bridge/mt5_bridge.cpp:2095-2124 | the failure is real: nothing is in range, yet 65536 ticks one millisecond later make the traversal report an error |
| TickPagination.ImpasseIsLateBurst | src/bridge/mt5_bridge.cpp:2019-2025 | where ties in the range fit a page, late bursts are the only impasses, and none of the oversized groups exists |
| TickPagination.TieOrderDecides | src/bridge/mt5_bridge.cpp:2019-2145 | for a tie group between the two bounds the outcome is the server's: of two answers to one read, both the earliest ticks, one leaves the largest boundary that the guard lets pass and the other one tie more |
| TickPagination.NextPagePasses | src/bridge/mt5_bridge.cpp:2117-2145 | and once a page can hold the group, a later tick takes the traversal past it |
| RealtimeDelivery.PublishBatches | src/bridge/mt5_bridge.cpp:2595-2604 | the published history grows by exactly the fresh ticks in order, all new batches but the last hold exactly the batch limit read when the poll began, sequences stay contiguous, and the ring keeps exactly the newest min(current capacity, old + new) batches |
| RealtimeDelivery.Hub.Publish | src/bridge/mt5_bridge.cpp:2204-2604 | publishing with the batch limit of the poll's start, whoever joined or left since, changes one source only, by exactly the fresh ticks, and keeps every member's account of what it was told true |
| RealtimeDelivery.ServedMemberIsSound | src/bridge/mt5_bridge.cpp:3944-4020 | every event accounts for exactly the sequence numbers it moves past: an overflow gap for those the ring no longer holds, a batch for the next one with its true ticks |
| RealtimeDelivery.DueIff | src/bridge/mt5_bridge.cpp:3944-4020 | nothing is due for a member exactly if it has the source's current status and inconsistency epoch and has passed every published batch; otherwise the status is due first, then the gap of a newer inconsistency, then an overflow gap exactly if the ring has already dropped the member's next batch, and else that batch with the ticks published under its number |
| RealtimeDelivery.EventReducesBacklog | src/bridge/mt5_bridge.cpp:3944-4020 | every event reduces the member's backlog by exactly one: one for a status change, one for an inconsistency, one for an overflow, and one for each batch it can still get |
| RealtimeDelivery.MemberIsConserved | src/bridge/mt5_bridge.cpp:3984-4015 | next sequence = first sequence + delivered batches + the member's own count of dropped batches, for every member at all times |
| RealtimeDelivery.NoGapMeansEverything | src/bridge/mt5_bridge.cpp:4002-4015 | a member without an overflow gap has received the concatenation of everything published since it joined |
| RealtimeDelivery.Hub.ServeNext | src/bridge/mt5_bridge.cpp:3928-4022 | one event goes to the subscription cyclically nearest the cursor that has one due, there to the member nearest its own cursor; both cursors move just past it, nothing else changes and the hub's backlog is one event less; no event means that every member of every subscription is caught up with its source |
| RealtimeDelivery.Hub.ProcessEvents | src/bridge/mt5_bridge.cpp:3913-4037 | the whole call is a chain of such services from the first state to the last; it stops exactly when the budget is spent, every member is caught up, or the callback declines, and what it delivered plus the backlog it leaves is the backlog it found |
| RealtimeDelivery.ServedInTime | src/bridge/mt5_bridge.cpp:3933-3937 | bounded waiting: a subscription with an event due throughout is served within as many events as its cyclic distance from the cursor, hence within one round |
| RealtimeDelivery.ServedElsewhereIsCloser | src/bridge/mt5_bridge.cpp:3955 | while anybody else is served, a waiting subscription moves strictly closer to the cursor |
| RealtimeDelivery.Hub.Subscribe | src/bridge/mt5_bridge.cpp:3768-3820 | the mutation phase: accepted exactly for requests within their own limits; sources are joined one after the other, each new member starts at its source's next batch, and the hub invariant (cursors valid, every member accounted for, every source serving its members' intervals, batch limits and capacities) is kept |
| RealtimeDelivery.Hub.SubscribeTicks | src/bridge/mt5_bridge.cpp:3688-3823 | the whole call: accepted exactly if the runtime runs before and after flag resolution, the request with its defaults substituted is admissible, and open flags could be resolved; otherwise nothing changes; sources and members get the interval, batch limit and capacity asked for |
| RealtimeDelivery.AdmissibleIff | src/bridge/mt5_bridge.cpp:3688-3745 | the requests accepted, on their own fields: what is left open gets its default, so that the ring may have up to 976 batches with the batch limit left open, and a batch up to 15625 ticks with the ring left open |
| RealtimeDelivery.SharedBudgetAlwaysFits | src/bridge/mt5_bridge.cpp:3768-3781 | the refusal `subscription would exceed retained tick budget` is unreachable: the stricter batch limit times the larger capacity never exceeds a limit that each member keeps by itself |
| RealtimeDelivery.RetainedIsBounded | src/bridge/mt5_bridge.cpp:2595-2604 | what the budget is for: over every run of polls, joins and leaves in which nobody joins during a poll, the j-th oldest batch of a ring holds at most the j-th part of the retained-tick limit, and the ring at most 17 times the limit |
| RealtimeDelivery.UnjoinedPollIsBudgeted | src/bridge/mt5_bridge.cpp:2204-2215 | a poll during which nobody joins meets that premise |
| RealtimeDelivery.RetainedExceedsLimit | src/bridge/mt5_bridge.cpp:3768-3781 | a ring can retain more than the limit, with every check passed: a thousand batches of a thousand ticks, then a member with single ticks and the largest ring, make 1064536 ticks |
| RealtimeDelivery.JoinedPollsPileUp | src/bridge/mt5_bridge.cpp:2204-2604 | with joins during polls there is no such bound: n rounds leave n million ticks, up to 65536 million |
| RealtimeDelivery.JoinedGoverned | src/bridge/mt5_bridge.cpp:3788-3811 | joining keeps every source at exactly the shortest interval, the smallest batch limit and the largest capacity that any of its members asked for |
| RealtimeDelivery.Hub.Unsubscribe | src/bridge/mt5_bridge.cpp:3830-3894 | the subscription leaves, the others keep their order, unused sources are dropped, the terms of the others are exactly the strictest of the remaining members, or unchanged where all of those ask for the longest interval, their streams are untouched, and the round-robin cursor is a valid index again |
| RealtimeDelivery.WithoutIsSlice | src/bridge/mt5_bridge.cpp:3842-3844 | the remaining order is the old one with that one entry cut out |
| RealtimeDelivery.AllLimitsGovern | src/bridge/mt5_bridge.cpp:3866-3885 | the recomputation loop finds exactly the strictest remaining interval, batch limit and capacity, and finds none exactly for unused sources |
| RealtimeDelivery.LongestIntervalLapses | src/bridge/mt5_bridge.cpp:3866-3885 | that exception is real: a member who asks for the longest interval goes on under the batch limit of one who has left |
| RuntimeAdmission.StepKeepsSound | src/bridge/mt5_bridge.cpp:184-256 | every step of every thread keeps: active count = calls in flight, one holder of the interpreter, poller and initialization flags in line with the lifecycle |
| RuntimeAdmission.RunKeepsSound | src/bridge/mt5_bridge.cpp:2993-3151 | the same over every interleaving |
| RuntimeAdmission.DrainedBeforeFinalize | src/bridge/mt5_bridge.cpp:2993-3151 | in every interleaving, while the interpreter is finalized, by shutdown or by an initialize that failed after creating it, no counted call is in flight, the poller is gone, and the only enabled step is the end of that finalization |
| RuntimeAdmission.AdmittedIffRunning | src/bridge/mt5_bridge.cpp:184-197 | whatever other calls are in flight, a call that asks is counted and admitted, waiting for the interpreter, if and only if the runtime is running, and otherwise leaves the state as it was |
| RuntimeAdmission.WholeCallLeavesNoTrace | src/bridge/mt5_bridge.cpp:184-256 | a whole call, suspended and resumed on the way or not, can run to its end in a running runtime and leaves it exactly as it was, whatever other calls are in flight |
| RuntimeAdmission.NoAdmissionUntilInitialized | src/bridge/mt5_bridge.cpp:188-197 | between the start of shutdown and the next successful initialize no call is admitted: calls in flight can only leave |
| RuntimeAdmission.ShutdownNeverStuck | src/bridge/mt5_bridge.cpp:3098-3135 | until the runtime is stopped some step towards it is enabled |
| RuntimeAdmission.ShutdownGetsCloser | src/bridge/mt5_bridge.cpp:3098-3135 | every such step brings the stop strictly closer and only a suspension can move it away, by one |
| RuntimeAdmission.ShutdownStops | src/bridge/mt5_bridge.cpp:3098-3151 | once the calls are gone and the poller has stopped, the remaining three steps reach Stopped |
| RuntimeAdmission.InitializeReachesRunning | src/bridge/mt5_bridge.cpp:2993-3095 | initializing a stopped runtime reaches Running under the next generation, or, where it fails, returns to the very state it began in, finalizing first exactly an interpreter that it created itself |
| RuntimeAdmission.LifecycleRequests | src/bridge/mt5_bridge.cpp:2993-3118 | initializing any other runtime changes nothing, and shutdown begins exactly for a running runtime on behalf of its owner |
| BigUnsigned.OpeningQuantityBigUnsigned.Add | src/dispatch/managed_opening_quantity_contract.hpp:53-62 | reports success exactly when the true sum fits 1280 bits, and then equals it |
| BigUnsigned.OpeningQuantityBigUnsigned.MultiplySmall | src/dispatch/managed_opening_quantity_contract.hpp:67-76 | the same for the product with a 32-bit word |
| BigUnsigned.OpeningQuantityBigUnsigned.ShiftLeft | src/dispatch/managed_opening_quantity_contract.hpp:81-111 | the same for multiplication by any power of two, including shifts beyond the capacity |
| BigUnsigned.OpeningQuantityBigUnsigned.Compare | src/dispatch/managed_opening_quantity_contract.hpp:116-122 | three-way comparison of the represented integers |
| BigUnsigned.NormalizeValue | src/dispatch/managed_opening_quantity_contract.hpp:53-76 | a carry chain loses nothing: digits and final carry hold the value of the columns |
| BigUnsigned.ShiftedValue | src/dispatch/managed_opening_quantity_contract.hpp:81-111 | limb move plus carry chain is the exact shifted value, or exactly reports what falls off |
| Binary64.NextDouble | src/dispatch/managed_opening_quantity_contract.hpp:138-149 | consecutive bit patterns differ by one unit in the last place and alternate in parity, through subnormals and binade boundaries alike |
| Binary64.MidpointsDecideRounding | src/dispatch/managed_opening_quantity_contract.hpp:200-218 | the two half-gap tests with the tie rule are exactly roundTiesToEven (section 4.3.1 of IEEE 754-2019) |
| Binary64.RoundingIsFunctional | src/dispatch/managed_opening_quantity_contract.hpp:200-218 | no real number rounds to two doubles |
| OpeningQuantity.DecodeDouble | src/dispatch/managed_opening_quantity_contract.hpp:138-149 | mantissa times two to the exponent is the double's exact value |
| OpeningQuantity.Midpoint | src/dispatch/managed_opening_quantity_contract.hpp:155-171 | the aligned sum is reported exactly when it fits the limbs, and is then the doubled midpoint |
| OpeningQuantity.IntervalIsRounding | src/dispatch/managed_opening_quantity_contract.hpp:200-218 | the interval contains exactly the reals that round to the double |
| OpeningQuantity.RoundingIntervalOf | src/dispatch/managed_opening_quantity_contract.hpp:200-218 | an interval exists exactly for positive finite doubles below the maximum, it is that rounding interval, and its exponents keep later comparisons exact |
| OpeningQuantity.CompareDecimalToBinary | src/dispatch/managed_opening_quantity_contract.hpp:225-244 | the sign of units/10^scale - m*2^e, with no limb overflow unnoticed |
| ManagedQuantity.DecimalIsUnique | src/dispatch/managed_opening_quantity_contract.hpp:252-276 | two neighbour checks decide uniqueness among all 64-bit numerators |
| ManagedQuantity.FirstStepAbove | src/dispatch/managed_opening_quantity_contract.hpp:300-323 | the binary search finds the least step count in range above the boundary, or proves that there is none |
| ManagedQuantity.FindSoleStep | src/dispatch/managed_opening_quantity_contract.hpp:445-463 | search plus two boundary checks find the only step count that rounds to the raw quantity |
| ManagedQuantity.Derive | src/dispatch/managed_opening_quantity_contract.hpp:429-475 | succeeds exactly when domain and raw step are unambiguous and exactly one step count within capacity and cap rounds to the raw quantity, and delivers that count |
| ManagedQuantity.Matches | src/dispatch/managed_opening_quantity_contract.hpp:482-487 | a raw volume matches exactly when no other numerator could have produced it |
| ManagedQuantity.DerivedMatchesIff | src/dispatch/managed_opening_quantity_contract.hpp:429-487 | a derived quantity matches its own observation if and only if neither neighbouring numerator, which the step search skips, rounds to the same double |
| ManagedQuantity.DerivedNeedNotMatch | src/dispatch/managed_opening_quantity_contract.hpp:429-487 | it can fail: whole units in steps of four, raw volume 2^54 |
| OpeningFacts.FromObservation | src/dispatch/managed_opening_execution_evidence.hpp:94-124 | a fact exists exactly when the observation joins the request, its volume determines one step count and the record fits the size limit; all its fields are the observation's |
| OpeningFacts.JoinsIff | src/dispatch/managed_opening_execution_evidence.hpp:94-122 | the first failing check names the refusal, and none fails exactly if request and observation agree on one open operation, revision, order and position and the deal is complete, within its window and a reviewed domain |
| FactCodec.RoundTrip | src/dispatch/managed_opening_execution_evidence.hpp:276-347 | decoding the canonical bytes of a valid fact returns that fact |
| FactCodec.AcceptedIsCanonical | src/dispatch/managed_opening_execution_evidence.hpp:276-347 | every accepted byte string is the canonical encoding of its result |
| FactCodec.SelfCheckIsRedundant | src/dispatch/managed_opening_execution_evidence.hpp:339-346 | the decoder's final re-encoding comparison never rejects anything |
| FactCodec.CanonicalSizeIsExact | src/dispatch/managed_opening_execution_evidence.hpp:382-391 | the size test of the record equals the length of its encoding |
| FactCodec.DecodeFact | src/dispatch/managed_opening_execution_evidence.hpp:276-347 | the offset-moving decoder is that inverse |
| ExecutionFrontier.CreateFrontier | src/dispatch/managed_opening_execution_evidence.hpp:501-529 | the accumulating loop with its overflow guards computes the specified frontier |
| ExecutionFrontier.CreateIsCanonical | src/dispatch/managed_opening_execution_evidence.hpp:501-529 | `create` accepts exactly the repetition-free lists of an admissible fact set and its result depends on that set only |
| ExecutionFrontier.CreateIgnoresOrder | src/dispatch/managed_opening_execution_evidence.hpp:501-529 | every permutation of the input gives the same frontier |
| ExecutionFrontier.GrowthIsConfluent | src/dispatch/managed_opening_execution_evidence.hpp:631-654 | appending one by one in any order, with exact repeats, gives the frontier `create` builds from the distinct facts, or fails exactly when it does |
| ExecutionFrontier.AppendRecognisesReplay | src/dispatch/managed_opening_execution_evidence.hpp:480-488 | appending reports a duplicate exactly for replays classified as already committed, a conflict for conflicting replays, and appends only new executions |
| ExecutionFrontier.AppendIff | src/dispatch/managed_opening_execution_evidence.hpp:614-655 | the four answers of an append exactly: duplicate or conflict by payload where the ticket is known, incompatible identity where the fact differs from any entry, and else appended, with the one frontier of all these facts, if and only if they form an admissible set |
| ExecutionFrontier.FrontierIsProportional | src/dispatch/managed_opening_execution_evidence.hpp:207-230 | managed total * step units = broker total * units per step in every frontier |
| OpeningSources.ValidateEntry | src/dispatch/file_managed_opening_allocation_store.cpp:470-590 | the loops over facts, references with their schema version, per-graph maxima and omitted facts decide exactly the specified support of an entry |
| OpeningSources.SupportedIff | src/dispatch/file_managed_opening_allocation_store.cpp:449-591 | an entry is supported exactly if it is valid, its journal record is anchored at its revision, the operation's facts are sound, and some of them, one for each reference, form the frontier with its totals, while no other fact of the operation would have been accepted at that time; a proof must further match entry and tickets |
| OpeningSources.SupportedIsBuilt | src/dispatch/file_managed_opening_allocation_store.cpp:653-704 | the only entry that a proof can support is the one built from it, up to the discriminator |
| OpeningSources.ClassifyIff | src/dispatch/file_managed_opening_allocation_store.cpp:389-420 | a proof of the entry's identity is exact with the same tickets, quantity and digest, and extends the entry with a proper superset of its tickets and a greater quantity |
| OpeningSources.HistoryIsStableIff | src/dispatch/file_managed_opening_allocation_store.cpp:549-590 | an accepted entry survives a new fact of its operation exactly when that fact is valid, has a new ticket and the frontier's identity, and comes from an unused graph instance or a later revision of its own graph |
| OpeningSources.CameLaterIff | src/dispatch/file_managed_opening_allocation_store.cpp:568-588 | an unreferenced fact is no obstacle exactly if it shares the frontier's identity and is newer than every referenced fact of its own observation graph; revisions of other graphs do not count |
| OpeningSources.FactMatchesIff | src/dispatch/file_managed_opening_allocation_store.cpp:520-537 | a reference counts exactly if it is the fact's own receipt and the fact is of the entry's operation revision, order, position, direction and quantity domain |
| OpeningSources.OtherOperationsNeverMatter | src/dispatch/file_managed_opening_allocation_store.cpp:491-496 | facts of other operations never change the verdict |
| OpeningSources.GraphRevisionIsLatest | src/dispatch/file_managed_opening_allocation_store.cpp:507-545 | `later` means later than every reference of that graph |
| OpeningSources.ProofOnlyTightens | src/dispatch/file_managed_opening_allocation_store.cpp:551-570 | a proof can only tighten the validation |
| OpeningSources.BuiltEntryIsProof | src/dispatch/file_managed_opening_allocation_store.cpp:653-704 | a built entry carries exactly the proof's operation, revision, tickets, digest and managed quantity |
| OpeningAllocationStore.RunKeepsDirectory | src/dispatch/file_managed_opening_allocation_store.cpp:1061-1367 | over any run of calls with crashes anywhere and any file naming: equal payloads share one key, both kinds under one name agree, allocations never change, and every record ever seen is still covered by a record of its operation with all its tickets and at least its units |
| OpeningAllocationStore.PrepareKeeps | src/dispatch/file_managed_opening_allocation_store.cpp:1061-1155 | the same for one preparation cut off anywhere |
| OpeningAllocationStore.PublishKeeps | src/dispatch/file_managed_opening_allocation_store.cpp:1196-1367 | the same for one publication, exact, replayed or superseding, cut off anywhere |
| OpeningAllocationStore.PrepareRetries | src/dispatch/file_managed_opening_allocation_store.cpp:1061-1155 | repeating an interrupted preparation reaches the uninterrupted directory |
| OpeningAllocationStore.PublishRetries | src/dispatch/file_managed_opening_allocation_store.cpp:1196-1367 | repeating an interrupted publication with the same sources reaches the uninterrupted directory and reports success |
| OpeningAllocationStore.PrepareSucceedsIff | src/dispatch/file_managed_opening_allocation_store.cpp:1061-1155 | a preparation is committed exactly for a supported entry whose payload no record has and whose name is free, and then only its file is new; it is already committed exactly where a record of its payload is still supported; otherwise nothing is written |
| OpeningAllocationStore.SuccessorSucceedsIff | src/dispatch/file_managed_opening_allocation_store.cpp:836-921 | a successor can be made durable exactly if the overtaken entry is supported and the entry built from the proof stands already, supported, or finds a free name; one file is written exactly where none stands |
| OpeningAllocationStore.PublishSucceedsIff | src/dispatch/file_managed_opening_allocation_store.cpp:1196-1367 | in a consistent directory an uninterrupted publication is committed exactly for a waiting preparation that an exact proof supports, and then the allocation has replaced it and nothing else changed; superseded exactly where an extending proof finds or can write a successor, which then stands instead; already committed exactly where the entry is published under its own or another key; and any other answer writes nothing |
| OpeningAllocationStore.EquivalentIsUnique | src/dispatch/file_managed_opening_allocation_store.cpp:733-764 | in a consistent directory the equivalence scan is never ambiguous and finds a record exactly when one carries the payload |
| OpeningAllocationStore.SelectDiscriminator | src/dispatch/file_managed_opening_allocation_store.cpp:780-821 | an equal payload's lowest discriminator is reused, otherwise the first free one from the candidate's own upwards; none is passed over |
| OpeningAllocationStore.SuccessorShape | src/dispatch/file_managed_opening_allocation_store.cpp:874-921 | the successor search writes at most one preparation, under a free name, with the same payload, supported by the fresh proof |
| OpeningAllocationStore.SuccessorCovers | src/dispatch/file_managed_opening_allocation_store.cpp:389-418 | the successor of an overtaken preparation covers it with strictly more units |
| OpeningAllocationStore.AccountStore.Prepare | src/dispatch/file_managed_opening_allocation_store.cpp:1061-1155 | the file steps are those of the specified plan, as far as they survive |
| OpeningAllocationStore.AccountStore.EnsureSuccessor | src/dispatch/file_managed_opening_allocation_store.cpp:836-921 | the same for the successor of an overtaken preparation |
| OpeningAllocationStore.AccountStore.Publish | src/dispatch/file_managed_opening_allocation_store.cpp:1196-1367 | the same for publication |
| OpeningAllocationStore.AccountStore.LookUpEquivalent | src/dispatch/file_managed_opening_allocation_store.cpp:733-764 | the scan over both record kinds computes the specified lookup |
| DealSettlementStore.Store.Commit | src/dispatch/file_managed_deal_settlement_store.cpp:469-663 | pending, fact and frontier are written in the specified order, as far as they survive |
| DealSettlementStore.CommitKeepsConsistent | src/dispatch/file_managed_deal_settlement_store.cpp:485-656 | wherever a commit stops, each frontier entry has an identical fact on disk, each manifest's other entries are already on disk, and nothing durable changes |
| DealSettlementStore.RunKeepsStore | src/dispatch/file_managed_deal_settlement_store.cpp:485-656 | over any run: consistency, immutability, and visible facts stay visible and unchanged |
| DealSettlementStore.CommitIsAtomic | src/dispatch/file_managed_deal_settlement_store.cpp:598-656 | success makes fact and frontier loadable; an interrupted or refused commit shows nothing new |
| DealSettlementStore.ReplayReaches | src/dispatch/file_managed_deal_settlement_store.cpp:485-656 | replay from any crash point with an unchanged journal reaches the uninterrupted result |
| DealSettlementStore.ReplayAfterCrashes | src/dispatch/file_managed_deal_settlement_store.cpp:485-656 | the same after any number of crashes |
| DealSettlementStore.SuccessRestarts | src/dispatch/file_managed_deal_settlement_store.cpp:485-656 | a successful commit repeated from any prefix succeeds with the same disk, and once more changes nothing |
| DealSettlementStore.CommitSucceedsIff | src/dispatch/file_managed_deal_settlement_store.cpp:469-663 | a commit succeeds exactly for a matching publication whose names are free or already hold it, whose other facts are durable, and that either stands published already or finds a valid close record of its operation at its very revision, filled or partially filled, with its result persisted, a requested volume, and the frontier's settled volume, and has its manifest on disk or within 4096 entries and 1 MiB; the disk after a new commit is the old one with just the three files, and otherwise the old one |
| DealSettlementStore.AuthorizedIffSettled | src/dispatch/file_managed_deal_settlement_store.cpp:574-600 | the test of the journal record passes exactly for such a record, and then its volume is positive and within the volume requested |
| DealSettlementStore.OnlySettledWrites | src/dispatch/file_managed_deal_settlement_store.cpp:469-663 | wherever the commit is cut, nothing has been written unless the journal record stood at the publication's own revision and settled volume |
| DealSettlementStore.StalePublicationIsRefused | src/dispatch/file_managed_deal_settlement_store.cpp:587-596 | so a publication that a later fill has overtaken between production and commit is refused with nothing written |
| DealSettlementStore.EveryWriteFits | src/dispatch/file_managed_deal_settlement_store.cpp:101-143 | whenever a commit writes anything, manifest, fact and frontier are each within their limit, so no later file of a publication is refused for its size |
| DealSettlementStore.CommitKeepsManifested | src/dispatch/file_managed_deal_settlement_store.cpp:598-656 | wherever a commit stops, no fact is on disk without the manifest that announced it |
| DealSettlementStore.AcceptedIsReady | src/dispatch/file_managed_deal_settlement_store.cpp:543-597 | the entry checks accept exactly the publications whose manifest could be read back and waits at most for its own fact |
| DealSettlementStore.VisibleIffPinned | src/dispatch/file_managed_deal_settlement_store.cpp:376-437 | on a consistent disk a fact is visible exactly when a frontier pins it |
| DealSettlementStore.LoadIff | src/dispatch/file_managed_deal_settlement_store.cpp:732-785 | on any disk, consistent or not, a load finds the record of that very key exactly if every frontier file stands under its own name over facts as it pins them and one of them names the key; it finds none exactly if record or frontier is missing; anything else is refused |
| DealSettlementStore.VisibilityIsMonotone | src/dispatch/file_managed_deal_settlement_store.cpp:747-766 | what was visible stays visible, unchanged |
| DealSettlementStore.Store.LoadFact | src/dispatch/file_managed_deal_settlement_store.cpp:732-785 | the load with its scan over all frontiers computes that visibility |
| DealSettlementStore.RecoveryNeverWaits | src/dispatch/file_managed_deal_settlement_store.cpp:695-724 | no manifest of a consistent store ever reports a missing fact |
| DealSettlementStore.Store.RecoverPending | src/dispatch/file_managed_deal_settlement_store.cpp:665-730 | the fixpoint loop succeeds exactly on a recoverable store, in any directory order, leaves every manifest published, never reports a missing fact, and adds only files of publications that the journal has settled |
| DealSettlementStore.RivalFrontierBlocksRecovery | src/dispatch/file_managed_deal_settlement_store.cpp:638-656 | a different frontier published under a waiting manifest's name blocks recovery whatever happens later |
| DealSettlementStore.RivalFrontierHappens | src/dispatch/file_managed_deal_settlement_store.cpp:485-656 | and two commits from the empty store reach that: deal 7 cut after its manifest, then deal 8 of the same operation and revision; recovery is impossible from then on |
| SettlementShortfall.RivalsAreProduced | src/dispatch/managed_deal_settlement_producer.hpp:74-280 | both of those publications are the producer's own, for one journal record and a graph each |
| SettlementRecords.ValidateFrontier | include/mt5bridge/dispatch/managed_deal_settlement.hpp:153-170 | the overflow-checked loop accepts exactly the frontiers whose distinct positive entries sum to the settled volume |
| SettlementCodec.FactRoundTrip | src/dispatch/file_managed_deal_settlement_store.cpp:54-188 | a fact record that can be written reads back as the fact |
| SettlementCodec.FrontierRoundTrip | src/dispatch/file_managed_deal_settlement_store.cpp:75-221 | a frontier record that can be written reads back as the frontier |
| SettlementCodec.WritesIffFits | src/dispatch/file_managed_deal_settlement_store.cpp:101-143 | a manifest can be written exactly when the publication has at most 4096 entries and its two embedded records fit one mebibyte; the size formula is exact |
| SettlementCodec.ManifestRoundTrip | src/dispatch/file_managed_deal_settlement_store.cpp:116-264 | a written manifest reads back as its publication exactly if that is well formed, and is refused otherwise |
| SettlementCodec.AcceptedManifest | src/dispatch/file_managed_deal_settlement_store.cpp:20-262 | and nothing else is read: an accepted manifest is the one encoding of a publication whose frontier pins its fact |
| SettlementCodec.AcceptedFrontier | src/dispatch/file_managed_deal_settlement_store.cpp:20-262 | likewise an accepted frontier record is the one encoding of a valid frontier |
| SettlementCodec.AcceptedFact | src/dispatch/file_managed_deal_settlement_store.cpp:20-262 | and an accepted fact record that of a valid fact |
| SettlementProducer.Create | src/dispatch/managed_deal_settlement_producer.hpp:74-280 | the checks of operation, anchor, new deal and earlier facts, the count of current deals that are not yet facts, and the loop over frontier entries deliver exactly the specified sealed pair |
| SettlementProducer.ProducedIff | src/dispatch/managed_deal_settlement_producer.hpp:74-280 | exactly when a publication is produced, and which: a valid, filled or partially filled close whose settled volume is the sum of the earlier facts and the new one, earlier facts of its own about other deals, and a newer graph that shows one usable closing deal for each of these facts at the anchor's order and position and nothing else |
| SettlementProducer.FrontierIsComplete | src/dispatch/managed_deal_settlement_producer.hpp:140-189 | a delivered frontier has an entry for a ticket exactly if the graph shows a deal of the anchor order and position with that ticket, in the window and at the current history revision: no observed contribution is left out and none invented |
| SettlementProducer.ProducedIsSealed | src/dispatch/managed_deal_settlement_producer.hpp:265-279 | whatever the producer delivers is sealed: fact and frontier of one revision, one provenance, the new entry last |
| SettlementProducer.SealedIsProduced | src/dispatch/managed_deal_settlement_producer.hpp:74-280 | and every sealed publication can be delivered, for any matching journal record and earlier facts, from a graph that shows exactly its deals |
| SettlementProducer.SealedIsWellFormed | src/dispatch/file_managed_deal_settlement_store.cpp:223-264 | a sealed publication passes the manifest reader's tests |
| SettlementFinalizer.FinalizeOrder | src/dispatch/file_managed_settlement_preparation_store.cpp:837-1000 | wherever finalization stops: the journal moves from base to target only with the exact allocation durable, settlement files appear only with the journal at the target, the basis only after fact and frontier, and nothing else changes |
| SettlementFinalizer.FinalizeRestarts | src/dispatch/file_managed_settlement_preparation_store.cpp:837-1000 | re-running from any crash point reaches the uninterrupted final state, and then reports already finalized |
| SettlementFinalizer.SuccessIsComplete | src/dispatch/file_managed_settlement_preparation_store.cpp:948-1000 | a call that reports success has published the whole preparation |
| SettlementFinalizer.AlreadyFinalizedIff | src/dispatch/file_managed_settlement_preparation_store.cpp:948-1000 | and it reports the recipe as finalized before exactly if it wrote no settlement or basis file |
| SettlementFinalizer.FinalizeBudget | src/dispatch/file_managed_settlement_preparation_store.cpp:837-1000 | a call takes at most five durable steps, is cut off exactly when fewer survive than it takes, and is otherwise independent of how many more would |
| SettlementFinalizer.FinalizeSucceedsIff | src/dispatch/file_managed_settlement_preparation_store.cpp:837-1000 | a sealed recipe that the journal has let through is finalized exactly if all prior facts are durable, fact, frontier, manifest and basis name hold nothing else, the operation settles by fill and the envelope matches; either way the journal then stands at the target |
| SettlementFinalizer.FinalizeIff | src/dispatch/file_managed_settlement_preparation_store.cpp:837-1000 | from the first check on: an uninterrupted call succeeds exactly for an evident recipe whose allocation is durable and whose entries are claimed, if the journal has overtaken a completed publication, or if it stands at base or target, the lease holds throughout, prior facts are durable, names are free and the rest of the evidence allows it |
| SettlementFinalizer.GateIff | src/dispatch/file_managed_settlement_preparation_store.cpp:837-925 | the checks before the journal decides pass exactly there, and answer that the allocation is pending exactly for an evident recipe without one |
| SettlementFinalizer.ExpectedClaims | src/dispatch/file_managed_settlement_preparation_store.cpp:524-572 | the allocation demanded is the timely claim of this recipe's broker deal on the frontier entry that pins its fact |
| SettlementFinalizer.TransitionIff | src/dispatch/file_managed_settlement_preparation_store.cpp:42-71 | the legal settlements on revisions, states and volumes: to the very next revision, out of reconciliation into a fill, from a partial fill to a complete one, or to a partial fill with a greater volume |
| SettlementFinalizer.SettlementGrows | src/dispatch/file_managed_settlement_preparation_store.cpp:42-71 | so each settlement of a requested volume fills strictly more of it, and all of it exactly if the order is then filled |
| SettlementFinalizer.MissingSourceIff | src/dispatch/file_managed_settlement_preparation_store.cpp:925-1000 | where no name clashes, a missing source is reported exactly for a prior fact that is not durable, and only after the journal has moved |
| SettlementFinalizer.ContestedNeverFinalizes | src/dispatch/file_managed_settlement_preparation_store.cpp:837-1000 | a recipe whose fact or frontier name holds another record never finalizes, now or in any later state, and adds no settlement file and no basis |
| SettlementFinalizer.AdvancesAtMostOnce | src/dispatch/file_managed_settlement_preparation_store.cpp:925-947 | over any run of finalizations an operation's journal leaves each revision at most once |
| SettlementFinalizer.OvertakenIff | src/dispatch/file_managed_settlement_preparation_store.cpp:648-693 | with the journal past the target nothing is written and the call succeeds exactly when the whole preparation was published and the progression is legal |
| SettlementFinalizer.FrontierHasAllocationClaims | src/dispatch/file_managed_settlement_preparation_store.cpp:573-604 | the counting loops accept exactly the frontiers whose every entry has one timely claim |
| SettlementFinalizer.ClaimedIff | src/dispatch/file_managed_settlement_preparation_store.cpp:573-604 | that is, exactly if each entry can be matched with an allocation of its deal, revision and units that has no like and is no later than the frontier |
| SettlementFinalizer.ClaimsCoverVolume | src/dispatch/file_managed_settlement_preparation_store.cpp:573-604 | and the units of the matched allocations, all of them different, come to exactly the settled volume |
| SettlementPreparations.StorableFits | src/dispatch/file_managed_settlement_preparation_store.cpp:434-454 | a recipe within the 2 MiB and 4096-entry limits always has a publication within the 1 MiB manifest limit: none that could be sealed is later refused for its size |
| OperationJournal.MutationKeepsTuple | include/mt5bridge/dispatch/journal.hpp:350-660 | every mutation of the journal's owner moves the write-ahead state only forward, and once the result is durable it changes neither kind, content, descriptor nor bound deal; an attached descriptor is never replaced |
| OperationJournal.MutationPassesStore | src/dispatch/file_journal_store.cpp:848-933 | hence the store's immutability checks never refuse a valid mutation of the record it holds |
| OperationJournal.StoreKeepsTuple | src/dispatch/file_journal_store.cpp:848-933 | and what it accepts over a record whose result is durable differs in nothing but states, settled volume and revision |
| OperationJournal.MovesIff | include/mt5bridge/dispatch/journal.hpp:480-660 | guards and validity together: of a valid record exactly the stated moves of its operation are accepted in each write-ahead state, none between intent and dispatch, with exactly the stated volumes and effects |
| OperationJournal.WriteAheadIff | include/mt5bridge/dispatch/journal.hpp:350-480 | the write-ahead state, the descriptor and the broker's result advance exactly as stated and nothing else changes |
| OperationJournal.HistoryKeepsOutcome | include/mt5bridge/dispatch/journal.hpp:350-660 | over any history of mutations an outcome and its volume are final, and an operation is submitted at most once |
| SettlementPreparations.MutationKeepsRecipes | include/mt5bridge/dispatch/journal.hpp:350-660 | no mutation of the journal changes the tuple that a durable recipe was prepared for |
| SettlementPreparations.OneDealPerOperation | include/mt5bridge/dispatch/managed_ownership_basis.hpp:175-204 | all recipes ever sealed for one operation are for one and the same deal |
| SettlementPreparations.OneRecipePerOperation | src/dispatch/file_managed_settlement_preparation_store.cpp:837-1000 | hence an operation is finalized through a recipe at one revision only: once one recipe is complete, no recipe of another revision ever finalizes |
| SettlementPreparations.PriorFactsAreDurable | src/dispatch/file_managed_allocation_store.cpp:276-370 | past the gate, with a scan whose claims rest on recipes or loadable facts, every prior fact of a durable recipe is durable |
| SettlementPreparations.RecipeSucceedsIff | src/dispatch/file_managed_settlement_preparation_store.cpp:837-1000 | hence a durable recipe that the journal has let through fails only over a taken name, an operation that does not settle by fill, or a mismatched envelope |
| SettlementPreparations.RecoveryRestarts | src/dispatch/file_managed_settlement_preparation_store.cpp:1016-1047 | recovery of any list of recipes may be cut off after any number of durable steps, within whichever recipe that is: recovering again ends in the same stores with the same answer about missing allocations |
| SettlementPreparations.RecoveredIsFinal | src/dispatch/file_managed_settlement_preparation_store.cpp:1016-1047 | after a recovery that passed, each recipe waits for its allocation or needs no more work |
| SettlementPreparations.PreparationStore.Prepare | src/dispatch/file_managed_settlement_preparation_store.cpp:723-789 | for a producer's publication, a recipe is sealed exactly while the journal stands at its base, the transition is legal, its name is free and it is within the storage limits; one already durable is never replaced |
| SettlementPreparations.PreparationStore.CreateOperation | include/mt5bridge/dispatch/journal.hpp:258-295 | a new operation leaves every durable recipe sound, and the store accepts it |
| SettlementPreparations.PreparationStore.AdvanceJournal | include/mt5bridge/dispatch/journal.hpp:350-660 | so does every mutation by the rest of the dispatch layer that its owner lets pass |
| SettlementPreparations.PreparationStore.FinalizeOne | src/dispatch/file_managed_settlement_preparation_store.cpp:837-1000 | the staged calls on journal, settlement store and basis store compute the specified finalization and use up its durable steps |
| SettlementPreparations.PreparationStore.RecoverPending | src/dispatch/file_managed_settlement_preparation_store.cpp:1016-1047 | recipe after recipe on one budget of durable steps, a missing allocation only postpones, any other failure ends; success means every durable recipe is published as a whole |
| SettlementShortfall.BothAreProduced | src/dispatch/managed_deal_settlement_producer.hpp:74-280 | the producer delivers deal 7 with five units at revision 3 and again with eight units at revision 4, from graphs that show that deal |
| SettlementShortfall.SettledDealStrands | src/dispatch/file_managed_settlement_preparation_store.cpp:723-1000 | with the first committed directly and the second sealed as a recipe, all gates open: finalization moves the journal, fails, and no later call ever succeeds |
| SettlementShortfall.StoreAloneUnsettles | src/dispatch/file_journal_store.cpp:848-933 | the store alone would not do: it accepts a write that takes the write-ahead state back, which no mutation makes, and then one that binds another deal |
| AllocationLedger.ValidateSources | src/dispatch/file_managed_allocation_store.cpp:276-524 | the loop with its key set and running totals accepts exactly the record lists that are valid in any order, no 64-bit sum wraps, and capacity is reported exhausted exactly where the first record that does not fit is itself sound and new but overdraws its close leg |
| AllocationLedger.VerdictIsOrderFree | src/dispatch/file_managed_allocation_store.cpp:276-524 | the verdict on a directory does not depend on the order it is listed in |
| AllocationLedger.StagedCapacityAllows | src/dispatch/file_managed_allocation_store.cpp:551-573 | accepts exactly a candidate of the leg's volume domain that fits the remaining capacity |
| AllocationLedger.CandidateValidIff | src/dispatch/file_managed_allocation_store.cpp:699-713 | validating with the candidate included means: valid before, candidate sound, capacity left, managed key unused |
| AllocationLedger.PutScans | src/dispatch/file_managed_allocation_store.cpp:699-755 | a commit validated that way leaves a directory that scans |
| AllocationLedger.PutKeepsCapacity | src/dispatch/file_managed_allocation_store.cpp:807-879 | a fitting entry keeps every close leg within capacity, even where its file replaces another entry |
| AllocationLedger.RunConserves | src/dispatch/file_managed_allocation_store.cpp:605-921 | over every sequence of direct and staged calls, whatever each is told and whether or not its file write takes effect, no close leg is oversubscribed, and what the directory holds plus what was erased under reused names is exactly what it held plus what was committed |
| AllocationLedger.AccountsIff | src/dispatch/file_managed_allocation_store.cpp:605-921 | hence the directory accounts, for every broker key, for every unit ever committed if and only if no commit of the run replaces a file of the same name |
| AllocationLedger.ReusedNameForgets | src/dispatch/file_managed_allocation_store.cpp:212-227 | where two brokers' entries share a hashed name, three accepted calls commit the first entry twice: the second erases it in between |
| AllocationLedger.AllocationStore.Commit | src/dispatch/file_managed_allocation_store.cpp:605-757 | one entry is added exactly when entry, lease, sources, capacity, keys and file system allow it, over all inputs, and the new directory scans; an entry found under its name is already committed if equal and a conflict if not, in exactly these cases; capacity is exhausted exactly where one of the two legs cannot hold it |
| AllocationLedger.AllocationStore.CommitStaged | src/dispatch/file_managed_allocation_store.cpp:759-921 | the same with only the capacity of the broker leg revalidated, and with the durable preparation checked before the name |
| PositionDigest.EntriesAreTotallyOrdered | src/dispatch/managed_close_attribution_contract.hpp:160-197 | the entry order is a strict total order whose ties are equal entries |
| PositionDigest.EntryOrderIsTransitive | src/dispatch/managed_close_attribution_contract.hpp:160-197 | and it is transitive |
| PositionDigest.OrderedIsUnique | src/dispatch/managed_close_attribution_contract.hpp:224-225 | hence sorting has one possible result |
| PositionDigest.Validate | src/dispatch/managed_close_attribution_contract.hpp:113-145 | the nested loops with the 64-bit running sum accept exactly the duplicate-free exact partitions of the position |
| PositionDigest.ValidAccounts | src/dispatch/managed_close_attribution_contract.hpp:58-145 | what a valid decomposition says: every part is in the position's own volume domain, managed parts name a source operation of their trade and account, each source once, and managed units at the position's scale together with unmanaged volume make up exactly the position volume |
| PositionDigest.ValidIgnoresOrder | src/dispatch/managed_close_attribution_contract.hpp:113-145 | reordering the entries never changes validity |
| PositionDigest.StreamIsCanonical | src/dispatch/managed_close_attribution_contract.hpp:199-270 | the words fed to the hash are equal exactly for frontiers equal up to entry order |
| PositionDigest.DigestIgnoresOrder | src/dispatch/managed_close_attribution_contract.hpp:219-273 | the digest ignores entry order, and is zero exactly for invalid frontiers |
| PositionDigest.FrontierDigest | src/dispatch/managed_close_attribution_contract.hpp:219-273 | the absorbing loops compute that digest |
| FieldCodec.DecodeEncoded | src/dispatch/file_store_support.cpp:49-120 | decoding any run of words and sized blobs inverts encoding, whatever follows |
| FieldCodec.EncodeDecoded | src/dispatch/file_store_support.cpp:49-120 | and accepts nothing but encodings |
| FieldCodec.AppendWord | src/dispatch/file_store_support.cpp:49-57 | byte-by-byte append is the little-endian encoding |
| FieldCodec.ReadWord | src/dispatch/file_store_support.cpp:59-77 | byte-by-byte read is its inverse and fails exactly when bytes are missing |
| FieldCodec.ReadFields | src/dispatch/file_store_support.cpp:100-120 | the offset-moving reader is that decoder |
| FnvHash.ComputeChecksum | src/dispatch/file_store_support.cpp:40-47 | the checksum loop is the FNV-1a fold |
| RecordEnvelope.EnvelopeForward | src/dispatch/file_journal_store.cpp:303-343 | an envelope within the size limit opens to its version and body |
| RecordEnvelope.EnvelopeBackward | src/dispatch/file_journal_store.cpp:319-343 | nothing but such an envelope opens |
| JournalCodec.RoundTrip | src/dispatch/file_journal_store.cpp:268-401 | a valid record within the size limits reads back as itself if and only if it has at most 2^20 predicates and at most 2^20 bindings; otherwise it is unreadable |
| JournalCodec.OverlongRecordIsStranded | src/dispatch/file_journal_store.cpp:38-42 | such records exist: a valid record with 2^20 + 1 predicates is written and then refused by every read |
| JournalCodec.FormatRoundTrip | src/dispatch/file_journal_store.cpp:319-401 | the reader returns exactly the record written in any of the six formats, defaults for what the format lacks included |
| JournalCodec.ExpressibleIff | src/dispatch/file_journal_store.cpp:344-401 | which records an older format holds: later fields at zero, no bindings before the second, and of the kind that the third tells from a requested volume and the first two cannot tell |
| JournalCodec.AcceptedIsEncoding | src/dispatch/file_journal_store.cpp:319-401 | every accepted byte string, of whatever format, is the encoding of its result in that format |
| JournalCodec.UpgradeKeepsRecord | src/dispatch/file_journal_store.cpp:303-401 | rewriting any record that was read in the current format keeps it if and only if the old body and what the current format adds (missing fields, 16 bytes for each assertion of the oldest format) fit the body limit; otherwise the writer refuses it |
| JournalCodec.PlainRecordsUpgrade | src/dispatch/file_journal_store.cpp:303-401 | records of the current format and records without a descriptor always fit |
| JournalCodec.OldRecordIsStuck | src/dispatch/file_journal_store.cpp:38-42 | others need not: a record of the oldest format with 2^20 assertions and a request of two mebibytes is read, and neither it nor any later state of its operation can be written |
| JournalCodec.BodySizeIsExact | src/dispatch/file_journal_store.cpp:268-401 | the size formula of every format equals the length of its encoding |
| JournalCodec.SerializeRecord | src/dispatch/file_journal_store.cpp:268-317 | the appending writer computes the encoding, or refuses exactly what does not fit |
| JournalCodec.DeserializeRecord | src/dispatch/file_journal_store.cpp:319-401 | the offset-moving reader computes the decoding |
| EvidenceCodec.PresentForward | src/dispatch/file_journal_store.cpp:115-151 | descriptors round-trip in every format, exactly when their predicate count is readable |
| EvidenceCodec.PresentBackward | src/dispatch/file_journal_store.cpp:172-266 | a descriptor that is read is the encoding of its result, and valid |
| EvidenceCodec.ReadAssertionsAt | src/dispatch/file_journal_store.cpp:217-262 | the predicate loop computes the decoding, the inferred transition of the oldest format included |
| EvidenceCodec.AppendBindings | src/dispatch/file_journal_store.cpp:153-168 | the binding loop writes exactly the usable lists |

## Left out

- TickPagination.VisitTicksRange: partial pages, retries, sleeps and the Python fetch are the server's answers; the conditions for success suppose a reliable server and a consumer that never declines; a tie group in the range of 2^31 - 65536 to 2^31 - 2 ticks with later ticks after it may end either way, as the server orders the ties (`TieOrderDecides`).
- RealtimeDelivery.Hub.Publish: takes the fresh ticks as given; overlap reconciliation, rewrite detection and lag depend on the wall clock and are not part of this model, nor is exactly-once delivery of epochs that hit the tick budget.
- RealtimeDelivery.Hub.SubscribeTicks: a source is the key of its symbol and flags; when the poller next reads a source is not modelled.
- RealtimeDelivery.RetainedIsBounded: assumes that nobody joins during a poll; without that there is no such bound (`JoinedPollsPileUp`).
- RealtimeDelivery.Hub.Unsubscribe: the coalesced recovery window of a source is not modelled.
- RealtimeDelivery.Hub.ProcessEvents: the callback only answers whether to go on; a callback that subscribes or unsubscribes is covered event by event (`ServeNext`) and not by the chain of one call; texts and recovery windows of gap and status events are not modelled.
- RuntimeAdmission.StepKeepsSound: the protocol is a state machine over values, with one step per critical section; condition variables, the GIL, the order in which the lanes hand out the interpreter, and thread-local suspension depth appear only as who may hold it.
- OpeningQuantity.CompareDecimalToBinary: exact for exponents from -1216 up, which covers every decoded double, midpoint and interval bound.
- OpeningQuantity.RoundingIntervalOf: doubles are bit patterns; negative values, infinities and NaN have no interval, as in the code.
- OpeningAllocationStore.AccountStore.Publish: a directory that holds another account's records, which the code rejects, malformed files, reparse points, locks and the verifier's own work are one verification outcome; the publisher's wrappers that load a preparation and map statuses are thin and left out.
- DealSettlementStore.Store.Commit: malformed or unreadable files, locks and temporary files are not modelled; an I/O failure is a step that does not survive.
- DealSettlementStore.Store.RecoverPending: the journal does not change during one recovery.
- SettlementPreparations.PreparationStore.FinalizeOne: the journal's compare-and-commit cannot lose a race, because the single-writer lease is held; broker record, allocation, scan and envelope answers are one evidence parameter; INOUT deals stop where the code stops them.
- SettlementPreparations.PreparationStore.Prepare: the bytes that the operation record takes in a recipe are a parameter, of which only the three copies of the server name are known.
- SettlementPreparations.PreparationStore.AdvanceJournal: assumes that every write comes from a mutation of the journal's owner, because the store alone does not check the order of the write-ahead states; guards on payloads, tokens and bindings are one verdict; file-name collisions and the result anchor are not modelled.
- OperationJournal.MutationKeepsTuple: payloads, tokens and bindings are one opaque content.
- SettlementProducer.Create: that graph and baseline are valid, of the account and of the descriptor, and that the window is covered is one verdict; volumes are positive or not; the digest of the evidence is given.
- SettlementPreparations.PreparationStore.RecoverPending: evidence for one recipe does not change while another is finalized, nor between a cut and the restart.
- AllocationLedger.ValidateSources: the per-entry comparison with settlement, broker, basis and envelope records is one verdict per entry.
- AllocationLedger.AllocationStore.CommitStaged: managed-key uniqueness is not promised, because the code does not revalidate the record set with the candidate included.
- AllocationLedger.RunConserves: broker envelopes are immutable during a run.
- PositionDigest.StreamIsCanonical: speaks of the words hashed, not of collision resistance; sizes are taken to fit 64 bits.
- OpeningSources.ValidateEntry: the journal's answer and the fact scan are parameters.
- JournalCodec.FormatRoundTrip: the five older writers are no longer in the repository; an older format is what its reader reads.
- SettlementCodec.ManifestRoundTrip: the records are modelled on values; the appending and reading loops are those of the field primitives.
- The file codecs of preparation, allocation, reversal and ownership records: built from the primitives proved here, with no new difficulty.
- Envelope, basis and opening-fact stores and the INOUT close-delta candidate: put-if-absent stores and long conjunctions of field checks.
- CPython and NumPy conversion, the client function table, file handles, locks, path checks, diagnostics, sleeps and deadlines.
