/** Shared batch rings, gap accounting and round-robin fan-out
    (src/bridge/mt5_bridge.cpp:88-149, 2595-2604, 3783-3823, 3830-3911, 3913-4037). */
module RealtimeDelivery {
  import opened MachineWords
  import opened Options
  import TickPagination

  type Tick = TickPagination.Tick

  const MAX_RETAINED_TICKS: nat := 1_000_000

  /** The longest interval, which the recomputation of limits takes for "no member asks". */
  const LONGEST: u32 := 0xFFFF_FFFF

  datatype Batch = Batch(sequence: nat, ticks: seq<Tick>)

  /** How often a source is polled, how many ticks a batch may hold, how many batches the ring. */
  datatype Terms = Terms(intervalMs: u32, maxBatch: nat, capacity: nat) {
    /** The terms that serve two parties: the shorter interval, the stricter batch limit, the larger ring. */
    function With(other: Terms): Terms {
      Terms(Min(intervalMs, other.intervalMs), Min(maxBatch, other.maxBatch), Max(capacity, other.capacity))
    }
  }

  /** One polled symbol and filter. Status and inconsistency epoch are what the poller last set. */
  datatype Source = Source(nextSequence: nat, ring: seq<Batch>, terms: Terms, status: int, epoch: nat)

  /** One subscriber's cursor over a source; status and epoch are the last ones it was told. */
  datatype Member = Member(source: int, next: nat, status: int, epoch: nat, dropped: nat, terms: Terms)

  datatype Event =
    | StatusEvent(memberIndex: nat, status: int)
    | InconsistencyGap(memberIndex: nat, sequence: nat)
    | OverflowGap(memberIndex: nat, sequence: nat, dropped: nat)
    | TickBatch(memberIndex: nat, sequence: nat, ticks: seq<Tick>)

  // ----- rings

  /** Batches of the ring are consecutive, end at the last published one, which is always retained,
      and carry its ticks; `published[s - 1]` is what batch s ever was. */
  ghost predicate RingSound(source: Source, published: seq<seq<Tick>>) {
    && source.nextSequence == |published| + 1 && |source.ring| <= |published| && source.terms.capacity > 0
    && (source.ring == [] ==> published == [])
    && forall i :: 0 <= i < |source.ring| ==>
         && source.ring[i].sequence == source.nextSequence - |source.ring| + i
         && source.ring[i].ticks == published[source.ring[i].sequence - 1]
  }

  function Flatten(batches: seq<seq<Tick>>): seq<Tick> {
    if batches == [] then [] else Flatten(batches[..|batches| - 1]) + batches[|batches| - 1]
  }

  lemma FlattenAdd(batches: seq<seq<Tick>>, batch: seq<Tick>)
    ensures Flatten(batches + [batch]) == Flatten(batches) + batch
  {
    assert (batches + [batch])[..|batches|] == batches;
  }

  lemma PushKeepsRing(source: Source, published: seq<seq<Tick>>, ticks: seq<Tick>)
    requires RingSound(source, published)
    ensures RingSound(source.(nextSequence := source.nextSequence + 1, ring := source.ring + [Batch(source.nextSequence, ticks)]),
                      published + [ticks])
  {
  }

  lemma PopKeepsRing(source: Source, published: seq<seq<Tick>>)
    requires RingSound(source, published) && |source.ring| > 1
    ensures RingSound(source.(ring := source.ring[1..]), published)
  {
  }

  lemma FlattenNone(batches: seq<seq<Tick>>)
    ensures Flatten(batches) + [] == Flatten(batches)
  {
  }

  function KeepNewest(ring: seq<Batch>, capacity: nat): seq<Batch> {
    if |ring| <= capacity then ring else ring[|ring| - capacity..]
  }

  function Push(source: Source, ticks: seq<Tick>): Source {
    source.(nextSequence := source.nextSequence + 1,
            ring := KeepNewest(source.ring + [Batch(source.nextSequence, ticks)], source.terms.capacity))
  }

  /** The source after publishing fresh ticks in batches of `limit`. */
  function PushAll(source: Source, limit: nat, fresh_: seq<Tick>): Source
    requires limit > 0
    decreases |fresh_|
  {
    if fresh_ == [] then source
    else
      var count := Min(limit, |fresh_|);
      PushAll(Push(source, fresh_[..count]), limit, fresh_[count..])
  }

  /** Splits fresh ticks into batches of at most `limit` and trims the ring to its capacity: the
      published history grows by exactly the fresh ticks, in order. The limit is the source's batch
      limit as the poll found it when it began, the capacity is the source's current one. */
  method PublishBatches(source: Source, limit: nat, fresh_: seq<Tick>, ghost published: seq<seq<Tick>>)
    returns (after: Source, ghost history: seq<seq<Tick>>)
    requires RingSound(source, published) && limit > 0
    ensures RingSound(after, history) && published <= history
    ensures Flatten(history) == Flatten(published) + fresh_
    ensures forall i :: |published| <= i < |history| ==> 0 < |history[i]| <= limit
    ensures forall i :: |published| <= i < |history| - 1 ==> |history[i]| == limit
    ensures fresh_ != [] ==> |after.ring| == Min(source.terms.capacity, |source.ring| + |history| - |published|)
    ensures fresh_ == [] ==> after.ring == source.ring
    ensures after == source.(nextSequence := after.nextSequence, ring := after.ring) == PushAll(source, limit, fresh_)
  {
    hide RingSound;
    hide Flatten;
    hide PushAll;
    hide KeepNewest;
    FlattenNone(published);
    assert fresh_[0..] == fresh_;
    after, history := source, published;
    var offset := 0;
    while offset < |fresh_|
      invariant 0 <= offset <= |fresh_|
      invariant RingSound(after, history) && published <= history
      invariant Flatten(history) == Flatten(published) + fresh_[..offset]
      invariant offset > 0 ==> |after.ring| == Min(source.terms.capacity, |source.ring| + |history| - |published|)
      invariant offset == 0 ==> after.ring == source.ring && |history| == |published|
      invariant forall i :: |published| <= i < |history| ==> 0 < |history[i]| <= limit
      invariant forall i :: |published| <= i < |history| && (i < |history| - 1 || offset < |fresh_|) ==> |history[i]| == limit
      invariant after == source.(nextSequence := after.nextSequence, ring := after.ring)
      invariant PushAll(after, limit, fresh_[offset..]) == PushAll(source, limit, fresh_)
    {
      var count := if limit < |fresh_| - offset then limit else |fresh_| - offset;
      var ticks := fresh_[offset..offset + count];
      FlattenAdd(history, ticks);
      assert fresh_[..offset] + ticks == fresh_[..offset + count];
      PushKeepsRing(after, history, ticks);
      PushOne(after, limit, fresh_, offset);
      ghost var pushed := Push(after, ticks);
      after := after.(nextSequence := after.nextSequence + 1, ring := after.ring + [Batch(after.nextSequence, ticks)]);
      history := history + [ticks];
      while |after.ring| > source.terms.capacity
        invariant RingSound(after, history)
        invariant Min(source.terms.capacity, |after.ring|) == Min(source.terms.capacity, |source.ring| + |history| - |published|)
        invariant after == source.(nextSequence := after.nextSequence, ring := after.ring) && after.nextSequence == pushed.nextSequence
        invariant KeepNewest(after.ring, source.terms.capacity) == pushed.ring
      {
        assert source.terms.capacity > 0 by { RingLength(source, published); }
        PopKeepsRing(after, history);
        TrimOne(after.ring, source.terms.capacity);
        after := after.(ring := after.ring[1..]);
      }
      TrimOne(after.ring, source.terms.capacity);
      offset := offset + count;
    }
    assert fresh_[..|fresh_|] == fresh_ && fresh_[|fresh_|..] == [];
    PushNone(after, limit);
  }

  lemma TrimOne(ring: seq<Batch>, capacity: nat)
    ensures KeepNewest(ring, capacity) == if |ring| <= capacity then ring else KeepNewest(ring[1..], capacity)
  {
  }

  lemma PushOne(source: Source, limit: nat, fresh_: seq<Tick>, offset: nat)
    requires limit > 0 && offset < |fresh_|
    ensures var count := Min(limit, |fresh_| - offset);
            PushAll(source, limit, fresh_[offset..])
            == PushAll(Push(source, fresh_[offset..offset + count]), limit, fresh_[offset + count..])
  {
    hide Push;
    var count := Min(limit, |fresh_| - offset);
    assert fresh_[offset..][..count] == fresh_[offset..offset + count] && fresh_[offset..][count..] == fresh_[offset + count..];
  }

  lemma PushNone(source: Source, limit: nat)
    requires limit > 0
    ensures PushAll(source, limit, []) == source
  {
  }

  // ----- what a member has been told

  /** One piece of the sequence range that an event accounted for. */
  datatype Cover = Delivered(sequence: nat, ticks: seq<Tick>) | Dropped(from: nat, to: nat)

  /** Covers laid end to end from `start` to `next`, each delivered batch with its true ticks. */
  ghost predicate Tiles(covers: seq<Cover>, start: nat, next: nat, published: seq<seq<Tick>>) {
    if covers == [] then start == next
    else
      var init := covers[..|covers| - 1];
      match covers[|covers| - 1]
      case Delivered(sequence, ticks) =>
        && 1 <= sequence <= |published| && ticks == published[sequence - 1] && next == sequence + 1
        && Tiles(init, start, sequence, published)
      case Dropped(from, to) => from < to && next == to && Tiles(init, start, from, published)
  }

  function DeliveredBatches(covers: seq<Cover>): nat {
    if covers == [] then 0
    else DeliveredBatches(covers[..|covers| - 1]) + if covers[|covers| - 1].Delivered? then 1 else 0
  }

  function DroppedBatches(covers: seq<Cover>): nat {
    if covers == [] then 0
    else
      DroppedBatches(covers[..|covers| - 1])
      + (match covers[|covers| - 1] case Delivered(_, _) => 0 case Dropped(from, to) => if from < to then to - from else 0)
  }

  function DeliveredTicks(covers: seq<Cover>): seq<Tick> {
    if covers == [] then []
    else DeliveredTicks(covers[..|covers| - 1]) + if covers[|covers| - 1].Delivered? then covers[|covers| - 1].ticks else []
  }

  /** Conservation: a member's position is where it started plus everything delivered and
      everything reported as dropped. */
  lemma {:induction false} SequencesAreConserved(covers: seq<Cover>, start: nat, next: nat, published: seq<seq<Tick>>)
    requires Tiles(covers, start, next, published)
    ensures next == start + DeliveredBatches(covers) + DroppedBatches(covers)
    decreases |covers|
  {
    if covers != [] {
      var init := covers[..|covers| - 1];
      match covers[|covers| - 1]
      case Delivered(sequence, _) => SequencesAreConserved(init, start, sequence, published);
      case Dropped(from, _) => SequencesAreConserved(init, start, from, published);
    }
  }

  /** So every member's own counter of dropped batches accounts for what it was not given. */
  lemma MemberIsConserved(source: Source, published: seq<seq<Tick>>, member: Member, log: Log)
    requires MemberSound(source, published, member, log)
    ensures member.next == log.start + DeliveredBatches(log.covers) + member.dropped
  {
    SequencesAreConserved(log.covers, log.start, member.next, published);
  }

  /** Without an overflow gap a member has received exactly what was published since it began. */
  lemma {:induction false} NoGapMeansEverything(covers: seq<Cover>, start: nat, next: nat, published: seq<seq<Tick>>)
    requires Tiles(covers, start, next, published) && 1 <= start <= |published| + 1 && forall c <- covers :: c.Delivered?
    ensures start <= next <= |published| + 1
    ensures DeliveredTicks(covers) == Flatten(published[start - 1..next - 1])
    decreases |covers|
  {
    hide Flatten;
    if covers == [] {
      FlattenNothing(published[start - 1..next - 1]);
    } else {
      var sequence := covers[|covers| - 1].sequence;
      NoGapMeansEverything(covers[..|covers| - 1], start, sequence, published);
      var before, batch := published[start - 1..sequence - 1], published[sequence - 1];
      assert published[start - 1..next - 1] == before + [batch];
      FlattenAdd(before, batch);
    }
  }

  lemma FlattenNothing(batches: seq<seq<Tick>>)
    requires batches == []
    ensures Flatten(batches) == []
  {
  }

  lemma {:induction false} TilesGrow(covers: seq<Cover>, start: nat, next: nat, before: seq<seq<Tick>>, after: seq<seq<Tick>>)
    requires Tiles(covers, start, next, before) && before <= after
    ensures Tiles(covers, start, next, after)
    decreases |covers|
  {
    if covers != [] {
      match covers[|covers| - 1]
      case Delivered(sequence, _) => TilesGrow(covers[..|covers| - 1], start, sequence, before, after);
      case Dropped(from, _) => TilesGrow(covers[..|covers| - 1], start, from, before, after);
    }
  }

  lemma TilesAdd(covers: seq<Cover>, start: nat, next: nat, published: seq<seq<Tick>>, cover: Cover)
    requires Tiles(covers, start, next, published)
    requires match cover
             case Delivered(sequence, ticks) => sequence == next && 1 <= sequence <= |published| && ticks == published[sequence - 1]
             case Dropped(from, to) => from == next && from < to
    ensures Tiles(covers + [cover], start, match cover case Delivered(s, _) => s + 1 case Dropped(_, to) => to, published)
    ensures DroppedBatches(covers + [cover])
         == DroppedBatches(covers) + match cover case Delivered(_, _) => 0 case Dropped(from, to) => to - from
  {
    assert (covers + [cover])[..|covers|] == covers;
  }

  // ----- serving one member

  /** The event a member is due, if any. */
  function Due(source: Source, member: Member, index: nat): Option<Event> {
    if member.status != source.status then Some(StatusEvent(index, source.status))
    else if member.epoch < source.epoch then Some(InconsistencyGap(index, member.next))
    else if source.ring == [] then None
    else if member.next < source.ring[0].sequence then
      Some(OverflowGap(index, source.ring[0].sequence, source.ring[0].sequence - member.next))
    else
      match FirstBatch(source.ring, member.next)
      case None => None
      case Some(batch) => Some(TickBatch(index, batch.sequence, batch.ticks))
  }

  function FirstBatch(ring: seq<Batch>, next: nat): Option<Batch> {
    if ring == [] then None else if ring[0].sequence >= next then Some(ring[0]) else FirstBatch(ring[1..], next)
  }

  function Advance(member: Member, source: Source, event: Event): Member {
    match event
    case StatusEvent(_, status) => member.(status := status)
    case InconsistencyGap(_, _) => member.(epoch := source.epoch)
    case OverflowGap(_, sequence, dropped) => member.(next := sequence, dropped := member.dropped + dropped)
    case TickBatch(_, sequence, _) => member.(next := sequence + 1)
  }

  function CoverOf(member: Member, event: Event): seq<Cover> {
    match event
    case OverflowGap(_, sequence, _) => [Dropped(member.next, sequence)]
    case TickBatch(_, sequence, ticks) => [Delivered(sequence, ticks)]
    case _ => []
  }

  datatype Log = Log(start: nat, covers: seq<Cover>)

  ghost predicate MemberSound(source: Source, published: seq<seq<Tick>>, member: Member, log: Log) {
    && log.start >= 1 && member.next <= source.nextSequence
    && Tiles(log.covers, log.start, member.next, published) && member.dropped == DroppedBatches(log.covers)
  }

  lemma {:induction false} FirstBatchIsNext(ring: seq<Batch>, first: nat, next: nat)
    requires forall i :: 0 <= i < |ring| ==> ring[i].sequence == first + i
    requires first <= next
    ensures FirstBatch(ring, next) == if next - first < |ring| then Some(ring[next - first]) else None
    decreases |ring|
  {
    if ring != [] && first < next { FirstBatchIsNext(ring[1..], first + 1, next); }
  }

  /** Every event accounts for exactly the sequences it moves past: a gap for those the ring no
      longer holds, a batch for the next one, with its true ticks. */
  lemma ServedMemberIsSound(source: Source, published: seq<seq<Tick>>, member: Member, log: Log, index: nat)
    requires RingSound(source, published) && MemberSound(source, published, member, log) && Due(source, member, index).Some?
    ensures var event := Due(source, member, index).value;
            MemberSound(source, published, Advance(member, source, event), Log(log.start, log.covers + CoverOf(member, event)))
  {
    hide Tiles;
    hide DroppedBatches;
    var event := Due(source, member, index).value;
    DueIsNext(source, published, member, log, index);
    if CoverOf(member, event) == [] {
      assert log.covers + [] == log.covers;
    } else {
      TilesAdd(log.covers, log.start, member.next, published, CoverOf(member, event)[0]);
    }
  }

  /** A batch event carries the member's next sequence; a gap ends at the oldest retained one. */
  lemma DueIsNext(source: Source, published: seq<seq<Tick>>, member: Member, log: Log, index: nat)
    requires RingSound(source, published) && MemberSound(source, published, member, log) && Due(source, member, index).Some?
    ensures match Due(source, member, index).value
            case TickBatch(_, sequence, ticks) =>
              && sequence == member.next && 1 <= sequence <= |published| && ticks == published[sequence - 1]
            case OverflowGap(_, sequence, dropped) =>
              && member.next < sequence <= source.nextSequence && dropped == sequence - member.next && source.ring != []
              && sequence == source.ring[0].sequence
            case _ => true
  {
    hide Tiles;
    hide DroppedBatches;
    hide FirstBatch;
    if source.ring != [] && member.next >= source.ring[0].sequence {
      FirstBatchIsNext(source.ring, source.ring[0].sequence, member.next);
    }
  }

  /** The member knows the status, every inconsistency and every published batch of its source. */
  predicate CaughtUp(source: Source, member: Member) {
    member.status == source.status && member.epoch >= source.epoch && member.next == source.nextSequence
  }

  lemma {:induction false} TilesAscend(covers: seq<Cover>, start: nat, next: nat, published: seq<seq<Tick>>)
    requires Tiles(covers, start, next, published)
    ensures start <= next
    decreases |covers|
  {
    if covers != [] {
      match covers[|covers| - 1]
      case Delivered(sequence, _) => TilesAscend(covers[..|covers| - 1], start, sequence, published);
      case Dropped(from, _) => TilesAscend(covers[..|covers| - 1], start, from, published);
    }
  }

  /** Nothing is due exactly for a member that has caught up. Otherwise a changed status comes first,
      then a new inconsistency, then, exactly if the member's next batch is no longer retained, the
      gap up to the oldest one that is, and else that next batch, with what was published under its
      sequence number. */
  lemma DueIff(source: Source, published: seq<seq<Tick>>, member: Member, log: Log, index: nat)
    requires RingSound(source, published) && MemberSound(source, published, member, log)
    ensures 1 <= member.next <= source.nextSequence == |published| + 1
    ensures var due, oldest := Due(source, member, index), source.nextSequence - |source.ring|;
            && (due.None? <==> CaughtUp(source, member))
            && (member.status != source.status ==> due == Some(StatusEvent(index, source.status)))
            && (member.status == source.status && member.epoch < source.epoch ==> due == Some(InconsistencyGap(index, member.next)))
            && (member.status == source.status && member.epoch >= source.epoch && member.next < source.nextSequence ==>
                  due == Some(if member.next < oldest then OverflowGap(index, oldest, oldest - member.next)
                              else TickBatch(index, member.next, published[member.next - 1])))
  {
    hide DroppedBatches;
    hide FirstBatch;
    TilesAscend(log.covers, log.start, member.next, published);
    hide Tiles;
    if source.ring != [] && member.next >= source.ring[0].sequence {
      FirstBatchIsNext(source.ring, source.ring[0].sequence, member.next);
    }
  }

  /** The events a member still has to get: a status, an inconsistency, and either the batches from
      its next one on or a gap and every retained batch. */
  function Backlog(source: Source, member: Member): nat {
    (if member.status != source.status then 1 else 0) + (if member.epoch < source.epoch then 1 else 0)
    + (if member.next + |source.ring| < source.nextSequence then 1 + |source.ring|
       else if member.next <= source.nextSequence then source.nextSequence - member.next else 0)
  }

  /** Every event is one less to come, and none comes exactly when none is left. */
  lemma EventReducesBacklog(source: Source, published: seq<seq<Tick>>, member: Member, log: Log, index: nat)
    requires RingSound(source, published) && MemberSound(source, published, member, log)
    ensures Due(source, member, index).None? <==> Backlog(source, member) == 0
    ensures Due(source, member, index).Some? ==>
              var after := Advance(member, source, Due(source, member, index).value);
              Backlog(source, after) == Backlog(source, member) - 1
  {
    DueIff(source, published, member, log, index);
    hide Due;
    hide Tiles;
    hide DroppedBatches;
  }

  // ----- round robin

  /** An index one lap ahead at most, brought back into range. */
  function Wrap(i: nat, n: nat): (r: nat)
    requires i < 2 * n
    ensures r == (if i < n then i else i - n) < n
  {
    assert i >= n ==> (i - n) % n == i - n;
    i % n
  }

  /** Cyclic distance from the cursor. */
  function Rank(n: nat, cursor: nat, i: nat): nat
    requires cursor < n && i < n
  {
    if i >= cursor then i - cursor else i + n - cursor
  }

  // ----- the hub

  datatype Subscription = Subscription(members: seq<Member>, memberCursor: nat)

  ghost predicate MembersSound(sources: map<int, Source>, published: map<int, seq<seq<Tick>>>, members: seq<Member>, logs: seq<Log>) {
    && |members| == |logs|
    && forall i :: 0 <= i < |logs| ==>
         && members[i].source in sources && members[i].source in published
         && MemberSound(sources[members[i].source], published[members[i].source], members[i], logs[i])
  }

  ghost predicate SubscriptionSound(sources: map<int, Source>, published: map<int, seq<seq<Tick>>>, sub: Subscription, logs: seq<Log>) {
    sub.memberCursor < |sub.members| && MembersSound(sources, published, sub.members, logs)
  }

  lemma SourceAdvances(sources: map<int, Source>, published: map<int, seq<seq<Tick>>>, members: seq<Member>, logs: seq<Log>,
                       key: int, after: Source, history: seq<seq<Tick>>)
    requires MembersSound(sources, published, members, logs)
    requires key in sources && key in published ==> published[key] <= history && sources[key].nextSequence <= after.nextSequence
    requires key in sources <==> key in published
    ensures MembersSound(sources[key := after], published[key := history], members, logs)
  {
    hide Tiles;
    hide DroppedBatches;
    forall i | 0 <= i < |logs| && members[i].source == key
      ensures MemberSound(after, history, members[i], logs[i])
    {
      TilesGrow(logs[i].covers, logs[i].start, members[i].next, published[key], history);
    }
  }

  lemma MemberServed(sources: map<int, Source>, published: map<int, seq<seq<Tick>>>, sub: Subscription, logs: seq<Log>, index: nat, cursor: nat)
    requires SubscriptionSound(sources, published, sub, logs) && index < |sub.members| && cursor < |sub.members|
    requires RingSound(sources[sub.members[index].source], published[sub.members[index].source])
    requires Due(sources[sub.members[index].source], sub.members[index], index).Some?
    ensures var member := sub.members[index];
            var source := sources[member.source];
            var event := Due(source, member, index).value;
            SubscriptionSound(sources, published, Subscription(sub.members[index := Advance(member, source, event)], cursor),
                              logs[index := Log(logs[index].start, logs[index].covers + CoverOf(member, event))])
  {
    hide MemberSound;
    hide Due;
    hide Advance;
    hide CoverOf;
    var member := sub.members[index];
    ServedMemberIsSound(sources[member.source], published[member.source], member, logs[index], index);
    AdvanceKeepsSource(member, sources[member.source], Due(sources[member.source], member, index).value);
  }

  lemma AdvanceKeepsSource(member: Member, source: Source, event: Event)
    ensures Advance(member, source, event).source == member.source
  {
  }

  // ----- what members ask of a shared source

  /** One member's limits for the source it reads. */
  datatype Demand = Demand(source: int, terms: Terms)

  function DemandOf(m: Member): Demand {
    Demand(m.source, m.terms)
  }

  ghost function MemberDemands(members: seq<Member>): set<Demand> {
    set m <- members :: DemandOf(m)
  }

  ghost function DemandsAmong(subscriptions: map<nat, Subscription>, ids: seq<nat>): set<Demand> {
    set id, m | id in ids && id in subscriptions && m in subscriptions[id].members :: DemandOf(m)
  }

  ghost function Demands(subscriptions: map<nat, Subscription>): set<Demand> {
    set id, m | id in subscriptions && m in subscriptions[id].members :: DemandOf(m)
  }

  /** What a single request may ask for. */
  predicate WithinLimits(terms: Terms) {
    && terms.intervalMs >= 10 && 0 < terms.maxBatch <= 1_000_000 && 0 < terms.capacity <= 65536
    && terms.maxBatch * terms.capacity <= MAX_RETAINED_TICKS
  }

  datatype RequestedSource = RequestedSource(symbol: string, flags: nat, reserved: nat)

  datatype Request = Request(sources: seq<RequestedSource>, intervalMs: u32, maxBatch: nat, ringCapacity: nat,
                             deliveryFlags: nat, staleAfterMs: nat, reserved: nat)
  {
    /** Zero limits stand for the defaults. */
    function Asked(): Terms {
      Terms(if intervalMs == 0 then 250 else intervalMs, if maxBatch == 0 then 1024 else maxBatch,
            if ringCapacity == 0 then 64 else ringCapacity)
    }

    predicate NeedsDefaultFlags() {
      exists source <- sources :: source.flags == 0
    }

    /** Delivery is by tick batches or unspecified: coherent snapshots, and with them a staleness
        limit, are refused. */
    predicate Admissible() {
      && 0 < |sources| <= 1024 && reserved == 0
      && WithinLimits(Asked()) && deliveryFlags <= 1 && staleAfterMs == 0
      && forall source <- sources :: source.symbol != "" && source.reserved == 0 && source.flags <= 0x7FFF_FFFF
    }
  }

  /** What a request may leave open and how far it may go: with the batch limit left open the ring takes
      up to 976 batches, with the ring left open a batch takes up to 15625 ticks. */
  lemma AdmissibleIff(request: Request)
    ensures var asked := request.Asked();
            && (request.intervalMs > 0 ==> asked.intervalMs == request.intervalMs) && (request.intervalMs == 0 ==> asked.intervalMs == 250)
            && (request.maxBatch > 0 ==> asked.maxBatch == request.maxBatch) && (request.maxBatch == 0 ==> asked.maxBatch == 1024)
            && (request.ringCapacity > 0 ==> asked.capacity == request.ringCapacity) && (request.ringCapacity == 0 ==> asked.capacity == 64)
    ensures request.Admissible()
       <==> && 1 <= |request.sources| <= 1024 && request.reserved == 0 && request.deliveryFlags in {0, 1} && request.staleAfterMs == 0
            && (request.intervalMs == 0 || request.intervalMs >= 10)
            && (if request.maxBatch == 0 then request.ringCapacity <= 976
                else if request.ringCapacity == 0 then request.maxBatch <= 15625
                else request.ringCapacity <= 65536 && request.maxBatch * request.ringCapacity <= 1_000_000)
            && forall source <- request.sources ::
                 source.symbol != "" && source.reserved == 0 && source.flags < 0x8000_0000
  {
    if request.maxBatch > 0 && request.ringCapacity > 0 { FactorIsBounded(request.maxBatch, request.ringCapacity); }
  }

  lemma FactorIsBounded(a: nat, b: nat)
    requires b > 0
    ensures a <= a * b
  {
  }

  /** The sources that a request names, where `allTicks` stands for unspecified flags. */
  function RequestedKeys(sources: seq<RequestedSource>, key: (string, nat) -> int, allTicks: nat): (keys: seq<int>)
    ensures |keys| == |sources|
    ensures forall i :: 0 <= i < |keys| ==>
              || (keys[i] == key(sources[i].symbol, sources[i].flags) && sources[i].flags > 0)
              || (keys[i] == key(sources[i].symbol, allTicks) && sources[i].flags == 0)
  {
    seq(|sources|, i requires 0 <= i < |sources| => key(sources[i].symbol, if sources[i].flags == 0 then allTicks else sources[i].flags))
  }

  /** The shortest interval, the smallest batch limit and the largest capacity that any member asks
      of this source. */
  ghost predicate Governs(demands: set<Demand>, key: int, terms: Terms) {
    && (exists d <- demands :: d.source == key && d.terms.intervalMs == terms.intervalMs)
    && (exists d <- demands :: d.source == key && d.terms.maxBatch == terms.maxBatch)
    && (exists d <- demands :: d.source == key && d.terms.capacity == terms.capacity)
    && (forall d <- demands :: d.source == key ==>
          terms.intervalMs <= d.terms.intervalMs && terms.maxBatch <= d.terms.maxBatch && d.terms.capacity <= terms.capacity)
  }

  /** Every source is shared on exactly its members' terms. */
  ghost predicate Governed(sources: map<int, Source>, demands: set<Demand>) {
    forall key <- sources :: Governs(demands, key, sources[key].terms)
  }

  /** The terms bind nobody less than asked, and keep within the retained-tick limit. */
  ghost predicate Serves(demands: set<Demand>, key: int, terms: Terms) {
    && terms.maxBatch > 0 && terms.capacity > 0 && terms.maxBatch * terms.capacity <= MAX_RETAINED_TICKS
    && (forall d <- demands :: d.source == key ==>
          terms.intervalMs <= d.terms.intervalMs && terms.maxBatch <= d.terms.maxBatch && d.terms.capacity <= terms.capacity)
  }

  /** Every source serves its members, and nobody reads a missing source. */
  ghost predicate Served(sources: map<int, Source>, demands: set<Demand>) {
    && (forall key <- sources :: Serves(demands, key, sources[key].terms))
    && (forall d <- demands :: d.source in sources && WithinLimits(d.terms))
  }

  lemma SameTermsServe(before: map<int, Source>, after: map<int, Source>, demands: set<Demand>)
    requires Served(before, demands) && after.Keys == before.Keys
    requires forall key <- after :: after[key].terms == before[key].terms
    ensures Served(after, demands)
    ensures Governed(before, demands) ==> Governed(after, demands)
  {
    hide Governs;
    hide Serves;
    hide WithinLimits;
  }

  lemma ServedKeepsDemands(subscriptions: map<nat, Subscription>, id: nat, i: nat, after: Member, cursor: nat)
    requires id in subscriptions && i < |subscriptions[id].members| && DemandOf(after) == DemandOf(subscriptions[id].members[i])
    ensures Demands(subscriptions[id := Subscription(subscriptions[id].members[i := after], cursor)]) == Demands(subscriptions)
  {
    var old_, new_ := subscriptions[id].members, subscriptions[id].members[i := after];
    var result := subscriptions[id := Subscription(new_, cursor)];
    forall d | d in Demands(subscriptions) ensures d in Demands(result) {
      var k, m :| k in subscriptions && m in subscriptions[k].members && DemandOf(m) == d;
      if k == id {
        var j :| 0 <= j < |old_| && old_[j] == m;
        assert new_[j] in result[id].members && DemandOf(new_[j]) == d;
      } else {
        assert m in result[k].members;
      }
    }
    forall d | d in Demands(result) ensures d in Demands(subscriptions) {
      var k, m :| k in result && m in result[k].members && DemandOf(m) == d;
      if k == id {
        var j :| 0 <= j < |new_| && new_[j] == m;
        assert old_[j] in subscriptions[id].members && DemandOf(old_[j]) == d;
      }
    }
  }

  /** Two terms within the limit combine to terms within it: the stricter batch limit is at most the
      one that comes with the larger ring. */
  lemma CombinedBudget(a: Terms, b: Terms)
    requires a.maxBatch * a.capacity <= MAX_RETAINED_TICKS && b.maxBatch * b.capacity <= MAX_RETAINED_TICKS
    ensures a.With(b).maxBatch * a.With(b).capacity <= MAX_RETAINED_TICKS
  {
    var larger := if a.capacity < b.capacity then b else a;
    MulMonotone(a.With(b).maxBatch, larger.maxBatch, larger.capacity);
  }

  /** The refusal of a subscription that would exceed a shared source's tick budget never happens:
      for a request within its own limits the combined limits always fit. */
  lemma SharedBudgetAlwaysFits(sources: map<int, Source>, demands: set<Demand>, keys: seq<int>, terms: Terms)
    requires Served(sources, demands) && WithinLimits(terms)
    ensures WithinBudget(sources, keys, terms)
  {
    forall k | 0 <= k < |keys| ensures BudgetAllows(sources, keys[k], terms) {
      if keys[k] in sources {
        assert Serves(demands, keys[k], sources[keys[k]].terms);
        CombinedBudget(sources[keys[k]].terms, terms);
      }
    }
  }

  // ----- what a ring really retains

  function Retained(ring: seq<Batch>): nat {
    if ring == [] then 0 else Retained(ring[..|ring| - 1]) + |ring[|ring| - 1].ticks|
  }

  /** The j-th oldest batch holds at most the j-th part of the retained-tick limit. */
  ghost predicate Graded(ring: seq<Batch>) {
    forall i :: 0 <= i < |ring| ==> (i + 1) * |ring[i].ticks| <= MAX_RETAINED_TICKS
  }

  lemma PushKeepsGraded(source: Source, ticks: seq<Tick>)
    requires Graded(source.ring) && |ticks| * source.terms.capacity <= MAX_RETAINED_TICKS
    ensures Graded(Push(source, ticks).ring)
  {
    var capacity, whole, ring := source.terms.capacity, source.ring + [Batch(source.nextSequence, ticks)], Push(source, ticks).ring;
    forall i | 0 <= i < |ring| ensures (i + 1) * |ring[i].ticks| <= MAX_RETAINED_TICKS {
      var was := i + |whole| - |ring|;
      assert ring[i] == whole[was];
      if was < |source.ring| {
        MulMonotone(i + 1, was + 1, |ring[i].ticks|);
      } else {
        MulMonotone(i + 1, capacity, |ticks|);
      }
    }
  }

  lemma {:induction false} PushAllKeepsGraded(source: Source, limit: nat, fresh_: seq<Tick>)
    requires limit > 0 && Graded(source.ring) && limit * source.terms.capacity <= MAX_RETAINED_TICKS
    ensures Graded(PushAll(source, limit, fresh_).ring) && PushAll(source, limit, fresh_).terms == source.terms
    ensures |PushAll(source, limit, fresh_).ring| <= Max(|source.ring|, source.terms.capacity)
    decreases |fresh_|
  {
    hide Graded;
    if fresh_ != [] {
      var count := Min(limit, |fresh_|);
      MulMonotone(count, limit, source.terms.capacity);
      PushKeepsGraded(source, fresh_[..count]);
      PushAllKeepsGraded(Push(source, fresh_[..count]), limit, fresh_[count..]);
    }
  }

  type Positive = x: nat | x > 0 witness 1

  /** A poll publishes with the batch limit it began with; a join or a leave resets the terms. */
  datatype SourceEvent = Polled(limit: Positive, fresh_: seq<Tick>) | Reset(terms: Terms)

  function AfterEvent(source: Source, event: SourceEvent): Source {
    match event
    case Polled(limit, fresh_) => PushAll(source, limit, fresh_)
    case Reset(terms) => source.(terms := terms)
  }

  /** Every poll's batch limit goes with the capacity at its end, and no ring is above the largest. */
  ghost predicate Budgeted(source: Source, events: seq<SourceEvent>)
    decreases |events|
  {
    || events == []
    || (&& (match events[0]
            case Polled(limit, _) => limit * source.terms.capacity <= MAX_RETAINED_TICKS
            case Reset(terms) => terms.capacity <= 65536)
        && Budgeted(AfterEvent(source, events[0]), events[1..]))
  }

  function AfterEvents(source: Source, events: seq<SourceEvent>): Source
    decreases |events|
  {
    if events == [] then source else AfterEvents(AfterEvent(source, events[0]), events[1..])
  }

  /** A poll during which nobody joins ends with at most the capacity it began with. */
  lemma UnjoinedPollIsBudgeted(start: Terms, end: Terms)
    requires WithinLimits(start) && end.capacity <= start.capacity
    ensures start.maxBatch * end.capacity <= MAX_RETAINED_TICKS
  {
    MulMonotone(end.capacity, start.capacity, start.maxBatch);
  }

  lemma {:induction false} EventsKeepGraded(source: Source, events: seq<SourceEvent>)
    requires Graded(source.ring) && |source.ring| <= 65536 && source.terms.capacity <= 65536 && Budgeted(source, events)
    ensures Graded(AfterEvents(source, events).ring) && |AfterEvents(source, events).ring| <= 65536
    decreases |events|
  {
    hide Graded;
    hide PushAll;
    if events != [] {
      if events[0].Polled? { PushAllKeepsGraded(source, events[0].limit, events[0].fresh_); }
      EventsKeepGraded(AfterEvent(source, events[0]), events[1..]);
    }
  }

  /** From position `from` on, a graded ring holds on average the `from + 1`-st part of the limit. */
  lemma {:induction false} RetainedFrom(ring: seq<Batch>, from: nat)
    requires Graded(ring) && from <= |ring|
    ensures (from + 1) * (Retained(ring) - Retained(ring[..from])) <= (|ring| - from) * MAX_RETAINED_TICKS
    decreases |ring|
  {
    if from == |ring| {
      assert ring[..from] == ring;
    } else {
      var init, last := ring[..|ring| - 1], ring[|ring| - 1];
      RetainedFrom(init, from);
      assert init[..from] == ring[..from];
      MulMonotone(from + 1, |ring|, |last.ticks|);
      assert |ring| * |last.ticks| <= MAX_RETAINED_TICKS;
      SplitProduct(from + 1, Retained(init) - Retained(ring[..from]), |last.ticks|);
    }
  }

  lemma SplitProduct(a: int, b: int, c: int)
    ensures a * (b + c) == a * b + a * c
  {
  }

  /** A graded ring of fewer than 2^k batches holds at most k times the limit. */
  lemma {:induction false} RetainedBound(ring: seq<Batch>, k: nat)
    requires Graded(ring) && |ring| < Pow2(k)
    ensures Retained(ring) <= k * MAX_RETAINED_TICKS
    decreases k
  {
    if k > 0 {
      var half := Pow2(k - 1);
      if |ring| < half {
        RetainedBound(ring, k - 1);
      } else {
        RetainedBound(ring[..half - 1], k - 1);
        RetainedFrom(ring, half - 1);
        BlockBound(half, Retained(ring) - Retained(ring[..half - 1]), |ring| - (half - 1));
      }
    }
  }

  lemma BlockBound(half: nat, held: int, batches: nat)
    requires half > 0 && batches <= half && half * held <= batches * MAX_RETAINED_TICKS
    ensures held <= MAX_RETAINED_TICKS
  {
    MulMonotone(batches, half, MAX_RETAINED_TICKS);
    if held > MAX_RETAINED_TICKS { MulMonotone(MAX_RETAINED_TICKS + 1, held, half); }
  }

  /** The retained-tick limit bounds terms, not rings. Still, where nobody joins during a poll, a
      ring never holds more than 17 times the limit, and its j-th oldest batch the j-th part. */
  lemma RetainedIsBounded(terms: Terms, events: seq<SourceEvent>)
    requires WithinLimits(terms) && Budgeted(Source(1, [], terms, 0, 0), events)
    ensures var ring := AfterEvents(Source(1, [], terms, 0, 0), events).ring;
            Graded(ring) && Retained(ring) <= 17 * MAX_RETAINED_TICKS
  {
    hide Retained;
    EventsKeepGraded(Source(1, [], terms, 0, 0), events);
    Pow2Of17();
    RetainedBound(AfterEvents(Source(1, [], terms, 0, 0), events).ring, 17);
  }

  lemma Pow2Of17()
    ensures Pow2(17) == 131072
  {
    assert Pow2(8) == 256 && Pow2(9) == 512;
    Pow2Add(8, 9);
  }

  /** How many batches these ticks make. */
  function Batches(ticks: nat, limit: nat): nat
    requires limit > 0
  {
    if ticks == 0 then 0 else 1 + Batches(ticks - Min(limit, ticks), limit)
  }

  lemma OneBatchLess(ticks: nat, limit: nat)
    requires limit > 0
    ensures Batches(0, limit) == 0
    ensures ticks >= limit ==> Batches(ticks, limit) == 1 + Batches(ticks - limit, limit)
  {
  }

  lemma {:induction false} BatchesOf(k: nat, limit: nat)
    requires limit > 0
    ensures Batches(k * limit, limit) == k
  {
    hide Batches;
    if k == 0 {
      OneBatchLess(0, limit);
    } else {
      MulMonotone(1, k, limit);
      assert (k - 1) * limit == k * limit - limit;
      OneBatchLess(k * limit, limit);
      BatchesOf(k - 1, limit);
    }
  }

  /** Nothing is dropped while the ring has room. */
  lemma {:induction false} PushAllRetains(source: Source, limit: nat, fresh_: seq<Tick>)
    requires limit > 0 && |source.ring| + Batches(|fresh_|, limit) <= source.terms.capacity
    ensures var after := PushAll(source, limit, fresh_);
            && |after.ring| == |source.ring| + Batches(|fresh_|, limit) && Retained(after.ring) == Retained(source.ring) + |fresh_|
            && after.terms == source.terms
    decreases |fresh_|
  {
    if fresh_ != [] {
      var count := Min(limit, |fresh_|);
      var next := Push(source, fresh_[..count]);
      assert next.ring[..|next.ring| - 1] == source.ring;
      hide Retained;
      PushAllRetains(next, limit, fresh_[count..]);
    }
  }

  /** And a ring can hold more than the limit, with every check passed: a thousand batches of a
      thousand ticks, then a member joins who asks for single ticks and the largest ring. */
  lemma RetainedExceedsLimit(first: seq<Tick>, second: seq<Tick>)
    requires |first| == 1_000_000 && |second| == 64_536
    ensures var bulk, single := Terms(250, 1000, 1000), Terms(250, 1, 65536);
            var source, events := Source(1, [], bulk, 0, 0), [Polled(1000, first), Reset(bulk.With(single)), Polled(1, second)];
            && WithinLimits(bulk) && WithinLimits(single) && BudgetAllows(map[0 := source], 0, single) && Budgeted(source, events)
            && Retained(AfterEvents(source, events).ring) == 1_064_536 > MAX_RETAINED_TICKS
  {
    hide PushAll;
    hide Retained;
    hide Batches;
    var bulk, single := Terms(250, 1000, 1000), Terms(250, 1, 65536);
    var source, events := Source(1, [], bulk, 0, 0), [Polled(1000, first), Reset(bulk.With(single)), Polled(1, second)];
    BatchesOf(|first| / 1000, 1000);
    BatchesOf(|second|, 1);
    PushAllRetains(source, 1000, first);
    var full := PushAll(source, 1000, first).(terms := bulk.With(single));
    PushAllRetains(full, 1, second);
    NothingRetained();
    assert events[1..] == [Reset(bulk.With(single)), Polled(1, second)] && events[1..][1..] == [Polled(1, second)] && events[1..][1..][1..] == [];
    assert AfterEvent(AfterEvent(source, events[0]), events[1]) == full;
    var last := PushAll(full, 1, second);
    assert Budgeted(full, events[1..][1..]) && AfterEvents(full, events[1..][1..]) == last;
    assert Budgeted(AfterEvent(source, events[0]), events[1..]);
  }

  /** Rounds in which the member of the largest ring joins during the poll and leaves after it. */
  function Rounds(n: nat, bulk: Terms, single: Terms, fresh_: seq<Tick>): seq<SourceEvent>
    requires bulk.maxBatch > 0
  {
    if n == 0 then [] else [Reset(bulk), Reset(bulk.With(single)), Polled(bulk.maxBatch, fresh_)] + Rounds(n - 1, bulk, single, fresh_)
  }

  /** The bound does need that nobody joins during a poll: otherwise each of up to 65536 polls leaves
      a batch of a million ticks. */
  lemma {:induction false} JoinedPollsPileUp(source: Source, n: nat, fresh_: seq<Tick>)
    requires |fresh_| == 1_000_000 && |source.ring| + n <= 65536
    ensures var bulk, single := Terms(250, 1_000_000, 1), Terms(250, 1, 65536);
            && WithinLimits(bulk) && WithinLimits(single)
            && Retained(AfterEvents(source, Rounds(n, bulk, single, fresh_)).ring) == Retained(source.ring) + n * 1_000_000
    decreases n
  {
    hide PushAll;
    hide Retained;
    hide Batches;
    var bulk, single := Terms(250, 1_000_000, 1), Terms(250, 1, 65536);
    if n != 0 {
      var rest, joined := Rounds(n - 1, bulk, single, fresh_), source.(terms := bulk.With(single));
      var next := PushAll(joined, 1_000_000, fresh_);
      BatchesOf(1, 1_000_000);
      PushAllRetains(joined, 1_000_000, fresh_);
      JoinedPollsPileUp(next, n - 1, fresh_);
      var events := Rounds(n, bulk, single, fresh_);
      assert events[1..][1..][1..] == rest;
      assert AfterEvents(joined, events[1..][1..]) == AfterEvents(next, rest);
      assert AfterEvents(source.(terms := bulk), events[1..]) == AfterEvents(joined, events[1..][1..]);
    }
  }

  lemma NothingRetained()
    ensures Retained([]) == 0
  {
  }

  // ----- joining and leaving

  function JoinedSource(sources: map<int, Source>, key: int, terms: Terms): Source {
    if key in sources then
      sources[key].(terms := sources[key].terms.With(terms))
    else Source(1, [], terms, 0, 0)
  }

  /** The sources after joining these keys one after the other. */
  function Joined(sources: map<int, Source>, keys: seq<int>, terms: Terms): map<int, Source> {
    if keys == [] then sources
    else
      var before := Joined(sources, keys[..|keys| - 1], terms);
      before[keys[|keys| - 1] := JoinedSource(before, keys[|keys| - 1], terms)]
  }

  ghost function Requested(keys: seq<int>, terms: Terms): set<Demand> {
    set key <- keys :: Demand(key, terms)
  }

  lemma OneMoreServed(sources: map<int, Source>, demands: set<Demand>, key: int, terms: Terms)
    requires Served(sources, demands) && WithinLimits(terms)
    ensures Served(sources[key := JoinedSource(sources, key, terms)], demands + {Demand(key, terms)})
  {
    if key in sources {
      assert Serves(demands, key, sources[key].terms);
      CombinedBudget(sources[key].terms, terms);
    }
    forall other | other in sources && other != key ensures Serves(demands + {Demand(key, terms)}, other, sources[other].terms) {
      assert Serves(demands, other, sources[other].terms);
    }
  }

  lemma OneMoreGoverned(sources: map<int, Source>, demands: set<Demand>, key: int, terms: Terms)
    requires Governed(sources, demands) && forall d <- demands :: d.source in sources
    ensures Governed(sources[key := JoinedSource(sources, key, terms)], demands + {Demand(key, terms)})
  {
    var mine, next := Demand(key, terms), JoinedSource(sources, key, terms);
    var all := demands + {mine};
    forall other | other in sources && other != key ensures Governs(all, other, sources[other].terms) {
      AddedDemandGoverns(demands, mine, other, sources[other].terms);
    }
    assert Governs(all, key, next.terms) by {
      assert mine in all;
      if key in sources { SharedDemandGoverns(demands, key, sources[key].terms, terms); }
    }
  }

  lemma AddedDemandGoverns(demands: set<Demand>, mine: Demand, key: int, terms: Terms)
    requires Governs(demands, key, terms) && mine.source != key
    ensures Governs(demands + {mine}, key, terms)
  {
    var i :| i in demands && i.source == key && i.terms.intervalMs == terms.intervalMs;
    var a :| a in demands && a.source == key && a.terms.maxBatch == terms.maxBatch;
    var c :| c in demands && c.source == key && c.terms.capacity == terms.capacity;
    var all := demands + {mine};
    assert i in all && a in all && c in all;
  }

  lemma SharedDemandGoverns(demands: set<Demand>, key: int, shared: Terms, terms: Terms)
    requires Governs(demands, key, shared)
    ensures Governs(demands + {Demand(key, terms)}, key, shared.With(terms))
  {
    var i :| i in demands && i.source == key && i.terms.intervalMs == shared.intervalMs;
    var a :| a in demands && a.source == key && a.terms.maxBatch == shared.maxBatch;
    var c :| c in demands && c.source == key && c.terms.capacity == shared.capacity;
    var all := demands + {Demand(key, terms)};
    assert i in all && a in all && c in all && Demand(key, terms) in all;
  }

  /** After joining, every source serves all its members, and where it was shared on exactly their
      terms it is so again. */
  lemma {:induction false} JoinedGoverned(sources: map<int, Source>, demands: set<Demand>, keys: seq<int>, terms: Terms)
    requires Served(sources, demands) && WithinLimits(terms)
    ensures Served(Joined(sources, keys, terms), demands + Requested(keys, terms))
    ensures Governed(sources, demands) ==> Governed(Joined(sources, keys, terms), demands + Requested(keys, terms))
    decreases |keys|
  {
    hide Governed;
    hide Serves;
    hide WithinLimits;
    hide JoinedSource;
    if keys == [] {
      assert demands + Requested(keys, terms) == demands;
    } else {
      var init, last := keys[..|keys| - 1], keys[|keys| - 1];
      JoinedGoverned(sources, demands, init, terms);
      OneMoreServed(Joined(sources, init, terms), demands + Requested(init, terms), last, terms);
      if Governed(sources, demands) { OneMoreGoverned(Joined(sources, init, terms), demands + Requested(init, terms), last, terms); }
      assert keys == init + [last];
      assert demands + Requested(keys, terms) == demands + Requested(init, terms) + {Demand(last, terms)};
    }
  }

  lemma EnlistedDemands(subscriptions: map<nat, Subscription>, id: nat, keys: seq<int>, members: seq<Member>, terms: Terms)
    requires id !in subscriptions && |members| == |keys|
    requires forall i :: 0 <= i < |keys| ==> DemandOf(members[i]) == Demand(keys[i], terms)
    ensures Demands(subscriptions[id := Subscription(members, 0)]) == Demands(subscriptions) + Requested(keys, terms)
  {
    var after := subscriptions[id := Subscription(members, 0)];
    forall d | d in Demands(subscriptions) + Requested(keys, terms) ensures d in Demands(after) {
      if d in Demands(subscriptions) {
        var k, m :| k in subscriptions && m in subscriptions[k].members && DemandOf(m) == d;
        assert k in after && m in after[k].members;
      } else {
        var i :| 0 <= i < |keys| && Demand(keys[i], terms) == d;
        assert members[i] in after[id].members;
      }
    }
    forall d | d in Demands(after) ensures d in Demands(subscriptions) + Requested(keys, terms) {
      var k, m :| k in after && m in after[k].members && DemandOf(m) == d;
      if k == id {
        var i :| 0 <= i < |members| && members[i] == m;
        assert keys[i] in keys;
      }
    }
  }

  type Limits = Option<Terms>

  function Tighter(a: Limits, b: Limits): Limits {
    if a.None? then b
    else if b.None? then a
    else Some(a.value.With(b.value))
  }

  /** What these members ask of the source, if any of them reads it. */
  function MemberLimits(members: seq<Member>, key: int): Limits {
    if members == [] then None
    else
      var last := members[|members| - 1];
      Tighter(MemberLimits(members[..|members| - 1], key), if last.source == key then Some(last.terms) else None)
  }

  function OrderLimits(order: seq<nat>, subscriptions: map<nat, Subscription>, key: int): Limits {
    if order == [] then None
    else
      var last := order[|order| - 1];
      Tighter(OrderLimits(order[..|order| - 1], subscriptions, key),
              if last in subscriptions then MemberLimits(subscriptions[last].members, key) else None)
  }

  ghost predicate LimitsOf(demands: set<Demand>, key: int, limits: Limits) {
    if limits.None? then forall d <- demands :: d.source != key else Governs(demands, key, limits.value)
  }

  lemma TighterGoverns(a: set<Demand>, b: set<Demand>, key: int, x: Limits, y: Limits)
    requires LimitsOf(a, key, x) && LimitsOf(b, key, y)
    ensures LimitsOf(a + b, key, Tighter(x, y))
  {
    forall d | d in a ensures d in a + b {}
    forall d | d in b ensures d in a + b {}
    if x.Some? { Witnesses(a, a + b, key, x.value); }
    if y.Some? { Witnesses(b, a + b, key, y.value); }
  }

  lemma Witnesses(few: set<Demand>, many: set<Demand>, key: int, terms: Terms)
    requires Governs(few, key, terms) && few <= many
    ensures exists d <- many :: d.source == key && d.terms.intervalMs == terms.intervalMs
    ensures exists d <- many :: d.source == key && d.terms.maxBatch == terms.maxBatch
    ensures exists d <- many :: d.source == key && d.terms.capacity == terms.capacity
  {
    var i :| i in few && i.source == key && i.terms.intervalMs == terms.intervalMs;
    var a :| a in few && a.source == key && a.terms.maxBatch == terms.maxBatch;
    var c :| c in few && c.source == key && c.terms.capacity == terms.capacity;
    assert i in many && a in many && c in many;
  }

  lemma {:induction false} MemberLimitsGovern(members: seq<Member>, key: int)
    ensures LimitsOf(MemberDemands(members), key, MemberLimits(members, key))
    decreases |members|
  {
    hide Tighter;
    if members != [] {
      var init, last := members[..|members| - 1], members[|members| - 1];
      MemberLimitsGovern(init, key);
      var one := if last.source == key then Some(last.terms) else None;
      assert DemandOf(last) in {DemandOf(last)};
      assert LimitsOf({DemandOf(last)}, key, one);
      TighterGoverns(MemberDemands(init), {DemandOf(last)}, key, MemberLimits(init, key), one);
      assert members == init + [last];
      assert MemberDemands(members) == MemberDemands(init) + {DemandOf(last)};
    }
  }

  lemma {:induction false} OrderLimitsGovern(order: seq<nat>, subscriptions: map<nat, Subscription>, key: int)
    ensures LimitsOf(DemandsAmong(subscriptions, order), key, OrderLimits(order, subscriptions, key))
    decreases |order|
  {
    hide Tighter;
    if order != [] {
      var init, last := order[..|order| - 1], order[|order| - 1];
      OrderLimitsGovern(init, subscriptions, key);
      var more := if last in subscriptions then MemberDemands(subscriptions[last].members) else {};
      var limits := if last in subscriptions then MemberLimits(subscriptions[last].members, key) else None;
      if last in subscriptions { MemberLimitsGovern(subscriptions[last].members, key); }
      TighterGoverns(DemandsAmong(subscriptions, init), more, key, OrderLimits(init, subscriptions, key), limits);
      assert order == init + [last];
      assert DemandsAmong(subscriptions, order) == DemandsAmong(subscriptions, init) + more;
    }
  }

  lemma AllLimitsGovern(order: seq<nat>, subscriptions: map<nat, Subscription>, key: int)
    requires forall id :: id in order <==> id in subscriptions
    ensures LimitsOf(Demands(subscriptions), key, OrderLimits(order, subscriptions, key))
    ensures UsedBy(subscriptions, key) <==> OrderLimits(order, subscriptions, key).Some?
  {
    OrderLimitsGovern(order, subscriptions, key);
    assert DemandsAmong(subscriptions, order) == Demands(subscriptions);
    UsedIffDemanded(subscriptions, key);
  }

  lemma UsedIffDemanded(subscriptions: map<nat, Subscription>, key: int)
    ensures UsedBy(subscriptions, key) <==> exists d <- Demands(subscriptions) :: d.source == key
  {
    if UsedBy(subscriptions, key) {
      var id :| id in subscriptions && MentionsSource(subscriptions[id], key);
      var m :| m in subscriptions[id].members && m.source == key;
      assert DemandOf(m) in Demands(subscriptions);
    }
    if exists d <- Demands(subscriptions) :: d.source == key {
      var d :| d in Demands(subscriptions) && d.source == key;
      var id, m :| id in subscriptions && m in subscriptions[id].members && DemandOf(m) == d;
      assert MentionsSource(subscriptions[id], key);
    }
  }

  lemma AdvanceKeepsDemand(member: Member, source: Source, event: Event)
    ensures DemandOf(Advance(member, source, event)) == DemandOf(member)
  {
  }

  class Hub {
    var sources: map<int, Source>
    var subscriptions: map<nat, Subscription>
    var order: seq<nat>
    var rrCursor: nat
    var nextId: nat
    ghost var published: map<int, seq<seq<Tick>>>
    ghost var logs: map<nat, seq<Log>>

    /** The order lists every subscription once, and the cursor is one of its indices. */
    ghost predicate OrderSound()
      reads this
    {
      && (forall i, j :: 0 <= i < j < |order| ==> order[i] != order[j])
      && (forall id :: id in order <==> id in subscriptions)
      && (forall id <- order :: id < nextId)
      && (if order == [] then rrCursor == 0 else rrCursor < |order|)
    }

    ghost predicate SourcesSound()
      reads this`sources, this`published
    {
      && published.Keys == sources.Keys
      && forall key <- sources :: RingSound(sources[key], published[key]) && sources[key].terms.maxBatch > 0
    }

    ghost predicate Sound()
      reads this
    {
      && OrderSound() && SourcesSound() && logs.Keys == subscriptions.Keys
      && forall id <- subscriptions :: SubscriptionSound(sources, published, subscriptions[id], logs[id])
    }

    /** ... and every source serves its members. */
    ghost predicate Valid()
      reads this
    {
      Sound() && Served(sources, Demands(subscriptions))
    }

    /** Every source is shared on exactly its members' terms. */
    ghost predicate Exact()
      reads this`sources, this`subscriptions
    {
      Governed(sources, Demands(subscriptions))
    }

    constructor ()
      ensures Valid() && Exact() && sources == map[] && subscriptions == map[] && order == [] && rrCursor == 0
    {
      sources, subscriptions, order, rrCursor, nextId := map[], map[], [], 0, 1;
      published, logs := map[], map[];
    }

    /** The poller hands over fresh ticks of one source. Subscriptions may have joined or left since
        the poll began with this batch limit, so it need not be the limit that governs now. */
    method Publish(key: int, limit: nat, fresh_: seq<Tick>)
      requires Valid() && key in sources && limit > 0
      modifies this`sources, this`published
      ensures Valid() && (old(Exact()) ==> Exact()) && published.Keys == old(published).Keys && old(published)[key] <= published[key]
      ensures Flatten(published[key]) == Flatten(old(published)[key]) + fresh_
      ensures sources == old(sources)[key := sources[key]]
      ensures published == old(published)[key := published[key]]
      ensures sources[key] == old(sources)[key].(nextSequence := sources[key].nextSequence, ring := sources[key].ring)
      ensures sources[key] == PushAll(old(sources)[key], limit, fresh_)
      ensures var added := |published[key]| - |old(published)[key]|;
              && (fresh_ != [] ==> |sources[key].ring| == Min(sources[key].terms.capacity, |old(sources)[key].ring| + added))
              && (forall i :: |published[key]| - added <= i < |published[key]| ==> 0 < |published[key][i]| <= limit)
              && (forall i :: |published[key]| - added <= i < |published[key]| - 1 ==> |published[key][i]| == limit)
    {
      hide RingSound;
      hide MembersSound;
      hide Governed;
      hide Served;
      hide Serves;
      hide Flatten;
      hide PushAll;
      hide Demands;
      RingLength(sources[key], published[key]);
      var after; ghost var history;
      after, history := PublishBatches(sources[key], limit, fresh_, published[key]);
      RingLength(after, history);
      forall id <- subscriptions ensures SubscriptionSound(sources[key := after], published[key := history], subscriptions[id], logs[id]) {
        SourceAdvances(sources, published, subscriptions[id].members, logs[id], key, after, history);
      }
      SameTermsServe(sources, sources[key := after], Demands(subscriptions));
      sources, published := sources[key := after], published[key := history];
    }

    /** The poller changes a source's status or marks its history inconsistent. */
    method Mark(key: int, status: int, rewritten: bool)
      requires Valid() && key in sources
      modifies this`sources
      ensures Valid() && (old(Exact()) ==> Exact())
      ensures sources == old(sources)[key := old(sources)[key].(status := status, epoch := if rewritten then old(sources)[key].epoch + 1 else old(sources)[key].epoch)]
    {
      hide MembersSound;
      hide Governed;
      hide Served;
      var source := sources[key];
      var after := source.(status := status, epoch := if rewritten then source.epoch + 1 else source.epoch);
      forall id <- subscriptions ensures SubscriptionSound(sources[key := after], published, subscriptions[id], logs[id]) {
        SourceAdvances(sources, published, subscriptions[id].members, logs[id], key, after, published[key]);
        assert published[key := published[key]] == published;
      }
      SameTermsServe(sources, sources[key := after], Demands(subscriptions));
      sources := sources[key := after];
    }

    /** Hands one due event to one member and moves both cursors past it. */
    method ServeMember(index: nat, i: nat) returns (event: Event)
      requires Valid() && index < |order| && order[index] in subscriptions && i < |subscriptions[order[index]].members|
      requires subscriptions[order[index]].members[i].source in sources
      requires Due(sources[subscriptions[order[index]].members[i].source], subscriptions[order[index]].members[i], i).Some?
      modifies this`subscriptions, this`rrCursor, this`logs
      ensures Valid() && Demands(subscriptions) == Demands(old(subscriptions))
      ensures ServedState(sources, order, View(old(subscriptions), old(rrCursor), old(logs)), View(subscriptions, rrCursor, logs),
                          order[index], event, index, i)
      ensures TotalBacklog(sources, subscriptions, order) + 1 == TotalBacklog(sources, old(subscriptions), order)
    {
      hide TotalBacklog;
      hide SubscriptionSound;
      hide RingSound;
      hide Due;
      hide Advance;
      hide CoverOf;
      hide Governed;
      hide Demands;
      var id := order[index];
      var sub := subscriptions[id];
      SubscriptionShape(sources, published, sub, logs[id]);
      var source := sources[sub.members[i].source];
      event := Due(source, sub.members[i], i).value;
      MemberServed(sources, published, sub, logs[id], i, Wrap(i + 1, |sub.members|));
      AdvanceKeepsDemand(sub.members[i], source, event);
      ServedBacklog(sources, published, subscriptions, order, id, logs[id], i, Wrap(i + 1, |sub.members|));
      ServedKeepsDemands(subscriptions, id, i, Advance(sub.members[i], source, event), Wrap(i + 1, |sub.members|));
      ghost var log := logs[id];
      logs := logs[id := log[i := Log(log[i].start, log[i].covers + CoverOf(sub.members[i], event))]];
      subscriptions := subscriptions[id := Subscription(sub.members[i := Advance(sub.members[i], source, event)], Wrap(i + 1, |sub.members|))];
      rrCursor := Wrap(index + 1, |order|);
    }

    /** Nothing is due exactly when everybody has caught up, and then there is no backlog. */
    lemma NothingDue()
      requires Valid()
      ensures AllCaughtUp(sources, subscriptions) <==> forall id <- order :: !HasDue(sources, subscriptions[id])
      ensures AllCaughtUp(sources, subscriptions) <==> TotalBacklog(sources, subscriptions, order) == 0
    {
      hide RingSound;
      hide SubscriptionSound;
      hide Served;
      hide Demands;
      hide HasDue;
      hide MembersCaughtUp;
      forall id <- subscriptions
        ensures !HasDue(sources, subscriptions[id]) <==> MembersCaughtUp(sources, subscriptions[id].members)
        ensures Backlogs(sources, subscriptions[id].members) == 0 <==> MembersCaughtUp(sources, subscriptions[id].members)
      {
        NothingDueIff(sources, published, subscriptions[id], logs[id]);
      }
      TotalOfNone(sources, subscriptions, order);
    }

    /** Delivers at most one event: to the subscription nearest the cursor that has one due, and
        within it to the member nearest its own cursor; both cursors then move just past it. */
    method ServeNext() returns (served: Option<(nat, Event)>)
      requires Valid()
      modifies this`subscriptions, this`rrCursor, this`logs
      ensures Valid() && Demands(subscriptions) == Demands(old(subscriptions))
      ensures served.None? ==> View(subscriptions, rrCursor, logs) == View(old(subscriptions), old(rrCursor), old(logs))
      ensures served.None? ==> AllCaughtUp(sources, subscriptions)
      ensures TotalBacklog(sources, subscriptions, order) + (if served.Some? then 1 else 0) == TotalBacklog(sources, old(subscriptions), order)
      ensures served.Some? ==> exists index, i :: ServedAt(sources, order, View(old(subscriptions), old(rrCursor), old(logs)),
                                                           View(subscriptions, rrCursor, logs), served.value.0, served.value.1, index, i)
    {
      hide TotalBacklog;
      hide SubscriptionSound;
      hide SourcesSound;
      hide Due;
      hide HasDue;
      hide Advance;
      hide CoverOf;
      hide ServedState;
      hide Governed;
      hide Wrap;
      ghost var before := View(subscriptions, rrCursor, logs);
      var due := FindDue();
      if due.None? {
        NothingDue();
        return None;
      }
      var (index, member) := due.value;
      var event := ServeMember(index, member);
      assert ServedAt(sources, order, before, View(subscriptions, rrCursor, logs), order[index], event, index, member);
      return Some((order[index], event));
    }

    /** The subscription nearest the cursor with an event due, and its member nearest its own cursor. */
    method FindDue() returns (due: Option<(nat, nat)>)
      requires Valid()
      ensures due.None? ==> forall id <- order :: !HasDue(sources, subscriptions[id])
      ensures due.Some? ==>
                var (index, i) := due.value;
                && index < |order| && rrCursor < |order| && NearestDue(sources, subscriptions[order[index]], i)
                && (forall k :: 0 <= k < |order| && Rank(|order|, rrCursor, k) < Rank(|order|, rrCursor, index) ==>
                      !HasDue(sources, subscriptions[order[k]]))
    {
      hide SubscriptionSound;
      hide SourcesSound;
      hide Due;
      hide HasDue;
      hide NearestDue;
      hide Served;
      hide Demands;
      hide Wrap;
      var n := |order|;
      for offset := 0 to n
        invariant forall k :: 0 <= k < n && Rank(n, rrCursor, k) < offset ==> !HasDue(sources, subscriptions[order[k]])
      {
        var index := Wrap(rrCursor + offset, n);
        RankOfOffset(n, rrCursor, offset);
        var sub := subscriptions[order[index]];
        SubscriptionShape(sources, published, sub, logs[order[index]]);
        var member := FindDueMember(sub);
        if member.Some? {
          return Some((index, member.value));
        }
      }
      return None;
    }

    /** Joins or creates every requested source, then starts each member at its source's next
        batch. Refused, with nothing changed, when a shared source would exceed its tick budget. */
    method Subscribe(keys: seq<int>, terms: Terms) returns (id: Option<nat>)
      requires Valid()
      modifies this`sources, this`subscriptions, this`order, this`nextId, this`rrCursor, this`published, this`logs
      ensures Valid() && (old(Exact()) ==> Exact())
      ensures id.None? ==> sources == old(sources) && subscriptions == old(subscriptions) && order == old(order)
      ensures id.Some? <==> 0 < |keys| <= 1024 && WithinLimits(terms)
      ensures id.Some? ==> sources == Joined(old(sources), keys, terms)
      ensures id.Some? ==> order == old(order) + [id.value] && id.value !in old(subscriptions) && rrCursor == old(rrCursor)
      ensures id.Some? ==> id.value in subscriptions && subscriptions == old(subscriptions)[id.value := subscriptions[id.value]]
      ensures id.Some? ==> subscriptions[id.value].memberCursor == 0
      ensures id.Some? ==> StartsAtEnd(sources, keys, terms, subscriptions[id.value].members)
    {
      hide RingSound;
      hide MembersSound;
      hide BudgetAllows;
      hide Governed;
      hide Serves;
      hide Demands;
      hide Joined;
      var fits := CheckBudget(keys, terms);
      ghost var demands := Demands(subscriptions);
      if WithinLimits(terms) { SharedBudgetAlwaysFits(sources, demands, keys, terms); }
      if |keys| == 0 || |keys| > 1024 || !WithinLimits(terms) || !fits { return None; }
      JoinedGoverned(sources, demands, keys, terms);
      var members; ghost var begun;
      members, begun := JoinAll(keys, terms);
      StartedMembers(sources, keys, terms, members);
      hide StartsAtEnd;
      id := Some(nextId);
      EnlistedDemands(subscriptions, nextId, keys, members, terms);
      Enlist(members, begun);
    }

    /** The whole call. `running` and `stillRunning` are the lifecycle before validation and before
        the mutation, with the lock released in between; `allTicks` is what the terminal's module
        answers when some source leaves its flags open. */
    method SubscribeTicks(request: Request, key: (string, nat) -> int, running: bool, allTicks: Option<nat>, stillRunning: bool)
      returns (id: Option<nat>)
      requires Valid()
      modifies this`sources, this`subscriptions, this`order, this`nextId, this`rrCursor, this`published, this`logs
      ensures Valid() && (old(Exact()) ==> Exact())
      ensures id.Some? <==> running && stillRunning && request.Admissible() && (request.NeedsDefaultFlags() ==> allTicks.Some?)
      ensures id.None? ==> sources == old(sources) && subscriptions == old(subscriptions) && order == old(order)
      ensures id.Some? ==>
                var keys := RequestedKeys(request.sources, key, if allTicks.Some? then allTicks.value else 0);
                && sources == Joined(old(sources), keys, request.Asked())
                && order == old(order) + [id.value] && id.value !in old(subscriptions) && id.value in subscriptions
                && subscriptions == old(subscriptions)[id.value := subscriptions[id.value]]
                && StartsAtEnd(sources, keys, request.Asked(), subscriptions[id.value].members)
    {
      hide Valid;
      hide Exact;
      hide Joined;
      hide StartsAtEnd;
      hide WithinLimits;
      if |request.sources| == 0 || |request.sources| > 1024 || request.reserved != 0 || !running
         || !WithinLimits(request.Asked())
         || request.deliveryFlags > 1 || request.staleAfterMs != 0 {
        return None;
      }
      var needsDefault := false;
      for i := 0 to |request.sources|
        invariant needsDefault <==> exists k :: 0 <= k < i && request.sources[k].flags == 0
        invariant forall k :: 0 <= k < i ==>
                    request.sources[k].symbol != "" && request.sources[k].reserved == 0 && request.sources[k].flags <= 0x7FFF_FFFF
      {
        var source := request.sources[i];
        if source.symbol == "" || source.reserved != 0 || source.flags > 0x7FFF_FFFF {
          return None;
        }
        needsDefault := needsDefault || source.flags == 0;
      }
      assert needsDefault <==> request.NeedsDefaultFlags();
      if needsDefault && allTicks.None? {
        return None;
      }
      if !stillRunning {
        return None;
      }
      id := Subscribe(RequestedKeys(request.sources, key, if allTicks.Some? then allTicks.value else 0), request.Asked());
    }

    /** Whether every shared source keeps within its tick budget when joined. */
    method CheckBudget(keys: seq<int>, terms: Terms) returns (fits: bool)
      ensures fits <==> WithinBudget(sources, keys, terms)
    {
      hide BudgetAllows;
      for i := 0 to |keys|
        invariant forall k :: 0 <= k < i ==> BudgetAllows(sources, keys[k], terms)
      {
        if !BudgetAllows(sources, keys[i], terms) { return false; }
      }
      fits := true;
    }

    /** Adds a started subscription under the next identifier, last in the round. */
    method Enlist(members: seq<Member>, ghost begun: seq<Log>)
      requires Sound() && members != [] && MembersSound(sources, published, members, begun)
      modifies this`subscriptions, this`order, this`nextId, this`logs
      ensures Sound() && order == old(order) + [old(nextId)] && old(nextId) !in old(subscriptions)
      ensures subscriptions == old(subscriptions)[old(nextId) := Subscription(members, 0)]
    {
      hide MembersSound;
      hide SourcesSound;
      ghost var before := order;
      assert nextId !in order;
      subscriptions := subscriptions[nextId := Subscription(members, 0)];
      logs := logs[nextId := begun];
      order := order + [nextId];
      assert forall other :: other in order <==> other in before || other == nextId;
      nextId := nextId + 1;
    }

    /** Joins the sources one after the other; a key that repeats joins the source it just made. */
    method JoinAll(keys: seq<int>, terms: Terms) returns (members: seq<Member>, ghost begun: seq<Log>)
      requires Sound() && 0 < terms.maxBatch && 0 < terms.capacity
      modifies this`sources, this`published
      ensures Sound() && MembersSound(sources, published, members, begun)
      ensures StartsAtEnd(sources, keys, terms, members)
      ensures sources == Joined(old(sources), keys, terms)
    {
      hide RingSound;
      hide MembersSound;
      members, begun := [], [];
      NoMembersSound(sources, published);
      for i := 0 to |keys|
        invariant Sound() && |members| == i && MembersSound(sources, published, members, begun)
        invariant StartsAtEnd(sources, keys[..i], terms, members)
        invariant sources == Joined(old(sources), keys[..i], terms)
      {
        assert keys[..i + 1][..i] == keys[..i];
        var member; ghost var log;
        member, log := JoinOne(keys[i], terms, members, begun);
        members, begun := members + [member], begun + [log];
      }
      assert keys[..|keys|] == keys;
    }

    /** Joins one source and starts a member at its next batch. */
    method JoinOne(key: int, terms: Terms, ghost members: seq<Member>, ghost begun: seq<Log>)
      returns (member: Member, ghost log: Log)
      requires Sound() && 0 < terms.maxBatch && 0 < terms.capacity && MembersSound(sources, published, members, begun)
      modifies this`sources, this`published
      ensures Sound() && MembersSound(sources, published, members + [member], begun + [log])
      ensures sources == old(sources)[key := JoinedSource(old(sources), key, terms)]
      ensures member == Member(key, sources[key].nextSequence, -1, sources[key].epoch, 0, terms)
    {
      hide RingSound;
      hide MembersSound;
      var next := JoinSource(key, terms);
      ghost var history := if key in sources then published[key] else [];
      forall other <- subscriptions ensures SubscriptionSound(sources[key := next], published[key := history], subscriptions[other], logs[other]) {
        SourceAdvances(sources, published, subscriptions[other].members, logs[other], key, next, history);
      }
      SourceAdvances(sources, published, members, begun, key, next, history);
      sources, published := sources[key := next], published[key := history];
      RingLength(next, history);
      member := Member(key, next.nextSequence, -1, next.epoch, 0, terms);
      log := Log(member.next, []);
      MemberJoins(sources, published, members, begun, member);
    }

    /** A new source, or the shared one with the stricter limits. */
    method JoinSource(key: int, terms: Terms) returns (next: Source)
      requires SourcesSound() && 0 < terms.maxBatch && 0 < terms.capacity
      ensures next == JoinedSource(sources, key, terms)
      ensures RingSound(next, if key in sources then published[key] else []) && next.terms.maxBatch > 0
    {
      if key in sources {
        next := sources[key].(terms := sources[key].terms.With(terms));
        LimitsKeepRing(sources[key], published[key], next);
      } else {
        next := Source(1, [], terms, 0, 0);
        NewRing(next);
      }
    }

    /** Drops the subscription, every source nobody uses any more, and the limits that only it asked
        for; the round-robin cursor stays a valid index. */
    method Unsubscribe(id: nat) returns (found: bool)
      requires Valid()
      modifies this`sources, this`subscriptions, this`order, this`rrCursor, this`published, this`logs
      ensures Valid()
      ensures found <==> id in old(subscriptions)
      ensures subscriptions == old(subscriptions) - {id} && (!found ==> order == old(order) && sources == old(sources))
      ensures found ==> order == Without(old(order), id)
      ensures found ==> rrCursor == if order == [] then 0 else old(rrCursor) % |order|
      ensures found ==> forall key :: key in sources <==> key in old(sources) && UsedBy(subscriptions, key)
      ensures forall key <- sources :: key in old(sources) && SameStream(sources[key], old(sources)[key])
      ensures found ==> forall key <- sources ::
                if AllWaitLongest(Demands(subscriptions), key) then sources[key] == old(sources)[key]
                else Governs(Demands(subscriptions), key, sources[key].terms)
    {
      hide Without;
      hide RingSound;
      hide SubscriptionSound;
      hide UsedBy;
      hide Served;
      hide Governs;
      hide AllWaitLongest;
      hide Demands;
      if id !in subscriptions {
        assert subscriptions - {id} == subscriptions;
        return false;
      }
      found := true;
      ghost var demands := Demands(subscriptions);
      RemoveFromOrder(id);
      RemovedDemands(subscriptions, id);
      subscriptions, logs := subscriptions - {id}, logs - {id};
      LeaveSources(demands);
    }

    /** Recomputes every source's limits from the remaining members and drops unused sources. */
    method LeaveSources(ghost demands: set<Demand>)
      requires SourcesSound() && logs.Keys == subscriptions.Keys && forall id :: id in order <==> id in subscriptions
      requires forall id <- subscriptions :: SubscriptionSound(sources, published, subscriptions[id], logs[id])
      requires Served(sources, demands) && Demands(subscriptions) <= demands
      modifies this`sources, this`published
      ensures SourcesSound() && Served(sources, Demands(subscriptions))
      ensures forall id <- subscriptions :: SubscriptionSound(sources, published, subscriptions[id], logs[id])
      ensures forall key :: key in sources <==> key in old(sources) && UsedBy(subscriptions, key)
      ensures forall key <- sources :: key in old(sources) && SameStream(sources[key], old(sources)[key])
      ensures forall key <- sources ::
                if AllWaitLongest(Demands(subscriptions), key) then sources[key] == old(sources)[key]
                else Governs(Demands(subscriptions), key, sources[key].terms)
    {
      hide RingSound;
      hide SubscriptionSound;
      hide UsedBy;
      hide Served;
      hide Governs;
      hide AllWaitLongest;
      hide Demands;
      hide OrderLimits;
      var used := map key | key in sources && OrderLimits(order, subscriptions, key).Some? ::
                    Relimited(sources[key], OrderLimits(order, subscriptions, key));
      ghost var kept := map key | key in used && key in published :: published[key];
      forall key ensures UsedBy(subscriptions, key) <==> OrderLimits(order, subscriptions, key).Some? {
        AllLimitsGovern(order, subscriptions, key);
      }
      RemainingServed(sources, demands, order, subscriptions, used);
      forall key <- used ensures RingSound(used[key], kept[key]) {
        LimitsKeepRing(sources[key], published[key], used[key]);
      }
      forall other <- subscriptions ensures SubscriptionSound(used, kept, subscriptions[other], logs[other]) {
        SourcesDropped(sources, published, used, kept, subscriptions, other, logs[other]);
      }
      sources, published := used, kept;
    }

    method RemoveFromOrder(id: nat)
      requires OrderSound() && id in order
      modifies this`order, this`rrCursor
      ensures order == Without(old(order), id) && rrCursor == if order == [] then 0 else old(rrCursor) % |order|
      ensures forall i, j :: 0 <= i < j < |order| ==> order[i] != order[j]
      ensures forall other :: other in order <==> other in old(order) && other != id
    {
      var kept: seq<nat> := [];
      for i := 0 to |order|
        invariant kept == Without(order[..i], id)
      {
        assert order[..i + 1][..i] == order[..i];
        if order[i] != id { kept := kept + [order[i]]; }
      }
      assert order[..|order|] == order;
      WithoutIsSound(order, id);
      order := kept;
      rrCursor := if order == [] then 0 else rrCursor % |order|;
    }

    /** Delivers events one by one, each to the nearest subscription with one due, until the budget
        is spent, nothing is due, or the callback declines. */
    method ProcessEvents(maxEvents: nat, accepts: (nat, (nat, Event)) -> bool) returns (delivered: nat, ghost trace: seq<Service>)
      requires Valid()
      modifies this`subscriptions, this`rrCursor, this`logs
      ensures Valid() && Demands(subscriptions) == Demands(old(subscriptions))
      ensures |trace| == delivered && Services(order, trace)
      ensures Spans(trace, sources, View(old(subscriptions), old(rrCursor), old(logs)), View(subscriptions, rrCursor, logs))
      ensures forall k :: 0 <= k < delivered - 1 ==> accepts(k + 1, (trace[k].subscriber, trace[k].event))
      ensures maxEvents != 0 ==> delivered <= maxEvents
      ensures var limit := if maxEvents == 0 then TotalBudget(sources, old(subscriptions), order) else maxEvents;
              || delivered == limit
              || (delivered > 0 && !accepts(delivered, (trace[delivered - 1].subscriber, trace[delivered - 1].event)))
              || AllCaughtUp(sources, subscriptions)
      ensures delivered + TotalBacklog(sources, subscriptions, order) == TotalBacklog(sources, old(subscriptions), order)
    {
      hide TotalBacklog, TotalBudget, Spans, Services, AllCaughtUp, OrderSound;
      hide SourcesSound;
      hide SubscriptionSound;
      hide Served;
      hide Demands;
      hide HasDue;
      hide ServedAt;
      var limit := if maxEvents == 0 then TotalBudget(sources, subscriptions, order) else maxEvents;
      delivered, trace := 0, [];
      ghost var start := View(subscriptions, rrCursor, logs);
      NoServices(order, sources, start);
      while delivered < limit
        invariant Valid() && |trace| == delivered <= limit && Demands(subscriptions) == Demands(old(subscriptions))
        invariant delivered + TotalBacklog(sources, subscriptions, order) == TotalBacklog(sources, old(subscriptions), order)
        invariant Services(order, trace) && Spans(trace, sources, start, View(subscriptions, rrCursor, logs))
        invariant forall k :: 0 <= k < delivered ==> accepts(k + 1, (trace[k].subscriber, trace[k].event))
        decreases limit - delivered
      {
        ghost var before := View(subscriptions, rrCursor, logs);
        var served := ServeNext();
        if served.None? { break; }
        ghost var index, i :| ServedAt(sources, order, before, View(subscriptions, rrCursor, logs), served.value.0, served.value.1, index, i);
        ghost var service := Service(sources, before, View(subscriptions, rrCursor, logs), served.value.0, served.value.1, index, i);
        ServiceAdded(order, trace, sources, start, before, service);
        trace := trace + [service];
        delivered := delivered + 1;
        if !accepts(delivered, served.value) { break; }
      }
    }

    method FindDueMember(sub: Subscription) returns (found: Option<nat>)
      requires sub.memberCursor < |sub.members| && forall m <- sub.members :: m.source in sources
      ensures found.Some? ==> NearestDue(sources, sub, found.value)
      ensures found.None? <==> !HasDue(sources, sub)
    {
      hide Due;
      hide Wrap;
      var n := |sub.members|;
      for offset := 0 to n
        invariant forall k :: 0 <= k < n && Rank(n, sub.memberCursor, k) < offset ==> !MemberDue(sources, sub, k)
      {
        var index := Wrap(sub.memberCursor + offset, n);
        RankOfOffset(n, sub.memberCursor, offset);
        if Due(sources[sub.members[index].source], sub.members[index], index).Some? {
          return Some(index);
        }
      }
      return None;
    }
  }

  /** What a hub remembers about its subscribers. */
  datatype View = View(subscriptions: map<nat, Subscription>, rrCursor: nat, logs: map<nat, seq<Log>>)

  /** One event changed exactly one member, its log and the two cursors. */
  ghost predicate ServedState(sources: map<int, Source>, order: seq<nat>, before: View, after: View, id: nat, event: Event, index: int, i: int) {
    && 0 <= index < |order| && id in before.subscriptions && id in before.logs
    && (var sub, log := before.subscriptions[id], before.logs[id];
        && 0 <= i < |sub.members| == |log| && sub.members[i].source in sources
        && Due(sources[sub.members[i].source], sub.members[i], i) == Some(event)
        && after.rrCursor == Wrap(index + 1, |order|)
        && after.subscriptions == before.subscriptions[id :=
             Subscription(sub.members[i := Advance(sub.members[i], sources[sub.members[i].source], event)], Wrap(i + 1, |sub.members|))]
        && after.logs == before.logs[id := log[i := Log(log[i].start, log[i].covers + CoverOf(sub.members[i], event))]])
  }

  /** ... and it went to the subscription nearest the cursor with anything due, and there to the
      member nearest its own cursor. */
  ghost predicate ServedAt(sources: map<int, Source>, order: seq<nat>, before: View, after: View, id: nat, event: Event, index: int, i: int) {
    && 0 <= index < |order| && order[index] == id && before.rrCursor < |order|
    && (forall k :: 0 <= k < |order| && Rank(|order|, before.rrCursor, k) < Rank(|order|, before.rrCursor, index) ==>
          order[k] in before.subscriptions && !HasDue(sources, before.subscriptions[order[k]]))
    && id in before.subscriptions && NearestDue(sources, before.subscriptions[id], i)
    && ServedState(sources, order, before, after, id, event, index, i)
  }

  /** Whether joining a source keeps its retained ticks within the limit. */
  predicate BudgetAllows(sources: map<int, Source>, key: int, terms: Terms) {
    key in sources ==> sources[key].terms.With(terms).maxBatch * sources[key].terms.With(terms).capacity <= MAX_RETAINED_TICKS
  }

  predicate WithinBudget(sources: map<int, Source>, keys: seq<int>, terms: Terms) {
    forall k :: 0 <= k < |keys| ==> BudgetAllows(sources, keys[k], terms)
  }

  /** One member per requested source, each about to receive that source's next batch. */
  predicate StartsAtEnd(sources: map<int, Source>, keys: seq<int>, terms: Terms, members: seq<Member>) {
    && |members| == |keys|
    && forall i :: 0 <= i < |keys| ==>
         && keys[i] in sources
         && members[i] == Member(keys[i], sources[keys[i]].nextSequence, -1, sources[keys[i]].epoch, 0, terms)
  }

  lemma StartedMembers(sources: map<int, Source>, keys: seq<int>, terms: Terms, members: seq<Member>)
    requires StartsAtEnd(sources, keys, terms, members)
    ensures |members| == |keys|
    ensures forall i :: 0 <= i < |keys| ==> DemandOf(members[i]) == Demand(keys[i], terms)
  {
  }

  function RingBudget(sources: map<int, Source>, members: seq<Member>): nat {
    if members == [] then 0
    else
      var last := members[|members| - 1];
      RingBudget(sources, members[..|members| - 1]) + (if last.source in sources then |sources[last.source].ring| else 0) + 1
  }

  /** Events still to come for these members, and for all subscriptions. */
  function Backlogs(sources: map<int, Source>, members: seq<Member>): nat {
    if members == [] then 0
    else
      var last := members[|members| - 1];
      Backlogs(sources, members[..|members| - 1]) + if last.source in sources then Backlog(sources[last.source], last) else 0
  }

  function TotalBacklog(sources: map<int, Source>, subscriptions: map<nat, Subscription>, order: seq<nat>): nat {
    if order == [] then 0
    else
      var last := order[|order| - 1];
      TotalBacklog(sources, subscriptions, order[..|order| - 1])
      + if last in subscriptions then Backlogs(sources, subscriptions[last].members) else 0
  }

  lemma {:induction false} MemberBacklogChanges(sources: map<int, Source>, members: seq<Member>, i: nat, after: Member)
    requires i < |members| && members[i].source == after.source && after.source in sources
    ensures Backlogs(sources, members[i := after]) + Backlog(sources[after.source], members[i])
         == Backlogs(sources, members) + Backlog(sources[after.source], after)
    decreases |members|
  {
    hide Backlog;
    var init := members[..|members| - 1];
    if i == |members| - 1 {
      assert members[i := after][..i] == init;
    } else {
      MemberBacklogChanges(sources, init, i, after);
      assert members[i := after][..|members| - 1] == init[i := after];
    }
  }

  lemma {:induction false} SubscriptionBacklogChanges(sources: map<int, Source>, subscriptions: map<nat, Subscription>, order: seq<nat>,
                                                      id: nat, after: Subscription)
    requires id in subscriptions && forall i, j :: 0 <= i < j < |order| ==> order[i] != order[j]
    ensures var was, is_ := TotalBacklog(sources, subscriptions, order), TotalBacklog(sources, subscriptions[id := after], order);
            if id in order then is_ + Backlogs(sources, subscriptions[id].members) == was + Backlogs(sources, after.members) else is_ == was
    decreases |order|
  {
    hide Backlogs;
    if order != [] {
      var init, last := order[..|order| - 1], order[|order| - 1];
      SubscriptionBacklogChanges(sources, subscriptions, init, id, after);
      assert last !in init && order == init + [last];
    }
  }

  /** Every member of every subscription has caught up with its source. */
  ghost predicate AllCaughtUp(sources: map<int, Source>, subscriptions: map<nat, Subscription>) {
    forall id <- subscriptions :: MembersCaughtUp(sources, subscriptions[id].members)
  }

  ghost predicate MembersCaughtUp(sources: map<int, Source>, members: seq<Member>) {
    forall m <- members :: m.source in sources && CaughtUp(sources[m.source], m)
  }

  ghost predicate RingsSound(sources: map<int, Source>, published: map<int, seq<seq<Tick>>>) {
    published.Keys == sources.Keys && forall key <- sources :: RingSound(sources[key], published[key])
  }

  /** A subscription with nothing due has caught up, and has no backlog. */
  lemma NothingDueIff(sources: map<int, Source>, published: map<int, seq<seq<Tick>>>, sub: Subscription, logs: seq<Log>)
    requires SubscriptionSound(sources, published, sub, logs) && RingsSound(sources, published)
    ensures !HasDue(sources, sub) <==> MembersCaughtUp(sources, sub.members)
    ensures Backlogs(sources, sub.members) == 0 <==> MembersCaughtUp(sources, sub.members)
  {
    hide RingSound;
    hide MemberSound;
    hide Due;
    hide CaughtUp;
    hide Backlog;
    forall i | 0 <= i < |sub.members|
      ensures var m := sub.members[i];
              && (MemberDue(sources, sub, i) <==> !CaughtUp(sources[m.source], m))
              && (Backlog(sources[m.source], m) == 0 <==> CaughtUp(sources[m.source], m))
    {
      var m := sub.members[i];
      DueIff(sources[m.source], published[m.source], m, logs[i], i);
      EventReducesBacklog(sources[m.source], published[m.source], m, logs[i], i);
    }
    if MembersCaughtUp(sources, sub.members) {
      forall i | 0 <= i < |sub.members| ensures !MemberDue(sources, sub, i) {
        assert sub.members[i] in sub.members;
      }
    } else {
      var m :| m in sub.members && !CaughtUp(sources[m.source], m);
      var i :| 0 <= i < |sub.members| && sub.members[i] == m;
      assert MemberDue(sources, sub, i);
    }
    BacklogsOfNone(sources, sub.members);
  }

  lemma {:induction false} BacklogsOfNone(sources: map<int, Source>, members: seq<Member>)
    requires forall m <- members :: m.source in sources
    ensures Backlogs(sources, members) == 0 <==> forall m <- members :: Backlog(sources[m.source], m) == 0
    decreases |members|
  {
    hide Backlog;
    if members != [] {
      var init, last := members[..|members| - 1], members[|members| - 1];
      BacklogsOfNone(sources, init);
      assert members == init + [last];
    }
  }

  lemma {:induction false} TotalOfNone(sources: map<int, Source>, subscriptions: map<nat, Subscription>, order: seq<nat>)
    requires forall id <- order :: id in subscriptions
    ensures TotalBacklog(sources, subscriptions, order) == 0 <==> forall id <- order :: Backlogs(sources, subscriptions[id].members) == 0
    decreases |order|
  {
    hide Backlogs;
    if order != [] {
      var init, last := order[..|order| - 1], order[|order| - 1];
      TotalOfNone(sources, subscriptions, init);
      assert order == init + [last];
    }
  }

  lemma ServedBacklog(sources: map<int, Source>, published: map<int, seq<seq<Tick>>>, subscriptions: map<nat, Subscription>, order: seq<nat>,
                      id: nat, logs: seq<Log>, i: nat, cursor: nat)
    requires id in order && id in subscriptions && SubscriptionSound(sources, published, subscriptions[id], logs)
    requires i < |subscriptions[id].members| && forall i, j :: 0 <= i < j < |order| ==> order[i] != order[j]
    requires RingSound(sources[subscriptions[id].members[i].source], published[subscriptions[id].members[i].source])
    requires Due(sources[subscriptions[id].members[i].source], subscriptions[id].members[i], i).Some?
    ensures var member := subscriptions[id].members[i];
            var source := sources[member.source];
            var after := subscriptions[id].members[i := Advance(member, source, Due(source, member, i).value)];
            TotalBacklog(sources, subscriptions[id := Subscription(after, cursor)], order) + 1 == TotalBacklog(sources, subscriptions, order)
  {
    hide MemberSound;
    hide RingSound;
    hide Due;
    hide Advance;
    hide Backlog;
    var members := subscriptions[id].members;
    var source := sources[members[i].source];
    var next := Advance(members[i], source, Due(source, members[i], i).value);
    EventReducesBacklog(source, published[members[i].source], members[i], logs[i], i);
    AdvanceKeepsSource(members[i], source, Due(source, members[i], i).value);
    MemberBacklogChanges(sources, members, i, next);
    SubscriptionBacklogChanges(sources, subscriptions, order, id, Subscription(members[i := next], cursor));
  }

  predicate UsedBy(subscriptions: map<nat, Subscription>, key: int) {
    exists id <- subscriptions :: MentionsSource(subscriptions[id], key)
  }

  predicate MentionsSource(sub: Subscription, key: int) {
    exists m <- sub.members :: m.source == key
  }

  /** Equal but for the limits. */
  predicate SameStream(a: Source, b: Source) {
    a == b.(terms := a.terms)
  }

  /** The remaining members' terms, unless the shortest interval among them looks like none at all:
      then the source keeps its terms. */
  function Relimited(source: Source, limits: Limits): Source
    requires limits.Some?
  {
    if limits.value.intervalMs == LONGEST then source else source.(terms := limits.value)
  }

  /** Every member of this source asks for the longest interval. */
  ghost predicate AllWaitLongest(demands: set<Demand>, key: int) {
    forall d <- demands :: d.source == key ==> d.terms.intervalMs == LONGEST
  }

  /** The order without one entry, the others as they were. */
  function Without(order: seq<nat>, id: nat): seq<nat> {
    if order == [] then []
    else Without(order[..|order| - 1], id) + if order[|order| - 1] == id then [] else [order[|order| - 1]]
  }

  lemma {:induction false} WithoutIsSound(order: seq<nat>, id: nat)
    requires forall i, j :: 0 <= i < j < |order| ==> order[i] != order[j]
    ensures forall other :: other in Without(order, id) <==> other in order && other != id
    ensures forall i, j :: 0 <= i < j < |Without(order, id)| ==> Without(order, id)[i] != Without(order, id)[j]
    decreases |order|
  {
    if order != [] {
      var init, last := order[..|order| - 1], order[|order| - 1];
      WithoutIsSound(init, id);
      assert last !in init && order == init + [last];
      assert last !in Without(init, id);
    }
  }

  /** Only that entry is gone, and every other one keeps its place in the round. */
  lemma {:induction false} WithoutIsSlice(order: seq<nat>, at: nat)
    requires at < |order| && forall i, j :: 0 <= i < j < |order| ==> order[i] != order[j]
    ensures Without(order, order[at]) == order[..at] + order[at + 1..]
    decreases |order|
  {
    var init, last := order[..|order| - 1], order[|order| - 1];
    if at == |order| - 1 {
      NothingToLeaveOut(init, last);
    } else {
      WithoutIsSlice(init, at);
      assert init[..at] + init[at + 1..] + [last] == order[..at] + order[at + 1..];
    }
  }

  lemma {:induction false} NothingToLeaveOut(order: seq<nat>, id: nat)
    requires id !in order
    ensures Without(order, id) == order
    decreases |order|
  {
    if order != [] {
      NothingToLeaveOut(order[..|order| - 1], id);
      assert order == order[..|order| - 1] + [order[|order| - 1]];
    }
  }

  lemma RemovedDemands(subscriptions: map<nat, Subscription>, id: nat)
    ensures Demands(subscriptions - {id}) <= Demands(subscriptions)
  {
    forall d | d in Demands(subscriptions - {id}) ensures d in Demands(subscriptions) {
      var k, m :| k in subscriptions - {id} && m in (subscriptions - {id})[k].members && DemandOf(m) == d;
      assert k in subscriptions && m in subscriptions[k].members;
    }
  }

  lemma RemainingServed(sources: map<int, Source>, demands: set<Demand>, order: seq<nat>, subscriptions: map<nat, Subscription>,
                        used: map<int, Source>)
    requires Served(sources, demands) && Demands(subscriptions) <= demands
    requires forall id :: id in order <==> id in subscriptions
    requires forall key :: key in used <==> key in sources && OrderLimits(order, subscriptions, key).Some?
    requires forall key <- used :: used[key] == Relimited(sources[key], OrderLimits(order, subscriptions, key))
    ensures Served(used, Demands(subscriptions)) && forall key <- used :: used[key].terms.maxBatch > 0 && used[key].terms.capacity > 0
    ensures forall key <- used ::
              if AllWaitLongest(Demands(subscriptions), key) then used[key] == sources[key]
              else Governs(Demands(subscriptions), key, used[key].terms)
  {
    hide OrderLimits;
    hide Demands;
    hide WithinLimits;
    var remaining := Demands(subscriptions);
    forall key <- used
      ensures Serves(remaining, key, used[key].terms)
      ensures if AllWaitLongest(remaining, key) then used[key] == sources[key] else Governs(remaining, key, used[key].terms)
    {
      AllLimitsGovern(order, subscriptions, key);
      RelimitedServes(sources[key], demands, remaining, key, OrderLimits(order, subscriptions, key));
    }
    forall d <- remaining ensures d.source in used {
      AllLimitsGovern(order, subscriptions, d.source);
    }
  }

  lemma RelimitedServes(source: Source, demands: set<Demand>, remaining: set<Demand>, key: int, limits: Limits)
    requires Serves(demands, key, source.terms) && remaining <= demands && forall d <- remaining :: WithinLimits(d.terms)
    requires limits.Some? && Governs(remaining, key, limits.value)
    ensures var terms := Relimited(source, limits).terms;
            && Serves(remaining, key, terms)
            && if AllWaitLongest(remaining, key) then Relimited(source, limits) == source else Governs(remaining, key, terms)
  {
    GoverningServes(remaining, key, limits.value);
  }

  lemma JoinedAlone(sources: map<int, Source>, key: int, terms: Terms)
    ensures Joined(sources, [key], terms) == sources[key := JoinedSource(sources, key, terms)]
  {
    assert Joined(sources, [key][..0], terms) == sources;
  }

  /** That happens: of two members sharing a source the one with the stricter batch limit leaves, and
      the other, who asks for the longest interval, goes on under limits that nobody asks for. */
  lemma LongestIntervalLapses(key: int, gone: Terms, mine: Terms)
    requires mine.intervalMs == LONGEST && gone.maxBatch < mine.maxBatch
    ensures var shared := Joined(Joined(map[], [key], gone), [key], mine)[key];
            var member := Member(key, shared.nextSequence, -1, shared.epoch, 0, mine);
            var after := Relimited(shared, MemberLimits([member], key));
            after.terms == gone.With(mine) && !Governs({DemandOf(member)}, key, after.terms)
  {
    JoinedAlone(map[], key, gone);
    JoinedAlone(Joined(map[], [key], gone), key, mine);
    var member := Member(key, 1, -1, 0, 0, mine);
    assert [member][..0] == [];
    assert MemberLimits([member], key) == Some(mine);
  }

  lemma GoverningServes(demands: set<Demand>, key: int, terms: Terms)
    requires Governs(demands, key, terms) && forall d <- demands :: WithinLimits(d.terms)
    ensures Serves(demands, key, terms)
  {
    var a :| a in demands && a.source == key && a.terms.maxBatch == terms.maxBatch;
    var c :| c in demands && c.source == key && c.terms.capacity == terms.capacity;
    MulMonotone(terms.maxBatch, c.terms.maxBatch, c.terms.capacity);
  }

  lemma SourcesDropped(sources: map<int, Source>, published: map<int, seq<seq<Tick>>>, used: map<int, Source>,
                       kept: map<int, seq<seq<Tick>>>, subscriptions: map<nat, Subscription>, id: nat, logs: seq<Log>)
    requires id in subscriptions && SubscriptionSound(sources, published, subscriptions[id], logs)
    requires forall key :: key in used <==> key in sources && UsedBy(subscriptions, key)
    requires forall key :: key in kept <==> key in published && key in used
    requires (forall key <- used :: SameStream(used[key], sources[key])) && (forall key <- kept :: kept[key] == published[key])
    ensures SubscriptionSound(used, kept, subscriptions[id], logs)
  {
    hide Tiles;
    hide DroppedBatches;
    var sub := subscriptions[id];
    forall i | 0 <= i < |sub.members| ensures UsedBy(subscriptions, sub.members[i].source) {
      assert sub.members[i] in sub.members;
      assert MentionsSource(sub, sub.members[i].source);
    }
  }

  lemma NoMembersSound(sources: map<int, Source>, published: map<int, seq<seq<Tick>>>)
    ensures MembersSound(sources, published, [], [])
  {
  }

  lemma LimitsKeepRing(source: Source, published: seq<seq<Tick>>, after: Source)
    requires RingSound(source, published) && after.ring == source.ring && after.nextSequence == source.nextSequence
    requires after.terms.capacity > 0
    ensures RingSound(after, published)
  {
  }

  lemma NewRing(source: Source)
    requires source.ring == [] && source.nextSequence == 1 && source.terms.capacity > 0
    ensures RingSound(source, [])
  {
  }

  lemma MemberJoins(sources: map<int, Source>, published: map<int, seq<seq<Tick>>>, members: seq<Member>, logs: seq<Log>, member: Member)
    requires MembersSound(sources, published, members, logs) && member.source in sources && member.source in published
    requires member.next == sources[member.source].nextSequence >= 1 && member.dropped == 0
    ensures MembersSound(sources, published, members + [member], logs + [Log(member.next, [])])
  {
    assert MemberSound(sources[member.source], published[member.source], member, Log(member.next, []));
    hide MemberSound;
  }

  predicate MemberDue(sources: map<int, Source>, sub: Subscription, i: int) {
    0 <= i < |sub.members| && sub.members[i].source in sources && Due(sources[sub.members[i].source], sub.members[i], i).Some?
  }

  ghost predicate HasDue(sources: map<int, Source>, sub: Subscription) {
    exists i :: MemberDue(sources, sub, i)
  }

  /** The member with an event due that comes first from the subscription's own cursor. */
  ghost predicate NearestDue(sources: map<int, Source>, sub: Subscription, i: int) {
    && MemberDue(sources, sub, i) && sub.memberCursor < |sub.members|
    && forall k :: 0 <= k < |sub.members| && Rank(|sub.members|, sub.memberCursor, k) < Rank(|sub.members|, sub.memberCursor, i) ==>
         !MemberDue(sources, sub, k)
  }

  lemma RankOfOffset(n: nat, cursor: nat, offset: nat)
    requires cursor < n && offset < n
    ensures Rank(n, cursor, Wrap(cursor + offset, n)) == offset
    ensures forall k :: 0 <= k < n && Rank(n, cursor, k) == offset ==> k == Wrap(cursor + offset, n)
  {
    hide Wrap;
  }

  lemma SubscriptionShape(sources: map<int, Source>, published: map<int, seq<seq<Tick>>>, sub: Subscription, logs: seq<Log>)
    requires SubscriptionSound(sources, published, sub, logs)
    ensures sub.memberCursor < |sub.members| == |logs| && forall m <- sub.members :: m.source in sources && m.source in published
  {
  }

  lemma RingLength(source: Source, published: seq<seq<Tick>>)
    requires RingSound(source, published)
    ensures source.nextSequence == |published| + 1 && source.terms.capacity > 0
  {
  }

  /** In the hub's own terms: while anybody else is served, a subscription with an event due moves
      strictly closer to the cursor. */
  lemma ServedElsewhereIsCloser(sources: map<int, Source>, order: seq<nat>, before: View, after: View, id: nat, event: Event,
                                index: int, i: int, waiting: nat)
    requires ServedAt(sources, order, before, after, id, event, index, i)
    requires waiting < |order| && waiting != index && order[waiting] in before.subscriptions
    requires HasDue(sources, before.subscriptions[order[waiting]])
    ensures after.rrCursor < |order| && Rank(|order|, after.rrCursor, waiting) < Rank(|order|, before.rrCursor, waiting)
  {
    hide HasDue;
    hide Wrap;
    hide Due;
    hide Advance;
    hide CoverOf;
  }

  /** Room for every retained batch of every member, and one more event each. */
  function TotalBudget(sources: map<int, Source>, subscriptions: map<nat, Subscription>, order: seq<nat>): nat {
    if order == [] then 0
    else
      var last := order[|order| - 1];
      TotalBudget(sources, subscriptions, order[..|order| - 1])
      + (if last in subscriptions then RingBudget(sources, subscriptions[last].members) else 0)
  }

  /** One delivered event with what the hub looked like around it. */
  datatype Service = Service(
    sources: map<int, Source>, before: View, after: View, subscriber: nat, event: Event, index: int, member: int)

  /** Consecutive events of one hub whose subscriptions stay the same; sources may change between. */
  ghost predicate Services(order: seq<nat>, trace: seq<Service>) {
    && (forall k :: 0 <= k < |trace| ==> (var s := trace[k];
          ServedAt(s.sources, order, s.before, s.after, s.subscriber, s.event, s.index, s.member)))
    && (forall k :: 0 < k < |trace| ==> trace[k].before.rrCursor == trace[k - 1].after.rrCursor)
  }

  /** The trace starts and ends in these views and sees these sources throughout. */
  ghost predicate Spans(trace: seq<Service>, sources: map<int, Source>, start: View, end: View) {
    && (if trace == [] then start == end else trace[0].before == start && trace[|trace| - 1].after == end)
    && (forall k :: 0 <= k < |trace| ==> trace[k].sources == sources)
    && (forall k :: 0 < k < |trace| ==> trace[k].before == trace[k - 1].after)
  }

  lemma NoServices(order: seq<nat>, sources: map<int, Source>, view: View)
    ensures Services(order, []) && Spans([], sources, view, view)
  {
  }

  lemma ServiceAdded(order: seq<nat>, trace: seq<Service>, sources: map<int, Source>, start: View, before: View, s: Service)
    requires Services(order, trace) && Spans(trace, sources, start, before) && s.before == before && s.sources == sources
    requires ServedAt(s.sources, order, s.before, s.after, s.subscriber, s.event, s.index, s.member)
    ensures Services(order, trace + [s]) && Spans(trace + [s], sources, start, s.after)
  {
    hide ServedAt;
  }

  ghost predicate AlwaysDue(order: seq<nat>, trace: seq<Service>, waiting: nat)
    requires waiting < |order|
  {
    forall k :: 0 <= k < |trace| ==>
      order[waiting] in trace[k].before.subscriptions && HasDue(trace[k].sources, trace[k].before.subscriptions[order[waiting]])
  }

  /** Bounded waiting: a subscription that has an event due throughout is served within as many
      events as its cyclic distance from the cursor, hence within one round of all subscriptions. */
  lemma {:induction false} ServedInTime(order: seq<nat>, trace: seq<Service>, waiting: nat)
    requires Services(order, trace) && waiting < |order| && AlwaysDue(order, trace, waiting) && trace != []
    requires trace[0].before.rrCursor < |order| && |trace| > Rank(|order|, trace[0].before.rrCursor, waiting)
    ensures Rank(|order|, trace[0].before.rrCursor, waiting) < |order|
    ensures exists k :: 0 <= k <= Rank(|order|, trace[0].before.rrCursor, waiting) && trace[k].index == waiting
    decreases |trace|
  {
    hide HasDue;
    hide ServedAt;
    var s := trace[0];
    if s.index != waiting {
      ServedElsewhereIsCloser(s.sources, order, s.before, s.after, s.subscriber, s.event, s.index, s.member, waiting);
      ServedInTime(order, trace[1..], waiting);
      var k :| 0 <= k <= Rank(|order|, trace[1..][0].before.rrCursor, waiting) && trace[1..][k].index == waiting;
      assert trace[k + 1].index == waiting;
    }
  }
}
