/** Lossless range traversal over an inclusive-from, count-limited tick server
    (visit_ticks_range, src/bridge/mt5_bridge.cpp:1987-2157). */
module TickPagination {
  import opened MachineWords

  const TICK_PAGE_SIZE: nat := 65536
  const SHORT_PAGE_PROBES: nat := 2
  const PARTIAL_PAGE_LIMIT: nat := 3
  const INT_MAX: nat := 0x7FFF_FFFF

  /** Ticks with equal fields share one payload key. */
  datatype Tick = Tick(timeMsc: int, payload: int)

  /** One server read: refused, provisional, or a page that may be trusted. */
  datatype Reply = Reply(ok: bool, partial: bool, page: seq<Tick>)

  /** What the server answers to read number i for `count` ticks from `cursor` on. */
  type Server = (nat, int, nat) -> Reply

  /** Whether the consumer accepts batch number i. */
  type Consumer = (nat, seq<Tick>) -> bool

  ghost predicate SortedByTime(s: seq<Tick>) {
    forall i, j :: 0 <= i < j < |s| ==> s[i].timeMsc <= s[j].timeMsc
  }

  lemma OneIsSorted(s: seq<Tick>)
    requires |s| <= 1
    ensures SortedByTime(s)
  {
  }

  lemma SortedPair(s: seq<Tick>, i: nat, j: nat)
    requires SortedByTime(s) && i <= j < |s|
    ensures s[i].timeMsc <= s[j].timeMsc
  {
  }

  lemma PrefixGrows(s: seq<Tick>, i: nat)
    requires i < |s|
    ensures multiset(s[..i + 1]) == multiset(s[..i]) + multiset{s[i]}
  {
    assert s[..i + 1] == s[..i] + [s[i]];
  }

  lemma SortedJoin(a: seq<Tick>, b: seq<Tick>)
    requires SortedByTime(a) && SortedByTime(b)
    requires a != [] && b != [] ==> a[|a| - 1].timeMsc <= b[0].timeMsc
    ensures SortedByTime(a + b)
  {
  }

  predicate Within(t: Tick, from: int, to: int) {
    from <= t.timeMsc <= to
  }

  /** The ticks of s that satisfy p, with their multiplicities. */
  function Matching(s: seq<Tick>, p: Tick -> bool): (m: multiset<Tick>)
    ensures forall t: Tick :: m[t] == if p(t) then multiset(s)[t] else 0
  {
    if s == [] then multiset{}
    else
      assert s == [s[0]] + s[1..];
      Matching(s[1..], p) + if p(s[0]) then multiset{s[0]} else multiset{}
  }

  ghost function FromOn(history: seq<Tick>, cursor: int): multiset<Tick> {
    Matching(history, (t: Tick) => t.timeMsc >= cursor)
  }

  ghost function After(history: seq<Tick>, cursor: int): multiset<Tick> {
    Matching(history, (t: Tick) => t.timeMsc > cursor)
  }

  ghost function At(history: seq<Tick>, time: int): multiset<Tick> {
    Matching(history, (t: Tick) => t.timeMsc == time)
  }

  /** What a lossless traversal delivers. */
  ghost function InRange(history: seq<Tick>, from: int, to: int): multiset<Tick> {
    Matching(history, (t: Tick) => Within(t, from, to))
  }

  // ----- what the environment may do

  /** However the history grows between reads, `history` is its final extent. */
  ghost predicate Growing(server: Server, history: seq<Tick>) {
    forall i: nat, cursor: int, count: nat ::
      SortedByTime(server(i, cursor, count).page) && multiset(server(i, cursor, count).page) <= multiset(history)
  }

  /** The `count` earliest ticks at or after the cursor; ties in any order. */
  ghost predicate Earliest(page: seq<Tick>, history: seq<Tick>, cursor: int, count: nat) {
    && multiset(page) <= FromOn(history, cursor)
    && |page| == Min(count, |FromOn(history, cursor)|)
    && forall t: Tick | page != [] && cursor <= t.timeMsc < page[|page| - 1].timeMsc ::
         multiset(page)[t] == multiset(history)[t]
  }

  /** Every trusted page is exact for one fixed history. */
  ghost predicate Fixed(server: Server, history: seq<Tick>) {
    forall i: nat, cursor: int, count: nat :: var reply := server(i, cursor, count);
      reply.ok && !reply.partial ==> Earliest(reply.page, history, cursor, count)
  }

  ghost predicate Reliable(server: Server, consumer: Consumer) {
    && (forall i: nat, cursor: int, count: nat :: server(i, cursor, count).ok && !server(i, cursor, count).partial)
    && (forall i: nat, batch: seq<Tick> :: consumer(i, batch))
  }

  /** No in-range timestamp has so many ticks that a page request would overflow. */
  ghost predicate TieGroupsFit(history: seq<Tick>, from: int, to: int) {
    forall time: int | from <= time <= to :: |At(history, time)| <= INT_MAX - TICK_PAGE_SIZE
  }

  /** Some timestamp after the range fills a whole page on its own. */
  ghost predicate LateBurst(history: seq<Tick>, from: int, to: int) {
    exists time: int :: LateBurstAt(history, from, to, time)
  }

  ghost predicate LateBurstAt(history: seq<Tick>, from: int, to: int, time: int) {
    time > to && time >= from && |At(history, time)| >= TICK_PAGE_SIZE
  }

  /** Some in-range timestamp has too many ticks for any page that also holds a later one. */
  ghost predicate OversizedAt(history: seq<Tick>, from: int, to: int, time: int) {
    from <= time <= to && |At(history, time)| >= INT_MAX
  }

  /** The last ticks of the history are in range and too many to be read once more. */
  ghost predicate EndsOversized(history: seq<Tick>, from: int, to: int) {
    exists time: int :: EndsOversizedAt(history, from, to, time)
  }

  ghost predicate EndsOversizedAt(history: seq<Tick>, from: int, to: int, time: int) {
    from <= time <= to && |At(history, time)| > INT_MAX - TICK_PAGE_SIZE && After(history, time) == multiset{}
  }

  /** So many ticks of one timestamp were delivered that the next page request would overflow. */
  ghost predicate Overfull(delivered: seq<Tick>, from: int, to: int) {
    exists time: int :: from <= time <= to && |At(delivered, time)| > INT_MAX - TICK_PAGE_SIZE
  }

  /** What no traversal of a fixed history gets past. */
  ghost predicate Impasse(history: seq<Tick>, from: int, to: int) {
    exists time: int :: ImpasseAt(history, from, to, time)
  }

  ghost predicate ImpasseAt(history: seq<Tick>, from: int, to: int, time: int) {
    LateBurstAt(history, from, to, time) || OversizedAt(history, from, to, time)
  }

  /** With tie groups that fit a page, late bursts are the only impasses. */
  lemma ImpasseIsLateBurst(history: seq<Tick>, from: int, to: int)
    ensures LateBurst(history, from, to) ==> Impasse(history, from, to)
    ensures TieGroupsFit(history, from, to) ==> (Impasse(history, from, to) <==> LateBurst(history, from, to)) && !EndsOversized(history, from, to)
  {
    if LateBurst(history, from, to) {
      var time: int :| LateBurstAt(history, from, to, time);
      assert ImpasseAt(history, from, to, time);
    }
    if TieGroupsFit(history, from, to) && Impasse(history, from, to) {
      var time: int :| ImpasseAt(history, from, to, time);
      assert LateBurstAt(history, from, to, time);
    }
  }

  /** A failure on a fixed history: here nothing at all is in range, yet the
      65536 ticks one millisecond later make the traversal report an error. */
  lemma LateBurstExists()
    ensures var history := seq(TICK_PAGE_SIZE, (i: nat) => Tick(1, i));
            LateBurst(history, 0, 0) && InRange(history, 0, 0) == multiset{}
  {
    var history := seq(TICK_PAGE_SIZE, (i: nat) => Tick(1, i));
    assert forall t: Tick :: t in history ==> t.timeMsc == 1;
    forall t: Tick ensures At(history, 1)[t] == multiset(history)[t] && InRange(history, 0, 0)[t] == 0 {
      assert multiset(history)[t] > 0 ==> t in history;
    }
    assert At(history, 1) == multiset(history);
    assert LateBurstAt(history, 0, 0, 1);
  }

  // ----- multiset arithmetic

  lemma SubmultisetSize(a: multiset<Tick>, b: multiset<Tick>)
    requires a <= b
    ensures |a| <= |b|
    ensures |a| == |b| ==> a == b
  {
    assert b == a + (b - a);
  }

  function Excess(a: nat, b: nat): nat {
    if a > b then a - b else 0
  }

  // ----- one page

  /** Deliverable multiplicity of t on a page read at a cursor with a consumed boundary. */
  function FreshCount(t: Tick, onPage: nat, from: int, to: int, cursor: int, boundary: multiset<Tick>): nat {
    if !Within(t, from, to) || t.timeMsc < cursor then 0
    else if t.timeMsc == cursor then Excess(onPage, boundary[t])
    else onPage
  }

  /** `deliver` is what is new on a page with multiplicities `onPage`, and `next` the part
      of it that carries the last timestamp. */
  ghost predicate IsFresh(deliver: multiset<Tick>, next: multiset<Tick>, onPage: multiset<Tick>, last: int,
                          from: int, to: int, cursor: int, boundary: multiset<Tick>) {
    && (forall t: Tick :: deliver[t] == FreshCount(t, onPage[t], from, to, cursor, boundary))
    && (forall t: Tick :: next[t] == if t.timeMsc == last then deliver[t] else 0)
  }

  /** Boundary occurrences that a page with multiplicities `onPage` has not yet matched. */
  ghost predicate Unmatched(remaining: multiset<Tick>, onPage: multiset<Tick>,
                            from: int, to: int, cursor: int, boundary: multiset<Tick>) {
    forall t: Tick | Within(t, from, to) && t.timeMsc == cursor :: remaining[t] == Excess(boundary[t], onPage[t])
  }

  lemma OneTick(deliver: multiset<Tick>, next: multiset<Tick>, remaining: multiset<Tick>, onPage: multiset<Tick>,
                tick: Tick, last: int, from: int, to: int, cursor: int, boundary: multiset<Tick>)
    requires IsFresh(deliver, next, onPage, last, from, to, cursor, boundary)
    requires Unmatched(remaining, onPage, from, to, cursor, boundary)
    ensures var seen := onPage + multiset{tick};
            && (Within(tick, from, to) && tick.timeMsc == cursor && remaining[tick] != 0 ==>
                  && IsFresh(deliver, next, seen, last, from, to, cursor, boundary)
                  && Unmatched(remaining[tick := remaining[tick] - 1], seen, from, to, cursor, boundary))
            && (!Within(tick, from, to) || tick.timeMsc < cursor ==>
                  && IsFresh(deliver, next, seen, last, from, to, cursor, boundary)
                  && Unmatched(remaining, seen, from, to, cursor, boundary))
            && (Within(tick, from, to) && tick.timeMsc >= cursor && (tick.timeMsc > cursor || remaining[tick] == 0) ==>
                  && IsFresh(deliver + multiset{tick}, if tick.timeMsc == last then next + multiset{tick} else next,
                             seen, last, from, to, cursor, boundary)
                  && Unmatched(remaining, seen, from, to, cursor, boundary))
  {
  }

  /** Destructive matching against a copy of the boundary selects the new ticks of a page. */
  method SelectFresh(page: seq<Tick>, from: int, to: int, cursor: int, boundary: multiset<Tick>)
    returns (deliver: seq<Tick>, next: multiset<Tick>)
    requires page != [] && SortedByTime(page)
    ensures IsFresh(multiset(deliver), next, multiset(page), page[|page| - 1].timeMsc, from, to, cursor, boundary)
    ensures SortedByTime(deliver)
  {
    hide IsFresh;
    hide Unmatched;
    hide SortedByTime;
    hide FreshCount;
    hide Excess;
    var last := page[|page| - 1].timeMsc;
    var remaining := boundary;
    deliver, next := [], multiset{};
    NothingYet(last, from, to, cursor, boundary);
    OneIsSorted(deliver);
    for i := 0 to |page|
      invariant IsFresh(multiset(deliver), next, multiset(page[..i]), last, from, to, cursor, boundary)
      invariant Unmatched(remaining, multiset(page[..i]), from, to, cursor, boundary)
      invariant SortedByTime(deliver)
      invariant deliver != [] && i < |page| ==> deliver[|deliver| - 1].timeMsc <= page[i].timeMsc
    {
      var tick := page[i];
      if i + 1 < |page| { SortedPair(page, i, i + 1); }
      OneTick(multiset(deliver), next, remaining, multiset(page[..i]), tick, last, from, to, cursor, boundary);
      PrefixGrows(page, i);
      if tick.timeMsc < from || tick.timeMsc > to { continue; }
      if tick.timeMsc < cursor { continue; }
      if tick.timeMsc == cursor {
        if remaining[tick] != 0 {
          remaining := remaining[tick := remaining[tick] - 1];
          continue;
        }
        if last == cursor { next := next + multiset{tick}; }
      } else if tick.timeMsc == last {
        next := next + multiset{tick};
      }
      OneIsSorted([tick]);
      SortedJoin(deliver, [tick]);
      deliver := deliver + [tick];
    }
    assert page[..|page|] == page;
  }

  lemma NothingYet(last: int, from: int, to: int, cursor: int, boundary: multiset<Tick>)
    ensures IsFresh(multiset{}, multiset{}, multiset{}, last, from, to, cursor, boundary)
    ensures Unmatched(boundary, multiset{}, from, to, cursor, boundary)
  {
  }

  // ----- what every prefix of a traversal keeps

  /** Delivered ticks d are in range, no more than the history holds, none after the cursor;
      the boundary is exactly what was delivered at the cursor. */
  ghost predicate Taken(history: seq<Tick>, from: int, to: int, cursor: int, boundary: multiset<Tick>, d: multiset<Tick>) {
    && cursor >= from
    && (forall t: Tick :: d[t] <= multiset(history)[t])
    && (forall t: Tick | d[t] > 0 :: Within(t, from, to) && t.timeMsc <= cursor)
    && (forall t: Tick :: boundary[t] == if t.timeMsc == cursor then d[t] else 0)
  }

  /** Nothing before the cursor is missing. */
  ghost predicate Caught(history: seq<Tick>, from: int, to: int, cursor: int, d: multiset<Tick>) {
    forall t: Tick | Within(t, from, to) && t.timeMsc < cursor :: d[t] == multiset(history)[t]
  }

  lemma LastIsLatest(page: seq<Tick>)
    requires page != [] && SortedByTime(page)
    ensures forall t: Tick :: multiset(page)[t] > 0 ==> t.timeMsc <= page[|page| - 1].timeMsc
  {
    forall t: Tick | multiset(page)[t] > 0 ensures t.timeMsc <= page[|page| - 1].timeMsc {
      assert t in page;
    }
  }

  lemma TakenAdvances(history: seq<Tick>, from: int, to: int, cursor: int, boundary: multiset<Tick>, d: multiset<Tick>,
                      onPage: multiset<Tick>, last: int, deliver: multiset<Tick>, next: multiset<Tick>)
    requires Taken(history, from, to, cursor, boundary, d) && onPage <= multiset(history)
    requires forall t: Tick :: onPage[t] > 0 ==> t.timeMsc <= last
    requires IsFresh(deliver, next, onPage, last, from, to, cursor, boundary)
    ensures last >= cursor ==>
              Taken(history, from, to, last, if last == cursor then boundary + next else next, d + deliver)
    ensures forall t: Tick :: (d + deliver)[t] <= multiset(history)[t] && ((d + deliver)[t] > 0 ==> Within(t, from, to))
    ensures forall t: Tick | deliver[t] > 0 :: Within(t, from, to) && cursor <= t.timeMsc
    ensures next <= deliver && (last == cursor ==> next == deliver)
    ensures last < cursor ==> deliver == multiset{}
  {
    hide Within;
  }

  lemma CaughtAdvances(history: seq<Tick>, from: int, to: int, cursor: int, boundary: multiset<Tick>, d: multiset<Tick>,
                       page: seq<Tick>, count: nat, deliver: multiset<Tick>, next: multiset<Tick>)
    requires Taken(history, from, to, cursor, boundary, d) && Caught(history, from, to, cursor, d)
    requires page != [] && Earliest(page, history, cursor, count)
    requires IsFresh(deliver, next, multiset(page), page[|page| - 1].timeMsc, from, to, cursor, boundary)
    ensures Caught(history, from, to, page[|page| - 1].timeMsc, d + deliver)
  {
    hide Within;
  }

  /** A page that is not full holds everything from the cursor on. */
  lemma ShortPageIsAll(history: seq<Tick>, cursor: int, page: seq<Tick>, count: nat)
    requires Earliest(page, history, cursor, count) && |page| < count
    ensures multiset(page) == FromOn(history, cursor)
  {
    SubmultisetSize(multiset(page), FromOn(history, cursor));
  }

  lemma ShortPageCompletes(history: seq<Tick>, from: int, to: int, cursor: int, boundary: multiset<Tick>, d: multiset<Tick>,
                           page: seq<Tick>, last: int, count: nat, deliver: multiset<Tick>, next: multiset<Tick>)
    requires Taken(history, from, to, cursor, boundary, d) && Caught(history, from, to, cursor, d)
    requires Earliest(page, history, cursor, count) && |page| < count
    requires IsFresh(deliver, next, multiset(page), last, from, to, cursor, boundary)
    ensures d + deliver == InRange(history, from, to)
  {
    hide Within;
    hide Earliest;
    ShortPageIsAll(history, cursor, page, count);
    forall t: Tick ensures (d + deliver)[t] == InRange(history, from, to)[t] {}
  }

  lemma EmptyPageCompletes(history: seq<Tick>, from: int, to: int, cursor: int, boundary: multiset<Tick>, d: multiset<Tick>, count: nat)
    requires Taken(history, from, to, cursor, boundary, d) && Caught(history, from, to, cursor, d)
    requires Earliest([], history, cursor, count) && 0 < count
    ensures d == InRange(history, from, to)
  {
    hide Within;
    hide Earliest;
    ShortPageIsAll(history, cursor, [], count);
    forall t: Tick ensures d[t] == InRange(history, from, to)[t] {
      assert FromOn(history, cursor)[t] == 0;
    }
  }

  // ----- termination

  lemma AfterShrinks(history: seq<Tick>, cursor: int, tick: Tick)
    requires tick in history && tick.timeMsc > cursor
    ensures |After(history, tick.timeMsc)| < |After(history, cursor)|
  {
    var small, large := After(history, tick.timeMsc), After(history, cursor);
    assert forall t: Tick :: small[t] <= large[t];
    SubmultisetSize(small, large);
    assert multiset(history)[tick] > 0;
    assert small[tick] == 0 && large[tick] > 0;
  }

  lemma DeliveredFits(history: seq<Tick>, delivered: seq<Tick>)
    requires forall t: Tick :: multiset(delivered)[t] <= multiset(history)[t]
    ensures |delivered| <= |history|
  {
    assert multiset(delivered) <= multiset(history);
    SubmultisetSize(multiset(delivered), multiset(history));
  }

  // ----- when the traversal succeeds

  lemma BoundaryIsAtCursor(history: seq<Tick>, from: int, to: int, cursor: int, boundary: multiset<Tick>, d: multiset<Tick>)
    requires Taken(history, from, to, cursor, boundary, d)
    ensures |boundary| <= |At(history, cursor)|
    ensures cursor > to ==> |boundary| == 0
  {
    assert boundary <= At(history, cursor);
    SubmultisetSize(boundary, At(history, cursor));
    if cursor > to { assert forall t: Tick :: boundary[t] == 0; assert boundary == multiset{}; }
  }

  /** Ticks at the cursor and a burst together exceed what a page at the cursor may hold. */
  lemma BurstFillsPage(history: seq<Tick>, from: int, to: int, cursor: int, boundary: multiset<Tick>, d: multiset<Tick>,
                       time: int, covering: multiset<Tick>)
    requires Taken(history, from, to, cursor, boundary, d)
    requires LateBurstAt(history, from, to, time) && cursor <= time
    requires forall t: Tick | t.timeMsc == cursor || t.timeMsc == time :: covering[t] == multiset(history)[t]
    ensures |covering| >= TICK_PAGE_SIZE + |boundary|
  {
    BoundaryIsAtCursor(history, from, to, cursor, boundary, d);
    if cursor == time {
      assert At(history, time) <= covering;
      SubmultisetSize(At(history, time), covering);
    } else {
      assert At(history, cursor) + At(history, time) <= covering;
      SubmultisetSize(At(history, cursor) + At(history, time), covering);
    }
  }

  lemma ShortPageExcludesImpasse(history: seq<Tick>, from: int, to: int, cursor: int, boundary: multiset<Tick>, d: multiset<Tick>,
                                 page: seq<Tick>, time: int)
    requires Taken(history, from, to, cursor, boundary, d) && cursor <= time && TICK_PAGE_SIZE + |boundary| <= INT_MAX
    requires Earliest(page, history, cursor, TICK_PAGE_SIZE + |boundary|) && |page| < TICK_PAGE_SIZE + |boundary|
    ensures !ImpasseAt(history, from, to, time)
  {
    ShortPageIsAll(history, cursor, page, TICK_PAGE_SIZE + |boundary|);
    if LateBurstAt(history, from, to, time) {
      BurstFillsPage(history, from, to, cursor, boundary, d, time, FromOn(history, cursor));
    }
    assert At(history, time) <= FromOn(history, cursor);
    SubmultisetSize(At(history, time), FromOn(history, cursor));
  }

  lemma PageStopsAtBurst(history: seq<Tick>, from: int, to: int, cursor: int, boundary: multiset<Tick>, d: multiset<Tick>,
                         page: seq<Tick>, time: int)
    requires Taken(history, from, to, cursor, boundary, d) && cursor <= time && page != []
    requires Earliest(page, history, cursor, TICK_PAGE_SIZE + |boundary|)
    requires LateBurstAt(history, from, to, time)
    ensures page[|page| - 1].timeMsc <= time
  {
    var tick := page[|page| - 1];
    if tick.timeMsc > time {
      assert tick in multiset(page);
      var covering := multiset(page) - multiset{tick};
      assert multiset(page) == covering + multiset{tick};
      BurstFillsPage(history, from, to, cursor, boundary, d, time, covering);
    }
  }

  lemma PageStopsAtOversized(history: seq<Tick>, from: int, to: int, cursor: int, page: seq<Tick>, time: int, count: nat)
    requires cursor <= time && page != [] && count <= INT_MAX && Earliest(page, history, cursor, count)
    requires OversizedAt(history, from, to, time)
    ensures page[|page| - 1].timeMsc <= time
  {
    var tick := page[|page| - 1];
    if tick.timeMsc > time {
      assert tick in multiset(page);
      assert At(history, time) + multiset{tick} <= multiset(page);
      SubmultisetSize(At(history, time) + multiset{tick}, multiset(page));
    }
  }

  lemma StuckIsBurst(history: seq<Tick>, from: int, to: int, cursor: int, boundary: multiset<Tick>, d: multiset<Tick>,
                     page: seq<Tick>)
    requires Taken(history, from, to, cursor, boundary, d) && page != [] && SortedByTime(page)
    requires Earliest(page, history, cursor, TICK_PAGE_SIZE + |boundary|) && |page| == TICK_PAGE_SIZE + |boundary|
    requires page[|page| - 1].timeMsc == cursor
    requires IsFresh(multiset{}, multiset{}, multiset(page), cursor, from, to, cursor, boundary)
    ensures LateBurst(history, from, to)
  {
    LastIsLatest(page);
    BoundaryIsAtCursor(history, from, to, cursor, boundary, d);
    if cursor <= to {
      forall t: Tick ensures multiset(page)[t] <= boundary[t] {
        assert multiset{}[t] == FreshCount(t, multiset(page)[t], from, to, cursor, boundary);
      }
      SubmultisetSize(multiset(page), boundary);
    } else {
      assert multiset(page) <= At(history, cursor);
      SubmultisetSize(multiset(page), At(history, cursor));
      assert LateBurstAt(history, from, to, cursor);
    }
  }

  /** Any number of the ticks of m, in some order. */
  lemma Pick(m: multiset<Tick>, k: nat) returns (s: seq<Tick>)
    requires k <= |m|
    ensures |s| == k && multiset(s) <= m
  {
    if k == 0 {
      s := [];
    } else {
      var tick :| tick in m;
      var rest := Pick(m - multiset{tick}, k - 1);
      s := rest + [tick];
    }
  }

  /** A correct answer that holds ties of the cursor only. */
  ghost predicate TiesOnly(page: seq<Tick>, history: seq<Tick>, cursor: int, count: nat) {
    Earliest(page, history, cursor, count) && SortedByTime(page) && page != [] && page[|page| - 1].timeMsc == cursor
  }

  lemma TiesAreEarliest(history: seq<Tick>, cursor: int, page: seq<Tick>, count: nat)
    requires multiset(page) <= At(history, cursor) && |page| == count > 0
    ensures TiesOnly(page, history, cursor, count)
  {
    forall i | 0 <= i < |page| ensures page[i].timeMsc == cursor {
      assert page[i] in multiset(page);
      assert At(history, cursor)[page[i]] > 0;
    }
    assert multiset(page) <= FromOn(history, cursor) by {
      assert At(history, cursor) <= FromOn(history, cursor);
    }
    SubmultisetSize(multiset(page), FromOn(history, cursor));
  }

  /** Reading this page leaves so many delivered ties at the cursor. */
  ghost predicate LeavesTies(page: seq<Tick>, from: int, to: int, cursor: int, boundary: multiset<Tick>, count: nat) {
    forall deliver, next :: IsFresh(deliver, next, multiset(page), cursor, from, to, cursor, boundary) ==> |boundary + next| == count
  }

  /** Between the two bounds the order of ties decides: here one of two answers to the same read,
      alike for a server that gives the earliest ticks, keeps the next page request within bounds,
      and the other, which leaves out a tick already delivered, makes it overflow. */
  lemma TieOrderDecides(history: seq<Tick>, from: int, to: int, cursor: int, boundary: multiset<Tick>, gone: Tick)
    returns (p: seq<Tick>, q: seq<Tick>)
    requires from <= cursor <= to && |At(history, cursor)| > INT_MAX - TICK_PAGE_SIZE
    requires boundary <= At(history, cursor) && |boundary| == INT_MAX - 2 * TICK_PAGE_SIZE
    requires gone in boundary && boundary[gone] == At(history, cursor)[gone]
    ensures TiesOnly(p, history, cursor, TICK_PAGE_SIZE + |boundary|) && TiesOnly(q, history, cursor, TICK_PAGE_SIZE + |boundary|)
    ensures LeavesTies(p, from, to, cursor, boundary, INT_MAX - TICK_PAGE_SIZE)
    ensures LeavesTies(q, from, to, cursor, boundary, INT_MAX - TICK_PAGE_SIZE + 1)
  {
    hide TiesOnly;
    hide LeavesTies;
    hide At;
    var more := Pick(At(history, cursor) - boundary, TICK_PAGE_SIZE + 1);
    assert (At(history, cursor) - boundary)[gone] == 0;
    TakeIsPart(more, TICK_PAGE_SIZE);
    p := PageOfTies(history, from, to, cursor, boundary, multiset{}, more[..TICK_PAGE_SIZE]);
    q := PageOfTies(history, from, to, cursor, boundary, multiset{gone}, more);
  }

  lemma TakeIsPart(s: seq<Tick>, n: nat)
    requires n <= |s|
    ensures multiset(s[..n]) <= multiset(s)
  {
    assert s == s[..n] + s[n..];
  }

  /** A page of the delivered ties, but for some, and of more. */
  lemma PageOfTies(history: seq<Tick>, from: int, to: int, cursor: int, boundary: multiset<Tick>, left: multiset<Tick>, more: seq<Tick>)
    returns (page: seq<Tick>)
    requires from <= cursor <= to && boundary + multiset(more) <= At(history, cursor)
    requires left <= boundary && left !! multiset(more) && more != []
    ensures TiesOnly(page, history, cursor, |boundary - left| + |more|)
    ensures LeavesTies(page, from, to, cursor, boundary, |boundary| + |more|)
  {
    hide TiesOnly;
    hide IsFresh;
    var old_ := Everything(boundary - left);
    page := old_ + more;
    TiesAreEarliest(history, cursor, page, |page|);
    forall deliver, next | IsFresh(deliver, next, multiset(page), cursor, from, to, cursor, boundary)
      ensures next == multiset(more)
    {
      NewTies(history, from, to, cursor, boundary, left, multiset(more), deliver, next);
    }
  }

  lemma Everything(m: multiset<Tick>) returns (s: seq<Tick>)
    ensures multiset(s) == m
  {
    s := Pick(m, |m|);
    SubmultisetSize(multiset(s), m);
  }

  /** A page of old ties, but for some, and new ones delivers the new ones. */
  lemma NewTies(history: seq<Tick>, from: int, to: int, cursor: int, boundary: multiset<Tick>, left: multiset<Tick>, more: multiset<Tick>,
                deliver: multiset<Tick>, next: multiset<Tick>)
    requires from <= cursor <= to && boundary + more <= At(history, cursor) && left <= boundary && left !! more
    requires IsFresh(deliver, next, boundary - left + more, cursor, from, to, cursor, boundary)
    ensures next == more
  {
    forall t: Tick ensures next[t] == more[t] {
      assert (boundary + more)[t] <= At(history, cursor)[t];
      assert deliver[t] == FreshCount(t, (boundary - left + more)[t], from, to, cursor, boundary);
    }
  }

  /** Within the bounds, a later tick takes the traversal past the group. */
  lemma NextPagePasses(history: seq<Tick>, cursor: int, page: seq<Tick>, count: nat)
    requires Earliest(page, history, cursor, count) && SortedByTime(page)
    requires |At(history, cursor)| < count && After(history, cursor) != multiset{}
    ensures page != [] && page[|page| - 1].timeMsc > cursor
  {
    var later: Tick :| later in After(history, cursor);
    assert FromOn(history, cursor)[later] > 0;
    if |page| < count {
      ShortPageIsAll(history, cursor, page, count);
      assert later in page;
      LastIsLatest(page);
    } else if page[|page| - 1].timeMsc <= cursor {
      LastIsLatest(page);
      forall t: Tick ensures multiset(page)[t] <= At(history, cursor)[t] {}
      SubmultisetSize(multiset(page), At(history, cursor));
    }
  }

  /** Every impasse still lies at or after the cursor. */
  ghost predicate ImpassesAhead(history: seq<Tick>, from: int, to: int, cursor: int) {
    forall time: int :: ImpasseAt(history, from, to, time) ==> cursor <= time
  }

  lemma PageFacts(server: Server, history: seq<Tick>, i: nat, cursor: int, count: nat)
    requires Growing(server, history)
    ensures var reply := server(i, cursor, count);
            && SortedByTime(reply.page) && multiset(reply.page) <= multiset(history)
            && (Fixed(server, history) && reply.ok && !reply.partial ==> Earliest(reply.page, history, cursor, count))
  {
    hide Earliest;
    hide SortedByTime;
  }

  lemma ReliableFacts(server: Server, consumer: Consumer, i: nat, cursor: int, count: nat, batches: nat, batch: seq<Tick>)
    requires Reliable(server, consumer)
    ensures server(i, cursor, count).ok && !server(i, cursor, count).partial && consumer(batches, batch)
  {
  }

  lemma EarliestSize(page: seq<Tick>, history: seq<Tick>, cursor: int, count: nat)
    requires Earliest(page, history, cursor, count)
    ensures |page| <= count
    ensures page != [] ==> page[|page| - 1].timeMsc >= cursor
  {
    if page != [] {
      assert page[|page| - 1] in multiset(page);
      assert FromOn(history, cursor)[page[|page| - 1]] > 0;
    }
  }

  lemma PageEndsInHistory(history: seq<Tick>, page: seq<Tick>)
    requires page != [] && multiset(page) <= multiset(history)
    ensures At(history, page[|page| - 1].timeMsc) != multiset{}
  {
    assert page[|page| - 1] in multiset(page);
    assert At(history, page[|page| - 1].timeMsc)[page[|page| - 1]] > 0;
  }

  lemma DeliveryStaysSorted(history: seq<Tick>, from: int, to: int, cursor: int, boundary: multiset<Tick>,
                            delivered: seq<Tick>, batch: seq<Tick>)
    requires Taken(history, from, to, cursor, boundary, multiset(delivered))
    requires SortedByTime(delivered) && SortedByTime(batch)
    requires forall t: Tick | multiset(batch)[t] > 0 :: cursor <= t.timeMsc
    ensures SortedByTime(delivered + batch)
  {
    if delivered != [] && batch != [] {
      assert delivered[|delivered| - 1] in multiset(delivered) && batch[0] in multiset(batch);
    }
    SortedJoin(delivered, batch);
  }

  lemma NothingTaken(history: seq<Tick>, from: int, to: int)
    ensures Taken(history, from, to, from, multiset{}, multiset{}) && Caught(history, from, to, from, multiset{})
    ensures ImpassesAhead(history, from, to, from) && SortedByTime([])
  {
  }

  lemma NoImpasseAfterShortPage(history: seq<Tick>, from: int, to: int, cursor: int, boundary: multiset<Tick>, d: multiset<Tick>,
                                page: seq<Tick>)
    requires Taken(history, from, to, cursor, boundary, d) && ImpassesAhead(history, from, to, cursor)
    requires TICK_PAGE_SIZE + |boundary| <= INT_MAX
    requires Earliest(page, history, cursor, TICK_PAGE_SIZE + |boundary|) && |page| < TICK_PAGE_SIZE + |boundary|
    ensures !Impasse(history, from, to)
  {
    forall time: int ensures !ImpasseAt(history, from, to, time) {
      if cursor <= time { ShortPageExcludesImpasse(history, from, to, cursor, boundary, d, page, time); }
    }
  }

  lemma ImpassesStayAhead(history: seq<Tick>, from: int, to: int, cursor: int, boundary: multiset<Tick>, d: multiset<Tick>,
                          page: seq<Tick>)
    requires Taken(history, from, to, cursor, boundary, d) && ImpassesAhead(history, from, to, cursor)
    requires TICK_PAGE_SIZE + |boundary| <= INT_MAX
    requires page != [] && Earliest(page, history, cursor, TICK_PAGE_SIZE + |boundary|)
    ensures ImpassesAhead(history, from, to, page[|page| - 1].timeMsc)
  {
    forall time: int | ImpasseAt(history, from, to, time) ensures page[|page| - 1].timeMsc <= time {
      if LateBurstAt(history, from, to, time) {
        PageStopsAtBurst(history, from, to, cursor, boundary, d, page, time);
      } else {
        PageStopsAtOversized(history, from, to, cursor, page, time, TICK_PAGE_SIZE + |boundary|);
      }
    }
  }

  /** In range, time-sorted, and no occurrence more often than the final history holds it. */
  ghost predicate NoDuplicates(history: seq<Tick>, from: int, to: int, delivered: seq<Tick>) {
    && (forall t: Tick :: multiset(delivered)[t] <= multiset(history)[t])
    && (forall t: Tick | multiset(delivered)[t] > 0 :: Within(t, from, to))
    && SortedByTime(delivered)
  }

  ghost predicate Kept(history: seq<Tick>, from: int, to: int, fixed: bool, good: bool,
                       cursor: int, boundary: multiset<Tick>, delivered: seq<Tick>) {
    && Taken(history, from, to, cursor, boundary, multiset(delivered)) && SortedByTime(delivered)
    && (cursor == from || At(history, cursor) != multiset{})
    && (fixed ==> Caught(history, from, to, cursor, multiset(delivered)))
    && (good ==> fixed && ImpassesAhead(history, from, to, cursor))
  }

  lemma NothingKept(history: seq<Tick>, from: int, to: int, fixed: bool, good: bool)
    requires good ==> fixed
    ensures Kept(history, from, to, fixed, good, from, multiset{}, [])
    ensures NoDuplicates(history, from, to, [])
  {
    NothingTaken(history, from, to);
  }

  /** The guard against oversized requests fires only where that many ties were delivered. */
  lemma GuardIsOverfull(history: seq<Tick>, from: int, to: int, fixed: bool, good: bool,
                        cursor: int, boundary: multiset<Tick>, delivered: seq<Tick>)
    requires Kept(history, from, to, fixed, good, cursor, boundary, delivered)
    ensures |boundary| > INT_MAX - TICK_PAGE_SIZE ==> Overfull(delivered, from, to)
    ensures TieGroupsFit(history, from, to) ==> |boundary| <= INT_MAX - TICK_PAGE_SIZE
  {
    BoundaryIsAtCursor(history, from, to, cursor, boundary, multiset(delivered));
    assert boundary == At(delivered, cursor);
  }

  /** A confirmed empty read: everything in range was delivered, and no impasse exists. */
  lemma QuietEnd(history: seq<Tick>, from: int, to: int, fixed: bool, good: bool,
                 cursor: int, boundary: multiset<Tick>, delivered: seq<Tick>)
    requires Kept(history, from, to, fixed, good, cursor, boundary, delivered)
    requires fixed && Earliest([], history, cursor, TICK_PAGE_SIZE + |boundary|) && TICK_PAGE_SIZE + |boundary| <= INT_MAX
    ensures multiset(delivered) == InRange(history, from, to)
    ensures good ==> !Impasse(history, from, to)
  {
    hide Earliest;
    EmptyPageCompletes(history, from, to, cursor, boundary, multiset(delivered), TICK_PAGE_SIZE + |boundary|);
    if good { NoImpasseAfterShortPage(history, from, to, cursor, boundary, multiset(delivered), []); }
  }

  /** Once everything is delivered, a last group of ties in range is what the boundary holds. */
  lemma LastGroupIsBoundary(history: seq<Tick>, from: int, to: int, fixed: bool, good: bool,
                            cursor: int, boundary: multiset<Tick>, delivered: seq<Tick>, time: int)
    requires Kept(history, from, to, fixed, good, cursor, boundary, delivered) && multiset(delivered) == InRange(history, from, to)
    requires from <= time <= to && At(history, time) != multiset{} && After(history, time) == multiset{}
    ensures cursor == time && boundary == At(history, time)
  {
    hide SortedByTime;
    hide ImpassesAhead;
    var tick: Tick :| tick in At(history, time);
    assert multiset(delivered)[tick] > 0;
    forall t: Tick ensures boundary[t] == At(history, time)[t] {}
  }

  /** A traversal that could still ask for a page has not ended on an oversized group. */
  lemma NotStranded(history: seq<Tick>, from: int, to: int, fixed: bool, good: bool,
                    cursor: int, boundary: multiset<Tick>, delivered: seq<Tick>)
    requires Kept(history, from, to, fixed, good, cursor, boundary, delivered) && multiset(delivered) == InRange(history, from, to)
    requires cursor <= to ==> |boundary| <= INT_MAX - TICK_PAGE_SIZE
    ensures !EndsOversized(history, from, to)
  {
    hide Kept;
    hide InRange;
    if EndsOversized(history, from, to) {
      var time: int :| EndsOversizedAt(history, from, to, time);
      LastGroupIsBoundary(history, from, to, fixed, good, cursor, boundary, delivered, time);
    }
  }

  /** One trusted page: what stays true, what a short page proves, and what a stuck one means. */
  lemma TurnPage(history: seq<Tick>, from: int, to: int, fixed: bool, good: bool, cursor: int,
                 boundary: multiset<Tick>, delivered: seq<Tick>, page: seq<Tick>, batch: seq<Tick>, next: multiset<Tick>)
    requires Kept(history, from, to, fixed, good, cursor, boundary, delivered) && TICK_PAGE_SIZE + |boundary| <= INT_MAX
    requires page != [] && SortedByTime(page) && multiset(page) <= multiset(history)
    requires fixed ==> Earliest(page, history, cursor, TICK_PAGE_SIZE + |boundary|)
    requires SortedByTime(batch)
    requires IsFresh(multiset(batch), next, multiset(page), page[|page| - 1].timeMsc, from, to, cursor, boundary)
    ensures NoDuplicates(history, from, to, delivered + batch) && |delivered + batch| <= |history|
    ensures var last := page[|page| - 1].timeMsc;
            && (last >= cursor ==>
                  Kept(history, from, to, fixed, good, last, if last == cursor then boundary + next else next, delivered + batch))
            && |next| <= |batch| && (last == cursor ==> |next| == |batch|)
            && (last > cursor ==> |After(history, last)| < |After(history, cursor)|)
            && (fixed ==> last >= cursor && |page| <= TICK_PAGE_SIZE + |boundary|)
            && (good && last == cursor && |next| == 0 && |page| == TICK_PAGE_SIZE + |boundary| ==> LateBurst(history, from, to))
    ensures fixed && |page| < TICK_PAGE_SIZE + |boundary| ==> multiset(delivered + batch) == InRange(history, from, to)
    ensures good && |page| < TICK_PAGE_SIZE + |boundary| ==> !Impasse(history, from, to)
  {
    hide Earliest;
    hide IsFresh;
    hide SortedByTime;
    hide Caught;
    hide LateBurst;
    hide Impasse;
    hide ImpassesAhead;
    hide At;
    hide Taken;
    var last, count, before := page[|page| - 1].timeMsc, TICK_PAGE_SIZE + |boundary|, multiset(delivered);
    LastIsLatest(page);
    PageEndsInHistory(history, page);
    TakenAdvances(history, from, to, cursor, boundary, before, multiset(page), last, multiset(batch), next);
    DeliveryStaysSorted(history, from, to, cursor, boundary, delivered, batch);
    SubmultisetSize(next, multiset(batch));
    assert multiset(delivered + batch) == before + multiset(batch);
    DeliveredFits(history, delivered + batch);
    if last > cursor { AfterShrinks(history, cursor, page[|page| - 1]); }
    if fixed {
      EarliestSize(page, history, cursor, count);
      CaughtAdvances(history, from, to, cursor, boundary, before, page, count, multiset(batch), next);
      if |page| < count { ShortPageCompletes(history, from, to, cursor, boundary, before, page, last, count, multiset(batch), next); }
    }
    if good {
      if |page| < count { NoImpasseAfterShortPage(history, from, to, cursor, boundary, before, page); }
      ImpassesStayAhead(history, from, to, cursor, boundary, before, page);
      if last == cursor && |next| == 0 && |page| == count { StuckIsBurst(history, from, to, cursor, boundary, before, page); }
    }
  }

  // ----- the dialogue with server and consumer

  /** One server read and the ticks of its page that were new. */
  datatype Read = Read(cursor: int, count: nat, reply: Reply, fresh_: seq<Tick>) {
    /** A trusted reply that did not fill the page. */
    predicate Short() {
      reply.ok && !reply.partial && |reply.page| < count
    }

    predicate Quiet() {
      Short() && fresh_ == []
    }

    predicate Provisional() {
      reply.ok && reply.partial && reply.page != []
    }

    predicate EndsBeforeCursor() {
      reply.page != [] && reply.page[|reply.page| - 1].timeMsc < cursor
    }

    predicate EndsAtCursor() {
      reply.page != [] && reply.page[|reply.page| - 1].timeMsc == cursor
    }

    predicate EndsPast(to: int) {
      reply.page != [] && reply.page[|reply.page| - 1].timeMsc > to
    }

    /** A trusted page with news, be it only that the cursor moves. */
    predicate Progresses() {
      reply.ok && !reply.partial && reply.page != [] && (fresh_ != [] || !EndsAtCursor())
    }

    function Provisionals(before: nat): nat {
      if Provisional() then before + 1 else if Progresses() then 0 else before
    }
  }

  /** What the consumer was handed, call by call. */
  function Handed(trace: seq<Read>): seq<seq<Tick>> {
    if trace == [] then []
    else Handed(trace[..|trace| - 1]) + if trace[|trace| - 1].fresh_ == [] then [] else [trace[|trace| - 1].fresh_]
  }

  function Concatenated(batches: seq<seq<Tick>>): seq<Tick> {
    if batches == [] then [] else Concatenated(batches[..|batches| - 1]) + batches[|batches| - 1]
  }

  /** Provisional replies since the last progress. */
  function Provisionals(trace: seq<Read>): nat {
    if trace == [] then 0 else trace[|trace| - 1].Provisionals(Provisionals(trace[..|trace| - 1]))
  }

  ghost predicate Answered(server: Server, trace: seq<Read>) {
    forall i :: 0 <= i < |trace| ==> trace[i].reply == server(i, trace[i].cursor, trace[i].count)
  }

  /** The first `count` calls of the consumer were accepted. */
  ghost predicate Accepts(consumer: Consumer, batches: seq<seq<Tick>>, count: int) {
    forall i :: 0 <= i < count && i < |batches| ==> consumer(i, batches[i])
  }

  /** So far every call was answered as recorded, and every batch accepted. */
  ghost predicate Dialogue(server: Server, consumer: Consumer, trace: seq<Read>, delivered: seq<Tick>, calls: nat, batches: nat) {
    && Answered(server, trace) && delivered == Concatenated(Handed(trace)) && Accepts(consumer, Handed(trace), batches)
    && calls == |trace| && batches == |Handed(trace)| && forall r <- trace :: r.reply.ok
  }

  lemma ReadKeepsDialogue(server: Server, consumer: Consumer, trace: seq<Read>, delivered: seq<Tick>, calls: nat, batches: nat, r: Read)
    requires Dialogue(server, consumer, trace, delivered, calls, batches) && r.reply == server(calls, r.cursor, r.count)
    ensures var handed := Handed(trace + [r]);
            && Answered(server, trace + [r]) && delivered + r.fresh_ == Concatenated(handed)
            && |handed| == batches + (if r.fresh_ == [] then 0 else 1) && Accepts(consumer, handed, batches)
            && (r.reply.ok && (r.fresh_ == [] || consumer(batches, r.fresh_)) ==>
                  Dialogue(server, consumer, trace + [r], delivered + r.fresh_, calls + 1, |handed|))
            && (r.fresh_ != [] && !consumer(batches, r.fresh_) ==> !Accepts(consumer, handed, |handed|))
            && Provisionals(trace + [r]) == r.Provisionals(Provisionals(trace))
    ensures r.fresh_ == [] ==> delivered + r.fresh_ == delivered
  {
    ReadAdded(trace, r);
    hide Handed;
    hide Concatenated;
    hide Provisionals;
    var handed := Handed(trace + [r]);
    assert delivered + [] == delivered;
    if r.fresh_ != [] { assert handed[batches] == r.fresh_; }
  }

  lemma NoReads(server: Server, consumer: Consumer)
    ensures Dialogue(server, consumer, [], [], 0, 0) && Provisionals([]) == 0
  {
  }

  lemma ReadAdded(trace: seq<Read>, r: Read)
    ensures Handed(trace + [r]) == Handed(trace) + if r.fresh_ == [] then [] else [r.fresh_]
    ensures Concatenated(Handed(trace + [r])) == Concatenated(Handed(trace)) + r.fresh_
    ensures Provisionals(trace + [r]) == r.Provisionals(Provisionals(trace))
  {
    assert (trace + [r])[..|trace|] == trace;
    if r.fresh_ == [] {
      assert Handed(trace + [r]) == Handed(trace);
    } else {
      assert (Handed(trace) + [r.fresh_])[..|Handed(trace)|] == Handed(trace);
    }
  }

  /** Since this read the server has only been short or provisional, and one read more was quiet. */
  ghost predicate QuietSince(trace: seq<Read>, i: nat, j: nat, end: nat) {
    && i < j < end <= |trace| && trace[i].Short() && trace[j].Quiet()
    && forall m :: i < m < end && m != j ==> trace[m].Provisional()
  }

  ghost predicate Confirmed(trace: seq<Read>, i: nat, j: nat) {
    trace != [] && QuietSince(trace, i, j, |trace| - 1) && trace[|trace| - 1].Quiet()
  }

  /** Why a traversal may succeed: a short page ended past the range, or after a short page two more
      reads, but for provisional ones, brought nothing. */
  ghost predicate Settled(trace: seq<Read>, to: int) {
    && trace != [] && trace[|trace| - 1].Short()
    && (|| trace[|trace| - 1].EndsPast(to)
        || exists i: nat, j: nat :: Confirmed(trace, i, j))
  }

  /** How far the server has settled: no short page counts, one does, or one more read was quiet. */
  ghost predicate Probed(trace: seq<Read>, probes: nat) {
    match probes
    case 0 => true
    case 1 => exists i: nat :: OneShort(trace, i)
    case 2 => exists i: nat, j: nat :: QuietSince(trace, i, j, |trace|)
    case _ => false
  }

  ghost predicate OneShort(trace: seq<Read>, i: nat) {
    i < |trace| && trace[i].Short() && forall m :: i < m < |trace| ==> trace[m].Provisional()
  }

  lemma NothingProbed(trace: seq<Read>)
    ensures Probed(trace, 0)
  {
  }

  lemma ProvisionalKeepsProbed(trace: seq<Read>, r: Read, probes: nat)
    requires Probed(trace, probes) && r.Provisional()
    ensures Probed(trace + [r], probes)
  {
    if probes == 1 {
      var i: nat :| OneShort(trace, i);
      assert OneShort(trace + [r], i);
    } else if probes == 2 {
      var i: nat, j: nat :| QuietSince(trace, i, j, |trace|);
      assert QuietSince(trace + [r], i, j, |trace + [r]|);
    }
  }

  lemma ShortIsProbe(trace: seq<Read>, r: Read, probes: nat, to: int)
    requires Probed(trace, probes) && r.Short() && (r.Quiet() || probes == 0)
    ensures probes < 2 ==> Probed(trace + [r], probes + 1)
    ensures r.EndsPast(to) || probes == 2 ==> Settled(trace + [r], to)
  {
    if probes == 0 {
      assert OneShort(trace + [r], |trace|);
    } else if probes == 1 {
      var i: nat :| OneShort(trace, i);
      assert QuietSince(trace + [r], i, |trace|, |trace + [r]|);
    } else {
      var i: nat, j: nat :| QuietSince(trace, i, j, |trace|);
      assert Confirmed(trace + [r], i, j);
    }
  }

  /** Why a traversal may fail at a read: the server refuses, stays provisional, goes back or repeats
      a full page, or the consumer declines. */
  ghost predicate FailsAt(consumer: Consumer, r: Read, provisionals: nat, batches: nat) {
    || !r.reply.ok || (r.reply.partial && r.reply.page == [])
    || (r.Provisional() && provisionals >= PARTIAL_PAGE_LIMIT)
    || (r.fresh_ != [] && !consumer(batches, r.fresh_))
    || (!r.reply.partial && r.EndsBeforeCursor())
    || (!r.reply.partial && r.EndsAtCursor() && r.fresh_ == [] && !r.Short())
  }

  ghost predicate Failed(consumer: Consumer, trace: seq<Read>) {
    trace != [] && var before := trace[..|trace| - 1];
                   FailsAt(consumer, trace[|trace| - 1], Provisionals(before), |Handed(before)|)
  }

  /** Everything delivered was handed to the consumer, one batch a call, and all but at most the last
      one accepted; success needs them all accepted and a settled server, and failure a reason. */
  ghost predicate Ended(server: Server, consumer: Consumer, trace: seq<Read>, delivered: seq<Tick>, from: int, to: int, complete: bool) {
    && Answered(server, trace) && delivered == Concatenated(Handed(trace))
    && Accepts(consumer, Handed(trace), if complete then |Handed(trace)| else |Handed(trace)| - 1)
    && (if complete then Settled(trace, to) && forall r <- trace :: r.reply.ok
        else Overfull(delivered, from, to) || Failed(consumer, trace))
  }

  /** What the loop keeps of the dialogue. */
  ghost predicate Talk(server: Server, consumer: Consumer, trace: seq<Read>, delivered: seq<Tick>, batches: nat, partials: nat, probes: nat) {
    Dialogue(server, consumer, trace, delivered, |trace|, batches) && Provisionals(trace) == partials && Probed(trace, probes)
  }

  lemma TalkBegins(server: Server, consumer: Consumer)
    ensures Talk(server, consumer, [], [], 0, 0, 0)
  {
    NoReads(server, consumer);
  }

  lemma TalkFails(server: Server, consumer: Consumer, trace: seq<Read>, delivered: seq<Tick>, batches: nat, partials: nat, probes: nat,
                  r: Read, from: int, to: int)
    requires Talk(server, consumer, trace, delivered, batches, partials, probes) && r.reply == server(|trace|, r.cursor, r.count)
    requires FailsAt(consumer, r, partials, batches)
    ensures Ended(server, consumer, trace + [r], delivered + r.fresh_, from, to, false)
  {
    hide FailsAt;
    hide Overfull;
    hide Settled;
    ReadKeepsDialogue(server, consumer, trace, delivered, |trace|, batches, r);
    assert (trace + [r])[..|trace|] == trace;
  }

  lemma RefusalFails(consumer: Consumer, r: Read, partials: nat, batches: nat)
    requires !r.reply.ok || (r.reply.partial && (r.reply.page == [] || partials >= PARTIAL_PAGE_LIMIT))
    ensures FailsAt(consumer, r, partials, batches)
  {
  }

  lemma DeclinedFails(consumer: Consumer, r: Read, partials: nat, batches: nat)
    requires r.fresh_ != [] && !consumer(batches, r.fresh_)
    ensures FailsAt(consumer, r, partials, batches)
  {
  }

  lemma StuckFails(consumer: Consumer, r: Read, partials: nat, batches: nat)
    requires r.reply.ok && !r.reply.partial && r.reply.page != []
    requires var last := r.reply.page[|r.reply.page| - 1].timeMsc;
             last < r.cursor || (last == r.cursor && r.fresh_ == [] && |r.reply.page| >= r.count)
    ensures FailsAt(consumer, r, partials, batches)
  {
  }

  lemma OverfullEnds(server: Server, consumer: Consumer, trace: seq<Read>, delivered: seq<Tick>, batches: nat, partials: nat, probes: nat,
                     from: int, to: int)
    requires Talk(server, consumer, trace, delivered, batches, partials, probes) && Overfull(delivered, from, to)
    ensures Ended(server, consumer, trace, delivered, from, to, false)
  {
    hide Overfull;
  }

  lemma TalkStaysProvisional(server: Server, consumer: Consumer, trace: seq<Read>, delivered: seq<Tick>, batches: nat, partials: nat,
                             probes: nat, r: Read)
    requires Talk(server, consumer, trace, delivered, batches, partials, probes) && r.reply == server(|trace|, r.cursor, r.count)
    requires r.reply.ok && r.reply.partial && r.reply.page != [] && r.fresh_ == []
    ensures Talk(server, consumer, trace + [r], delivered, batches, partials + 1, probes)
  {
    hide Probed;
    ReadKeepsDialogue(server, consumer, trace, delivered, |trace|, batches, r);
    ProvisionalKeepsProbed(trace, r, probes);
  }

  /** A trusted read that does not fail either settles the server or lets the talk go on. */
  lemma TalkGoesOn(server: Server, consumer: Consumer, trace: seq<Read>, delivered: seq<Tick>, batches: nat, partials: nat, probes: nat,
                   r: Read, from: int, to: int)
    requires Talk(server, consumer, trace, delivered, batches, partials, probes) && r.reply == server(|trace|, r.cursor, r.count)
    requires r.reply.ok && !r.reply.partial && (r.fresh_ == [] || consumer(batches, r.fresh_))
    ensures var page, next, handed := r.reply.page, trace + [r], batches + if r.fresh_ == [] then 0 else 1;
            var left := if page != [] && (page[|page| - 1].timeMsc != r.cursor || r.fresh_ != []) then 0 else partials;
            var quiet := if r.fresh_ == [] then probes else 0;
            if |page| >= r.count then Talk(server, consumer, next, delivered + r.fresh_, handed, left, 0)
            else && ((page != [] && page[|page| - 1].timeMsc > to) || quiet == 2 ==>
                       Ended(server, consumer, next, delivered + r.fresh_, from, to, true))
                 && (quiet < 2 ==> Talk(server, consumer, next, delivered + r.fresh_, handed, left, quiet + 1))
  {
    hide Probed;
    hide Settled;
    ReadKeepsDialogue(server, consumer, trace, delivered, |trace|, batches, r);
    NothingProbed(trace);
    NothingProbed(trace + [r]);
    if r.Short() { ShortIsProbe(trace, r, if r.fresh_ == [] then probes else 0, to); }
  }

  /** What success and failure mean for the history. */
  ghost predicate Judged(history: seq<Tick>, from: int, to: int, fixed: bool, good: bool, delivered: seq<Tick>, complete: bool) {
    && (complete && fixed ==> multiset(delivered) == InRange(history, from, to))
    && (good && complete ==> !Impasse(history, from, to) && !EndsOversized(history, from, to))
    && (good && !complete ==> LateBurst(history, from, to) || Overfull(delivered, from, to))
    && (good && !complete && TieGroupsFit(history, from, to) ==> LateBurst(history, from, to))
  }

  /** All that a traversal promises. */
  ghost predicate Concluded(server: Server, consumer: Consumer, history: seq<Tick>, from: int, to: int, trace: seq<Read>,
                            delivered: seq<Tick>, complete: bool) {
    && NoDuplicates(history, from, to, delivered) && Ended(server, consumer, trace, delivered, from, to, complete)
    && Judged(history, from, to, Fixed(server, history), Fixed(server, history) && Reliable(server, consumer), delivered, complete)
  }

  lemma FailureConcluded(server: Server, consumer: Consumer, history: seq<Tick>, from: int, to: int, trace: seq<Read>, delivered: seq<Tick>)
    requires NoDuplicates(history, from, to, delivered) && Ended(server, consumer, trace, delivered, from, to, false)
    requires Fixed(server, history) && Reliable(server, consumer) ==>
               LateBurst(history, from, to) || (Overfull(delivered, from, to) && !TieGroupsFit(history, from, to))
    ensures Concluded(server, consumer, history, from, to, trace, delivered, false)
  {
    hide NoDuplicates, Ended, Fixed, Reliable, LateBurst, Overfull, TieGroupsFit;
  }

  lemma SuccessConcluded(server: Server, consumer: Consumer, history: seq<Tick>, from: int, to: int, trace: seq<Read>, delivered: seq<Tick>)
    requires NoDuplicates(history, from, to, delivered) && Ended(server, consumer, trace, delivered, from, to, true)
    requires Fixed(server, history) ==> multiset(delivered) == InRange(history, from, to) && !EndsOversized(history, from, to)
    requires Fixed(server, history) && Reliable(server, consumer) ==> !Impasse(history, from, to)
    ensures Concluded(server, consumer, history, from, to, trace, delivered, true)
  {
    hide NoDuplicates, Ended, Fixed, Reliable, Impasse, InRange, EndsOversized;
  }

  /** The page loop. */
  method ReadUntilQuiet(from: int, to: int, server: Server, consumer: Consumer, ghost history: seq<Tick>)
    returns (complete: bool, delivered: seq<Tick>, ghost trace: seq<Read>)
    requires Growing(server, history)
    ensures Concluded(server, consumer, history, from, to, trace, delivered, complete)
  {
    hide Growing, Fixed, Reliable, Earliest, Kept, Caught, Taken, After, At, InRange, Within, IsFresh, NoDuplicates, SortedByTime;
    hide TieGroupsFit, Overfull, LateBurst, Impasse, ImpasseAt, ImpassesAhead, EndsOversized, Concluded, Talk, Ended, FailsAt;
    hide Read.Short, Read.Quiet, Read.Provisional, Read.EndsBeforeCursor, Read.EndsAtCursor, Read.EndsPast, Read.Progresses;
    delivered, trace := [], [];
    TalkBegins(server, consumer);
    hide Min;
    ghost var fixed := Fixed(server, history);
    ghost var good := fixed && Reliable(server, consumer);
    NothingKept(history, from, to, fixed, good);
    var cursor, boundary, probes, partials := from, multiset{}, 0, 0;
    var calls, batches := 0, 0;
    while true
      invariant 0 <= probes <= SHORT_PAGE_PROBES && 0 <= partials <= PARTIAL_PAGE_LIMIT
      invariant Kept(history, from, to, fixed, good, cursor, boundary, delivered)
      invariant Talk(server, consumer, trace, delivered, batches, partials, probes) && calls == |trace|
      invariant |delivered| <= |history| && NoDuplicates(history, from, to, delivered)
      decreases |After(history, cursor)| + |history| - |delivered|, SHORT_PAGE_PROBES - probes + PARTIAL_PAGE_LIMIT - partials
    {
      GuardIsOverfull(history, from, to, fixed, good, cursor, boundary, delivered);
      if |boundary| > INT_MAX - TICK_PAGE_SIZE {
        OverfullEnds(server, consumer, trace, delivered, batches, partials, probes, from, to);
        FailureConcluded(server, consumer, history, from, to, trace, delivered);
        return false, delivered, trace;
      }
      var pageSize := TICK_PAGE_SIZE + |boundary|;
      var reply := server(calls, cursor, pageSize);
      PageFacts(server, history, calls, cursor, pageSize);
      if good { ReliableFacts(server, consumer, calls, cursor, pageSize, batches, []); }
      ghost var read, before := Read(cursor, pageSize, reply, []), delivered;
      assert delivered + [] == delivered;
      if !reply.ok {
        RefusalFails(consumer, read, partials, batches);
        TalkFails(server, consumer, trace, delivered, batches, partials, probes, read, from, to);
        FailureConcluded(server, consumer, history, from, to, trace + [read], delivered);
        return false, delivered, trace + [read];
      }
      var page := reply.page;
      if page == [] {
        if reply.partial {
          RefusalFails(consumer, read, partials, batches);
          TalkFails(server, consumer, trace, delivered, batches, partials, probes, read, from, to);
          FailureConcluded(server, consumer, history, from, to, trace + [read], delivered);
          return false, delivered, trace + [read];
        }
        TalkGoesOn(server, consumer, trace, delivered, batches, partials, probes, read, from, to);
        calls, trace := calls + 1, trace + [read];
        if probes >= SHORT_PAGE_PROBES {
          if fixed {
            QuietEnd(history, from, to, fixed, good, cursor, boundary, delivered);
            NotStranded(history, from, to, fixed, good, cursor, boundary, delivered);
          }
          SuccessConcluded(server, consumer, history, from, to, trace, delivered);
          break;
        }
        probes := probes + 1;
        continue;
      }
      if reply.partial {
        if partials >= PARTIAL_PAGE_LIMIT {
          RefusalFails(consumer, read, partials, batches);
          TalkFails(server, consumer, trace, delivered, batches, partials, probes, read, from, to);
          FailureConcluded(server, consumer, history, from, to, trace + [read], delivered);
          return false, delivered, trace + [read];
        }
        TalkStaysProvisional(server, consumer, trace, delivered, batches, partials, probes, read);
        calls, trace, partials := calls + 1, trace + [read], partials + 1;
        continue;
      }
      var last := page[|page| - 1].timeMsc;
      var batch, next := SelectFresh(page, from, to, cursor, boundary);
      TurnPage(history, from, to, fixed, good, cursor, boundary, delivered, page, batch, next);
      read := read.(fresh_ := batch);
      delivered := delivered + batch;
      if batch != [] {
        if good { ReliableFacts(server, consumer, calls, cursor, pageSize, batches, batch); }
        var accepted := consumer(batches, batch);
        if !accepted {
          DeclinedFails(consumer, read, partials, batches);
          TalkFails(server, consumer, trace, before, batches, partials, probes, read, from, to);
          FailureConcluded(server, consumer, history, from, to, trace + [read], delivered);
          return false, delivered, trace + [read];
        }
      }
      var shortPage := |page| < pageSize;
      if last < cursor || (last == cursor && |next| == 0 && !shortPage) {
        StuckFails(consumer, read, partials, batches);
        TalkFails(server, consumer, trace, before, batches, partials, probes, read, from, to);
        FailureConcluded(server, consumer, history, from, to, trace + [read], delivered);
        return false, delivered, trace + [read];
      }
      TalkGoesOn(server, consumer, trace, before, batches, partials, probes, read, from, to);
      calls, trace := calls + 1, trace + [read];
      if batch != [] {
        batches, probes := batches + 1, 0;
      }
      if last == cursor && |next| == 0 {
        assert boundary + next == boundary;
        if probes >= SHORT_PAGE_PROBES {
          if fixed { NotStranded(history, from, to, fixed, good, cursor, boundary, delivered); }
          SuccessConcluded(server, consumer, history, from, to, trace, delivered);
          break;
        }
        probes := probes + 1;
        continue;
      }
      boundary := if last == cursor then boundary + next else next;
      cursor := last;
      partials := 0;
      if shortPage {
        if last > to || probes >= SHORT_PAGE_PROBES {
          if fixed { NotStranded(history, from, to, fixed, good, cursor, boundary, delivered); }
          SuccessConcluded(server, consumer, history, from, to, trace, delivered);
          break;
        }
        probes := probes + 1;
      } else {
        probes := 0;
      }
    }
    return true, delivered, trace;
  }

  /** Reads pages until the server stays quiet. Whatever the history does meanwhile, every
      delivered tick is in range and no occurrence is delivered twice; over a fixed history
      success means that all of them were. With a reliable server and consumer the traversal never
      succeeds past an impasse or where an oversized group in range ends the history, and fails only
      at a timestamp past the range that alone fills a page, or having delivered more ties of one
      timestamp than it can match on a page. Whatever server and consumer do, the consumer is handed
      every delivered tick, one batch a call, and is not called again once it has declined; success
      means that it accepted every batch and that the server has settled. */
  method VisitTicksRange(from: int, to: int, bootstrapped: bool, server: Server, consumer: Consumer, ghost history: seq<Tick>)
    returns (complete: bool, delivered: seq<Tick>, ghost trace: seq<Read>)
    requires Growing(server, history)
    ensures NoDuplicates(history, from, to, delivered)
    ensures complete && Fixed(server, history) ==> multiset(delivered) == InRange(history, from, to)
    ensures bootstrapped && Fixed(server, history) && Reliable(server, consumer) ==>
              && (complete ==> !Impasse(history, from, to) && !EndsOversized(history, from, to))
              && (!complete ==> LateBurst(history, from, to) || Overfull(delivered, from, to))
              && (TieGroupsFit(history, from, to) ==> (complete <==> !LateBurst(history, from, to)))
    ensures if bootstrapped then Ended(server, consumer, trace, delivered, from, to, complete)
            else !complete && trace == [] && delivered == []
  {
    hide Growing;
    hide NoDuplicates;
    hide Ended;
    hide TieGroupsFit;
    hide Overfull;
    hide LateBurst;
    hide Impasse;
    hide EndsOversized;
    ImpasseIsLateBurst(history, from, to);
    if !bootstrapped {
      NothingKept(history, from, to, false, false);
      return false, [], [];
    }
    complete, delivered, trace := ReadUntilQuiet(from, to, server, consumer, history);
  }
}
