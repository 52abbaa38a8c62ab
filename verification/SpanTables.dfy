/** Turning per-block announcements of servers into one span per server. */
module SpanTables {
  import opened Common

  /** What a server announces for one block; the states are ordered OFFLINE, JOINING, ONLINE. */
  datatype ServerInfo = ServerInfo(state: nat, startBlock: Option<nat>, endBlock: Option<nat>, throughput: real)

  datatype SpanEntry = SpanEntry(start: int, end: int, info: ServerInfo)

  type Announcements = seq<map<nat, ServerInfo>>

  function MaxInt(x: int, y: int): int {
    if x < y then y else x
  }

  function MinInt(x: int, y: int): int {
    if x < y then x else y
  }

  /** A new entry: the announced range cut to the blocks at hand, or just this block. */
  function Opened(info: ServerInfo, b: nat, offset: nat, blocks: nat): SpanEntry {
    if info.startBlock.Some? && info.endBlock.Some? then
      SpanEntry(MaxInt(info.startBlock.value - offset, 0), MinInt(info.endBlock.value - offset, blocks), info)
    else
      SpanEntry(b, b + 1, info)
  }

  /** A peer's entry after one more block. */
  function Updated(
    entry: Option<SpanEntry>, info: ServerInfo, b: nat, offset: nat, blocks: nat, minState: nat): Option<SpanEntry>
  {
    if info.state < minState then entry
    else if entry.None? || entry.value.info.state < info.state then Some(Opened(info, b, offset, blocks))
    else if entry.value.info.state == info.state then Some(entry.value.(end := MaxInt(entry.value.end, b + 1)))
    else entry
  }

  /** A peer's entry after the first n blocks. */
  ghost function EntryAfter(modules: Announcements, p: nat, n: nat, offset: nat, minState: nat): Option<SpanEntry>
    requires n <= |modules|
  {
    if n == 0 then None
    else
      var entry := EntryAfter(modules, p, n - 1, offset, minState);
      if p in modules[n - 1] then Updated(entry, modules[n - 1][p], n - 1, offset, |modules|, minState) else entry
  }

  function Lookup(spans: map<nat, SpanEntry>, p: nat): Option<SpanEntry> {
    if p in spans then Some(spans[p]) else None
  }

  method ComputeSpans(modules: Announcements, offset: nat, minState: nat) returns (spans: map<nat, SpanEntry>)
    ensures forall p :: Lookup(spans, p) == EntryAfter(modules, p, |modules|, offset, minState)
  {
    spans := map[];
    for b := 0 to |modules|
      invariant forall p :: Lookup(spans, p) == EntryAfter(modules, p, b, offset, minState)
    {
      var left := modules[b].Keys;
      while left != {}
        invariant left <= modules[b].Keys
        invariant forall p :: Lookup(spans, p)
                              == EntryAfter(modules, p, if p in left then b else b + 1, offset, minState)
                              || (p !in modules[b] && Lookup(spans, p) == EntryAfter(modules, p, b, offset, minState))
        decreases left
      {
        var p :| p in left;
        var entry := Updated(Lookup(spans, p), modules[b][p], b, offset, |modules|, minState);
        if entry.Some? {
          spans := spans[p := entry.value];
        }
        left := left - {p};
      }
    }
  }

  /** Peer p announces block b in the given state. */
  ghost predicate AnnouncedIn(modules: Announcements, p: nat, b: nat, state: nat) {
    b < |modules| && p in modules[b] && modules[b][p].state == state
  }

  /** Block b is the first one in the state of the entry, and the entry was opened there. */
  ghost predicate OpenedAt(modules: Announcements, p: nat, b: nat, entry: SpanEntry, minState: nat) {
    && AnnouncedIn(modules, p, b, entry.info.state) && entry.info == modules[b][p] && entry.info.state >= minState
    && forall c: nat | c < b :: !AnnouncedIn(modules, p, c, entry.info.state)
  }

  /** A later block in the same state lies behind the start. */
  ghost predicate Stretched(modules: Announcements, p: nat, b: nat, n: nat, entry: SpanEntry) {
    exists c: nat :: b < c < n && c >= entry.start && AnnouncedIn(modules, p, c, entry.info.state)
  }

  /**
   Whatever is announced, a span begins at or after 0 and ends inside the model. It is nonempty exactly if
   the range announced with its first block is, or if a later block in the same state lies behind its start.
   */
  lemma {:induction false} SpanIsNonemptyExactly(modules: Announcements, p: nat, n: nat, offset: nat, minState: nat)
    returns (b: nat)
    requires n <= |modules|
    ensures var e := EntryAfter(modules, p, n, offset, minState);
            e.Some? ==>
              && b < n && OpenedAt(modules, p, b, e.value, minState)
              && var range := Opened(e.value.info, b, offset, |modules|);
              && 0 <= e.value.start == range.start && range.end <= e.value.end <= |modules|
              && (e.value.start < e.value.end <==> range.start < range.end || Stretched(modules, p, b, n, e.value))
  {
    b := 0;
    if n > 0 {
      b := SpanIsNonemptyExactly(modules, p, n - 1, offset, minState);
      var before, now := EntryAfter(modules, p, n - 1, offset, minState), EntryAfter(modules, p, n, offset, minState);
      if now.Some? && (before.None? || before.value.info.state < now.value.info.state) {
        b := n - 1;
        NothingHigher(modules, p, n - 1, offset, minState);
      } else if now.Some? {
        StretchedOnce(modules, p, b, n, before.value, now.value);
      }
    }
  }

  lemma {:induction false} NothingHigher(modules: Announcements, p: nat, n: nat, offset: nat, minState: nat)
    requires n <= |modules|
    ensures var e := EntryAfter(modules, p, n, offset, minState);
            forall c: nat, state: nat | c < n && AnnouncedIn(modules, p, c, state) && state >= minState ::
              e.Some? && state <= e.value.info.state
  {
    if n > 0 {
      NothingHigher(modules, p, n - 1, offset, minState);
    }
  }

  lemma StretchedOnce(modules: Announcements, p: nat, b: nat, n: nat, before: SpanEntry, now: SpanEntry)
    requires 0 < n <= |modules| && b < n - 1 && now.start == before.start && now.info.state == before.info.state
    ensures Stretched(modules, p, b, n, now) <==>
            Stretched(modules, p, b, n - 1, before)
            || (n - 1 >= now.start && AnnouncedIn(modules, p, n - 1, now.info.state))
  {
    if c: nat :| b < c < n && c >= now.start && AnnouncedIn(modules, p, c, now.info.state) {
      assert c < n - 1 ==> Stretched(modules, p, b, n - 1, before);
    }
    if c: nat :| b < c < n - 1 && c >= before.start && AnnouncedIn(modules, p, c, before.info.state) {
      assert Stretched(modules, p, b, n, now);
    }
  }

  /** Announcements of an empty range give a reversed span. */
  lemma RangeMayBeReversed(info: ServerInfo)
    requires info == ServerInfo(2, Some(1), Some(0), 1.0)
    ensures EntryAfter([map[0 := info]], 0, 1, 0, 1) == Some(SpanEntry(1, 0, info))
  {
    assert EntryAfter([map[0 := info]], 0, 0, 0, 1) == None;
  }

  /** Servers announce a block only inside the range they announce with it. */
  ghost predicate Honest(modules: Announcements, offset: nat) {
    forall b, p | 0 <= b < |modules| && p in modules[b] ::
      var info := modules[b][p];
      && (info.startBlock.Some? ==> info.startBlock.value <= offset + b)
      && (info.endBlock.Some? ==> offset + b < info.endBlock.value)
  }

  /**
   A server has a span exactly if some block announces it in a high enough state; the span is then in the
   highest state announced. If servers announce blocks inside their ranges, the span is nonempty and covers
   every block behind its start that is announced in its state.
   */
  lemma {:induction false} SpansAreProper(modules: Announcements, p: nat, n: nat, offset: nat, minState: nat)
    requires n <= |modules|
    ensures var entry := EntryAfter(modules, p, n, offset, minState);
            && (entry.Some? <==> exists b :: 0 <= b < n && p in modules[b] && modules[b][p].state >= minState)
            && (entry.Some? ==>
                  forall b | 0 <= b < n && p in modules[b] && modules[b][p].state >= minState ::
                    modules[b][p].state <= entry.value.info.state)
            && (entry.Some? && Honest(modules, offset) ==>
                  && 0 <= entry.value.start < entry.value.end <= |modules|
                  && entry.value.start < n
                  && forall b | entry.value.start <= b < n && p in modules[b]
                                && modules[b][p].state == entry.value.info.state :: b < entry.value.end)
  {
    if n > 0 {
      SpansAreProper(modules, p, n - 1, offset, minState);
      if p in modules[n - 1] && modules[n - 1][p].state >= minState {
        assert exists b :: 0 <= b < n && p in modules[b] && modules[b][p].state >= minState;
      }
    }
  }

  /** A server that announces blocks without a range gets everything from the first to the last of them. */
  lemma {:induction false} RangelessServerSpansItsBlocks(
    modules: Announcements, p: nat, n: nat, offset: nat, minState: nat, info: ServerInfo)
    requires n <= |modules| && (info.startBlock == None || info.endBlock == None) && info.state >= minState
    requires forall b | 0 <= b < n && p in modules[b] :: modules[b][p] == info
    ensures var entry := EntryAfter(modules, p, n, offset, minState);
            && (entry.Some? <==> exists b: nat :: b < n && p in modules[b])
            && (entry.Some? ==>
                  && 0 <= entry.value.start < entry.value.end <= n && entry.value.info == info
                  && p in modules[entry.value.start] && p in modules[entry.value.end - 1]
                  && forall b: nat | b < n && p in modules[b] :: entry.value.start <= b < entry.value.end)
  {
    if n > 0 {
      RangelessServerSpansItsBlocks(modules, p, n - 1, offset, minState, info);
    }
  }

  /** Block b is announced, and an earlier one was. */
  ghost predicate AnnouncedAgain(modules: Announcements, p: nat, n: nat, b: nat) {
    b < n <= |modules| && p in modules[b] && exists c: nat :: c < b && p in modules[c]
  }

  /**
   A server that announces one and the same range for its blocks gets exactly that range, counted from the first
   block at hand and cut to those at hand, if and only if all its blocks after the first lie before its end.
   */
  lemma {:induction false} SteadyServerGetsItsRange(
    modules: Announcements, p: nat, n: nat, offset: nat, minState: nat, info: ServerInfo, from: nat, to: nat)
    requires n <= |modules| && info.startBlock == Some(from) && info.endBlock == Some(to) && info.state >= minState
    requires forall b | 0 <= b < n && p in modules[b] :: modules[b][p] == info
    ensures var entry := EntryAfter(modules, p, n, offset, minState);
            var start := if from >= offset then from - offset else 0;
            var end := if to - offset <= |modules| then to - offset else |modules|;
            && (entry.Some? <==> exists b: nat :: b < n && p in modules[b])
            && (entry.Some? ==> entry.value.info == info && entry.value.start == start && entry.value.end >= end)
            && (entry.Some? ==> (entry.value.end == end <==> LaterBlocksBefore(modules, p, n, end)))
  {
    if n > 0 {
      SteadyServerGetsItsRange(modules, p, n - 1, offset, minState, info, from, to);
      LaterBlocksGrow(modules, p, n, if to - offset <= |modules| then to - offset else |modules|);
    }
  }

  ghost predicate LaterBlocksBefore(modules: Announcements, p: nat, n: nat, end: int) {
    forall b: nat | AnnouncedAgain(modules, p, n, b) :: b < end
  }

  lemma LaterBlocksGrow(modules: Announcements, p: nat, n: nat, end: int)
    requires 0 < n <= |modules|
    ensures LaterBlocksBefore(modules, p, n, end) <==>
            LaterBlocksBefore(modules, p, n - 1, end)
            && (p in modules[n - 1] && (exists c: nat :: c < n - 1 && p in modules[c]) ==> n - 1 < end)
  {
    if LaterBlocksBefore(modules, p, n, end) {
      var before := n - 1;
      forall b: nat | AnnouncedAgain(modules, p, before, b) ensures b < end {
        assert AnnouncedAgain(modules, p, n, b);
      }
      assert p in modules[n - 1] && (exists c: nat :: c < n - 1 && p in modules[c]) ==>
          AnnouncedAgain(modules, p, n, n - 1);
    } else {
      var b: nat :| AnnouncedAgain(modules, p, n, b) && b >= end;
      assert b < n - 1 ==> AnnouncedAgain(modules, p, n - 1, b);
    }
  }
}
