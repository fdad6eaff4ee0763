/** What the collected frames are, and which rows reject a tape, in terms of the rows alone. */
module SampledFrames {
  import opened Arithmetic
  import opened DepthWalk
  import opened Sampling

  // ----- a row and its frame -----

  /** When a row can be acted on: its receive time, or else the assumed time, and the latency. */
  function Due(r: BookRow, p: Policy): int {
    (match r.receivedNs case Some(received) => received case None => r.assumedNs) + 1_000_000 * p.latencyMs
  }

  /** The row can be acted on within its market's session, less the buffers at both ends. */
  predicate Counted(r: BookRow, p: Policy) {
    && 1_000_000 * (r.market.startMs + p.startBufferMs) <= Due(r, p)
    && Due(r, p) < 1_000_000 * (r.market.endMs - p.endBufferMs + 1)
  }

  /** The number of the spacing the row falls into, counted from the start of the window. */
  function GridCell(r: BookRow, p: Policy): int
    requires ValidPolicy(p)
  {
    (Due(r, p) - 1_000_000 * (r.market.startMs + p.startBufferMs)) / (1_000_000 * p.spacingMs)
  }

  /** The frame carries the row's sequence and times, and what the walk of each of its two sides returns. */
  ghost predicate FrameFrom(f: Frame, r: BookRow, p: Policy)
    requires ValidPolicy(p)
  {
    && f.sequence == r.sequence && f.eventNs == r.eventNs && f.receivedNs == r.receivedNs && f.availableNs == Due(r, p)
    && WalkOutcome(r.asks, p.shares, true) == Filled(f.entryCost, f.askDepth, f.askLevels)
    && WalkOutcome(r.bids, p.shares, false) == Filled(f.exitProceeds, f.bidDepth, f.bidLevels)
  }

  /** No earlier row of the series within the window reached the grid cell of row `k`. */
  ghost predicate FirstInCell(rows: seq<BookRow>, p: Policy, k: nat)
    requires ValidPolicy(p) && k < |rows|
  {
    forall j: nat :: j < k && rows[j].key == rows[k].key && Counted(rows[j], p) ==>
      GridCell(rows[j], p) < GridCell(rows[k], p)
  }

  ghost predicate Walks(rows: seq<BookRow>, p: Policy, k: nat)
    requires ValidPolicy(p) && k < |rows|
  {
    Counted(rows[k], p) && FirstInCell(rows, p, k)
  }

  /** The row gives a frame: both its sides fill, and it is the first of its series to reach its grid cell. */
  ghost predicate Kept(rows: seq<BookRow>, p: Policy, k: nat)
    requires ValidPolicy(p) && k < |rows|
  {
    && Walks(rows, p, k)
    && WalkOutcome(rows[k].asks, p.shares, true).Filled? && WalkOutcome(rows[k].bids, p.shares, false).Filled?
  }

  /** What is wrong with a row by itself. */
  predicate BadTimes(r: BookRow, p: Policy) {
    || r.eventNs < 0
    || (r.receivedNs.None? && !(r.explicitQuality && r.eventNs <= r.assumedNs))
    || (r.receivedNs.Some? && !(0 <= r.receivedNs.value && r.eventNs <= r.receivedNs.value + 1_000_000 * p.maxLeadMs))
  }

  /** The row rejects the tape: by its times, a receive time before an earlier row's, or a level it walks. */
  ghost predicate Faulty(rows: seq<BookRow>, p: Policy, k: nat)
    requires ValidPolicy(p) && k < |rows|
  {
    || BadTimes(rows[k], p)
    || (exists j: nat :: j < k && rows[j].key == rows[k].key && OrderingNs(rows[k]) < OrderingNs(rows[j]))
    || (Walks(rows, p, k)
        && (WalkOutcome(rows[k].asks, p.shares, true).InvalidTape?
            || WalkOutcome(rows[k].bids, p.shares, false).InvalidTape?))
  }

  /** The kept rows of one series, in tape order. */
  ghost function KeptRows(rows: seq<BookRow>, p: Policy, key: SeriesKey, n: nat): seq<BookRow>
    requires ValidPolicy(p) && n <= |rows|
  {
    if n == 0 then []
    else KeptRows(rows, p, key, n - 1) + (if rows[n - 1].key == key && Kept(rows, p, n - 1) then [rows[n - 1]] else [])
  }

  // ----- the tables after `n` rows -----

  /** The history holds the latest ordering time of each series. */
  ghost predicate HistoryAt(rows: seq<BookRow>, n: nat, key: SeriesKey, s: Samples)
    requires n <= |rows|
  {
    && (forall j: nat :: j < n && rows[j].key == key ==> key in s.history && OrderingNs(rows[j]) <= s.history[key])
    && (key in s.history ==> exists j: nat :: j < n && rows[j].key == key && OrderingNs(rows[j]) == s.history[key])
  }

  function SlotOf(r: BookRow, p: Policy): int
    requires ValidPolicy(p)
  {
    NextSlot(AvailableMs(r, p), WindowStart(r.market, p), p.spacingMs)
  }

  /** The next time of a series is the end of the latest grid cell that a row within the window reached. */
  ghost predicate NextAt(rows: seq<BookRow>, n: nat, p: Policy, key: SeriesKey, s: Samples)
    requires ValidPolicy(p) && n <= |rows|
  {
    && (forall j: nat :: j < n && rows[j].key == key && InWindow(rows[j], p) ==>
          key in s.next && SlotOf(rows[j], p) <= s.next[key])
    && (key in s.next ==>
          exists j: nat :: j < n && rows[j].key == key && InWindow(rows[j], p) && SlotOf(rows[j], p) == s.next[key])
  }

  /** The frames are those of the rows, one for one. */
  ghost predicate Match(series: seq<Frame>, kept: seq<BookRow>, p: Policy)
    requires ValidPolicy(p)
  {
    |series| == |kept| && forall i :: 0 <= i < |kept| ==> FrameFrom(series[i], kept[i], p)
  }

  ghost predicate FramesAt(rows: seq<BookRow>, n: nat, p: Policy, key: SeriesKey, s: Samples)
    requires ValidPolicy(p) && n <= |rows|
  {
    Match(SeriesOf(s.frames, key), KeptRows(rows, p, key, n), p)
  }

  ghost predicate TapeAt(rows: seq<BookRow>, n: nat, p: Policy, key: SeriesKey, s: Samples)
    requires ValidPolicy(p) && n <= |rows|
  {
    HistoryAt(rows, n, key, s) && NextAt(rows, n, p, key, s) && FramesAt(rows, n, p, key, s)
  }

  // ----- times and cells -----

  lemma WindowExactly(r: BookRow, p: Policy)
    ensures Due(r, p) == AvailableNs(r, p)
    ensures InWindow(r, p) <==> Counted(r, p)
  {
    FloorSpec(AvailableNs(r, p), MICROS);
  }

  lemma CellExactly(r: BookRow, p: Policy)
    requires ValidPolicy(p)
    ensures SlotOf(r, p) == WindowStart(r.market, p) + (GridCell(r, p) + 1) * p.spacingMs
  {
    NestedFloor(AvailableNs(r, p), MICROS, WindowStart(r.market, p), p.spacingMs);
  }

  /** A row is not before another's slot exactly when it falls into a later cell. */
  lemma BeyondSlot(r: BookRow, other: BookRow, p: Policy)
    requires ValidPolicy(p) && r.market == other.market
    ensures SlotOf(other, p) <= AvailableMs(r, p) <==> GridCell(other, p) < GridCell(r, p)
  {
    CellExactly(r, p);
    CellExactly(other, p);
    var lo, c, d := WindowStart(r.market, p), GridCell(other, p), GridCell(r, p);
    NestedFloor(AvailableNs(r, p), MICROS, lo, p.spacingMs);
    FloorSpec(AvailableMs(r, p) - lo, p.spacingMs);
    if SlotOf(other, p) <= AvailableMs(r, p) {
      FloorAtLeast(AvailableMs(r, p) - lo, p.spacingMs, c + 1);
    } else if c < d {
      MulMonotone(c + 1, d, p.spacingMs);
    }
  }

  lemma SlotAfter(r: BookRow, p: Policy)
    requires ValidPolicy(p)
    ensures AvailableMs(r, p) < SlotOf(r, p)
  {
    BeyondSlot(r, r, p);
  }

  /** The schedule lets exactly the first row of each grid cell through. */
  lemma ScheduleExactly(rows: seq<BookRow>, n: nat, p: Policy, market: map<SeriesKey, Market>, s: Samples)
    requires ValidPolicy(p) && MarketsAgree(rows, market) && n < |rows| && NextAt(rows, n, p, rows[n].key, s)
    ensures InWindow(rows[n], p) && AvailableMs(rows[n], p) >= Scheduled(s, rows[n], p) <==> Walks(rows, p, n)
  {
    var r := rows[n];
    WindowExactly(r, p);
    forall j: nat | j < n && rows[j].key == r.key
      ensures InWindow(rows[j], p) <==> Counted(rows[j], p)
      ensures SlotOf(rows[j], p) <= AvailableMs(r, p) <==> GridCell(rows[j], p) < GridCell(r, p)
    {
      WindowExactly(rows[j], p);
      BeyondSlot(r, rows[j], p);
    }
  }

  // ----- one row -----

  lemma HistoryNext(rows: seq<BookRow>, n: nat, m: nat, key: SeriesKey, s: Samples, t: Samples)
    requires n < m == n + 1 <= |rows| && HistoryAt(rows, n, key, s)
    requires t.history == s.history[rows[n].key := OrderingNs(rows[n])]
    requires rows[n].key in s.history ==> s.history[rows[n].key] <= OrderingNs(rows[n])
    ensures HistoryAt(rows, m, key, t)
  {
    if key in s.history && rows[n].key != key {
      var j: nat :| j < n && rows[j].key == key && OrderingNs(rows[j]) == s.history[key];
      assert j < m;
    }
  }

  lemma HistoryExactly(rows: seq<BookRow>, n: nat, p: Policy, s: Samples)
    requires n < |rows| && HistoryAt(rows, n, rows[n].key, s)
    ensures RowInvalid(s, rows[n], p) <==>
      || BadTimes(rows[n], p)
      || exists j: nat :: j < n && rows[j].key == rows[n].key && OrderingNs(rows[n]) < OrderingNs(rows[j])
  {
  }

  /** What a step does to the next time of the row's series. */
  ghost predicate Reschedules(r: BookRow, p: Policy, s: Samples, t: Samples)
    requires ValidPolicy(p)
  {
    && (forall key :: key != r.key ==> SameNext(s, t, key))
    && (if InWindow(r, p) then
          r.key in t.next
          && t.next[r.key] == if AvailableMs(r, p) < Scheduled(s, r, p) then Scheduled(s, r, p) else SlotOf(r, p)
        else SameNext(s, t, r.key))
  }

  ghost predicate SameNext(s: Samples, t: Samples, key: SeriesKey) {
    (key in t.next <==> key in s.next) && (key in s.next ==> t.next[key] == s.next[key])
  }

  lemma NextNext(rows: seq<BookRow>, n: nat, m: nat, p: Policy, market: map<SeriesKey, Market>, key: SeriesKey,
                 s: Samples, t: Samples)
    requires ValidPolicy(p) && MarketsAgree(rows, market) && n < m == n + 1 <= |rows|
    requires NextAt(rows, n, p, key, s) && Reschedules(rows[n], p, s, t)
    ensures NextAt(rows, m, p, key, t)
  {
    var r := rows[n];
    if key == r.key && InWindow(r, p) {
      if AvailableMs(r, p) < Scheduled(s, r, p) {
        var j: nat :| j < n && rows[j].key == key && InWindow(rows[j], p) && SlotOf(rows[j], p) == s.next[key];
        SlotOrder(r, rows[j], p);
        assert j < m;
      } else {
        SlotAfter(r, p);
        assert n < m && SlotOf(rows[n], p) == t.next[key];
      }
    } else {
      assert SameNext(s, t, key);
      if key in s.next {
        var j: nat :| j < n && rows[j].key == key && InWindow(rows[j], p) && SlotOf(rows[j], p) == s.next[key];
        assert j < m;
      }
    }
  }

  /** A row before another's slot has no later slot. */
  lemma SlotOrder(r: BookRow, other: BookRow, p: Policy)
    requires ValidPolicy(p) && r.market == other.market && AvailableMs(r, p) < SlotOf(other, p)
    ensures SlotOf(r, p) <= SlotOf(other, p)
  {
    BeyondSlot(r, other, p);
    CellExactly(r, p);
    CellExactly(other, p);
    MulMonotone(GridCell(r, p) + 1, GridCell(other, p) + 1, p.spacingMs);
  }

  /** What a step does to the frames of the row's series. */
  ghost predicate Appends(r: BookRow, p: Policy, kept: bool, s: Samples, t: Samples)
    requires ValidPolicy(p)
  {
    && (forall key :: key != r.key ==> SeriesOf(t.frames, key) == SeriesOf(s.frames, key))
    && (if !kept then SeriesOf(t.frames, r.key) == SeriesOf(s.frames, r.key)
        else exists f: Frame :: FrameFrom(f, r, p) && SeriesOf(t.frames, r.key) == SeriesOf(s.frames, r.key) + [f])
  }

  lemma KeptNext(rows: seq<BookRow>, n: nat, m: nat, p: Policy, key: SeriesKey)
    requires ValidPolicy(p) && n < m == n + 1 <= |rows|
    ensures KeptRows(rows, p, key, m)
         == KeptRows(rows, p, key, n) + (if rows[n].key == key && Kept(rows, p, n) then [rows[n]] else [])
  {
  }

  lemma MatchNext(series: seq<Frame>, kept: seq<BookRow>, f: Frame, r: BookRow, p: Policy)
    requires ValidPolicy(p) && Match(series, kept, p) && FrameFrom(f, r, p)
    ensures Match(series + [f], kept + [r], p)
  {
  }

  lemma FramesNext(rows: seq<BookRow>, n: nat, m: nat, p: Policy, key: SeriesKey, s: Samples, t: Samples)
    requires ValidPolicy(p) && n < m == n + 1 <= |rows|
    requires FramesAt(rows, n, p, key, s) && Appends(rows[n], p, Kept(rows, p, n), s, t)
    ensures FramesAt(rows, m, p, key, t)
  {
    KeptNext(rows, n, m, p, key);
    var series, kept := SeriesOf(s.frames, key), KeptRows(rows, p, key, n);
    if rows[n].key == key && Kept(rows, p, n) {
      var f: Frame :| FrameFrom(f, rows[n], p) && SeriesOf(t.frames, key) == series + [f];
      MatchNext(series, kept, f, rows[n], p);
    } else {
      assert KeptRows(rows, p, key, m) == kept && SeriesOf(t.frames, key) == series;
    }
  }

  /** One row, by its outcome: rejected, or the three tables move. */
  lemma RowStep(s: Samples, r: BookRow, p: Policy)
    requires ValidPolicy(p)
    ensures var buy, sell := WalkOutcome(r.asks, p.shares, true), WalkOutcome(r.bids, p.shares, false);
      var walks, o := InWindow(r, p) && AvailableMs(r, p) >= Scheduled(s, r, p), SampleRow(s, r, p);
      && (o.None? <==> RowInvalid(s, r, p) || (walks && (buy.InvalidTape? || sell.InvalidTape?)))
      && (o.Some? ==>
            && o.value.history == s.history[r.key := OrderingNs(r)]
            && Reschedules(r, p, s, o.value)
            && Appends(r, p, walks && buy.Filled? && sell.Filled?, s, o.value))
  {
    var buy, sell := WalkOutcome(r.asks, p.shares, true), WalkOutcome(r.bids, p.shares, false);
    if buy.Filled? && sell.Filled? {
      assert FrameFrom(FrameOf(r, p, buy, sell), r, p);
    }
  }

  /** The tape so far was rejected exactly by a faulty row, or the tables are what its rows say. */
  ghost predicate TapeUpto(rows: seq<BookRow>, n: nat, p: Policy)
    requires ValidPolicy(p) && n <= |rows|
  {
    var o := SampleAll(rows[..n], p);
    if o.None? then exists k: nat :: k < n && Faulty(rows, p, k)
    else (forall k: nat :: k < n ==> !Faulty(rows, p, k)) && forall key :: TapeAt(rows, n, p, key, o.value)
  }

  lemma TapeNext(rows: seq<BookRow>, n: nat, m: nat, p: Policy, market: map<SeriesKey, Market>, s: Samples)
    requires ValidPolicy(p) && MarketsAgree(rows, market) && n < m == n + 1 <= |rows|
    requires forall key :: TapeAt(rows, n, p, key, s)
    ensures SampleRow(s, rows[n], p).None? <==> Faulty(rows, p, n)
    ensures SampleRow(s, rows[n], p).Some? ==> forall key :: TapeAt(rows, m, p, key, SampleRow(s, rows[n], p).value)
  {
    var r, o := rows[n], SampleRow(s, rows[n], p);
    assert TapeAt(rows, n, p, r.key, s);
    RowStep(s, r, p);
    HistoryExactly(rows, n, p, s);
    ScheduleExactly(rows, n, p, market, s);
    if o.Some? {
      forall key ensures TapeAt(rows, m, p, key, o.value) {
        assert TapeAt(rows, n, p, key, s);
        HistoryNext(rows, n, m, key, s, o.value);
        NextNext(rows, n, m, p, market, key, s, o.value);
        FramesNext(rows, n, m, p, key, s, o.value);
      }
    }
  }

  lemma {:induction false} TapeIs(rows: seq<BookRow>, n: nat, p: Policy, market: map<SeriesKey, Market>)
    requires ValidPolicy(p) && MarketsAgree(rows, market) && n <= |rows|
    ensures TapeUpto(rows, n, p)
  {
    if n > 0 {
      var before: nat := n - 1;
      TapeIs(rows, before, p, market);
      assert rows[..n][..before] == rows[..before];
      var o := SampleAll(rows[..before], p);
      if o.Some? {
        TapeNext(rows, before, n, p, market, o.value);
      }
    }
  }

  // ----- the whole tape -----

  /**
   * A tape is rejected exactly when one of its rows is faulty. Otherwise the frames of a series are, one for
   * one and in tape order, those of the rows kept.
   */
  lemma CollectedExactly(rows: seq<BookRow>, p: Policy, market: map<SeriesKey, Market>, key: SeriesKey)
    requires ValidPolicy(p) && MarketsAgree(rows, market)
    ensures SampleAll(rows, p).None? <==> exists k: nat :: k < |rows| && Faulty(rows, p, k)
    ensures SampleAll(rows, p).Some? ==>
      Match(SeriesOf(SampleAll(rows, p).value.frames, key), KeptRows(rows, p, key, |rows|), p)
  {
    TapeIs(rows, |rows|, p, market);
    assert rows[..|rows|] == rows;
    if SampleAll(rows, p).Some? {
      assert TapeAt(rows, |rows|, p, key, SampleAll(rows, p).value);
    }
  }

  /** Row `r` is one of the first `n` rows of the series that are kept. */
  ghost predicate KeptBefore(rows: seq<BookRow>, p: Policy, key: SeriesKey, n: nat, r: BookRow)
    requires ValidPolicy(p) && n <= |rows|
  {
    exists k: nat :: k < n && rows[k] == r && r.key == key && Kept(rows, p, k)
  }

  lemma KeptBeforeNext(rows: seq<BookRow>, p: Policy, key: SeriesKey, n: nat, m: nat, r: BookRow)
    requires ValidPolicy(p) && n < m == n + 1 <= |rows|
    ensures KeptBefore(rows, p, key, m, r)
       <==> KeptBefore(rows, p, key, n, r) || (rows[n] == r && r.key == key && Kept(rows, p, n))
  {
  }

  lemma {:induction false} KeptExactly(rows: seq<BookRow>, p: Policy, key: SeriesKey, n: nat, r: BookRow)
    requires ValidPolicy(p) && n <= |rows|
    ensures r in KeptRows(rows, p, key, n) <==> KeptBefore(rows, p, key, n, r)
  {
    if n > 0 {
      var before: nat := n - 1;
      KeptExactly(rows, p, key, before, r);
      KeptNext(rows, before, n, p, key);
      KeptBeforeNext(rows, p, key, before, n, r);
    }
  }

  /** A row gives a frame of its series if it is kept, and each frame of a series comes from a kept row of it. */
  lemma FramesAreKeptRows(rows: seq<BookRow>, p: Policy, market: map<SeriesKey, Market>, key: SeriesKey)
    requires ValidPolicy(p) && MarketsAgree(rows, market) && SampleAll(rows, p).Some?
    ensures var series := SeriesOf(SampleAll(rows, p).value.frames, key);
      && (forall f :: f in series ==>
            exists k: nat :: k < |rows| && rows[k].key == key && Kept(rows, p, k) && FrameFrom(f, rows[k], p))
      && (forall k: nat :: k < |rows| && rows[k].key == key && Kept(rows, p, k) ==>
            exists f :: f in series && FrameFrom(f, rows[k], p))
  {
    CollectedExactly(rows, p, market, key);
    var series, kept := SeriesOf(SampleAll(rows, p).value.frames, key), KeptRows(rows, p, key, |rows|);
    forall r ensures r in kept <==> KeptBefore(rows, p, key, |rows|, r) {
      KeptExactly(rows, p, key, |rows|, r);
    }
    forall f | f in series
      ensures exists k: nat :: k < |rows| && rows[k].key == key && Kept(rows, p, k) && FrameFrom(f, rows[k], p)
    {
      var i :| 0 <= i < |series| && series[i] == f;
      assert kept[i] in kept && KeptBefore(rows, p, key, |rows|, kept[i]);
    }
    forall k: nat | k < |rows| && rows[k].key == key && Kept(rows, p, k)
      ensures exists f :: f in series && FrameFrom(f, rows[k], p)
    {
      assert KeptBefore(rows, p, key, |rows|, rows[k]);
      var i :| 0 <= i < |kept| && kept[i] == rows[k];
      assert series[i] in series;
    }
  }

  /** A frame taken on an uncrossed book never sells for more than it costs to enter. */
  lemma FrameUncrossed(f: Frame, r: BookRow, p: Policy)
    requires ValidPolicy(p) && FrameFrom(f, r, p)
    requires forall ask, bid :: ask in r.asks && bid in r.bids && ask.Level? && bid.Level? ==> bid.price <= ask.price
    ensures 0 < f.entryCost && f.exitProceeds <= f.entryCost
  {
    var n: nat :| FilledAt(r.asks, p.shares, true, n);
    var k: nat :| FilledAt(r.bids, p.shares, false, k);
    FillsAt(r.asks, p.shares, true, n);
    FillsAt(r.bids, p.shares, false, k);
    assert GoodLevel(r.asks[0]) && GoodLevel(r.bids[0]);
    assert r.asks[0] in r.asks && r.bids[0] in r.bids;
    SaleBelowPurchase(r.asks, r.bids, p.shares, n, k);
    WalkedEntryCost(r.asks, p.shares);
  }
}
