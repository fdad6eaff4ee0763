/** Sampling book rows onto a time grid, and labelling each kept frame by a binary search over the series. */
module Sampling {
  import opened Results
  import opened Arithmetic
  import opened DepthWalk

  const BPS: int := 10_000

  datatype Policy = Policy(
    spacingMs: int, latencyMs: int, maxLeadMs: int, startBufferMs: int, endBufferMs: int,
    maxGapMs: int, shares: int, feeBps: int, horizonsMs: seq<int>)

  /** The policy reader rejects anything else. */
  predicate ValidPolicy(p: Policy) {
    && p.spacingMs > 0 && p.latencyMs > 0 && p.maxLeadMs > 0 && p.startBufferMs > 0 && p.endBufferMs > 0
    && p.maxGapMs > 0 && p.shares > 0 && 0 < p.feeBps <= BPS
    && |p.horizonsMs| > 0 && (forall i :: 0 <= i < |p.horizonsMs| ==> p.horizonsMs[i] > 0)
  }

  datatype Side = Up | Down

  datatype SeriesKey = SeriesKey(condition: string, side: Side)

  datatype Market = Market(startMs: int, endMs: int)

  /** A book row of a known token; without a receive time it carries an assumed available time. */
  datatype BookRow = BookRow(
    key: SeriesKey, market: Market, eventNs: int, receivedNs: Option<int>, explicitQuality: bool,
    assumedNs: int, sequence: int, asks: seq<RawLevel>, bids: seq<RawLevel>)

  datatype Frame = Frame(
    sequence: int, eventNs: int, receivedNs: Option<int>, availableNs: int,
    entryCost: int, exitProceeds: int, bidDepth: int, askDepth: int, bidLevels: nat, askLevels: nat)

  datatype Samples = Samples(
    frames: map<SeriesKey, seq<Frame>>, next: map<SeriesKey, int>, history: map<SeriesKey, int>)

  function OrderingNs(r: BookRow): int {
    if r.receivedNs.Some? then r.receivedNs.value else r.eventNs
  }

  function AvailableNs(r: BookRow, p: Policy): int {
    (if r.receivedNs.Some? then r.receivedNs.value else r.assumedNs) + p.latencyMs * MICROS
  }

  function AvailableMs(r: BookRow, p: Policy): int {
    AvailableNs(r, p) / MICROS
  }

  function WindowStart(m: Market, p: Policy): int {
    m.startMs + p.startBufferMs
  }

  function WindowEnd(m: Market, p: Policy): int {
    m.endMs - p.endBufferMs
  }

  /** Rows that reject the whole tape. */
  predicate RowInvalid(s: Samples, r: BookRow, p: Policy) {
    || (r.receivedNs.None? && (!r.explicitQuality || r.assumedNs < r.eventNs))
    || r.eventNs < 0 || OrderingNs(r) < 0
    || (r.receivedNs.Some? && r.eventNs - r.receivedNs.value > p.maxLeadMs * MICROS)
    || (r.key in s.history && OrderingNs(r) < s.history[r.key])
  }

  function NextSlot(availableMs: int, lo: int, spacingMs: int): int
    requires spacingMs > 0
  {
    lo + ((availableMs - lo) / spacingMs + 1) * spacingMs
  }

  function SeriesOf(frames: map<SeriesKey, seq<Frame>>, key: SeriesKey): seq<Frame> {
    if key in frames then frames[key] else []
  }

  function Scheduled(s: Samples, r: BookRow, p: Policy): int {
    if r.key in s.next then s.next[r.key] else WindowStart(r.market, p)
  }

  predicate InWindow(r: BookRow, p: Policy) {
    WindowStart(r.market, p) <= AvailableMs(r, p) <= WindowEnd(r.market, p)
  }

  function FrameOf(r: BookRow, p: Policy, buy: WalkResult, sell: WalkResult): Frame
    requires buy.Filled? && sell.Filled?
  {
    Frame(r.sequence, r.eventNs, r.receivedNs, AvailableNs(r, p), buy.consideration, sell.consideration,
          sell.depth, buy.depth, sell.used, buy.used)
  }

  /** One row: check, schedule, walk both sides, keep the frame when both fill. */
  ghost function SampleRow(s: Samples, r: BookRow, p: Policy): Option<Samples>
    requires ValidPolicy(p)
  {
    if RowInvalid(s, r, p) then None
    else
      var history := s.history[r.key := OrderingNs(r)];
      if !InWindow(r, p) then Some(s.(history := history))
      else
        var scheduled := Scheduled(s, r, p);
        if AvailableMs(r, p) < scheduled then Some(s.(history := history, next := s.next[r.key := scheduled]))
        else
          var next := s.next[r.key := NextSlot(AvailableMs(r, p), WindowStart(r.market, p), p.spacingMs)];
          var buy, sell := WalkOutcome(r.asks, p.shares, true), WalkOutcome(r.bids, p.shares, false);
          if buy.InvalidTape? || sell.InvalidTape? then None
          else if buy.NoFill? || sell.NoFill? then Some(s.(history := history, next := next))
          else
            Some(Samples(s.frames[r.key := SeriesOf(s.frames, r.key) + [FrameOf(r, p, buy, sell)]], next, history))
  }

  ghost function SampleAll(rows: seq<BookRow>, p: Policy): Option<Samples>
    requires ValidPolicy(p)
  {
    if |rows| == 0 then Some(Samples(map[], map[], map[]))
    else
      var s := SampleAll(rows[..|rows| - 1], p);
      if s.None? then None else SampleRow(s.value, rows[|rows| - 1], p)
  }

  lemma {:induction false} RejectionStands(rows: seq<BookRow>, p: Policy, n: nat)
    requires ValidPolicy(p) && n <= |rows| && SampleAll(rows[..n], p).None?
    ensures SampleAll(rows, p).None?
  {
    if n < |rows| {
      assert rows[..|rows| - 1][..n] == rows[..n];
      RejectionStands(rows[..|rows| - 1], p, n);
    } else {
      assert rows[..n] == rows;
    }
  }

  /** Updates the three tables for one row. */
  method SampleOne(s: Samples, row: BookRow, p: Policy) returns (r: Option<Samples>)
    requires ValidPolicy(p)
    ensures r == SampleRow(s, row, p)
  {
    if RowInvalid(s, row, p) {
      return None;
    }
    var history := s.history[row.key := OrderingNs(row)];
    if !InWindow(row, p) {
      return Some(s.(history := history));
    }
    var scheduled := Scheduled(s, row, p);
    if AvailableMs(row, p) < scheduled {
      return Some(s.(history := history, next := s.next[row.key := scheduled]));
    }
    var next := s.next[row.key := NextSlot(AvailableMs(row, p), WindowStart(row.market, p), p.spacingMs)];
    var buy := Walk(row.asks, p.shares, true);
    var sell := Walk(row.bids, p.shares, false);
    if buy.InvalidTape? || sell.InvalidTape? {
      return None;
    }
    if buy.NoFill? || sell.NoFill? {
      return Some(s.(history := history, next := next));
    }
    var series := SeriesOf(s.frames, row.key) + [FrameOf(row, p, buy, sell)];
    return Some(Samples(s.frames[row.key := series], next, history));
  }

  /** The sampling loop over a tape, exactly the fold of its rows. */
  method CollectFrames(rows: seq<BookRow>, p: Policy) returns (r: Option<map<SeriesKey, seq<Frame>>>)
    requires ValidPolicy(p)
    ensures r.Some? <==> SampleAll(rows, p).Some?
    ensures r.Some? ==> r.value == SampleAll(rows, p).value.frames
  {
    var samples := Samples(map[], map[], map[]);
    for i := 0 to |rows|
      invariant SampleAll(rows[..i], p) == Some(samples)
    {
      assert rows[..i + 1][..i] == rows[..i];
      var step := SampleOne(samples, rows[i], p);
      if step.None? {
        RejectionStands(rows, p, i + 1);
        return None;
      }
      samples := step.value;
    }
    assert rows[..|rows|] == rows;
    return Some(samples.frames);
  }

  // ----- what the grid guarantees -----

  /** The grid cell of an availability time. */
  function Cell(availableNs: int, lo: int, spacingMs: int): int
    requires spacingMs > 0
  {
    (availableNs / MICROS - lo) / spacingMs
  }

  /** Strictly increasing availability, at most one frame a cell, positive entry cost. */
  ghost predicate GoodSeries(series: seq<Frame>, lo: int, p: Policy)
    requires ValidPolicy(p)
  {
    && (forall i, j :: 0 <= i < j < |series| ==> series[i].availableNs < series[j].availableNs)
    && (forall i, j :: 0 <= i < j < |series| ==>
          Cell(series[i].availableNs, lo, p.spacingMs) < Cell(series[j].availableNs, lo, p.spacingMs))
    && (forall i :: 0 <= i < |series| ==> series[i].entryCost > 0 && series[i].availableNs / MICROS >= lo)
  }

  /** Rows of one series all name the same market. */
  ghost predicate MarketsAgree(rows: seq<BookRow>, market: map<SeriesKey, Market>) {
    forall i :: 0 <= i < |rows| ==> rows[i].key in market && market[rows[i].key] == rows[i].market
  }

  /** Every kept frame lies in a grid cell that ends no later than `next`. */
  ghost predicate Before(series: seq<Frame>, lo: int, p: Policy, next: int)
    requires ValidPolicy(p)
  {
    forall i :: 0 <= i < |series| ==> lo + (Cell(series[i].availableNs, lo, p.spacingMs) + 1) * p.spacingMs <= next
  }

  ghost predicate GridAt(s: Samples, key: SeriesKey, lo: int, p: Policy)
    requires ValidPolicy(p)
  {
    var series := SeriesOf(s.frames, key);
    && GoodSeries(series, lo, p)
    && (if key in s.next then Before(series, lo, p, s.next[key]) else series == [])
  }

  lemma CellOrder(x: int, y: int, lo: int, spacingMs: int)
    requires spacingMs > 0 && Cell(x, lo, spacingMs) < Cell(y, lo, spacingMs)
    ensures x < y
  {
    if y <= x {
      FloorMonotone(y, x, MICROS);
      FloorMonotone(y / MICROS - lo, x / MICROS - lo, spacingMs);
    }
  }

  lemma WalkedEntryCost(levels: seq<RawLevel>, quantity: nat)
    requires quantity > 0 && WalkOutcome(levels, quantity, true).Filled?
    ensures WalkOutcome(levels, quantity, true).consideration > 0
  {
    var n: nat :| FilledAt(levels, quantity, true, n)
      && WalkOutcome(levels, quantity, true).consideration == Consideration(levels, quantity, true, n);
    BuyCostPositive(levels, quantity, n);
  }

  /** A row at or after the scheduled time falls into a later cell than every kept frame. */
  lemma LaterCell(series: seq<Frame>, lo: int, p: Policy, scheduled: int, availableNs: int)
    requires ValidPolicy(p) && Before(series, lo, p, scheduled) && availableNs / MICROS >= scheduled
    ensures forall i :: 0 <= i < |series| ==>
      Cell(series[i].availableNs, lo, p.spacingMs) < Cell(availableNs, lo, p.spacingMs)
    ensures Before(series, lo, p, NextSlot(availableNs / MICROS, lo, p.spacingMs))
  {
    forall i | 0 <= i < |series|
      ensures Cell(series[i].availableNs, lo, p.spacingMs) < Cell(availableNs, lo, p.spacingMs)
      ensures lo + (Cell(series[i].availableNs, lo, p.spacingMs) + 1) * p.spacingMs
              <= NextSlot(availableNs / MICROS, lo, p.spacingMs)
    {
      var c, d := Cell(series[i].availableNs, lo, p.spacingMs), Cell(availableNs, lo, p.spacingMs);
      FloorAtLeast(availableNs / MICROS - lo, p.spacingMs, c + 1);
      MulMonotone(c + 1, d + 1, p.spacingMs);
    }
  }

  lemma AppendKeepsSeries(series: seq<Frame>, f: Frame, lo: int, p: Policy, scheduled: int)
    requires ValidPolicy(p) && GoodSeries(series, lo, p) && f.entryCost > 0 && f.availableNs / MICROS >= lo
    requires Before(series, lo, p, scheduled) && f.availableNs / MICROS >= scheduled
    ensures GoodSeries(series + [f], lo, p)
    ensures Before(series + [f], lo, p, NextSlot(f.availableNs / MICROS, lo, p.spacingMs))
  {
    LaterCell(series, lo, p, scheduled, f.availableNs);
    forall i | 0 <= i < |series|
      ensures series[i].availableNs < f.availableNs
    {
      CellOrder(series[i].availableNs, f.availableNs, lo, p.spacingMs);
    }
  }

  /** What one accepted row does to its own series. */
  lemma SampleEffect(s: Samples, r: BookRow, p: Policy)
    requires ValidPolicy(p) && SampleRow(s, r, p).Some?
    ensures var s', before := SampleRow(s, r, p).value, SeriesOf(s.frames, r.key);
      var after, slot := SeriesOf(s'.frames, r.key), NextSlot(AvailableMs(r, p), WindowStart(r.market, p), p.spacingMs);
      || (after == before && (r.key in s'.next <==> r.key in s.next)
          && (r.key in s.next ==> s'.next[r.key] == s.next[r.key]))
      || (after == before && r.key in s'.next && s'.next[r.key] == Scheduled(s, r, p))
      || (InWindow(r, p) && AvailableMs(r, p) >= Scheduled(s, r, p) && r.key in s'.next && s'.next[r.key] == slot
          && (after == before
              || exists f: Frame :: after == before + [f] && f.entryCost > 0 && f.availableNs == AvailableNs(r, p)))
  {
    var s', before := SampleRow(s, r, p).value, SeriesOf(s.frames, r.key);
    var buy, sell := WalkOutcome(r.asks, p.shares, true), WalkOutcome(r.bids, p.shares, false);
    if InWindow(r, p) && AvailableMs(r, p) >= Scheduled(s, r, p) && buy.Filled? && sell.Filled? {
      WalkedEntryCost(r.asks, p.shares);
      assert SeriesOf(s'.frames, r.key) == before + [FrameOf(r, p, buy, sell)];
    }
  }

  lemma SampleLeavesOthers(s: Samples, r: BookRow, p: Policy, key: SeriesKey)
    requires ValidPolicy(p) && SampleRow(s, r, p).Some? && key != r.key
    ensures var s' := SampleRow(s, r, p).value;
      && SeriesOf(s'.frames, key) == SeriesOf(s.frames, key)
      && (key in s'.next <==> key in s.next) && (key in s.next ==> s'.next[key] == s.next[key])
  {
  }

  lemma SampleKeepsGrid(s: Samples, r: BookRow, p: Policy, key: SeriesKey, lo: int)
    requires ValidPolicy(p) && SampleRow(s, r, p).Some? && GridAt(s, key, lo, p)
    requires r.key == key ==> lo == WindowStart(r.market, p)
    ensures GridAt(SampleRow(s, r, p).value, key, lo, p)
  {
    if r.key != key {
      SampleLeavesOthers(s, r, p, key);
    } else {
      var s', before, scheduled := SampleRow(s, r, p).value, SeriesOf(s.frames, key), Scheduled(s, r, p);
      SampleEffect(s, r, p);
      assert Before(before, lo, p, scheduled);
      if AvailableMs(r, p) >= scheduled {
        LaterCell(before, lo, p, scheduled, AvailableNs(r, p));
      }
      if SeriesOf(s'.frames, key) != before {
        var f: Frame :| SeriesOf(s'.frames, key) == before + [f] && f.entryCost > 0
                        && f.availableNs == AvailableNs(r, p);
        AppendKeepsSeries(before, f, lo, p, scheduled);
      }
    }
  }

  /** For any order of the rows, each series is strictly increasing with at most one frame per grid cell. */
  lemma {:induction false} SampledSeriesGood(
    rows: seq<BookRow>, p: Policy, market: map<SeriesKey, Market>, key: SeriesKey)
    requires ValidPolicy(p) && MarketsAgree(rows, market) && SampleAll(rows, p).Some? && key in market
    ensures GridAt(SampleAll(rows, p).value, key, WindowStart(market[key], p), p)
  {
    if |rows| > 0 {
      SampledSeriesGood(rows[..|rows| - 1], p, market, key);
      SampleKeepsGrid(SampleAll(rows[..|rows| - 1], p).value, rows[|rows| - 1], p, key, WindowStart(market[key], p));
    }
  }

  // ----- labels -----

  /** The leftmost position at or after `lo` whose value is not below `target`. */
  method BisectLeft(values: seq<int>, target: int, lo: nat) returns (r: nat)
    requires lo <= |values| && forall i, j :: 0 <= i < j < |values| ==> values[i] <= values[j]
    ensures lo <= r <= |values|
    ensures forall i :: lo <= i < r ==> values[i] < target
    ensures forall i :: r <= i < |values| ==> target <= values[i]
  {
    var low, high := lo, |values|;
    while low < high
      invariant lo <= low <= high <= |values|
      invariant forall i :: lo <= i < low ==> values[i] < target
      invariant forall i :: high <= i < |values| ==> target <= values[i]
    {
      var mid := (low + high) / 2;
      if values[mid] < target {
        low := mid + 1;
      } else {
        high := mid;
      }
    }
    r := low;
  }

  function Fee(cost: int, feeBps: int): int {
    (cost * feeBps + BPS - 1) / BPS
  }

  function NetReturnBps(cost: int, proceeds: int, feeBps: int): int
    requires cost > 0
  {
    ((proceeds - cost - Fee(cost, feeBps)) * BPS) / cost
  }

  /** The floored return is non-negative exactly when the net P&L is. */
  lemma ReturnSign(cost: int, proceeds: int, feeBps: int)
    requires cost > 0
    ensures NetReturnBps(cost, proceeds, feeBps) >= 0 <==> proceeds - cost - Fee(cost, feeBps) >= 0
  {
    var net := proceeds - cost - Fee(cost, feeBps);
    if net >= 0 {
      FloorAtLeast(net * BPS, cost, 0);
    } else {
      FloorBelow(net * BPS, cost, 0);
    }
  }

  datatype HorizonLabel = HorizonLabel(index: nat, availableNs: int, proceeds: int, returnBps: int)

  /** The frame `j` is the first one of the series at or after the horizon. */
  ghost predicate FirstAtOrAfter(series: seq<Frame>, index: nat, targetNs: int, j: nat) {
    && index < j < |series| && series[j].availableNs >= targetNs
    && forall i :: 0 <= i < j ==> series[i].availableNs < targetNs
  }

  function TargetNs(series: seq<Frame>, index: nat, horizonMs: int): int
    requires index < |series|
  {
    series[index].availableNs + horizonMs * MICROS
  }

  /** Whether a horizon can be labelled: some frame follows it, and the first that does is near enough. */
  ghost predicate Labelled(series: seq<Frame>, index: nat, horizonMs: int, p: Policy)
    requires index < |series|
  {
    exists j: nat :: FirstAtOrAfter(series, index, TargetNs(series, index, horizonMs), j)
      && series[j].availableNs - TargetNs(series, index, horizonMs) <= p.maxGapMs * MICROS
  }

  ghost predicate LabelIs(series: seq<Frame>, index: nat, horizonMs: int, p: Policy, l: HorizonLabel)
    requires index < |series| && series[index].entryCost > 0
  {
    && FirstAtOrAfter(series, index, TargetNs(series, index, horizonMs), l.index)
    && l.availableNs == series[l.index].availableNs
    && l.proceeds == series[l.index].exitProceeds
    && l.returnBps == NetReturnBps(series[index].entryCost, l.proceeds, p.feeBps)
  }

  lemma FirstUnique(series: seq<Frame>, index: nat, targetNs: int)
    ensures forall i: nat, j: nat ::
      FirstAtOrAfter(series, index, targetNs, i) && FirstAtOrAfter(series, index, targetNs, j) ==> i == j
  {
  }

  /** The least whole fee that is at least `feeBps` ten-thousandths of the cost. */
  predicate LeastFee(fee: int, cost: int, feeBps: int) {
    10_000 * (fee - 1) < cost * feeBps <= 10_000 * fee
  }

  /** The greatest whole number of ten-thousandths of the cost that is at most the net profit. */
  predicate FlooredReturn(r: int, cost: int, net: int) {
    r * cost <= 10_000 * net < (r + 1) * cost
  }

  lemma ReturnExactly(cost: int, proceeds: int, feeBps: int)
    requires cost > 0
    ensures LeastFee(Fee(cost, feeBps), cost, feeBps)
    ensures FlooredReturn(NetReturnBps(cost, proceeds, feeBps), cost, proceeds - cost - Fee(cost, feeBps))
  {
    CeilingSpec(cost * feeBps, BPS);
    FloorSpec((proceeds - cost - Fee(cost, feeBps)) * BPS, cost);
    var r := NetReturnBps(cost, proceeds, feeBps);
    assert (r + 1) * cost == r * cost + cost;
  }

  /**
   * A label is the first frame a horizon or more after the entry, with that frame's proceeds; its return is the
   * net profit, after the fee, over the cost, floored, and non-negative exactly when the net profit is.
   */
  lemma LabelAfterEntry(series: seq<Frame>, index: nat, horizonMs: int, p: Policy, l: HorizonLabel)
    requires index < |series| && series[index].entryCost > 0 && horizonMs > 0
    requires LabelIs(series, index, horizonMs, p, l)
    ensures index < l.index < |series| && l.availableNs == series[l.index].availableNs
    ensures l.availableNs >= series[index].availableNs + 1_000_000 * horizonMs > series[index].availableNs
    ensures forall i :: index < i < l.index ==>
      series[i].availableNs < series[index].availableNs + 1_000_000 * horizonMs
    ensures l.proceeds == series[l.index].exitProceeds
    ensures var cost := series[index].entryCost;
      exists fee :: (
        && LeastFee(fee, cost, p.feeBps)
        && FlooredReturn(l.returnBps, cost, l.proceeds - cost - fee)
        && (l.returnBps >= 0 <==> l.proceeds - cost - fee >= 0))
  {
    ReturnSign(series[index].entryCost, l.proceeds, p.feeBps);
    ReturnExactly(series[index].entryCost, l.proceeds, p.feeBps);
  }

  /** A horizon can be labelled exactly when some frame lies within the gap after it. */
  lemma LabelledExactly(series: seq<Frame>, index: nat, horizonMs: int, p: Policy)
    requires index < |series| && horizonMs > 0
    requires forall i, j :: 0 <= i < j < |series| ==> series[i].availableNs < series[j].availableNs
    ensures var target := series[index].availableNs + 1_000_000 * horizonMs;
      Labelled(series, index, horizonMs, p)
      <==> exists j: nat :: j < |series| && 0 <= series[j].availableNs - target <= 1_000_000 * p.maxGapMs
  {
    var target := series[index].availableNs + 1_000_000 * horizonMs;
    if k: nat :| k < |series| && 0 <= series[k].availableNs - target <= 1_000_000 * p.maxGapMs {
      var j := FirstFrom(series, index, target, k);
      assert FirstAtOrAfter(series, index, TargetNs(series, index, horizonMs), j);
    }
  }

  /** Some frame at or after the target makes a first one. */
  lemma {:induction false} FirstFrom(series: seq<Frame>, index: nat, targetNs: int, k: nat) returns (j: nat)
    requires index < |series| && k < |series| && series[index].availableNs < targetNs <= series[k].availableNs
    requires forall i, j :: 0 <= i < j < |series| ==> series[i].availableNs < series[j].availableNs
    ensures FirstAtOrAfter(series, index, targetNs, j) && series[j].availableNs <= series[k].availableNs
  {
    assert index < k;
    if series[k - 1].availableNs < targetNs {
      j := k;
    } else {
      j := FirstFrom(series, index, targetNs, k - 1);
    }
  }

  /** Labels one frame at one horizon, when the first frame after it is near enough. */
  method LabelAt(series: seq<Frame>, timestamps: seq<int>, index: nat, horizonMs: int, p: Policy)
    returns (r: Option<HorizonLabel>)
    requires horizonMs > 0 && index < |series| && series[index].entryCost > 0
    requires |timestamps| == |series| && forall i :: 0 <= i < |series| ==> timestamps[i] == series[i].availableNs
    requires forall i, j :: 0 <= i < j < |series| ==> series[i].availableNs < series[j].availableNs
    ensures r.Some? <==> Labelled(series, index, horizonMs, p)
    ensures r.Some? ==> LabelIs(series, index, horizonMs, p, r.value)
  {
    var target := series[index].availableNs + horizonMs * MICROS;
    var j := BisectLeft(timestamps, target, index + 1);
    FirstUnique(series, index, target);
    if j == |series| {
      return None;
    }
    assert FirstAtOrAfter(series, index, target, j);
    var future := series[j];
    if future.availableNs - target > p.maxGapMs * MICROS {
      return None;
    }
    return Some(HorizonLabel(j, future.availableNs, future.exitProceeds,
                             NetReturnBps(series[index].entryCost, future.exitProceeds, p.feeBps)));
  }

  /** Labels one frame at every horizon, or not at all when some horizon has no near enough frame. */
  method Label(series: seq<Frame>, index: nat, p: Policy, ghost lo: int) returns (r: Option<seq<HorizonLabel>>)
    requires ValidPolicy(p) && GoodSeries(series, lo, p) && index < |series|
    ensures r.Some? <==> forall h :: 0 <= h < |p.horizonsMs| ==> Labelled(series, index, p.horizonsMs[h], p)
    ensures r.Some? ==> |r.value| == |p.horizonsMs|
    ensures r.Some? ==> forall h :: 0 <= h < |p.horizonsMs| ==> LabelIs(series, index, p.horizonsMs[h], p, r.value[h])
  {
    var timestamps := seq(|series|, i requires 0 <= i < |series| => series[i].availableNs);
    var labels: seq<HorizonLabel> := [];
    for h := 0 to |p.horizonsMs|
      invariant |labels| == h
      invariant forall k :: 0 <= k < h ==> Labelled(series, index, p.horizonsMs[k], p)
      invariant forall k :: 0 <= k < h ==> LabelIs(series, index, p.horizonsMs[k], p, labels[k])
    {
      var found := LabelAt(series, timestamps, index, p.horizonsMs[h], p);
      if found.None? {
        return None;
      }
      labels := labels + [found.value];
    }
    return Some(labels);
  }
}
