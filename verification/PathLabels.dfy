/** First-exit labels: the first frame after entry that stops, takes profit or times out. */
module PathLabels {
  import opened Results
  import opened Ordering
  import opened Arithmetic
  import opened Sorting
  import Sampling

  const MICROS: int := 1_000_000
  const BPS: int := 10_000

  datatype PathRow = PathRow(timeNs: int, entryCost: int, exitProceeds: int, feeBps: int, shares: int, progressBps: int)

  datatype PathPolicy = PathPolicy(
    minAskPpm: int, maxAskPpm: int, maxSpreadPpm: int, minProgressBps: int, maxProgressBps: int,
    takeProfitBps: int, stopLossBps: int, maxHoldingMs: int, maxExitGapMs: int)

  /** The policy reader rejects anything else. */
  predicate ValidPolicy(p: PathPolicy) {
    && p.takeProfitBps > 0 && p.stopLossBps > 0 && p.maxHoldingMs > 0 && p.maxExitGapMs > 0
    && 0 < p.minAskPpm < p.maxAskPpm <= MICROS && p.maxSpreadPpm > 0
    && 0 < p.minProgressBps < p.maxProgressBps <= BPS
  }

  datatype Reason = StopLoss | TakeProfit | Timeout

  datatype PathLabel = PathLabel(pnl: int, exitNs: int, reason: Reason)

  function AskPpm(r: PathRow): int
    requires r.shares > 0
  {
    r.entryCost * MICROS / r.shares
  }

  function BidPpm(r: PathRow): int
    requires r.shares > 0
  {
    r.exitProceeds * MICROS / r.shares
  }

  predicate Eligible(r: PathRow, p: PathPolicy)
    requires r.shares > 0
  {
    && p.minAskPpm <= AskPpm(r) <= p.maxAskPpm
    && 0 <= AskPpm(r) - BidPpm(r) <= p.maxSpreadPpm
    && p.minProgressBps <= r.progressBps <= p.maxProgressBps
  }

  function Share(cost: int, bps: int): int {
    (cost * bps + BPS - 1) / BPS
  }

  function Target(r: PathRow, p: PathPolicy): int {
    r.entryCost + Share(r.entryCost, r.feeBps) + Share(r.entryCost, p.takeProfitBps)
  }

  function Stop(r: PathRow, p: PathPolicy): int {
    var threshold := r.entryCost - Share(r.entryCost, p.stopLossBps);
    if threshold > 0 then threshold else 0
  }

  function Deadline(r: PathRow, p: PathPolicy): int {
    r.timeNs + p.maxHoldingMs * MICROS
  }

  function ExitPnl(r: PathRow, exit: PathRow): int {
    exit.exitProceeds - r.entryCost - Share(r.entryCost, r.feeBps)
  }

  /** Why a frame ends a position, if it does. */
  function Trigger(r: PathRow, exit: PathRow, p: PathPolicy): Option<Reason> {
    if exit.exitProceeds <= Stop(r, p) then Some(StopLoss)
    else if exit.exitProceeds >= Target(r, p) then Some(TakeProfit)
    else None
  }

  ghost predicate InTime(series: seq<PathRow>) {
    forall i, j :: 0 <= i < j < |series| ==> series[i].timeNs <= series[j].timeNs
  }

  /** Every frame before `n`, after the entry and up to the deadline, leaves the position open. */
  ghost predicate OpenUntil(series: seq<PathRow>, index: nat, p: PathPolicy, n: nat)
    requires index < |series| && n <= |series|
  {
    forall i :: index < i < n && series[i].timeNs <= Deadline(series[index], p)
      ==> Trigger(series[index], series[i], p).None?
  }

  /** The first frame that triggers, no later than the deadline. */
  ghost predicate ExitsAt(series: seq<PathRow>, index: nat, p: PathPolicy, j: nat)
    requires index < |series|
  {
    && index < j < |series| && series[j].timeNs <= Deadline(series[index], p)
    && Trigger(series[index], series[j], p).Some?
    && OpenUntil(series, index, p, j)
  }

  /** Nothing triggers, and the first frame at or after the deadline is near enough. */
  ghost predicate TimesOutAt(series: seq<PathRow>, index: nat, p: PathPolicy, j: nat)
    requires index < |series|
  {
    var deadline := Deadline(series[index], p);
    && index < j < |series|
    && OpenUntil(series, index, p, |series|)
    && deadline <= series[j].timeNs <= deadline + p.maxExitGapMs * MICROS
    && forall i :: index < i < j ==> series[i].timeNs < deadline
  }

  ghost predicate LabelIs(series: seq<PathRow>, index: nat, p: PathPolicy, l: PathLabel)
    requires index < |series|
  {
    var r := series[index];
    || (exists j: nat :: ExitsAt(series, index, p, j)
          && l == PathLabel(ExitPnl(r, series[j]), series[j].timeNs, Trigger(r, series[j], p).value))
    || (exists j: nat :: TimesOutAt(series, index, p, j)
          && l == PathLabel(ExitPnl(r, series[j]), series[j].timeNs, Timeout))
  }

  /** The label of one entry: the cursor stops at the first trigger, else the deadline frame times out. */
  method LabelEntry(series: seq<PathRow>, index: nat, p: PathPolicy) returns (l: Option<PathLabel>)
    requires ValidPolicy(p) && InTime(series) && index < |series|
    ensures l.Some? <==> exists k :: LabelIs(series, index, p, k)
    ensures l.Some? ==> LabelIs(series, index, p, l.value)
  {
    var r, deadline := series[index], Deadline(series[index], p);
    var times := seq(|series|, i requires 0 <= i < |series| => series[i].timeNs);
    var deadlineIndex := Sampling.BisectLeft(times, deadline, index + 1);
    assert forall i :: 0 <= i < |series| ==> times[i] == series[i].timeNs;
    var cursor := index + 1;
    while cursor < |series| && series[cursor].timeNs <= deadline
      invariant index < cursor <= |series|
      invariant OpenUntil(series, index, p, cursor)
    {
      var reason := Trigger(r, series[cursor], p);
      if reason.Some? {
        assert ExitsAt(series, index, p, cursor);
        l := Some(PathLabel(ExitPnl(r, series[cursor]), series[cursor].timeNs, reason.value));
        assert LabelIs(series, index, p, l.value);
        return;
      }
      cursor := cursor + 1;
    }
    assert OpenUntil(series, index, p, |series|);
    if deadlineIndex < |series| && series[deadlineIndex].timeNs - deadline <= p.maxExitGapMs * MICROS {
      assert TimesOutAt(series, index, p, deadlineIndex);
      l := Some(PathLabel(ExitPnl(r, series[deadlineIndex]), series[deadlineIndex].timeNs, Timeout));
      assert LabelIs(series, index, p, l.value);
      return;
    }
    NoLabel(series, index, p, deadlineIndex);
    return None;
  }

  lemma NoLabel(series: seq<PathRow>, index: nat, p: PathPolicy, deadlineIndex: nat)
    requires index < |series| && OpenUntil(series, index, p, |series|)
    requires index < deadlineIndex <= |series|
    requires forall i :: index < i < deadlineIndex ==> series[i].timeNs < Deadline(series[index], p)
    requires deadlineIndex < |series| ==>
      && Deadline(series[index], p) <= series[deadlineIndex].timeNs
      && series[deadlineIndex].timeNs - Deadline(series[index], p) > p.maxExitGapMs * MICROS
    ensures !exists k :: LabelIs(series, index, p, k)
  {
  }

  /** An entry has at most one label. */
  lemma LabelUnique(series: seq<PathRow>, index: nat, p: PathPolicy, k: PathLabel, l: PathLabel)
    requires index < |series|
    requires LabelIs(series, index, p, k) && LabelIs(series, index, p, l)
    ensures k == l
  {
  }

  /** The entry is eligible and its position ends. */
  ghost predicate Labelled(series: seq<PathRow>, i: nat, p: PathPolicy)
    requires i < |series| && series[i].shares > 0
  {
    Eligible(series[i], p) && exists k :: LabelIs(series, i, p, k)
  }

  datatype Side = Down | Up

  datatype SeriesKey = SeriesKey(condition: Text, side: Side)

  datatype RowKey = RowKey(condition: Text, side: Side, timeNs: int)

  function KeyAt(key: SeriesKey, timeNs: int): RowKey {
    RowKey(key.condition, key.side, timeNs)
  }

  predicate Belongs(k: RowKey, key: SeriesKey) {
    k.condition == key.condition && k.side == key.side
  }

  /** The entry at `i` is the last labelled one of its time among the first `n`, and the label is its label. */
  ghost predicate Supplies(series: seq<PathRow>, p: PathPolicy, n: nat, i: nat, t: int, l: PathLabel) {
    && i < n <= |series| && series[i].timeNs == t && series[i].shares > 0
    && Eligible(series[i], p) && LabelIs(series, i, p, l)
    && forall j: nat :: i < j < n && series[j].shares > 0 && Labelled(series, j, p) ==> series[j].timeNs != t
  }

  /**
   * The labels a series has are exactly those of its labelled entries among the first `n`; of entries at one
   * time, the last counts.
   */
  ghost predicate LabelsOf(
    series: seq<PathRow>, key: SeriesKey, p: PathPolicy, n: nat, labels: map<RowKey, PathLabel>)
  {
    && n <= |series|
    && (forall k :: k in labels && Belongs(k, key) ==> exists i: nat :: Supplies(series, p, n, i, k.timeNs, labels[k]))
    && (forall i: nat :: i < n && series[i].shares > 0 && Labelled(series, i, p) ==>
          KeyAt(key, series[i].timeNs) in labels)
  }

  ghost predicate SameAt(labels: map<RowKey, PathLabel>, all: map<RowKey, PathLabel>, key: SeriesKey) {
    forall k :: Belongs(k, key) ==> (k in labels <==> k in all) && (k in labels ==> all[k] == labels[k])
  }

  lemma SupplyNext(
    series: seq<PathRow>, key: SeriesKey, p: PathPolicy, n: nat, m: nat, labels: map<RowKey, PathLabel>,
    l: Option<PathLabel>)
    requires n < m == n + 1 <= |series| && series[n].shares > 0
    requires LabelsOf(series, key, p, n, labels)
    requires l.Some? <==> Labelled(series, n, p)
    requires l.Some? ==> LabelIs(series, n, p, l.value)
    ensures LabelsOf(series, key, p, m, if l.Some? then labels[KeyAt(key, series[n].timeNs) := l.value] else labels)
  {
    var next := if l.Some? then labels[KeyAt(key, series[n].timeNs) := l.value] else labels;
    forall k | k in next && Belongs(k, key)
      ensures exists i: nat :: Supplies(series, p, m, i, k.timeNs, next[k])
    {
      if l.Some? && k.timeNs == series[n].timeNs {
        assert Supplies(series, p, m, n, k.timeNs, next[k]);
      } else {
        var i: nat :| Supplies(series, p, n, i, k.timeNs, labels[k]);
        SupplyKept(series, p, n, m, i, k.timeNs, labels[k]);
      }
    }
    forall i: nat | i < m && series[i].shares > 0 && Labelled(series, i, p)
      ensures KeyAt(key, series[i].timeNs) in next
    {
      assert i < n ==> KeyAt(key, series[i].timeNs) in labels;
    }
  }

  lemma SupplyKept(series: seq<PathRow>, p: PathPolicy, n: nat, m: nat, i: nat, t: int, l: PathLabel)
    requires n < m == n + 1 <= |series| && series[n].shares > 0 && Supplies(series, p, n, i, t, l)
    requires Labelled(series, n, p) ==> series[n].timeNs != t
    ensures Supplies(series, p, m, i, t, l)
  {
    forall j: nat | i < j < m && series[j].shares > 0 && Labelled(series, j, p)
      ensures series[j].timeNs != t
    {
    }
  }

  lemma AddedElsewhere(labels: map<RowKey, PathLabel>, all: map<RowKey, PathLabel>, key: SeriesKey, timeNs: int,
                       l: PathLabel, next: map<RowKey, PathLabel>)
    requires forall other :: other != key ==> SameAt(labels, all, other)
    requires next == all[KeyAt(key, timeNs) := l]
    ensures forall other :: other != key ==> SameAt(labels, next, other)
  {
    forall other | other != key
      ensures SameAt(labels, next, other)
    {
      assert SameAt(labels, all, other);
    }
  }

  /** The label of one row, if it is eligible and its position ends. */
  method LabelRow(series: seq<PathRow>, index: nat, p: PathPolicy) returns (l: Option<PathLabel>)
    requires ValidPolicy(p) && InTime(series) && index < |series| && series[index].shares > 0
    ensures l.Some? <==> Labelled(series, index, p)
    ensures l.Some? ==> LabelIs(series, index, p, l.value)
  {
    l := None;
    if Eligible(series[index], p) {
      l := LabelEntry(series, index, p);
    }
  }

  /**
   * Adds the labels of one series to those of others; a row without a positive target quantity rejects the
   * input.
   */
  method LabelSeries(series: seq<PathRow>, key: SeriesKey, p: PathPolicy, labels: map<RowKey, PathLabel>)
    returns (r: Option<map<RowKey, PathLabel>>)
    requires ValidPolicy(p) && InTime(series) && forall k :: k in labels ==> !Belongs(k, key)
    ensures r.Some? <==> Sized(series)
    ensures r.Some? ==> LabelsOf(series, key, p, |series|, r.value)
    ensures r.Some? ==> forall other :: other != key ==> SameAt(labels, r.value, other)
  {
    var all := labels;
    for i := 0 to |series|
      invariant Sized(series[..i])
      invariant LabelsOf(series, key, p, i, all)
      invariant forall other :: other != key ==> SameAt(labels, all, other)
    {
      if series[i].shares <= 0 {
        return None;
      }
      var l := LabelRow(series, i, p);
      SupplyNext(series, key, p, i, i + 1, all, l);
      if l.Some? {
        var next := all[KeyAt(key, series[i].timeNs) := l.value];
        AddedElsewhere(labels, all, key, series[i].timeNs, l.value, next);
        all := next;
      }
    }
    assert series[..|series|] == series;
    return Some(all);
  }

  // ----- all series -----

  /** A row of the input with the series it belongs to. */
  datatype InputRow = InputRow(key: SeriesKey, row: PathRow)

  /** The rows of one series, in input order. */
  function RowsOf(rows: seq<InputRow>, key: SeriesKey): seq<PathRow> {
    if |rows| == 0 then []
    else
      var n := |rows| - 1;
      RowsOf(rows[..n], key) + (if rows[n].key == key then [rows[n].row] else [])
  }

  predicate NoLater(x: PathRow, y: PathRow) {
    x.timeNs <= y.timeNs
  }

  lemma TimeOrder()
    ensures TotalPreorder(NoLater)
  {
  }

  /** The rows of one series, in time order; rows of the same time keep the order they arrived in. */
  function SeriesOf(rows: seq<InputRow>, key: SeriesKey): (series: seq<PathRow>)
    ensures InTime(series) && multiset(series) == multiset(RowsOf(rows, key))
    ensures forall r :: Alike(series, r, NoLater) == Alike(RowsOf(rows, key), r, NoLater)
  {
    TimeOrder();
    var series := Sort(RowsOf(rows, key), NoLater);
    assert forall r :: Alike(series, r, NoLater) == Alike(RowsOf(rows, key), r, NoLater) by {
      forall r { SortStable(RowsOf(rows, key), NoLater, r); }
    }
    assert forall i, j :: 0 <= i < j < |series| ==> NoLater(series[i], series[j]);
    series
  }

  ghost predicate Sized(series: seq<PathRow>) {
    forall i :: 0 <= i < |series| ==> series[i].shares > 0
  }

  ghost predicate SeriesLabelled(rows: seq<InputRow>, p: PathPolicy, key: SeriesKey, labels: map<RowKey, PathLabel>) {
    var series := SeriesOf(rows, key);
    Sized(series) && LabelsOf(series, key, p, |series|, labels)
  }

  ghost predicate AllLabelled(rows: seq<InputRow>, p: PathPolicy, labels: map<RowKey, PathLabel>) {
    forall key :: SeriesLabelled(rows, p, key, labels)
  }

  lemma LabelledFrame(
    rows: seq<InputRow>, p: PathPolicy, key: SeriesKey, labels: map<RowKey, PathLabel>, all: map<RowKey, PathLabel>)
    requires SeriesLabelled(rows, p, key, labels) && SameAt(labels, all, key)
    ensures SeriesLabelled(rows, p, key, all)
  {
    var series := SeriesOf(rows, key);
    forall k | k in all && Belongs(k, key)
      ensures exists i: nat :: Supplies(series, p, |series|, i, k.timeNs, all[k])
    {
      assert k in labels && all[k] == labels[k];
    }
    forall i: nat | i < |series| && series[i].shares > 0 && Labelled(series, i, p)
      ensures KeyAt(key, series[i].timeNs) in all
    {
      assert Belongs(KeyAt(key, series[i].timeNs), key);
    }
  }

  /** Puts each row into its series, in input order. */
  method GroupRows(rows: seq<InputRow>) returns (groups: map<SeriesKey, seq<PathRow>>)
    ensures forall key :: key in groups <==> RowsOf(rows, key) != []
    ensures forall key :: key in groups ==> groups[key] == RowsOf(rows, key)
  {
    groups := map[];
    for i := 0 to |rows|
      invariant forall key :: key in groups <==> RowsOf(rows[..i], key) != []
      invariant forall key :: key in groups ==> groups[key] == RowsOf(rows[..i], key)
    {
      assert rows[..i + 1][..i] == rows[..i];
      var key := rows[i].key;
      groups := groups[key := (if key in groups then groups[key] else []) + [rows[i].row]];
    }
    assert rows[..|rows|] == rows;
  }

  lemma SizedRows(rows: seq<InputRow>, key: SeriesKey)
    ensures Sized(SeriesOf(rows, key)) <==> Sized(RowsOf(rows, key))
  {
    var sorted, given := SeriesOf(rows, key), RowsOf(rows, key);
    forall r ensures r in sorted <==> r in given {
      assert r in sorted <==> r in multiset(sorted);
      assert r in given <==> r in multiset(given);
    }
    assert Sized(sorted) <==> forall r :: r in sorted ==> r.shares > 0;
    assert Sized(given) <==> forall r :: r in given ==> r.shares > 0;
  }

  lemma {:induction false} RowInSeries(rows: seq<InputRow>, i: nat)
    requires i < |rows|
    ensures rows[i].row in RowsOf(rows, rows[i].key)
  {
    if i < |rows| - 1 {
      RowInSeries(rows[..|rows| - 1], i);
    }
  }

  lemma {:induction false} SeriesRowGiven(rows: seq<InputRow>, key: SeriesKey, r: PathRow)
    requires r in RowsOf(rows, key)
    ensures exists i :: 0 <= i < |rows| && rows[i] == InputRow(key, r)
  {
    var n := |rows| - 1;
    if rows[n] != InputRow(key, r) {
      SeriesRowGiven(rows[..n], key, r);
      var i :| 0 <= i < n && rows[..n][i] == InputRow(key, r);
      assert rows[i] == InputRow(key, r);
    }
  }

  ghost predicate InputSized(rows: seq<InputRow>) {
    forall i :: 0 <= i < |rows| ==> rows[i].row.shares > 0
  }

  /** The input is sized exactly when every series is. */
  lemma InputSizedExactly(rows: seq<InputRow>)
    ensures InputSized(rows) <==> forall key :: Sized(SeriesOf(rows, key))
  {
    if InputSized(rows) {
      forall key ensures Sized(SeriesOf(rows, key)) {
        SizedRows(rows, key);
        forall k | 0 <= k < |RowsOf(rows, key)| ensures RowsOf(rows, key)[k].shares > 0 {
          SeriesRowGiven(rows, key, RowsOf(rows, key)[k]);
        }
      }
    }
    if forall key :: Sized(SeriesOf(rows, key)) {
      forall i | 0 <= i < |rows| ensures rows[i].row.shares > 0 {
        RowInSeries(rows, i);
        SizedRows(rows, rows[i].key);
        assert Sized(SeriesOf(rows, rows[i].key));
      }
    }
  }

  /** Which series are labelled and which are still to come. */
  ghost predicate Partial(rows: seq<InputRow>, p: PathPolicy, left: set<SeriesKey>, labels: map<RowKey, PathLabel>) {
    && (forall key :: key !in left ==> SeriesLabelled(rows, p, key, labels))
    && (forall k :: k in labels ==> SeriesKey(k.condition, k.side) !in left)
  }

  lemma PartialStart(rows: seq<InputRow>, p: PathPolicy, left: set<SeriesKey>)
    requires forall key :: key in left <==> RowsOf(rows, key) != []
    ensures Partial(rows, p, left, map[])
  {
    forall key | key !in left
      ensures SeriesLabelled(rows, p, key, map[])
    {
      assert |multiset(SeriesOf(rows, key))| == 0;
    }
  }

  lemma PartialNext(rows: seq<InputRow>, p: PathPolicy, left: set<SeriesKey>, labels: map<RowKey, PathLabel>,
                    key: SeriesKey, all: map<RowKey, PathLabel>)
    requires Partial(rows, p, left, labels) && key in left && SeriesLabelled(rows, p, key, all)
    requires forall other :: other != key ==> SameAt(labels, all, other)
    ensures Partial(rows, p, left - {key}, all)
  {
    forall other | other !in left - {key}
      ensures SeriesLabelled(rows, p, other, all)
    {
      if other != key {
        LabelledFrame(rows, p, other, labels, all);
      }
    }
    forall k | k in all
      ensures SeriesKey(k.condition, k.side) !in left - {key}
    {
      var other := SeriesKey(k.condition, k.side);
      if other != key {
        assert SameAt(labels, all, other) && Belongs(k, other);
      }
    }
  }

  /**
   * Labels every series of the input, each in time order: for each series exactly the first exits of its
   * eligible entries. A row without a positive target quantity rejects the input.
   */
  method Labels(rows: seq<InputRow>, p: PathPolicy) returns (r: Option<map<RowKey, PathLabel>>)
    requires ValidPolicy(p)
    ensures r.Some? <==> InputSized(rows)
    ensures r.Some? ==> AllLabelled(rows, p, r.value)
  {
    var groups := GroupRows(rows);
    var labels: map<RowKey, PathLabel>, left := map[], groups.Keys;
    PartialStart(rows, p, left);
    InputSizedExactly(rows);
    while left != {}
      invariant left <= groups.Keys && Partial(rows, p, left, labels)
      decreases left
    {
      var key :| key in left;
      TimeOrder();
      assert groups[key] == RowsOf(rows, key);
      var series := Sort(groups[key], NoLater);
      assert series == SeriesOf(rows, key);
      var found := LabelSeries(series, key, p, labels);
      if found.None? {
        return None;
      }
      PartialNext(rows, p, left, labels, key, found.value);
      labels, left := found.value, left - {key};
    }
    forall key ensures Sized(SeriesOf(rows, key)) {
      assert SeriesLabelled(rows, p, key, labels);
    }
    return Some(labels);
  }

  // ----- what labels mean -----

  lemma ShareFacts(cost: int, bps: int)
    requires cost > 0 && bps >= 0
    ensures Share(cost, bps) >= 0
    ensures bps > 0 ==> Share(cost, bps) >= 1
  {
    MulMonotone(0, bps, cost);
    CeilingSpec(cost * bps, BPS);
    if bps > 0 {
      MulMonotone(1, bps, cost);
    }
  }

  /** The stop lies strictly below cost and the target strictly above cost and fee: no frame is both. */
  lemma StopBelowTarget(r: PathRow, p: PathPolicy)
    requires ValidPolicy(p) && r.entryCost > 0 && r.feeBps >= 0
    ensures Stop(r, p) < r.entryCost
    ensures r.entryCost + Share(r.entryCost, r.feeBps) < Target(r, p)
    ensures Stop(r, p) < Target(r, p)
  {
    ShareFacts(r.entryCost, r.feeBps);
    ShareFacts(r.entryCost, p.takeProfitBps);
    ShareFacts(r.entryCost, p.stopLossBps);
  }

  // ----- labels in amounts -----

  /** The least whole number that is at least `bps` ten-thousandths of the cost. */
  predicate LeastShare(x: int, cost: int, bps: int) {
    10_000 * (x - 1) < bps * cost <= 10_000 * x
  }

  /** The proceeds cover the cost, the profit and the fee, no more: what the fee takes is its least share. */
  predicate Nets(r: PathRow, exit: PathRow, pnl: int) {
    LeastShare(exit.exitProceeds - r.entryCost - pnl, r.entryCost, r.feeBps)
  }

  /** Nothing comes back, or the loss reaches the stop's part of the cost. */
  predicate Stopped(r: PathRow, exit: PathRow, p: PathPolicy) {
    exit.exitProceeds <= 0 || 10_000 * (r.entryCost - exit.exitProceeds) >= p.stopLossBps * r.entryCost
  }

  /** The net profit reaches the policy's part of the cost. */
  predicate Profited(r: PathRow, pnl: int, p: PathPolicy) {
    10_000 * pnl >= p.takeProfitBps * r.entryCost
  }

  /** Neither the stop nor the profit is reached. */
  ghost predicate StaysOpen(r: PathRow, exit: PathRow, p: PathPolicy) {
    !Stopped(r, exit, p) && forall pnl :: Nets(r, exit, pnl) ==> !Profited(r, pnl, p)
  }

  /** Every frame after the entry, before `n` and up to the deadline, leaves the position open. */
  ghost predicate PassedOver(series: seq<PathRow>, index: nat, p: PathPolicy, n: nat)
    requires index < |series| && n <= |series|
  {
    forall i :: index < i < n && series[i].timeNs <= series[index].timeNs + 1_000_000 * p.maxHoldingMs ==>
      StaysOpen(series[index], series[i], p)
  }

  /** The label is that of an exit at frame `j`, by its times and amounts alone. */
  ghost predicate ExitLabel(series: seq<PathRow>, index: nat, p: PathPolicy, l: PathLabel, j: nat)
    requires index < |series|
  {
    var r, deadline := series[index], series[index].timeNs + 1_000_000 * p.maxHoldingMs;
    && index < j < |series| && l.exitNs == series[j].timeNs && Nets(r, series[j], l.pnl)
    && match l.reason
       case StopLoss => l.exitNs <= deadline && Stopped(r, series[j], p) && PassedOver(series, index, p, j)
       case TakeProfit =>
         && l.exitNs <= deadline && !Stopped(r, series[j], p) && Profited(r, l.pnl, p)
         && PassedOver(series, index, p, j)
       case Timeout =>
         && deadline <= l.exitNs <= deadline + 1_000_000 * p.maxExitGapMs
         && PassedOver(series, index, p, |series|)
         && forall i :: index < i < j ==> series[i].timeNs < deadline
  }

  lemma ShareExactly(cost: int, bps: int, x: int)
    ensures LeastShare(x, cost, bps) <==> x == Share(cost, bps)
    ensures Share(cost, bps) <= x <==> bps * cost <= 10_000 * x
  {
    CeilingSpec(cost * bps, BPS);
  }

  /** What ends a position, and what it nets. */
  lemma TriggerExactly(r: PathRow, exit: PathRow, p: PathPolicy)
    ensures forall pnl :: Nets(r, exit, pnl) <==> pnl == ExitPnl(r, exit)
    ensures Trigger(r, exit, p) == Some(StopLoss) <==> Stopped(r, exit, p)
    ensures Trigger(r, exit, p) == Some(TakeProfit)
       <==> !Stopped(r, exit, p) && Profited(r, ExitPnl(r, exit), p)
    ensures Trigger(r, exit, p).None? <==> StaysOpen(r, exit, p)
  {
    forall pnl ensures Nets(r, exit, pnl) <==> pnl == ExitPnl(r, exit) {
      ShareExactly(r.entryCost, r.feeBps, exit.exitProceeds - r.entryCost - pnl);
    }
    ShareExactly(r.entryCost, p.stopLossBps, r.entryCost - exit.exitProceeds);
    ShareExactly(r.entryCost, p.takeProfitBps, ExitPnl(r, exit));
    assert Nets(r, exit, ExitPnl(r, exit));
  }

  /**
   * An entry's labels in amounts: the first frame that stops it or profits, each by the policy's part of the
   * cost, or else the first frame at or after the deadline, within the gap.
   */
  lemma LabelExactly(series: seq<PathRow>, index: nat, p: PathPolicy, l: PathLabel)
    requires index < |series|
    ensures LabelIs(series, index, p, l) <==> exists j: nat :: ExitLabel(series, index, p, l, j)
  {
    var r := series[index];
    forall i: nat | i < |series|
      ensures forall pnl :: Nets(r, series[i], pnl) <==> pnl == ExitPnl(r, series[i])
      ensures Trigger(r, series[i], p) == Some(StopLoss) <==> Stopped(r, series[i], p)
      ensures Trigger(r, series[i], p) == Some(TakeProfit)
         <==> !Stopped(r, series[i], p) && Profited(r, ExitPnl(r, series[i]), p)
    {
      TriggerExactly(r, series[i], p);
    }
    forall n: nat | n <= |series|
      ensures OpenUntil(series, index, p, n) <==> PassedOver(series, index, p, n)
    {
      OpenExactly(series, index, p, n);
    }
    forall j: nat
      ensures ExitLabel(series, index, p, l, j) <==>
        || (ExitsAt(series, index, p, j)
            && l == PathLabel(ExitPnl(r, series[j]), series[j].timeNs, Trigger(r, series[j], p).value))
        || (TimesOutAt(series, index, p, j) && l == PathLabel(ExitPnl(r, series[j]), series[j].timeNs, Timeout))
    {
    }
  }

  lemma OpenExactly(series: seq<PathRow>, index: nat, p: PathPolicy, n: nat)
    requires index < |series| && n <= |series|
    ensures OpenUntil(series, index, p, n) <==> PassedOver(series, index, p, n)
  {
    forall i: nat | index < i < n
      ensures Trigger(series[index], series[i], p).None? <==> StaysOpen(series[index], series[i], p)
    {
      TriggerExactly(series[index], series[i], p);
    }
  }

  /** An entry is eligible by its ask and bid per share, the whole numbers of micros that cost and proceeds hold. */
  lemma EligibleExactly(r: PathRow, p: PathPolicy, ask: int, bid: int)
    requires r.shares > 0
    requires ask * r.shares <= 1_000_000 * r.entryCost < (ask + 1) * r.shares
    requires bid * r.shares <= 1_000_000 * r.exitProceeds < (bid + 1) * r.shares
    ensures Eligible(r, p) <==>
      && p.minAskPpm <= ask <= p.maxAskPpm && bid <= ask <= bid + p.maxSpreadPpm
      && p.minProgressBps <= r.progressBps <= p.maxProgressBps
  {
    QuotientIs(1_000_000 * r.entryCost, r.shares, ask);
    QuotientIs(1_000_000 * r.exitProceeds, r.shares, bid);
  }

  lemma QuotientIs(x: int, d: int, q: int)
    requires d > 0 && q * d <= x < (q + 1) * d
    ensures x / d == q
  {
    FloorAtLeast(x, d, q);
    FloorBelow(x, d, q + 1);
  }

  /**
   * A label never exits before entry, and exits strictly after it when times increase or it times out; a
   * taken profit is a gain of at least the policy's part of the cost; a stop is a loss of at least its part,
   * or leaves nothing.
   */
  lemma LabelMeaning(series: seq<PathRow>, index: nat, p: PathPolicy, l: PathLabel)
    requires ValidPolicy(p) && InTime(series) && index < |series| && LabelIs(series, index, p, l)
    requires series[index].entryCost > 0 && series[index].feeBps >= 0
    ensures exists j: nat :: ExitLabel(series, index, p, l, j)
    ensures l.exitNs >= series[index].timeNs
    ensures (forall i :: index < i < |series| ==> series[i].timeNs != series[index].timeNs) ==>
      l.exitNs > series[index].timeNs
    ensures l.reason.TakeProfit? ==> l.pnl > 0 && 10_000 * l.pnl >= p.takeProfitBps * series[index].entryCost
    ensures l.reason.StopLoss? ==> l.pnl < 0
    ensures l.reason.StopLoss? ==>
      || 10_000 * -l.pnl >= p.stopLossBps * series[index].entryCost
      || -l.pnl >= series[index].entryCost
    ensures l.reason.Timeout? ==> series[index].timeNs < l.exitNs
  {
    LabelExactly(series, index, p, l);
    StopBelowTarget(series[index], p);
    ShareFacts(series[index].entryCost, series[index].feeBps);
    var j: nat :| ExitLabel(series, index, p, l, j);
    TriggerExactly(series[index], series[j], p);
  }

  /** No label of the whole input exits before its entry. */
  lemma LabelsForward(rows: seq<InputRow>, p: PathPolicy, labels: map<RowKey, PathLabel>)
    requires ValidPolicy(p) && AllLabelled(rows, p, labels)
    ensures forall k :: k in labels ==> labels[k].exitNs >= k.timeNs
  {
    forall k | k in labels
      ensures labels[k].exitNs >= k.timeNs
    {
      var key := SeriesKey(k.condition, k.side);
      var series := SeriesOf(rows, key);
      assert SeriesLabelled(rows, p, key, labels) && Belongs(k, key);
      var i: nat :| Supplies(series, p, |series|, i, k.timeNs, labels[k]);
    }
  }
}
