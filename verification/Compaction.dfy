/** Conservative compaction of best-bid/ask rows into one level per market, token and time bucket. */
module Compaction {
  import opened Results
  import opened Arithmetic
  import opened DepthWalk

  /** A source row with its session bounds; prices and sizes are exact decimals. */
  datatype Row = Row(
    market: string, token: string, outcome: string, tsMs: int, sessionStart: int, sessionEnd: int,
    bid: real, ask: real, bidSize: real, askSize: real, receiveNs: Option<int>)

  /** A row as it arrives: with all required values, or with some missing, perhaps even its market. */
  datatype RawRow = Given(row: Row) | Missing(market: Option<string>)

  datatype MarketToken = MarketToken(market: string, token: string)

  /** The condition a token belongs to and the outcome it stands for. */
  datatype Identity = Identity(condition: string, outcome: string)

  /** The known tokens of the known markets. */
  type Identities = map<MarketToken, Identity>

  datatype BucketKey = BucketKey(market: string, token: string, bucket: int)

  datatype Compacted = Compacted(
    eventMs: int, bid: int, ask: int, bidSize: int, askSize: int, receiveNs: Option<int>)

  /** A group's aggregate within one batch, before rounding. */
  datatype Aggregate = Aggregate(
    tsMs: int, bid: real, ask: real, bidSize: real, askSize: real, receiveNs: int, observed: nat, count: nat)

  predicate Inside(r: Row) {
    r.sessionStart <= r.tsMs <= r.sessionEnd
  }

  predicate OutOfBounds(r: Row) {
    r.tsMs < 0 || r.bid < 0.0 || r.ask < 0.0 || r.ask > 1.0 || r.bidSize < 0.0 || r.askSize < 0.0
  }

  predicate Crossed(r: Row) {
    r.bid > 0.0 && r.ask > 0.0 && r.bid >= r.ask
  }

  predicate Usable(r: Row) {
    Inside(r) && r.bid > 0.0 && r.ask > 0.0 && r.bidSize > 0.0 && r.askSize > 0.0
  }

  function KeyOf(r: Row, spacingMs: int): BucketKey
    requires spacingMs > 0
  {
    BucketKey(r.market, r.token, r.tsMs / spacingMs)
  }

  function FloorMicros(x: real): int {
    (x * 1000000.0).Floor
  }

  function CeilingMicros(x: real): int {
    -((-(x * 1000000.0)).Floor)
  }

  function MinInt(x: int, y: int): int { if x <= y then x else y }
  function MaxInt(x: int, y: int): int { if x >= y then x else y }
  function MinReal(x: real, y: real): real { if x <= y then x else y }
  function MaxReal(x: real, y: real): real { if x >= y then x else y }

  // ----- what a level says about its rows -----

  /** Extremes over a set of rows: latest event, floored lowest bid, ceiled highest ask, floored least sizes. */
  ghost predicate Summarizes(l: Compacted, rows: set<Row>) {
    && (exists r :: r in rows && r.tsMs == l.eventMs) && (forall r :: r in rows ==> r.tsMs <= l.eventMs)
    && (exists r :: r in rows && FloorMicros(r.bid) == l.bid) && (forall r :: r in rows ==> l.bid <= FloorMicros(r.bid))
    && (exists r :: r in rows && CeilingMicros(r.ask) == l.ask)
    && (forall r :: r in rows ==> CeilingMicros(r.ask) <= l.ask)
    && (exists r :: r in rows && FloorMicros(r.bidSize) == l.bidSize)
    && (forall r :: r in rows ==> l.bidSize <= FloorMicros(r.bidSize))
    && (exists r :: r in rows && FloorMicros(r.askSize) == l.askSize)
    && (forall r :: r in rows ==> l.askSize <= FloorMicros(r.askSize))
    && ReceiveOf(l.receiveNs, rows)
  }

  /** A missing receive time absorbs; otherwise the latest one. */
  ghost predicate ReceiveOf(receive: Option<int>, rows: set<Row>) {
    match receive
    case None => exists r :: r in rows && r.receiveNs.None?
    case Some(v) =>
      && (forall r :: r in rows ==> r.receiveNs.Some? && r.receiveNs.value <= v)
      && (exists r :: r in rows && r.receiveNs == Some(v))
  }

  /** A set of rows has at most one summary, so the summary depends on the rows alone. */
  lemma SummaryUnique(l: Compacted, k: Compacted, rows: set<Row>)
    requires Summarizes(l, rows) && Summarizes(k, rows)
    ensures l == k
  {
  }

  lemma FloorMicrosMonotone(x: real, y: real)
    ensures x <= y ==> FloorMicros(x) <= FloorMicros(y)
  {
  }

  lemma CeilingMicrosMonotone(x: real, y: real)
    ensures x <= y ==> CeilingMicros(x) <= CeilingMicros(y)
  {
  }

  // ----- one batch -----

  ghost predicate Aggregates(a: Aggregate, rows: set<Row>) {
    && (exists r :: r in rows && r.tsMs == a.tsMs) && (forall r :: r in rows ==> r.tsMs <= a.tsMs)
    && (exists r :: r in rows && r.bid == a.bid) && (forall r :: r in rows ==> a.bid <= r.bid)
    && (exists r :: r in rows && r.ask == a.ask) && (forall r :: r in rows ==> r.ask <= a.ask)
    && (exists r :: r in rows && r.bidSize == a.bidSize) && (forall r :: r in rows ==> a.bidSize <= r.bidSize)
    && (exists r :: r in rows && r.askSize == a.askSize) && (forall r :: r in rows ==> a.askSize <= r.askSize)
    && a.observed <= a.count
    && (a.observed == a.count <==> forall r :: r in rows ==> r.receiveNs.Some?)
    && (a.observed > 0 ==> exists r :: r in rows && r.receiveNs == Some(a.receiveNs))
    && (a.observed == 0 ==> forall r :: r in rows ==> r.receiveNs.None?)
    && (forall r :: r in rows && r.receiveNs.Some? ==> r.receiveNs.value <= a.receiveNs)
    && a.count > 0
  }

  function First(r: Row): Aggregate {
    Aggregate(r.tsMs, r.bid, r.ask, r.bidSize, r.askSize,
              if r.receiveNs.Some? then r.receiveNs.value else 0, if r.receiveNs.Some? then 1 else 0, 1)
  }

  function Extend(a: Aggregate, r: Row): Aggregate {
    Aggregate(
      MaxInt(a.tsMs, r.tsMs), MinReal(a.bid, r.bid), MaxReal(a.ask, r.ask),
      MinReal(a.bidSize, r.bidSize), MinReal(a.askSize, r.askSize),
      if r.receiveNs.None? then a.receiveNs
      else if a.observed == 0 then r.receiveNs.value
      else MaxInt(a.receiveNs, r.receiveNs.value),
      a.observed + (if r.receiveNs.Some? then 1 else 0), a.count + 1)
  }

  lemma FirstAggregates(r: Row)
    ensures Aggregates(First(r), {r})
  {
    assert r in {r};
  }

  lemma ExtendQuotes(a: Aggregate, rows: set<Row>, r: Row, b: Aggregate, all: set<Row>)
    requires Aggregates(a, rows) && b == Extend(a, r) && all == rows + {r}
    ensures exists x :: x in all && x.tsMs == b.tsMs
    ensures exists x :: x in all && x.bid == b.bid
    ensures exists x :: x in all && x.ask == b.ask
    ensures exists x :: x in all && x.bidSize == b.bidSize
    ensures exists x :: x in all && x.askSize == b.askSize
  {
    var t :| t in rows && t.tsMs == a.tsMs;
    var u :| u in rows && u.bid == a.bid;
    var v :| v in rows && v.ask == a.ask;
    var w :| w in rows && w.bidSize == a.bidSize;
    var x :| x in rows && x.askSize == a.askSize;
    assert t in all && u in all && v in all && w in all && x in all && r in all;
  }

  lemma ExtendAggregates(a: Aggregate, rows: set<Row>, r: Row)
    requires Aggregates(a, rows)
    ensures Aggregates(Extend(a, r), rows + {r})
  {
    var b, all := Extend(a, r), rows + {r};
    ExtendQuotes(a, rows, r, b, all);
    assert r in all;
    if a.observed > 0 {
      var t :| t in rows && t.receiveNs == Some(a.receiveNs);
      assert t in all;
    }
  }

  function Candidate(a: Aggregate): Compacted {
    Compacted(
      a.tsMs, FloorMicros(a.bid), CeilingMicros(a.ask), FloorMicros(a.bidSize), FloorMicros(a.askSize),
      if a.observed == a.count then Some(a.receiveNs) else None)
  }

  /** Rounding commutes with the extremes: rounding a batch's aggregate summarizes its rows. */
  lemma CandidateSummarizes(a: Aggregate, rows: set<Row>)
    requires Aggregates(a, rows)
    ensures Summarizes(Candidate(a), rows)
  {
    forall r | r in rows
      ensures Candidate(a).bid <= FloorMicros(r.bid) && CeilingMicros(r.ask) <= Candidate(a).ask
      ensures Candidate(a).bidSize <= FloorMicros(r.bidSize) && Candidate(a).askSize <= FloorMicros(r.askSize)
    {
      FloorMicrosMonotone(a.bid, r.bid);
      CeilingMicrosMonotone(r.ask, a.ask);
      FloorMicrosMonotone(a.bidSize, r.bidSize);
      FloorMicrosMonotone(a.askSize, r.askSize);
    }
  }

  // ----- across batches -----

  function Merge(p: Compacted, c: Compacted): Compacted {
    Compacted(
      MaxInt(p.eventMs, c.eventMs), MinInt(p.bid, c.bid), MaxInt(p.ask, c.ask),
      MinInt(p.bidSize, c.bidSize), MinInt(p.askSize, c.askSize),
      if p.receiveNs.None? || c.receiveNs.None? then None
      else Some(MaxInt(p.receiveNs.value, c.receiveNs.value)))
  }

  lemma MergeWitnesses(p: Compacted, c: Compacted, left: set<Row>, right: set<Row>, l: Compacted, all: set<Row>)
    requires Summarizes(p, left) && Summarizes(c, right) && l == Merge(p, c) && all == left + right
    ensures exists r :: r in all && r.tsMs == l.eventMs
    ensures exists r :: r in all && FloorMicros(r.bid) == l.bid
    ensures exists r :: r in all && CeilingMicros(r.ask) == l.ask
    ensures exists r :: r in all && FloorMicros(r.bidSize) == l.bidSize
    ensures exists r :: r in all && FloorMicros(r.askSize) == l.askSize
  {
    forall r | r in left || r in right ensures r in all {}
  }

  lemma MergeReceive(p: Option<int>, c: Option<int>, left: set<Row>, right: set<Row>)
    requires ReceiveOf(p, left) && ReceiveOf(c, right)
    ensures ReceiveOf(if p.None? || c.None? then None else Some(MaxInt(p.value, c.value)), left + right)
  {
    forall r | r in left || r in right ensures r in left + right {}
  }

  /** Merging two summaries summarizes all the rows of both. */
  lemma MergeSummarizes(p: Compacted, c: Compacted, left: set<Row>, right: set<Row>)
    requires Summarizes(p, left) && Summarizes(c, right)
    ensures Summarizes(Merge(p, c), left + right)
  {
    MergeWitnesses(p, c, left, right, Merge(p, c), left + right);
    MergeReceive(p.receiveNs, c.receiveNs, left, right);
  }

  ghost function RowsAt(rows: set<Row>, spacingMs: int, key: BucketKey): set<Row>
    requires spacingMs > 0
  {
    set r | r in rows && Usable(r) && KeyOf(r, spacingMs) == key
  }

  ghost predicate CompactedAt(table: map<BucketKey, Compacted>, bucket: set<Row>, key: BucketKey) {
    (key in table <==> bucket != {}) && (key in table ==> Summarizes(table[key], bucket))
  }

  /** The table holds, for every bucket with usable rows and no other, the summary of its rows. */
  ghost predicate CompactionOf(table: map<BucketKey, Compacted>, rows: set<Row>, spacingMs: int)
    requires spacingMs > 0
  {
    forall key :: CompactedAt(table, RowsAt(rows, spacingMs, key), key)
  }

  ghost predicate GroupedAt(groups: map<BucketKey, Aggregate>, bucket: set<Row>, key: BucketKey) {
    (key in groups <==> bucket != {}) && (key in groups ==> Aggregates(groups[key], bucket))
  }

  ghost predicate GroupsOf(groups: map<BucketKey, Aggregate>, rows: set<Row>, spacingMs: int)
    requires spacingMs > 0
  {
    forall key :: GroupedAt(groups, RowsAt(rows, spacingMs, key), key)
  }

  /** The rows of a sequence, as a set. */
  ghost function RowSet(rows: seq<Row>): set<Row> {
    set r | r in rows
  }

  // ----- which rows take part, and which reject the import -----

  predicate Selected(raw: RawRow, ids: Identities) {
    match raw
    case Given(r) => exists k :: k in ids && k.market == r.market
    case Missing(market) => market.Some? && exists k :: k in ids && k.market == market.value
  }

  /**
   * Missing values, an unknown token, a value out of bounds, a crossed quote, or a token of another market
   * or outcome.
   */
  predicate Refused(raw: RawRow, ids: Identities) {
    && Selected(raw, ids)
    && (raw.Missing?
        || !(exists k :: k in ids && k.token == raw.row.token)
        || (Inside(raw.row) && (OutOfBounds(raw.row) || Crossed(raw.row)))
        || (Usable(raw.row) && !Mapped(raw.row, ids)))
  }

  predicate Mapped(r: Row, ids: Identities) {
    MarketToken(r.market, r.token) in ids && ids[MarketToken(r.market, r.token)].outcome == r.outcome
  }

  predicate BatchInvalid(batch: seq<RawRow>, ids: Identities) {
    exists raw :: raw in batch && Refused(raw, ids)
  }

  /** The rows of a batch that take part. */
  function Chosen(batch: seq<RawRow>, ids: Identities): seq<Row> {
    if |batch| == 0 then []
    else
      var last := batch[|batch| - 1];
      Chosen(batch[..|batch| - 1], ids) + (if last.Given? && Selected(last, ids) then [last.row] else [])
  }

  ghost function RawSet(batch: seq<RawRow>): set<RawRow> {
    set raw | raw in batch
  }

  ghost function AllRaw(batches: seq<seq<RawRow>>): set<RawRow> {
    if |batches| == 0 then {}
    else AllRaw(batches[..|batches| - 1]) + RawSet(batches[|batches| - 1])
  }

  ghost function ChosenOf(raws: set<RawRow>, ids: Identities): set<Row> {
    set raw | raw in raws && raw.Given? && Selected(raw, ids) :: raw.row
  }

  lemma {:induction false} ChosenExactly(batch: seq<RawRow>, ids: Identities, r: Row)
    ensures r in Chosen(batch, ids) <==> Given(r) in batch && Selected(Given(r), ids)
  {
    if |batch| > 0 {
      ChosenExactly(batch[..|batch| - 1], ids, r);
    }
  }

  lemma ChosenNext(raws: set<RawRow>, batch: seq<RawRow>, ids: Identities)
    ensures ChosenOf(raws + RawSet(batch), ids) == ChosenOf(raws, ids) + RowSet(Chosen(batch, ids))
  {
    var all := raws + RawSet(batch);
    forall r
      ensures r in ChosenOf(all, ids) <==> r in ChosenOf(raws, ids) || r in RowSet(Chosen(batch, ids))
    {
      ChosenExactly(batch, ids, r);
      assert r in ChosenOf(all, ids) <==> Given(r) in all && Selected(Given(r), ids);
      assert r in ChosenOf(raws, ids) <==> Given(r) in raws && Selected(Given(r), ids);
    }
  }

  /** The buckets that have a usable row. */
  ghost function Buckets(rows: set<Row>, spacingMs: int): set<BucketKey>
    requires spacingMs > 0
  {
    set r | r in rows && Usable(r) :: KeyOf(r, spacingMs)
  }

  /** A table has one entry for each bucket with a usable row. */
  lemma TableSize(table: map<BucketKey, Compacted>, rows: set<Row>, spacingMs: int)
    requires spacingMs > 0 && CompactionOf(table, rows, spacingMs)
    ensures table.Keys == Buckets(rows, spacingMs)
  {
    forall key
      ensures key in table <==> key in Buckets(rows, spacingMs)
    {
      assert CompactedAt(table, RowsAt(rows, spacingMs, key), key);
      if key in table {
        var r :| r in RowsAt(rows, spacingMs, key);
        assert KeyOf(r, spacingMs) == key;
      }
      if key in Buckets(rows, spacingMs) {
        var r :| r in rows && Usable(r) && KeyOf(r, spacingMs) == key;
        assert r in RowsAt(rows, spacingMs, key);
      }
    }
  }

  // ----- which rows share a level -----

  /** The key names the row's market and token, and its time falls into the spacing that the bucket numbers. */
  ghost predicate InBucket(r: Row, spacingMs: int, key: BucketKey) {
    && r.market == key.market && r.token == key.token
    && key.bucket * spacingMs <= r.tsMs < (key.bucket + 1) * spacingMs
  }

  /** In its session, with a price and a size on both sides. */
  ghost predicate TwoSided(r: Row) {
    && r.sessionStart <= r.tsMs && r.tsMs <= r.sessionEnd
    && 0.0 < r.bid && 0.0 < r.ask && 0.0 < r.bidSize && 0.0 < r.askSize
  }

  lemma KeyExactly(r: Row, spacingMs: int, key: BucketKey)
    requires spacingMs > 0
    ensures KeyOf(r, spacingMs) == key <==> InBucket(r, spacingMs, key)
  {
    FloorSpec(r.tsMs, spacingMs);
    var bucket := r.tsMs / spacingMs;
    assert (bucket + 1) * spacingMs == bucket * spacingMs + spacingMs;
    if InBucket(r, spacingMs, key) {
      MulCancel(key.bucket, bucket + 1, spacingMs);
      MulCancel(bucket, key.bucket + 1, spacingMs);
    }
  }

  /** A table has a level exactly where a two-sided row falls, and the level summarizes all that fall there. */
  ghost predicate LevelAt(table: map<BucketKey, Compacted>, rows: set<Row>, spacingMs: int, key: BucketKey) {
    var behind := set r | r in rows && TwoSided(r) && InBucket(r, spacingMs, key);
    (key in table <==> behind != {}) && (key in table ==> Summarizes(table[key], behind))
  }

  ghost predicate LevelsBySpan(table: map<BucketKey, Compacted>, rows: set<Row>, spacingMs: int) {
    forall key :: LevelAt(table, rows, spacingMs, key)
  }

  /** The rows behind the level of a key are the two-sided ones of its market and token within its span of time. */
  lemma SpansExactly(table: map<BucketKey, Compacted>, rows: set<Row>, spacingMs: int)
    requires spacingMs > 0
    ensures CompactionOf(table, rows, spacingMs) <==> LevelsBySpan(table, rows, spacingMs)
  {
    forall key
      ensures CompactedAt(table, RowsAt(rows, spacingMs, key), key) <==> LevelAt(table, rows, spacingMs, key)
    {
      forall r ensures KeyOf(r, spacingMs) == key <==> InBucket(r, spacingMs, key) {
        KeyExactly(r, spacingMs, key);
      }
      assert RowsAt(rows, spacingMs, key) == set r | r in rows && TwoSided(r) && InBucket(r, spacingMs, key);
    }
    assert CompactionOf(table, rows, spacingMs)
      <==> forall key :: CompactedAt(table, RowsAt(rows, spacingMs, key), key);
  }

  /** Rows at least a spacing apart are behind different levels, and so are rows of different tokens. */
  lemma LevelsApart(x: Row, y: Row, spacingMs: int, key: BucketKey)
    requires InBucket(x, spacingMs, key) && InBucket(y, spacingMs, key)
    ensures x.market == y.market && x.token == y.token && -spacingMs < x.tsMs - y.tsMs < spacingMs
  {
    assert (key.bucket + 1) * spacingMs == key.bucket * spacingMs + spacingMs;
  }

  function AddToGroup(groups: map<BucketKey, Aggregate>, r: Row, key: BucketKey): map<BucketKey, Aggregate> {
    groups[key := if key in groups then Extend(groups[key], r) else First(r)]
  }

  lemma GroupOwnKey(groups: map<BucketKey, Aggregate>, bucket: set<Row>, r: Row, key: BucketKey)
    requires GroupedAt(groups, bucket, key)
    ensures GroupedAt(AddToGroup(groups, r, key), bucket + {r}, key)
  {
    if key in groups {
      ExtendAggregates(groups[key], bucket, r);
    } else {
      FirstAggregates(r);
      assert bucket + {r} == {r};
    }
    assert r in bucket + {r};
  }

  lemma RowsAtNext(rows: set<Row>, r: Row, spacingMs: int, key: BucketKey)
    requires spacingMs > 0
    ensures RowsAt(rows + {r}, spacingMs, key)
         == RowsAt(rows, spacingMs, key) + (if Usable(r) && KeyOf(r, spacingMs) == key then {r} else {})
  {
  }

  lemma GroupRow(groups: map<BucketKey, Aggregate>, rows: set<Row>, r: Row, spacingMs: int)
    requires spacingMs > 0 && GroupsOf(groups, rows, spacingMs)
    ensures GroupsOf(if Usable(r) then AddToGroup(groups, r, KeyOf(r, spacingMs)) else groups, rows + {r}, spacingMs)
  {
    var next := if Usable(r) then AddToGroup(groups, r, KeyOf(r, spacingMs)) else groups;
    forall key
      ensures GroupedAt(next, RowsAt(rows + {r}, spacingMs, key), key)
    {
      var bucket := RowsAt(rows, spacingMs, key);
      assert GroupedAt(groups, bucket, key);
      RowsAtNext(rows, r, spacingMs, key);
      if Usable(r) && KeyOf(r, spacingMs) == key {
        GroupOwnKey(groups, bucket, r, key);
      } else {
        assert bucket + {} == bucket;
      }
    }
  }

  /** Groups one batch by bucket. */
  method GroupBatch(batch: seq<Row>, spacingMs: int) returns (groups: map<BucketKey, Aggregate>)
    requires spacingMs > 0
    ensures GroupsOf(groups, RowSet(batch), spacingMs)
  {
    groups := map[];
    for i := 0 to |batch|
      invariant GroupsOf(groups, RowSet(batch[..i]), spacingMs)
    {
      var r := batch[i];
      assert RowSet(batch[..i + 1]) == RowSet(batch[..i]) + {r};
      GroupRow(groups, RowSet(batch[..i]), r, spacingMs);
      if Usable(r) {
        groups := AddToGroup(groups, r, KeyOf(r, spacingMs));
      }
    }
    assert batch[..|batch|] == batch;
  }

  ghost function Seen(before: set<Row>, batch: set<Row>, done: set<BucketKey>, spacingMs: int, key: BucketKey): set<Row>
    requires spacingMs > 0
  {
    RowsAt(before, spacingMs, key) + (if key in done then RowsAt(batch, spacingMs, key) else {})
  }

  /** Where the table stands when the groups of `done` have been merged into it. */
  ghost predicate Merging(
    table: map<BucketKey, Compacted>, before: set<Row>, batch: set<Row>, done: set<BucketKey>, spacingMs: int)
    requires spacingMs > 0
  {
    forall key :: CompactedAt(table, Seen(before, batch, done, spacingMs, key), key)
  }

  function AddToTable(table: map<BucketKey, Compacted>, key: BucketKey, c: Compacted): map<BucketKey, Compacted> {
    table[key := if key in table then Merge(table[key], c) else c]
  }

  lemma MergeOwnKey(table: map<BucketKey, Compacted>, left: set<Row>, right: set<Row>, key: BucketKey, a: Aggregate)
    requires CompactedAt(table, left, key) && right != {} && Aggregates(a, right)
    ensures CompactedAt(AddToTable(table, key, Candidate(a)), left + right, key)
  {
    CandidateSummarizes(a, right);
    if key in table {
      MergeSummarizes(table[key], Candidate(a), left, right);
    } else {
      assert left + right == right;
    }
  }

  lemma MergeKey(table: map<BucketKey, Compacted>, before: set<Row>, batch: set<Row>, done: set<BucketKey>,
                 spacingMs: int, key: BucketKey, a: Aggregate)
    requires spacingMs > 0 && Merging(table, before, batch, done, spacingMs) && key !in done
    requires RowsAt(batch, spacingMs, key) != {} && Aggregates(a, RowsAt(batch, spacingMs, key))
    ensures Merging(AddToTable(table, key, Candidate(a)), before, batch, done + {key}, spacingMs)
  {
    var next := AddToTable(table, key, Candidate(a));
    forall k
      ensures CompactedAt(next, Seen(before, batch, done + {key}, spacingMs, k), k)
    {
      assert CompactedAt(table, Seen(before, batch, done, spacingMs, k), k);
      if k == key {
        assert Seen(before, batch, done, spacingMs, key) == RowsAt(before, spacingMs, key);
        MergeOwnKey(table, RowsAt(before, spacingMs, key), RowsAt(batch, spacingMs, key), key, a);
      }
    }
  }

  lemma StartMerging(table: map<BucketKey, Compacted>, before: set<Row>, batch: set<Row>, spacingMs: int)
    requires spacingMs > 0 && CompactionOf(table, before, spacingMs)
    ensures Merging(table, before, batch, {}, spacingMs)
  {
    forall key
      ensures CompactedAt(table, Seen(before, batch, {}, spacingMs, key), key)
    {
      assert Seen(before, batch, {}, spacingMs, key) == RowsAt(before, spacingMs, key);
    }
  }

  lemma FinishMerging(table: map<BucketKey, Compacted>, before: set<Row>, batch: set<Row>, done: set<BucketKey>,
                      spacingMs: int)
    requires spacingMs > 0 && Merging(table, before, batch, done, spacingMs)
    requires forall key :: RowsAt(batch, spacingMs, key) != {} ==> key in done
    ensures CompactionOf(table, before + batch, spacingMs)
  {
    forall key
      ensures CompactedAt(table, RowsAt(before + batch, spacingMs, key), key)
    {
      assert CompactedAt(table, Seen(before, batch, done, spacingMs, key), key);
      assert RowsAt(before + batch, spacingMs, key) == Seen(before, batch, done, spacingMs, key);
    }
  }

  /** Merges one batch's groups into the table, in any order of the groups. */
  method MergeBatch(table: map<BucketKey, Compacted>, ghost before: set<Row>, batch: seq<Row>, spacingMs: int)
    returns (merged: map<BucketKey, Compacted>)
    requires spacingMs > 0 && CompactionOf(table, before, spacingMs)
    ensures CompactionOf(merged, before + RowSet(batch), spacingMs)
  {
    var groups := GroupBatch(batch, spacingMs);
    ghost var rows := RowSet(batch);
    merged := table;
    var rest := groups.Keys;
    StartMerging(table, before, rows, spacingMs);
    assert groups.Keys - rest == {};
    while rest != {}
      invariant rest <= groups.Keys
      invariant Merging(merged, before, rows, groups.Keys - rest, spacingMs)
      decreases |rest|
    {
      var key :| key in rest;
      assert GroupedAt(groups, RowsAt(rows, spacingMs, key), key);
      MergeKey(merged, before, rows, groups.Keys - rest, spacingMs, key, groups[key]);
      assert groups.Keys - rest + {key} == groups.Keys - (rest - {key});
      merged := AddToTable(merged, key, Candidate(groups[key]));
      rest := rest - {key};
    }
    forall key | RowsAt(rows, spacingMs, key) != {}
      ensures key in groups.Keys
    {
      assert GroupedAt(groups, RowsAt(rows, spacingMs, key), key);
    }
    assert groups.Keys - rest == groups.Keys;
    FinishMerging(merged, before, rows, groups.Keys, spacingMs);
  }

  /** What the import is allowed: how many buckets at most, and how many sessions at least. */
  datatype Bounds = Bounds(maximumRows: nat, minimumSessions: nat)

  /** The conditions that have a usable row. */
  ghost function Covered(rows: set<Row>, ids: Identities): set<string> {
    set r | r in rows && Usable(r) && MarketToken(r.market, r.token) in ids
      :: ids[MarketToken(r.market, r.token)].condition
  }

  /** The rows reject the import: one of them is refused, they fill too many buckets, or cover too few sessions. */
  ghost predicate Rejected(raws: set<RawRow>, ids: Identities, spacingMs: int, bounds: Bounds)
    requires spacingMs > 0
  {
    || (exists raw :: raw in raws && Refused(raw, ids))
    || |Buckets(ChosenOf(raws, ids), spacingMs)| > bounds.maximumRows
    || |Covered(ChosenOf(raws, ids), ids)| < bounds.minimumSessions
  }

  /** The conditions of the levels in a table are those of the usable rows. */
  lemma CoveredByTable(table: map<BucketKey, Compacted>, rows: set<Row>, ids: Identities, spacingMs: int)
    requires spacingMs > 0 && CompactionOf(table, rows, spacingMs)
    ensures (set key | key in table && MarketToken(key.market, key.token) in ids
               :: ids[MarketToken(key.market, key.token)].condition) == Covered(rows, ids)
  {
    TableSize(table, rows, spacingMs);
    var found := set key | key in table && MarketToken(key.market, key.token) in ids
      :: ids[MarketToken(key.market, key.token)].condition;
    forall condition
      ensures condition in found <==> condition in Covered(rows, ids)
    {
      if condition in found {
        var key :| key in table && MarketToken(key.market, key.token) in ids
                   && ids[MarketToken(key.market, key.token)].condition == condition;
        var r :| r in rows && Usable(r) && KeyOf(r, spacingMs) == key;
        assert r.market == key.market && r.token == key.token;
      }
      if condition in Covered(rows, ids) {
        var r :| r in rows && Usable(r) && MarketToken(r.market, r.token) in ids
                 && ids[MarketToken(r.market, r.token)].condition == condition;
        assert KeyOf(r, spacingMs) in table;
      }
    }
  }

  /**
   * Compacts all batches. Whether the import is rejected and what it produces depend only on which rows there
   * are: batch boundaries, row order and repetition do not matter.
   */
  method CompactAll(batches: seq<seq<RawRow>>, ids: Identities, spacingMs: int, bounds: Bounds)
    returns (r: Option<map<BucketKey, Compacted>>)
    requires spacingMs > 0
    ensures r.None? <==> Rejected(AllRaw(batches), ids, spacingMs, bounds)
    ensures r.Some? ==> CompactionOf(r.value, ChosenOf(AllRaw(batches), ids), spacingMs)
    ensures r.Some? ==> LevelsBySpan(r.value, ChosenOf(AllRaw(batches), ids), spacingMs)
  {
    var table: map<BucketKey, Compacted> := map[];
    RejectionIrrelevant(batches, ids);
    for i := 0 to |batches|
      invariant forall j :: 0 <= j < i ==> !BatchInvalid(batches[j], ids)
      invariant CompactionOf(table, ChosenOf(AllRaw(batches[..i]), ids), spacingMs)
    {
      if BatchInvalid(batches[i], ids) {
        return None;
      }
      assert batches[..i + 1][..i] == batches[..i];
      ghost var before := AllRaw(batches[..i]);
      ChosenNext(before, batches[i], ids);
      table := MergeBatch(table, ChosenOf(before, ids), Chosen(batches[i], ids), spacingMs);
    }
    assert batches[..|batches|] == batches;
    TableSize(table, ChosenOf(AllRaw(batches), ids), spacingMs);
    if |table| > bounds.maximumRows {
      return None;
    }
    var covered := set key | key in table && MarketToken(key.market, key.token) in ids
      :: ids[MarketToken(key.market, key.token)].condition;
    CoveredByTable(table, ChosenOf(AllRaw(batches), ids), ids, spacingMs);
    if |covered| < bounds.minimumSessions {
      return None;
    }
    SpansExactly(table, ChosenOf(AllRaw(batches), ids), spacingMs);
    return Some(table);
  }

  /** The table depends only on the rows: batch boundaries, row order and repetition do not matter. */
  lemma BatchingIrrelevant(t: map<BucketKey, Compacted>, u: map<BucketKey, Compacted>, rows: set<Row>, spacingMs: int)
    requires spacingMs > 0 && CompactionOf(t, rows, spacingMs) && CompactionOf(u, rows, spacingMs)
    ensures t == u
  {
    forall key
      ensures key in t <==> key in u
      ensures key in t ==> t[key] == u[key]
    {
      assert CompactedAt(t, RowsAt(rows, spacingMs, key), key) && CompactedAt(u, RowsAt(rows, spacingMs, key), key);
      if key in t {
        SummaryUnique(t[key], u[key], RowsAt(rows, spacingMs, key));
      }
    }
  }

  lemma {:induction false} RowsInBatches(batches: seq<seq<RawRow>>, raw: RawRow)
    ensures raw in AllRaw(batches) <==> exists i :: 0 <= i < |batches| && raw in batches[i]
  {
    if |batches| > 0 {
      var before, last := batches[..|batches| - 1], batches[|batches| - 1];
      RowsInBatches(before, raw);
      if i :| 0 <= i < |before| && raw in before[i] {
        assert raw in batches[i];
      }
      if i :| 0 <= i < |batches| && raw in batches[i] {
        assert i < |before| ==> raw in before[i];
      }
    }
  }

  /** Some batch holds a refused row exactly when the rows do: batch boundaries and order do not matter. */
  lemma RejectionIrrelevant(batches: seq<seq<RawRow>>, ids: Identities)
    ensures (exists i :: 0 <= i < |batches| && BatchInvalid(batches[i], ids)) <==>
      exists raw :: raw in AllRaw(batches) && Refused(raw, ids)
  {
    forall raw { RowsInBatches(batches, raw); }
    if raw :| raw in AllRaw(batches) && Refused(raw, ids) {
      var i :| 0 <= i < |batches| && raw in batches[i];
      assert BatchInvalid(batches[i], ids);
    }
  }

  // ----- which imports are accepted -----

  /** A row of a known market that an import can take: complete, of a known token, and sound. */
  ghost predicate Admissible(raw: RawRow, ids: Identities) {
    match raw
    case Missing(_) => false
    case Given(r) =>
      && (exists k :: k in ids && k.token == r.token)
      && (r.sessionStart <= r.tsMs <= r.sessionEnd ==> SoundQuote(r))
      && (TwoSided(r) ==> exists condition: string ::
            MarketToken(r.market, r.token) in ids.Keys
            && ids[MarketToken(r.market, r.token)] == Identity(condition, r.outcome))
  }

  /** No time, price or size is negative, no price is above one, and two prices leave a spread. */
  predicate SoundQuote(r: Row) {
    && 0 <= r.tsMs && 0.0 <= r.bid && 0.0 <= r.ask <= 1.0 && 0.0 <= r.bidSize && 0.0 <= r.askSize
    && (0.0 < r.bid && 0.0 < r.ask ==> r.bid < r.ask)
  }

  /** The row names a market of the import. */
  predicate OfKnownMarket(raw: RawRow, ids: Identities) {
    exists k :: k in ids && (if raw.Given? then raw.row.market == k.market else raw.market == Some(k.market))
  }

  lemma RefusedExactly(raw: RawRow, ids: Identities)
    ensures Refused(raw, ids) <==> OfKnownMarket(raw, ids) && !Admissible(raw, ids)
  {
    if raw.Given? && MarketToken(raw.row.market, raw.row.token) in ids {
      var i := ids[MarketToken(raw.row.market, raw.row.token)];
      assert i == Identity(i.condition, i.outcome);
    }
  }

  /**
   * An import is accepted exactly when every row of a known market is admissible, the levels are not too many and
   * they cover enough conditions.
   */
  lemma AcceptedExactly(table: map<BucketKey, Compacted>, raws: set<RawRow>, ids: Identities, spacingMs: int,
                        bounds: Bounds)
    requires spacingMs > 0 && LevelsBySpan(table, ChosenOf(raws, ids), spacingMs)
    ensures !Rejected(raws, ids, spacingMs, bounds) <==>
      && (forall raw :: raw in raws && OfKnownMarket(raw, ids) ==> Admissible(raw, ids))
      && |table| <= bounds.maximumRows
      && bounds.minimumSessions <= |set key | key in table && MarketToken(key.market, key.token) in ids
                                      :: ids[MarketToken(key.market, key.token)].condition|
  {
    forall raw ensures Refused(raw, ids) <==> OfKnownMarket(raw, ids) && !Admissible(raw, ids) {
      RefusedExactly(raw, ids);
    }
    var rows := ChosenOf(raws, ids);
    SpansExactly(table, rows, spacingMs);
    TableSize(table, rows, spacingMs);
    CoveredByTable(table, rows, ids, spacingMs);
  }

  // ----- conservative -----

  ghost predicate Clean(rows: set<Row>) {
    forall r :: r in rows && Inside(r) ==> !OutOfBounds(r) && !Crossed(r)
  }

  /** The rows that take part in an accepted import are in bounds and uncrossed. */
  lemma AcceptedIsClean(raws: set<RawRow>, ids: Identities, spacingMs: int, bounds: Bounds)
    requires spacingMs > 0 && !Rejected(raws, ids, spacingMs, bounds)
    ensures Clean(ChosenOf(raws, ids))
  {
    forall r | r in ChosenOf(raws, ids) && Inside(r)
      ensures !OutOfBounds(r) && !Crossed(r)
    {
      assert Given(r) in raws && !Refused(Given(r), ids);
    }
  }

  /** Every compacted level is uncrossed. */
  lemma Uncrossed(l: Compacted, rows: set<Row>, spacingMs: int, key: BucketKey)
    requires spacingMs > 0 && Clean(rows) && Summarizes(l, RowsAt(rows, spacingMs, key))
    ensures 0 <= l.bid < l.ask <= MICROS
  {
    var bucket := RowsAt(rows, spacingMs, key);
    var r :| r in bucket && FloorMicros(r.bid) == l.bid;
    assert Inside(r) && r.bid < r.ask;
    QuoteRounding(r.bid, r.ask);
    var s :| s in bucket && CeilingMicros(s.ask) == l.ask;
    assert Inside(s) && s.ask <= 1.0;
    CeilingMicrosMonotone(s.ask, 1.0);
  }

  lemma QuoteRounding(bid: real, ask: real)
    requires 0.0 < bid < ask
    ensures 0 <= FloorMicros(bid) < CeilingMicros(ask)
  {
    assert (FloorMicros(bid) as real) <= bid * 1000000.0 < ask * 1000000.0 <= (CeilingMicros(ask) as real);
  }

  /** The one-level books a compacted level is written as. */
  function Asks(l: Compacted): seq<RawLevel> {
    [Level(l.ask, l.askSize)]
  }

  function Bids(l: Compacted): seq<RawLevel> {
    [Level(l.bid, l.bidSize)]
  }

  lemma OneLevelFill(level: RawLevel, quantity: nat, buy: bool, n: nat)
    requires quantity > 0 && FilledAt([level], quantity, buy, n)
    ensures n == 1 && quantity <= SizeOf(level)
    ensures Consideration([level], quantity, buy, n) == Rounded(PriceOf(level) * quantity, buy)
  {
    assert Left([level], quantity, 0) == quantity;
  }

  /** Rounding is to the next micro, down or up. */
  lemma MicrosBounds(x: real)
    ensures (FloorMicros(x) as real) <= x * 1000000.0 < (FloorMicros(x) as real) + 1.0
    ensures (CeilingMicros(x) as real) - 1.0 < x * 1000000.0 <= (CeilingMicros(x) as real)
  {
  }

  lemma RealProduct(x: real, y: real, q: real)
    requires x <= y && q >= 0.0
    ensures x * q <= y * q
  {
  }

  lemma AskCost(price: real, micros: int, quantity: nat, cost: int)
    requires price * 1000000.0 <= micros as real && micros * quantity <= cost * MICROS
    ensures price * (quantity as real) <= cost as real
  {
    var q := quantity as real;
    RealProduct(price * 1000000.0, micros as real, q);
    assert (micros * quantity) as real == (micros as real) * q;
    assert (price * 1000000.0) * q == (price * q) * 1000000.0;
  }

  lemma BidProceeds(price: real, micros: int, quantity: nat, proceeds: int)
    requires micros as real <= price * 1000000.0 && proceeds * MICROS <= micros * quantity
    ensures proceeds as real <= price * (quantity as real)
  {
    var q := quantity as real;
    RealProduct(micros as real, price * 1000000.0, q);
    assert (micros * quantity) as real == (micros as real) * q;
    assert (price * 1000000.0) * q == (price * q) * 1000000.0;
  }

  lemma SummaryBounds(l: Compacted, rows: set<Row>, r: Row)
    requires Summarizes(l, rows) && r in rows
    ensures l.bid as real <= r.bid * 1000000.0 && r.ask * 1000000.0 <= l.ask as real
    ensures l.bidSize as real <= r.bidSize * 1000000.0 && l.askSize as real <= r.askSize * 1000000.0
  {
    MicrosBounds(r.bid);
    MicrosBounds(r.ask);
    MicrosBounds(r.bidSize);
    MicrosBounds(r.askSize);
  }

  /** Each figure of a level is within a micro of a row's own. */
  lemma SummaryTight(l: Compacted, rows: set<Row>)
    requires Summarizes(l, rows)
    ensures exists r :: r in rows && r.bid * 1000000.0 < (l.bid as real) + 1.0
    ensures exists r :: r in rows && (l.ask as real) - 1.0 < r.ask * 1000000.0
    ensures exists r :: r in rows && r.bidSize * 1000000.0 < (l.bidSize as real) + 1.0
    ensures exists r :: r in rows && r.askSize * 1000000.0 < (l.askSize as real) + 1.0
  {
    forall x { MicrosBounds(x); }
  }

  /**
   * End to end: when the depth walk can buy a quantity from a compacted level, every raw row of the
   * bucket offered at least that quantity, and the walk's cost is at least the exact cost there.
   */
  lemma CompactedBuyConservative(l: Compacted, rows: set<Row>, r: Row, quantity: nat)
    requires Summarizes(l, rows) && r in rows && quantity > 0
    requires WalkOutcome(Asks(l), quantity, true).Filled?
    ensures quantity as real <= r.askSize * 1000000.0
    ensures r.ask * (quantity as real) <= WalkOutcome(Asks(l), quantity, true).consideration as real
  {
    var n: nat :| FilledAt(Asks(l), quantity, true, n);
    FillsAt(Asks(l), quantity, true, n);
    OneLevelFill(Level(l.ask, l.askSize), quantity, true, n);
    SummaryBounds(l, rows, r);
    CeilingSpec(l.ask * quantity, MICROS);
    AskCost(r.ask, l.ask, quantity, Consideration(Asks(l), quantity, true, n));
  }

  /** Likewise for a sale: every raw row bid for the quantity, and the walk's proceeds are at most the exact ones. */
  lemma CompactedSaleConservative(l: Compacted, rows: set<Row>, r: Row, quantity: nat)
    requires Summarizes(l, rows) && r in rows && quantity > 0
    requires WalkOutcome(Bids(l), quantity, false).Filled?
    ensures quantity as real <= r.bidSize * 1000000.0
    ensures WalkOutcome(Bids(l), quantity, false).consideration as real <= r.bid * (quantity as real)
  {
    var n: nat :| FilledAt(Bids(l), quantity, false, n);
    FillsAt(Bids(l), quantity, false, n);
    OneLevelFill(Level(l.bid, l.bidSize), quantity, false, n);
    SummaryBounds(l, rows, r);
    FloorSpec(l.bid * quantity, MICROS);
    BidProceeds(r.bid, l.bid, quantity, Consideration(Bids(l), quantity, false, n));
  }

  /**
   * Over a whole accepted import: every usable row that takes part has a compacted level, what the walk fills
   * from it is no better than at that row, on both sides of the book, and a sale never beats a purchase.
   */
  lemma ImportConservative(table: map<BucketKey, Compacted>, raws: set<RawRow>, ids: Identities, spacingMs: int,
                           bounds: Bounds, r: Row, quantity: nat)
    requires spacingMs > 0 && !Rejected(raws, ids, spacingMs, bounds) && quantity > 0
    requires CompactionOf(table, ChosenOf(raws, ids), spacingMs)
    requires Given(r) in raws && Selected(Given(r), ids) && Usable(r)
    ensures KeyOf(r, spacingMs) in table
    ensures var l := table[KeyOf(r, spacingMs)];
      var buy, sale := WalkOutcome(Asks(l), quantity, true), WalkOutcome(Bids(l), quantity, false);
      && (buy.Filled? ==> r.ask * (quantity as real) <= buy.consideration as real)
      && (sale.Filled? ==> sale.consideration as real <= r.bid * (quantity as real))
      && (buy.Filled? && sale.Filled? ==> sale.consideration <= buy.consideration)
  {
    var key, rows := KeyOf(r, spacingMs), ChosenOf(raws, ids);
    var bucket := RowsAt(rows, spacingMs, key);
    assert r in rows && r in bucket;
    assert CompactedAt(table, bucket, key);
    AcceptedIsClean(raws, ids, spacingMs, bounds);
    LevelConservative(table[key], rows, spacingMs, key, r, quantity);
  }

  lemma LevelConservative(l: Compacted, rows: set<Row>, spacingMs: int, key: BucketKey, r: Row, quantity: nat)
    requires spacingMs > 0 && Clean(rows) && Summarizes(l, RowsAt(rows, spacingMs, key)) && quantity > 0
    requires r in RowsAt(rows, spacingMs, key)
    ensures var buy, sale := WalkOutcome(Asks(l), quantity, true), WalkOutcome(Bids(l), quantity, false);
      && (buy.Filled? ==> r.ask * (quantity as real) <= buy.consideration as real)
      && (sale.Filled? ==> sale.consideration as real <= r.bid * (quantity as real))
      && (buy.Filled? && sale.Filled? ==> sale.consideration <= buy.consideration)
  {
    var bucket := RowsAt(rows, spacingMs, key);
    var buy, sale := WalkOutcome(Asks(l), quantity, true), WalkOutcome(Bids(l), quantity, false);
    if buy.Filled? {
      CompactedBuyConservative(l, bucket, r, quantity);
    }
    if sale.Filled? {
      CompactedSaleConservative(l, bucket, r, quantity);
    }
    if buy.Filled? && sale.Filled? {
      Uncrossed(l, rows, spacingMs, key);
      var n: nat :| FilledAt(Asks(l), quantity, true, n);
      var k: nat :| FilledAt(Bids(l), quantity, false, k);
      FillsAt(Asks(l), quantity, true, n);
      FillsAt(Bids(l), quantity, false, k);
      SaleBelowPurchase(Asks(l), Bids(l), quantity, n, k);
    }
  }
}
