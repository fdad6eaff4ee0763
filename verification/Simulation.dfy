/** The one-position-at-a-time simulator and its profit, loss and drawdown figures. */
module Simulation {
  import opened Ordering
  import opened Arithmetic
  import opened Sorting
  import opened PathLabels

  datatype Candidate = Candidate(condition: Text, timeNs: int, score: real, side: Side)

  datatype Trade = Trade(condition: Text, entryNs: int, exitNs: int, pnl: int, reason: Reason)

  function KeyOf(c: Candidate): RowKey {
    RowKey(c.condition, c.side, c.timeNs)
  }

  function SideRank(s: Side): nat {
    if s.Down? then 0 else 1
  }

  /** By condition, then time, then descending score, then side. */
  predicate CandidateLeq(x: Candidate, y: Candidate) {
    if x.condition != y.condition then TextLess(x.condition, y.condition)
    else if x.timeNs != y.timeNs then x.timeNs < y.timeNs
    else if x.score != y.score then x.score > y.score
    else SideRank(x.side) <= SideRank(y.side)
  }

  lemma CandidateOrder()
    ensures TotalPreorder(CandidateLeq)
  {
    forall x: Candidate, y: Candidate
      ensures CandidateLeq(x, y) || CandidateLeq(y, x)
    {
      TextTrichotomy(x.condition, y.condition);
    }
    forall x: Candidate, y: Candidate, z: Candidate | CandidateLeq(x, y) && CandidateLeq(y, z)
      ensures CandidateLeq(x, z)
    {
      if x.condition != y.condition && y.condition != z.condition {
        TextTransitive(x.condition, y.condition, z.condition);
        TextIrreflexive(x.condition);
      }
    }
  }

  predicate SameMoment(x: Candidate, y: Candidate) {
    x.condition == y.condition && x.timeNs == y.timeNs
  }

  /** `y` does not beat `x`: score first, then side. */
  predicate Beats(x: Candidate, y: Candidate) {
    x.score > y.score || (x.score == y.score && SideRank(x.side) >= SideRank(y.side))
  }

  /** The best-scored candidate of its moment. */
  ghost predicate Best(cs: seq<Candidate>, c: Candidate) {
    c in cs && forall d :: d in cs && SameMoment(c, d) ==> Beats(c, d)
  }

  /** A moment is tradable when its best candidate reaches the threshold and has a label. */
  predicate Tradable(c: Candidate, labels: map<RowKey, PathLabel>, threshold: real) {
    c.score >= threshold && KeyOf(c) in labels
  }

  function TradeOf(c: Candidate, l: PathLabel): Trade {
    Trade(c.condition, c.timeNs, l.exitNs, l.pnl, l.reason)
  }

  /** A position of the condition is open at the time: entered before it, exiting after it. */
  predicate OpenAt(t: Trade, condition: Text, timeNs: int) {
    t.condition == condition && t.entryNs < timeNs < t.exitNs
  }

  /** Trades of one condition never overlap. */
  ghost predicate Disjoint(trades: seq<Trade>) {
    forall i, j :: 0 <= i < j < |trades| && trades[i].condition == trades[j].condition ==>
      trades[i].exitNs <= trades[j].entryNs
  }

  /** The exit time that stands for no position yet. */
  const NO_POSITION: int := -1

  ghost predicate Started(trades: seq<Trade>) {
    forall i :: 0 <= i < |trades| ==> trades[i].entryNs >= NO_POSITION
  }

  predicate Precedes(x: Trade, y: Trade) {
    TextLess(x.condition, y.condition) || (x.condition == y.condition && x.entryNs < y.entryNs)
  }

  /** Trades are appended by condition, and within a condition by entry time. */
  ghost predicate InOrder(trades: seq<Trade>) {
    forall i, j :: 0 <= i < j < |trades| ==> Precedes(trades[i], trades[j])
  }

  /** Every trade enters the best candidate of its moment, which is tradable, at that candidate's label. */
  ghost predicate Justified(trades: seq<Trade>, cs: seq<Candidate>, labels: map<RowKey, PathLabel>, threshold: real) {
    forall i :: 0 <= i < |trades| ==> IsJustified(trades[i], cs, labels, threshold)
  }

  ghost predicate IsJustified(t: Trade, cs: seq<Candidate>, labels: map<RowKey, PathLabel>, threshold: real) {
    exists c :: EnteredFor(t, cs, labels, threshold, c)
  }

  ghost predicate EnteredFor(
    t: Trade, cs: seq<Candidate>, labels: map<RowKey, PathLabel>, threshold: real, c: Candidate)
  {
    Best(cs, c) && Tradable(c, labels, threshold) && t == TradeOf(c, labels[KeyOf(c)])
  }

  /**
   * The moment of a candidate was traded, or blocked by an open position, or its best is not tradable; and
   * nothing is traded before the time that stands for no position yet.
   */
  ghost predicate Settled(
    trades: seq<Trade>, cs: seq<Candidate>, labels: map<RowKey, PathLabel>, threshold: real, c: Candidate)
  {
    || (exists i :: 0 <= i < |trades| && trades[i].condition == c.condition && trades[i].entryNs == c.timeNs)
    || (exists i :: 0 <= i < |trades| && OpenAt(trades[i], c.condition, c.timeNs))
    || (exists b :: Best(cs, b) && SameMoment(b, c) && !Tradable(b, labels, threshold))
    || c.timeNs < NO_POSITION
  }

  // ----- the loop -----

  ghost predicate Sortedness(cs: seq<Candidate>) {
    Ascending(cs, CandidateLeq)
  }

  /** The end of the run of candidates of one moment starting at `start`. */
  method MomentEnd(cs: seq<Candidate>, start: nat) returns (end: nat)
    requires Sortedness(cs) && start < |cs|
    requires start > 0 ==> !SameMoment(cs[start - 1], cs[start])
    ensures start < end <= |cs|
    ensures forall i :: start <= i < end ==> SameMoment(cs[i], cs[start])
    ensures end < |cs| ==> !SameMoment(cs[end - 1], cs[end])
    ensures forall i :: 0 <= i < |cs| && SameMoment(cs[i], cs[start]) ==> start <= i < end
  {
    end := start + 1;
    while end < |cs| && SameMoment(cs[end], cs[start])
      invariant start < end <= |cs|
      invariant forall i :: start <= i < end ==> SameMoment(cs[i], cs[start])
    {
      end := end + 1;
    }
    forall i | 0 <= i < |cs| && SameMoment(cs[i], cs[start])
      ensures start <= i < end
    {
      if i < start {
        MomentsContiguous(cs, i, start - 1, start);
      } else if end <= i {
        MomentsContiguous(cs, start, end, i);
      }
    }
  }

  lemma MomentsContiguous(cs: seq<Candidate>, i: nat, j: nat, k: nat)
    requires Sortedness(cs) && i <= j <= k < |cs| && SameMoment(cs[i], cs[k])
    ensures SameMoment(cs[j], cs[k])
  {
    if i < j < k {
      assert CandidateLeq(cs[i], cs[j]) && CandidateLeq(cs[j], cs[k]);
      if cs[i].condition != cs[j].condition {
        TextTransitive(cs[i].condition, cs[j].condition, cs[k].condition);
        TextIrreflexive(cs[i].condition);
      }
    }
  }

  /** The first candidate of the run with the greatest score and side. */
  method PickBest(cs: seq<Candidate>, start: nat, end: nat) returns (best: Candidate)
    requires start < end <= |cs|
    ensures best in cs[start..end]
    ensures forall i :: start <= i < end ==> Beats(best, cs[i])
  {
    best := cs[start];
    for i := start + 1 to end
      invariant best in cs[start..i]
      invariant forall k :: start <= k < i ==> Beats(best, cs[k])
    {
      assert cs[start..i + 1] == cs[start..i] + [cs[i]];
      if !Beats(best, cs[i]) {
        best := cs[i];
      }
    }
  }

  /** Where each condition's latest position ends; nothing yet counts as -1. */
  function OpenUntil(openUntil: map<Text, int>, condition: Text): int {
    if condition in openUntil then openUntil[condition] else NO_POSITION
  }

  ghost predicate IsLatest(trades: seq<Trade>, condition: Text, i: nat) {
    && i < |trades| && trades[i].condition == condition
    && forall j :: i < j < |trades| ==> trades[j].condition != condition
  }

  /** The table holds the exit of the latest trade of each condition that has one. */
  ghost predicate Tracks(openUntil: map<Text, int>, trades: seq<Trade>) {
    && (forall c :: c in openUntil ==> exists i: nat :: IsLatest(trades, c, i) && trades[i].exitNs == openUntil[c])
    && (forall i :: 0 <= i < |trades| ==> trades[i].condition in openUntil)
  }

  /** Trades were entered at candidates already passed. */
  ghost predicate Entered(trades: seq<Trade>, cs: seq<Candidate>, cursor: nat)
    requires cursor <= |cs|
  {
    forall i :: 0 <= i < |trades| ==>
      exists k :: 0 <= k < cursor && cs[k].condition == trades[i].condition && cs[k].timeNs == trades[i].entryNs
  }

  ghost predicate SettledUpto(
    trades: seq<Trade>, cs: seq<Candidate>, labels: map<RowKey, PathLabel>, threshold: real, cursor: nat)
    requires cursor <= |cs|
  {
    forall k :: 0 <= k < cursor ==> Settled(trades, cs, labels, threshold, cs[k])
  }

  lemma SettledMonotone(
    trades: seq<Trade>, t: Trade, cs: seq<Candidate>, labels: map<RowKey, PathLabel>, threshold: real, c: Candidate)
    requires Settled(trades, cs, labels, threshold, c)
    ensures Settled(trades + [t], cs, labels, threshold, c)
  {
    if i :| 0 <= i < |trades| && trades[i].condition == c.condition && trades[i].entryNs == c.timeNs {
      assert (trades + [t])[i] == trades[i];
    } else if i :| 0 <= i < |trades| && OpenAt(trades[i], c.condition, c.timeNs) {
      assert (trades + [t])[i] == trades[i];
    }
  }

  lemma TimesOrdered(cs: seq<Candidate>, i: nat, j: nat)
    requires Sortedness(cs) && i < j < |cs| && cs[i].condition == cs[j].condition
    ensures cs[i].timeNs <= cs[j].timeNs
  {
    assert CandidateLeq(cs[i], cs[j]);
  }

  /** An earlier candidate of the condition, before the current moment, is strictly earlier in time. */
  lemma StrictlyEarlier(cs: seq<Candidate>, k: nat, cursor: nat)
    requires Sortedness(cs) && k < cursor < |cs| && cs[k].condition == cs[cursor].condition
    requires !SameMoment(cs[cursor - 1], cs[cursor])
    ensures cs[k].timeNs < cs[cursor].timeNs
  {
    TimesOrdered(cs, k, cursor);
    if cs[k].timeNs == cs[cursor].timeNs {
      MomentsContiguous(cs, k, cursor - 1, cursor);
    }
  }

  /** The position whose exit the table holds. */
  lemma LatestTrade(trades: seq<Trade>, openUntil: map<Text, int>, cs: seq<Candidate>, cursor: nat, condition: Text)
    returns (i: nat, k: nat)
    requires cursor <= |cs| && Tracks(openUntil, trades) && Entered(trades, cs, cursor) && condition in openUntil
    ensures IsLatest(trades, condition, i) && trades[i].exitNs == openUntil[condition]
    ensures k < cursor && cs[k].condition == condition && cs[k].timeNs == trades[i].entryNs
  {
    i :| IsLatest(trades, condition, i) && trades[i].exitNs == openUntil[condition];
    k :| 0 <= k < cursor && cs[k].condition == trades[i].condition && cs[k].timeNs == trades[i].entryNs;
  }

  /** A blocked moment lies strictly inside the position that blocks it. */
  lemma BlockedIsOpen(trades: seq<Trade>, openUntil: map<Text, int>, cs: seq<Candidate>, cursor: nat)
    requires Sortedness(cs) && cursor < |cs| && Tracks(openUntil, trades) && Entered(trades, cs, cursor)
    requires cursor > 0 ==> !SameMoment(cs[cursor - 1], cs[cursor])
    requires NO_POSITION <= cs[cursor].timeNs < OpenUntil(openUntil, cs[cursor].condition)
    ensures exists i :: 0 <= i < |trades| && OpenAt(trades[i], cs[cursor].condition, cs[cursor].timeNs)
  {
    var i, k := LatestTrade(trades, openUntil, cs, cursor, cs[cursor].condition);
    StrictlyEarlier(cs, k, cursor);
    assert OpenAt(trades[i], cs[cursor].condition, cs[cursor].timeNs);
  }

  /** A trade entered once the latest of its condition is over follows all earlier ones of the condition. */
  lemma DisjointNext(trades: seq<Trade>, openUntil: map<Text, int>, t: Trade)
    requires Disjoint(trades) && Started(trades) && Tracks(openUntil, trades) && InOrder(trades + [t])
    requires t.entryNs >= OpenUntil(openUntil, t.condition)
    ensures Disjoint(trades + [t]) && Started(trades + [t])
  {
    var next := trades + [t];
    assert next[|trades|] == t;
    if t.condition in openUntil {
      var latest: nat :| IsLatest(trades, t.condition, latest) && trades[latest].exitNs == openUntil[t.condition];
      assert next[latest] == trades[latest] && Precedes(next[latest], next[|trades|]);
      TextIrreflexive(t.condition);
      forall i | 0 <= i < |trades| && trades[i].condition == t.condition
        ensures trades[i].exitNs <= t.entryNs
      {
        assert i <= latest;
      }
    }
  }

  lemma TracksNext(trades: seq<Trade>, openUntil: map<Text, int>, t: Trade)
    requires Tracks(openUntil, trades)
    ensures Tracks(openUntil[t.condition := t.exitNs], trades + [t])
  {
    var next, table := trades + [t], openUntil[t.condition := t.exitNs];
    forall d | d in table
      ensures exists i: nat :: IsLatest(next, d, i) && next[i].exitNs == table[d]
    {
      if d == t.condition {
        assert IsLatest(next, d, |trades|) && next[|trades|] == t;
      } else {
        var i: nat :| IsLatest(trades, d, i) && trades[i].exitNs == openUntil[d];
        assert IsLatest(next, d, i) && next[i] == trades[i];
      }
    }
  }

  lemma JustifiedNext(
    trades: seq<Trade>, cs: seq<Candidate>, labels: map<RowKey, PathLabel>, threshold: real, c: Candidate)
    requires Justified(trades, cs, labels, threshold) && Best(cs, c) && Tradable(c, labels, threshold)
    ensures Justified(trades + [TradeOf(c, labels[KeyOf(c)])], cs, labels, threshold)
  {
    var next := trades + [TradeOf(c, labels[KeyOf(c)])];
    forall i | 0 <= i < |next|
      ensures IsJustified(next[i], cs, labels, threshold)
    {
      if i < |trades| {
        assert next[i] == trades[i] && IsJustified(trades[i], cs, labels, threshold);
      } else {
        assert EnteredFor(next[i], cs, labels, threshold, c);
      }
    }
  }

  lemma PrecedesNext(trades: seq<Trade>, t: Trade, cs: seq<Candidate>, start: nat, i: nat)
    requires Sortedness(cs) && start < |cs| && (start > 0 ==> !SameMoment(cs[start - 1], cs[start]))
    requires i < |trades| && Entered(trades, cs, start)
    requires t.condition == cs[start].condition && t.entryNs == cs[start].timeNs
    ensures Precedes(trades[i], t)
  {
    var earlier := trades[i];
    var k :| 0 <= k < start && cs[k].condition == earlier.condition && cs[k].timeNs == earlier.entryNs;
    assert CandidateLeq(cs[k], cs[start]);
    if cs[k].condition == cs[start].condition {
      StrictlyEarlier(cs, k, start);
    }
  }

  lemma OrderNext(trades: seq<Trade>, t: Trade, cs: seq<Candidate>, start: nat)
    requires Sortedness(cs) && start < |cs| && (start > 0 ==> !SameMoment(cs[start - 1], cs[start]))
    requires InOrder(trades) && Entered(trades, cs, start)
    requires t.condition == cs[start].condition && t.entryNs == cs[start].timeNs
    ensures InOrder(trades + [t])
  {
    forall i | 0 <= i < |trades|
      ensures Precedes(trades[i], t)
    {
      PrecedesNext(trades, t, cs, start, i);
    }
  }

  /** Where the loop stands with all candidates before `cursor` settled. */
  ghost predicate Progress(
    trades: seq<Trade>, openUntil: map<Text, int>, cs: seq<Candidate>, labels: map<RowKey, PathLabel>,
    threshold: real, cursor: nat)
    requires cursor <= |cs|
  {
    && Disjoint(trades) && Started(trades) && InOrder(trades)
    && Tracks(openUntil, trades) && Entered(trades, cs, cursor)
    && Justified(trades, cs, labels, threshold)
    && SettledUpto(trades, cs, labels, threshold, cursor)
  }

  ghost predicate IsMoment(cs: seq<Candidate>, start: nat, end: nat) {
    && start < end <= |cs|
    && (start > 0 ==> !SameMoment(cs[start - 1], cs[start]))
    && (forall i :: start <= i < end ==> SameMoment(cs[i], cs[start]))
    && (forall i :: 0 <= i < |cs| && SameMoment(cs[i], cs[start]) ==> start <= i < end)
  }

  lemma PassMoment(
    trades: seq<Trade>, openUntil: map<Text, int>, cs: seq<Candidate>, labels: map<RowKey, PathLabel>,
    threshold: real, start: nat, end: nat)
    requires IsMoment(cs, start, end) && Progress(trades, openUntil, cs, labels, threshold, start)
    requires Settled(trades, cs, labels, threshold, cs[start])
    ensures Progress(trades, openUntil, cs, labels, threshold, end)
  {
    SettleMoment(trades, cs, labels, threshold, start, end);
  }

  lemma BlockedMoment(
    trades: seq<Trade>, openUntil: map<Text, int>, cs: seq<Candidate>, labels: map<RowKey, PathLabel>,
    threshold: real, start: nat, end: nat)
    requires Sortedness(cs) && IsMoment(cs, start, end) && Progress(trades, openUntil, cs, labels, threshold, start)
    requires cs[start].timeNs < OpenUntil(openUntil, cs[start].condition)
    ensures Progress(trades, openUntil, cs, labels, threshold, end)
  {
    if cs[start].timeNs >= NO_POSITION {
      BlockedIsOpen(trades, openUntil, cs, start);
    }
    PassMoment(trades, openUntil, cs, labels, threshold, start, end);
  }

  lemma RefusedMoment(
    trades: seq<Trade>, openUntil: map<Text, int>, cs: seq<Candidate>, labels: map<RowKey, PathLabel>,
    threshold: real, start: nat, end: nat, chosen: Candidate)
    requires IsMoment(cs, start, end) && Progress(trades, openUntil, cs, labels, threshold, start)
    requires Best(cs, chosen) && SameMoment(chosen, cs[start]) && !Tradable(chosen, labels, threshold)
    ensures Progress(trades, openUntil, cs, labels, threshold, end)
  {
    PassMoment(trades, openUntil, cs, labels, threshold, start, end);
  }

  lemma TradedMoment(
    trades: seq<Trade>, openUntil: map<Text, int>, cs: seq<Candidate>, labels: map<RowKey, PathLabel>,
    threshold: real, start: nat, end: nat, c: Candidate)
    requires Sortedness(cs) && IsMoment(cs, start, end) && Progress(trades, openUntil, cs, labels, threshold, start)
    requires Best(cs, c) && SameMoment(c, cs[start]) && Tradable(c, labels, threshold)
    requires c.timeNs >= OpenUntil(openUntil, c.condition)
    ensures var t := TradeOf(c, labels[KeyOf(c)]);
      Progress(trades + [t], openUntil[c.condition := t.exitNs], cs, labels, threshold, end)
  {
    var t := TradeOf(c, labels[KeyOf(c)]);
    var next := trades + [t];
    OrderNext(trades, t, cs, start);
    DisjointNext(trades, openUntil, t);
    TracksNext(trades, openUntil, t);
    JustifiedNext(trades, cs, labels, threshold, c);
    EnteredNext(trades, t, cs, start, end);
    forall k | 0 <= k < start
      ensures Settled(next, cs, labels, threshold, cs[k])
    {
      SettledMonotone(trades, t, cs, labels, threshold, cs[k]);
    }
    assert next[|trades|] == t;
    SettleMoment(next, cs, labels, threshold, start, end);
  }

  /** The cursor loop over the sorted candidates, holding one position per condition. */
  method TakeTrades(rows: seq<Candidate>, labels: map<RowKey, PathLabel>, threshold: real)
    returns (trades: seq<Trade>, reasons: map<Reason, nat>)
    ensures CountsReasons(trades, reasons)
    ensures Disjoint(trades) && InOrder(trades) && Started(trades)
    ensures Justified(trades, rows, labels, threshold)
    ensures forall c :: c in rows ==> Settled(trades, rows, labels, threshold, c)
  {
    CandidateOrder();
    var cs := Sort(rows, CandidateLeq);
    SameMembers(rows, cs);
    trades, reasons := [], map[];
    var openUntil: map<Text, int> := map[];
    var cursor := 0;
    while cursor < |cs|
      invariant cursor <= |cs|
      invariant 0 < cursor < |cs| ==> !SameMoment(cs[cursor - 1], cs[cursor])
      invariant Progress(trades, openUntil, cs, labels, threshold, cursor)
      invariant CountsReasons(trades, reasons)
    {
      var start := cursor;
      var condition, now := cs[start].condition, cs[start].timeNs;
      cursor := MomentEnd(cs, start);
      if now < OpenUntil(openUntil, condition) {
        BlockedMoment(trades, openUntil, cs, labels, threshold, start, cursor);
      } else {
        var chosen := PickBest(cs, start, cursor);
        BestOfRun(cs, start, cursor, chosen);
        if Tradable(chosen, labels, threshold) {
          TradedMoment(trades, openUntil, cs, labels, threshold, start, cursor, chosen);
          var t := TradeOf(chosen, labels[KeyOf(chosen)]);
          CountsNext(trades, reasons, t);
          trades := trades + [t];
          reasons := reasons[t.reason := (if t.reason in reasons then reasons[t.reason] else 0) + 1];
          openUntil := openUntil[condition := labels[KeyOf(chosen)].exitNs];
        } else {
          RefusedMoment(trades, openUntil, cs, labels, threshold, start, cursor, chosen);
        }
      }
    }
    SettledForRows(trades, rows, cs, labels, threshold);
  }

  /** How many trades ended for a reason. */
  function CountOf(trades: seq<Trade>, reason: Reason): nat {
    if |trades| == 0 then 0
    else
      var n := |trades| - 1;
      CountOf(trades[..n], reason) + (if trades[n].reason == reason then 1 else 0)
  }

  /** The table counts the trades by reason, and lists only reasons that occur. */
  ghost predicate CountsReasons(trades: seq<Trade>, reasons: map<Reason, nat>) {
    forall reason :: if CountOf(trades, reason) > 0 then reason in reasons && reasons[reason] == CountOf(trades, reason)
                     else reason !in reasons
  }

  lemma CountsNext(trades: seq<Trade>, reasons: map<Reason, nat>, t: Trade)
    requires CountsReasons(trades, reasons)
    ensures CountsReasons(
      trades + [t], reasons[t.reason := (if t.reason in reasons then reasons[t.reason] else 0) + 1])
  {
    assert (trades + [t])[..|trades|] == trades;
  }

  lemma SameMembers(rows: seq<Candidate>, cs: seq<Candidate>)
    requires multiset(rows) == multiset(cs)
    ensures forall c :: c in rows <==> c in cs
  {
    forall c
      ensures c in rows <==> c in cs
    {
      assert c in rows <==> c in multiset(rows);
      assert c in cs <==> c in multiset(cs);
    }
  }

  lemma SettledForRows(
    trades: seq<Trade>, rows: seq<Candidate>, cs: seq<Candidate>, labels: map<RowKey, PathLabel>, threshold: real)
    requires forall c :: c in rows <==> c in cs
    requires Justified(trades, cs, labels, threshold) && SettledUpto(trades, cs, labels, threshold, |cs|)
    ensures Justified(trades, rows, labels, threshold)
    ensures forall c :: c in rows ==> Settled(trades, rows, labels, threshold, c)
  {
    forall c ensures Best(rows, c) <==> Best(cs, c) {}
    forall i | 0 <= i < |trades|
      ensures IsJustified(trades[i], rows, labels, threshold)
    {
      assert IsJustified(trades[i], cs, labels, threshold);
      var c :| EnteredFor(trades[i], cs, labels, threshold, c);
      assert Best(rows, c);
      assert EnteredFor(trades[i], rows, labels, threshold, c);
    }
    forall c | c in rows
      ensures Settled(trades, rows, labels, threshold, c)
    {
      var k :| 0 <= k < |cs| && cs[k] == c;
      assert Settled(trades, cs, labels, threshold, cs[k]);
    }
  }

  lemma EnteredNext(before: seq<Trade>, t: Trade, cs: seq<Candidate>, start: nat, end: nat)
    requires start < end <= |cs| && Entered(before, cs, start)
    requires t.condition == cs[start].condition && t.entryNs == cs[start].timeNs
    ensures Entered(before + [t], cs, end)
  {
  }

  lemma BestOfRun(cs: seq<Candidate>, start: nat, end: nat, chosen: Candidate)
    requires start < end <= |cs| && chosen in cs[start..end]
    requires forall i :: start <= i < end ==> Beats(chosen, cs[i]) && SameMoment(cs[i], cs[start])
    requires forall i :: 0 <= i < |cs| && SameMoment(cs[i], cs[start]) ==> start <= i < end
    ensures Best(cs, chosen) && SameMoment(chosen, cs[start])
  {
    var k :| 0 <= k < end - start && cs[start..end][k] == chosen;
    assert cs[start + k] == chosen;
  }

  /** What settles the first candidate of a moment settles the others. */
  lemma SettleMoment(
    trades: seq<Trade>, cs: seq<Candidate>, labels: map<RowKey, PathLabel>, threshold: real, start: nat, end: nat)
    requires start < end <= |cs| && SettledUpto(trades, cs, labels, threshold, start)
    requires Settled(trades, cs, labels, threshold, cs[start])
    requires forall i :: start <= i < end ==> SameMoment(cs[i], cs[start])
    ensures SettledUpto(trades, cs, labels, threshold, end)
  {
  }

  // ----- what trades mean -----

  /** No candidate of the condition and time scores higher than `c`; of those that score as high, `Up` goes first. */
  ghost predicate TopScored(rows: seq<Candidate>, c: Candidate) {
    && c in rows
    && forall d :: d in rows && d.condition == c.condition && d.timeNs == c.timeNs ==>
         d.score <= c.score && (d.score == c.score && d.side.Up? ==> c.side.Up?)
  }

  lemma BestExactly(rows: seq<Candidate>, c: Candidate)
    ensures Best(rows, c) <==> TopScored(rows, c)
  {
  }

  /**
   * Every trade enters a top-scored candidate of its moment, which reaches the threshold, and ends as the label
   * of that candidate's row says.
   */
  lemma TradeMeaning(
    trades: seq<Trade>, rows: seq<Candidate>, labels: map<RowKey, PathLabel>, threshold: real, i: nat)
    requires Justified(trades, rows, labels, threshold) && i < |trades|
    ensures exists c :: (
      && TopScored(rows, c) && c.condition == trades[i].condition && c.timeNs == trades[i].entryNs
      && threshold <= c.score && RowKey(c.condition, c.side, c.timeNs) in labels
      && labels[RowKey(c.condition, c.side, c.timeNs)] == PathLabel(trades[i].pnl, trades[i].exitNs, trades[i].reason))
  {
    assert IsJustified(trades[i], rows, labels, threshold);
    var c :| EnteredFor(trades[i], rows, labels, threshold, c);
    BestExactly(rows, c);
  }

  /**
   * A candidate from the first time on whose moment was not traded was passed over for one of two reasons: a
   * position of its condition was open, or its top-scored candidate is below the threshold or has no label.
   */
  lemma PassedOverMeaning(
    trades: seq<Trade>, rows: seq<Candidate>, labels: map<RowKey, PathLabel>, threshold: real, c: Candidate)
    requires Settled(trades, rows, labels, threshold, c) && c.timeNs >= -1
    requires forall i :: 0 <= i < |trades| ==> trades[i].condition != c.condition || trades[i].entryNs != c.timeNs
    ensures
      || (exists i :: 0 <= i < |trades| && trades[i].condition == c.condition
                      && trades[i].entryNs < c.timeNs && c.timeNs < trades[i].exitNs)
      || (exists b :: TopScored(rows, b) && b.condition == c.condition && b.timeNs == c.timeNs
                      && (b.score < threshold || RowKey(b.condition, b.side, b.timeNs) !in labels))
  {
    forall b { BestExactly(rows, b); }
    if !exists i :: 0 <= i < |trades| && OpenAt(trades[i], c.condition, c.timeNs) {
      var b :| Best(rows, b) && SameMoment(b, c) && !Tradable(b, labels, threshold);
      assert TopScored(rows, b) && KeyOf(b) == RowKey(b.condition, b.side, b.timeNs);
    }
  }

  // ----- figures -----

  function Equity(pnl: seq<int>, n: nat): int
    requires n <= |pnl|
  {
    if n == 0 then 0 else Equity(pnl, n - 1) + pnl[n - 1]
  }

  datatype Figures = Figures(trades: nat, wins: nat, net: int, gains: int, losses: int, factorMilli: int, drawdown: int)

  /** The sum of the profitable trades. */
  function Gains(pnl: seq<int>, n: nat): int
    requires n <= |pnl|
  {
    if n == 0 then 0 else Gains(pnl, n - 1) + Greater(pnl[n - 1], 0)
  }

  function Wins(pnl: seq<int>, n: nat): nat
    requires n <= |pnl|
  {
    if n == 0 then 0 else Wins(pnl, n - 1) + (if pnl[n - 1] > 0 then 1 else 0)
  }

  /** How far the equity fell from one point to another. */
  function Fall(pnl: seq<int>, i: nat, j: nat): int
    requires i <= |pnl| && j <= |pnl|
  {
    Equity(pnl, i) - Equity(pnl, j)
  }

  /** The greatest fall of the equity from a point to a later one. */
  ghost predicate IsDrawdown(pnl: seq<int>, n: nat, d: int)
    requires n <= |pnl|
  {
    && (forall i: nat, j: nat :: i <= j <= n ==> Fall(pnl, i, j) <= d)
    && (exists i: nat, j: nat :: i <= j <= n && Fall(pnl, i, j) == d)
  }

  /** The highest equity so far, measured by the falls to the latest point. */
  ghost predicate IsPeak(pnl: seq<int>, n: nat, peak: int)
    requires n <= |pnl|
  {
    && (forall i: nat :: i <= n ==> Fall(pnl, i, n) <= peak - Equity(pnl, n))
    && (exists i: nat :: i <= n && Fall(pnl, i, n) == peak - Equity(pnl, n))
  }

  function Greater(x: int, y: int): int {
    if x >= y then x else y
  }

  lemma PeakNext(pnl: seq<int>, n: nat, m: nat, peak: int)
    requires n < m == n + 1 <= |pnl| && IsPeak(pnl, n, peak)
    ensures IsPeak(pnl, m, Greater(peak, Equity(pnl, m)))
  {
    var equity := Equity(pnl, m);
    var next := Greater(peak, equity);
    forall i: nat | i <= m
      ensures Fall(pnl, i, m) <= next - equity
    {
      assert i <= n ==> Fall(pnl, i, n) <= peak - Equity(pnl, n);
    }
    if peak >= equity {
      var i: nat :| i <= n && Fall(pnl, i, n) == peak - Equity(pnl, n);
      assert Fall(pnl, i, m) == next - equity;
    } else {
      assert Fall(pnl, m, m) == next - equity;
    }
  }

  lemma DrawdownNext(pnl: seq<int>, n: nat, peak: int, d: int)
    requires n < |pnl| && IsPeak(pnl, n + 1, peak) && IsDrawdown(pnl, n, d)
    ensures IsDrawdown(pnl, n + 1, Greater(d, peak - Equity(pnl, n + 1)))
  {
    var next := Greater(d, peak - Equity(pnl, n + 1));
    if d >= peak - Equity(pnl, n + 1) {
      var i: nat, j: nat :| i <= j <= n && Fall(pnl, i, j) == d;
      assert i <= j <= n + 1 && Fall(pnl, i, j) == next;
    } else {
      var i: nat :| i <= n + 1 && Fall(pnl, i, n + 1) == peak - Equity(pnl, n + 1);
      assert i <= n + 1 <= n + 1 && Fall(pnl, i, n + 1) == next;
    }
  }

  /** The running peak and the running drawdown after `n` trades. */
  ghost predicate Tracked(pnl: seq<int>, n: nat, peak: int, drawdown: int)
    requires n <= |pnl|
  {
    IsPeak(pnl, n, peak) && IsDrawdown(pnl, n, drawdown)
  }

  lemma TrackedStart(pnl: seq<int>)
    ensures Tracked(pnl, 0, 0, 0)
  {
    assert Fall(pnl, 0, 0) == 0;
  }

  lemma TrackedNext(pnl: seq<int>, n: nat, peak: int, drawdown: int)
    requires n < |pnl| && Tracked(pnl, n, peak, drawdown)
    ensures var equity := Equity(pnl, n + 1);
      var next := Greater(peak, equity);
      Tracked(pnl, n + 1, next, Greater(drawdown, next - equity))
  {
    PeakNext(pnl, n, n + 1, peak);
    DrawdownNext(pnl, n, Greater(peak, Equity(pnl, n + 1)), drawdown);
  }

  function ProfitFactorMilli(gains: int, losses: int): int {
    if losses > 0 then gains * 1000 / losses else if gains > 0 then 1_000_000 else 0
  }

  /** Gains over losses in thousandths, floored; without losses, a million when there are gains and else nothing. */
  lemma FactorMeaning(gains: int, losses: int)
    requires gains >= 0 && losses >= 0
    ensures losses > 0 ==>
      var f := ProfitFactorMilli(gains, losses); f * losses <= 1000 * gains < (f + 1) * losses
    ensures losses == 0 ==> ProfitFactorMilli(gains, losses) == if gains == 0 then 0 else 1_000_000
  {
    if losses > 0 {
      FloorSpec(gains * 1000, losses);
      var f := ProfitFactorMilli(gains, losses);
      assert (f + 1) * losses == f * losses + losses;
    }
  }

  /** The winning trades are those with a profit. */
  lemma {:induction false} WinsAre(pnl: seq<int>, n: nat)
    requires n <= |pnl|
    ensures Wins(pnl, n) == |set i | 0 <= i < n && pnl[i] > 0|
  {
    if n > 0 {
      var before: nat := n - 1;
      WinsAre(pnl, before);
      var earlier, all := set i | 0 <= i < before && pnl[i] > 0, set i | 0 <= i < n && pnl[i] > 0;
      assert all == if pnl[before] > 0 then earlier + {before} else earlier;
    }
  }

  /** One pass over the trades' P&L in the order they were appended. */
  method Measure(pnl: seq<int>) returns (f: Figures)
    ensures f.trades == |pnl| && f.wins == Wins(pnl, |pnl|)
    ensures f.net == Equity(pnl, |pnl|) == f.gains - f.losses
    ensures f.gains == Gains(pnl, |pnl|) >= 0 && f.losses >= 0
    ensures IsDrawdown(pnl, |pnl|, f.drawdown)
    ensures f.factorMilli == ProfitFactorMilli(f.gains, f.losses)
  {
    var equity, peak, drawdown, gains, losses, wins := 0, 0, 0, 0, 0, 0;
    TrackedStart(pnl);
    for i := 0 to |pnl|
      invariant equity == Equity(pnl, i) == gains - losses
      invariant gains == Gains(pnl, i) >= 0 && losses >= 0 && wins == Wins(pnl, i)
      invariant Tracked(pnl, i, peak, drawdown)
    {
      var value := pnl[i];
      equity := equity + value;
      TrackedNext(pnl, i, peak, drawdown);
      peak := Greater(peak, equity);
      drawdown := Greater(drawdown, peak - equity);
      if value > 0 {
        gains := gains + value;
        wins := wins + 1;
      } else if value < 0 {
        losses := losses - value;
      }
    }
    f := Figures(|pnl|, wins, equity, gains, losses, ProfitFactorMilli(gains, losses), drawdown);
  }

  function PnlOf(trades: seq<Trade>): (pnl: seq<int>)
    ensures |pnl| == |trades|
  {
    seq(|trades|, i requires 0 <= i < |trades| => trades[i].pnl)
  }

  /**
   * Takes candidates in order and holds one position per condition: the trades never overlap within a
   * condition, each enters the best candidate of its moment, every moment is settled, and the figures
   * are those of the trades in their order.
   */
  method Simulate(rows: seq<Candidate>, labels: map<RowKey, PathLabel>, threshold: real)
    returns (trades: seq<Trade>, f: Figures, reasons: map<Reason, nat>)
    ensures Disjoint(trades) && InOrder(trades) && Started(trades)
    ensures Justified(trades, rows, labels, threshold)
    ensures forall c :: c in rows ==> Settled(trades, rows, labels, threshold, c)
    ensures f.trades == |trades| && f.net == Equity(PnlOf(trades), |trades|) == f.gains - f.losses
    ensures f.gains == Gains(PnlOf(trades), |trades|) && f.wins == Wins(PnlOf(trades), |trades|)
    ensures IsDrawdown(PnlOf(trades), |trades|, f.drawdown)
    ensures f.factorMilli == ProfitFactorMilli(f.gains, f.losses) && CountsReasons(trades, reasons)
  {
    trades, reasons := TakeTrades(rows, labels, threshold);
    f := Measure(PnlOf(trades));
  }
}
