/** Splitting, locking and merging complete pairs: what moves, and that profit is only reclassified. */
module PairFlow {
  import opened Results
  import opened LedgerTypes
  import opened MapSums
  import opened DoubleEntry
  import opened LedgerSpec
  import opened LedgerInvariant
  import opened LedgerSafety
  import opened LedgerIdentity

  /** Cash, available and reserved. */
  const CASH: Selector := Band(Collateral, {0, 1})

  /** A token's available, reserved and locked amounts. */
  function TokensHeld(token: TokenKey): Selector {
    Band(Outcome(token), {2, 3, 5})
  }

  predicate IsPairAction(action: Action) {
    action.ConfirmSplit? || action.LockPair? || action.ConfirmMerge?
  }

  function UpOf(s: Books, action: Action): TokenKey
    requires IsPairAction(action) && (action.ConfirmMerge? ==> action.lockId in s.locks)
  {
    if action.ConfirmMerge? then s.locks[action.lockId].up else action.up
  }

  function DownOf(s: Books, action: Action): TokenKey
    requires IsPairAction(action) && (action.ConfirmMerge? ==> action.lockId in s.locks)
  {
    if action.ConfirmMerge? then s.locks[action.lockId].down else action.down
  }

  lemma SplitPreserves(id: Id, up: TokenKey, down: TokenKey, quantity: int)
    requires up != down
    ensures var ps := SplitTx(id, up, down, quantity);
      Delta(ps, CASH) == -quantity && Delta(ps, TokensHeld(up)) == Delta(ps, TokensHeld(down)) == quantity
  {
    var ps := SplitTx(id, up, down, quantity);
    DeltaUnrolled(ps, CASH);
    DeltaUnrolled(ps, TokensHeld(up));
    DeltaUnrolled(ps, TokensHeld(down));
  }

  lemma LockPreserves(id: Id, up: TokenKey, down: TokenKey, quantity: int, upCost: int, downCost: int)
    requires up != down
    ensures var ps := LockTx(id, up, down, quantity, upCost, downCost);
      Delta(ps, CASH) == Delta(ps, TokensHeld(up)) == Delta(ps, TokensHeld(down)) == 0
  {
    var ps := LockTx(id, up, down, quantity, upCost, downCost);
    DeltaUnrolled(ps, CASH);
    DeltaUnrolled(ps, TokensHeld(up));
    DeltaUnrolled(ps, TokensHeld(down));
  }

  lemma MergePreserves(l: PairLock)
    requires l.up != l.down && l.payout == l.quantity
    ensures var ps := MergeTx(l);
      Delta(ps, CASH) == l.quantity && Delta(ps, TokensHeld(l.up)) == Delta(ps, TokensHeld(l.down)) == -l.quantity
  {
    var ps := MergeTx(l);
    DeltaUnrolled(ps, CASH);
    DeltaUnrolled(ps, TokensHeld(l.up));
    DeltaUnrolled(ps, TokensHeld(l.down));
  }

  lemma PairDeltas(s: Books, action: Action)
    requires Agree(s) && Objection(action).None? && IsPairAction(action) && Perform(s, action).Ok?
    ensures var ps := TransactionOf(s, action);
      && Delta(ps, CASH) + Delta(ps, TokensHeld(UpOf(s, action))) == 0
      && Delta(ps, CASH) + Delta(ps, TokensHeld(DownOf(s, action))) == 0
  {
    match action
    case ConfirmSplit(id, up, down, quantity, _) => SplitPreserves(id, up, down, quantity);
    case LockPair(id, up, down, quantity) =>
      LockPreserves(id, up, down, quantity, Allocated(s, up, quantity), Allocated(s, down, quantity));
    case ConfirmMerge(id, _) => MergePreserves(s.locks[id]);
  }

  /** A split, lock or merge preserves total cash plus total up tokens, and total cash plus total down tokens. */
  lemma PairActionsPreserve(s: Books, action: Action)
    requires Agree(s) && Objection(action).None? && IsPairAction(action) && Perform(s, action).Ok?
    ensures var b, c := s.balances, Perform(s, action).value.balances;
      && Sum(c, CASH) + Sum(c, TokensHeld(UpOf(s, action))) == Sum(b, CASH) + Sum(b, TokensHeld(UpOf(s, action)))
      && Sum(c, CASH) + Sum(c, TokensHeld(DownOf(s, action))) == Sum(b, CASH) + Sum(b, TokensHeld(DownOf(s, action)))
  {
    var ps := TransactionOf(s, action);
    PerformFollows(s, action);
    PairDeltas(s, action);
    PostEffect(s.balances, ps, CASH);
    PostEffect(s.balances, ps, TokensHeld(UpOf(s, action)));
    PostEffect(s.balances, ps, TokensHeld(DownOf(s, action)));
  }

  // ----- profit -----

  ghost function LockedProfits(locks: map<Id, PairLock>): map<Id, int> {
    map id: Id | id in locks && locks[id].status.Locked? :: locks[id].payout - locks[id].cost
  }

  ghost predicate LockedPnlRight(locks: map<Id, PairLock>, ids: seq<Id>, n: nat)
    requires n <= |ids| && forall id :: id in ids ==> id in locks
  {
    var r := LockedPnl(locks, ids[..n]);
    r.Ok? ==> r.value == MapSum(Among(LockedProfits(locks), ids[..n]))
  }

  lemma LockedPnlRightNext(locks: map<Id, PairLock>, ids: seq<Id>, n: nat, m: nat)
    requires n < m == n + 1 <= |ids| && forall id :: id in ids ==> id in locks
    requires forall i, j :: 0 <= i < j < |ids| ==> ids[i] != ids[j]
    requires LockedPnlRight(locks, ids, n) && LockedPnl(locks, ids[..n]).Ok?
    ensures LockedPnlRight(locks, ids, m)
  {
    PnlNext(locks, ids, n, LockedPnl(locks, ids[..n]).value);
    AmongNext(LockedProfits(locks), ids, n);
    assert ids[n] in locks;
  }

  lemma LockedPnlBefore(locks: map<Id, PairLock>, ids: seq<Id>, n: nat)
    requires 0 < n <= |ids| && (forall id :: id in ids ==> id in locks) && LockedPnl(locks, ids[..n]).Ok?
    ensures LockedPnl(locks, ids[..n - 1]).Ok?
  {
    assert ids[..n][..n - 1] == ids[..n - 1];
  }

  lemma {:induction false} LockedPnlPrefix(locks: map<Id, PairLock>, ids: seq<Id>, n: nat)
    requires forall id :: id in ids ==> id in locks
    requires forall i, j :: 0 <= i < j < |ids| ==> ids[i] != ids[j]
    requires n <= |ids| && LockedPnl(locks, ids[..n]).Ok?
    ensures LockedPnlRight(locks, ids, n)
  {
    if n == 0 {
      assert Among(LockedProfits(locks), ids[..0]).Keys == {};
    } else {
      var before: nat := n - 1;
      LockedPnlBefore(locks, ids, n);
      LockedPnlPrefix(locks, ids, before);
      LockedPnlRightNext(locks, ids, before, n);
    }
  }

  /** The locked P&L reported is payout minus cost over the active locks. */
  lemma LockedPnlIs(s: Books)
    requires CheckedPnl(s).Ok?
    ensures CheckedPnl(s).value.locked == MapSum(LockedProfits(s.locks))
  {
    IdOrder();
    var ids := SortedIds(s.locks.Keys);
    assert ids[..|ids|] == ids;
    LockedPnlPrefix(s.locks, ids, |ids|);
    AmongAll(LockedProfits(s.locks), ids);
  }

  lemma MergeTxResults(l: PairLock)
    ensures Delta(MergeTx(l), One(Money(TradingRevenue))) == -l.payout
    ensures Delta(MergeTx(l), One(Money(CostOfGoodsSold))) == l.cost
    ensures Delta(MergeTx(l), One(Money(FeeExpense))) == 0
  {
    DeltaUnrolled(MergeTx(l), One(Money(TradingRevenue)));
    DeltaUnrolled(MergeTx(l), One(Money(CostOfGoodsSold)));
    DeltaMiss(MergeTx(l), One(Money(FeeExpense)));
  }

  lemma MergeRealizes(s: Books, id: Id)
    requires Agree(s) && Merge(s, id).Ok?
    ensures var l := s.locks[id];
      RealizedValue(Merge(s, id).value.balances) == RealizedValue(s.balances) + l.payout - l.cost
  {
    var ps := MergeTx(s.locks[id]);
    MergeTxResults(s.locks[id]);
    PostBalance(s.balances, ps, Money(TradingRevenue));
    PostBalance(s.balances, ps, Money(CostOfGoodsSold));
    PostBalance(s.balances, ps, Money(FeeExpense));
  }

  lemma MergeUnlocks(s: Books, id: Id)
    requires Merge(s, id).Ok?
    ensures MapSum(LockedProfits(Merge(s, id).value.locks))
         == MapSum(LockedProfits(s.locks)) - (s.locks[id].payout - s.locks[id].cost)
  {
    MapSumRemove(LockedProfits(s.locks), id);
    assert LockedProfits(Merge(s, id).value.locks) == LockedProfits(s.locks) - {id};
  }

  /** A merge turns locked profit into realized profit: their sum does not change. */
  lemma MergeKeepsProfit(s: Books, id: Id, s': Books)
    requires Agree(s) && Merge(s, id) == Ok(s') && CheckedPnl(s).Ok? && CheckedPnl(s').Ok?
    ensures var before, after := CheckedPnl(s).value, CheckedPnl(s').value;
      && after.realized + after.locked == before.realized + before.locked
      && after.locked == before.locked - (s.locks[id].payout - s.locks[id].cost)
  {
    MergeRealizes(s, id);
    MergeUnlocks(s, id);
    RealizedIs(s);
    RealizedIs(s');
    LockedPnlIs(s);
    LockedPnlIs(s');
  }

  // ----- split, lock, merge -----

  /** Splitting into empty positions leaves each with exactly its half of the cost. */
  lemma SplitFromEmpty(s: Books, id: Id, up: TokenKey, down: TokenKey, quantity: int)
    requires Agree(s) && 0 < quantity <= I128_MAX && Split(s, id, up, down, quantity).Ok?
    requires Position(s.costs, up) == Position(s.costs, down) == CostPosition(0, 0)
    ensures var s' := Split(s, id, up, down, quantity).value;
      && Position(s'.costs, up) == CostPosition(quantity, quantity / 2)
      && Position(s'.costs, down) == CostPosition(quantity, quantity - quantity / 2)
  {
  }

  lemma SplitRealizesNothing(s: Books, id: Id, up: TokenKey, down: TokenKey, quantity: int)
    requires Split(s, id, up, down, quantity).Ok?
    ensures RealizedValue(Split(s, id, up, down, quantity).value.balances) == RealizedValue(s.balances)
  {
    var ps := SplitTx(id, up, down, quantity);
    DeltaMiss(ps, One(Money(TradingRevenue)));
    DeltaMiss(ps, One(Money(CostOfGoodsSold)));
    DeltaMiss(ps, One(Money(FeeExpense)));
    PostBalance(s.balances, ps, Money(TradingRevenue));
    PostBalance(s.balances, ps, Money(CostOfGoodsSold));
    PostBalance(s.balances, ps, Money(FeeExpense));
  }

  /** Locking whole positions locks their whole cost and empties them. */
  lemma LockWhole(s: Books, id: Id, up: TokenKey, down: TokenKey, quantity: int)
    requires Agree(s) && 0 < quantity && Lock(s, id, up, down, quantity).Ok?
    requires Position(s.costs, up).quantity == Position(s.costs, down).quantity == quantity
    ensures var s' := Lock(s, id, up, down, quantity).value;
      && s'.locks[id].cost == Position(s.costs, up).cost + Position(s.costs, down).cost
      && s'.locks[id].payout == s'.locks[id].quantity == quantity
      && Position(s'.costs, up) == Position(s'.costs, down) == CostPosition(0, 0)
  {
  }

  lemma LockRealizesNothing(s: Books, id: Id, up: TokenKey, down: TokenKey, quantity: int)
    requires Lock(s, id, up, down, quantity).Ok?
    ensures RealizedValue(Lock(s, id, up, down, quantity).value.balances) == RealizedValue(s.balances)
  {
    var ps := LockTx(id, up, down, quantity, Allocated(s, up, quantity), Allocated(s, down, quantity));
    DeltaMiss(ps, One(Money(TradingRevenue)));
    DeltaMiss(ps, One(Money(CostOfGoodsSold)));
    DeltaMiss(ps, One(Money(FeeExpense)));
    PostBalance(s.balances, ps, Money(TradingRevenue));
    PostBalance(s.balances, ps, Money(CostOfGoodsSold));
    PostBalance(s.balances, ps, Money(FeeExpense));
  }

  /** The cash a pair action brings in. */
  function CashOf(s: Books, action: Action): int
    requires IsPairAction(action) && (action.ConfirmMerge? ==> action.lockId in s.locks)
  {
    match action
    case ConfirmSplit(_, _, _, quantity, _) => -(quantity as int)
    case ConfirmMerge(id, _) => s.locks[id].quantity
    case _ => 0
  }

  lemma CashDelta(s: Books, action: Action)
    requires IsPairAction(action) && (action.ConfirmMerge? ==> action.lockId in s.locks)
    requires UpOf(s, action) != DownOf(s, action)
    requires action.ConfirmMerge? ==> s.locks[action.lockId].payout == s.locks[action.lockId].quantity
    ensures Delta(TransactionOf(s, action), CASH) == CashOf(s, action)
  {
    match action
    case ConfirmSplit(id, up, down, quantity, _) => SplitPreserves(id, up, down, quantity);
    case LockPair(id, up, down, quantity) =>
      LockPreserves(id, up, down, quantity, Allocated(s, up, quantity), Allocated(s, down, quantity));
    case ConfirmMerge(id, _) => MergePreserves(s.locks[id]);
  }

  lemma PairNames(s: Books, action: Action)
    requires Agree(s) && Objection(action).None? && IsPairAction(action) && Perform(s, action).Ok?
    ensures action.ConfirmMerge? ==> action.lockId in s.locks && GoodLock(s.locks[action.lockId], action.lockId)
    ensures UpOf(s, action) != DownOf(s, action)
  {
  }

  lemma CashSteps(s: Books, action: Action)
    requires Agree(s) && Objection(action).None? && IsPairAction(action) && Perform(s, action).Ok?
    ensures action.ConfirmMerge? ==> action.lockId in s.locks
    ensures Sum(Perform(s, action).value.balances, CASH) == Sum(s.balances, CASH) + CashOf(s, action)
  {
    PairNames(s, action);
    PerformFollows(s, action);
    PostEffect(s.balances, TransactionOf(s, action), CASH);
    CashDelta(s, action);
  }

  lemma StepAgrees(s: Books, action: Action, s': Books)
    requires Agree(s) && Objection(action).None? && Perform(s, action) == Ok(s')
    ensures Agree(s')
  {
    PerformFollows(s, action);
    FollowKeepsAgree(s, s', TransactionOf(s, action));
  }

  lemma SplitStage(s: Books, split: Action, s1: Books)
    requires Agree(s) && split.ConfirmSplit? && Objection(split).None? && Perform(s, split) == Ok(s1)
    requires Position(s.costs, split.up) == Position(s.costs, split.down) == CostPosition(0, 0)
    ensures Agree(s1)
    ensures Sum(s1.balances, CASH) == Sum(s.balances, CASH) - split.quantity
    ensures RealizedValue(s1.balances) == RealizedValue(s.balances)
    ensures Position(s1.costs, split.up) == CostPosition(split.quantity, split.quantity / 2)
    ensures Position(s1.costs, split.down) == CostPosition(split.quantity, split.quantity - split.quantity / 2)
  {
    StepAgrees(s, split, s1);
    SplitFromEmpty(s, split.reservationId, split.up, split.down, split.quantity);
    SplitRealizesNothing(s, split.reservationId, split.up, split.down, split.quantity);
    CashSteps(s, split);
  }

  lemma LockStage(s: Books, lock: Action, s2: Books)
    requires Agree(s) && lock.LockPair? && Objection(lock).None? && Perform(s, lock) == Ok(s2)
    requires Position(s.costs, lock.up).quantity == Position(s.costs, lock.down).quantity == lock.quantity
    ensures Agree(s2) && lock.lockId in s2.locks
    ensures Sum(s2.balances, CASH) == Sum(s.balances, CASH)
    ensures RealizedValue(s2.balances) == RealizedValue(s.balances)
    ensures var l := s2.locks[lock.lockId];
      && l.cost == Position(s.costs, lock.up).cost + Position(s.costs, lock.down).cost
      && l.payout == l.quantity == lock.quantity
    ensures Position(s2.costs, lock.up) == Position(s2.costs, lock.down) == CostPosition(0, 0)
  {
    StepAgrees(s, lock, s2);
    LockWhole(s, lock.lockId, lock.up, lock.down, lock.quantity);
    LockRealizesNothing(s, lock.lockId, lock.up, lock.down, lock.quantity);
    CashSteps(s, lock);
  }

  lemma MergeStage(s: Books, merge: Action, s3: Books)
    requires Agree(s) && merge.ConfirmMerge? && Objection(merge).None? && Perform(s, merge) == Ok(s3)
    ensures Sum(s3.balances, CASH) == Sum(s.balances, CASH) + s.locks[merge.lockId].quantity
    ensures RealizedValue(s3.balances)
         == RealizedValue(s.balances) + s.locks[merge.lockId].payout - s.locks[merge.lockId].cost
    ensures s3.costs == s.costs
  {
    MergeRealizes(s, merge.lockId);
    CashSteps(s, merge);
  }

  /**
   * From empty positions, splitting any quantity (odd ones too), locking it and merging it restores
   * total cash, leaves both positions empty and realizes no profit or loss.
   */
  lemma SplitLockMerge(s: Books, split: Action, lock: Action, merge: Action, s1: Books, s2: Books, s3: Books)
    requires Agree(s) && split.ConfirmSplit? && lock.LockPair? && merge.ConfirmMerge?
    requires Objection(split).None? && Objection(lock).None? && Objection(merge).None?
    requires lock.up == split.up && lock.down == split.down && lock.quantity == split.quantity
    requires merge.lockId == lock.lockId
    requires Position(s.costs, split.up) == Position(s.costs, split.down) == CostPosition(0, 0)
    requires Perform(s, split) == Ok(s1) && Perform(s1, lock) == Ok(s2) && Perform(s2, merge) == Ok(s3)
    ensures Sum(s3.balances, CASH) == Sum(s.balances, CASH)
    ensures RealizedValue(s3.balances) == RealizedValue(s.balances)
    ensures Position(s3.costs, split.up) == Position(s3.costs, split.down) == CostPosition(0, 0)
  {
    SplitStage(s, split, s1);
    LockStage(s1, lock, s2);
    MergeStage(s2, merge, s3);
  }
}
