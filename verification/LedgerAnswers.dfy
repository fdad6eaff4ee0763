/** Exactly how the ledger answers every command on a reachable state. */
module LedgerAnswers {
  import opened Results
  import opened Ordering
  import opened LedgerTypes
  import opened MapSums
  import opened LedgerSpec
  import opened LedgerInvariant
  import opened LedgerTotals
  import opened LedgerSafety
  import opened LedgerHistory
  import opened LedgerSuccess
  import opened PairFlow

  // ----- when the reported P&L is in range -----

  /** Every partial sum of the locked profits, in id order, is in range. */
  ghost predicate LockedFits(locks: map<Id, PairLock>, ids: seq<Id>, n: nat)
    requires n <= |ids|
  {
    forall m: nat :: m <= n ==> Fits(MapSum(Among(LockedProfits(locks), ids[..m])))
  }

  /** The steps of the realized P&L and the partial sums of the locked one are in range. */
  ghost predicate PnlFits(s: Books) {
    var revenue, goods, fees :=
      Bal(s.balances, Money(TradingRevenue)), Bal(s.balances, Money(CostOfGoodsSold)),
      Bal(s.balances, Money(FeeExpense));
    var ids := SortedIds(s.locks.Keys);
    Fits(-revenue) && Fits(-revenue - goods) && Fits(-revenue - goods - fees) && LockedFits(s.locks, ids, |ids|)
  }

  lemma LockedFitsMore(locks: map<Id, PairLock>, ids: seq<Id>, n: nat, m: nat)
    requires n < m == n + 1 <= |ids|
    ensures LockedFits(locks, ids, m)
       <==> LockedFits(locks, ids, n) && Fits(MapSum(Among(LockedProfits(locks), ids[..m])))
  {
  }

  lemma PnlNextExactly(locks: map<Id, PairLock>, ids: seq<Id>, n: nat, m: nat)
    requires n < m == n + 1 <= |ids| && (forall id :: id in ids ==> id in locks)
    requires forall i, j :: 0 <= i < j < |ids| ==> ids[i] != ids[j]
    requires GoodLock(locks[ids[n]], ids[n]) && LockedPnl(locks, ids[..n]).Ok?
    ensures LockedPnl(locks, ids[..m]).Ok? <==> Fits(MapSum(Among(LockedProfits(locks), ids[..m])))
  {
    AmongNext(LockedProfits(locks), ids, n);
    LockedPnlPrefix(locks, ids, n);
    PnlNext(locks, ids, n, LockedPnl(locks, ids[..n]).value);
    if !locks[ids[n]].status.Locked? {
      FoldedFits(locks, ids, n);
    }
  }

  /** A locked P&L that was computed is in range. */
  lemma {:induction false} FoldedFits(locks: map<Id, PairLock>, ids: seq<Id>, n: nat)
    requires n <= |ids| && (forall id :: id in ids ==> id in locks) && LockedPnl(locks, ids[..n]).Ok?
    ensures Fits(LockedPnl(locks, ids[..n]).value)
  {
    if n > 0 {
      var before: nat := n - 1;
      assert ids[..n][..before] == ids[..before];
      FoldedFits(locks, ids, before);
    }
  }

  lemma LockedFitsNext(locks: map<Id, PairLock>, ids: seq<Id>, n: nat, m: nat)
    requires n < m == n + 1 <= |ids| && (forall id :: id in ids ==> id in locks)
    requires forall i, j :: 0 <= i < j < |ids| ==> ids[i] != ids[j]
    requires forall id :: id in locks ==> GoodLock(locks[id], id)
    requires LockedPnl(locks, ids[..n]).Ok? <==> LockedFits(locks, ids, n)
    ensures LockedPnl(locks, ids[..m]).Ok? <==> LockedFits(locks, ids, m)
  {
    LockedFitsMore(locks, ids, n, m);
    if LockedPnl(locks, ids[..n]).Ok? {
      assert ids[n] in locks;
      PnlNextExactly(locks, ids, n, m);
    } else {
      assert ids[..m][..n] == ids[..n];
    }
  }

  lemma {:induction false} LockedFitsExactly(locks: map<Id, PairLock>, ids: seq<Id>, n: nat)
    requires n <= |ids| && (forall id :: id in ids ==> id in locks)
    requires forall i, j :: 0 <= i < j < |ids| ==> ids[i] != ids[j]
    requires forall id :: id in locks ==> GoodLock(locks[id], id)
    ensures LockedPnl(locks, ids[..n]).Ok? <==> LockedFits(locks, ids, n)
  {
    if n == 0 {
      assert Among(LockedProfits(locks), ids[..0]).Keys == {};
    } else {
      var before: nat := n - 1;
      LockedFitsExactly(locks, ids, before);
      LockedFitsNext(locks, ids, before, n);
    }
  }

  /** The P&L is computed exactly when its steps are in range. */
  lemma PnlExactly(s: Books)
    requires Agree(s)
    ensures CheckedPnl(s).Ok? <==> PnlFits(s)
  {
    IdOrder();
    var ids := SortedIds(s.locks.Keys);
    LockedFitsExactly(s.locks, ids, |ids|);
    assert ids[..|ids|] == ids;
  }

  // ----- fresh commands -----

  /** The sums by account kind and the P&L of these books are in range. */
  ghost predicate BooksFit(s: Books) {
    BordersFit(s.balances) && PnlFits(s)
  }

  /** The action leaves books that fit. */
  ghost predicate ResultFits(s: Books, action: Action) {
    Perform(s, action).Ok? && BooksFit(Perform(s, action).value)
  }

  /**
   * A fresh valid command is applied if and only if what it draws on covers it, its amounts fit, the result's
   * totals and P&L fit, and the counter is not exhausted. When only range or the counter stands in the way, it
   * overflows.
   */
  lemma AnswersExactly(s: Ledger, c: LedgerCommand)
    requires Inv(s) && Fresh(s, c)
    ensures Apply(s, c).answer == Ok(Applied) <==>
      && Meets(s.books, c.action) && AmountsFit(s.books, c.action)
      && ResultFits(s.books, c.action) && s.accepted < U64_MAX
    ensures Meets(s.books, c.action) && Apply(s, c).answer != Ok(Applied) ==> Apply(s, c).answer == Err(Overflow)
  {
    FreshAnswer(s, c);
    VerifyExactly(s.books);
    PerformExactly(s.books, c.action);
    if Perform(s.books, c.action).Ok? {
      var after := Perform(s.books, c.action).value;
      PerformedVerifies(s.books, c);
      VerifyExactly(after);
      PnlExactly(after);
    } else if Meets(s.books, c.action) {
      MetErrors(s.books, c.action);
    }
  }

  /** An action whose own conditions are met is refused only for range. */
  lemma MetErrors(s: Books, action: Action)
    requires Agree(s) && BordersFit(s.balances) && Objection(action).None? && Meets(s, action)
    requires Perform(s, action).Err?
    ensures Perform(s, action).error == Overflow
  {
    match action
    case FundCollateral(amount) => FundErrors(s, amount);
    case ReserveCollateral(id, amount) => ReserveExactly(s, id, Cash, amount);
    case ReserveToken(id, token, quantity) => ReserveExactly(s, id, Token(token), quantity);
    case ReleaseReservation(id) => ReleaseSucceeds(s, id);
    case ConfirmBuy(id, token, quantity, consideration, fee, _) =>
      BuyErrors(s, id, token, quantity, consideration, fee);
    case ConfirmSell(id, quantity, gross, fee, _) => SellErrors(s, id, quantity, gross, fee);
    case LockPair(id, up, down, quantity) => LockErrors(s, id, up, down, quantity);
    case ConfirmMerge(id, _) => MergeErrors(s, id);
    case ConfirmSplit(id, up, down, quantity, _) => SplitErrors(s, id, up, down, quantity);
    case ConfirmRedemption(id, quantity, payout, _) => RedeemErrors(s, id, quantity, payout);
  }

  predicate IsSettlement(action: Action) {
    action.ConfirmBuy? || action.ConfirmSell? || action.ConfirmSplit? || action.ConfirmRedemption?
    || action.ConfirmMerge?
  }

  /**
   * A fresh confirmation inside its reservation, or a merge of an active lock, is applied exactly when its
   * amounts, the result's totals and P&L and the counter fit, and overflows otherwise: never is it refused
   * for balance or inventory.
   */
  lemma SettlementNeverStuck(s: Ledger, c: LedgerCommand)
    requires Inv(s) && Fresh(s, c) && IsSettlement(c.action) && Meets(s.books, c.action)
    ensures Apply(s, c).answer ==
      if AmountsFit(s.books, c.action) && ResultFits(s.books, c.action) && s.accepted < U64_MAX then Ok(Applied)
      else Err(Overflow)
  {
    AnswersExactly(s, c);
  }

  // ----- what a refusal means -----

  /** The reservation an action draws on or gives back. */
  function Drawn(action: Action): Option<Id> {
    match action
    case ReleaseReservation(id) => Some(id)
    case ConfirmBuy(id, _, _, _, _, _) => Some(id)
    case ConfirmSell(id, _, _, _, _) => Some(id)
    case ConfirmSplit(id, _, _, _, _) => Some(id)
    case ConfirmRedemption(id, _, _, _) => Some(id)
    case _ => None
  }

  predicate NeedsCash(action: Action) {
    action.ConfirmBuy? || action.ConfirmSplit?
  }

  /**
   * Which refusal a missing, finished, unfit or too small reservation brings; only a split does not tell the
   * last two apart.
   */
  lemma DrawRefusals(s: Books, action: Action, id: Id)
    requires Objection(action).None? && Drawn(action) == Some(id)
    requires action.ConfirmBuy? ==> Fits(action.consideration + action.fee)
    ensures var r := Perform(s, action);
      && (id !in s.reservations ==> r == Err(ReservationMissing))
      && (id in s.reservations && !s.reservations[id].status.Active? ==> r == Err(ReservationInactive))
      && (id in s.reservations && s.reservations[id].status.Active? && !action.ReleaseReservation? ==>
            var held := s.reservations[id];
            if NeedsCash(action) != held.asset.Cash? then r == Err(ReservationMismatch)
            else !Meets(s, action) ==>
              r == Err(if action.ConfirmSplit? then ReservationMismatch else ReservationInsufficient))
  {
  }

  // ----- validity -----

  predicate TextWithin(t: Text, bound: nat) {
    1 <= |t| && |t| <= bound
  }

  predicate TokenNamed(t: TokenKey) {
    TextWithin(t.conditionId, 256) && TextWithin(t.tokenId, 256)
  }

  /** Two different tokens of one condition. */
  predicate PairNamed(up: TokenKey, down: TokenKey) {
    TokenNamed(up) && TokenNamed(down) && up.conditionId == down.conditionId && up.tokenId != down.tokenId
  }

  /** What each action must look like, whatever the state of the ledger. */
  predicate ActionValid(action: Action) {
    match action
    case FundCollateral(amount) => 0 < amount
    case ReserveCollateral(_, amount) => 0 < amount
    case ReserveToken(_, token, quantity) => TokenNamed(token) && 0 < quantity
    case ReleaseReservation(_) => true
    case ConfirmBuy(_, token, quantity, consideration, fee, confirmation) =>
      TokenNamed(token) && 0 < quantity && 0 < consideration && 0 <= fee && TextWithin(confirmation, 512)
    case ConfirmSell(_, quantity, gross, fee, confirmation) =>
      0 < quantity && 0 < gross && 0 <= fee <= gross && TextWithin(confirmation, 512)
    case LockPair(_, up, down, quantity) => PairNamed(up, down) && 0 < quantity
    case ConfirmMerge(_, confirmation) => TextWithin(confirmation, 512)
    case ConfirmSplit(_, up, down, quantity, confirmation) =>
      PairNamed(up, down) && 0 < quantity && TextWithin(confirmation, 512)
    case ConfirmRedemption(_, quantity, payout, confirmation) =>
      0 < quantity && 0 <= payout <= quantity && TextWithin(confirmation, 512)
  }

  /** A command is valid exactly when its time is not negative and its action is; the objection tells which. */
  lemma ValidExactly(c: LedgerCommand)
    ensures Validate(c).None? <==> 0 <= c.recordedAtNs && ActionValid(c.action)
    ensures Validate(c) == Some(Timestamp) <==> c.recordedAtNs < 0
  {
  }

  // ----- repeated commands -----

  /** Submitting an applied command again is a duplicate, now and after any run, until a conflict halts the ledger. */
  lemma RepeatIsDuplicate(s: Ledger, c: LedgerCommand, later: seq<LedgerCommand>)
    requires Apply(s, c).answer == Ok(Applied)
    ensures var after := Run(Apply(s, c).ledger, later);
      !after.halted ==> Apply(after, c) == Step(after, Ok(Duplicate))
  {
    StepHistory(s, c);
    ProcessedStays(Apply(s, c).ledger, later, c);
    assert Validate(c).None?;
  }

  lemma {:induction false} ProcessedStays(s: Ledger, cs: seq<LedgerCommand>, c: LedgerCommand)
    requires c.commandId in s.processed && s.processed[c.commandId] == CommandDigest(c)
    ensures var t := Run(s, cs); c.commandId in t.processed && t.processed[c.commandId] == CommandDigest(c)
  {
    if |cs| > 0 {
      var n := |cs| - 1;
      ProcessedStays(s, cs[..n], c);
      StepHistory(Run(s, cs[..n]), cs[n]);
    }
  }
}
