/** Every accepted command keeps the views in agreement; which refusals are possible. */
module LedgerSafety {
  import opened Results
  import opened LedgerTypes
  import opened DoubleEntry
  import opened LedgerSpec
  import opened LedgerInvariant
  import opened LedgerTransitions
  import opened LedgerTotals

  /** The transaction an action posts in a given state. */
  function TransactionOf(s: Books, action: Action): seq<Posting> {
    match action
    case FundCollateral(amount) => FundTx(amount)
    case ReserveCollateral(id, amount) => MoveTx(HomeKey(Cash), HeldKey(id, Cash), amount)
    case ReserveToken(id, token, quantity) => MoveTx(HomeKey(Token(token)), HeldKey(id, Token(token)), quantity)
    case ReleaseReservation(id) =>
      if id !in s.reservations then []
      else var r := s.reservations[id]; MoveTx(HeldKey(id, r.asset), HomeKey(r.asset), r.remaining)
    case ConfirmBuy(id, token, quantity, consideration, fee, _) => BuyTx(id, token, quantity, consideration, fee)
    case ConfirmSell(id, quantity, gross, fee, _) =>
      SellTx(id, ReservedToken(s, id), quantity, gross, fee, Allocated(s, ReservedToken(s, id), quantity))
    case LockPair(id, up, down, quantity) =>
      LockTx(id, up, down, quantity, Allocated(s, up, quantity), Allocated(s, down, quantity))
    case ConfirmMerge(id, _) => if id !in s.locks then [] else MergeTx(s.locks[id])
    case ConfirmSplit(id, up, down, quantity, _) => SplitTx(id, up, down, quantity)
    case ConfirmRedemption(id, quantity, payout, _) =>
      RedeemTx(id, ReservedToken(s, id), quantity, payout, Allocated(s, ReservedToken(s, id), quantity))
  }

  function ReservedToken(s: Books, id: Id): TokenKey {
    if id in s.reservations && s.reservations[id].asset.Token? then s.reservations[id].asset.token
    else TokenKey([], [])
  }

  function Allocated(s: Books, token: TokenKey, quantity: int): int {
    var r := AllocateCost(Position(s.costs, token), quantity);
    if r.Ok? then r.value else 0
  }

  predicate IsMoving(action: Action) {
    action.FundCollateral? || action.ReserveCollateral? || action.ReserveToken? || action.ReleaseReservation?
  }

  predicate IsTrade(action: Action) {
    action.ConfirmBuy? || action.ConfirmSell? || action.ConfirmRedemption?
  }

  lemma MovingFollows(s: Books, action: Action)
    requires Agree(s) && Objection(action).None? && IsMoving(action) && Perform(s, action).Ok?
    ensures Follows(s, Perform(s, action).value, TransactionOf(s, action))
  {
    match action
    case FundCollateral(amount) => FundFollows(s, amount);
    case ReserveCollateral(id, amount) => ReserveFollows(s, id, Cash, amount);
    case ReserveToken(id, token, quantity) => ReserveFollows(s, id, Token(token), quantity);
    case ReleaseReservation(id) => ReleaseFollows(s, id);
  }

  lemma BuyActionFollows(s: Books, action: Action)
    requires Agree(s) && Objection(action).None? && action.ConfirmBuy? && Perform(s, action).Ok?
    ensures Follows(s, Perform(s, action).value, TransactionOf(s, action))
  {
    BuyFollows(s, action.reservationId, action.token, action.quantity, action.consideration, action.fee);
  }

  lemma SellActionFollows(s: Books, action: Action)
    requires Agree(s) && Objection(action).None? && action.ConfirmSell? && Perform(s, action).Ok?
    ensures Follows(s, Perform(s, action).value, TransactionOf(s, action))
  {
    SellFollows(s, action.reservationId, action.quantity, action.gross, action.fee);
  }

  lemma RedeemActionFollows(s: Books, action: Action)
    requires Agree(s) && Objection(action).None? && action.ConfirmRedemption? && Perform(s, action).Ok?
    ensures Follows(s, Perform(s, action).value, TransactionOf(s, action))
  {
    RedeemFollows(s, action.reservationId, action.quantity, action.payout);
  }

  lemma TradeFollows(s: Books, action: Action)
    requires Agree(s) && Objection(action).None? && IsTrade(action) && Perform(s, action).Ok?
    ensures Follows(s, Perform(s, action).value, TransactionOf(s, action))
  {
    if action.ConfirmBuy? {
      BuyActionFollows(s, action);
    } else if action.ConfirmSell? {
      SellActionFollows(s, action);
    } else {
      RedeemActionFollows(s, action);
    }
  }

  lemma PairFollows(s: Books, action: Action)
    requires Agree(s) && Objection(action).None? && Perform(s, action).Ok?
    requires action.LockPair? || action.ConfirmMerge? || action.ConfirmSplit?
    ensures Follows(s, Perform(s, action).value, TransactionOf(s, action))
  {
    match action
    case LockPair(id, up, down, quantity) => LockFollows(s, id, up, down, quantity);
    case ConfirmMerge(id, _) => MergeFollows(s, id);
    case ConfirmSplit(id, up, down, quantity, _) => SplitFollows(s, id, up, down, quantity);
  }

  /** A performed action posts its transaction, and every other view changes by just those amounts. */
  lemma PerformFollows(s: Books, action: Action)
    requires Agree(s) && Objection(action).None? && Perform(s, action).Ok?
    ensures Follows(s, Perform(s, action).value, TransactionOf(s, action))
  {
    if IsMoving(action) {
      MovingFollows(s, action);
    } else if IsTrade(action) {
      TradeFollows(s, action);
    } else {
      PairFollows(s, action);
    }
  }

  /**
   * After a command succeeds on agreeing books the views still agree, so the run-time re-check can
   * refuse the result only for range.
   */
  lemma FreshKeepsAgree(s: Books, c: LedgerCommand)
    requires Agree(s) && ApplyFresh(s, c).Ok?
    ensures Agree(ApplyFresh(s, c).value)
    ensures var v := Verify(ApplyFresh(s, c).value); v.Err? ==> v.error == Overflow
  {
    PerformFollows(s, c.action);
    FollowKeepsAgree(s, ApplyFresh(s, c).value, TransactionOf(s, c.action));
    VerifyExactly(ApplyFresh(s, c).value);
  }

  // ----- refusals -----

  /** Reserving a fresh id succeeds exactly when the available balance covers it. */
  lemma ReserveExactly(s: Books, id: Id, asset: ReservationAsset, amount: int)
    requires Agree(s) && 0 < amount <= I128_MAX && id !in s.reservations
    ensures Reserve(s, id, asset, amount).Ok? <==> Bal(s.balances, HomeKey(asset)) >= amount
    ensures Reserve(s, id, asset, amount).Err? ==> Reserve(s, id, asset, amount).error == NegativeBalance
  {
    assert HeldKey(id, asset) !in s.balances;
    assert HomeKey(asset) in s.balances ==> EntryOk(s.balances, HomeKey(asset));
    MoveExactly(s.balances, HomeKey(asset), HeldKey(id, asset), amount);
  }

  /** Moving an amount fails only when the source does not cover it or the target cannot hold it. */
  lemma MoveExactly(b: Balances, source: Key, target: Key, amount: int)
    requires SoundBalances(b) && 0 < amount <= I128_MAX
    requires source != target && source.asset == target.asset && Compatible(source) && Compatible(target)
    requires RequiresNonNegative(source.account) && RequiresNonNegative(target.account)
    requires Bal(b, source) >= amount ==> Fits(Bal(b, target) + amount)
    ensures Post(b, MoveTx(source, target, amount)).Ok? <==> Bal(b, source) >= amount
    ensures Bal(b, source) < amount ==> Post(b, MoveTx(source, target, amount)) == Err(NegativeBalance)
  {
    var ps := MoveTx(source, target, amount);
    MoveTxWellFormed(source, target, amount);
    assert source in b ==> EntryOk(b, source);
    assert target in b ==> EntryOk(b, target);
    assert ps[..1] == [ps[0]] && ps[..1][..0] == [];
    assert PostEntries(b, ps[..1][..0]) == Ok(Tally(map[], b));
    assert PostEntries(b, ps[..1]) == PostEntry(Tally(map[], b), ps[0]);
    assert ps[..|ps| - 1] == ps[..1];
    if Bal(b, source) >= amount {
      var t := PostEntries(b, ps[..1]).value;
      assert PostEntries(b, ps).Ok?;
      PostErrors(b, ps);
    }
  }

  lemma FundErrors(s: Books, amount: int)
    requires Agree(s) && 0 < amount <= I128_MAX
    ensures Fund(s, amount).Err? ==> Fund(s, amount).error == Overflow
  {
    FundTxWellFormed(amount);
    assert Money(CashAvailable) in s.balances ==> EntryOk(s.balances, Money(CashAvailable));
    PostErrors(s.balances, FundTx(amount));
  }

  /** Releasing an active reservation never fails while the totals fit. */
  lemma ReleaseSucceeds(s: Books, id: Id)
    requires Agree(s) && BordersFit(s.balances) && ActiveReservation(s, id).Ok?
    ensures Release(s, id).Ok?
  {
    var r := s.reservations[id];
    var held, home := HeldKey(id, r.asset), HomeKey(r.asset);
    HomeHolds(s, id);
    MoveExactly(s.balances, held, home, r.remaining);
  }

  /** The home account has room for what the reservation gives back. */
  lemma HomeHolds(s: Books, id: Id)
    requires Agree(s) && BordersFit(s.balances) && ActiveReservation(s, id).Ok?
    ensures var r := s.reservations[id];
      0 <= Bal(s.balances, HomeKey(r.asset)) && Bal(s.balances, HomeKey(r.asset)) + r.remaining <= I128_MAX
  {
    var r := s.reservations[id];
    HomeAndHeld(s.balances, r.asset);
    SumCovers(s.balances, HeldKey(id, r.asset), {HeldKind(r.asset)});
  }

  /** What is available and what is reserved of an asset together fit i128. */
  lemma HomeAndHeld(b: Balances, asset: ReservationAsset)
    requires SoundBalances(b) && BordersFit(b)
    ensures 0 <= Bal(b, HomeKey(asset))
    ensures Bal(b, HomeKey(asset)) + Sum(b, Band(AssetOf(asset), {HeldKind(asset)})) <= I128_MAX
  {
    var a, c := AssetOf(asset), HeldKind(asset);
    FrontBounds(b, a, {c - 1, c}, c + 1);
    SumSplit(b, a, {c - 1, c}, {c - 1}, {c});
    BandOne(b, HomeKey(asset));
    NonNegatives(b, HomeKey(asset));
  }

  predicate AboutReservation(e: Error) {
    e == ReservationMissing || e == ReservationInactive || e == ReservationMismatch || e == ReservationInsufficient
  }

  /** An active collateral reservation still holds `amount`. */
  predicate CashWithin(s: Books, id: Id, amount: int) {
    id in s.reservations && s.reservations[id].status.Active? && s.reservations[id].asset == Cash
    && amount <= s.reservations[id].remaining
  }

  /** An active token reservation still holds `quantity`. */
  predicate TokensWithin(s: Books, id: Id, quantity: int) {
    id in s.reservations && s.reservations[id].status.Active? && s.reservations[id].asset.Token?
    && quantity <= s.reservations[id].remaining
  }

  /** Tokens behind an active token reservation are in the position and can be disposed of. */
  lemma ReservedTokensCovered(s: Books, id: Id, quantity: int)
    requires Agree(s) && ActiveReservation(s, id).Ok? && s.reservations[id].asset.Token?
    requires 0 < quantity <= s.reservations[id].remaining
    ensures var p := Position(s.costs, s.reservations[id].asset.token);
      && p.quantity >= quantity && 0 <= p.cost
      && s.reservations[id].asset.token in s.costs
      && (AllocateCost(p, quantity).Err? ==> AllocateCost(p, quantity).error == Overflow)
  {
    var token := s.reservations[id].asset.token;
    PositionSigns(s, token);
    assert PositionBacked(s, token);
    SumCovers(s.balances, HeldKey(id, Token(token)), {2, 3});
  }

  /** A buy is refused only over its reservation or for range, and within the reservation only for range. */
  lemma BuyErrors(s: Books, id: Id, token: TokenKey, quantity: int, consideration: int, fee: int)
    requires Agree(s) && 0 < quantity <= I128_MAX && 0 < consideration && 0 <= fee
    requires Buy(s, id, token, quantity, consideration, fee).Err?
    ensures var e := Buy(s, id, token, quantity, consideration, fee).error;
      && (e == Overflow || AboutReservation(e))
      && (CashWithin(s, id, consideration + fee) ==> e == Overflow)
  {
    var ps := BuyTx(id, token, quantity, consideration, fee);
    var total := consideration + fee;
    if Fits(total) && CashWithin(s, id, total) {
      BuyTxWellFormed(id, token, quantity, consideration, fee);
      assert Covered(s.balances, ps) by {
        NonNegatives(s.balances, CostKey(token));
        NonNegatives(s.balances, Money(FeeExpense));
        NonNegatives(s.balances, Key(TokenAvailable, Outcome(token)));
      }
      PostErrors(s.balances, ps);
    }
  }

  lemma NonNegatives(b: Balances, k: Key)
    requires SoundBalances(b) && RequiresNonNegative(k.account)
    ensures Bal(b, k) >= 0
  {
    if k in b {
      assert EntryOk(b, k);
    }
  }

  lemma ReduceCostErrors(s: Books, token: TokenKey, quantity: int)
    requires Agree(s) && token in s.costs
    requires AllocateCost(s.costs[token], quantity).Ok?
    ensures var r := ReduceCost(s.costs, token, quantity, AllocateCost(s.costs[token], quantity).value);
      r.Err? ==> r.error == Overflow
  {
    AllocateBounds(s.costs[token], quantity);
  }

  lemma DisposalCovered(s: Books, id: Id, token: TokenKey, quantity: int, gross: int, fee: int, cost: int)
    requires Agree(s) && ActiveReservation(s, id).Ok? && s.reservations[id].asset == Token(token)
    requires 0 < quantity <= s.reservations[id].remaining && 0 <= fee <= gross
    requires 0 <= cost <= Position(s.costs, token).cost
    ensures Covered(s.balances, SellTx(id, token, quantity, gross, fee, cost))
    ensures Covered(s.balances, RedeemTx(id, token, quantity, gross, cost))
  {
    assert PositionBacked(s, token);
    NonNegatives(s.balances, Money(CashAvailable));
    NonNegatives(s.balances, Money(FeeExpense));
    NonNegatives(s.balances, Money(CostOfGoodsSold));
  }

  /** Within the reservation, posting a sale fails only for range. */
  lemma SellPostErrors(s: Books, id: Id, token: TokenKey, quantity: int, gross: int, fee: int, cost: int)
    requires Agree(s) && TokensWithin(s, id, quantity) && s.reservations[id].asset == Token(token)
    requires 0 < quantity <= I128_MAX && 0 <= fee <= gross <= I128_MAX
    requires AllocateCost(Position(s.costs, token), quantity) == Ok(cost)
    ensures var r := Post(s.balances, SellTx(id, token, quantity, gross, fee, cost));
      r.Err? ==> r.error == Overflow
  {
    AllocatedFits(s, token, quantity, cost);
    AllocateBounds(Position(s.costs, token), quantity);
    SellTxWellFormed(id, token, quantity, gross, fee, cost);
    DisposalCovered(s, id, token, quantity, gross, fee, cost);
    PostErrors(s.balances, SellTx(id, token, quantity, gross, fee, cost));
  }

  /** A sale whose checks pass fails only in posting, consuming or reducing. */
  lemma SellIs(s: Books, id: Id, token: TokenKey, quantity: int, gross: int, fee: int, cost: int)
    requires TokensWithin(s, id, quantity) && s.reservations[id].asset == Token(token) && Fits(gross - fee)
    requires AllocateCost(Position(s.costs, token), quantity) == Ok(cost)
    ensures var b := Post(s.balances, SellTx(id, token, quantity, gross, fee, cost));
      var rs, cs := Consume(s.reservations, id, quantity), ReduceCost(s.costs, token, quantity, cost);
      var r := Sell(s, id, quantity, gross, fee);
      r.Err? ==> (b.Err? && r.error == b.error) || (rs.Err? && r.error == rs.error) || (cs.Err? && r.error == cs.error)
  {
  }

  lemma SellErrorsWithin(s: Books, id: Id, token: TokenKey, quantity: int, gross: int, fee: int)
    requires Agree(s) && 0 < quantity <= I128_MAX && 0 <= fee <= gross <= I128_MAX
    requires TokensWithin(s, id, quantity) && s.reservations[id].asset == Token(token)
    requires Sell(s, id, quantity, gross, fee).Err?
    ensures Sell(s, id, quantity, gross, fee).error == Overflow
  {
    ReservedTokensCovered(s, id, quantity);
    var r := AllocateCost(Position(s.costs, token), quantity);
    if r.Ok? {
      SellPostErrors(s, id, token, quantity, gross, fee, r.value);
      ReduceCostErrors(s, token, quantity);
      SellIs(s, id, token, quantity, gross, fee, r.value);
    } else {
      assert Sell(s, id, quantity, gross, fee) == Err(r.error);
    }
  }

  lemma SellErrorsOutside(s: Books, id: Id, quantity: int, gross: int, fee: int)
    requires !TokensWithin(s, id, quantity)
    ensures Sell(s, id, quantity, gross, fee).Err? && AboutReservation(Sell(s, id, quantity, gross, fee).error)
  {
  }

  /** A sale is refused only over its reservation or for range, and within the reservation only for range. */
  lemma SellErrors(s: Books, id: Id, quantity: int, gross: int, fee: int)
    requires Agree(s) && 0 < quantity <= I128_MAX && 0 <= fee <= gross <= I128_MAX
    requires Sell(s, id, quantity, gross, fee).Err?
    ensures var e := Sell(s, id, quantity, gross, fee).error;
      && (e == Overflow || AboutReservation(e))
      && (TokensWithin(s, id, quantity) ==> e == Overflow)
  {
    if TokensWithin(s, id, quantity) {
      SellErrorsWithin(s, id, s.reservations[id].asset.token, quantity, gross, fee);
    } else {
      SellErrorsOutside(s, id, quantity, gross, fee);
    }
  }

  /** A redemption is refused only over its reservation or for range, and within the reservation only for range. */
  lemma RedeemErrors(s: Books, id: Id, quantity: int, payout: int)
    requires Agree(s) && 0 < quantity <= I128_MAX && 0 <= payout <= quantity
    requires Redeem(s, id, quantity, payout).Err?
    ensures var e := Redeem(s, id, quantity, payout).error;
      && (e == Overflow || AboutReservation(e))
      && (TokensWithin(s, id, quantity) ==> e == Overflow)
  {
    if TokensWithin(s, id, quantity) {
      var token := s.reservations[id].asset.token;
      ReservedTokensCovered(s, id, quantity);
      var r := AllocateCost(Position(s.costs, token), quantity);
      if r.Ok? {
        AllocateBounds(Position(s.costs, token), quantity);
        PositionSigns(s, token);
        RedeemTxWellFormed(id, token, quantity, payout, r.value);
        DisposalCovered(s, id, token, quantity, payout, 0, r.value);
        PostErrors(s.balances, RedeemTx(id, token, quantity, payout, r.value));
        ReduceCostErrors(s, token, quantity);
      }
    }
  }

  /** A split is refused only for its pair, its reservation or range, and within the reservation only for range. */
  lemma SplitErrors(s: Books, id: Id, up: TokenKey, down: TokenKey, quantity: int)
    requires Agree(s) && 0 < quantity <= I128_MAX && IsPair(up, down)
    requires Split(s, id, up, down, quantity).Err?
    ensures var e := Split(s, id, up, down, quantity).error;
      && (e == Overflow || AboutReservation(e))
      && (CashWithin(s, id, quantity) ==> e == Overflow)
  {
    if CashWithin(s, id, quantity) {
      var ps := SplitTx(id, up, down, quantity);
      SplitTxWellFormed(id, up, down, quantity);
      assert Covered(s.balances, ps) by {
        NonNegatives(s.balances, CostKey(up));
        NonNegatives(s.balances, CostKey(down));
        NonNegatives(s.balances, Key(TokenAvailable, Outcome(up)));
        NonNegatives(s.balances, Key(TokenAvailable, Outcome(down)));
      }
      PostErrors(s.balances, ps);
    }
  }

  /** A merge is refused only for its lock or for range, and for an active lock only for range. */
  lemma MergeErrors(s: Books, id: Id)
    requires Agree(s) && Merge(s, id).Err?
    ensures var e := Merge(s, id).error;
      && (e == Overflow || e == LockMissing || e == LockInactive)
      && (id in s.locks && s.locks[id].status.Locked? ==> e == Overflow)
  {
    if id in s.locks && s.locks[id].status.Locked? {
      var ps := MergeTx(s.locks[id]);
      MergeTxWellFormed(s.locks[id], id);
      assert Covered(s.balances, ps) by {
        NonNegatives(s.balances, Money(CashAvailable));
        NonNegatives(s.balances, Money(CostOfGoodsSold));
      }
      PostErrors(s.balances, ps);
    }
  }

  lemma AvailableInPosition(s: Books, token: TokenKey, quantity: int)
    requires Agree(s) && 0 < quantity <= Bal(s.balances, Key(TokenAvailable, Outcome(token)))
    ensures var p := Position(s.costs, token);
      && p.quantity >= quantity && 0 <= p.cost && token in s.costs
      && (AllocateCost(p, quantity).Err? ==> AllocateCost(p, quantity).error == Overflow)
  {
    assert PositionBacked(s, token);
    PositionSigns(s, token);
    SumCovers(s.balances, Key(TokenAvailable, Outcome(token)), {2, 3});
  }

  ghost predicate BothAvailable(s: Books, up: TokenKey, down: TokenKey, quantity: int) {
    && Bal(s.balances, Key(TokenAvailable, Outcome(up))) >= quantity
    && Bal(s.balances, Key(TokenAvailable, Outcome(down))) >= quantity
  }

  lemma LockCovered(s: Books, id: Id, up: TokenKey, down: TokenKey, quantity: int, upCost: int, downCost: int)
    requires Agree(s) && id !in s.locks && BothAvailable(s, up, down, quantity) && 0 < quantity
    requires 0 <= upCost <= Position(s.costs, up).cost && 0 <= downCost <= Position(s.costs, down).cost
    ensures Covered(s.balances, LockTx(id, up, down, quantity, upCost, downCost))
  {
    assert PositionBacked(s, up) && PositionBacked(s, down);
    NonNegatives(s.balances, LockKey(id, up));
    NonNegatives(s.balances, LockKey(id, down));
    NonNegatives(s.balances, LockCostKey(id));
  }

  lemma LockPostErrors(s: Books, id: Id, up: TokenKey, down: TokenKey, quantity: int, upCost: int, downCost: int)
    requires Agree(s) && id !in s.locks && 0 < quantity <= I128_MAX && IsPair(up, down)
    requires AllocateCost(Position(s.costs, up), quantity) == Ok(upCost)
    requires AllocateCost(Position(s.costs, down), quantity) == Ok(downCost)
    requires Post(s.balances, LockTx(id, up, down, quantity, upCost, downCost)).Err? && Fits(upCost + downCost)
    ensures var e := Post(s.balances, LockTx(id, up, down, quantity, upCost, downCost)).error;
      && (e == Overflow || e == NegativeBalance)
      && (BothAvailable(s, up, down, quantity) ==> e == Overflow)
  {
    AllocateBounds(Position(s.costs, up), quantity);
    AllocateBounds(Position(s.costs, down), quantity);
    LockTxWellFormed(id, up, down, quantity, upCost, downCost);
    if BothAvailable(s, up, down, quantity) {
      LockCovered(s, id, up, down, quantity, upCost, downCost);
    }
    PostErrors(s.balances, LockTx(id, up, down, quantity, upCost, downCost));
  }

  lemma LockReduceErrors(s: Books, up: TokenKey, down: TokenKey, quantity: int, upCost: int, downCost: int)
    requires Agree(s) && 0 < quantity && up != down
    requires AllocateCost(Position(s.costs, up), quantity) == Ok(upCost)
    requires AllocateCost(Position(s.costs, down), quantity) == Ok(downCost)
    ensures var first := ReduceCost(s.costs, up, quantity, upCost);
      && (first.Err? ==> first.error == Overflow)
      && (first.Ok? ==>
            var second := ReduceCost(first.value, down, quantity, downCost); second.Err? ==> second.error == Overflow)
  {
    ReduceCostErrors(s, up, quantity);
    var first := ReduceCost(s.costs, up, quantity, upCost);
    if first.Ok? {
      assert first.value[down] == s.costs[down];
    }
  }

  lemma LockAllocationErrors(s: Books, token: TokenKey, quantity: int)
    requires Agree(s) && 0 < quantity <= I128_MAX && AllocateCost(Position(s.costs, token), quantity).Err?
    ensures var e := AllocateCost(Position(s.costs, token), quantity).error;
      && (e == Overflow || e == InventoryInsufficient)
      && (Bal(s.balances, Key(TokenAvailable, Outcome(token))) >= quantity ==> e == Overflow)
  {
    if Bal(s.balances, Key(TokenAvailable, Outcome(token))) >= quantity {
      AvailableInPosition(s, token, quantity);
    }
  }

  /** A lock is refused for a used id, missing inventory or range; with both tokens available only for range. */
  lemma LockErrors(s: Books, id: Id, up: TokenKey, down: TokenKey, quantity: int)
    requires Agree(s) && 0 < quantity <= I128_MAX && IsPair(up, down)
    requires Lock(s, id, up, down, quantity).Err?
    ensures var e := Lock(s, id, up, down, quantity).error;
      && (e == Overflow || e == LockExists || e == InventoryInsufficient || e == NegativeBalance)
      && (id !in s.locks && BothAvailable(s, up, down, quantity) ==> e == Overflow)
  {
    var u, d := AllocateCost(Position(s.costs, up), quantity), AllocateCost(Position(s.costs, down), quantity);
    if u.Err? {
      LockAllocationErrors(s, up, quantity);
    } else if d.Err? {
      LockAllocationErrors(s, down, quantity);
    } else if id !in s.locks && Fits(u.value + d.value) {
      if Post(s.balances, LockTx(id, up, down, quantity, u.value, d.value)).Err? {
        LockPostErrors(s, id, up, down, quantity, u.value, d.value);
      }
      LockReduceErrors(s, up, down, quantity, u.value, d.value);
    }
  }

  /** Errors that would mean the books disagree: none of them is ever reported. */
  predicate Disagreement(e: Error) {
    e == Unbalanced || e == PostingCount || e == AccountAsset || e == Conservation
    || e == ReservationInvariant || e == InventoryInvariant || e == Trap
  }

  lemma MovingErrors(s: Books, action: Action)
    requires Agree(s) && BordersFit(s.balances) && Objection(action).None? && Perform(s, action).Err?
    requires IsMoving(action)
    ensures !Disagreement(Perform(s, action).error)
    ensures Perform(s, action).error == NegativeBalance ==> action.ReserveCollateral? || action.ReserveToken?
  {
    match action
    case FundCollateral(amount) => FundErrors(s, amount);
    case ReserveCollateral(id, amount) => if id !in s.reservations { ReserveExactly(s, id, Cash, amount); }
    case ReserveToken(id, token, quantity) =>
      if id !in s.reservations { ReserveExactly(s, id, Token(token), quantity); }
    case ReleaseReservation(id) => if ActiveReservation(s, id).Ok? { ReleaseSucceeds(s, id); }
  }

  lemma TradeErrors(s: Books, action: Action)
    requires Agree(s) && Objection(action).None? && Perform(s, action).Err?
    requires IsTrade(action)
    ensures var e := Perform(s, action).error; e == Overflow || AboutReservation(e)
  {
    match action
    case ConfirmBuy(id, token, quantity, consideration, fee, _) =>
      BuyErrors(s, id, token, quantity, consideration, fee);
    case ConfirmSell(id, quantity, gross, fee, _) => SellErrors(s, id, quantity, gross, fee);
    case ConfirmRedemption(id, quantity, payout, _) => RedeemErrors(s, id, quantity, payout);
  }

  lemma LockActionErrors(s: Books, action: Action)
    requires Agree(s) && Objection(action).None? && Perform(s, action).Err? && action.LockPair?
    ensures !Disagreement(Perform(s, action).error)
  {
    LockErrors(s, action.lockId, action.up, action.down, action.quantity);
  }

  lemma MergeActionErrors(s: Books, action: Action)
    requires Agree(s) && Objection(action).None? && Perform(s, action).Err? && action.ConfirmMerge?
    ensures var e := Perform(s, action).error; !Disagreement(e) && e != NegativeBalance
  {
    MergeErrors(s, action.lockId);
  }

  lemma SplitActionErrors(s: Books, action: Action)
    requires Agree(s) && Objection(action).None? && Perform(s, action).Err? && action.ConfirmSplit?
    ensures var e := Perform(s, action).error; !Disagreement(e) && e != NegativeBalance
  {
    SplitErrors(s, action.reservationId, action.up, action.down, action.quantity);
  }

  lemma PairErrors(s: Books, action: Action)
    requires Agree(s) && Objection(action).None? && Perform(s, action).Err?
    requires action.LockPair? || action.ConfirmMerge? || action.ConfirmSplit?
    ensures !Disagreement(Perform(s, action).error)
    ensures Perform(s, action).error == NegativeBalance ==> action.LockPair?
  {
    if action.LockPair? {
      LockActionErrors(s, action);
    } else if action.ConfirmMerge? {
      MergeActionErrors(s, action);
    } else {
      SplitActionErrors(s, action);
    }
  }

  /** A refusal that is no internal failure, and for balance only where an action may find too little. */
  ghost predicate Orderly(action: Action, r: Outcome<Books>) {
    r.Err? ==>
      && !Disagreement(r.error)
      && (r.error == NegativeBalance ==> action.ReserveCollateral? || action.ReserveToken? || action.LockPair?)
  }

  lemma MovingOrderly(s: Books, action: Action)
    requires Agree(s) && BordersFit(s.balances) && Objection(action).None? && IsMoving(action)
    ensures Orderly(action, Perform(s, action))
  {
    if Perform(s, action).Err? {
      MovingErrors(s, action);
    }
  }

  lemma OrdinaryRefusal(e: Error)
    requires e == Overflow || AboutReservation(e)
    ensures !Disagreement(e) && e != NegativeBalance
  {
  }

  lemma TradeOrderly(s: Books, action: Action)
    requires Agree(s) && Objection(action).None? && IsTrade(action)
    ensures Orderly(action, Perform(s, action))
  {
    if Perform(s, action).Err? {
      TradeErrors(s, action);
      OrdinaryRefusal(Perform(s, action).error);
    }
  }

  lemma PairOrderly(s: Books, action: Action)
    requires Agree(s) && Objection(action).None?
    requires action.LockPair? || action.ConfirmMerge? || action.ConfirmSplit?
    ensures Orderly(action, Perform(s, action))
  {
    if Perform(s, action).Err? {
      PairErrors(s, action);
    }
  }

  /** On agreeing books no valid action trips an internal guard. */
  lemma PerformErrors(s: Books, action: Action)
    requires Agree(s) && BordersFit(s.balances) && Objection(action).None?
    ensures Orderly(action, Perform(s, action))
  {
    if IsMoving(action) {
      MovingOrderly(s, action);
    } else if IsTrade(action) {
      TradeOrderly(s, action);
    } else {
      PairOrderly(s, action);
    }
  }
}
