/** Exactly when each of the ten actions succeeds, by the amounts and balances alone. */
module LedgerSuccess {
  import opened Results
  import opened Arithmetic
  import opened LedgerTypes
  import opened DoubleEntry
  import opened LedgerSpec
  import opened LedgerInvariant
  import opened LedgerTransitions
  import opened LedgerTotals
  import opened LedgerSafety

  // ----- the conditions -----

  /** What an action asks of the reservation, lock or balances it draws on. */
  predicate Meets(s: Books, action: Action) {
    match action
    case FundCollateral(_) => true
    case ReserveCollateral(id, amount) => id !in s.reservations && amount <= Bal(s.balances, Money(CashAvailable))
    case ReserveToken(id, token, quantity) =>
      id !in s.reservations && quantity <= Bal(s.balances, Key(TokenAvailable, Outcome(token)))
    case ReleaseReservation(id) => id in s.reservations && s.reservations[id].status.Active?
    case ConfirmBuy(id, _, _, consideration, fee, _) => CashWithin(s, id, consideration + fee)
    case ConfirmSell(id, quantity, _, _, _) => TokensWithin(s, id, quantity)
    case LockPair(id, up, down, quantity) =>
      && id !in s.locks
      && quantity <= Bal(s.balances, Key(TokenAvailable, Outcome(up)))
      && quantity <= Bal(s.balances, Key(TokenAvailable, Outcome(down)))
    case ConfirmMerge(id, _) => id in s.locks && s.locks[id].status.Locked?
    case ConfirmSplit(id, _, _, quantity, _) => CashWithin(s, id, quantity)
    case ConfirmRedemption(id, quantity, _, _) => TokensWithin(s, id, quantity)
  }

  /** The account stays in range when the amount is added. */
  predicate Room(s: Books, k: Key, amount: int) {
    Fits(Bal(s.balances, k) + amount)
  }

  /** A disposal's product is in range; disposing of the whole position takes none. */
  predicate ShareFits(s: Books, token: TokenKey, quantity: int) {
    var p := Position(s.costs, token);
    p.quantity == quantity || Fits(p.cost * quantity + p.quantity - 1)
  }

  /** The cost of the share: all of it for the whole position, else rounded up. */
  function ShareCost(s: Books, token: TokenKey, quantity: int): int {
    var p := Position(s.costs, token);
    if p.quantity == quantity || p.quantity == 0 then p.cost else (p.cost * quantity + p.quantity - 1) / p.quantity
  }

  predicate TokensArrive(s: Books, token: TokenKey, quantity: int, cost: int) {
    && Room(s, Key(TokenAvailable, Outcome(token)), quantity) && Room(s, Key(External, Outcome(token)), -quantity)
    && Room(s, CostKey(token), cost) && Fits(Position(s.costs, token).quantity + quantity)
  }

  predicate ProceedsFit(s: Books, token: TokenKey, quantity: int, gross: int, fee: int) {
    && ShareFits(s, token, quantity)
    && Room(s, Key(External, Outcome(token)), quantity)
    && Room(s, Money(CashAvailable), gross - fee) && Room(s, Money(FeeExpense), fee)
    && Room(s, Money(TradingRevenue), -gross) && Room(s, Money(CostOfGoodsSold), ShareCost(s, token, quantity))
  }

  predicate MergeFits(s: Books, l: PairLock) {
    && Room(s, Key(External, Outcome(l.up)), l.quantity) && Room(s, Key(External, Outcome(l.down)), l.quantity)
    && Room(s, Money(CashAvailable), l.payout) && Room(s, Money(TradingRevenue), -l.payout)
    && Room(s, Money(CostOfGoodsSold), l.cost)
  }

  /** The amounts stay in range, in the accounts, the position and the allocated cost. */
  predicate AmountsFit(s: Books, action: Action)
    requires Meets(s, action)
  {
    match action
    case FundCollateral(amount) =>
      Room(s, Money(CashAvailable), amount) && Room(s, Money(CapitalContributed), -(amount as int))
    case ReserveCollateral(_, _) => true
    case ReserveToken(_, _, _) => true
    case ReleaseReservation(_) => true
    case ConfirmBuy(_, token, quantity, consideration, fee, _) =>
      TokensArrive(s, token, quantity, consideration) && Room(s, Money(FeeExpense), fee)
    case ConfirmSell(id, quantity, gross, fee, _) =>
      ProceedsFit(s, s.reservations[id].asset.token, quantity, gross, fee)
    case LockPair(_, up, down, quantity) =>
      && ShareFits(s, up, quantity) && ShareFits(s, down, quantity)
      && Fits(ShareCost(s, up, quantity) + ShareCost(s, down, quantity))
    case ConfirmMerge(id, _) => MergeFits(s, s.locks[id])
    case ConfirmSplit(_, up, down, quantity, _) =>
      TokensArrive(s, up, quantity, quantity / 2) && TokensArrive(s, down, quantity, quantity - quantity / 2)
    case ConfirmRedemption(id, quantity, payout, _) =>
      ProceedsFit(s, s.reservations[id].asset.token, quantity, payout, 0)
  }

  // ----- cost allocation -----

  /** The allocated cost exists exactly when the position covers the quantity and its product is in range. */
  lemma AllocateExactly(s: Books, token: TokenKey, quantity: int)
    requires Agree(s) && BordersFit(s.balances) && 0 < quantity <= I128_MAX
    ensures var p := Position(s.costs, token);
      var r := AllocateCost(p, quantity);
      && (r.Ok? <==> quantity <= p.quantity && ShareFits(s, token, quantity))
      && (r.Ok? ==> r.value == ShareCost(s, token, quantity) && 0 <= r.value <= p.cost)
  {
    var p := Position(s.costs, token);
    PositionSigns(s, token);
    PositionFits(s, token);
    MulMonotone(0, p.cost, quantity);
    if AllocateCost(p, quantity).Ok? {
      AllocateBounds(p, quantity);
    }
  }

  lemma PositionFits(s: Books, token: TokenKey)
    requires Agree(s) && BordersFit(s.balances)
    ensures 0 <= Position(s.costs, token).quantity <= I128_MAX
  {
    assert PositionBacked(s, token);
    FrontBounds(s.balances, Outcome(token), {2, 3}, 4);
  }

  // ----- the transactions -----

  lemma FundRuns(amount: int)
    requires 0 < amount <= I128_MAX
    ensures RunningFit(FundTx(amount))
  {
    forall a ensures StepsFit(FundTx(amount), a) {}
    RunningFitBySteps(FundTx(amount));
  }

  lemma BuyRuns(id: Id, token: TokenKey, quantity: int, consideration: int, fee: int)
    requires 0 < quantity <= I128_MAX && 0 < consideration && 0 <= fee && consideration + fee <= I128_MAX
    ensures RunningFit(BuyTx(id, token, quantity, consideration, fee))
  {
    forall a ensures StepsFit(BuyTx(id, token, quantity, consideration, fee), a) {}
    RunningFitBySteps(BuyTx(id, token, quantity, consideration, fee));
  }

  lemma SellRuns(id: Id, token: TokenKey, quantity: int, gross: int, fee: int, cost: int)
    requires 0 < quantity <= I128_MAX && 0 <= fee <= gross <= I128_MAX && 0 <= cost <= I128_MAX
    ensures RunningFit(SellTx(id, token, quantity, gross, fee, cost))
  {
    forall a ensures StepsFit(SellTx(id, token, quantity, gross, fee, cost), a) {}
    RunningFitBySteps(SellTx(id, token, quantity, gross, fee, cost));
  }

  lemma RedeemRuns(id: Id, token: TokenKey, quantity: int, payout: int, cost: int)
    requires 0 < quantity <= I128_MAX && 0 <= payout <= I128_MAX && 0 <= cost <= I128_MAX
    ensures RunningFit(RedeemTx(id, token, quantity, payout, cost))
  {
    forall a ensures StepsFit(RedeemTx(id, token, quantity, payout, cost), a) {}
    RunningFitBySteps(RedeemTx(id, token, quantity, payout, cost));
  }

  lemma LockRuns(id: Id, up: TokenKey, down: TokenKey, quantity: int, upCost: int, downCost: int)
    requires 0 < quantity <= I128_MAX && up != down
    requires 0 <= upCost && 0 <= downCost && upCost + downCost <= I128_MAX
    ensures RunningFit(LockTx(id, up, down, quantity, upCost, downCost))
  {
    forall a ensures StepsFit(LockTx(id, up, down, quantity, upCost, downCost), a) {}
    RunningFitBySteps(LockTx(id, up, down, quantity, upCost, downCost));
  }

  lemma MergeRuns(l: PairLock)
    requires GoodLock(l, l.id)
    ensures RunningFit(MergeTx(l))
  {
    forall a ensures StepsFit(MergeTx(l), a) {}
    RunningFitBySteps(MergeTx(l));
  }

  lemma SplitRuns(id: Id, up: TokenKey, down: TokenKey, quantity: int)
    requires 0 < quantity <= I128_MAX && up != down
    ensures RunningFit(SplitTx(id, up, down, quantity))
  {
    forall a ensures StepsFit(SplitTx(id, up, down, quantity), a) {}
    RunningFitBySteps(SplitTx(id, up, down, quantity));
  }

  lemma TakesUnrolled(b: Balances, ps: seq<Posting>)
    requires |ps| <= 8
    ensures (forall i :: 0 <= i < |ps| ==> Takes(b, ps[i])) <==>
      && (|ps| > 0 ==> Takes(b, ps[0])) && (|ps| > 1 ==> Takes(b, ps[1])) && (|ps| > 2 ==> Takes(b, ps[2]))
      && (|ps| > 3 ==> Takes(b, ps[3])) && (|ps| > 4 ==> Takes(b, ps[4])) && (|ps| > 5 ==> Takes(b, ps[5]))
      && (|ps| > 6 ==> Takes(b, ps[6])) && (|ps| > 7 ==> Takes(b, ps[7]))
  {
  }

  /** A well-formed transaction of an agreeing ledger is posted exactly when each of its accounts can take it. */
  lemma PostsExactly(s: Books, ps: seq<Posting>)
    requires Agree(s) && WellFormed(ps) && RunningFit(ps)
    ensures Post(s.balances, ps).Ok? <==>
      && (|ps| > 0 ==> Takes(s.balances, ps[0])) && (|ps| > 1 ==> Takes(s.balances, ps[1]))
      && (|ps| > 2 ==> Takes(s.balances, ps[2])) && (|ps| > 3 ==> Takes(s.balances, ps[3]))
      && (|ps| > 4 ==> Takes(s.balances, ps[4])) && (|ps| > 5 ==> Takes(s.balances, ps[5]))
      && (|ps| > 6 ==> Takes(s.balances, ps[6])) && (|ps| > 7 ==> Takes(s.balances, ps[7]))
  {
    PostExactly(s.balances, ps);
    TakesUnrolled(s.balances, ps);
  }

  /** A credit to an account that may not be negative only needs room. */
  lemma CreditTakes(s: Books, k: Key, amount: int)
    requires Agree(s) && 0 <= amount
    ensures Takes(s.balances, Posting(k, amount)) <==> Room(s, k, amount)
  {
    if RequiresNonNegative(k.account) {
      NonNegatives(s.balances, k);
    }
  }

  /** A debit that the balance covers is always taken. */
  lemma DebitTakes(s: Books, k: Key, amount: int)
    requires Agree(s) && 0 <= amount <= Bal(s.balances, k)
    ensures Takes(s.balances, Posting(k, -amount))
  {
    if k in s.balances {
      assert EntryOk(s.balances, k);
    }
  }

  /** An account that may be negative only needs room. */
  lemma OutsideTakes(s: Books, k: Key, amount: int)
    requires !RequiresNonNegative(k.account)
    ensures Takes(s.balances, Posting(k, amount)) <==> Room(s, k, amount)
  {
  }

  // ----- fund -----

  lemma FundExactly(s: Books, amount: int)
    requires Agree(s) && 0 < amount <= I128_MAX
    ensures Fund(s, amount).Ok?
       <==> Room(s, Money(CashAvailable), amount) && Room(s, Money(CapitalContributed), -amount)
  {
    FundTxWellFormed(amount);
    FundRuns(amount);
    PostsExactly(s, FundTx(amount));
    CreditTakes(s, Money(CashAvailable), amount);
    OutsideTakes(s, Money(CapitalContributed), -amount);
  }

  // ----- buy -----

  lemma BuyPosts(s: Books, id: Id, token: TokenKey, quantity: int, consideration: int, fee: int)
    requires Agree(s) && 0 < quantity <= I128_MAX && 0 < consideration && 0 <= fee
    requires CashWithin(s, id, consideration + fee)
    ensures Post(s.balances, BuyTx(id, token, quantity, consideration, fee)).Ok? <==>
      && Room(s, CostKey(token), consideration) && Room(s, Money(FeeExpense), fee)
      && Room(s, Key(TokenAvailable, Outcome(token)), quantity) && Room(s, Key(External, Outcome(token)), -quantity)
  {
    BuyTxWellFormed(id, token, quantity, consideration, fee);
    BuyRuns(id, token, quantity, consideration, fee);
    PostsExactly(s, BuyTx(id, token, quantity, consideration, fee));
    DebitTakes(s, HeldKey(id, Cash), consideration + fee);
    CreditTakes(s, CostKey(token), consideration);
    CreditTakes(s, Money(FeeExpense), fee);
    CreditTakes(s, Key(TokenAvailable, Outcome(token)), quantity);
    OutsideTakes(s, Key(External, Outcome(token)), -quantity);
  }

  lemma BuyNeeds(s: Books, id: Id, token: TokenKey, quantity: int, consideration: int, fee: int)
    requires ReservationsBacked(s) && 0 < consideration && 0 <= fee
    ensures Buy(s, id, token, quantity, consideration, fee).Ok? <==>
      && CashWithin(s, id, consideration + fee)
      && Post(s.balances, BuyTx(id, token, quantity, consideration, fee)).Ok?
      && AddCost(s.costs, token, quantity, consideration).Ok?
  {
  }

  lemma AddsExactly(s: Books, token: TokenKey, quantity: int, cost: int)
    requires Agree(s)
    ensures AddCost(s.costs, token, quantity, cost).Ok? <==>
      Fits(Position(s.costs, token).quantity + quantity) && Room(s, CostKey(token), cost)
  {
    assert PositionBacked(s, token);
  }

  lemma BuyExactly(s: Books, id: Id, token: TokenKey, quantity: int, consideration: int, fee: int)
    requires Agree(s) && 0 < quantity <= I128_MAX && 0 < consideration && 0 <= fee
    ensures Buy(s, id, token, quantity, consideration, fee).Ok? <==>
      && CashWithin(s, id, consideration + fee)
      && TokensArrive(s, token, quantity, consideration) && Room(s, Money(FeeExpense), fee)
  {
    BuyNeeds(s, id, token, quantity, consideration, fee);
    AddsExactly(s, token, quantity, consideration);
    if CashWithin(s, id, consideration + fee) {
      BuyPosts(s, id, token, quantity, consideration, fee);
    }
  }

  // ----- sell and redeem -----

  /** A position's cost is what its account carries. */
  lemma CostCovers(s: Books, token: TokenKey, cost: int)
    requires Agree(s) && cost <= Position(s.costs, token).cost
    ensures cost <= Bal(s.balances, CostKey(token)) && cost <= I128_MAX
  {
    assert PositionBacked(s, token);
    PositionSigns(s, token);
  }

  lemma SellTxPosts(s: Books, id: Id, token: TokenKey, quantity: int, gross: int, fee: int, cost: int)
    requires Agree(s) && 0 < quantity <= I128_MAX && 0 <= fee <= gross <= I128_MAX
    requires 0 <= cost <= Position(s.costs, token).cost
    ensures Post(s.balances, SellTx(id, token, quantity, gross, fee, cost)).Ok? <==>
      && Takes(s.balances, Posting(HeldKey(id, Token(token)), -quantity))
      && Takes(s.balances, Posting(Key(External, Outcome(token)), quantity))
      && Takes(s.balances, Posting(Money(CashAvailable), gross - fee))
      && Takes(s.balances, Posting(Money(FeeExpense), fee))
      && Takes(s.balances, Posting(Money(TradingRevenue), -gross))
      && Takes(s.balances, Posting(CostKey(token), -cost))
      && Takes(s.balances, Posting(Money(CostOfGoodsSold), cost))
  {
    CostCovers(s, token, cost);
    SellTxWellFormed(id, token, quantity, gross, fee, cost);
    SellRuns(id, token, quantity, gross, fee, cost);
    PostsExactly(s, SellTx(id, token, quantity, gross, fee, cost));
  }

  lemma RedeemTxPosts(s: Books, id: Id, token: TokenKey, quantity: int, payout: int, cost: int)
    requires Agree(s) && 0 < quantity <= I128_MAX && 0 <= payout <= quantity
    requires 0 <= cost <= Position(s.costs, token).cost
    ensures Post(s.balances, RedeemTx(id, token, quantity, payout, cost)).Ok? <==>
      && Takes(s.balances, Posting(HeldKey(id, Token(token)), -quantity))
      && Takes(s.balances, Posting(Key(External, Outcome(token)), quantity))
      && Takes(s.balances, Posting(Money(CashAvailable), payout))
      && Takes(s.balances, Posting(Money(TradingRevenue), -payout))
      && Takes(s.balances, Posting(CostKey(token), -cost))
      && Takes(s.balances, Posting(Money(CostOfGoodsSold), cost))
  {
    CostCovers(s, token, cost);
    RedeemTxWellFormed(id, token, quantity, payout, cost);
    RedeemRuns(id, token, quantity, payout, cost);
    PostsExactly(s, RedeemTx(id, token, quantity, payout, cost));
  }

  lemma SellPosts(s: Books, id: Id, token: TokenKey, quantity: int, gross: int, fee: int, cost: int)
    requires Agree(s) && 0 < quantity <= I128_MAX && 0 <= fee <= gross <= I128_MAX
    requires TokensWithin(s, id, quantity) && s.reservations[id].asset == Token(token)
    requires 0 <= cost <= Position(s.costs, token).cost
    ensures Post(s.balances, SellTx(id, token, quantity, gross, fee, cost)).Ok? <==>
      && Room(s, Key(External, Outcome(token)), quantity)
      && Room(s, Money(CashAvailable), gross - fee) && Room(s, Money(FeeExpense), fee)
      && Room(s, Money(TradingRevenue), -gross) && Room(s, Money(CostOfGoodsSold), cost)
  {
    SellTxPosts(s, id, token, quantity, gross, fee, cost);
    CostCovers(s, token, cost);
    DebitTakes(s, HeldKey(id, Token(token)), quantity);
    OutsideTakes(s, Key(External, Outcome(token)), quantity);
    CreditTakes(s, Money(CashAvailable), gross - fee);
    CreditTakes(s, Money(FeeExpense), fee);
    OutsideTakes(s, Money(TradingRevenue), -gross);
    DebitTakes(s, CostKey(token), cost);
    CreditTakes(s, Money(CostOfGoodsSold), cost);
  }

  lemma RedeemPosts(s: Books, id: Id, token: TokenKey, quantity: int, payout: int, cost: int)
    requires Agree(s) && 0 < quantity <= I128_MAX && 0 <= payout <= quantity
    requires TokensWithin(s, id, quantity) && s.reservations[id].asset == Token(token)
    requires 0 <= cost <= Position(s.costs, token).cost
    ensures Post(s.balances, RedeemTx(id, token, quantity, payout, cost)).Ok? <==>
      && Room(s, Key(External, Outcome(token)), quantity)
      && Room(s, Money(CashAvailable), payout)
      && Room(s, Money(TradingRevenue), -payout) && Room(s, Money(CostOfGoodsSold), cost)
  {
    RedeemTxPosts(s, id, token, quantity, payout, cost);
    CostCovers(s, token, cost);
    DebitTakes(s, HeldKey(id, Token(token)), quantity);
    OutsideTakes(s, Key(External, Outcome(token)), quantity);
    CreditTakes(s, Money(CashAvailable), payout);
    OutsideTakes(s, Money(TradingRevenue), -payout);
    DebitTakes(s, CostKey(token), cost);
    CreditTakes(s, Money(CostOfGoodsSold), cost);
  }

  /** A disposal of what the reservation holds never fails in the position. */
  lemma Disposable(s: Books, id: Id, token: TokenKey, quantity: int)
    requires Agree(s) && BordersFit(s.balances) && 0 < quantity <= I128_MAX
    requires TokensWithin(s, id, quantity) && s.reservations[id].asset == Token(token)
    ensures quantity <= Position(s.costs, token).quantity
    ensures AllocateCost(Position(s.costs, token), quantity).Ok? <==> ShareFits(s, token, quantity)
    ensures ShareFits(s, token, quantity) ==>
      var cost := ShareCost(s, token, quantity);
      && AllocateCost(Position(s.costs, token), quantity) == Ok(cost)
      && 0 <= cost <= Position(s.costs, token).cost
      && ReduceCost(s.costs, token, quantity, cost).Ok?
  {
    ReservedTokensCovered(s, id, quantity);
    AllocateExactly(s, token, quantity);
    PositionFits(s, token);
    PositionSigns(s, token);
    if ShareFits(s, token, quantity) {
      AllocateBounds(Position(s.costs, token), quantity);
    }
  }

  lemma SellNeeds(s: Books, id: Id, token: TokenKey, quantity: int, gross: int, fee: int)
    requires ReservationsBacked(s) && 0 < quantity && 0 <= fee <= gross <= I128_MAX
    requires TokensWithin(s, id, quantity) ==> s.reservations[id].asset == Token(token)
    ensures Sell(s, id, quantity, gross, fee).Ok? <==>
      && TokensWithin(s, id, quantity)
      && AllocateCost(Position(s.costs, token), quantity).Ok?
      && var cost := AllocateCost(Position(s.costs, token), quantity).value;
         && Post(s.balances, SellTx(id, token, quantity, gross, fee, cost)).Ok?
         && ReduceCost(s.costs, token, quantity, cost).Ok?
  {
  }

  lemma RedeemNeeds(s: Books, id: Id, token: TokenKey, quantity: int, payout: int)
    requires ReservationsBacked(s) && 0 < quantity && 0 <= payout <= quantity
    requires TokensWithin(s, id, quantity) ==> s.reservations[id].asset == Token(token)
    ensures Redeem(s, id, quantity, payout).Ok? <==>
      && TokensWithin(s, id, quantity)
      && AllocateCost(Position(s.costs, token), quantity).Ok?
      && var cost := AllocateCost(Position(s.costs, token), quantity).value;
         && Post(s.balances, RedeemTx(id, token, quantity, payout, cost)).Ok?
         && ReduceCost(s.costs, token, quantity, cost).Ok?
  {
  }

  lemma SellExactly(s: Books, id: Id, quantity: int, gross: int, fee: int)
    requires Agree(s) && BordersFit(s.balances) && 0 < quantity <= I128_MAX && 0 <= fee <= gross <= I128_MAX
    ensures Sell(s, id, quantity, gross, fee).Ok? <==>
      TokensWithin(s, id, quantity) && ProceedsFit(s, s.reservations[id].asset.token, quantity, gross, fee)
  {
    if TokensWithin(s, id, quantity) {
      var token := s.reservations[id].asset.token;
      SellNeeds(s, id, token, quantity, gross, fee);
      Disposable(s, id, token, quantity);
      if ShareFits(s, token, quantity) {
        SellPosts(s, id, token, quantity, gross, fee, ShareCost(s, token, quantity));
      }
    } else {
      SellErrorsOutside(s, id, quantity, gross, fee);
    }
  }

  lemma RedeemExactly(s: Books, id: Id, quantity: int, payout: int)
    requires Agree(s) && BordersFit(s.balances) && 0 < quantity <= I128_MAX && 0 <= payout <= quantity
    ensures Redeem(s, id, quantity, payout).Ok? <==>
      TokensWithin(s, id, quantity) && ProceedsFit(s, s.reservations[id].asset.token, quantity, payout, 0)
  {
    if TokensWithin(s, id, quantity) {
      var token := s.reservations[id].asset.token;
      RedeemNeeds(s, id, token, quantity, payout);
      Disposable(s, id, token, quantity);
      FeeUntouched(s);
      if ShareFits(s, token, quantity) {
        RedeemPosts(s, id, token, quantity, payout, ShareCost(s, token, quantity));
      }
    } else {
      RedeemNeeds(s, id, TokenKey([], []), quantity, payout);
    }
  }

  lemma FeeUntouched(s: Books)
    requires Agree(s)
    ensures Room(s, Money(FeeExpense), 0)
  {
    if Money(FeeExpense) in s.balances {
      assert EntryOk(s.balances, Money(FeeExpense));
    }
  }

  // ----- lock -----

  lemma LockTxPosts(s: Books, id: Id, up: TokenKey, down: TokenKey, quantity: int, upCost: int, downCost: int)
    requires Agree(s) && 0 < quantity <= I128_MAX && up != down
    requires 0 <= upCost && 0 <= downCost && upCost + downCost <= I128_MAX
    ensures Post(s.balances, LockTx(id, up, down, quantity, upCost, downCost)).Ok? <==>
      && Takes(s.balances, Posting(Key(TokenAvailable, Outcome(up)), -quantity))
      && Takes(s.balances, Posting(LockKey(id, up), quantity))
      && Takes(s.balances, Posting(Key(TokenAvailable, Outcome(down)), -quantity))
      && Takes(s.balances, Posting(LockKey(id, down), quantity))
      && Takes(s.balances, Posting(CostKey(up), -upCost))
      && Takes(s.balances, Posting(CostKey(down), -downCost))
      && Takes(s.balances, Posting(LockCostKey(id), upCost + downCost))
  {
    LockTxWellFormed(id, up, down, quantity, upCost, downCost);
    LockRuns(id, up, down, quantity, upCost, downCost);
    PostsExactly(s, LockTx(id, up, down, quantity, upCost, downCost));
  }

  /** A new lock's accounts are empty. */
  lemma NewLockEmpty(s: Books, id: Id, token: TokenKey)
    requires Agree(s) && id !in s.locks
    ensures Bal(s.balances, LockKey(id, token)) == 0 && Bal(s.balances, LockCostKey(id)) == 0
  {
  }

  lemma LockPosts(s: Books, id: Id, up: TokenKey, down: TokenKey, quantity: int, upCost: int, downCost: int)
    requires Agree(s) && 0 < quantity <= I128_MAX && up != down && id !in s.locks
    requires 0 <= upCost <= Position(s.costs, up).cost && 0 <= downCost <= Position(s.costs, down).cost
    requires upCost + downCost <= I128_MAX
    ensures Post(s.balances, LockTx(id, up, down, quantity, upCost, downCost)).Ok? <==>
      && quantity <= Bal(s.balances, Key(TokenAvailable, Outcome(up)))
      && quantity <= Bal(s.balances, Key(TokenAvailable, Outcome(down)))
  {
    LockTxPosts(s, id, up, down, quantity, upCost, downCost);
    NewLockEmpty(s, id, up);
    NewLockEmpty(s, id, down);
    CostCovers(s, up, upCost);
    CostCovers(s, down, downCost);
    DebitTakes(s, CostKey(up), upCost);
    DebitTakes(s, CostKey(down), downCost);
    if quantity <= Bal(s.balances, Key(TokenAvailable, Outcome(up))) {
      DebitTakes(s, Key(TokenAvailable, Outcome(up)), quantity);
    }
    if quantity <= Bal(s.balances, Key(TokenAvailable, Outcome(down))) {
      DebitTakes(s, Key(TokenAvailable, Outcome(down)), quantity);
    }
  }

  lemma LockNeeds(s: Books, id: Id, up: TokenKey, down: TokenKey, quantity: int)
    ensures Lock(s, id, up, down, quantity).Ok? <==>
      && id !in s.locks && IsPair(up, down)
      && AllocateCost(Position(s.costs, up), quantity).Ok? && AllocateCost(Position(s.costs, down), quantity).Ok?
      && var upCost := AllocateCost(Position(s.costs, up), quantity).value;
         var downCost := AllocateCost(Position(s.costs, down), quantity).value;
         && Fits(upCost + downCost)
         && Post(s.balances, LockTx(id, up, down, quantity, upCost, downCost)).Ok?
         && ReduceCost(s.costs, up, quantity, upCost).Ok?
         && ReduceCost(ReduceCost(s.costs, up, quantity, upCost).value, down, quantity, downCost).Ok?
  {
  }

  /** Reducing two different positions by what they allocate never fails. */
  lemma BothReduce(s: Books, up: TokenKey, down: TokenKey, quantity: int, upCost: int, downCost: int)
    requires Agree(s) && BordersFit(s.balances) && up != down && 0 < quantity <= I128_MAX
    requires AllocateCost(Position(s.costs, up), quantity) == Ok(upCost)
    requires AllocateCost(Position(s.costs, down), quantity) == Ok(downCost)
    ensures ReduceCost(s.costs, up, quantity, upCost).Ok?
    ensures ReduceCost(ReduceCost(s.costs, up, quantity, upCost).value, down, quantity, downCost).Ok?
  {
    AllocateBounds(Position(s.costs, up), quantity);
    AllocateBounds(Position(s.costs, down), quantity);
    PositionFits(s, up);
    PositionFits(s, down);
    PositionSigns(s, up);
    PositionSigns(s, down);
  }

  lemma AvailableWithin(s: Books, token: TokenKey, quantity: int)
    requires Agree(s) && 0 < quantity <= Bal(s.balances, Key(TokenAvailable, Outcome(token)))
    ensures quantity <= Position(s.costs, token).quantity
  {
    AvailableInPosition(s, token, quantity);
  }

  lemma LockExactly(s: Books, id: Id, up: TokenKey, down: TokenKey, quantity: int)
    requires Agree(s) && BordersFit(s.balances) && 0 < quantity <= I128_MAX && IsPair(up, down)
    ensures Lock(s, id, up, down, quantity).Ok? <==>
      && id !in s.locks
      && quantity <= Bal(s.balances, Key(TokenAvailable, Outcome(up)))
      && quantity <= Bal(s.balances, Key(TokenAvailable, Outcome(down)))
      && ShareFits(s, up, quantity) && ShareFits(s, down, quantity)
      && Fits(ShareCost(s, up, quantity) + ShareCost(s, down, quantity))
  {
    LockNeeds(s, id, up, down, quantity);
    AllocateExactly(s, up, quantity);
    AllocateExactly(s, down, quantity);
    var u, d := AllocateCost(Position(s.costs, up), quantity), AllocateCost(Position(s.costs, down), quantity);
    if id !in s.locks && u.Ok? && d.Ok? && Fits(u.value + d.value) {
      LockPosts(s, id, up, down, quantity, u.value, d.value);
      BothReduce(s, up, down, quantity, u.value, d.value);
    }
    if quantity <= Bal(s.balances, Key(TokenAvailable, Outcome(up))) {
      AvailableWithin(s, up, quantity);
    }
    if quantity <= Bal(s.balances, Key(TokenAvailable, Outcome(down))) {
      AvailableWithin(s, down, quantity);
    }
  }

  lemma LockInRange(s: Books, id: Id, up: TokenKey, down: TokenKey, quantity: int, upCost: int, downCost: int)
    requires Agree(s) && BordersFit(s.balances) && 0 < quantity <= I128_MAX && up != down && id !in s.locks
    requires 0 <= upCost <= Position(s.costs, up).cost && 0 <= downCost <= Position(s.costs, down).cost
    requires upCost + downCost <= I128_MAX
    ensures InRange(s.balances, LockTx(id, up, down, quantity, upCost, downCost))
  {
    NewLockEmpty(s, id, up);
    NewLockEmpty(s, id, down);
    BalanceFits(s, Key(TokenAvailable, Outcome(up)));
    BalanceFits(s, Key(TokenAvailable, Outcome(down)));
    BalanceFits(s, CostKey(up));
    BalanceFits(s, CostKey(down));
    CostCovers(s, up, upCost);
    CostCovers(s, down, downCost);
  }

  lemma BalanceFits(s: Books, k: Key)
    requires Agree(s) && RequiresNonNegative(k.account)
    ensures 0 <= Bal(s.balances, k) <= I128_MAX
  {
    NonNegatives(s.balances, k);
    if k in s.balances {
      assert EntryOk(s.balances, k);
    }
  }

  /** How a pair lock that is not granted is refused: by its id, each side's position and product, or its balances. */
  lemma LockRefusals(s: Books, id: Id, up: TokenKey, down: TokenKey, quantity: int)
    requires Agree(s) && BordersFit(s.balances) && 0 < quantity <= I128_MAX && IsPair(up, down)
    requires Lock(s, id, up, down, quantity).Err?
    ensures Lock(s, id, up, down, quantity).error ==
      if id in s.locks then LockExists
      else if Position(s.costs, up).quantity < quantity then InventoryInsufficient
      else if !ShareFits(s, up, quantity) then Overflow
      else if Position(s.costs, down).quantity < quantity then InventoryInsufficient
      else if !ShareFits(s, down, quantity) || !Fits(ShareCost(s, up, quantity) + ShareCost(s, down, quantity))
      then Overflow
      else NegativeBalance
  {
    AllocateExactly(s, up, quantity);
    AllocateExactly(s, down, quantity);
    var u, d := AllocateCost(Position(s.costs, up), quantity), AllocateCost(Position(s.costs, down), quantity);
    if u.Err? {
      AllocateErrors(s, up, quantity);
    }
    if d.Err? {
      AllocateErrors(s, down, quantity);
    }
    if id !in s.locks && u.Ok? && d.Ok? && Fits(u.value + d.value) {
      var ps := LockTx(id, up, down, quantity, u.value, d.value);
      LockTxWellFormed(id, up, down, quantity, u.value, d.value);
      LockRuns(id, up, down, quantity, u.value, d.value);
      LockInRange(s, id, up, down, quantity, u.value, d.value);
      PostInRange(s.balances, ps);
      BothReduce(s, up, down, quantity, u.value, d.value);
    }
  }

  lemma AllocateErrors(s: Books, token: TokenKey, quantity: int)
    requires Agree(s) && 0 < quantity && AllocateCost(Position(s.costs, token), quantity).Err?
    ensures AllocateCost(Position(s.costs, token), quantity).error
         == if Position(s.costs, token).quantity < quantity then InventoryInsufficient else Overflow
  {
    PositionSigns(s, token);
  }

  // ----- merge -----

  lemma MergeTxPosts(s: Books, l: PairLock)
    requires Agree(s) && GoodLock(l, l.id)
    ensures Post(s.balances, MergeTx(l)).Ok? <==>
      && Takes(s.balances, Posting(LockKey(l.id, l.up), -l.quantity))
      && Takes(s.balances, Posting(Key(External, Outcome(l.up)), l.quantity))
      && Takes(s.balances, Posting(LockKey(l.id, l.down), -l.quantity))
      && Takes(s.balances, Posting(Key(External, Outcome(l.down)), l.quantity))
      && Takes(s.balances, Posting(Money(CashAvailable), l.payout))
      && Takes(s.balances, Posting(Money(TradingRevenue), -l.payout))
      && Takes(s.balances, Posting(LockCostKey(l.id), -l.cost))
      && Takes(s.balances, Posting(Money(CostOfGoodsSold), l.cost))
  {
    MergeTxWellFormed(l, l.id);
    MergeRuns(l);
    PostsExactly(s, MergeTx(l));
  }

  lemma MergeExactly(s: Books, id: Id)
    requires Agree(s)
    ensures Merge(s, id).Ok? <==> id in s.locks && s.locks[id].status.Locked? && MergeFits(s, s.locks[id])
  {
    if id in s.locks && s.locks[id].status.Locked? {
      var l := s.locks[id];
      assert l.id == id;
      MergeTxPosts(s, l);
      DebitTakes(s, LockKey(id, l.up), l.quantity);
      OutsideTakes(s, Key(External, Outcome(l.up)), l.quantity);
      DebitTakes(s, LockKey(id, l.down), l.quantity);
      OutsideTakes(s, Key(External, Outcome(l.down)), l.quantity);
      CreditTakes(s, Money(CashAvailable), l.payout);
      OutsideTakes(s, Money(TradingRevenue), -l.payout);
      DebitTakes(s, LockCostKey(id), l.cost);
      CreditTakes(s, Money(CostOfGoodsSold), l.cost);
    }
  }

  // ----- split -----

  lemma SplitTxPosts(s: Books, id: Id, up: TokenKey, down: TokenKey, quantity: int)
    requires Agree(s) && 0 < quantity <= I128_MAX && up != down
    ensures Post(s.balances, SplitTx(id, up, down, quantity)).Ok? <==>
      && Takes(s.balances, Posting(HeldKey(id, Cash), -quantity))
      && Takes(s.balances, Posting(CostKey(up), quantity / 2))
      && Takes(s.balances, Posting(CostKey(down), quantity - quantity / 2))
      && Takes(s.balances, Posting(Key(TokenAvailable, Outcome(up)), quantity))
      && Takes(s.balances, Posting(Key(External, Outcome(up)), -quantity))
      && Takes(s.balances, Posting(Key(TokenAvailable, Outcome(down)), quantity))
      && Takes(s.balances, Posting(Key(External, Outcome(down)), -quantity))
  {
    SplitTxWellFormed(id, up, down, quantity);
    SplitRuns(id, up, down, quantity);
    PostsExactly(s, SplitTx(id, up, down, quantity));
  }

  lemma SplitPosts(s: Books, id: Id, up: TokenKey, down: TokenKey, quantity: int)
    requires Agree(s) && 0 < quantity <= I128_MAX && up != down && CashWithin(s, id, quantity)
    ensures Post(s.balances, SplitTx(id, up, down, quantity)).Ok? <==>
      && Room(s, CostKey(up), quantity / 2) && Room(s, CostKey(down), quantity - quantity / 2)
      && Room(s, Key(TokenAvailable, Outcome(up)), quantity) && Room(s, Key(External, Outcome(up)), -quantity)
      && Room(s, Key(TokenAvailable, Outcome(down)), quantity) && Room(s, Key(External, Outcome(down)), -quantity)
  {
    SplitTxPosts(s, id, up, down, quantity);
    DebitTakes(s, HeldKey(id, Cash), quantity);
    CreditTakes(s, CostKey(up), quantity / 2);
    CreditTakes(s, CostKey(down), quantity - quantity / 2);
    CreditTakes(s, Key(TokenAvailable, Outcome(up)), quantity);
    OutsideTakes(s, Key(External, Outcome(up)), -quantity);
    CreditTakes(s, Key(TokenAvailable, Outcome(down)), quantity);
    OutsideTakes(s, Key(External, Outcome(down)), -quantity);
  }

  lemma SplitNeeds(s: Books, id: Id, up: TokenKey, down: TokenKey, quantity: int)
    requires ReservationsBacked(s) && 0 < quantity <= I128_MAX && IsPair(up, down)
    ensures Split(s, id, up, down, quantity).Ok? <==>
      && CashWithin(s, id, quantity)
      && Post(s.balances, SplitTx(id, up, down, quantity)).Ok?
      && AddCost(s.costs, up, quantity, quantity / 2).Ok?
      && AddCost(AddCost(s.costs, up, quantity, quantity / 2).value, down, quantity, quantity - quantity / 2).Ok?
  {
  }

  lemma SplitExactly(s: Books, id: Id, up: TokenKey, down: TokenKey, quantity: int)
    requires Agree(s) && 0 < quantity <= I128_MAX && IsPair(up, down)
    ensures Split(s, id, up, down, quantity).Ok? <==>
      && CashWithin(s, id, quantity)
      && TokensArrive(s, up, quantity, quantity / 2) && TokensArrive(s, down, quantity, quantity - quantity / 2)
  {
    SplitNeeds(s, id, up, down, quantity);
    AddsExactly(s, up, quantity, quantity / 2);
    AddsExactly(s, down, quantity, quantity - quantity / 2);
    var cs := AddCost(s.costs, up, quantity, quantity / 2);
    assert cs.Ok? ==> Position(cs.value, down) == Position(s.costs, down);
    if CashWithin(s, id, quantity) {
      SplitPosts(s, id, up, down, quantity);
    }
  }

  // ----- every action -----

  /**
   * On agreeing books whose totals fit, a valid action succeeds if and only if the reservation, lock or balance
   * it draws on covers it and its amounts fit.
   */
  lemma PerformExactly(s: Books, action: Action)
    requires Agree(s) && BordersFit(s.balances) && Objection(action).None?
    ensures Perform(s, action).Ok? <==> Meets(s, action) && AmountsFit(s, action)
  {
    match action
    case FundCollateral(amount) => FundExactly(s, amount);
    case ReserveCollateral(id, amount) => if id !in s.reservations { ReserveExactly(s, id, Cash, amount); }
    case ReserveToken(id, token, quantity) =>
      if id !in s.reservations { ReserveExactly(s, id, Token(token), quantity); }
    case ReleaseReservation(id) => if ActiveReservation(s, id).Ok? { ReleaseSucceeds(s, id); }
    case ConfirmBuy(id, token, quantity, consideration, fee, _) =>
      BuyExactly(s, id, token, quantity, consideration, fee);
    case ConfirmSell(id, quantity, gross, fee, _) => SellExactly(s, id, quantity, gross, fee);
    case LockPair(id, up, down, quantity) => LockExactly(s, id, up, down, quantity);
    case ConfirmMerge(id, _) => MergeExactly(s, id);
    case ConfirmSplit(id, up, down, quantity, _) => SplitExactly(s, id, up, down, quantity);
    case ConfirmRedemption(id, quantity, payout, _) => RedeemExactly(s, id, quantity, payout);
  }
}
