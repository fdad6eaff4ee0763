/** What buying, selling and redeeming do to cash, tokens, cost and profit, each and as a round trip. */
module TradeFlow {
  import opened Results
  import opened LedgerTypes
  import opened DoubleEntry
  import opened LedgerSpec
  import opened LedgerIdentity
  import opened PairFlow

  /** How cash, one token, fees and the realized profit moved, whatever accounts they moved through. */
  ghost predicate Moves(before: Books, after: Books, token: TokenKey, cash: int, tokens: int, fees: int, profit: int) {
    && Sum(after.balances, CASH) == Sum(before.balances, CASH) + cash
    && Sum(after.balances, TokensHeld(token)) == Sum(before.balances, TokensHeld(token)) + tokens
    && Bal(after.balances, Money(FeeExpense)) == Bal(before.balances, Money(FeeExpense)) + fees
    && RealizedValue(after.balances) == RealizedValue(before.balances) + profit
  }

  /** The same for the entries of one transaction. */
  ghost predicate TxMoves(ps: seq<Posting>, token: TokenKey, cash: int, tokens: int, fees: int, profit: int) {
    && Delta(ps, CASH) == cash
    && Delta(ps, TokensHeld(token)) == tokens
    && Delta(ps, One(Money(FeeExpense))) == fees
    && -Delta(ps, One(Money(TradingRevenue))) - Delta(ps, One(Money(CostOfGoodsSold))) - fees == profit
  }

  lemma PostedMoves(
    s: Books, s': Books, ps: seq<Posting>, token: TokenKey, cash: int, tokens: int, fees: int, profit: int)
    requires Post(s.balances, ps) == Ok(s'.balances) && TxMoves(ps, token, cash, tokens, fees, profit)
    ensures Moves(s, s', token, cash, tokens, fees, profit)
  {
    PostEffect(s.balances, ps, CASH);
    PostEffect(s.balances, ps, TokensHeld(token));
    PostBalance(s.balances, ps, Money(FeeExpense));
    PostBalance(s.balances, ps, Money(TradingRevenue));
    PostBalance(s.balances, ps, Money(CostOfGoodsSold));
  }

  predicate Watched(sel: Selector, token: TokenKey) {
    || sel == CASH || sel == TokensHeld(token) || sel == One(Money(FeeExpense))
    || sel == One(Money(TradingRevenue)) || sel == One(Money(CostOfGoodsSold))
  }

  lemma UnrollAll(ps: seq<Posting>, token: TokenKey)
    requires |ps| <= 8
    ensures forall sel | Watched(sel, token) ::
      Delta(ps, sel) == At(ps, 0, sel) + At(ps, 1, sel) + At(ps, 2, sel) + At(ps, 3, sel)
                      + At(ps, 4, sel) + At(ps, 5, sel) + At(ps, 6, sel) + At(ps, 7, sel)
  {
    forall sel { DeltaUnrolled(ps, sel); }
  }

  lemma BuyTxMoves(id: Id, token: TokenKey, quantity: int, consideration: int, fee: int)
    ensures TxMoves(BuyTx(id, token, quantity, consideration, fee), token, -consideration - fee, quantity, fee, -fee)
  {
    UnrollAll(BuyTx(id, token, quantity, consideration, fee), token);
  }

  lemma SellTxMoves(id: Id, token: TokenKey, quantity: int, gross: int, fee: int, cost: int)
    ensures TxMoves(SellTx(id, token, quantity, gross, fee, cost), token,
                    gross - fee, -quantity, fee, gross - fee - cost)
  {
    UnrollAll(SellTx(id, token, quantity, gross, fee, cost), token);
  }

  lemma RedeemTxMoves(id: Id, token: TokenKey, quantity: int, payout: int, cost: int)
    ensures TxMoves(RedeemTx(id, token, quantity, payout, cost), token, payout, -quantity, 0, payout - cost)
  {
    UnrollAll(RedeemTx(id, token, quantity, payout, cost), token);
  }

  lemma ReserveTxMoves(id: Id, asset: ReservationAsset, amount: int, token: TokenKey)
    ensures TxMoves(MoveTx(HomeKey(asset), HeldKey(id, asset), amount), token, 0, 0, 0, 0)
  {
    UnrollAll(MoveTx(HomeKey(asset), HeldKey(id, asset), amount), token);
  }

  lemma BuyPosts(s: Books, id: Id, token: TokenKey, quantity: int, consideration: int, fee: int, s': Books)
    requires Buy(s, id, token, quantity, consideration, fee) == Ok(s')
    ensures Post(s.balances, BuyTx(id, token, quantity, consideration, fee)) == Ok(s'.balances)
    ensures AddCost(s.costs, token, quantity, consideration) == Ok(s'.costs)
  {
  }

  /** A buy spends consideration and fee, gains the tokens, carries the consideration as cost and loses only the fee. */
  lemma BuyEffect(s: Books, id: Id, token: TokenKey, quantity: int, consideration: int, fee: int, s': Books)
    requires Buy(s, id, token, quantity, consideration, fee) == Ok(s')
    ensures Moves(s, s', token, -consideration - fee, quantity, fee, -fee)
    ensures var p, p' := Position(s.costs, token), Position(s'.costs, token);
      p' == CostPosition(p.quantity + quantity, p.cost + consideration)
    ensures forall t :: t != token ==> Position(s'.costs, t) == Position(s.costs, t)
  {
    BuyPosts(s, id, token, quantity, consideration, fee, s');
    BuyTxMoves(id, token, quantity, consideration, fee);
    PostedMoves(s, s', BuyTx(id, token, quantity, consideration, fee), token,
                -consideration - fee, quantity, fee, -fee);
  }

  /** The token's position gave up a quantity and a cost; no other position changed. */
  ghost predicate Disposed(
    before: map<TokenKey, CostPosition>, after: map<TokenKey, CostPosition>, token: TokenKey, quantity: int, cost: int)
  {
    && Position(after, token).quantity == Position(before, token).quantity - quantity
    && Position(after, token).cost == Position(before, token).cost - cost
    && forall t :: t != token ==> Position(after, t) == Position(before, t)
  }

  lemma SellPosts(s: Books, id: Id, quantity: int, gross: int, fee: int, s': Books, token: TokenKey, cost: int)
    requires Sell(s, id, quantity, gross, fee) == Ok(s')
    requires s.reservations[id].asset == Token(token) && AllocateCost(Position(s.costs, token), quantity) == Ok(cost)
    ensures Post(s.balances, SellTx(id, token, quantity, gross, fee, cost)) == Ok(s'.balances)
    ensures Disposed(s.costs, s'.costs, token, quantity, cost)
  {
  }

  /** A sale gains the proceeds net of the fee, gives up the tokens and realizes proceeds less fee and cost. */
  lemma SellEffect(s: Books, id: Id, quantity: int, gross: int, fee: int, s': Books)
    requires Sell(s, id, quantity, gross, fee) == Ok(s')
    ensures s.reservations[id].asset.Token?
    ensures var token := s.reservations[id].asset.token;
      var p, p' := Position(s.costs, token), Position(s'.costs, token);
      && Moves(s, s', token, gross - fee, -quantity, fee, gross - fee - (p.cost - p'.cost))
      && AllocateCost(p, quantity) == Ok(p.cost - p'.cost) && p'.quantity == p.quantity - quantity
      && forall t :: t != token ==> Position(s'.costs, t) == Position(s.costs, t)
  {
    var token := s.reservations[id].asset.token;
    var cost := AllocateCost(Position(s.costs, token), quantity).value;
    SellPosts(s, id, quantity, gross, fee, s', token, cost);
    SellTxMoves(id, token, quantity, gross, fee, cost);
    PostedMoves(s, s', SellTx(id, token, quantity, gross, fee, cost), token,
                gross - fee, -quantity, fee, gross - fee - cost);
  }

  lemma RedeemPosts(s: Books, id: Id, quantity: int, payout: int, s': Books, token: TokenKey, cost: int)
    requires Redeem(s, id, quantity, payout) == Ok(s')
    requires s.reservations[id].asset == Token(token) && AllocateCost(Position(s.costs, token), quantity) == Ok(cost)
    ensures Post(s.balances, RedeemTx(id, token, quantity, payout, cost)) == Ok(s'.balances)
    ensures Disposed(s.costs, s'.costs, token, quantity, cost)
  {
  }

  /** A redemption gains the payout, gives up the tokens and realizes payout less allocated cost, free of fees. */
  lemma RedeemEffect(s: Books, id: Id, quantity: int, payout: int, s': Books)
    requires Redeem(s, id, quantity, payout) == Ok(s')
    ensures s.reservations[id].asset.Token?
    ensures var token := s.reservations[id].asset.token;
      var p, p' := Position(s.costs, token), Position(s'.costs, token);
      && Moves(s, s', token, payout, -quantity, 0, payout - (p.cost - p'.cost))
      && AllocateCost(p, quantity) == Ok(p.cost - p'.cost) && p'.quantity == p.quantity - quantity
      && forall t :: t != token ==> Position(s'.costs, t) == Position(s.costs, t)
  {
    var token := s.reservations[id].asset.token;
    var cost := AllocateCost(Position(s.costs, token), quantity).value;
    RedeemPosts(s, id, quantity, payout, s', token, cost);
    RedeemTxMoves(id, token, quantity, payout, cost);
    PostedMoves(s, s', RedeemTx(id, token, quantity, payout, cost), token, payout, -quantity, 0, payout - cost);
  }

  /** Reserving moves money within cash, or tokens within what is held, and touches nothing else. */
  lemma ReserveEffect(s: Books, id: Id, asset: ReservationAsset, amount: int, token: TokenKey, s': Books)
    requires Reserve(s, id, asset, amount) == Ok(s')
    ensures Moves(s, s', token, 0, 0, 0, 0) && s'.costs == s.costs
    ensures s'.reservations == s.reservations[id := Reservation(id, asset, amount, amount, Active)]
  {
    ReserveTxMoves(id, asset, amount, token);
    PostedMoves(s, s', MoveTx(HomeKey(asset), HeldKey(id, asset), amount), token, 0, 0, 0, 0);
  }

  /**
   * From an empty position, buying any quantity, reserving it and disposing of all of it in one sale:
   * cash and realized profit both move by proceeds less consideration and both fees, and the position
   * is empty again.
   */
  lemma BuyReserveSell(s: Books, buy: Action, id: Id, sell: Action, s1: Books, s2: Books, s3: Books)
    requires buy.ConfirmBuy? && sell.ConfirmSell? && sell.reservationId == id && sell.quantity == buy.quantity
    requires Position(s.costs, buy.token) == CostPosition(0, 0)
    requires Perform(s, buy) == Ok(s1)
    requires Perform(s1, ReserveToken(id, buy.token, buy.quantity)) == Ok(s2)
    requires Perform(s2, sell) == Ok(s3)
    ensures var profit := sell.gross - sell.fee - buy.consideration - buy.fee;
      Moves(s, s3, buy.token, profit, 0, buy.fee + sell.fee, profit)
    ensures Position(s3.costs, buy.token) == CostPosition(0, 0)
  {
    BuyEffect(s, buy.reservationId, buy.token, buy.quantity, buy.consideration, buy.fee, s1);
    ReserveEffect(s1, id, Token(buy.token), buy.quantity, buy.token, s2);
    SellEffect(s2, id, sell.quantity, sell.gross, sell.fee, s3);
  }
}
