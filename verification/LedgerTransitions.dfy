/** Each command's transaction is well formed, and the command's other views follow it. */
module LedgerTransitions {
  import opened Results
  import opened Arithmetic
  import opened LedgerTypes
  import opened DoubleEntry
  import opened LedgerSpec
  import opened LedgerInvariant

  // ----- transactions are well formed -----

  lemma FundTxWellFormed(amount: int)
    requires 0 < amount <= I128_MAX
    ensures WellFormed(FundTx(amount))
  {
    var ps := FundTx(amount);
    CountTwo(ps, 0, 1);
    forall a ensures Delta(ps, Whole(a)) == 0 { DeltaUnrolled(ps, Whole(a)); }
  }

  lemma MoveTxWellFormed(source: Key, target: Key, amount: int)
    requires 0 < amount <= I128_MAX
    requires source != target && source.asset == target.asset
    requires Compatible(source) && RequiresNonNegative(source.account)
    requires Compatible(target) && RequiresNonNegative(target.account)
    ensures WellFormed(MoveTx(source, target, amount))
  {
    var ps := MoveTx(source, target, amount);
    CountTwo(ps, 0, 1);
    forall a ensures Delta(ps, Whole(a)) == 0 { DeltaUnrolled(ps, Whole(a)); }
  }

  lemma BuyTxWellFormed(id: Id, token: TokenKey, quantity: int, consideration: int, fee: int)
    requires 0 < quantity <= I128_MAX && 0 < consideration && 0 <= fee && consideration + fee <= I128_MAX
    ensures WellFormed(BuyTx(id, token, quantity, consideration, fee))
  {
    var ps := BuyTx(id, token, quantity, consideration, fee);
    CountTwo(ps, 3, 4);
    forall a ensures Delta(ps, Whole(a)) == 0 { DeltaUnrolled(ps, Whole(a)); }
  }

  lemma SellTxWellFormed(id: Id, token: TokenKey, quantity: int, gross: int, fee: int, cost: int)
    requires 0 < quantity <= I128_MAX && 0 <= fee <= gross <= I128_MAX && 0 <= cost <= I128_MAX
    ensures WellFormed(SellTx(id, token, quantity, gross, fee, cost))
  {
    var ps := SellTx(id, token, quantity, gross, fee, cost);
    CountTwo(ps, 0, 1);
    forall a ensures Delta(ps, Whole(a)) == 0 { DeltaUnrolled(ps, Whole(a)); }
  }

  lemma LockTxWellFormed(id: Id, up: TokenKey, down: TokenKey, quantity: int, upCost: int, downCost: int)
    requires 0 < quantity <= I128_MAX && up != down
    requires 0 <= upCost && 0 <= downCost && upCost + downCost <= I128_MAX
    ensures WellFormed(LockTx(id, up, down, quantity, upCost, downCost))
  {
    var ps := LockTx(id, up, down, quantity, upCost, downCost);
    CountTwo(ps, 0, 1);
    forall a ensures Delta(ps, Whole(a)) == 0 { DeltaUnrolled(ps, Whole(a)); }
  }

  lemma MergeTxWellFormed(l: PairLock, id: Id)
    requires GoodLock(l, id)
    ensures WellFormed(MergeTx(l))
  {
    var ps := MergeTx(l);
    CountTwo(ps, 0, 1);
    forall a ensures Delta(ps, Whole(a)) == 0 { DeltaUnrolled(ps, Whole(a)); }
  }

  lemma SplitTxWellFormed(id: Id, up: TokenKey, down: TokenKey, quantity: int)
    requires 0 < quantity <= I128_MAX && up != down
    ensures WellFormed(SplitTx(id, up, down, quantity))
  {
    var ps := SplitTx(id, up, down, quantity);
    CountTwo(ps, 3, 4);
    forall a ensures Delta(ps, Whole(a)) == 0 { DeltaUnrolled(ps, Whole(a)); }
  }

  lemma RedeemTxWellFormed(id: Id, token: TokenKey, quantity: int, payout: int, cost: int)
    requires 0 <= payout <= quantity <= I128_MAX && 0 < quantity && 0 <= cost <= I128_MAX
    ensures WellFormed(RedeemTx(id, token, quantity, payout, cost))
  {
    var ps := RedeemTx(id, token, quantity, payout, cost);
    CountTwo(ps, 0, 1);
    forall a ensures Delta(ps, Whole(a)) == 0 { DeltaUnrolled(ps, Whole(a)); }
  }

  // ----- the other views follow -----

  lemma ReservationsUntouched(s: Books, s': Books, ps: seq<Posting>)
    requires ReservationsBacked(s) && s'.reservations == s.reservations
    requires forall i :: 0 <= i < |ps| ==> !IsHeld(ps[i].key.account)
    ensures ReservationsFollow(s, s', ps)
  {
    forall id | id in s.reservations
      ensures Delta(ps, One(HeldKey(id, s.reservations[id].asset))) == 0
    {
      DeltaMiss(ps, One(HeldKey(id, s.reservations[id].asset)));
    }
  }

  /** Only the reservation posted at `i` changes. */
  lemma ReservationTouched(s: Books, s': Books, ps: seq<Posting>, i: nat, r: Reservation)
    requires ReservationsBacked(s) && s'.reservations == s.reservations[r.id := r]
    requires DistinctKeys(ps) && i < |ps| && ps[i].key == HeldKey(r.id, r.asset)
    requires forall j :: 0 <= j < |ps| && j != i ==> !IsHeld(ps[j].key.account)
    requires GoodReservation(r, r.id) && r.remaining == Remaining(s, r.id) + ps[i].delta
    requires r.id in s.reservations ==>
      s.reservations[r.id].asset == r.asset && s.reservations[r.id].original == r.original
    ensures ReservationsFollow(s, s', ps)
  {
    forall id | id in s'.reservations
      ensures s'.reservations[id].remaining
           == Remaining(s, id) + Delta(ps, One(HeldKey(id, s'.reservations[id].asset)))
    {
      if id == r.id {
        DeltaHit(ps, i);
      } else {
        DeltaMiss(ps, One(HeldKey(id, s'.reservations[id].asset)));
      }
    }
  }

  lemma LocksUntouched(s: Books, s': Books, ps: seq<Posting>)
    requires LocksBacked(s) && s'.locks == s.locks
    requires forall i :: 0 <= i < |ps| ==> !ps[i].key.account.LockedToken? && !ps[i].key.account.LockedCost?
    ensures LocksFollow(s, s', ps)
  {
    forall id | id in s.locks
      ensures Delta(ps, One(LockKey(id, s.locks[id].up))) == 0
      ensures Delta(ps, One(LockKey(id, s.locks[id].down))) == 0
      ensures Delta(ps, One(LockCostKey(id))) == 0
    {
      DeltaMiss(ps, One(LockKey(id, s.locks[id].up)));
      DeltaMiss(ps, One(LockKey(id, s.locks[id].down)));
      DeltaMiss(ps, One(LockCostKey(id)));
    }
  }

  /** Only the lock posted at `i`, `j` and `k` changes. */
  lemma LockTouched(s: Books, s': Books, ps: seq<Posting>, l: PairLock, i: nat, j: nat, k: nat)
    requires LocksBacked(s) && s'.locks == s.locks[l.id := l]
    requires l.id in s.locks ==> l.(status := Locked) == s.locks[l.id].(status := Locked)
    requires DistinctKeys(ps) && i < |ps| && j < |ps| && k < |ps|
    requires ps[i].key == LockKey(l.id, l.up) && ps[j].key == LockKey(l.id, l.down)
    requires ps[k].key == LockCostKey(l.id)
    requires forall n :: 0 <= n < |ps| && n != i && n != j && n != k ==>
      !ps[n].key.account.LockedToken? && !ps[n].key.account.LockedCost?
    requires GoodLock(l, l.id)
    requires LockedQuantity(l) == LockedBefore(s, l.id) + ps[i].delta
    requires LockedQuantity(l) == LockedBefore(s, l.id) + ps[j].delta
    requires LockedCostOf(l) == LockedCostBefore(s, l.id) + ps[k].delta
    ensures LocksFollow(s, s', ps)
  {
    forall id | id in s'.locks
      ensures var m := s'.locks[id];
        && LockedQuantity(m) == LockedBefore(s, id) + Delta(ps, One(LockKey(id, m.up)))
        && LockedQuantity(m) == LockedBefore(s, id) + Delta(ps, One(LockKey(id, m.down)))
        && LockedCostOf(m) == LockedCostBefore(s, id) + Delta(ps, One(LockCostKey(id)))
    {
      if id == l.id {
        DeltaHit(ps, i);
        DeltaHit(ps, j);
        DeltaHit(ps, k);
      } else {
        DeltaMiss(ps, One(LockKey(id, s'.locks[id].up)));
        DeltaMiss(ps, One(LockKey(id, s'.locks[id].down)));
        DeltaMiss(ps, One(LockCostKey(id)));
      }
    }
  }

  /** Part of a position's cost is released, all of it exactly when the position empties. */
  lemma AllocateBounds(p: CostPosition, quantity: int)
    requires AllocateCost(p, quantity).Ok?
    ensures var cost := AllocateCost(p, quantity).value;
      && 0 <= cost <= p.cost
      && 0 < quantity <= p.quantity
      && (quantity == p.quantity ==> cost == p.cost)
  {
    if quantity < p.quantity {
      CeilingBelow(p.cost, quantity, p.quantity);
    }
  }

  lemma CeilingBelow(c: int, d: int, q: int)
    requires 0 <= c && 0 < d < q
    ensures 0 <= (c * d + q - 1) / q <= c
  {
    MulMonotone(0, c, d);
    MulMonotone(d, q, c);
    var x := c * d;
    assert x + q - 1 < (c + 1) * q;
    FloorBelow(x + q - 1, q, c + 1);
    FloorAtLeast(x + q - 1, q, 0);
  }

  /** Cost positions hold non-negative amounts. */
  lemma PositionSigns(s: Books, token: TokenKey)
    requires Agree(s)
    ensures Position(s.costs, token).quantity >= 0
    ensures 0 <= Position(s.costs, token).cost <= I128_MAX
    ensures Position(s.costs, token).quantity == 0 ==> Position(s.costs, token).cost == 0
  {
    assert PositionBacked(s, token);
    SumSign(s.balances, Outcome(token), {2, 3});
    if CostKey(token) in s.balances {
      assert EntryOk(s.balances, CostKey(token));
    }
  }

  lemma PositionsUntouched(s: Books, s': Books, ps: seq<Posting>)
    requires Agree(s) && s'.costs == s.costs
    requires forall token :: Delta(ps, Loose(token)) == 0 && Delta(ps, One(CostKey(token))) == 0
    ensures PositionsFollow(s, s', ps)
  {
    forall token
      ensures PositionFollows(s, s', ps, token)
    {
      PositionSigns(s, token);
    }
  }

  lemma FundFollows(s: Books, amount: int)
    requires Agree(s) && 0 < amount <= I128_MAX && Fund(s, amount).Ok?
    ensures Follows(s, Fund(s, amount).value, FundTx(amount))
  {
    var s', ps := Fund(s, amount).value, FundTx(amount);
    FundTxWellFormed(amount);
    ReservationsUntouched(s, s', ps);
    LocksUntouched(s, s', ps);
    forall token ensures Delta(ps, Loose(token)) == 0 && Delta(ps, One(CostKey(token))) == 0 {
      DeltaMiss(ps, Loose(token));
      DeltaMiss(ps, One(CostKey(token)));
    }
    PositionsUntouched(s, s', ps);
  }

  lemma MoveLeavesPositions(ps: seq<Posting>, source: Key, target: Key, amount: int)
    requires ps == MoveTx(source, target, amount) && source.asset == target.asset
    requires source.account.CashAvailable? || source.account.CashReserved? || source.account.TokenAvailable?
             || source.account.TokenReserved?
    requires target.account.CashAvailable? || target.account.CashReserved? || target.account.TokenAvailable?
             || target.account.TokenReserved?
    requires source.account.CashAvailable? || source.account.CashReserved? <==>
             target.account.CashAvailable? || target.account.CashReserved?
    ensures forall token :: Delta(ps, Loose(token)) == 0 && Delta(ps, One(CostKey(token))) == 0
  {
    forall token ensures Delta(ps, Loose(token)) == 0 && Delta(ps, One(CostKey(token))) == 0 {
      DeltaUnrolled(ps, Loose(token));
      DeltaMiss(ps, One(CostKey(token)));
    }
  }

  lemma ReserveFollows(s: Books, id: Id, asset: ReservationAsset, amount: int)
    requires Agree(s) && 0 < amount <= I128_MAX && Reserve(s, id, asset, amount).Ok?
    ensures Follows(s, Reserve(s, id, asset, amount).value, MoveTx(HomeKey(asset), HeldKey(id, asset), amount))
  {
    var s' := Reserve(s, id, asset, amount).value;
    var ps := MoveTx(HomeKey(asset), HeldKey(id, asset), amount);
    MoveTxWellFormed(HomeKey(asset), HeldKey(id, asset), amount);
    ReservationTouched(s, s', ps, 1, s'.reservations[id]);
    LocksUntouched(s, s', ps);
    MoveLeavesPositions(ps, HomeKey(asset), HeldKey(id, asset), amount);
    PositionsUntouched(s, s', ps);
  }

  lemma ReleaseFollows(s: Books, id: Id)
    requires Agree(s) && Release(s, id).Ok?
    ensures var r := s.reservations[id];
      Follows(s, Release(s, id).value, MoveTx(HeldKey(id, r.asset), HomeKey(r.asset), r.remaining))
  {
    var r, s' := s.reservations[id], Release(s, id).value;
    var ps := MoveTx(HeldKey(id, r.asset), HomeKey(r.asset), r.remaining);
    MoveTxWellFormed(HeldKey(id, r.asset), HomeKey(r.asset), r.remaining);
    ReservationTouched(s, s', ps, 0, s'.reservations[id]);
    LocksUntouched(s, s', ps);
    MoveLeavesPositions(ps, HeldKey(id, r.asset), HomeKey(r.asset), r.remaining);
    PositionsUntouched(s, s', ps);
  }

  // Commands that also move cost positions: what the transaction adds, then the three views.

  lemma BuyTxDeltas(id: Id, token: TokenKey, quantity: int, consideration: int, fee: int, t: TokenKey)
    ensures var ps := BuyTx(id, token, quantity, consideration, fee);
      && Delta(ps, Loose(t)) == (if t == token then quantity else 0)
      && Delta(ps, One(CostKey(t))) == (if t == token then consideration else 0)
  {
    var ps := BuyTx(id, token, quantity, consideration, fee);
    DeltaUnrolled(ps, Loose(t));
    DeltaUnrolled(ps, One(CostKey(t)));
  }

  lemma DisposalDeltas(id: Id, token: TokenKey, quantity: int, gross: int, fee: int, cost: int, payout: int,
                       t: TokenKey)
    ensures var ps := SellTx(id, token, quantity, gross, fee, cost);
      && Delta(ps, Loose(t)) == (if t == token then -quantity else 0)
      && Delta(ps, One(CostKey(t))) == (if t == token then -cost else 0)
    ensures var ps := RedeemTx(id, token, quantity, payout, cost);
      && Delta(ps, Loose(t)) == (if t == token then -quantity else 0)
      && Delta(ps, One(CostKey(t))) == (if t == token then -cost else 0)
  {
    var ps, qs := SellTx(id, token, quantity, gross, fee, cost), RedeemTx(id, token, quantity, payout, cost);
    DeltaUnrolled(ps, Loose(t));
    DeltaUnrolled(ps, One(CostKey(t)));
    DeltaUnrolled(qs, Loose(t));
    DeltaUnrolled(qs, One(CostKey(t)));
  }

  lemma SplitTxDeltas(id: Id, up: TokenKey, down: TokenKey, quantity: int, t: TokenKey)
    requires up != down
    ensures var ps := SplitTx(id, up, down, quantity);
      && Delta(ps, Loose(t)) == (if t == up || t == down then quantity else 0)
      && Delta(ps, One(CostKey(t)))
         == (if t == up then quantity / 2 else if t == down then quantity - quantity / 2 else 0)
  {
    var ps := SplitTx(id, up, down, quantity);
    DeltaUnrolled(ps, Loose(t));
    DeltaUnrolled(ps, One(CostKey(t)));
  }

  lemma LockTxDeltas(id: Id, up: TokenKey, down: TokenKey, quantity: int, upCost: int, downCost: int, t: TokenKey)
    requires up != down
    ensures var ps := LockTx(id, up, down, quantity, upCost, downCost);
      && Delta(ps, Loose(t)) == (if t == up || t == down then -quantity else 0)
      && Delta(ps, One(CostKey(t))) == (if t == up then -upCost else if t == down then -downCost else 0)
  {
    var ps := LockTx(id, up, down, quantity, upCost, downCost);
    DeltaUnrolled(ps, Loose(t));
    DeltaUnrolled(ps, One(CostKey(t)));
  }

  /** A well-formed transaction that takes `amount` from one reservation, and touches no other and no lock. */
  ghost predicate DrawsOn(ps: seq<Posting>, id: Id, asset: ReservationAsset, amount: int) {
    && WellFormed(ps)
    && |ps| > 0 && ps[0] == Posting(HeldKey(id, asset), -amount)
    && (forall i :: 0 < i < |ps| ==> !IsHeld(ps[i].key.account))
    && (forall i :: 0 <= i < |ps| ==> !ps[i].key.account.LockedToken? && !ps[i].key.account.LockedCost?)
  }

  /** The reservation gives up what the transaction takes; locks do not change. */
  lemma DrawFollows(s: Books, s': Books, ps: seq<Posting>, id: Id, amount: int)
    requires ReservationsBacked(s) && LocksBacked(s) && ActiveReservation(s, id).Ok?
    requires 0 < amount <= s.reservations[id].remaining && DrawsOn(ps, id, s.reservations[id].asset, amount)
    requires Consume(s.reservations, id, amount) == Ok(s'.reservations) && s'.locks == s.locks
    ensures ReservationsFollow(s, s', ps) && LocksFollow(s, s', ps)
  {
    ReservationTouched(s, s', ps, 0, s'.reservations[id]);
    LocksUntouched(s, s', ps);
  }

  lemma BuyTxDraws(id: Id, token: TokenKey, quantity: int, consideration: int, fee: int)
    requires 0 < quantity <= I128_MAX && 0 < consideration && 0 <= fee && consideration + fee <= I128_MAX
    ensures DrawsOn(BuyTx(id, token, quantity, consideration, fee), id, Cash, consideration + fee)
  {
    BuyTxWellFormed(id, token, quantity, consideration, fee);
  }

  lemma SplitTxDraws(id: Id, up: TokenKey, down: TokenKey, quantity: int)
    requires 0 < quantity <= I128_MAX && up != down
    ensures DrawsOn(SplitTx(id, up, down, quantity), id, Cash, quantity)
  {
    SplitTxWellFormed(id, up, down, quantity);
  }

  lemma SellTxDraws(id: Id, token: TokenKey, quantity: int, gross: int, fee: int, cost: int)
    requires 0 < quantity <= I128_MAX && 0 <= fee <= gross <= I128_MAX && 0 <= cost <= I128_MAX
    ensures DrawsOn(SellTx(id, token, quantity, gross, fee, cost), id, Token(token), quantity)
  {
    SellTxWellFormed(id, token, quantity, gross, fee, cost);
  }

  lemma RedeemTxDraws(id: Id, token: TokenKey, quantity: int, payout: int, cost: int)
    requires 0 <= payout <= quantity <= I128_MAX && 0 < quantity && 0 <= cost <= I128_MAX
    ensures DrawsOn(RedeemTx(id, token, quantity, payout, cost), id, Token(token), quantity)
  {
    RedeemTxWellFormed(id, token, quantity, payout, cost);
  }

  /** What a successful buy posts and changes. */
  ghost predicate BuyChanges(
    s: Books, s': Books, id: Id, token: TokenKey, quantity: int, consideration: int, fee: int)
  {
    && ActiveReservation(s, id).Ok? && s.reservations[id].asset == Cash
    && consideration + fee <= s.reservations[id].remaining
    && Post(s.balances, BuyTx(id, token, quantity, consideration, fee)) == Ok(s'.balances)
    && Consume(s.reservations, id, consideration + fee) == Ok(s'.reservations)
    && AddCost(s.costs, token, quantity, consideration) == Ok(s'.costs)
    && s'.locks == s.locks
  }

  lemma BuyUnfolds(s: Books, id: Id, token: TokenKey, quantity: int, consideration: int, fee: int, s': Books)
    requires Buy(s, id, token, quantity, consideration, fee) == Ok(s')
    ensures BuyChanges(s, s', id, token, quantity, consideration, fee) && Fits(consideration + fee)
  {
  }

  lemma BuyMoves(s: Books, s': Books, id: Id, token: TokenKey, quantity: int, consideration: int, fee: int)
    requires Agree(s) && 0 < quantity <= I128_MAX && 0 < consideration && 0 <= fee && Fits(consideration + fee)
    requires BuyChanges(s, s', id, token, quantity, consideration, fee)
    ensures Follows(s, s', BuyTx(id, token, quantity, consideration, fee))
  {
    BuyTxDraws(id, token, quantity, consideration, fee);
    DrawFollows(s, s', BuyTx(id, token, quantity, consideration, fee), id, consideration + fee);
    BuyPositions(s, s', id, token, quantity, consideration, fee);
  }

  lemma BuyFollows(s: Books, id: Id, token: TokenKey, quantity: int, consideration: int, fee: int)
    requires Agree(s) && 0 < quantity <= I128_MAX && 0 < consideration && 0 <= fee
    requires Buy(s, id, token, quantity, consideration, fee).Ok?
    ensures Follows(s, Buy(s, id, token, quantity, consideration, fee).value,
                    BuyTx(id, token, quantity, consideration, fee))
  {
    var s' := Buy(s, id, token, quantity, consideration, fee).value;
    BuyUnfolds(s, id, token, quantity, consideration, fee, s');
    BuyMoves(s, s', id, token, quantity, consideration, fee);
  }

  lemma BuyPositions(s: Books, s': Books, id: Id, token: TokenKey, quantity: int, consideration: int, fee: int)
    requires Agree(s) && 0 < quantity && AddCost(s.costs, token, quantity, consideration) == Ok(s'.costs)
    ensures PositionsFollow(s, s', BuyTx(id, token, quantity, consideration, fee))
  {
    var ps := BuyTx(id, token, quantity, consideration, fee);
    forall t ensures PositionFollows(s, s', ps, t) {
      PositionSigns(s, t);
      BuyTxDeltas(id, token, quantity, consideration, fee, t);
    }
  }

  /** The shape shared by a sale and a redemption. */
  ghost predicate DisposalTx(ps: seq<Posting>, id: Id, token: TokenKey, quantity: int, cost: int) {
    && DrawsOn(ps, id, Token(token), quantity)
    && (forall t :: Delta(ps, Loose(t)) == (if t == token then -quantity else 0))
    && (forall t :: Delta(ps, One(CostKey(t))) == (if t == token then -cost else 0))
  }

  lemma DisposalPositions(s: Books, s': Books, ps: seq<Posting>, id: Id, token: TokenKey, quantity: int, cost: int)
    requires Agree(s) && DisposalTx(ps, id, token, quantity, cost)
    requires ReduceCost(s.costs, token, quantity, cost) == Ok(s'.costs)
    ensures PositionsFollow(s, s', ps)
  {
    forall t ensures PositionFollows(s, s', ps, t) {
      PositionSigns(s, t);
    }
  }

  /** Disposing of part of a reserved token: the shape shared by a sale and a redemption. */
  lemma DisposalFollows(s: Books, s': Books, ps: seq<Posting>, id: Id, token: TokenKey, quantity: int, cost: int)
    requires Agree(s) && DisposalTx(ps, id, token, quantity, cost)
    requires id in s.reservations && s.reservations[id].asset == Token(token)
    requires s.reservations[id].status.Active? && 0 < quantity <= s.reservations[id].remaining
    requires Consume(s.reservations, id, quantity) == Ok(s'.reservations)
    requires ReduceCost(s.costs, token, quantity, cost) == Ok(s'.costs)
    requires s'.locks == s.locks && Post(s.balances, ps) == Ok(s'.balances)
    ensures Follows(s, s', ps)
  {
    DrawFollows(s, s', ps, id, quantity);
    DisposalPositions(s, s', ps, id, token, quantity, cost);
  }

  /** What a successful sale or redemption posts and changes, `ps` being its transaction. */
  ghost predicate DisposalChanges(
    s: Books, s': Books, id: Id, token: TokenKey, quantity: int, cost: int, ps: seq<Posting>)
  {
    && ActiveReservation(s, id).Ok? && s.reservations[id].asset == Token(token)
    && quantity <= s.reservations[id].remaining
    && AllocateCost(Position(s.costs, token), quantity) == Ok(cost)
    && Post(s.balances, ps) == Ok(s'.balances)
    && Consume(s.reservations, id, quantity) == Ok(s'.reservations)
    && ReduceCost(s.costs, token, quantity, cost) == Ok(s'.costs)
    && s'.locks == s.locks
  }

  lemma SellUnfolds(s: Books, id: Id, quantity: int, gross: int, fee: int, s': Books)
    returns (token: TokenKey, cost: int)
    requires Sell(s, id, quantity, gross, fee) == Ok(s')
    ensures DisposalChanges(s, s', id, token, quantity, cost, SellTx(id, token, quantity, gross, fee, cost))
  {
    token := s.reservations[id].asset.token;
    cost := AllocateCost(Position(s.costs, token), quantity).value;
  }

  lemma RedeemUnfolds(s: Books, id: Id, quantity: int, payout: int, s': Books)
    returns (token: TokenKey, cost: int)
    requires Redeem(s, id, quantity, payout) == Ok(s')
    ensures DisposalChanges(s, s', id, token, quantity, cost, RedeemTx(id, token, quantity, payout, cost))
  {
    token := s.reservations[id].asset.token;
    cost := AllocateCost(Position(s.costs, token), quantity).value;
  }

  lemma AllocatedFits(s: Books, token: TokenKey, quantity: int, cost: int)
    requires Agree(s) && AllocateCost(Position(s.costs, token), quantity) == Ok(cost)
    ensures 0 <= cost <= I128_MAX
  {
    AllocateBounds(Position(s.costs, token), quantity);
    PositionSigns(s, token);
  }

  lemma SellFollows(s: Books, id: Id, quantity: int, gross: int, fee: int)
    requires Agree(s) && 0 < quantity <= I128_MAX && 0 <= fee <= gross <= I128_MAX
    requires Sell(s, id, quantity, gross, fee).Ok?
    ensures var token := s.reservations[id].asset.token;
      var cost := AllocateCost(Position(s.costs, token), quantity).value;
      Follows(s, Sell(s, id, quantity, gross, fee).value, SellTx(id, token, quantity, gross, fee, cost))
  {
    var s' := Sell(s, id, quantity, gross, fee).value;
    var token, cost := SellUnfolds(s, id, quantity, gross, fee, s');
    AllocatedFits(s, token, quantity, cost);
    SellTxDraws(id, token, quantity, gross, fee, cost);
    forall t { DisposalDeltas(id, token, quantity, gross, fee, cost, 0, t); }
    DisposalFollows(s, s', SellTx(id, token, quantity, gross, fee, cost), id, token, quantity, cost);
  }

  lemma RedeemFollows(s: Books, id: Id, quantity: int, payout: int)
    requires Agree(s) && 0 < quantity <= I128_MAX && 0 <= payout <= quantity
    requires Redeem(s, id, quantity, payout).Ok?
    ensures var token := s.reservations[id].asset.token;
      var cost := AllocateCost(Position(s.costs, token), quantity).value;
      Follows(s, Redeem(s, id, quantity, payout).value, RedeemTx(id, token, quantity, payout, cost))
  {
    var s' := Redeem(s, id, quantity, payout).value;
    var token, cost := RedeemUnfolds(s, id, quantity, payout, s');
    AllocatedFits(s, token, quantity, cost);
    RedeemTxDraws(id, token, quantity, payout, cost);
    forall t { DisposalDeltas(id, token, quantity, 0, 0, cost, payout, t); }
    DisposalFollows(s, s', RedeemTx(id, token, quantity, payout, cost), id, token, quantity, cost);
  }

  lemma SplitPositions(s: Books, s': Books, id: Id, up: TokenKey, down: TokenKey, quantity: int,
                       cs: map<TokenKey, CostPosition>)
    requires Agree(s) && 0 < quantity && up != down
    requires AddCost(s.costs, up, quantity, quantity / 2) == Ok(cs)
    requires AddCost(cs, down, quantity, quantity - quantity / 2) == Ok(s'.costs)
    ensures PositionsFollow(s, s', SplitTx(id, up, down, quantity))
  {
    var ps := SplitTx(id, up, down, quantity);
    forall t ensures PositionFollows(s, s', ps, t) {
      PositionSigns(s, t);
      SplitTxDeltas(id, up, down, quantity, t);
    }
  }

  /** What a successful split posts and changes. */
  ghost predicate SplitChanges(s: Books, s': Books, id: Id, up: TokenKey, down: TokenKey, quantity: int,
                               cs: map<TokenKey, CostPosition>) {
    && IsPair(up, down) && ActiveReservation(s, id).Ok?
    && s.reservations[id].asset == Cash && quantity <= s.reservations[id].remaining
    && Post(s.balances, SplitTx(id, up, down, quantity)) == Ok(s'.balances)
    && Consume(s.reservations, id, quantity) == Ok(s'.reservations)
    && AddCost(s.costs, up, quantity, quantity / 2) == Ok(cs)
    && AddCost(cs, down, quantity, quantity - quantity / 2) == Ok(s'.costs)
    && s'.locks == s.locks
  }

  lemma SplitUnfolds(s: Books, id: Id, up: TokenKey, down: TokenKey, quantity: int, s': Books)
    returns (cs: map<TokenKey, CostPosition>)
    requires Split(s, id, up, down, quantity) == Ok(s')
    ensures SplitChanges(s, s', id, up, down, quantity, cs)
  {
    cs := AddCost(s.costs, up, quantity, quantity / 2).value;
  }

  lemma SplitMoves(s: Books, s': Books, id: Id, up: TokenKey, down: TokenKey, quantity: int,
                   cs: map<TokenKey, CostPosition>)
    requires Agree(s) && 0 < quantity <= I128_MAX && SplitChanges(s, s', id, up, down, quantity, cs)
    ensures Follows(s, s', SplitTx(id, up, down, quantity))
  {
    SplitTxDraws(id, up, down, quantity);
    DrawFollows(s, s', SplitTx(id, up, down, quantity), id, quantity);
    SplitPositions(s, s', id, up, down, quantity, cs);
  }

  lemma SplitFollows(s: Books, id: Id, up: TokenKey, down: TokenKey, quantity: int)
    requires Agree(s) && 0 < quantity <= I128_MAX
    requires Split(s, id, up, down, quantity).Ok?
    ensures Follows(s, Split(s, id, up, down, quantity).value, SplitTx(id, up, down, quantity))
  {
    var s' := Split(s, id, up, down, quantity).value;
    var cs := SplitUnfolds(s, id, up, down, quantity, s');
    SplitMoves(s, s', id, up, down, quantity, cs);
  }

  lemma LockPositions(s: Books, s': Books, id: Id, up: TokenKey, down: TokenKey, quantity: int,
                      upCost: int, downCost: int, cs: map<TokenKey, CostPosition>)
    requires Agree(s) && up != down
    requires ReduceCost(s.costs, up, quantity, upCost) == Ok(cs)
    requires ReduceCost(cs, down, quantity, downCost) == Ok(s'.costs)
    ensures PositionsFollow(s, s', LockTx(id, up, down, quantity, upCost, downCost))
  {
    var ps := LockTx(id, up, down, quantity, upCost, downCost);
    forall t ensures PositionFollows(s, s', ps, t) {
      PositionSigns(s, t);
      LockTxDeltas(id, up, down, quantity, upCost, downCost, t);
    }
  }

  /** What a successful lock allocates, posts and changes. */
  ghost predicate LockChanges(s: Books, s': Books, id: Id, up: TokenKey, down: TokenKey, quantity: int,
                              upCost: int, downCost: int, cs: map<TokenKey, CostPosition>) {
    && id !in s.locks && IsPair(up, down) && Fits(upCost + downCost)
    && AllocateCost(Position(s.costs, up), quantity) == Ok(upCost)
    && AllocateCost(Position(s.costs, down), quantity) == Ok(downCost)
    && Post(s.balances, LockTx(id, up, down, quantity, upCost, downCost)) == Ok(s'.balances)
    && ReduceCost(s.costs, up, quantity, upCost) == Ok(cs)
    && ReduceCost(cs, down, quantity, downCost) == Ok(s'.costs)
    && s'.reservations == s.reservations
    && s'.locks == s.locks[id := PairLock(id, up, down, quantity, upCost + downCost, quantity, Locked)]
  }

  lemma LockUnfolds(s: Books, id: Id, up: TokenKey, down: TokenKey, quantity: int, s': Books)
    returns (upCost: int, downCost: int, cs: map<TokenKey, CostPosition>)
    requires Lock(s, id, up, down, quantity) == Ok(s')
    ensures LockChanges(s, s', id, up, down, quantity, upCost, downCost, cs)
  {
    upCost := AllocateCost(Position(s.costs, up), quantity).value;
    downCost := AllocateCost(Position(s.costs, down), quantity).value;
    cs := ReduceCost(s.costs, up, quantity, upCost).value;
  }

  lemma LockLocks(s: Books, s': Books, id: Id, up: TokenKey, down: TokenKey, quantity: int, upCost: int, downCost: int)
    requires LocksBacked(s) && id !in s.locks && IsPair(up, down) && 0 < quantity <= I128_MAX
    requires 0 <= upCost + downCost <= I128_MAX
    requires s'.locks == s.locks[id := PairLock(id, up, down, quantity, upCost + downCost, quantity, Locked)]
    requires WellFormed(LockTx(id, up, down, quantity, upCost, downCost))
    ensures LocksFollow(s, s', LockTx(id, up, down, quantity, upCost, downCost))
  {
    LockTouched(s, s', LockTx(id, up, down, quantity, upCost, downCost), s'.locks[id], 1, 3, 6);
  }

  lemma LockMoves(s: Books, s': Books, id: Id, up: TokenKey, down: TokenKey, quantity: int,
                  upCost: int, downCost: int, cs: map<TokenKey, CostPosition>)
    requires Agree(s) && 0 < quantity <= I128_MAX
    requires LockChanges(s, s', id, up, down, quantity, upCost, downCost, cs)
    ensures Follows(s, s', LockTx(id, up, down, quantity, upCost, downCost))
  {
    AllocateBounds(Position(s.costs, up), quantity);
    AllocateBounds(Position(s.costs, down), quantity);
    LockTxWellFormed(id, up, down, quantity, upCost, downCost);
    ReservationsUntouched(s, s', LockTx(id, up, down, quantity, upCost, downCost));
    LockLocks(s, s', id, up, down, quantity, upCost, downCost);
    LockPositions(s, s', id, up, down, quantity, upCost, downCost, cs);
  }

  lemma LockFollows(s: Books, id: Id, up: TokenKey, down: TokenKey, quantity: int)
    requires Agree(s) && 0 < quantity <= I128_MAX
    requires Lock(s, id, up, down, quantity).Ok?
    ensures var upCost := AllocateCost(Position(s.costs, up), quantity).value;
      var downCost := AllocateCost(Position(s.costs, down), quantity).value;
      Follows(s, Lock(s, id, up, down, quantity).value, LockTx(id, up, down, quantity, upCost, downCost))
  {
    var s' := Lock(s, id, up, down, quantity).value;
    var upCost, downCost, cs := LockUnfolds(s, id, up, down, quantity, s');
    LockMoves(s, s', id, up, down, quantity, upCost, downCost, cs);
  }

  lemma MergeTxDeltas(l: PairLock, t: TokenKey)
    ensures Delta(MergeTx(l), Loose(t)) == 0 && Delta(MergeTx(l), One(CostKey(t))) == 0
  {
    DeltaMiss(MergeTx(l), Loose(t));
    DeltaMiss(MergeTx(l), One(CostKey(t)));
  }

  lemma MergeLocks(s: Books, s': Books, id: Id)
    requires LocksBacked(s) && id in s.locks && s.locks[id].status.Locked? && WellFormed(MergeTx(s.locks[id]))
    requires s'.locks == s.locks[id := s.locks[id].(status := Merged)]
    ensures LocksFollow(s, s', MergeTx(s.locks[id]))
  {
    LockTouched(s, s', MergeTx(s.locks[id]), s'.locks[id], 0, 2, 6);
  }

  lemma MergeFollows(s: Books, id: Id)
    requires Agree(s) && Merge(s, id).Ok?
    ensures Follows(s, Merge(s, id).value, MergeTx(s.locks[id]))
  {
    var s', l := Merge(s, id).value, s.locks[id];
    MergeTxWellFormed(l, id);
    ReservationsUntouched(s, s', MergeTx(l));
    MergeLocks(s, s', id);
    forall t { MergeTxDeltas(l, t); }
    PositionsUntouched(s, s', MergeTx(l));
  }
}
