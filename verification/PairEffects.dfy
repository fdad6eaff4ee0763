/** What splitting, locking and merging a pair do to cash, tokens, cost, profit and the locks. */
module PairEffects {
  import opened Results
  import opened LedgerTypes
  import opened DoubleEntry
  import opened LedgerSpec
  import opened TradeFlow

  /** What two positions gave up; no other position changed. */
  ghost predicate BothDisposed(
    before: map<TokenKey, CostPosition>, after: map<TokenKey, CostPosition>, up: TokenKey, down: TokenKey,
    quantity: int, upCost: int, downCost: int)
  {
    && Position(after, up) == CostPosition(Position(before, up).quantity - quantity, Position(before, up).cost - upCost)
    && Position(after, down)
       == CostPosition(Position(before, down).quantity - quantity, Position(before, down).cost - downCost)
    && forall t :: t != up && t != down ==> Position(after, t) == Position(before, t)
  }

  lemma SplitTxMoves(id: Id, up: TokenKey, down: TokenKey, quantity: int)
    requires up != down
    ensures TxMoves(SplitTx(id, up, down, quantity), up, -quantity, quantity, 0, 0)
    ensures TxMoves(SplitTx(id, up, down, quantity), down, -quantity, quantity, 0, 0)
  {
    UnrollAll(SplitTx(id, up, down, quantity), up);
    UnrollAll(SplitTx(id, up, down, quantity), down);
  }

  lemma SplitPosts(s: Books, id: Id, up: TokenKey, down: TokenKey, quantity: int, s': Books)
    requires Split(s, id, up, down, quantity) == Ok(s')
    ensures up != down && Post(s.balances, SplitTx(id, up, down, quantity)) == Ok(s'.balances)
    ensures s'.locks == s.locks
    ensures BothDisposed(s.costs, s'.costs, up, down, -quantity, -(quantity / 2), -(quantity - quantity / 2))
  {
  }

  /** The quantity became the cost of both positions, half of it, rounded down, that of the first. */
  ghost predicate Halved(s: Books, s': Books, up: TokenKey, down: TokenKey, quantity: int, half: int) {
    && 2 * half <= quantity <= 2 * half + 1
    && BothDisposed(s.costs, s'.costs, up, down, -quantity, -half, half - quantity)
  }

  /**
   * A split turns cash into as many tokens of each outcome; the cash becomes their cost, half each, the odd
   * micro with the second; nothing is realized and no lock changes.
   */
  lemma SplitEffect(s: Books, id: Id, up: TokenKey, down: TokenKey, quantity: int, s': Books)
    requires Split(s, id, up, down, quantity) == Ok(s')
    ensures Moves(s, s', up, -quantity, quantity, 0, 0) && Moves(s, s', down, -quantity, quantity, 0, 0)
    ensures s'.locks == s.locks
    ensures exists half: int :: Halved(s, s', up, down, quantity, half)
  {
    SplitPosts(s, id, up, down, quantity, s');
    assert Halved(s, s', up, down, quantity, quantity / 2);
    SplitTxMoves(id, up, down, quantity);
    PostedMoves(s, s', SplitTx(id, up, down, quantity), up, -quantity, quantity, 0, 0);
    PostedMoves(s, s', SplitTx(id, up, down, quantity), down, -quantity, quantity, 0, 0);
  }

  lemma LockTxMoves(id: Id, up: TokenKey, down: TokenKey, quantity: int, upCost: int, downCost: int)
    requires up != down
    ensures TxMoves(LockTx(id, up, down, quantity, upCost, downCost), up, 0, 0, 0, 0)
    ensures TxMoves(LockTx(id, up, down, quantity, upCost, downCost), down, 0, 0, 0, 0)
  {
    UnrollAll(LockTx(id, up, down, quantity, upCost, downCost), up);
    UnrollAll(LockTx(id, up, down, quantity, upCost, downCost), down);
  }

  lemma LockPosts(s: Books, id: Id, up: TokenKey, down: TokenKey, quantity: int, s': Books, a: int, b: int)
    requires Lock(s, id, up, down, quantity) == Ok(s')
    requires AllocateCost(Position(s.costs, up), quantity) == Ok(a)
    requires AllocateCost(Position(s.costs, down), quantity) == Ok(b)
    ensures up != down && id !in s.locks
    ensures Post(s.balances, LockTx(id, up, down, quantity, a, b)) == Ok(s'.balances)
    ensures BothDisposed(s.costs, s'.costs, up, down, quantity, a, b)
    ensures s'.locks == s.locks[id := PairLock(id, up, down, quantity, a + b, quantity, Locked)]
  {
  }

  lemma LockMoves(s: Books, id: Id, up: TokenKey, down: TokenKey, quantity: int, s': Books, a: int, b: int)
    requires up != down && Post(s.balances, LockTx(id, up, down, quantity, a, b)) == Ok(s'.balances)
    ensures Moves(s, s', up, 0, 0, 0, 0) && Moves(s, s', down, 0, 0, 0, 0)
  {
    LockTxMoves(id, up, down, quantity, a, b);
    PostedMoves(s, s', LockTx(id, up, down, quantity, a, b), up, 0, 0, 0, 0);
    PostedMoves(s, s', LockTx(id, up, down, quantity, a, b), down, 0, 0, 0, 0);
  }

  /**
   * A lock takes the tokens and their allocated costs out of both positions and keeps them, with the quantity as
   * payout, in a new record; cash, total tokens and the realized profit stay.
   */
  lemma LockEffect(s: Books, id: Id, up: TokenKey, down: TokenKey, quantity: int, s': Books)
    requires Lock(s, id, up, down, quantity) == Ok(s')
    ensures id !in s.locks
    ensures Moves(s, s', up, 0, 0, 0, 0) && Moves(s, s', down, 0, 0, 0, 0)
    ensures var p, q := Position(s.costs, up), Position(s.costs, down);
      var a, b := p.cost - Position(s'.costs, up).cost, q.cost - Position(s'.costs, down).cost;
      && AllocateCost(p, quantity) == Ok(a) && AllocateCost(q, quantity) == Ok(b)
      && BothDisposed(s.costs, s'.costs, up, down, quantity, a, b)
      && s'.locks == s.locks[id := PairLock(id, up, down, quantity, a + b, quantity, Locked)]
  {
    var a := AllocateCost(Position(s.costs, up), quantity).value;
    var b := AllocateCost(Position(s.costs, down), quantity).value;
    LockPosts(s, id, up, down, quantity, s', a, b);
    LockMoves(s, id, up, down, quantity, s', a, b);
  }

  lemma MergeTxMoves(l: PairLock)
    requires l.up != l.down
    ensures TxMoves(MergeTx(l), l.up, l.payout, -l.quantity, 0, l.payout - l.cost)
    ensures TxMoves(MergeTx(l), l.down, l.payout, -l.quantity, 0, l.payout - l.cost)
  {
    UnrollAll(MergeTx(l), l.up);
    UnrollAll(MergeTx(l), l.down);
  }

  /** A merge pays out a lock: its tokens go, its profit is realized, and only its record's status changes. */
  lemma MergeEffect(s: Books, id: Id, s': Books)
    requires Merge(s, id) == Ok(s') && s.locks[id].id == id && s.locks[id].up != s.locks[id].down
    ensures var l := s.locks[id];
      && l.status.Locked? && s'.locks == s.locks[id := l.(status := Merged)] && s'.costs == s.costs
      && Moves(s, s', l.up, l.payout, -l.quantity, 0, l.payout - l.cost)
      && Moves(s, s', l.down, l.payout, -l.quantity, 0, l.payout - l.cost)
  {
    var l := s.locks[id];
    MergeTxMoves(l);
    PostedMoves(s, s', MergeTx(l), l.up, l.payout, -l.quantity, 0, l.payout - l.cost);
    PostedMoves(s, s', MergeTx(l), l.down, l.payout, -l.quantity, 0, l.payout - l.cost);
  }
}
