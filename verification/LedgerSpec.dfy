/** The ledger's transition function: what `apply`, `apply_fresh` and `verify_invariants` compute. */
module LedgerSpec {
  import opened Results
  import opened Ordering
  import opened LedgerTypes
  import opened DoubleEntry

  // ----- validation -----

  predicate ValidText(t: Text, bound: nat) {
    0 < |t| <= bound
  }

  predicate ValidToken(t: TokenKey) {
    ValidText(t.conditionId, MAX_IDENTIFIER_BYTES) && ValidText(t.tokenId, MAX_IDENTIFIER_BYTES)
  }

  predicate IsPair(up: TokenKey, down: TokenKey) {
    up != down && up.conditionId == down.conditionId
  }

  /** The first objection to an action, in the source's order; `None` when it is valid. */
  function Objection(action: Action): Option<Error> {
    match action
    case FundCollateral(amount) => if amount <= 0 then Some(NonPositive) else None
    case ReserveCollateral(_, amount) => if amount <= 0 then Some(NonPositive) else None
    case ReserveToken(_, token, quantity) =>
      if !ValidToken(token) then Some(Identifier)
      else if quantity <= 0 then Some(NonPositive)
      else None
    case ReleaseReservation(_) => None
    case ConfirmBuy(_, token, quantity, consideration, fee, confirmation) =>
      if !ValidToken(token) then Some(Identifier)
      else if quantity <= 0 || consideration <= 0 then Some(NonPositive)
      else if fee < 0 then Some(Fee)
      else if !ValidText(confirmation, MAX_CONFIRMATION_BYTES) then Some(Confirmation)
      else None
    case ConfirmSell(_, quantity, gross, fee, confirmation) =>
      if quantity <= 0 || gross <= 0 then Some(NonPositive)
      else if fee < 0 || fee > gross then Some(Fee)
      else if !ValidText(confirmation, MAX_CONFIRMATION_BYTES) then Some(Confirmation)
      else None
    case LockPair(_, up, down, quantity) =>
      if !ValidToken(up) || !ValidToken(down) then Some(Identifier)
      else if quantity <= 0 then Some(NonPositive)
      else if !IsPair(up, down) then Some(PairIdentity)
      else None
    case ConfirmMerge(_, confirmation) =>
      if !ValidText(confirmation, MAX_CONFIRMATION_BYTES) then Some(Confirmation) else None
    case ConfirmSplit(_, up, down, quantity, confirmation) =>
      if !ValidToken(up) || !ValidToken(down) then Some(Identifier)
      else if quantity <= 0 then Some(NonPositive)
      else if !IsPair(up, down) then Some(PairIdentity)
      else if !ValidText(confirmation, MAX_CONFIRMATION_BYTES) then Some(Confirmation)
      else None
    case ConfirmRedemption(_, quantity, payout, confirmation) =>
      if quantity <= 0 then Some(NonPositive)
      else if payout < 0 || payout > quantity then Some(NonPositive)
      else if !ValidText(confirmation, MAX_CONFIRMATION_BYTES) then Some(Confirmation)
      else None
  }

  function Validate(c: LedgerCommand): Option<Error> {
    if c.recordedAtNs < 0 then Some(Timestamp) else Objection(c.action)
  }

  // ----- pieces of the transitions -----

  /** Cost released by disposing of `quantity`: all of it when the position empties, else rounded up. */
  function AllocateCost(p: CostPosition, quantity: int): Outcome<int> {
    if quantity <= 0 || p.quantity < quantity || p.quantity <= 0 || p.cost < 0 then Err(InventoryInsufficient)
    else if quantity == p.quantity then Ok(p.cost)
    else
      var product :- CheckedMul(p.cost, quantity);
      var raised :- CheckedAdd(product, p.quantity - 1);
      Ok(raised / p.quantity)
  }

  function ActiveReservation(s: Books, id: Id): Outcome<Reservation> {
    if id !in s.reservations then Err(ReservationMissing)
    else if !s.reservations[id].status.Active? then Err(ReservationInactive)
    else Ok(s.reservations[id])
  }

  function Consume(rs: map<Id, Reservation>, id: Id, amount: int): Outcome<map<Id, Reservation>> {
    if id !in rs then Err(ReservationMissing)
    else
      var remaining :- CheckedSub(rs[id].remaining, amount);
      Ok(rs[id := rs[id].(remaining := remaining,
                          status := if remaining == 0 then Consumed else rs[id].status)])
  }

  function AddCost(cs: map<TokenKey, CostPosition>, token: TokenKey, quantity: int, cost: int)
    : Outcome<map<TokenKey, CostPosition>>
  {
    var p := Position(cs, token);
    var q :- CheckedAdd(p.quantity, quantity);
    var c :- CheckedAdd(p.cost, cost);
    Ok(cs[token := CostPosition(q, c)])
  }

  function ReduceCost(cs: map<TokenKey, CostPosition>, token: TokenKey, quantity: int, cost: int)
    : Outcome<map<TokenKey, CostPosition>>
  {
    if token !in cs then Err(InventoryInsufficient)
    else
      var q :- CheckedSub(cs[token].quantity, quantity);
      var c :- CheckedSub(cs[token].cost, cost);
      if q == 0 && c != 0 then Err(InventoryInvariant)
      else Ok(cs[token := CostPosition(q, c)])
  }

  // ----- transactions -----

  function FundTx(amount: int): seq<Posting> {
    [Posting(Money(CashAvailable), amount), Posting(Money(CapitalContributed), -amount)]
  }

  function MoveTx(source: Key, target: Key, amount: int): seq<Posting> {
    [Posting(source, -amount), Posting(target, amount)]
  }

  function BuyTx(id: Id, token: TokenKey, quantity: int, consideration: int, fee: int): seq<Posting> {
    [ Posting(HeldKey(id, Cash), -(consideration + fee)),
      Posting(CostKey(token), consideration),
      Posting(Money(FeeExpense), fee),
      Posting(Key(TokenAvailable, Outcome(token)), quantity),
      Posting(Key(External, Outcome(token)), -quantity) ]
  }

  function SellTx(id: Id, token: TokenKey, quantity: int, gross: int, fee: int, cost: int): seq<Posting> {
    [ Posting(HeldKey(id, Token(token)), -quantity),
      Posting(Key(External, Outcome(token)), quantity),
      Posting(Money(CashAvailable), gross - fee),
      Posting(Money(FeeExpense), fee),
      Posting(Money(TradingRevenue), -gross),
      Posting(CostKey(token), -cost),
      Posting(Money(CostOfGoodsSold), cost) ]
  }

  function LockTx(id: Id, up: TokenKey, down: TokenKey, quantity: int, upCost: int, downCost: int): seq<Posting> {
    [ Posting(Key(TokenAvailable, Outcome(up)), -quantity),
      Posting(LockKey(id, up), quantity),
      Posting(Key(TokenAvailable, Outcome(down)), -quantity),
      Posting(LockKey(id, down), quantity),
      Posting(CostKey(up), -upCost),
      Posting(CostKey(down), -downCost),
      Posting(LockCostKey(id), upCost + downCost) ]
  }

  function MergeTx(l: PairLock): seq<Posting> {
    [ Posting(LockKey(l.id, l.up), -l.quantity),
      Posting(Key(External, Outcome(l.up)), l.quantity),
      Posting(LockKey(l.id, l.down), -l.quantity),
      Posting(Key(External, Outcome(l.down)), l.quantity),
      Posting(Money(CashAvailable), l.payout),
      Posting(Money(TradingRevenue), -l.payout),
      Posting(LockCostKey(l.id), -l.cost),
      Posting(Money(CostOfGoodsSold), l.cost) ]
  }

  function SplitTx(id: Id, up: TokenKey, down: TokenKey, quantity: int): seq<Posting> {
    [ Posting(HeldKey(id, Cash), -quantity),
      Posting(CostKey(up), quantity / 2),
      Posting(CostKey(down), quantity - quantity / 2),
      Posting(Key(TokenAvailable, Outcome(up)), quantity),
      Posting(Key(External, Outcome(up)), -quantity),
      Posting(Key(TokenAvailable, Outcome(down)), quantity),
      Posting(Key(External, Outcome(down)), -quantity) ]
  }

  function RedeemTx(id: Id, token: TokenKey, quantity: int, payout: int, cost: int): seq<Posting> {
    [ Posting(HeldKey(id, Token(token)), -quantity),
      Posting(Key(External, Outcome(token)), quantity),
      Posting(Money(CashAvailable), payout),
      Posting(Money(TradingRevenue), -payout),
      Posting(CostKey(token), -cost),
      Posting(Money(CostOfGoodsSold), cost) ]
  }

  // ----- transitions -----

  function Fund(s: Books, amount: int): Outcome<Books> {
    var _ :- CheckedSub(0, amount);
    var b :- Post(s.balances, FundTx(amount));
    Ok(s.(balances := b))
  }

  function Reserve(s: Books, id: Id, asset: ReservationAsset, amount: int): Outcome<Books> {
    if id in s.reservations then Err(ReservationExists)
    else
      var b :- Post(s.balances, MoveTx(HomeKey(asset), HeldKey(id, asset), amount));
      Ok(s.(balances := b,
            reservations := s.reservations[id := Reservation(id, asset, amount, amount, Active)]))
  }

  function Release(s: Books, id: Id): Outcome<Books> {
    var r :- ActiveReservation(s, id);
    var b :- Post(s.balances, MoveTx(HeldKey(id, r.asset), HomeKey(r.asset), r.remaining));
    Ok(s.(balances := b,
          reservations := s.reservations[id := r.(remaining := 0, status := Released)]))
  }

  function Buy(s: Books, id: Id, token: TokenKey, quantity: int, consideration: int, fee: int): Outcome<Books> {
    var total :- CheckedAdd(consideration, fee);
    var r :- ActiveReservation(s, id);
    if r.asset != Cash then Err(ReservationMismatch)
    else if r.remaining < total then Err(ReservationInsufficient)
    else
      var b :- Post(s.balances, BuyTx(id, token, quantity, consideration, fee));
      var rs :- Consume(s.reservations, id, total);
      var cs :- AddCost(s.costs, token, quantity, consideration);
      Ok(s.(balances := b, reservations := rs, costs := cs))
  }

  function Sell(s: Books, id: Id, quantity: int, gross: int, fee: int): Outcome<Books> {
    var r :- ActiveReservation(s, id);
    if !r.asset.Token? then Err(ReservationMismatch)
    else if r.remaining < quantity then Err(ReservationInsufficient)
    else
      var token := r.asset.token;
      var cost :- AllocateCost(Position(s.costs, token), quantity);
      var _ :- CheckedSub(gross, fee);
      var b :- Post(s.balances, SellTx(id, token, quantity, gross, fee, cost));
      var rs :- Consume(s.reservations, id, quantity);
      var cs :- ReduceCost(s.costs, token, quantity, cost);
      Ok(s.(balances := b, reservations := rs, costs := cs))
  }

  function Lock(s: Books, id: Id, up: TokenKey, down: TokenKey, quantity: int): Outcome<Books> {
    if id in s.locks then Err(LockExists)
    else if !IsPair(up, down) then Err(PairIdentity)
    else
      var upCost :- AllocateCost(Position(s.costs, up), quantity);
      var downCost :- AllocateCost(Position(s.costs, down), quantity);
      var cost :- CheckedAdd(upCost, downCost);
      var b :- Post(s.balances, LockTx(id, up, down, quantity, upCost, downCost));
      var cs :- ReduceCost(s.costs, up, quantity, upCost);
      var cs' :- ReduceCost(cs, down, quantity, downCost);
      Ok(s.(balances := b, costs := cs',
            locks := s.locks[id := PairLock(id, up, down, quantity, cost, quantity, Locked)]))
  }

  function Merge(s: Books, id: Id): Outcome<Books> {
    if id !in s.locks then Err(LockMissing)
    else if !s.locks[id].status.Locked? then Err(LockInactive)
    else
      var b :- Post(s.balances, MergeTx(s.locks[id]));
      Ok(s.(balances := b, locks := s.locks[id := s.locks[id].(status := Merged)]))
  }

  function Split(s: Books, id: Id, up: TokenKey, down: TokenKey, quantity: int): Outcome<Books> {
    if !IsPair(up, down) then Err(PairIdentity)
    else
      var r :- ActiveReservation(s, id);
      if r.asset != Cash || r.remaining < quantity then Err(ReservationMismatch)
      else
        var _ :- CheckedSub(quantity, quantity / 2);
        var b :- Post(s.balances, SplitTx(id, up, down, quantity));
        var rs :- Consume(s.reservations, id, quantity);
        var cs :- AddCost(s.costs, up, quantity, quantity / 2);
        var cs' :- AddCost(cs, down, quantity, quantity - quantity / 2);
        Ok(s.(balances := b, reservations := rs, costs := cs'))
  }

  function Redeem(s: Books, id: Id, quantity: int, payout: int): Outcome<Books> {
    var r :- ActiveReservation(s, id);
    if !r.asset.Token? then Err(ReservationMismatch)
    else if r.remaining < quantity || payout > quantity then Err(ReservationInsufficient)
    else
      var token := r.asset.token;
      var cost :- AllocateCost(Position(s.costs, token), quantity);
      var b :- Post(s.balances, RedeemTx(id, token, quantity, payout, cost));
      var rs :- Consume(s.reservations, id, quantity);
      var cs :- ReduceCost(s.costs, token, quantity, cost);
      Ok(s.(balances := b, reservations := rs, costs := cs))
  }

  function Perform(s: Books, action: Action): Outcome<Books> {
    match action
    case FundCollateral(amount) => Fund(s, amount)
    case ReserveCollateral(id, amount) => Reserve(s, id, Cash, amount)
    case ReserveToken(id, token, quantity) => Reserve(s, id, Token(token), quantity)
    case ReleaseReservation(id) => Release(s, id)
    case ConfirmBuy(id, token, quantity, consideration, fee, _) => Buy(s, id, token, quantity, consideration, fee)
    case ConfirmSell(id, quantity, gross, fee, _) => Sell(s, id, quantity, gross, fee)
    case LockPair(id, up, down, quantity) => Lock(s, id, up, down, quantity)
    case ConfirmMerge(id, _) => Merge(s, id)
    case ConfirmSplit(id, up, down, quantity, _) => Split(s, id, up, down, quantity)
    case ConfirmRedemption(id, quantity, payout, _) => Redeem(s, id, quantity, payout)
  }

  function ApplyFresh(s: Books, c: LedgerCommand): Outcome<Books> {
    match Validate(c)
    case Some(error) => Err(error)
    case None => Perform(s, c.action)
  }

  // ----- verify_invariants -----

  function TotalsEntry(totals: map<Asset, int>, k: Key, balance: int): Outcome<map<Asset, int>> {
    if !Compatible(k) then Err(AccountAsset)
    else if RequiresNonNegative(k.account) && balance < 0 then Err(NegativeBalance)
    else
      var total :- CheckedAdd(TotalOf(totals, k.asset), balance);
      Ok(totals[k.asset := total])
  }

  /** The checked running totals, asset by asset, over the balances in key order. */
  function TotalsCheck(b: Balances, keys: seq<Key>): Outcome<map<Asset, int>>
    requires forall k :: k in keys ==> k in b
  {
    if |keys| == 0 then Ok(map[])
    else
      var totals :- TotalsCheck(b, keys[..|keys| - 1]);
      TotalsEntry(totals, keys[|keys| - 1], b[keys[|keys| - 1]])
  }

  function ConservationCheck(b: Balances): Outcome<()> {
    var totals :- TotalsCheck(b, SortedKeys(b.Keys));
    if Cancels(totals) then Ok(()) else Err(Conservation)
  }

  predicate ReservationHolds(b: Balances, r: Reservation) {
    && Bal(b, HeldKey(r.id, r.asset)) == (if r.status.Active? then r.remaining else 0)
    && r.original > 0
    && 0 <= r.remaining <= r.original
  }

  /** Unchecked sum, in id order, of what active reservations of one asset still hold. */
  function HeldSum(rs: map<Id, Reservation>, ids: seq<Id>, asset: ReservationAsset): Outcome<int>
    requires forall id :: id in ids ==> id in rs
  {
    if |ids| == 0 then Ok(0)
    else
      var id := ids[|ids| - 1];
      var sum :- HeldSum(rs, ids[..|ids| - 1], asset);
      if rs[id].status.Active? && rs[id].asset == asset then UncheckedAdd(sum, rs[id].remaining) else Ok(sum)
  }

  lemma HeldNext(rs: map<Id, Reservation>, ids: seq<Id>, asset: ReservationAsset, i: nat, sum: int)
    requires i < |ids| && forall id :: id in ids ==> id in rs
    requires HeldSum(rs, ids[..i], asset) == Ok(sum)
    ensures HeldSum(rs, ids[..i + 1], asset)
         == if rs[ids[i]].status.Active? && rs[ids[i]].asset == asset then UncheckedAdd(sum, rs[ids[i]].remaining)
            else Ok(sum)
  {
    assert ids[..i + 1][..i] == ids[..i] && ids[..i + 1][i] == ids[i];
  }

  function HeldTotal(rs: map<Id, Reservation>, asset: ReservationAsset): Outcome<int> {
    HeldSum(rs, SortedIds(rs.Keys), asset)
  }

  function TokenCheck(s: Books, token: TokenKey): Outcome<()> {
    var reserved :- HeldTotal(s.reservations, Token(token));
    var held :- UncheckedAdd(Bal(s.balances, Key(TokenAvailable, Outcome(token))), reserved);
    var p := Position(s.costs, token);
    if p.quantity != held || p.quantity < 0 || p.cost < 0 || Bal(s.balances, CostKey(token)) != p.cost
    then Err(InventoryInvariant)
    else Ok(())
  }

  function TokensCheck(s: Books, tokens: seq<TokenKey>): Outcome<()> {
    if |tokens| == 0 then Ok(())
    else
      var _ :- TokensCheck(s, tokens[..|tokens| - 1]);
      TokenCheck(s, tokens[|tokens| - 1])
  }

  function TokensOf(s: Books): set<TokenKey> {
    s.costs.Keys
    + set id | id in s.reservations && s.reservations[id].asset.Token? :: s.reservations[id].asset.token
  }

  predicate LockHolds(b: Balances, l: PairLock) {
    && Bal(b, LockKey(l.id, l.up)) == (if l.status.Locked? then l.quantity else 0)
    && Bal(b, LockKey(l.id, l.down)) == (if l.status.Locked? then l.quantity else 0)
    && Bal(b, LockCostKey(l.id)) == (if l.status.Locked? then l.cost else 0)
  }

  /** Checked sum, in id order, of payout minus cost over the locks not yet merged. */
  function LockedPnl(locks: map<Id, PairLock>, ids: seq<Id>): Outcome<int>
    requires forall id :: id in ids ==> id in locks
  {
    if |ids| == 0 then Ok(0)
    else
      var l := locks[ids[|ids| - 1]];
      var total :- LockedPnl(locks, ids[..|ids| - 1]);
      if l.status.Locked? then
        var value :- CheckedSub(l.payout, l.cost);
        CheckedAdd(total, value)
      else Ok(total)
  }

  lemma PnlNext(locks: map<Id, PairLock>, ids: seq<Id>, i: nat, total: int)
    requires i < |ids| && forall id :: id in ids ==> id in locks
    requires LockedPnl(locks, ids[..i]) == Ok(total)
    ensures var l := locks[ids[i]];
      var value := CheckedSub(l.payout, l.cost);
      LockedPnl(locks, ids[..i + 1])
      == if !l.status.Locked? then Ok(total) else if value.Err? then value else CheckedAdd(total, value.value)
  {
    assert ids[..i + 1][..i] == ids[..i] && ids[..i + 1][i] == ids[i];
  }

  datatype Pnl = Pnl(fees: int, realized: int, locked: int)

  function Realized(b: Balances): Outcome<int> {
    var gross :- CheckedSub(0, Bal(b, Money(TradingRevenue)));
    var margin :- CheckedSub(gross, Bal(b, Money(CostOfGoodsSold)));
    CheckedSub(margin, Bal(b, Money(FeeExpense)))
  }

  function CheckedPnl(s: Books): Outcome<Pnl> {
    var realized :- Realized(s.balances);
    var locked :- LockedPnl(s.locks, SortedIds(s.locks.Keys));
    Ok(Pnl(Bal(s.balances, Money(FeeExpense)), realized, locked))
  }

  function ViewsCheck(s: Books): Outcome<()> {
    if exists id :: id in s.reservations && !ReservationHolds(s.balances, s.reservations[id])
    then Err(ReservationInvariant)
    else
      var _ :- TokensCheck(s, SortedTokens(TokensOf(s)));
      if exists id :: id in s.locks && !LockHolds(s.balances, s.locks[id]) then Err(InventoryInvariant)
      else Ok(())
  }

  function Verify(s: Books): Outcome<()> {
    var _ :- ConservationCheck(s.balances);
    var _ :- ViewsCheck(s);
    var _ :- CheckedPnl(s);
    Ok(())
  }

  // ----- apply -----

  /** State and answer after one command; every error but a conflict leaves the state as it was. */
  datatype Step = Step(ledger: Ledger, answer: Outcome<ApplyOutcome>)

  function Accept(s: Ledger, c: LedgerCommand): Outcome<Ledger> {
    var books :- ApplyFresh(s.books, c);
    var accepted :- if s.accepted + 1 <= U64_MAX then Ok(s.accepted + 1) else Err(Overflow);
    var _ :- Verify(books);
    Ok(Ledger(books, s.processed[c.commandId := CommandDigest(c)], accepted, s.halted))
  }

  function Apply(s: Ledger, c: LedgerCommand): Step {
    if s.halted then Step(s, Err(Halted))
    else if Validate(c).Some? then Step(s, Err(Validate(c).value))
    else if c.commandId in s.processed then
      if s.processed[c.commandId] == CommandDigest(c) then Step(s, Ok(Duplicate))
      else Step(s.(halted := true), Err(IdempotencyConflict))
    else
      match Accept(s, c)
      case Ok(next) => Step(next, Ok(Applied))
      case Err(error) => Step(s, Err(error))
  }
}
