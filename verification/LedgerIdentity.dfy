/** The accounting identity and reservation conservation over whole runs. */
module LedgerIdentity {
  import opened Results
  import opened LedgerTypes
  import opened MapSums
  import opened DoubleEntry
  import opened LedgerSpec
  import opened LedgerInvariant
  import opened LedgerTotals
  import opened LedgerSafety
  import opened LedgerHistory

  // ----- accounting identity -----

  function Funding(action: Action): int {
    if action.FundCollateral? then action.amount else 0
  }

  /** Total funding of a list of commands. */
  function Funded(cs: seq<LedgerCommand>): int {
    if |cs| == 0 then 0 else Funded(cs[..|cs| - 1]) + Funding(cs[|cs| - 1].action)
  }

  lemma CapitalDelta(s: Books, action: Action)
    ensures Delta(TransactionOf(s, action), One(Money(CapitalContributed))) == -Funding(action)
  {
    var ps := TransactionOf(s, action);
    if action.FundCollateral? {
      DeltaUnrolled(ps, One(Money(CapitalContributed)));
    } else {
      DeltaMiss(ps, One(Money(CapitalContributed)));
    }
  }

  lemma CapitalPerform(s: Books, action: Action)
    requires Agree(s) && Objection(action).None? && Perform(s, action).Ok?
    ensures Bal(Perform(s, action).value.balances, Money(CapitalContributed))
         == Bal(s.balances, Money(CapitalContributed)) - Funding(action)
  {
    PerformFollows(s, action);
    PostBalance(s.balances, TransactionOf(s, action), Money(CapitalContributed));
    CapitalDelta(s, action);
  }

  lemma CapitalStep(s: Ledger, c: LedgerCommand)
    requires Inv(s)
    ensures Bal(Apply(s, c).ledger.books.balances, Money(CapitalContributed))
         == Bal(s.books.balances, Money(CapitalContributed))
            - (if Apply(s, c).answer == Ok(Applied) then Funding(c.action) else 0)
  {
    if Apply(s, c).answer == Ok(Applied) {
      AppliedPerforms(s, c);
      CapitalPerform(s.books, c.action);
    } else {
      StepHistory(s, c);
    }
  }

  lemma AppliedPerforms(s: Ledger, c: LedgerCommand)
    requires Apply(s, c).answer == Ok(Applied)
    ensures Fresh(s, c) && Objection(c.action).None? && Perform(s.books, c.action).Ok?
    ensures Apply(s, c).ledger.books == Perform(s.books, c.action).value
  {
    assert Fresh(s, c);
    FreshAnswer(s, c);
  }

  /** Contributed capital is what accepted funding commands paid in, each counted once. */
  lemma {:induction false} CapitalIsFunding(cs: seq<LedgerCommand>)
    ensures Bal(Reached(cs).books.balances, Money(CapitalContributed)) == -Funded(AppliedOf(cs))
  {
    if |cs| > 0 {
      var before := cs[..|cs| - 1];
      CapitalIsFunding(before);
      ReachedInv(before);
      CapitalStep(Reached(before), cs[|cs| - 1]);
    }
  }

  function FeeOf(action: Action): int {
    if action.ConfirmBuy? || action.ConfirmSell? then action.fee else 0
  }

  /** Total fees of a list of commands. */
  function Charged(cs: seq<LedgerCommand>): int {
    if |cs| == 0 then 0 else Charged(cs[..|cs| - 1]) + FeeOf(cs[|cs| - 1].action)
  }

  lemma FeeDelta(s: Books, action: Action)
    ensures Delta(TransactionOf(s, action), One(Money(FeeExpense))) == FeeOf(action)
  {
    var ps := TransactionOf(s, action);
    if action.ConfirmBuy? || action.ConfirmSell? {
      DeltaUnrolled(ps, One(Money(FeeExpense)));
    } else {
      DeltaMiss(ps, One(Money(FeeExpense)));
    }
  }

  lemma FeeStep(s: Ledger, c: LedgerCommand)
    requires Inv(s)
    ensures Bal(Apply(s, c).ledger.books.balances, Money(FeeExpense))
         == Bal(s.books.balances, Money(FeeExpense))
            + (if Apply(s, c).answer == Ok(Applied) then FeeOf(c.action) else 0)
  {
    if Apply(s, c).answer == Ok(Applied) {
      AppliedPerforms(s, c);
      PerformFollows(s.books, c.action);
      PostBalance(s.books.balances, TransactionOf(s.books, c.action), Money(FeeExpense));
      FeeDelta(s.books, c.action);
    } else {
      StepHistory(s, c);
    }
  }

  /** The fees the snapshot reports are those of the accepted trades, each counted once. */
  lemma {:induction false} FeesAreCharged(cs: seq<LedgerCommand>)
    ensures Bal(Reached(cs).books.balances, Money(FeeExpense)) == Charged(AppliedOf(cs))
  {
    if |cs| > 0 {
      var before := cs[..|cs| - 1];
      FeesAreCharged(before);
      ReachedInv(before);
      FeeStep(Reached(before), cs[|cs| - 1]);
    }
  }

  ghost function InventoryCostOf(s: Books): int {
    MapSum(map t | t in s.costs :: s.costs[t].cost)
  }

  ghost function LockedCosts(s: Books): map<Id, int> {
    map id: Id | id in s.locks && s.locks[id].status.Locked? :: s.locks[id].cost
  }

  lemma InventoryCostIs(s: Books)
    requires Agree(s)
    ensures InventoryCostOf(s) == Sum(s.balances, Band(Collateral, {4}))
  {
    var m := map t | t in s.costs :: s.costs[t].cost;
    var n := Selected(s.balances, Band(Collateral, {4}));
    forall t | t in m && m[t] != 0
      ensures CostKey(t) in n && n[CostKey(t)] == m[t]
    {
      assert PositionBacked(s, t);
    }
    forall k | k in n
      ensures exists t :: t in m && m[t] != 0 && CostKey(t) == k
    {
      assert PositionBacked(s, k.account.token);
      assert CostKey(k.account.token) == k;
    }
    MapSumRenameNonZero(m, n, CostKey);
  }

  lemma LockedCostIs(s: Books)
    requires Agree(s)
    ensures MapSum(LockedCosts(s)) == Sum(s.balances, Band(Collateral, {6}))
  {
    var m := LockedCosts(s);
    var f := (id: Id) => LockCostKey(id);
    var n := Selected(s.balances, Band(Collateral, {6}));
    forall k | k in n
      ensures exists id :: id in m && m[id] != 0 && f(id) == k
    {
      assert f(k.account.lock) == k;
    }
    MapSumRenameNonZero(m, n, f);
  }

  function RealizedValue(b: Balances): int {
    -Bal(b, Money(TradingRevenue)) - Bal(b, Money(CostOfGoodsSold)) - Bal(b, Money(FeeExpense))
  }

  lemma RealizedIs(s: Books)
    requires CheckedPnl(s).Ok?
    ensures CheckedPnl(s).value.realized == RealizedValue(s.balances)
  {
  }

  ghost function KindSum(b: Balances, a: Asset, c: nat): int {
    Sum(b, Band(a, {c}))
  }

  lemma BorderNext(b: Balances, a: Asset, h: nat)
    ensures Sum(b, Band(a, Upto(h + 1))) == Sum(b, Band(a, Upto(h))) + KindSum(b, a, h)
  {
    SumSplit(b, a, Upto(h + 1), Upto(h), {h});
  }

  lemma KindByKind(b: Balances, a: Asset)
    ensures Sum(b, Whole(a))
         == KindSum(b, a, 0) + KindSum(b, a, 1) + KindSum(b, a, 2) + KindSum(b, a, 3) + KindSum(b, a, 4)
          + KindSum(b, a, 5) + KindSum(b, a, 6) + KindSum(b, a, 7) + KindSum(b, a, 8) + KindSum(b, a, 9)
          + KindSum(b, a, 10) + KindSum(b, a, 11)
  {
    assert Selected(b, Band(a, Upto(0))).Keys == {};
    BorderNext(b, a, 0);
    BorderNext(b, a, 1);
    BorderNext(b, a, 2);
    BorderNext(b, a, 3);
    BorderNext(b, a, 4);
    BorderNext(b, a, 5);
    BorderNext(b, a, 6);
    BorderNext(b, a, 7);
    BorderNext(b, a, 8);
    BorderNext(b, a, 9);
    BorderNext(b, a, 10);
    BorderNext(b, a, 11);
  }

  lemma EmptyKind(b: Balances, a: Asset, c: nat)
    requires forall k :: k in b && k.asset == a ==> Kind(k.account) != c
    ensures KindSum(b, a, c) == 0
  {
    assert Selected(b, Band(a, {c})).Keys == {};
  }

  lemma SingleKind(b: Balances, k: Key)
    requires !IsHeld(k.account)
    requires !k.account.InventoryCost? && !k.account.LockedToken? && !k.account.LockedCost?
    ensures KindSum(b, k.asset, Kind(k.account)) == Bal(b, k)
  {
    BandOne(b, k);
  }

  lemma NoTokenKinds(b: Balances)
    requires SoundBalances(b)
    ensures KindSum(b, Collateral, 2) == KindSum(b, Collateral, 3) == 0
    ensures KindSum(b, Collateral, 5) == KindSum(b, Collateral, 11) == 0
  {
    forall k | k in b && k.asset.Collateral?
      ensures Kind(k.account) != 2 && Kind(k.account) != 3 && Kind(k.account) != 5 && Kind(k.account) != 11
    {
      assert EntryOk(b, k);
    }
    EmptyKind(b, Collateral, 2);
    EmptyKind(b, Collateral, 3);
    EmptyKind(b, Collateral, 5);
    EmptyKind(b, Collateral, 11);
  }

  lemma ResultKinds(b: Balances)
    ensures KindSum(b, Collateral, 0) == Bal(b, Money(CashAvailable))
    ensures KindSum(b, Collateral, 7) + KindSum(b, Collateral, 8) + KindSum(b, Collateral, 9) == -RealizedValue(b)
    ensures KindSum(b, Collateral, 10) == Bal(b, Money(CapitalContributed))
  {
    SingleKind(b, Money(CashAvailable));
    SingleKind(b, Money(FeeExpense));
    SingleKind(b, Money(TradingRevenue));
    SingleKind(b, Money(CostOfGoodsSold));
    SingleKind(b, Money(CapitalContributed));
  }

  /** Collateral that is not profit, loss, fee or capital sits in four places. */
  lemma CollateralSplit(b: Balances)
    requires SoundBalances(b) && Conserved(b)
    ensures Bal(b, Money(CashAvailable)) + KindSum(b, Collateral, 1) + KindSum(b, Collateral, 4)
            + KindSum(b, Collateral, 6)
         == RealizedValue(b) - Bal(b, Money(CapitalContributed))
  {
    KindByKind(b, Collateral);
    NoTokenKinds(b);
    ResultKinds(b);
    assert Sum(b, Whole(Collateral)) == 0;
  }

  /**
   * Over every run: cash available, cash reserved, inventory cost and locked cost together are the
   * accepted funding plus the realized net profit.
   */
  lemma AccountingIdentity(cs: seq<LedgerCommand>)
    ensures var s := Reached(cs).books;
      && CheckedPnl(s).Ok?
      && Bal(s.balances, Money(CashAvailable)) + MapSum(Holdings(s.reservations, Cash))
         + InventoryCostOf(s) + MapSum(LockedCosts(s))
         == Funded(AppliedOf(cs)) + CheckedPnl(s).value.realized
  {
    var s := Reached(cs).books;
    ReachedInv(cs);
    VerifyExactly(s);
    CapitalIsFunding(cs);
    CollateralSplit(s.balances);
    HoldingsAreHeld(s, Cash);
    InventoryCostIs(s);
    LockedCostIs(s);
    RealizedIs(s);
  }

  ghost function LockedTokens(s: Books, token: TokenKey): map<Id, int> {
    map id: Id | id in s.locks && s.locks[id].status.Locked? && (s.locks[id].up == token || s.locks[id].down == token)
      :: s.locks[id].quantity
  }

  /** A lock that holds the token has its balance in its own account, and nothing else has. */
  lemma LockedTokenAt(s: Books, token: TokenKey, id: Id)
    requires Agree(s) && id in LockedTokens(s, token) && LockedTokens(s, token)[id] != 0
    ensures LockKey(id, token) in Selected(s.balances, Band(Outcome(token), {5}))
    ensures s.balances[LockKey(id, token)] == LockedTokens(s, token)[id]
  {
    assert Bal(s.balances, LockKey(id, token)) == s.locks[id].quantity;
  }

  lemma LockOfBalance(s: Books, token: TokenKey, k: Key)
    requires Agree(s) && k in Selected(s.balances, Band(Outcome(token), {5}))
    ensures k.account.LockedToken? && LockKey(k.account.lock, token) == k
    ensures k.account.lock in LockedTokens(s, token) && LockedTokens(s, token)[k.account.lock] != 0
  {
  }

  lemma LockedTokensIs(s: Books, token: TokenKey)
    requires Agree(s)
    ensures MapSum(LockedTokens(s, token)) == Sum(s.balances, Band(Outcome(token), {5}))
  {
    var m, n := LockedTokens(s, token), Selected(s.balances, Band(Outcome(token), {5}));
    var f := (id: Id) => LockKey(id, token);
    forall id | id in m && m[id] != 0
      ensures f(id) in n && n[f(id)] == m[id]
    {
      LockedTokenAt(s, token, id);
    }
    forall k | k in n
      ensures exists id :: id in m && m[id] != 0 && f(id) == k
    {
      LockOfBalance(s, token, k);
      assert f(k.account.lock) == k;
    }
    MapSumRenameNonZero(m, n, f);
  }

  lemma NoCashKinds(b: Balances, token: TokenKey, c: nat)
    requires SoundBalances(b) && c != 2 && c != 3 && c != 5 && c != 11
    ensures KindSum(b, Outcome(token), c) == 0
  {
    forall k | k in b && k.asset == Outcome(token)
      ensures Kind(k.account) != c
    {
      assert EntryOk(b, k);
    }
    EmptyKind(b, Outcome(token), c);
  }

  lemma OnlyTokenKinds(b: Balances, token: TokenKey)
    requires SoundBalances(b)
    ensures Sum(b, Whole(Outcome(token))) == KindSum(b, Outcome(token), 2) + KindSum(b, Outcome(token), 3)
                                           + KindSum(b, Outcome(token), 5) + KindSum(b, Outcome(token), 11)
  {
    KindByKind(b, Outcome(token));
    NoCashKinds(b, token, 0);
    NoCashKinds(b, token, 1);
    NoCashKinds(b, token, 4);
    NoCashKinds(b, token, 6);
    NoCashKinds(b, token, 7);
    NoCashKinds(b, token, 8);
    NoCashKinds(b, token, 9);
    NoCashKinds(b, token, 10);
  }

  lemma TokenSplit(b: Balances, token: TokenKey)
    requires SoundBalances(b) && Conserved(b)
    ensures Bal(b, Key(TokenAvailable, Outcome(token))) + KindSum(b, Outcome(token), 3)
            + KindSum(b, Outcome(token), 5) == -Bal(b, Key(External, Outcome(token)))
  {
    OnlyTokenKinds(b, token);
    var a := Outcome(token);
    var free, world := Key(TokenAvailable, a), Key(External, a);
    assert Kind(free.account) == 2 && Kind(world.account) == 11;
    SingleKind(b, free);
    SingleKind(b, world);
    assert KindSum(b, a, 2) == Bal(b, free) && KindSum(b, a, 11) == Bal(b, world);
    assert Sum(b, Whole(a)) == 0;
  }

  /** Over every run, each token's available, reserved and locked amounts are what the outside world gave. */
  lemma TokenIdentity(cs: seq<LedgerCommand>, token: TokenKey)
    ensures var s := Reached(cs).books;
      Bal(s.balances, Key(TokenAvailable, Outcome(token))) + MapSum(Holdings(s.reservations, Token(token)))
      + MapSum(LockedTokens(s, token)) == -Bal(s.balances, Key(External, Outcome(token)))
  {
    var s := Reached(cs).books;
    ReachedInv(cs);
    TokenSplit(s.balances, token);
    HoldingsAreHeld(s, Token(token));
    LockedTokensIs(s, token);
  }

  // ----- reservation conservation -----

  /** What a confirmation takes out of a reservation. */
  function Takes(action: Action, id: Id): int {
    match action
    case ConfirmBuy(r, _, _, consideration, fee, _) => if r == id then consideration + fee else 0
    case ConfirmSell(r, quantity, _, _, _) => if r == id then quantity else 0
    case ConfirmSplit(r, _, _, quantity, _) => if r == id then quantity else 0
    case ConfirmRedemption(r, quantity, _, _) => if r == id then quantity else 0
    case _ => 0
  }

  /** What a release gives back from a reservation. */
  function Returns(s: Books, action: Action, id: Id): int {
    if action == ReleaseReservation(id) then Remaining(s, id) else 0
  }

  predicate Reserves(action: Action, id: Id) {
    (action.ReserveCollateral? || action.ReserveToken?) && action.reservationId == id
  }

  /** How one performed action changes one reservation. */
  ghost predicate ReservationStep(s: Books, action: Action, s': Books, id: Id) {
    if id in s.reservations then
      var r := s.reservations[id];
      && id in s'.reservations
      && s'.reservations[id].asset == r.asset && s'.reservations[id].original == r.original
      && s'.reservations[id].remaining == r.remaining - Takes(action, id) - Returns(s, action, id)
      && (!r.status.Active? ==> s'.reservations[id] == r)
      && (s'.reservations[id].status.Released? <==> r.status.Released? || action == ReleaseReservation(id))
    else
      && Takes(action, id) == 0 && Returns(s, action, id) == 0
      && (id in s'.reservations <==> Reserves(action, id))
      && (id in s'.reservations ==>
            s'.reservations[id].original == s'.reservations[id].remaining && s'.reservations[id].status.Active?)
  }

  lemma KeptReservationStep(s: Books, action: Action, id: Id)
    requires Perform(s, action).Ok? && (action.FundCollateral? || action.LockPair? || action.ConfirmMerge?)
    ensures ReservationStep(s, action, Perform(s, action).value, id)
  {
  }

  lemma NewReservationStep(s: Books, action: Action, id: Id)
    requires Perform(s, action).Ok? && (action.ReserveCollateral? || action.ReserveToken?)
    ensures ReservationStep(s, action, Perform(s, action).value, id)
  {
  }

  lemma ReleasedReservationStep(s: Books, action: Action, id: Id)
    requires Agree(s) && Perform(s, action).Ok? && action.ReleaseReservation?
    ensures ReservationStep(s, action, Perform(s, action).value, id)
  {
  }

  lemma MovingReservationStep(s: Books, action: Action, id: Id)
    requires Agree(s) && Perform(s, action).Ok?
    requires action.FundCollateral? || action.ReserveCollateral? || action.ReserveToken? || action.ReleaseReservation?
             || action.LockPair? || action.ConfirmMerge?
    ensures ReservationStep(s, action, Perform(s, action).value, id)
  {
    if action.ReleaseReservation? {
      ReleasedReservationStep(s, action, id);
    } else if action.ReserveCollateral? || action.ReserveToken? {
      NewReservationStep(s, action, id);
    } else {
      KeptReservationStep(s, action, id);
    }
  }

  lemma ConsumeStep(s: Books, action: Action, s': Books, target: Id, amount: int, id: Id)
    requires ReservationsBacked(s) && ActiveReservation(s, target).Ok?
    requires Consume(s.reservations, target, amount) == Ok(s'.reservations)
    requires Takes(action, id) == (if id == target then amount else 0)
    requires !action.ReleaseReservation? && !action.ReserveCollateral? && !action.ReserveToken?
    ensures ReservationStep(s, action, s', id)
  {
  }

  lemma BuyConsumes(s: Books, id: Id, token: TokenKey, quantity: int, consideration: int, fee: int)
    requires Buy(s, id, token, quantity, consideration, fee).Ok?
    ensures ActiveReservation(s, id).Ok?
    ensures Consume(s.reservations, id, consideration + fee)
         == Ok(Buy(s, id, token, quantity, consideration, fee).value.reservations)
  {
  }

  lemma SellConsumes(s: Books, id: Id, quantity: int, gross: int, fee: int)
    requires Sell(s, id, quantity, gross, fee).Ok?
    ensures ActiveReservation(s, id).Ok?
    ensures Consume(s.reservations, id, quantity) == Ok(Sell(s, id, quantity, gross, fee).value.reservations)
  {
  }

  lemma SplitConsumes(s: Books, id: Id, up: TokenKey, down: TokenKey, quantity: int)
    requires Split(s, id, up, down, quantity).Ok?
    ensures ActiveReservation(s, id).Ok?
    ensures Consume(s.reservations, id, quantity) == Ok(Split(s, id, up, down, quantity).value.reservations)
  {
  }

  lemma RedeemConsumes(s: Books, id: Id, quantity: int, payout: int)
    requires Redeem(s, id, quantity, payout).Ok?
    ensures ActiveReservation(s, id).Ok?
    ensures Consume(s.reservations, id, quantity) == Ok(Redeem(s, id, quantity, payout).value.reservations)
  {
  }

  lemma ConfirmReservationStep(s: Books, action: Action, id: Id)
    requires Agree(s) && Perform(s, action).Ok?
    requires action.ConfirmBuy? || action.ConfirmSell? || action.ConfirmSplit? || action.ConfirmRedemption?
    ensures ReservationStep(s, action, Perform(s, action).value, id)
  {
    var s' := Perform(s, action).value;
    match action
    case ConfirmBuy(target, token, quantity, consideration, fee, _) =>
      BuyConsumes(s, target, token, quantity, consideration, fee);
      ConsumeStep(s, action, s', target, consideration + fee, id);
    case ConfirmSell(target, quantity, gross, fee, _) =>
      SellConsumes(s, target, quantity, gross, fee);
      ConsumeStep(s, action, s', target, quantity, id);
    case ConfirmSplit(target, up, down, quantity, _) =>
      SplitConsumes(s, target, up, down, quantity);
      ConsumeStep(s, action, s', target, quantity, id);
    case ConfirmRedemption(target, quantity, payout, _) =>
      RedeemConsumes(s, target, quantity, payout);
      ConsumeStep(s, action, s', target, quantity, id);
  }

  lemma AppliedReservationStep(s: Ledger, c: LedgerCommand, id: Id)
    requires Inv(s) && Apply(s, c).answer == Ok(Applied)
    ensures ReservationStep(s.books, c.action, Apply(s, c).ledger.books, id)
  {
    AppliedPerforms(s, c);
    if c.action.ConfirmBuy? || c.action.ConfirmSell? || c.action.ConfirmSplit? || c.action.ConfirmRedemption? {
      ConfirmReservationStep(s.books, c.action, id);
    } else {
      MovingReservationStep(s.books, c.action, id);
    }
  }

  /** Everything confirmations took out of a reservation during a run. */
  function Taken(cs: seq<LedgerCommand>, id: Id): int {
    if |cs| == 0 then 0
    else
      var n := |cs| - 1;
      Taken(cs[..n], id) + (if AnswerAt(cs, n) == Ok(Applied) then Takes(cs[n].action, id) else 0)
  }

  /** Everything releases gave back from a reservation during a run. */
  function Returned(cs: seq<LedgerCommand>, id: Id): int {
    if |cs| == 0 then 0
    else
      var n := |cs| - 1;
      Returned(cs[..n], id)
      + (if AnswerAt(cs, n) == Ok(Applied) then Returns(Reached(cs[..n]).books, cs[n].action, id) else 0)
  }

  lemma BooksStep(s: Ledger, c: LedgerCommand, id: Id)
    requires Inv(s)
    ensures if Apply(s, c).answer == Ok(Applied)
            then ReservationStep(s.books, c.action, Apply(s, c).ledger.books, id)
            else Apply(s, c).ledger.books == s.books
  {
    if Apply(s, c).answer == Ok(Applied) {
      AppliedReservationStep(s, c, id);
    } else {
      StepHistory(s, c);
    }
  }

  /** A reservation accounts for `taken` and `returned` in full. */
  ghost predicate Accounted(s: Books, id: Id, taken: int, returned: int) {
    if id in s.reservations then
      var r := s.reservations[id];
      && r.original == r.remaining + taken + returned
      && (r.status.Active? <==> r.remaining > 0)
      && (!r.status.Released? ==> returned == 0)
    else
      taken == returned == 0
  }

  lemma AccountedStep(s: Books, action: Action, s': Books, id: Id, taken: int, returned: int)
    requires ReservationsBacked(s) && ReservationsBacked(s')
    requires Accounted(s, id, taken, returned) && ReservationStep(s, action, s', id)
    ensures Accounted(s', id, taken + Takes(action, id), returned + Returns(s, action, id))
  {
  }

  /**
   * Over every run a reservation's original amount is what remains, plus what confirmations took,
   * plus what a release gave back; nothing moves for an id that was never reserved, and only an
   * active reservation has anything remaining.
   */
  lemma {:induction false} ReservationConservation(cs: seq<LedgerCommand>, id: Id)
    ensures Accounted(Reached(cs).books, id, Taken(cs, id), Returned(cs, id))
  {
    if |cs| > 0 {
      var n := |cs| - 1;
      var s, c := Reached(cs[..n]), cs[n];
      ReservationConservation(cs[..n], id);
      ReachedInv(cs[..n]);
      ReachedInv(cs);
      BooksStep(s, c, id);
      if Apply(s, c).answer == Ok(Applied) {
        AccountedStep(s.books, c.action, Reached(cs).books, id, Taken(cs[..n], id), Returned(cs[..n], id));
      }
    }
  }

  /** The reservation still exists, unchanged in identity, and unchanged altogether once finished. */
  ghost predicate Persists(before: Books, after: Books, id: Id) {
    && id in before.reservations && id in after.reservations
    && after.reservations[id].asset == before.reservations[id].asset
    && after.reservations[id].original == before.reservations[id].original
    && (!before.reservations[id].status.Active? ==> after.reservations[id] == before.reservations[id])
  }

  lemma PersistsNext(s: Ledger, c: LedgerCommand, id: Id)
    requires Inv(s) && id in s.books.reservations
    ensures Persists(s.books, Apply(s, c).ledger.books, id)
  {
    BooksStep(s, c, id);
  }

  lemma {:induction false} PersistsChain(books: seq<Books>, m: nat, n: nat, id: Id)
    requires forall i :: 0 <= i < |books| - 1 && id in books[i].reservations ==> Persists(books[i], books[i + 1], id)
    requires m <= n < |books| && id in books[m].reservations
    ensures Persists(books[m], books[n], id)
  {
    if m < n {
      PersistsChain(books, m, n - 1, id);
      assert Persists(books[n - 1], books[n - 1 + 1], id);
    }
  }

  lemma PrefixNext(cs: seq<LedgerCommand>, n: nat)
    requires n < |cs|
    ensures Reached(cs[..n + 1]) == Apply(Reached(cs[..n]), cs[n]).ledger
  {
    assert cs[..n + 1] == cs[..n] + [cs[n]];
    ReachedNext(cs[..n], cs[n]);
  }

  /** A reservation keeps its identity for the rest of the run; a finished one never changes again. */
  lemma ReservationPersists(cs: seq<LedgerCommand>, m: nat, n: nat, id: Id)
    requires m <= n <= |cs| && id in Reached(cs[..m]).books.reservations
    ensures Persists(Reached(cs[..m]).books, Reached(cs[..n]).books, id)
  {
    var books := seq(|cs| + 1, i requires 0 <= i <= |cs| => Reached(cs[..i]).books);
    forall i | 0 <= i < |books| - 1 && id in books[i].reservations
      ensures Persists(books[i], books[i + 1], id)
    {
      ReachedInv(cs[..i]);
      PersistsNext(Reached(cs[..i]), cs[i], id);
      PrefixNext(cs, i);
    }
    PersistsChain(books, m, n, id);
  }

  lemma ReserveNeedsFresh(s: Ledger, c: LedgerCommand, id: Id)
    requires Reserves(c.action, id) && Apply(s, c).answer == Ok(Applied)
    ensures id !in s.books.reservations
  {
    AppliedPerforms(s, c);
  }

  /** An id is reserved at most once: a later request for it is never applied. */
  lemma ReservedOnce(cs: seq<LedgerCommand>, i: nat, j: nat, id: Id)
    requires i < j < |cs|
    requires AnswerAt(cs, i) == Ok(Applied) && Reserves(cs[i].action, id) && Reserves(cs[j].action, id)
    ensures AnswerAt(cs, j) != Ok(Applied)
  {
    ReachedInv(cs[..i]);
    BooksStep(Reached(cs[..i]), cs[i], id);
    ReserveNeedsFresh(Reached(cs[..i]), cs[i], id);
    PrefixNext(cs, i);
    ReservationPersists(cs, i + 1, j, id);
    if AnswerAt(cs, j) == Ok(Applied) {
      ReserveNeedsFresh(Reached(cs[..j]), cs[j], id);
    }
  }
}
