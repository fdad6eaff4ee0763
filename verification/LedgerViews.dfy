/** The read-only views, and why none of them can overflow or panic on a reachable state. */
module LedgerViews {
  import opened Results
  import opened LedgerTypes
  import opened MapSums
  import opened DoubleEntry
  import opened LedgerSpec
  import opened LedgerInvariant
  import opened LedgerTotals
  import opened LedgerHistory
  import opened LedgerIdentity
  import opened PairFlow

  datatype Snapshot = Snapshot(
    accepted: nat, cashAvailable: int, cashReserved: int, pnl: Pnl,
    activeReservations: nat, activeLocks: nat, halted: bool)

  /** Unchecked cash sum and an `.expect` on the P&L: both would trap. */
  function TakeSnapshot(s: Ledger): Outcome<Snapshot> {
    var reserved :- HeldTotal(s.books.reservations, Cash);
    match CheckedPnl(s.books)
    case Err(_) => Err(Trap)
    case Ok(pnl) =>
      Ok(Snapshot(
        s.accepted, Bal(s.books.balances, Money(CashAvailable)), reserved, pnl,
        |set id | id in s.books.reservations && s.books.reservations[id].status.Active?|,
        |set id | id in s.books.locks && s.books.locks[id].status.Locked?|,
        s.halted))
  }

  function AmountOf(totals: map<TokenKey, int>, token: TokenKey): int {
    if token in totals then totals[token] else 0
  }

  /** Token amounts over the chosen account kinds, summed in key order with an `.expect` at each addition. */
  function TokenTotals(b: Balances, keys: seq<Key>, kinds: set<nat>): Outcome<map<TokenKey, int>>
    requires forall k :: k in keys ==> k in b
  {
    if |keys| == 0 then Ok(map[])
    else
      var totals :- TokenTotals(b, keys[..|keys| - 1], kinds);
      TokenEntry(totals, keys[|keys| - 1], b[keys[|keys| - 1]], kinds)
  }

  function TokenEntry(totals: map<TokenKey, int>, k: Key, balance: int, kinds: set<nat>)
    : Outcome<map<TokenKey, int>>
  {
    if Kind(k.account) in kinds && k.asset.Outcome? then
      var total :- UncheckedAdd(AmountOf(totals, k.asset.outcome), balance);
      Ok(totals[k.asset.outcome := total])
    else Ok(totals)
  }

  /** The category's tokens, those with a zero balance dropped. */
  function TokenCategory(b: Balances, kinds: set<nat>): Outcome<map<TokenKey, int>> {
    var totals :- TokenTotals(b, SortedKeys(b.Keys), kinds);
    Ok(map t | t in totals && totals[t] != 0 :: totals[t])
  }

  datatype ReconciliationView = ReconciliationView(
    accepted: nat, halted: bool, collateral: int, tokens: map<TokenKey, int>, present: set<Id>)

  function Reconcile(s: Ledger, requested: set<Id>): Outcome<ReconciliationView> {
    var snapshot :- TakeSnapshot(s);
    var tokens :- TokenCategory(s.books.balances, {2, 3, 5});
    var collateral :- UncheckedAdd(snapshot.cashAvailable, snapshot.cashReserved);
    Ok(ReconciliationView(s.accepted, s.halted, collateral, tokens, set id | id in requested && id in s.processed))
  }

  datatype RiskView = RiskView(
    halted: bool, cashAvailable: int, cashReserved: int,
    available: map<TokenKey, int>, reserved: map<TokenKey, int>, locked: map<TokenKey, int>)

  function Risk(s: Ledger): Outcome<RiskView> {
    var snapshot :- TakeSnapshot(s);
    var available :- TokenCategory(s.books.balances, {2});
    var reserved :- TokenCategory(s.books.balances, {3});
    var locked :- TokenCategory(s.books.balances, {5});
    Ok(RiskView(s.halted, snapshot.cashAvailable, snapshot.cashReserved, available, reserved, locked))
  }

  // ----- no view can trap -----

  lemma TokenPartFits(b: Balances, keys: seq<Key>, n: nat, token: TokenKey, kinds: set<nat>)
    requires SoundBalances(b) && BordersFit(b) && n <= |keys|
    requires forall k :: k in kinds ==> k < 6
    ensures 0 <= PartOf(b, keys, n, Band(Outcome(token), kinds)) <= I128_MAX
  {
    FrontBounds(b, Outcome(token), kinds, 6);
    AmongBounds(Selected(b, Band(Outcome(token), kinds)), keys[..n]);
  }

  lemma TokenPartNext(b: Balances, keys: seq<Key>, n: nat, token: TokenKey, kinds: set<nat>)
    requires Listing(b, keys) && n < |keys|
    ensures var k, sel := keys[n], Band(Outcome(token), kinds);
      PartOf(b, keys, n + 1, sel) == PartOf(b, keys, n, sel) + (if Hits(sel, k) then b[k] else 0)
  {
    AmongNext(Selected(b, Band(Outcome(token), kinds)), keys, n);
    assert keys[n] in b;
  }

  lemma TokenTotalsUnfold(b: Balances, keys: seq<Key>, n: nat, kinds: set<nat>)
    requires Listing(b, keys) && n < |keys|
    ensures var before := TokenTotals(b, keys[..n], kinds);
      TokenTotals(b, keys[..n + 1], kinds)
      == if before.Ok? then TokenEntry(before.value, keys[n], b[keys[n]], kinds) else before
  {
    assert keys[..n + 1][..n] == keys[..n];
  }

  ghost predicate TotalsMatch(b: Balances, keys: seq<Key>, n: nat, kinds: set<nat>, totals: map<TokenKey, int>)
    requires n <= |keys|
  {
    forall t :: AmountOf(totals, t) == PartOf(b, keys, n, Band(Outcome(t), kinds))
  }

  lemma TokenEntryFits(b: Balances, keys: seq<Key>, n: nat, kinds: set<nat>, totals: map<TokenKey, int>)
    requires SoundBalances(b) && BordersFit(b) && Listing(b, keys) && n < |keys|
    requires forall k :: k in kinds ==> k < 6
    requires TotalsMatch(b, keys, n, kinds, totals)
    ensures TokenEntry(totals, keys[n], b[keys[n]], kinds).Ok?
  {
    var k := keys[n];
    if k.asset.Outcome? {
      TokenPartFits(b, keys, n + 1, k.asset.outcome, kinds);
      TokenPartNext(b, keys, n, k.asset.outcome, kinds);
    }
  }

  lemma TokenEntryMatches(b: Balances, keys: seq<Key>, n: nat, m: nat, kinds: set<nat>, totals: map<TokenKey, int>)
    requires SoundBalances(b) && BordersFit(b) && Listing(b, keys) && n < m == n + 1 <= |keys|
    requires forall k :: k in kinds ==> k < 6
    requires TotalsMatch(b, keys, n, kinds, totals)
    ensures var r := TokenEntry(totals, keys[n], b[keys[n]], kinds);
      r.Ok? && TotalsMatch(b, keys, m, kinds, r.value)
  {
    TokenEntryFits(b, keys, n, kinds, totals);
    var k := keys[n];
    var after := TokenEntry(totals, k, b[k], kinds).value;
    forall t ensures AmountOf(after, t) == PartOf(b, keys, m, Band(Outcome(t), kinds)) {
      TokenPartNext(b, keys, n, t, kinds);
    }
  }

  ghost predicate TokenTotalsRight(b: Balances, keys: seq<Key>, n: nat, kinds: set<nat>)
    requires Listing(b, keys) && n <= |keys|
  {
    var r := TokenTotals(b, keys[..n], kinds);
    r.Ok? && TotalsMatch(b, keys, n, kinds, r.value)
  }

  lemma TokenTotalsNext(b: Balances, keys: seq<Key>, n: nat, kinds: set<nat>)
    requires SoundBalances(b) && BordersFit(b) && Listing(b, keys) && n < |keys|
    requires forall k :: k in kinds ==> k < 6
    requires TokenTotalsRight(b, keys, n, kinds)
    ensures TokenTotalsRight(b, keys, n + 1, kinds)
  {
    TokenTotalsUnfold(b, keys, n, kinds);
    TokenEntryMatches(b, keys, n, n + 1, kinds, TokenTotals(b, keys[..n], kinds).value);
  }

  lemma {:induction false} TokenTotalsAre(b: Balances, keys: seq<Key>, n: nat, kinds: set<nat>)
    requires SoundBalances(b) && BordersFit(b) && Listing(b, keys) && n <= |keys|
    requires forall k :: k in kinds ==> k < 6
    ensures TokenTotalsRight(b, keys, n, kinds)
  {
    if n == 0 {
      forall t ensures PartOf(b, keys, 0, Band(Outcome(t), kinds)) == 0 {
        assert Among(Selected(b, Band(Outcome(t), kinds)), keys[..0]).Keys == {};
      }
    } else {
      var before: nat := n - 1;
      TokenTotalsAre(b, keys, before, kinds);
      TokenTotalsNext(b, keys, before, kinds);
      assert before + 1 == n;
    }
  }

  /** The totals over available, reserved and locked accounts never leave i128, whatever the selection. */
  lemma CategoryIs(b: Balances, kinds: set<nat>)
    requires SoundBalances(b) && BordersFit(b)
    requires forall k :: k in kinds ==> k < 6
    ensures TokenCategory(b, kinds).Ok?
    ensures forall t :: AmountOf(TokenCategory(b, kinds).value, t) == Sum(b, Band(Outcome(t), kinds))
    ensures forall t :: t in TokenCategory(b, kinds).value ==> TokenCategory(b, kinds).value[t] != 0
  {
    var keys := SortedKeys(b.Keys);
    assert keys[..|keys|] == keys;
    TokenTotalsAre(b, keys, |keys|, kinds);
    forall t ensures PartOf(b, keys, |keys|, Band(Outcome(t), kinds)) == Sum(b, Band(Outcome(t), kinds)) {
      AmongAll(Selected(b, Band(Outcome(t), kinds)), keys);
    }
  }

  lemma CashFits(s: Books)
    requires Agree(s) && BordersFit(s.balances)
    ensures 0 <= Bal(s.balances, Money(CashAvailable)) && 0 <= KindSum(s.balances, Collateral, 1)
    ensures Bal(s.balances, Money(CashAvailable)) + KindSum(s.balances, Collateral, 1) <= I128_MAX
  {
    FrontBounds(s.balances, Collateral, {0, 1}, 2);
    SumSplit(s.balances, Collateral, {0, 1}, {0}, {1});
    SumSign(s.balances, Collateral, {0});
    SumSign(s.balances, Collateral, {1});
    BandOne(s.balances, Money(CashAvailable));
  }

  /** On every reachable state the snapshot exists, with its cash figures. */
  lemma SnapshotCash(s: Ledger)
    requires Inv(s)
    ensures TakeSnapshot(s).Ok?
    ensures var v := TakeSnapshot(s).value;
      && v.cashAvailable == Bal(s.books.balances, Money(CashAvailable))
      && v.cashReserved == MapSum(Holdings(s.books.reservations, Cash)) == KindSum(s.books.balances, Collateral, 1)
  {
    VerifyExactly(s.books);
    CashFits(s.books);
    HeldTotalIs(s.books, Cash);
    HoldingsAreHeld(s.books, Cash);
  }

  /**
   * On every reachable state the snapshot exists: its cash reserved is what reservations hold, its locked
   * P&L is payout less cost over the active locks, and it counts the reservations with something left and
   * the locks with tokens in them.
   */
  lemma SnapshotSound(s: Ledger)
    requires Inv(s)
    ensures TakeSnapshot(s).Ok?
    ensures var v := TakeSnapshot(s).value;
      && v.accepted == |s.processed| && v.halted == s.halted
      && v.cashReserved == MapSum(Holdings(s.books.reservations, Cash)) == KindSum(s.books.balances, Collateral, 1)
      && v.cashAvailable == Bal(s.books.balances, Money(CashAvailable))
      && v.pnl == Pnl(Bal(s.books.balances, Money(FeeExpense)), RealizedValue(s.books.balances),
                      MapSum(LockedProfits(s.books.locks)))
      && v.activeReservations == |set id | id in s.books.reservations && Remaining(s.books, id) > 0|
      && v.activeLocks == |set id | id in s.books.locks && Bal(s.books.balances, LockKey(id, s.books.locks[id].up)) > 0|
  {
    VerifyExactly(s.books);
    SnapshotCash(s);
    RealizedIs(s.books);
    LockedPnlIs(s.books);
    ActiveHold(s.books);
  }

  /** Active reservations are those with something left, active locks those with tokens in them. */
  lemma ActiveHold(s: Books)
    requires Agree(s)
    ensures (set id | id in s.reservations && s.reservations[id].status.Active?)
         == set id | id in s.reservations && Remaining(s, id) > 0
    ensures (set id | id in s.locks && s.locks[id].status.Locked?)
         == set id | id in s.locks && Bal(s.balances, LockKey(id, s.locks[id].up)) > 0
  {
    forall id | id in s.reservations
      ensures s.reservations[id].status.Active? <==> Remaining(s, id) > 0
    {
    }
    forall id | id in s.locks
      ensures s.locks[id].status.Locked? <==> Bal(s.balances, LockKey(id, s.locks[id].up)) > 0
    {
    }
  }

  lemma HeldTokensAre(b: Balances, token: TokenKey)
    requires SoundBalances(b) && Conserved(b)
    ensures Sum(b, Band(Outcome(token), {2, 3, 5})) == -Bal(b, Key(External, Outcome(token)))
  {
    SumSplit(b, Outcome(token), {2, 3, 5}, {2, 3}, {5});
    LooseIs(b, token);
    TokenSplit(b, token);
  }

  lemma TokensSound(b: Balances)
    requires SoundBalances(b) && Conserved(b) && BordersFit(b)
    ensures var r := TokenCategory(b, {2, 3, 5});
      && r.Ok?
      && (forall t :: AmountOf(r.value, t) == -Bal(b, Key(External, Outcome(t))))
      && (forall t :: t in r.value ==> r.value[t] > 0)
  {
    CategoryIs(b, {2, 3, 5});
    var tokens := TokenCategory(b, {2, 3, 5}).value;
    forall t
      ensures AmountOf(tokens, t) == -Bal(b, Key(External, Outcome(t)))
      ensures t in tokens ==> tokens[t] > 0
    {
      HeldTokensAre(b, t);
      SumSign(b, Outcome(t), {2, 3, 5});
    }
  }

  /**
   * On every reachable state the reconciliation view exists; it counts the accepted commands, its collateral
   * is all cash, each token's balance is exactly what the outside world has given, and it names exactly the
   * requested accepted ids.
   */
  lemma ReconcileSound(s: Ledger, requested: set<Id>)
    requires Inv(s)
    ensures Reconcile(s, requested).Ok?
    ensures var v := Reconcile(s, requested).value;
      && v.accepted == |s.processed| && v.halted == s.halted
      && v.collateral == Bal(s.books.balances, Money(CashAvailable)) + MapSum(Holdings(s.books.reservations, Cash))
      && (forall t :: AmountOf(v.tokens, t) == -Bal(s.books.balances, Key(External, Outcome(t))))
      && (forall t :: t in v.tokens ==> v.tokens[t] > 0)
      && (forall id :: id in v.present <==> id in requested && id in s.processed)
  {
    VerifyExactly(s.books);
    SnapshotCash(s);
    CashFits(s.books);
    TokensSound(s.books.balances);
  }

  /**
   * On every reachable state the risk view exists; its cash is the available balance and what reservations
   * hold, its three token categories are the available balance, what active reservations hold and what active
   * locks hold, and the first two make up the position.
   */
  lemma RiskSound(s: Ledger, token: TokenKey)
    requires Inv(s)
    ensures Risk(s).Ok?
    ensures var v := Risk(s).value;
      && v.halted == s.halted
      && v.cashAvailable == Bal(s.books.balances, Money(CashAvailable))
      && v.cashReserved == MapSum(Holdings(s.books.reservations, Cash))
      && AmountOf(v.available, token) == Bal(s.books.balances, Key(TokenAvailable, Outcome(token)))
      && AmountOf(v.reserved, token) == MapSum(Holdings(s.books.reservations, Token(token)))
      && AmountOf(v.locked, token) == MapSum(LockedTokens(s.books, token))
      && AmountOf(v.available, token) + AmountOf(v.reserved, token) == Position(s.books.costs, token).quantity
  {
    VerifyExactly(s.books);
    SnapshotCash(s);
    CategoriesAre(s.books, token);
    assert PositionBacked(s.books, token);
    LooseIs(s.books.balances, token);
  }

  lemma CategoriesAre(s: Books, token: TokenKey)
    requires Agree(s) && BordersFit(s.balances)
    ensures var free, held, locked :=
        TokenCategory(s.balances, {2}), TokenCategory(s.balances, {3}), TokenCategory(s.balances, {5});
      && free.Ok? && held.Ok? && locked.Ok?
      && AmountOf(free.value, token) == Bal(s.balances, Key(TokenAvailable, Outcome(token)))
      && AmountOf(held.value, token) == MapSum(Holdings(s.reservations, Token(token)))
                                     == Sum(s.balances, Band(Outcome(token), {3}))
      && AmountOf(locked.value, token) == MapSum(LockedTokens(s, token))
  {
    CategoryIs(s.balances, {2});
    CategoryIs(s.balances, {3});
    CategoryIs(s.balances, {5});
    SingleKind(s.balances, Key(TokenAvailable, Outcome(token)));
    HoldingsAreHeld(s, Token(token));
    LockedTokensIs(s, token);
  }
}
