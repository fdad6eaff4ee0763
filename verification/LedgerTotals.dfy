/** When the run-time re-check of the ledger passes, and what its running totals bound. */
module LedgerTotals {
  import opened Results
  import opened LedgerTypes
  import opened MapSums
  import opened DoubleEntry
  import opened LedgerSpec
  import opened LedgerInvariant

  /** An asset's balances, summed kind by kind in account order, stay within i128 at every kind. */
  ghost predicate BordersFit(b: Balances) {
    forall a, h: nat :: h <= KINDS ==> Fits(Sum(b, Band(a, Upto(h))))
  }

  /** The running total of one asset after the first `n` keys. */
  ghost function RunningTotal(b: Balances, keys: seq<Key>, n: nat, a: Asset): int
    requires n <= |keys|
  {
    MapSum(Among(Selected(b, Whole(a)), keys[..n]))
  }

  ghost predicate Listing(b: Balances, keys: seq<Key>) {
    && (forall k :: k in keys <==> k in b)
    && (forall i, j :: 0 <= i < j < |keys| ==> keys[i] != keys[j] && Kind(keys[i].account) <= Kind(keys[j].account))
  }

  lemma RunningTotalNext(b: Balances, keys: seq<Key>, n: nat, a: Asset)
    requires Listing(b, keys) && n < |keys|
    ensures RunningTotal(b, keys, n + 1, a)
         == RunningTotal(b, keys, n, a) + (if keys[n].asset == a then b[keys[n]] else 0)
  {
    AmongNext(Selected(b, Whole(a)), keys, n);
    assert keys[n] in b;
  }

  ghost predicate PrefixesFit(b: Balances, keys: seq<Key>, n: nat)
    requires n <= |keys|
  {
    forall m: nat, a :: m <= n ==> Fits(RunningTotal(b, keys, m, a))
  }

  lemma NoKeysNoTotal(b: Balances, keys: seq<Key>, a: Asset)
    ensures RunningTotal(b, keys, 0, a) == 0
  {
    assert Among(Selected(b, Whole(a)), keys[..0]).Keys == {};
  }

  lemma PrefixesFitNext(b: Balances, keys: seq<Key>, n: nat)
    requires Listing(b, keys) && n < |keys|
    ensures PrefixesFit(b, keys, n + 1)
       <==> PrefixesFit(b, keys, n) && Fits(RunningTotal(b, keys, n + 1, keys[n].asset))
  {
    if PrefixesFit(b, keys, n) && Fits(RunningTotal(b, keys, n + 1, keys[n].asset)) {
      forall m: nat, a | m <= n + 1
        ensures Fits(RunningTotal(b, keys, m, a))
      {
        if m == n + 1 {
          RunningTotalNext(b, keys, n, a);
          assert Fits(RunningTotal(b, keys, n, a));
        }
      }
    }
  }

  lemma TotalsUnfold(b: Balances, keys: seq<Key>, n: nat)
    requires Listing(b, keys) && 0 < n <= |keys|
    ensures var before := TotalsCheck(b, keys[..n - 1]);
      TotalsCheck(b, keys[..n])
      == if before.Ok? then TotalsEntry(before.value, keys[n - 1], b[keys[n - 1]]) else before
  {
    assert keys[..n][..n - 1] == keys[..n - 1];
  }

  ghost predicate TotalsRight(b: Balances, keys: seq<Key>, n: nat)
    requires Listing(b, keys) && n <= |keys|
  {
    var r := TotalsCheck(b, keys[..n]);
    && (r.Ok? <==> PrefixesFit(b, keys, n))
    && (r.Err? ==> r.error == Overflow)
    && (r.Ok? ==> forall a :: TotalOf(r.value, a) == RunningTotal(b, keys, n, a))
  }

  lemma TotalsRightNext(b: Balances, keys: seq<Key>, n: nat, m: nat)
    requires SoundBalances(b) && Listing(b, keys) && n < m == n + 1 <= |keys| && TotalsRight(b, keys, n)
    ensures TotalsRight(b, keys, m)
  {
    var k := keys[n];
    PrefixesFitNext(b, keys, n);
    RunningTotalNext(b, keys, n, k.asset);
    TotalsUnfold(b, keys, m);
    assert EntryOk(b, k);
    var before, r := TotalsCheck(b, keys[..n]), TotalsCheck(b, keys[..m]);
    if before.Ok? {
      assert TotalOf(before.value, k.asset) == RunningTotal(b, keys, n, k.asset);
    }
    if r.Ok? {
      forall a ensures TotalOf(r.value, a) == RunningTotal(b, keys, m, a) {
        RunningTotalNext(b, keys, n, a);
        assert TotalOf(before.value, a) == RunningTotal(b, keys, n, a);
      }
    }
  }

  lemma TotalsRightStart(b: Balances, keys: seq<Key>)
    requires Listing(b, keys)
    ensures TotalsRight(b, keys, 0)
  {
    forall a ensures RunningTotal(b, keys, 0, a) == 0 { NoKeysNoTotal(b, keys, a); }
    assert keys[..0] == [];
    assert forall m: nat, a :: m <= 0 ==> Fits(RunningTotal(b, keys, m, a));
  }

  /** The checked loop computes the running totals, and fails exactly when one leaves the range. */
  lemma {:induction false} TotalsLoop(b: Balances, keys: seq<Key>, n: nat)
    requires SoundBalances(b) && Listing(b, keys) && n <= |keys|
    ensures TotalsRight(b, keys, n)
  {
    if n == 0 {
      TotalsRightStart(b, keys);
    } else {
      var before: nat := n - 1;
      TotalsLoop(b, keys, before);
      TotalsRightNext(b, keys, before, n);
    }
  }

  ghost function PartOf(b: Balances, keys: seq<Key>, n: nat, sel: Selector): int
    requires n <= |keys|
  {
    MapSum(Among(Selected(b, sel), keys[..n]))
  }

  /** Part of the entries of non-positive values lies between all of them and nothing. */
  lemma AmongNonPositive(m: map<Key, int>, ks: seq<Key>)
    requires forall k :: k in m ==> m[k] <= 0
    ensures MapSum(m) <= MapSum(Among(m, ks)) <= 0
  {
    var part := Among(m, ks);
    var rest := map k | k in m && k !in ks :: m[k];
    MapSumSplit(m, part, rest);
    MapSumNonPositive(part);
    MapSumNonPositive(rest);
  }

  /** Within one kind all entries of an asset have one sign, so a part lies between nothing and all. */
  lemma PartBounds(b: Balances, keys: seq<Key>, n: nat, a: Asset, c: nat)
    requires SoundBalances(b) && n <= |keys|
    ensures var part, all := PartOf(b, keys, n, Band(a, {c})), Sum(b, Band(a, {c}));
      0 <= part <= all || all <= part <= 0
  {
    var m := Selected(b, Band(a, {c}));
    if c == 8 || c == 10 || c == 11 {
      AmongNonPositive(m, keys[..n]);
    } else {
      AmongBounds(m, keys[..n]);
    }
  }

  /** The first `n` keys hold everything of a lower kind than the last of them and nothing of a higher. */
  lemma SeenKinds(b: Balances, keys: seq<Key>, n: nat, k: Key)
    requires Listing(b, keys) && n < |keys|
    ensures var c := Kind(keys[n].account);
      && (k in b && Kind(k.account) < c ==> k in keys[..n + 1])
      && (k in keys[..n + 1] ==> k in b && Kind(k.account) <= c)
  {
    if k in keys[..n + 1] {
      var i :| 0 <= i < n + 1 && keys[..n + 1][i] == k;
      assert keys[i] == k;
    }
    if k in b && Kind(k.account) < Kind(keys[n].account) {
      assert k in keys;
      var i :| 0 <= i < |keys| && keys[i] == k;
      assert i <= n;
      assert keys[..n + 1][i] == k;
    }
  }

  lemma SplitAtKind(m: map<Key, int>, low: map<Key, int>, level: map<Key, int>, seen: seq<Key>)
    requires forall k :: k in low ==> k in m && m[k] == low[k] && k in seen && k !in level
    requires forall k :: k in level ==> k in m && m[k] == level[k]
    requires forall k :: k in m && k in seen ==> k in low || k in level
    ensures MapSum(Among(m, seen)) == MapSum(low) + MapSum(Among(level, seen))
  {
    MapSumSplit(Among(m, seen), low, Among(level, seen));
  }

  /** After a key of kind `c`: all kinds below `c` are in, none above, and part of `c` itself. */
  lemma RunningTotalSplit(b: Balances, keys: seq<Key>, n: nat, a: Asset)
    requires Listing(b, keys) && n < |keys|
    ensures var c := Kind(keys[n].account);
      RunningTotal(b, keys, n + 1, a) == Sum(b, Band(a, Upto(c))) + PartOf(b, keys, n + 1, Band(a, {c}))
  {
    var c := Kind(keys[n].account);
    forall k
      ensures k in b && Kind(k.account) < c ==> k in keys[..n + 1]
      ensures k in keys[..n + 1] ==> k in b && Kind(k.account) <= c
    {
      SeenKinds(b, keys, n, k);
    }
    SplitAtKind(Selected(b, Whole(a)), Selected(b, Band(a, Upto(c))), Selected(b, Band(a, {c})), keys[..n + 1]);
  }

  lemma RunningTotalBetween(b: Balances, keys: seq<Key>, n: nat, a: Asset)
    requires SoundBalances(b) && Listing(b, keys) && n < |keys| && BordersFit(b)
    ensures Fits(RunningTotal(b, keys, n + 1, a))
  {
    var c := Kind(keys[n].account);
    RunningTotalSplit(b, keys, n, a);
    PartBounds(b, keys, n + 1, a, c);
    SumSplit(b, a, Upto(c + 1), Upto(c), {c});
    var low, level, high := Sum(b, Band(a, Upto(c))), Sum(b, Band(a, {c})), Sum(b, Band(a, Upto(c + 1)));
    assert Fits(low) && Fits(high) && high == low + level;
  }

  /** Where the kinds below `h` end. */
  lemma {:induction false} BorderIndex(b: Balances, keys: seq<Key>, h: nat, n: nat) returns (m: nat)
    requires Listing(b, keys) && n <= |keys|
    requires forall i :: n <= i < |keys| ==> Kind(keys[i].account) >= h
    ensures m <= n
    ensures forall i :: 0 <= i < m ==> Kind(keys[i].account) < h
    ensures forall i :: m <= i < |keys| ==> Kind(keys[i].account) >= h
  {
    if n == 0 || Kind(keys[n - 1].account) < h {
      m := n;
    } else {
      m := BorderIndex(b, keys, h, n - 1);
    }
  }

  lemma BorderMembers(b: Balances, keys: seq<Key>, h: nat, m: nat, k: Key)
    requires Listing(b, keys) && m <= |keys|
    requires forall i :: 0 <= i < m ==> Kind(keys[i].account) < h
    requires forall i :: m <= i < |keys| ==> Kind(keys[i].account) >= h
    ensures k in keys[..m] <==> k in b && Kind(k.account) < h
  {
    if k in keys[..m] {
      var i :| 0 <= i < m && keys[..m][i] == k;
      assert keys[i] == k;
    }
    if k in b && Kind(k.account) < h {
      assert k in keys;
      var i :| 0 <= i < |keys| && keys[i] == k;
      assert keys[..m][i] == k;
    }
  }

  lemma BorderIsRunningTotal(b: Balances, keys: seq<Key>, h: nat, a: Asset) returns (m: nat)
    requires Listing(b, keys) && h <= KINDS
    ensures m <= |keys| && RunningTotal(b, keys, m, a) == Sum(b, Band(a, Upto(h)))
  {
    m := BorderIndex(b, keys, h, |keys|);
    forall k ensures k in keys[..m] <==> k in b && Kind(k.account) < h {
      BorderMembers(b, keys, h, m, k);
    }
    assert Among(Selected(b, Whole(a)), keys[..m]) == Selected(b, Band(a, Upto(h)));
  }

  lemma PrefixFits(b: Balances, keys: seq<Key>, m: nat, a: Asset)
    requires SoundBalances(b) && Listing(b, keys) && BordersFit(b) && m <= |keys|
    ensures Fits(RunningTotal(b, keys, m, a))
  {
    if m == 0 {
      NoKeysNoTotal(b, keys, a);
    } else {
      var n: nat := m - 1;
      RunningTotalBetween(b, keys, n, a);
      assert keys[..n + 1] == keys[..m];
    }
  }

  lemma PrefixesFitWithin(b: Balances, keys: seq<Key>)
    requires SoundBalances(b) && Listing(b, keys) && BordersFit(b)
    ensures PrefixesFit(b, keys, |keys|)
  {
    forall m: nat, a | m <= |keys|
      ensures Fits(RunningTotal(b, keys, m, a))
    {
      PrefixFits(b, keys, m, a);
    }
  }

  lemma BordersFitWithin(b: Balances, keys: seq<Key>)
    requires Listing(b, keys) && PrefixesFit(b, keys, |keys|)
    ensures BordersFit(b)
  {
    forall a, h: nat | h <= KINDS
      ensures Fits(Sum(b, Band(a, Upto(h))))
    {
      var m := BorderIsRunningTotal(b, keys, h, a);
    }
  }

  lemma PrefixesFitExactly(b: Balances, keys: seq<Key>)
    requires SoundBalances(b) && Listing(b, keys)
    ensures PrefixesFit(b, keys, |keys|) <==> BordersFit(b)
  {
    if BordersFit(b) {
      PrefixesFitWithin(b, keys);
    } else if PrefixesFit(b, keys, |keys|) {
      BordersFitWithin(b, keys);
    }
  }

  /**
   * The running totals of the re-check, which visit the balances in key order, stay within i128
   * exactly when the sums by account kind do; a failure is always an overflow.
   */
  lemma RunningTotals(b: Balances)
    requires SoundBalances(b)
    ensures var r := TotalsCheck(b, SortedKeys(b.Keys));
      && (r.Ok? <==> BordersFit(b))
      && (r.Err? ==> r.error == Overflow)
      && (r.Ok? ==> forall a :: TotalOf(r.value, a) == Sum(b, Whole(a)))
  {
    var keys := SortedKeys(b.Keys);
    assert keys[..|keys|] == keys;
    TotalsLoop(b, keys, |keys|);
    PrefixesFitExactly(b, keys);
    forall a ensures RunningTotal(b, keys, |keys|, a) == Sum(b, Whole(a)) {
      AmongAll(Selected(b, Whole(a)), keys);
    }
  }

  // ----- reservations -----

  ghost function Holdings(rs: map<Id, Reservation>, asset: ReservationAsset): map<Id, int> {
    map id | id in rs && rs[id].status.Active? && rs[id].asset == asset :: rs[id].remaining
  }

  function HeldKind(asset: ReservationAsset): nat {
    if asset.Cash? then 1 else 3
  }

  /** What active reservations hold of an asset is what sits in its reserved accounts. */
  lemma HoldingsAreHeld(s: Books, asset: ReservationAsset)
    requires ReservationsBacked(s) && SoundBalances(s.balances)
    ensures MapSum(Holdings(s.reservations, asset)) == Sum(s.balances, Band(AssetOf(asset), {HeldKind(asset)}))
  {
    var m := Holdings(s.reservations, asset);
    var n := Selected(s.balances, Band(AssetOf(asset), {HeldKind(asset)}));
    var f := (id: Id) => HeldKey(id, asset);
    forall k | k in n
      ensures exists id :: id in m && f(id) == k
    {
      var id := k.account.reservation;
      assert id in m && f(id) == k;
    }
    MapSumRename(m, n, f);
  }

  ghost predicate HeldSumRight(rs: map<Id, Reservation>, ids: seq<Id>, asset: ReservationAsset, n: nat)
    requires n <= |ids| && forall id :: id in ids ==> id in rs
  {
    HeldSum(rs, ids[..n], asset) == Ok(MapSum(Among(Holdings(rs, asset), ids[..n])))
  }

  lemma HoldingsNext(rs: map<Id, Reservation>, ids: seq<Id>, asset: ReservationAsset, n: nat)
    requires n < |ids| && ids[n] in rs
    requires forall i, j :: 0 <= i < j < |ids| ==> ids[i] != ids[j]
    requires forall id :: id in rs ==> rs[id].remaining >= 0
    ensures var m, r := Holdings(rs, asset), rs[ids[n]];
      var part, whole := MapSum(Among(m, ids[..n])), MapSum(Among(m, ids[..n + 1]));
      && 0 <= part <= whole <= MapSum(m)
      && whole == part + (if r.status.Active? && r.asset == asset then r.remaining else 0)
  {
    var m := Holdings(rs, asset);
    AmongNext(m, ids, n);
    AmongBounds(m, ids[..n]);
    AmongBounds(m, ids[..n + 1]);
  }

  lemma HeldSumRightNext(rs: map<Id, Reservation>, ids: seq<Id>, asset: ReservationAsset, n: nat)
    requires n < |ids| && forall id :: id in ids ==> id in rs
    requires forall i, j :: 0 <= i < j < |ids| ==> ids[i] != ids[j]
    requires forall id :: id in rs ==> rs[id].remaining >= 0
    requires MapSum(Holdings(rs, asset)) <= I128_MAX && HeldSumRight(rs, ids, asset, n)
    ensures HeldSumRight(rs, ids, asset, n + 1)
  {
    assert ids[n] in rs;
    HoldingsNext(rs, ids, asset, n);
    HeldNext(rs, ids, asset, n, MapSum(Among(Holdings(rs, asset), ids[..n])));
  }

  /** The unchecked sum over reservations cannot leave i128 when the total fits. */
  lemma {:induction false} HeldSumIs(rs: map<Id, Reservation>, ids: seq<Id>, asset: ReservationAsset, n: nat)
    requires forall id :: id in ids ==> id in rs
    requires forall i, j :: 0 <= i < j < |ids| ==> ids[i] != ids[j]
    requires forall id :: id in rs ==> rs[id].remaining >= 0
    requires n <= |ids| && MapSum(Holdings(rs, asset)) <= I128_MAX
    ensures HeldSumRight(rs, ids, asset, n)
  {
    if n == 0 {
      assert Among(Holdings(rs, asset), ids[..0]).Keys == {};
    } else {
      var before: nat := n - 1;
      HeldSumIs(rs, ids, asset, before);
      HeldSumRightNext(rs, ids, asset, before);
      assert before + 1 == n;
    }
  }

  lemma HeldTotalIs(s: Books, asset: ReservationAsset)
    requires ReservationsBacked(s) && SoundBalances(s.balances)
    requires Sum(s.balances, Band(AssetOf(asset), {HeldKind(asset)})) <= I128_MAX
    ensures HeldTotal(s.reservations, asset)
         == Ok(Sum(s.balances, Band(AssetOf(asset), {HeldKind(asset)})))
  {
    IdOrder();
    var ids := SortedIds(s.reservations.Keys);
    HoldingsAreHeld(s, asset);
    HeldSumIs(s.reservations, ids, asset, |ids|);
    assert ids[..|ids|] == ids;
    AmongAll(Holdings(s.reservations, asset), ids);
  }

  /** A group of non-negative kinds at the front is bounded by the border behind it. */
  lemma FrontBounds(b: Balances, a: Asset, kinds: set<nat>, h: nat)
    requires SoundBalances(b) && BordersFit(b) && h <= 8
    requires forall k :: k in kinds ==> k < h
    ensures 0 <= Sum(b, Band(a, kinds)) <= I128_MAX
  {
    var rest := Upto(h) - kinds;
    SumSplit(b, a, Upto(h), kinds, rest);
    SumSign(b, a, kinds);
    SumSign(b, a, rest);
    assert Fits(Sum(b, Band(a, Upto(h))));
  }

  lemma BandOne(b: Balances, k: Key)
    requires forall j :: j in b && j.asset == k.asset && Kind(j.account) == Kind(k.account) ==> j == k
    ensures Sum(b, Band(k.asset, {Kind(k.account)})) == Bal(b, k)
  {
    SumOne(b, k);
    assert Selected(b, Band(k.asset, {Kind(k.account)})) == Selected(b, One(k));
  }

  lemma LooseIs(b: Balances, token: TokenKey)
    ensures Sum(b, Loose(token))
         == Bal(b, Key(TokenAvailable, Outcome(token))) + Sum(b, Band(Outcome(token), {3}))
  {
    SumSplit(b, Outcome(token), {2, 3}, {2}, {3});
    BandOne(b, Key(TokenAvailable, Outcome(token)));
  }

  lemma TokenCheckPasses(s: Books, token: TokenKey)
    requires Agree(s) && BordersFit(s.balances)
    ensures TokenCheck(s, token) == Ok(())
  {
    assert PositionBacked(s, token);
    FrontBounds(s.balances, Outcome(token), {3}, 4);
    FrontBounds(s.balances, Outcome(token), {2, 3}, 4);
    HeldTotalIs(s, Token(token));
    LooseIs(s.balances, token);
    if CostKey(token) in s.balances {
      assert EntryOk(s.balances, CostKey(token));
    }
  }

  lemma {:induction false} TokensCheckPasses(s: Books, tokens: seq<TokenKey>)
    requires Agree(s) && BordersFit(s.balances)
    ensures TokensCheck(s, tokens) == Ok(())
  {
    if |tokens| > 0 {
      TokensCheckPasses(s, tokens[..|tokens| - 1]);
      TokenCheckPasses(s, tokens[|tokens| - 1]);
    }
  }

  lemma {:induction false} LockedPnlErrors(locks: map<Id, PairLock>, ids: seq<Id>)
    requires forall id :: id in ids ==> id in locks
    ensures LockedPnl(locks, ids).Err? ==> LockedPnl(locks, ids).error == Overflow
  {
    if |ids| > 0 {
      LockedPnlErrors(locks, ids[..|ids| - 1]);
    }
  }

  lemma PnlErrors(s: Books)
    ensures CheckedPnl(s).Err? ==> CheckedPnl(s).error == Overflow
  {
    LockedPnlErrors(s.locks, SortedIds(s.locks.Keys));
  }

  lemma ReservationsHold(s: Books)
    requires ReservationsBacked(s)
    ensures forall id :: id in s.reservations ==> ReservationHolds(s.balances, s.reservations[id])
  {
  }

  lemma LocksHold(s: Books)
    requires LocksBacked(s)
    ensures forall id :: id in s.locks ==> LockHolds(s.balances, s.locks[id])
  {
  }

  lemma ConservationExactly(s: Books)
    requires Agree(s)
    ensures ConservationCheck(s.balances).Ok? <==> BordersFit(s.balances)
    ensures ConservationCheck(s.balances).Err? ==> ConservationCheck(s.balances).error == Overflow
  {
    RunningTotals(s.balances);
    var r := TotalsCheck(s.balances, SortedKeys(s.balances.Keys));
    if r.Ok? {
      forall a | a in r.value
        ensures r.value[a] == 0
      {
        assert TotalOf(r.value, a) == Sum(s.balances, Whole(a));
      }
    }
  }

  lemma ViewsPass(s: Books)
    requires Agree(s) && BordersFit(s.balances)
    ensures ViewsCheck(s) == Ok(())
  {
    ReservationsHold(s);
    LocksHold(s);
    TokensCheckPasses(s, SortedTokens(TokensOf(s)));
  }

  /**
   * On agreeing books the re-check passes exactly when the kind sums and the P&L fit i128, and
   * otherwise reports an overflow: conservation, reservation, inventory and sign failures, and
   * traps in its unchecked sums, cannot happen.
   */
  lemma VerifyExactly(s: Books)
    requires Agree(s)
    ensures Verify(s).Ok? <==> BordersFit(s.balances) && CheckedPnl(s).Ok?
    ensures Verify(s).Err? ==> Verify(s).error == Overflow
  {
    ConservationExactly(s);
    PnlErrors(s);
    if BordersFit(s.balances) {
      ViewsPass(s);
    }
  }
}
