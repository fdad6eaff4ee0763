/** The single-writer ledger object: its methods update the views in place and refine the transition function. */
module AccountingLedgerModel {
  import opened Results
  import opened LedgerTypes
  import opened DoubleEntry
  import Spec = LedgerSpec

  // A loop that stops at the first error computes the same as the fold over everything.

  lemma {:induction false} EntriesStop(b: Balances, ps: seq<Posting>, n: nat)
    requires n <= |ps| && PostEntries(b, ps[..n]).Err?
    ensures PostEntries(b, ps) == PostEntries(b, ps[..n])
  {
    if n < |ps| {
      var m := |ps| - 1;
      assert ps[..m][..n] == ps[..n];
      EntriesStop(b, ps[..m], n);
    } else {
      assert ps[..n] == ps;
    }
  }

  lemma {:induction false} TotalsStop(b: Balances, keys: seq<Key>, n: nat)
    requires n <= |keys| && forall k :: k in keys ==> k in b
    requires Spec.TotalsCheck(b, keys[..n]).Err?
    ensures Spec.TotalsCheck(b, keys) == Spec.TotalsCheck(b, keys[..n])
  {
    if n < |keys| {
      var m := |keys| - 1;
      assert keys[..m][..n] == keys[..n];
      TotalsStop(b, keys[..m], n);
    } else {
      assert keys[..n] == keys;
    }
  }

  lemma {:induction false} HeldStop(rs: map<Id, Reservation>, ids: seq<Id>, asset: ReservationAsset, n: nat)
    requires n <= |ids| && forall id :: id in ids ==> id in rs
    requires Spec.HeldSum(rs, ids[..n], asset).Err?
    ensures Spec.HeldSum(rs, ids, asset) == Spec.HeldSum(rs, ids[..n], asset)
  {
    if n < |ids| {
      var m := |ids| - 1;
      assert ids[..m][..n] == ids[..n];
      HeldStop(rs, ids[..m], asset, n);
    } else {
      assert ids[..n] == ids;
    }
  }

  lemma {:induction false} TokensStop(s: Books, tokens: seq<TokenKey>, n: nat)
    requires n <= |tokens| && Spec.TokensCheck(s, tokens[..n]).Err?
    ensures Spec.TokensCheck(s, tokens) == Spec.TokensCheck(s, tokens[..n])
  {
    if n < |tokens| {
      var m := |tokens| - 1;
      assert tokens[..m][..n] == tokens[..n];
      TokensStop(s, tokens[..m], n);
    } else {
      assert tokens[..n] == tokens;
    }
  }

  lemma {:induction false} PnlStop(locks: map<Id, PairLock>, ids: seq<Id>, n: nat)
    requires n <= |ids| && forall id :: id in ids ==> id in locks
    requires Spec.LockedPnl(locks, ids[..n]).Err?
    ensures Spec.LockedPnl(locks, ids) == Spec.LockedPnl(locks, ids[..n])
  {
    if n < |ids| {
      var m := |ids| - 1;
      assert ids[..m][..n] == ids[..n];
      PnlStop(locks, ids[..m], n);
    } else {
      assert ids[..n] == ids;
    }
  }

  lemma TokensNext(s: Books, tokens: seq<TokenKey>, i: nat)
    requires i < |tokens| && Spec.TokensCheck(s, tokens[..i]) == Ok(())
    ensures Spec.TokensCheck(s, tokens[..i + 1]) == Spec.TokenCheck(s, tokens[i])
  {
    assert tokens[..i + 1][..i] == tokens[..i] && tokens[..i + 1][i] == tokens[i];
  }

  lemma SortedIdsExact(s: set<Id>)
    ensures forall id :: id in SortedIds(s) <==> id in s
  {
    IdOrder();
  }

  lemma EntriesNext(b: Balances, ps: seq<Posting>, i: nat, t: Tally)
    requires i < |ps| && PostEntries(b, ps[..i]) == Ok(t)
    ensures PostEntries(b, ps[..i + 1]) == PostEntry(t, ps[i])
  {
    assert ps[..i + 1][..i] == ps[..i] && ps[..i + 1][i] == ps[i];
  }

  lemma CountNext(ps: seq<Posting>, i: nat)
    requires i < |ps|
    ensures NonZeroCount(ps[..i + 1]) == NonZeroCount(ps[..i]) + (if ps[i].delta != 0 then 1 else 0)
  {
    assert ps[..i + 1][..i] == ps[..i];
  }

  /** The posting loop: totals and balances advance together, stopping at the first refusal. */
  method PostLoop(b: Balances, ps: seq<Posting>) returns (r: Outcome<Balances>)
    ensures r == Post(b, ps)
  {
    var nonzero := 0;
    for i := 0 to |ps|
      invariant nonzero == NonZeroCount(ps[..i])
    {
      CountNext(ps, i);
      if ps[i].delta != 0 {
        nonzero := nonzero + 1;
      }
    }
    assert ps[..|ps|] == ps;
    if nonzero < 2 {
      return Err(PostingCount);
    }
    var totals: map<Asset, int>, candidate := map[], b;
    for i := 0 to |ps|
      invariant PostEntries(b, ps[..i]) == Ok(Tally(totals, candidate))
    {
      EntriesNext(b, ps, i, Tally(totals, candidate));
      var step := PostEntry(Tally(totals, candidate), ps[i]);
      if step.Err? {
        EntriesStop(b, ps, i + 1);
        return Err(step.error);
      }
      totals, candidate := step.value.totals, step.value.balances;
    }
    return if Cancels(totals) then Ok(NonZero(candidate)) else Err(Unbalanced);
  }

  lemma TotalsNext(b: Balances, keys: seq<Key>, i: nat)
    requires i < |keys| && forall k :: k in keys ==> k in b
    requires Spec.TotalsCheck(b, keys[..i]).Ok?
    ensures Spec.TotalsCheck(b, keys[..i + 1])
         == Spec.TotalsEntry(Spec.TotalsCheck(b, keys[..i]).value, keys[i], b[keys[i]])
  {
    assert keys[..i + 1][..i] == keys[..i];
  }

  method TotalsOver(b: Balances, keys: seq<Key>) returns (r: Outcome<map<Asset, int>>)
    requires forall k :: k in keys ==> k in b
    ensures r == Spec.TotalsCheck(b, keys)
  {
    var totals: map<Asset, int> := map[];
    for i := 0 to |keys|
      invariant Spec.TotalsCheck(b, keys[..i]) == Ok(totals)
    {
      TotalsNext(b, keys, i);
      var step := Spec.TotalsEntry(totals, keys[i], b[keys[i]]);
      if step.Err? {
        TotalsStop(b, keys, i + 1);
        return step;
      }
      totals := step.value;
    }
    assert keys[..|keys|] == keys;
    return Ok(totals);
  }

  /** The checked running totals over the balances in key order, and their cancellation. */
  method CheckConservation(b: Balances) returns (r: Outcome<()>)
    ensures r == Spec.ConservationCheck(b)
  {
    var totals := TotalsOver(b, SortedKeys(b.Keys));
    if totals.Err? {
      return Err(totals.error);
    }
    return if Cancels(totals.value) then Ok(()) else Err(Conservation);
  }

  /** The unchecked sum over active reservations of one asset. */
  method HeldLoop(rs: map<Id, Reservation>, asset: ReservationAsset) returns (r: Outcome<int>)
    ensures r == Spec.HeldTotal(rs, asset)
  {
    var ids, sum := SortedIds(rs.Keys), 0;
    SortedIdsExact(rs.Keys);
    for i := 0 to |ids|
      invariant Spec.HeldSum(rs, ids[..i], asset) == Ok(sum)
    {
      Spec.HeldNext(rs, ids, asset, i, sum);
      if rs[ids[i]].status.Active? && rs[ids[i]].asset == asset {
        var next := UncheckedAdd(sum, rs[ids[i]].remaining);
        if next.Err? {
          HeldStop(rs, ids, asset, i + 1);
          return Err(next.error);
        }
        sum := next.value;
      }
    }
    assert ids[..|ids|] == ids;
    return Ok(sum);
  }

  /** The checked fold of payout minus cost over active locks. */
  method LockedPnlLoop(locks: map<Id, PairLock>) returns (r: Outcome<int>)
    ensures r == Spec.LockedPnl(locks, SortedIds(locks.Keys))
  {
    var ids, total := SortedIds(locks.Keys), 0;
    SortedIdsExact(locks.Keys);
    for i := 0 to |ids|
      invariant Spec.LockedPnl(locks, ids[..i]) == Ok(total)
    {
      Spec.PnlNext(locks, ids, i, total);
      var l := locks[ids[i]];
      if l.status.Locked? {
        var value := CheckedSub(l.payout, l.cost);
        var next := if value.Ok? then CheckedAdd(total, value.value) else value;
        if next.Err? {
          PnlStop(locks, ids, i + 1);
          return Err(next.error);
        }
        total := next.value;
      }
    }
    assert ids[..|ids|] == ids;
    return Ok(total);
  }

  class AccountingLedger {
    var balances: Balances
    var reservations: map<Id, Reservation>
    var costs: map<TokenKey, CostPosition>
    var locks: map<Id, PairLock>
    var processed: map<Id, Digest>
    var accepted: nat
    var halted: bool

    ghost function View(): Books
      reads this
    {
      Books(balances, reservations, costs, locks)
    }

    ghost function State(): Ledger
      reads this
    {
      Ledger(View(), processed, accepted, halted)
    }

    constructor ()
      ensures State() == DEFAULT_LEDGER
    {
      balances, reservations, costs, locks := map[], map[], map[], map[];
      processed, accepted, halted := map[], 0, false;
    }

    constructor Clone(other: AccountingLedger)
      ensures State() == other.State()
    {
      balances, reservations := other.balances, other.reservations;
      costs, locks := other.costs, other.locks;
      processed, accepted, halted := other.processed, other.accepted, other.halted;
    }

    /** Posts a transaction, or leaves the balances as they were. */
    method PostTransaction(ps: seq<Posting>) returns (r: Outcome<()>)
      modifies this`balances
      ensures match Post(old(balances), ps)
              case Ok(b) => r == Ok(()) && balances == b
              case Err(e) => r == Err(e) && balances == old(balances)
    {
      var posted := PostLoop(balances, ps);
      if posted.Err? {
        return Err(posted.error);
      }
      balances := posted.value;
      return Ok(());
    }

    method ConsumeReservation(id: Id, amount: int) returns (r: Outcome<()>)
      modifies this`reservations
      ensures match Spec.Consume(old(reservations), id, amount)
              case Ok(rs) => r == Ok(()) && reservations == rs
              case Err(e) => r == Err(e)
    {
      if id !in reservations {
        return Err(ReservationMissing);
      }
      var remaining := CheckedSub(reservations[id].remaining, amount);
      if remaining.Err? {
        return Err(Overflow);
      }
      reservations := reservations[id := reservations[id].(remaining := remaining.value)];
      if reservations[id].remaining == 0 {
        reservations := reservations[id := reservations[id].(status := Consumed)];
      }
      return Ok(());
    }

    method IncreaseCost(token: TokenKey, quantity: int, cost: int) returns (r: Outcome<()>)
      modifies this`costs
      ensures match Spec.AddCost(old(costs), token, quantity, cost)
              case Ok(cs) => r == Ok(()) && costs == cs
              case Err(e) => r == Err(e)
    {
      if token !in costs {
        costs := costs[token := CostPosition(0, 0)];
      }
      var q := CheckedAdd(costs[token].quantity, quantity);
      if q.Err? {
        return Err(Overflow);
      }
      costs := costs[token := costs[token].(quantity := q.value)];
      var c := CheckedAdd(costs[token].cost, cost);
      if c.Err? {
        return Err(Overflow);
      }
      costs := costs[token := costs[token].(cost := c.value)];
      return Ok(());
    }

    method ReduceCost(token: TokenKey, quantity: int, cost: int) returns (r: Outcome<()>)
      modifies this`costs
      ensures match Spec.ReduceCost(old(costs), token, quantity, cost)
              case Ok(cs) => r == Ok(()) && costs == cs
              case Err(e) => r == Err(e)
    {
      if token !in costs {
        return Err(InventoryInsufficient);
      }
      var q := CheckedSub(costs[token].quantity, quantity);
      if q.Err? {
        return Err(Overflow);
      }
      costs := costs[token := costs[token].(quantity := q.value)];
      var c := CheckedSub(costs[token].cost, cost);
      if c.Err? {
        return Err(Overflow);
      }
      costs := costs[token := costs[token].(cost := c.value)];
      if costs[token].quantity == 0 && costs[token].cost != 0 {
        return Err(InventoryInvariant);
      }
      return Ok(());
    }

    method Fund(amount: int) returns (r: Outcome<()>)
      modifies this`balances
      ensures match Spec.Fund(old(View()), amount)
              case Ok(s) => r == Ok(()) && View() == s
              case Err(e) => r == Err(e)
    {
      var negated := CheckedSub(0, amount);
      if negated.Err? {
        return Err(Overflow);
      }
      r := PostTransaction(Spec.FundTx(amount));
    }

    method Reserve(id: Id, asset: ReservationAsset, amount: int) returns (r: Outcome<()>)
      modifies this`balances, this`reservations
      ensures match Spec.Reserve(old(View()), id, asset, amount)
              case Ok(s) => r == Ok(()) && View() == s
              case Err(e) => r == Err(e)
    {
      if id in reservations {
        return Err(ReservationExists);
      }
      r := PostTransaction(Spec.MoveTx(HomeKey(asset), HeldKey(id, asset), amount));
      if r.Ok? {
        reservations := reservations[id := Reservation(id, asset, amount, amount, Active)];
      }
    }

    method Release(id: Id) returns (r: Outcome<()>)
      modifies this`balances, this`reservations
      ensures match Spec.Release(old(View()), id)
              case Ok(s) => r == Ok(()) && View() == s
              case Err(e) => r == Err(e)
    {
      var active := Spec.ActiveReservation(Books(balances, reservations, costs, locks), id);
      if active.Err? {
        return Err(active.error);
      }
      var held := active.value;
      r := PostTransaction(Spec.MoveTx(HeldKey(id, held.asset), HomeKey(held.asset), held.remaining));
      if r.Ok? {
        reservations := reservations[id := reservations[id].(remaining := 0, status := Released)];
      }
    }

    method ConfirmBuy(id: Id, token: TokenKey, quantity: int, consideration: int, fee: int)
      returns (r: Outcome<()>)
      modifies this`balances, this`reservations, this`costs
      ensures match Spec.Buy(old(View()), id, token, quantity, consideration, fee)
              case Ok(s) => r == Ok(()) && View() == s
              case Err(e) => r == Err(e)
    {
      var total := CheckedAdd(consideration, fee);
      if total.Err? {
        return Err(Overflow);
      }
      var active := Spec.ActiveReservation(Books(balances, reservations, costs, locks), id);
      if active.Err? {
        return Err(active.error);
      }
      if active.value.asset != Cash {
        return Err(ReservationMismatch);
      }
      if active.value.remaining < total.value {
        return Err(ReservationInsufficient);
      }
      r := PostTransaction(Spec.BuyTx(id, token, quantity, consideration, fee));
      if r.Ok? {
        r := ConsumeReservation(id, total.value);
      }
      if r.Ok? {
        r := IncreaseCost(token, quantity, consideration);
      }
    }

    method ConfirmSell(id: Id, quantity: int, gross: int, fee: int) returns (r: Outcome<()>)
      modifies this`balances, this`reservations, this`costs
      ensures match Spec.Sell(old(View()), id, quantity, gross, fee)
              case Ok(s) => r == Ok(()) && View() == s
              case Err(e) => r == Err(e)
    {
      var active := Spec.ActiveReservation(Books(balances, reservations, costs, locks), id);
      if active.Err? {
        return Err(active.error);
      }
      if !active.value.asset.Token? {
        return Err(ReservationMismatch);
      }
      if active.value.remaining < quantity {
        return Err(ReservationInsufficient);
      }
      var token := active.value.asset.token;
      var cost := Spec.AllocateCost(Position(costs, token), quantity);
      if cost.Err? {
        return Err(cost.error);
      }
      var net := CheckedSub(gross, fee);
      if net.Err? {
        return Err(Overflow);
      }
      r := PostTransaction(Spec.SellTx(id, token, quantity, gross, fee, cost.value));
      if r.Ok? {
        r := ConsumeReservation(id, quantity);
      }
      if r.Ok? {
        r := ReduceCost(token, quantity, cost.value);
      }
    }

    method LockPair(id: Id, up: TokenKey, down: TokenKey, quantity: int) returns (r: Outcome<()>)
      modifies this`balances, this`costs, this`locks
      ensures match Spec.Lock(old(View()), id, up, down, quantity)
              case Ok(s) => r == Ok(()) && View() == s
              case Err(e) => r == Err(e)
    {
      if id in locks {
        return Err(LockExists);
      }
      if !Spec.IsPair(up, down) {
        return Err(PairIdentity);
      }
      var upCost := Spec.AllocateCost(Position(costs, up), quantity);
      if upCost.Err? {
        return Err(upCost.error);
      }
      var downCost := Spec.AllocateCost(Position(costs, down), quantity);
      if downCost.Err? {
        return Err(downCost.error);
      }
      var total := CheckedAdd(upCost.value, downCost.value);
      if total.Err? {
        return Err(Overflow);
      }
      r := PostTransaction(Spec.LockTx(id, up, down, quantity, upCost.value, downCost.value));
      if r.Ok? {
        r := ReduceCost(up, quantity, upCost.value);
      }
      if r.Ok? {
        r := ReduceCost(down, quantity, downCost.value);
      }
      if r.Ok? {
        locks := locks[id := PairLock(id, up, down, quantity, total.value, quantity, Locked)];
      }
    }

    method ConfirmMerge(id: Id) returns (r: Outcome<()>)
      modifies this`balances, this`locks
      ensures match Spec.Merge(old(View()), id)
              case Ok(s) => r == Ok(()) && View() == s
              case Err(e) => r == Err(e)
    {
      if id !in locks {
        return Err(LockMissing);
      }
      if !locks[id].status.Locked? {
        return Err(LockInactive);
      }
      r := PostTransaction(Spec.MergeTx(locks[id]));
      if r.Ok? {
        locks := locks[id := locks[id].(status := Merged)];
      }
    }

    method ConfirmSplit(id: Id, up: TokenKey, down: TokenKey, quantity: int) returns (r: Outcome<()>)
      modifies this`balances, this`reservations, this`costs
      ensures match Spec.Split(old(View()), id, up, down, quantity)
              case Ok(s) => r == Ok(()) && View() == s
              case Err(e) => r == Err(e)
    {
      if !Spec.IsPair(up, down) {
        return Err(PairIdentity);
      }
      var active := Spec.ActiveReservation(Books(balances, reservations, costs, locks), id);
      if active.Err? {
        return Err(active.error);
      }
      if active.value.asset != Cash || active.value.remaining < quantity {
        return Err(ReservationMismatch);
      }
      var downCost := CheckedSub(quantity, quantity / 2);
      if downCost.Err? {
        return Err(Overflow);
      }
      r := PostTransaction(Spec.SplitTx(id, up, down, quantity));
      if r.Ok? {
        r := ConsumeReservation(id, quantity);
      }
      if r.Ok? {
        r := IncreaseCost(up, quantity, quantity / 2);
      }
      if r.Ok? {
        r := IncreaseCost(down, quantity, downCost.value);
      }
    }

    method ConfirmRedemption(id: Id, quantity: int, payout: int) returns (r: Outcome<()>)
      modifies this`balances, this`reservations, this`costs
      ensures match Spec.Redeem(old(View()), id, quantity, payout)
              case Ok(s) => r == Ok(()) && View() == s
              case Err(e) => r == Err(e)
    {
      var active := Spec.ActiveReservation(Books(balances, reservations, costs, locks), id);
      if active.Err? {
        return Err(active.error);
      }
      if !active.value.asset.Token? {
        return Err(ReservationMismatch);
      }
      if active.value.remaining < quantity || payout > quantity {
        return Err(ReservationInsufficient);
      }
      var token := active.value.asset.token;
      var cost := Spec.AllocateCost(Position(costs, token), quantity);
      if cost.Err? {
        return Err(cost.error);
      }
      r := PostTransaction(Spec.RedeemTx(id, token, quantity, payout, cost.value));
      if r.Ok? {
        r := ConsumeReservation(id, quantity);
      }
      if r.Ok? {
        r := ReduceCost(token, quantity, cost.value);
      }
    }

    method ApplyFresh(c: LedgerCommand) returns (r: Outcome<()>)
      modifies this`balances, this`reservations, this`costs, this`locks
      ensures match Spec.ApplyFresh(old(View()), c)
              case Ok(s) => r == Ok(()) && View() == s
              case Err(e) => r == Err(e)
    {
      var objection := Spec.Validate(c);
      if objection.Some? {
        return Err(objection.value);
      }
      match c.action
      case FundCollateral(amount) => r := Fund(amount);
      case ReserveCollateral(id, amount) => r := Reserve(id, Cash, amount);
      case ReserveToken(id, token, quantity) => r := Reserve(id, Token(token), quantity);
      case ReleaseReservation(id) => r := Release(id);
      case ConfirmBuy(id, token, quantity, consideration, fee, _) =>
        r := ConfirmBuy(id, token, quantity, consideration, fee);
      case ConfirmSell(id, quantity, gross, fee, _) => r := ConfirmSell(id, quantity, gross, fee);
      case LockPair(id, up, down, quantity) => r := LockPair(id, up, down, quantity);
      case ConfirmMerge(id, _) => r := ConfirmMerge(id);
      case ConfirmSplit(id, up, down, quantity, _) => r := ConfirmSplit(id, up, down, quantity);
      case ConfirmRedemption(id, quantity, payout, _) => r := ConfirmRedemption(id, quantity, payout);
    }

    method CheckToken(token: TokenKey) returns (r: Outcome<()>)
      ensures r == Spec.TokenCheck(View(), token)
    {
      var reserved := HeldLoop(reservations, Token(token));
      if reserved.Err? {
        return Err(reserved.error);
      }
      var held := UncheckedAdd(Bal(balances, Key(TokenAvailable, Outcome(token))), reserved.value);
      if held.Err? {
        return Err(held.error);
      }
      var p := Position(costs, token);
      if p.quantity != held.value || p.quantity < 0 || p.cost < 0 || Bal(balances, CostKey(token)) != p.cost {
        return Err(InventoryInvariant);
      }
      return Ok(());
    }

    method CheckTokens() returns (r: Outcome<()>)
      ensures r == Spec.TokensCheck(View(), SortedTokens(Spec.TokensOf(View())))
    {
      ghost var s := View();
      var tokens := SortedTokens(Spec.TokensOf(Books(balances, reservations, costs, locks)));
      for i := 0 to |tokens|
        invariant Spec.TokensCheck(s, tokens[..i]) == Ok(())
      {
        TokensNext(s, tokens, i);
        r := CheckToken(tokens[i]);
        if r.Err? {
          TokensStop(s, tokens, i + 1);
          return;
        }
      }
      assert tokens[..|tokens|] == tokens;
      return Ok(());
    }

    method CheckViews() returns (r: Outcome<()>)
      ensures r == Spec.ViewsCheck(View())
    {
      if exists id :: id in reservations && !Spec.ReservationHolds(balances, reservations[id]) {
        return Err(ReservationInvariant);
      }
      r := CheckTokens();
      if r.Err? {
        return;
      }
      if exists id :: id in locks && !Spec.LockHolds(balances, locks[id]) {
        return Err(InventoryInvariant);
      }
      return Ok(());
    }

    method VerifyInvariants() returns (r: Outcome<()>)
      ensures r == Spec.Verify(View())
    {
      r := CheckConservation(balances);
      if r.Err? {
        return;
      }
      r := CheckViews();
      if r.Err? {
        return;
      }
      var pnl := CheckedPnl();
      if pnl.Err? {
        return Err(pnl.error);
      }
      return Ok(());
    }

    method CheckedPnl() returns (r: Outcome<Spec.Pnl>)
      ensures r == Spec.CheckedPnl(View())
    {
      var realized := Spec.Realized(balances);
      if realized.Err? {
        return Err(realized.error);
      }
      var locked := LockedPnlLoop(locks);
      if locked.Err? {
        return Err(locked.error);
      }
      return Ok(Spec.Pnl(Bal(balances, Money(FeeExpense)), realized.value, locked.value));
    }

    /** A candidate copy with the command applied, counted and re-checked. */
    method Prepare(c: LedgerCommand) returns (candidate: AccountingLedger, r: Outcome<()>)
      ensures fresh(candidate)
      ensures match Spec.Accept(State(), c)
              case Ok(next) => r == Ok(()) && candidate.State() == next
              case Err(e) => r == Err(e)
    {
      candidate := new AccountingLedger.Clone(this);
      r := candidate.ApplyFresh(c);
      if r.Err? {
        return;
      }
      ghost var books := candidate.View();
      assert Spec.ApplyFresh(View(), c) == Ok(books);
      candidate.processed := candidate.processed[c.commandId := CommandDigest(c)];
      if candidate.accepted + 1 > U64_MAX {
        return candidate, Err(Overflow);
      }
      candidate.accepted := candidate.accepted + 1;
      assert candidate.View() == books;
      assert candidate.State() == Ledger(books, processed[c.commandId := CommandDigest(c)], accepted + 1, halted);
      r := candidate.VerifyInvariants();
    }

    /**
     * Applies one command to a candidate copy and installs it only when it passes the re-check. The
     * object then is exactly the transition function's next state.
     */
    method Apply(c: LedgerCommand) returns (r: Outcome<ApplyOutcome>)
      modifies this
      ensures Spec.Step(State(), r) == Spec.Apply(old(State()), c)
    {
      if halted {
        return Err(Halted);
      }
      var objection := Spec.Validate(c);
      if objection.Some? {
        return Err(objection.value);
      }
      if c.commandId in processed {
        if processed[c.commandId] == CommandDigest(c) {
          return Ok(Duplicate);
        }
        halted := true;
        return Err(IdempotencyConflict);
      }
      var candidate, prepared := Prepare(c);
      if prepared.Err? {
        return Err(prepared.error);
      }
      balances, reservations := candidate.balances, candidate.reservations;
      costs, locks := candidate.costs, candidate.locks;
      processed, accepted := candidate.processed, candidate.accepted;
      return Ok(Applied);
    }
  }
}
