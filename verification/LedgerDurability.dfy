/** The ledger as the core of the durable protocol. */
module LedgerDurability {
  import opened Results
  import opened LedgerTypes
  import opened DoubleEntry
  import opened LedgerHistory
  import opened Journaling
  import opened CrashSafety
  import Spec = LedgerSpec

  function LedgerMachine(): Machine<Ledger, LedgerCommand, ApplyOutcome, Error> {
    Machine(
      DEFAULT_LEDGER,
      (s: Ledger, c: LedgerCommand) => var step := Spec.Apply(s, c); Move(step.ledger, step.answer),
      (c: LedgerCommand) => Spec.Validate(c).None?,
      (c: LedgerCommand) => c.recordedAtNs,
      IdempotencyConflict)
  }

  // ----- conflicts come only from the idempotency table -----

  predicate Ordinary(e: Error) {
    e != IdempotencyConflict && e != Halted
  }

  lemma {:induction false} EntriesOrdinary(b: Balances, ps: seq<Posting>)
    ensures PostEntries(b, ps).Err? ==> Ordinary(PostEntries(b, ps).error)
  {
    if |ps| > 0 {
      EntriesOrdinary(b, ps[..|ps| - 1]);
    }
  }

  lemma PostOrdinary(b: Balances, ps: seq<Posting>)
    ensures Post(b, ps).Err? ==> Ordinary(Post(b, ps).error)
  {
    EntriesOrdinary(b, ps);
  }

  lemma MovesOrdinary(s: Books, id: Id, asset: ReservationAsset, amount: int)
    ensures Spec.Fund(s, amount).Err? ==> Ordinary(Spec.Fund(s, amount).error)
    ensures Spec.Reserve(s, id, asset, amount).Err? ==> Ordinary(Spec.Reserve(s, id, asset, amount).error)
    ensures Spec.Release(s, id).Err? ==> Ordinary(Spec.Release(s, id).error)
    ensures Spec.Merge(s, id).Err? ==> Ordinary(Spec.Merge(s, id).error)
  {
    PostOrdinary(s.balances, Spec.FundTx(amount));
    PostOrdinary(s.balances, Spec.MoveTx(HomeKey(asset), HeldKey(id, asset), amount));
    if id in s.reservations {
      var r := s.reservations[id];
      PostOrdinary(s.balances, Spec.MoveTx(HeldKey(id, r.asset), HomeKey(r.asset), r.remaining));
    }
    if id in s.locks {
      PostOrdinary(s.balances, Spec.MergeTx(s.locks[id]));
    }
  }

  lemma BuyOrdinary(s: Books, id: Id, token: TokenKey, quantity: int, consideration: int, fee: int)
    ensures var r := Spec.Buy(s, id, token, quantity, consideration, fee); r.Err? ==> Ordinary(r.error)
  {
    PostOrdinary(s.balances, Spec.BuyTx(id, token, quantity, consideration, fee));
  }

  lemma SellOrdinary(s: Books, id: Id, quantity: int, gross: int, fee: int)
    ensures var r := Spec.Sell(s, id, quantity, gross, fee); r.Err? ==> Ordinary(r.error)
  {
    forall token, cost { PostOrdinary(s.balances, Spec.SellTx(id, token, quantity, gross, fee, cost)); }
  }

  lemma RedeemOrdinary(s: Books, id: Id, quantity: int, payout: int)
    ensures var r := Spec.Redeem(s, id, quantity, payout); r.Err? ==> Ordinary(r.error)
  {
    forall token, cost { PostOrdinary(s.balances, Spec.RedeemTx(id, token, quantity, payout, cost)); }
  }

  lemma SplitOrdinary(s: Books, id: Id, up: TokenKey, down: TokenKey, quantity: int)
    ensures var r := Spec.Split(s, id, up, down, quantity); r.Err? ==> Ordinary(r.error)
  {
    PostOrdinary(s.balances, Spec.SplitTx(id, up, down, quantity));
  }

  lemma LockOrdinary(s: Books, id: Id, up: TokenKey, down: TokenKey, quantity: int)
    ensures var r := Spec.Lock(s, id, up, down, quantity); r.Err? ==> Ordinary(r.error)
  {
    forall upCost, downCost { PostOrdinary(s.balances, Spec.LockTx(id, up, down, quantity, upCost, downCost)); }
  }

  lemma PerformOrdinary(s: Books, action: Action)
    ensures var r := Spec.Perform(s, action); r.Err? ==> Ordinary(r.error)
  {
    match action
    case FundCollateral(amount) => MovesOrdinary(s, 0, Cash, amount);
    case ReserveCollateral(id, amount) => MovesOrdinary(s, id, Cash, amount);
    case ReserveToken(id, token, quantity) => MovesOrdinary(s, id, Token(token), quantity);
    case ReleaseReservation(id) => MovesOrdinary(s, id, Cash, 0);
    case ConfirmBuy(id, token, quantity, consideration, fee, _) =>
      BuyOrdinary(s, id, token, quantity, consideration, fee);
    case ConfirmSell(id, quantity, gross, fee, _) => SellOrdinary(s, id, quantity, gross, fee);
    case LockPair(id, up, down, quantity) => LockOrdinary(s, id, up, down, quantity);
    case ConfirmMerge(id, _) => MovesOrdinary(s, id, Cash, 0);
    case ConfirmSplit(id, up, down, quantity, _) => SplitOrdinary(s, id, up, down, quantity);
    case ConfirmRedemption(id, quantity, payout, _) => RedeemOrdinary(s, id, quantity, payout);
  }

  lemma {:induction false} TotalsOrdinary(b: Balances, keys: seq<Key>)
    requires forall k :: k in keys ==> k in b
    ensures Spec.TotalsCheck(b, keys).Err? ==> Ordinary(Spec.TotalsCheck(b, keys).error)
  {
    if |keys| > 0 {
      TotalsOrdinary(b, keys[..|keys| - 1]);
    }
  }

  lemma {:induction false} HeldOrdinary(rs: map<Id, Reservation>, ids: seq<Id>, asset: ReservationAsset)
    requires forall id :: id in ids ==> id in rs
    ensures Spec.HeldSum(rs, ids, asset).Err? ==> Ordinary(Spec.HeldSum(rs, ids, asset).error)
  {
    if |ids| > 0 {
      HeldOrdinary(rs, ids[..|ids| - 1], asset);
    }
  }

  lemma {:induction false} TokensOrdinary(s: Books, tokens: seq<TokenKey>)
    ensures Spec.TokensCheck(s, tokens).Err? ==> Ordinary(Spec.TokensCheck(s, tokens).error)
  {
    if |tokens| > 0 {
      TokensOrdinary(s, tokens[..|tokens| - 1]);
      IdOrder();
      HeldOrdinary(s.reservations, SortedIds(s.reservations.Keys), Token(tokens[|tokens| - 1]));
    }
  }

  lemma {:induction false} PnlOrdinary(locks: map<Id, PairLock>, ids: seq<Id>)
    requires forall id :: id in ids ==> id in locks
    ensures Spec.LockedPnl(locks, ids).Err? ==> Ordinary(Spec.LockedPnl(locks, ids).error)
  {
    if |ids| > 0 {
      PnlOrdinary(locks, ids[..|ids| - 1]);
    }
  }

  lemma ViewsOrdinary(s: Books)
    ensures Spec.ViewsCheck(s).Err? ==> Ordinary(Spec.ViewsCheck(s).error)
  {
    TokensOrdinary(s, SortedTokens(Spec.TokensOf(s)));
  }

  lemma CheckedPnlOrdinary(s: Books)
    ensures Spec.CheckedPnl(s).Err? ==> Ordinary(Spec.CheckedPnl(s).error)
  {
    IdOrder();
    PnlOrdinary(s.locks, SortedIds(s.locks.Keys));
  }

  lemma ConservationOrdinary(b: Balances)
    ensures Spec.ConservationCheck(b).Err? ==> Ordinary(Spec.ConservationCheck(b).error)
  {
    TotalsOrdinary(b, SortedKeys(b.Keys));
  }

  lemma VerifyOrdinary(s: Books)
    ensures Spec.Verify(s).Err? ==> Ordinary(Spec.Verify(s).error)
  {
    ConservationOrdinary(s.balances);
    ViewsOrdinary(s);
    CheckedPnlOrdinary(s);
  }

  lemma FreshOrdinary(s: Ledger, c: LedgerCommand)
    requires Fresh(s, c)
    ensures Spec.Apply(s, c).answer.Err? ==> Ordinary(Spec.Apply(s, c).answer.error)
  {
    FreshAnswer(s, c);
    PerformOrdinary(s.books, c.action);
    if Spec.Perform(s.books, c.action).Ok? {
      VerifyOrdinary(Spec.Perform(s.books, c.action).value);
    }
  }

  /** A conflict is answered exactly for a valid command that reuses an accepted id with other content. */
  lemma ConflictExactly(s: Ledger, c: LedgerCommand)
    ensures Spec.Apply(s, c).answer == Err(IdempotencyConflict) <==>
      !s.halted && Spec.Validate(c).None? && c.commandId in s.processed && s.processed[c.commandId].command != c
    ensures Spec.Apply(s, c).answer == Err(IdempotencyConflict) ==> Spec.Apply(s, c).ledger.halted
  {
    if Fresh(s, c) {
      FreshOrdinary(s, c);
    }
  }

  lemma HaltedRefuses(s: Ledger, c: LedgerCommand)
    requires s.halted
    ensures Refused(LedgerMachine(), s, c)
  {
  }

  lemma ValidOnly(s: Ledger, c: LedgerCommand)
    requires Spec.Apply(s, c).answer.Ok?
    ensures Spec.Validate(c).None?
  {
  }

  /** The ledger satisfies what crash safety asks of a core, so every result about runs holds for it. */
  lemma LedgerIsLawful()
    ensures Lawful(LedgerMachine())
  {
    var m := LedgerMachine();
    forall s, c
      ensures m.apply(s, c).answer.Ok? || m.apply(s, c).answer == Err(m.conflict) ==> m.valid(c)
    {
      ConflictExactly(s, c);
      if Spec.Apply(s, c).answer.Ok? {
        ValidOnly(s, c);
      }
    }
    forall s, c, d
      ensures m.apply(s, c).answer == Err(m.conflict) ==> Refused(m, m.apply(s, c).state, d)
    {
      ConflictExactly(s, c);
      if m.apply(s, c).answer == Err(m.conflict) {
        HaltedRefuses(Spec.Apply(s, c).ledger, d);
      }
    }
  }

  lemma {:induction false} FoldIsReached(cs: seq<LedgerCommand>)
    ensures Fold(LedgerMachine(), cs) == Reached(cs)
  {
    if |cs| > 0 {
      FoldIsReached(cs[..|cs| - 1]);
    }
  }

  /** A journaled command was answered `Ok` exactly when it did not reuse an accepted id with other content. */
  lemma JournaledAnswer(cs: seq<LedgerCommand>, i: nat)
    requires i < |cs| && Journaled(LedgerMachine(), cs)
    ensures Journaling.AnswerAt(LedgerMachine(), cs, i).Ok? <==> !ConflictAt(cs, i)
    ensures !Reached(cs[..i]).halted
  {
    FoldIsReached(cs[..i]);
    ConflictExactly(Reached(cs[..i]), cs[i]);
    assert Journaling.AnswerAt(LedgerMachine(), cs, i) == Spec.Apply(Reached(cs[..i]), cs[i]).answer;
  }

  /**
   * Crash safety of the durable ledger, stated on the ledger itself. After any run, recovery from what the
   * next crash leaves succeeds if and only if the last surviving command does not reuse an accepted id with
   * other content (and the u64 sequence is not exhausted); the ledger it returns is the one the surviving
   * commands reach, satisfies the ledger invariant and is not halted.
   */
  lemma LedgerRecovery(events: seq<Event<LedgerCommand>>, keep: nat)
    requires var w := After(LedgerMachine(), events); w.synced <= keep <= |w.disk|
    ensures var m := LedgerMachine();
      var w := After(m, events);
      && Sound(m, w) && Recovers(m, w, keep)
      && (var r, left := Recover(m, w.disk[..keep], None), Commands(w.disk[..keep]);
          && (r.Ok? <==> keep <= MAX_SEQUENCE && (keep == 0 || !ConflictAt(left, keep - 1)))
          && (r.Ok? ==> r.value.state == Reached(left) && Inv(r.value.state) && !r.value.state.halted))
  {
    var m := LedgerMachine();
    var w := After(m, events);
    LedgerIsLawful();
    RecoveryExactly(m, events, keep);
    CommandsPrefix(m, w.disk, keep);
    ReplayExactly(m, w.disk[..keep]);
    SurvivingLedger(Commands(w.disk), keep);
  }

  /** What the first `keep` journaled commands make of a ledger. */
  lemma SurvivingLedger(cs: seq<LedgerCommand>, keep: nat)
    requires keep <= |cs| && Journaled(LedgerMachine(), cs)
    ensures var m, left := LedgerMachine(), cs[..keep];
      && Fold(m, left) == Reached(left) && Inv(Reached(left))
      && (keep > 0 ==> (Journaling.AnswerAt(m, cs, keep - 1).Ok? <==> !ConflictAt(left, keep - 1)))
      && (AllOk(m, left) ==> !Reached(left).halted)
  {
    var left := cs[..keep];
    FoldIsReached(left);
    ReachedInv(left);
    if keep > 0 {
      JournaledAnswer(cs, keep - 1);
      ConflictInPrefix(cs, keep, keep - 1);
    }
    if AllOk(LedgerMachine(), left) {
      AcceptedNotHalted(left);
    }
  }

  lemma {:induction false} AcceptedNotHalted(cs: seq<LedgerCommand>)
    requires AllOk(LedgerMachine(), cs)
    ensures !Reached(cs).halted
  {
    if |cs| > 0 {
      var n := |cs| - 1;
      AllOkNext(LedgerMachine(), cs, n);
      AcceptedNotHalted(cs[..n]);
      FoldIsReached(cs[..n]);
      StepHalts(Reached(cs[..n]), cs[n]);
      ConflictExactly(Reached(cs[..n]), cs[n]);
    }
  }

  // ----- when losing installed records shows -----

  function Weight(s: Ledger): nat {
    s.accepted + (if s.halted then 1 else 0)
  }

  function StateAt(cs: seq<LedgerCommand>, n: nat): Ledger
    requires n <= |cs|
  {
    Reached(cs[..n])
  }

  /** The `i`-th command of a run leaves the ledger as it found it. */
  predicate Silent(cs: seq<LedgerCommand>, i: nat)
    requires i < |cs|
  {
    StateAt(cs, i + 1) == StateAt(cs, i)
  }

  function AnswerOf(cs: seq<LedgerCommand>, i: nat): Outcome<ApplyOutcome>
    requires i < |cs|
  {
    Spec.Apply(StateAt(cs, i), cs[i]).answer
  }

  lemma StateNext(cs: seq<LedgerCommand>, i: nat)
    requires i < |cs|
    ensures StateAt(cs, i + 1) == Spec.Apply(StateAt(cs, i), cs[i]).ledger
  {
    assert cs[..i + 1] == cs[..i] + [cs[i]];
    ReachedNext(cs[..i], cs[i]);
  }

  /** Whatever changes a ledger adds to its weight; duplicates change nothing, other journaled commands do. */
  lemma StepWeighs(cs: seq<LedgerCommand>, i: nat)
    requires i < |cs|
    ensures StateAt(cs, i).accepted <= StateAt(cs, i + 1).accepted
    ensures Silent(cs, i) || Weight(StateAt(cs, i + 1)) > Weight(StateAt(cs, i))
    ensures AnswerOf(cs, i) == Ok(Duplicate) ==> Silent(cs, i)
    ensures AnswerOf(cs, i) == Ok(Applied) || AnswerOf(cs, i) == Err(IdempotencyConflict) ==> !Silent(cs, i)
  {
    StateNext(cs, i);
    StepHistory(StateAt(cs, i), cs[i]);
    ConflictExactly(StateAt(cs, i), cs[i]);
  }

  predicate Still(states: seq<Ledger>, j: nat)
    requires j + 1 < |states|
  {
    states[j + 1] == states[j]
  }

  predicate Heavier(states: seq<Ledger>, j: nat)
    requires j + 1 < |states|
  {
    && states[j].accepted <= states[j + 1].accepted
    && (Still(states, j) || Weight(states[j]) < Weight(states[j + 1]))
  }

  /** States whose every change adds weight: two of them are equal exactly when nothing between them changes. */
  lemma {:induction false} WeightOrder(states: seq<Ledger>, i: nat, n: nat)
    requires i <= n < |states| && forall j :: i <= j < n ==> Heavier(states, j)
    ensures states[i].accepted <= states[n].accepted && Weight(states[i]) <= Weight(states[n])
    ensures states[n] == states[i] <==> forall j :: i <= j < n ==> Still(states, j)
  {
    if i < n {
      var k: nat := n - 1;
      WeightOrder(states, i, k);
      assert Heavier(states, k) && states[k + 1] == states[n];
      assert (forall j :: i <= j < n ==> Still(states, j))
        <==> Still(states, k) && forall j :: i <= j < k ==> Still(states, j);
    }
  }

  /** A stretch of a run changes nothing exactly when each of its commands changes nothing. */
  lemma StretchSilent(cs: seq<LedgerCommand>, i: nat, n: nat)
    requires i <= n <= |cs|
    ensures StateAt(cs, i).accepted <= StateAt(cs, n).accepted
    ensures StateAt(cs, n) == StateAt(cs, i) <==> forall j :: i <= j < n ==> Silent(cs, j)
  {
    var states := seq(|cs| + 1, j requires 0 <= j <= |cs| => StateAt(cs, j));
    forall j | i <= j < n
      ensures Heavier(states, j) && (Silent(cs, j) <==> Still(states, j))
    {
      StepWeighs(cs, j);
    }
    WeightOrder(states, i, n);
  }

  /** A journaled command is silent exactly when it was answered as a duplicate. */
  lemma SilentIsDuplicate(cs: seq<LedgerCommand>, i: nat)
    requires i < |cs| && Journaled(LedgerMachine(), cs)
    ensures Silent(cs, i) <==> AnswerOf(cs, i) == Ok(Duplicate)
  {
    FoldIsReached(cs[..i]);
    StepWeighs(cs, i);
    assert Journaling.AnswerAt(LedgerMachine(), cs, i) == AnswerOf(cs, i);
  }

  /**
   * What a crash that loses installed records costs: recovery returns an earlier state of the ledger, and
   * it is the live state if and only if everything lost was a duplicate.
   */
  lemma LossExactly(events: seq<Event<LedgerCommand>>, keep: nat)
    requires var w := After(LedgerMachine(), events);
      && w.owner.Some? && w.synced <= keep < w.installed && keep <= |w.disk|
      && Recover(LedgerMachine(), w.disk[..keep], None).Ok?
    ensures var m := LedgerMachine();
      var w := After(m, events);
      var recovered, live := Recover(m, w.disk[..keep], None).value.state, w.owner.value.state;
      && w.installed <= |w.disk| && Numbered(m, w.disk)
      && (var cs := Commands(w.disk);
          && recovered == StateAt(cs, keep) && live == StateAt(cs, w.installed)
          && recovered.accepted <= live.accepted
          && (recovered == live <==> forall i :: keep <= i < w.installed ==> AnswerOf(cs, i) == Ok(Duplicate)))
  {
    var m := LedgerMachine();
    var w := After(m, events);
    LedgerIsLawful();
    RecoveryExactly(m, events, keep);
    var cs := Commands(w.disk);
    FoldIsReached(cs[..keep]);
    FoldIsReached(cs[..w.installed]);
    LossOf(cs, keep, w.installed);
  }

  lemma LossOf(cs: seq<LedgerCommand>, keep: nat, installed: nat)
    requires keep <= installed <= |cs| && Journaled(LedgerMachine(), cs)
    ensures StateAt(cs, keep).accepted <= StateAt(cs, installed).accepted
    ensures StateAt(cs, keep) == StateAt(cs, installed) <==>
      forall i :: keep <= i < installed ==> AnswerOf(cs, i) == Ok(Duplicate)
  {
    StretchSilent(cs, keep, installed);
    forall i | keep <= i < installed
      ensures Silent(cs, i) <==> AnswerOf(cs, i) == Ok(Duplicate)
    {
      SilentIsDuplicate(cs, i);
    }
  }
}
