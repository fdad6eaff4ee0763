/** Whole runs of the ledger: what every reachable state satisfies and what its history determines. */
module LedgerHistory {
  import opened Results
  import opened LedgerTypes
  import opened DoubleEntry
  import opened LedgerSpec
  import opened LedgerInvariant
  import opened LedgerTotals
  import opened LedgerSafety

  // ----- the invariant of reachable states -----

  ghost predicate Inv(s: Ledger) {
    && Agree(s.books)
    && Verify(s.books).Ok?
    && |s.processed| == s.accepted <= U64_MAX
    && forall id :: id in s.processed ==>
         s.processed[id].command.commandId == id && Validate(s.processed[id].command).None?
  }

  lemma DefaultInv()
    ensures Inv(DEFAULT_LEDGER)
  {
    var b := EMPTY_BOOKS.balances;
    forall sel ensures Sum(b, sel) == 0 {
      assert Selected(b, sel).Keys == {};
    }
    forall token ensures PositionBacked(EMPTY_BOOKS, token) {
    }
    assert LockedPnl(EMPTY_BOOKS.locks, SortedIds({})) == Ok(0) by {
      assert SortedIds({}) == [];
    }
    VerifyExactly(EMPTY_BOOKS);
  }

  lemma AcceptKeepsInv(s: Ledger, c: LedgerCommand)
    requires Inv(s) && Accept(s, c).Ok? && c.commandId !in s.processed
    ensures Inv(Accept(s, c).value)
  {
    FreshKeepsAgree(s.books, c);
  }

  /** Every command, accepted or refused, keeps the invariant. */
  lemma ApplyKeepsInv(s: Ledger, c: LedgerCommand)
    requires Inv(s)
    ensures Inv(Apply(s, c).ledger)
  {
    if c.commandId !in s.processed && Accept(s, c).Ok? {
      AcceptKeepsInv(s, c);
    }
  }

  predicate Fresh(s: Ledger, c: LedgerCommand) {
    !s.halted && Validate(c).None? && c.commandId !in s.processed
  }

  /** The answer to a fresh command is its own error, the counter's, or the re-check's. */
  lemma FreshAnswer(s: Ledger, c: LedgerCommand)
    requires Fresh(s, c)
    ensures var r, answer := Perform(s.books, c.action), Apply(s, c).answer;
      && (r.Err? ==> answer == Err(r.error))
      && (r.Ok? && s.accepted >= U64_MAX ==> answer == Err(Overflow))
      && (r.Ok? && s.accepted < U64_MAX && Verify(r.value).Err? ==> answer == Err(Verify(r.value).error))
      && (r.Ok? && s.accepted < U64_MAX && Verify(r.value).Ok? ==> answer == Ok(Applied))
  {
    assert ApplyFresh(s.books, c) == Perform(s.books, c.action);
  }

  lemma PerformedVerifies(s: Books, c: LedgerCommand)
    requires Agree(s) && Validate(c).None? && Perform(s, c.action).Ok?
    ensures Agree(Perform(s, c.action).value)
    ensures var v := Verify(Perform(s, c.action).value); v.Err? ==> v.error == Overflow
  {
    assert ApplyFresh(s, c) == Perform(s, c.action);
    FreshKeepsAgree(s, c);
  }

  lemma FreshNeverDisagrees(s: Ledger, c: LedgerCommand)
    requires Inv(s) && Fresh(s, c) && Apply(s, c).answer.Err?
    ensures !Disagreement(Apply(s, c).answer.error)
  {
    FreshAnswer(s, c);
    VerifyExactly(s.books);
    var performed := Perform(s.books, c.action);
    if performed.Ok? {
      PerformedVerifies(s.books, c);
    } else {
      PerformErrors(s.books, c.action);
    }
  }

  lemma KnownNeverDisagrees(s: Ledger, c: LedgerCommand)
    requires !Fresh(s, c) && Validate(c).None? && Apply(s, c).answer.Err?
    ensures Apply(s, c).answer.error == Halted || Apply(s, c).answer.error == IdempotencyConflict
  {
  }

  /** No command on a reachable state is answered with an internal-disagreement error or a trap. */
  lemma AnswersNeverDisagree(s: Ledger, c: LedgerCommand)
    requires Inv(s) && Apply(s, c).answer.Err?
    ensures !Disagreement(Apply(s, c).answer.error)
  {
    if Fresh(s, c) {
      FreshNeverDisagrees(s, c);
    } else if Validate(c).None? {
      KnownNeverDisagrees(s, c);
    } else {
      ObjectionKinds(c);
    }
  }

  lemma ObjectionKinds(c: LedgerCommand)
    requires Validate(c).Some?
    ensures !Disagreement(Validate(c).value)
  {
  }

  // ----- runs -----

  function Run(s: Ledger, cs: seq<LedgerCommand>): Ledger {
    if |cs| == 0 then s else Apply(Run(s, cs[..|cs| - 1]), cs[|cs| - 1]).ledger
  }

  function Reached(cs: seq<LedgerCommand>): Ledger {
    Run(DEFAULT_LEDGER, cs)
  }

  function AnswerAt(cs: seq<LedgerCommand>, i: nat): Outcome<ApplyOutcome>
    requires i < |cs|
  {
    Apply(Reached(cs[..i]), cs[i]).answer
  }

  /** The commands of a run that were answered `Applied`, in order. */
  function AppliedOf(cs: seq<LedgerCommand>): seq<LedgerCommand> {
    if |cs| == 0 then []
    else
      var before := AppliedOf(cs[..|cs| - 1]);
      if AnswerAt(cs, |cs| - 1) == Ok(Applied) then before + [cs[|cs| - 1]] else before
  }

  /** In every reachable state the views agree and the run-time re-check passes. */
  lemma {:induction false} ReachedInv(cs: seq<LedgerCommand>)
    ensures Inv(Reached(cs))
  {
    if |cs| == 0 {
      DefaultInv();
    } else {
      ReachedInv(cs[..|cs| - 1]);
      ApplyKeepsInv(Reached(cs[..|cs| - 1]), cs[|cs| - 1]);
    }
  }

  /** Over any run, no answer is ever an internal disagreement: the guards and traps are unreachable. */
  lemma GuardsNeverFire(cs: seq<LedgerCommand>, i: nat)
    requires i < |cs| && AnswerAt(cs, i).Err?
    ensures !Disagreement(AnswerAt(cs, i).error)
  {
    ReachedInv(cs[..i]);
    AnswersNeverDisagree(Reached(cs[..i]), cs[i]);
  }

  // ----- history equivalence -----

  lemma ReachedNext(cs: seq<LedgerCommand>, c: LedgerCommand)
    ensures Reached(cs + [c]) == Apply(Reached(cs), c).ledger
    ensures AppliedOf(cs + [c])
         == AppliedOf(cs) + (if Apply(Reached(cs), c).answer == Ok(Applied) then [c] else [])
  {
    assert (cs + [c])[..|cs|] == cs;
  }

  /** One step of a run: what it does to the state and to the list of applied commands. */
  lemma StepHistory(s: Ledger, c: LedgerCommand)
    ensures var step := Apply(s, c);
      if step.answer == Ok(Applied)
      then !s.halted && !step.ledger.halted && c.commandId !in s.processed
           && step.ledger.accepted == s.accepted + 1
           && step.ledger.processed == s.processed[c.commandId := CommandDigest(c)]
      else step.ledger.(halted := false) == s.(halted := false)
  {
  }

  /** What a run's state has to do with the commands that were applied in it. */
  ghost predicate HistoryHolds(cs: seq<LedgerCommand>) {
    && Reached(cs).(halted := false) == Reached(AppliedOf(cs))
    && AppliedOf(AppliedOf(cs)) == AppliedOf(cs)
    && |AppliedOf(cs)| == Reached(cs).accepted == |Reached(cs).processed|
  }

  lemma HistoryNext(before: seq<LedgerCommand>, c: LedgerCommand)
    requires HistoryHolds(before)
    ensures HistoryHolds(before + [c])
  {
    ReachedNext(before, c);
    ReachedNext(AppliedOf(before), c);
    StepHistory(Reached(before), c);
  }

  /** Apart from the halt flag a state is the fold of the commands that were applied, all of which apply again. */
  lemma {:induction false} HistoryEquivalence(cs: seq<LedgerCommand>)
    ensures Reached(cs).(halted := false) == Reached(AppliedOf(cs))
    ensures AppliedOf(AppliedOf(cs)) == AppliedOf(cs)
    ensures |AppliedOf(cs)| == Reached(cs).accepted == |Reached(cs).processed|
  {
    if |cs| > 0 {
      var before, c := cs[..|cs| - 1], cs[|cs| - 1];
      HistoryEquivalence(before);
      assert cs == before + [c];
      HistoryNext(before, c);
    }
    assert HistoryHolds(cs);
  }

  /** A refused command changes nothing, except that a conflict halts; its id stays free. */
  lemma RefusalLeavesNoTrace(s: Ledger, c: LedgerCommand)
    requires Apply(s, c).answer.Err?
    ensures Apply(s, c).ledger.(halted := s.halted) == s
    ensures Apply(s, c).ledger != s ==> Apply(s, c).answer == Err(IdempotencyConflict)
    ensures c.commandId !in s.processed ==> c.commandId !in Apply(s, c).ledger.processed
  {
  }

  ghost predicate ConflictAt(cs: seq<LedgerCommand>, i: nat)
    requires i < |cs|
  {
    var s := Reached(cs[..i]);
    Validate(cs[i]).None? && cs[i].commandId in s.processed && s.processed[cs[i].commandId].command != cs[i]
  }

  lemma StepHalts(s: Ledger, c: LedgerCommand)
    ensures Apply(s, c).ledger.halted <==>
      s.halted || (Validate(c).None? && c.commandId in s.processed && s.processed[c.commandId].command != c)
  {
  }

  lemma ConflictInPrefix(cs: seq<LedgerCommand>, n: nat, i: nat)
    requires i < n <= |cs|
    ensures ConflictAt(cs, i) <==> ConflictAt(cs[..n], i)
  {
    assert cs[..n][..i] == cs[..i];
  }

  lemma HaltedNext(cs: seq<LedgerCommand>, n: nat)
    requires |cs| == n + 1
    ensures Reached(cs).halted <==> Reached(cs[..n]).halted || ConflictAt(cs, n)
  {
    assert cs == cs[..n] + [cs[n]];
    ReachedNext(cs[..n], cs[n]);
    StepHalts(Reached(cs[..n]), cs[n]);
  }

  lemma ConflictsNext(cs: seq<LedgerCommand>, n: nat)
    requires |cs| == n + 1
    ensures (exists i :: 0 <= i < |cs| && ConflictAt(cs, i)) <==>
      (exists i :: 0 <= i < n && ConflictAt(cs[..n], i)) || ConflictAt(cs, n)
  {
    forall i | 0 <= i < n
      ensures ConflictAt(cs, i) <==> ConflictAt(cs[..n], i)
    {
      ConflictInPrefix(cs, n, i);
    }
  }

  /** The ledger is halted exactly when some valid command reused an accepted id with other content. */
  lemma {:induction false} HaltedExactly(cs: seq<LedgerCommand>)
    ensures Reached(cs).halted <==> exists i :: 0 <= i < |cs| && ConflictAt(cs, i)
  {
    if |cs| > 0 {
      var n := |cs| - 1;
      HaltedExactly(cs[..n]);
      HaltedNext(cs, n);
      ConflictsNext(cs, n);
    }
  }

  /** Once halted, every further command is refused and nothing changes. */
  lemma {:induction false} HaltAbsorbs(s: Ledger, cs: seq<LedgerCommand>)
    requires s.halted
    ensures Run(s, cs) == s
  {
    if |cs| > 0 {
      HaltAbsorbs(s, cs[..|cs| - 1]);
    }
  }

  // ----- capital is never stuck -----

  /** Cash and token accounts, available or reserved: the kinds in front, which only hold non-negative balances. */
  predicate IsFront(k: Key) {
    Kind(k.account) < 4
  }

  lemma MoveBorder(source: Key, target: Key, amount: int, a: Asset, h: nat)
    requires source.asset == target.asset && IsFront(source) && IsFront(target) && h >= 8
    ensures Delta(MoveTx(source, target, amount), Band(a, Upto(h))) == 0
  {
    DeltaUnrolled(MoveTx(source, target, amount), Band(a, Upto(h)));
  }

  /** The sum up to a front kind lies between nothing and the sum over all front kinds. */
  lemma FrontBelow(b: Balances, a: Asset, h: nat)
    requires SoundBalances(b) && h <= 8
    ensures 0 <= Sum(b, Band(a, Upto(h))) <= Sum(b, Band(a, Upto(8)))
  {
    var rest := Upto(8) - Upto(h);
    SumSplit(b, a, Upto(8), Upto(h), rest);
    SumSign(b, a, Upto(h));
    SumSign(b, a, rest);
  }

  /** Moving an amount between front accounts of one asset keeps the sums by account kind within i128. */
  lemma MoveKeepsBorders(b: Balances, b': Balances, source: Key, target: Key, amount: int)
    requires SoundBalances(b') && BordersFit(b) && Post(b, MoveTx(source, target, amount)) == Ok(b')
    requires source.asset == target.asset && IsFront(source) && IsFront(target)
    ensures BordersFit(b')
  {
    forall a, h: nat | h <= KINDS
      ensures Fits(Sum(b', Band(a, Upto(h))))
    {
      var wide := if h < 8 then 8 else h;
      PostEffect(b, MoveTx(source, target, amount), Band(a, Upto(wide)));
      MoveBorder(source, target, amount, a, wide);
      assert Fits(Sum(b, Band(a, Upto(wide))));
      if h < 8 {
        FrontBelow(b', a, h);
      }
    }
  }

  lemma MoveKeepsPnl(s: Books, s': Books, source: Key, target: Key, amount: int)
    requires CheckedPnl(s).Ok? && Post(s.balances, MoveTx(source, target, amount)) == Ok(s'.balances)
    requires IsFront(source) && IsFront(target) && s'.locks == s.locks
    ensures CheckedPnl(s').Ok?
  {
    var ps := MoveTx(source, target, amount);
    PostBalance(s.balances, ps, Money(TradingRevenue));
    PostBalance(s.balances, ps, Money(CostOfGoodsSold));
    PostBalance(s.balances, ps, Money(FeeExpense));
    DeltaMiss(ps, One(Money(TradingRevenue)));
    DeltaMiss(ps, One(Money(CostOfGoodsSold)));
    DeltaMiss(ps, One(Money(FeeExpense)));
  }

  /** Moving an amount between front accounts never makes the re-check fail. */
  lemma MoveVerifies(s: Books, s': Books, source: Key, target: Key, amount: int)
    requires Agree(s) && Verify(s).Ok? && Agree(s')
    requires Post(s.balances, MoveTx(source, target, amount)) == Ok(s'.balances) && s'.locks == s.locks
    requires source.asset == target.asset && IsFront(source) && IsFront(target)
    ensures Verify(s').Ok?
  {
    VerifyExactly(s);
    MoveKeepsBorders(s.balances, s'.balances, source, target, amount);
    MoveKeepsPnl(s, s', source, target, amount);
    VerifyExactly(s');
  }

  lemma BothInFront(id: Id, asset: ReservationAsset)
    ensures IsFront(HomeKey(asset)) && IsFront(HeldKey(id, asset)) && HomeKey(asset).asset == HeldKey(id, asset).asset
  {
  }

  lemma ReleaseUnfolds(s: Books, id: Id, s': Books)
    requires Release(s, id) == Ok(s')
    ensures var r := s.reservations[id];
      Post(s.balances, MoveTx(HeldKey(id, r.asset), HomeKey(r.asset), r.remaining)) == Ok(s'.balances)
    ensures s'.locks == s.locks
  {
  }

  lemma ReserveUnfolds(s: Books, id: Id, asset: ReservationAsset, amount: int, s': Books)
    requires Reserve(s, id, asset, amount) == Ok(s')
    ensures Post(s.balances, MoveTx(HomeKey(asset), HeldKey(id, asset), amount)) == Ok(s'.balances)
    ensures s'.locks == s.locks
  {
  }

  lemma ReleaseVerifies(s: Books, id: Id)
    requires Agree(s) && Verify(s).Ok? && ActiveReservation(s, id).Ok?
    ensures Release(s, id).Ok?
    ensures Agree(Release(s, id).value) ==> Verify(Release(s, id).value).Ok?
  {
    VerifyExactly(s);
    ReleaseSucceeds(s, id);
    var r, s' := s.reservations[id], Release(s, id).value;
    ReleaseUnfolds(s, id, s');
    BothInFront(id, r.asset);
    if Agree(s') {
      MoveVerifies(s, s', HeldKey(id, r.asset), HomeKey(r.asset), r.remaining);
    }
  }

  /** A fresh release of an active reservation succeeds, unless the command counter is exhausted. */
  lemma ReleaseNeverStuck(s: Ledger, c: LedgerCommand)
    requires Inv(s) && Fresh(s, c) && c.action.ReleaseReservation?
    requires ActiveReservation(s.books, c.action.reservationId).Ok?
    ensures Apply(s, c).answer == if s.accepted < U64_MAX then Ok(Applied) else Err(Overflow)
  {
    var id := c.action.reservationId;
    ReleaseVerifies(s.books, id);
    assert Perform(s.books, c.action) == Release(s.books, id);
    PerformedVerifies(s.books, c);
    FreshAnswer(s, c);
  }

  function ReserveAction(id: Id, asset: ReservationAsset, amount: i128): Action {
    if asset.Cash? then ReserveCollateral(id, amount) else ReserveToken(id, asset.token, amount)
  }

  lemma ReserveVerifies(s: Books, id: Id, asset: ReservationAsset, amount: int)
    requires Agree(s) && Verify(s).Ok? && Reserve(s, id, asset, amount).Ok?
    ensures Agree(Reserve(s, id, asset, amount).value) ==> Verify(Reserve(s, id, asset, amount).value).Ok?
  {
    var s' := Reserve(s, id, asset, amount).value;
    ReserveUnfolds(s, id, asset, amount, s');
    BothInFront(id, asset);
    if Agree(s') {
      MoveVerifies(s, s', HomeKey(asset), HeldKey(id, asset), amount);
    }
  }

  /**
   * A fresh reservation request is granted exactly when the available balance covers it, unless the command
   * counter is exhausted; no such request ever fails for range.
   */
  lemma ReserveAnswers(s: Ledger, c: LedgerCommand, id: Id, asset: ReservationAsset, amount: i128)
    requires Inv(s) && Fresh(s, c) && id !in s.books.reservations
    requires c.action == ReserveAction(id, asset, amount)
    ensures Bal(s.books.balances, HomeKey(asset)) < amount ==> Apply(s, c).answer == Err(NegativeBalance)
    ensures Bal(s.books.balances, HomeKey(asset)) >= amount ==>
      Apply(s, c).answer == if s.accepted < U64_MAX then Ok(Applied) else Err(Overflow)
  {
    FreshAnswer(s, c);
    ReserveExactly(s.books, id, asset, amount);
    assert Perform(s.books, c.action) == Reserve(s.books, id, asset, amount);
    if Perform(s.books, c.action).Ok? {
      PerformedVerifies(s.books, c);
      ReserveVerifies(s.books, id, asset, amount);
    }
  }
}
