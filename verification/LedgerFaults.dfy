/** Inputs at which recovery of the durable ledger is not what its caller would hope for. */
module LedgerFaults {
  import opened Results
  import opened LedgerTypes
  import opened DoubleEntry
  import opened LedgerSpec
  import opened LedgerTotals
  import opened LedgerHistory
  import opened Journaling
  import opened CrashSafety
  import opened LedgerDurability

  predicate IsFunding(c: LedgerCommand) {
    c.action.FundCollateral? && Validate(c).None?
  }

  lemma FundingPosts(amount: int)
    requires 0 < amount <= I128_MAX
    ensures Post(map[], FundTx(amount))
         == Ok(map[Money(CashAvailable) := amount, Money(CapitalContributed) := -amount])
  {
    var ps := FundTx(amount);
    var cash, capital := Money(CashAvailable), Money(CapitalContributed);
    var one := Tally(map[Collateral := amount], map[cash := amount]);
    var two := Tally(map[Collateral := 0], map[cash := amount, capital := -amount]);
    assert ps[..1] == [ps[0]] && ps[..1][..0] == [] && [ps[0]][..0] == [];
    assert PostEntries(map[], ps[..1]) == PostEntry(Tally(map[], map[]), ps[0]) == Ok(one);
    assert one.totals[Collateral := 0] == two.totals && one.balances[capital := -amount] == two.balances;
    assert PostEntry(one, ps[1]) == Ok(two);
    assert PostEntries(map[], ps) == Ok(two);
    assert NonZero(two.balances) == two.balances && Cancels(two.totals);
    assert NonZeroCount(ps[..1]) == 1 && NonZeroCount(ps) == 2;
  }

  lemma FundingFits(amount: int)
    requires 0 < amount <= I128_MAX && Post(map[], FundTx(amount)).Ok?
    ensures BordersFit(Post(map[], FundTx(amount)).value)
  {
    forall a, h: nat | h <= KINDS
      ensures Fits(Sum(Post(map[], FundTx(amount)).value, Band(a, Upto(h))))
    {
      assert Selected(map[], Band(a, Upto(h))).Keys == {};
      PostEffect(map[], FundTx(amount), Band(a, Upto(h)));
      DeltaUnrolled(FundTx(amount), Band(a, Upto(h)));
    }
  }

  function FundedBooks(amount: int): Books {
    EMPTY_BOOKS.(balances := map[Money(CashAvailable) := amount, Money(CapitalContributed) := -amount])
  }

  lemma FundedPnl(amount: int)
    ensures CheckedPnl(FundedBooks(amount)).Ok?
  {
    assert SortedIds({}) == [];
  }

  lemma FundingVerifies(c: LedgerCommand)
    requires IsFunding(c)
    ensures Perform(EMPTY_BOOKS, c.action).Ok? && Verify(Perform(EMPTY_BOOKS, c.action).value).Ok?
  {
    var amount := c.action.amount;
    FundingPosts(amount);
    FundingFits(amount);
    DefaultInv();
    FundedPnl(amount);
    assert Perform(EMPTY_BOOKS, c.action) == Ok(FundedBooks(amount));
    PerformedVerifies(EMPTY_BOOKS, c);
    VerifyExactly(FundedBooks(amount));
  }

  /** Funding an empty ledger is applied, whatever the amount. */
  lemma FirstFunding(c: LedgerCommand)
    requires IsFunding(c)
    ensures var step := Apply(DEFAULT_LEDGER, c);
      && step.answer == Ok(Applied) && step.ledger.accepted == 1
      && step.ledger.processed == map[c.commandId := CommandDigest(c)] && !step.ledger.halted
  {
    FundingVerifies(c);
    FreshAnswer(DEFAULT_LEDGER, c);
    StepHistory(DEFAULT_LEDGER, c);
  }

  lemma TwoEvents(w: World<Ledger, LedgerCommand>, e: Event<LedgerCommand>, f: Event<LedgerCommand>)
    ensures Continue(LedgerMachine(), w, [e]) == Next(LedgerMachine(), w, e)
    ensures Continue(LedgerMachine(), w, [e, f]) == Next(LedgerMachine(), Next(LedgerMachine(), w, e), f)
  {
    assert [e, f][..1] == [e] && [e][..0] == [];
  }

  const START: World<Ledger, LedgerCommand> := World([], 0, 0, Some(Owner(DEFAULT_LEDGER, None, false)), [])

  /** The first funding command of a new journal, stored without any fault. */
  lemma FirstStored(c: LedgerCommand)
    requires IsFunding(c)
    ensures Submit(LedgerMachine(), START, c, Appended, true)
         == Submission(World([EnvelopeFor(LedgerMachine(), 0, c)], 1, 1,
                             Some(Owner(Apply(DEFAULT_LEDGER, c).ledger, Some(0), false)), [c]), Ok(Applied))
  {
    FirstFunding(c);
  }

  /**
   * Two funding commands with one id and different content, both stored without any fault, leave a durable
   * journal of two records; whatever happens later, no recovery of it succeeds again.
   */
  lemma ConflictReached(a: LedgerCommand, b: LedgerCommand, later: seq<Event<LedgerCommand>>, keep: nat)
    requires IsFunding(a) && IsFunding(b) && a.commandId == b.commandId && a != b
    requires var w := After(LedgerMachine(), [Command(a, Appended, true), Command(b, Appended, true)]);
      var end := Continue(LedgerMachine(), w, later);
      end.synced <= keep <= |end.disk|
    ensures var m := LedgerMachine();
      var w := After(m, [Command(a, Appended, true), Command(b, Appended, true)]);
      && |w.disk| == w.synced == 2 && w.acked == [a]
      && Recover(m, w.disk, None).Err?
      && Recover(m, Continue(m, w, later).disk[..keep], None).Err?
  {
    var m := LedgerMachine();
    var first := Submit(m, START, a, Appended, true).world;
    FirstFunding(a);
    FirstStored(a);
    LedgerIsLawful();
    RunKeepsSound(m, []);
    SubmitKeepsSound(m, START, a, Appended, true);
    ConflictExactly(first.owner.value.state, b);
    var r := Submit(m, first, b, Appended, true);
    TwoEvents(START, Command(a, Appended, true), Command(b, Appended, true));
    ConflictIsFatal(m, first, b, Appended, true, later, keep);
    ConflictIsFatal(m, first, b, Appended, true, [], 2);
    assert r.world.disk[..2] == r.world.disk;
  }

  /**
   * A record that was appended but never synced, read back by a restart that itself never syncs, is lost by
   * the next crash although the live owner contains it: recovery then returns the empty ledger.
   */
  lemma LossReached(c: LedgerCommand)
    requires IsFunding(c)
    ensures var m := LedgerMachine();
      var w := After(m, [Command(c, Appended, false), Crash(1)]);
      && w.owner.Some? && !w.owner.value.poisoned && w.owner.value.state.accepted == 1
      && w.synced == 0 && w.installed == |w.disk| == 1 && w.acked == []
      && Recover(m, w.disk[..0], None) == Ok(Recovery(DEFAULT_LEDGER, None))
  {
    var m := LedgerMachine();
    var first := Submit(m, START, c, Appended, false).world;
    FirstFunding(c);
    TwoEvents(START, Command(c, Appended, false), Crash(1));
    var disk := [EnvelopeFor(m, 0, c)];
    assert first == World(disk, 0, 0, Some(Owner(DEFAULT_LEDGER, Some(0), true)), []);
    OneRecord(c);
    assert disk[..1] == disk && disk[..0] == [];
  }

  lemma OneRecord(c: LedgerCommand)
    requires IsFunding(c)
    ensures Recover(LedgerMachine(), [EnvelopeFor(LedgerMachine(), 0, c)], None)
         == Ok(Recovery(Apply(DEFAULT_LEDGER, c).ledger, Some(0)))
  {
    var m := LedgerMachine();
    var disk := [EnvelopeFor(m, 0, c)];
    FirstFunding(c);
    assert disk[..0] == [] && Commands(disk) == [c] == [] + [c];
    ReplayStep(m, Replay(DEFAULT_LEDGER, None, true), 0, c);
    assert ReplayAll(m, disk[..0], None) == Ok(Replay(DEFAULT_LEDGER, None, true));
    ReplayNext(m, disk, None, 0);
    assert disk[..1] == disk;
  }

  // ----- the last sequence -----

  function Repeated<C>(c: C, n: nat): seq<Event<C>> {
    seq(n, i => Command(c, Appended, true))
  }

  /** The journal after storing one command `n` times, the first time reaching `s` and then staying there. */
  ghost function StoredTimes<S, C, O, E>(m: Machine<S, C, O, E>, s: S, c: C, n: nat): World<S, C>
    requires n > 0
  {
    World(seq(n, i requires 0 <= i < n => EnvelopeFor(m, i, c)), n, n,
          Some(Owner(s, Some(n - 1), false)), seq(n, i => c))
  }

  lemma StoredFirst<S, C, O, E>(m: Machine<S, C, O, E>, s: S, c: C, o: O)
    requires m.apply(m.initial, c) == Move(s, Ok(o))
    ensures After(m, Repeated(c, 1)) == StoredTimes(m, s, c, 1)
  {
    var start: World<S, C> := World([], 0, 0, Some(Owner(m.initial, None, false)), []);
    assert Repeated(c, 1) == [Command(c, Appended, true)] && Repeated(c, 1)[..0] == [];
    assert Continue(m, start, Repeated(c, 1)[..0]) == start;
    assert After(m, Repeated(c, 1)) == Submit(m, start, c, Appended, true).world;
    assert StoredTimes(m, s, c, 1).disk == [EnvelopeFor(m, 0, c)] && StoredTimes(m, s, c, 1).acked == [c];
  }

  lemma StoredNext<S, C, O, E>(m: Machine<S, C, O, E>, s: S, c: C, o: O, n: nat, k: nat)
    requires m.apply(s, c) == Move(s, Ok(o)) && 0 < n <= MAX_SEQUENCE && k == n + 1
    ensures Submit(m, StoredTimes(m, s, c, n), c, Appended, true) == Submission(StoredTimes(m, s, c, k), Ok(o))
  {
    var before, after := StoredTimes(m, s, c, n), StoredTimes(m, s, c, k);
    assert after.disk == before.disk + [EnvelopeFor(m, n, c)];
    assert after.acked == before.acked + [c];
  }

  lemma {:induction false} StoredRepeatedly<S, C, O, E>(m: Machine<S, C, O, E>, s: S, c: C, first: O, again: O, n: nat)
    requires m.apply(m.initial, c) == Move(s, Ok(first)) && m.apply(s, c) == Move(s, Ok(again))
    requires 0 < n <= MAX_SEQUENCE + 1
    ensures After(m, Repeated(c, n)) == StoredTimes(m, s, c, n)
  {
    if n == 1 {
      StoredFirst(m, s, c, first);
    } else {
      var k: nat := n - 1;
      assert Repeated(c, n)[..k] == Repeated(c, k) && Repeated(c, n)[k] == Command(c, Appended, true);
      StoredRepeatedly(m, s, c, first, again, k);
      StoredNext(m, s, c, again, k, n);
    }
  }

  /**
   * One funding command submitted once more than the largest u64, every time acknowledged and durable: the
   * journal ends at that sequence, and recovery refuses it although nothing ever failed.
   */
  lemma LastSequenceReached(c: LedgerCommand)
    requires IsFunding(c)
    ensures var m := LedgerMachine();
      var w := After(m, Repeated(c, MAX_SEQUENCE + 1));
      && |w.disk| == w.synced == |w.acked| == MAX_SEQUENCE + 1 && w.disk[MAX_SEQUENCE].sequence == MAX_SEQUENCE
      && w.owner.Some? && !w.owner.value.poisoned
      && Recover(m, w.disk, None).Err?
  {
    var n := MAX_SEQUENCE + 1;
    FirstFunding(c);
    StoredRepeatedly(LedgerMachine(), Apply(DEFAULT_LEDGER, c).ledger, c, Applied, Duplicate, n);
    var w := After(LedgerMachine(), Repeated(c, n));
    LedgerRecovery(Repeated(c, n), n);
    assert w.disk[..n] == w.disk;
  }
}
