/** How the authentication core answers a command, around its own transition, and when it halts. */
module AuthCore {
  import opened Results
  import opened Journaling
  import opened CrashSafety
  import opened AuthReplay

  const U64_MAX: int := 0xFFFF_FFFF_FFFF_FFFF

  /** The core's own data, the table of answered commands, the counter, the last timestamp and the halt flag. */
  datatype AuthState<P, I, C, D> = AuthState(
    data: P, processed: map<I, Answered<C, D>>, accepted: nat, lastAt: Option<int>, halted: bool)

  datatype Answered<C, D> = Answered(command: C, outcome: D)

  datatype Transition<P, D> = Transition(data: P, outcome: D)

  /** What is not modelled of the core: its data, its transition and its error values. */
  datatype Rules<!P, !I, !C, !D, !E> = Rules(
    start: P, transition: (P, C) -> Result<Transition<P, D>, E>, id: C -> I, at: C -> int, encodes: C -> bool,
    halted: E, timestamp: E, unencodable: E, conflict: E, overflow: E)

  function Halt<P, I, C, D, E>(s: AuthState<P, I, C, D>, error: E): Move<AuthState<P, I, C, D>, D, E> {
    Move(s.(halted := true), Err(error))
  }

  function Apply<P, I, C(==), D, E>(rules: Rules<P, I, C, D, E>, s: AuthState<P, I, C, D>, c: C)
    : Move<AuthState<P, I, C, D>, D, E>
  {
    var id, at := rules.id(c), rules.at(c);
    if s.halted then Move(s, Err(rules.halted))
    else if at < 0 || (s.lastAt.Some? && at < s.lastAt.value) then Halt(s, rules.timestamp)
    else if !rules.encodes(c) then Move(s, Err(rules.unencodable))
    else if id in s.processed then
      if s.processed[id].command == c then Move(s, Ok(s.processed[id].outcome)) else Halt(s, rules.conflict)
    else
      match rules.transition(s.data, c)
      case Err(error) => Halt(s, error)
      case Ok(t) =>
        if s.accepted + 1 > U64_MAX then Move(s, Err(rules.overflow))
        else
          var processed := s.processed[id := Answered(c, t.outcome)];
          Move(AuthState(t.data, processed, s.accepted + 1, Some(at), false), Ok(t.outcome))
  }

  function CoreMachine<P, I, C(==), D, E>(rules: Rules<P, I, C, D, E>): Machine<AuthState<P, I, C, D>, C, D, E> {
    Machine(
      AuthState(rules.start, map[], 0, None, false),
      (s: AuthState<P, I, C, D>, c: C) => Apply(rules, s, c),
      rules.encodes, rules.at, rules.conflict)
  }

  function IsHalted<P, I, C, D>(s: AuthState<P, I, C, D>): bool {
    s.halted
  }

  lemma {:induction false} AcceptedBound<P, I, C, D, E>(rules: Rules<P, I, C, D, E>, cs: seq<C>)
    ensures Fold(CoreMachine(rules), cs).accepted <= |cs|
  {
    if |cs| > 0 {
      AcceptedBound(rules, cs[..|cs| - 1]);
    }
  }

  /**
   * Whatever its transition does, the core starts running, halts only by failing, refuses everything once
   * halted, and halts on every failure of an encodable command while the journal's sequence lasts. Two
   * failures do not halt it: a command that cannot be encoded, which is never journaled, and the
   * exhaustion of its counter, which takes as many journaled commands as there are sequences.
   */
  lemma CoreHalts<P(!new), I(!new), C(!new), D(!new), E>(rules: Rules<P, I, C, D, E>)
    ensures HaltsByFailing(CoreMachine(rules), IsHalted)
    ensures EveryFailureHalts(CoreMachine(rules), IsHalted)
  {
    var m := CoreMachine(rules);
    forall cs, c | |cs| < MAX_SEQUENCE && m.valid(c) && m.apply(Fold(m, cs), c).answer.Err?
      ensures IsHalted(m.apply(Fold(m, cs), c).state)
    {
      AcceptedBound(rules, cs);
    }
  }

  /** The condition under which the authentication journal can be recovered: nothing was submitted after the halt. */
  lemma AuthGuardExactly<P(!new), I(!new), C(!new), D(!new), E>(
    rules: Rules<P, I, C, D, E>, disk: seq<Envelope<C>>)
    requires Numbered(CoreMachine(rules), disk)
    ensures TolerantRecover(CoreMachine(rules), IsHalted, disk, None).Ok? <==>
      |disk| <= MAX_SEQUENCE && NothingAfterHalt(CoreMachine(rules), IsHalted, Commands(disk))
  {
    CoreHalts(rules);
    HaltGuardExactly(CoreMachine(rules), IsHalted, disk);
  }

  predicate InTime<P, I, C, D, E>(rules: Rules<P, I, C, D, E>, s: AuthState<P, I, C, D>, c: C) {
    rules.at(c) >= 0 && (s.lastAt.Some? ==> s.lastAt.value <= rules.at(c))
  }

  /** Exactly which failures leave a running core running: one of encoding, and the exhausted counter. */
  lemma FailuresThatDoNotHalt<P, I, C, D, E>(rules: Rules<P, I, C, D, E>, s: AuthState<P, I, C, D>, c: C)
    requires !s.halted && Apply(rules, s, c).answer.Err?
    ensures !Apply(rules, s, c).state.halted <==>
      && InTime(rules, s, c)
      && (!rules.encodes(c)
          || (rules.id(c) !in s.processed && rules.transition(s.data, c).Ok? && s.accepted >= U64_MAX))
    ensures !Apply(rules, s, c).state.halted ==> Apply(rules, s, c).state == s
  {
  }

  /** The core answers a command: with a repeat's first outcome, or with the transition's while the counter lasts. */
  ghost predicate Answers<P, I, C, D, E>(rules: Rules<P, I, C, D, E>, s: AuthState<P, I, C, D>, c: C, outcome: D) {
    && !s.halted && InTime(rules, s, c) && rules.encodes(c)
    && if rules.id(c) in s.processed then s.processed[rules.id(c)] == Answered(c, outcome)
       else
         && rules.transition(s.data, c).Ok? && rules.transition(s.data, c).value.outcome == outcome
         && s.accepted < U64_MAX
  }

  /**
   * Exactly when the core succeeds. A repeat changes nothing; a new command is then remembered with its outcome,
   * counted, and sets the time that later commands must reach.
   */
  lemma SuccessExactly<P, I, C, D, E>(
    rules: Rules<P, I, C, D, E>, s: AuthState<P, I, C, D>, c: C, outcome: D)
    ensures Apply(rules, s, c).answer == Ok(outcome) <==> Answers(rules, s, c, outcome)
    ensures Apply(rules, s, c).answer.Ok? ==>
      var next := Apply(rules, s, c).state;
      if rules.id(c) in s.processed then next == s
      else
        && next.processed == s.processed[rules.id(c) := Answered(c, Apply(rules, s, c).answer.value)]
        && Ok(Transition(next.data, Apply(rules, s, c).answer.value)) == rules.transition(s.data, c)
        && next.accepted == s.accepted + 1 && next.lastAt == Some(rules.at(c)) && !next.halted
  {
  }

  /** What a command was answered stays in the table, whatever follows. */
  lemma {:induction false} AnswersStay<P, I, C, D, E>(
    rules: Rules<P, I, C, D, E>, cs: seq<C>, n: nat, id: I, a: Answered<C, D>)
    requires n <= |cs| && id in Fold(CoreMachine(rules), cs[..n]).processed
    requires Fold(CoreMachine(rules), cs[..n]).processed[id] == a
    ensures id in Fold(CoreMachine(rules), cs).processed && Fold(CoreMachine(rules), cs).processed[id] == a
  {
    if n < |cs| {
      var before := cs[..|cs| - 1];
      assert before[..n] == cs[..n];
      AnswersStay(rules, before, n, id, a);
    } else {
      assert cs[..n] == cs;
    }
  }

  /**
   * On every run, a command once answered is answered the same again exactly while the core is running and the
   * command's time is not before the latest.
   */
  lemma FirstOutcomeStands<P, I, C, D, E>(rules: Rules<P, I, C, D, E>, cs: seq<C>, k: nat, outcome: D)
    requires k < |cs| && Apply(rules, Fold(CoreMachine(rules), cs[..k]), cs[k]).answer == Ok(outcome)
    ensures var s := Fold(CoreMachine(rules), cs);
      Apply(rules, s, cs[k]).answer == Ok(outcome) <==> !s.halted && InTime(rules, s, cs[k])
  {
    var m, c := CoreMachine(rules), cs[k];
    var s := Fold(m, cs[..k]);
    SuccessExactly(rules, s, c, outcome);
    assert cs[..k + 1][..k] == cs[..k];
    assert Fold(m, cs[..k + 1]) == Apply(rules, s, c).state;
    AnswersStay(rules, cs, k + 1, rules.id(c), Answered(c, outcome));
    SuccessExactly(rules, Fold(m, cs), c, outcome);
  }
}
