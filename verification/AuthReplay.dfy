/** The authentication core's rule for failed commands: journal everything, tolerate one final halt on replay. */
module AuthReplay {
  import opened Results
  import opened Journaling
  import opened CrashSafety

  /** Every command that encodes is journaled, whatever the core answers. */
  function SubmitAll<S, C, O, E>(
    m: Machine<S, C, O, E>, w: World<S, C>, c: C, fate: AppendFate, syncs: bool): Submission<S, C, O, E>
    requires w.owner.Some?
  {
    var o := w.owner.value;
    if o.poisoned then Submission(w, Err(OwnerHalted))
    else if !m.valid(c) then Submission(w, Err(Undecodable))
    else Write(m, w, o, c, m.apply(o.state, c), fate, syncs)
  }

  datatype TolerantReplay<S> = TolerantReplay(state: S, last: Option<nat>, verified: bool, halted: bool)

  /** One record: a failure is accepted only when it leaves the core halted, and then nothing may follow. */
  function TolerantEntry<S(==), C, O, E>(
    m: Machine<S, C, O, E>, isHalted: S -> bool, r: TolerantReplay<S>, expected: nat, e: Envelope<C>,
    checkpoint: Option<Checkpoint<S>>)
    : Result<TolerantReplay<S>, PersistenceError<E>>
  {
    if r.halted then Err(PostHaltEvent)
    else if e.sequence != expected then Err(SequenceGap)
    else if expected + 1 > MAX_SEQUENCE then Err(SequenceExhausted)
    else
      var c :- ValidateEnvelope(m, e);
      var move := m.apply(r.state, c);
      if move.answer.Err? && !isHalted(move.state) then Err(ReplayFailure)
      else if checkpoint.Some? && checkpoint.value.sequence == e.sequence then
        if StateDigest(move.state) != checkpoint.value.digest then Err(CheckpointMismatch)
        else Ok(TolerantReplay(move.state, Some(e.sequence), true, move.answer.Err?))
      else Ok(TolerantReplay(move.state, Some(e.sequence), r.verified, move.answer.Err?))
  }

  function TolerantAll<S(==), C, O, E>(
    m: Machine<S, C, O, E>, isHalted: S -> bool, disk: seq<Envelope<C>>, checkpoint: Option<Checkpoint<S>>)
    : Result<TolerantReplay<S>, PersistenceError<E>>
  {
    if |disk| == 0 then Ok(TolerantReplay(m.initial, None, checkpoint.None?, false))
    else
      var n := |disk| - 1;
      var r :- TolerantAll(m, isHalted, disk[..n], checkpoint);
      TolerantEntry(m, isHalted, r, n, disk[n], checkpoint)
  }

  function TolerantRecover<S(==), C, O, E>(
    m: Machine<S, C, O, E>, isHalted: S -> bool, disk: seq<Envelope<C>>, checkpoint: Option<Checkpoint<S>>)
    : Result<Recovery<S>, PersistenceError<E>>
  {
    var r :- TolerantAll(m, isHalted, disk, checkpoint);
    if !r.verified then Err(CheckpointSequenceMissing) else Ok(Recovery(r.state, r.last))
  }

  /** The replay loop, stopping at the first rejected record. */
  method TolerantLoop<S(==), C, O, E>(
    m: Machine<S, C, O, E>, isHalted: S -> bool, disk: seq<Envelope<C>>, checkpoint: Option<Checkpoint<S>>)
    returns (r: Result<Recovery<S>, PersistenceError<E>>)
    ensures r == TolerantRecover(m, isHalted, disk, checkpoint)
  {
    var owner, last, verified, halted := m.initial, None, checkpoint.None?, false;
    for i := 0 to |disk|
      invariant TolerantAll(m, isHalted, disk[..i], checkpoint) == Ok(TolerantReplay(owner, last, verified, halted))
    {
      TolerantNext(m, isHalted, disk, checkpoint, i);
      var step := TolerantEntry(m, isHalted, TolerantReplay(owner, last, verified, halted), i, disk[i], checkpoint);
      if step.Err? {
        TolerantStop(m, isHalted, disk, checkpoint, i + 1);
        return Err(step.error);
      }
      owner, last, verified, halted := step.value.state, step.value.last, step.value.verified, step.value.halted;
    }
    assert disk[..|disk|] == disk;
    return if verified then Ok(Recovery(owner, last)) else Err(CheckpointSequenceMissing);
  }

  lemma TolerantNext<S, C, O, E>(
    m: Machine<S, C, O, E>, isHalted: S -> bool, disk: seq<Envelope<C>>, checkpoint: Option<Checkpoint<S>>, i: nat)
    requires i < |disk| && TolerantAll(m, isHalted, disk[..i], checkpoint).Ok?
    ensures TolerantAll(m, isHalted, disk[..i + 1], checkpoint)
         == TolerantEntry(m, isHalted, TolerantAll(m, isHalted, disk[..i], checkpoint).value, i, disk[i], checkpoint)
  {
    assert disk[..i + 1][..i] == disk[..i];
  }

  lemma {:induction false} TolerantStop<S, C, O, E>(
    m: Machine<S, C, O, E>, isHalted: S -> bool, disk: seq<Envelope<C>>, checkpoint: Option<Checkpoint<S>>, n: nat)
    requires n <= |disk| && TolerantAll(m, isHalted, disk[..n], checkpoint).Err?
    ensures TolerantAll(m, isHalted, disk, checkpoint) == TolerantAll(m, isHalted, disk[..n], checkpoint)
  {
    if n < |disk| {
      assert disk[..|disk| - 1][..n] == disk[..n];
      TolerantStop(m, isHalted, disk[..|disk| - 1], checkpoint, n);
    } else {
      assert disk[..n] == disk;
    }
  }

  // ----- which journals are accepted -----

  /** Every command applies, except possibly a final one that halts the core. */
  ghost predicate CleanOrHalted<S, C, O, E>(m: Machine<S, C, O, E>, isHalted: S -> bool, cs: seq<C>) {
    forall i :: 0 <= i < |cs| ==>
      AnswerAt(m, cs, i).Ok? || (i == |cs| - 1 && isHalted(Fold(m, cs)))
  }

  lemma CleanNext<S, C, O, E>(m: Machine<S, C, O, E>, isHalted: S -> bool, cs: seq<C>, n: nat)
    requires |cs| == n + 1
    ensures CleanOrHalted(m, isHalted, cs) <==>
      AllOk(m, cs[..n]) && (AnswerAt(m, cs, n).Ok? || isHalted(Fold(m, cs)))
  {
    var before := cs[..n];
    forall i | 0 <= i < n
      ensures AnswerAt(m, before, i) == AnswerAt(m, cs, i)
    {
      AnswerInPrefix(m, cs, n, i);
    }
    if AllOk(m, before) {
      forall i | 0 <= i < n ensures AnswerAt(m, cs, i).Ok? {
        assert AnswerAt(m, before, i).Ok?;
      }
    }
  }

  /** What tolerant replay does with a well-formed record after a clean prefix. */
  lemma TolerantStep<S, C, O, E>(m: Machine<S, C, O, E>, isHalted: S -> bool, r: TolerantReplay<S>, n: nat, c: C)
    requires m.valid(c)
    ensures var move, next := m.apply(r.state, c), TolerantEntry(m, isHalted, r, n, EnvelopeFor(m, n, c), None);
      && (next.Ok? <==> !r.halted && n + 1 <= MAX_SEQUENCE && (move.answer.Ok? || isHalted(move.state)))
      && (next.Ok? ==> next.value == TolerantReplay(move.state, Some(n), r.verified, move.answer.Err?))
  {
  }

  /** The replay's outcome is the one the commands determine. */
  ghost predicate Tolerates<S, C, O, E>(
    m: Machine<S, C, O, E>, isHalted: S -> bool, cs: seq<C>, r: Result<TolerantReplay<S>, PersistenceError<E>>)
  {
    && (r.Ok? <==> |cs| <= MAX_SEQUENCE && CleanOrHalted(m, isHalted, cs))
    && (r.Ok? ==> r.value == TolerantReplay(Fold(m, cs), LastOf(|cs|), true, !AllOk(m, cs)))
  }

  lemma ToleratesNext<S, C, O, E>(
    m: Machine<S, C, O, E>, isHalted: S -> bool, cs: seq<C>, n: nat, before: TolerantReplay<S>)
    requires |cs| == n + 1 && m.valid(cs[n])
    requires Tolerates(m, isHalted, cs[..n], Result<TolerantReplay<S>, PersistenceError<E>>.Ok(before))
    ensures Tolerates(m, isHalted, cs, TolerantEntry(m, isHalted, before, n, EnvelopeFor(m, n, cs[n]), None))
  {
    assert cs == cs[..n] + [cs[n]];
    FoldNext(m, cs[..n], cs[n]);
    CleanNext(m, isHalted, cs, n);
    AllOkNext(m, cs, n);
    TolerantStep(m, isHalted, before, n, cs[n]);
  }

  /**
   * Tolerant recovery accepts a gap-free journal exactly when every command applies except possibly a
   * final one that halts, and then returns the fold of the whole journal.
   */
  lemma {:induction false} TolerantExactly<S, C, O, E>(
    m: Machine<S, C, O, E>, isHalted: S -> bool, disk: seq<Envelope<C>>)
    requires Numbered(m, disk)
    ensures Tolerates(m, isHalted, Commands(disk), TolerantAll(m, isHalted, disk, None))
  {
    if |disk| > 0 {
      var n, cs := |disk| - 1, Commands(disk);
      CommandsPrefix(m, disk, n);
      TolerantExactly(m, isHalted, disk[..n]);
      var before := TolerantAll(m, isHalted, disk[..n], None);
      if before.Ok? {
        ToleratesNext(m, isHalted, cs, n, before.value);
      } else {
        CleanNext(m, isHalted, cs, n);
        AllOkIsClean(m, isHalted, cs[..n]);
      }
    }
  }

  lemma AllOkIsClean<S, C, O, E>(m: Machine<S, C, O, E>, isHalted: S -> bool, cs: seq<C>)
    ensures AllOk(m, cs) ==> CleanOrHalted(m, isHalted, cs)
  {
  }

  // ----- live and recovered -----

  function NextAll<S(==), C, O, E>(m: Machine<S, C, O, E>, isHalted: S -> bool, w: World<S, C>, e: Event<C>)
    : World<S, C>
  {
    match e
    case Command(c, fate, syncs) => if w.owner.None? then w else SubmitAll(m, w, c, fate, syncs).world
    case Flush(syncs) => if w.owner.None? then w else Synchronize(w, syncs)
    case Crash(keep) => if w.synced <= keep <= |w.disk| then RestartAll(m, isHalted, w, keep) else w
  }

  function RestartAll<S(==), C, O, E>(m: Machine<S, C, O, E>, isHalted: S -> bool, w: World<S, C>, keep: nat)
    : World<S, C>
    requires w.synced <= keep <= |w.disk|
  {
    var left := w.disk[..keep];
    match TolerantRecover(m, isHalted, left, None)
    case Ok(r) => World(left, w.synced, keep, Some(Owner(r.state, r.last, false)), w.acked)
    case Err(_) => World(left, w.synced, keep, None, w.acked)
  }

  function ContinueAll<S(==), C, O, E>(
    m: Machine<S, C, O, E>, isHalted: S -> bool, w: World<S, C>, events: seq<Event<C>>): World<S, C>
  {
    if |events| == 0 then w
    else NextAll(m, isHalted, ContinueAll(m, isHalted, w, events[..|events| - 1]), events[|events| - 1])
  }

  function AfterAll<S(==), C, O, E>(m: Machine<S, C, O, E>, isHalted: S -> bool, events: seq<Event<C>>): World<S, C> {
    ContinueAll(m, isHalted, World([], 0, 0, Some(Owner(m.initial, None, false)), []), events)
  }

  /** The live state is the fold of the records installed in it, failures included. */
  ghost predicate Follows<S, C, O, E>(m: Machine<S, C, O, E>, w: World<S, C>) {
    && Numbered(m, w.disk)
    && w.synced <= |w.disk|
    && (forall c :: c in w.acked ==> c in Commands(w.disk)[..w.synced])
    && (w.owner.Some? ==>
          var o := w.owner.value;
          && w.synced <= w.installed <= |w.disk| <= w.installed + 1
          && o.state == Fold(m, Commands(w.disk)[..w.installed])
          && (!o.poisoned ==> w.installed == |w.disk| && o.last == LastOf(|w.disk|)))
  }

  lemma GrowFollows<S, C, O, E>(m: Machine<S, C, O, E>, w: World<S, C>, c: C, w': World<S, C>)
    requires Follows(m, w) && w.owner.Some? && w.installed == |w.disk| && m.valid(c) && w'.owner.Some?
    requires w'.disk == w.disk + [EnvelopeFor(m, |w.disk|, c)]
    requires var o, o' := w.owner.value, w'.owner.value;
      || (w'.synced == w.synced && w'.installed == w.installed && o'.state == o.state && o'.poisoned
          && w'.acked == w.acked)
      || (w'.synced == w'.installed == |w'.disk| && o'.state == m.apply(o.state, c).state && o'.last == Some(|w.disk|)
          && (w'.acked == w.acked || w'.acked == w.acked + [c]))
    ensures Follows(m, w')
  {
    var cs := Commands(w.disk);
    CommandsAppend(m, w.disk, c);
    assert cs[..w.installed] == cs;
    FoldNext(m, cs, c);
    assert (cs + [c])[..|w.disk|] == cs && (cs + [c])[..|w.disk| + 1] == cs + [c];
    assert (cs + [c])[..w.synced] == cs[..w.synced];
    forall d | d in w.acked
      ensures d in cs
    {
      assert d in cs[..w.synced];
    }
  }

  lemma SubmitAllFollows<S, C, O, E>(m: Machine<S, C, O, E>, w: World<S, C>, c: C, fate: AppendFate, syncs: bool)
    requires Follows(m, w) && w.owner.Some?
    ensures Follows(m, SubmitAll(m, w, c, fate, syncs).world)
  {
    var o, w' := w.owner.value, SubmitAll(m, w, c, fate, syncs).world;
    if !o.poisoned && m.valid(c) && NextSequence<E>(o.last).Ok? && fate != FailedLost {
      assert NextSequence<E>(o.last).value == |w.disk|;
      GrowFollows(m, w, c, w');
    }
  }

  lemma RestartAllFollows<S, C, O, E>(m: Machine<S, C, O, E>, isHalted: S -> bool, w: World<S, C>, keep: nat)
    requires Follows(m, w) && w.synced <= keep <= |w.disk|
    ensures Follows(m, RestartAll(m, isHalted, w, keep))
  {
    var left, cs := w.disk[..keep], Commands(w.disk);
    CommandsPrefix(m, w.disk, keep);
    TolerantExactly(m, isHalted, left);
    assert cs[..keep][..keep] == cs[..keep];
    assert cs[..keep][..w.synced] == cs[..w.synced];
  }

  lemma {:induction false} ContinueFollows<S, C, O, E>(
    m: Machine<S, C, O, E>, isHalted: S -> bool, w: World<S, C>, events: seq<Event<C>>)
    requires Follows(m, w)
    ensures Follows(m, ContinueAll(m, isHalted, w, events))
  {
    if |events| > 0 {
      var before, e := ContinueAll(m, isHalted, w, events[..|events| - 1]), events[|events| - 1];
      ContinueFollows(m, isHalted, w, events[..|events| - 1]);
      match e
      case Command(c, fate, syncs) => if before.owner.Some? { SubmitAllFollows(m, before, c, fate, syncs); }
      case Flush(syncs) =>
      case Crash(keep) =>
        if before.synced <= keep <= |before.disk| { RestartAllFollows(m, isHalted, before, keep); }
    }
  }

  lemma RunFollows<S, C, O, E>(m: Machine<S, C, O, E>, isHalted: S -> bool, events: seq<Event<C>>)
    ensures Follows(m, AfterAll(m, isHalted, events))
  {
    ContinueFollows(m, isHalted, World([], 0, 0, Some(Owner(m.initial, None, false)), []), events);
  }

  /** What tolerant recovery returns when a crash keeps `keep` records. */
  ghost predicate Tracks<S, C, O, E>(m: Machine<S, C, O, E>, isHalted: S -> bool, w: World<S, C>, keep: nat)
    requires Follows(m, w) && w.synced <= keep <= |w.disk|
  {
    var r, cs := TolerantRecover(m, isHalted, w.disk[..keep], None), Commands(w.disk);
    && (r.Ok? <==> keep <= MAX_SEQUENCE && CleanOrHalted(m, isHalted, cs[..keep]))
    && (r.Ok? ==> r.value == Recovery(Fold(m, cs[..keep]), LastOf(keep)))
    && (forall c :: c in w.acked ==> c in cs[..keep])
    && (r.Ok? && w.owner.Some? ==> ResumesLive(m, w, keep, r.value))
  }

  lemma FollowsTracks<S, C, O, E>(m: Machine<S, C, O, E>, isHalted: S -> bool, w: World<S, C>, keep: nat)
    requires Follows(m, w) && w.synced <= keep <= |w.disk|
    ensures Tracks(m, isHalted, w, keep)
  {
    var cs := Commands(w.disk);
    CommandsPrefix(m, w.disk, keep);
    TolerantExactly(m, isHalted, w.disk[..keep]);
    forall c | c in w.acked
      ensures c in cs[..keep]
    {
      assert c in cs[..w.synced];
    }
    if w.owner.Some? && keep > w.installed {
      assert cs[..keep] == cs[..w.installed] + [cs[w.installed]];
      FoldNext(m, cs[..w.installed], cs[w.installed]);
    }
  }

  /**
   * After any run of the tolerant protocol, crashes and restarts included, recovery from whatever the
   * next crash leaves succeeds exactly when the survivors failed only by halting and nothing follows the
   * halt. It then replays the survivors, among them every acknowledged command; and if an owner was live,
   * its history or one command more, exactly when no installed record is lost.
   */
  lemma LiveIsRecovered<S, C, O, E>(m: Machine<S, C, O, E>, isHalted: S -> bool, events: seq<Event<C>>, keep: nat)
    requires var w := AfterAll(m, isHalted, events); w.synced <= keep <= |w.disk|
    ensures var w := AfterAll(m, isHalted, events); Follows(m, w) && Tracks(m, isHalted, w, keep)
  {
    RunFollows(m, isHalted, events);
    FollowsTracks(m, isHalted, AfterAll(m, isHalted, events), keep);
  }

  // ----- submitting to a halted owner -----

  /** The core starts running, a success leaves it running, and once halted it refuses every command. */
  ghost predicate HaltsByFailing<S(!new), C(!new), O, E>(m: Machine<S, C, O, E>, isHalted: S -> bool) {
    && !isHalted(m.initial)
    && (forall s, c :: !isHalted(s) && m.apply(s, c).answer.Ok? ==> !isHalted(m.apply(s, c).state))
    && (forall s, c :: isHalted(s) ==> m.apply(s, c).answer.Err? && isHalted(m.apply(s, c).state))
  }

  /** Every failure on an encodable command halts the core, as long as the journal's sequence lasts. */
  ghost predicate EveryFailureHalts<S(!new), C(!new), O, E>(m: Machine<S, C, O, E>, isHalted: S -> bool) {
    forall cs, c :: |cs| < MAX_SEQUENCE && m.valid(c) && m.apply(Fold(m, cs), c).answer.Err? ==>
      isHalted(m.apply(Fold(m, cs), c).state)
  }

  lemma {:induction false} AllOkRuns<S(!new), C(!new), O, E>(m: Machine<S, C, O, E>, isHalted: S -> bool, cs: seq<C>)
    requires HaltsByFailing(m, isHalted) && AllOk(m, cs)
    ensures !isHalted(Fold(m, cs))
  {
    if |cs| > 0 {
      var n := |cs| - 1;
      AllOkNext(m, cs, n);
      AllOkRuns(m, isHalted, cs[..n]);
    }
  }

  /** The guard for a recoverable journal: no command was ever submitted to a halted core. */
  ghost predicate NothingAfterHalt<S, C, O, E>(m: Machine<S, C, O, E>, isHalted: S -> bool, cs: seq<C>) {
    forall i :: 0 <= i < |cs| ==> !isHalted(Fold(m, cs[..i]))
  }

  lemma CleanIsGuarded<S(!new), C(!new), O, E>(m: Machine<S, C, O, E>, isHalted: S -> bool, cs: seq<C>)
    requires HaltsByFailing(m, isHalted) && EveryFailureHalts(m, isHalted)
    requires |cs| <= MAX_SEQUENCE && forall c :: c in cs ==> m.valid(c)
    ensures CleanOrHalted(m, isHalted, cs) <==> NothingAfterHalt(m, isHalted, cs)
  {
    if CleanOrHalted(m, isHalted, cs) {
      forall i | 0 <= i < |cs|
        ensures !isHalted(Fold(m, cs[..i]))
      {
        forall j | 0 <= j < i ensures AnswerAt(m, cs[..i], j).Ok? { AnswerInPrefix(m, cs, i, j); }
        AllOkRuns(m, isHalted, cs[..i]);
      }
    }
    if NothingAfterHalt(m, isHalted, cs) {
      forall i | 0 <= i < |cs|
        ensures AnswerAt(m, cs, i).Ok? || (i == |cs| - 1 && isHalted(Fold(m, cs)))
      {
        assert cs[i] in cs;
        assert cs[..i + 1] == cs[..i] + [cs[i]];
        FoldNext(m, cs[..i], cs[i]);
        assert i == |cs| - 1 ==> cs[..i + 1] == cs;
        assert i < |cs| - 1 ==> !isHalted(Fold(m, cs[..i + 1]));
      }
    }
  }

  /**
   * For a core that halts on every failure of an encodable command, tolerant recovery accepts a gap-free
   * journal exactly when the sequence lasts and nothing was submitted after the halt.
   */
  lemma HaltGuardExactly<S(!new), C(!new), O, E>(
    m: Machine<S, C, O, E>, isHalted: S -> bool, disk: seq<Envelope<C>>)
    requires HaltsByFailing(m, isHalted) && EveryFailureHalts(m, isHalted) && Numbered(m, disk)
    ensures TolerantRecover(m, isHalted, disk, None).Ok? <==>
      |disk| <= MAX_SEQUENCE && NothingAfterHalt(m, isHalted, Commands(disk))
  {
    TolerantExactly(m, isHalted, disk);
    if |disk| <= MAX_SEQUENCE {
      CleanIsGuarded(m, isHalted, Commands(disk));
    }
  }

  lemma {:induction false} DurableStaysAll<S, C, O, E>(
    m: Machine<S, C, O, E>, isHalted: S -> bool, w: World<S, C>, events: seq<Event<C>>)
    requires w.synced <= |w.disk|
    ensures Grows(w, ContinueAll(m, isHalted, w, events))
  {
    if |events| > 0 {
      var n := |events| - 1;
      var before := ContinueAll(m, isHalted, w, events[..n]);
      DurableStaysAll(m, isHalted, w, events[..n]);
      GrowsTransitive(w, before, NextAll(m, isHalted, before, events[n]));
    }
  }

  /** A command journaled after the halt rejects every journal that starts with it. */
  lemma PostHaltRejected<S(!new), C(!new), O, E>(
    m: Machine<S, C, O, E>, isHalted: S -> bool, disk: seq<Envelope<C>>, c: C)
    requires HaltsByFailing(m, isHalted) && Numbered(m, disk) && m.valid(c) && isHalted(Fold(m, Commands(disk)))
    ensures TolerantAll(m, isHalted, disk + [EnvelopeFor(m, |disk|, c)], None).Err?
  {
    var cs, longer := Commands(disk), disk + [EnvelopeFor(m, |disk|, c)];
    if AllOk(m, cs) {
      AllOkRuns(m, isHalted, cs);
    }
    CommandsAppend(m, disk, c);
    CleanNext(m, isHalted, cs + [c], |cs|);
    assert (cs + [c])[..|cs|] == cs;
    TolerantExactly(m, isHalted, longer);
  }

  /**
   * Submitting any encodable command to a halted owner is fatal once it is synced: the core refuses it,
   * the owner journals it all the same, and whatever happens later, restarts included, every tolerant
   * recovery of the journal fails. Only an exhausted sequence keeps it out of the journal.
   */
  lemma SubmitAfterHaltIsFatal<S(!new), C(!new), O, E>(
    m: Machine<S, C, O, E>, isHalted: S -> bool, events: seq<Event<C>>, c: C, later: seq<Event<C>>, keep: nat)
    requires HaltsByFailing(m, isHalted) && m.valid(c)
    requires var w := AfterAll(m, isHalted, events);
      w.owner.Some? && !w.owner.value.poisoned && isHalted(w.owner.value.state) && |w.disk| <= MAX_SEQUENCE
    requires var r := SubmitAll(m, AfterAll(m, isHalted, events), c, Appended, true);
      var end := ContinueAll(m, isHalted, r.world, later);
      end.synced <= keep <= |end.disk|
    ensures var r := SubmitAll(m, AfterAll(m, isHalted, events), c, Appended, true);
      && r.answer.Err? && r.answer.error.Core? && r.world.synced == |r.world.disk|
      && TolerantRecover(m, isHalted, ContinueAll(m, isHalted, r.world, later).disk[..keep], None).Err?
  {
    var w := AfterAll(m, isHalted, events);
    RunFollows(m, isHalted, events);
    var cs := Commands(w.disk);
    assert cs[..w.installed] == cs;
    var after := SubmitAll(m, w, c, Appended, true).world;
    PostHaltRejected(m, isHalted, w.disk, c);
    DurableStaysAll(m, isHalted, after, later);
    var left := ContinueAll(m, isHalted, after, later).disk[..keep];
    assert left[..|after.disk|] == after.disk;
    TolerantStop(m, isHalted, left, None, |after.disk|);
  }

  /** Tolerant replay, too, accepts only gap-free journals of the owner's own well-formed records. */
  lemma {:induction false} ToleratedIsNumbered<S, C, O, E>(
    m: Machine<S, C, O, E>, isHalted: S -> bool, disk: seq<Envelope<C>>, checkpoint: Option<Checkpoint<S>>)
    requires TolerantAll(m, isHalted, disk, checkpoint).Ok?
    ensures Numbered(m, disk)
  {
    if |disk| > 0 {
      var n := |disk| - 1;
      ToleratedIsNumbered(m, isHalted, disk[..n], checkpoint);
      assert IsRecord(m, disk[n], n, disk[n].payload.value);
      forall i | 0 <= i < n
        ensures disk[i].payload.Some? && IsRecord(m, disk[i], i, disk[i].payload.value)
      {
        assert disk[..n][i] == disk[i];
      }
    }
  }

  /**
   * Tolerant recovery of any file whatever succeeds if and only if it is a gap-free journal of the owner's own
   * well-formed records, they failed only by a final halt, and the sequence does not run out.
   */
  lemma TolerantRecoverExactly<S, C, O, E>(m: Machine<S, C, O, E>, isHalted: S -> bool, disk: seq<Envelope<C>>)
    ensures TolerantRecover(m, isHalted, disk, None).Ok? <==>
      Numbered(m, disk) && |disk| <= MAX_SEQUENCE && CleanOrHalted(m, isHalted, Commands(disk))
    ensures TolerantRecover(m, isHalted, disk, None).Ok? ==>
      TolerantRecover(m, isHalted, disk, None).value == Recovery(Fold(m, Commands(disk)), LastOf(|disk|))
  {
    if Numbered(m, disk) {
      TolerantExactly(m, isHalted, disk);
    } else if TolerantAll(m, isHalted, disk, None).Ok? {
      ToleratedIsNumbered(m, isHalted, disk, None);
    }
  }

  /**
   * Every submission to the tolerant owner. A poisoned owner refuses, a command that cannot be encoded and an
   * exhausted sequence change nothing; otherwise one record is stored, whatever the core answers.
   */
  lemma SubmitAllOutcomes<S, C, O, E>(m: Machine<S, C, O, E>, w: World<S, C>, c: C, fate: AppendFate, syncs: bool)
    requires w.owner.Some?
    ensures var r, o := SubmitAll(m, w, c, fate, syncs), w.owner.value;
      && (o.poisoned ==> r == Submission(w, Err(OwnerHalted)))
      && (!o.poisoned && !m.valid(c) ==> r == Submission(w, Err(Undecodable)))
      && (!o.poisoned && m.valid(c) ==>
            if SequenceLeft(o) then Stored(m, w, c, m.apply(o.state, c), fate, syncs, r)
            else r == Submission(w, Err(SequenceExhausted)))
  {
    if SequenceLeft(w.owner.value) {
      WriteOutcomes(m, w, c, m.apply(w.owner.value.state, c), fate, syncs);
    }
  }

  /** Whatever the strict rule accepts the tolerant one accepts too, with the same result. */
  lemma StrictImpliesTolerant<S, C, O, E>(m: Machine<S, C, O, E>, isHalted: S -> bool, disk: seq<Envelope<C>>)
    requires Numbered(m, disk) && Recover(m, disk, None).Ok?
    ensures TolerantRecover(m, isHalted, disk, None) == Recover(m, disk, None)
  {
    ReplayExactly(m, disk);
    TolerantExactly(m, isHalted, disk);
    AllOkIsClean(m, isHalted, Commands(disk));
  }

  /**
   * The two rules differ exactly on journals that end in a halting failure: the strict one rejects
   * them for good, the tolerant one recovers the halted state.
   */
  lemma RulesDifferExactly<S, C, O, E>(m: Machine<S, C, O, E>, isHalted: S -> bool, disk: seq<Envelope<C>>)
    requires Numbered(m, disk)
    ensures Recover(m, disk, None).Err? && TolerantRecover(m, isHalted, disk, None).Ok? <==>
      var cs := Commands(disk);
      && 0 < |cs| <= MAX_SEQUENCE
      && AllOk(m, cs[..|cs| - 1]) && AnswerAt(m, cs, |cs| - 1).Err? && isHalted(Fold(m, cs))
  {
    var cs := Commands(disk);
    ReplayExactly(m, disk);
    TolerantExactly(m, isHalted, disk);
    AllOkIsClean(m, isHalted, cs);
    if |cs| > 0 {
      AllOkNext(m, cs, |cs| - 1);
      CleanNext(m, isHalted, cs, |cs| - 1);
    }
  }
}
