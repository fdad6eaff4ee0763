/** What recovery can return after any run of the durable protocol with faults, crashes and restarts. */
module CrashSafety {
  import opened Results
  import opened Journaling

  /** Only valid commands succeed or conflict, and after a conflict every command is refused. */
  ghost predicate Lawful<S(!new), C(!new), O, E>(m: Machine<S, C, O, E>) {
    && (forall s, c :: m.apply(s, c).answer.Ok? || m.apply(s, c).answer == Err(m.conflict) ==> m.valid(c))
    && (forall s, c, d :: m.apply(s, c).answer == Err(m.conflict) ==> Refused(m, m.apply(s, c).state, d))
  }

  ghost predicate Refused<S, C, O, E>(m: Machine<S, C, O, E>, s: S, c: C) {
    m.apply(s, c).answer.Err? && m.apply(s, c).answer.error != m.conflict
  }

  // ----- what every run keeps -----

  /** Gap-free records, each carrying a valid command under its own sequence number. */
  ghost predicate Numbered<S, C, O, E>(m: Machine<S, C, O, E>, disk: seq<Envelope<C>>) {
    forall i :: 0 <= i < |disk| ==> disk[i].payload.Some? && IsRecord(m, disk[i], i, disk[i].payload.value)
  }

  /** A record of the owner's own stream that carries the valid command under the sequence, at the command's time. */
  ghost predicate IsRecord<S, C, O, E>(m: Machine<S, C, O, E>, e: Envelope<C>, sequence: nat, c: C) {
    && e.source == System && e.stream == OwnStream && e.sequence == sequence
    && e.payload == Some(c) && m.valid(c)
    && e.eventTimeNs == m.at(c) && e.receivedTimeNs == m.at(c)
  }

  ghost function Commands<C>(disk: seq<Envelope<C>>): (cs: seq<C>)
    requires forall i :: 0 <= i < |disk| ==> disk[i].payload.Some?
    ensures |cs| == |disk|
    ensures forall i :: 0 <= i < |disk| ==> cs[i] == disk[i].payload.value
  {
    seq(|disk|, i requires 0 <= i < |disk| => disk[i].payload.value)
  }

  /** Every journaled command was answered `Ok` in its place, except that the last may conflict. */
  ghost predicate Journaled<S, C, O, E>(m: Machine<S, C, O, E>, cs: seq<C>) {
    forall i :: 0 <= i < |cs| ==>
      AnswerAt(m, cs, i).Ok? || (i == |cs| - 1 && AnswerAt(m, cs, i) == Err(m.conflict))
  }

  function LastOf(n: nat): Option<nat> {
    if n == 0 then None else Some(n - 1)
  }

  ghost predicate Sound<S, C, O, E>(m: Machine<S, C, O, E>, w: World<S, C>) {
    && Numbered(m, w.disk)
    && Journaled(m, Commands(w.disk))
    && w.synced <= |w.disk|
    && (forall c :: c in w.acked ==> c in Commands(w.disk)[..w.synced])
    && (w.owner.Some? ==>
          var o := w.owner.value;
          && w.synced <= w.installed <= |w.disk| <= w.installed + 1
          && o.state == Fold(m, Commands(w.disk)[..w.installed])
          && (!o.poisoned ==> w.installed == |w.disk| && o.last == LastOf(|w.disk|)))
  }

  lemma CommandsPrefix<S, C, O, E>(m: Machine<S, C, O, E>, disk: seq<Envelope<C>>, n: nat)
    requires Numbered(m, disk) && n <= |disk|
    ensures Numbered(m, disk[..n]) && Commands(disk[..n]) == Commands(disk)[..n]
  {
  }

  lemma CommandsAppend<S, C, O, E>(m: Machine<S, C, O, E>, disk: seq<Envelope<C>>, c: C)
    requires Numbered(m, disk) && m.valid(c)
    ensures var longer := disk + [EnvelopeFor(m, |disk|, c)];
      Numbered(m, longer) && Commands(longer) == Commands(disk) + [c]
  {
  }

  lemma AnswerInPrefix<S, C, O, E>(m: Machine<S, C, O, E>, cs: seq<C>, n: nat, i: nat)
    requires i < n <= |cs|
    ensures AnswerAt(m, cs[..n], i) == AnswerAt(m, cs, i)
  {
    assert cs[..n][..i] == cs[..i];
  }

  lemma FoldNext<S, C, O, E>(m: Machine<S, C, O, E>, cs: seq<C>, c: C)
    ensures Fold(m, cs + [c]) == m.apply(Fold(m, cs), c).state
  {
    assert (cs + [c])[..|cs|] == cs;
  }

  lemma JournaledPrefix<S, C, O, E>(m: Machine<S, C, O, E>, cs: seq<C>, n: nat)
    requires Journaled(m, cs) && n <= |cs|
    ensures Journaled(m, cs[..n])
  {
    forall i | 0 <= i < n
      ensures AnswerAt(m, cs[..n], i) == AnswerAt(m, cs, i)
    {
      AnswerInPrefix(m, cs, n, i);
    }
  }

  /** What the protocol journals keeps the journal replayable up to a final conflict. */
  lemma JournaledAppend<S(!new), C(!new), O, E>(m: Machine<S, C, O, E>, cs: seq<C>, c: C)
    requires Lawful(m) && Journaled(m, cs)
    requires !Refused(m, Fold(m, cs), c)
    ensures Journaled(m, cs + [c])
  {
    var longer, n := cs + [c], |cs|;
    assert longer[..n] == cs;
    forall i | 0 <= i < n
      ensures AnswerAt(m, longer, i).Ok?
    {
      AnswerInPrefix(m, longer, n, i);
      if i == n - 1 {
        assert cs == cs[..i] + [cs[i]];
        FoldNext(m, cs[..i], cs[i]);
      }
    }
  }

  /** A record was appended but not made durable: the owner stops where it was. */
  lemma UnsyncedSound<S(!new), C(!new), O, E>(m: Machine<S, C, O, E>, w: World<S, C>, c: C, o: Owner<S>)
    requires Lawful(m) && Sound(m, w) && w.owner.Some? && w.installed == |w.disk|
    requires !Refused(m, w.owner.value.state, c) && o.state == w.owner.value.state && o.poisoned
    ensures Sound(m, World(w.disk + [EnvelopeFor(m, |w.disk|, c)], w.synced, w.installed, Some(o), w.acked))
  {
    var cs := Commands(w.disk);
    assert cs[..w.installed] == cs;
    JournaledAppend(m, cs, c);
    CommandsAppend(m, w.disk, c);
    assert (cs + [c])[..|w.disk|] == cs;
    assert (cs + [c])[..w.synced] == cs[..w.synced];
  }

  /** A record was appended and made durable: the owner moves. */
  lemma SyncedSound<S(!new), C(!new), O, E>(m: Machine<S, C, O, E>, w: World<S, C>, c: C, acked: seq<C>)
    requires Lawful(m) && Sound(m, w) && w.owner.Some? && w.installed == |w.disk|
    requires !Refused(m, w.owner.value.state, c) && (acked == w.acked || acked == w.acked + [c])
    ensures var o := Owner(m.apply(w.owner.value.state, c).state, Some(|w.disk|), false);
      var n := |w.disk| + 1;
      Sound(m, World(w.disk + [EnvelopeFor(m, |w.disk|, c)], n, n, Some(o), acked))
  {
    var cs := Commands(w.disk);
    assert cs[..w.installed] == cs;
    JournaledAppend(m, cs, c);
    CommandsAppend(m, w.disk, c);
    FoldNext(m, cs, c);
    assert (cs + [c])[..|w.disk| + 1] == cs + [c];
    forall d | d in w.acked
      ensures d in cs + [c]
    {
      assert d in cs[..w.synced];
    }
  }

  lemma SubmitKeepsSound<S(!new), C(!new), O, E>(
    m: Machine<S, C, O, E>, w: World<S, C>, c: C, fate: AppendFate, syncs: bool)
    requires Lawful(m) && Sound(m, w) && w.owner.Some?
    ensures Sound(m, Submit(m, w, c, fate, syncs).world)
  {
    var o, r := w.owner.value, Submit(m, w, c, fate, syncs);
    if !o.poisoned && !Refused(m, o.state, c) && NextSequence<E>(o.last).Ok? {
      assert NextSequence<E>(o.last).value == |w.disk|;
      if fate == FailedLost {
      } else if fate == FailedKept || !syncs {
        UnsyncedSound(m, w, c, r.world.owner.value);
      } else {
        SyncedSound(m, w, c, r.world.acked);
      }
    }
  }

  // ----- recovery -----

  /** Every record was answered `Ok` where it stands. */
  ghost predicate AllOk<S, C, O, E>(m: Machine<S, C, O, E>, cs: seq<C>) {
    forall i :: 0 <= i < |cs| ==> AnswerAt(m, cs, i).Ok?
  }

  lemma AllOkNext<S, C, O, E>(m: Machine<S, C, O, E>, cs: seq<C>, n: nat)
    requires |cs| == n + 1
    ensures AllOk(m, cs) <==> AllOk(m, cs[..n]) && AnswerAt(m, cs, n).Ok?
  {
    var before := cs[..n];
    forall i | 0 <= i < n
      ensures AnswerAt(m, before, i) == AnswerAt(m, cs, i)
    {
      AnswerInPrefix(m, cs, n, i);
    }
    if AllOk(m, before) && AnswerAt(m, cs, n).Ok? {
      forall i | 0 <= i < |cs|
        ensures AnswerAt(m, cs, i).Ok?
      {
        assert i < n ==> AnswerAt(m, before, i).Ok?;
      }
    }
  }

  /** What strict recovery does with a well-formed record. */
  lemma ReplayStep<S, C, O, E>(m: Machine<S, C, O, E>, r: Replay<S>, n: nat, c: C)
    requires m.valid(c)
    ensures var move, next := m.apply(r.state, c), ReplayEntry(m, r, n, EnvelopeFor(m, n, c), None);
      && (next.Ok? <==> n + 1 <= MAX_SEQUENCE && move.answer.Ok?)
      && (next.Ok? ==> next.value == Replay(move.state, Some(n), r.verified))
  {
  }

  lemma CheckedStep<S, C, O, E>(m: Machine<S, C, O, E>, r: Replay<S>, n: nat, c: C, cp: Checkpoint<S>)
    requires m.valid(c)
    ensures var move, next := m.apply(r.state, c), ReplayEntry(m, r, n, EnvelopeFor(m, n, c), Some(cp));
      && (next.Ok? <==> n + 1 <= MAX_SEQUENCE && move.answer.Ok?
                        && (cp.sequence == n ==> cp.digest == StateDigest(move.state)))
      && (next.Ok? ==> next.value == Replay(move.state, Some(n), r.verified || cp.sequence == n))
  {
  }

  /** Strict replay succeeds exactly when all commands apply again and the counter lasts, and then is the fold. */
  ghost predicate ReplayIsFold<S, C, O, E>(m: Machine<S, C, O, E>, disk: seq<Envelope<C>>, cs: seq<C>) {
    var r := ReplayAll(m, disk, None);
    && (r.Ok? <==> |disk| <= MAX_SEQUENCE && AllOk(m, cs))
    && (r.Ok? ==> r.value == Replay(Fold(m, cs), LastOf(|disk|), true))
  }

  lemma ReplayIsFoldNext<S, C, O, E>(m: Machine<S, C, O, E>, disk: seq<Envelope<C>>, cs: seq<C>, c: C)
    requires |disk| == |cs| && m.valid(c) && ReplayIsFold(m, disk, cs)
    ensures ReplayIsFold(m, disk + [EnvelopeFor(m, |disk|, c)], cs + [c])
  {
    var longer, n := disk + [EnvelopeFor(m, |disk|, c)], |disk|;
    assert longer[..n] == disk && longer[n] == EnvelopeFor(m, n, c);
    assert (cs + [c])[..n] == cs;
    FoldNext(m, cs, c);
    AllOkNext(m, cs + [c], n);
    var before := ReplayAll(m, disk, None);
    if before.Ok? {
      ReplayStep(m, before.value, n, c);
    }
  }

  /**
   * Strict recovery accepts a gap-free journal exactly when every command applies again and the
   * sequence counter does not run out, and then returns the fold of the whole journal.
   */
  lemma {:induction false} ReplayExactly<S, C, O, E>(m: Machine<S, C, O, E>, disk: seq<Envelope<C>>)
    requires Numbered(m, disk)
    ensures ReplayIsFold(m, disk, Commands(disk))
  {
    if |disk| > 0 {
      var n, cs := |disk| - 1, Commands(disk);
      CommandsPrefix(m, disk, n);
      ReplayExactly(m, disk[..n]);
      ReplayIsFoldNext(m, disk[..n], cs[..n], cs[n]);
      assert disk == disk[..n] + [disk[n]] && cs == cs[..n] + [cs[n]];
    }
  }

  /** Replay accepts only gap-free journals of the owner's own well-formed records. */
  lemma {:induction false} AcceptedIsNumbered<S, C, O, E>(
    m: Machine<S, C, O, E>, disk: seq<Envelope<C>>, checkpoint: Option<Checkpoint<S>>)
    requires ReplayAll(m, disk, checkpoint).Ok?
    ensures Numbered(m, disk)
  {
    if |disk| > 0 {
      var n := |disk| - 1;
      AcceptedIsNumbered(m, disk[..n], checkpoint);
      assert IsRecord(m, disk[n], n, disk[n].payload.value);
      forall i | 0 <= i < n
        ensures disk[i].payload.Some? && IsRecord(m, disk[i], i, disk[i].payload.value)
      {
        assert disk[..n][i] == disk[i];
      }
    }
  }

  /**
   * Strict recovery of any file whatever succeeds if and only if it is a gap-free journal of the owner's own
   * well-formed records, all its commands apply in turn, and the sequence does not run out; it then returns what
   * they reach.
   */
  lemma RecoverExactly<S, C, O, E>(m: Machine<S, C, O, E>, disk: seq<Envelope<C>>)
    ensures Recover(m, disk, None).Ok? <==>
      Numbered(m, disk) && |disk| <= MAX_SEQUENCE && AllOk(m, Commands(disk))
    ensures Recover(m, disk, None).Ok? ==>
      Recover(m, disk, None).value == Recovery(Fold(m, Commands(disk)), LastOf(|disk|))
  {
    if Numbered(m, disk) {
      ReplayExactly(m, disk);
    } else if ReplayAll(m, disk, None).Ok? {
      AcceptedIsNumbered(m, disk, None);
    }
  }

  /** What is wrong with the first record that recovery does not accept, after `n` that it does. */
  ghost predicate FaultIs<S, C, O, E>(
    m: Machine<S, C, O, E>, s: S, n: nat, e: Envelope<C>, error: PersistenceError<E>)
  {
    match error
    case SequenceGap => e.sequence != n
    case SequenceExhausted => e.sequence == n && n >= MAX_SEQUENCE
    case EnvelopeIdentity => e.sequence == n < MAX_SEQUENCE && (e.source.Foreign? || e.stream.OtherStream?)
    case Undecodable =>
      && e.sequence == n < MAX_SEQUENCE && e.source.System? && e.stream.OwnStream?
      && (e.payload.None? || !m.valid(e.payload.value))
    case EnvelopeTimestamp =>
      && e.payload.Some? && m.valid(e.payload.value)
      && IsRecord(m, Envelope(e.source, e.stream, e.sequence, m.at(e.payload.value), m.at(e.payload.value), e.payload),
                  n, e.payload.value)
      && n < MAX_SEQUENCE && !IsRecord(m, e, n, e.payload.value)
    case Core(refusal) =>
      && e.payload.Some? && IsRecord(m, e, n, e.payload.value) && n < MAX_SEQUENCE
      && m.apply(s, e.payload.value).answer == Err(refusal)
    case _ => false
  }

  /** A file is refused for its first bad record, whatever follows it. */
  lemma FirstFault<S, C, O, E>(m: Machine<S, C, O, E>, disk: seq<Envelope<C>>, n: nat)
    requires n < |disk| && Numbered(m, disk[..n]) && n <= MAX_SEQUENCE && AllOk(m, Commands(disk[..n]))
    requires ReplayAll(m, disk[..n + 1], None).Err?
    ensures Recover(m, disk, None).Err?
    ensures FaultIs(m, Fold(m, Commands(disk[..n])), n, disk[n], Recover(m, disk, None).error)
  {
    ReplayExactly(m, disk[..n]);
    ReplayNext(m, disk, None, n);
    ReplayStop(m, disk, None, n + 1);
  }

  lemma AllOkUnlessConflict<S, C, O, E>(m: Machine<S, C, O, E>, cs: seq<C>, n: nat)
    requires Journaled(m, cs) && n <= |cs|
    ensures AllOk(m, cs[..n]) <==> n == 0 || AnswerAt(m, cs, n - 1).Ok?
  {
    forall i | 0 <= i < n
      ensures AnswerAt(m, cs[..n], i) == AnswerAt(m, cs, i)
    {
      AnswerInPrefix(m, cs, n, i);
    }
    if n > 0 {
      assert AnswerAt(m, cs[..n], n - 1) == AnswerAt(m, cs, n - 1);
    }
  }

  lemma RestartKeepsSound<S(!new), C(!new), O, E>(m: Machine<S, C, O, E>, w: World<S, C>, keep: nat)
    requires Sound(m, w) && w.synced <= keep <= |w.disk|
    ensures Sound(m, Restart(m, w, keep))
  {
    var left, cs := w.disk[..keep], Commands(w.disk);
    CommandsPrefix(m, w.disk, keep);
    JournaledPrefix(m, cs, keep);
    ReplayExactly(m, left);
    assert cs[..keep][..keep] == cs[..keep];
    assert cs[..keep][..w.synced] == cs[..w.synced];
  }

  lemma {:induction false} ContinueKeepsSound<S(!new), C(!new), O, E>(
    m: Machine<S, C, O, E>, w: World<S, C>, events: seq<Event<C>>)
    requires Lawful(m) && Sound(m, w)
    ensures Sound(m, Continue(m, w, events))
  {
    if |events| > 0 {
      var before, e := Continue(m, w, events[..|events| - 1]), events[|events| - 1];
      ContinueKeepsSound(m, w, events[..|events| - 1]);
      match e
      case Command(c, fate, syncs) => if before.owner.Some? { SubmitKeepsSound(m, before, c, fate, syncs); }
      case Flush(syncs) =>
      case Crash(keep) => if before.synced <= keep <= |before.disk| { RestartKeepsSound(m, before, keep); }
    }
  }

  /**
   * Every run keeps: a gap-free journal, replayable up to a final conflict; acknowledged commands in its
   * durable part; and an owner whose state is the fold of all its records, or of all but one in flight.
   */
  lemma RunKeepsSound<S(!new), C(!new), O, E>(m: Machine<S, C, O, E>, events: seq<Event<C>>)
    requires Lawful(m)
    ensures Sound(m, After(m, events))
  {
    ContinueKeepsSound(m, World([], 0, 0, Some(Owner(m.initial, None, false)), []), events);
  }

  /**
   * Recovery from a crash of a sound world that keeps `keep` records: the history it replays is the
   * first `keep` commands, with every acknowledged one. When an owner was live, that is the live history
   * or one more exactly when no installed record is lost.
   */
  ghost predicate Recovers<S, C, O, E>(m: Machine<S, C, O, E>, w: World<S, C>, keep: nat)
    requires Sound(m, w) && w.synced <= keep <= |w.disk|
  {
    var r, cs := Recover(m, w.disk[..keep], None), Commands(w.disk);
    && (r.Ok? <==> keep <= MAX_SEQUENCE && (keep == 0 || AnswerAt(m, cs, keep - 1).Ok?))
    && (r.Ok? ==> r.value == Recovery(Fold(m, cs[..keep]), LastOf(keep)))
    && (forall c :: c in w.acked ==> c in cs[..keep])
    && (r.Ok? && w.owner.Some? ==> ResumesLive(m, w, keep, r.value))
  }

  /** How what recovery returned relates to the owner that was live. */
  ghost predicate ResumesLive<S, C, O, E>(m: Machine<S, C, O, E>, w: World<S, C>, keep: nat, r: Recovery<S>)
    requires keep <= |w.disk| && Numbered(m, w.disk) && w.owner.Some?
  {
    var cs, o := Commands(w.disk), w.owner.value;
    && (keep == w.installed ==> r.state == o.state)
    && (keep > w.installed ==>
          o.poisoned && keep == w.installed + 1 && r.state == m.apply(o.state, cs[w.installed]).state)
    && (keep >= w.installed <==> r.last == LastOf(w.installed) || r.last == Some(w.installed))
  }

  lemma SurvivorsReplay<S(!new), C(!new), O, E>(m: Machine<S, C, O, E>, w: World<S, C>, keep: nat)
    requires Sound(m, w) && keep <= |w.disk|
    ensures var r, cs := Recover(m, w.disk[..keep], None), Commands(w.disk);
      && (r.Ok? <==> keep <= MAX_SEQUENCE && (keep == 0 || AnswerAt(m, cs, keep - 1).Ok?))
      && (r.Ok? ==> r.value == Recovery(Fold(m, cs[..keep]), LastOf(keep)))
  {
    CommandsPrefix(m, w.disk, keep);
    ReplayExactly(m, w.disk[..keep]);
    AllOkUnlessConflict(m, Commands(w.disk), keep);
  }

  lemma SoundRecovers<S(!new), C(!new), O, E>(m: Machine<S, C, O, E>, w: World<S, C>, keep: nat)
    requires Sound(m, w) && w.synced <= keep <= |w.disk|
    ensures Recovers(m, w, keep)
  {
    var cs := Commands(w.disk);
    SurvivorsReplay(m, w, keep);
    forall c | c in w.acked
      ensures c in cs[..keep]
    {
      assert c in cs[..w.synced];
    }
    if w.owner.Some? && keep > w.installed {
      assert cs[..keep] == cs[..w.installed] + [cs[w.installed]];
      FoldNext(m, cs[..w.installed], cs[w.installed]);
    }
  }

  /**
   * Crash safety. After any run, with any number of crashes and restarts, recovery from whatever the
   * next crash leaves succeeds exactly when the last surviving command is not a conflict (and the u64
   * sequence is not exhausted). It then replays the surviving commands, among them every command that was
   * acknowledged; and if an owner was live, all it had installed, and possibly the one in flight, exactly
   * when no installed record is lost.
   */
  lemma RecoveryExactly<S(!new), C(!new), O, E>(m: Machine<S, C, O, E>, events: seq<Event<C>>, keep: nat)
    requires Lawful(m)
    requires var w := After(m, events); w.synced <= keep <= |w.disk|
    ensures Sound(m, After(m, events)) && Recovers(m, After(m, events), keep)
  {
    RunKeepsSound(m, events);
    SoundRecovers(m, After(m, events), keep);
  }

  // ----- when installed records are durable -----

  /** Everything the owner has installed is durable. */
  ghost predicate Secured<S, C>(w: World<S, C>) {
    w.installed <= w.synced
  }

  predicate CrashFree<C>(events: seq<Event<C>>) {
    forall i :: 0 <= i < |events| ==> !events[i].Crash?
  }

  /** Until the next crash, a secured world stays secured; so is the world before any event. */
  lemma {:induction false} SecuredStays<S, C, O, E>(m: Machine<S, C, O, E>, w: World<S, C>, events: seq<Event<C>>)
    requires w.synced <= |w.disk| && w.installed <= |w.disk| && Secured(w) && CrashFree(events)
    ensures var w' := Continue(m, w, events); w'.synced <= |w'.disk| && w'.installed <= |w'.disk| && Secured(w')
  {
    if |events| > 0 {
      var n := |events| - 1;
      SecuredStays(m, w, events[..n]);
      assert !events[n].Crash?;
    }
  }

  /** A sync or a command has just succeeded. */
  ghost predicate JustSecured<S(!new), C(!new), O, E>(m: Machine<S, C, O, E>, before: World<S, C>, w: World<S, C>)
    requires before.owner.Some?
  {
    || (!before.owner.value.poisoned && w == Synchronize(before, true))
    || exists c, fate, syncs :: Acknowledges(m, before, c, fate, syncs, w)
  }

  ghost predicate Acknowledges<S, C, O, E>(
    m: Machine<S, C, O, E>, before: World<S, C>, c: C, fate: AppendFate, syncs: bool, w: World<S, C>)
    requires before.owner.Some?
  {
    var r := Submit(m, before, c, fate, syncs);
    r.answer.Ok? && w == r.world
  }

  /**
   * One successful command or sync after opening secures the owner: from then until the next crash, every
   * recovery that succeeds returns the live state, or the live state after the one command in flight.
   */
  lemma SyncSecures<S(!new), C(!new), O, E>(
    m: Machine<S, C, O, E>, before: seq<Event<C>>, w: World<S, C>, later: seq<Event<C>>, keep: nat)
    requires Lawful(m) && After(m, before).owner.Some? && CrashFree(later)
    requires JustSecured(m, After(m, before), w)
    requires var live := Continue(m, w, later); live.owner.Some? && live.synced <= keep <= |live.disk|
    ensures var live := Continue(m, w, later);
      var r, o := Recover(m, live.disk[..keep], None), live.owner.value;
      && Secured(w) && Sound(m, live) && Recovers(m, live, keep)
      && (r.Ok? ==> r.value.state == o.state
                    || (o.poisoned && live.installed < |live.disk|
                        && r.value.state == m.apply(o.state, Commands(live.disk)[live.installed]).state))
  {
    var start := After(m, before);
    RunKeepsSound(m, before);
    if c, fate, syncs :| Acknowledges(m, start, c, fate, syncs, w) {
      SubmitKeepsSound(m, start, c, fate, syncs);
    }
    assert Sound(m, w) && Secured(w);
    SecuredStays(m, w, later);
    ContinueKeepsSound(m, w, later);
    SoundRecovers(m, Continue(m, w, later), keep);
  }

  // ----- what is durable stays -----

  /** The durable part of the journal only grows. */
  ghost predicate Grows<S, C>(w: World<S, C>, w': World<S, C>) {
    w.synced <= |w.disk| && w.synced <= w'.synced <= |w'.disk| && w.disk[..w.synced] <= w'.disk
  }

  lemma GrowsTransitive<S, C>(w: World<S, C>, v: World<S, C>, u: World<S, C>)
    requires Grows(w, v) && Grows(v, u)
    ensures Grows(w, u)
  {
    assert v.disk[..v.synced][..w.synced] == v.disk[..w.synced] == w.disk[..w.synced];
    assert u.disk[..v.synced][..w.synced] == u.disk[..w.synced];
  }

  lemma {:induction false} DurableStays<S, C, O, E>(m: Machine<S, C, O, E>, w: World<S, C>, events: seq<Event<C>>)
    requires w.synced <= |w.disk|
    ensures Grows(w, Continue(m, w, events))
  {
    if |events| > 0 {
      var n := |events| - 1;
      var before := Continue(m, w, events[..n]);
      DurableStays(m, w, events[..n]);
      GrowsTransitive(w, before, Next(m, before, events[n]));
    }
  }

  /** A journal that ends in a command that fails where it stands is rejected. */
  lemma FailureRejected<S, C, O, E>(m: Machine<S, C, O, E>, disk: seq<Envelope<C>>, c: C)
    requires Numbered(m, disk) && m.valid(c) && m.apply(Fold(m, Commands(disk)), c).answer.Err?
    ensures ReplayAll(m, disk + [EnvelopeFor(m, |disk|, c)], None).Err?
  {
    CommandsAppend(m, disk, c);
    AnswerOfLast(m, Commands(disk), c);
    ReplayExactly(m, disk + [EnvelopeFor(m, |disk|, c)]);
  }

  /** A durable journal that is rejected stays rejected whatever happens later. */
  lemma RejectedForever<S, C, O, E>(
    m: Machine<S, C, O, E>, w: World<S, C>, later: seq<Event<C>>, keep: nat)
    requires w.synced == |w.disk| && ReplayAll(m, w.disk, None).Err?
    requires var end := Continue(m, w, later); end.synced <= keep <= |end.disk|
    ensures Recover(m, Continue(m, w, later).disk[..keep], None).Err?
  {
    DurableStays(m, w, later);
    var left := Continue(m, w, later).disk[..keep];
    assert left[..|w.disk|] == w.disk[..w.synced] == w.disk;
    ReplayStop(m, left, None, |w.disk|);
  }

  /**
   * A conflict that was made durable is fatal: the live owner refuses everything, and whatever happens
   * later, restarts included, every recovery of the journal fails.
   */
  lemma ConflictIsFatal<S(!new), C(!new), O, E>(
    m: Machine<S, C, O, E>, w: World<S, C>, c: C, fate: AppendFate, syncs: bool, later: seq<Event<C>>, keep: nat)
    requires Lawful(m) && Sound(m, w) && w.owner.Some?
    requires var r := Submit(m, w, c, fate, syncs); r.answer == Err(Core(m.conflict))
    requires var end := Continue(m, Submit(m, w, c, fate, syncs).world, later); end.synced <= keep <= |end.disk|
    ensures var after := Submit(m, w, c, fate, syncs).world;
      && after.synced == |after.disk|
      && (forall d, f, b :: Submit(m, after, d, f, b).world == after)
      && Recover(m, Continue(m, after, later).disk[..keep], None).Err?
  {
    var o := w.owner.value;
    var after := Submit(m, w, c, fate, syncs).world;
    assert Commands(w.disk)[..w.installed] == Commands(w.disk);
    FailureRejected(m, w.disk, c);
    forall d, f, b
      ensures Submit(m, after, d, f, b).world == after
    {
      assert Refused(m, m.apply(o.state, c).state, d);
    }
    RejectedForever(m, after, later, keep);
  }

  lemma AnswerOfLast<S, C, O, E>(m: Machine<S, C, O, E>, cs: seq<C>, c: C)
    ensures AnswerAt(m, cs + [c], |cs|) == m.apply(Fold(m, cs), c).answer
  {
    assert (cs + [c])[..|cs|] == cs;
  }

  /** Without a restart, no command and no sync ever changes a poisoned owner, its journal or what it acknowledged. */
  lemma {:induction false} PoisonIsForever<S, C, O, E>(m: Machine<S, C, O, E>, w: World<S, C>, events: seq<Event<C>>)
    requires w.owner.Some? && w.owner.value.poisoned
    requires CrashFree(events)
    ensures Continue(m, w, events) == w
  {
    if |events| > 0 {
      var n := |events| - 1;
      PoisonIsForever(m, w, events[..n]);
      assert !events[n].Crash?;
      match events[n]
      case Command(c, fate, syncs) => PoisonAbsorbs(m, w, c, fate, syncs);
      case Flush(syncs) =>
    }
  }

  /** A poisoned owner answers every submission with the same refusal and nothing changes. */
  lemma PoisonAbsorbs<S, C, O, E>(m: Machine<S, C, O, E>, w: World<S, C>, c: C, fate: AppendFate, syncs: bool)
    requires w.owner.Some? && w.owner.value.poisoned
    ensures Submit(m, w, c, fate, syncs) == Submission(w, Err(OwnerHalted))
    ensures Synchronize(w, syncs) == w
  {
  }

  /** What storing one record does, from what the storage did. */
  ghost predicate Stored<S, C, O, E>(
    m: Machine<S, C, O, E>, w: World<S, C>, c: C, move: Move<S, O, E>, fate: AppendFate, syncs: bool,
    r: Submission<S, C, O, E>)
    requires w.owner.Some?
  {
    var o, after, longer := w.owner.value, r.world, |r.world.disk| == |w.disk| + 1;
    && w.disk <= after.disk && |after.disk| <= |w.disk| + 1
    && (longer <==> fate != FailedLost)
    && (longer && m.valid(c) ==>
          IsRecord(m, after.disk[|w.disk|], if o.last.None? then 0 else o.last.value + 1, c))
    && (r.answer == Err(Journal) <==> fate != Appended || !syncs)
    && after.owner.Some? && (after.owner.value.poisoned <==> fate != Appended || !syncs)
    && (if fate == Appended then after.owner.value.last == Some(if o.last.None? then 0 else o.last.value + 1)
        else after.owner.value.last == o.last)
    && if fate != Appended || !syncs then
         after.owner.value.state == o.state
         && after.synced == w.synced && after.installed == w.installed && after.acked == w.acked
       else
         && after.owner.value.state == move.state
         && after.synced == after.installed == |after.disk|
         && (if move.answer.Ok? then r.answer == Ok(move.answer.value) && after.acked == w.acked + [c]
             else r.answer == Err(Core(move.answer.error)) && after.acked == w.acked)
  }

  predicate SequenceLeft<S>(o: Owner<S>) {
    o.last.None? || o.last.value < MAX_SEQUENCE
  }

  lemma WriteOutcomes<S, C, O, E>(
    m: Machine<S, C, O, E>, w: World<S, C>, c: C, move: Move<S, O, E>, fate: AppendFate, syncs: bool)
    requires w.owner.Some? && SequenceLeft(w.owner.value)
    ensures Stored(m, w, c, move, fate, syncs, Write(m, w, w.owner.value, c, move, fate, syncs))
  {
  }

  /**
   * Every submission to the ledger's owner. A poisoned owner refuses, a command the core refuses and an exhausted
   * sequence change nothing; otherwise one record is stored: a failing append or sync poisons the owner where it
   * stands and acknowledges nothing, and only when both succeed is the command installed, durable and answered.
   */
  lemma SubmitOutcomes<S, C, O, E>(m: Machine<S, C, O, E>, w: World<S, C>, c: C, fate: AppendFate, syncs: bool)
    requires w.owner.Some?
    ensures var r, o := Submit(m, w, c, fate, syncs), w.owner.value;
      var preflight := m.apply(o.state, c);
      && (w.synced <= |w.disk| ==> Grows(w, r.world))
      && (o.poisoned ==> r == Submission(w, Err(OwnerHalted)))
      && (!o.poisoned && Refused(m, o.state, c) ==> r == Submission(w, Err(Core(preflight.answer.error))))
      && (!o.poisoned && !Refused(m, o.state, c) ==>
            if SequenceLeft(o) then Stored(m, w, c, preflight, fate, syncs, r)
            else r == Submission(w, Err(SequenceExhausted)))
  {
    if SequenceLeft(w.owner.value) {
      WriteOutcomes(m, w, c, m.apply(w.owner.value.state, c), fate, syncs);
    }
  }

  /** A running owner meets a storage failure: on appending or syncing a record, or on a sync alone. */
  predicate StorageFails<S, C, O, E(==)>(m: Machine<S, C, O, E>, o: Owner<S>, e: Event<C>) {
    && !o.poisoned
    && match e
       case Command(c, fate, syncs) =>
         SequenceLeft(o) && (fate != Appended || !syncs)
         && (m.apply(o.state, c).answer.Err? ==> m.apply(o.state, c).answer.error == m.conflict)
       case Flush(syncs) => !syncs
       case Crash(_) => false
  }

  /**
   * A storage failure installs and acknowledges nothing and makes nothing durable, and until the next crash no
   * command and no sync changes anything any more.
   */
  lemma StorageFailureFreezes<S, C, O, E>(m: Machine<S, C, O, E>, w: World<S, C>, e: Event<C>, later: seq<Event<C>>)
    requires w.owner.Some? && StorageFails(m, w.owner.value, e) && CrashFree(later)
    ensures var v := Next(m, w, e);
      && Continue(m, v, later) == v
      && v.owner.Some? && v.owner.value.poisoned && v.owner.value.state == w.owner.value.state
      && v.acked == w.acked && v.synced == w.synced && v.installed == w.installed
  {
    if e.Command? {
      SubmitOutcomes(m, w, e.command, e.fate, e.syncs);
    }
    PoisonIsForever(m, Next(m, w, e), later);
  }

  // ----- checkpoints -----

  /** Whether the checkpoint, if its sequence is in the journal, carries that prefix's digest. */
  ghost predicate Pins<S, C, O, E>(m: Machine<S, C, O, E>, cs: seq<C>, cp: Checkpoint<S>) {
    cp.sequence < |cs| ==> cp.digest == StateDigest(Fold(m, cs[..cp.sequence + 1]))
  }

  lemma PinsNext<S, C, O, E>(m: Machine<S, C, O, E>, cs: seq<C>, cp: Checkpoint<S>)
    requires |cs| > 0
    ensures Pins(m, cs, cp) <==>
      Pins(m, cs[..|cs| - 1], cp) && (cp.sequence == |cs| - 1 ==> cp.digest == StateDigest(Fold(m, cs)))
  {
    var n := |cs| - 1;
    assert cs[..n + 1] == cs;
    if cp.sequence < n {
      assert cs[..n][..cp.sequence + 1] == cs[..cp.sequence + 1];
    }
  }

  /** How recovery with a checkpoint relates to recovery without one. */
  ghost predicate Agrees<S, E>(
    plain: Result<Replay<S>, PersistenceError<E>>, checked: Result<Replay<S>, PersistenceError<E>>,
    pins: bool, verified: bool)
  {
    && (checked.Ok? <==> plain.Ok? && pins)
    && (checked.Ok? ==> checked.value == plain.value.(verified := verified))
  }

  lemma AgreesNext<S, C, O, E>(
    m: Machine<S, C, O, E>, plain: Replay<S>, checked: Replay<S>, n: nat, c: C, cp: Checkpoint<S>)
    requires m.valid(c) && checked == plain.(verified := cp.sequence < n)
    ensures Agrees(ReplayEntry(m, plain, n, EnvelopeFor(m, n, c), None),
                   ReplayEntry(m, checked, n, EnvelopeFor(m, n, c), Some(cp)),
                   cp.sequence == n ==> cp.digest == StateDigest(m.apply(plain.state, c).state),
                   cp.sequence < n + 1)
  {
    ReplayStep(m, plain, n, c);
    CheckedStep(m, checked, n, c, cp);
  }

  /** Recovery with a checkpoint, on a gap-free journal, agrees with recovery without one. */
  ghost predicate ChecksOut<S, C, O, E>(
    m: Machine<S, C, O, E>, disk: seq<Envelope<C>>, cs: seq<C>, cp: Checkpoint<S>)
  {
    Agrees(ReplayAll(m, disk, None), ReplayAll(m, disk, Some(cp)), Pins(m, cs, cp), cp.sequence < |disk|)
  }

  lemma ChecksOutNext<S, C, O, E>(
    m: Machine<S, C, O, E>, disk: seq<Envelope<C>>, cs: seq<C>, cp: Checkpoint<S>, c: C)
    requires |disk| == |cs| && m.valid(c) && ReplayIsFold(m, disk, cs) && ChecksOut(m, disk, cs, cp)
    ensures ChecksOut(m, disk + [EnvelopeFor(m, |disk|, c)], cs + [c], cp)
  {
    var n, longer := |disk|, disk + [EnvelopeFor(m, |disk|, c)];
    assert longer[..n] == disk && longer[n] == EnvelopeFor(m, n, c);
    assert (cs + [c])[..n] == cs;
    PinsNext(m, cs + [c], cp);
    FoldNext(m, cs, c);
    var plain, checked := ReplayAll(m, disk, None), ReplayAll(m, disk, Some(cp));
    if plain.Ok? && checked.Ok? {
      AgreesNext(m, plain.value, checked.value, n, c, cp);
    }
  }

  lemma {:induction false} CheckedReplay<S, C, O, E>(m: Machine<S, C, O, E>, disk: seq<Envelope<C>>, cp: Checkpoint<S>)
    requires Numbered(m, disk)
    ensures ChecksOut(m, disk, Commands(disk), cp)
  {
    if |disk| > 0 {
      var n, cs := |disk| - 1, Commands(disk);
      CommandsPrefix(m, disk, n);
      CheckedReplay(m, disk[..n], cp);
      ReplayExactly(m, disk[..n]);
      ChecksOutNext(m, disk[..n], cs[..n], cp, cs[n]);
      assert disk == disk[..n] + [disk[n]] && cs == cs[..n] + [cs[n]];
    }
  }

  /**
   * A checkpoint never changes what recovery returns; for any file it is accepted exactly when the file is, its
   * sequence is in the journal and its digest is that of the prefix up to and including that sequence.
   */
  lemma CheckpointExactly<S, C, O, E>(m: Machine<S, C, O, E>, disk: seq<Envelope<C>>, cp: Checkpoint<S>)
    ensures Recover(m, disk, Some(cp)).Ok? <==>
      Recover(m, disk, None).Ok? && Numbered(m, disk) && cp.sequence < |disk| && Pins(m, Commands(disk), cp)
    ensures Recover(m, disk, Some(cp)).Ok? ==> Recover(m, disk, Some(cp)) == Recover(m, disk, None)
  {
    if ReplayAll(m, disk, Some(cp)).Ok? {
      AcceptedIsNumbered(m, disk, Some(cp));
    }
    if Numbered(m, disk) {
      CheckedReplay(m, disk, cp);
      ReplayExactly(m, disk);
    }
  }
}
