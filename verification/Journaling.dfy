/** Journal-first durability of a deterministic core: the write protocol and strict recovery of the ledger crate. */
module Journaling {
  import opened Results

  /** The largest u64 sequence number. */
  const MAX_SEQUENCE: int := 0xFFFF_FFFF_FFFF_FFFF

  datatype Move<S, O, E> = Move(state: S, answer: Result<O, E>)

  /** A deterministic state machine with validated, time-stamped commands and one distinguished conflict error. */
  datatype Machine<!S, !C, !O, !E> = Machine(
    initial: S, apply: (S, C) -> Move<S, O, E>, valid: C -> bool, at: C -> int, conflict: E)

  function Fold<S, C, O, E>(m: Machine<S, C, O, E>, cs: seq<C>): S {
    if |cs| == 0 then m.initial else m.apply(Fold(m, cs[..|cs| - 1]), cs[|cs| - 1]).state
  }

  function AnswerAt<S, C, O, E>(m: Machine<S, C, O, E>, cs: seq<C>, i: nat): Result<O, E>
    requires i < |cs|
  {
    m.apply(Fold(m, cs[..i]), cs[i]).answer
  }

  datatype Source = System | Foreign
  datatype Stream = OwnStream | OtherStream

  /** A journal record; the payload is the decoded command, `None` when the bytes do not decode. */
  datatype Envelope<C> = Envelope(
    source: Source, stream: Stream, sequence: nat, eventTimeNs: int, receivedTimeNs: int, payload: Option<C>)

  datatype PersistenceError<E> =
    | Core(error: E) | Journal | Undecodable | SequenceGap | SequenceExhausted
    | EnvelopeIdentity | EnvelopeTimestamp | CheckpointMismatch | CheckpointSequenceMissing
    | RecoveryMismatch | OwnerHalted | ReplayFailure | PostHaltEvent

  function EnvelopeFor<S, C, O, E>(m: Machine<S, C, O, E>, sequence: nat, c: C): Envelope<C> {
    Envelope(System, OwnStream, sequence, m.at(c), m.at(c), Some(c))
  }

  // ----- recovery -----

  function ValidateEnvelope<S, C, O, E>(m: Machine<S, C, O, E>, e: Envelope<C>): Result<C, PersistenceError<E>> {
    if e.source != System || e.stream != OwnStream then Err(EnvelopeIdentity)
    else if e.payload.None? || !m.valid(e.payload.value) then Err(Undecodable)
    else if e.eventTimeNs != m.at(e.payload.value) || e.receivedTimeNs != m.at(e.payload.value)
    then Err(EnvelopeTimestamp)
    else Ok(e.payload.value)
  }

  /** BLAKE3 over the machine's state, idealised: equal digests mean equal states. */
  datatype Fingerprint<S> = StateDigest(state: S)

  datatype Checkpoint<S> = Checkpoint(sequence: nat, digest: Fingerprint<S>)

  datatype Replay<S> = Replay(state: S, last: Option<nat>, verified: bool)

  /** One record of strict recovery: any failing command rejects the journal. */
  function ReplayEntry<S(==), C, O, E>(
    m: Machine<S, C, O, E>, r: Replay<S>, expected: nat, e: Envelope<C>, checkpoint: Option<Checkpoint<S>>)
    : Result<Replay<S>, PersistenceError<E>>
  {
    if e.sequence != expected then Err(SequenceGap)
    else if expected + 1 > MAX_SEQUENCE then Err(SequenceExhausted)
    else
      var c :- ValidateEnvelope(m, e);
      var move := m.apply(r.state, c);
      if move.answer.Err? then Err(Core(move.answer.error))
      else if checkpoint.Some? && checkpoint.value.sequence == e.sequence then
        if StateDigest(move.state) != checkpoint.value.digest then Err(CheckpointMismatch)
        else Ok(Replay(move.state, Some(e.sequence), true))
      else Ok(Replay(move.state, Some(e.sequence), r.verified))
  }

  function ReplayAll<S(==), C, O, E>(
    m: Machine<S, C, O, E>, disk: seq<Envelope<C>>, checkpoint: Option<Checkpoint<S>>)
    : Result<Replay<S>, PersistenceError<E>>
  {
    if |disk| == 0 then Ok(Replay(m.initial, None, checkpoint.None?))
    else
      var n := |disk| - 1;
      var r :- ReplayAll(m, disk[..n], checkpoint);
      ReplayEntry(m, r, n, disk[n], checkpoint)
  }

  lemma ReplayNext<S, C, O, E>(
    m: Machine<S, C, O, E>, disk: seq<Envelope<C>>, checkpoint: Option<Checkpoint<S>>, i: nat)
    requires i < |disk| && ReplayAll(m, disk[..i], checkpoint).Ok?
    ensures ReplayAll(m, disk[..i + 1], checkpoint)
         == ReplayEntry(m, ReplayAll(m, disk[..i], checkpoint).value, i, disk[i], checkpoint)
  {
    assert disk[..i + 1][..i] == disk[..i];
  }

  /** A journal with a rejected prefix is rejected with the same error. */
  lemma {:induction false} ReplayStop<S, C, O, E>(
    m: Machine<S, C, O, E>, disk: seq<Envelope<C>>, checkpoint: Option<Checkpoint<S>>, n: nat)
    requires n <= |disk| && ReplayAll(m, disk[..n], checkpoint).Err?
    ensures ReplayAll(m, disk, checkpoint) == ReplayAll(m, disk[..n], checkpoint)
  {
    if n < |disk| {
      assert disk[..|disk| - 1][..n] == disk[..n];
      ReplayStop(m, disk[..|disk| - 1], checkpoint, n);
    } else {
      assert disk[..n] == disk;
    }
  }

  datatype Recovery<S> = Recovery(state: S, last: Option<nat>)

  function Recover<S(==), C, O, E>(
    m: Machine<S, C, O, E>, disk: seq<Envelope<C>>, checkpoint: Option<Checkpoint<S>>)
    : Result<Recovery<S>, PersistenceError<E>>
  {
    var r :- ReplayAll(m, disk, checkpoint);
    if !r.verified then Err(CheckpointSequenceMissing) else Ok(Recovery(r.state, r.last))
  }

  // ----- the write protocol -----

  /** What the storage does to one append: it succeeds, or fails with the record lost or on disk. */
  datatype AppendFate = Appended | FailedLost | FailedKept

  datatype Owner<S> = Owner(state: S, last: Option<nat>, poisoned: bool)

  /**
   * The journal file, how many of its records are known durable, how many the owner's state contains,
   * the live owner if there is one, and what was acknowledged.
   */
  datatype World<S, C> =
    World(disk: seq<Envelope<C>>, synced: nat, installed: nat, owner: Option<Owner<S>>, acked: seq<C>)

  datatype Submission<S, C, O, E> = Submission(world: World<S, C>, answer: Result<O, PersistenceError<E>>)

  function NextSequence<E>(last: Option<nat>): Result<nat, PersistenceError<E>> {
    if last.None? then Ok(0)
    else if last.value + 1 > MAX_SEQUENCE then Err(SequenceExhausted)
    else Ok(last.value + 1)
  }

  /** Append and sync one record for a computed move; install the move only when both succeed. */
  function Write<S, C, O, E>(
    m: Machine<S, C, O, E>, w: World<S, C>, o: Owner<S>, c: C, move: Move<S, O, E>, fate: AppendFate, syncs: bool)
    : Submission<S, C, O, E>
  {
    match NextSequence<E>(o.last)
    case Err(e) => Submission(w, Err(e))
    case Ok(sequence) =>
      var longer := w.disk + [EnvelopeFor(m, sequence, c)];
      if fate == FailedLost then Submission(w.(owner := Some(o.(poisoned := true))), Err(Journal))
      else if fate == FailedKept then
        Submission(w.(disk := longer, owner := Some(o.(poisoned := true))), Err(Journal))
      else if !syncs then
        Submission(w.(disk := longer, owner := Some(Owner(o.state, Some(sequence), true))), Err(Journal))
      else
        var installed := Some(Owner(move.state, Some(sequence), false));
        if move.answer.Err? then
          Submission(World(longer, |longer|, |longer|, installed, w.acked), Err(Core(move.answer.error)))
        else Submission(World(longer, |longer|, |longer|, installed, w.acked + [c]), Ok(move.answer.value))
  }

  /** The ledger's rule: refused commands are not journaled, but a conflict is. */
  function Submit<S, C, O, E(==)>(
    m: Machine<S, C, O, E>, w: World<S, C>, c: C, fate: AppendFate, syncs: bool): Submission<S, C, O, E>
    requires w.owner.Some?
  {
    var o := w.owner.value;
    if o.poisoned then Submission(w, Err(OwnerHalted))
    else
      var preflight := m.apply(o.state, c);
      if preflight.answer.Err? && preflight.answer.error != m.conflict
      then Submission(w, Err(Core(preflight.answer.error)))
      else Write(m, w, o, c, preflight, fate, syncs)
  }

  /** Synchronizes the durable prefix; a failure poisons the owner. */
  function Synchronize<S, C>(w: World<S, C>, syncs: bool): World<S, C>
    requires w.owner.Some?
  {
    if w.owner.value.poisoned then w
    else if syncs then w.(synced := |w.disk|)
    else w.(owner := Some(w.owner.value.(poisoned := true)))
  }

  /** What a sync answers. */
  function SyncAnswer<S, C, E>(w: World<S, C>, syncs: bool): Result<(), PersistenceError<E>>
    requires w.owner.Some?
  {
    if w.owner.value.poisoned then Err(OwnerHalted) else if syncs then Ok(()) else Err(Journal)
  }

  /**
   * A crash keeps the synced prefix and some of the rest; restart recovers strictly from what is left.
   * Reading the records makes them part of the new owner's state, but it does not make them durable.
   */
  function Restart<S(==), C, O, E>(m: Machine<S, C, O, E>, w: World<S, C>, keep: nat): World<S, C>
    requires w.synced <= keep <= |w.disk|
  {
    var left := w.disk[..keep];
    match Recover(m, left, None)
    case Ok(r) => World(left, w.synced, keep, Some(Owner(r.state, r.last, false)), w.acked)
    case Err(_) => World(left, w.synced, keep, None, w.acked)
  }

  // ----- runs -----

  datatype Event<C> = Command(command: C, fate: AppendFate, syncs: bool) | Flush(syncs: bool) | Crash(keep: nat)

  /** One event; events that cannot happen in the current world change nothing. */
  function Next<S(==), C, O, E(==)>(m: Machine<S, C, O, E>, w: World<S, C>, e: Event<C>): World<S, C> {
    match e
    case Command(c, fate, syncs) => if w.owner.None? then w else Submit(m, w, c, fate, syncs).world
    case Flush(syncs) => if w.owner.None? then w else Synchronize(w, syncs)
    case Crash(keep) => if w.synced <= keep <= |w.disk| then Restart(m, w, keep) else w
  }

  function Continue<S(==), C, O, E(==)>(m: Machine<S, C, O, E>, w: World<S, C>, events: seq<Event<C>>): World<S, C> {
    if |events| == 0 then w
    else Next(m, Continue(m, w, events[..|events| - 1]), events[|events| - 1])
  }

  function After<S(==), C, O, E(==)>(m: Machine<S, C, O, E>, events: seq<Event<C>>): World<S, C> {
    Continue(m, World([], 0, 0, Some(Owner(m.initial, None, false)), []), events)
  }
}
