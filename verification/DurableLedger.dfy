/** The journal-first owner of a ledger object, and recovery of one from a journal. */
module DurableLedgerModel {
  import opened Results
  import opened LedgerTypes
  import opened Journaling
  import opened LedgerDurability
  import opened AccountingLedgerModel

  type LedgerEnvelope = Envelope<LedgerCommand>
  type LedgerError = PersistenceError<Error>

  /** The journal file. Whether an append or a sync succeeds is decided by the storage. */
  class JournalFile {
    var records: seq<LedgerEnvelope>
    var synced: nat

    /** A file read back after a crash; opening it makes nothing durable that was not. */
    constructor (records: seq<LedgerEnvelope>, synced: nat)
      ensures this.records == records && this.synced == synced
    {
      this.records, this.synced := records, synced;
    }

    function LastEventSequence(): Option<nat>
      reads this
    {
      if |records| == 0 then None else Some(records[|records| - 1].sequence)
    }

    method AppendEvent(e: LedgerEnvelope, fate: AppendFate) returns (ok: bool)
      modifies this`records
      ensures ok <==> fate == Appended
      ensures records == if fate == FailedLost then old(records) else old(records) + [e]
    {
      if fate != FailedLost {
        records := records + [e];
      }
      ok := fate == Appended;
    }

    method SyncEvents(succeeds: bool) returns (ok: bool)
      modifies this`synced
      ensures ok == succeeds
      ensures synced == if succeeds then |records| else old(synced)
    {
      if succeeds {
        synced := |records|;
      }
      ok := succeeds;
    }
  }

  /** The view of an owner just opened over a file: all its records installed, none newly durable. */
  ghost function Opened(journal: JournalFile, ledger: AccountingLedger, last: Option<nat>, acked: seq<LedgerCommand>)
    : World<Ledger, LedgerCommand>
    reads journal, ledger
  {
    World(journal.records, journal.synced, |journal.records|, Some(Owner(ledger.State(), last, false)), acked)
  }

  class DurableLedger {
    const journal: JournalFile
    var ledger: AccountingLedger
    var lastSequence: Option<nat>
    var poisoned: bool
    ghost var installed: nat
    ghost var acked: seq<LedgerCommand>

    ghost function View(): World<Ledger, LedgerCommand>
      reads this, journal, ledger
    {
      World(journal.records, journal.synced, installed, Some(Owner(ledger.State(), lastSequence, poisoned)), acked)
    }

    constructor (journal: JournalFile, ledger: AccountingLedger, last: Option<nat>, ghost acked: seq<LedgerCommand>)
      ensures this.journal == journal && this.ledger == ledger
      ensures View() == Opened(journal, ledger, last, acked)
    {
      this.journal, this.ledger, lastSequence := journal, ledger, last;
      poisoned, installed, this.acked := false, |journal.records|, acked;
    }

    /** Appends and syncs one record; any failure poisons the owner. The ledger is not touched. */
    method Store(envelope: LedgerEnvelope, fate: AppendFate, syncs: bool) returns (stored: bool)
      requires !poisoned
      modifies this`lastSequence, this`poisoned, journal
      ensures stored <==> fate == Appended && syncs
      ensures poisoned == !stored
      ensures lastSequence == if fate == Appended then Some(envelope.sequence) else old(lastSequence)
      ensures journal.records == if fate == FailedLost then old(journal.records) else old(journal.records) + [envelope]
      ensures journal.synced == if stored then |journal.records| else old(journal.synced)
    {
      stored := journal.AppendEvent(envelope, fate);
      if stored {
        lastSequence := Some(envelope.sequence);
        stored := journal.SyncEvents(syncs);
      }
      poisoned := !stored;
    }

    /** The command on a copy of the ledger. */
    method Preflight(c: LedgerCommand) returns (copy: AccountingLedger, answer: Outcome<ApplyOutcome>)
      ensures fresh(copy)
      ensures Move(copy.State(), answer) == LedgerMachine().apply(ledger.State(), c)
    {
      copy := new AccountingLedger.Clone(ledger);
      answer := copy.Apply(c);
    }

    /** Validates on a copy, appends, syncs, and only then installs the copy. */
    method Apply(c: LedgerCommand, fate: AppendFate, syncs: bool) returns (r: Result<ApplyOutcome, LedgerError>)
      modifies this, journal
      ensures Submission(View(), r) == Submit(LedgerMachine(), old(View()), c, fate, syncs)
    {
      if poisoned {
        return Err(OwnerHalted);
      }
      var preflight, answer := Preflight(c);
      if answer.Err? && answer.error != IdempotencyConflict {
        return Err(Core(answer.error));
      }
      var sequence := NextSequence<Error>(lastSequence);
      if sequence.Err? {
        return Err(sequence.error);
      }
      var envelope := Envelope(System, OwnStream, sequence.value, c.recordedAtNs, c.recordedAtNs, Some(c));
      assert envelope == EnvelopeFor(LedgerMachine(), sequence.value, c);
      var stored := Store(envelope, fate, syncs);
      if !stored {
        return Err(Journal);
      }
      Install(preflight, c, answer.Ok?);
      return if answer.Ok? then Ok(answer.value) else Err(Core(IdempotencyConflict));
    }

    /** Makes the copy the live ledger; a success is acknowledged. */
    method Install(copy: AccountingLedger, ghost c: LedgerCommand, ghost succeeded: bool)
      modifies this`ledger, this`installed, this`acked
      ensures ledger == copy && installed == |journal.records|
      ensures acked == if succeeded then old(acked) + [c] else old(acked)
    {
      ledger, installed := copy, |journal.records|;
      acked := if succeeded then acked + [c] else acked;
    }

    /** Synchronizes the current durable prefix; a failure poisons the owner. */
    method Sync(succeeds: bool) returns (r: Result<(), LedgerError>)
      modifies this, journal
      ensures View() == Synchronize(old(View()), succeeds)
      ensures r == SyncAnswer(old(View()), succeeds)
    {
      if poisoned {
        return Err(OwnerHalted);
      }
      var durable := journal.SyncEvents(succeeds);
      if !durable {
        poisoned := true;
        return Err(Journal);
      }
      return Ok(());
    }
  }

  /** Aligns an opened writer with recovered state, refusing any disagreement about the last sequence. */
  method Open(journal: JournalFile, ledger: AccountingLedger, last: Option<nat>, ghost acked: seq<LedgerCommand>)
    returns (r: Result<DurableLedger, LedgerError>)
    ensures r.Ok? <==> journal.LastEventSequence() == last
    ensures r.Ok? ==> fresh(r.value) && r.value.journal == journal
    ensures r.Ok? ==> r.value.View() == Opened(journal, ledger, last, acked)
    ensures r.Err? ==> r.error == RecoveryMismatch
  {
    if journal.LastEventSequence() != last {
      return Err(RecoveryMismatch);
    }
    var owner := new DurableLedger(journal, ledger, last, acked);
    return Ok(owner);
  }

  lemma LastReplayed(disk: seq<LedgerEnvelope>, cp: Option<Checkpoint<Ledger>>)
    requires ReplayAll(LedgerMachine(), disk, cp).Ok?
    ensures ReplayAll(LedgerMachine(), disk, cp).value.last
         == if |disk| == 0 then None else Some(disk[|disk| - 1].sequence)
  {
  }

  /**
   * Restart after a crash: recovery of the surviving file and opening an owner over it. The result is
   * exactly the restart of the protocol; what was not durable before is not durable now.
   */
  method Reopen(journal: JournalFile, ghost before: World<Ledger, LedgerCommand>)
    returns (r: Result<DurableLedger, LedgerError>)
    requires before.synced == journal.synced <= |journal.records| <= |before.disk|
    requires journal.records == before.disk[..|journal.records|]
    ensures var after := Restart(LedgerMachine(), before, |journal.records|);
      && (r.Ok? <==> after.owner.Some?)
      && (r.Ok? ==> fresh(r.value) && r.value.View() == after)
  {
    var ledger, recovered := RecoverSegmented(journal.records, None);
    if recovered.Err? {
      return Err(recovered.error);
    }
    LastReplayed(journal.records, None);
    r := Open(journal, ledger, recovered.value, before.acked);
  }

  /** One record: sequence, envelope, transition, checkpoint; the ledger object is the replayed state. */
  method ReplayRecord(ledger: AccountingLedger, ghost last: Option<nat>, verified: bool, expected: nat,
                      e: LedgerEnvelope, cp: Option<Checkpoint<Ledger>>)
    returns (r: Result<bool, LedgerError>)
    modifies ledger
    ensures match ReplayEntry(LedgerMachine(), Replay(old(ledger.State()), last, verified), expected, e, cp)
            case Ok(next) => r == Ok(next.verified) && ledger.State() == next.state && next.last == Some(e.sequence)
            case Err(error) => r == Err(error)
  {
    if e.sequence != expected {
      return Err(SequenceGap);
    }
    if expected + 1 > MAX_SEQUENCE {
      return Err(SequenceExhausted);
    }
    var command := ValidateEnvelope(LedgerMachine(), e);
    if command.Err? {
      return Err(command.error);
    }
    var answer := ledger.Apply(command.value);
    if answer.Err? {
      return Err(Core(answer.error));
    }
    if cp.Some? && cp.value.sequence == e.sequence {
      var digest := TakeDigest(ledger);
      return if digest != cp.value.digest then Err(CheckpointMismatch) else Ok(true);
    }
    return Ok(verified);
  }

  method TakeDigest(ledger: AccountingLedger) returns (d: Fingerprint<Ledger>)
    ensures d == StateDigest(ledger.State())
  {
    d := StateDigest(Ledger(Books(ledger.balances, ledger.reservations, ledger.costs, ledger.locks),
                            ledger.processed, ledger.accepted, ledger.halted));
  }

  /** Replays a whole journal into a fresh ledger object, exactly as the recovery function does. */
  method RecoverSegmented(disk: seq<LedgerEnvelope>, cp: Option<Checkpoint<Ledger>>)
    returns (ledger: AccountingLedger, r: Result<Option<nat>, LedgerError>)
    ensures fresh(ledger)
    ensures match Recover(LedgerMachine(), disk, cp)
            case Ok(recovery) => r == Ok(recovery.last) && ledger.State() == recovery.state
            case Err(error) => r == Err(error)
  {
    ledger := new AccountingLedger();
    var last: Option<nat>, verified := None, cp.None?;
    for i := 0 to |disk|
      invariant fresh(ledger)
      invariant ReplayAll(LedgerMachine(), disk[..i], cp) == Ok(Replay(ledger.State(), last, verified))
    {
      ReplayNext(LedgerMachine(), disk, cp, i);
      var step := ReplayRecord(ledger, last, verified, i, disk[i], cp);
      if step.Err? {
        ReplayStop(LedgerMachine(), disk, cp, i + 1);
        return ledger, Err(step.error);
      }
      last, verified := Some(disk[i].sequence), step.value;
    }
    assert disk[..|disk|] == disk;
    if !verified {
      return ledger, Err(CheckpointSequenceMissing);
    }
    return ledger, Ok(last);
  }
}
