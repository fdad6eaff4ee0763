/** The journal-first owner of the authentication core, whose rules are abstract. */
module DurableAuth {
  import opened Results
  import opened Journaling
  import opened AuthReplay

  class DurableAuthCertification<!S, !C, !O, !E> {
    const core: Machine<S, C, O, E>
    var records: seq<Envelope<C>>
    var synced: nat
    var owner: S
    var lastSequence: Option<nat>
    var poisoned: bool
    ghost var installed: nat
    ghost var acked: seq<C>

    ghost function View(): World<S, C>
      reads this
    {
      World(records, synced, installed, Some(Owner(owner, lastSequence, poisoned)), acked)
    }

    /** An owner over a journal of which `synced` records are durable, with the state recovered from all of it. */
    constructor (core: Machine<S, C, O, E>, records: seq<Envelope<C>>, synced: nat, recovery: Recovery<S>,
                 ghost acked: seq<C>)
      ensures this.core == core
      ensures View() == World(records, synced, |records|, Some(Owner(recovery.state, recovery.last, false)), acked)
    {
      this.core, this.records, this.synced := core, records, synced;
      owner, lastSequence, poisoned := recovery.state, recovery.last, false;
      installed, this.acked := |records|, acked;
    }

    /** Journals and syncs before installing the transition, and reports the core's answer last. */
    method Apply(c: C, fate: AppendFate, syncs: bool) returns (r: Result<O, PersistenceError<E>>)
      modifies this
      ensures Submission(View(), r) == SubmitAll(core, old(View()), c, fate, syncs)
    {
      if poisoned {
        return Err(OwnerHalted);
      }
      if !core.valid(c) {
        return Err(Undecodable);
      }
      var next := core.apply(owner, c);
      if lastSequence.Some? && lastSequence.value + 1 > MAX_SEQUENCE {
        return Err(SequenceExhausted);
      }
      var sequence := if lastSequence.None? then 0 else lastSequence.value + 1;
      if fate != FailedLost {
        records := records + [Envelope(System, OwnStream, sequence, core.at(c), core.at(c), Some(c))];
      }
      if fate != Appended {
        poisoned := true;
        return Err(Journal);
      }
      lastSequence := Some(sequence);
      if !syncs {
        poisoned := true;
        return Err(Journal);
      }
      synced := |records|;
      owner, installed := next.state, |records|;
      if next.answer.Err? {
        return Err(Core(next.answer.error));
      }
      acked := acked + [c];
      return Ok(next.answer.value);
    }
  }

  lemma LastTolerated<S, C, O, E>(m: Machine<S, C, O, E>, isHalted: S -> bool, disk: seq<Envelope<C>>)
    requires TolerantAll(m, isHalted, disk, None).Ok?
    ensures TolerantAll(m, isHalted, disk, None).value.last
         == if |disk| == 0 then None else Some(disk[|disk| - 1].sequence)
  {
  }

  /**
   * Restart after a crash: tolerant recovery of the surviving records and opening an owner over them, with
   * the sequences compared. The result is exactly the restart of the protocol.
   */
  method Reopen<S(==), C, O, E>(
    core: Machine<S, C, O, E>, isHalted: S -> bool, records: seq<Envelope<C>>, synced: nat, ghost before: World<S, C>)
    returns (r: Result<DurableAuthCertification<S, C, O, E>, PersistenceError<E>>)
    requires before.synced == synced <= |records| <= |before.disk| && records == before.disk[..|records|]
    ensures var after := RestartAll(core, isHalted, before, |records|);
      && (r.Ok? <==> after.owner.Some?)
      && (r.Ok? ==> fresh(r.value) && r.value.core == core && r.value.View() == after)
  {
    var recovered := TolerantLoop(core, isHalted, records, None);
    if recovered.Err? {
      return Err(recovered.error);
    }
    LastTolerated(core, isHalted, records);
    var last := if |records| == 0 then None else Some(records[|records| - 1].sequence);
    if last != recovered.value.last {
      return Err(RecoveryMismatch);
    }
    var owner := new DurableAuthCertification(core, records, synced, recovered.value, before.acked);
    return Ok(owner);
  }
}
