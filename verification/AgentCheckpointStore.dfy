/** The checkpoint store as it runs (src/agent_checkpoint.rs:54-246): a record map
    updated in place with its disk copy, proved to take the steps of `AgentCheckpoint`. */
module AgentCheckpointStore {
  import opened Text
  import opened AgentCheckpoint

  class CheckpointStore {
    var records: Records
    var disk: Option<Records>

    ghost function View(): Store
      reads this
    {
      Store(records, disk)
    }

    /** `AgentCheckpointStore::in_memory`. */
    constructor InMemory()
      ensures View() == Store(map[], None)
    {
      records := map[];
      disk := None;
    }

    /** `AgentCheckpointStore::new` on a readable file: leases are cleared before the
        list is validated, and an invalid list opens no store. */
    static method Open(file: seq<Record>) returns (store: CheckpointStore?)
      ensures store != null <==> ValidRecords(Cleared(file))
      ensures store != null ==>
                fresh(store) && store.View() == Store(ByConversation(Cleared(file)), Some(ByConversation(file)))
      // a file this store wrote: the records come back with their leases cleared
      ensures forall s: Store :: s.disk.Some? && ValidMap(s.disk.value) && Lists(file, s.disk.value) ==>
                store != null && (store.View(), Restarted) == Reopen(s)
    {
      var cleared := Cleared(file);
      var ok := ValidateRecords(cleared);
      forall s: Store | s.disk.Some? && ValidMap(s.disk.value) && Lists(file, s.disk.value)
        ensures ok && Reopen(s) == (Store(ByConversation(cleared), Some(ByConversation(file))), Restarted)
      {
        ReopenListed(file, s);
      }
      if !ok {
        return null;
      }
      store := new CheckpointStore.InMemory();
      store.records := ByConversation(cleared);
      store.disk := Some(ByConversation(file));
    }

    /** `mutate` after its closure: validate, write, install. */
    method Install(proposed: Records, writeOk: bool) returns (ok: bool)
      requires Keyed(proposed)
      modifies this
      ensures ok <==> ValidMap(proposed) && (old(disk) == None || writeOk)
      ensures View() == if ok then Store(proposed, if old(disk).Some? then Some(proposed) else None) else old(View())
    {
      var listed := ListValues(proposed);
      var valid := ValidateRecords(listed);
      ListedValidity(listed, proposed);
      if !valid {
        return false;
      }
      if disk.Some? {
        if !writeOk {
          return false;
        }
        disk := Some(proposed);
      }
      records := proposed;
      return true;
    }

    method SaveWaiting(e: Event) returns (r: Outcome)
      requires e.Save? && Keyed(records)
      modifies this
      ensures (View(), r) == Step(old(View()), e)
    {
      var record := NewRecord(e.conversationId, e.ownerId, e.tenantId, e.agentId,
                              e.dslFingerprint, e.workflow, e.newId, e.now);
      if e.conversationId in records {
        return Failed;
      }
      var ok := Install(records[e.conversationId := record], e.writeOk);
      return if ok then Saved(record) else Failed;
    }

    method TakeClaim(e: Event) returns (r: Outcome)
      requires e.Take? && Keyed(records)
      modifies this
      ensures (View(), r) == Step(old(View()), e)
    {
      if e.conversationId !in records {
        return Missing;
      }
      var record := records[e.conversationId];
      if record.ownerId != e.ownerId || record.tenantId != e.tenantId || record.agentId != e.agentId {
        return Missing;
      }
      if e.resumeToken.Some? && e.resumeToken.value != record.checkpointId {
        return ResumeTokenMismatch;
      }
      if record.claimId.Some? && record.claimExpiresAt > e.now {
        return Busy;
      }
      record := record.(claimId := Some(e.newId), claimExpiresAt := Lease(e.now), updatedAt := e.now);
      var ok := Install(records[e.conversationId := record], e.writeOk);
      return if ok then Claimed(Claim(record, e.newId)) else Failed;
    }

    /** `claimed_record_mut`. */
    method ClaimedRecord(claim: Claim) returns (r: Option<Record>)
      ensures r.Some? <==> Holds(records, claim)
      ensures r.Some? ==> r.value == records[claim.record.conversationId]
    {
      var c := claim.record.conversationId;
      if c !in records || records[c].claimId != Some(claim.claimId) {
        return None;
      }
      return Some(records[c]);
    }

    method ReleaseClaim(e: Event) returns (r: Outcome)
      requires e.Release? && Keyed(records)
      modifies this
      ensures (View(), r) == Step(old(View()), e)
    {
      var found := ClaimedRecord(e.claim);
      if found == None {
        return Failed;
      }
      var record := found.value.(claimId := None, claimExpiresAt := 0, updatedAt := e.now);
      var ok := Install(records[e.claim.record.conversationId := record], e.writeOk);
      return if ok then Released else Failed;
    }

    method ReplaceClaimed(e: Event) returns (r: Outcome)
      requires e.Replace? && Keyed(records)
      modifies this
      ensures (View(), r) == Step(old(View()), e)
    {
      var found := ClaimedRecord(e.claim);
      if found == None {
        return Failed;
      }
      var record := found.value.(checkpointId := e.newId, dslFingerprint := e.dslFingerprint, workflow := e.workflow,
                                 claimId := None, claimExpiresAt := 0, updatedAt := e.now);
      var ok := Install(records[e.claim.record.conversationId := record], e.writeOk);
      return if ok then Replaced(record) else Failed;
    }

    method DeleteClaimedRecord(e: Event) returns (r: Outcome)
      requires e.DeleteClaimed? && Keyed(records)
      modifies this
      ensures (View(), r) == Step(old(View()), e)
    {
      var found := ClaimedRecord(e.claim);
      if found == None {
        return Failed;
      }
      var ok := Install(records - {e.claim.record.conversationId}, e.writeOk);
      return if ok then Deleted else Failed;
    }

    method DeleteUnclaimedRecord(e: Event) returns (r: Outcome)
      requires e.DeleteUnclaimed? && Keyed(records)
      modifies this
      ensures (View(), r) == Step(old(View()), e)
    {
      var c := e.record.conversationId;
      if c !in records {
        return Failed;
      }
      if records[c].checkpointId != e.record.checkpointId || records[c].claimId.Some? {
        return Failed;
      }
      var ok := Install(records - {c}, e.writeOk);
      return if ok then Deleted else Failed;
    }
  }

  /** Clearing and collecting a file that lists the disk is what a restart does. */
  lemma ReopenListed(file: seq<Record>, s: Store)
    requires s.disk.Some? && ValidMap(s.disk.value) && Lists(file, s.disk.value)
    ensures ValidRecords(Cleared(file))
    ensures Reopen(s) == (Store(ByConversation(Cleared(file)), Some(ByConversation(file))), Restarted)
  {
    var m := s.disk.value;
    OpenListed(file, m);
    ClearValid(m);
    ClearedLists(file, m);
    ListedValidity(Cleared(file), Clear(m));
    OpenListed(Cleared(file), Clear(m));
  }
}
