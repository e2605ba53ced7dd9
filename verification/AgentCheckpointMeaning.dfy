/** What each operation of the checkpoint store answers and stores, and to whom a run grants what
    (src/agent_checkpoint.rs:99-246). */
module AgentCheckpointMeaning {
  import opened AgentCheckpoint
  import opened Text

  /** A valid change reaches memory, and the file if there is one. */
  predicate Writable(s: Store, writeOk: bool) { s.disk == None || writeOk }

  /** The store with this map in memory and, if there is a file, in the file. */
  function Holding(s: Store, m: Records): Store { Store(m, if s.disk == None then None else Some(m)) }

  lemma ReplacedIsValid(m: Records, c: string, r: Record)
    requires ValidMap(m) && r.conversationId == c
    ensures ValidMap(m[c := r])
       <==> Identified(r) && LeaseHasClaim(r) && forall d :: d in m && d != c ==> m[d].checkpointId != r.checkpointId
  {
    var m' := m[c := r];
    assert c in m' && m'[c] == r;
    forall d | d in m && d != c ensures d in m' && m'[d] == m[d] { }
    if ValidMap(m') {
      forall d | d in m && d != c ensures m[d].checkpointId != r.checkpointId {
        assert m'[d].checkpointId != m'[c].checkpointId;
      }
    }
  }

  lemma RemovedIsValid(m: Records, c: string)
    requires ValidMap(m)
    ensures ValidMap(m - {c})
  {
  }

  // ----- claiming -----

  /** The record is that of these principals. */
  predicate Belongs(r: Record, ownerId: string, tenantId: string, agentId: string) {
    r.ownerId == ownerId && r.tenantId == tenantId && r.agentId == agentId
  }

  /** Claiming answers by the record of the conversation: missing to anyone but its own principals, a mismatch for
      another token, busy while a claim is unexpired. Otherwise it is granted if it can be written, and all that
      changes is the claim, its expiry 15 minutes on, and the time of change. */
  lemma TakeMeaning(s: Store, e: Event)
    requires ValidMap(s.records) && e.Take?
    ensures var m, c := s.records, e.conversationId;
            var after, out := Step(s, e).0, Step(s, e).1;
            if c !in m || !Belongs(m[c], e.ownerId, e.tenantId, e.agentId) then after == s && out == Missing
            else if e.resumeToken != None && e.resumeToken != Some(m[c].checkpointId)
            then after == s && out == ResumeTokenMismatch
            else if m[c].claimId != None && e.now < m[c].claimExpiresAt then after == s && out == Busy
            else if !Writable(s, e.writeOk) then after == s && out == Failed
            else
              var expiry := if e.now + 900000 <= 0xFFFF_FFFF_FFFF_FFFF then e.now + 900000 else 0xFFFF_FFFF_FFFF_FFFF;
              var r := m[c].(claimId := Some(e.newId), updatedAt := e.now, claimExpiresAt := expiry);
              after == Holding(s, m[c := r]) && out == Claimed(Claim(r, e.newId))
  {
    var m, c := s.records, e.conversationId;
    if c in m { ReplacedIsValid(m, c, Granted(m[c], e.newId, e.now)); }
  }

  // ----- the other operations -----

  /** Saving stores a new, unclaimed record of a conversation that has none, if every identity is given and the
      token is new. */
  lemma SaveMeaning(s: Store, e: Event)
    requires ValidMap(s.records) && e.Save?
    ensures var m, c := s.records, e.conversationId;
            var r := Record(e.newId, c, e.ownerId, e.tenantId, e.agentId, e.dslFingerprint, e.workflow,
                            e.now, e.now, None, 0);
            Step(s, e)
            == if && c !in m && Writable(s, e.writeOk) && (forall d :: d in m ==> m[d].checkpointId != e.newId)
                  && !Blank(e.newId) && !Blank(c) && !Blank(e.ownerId) && !Blank(e.tenantId) && !Blank(e.agentId)
                  && !Blank(e.dslFingerprint)
               then (Holding(s, m[c := r]), Saved(r)) else (s, Failed)
  {
    var r := NewRecord(e.conversationId, e.ownerId, e.tenantId, e.agentId, e.dslFingerprint, e.workflow, e.newId,
                       e.now);
    ReplacedIsValid(s.records, e.conversationId, r);
  }

  /** Releasing needs the claim that the record carries, and takes nothing but the claim away. */
  lemma ReleaseMeaning(s: Store, e: Event)
    requires ValidMap(s.records) && e.Release?
    ensures var m, c := s.records, e.claim.record.conversationId;
            Step(s, e)
            == if c in m && m[c].claimId == Some(e.claim.claimId) && Writable(s, e.writeOk)
               then (Holding(s, m[c := m[c].(claimId := None, claimExpiresAt := 0, updatedAt := e.now)]), Released)
               else (s, Failed)
  {
    var m, c := s.records, e.claim.record.conversationId;
    if c in m { ReplacedIsValid(m, c, m[c].(claimId := None, claimExpiresAt := 0, updatedAt := e.now)); }
  }

  /** Replacing needs the claim too: the record gets a new token, a new fingerprint and a new workflow, loses the
      claim, and keeps its conversation, principals and time of creation. */
  lemma ReplaceMeaning(s: Store, e: Event)
    requires ValidMap(s.records) && e.Replace?
    ensures var m, c := s.records, e.claim.record.conversationId;
            if c in m && m[c].claimId == Some(e.claim.claimId) && !Blank(e.newId) && !Blank(e.dslFingerprint)
               && (forall d :: d in m && d != c ==> m[d].checkpointId != e.newId) && Writable(s, e.writeOk)
            then
              var r := Record(e.newId, c, m[c].ownerId, m[c].tenantId, m[c].agentId, e.dslFingerprint, e.workflow,
                              m[c].createdAt, e.now, None, 0);
              Step(s, e) == (Holding(s, m[c := r]), Replaced(r))
            else Step(s, e) == (s, Failed)
  {
    var m, c := s.records, e.claim.record.conversationId;
    if c in m && m[c].claimId == Some(e.claim.claimId) {
      var r := Unclaimed(m[c]).(checkpointId := e.newId, dslFingerprint := e.dslFingerprint, workflow := e.workflow,
                                updatedAt := e.now);
      ReplacedIsValid(m, c, r);
    }
  }

  /** A record goes with the claim it carries, or unclaimed with its own token. */
  lemma DeleteMeaning(s: Store, e: Event)
    requires ValidMap(s.records) && (e.DeleteClaimed? || e.DeleteUnclaimed?)
    ensures var m := s.records;
            var c := if e.DeleteClaimed? then e.claim.record.conversationId else e.record.conversationId;
            Step(s, e)
            == if c in m && Writable(s, e.writeOk)
                  && (if e.DeleteClaimed? then m[c].claimId == Some(e.claim.claimId)
                      else m[c].claimId == None && m[c].checkpointId == e.record.checkpointId)
               then (Holding(s, map d | d in m && d != c :: m[d]), Deleted) else (s, Failed)
  {
    var m := s.records;
    var c := if e.DeleteClaimed? then e.claim.record.conversationId else e.record.conversationId;
    RemovedIsValid(m, c);
    assert m - {c} == map d | d in m && d != c :: m[d];
  }

  // ----- who is granted what -----

  /** Everything about a record but its claim and its time of change. */
  predicate SameBody(r: Record, r': Record) {
    && r.checkpointId == r'.checkpointId && r.conversationId == r'.conversationId
    && r.ownerId == r'.ownerId && r.tenantId == r'.tenantId && r.agentId == r'.agentId
    && r.dslFingerprint == r'.dslFingerprint && r.workflow == r'.workflow && r.createdAt == r'.createdAt
  }

  /** The event saves a new record for the conversation. */
  ghost predicate SavesNew(s: Store, e: Event, c: string) {
    e.Save? && e.conversationId == c && Step(s, e).1.Saved?
  }

  /** The event gives the conversation's record another workflow. */
  ghost predicate GivesNew(s: Store, e: Event, c: string) {
    e.Replace? && e.claim.record.conversationId == c && Step(s, e).1.Replaced?
  }

  /** The record holds the token, fingerprint and workflow of this event. */
  predicate GivenBy(r: Record, e: Event) {
    || (e.Save? && r.checkpointId == e.newId && r.dslFingerprint == e.dslFingerprint && r.workflow == e.workflow)
    || (e.Replace? && r.checkpointId == e.newId && r.dslFingerprint == e.dslFingerprint && r.workflow == e.workflow)
  }

  /** What a step makes of a record: it is saved anew, given another workflow for the same principals, or kept but
      for its claim. */
  ghost predicate Follows(before: Option<Record>, after: Record, e: Event, saves: bool, gives: bool) {
    if saves then e.Save? && Belongs(after, e.ownerId, e.tenantId, e.agentId) && GivenBy(after, e)
    else
      && before.Some?
      && Belongs(after, before.value.ownerId, before.value.tenantId, before.value.agentId)
      && if gives then GivenBy(after, e) else SameBody(before.value, after)
  }

  function RecordOf(m: Records, c: string): Option<Record> {
    if c in m then Some(m[c]) else None
  }

  ghost predicate StepsTo(s: Store, e: Event, c: string) {
    var m' := Step(s, e).0.records;
    c in m' ==> Follows(RecordOf(s.records, c), m'[c], e, SavesNew(s, e, c), GivesNew(s, e, c))
  }

  lemma SaveFollows(s: Store, e: Event, c: string)
    requires ValidMap(s.records) && e.Save?
    ensures StepsTo(s, e, c)
  {
    SaveMeaning(s, e);
  }

  lemma TakeFollows(s: Store, e: Event, c: string)
    requires ValidMap(s.records) && e.Take?
    ensures StepsTo(s, e, c)
  {
    TakeMeaning(s, e);
  }

  lemma ReleaseFollows(s: Store, e: Event, c: string)
    requires ValidMap(s.records) && e.Release?
    ensures StepsTo(s, e, c)
  {
    ReleaseMeaning(s, e);
  }

  lemma ReplaceFollows(s: Store, e: Event, c: string)
    requires ValidMap(s.records) && e.Replace?
    ensures StepsTo(s, e, c)
  {
    ReplaceMeaning(s, e);
  }

  lemma DeleteFollows(s: Store, e: Event, c: string)
    requires ValidMap(s.records) && (e.DeleteClaimed? || e.DeleteUnclaimed?)
    ensures StepsTo(s, e, c)
  {
    DeleteMeaning(s, e);
  }

  lemma SameWhenCleared(m: Records, disk: Records, c: string)
    requires Clear(disk) == Clear(m) && c in Clear(disk)
    ensures c in m && SameBody(m[c], Clear(disk)[c])
  {
    assert c in Clear(m) && Clear(m)[c] == Unclaimed(m[c]);
  }

  lemma RestartFollows(s: Store, c: string)
    requires s.disk.Some? ==> Clear(s.disk.value) == Clear(s.records)
    ensures StepsTo(s, Restart, c)
  {
    if s.disk.Some? && c in Clear(s.disk.value) { SameWhenCleared(s.records, s.disk.value, c); }
  }

  lemma StepFollows(w: World, e: Event, c: string)
    requires WorldInv(w)
    ensures StepsTo(w.store, e, c)
  {
    match e
    case Save(_, _, _, _, _, _, _, _, _) => SaveFollows(w.store, e, c);
    case Take(_, _, _, _, _, _, _, _) => TakeFollows(w.store, e, c);
    case Release(_, _, _) => ReleaseFollows(w.store, e, c);
    case Replace(_, _, _, _, _, _) => ReplaceFollows(w.store, e, c);
    case DeleteClaimed(_, _) => DeleteFollows(w.store, e, c);
    case DeleteUnclaimed(_, _) => DeleteFollows(w.store, e, c);
    case Restart => RestartFollows(w.store, c);
  }

  // ----- along a run -----

  /** The record was saved by event `i` for its principals and got its workflow from event `k`, the last one before
      `n` to give it any. */
  ghost predicate Stems(r: Record, events: seq<Event>, saves: nat -> bool, gives: nat -> bool, n: nat, i: nat, k: nat) {
    && i <= k < n <= |events|
    && saves(i) && events[i].Save? && Belongs(r, events[i].ownerId, events[i].tenantId, events[i].agentId)
    && (k == i || gives(k)) && GivenBy(r, events[k])
    && forall l: nat :: k < l < n ==> !saves(l) && !gives(l)
  }

  lemma {:induction false} Provenance(events: seq<Event>, records: nat -> Option<Record>, saves: nat -> bool,
                                      gives: nat -> bool, n: nat)
    returns (i: nat, k: nat)
    requires n <= |events| && records(0).None? && records(n).Some?
    requires forall l: nat :: l < n && records(l + 1).Some? ==>
               Follows(records(l), records(l + 1).value, events[l], saves(l), gives(l))
    ensures Stems(records(n).value, events, saves, gives, n, i, k)
  {
    var l := n - 1;
    assert Follows(records(l), records(l + 1).value, events[l], saves(l), gives(l));
    if saves(l) {
      i, k := l, l;
    } else {
      i, k := Provenance(events, records, saves, gives, l);
      k := if gives(l) then l else k;
    }
  }

  ghost function RecordsAt(worlds: seq<World>, c: string): nat -> Option<Record> {
    (n: nat) => if n < |worlds| then RecordOf(worlds[n].store.records, c) else None
  }

  ghost function SavesAt(worlds: seq<World>, events: seq<Event>, c: string): nat -> bool {
    (n: nat) => n < |events| && n < |worlds| && SavesNew(worlds[n].store, events[n], c)
  }

  ghost function GivesAt(worlds: seq<World>, events: seq<Event>, c: string): nat -> bool {
    (n: nat) => n < |events| && n < |worlds| && GivesNew(worlds[n].store, events[n], c)
  }

  lemma RunFollows(worlds: seq<World>, events: seq<Event>, c: string, l: nat)
    requires IsRun(worlds, events) && l < |events| && RecordsAt(worlds, c)(l + 1).Some?
    ensures Follows(RecordsAt(worlds, c)(l), RecordsAt(worlds, c)(l + 1).value, events[l],
                    SavesAt(worlds, events, c)(l), GivesAt(worlds, events, c)(l))
  {
    RunInvariant(worlds, events, l);
    StepFollows(worlds[l], events[l], c);
    assert worlds[l + 1].store == Step(worlds[l].store, events[l]).0;
  }

  lemma RecordStems(worlds: seq<World>, events: seq<Event>, n: nat, c: string) returns (i: nat, k: nat)
    requires IsRun(worlds, events) && worlds[0].store.records == map[]
    requires n <= |events| && c in worlds[n].store.records
    ensures Stems(worlds[n].store.records[c], events, SavesAt(worlds, events, c), GivesAt(worlds, events, c), n, i, k)
  {
    var records, saves, gives := RecordsAt(worlds, c), SavesAt(worlds, events, c), GivesAt(worlds, events, c);
    forall l: nat | l < n && records(l + 1).Some?
      ensures Follows(records(l), records(l + 1).value, events[l], saves(l), gives(l))
    {
      RunFollows(worlds, events, c, l);
    }
    i, k := Provenance(events, records, saves, gives, n);
  }

  lemma GrantIsTake(s: Store, e: Event)
    requires ValidMap(s.records) && Step(s, e).1.Claimed?
    ensures e.Take? && e.conversationId in s.records
    ensures var r := s.records[e.conversationId];
            Belongs(r, e.ownerId, e.tenantId, e.agentId) && SameBody(r, Step(s, e).1.claim.record)
  {
    assert e.Take?;
    TakeMeaning(s, e);
  }

  /** Over every run from an empty store: a claim is granted only to the principals for whom its record was saved,
      and it carries the token, the fingerprint and the workflow last given to the record. */
  lemma ClaimsGoToTheirSavers(worlds: seq<World>, events: seq<Event>, j: nat) returns (i: nat, k: nat)
    requires IsRun(worlds, events) && worlds[0].store.records == map[] && j < |events|
    requires Step(worlds[j].store, events[j]).1.Claimed?
    ensures events[j].Take? && i <= k < j && events[i].Save?
    ensures events[i].ownerId == events[j].ownerId && events[i].tenantId == events[j].tenantId
            && events[i].agentId == events[j].agentId
    ensures GivenBy(Step(worlds[j].store, events[j]).1.claim.record, events[k])
    ensures var c := events[j].conversationId;
            && SavesNew(worlds[i].store, events[i], c)
            && (k == i || GivesNew(worlds[k].store, events[k], c))
            && forall l :: k < l < j ==>
                 !SavesNew(worlds[l].store, events[l], c) && !GivesNew(worlds[l].store, events[l], c)
  {
    RunInvariant(worlds, events, j);
    GrantIsTake(worlds[j].store, events[j]);
    var c := events[j].conversationId;
    i, k := RecordStems(worlds, events, j, c);
    forall l: nat | k < l < j
      ensures !SavesNew(worlds[l].store, events[l], c) && !GivesNew(worlds[l].store, events[l], c)
    {
      assert !SavesAt(worlds, events, c)(l) && !GivesAt(worlds, events, c)(l);
    }
  }
}
