/** The claim and lease protocol of waiting agent checkpoints (src/agent_checkpoint.rs).

    Clock readings, fresh identifiers and the outcome of a write are inputs of each
    operation. A store opened on a path keeps the file as the records in it. */
module AgentCheckpoint {
  import opened Text

  const CLAIM_LEASE_MS: nat := 15 * 60 * 1000
  const U64_MAX: nat := 0xFFFF_FFFF_FFFF_FFFF

  datatype Record = Record(
    checkpointId: string, conversationId: string, ownerId: string, tenantId: string, agentId: string,
    dslFingerprint: string, workflow: string, createdAt: nat, updatedAt: nat,
    claimId: Option<string>, claimExpiresAt: nat)

  type Records = map<string, Record>

  /** The handle a successful claim returns. */
  datatype Claim = Claim(record: Record, claimId: string)

  datatype Store = Store(records: Records, disk: Option<Records>)

  datatype Outcome =
    | Saved(record: Record)
    | Claimed(claim: Claim)
    | Missing
    | Busy
    | ResumeTokenMismatch
    | Released
    | Replaced(record: Record)
    | Deleted
    | Restarted
    | Failed

  // ----- validation -----

  predicate Identified(r: Record) {
    && !Blank(r.checkpointId) && !Blank(r.conversationId) && !Blank(r.ownerId)
    && !Blank(r.tenantId) && !Blank(r.agentId) && !Blank(r.dslFingerprint)
  }

  predicate LeaseHasClaim(r: Record) { r.claimId == None ==> r.claimExpiresAt == 0 }

  /** What a list of records must satisfy to be stored. */
  ghost predicate ValidRecords(records: seq<Record>) {
    && (forall i :: 0 <= i < |records| ==> Identified(records[i]) && LeaseHasClaim(records[i]))
    && (forall i, j :: 0 <= i < j < |records| ==> records[i].conversationId != records[j].conversationId)
    && (forall i, j :: 0 <= i < j < |records| ==> records[i].checkpointId != records[j].checkpointId)
  }

  /** `validate_records`. */
  method ValidateRecords(records: seq<Record>) returns (ok: bool)
    ensures ok <==> ValidRecords(records)
  {
    var conversations, checkpointIds := {}, {};
    for n := 0 to |records|
      invariant ValidRecords(records[..n])
      invariant conversations == set i | 0 <= i < n :: records[i].conversationId
      invariant checkpointIds == set i | 0 <= i < n :: records[i].checkpointId
    {
      var r := records[n];
      assert records[..n + 1] == records[..n] + [r];
      if !Identified(r) || r.conversationId in conversations || r.checkpointId in checkpointIds || !LeaseHasClaim(r) {
        return false;
      }
      conversations := conversations + {r.conversationId};
      checkpointIds := checkpointIds + {r.checkpointId};
    }
    assert records[..|records|] == records;
    return true;
  }

  /** The same for the record map of a store. */
  ghost predicate ValidMap(m: Records) {
    && (forall c :: c in m ==> m[c].conversationId == c && Identified(m[c]) && LeaseHasClaim(m[c]))
    && (forall c, d :: c in m && d in m && c != d ==> m[c].checkpointId != m[d].checkpointId)
  }

  ghost predicate Keyed(m: Records) { forall c :: c in m ==> m[c].conversationId == c }

  /** `file` holds each record of `m` once. */
  ghost predicate Lists(file: seq<Record>, m: Records) {
    && (forall i :: 0 <= i < |file| ==> file[i].conversationId in m && m[file[i].conversationId] == file[i])
    && (forall c :: c in m ==> exists i :: 0 <= i < |file| && file[i] == m[c])
    && (forall i, j :: 0 <= i < j < |file| ==> file[i].conversationId != file[j].conversationId)
  }

  lemma ListedValidity(file: seq<Record>, m: Records)
    requires Keyed(m) && Lists(file, m)
    ensures ValidRecords(file) <==> ValidMap(m)
  {
    if ValidRecords(file) {
      forall c, d | c in m && d in m && c != d ensures m[c].checkpointId != m[d].checkpointId {
        var i :| 0 <= i < |file| && file[i] == m[c];
        var j :| 0 <= j < |file| && file[j] == m[d];
        if i < j { assert file[i].checkpointId != file[j].checkpointId; }
        if j < i { assert file[j].checkpointId != file[i].checkpointId; }
      }
    }
    if ValidMap(m) {
      forall i, j | 0 <= i < j < |file| ensures file[i].checkpointId != file[j].checkpointId {
        assert file[i].conversationId != file[j].conversationId;
      }
    }
  }

  /** Any order of the values of a keyed map lists it. */
  method ListValues(m: Records) returns (file: seq<Record>)
    requires Keyed(m)
    ensures Lists(file, m)
  {
    file := [];
    var left := m.Keys;
    while left != {}
      invariant left <= m.Keys
      invariant forall i :: 0 <= i < |file| ==>
        file[i].conversationId in m.Keys - left && m[file[i].conversationId] == file[i]
      invariant forall c :: c in m.Keys - left ==> exists i :: 0 <= i < |file| && file[i] == m[c]
      invariant forall i, j :: 0 <= i < j < |file| ==> file[i].conversationId != file[j].conversationId
      decreases left
    {
      var c :| c in left;
      ghost var before := file;
      file := file + [m[c]];
      forall d | d in m.Keys - (left - {c}) ensures exists i :: 0 <= i < |file| && file[i] == m[d] {
        if d == c {
          assert file[|before|] == m[c];
        } else {
          var i :| 0 <= i < |before| && before[i] == m[d];
          assert file[i] == m[d];
        }
      }
      left := left - {c};
    }
  }

  // ----- opening a store -----

  function Unclaimed(r: Record): Record { r.(claimId := None, claimExpiresAt := 0) }

  function Clear(m: Records): (r: Records)
    ensures r.Keys == m.Keys
  {
    map c | c in m :: Unclaimed(m[c])
  }

  lemma ClearValid(m: Records)
    requires ValidMap(m)
    ensures ValidMap(Clear(m)) && Clear(Clear(m)) == Clear(m)
  {
  }

  function Cleared(file: seq<Record>): (r: seq<Record>)
    ensures |r| == |file| && forall i :: 0 <= i < |r| ==> r[i] == Unclaimed(file[i])
  {
    seq(|file|, i requires 0 <= i < |file| => Unclaimed(file[i]))
  }

  lemma ClearedLists(file: seq<Record>, m: Records)
    requires Keyed(m) && Lists(file, m)
    ensures Keyed(Clear(m)) && Lists(Cleared(file), Clear(m))
  {
    forall c | c in Clear(m) ensures exists i :: 0 <= i < |file| && Cleared(file)[i] == Clear(m)[c] {
      var i :| 0 <= i < |file| && file[i] == m[c];
      assert Cleared(file)[i] == Clear(m)[c];
    }
  }

  /** The records of a list by conversation; later entries win. */
  function ByConversation(file: seq<Record>): Records {
    if file == [] then map[]
    else ByConversation(file[..|file| - 1])[file[|file| - 1].conversationId := file[|file| - 1]]
  }

  lemma {:induction false} ByConversationAt(file: seq<Record>, i: nat)
    requires i < |file| && forall i, j :: 0 <= i < j < |file| ==> file[i].conversationId != file[j].conversationId
    ensures file[i].conversationId in ByConversation(file)
    ensures ByConversation(file)[file[i].conversationId] == file[i]
  {
    if i < |file| - 1 {
      ByConversationAt(file[..|file| - 1], i);
    }
  }

  lemma {:induction false} ByConversationKeys(file: seq<Record>, c: string)
    requires c in ByConversation(file)
    ensures exists i :: 0 <= i < |file| && file[i].conversationId == c
  {
    if file[|file| - 1].conversationId != c {
      ByConversationKeys(file[..|file| - 1], c);
      var i :| 0 <= i < |file| - 1 && file[..|file| - 1][i].conversationId == c;
      assert file[i].conversationId == c;
    }
  }

  /** Collecting a list of `m` gives back `m`. */
  lemma OpenListed(file: seq<Record>, m: Records)
    requires Keyed(m) && Lists(file, m)
    ensures ByConversation(file) == m
  {
    forall c | c in m ensures c in ByConversation(file) && ByConversation(file)[c] == m[c] {
      var i :| 0 <= i < |file| && file[i] == m[c];
      ByConversationAt(file, i);
    }
    forall c | c in ByConversation(file) ensures c in m {
      ByConversationKeys(file, c);
    }
    assert ByConversation(file).Keys == m.Keys;
  }

  // ----- the operations -----

  datatype Event =
    | Save(conversationId: string, ownerId: string, tenantId: string, agentId: string,
           dslFingerprint: string, workflow: string, newId: string, now: nat, writeOk: bool)
    | Take(conversationId: string, ownerId: string, tenantId: string, agentId: string,
           resumeToken: Option<string>, newId: string, now: nat, writeOk: bool)
    | Release(claim: Claim, now: nat, writeOk: bool)
    | Replace(claim: Claim, dslFingerprint: string, workflow: string, newId: string, now: nat, writeOk: bool)
    | DeleteClaimed(claim: Claim, writeOk: bool)
    | DeleteUnclaimed(record: Record, writeOk: bool)
    | Restart

  /** What an operation makes of the record map: an answer, or a changed map to persist. */
  datatype Proposal = Answer(outcome: Outcome) | Change(records: Records, outcome: Outcome)

  /** `mutate`: validate and persist a proposed map, or change nothing. */
  ghost function Mutate(s: Store, p: Proposal, writeOk: bool): (Store, Outcome) {
    match p
    case Answer(outcome) => (s, outcome)
    case Change(proposed, outcome) =>
      if ValidMap(proposed) && (s.disk == None || writeOk)
      then (Store(proposed, if s.disk.Some? then Some(proposed) else None), outcome)
      else (s, Failed)
  }

  function Lease(now: nat): nat {
    if now + CLAIM_LEASE_MS < U64_MAX then now + CLAIM_LEASE_MS else U64_MAX
  }

  predicate Holds(m: Records, claim: Claim) {
    claim.record.conversationId in m && m[claim.record.conversationId].claimId == Some(claim.claimId)
  }

  function NewRecord(conversationId: string, ownerId: string, tenantId: string, agentId: string,
                     dslFingerprint: string, workflow: string, newId: string, now: nat): Record {
    Record(newId, conversationId, ownerId, tenantId, agentId, dslFingerprint, workflow, now, now, None, 0)
  }

  function Granted(r: Record, newId: string, now: nat): Record {
    r.(claimId := Some(newId), claimExpiresAt := Lease(now), updatedAt := now)
  }

  /** `claim`. */
  function ProposeTake(m: Records, e: Event): Proposal
    requires e.Take?
  {
    if e.conversationId !in m then Answer(Missing)
    else
      var r := m[e.conversationId];
      if r.ownerId != e.ownerId || r.tenantId != e.tenantId || r.agentId != e.agentId then Answer(Missing)
      else if e.resumeToken.Some? && e.resumeToken.value != r.checkpointId then Answer(ResumeTokenMismatch)
      else if r.claimId.Some? && r.claimExpiresAt > e.now then Answer(Busy)
      else
        var r' := Granted(r, e.newId, e.now);
        Change(m[e.conversationId := r'], Claimed(Claim(r', e.newId)))
  }

  /** The operations of the store, each as a proposal on the record map. */
  function Propose(m: Records, e: Event): Proposal
    requires !e.Restart?
  {
    match e
    case Save(c, o, t, a, f, w, newId, now, _) =>
      var r := NewRecord(c, o, t, a, f, w, newId, now);
      if c in m then Answer(Failed) else Change(m[c := r], Saved(r))
    case Take(_, _, _, _, _, _, _, _) => ProposeTake(m, e)
    case Release(claim, now, _) =>
      var c := claim.record.conversationId;
      if !Holds(m, claim) then Answer(Failed)
      else Change(m[c := Unclaimed(m[c]).(updatedAt := now)], Released)
    case Replace(claim, f, w, newId, now, _) =>
      var c := claim.record.conversationId;
      if !Holds(m, claim) then Answer(Failed)
      else
        var r := Unclaimed(m[c]).(checkpointId := newId, dslFingerprint := f, workflow := w, updatedAt := now);
        Change(m[c := r], Replaced(r))
    case DeleteClaimed(claim, _) =>
      if !Holds(m, claim) then Answer(Failed) else Change(m - {claim.record.conversationId}, Deleted)
    case DeleteUnclaimed(r, _) =>
      var c := r.conversationId;
      if c !in m || m[c].checkpointId != r.checkpointId || m[c].claimId.Some? then Answer(Failed)
      else Change(m - {c}, Deleted)
  }

  /** A restart: the file survives, memory does not, and opening rewrites no file. */
  ghost function Reopen(s: Store): (Store, Outcome) {
    if s.disk == None then (Store(map[], None), Restarted)
    else if ValidMap(Clear(s.disk.value)) then (Store(Clear(s.disk.value), s.disk), Restarted)
    else (s, Failed)
  }

  ghost function Step(s: Store, e: Event): (Store, Outcome) {
    if e.Restart? then Reopen(s) else Mutate(s, Propose(s.records, e), e.writeOk)
  }

  /** The one conversation an operation is about. */
  function Target(e: Event): string
    requires !e.Restart?
  {
    match e
    case Save(c, _, _, _, _, _, _, _, _) => c
    case Take(c, _, _, _, _, _, _, _) => c
    case Release(claim, _, _) => claim.record.conversationId
    case Replace(claim, _, _, _, _, _) => claim.record.conversationId
    case DeleteClaimed(claim, _) => claim.record.conversationId
    case DeleteUnclaimed(r, _) => r.conversationId
  }

  /** A proposal leaves every other conversation alone, and its target unclaimed,
      gone, or claimed under the fresh identifier. */
  lemma ProposalShape(m: Records, e: Event, d: string)
    requires !e.Restart? && Propose(m, e).Change?
    ensures var m' := Propose(m, e).records;
            && (d != Target(e) ==> (d in m' <==> d in m) && (d in m ==> m'[d] == m[d]))
            && (Target(e) in m' ==> var r := m'[Target(e)];
                  && (r.claimId == None || (FreshId(e).Some? && r.claimId == FreshId(e)))
                  && ((Target(e) in m && r.checkpointId == m[Target(e)].checkpointId)
                      || (FreshId(e).Some? && r.checkpointId == FreshId(e).value)))
  {
  }

  // ----- worlds and runs -----

  /** A store together with every identifier ever generated. */
  datatype World = World(store: Store, issued: set<string>)

  function FreshId(e: Event): Option<string> {
    match e
    case Save(_, _, _, _, _, _, newId, _, _) => Some(newId)
    case Take(_, _, _, _, _, newId, _, _) => Some(newId)
    case Replace(_, _, _, newId, _, _) => Some(newId)
    case _ => None
  }

  predicate Enabled(w: World, e: Event) { FreshId(e).Some? ==> FreshId(e).value !in w.issued }

  ghost function Next(w: World, e: Event): World {
    World(Step(w.store, e).0, w.issued + if FreshId(e).Some? then {FreshId(e).value} else {})
  }

  ghost predicate IdsIssued(m: Records, issued: set<string>) {
    forall c :: c in m ==> m[c].checkpointId in issued && (m[c].claimId.Some? ==> m[c].claimId.value in issued)
  }

  ghost predicate DistinctClaims(m: Records) {
    forall c, d :: c in m && d in m && c != d && m[c].claimId.Some? ==> m[c].claimId != m[d].claimId
  }

  ghost predicate GoodRecords(m: Records, issued: set<string>) {
    ValidMap(m) && IdsIssued(m, issued) && DistinctClaims(m)
  }

  /** Every reachable state is valid, and the file holds the same records up to leases. */
  ghost predicate WorldInv(w: World) {
    && GoodRecords(w.store.records, w.issued)
    && (w.store.disk.Some? ==>
          && GoodRecords(w.store.disk.value, w.issued)
          && Clear(w.store.disk.value) == Clear(w.store.records))
  }

  ghost predicate IsRun(worlds: seq<World>, events: seq<Event>) {
    && |worlds| == |events| + 1
    && WorldInv(worlds[0])
    && forall i :: 0 <= i < |events| ==> Enabled(worlds[i], events[i]) && worlds[i + 1] == Next(worlds[i], events[i])
  }

  /** `m'` differs from `m` at one conversation, whose identifiers are known or fresh. */
  ghost predicate ChangedAt(m: Records, m': Records, t: string, newId: Option<string>) {
    && (forall d :: d in m' && d != t ==> d in m && m'[d] == m[d])
    && (t in m' ==>
          && (m'[t].claimId == None || (newId.Some? && m'[t].claimId == newId))
          && ((t in m && m'[t].checkpointId == m[t].checkpointId)
               || (newId.Some? && m'[t].checkpointId == newId.value)))
  }

  lemma ProposalChanges(m: Records, e: Event)
    requires !e.Restart? && Propose(m, e).Change?
    ensures ChangedAt(m, Propose(m, e).records, Target(e), FreshId(e))
  {
    var m' := Propose(m, e).records;
    forall d | d in m' && d != Target(e) ensures d in m && m'[d] == m[d] { ProposalShape(m, e, d); }
    ProposalShape(m, e, Target(e));
  }

  lemma ChangeGood(m: Records, m': Records, t: string, newId: Option<string>, issued: set<string>)
    requires GoodRecords(m, issued) && ChangedAt(m, m', t, newId)
    requires newId.Some? ==> newId.value !in issued
    ensures IdsIssued(m', issued + if newId.Some? then {newId.value} else {}) && DistinctClaims(m')
  {
  }

  lemma ProposalGood(m: Records, issued: set<string>, e: Event)
    requires GoodRecords(m, issued) && !e.Restart? && Propose(m, e).Change?
    requires FreshId(e).Some? ==> FreshId(e).value !in issued
    ensures var issued' := issued + if FreshId(e).Some? then {FreshId(e).value} else {};
            IdsIssued(Propose(m, e).records, issued') && DistinctClaims(Propose(m, e).records)
  {
    ProposalChanges(m, e);
    ChangeGood(m, Propose(m, e).records, Target(e), FreshId(e), issued);
  }

  lemma StepKeepsInv(w: World, e: Event)
    requires WorldInv(w) && Enabled(w, e)
    ensures WorldInv(Next(w, e))
  {
    if e.Restart? {
      ReopenGood(w);
    } else {
      if Propose(w.store.records, e).Change? { ProposalGood(w.store.records, w.issued, e); }
      MutateGood(w, Propose(w.store.records, e), e.writeOk, Next(w, e).issued);
    }
  }

  lemma ReopenGood(w: World)
    requires WorldInv(w)
    ensures WorldInv(World(Reopen(w.store).0, w.issued))
  {
    if w.store.disk.Some? {
      ClearValid(w.store.disk.value);
    }
  }

  lemma MutateGood(w: World, p: Proposal, writeOk: bool, issued: set<string>)
    requires WorldInv(w) && w.issued <= issued
    requires p.Change? ==> IdsIssued(p.records, issued) && DistinctClaims(p.records)
    ensures WorldInv(World(Mutate(w.store, p, writeOk).0, issued))
  {
  }

  /** Unique conversations and resume tokens, non-empty identities, no lease without a
      claim, no claim id on two records: in every state of every run. */
  lemma {:induction false} RunInvariant(worlds: seq<World>, events: seq<Event>, n: nat)
    requires IsRun(worlds, events) && n < |worlds|
    ensures WorldInv(worlds[n])
  {
    if n > 0 {
      RunInvariant(worlds, events, n - 1);
      StepKeepsInv(worlds[n - 1], events[n - 1]);
    }
  }

  // ----- durability -----

  /** A failed operation changes nothing, a successful write leaves the file equal to memory. */
  lemma StepDurability(s: Store, e: Event)
    ensures Step(s, e).1.Failed? ==> Step(s, e).0 == s
    ensures Step(s, e).1.Missing? || Step(s, e).1.Busy? || Step(s, e).1.ResumeTokenMismatch? ==> Step(s, e).0 == s
    ensures s.disk.Some? && !e.Restart? && Step(s, e).0 != s ==> Step(s, e).0.disk == Some(Step(s, e).0.records)
  {
  }

  /** A crash at any point of a run loses nothing but the leases. */
  lemma RestartKeepsRecords(worlds: seq<World>, events: seq<Event>, n: nat)
    requires IsRun(worlds, events) && n < |worlds| && worlds[n].store.disk.Some?
    ensures Reopen(worlds[n].store) ==
            (Store(Clear(worlds[n].store.records), worlds[n].store.disk), Restarted)
  {
    RunInvariant(worlds, events, n);
    ClearValid(worlds[n].store.disk.value);
  }

  /** Opening does not rewrite the file: file and memory then agree exactly when the
      file holds no claim. */
  lemma RestartAgreement(s: Store)
    requires s.disk.Some? && ValidMap(s.disk.value)
    ensures var s' := Reopen(s).0;
            s'.disk == Some(s'.records) <==> forall c :: c in s.disk.value ==> s.disk.value[c].claimId == None
  {
    var m := s.disk.value;
    ClearValid(m);
    if forall c :: c in m ==> m[c].claimId == None {
      assert forall c :: c in m ==> Clear(m)[c] == m[c];
      assert Clear(m) == m;
    } else {
      var c :| c in m && m[c].claimId != None;
      assert Clear(m)[c].claimId == None;
    }
  }

  // ----- claims -----

  ghost predicate Live(w: World, claimId: string) {
    exists c :: c in w.store.records && w.store.records[c].claimId == Some(claimId)
  }

  function HandleOf(e: Event): Option<Claim> {
    match e
    case Release(claim, _, _) => Some(claim)
    case Replace(claim, _, _, _, _, _) => Some(claim)
    case DeleteClaimed(claim, _) => Some(claim)
    case _ => None
  }

  /** The event ends the claim successfully. */
  ghost predicate Ends(w: World, e: Event, claimId: string) {
    HandleOf(e).Some? && HandleOf(e).value.claimId == claimId && !Step(w.store, e).1.Failed?
  }

  lemma ForeignHandleFails(m: Records, e: Event)
    requires HandleOf(e).Some? && !Holds(m, HandleOf(e).value)
    ensures Propose(m, e) == Answer(Failed)
  {
  }

  lemma DeadStaysDead(w: World, e: Event, claimId: string)
    requires WorldInv(w) && Enabled(w, e) && claimId in w.issued && !Live(w, claimId)
    ensures !Live(Next(w, e), claimId)
  {
    if !e.Restart? {
      var p := Propose(w.store.records, e);
      if p.Change? { ProposalChanges(w.store.records, e); }
      MutateKeepsDead(w.store, p, e.writeOk, Target(e), FreshId(e), claimId);
    }
  }

  lemma MutateKeepsDead(s: Store, p: Proposal, writeOk: bool, t: string, newId: Option<string>, claimId: string)
    requires p.Change? ==> ChangedAt(s.records, p.records, t, newId)
    requires newId != Some(claimId)
    requires forall c :: c in s.records ==> s.records[c].claimId != Some(claimId)
    ensures var m' := Mutate(s, p, writeOk).0.records; forall c :: c in m' ==> m'[c].claimId != Some(claimId)
  {
    var m' := Mutate(s, p, writeOk).0.records;
    forall c | c in m' ensures m'[c].claimId != Some(claimId) {
      if m' != s.records && c != t { assert m'[c] == s.records[c]; }
    }
  }

  lemma {:induction false} DeadForever(worlds: seq<World>, events: seq<Event>, i: nat, j: nat, claimId: string)
    requires IsRun(worlds, events) && i <= j < |worlds|
    requires claimId in worlds[i].issued && !Live(worlds[i], claimId)
    ensures claimId in worlds[j].issued && !Live(worlds[j], claimId)
  {
    if i < j {
      DeadForever(worlds, events, i, j - 1, claimId);
      RunInvariant(worlds, events, j - 1);
      DeadStaysDead(worlds[j - 1], events[j - 1], claimId);
    }
  }

  lemma DeadHandleFails(w: World, e: Event)
    requires HandleOf(e).Some? && !Live(w, HandleOf(e).value.claimId)
    ensures Step(w.store, e) == (w.store, Failed)
  {
    ForeignHandleFails(w.store.records, e);
  }

  /** A superseded or ended claim can never change state again. */
  lemma DeadClaimChangesNothing(worlds: seq<World>, events: seq<Event>, i: nat, j: nat)
    requires IsRun(worlds, events) && i <= j < |events| && HandleOf(events[j]).Some?
    requires HandleOf(events[j]).value.claimId in worlds[i].issued
             && !Live(worlds[i], HandleOf(events[j]).value.claimId)
    ensures Step(worlds[j].store, events[j]).1.Failed? && worlds[j + 1].store == worlds[j].store
  {
    DeadForever(worlds, events, i, j, HandleOf(events[j]).value.claimId);
    DeadHandleFails(worlds[j], events[j]);
  }

  lemma EndingKills(w: World, e: Event, claimId: string)
    requires WorldInv(w) && Enabled(w, e) && Ends(w, e, claimId)
    ensures claimId in w.issued && !Live(Next(w, e), claimId)
  {
    var m, m' := w.store.records, Next(w, e).store.records;
    var c := HandleOf(e).value.record.conversationId;
    assert m[c].claimId == Some(claimId);
    forall d | d in m' ensures m'[d].claimId != Some(claimId) {
      if d != c { assert m'[d] == m[d] && m[c].claimId != m[d].claimId; }
    }
  }

  /** Each claim ends successfully at most once over a whole run. */
  lemma ClaimEndsAtMostOnce(worlds: seq<World>, events: seq<Event>, i: nat, j: nat, claimId: string)
    requires IsRun(worlds, events) && i < j < |events|
    requires Ends(worlds[i], events[i], claimId)
    ensures !Ends(worlds[j], events[j], claimId)
  {
    RunInvariant(worlds, events, i);
    EndingKills(worlds[i], events[i], claimId);
    DeadForever(worlds, events, i + 1, j, claimId);
    if HandleOf(events[j]).Some? && HandleOf(events[j]).value.claimId == claimId {
      DeadHandleFails(worlds[j], events[j]);
    }
  }

  /** What may come between two grants on one conversation. */
  ghost predicate Frees(w: World, e: Event, claim: Claim) {
    || Ends(w, e, claim.claimId)
    || e.Restart?
    || (e.Take? && e.conversationId == claim.record.conversationId && claim.record.claimExpiresAt <= e.now)
  }

  ghost predicate Standing(w: World, claim: Claim) {
    && Holds(w.store.records, claim)
    && w.store.records[claim.record.conversationId].claimExpiresAt == claim.record.claimExpiresAt
  }

  lemma StandingStep(w: World, e: Event, claim: Claim)
    requires WorldInv(w) && Enabled(w, e) && Standing(w, claim) && !Frees(w, e, claim)
    ensures Standing(Next(w, e), claim)
    ensures e.Take? && e.conversationId == claim.record.conversationId ==> !Step(w.store, e).1.Claimed?
  {
    var m, c := w.store.records, claim.record.conversationId;
    if !Step(w.store, e).1.Failed? {
      if Target(e) == c {
        StandingTarget(m, e, claim);
      } else if Propose(m, e).Change? {
        ProposalShape(m, e, c);
      }
    }
  }

  /** While a claim stands, an operation on its conversation that neither carries it
      nor arrives after its expiry is turned away. */
  lemma StandingTarget(m: Records, e: Event, claim: Claim)
    requires !e.Restart? && Target(e) == claim.record.conversationId && Holds(m, claim)
    requires m[Target(e)].claimExpiresAt == claim.record.claimExpiresAt
    requires HandleOf(e).Some? ==> HandleOf(e).value.claimId != claim.claimId
    requires e.Take? ==> e.now < claim.record.claimExpiresAt
    ensures Propose(m, e).Answer? && !Propose(m, e).outcome.Claimed?
  {
  }

  lemma {:induction false} StandingUntil(worlds: seq<World>, events: seq<Event>, i: nat, j: nat, claim: Claim)
    requires IsRun(worlds, events) && i <= j < |worlds| && Standing(worlds[i], claim)
    requires forall k :: i <= k < j ==> !Frees(worlds[k], events[k], claim)
    ensures Standing(worlds[j], claim)
  {
    if i < j {
      StandingUntil(worlds, events, i, j - 1, claim);
      RunInvariant(worlds, events, j - 1);
      StandingStep(worlds[j - 1], events[j - 1], claim);
    }
  }

  lemma GrantStands(w: World, e: Event)
    requires WorldInv(w) && Step(w.store, e).1.Claimed?
    ensures e.Take? && Standing(Next(w, e), Step(w.store, e).1.claim)
    ensures Step(w.store, e).1.claim.record.conversationId == e.conversationId
  {
    assert !e.Restart? && Propose(w.store.records, e).Change?;
    assert e.Take?;
  }

  /** A second claim on a conversation is granted only after the first one ended, a
      restart happened, or a clock reading reached its expiry. */
  lemma SecondClaimNeedsCause(worlds: seq<World>, events: seq<Event>, i: nat, j: nat)
    requires IsRun(worlds, events) && i < j < |events|
    requires Step(worlds[i].store, events[i]).1.Claimed? && Step(worlds[j].store, events[j]).1.Claimed?
    requires events[i].conversationId == events[j].conversationId
    ensures exists k :: i < k <= j && Frees(worlds[k], events[k], Step(worlds[i].store, events[i]).1.claim)
  {
    var claim := Step(worlds[i].store, events[i]).1.claim;
    RunInvariant(worlds, events, i);
    RunInvariant(worlds, events, j);
    GrantStands(worlds[i], events[i]);
    GrantStands(worlds[j], events[j]);
    if forall k :: i < k <= j ==> !Frees(worlds[k], events[k], claim) {
      StandingUntil(worlds, events, i + 1, j, claim);
      StandingStep(worlds[j], events[j], claim);
      assert false;
    }
  }
}
