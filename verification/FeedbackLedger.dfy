/** Message feedback and the pagerank index (src/chunk_feedback.rs:176-302, 384-466).

    A handler reads a message's prior thumb before it takes the commit lock, then
    under the lock changes the index, and at last stores the thumb if the prior
    one still stands, or rolls the index back. `adjust_chunk_pagerank`
    (src/search.rs:339-364) clamps to [0, 100], and `update_message_feedback`
    (src/llm.rs:1314-1357) compares the prior thumb. */
module FeedbackLedger {
  import opened Text
  import opened ChunkFeedback

  type Key = (string, string)
  /** The pagerank of every indexed chunk, by chunk id and dataset. */
  type Index = map<Key, real>

  /** `live` turns false when the message is deleted. */
  datatype Message = Message(references: seq<Chunk>, thumb: Option<bool>, live: bool)

  datatype Config = Config(enabled: bool, mode: FeedbackWeighting)

  // ----- the index -----

  function Clamp(x: real): (y: real)
    ensures 0.0 <= y <= 100.0
    ensures y == x <==> 0.0 <= x <= 100.0
    ensures (x < 0.0 ==> y == 0.0) && (x > 100.0 ==> y == 100.0)
  {
    if x < 0.0 then 0.0 else if x > 100.0 then 100.0 else x
  }

  /** `adjust_chunk_pagerank`; a chunk that is not indexed is left alone. */
  function Adjust(index: Index, key: Key, delta: int): (r: Index)
    ensures r.Keys == index.Keys
  {
    if key in index then index[key := Clamp(index[key] + delta as real)] else index
  }

  /** All deltas in order; a zero delta does not touch its chunk. */
  function ApplyDeltas(index: Index, chunks: seq<Chunk>, deltas: seq<int>): (r: Index)
    requires |chunks| == |deltas|
    ensures r.Keys == index.Keys
  {
    if chunks == [] then index
    else
      var n := |chunks| - 1;
      var before := ApplyDeltas(index, chunks[..n], deltas[..n]);
      if deltas[n] == 0 then before else Adjust(before, chunks[n].Key(), deltas[n])
  }

  function CountApplied(index: Index, chunks: seq<Chunk>, deltas: seq<int>, found: bool): nat
    requires |chunks| == |deltas|
  {
    if chunks == [] then 0
    else
      var n := |chunks| - 1;
      CountApplied(index, chunks[..n], deltas[..n], found)
      + if deltas[n] != 0 && (chunks[n].Key() in index) == found then 1 else 0
  }

  predicate Moves(index: Index, chunk: Chunk, delta: int, found: bool) {
    delta != 0 && (chunk.Key() in index) == found
  }

  /** The references that are moved and indexed, or moved and not indexed. */
  ghost function MovedAt(index: Index, chunks: seq<Chunk>, deltas: seq<int>, found: bool): set<int>
    requires |chunks| == |deltas|
  {
    set i | 0 <= i < |chunks| && Moves(index, chunks[i], deltas[i], found)
  }

  lemma MovedAtSnoc(index: Index, chunks: seq<Chunk>, deltas: seq<int>, chunk: Chunk, delta: int, found: bool)
    requires |chunks| == |deltas|
    ensures MovedAt(index, chunks + [chunk], deltas + [delta], found)
         == MovedAt(index, chunks, deltas, found) + if Moves(index, chunk, delta, found) then {|chunks|} else {}
  {
  }

  lemma {:induction false} CountAppliedIs(index: Index, chunks: seq<Chunk>, deltas: seq<int>, found: bool)
    requires |chunks| == |deltas|
    ensures CountApplied(index, chunks, deltas, found) == |MovedAt(index, chunks, deltas, found)|
  {
    if chunks != [] {
      var n := |chunks| - 1;
      CountAppliedIs(index, chunks[..n], deltas[..n], found);
      MovedAtSnoc(index, chunks[..n], deltas[..n], chunks[n], deltas[n], found);
      assert chunks == chunks[..n] + [chunks[n]] && deltas == deltas[..n] + [deltas[n]];
    }
  }

  /** The delta meant for one key. */
  function DeltaFor(key: Key, chunks: seq<Chunk>, deltas: seq<int>): int
    requires |chunks| == |deltas|
  {
    if chunks == [] then 0
    else
      var n := |chunks| - 1;
      if chunks[n].Key() == key then deltas[n] else DeltaFor(key, chunks[..n], deltas[..n])
  }

  lemma {:induction false} DeltaForAbsent(key: Key, chunks: seq<Chunk>, deltas: seq<int>)
    requires |chunks| == |deltas| && forall i :: 0 <= i < |chunks| ==> chunks[i].Key() != key
    ensures DeltaFor(key, chunks, deltas) == 0
  {
    if chunks != [] {
      var n := |chunks| - 1;
      DeltaForAbsent(key, chunks[..n], deltas[..n]);
    }
  }

  lemma {:induction false} DeltaForAt(chunks: seq<Chunk>, deltas: seq<int>, i: nat)
    requires |chunks| == |deltas| && DistinctKeys(chunks) && i < |chunks|
    ensures DeltaFor(chunks[i].Key(), chunks, deltas) == deltas[i]
  {
    var n := |chunks| - 1;
    if i < n {
      DeltaForAt(chunks[..n], deltas[..n], i);
    }
  }

  /** With distinct chunks every indexed key receives its own delta once, clamped. */
  lemma {:induction false} ApplyDeltasAt(index: Index, chunks: seq<Chunk>, deltas: seq<int>, key: Key)
    requires |chunks| == |deltas| && DistinctKeys(chunks) && key in index
    ensures var d := DeltaFor(key, chunks, deltas);
            ApplyDeltas(index, chunks, deltas)[key] == if d == 0 then index[key] else Clamp(index[key] + d as real)
  {
    if chunks != [] {
      var n := |chunks| - 1;
      ApplyDeltasAt(index, chunks[..n], deltas[..n], key);
      if chunks[n].Key() == key {
        DeltaForAbsent(key, chunks[..n], deltas[..n]);
      }
    }
  }

  /** No adjustment of these chunks runs into the limits 0 and 100. */
  ghost predicate Unclamped(index: Index, chunks: seq<Chunk>, deltas: seq<int>)
    requires |chunks| == |deltas|
  {
    forall i :: 0 <= i < |chunks| && deltas[i] != 0 && chunks[i].Key() in index ==>
      0.0 <= index[chunks[i].Key()] + deltas[i] as real <= 100.0
  }

  // ----- what a message is worth -----

  function Vote(thumb: bool): int { if thumb then 1 else -1 }

  /** The deltas a thumb allocates over the chunks. */
  function ThumbDeltas(cfg: Config, chunks: seq<Chunk>, thumb: Option<bool>): (d: seq<int>)
    ensures |d| == |chunks|
  {
    match thumb
    case None => Zeros(|chunks|)
    case Some(t) => AllocateDeltas(chunks, Vote(t), cfg.mode)
  }

  /** Undo the prior thumb, then apply the new one: the combined deltas of `apply_feedback_transition`. */
  function TransitionDeltas(cfg: Config, chunks: seq<Chunk>, prior: Option<bool>, thumbup: bool): (d: seq<int>)
    ensures |d| == |chunks|
  {
    var undo := match prior case None => Zeros(|chunks|) case Some(t) => AllocateDeltas(chunks, -Vote(t), cfg.mode);
    var apply := AllocateDeltas(chunks, Vote(thumbup), cfg.mode);
    seq(|chunks|, i requires 0 <= i < |chunks| => undo[i] + apply[i])
  }

  lemma TransitionIsDifference(cfg: Config, chunks: seq<Chunk>, prior: Option<bool>, thumbup: bool, i: nat)
    requires i < |chunks|
    ensures TransitionDeltas(cfg, chunks, prior, thumbup)[i]
         == ThumbDeltas(cfg, chunks, Some(thumbup))[i] - ThumbDeltas(cfg, chunks, prior)[i]
  {
    if prior.Some? {
      AllocationIsOdd(chunks, Vote(prior.value), cfg.mode, i);
    }
  }

  /** What a message's thumb contributes to one chunk. */
  function Contribution(cfg: Config, message: Message, thumb: Option<bool>, key: Key): int {
    if !cfg.enabled then 0
    else
      var chunks := Deduplicate(message.references);
      DeltaFor(key, chunks, ThumbDeltas(cfg, chunks, thumb))
  }

  lemma {:induction false} DeltaForDifference(key: Key, chunks: seq<Chunk>, d: seq<int>, a: seq<int>, b: seq<int>)
    requires |chunks| == |d| == |a| == |b|
    requires forall i :: 0 <= i < |d| ==> d[i] == a[i] - b[i]
    ensures DeltaFor(key, chunks, d) == DeltaFor(key, chunks, a) - DeltaFor(key, chunks, b)
  {
    if chunks != [] {
      var n := |chunks| - 1;
      DeltaForDifference(key, chunks[..n], d[..n], a[..n], b[..n]);
    }
  }

  lemma TransitionContribution(cfg: Config, message: Message, prior: Option<bool>, thumbup: bool, key: Key)
    requires cfg.enabled
    ensures var chunks := Deduplicate(message.references);
            DeltaFor(key, chunks, TransitionDeltas(cfg, chunks, prior, thumbup)) ==
            Contribution(cfg, message, Some(thumbup), key) - Contribution(cfg, message, prior, key)
  {
    var chunks := Deduplicate(message.references);
    forall i | 0 <= i < |chunks|
      ensures TransitionDeltas(cfg, chunks, prior, thumbup)[i]
           == ThumbDeltas(cfg, chunks, Some(thumbup))[i] - ThumbDeltas(cfg, chunks, prior)[i]
    {
      TransitionIsDifference(cfg, chunks, prior, thumbup, i);
    }
    DeltaForDifference(key, chunks, TransitionDeltas(cfg, chunks, prior, thumbup),
                       ThumbDeltas(cfg, chunks, Some(thumbup)), ThumbDeltas(cfg, chunks, prior));
  }

  function SumOf(messages: seq<Message>, worth: Message -> int): int {
    if messages == [] then 0 else SumOf(messages[..|messages| - 1], worth) + worth(messages[|messages| - 1])
  }

  lemma {:induction false} SumUpdate(messages: seq<Message>, m: nat, message: Message, worth: Message -> int)
    requires m < |messages|
    ensures SumOf(messages[m := message], worth) == SumOf(messages, worth) - worth(messages[m]) + worth(message)
  {
    var n := |messages| - 1;
    if m == n {
      assert messages[m := message][..n] == messages[..n];
    } else {
      SumUpdate(messages[..n], m, message, worth);
      assert messages[m := message][..n] == messages[..n][m := message];
    }
  }

  function WorthOf(cfg: Config, key: Key): Message -> int {
    (m: Message) => Contribution(cfg, m, m.thumb, key)
  }

  /** The contributions of all current thumbs to one chunk. */
  function LedgerSum(cfg: Config, messages: seq<Message>, key: Key): int {
    SumOf(messages, WorthOf(cfg, key))
  }

  lemma LedgerSumUpdate(cfg: Config, messages: seq<Message>, m: nat, message: Message, key: Key)
    requires m < |messages|
    ensures LedgerSum(cfg, messages[m := message], key)
         == LedgerSum(cfg, messages, key) - Contribution(cfg, messages[m], messages[m].thumb, key)
            + Contribution(cfg, message, message.thumb, key)
  {
    SumUpdate(messages, m, message, WorthOf(cfg, key));
  }

  // ----- the interleaved handlers -----

  /** What a handler read before taking the lock. */
  datatype Request = Request(message: nat, prior: Option<bool>, references: seq<Chunk>, thumbup: bool)

  datatype Phase =
    | Ready(request: Request)
    /** Lock held, index changed if `changed`, `previous` kept for the rollback. */
    | Applied(request: Request, previous: Index, changed: bool)

  /** `base` is what moves the pagerank besides message feedback: its initial
      value and the votes of the direct endpoint. */
  datatype State = State(index: Index, base: Index, messages: seq<Message>,
                         handlers: map<nat, Phase>, lock: Option<nat>)

  /** How persisting a changed index ends: saved; failed with the engine restored;
      or rejected by validation, which leaves the engine changed. */
  datatype Persist = Saved | Restored | Rejected

  datatype Event =
    | Read(pid: nat, message: nat, thumbup: bool)
    | Enter(pid: nat, persist: Persist)
    | Commit(pid: nat, stored: bool)
    | Direct(chunks: seq<Chunk>, positive: bool, persist: Persist)
    | NewMessage(references: seq<Chunk>)
    | DeleteMessage(message: nat)

  predicate Enabled(s: State, e: Event) {
    match e
    case Read(pid, m, _) => pid !in s.handlers && m < |s.messages| && s.messages[m].live
    case Enter(pid, _) => s.lock == None && pid in s.handlers && s.handlers[pid].Ready?
    case Commit(pid, _) => s.lock == Some(pid) && pid in s.handlers && s.handlers[pid].Applied?
                           && s.handlers[pid].request.message < |s.messages|
    case Direct(_, _, _) => s.lock == None
    case NewMessage(_) => true
    case DeleteMessage(m) => m < |s.messages|
  }

  function IndexChanged(cfg: Config, request: Request): bool {
    cfg.enabled && request.prior != Some(request.thumbup) && Deduplicate(request.references) != []
  }

  function Deltas(cfg: Config, request: Request): seq<int> {
    TransitionDeltas(cfg, Deduplicate(request.references), request.prior, request.thumbup)
  }

  function Transitioned(cfg: Config, index: Index, request: Request): (r: Index)
    ensures r.Keys == index.Keys
  {
    ApplyDeltas(index, Deduplicate(request.references), Deltas(cfg, request))
  }

  /** Does the conversation store accept this thumb? */
  predicate Accepts(s: State, request: Request, stored: bool)
    requires request.message < |s.messages|
  {
    s.messages[request.message].live && s.messages[request.message].thumb == request.prior && stored
  }

  function Next(cfg: Config, s: State, e: Event): State
    requires Enabled(s, e)
  {
    match e
    case Read(pid, m, thumbup) =>
      s.(handlers := s.handlers[pid := Ready(Request(m, s.messages[m].thumb, s.messages[m].references, thumbup))])
    case Enter(pid, persist) =>
      var request := s.handlers[pid].request;
      if !IndexChanged(cfg, request) then
        s.(handlers := s.handlers[pid := Applied(request, s.index, false)], lock := Some(pid))
      else if persist.Saved? then
        s.(index := Transitioned(cfg, s.index, request),
           handlers := s.handlers[pid := Applied(request, s.index, true)], lock := Some(pid))
      else s.(handlers := s.handlers - {pid})
    case Commit(pid, stored) =>
      var phase := s.handlers[pid];
      var request := phase.request;
      var s' := s.(handlers := s.handlers - {pid}, lock := None);
      if Accepts(s, request, stored) then
        s'.(messages := s.messages[request.message := s.messages[request.message].(thumb := Some(request.thumbup))])
      else if phase.changed then s'.(index := phase.previous)
      else s'
    case Direct(chunks, positive, persist) =>
      var kept := Deduplicate(chunks);
      if !cfg.enabled || kept == [] || persist.Restored? then s
      else
        var index' := ApplyDeltas(s.index, kept, AllocateDeltas(kept, Vote(positive), cfg.mode));
        s.(index := index',
           base := map k | k in s.base :: if k in s.index then s.base[k] + index'[k] - s.index[k] else s.base[k])
    case NewMessage(references) => s.(messages := s.messages + [Message(references, None, true)])
    case DeleteMessage(m) => s.(messages := s.messages[m := s.messages[m].(live := false)])
  }

  // ----- the ledger -----

  /** Each chunk stands at its base plus the allocations of all current thumbs. */
  ghost predicate Balanced(cfg: Config, index: Index, base: Index, messages: seq<Message>) {
    && base.Keys == index.Keys
    && forall k :: k in index ==> index[k] == base[k] + LedgerSum(cfg, messages, k) as real
  }

  /** A handler's request still names an existing message with the references it read. */
  ghost predicate Current(s: State, request: Request) {
    request.message < |s.messages| && s.messages[request.message].references == request.references
  }

  ghost predicate Coherent(cfg: Config, s: State) {
    && (forall pid :: pid in s.handlers ==> Current(s, s.handlers[pid].request))
    && (forall pid :: pid in s.handlers && s.handlers[pid].Applied? ==> s.lock == Some(pid))
    && (s.lock.Some? ==> s.lock.value in s.handlers && s.handlers[s.lock.value].Applied?)
  }

  /** Lock free: the index is balanced. Lock held: the kept index is balanced, and
      the index is that one or its transition. */
  ghost predicate LedgerInv(cfg: Config, s: State) {
    && Coherent(cfg, s)
    && (s.lock == None ==> Balanced(cfg, s.index, s.base, s.messages))
    && (s.lock.Some? ==>
          var phase := s.handlers[s.lock.value];
          && Balanced(cfg, phase.previous, s.base, s.messages)
          && (phase.changed <==> IndexChanged(cfg, phase.request))
          && s.index == if phase.changed then Transitioned(cfg, phase.previous, phase.request) else phase.previous)
  }

  /** The one thing that breaks the ledger: storing a thumb after a clamped transition. */
  ghost predicate ClampedCommit(cfg: Config, s: State, e: Event) {
    && Enabled(s, e) && e.Commit?
    && s.handlers[e.pid].changed
    && Accepts(s, s.handlers[e.pid].request, e.stored)
    && !Unclamped(s.handlers[e.pid].previous, Deduplicate(s.handlers[e.pid].request.references),
                  Deltas(cfg, s.handlers[e.pid].request))
  }

  lemma LedgerSumAppend(cfg: Config, messages: seq<Message>, references: seq<Chunk>, key: Key)
    ensures LedgerSum(cfg, messages + [Message(references, None, true)], key) == LedgerSum(cfg, messages, key)
  {
    var all := messages + [Message(references, None, true)];
    assert all[..|messages|] == messages;
    var chunks := Deduplicate(references);
    NoDelta(key, chunks, Zeros(|chunks|));
  }

  lemma {:induction false} NoDelta(key: Key, chunks: seq<Chunk>, deltas: seq<int>)
    requires |chunks| == |deltas| && forall i :: 0 <= i < |deltas| ==> deltas[i] == 0
    ensures DeltaFor(key, chunks, deltas) == 0
  {
    if chunks != [] {
      var n := |chunks| - 1;
      NoDelta(key, chunks[..n], deltas[..n]);
    }
  }

  /** A transition keeps the books exactly when nothing is clamped. */
  lemma TransitionBalances(cfg: Config, index: Index, base: Index, messages: seq<Message>, request: Request)
    requires Balanced(cfg, index, base, messages) && IndexChanged(cfg, request)
    requires request.message < |messages| && messages[request.message].references == request.references
    requires messages[request.message].thumb == request.prior
    ensures Balanced(cfg, Transitioned(cfg, index, request), base,
                     messages[request.message := messages[request.message].(thumb := Some(request.thumbup))])
            <==> Unclamped(index, Deduplicate(request.references), Deltas(cfg, request))
  {
    var m := request.message;
    var message' := messages[m].(thumb := Some(request.thumbup));
    var chunks, deltas := Deduplicate(request.references), Deltas(cfg, request);
    var index' := Transitioned(cfg, index, request);
    DeduplicateDistinct(request.references);
    forall k | k in index
      ensures index'[k] == (var d := DeltaFor(k, chunks, deltas);
                            if d == 0 then index[k] else Clamp(index[k] + d as real))
      ensures LedgerSum(cfg, messages[m := message'], k) == LedgerSum(cfg, messages, k) + DeltaFor(k, chunks, deltas)
    {
      ApplyDeltasAt(index, chunks, deltas, k);
      LedgerSumUpdate(cfg, messages, m, message', k);
      TransitionContribution(cfg, messages[m], request.prior, request.thumbup, k);
    }
    UnclampedByKey(index, chunks, deltas);
  }

  lemma UnclampedByKey(index: Index, chunks: seq<Chunk>, deltas: seq<int>)
    requires |chunks| == |deltas| && DistinctKeys(chunks)
    ensures Unclamped(index, chunks, deltas) <==>
            forall k :: k in index && DeltaFor(k, chunks, deltas) != 0 ==>
              0.0 <= index[k] + DeltaFor(k, chunks, deltas) as real <= 100.0
  {
    forall i | 0 <= i < |chunks| ensures DeltaFor(chunks[i].Key(), chunks, deltas) == deltas[i] {
      DeltaForAt(chunks, deltas, i);
    }
    if Unclamped(index, chunks, deltas) {
      forall k | k in index && DeltaFor(k, chunks, deltas) != 0
        ensures 0.0 <= index[k] + DeltaFor(k, chunks, deltas) as real <= 100.0
      {
        if forall i :: 0 <= i < |chunks| ==> chunks[i].Key() != k {
          DeltaForAbsent(k, chunks, deltas);
        }
      }
    }
  }

  lemma CommitStep(cfg: Config, s: State, pid: nat, stored: bool)
    requires LedgerInv(cfg, s) && Enabled(s, Commit(pid, stored))
    ensures LedgerInv(cfg, Next(cfg, s, Commit(pid, stored))) <==> !ClampedCommit(cfg, s, Commit(pid, stored))
  {
    var e := Commit(pid, stored);
    var s' := Next(cfg, s, e);
    var phase := s.handlers[pid];
    var request := phase.request;
    var m := request.message;
    assert s.lock == Some(pid) && Current(s, request);
    CommitCoherent(cfg, s, pid, stored);
    if Accepts(s, request, stored) {
      if phase.changed {
        TransitionBalances(cfg, phase.previous, s.base, s.messages, request);
      } else {
        forall k | k in s.index ensures LedgerSum(cfg, s'.messages, k) == LedgerSum(cfg, s.messages, k) {
          LedgerSumUpdate(cfg, s.messages, m, s'.messages[m], k);
          if cfg.enabled && Deduplicate(request.references) == [] {
            assert DeltaFor(k, [], ThumbDeltas(cfg, [], request.prior)) == 0;
          }
        }
      }
    }
  }

  lemma CommitCoherent(cfg: Config, s: State, pid: nat, stored: bool)
    requires Coherent(cfg, s) && Enabled(s, Commit(pid, stored))
    ensures Coherent(cfg, Next(cfg, s, Commit(pid, stored)))
  {
    var s' := Next(cfg, s, Commit(pid, stored));
    forall q | q in s'.handlers ensures Current(s', s'.handlers[q].request) && s'.handlers[q].Ready? {
      assert q in s.handlers && Current(s, s.handlers[q].request);
    }
  }

  lemma DirectStep(cfg: Config, s: State, chunks: seq<Chunk>, positive: bool, persist: Persist)
    requires LedgerInv(cfg, s) && Enabled(s, Direct(chunks, positive, persist))
    ensures LedgerInv(cfg, Next(cfg, s, Direct(chunks, positive, persist)))
  {
    var s' := Next(cfg, s, Direct(chunks, positive, persist));
    assert forall pid :: pid in s.handlers ==>
      Current(s, s.handlers[pid].request) ==> Current(s', s.handlers[pid].request);
  }

  lemma MessageStep(cfg: Config, s: State, e: Event)
    requires LedgerInv(cfg, s) && Enabled(s, e) && (e.NewMessage? || e.DeleteMessage?)
    ensures LedgerInv(cfg, Next(cfg, s, e))
  {
    var s' := Next(cfg, s, e);
    forall k: Key ensures LedgerSum(cfg, s'.messages, k) == LedgerSum(cfg, s.messages, k) {
      if e.NewMessage? {
        LedgerSumAppend(cfg, s.messages, e.references, k);
      } else {
        LedgerSumUpdate(cfg, s.messages, e.message, s'.messages[e.message], k);
      }
    }
    forall pid | pid in s.handlers ensures Current(s', s.handlers[pid].request) {
      assert Current(s, s.handlers[pid].request);
    }
  }

  lemma ReadStep(cfg: Config, s: State, e: Event)
    requires LedgerInv(cfg, s) && Enabled(s, e) && e.Read?
    ensures LedgerInv(cfg, Next(cfg, s, e))
  {
    var s' := Next(cfg, s, e);
    forall pid | pid in s'.handlers ensures Current(s', s'.handlers[pid].request) {
      if pid in s.handlers { assert Current(s, s.handlers[pid].request); }
    }
  }

  lemma EnterStep(cfg: Config, s: State, e: Event)
    requires LedgerInv(cfg, s) && Enabled(s, e) && e.Enter?
    ensures LedgerInv(cfg, Next(cfg, s, e))
  {
    var s' := Next(cfg, s, e);
    forall pid | pid in s'.handlers ensures Current(s', s'.handlers[pid].request) {
      if pid in s.handlers { assert Current(s, s.handlers[pid].request); }
    }
  }

  /** One step of any handler keeps the ledger, except storing a thumb after a clamp. */
  lemma StepKeepsLedger(cfg: Config, s: State, e: Event)
    requires LedgerInv(cfg, s) && Enabled(s, e)
    ensures LedgerInv(cfg, Next(cfg, s, e)) <==> !ClampedCommit(cfg, s, e)
  {
    match e
    case Commit(pid, stored) => CommitStep(cfg, s, pid, stored);
    case Direct(chunks, positive, persist) => DirectStep(cfg, s, chunks, positive, persist);
    case NewMessage(_) => MessageStep(cfg, s, e);
    case DeleteMessage(_) => MessageStep(cfg, s, e);
    case Read(_, _, _) => ReadStep(cfg, s, e);
    case Enter(_, _) => EnterStep(cfg, s, e);
  }

  /** What a thumb is worth to one of the distinct references of a message: one step up or down, under the uniform
      mode to all of them, under the relevance mode to the first one with the greatest signal only. */
  ghost function StepOf(cfg: Config, chunks: seq<Chunk>, thumb: Option<bool>, i: nat): int {
    if thumb.None? || !(cfg.mode == Uniform || StrongestReference(chunks, i)) then 0
    else if thumb.value then 1 else -1
  }

  lemma ThumbIsWorth(cfg: Config, chunks: seq<Chunk>, thumb: Option<bool>, i: nat)
    requires i < |chunks|
    ensures ThumbDeltas(cfg, chunks, thumb)[i] == StepOf(cfg, chunks, thumb, i)
  {
    if thumb.Some? { VoteByMode(chunks, thumb.value, cfg.mode, i); }
  }

  /** A handler moves each indexed reference by the new thumb's worth less the prior one's, within the limits. */
  lemma ThumbMoves(cfg: Config, index: Index, request: Request, i: nat)
    requires i < |Deduplicate(request.references)| && Deduplicate(request.references)[i].Key() in index
    ensures var chunks := Deduplicate(request.references);
            var key := chunks[i].Key();
            var d := StepOf(cfg, chunks, Some(request.thumbup), i) - StepOf(cfg, chunks, request.prior, i);
            Transitioned(cfg, index, request)[key] == if d == 0 then index[key] else Clamp(index[key] + d as real)
  {
    var chunks := Deduplicate(request.references);
    DeduplicateDistinct(request.references);
    ApplyDeltasAt(index, chunks, Deltas(cfg, request), chunks[i].Key());
    DeltaForAt(chunks, Deltas(cfg, request), i);
    TransitionIsDifference(cfg, chunks, request.prior, request.thumbup, i);
    ThumbIsWorth(cfg, chunks, request.prior, i);
    ThumbIsWorth(cfg, chunks, Some(request.thumbup), i);
  }

  /** A vote at the direct endpoint, when enabled and not restored, moves its references the same way. */
  lemma DirectMoves(cfg: Config, s: State, chunks: seq<Chunk>, positive: bool, persist: Persist, i: nat)
    requires Enabled(s, Direct(chunks, positive, persist)) && cfg.enabled && !persist.Restored?
    requires i < |Deduplicate(chunks)| && Deduplicate(chunks)[i].Key() in s.index
    ensures var kept := Deduplicate(chunks);
            var key := kept[i].Key();
            var d := StepOf(cfg, kept, Some(positive), i);
            Next(cfg, s, Direct(chunks, positive, persist)).index[key]
            == if d == 0 then s.index[key] else Clamp(s.index[key] + d as real)
  {
    var kept := Deduplicate(chunks);
    var deltas := AllocateDeltas(kept, Vote(positive), cfg.mode);
    DeduplicateDistinct(chunks);
    ApplyDeltasAt(s.index, kept, deltas, kept[i].Key());
    DeltaForAt(kept, deltas, i);
    ThumbIsWorth(cfg, kept, Some(positive), i);
  }

  // ----- whole runs -----

  ghost predicate IsRun(cfg: Config, states: seq<State>, events: seq<Event>) {
    && |states| == |events| + 1
    && forall i :: 0 <= i < |events| ==>
         Enabled(states[i], events[i]) && states[i + 1] == Next(cfg, states[i], events[i])
  }

  ghost predicate Initial(cfg: Config, s: State) {
    s.lock == None && s.handlers == map[] && Balanced(cfg, s.index, s.base, s.messages)
  }

  /** In every state with the lock free the books are balanced. */
  ghost predicate AlwaysBalanced(cfg: Config, states: seq<State>) {
    forall i :: 0 <= i < |states| && states[i].lock == None ==>
      Balanced(cfg, states[i].index, states[i].base, states[i].messages)
  }

  lemma {:induction false} RunInvariant(cfg: Config, states: seq<State>, events: seq<Event>, n: nat)
    requires IsRun(cfg, states, events) && Initial(cfg, states[0]) && n < |states|
    requires forall i :: 0 <= i < n ==> !ClampedCommit(cfg, states[i], events[i])
    ensures LedgerInv(cfg, states[n])
  {
    if n > 0 {
      RunInvariant(cfg, states, events, n - 1);
      StepKeepsLedger(cfg, states[n - 1], events[n - 1]);
    }
  }

  /** Under every interleaving the index always equals its base plus the allocations
      of all current thumbs if and only if no thumb is stored after a transition that
      ran into the limits of the pagerank. */
  lemma LedgerTheorem(cfg: Config, states: seq<State>, events: seq<Event>)
    requires IsRun(cfg, states, events) && Initial(cfg, states[0])
    ensures AlwaysBalanced(cfg, states)
            <==> forall i :: 0 <= i < |events| ==> !ClampedCommit(cfg, states[i], events[i])
  {
    if forall i :: 0 <= i < |events| ==> !ClampedCommit(cfg, states[i], events[i]) {
      forall i | 0 <= i < |states| && states[i].lock == None
        ensures Balanced(cfg, states[i].index, states[i].base, states[i].messages)
      {
        RunInvariant(cfg, states, events, i);
      }
    } else {
      var m :| 0 <= m < |events| && ClampedCommit(cfg, states[m], events[m]);
      var i := FirstClamp(cfg, states, events, m);
      RunInvariant(cfg, states, events, i);
      StepKeepsLedger(cfg, states[i], events[i]);
      CommitCoherent(cfg, states[i], events[i].pid, events[i].stored);
      assert states[i + 1].lock == None;
    }
  }

  lemma {:induction false} FirstClamp(cfg: Config, states: seq<State>, events: seq<Event>, m: nat) returns (n: nat)
    requires IsRun(cfg, states, events) && m < |events| && ClampedCommit(cfg, states[m], events[m])
    ensures n <= m && ClampedCommit(cfg, states[n], events[n])
    ensures forall i :: 0 <= i < n ==> !ClampedCommit(cfg, states[i], events[i])
    decreases m
  {
    if i :| 0 <= i < m && ClampedCommit(cfg, states[i], events[i]) {
      n := FirstClamp(cfg, states, events, i);
    } else {
      n := m;
    }
  }

  /** From `Enter` to its own `Commit`, whatever else happens in between, the lock
      holder finds the index as it left it, and the engine as it was is kept aside. */
  lemma {:induction false} LockHolderUndisturbed(cfg: Config, states: seq<State>, events: seq<Event>,
                                                 pid: nat, i: nat, j: nat)
    requires IsRun(cfg, states, events) && i < j <= |events|
    requires events[i].Enter? && events[i].pid == pid && states[i + 1].lock == Some(pid)
    requires forall k :: i < k < j ==> !(events[k].Commit? && events[k].pid == pid)
    ensures states[j].lock == Some(pid)
    ensures pid in states[j].handlers && states[j].handlers[pid] == states[i + 1].handlers[pid]
    ensures states[j].index == states[i + 1].index
  {
    if j > i + 1 {
      LockHolderUndisturbed(cfg, states, events, pid, i, j - 1);
    }
  }

  /** A handler whose thumb is not stored, because the message is gone, its thumb has
      changed since it was read, or saving failed, leaves the index as it found it. */
  lemma FailedHandlerRestoresIndex(cfg: Config, states: seq<State>, events: seq<Event>, pid: nat, i: nat, j: nat)
    requires IsRun(cfg, states, events) && i < j < |events|
    requires events[i].Enter? && events[i].pid == pid && states[i + 1].lock == Some(pid)
    requires forall k :: i < k < j ==> !(events[k].Commit? && events[k].pid == pid)
    requires events[j].Commit? && events[j].pid == pid
    requires !Accepts(states[j], states[j].handlers[pid].request, events[j].stored)
    ensures states[j + 1].index == states[i].index
    ensures states[j + 1].messages == states[j].messages && states[j + 1].lock == None
  {
    LockHolderUndisturbed(cfg, states, events, pid, i, j);
  }

  /** One message about one chunk that stands at 0, and nobody at work on it. */
  function FreshState(chunk: Chunk): State {
    State(map[chunk.Key() := 0.0], map[chunk.Key() := 0.0], [Message([chunk], None, true)], map[], None)
  }

  lemma FreshIsInitial(cfg: Config, chunk: Chunk)
    ensures Initial(cfg, FreshState(chunk))
  {
    LedgerSumAppend(cfg, [], [chunk], chunk.Key());
    assert [] + [Message([chunk], None, true)] == FreshState(chunk).messages;
    assert LedgerSum(cfg, [], chunk.Key()) == 0;
  }

  lemma DownDeltas(cfg: Config, chunk: Chunk)
    requires !Blank(chunk.id) && !Blank(chunk.kbId)
    ensures Deduplicate([chunk]) == [chunk]
    ensures TransitionDeltas(cfg, [chunk], None, false) == [-1]
  {
    assert [chunk][..0] == [];
    OneChunkTakesAll(chunk, false, cfg.mode);
  }

  lemma EntersClamped(cfg: Config, chunk: Chunk, request: Request) returns (s1: State, s2: State)
    requires cfg.enabled && !Blank(chunk.id) && !Blank(chunk.kbId)
    requires request == Request(0, None, [chunk], false)
    ensures Enabled(FreshState(chunk), Read(0, 0, false)) && s1 == Next(cfg, FreshState(chunk), Read(0, 0, false))
    ensures Enabled(s1, Enter(0, Saved)) && s2 == Next(cfg, s1, Enter(0, Saved))
    ensures s2.lock == Some(0) && s2.messages == FreshState(chunk).messages
    ensures 0 in s2.handlers && s2.handlers[0] == Applied(request, FreshState(chunk).index, true)
  {
    DownDeltas(cfg, chunk);
    s1 := Next(cfg, FreshState(chunk), Read(0, 0, false));
    assert s1.handlers == map[0 := Ready(request)];
    assert IndexChanged(cfg, request);
    s2 := Next(cfg, s1, Enter(0, Saved));
  }

  /** The clamp is real: from a chunk at 0 the run of one thumb down, undisturbed and saved, leaves the chunk
      at 0 where the ledger says -1. */
  lemma ClampBreaksLedger(cfg: Config, chunk: Chunk) returns (states: seq<State>, events: seq<Event>)
    requires cfg.enabled && !Blank(chunk.id) && !Blank(chunk.kbId)
    ensures IsRun(cfg, states, events) && Initial(cfg, states[0])
    ensures events == [Read(0, 0, false), Enter(0, Saved), Commit(0, true)]
    ensures !AlwaysBalanced(cfg, states)
  {
    var request := Request(0, None, [chunk], false);
    var s1, s2 := EntersClamped(cfg, chunk, request);
    FreshIsInitial(cfg, chunk);
    CommitIsClamped(cfg, chunk, s2, request);
    states, events := ThreeSteps(cfg, FreshState(chunk), s1, s2, Read(0, 0, false), Enter(0, Saved), Commit(0, true));
    ClampedRun(cfg, states, events, 2);
  }

  lemma ThreeSteps(cfg: Config, s0: State, s1: State, s2: State, e0: Event, e1: Event, e2: Event)
    returns (states: seq<State>, events: seq<Event>)
    requires Enabled(s0, e0) && s1 == Next(cfg, s0, e0) && Enabled(s1, e1) && s2 == Next(cfg, s1, e1) && Enabled(s2, e2)
    ensures IsRun(cfg, states, events) && events == [e0, e1, e2]
    ensures states[0] == s0 && states[2] == s2
  {
    states, events := [s0, s1, s2, Next(cfg, s2, e2)], [e0, e1, e2];
  }

  lemma ClampedRun(cfg: Config, states: seq<State>, events: seq<Event>, i: nat)
    requires IsRun(cfg, states, events) && Initial(cfg, states[0])
    requires i < |events| && ClampedCommit(cfg, states[i], events[i])
    ensures !AlwaysBalanced(cfg, states)
  {
    LedgerTheorem(cfg, states, events);
  }

  lemma CommitIsClamped(cfg: Config, chunk: Chunk, s: State, request: Request)
    requires !Blank(chunk.id) && !Blank(chunk.kbId) && request == Request(0, None, [chunk], false)
    requires s.lock == Some(0) && s.messages == FreshState(chunk).messages
    requires 0 in s.handlers && s.handlers[0] == Applied(request, FreshState(chunk).index, true)
    ensures ClampedCommit(cfg, s, Commit(0, true))
  {
    DownDeltas(cfg, chunk);
    var index := FreshState(chunk).index;
    assert Deltas(cfg, request) == [-1];
    assert chunk.Key() in index && index[chunk.Key()] == 0.0;
    assert !Unclamped(index, [chunk], [-1]) by {
      assert [chunk][0].Key() in index && [-1][0] != 0;
    }
  }

  lemma OneChunkTakesAll(chunk: Chunk, up: bool, mode: FeedbackWeighting)
    ensures AllocateDeltas([chunk], Vote(up), mode) == [Vote(up)]
  {
    if mode == Relevance {
      var m := Magnitudes([chunk]);
      UnitVoteGoesToStrongest(m, up, 0);
      assert FirstStrongest(m, 0);
    }
  }
}
