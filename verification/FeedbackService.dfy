/** The feedback handlers as they run (src/chunk_feedback.rs:176-302, 384-466): methods
    that change the engine in place and roll it back, proved to take exactly the
    steps of `FeedbackLedger`. */
module FeedbackService {
  import opened Text
  import opened ChunkFeedback
  import opened FeedbackLedger

  datatype Response =
    | Done(success: nat, fail: nat)
    | NotFound
    | ServerError

  class SearchEngine {
    var pagerank: Index

    constructor (chunks: Index)
      ensures pagerank == chunks
    {
      pagerank := chunks;
    }

    /** `adjust_chunk_pagerank`: the values before and after, or `None` for an unknown chunk. */
    method AdjustChunkPagerank(key: Key, delta: int) returns (r: Option<(real, real)>)
      modifies this
      ensures pagerank == Adjust(old(pagerank), key, delta)
      ensures r.Some? <==> key in old(pagerank)
      ensures r.Some? ==> r.value == (old(pagerank)[key], pagerank[key])
    {
      if key !in pagerank {
        return None;
      }
      var previous := pagerank[key];
      pagerank := pagerank[key := Clamp(previous + delta as real)];
      return Some((previous, pagerank[key]));
    }

    /** `apply_deltas_and_save`. On a `Rejected` save the engine stays changed. */
    method ApplyDeltasAndSave(chunks: seq<Chunk>, deltas: seq<int>, persist: Persist)
      returns (saved: bool, success: nat, fail: nat)
      requires |chunks| == |deltas|
      modifies this
      ensures success == CountApplied(old(pagerank), chunks, deltas, true)
      ensures fail == CountApplied(old(pagerank), chunks, deltas, false)
      ensures saved <==> success == 0 || persist.Saved?
      ensures pagerank == if saved || persist.Rejected? then ApplyDeltas(old(pagerank), chunks, deltas)
                          else old(pagerank)
    {
      var previous := pagerank;
      success, fail := 0, 0;
      for i := 0 to |chunks|
        invariant pagerank == ApplyDeltas(previous, chunks[..i], deltas[..i])
        invariant success == CountApplied(previous, chunks[..i], deltas[..i], true)
        invariant fail == CountApplied(previous, chunks[..i], deltas[..i], false)
      {
        assert chunks[..i + 1][..i] == chunks[..i] && deltas[..i + 1][..i] == deltas[..i];
        if deltas[i] != 0 {
          var r := AdjustChunkPagerank(chunks[i].Key(), deltas[i]);
          if r.Some? { success := success + 1; } else { fail := fail + 1; }
        }
      }
      assert chunks[..|chunks|] == chunks && deltas[..|deltas|] == deltas;
      saved := success == 0 || persist.Saved?;
      if !saved && persist.Restored? {
        pagerank := previous;
      }
    }

    /** `apply_feedback_transition`: on any failed save the engine is put back. */
    method ApplyFeedbackTransition(cfg: Config, chunks: seq<Chunk>, prior: Option<bool>, thumbup: bool,
                                   persist: Persist)
      returns (saved: bool, success: nat, fail: nat)
      modifies this
      ensures saved <==> success == 0 || persist.Saved?
      ensures pagerank == if saved
                          then ApplyDeltas(old(pagerank), chunks, TransitionDeltas(cfg, chunks, prior, thumbup))
                          else old(pagerank)
      ensures success == CountApplied(old(pagerank), chunks, TransitionDeltas(cfg, chunks, prior, thumbup), true)
      ensures fail == CountApplied(old(pagerank), chunks, TransitionDeltas(cfg, chunks, prior, thumbup), false)
    {
      var previous := pagerank;
      var deltas := Zeros(|chunks|);
      if prior.Some? {
        deltas := AddDeltas(deltas, AllocateDeltas(chunks, -Vote(prior.value), cfg.mode));
      }
      deltas := AddDeltas(deltas, AllocateDeltas(chunks, Vote(thumbup), cfg.mode));
      assert deltas == TransitionDeltas(cfg, chunks, prior, thumbup);
      saved, success, fail := ApplyDeltasAndSave(chunks, deltas, persist);
      if !saved {
        pagerank := previous;
      }
    }
  }

  function AddDeltas(a: seq<int>, b: seq<int>): (r: seq<int>)
    requires |a| == |b|
    ensures |r| == |a| && forall i :: 0 <= i < |r| ==> r[i] == a[i] + b[i]
  {
    seq(|a|, i requires 0 <= i < |a| => a[i] + b[i])
  }

  /** How many of the moved references are indexed, or are not. */
  function Counted(cfg: Config, index: Index, request: Request, found: bool): nat {
    if IndexChanged(cfg, request)
    then CountApplied(index, Deduplicate(request.references), Deltas(cfg, request), found)
    else 0
  }

  class AppState {
    const cfg: Config
    const engine: SearchEngine
    var messages: seq<Message>

    constructor (cfg: Config, engine: SearchEngine, messages: seq<Message>)
      ensures this.cfg == cfg && this.engine == engine && this.messages == messages
    {
      this.cfg := cfg;
      this.engine := engine;
      this.messages := messages;
    }

    /** The protocol state of this object with one handler `pid` in flight. */
    ghost function View(base: Index, handlers: map<nat, Phase>, lock: Option<nat>): State
      reads this, engine
    {
      State(engine.pagerank, base, messages, handlers, lock)
    }

    /** `feedback_target`: what the handler reads before the lock. */
    method FeedbackTarget(message: nat, thumbup: bool) returns (r: Option<Request>)
      ensures r.Some? <==> message < |messages| && messages[message].live
      ensures r.Some? ==> r.value == Request(message, messages[message].thumb, messages[message].references, thumbup)
    {
      if message < |messages| && messages[message].live {
        return Some(Request(message, messages[message].thumb, messages[message].references, thumbup));
      }
      return None;
    }

    /** `update_message_feedback` of the conversation store: a compare-and-set of the thumb. */
    method StoreThumb(request: Request, stored: bool) returns (r: Response)
      requires request.message < |messages|
      modifies this
      ensures r.Done? <==> Accepts(old(View(map[], map[], None)), request, stored)
      ensures r.NotFound? <==> !old(messages)[request.message].live
      ensures var message := old(messages)[request.message];
              messages == if r.Done? then old(messages)[request.message := message.(thumb := Some(request.thumbup))]
                          else old(messages)
    {
      if !messages[request.message].live {
        return NotFound;
      }
      if messages[request.message].thumb != request.prior || !stored {
        return ServerError;
      }
      messages := messages[request.message := messages[request.message].(thumb := Some(request.thumbup))];
      return Done(0, 0);
    }

    /** `update_message_feedback_inner` from the lock on: the protocol's `Enter` and `Commit`. */
    method UpdateMessageFeedback(request: Request, pid: nat, ghost base: Index, persist: Persist, stored: bool)
      returns (r: Response)
      requires request.message < |messages|
      modifies this, engine
      ensures var s := old(View(base, map[pid := Ready(request)], None));
              var entered := Next(cfg, s, Enter(pid, persist));
              // nothing to adjust is nothing to save: then a failing save is not reached
              var touched := Counted(cfg, s.index, request, true) > 0;
              && (touched && !persist.Saved? ==>
                    r == ServerError && View(base, map[], None) == entered)
              && (!touched || persist.Saved? ==>
                    View(base, map[], None) ==
                    Next(cfg, Next(cfg, s, Enter(pid, Saved)), Commit(pid, stored)))
              && (r.Done? <==> (!touched || persist.Saved?) && Accepts(s, request, stored))
              && (r.NotFound? <==> (!touched || persist.Saved?) && !old(messages)[request.message].live)
              && (r.Done? ==> r == Done(Counted(cfg, s.index, request, true), Counted(cfg, s.index, request, false)))
    {
      var chunks := Deduplicate(request.references);
      var previous := engine.pagerank;
      var indexChanged := cfg.enabled && request.prior != Some(request.thumbup) && chunks != [];
      var success, fail := 0, 0;
      if indexChanged {
        var saved;
        saved, success, fail := engine.ApplyFeedbackTransition(cfg, chunks, request.prior, request.thumbup, persist);
        if !saved {
          assert map[pid := Ready(request)] - {pid} == map[];
          return ServerError;
        }
      }
      r := StoreThumb(request, stored);
      assert map[pid := Ready(request)][pid := Phase.Applied(request, previous, indexChanged)] - {pid} == map[];
      if r.Done? {
        return Done(success, fail);
      }
      if indexChanged {
        engine.pagerank := previous;
      }
    }

    /** `apply_chunk_feedback`: the direct endpoint. A save rejected by validation is
        reported as an error and yet leaves the engine changed. */
    method ApplyChunkFeedback(references: seq<Chunk>, positive: bool, persist: Persist) returns (r: Response)
      modifies engine
      ensures var chunks := Deduplicate(references);
              var deltas := AllocateDeltas(chunks, Vote(positive), cfg.mode);
              var touched := CountApplied(old(engine.pagerank), chunks, deltas, true) > 0;
              var after := ApplyDeltas(old(engine.pagerank), chunks, deltas);
              && (!cfg.enabled || chunks == [] ==> engine.pagerank == old(engine.pagerank))
              && (!cfg.enabled ==> r == Done(0, 0))
              && (cfg.enabled && chunks == [] ==> r == ServerError)
              && (cfg.enabled && chunks != [] ==>
                    && r == (if !touched || persist.Saved?
                             then Done(CountApplied(old(engine.pagerank), chunks, deltas, true),
                                       CountApplied(old(engine.pagerank), chunks, deltas, false))
                             else ServerError)
                    && engine.pagerank == if touched && persist.Restored? then old(engine.pagerank) else after)
    {
      if !cfg.enabled {
        return Done(0, 0);
      }
      var chunks := Deduplicate(references);
      if chunks == [] {
        return ServerError;
      }
      var saved, success, fail :=
        engine.ApplyDeltasAndSave(chunks, AllocateDeltas(chunks, Vote(positive), cfg.mode), persist);
      return if saved then Done(success, fail) else ServerError;
    }
  }
}
