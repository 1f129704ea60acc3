/**
 What the calls of the streamed-upload protocol are answered: refused only for cause, and answered what they
 ask for whenever there is none. A finish of a stream that was full returns a handle unless the uploader
 failed, a chunk that fits is accepted while the uploader runs, and a poll reports what was counted.
 */
module UploadOutcomes {
  import opened Wrappers
  import opened UploadReader
  import opened UploadSystem
  import opened UploadInvariant
  import opened UploadSteps
  import opened UploadTheorems
  import opened UploadLiveness

  // ---------------------------------------------------------------- refusals

  /** The stream named by a chunk call's request, if it entered one. */
  ghost predicate Entered(s: State, request: Request, k: nat) {
    request.Chunk? && k < |s.table| && s.table[k].id == Some(request.id)
  }

  /**
   A chunk is refused as too much only if it does not fit, then or ever after, and as no longer accepted only
   if the upload task has ended; a finish as short only after it took the stream, and as failed only if the upload task
   failed; a text as malformed only if it is; and beginning a stream or a slot is never refused.
   */
  lemma RefusedForCause(actions: seq<Action>, c: nat, f: Failure)
    requires Interleaving(actions) && c < |After(actions).calls|
    requires After(actions).calls[c].phase == Returned(Refused(f))
    ensures var s, request := After(actions), After(actions).calls[c].request;
            match f
            case UnknownStream => request.Chunk? || request.Finish?
            case UnknownProgress => request.Progress?
            case InvalidBase64 => request.BadChunk?
            case TooManyBytes(k) =>
              Entered(s, request, k) && (Safe(s.table[k]) ==> s.table[k].accepted + |request.bytes| > s.table[k].size)
            case NotAccepting(k) => Entered(s, request, k) && !s.table[k].task.Running?
            case ShortStream(k) => Finishes(s, k, c)
            case TaskFailed(k) => Finishes(s, k, c) && s.table[k].task == Failed
  {
    assert CallInv(After(actions), c);
  }

  /** The stream was begun under the id, its begin has returned it, and no finish has taken it. */
  ghost predicate IsOpen(s: State, k: nat, id: int) {
    && k < |s.table| && s.table[k].id == Some(id) && s.table[k].finisher == None
    && s.table[k].opener < |s.calls| && s.calls[s.table[k].opener].phase == Returned(Id(id))
  }

  /** A stream is listed under an id exactly from the answer of its begin to the finish that takes it. */
  lemma ListedIff(s: State, id: int)
    requires Inv(s)
    ensures id in s.streams <==> exists k: nat :: IsOpen(s, k, id)
  {
    if id in s.streams {
      assert StreamOk(s, id);
      var k := s.streams[id];
      assert StreamInv(s, k);
      assert Roles(s, k);
      assert IsOpen(s, k, id);
    }
    if exists k: nat :: IsOpen(s, k, id) {
      var k: nat :| IsOpen(s, k, id);
      assert StreamInv(s, k);
    }
  }

  /** A chunk or a finish is refused as unknown exactly when no stream is open under its id. */
  lemma UnknownStreamIff(actions: seq<Action>, c: nat, id: int)
    requires Interleaving(actions) && c < |After(actions).calls|
    requires var p := After(actions).calls[c].phase; (p.ChunkStart? || p.FinishStart?) && p.id == id
    ensures CanAdvance(After(actions), c)
    ensures AdvanceCall(After(actions), c).calls[c].phase == Returned(Refused(UnknownStream)) <==>
            !exists k: nat :: IsOpen(After(actions), k, id)
  {
    var s := After(actions);
    assert CallInv(s, c);
    ListedIff(s, id);
    if id in s.streams {
      assert StreamOk(s, id);
    }
    UnknownStep(s, c, id);
  }

  lemma UnknownStep(s: State, c: nat, id: int)
    requires CanAdvance(s, c) && (s.calls[c].phase.ChunkStart? || s.calls[c].phase.FinishStart?)
    requires s.calls[c].phase.id == id
    ensures AdvanceCall(s, c).calls[c].phase == Returned(Refused(UnknownStream)) <==> id !in s.streams
  {
    if s.calls[c].phase.ChunkStart? {
      assert AdvanceChunk(s, c).calls[c].phase == Returned(Refused(UnknownStream)) <==> id !in s.streams;
    } else {
      assert AdvanceFinish(s, c).calls[c].phase == Returned(Refused(UnknownStream)) <==> id !in s.streams;
    }
  }

  /** A chunk is reserved exactly when it fits, and accepted exactly when the upload task still runs as it is sent. */
  lemma ChunkAcceptedIff(actions: seq<Action>, c: nat)
    requires Interleaving(actions) && c < |After(actions).calls| && CanAdvance(After(actions), c)
    ensures var s, p := After(actions), After(actions).calls[c].phase;
            var q := AdvanceCall(s, c).calls[c].phase;
            && (p.ChunkReserving? && Safe(s.table[p.stream]) ==>
                  (q == ChunkSending(p.stream, p.bytes) <==>
                   s.table[p.stream].accepted + |p.bytes| <= s.table[p.stream].size))
            && (p.ChunkSending? ==>
                  (q == ChunkLeaving(p.stream, Accepted(p.stream)) <==> s.table[p.stream].task.Running?))
            && (p.ChunkLeaving? ==> q == Returned(p.outcome))
  {
    var s, p := After(actions), After(actions).calls[c].phase;
    assert CallInv(s, c);
    if p.ChunkReserving? {
      assert StreamInv(s, p.stream);
      if Safe(s.table[p.stream]) {
        ReserveIsExact(s.table[p.stream].accepted, |p.bytes|, s.table[p.stream].size);
      }
    }
    if IsChunk(p) {
      assert AdvanceCall(s, c) == AdvanceChunk(s, c);
    }
  }

  // ---------------------------------------------------------------- finishing a full stream

  /** The call is a finish on the stream and was not told that it is short. */
  ghost predicate FinishOf(s: State, c: nat, k: nat) {
    && c < |s.calls| && k < |s.table| && s.calls[c].request.Finish?
    && s.table[k].id == Some(s.calls[c].request.id)
    && var p := s.calls[c].phase;
       !(p.Returned? && p.outcome.Refused? && p.outcome.failure.ShortStream?)
  }

  ghost predicate FullAndSafe(s: State, k: nat) {
    k < |s.table| && Safe(s.table[k]) && s.table[k].accepted == s.table[k].size
  }

  lemma FullStep(s: State, a: Action, c: nat, k: nat)
    requires Inv(s) && Enabled(s, a) && |Next(s, a).issued| <= TWO_64
    requires FinishOf(s, c, k) && FullAndSafe(s, k)
    ensures FinishOf(Next(s, a), c, k) && FullAndSafe(Next(s, a), k)
  {
    StepKeepsInv(s, a);
    assert Evolves(s.table[k], Next(s, a).table[k]);
    if a == Advance(c) {
      NotShort(s, c, k);
    } else if a.Advance? {
      assert AdvanceCall(s, a.call).calls[c] == s.calls[c];
    }
  }

  /** The check finds a full stream full. */
  lemma NotShort(s: State, c: nat, k: nat)
    requires Inv(s) && FinishOf(s, c, k) && FullAndSafe(s, k) && CanAdvance(s, c)
    ensures var q := AdvanceCall(s, c).calls[c].phase;
            !(q.Returned? && q.outcome.Refused? && q.outcome.failure.ShortStream?)
  {
    assert CallInv(s, c);
    var p := s.calls[c].phase;
    assert IsFinish(p);
    if p.FinishChecking? {
      assert StreamInv(s, p.stream) && StreamInv(s, k);
      UniqueId(s, p.stream, k);
    }
    assert AdvanceCall(s, c) == AdvanceFinish(s, c);
  }

  lemma {:induction false} FullRun(s: State, actions: seq<Action>, c: nat, k: nat)
    requires Inv(s) && Runs(s, actions) && |Run(s, actions).issued| <= TWO_64
    requires FinishOf(s, c, k) && FullAndSafe(s, k)
    ensures Inv(Run(s, actions)) && FinishOf(Run(s, actions), c, k) && FullAndSafe(Run(s, actions), k)
    decreases |actions|
  {
    if actions != [] {
      IssuedGrowsOverRuns(Next(s, actions[0]), actions[1..]);
      FullStep(s, actions[0], c, k);
      StepKeepsInv(s, actions[0]);
      FullRun(Next(s, actions[0]), actions[1..], c, k);
    }
  }

  /** What a finish that took the stream has returned: a handle, or that the upload task failed. */
  ghost predicate Served(s: State, c: nat, k: nat) {
    && c < |s.calls| && k < |s.table|
    && (s.calls[c].phase.Returned? ==>
          || (s.calls[c].phase.outcome.Handle? && s.table[k].task.Succeeded?)
          || (s.calls[c].phase.outcome == Refused(TaskFailed(k)) && s.table[k].task == Failed))
  }

  lemma FullIsServed(s: State, c: nat, k: nat, id: int)
    requires Inv(s) && Consumed(s, c, id) && FinishOf(s, c, k)
    ensures Served(s, c, k)
  {
    assert CallInv(s, c);
    if s.calls[c].phase.Returned? {
      var o := s.calls[c].phase.outcome;
      var j := if o.Handle? then s.uploads[o.handle].stream else o.failure.stream;
      assert Finishes(s, j, c);
      assert StreamInv(s, j) && StreamInv(s, k);
      UniqueId(s, j, k);
    }
  }

  lemma {:induction false} ConsumedStays(s: State, actions: seq<Action>, c: nat, id: int)
    requires Inv(s) && Runs(s, actions) && |Run(s, actions).issued| <= TWO_64 && Consumed(s, c, id)
    ensures Consumed(Run(s, actions), c, id)
    decreases |actions|
  {
    if actions != [] {
      IssuedGrowsOverRuns(Next(s, actions[0]), actions[1..]);
      StepKeepsInv(s, actions[0]);
      ConsumedStep(s, actions[0], c, id);
      ConsumedStays(Next(s, actions[0]), actions[1..], c, id);
    }
  }

  lemma ConsumedStep(s: State, a: Action, c: nat, id: int)
    requires Inv(s) && Enabled(s, a) && Consumed(s, c, id)
    ensures Consumed(Next(s, a), c, id)
  {
    if a == Advance(c) {
      assert CallInv(s, c);
      PastLookup(s, c);
    } else if a.Advance? {
      assert AdvanceCall(s, a.call).calls[c] == s.calls[c];
    }
  }

  lemma PastLookup(s: State, c: nat)
    requires CanAdvance(s, c) && IsFinish(s.calls[c].phase) && !s.calls[c].phase.FinishStart?
    ensures var q := AdvanceCall(s, c).calls[c].phase; !q.FinishStart? && q != Returned(Refused(UnknownStream))
  {
    assert AdvanceCall(s, c) == AdvanceFinish(s, c);
  }

  /**
   In every interleaving, a finish that took a stream and had not been told it is short when every declared
   byte was accepted returns a handle, unless the upload task failed.
   */
  lemma FinishOfFullStream(actions: seq<Action>, more: seq<Action>, c: nat, k: nat, id: int)
    requires Interleaving(actions + more) && Runs(INIT, actions) && Interleaving(actions)
    requires FinishOf(After(actions), c, k) && FullAndSafe(After(actions), k) && Consumed(After(actions), c, id)
    ensures Served(After(actions + more), c, k)
  {
    RunsConcat(INIT, actions, more);
    FullRun(After(actions), more, c, k);
    ConsumedStays(After(actions), more, c, id);
    FullIsServed(After(actions + more), c, k, id);
  }

  lemma {:induction false} NeverFails(s: State, actions: seq<Action>, k: nat)
    requires Runs(s, actions) && AllProductive(s, actions) && k < |s.table| && s.table[k].task != Failed
    ensures k < |Run(s, actions).table| && Run(s, actions).table[k].task != Failed
    decreases |actions|
  {
    if actions != [] {
      var a := actions[0];
      if a.Advance? {
        TaskKept(s, a.call, k);
      }
      NeverFails(Next(s, a), actions[1..], k);
    }
  }

  lemma TaskKept(s: State, c: nat, k: nat)
    requires CanAdvance(s, c) && k < |s.table|
    ensures k < |AdvanceCall(s, c).table| && AdvanceCall(s, c).table[k].task == s.table[k].task
  {
    var p := s.calls[c].phase;
    if IsBegin(p) {
      assert AdvanceBegin(s, c).table[k].task == s.table[k].task;
    } else if IsChunk(p) {
      assert AdvanceChunk(s, c).table[k].task == s.table[k].task;
    } else if IsFinish(p) {
      assert AdvanceFinish(s, c).table[k].task == s.table[k].task;
    }
  }

  /**
   From every invariant state with a full stream whose task has not failed and a pending finish that took it:
   some run of productive steps returns the finish, and every one that does returns it a handle.
   */
  lemma FullFinishSucceeds(s: State, c: nat, k: nat, id: int) returns (actions: seq<Action>)
    requires Inv(s) && AllSafe(s) && |s.issued| + Steps(s.calls) <= TWO_64
    requires FinishOf(s, c, k) && FullAndSafe(s, k) && Consumed(s, c, id)
    requires s.table[k].task != Failed
    ensures Runs(s, actions) && AllProductive(s, actions) && |Run(s, actions).calls| > c
    ensures Run(s, actions).calls[c].phase.Returned? && Run(s, actions).calls[c].phase.outcome.Handle?
  {
    actions := EveryCallCanReturn(s);
    IssuedStaysBounded(s, actions);
    ReturnsAHandle(s, actions, c, k, id);
    FullRun(s, actions, c, k);
  }

  lemma ReturnsAHandle(s: State, actions: seq<Action>, c: nat, k: nat, id: int)
    requires Inv(s) && Runs(s, actions) && AllProductive(s, actions) && |Run(s, actions).issued| <= TWO_64
    requires FinishOf(s, c, k) && FullAndSafe(s, k) && Consumed(s, c, id)
    requires s.table[k].task != Failed
    ensures c < |Run(s, actions).calls|
    ensures Run(s, actions).calls[c].phase.Returned? ==> Run(s, actions).calls[c].phase.outcome.Handle?
  {
    FullRun(s, actions, c, k);
    ConsumedStays(s, actions, c, id);
    NeverFails(s, actions, k);
    FullIsServed(Run(s, actions), c, k, id);
  }

  /** A run of productive steps draws no more ids than its calls had steps left. */
  lemma {:induction false} IssuedStaysBounded(s: State, actions: seq<Action>)
    requires Runs(s, actions) && AllProductive(s, actions)
    ensures |Run(s, actions).issued| + Steps(Run(s, actions).calls) <= |s.issued| + Steps(s.calls)
    decreases |actions|
  {
    if actions != [] {
      var a := actions[0];
      if a.Advance? {
        AdvanceDescends(s, a.call);
      } else {
        TaskDescends(s, a);
      }
      IssuedStaysBounded(Next(s, a), actions[1..]);
    }
  }

  // ---------------------------------------------------------------- polls

  /** A progress id that was answered is never unknown to a poll, and names what was begun under it. */
  lemma AnsweredIdsAreKnown(actions: seq<Action>, d: nat, id: int)
    requires Interleaving(actions) && d < |After(actions).calls|
    requires After(actions).calls[d].phase == Returned(Id(id))
    ensures var s := After(actions);
            && id in s.progress
            && match s.calls[d].request
               case BeginProgress(total) => s.progress[id] == OfPath(total)
               case Begin(size) =>
                 && s.progress[id].OfStream? && s.progress[id].stream < |s.table|
                 && s.table[s.progress[id].stream].opener == d && s.table[s.progress[id].stream].size == size
               case _ => false
  {
    var s := After(actions);
    assert CallInv(s, d);
    assert ProgressOk(s, id);
    assert s.issued[Draw(id)] == d;
    if s.progress[id].OfStream? {
      assert StreamInv(s, s.progress[id].stream);
    }
  }

  /** A poll of a known id finds its slot, and of no other id any. */
  lemma PollFindsIff(s: State, c: nat)
    requires CanAdvance(s, c) && s.calls[c].phase.PollStart?
    ensures var id, q := s.calls[c].phase.id, AdvanceCall(s, c).calls[c].phase;
            q == if id in s.progress then PollHolding(s.progress[id]) else Returned(Refused(UnknownProgress))
  {
  }

  /** The poll's answer, if it has one, is between what was counted at some point and what is counted. */
  ghost predicate Current(s: State, c: nat, k: nat, n: nat) {
    && c < |s.calls| && k < |s.table| && n <= s.table[k].meter.counted
    && match s.calls[c].phase
       case PollHalf(slot, sent) => slot == OfStream(k) ==> n <= sent <= s.table[k].meter.counted
       case Returned(o) => o.Snapshot? && o.slot == OfStream(k) ==> n <= o.sent <= s.table[k].meter.counted
       case _ => true
  }

  lemma CurrentStep(s: State, a: Action, c: nat, k: nat, n: nat)
    requires Inv(s) && Enabled(s, a) && Current(s, c, k, n) && s.table[k].meter.counted < TWO_64
    ensures Current(Next(s, a), c, k, n)
  {
    if a.Advance? {
      MeterKept(s, a.call, k);
      if a.call == c {
        LoadsSent(s, c, k);
      } else {
        assert AdvanceCall(s, a.call).calls[c] == s.calls[c];
      }
    }
  }

  lemma LoadsSent(s: State, c: nat, k: nat)
    requires CanAdvance(s, c) && CallInv(s, c) && k < |s.table| && s.table[k].meter.counted < TWO_64
    ensures match AdvanceCall(s, c).calls[c].phase
            case PollHalf(slot, sent) => slot == OfStream(k) ==> sent == s.table[k].meter.counted
            case Returned(o) => o.Snapshot? ==> s.calls[c].phase == PollHalf(o.slot, o.sent)
            case _ => true
  {
    var p := s.calls[c].phase;
    NotWrapped(s.table[k].meter);
    if IsBegin(p) {
      assert AdvanceCall(s, c) == AdvanceBegin(s, c);
    } else if IsFinish(p) {
      assert AdvanceCall(s, c) == AdvanceFinish(s, c);
    } else if p.ChunkLeaving? {
      assert AdvanceCall(s, c) == AdvanceChunk(s, c);
    }
  }

  lemma MeterKept(s: State, c: nat, k: nat)
    requires CanAdvance(s, c) && k < |s.table|
    ensures k < |AdvanceCall(s, c).table| && AdvanceCall(s, c).table[k].meter == s.table[k].meter
  {
    var p := s.calls[c].phase;
    if IsBegin(p) {
      assert AdvanceBegin(s, c).table[k].meter == s.table[k].meter;
    } else if IsChunk(p) {
      assert AdvanceChunk(s, c).table[k].meter == s.table[k].meter;
    } else if IsFinish(p) {
      assert AdvanceFinish(s, c).table[k].meter == s.table[k].meter;
    }
  }

  /** While nobody else counts into a stream's slot, what was counted is below 2^64. */
  lemma CountedIsSmall(s: State, k: nat)
    requires Inv(s) && k < |s.table| && Safe(s.table[k]) && Alone(s.table[k])
    ensures s.table[k].meter.counted < TWO_64
  {
    assert StreamInv(s, k);
    DeliveredIsBounded(s, k);
  }

  lemma {:induction false} CurrentRun(s: State, actions: seq<Action>, c: nat, k: nat, n: nat)
    requires Inv(s) && Runs(s, actions) && |Run(s, actions).issued| <= TWO_64 && Current(s, c, k, n)
    requires k < |Run(s, actions).table| && Safe(s.table[k]) && Alone(Run(s, actions).table[k])
    ensures Current(Run(s, actions), c, k, n)
    decreases |actions|
  {
    if actions != [] {
      var t := Next(s, actions[0]);
      IssuedGrowsOverRuns(t, actions[1..]);
      StepKeepsInv(s, actions[0]);
      assert Evolves(s.table[k], t.table[k]);
      GuestsAreNamings(t, actions[1..], k);
      CountedIsSmall(s, k);
      CurrentStep(s, actions[0], c, k, n);
      CurrentRun(t, actions[1..], c, k, n);
    }
  }

  /**
   What a poll is answered about a stream that no path upload has named is current: not less than what was
   counted when the poll began, nor more than what is counted when it has its answer.
   */
  lemma SnapshotIsCurrent(actions: seq<Action>, more: seq<Action>, c: nat, k: nat, sent: nat, total: nat)
    requires Interleaving(actions + more) && Runs(INIT, actions) && Interleaving(actions)
    requires c < |After(actions).calls| && After(actions).calls[c].phase.PollStart? && k < |After(actions).table|
    requires k < |After(actions + more).table| && c < |After(actions + more).calls|
    requires After(actions + more).calls[c].phase == Returned(Snapshot(OfStream(k), sent, total))
    requires Safe(After(actions).table[k]) && Alone(After(actions + more).table[k])
    ensures SentOf(After(actions).table[k].meter) <= sent <= SentOf(After(actions + more).table[k].meter)
  {
    var s, t := After(actions), After(actions + more);
    RunsConcat(INIT, actions, more);
    LaterGrows(actions, more);
    assert Evolves(s.table[k], t.table[k]);
    CurrentRun(s, more, c, k, s.table[k].meter.counted);
    CountedIsSmall(s, k);
    CountedIsSmall(t, k);
    NotWrapped(s.table[k].meter);
    NotWrapped(t.table[k].meter);
  }
}
