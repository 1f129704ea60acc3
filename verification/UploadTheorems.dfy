/**
 What the streamed-upload protocol promises over every interleaving: conservation of bytes, the
 safety of finishing, and the registry's ids and handles. Each statement is about every list of
 actions from the empty state that draws at most 2^64 ids, the point at which the `i64` counter
 repeats itself (`UploadSystem.HandlesAreDistinctExactlyFor`).
 */
module UploadTheorems {
  import opened Wrappers
  import opened UploadReader
  import opened UploadSystem
  import opened UploadInvariant
  import opened UploadSteps
  import Base64

  /** The list of actions is an interleaving that stays below the wrap of the id counter. */
  ghost predicate Interleaving(actions: seq<Action>) {
    Runs(INIT, actions) && |Run(INIT, actions).issued| <= TWO_64
  }

  ghost function After(actions: seq<Action>): (s: State)
    requires Interleaving(actions)
    ensures Inv(s)
  {
    InitInv();
    RunKeepsInv(INIT, actions);
    Run(INIT, actions)
  }

  lemma {:induction false} RunsConcat(s: State, a: seq<Action>, b: seq<Action>)
    requires Runs(s, a)
    ensures Runs(s, a + b) <==> Runs(Run(s, a), b)
    ensures Runs(s, a + b) ==> Run(s, a + b) == Run(Run(s, a), b)
    decreases |a|
  {
    if a == [] {
      assert a + b == b;
    } else {
      assert (a + b)[1..] == a[1..] + b;
      RunsConcat(Next(s, a[0]), a[1..], b);
    }
  }

  /** What held after the first part of an interleaving is still answered after the whole of it. */
  lemma LaterGrows(actions: seq<Action>, more: seq<Action>)
    requires Interleaving(actions + more) && Runs(INIT, actions)
    ensures Interleaving(actions) && Grows(After(actions), After(actions + more))
  {
    RunsConcat(INIT, actions, more);
    IssuedGrowsOverRuns(Run(INIT, actions), more);
    RunKeepsInv(After(actions), more);
  }

  // ---------------------------------------------------------------- the reservation

  /**
   The reservation is the comparison the source means, for every accepted count and every chunk a caller
   can send, exactly when the declared size leaves room below 2^64 for the longest of these chunks.
   */
  lemma ReservationIsExactIff(size: nat)
    requires size < TWO_64
    ensures (forall current: nat, id, text, bytes | current <= size && Admissible(Request.Chunk(id, text, bytes)) ::
               Reserve(current, |bytes|, size)
               == if current + |bytes| <= size then Some(current + |bytes|) else None)
            <==> Fits(size)
    ensures Fits(size) <==> size <= 0xA000_0000_0000_0002
  {
    if Fits(size) {
      forall current: nat, id, text, bytes | current <= size && Admissible(Request.Chunk(id, text, bytes))
        ensures Reserve(current, |bytes|, size)
                == if current + |bytes| <= size then Some(current + |bytes|) else None
      {
        ChunkFits(id, text, bytes);
        ReserveIsExact(current, |bytes|, size);
      }
    } else {
      // A full stream that is sent the chunk which wraps the counter accepts it as zero bytes.
      var bytes := seq(TWO_64 - size, _ => 0);
      var text := LongText(bytes);
      assert Admissible(Request.Chunk(0, text, bytes));
      assert Reserve(size, |bytes|, size) == Some(0);
    }
  }

  /** Every chunk up to the longest has a text. */
  lemma LongText(bytes: seq<byte>) returns (text: seq<byte>)
    requires |bytes| <= LONGEST
    ensures Base64.Decoded(text) == Ok(bytes) && |text| < TWO_63
  {
    text := Base64.Encoded(bytes);
    Base64.EncoderOutput(bytes);
  }

  // ---------------------------------------------------------------- conservation

  /**
   Every accepted byte is in exactly one place: reserved by a call that has not sent it, queued,
   retained by the reader, delivered, thrown away with the receiver, or lost to a failed send. The
   progress counter is what was delivered and counted and what path uploads that named the stream counted,
   modulo 2^64; without any such it is what was delivered but for a read not counted yet.
   */
  lemma Conservation(actions: seq<Action>, k: nat)
    requires Interleaving(actions) && k < |After(actions).table|
    ensures var s := After(actions); var st := s.table[k];
            && |st.source.queue| <= CAPACITY == 4
            && (st.task.Running? ==> st.discarded == [] && st.failed == 0)
            && (Safe(st) ==>
                  && st.accepted == SumReserved(s.calls, k) + |Flatten(st.source.queue)| + |Retained(st.source)|
                                    + |st.delivered| + |st.discarded| + st.failed
                  && |st.delivered| <= st.accepted <= st.size)
            && SentOf(st.meter) == (|st.delivered| - st.meter.uncounted + st.meter.foreign) % TWO_64
            && (Safe(st) && Alone(st) ==> SentOf(st.meter) + st.meter.uncounted == |st.delivered|)
  {
    var s := After(actions);
    assert StreamInv(s, k);
    DeliveredIsBounded(s, k);
    SentIsBounded(s, k);
    assert Contents(EMPTY) == [] && Flatten<byte>([]) == [];
  }

  /**
   What a poll is answered about a stream that no path upload has named: never more bytes sent than the
   total, which is the declared size. `ProgressSlots` has what happens with one that has.
   */
  lemma SnapshotsAreBounded(actions: seq<Action>, c: nat, k: nat, sent: nat, total: nat)
    requires Interleaving(actions) && c < |After(actions).calls|
    requires After(actions).calls[c].phase == Returned(Snapshot(OfStream(k), sent, total))
    ensures k < |After(actions).table|
    ensures var st := After(actions).table[k]; Safe(st) && Alone(st) ==> sent <= total == st.size
  {
    assert CallInv(After(actions), c);
  }

  /** How often path uploads name a stream in a list of actions. */
  function Namings(actions: seq<Action>, k: nat): (n: nat) {
    if actions == [] then 0
    else (if actions[0].Announce? && actions[0].stream == k then 1 else 0) + Namings(actions[1..], k)
  }

  /** A stream is alone in its counters exactly when no path upload of the interleaving named it. */
  lemma AloneIff(actions: seq<Action>, k: nat)
    requires Interleaving(actions) && k < |After(actions).table|
    ensures Alone(After(actions).table[k]) <==> Namings(actions, k) == 0
  {
    GuestsAreNamings(INIT, actions, k);
  }

  function GuestsOf(s: State, k: nat): (n: nat) {
    if k < |s.table| then s.table[k].meter.guests else 0
  }

  lemma {:induction false} GuestsAreNamings(s: State, actions: seq<Action>, k: nat)
    requires Runs(s, actions)
    ensures GuestsOf(Run(s, actions), k) == GuestsOf(s, k) + Namings(actions, k)
    decreases |actions|
  {
    if actions != [] {
      var a := actions[0];
      if a.Advance? {
        AdvanceKeepsGuests(s, a.call, k);
      }
      GuestsAreNamings(Next(s, a), actions[1..], k);
    }
  }

  lemma AdvanceKeepsGuests(s: State, c: nat, k: nat)
    requires CanAdvance(s, c)
    ensures GuestsOf(AdvanceCall(s, c), k) == GuestsOf(s, k)
  {
    var p := s.calls[c].phase;
    if IsBegin(p) {
      assert GuestsOf(AdvanceBegin(s, c), k) == GuestsOf(s, k);
    } else if IsChunk(p) {
      assert GuestsOf(AdvanceChunk(s, c), k) == GuestsOf(s, k);
    } else if IsFinish(p) {
      assert GuestsOf(AdvanceFinish(s, c), k) == GuestsOf(s, k);
    }
  }

  // ---------------------------------------------------------------- finishing

  /** Once every declared byte has been accepted, no later step changes the accepted count. */
  lemma FullStreamIsFrozen(actions: seq<Action>, more: seq<Action>, k: nat)
    requires Interleaving(actions + more) && Runs(INIT, actions) && Interleaving(actions)
    requires k < |After(actions).table| && Safe(After(actions).table[k])
    requires After(actions).table[k].accepted == After(actions).table[k].size
    ensures k < |After(actions + more).table|
    ensures After(actions + more).table[k].accepted == After(actions).table[k].size
  {
    LaterGrows(actions, more);
    assert Evolves(After(actions).table[k], After(actions + more).table[k]);
  }

  /**
   The reader sees end-of-file only when the owner has let go and no chunk call is still between its
   lookup and its return, so every reserved byte has been delivered.
   */
  lemma EndOfFileIsComplete(actions: seq<Action>, k: nat, room: nat)
    requires Interleaving(actions) && k < |After(actions).table| && room > 0
    requires After(actions).table[k].task.Running?
    requires var st := After(actions).table[k]; Poll(st.source, room, st.senders > 0).0 == Ready([])
    ensures var s := After(actions); var st := s.table[k];
            && st.finisher.Some?
            && (forall c | 0 <= c < |s.calls| :: Holds(s.calls[c].phase, k) == 0)
            && st.delivered == LogBytes(st.log)
            && (Safe(st) ==> st.accepted == |st.delivered|)
  {
    var s := After(actions);
    var st := s.table[k];
    assert StreamInv(s, k);
    PollRefinesByteQueue(st.source, room, st.senders > 0);
    assert st.delivered + [] == st.delivered;
    NoHolderNoReserve(s.calls, k);
    forall c | 0 <= c < |s.calls|
      ensures Holds(s.calls[c].phase, k) == 0
    {
      SumsCover(s.calls, c, k);
    }
  }

  /**
   A finish that returns a handle means the uploader read every accepted chunk, whole and in the
   order they entered the channel, exactly the declared number of bytes; nothing is pending or lost.
   */
  lemma FinishedUploadIsWhole(actions: seq<Action>, f: nat, h: int)
    requires Interleaving(actions) && f < |After(actions).calls|
    requires After(actions).calls[f].phase == Returned(Handle(h))
    ensures var s := After(actions);
            && h in s.uploads && s.uploads[h].stream < |s.table|
            && var k := s.uploads[h].stream;
            && Finishes(s, k, f)
            && |s.uploads[h].content| == s.table[k].size
            && (Safe(s.table[k]) ==>
                  && s.uploads[h].content == LogBytes(s.table[k].log)
                  && s.table[k].failed == 0 && SumReserved(s.calls, k) == 0)
  {
    var s := After(actions);
    assert CallInv(s, f);
    var k := s.uploads[h].stream;
    assert StreamInv(s, k);
    var st := s.table[k];
    if Safe(st) {
      assert |st.delivered| + |st.discarded| == |LogBytes(st.log)|;
      assert st.discarded == [];
      assert st.delivered + [] == st.delivered;
    }
  }

  /** The chunk call was told its chunk is accepted, or is about to be. */
  predicate SentTo(s: State, c: nat, k: nat) {
    c < |s.calls| && (s.calls[c].phase == ChunkLeaving(k, Accepted(k)) || s.calls[c].phase == Returned(Accepted(k)))
  }

  /**
   What entered a stream's channel is the chunks of the calls that are told they were accepted, each
   exactly once, and of no other call.
   */
  lemma LogIsAcceptedCalls(actions: seq<Action>, k: nat)
    requires Interleaving(actions) && k < |After(actions).table|
    ensures var s := After(actions); var log := s.table[k].log;
            && (forall c: nat :: SentTo(s, c, k) <==> exists i :: 0 <= i < |log| && log[i].call == c)
            && (forall i, j | 0 <= i < j < |log| :: log[i].call != log[j].call)
            && (forall i | 0 <= i < |log| ::
                  var call := log[i].call;
                  && call < |s.calls| && s.calls[call].request.Chunk? && s.table[k].id == Some(s.calls[call].request.id)
                  && log[i].bytes == s.calls[call].request.bytes)
  {
    var s := After(actions);
    assert StreamInv(s, k);
    forall c: nat | SentTo(s, c, k)
      ensures InLog(s.table[k], c)
    {
      assert CallInv(s, c);
    }
    assert forall c: nat :: InLog(s.table[k], c) ==> SentTo(s, c, k);
  }

  // ---------------------------------------------------------------- the registry

  /** The id or handle a call has been given, if it has returned one. */
  function Given(p: Phase): (r: Option<int>) {
    if p.Returned? && p.outcome.Id? then Some(p.outcome.id)
    else if p.Returned? && p.outcome.Handle? then Some(p.outcome.handle)
    else None
  }

  /** No two calls are ever given the same id or handle. */
  lemma NothingIsGivenTwice(actions: seq<Action>, c: nat, d: nat)
    requires Interleaving(actions) && c < |After(actions).calls| && d < |After(actions).calls|
    requires Given(After(actions).calls[c].phase).Some?
    requires Given(After(actions).calls[c].phase) == Given(After(actions).calls[d].phase)
    ensures c == d
  {
    var s := After(actions);
    assert CallInv(s, c) && CallInv(s, d);
    var id := Given(s.calls[c].phase).value;
    assert IssuedTo(s, id, c) && IssuedTo(s, id, d);
  }

  /** Open streams are a subset of progress ids, and no upload handle is either. */
  lemma IdsAreApart(actions: seq<Action>)
    requires Interleaving(actions)
    ensures After(actions).streams.Keys <= After(actions).progress.Keys
    ensures After(actions).uploads.Keys !! After(actions).progress.Keys
  {
    var s := After(actions);
    forall id | id in s.streams
      ensures id in s.progress
    {
      assert StreamOk(s, id);
    }
    forall h | h in s.uploads
      ensures h !in s.progress
    {
      assert UploadOk(s, h);
      assert h in s.progress ==> ProgressOk(s, h);
    }
  }

  /** A finish call that got past its lookup, wherever it stands and whatever it returned since. */
  ghost predicate Consumed(s: State, c: nat, id: int) {
    && c < |s.calls| && s.calls[c].request == Finish(id)
    && !s.calls[c].phase.FinishStart? && s.calls[c].phase != Returned(Refused(UnknownStream))
  }

  /**
   At most one finish call ever takes a given stream: when one has got past its lookup, at any point and
   even if it was refused afterwards, every other on the same id at any later point is refused as unknown,
   and the stream is not listed again.
   */
  lemma OneFinishPerStream(actions: seq<Action>, more: seq<Action>, c: nat, d: nat, id: int)
    requires Interleaving(actions + more) && Runs(INIT, actions) && Interleaving(actions)
    requires Consumed(After(actions), c, id) && Consumed(After(actions + more), d, id)
    ensures c == d && id !in After(actions + more).streams
  {
    LaterGrows(actions, more);
    var s, t := After(actions), After(actions + more);
    var j := FinishedStream(s, c, id);
    var k := FinishedStream(t, d, id);
    assert Evolves(s.table[j], t.table[j]);
    assert StreamInv(t, j) && StreamInv(t, k);
    UniqueId(t, j, k);
    NotListed(t, k, id);
  }

  lemma NotListed(s: State, k: nat, id: int)
    requires Inv(s) && k < |s.table| && s.table[k].id == Some(id) && s.table[k].finisher.Some?
    ensures id !in s.streams
  {
    if id in s.streams {
      assert StreamOk(s, id);
      assert StreamInv(s, s.streams[id]) && StreamInv(s, k);
      UniqueId(s, s.streams[id], k);
    }
  }

  lemma FinishedStream(s: State, c: nat, id: int) returns (k: nat)
    requires Inv(s) && Consumed(s, c, id)
    ensures Finishes(s, k, c)
  {
    assert CallInv(s, c);
    var p := s.calls[c].phase;
    if p.Returned? {
      k := TakenBy(s, c, p.outcome);
    } else {
      k := StreamOf(p).value;
    }
  }

  /** The stream a finish that returned had taken. */
  lemma TakenBy(s: State, c: nat, o: Outcome) returns (k: nat)
    requires c < |s.calls| && s.calls[c].request.Finish? && OutcomeOk(s, c, s.calls[c].request, o)
    requires o != Refused(UnknownStream)
    ensures Finishes(s, k, c)
  {
    k := if o.Handle? then s.uploads[o.handle].stream else o.failure.stream;
  }

  /** A returned handle resolves to the same upload in every later state. */
  lemma HandlesKeepResolving(actions: seq<Action>, more: seq<Action>, c: nat, h: int)
    requires Interleaving(actions + more) && Runs(INIT, actions) && Interleaving(actions)
    requires c < |After(actions).calls| && After(actions).calls[c].phase == Returned(Handle(h))
    ensures h in After(actions).uploads && h in After(actions + more).uploads
    ensures After(actions + more).uploads[h] == After(actions).uploads[h]
  {
    assert CallInv(After(actions), c);
    LaterGrows(actions, more);
  }
}
