/**
 The invariant of the streamed-upload protocol and the proof that every step of every interleaving
 keeps it.
 */
module UploadInvariant {
  import opened Wrappers
  import opened UploadReader
  import opened UploadSystem

  // ---------------------------------------------------------------- tallies over the calls

  /** 1 while the phase holds a clone of the stream's sender. */
  function Holds(p: Phase, k: nat): (n: nat) {
    match p
    case ChunkReserving(j, _) => if j == k then 1 else 0
    case ChunkSending(j, _) => if j == k then 1 else 0
    case ChunkLeaving(j, _) => if j == k then 1 else 0
    case _ => 0
  }

  /** The bytes the phase has reserved on the stream and not sent yet. */
  function Reserved(p: Phase, k: nat): (n: nat) {
    match p
    case ChunkSending(j, bytes) => if j == k then |bytes| else 0
    case _ => 0
  }

  function SumHolds(calls: seq<Call>, k: nat): (n: nat) {
    if calls == [] then 0 else SumHolds(calls[..|calls| - 1], k) + Holds(calls[|calls| - 1].phase, k)
  }

  function SumReserved(calls: seq<Call>, k: nat): (n: nat) {
    if calls == [] then 0 else SumReserved(calls[..|calls| - 1], k) + Reserved(calls[|calls| - 1].phase, k)
  }

  lemma {:induction false} SumsUpdate(calls: seq<Call>, c: nat, call: Call, k: nat)
    requires c < |calls|
    ensures SumHolds(calls[c := call], k) == SumHolds(calls, k) - Holds(calls[c].phase, k) + Holds(call.phase, k)
    ensures SumReserved(calls[c := call], k)
            == SumReserved(calls, k) - Reserved(calls[c].phase, k) + Reserved(call.phase, k)
  {
    var last := |calls| - 1;
    if c == last {
      assert calls[c := call][..last] == calls[..last];
    } else {
      SumsUpdate(calls[..last], c, call, k);
      assert calls[c := call][..last] == calls[..last][c := call];
    }
  }

  lemma SumsAppend(calls: seq<Call>, call: Call, k: nat)
    ensures SumHolds(calls + [call], k) == SumHolds(calls, k) + Holds(call.phase, k)
    ensures SumReserved(calls + [call], k) == SumReserved(calls, k) + Reserved(call.phase, k)
  {
    assert (calls + [call])[..|calls|] == calls;
  }

  lemma {:induction false} SumsZero(calls: seq<Call>, k: nat)
    requires forall c | 0 <= c < |calls| :: Holds(calls[c].phase, k) == 0
    ensures SumHolds(calls, k) == 0 && SumReserved(calls, k) == 0
  {
    if calls != [] {
      SumsZero(calls[..|calls| - 1], k);
    }
  }

  /** A call that holds a sender or has bytes reserved counts towards the tallies. */
  lemma {:induction false} SumsCover(calls: seq<Call>, c: nat, k: nat)
    requires c < |calls|
    ensures SumHolds(calls, k) >= Holds(calls[c].phase, k)
    ensures SumReserved(calls, k) >= Reserved(calls[c].phase, k)
  {
    var last := |calls| - 1;
    if c < last {
      SumsCover(calls[..last], c, k);
    }
  }

  /** Some call holds a sender when the tally says so. */
  lemma {:induction false} SumsWitness(calls: seq<Call>, k: nat) returns (c: nat)
    requires SumHolds(calls, k) > 0
    ensures c < |calls| && Holds(calls[c].phase, k) > 0
  {
    var last := |calls| - 1;
    if Holds(calls[last].phase, k) > 0 {
      c := last;
    } else {
      c := SumsWitness(calls[..last], k);
    }
  }

  /** Reserved bytes are reserved by calls that hold a sender. */
  lemma {:induction false} NoHolderNoReserve(calls: seq<Call>, k: nat)
    requires SumHolds(calls, k) == 0
    ensures SumReserved(calls, k) == 0
  {
    if calls != [] {
      NoHolderNoReserve(calls[..|calls| - 1], k);
    }
  }

  // ---------------------------------------------------------------- the invariant

  /** The stream's declared size leaves that room. */
  ghost predicate Safe(st: Stream) {
    Fits(st.size)
  }

  /** No path upload has named the stream's progress id. */
  ghost predicate Alone(st: Stream) {
    st.meter.guests == 0
  }

  ghost predicate IssuedTo(s: State, id: int, c: nat) {
    0 <= Draw(id) < |s.issued| && HandleAt(Draw(id)) == id && s.issued[Draw(id)] == c
  }

  ghost predicate InLog(st: Stream, c: nat) {
    exists i :: 0 <= i < |st.log| && st.log[i].call == c
  }

  /** The call is a chunk call naming the stream's id. */
  ghost predicate OnStream(s: State, k: nat, request: Request) {
    k < |s.table| && request.Chunk? && s.table[k].id == Some(request.id) && request.bytes != []
    && |request.bytes| <= LONGEST
  }

  /** The call is the finish call that took the stream. */
  ghost predicate Finishes(s: State, k: nat, c: nat) {
    c < |s.calls| && s.calls[c].request.Finish? && k < |s.table|
    && s.table[k].id == Some(s.calls[c].request.id) && s.table[k].finisher == Some(c)
  }

  /** Every declared byte has been accepted. */
  ghost predicate Full(st: Stream) {
    Safe(st) ==> st.accepted == st.size
  }

  /** The progress id names the slot, and the stream it is of exists. */
  ghost predicate NamesSlot(s: State, id: int, slot: Slot) {
    id in s.progress && s.progress[id] == slot && SlotExists(s, slot)
  }

  /** A chunk of that length does not fit any more. */
  ghost predicate TooMany(st: Stream, length: nat) {
    Safe(st) ==> st.accepted <= st.size < st.accepted + length
  }

  /** What a chunk call that has entered a stream may be refused for. */
  ghost predicate ChunkRefusalOk(s: State, request: Request, f: Failure) {
    || (f.TooManyBytes? && OnStream(s, f.stream, request) && TooMany(s.table[f.stream], |request.bytes|))
    || (f.NotAccepting? && OnStream(s, f.stream, request) && !s.table[f.stream].task.Running?)
  }

  /** Nothing is refused but for cause. */
  ghost predicate RefusalOk(s: State, c: nat, request: Request, f: Failure) {
    match request
    case Chunk(_, _, _) => f.UnknownStream? || ChunkRefusalOk(s, request, f)
    case Finish(_) =>
      || f.UnknownStream?
      || (f.ShortStream? && Finishes(s, f.stream, c))
      || (f.TaskFailed? && Finishes(s, f.stream, c) && s.table[f.stream].task == Failed)
    case BadChunk(_, _) => f.InvalidBase64?
    case Progress(_) => f.UnknownProgress?
    case _ => false
  }

  ghost predicate OutcomeOk(s: State, c: nat, request: Request, o: Outcome) {
    match o
    case Id(id) => (request.Begin? || request.BeginProgress?) && IssuedTo(s, id, c) && id in s.progress
    case AcceptedEmpty => request.Chunk? && request.bytes == []
    case Accepted(k) => OnStream(s, k, request) && InLog(s.table[k], c)
    case Handle(h) =>
      && IssuedTo(s, h, c) && h in s.uploads
      && var k := s.uploads[h].stream;
      && Finishes(s, k, c) && Full(s.table[k]) && s.table[k].task == Succeeded(s.uploads[h].content)
    case Snapshot(slot, sent, total) =>
      && request.Progress? && NamesSlot(s, request.id, slot)
      && (slot.OfStream? && Safe(s.table[slot.stream]) && Alone(s.table[slot.stream]) ==>
            sent <= total == s.table[slot.stream].size)
      && (slot.OfPath? ==> sent == 0 && total == slot.total)
    case Refused(f) => RefusalOk(s, c, request, f)
  }

  ghost predicate CallInv(s: State, c: nat)
    requires c < |s.calls|
  {
    var request := s.calls[c].request;
    match s.calls[c].phase
    case BeginStart(size) => request == Begin(size) && size < TWO_64
    case BeginSpawned(k) => request.Begin? && k < |s.table| && s.table[k].opener == c
    case BeginNumbered(k, id) => request.Begin? && k < |s.table| && s.table[k].opener == c && IssuedTo(s, id, c)
    case BeginListed(k, id) => request.Begin? && k < |s.table| && s.table[k].opener == c && IssuedTo(s, id, c)
    case ChunkStart(id, bytes) =>
      request.Chunk? && request.id == id && request.bytes == bytes != [] && |bytes| <= LONGEST
    case ChunkReserving(k, bytes) => OnStream(s, k, request) && request.bytes == bytes
    case ChunkSending(k, bytes) => OnStream(s, k, request) && request.bytes == bytes
    case ChunkLeaving(k, o) =>
      && OnStream(s, k, request)
      && if o.Refused? then ChunkRefusalOk(s, request, o.failure) else o == Accepted(k) && InLog(s.table[k], c)
    case FinishStart(id) => request == Finish(id)
    case FinishTaken(k) => Finishes(s, k, c)
    case FinishChecking(k) => Finishes(s, k, c)
    case FinishAwaiting(k) => Finishes(s, k, c) && Full(s.table[k])
    case FinishRegistering(k, content) =>
      Finishes(s, k, c) && Full(s.table[k]) && s.table[k].task == Succeeded(content)
    case FinishNumbered(k, content, h) =>
      Finishes(s, k, c) && Full(s.table[k]) && s.table[k].task == Succeeded(content) && IssuedTo(s, h, c)
    case SlotStart(total) => request == BeginProgress(total)
    case SlotNumbered(total, id) => request == BeginProgress(total) && IssuedTo(s, id, c)
    case PollStart(id) => request == Progress(id)
    case PollHolding(slot) => request.Progress? && NamesSlot(s, request.id, slot)
    case PollHalf(slot, sent) =>
      && request.Progress? && NamesSlot(s, request.id, slot)
      && (slot.OfStream? && Safe(s.table[slot.stream]) && Alone(s.table[slot.stream]) ==>
            sent <= s.table[slot.stream].size)
      && (slot.OfPath? ==> sent == 0)
    case Returned(o) => OutcomeOk(s, c, request, o)
  }

  /** The owner's own sender is alive: no finish call has dropped it yet. */
  ghost predicate Owned(s: State, k: nat)
    requires k < |s.table|
  {
    match s.table[k].finisher
    case None => true
    case Some(f) => f < |s.calls| && s.calls[f].phase == FinishTaken(k)
  }

  /** Senders are counted, and every accepted byte is accounted for. */
  ghost predicate Counts(s: State, k: nat)
    requires k < |s.table|
  {
    var st := s.table[k];
    && st.senders == (if Owned(s, k) then 1 else 0) + SumHolds(s.calls, k)
    && (Safe(st) ==>
          && st.accepted == SumReserved(s.calls, k) + |LogBytes(st.log)| + st.failed
          && st.accepted <= st.size)
  }

  /** The counters are what the reader and the path uploads counted. */
  ghost predicate Metered(st: Stream) {
    var m := st.meter;
    && m.uncounted <= |st.delivered| && (m.uncounted > 0 ==> st.task.Running?)
    && m.counted == |st.delivered| - m.uncounted + m.foreign
    && m.foreign <= m.announced
    && (m.guests == 0 ==> m.announced == 0 && m.total == st.size)
  }

  /** What was put into the channel is delivered, held or discarded, in order. */
  ghost predicate Bytes(st: Stream) {
    && st.size < TWO_64
    && (st.task.Running? ==>
          st.delivered + Contents(st.source) == LogBytes(st.log) && st.discarded == [] && st.failed == 0)
    && (!st.task.Running? ==> st.source == EMPTY && st.delivered + st.discarded == LogBytes(st.log))
    && (st.task.Succeeded? ==> st.task.content == st.delivered && |st.delivered| == st.size)
    && Metered(st)
    && |st.source.queue| <= CAPACITY
    && forall i | 0 <= i < |st.source.queue| :: st.source.queue[i] != []
  }

  /** The opener is where the registry says it is, and a stream leaves the registry with its finisher. */
  ghost predicate Roles(s: State, k: nat)
    requires k < |s.table|
  {
    var st := s.table[k];
    && st.opener < |s.calls|
    && s.calls[st.opener].request == Begin(st.size)
    && (st.finisher.Some? ==> st.finisher.value < |s.calls| && s.calls[st.finisher.value].request.Finish?)
    && (st.id.Some? ==> IssuedTo(s, st.id.value, st.opener))
    && match s.calls[st.opener].phase
       case BeginSpawned(j) => j == k && st.id == None && st.finisher == None
       case BeginNumbered(j, id) => j == k && st.id == Some(id) && st.finisher == None && id !in s.progress
       case BeginListed(j, id) =>
         && j == k && st.id == Some(id) && st.finisher == None
         && id in s.progress && s.progress[id] == OfStream(k) && id !in s.streams
       case Returned(o) =>
         && o.Id? && st.id == Some(o.id) && o.id in s.progress && s.progress[o.id] == OfStream(k)
         && (o.id in s.streams <==> st.finisher == None)
       case _ => false
  }

  /** The phases of a chunk call whose chunk is in the channel. */
  ghost predicate Delivered(p: Phase, k: nat) {
    p == ChunkLeaving(k, Accepted(k)) || p == Returned(Accepted(k))
  }

  /** Each log entry is the chunk of one call, which was told it is accepted. */
  ghost predicate LogInv(s: State, k: nat)
    requires k < |s.table|
  {
    var log := s.table[k].log;
    && (forall i {:trigger log[i]} | 0 <= i < |log| ::
          && log[i].call < |s.calls|
          && OnStream(s, k, s.calls[log[i].call].request)
          && s.calls[log[i].call].request.bytes == log[i].bytes
          && Delivered(s.calls[log[i].call].phase, k))
    && (forall i, j {:trigger log[i], log[j]} | 0 <= i < j < |log| :: log[i].call != log[j].call)
  }

  ghost predicate StreamInv(s: State, k: nat)
    requires k < |s.table|
  {
    Counts(s, k) && Bytes(s.table[k]) && Roles(s, k) && LogInv(s, k)
  }

  ghost predicate ProgressOk(s: State, id: int)
    requires id in s.progress
  {
    && 0 <= Draw(id) < |s.issued| && HandleAt(Draw(id)) == id
    && (s.progress[id].OfStream? ==>
          var k := s.progress[id].stream; k < |s.table| && s.table[k].id == Some(id))
    && var c := s.issued[Draw(id)];
    && c < |s.calls|
    && (s.progress[id].OfPath? ==> s.calls[c].request == BeginProgress(s.progress[id].total))
    && match s.calls[c].phase
       case BeginListed(_, i) => i == id
       case Returned(o) => o == Id(id)
       case _ => false
  }

  ghost predicate UploadOk(s: State, h: int) {
    && 0 <= Draw(h) < |s.issued| && HandleAt(Draw(h)) == h
    && var c := s.issued[Draw(h)];
    && c < |s.calls| && s.calls[c].phase == Returned(Handle(h))
  }

  ghost predicate StreamOk(s: State, id: int)
    requires id in s.streams
  {
    && id in s.progress && s.streams[id] < |s.table|
    && s.table[s.streams[id]].id == Some(id) && s.table[s.streams[id]].finisher == None
  }

  ghost predicate RegistryInv(s: State) {
    && |s.issued| <= TWO_64
    && (forall n | 0 <= n < |s.issued| :: s.issued[n] < |s.calls|)
    && (forall id | id in s.streams :: StreamOk(s, id))
    && (forall id | id in s.progress :: ProgressOk(s, id))
    && (forall h | h in s.uploads :: UploadOk(s, h))
  }

  ghost predicate Inv(s: State) {
    && RegistryInv(s)
    && (forall k | 0 <= k < |s.table| :: StreamInv(s, k))
    && (forall c | 0 <= c < |s.calls| :: CallInv(s, c))
  }

  // ---------------------------------------------------------------- what never goes back

  ghost predicate Evolves(a: Stream, b: Stream) {
    && a.opener == b.opener && a.size == b.size
    && (a.id.Some? ==> a.id == b.id)
    && (a.finisher.Some? ==> a.finisher == b.finisher)
    && a.log <= b.log
    && a.delivered <= b.delivered
    && a.meter.guests <= b.meter.guests
    && (!a.task.Running? ==> b.task == a.task && b.delivered == a.delivered)
    && (Safe(a) && a.accepted == a.size ==> b.accepted == a.accepted)
    && (Safe(a) && a.accepted <= a.size ==> a.accepted <= b.accepted <= a.size)
  }

  ghost predicate Grows(s: State, t: State) {
    && |s.table| <= |t.table| && (forall k | 0 <= k < |s.table| :: Evolves(s.table[k], t.table[k]))
    && s.issued <= t.issued
    && (forall id | id in s.progress :: id in t.progress && t.progress[id] == s.progress[id])
    && (forall h | h in s.uploads :: h in t.uploads && t.uploads[h] == s.uploads[h])
    && |s.calls| <= |t.calls|
    && (forall c | 0 <= c < |s.calls| :: t.calls[c].request == s.calls[c].request)
    && (forall c | 0 <= c < |s.calls| && s.calls[c].phase.Returned? :: t.calls[c].phase == s.calls[c].phase)
  }

  lemma CallInvGrows(s: State, t: State, c: nat)
    requires c < |s.calls| && CallInv(s, c) && Grows(s, t) && t.calls[c] == s.calls[c]
    ensures CallInv(t, c)
  {
    var p := s.calls[c].phase;
    if p.Returned? {
      OutcomeGrows(s, t, c, s.calls[c].request, p.outcome);
    } else if p.PollHalf? {
      if p.slot.OfStream? {
        assert Evolves(s.table[p.slot.stream], t.table[p.slot.stream]);
      }
    } else if p.ChunkLeaving? {
      assert Evolves(s.table[p.stream], t.table[p.stream]);
      InLogGrows(s.table[p.stream], t.table[p.stream], c);
    } else if p.FinishTaken? || p.FinishChecking? || p.FinishAwaiting? || p.FinishRegistering? || p.FinishNumbered? {
      FinishGrows(s, t, c, p.stream);
    } else if StreamOf(p).Some? {
      assert Evolves(s.table[StreamOf(p).value], t.table[StreamOf(p).value]);
    }
  }

  lemma FinishGrows(s: State, t: State, c: nat, k: nat)
    requires Finishes(s, k, c) && Grows(s, t) && c < |t.calls| && t.calls[c] == s.calls[c]
    ensures Finishes(t, k, c)
    ensures Full(s.table[k]) ==> Full(t.table[k])
    ensures s.table[k].task.Succeeded? ==> t.table[k].task == s.table[k].task
  {
    assert Evolves(s.table[k], t.table[k]);
  }

  lemma OutcomeGrows(s: State, t: State, c: nat, request: Request, o: Outcome)
    requires c < |s.calls| && OutcomeOk(s, c, request, o) && Grows(s, t)
    ensures OutcomeOk(t, c, request, o)
  {
    match o
    case Accepted(k) =>
      assert Evolves(s.table[k], t.table[k]);
      InLogGrows(s.table[k], t.table[k], c);
    case Refused(f) =>
      if f.ShortStream? || f.TaskFailed? || f.TooManyBytes? || f.NotAccepting? {
        assert RefusalOk(s, c, request, f) ==> Evolves(s.table[f.stream], t.table[f.stream]);
      }
    case Snapshot(slot, _, _) =>
      assert slot.OfStream? ==> Evolves(s.table[slot.stream], t.table[slot.stream]);
    case Handle(h) =>
      var k := s.uploads[h].stream;
      assert Evolves(s.table[k], t.table[k]);
    case _ =>
  }

  lemma InLogGrows(a: Stream, b: Stream, c: nat)
    requires a.log <= b.log
    ensures InLog(a, c) ==> InLog(b, c)
  {
    if InLog(a, c) {
      var i :| 0 <= i < |a.log| && a.log[i].call == c;
      assert b.log[i].call == c;
    }
  }
}
