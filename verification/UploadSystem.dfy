/**
 The streamed-upload protocol of `native/src/client.rs`, `native/src/ops/files.rs` and
 `native/src/upload.rs` as a labelled transition system.

 A state holds every stream ever opened, the registry's three maps and its id counter, and every
 operation ever invoked with the point it has reached. One action is one atomic step of one thread
 (a lock held for one lookup or insert, one atomic operation, one channel send, one sender dropped)
 or one poll or end of an upload task, so a list of actions is an interleaving.
 */
module UploadSystem {
  import opened Wrappers
  import opened UploadReader
  import Base64

  /** One past the largest `i64`; also one past the largest length of a `Vec<u8>`. */
  const TWO_63: nat := 0x8000_0000_0000_0000

  /** The longest chunk a text can decode to: a `str` is shorter than 2^63 bytes. */
  const LONGEST: nat := 0x5FFF_FFFF_FFFF_FFFD

  /** The declared size leaves room below 2^64 for the longest chunk, so that no reservation can wrap. */
  predicate Fits(size: nat) {
    size + LONGEST < TWO_64
  }

  // ---------------------------------------------------------------- ids

  /** The `i64` that the `n`-th `fetch_add(1)` on the counter answers, which wraps. */
  function HandleAt(n: nat): (id: int)
    ensures -0x8000_0000_0000_0000 <= id < 0x8000_0000_0000_0000
  {
    var m := n % TWO_64;
    if m < TWO_63 then m else m - TWO_64
  }

  /** Which draw of the counter an id is. */
  function Draw(id: int): (n: int) {
    if id >= 0 then id else id + TWO_64
  }

  lemma DrawOfHandle(n: nat)
    requires n < TWO_64
    ensures Draw(HandleAt(n)) == n
  {
  }

  /** Ids are distinct for the first 2^64 draws, far past the sign wrap, and not one draw longer. */
  lemma HandlesAreDistinctExactlyFor(draws: nat)
    ensures (forall m, n | 0 <= m < n < draws :: HandleAt(m) != HandleAt(n)) <==> draws <= TWO_64
  {
    if draws <= TWO_64 {
      forall m, n | 0 <= m < n < draws
        ensures HandleAt(m) != HandleAt(n)
      {
        DrawOfHandle(m);
        DrawOfHandle(n);
      }
    } else {
      assert HandleAt(0) == HandleAt(TWO_64);
    }
  }

  // ---------------------------------------------------------------- state

  datatype Request =
    | Begin(size: nat)
    | Chunk(id: int, text: seq<byte>, bytes: seq<byte>)
    | BadChunk(id: int, text: seq<byte>)
    | Finish(id: int)
    | BeginProgress(total: nat)
    | Progress(id: int)

  datatype Failure =
    | InvalidBase64 | UnknownStream | UnknownProgress
    | TooManyBytes(stream: nat) | NotAccepting(stream: nat) | ShortStream(stream: nat) | TaskFailed(stream: nat)

  datatype Outcome =
    | Id(id: int)
    | AcceptedEmpty
    | Accepted(stream: nat)
    | Handle(handle: int)
    | Snapshot(slot: Slot, sent: nat, total: nat)
    | Refused(failure: Failure)

  /** What a progress id names: a stream's counters, or a slot for a path upload. */
  datatype Slot = OfStream(stream: nat) | OfPath(total: nat)

  /** Where a call stands: between which of its atomic steps. */
  datatype Phase =
    // start_stream_upload
    | BeginStart(size: nat)
    | BeginSpawned(stream: nat)
    | BeginNumbered(stream: nat, id: int)
    | BeginListed(stream: nat, id: int)
    // append_stream
    | ChunkStart(id: int, bytes: seq<byte>)
    | ChunkReserving(stream: nat, bytes: seq<byte>)
    | ChunkSending(stream: nat, bytes: seq<byte>)
    | ChunkLeaving(stream: nat, outcome: Outcome)
    // upload_stream_finish
    | FinishStart(id: int)
    | FinishTaken(stream: nat)
    | FinishChecking(stream: nat)
    | FinishAwaiting(stream: nat)
    | FinishRegistering(stream: nat, content: seq<byte>)
    | FinishNumbered(stream: nat, content: seq<byte>, handle: int)
    // begin_progress
    | SlotStart(total: nat)
    | SlotNumbered(total: nat, id: int)
    // upload_progress
    | PollStart(id: int)
    | PollHolding(slot: Slot)
    | PollHalf(slot: Slot, sent: nat)
    | Returned(outcome: Outcome)

  datatype Call = Call(request: Request, phase: Phase)

  /** A chunk put into the channel, and the call that put it there. */
  datatype Sent = Sent(call: nat, bytes: seq<byte>)

  /** The upload task: `Succeeded` carries what the uploader had read when it answered. */
  datatype Task = Running | Succeeded(content: seq<byte>) | Failed

  /**
   A stream's `UploadProgress`: its total, everything added to its sent count, and the bytes the last read
   handed over that the reader has not added yet. A path upload may name the stream's progress id too:
   `guests` is how many did, `announced` the sum of their files' sizes, `foreign` the bytes they added.
   */
  datatype Meter = Meter(total: nat, counted: nat, uncounted: nat, guests: nat, announced: nat, foreign: nat)

  /** What the `u64` holds that all of this was added to. */
  function SentOf(m: Meter): (n: nat) {
    m.counted % TWO_64
  }

  /**
   One `StreamUpload` with its channel, reader, counters and task. `opener`, `finisher`, `log`,
   `delivered`, `discarded` and `failed` record history: the calls that opened and took the stream,
   the chunks enqueued in order, the bytes the uploader has read, the bytes thrown away with the
   receiver, and how many reserved bytes failed to be sent.
   */
  datatype Stream = Stream(
    id: Option<int>,
    opener: nat,
    finisher: Option<nat>,
    size: nat,
    accepted: nat,
    senders: nat,
    source: Source,
    meter: Meter,
    task: Task,
    delivered: seq<byte>,
    discarded: seq<byte>,
    failed: nat,
    log: seq<Sent>)

  datatype Uploaded = Uploaded(stream: nat, content: seq<byte>)

  /** `issued` lists the call each draw of the id counter was made by. */
  datatype State = State(
    table: seq<Stream>,
    issued: seq<nat>,
    streams: map<int, nat>,
    progress: map<int, Slot>,
    uploads: map<int, Uploaded>,
    calls: seq<Call>)

  const INIT: State := State([], [], map[], map[], map[], [])

  function NewStream(opener: nat, size: nat): Stream {
    Stream(None, opener, None, size, 0, 1, EMPTY, Meter(size, 0, 0, 0, 0, 0), Running, [], [], 0, [])
  }

  function LogBytes(log: seq<Sent>): (b: seq<byte>) {
    if log == [] then [] else LogBytes(log[..|log| - 1]) + log[|log| - 1].bytes
  }

  // ---------------------------------------------------------------- steps

  datatype Action =
    | Invoke(request: Request)
    | Advance(call: nat)
    | Read(stream: nat, room: nat)
    | Count(stream: nat)
    | Announce(stream: nat, size: nat)
    | CountPath(stream: nat, bytes: nat)
    | Succeed(stream: nat)
    | Fail(stream: nat)

  /** The compare-and-swap of `append_stream`, in `u64` arithmetic. */
  function Reserve(current: nat, length: nat, size: nat): (r: Option<nat>) {
    var sum := (current + length) % TWO_64;
    if sum <= size then Some(sum) else None
  }

  /** The point a request starts at once its payload is decoded. */
  function Entry(request: Request): (p: Phase) {
    match request
    case Begin(size) => BeginStart(size)
    case Chunk(id, _, bytes) => if bytes == [] then Returned(AcceptedEmpty) else ChunkStart(id, bytes)
    case BadChunk(_, _) => Returned(Refused(InvalidBase64))
    case Finish(id) => FinishStart(id)
    case BeginProgress(total) => SlotStart(total)
    case Progress(id) => PollStart(id)
  }

  /** The requests a caller can make: sizes are `u64`, and a chunk's bytes are what its text decodes to. */
  predicate Admissible(request: Request) {
    match request
    case Begin(size) => size < TWO_64
    case Chunk(_, text, bytes) => Base64.Decoded(text) == Ok(bytes) && |text| < TWO_63
    case BadChunk(_, text) => Base64.Decoded(text).Err?
    case _ => true
  }

  lemma ChunkFits(id: int, text: seq<byte>, bytes: seq<byte>)
    requires Admissible(Request.Chunk(id, text, bytes))
    ensures |bytes| <= LONGEST
  {
    Base64.DecodedLength(text);
  }

  /** The stream a call works on, if it holds one. */
  function StreamOf(p: Phase): (k: Option<nat>) {
    match p
    case BeginSpawned(k) => Some(k)
    case BeginNumbered(k, _) => Some(k)
    case BeginListed(k, _) => Some(k)
    case ChunkReserving(k, _) => Some(k)
    case ChunkSending(k, _) => Some(k)
    case ChunkLeaving(k, _) => Some(k)
    case FinishTaken(k) => Some(k)
    case FinishChecking(k) => Some(k)
    case FinishAwaiting(k) => Some(k)
    case FinishRegistering(k, _) => Some(k)
    case FinishNumbered(k, _, _) => Some(k)
    case _ => None
  }

  predicate SlotExists(s: State, slot: Slot) {
    slot.OfStream? ==> slot.stream < |s.table|
  }

  /** A call can take its next step: it has not returned and does not wait for the uploader. */
  predicate CanAdvance(s: State, c: nat) {
    && c < |s.calls|
    && var p := s.calls[c].phase;
    && (StreamOf(p).Some? ==> StreamOf(p).value < |s.table|)
    && match p
       case Returned(_) => false
       case ChunkStart(id, _) => id in s.streams ==> s.streams[id] < |s.table|
       case FinishStart(id) => id in s.streams ==> s.streams[id] < |s.table|
       case ChunkSending(k, _) => s.table[k].task.Running? ==> |s.table[k].source.queue| < CAPACITY
       case ChunkLeaving(k, _) => s.table[k].senders > 0
       case FinishTaken(k) => s.table[k].senders > 0
       case FinishAwaiting(k) => !s.table[k].task.Running?
       case PollHolding(slot) => SlotExists(s, slot)
       case PollHalf(slot, _) => SlotExists(s, slot)
       case _ => true
  }

  /** The upload task is running and in no middle of a poll. */
  predicate AtRest(s: State, k: nat) {
    k < |s.table| && s.table[k].task.Running? && s.table[k].meter.uncounted == 0
  }

  predicate Enabled(s: State, a: Action) {
    match a
    case Invoke(request) => Admissible(request)
    case Advance(c) => CanAdvance(s, c)
    // The reader is not polled again before it has counted what it handed over, nor does its task end.
    case Read(k, _) => AtRest(s, k)
    case Count(k) => k < |s.table| && s.table[k].task.Running? && s.table[k].meter.uncounted > 0
    // A path upload finds the stream's counters under its progress id, and reads no more than it announced.
    case Announce(k, size) =>
      k < |s.table| && size < TWO_64 && s.table[k].id.Some? && s.table[k].id.value in s.progress
    case CountPath(k, bytes) =>
      k < |s.table| && s.table[k].meter.foreign + bytes <= s.table[k].meter.announced
    // The uploader answers Ok only after reading exactly the declared size.
    case Succeed(k) => AtRest(s, k) && |s.table[k].delivered| == s.table[k].size
    // A network error, or the cancellation an abort asked for.
    case Fail(k) => AtRest(s, k)
  }

  function Goto(s: State, c: nat, p: Phase): (t: State)
    requires c < |s.calls|
  {
    s.(calls := s.calls[c := s.calls[c].(phase := p)])
  }

  function Put(s: State, k: nat, st: Stream): (t: State)
    requires k < |s.table|
  {
    s.(table := s.table[k := st])
  }

  /** Only call `c` moved, and it drew at most one id. */
  predicate OnlyMoved(s: State, t: State, c: nat) {
    && c < |s.calls| && |t.calls| == |s.calls|
    && t.calls == s.calls[c := s.calls[c].(phase := t.calls[c].phase)]
    && s.issued <= t.issued && |t.issued| <= |s.issued| + 1
  }

  predicate IsBegin(p: Phase) {
    p.BeginStart? || p.BeginSpawned? || p.BeginNumbered? || p.BeginListed?
  }

  predicate IsChunk(p: Phase) {
    p.ChunkStart? || p.ChunkReserving? || p.ChunkSending? || p.ChunkLeaving?
  }

  predicate IsFinish(p: Phase) {
    || p.FinishStart? || p.FinishTaken? || p.FinishChecking?
    || p.FinishAwaiting? || p.FinishRegistering? || p.FinishNumbered?
  }

  /** `start_stream_upload`: spawn the reader, draw the id, list the progress, list the stream. */
  function AdvanceBegin(s: State, c: nat): (t: State)
    requires CanAdvance(s, c) && IsBegin(s.calls[c].phase)
    ensures OnlyMoved(s, t, c)
  {
    match s.calls[c].phase
    case BeginStart(size) =>
      Goto(s.(table := s.table + [NewStream(c, size)]), c, BeginSpawned(|s.table|))
    case BeginSpawned(k) =>
      var id := HandleAt(|s.issued|);
      Goto(Put(s, k, s.table[k].(id := Some(id))).(issued := s.issued + [c]), c, BeginNumbered(k, id))
    case BeginNumbered(k, id) =>
      Goto(s.(progress := s.progress[id := OfStream(k)]), c, BeginListed(k, id))
    case BeginListed(k, id) =>
      Goto(s.(streams := s.streams[id := k]), c, Returned(Id(id)))
  }

  /** `append_stream`: clone the sender, reserve the bytes, send the chunk, drop the clone. */
  function AdvanceChunk(s: State, c: nat): (t: State)
    requires CanAdvance(s, c) && IsChunk(s.calls[c].phase)
    ensures OnlyMoved(s, t, c)
  {
    match s.calls[c].phase
    case ChunkStart(id, bytes) =>
      if id in s.streams then
        var k := s.streams[id];
        Goto(Put(s, k, s.table[k].(senders := s.table[k].senders + 1)), c, ChunkReserving(k, bytes))
      else Goto(s, c, Returned(Refused(UnknownStream)))
    case ChunkReserving(k, bytes) =>
      (match Reserve(s.table[k].accepted, |bytes|, s.table[k].size)
       case Some(sum) => Goto(Put(s, k, s.table[k].(accepted := sum)), c, ChunkSending(k, bytes))
       case None => Goto(s, c, ChunkLeaving(k, Refused(TooManyBytes(k)))))
    case ChunkSending(k, bytes) =>
      var st := s.table[k];
      if st.task.Running? then
        Goto(Put(s, k, Enqueued(st, Sent(c, bytes))), c, ChunkLeaving(k, Accepted(k)))
      else
        Goto(Put(s, k, st.(failed := st.failed + |bytes|)), c, ChunkLeaving(k, Refused(NotAccepting(k))))
    case ChunkLeaving(k, outcome) =>
      Goto(Put(s, k, s.table[k].(senders := s.table[k].senders - 1)), c, Returned(outcome))
  }

  function Enqueued(st: Stream, entry: Sent): (r: Stream) {
    st.(source := st.source.(queue := st.source.queue + [entry.bytes]), log := st.log + [entry])
  }

  /** `upload_stream_finish`: take the stream, drop its sender, compare the counts, await, register. */
  function AdvanceFinish(s: State, c: nat): (t: State)
    requires CanAdvance(s, c) && IsFinish(s.calls[c].phase)
    ensures OnlyMoved(s, t, c)
  {
    match s.calls[c].phase
    case FinishStart(id) =>
      if id in s.streams then
        var k := s.streams[id];
        Goto(Put(s, k, s.table[k].(finisher := Some(c))).(streams := s.streams - {id}), c, FinishTaken(k))
      else Goto(s, c, Returned(Refused(UnknownStream)))
    case FinishTaken(k) =>
      Goto(Put(s, k, s.table[k].(senders := s.table[k].senders - 1)), c, FinishChecking(k))
    case FinishChecking(k) =>
      Goto(s, c, if s.table[k].accepted == s.table[k].size then FinishAwaiting(k)
                 else Returned(Refused(ShortStream(k))))
    case FinishAwaiting(k) =>
      Goto(s, c, if s.table[k].task.Succeeded? then FinishRegistering(k, s.table[k].task.content)
                 else Returned(Refused(TaskFailed(k))))
    case FinishRegistering(k, content) =>
      var handle := HandleAt(|s.issued|);
      Goto(s.(issued := s.issued + [c]), c, FinishNumbered(k, content, handle))
    case FinishNumbered(k, content, handle) =>
      Goto(s.(uploads := s.uploads[handle := Uploaded(k, content)]), c, Returned(Handle(handle)))
  }

  /** `begin_progress`: draw the id, list the slot. `upload_progress`: look up, load `sent`, load `total`. */
  function AdvanceProgress(s: State, c: nat): (t: State)
    requires CanAdvance(s, c)
    requires var p := s.calls[c].phase; !IsBegin(p) && !IsChunk(p) && !IsFinish(p)
    ensures OnlyMoved(s, t, c)
  {
    match s.calls[c].phase
    case SlotStart(total) =>
      var id := HandleAt(|s.issued|);
      Goto(s.(issued := s.issued + [c]), c, SlotNumbered(total, id))
    case SlotNumbered(total, id) =>
      Goto(s.(progress := s.progress[id := OfPath(total)]), c, Returned(Id(id)))
    case PollStart(id) =>
      Goto(s, c, if id in s.progress then PollHolding(s.progress[id]) else Returned(Refused(UnknownProgress)))
    case PollHolding(slot) =>
      Goto(s, c, PollHalf(slot, if slot.OfStream? then SentOf(s.table[slot.stream].meter) else 0))
    case PollHalf(slot, sent) =>
      var total := if slot.OfStream? then s.table[slot.stream].meter.total else slot.total;
      Goto(s, c, Returned(Snapshot(slot, sent, total)))
  }

  function AdvanceCall(s: State, c: nat): (t: State)
    requires CanAdvance(s, c)
    ensures OnlyMoved(s, t, c)
  {
    var p := s.calls[c].phase;
    if IsBegin(p) then AdvanceBegin(s, c)
    else if IsChunk(p) then AdvanceChunk(s, c)
    else if IsFinish(p) then AdvanceFinish(s, c)
    else AdvanceProgress(s, c)
  }

  /** The receiver is dropped with its reader: what the channel and the reader still hold is lost. */
  function EndTask(st: Stream, task: Task): (r: Stream) {
    st.(task := task, source := EMPTY, discarded := Contents(st.source))
  }

  function ReadStream(st: Stream, room: nat): (r: Stream) {
    var (answer, after) := Poll(st.source, room, st.senders > 0);
    var out := if answer.Ready? then answer.bytes else [];
    st.(source := after, delivered := st.delivered + out, meter := st.meter.(uncounted := |out|))
  }

  /** The reader's `fetch_add` for what its last poll handed over. */
  function CountRead(m: Meter): (r: Meter) {
    m.(counted := m.counted + m.uncounted, uncounted := 0)
  }

  /** A path upload's `set_total`, and one of its `fetch_add`s. */
  function AnnouncePath(m: Meter, size: nat): (r: Meter) {
    m.(total := size, guests := m.guests + 1, announced := m.announced + size)
  }

  function CountPathRead(m: Meter, bytes: nat): (r: Meter) {
    m.(counted := m.counted + bytes, foreign := m.foreign + bytes)
  }

  /** On the `u64` these two are the wrapping addition of `fetch_add`. */
  lemma CountsWrap(m: Meter, bytes: nat)
    ensures SentOf(CountRead(m)) == (SentOf(m) + m.uncounted) % TWO_64
    ensures SentOf(CountPathRead(m, bytes)) == (SentOf(m) + bytes) % TWO_64
  {
  }

  function PutMeter(s: State, k: nat, m: Meter): (t: State)
    requires k < |s.table|
  {
    Put(s, k, s.table[k].(meter := m))
  }

  function Next(s: State, a: Action): (t: State)
    requires Enabled(s, a)
  {
    match a
    case Invoke(request) => s.(calls := s.calls + [Call(request, Entry(request))])
    case Advance(c) => AdvanceCall(s, c)
    case Read(k, room) => Put(s, k, ReadStream(s.table[k], room))
    case Count(k) => PutMeter(s, k, CountRead(s.table[k].meter))
    case Announce(k, size) => PutMeter(s, k, AnnouncePath(s.table[k].meter, size))
    case CountPath(k, bytes) => PutMeter(s, k, CountPathRead(s.table[k].meter, bytes))
    case Succeed(k) => Put(s, k, EndTask(s.table[k], Succeeded(s.table[k].delivered)))
    case Fail(k) => Put(s, k, EndTask(s.table[k], Failed))
  }

  /** Every action of the list is enabled when its turn comes. */
  predicate Runs(s: State, actions: seq<Action>)
    decreases |actions|
  {
    actions == [] || (Enabled(s, actions[0]) && Runs(Next(s, actions[0]), actions[1..]))
  }

  function Run(s: State, actions: seq<Action>): (t: State)
    requires Runs(s, actions)
    decreases |actions|
  {
    if actions == [] then s else Run(Next(s, actions[0]), actions[1..])
  }
}
