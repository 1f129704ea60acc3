/**
 From file to uploader: the chunks one producer sends, base64-encoded, through the protocol, in any
 interleaving with the reader and with every other operation, are what the uploader reads.
 */
module UploadEndToEnd {
  import opened Wrappers
  import opened UploadReader
  import opened UploadSystem
  import opened UploadInvariant
  import opened UploadSteps
  import opened UploadTheorems
  import Base64

  // ---------------------------------------------------------------- a producer

  ghost predicate Names(request: Request, id: int) {
    (request.Chunk? || request.BadChunk?) && request.id == id
  }

  /** A chunk call naming the id is invoked only once the ones before it have returned. */
  ghost predicate OneAtATime(s: State, id: int) {
    forall c, d | 0 <= c < d < |s.calls| && Names(s.calls[c].request, id) && Names(s.calls[d].request, id) ::
      s.calls[c].phase.Returned?
  }

  ghost predicate Disciplined(s: State, actions: seq<Action>, id: int)
    requires Runs(s, actions)
    decreases |actions|
  {
    OneAtATime(s, id) && (actions != [] ==> Disciplined(Next(s, actions[0]), actions[1..], id))
  }

  /** The texts of the chunk calls naming the id, in the order they were invoked. */
  ghost function Texts(calls: seq<Call>, id: int): (t: seq<seq<byte>>) {
    if calls == [] then []
    else
      var last := calls[|calls| - 1].request;
      Texts(calls[..|calls| - 1], id) + if Names(last, id) then [last.text] else []
  }

  /** Every chunk call naming the id has returned without being refused. */
  ghost predicate AllAccepted(calls: seq<Call>, id: int) {
    forall c | 0 <= c < |calls| && Names(calls[c].request, id) ::
      calls[c].phase.Returned? && !calls[c].phase.outcome.Refused?
  }

  /** Each text is some chunk encoded, wrapped in any whitespace. */
  ghost predicate Carries(texts: seq<seq<byte>>, chunks: seq<seq<byte>>) {
    && |texts| == |chunks|
    && forall i | 0 <= i < |texts| :: Base64.Strip(texts[i]) == Base64.Encoded(chunks[i])
  }

  // ---------------------------------------------------------------- requests keep their payloads

  ghost predicate PayloadsDecoded(s: State) {
    forall c | 0 <= c < |s.calls| :: Admissible(s.calls[c].request)
  }

  lemma {:induction false} PayloadsStayDecoded(s: State, actions: seq<Action>)
    requires Runs(s, actions) && PayloadsDecoded(s)
    ensures PayloadsDecoded(Run(s, actions))
    decreases |actions|
  {
    if actions != [] {
      var t := Next(s, actions[0]);
      if actions[0].Advance? {
        var c := actions[0].call;
        assert forall d | 0 <= d < |t.calls| :: t.calls[d].request == s.calls[d].request;
      }
      PayloadsStayDecoded(t, actions[1..]);
    }
  }

  // ---------------------------------------------------------------- the log follows the producer

  ghost predicate Increasing(log: seq<Sent>) {
    forall i, j {:trigger log[i], log[j]} | 0 <= i < j < |log| :: log[i].call < log[j].call
  }

  ghost predicate Ordered(s: State, id: int) {
    forall k | 0 <= k < |s.table| && s.table[k].id == Some(id) :: Increasing(s.table[k].log)
  }

  /** A step changes a log only by the chunk of the call that sends it. */
  ghost predicate LogFollows(s: State, t: State, c: nat, k: nat)
    requires c < |s.calls| && k < |t.table|
  {
    && (if k >= |s.table| then t.table[k].log == []
        else if s.calls[c].phase.ChunkSending? && s.calls[c].phase.stream == k && s.table[k].task.Running?
        then t.table[k].log == s.table[k].log + [Sent(c, s.calls[c].phase.bytes)]
        else t.table[k].log == s.table[k].log)
    && (k < |s.table| && t.table[k].id != s.table[k].id ==> s.calls[c].phase == BeginSpawned(k))
  }

  lemma LogStepBegin(s: State, c: nat, k: nat)
    requires CanAdvance(s, c) && IsBegin(s.calls[c].phase) && k < |AdvanceBegin(s, c).table|
    ensures LogFollows(s, AdvanceBegin(s, c), c, k)
  {
  }

  lemma LogStepChunk(s: State, c: nat, k: nat)
    requires CanAdvance(s, c) && IsChunk(s.calls[c].phase) && k < |AdvanceChunk(s, c).table|
    ensures LogFollows(s, AdvanceChunk(s, c), c, k)
  {
    if s.calls[c].phase.ChunkSending? {
      LogStepSending(s, c, k);
    } else {
      LogStepQuiet(s, c, k);
    }
  }

  lemma LogStepSending(s: State, c: nat, k: nat)
    requires CanAdvance(s, c) && s.calls[c].phase.ChunkSending? && k < |AdvanceChunk(s, c).table|
    ensures LogFollows(s, AdvanceChunk(s, c), c, k)
  {
  }

  lemma LogStepQuiet(s: State, c: nat, k: nat)
    requires CanAdvance(s, c) && IsChunk(s.calls[c].phase) && !s.calls[c].phase.ChunkSending?
    requires k < |AdvanceChunk(s, c).table|
    ensures LogFollows(s, AdvanceChunk(s, c), c, k)
  {
  }

  lemma LogStepFinish(s: State, c: nat, k: nat)
    requires CanAdvance(s, c) && IsFinish(s.calls[c].phase) && k < |AdvanceFinish(s, c).table|
    ensures LogFollows(s, AdvanceFinish(s, c), c, k)
  {
  }

  lemma LogStep(s: State, c: nat, k: nat)
    requires CanAdvance(s, c) && k < |AdvanceCall(s, c).table|
    ensures LogFollows(s, AdvanceCall(s, c), c, k)
  {
    var p := s.calls[c].phase;
    if IsBegin(p) {
      LogStepBegin(s, c, k);
    } else if IsChunk(p) {
      LogStepChunk(s, c, k);
    } else if IsFinish(p) {
      LogStepFinish(s, c, k);
    }
  }

  lemma AdvanceKeepsOrder(s: State, c: nat, id: int)
    requires Inv(s) && CanAdvance(s, c) && OneAtATime(s, id) && Ordered(s, id)
    ensures Ordered(AdvanceCall(s, c), id)
  {
    var t := AdvanceCall(s, c);
    assert CallInv(s, c);
    forall k | 0 <= k < |t.table| && t.table[k].id == Some(id)
      ensures Increasing(t.table[k].log)
    {
      LogStep(s, c, k);
      if k < |s.table| {
        assert StreamInv(s, k);
        if s.table[k].id != Some(id) {
          LoggedStreamHasId(s, k);
        } else if t.table[k].log != s.table[k].log {
          SenderIsLast(s, c, k, id);
        }
      }
    }
  }

  /** With one chunk call at a time, the call that sends is later than every call in the log. */
  lemma SenderIsLast(s: State, c: nat, k: nat, id: int)
    requires c < |s.calls| && k < |s.table| && LogInv(s, k) && OneAtATime(s, id)
    requires s.table[k].id == Some(id) && s.calls[c].phase.ChunkSending? && OnStream(s, k, s.calls[c].request)
    ensures forall i | 0 <= i < |s.table[k].log| :: s.table[k].log[i].call < c
  {
    var log := s.table[k].log;
    forall i | 0 <= i < |log|
      ensures log[i].call < c
    {
      assert OnStream(s, k, s.calls[log[i].call].request);
      assert Delivered(s.calls[log[i].call].phase, k);
    }
  }

  /** Nothing but a call's step touches a log or an id. */
  lemma OtherKeepsOrder(s: State, a: Action, id: int)
    requires Enabled(s, a) && !a.Advance? && Ordered(s, id)
    ensures Ordered(Next(s, a), id)
  {
    var t := Next(s, a);
    assert |t.table| == |s.table|;
    forall k | 0 <= k < |t.table|
      ensures t.table[k].id == s.table[k].id && t.table[k].log == s.table[k].log
    {
    }
  }

  lemma {:induction false} RunKeepsOrder(s: State, actions: seq<Action>, id: int)
    requires Inv(s) && Runs(s, actions) && |Run(s, actions).issued| <= TWO_64
    requires Disciplined(s, actions, id) && Ordered(s, id)
    ensures Ordered(Run(s, actions), id)
    decreases |actions|
  {
    if actions != [] {
      var t := Next(s, actions[0]);
      IssuedGrowsOverRuns(t, actions[1..]);
      StepKeepsInv(s, actions[0]);
      if actions[0].Advance? {
        AdvanceKeepsOrder(s, actions[0].call, id);
      } else {
        OtherKeepsOrder(s, actions[0], id);
      }
      RunKeepsOrder(t, actions[1..], id);
    }
  }

  // ---------------------------------------------------------------- the log is the accepted calls

  /** The bytes of the calls whose chunks entered the stream's channel, in invocation order. */
  ghost function DeliveredBytes(calls: seq<Call>, k: nat): (b: seq<byte>) {
    if calls == [] then []
    else
      var last := calls[|calls| - 1];
      DeliveredBytes(calls[..|calls| - 1], k)
      + if last.request.Chunk? && Delivered(last.phase, k) then last.request.bytes else []
  }

  lemma DeliveredStep(calls: seq<Call>, n: nat, k: nat)
    requires n < |calls|
    ensures DeliveredBytes(calls[..n + 1], k) ==
            DeliveredBytes(calls[..n], k)
            + if calls[n].request.Chunk? && Delivered(calls[n].phase, k) then calls[n].request.bytes else []
  {
    assert calls[..n + 1][..n] == calls[..n];
  }

  /** The log holds exactly the delivered calls, in invocation order. */
  ghost predicate LogMatches(s: State, k: nat)
    requires k < |s.table|
  {
    && LogInv(s, k) && Increasing(s.table[k].log)
    && forall c | 0 <= c < |s.calls| && s.calls[c].request.Chunk? && Delivered(s.calls[c].phase, k) ::
         InLog(s.table[k], c)
  }

  /** The entries of calls below `n` are the first `m`. */
  ghost predicate SplitAt(log: seq<Sent>, n: nat, m: nat) {
    && m <= |log|
    && (forall i | 0 <= i < m :: log[i].call < n)
    && (forall i | m <= i < |log| :: log[i].call >= n)
  }

  lemma {:induction false} LogPrefix(s: State, k: nat, n: nat) returns (m: nat)
    requires k < |s.table| && LogMatches(s, k) && n <= |s.calls|
    ensures SplitAt(s.table[k].log, n, m)
    ensures LogBytes(s.table[k].log[..m]) == DeliveredBytes(s.calls[..n], k)
  {
    if n == 0 {
      m := 0;
    } else {
      var before := LogPrefix(s, k, n - 1);
      DeliveredStep(s.calls, n - 1, k);
      m := NextEntry(s, k, n - 1, before);
    }
  }

  /** The entry of call `c`, if its chunk was delivered, comes next in the log. */
  lemma NextEntry(s: State, k: nat, c: nat, before: nat) returns (m: nat)
    requires c < |s.calls| && k < |s.table| && LogMatches(s, k) && SplitAt(s.table[k].log, c, before)
    ensures SplitAt(s.table[k].log, c + 1, m)
    ensures LogBytes(s.table[k].log[..m]) ==
            LogBytes(s.table[k].log[..before])
            + if s.calls[c].request.Chunk? && Delivered(s.calls[c].phase, k) then s.calls[c].request.bytes else []
  {
    var log := s.table[k].log;
    if s.calls[c].request.Chunk? && Delivered(s.calls[c].phase, k) {
      DeliveredEntry(s, k, c, before);
      m := before + 1;
      assert log[..m][..before] == log[..before];
    } else {
      NotInLog(s, k, c);
      m := before;
    }
  }

  lemma NotInLog(s: State, k: nat, c: nat)
    requires k < |s.table| && LogInv(s, k) && c < |s.calls|
    requires !(s.calls[c].request.Chunk? && Delivered(s.calls[c].phase, k))
    ensures forall i | 0 <= i < |s.table[k].log| :: s.table[k].log[i].call != c
  {
    var log := s.table[k].log;
    forall i | 0 <= i < |log|
      ensures log[i].call != c
    {
      assert OnStream(s, k, s.calls[log[i].call].request) && Delivered(s.calls[log[i].call].phase, k);
    }
  }

  lemma DeliveredEntry(s: State, k: nat, c: nat, m: nat)
    requires c < |s.calls| && k < |s.table| && LogInv(s, k) && Increasing(s.table[k].log) && InLog(s.table[k], c)
    requires SplitAt(s.table[k].log, c, m)
    ensures m < |s.table[k].log| && s.table[k].log[m] == Sent(c, s.calls[c].request.bytes)
    ensures SplitAt(s.table[k].log, c + 1, m + 1)
  {
    var log := s.table[k].log;
    var i :| 0 <= i < |log| && log[i].call == c;
    assert c <= log[m].call <= log[i].call;
    assert s.calls[log[m].call].request.bytes == log[m].bytes;
    forall j | m < j < |log|
      ensures log[j].call > c
    {
      assert log[m].call < log[j].call;
    }
  }

  lemma LogIsDeliveredBytes(s: State, k: nat)
    requires Inv(s) && k < |s.table| && Increasing(s.table[k].log)
    ensures LogBytes(s.table[k].log) == DeliveredBytes(s.calls, k)
  {
    var log := s.table[k].log;
    LogIsMatched(s, k);
    var m := LogPrefix(s, k, |s.calls|);
    LogIsBelow(s, k);
    WholeSplit(log, |s.calls|, m);
    assert log[..m] == log && s.calls[..|s.calls|] == s.calls;
  }

  lemma WholeSplit(log: seq<Sent>, n: nat, m: nat)
    requires SplitAt(log, n, m) && forall i | 0 <= i < |log| :: log[i].call < n
    ensures m == |log|
  {
    if log != [] {
      assert log[|log| - 1].call < n;
    }
  }

  lemma LogIsBelow(s: State, k: nat)
    requires Inv(s) && k < |s.table|
    ensures forall i | 0 <= i < |s.table[k].log| :: s.table[k].log[i].call < |s.calls|
  {
    assert StreamInv(s, k);
  }

  lemma LogIsMatched(s: State, k: nat)
    requires Inv(s) && k < |s.table| && Increasing(s.table[k].log)
    ensures LogMatches(s, k)
  {
    assert StreamInv(s, k);
    forall c | 0 <= c < |s.calls| && s.calls[c].request.Chunk? && Delivered(s.calls[c].phase, k)
      ensures InLog(s.table[k], c)
    {
      assert CallInv(s, c);
    }
  }

  /** The decoded bytes of the chunk calls naming the id, in the order they were invoked. */
  ghost function Payloads(calls: seq<Call>, id: int): (p: seq<seq<byte>>) {
    if calls == [] then []
    else
      var last := calls[|calls| - 1].request;
      Payloads(calls[..|calls| - 1], id) + if last.Chunk? && last.id == id then [last.bytes] else []
  }

  /** The stream's channel got the bytes of the calls naming its id, and nothing else. */
  ghost predicate CarriedBy(calls: seq<Call>, k: nat, id: int) {
    forall c | 0 <= c < |calls| ::
      if Names(calls[c].request, id) then
        calls[c].request.Chunk? && (Delivered(calls[c].phase, k) || calls[c].request.bytes == [])
      else !(calls[c].request.Chunk? && Delivered(calls[c].phase, k))
  }

  lemma AcceptedCallsCarry(s: State, k: nat, id: int)
    requires Inv(s) && k < |s.table| && s.table[k].id == Some(id) && AllAccepted(s.calls, id)
    ensures CarriedBy(s.calls, k, id)
  {
    forall c | 0 <= c < |s.calls|
      ensures if Names(s.calls[c].request, id) then
                s.calls[c].request.Chunk? && (Delivered(s.calls[c].phase, k) || s.calls[c].request.bytes == [])
              else !(s.calls[c].request.Chunk? && Delivered(s.calls[c].phase, k))
    {
      assert CallInv(s, c);
      if Names(s.calls[c].request, id) {
        AcceptedCallCarries(s, c, k, id);
      }
    }
  }

  lemma AcceptedCallCarries(s: State, c: nat, k: nat, id: int)
    requires Inv(s) && c < |s.calls| && k < |s.table| && s.table[k].id == Some(id)
    requires Names(s.calls[c].request, id) && s.calls[c].phase.Returned? && !s.calls[c].phase.outcome.Refused?
    ensures s.calls[c].request.Chunk? && (Delivered(s.calls[c].phase, k) || s.calls[c].request.bytes == [])
  {
    assert CallInv(s, c);
    var o := s.calls[c].phase.outcome;
    if o.Accepted? {
      assert StreamInv(s, o.stream) && StreamInv(s, k);
      UniqueId(s, o.stream, k);
    }
  }

  /** Call by call, what entered the channel is what the calls carried. */
  lemma {:induction false} DeliveredIsPayloads(calls: seq<Call>, n: nat, k: nat, id: int)
    requires CarriedBy(calls, k, id) && n <= |calls|
    ensures DeliveredBytes(calls[..n], k) == Flatten(Payloads(calls[..n], id))
  {
    if n > 0 {
      DeliveredIsPayloads(calls, n - 1, k, id);
      DeliveredStep(calls, n - 1, k);
      PayloadsStep(calls, n - 1, id);
      FlattenSnoc(Payloads(calls[..n - 1], id), if calls[n - 1].request.Chunk? then calls[n - 1].request.bytes else []);
    }
  }

  lemma PayloadsStep(calls: seq<Call>, n: nat, id: int)
    requires n < |calls|
    ensures var request := calls[n].request;
            if request.Chunk? && request.id == id
            then Payloads(calls[..n + 1], id) == Payloads(calls[..n], id) + [request.bytes]
            else Payloads(calls[..n + 1], id) == Payloads(calls[..n], id)
  {
    assert calls[..n + 1][..n] == calls[..n];
  }

  lemma TextsStep(calls: seq<Call>, n: nat, id: int)
    requires n < |calls|
    ensures var request := calls[n].request;
            if Names(request, id) then Texts(calls[..n + 1], id) == Texts(calls[..n], id) + [request.text]
            else Texts(calls[..n + 1], id) == Texts(calls[..n], id)
  {
    assert calls[..n + 1][..n] == calls[..n];
  }

  ghost predicate Decode(texts: seq<seq<byte>>, payloads: seq<seq<byte>>) {
    |texts| == |payloads| && forall i | 0 <= i < |texts| :: Base64.Decoded(texts[i]) == Ok(payloads[i])
  }

  lemma DecodeSnoc(texts: seq<seq<byte>>, payloads: seq<seq<byte>>, text: seq<byte>, payload: seq<byte>)
    requires Decode(texts, payloads) && Base64.Decoded(text) == Ok(payload)
    ensures Decode(texts + [text], payloads + [payload])
  {
  }

  /** The calls' texts decode, one by one, to what the calls carry. */
  lemma {:induction false} TextsDecode(calls: seq<Call>, n: nat, id: int)
    requires n <= |calls|
    requires forall c | 0 <= c < |calls| :: Admissible(calls[c].request)
    requires forall c | 0 <= c < |calls| :: !calls[c].request.BadChunk? || calls[c].request.id != id
    ensures Decode(Texts(calls[..n], id), Payloads(calls[..n], id))
  {
    if n > 0 {
      TextsDecode(calls, n - 1, id);
      TextsStep(calls, n - 1, id);
      PayloadsStep(calls, n - 1, id);
      var request := calls[n - 1].request;
      assert Admissible(request);
      if Names(request, id) {
        DecodeSnoc(Texts(calls[..n - 1], id), Payloads(calls[..n - 1], id), request.text, request.bytes);
      }
    }
  }

  /** Texts that encode the chunks carry the chunks. */
  lemma PayloadsAreTheChunks(texts: seq<seq<byte>>, payloads: seq<seq<byte>>, chunks: seq<seq<byte>>)
    requires Carries(texts, chunks) && Decode(texts, payloads)
    ensures payloads == chunks
  {
    forall i | 0 <= i < |texts|
      ensures payloads[i] == chunks[i]
    {
      Base64.DecodeUndoesEncode(chunks[i], texts[i]);
    }
  }

  // ---------------------------------------------------------------- the theorems

  /**
   Whatever else runs, when the chunk calls on a stream are invoked one at a time and a finish on it
   returns a handle, the uploader read exactly the bytes of the chunks that entered the channel, in the
   order they were sent.
   */
  lemma OrderedUpload(actions: seq<Action>, id: int, f: nat, h: int)
    requires Interleaving(actions) && Disciplined(INIT, actions, id)
    requires f < |After(actions).calls| && After(actions).calls[f] == Call(Finish(id), Returned(Handle(h)))
    ensures var s := After(actions);
            && h in s.uploads && s.uploads[h].stream < |s.table|
            && var k := s.uploads[h].stream;
            && (Safe(s.table[k]) ==> s.uploads[h].content == DeliveredBytes(s.calls, k))
  {
    var s := After(actions);
    FinishedUploadIsWhole(actions, f, h);
    var k := s.uploads[h].stream;
    InitInv();
    RunKeepsOrder(INIT, actions, id);
    LogIsDeliveredBytes(s, k);
  }

  /**
   End to end: for every file, every split of it into chunks, every way of wrapping their base64 texts
   and every interleaving in which one producer sends them in turn and a finish returns a handle, the
   uploader consumed exactly that file, and its length is the declared size.
   */
  lemma UploadedIsTheFile(actions: seq<Action>, id: int, f: nat, h: int, chunks: seq<seq<byte>>)
    requires Interleaving(actions) && Disciplined(INIT, actions, id)
    requires f < |After(actions).calls| && After(actions).calls[f] == Call(Finish(id), Returned(Handle(h)))
    requires AllAccepted(After(actions).calls, id) && Carries(Texts(After(actions).calls, id), chunks)
    ensures var s := After(actions);
            && h in s.uploads && s.uploads[h].stream < |s.table|
            && var k := s.uploads[h].stream;
            && s.table[k].id == Some(id)
            && (Fits(s.table[k].size) ==>
                  s.uploads[h].content == Flatten(chunks) && |Flatten(chunks)| == s.table[k].size)
  {
    var s := After(actions);
    OrderedUpload(actions, id, f, h);
    FinishedUploadIsWhole(actions, f, h);
    PayloadsStayDecoded(INIT, actions);
    assert s.calls[..|s.calls|] == s.calls;
    AcceptedCallsCarry(s, s.uploads[h].stream, id);
    DeliveredIsPayloads(s.calls, |s.calls|, s.uploads[h].stream, id);
    TextsDecode(s.calls, |s.calls|, id);
    PayloadsAreTheChunks(Texts(s.calls, id), Payloads(s.calls, id), chunks);
  }
}
