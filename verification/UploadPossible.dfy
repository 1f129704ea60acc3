/**
 Every file can be uploaded: for every file, every split of it into chunks and every wrapping of their base64
 texts there is an interleaving in which the texts are sent in turn and the finish returns a handle. So the
 end-to-end theorem is never about nothing.
 */
module UploadPossible {
  import opened Wrappers
  import opened UploadReader
  import opened UploadSystem
  import opened UploadInvariant
  import opened UploadSteps
  import opened UploadTheorems
  import opened UploadEndToEnd
  import Base64

  /** The only stream, after the reader has read and counted all that was sent. */
  function Idle(size: nat, log: seq<Sent>): (st: Stream) {
    var n := |LogBytes(log)|;
    Stream(Some(0), 0, None, size, n, 1, EMPTY, Meter(size, n, 0, 0, 0, 0), Running, LogBytes(log), [], 0, log)
  }

  /** Between two calls: the stream is open under id 0 and every call has returned. */
  function Between(size: nat, log: seq<Sent>, calls: seq<Call>): (s: State) {
    State([Idle(size, log)], [0], map[0 := 0], map[0 := OfStream(0)], map[], calls)
  }

  /** A run from one state to another in which the chunk calls on stream 0 are made one at a time. */
  ghost predicate Leads(s: State, t: State, actions: seq<Action>) {
    Runs(s, actions) && Run(s, actions) == t && Disciplined(s, actions, 0)
  }

  ghost predicate AllButLastReturned(s: State) {
    forall c | 0 <= c < |s.calls| - 1 :: s.calls[c].phase.Returned?
  }

  lemma Stays(s: State)
    requires AllButLastReturned(s)
    ensures Leads(s, s, [])
  {
  }

  lemma Chain(s: State, a: Action, t: State, rest: seq<Action>)
    requires AllButLastReturned(s) && Enabled(s, a) && Leads(Next(s, a), t, rest)
    ensures Leads(s, t, [a] + rest)
  {
    assert ([a] + rest)[1..] == rest;
  }

  /** The first step of a run, and the rest. */
  lemma FirstLeads(s: State, t: State, actions: seq<Action>)
    requires actions != []
    ensures Leads(s, t, actions) <==>
            OneAtATime(s, 0) && Enabled(s, actions[0]) && Leads(Next(s, actions[0]), t, actions[1..])
  {
  }

  lemma TailOfSum(a: seq<Action>, b: seq<Action>)
    requires a != []
    ensures (a + b)[0] == a[0] && (a + b)[1..] == a[1..] + b
  {
  }

  lemma {:induction false} Joined(s: State, t: State, u: State, a: seq<Action>, b: seq<Action>)
    requires Leads(s, t, a) && Leads(t, u, b)
    ensures Leads(s, u, a + b)
    decreases |a|
  {
    if a == [] {
      assert a + b == b;
    } else {
      FirstLeads(s, t, a);
      Joined(Next(s, a[0]), t, u, a[1..], b);
      TailOfSum(a, b);
      FirstLeads(s, u, a + b);
    }
  }

  /** The begin returns id 0. */
  lemma Begins(size: nat) returns (actions: seq<Action>)
    requires size < TWO_64
    ensures Leads(INIT, Between(size, [], [Call(Begin(size), Returned(Id(0)))]), actions)
  {
    var s1 := Next(INIT, Invoke(Begin(size)));
    var s2 := Next(s1, Advance(0));
    assert s2.table == [NewStream(0, size)];
    var s3 := Next(s2, Advance(0));
    assert HandleAt(0) == 0;
    var s4 := Next(s3, Advance(0));
    var s5 := Next(s4, Advance(0));
    assert LogBytes([]) == [];
    assert s5 == Between(size, [], [Call(Begin(size), Returned(Id(0)))]);
    Stays(s5);
    Chain(s4, Advance(0), s5, []);
    Chain(s3, Advance(0), s5, [Advance(0)] + []);
    Chain(s2, Advance(0), s5, [Advance(0)] + ([Advance(0)] + []));
    Chain(s1, Advance(0), s5, [Advance(0)] + ([Advance(0)] + ([Advance(0)] + [])));
    actions := [Advance(0)] + ([Advance(0)] + ([Advance(0)] + ([Advance(0)] + [])));
    Chain(INIT, Invoke(Begin(size)), s5, actions);
    actions := [Invoke(Begin(size))] + actions;
  }

  ghost predicate AllCallsReturned(calls: seq<Call>) {
    forall c | 0 <= c < |calls| :: calls[c].phase.Returned?
  }

  /** With one more call somewhere between its steps, and the stream as that left it. */
  function During(st: Stream, calls: seq<Call>, request: Request, p: Phase): (s: State) {
    State([st], [0], map[0 := 0], map[0 := OfStream(0)], map[], calls + [Call(request, p)])
  }

  lemma Moves(calls: seq<Call>, request: Request, p: Phase, q: Phase)
    ensures (calls + [Call(request, p)])[|calls| := Call(request, q)] == calls + [Call(request, q)]
  {
  }

  /** A call between its steps and what is left of the run. */
  lemma ThenAdvance(
    st: Stream, after: Stream, calls: seq<Call>, request: Request, p: Phase, q: Phase, t: State, rest: seq<Action>)
    requires AllCallsReturned(calls) && CanAdvance(During(st, calls, request, p), |calls|)
    requires AdvanceCall(During(st, calls, request, p), |calls|) == During(after, calls, request, q)
    requires Leads(During(after, calls, request, q), t, rest)
    ensures Leads(During(st, calls, request, p), t, [Advance(|calls|)] + rest)
  {
    Chain(During(st, calls, request, p), Advance(|calls|), t, rest);
  }

  lemma ChunkEnters(st: Stream, calls: seq<Call>, request: Request, bytes: seq<byte>)
    requires st.task.Running?
    ensures var s := During(st, calls, request, ChunkStart(0, bytes));
            CanAdvance(s, |calls|) && AdvanceCall(s, |calls|)
            == During(st.(senders := st.senders + 1), calls, request, ChunkReserving(0, bytes))
  {
    Moves(calls, request, ChunkStart(0, bytes), ChunkReserving(0, bytes));
    var s := During(st, calls, request, ChunkStart(0, bytes));
    assert AdvanceCall(s, |calls|) == AdvanceChunk(s, |calls|);
  }

  lemma ChunkReserves(st: Stream, calls: seq<Call>, request: Request, bytes: seq<byte>)
    requires st.accepted + |bytes| <= st.size < TWO_64
    ensures var s := During(st, calls, request, ChunkReserving(0, bytes));
            CanAdvance(s, |calls|) && AdvanceCall(s, |calls|)
            == During(st.(accepted := st.accepted + |bytes|), calls, request, ChunkSending(0, bytes))
  {
    Moves(calls, request, ChunkReserving(0, bytes), ChunkSending(0, bytes));
    var s := During(st, calls, request, ChunkReserving(0, bytes));
    assert Reserve(st.accepted, |bytes|, st.size) == Some(st.accepted + |bytes|);
    assert AdvanceCall(s, |calls|) == AdvanceChunk(s, |calls|);
  }

  lemma ChunkSends(st: Stream, calls: seq<Call>, request: Request, bytes: seq<byte>)
    requires st.task.Running? && st.source == EMPTY
    ensures var s := During(st, calls, request, ChunkSending(0, bytes));
            CanAdvance(s, |calls|) && AdvanceCall(s, |calls|)
            == During(Enqueued(st, Sent(|calls|, bytes)), calls, request, ChunkLeaving(0, Accepted(0)))
  {
    Moves(calls, request, ChunkSending(0, bytes), ChunkLeaving(0, Accepted(0)));
    var s := During(st, calls, request, ChunkSending(0, bytes));
    assert AdvanceCall(s, |calls|) == AdvanceChunk(s, |calls|);
  }

  lemma ChunkLeaves(st: Stream, calls: seq<Call>, request: Request)
    requires st.senders > 0
    ensures var s := During(st, calls, request, ChunkLeaving(0, Accepted(0)));
            CanAdvance(s, |calls|) && AdvanceCall(s, |calls|)
            == During(st.(senders := st.senders - 1), calls, request, Returned(Accepted(0)))
  {
    Moves(calls, request, ChunkLeaving(0, Accepted(0)), Returned(Accepted(0)));
    var s := During(st, calls, request, ChunkLeaving(0, Accepted(0)));
    assert AdvanceCall(s, |calls|) == AdvanceChunk(s, |calls|);
  }

  /** The stream after a chunk has entered its channel. */
  function Filled(size: nat, log: seq<Sent>, c: nat, bytes: seq<byte>): (st: Stream) {
    Enqueued(Idle(size, log).(accepted := |LogBytes(log)| + |bytes|), Sent(c, bytes))
  }

  /** A chunk that fits enters the channel and its call returns. */
  lemma ChunkIsSent(size: nat, log: seq<Sent>, calls: seq<Call>, text: seq<byte>, bytes: seq<byte>)
    returns (actions: seq<Action>)
    requires AllCallsReturned(calls) && Admissible(Request.Chunk(0, text, bytes)) && bytes != []
    requires |LogBytes(log)| + |bytes| <= size < TWO_64
    ensures Leads(Between(size, log, calls),
                  During(Filled(size, log, |calls|, bytes), calls, Request.Chunk(0, text, bytes),
                         Returned(Accepted(0))),
                  actions)
  {
    var request := Request.Chunk(0, text, bytes);
    var st := Idle(size, log);
    var st2 := st.(senders := 2);
    var st3 := st2.(accepted := |LogBytes(log)| + |bytes|);
    var st4 := Enqueued(st3, Sent(|calls|, bytes));
    var st5 := Filled(size, log, |calls|, bytes);
    var t := During(st5, calls, request, Returned(Accepted(0)));
    Stays(t);
    ChunkLeaves(st4, calls, request);
    ThenAdvance(st4, st5, calls, request, ChunkLeaving(0, Accepted(0)), Returned(Accepted(0)), t, []);
    ChunkSends(st3, calls, request, bytes);
    actions := [Advance(|calls|)] + [];
    ThenAdvance(st3, st4, calls, request, ChunkSending(0, bytes), ChunkLeaving(0, Accepted(0)), t, actions);
    ChunkReserves(st2, calls, request, bytes);
    actions := [Advance(|calls|)] + actions;
    ThenAdvance(st2, st3, calls, request, ChunkReserving(0, bytes), ChunkSending(0, bytes), t, actions);
    ChunkEnters(st, calls, request, bytes);
    actions := [Advance(|calls|)] + actions;
    ThenAdvance(st, st2, calls, request, ChunkStart(0, bytes), ChunkReserving(0, bytes), t, actions);
    actions := [Advance(|calls|)] + actions;
    ChunkIsInvoked(size, log, calls, text, bytes, t, actions);
    actions := [Invoke(request)] + actions;
  }

  lemma ChunkIsInvoked(
    size: nat, log: seq<Sent>, calls: seq<Call>, text: seq<byte>, bytes: seq<byte>, t: State, rest: seq<Action>)
    requires AllCallsReturned(calls) && Admissible(Request.Chunk(0, text, bytes)) && bytes != []
    requires Leads(During(Idle(size, log), calls, Request.Chunk(0, text, bytes), ChunkStart(0, bytes)), t, rest)
    ensures Leads(Between(size, log, calls), t, [Invoke(Request.Chunk(0, text, bytes))] + rest)
  {
    Chain(Between(size, log, calls), Invoke(Request.Chunk(0, text, bytes)), t, rest);
  }

  lemma LogSnoc(log: seq<Sent>, entry: Sent)
    ensures LogBytes(log + [entry]) == LogBytes(log) + entry.bytes
  {
    assert (log + [entry])[..|log|] == log;
  }

  /** The stream after its reader has taken the chunk out. */
  function TakenOut(size: nat, log: seq<Sent>, entry: Sent): (st: Stream) {
    var filled := Filled(size, log, entry.call, entry.bytes);
    filled.(source := EMPTY, delivered := LogBytes(log) + entry.bytes,
            meter := filled.meter.(uncounted := |entry.bytes|))
  }

  lemma ReaderTakes(size: nat, log: seq<Sent>, c: nat, bytes: seq<byte>)
    requires bytes != []
    ensures ReadStream(Filled(size, log, c, bytes), |bytes|) == TakenOut(size, log, Sent(c, bytes))
  {
    TakesAll(bytes);
    assert Filled(size, log, c, bytes).source == Source([], 0, [bytes]);
  }

  lemma ReaderCounts(size: nat, log: seq<Sent>, entry: Sent)
    ensures var st := TakenOut(size, log, entry);
            st.(meter := CountRead(st.meter)) == Idle(size, log + [entry])
  {
    LogSnoc(log, entry);
  }

  /** The reader takes it out and counts it. */
  lemma ChunkIsRead(size: nat, log: seq<Sent>, calls: seq<Call>, text: seq<byte>, bytes: seq<byte>)
    returns (actions: seq<Action>)
    requires AllCallsReturned(calls) && bytes != []
    ensures var request := Request.Chunk(0, text, bytes);
            Leads(During(Filled(size, log, |calls|, bytes), calls, request, Returned(Accepted(0))),
                  Between(size, log + [Sent(|calls|, bytes)], calls + [Call(request, Returned(Accepted(0)))]), actions)
  {
    var request, entry := Request.Chunk(0, text, bytes), Sent(|calls|, bytes);
    var s5 := During(Filled(size, log, |calls|, bytes), calls, request, Returned(Accepted(0)));
    var s6 := During(TakenOut(size, log, entry), calls, request, Returned(Accepted(0)));
    var s7 := During(Idle(size, log + [entry]), calls, request, Returned(Accepted(0)));
    ReaderTakes(size, log, |calls|, bytes);
    ReaderCounts(size, log, entry);
    assert Next(s5, Read(0, |bytes|)) == s6;
    assert Next(s6, Count(0)) == s7;
    Stays(s7);
    Chain(s6, Count(0), s7, []);
    Chain(s5, Read(0, |bytes|), s7, [Count(0)] + []);
    actions := [Read(0, |bytes|)] + ([Count(0)] + []);
  }

  lemma TakesAll(bytes: seq<byte>)
    requires bytes != []
    ensures Poll(Source([], 0, [bytes]), |bytes|, true) == (Ready(bytes), EMPTY)
  {
    assert bytes[..|bytes|] == bytes && [bytes][1..] == [];
  }

  /** A chunk call of either kind, from its invocation to the next. */
  lemma ChunkIsTaken(size: nat, log: seq<Sent>, calls: seq<Call>, text: seq<byte>, bytes: seq<byte>)
    returns (longer: seq<Sent>, call: Call, actions: seq<Action>)
    requires AllCallsReturned(calls) && Admissible(Request.Chunk(0, text, bytes))
    requires |LogBytes(log)| + |bytes| <= size < TWO_64
    ensures Leads(Between(size, log, calls), Between(size, longer, calls + [call]), actions)
    ensures LogBytes(longer) == LogBytes(log) + bytes
    ensures call.request == Request.Chunk(0, text, bytes)
    ensures call.phase.Returned? && !call.phase.outcome.Refused?
  {
    var request := Request.Chunk(0, text, bytes);
    if bytes == [] {
      longer, call := log, Call(request, Returned(AcceptedEmpty));
      var t := Between(size, log, calls + [call]);
      Stays(t);
      Chain(Between(size, log, calls), Invoke(request), t, []);
      actions := [Invoke(request)] + [];
      assert LogBytes(log) + [] == LogBytes(log);
    } else {
      longer, call := log + [Sent(|calls|, bytes)], Call(request, Returned(Accepted(0)));
      LogSnoc(log, Sent(|calls|, bytes));
      var sending := ChunkIsSent(size, log, calls, text, bytes);
      var reading := ChunkIsRead(size, log, calls, text, bytes);
      var sent := During(Filled(size, log, |calls|, bytes), calls, request, Returned(Accepted(0)));
      Joined(Between(size, log, calls), sent, Between(size, longer, calls + [call]), sending, reading);
      actions := sending + reading;
    }
  }

  /** What the calls made so far are: all returned, the chunk calls among them accepted. */
  ghost predicate Fine(calls: seq<Call>) {
    AllCallsReturned(calls) && AllAccepted(calls, 0)
  }

  lemma FineSnoc(calls: seq<Call>, call: Call)
    requires Fine(calls) && call.phase.Returned? && !call.phase.outcome.Refused?
    ensures Fine(calls + [call])
    ensures Texts(calls + [call], 0)
            == Texts(calls, 0) + if Names(call.request, 0) then [call.request.text] else []
  {
    assert (calls + [call])[..|calls|] == calls;
  }

  /** A list of texts is sent, one after the other. */
  lemma {:induction false} ChunksAreTaken(
    size: nat, log: seq<Sent>, calls: seq<Call>, texts: seq<seq<byte>>, chunks: seq<seq<byte>>)
    returns (longer: seq<Sent>, more: seq<Call>, actions: seq<Action>)
    requires Fine(calls) && Carries(texts, chunks) && forall i | 0 <= i < |texts| :: |texts[i]| < TWO_63
    requires |LogBytes(log)| + |Flatten(chunks)| <= size < TWO_64
    ensures Leads(Between(size, log, calls), Between(size, longer, more), actions)
    ensures LogBytes(longer) == LogBytes(log) + Flatten(chunks)
    ensures Fine(more) && Texts(more, 0) == Texts(calls, 0) + texts
    decreases |texts|
  {
    if texts == [] {
      longer, more, actions := log, calls, [];
      Stays(Between(size, log, calls));
      assert Texts(calls, 0) + texts == Texts(calls, 0) && LogBytes(log) + Flatten(chunks) == LogBytes(log);
    } else {
      Base64.DecodeUndoesEncode(chunks[0], texts[0]);
      assert Flatten(chunks) == chunks[0] + Flatten(chunks[1..]);
      var log1, call, first := ChunkIsTaken(size, log, calls, texts[0], chunks[0]);
      FineSnoc(calls, call);
      CarriesTail(texts, chunks);
      var rest;
      longer, more, rest := ChunksAreTaken(size, log1, calls + [call], texts[1..], chunks[1..]);
      Joined(Between(size, log, calls), Between(size, log1, calls + [call]), Between(size, longer, more), first, rest);
      actions := first + rest;
      ConcatAssociates(LogBytes(log), chunks[0], Flatten(chunks[1..]));
      ConcatAssociates(Texts(calls, 0), [texts[0]], texts[1..]);
      assert [texts[0]] + texts[1..] == texts;
    }
  }

  lemma CarriesTail(texts: seq<seq<byte>>, chunks: seq<seq<byte>>)
    requires Carries(texts, chunks) && texts != []
    ensures Carries(texts[1..], chunks[1..])
  {
  }

  // ---------------------------------------------------------------- the finish

  /** The state in which the finish has its handle. */
  function Ended(size: nat, log: seq<Sent>, calls: seq<Call>): (s: State) {
    var content := LogBytes(log);
    var st := Idle(size, log).(finisher := Some(|calls|), senders := 0, task := Succeeded(content));
    State([st], [0, |calls|], map[], map[0 := OfStream(0)], map[1 := Uploaded(0, content)],
          calls + [Call(Finish(0), Returned(Handle(1)))])
  }

  /** The finish somewhere between its steps, the stream no longer listed. */
  function Finishing(
    st: Stream, issued: seq<nat>, uploads: map<int, Uploaded>, calls: seq<Call>, p: Phase): (s: State)
  {
    State([st], issued, map[], map[0 := OfStream(0)], uploads, calls + [Call(Finish(0), p)])
  }

  lemma FinishTakes(st: Stream, calls: seq<Call>)
    ensures var s := During(st, calls, Finish(0), FinishStart(0));
            CanAdvance(s, |calls|) && AdvanceCall(s, |calls|)
            == Finishing(st.(finisher := Some(|calls|)), [0], map[], calls, FinishTaken(0))
  {
    Moves(calls, Finish(0), FinishStart(0), FinishTaken(0));
    assert map[0 := 0] - {0} == map[];
    var s := During(st, calls, Finish(0), FinishStart(0));
    assert AdvanceCall(s, |calls|) == AdvanceFinish(s, |calls|);
  }

  lemma FinishDrops(st: Stream, calls: seq<Call>)
    requires st.senders > 0
    ensures var s := Finishing(st, [0], map[], calls, FinishTaken(0));
            CanAdvance(s, |calls|) && AdvanceCall(s, |calls|)
            == Finishing(st.(senders := st.senders - 1), [0], map[], calls, FinishChecking(0))
  {
    Moves(calls, Finish(0), FinishTaken(0), FinishChecking(0));
    var s := Finishing(st, [0], map[], calls, FinishTaken(0));
    assert AdvanceCall(s, |calls|) == AdvanceFinish(s, |calls|);
  }

  lemma FinishChecks(st: Stream, calls: seq<Call>)
    requires st.accepted == st.size
    ensures var s := Finishing(st, [0], map[], calls, FinishChecking(0));
            CanAdvance(s, |calls|) && AdvanceCall(s, |calls|) == Finishing(st, [0], map[], calls, FinishAwaiting(0))
  {
    Moves(calls, Finish(0), FinishChecking(0), FinishAwaiting(0));
    var s := Finishing(st, [0], map[], calls, FinishChecking(0));
    assert AdvanceCall(s, |calls|) == AdvanceFinish(s, |calls|);
  }

  lemma FinishAwaits(st: Stream, calls: seq<Call>)
    requires st.task.Succeeded?
    ensures var s := Finishing(st, [0], map[], calls, FinishAwaiting(0));
            CanAdvance(s, |calls|) && AdvanceCall(s, |calls|)
            == Finishing(st, [0], map[], calls, FinishRegistering(0, st.task.content))
  {
    Moves(calls, Finish(0), FinishAwaiting(0), FinishRegistering(0, st.task.content));
    var s := Finishing(st, [0], map[], calls, FinishAwaiting(0));
    assert AdvanceCall(s, |calls|) == AdvanceFinish(s, |calls|);
  }

  lemma FinishDraws(st: Stream, calls: seq<Call>, content: seq<byte>)
    ensures var s := Finishing(st, [0], map[], calls, FinishRegistering(0, content));
            CanAdvance(s, |calls|) && AdvanceCall(s, |calls|)
            == Finishing(st, [0, |calls|], map[], calls, FinishNumbered(0, content, 1))
  {
    Moves(calls, Finish(0), FinishRegistering(0, content), FinishNumbered(0, content, 1));
    assert HandleAt(1) == 1 && [0] + [|calls|] == [0, |calls|];
    var s := Finishing(st, [0], map[], calls, FinishRegistering(0, content));
    assert AdvanceCall(s, |calls|) == AdvanceFinish(s, |calls|);
  }

  lemma FinishStores(st: Stream, calls: seq<Call>, content: seq<byte>)
    ensures var s := Finishing(st, [0, |calls|], map[], calls, FinishNumbered(0, content, 1));
            CanAdvance(s, |calls|) && AdvanceCall(s, |calls|)
            == Finishing(st, [0, |calls|], map[1 := Uploaded(0, content)], calls, Returned(Handle(1)))
  {
    Moves(calls, Finish(0), FinishNumbered(0, content, 1), Returned(Handle(1)));
    var s := Finishing(st, [0, |calls|], map[], calls, FinishNumbered(0, content, 1));
    assert AdvanceCall(s, |calls|) == AdvanceFinish(s, |calls|);
  }

  lemma ThenFinishes(s: State, u: State, calls: seq<Call>, t: State, rest: seq<Action>)
    requires |s.calls| == |calls| + 1 && AllCallsReturned(calls) && s.calls[..|calls|] == calls
    requires CanAdvance(s, |calls|) && AdvanceCall(s, |calls|) == u && Leads(u, t, rest)
    ensures Leads(s, t, [Advance(|calls|)] + rest)
  {
    assert forall c | 0 <= c < |calls| :: s.calls[c] == calls[c];
    Chain(s, Advance(|calls|), t, rest);
  }

  /** The finish takes the full stream, lets go of its sender and finds it full. */
  lemma FinishWaits(st: Stream, calls: seq<Call>, t: State, rest: seq<Action>) returns (actions: seq<Action>)
    requires AllCallsReturned(calls) && st.senders == 1 && st.accepted == st.size
    requires Leads(
               Finishing(st.(finisher := Some(|calls|), senders := 0), [0], map[], calls, FinishAwaiting(0)), t, rest)
    ensures Leads(During(st, calls, Finish(0), FinishStart(0)), t, actions)
  {
    var taken := st.(finisher := Some(|calls|));
    var last := taken.(senders := 0);
    FinishChecks(last, calls);
    ThenFinishes(Finishing(last, [0], map[], calls, FinishChecking(0)),
                 Finishing(last, [0], map[], calls, FinishAwaiting(0)), calls, t, rest);
    actions := [Advance(|calls|)] + rest;
    FinishDrops(taken, calls);
    ThenFinishes(Finishing(taken, [0], map[], calls, FinishTaken(0)),
                 Finishing(last, [0], map[], calls, FinishChecking(0)), calls, t, actions);
    actions := [Advance(|calls|)] + actions;
    FinishTakes(st, calls);
    ThenFinishes(During(st, calls, Finish(0), FinishStart(0)),
                 Finishing(taken, [0], map[], calls, FinishTaken(0)), calls, t, actions);
    actions := [Advance(|calls|)] + actions;
  }

  /** The finish of a task that succeeded registers the upload. */
  lemma FinishRegisters(st: Stream, calls: seq<Call>) returns (actions: seq<Action>)
    requires AllCallsReturned(calls) && st.task.Succeeded?
    ensures Leads(Finishing(st, [0], map[], calls, FinishAwaiting(0)),
                  Finishing(st, [0, |calls|], map[1 := Uploaded(0, st.task.content)], calls, Returned(Handle(1))),
                  actions)
  {
    var content := st.task.content;
    var t := Finishing(st, [0, |calls|], map[1 := Uploaded(0, content)], calls, Returned(Handle(1)));
    Stays(t);
    FinishStores(st, calls, content);
    var numbered := Finishing(st, [0, |calls|], map[], calls, FinishNumbered(0, content, 1));
    ThenFinishes(numbered, t, calls, t, []);
    actions := [Advance(|calls|)] + [];
    FinishDraws(st, calls, content);
    var registering := Finishing(st, [0], map[], calls, FinishRegistering(0, content));
    ThenFinishes(registering, numbered, calls, t, actions);
    actions := [Advance(|calls|)] + actions;
    FinishAwaits(st, calls);
    ThenFinishes(Finishing(st, [0], map[], calls, FinishAwaiting(0)), registering, calls, t, actions);
    actions := [Advance(|calls|)] + actions;
  }

  /** The whole finish of a full stream. */
  lemma FinishReturns(size: nat, log: seq<Sent>, calls: seq<Call>) returns (actions: seq<Action>)
    requires AllCallsReturned(calls) && |LogBytes(log)| == size
    ensures Leads(Between(size, log, calls), Ended(size, log, calls), actions)
  {
    var st := Idle(size, log);
    var last := st.(finisher := Some(|calls|), senders := 0);
    var ended := EndTask(last, Succeeded(LogBytes(log)));
    assert Contents(EMPTY) == [];
    var registers := FinishRegisters(ended, calls);
    var awaiting := Finishing(last, [0], map[], calls, FinishAwaiting(0));
    assert Next(awaiting, Succeed(0)) == Finishing(ended, [0], map[], calls, FinishAwaiting(0));
    Chain(awaiting, Succeed(0), Ended(size, log, calls), registers);
    actions := FinishWaits(st, calls, Ended(size, log, calls), [Succeed(0)] + registers);
    Chain(Between(size, log, calls), Invoke(Finish(0)), Ended(size, log, calls), actions);
    actions := [Invoke(Finish(0))] + actions;
  }

  /**
   For every file, every split of it and every texts that carry the chunks: some interleaving begins a stream
   of the file's size, has every text accepted in turn, and returns from the finish a handle that resolves
   to the file.
   */
  lemma EveryFileCanBeUploaded(texts: seq<seq<byte>>, chunks: seq<seq<byte>>) returns (actions: seq<Action>, f: nat)
    requires Carries(texts, chunks) && forall i | 0 <= i < |texts| :: |texts[i]| < TWO_63
    requires |Flatten(chunks)| < TWO_64
    ensures Interleaving(actions) && Disciplined(INIT, actions, 0)
    ensures var s := After(actions);
            && Texts(s.calls, 0) == texts && AllAccepted(s.calls, 0)
            && f < |s.calls| && s.calls[f] == Call(Finish(0), Returned(Handle(1)))
            && 1 in s.uploads && s.uploads[1].content == Flatten(chunks)
            && s.uploads[1].stream < |s.table| && s.table[s.uploads[1].stream].size == |Flatten(chunks)|
  {
    var size := |Flatten(chunks)|;
    var begun := [Call(Begin(size), Returned(Id(0)))];
    var a := Begins(size);
    assert LogBytes([]) == [] && begun[..0] == [];
    assert Texts(begun, 0) == [];
    var log, calls, b := ChunksAreTaken(size, [], begun, texts, chunks);
    assert LogBytes(log) == Flatten(chunks) && Texts(calls, 0) == texts;
    var c := FinishReturns(size, log, calls);
    Joined(Between(size, [], begun), Between(size, log, calls), Ended(size, log, calls), b, c);
    Joined(INIT, Between(size, [], begun), Ended(size, log, calls), a, b + c);
    actions, f := a + (b + c), |calls|;
    FineSnoc(calls, Call(Finish(0), Returned(Handle(1))));
  }
}
