/**
 The streamed-upload protocol does not get stuck: a waiting producer is served, from every state that
 satisfies the invariant something that is not a failure can happen while a call is pending, runs of such
 steps end, and where they end every call has returned.
 */
module UploadLiveness {
  import opened Wrappers
  import opened UploadReader
  import opened UploadSystem
  import opened UploadInvariant
  import opened UploadSteps
  import opened UploadTheorems

  /**
   While a chunk call waits for room, the reader can be polled, once it has counted what it handed over,
   and any poll with room hands over at least one byte.
   */
  lemma WaitingProducerIsServed(actions: seq<Action>, c: nat, room: nat)
    requires Interleaving(actions) && c < |After(actions).calls| && room > 0
    requires After(actions).calls[c].phase.ChunkSending? && !CanAdvance(After(actions), c)
    ensures var s := After(actions); var k := s.calls[c].phase.stream;
            && k < |s.table| && s.table[k].task.Running? && |s.table[k].source.queue| == CAPACITY == 4
            && Enabled(s, if s.table[k].meter.uncounted > 0 then Count(k) else Read(k, room))
            && |ReadStream(s.table[k], room).delivered| > |s.table[k].delivered|
  {
    var s := After(actions);
    assert CallInv(s, c);
    var k := s.calls[c].phase.stream;
    assert StreamInv(s, k);
    QueuedMeansContents(s.table[k]);
    PollRefinesByteQueue(s.table[k].source, room, s.table[k].senders > 0);
  }

  lemma QueuedMeansContents(st: Stream)
    requires Bytes(st)
    ensures st.source.queue != [] ==> Contents(st.source) != []
  {
    if st.source.queue != [] {
      assert st.source.queue[0] != [];
    }
  }

  /** How many steps a call has left. */
  function Rank(p: Phase): (n: nat) {
    match p
    case BeginStart(_) => 4
    case BeginSpawned(_) => 3
    case BeginNumbered(_, _) => 2
    case BeginListed(_, _) => 1
    case ChunkStart(_, _) => 4
    case ChunkReserving(_, _) => 3
    case ChunkSending(_, _) => 2
    case ChunkLeaving(_, _) => 1
    case FinishStart(_) => 6
    case FinishTaken(_) => 5
    case FinishChecking(_) => 4
    case FinishAwaiting(_) => 3
    case FinishRegistering(_, _) => 2
    case FinishNumbered(_, _, _) => 1
    case SlotStart(_) => 2
    case SlotNumbered(_, _) => 1
    case PollStart(_) => 3
    case PollHolding(_) => 2
    case PollHalf(_, _) => 1
    case Returned(_) => 0
  }

  function Steps(calls: seq<Call>): (n: nat) {
    if calls == [] then 0 else Steps(calls[..|calls| - 1]) + Rank(calls[|calls| - 1].phase)
  }

  /** What the tasks still have to do: hand over and count every byte they hold, and end. */
  function Work(table: seq<Stream>): (n: nat) {
    Sum(seq(|table|, i requires 0 <= i < |table| => Left(table[i])))
  }

  function Sum(ns: seq<nat>): (n: nat) {
    if ns == [] then 0 else Sum(ns[..|ns| - 1]) + ns[|ns| - 1]
  }

  function Left(st: Stream): (n: nat) {
    2 * |Contents(st.source)| + (if st.task.Running? then 1 else 0) + if st.meter.uncounted > 0 then 1 else 0
  }

  lemma {:induction false} StepsUpdate(calls: seq<Call>, c: nat, call: Call)
    requires c < |calls|
    ensures Steps(calls[c := call]) == Steps(calls) - Rank(calls[c].phase) + Rank(call.phase)
  {
    var last := |calls| - 1;
    if c == last {
      assert calls[c := call][..last] == calls[..last];
    } else {
      StepsUpdate(calls[..last], c, call);
      assert calls[c := call][..last] == calls[..last][c := call];
    }
  }

  lemma {:induction false} SumUpdate(ns: seq<nat>, k: nat, n: nat)
    requires k < |ns|
    ensures Sum(ns[k := n]) == Sum(ns) - ns[k] + n
  {
    var last := |ns| - 1;
    if k == last {
      assert ns[k := n][..last] == ns[..last];
    } else {
      SumUpdate(ns[..last], k, n);
      assert ns[k := n][..last] == ns[..last][k := n];
    }
  }

  lemma WorkUpdate(table: seq<Stream>, k: nat, st: Stream)
    requires k < |table|
    ensures Work(table[k := st]) == Work(table) - Left(table[k]) + Left(st)
  {
    var t := table[k := st];
    var before := seq(|table|, i requires 0 <= i < |table| => Left(table[i]));
    var after := seq(|t|, i requires 0 <= i < |t| => Left(t[i]));
    assert after == before[k := Left(st)];
    SumUpdate(before, k, Left(st));
  }

  /** Every declared size, of an open stream or of one being opened, is small enough not to wrap. */
  ghost predicate AllSafe(s: State) {
    forall c | 0 <= c < |s.calls| && s.calls[c].request.Begin? :: Fits(s.calls[c].request.size)
  }

  lemma StreamsAreSafe(s: State, k: nat)
    requires Inv(s) && AllSafe(s) && k < |s.table|
    ensures Safe(s.table[k])
  {
    assert StreamInv(s, k);
  }

  ghost predicate AllReturned(s: State) {
    forall c | 0 <= c < |s.calls| :: s.calls[c].phase.Returned?
  }

  /** A step of a pending call, a read that hands something over, its count, or a task that succeeds. */
  ghost predicate Productive(s: State, a: Action) {
    && Enabled(s, a)
    && match a
       case Advance(_) => true
       case Read(k, _) => |Contents(ReadStream(s.table[k], a.room).source)| < |Contents(s.table[k].source)|
       case Count(_) => true
       case Succeed(_) => true
       case _ => false
  }

  /** Unless every call has returned, something that is not a failure can happen and is progress. */
  lemma SomethingMoves(s: State, c: nat) returns (a: Action)
    requires Inv(s) && AllSafe(s) && c < |s.calls| && !s.calls[c].phase.Returned?
    ensures Productive(s, a)
  {
    assert CallInv(s, c);
    if CanAdvance(s, c) {
      a := Advance(c);
    } else if s.calls[c].phase.FinishAwaiting? {
      a := AwaitedTaskMoves(s, c);
    } else if s.calls[c].phase.ChunkSending? {
      var k := s.calls[c].phase.stream;
      assert StreamInv(s, k);
      QueuedMeansContents(s.table[k]);
      a := HeldBytesMove(s, k);
    } else {
      GuardsHold(s, c);
      a := Advance(c);
    }
  }

  /** The only calls that ever wait are a send into a full channel and a finish awaiting its task. */
  lemma GuardsHold(s: State, c: nat)
    requires Inv(s) && c < |s.calls| && !s.calls[c].phase.Returned?
    requires !s.calls[c].phase.ChunkSending? && !s.calls[c].phase.FinishAwaiting?
    ensures CanAdvance(s, c)
  {
    assert CallInv(s, c);
    var p := s.calls[c].phase;
    if p.ChunkLeaving? || p.FinishTaken? {
      assert StreamInv(s, p.stream);
      SumsCover(s.calls, c, p.stream);
    } else if p.ChunkStart? {
      assert p.id in s.streams ==> StreamOk(s, p.id);
    } else if p.FinishStart? {
      assert p.id in s.streams ==> StreamOk(s, p.id);
    }
  }

  lemma HeldBytesMove(s: State, k: nat) returns (a: Action)
    requires k < |s.table| && s.table[k].task.Running?
    requires Contents(s.table[k].source) != [] || s.table[k].meter.uncounted > 0
    ensures Productive(s, a)
  {
    var st := s.table[k];
    if st.meter.uncounted > 0 {
      return Count(k);
    }
    PollRefinesByteQueue(st.source, 1, st.senders > 0);
    var (answer, after) := Poll(st.source, 1, st.senders > 0);
    assert |answer.bytes| + |Contents(after)| == |Contents(st.source)|;
    a := Read(k, 1);
  }

  /** An awaited task can read, be sent more, or succeed. */
  lemma AwaitedTaskMoves(s: State, c: nat) returns (a: Action)
    requires Inv(s) && AllSafe(s) && c < |s.calls| && s.calls[c].phase.FinishAwaiting? && !CanAdvance(s, c)
    ensures Productive(s, a)
  {
    assert CallInv(s, c);
    var k := s.calls[c].phase.stream;
    assert StreamInv(s, k);
    StreamsAreSafe(s, k);
    var st := s.table[k];
    if Contents(st.source) != [] || st.meter.uncounted > 0 {
      a := HeldBytesMove(s, k);
    } else if SumHolds(s.calls, k) > 0 {
      var d := SumsWitness(s.calls, k);
      assert CallInv(s, d);
      if s.calls[d].phase.ChunkSending? {
        QueuedMeansContents(st);
      } else {
        GuardsHold(s, d);
      }
      a := Advance(d);
    } else {
      NoHolderNoReserve(s.calls, k);
      assert st.delivered + [] == st.delivered;
      a := Succeed(k);
    }
  }

  /** A call's step leaves it fewer steps and draws at most one id. */
  lemma AdvanceDescends(s: State, c: nat)
    requires CanAdvance(s, c)
    ensures var t := AdvanceCall(s, c);
            && Steps(t.calls) < Steps(s.calls)
            && |t.issued| + Steps(t.calls) <= |s.issued| + Steps(s.calls)
  {
    var t := AdvanceCall(s, c);
    AdvanceRank(s, c);
    assert t.calls == s.calls[c := t.calls[c]];
    StepsUpdate(s.calls, c, t.calls[c]);
  }

  lemma AdvanceRank(s: State, c: nat)
    requires CanAdvance(s, c)
    ensures Rank(AdvanceCall(s, c).calls[c].phase) < Rank(s.calls[c].phase)
  {
    var p := s.calls[c].phase;
    if IsBegin(p) {
      BeginRank(s, c);
    } else if IsChunk(p) {
      ChunkRank(s, c);
    } else if IsFinish(p) {
      FinishRank(s, c);
    } else {
      ProgressRank(s, c);
    }
  }

  lemma BeginRank(s: State, c: nat)
    requires CanAdvance(s, c) && IsBegin(s.calls[c].phase)
    ensures Rank(AdvanceBegin(s, c).calls[c].phase) < Rank(s.calls[c].phase)
  {
  }

  lemma ChunkRank(s: State, c: nat)
    requires CanAdvance(s, c) && IsChunk(s.calls[c].phase)
    ensures Rank(AdvanceChunk(s, c).calls[c].phase) < Rank(s.calls[c].phase)
  {
  }

  lemma FinishRank(s: State, c: nat)
    requires CanAdvance(s, c) && IsFinish(s.calls[c].phase)
    ensures Rank(AdvanceFinish(s, c).calls[c].phase) < Rank(s.calls[c].phase)
  {
  }

  lemma ProgressRank(s: State, c: nat)
    requires CanAdvance(s, c)
    requires !IsBegin(s.calls[c].phase) && !IsChunk(s.calls[c].phase) && !IsFinish(s.calls[c].phase)
    ensures Rank(AdvanceProgress(s, c).calls[c].phase) < Rank(s.calls[c].phase)
  {
  }

  lemma TaskDescends(s: State, a: Action)
    requires Productive(s, a) && !a.Advance?
    ensures Work(Next(s, a).table) < Work(s.table)
    ensures Next(s, a).calls == s.calls && Next(s, a).issued == s.issued
  {
    var k := a.stream;
    WorkUpdate(s.table, k, Next(s, a).table[k]);
    assert Contents(EMPTY) == [] && |Contents(EMPTY)| == 0;
  }

  lemma StaysSafe(s: State, a: Action)
    requires Productive(s, a) && AllSafe(s)
    ensures AllSafe(Next(s, a))
  {
    if a.Advance? {
      var t := AdvanceCall(s, a.call);
      assert forall c | 0 <= c < |t.calls| :: t.calls[c].request == s.calls[c].request;
    } else {
      TaskDescends(s, a);
    }
  }

  ghost predicate AllProductive(s: State, actions: seq<Action>)
    requires Runs(s, actions)
    decreases |actions|
  {
    actions == [] || (Productive(s, actions[0]) && AllProductive(Next(s, actions[0]), actions[1..]))
  }

  /**
   No deadlock: from every state that satisfies the invariant the pending calls and the running tasks
   can, without any failure and without any new call, bring every call to its return.
   */
  lemma EveryCallCanReturn(s: State) returns (actions: seq<Action>)
    requires Inv(s) && AllSafe(s) && |s.issued| + Steps(s.calls) <= TWO_64
    ensures Runs(s, actions) && AllProductive(s, actions) && AllReturned(Run(s, actions))
    decreases Steps(s.calls), Work(s.table)
  {
    if AllReturned(s) {
      actions := [];
    } else {
      var c :| 0 <= c < |s.calls| && !s.calls[c].phase.Returned?;
      var a := SomethingMoves(s, c);
      var t := Next(s, a);
      if a.Advance? {
        AdvanceDescends(s, a.call);
      } else {
        TaskDescends(s, a);
      }
      StepKeepsInv(s, a);
      StaysSafe(s, a);
      var rest := EveryCallCanReturn(t);
      actions := [a] + rest;
      assert actions[1..] == rest;
    }
  }

  // ---------------------------------------------------------------- every productive run ends

  /** The bytes a call may still add to an upload task's work, and the one it may still start. */
  function Burden(p: Phase): (n: nat) {
    match p
    case BeginStart(_) => 1
    case ChunkStart(_, bytes) => 2 * |bytes|
    case ChunkReserving(_, bytes) => 2 * |bytes|
    case ChunkSending(_, bytes) => 2 * |bytes|
    case _ => 0
  }

  function Burdens(calls: seq<Call>): (n: nat) {
    if calls == [] then 0 else Burdens(calls[..|calls| - 1]) + Burden(calls[|calls| - 1].phase)
  }

  /** Everything calls and tasks still have to do. */
  function ToDo(s: State): (n: nat) {
    Steps(s.calls) + Burdens(s.calls) + Work(s.table)
  }

  lemma {:induction false} BurdensUpdate(calls: seq<Call>, c: nat, call: Call)
    requires c < |calls|
    ensures Burdens(calls[c := call]) == Burdens(calls) - Burden(calls[c].phase) + Burden(call.phase)
  {
    var last := |calls| - 1;
    if c == last {
      assert calls[c := call][..last] == calls[..last];
    } else {
      BurdensUpdate(calls[..last], c, call);
      assert calls[c := call][..last] == calls[..last][c := call];
    }
  }

  lemma WorkAppend(table: seq<Stream>, st: Stream)
    ensures Work(table + [st]) == Work(table) + Left(st)
  {
    var t := table + [st];
    var before := seq(|table|, i requires 0 <= i < |table| => Left(table[i]));
    var after := seq(|t|, i requires 0 <= i < |t| => Left(t[i]));
    assert after == before + [Left(st)];
    assert after[..|after| - 1] == before;
  }

  /** A step of a call moves work to a task at most. */
  lemma WorkMoves(s: State, c: nat)
    requires CanAdvance(s, c)
    ensures var t := AdvanceCall(s, c);
            Work(t.table) + Burden(t.calls[c].phase) <= Work(s.table) + Burden(s.calls[c].phase)
  {
    var p := s.calls[c].phase;
    if IsBegin(p) {
      BeginMovesWork(s, c);
    } else if IsChunk(p) {
      ChunkMovesWork(s, c);
    } else if IsFinish(p) {
      FinishMovesWork(s, c);
    }
  }

  lemma BeginMovesWork(s: State, c: nat)
    requires CanAdvance(s, c) && IsBegin(s.calls[c].phase)
    ensures var t := AdvanceBegin(s, c);
            Work(t.table) + Burden(t.calls[c].phase) <= Work(s.table) + Burden(s.calls[c].phase)
  {
    match s.calls[c].phase
    case BeginStart(size) =>
      assert Contents(EMPTY) == [];
      WorkAppend(s.table, NewStream(c, size));
    case BeginSpawned(k) =>
      WorkUpdate(s.table, k, AdvanceBegin(s, c).table[k]);
    case _ =>
  }

  lemma ChunkMovesWork(s: State, c: nat)
    requires CanAdvance(s, c) && IsChunk(s.calls[c].phase)
    ensures var t := AdvanceChunk(s, c);
            Work(t.table) + Burden(t.calls[c].phase) <= Work(s.table) + Burden(s.calls[c].phase)
  {
    var t, p := AdvanceChunk(s, c), s.calls[c].phase;
    ChunkTable(s, c);
    if p.ChunkSending? {
      SendMovesWork(s.table, p.stream, Sent(c, p.bytes));
    } else if p.ChunkStart? {
      if p.id in s.streams {
        SameWork(s.table, s.streams[p.id], t.table[s.streams[p.id]]);
      }
    } else {
      SameWork(s.table, p.stream, t.table[p.stream]);
    }
  }

  /** What a step of a chunk call does to the table, and to its own burden. */
  lemma ChunkTable(s: State, c: nat)
    requires CanAdvance(s, c) && IsChunk(s.calls[c].phase)
    ensures var t, p := AdvanceChunk(s, c), s.calls[c].phase;
            && Burden(t.calls[c].phase) <= Burden(p)
            && if p.ChunkSending? then
                 && Burden(t.calls[c].phase) == 0
                 && var st := s.table[p.stream];
                    t.table == s.table[p.stream := if st.task.Running? then Enqueued(st, Sent(c, p.bytes))
                                                   else st.(failed := st.failed + |p.bytes|)]
               else if p.ChunkStart? then
                 if p.id in s.streams then SourceAndTaskKept(s.table, s.streams[p.id], t.table) else t.table == s.table
               else SourceAndTaskKept(s.table, p.stream, t.table)
  {
  }

  predicate SourceAndTaskKept(a: seq<Stream>, k: nat, b: seq<Stream>) {
    k < |a| && |b| == |a| && b == a[k := b[k]]
    && b[k].source == a[k].source && b[k].task == a[k].task && b[k].meter == a[k].meter
  }

  lemma SendMovesWork(table: seq<Stream>, k: nat, entry: Sent)
    requires k < |table|
    ensures table[k].task.Running? ==> Work(table[k := Enqueued(table[k], entry)]) == Work(table) + 2 * |entry.bytes|
    ensures Work(table[k := table[k].(failed := table[k].failed + |entry.bytes|)]) == Work(table)
  {
    WorkUpdate(table, k, Enqueued(table[k], entry));
    FlattenSnoc(table[k].source.queue, entry.bytes);
    SameWork(table, k, table[k].(failed := table[k].failed + |entry.bytes|));
  }

  lemma FinishMovesWork(s: State, c: nat)
    requires CanAdvance(s, c) && IsFinish(s.calls[c].phase)
    ensures var t := AdvanceFinish(s, c);
            Work(t.table) + Burden(t.calls[c].phase) <= Work(s.table) + Burden(s.calls[c].phase)
  {
    var p := s.calls[c].phase;
    FinishTable(s, c);
    if p.FinishStart? && p.id in s.streams {
      SameWork(s.table, s.streams[p.id], AdvanceFinish(s, c).table[s.streams[p.id]]);
    } else if p.FinishTaken? {
      SameWork(s.table, p.stream, AdvanceFinish(s, c).table[p.stream]);
    }
  }

  lemma FinishTable(s: State, c: nat)
    requires CanAdvance(s, c) && IsFinish(s.calls[c].phase)
    ensures var t, p := AdvanceFinish(s, c), s.calls[c].phase;
            && Burden(t.calls[c].phase) == 0
            && if p.FinishStart? && p.id in s.streams then SourceAndTaskKept(s.table, s.streams[p.id], t.table)
               else if p.FinishTaken? then SourceAndTaskKept(s.table, p.stream, t.table)
               else t.table == s.table
  {
  }

  lemma SameWork(table: seq<Stream>, k: nat, after: Stream)
    requires k < |table| && after.source == table[k].source && after.task == table[k].task
    requires after.meter == table[k].meter
    ensures Work(table[k := after]) == Work(table)
  {
    WorkUpdate(table, k, after);
  }

  lemma ProductiveDescends(s: State, a: Action)
    requires Productive(s, a)
    ensures ToDo(Next(s, a)) < ToDo(s)
  {
    if a.Advance? {
      var t := AdvanceCall(s, a.call);
      AdvanceDescends(s, a.call);
      WorkMoves(s, a.call);
      assert t.calls == s.calls[a.call := t.calls[a.call]];
      BurdensUpdate(s.calls, a.call, t.calls[a.call]);
    } else {
      TaskDescends(s, a);
    }
  }

  /** A run of productive steps is no longer than what there was to do. */
  lemma {:induction false} ProductiveRunIsBounded(s: State, actions: seq<Action>)
    requires Runs(s, actions) && AllProductive(s, actions)
    ensures |actions| + ToDo(Run(s, actions)) <= ToDo(s)
    decreases |actions|
  {
    if actions != [] {
      ProductiveDescends(s, actions[0]);
      ProductiveRunIsBounded(Next(s, actions[0]), actions[1..]);
    }
  }

  lemma {:induction false} ProductiveRunKeeps(s: State, actions: seq<Action>)
    requires Runs(s, actions) && AllProductive(s, actions)
    requires Inv(s) && AllSafe(s) && |s.issued| + Steps(s.calls) <= TWO_64
    ensures Inv(Run(s, actions)) && AllSafe(Run(s, actions))
    decreases |actions|
  {
    if actions != [] {
      var a := actions[0];
      if a.Advance? {
        AdvanceDescends(s, a.call);
      } else {
        TaskDescends(s, a);
      }
      StepKeepsInv(s, a);
      StaysSafe(s, a);
      ProductiveRunKeeps(Next(s, a), actions[1..]);
    }
  }

  /** Whichever productive steps are chosen, when none is left to choose every call has returned. */
  lemma MaximalRunReturnsAll(s: State, actions: seq<Action>)
    requires Runs(s, actions) && AllProductive(s, actions)
    requires Inv(s) && AllSafe(s) && |s.issued| + Steps(s.calls) <= TWO_64
    ensures (forall a :: !Productive(Run(s, actions), a)) ==> AllReturned(Run(s, actions))
  {
    ProductiveRunKeeps(s, actions);
    var t := Run(s, actions);
    if !AllReturned(t) {
      var c :| 0 <= c < |t.calls| && !t.calls[c].phase.Returned?;
      var a := SomethingMoves(t, c);
    }
  }
}
